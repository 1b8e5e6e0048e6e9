/** The cache in front of the status files: an entry is served as long as the file's size and
    modification time, in seconds, show no change. */
module FileCache {
  import opened Wrappers

  /** One version of the file. */
  datatype Version<T> = Version(size: int, modified: int, data: T)

  /** A cached value with the size and time of the file as they were before it was loaded. */
  datatype Entry<T> = Entry(data: T, size: int, modified: int)

  datatype Info = Info(size: int, modified: int)

  datatype Result<T> = Served(data: T) | Failed | Panicked

  /** An absent entry is compared as a zero size and a zero time. */
  predicate IsStale<T>(entry: Option<Entry<T>>, fi: Info) {
    if entry.Some? then entry.value.modified < fi.modified || entry.value.size != fi.size
    else 0 < fi.modified || 0 != fi.size
  }

  /** What a call does to the entry of its file, and what it yields. */
  predicate Loads<T(==)>(before: Option<Entry<T>>, fi: Option<Info>, loaded: Option<T>, r: Result<T>, after: Option<Entry<T>>) {
    if fi.None? then r == Failed && after == before
    else if !IsStale(before, fi.value) then after == before && r == if before.Some? then Served(before.value.data) else Panicked
    else if loaded.None? then r == Failed && after == before
    else r == Served(loaded.value) && after == Some(Entry(loaded.value, fi.value.size, fi.value.modified))
  }

  // ------------------------------------------------------- one caller at a time

  class Cache<T> {
    var entries: map<string, Entry<T>>

    constructor ()
      ensures entries == map[]
    {
      entries := map[];
    }

    function Lookup(file: string): (entry: Option<Entry<T>>)
      reads this
    {
      if file in entries then Some(entries[file]) else None
    }

    method Store(file: string, data: T, fi: Info)
      modifies this
      ensures entries == old(entries)[file := Entry(data, fi.size, fi.modified)]
    {
      entries := entries[file := Entry(data, fi.size, fi.modified)];
    }

    method Invalidate(file: string)
      modifies this
      ensures entries == old(entries) - {file}
    {
      entries := entries - {file};
    }

    /** `fi` is what inspecting the file yields, `loaded` what loading it then yields. */
    method LoadLatest(file: string, fi: Option<Info>, loaded: Option<T>) returns (r: Result<T>)
      modifies this
      ensures Loads(old(Lookup(file)), fi, loaded, r, Lookup(file))
      ensures entries - {file} == old(entries) - {file}
      ensures r == Failed <==> fi.None? || (IsStale(old(Lookup(file)), fi.value) && loaded.None?)
      ensures r == Failed || r == Panicked ==> Lookup(file) == old(Lookup(file))
    {
      var entry := Lookup(file);
      if fi.None? {
        return Failed;
      }
      if IsStale(entry, fi.value) {
        if loaded.None? {
          return Failed;
        }
        Store(file, loaded.value, fi.value);
        return Served(loaded.value);
      }
      if file in entries {
        return Served(entries[file].data);
      }
      return Panicked;
    }
  }

  // ------------------------------------------------------------- any interleaving

  /** A call in progress: it has read the entry; inspected the file at version `at` and found
      the entry stale or fresh; loaded version `got`; or returned, having served version
      `got`, or having found no entry where it had seen one. */
  datatype Call =
    | Begun
    | HasEntry(entry: Option<Stamp>)
    | Stale(at: nat)
    | Fresh(at: nat, entry: Option<Stamp>)
    | Loaded(at: nat, got: nat)
    | Returned(at: nat, got: nat)
    | Crashed(at: nat)

  /** An entry, by the version whose size and time it carries and the version of its data. */
  datatype Stamp = Stamp(seen: nat, got: nat)

  datatype State<!T> = State(versions: seq<Version<T>>, entry: Option<Stamp>, calls: map<int, Call>)

  datatype Action<T> = Write(version: Version<T>) | Delete | Move(caller: int)

  function InfoOf<T>(s: State<T>, i: nat): Info
    requires i < |s.versions|
  {
    Info(s.versions[i].size, s.versions[i].modified)
  }

  function EntryOf<T>(s: State<T>, e: Option<Stamp>): (r: Option<Entry<T>>)
    requires e.Some? ==> e.value.seen < |s.versions| && e.value.got < |s.versions|
  {
    if e.None? then None
    else Some(Entry(s.versions[e.value.got].data, InfoOf(s, e.value.seen).size, InfoOf(s, e.value.seen).modified))
  }

  /** All version numbers in the state exist. */
  ghost predicate Indexed<T>(s: State<T>) {
    && s.versions != []
    && StampExists(s, s.entry)
    && forall k :: k in s.calls ==> CallIndexed(s, s.calls[k])
  }

  ghost predicate StampExists<T>(s: State<T>, e: Option<Stamp>) {
    e.Some? ==> e.value.seen < |s.versions| && e.value.got < |s.versions|
  }

  ghost predicate CallIndexed<T>(s: State<T>, c: Call) {
    match c
    case Begun => true
    case HasEntry(e) => StampExists(s, e)
    case Stale(at) => at < |s.versions|
    case Fresh(at, e) => at < |s.versions| && StampExists(s, e)
    case Loaded(at, got) => at < |s.versions| && got < |s.versions|
    case Returned(at, got) => at < |s.versions| && got < |s.versions|
    case Crashed(at) => at < |s.versions|
  }

  function Step<T>(s: State<T>, c: Call): (r: (Call, Option<Stamp>))
    requires s.versions != [] && (c.HasEntry? ==> StampExists(s, c.entry))
  {
    var now := |s.versions| - 1;
    match c
    case Begun => (HasEntry(s.entry), s.entry)
    case HasEntry(e) => (if IsStale(EntryOf(s, e), InfoOf(s, now)) then Stale(now) else Fresh(now, e), s.entry)
    case Stale(at) => (Loaded(at, now), s.entry)
    case Loaded(at, got) => (Returned(at, got), Some(Stamp(at, got)))
    case Fresh(at, e) =>
      (if s.entry.Some? then Returned(at, s.entry.value.got) else Crashed(at), s.entry)
    case Returned(_, _) => (c, s.entry)
    case Crashed(_) => (c, s.entry)
  }

  function CallOf<T>(s: State<T>, caller: int): Call {
    if caller in s.calls then s.calls[caller] else Begun
  }

  ghost function Next<T>(s: State<T>, a: Action<T>): (s': State<T>)
    requires Indexed(s)
    ensures Indexed(s')
  {
    match a
    case Write(version) => s.(versions := s.versions + [version])
    case Delete => s.(entry := None)
    case Move(caller) =>
      var r := Step(s, CallOf(s, caller));
      s.(calls := s.calls[caller := r.0], entry := r.1)
  }

  ghost function At<T>(s0: State<T>, acts: nat -> Action<T>, t: nat): (s: State<T>)
    requires Indexed(s0)
    ensures Indexed(s)
  {
    if t == 0 then s0 else Next(At(s0, acts, t - 1), acts(t - 1))
  }

  /** A file that exists, an empty cache, no calls. */
  ghost predicate Init<T>(s: State<T>) {
    s.versions != [] && s.entry == None && s.calls == map[]
  }

  // ------------------------------------------------------------------- coherence

  /** Each version can be told from all earlier ones, and none has a time of zero or less. */
  ghost predicate Distinguishable<T>(versions: seq<Version<T>>) {
    && (forall i, j :: 0 <= i < j < |versions| ==>
          versions[i].size != versions[j].size || versions[i].modified < versions[j].modified)
    && (forall i :: 0 <= i < |versions| ==> versions[i].modified > 0)
  }

  /** The data of an entry is at least as recent as the size and time it carries. */
  ghost predicate StampFits(e: Option<Stamp>) {
    e.Some? ==> e.value.seen <= e.value.got
  }

  /** An entry found fresh carries the size and time of the version it was compared with. */
  ghost predicate CallFits(c: Call) {
    match c
    case Begun => true
    case HasEntry(e) => StampFits(e)
    case Stale(at) => true
    case Fresh(at, e) => StampFits(e) && e.Some? && e.value.seen == at
    case Loaded(at, got) => at <= got
    case Returned(_, _) => true
    case Crashed(_) => true
  }

  ghost predicate Fits<T>(s: State<T>) {
    StampFits(s.entry) && forall k :: k in s.calls ==> CallFits(s.calls[k])
  }

  lemma NextFits<T>(s: State<T>, a: Action<T>)
    requires Indexed(s) && Fits(s) && Distinguishable(s.versions)
    ensures Fits(Next(s, a))
  {
    var s' := Next(s, a);
    if a.Move? {
      assert CallFits(CallOf(s, a.caller)) && (a.caller in s.calls ==> CallIndexed(s, s.calls[a.caller]));
      assert CallFits(Step(s, CallOf(s, a.caller)).0);
    }
    forall k | k in s'.calls ensures CallFits(s'.calls[k]) {
      if !(a.Move? && k == a.caller) {
        assert CallFits(s.calls[k]);
      }
    }
  }

  lemma {:induction false} VersionsGrow<T>(s0: State<T>, acts: nat -> Action<T>, t: nat)
    requires Indexed(s0) && t > 0
    ensures At(s0, acts, t - 1).versions <= At(s0, acts, t).versions
  {
  }

  lemma EarlierVersionsDiffer<T>(s0: State<T>, acts: nat -> Action<T>, t: nat)
    requires Indexed(s0) && t > 0 && Distinguishable(At(s0, acts, t).versions)
    ensures Distinguishable(At(s0, acts, t - 1).versions)
  {
    VersionsGrow(s0, acts, t);
    var earlier, later := At(s0, acts, t - 1).versions, At(s0, acts, t).versions;
    assert forall i :: 0 <= i < |earlier| ==> earlier[i] == later[i];
  }

  lemma {:induction false} FitsThroughout<T>(s0: State<T>, acts: nat -> Action<T>, t: nat)
    requires Init(s0) && Indexed(s0) && Distinguishable(At(s0, acts, t).versions)
    ensures Fits(At(s0, acts, t))
    decreases t
  {
    if t > 0 {
      EarlierVersionsDiffer(s0, acts, t);
      FitsThroughout(s0, acts, t - 1);
      NextFits(At(s0, acts, t - 1), acts(t - 1));
    }
  }

  // ------------------------------------------- what becomes of the entry during a call

  /** What an action does to the entry. */
  datatype Change = Stored(stamp: Stamp) | Deleted

  function ChangeBy<T>(s: State<T>, a: Action<T>): Option<Change> {
    match a
    case Write(_) => None
    case Delete => Some(Deleted)
    case Move(caller) =>
      if CallOf(s, caller).Loaded? then Some(Stored(Stamp(CallOf(s, caller).at, CallOf(s, caller).got))) else None
  }

  /** The last change of the entry from one moment to another, if any. */
  ghost function LastChange<T>(s0: State<T>, acts: nat -> Action<T>, from: nat, t: nat): Option<Change>
    requires Indexed(s0)
    decreases t
  {
    if t <= from then None
    else
      var change := ChangeBy(At(s0, acts, t - 1), acts(t - 1));
      if change.Some? then change else LastChange(s0, acts, from, t - 1)
  }

  function Changed(before: Option<Stamp>, change: Option<Change>): Option<Stamp> {
    match change
    case None => before
    case Some(Stored(stamp)) => Some(stamp)
    case Some(Deleted) => None
  }

  lemma {:induction false} EntryIsLastChange<T>(s0: State<T>, acts: nat -> Action<T>, from: nat, t: nat)
    requires Indexed(s0) && from <= t
    ensures At(s0, acts, t).entry == Changed(At(s0, acts, from).entry, LastChange(s0, acts, from, t))
    decreases t
  {
    hide Indexed, IsStale, EntryOf;
    if t > from {
      EntryIsLastChange(s0, acts, from, t - 1);
    }
  }

  /** The call begins with its first read of the entry. */
  ghost predicate BeginsAt<T>(s0: State<T>, acts: nat -> Action<T>, t: nat, caller: int)
    requires Indexed(s0)
  {
    acts(t) == Move(caller) && CallOf(At(s0, acts, t), caller).Begun?
  }

  /** The call found the entry fresh and is about to read it again. */
  ghost predicate ReadsAgainAt<T>(s0: State<T>, acts: nat -> Action<T>, t: nat, caller: int)
    requires Indexed(s0)
  {
    acts(t) == Move(caller) && CallOf(At(s0, acts, t), caller).Fresh?
  }

  predicate OffFreshPath(c: Call) {
    c.Stale? || c.Loaded? || Over(c)
  }

  lemma CallMoves<T>(s: State<T>, a: Action<T>, caller: int)
    requires Indexed(s)
    ensures var c, c' := CallOf(s, caller), CallOf(Next(s, a), caller);
            && (!c.Begun? ==> !c'.Begun?)
            && (c'.HasEntry? ==> c' == c || (c.Begun? && a == Move(caller) && c'.entry == s.entry))
            && (c'.Fresh? ==> c' == c || (c.HasEntry? && c'.entry == c.entry))
            && (OffFreshPath(c) ==> OffFreshPath(c'))
            && (a == Move(caller) && c.Begun? ==> c' == HasEntry(s.entry))
  {
    hide IsStale, EntryOf;
  }

  /** A call on its way to the second read still holds what it read at first. */
  lemma {:induction false} RemembersFirstRead<T>(s0: State<T>, acts: nat -> Action<T>, t0: nat, t: nat, caller: int)
    requires Indexed(s0) && BeginsAt(s0, acts, t0, caller) && t0 < t
    ensures var c := CallOf(At(s0, acts, t), caller);
            && !c.Begun?
            && (c.HasEntry? || c.Fresh? ==> c.entry == At(s0, acts, t0).entry)
    decreases t
  {
    hide Indexed, Next, CallOf;
    CallMoves(At(s0, acts, t - 1), acts(t - 1), caller);
    if t > t0 + 1 {
      RemembersFirstRead(s0, acts, t0, t - 1, caller);
    }
  }

  /** Under any interleaving of writes, deletions and calls, a call that found the entry fresh
      ends by what has last happened to the entry since its first read.  It finds none exactly
      if that was a deletion, and serves data older than the file was when inspected exactly if
      another call has stored such data. */
  lemma ServedDataIsCurrent<T>(s0: State<T>, acts: nat -> Action<T>, t0: nat, t: nat, caller: int)
    requires Init(s0) && Indexed(s0) && Distinguishable(At(s0, acts, t).versions)
    requires BeginsAt(s0, acts, t0, caller) && ReadsAgainAt(s0, acts, t, caller) && t0 < t
    ensures var c, c' := CallOf(At(s0, acts, t), caller), CallOf(At(s0, acts, t + 1), caller);
            var last := LastChange(s0, acts, t0, t);
            && Over(c') && c'.at == c.at
            && (c'.Crashed? <==> last == Some(Deleted))
            && (c'.Returned? && c'.got < c'.at <==>
                  last.Some? && last.value.Stored? && last.value.stamp.got < c'.at)
  {
    hide LastChange, Distinguishable, Next;
    var s := At(s0, acts, t);
    FitsThroughout(s0, acts, t);
    assert CallFits(s.calls[caller]);
    RemembersFirstRead(s0, acts, t0, t, caller);
    EntryIsLastChange(s0, acts, t0, t);
    SecondRead(s, caller);
    assert At(s0, acts, t + 1) == Next(s, acts(t));
  }

  lemma SecondRead<T>(s: State<T>, caller: int)
    requires Indexed(s) && CallOf(s, caller).Fresh?
    ensures var at := CallOf(s, caller).at;
            CallOf(Next(s, Move(caller)), caller) == if s.entry.Some? then Returned(at, s.entry.value.got) else Crashed(at)
  {
  }

  /** A call that loads the file serves data at least as recent as it was when inspected. */
  lemma LoadedDataIsCurrent<T>(s0: State<T>, acts: nat -> Action<T>, t: nat, caller: int)
    requires Init(s0) && Indexed(s0) && Distinguishable(At(s0, acts, t).versions)
    requires acts(t) == Move(caller) && CallOf(At(s0, acts, t), caller).Loaded?
    ensures var c := CallOf(At(s0, acts, t + 1), caller); c.Returned? && c.at <= c.got
  {
    FitsThroughout(s0, acts, t);
    assert CallFits(At(s0, acts, t).calls[caller]);
    assert At(s0, acts, t + 1) == Next(At(s0, acts, t), acts(t));
  }

  /** A call loads nothing while the file is as it was when the entry was stored. */
  lemma UnchangedFileIsNotLoaded<T>(s: State<T>, caller: int)
    requires Indexed(s) && caller !in s.calls && s.entry.Some? && s.entry.value.seen == |s.versions| - 1
    ensures var s' := Moved(s, caller, 3);
            CallOf(s', caller) == Returned(|s.versions| - 1, s.entry.value.got) && s'.entry == s.entry
  {
    hide Indexed, Next;
    assert Moved(s, caller, 0) == s && CallOf(s, caller) == Begun;
    hide Moved;
    MovedOnce(s, caller, 0);
    MovedOnce(s, caller, 1);
    MovedOnce(s, caller, 2);
    VersionsExist(s);
  }

  // --------------------------------------------------------- calls that do not overlap

  /** Calls do not overlap; writes and deletions may fall anywhere. */
  ghost predicate OneAtATime<T>(s0: State<T>, acts: nat -> Action<T>)
    requires Indexed(s0)
  {
    forall t: nat, k :: acts(t).Move? && k in At(s0, acts, t).calls && k != acts(t).caller ==> Over(At(s0, acts, t).calls[k])
  }

  predicate Over(c: Call) {
    c.Returned? || c.Crashed?
  }

  ghost predicate Coherent(entry: Option<Stamp>, c: Call) {
    && (c.HasEntry? || c.Fresh? ==> entry == c.entry || entry == None)
    && (c.Returned? ==> c.at <= c.got)
  }

  ghost predicate AllCoherent<T>(s: State<T>) {
    forall k :: k in s.calls ==> Coherent(s.entry, s.calls[k])
  }

  lemma NextIsCoherent<T>(s: State<T>, a: Action<T>)
    requires Indexed(s) && Fits(s) && AllCoherent(s)
    requires forall k :: a.Move? && k in s.calls && k != a.caller ==> Over(s.calls[k])
    ensures AllCoherent(Next(s, a))
  {
    hide IsStale, EntryOf;
    var s' := Next(s, a);
    forall k | k in s'.calls ensures Coherent(s'.entry, s'.calls[k]) {
      if k in s.calls {
        assert Coherent(s.entry, s.calls[k]);
        assert CallFits(s.calls[k]);
      }
    }
  }

  lemma {:induction false} CoherentThroughout<T>(s0: State<T>, acts: nat -> Action<T>, t: nat)
    requires Init(s0) && Indexed(s0) && OneAtATime(s0, acts) && Distinguishable(At(s0, acts, t).versions)
    ensures AllCoherent(At(s0, acts, t))
    decreases t
  {
    hide Next, Indexed, Fits;
    if t > 0 {
      EarlierVersionsDiffer(s0, acts, t);
      FitsThroughout(s0, acts, t - 1);
      CoherentThroughout(s0, acts, t - 1);
      NextIsCoherent(At(s0, acts, t - 1), acts(t - 1));
    }
  }

  /** When calls do not overlap, every call that returns has served data at least as recent as
      the file was when it was inspected, wherever writes and deletions fall. */
  lemma SequentialCallsAreCoherent<T>(s0: State<T>, acts: nat -> Action<T>, t: nat, caller: int)
    requires Init(s0) && Indexed(s0) && OneAtATime(s0, acts) && Distinguishable(At(s0, acts, t).versions)
    requires caller in At(s0, acts, t).calls && At(s0, acts, t).calls[caller].Returned?
    ensures var c := At(s0, acts, t).calls[caller]; c.at <= c.got < |At(s0, acts, t).versions|
  {
    CoherentThroughout(s0, acts, t);
    assert Coherent(At(s0, acts, t).entry, At(s0, acts, t).calls[caller]);
    assert CallIndexed(At(s0, acts, t), At(s0, acts, t).calls[caller]);
  }

  ghost predicate DeletedBetween<T(!new)>(acts: nat -> Action<T>, from: nat, t: nat) {
    exists k: nat :: from <= k < t && acts(k).Delete?
  }

  lemma {:induction false} StaysOffFreshPath<T>(s0: State<T>, acts: nat -> Action<T>, k: nat, t: nat, caller: int)
    requires Indexed(s0) && k <= t && OffFreshPath(CallOf(At(s0, acts, k), caller))
    ensures OffFreshPath(CallOf(At(s0, acts, t), caller))
    decreases t
  {
    hide Indexed, Next, CallOf, OffFreshPath;
    if k < t {
      StaysOffFreshPath(s0, acts, k, t - 1, caller);
      CallMoves(At(s0, acts, t - 1), acts(t - 1), caller);
    }
  }

  lemma {:induction false} OnlyDeletionsBetween<T(!new)>(s0: State<T>, acts: nat -> Action<T>, t0: nat, k: nat, t: nat, caller: int)
    requires Indexed(s0) && OneAtATime(s0, acts)
    requires BeginsAt(s0, acts, t0, caller) && ReadsAgainAt(s0, acts, t, caller) && t0 < k <= t
    ensures LastChange(s0, acts, t0, k) == if DeletedBetween(acts, t0, k) then Some(Deleted) else None
    decreases k
  {
    hide Indexed, Next;
    var s, a := At(s0, acts, k - 1), acts(k - 1);
    if k - 1 > t0 {
      OnlyDeletionsBetween(s0, acts, t0, k - 1, t, caller);
      RemembersFirstRead(s0, acts, t0, k - 1, caller);
      if OffFreshPath(CallOf(s, caller)) {
        StaysOffFreshPath(s0, acts, k - 1, t, caller);
      }
    }
    assert ChangeBy(s, a) == if a.Delete? then Some(Deleted) else None;
    assert DeletedBetween(acts, t0, k) <==> DeletedBetween(acts, t0, k - 1) || a.Delete?;
  }

  /** When calls do not overlap, one that found the entry fresh finds none at its second read,
      and panics, exactly if the entry was invalidated or evicted in between. */
  lemma SequentialCallPanicsIfDeleted<T(!new)>(s0: State<T>, acts: nat -> Action<T>, t0: nat, t: nat, caller: int)
    requires Init(s0) && Indexed(s0) && OneAtATime(s0, acts) && Distinguishable(At(s0, acts, t).versions)
    requires BeginsAt(s0, acts, t0, caller) && ReadsAgainAt(s0, acts, t, caller) && t0 < t
    ensures CallOf(At(s0, acts, t + 1), caller).Crashed? <==> DeletedBetween(acts, t0, t)
  {
    hide At, LastChange, Distinguishable, OneAtATime, Indexed;
    ServedDataIsCurrent(s0, acts, t0, t, caller);
    OnlyDeletionsBetween(s0, acts, t0, t, t, caller);
  }

  // --------------------------------------------------- one call, move by move

  ghost function Moved<T>(s: State<T>, caller: int, n: nat): (s': State<T>)
    requires Indexed(s)
    ensures Indexed(s')
  {
    if n == 0 then s else Next(Moved(s, caller, n - 1), Move(caller))
  }

  function ResultOf<T>(s: State<T>, c: Call): Result<T>
    requires c.Returned? ==> c.got < |s.versions|
  {
    match c
    case Returned(_, got) => Served(s.versions[got].data)
    case Crashed(_) => Panicked
    case _ => Failed
  }

  lemma MovedOnce<T>(s: State<T>, caller: int, n: nat)
    requires Indexed(s)
    ensures var s1, s2 := Moved(s, caller, n), Moved(s, caller, n + 1);
            && CallIndexed(s1, CallOf(s1, caller)) && s2.versions == s1.versions
            && (CallOf(s2, caller), s2.entry) == Step(s1, CallOf(s1, caller))
  {
    hide Step;
  }

  /** A call that nothing interrupts is over after four moves and does what `LoadLatest` does
      for a file that can be inspected and loaded. */
  lemma UninterruptedCallIsLoadLatest<T>(s: State<T>, caller: int)
    requires Indexed(s) && caller !in s.calls
    ensures var s', now := Moved(s, caller, 4), |s.versions| - 1;
            var c := CallOf(s', caller);
            && Over(c) && s'.versions == s.versions && CallIndexed(s', c)
            && Loads(EntryOf(s, s.entry), Some(InfoOf(s, now)), Some(s.versions[now].data), ResultOf(s', c),
                     EntryOf(s', s'.entry))
  {
    hide Indexed, IsStale, Next;
    assert Moved(s, caller, 0) == s && CallOf(s, caller) == Begun;
    hide Moved;
    MovedOnce(s, caller, 0);
    MovedOnce(s, caller, 1);
    MovedOnce(s, caller, 2);
    MovedOnce(s, caller, 3);
    VersionsExist(s);
    VersionsExist(Moved(s, caller, 4));
  }

  lemma VersionsExist<T>(s: State<T>)
    requires Indexed(s)
    ensures s.versions != [] && StampExists(s, s.entry) && forall k :: CallIndexed(s, CallOf(s, k))
  {
  }

  // ------------------------------------------------------- why calls must not overlap

  /** A slow call inspects and loads the first version; after a write, another call caches the
      second; a third finds that fresh, and re-reads the entry after the slow call stored. */
  function Overlap<T>(second: Version<T>): nat -> Action<T> {
    k => if k == 3 then Write(second)
         else if k == 10 then Move(1)
         else if k < 3 then Move(1) else if k < 8 then Move(2) else Move(3)
  }

  lemma OverlapBegins<T>(first: Version<T>, second: Version<T>)
    requires first.modified > 0 && second.modified > 0
    ensures var s0 := State([first], None, map[]);
            && Indexed(s0)
            && At(s0, Overlap(second), 7) == State([first, second], None, map[1 := Loaded(0, 0), 2 := Loaded(1, 1)])
  {
    var s0 := State([first], None, map[]);
    hide At;
    var acts := Overlap(second);
    AtStart(s0, acts);
    AtNext(s0, acts, 0, State([first], None, map[1 := HasEntry(None)]));
    AtNext(s0, acts, 1, State([first], None, map[1 := Stale(0)]));
    AtNext(s0, acts, 2, State([first], None, map[1 := Loaded(0, 0)]));
    AtNext(s0, acts, 3, State([first, second], None, map[1 := Loaded(0, 0)]));
    AtNext(s0, acts, 4, State([first, second], None, map[1 := Loaded(0, 0), 2 := HasEntry(None)]));
    AtNext(s0, acts, 5, State([first, second], None, map[1 := Loaded(0, 0), 2 := Stale(1)]));
    AtNext(s0, acts, 6, State([first, second], None, map[1 := Loaded(0, 0), 2 := Loaded(1, 1)]));
  }

  lemma OverlapGoesOn<T>(first: Version<T>, second: Version<T>)
    requires first.modified > 0 && second.modified > 0
    ensures var s0 := State([first], None, map[]);
            var e := Some(Stamp(1, 1));
            && Indexed(s0)
            && At(s0, Overlap(second), 10) ==
               State([first, second], e, map[1 := Loaded(0, 0), 2 := Returned(1, 1), 3 := Fresh(1, e)])
  {
    var s0 := State([first], None, map[]);
    var acts, both, e := Overlap(second), [first, second], Some(Stamp(1, 1));
    OverlapBegins(first, second);
    hide At;
    AtNext(s0, acts, 7, State(both, e, map[1 := Loaded(0, 0), 2 := Returned(1, 1)]));
    AtNext(s0, acts, 8, State(both, e, map[1 := Loaded(0, 0), 2 := Returned(1, 1), 3 := HasEntry(e)]));
    AtNext(s0, acts, 9, State(both, e, map[1 := Loaded(0, 0), 2 := Returned(1, 1), 3 := Fresh(1, e)]));
  }

  /** With overlapping calls, superseded data can be served although every version can be
      told from the earlier ones. */
  lemma OverlappingCallsCanServeSupersededData<T>(first: Version<T>, second: Version<T>)
    requires Distinguishable([first, second])
    ensures var s0 := State([first], None, map[]);
            && Init(s0) && Indexed(s0)
            && At(s0, Overlap(second), 12).versions == [first, second]
            && CallOf(At(s0, Overlap(second), 12), 3) == Returned(1, 0)
  {
    var s0 := State([first], None, map[]);
    var acts, both, stored := Overlap(second), [first, second], Some(Stamp(0, 0));
    assert both[0] == first && both[1] == second;
    OverlapGoesOn(first, second);
    hide At, Distinguishable;
    var e := Some(Stamp(1, 1));
    var calls := map[1 := Returned(0, 0), 2 := Returned(1, 1), 3 := Fresh(1, e)];
    AtNext(s0, acts, 10, State(both, stored, calls));
    AtNext(s0, acts, 11, State(both, stored, calls[3 := Returned(1, 0)]));
  }

  /** One call loads and caches; a second finds that fresh, the entry is evicted, and the
      second read finds none. */
  function Evicted<T>(): nat -> Action<T> {
    k => if k < 4 then Move(1) else if k == 4 || k == 5 || k == 7 then Move(2) else Delete
  }

  lemma EvictedFirst<T>(first: Version<T>)
    requires first.modified > 0
    ensures var s0, acts, one := State([first], None, map[]), Evicted<T>(), [first];
            && Indexed(s0) && At(s0, acts, 0) == s0
            && At(s0, acts, 1) == State(one, None, map[1 := HasEntry(None)])
            && At(s0, acts, 2) == State(one, None, map[1 := Stale(0)])
            && At(s0, acts, 3) == State(one, None, map[1 := Loaded(0, 0)])
            && At(s0, acts, 4) == State(one, Some(Stamp(0, 0)), map[1 := Returned(0, 0)])
  {
    hide At;
    var s0, acts, one := State([first], None, map[]), Evicted<T>(), [first];
    AtStart(s0, acts);
    AtNext(s0, acts, 0, State(one, None, map[1 := HasEntry(None)]));
    AtNext(s0, acts, 1, State(one, None, map[1 := Stale(0)]));
    AtNext(s0, acts, 2, State(one, None, map[1 := Loaded(0, 0)]));
    AtNext(s0, acts, 3, State(one, Some(Stamp(0, 0)), map[1 := Returned(0, 0)]));
  }

  lemma EvictedThen<T>(first: Version<T>)
    requires first.modified > 0
    ensures var s0, acts, one := State([first], None, map[]), Evicted<T>(), [first];
            var e := Some(Stamp(0, 0));
            && Indexed(s0)
            && At(s0, acts, 5) == State(one, e, map[1 := Returned(0, 0), 2 := HasEntry(e)])
            && At(s0, acts, 6) == State(one, e, map[1 := Returned(0, 0), 2 := Fresh(0, e)])
            && At(s0, acts, 7) == State(one, None, map[1 := Returned(0, 0), 2 := Fresh(0, e)])
            && At(s0, acts, 8) == State(one, None, map[1 := Returned(0, 0), 2 := Crashed(0)])
  {
    hide At;
    var s0, acts, one, e := State([first], None, map[]), Evicted<T>(), [first], Some(Stamp(0, 0));
    EvictedFirst(first);
    AtNext(s0, acts, 4, State(one, e, map[1 := Returned(0, 0), 2 := HasEntry(e)]));
    AtNext(s0, acts, 5, State(one, e, map[1 := Returned(0, 0), 2 := Fresh(0, e)]));
    AtNext(s0, acts, 6, State(one, None, map[1 := Returned(0, 0), 2 := Fresh(0, e)]));
    AtNext(s0, acts, 7, State(one, None, map[1 := Returned(0, 0), 2 := Crashed(0)]));
  }

  /** An eviction between the two reads makes a call panic, although calls do not overlap and
      nothing was ever written. */
  lemma EvictionCanPanic<T>(first: Version<T>)
    requires first.modified > 0
    ensures var s0, acts := State([first], None, map[]), Evicted<T>();
            && Init(s0) && Indexed(s0) && OneAtATime(s0, acts)
            && CallOf(At(s0, acts, 8), 2) == Crashed(0)
  {
    hide At, Indexed;
    var s0, acts := State([first], None, map[]), Evicted<T>();
    EvictedFirst(first);
    EvictedThen(first);
    forall t: nat, k | acts(t).Move? && k in At(s0, acts, t).calls && k != acts(t).caller
      ensures Over(At(s0, acts, t).calls[k])
    {
      assert t in {0, 1, 2, 3, 4, 5, 7};
    }
  }

  lemma AtStart<T>(s0: State<T>, acts: nat -> Action<T>)
    requires Indexed(s0)
    ensures At(s0, acts, 0) == s0
  {
  }

  lemma AtNext<T>(s0: State<T>, acts: nat -> Action<T>, t: nat, s': State<T>)
    requires Indexed(s0) && Next(At(s0, acts, t), acts(t)) == s'
    ensures At(s0, acts, t + 1) == s'
  {
  }
}
