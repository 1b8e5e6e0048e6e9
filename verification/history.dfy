/** The history directory: status files found by request id, updated in place, and compacted
    by way of a temporary file that the lookup can see. */
module History {
  import opened Collections
  import opened ByteStrings
  import opened Lines
  import opened Wrappers

  // ------------------------------------------------------------------ file names

  /** Names in the order in which they are sorted. */
  predicate Less(a: string, b: string) {
    b != "" && (a == "" || a[0] < b[0] || (a[0] == b[0] && Less(a[1..], b[1..])))
  }

  lemma {:induction false} LessIsTotal(a: string, b: string)
    ensures a == b || Less(a, b) || Less(b, a)
    decreases |a|
  {
    if a != "" && b != "" && a[0] == b[0] {
      LessIsTotal(a[1..], b[1..]);
      assert a == [a[0]] + a[1..] && b == [b[0]] + b[1..];
    }
  }

  lemma {:induction false} LessIsTransitive(a: string, b: string, c: string)
    requires Less(a, b) && Less(b, c)
    ensures Less(a, c)
    decreases |a|
  {
    if a != "" && a[0] == b[0] && b[0] == c[0] {
      LessIsTransitive(a[1..], b[1..], c[1..]);
    }
  }

  lemma {:induction false} LessIsAsymmetric(a: string, b: string)
    requires Less(a, b)
    ensures !Less(b, a) && a != b
    decreases |a|
  {
    if a != "" && a[0] == b[0] {
      LessIsAsymmetric(a[1..], b[1..]);
    }
  }

  lemma {:induction false} LessAfterPrefix(p: string, a: string, b: string)
    requires Less(a, b)
    ensures Less(p + a, p + b)
    decreases |p|
  {
    if p == "" {
      assert p + a == a && p + b == b;
    } else {
      LessAfterPrefix(p[1..], a, b);
      assert (p + a)[1..] == p[1..] + a && (p + b)[1..] == p[1..] + b;
    }
  }

  const Extension := ".dat"

  predicate IsDataFile(name: string) {
    |name| >= 4 && name[|name| - 4..] == Extension
  }

  /** The names that the pattern of a DAG matches: its prefix, anything, the extension. */
  predicate Matches(prefix: string, name: string) {
    |name| >= |prefix| + 4 && name[..|prefix|] == prefix && IsDataFile(name)
  }

  /** What the pattern "prefix*.dat" stands for. */
  ghost predicate Globbed(prefix: string, name: string) {
    exists middle :: name == prefix + middle + ".dat"
  }

  lemma MatchesAreGlobbed(prefix: string, name: string)
    ensures Matches(prefix, name) <==> Globbed(prefix, name)
  {
    if Matches(prefix, name) {
      var middle := name[|prefix|..|name| - 4];
      assert name == prefix + middle + ".dat";
    }
    if middle :| name == prefix + middle + ".dat" {
      assert name[..|prefix|] == prefix;
      assert name[|name| - 4..] == ".dat";
    }
  }

  /** The temporary file of a compaction. */
  function TempName(target: string): string
    requires IsDataFile(target)
  {
    target[..|target| - 4] + "_c.dat"
  }

  /** The temporary name matches wherever the target does, and sorts after it. */
  lemma TempIsSeen(prefix: string, target: string)
    requires Matches(prefix, target)
    ensures Matches(prefix, TempName(target)) && Less(target, TempName(target))
  {
    var stem := target[..|target| - 4];
    assert target == stem + ".dat";
    assert Less(".dat", "_c.dat");
    LessAfterPrefix(stem, ".dat", "_c.dat");
    assert TempName(target)[..|prefix|] == target[..|prefix|];
  }

  // ------------------------------------------------------------------ the lookup

  type Dir = map<string, Bytes>

  /** How statuses are encoded, and the request id they carry. */
  datatype Format<!S> = Format(encode: S -> Bytes, decode: Bytes -> Option<S>, id: S -> string)

  datatype Found<S> = Found(name: string, status: S)

  /** The named file is one of the DAG's and says that request `id` has this status. */
  ghost predicate Holds<S>(f: Format<S>, dir: Dir, prefix: string, id: string, name: string, status: S) {
    name in dir && Matches(prefix, name) && Parsed(f.decode, dir[name]) == Some(status) && f.id(status) == id
  }

  ghost predicate Holder<S>(f: Format<S>, dir: Dir, prefix: string, id: string, name: string) {
    && name in dir && Matches(prefix, name)
    && Parsed(f.decode, dir[name]).Some? && f.id(Parsed(f.decode, dir[name]).value) == id
  }

  /** The greatest name that holds the request, if any does. */
  ghost predicate Finds<S>(f: Format<S>, dir: Dir, prefix: string, id: string, r: Option<Found<S>>) {
    match r
    case None => forall m :: !Holder(f, dir, prefix, id, m)
    case Some(found) =>
      && Holds(f, dir, prefix, id, found.name, found.status)
      && forall m :: Holder(f, dir, prefix, id, m) ==> m == found.name || Less(m, found.name)
  }

  ghost predicate FindsStatus<S(!new)>(f: Format<S>, dir: Dir, prefix: string, id: string, status: Option<S>) {
    exists r :: Finds(f, dir, prefix, id, r) && status == if r.Some? then Some(r.value.status) else None
  }

  lemma FindsIsFunctional<S>(f: Format<S>, dir: Dir, prefix: string, id: string,
                             r: Option<Found<S>>, r': Option<Found<S>>)
    requires Finds(f, dir, prefix, id, r) && Finds(f, dir, prefix, id, r')
    ensures r == r'
  {
    if r.Some? {
      assert Holder(f, dir, prefix, id, r.value.name);
      if r'.Some? {
        assert Holder(f, dir, prefix, id, r'.value.name);
        if r.value.name != r'.value.name {
          LessIsAsymmetric(r.value.name, r'.value.name);
        }
      }
    } else if r'.Some? {
      assert Holder(f, dir, prefix, id, r'.value.name);
    }
  }

  ghost predicate Descending(names: seq<string>) {
    forall i, j :: 0 <= i < j < |names| ==> Less(names[j], names[i])
  }

  /** Puts a new name in its place. */
  method Insert(names: seq<string>, name: string) returns (names': seq<string>)
    requires Descending(names) && name !in names
    ensures Descending(names')
    ensures forall m :: m in names' <==> m == name || m in names
  {
    var i := 0;
    while i < |names| && Less(name, names[i])
      invariant 0 <= i <= |names|
      invariant forall k :: 0 <= k < i ==> Less(name, names[k])
    {
      i := i + 1;
    }
    forall k | i <= k < |names| ensures Less(names[k], name) {
      LessIsTotal(name, names[i]);
      if k > i {
        LessIsTransitive(names[k], names[i], name);
      }
    }
    names' := names[..i] + [name] + names[i..];
  }

  /** The matching names, greatest first. */
  method GlobDescending(dir: Dir, prefix: string) returns (matches: seq<string>)
    ensures Descending(matches)
    ensures forall m :: m in matches <==> m in dir && Matches(prefix, m)
  {
    matches := [];
    var rest := dir.Keys;
    while rest != {}
      invariant rest <= dir.Keys && Descending(matches)
      invariant forall m :: m in matches <==> m in dir && m !in rest && Matches(prefix, m)
      decreases |rest|
    {
      var m :| m in rest;
      rest := rest - {m};
      if Matches(prefix, m) {
        matches := Insert(matches, m);
      }
    }
  }

  method FindByRequestID<S>(f: Format<S>, dir: Dir, prefix: string, id: string) returns (r: Option<Found<S>>)
    ensures id == "" ==> r == None
    ensures id != "" ==> Finds(f, dir, prefix, id, r)
    ensures r.Some? ==>
              && r.value.name in dir && Globbed(prefix, r.value.name)
              && Parsed(f.decode, dir[r.value.name]) == Some(r.value.status) && f.id(r.value.status) == id
    ensures id != "" && r.None? ==>
              forall name, middle :: name == prefix + middle + ".dat" && name in dir && Parsed(f.decode, dir[name]).Some? ==>
                f.id(Parsed(f.decode, dir[name]).value) != id
  {
    if id == "" {
      return None;
    }
    var matches := GlobDescending(dir, prefix);
    for i := 0 to |matches|
      invariant forall k :: 0 <= k < i ==> !Holder(f, dir, prefix, id, matches[k])
    {
      assert matches[i] in matches;
      var status := ParseStatusFile(f.decode, dir[matches[i]]);
      if status.Some? && f.id(status.value) == id {
        GreatestOfSorted(f, dir, prefix, id, matches, i);
        MatchesAreGlobbed(prefix, matches[i]);
        return Some(Found(matches[i], status.value));
      }
    }
    forall name, middle | name == prefix + middle + ".dat" && name in dir && Parsed(f.decode, dir[name]).Some?
      ensures f.id(Parsed(f.decode, dir[name]).value) != id
    {
      assert Globbed(prefix, name);
      MatchesAreGlobbed(prefix, name);
      assert !Holder(f, dir, prefix, id, name);
    }
    return None;
  }

  lemma GreatestOfSorted<S>(f: Format<S>, dir: Dir, prefix: string, id: string, matches: seq<string>, i: nat)
    requires i < |matches| && Descending(matches)
    requires forall m :: m in matches <==> m in dir && Matches(prefix, m)
    requires forall k :: 0 <= k < i ==> !Holder(f, dir, prefix, id, matches[k])
    ensures forall m :: Holder(f, dir, prefix, id, m) ==> m == matches[i] || Less(m, matches[i])
  {
    forall m | Holder(f, dir, prefix, id, m) ensures m == matches[i] || Less(m, matches[i]) {
      assert m in matches;
      var k :| 0 <= k < |matches| && matches[k] == m;
    }
  }

  // ------------------------------------------------------- compaction and crashes

  /** The encoder's promise, and that no record cut short parses. */
  ghost predicate Sound<S(!new)>(f: Format<S>) {
    Codec(f.encode, f.decode) && TornUnreadable(f.encode, f.decode)
  }

  function RecordOf<S>(f: Format<S>, status: S): Bytes {
    Record(f.encode, status)
  }

  /** The directory at some moment of compacting `target`, which said `status`: untouched,
      with the temporary file written up to some byte, without the original, or done. */
  ghost predicate DuringCompaction<S>(f: Format<S>, dir: Dir, target: string, status: S, now: Dir)
    requires IsDataFile(target)
  {
    var temp, record := TempName(target), RecordOf(f, status);
    || now == dir
    || (exists k :: 0 <= k <= |record| && now == dir[temp := record[..k]])
    || now == dir[temp := record] - {target}
    || now == dir[target := record]
  }

  /** A different status of the same request in a file that sorts between the target and its
      temporary file, and after every other file of that request. */
  ghost predicate Shadowed<S(!new)>(f: Format<S>, dir: Dir, prefix: string, target: string, status: S)
    requires IsDataFile(target)
  {
    exists found: Found<S> ::
      && Finds(f, dir, prefix, f.id(status), Some(found)) && found.status != status
      && Less(target, found.name) && Less(found.name, TempName(target))
  }

  /** A torn or complete record says the status or nothing. */
  lemma PrefixOfRecord<S(!new)>(f: Format<S>, status: S, k: nat)
    requires Sound(f) && k <= |RecordOf(f, status)|
    ensures Parsed(f.decode, RecordOf(f, status)[..k]) in {None, Some(status)}
    ensures k == |RecordOf(f, status)| ==> Parsed(f.decode, RecordOf(f, status)[..k]) == Some(status)
  {
    LastCompleteRecord(f.encode, f.decode, [], [], status, k);
    NothingToRead(f.decode);
    assert [] + Written(f.encode, []) + RecordOf(f, status)[..k] == RecordOf(f, status)[..k];
  }

  /** Nothing about a request changes if the same files hold it with the same statuses. */
  lemma SameHolders<S(!new)>(f: Format<S>, dir: Dir, now: Dir, prefix: string, id: string, r: Option<Found<S>>)
    requires Finds(f, dir, prefix, id, r)
    requires forall m :: Holder(f, now, prefix, id, m) ==> Holder(f, dir, prefix, id, m)
    requires r.Some? ==> Holds(f, now, prefix, id, r.value.name, r.value.status)
    ensures Finds(f, now, prefix, id, r)
  {
  }

  /** A complete or torn temporary file beside the original, or in its place. */
  lemma TempKeepsFinding<S(!new)>(f: Format<S>, dir: Dir, now: Dir, prefix: string, target: string, status: S,
                                  id: string, r: Option<Found<S>>) returns (r': Option<Found<S>>)
    requires Matches(prefix, target) && Holds(f, dir, prefix, f.id(status), target, status)
    requires !Shadowed(f, dir, prefix, target, status)
    requires Finds(f, dir, prefix, id, r)
    requires var temp := TempName(target);
             && temp !in dir && temp in now
             && (forall m :: m in now && m != temp ==> m in dir && now[m] == dir[m])
             && (forall m :: m in dir && m != target ==> m in now)
             && Parsed(f.decode, now[temp]) in {None, Some(status)}
             && (target !in now ==> Parsed(f.decode, now[temp]) == Some(status))
    ensures Finds(f, now, prefix, id, r')
    ensures r.Some? == r'.Some? && (r.Some? ==> r'.value.status == r.value.status)
  {
    var temp := TempName(target);
    TempIsSeen(prefix, target);
    if id != f.id(status) || Parsed(f.decode, now[temp]) == None {
      assert !Holder(f, now, prefix, id, temp);
      forall m | Holder(f, now, prefix, id, m) ensures Holder(f, dir, prefix, id, m) {
        assert m != temp;
      }
      SameHolders(f, dir, now, prefix, id, r);
      r' := r;
    } else {
      assert Holder(f, dir, prefix, id, target);
      assert r.Some? by {
        assert Holder(f, dir, prefix, id, target);
      }
      var best := r.value;
      assert best.name in dir && best.name != temp;
      LessIsTotal(best.name, temp);
      if Less(temp, best.name) {
        LessIsAsymmetric(temp, best.name);
        assert best.name != target by {
          LessIsAsymmetric(target, temp);
        }
        assert best.name in now && now[best.name] == dir[best.name];
        forall m | Holder(f, now, prefix, id, m) ensures m == best.name || Less(m, best.name) {
          if m != temp {
            assert Holder(f, dir, prefix, id, m);
          }
        }
        r' := r;
      } else {
        assert Finds(f, dir, prefix, f.id(status), Some(best));
        assert best.name == target || Less(target, best.name);
        assert best.status == status;
        forall m | Holder(f, now, prefix, id, m) ensures m == temp || Less(m, temp) {
          if m != temp {
            assert Holder(f, dir, prefix, id, m);
            if m != best.name {
              LessIsTransitive(m, best.name, temp);
            }
          }
        }
        r' := Some(Found(temp, status));
      }
    }
  }

  /** At every moment of a compaction, unless the request is shadowed, every lookup gives the
      status it gave before: a crash loses nothing. */
  lemma CompactionIsCrashSafe<S(!new)>(f: Format<S>, dir: Dir, prefix: string, target: string, status: S,
                                       now: Dir, id: string, answer: Option<S>)
    requires Sound(f) && Matches(prefix, target) && target in dir && TempName(target) !in dir
    requires Parsed(f.decode, dir[target]) == Some(status) && !Shadowed(f, dir, prefix, target, status)
    requires DuringCompaction(f, dir, target, status, now)
    ensures FindsStatus(f, dir, prefix, id, answer) <==> FindsStatus(f, now, prefix, id, answer)
  {
    var r := Lookup(f, dir, prefix, id);
    var r' := FindsDuring(f, dir, prefix, target, status, now, id, r);
    if q :| Finds(f, dir, prefix, id, q) && answer == if q.Some? then Some(q.value.status) else None {
      FindsIsFunctional(f, dir, prefix, id, q, r);
    }
    if q :| Finds(f, now, prefix, id, q) && answer == if q.Some? then Some(q.value.status) else None {
      FindsIsFunctional(f, now, prefix, id, q, r');
    }
  }

  lemma FindsDuring<S(!new)>(f: Format<S>, dir: Dir, prefix: string, target: string, status: S,
                             now: Dir, id: string, r: Option<Found<S>>) returns (r': Option<Found<S>>)
    requires Sound(f) && Matches(prefix, target) && target in dir && TempName(target) !in dir
    requires Parsed(f.decode, dir[target]) == Some(status) && !Shadowed(f, dir, prefix, target, status)
    requires DuringCompaction(f, dir, target, status, now) && Finds(f, dir, prefix, id, r)
    ensures Finds(f, now, prefix, id, r')
    ensures r.Some? == r'.Some? && (r.Some? ==> r'.value.status == r.value.status)
  {
    var temp, record := TempName(target), RecordOf(f, status);
    PrefixOfRecord(f, status, |record|);
    assert record[..|record|] == record;
    if now == dir {
      r' := r;
    } else if k :| 0 <= k <= |record| && now == dir[temp := record[..k]] {
      PrefixOfRecord(f, status, k);
      r' := TempKeepsFinding(f, dir, now, prefix, target, status, id, r);
    } else if now == dir[temp := record] - {target} {
      assert temp != target;
      r' := TempKeepsFinding(f, dir, now, prefix, target, status, id, r);
    } else {
      forall m ensures Holder(f, now, prefix, id, m) <==> Holder(f, dir, prefix, id, m) {
      }
      SameHolders(f, dir, now, prefix, id, r);
      r' := r;
    }
  }

  /** A greatest holder exists whenever a holder does. */
  lemma Lookup<S(!new)>(f: Format<S>, dir: Dir, prefix: string, id: string) returns (r: Option<Found<S>>)
    ensures Finds(f, dir, prefix, id, r)
  {
    var best := GreatestHolder(f, dir, prefix, id, dir.Keys);
    if best.None? {
      r := None;
    } else {
      r := Some(Found(best.value, Parsed(f.decode, dir[best.value]).value));
    }
  }

  lemma {:induction false} GreatestHolder<S(!new)>(f: Format<S>, dir: Dir, prefix: string, id: string, names: set<string>)
    returns (best: Option<string>)
    ensures best.None? ==> forall m :: m in names ==> !Holder(f, dir, prefix, id, m)
    ensures best.Some? ==>
              && best.value in names && Holder(f, dir, prefix, id, best.value)
              && forall m :: m in names && Holder(f, dir, prefix, id, m) ==> m == best.value || Less(m, best.value)
    decreases |names|
  {
    if names == {} {
      best := None;
    } else {
      var x := AnyMember(names);
      best := GreatestHolder(f, dir, prefix, id, names - {x});
      if Holder(f, dir, prefix, id, x) {
        if best.None? {
          best := Some(x);
        } else {
          LessIsTotal(x, best.value);
          if Less(best.value, x) {
            forall m | m in names && Holder(f, dir, prefix, id, m) ensures m == x || Less(m, x) {
              if m != x && m != best.value {
                LessIsTransitive(m, best.value, x);
              }
            }
            best := Some(x);
          }
        }
      }
    }
  }

  /** The exception is real: when the request is shadowed, the complete temporary file changes
      the answer. */
  lemma ShadowedIsNotSafe<S(!new)>(f: Format<S>, dir: Dir, prefix: string, target: string, status: S)
    requires Sound(f) && Matches(prefix, target) && target in dir && TempName(target) !in dir
    requires Parsed(f.decode, dir[target]) == Some(status) && Shadowed(f, dir, prefix, target, status)
    ensures var now := dir[TempName(target) := RecordOf(f, status)];
            && DuringCompaction(f, dir, target, status, now)
            && FindsStatus(f, now, prefix, f.id(status), Some(status))
            && !FindsStatus(f, dir, prefix, f.id(status), Some(status))
  {
    hide Parsed, Less, Sound, TempName, IsDataFile;
    var temp, record := TempName(target), RecordOf(f, status);
    var now := dir[temp := record];
    TempIsSeen(prefix, target);
    PrefixOfRecord(f, status, |record|);
    assert record[..|record|] == record;
    var id := f.id(status);
    var found: Found<S> :| && Finds(f, dir, prefix, id, Some(found)) && found.status != status
                           && Less(target, found.name) && Less(found.name, temp);
    forall m | Holder(f, now, prefix, id, m) ensures m == temp || Less(m, temp) {
      if m != temp {
        assert Holder(f, dir, prefix, id, m);
        if m != found.name {
          LessIsTransitive(m, found.name, temp);
        }
      }
    }
    assert Finds(f, now, prefix, id, Some(Found(temp, status)));
    if r :| Finds(f, dir, prefix, id, r) && Some(status) == if r.Some? then Some(r.value.status) else None {
      FindsIsFunctional(f, dir, prefix, id, r, Some(found));
    }
  }

  // ------------------------------------------- the names that the program generates

  /** The length to which request ids are cut. */
  const SafeIdLength: nat := 8

  function Stem(prefix: string, timestamp: string, id: string): string {
    prefix + "." + timestamp + "." + id[..if |id| > SafeIdLength then SafeIdLength else |id|]
  }

  function FileName(prefix: string, timestamp: string, id: string): (name: string)
    ensures IsDataFile(name) && TempName(name) == Stem(prefix, timestamp, id) + "_c.dat"
  {
    var name := Stem(prefix, timestamp, id) + ".dat";
    assert name[..|name| - 4] == Stem(prefix, timestamp, id);
    name
  }

  /** A status file of a request, or the temporary file of its compaction.  All timestamps are
      of the same length. */
  ghost predicate GeneratedFor(prefix: string, width: nat, id: string, name: string) {
    exists timestamp: string ::
      |timestamp| == width
      && (name == FileName(prefix, timestamp, id) || name == TempName(FileName(prefix, timestamp, id)))
  }

  /** Whatever says something about a request was named by the program after that request. */
  ghost predicate NamesGenerated<S>(f: Format<S>, dir: Dir, prefix: string, width: nat) {
    forall id, name :: Holder(f, dir, prefix, id, name) ==> GeneratedFor(prefix, width, id, name)
  }

  /** Different names of the same length are ordered whatever follows them. */
  lemma {:induction false} LessByStem(a: string, b: string, x: string, y: string)
    requires |a| == |b| && a != b
    ensures Less(a + x, b + y) <==> Less(a, b)
    decreases |a|
  {
    assert (a + x)[0] == a[0] && (b + y)[0] == b[0];
    if a[0] == b[0] {
      assert (a + x)[1..] == a[1..] + x && (b + y)[1..] == b[1..] + y;
      assert a == [a[0]] + a[1..] && b == [b[0]] + b[1..];
      LessByStem(a[1..], b[1..], x, y);
    }
  }

  /** No generated name of a request sorts between another one and its temporary name. */
  lemma NothingGeneratedBetween(prefix: string, width: nat, timestamp: string, id: string, other: string)
    requires |timestamp| == width && GeneratedFor(prefix, width, id, other)
    ensures var target := FileName(prefix, timestamp, id);
            !(Less(target, other) && Less(other, TempName(target)))
  {
    hide Less;
    var target := FileName(prefix, timestamp, id);
    var timestamp' :| |timestamp'| == width
      && (other == FileName(prefix, timestamp', id) || other == TempName(FileName(prefix, timestamp', id)));
    var a, b := Stem(prefix, timestamp, id), Stem(prefix, timestamp', id);
    var tail := if other == b + ".dat" then ".dat" else "_c.dat";
    assert other == b + tail;
    if Less(target, other) && Less(other, TempName(target)) {
      if a == b {
        LessIsAsymmetric(target, other);
        LessIsAsymmetric(other, TempName(target));
      } else {
        LessByStem(a, b, ".dat", tail);
        LessByStem(b, a, tail, "_c.dat");
        LessIsAsymmetric(a, b);
      }
    }
  }

  lemma GeneratedIsNotShadowed<S(!new)>(f: Format<S>, dir: Dir, prefix: string, width: nat, timestamp: string, status: S)
    requires NamesGenerated(f, dir, prefix, width) && |timestamp| == width
    ensures !Shadowed(f, dir, prefix, FileName(prefix, timestamp, f.id(status)), status)
  {
    hide Less, FileName, GeneratedFor, TempName, IsDataFile, Parsed;
    var target := FileName(prefix, timestamp, f.id(status));
    forall found: Found<S> | Finds(f, dir, prefix, f.id(status), Some(found))
      ensures !(Less(target, found.name) && Less(found.name, TempName(target)))
    {
      assert Holder(f, dir, prefix, f.id(status), found.name);
      NothingGeneratedBetween(prefix, width, timestamp, f.id(status), found.name);
    }
  }

  /** Among files that the program has named, a compaction is safe at every moment, without
      any exception. */
  lemma CompactionOfGeneratedIsCrashSafe<S(!new)>(f: Format<S>, dir: Dir, prefix: string, width: nat,
                                                  timestamp: string, status: S, now: Dir, id: string, answer: Option<S>)
    requires Sound(f) && NamesGenerated(f, dir, prefix, width) && |timestamp| == width
    requires var target := FileName(prefix, timestamp, f.id(status));
             && target in dir && TempName(target) !in dir && Parsed(f.decode, dir[target]) == Some(status)
             && DuringCompaction(f, dir, target, status, now)
    ensures FindsStatus(f, dir, prefix, id, answer) <==> FindsStatus(f, now, prefix, id, answer)
  {
    hide FindsStatus, Parsed, DuringCompaction, Sound, Shadowed, NamesGenerated, FileName;
    var target := FileName(prefix, timestamp, f.id(status));
    GeneratedMatches(prefix, timestamp, f.id(status));
    GeneratedIsNotShadowed(f, dir, prefix, width, timestamp, status);
    CompactionIsCrashSafe(f, dir, prefix, target, status, now, id, answer);
  }

  lemma GeneratedMatches(prefix: string, timestamp: string, id: string)
    ensures Matches(prefix, FileName(prefix, timestamp, id))
  {
    var stem := Stem(prefix, timestamp, id);
    assert (stem + ".dat")[..|prefix|] == prefix;
  }

  // A file that the program did not name can be in the way.

  const Flags: Format<bool> := Format(EncodeFlag, DecodeFlag, (flag: bool) => "r")

  const WithForeignName: Dir := map["a.dat" := RecordOf(Flags, true), "aA.dat" := RecordOf(Flags, false)]

  lemma ForeignNameCanShadow()
    ensures Sound(Flags) && Matches("a", "a.dat") && "a.dat" in WithForeignName
    ensures TempName("a.dat") !in WithForeignName
    ensures Parsed(Flags.decode, WithForeignName["a.dat"]) == Some(true)
    ensures Shadowed(Flags, WithForeignName, "a", "a.dat", true)
  {
    hide Parsed;
    assert TempName("a.dat") == "a_c.dat";
    FlagReadsBack(true);
    FlagReadsBack(false);
    ForeignNameIsBetween();
    hide Less;
    assert Holds(Flags, WithForeignName, "a", "r", "aA.dat", false);
    assert Finds(Flags, WithForeignName, "a", "r", Some(Found("aA.dat", false)));
  }

  lemma FlagReadsBack(flag: bool)
    ensures Sound(Flags) && Parsed(Flags.decode, RecordOf(Flags, flag)) == Some(flag)
  {
    hide Parsed;
    var record := RecordOf(Flags, flag);
    PrefixOfRecord(Flags, flag, |record|);
    assert record[..|record|] == record;
  }

  lemma ForeignNameIsBetween()
    ensures Less("a.dat", "aA.dat") && Less("aA.dat", "a_c.dat")
  {
    assert "a.dat"[1..] == ".dat" && "aA.dat"[1..] == "A.dat" && "a_c.dat"[1..] == "_c.dat";
    assert Less(".dat", "A.dat") && Less("A.dat", "_c.dat");
  }

  // --------------------------------------------------------------------- updates

  /** An update is what the lookup then finds, if the file it goes to ended cleanly. */
  lemma UpdateIsFound<S(!new)>(f: Format<S>, dir: Dir, prefix: string, found: Found<S>, status: S)
    requires Sound(f) && Finds(f, dir, prefix, f.id(status), Some(found)) && AtBoundary(dir[found.name])
    ensures Finds(f, dir[found.name := dir[found.name] + RecordOf(f, status)], prefix, f.id(status),
                  Some(Found(found.name, status)))
  {
    var c := dir[found.name];
    WriteToAnyFile(f.encode, f.decode, c, status);
    var now := dir[found.name := c + RecordOf(f, status)];
    forall m | Holder(f, now, prefix, f.id(status), m) ensures m == found.name || Less(m, found.name) {
      if m != found.name {
        assert Holder(f, dir, prefix, f.id(status), m);
      }
    }
  }

  /** Such an update leaves the answers about other requests alone. */
  lemma UpdateIsLocal<S(!new)>(f: Format<S>, dir: Dir, prefix: string, found: Found<S>, status: S,
                               id: string, r: Option<Found<S>>)
    requires Sound(f) && Finds(f, dir, prefix, f.id(status), Some(found)) && AtBoundary(dir[found.name])
    requires id != f.id(status) && Finds(f, dir, prefix, id, r)
    ensures Finds(f, dir[found.name := dir[found.name] + RecordOf(f, status)], prefix, id, r)
  {
    var c := dir[found.name];
    WriteToAnyFile(f.encode, f.decode, c, status);
    var now := dir[found.name := c + RecordOf(f, status)];
    forall m | Holder(f, now, prefix, id, m) ensures Holder(f, dir, prefix, id, m) {
      assert m != found.name;
    }
    SameHolders(f, dir, now, prefix, id, r);
  }

  datatype Outcome = Done | NotFound | NoSuchFile | IoError

  /** What the file system refuses, if anything: to open the file to be written; a write after
      some bytes, and then whether the half-written temporary file can be removed; to remove
      the original; to rename the temporary file. */
  datatype Fault = NoFault | CannotOpen | WriteFails(reached: nat, cleanedUp: bool) | CannotRemove | CannotRename

  /** The history directory on disk. */
  class Store<!S> {
    const f: Format<S>
    var dir: Dir

    constructor (f: Format<S>)
      ensures this.f == f && dir == map[]
    {
      this.f := f;
      dir := map[];
    }

    /** Appends a record byte by byte; `trail` lists the directory after each byte. */
    method Append(name: string, record: Bytes, ghost trail: seq<Dir>) returns (ghost trail': seq<Dir>)
      modifies this`dir
      ensures dir == old(dir)[name := Content(old(dir), name) + record]
      ensures forall d :: d in trail' && d !in trail ==>
                exists k :: 0 <= k <= |record| && d == old(dir)[name := Content(old(dir), name) + record[..k]]
      ensures dir in trail'
    {
      ghost var start := Content(dir, name);
      dir := dir[name := Content(dir, name)];
      assert record[..0] == [] && start + [] == start;
      trail' := trail + [dir];
      for i := 0 to |record|
        invariant name in dir && dir == old(dir)[name := start + record[..i]]
        invariant dir in trail'
        invariant forall d :: d in trail' && d !in trail ==>
                    exists k :: 0 <= k <= |record| && d == old(dir)[name := start + record[..k]]
      {
        dir := dir[name := dir[name] + [record[i]]];
        assert record[..i + 1] == record[..i] + [record[i]];
        assert start + record[..i + 1] == start + record[..i] + [record[i]];
        trail' := trail' + [dir];
      }
      assert record[..|record|] == record;
    }

    /** Appends the new status to the file that holds the request, or as much of it as the
        file system lets through. */
    method Update(prefix: string, id: string, status: S, fault: Fault) returns (r: Outcome)
      requires fault.WriteFails? ==> fault.reached <= |RecordOf(f, status)|
      modifies this`dir
      ensures r == NotFound ==> dir == old(dir)
      ensures r == NotFound <==> id == "" || Finds(f, old(dir), prefix, id, None)
      ensures r != NoSuchFile
      ensures r == IoError ==> fault.CannotOpen? || fault.WriteFails?
      ensures r == Done ==> !fault.CannotOpen? && !fault.WriteFails?
      ensures r == Done || r == IoError ==> exists found, k: nat ::
                && Finds(f, old(dir), prefix, id, Some(found)) && k <= |RecordOf(f, status)|
                && (r == Done ==> k == |RecordOf(f, status)|)
                && dir == old(dir)[found.name := old(dir)[found.name] + RecordOf(f, status)[..k]]
    {
      var found := FindByRequestID(f, dir, prefix, id);
      if found.None? {
        return NotFound;
      }
      NotBoth(f, dir, prefix, id, found.value);
      var name, record := found.value.name, RecordOf(f, status);
      assert record[..0] == [] && dir[name] + [] == dir[name] && dir == dir[name := dir[name]];
      if fault.CannotOpen? {
        return IoError;
      }
      var reached := if fault.WriteFails? then fault.reached else |record|;
      ghost var trail := Append(name, record[..reached], []);
      return if fault.WriteFails? then IoError else Done;
    }

    /** Rewrites the file as its last status alone: temporary file, remove, rename.  `trail`
        lists every directory a crash could leave.  Whatever goes wrong on the way, that and
        the final directory are moments of the compaction, if there was no temporary file. */
    method Compact(target: string, fault: Fault) returns (r: Outcome, ghost trail: seq<Dir>)
      requires IsDataFile(target)
      requires fault.WriteFails? && target in dir && Parsed(f.decode, dir[target]).Some? ==>
                 fault.reached <= |RecordOf(f, Parsed(f.decode, dir[target]).value)|
      modifies this`dir
      ensures r != NotFound
      ensures r == NoSuchFile <==> target !in old(dir)
      ensures r == NoSuchFile ==> dir == old(dir)
      ensures target in old(dir) && Parsed(f.decode, old(dir)[target]) == None ==> r == Done && dir == old(dir)
      ensures target in old(dir) && Parsed(f.decode, old(dir)[target]).Some? ==>
                var status, temp := Parsed(f.decode, old(dir)[target]).value, TempName(target);
                && (r == Done <==> fault == NoFault)
                && (r == Done ==> dir == (old(dir) - {temp})[target := Content(old(dir), temp) + RecordOf(f, status)])
                && (temp !in old(dir) ==>
                      dir in trail && forall d :: d in trail ==> DuringCompaction(f, old(dir), target, status, d))
    {
      hide DuringCompaction, RecordOf, TempName, Content, Parsed, Matches;
      trail := [];
      if target !in dir {
        return NoSuchFile, trail;
      }
      var status := ParseStatusFile(f.decode, dir[target]);
      if status.None? {
        return Done, trail;
      }
      ghost var dir0 := dir;
      trail := [dir];
      Moments(f, dir0, target, status.value);
      if fault.CannotOpen? {
        return IoError, trail;
      }
      var temp, record := TempName(target), RecordOf(f, status.value);
      var reached := if fault.WriteFails? then fault.reached else |record|;
      trail := Append(temp, record[..reached], trail);
      TornMoments(f, dir0, target, status.value, reached, trail);
      if fault.WriteFails? {
        if fault.cleanedUp {
          WithoutTemp(dir0, temp, dir[temp]);
          dir := dir - {temp};
          trail := trail + [dir];
        }
        return IoError, trail;
      }
      assert record[..reached] == record;
      if fault.CannotRemove? {
        return IoError, trail;
      }
      dir := dir - {target};
      trail := trail + [dir];
      if fault.CannotRename? {
        return IoError, trail;
      }
      dir := dir[target := dir[temp]] - {temp};
      Renamed(dir0, target, temp, Content(dir0, temp) + record);
      trail := trail + [dir];
      return Done, trail;
    }
  }

  /** What is left when nothing, the original or both names have been dealt with. */
  lemma Moments<S>(f: Format<S>, dir: Dir, target: string, status: S)
    requires IsDataFile(target)
    ensures TempName(target) != target && DuringCompaction(f, dir, target, status, dir)
    ensures TempName(target) !in dir ==>
              var content := Content(dir, TempName(target)) + RecordOf(f, status);
              && DuringCompaction(f, dir, target, status, dir[TempName(target) := content] - {target})
              && DuringCompaction(f, dir, target, status, (dir - {TempName(target)})[target := content])
  {
    var temp, record := TempName(target), RecordOf(f, status);
    assert [] + record == record;
    assert temp !in dir ==> dir - {temp} == dir;
  }

  lemma WithoutTemp(dir: Dir, temp: string, content: Bytes)
    ensures temp !in dir ==> dir[temp := content] - {temp} == dir
  {
  }

  lemma Renamed(dir: Dir, target: string, temp: string, content: Bytes)
    requires temp != target
    ensures (dir[temp := content] - {target})[target := content] - {temp} == (dir - {temp})[target := content]
  {
  }

  /** While the temporary file is being written, it holds a part of the record. */
  lemma TornMoments<S>(f: Format<S>, dir: Dir, target: string, status: S, reached: nat, trail: seq<Dir>)
    requires IsDataFile(target) && reached <= |RecordOf(f, status)|
    requires forall d :: d in trail && d !in [dir] ==>
               exists k :: 0 <= k <= |RecordOf(f, status)[..reached]|
                 && d == dir[TempName(target) := Content(dir, TempName(target)) + RecordOf(f, status)[..reached][..k]]
    ensures TempName(target) !in dir ==> forall d :: d in trail ==> DuringCompaction(f, dir, target, status, d)
  {
    var temp, record := TempName(target), RecordOf(f, status);
    if temp !in dir {
      forall d | d in trail ensures DuringCompaction(f, dir, target, status, d) {
        if d != dir {
          assert d !in [dir];
          var k :| 0 <= k <= reached && d == dir[temp := Content(dir, temp) + record[..reached][..k]];
          assert Content(dir, temp) + record[..reached][..k] == record[..k];
        }
      }
    }
  }

  lemma NotBoth<S>(f: Format<S>, dir: Dir, prefix: string, id: string, found: Found<S>)
    requires Finds(f, dir, prefix, id, Some(found))
    ensures !Finds(f, dir, prefix, id, None)
  {
    assert Holder(f, dir, prefix, id, found.name);
  }

  function Content(dir: Dir, name: string): Bytes {
    if name in dir then dir[name] else []
  }
}
