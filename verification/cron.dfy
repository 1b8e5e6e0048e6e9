/** The cron loop: once a minute, every job whose next time has come is invoked. */
module Cron {
  import opened Wrappers

  // ------------------------------------------------------------------- schedules

  /** The next fire time after an instant, if there is one.  Instants are in seconds. */
  type Schedule = int -> Option<int>

  /** What the scheduler sees where the cron library finds no later time: the zero instant of
      the calendar, long before any other. */
  const ZeroTime: int := -62135596800

  ghost predicate Fires(next: Schedule, u: int) {
    next(u - 1) == Some(u)
  }

  /** `next` gives the least later fire time, or nothing if there is none. */
  ghost predicate Regular(next: Schedule) {
    forall t :: && (next(t).Some? ==> next(t).value > t && Fires(next, next(t).value)
                                      && forall w :: t < w < next(t).value ==> !Fires(next, w))
                && (next(t).None? ==> forall w :: t < w ==> !Fires(next, w))
  }

  datatype Kind = StartIt | StopIt | RestartIt

  datatype Dag = Dag(suspended: bool, start: seq<Schedule>, stop: seq<Schedule>, restart: seq<Schedule>)

  /** A schedule's place: its DAG, the list it is in, and its position there. */
  datatype Place = Place(dag: nat, kind: Kind, position: nat)

  datatype Entry = Entry(place: Place, schedule: Schedule)

  /** A job for the schedule at a place, with the time it is next due. */
  datatype Job = Job(place: Place, next: int)

  function EntriesOf(dag: nat, kind: Kind, items: seq<Schedule>): seq<Entry> {
    seq(|items|, i requires 0 <= i < |items| => Entry(Place(dag, kind, i), items[i]))
  }

  /** One entry for each schedule of each DAG that is not suspended. */
  function Entries(registry: seq<Dag>): seq<Entry> {
    if registry == [] then []
    else
      var n := |registry| - 1;
      var d := registry[n];
      Entries(registry[..n]) +
      if d.suspended then []
      else EntriesOf(n, StartIt, d.start) + EntriesOf(n, StopIt, d.stop) + EntriesOf(n, RestartIt, d.restart)
  }

  function NextTime(next: Schedule, now: int): int {
    if next(now).Some? then next(now).value else ZeroTime
  }

  function JobsAt(entries: seq<Entry>, now: int): seq<Job> {
    seq(|entries|, i requires 0 <= i < |entries| => Job(entries[i].place, NextTime(entries[i].schedule, now)))
  }

  function ListOf(d: Dag, kind: Kind): seq<Schedule> {
    match kind
    case StartIt => d.start
    case StopIt => d.stop
    case RestartIt => d.restart
  }

  /** There is a schedule at that place, of a DAG that is not suspended. */
  predicate Scheduled(registry: seq<Dag>, p: Place) {
    p.dag < |registry| && !registry[p.dag].suspended && p.position < |ListOf(registry[p.dag], p.kind)|
  }

  function ScheduleAt(registry: seq<Dag>, p: Place): Schedule
    requires Scheduled(registry, p)
  {
    ListOf(registry[p.dag], p.kind)[p.position]
  }

  function Rank(kind: Kind): nat {
    match kind
    case StartIt => 0
    case StopIt => 1
    case RestartIt => 2
  }

  predicate Earlier(p: Place, q: Place) {
    || p.dag < q.dag
    || (p.dag == q.dag && Rank(p.kind) < Rank(q.kind))
    || (p.dag == q.dag && p.kind == q.kind && p.position < q.position)
  }

  lemma JobsAtSum(a: seq<Entry>, b: seq<Entry>, now: int)
    ensures JobsAt(a + b, now) == JobsAt(a, now) + JobsAt(b, now)
  {
  }

  lemma {:induction false} CountOfList(dag: nat, kind: Kind, items: seq<Schedule>, now: int, j: Job)
    ensures multiset(JobsAt(EntriesOf(dag, kind, items), now))[j] ==
            if j.place.dag == dag && j.place.kind == kind && j.place.position < |items|
               && j.next == NextTime(items[j.place.position], now) then 1 else 0
    decreases |items|
  {
    if items == [] {
      assert JobsAt(EntriesOf(dag, kind, items), now) == [];
    } else {
      var n := |items| - 1;
      CountOfList(dag, kind, items[..n], now, j);
      assert JobsAt(EntriesOf(dag, kind, items), now) ==
             JobsAt(EntriesOf(dag, kind, items[..n]), now) + [Job(Place(dag, kind, n), NextTime(items[n], now))];
    }
  }

  lemma CountOfDag(dag: nat, d: Dag, now: int, j: Job)
    ensures multiset(JobsAt(EntriesOf(dag, StartIt, d.start) + EntriesOf(dag, StopIt, d.stop)
                            + EntriesOf(dag, RestartIt, d.restart), now))[j] ==
            if j.place.dag == dag && j.place.position < |ListOf(d, j.place.kind)|
               && j.next == NextTime(ListOf(d, j.place.kind)[j.place.position], now) then 1 else 0
  {
    hide JobsAt, EntriesOf;
    var a, b, c := EntriesOf(dag, StartIt, d.start), EntriesOf(dag, StopIt, d.stop), EntriesOf(dag, RestartIt, d.restart);
    JobsAtSum(a + b, c, now);
    JobsAtSum(a, b, now);
    CountOfList(dag, StartIt, d.start, now, j);
    CountOfList(dag, StopIt, d.stop, now, j);
    CountOfList(dag, RestartIt, d.restart, now, j);
  }

  /** There is exactly one job for each schedule of each DAG that is not suspended, with its
      next time, and no other job. */
  lemma {:induction false} JobCount(registry: seq<Dag>, now: int, j: Job)
    ensures multiset(JobsAt(Entries(registry), now))[j] ==
            if Scheduled(registry, j.place) && j.next == NextTime(ScheduleAt(registry, j.place), now) then 1 else 0
    decreases |registry|
  {
    hide JobsAt, EntriesOf, NextTime, ListOf;
    if registry == [] {
      NoJobs(now);
    } else {
      var n := |registry| - 1;
      var d := registry[n];
      JobCount(registry[..n], now, j);
      if !d.suspended {
        CountOfDag(n, d, now, j);
        JobsAtSum(Entries(registry[..n]), EntriesOf(n, StartIt, d.start) + EntriesOf(n, StopIt, d.stop)
                                          + EntriesOf(n, RestartIt, d.restart), now);
      } else {
        assert Entries(registry) == Entries(registry[..n]);
      }
    }
  }

  lemma NoJobs(now: int)
    ensures JobsAt([], now) == []
  {
  }

  /** The jobs come in the order of their places. */
  lemma {:induction false} EntriesAreInOrder(registry: seq<Dag>)
    ensures forall i, k :: 0 <= i < k < |Entries(registry)| ==> Earlier(Entries(registry)[i].place, Entries(registry)[k].place)
    ensures forall i :: 0 <= i < |Entries(registry)| ==> Entries(registry)[i].place.dag < |registry|
    decreases |registry|
  {
    if registry != [] {
      EntriesAreInOrder(registry[..|registry| - 1]);
    }
  }

  // ------------------------------------------------------------------- one tick

  function Due(jobs: seq<Job>, now: int): seq<Job> {
    if jobs == [] then []
    else Due(jobs[..|jobs| - 1], now) + if jobs[|jobs| - 1].next <= now then [jobs[|jobs| - 1]] else []
  }

  lemma {:induction false} DueCounts(jobs: seq<Job>, now: int, j: Job)
    ensures multiset(Due(jobs, now))[j] == if j.next <= now then multiset(jobs)[j] else 0
    decreases |jobs|
  {
    if jobs != [] {
      var front := jobs[..|jobs| - 1];
      DueCounts(front, now, j);
      assert jobs == front + [jobs[|jobs| - 1]];
    }
  }

  lemma {:induction false} AllDue(jobs: seq<Job>, now: int)
    requires forall j :: j in jobs ==> j.next <= now
    ensures Due(jobs, now) == jobs
    decreases |jobs|
  {
    if jobs != [] {
      var front, last := jobs[..|jobs| - 1], jobs[|jobs| - 1];
      assert jobs == front + [last];
      assert last in jobs && forall j :: j in front ==> j in jobs;
      AllDue(front, now);
    }
  }

  lemma {:induction false} NoneDue(jobs: seq<Job>, rest: seq<Job>, now: int)
    requires forall j :: j in rest ==> j.next > now
    ensures Due(jobs + rest, now) == Due(jobs, now)
    decreases |rest|
  {
    if rest == [] {
      assert jobs + rest == jobs;
    } else {
      var n := |rest| - 1;
      assert (jobs + rest)[..|jobs| + n] == jobs + rest[..n];
      assert rest[n] in rest;
      NoneDue(jobs, rest[..n], now);
    }
  }

  ghost predicate Sorted(jobs: seq<Job>) {
    forall i, j :: 0 <= i < j < |jobs| ==> jobs[i].next <= jobs[j].next
  }

  /** The jobs with one next time, in the order in which they come. */
  function With(jobs: seq<Job>, next: int): seq<Job> {
    if jobs == [] then []
    else
      var front := With(jobs[..|jobs| - 1], next);
      if jobs[|jobs| - 1].next == next then front + [jobs[|jobs| - 1]] else front
  }

  lemma {:induction false} WithOfSum(a: seq<Job>, b: seq<Job>, next: int)
    ensures With(a + b, next) == With(a, next) + With(b, next)
    decreases |b|
  {
    if b == [] {
      assert a + b == a;
    } else {
      assert (a + b)[..|a + b| - 1] == a + b[..|b| - 1];
      WithOfSum(a, b[..|b| - 1], next);
    }
  }

  lemma WithOfOne(job: Job, next: int)
    ensures With([job], next) == if job.next == next then [job] else []
  {
    assert [job][..0] == [];
  }

  lemma {:induction false} WithOfOthers(jobs: seq<Job>, next: int)
    requires forall j :: j in jobs ==> j.next != next
    ensures With(jobs, next) == []
    decreases |jobs|
  {
    if jobs != [] {
      var front := jobs[..|jobs| - 1];
      assert jobs == front + [jobs[|jobs| - 1]];
      assert jobs[|jobs| - 1] in jobs && forall j :: j in front ==> j in jobs;
      WithOfOthers(front, next);
    }
  }

  /** Both lists have the same jobs, those with the same next time in the same order. */
  ghost predicate SameInOrder(a: seq<Job>, b: seq<Job>) {
    forall next :: With(a, next) == With(b, next)
  }

  /** Puts a job after those that are not later. */
  method InsertByNext(jobs: seq<Job>, job: Job) returns (jobs': seq<Job>)
    requires Sorted(jobs)
    ensures Sorted(jobs') && SameInOrder(jobs', jobs + [job])
  {
    var i := |jobs|;
    while i > 0 && jobs[i - 1].next > job.next
      invariant 0 <= i <= |jobs|
      invariant forall k :: i <= k < |jobs| ==> jobs[k].next > job.next
    {
      i := i - 1;
    }
    SortedWithInserted(jobs, i, job);
    StableWithInserted(jobs, i, job);
    jobs' := jobs[..i] + [job] + jobs[i..];
  }

  lemma SortedWithInserted(jobs: seq<Job>, i: nat, job: Job)
    requires i <= |jobs| && Sorted(jobs)
    requires i > 0 ==> jobs[i - 1].next <= job.next
    requires forall k :: i <= k < |jobs| ==> jobs[k].next > job.next
    ensures Sorted(jobs[..i] + [job] + jobs[i..])
  {
    var all := jobs[..i] + [job] + jobs[i..];
    forall a, b | 0 <= a < b < |all| ensures all[a].next <= all[b].next {
      InsertedAt(jobs, i, job, a);
      InsertedAt(jobs, i, job, b);
    }
  }

  lemma InsertedAt(jobs: seq<Job>, i: nat, job: Job, k: nat)
    requires i <= |jobs| && k <= |jobs|
    ensures (jobs[..i] + [job] + jobs[i..])[k] == if k < i then jobs[k] else if k == i then job else jobs[k - 1]
  {
  }

  lemma StableWithInserted(jobs: seq<Job>, i: nat, job: Job)
    requires i <= |jobs| && forall k :: i <= k < |jobs| ==> jobs[k].next > job.next
    ensures SameInOrder(jobs[..i] + [job] + jobs[i..], jobs + [job])
  {
    hide With;
    forall j | j in jobs[i..] ensures j.next > job.next {
      var k :| 0 <= k < |jobs[i..]| && jobs[i..][k] == j;
      assert j == jobs[i + k];
    }
    assert jobs == jobs[..i] + jobs[i..];
    forall next ensures With(jobs[..i] + [job] + jobs[i..], next) == With(jobs + [job], next) {
      WithInserted(jobs[..i], jobs[i..], job, next);
    }
  }

  lemma WithInserted(a: seq<Job>, b: seq<Job>, job: Job, next: int)
    requires forall j :: j in b ==> j.next > job.next
    ensures With(a + [job] + b, next) == With(a + b + [job], next)
  {
    hide With;
    WithOfSum(a + [job], b, next);
    WithOfSum(a, [job], next);
    WithOfSum(a + b, [job], next);
    WithOfSum(a, b, next);
    WithOfOne(job, next);
    if next == job.next {
      WithOfOthers(b, next);
    }
  }

  lemma SameInOrderExtended(a: seq<Job>, b: seq<Job>, job: Job)
    requires SameInOrder(a, b)
    ensures SameInOrder(a + [job], b + [job])
  {
    forall next ensures With(a + [job], next) == With(b + [job], next) {
      WithOfSum(a, [job], next);
      WithOfSum(b, [job], next);
      assert With(a, next) == With(b, next);
    }
  }

  /** Sorts by next time, keeping the order among equal ones. */
  method SortByNext(jobs: seq<Job>) returns (sorted: seq<Job>)
    ensures Sorted(sorted) && SameInOrder(sorted, jobs)
  {
    hide SameInOrder, Sorted;
    sorted := [];
    NothingToSort();
    for i := 0 to |jobs|
      invariant Sorted(sorted) && SameInOrder(sorted, jobs[..i])
    {
      ghost var before := sorted;
      sorted := InsertByNext(sorted, jobs[i]);
      SameInOrderExtended(before, jobs[..i], jobs[i]);
      SameInOrderIsTransitive(sorted, before + [jobs[i]], jobs[..i] + [jobs[i]]);
      assert jobs[..i + 1] == jobs[..i] + [jobs[i]];
    }
    assert jobs[..|jobs|] == jobs;
  }

  lemma NothingToSort()
    ensures Sorted([]) && SameInOrder([], [])
  {
  }

  lemma SameInOrderIsTransitive(a: seq<Job>, b: seq<Job>, c: seq<Job>)
    requires SameInOrder(a, b) && SameInOrder(b, c)
    ensures SameInOrder(a, c)
  {
    forall next ensures With(a, next) == With(c, next) {
      assert With(a, next) == With(b, next);
      assert With(b, next) == With(c, next);
    }
  }

  lemma {:induction false} CountsByNext(jobs: seq<Job>, j: Job)
    ensures multiset(jobs)[j] == multiset(With(jobs, j.next))[j]
    decreases |jobs|
  {
    if jobs != [] {
      var front := jobs[..|jobs| - 1];
      assert jobs == front + [jobs[|jobs| - 1]];
      CountsByNext(front, j);
    }
  }

  lemma SameInOrderSameJobs(a: seq<Job>, b: seq<Job>)
    requires SameInOrder(a, b)
    ensures multiset(a) == multiset(b)
  {
    forall j ensures multiset(a)[j] == multiset(b)[j] {
      CountsByNext(a, j);
      CountsByNext(b, j);
      assert With(a, j.next) == With(b, j.next);
    }
  }

  lemma {:induction false} WithOfDue(jobs: seq<Job>, now: int, next: int)
    ensures With(Due(jobs, now), next) == if next <= now then With(jobs, next) else []
    decreases |jobs|
  {
    if jobs != [] {
      var front, last := jobs[..|jobs| - 1], jobs[|jobs| - 1];
      WithOfDue(front, now, next);
      WithOfSum(Due(front, now), if last.next <= now then [last] else [], next);
      WithOfOne(last, next);
    }
  }

  /** One job for each schedule. */
  method NextJobs(registry: seq<Dag>, now: int) returns (jobs: seq<Job>)
    ensures jobs == JobsAt(Entries(registry), now)
  {
    jobs := [];
    for i := 0 to |registry|
      invariant jobs == JobsAt(Entries(registry[..i]), now)
    {
      var dag := registry[i];
      assert registry[..i + 1][..i] == registry[..i];
      if dag.suspended {
        assert Entries(registry[..i + 1]) == Entries(registry[..i]);
        continue;
      }
      ghost var before := Entries(registry[..i]);
      jobs := AddJobs(before, i, StartIt, dag.start, now, jobs);
      before := before + EntriesOf(i, StartIt, dag.start);
      jobs := AddJobs(before, i, StopIt, dag.stop, now, jobs);
      before := before + EntriesOf(i, StopIt, dag.stop);
      jobs := AddJobs(before, i, RestartIt, dag.restart, now, jobs);
      before := before + EntriesOf(i, RestartIt, dag.restart);
      assert before == Entries(registry[..i + 1]);
    }
    assert registry[..|registry|] == registry;
  }

  method AddJobs(ghost before: seq<Entry>, dag: nat, kind: Kind, items: seq<Schedule>, now: int, jobs: seq<Job>)
    returns (jobs': seq<Job>)
    requires jobs == JobsAt(before, now)
    ensures jobs' == JobsAt(before + EntriesOf(dag, kind, items), now)
  {
    jobs' := jobs;
    for k := 0 to |items|
      invariant |jobs'| == |before| + k
      invariant jobs' == JobsAt(before + EntriesOf(dag, kind, items), now)[..|before| + k]
    {
      jobs' := jobs' + [Job(Place(dag, kind, k), NextTime(items[k], now))];
    }
  }

  /** In a sorted list, stopping at the first job still to come picks exactly those that are due. */
  lemma StoppingIsFiltering(sorted: seq<Job>, i: nat, now: int)
    requires Sorted(sorted) && i <= |sorted| && forall j :: j in sorted[..i] ==> j.next <= now
    requires i < |sorted| ==> sorted[i].next > now
    ensures sorted[..i] == Due(sorted, now) && Sorted(sorted[..i])
  {
    hide Due;
    var rest := sorted[i..];
    forall j | j in rest ensures j.next > now {
      var k :| 0 <= k < |rest| && rest[k] == j;
      assert rest[k] == sorted[i + k];
    }
    assert sorted == sorted[..i] + rest;
    AllDue(sorted[..i], now);
    NoneDue(sorted[..i], rest, now);
  }

  /** One tick: the jobs in order of their next times, up to the first one still to come. */
  method RunTick(registry: seq<Dag>, now: int) returns (invoked: seq<Job>)
    ensures Sorted(invoked) && SameInOrder(invoked, Due(JobsAt(Entries(registry), now - 1), now))
  {
    hide Due, JobsAt, Entries, Sorted, SameInOrder;
    var jobs := NextJobs(registry, now - 1);
    var sorted := SortByNext(jobs);
    invoked := [];
    var i := 0;
    while i < |sorted|
      invariant 0 <= i <= |sorted| && invoked == sorted[..i]
      invariant forall j :: j in invoked ==> j.next <= now
    {
      if sorted[i].next > now {
        break;
      }
      invoked := invoked + [sorted[i]];
      i := i + 1;
    }
    StoppingIsFiltering(sorted, i, now);
    SameDue(sorted, jobs, now);
  }

  lemma SameDue(a: seq<Job>, b: seq<Job>, now: int)
    requires SameInOrder(a, b)
    ensures SameInOrder(Due(a, now), Due(b, now))
  {
    forall next ensures With(Due(a, now), next) == With(Due(b, now), next) {
      WithOfDue(a, now, next);
      WithOfDue(b, now, next);
      assert With(a, next) == With(b, next);
    }
  }

  // ------------------------------------------------------------------ many ticks

  function TruncateToMinute(t: int): int {
    t - t % 60
  }

  function NextTick(t: int): int {
    TruncateToMinute(t + 60)
  }

  /** What `n` ticks from `t` on invoke. */
  ghost function Invocations(registry: seq<Dag>, t: int, n: nat): multiset<Job> {
    if n == 0 then multiset{}
    else
      var tick := t + 60 * (n - 1);
      Invocations(registry, t, n - 1) + multiset(Due(JobsAt(Entries(registry), tick - 1), tick))
  }

  lemma NoInvocations(registry: seq<Dag>, t: int, j: Job)
    ensures Invocations(registry, t, 0)[j] == 0
  {
  }

  lemma InvocationsStep(registry: seq<Dag>, t: int, n: nat, j: Job)
    requires n > 0
    ensures var tick := t + 60 * (n - 1);
            Invocations(registry, t, n)[j] ==
            Invocations(registry, t, n - 1)[j] + multiset(Due(JobsAt(Entries(registry), tick - 1), tick))[j]
  {
  }

  lemma TicksAreMinutes(t: int, start: int)
    ensures TruncateToMinute(start) % 60 == 0 && TruncateToMinute(start) <= start < TruncateToMinute(start) + 60
    ensures t % 60 == 0 ==> NextTick(t) == t + 60
  {
  }

  /** What `n` ticks invoke, the first one in the minute of the start. */
  method RunTicks(registry: seq<Dag>, start: int, n: nat) returns (invoked: multiset<Job>)
    ensures exists t :: t % 60 == 0 && t <= start < t + 60 && invoked == Invocations(registry, t, n)
  {
    var t := TruncateToMinute(start);
    invoked := multiset{};
    ghost var t0 := t;
    TicksAreMinutes(t, start);
    hide Due, JobsAt, Entries, TruncateToMinute, NextTick, SameInOrder, Sorted;
    for i := 0 to n
      invariant t0 % 60 == 0 && t == t0 + 60 * i
      invariant invoked == Invocations(registry, t0, i)
    {
      var now := RunTick(registry, t);
      SameInOrderSameJobs(now, Due(JobsAt(Entries(registry), t - 1), t));
      invoked := invoked + multiset(now);
      TicksAreMinutes(t, start);
      t := NextTick(t);
    }
  }

  /** At one tick a schedule is invoked exactly if it fires then, as its next time shows, or if
      it has no fire time left at all: the zero instant counts as due.  A suspended DAG's
      schedules are not. */
  lemma TickInvokes(registry: seq<Dag>, t: int, j: Job)
    requires Scheduled(registry, j.place) ==> Regular(ScheduleAt(registry, j.place))
    requires t > ZeroTime
    ensures multiset(Due(JobsAt(Entries(registry), t - 1), t))[j] ==
            if Scheduled(registry, j.place)
               && (if ScheduleAt(registry, j.place)(t - 1).None? then j.next == ZeroTime
                   else j.next == t && Fires(ScheduleAt(registry, j.place), t))
            then 1 else 0
  {
    hide JobsAt, Due, ScheduleAt, Scheduled;
    DueCounts(JobsAt(Entries(registry), t - 1), t, j);
    JobCount(registry, t - 1, j);
  }

  /** Over any number of ticks, the schedule at a place is invoked exactly once for each of its
      fire times from the first tick to the last that fall on a whole minute, and for no
      other; where there is none, or its DAG is suspended, nothing is invoked. */
  lemma {:induction false} ExactlyOnce(registry: seq<Dag>, t: int, n: nat, p: Place, u: int)
    requires Scheduled(registry, p) ==> Regular(ScheduleAt(registry, p))
    requires t % 60 == 0 && t > ZeroTime && u != ZeroTime
    ensures Invocations(registry, t, n)[Job(p, u)] ==
            if Scheduled(registry, p) && Fires(ScheduleAt(registry, p), u) && u % 60 == 0 && t <= u < t + 60 * n then 1 else 0
    decreases n
  {
    hide Invocations, Due, JobsAt, Regular, Scheduled, ScheduleAt;
    if n == 0 {
      NoInvocations(registry, t, Job(p, u));
    } else {
      ExactlyOnce(registry, t, n - 1, p, u);
      InvocationsStep(registry, t, n, Job(p, u));
      TickInvokes(registry, t + 60 * (n - 1), Job(p, u));
    }
  }

  /** At how many of the ticks there is no later fire time. */
  ghost function ExhaustedTicks(next: Schedule, t: int, n: nat): nat {
    if n == 0 then 0
    else ExhaustedTicks(next, t, n - 1) + (if next(t + 60 * (n - 1) - 1).None? then 1 else 0)
  }

  /** A schedule is invoked, for the zero time, once at every tick at which it has no later
      fire time left. */
  lemma {:induction false} ExhaustedScheduleIsInvokedAtEveryTick(registry: seq<Dag>, t: int, n: nat, p: Place)
    requires Scheduled(registry, p) && Regular(ScheduleAt(registry, p)) && t > ZeroTime
    ensures Invocations(registry, t, n)[Job(p, ZeroTime)] == ExhaustedTicks(ScheduleAt(registry, p), t, n)
    decreases n
  {
    hide Invocations, Due, JobsAt, Regular, Scheduled, ScheduleAt;
    if n == 0 {
      NoInvocations(registry, t, Job(p, ZeroTime));
    } else {
      InvocationsStep(registry, t, n, Job(p, ZeroTime));
      ExhaustedScheduleIsInvokedAtEveryTick(registry, t, n - 1, p);
      TickInvokes(registry, t + 60 * (n - 1), Job(p, ZeroTime));
    }
  }
}
