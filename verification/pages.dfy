/** Listing DAG files page by page. */
module Pages {
  import opened Wrappers

  /** A directory entry, what the search text and tag say of it, and its metadata if it can
      be read. */
  datatype FileEntry<D> = FileEntry(isFile: bool, isYaml: bool, nameMatches: bool, tagMatches: bool, metadata: Option<D>)

  /** `byName` and `byTag` say which filters are given. */
  datatype Query = Query(page: int, limit: int, byName: bool, byTag: bool)

  predicate SkippedUnread<D>(q: Query, e: FileEntry<D>) {
    !e.isFile || !e.isYaml || (q.byName && !q.byTag && !e.nameMatches)
  }

  predicate Listed<D>(q: Query, e: FileEntry<D>) {
    && e.isFile && e.isYaml && e.metadata.Some?
    && (q.byName ==> e.nameMatches) && (q.byTag ==> e.tagMatches)
  }

  /** The DAGs that pass the filters, in order. */
  function Selected<D>(q: Query, entries: seq<FileEntry<D>>): seq<D> {
    if entries == [] then []
    else
      var e := entries[|entries| - 1];
      var before := Selected(q, entries[..|entries| - 1]);
      if Listed(q, e) then before + [e.metadata.value] else before
  }

  function Unreadable<D>(q: Query, entries: seq<FileEntry<D>>): nat {
    if entries == [] then 0
    else
      var e := entries[|entries| - 1];
      Unreadable(q, entries[..|entries| - 1]) + if !SkippedUnread(q, e) && e.metadata.None? then 1 else 0
  }

  function Clamp(x: int, hi: nat): nat {
    if x < 0 then 0 else if x > hi then hi else x
  }

  function FirstOf(q: Query): int {
    (q.page - 1) * q.limit
  }

  /** The stretch of the list that a page shows; a page before the first shows the first. */
  function PageOf<D>(all: seq<D>, first: int, limit: int): seq<D> {
    if limit <= 0 then [] else all[Clamp(first, |all|)..Clamp(Clamp(first, |all|) + limit, |all|)]
  }

  datatype Listing<D> = Listing(dags: seq<D>, count: nat, errors: nat)

  /** Walks the directory once; the page is a stretch of the filtered list, the count is of
      the whole list. */
  method ListPagination<D>(q: Query, entries: seq<FileEntry<D>>) returns (r: Listing<D>)
    ensures r.count == |Selected(q, entries)|
    ensures r.dags == PageOf(Selected(q, entries), FirstOf(q), q.limit)
    ensures r.errors == Unreadable(q, entries)
    ensures q.page >= 1 && q.limit >= 1 ==>
              r.dags == Stretch(Selected(q, entries), (q.page - 1) * q.limit, q.page * q.limit)
  {
    hide PageOf, FirstOf, Selected, Unreadable;
    EmptyPage(q, entries[..0]);
    var dagList: seq<D> := [];
    var count, errors := 0, 0;
    for i := 0 to |entries|
      invariant count == |Selected(q, entries[..i])|
      invariant dagList == PageOf(Selected(q, entries[..i]), FirstOf(q), q.limit)
      invariant errors == Unreadable(q, entries[..i])
    {
      var e := entries[i];
      OneMoreEntry(q, entries, i);
      if !e.isFile || !e.isYaml {
        continue;
      }
      if q.byName && !q.byTag && !e.nameMatches {
        continue;
      }
      if e.metadata.None? {
        errors := errors + 1;
        continue;
      }
      if q.byName && !e.nameMatches {
        continue;
      }
      if q.byTag && !e.tagMatches {
        continue;
      }
      PageGrows(Selected(q, entries[..i]), e.metadata.value, FirstOf(q), q.limit);
      count := count + 1;
      if count > FirstOf(q) && |dagList| < q.limit {
        dagList := dagList + [e.metadata.value];
      }
    }
    assert entries[..|entries|] == entries;
    r := Listing(dagList, count, errors);
    if q.page >= 1 && q.limit >= 1 {
      PageIsStretch(Selected(q, entries), q);
    }
  }

  /** From one position to before another, as far as the list goes. */
  function Stretch<D>(all: seq<D>, from: int, to: int): seq<D>
    requires 0 <= from <= to
  {
    all[if from < |all| then from else |all|..if to < |all| then to else |all|]
  }

  lemma PageIsStretch<D>(all: seq<D>, q: Query)
    requires q.page >= 1 && q.limit >= 1
    ensures 0 <= (q.page - 1) * q.limit <= q.page * q.limit
    ensures PageOf(all, FirstOf(q), q.limit) == Stretch(all, (q.page - 1) * q.limit, q.page * q.limit)
  {
    NextProduct(q.page, q.limit);
    StretchOfPage(all, (q.page - 1) * q.limit, q.limit);
    hide PageOf, Stretch;
  }

  lemma NextProduct(page: int, limit: int)
    requires page >= 1 && limit >= 1
    ensures 0 <= (page - 1) * limit && page * limit == (page - 1) * limit + limit
  {
  }

  lemma StretchOfPage<D>(all: seq<D>, first: nat, limit: int)
    requires limit >= 1
    ensures PageOf(all, first, limit) == Stretch(all, first, first + limit)
  {
    assert Clamp(first, |all|) == if first < |all| then first else |all|;
    assert Clamp(Clamp(first, |all|) + limit, |all|) == if first + limit < |all| then first + limit else |all|;
  }

  /** What is listed of one directory after another. */
  lemma {:induction false} SelectedOfSum<D>(q: Query, a: seq<FileEntry<D>>, b: seq<FileEntry<D>>)
    ensures Selected(q, a + b) == Selected(q, a) + Selected(q, b)
    ensures Unreadable(q, a + b) == Unreadable(q, a) + Unreadable(q, b)
    decreases |b|
  {
    if b == [] {
      assert a + b == a;
    } else {
      assert (a + b)[..|a + b| - 1] == a + b[..|b| - 1];
      SelectedOfSum(q, a, b[..|b| - 1]);
    }
  }

  /** One entry is listed if it is a readable YAML file that the filters given let through.  It
      is an error if it cannot be read, unless the name filter alone has put it aside before. */
  lemma OneEntry<D>(q: Query, e: FileEntry<D>)
    ensures Selected(q, [e]) ==
            if e.isFile && e.isYaml && e.metadata.Some? && (e.nameMatches || !q.byName) && (e.tagMatches || !q.byTag)
            then [e.metadata.value] else []
    ensures Unreadable(q, [e]) ==
            if e.isFile && e.isYaml && e.metadata.None? && (e.nameMatches || q.byTag || !q.byName) then 1 else 0
  {
    assert [e][..0] == [];
  }

  lemma EmptyPage<D>(q: Query, entries: seq<FileEntry<D>>)
    requires entries == []
    ensures Selected(q, entries) == [] && Unreadable(q, entries) == 0
    ensures PageOf(Selected(q, entries), FirstOf(q), q.limit) == []
  {
  }

  lemma OneMoreEntry<D>(q: Query, entries: seq<FileEntry<D>>, i: nat)
    requires i < |entries|
    ensures Selected(q, entries[..i + 1]) ==
            if Listed(q, entries[i]) then Selected(q, entries[..i]) + [entries[i].metadata.value]
            else Selected(q, entries[..i])
    ensures Unreadable(q, entries[..i + 1]) ==
            Unreadable(q, entries[..i]) + if !SkippedUnread(q, entries[i]) && entries[i].metadata.None? then 1 else 0
  {
    assert entries[..i + 1][..i] == entries[..i];
  }

  lemma PageGrows<D>(all: seq<D>, d: D, first: int, limit: int)
    ensures PageOf(all + [d], first, limit) ==
            if |all| + 1 > first && |PageOf(all, first, limit)| < limit then PageOf(all, first, limit) + [d]
            else PageOf(all, first, limit)
  {
    if limit > 0 {
      var a, n := Clamp(first, |all|), |all|;
      SlicesOfMore(all, d, a, Clamp(a + limit, n));
      if first > n {
        assert PageOf(all + [d], first, limit) == [];
      } else if a + limit > n {
        assert PageOf(all + [d], first, limit) == (all + [d])[a..n + 1];
      } else {
        assert PageOf(all + [d], first, limit) == (all + [d])[a..a + limit];
      }
    }
  }

  lemma SlicesOfMore<D>(all: seq<D>, d: D, a: nat, b: nat)
    requires a <= b <= |all|
    ensures (all + [d])[a..b] == all[a..b]
    ensures (all + [d])[a..|all| + 1] == all[a..|all|] + [d]
  {
  }

  // -------------------------------------------------------------------- all pages

  /** Division as the program does it, toward zero. */
  function Quotient(a: int, b: int): int
    requires b != 0
  {
    var q := (if a < 0 then -a else a) / (if b < 0 then -b else b);
    if (a < 0) != (b < 0) then -q else q
  }

  /** The number of pages; a limit of zero is a division by zero, which panics. */
  function PageCount(total: nat, limit: int): Option<int> {
    if limit == 0 then None else Some(Quotient(total - 1, limit) + 1)
  }

  /** Pages 1 to `n`, one after the other. */
  ghost function FirstPages<D>(all: seq<D>, limit: int, n: nat): seq<D> {
    if n == 0 then [] else FirstPages(all, limit, n - 1) + PageOf(all, (n - 1) * limit, limit)
  }

  lemma {:induction false} FirstPagesArePrefix<D>(all: seq<D>, limit: int, n: nat)
    requires limit > 0
    ensures FirstPages(all, limit, n) == all[..Clamp(n * limit, |all|)]
    decreases n
  {
    if n > 0 {
      FirstPagesArePrefix(all, limit, n - 1);
      assert n * limit == (n - 1) * limit + limit && (n - 1) * limit >= 0;
      NextStretch(all, limit, (n - 1) * limit);
    }
  }

  lemma NextStretch<D>(all: seq<D>, limit: int, first: nat)
    requires limit > 0
    ensures all[..Clamp(first, |all|)] + PageOf(all, first, limit) == all[..Clamp(first + limit, |all|)]
  {
  }

  ghost predicate ShowsSomething<D>(all: seq<D>, limit: int, p: int) {
    PageOf(all, (p - 1) * limit, limit) != []
  }

  /** Under a positive limit the pages partition the list: one after the other they are the
      whole list in order, and each page up to the page count, and none after, has something
      to show.  The count for an empty list depends on the limit, because division truncates.
      Under any other limit no page shows anything, and counting them panics if it is zero. */
  lemma PagesPartitionTheList<D>(all: seq<D>, limit: int)
    ensures PageCount(|all|, limit).None? <==> limit == 0
    ensures limit <= 0 ==> forall p :: !ShowsSomething(all, limit, p)
    ensures limit > 0 ==> Partitioned(all, limit)
  {
    if limit > 0 {
      PagesPartition(all, limit);
    }
  }

  ghost predicate Partitioned<D>(all: seq<D>, limit: int)
    requires limit > 0
  {
    var n := PageCount(|all|, limit).value;
    && 0 <= n && FirstPages(all, limit, n) == all
    && (all != [] ==> forall p :: p >= 1 ==> (ShowsSomething(all, limit, p) <==> p <= n))
    && (all == [] ==> n == if limit == 1 then 0 else 1)
  }

  lemma PagesPartition<D>(all: seq<D>, limit: int)
    requires limit > 0
    ensures Partitioned(all, limit)
  {
    hide PageCount, PageOf, FirstPages, ShowsSomething;
    PageCountCovers(|all|, limit);
    var n := PageCount(|all|, limit).value;
    FirstPagesArePrefix(all, limit, n);
    CoversAll(|all|, n * limit);
    assert all[..|all|] == all;
    if all != [] {
      forall p | p >= 1 ensures ShowsSomething(all, limit, p) <==> p <= n {
        PageIsNonempty(all, limit, p, n - 1);
      }
    }
  }

  lemma CoversAll(size: nat, last: int)
    requires size <= last
    ensures Clamp(last, size) == size
  {
  }

  lemma PageCountCovers(total: nat, limit: int)
    requires limit > 0
    ensures PageCount(total, limit).Some?
    ensures var n := PageCount(total, limit).value;
            && 0 <= n && total <= n * limit
            && (total > 0 ==> n > 0 && (n - 1) * limit <= total - 1 < (n - 1) * limit + limit)
            && (total == 0 ==> n == if limit == 1 then 0 else 1)
  {
    if total == 0 {
      NothingOfOne(limit);
    } else {
      QuotientCovers(total - 1, limit);
      hide Quotient;
      var n := PageCount(total, limit).value;
      assert n * limit == (n - 1) * limit + limit;
    }
  }

  lemma NothingOfOne(limit: int)
    requires limit > 0
    ensures Quotient(-1, limit) == if limit == 1 then -1 else 0
  {
    assert 1 / limit == if limit == 1 then 1 else 0;
  }

  lemma QuotientCovers(a: nat, b: int)
    requires b > 0
    ensures 0 <= Quotient(a, b) && Quotient(a, b) * b <= a < Quotient(a, b) * b + b
  {
    DivisionCovers(a, b);
    assert Quotient(a, b) == a / b;
  }

  lemma DivisionCovers(a: nat, b: int)
    requires b > 0
    ensures 0 <= a / b && (a / b) * b <= a < (a / b) * b + b
  {
  }

  lemma PageIsNonempty<D>(all: seq<D>, limit: int, p: int, quotient: int)
    requires limit > 0 && p >= 1 && all != []
    requires quotient * limit <= |all| - 1 < quotient * limit + limit
    ensures ShowsSomething(all, limit, p) <==> p - 1 <= quotient
  {
    BeginsInside(|all| - 1, limit, p - 1, quotient);
    NonemptyIfInside(all, (p - 1) * limit, limit);
    hide PageOf;
  }

  lemma BeginsInside(last: nat, limit: int, page: nat, quotient: int)
    requires limit > 0 && quotient * limit <= last < quotient * limit + limit
    ensures 0 <= page * limit
    ensures page * limit <= last <==> page <= quotient
  {
    if page <= quotient {
      assert page * limit <= quotient * limit;
    } else {
      assert page * limit >= (quotient + 1) * limit;
    }
  }

  lemma NonemptyIfInside<D>(all: seq<D>, first: nat, limit: int)
    requires limit > 0
    ensures PageOf(all, first, limit) != [] <==> first <= |all| - 1
  {
  }
}
