/** Elementary facts about sets and maps, stated so that they can be called for. */
module Collections {

  lemma SameSet(a: set<int>, b: set<int>)
    requires forall v :: v in a <==> v in b
    ensures a == b
  {
    if forall v :: v in a <==> v in b {
    }
  }

  lemma SameKeys<V, W>(a: map<int, V>, b: map<int, W>)
    requires forall v :: v in a <==> v in b
    ensures a.Keys == b.Keys
  {
    SameSet(a.Keys, b.Keys);
  }

  lemma AnyMember<T>(u: set<T>) returns (v: T)
    requires u != {}
    ensures v in u
  {
    if forall v :: v !in u {
      assert false;
    }
    v :| v in u;
  }

  lemma OneFewer(all: set<int>, done: set<int>, x: int)
    requires x in all && x !in done
    ensures |all - (done + {x})| < |all - done|
  {
    assert all - (done + {x}) == (all - done) - {x};
    assert x in all - done;
  }
}
