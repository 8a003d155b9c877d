/** Walks in a finite directed graph given as a set of edges, and the two
    closures property paths need. */
module Closure {
  import opened Keys

  type Edges = set<(Key, Key)>

  ghost predicate Walk(e: Edges, s: Key, o: Key, n: nat)
    decreases n
  {
    if n == 0 then s == o else exists m :: (s, m) in e && Walk(e, m, o, n - 1)
  }

  /** One or more steps. */
  ghost predicate Plus(e: Edges, s: Key, o: Key) {
    exists n: nat :: n >= 1 && Walk(e, s, o, n)
  }

  /** Zero or more steps. */
  ghost predicate Star(e: Edges, s: Key, o: Key) {
    s == o || Plus(e, s, o)
  }

  ghost function Converse(e: Edges): (c: Edges) {
    set p | p in e :: (p.1, p.0)
  }

  lemma {:induction false} WalkAppend(e: Edges, s: Key, m: Key, o: Key, i: nat, j: nat)
    requires Walk(e, s, m, i) && Walk(e, m, o, j)
    ensures Walk(e, s, o, i + j)
    decreases i
  {
    if i > 0 {
      var x :| (s, x) in e && Walk(e, x, m, i - 1);
      WalkAppend(e, x, m, o, i - 1, j);
    }
  }

  lemma PlusEdge(e: Edges, s: Key, o: Key)
    requires (s, o) in e
    ensures Plus(e, s, o)
  {
    assert Walk(e, o, o, 0);
    assert Walk(e, s, o, 1);
  }

  lemma PlusTransitive(e: Edges, s: Key, m: Key, o: Key)
    requires Plus(e, s, m) && Plus(e, m, o)
    ensures Plus(e, s, o)
  {
    var i: nat :| i >= 1 && Walk(e, s, m, i);
    var j: nat :| j >= 1 && Walk(e, m, o, j);
    WalkAppend(e, s, m, o, i, j);
  }

  /** A star step followed by an edge is a plus step. */
  lemma StarThenEdge(e: Edges, s: Key, m: Key, o: Key)
    requires Star(e, s, m) && (m, o) in e
    ensures Plus(e, s, o)
  {
    PlusEdge(e, m, o);
    if s != m {
      PlusTransitive(e, s, m, o);
    }
  }

  lemma StarThenPlus(e: Edges, s: Key, m: Key, o: Key)
    requires Star(e, s, m) && Plus(e, m, o)
    ensures Plus(e, s, o)
  {
    if s != m {
      PlusTransitive(e, s, m, o);
    }
  }

  /** A set closed under edges that contains the first node contains every node
      walked to. */
  lemma {:induction false} WalkStaysIn(e: Edges, r: set<Key>, s: Key, o: Key, n: nat)
    requires forall x, y :: x in r && (x, y) in e ==> y in r
    requires s in r && Walk(e, s, o, n)
    ensures o in r
    decreases n
  {
    if n > 0 {
      var m :| (s, m) in e && Walk(e, m, o, n - 1);
      WalkStaysIn(e, r, m, o, n - 1);
    }
  }

  /** The heart of every work-list argument: if `r` is closed under edges and
      holds every direct successor of `s`, it holds everything reachable. */
  lemma ClosedContainsPlus(e: Edges, r: set<Key>, s: Key)
    requires forall x, y :: x in r && (x, y) in e ==> y in r
    requires forall y :: (s, y) in e ==> y in r
    ensures forall o :: Plus(e, s, o) ==> o in r
  {
    forall o | Plus(e, s, o)
      ensures o in r
    {
      var n: nat :| n >= 1 && Walk(e, s, o, n);
      var m :| (s, m) in e && Walk(e, m, o, n - 1);
      WalkStaysIn(e, r, m, o, n - 1);
    }
  }

  lemma {:induction false} WalkMonotone(e: Edges, f: Edges, s: Key, o: Key, n: nat)
    requires e <= f && Walk(e, s, o, n)
    ensures Walk(f, s, o, n)
    decreases n
  {
    if n > 0 {
      var m :| (s, m) in e && Walk(e, m, o, n - 1);
      WalkMonotone(e, f, m, o, n - 1);
    }
  }

  lemma PlusMonotone(e: Edges, f: Edges, s: Key, o: Key)
    requires e <= f && Plus(e, s, o)
    ensures Plus(f, s, o)
  {
    var n: nat :| n >= 1 && Walk(e, s, o, n);
    WalkMonotone(e, f, s, o, n);
  }

  lemma {:induction false} WalkConverse(e: Edges, s: Key, o: Key, n: nat)
    requires Walk(e, s, o, n)
    ensures Walk(Converse(e), o, s, n)
    decreases n
  {
    if n > 0 {
      var m :| (s, m) in e && Walk(e, m, o, n - 1);
      WalkConverse(e, m, o, n - 1);
      var p := (s, m);
      assert p in e && (m, s) in Converse(e);
      assert Walk(Converse(e), s, s, 0);
      assert Walk(Converse(e), m, s, 1);
      WalkAppend(Converse(e), o, m, s, n - 1, 1);
    }
  }

  /** Reversing every edge reverses the closure. */
  lemma PlusConverse(e: Edges, s: Key, o: Key)
    ensures Plus(e, s, o) <==> Plus(Converse(e), o, s)
  {
    if Plus(e, s, o) {
      var n: nat :| n >= 1 && Walk(e, s, o, n);
      WalkConverse(e, s, o, n);
    }
    if Plus(Converse(e), o, s) {
      var n: nat :| n >= 1 && Walk(Converse(e), o, s, n);
      WalkConverse(Converse(e), o, s, n);
      assert Converse(Converse(e)) == e by {
        forall p | p in e
          ensures p in Converse(Converse(e))
        {
          assert (p.1, p.0) in Converse(e);
        }
      }
    }
  }

  /** The last step of a closure walk. */
  lemma PlusHasLastEdge(e: Edges, s: Key, o: Key)
    requires Plus(e, s, o)
    ensures exists m :: Star(e, s, m) && (m, o) in e
  {
    PlusConverse(e, s, o);
    var n: nat :| n >= 1 && Walk(Converse(e), o, s, n);
    var m :| (o, m) in Converse(e) && Walk(Converse(e), m, s, n - 1);
    assert (m, o) in e;
    if n > 1 {
      assert Plus(Converse(e), m, s);
      PlusConverse(e, s, m);
    }
    assert Star(e, s, m);
  }

  /** The first step of a closure walk. */
  lemma PlusHasFirstEdge(e: Edges, s: Key, o: Key)
    requires Plus(e, s, o)
    ensures exists m :: (s, m) in e && Star(e, m, o)
  {
    var n: nat :| n >= 1 && Walk(e, s, o, n);
    var m :| (s, m) in e && Walk(e, m, o, n - 1);
    if n == 1 {
      assert Star(e, m, o);
    } else {
      assert Plus(e, m, o);
    }
  }
}
