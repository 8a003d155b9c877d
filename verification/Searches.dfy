/** What one inner search for one or more steps finds on its own, as a rollup runs it
    (db/traversal.go:270-381 called at db/transaction.go:527 and 566). */
module Searches {
  import opened Closure
  import opened Graphs
  import opened Keys
  import opened Traversal

  /** No early return loses a node: a node further on behind one of two siblings is also
      next to their parent or further on behind the other sibling, if that leads anywhere. */
  ghost predicate NoSiblingLost(e: Edges) {
    forall s, a, b, c, y :: (s, a) in e && (s, b) in e && (a, c) in e && Plus(e, b, y) ==> (s, y) in e || Plus(e, a, y)
  }

  /** No node has two edges. */
  ghost predicate Functional(e: Edges) {
    forall s, a, b :: (s, a) in e && (s, b) in e ==> a == b
  }

  lemma FunctionalLosesNothing(e: Edges)
    requires Functional(e)
    ensures NoSiblingLost(e)
  {
  }

  /** Nothing lies behind an edge's end, as for the classes of typed nodes. */
  ghost predicate Flat(e: Edges) {
    forall s, a, c :: (s, a) in e ==> (a, c) !in e
  }

  lemma FlatLosesNothing(e: Edges)
    requires Flat(e)
    ensures NoSiblingLost(e)
  {
  }

  /** The search from one entity, with nothing found yet. */
  ghost function SearchFrom(g: View, d: Dir, p: Key, n: Node): (set<Key>, bool)
    requires WellFormedView(g) && Stored(g, n)
  {
    Searched(g, d, p, OnePlus, [n], {}, {})
  }

  // ---- what every search finds ----

  lemma {:induction false} SearchedGrows(g: View, d: Dir, p: Key, stack: seq<Node>, traversed: set<Key>, r: set<Key>)
    requires WellFormedView(g) && AllStored(g, stack)
    ensures r <= Searched(g, d, p, OnePlus, stack, traversed, r).0
    decreases g.nodes.Keys - traversed, |stack|
  {
    if stack != [] {
      var n, rest := stack[0], stack[1..];
      assert Stored(g, n) && AllStored(g, rest);
      if n.pk in traversed {
        SearchedGrows(g, d, p, rest, traversed, r);
      } else if (n.pk in g.index || !g.strict) && !(n.pk in g.index && p in PlusLists(g.index[n.pk], d)) {
        var edges := EdgeList(n, d, p);
        SearchedGrows(g, d, p, rest + NextNodes(g, edges), traversed + {n.pk}, r + set x | x in edges);
        StepFinds(g, d, p, n, rest, traversed, r);
      }
    }
  }

  /** One turn of the search at an entity without an entry. */
  lemma StepFinds(g: View, d: Dir, p: Key, n: Node, rest: seq<Node>, traversed: set<Key>, r: set<Key>)
    requires WellFormedView(g) && Stored(g, n) && AllStored(g, rest) && n.pk !in traversed
    requires (n.pk in g.index || !g.strict) && !(n.pk in g.index && p in PlusLists(g.index[n.pk], d))
    ensures forall x :: x in EdgeList(n, d, p) ==> x in g.nodes
    ensures AllStored(g, rest + NextNodes(g, EdgeList(n, d, p)))
    ensures Searched(g, d, p, OnePlus, [n] + rest, traversed, r) ==
            Searched(g, d, p, OnePlus, rest + NextNodes(g, EdgeList(n, d, p)), traversed + {n.pk},
                     r + set x | x in EdgeList(n, d, p))
  {
    assert ([n] + rest)[1..] == rest && n == g.nodes[n.pk];
    assert r + {} + (set x | x in EdgeList(n, d, p)) == r + set x | x in EdgeList(n, d, p);
  }

  /** A start with an entry is answered by it; otherwise its neighbours are found first. */
  lemma StartFinds(g: View, d: Dir, p: Key, n: Node)
    requires WellFormedView(g) && Stored(g, n)
    ensures n.pk in g.index && p in PlusLists(g.index[n.pk], d) ==>
              SearchFrom(g, d, p, n) == (set x | x in PlusLists(g.index[n.pk], d)[p], true)
    ensures n.pk in g.index && p !in PlusLists(g.index[n.pk], d) ==>
              forall x :: x in EdgeList(n, d, p) ==> x in SearchFrom(g, d, p, n).0
  {
    if n.pk in g.index && p in PlusLists(g.index[n.pk], d) {
      var entry := set x | x in PlusLists(g.index[n.pk], d)[p];
      assert {} + {} + entry == entry && [n][0] == n;
    }
    if n.pk in g.index && p !in PlusLists(g.index[n.pk], d) {
      StepFinds(g, d, p, n, [], {}, {});
      SearchedGrows(g, d, p, [] + NextNodes(g, EdgeList(n, d, p)), {} + {n.pk}, {} + set x | x in EdgeList(n, d, p));
      assert [n] + [] == [n];
    }
  }

  /** Found keys are reachable over any edges that contain the stored ones and account for
      the index entries. */
  lemma {:induction false} SearchedSound(g: View, d: Dir, p: Key, f: Edges, start: Key, stack: seq<Node>,
                                         traversed: set<Key>, r: set<Key>)
    requires WellFormedView(g) && AllStored(g, stack) && Rel(g, d, p) <= f && IndexSoundFor(g, d, p, f)
    requires forall n :: n in stack ==> Star(f, start, n.pk)
    requires forall x :: x in r ==> Plus(f, start, x)
    ensures forall x :: x in Searched(g, d, p, OnePlus, stack, traversed, r).0 ==> Plus(f, start, x)
    decreases g.nodes.Keys - traversed, |stack|
  {
    hide IndexSoundFor, Rel, Plus;
    if stack != [] {
      var n, rest := stack[0], stack[1..];
      assert Stored(g, n) && AllStored(g, rest) && n in stack && stack == [n] + rest;
      if n.pk in traversed {
        SearchedSound(g, d, p, f, start, rest, traversed, r);
      } else if n.pk in g.index && p in PlusLists(g.index[n.pk], d) {
        HitSound(g, d, p, f, start, n.pk);
      } else if n.pk in g.index || !g.strict {
        var edges := EdgeList(n, d, p);
        StepFinds(g, d, p, n, rest, traversed, r);
        EdgesSound(g, d, p, f, start, n);
        SearchedSound(g, d, p, f, start, rest + NextNodes(g, edges), traversed + {n.pk}, r + set x | x in edges);
      }
    }
  }

  lemma HitSound(g: View, d: Dir, p: Key, f: Edges, start: Key, k: Key)
    requires k in g.index && p in PlusLists(g.index[k], d) && IndexSoundFor(g, d, p, f) && Star(f, start, k)
    ensures forall x :: x in PlusLists(g.index[k], d)[p] ==> Plus(f, start, x)
  {
    forall x | x in PlusLists(g.index[k], d)[p]
      ensures Plus(f, start, x)
    {
      StarThenPlus(f, start, k, x);
    }
  }

  lemma EdgesSound(g: View, d: Dir, p: Key, f: Edges, start: Key, n: Node)
    requires WellFormedView(g) && Stored(g, n) && Rel(g, d, p) <= f && Star(f, start, n.pk)
    ensures forall x :: x in EdgeList(n, d, p) ==> Plus(f, start, x) && x in g.nodes && g.nodes[x].pk == x
  {
    forall x | x in EdgeList(n, d, p)
      ensures Plus(f, start, x)
    {
      assert (n.pk, x) in Rel(g, d, p);
      StarThenEdge(f, start, n.pk, x);
    }
  }

  /** A search does not fail if everything reachable from what is waiting has a record. */
  lemma {:induction false} SearchedSucceeds(g: View, d: Dir, p: Key, stack: seq<Node>, traversed: set<Key>, r: set<Key>)
    requires WellFormedView(g) && AllStored(g, stack)
    requires forall n :: n in stack ==> n.pk in g.index
    requires forall x, y :: (x, y) in Rel(g, d, p) && x != y ==> y in g.index
    ensures Searched(g, d, p, OnePlus, stack, traversed, r).1
    decreases g.nodes.Keys - traversed, |stack|
  {
    if stack != [] {
      var n, rest := stack[0], stack[1..];
      assert Stored(g, n) && AllStored(g, rest) && n in stack && stack == [n] + rest;
      if n.pk in traversed {
        SearchedSucceeds(g, d, p, rest, traversed, r);
      } else if p !in PlusLists(g.index[n.pk], d) {
        var edges := EdgeList(n, d, p);
        StepFinds(g, d, p, n, rest, traversed, r);
        forall x | x in edges
          ensures x in g.index
        {
          assert (n.pk, x) in Rel(g, d, p);
        }
        SearchedSucceeds(g, d, p, rest + NextNodes(g, edges), traversed + {n.pk}, r + set x | x in edges);
      }
    }
  }

  // ---- when a search finds everything ----

  /** The edges that lead out of a set of nodes. */
  ghost function OutOf(e: Edges, t: set<Key>): Edges {
    set pair | pair in e && pair.0 in t
  }

  /** The search so far: traversed nodes are expanded and lead on to traversed or waiting
      ones, and waiting nodes were reached through traversed nodes only. */
  ghost predicate OnTheWay(e: Edges, start: Key, stack: seq<Node>, traversed: set<Key>, r: set<Key>) {
    && (start in traversed || (traversed == {} && |stack| == 1 && stack[0].pk == start))
    && (forall x :: x in traversed ==> Expanded(e, x, r))
    && (forall x, y :: x in traversed && (x, y) in e ==> y in traversed || Lists(stack, y))
    && (forall n :: n in stack ==> Star(OutOf(e, traversed), start, n.pk))
  }

  lemma OnTheWayStarts(e: Edges, n: Node)
    ensures OnTheWay(e, n.pk, [n], {}, {})
  {
  }

  lemma OnTheWaySkips(e: Edges, start: Key, n: Node, rest: seq<Node>, traversed: set<Key>, r: set<Key>)
    requires OnTheWay(e, start, [n] + rest, traversed, r) && n.pk in traversed
    ensures OnTheWay(e, start, rest, traversed, r)
  {
    forall x, y | x in traversed && (x, y) in e && y !in traversed
      ensures Lists(rest, y)
    {
      var m :| m in [n] + rest && m.pk == y;
      assert m in rest;
    }
    assert forall m :: m in rest ==> m in [n] + rest;
  }

  lemma OnTheWaySteps(g: View, d: Dir, p: Key, start: Key, n: Node, rest: seq<Node>, traversed: set<Key>, r: set<Key>)
    requires WellFormedView(g) && Stored(g, n) && AllStored(g, rest)
    requires OnTheWay(Rel(g, d, p), start, [n] + rest, traversed, r) && n.pk !in traversed
    ensures (forall x :: x in EdgeList(n, d, p) ==> x in g.nodes) &&
            OnTheWay(Rel(g, d, p), start, rest + NextNodes(g, EdgeList(n, d, p)), traversed + {n.pk},
                     r + set x | x in EdgeList(n, d, p))
  {
    var e, edges := Rel(g, d, p), EdgeList(n, d, p);
    assert n == g.nodes[n.pk];
    var next, t, r' := NextNodes(g, edges), traversed + {n.pk}, r + set x | x in edges;
    assert ([n] + rest)[0] == n && n in [n] + rest;
    assert start in t;
    assert forall y :: (n.pk, y) in e <==> y in edges;
    forall x, y | x in t && (x, y) in e
      ensures y in t || Lists(rest + next, y)
    {
      if x == n.pk {
        var i :| 0 <= i < |edges| && edges[i] == y;
        assert next[i] == g.nodes[y];
        assert (rest + next)[|rest| + i].pk == y;
      } else if y !in t {
        var m :| m in [n] + rest && m.pk == y;
        assert m in rest + next;
      }
    }
    var f, f' := OutOf(e, traversed), OutOf(e, t);
    assert f <= f';
    forall m | m in rest + next
      ensures Star(f', start, m.pk)
    {
      assert Star(f', start, n.pk) by {
        StarGrows(f, f', start, n.pk);
      }
      if m in rest {
        assert m in [n] + rest;
        StarGrows(f, f', start, m.pk);
      } else {
        assert m.pk in edges && (n.pk, m.pk) in f';
        StarThenEdge(f', start, n.pk, m.pk);
      }
    }
  }

  lemma StarGrows(f: Edges, f': Edges, s: Key, o: Key)
    requires f <= f' && Star(f, s, o)
    ensures Star(f', s, o)
  {
    if s != o {
      PlusMonotone(f, f', s, o);
    }
  }

  /** Running out of waiting nodes means that everything reachable was found. */
  lemma ExhaustedFindsAll(e: Edges, start: Key, traversed: set<Key>, r: set<Key>)
    requires OnTheWay(e, start, [], traversed, r)
    ensures Saturated(e, start, r)
  {
    ClosedContainsPlus(e, traversed, start);
    forall y | Plus(e, start, y)
      ensures y in r
    {
      PlusHasLastEdge(e, start, y);
      var m :| Star(e, start, m) && (m, y) in e;
      assert m in traversed;
    }
  }

  /** What is not yet found but reachable is reachable also from any waiting node that
      leads anywhere. */
  lemma {:induction false} BehindTheHit(e: Edges, t: set<Key>, r: set<Key>, x: Key, hit: Key, c: Key, y: Key, n: nat)
    requires NoSiblingLost(e) && (forall k :: k in t ==> Expanded(e, k, r))
    requires Walk(OutOf(e, t), x, hit, n) && (hit, c) in e && Plus(e, x, y) && y !in r
    ensures Plus(e, hit, y)
    decreases n
  {
    if n > 0 {
      var f := OutOf(e, t);
      var m :| (x, m) in f && Walk(f, m, hit, n - 1);
      assert (x, m) in e && x in t && (x, y) !in e;
      PlusHasFirstEdge(e, x, y);
      var b :| (x, b) in e && Star(e, b, y);
      assert b != y && Plus(e, b, y);
      var c' := c;
      if n > 1 {
        c' :| (m, c') in f && Walk(f, c', hit, n - 2);
      }
      assert (m, c') in e;
      BehindTheHit(e, t, r, m, hit, c, y, n - 1);
    }
  }

  /** Without lost siblings, a search that does not fail finds everything, if present
      entries are exact and not empty. */
  lemma {:induction false} SearchedComplete(g: View, d: Dir, p: Key, start: Key, stack: seq<Node>, traversed: set<Key>,
                                            r: set<Key>)
    requires WellFormedView(g) && AllStored(g, stack) && NoSiblingLost(Rel(g, d, p))
    requires OnTheWay(Rel(g, d, p), start, stack, traversed, r)
    requires IndexExact(g, d, p) && EntriesLead(g, d, p)
    ensures var (found, ok) := Searched(g, d, p, OnePlus, stack, traversed, r);
            ok ==> Saturated(Rel(g, d, p), start, found)
    decreases g.nodes.Keys - traversed, |stack|
  {
    var e := Rel(g, d, p);
    hide Rel, NoSiblingLost, OnTheWay, Saturated, IndexExact, EntriesLead;
    if stack == [] {
      ExhaustedFindsAll(e, start, traversed, r);
    } else {
      var n, rest := stack[0], stack[1..];
      assert Stored(g, n) && AllStored(g, rest) && stack == [n] + rest;
      if n.pk in traversed {
        OnTheWaySkips(e, start, n, rest, traversed, r);
        SearchedComplete(g, d, p, start, rest, traversed, r);
      } else if n.pk in g.index && p in PlusLists(g.index[n.pk], d) {
        HitFindsAll(g, d, p, start, n, rest, traversed, r);
        assert r + {} == r;
      } else if n.pk in g.index || !g.strict {
        StepFinds(g, d, p, n, rest, traversed, r);
        OnTheWaySteps(g, d, p, start, n, rest, traversed, r);
        SearchedComplete(g, d, p, start, rest + NextNodes(g, EdgeList(n, d, p)), traversed + {n.pk},
                         r + set x | x in EdgeList(n, d, p));
      }
    }
  }

  /** No entry is empty. */
  ghost predicate EntriesLead(g: View, d: Dir, p: Key) {
    forall k :: k in g.index && p in PlusLists(g.index[k], d) ==> PlusLists(g.index[k], d)[p] != []
  }

  lemma HitFindsAll(g: View, d: Dir, p: Key, start: Key, n: Node, rest: seq<Node>, traversed: set<Key>, r: set<Key>)
    requires NoSiblingLost(Rel(g, d, p)) && OnTheWay(Rel(g, d, p), start, [n] + rest, traversed, r)
    requires n.pk !in traversed
    requires n.pk in g.index && p in PlusLists(g.index[n.pk], d) && IndexExact(g, d, p) && EntriesLead(g, d, p)
    ensures Saturated(Rel(g, d, p), start, r + set x | x in PlusLists(g.index[n.pk], d)[p])
  {
    var e := Rel(g, d, p);
    var entry := PlusLists(g.index[n.pk], d)[p];
    assert ([n] + rest)[0] == n && n in [n] + rest;
    hide Rel, NoSiblingLost;
    assert forall x :: x in entry <==> Plus(e, n.pk, x);
    assert entry[0] in entry;
    PlusHasFirstEdge(e, n.pk, entry[0]);
    var c :| (n.pk, c) in e;
    forall y | Plus(e, start, y) && y !in r
      ensures y in entry
    {
      if start != n.pk {
        var k: nat :| k >= 1 && Walk(OutOf(e, traversed), start, n.pk, k);
        BehindTheHit(e, traversed, r, start, n.pk, c, y, k);
      }
    }
  }

  /** Even where siblings are lost, a search finds everything or all of some entry. */
  lemma {:induction false} SaturatedOrHit(g: View, d: Dir, p: Key, start: Key, stack: seq<Node>, traversed: set<Key>,
                                          r: set<Key>)
    requires WellFormedView(g) && AllStored(g, stack) && OnTheWay(Rel(g, d, p), start, stack, traversed, r)
    ensures var (found, ok) := Searched(g, d, p, OnePlus, stack, traversed, r);
            ok ==> Saturated(Rel(g, d, p), start, found) || HoldsEntry(g, d, p, found)
    decreases g.nodes.Keys - traversed, |stack|
  {
    var e := Rel(g, d, p);
    hide Rel, OnTheWay, Saturated;
    if stack == [] {
      ExhaustedFindsAll(e, start, traversed, r);
    } else {
      var n, rest := stack[0], stack[1..];
      assert Stored(g, n) && AllStored(g, rest) && stack == [n] + rest;
      if n.pk in traversed {
        OnTheWaySkips(e, start, n, rest, traversed, r);
        SaturatedOrHit(g, d, p, start, rest, traversed, r);
      } else if (n.pk in g.index || !g.strict) && !(n.pk in g.index && p in PlusLists(g.index[n.pk], d)) {
        StepFinds(g, d, p, n, rest, traversed, r);
        OnTheWaySteps(g, d, p, start, n, rest, traversed, r);
        SaturatedOrHit(g, d, p, start, rest + NextNodes(g, EdgeList(n, d, p)), traversed + {n.pk},
                       r + set x | x in EdgeList(n, d, p));
      }
    }
  }

  ghost predicate HoldsEntry(g: View, d: Dir, p: Key, r: set<Key>) {
    exists k :: k in g.index && p in PlusLists(g.index[k], d) && forall x :: x in PlusLists(g.index[k], d)[p] ==> x in r
  }

  /** With no entries in sight a search finds exactly what is reachable. */
  lemma UnindexedFindsAll(g: View, d: Dir, p: Key, n: Node)
    requires WellFormedView(g) && Stored(g, n) && n.pk in g.index
    requires forall k :: k in g.index ==> p !in PlusLists(g.index[k], d)
    requires forall x, y :: (x, y) in Rel(g, d, p) && x != y ==> y in g.index
    ensures forall x :: x in SearchFrom(g, d, p, n).0 <==> Plus(Rel(g, d, p), n.pk, x)
  {
    OnTheWayStarts(Rel(g, d, p), n);
    SaturatedOrHit(g, d, p, n.pk, [n], {}, {});
    SearchedSucceeds(g, d, p, [n], {}, {});
    SearchedSound(g, d, p, Rel(g, d, p), n.pk, [n], {}, {});
    hide Rel;
    assert !HoldsEntry(g, d, p, SearchFrom(g, d, p, n).0);
  }

  // ---- the order of a search ----

  /** The search goes on behind this node: it does not answer from an entry, or fail. */
  ghost predicate Opens(g: View, d: Dir, p: Key, x: Key) {
    (x in g.index || !g.strict) && !(x in g.index && p in PlusLists(g.index[x], d))
  }

  /** All nodes fewer than `k` steps from the start. */
  ghost predicate OpensWithin(g: View, d: Dir, p: Key, start: Key, k: nat) {
    forall x, j: nat :: j < k && Walk(Rel(g, d, p), start, x, j) ==> Opens(g, d, p, x)
  }

  /** The search so far, level by level: `near` waits `m` steps from the start, `far` one
      step further, and everything nearer has been traversed. */
  ghost predicate Levelled(e: Edges, start: Key, m: nat, near: seq<Node>, far: seq<Node>, traversed: set<Key>,
                           r: set<Key>)
  {
    && (forall n :: n in near ==> Walk(e, start, n.pk, m))
    && (forall n :: n in far ==> Walk(e, start, n.pk, m + 1))
    && (forall x, j: nat :: j < m && Walk(e, start, x, j) ==> x in traversed)
    && (forall x :: Walk(e, start, x, m) ==> x in traversed || Lists(near, x))
    && (forall x :: x in traversed ==> Expanded(e, x, r))
    && (forall x, y :: x in traversed && (x, y) in e ==> y in traversed || Lists(near, y) || Lists(far, y))
  }

  lemma {:induction false} WalkLastEdge(e: Edges, s: Key, x: Key, n: nat) returns (y: Key)
    requires n > 0 && Walk(e, s, x, n)
    ensures Walk(e, s, y, n - 1) && (y, x) in e
    decreases n
  {
    var m :| (s, m) in e && Walk(e, m, x, n - 1);
    if n == 1 {
      y := s;
    } else {
      y := WalkLastEdge(e, m, x, n - 1);
    }
  }

  lemma LevelStarts(e: Edges, n: Node)
    ensures Levelled(e, n.pk, 0, [n], [], {}, {})
  {
    assert n in [n];
  }

  /** With no more nodes waiting at this distance, the next one's turn comes. */
  lemma NextLevel(e: Edges, start: Key, m: nat, far: seq<Node>, traversed: set<Key>, r: set<Key>)
    requires Levelled(e, start, m, [], far, traversed, r)
    ensures Levelled(e, start, m + 1, far, [], traversed, r)
  {
    forall x | Walk(e, start, x, m + 1)
      ensures x in traversed || Lists(far, x)
    {
      var y := WalkLastEdge(e, start, x, m + 1);
      assert y in traversed;
    }
    forall x, j: nat | j < m + 1 && Walk(e, start, x, j)
      ensures x in traversed
    {
    }
  }

  lemma LevelSkips(e: Edges, start: Key, m: nat, n: Node, near: seq<Node>, far: seq<Node>, traversed: set<Key>,
                   r: set<Key>)
    requires Levelled(e, start, m, [n] + near, far, traversed, r) && n.pk in traversed
    ensures Levelled(e, start, m, near, far, traversed, r)
  {
    hide Walk, Expanded;
    forall y | Lists([n] + near, y) && y !in traversed
      ensures Lists(near, y)
    {
    }
    assert forall x :: x in near ==> x in [n] + near;
  }

  lemma NeighboursWalk(e: Edges, start: Key, m: nat, k: Key)
    requires Walk(e, start, k, m)
    ensures forall y :: (k, y) in e ==> Walk(e, start, y, m + 1)
  {
    forall y | (k, y) in e
      ensures Walk(e, start, y, m + 1)
    {
      assert Walk(e, y, y, 0);
      assert Walk(e, k, y, 1);
      WalkAppend(e, start, k, y, m, 1);
    }
  }

  /** Expanding a waiting node, in terms of its edges. */
  lemma LevelExpands(e: Edges, start: Key, m: nat, n: Node, near: seq<Node>, far: seq<Node>, traversed: set<Key>,
                     r: set<Key>, next: seq<Node>, ends: set<Key>)
    requires Levelled(e, start, m, [n] + near, far, traversed, r)
    requires forall x :: x in next ==> (n.pk, x.pk) in e
    requires forall y :: (n.pk, y) in e ==> Lists(next, y) && y in ends
    ensures Levelled(e, start, m, near, far + next, traversed + {n.pk}, r + ends)
  {
    assert n in [n] + near;
    NeighboursWalk(e, start, m, n.pk);
    hide Walk;
    assert forall x :: x in near ==> x in [n] + near;
    assert forall y :: Lists([n] + near, y) && y != n.pk ==> Lists(near, y);
    assert forall f :: f in far || f in next <==> f in far + next;
    assert forall y :: Lists(far, y) || Lists(next, y) ==> Lists(far + next, y);
  }

  lemma LevelSteps(g: View, d: Dir, p: Key, start: Key, m: nat, n: Node, near: seq<Node>, far: seq<Node>,
                   traversed: set<Key>, r: set<Key>)
    requires WellFormedView(g) && Stored(g, n) && forall x :: x in EdgeList(n, d, p) ==> x in g.nodes
    requires Levelled(Rel(g, d, p), start, m, [n] + near, far, traversed, r)
    ensures Levelled(Rel(g, d, p), start, m, near, far + NextNodes(g, EdgeList(n, d, p)), traversed + {n.pk},
                     r + set x | x in EdgeList(n, d, p))
  {
    hide Levelled, WellFormedView;
    var e, edges := Rel(g, d, p), EdgeList(n, d, p);
    var next := NextNodes(g, edges);
    NeighboursOf(g, edges, next);
    assert forall y :: (n.pk, y) in e <==> y in edges by {
      NodeKeyed(g, n);
    }
    forall y | (n.pk, y) in e
      ensures Lists(next, y)
    {
      assert g.nodes[y] in next;
    }
    LevelExpands(e, start, m, n, near, far, traversed, r, next, set x | x in edges);
  }

  lemma NodeKeyed(g: View, n: Node)
    requires WellFormedView(g) && Stored(g, n)
    ensures n.pk in g.nodes && g.nodes[n.pk] == n
    ensures forall d, p, x :: (n.pk, x) in Rel(g, d, p) <==> x in EdgeList(n, d, p)
  {
  }

  lemma LevelFound(g: View, d: Dir, p: Key, start: Key, k: nat, near: seq<Node>, far: seq<Node>, traversed: set<Key>,
                   r: set<Key>)
    requires Levelled(Rel(g, d, p), start, k, near, far, traversed, r)
    ensures forall x, j: nat :: 1 <= j <= k && Walk(Rel(g, d, p), start, x, j) ==> x in r
  {
    var e := Rel(g, d, p);
    hide Rel;
    forall x, j: nat | 1 <= j <= k && Walk(e, start, x, j)
      ensures x in r
    {
      var y := WalkLastEdge(e, start, x, j);
      assert y in traversed;
    }
  }

  lemma {:induction false} LevelsFound(g: View, d: Dir, p: Key, start: Key, k: nat, m: nat, near: seq<Node>,
                                       far: seq<Node>, traversed: set<Key>, r: set<Key>)
    requires WellFormedView(g) && AllStored(g, near + far) && m <= k && OpensWithin(g, d, p, start, k)
    requires Levelled(Rel(g, d, p), start, m, near, far, traversed, r)
    ensures forall x, j: nat :: 1 <= j <= k && Walk(Rel(g, d, p), start, x, j) ==>
                                  x in Searched(g, d, p, OnePlus, near + far, traversed, r).0
    decreases g.nodes.Keys - traversed, |near + far|, k - m
  {
    hide Rel, Levelled, Walk;
    if m == k {
      LevelFound(g, d, p, start, k, near, far, traversed, r);
      SearchedGrows(g, d, p, near + far, traversed, r);
    } else if near == [] {
      NextLevel(Rel(g, d, p), start, m, far, traversed, r);
      assert [] + far == far == far + [];
      LevelsFound(g, d, p, start, k, m + 1, far, [], traversed, r);
    } else {
      var n, rest := near[0], near[1..];
      assert near + far == [n] + (rest + far) && near == [n] + rest;
      assert Stored(g, n) && AllStored(g, rest + far);
      if n.pk in traversed {
        LevelSkips(Rel(g, d, p), start, m, n, rest, far, traversed, r);
        LevelsFound(g, d, p, start, k, m, rest, far, traversed, r);
      } else {
        assert Opens(g, d, p, n.pk) by {
          FrontWalk(Rel(g, d, p), start, m, n, rest, far, traversed, r);
        }
        StepFinds(g, d, p, n, rest + far, traversed, r);
        LevelSteps(g, d, p, start, m, n, rest, far, traversed, r);
        var next := NextNodes(g, EdgeList(n, d, p));
        assert rest + far + next == rest + (far + next);
        LevelsFound(g, d, p, start, k, m, rest, far + next, traversed + {n.pk}, r + set x | x in EdgeList(n, d, p));
      }
    }
  }

  lemma FrontWalk(e: Edges, start: Key, m: nat, n: Node, near: seq<Node>, far: seq<Node>, traversed: set<Key>,
                  r: set<Key>)
    requires Levelled(e, start, m, [n] + near, far, traversed, r)
    ensures Walk(e, start, n.pk, m)
  {
    assert n in [n] + near;
  }

  /** The search goes from near to far: whatever entries end it, it has found every node that
      is no further from the start than the nearest node with an entry or without a record. */
  lemma NearestFirst(g: View, d: Dir, p: Key, n: Node, k: nat)
    requires WellFormedView(g) && Stored(g, n) && OpensWithin(g, d, p, n.pk, k)
    ensures forall x, j: nat :: 1 <= j <= k && Walk(Rel(g, d, p), n.pk, x, j) ==> x in SearchFrom(g, d, p, n).0
  {
    LevelStarts(Rel(g, d, p), n);
    assert [n] + [] == [n];
    LevelsFound(g, d, p, n.pk, k, 0, [n], [], {}, {});
  }
}
