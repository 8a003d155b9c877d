/** The property-path evaluator (db/traversal.go): an outer work list per path
    segment, an inner work list per visited entity, and shortcuts through the
    closure index that end the inner search early. */
module Traversal {
  import opened Keys
  import opened Uris
  import opened Closure
  import opened Graphs
  import opened Keymaps

  /** The doubly linked list of entities still to be searched. */
  class WorkList {
    var items: seq<Node>

    constructor (first: Node)
      ensures items == [first]
    {
      items := [first];
    }

    constructor Empty()
      ensures items == []
    {
      items := [];
    }

    method PushBack(n: Node)
      modifies this
      ensures items == old(items) + [n]
    {
      items := items + [n];
    }

    method RemoveFront() returns (n: Node)
      requires items != []
      modifies this
      ensures [n] + items == old(items)
    {
      n, items := items[0], items[1..];
    }
  }

  ghost predicate Stored(g: View, n: Node) {
    n.pk in g.nodes && g.nodes[n.pk] == n
  }

  ghost predicate AllStored(g: View, ns: seq<Node>) {
    forall n :: n in ns ==> Stored(g, n)
  }

  /** The entities at the ends of edges, in order. */
  function NextNodes(g: View, edges: seq<Key>): seq<Node>
    requires forall x :: x in edges ==> x in g.nodes
  {
    seq(|edges|, i requires 0 <= i < |edges| => g.nodes[edges[i]])
  }

  /** How visiting one entity ends: keep searching, return from the search with
      or without an error. */
  datatype Outcome = Continue | Done | Fail

  /** What visiting entity `n` adds to the results, and how it ends. */
  ghost predicate Visited(g: View, d: Dir, p: Key, pattern: Pattern, n: Node,
                          before: set<Key>, after: set<Key>, outcome: Outcome)
  {
    var edges := EdgeList(n, d, p);
    match pattern
    case Unset => after == before && outcome == Continue
    case Single => after == before + (set x | x in edges) && outcome == Continue
    case ZeroOne => after == before + {n.pk} + (set x | x in edges) && outcome == Continue
    case _ =>
      var self := if pattern == ZeroPlus then {n.pk} else {};
      if n.pk !in g.index then
        if g.strict then after == before + self && outcome == Fail
        else after == before + self + (set x | x in edges) && outcome == Continue
      else if p in PlusLists(g.index[n.pk], d) then
        after == before + self + (set x | x in PlusLists(g.index[n.pk], d)[p]) && outcome == Done
      else
        after == before + self + (set x | x in edges) && outcome == Continue
  }

  /** The inner loop over the edges of an entity whose closure is not indexed:
      every neighbour is a result and is searched next; the outer list gets the
      neighbours that are new, or for `+` all of them. */
  method Expand(g: View, edges: seq<Key>, results: Keymap, searchstack: WorkList, pattern: Pattern)
    returns (next: seq<Node>, ghost pushed: seq<Node>)
    requires WellFormedView(g) && Transitive(pattern)
    requires forall x :: x in edges ==> x in g.nodes
    modifies results, searchstack
    ensures results.m == old(results.m) + set x | x in edges
    ensures Neighbours(g, edges, next) && next == NextNodes(g, edges)
    ensures searchstack.items == old(searchstack.items) + pushed
    ensures forall n :: n in pushed ==> n in next
    ensures forall n :: n in next ==> (pattern == ZeroPlus && n.pk in old(results.m)) || n in pushed
  {
    next, pushed := [], [];
    for i := 0 to |edges|
      invariant results.m == old(results.m) + set x | x in edges[..i]
      invariant next == seq(i, j requires 0 <= j < i => g.nodes[edges[j]])
      invariant searchstack.items == old(searchstack.items) + pushed
      invariant forall n :: n in pushed ==> n in next
      invariant forall n :: n in next ==> (pattern == ZeroPlus && n.pk in old(results.m)) || n in pushed
    {
      var nextEntity := g.nodes[edges[i]];
      if pattern == OnePlus || nextEntity.pk !in results.m {
        searchstack.PushBack(nextEntity);
        pushed := pushed + [nextEntity];
      } else if nextEntity.pk !in old(results.m) {
        var j :| 0 <= j < i && edges[..i][j] == edges[i];
        assert next[j] == nextEntity;
      }
      results.Add(edges[i]);
      assert edges[..i + 1] == edges[..i] + [edges[i]];
      next := next + [nextEntity];
    }
    assert edges[..|edges|] == edges;
    NeighboursOf(g, edges, next);
  }

  /** The switch inside the inner search loop: visit one entity. */
  method Visit(g: View, d: Dir, p: Key, pattern: Pattern, n: Node, results: Keymap, searchstack: WorkList)
    returns (next: seq<Node>, outcome: Outcome, ghost pushed: seq<Node>)
    requires WellFormedView(g) && Stored(g, n)
    modifies results, searchstack
    ensures Visited(g, d, p, pattern, n, old(results.m), results.m, outcome)
    ensures searchstack.items == old(searchstack.items) + pushed
    ensures outcome != Continue || !Transitive(pattern) ==> next == pushed == []
    ensures outcome == Continue && Transitive(pattern) ==>
              && (forall x :: x in EdgeList(n, d, p) ==> x in g.nodes)
              && Neighbours(g, EdgeList(n, d, p), next) && next == NextNodes(g, EdgeList(n, d, p))
              && (forall x :: x in pushed ==> x in next)
              && (forall x :: x in next ==>
                    (pattern == ZeroPlus && (x.pk == n.pk || x.pk in old(results.m))) || x in pushed)
  {
    next, outcome, pushed := [], Continue, [];
    assert forall x :: x in EdgeList(g.nodes[n.pk], d, p) ==> x in g.nodes;
    if pattern == Single {
      results.AddAll(EdgeList(n, d, p));
    } else if pattern == ZeroOne {
      results.Add(n.pk);
      results.AddAll(EdgeList(n, d, p));
    } else if Transitive(pattern) {
      if pattern == ZeroPlus {
        results.Add(n.pk);
      }
      if n.pk in g.index {
        var lists := PlusLists(g.index[n.pk], d);
        if p in lists {
          results.AddAll(lists[p]);
          outcome := Done;
          return;
        }
      } else if g.strict {
        outcome := Fail;
        return;
      }
      next, pushed := Expand(g, EdgeList(n, d, p), results, searchstack, pattern);
    }
  }

  // ---- the inner search ----

  ghost predicate Lists(ns: seq<Node>, x: Key) {
    exists n :: n in ns && n.pk == x
  }

  /** Every direct successor of `x` is a result. */
  ghost predicate Expanded(e: Edges, x: Key, r: set<Key>) {
    forall y :: (x, y) in e ==> y in r
  }

  /** Everything reachable from `x` is a result. */
  ghost predicate Saturated(e: Edges, x: Key, r: set<Key>) {
    forall y :: Plus(e, x, y) ==> y in r
  }

  /** What a search has found is reachable, whether or not it ran to its end. */
  ghost predicate FoundSound(e: Edges, pattern: Pattern, start: Key,
                             r0: set<Key>, r: set<Key>, added: seq<Node>)
  {
    && r0 <= r
    && (forall x :: x in r - r0 ==> Segment(e, pattern, start, x))
    && (forall n :: n in added ==> Plus(e, start, n.pk))
  }

  /** What one inner search for `+` or `*` guarantees on its own. It may have missed
      reachable nodes, but then the nodes it did not finish are on the outer list. */
  ghost predicate LocallyComplete(e: Edges, pattern: Pattern, start: Key,
                                  r0: set<Key>, r: set<Key>, added: seq<Node>)
  {
    && (pattern == ZeroPlus ==> start in r)
    && (Saturated(e, start, r) || Expanded(e, start, r))
    && (forall x :: x in r - r0 ==> x == start || Lists(added, x) || Saturated(e, x, r))
  }

  /** Everything waiting or traversed is reachable from the start. */
  ghost predicate StackInv(g: View, e: Edges, start: Node, r: set<Key>, added: seq<Node>, stack: seq<Node>,
                           traversed: set<Key>)
  {
    && AllStored(g, stack) && AllStored(g, added) && traversed <= g.nodes.Keys
    && (forall n :: n in stack ==> Star(e, start.pk, n.pk) && (n == start || n.pk in r))
    && (forall n :: n in added ==> Plus(e, start.pk, n.pk))
    && (forall x :: x in traversed ==> Star(e, start.pk, x))
  }

  /** Traversed nodes have their edges in the results, and lead on to nodes that are
      traversed or waiting. */
  ghost predicate FrontierInv(e: Edges, pattern: Pattern, r: set<Key>, stack: seq<Node>, traversed: set<Key>) {
    && (forall x :: x in traversed ==> Expanded(e, x, r) && (pattern == ZeroPlus ==> x in r))
    && (forall x, y :: x in traversed && (x, y) in e ==> y in traversed || Lists(stack, y))
  }

  /** Every new result is sound, and is the start or on the outer list. */
  ghost predicate ResultsInv(e: Edges, pattern: Pattern, start: Key, r0: set<Key>, r: set<Key>, added: seq<Node>) {
    && r0 <= r
    && (forall x :: x in r - r0 ==> Segment(e, pattern, start, x) && (x == start || Lists(added, x)))
  }

  /** The invariant of the inner search while no index entry has been met. */
  ghost predicate SearchInv(g: View, d: Dir, p: Key, pattern: Pattern, start: Node, r0: set<Key>, r: set<Key>,
                            added: seq<Node>, stack: seq<Node>, traversed: set<Key>)
  {
    && ((stack == [start] && traversed == {} && r == r0 && added == []) || start.pk in traversed)
    && StackInv(g, Rel(g, d, p), start, r, added, stack, traversed)
    && FrontierInv(Rel(g, d, p), pattern, r, stack, traversed)
    && ResultsInv(Rel(g, d, p), pattern, start.pk, r0, r, added)
  }

  /** The entities queued after a visit: exactly the neighbours. */
  ghost predicate Neighbours(g: View, edges: seq<Key>, next: seq<Node>) {
    && |next| == |edges|
    && (forall n :: n in next ==> Stored(g, n) && n.pk in edges)
    && (forall y :: y in edges ==> y in g.nodes && g.nodes[y].pk == y && g.nodes[y] in next)
  }

  lemma NeighboursOf(g: View, edges: seq<Key>, next: seq<Node>)
    requires WellFormedView(g) && forall x :: x in edges ==> x in g.nodes
    requires next == seq(|edges|, i requires 0 <= i < |edges| => g.nodes[edges[i]])
    ensures Neighbours(g, edges, next)
  {
    forall y | y in edges
      ensures g.nodes[y].pk == y && g.nodes[y] in next
    {
      var i :| 0 <= i < |edges| && edges[i] == y;
      assert next[i] == g.nodes[y];
    }
  }

  lemma StepKeepsStack(g: View, d: Dir, p: Key, start: Node, r: set<Key>, added: seq<Node>, n: Node,
                       rest: seq<Node>, traversed: set<Key>, r': set<Key>, pushed: seq<Node>, next: seq<Node>)
    requires Stored(g, n) && StackInv(g, Rel(g, d, p), start, r, added, [n] + rest, traversed)
    requires Neighbours(g, EdgeList(n, d, p), next) && forall x :: x in pushed ==> x in next
    requires r <= r' && forall x :: x in EdgeList(n, d, p) ==> x in r'
    ensures StackInv(g, Rel(g, d, p), start, r', added + pushed, rest + next, traversed + {n.pk})
  {
    var e := Rel(g, d, p);
    assert n in [n] + rest;
    forall x | x in next
      ensures Plus(e, start.pk, x.pk)
    {
      StarThenEdge(e, start.pk, n.pk, x.pk);
    }
    forall m | m in rest
      ensures m in [n] + rest
    {
    }
  }

  lemma StepKeepsFrontier(g: View, d: Dir, p: Key, pattern: Pattern, n: Node, r: set<Key>, rest: seq<Node>,
                          traversed: set<Key>, r': set<Key>, next: seq<Node>)
    requires Stored(g, n) && FrontierInv(Rel(g, d, p), pattern, r, [n] + rest, traversed)
    requires Neighbours(g, EdgeList(n, d, p), next) && (pattern == ZeroPlus ==> n.pk in r')
    requires r <= r' && forall x :: x in EdgeList(n, d, p) ==> x in r'
    ensures FrontierInv(Rel(g, d, p), pattern, r', rest + next, traversed + {n.pk})
  {
    var e := Rel(g, d, p);
    forall x, y | x in traversed + {n.pk} && (x, y) in e
      ensures y in traversed + {n.pk} || Lists(rest + next, y)
    {
      if x in traversed && y !in traversed + {n.pk} {
        var m :| m in [n] + rest && m.pk == y;
        assert m in rest + next;
      } else if x !in traversed {
        assert g.nodes[y] in rest + next;
      }
    }
  }

  lemma StepKeepsResults(g: View, e: Edges, pattern: Pattern, start: Key, r0: set<Key>, r: set<Key>, added: seq<Node>,
                         n: Node, edges: seq<Key>, r': set<Key>, pushed: seq<Node>, next: seq<Node>)
    requires Transitive(pattern) && ResultsInv(e, pattern, start, r0, r, added)
    requires Neighbours(g, edges, next) && (n.pk == start || n.pk in r) && Stored(g, n)
    requires forall x :: x in next ==> (pattern == ZeroPlus && (x.pk == n.pk || x.pk in r)) || x in pushed
    requires r' == r + (if pattern == ZeroPlus then {n.pk} else {}) + set x | x in edges
    requires forall x :: x in edges ==> Plus(e, start, x)
    ensures ResultsInv(e, pattern, start, r0, r', added + pushed)
  {
    forall x | x in r' - r0
      ensures Segment(e, pattern, start, x) && (x == start || Lists(added + pushed, x))
    {
      if x in r {
        assert x in r - r0;
        if x != start {
          var m :| m in added && m.pk == x;
          assert m in added + pushed;
        }
      } else if x in edges && x != n.pk {
        assert g.nodes[x] in added + pushed;
      } else if x in edges && pattern == OnePlus {
        assert g.nodes[x] in added + pushed;
      }
    }
  }

  /** Visiting an unindexed entity keeps the invariant. */
  lemma StepKeepsInv(g: View, d: Dir, p: Key, pattern: Pattern, start: Node, r0: set<Key>, r: set<Key>,
                     added: seq<Node>, n: Node, rest: seq<Node>, traversed: set<Key>, r': set<Key>, pushed: seq<Node>,
                     next: seq<Node>)
    requires Transitive(pattern) && Stored(g, n)
    requires SearchInv(g, d, p, pattern, start, r0, r, added, [n] + rest, traversed)
    requires Visited(g, d, p, pattern, n, r, r', Continue)
    requires Neighbours(g, EdgeList(n, d, p), next) && forall x :: x in pushed ==> x in next
    requires forall x :: x in next ==> (pattern == ZeroPlus && (x.pk == n.pk || x.pk in r)) || x in pushed
    ensures SearchInv(g, d, p, pattern, start, r0, r', added + pushed, rest + next, traversed + {n.pk})
  {
    var e, edges := Rel(g, d, p), EdgeList(n, d, p);
    assert n in [n] + rest;
    StepKeepsStack(g, d, p, start, r, added, n, rest, traversed, r', pushed, next);
    StepKeepsFrontier(g, d, p, pattern, n, r, rest, traversed, r', next);
    forall x | x in edges
      ensures Plus(e, start.pk, x)
    {
      StarThenEdge(e, start.pk, n.pk, x);
    }
    StepKeepsResults(g, e, pattern, start.pk, r0, r, added, n, edges, r', pushed, next);
  }

  /** Running out of entities means everything reachable was found. */
  lemma ExhaustedIsComplete(g: View, d: Dir, p: Key, pattern: Pattern, start: Node, r0: set<Key>, r: set<Key>,
                            added: seq<Node>, traversed: set<Key>)
    requires Transitive(pattern) && SearchInv(g, d, p, pattern, start, r0, r, added, [], traversed)
    ensures SearchPost(g, d, p, pattern, start.pk, r0, r, added, true)
  {
    var e := Rel(g, d, p);
    forall f | e <= f
      ensures FoundSound(f, pattern, start.pk, r0, r, added)
    {
      InvIsSound(e, f, pattern, start.pk, r0, r, added);
    }
    ClosedContainsPlus(e, traversed, start.pk);
    forall y | Plus(e, start.pk, y)
      ensures y in r
    {
      PlusHasLastEdge(e, start.pk, y);
      var m :| Star(e, start.pk, m) && (m, y) in e;
      assert m in traversed;
    }
  }

  /** Meeting an exact index entry leaves a locally complete result, and a complete
      one if nothing else was waiting. */
  lemma HitIsComplete(g: View, d: Dir, p: Key, pattern: Pattern, start: Node, r0: set<Key>, r: set<Key>,
                      added: seq<Node>, n: Node, rest: seq<Node>, traversed: set<Key>, r': set<Key>)
    requires SearchInv(g, d, p, pattern, start, r0, r, added, [n] + rest, traversed)
    requires Transitive(pattern) && n.pk !in traversed && Visited(g, d, p, pattern, n, r, r', Done)
    requires IndexExact(g, d, p)
    ensures LocallyComplete(Rel(g, d, p), pattern, start.pk, r0, r', added)
  {
    var e := Rel(g, d, p);
    assert n in [n] + rest;
    assert Saturated(e, n.pk, r');
    forall x | x in r' - r0
      ensures x == start.pk || Lists(added, x) || Saturated(e, x, r')
    {
      if x !in r && x != n.pk {
        forall y | Plus(e, x, y)
          ensures y in r'
        {
          PlusTransitive(e, n.pk, x, y);
        }
      }
    }
    if start.pk in traversed {
      assert Expanded(e, start.pk, r');
    } else {
      assert n == start;
    }
  }

  /** What an inner search for `+` or `*` promises: keys reachable over any edges that
      contain the stored ones and account for the index entries; no failure when every node
      it may meet has an index record, or when absent records are tolerated; the neighbours
      of a start whose record has no entry; and, if it did not fail, local completeness. */
  ghost predicate SearchPost(g: View, d: Dir, p: Key, pattern: Pattern, start: Key,
                             r0: set<Key>, r: set<Key>, added: seq<Node>, ok: bool)
  {
    var e := Rel(g, d, p);
    && r0 <= r && AllStored(g, added)
    && (!g.strict || (forall x :: Star(e, start, x) ==> x in g.index) ==> ok)
    && (forall f :: Rel(g, d, p) <= f && IndexSoundFor(g, d, p, f) ==> FoundSound(f, pattern, start, r0, r, added))
    && (start in g.index && p !in PlusLists(g.index[start], d) ==> Expanded(e, start, r))
    && (ok && IndexExact(g, d, p) ==> LocallyComplete(e, pattern, start, r0, r, added))
  }

  /** What the inner search finds, and whether it ends without an error, from a given work
      list on. Nothing in it is left to chance: it depends only on the graph, the index and
      the order of the edge lists. */
  ghost function Searched(g: View, d: Dir, p: Key, pattern: Pattern, stack: seq<Node>, traversed: set<Key>, r: set<Key>)
    : (set<Key>, bool)
    requires WellFormedView(g) && AllStored(g, stack)
    decreases g.nodes.Keys - traversed, |stack|
  {
    if stack == [] then (r, true)
    else
      var n, rest := stack[0], stack[1..];
      var self := if pattern == ZeroPlus then {n.pk} else {};
      assert Stored(g, n) && AllStored(g, rest);
      if n.pk in traversed then Searched(g, d, p, pattern, rest, traversed, r)
      else if n.pk !in g.index && g.strict then (r + self, false)
      else if n.pk in g.index && p in PlusLists(g.index[n.pk], d) then
        (r + self + (set x | x in PlusLists(g.index[n.pk], d)[p]), true)
      else
        var edges := EdgeList(n, d, p);
        assert n == g.nodes[n.pk];
        Searched(g, d, p, pattern, rest + NextNodes(g, edges), traversed + {n.pk}, r + self + (set x | x in edges))
  }

  /** One turn of the inner loop: skip the front entity or visit it. */
  method Turn(g: View, d: Dir, p: Key, pattern: Pattern, ghost start: Node, ghost r0: set<Key>, stack: seq<Node>,
              traversed: set<Key>, ghost added: seq<Node>, results: Keymap, searchstack: WorkList)
    returns (stack': seq<Node>, traversed': set<Key>, outcome: Outcome, ghost pushed: seq<Node>)
    requires WellFormedView(g) && Transitive(pattern) && stack != []
    requires SearchInv(g, d, p, pattern, start, r0, results.m, added, stack, traversed)
    modifies results, searchstack
    ensures searchstack.items == old(searchstack.items) + pushed
    ensures Searched(g, d, p, pattern, stack, traversed, old(results.m)) ==
              if outcome == Continue && AllStored(g, stack') then
                Searched(g, d, p, pattern, stack', traversed', results.m)
              else (results.m, outcome == Done)
    ensures outcome == Continue ==>
              && SearchInv(g, d, p, pattern, start, r0, results.m, added + pushed, stack', traversed')
              && (traversed < traversed' || (traversed == traversed' && |stack'| < |stack|))
    ensures outcome != Continue ==>
              SearchPost(g, d, p, pattern, start.pk, r0, results.m, added + pushed, outcome == Done)
  {
    var entity, rest := stack[0], stack[1..];
    assert stack == [entity] + rest && entity in stack;
    if entity.pk in traversed {
      SkipKeepsInv(g, d, p, pattern, start, r0, results.m, added, entity, rest, traversed);
      stack', traversed', outcome, pushed := rest, traversed, Continue, [];
      assert added + pushed == added;
      return;
    }
    ghost var r := results.m;
    var next;
    next, outcome, pushed := Visit(g, d, p, pattern, entity, results, searchstack);
    stack', traversed' := rest + next, traversed + {entity.pk};
    if outcome == Continue {
      StepKeepsInv(g, d, p, pattern, start, r0, r, added, entity, rest, traversed, results.m, pushed, next);
    } else {
      assert added + pushed == added;
      StopIsCorrect(g, d, p, pattern, start, r0, r, added, entity, rest, traversed, results.m, outcome);
    }
  }

  /** The inner search for `+` and `*`. */
  method Search(g: View, d: Dir, p: Key, pattern: Pattern, start: Node, results: Keymap, searchstack: WorkList)
    returns (ok: bool, ghost added: seq<Node>)
    requires WellFormedView(g) && Stored(g, start) && Transitive(pattern)
    modifies results, searchstack
    ensures searchstack.items == old(searchstack.items) + added
    ensures SearchPost(g, d, p, pattern, start.pk, old(results.m), results.m, added, ok)
    ensures (results.m, ok) == Searched(g, d, p, pattern, [start], {}, old(results.m))
  {
    hide Searched, SearchPost, LocallyComplete, FoundSound;
    added := [];
    var stack, traversed, outcome := [start], {}, Continue;
    while stack != []
      invariant searchstack.items == old(searchstack.items) + added
      invariant SearchInv(g, d, p, pattern, start, old(results.m), results.m, added, stack, traversed)
      invariant Searched(g, d, p, pattern, stack, traversed, results.m) ==
                Searched(g, d, p, pattern, [start], {}, old(results.m))
      decreases g.nodes.Keys - traversed, |stack|
    {
      ghost var pushed;
      stack, traversed, outcome, pushed :=
        Turn(g, d, p, pattern, start, old(results.m), stack, traversed, added, results, searchstack);
      added := added + pushed;
      if outcome != Continue {
        return outcome == Done, added;
      }
      assert traversed <= g.nodes.Keys;
    }
    ExhaustedIsComplete(g, d, p, pattern, start, old(results.m), results.m, added, traversed);
    NothingWaiting(g, d, p, pattern, traversed, results.m);
    ok := true;
  }

  lemma NothingWaiting(g: View, d: Dir, p: Key, pattern: Pattern, traversed: set<Key>, r: set<Key>)
    requires WellFormedView(g)
    ensures Searched(g, d, p, pattern, [], traversed, r) == (r, true)
  {
  }

  /** `followPathFromSubject` (`d == Out`) and `followPathFromObject` (`d == In`),
      which differ only in the edges they read. Returns false where the source
      returns an error, which the callers ignore. */
  method FollowPath(g: View, d: Dir, start: Node, results: Keymap, searchstack: WorkList, seg: PathPattern)
    returns (ok: bool, ghost added: seq<Node>)
    requires WellFormedView(g) && Stored(g, start)
    modifies results, searchstack
    ensures searchstack.items == old(searchstack.items) + added
    ensures GetHash(g, seg.pred).None? ==> !ok && results.m == old(results.m) && added == []
    ensures GetHash(g, seg.pred).Some? && !Transitive(seg.pattern) ==>
              && ok && added == []
              && forall x :: x in results.m <==>
                   x in old(results.m) || Segment(EdgesOf(g, d, seg.pred), seg.pattern, start.pk, x)
    ensures GetHash(g, seg.pred).Some? && Transitive(seg.pattern) ==>
              && SearchPost(g, d, GetHash(g, seg.pred).value, seg.pattern, start.pk, old(results.m), results.m, added,
                            ok)
              && (results.m, ok) ==
                 Searched(g, d, GetHash(g, seg.pred).value, seg.pattern, [start], {}, old(results.m))
  {
    var hash := GetHash(g, seg.pred);
    added := [];
    if hash.None? {
      ok := false;
    } else if Transitive(seg.pattern) {
      ok, added := Search(g, d, hash.value, seg.pattern, start, results, searchstack);
    } else {
      var next, outcome, pushed := Visit(g, d, hash.value, seg.pattern, start, results, searchstack);
      ok := true;
    }
  }

  lemma SkipKeepsInv(g: View, d: Dir, p: Key, pattern: Pattern, start: Node, r0: set<Key>, r: set<Key>,
                     added: seq<Node>, n: Node, rest: seq<Node>, traversed: set<Key>)
    requires SearchInv(g, d, p, pattern, start, r0, r, added, [n] + rest, traversed) && n.pk in traversed
    ensures SearchInv(g, d, p, pattern, start, r0, r, added, rest, traversed)
  {
    forall m | m in rest
      ensures m in [n] + rest
    {
    }
    forall x, y | x in traversed && (x, y) in Rel(g, d, p) && y !in traversed
      ensures Lists(rest, y)
    {
      var m :| m in [n] + rest && m.pk == y;
      assert m in rest;
    }
  }

  /** Keys taken from a sound index entry are reachable from the start. */
  lemma HitIsSound(g: View, d: Dir, p: Key, pattern: Pattern, start: Node, r0: set<Key>, r: set<Key>, added: seq<Node>,
                   n: Node, rest: seq<Node>, traversed: set<Key>, r': set<Key>)
    requires SearchInv(g, d, p, pattern, start, r0, r, added, [n] + rest, traversed) && Transitive(pattern)
    requires Visited(g, d, p, pattern, n, r, r', Done)
    ensures forall f :: Rel(g, d, p) <= f && IndexSoundFor(g, d, p, f) ==>
              FoundSound(f, pattern, start.pk, r0, r', added)
  {
    var e := Rel(g, d, p);
    assert n in [n] + rest;
    forall f | e <= f && IndexSoundFor(g, d, p, f)
      ensures FoundSound(f, pattern, start.pk, r0, r', added)
    {
      InvIsSound(e, f, pattern, start.pk, r0, r, added);
      StarMonotone(e, f, start.pk, n.pk);
      forall x | x in r' && x !in r
        ensures Segment(f, pattern, start.pk, x)
      {
        if x != n.pk || pattern == OnePlus {
          StarThenPlus(f, start.pk, n.pk, x);
        }
      }
    }
  }

  lemma StarMonotone(e: Edges, f: Edges, s: Key, o: Key)
    requires e <= f && Star(e, s, o)
    ensures Star(f, s, o)
  {
    if s != o {
      PlusMonotone(e, f, s, o);
    }
  }

  /** The results and the queued entities of a search are reachable over more edges, too. */
  lemma InvIsSound(e: Edges, f: Edges, pattern: Pattern, start: Key, r0: set<Key>, r: set<Key>, added: seq<Node>)
    requires e <= f && Transitive(pattern) && ResultsInv(e, pattern, start, r0, r, added)
    requires forall n :: n in added ==> Plus(e, start, n.pk)
    ensures FoundSound(f, pattern, start, r0, r, added)
  {
    forall x | x in r - r0
      ensures Segment(f, pattern, start, x)
    {
      if pattern == OnePlus {
        PlusMonotone(e, f, start, x);
      } else {
        StarMonotone(e, f, start, x);
      }
    }
    forall n | n in added
      ensures Plus(f, start, n.pk)
    {
      PlusMonotone(e, f, start, n.pk);
    }
  }

  /** Nor does an aborted search leave anything unreachable behind. */
  lemma FailIsSound(g: View, d: Dir, p: Key, pattern: Pattern, start: Node, r0: set<Key>, r: set<Key>, added: seq<Node>,
                    n: Node, rest: seq<Node>, traversed: set<Key>, r': set<Key>)
    requires SearchInv(g, d, p, pattern, start, r0, r, added, [n] + rest, traversed) && Transitive(pattern)
    requires Visited(g, d, p, pattern, n, r, r', Fail)
    ensures r0 <= r' && AllStored(g, added)
    ensures forall f :: Rel(g, d, p) <= f ==> FoundSound(f, pattern, start.pk, r0, r', added)
    ensures g.strict && n.pk !in g.index && Star(Rel(g, d, p), start.pk, n.pk)
  {
    assert n in [n] + rest;
    forall f | Rel(g, d, p) <= f
      ensures FoundSound(f, pattern, start.pk, r0, r', added)
    {
      InvIsSound(Rel(g, d, p), f, pattern, start.pk, r0, r, added);
    }
  }

  /** A start whose record has no entry has been expanded by then. */
  lemma StoppedAfterStart(g: View, d: Dir, p: Key, pattern: Pattern, start: Node, r0: set<Key>, r: set<Key>,
                          added: seq<Node>, n: Node, rest: seq<Node>, traversed: set<Key>, r': set<Key>,
                          outcome: Outcome)
    requires SearchInv(g, d, p, pattern, start, r0, r, added, [n] + rest, traversed) && Transitive(pattern)
    requires Visited(g, d, p, pattern, n, r, r', outcome) && outcome != Continue
    requires start.pk in g.index && p !in PlusLists(g.index[start.pk], d)
    ensures Expanded(Rel(g, d, p), start.pk, r')
  {
    hide StackInv, ResultsInv, Rel;
    assert ([n] + rest)[0] == n;
    assert r <= r';
    assert start.pk in traversed;
  }

  /** Both ways of leaving the search before the work list is empty are correct. */
  lemma StopIsCorrect(g: View, d: Dir, p: Key, pattern: Pattern, start: Node, r0: set<Key>, r: set<Key>,
                      added: seq<Node>, n: Node, rest: seq<Node>, traversed: set<Key>, r': set<Key>, outcome: Outcome)
    requires SearchInv(g, d, p, pattern, start, r0, r, added, [n] + rest, traversed) && Transitive(pattern)
    requires n.pk !in traversed && Visited(g, d, p, pattern, n, r, r', outcome) && outcome != Continue
    ensures SearchPost(g, d, p, pattern, start.pk, r0, r', added, outcome == Done)
  {
    if start.pk in g.index && p !in PlusLists(g.index[start.pk], d) {
      StoppedAfterStart(g, d, p, pattern, start, r0, r, added, n, rest, traversed, r', outcome);
    }
    hide Expanded;
    if outcome == Done {
      HitIsSound(g, d, p, pattern, start, r0, r, added, n, rest, traversed, r');
      if IndexExact(g, d, p) {
        HitIsComplete(g, d, p, pattern, start, r0, r, added, n, rest, traversed, r');
      }
    } else {
      FailIsSound(g, d, p, pattern, start, r0, r, added, n, rest, traversed, r');
    }
  }

  // ---- the outer search ----

  ghost function Pks(ns: seq<Node>): set<Key> {
    set n | n in ns :: n.pk
  }

  /** What a segment relates the set of start nodes to. */
  ghost predicate From(e: Edges, pattern: Pattern, starts: set<Key>, o: Key) {
    exists s :: s in starts && Segment(e, pattern, s, o)
  }

  /** Waiting and traversed entities were reached from a start, and so were the results. */
  ghost predicate OuterSound(e: Edges, pattern: Pattern, starts: set<Key>, r: set<Key>, stack: seq<Node>,
                             traversed: set<Key>)
  {
    && (forall x :: x in Pks(stack) + traversed ==>
          x in starts || (Transitive(pattern) && exists s :: s in starts && Plus(e, s, x)))
    && (forall x :: x in r ==> From(e, pattern, starts, x))
  }

  /** No start is forgotten, and every result whose closure is not complete yet is
      traversed or waiting: the early returns of the inner search lose nothing. */
  ghost predicate OuterComplete(e: Edges, pattern: Pattern, starts: set<Key>, r: set<Key>, stack: seq<Node>,
                                traversed: set<Key>)
  {
    && starts <= Pks(stack) + traversed
    && (if Transitive(pattern) then
          && (forall x :: x in traversed ==>
                (pattern == ZeroPlus ==> x in r) && (Saturated(e, x, r) || Expanded(e, x, r)))
          && (forall x :: x in r ==> x in Pks(stack) + traversed || Saturated(e, x, r))
        else
          forall x, y :: x in traversed && Segment(e, pattern, x, y) ==> y in r)
  }

  lemma OuterStepSound(e: Edges, pattern: Pattern, starts: set<Key>, r: set<Key>, n: Node, rest: seq<Node>,
                       traversed: set<Key>, r': set<Key>, added: seq<Node>)
    requires OuterSound(e, pattern, starts, r, [n] + rest, traversed)
    requires if Transitive(pattern) then FoundSound(e, pattern, n.pk, r, r', added)
             else added == [] && forall x :: x in r' <==> x in r || Segment(e, pattern, n.pk, x)
    ensures OuterSound(e, pattern, starts, r', rest + added, traversed + {n.pk})
  {
    assert n in [n] + rest && n.pk in Pks([n] + rest) + traversed;
    forall x | x in Pks(rest + added) + (traversed + {n.pk})
      ensures x in starts || (Transitive(pattern) && exists s :: s in starts && Plus(e, s, x))
    {
      if m :| m in rest && m.pk == x {
        assert m in [n] + rest && x in Pks([n] + rest) + traversed;
      } else if m :| m in added && m.pk == x {
        ReachOnwards(e, starts, n.pk, x);
      }
    }
    forall x | x in r' && x !in r
      ensures From(e, pattern, starts, x)
    {
      assert Segment(e, pattern, n.pk, x);
      if n.pk !in starts && x != n.pk {
        ReachOnwards(e, starts, n.pk, x);
      }
    }
  }

  lemma ReachOnwards(e: Edges, starts: set<Key>, m: Key, x: Key)
    requires m in starts || exists s :: s in starts && Plus(e, s, m)
    requires Plus(e, m, x)
    ensures exists s :: s in starts && Plus(e, s, x)
  {
    if m !in starts {
      var s :| s in starts && Plus(e, s, m);
      PlusTransitive(e, s, m, x);
    }
  }

  lemma OuterStepComplete(e: Edges, pattern: Pattern, starts: set<Key>, r: set<Key>, n: Node, rest: seq<Node>,
                          traversed: set<Key>, r': set<Key>, added: seq<Node>)
    requires OuterComplete(e, pattern, starts, r, [n] + rest, traversed) && r <= r'
    requires if Transitive(pattern) then LocallyComplete(e, pattern, n.pk, r, r', added)
             else forall x :: Segment(e, pattern, n.pk, x) ==> x in r'
    ensures OuterComplete(e, pattern, starts, r', rest + added, traversed + {n.pk})
  {
    forall x | x in Pks([n] + rest) + traversed
      ensures x in Pks(rest + added) + (traversed + {n.pk})
    {
      if m :| m in [n] + rest && m.pk == x {
        assert m == n || m in rest + added;
      }
    }
    if Transitive(pattern) {
      forall x | x in r'
        ensures x in Pks(rest + added) + (traversed + {n.pk}) || Saturated(e, x, r')
      {
        if x in r {
          assert x in Pks([n] + rest) + traversed || Saturated(e, x, r);
        } else if Lists(added, x) {
          var m :| m in added && m.pk == x;
          assert m in rest + added;
        }
      }
    }
  }

  lemma OuterSkip(e: Edges, pattern: Pattern, starts: set<Key>, r: set<Key>, n: Node, rest: seq<Node>,
                  traversed: set<Key>)
    requires n.pk in traversed
    ensures OuterSound(e, pattern, starts, r, [n] + rest, traversed) ==>
              OuterSound(e, pattern, starts, r, rest, traversed)
    ensures OuterComplete(e, pattern, starts, r, [n] + rest, traversed) ==>
              OuterComplete(e, pattern, starts, r, rest, traversed)
  {
    assert Pks([n] + rest) == {n.pk} + Pks(rest) by {
      forall m
        ensures m in [n] + rest <==> m == n || m in rest
      {
      }
    }
    assert Pks([n] + rest) + traversed == Pks(rest) + traversed;
  }

  /** With the outer list empty, the results are exactly the segment's image. */
  lemma OuterDone(e: Edges, pattern: Pattern, starts: set<Key>, r: set<Key>, traversed: set<Key>)
    requires OuterComplete(e, pattern, starts, r, [], traversed)
    ensures forall o :: From(e, pattern, starts, o) ==> o in r
  {
    assert Pks([]) == {};
    forall o | From(e, pattern, starts, o)
      ensures o in r
    {
      var s :| s in starts && Segment(e, pattern, s, o);
      if Transitive(pattern) {
        forall x, y | x in r && (x, y) in e
          ensures y in r
        {
          PlusEdge(e, x, y);
        }
        forall y | (s, y) in e
          ensures y in r
        {
          PlusEdge(e, s, y);
        }
        ClosedContainsPlus(e, r, s);
      }
    }
  }

  /** What following one segment from a set of entities finds: nothing for an unknown
      predicate or a zero-valued segment; reachable keys only, if the index entries are sound; all of them, if
      the index entries are exact. */
  ghost predicate SegmentFound(g: View, d: Dir, seg: PathPattern, starts: set<Key>, r: set<Key>) {
    var e := EdgesOf(g, d, seg.pred);
    && (GetHash(g, seg.pred).None? || seg.pattern == Unset || starts == {} ==> r == {})
    && (GetHash(g, seg.pred).Some? && SegmentIndexSound(g, d, seg) ==>
          forall o :: o in r ==> From(e, seg.pattern, starts, o))
    && (GetHash(g, seg.pred).Some? && SegmentIndexExact(g, d, seg) ==>
          forall o :: From(e, seg.pattern, starts, o) ==> o in r)
  }

  /** The outer loop for one path segment, run until the list of entities is empty. */
  method FollowSegment(g: View, d: Dir, stack: WorkList, seg: PathPattern) returns (reachable: Keymap)
    requires WellFormedView(g) && !g.strict && AllStored(g, stack.items)
    modifies stack
    ensures fresh(reachable) && stack.items == []
    ensures SegmentFound(g, d, seg, old(Pks(stack.items)), reachable.m)
  {
    reachable := new Keymap();
    var traversed: set<Key> := {};
    ghost var e := EdgesOf(g, d, seg.pred);
    ghost var starts := Pks(stack.items);
    if stack.items != [] {
      assert stack.items[0].pk in starts;
    }
    ghost var sound := GetHash(g, seg.pred).Some? && SegmentIndexSound(g, d, seg);
    ghost var exact := GetHash(g, seg.pred).Some? && SegmentIndexExact(g, d, seg);
    while stack.items != []
      invariant AllStored(g, stack.items) && traversed <= g.nodes.Keys
      invariant starts == {} ==> stack.items == []
      invariant GetHash(g, seg.pred).None? || seg.pattern == Unset || starts == {} ==> reachable.m == {}
      invariant sound ==> OuterSound(e, seg.pattern, starts, reachable.m, stack.items, traversed)
      invariant exact ==> OuterComplete(e, seg.pattern, starts, reachable.m, stack.items, traversed)
      decreases g.nodes.Keys - traversed, |stack.items|
    {
      ghost var before, r := stack.items, reachable.m;
      var entity := stack.RemoveFront();
      ghost var rest := stack.items;
      assert entity in before;
      if entity.pk in traversed {
        OuterSkip(e, seg.pattern, starts, r, entity, rest, traversed);
        continue;
      }
      traversed := traversed + {entity.pk};
      var ok, added := FollowPath(g, d, entity, reachable, stack, seg);
      if sound {
        OuterStepSound(e, seg.pattern, starts, r, entity, rest, traversed - {entity.pk}, reachable.m, added);
      }
      if exact {
        OuterStepComplete(e, seg.pattern, starts, r, entity, rest, traversed - {entity.pk}, reachable.m, added);
      }
      assert traversed - {entity.pk} + {entity.pk} == traversed;
    }
    if exact {
      OuterDone(e, seg.pattern, starts, reachable.m, traversed);
    }
  }

  // ---- whole paths ----

  /** `frontier` is as good a starting point for the rest of the path as `start` is
      for all of it. */
  ghost predicate FrontierExact(g: View, d: Dir, path: seq<PathPattern>, idx: nat, start: Key, frontier: set<Key>)
    requires idx < |path|
  {
    forall o :: PathRel(g, d, path, start, o) <==> exists f :: f in frontier && PathRel(g, d, path[idx..], f, o)
  }

  ghost predicate FrontierSound(g: View, d: Dir, path: seq<PathPattern>, idx: nat, start: Key, frontier: set<Key>)
    requires idx < |path|
  {
    forall f, o :: f in frontier && PathRel(g, d, path[idx..], f, o) ==> PathRel(g, d, path, start, o)
  }

  ghost predicate ImageSound(g: View, d: Dir, seg: PathPattern, frontier: set<Key>, image: set<Key>) {
    forall o :: o in image ==> From(EdgesOf(g, d, seg.pred), seg.pattern, frontier, o)
  }

  ghost predicate ImageExact(g: View, d: Dir, seg: PathPattern, frontier: set<Key>, image: set<Key>) {
    forall o :: o in image <==> From(EdgesOf(g, d, seg.pred), seg.pattern, frontier, o)
  }

  lemma FrontierAdvances(g: View, d: Dir, path: seq<PathPattern>, idx: nat, start: Key, frontier: set<Key>,
                         image: set<Key>)
    requires idx + 1 < |path|
    ensures FrontierSound(g, d, path, idx, start, frontier) && ImageSound(g, d, path[idx], frontier, image)
            ==> FrontierSound(g, d, path, idx + 1, start, image)
    ensures FrontierExact(g, d, path, idx, start, frontier) && ImageExact(g, d, path[idx], frontier, image)
            ==> FrontierExact(g, d, path, idx + 1, start, image)
  {
    var seg, e := path[idx], EdgesOf(g, d, path[idx].pred);
    assert path[idx..][0] == seg && path[idx..][1..] == path[idx + 1..];
    forall f, m, o | f in frontier && Segment(e, seg.pattern, f, m) && PathRel(g, d, path[idx + 1..], m, o)
      ensures PathRel(g, d, path[idx..], f, o)
    {
    }
    if FrontierExact(g, d, path, idx, start, frontier) && ImageExact(g, d, path[idx], frontier, image) {
      forall o
        ensures PathRel(g, d, path, start, o) <==> exists m :: m in image && PathRel(g, d, path[idx + 1..], m, o)
      {
        if PathRel(g, d, path, start, o) {
          var f :| f in frontier && PathRel(g, d, path[idx..], f, o);
          var m :| Segment(e, seg.pattern, f, m) && PathRel(g, d, path[idx + 1..], m, o);
          assert From(e, seg.pattern, frontier, m);
        }
        if m :| m in image && PathRel(g, d, path[idx + 1..], m, o) {
          var f :| f in frontier && Segment(e, seg.pattern, f, m);
          assert PathRel(g, d, path[idx..], f, o);
        }
      }
    }
  }

  lemma FrontierFinishes(g: View, d: Dir, path: seq<PathPattern>, start: Key, frontier: set<Key>, image: set<Key>)
    requires path != []
    ensures FrontierSound(g, d, path, |path| - 1, start, frontier)
            && ImageSound(g, d, path[|path| - 1], frontier, image)
            ==> forall o :: o in image ==> PathRel(g, d, path, start, o)
    ensures FrontierExact(g, d, path, |path| - 1, start, frontier)
            && ImageExact(g, d, path[|path| - 1], frontier, image)
            ==> forall o :: o in image <==> PathRel(g, d, path, start, o)
  {
    var last, e := path[|path| - 1], EdgesOf(g, d, path[|path| - 1].pred);
    assert path[|path| - 1..] == [last];
    forall f, o
      ensures PathRel(g, d, [last], f, o) <==> Segment(e, last.pattern, f, o)
    {
    }
    if FrontierSound(g, d, path, |path| - 1, start, frontier) && ImageSound(g, d, last, frontier, image) {
      forall o | o in image
        ensures PathRel(g, d, path, start, o)
      {
        var f :| f in frontier && Segment(e, last.pattern, f, o);
        assert PathRel(g, d, path[|path| - 1..], f, o);
      }
    }
    if FrontierExact(g, d, path, |path| - 1, start, frontier) && ImageExact(g, d, last, frontier, image) {
      forall o | PathRel(g, d, path, start, o)
        ensures o in image
      {
        var f :| f in frontier && PathRel(g, d, path[|path| - 1..], f, o);
        assert From(e, last.pattern, frontier, o);
      }
    }
  }

  /** Segments lead from stored nodes to stored nodes. */
  lemma SegmentStaysStored(g: View, d: Dir, u: URI, pattern: Pattern, s: Key, o: Key)
    requires WellFormedView(g) && s in g.nodes && Segment(EdgesOf(g, d, u), pattern, s, o)
    ensures o in g.nodes
  {
    ClosedContainsPlus(EdgesOf(g, d, u), g.nodes.Keys, s);
  }

  /** The keys found are put back on the list as entities, in no particular order;
      a key without an entity is logged and skipped. */
  method PushEntities(g: View, reachable: Keymap, stack: WorkList)
    requires WellFormedView(g) && AllStored(g, stack.items)
    modifies stack
    ensures AllStored(g, stack.items)
    ensures Pks(stack.items) == old(Pks(stack.items)) + (reachable.m * g.nodes.Keys)
  {
    var todo := reachable.m;
    while todo != {}
      invariant todo <= reachable.m
      invariant AllStored(g, stack.items)
      invariant Pks(stack.items) == old(Pks(stack.items)) + ((reachable.m - todo) * g.nodes.Keys)
    {
      var key :| key in todo;
      if key in g.nodes {
        ghost var before := stack.items;
        stack.PushBack(g.nodes[key]);
        assert Pks(before + [g.nodes[key]]) == Pks(before) + {key} by {
          forall m
            ensures m in before + [g.nodes[key]] <==> m in before || m == g.nodes[key]
          {
          }
        }
      }
      todo := todo - {key};
    }
  }

  /** The invariant of the loop over the segments. */
  ghost predicate PathInv(g: View, d: Dir, path: seq<PathPattern>, idx: nat, start: Key, frontier: set<Key>)
    requires idx < |path|
  {
    && frontier <= g.nodes.Keys
    && (!LivePath(g, path[..idx]) ==> frontier == {})
    && (PathIndexSound(g, d, path) ==> FrontierSound(g, d, path, idx, start, frontier))
    && (KnownPath(g, path) && PathIndexExact(g, d, path) ==> FrontierExact(g, d, path, idx, start, frontier))
  }

  /** What the search of a whole path finds. */
  ghost predicate PathFound(g: View, d: Dir, path: seq<PathPattern>, start: Key, r: set<Key>) {
    && (!LivePath(g, path) || path == [] ==> r == {})
    && (PathIndexSound(g, d, path) ==> forall o :: o in r ==> PathRel(g, d, path, start, o))
    && (KnownPath(g, path) && PathIndexExact(g, d, path) ==> forall o :: o in r <==> PathRel(g, d, path, start, o))
  }

  /** Following one segment of a path turns the frontier into its image. */
  lemma ImageOf(g: View, d: Dir, seg: PathPattern, frontier: set<Key>, image: set<Key>)
    requires WellFormedView(g) && frontier <= g.nodes.Keys && SegmentFound(g, d, seg, frontier, image)
    ensures SegmentIndexSound(g, d, seg) ==> ImageSound(g, d, seg, frontier, image) && image <= g.nodes.Keys
    ensures GetHash(g, seg.pred).Some? && SegmentIndexExact(g, d, seg) ==>
              SegmentIndexSound(g, d, seg) && ImageExact(g, d, seg, frontier, image)
  {
    if GetHash(g, seg.pred).Some? && SegmentIndexSound(g, d, seg) {
      forall o | o in image
        ensures o in g.nodes
      {
        var f :| f in frontier && Segment(EdgesOf(g, d, seg.pred), seg.pattern, f, o);
        SegmentStaysStored(g, d, seg.pred, seg.pattern, f, o);
      }
    }
  }

  lemma PathAdvances(g: View, d: Dir, path: seq<PathPattern>, idx: nat, start: Key, frontier: set<Key>, image: set<Key>)
    requires WellFormedView(g) && idx < |path| && PathInv(g, d, path, idx, start, frontier)
    requires SegmentFound(g, d, path[idx], frontier, image)
    ensures idx + 1 < |path| ==> PathInv(g, d, path, idx + 1, start, image * g.nodes.Keys)
    ensures idx + 1 == |path| ==> PathFound(g, d, path, start, image)
  {
    var seg := path[idx];
    assert seg in path && path[..idx + 1] == path[..idx] + [seg];
    ImageOf(g, d, seg, frontier, image);
    if PathIndexSound(g, d, path) {
      assert SegmentIndexSound(g, d, seg);
      assert image * g.nodes.Keys == image;
    }
    if PathIndexExact(g, d, path) && KnownPath(g, path) {
      assert SegmentIndexExact(g, d, seg) && GetHash(g, seg.pred).Some?;
      assert image * g.nodes.Keys == image;
    }
    if idx + 1 < |path| {
      FrontierAdvances(g, d, path, idx, start, frontier, image * g.nodes.Keys);
    } else {
      assert path[..|path|] == path;
      FrontierFinishes(g, d, path, start, frontier, image);
    }
  }

  /** The loop over the segments, shared by both searches. */
  method FollowSegments(g: View, d: Dir, start: Node, path: seq<PathPattern>) returns (results: Keymap)
    requires WellFormedView(g) && !g.strict && Stored(g, start)
    ensures fresh(results) && PathFound(g, d, path, start.pk, results.m)
  {
    var stack := new WorkList(start);
    assert Pks([start]) == {start.pk};
    for idx := 0 to |path|
      invariant fresh(stack) && AllStored(g, stack.items)
      invariant path != [] ==> idx < |path| && PathInv(g, d, path, idx, start.pk, Pks(stack.items))
    {
      ghost var frontier := Pks(stack.items);
      var reachable := FollowSegment(g, d, stack, path[idx]);
      PathAdvances(g, d, path, idx, start.pk, frontier, reachable.m);
      if idx == |path| - 1 {
        return reachable;
      }
      PushEntities(g, reachable, stack);
      assert Pks(stack.items) == reachable.m * g.nodes.Keys;
    }
    results := new Keymap();
  }

  // ---- the two entry points ----

  /** What `reversePath` computes: the reversed path, except that the middle element of
      an odd path of three or more is left at its zero value (db/util.go:131). */
  ghost function ReversePathSpec(path: seq<PathPattern>): (r: seq<PathPattern>) {
    if |path| % 2 == 1 && |path| >= 3 then Reversed(path)[|path| / 2 := ZERO_PATTERN] else Reversed(path)
  }

  lemma SwappedIsReversed(path: seq<PathPattern>, s: seq<PathPattern>)
    requires |s| == |path| != 1
    requires forall k :: 0 <= k < |path| / 2 ==> s[k] == path[|path| - 1 - k] && s[|path| - 1 - k] == path[k]
    requires |path| % 2 == 1 ==> s[|path| / 2] == ZERO_PATTERN
    ensures s == ReversePathSpec(path)
  {
    var r := ReversePathSpec(path);
    forall k | 0 <= k < |path|
      ensures s[k] == r[k]
    {
      if k >= |path| / 2 && k != |path| - 1 - k {
        assert s[|path| - 1 - (|path| - 1 - k)] == path[|path| - 1 - k];
      }
    }
  }

  method ReversePath(path: seq<PathPattern>) returns (newpath: seq<PathPattern>)
    ensures newpath == ReversePathSpec(path)
  {
    if |path| == 1 {
      return path;
    }
    hide ReversePathSpec;
    var buf := new PathPattern[|path|](_ => ZERO_PATTERN);
    var i, j := 0, |path| - 1;
    while i < j
      invariant 0 <= i && j == |path| - 1 - i && i <= j + 1
      invariant forall k :: 0 <= k < i ==> buf[k] == path[|path| - 1 - k] && buf[|path| - 1 - k] == path[k]
      invariant forall k :: i <= k <= j ==> buf[k] == ZERO_PATTERN
    {
      buf[i], buf[j] := path[j], path[i];
      i, j := i + 1, j - 1;
    }
    newpath := buf[..];
    SwappedIsReversed(path, newpath);
  }

  /** `ReversePath` reverses exactly the paths of length one or even length. */
  predicate Reversible(path: seq<PathPattern>) {
    |path| == 1 || |path| % 2 == 0
  }

  /** A path with a zero-valued segment relates nothing. */
  lemma {:induction false} UnsetRelatesNothing(g: View, d: Dir, path: seq<PathPattern>, k: nat, s: Key, o: Key)
    requires k < |path| && path[k].pattern == Unset
    ensures !PathRel(g, d, path, s, o)
    decreases k
  {
    if k > 0 && |path| > 1 {
      forall m
        ensures !PathRel(g, d, path[1..], m, o)
      {
        UnsetRelatesNothing(g, d, path[1..], k - 1, m, o);
      }
    }
  }

  /** All objects the path leads to from a subject; the source returns nil when the
      subject is not stored. */
  method GetObjectFromSubjectPred(g: View, subjectHash: Key, path: seq<PathPattern>) returns (r: Option<Keymap>)
    requires WellFormedView(g) && !g.strict
    ensures r.None? <==> subjectHash !in g.nodes
    ensures r.Some? ==> fresh(r.value) && PathFound(g, Out, path, subjectHash, r.value.m)
  {
    if subjectHash !in g.nodes {
      return None;
    }
    var results := FollowSegments(g, Out, g.nodes[subjectHash], path);
    r := Some(results);
  }

  /** All subjects the path leads from to an object: what the reversed path reaches over
      in-edges, which is the converse of the path where in-edges and out-edges agree. */
  method GetSubjectFromPredObject(g: View, objectHash: Key, path: seq<PathPattern>) returns (r: Option<Keymap>)
    requires WellFormedView(g) && !g.strict
    ensures r.None? <==> objectHash !in g.nodes
    ensures r.Some? ==> fresh(r.value) && PathFound(g, In, ReversePathSpec(path), objectHash, r.value.m)
    ensures r.Some? && EdgesAgree(g) ==> BackwardFound(g, path, objectHash, r.value.m)
  {
    if objectHash !in g.nodes {
      return None;
    }
    var back := ReversePath(path);
    var results := FollowSegments(g, In, g.nodes[objectHash], back);
    if EdgesAgree(g) {
      BackwardMeaning(g, path, objectHash, results.m);
    }
    r := Some(results);
  }

  /** What the backward search finds: the converse of the forward relation on reversible
      paths, nothing at all on the others. */
  ghost predicate BackwardFound(g: View, path: seq<PathPattern>, objectHash: Key, r: set<Key>) {
    && (!LivePath(g, path) || path == [] || !Reversible(path) ==> r == {})
    && (PathIndexSound(g, In, path) ==> forall s :: s in r ==> PathRel(g, Out, path, s, objectHash))
    && (KnownPath(g, path) && Reversible(path) && PathIndexExact(g, In, path) ==>
          forall s :: s in r <==> PathRel(g, Out, path, s, objectHash))
  }

  lemma BackwardMeaning(g: View, path: seq<PathPattern>, o: Key, r: set<Key>)
    requires EdgesAgree(g) && PathFound(g, In, ReversePathSpec(path), o, r)
    ensures BackwardFound(g, path, o, r)
  {
    var back := ReversePathSpec(path);
    if Reversible(path) {
      SameSegments(path);
      forall s
        ensures PathRel(g, Out, path, s, o) <==> PathRel(g, In, back, o, s)
      {
        PathConverse(g, path, s, o);
      }
    } else {
      assert back[|path| / 2] in back;
      assert r == {};
    }
  }

  lemma {:induction false} SameSegments(path: seq<PathPattern>)
    ensures forall seg :: seg in Reversed(path) <==> seg in path
  {
    if path != [] {
      SameSegments(path[1..]);
      assert path == [path[0]] + path[1..];
    }
  }

  /** The answers of the two evaluations on a graph where both are at their best. */
  ghost predicate BothFound(g: View, path: seq<PathPattern>, s: Key, o: Key, fwd: set<Key>, bwd: set<Key>) {
    && WellFormedView(g) && EdgesAgree(g) && KnownPath(g, path)
    && PathIndexExact(g, Out, path) && PathIndexExact(g, In, path)
    && PathFound(g, Out, path, s, fwd) && BackwardFound(g, path, o, bwd)
  }

  /** Forward and backward evaluation are converse on reversible paths. */
  lemma ForwardBackwardConverse(g: View, path: seq<PathPattern>, s: Key, o: Key, fwd: set<Key>, bwd: set<Key>)
    requires Reversible(path) && BothFound(g, path, s, o, fwd, bwd)
    ensures o in fwd <==> s in bwd
  {
  }

  const LOOP := EMPTY_KEY.(b0 := 1)

  /** One node that every predicate of the path links to itself. */
  ghost function LoopGraph(path: seq<PathPattern>): (g: View) {
    var k := LOOP;
    var loops := map[k := [k]];
    View(map seg | seg in path :: Bytes(seg.pred) := k, map[k := Node(k, loops, loops)], map[], false)
  }

  lemma LoopGraphSeparates(path: seq<PathPattern>)
    requires !Reversible(path) && forall seg :: seg in path ==> seg.pattern != Unset
    ensures var g, k := LoopGraph(path), LOOP;
            BothFound(g, path, k, k, {k}, {})
  {
    LoopGraphRelates(path, path);
  }

  /** A path is reversible exactly when the two evaluations are converse on every
      graph: on an odd path of three or more segments the loop graph tells them apart. */
  lemma ConverseIffReversible(path: seq<PathPattern>)
    requires forall seg :: seg in path ==> seg.pattern != Unset
    ensures Reversible(path) <==>
            forall g, s, o, fwd, bwd :: BothFound(g, path, s, o, fwd, bwd) ==> (o in fwd <==> s in bwd)
  {
    if Reversible(path) {
      forall g, s, o, fwd, bwd | BothFound(g, path, s, o, fwd, bwd)
        ensures o in fwd <==> s in bwd
      {
        ForwardBackwardConverse(g, path, s, o, fwd, bwd);
      }
    } else {
      LoopGraphSeparates(path);
      var k := LOOP;
      assert k in {k} && k !in {};
    }
  }

  lemma {:induction false} LoopGraphRelates(path: seq<PathPattern>, part: seq<PathPattern>)
    requires part != [] && forall seg :: seg in part ==> seg in path && seg.pattern != Unset
    ensures var g, k := LoopGraph(path), LOOP;
            && WellFormedView(g) && EdgesAgree(g) && LivePath(g, part)
            && (forall o :: PathRel(g, Out, part, k, o) <==> o == k)
    decreases |part|
  {
    var g, k := LoopGraph(path), LOOP;
    var seg := part[0];
    assert seg in path && Bytes(seg.pred) in g.entity;
    var e := EdgesOf(g, Out, seg.pred);
    assert (k, k) in e;
    PlusEdge(e, k, k);
    forall o | Segment(e, seg.pattern, k, o)
      ensures o == k
    {
      SegmentStaysStored(g, Out, seg.pred, seg.pattern, k, o);
    }
    assert Segment(e, seg.pattern, k, k);
    if |part| > 1 {
      LoopGraphRelates(path, part[1..]);
      assert PathRel(g, Out, part, k, k);
      forall o | PathRel(g, Out, part, k, o)
        ensures o == k
      {
        var m :| Segment(e, seg.pattern, k, m) && PathRel(g, Out, part[1..], m, o);
        assert m == k;
      }
    }
  }

  /** Two indexes with exact present entries give the same answer; in particular the
      indexed answer is the index-free one. */
  lemma IndexChangesNothing(g: View, index: map<Key, IndexRecord>, d: Dir, path: seq<PathPattern>, start: Key,
                            r: set<Key>, r': set<Key>)
    requires PathIndexExact(g, d, path) && PathIndexExact(g.(index := index), d, path)
    requires PathFound(g, d, path, start, r) && PathFound(g.(index := index), d, path, start, r')
    ensures r == r'
  {
    var h := g.(index := index);
    assert forall u :: GetHash(g, u) == GetHash(h, u);
    forall o
      ensures PathRel(g, d, path, start, o) <==> PathRel(h, d, path, start, o)
    {
      PathRelIgnoresIndex(g, index, d, path, start, o);
    }
  }

  // ---- unknown predicates ----

  /** The name has no key. */
  predicate Unknown(names: map<string, Key>, u: URI) {
    GetHash(View(names, map[], map[], false), u).None?
  }

  /** Evaluation in a direction finds exactly what the path relates, on every snapshot with
      these names and exact index entries. */
  ghost predicate ExactOnNames(names: map<string, Key>, d: Dir, path: seq<PathPattern>) {
    forall g, start, r :: Evaluated(g, names, d, path, start, r) ==>
      forall x :: x in r <==> RelatedTo(g, d, path, start, x)
  }

  /** `start` stands at the near end of the path and `x` at the far end. */
  ghost predicate RelatedTo(g: View, d: Dir, path: seq<PathPattern>, start: Key, x: Key) {
    if d == Out then PathRel(g, Out, path, start, x) else PathRel(g, Out, path, x, start)
  }

  ghost predicate Evaluated(g: View, names: map<string, Key>, d: Dir, path: seq<PathPattern>, start: Key, r: set<Key>) {
    && g.entity == names && !g.strict && WellFormedView(g) && EdgesAgree(g) && start in g.nodes
    && PathIndexExact(g, d, path)
    && if d == Out then PathFound(g, Out, path, start, r) else BackwardFound(g, path, start, r)
  }

  /** A mandatory step along an unknown predicate. */
  predicate DeadStep(names: map<string, Key>, seg: PathPattern) {
    Unknown(names, seg.pred) && (seg.pattern == Single || seg.pattern == OnePlus)
  }

  /** Such a step relates nothing. */
  lemma {:induction false} DeadStepRelatesNothing(g: View, d: Dir, path: seq<PathPattern>, k: nat, s: Key, o: Key)
    requires k < |path| && !g.strict && DeadStep(g.entity, path[k])
    ensures !PathRel(g, d, path, s, o)
    decreases k
  {
    if k == 0 {
      var e := EdgesOf(g, d, path[0].pred);
      assert e == {};
      forall a, b
        ensures !Segment(e, path[0].pattern, a, b)
      {
        if Plus(e, a, b) {
          PlusHasFirstEdge(e, a, b);
        }
      }
    } else {
      forall m
        ensures !PathRel(g, d, path[1..], m, o)
      {
        DeadStepRelatesNothing(g, d, path[1..], k - 1, m, o);
      }
    }
  }

  /** One node that every named predicate links to itself. */
  ghost function NamedLoops(names: map<string, Key>): (g: View)
    ensures g.entity == names && !g.strict && WellFormedView(g) && LOOP in g.nodes && g.index == map[]
  {
    var loops := map p | p in names.Values :: [LOOP];
    View(names, map[LOOP := Node(LOOP, loops, loops)], map[], false)
  }

  /** There the node is related to itself by every path without dead steps. */
  lemma {:induction false} LoopsRelate(names: map<string, Key>, path: seq<PathPattern>)
    requires path != [] && forall seg :: seg in path ==> seg.pattern != Unset && !DeadStep(names, seg)
    ensures PathRel(NamedLoops(names), Out, path, LOOP, LOOP)
    decreases |path|
  {
    var g, k := NamedLoops(names), LOOP;
    var e := EdgesOf(g, Out, path[0].pred);
    assert path[0] in path;
    if GetHash(g, path[0].pred).Some? {
      assert Bytes(path[0].pred) in names.Keys;
      assert (k, k) in e;
      PlusEdge(e, k, k);
    }
    assert Segment(e, path[0].pattern, k, k);
    if |path| > 1 {
      LoopsRelate(names, path[1..]);
    }
  }

  /** A path with a dead step is evaluated to nothing, which is right. */
  lemma DeadIsExact(names: map<string, Key>, d: Dir, path: seq<PathPattern>, k: nat)
    requires k < |path| && DeadStep(names, path[k])
    ensures ExactOnNames(names, d, path)
  {
    forall g, start, r | Evaluated(g, names, d, path, start, r)
      ensures forall x :: x in r <==> RelatedTo(g, d, path, start, x)
    {
      assert path[k] in path && r == {};
      forall x
        ensures !RelatedTo(g, d, path, start, x)
      {
        DeadStepRelatesNothing(g, Out, path, k, start, x);
        DeadStepRelatesNothing(g, Out, path, k, x, start);
      }
    }
  }

  /** A path over these names is evaluated exactly on every graph if and only if one of its
      unknown steps is mandatory, or all its predicates are known and, backwards, it is
      reversible. An unknown optional or starred step still relates every node to itself,
      but the evaluator gives up. */
  lemma ExactIffKnownOrDead(names: map<string, Key>, d: Dir, path: seq<PathPattern>)
    requires path != [] && forall seg :: seg in path ==> seg.pattern != Unset
    ensures ExactOnNames(names, d, path) <==>
              || ((forall seg :: seg in path ==> !Unknown(names, seg.pred)) && (d == In ==> Reversible(path)))
              || (exists seg :: seg in path && DeadStep(names, seg))
  {
    if seg :| seg in path && DeadStep(names, seg) {
      var k :| 0 <= k < |path| && path[k] == seg;
      DeadIsExact(names, d, path, k);
    } else if (forall seg :: seg in path ==> !Unknown(names, seg.pred)) && (d == In ==> Reversible(path)) {
      forall g, start, r | Evaluated(g, names, d, path, start, r)
        ensures forall x :: x in r <==> RelatedTo(g, d, path, start, x)
      {
        assert KnownPath(g, path);
      }
    } else {
      LoopsRelate(names, path);
      LoopsAreMissed(names, d, path);
    }
  }

  /** Where the evaluator gives up, it misses the loop. */
  lemma LoopsAreMissed(names: map<string, Key>, d: Dir, path: seq<PathPattern>)
    requires (exists seg :: seg in path && Unknown(names, seg.pred)) || (d == In && !Reversible(path))
    requires PathRel(NamedLoops(names), Out, path, LOOP, LOOP)
    ensures !ExactOnNames(names, d, path)
  {
    var g := NamedLoops(names);
    if seg :| seg in path && Unknown(names, seg.pred) {
      assert GetHash(g, seg.pred).None?;
    }
    hide PathRel;
    assert Evaluated(g, names, d, path, LOOP, {});
    assert RelatedTo(g, d, path, LOOP, LOOP) && LOOP !in {};
  }

  /** For example an optional step along an unknown predicate, which relates every node to
      itself, finds nothing. */
  lemma UnknownOptionalStep(g: View, u: URI, k: Key, r: set<Key>)
    requires GetHash(g, u).None? && PathFound(g, Out, [PathPattern(u, ZeroOne)], k, r)
    ensures PathRel(g, Out, [PathPattern(u, ZeroOne)], k, k) && r == {}
  {
    assert PathPattern(u, ZeroOne) in [PathPattern(u, ZeroOne)];
  }
}
