/** When a rollup leaves the exact backward closure in the index (db/transaction.go:489-583).
    A result is removed by one call and an independently chosen one is told of the owner, so
    a record may learn of some of the nodes that reach it only, and its own search then
    returns at that entry. */
module InClosures {
  import opened Closure
  import opened Graphs
  import opened Keys
  import opened OutClosures
  import opened RollupLoops
  import opened RollupRuns
  import opened Rollups
  import opened Searches
  import opened Store
  import opened Traversal

  /** Two nodes that both reach a third reach nothing else, and neither is the third. */
  ghost predicate MeetOnlyAtEnds(e: Edges) {
    forall x, z, y :: x != z && Plus(e, x, y) && Plus(e, z, y) ==> x != y && OnlyReaches(e, x, y)
  }

  ghost predicate OnlyReaches(e: Edges, x: Key, y: Key) {
    forall w :: Plus(e, x, w) ==> w == y
  }

  /** As for typed nodes with one class each. */
  lemma FunctionalFlatMeet(e: Edges)
    requires Functional(e) && Flat(e)
    ensures MeetOnlyAtEnds(e)
  {
    forall x, z, y | x != z && Plus(e, x, y) && Plus(e, z, y)
      ensures x != y && OnlyReaches(e, x, y)
    {
      FlatPlus(e, x, y);
      FlatPlus(e, z, y);
      forall w | Plus(e, x, w)
        ensures w == y
      {
        FlatPlus(e, x, w);
      }
    }
  }

  lemma FlatPlus(e: Edges, x: Key, y: Key)
    requires Flat(e) && Plus(e, x, y)
    ensures (x, y) in e && x != y
  {
    PlusHasFirstEdge(e, x, y);
    var m :| (x, m) in e && Star(e, m, y);
    if m != y {
      PlusHasFirstEdge(e, m, y);
    }
  }

  /** Then no siblings are lost in either direction. */
  lemma MeetLosesNothing(e: Edges, d: Dir)
    requires MeetOnlyAtEnds(e)
    ensures NoSiblingLost(DirEdges(d, e))
  {
    var f := DirEdges(d, e);
    forall s, a, b, c, y | (s, a) in f && (s, b) in f && (a, c) in f && Plus(f, b, y)
      ensures Plus(f, a, y)
    {
      if d == Out {
        MeetOutStep(e, s, a, b, c, y);
      } else {
        assert (a, s) in e && (b, s) in e && (c, a) in e;
        PlusConverse(e, y, b);
        PlusConverse(e, y, a);
        MeetInStep(e, s, a, b, c, y);
      }
    }
  }

  lemma MeetOutStep(e: Edges, s: Key, a: Key, b: Key, c: Key, y: Key)
    requires MeetOnlyAtEnds(e) && (s, a) in e && (s, b) in e && (a, c) in e && Plus(e, b, y)
    ensures Plus(e, a, y)
  {
    PlusEdge(e, s, a);
    PlusEdge(e, a, c);
    PlusTransitive(e, s, a, c);
    PlusEdge(e, s, b);
    PlusTransitive(e, s, b, y);
  }

  lemma MeetInStep(e: Edges, s: Key, a: Key, b: Key, c: Key, y: Key)
    requires MeetOnlyAtEnds(e) && (a, s) in e && (b, s) in e && (c, a) in e && Plus(e, y, b)
    ensures Plus(e, y, a)
  {
    PlusEdge(e, a, s);
    PlusEdge(e, b, s);
    PlusEdge(e, c, a);
    PlusTransitive(e, c, a, s);
  }

  // ---- every run is exact ----

  /** A subject that reaches one node only can but tell that node. */
  lemma TurnTells(st: Store, ext: Index, p: Key, t: OwnerTurn, y: Key)
    requires Rollable(st, p) && ValidStore(st.(ext := ext)) && TurnOk(st, ext, p, Out, t) && t.ok
    requires PresentComplete(ext, Out, p, Pairs(st.preds, p))
    requires Plus(Pairs(st.preds, p), t.owner, y) && OnlyReaches(Pairs(st.preds, p), t.owner, y) && t.owner != y
    ensures Holds(TurnResult(ext, p, Out, t), y, In, p, t.owner)
  {
    var e := Pairs(st.preds, p);
    assert t.owner in st.graph;
    OutReach(e, t.owner, y);
    FoundReaches(st, ext, p, Out, t.owner);
    PlusHasFirstEdge(e, t.owner, y);
    var m :| (t.owner, m) in e;
    PlusEdge(e, t.owner, m);
    assert m == y;
    var r := TurnFound(st, ext, p, Out, t.owner);
    assert forall x :: x in r ==> Plus(e, t.owner, x) by {
      forall x {
        OutReach(e, t.owner, x);
      }
    }
    hide Rollable, ValidStore, TurnOk, TurnResult, TurnFound, Pairs, Plus, Holds, Present, Reach;
    if Present(ext, t.owner, Out, p) {
      FindsOwnEntry(st, ext, p, Out, t.owner);
    } else {
      FindsNeighbour(st, ext, p, Out, t.owner, y);
    }
    NamedFound(st, ext, p, Out, t);
    SomethingNamed(st, ext, p, Out, t);
    NamingTurnHolds(st, ext, p, Out, t, y, t.owner);
  }

  /** A turn without an error that finds something names something. */
  lemma SomethingNamed(st: Store, ext: Index, p: Key, d: Dir, t: OwnerTurn)
    requires Rollable(st, p) && TurnOk(st, ext, p, d, t) && t.ok
    ensures t.owner in st.graph && (TurnFound(st, ext, p, d, t.owner) != {} ==> Named(t.picks) != {})
  {
    hide Found, WellFormedView, ValidStore;
    if Named(t.picks) == {} {
      NoneNamedNonePicked(t.picks);
    }
  }

  lemma {:induction false} TurnsTell(st: Store, p: Key, turns: seq<OwnerTurn>, x: Key, y: Key)
    requires Rollable(st, p) && AllRecorded(st.ext, Out, Pairs(st.preds, p)) && MeetOnlyAtEnds(Pairs(st.preds, p))
    requires PresentComplete(st.ext, Out, p, Pairs(st.preds, p))
    requires TurnsOk(st, st.ext, p, Out, LoopOwners(st, p, Out), turns) && AllOk(turns) && x in Owners(turns)
    requires Plus(Pairs(st.preds, p), x, y) && OnlyReaches(Pairs(st.preds, p), x, y) && x != y
    ensures Holds(After(st.ext, p, Out, turns), y, In, p, x)
    decreases |turns|
  {
    var before, t := turns[..|turns| - 1], turns[|turns| - 1];
    assert st.(ext := st.ext) == st && ValidStore(st) && t.ok;
    RollableViewed(st, p);
    MeetLosesNothing(Pairs(st.preds, p), Out);
    hide Rollable, ValidStore, WellFormedView, TurnsOk, TurnOk, After, OnlyGrew, Pairs, TurnResult, Plus, Holds,
         MeetOnlyAtEnds, NoSiblingLost, PresentComplete, AllRecorded, OnlyReaches, LoopOwners, Complete;
    LastTurn(st, st.ext, p, Out, LoopOwners(st, p, Out), turns);
    OwnersMore(turns);
    TurnsKeep(st, st.ext, p, Out, LoopOwners(st, p, Out), before);
    TurnsComplete(st, st.ext, p, Out, LoopOwners(st, p, Out), before);
    var mid := After(st.ext, p, Out, before);
    if t.owner == x {
      TurnTells(st, mid, p, t, y);
    } else {
      TurnsTell(st, p, before, x, y);
      NamingTurnHolds(st, mid, p, Out, t, y, x);
    }
  }

  /** So the in-entries present after the first loop are complete. */
  lemma FirstLoopTells(st: Store, p: Key, first: seq<OwnerTurn>)
    requires Rollable(st, p) && AllRecorded(st.ext, Out, Pairs(st.preds, p)) && MeetOnlyAtEnds(Pairs(st.preds, p))
    requires forall d :: PresentComplete(st.ext, d, p, Pairs(st.preds, p))
    requires LoopOk(st, st.ext, p, Out, LoopOwners(st, p, Out), first) && AllOk(first)
    requires ValidStore(st.(ext := After(st.ext, p, Out, first))) && OnlyGrew(st.ext, After(st.ext, p, Out, first), p)
    ensures PresentComplete(After(st.ext, p, Out, first), In, p, Pairs(st.preds, p))
  {
    var e, mid := Pairs(st.preds, p), After(st.ext, p, Out, first);
    assert ValidStore(st);
    ValidKeyed(st.(ext := mid));
    RollableUndiverted(st, p);
    assert ClosureSoundAt(st.(ext := mid).ext, p, e);
    SoundIsHolds(mid, p, e);
    assert PresentComplete(st.ext, In, p, e) && PresentComplete(st.ext, Out, p, e);
    hide Rollable, ValidStore, WellFormedView, TurnsOk, After, Pairs, Plus, Holds, Undiverted, UriOf, Keyed,
         ClosureSoundAt, AllRecorded, LoopOwners;
    forall y, x | Present(mid, y, In, p) && Reach(In, e, y, x)
      ensures Holds(mid, y, In, p, x)
    {
      PresentHolds(mid, y, In, p);
      var z :| Holds(mid, y, In, p, z);
      assert Reach(In, e, y, z);
      if x != z {
        assert Plus(e, x, y) && Plus(e, z, y);
        assert OnlyReaches(e, x, y) && x != y;
        OutReach(e, x, y);
        ReachingOwns(st, p, Out, x, y);
        TurnsTell(st, p, first, x, y);
      }
    }
  }

  /** Every run completes and leaves the closure, exactly, in the index in both directions. */
  lemma InIsExact(st: Store, p: Key, run: RollupRun)
    requires Rollable(st, p) && ObjectsRecorded(st, p) && MeetOnlyAtEnds(Pairs(st.preds, p))
    requires forall d :: PresentComplete(st.ext, d, p, Pairs(st.preds, p))
    requires RunOk(st, p, run)
    ensures Completes(run) && forall d :: AllExact(RunIndex(st, p, run), d, p, Pairs(st.preds, p))
  {
    MeetLosesNothing(Pairs(st.preds, p), Out);
    MeetLosesNothing(Pairs(st.preds, p), In);
    RunIsExact(st, p, run);
    FirstKeeps(st, p, run);
    ObjectsAreRecorded(st, p);
    assert forall d :: LoopOwners(st, p, d) == if d == Out then Subjects(st, p) else Objects(st, p);
    hide Rollable, TurnsOk, After, OnlyGrew, Pairs, NoSiblingLost, AllExact, AllRecorded, PresentComplete,
         MeetOnlyAtEnds, ValidStore, LoopOwners, WellFormedView;
    FirstLoopTells(st, p, run.first);
    LoopCompletes(st, After(st.ext, p, Out, run.first), p, In, run.second);
    forall d
      ensures AllExact(RunIndex(st, p, run), d, p, Pairs(st.preds, p))
    {
    }
  }

  // ---- a run that leaves an in-entry incomplete ----

  /** Two nodes reach `y`, the second is not `y`, and the first is `y` or reaches something
      else as well. */
  ghost predicate Meets(e: Edges, x: Key, z: Key, y: Key) {
    && Plus(e, x, y) && Plus(e, z, y) && x != z && z != y
    && (x == y || !OnlyReaches(e, x, y))
  }

  lemma SomeMeet(e: Edges) returns (x: Key, z: Key, y: Key)
    requires !MeetOnlyAtEnds(e)
    ensures Meets(e, x, z, y)
  {
    hide Plus, OnlyReaches;
    x, z, y :| x != z && Plus(e, x, y) && Plus(e, z, y) && !(x != y && OnlyReaches(e, x, y));
    if z == y {
      x, z := z, x;
    }
  }

  /** A path that leaves its start for good leaves it by an edge to another node. */
  lemma {:induction false} LeavesStart(e: Edges, s: Key, x: Key, n: nat)
    requires Walk(e, s, x, n) && s != x
    ensures exists m :: (s, m) in e && m != s
    decreases n
  {
    if n > 0 {
      var m :| (s, m) in e && Walk(e, m, x, n - 1);
      if m == s {
        LeavesStart(e, s, x, n - 1);
      }
    }
  }

  /** With no entries in sight a search finds everything. */
  lemma ScratchFindsAll(st: Store, p: Key, owner: Key)
    requires Rollable(st, p) && FromScratch(st.ext, p) && AllRecorded(st.ext, Out, Pairs(st.preds, p))
    requires owner in st.graph
    ensures forall x :: Plus(Pairs(st.preds, p), owner, x) ==> x in TurnFound(st, st.ext, p, Out, owner)
  {
    var loaded := Opened(st.ext, owner);
    var st1 := st.(ext := loaded);
    assert ValidStore(st) && st.(ext := st.ext) == st;
    OpenedValid(st, st.ext, p, owner);
    RollableAt(st, loaded, p);
    OpenedEntries(st.ext, owner);
    ScratchStays(st.ext, loaded, p);
    assert AllRecorded(loaded, Out, Pairs(st.preds, p));
    hide Rollable, ValidStore, FromScratch, AllRecorded, WellFormedView;
    ScratchFoundAll(st1, p, owner);
    assert TurnFound(st, st.ext, p, Out, owner) == Found(st1, st1.ext, p, Out, owner) by {
      RollableViewed(st1, p);
      assert st.(ext := loaded) == st1.(ext := st1.ext);
    }
  }

  /** Opening a record for its owner brings no entries. */
  lemma OpenedEntries(ext: Index, owner: Key)
    ensures forall k, d, q :: Present(Opened(ext, owner), k, d, q) <==> Present(ext, k, d, q)
  {
  }

  lemma ScratchStays(ext: Index, ext': Index, p: Key)
    requires FromScratch(ext, p) && forall k, d, q :: Present(ext', k, d, q) <==> Present(ext, k, d, q)
    ensures FromScratch(ext', p)
  {
    hide Present;
  }

  lemma ScratchFoundAll(st: Store, p: Key, owner: Key)
    requires Rollable(st, p) && FromScratch(st.ext, p) && AllRecorded(st.ext, Out, Pairs(st.preds, p))
    requires owner in st.graph
    requires owner in st.ext
    ensures forall x :: Plus(Pairs(st.preds, p), owner, x) ==> x in Found(st, st.ext, p, Out, owner)
  {
    var g, n := TransactionView(st), st.graph[owner];
    RollableUndiverted(st, p);
    RelIsPairs(st, Out, p);
    RecordedInView(st, p, Out);
    GraphStored(st, owner);
    hide UriOf, Undiverted, AllRecorded;
    assert st.(ext := st.ext) == st;
    assert Found(st, st.ext, p, Out, owner) == SearchFrom(g, Out, p, n).0;
    assert forall k :: k in st.ext ==> !Present(st.ext, k, Out, p);
    UnindexedFindsAll(g, Out, p, n);
  }

  /** A search whose start leads to `a` alone goes on from there, if `a` has no entry. */
  lemma HeadExpands(g: View, p: Key, n: Node, a: Key, x: Key)
    requires WellFormedView(g) && Stored(g, n) && EdgeList(n, Out, p) != [] && EdgeList(n, Out, p)[0] == a && n.pk != a
    requires n.pk in g.index && p !in g.index[n.pk].outPlus && a in g.index && p !in g.index[a].outPlus
    requires a in g.nodes && x in EdgeList(g.nodes[a], Out, p)
    ensures x in SearchFrom(g, Out, p, n).0
  {
    var edges := EdgeList(n, Out, p);
    StepFinds(g, Out, p, n, [], {}, {});
    assert [n] + [] == [n];
    var next, r := [] + NextNodes(g, edges), {} + set x | x in edges;
    var m, rest := g.nodes[a], next[1..];
    assert next[0] == m && next == [m] + rest && Stored(g, m) && AllStored(g, rest);
    StepFinds(g, Out, p, m, rest, {} + {n.pk}, r);
    SearchedGrows(g, Out, p, rest + NextNodes(g, EdgeList(m, Out, p)), {} + {n.pk} + {m.pk},
                  r + set x | x in EdgeList(m, Out, p));
  }

  lemma TurnHeadExpands(st: Store, ext: Index, p: Key, s: Key, a: Key, x: Key)
    requires Rollable(st, p) && ValidStore(st.(ext := ext)) && HeadOf(st, p, s, a) && s != a && a in ext
    requires !Present(ext, s, Out, p) && !Present(ext, a, Out, p) && (a, x) in Pairs(st.preds, p)
    ensures x in TurnFound(st, ext, p, Out, s)
  {
    RollableUndiverted(st, p);
    GraphStored(st, s);
    PairEnds(st, p, a, x);
    assert HasOut(st.graph, a, p, x) by {
      PairsAre(st.preds, p);
    }
    OpenedEntries(ext, s);
    hide UriOf, ValidStore, Undiverted, Readable, ViewsAgree, Pairs;
    var loaded := Opened(ext, s);
    var g, n := TransactionView(st.(ext := loaded)), st.graph[s];
    assert WellFormedView(g) && Stored(g, n);
    assert !Present(loaded, s, Out, p) && !Present(loaded, a, Out, p);
    hide WellFormedView;
    assert TurnFound(st, ext, p, Out, s) == SearchFrom(g, Out, p, n).0;
    HeadExpands(g, p, n, a, x);
  }

  /** Right after the turn of `z`, a search from `x` finds more than `y`, or not `y`. */
  lemma FindsAnother(st: Store, ext: Index, p: Key, x: Key, y: Key) returns (m: Key)
    requires Rollable(st, p) && ValidStore(st.(ext := ext)) && y in ext
    requires !Present(ext, x, Out, p) && !Present(ext, y, Out, p)
    requires Plus(Pairs(st.preds, p), x, y) && x != y && !OnlyReaches(Pairs(st.preds, p), x, y)
    ensures x in st.graph && m in TurnFound(st, ext, p, Out, x) && m != y
  {
    var e := Pairs(st.preds, p);
    var w :| Plus(e, x, w) && w != y;
    PlusHasFirstEdge(e, x, w);
    m :| (x, m) in e && Star(e, m, w);
    PairEnds(st, p, x, m);
    if m != y {
      hide Rollable, ValidStore, Pairs, TurnFound;
      FindsNeighbour(st, ext, p, Out, x, m);
    } else {
      var n: nat :| n > 0 && Walk(e, y, w, n);
      LeavesStart(e, y, w, n);
      m := AnotherAhead(st, ext, p, x, y);
    }
  }

  /** If `y` heads the list of `x` the search goes on behind it, else it finds the head. */
  lemma AnotherAhead(st: Store, ext: Index, p: Key, x: Key, y: Key) returns (m: Key)
    requires Rollable(st, p) && ValidStore(st.(ext := ext)) && y in ext && x in st.graph
    requires !Present(ext, x, Out, p) && !Present(ext, y, Out, p)
    requires (x, y) in Pairs(st.preds, p) && x != y && exists k :: (y, k) in Pairs(st.preds, p) && k != y
    ensures m in TurnFound(st, ext, p, Out, x) && m != y
  {
    var e := Pairs(st.preds, p);
    assert ViewsAgree(st.graph, st.preds);
    PairsAre(st.preds, p);
    assert HasOut(st.graph, x, p, y);
    m := EdgeList(st.graph[x], Out, p)[0];
    assert HasOut(st.graph, x, p, m) && HeadOf(st, p, x, m);
    assert (x, m) in e;
    hide Rollable, ValidStore, Pairs, TurnFound, ViewsAgree;
    if m != y {
      FindsNeighbour(st, ext, p, Out, x, m);
    } else {
      m :| (y, m) in e && m != y;
      TurnHeadExpands(st, ext, p, x, y, m);
    }
  }

  /** The first loop: `z` tells `y`, */
  lemma OneTells(st: Store, p: Key, z: Key, x: Key, y: Key) returns (t: OwnerTurn)
    requires Rollable(st, p) && AllRecorded(st.ext, Out, Pairs(st.preds, p)) && FromScratch(st.ext, p)
    requires Plus(Pairs(st.preds, p), z, y) && z != y && x != z
    ensures WellFormedView(TransactionView(st)) && p in st.pk && z in LoopOwners(st, p, Out)
    ensures t.owner == z && t.ok && TurnsOk(st, st.ext, p, Out, LoopOwners(st, p, Out), [t])
    ensures var ext' := After(st.ext, p, Out, [t]);
            && ValidStore(st.(ext := ext')) && st.ext.Keys <= ext'.Keys
            && Holds(ext', y, In, p, z) && !Holds(ext', y, In, p, x) && forall k :: k != z ==> !Present(ext', k, Out, p)
  {
    assert st.(ext := st.ext) == st && ValidStore(st);
    RollableViewed(st, p);
    OutReach(Pairs(st.preds, p), z, y);
    ReachingOwns(st, p, Out, z, y);
    OwnerStored(st, p, Out, z);
    hide Rollable, ValidStore, WellFormedView, TurnsOk, TurnOk, After, Pairs, AllRecorded, FromScratch, Plus,
         Holds, Present, TurnResult, TurnFound, AllOk, Owners, Reach, LoopOwners, OnlyGrew;
    ScratchFindsAll(st, p, z);
    NoTurnsOk(st, st.ext, p, Out, LoopOwners(st, p, Out));
    t := NextTurn(st, st.ext, p, Out, [], z, y);
    var ext' := TurnResult(st.ext, p, Out, t);
    assert [] + [t] == [t];
    SomethingNamed(st, st.ext, p, Out, t);
    NamingTurnHolds(st, st.ext, p, Out, t, y, z);
    NamingTurnHolds(st, st.ext, p, Out, t, y, x);
    ScratchHolds(st.ext, p, y, In, x);
    forall k | k != z
      ensures !Present(ext', k, Out, p)
    {
      NothingAt(st, p, k, t, ext');
    }
    TurnsKeep(st, st.ext, p, Out, LoopOwners(st, p, Out), [t]);
    GrewKeys(st.ext, ext', p);
  }

  /** A result for `x` to name that does not tell `y`. */
  lemma AnotherResult(st: Store, ext: Index, p: Key, x: Key, y: Key) returns (m: Key)
    requires Rollable(st, p) && ValidStore(st.(ext := ext)) && x in st.graph
    requires x != y ==>
               && y in ext && !Present(ext, x, Out, p) && !Present(ext, y, Out, p)
               && Plus(Pairs(st.preds, p), x, y) && !OnlyReaches(Pairs(st.preds, p), x, y)
    ensures TurnFound(st, ext, p, Out, x) != {} ==> m in TurnFound(st, ext, p, Out, x)
    ensures x == y || m != y
  {
    RollableViewed(st, p);
    hide Rollable, ValidStore, TurnFound, Present, Pairs, Plus, OnlyReaches, WellFormedView;
    m := SomeResult(TurnFound(st, ext, p, Out, x));
    if x != y {
      m := FindsAnother(st, ext, p, x, y);
    }
  }

  /** The second owner's turn, in which it names only `m`. */
  lemma SecondTurn(st: Store, p: Key, tz: OwnerTurn, z: Key, x: Key, y: Key, m: Key) returns (turns: seq<OwnerTurn>)
    requires Rollable(st, p) && ValidStore(st.(ext := st.ext)) && AllRecorded(st.ext, Out, Pairs(st.preds, p))
    requires WellFormedView(TransactionView(st)) && p in st.pk && x in LoopOwners(st, p, Out) && x in st.graph
    requires tz.ok && tz.owner != x && TurnsOk(st, st.ext, p, Out, LoopOwners(st, p, Out), [tz])
    requires var ext1 := After(st.ext, p, Out, [tz]);
             && (TurnFound(st, ext1, p, Out, x) != {} ==> m in TurnFound(st, ext1, p, Out, x)) && (x == y || m != y)
             && Holds(ext1, y, In, p, z) && !Holds(ext1, y, In, p, x)
    ensures TurnsOk(st, st.ext, p, Out, LoopOwners(st, p, Out), turns) && AllOk(turns) && x in Owners(turns)
    ensures var ext' := After(st.ext, p, Out, turns);
            Holds(ext', y, In, p, z) && !Holds(ext', y, In, p, x)
  {
    assert Owners([tz]) == {tz.owner} && AllOk([tz]);
    hide Rollable, ValidStore, WellFormedView, TurnsOk, TurnOk, After, Pairs, AllRecorded, Holds, TurnResult, TurnFound,
         LoopOwners, AllOk, Owners;
    var ext1 := After(st.ext, p, Out, [tz]);
    var tx := NextTurn(st, st.ext, p, Out, [tz], x, m);
    NamingTurnHolds(st, ext1, p, Out, tx, y, x);
    NamingTurnHolds(st, ext1, p, Out, tx, y, z);
    turns := [tz] + [tx];
  }

  /** `x` does not, */
  lemma OtherDoesNot(st: Store, p: Key, z: Key, x: Key, y: Key) returns (turns: seq<OwnerTurn>)
    requires Rollable(st, p) && AllRecorded(st.ext, Out, Pairs(st.preds, p)) && FromScratch(st.ext, p)
    requires Meets(Pairs(st.preds, p), x, z, y)
    ensures WellFormedView(TransactionView(st)) && p in st.pk
    ensures TurnsOk(st, st.ext, p, Out, LoopOwners(st, p, Out), turns) && AllOk(turns) && x in Owners(turns)
    ensures var ext' := After(st.ext, p, Out, turns);
            Holds(ext', y, In, p, z) && !Holds(ext', y, In, p, x)
  {
    assert st.(ext := st.ext) == st && ValidStore(st);
    var e := Pairs(st.preds, p);
    OutReach(e, x, y);
    OutReach(e, z, y);
    assert y in st.ext;
    hide Rollable, ValidStore, WellFormedView, TurnsOk, After, Pairs, AllRecorded, FromScratch, Plus, OnlyReaches,
         Holds, Present, TurnFound, Reach, LoopOwners, AllOk, Owners;
    ReachingOwns(st, p, Out, x, y);
    OwnerStored(st, p, Out, x);
    var tz := OneTells(st, p, z, x, y);
    var m := AnotherResult(st, After(st.ext, p, Out, [tz]), p, x, y);
    turns := SecondTurn(st, p, tz, z, x, y, m);
  }

  /** and no other owner tells `y` of `x`. */
  lemma FirstLoopForgets(st: Store, p: Key, z: Key, x: Key, y: Key) returns (first: seq<OwnerTurn>)
    requires Rollable(st, p) && AllRecorded(st.ext, Out, Pairs(st.preds, p)) && FromScratch(st.ext, p)
    requires Meets(Pairs(st.preds, p), x, z, y)
    ensures WellFormedView(TransactionView(st)) && p in st.pk
    ensures LoopOk(st, st.ext, p, Out, LoopOwners(st, p, Out), first) && AllOk(first)
    ensures var mid := After(st.ext, p, Out, first);
            Present(mid, y, In, p) && !Holds(mid, y, In, p, x)
  {
    var turns := OtherDoesNot(st, p, z, x, y);
    assert st.(ext := st.ext) == st && ValidStore(st);
    hide *;
    first := FinishLoop(st, st.ext, p, Out, turns);
    var mid0, mid := After(st.ext, p, Out, turns), After(st.ext, p, Out, first);
    assert Decides(Out, y, In, x) in Owners(turns) by {
      DecidedByOwner(y, x);
    }
    DecidedAt(mid0, mid, p, Out, Owners(turns), y, In, x);
    GrewHolds(mid0, mid, p, y, In, z);
    HoldsPresent(mid, y, In, p, z);
  }

  lemma DecidedByOwner(y: Key, x: Key)
    ensures Decides(Out, y, In, x) == x && Decides(In, y, In, x) == y
  {
  }

  lemma GrewHolds(ext: Index, ext': Index, p: Key, k: Key, d: Dir, x: Key)
    requires OnlyGrew(ext, ext', p) && Holds(ext, k, d, p, x)
    ensures Holds(ext', k, d, p, x)
  {
    hide Holds;
  }

  /** The second loop: the search of `y` returns at its own entry, */
  lemma OwnEntryAgain(st: Store, p: Key, x: Key, y: Key, mid: Index) returns (turns: seq<OwnerTurn>)
    requires Rollable(st, p) && ValidStore(st.(ext := mid)) && AllRecorded(mid, In, Pairs(st.preds, p))
    requires Plus(Pairs(st.preds, p), x, y) && Present(mid, y, In, p) && !Holds(mid, y, In, p, x)
    ensures WellFormedView(TransactionView(st)) && p in st.pk
    ensures TurnsOk(st, mid, p, In, LoopOwners(st, p, In), turns) && AllOk(turns) && y in Owners(turns)
    ensures !Holds(After(mid, p, In, turns), y, In, p, x)
  {
    assert ValidStore(st);
    assert Reach(In, Pairs(st.preds, p), y, x);
    ReachingOwns(st, p, In, y, x);
    OwnerStored(st, p, In, y);
    RollableViewed(st, p);
    hide Rollable, ValidStore, WellFormedView, TurnsOk, TurnOk, After, Pairs, AllRecorded, Plus,
         Holds, Present, TurnResult, TurnFound, AllOk, Owners, Reach, LoopOwners;
    NoTurnsOk(st, mid, p, In, LoopOwners(st, p, In));
    FindsOwnEntry(st, mid, p, In, y);
    var m := SomeResult(TurnFound(st, mid, p, In, y));
    var ty := NextTurn(st, mid, p, In, [], y, m);
    NamingTurnHolds(st, mid, p, In, ty, y, x);
    turns := [] + [ty];
  }

  /** which nobody adds to any more. */
  lemma SecondLoopForgets(st: Store, p: Key, x: Key, y: Key, mid: Index) returns (second: seq<OwnerTurn>)
    requires Rollable(st, p) && ValidStore(st.(ext := mid)) && AllRecorded(mid, In, Pairs(st.preds, p))
    requires Plus(Pairs(st.preds, p), x, y) && Present(mid, y, In, p) && !Holds(mid, y, In, p, x)
    ensures WellFormedView(TransactionView(st)) && p in st.pk
    ensures LoopOk(st, mid, p, In, LoopOwners(st, p, In), second) && AllOk(second)
    ensures !Holds(After(mid, p, In, second), y, In, p, x)
  {
    var turns := OwnEntryAgain(st, p, x, y, mid);
    hide *;
    second := FinishLoop(st, mid, p, In, turns);
    assert Decides(In, y, In, x) in Owners(turns) by {
      DecidedByOwner(y, x);
    }
    DecidedAt(After(mid, p, In, turns), After(mid, p, In, second), p, In, Owners(turns), y, In, x);
  }

  /** Wherever two nodes meet otherwise than at ends, some order of the walk completes the
      rollup while the in-entry of the node they reach lacks one of them. */
  lemma InEntryForgets(st: Store, p: Key, z: Key, x: Key, y: Key) returns (run: RollupRun)
    requires Rollable(st, p) && ObjectsRecorded(st, p) && FromScratch(st.ext, p) && Meets(Pairs(st.preds, p), x, z, y)
    ensures RunOk(st, p, run) && Completes(run)
    ensures Plus(Pairs(st.preds, p), x, y) && !Holds(RunIndex(st, p, run), y, In, p, x)
  {
    assert ValidStore(st) && st.(ext := st.ext) == st;
    RollableViewed(st, p);
    ObjectsAreRecorded(st, p);
    var first := FirstLoopForgets(st, p, z, x, y);
    assert LoopOwners(st, p, Out) == Subjects(st, p) && LoopOwners(st, p, In) == Objects(st, p);
    hide Rollable, ValidStore, WellFormedView, TurnsOk, After, OnlyGrew, Pairs, AllRecorded, Holds, Plus, Subjects,
         Objects, LoopOwners, Present, OnlyReaches;
    var mid := After(st.ext, p, Out, first);
    TurnsKeep(st, st.ext, p, Out, Subjects(st, p), first);
    SubjectsAreRecorded(st, p, mid);
    var second := SecondLoopForgets(st, p, x, y, mid);
    run := RollupRun(first, second);
  }

  // ---- exactly when ----

  /** On a store not yet rolled up, every order leaves the exact closure in the in-entries if
      and only if nodes meet at ends only. */
  lemma InExactIff(st: Store, p: Key)
    requires Rollable(st, p) && ObjectsRecorded(st, p) && FromScratch(st.ext, p)
    ensures MeetOnlyAtEnds(Pairs(st.preds, p)) <==>
            forall run :: RunOk(st, p, run) ==>
                     Completes(run) && AllExact(RunIndex(st, p, run), In, p, Pairs(st.preds, p))
  {
    var e := Pairs(st.preds, p);
    hide RunOk, RunIndex, AllExact, FromScratch, Rollable, MeetOnlyAtEnds, ObjectsRecorded, Meets, Completes;
    RollableViewed(st, p);
    if MeetOnlyAtEnds(e) {
      forall run | RunOk(st, p, run)
        ensures Completes(run) && AllExact(RunIndex(st, p, run), In, p, e)
      {
        ScratchComplete(st.ext, In, p, e);
        ScratchComplete(st.ext, Out, p, e);
        InIsExact(st, p, run);
      }
    } else {
      var x, z, y := SomeMeet(e);
      var run := InEntryForgets(st, p, z, x, y);
      InNotExact(RunIndex(st, p, run), p, e, x, y);
      assert RunOk(st, p, run);
    }
  }

  lemma InNotExact(ext: Index, p: Key, e: Edges, x: Key, y: Key)
    requires Plus(e, x, y) && !Holds(ext, y, In, p, x)
    ensures !AllExact(ext, In, p, e)
  {
    assert Reach(In, e, y, x);
  }

  /** A chain of three nodes is enough: the last may never learn of the first. */
  lemma ChainForgets(st: Store, p: Key, k1: Key, k2: Key, k3: Key) returns (run: RollupRun)
    requires Rollable(st, p) && ObjectsRecorded(st, p) && FromScratch(st.ext, p)
    requires Pairs(st.preds, p) == {(k1, k2), (k2, k3)} && k1 != k2 && k2 != k3 && k1 != k3
    ensures RunOk(st, p, run) && Completes(run)
    ensures Plus(Pairs(st.preds, p), k1, k3) && !Holds(RunIndex(st, p, run), k3, In, p, k1)
  {
    var e := Pairs(st.preds, p);
    PlusEdge(e, k1, k2);
    PlusEdge(e, k2, k3);
    PlusTransitive(e, k1, k2, k3);
    assert !OnlyReaches(e, k1, k3);
    run := InEntryForgets(st, p, k2, k1, k3);
  }
}
