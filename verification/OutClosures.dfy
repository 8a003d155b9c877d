/** When a rollup leaves the exact forward closure in the index (db/transaction.go:489-583):
    for which predicates every order of the walk does, and an order that does not for every
    other predicate. */
module OutClosures {
  import opened Closure
  import opened Entities
  import opened Graphs
  import opened Keys
  import opened RollupLoops
  import opened RollupRuns
  import opened Rollups
  import opened Searches
  import opened Store
  import opened Traversal

  /** No record has an entry for the predicate yet. */
  ghost predicate FromScratch(ext: Index, p: Key) {
    forall k, d :: !Present(ext, k, d, p)
  }

  // ---- every run ends ----

  lemma ObjectsAreRecorded(st: Store, p: Key)
    requires ObjectsRecorded(st, p)
    ensures AllRecorded(st.ext, Out, Pairs(st.preds, p))
  {
    var e := Pairs(st.preds, p);
    forall k, x | Reach(Out, e, k, x) && x != k
      ensures x in st.ext
    {
      var n: nat :| n > 0 && Walk(e, k, x, n);
      EntersEnd(e, k, x, n);
    }
  }

  lemma SubjectsAreRecorded(st: Store, p: Key, ext: Index)
    requires ValidStore(st) && Subjects(st, p) <= ext.Keys
    ensures AllRecorded(ext, In, Pairs(st.preds, p))
  {
    var e := Pairs(st.preds, p);
    hide ValidStore, Subjects, Pairs;
    forall k, x | Reach(In, e, k, x) && x != k
      ensures x in ext
    {
      PlusHasFirstEdge(e, x, k);
      var m :| (x, m) in e;
      PairEnds(st, p, x, m);
    }
  }

  lemma RunCompletes(st: Store, p: Key, run: RollupRun)
    requires Rollable(st, p) && ObjectsRecorded(st, p) && RunOk(st, p, run)
    ensures Completes(run)
  {
    RollableUndiverted(st, p);
    RollableViewed(st, p);
    hide Rollable, ObjectsRecorded, Undiverted, Readable, UriOf;
    if !Completes(run) {
      IncompleteAborted(st, p, run);
      var d, owner :| Aborted(st, RunIndex(st, p, run), p, d, owner);
      AbortMeansMissing(st, RunIndex(st, p, run), p, d, owner);
    }
  }

  lemma FirstKeeps(st: Store, p: Key, run: RollupRun)
    requires Rollable(st, p) && RunOk(st, p, run) && Completes(run)
    ensures var mid := After(st.ext, p, Out, run.first);
            && ValidStore(st.(ext := mid)) && Subjects(st, p) <= mid.Keys && OnlyGrew(st.ext, mid, p)
            && AllRecorded(mid, In, Pairs(st.preds, p))
  {
    assert ValidStore(st);
    RollableViewed(st, p);
    assert st.(ext := st.ext) == st;
    hide Rollable, ValidStore, WellFormedView, TurnsOk, After, OnlyGrew, Subjects, Pairs;
    TurnsKeep(st, st.ext, p, Out, Subjects(st, p), run.first);
    SubjectsAreRecorded(st, p, After(st.ext, p, Out, run.first));
  }

  // ---- every run is exact ----

  /** What makes a rollup compute the forward closure, whatever the order: the views agree,
      the objects have records, the entries present are complete, and no siblings are lost. */
  ghost predicate RollsExactly(st: Store, p: Key) {
    && Rollable(st, p) && ObjectsRecorded(st, p) && PresentComplete(st.ext, Out, p, Pairs(st.preds, p))
    && NoSiblingLost(Pairs(st.preds, p))
  }

  lemma GrewStaysExact(st: Store, ext: Index, ext': Index, p: Key, d: Dir)
    requires Rollable(st, p) && ValidStore(st.(ext := ext')) && OnlyGrew(ext, ext', p)
    requires AllExact(ext, d, p, Pairs(st.preds, p))
    ensures AllExact(ext', d, p, Pairs(st.preds, p))
  {
    var e := Pairs(st.preds, p);
    RollableUndiverted(st, p);
    assert ClosureSoundAt(st.(ext := ext').ext, p, e);
    SoundIsHolds(ext', p, e);
    hide Rollable, ValidStore, ClosureSoundAt, Holds, Reach, Undiverted, UriOf;
  }

  /** Every run completes and leaves the forward closure, exactly, in the index. */
  lemma RunIsExact(st: Store, p: Key, run: RollupRun)
    requires RollsExactly(st, p) && RunOk(st, p, run)
    ensures Completes(run) && AllExact(RunIndex(st, p, run), Out, p, Pairs(st.preds, p))
  {
    RunCompletes(st, p, run);
    FirstKeeps(st, p, run);
    ObjectsAreRecorded(st, p);
    assert ValidStore(st) && st.(ext := st.ext) == st;
    RollableViewed(st, p);
    hide Rollable, ValidStore, WellFormedView, TurnsOk, After, OnlyGrew, Pairs, NoSiblingLost, AllExact, AllRecorded;
    var mid := After(st.ext, p, Out, run.first);
    LoopCompletes(st, st.ext, p, Out, run.first);
    TurnsKeep(st, mid, p, In, Objects(st, p), run.second);
    GrewStaysExact(st, mid, RunIndex(st, p, run), p, Out);
  }

  /** As for predicates with at most one object for each subject. */
  lemma FunctionalIsExact(st: Store, p: Key, run: RollupRun)
    requires Rollable(st, p) && ObjectsRecorded(st, p) && FromScratch(st.ext, p) && Functional(Pairs(st.preds, p))
    requires RunOk(st, p, run)
    ensures Completes(run) && AllExact(RunIndex(st, p, run), Out, p, Pairs(st.preds, p))
  {
    FunctionalLosesNothing(Pairs(st.preds, p));
    RunIsExact(st, p, run);
  }

  /** And for predicates whose objects are never subjects. */
  lemma FlatIsExact(st: Store, p: Key, run: RollupRun)
    requires Rollable(st, p) && ObjectsRecorded(st, p) && FromScratch(st.ext, p) && Flat(Pairs(st.preds, p))
    requires RunOk(st, p, run)
    ensures Completes(run) && AllExact(RunIndex(st, p, run), Out, p, Pairs(st.preds, p))
  {
    FlatLosesNothing(Pairs(st.preds, p));
    RunIsExact(st, p, run);
  }

  // ---- a run that loses a sibling ----

  /** Two siblings `a` and `b` of `s` that lose `y`. */
  ghost predicate Loses(e: Edges, s: Key, a: Key, b: Key, c: Key, y: Key) {
    && (s, a) in e && (s, b) in e && (a, c) in e && Plus(e, b, y)
    && (s, y) !in e && !Plus(e, a, y)
  }

  lemma LosesDistinct(e: Edges, s: Key, a: Key, b: Key, c: Key, y: Key)
    requires Loses(e, s, a, b, c, y)
    ensures s != a && Plus(e, s, y)
  {
    PlusEdge(e, s, b);
    PlusTransitive(e, s, b, y);
  }

  ghost predicate HeadOf(st: Store, p: Key, s: Key, a: Key) {
    s in st.graph && EdgeList(st.graph[s], Out, p) != [] && EdgeList(st.graph[s], Out, p)[0] == a
  }

  /** A search that meets an entry right after its start returns with the start's neighbours
      and that entry. */
  lemma HeadHides(g: View, p: Key, n: Node, a: Key)
    requires WellFormedView(g) && Stored(g, n) && EdgeList(n, Out, p) != [] && EdgeList(n, Out, p)[0] == a && n.pk != a
    requires n.pk in g.index && p !in g.index[n.pk].outPlus && a in g.index && p in g.index[a].outPlus
    ensures forall x :: x in SearchFrom(g, Out, p, n).0 ==> x in EdgeList(n, Out, p) || x in g.index[a].outPlus[p]
  {
    var edges := EdgeList(n, Out, p);
    StepFinds(g, Out, p, n, [], {}, {});
    assert [n] + [] == [n];
    var next := [] + NextNodes(g, edges);
    assert next[0] == g.nodes[a] && g.nodes[a].pk == a;
    var r, entry := {} + set x | x in edges, set x | x in g.index[a].outPlus[p];
    assert Searched(g, Out, p, OnePlus, next, {} + {n.pk}, r) == (r + {} + entry, true);
  }

  lemma TurnHeadHides(st: Store, ext: Index, p: Key, s: Key, a: Key)
    requires Rollable(st, p) && ValidStore(st.(ext := ext)) && HeadOf(st, p, s, a) && s != a
    requires !Present(ext, s, Out, p) && Present(ext, a, Out, p)
    ensures forall x :: x in TurnFound(st, ext, p, Out, s) ==> (s, x) in Pairs(st.preds, p) || Holds(ext, a, Out, p, x)
  {
    RollableUndiverted(st, p);
    RelIsPairs(st, Out, p);
    GraphStored(st, s);
    hide UriOf, ValidStore, Undiverted, Readable, ViewsAgree;
    var g, n := TransactionView(st.(ext := Opened(ext, s))), st.graph[s];
    assert WellFormedView(g) && Stored(g, n);
    hide WellFormedView;
    HeadHides(g, p, n, a);
    assert TurnFound(st, ext, p, Out, s) == SearchFrom(g, Out, p, n).0;
    forall x | x in SearchFrom(g, Out, p, n).0
      ensures (s, x) in Pairs(st.preds, p) || Holds(ext, a, Out, p, x)
    {
      if x in EdgeList(n, Out, p) {
        assert (s, x) in Rel(TransactionView(st), Out, p);
      }
    }
  }

  /** What the first owner's search finds before there are any entries. */
  lemma FindsNeighbour(st: Store, ext: Index, p: Key, d: Dir, owner: Key, x: Key)
    requires Rollable(st, p) && ValidStore(st.(ext := ext)) && !Present(ext, owner, d, p)
    requires if d == Out then (owner, x) in Pairs(st.preds, p) else (x, owner) in Pairs(st.preds, p)
    ensures owner in st.graph && x in TurnFound(st, ext, p, d, owner)
  {
    var st1 := st.(ext := ext);
    RollableAt(st, ext, p);
    if d == Out {
      PairEnds(st, p, owner, x);
    } else {
      PairEnds(st, p, x, owner);
    }
    assert x in EdgeList(st.graph[owner], d, p) by {
      PairsAre(st.preds, p);
      assert d == Out ==> HasOut(st.graph, owner, p, x);
      assert d == In ==> HasIn(st.graph, x, p, owner);
    }
    hide ValidStore, UriOf, ViewsAgree, WellFormedView;
    FirstFinds(st1, p, d, owner);
    assert st1.(ext := Opened(ext, owner)) == st.(ext := Opened(ext, owner));
  }

  /** An owner whose record has an entry finds that entry. */
  lemma FindsOwnEntry(st: Store, ext: Index, p: Key, d: Dir, owner: Key)
    requires Rollable(st, p) && ValidStore(st.(ext := ext)) && Present(ext, owner, d, p) && owner in st.graph
    ensures forall x :: x in TurnFound(st, ext, p, d, owner) <==> Holds(ext, owner, d, p, x)
  {
    var st1 := st.(ext := ext);
    RollableAt(st, ext, p);
    hide ValidStore, UriOf, ViewsAgree, WellFormedView;
    FirstFinds(st1, p, d, owner);
    assert st1.(ext := Opened(ext, owner)) == st.(ext := Opened(ext, owner));
  }

  /** So the first loop never extends an entry that is present: what a triple inserted later
      leads to is not added by the owner's own search. */
  lemma {:induction false} PresentStays(st: Store, ext: Index, p: Key, turns: seq<OwnerTurn>, k: Key)
    requires Rollable(st, p) && ValidStore(st.(ext := ext)) && TurnsOk(st, ext, p, Out, LoopOwners(st, p, Out), turns)
    requires Present(ext, k, Out, p)
    ensures forall x :: Holds(After(ext, p, Out, turns), k, Out, p, x) <==> Holds(ext, k, Out, p, x)
    ensures Present(After(ext, p, Out, turns), k, Out, p)
    decreases |turns|
  {
    RollableViewed(st, p);
    hide Rollable, ValidStore, WellFormedView, TurnsOk, TurnOk, After, OnlyGrew, LoopOwners, Holds, Present, TurnResult;
    if turns == [] {
      NoTurns(ext, p, Out);
    } else {
      var before, t := turns[..|turns| - 1], turns[|turns| - 1];
      LastTurn(st, ext, p, Out, LoopOwners(st, p, Out), turns);
      PresentStays(st, ext, p, before, k);
      TurnsKeep(st, ext, p, Out, LoopOwners(st, p, Out), before);
      PresentStaysOnce(st, After(ext, p, Out, before), p, t, k);
    }
  }

  lemma PresentStaysOnce(st: Store, ext: Index, p: Key, t: OwnerTurn, k: Key)
    requires Rollable(st, p) && ValidStore(st.(ext := ext)) && TurnOk(st, ext, p, Out, t) && Present(ext, k, Out, p)
    ensures forall x :: Holds(TurnResult(ext, p, Out, t), k, Out, p, x) <==> Holds(ext, k, Out, p, x)
    ensures Present(TurnResult(ext, p, Out, t), k, Out, p)
  {
    RollableViewed(st, p);
    ValidKeyed(st.(ext := ext));
    TurnKeeps(st, ext, p, Out, t);
    ValidKeyed(st.(ext := TurnResult(ext, p, Out, t)));
    hide Rollable, ValidStore, WellFormedView, TurnOk, Extended, TurnAdds, TurnResult, Holds, Present, Reach, TurnFound,
         Keyed;
    if k == t.owner {
      FindsOwnEntry(st, ext, p, Out, k);
    }
    forall x
      ensures Holds(TurnResult(ext, p, Out, t), k, Out, p, x) <==> Holds(ext, k, Out, p, x)
    {
      TurnHolds(ext, TurnResult(ext, p, Out, t), p, Out, t.owner, t.ok, TurnFound(st, ext, p, Out, t.owner),
                Named(t.picks),
                k, x);
    }
    PresentHolds(ext, k, Out, p);
    PresentHolds(TurnResult(ext, p, Out, t), k, Out, p);
  }

  lemma FoundReaches(st: Store, ext: Index, p: Key, d: Dir, owner: Key)
    requires Rollable(st, p) && ValidStore(st.(ext := ext)) && owner in st.graph
    ensures forall x :: x in TurnFound(st, ext, p, d, owner) ==> Reach(d, Pairs(st.preds, p), owner, x)
  {
    RollableUndiverted(st, p);
    OpenedValid(st, ext, p, owner);
    OpenedFoundReached(st, ext, p, d, owner);
  }

  /** What a turn that names at most `m` leaves, told by entries. */
  lemma NamingTurnHolds(st: Store, ext: Index, p: Key, d: Dir, t: OwnerTurn, k: Key, x: Key)
    requires Rollable(st, p) && ValidStore(st.(ext := ext)) && TurnOk(st, ext, p, d, t) && t.ok
    ensures t.owner in st.graph
    ensures var ext', r := TurnResult(ext, p, d, t), TurnFound(st, ext, p, d, t.owner);
            && (Holds(ext', k, d, p, x) <==> Holds(ext, k, d, p, x) || (k == t.owner && x in r))
            && (Holds(ext', k, Opposite(d), p, x) <==>
                  Holds(ext, k, Opposite(d), p, x) || (x == t.owner && k in Named(t.picks) - {t.owner}))
  {
    RollableViewed(st, p);
    TurnKeeps(st, ext, p, d, t);
    hide Rollable, ValidStore, WellFormedView, TurnOk, Extended, TurnAdds, TurnResult, Holds, Reach, TurnFound;
    TurnHolds(ext, TurnResult(ext, p, d, t), p, d, t.owner, true, TurnFound(st, ext, p, d, t.owner), Named(t.picks), k,
              x);
  }

  lemma ScratchHolds(ext: Index, p: Key, k: Key, d: Dir, x: Key)
    requires FromScratch(ext, p)
    ensures !Holds(ext, k, d, p, x)
  {
    assert !Present(ext, k, d, p);
  }

  lemma HoldsPresent(ext: Index, k: Key, d: Dir, p: Key, x: Key)
    requires Holds(ext, k, d, p, x)
    ensures Present(ext, k, d, p)
  {
  }

  /** One turn from the first owner's place: any owner whose results have records can take it
      while it names any one result. */
  lemma NextTurn(st: Store, ext: Index, p: Key, d: Dir, turns: seq<OwnerTurn>, owner: Key, m: Key)
    returns (t: OwnerTurn)
    requires Rollable(st, p) && ValidStore(st.(ext := ext)) && AllRecorded(ext, d, Pairs(st.preds, p))
    requires TurnsOk(st, ext, p, d, LoopOwners(st, p, d), turns) && AllOk(turns)
    requires owner in LoopOwners(st, p, d) - Owners(turns) && owner in st.graph
    requires var r := TurnFound(st, After(ext, p, d, turns), p, d, owner);
             r != {} ==> m in r
    ensures t.owner == owner && t.ok && TurnOk(st, After(ext, p, d, turns), p, d, t) && Named(t.picks) <= {m}
    ensures ValidStore(st.(ext := After(ext, p, d, turns)))
    ensures TurnsOk(st, ext, p, d, LoopOwners(st, p, d), turns + [t]) && AllOk(turns + [t])
    ensures Owners(turns + [t]) == Owners(turns) + {owner}
    ensures After(ext, p, d, turns + [t]) == TurnResult(After(ext, p, d, turns), p, d, t)
    ensures ValidStore(st.(ext := After(ext, p, d, turns + [t])))
  {
    hide Rollable, ValidStore, WellFormedView, AllRecorded, LoopOwners, OnlyGrew, TurnsOk, TurnOk, TurnResult, After,
         AllOk, Pairs, TurnFound, Opened, Owners;
    RollableViewed(st, p);
    var mid := After(ext, p, d, turns);
    TurnsKeep(st, ext, p, d, LoopOwners(st, p, d), turns);
    GrewKeys(ext, mid, p);
    GrewRecorded(ext, mid, d, Pairs(st.preds, p));
    FoundRecorded(st, mid, p, d, owner);
    t := NamingTurn(st, mid, p, d, owner, m);
    OneMoreTurn(st, ext, p, d, LoopOwners(st, p, d), turns, t);
    AfterOneMore(ext, p, d, turns, t);
    TurnsKeep(st, ext, p, d, LoopOwners(st, p, d), turns + [t]);
  }

  lemma NoTurnsOk(st: Store, ext: Index, p: Key, d: Dir, owners: set<Key>)
    requires WellFormedView(TransactionView(st)) && p in st.pk
    ensures TurnsOk(st, ext, p, d, owners, []) && AllOk([]) && Owners([]) == {} && After(ext, p, d, []) == ext
  {
  }

  /** The first loop: `a` has its turn before `s`, whose search returns at the entry of `a`
      and misses `y`, */
  lemma TwoTurnsMiss(st: Store, p: Key, s: Key, a: Key, c: Key, y: Key) returns (turns: seq<OwnerTurn>)
    requires Rollable(st, p) && AllRecorded(st.ext, Out, Pairs(st.preds, p)) && FromScratch(st.ext, p)
    requires HeadOf(st, p, s, a) && s != a && (s, a) in Pairs(st.preds, p) && (a, c) in Pairs(st.preds, p)
    requires (s, y) !in Pairs(st.preds, p) && !Plus(Pairs(st.preds, p), a, y)
    ensures WellFormedView(TransactionView(st)) && p in st.pk
    ensures TurnsOk(st, st.ext, p, Out, LoopOwners(st, p, Out), turns) && AllOk(turns) && s in Owners(turns)
    ensures var ext' := After(st.ext, p, Out, turns);
            !Holds(ext', s, Out, p, y) && !Holds(ext', y, In, p, s)
  {
    assert st.(ext := st.ext) == st && ValidStore(st);
    RollableViewed(st, p);
    PairEnds(st, p, a, c);
    PairEnds(st, p, s, a);
    hide Rollable, ValidStore, WellFormedView, TurnsOk, TurnOk, After, Pairs, AllRecorded, FromScratch, Plus,
         Holds, Present, TurnResult, TurnFound, HeadOf, AllOk, Owners, Reach;
    NoTurnsOk(st, st.ext, p, Out, LoopOwners(st, p, Out));
    ScratchPresent(st.ext, p, a, Out);
    FindsNeighbour(st, st.ext, p, Out, a, c);
    var ta := NextTurn(st, st.ext, p, Out, [], a, c);
    var before := [] + [ta];
    var ext1 := After(st.ext, p, Out, before);
    HeadDone(st, p, s, a, c, y, ta, ext1);
    var m := SomeResult(TurnFound(st, ext1, p, Out, s));
    var ts := NextTurn(st, st.ext, p, Out, before, s, m);
    NamingTurnHolds(st, ext1, p, Out, ts, s, y);
    NamingTurnHolds(st, ext1, p, Out, ts, y, s);
    NamedFound(st, ext1, p, Out, ts);
    turns := before + [ts];
  }

  /** and does so for good. */
  lemma FirstLoopMisses(st: Store, p: Key, s: Key, a: Key, c: Key, y: Key) returns (first: seq<OwnerTurn>)
    requires Rollable(st, p) && AllRecorded(st.ext, Out, Pairs(st.preds, p)) && FromScratch(st.ext, p)
    requires HeadOf(st, p, s, a) && s != a && (s, a) in Pairs(st.preds, p) && (a, c) in Pairs(st.preds, p)
    requires (s, y) !in Pairs(st.preds, p) && !Plus(Pairs(st.preds, p), a, y)
    ensures WellFormedView(TransactionView(st)) && p in st.pk
    ensures LoopOk(st, st.ext, p, Out, LoopOwners(st, p, Out), first) && AllOk(first)
    ensures var mid := After(st.ext, p, Out, first);
            !Holds(mid, s, Out, p, y) && !Holds(mid, y, In, p, s)
  {
    var turns := TwoTurnsMiss(st, p, s, a, c, y);
    assert st.(ext := st.ext) == st && ValidStore(st);
    hide *;
    first := FinishLoop(st, st.ext, p, Out, turns);
    StaysMissing(After(st.ext, p, Out, turns), After(st.ext, p, Out, first), p, Owners(turns), s, y);
  }

  lemma ScratchPresent(ext: Index, p: Key, k: Key, d: Dir)
    requires FromScratch(ext, p)
    ensures !Present(ext, k, d, p)
  {
  }

  lemma StaysMissing(ext: Index, ext': Index, p: Key, owners: set<Key>, s: Key, y: Key)
    requires Decided(ext, ext', p, Out, owners) && s in owners && !Holds(ext, s, Out, p, y) && !Holds(ext, y, In, p, s)
    ensures !Holds(ext', s, Out, p, y) && !Holds(ext', y, In, p, s)
  {
    hide Holds;
    assert Decides(Out, s, Out, y) == s && Decides(Out, y, In, s) == s;
  }

  /** After the sibling's turn: nothing is known of `y` at `s`, and the search of `s` will not
      find it. */
  lemma HeadDone(st: Store, p: Key, s: Key, a: Key, c: Key, y: Key, ta: OwnerTurn, ext1: Index)
    requires Rollable(st, p) && FromScratch(st.ext, p) && HeadOf(st, p, s, a) && s != a
    requires ValidStore(st.(ext := st.ext)) && ValidStore(st.(ext := ext1))
    requires TurnOk(st, st.ext, p, Out, ta) && ta.ok && ta.owner == a && ext1 == TurnResult(st.ext, p, Out, ta)
    requires c in TurnFound(st, st.ext, p, Out, a)
    requires (s, y) !in Pairs(st.preds, p) && !Plus(Pairs(st.preds, p), a, y)
    ensures s in st.graph && !Holds(ext1, s, Out, p, y) && !Holds(ext1, y, In, p, s)
    ensures y !in TurnFound(st, ext1, p, Out, s)
  {
    RollableViewed(st, p);
    TurnKeeps(st, st.ext, p, Out, ta);
    assert s in st.graph && a in st.graph;
    hide Rollable, ValidStore, WellFormedView, TurnOk, TurnResult, TurnFound, FromScratch, Holds, Extended, HeadOf,
         Reach;
    ScratchHolds(st.ext, p, s, Out, y);
    ScratchHolds(st.ext, p, y, In, s);
    NamingTurnHolds(st, st.ext, p, Out, ta, s, y);
    NamingTurnHolds(st, st.ext, p, Out, ta, y, s);
    NamingTurnHolds(st, st.ext, p, Out, ta, a, c);
    HoldsPresent(ext1, a, Out, p, c);
    NothingAt(st, p, s, ta, ext1);
    TurnHeadHides(st, ext1, p, s, a);
    ScratchHolds(st.ext, p, a, Out, y);
    NamingTurnHolds(st, st.ext, p, Out, ta, a, y);
    FoundReaches(st, st.ext, p, Out, a);
    OutReach(Pairs(st.preds, p), a, y);
  }

  lemma OutReach(e: Edges, k: Key, x: Key)
    ensures Reach(Out, e, k, x) <==> Plus(e, k, x)
  {
  }

  /** A turn gives no entry at its own end to any other record. */
  lemma NothingAt(st: Store, p: Key, s: Key, t: OwnerTurn, ext1: Index)
    requires Rollable(st, p) && FromScratch(st.ext, p) && ValidStore(st.(ext := st.ext)) && ValidStore(st.(ext := ext1))
    requires TurnOk(st, st.ext, p, Out, t) && t.ok && s != t.owner && ext1 == TurnResult(st.ext, p, Out, t)
    ensures !Present(ext1, s, Out, p)
  {
    ValidKeyed(st.(ext := ext1));
    hide Rollable, ValidStore, WellFormedView, TurnOk, TurnResult, TurnFound, FromScratch, Holds, Present, Keyed;
    PresentHolds(ext1, s, Out, p);
    if Present(ext1, s, Out, p) {
      var x :| Holds(ext1, s, Out, p, x);
      NamingTurnHolds(st, st.ext, p, Out, t, s, x);
      ScratchHolds(st.ext, p, s, Out, x);
      assert false;
    }
  }

  /** The second loop: `y` has its turn first and does not name `s`, */
  lemma NotNamedBack(st: Store, p: Key, s: Key, y: Key, mid: Index) returns (turns: seq<OwnerTurn>)
    requires Rollable(st, p) && ValidStore(st.(ext := mid)) && AllRecorded(mid, In, Pairs(st.preds, p))
    requires (s, y) !in Pairs(st.preds, p) && Plus(Pairs(st.preds, p), s, y)
    requires !Holds(mid, s, Out, p, y) && !Holds(mid, y, In, p, s)
    ensures WellFormedView(TransactionView(st)) && p in st.pk
    ensures TurnsOk(st, mid, p, In, LoopOwners(st, p, In), turns) && AllOk(turns) && y in Owners(turns)
    ensures !Holds(After(mid, p, In, turns), s, Out, p, y)
  {
    var e := Pairs(st.preds, p);
    assert ValidStore(st);
    RollableViewed(st, p);
    PlusHasLastEdge(e, s, y);
    var z :| (z, y) in e;
    PairEnds(st, p, z, y);
    hide Rollable, ValidStore, WellFormedView, TurnsOk, TurnOk, After, Pairs, AllRecorded,
         Holds, Present, TurnResult, TurnFound, AllOk, Owners, Plus, Star;
    NoTurnsOk(st, mid, p, In, LoopOwners(st, p, In));
    var r := TurnFound(st, mid, p, In, y);
    var m := SomeResult(r);
    if Present(mid, y, In, p) {
      FindsOwnEntry(st, mid, p, In, y);
    } else {
      FindsNeighbour(st, mid, p, In, y, z);
      m := z;
    }
    var ty := NextTurn(st, mid, p, In, [], y, m);
    NamingTurnHolds(st, mid, p, In, ty, s, y);
    NamedFound(st, mid, p, In, ty);
    turns := [] + [ty];
  }

  /** and then no other owner does. */
  lemma SecondLoopMisses(st: Store, p: Key, s: Key, y: Key, mid: Index) returns (second: seq<OwnerTurn>)
    requires Rollable(st, p) && ValidStore(st.(ext := mid)) && AllRecorded(mid, In, Pairs(st.preds, p))
    requires (s, y) !in Pairs(st.preds, p) && Plus(Pairs(st.preds, p), s, y)
    requires !Holds(mid, s, Out, p, y) && !Holds(mid, y, In, p, s)
    ensures WellFormedView(TransactionView(st)) && p in st.pk
    ensures LoopOk(st, mid, p, In, LoopOwners(st, p, In), second) && AllOk(second)
    ensures !Holds(After(mid, p, In, second), s, Out, p, y)
  {
    var turns := NotNamedBack(st, p, s, y, mid);
    hide *;
    second := FinishLoop(st, mid, p, In, turns);
    assert Decides(In, s, Out, y) in Owners(turns) by {
      DecidedByListed(s, y);
    }
    DecidedAt(After(mid, p, In, turns), After(mid, p, In, second), p, In, Owners(turns), s, Out, y);
  }

  lemma DecidedByListed(s: Key, y: Key)
    ensures Decides(In, s, Out, y) == y
  {
  }

  lemma DecidedAt(ext: Index, ext': Index, p: Key, d: Dir, owners: set<Key>, k: Key, c: Dir, x: Key)
    requires Decided(ext, ext', p, d, owners) && Decides(d, k, c, x) in owners
    ensures Holds(ext', k, c, p, x) <==> Holds(ext, k, c, p, x)
  {
    hide Holds;
  }

  lemma NamedFound(st: Store, ext: Index, p: Key, d: Dir, t: OwnerTurn)
    requires Rollable(st, p) && ValidStore(st.(ext := ext)) && TurnOk(st, ext, p, d, t)
    ensures t.owner in st.graph && Named(t.picks) <= TurnFound(st, ext, p, d, t.owner)
  {
    RollableViewed(st, p);
    TurnKeeps(st, ext, p, d, t);
  }

  /** Wherever siblings are lost and one of them heads the list, some order of the walk
      completes the rollup without the lost node. */
  lemma SiblingLost(st: Store, p: Key, s: Key, a: Key, b: Key, c: Key, y: Key) returns (run: RollupRun)
    requires Rollable(st, p) && ObjectsRecorded(st, p) && FromScratch(st.ext, p)
    requires Loses(Pairs(st.preds, p), s, a, b, c, y)
    requires HeadOf(st, p, s, a)
    ensures RunOk(st, p, run) && Completes(run)
    ensures Plus(Pairs(st.preds, p), s, y) && !Holds(RunIndex(st, p, run), s, Out, p, y)
  {
    assert ValidStore(st) && st.(ext := st.ext) == st;
    RollableViewed(st, p);
    LosesDistinct(Pairs(st.preds, p), s, a, b, c, y);
    ObjectsAreRecorded(st, p);
    var first := FirstLoopMisses(st, p, s, a, c, y);
    hide Rollable, ValidStore, WellFormedView, TurnsOk, After, OnlyGrew, Pairs, AllRecorded, Holds, Plus, Subjects,
         Objects;
    var mid := After(st.ext, p, Out, first);
    TurnsKeep(st, st.ext, p, Out, Subjects(st, p), first);
    SubjectsAreRecorded(st, p, mid);
    var second := SecondLoopMisses(st, p, s, y, mid);
    run := RollupRun(first, second);
  }

  // ---- a store for every set of pairs ----

  /** All keys named, all with records, and no triples. */
  function BareStore(entity: map<string, Key>, pk: map<Key, string>): Store {
    Store(entity, pk, map k | k in pk :: Node(k, map[], map[]), map k | k in pk :: EmptyRecord(k), map[])
  }

  lemma BareValid(entity: map<string, Key>, pk: map<Key, string>)
    requires TablesInverse(entity, pk)
    ensures var st := BareStore(entity, pk);
            && ValidStore(st) && ViewsAgree(st.graph, st.preds)
            && forall p :: FromScratch(st.ext, p) && Pairs(st.preds, p) == {}
  {
    hide UriOf;
  }

  /** A triple inserted once more if it is reflexive keeps the views in step. */
  lemma InsertTwice(st: Store, s: Key, p: Key, o: Key) returns (st': Store)
    requires ValidStore(st) && ViewsAgree(st.graph, st.preds) && s in st.graph && o in st.graph
    ensures ValidStore(st') && ViewsAgree(st'.graph, st'.preds) && Pairs(st'.preds, p) == Pairs(st.preds, p) + {(s, o)}
    ensures st' == st.(graph := st'.graph, preds := st'.preds) && st'.graph.Keys == st.graph.Keys
    ensures forall r :: r != p ==> Pairs(st'.preds, r) == Pairs(st.preds, r)
    ensures forall k, a :: HeadOf(st, p, k, a) ==> HeadOf(st', p, k, a)
    ensures s != o && Pairs(st.preds, p) == {} ==> HeadOf(st', p, s, o)
  {
    var once := InsertTriple(st, s, p, o);
    InsertTripleValid(st, s, p, o);
    InsertEdgesMeaning(st.graph, s, p, o);
    InsertTripleValid(once, s, p, o);
    st' := InsertTriple(once, s, p, o);
    hide ValidStore;
    TwiceAgrees(st.graph, st.preds, s, p, o);
    forall r
      ensures Pairs(st'.preds, r) == if r == p then Pairs(st.preds, r) + {(s, o)} else Pairs(st.preds, r)
    {
      TwicePairs(st.preds, s, p, o, r);
    }
    InsertEdgesMeaning(once.graph, s, p, o);
    forall k, a | HeadOf(st, p, k, a)
      ensures HeadOf(st', p, k, a)
    {
      HeadKept(st, s, p, o, k, a);
      HeadKept(once, s, p, o, k, a);
    }
    if s != o && Pairs(st.preds, p) == {} {
      FirstHeads(st, s, p, o);
      HeadKept(once, s, p, o, s, o);
    }
  }

  lemma TwiceAgrees(graph: map<Key, Node>, preds: map<Key, PredRecord>, s: Key, p: Key, o: Key)
    requires ViewsAgree(graph, preds) && s in graph && o in graph
    ensures var graph1, preds1 := InsertEdges(graph, s, p, o), InsertPair(preds, p, s, o);
            && graph1.Keys == graph.Keys
            && ViewsAgree(InsertEdges(graph1, s, p, o), InsertPair(preds1, p, s, o))
  {
    var graph1, preds1 := InsertEdges(graph, s, p, o), InsertPair(preds, p, s, o);
    InsertEdgesMeaning(graph, s, p, o);
    InsertPairMeaning(preds, p, s, o);
    InsertEdgesMeaning(graph1, s, p, o);
    InsertPairMeaning(preds1, p, s, o);
    hide InsertEdges, InsertPair, HasOut, HasIn, Has;
  }

  lemma TwicePairs(preds: map<Key, PredRecord>, s: Key, p: Key, o: Key, r: Key)
    ensures var preds2 := InsertPair(InsertPair(preds, p, s, o), p, s, o);
            Pairs(preds2, r) == if r == p then Pairs(preds, r) + {(s, o)} else Pairs(preds, r)
  {
    var preds1 := InsertPair(preds, p, s, o);
    var preds2 := InsertPair(preds1, p, s, o);
    InsertPairMeaning(preds, p, s, o);
    InsertPairMeaning(preds1, p, s, o);
    PairsAre(preds, r);
    PairsAre(preds2, r);
    hide InsertPair, Pairs, Has;
    forall pair
      ensures pair in Pairs(preds2, r) <==> pair in Pairs(preds, r) || (r == p && pair == (s, o))
    {
      var (a, b) := pair;
      assert (a, b) in Pairs(preds2, r) <==> Has(preds2, a, r, b);
      assert (a, b) in Pairs(preds, r) <==> Has(preds, a, r, b);
    }
  }

  lemma HeadKept(st: Store, s: Key, p: Key, o: Key, k: Key, a: Key)
    requires s in st.graph && o in st.graph && HeadOf(st, p, k, a)
    ensures HeadOf(InsertTriple(st, s, p, o), p, k, a)
  {
  }

  lemma FirstHeads(st: Store, s: Key, p: Key, o: Key)
    requires s in st.graph && o in st.graph && s != o && ViewsAgree(st.graph, st.preds) && Pairs(st.preds, p) == {}
    ensures HeadOf(InsertTriple(st, s, p, o), p, s, o)
  {
    var list := ListOf(st.graph[s].outEdges, p);
    assert list != [] ==> HasOut(st.graph, s, p, list[0]);
    PairsAre(st.preds, p);
  }

  /** All the pairs of `e`, and nothing else of the predicate, added to a store. */
  lemma {:induction false} LayPairs(st: Store, p: Key, e: Edges) returns (st': Store)
    requires ValidStore(st) && ViewsAgree(st.graph, st.preds)
    requires forall s, o :: (s, o) in e ==> s in st.graph && o in st.graph
    ensures ValidStore(st') && ViewsAgree(st'.graph, st'.preds) && Pairs(st'.preds, p) == Pairs(st.preds, p) + e
    ensures st' == st.(graph := st'.graph, preds := st'.preds) && st'.graph.Keys == st.graph.Keys
    ensures forall r :: r != p ==> Pairs(st'.preds, r) == Pairs(st.preds, r)
    ensures forall k, a :: HeadOf(st, p, k, a) ==> HeadOf(st', p, k, a)
    decreases e
  {
    hide ValidStore, ViewsAgree, HeadOf, Pairs;
    st' := st;
    if e != {} {
      var pair :| pair in e;
      assert pair == (pair.0, pair.1);
      var more := InsertTwice(st, pair.0, p, pair.1);
      st' := LayPairs(more, p, e - {pair});
      assert {pair} + (e - {pair}) == e;
    }
  }

  // ---- exactly when ----

  /** A store with these names and these pairs of the predicate, on which a rollup starts
      with records for all objects and from complete entries. */
  ghost predicate Situation(st: Store, entity: map<string, Key>, pk: map<Key, string>, p: Key, e: Edges) {
    && st.entity == entity && st.pk == pk && Rollable(st, p) && Pairs(st.preds, p) == e
    && ObjectsRecorded(st, p) && PresentComplete(st.ext, Out, p, e)
  }

  /** Such a store, not yet rolled up, with a pair of one's choice at the head of its list. */
  lemma SituationWithHead(entity: map<string, Key>, pk: map<Key, string>, p: Key, e: Edges, s: Key, a: Key)
    returns (st: Store)
    requires TablesInverse(entity, pk) && Readable(pk, p) && (forall x, y :: (x, y) in e ==> x in pk && y in pk)
    requires (s, a) in e && s != a
    ensures Situation(st, entity, pk, p, e) && HeadOf(st, p, s, a) && FromScratch(st.ext, p)
  {
    var bare := BareStore(entity, pk);
    BareValid(entity, pk);
    assert forall k :: k in pk ==> k in bare.graph;
    st := LayFrom(bare, p, e, s, a);
    hide *;
    StoreViewWellFormed(st);
    ScratchComplete(st.ext, Out, p, e);
    LaidOut(st, bare, entity, pk, p, e);
  }

  lemma LayFrom(bare: Store, p: Key, e: Edges, s: Key, a: Key) returns (st: Store)
    requires ValidStore(bare) && ViewsAgree(bare.graph, bare.preds) && Pairs(bare.preds, p) == {}
    requires FromScratch(bare.ext, p)
    requires (s, a) in e && s != a && forall x, y :: (x, y) in e ==> x in bare.graph && y in bare.graph
    ensures ValidStore(st) && ViewsAgree(st.graph, st.preds) && Pairs(st.preds, p) == e && HeadOf(st, p, s, a)
    ensures st == bare.(graph := st.graph, preds := st.preds) && FromScratch(st.ext, p)
  {
    hide *;
    var one := InsertTwice(bare, s, p, a);
    st := LayPairs(one, p, e);
    assert {} + {(s, a)} + e == e;
  }

  lemma LaidOut(st: Store, bare: Store, entity: map<string, Key>, pk: map<Key, string>, p: Key, e: Edges)
    requires bare == BareStore(entity, pk) && st == bare.(graph := st.graph, preds := st.preds) && Readable(pk, p)
    requires ValidStore(st) && ViewsAgree(st.graph, st.preds) && WellFormedView(TransactionView(st))
    requires Pairs(st.preds, p) == e
    requires (forall x, y :: (x, y) in e ==> x in pk && y in pk) && PresentComplete(st.ext, Out, p, e)
    ensures Situation(st, entity, pk, p, e)
  {
    hide ValidStore, ViewsAgree, Pairs, UriOf, WellFormedView, PresentComplete;
    assert st.ext.Keys == pk.Keys && st.pk == pk && st.entity == entity;
  }

  lemma ScratchComplete(ext: Index, d: Dir, p: Key, e: Edges)
    requires FromScratch(ext, p)
    ensures PresentComplete(ext, d, p, e)
  {
  }

  /** Every rollup of these pairs, on every store and in every order, completes and leaves
      their exact closure in the out-entries if and only if no siblings are lost. */
  lemma OutExactIff(entity: map<string, Key>, pk: map<Key, string>, p: Key, e: Edges)
    requires TablesInverse(entity, pk) && Readable(pk, p) && forall x, y :: (x, y) in e ==> x in pk && y in pk
    ensures NoSiblingLost(e) <==>
            forall st, run :: Situation(st, entity, pk, p, e) && RunOk(st, p, run) ==>
              Completes(run) && AllExact(RunIndex(st, p, run), Out, p, e)
  {
    hide Readable, RunOk, RunIndex, AllExact, HeadOf, FromScratch, TablesInverse;
    if NoSiblingLost(e) {
      forall st, run | Situation(st, entity, pk, p, e) && RunOk(st, p, run)
        ensures Completes(run) && AllExact(RunIndex(st, p, run), Out, p, e)
      {
        hide Rollable, NoSiblingLost;
        RunIsExact(st, p, run);
      }
    } else {
      var s, a, b, c, y := SomeLost(e);
      LosesDistinct(e, s, a, b, c, y);
      var st := SituationWithHead(entity, pk, p, e, s, a);
      hide Rollable, NoSiblingLost, Loses, ObjectsRecorded, PresentComplete;
      var run := SiblingLost(st, p, s, a, b, c, y);
      assert !AllExact(RunIndex(st, p, run), Out, p, e) by {
        NotExact(RunIndex(st, p, run), p, e, s, y);
      }
      assert Situation(st, entity, pk, p, e) && RunOk(st, p, run);
    }
  }

  lemma SomeLost(e: Edges) returns (s: Key, a: Key, b: Key, c: Key, y: Key)
    requires !NoSiblingLost(e)
    ensures Loses(e, s, a, b, c, y)
  {
    hide Plus;
    s, a, b, c, y :| (s, a) in e && (s, b) in e && (a, c) in e && Plus(e, b, y) && (s, y) !in e && !Plus(e, a, y);
  }

  lemma NotExact(ext: Index, p: Key, e: Edges, s: Key, y: Key)
    requires Plus(e, s, y) && !Holds(ext, s, Out, p, y)
    ensures !AllExact(ext, Out, p, e)
  {
    assert Reach(Out, e, s, y);
  }
}
