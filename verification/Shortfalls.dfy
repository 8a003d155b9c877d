/** Where rollups (db/transaction.go:489-583) fall short, each on a real state: searches
    diverted to another predicate, and exactly when they add entries that are not true; a
    rollup bound to abort; a chain whose last node does not learn of the first. */
module Shortfalls {
  import opened Keys
  import opened Closure
  import opened Graphs
  import opened InClosures
  import opened OutClosures
  import opened RollupLoops
  import opened RollupRuns
  import opened Rollups
  import opened Searches
  import opened Store
  import opened Uris

  // ---- diverted searches ----

  /** Every rollup of `p`, on every valid store with these tables that starts with true
      entries of `p` and in every order, leaves true entries only. */
  ghost predicate LeavesTruth(entity: map<string, Key>, pk: map<Key, string>, p: Key) {
    forall st, run :: RunBetween(st, entity, pk, p, run) && ClosureSoundAt(st.ext, p, Pairs(st.preds, p)) ==>
      ClosureSoundAt(RunIndex(st, p, run), p, Pairs(st.preds, p))
  }

  /** A rollup of `p` on a valid store with these tables. */
  ghost predicate RunBetween(st: Store, entity: map<string, Key>, pk: map<Key, string>, p: Key, run: RollupRun) {
    && ValidStore(st) && st.entity == entity && st.pk == pk && p in st.pk
    && WellFormedView(TransactionView(st)) && RunOk(st, p, run)
  }

  /** Rollups leave true entries only, whatever triples are stored, exactly when the URI
      read back for the predicate is its own or unknown. */
  lemma TrueIffUndiverted(entity: map<string, Key>, pk: map<Key, string>, p: Key)
    requires TablesInverse(entity, pk) && p in pk
    ensures LeavesTruth(entity, pk, p) <==> Undiverted(entity, pk, p)
  {
    hide ValidStore, WellFormedView, UriOf, TablesInverse, Undiverted, Pairs, RunOk, RunIndex, ClosureSoundAt;
    if Undiverted(entity, pk, p) {
      forall st, run | RunBetween(st, entity, pk, p, run)
        ensures ClosureSoundAt(RunIndex(st, p, run), p, Pairs(st.preds, p))
      {
        RollupKeeps(st, p, run);
        ValidIsTrue(st.(ext := RunIndex(st, p, run)), p);
      }
    } else {
      var st, run := DivertedRollup(entity, pk, p);
      assert RunBetween(st, entity, pk, p, run);
    }
  }

  lemma ValidIsTrue(st: Store, p: Key)
    requires ValidStore(st) && Undiverted(st.entity, st.pk, p)
    ensures ClosureSoundAt(st.ext, p, Pairs(st.preds, p))
  {
    hide UriOf;
  }

  /** The predicate that a search for `p` follows instead. */
  ghost function Target(entity: map<string, Key>, pk: map<Key, string>, p: Key): Key
    requires p in pk && !Undiverted(entity, pk, p)
  {
    entity[Bytes(UriOf(pk, p))]
  }

  lemma TargetIsOther(entity: map<string, Key>, pk: map<Key, string>, p: Key)
    requires TablesInverse(entity, pk) && p in pk && !Undiverted(entity, pk, p)
    ensures Target(entity, pk, p) != p && Target(entity, pk, p) in pk
    ensures forall st: Store :: st.entity == entity && st.pk == pk ==>
              GetHash(TransactionView(st), UriOf(pk, p)) == Some(Target(entity, pk, p))
  {
    hide UriOf;
    assert Bytes(UriOf(pk, p)) in entity;
  }

  /** Three triples: `q` has the pair (`q`, `p`) of `p`, and `p` and `q` lead to each other
      by the predicate `q`. No record has an entry. */
  ghost predicate Crossing(st: Store, entity: map<string, Key>, pk: map<Key, string>, p: Key, q: Key) {
    && ValidStore(st) && ViewsAgree(st.graph, st.preds) && WellFormedView(TransactionView(st))
    && st.entity == entity && st.pk == pk && st.ext.Keys == st.pk.Keys == st.graph.Keys
    && (forall r :: FromScratch(st.ext, r))
    && Pairs(st.preds, p) == {(q, p)} && Pairs(st.preds, q) == {(q, p), (p, q)}
  }

  lemma CrossingExists(entity: map<string, Key>, pk: map<Key, string>, p: Key, q: Key) returns (st: Store)
    requires TablesInverse(entity, pk) && p in pk && q in pk && p != q
    ensures Crossing(st, entity, pk, p, q)
  {
    var bare := BareStore(entity, pk);
    BareValid(entity, pk);
    assert bare.graph.Keys == pk.Keys == bare.ext.Keys;
    st := LayCrossing(bare, p, q);
    StoreViewWellFormed(st);
    hide ValidStore, ViewsAgree, HeadOf, Pairs, FromScratch, WellFormedView, TablesInverse;
  }

  lemma LayCrossing(bare: Store, p: Key, q: Key) returns (st: Store)
    requires ValidStore(bare) && ViewsAgree(bare.graph, bare.preds) && p in bare.graph && q in bare.graph && p != q
    requires forall r :: Pairs(bare.preds, r) == {}
    ensures ValidStore(st) && ViewsAgree(st.graph, st.preds)
    ensures Pairs(st.preds, p) == {(q, p)} && Pairs(st.preds, q) == {(q, p), (p, q)}
    ensures st == bare.(graph := st.graph, preds := st.preds) && st.graph.Keys == bare.graph.Keys
  {
    hide *;
    var one := LayPairs(bare, p, {(q, p)});
    st := LayPairs(one, q, {(q, p), (p, q)});
  }

  /** What `q` and `p` find there in place of what triples of `p` lead to. */
  lemma CrossingSearch(st: Store, ext: Index, p: Key, q: Key, d: Dir, owner: Key)
    requires Crossing(st, st.entity, st.pk, p, q) && ValidStore(st.(ext := ext)) && p in st.pk && owner in st.graph
    requires st.graph.Keys <= ext.Keys && (forall k :: !Present(ext, k, d, q))
    requires GetHash(TransactionView(st), UriOf(st.pk, p)) == Some(q)
    ensures forall x :: x in TurnFound(st, ext, p, d, owner) ==> x in ext
    ensures d == Out && owner == q ==> q in TurnFound(st, ext, p, d, owner) && p in TurnFound(st, ext, p, d, owner)
  {
    var g, n, e := TransactionView(st.(ext := ext)), st.graph[owner], DirEdges(d, {(q, p), (p, q)});
    assert WellFormedView(g) && Opened(ext, owner) == ext;
    GraphStored(st, owner);
    RelIsPairs(st, d, q);
    assert Rel(g, d, q) == Rel(TransactionView(st), d, q) == e;
    assert p in st.graph && q in st.graph;
    hide Crossing, ValidStore, ViewsAgree, UriOf, Rel;
    assert forall k :: k in g.index && q in PlusLists(g.index[k], d) ==> Present(ext, k, d, q);
    assert TurnFound(st, ext, p, d, owner) == SearchFrom(g, d, q, n).0;
    hide WellFormedView, Found;
    CrossingEdges(p, q, d, ext.Keys);
    UnindexedFindsAll(g, d, q, n);
  }

  lemma CrossingEdges(p: Key, q: Key, d: Dir, ks: set<Key>)
    requires p in ks && q in ks
    ensures var e := DirEdges(d, {(q, p), (p, q)});
            && (forall x, y :: (x, y) in e ==> y in ks) && (forall s, x :: Plus(e, s, x) ==> x in ks)
            && (d == Out ==> Plus(e, q, q) && Plus(e, q, p))
  {
    var e := DirEdges(d, {(q, p), (p, q)});
    assert forall x, y :: (x, y) in e ==> y in ks;
    forall s, x | Plus(e, s, x)
      ensures x in ks
    {
      PlusHasLastEdge(e, s, x);
    }
    if d == Out {
      PlusEdge(e, q, p);
      PlusEdge(e, p, q);
      PlusTransitive(e, q, p, q);
    }
  }

  /** A first loop of one turn: the owner `q` takes itself for reachable. */
  lemma CrossedTurn(st: Store, p: Key, q: Key) returns (t: OwnerTurn)
    requires Crossing(st, st.entity, st.pk, p, q) && p in st.pk && p != q
    requires GetHash(TransactionView(st), UriOf(st.pk, p)) == Some(q)
    ensures LoopOk(st, st.ext, p, Out, Subjects(st, p), [t]) && t.ok && q in st.graph
    ensures var ext' := After(st.ext, p, Out, [t]);
            ValidStore(st.(ext := ext')) && OnlyGrew(st.ext, ext', p) && Holds(ext', q, Out, p, q)
  {
    assert st.(ext := st.ext) == st;
    OwnersOfPair(st, p, q, p);
    forall k
      ensures !Present(st.ext, k, Out, q)
    {
      ScratchPresent(st.ext, q, k, Out);
    }
    CrossingSearch(st, st.ext, p, q, Out, q);
    OpenedHas(st.ext, q);
    assert WellFormedView(TransactionView(st)) && ValidStore(st);
    hide Crossing, Opened, ValidStore, WellFormedView, UriOf, TurnFound, TurnOk, TurnsOk, After, TurnResult,
         FromScratch, Present, Holds, Pairs, OnlyGrew, Subjects, Extended, TurnAdds, Undiverted;
    t := NamingTurn(st, st.ext, p, Out, q, p);
    OneTurnLoop(st, st.ext, p, Out, t);
    TurnKeeps(st, st.ext, p, Out, t);
    TurnHolds(st.ext, TurnResult(st.ext, p, Out, t), p, Out, q, true, TurnFound(st, st.ext, p, Out, q), Named(t.picks),
              q, q);
  }

  /** A loop over a single owner. */
  lemma OneTurnLoop(st: Store, ext: Index, p: Key, d: Dir, t: OwnerTurn)
    requires ValidStore(st.(ext := ext)) && WellFormedView(TransactionView(st)) && p in st.pk
    requires TurnOk(st, ext, p, d, t) && t.ok
    ensures LoopOk(st, ext, p, d, {t.owner}, [t]) && After(ext, p, d, [t]) == TurnResult(ext, p, d, t)
    ensures ValidStore(st.(ext := After(ext, p, d, [t]))) && OnlyGrew(ext, After(ext, p, d, [t]), p)
  {
    hide ValidStore, WellFormedView, TurnOk, TurnsOk, After, TurnResult, OnlyGrew, AllOk;
    NoTurnsOk(st, ext, p, d, {t.owner});
    OneMoreTurn(st, ext, p, d, {t.owner}, [], t);
    AfterOneMore(ext, p, d, [], t);
    assert [] + [t] == [t];
    TurnsKeep(st, ext, p, d, {t.owner}, [t]);
  }

  lemma OwnersOfPair(st: Store, p: Key, s: Key, o: Key)
    requires ValidStore(st) && Pairs(st.preds, p) == {(s, o)}
    ensures Subjects(st, p) == {s} && Objects(st, p) == {o} && s in st.graph && o in st.graph
  {
    PairEnds(st, p, s, o);
    hide ValidStore, Pairs, Subjects, Objects;
    forall k | k in Subjects(st, p)
      ensures k == s
    {
      var x := SubjectPairs(st, p, k);
    }
    forall k | k in Objects(st, p)
      ensures k == o
    {
      var x := ObjectPairs(st, p, k);
    }
  }

  /** The second loop ends as well. */
  lemma CrossedEnd(st: Store, p: Key, q: Key, mid: Index) returns (t: OwnerTurn)
    requires Crossing(st, st.entity, st.pk, p, q) && p in st.pk && p != q && ValidStore(st.(ext := mid))
    requires GetHash(TransactionView(st), UriOf(st.pk, p)) == Some(q) && OnlyGrew(st.ext, mid, p)
    ensures LoopOk(st, mid, p, In, Objects(st, p), [t]) && t.ok
    ensures OnlyGrew(mid, After(mid, p, In, [t]), p)
  {
    OwnersOfPair(st, p, q, p);
    assert st.(ext := st.ext) == st;
    StillNone(st, mid, p, q);
    CrossingSearch(st, mid, p, q, In, p);
    OpenedHas(mid, p);
    assert WellFormedView(TransactionView(st)) && ValidStore(st);
    hide Crossing, ValidStore, WellFormedView, UriOf, TurnFound, TurnOk, TurnsOk, After, TurnResult, FromScratch,
         Present, Holds, Pairs, OnlyGrew, Objects, Opened;
    var m := SomeResult(TurnFound(st, mid, p, In, p));
    t := NamingTurn(st, mid, p, In, p, m);
    OneTurnLoop(st, mid, p, In, t);
  }

  lemma OpenedHas(ext: Index, owner: Key)
    ensures ext.Keys <= Opened(ext, owner).Keys
  {
  }

  /** Turns of `p` bring no entries of `q`. */
  lemma StillNone(st: Store, ext: Index, p: Key, q: Key)
    requires ValidStore(st) && ValidStore(st.(ext := ext)) && OnlyGrew(st.ext, ext, p) && p != q
    requires FromScratch(st.ext, q)
    ensures st.ext.Keys <= ext.Keys && forall k, d :: !Present(ext, k, d, q)
  {
    ValidKeyed(st);
    ValidKeyed(st.(ext := ext));
    hide ValidStore, WellFormedView, Keyed, Holds;
    forall k, d
      ensures !Present(ext, k, d, q)
    {
      PresentHolds(ext, k, d, q);
      assert forall x :: !Holds(st.ext, k, d, q, x) by {
        forall x {
          ScratchHolds(st.ext, q, k, d, x);
        }
      }
    }
  }

  /** A rollup of a diverted predicate that ends without an error and with an entry that no
      triple of the predicate accounts for: `q` does not lead to itself. */
  lemma DivertedRollup(entity: map<string, Key>, pk: map<Key, string>, p: Key) returns (st: Store, run: RollupRun)
    requires TablesInverse(entity, pk) && p in pk && !Undiverted(entity, pk, p)
    ensures RunBetween(st, entity, pk, p, run) && Completes(run)
    ensures ClosureSoundAt(st.ext, p, Pairs(st.preds, p))
    ensures !ClosureSoundAt(RunIndex(st, p, run), p, Pairs(st.preds, p))
  {
    var q := Target(entity, pk, p);
    TargetIsOther(entity, pk, p);
    hide UriOf, Undiverted, TablesInverse, Target;
    st := CrossingExists(entity, pk, p, q);
    run := CrossingRun(st, p, q);
  }

  lemma CrossingRun(st: Store, p: Key, q: Key) returns (run: RollupRun)
    requires Crossing(st, st.entity, st.pk, p, q) && p in st.pk && p != q
    requires GetHash(TransactionView(st), UriOf(st.pk, p)) == Some(q)
    ensures RunBetween(st, st.entity, st.pk, p, run) && Completes(run)
    ensures ClosureSoundAt(st.ext, p, Pairs(st.preds, p))
    ensures !ClosureSoundAt(RunIndex(st, p, run), p, Pairs(st.preds, p))
  {
    hide UriOf;
    var tq := CrossedTurn(st, p, q);
    var mid := After(st.ext, p, Out, [tq]);
    var tp := CrossedEnd(st, p, q, mid);
    run := RollupRun([tq], [tp]);
    hide ValidStore, WellFormedView, ViewsAgree, FromScratch, LoopOk, After, OnlyGrew, Holds, ClosureSoundAt, Pairs,
         RunOk, RunIndex, Completes;
    TwoLoops(st, p, [tq], [tp]);
    GrewHolds(mid, RunIndex(st, p, run), p, q, Out, q);
    ScratchIsTrue(st.ext, p, Pairs(st.preds, p));
    NotTrue(RunIndex(st, p, run), p, q);
  }

  lemma TwoLoops(st: Store, p: Key, first: seq<OwnerTurn>, second: seq<OwnerTurn>)
    requires WellFormedView(TransactionView(st)) && p in st.pk && AllOk(first) && AllOk(second)
    requires LoopOk(st, st.ext, p, Out, Subjects(st, p), first)
    requires LoopOk(st, After(st.ext, p, Out, first), p, In, Objects(st, p), second)
    ensures var run := RollupRun(first, second);
            && RunOk(st, p, run) && Completes(run)
            && RunIndex(st, p, run) == After(After(st.ext, p, Out, first), p, In, second)
  {
    hide WellFormedView, LoopOk, After;
  }

  lemma ScratchIsTrue(ext: Index, p: Key, e: Edges)
    requires FromScratch(ext, p)
    ensures ClosureSoundAt(ext, p, e)
  {
    SoundIsHolds(ext, p, e);
    hide ClosureSoundAt;
    forall k, d, x | Holds(ext, k, d, p, x)
      ensures false
    {
      ScratchHolds(ext, p, k, d, x);
    }
  }

  lemma NotTrue(ext: Index, p: Key, q: Key)
    requires Holds(ext, q, Out, p, q) && p != q
    ensures !ClosureSoundAt(ext, p, {(q, p)})
  {
    var e := {(q, p)};
    SoundIsHolds(ext, p, e);
    hide ClosureSoundAt, Holds;
    OutReach(e, q, q);
    if Plus(e, q, q) {
      PlusHasLastEdge(e, q, q);
    }
  }

  const K1 := EMPTY_KEY.(b0 := 1)
  const K2 := EMPTY_KEY.(b0 := 2)

  /** The literal "a:b" and the qualified name a#b. */
  ghost function LiteralNames(): map<string, Key> {
    map["a:b" := K1, "a#b" := K2]
  }

  ghost function LiteralTexts(): map<Key, string> {
    map[K1 := "a:b", K2 := "a#b"]
  }

  /** With just these two names, a rollup of the literal's key follows the triples of the
      qualified name, and can leave an entry that is not true. */
  lemma LiteralIsDiverted() returns (st: Store, run: RollupRun)
    ensures var entity, pk := LiteralNames(), LiteralTexts();
            && TablesInverse(entity, pk) && K1 in pk && !Undiverted(entity, pk, K1)
            && RunBetween(st, entity, pk, K1, run) && Completes(run)
            && ClosureSoundAt(st.ext, K1, Pairs(st.preds, K1))
            && !ClosureSoundAt(RunIndex(st, K1, run), K1, Pairs(st.preds, K1))
  {
    var entity, pk := LiteralNames(), LiteralTexts();
    hide ParseURI, ValidStore, RunOk, RunIndex, ClosureSoundAt, WellFormedView, Completes;
    LiteralReadsBackElsewhere();
    assert "a:b"[1] != "a#b"[1];
    assert UriOf(pk, K1) == URI("a", "b");
    assert Bytes(UriOf(pk, K1)) == "a#b";
    st, run := DivertedRollup(entity, pk, K1);
  }

  // ---- aborted rollups ----

  /** With one non-reflexive pair and no records for its ends, every rollup aborts. */
  lemma LonePairAborts(st: Store, s: Key, p: Key, o: Key)
    requires ValidStore(st) && Readable(st.pk, p) && s != o && s !in st.ext && o !in st.ext
    requires Pairs(st.preds, p) == {(s, o)} && HasOut(st.graph, s, p, o)
    ensures AllBarren(st, p) && !ObjectsRecorded(st, p)
    ensures WellFormedView(TransactionView(st)) && p in st.pk && forall run :: RunOk(st, p, run) ==> !Completes(run)
  {
    StoreViewWellFormed(st);
    assert p in st.pk;
    hide ValidStore, Readable, Pairs, WellFormedView, RunOk, Completes;
    forall x | Plus({(s, o)}, s, x)
      ensures x == o
    {
      PlusHasLastEdge({(s, o)}, s, x);
    }
    assert Barren(st, p, s);
    hide Barren;
    forall run | RunOk(st, p, run)
      ensures !Completes(run)
    {
      BarrenAborts(st, p, run);
    }
  }

  /** All named keys, without records and triples. */
  ghost function BlankStore(entity: map<string, Key>, pk: map<Key, string>): Store {
    BareStore(entity, pk).(ext := map[])
  }

  lemma BlankValid(entity: map<string, Key>, pk: map<Key, string>)
    requires TablesInverse(entity, pk)
    ensures var st := BlankStore(entity, pk);
            ValidStore(st) && ViewsAgree(st.graph, st.preds) && forall p :: Pairs(st.preds, p) == {}
  {
    BareValid(entity, pk);
    hide TablesInverse, GraphOk, PredsOk, EdgesStored, ViewsAgree, Undiverted;
  }

  /** So a database whose only triple is not reflexive, and which has no index record yet,
      cannot be rolled up. */
  lemma FirstTripleAborts(entity: map<string, Key>, pk: map<Key, string>, s: Key, p: Key, o: Key) returns (st: Store)
    requires TablesInverse(entity, pk) && s in pk && p in pk && o in pk && s != o && Readable(pk, p)
    ensures ValidStore(st) && ViewsAgree(st.graph, st.preds) && Pairs(st.preds, p) == {(s, o)}
    ensures forall q :: q != p ==> Pairs(st.preds, q) == {}
    ensures WellFormedView(TransactionView(st)) && p in st.pk && forall run :: RunOk(st, p, run) ==> !Completes(run)
  {
    var blank := BlankStore(entity, pk);
    BlankValid(entity, pk);
    assert blank.graph.Keys == pk.Keys && blank.ext == map[];
    hide TablesInverse, ValidStore, ViewsAgree, Readable, HeadOf, RunOk, Completes, WellFormedView;
    st := InsertTwice(blank, s, p, o);
    assert HasOut(st.graph, s, p, o) by {
      PairsAre(st.preds, p);
      OneTriple(st, s, p, o);
    }
    hide Pairs;
    LonePairAborts(st, s, p, o);
  }

  lemma OneTriple(st: Store, s: Key, p: Key, o: Key)
    requires ViewsAgree(st.graph, st.preds)
    ensures HasOut(st.graph, s, p, o) <==> Has(st.preds, s, p, o)
  {
  }

  // ---- incomplete in-entries ----

  /** On a chain of three nodes a rollup may leave the last without the first. */
  lemma ChainExample(entity: map<string, Key>, pk: map<Key, string>, p: Key, k1: Key, k2: Key, k3: Key)
    returns (st: Store, run: RollupRun)
    requires TablesInverse(entity, pk) && Readable(pk, p) && k1 in pk && k2 in pk && k3 in pk
    requires k1 != k2 && k2 != k3 && k1 != k3
    ensures Situation(st, entity, pk, p, {(k1, k2), (k2, k3)}) && RunOk(st, p, run) && Completes(run)
    ensures Plus({(k1, k2), (k2, k3)}, k1, k3) && !Holds(RunIndex(st, p, run), k3, In, p, k1)
  {
    hide TablesInverse, Readable, Rollable, ObjectsRecorded, PresentComplete, HeadOf, FromScratch, RunOk, RunIndex,
         Holds;
    st := SituationWithHead(entity, pk, p, {(k1, k2), (k2, k3)}, k1, k2);
    run := ChainForgets(st, p, k1, k2, k3);
  }
}
