/** What every run of a rollup keeps, and when runs complete (db/transaction.go:489-583). */
module RollupRuns {
  import opened Closure
  import opened Entities
  import opened Graphs
  import opened Keys
  import opened Rollups
  import opened Searches
  import opened Store
  import opened Traversal

  // ---- every run leaves a valid store ----

  /** Records are only added, and entries of other predicates stay as they are. */
  ghost predicate OnlyGrew(ext: Index, ext': Index, p: Key) {
    && ext.Keys <= ext'.Keys
    && (forall k, d, q, x :: q != p ==> (Holds(ext', k, d, q, x) <==> Holds(ext, k, d, q, x)))
    && forall k, d, x :: Holds(ext, k, d, p, x) ==> Holds(ext', k, d, p, x)
  }

  /** Additions that triples of the predicate account for. */
  ghost predicate AddsSound(adds: Additions, e: Edges) {
    forall d, k, x :: (d, k, x) in adds ==> Reach(d, e, k, x)
  }

  lemma SoundIsHolds(ext: Index, p: Key, e: Edges)
    ensures ClosureSoundAt(ext, p, e) <==> forall k, d, x :: Holds(ext, k, d, p, x) ==> Reach(d, e, k, x)
  {
    if ClosureSoundAt(ext, p, e) {
      forall k, d, x | Holds(ext, k, d, p, x)
        ensures Reach(d, e, k, x)
      {
        assert RecordSound(ext[k], k, p, e);
      }
    }
    if forall k, d, x :: Holds(ext, k, d, p, x) ==> Reach(d, e, k, x) {
      forall k | k in ext
        ensures RecordSound(ext[k], k, p, e)
      {
        forall x | x in ListOf(ext[k].outPlus, p)
          ensures Plus(e, k, x)
        {
          assert Holds(ext, k, Out, p, x);
        }
        forall x | x in ListOf(ext[k].inPlus, p)
          ensures Plus(e, x, k)
        {
          assert Holds(ext, k, In, p, x);
        }
      }
    }
  }

  lemma ValidKeyed(st: Store)
    requires ValidStore(st)
    ensures Keyed(st.ext) && WellFormedView(TransactionView(st))
  {
    StoreViewWellFormed(st);
  }

  lemma ExtendedGrew(ext: Index, ext': Index, p: Key, adds: Additions, records: set<Key>)
    requires Extended(ext, ext', p, adds, records)
    ensures OnlyGrew(ext, ext', p) && Keyed(ext')
  {
  }

  lemma GrewGrew(a: Index, b: Index, c: Index, p: Key)
    requires OnlyGrew(a, b, p) && OnlyGrew(b, c, p)
    ensures OnlyGrew(a, c, p)
  {
    hide Holds;
  }

  lemma ExtendedExtOk(ext: Index, ext': Index, pk: map<Key, string>, p: Key, adds: Additions, records: set<Key>)
    requires ExtOk(ext, pk) && Extended(ext, ext', p, adds, records) && p in pk
    ensures ExtOk(ext', pk)
  {
    assert Keyed(ext);
    forall k, q | k in ext' && (q in ext'[k].outPlus || q in ext'[k].inPlus)
      ensures q in pk
    {
      var d := if q in ext'[k].outPlus then Out else In;
      assert Present(ext', k, d, q);
      PresentHolds(ext', k, d, q);
      var x :| Holds(ext', k, d, q, x);
      if q != p {
        assert Holds(ext, k, d, q, x);
        PresentHolds(ext, k, d, q);
      }
    }
  }

  /** Sound additions keep a store valid. */
  lemma ExtendedValid(st: Store, ext': Index, p: Key, adds: Additions, records: set<Key>)
    requires ValidStore(st) && p in st.pk && Extended(st.ext, ext', p, adds, records)
    requires Undiverted(st.entity, st.pk, p) ==> AddsSound(adds, Pairs(st.preds, p))
    ensures ValidStore(st.(ext := ext'))
  {
    ExtendedExtOk(st.ext, ext', st.pk, p, adds, records);
    hide TablesInverse, GraphOk, PredsOk, EdgesStored, ExtOk, Undiverted, ClosureSoundAt, Keyed, Holds, Pairs;
    forall q | Undiverted(st.entity, st.pk, q)
      ensures ClosureSoundAt(ext', q, Pairs(st.preds, q))
    {
      SoundIsHolds(st.ext, q, Pairs(st.preds, q));
      SoundIsHolds(ext', q, Pairs(st.preds, q));
    }
  }

  /** Unless it is diverted, an owner's search finds only what it reaches. */
  lemma FoundReached(st: Store, p: Key, d: Dir, owner: Key)
    requires ValidStore(st) && p in st.pk && owner in st.graph && Undiverted(st.entity, st.pk, p)
    requires WellFormedView(TransactionView(st))
    ensures forall x :: x in Found(st, st.ext, p, d, owner) ==> Reach(d, Pairs(st.preds, p), owner, x)
  {
    var g, e := TransactionView(st), Pairs(st.preds, p);
    assert st.(ext := st.ext) == st;
    if GetHash(g, UriOf(st.pk, p)).Some? {
      assert GetHash(g, UriOf(st.pk, p)) == Some(p);
      assert ClosureSoundAt(st.ext, p, e);
      RelIsPairs(st, d, p);
      IndexSoundInView(st, d, p, e);
      hide ValidStore, UriOf, Undiverted, WellFormedView;
      assert Stored(g, st.graph[owner]) by {
        GraphStored(st, owner);
      }
      var f := DirEdges(d, e);
      SearchedSound(g, d, p, f, owner, [st.graph[owner]], {}, {});
      forall x | x in SearchFrom(g, d, p, st.graph[owner]).0
        ensures Reach(d, e, owner, x)
      {
        ReachIsPlus(d, e, owner, x);
      }
    }
  }

  lemma GraphStored(st: Store, k: Key)
    requires WellFormedView(TransactionView(st)) && k in st.graph
    ensures Stored(TransactionView(st), st.graph[k]) && st.graph[k].pk == k
  {
  }

  lemma OpenedValid(st: Store, ext: Index, p: Key, owner: Key)
    requires ValidStore(st.(ext := ext)) && p in st.pk
    ensures ValidStore(st.(ext := Opened(ext, owner)))
  {
    var st1 := st.(ext := ext);
    assert Keyed(ext) by {
      ValidKeyed(st1);
    }
    OpenedEffect(ext, p, owner);
    hide ValidStore;
    ExtendedValid(st1, Opened(ext, owner), p, iset{}, {owner});
    assert st1.(ext := Opened(ext, owner)) == st.(ext := Opened(ext, owner));
  }

  lemma TurnAddsSound(e: Edges, d: Dir, owner: Key, ok: bool, r: set<Key>, named: set<Key>)
    requires named <= r && forall x :: x in r ==> Reach(d, e, owner, x)
    ensures AddsSound(TurnAdds(d, owner, ok, r, named), e)
  {
  }

  /** What a turn does, and that it keeps the store valid. */
  lemma TurnKeeps(st: Store, ext: Index, p: Key, d: Dir, t: OwnerTurn)
    requires ValidStore(st.(ext := ext)) && WellFormedView(TransactionView(st)) && p in st.pk
    requires TurnOk(st, ext, p, d, t)
    ensures ValidStore(st.(ext := TurnResult(ext, p, d, t))) && t.owner in st.graph
    ensures Undiverted(st.entity, st.pk, p) ==>
              forall x :: x in TurnFound(st, ext, p, d, t.owner) ==> Reach(d, Pairs(st.preds, p), t.owner, x)
    ensures var r := TurnFound(st, ext, p, d, t.owner);
            && Named(t.picks) <= r
            && Extended(ext, TurnResult(ext, p, d, t), p, TurnAdds(d, t.owner, t.ok, r, Named(t.picks)), {t.owner})
  {
    var st1, r, named := st.(ext := ext), TurnFound(st, ext, p, d, t.owner), Named(t.picks);
    ValidKeyed(st1);
    TurnEffect(st, ext, p, d, t);
    OpenedValid(st, ext, p, t.owner);
    var e := Pairs(st.preds, p);
    hide ValidStore, TurnOk, Extended, TurnAdds, Undiverted, TurnResult, Pairs;
    if Undiverted(st.entity, st.pk, p) {
      OpenedFoundReached(st, ext, p, d, t.owner);
      TurnAddsSound(e, d, t.owner, t.ok, r, named);
    }
    ExtendedValid(st1, TurnResult(ext, p, d, t), p, TurnAdds(d, t.owner, t.ok, r, named), {t.owner});
    assert st1.(ext := TurnResult(ext, p, d, t)) == st.(ext := TurnResult(ext, p, d, t));
  }

  lemma OpenedFoundReached(st: Store, ext: Index, p: Key, d: Dir, owner: Key)
    requires ValidStore(st.(ext := Opened(ext, owner))) && WellFormedView(TransactionView(st)) && p in st.pk
    requires owner in st.graph && Undiverted(st.entity, st.pk, p)
    ensures forall x :: x in TurnFound(st, ext, p, d, owner) ==> Reach(d, Pairs(st.preds, p), owner, x)
  {
    var st1 := st.(ext := Opened(ext, owner));
    assert WellFormedView(TransactionView(st1));
    FoundReached(st1, p, d, owner);
    hide ValidStore, WellFormedView, UriOf, Undiverted, Pairs;
    assert st.(ext := Opened(ext, owner)) == st1 && st1.(ext := st1.ext) == st1;
  }

  lemma {:induction false} TurnsKeep(st: Store, ext: Index, p: Key, d: Dir, owners: set<Key>, turns: seq<OwnerTurn>)
    requires ValidStore(st.(ext := ext)) && WellFormedView(TransactionView(st)) && p in st.pk
    requires TurnsOk(st, ext, p, d, owners, turns)
    ensures ValidStore(st.(ext := After(ext, p, d, turns))) && OnlyGrew(ext, After(ext, p, d, turns), p)
    ensures Owners(turns) <= After(ext, p, d, turns).Keys && Owners(turns) <= owners
    decreases |turns|
  {
    hide ValidStore, WellFormedView, OnlyGrew, TurnOk;
    if turns == [] {
      NothingGrew(ext, p);
    } else {
      var before, t := turns[..|turns| - 1], turns[|turns| - 1];
      TurnsKeep(st, ext, p, d, owners, before);
      var mid := After(ext, p, d, before);
      TurnKeeps(st, mid, p, d, t);
      ExtendedGrew(mid, TurnResult(mid, p, d, t), p,
                   TurnAdds(d, t.owner, t.ok, TurnFound(st, mid, p, d, t.owner), Named(t.picks)), {t.owner});
      GrewGrew(ext, mid, TurnResult(mid, p, d, t), p);
      GrewKeys(mid, TurnResult(mid, p, d, t), p);
      OwnersMore(turns);
    }
  }

  lemma NothingGrew(ext: Index, p: Key)
    ensures OnlyGrew(ext, ext, p)
  {
  }

  lemma GrewKeys(ext: Index, ext': Index, p: Key)
    requires OnlyGrew(ext, ext', p)
    ensures ext.Keys <= ext'.Keys
  {
  }

  lemma OwnersMore(turns: seq<OwnerTurn>)
    requires turns != []
    ensures Owners(turns) == Owners(turns[..|turns| - 1]) + {turns[|turns| - 1].owner}
  {
    assert turns == turns[..|turns| - 1] + [turns[|turns| - 1]];
  }

  /** A rollup, finished or aborted, in any order, leaves a valid store in which only the
      entries of its predicate have grown. */
  lemma RollupKeeps(st: Store, p: Key, run: RollupRun)
    requires ValidStore(st) && p in st.pk && WellFormedView(TransactionView(st)) && RunOk(st, p, run)
    ensures ValidStore(st.(ext := RunIndex(st, p, run))) && OnlyGrew(st.ext, RunIndex(st, p, run), p)
  {
    hide ValidStore, WellFormedView, TurnsOk, OnlyGrew;
    assert st.(ext := st.ext) == st;
    TurnsKeep(st, st.ext, p, Out, Subjects(st, p), run.first);
    if AllOk(run.first) {
      TurnsKeep(st, After(st.ext, p, Out, run.first), p, In, Objects(st, p), run.second);
    } else {
      NothingGrew(After(st.ext, p, Out, run.first), p);
    }
    GrewGrew(st.ext, After(st.ext, p, Out, run.first), RunIndex(st, p, run), p);
  }

  // ---- completing and aborting ----

  /** Every object has an index record, except perhaps at reflexive pairs. */
  ghost predicate ObjectsRecorded(st: Store, p: Key) {
    forall s, o :: (s, o) in Pairs(st.preds, p) && s != o ==> o in st.ext
  }

  /** Something that the owner's search found has no index record. */
  ghost predicate Blocked(st: Store, ext: Index, p: Key, d: Dir, owner: Key) {
    exists x :: x !in ext && (Undiverted(st.entity, st.pk, p) ==> Reach(d, Pairs(st.preds, p), owner, x))
  }

  /** An aborted rollup met a result without a record: from a subject, or, when all
      subjects had records, from an object. */
  ghost predicate Aborted(st: Store, ext: Index, p: Key, d: Dir, owner: Key) {
    && owner in ext && st.ext.Keys <= ext.Keys && Blocked(st, ext, p, d, owner)
    && (d == In ==> forall s, o :: (s, o) in Pairs(st.preds, p) ==> s in ext)
  }

  /** A path that ends away from its start enters its end from another node. */
  lemma {:induction false} EntersEnd(e: Edges, s: Key, x: Key, n: nat)
    requires Walk(e, s, x, n) && s != x
    ensures exists y :: (y, x) in e && y != x
    decreases n
  {
    if n > 0 {
      var m :| (s, m) in e && Walk(e, m, x, n - 1);
      if m != x {
        EntersEnd(e, m, x, n - 1);
      }
    }
  }

  /** With records for all objects no rollup aborts, whatever the predicate's shape, the
      index entries and the order of the walk. */
  lemma AbortMeansMissing(st: Store, ext: Index, p: Key, d: Dir, owner: Key)
    requires Aborted(st, ext, p, d, owner) && Undiverted(st.entity, st.pk, p)
    ensures !ObjectsRecorded(st, p)
  {
    hide Undiverted;
    var e := Pairs(st.preds, p);
    var x :| x !in ext && Reach(d, e, owner, x);
    if d == Out {
      var n: nat :| n > 0 && Walk(e, owner, x, n);
      EntersEnd(e, owner, x, n);
    } else {
      PlusHasFirstEdge(e, x, owner);
    }
  }

  /** A failed turn met a result without a record. */
  lemma FailedTurn(st: Store, ext: Index, p: Key, d: Dir, t: OwnerTurn)
    requires ValidStore(st.(ext := ext)) && WellFormedView(TransactionView(st)) && p in st.pk
    requires TurnOk(st, ext, p, d, t) && !t.ok
    ensures t.owner in TurnResult(ext, p, d, t) && Blocked(st, TurnResult(ext, p, d, t), p, d, t.owner)
  {
    TurnKeeps(st, ext, p, d, t);
    var loaded, r := Opened(ext, t.owner), TurnFound(st, ext, p, d, t.owner);
    var x :| x in Rest(t.picks, r) && x !in loaded;
    RestShrinks(t.picks, loaded.Keys, r);
    hide ValidStore, WellFormedView, Undiverted, TurnOk;
    assert TurnResult(ext, p, d, t).Keys == ext.Keys + {t.owner};
    assert x in r && x !in TurnResult(ext, p, d, t);
  }

  /** A pair's ends are a subject and an object, and stored. */
  lemma PairEnds(st: Store, p: Key, s: Key, o: Key)
    requires ValidStore(st) && (s, o) in Pairs(st.preds, p)
    ensures s in Subjects(st, p) && o in Objects(st, p) && s in st.graph && o in st.graph
  {
    hide TablesInverse, GraphOk, EdgesStored, ExtOk, ClosureSound;
    PairsAre(st.preds, p);
    assert Has(st.preds, s, p, o) && HasByObject(st.preds, s, p, o);
  }

  /** A subject is the first of some pair. */
  lemma SubjectPairs(st: Store, p: Key, s: Key) returns (o: Key)
    requires ValidStore(st) && s in Subjects(st, p)
    ensures (s, o) in Pairs(st.preds, p)
  {
    hide TablesInverse, GraphOk, EdgesStored, ExtOk, ClosureSound;
    var r := PredOf(st.preds, p);
    assert PredRecordOk(r, p);
    o :| o in r.subjects[s];
  }

  /** An object is the second of some pair. */
  lemma ObjectPairs(st: Store, p: Key, o: Key) returns (s: Key)
    requires ValidStore(st) && o in Objects(st, p)
    ensures (s, o) in Pairs(st.preds, p)
  {
    hide TablesInverse, GraphOk, EdgesStored, ExtOk, ClosureSound;
    var r := PredOf(st.preds, p);
    assert PredRecordOk(r, p);
    s :| s in r.objects[o];
    assert HasByObject(st.preds, s, p, o);
    assert Has(st.preds, s, p, o);
    PairsAre(st.preds, p);
  }

  lemma LastFails(turns: seq<OwnerTurn>)
    requires turns != [] && !AllOk(turns) && AllOk(turns[..|turns| - 1])
    ensures !turns[|turns| - 1].ok
  {
    forall i | 0 <= i < |turns| - 1
      ensures turns[i].ok
    {
      assert turns[..|turns| - 1][i] == turns[i];
    }
  }

  lemma NoneFailed()
    ensures AllOk([])
  {
  }

  lemma LastTurn(st: Store, ext: Index, p: Key, d: Dir, owners: set<Key>, turns: seq<OwnerTurn>)
    requires WellFormedView(TransactionView(st)) && p in st.pk && TurnsOk(st, ext, p, d, owners, turns) && turns != []
    ensures var before, t := turns[..|turns| - 1], turns[|turns| - 1];
            && TurnsOk(st, ext, p, d, owners, before) && AllOk(before) && t.owner in owners - Owners(before)
            && TurnOk(st, After(ext, p, d, before), p, d, t)
            && After(ext, p, d, turns) == TurnResult(After(ext, p, d, before), p, d, t)
  {
  }

  lemma FailedLoop(st: Store, ext: Index, p: Key, d: Dir, owners: set<Key>, turns: seq<OwnerTurn>)
    requires ValidStore(st.(ext := ext)) && WellFormedView(TransactionView(st)) && p in st.pk
    requires TurnsOk(st, ext, p, d, owners, turns) && !AllOk(turns)
    ensures var ext' := After(ext, p, d, turns);
            exists owner :: owner in owners && owner in ext' && Blocked(st, ext', p, d, owner)
  {
    hide ValidStore, WellFormedView, TurnsOk, After, TurnOk, TurnResult, Blocked, AllOk, OnlyGrew;
    assert turns != [] by {
      NoneFailed();
    }
    var before, t := turns[..|turns| - 1], turns[|turns| - 1];
    LastTurn(st, ext, p, d, owners, turns);
    LastFails(turns);
    TurnsKeep(st, ext, p, d, owners, before);
    FailedTurn(st, After(ext, p, d, before), p, d, t);
  }

  /** A run that does not complete met a missing record, and which. */
  lemma IncompleteAborted(st: Store, p: Key, run: RollupRun)
    requires ValidStore(st) && p in st.pk && WellFormedView(TransactionView(st)) && RunOk(st, p, run) && !Completes(run)
    ensures exists d, owner :: Aborted(st, RunIndex(st, p, run), p, d, owner)
  {
    assert st.(ext := st.ext) == st;
    hide ValidStore, WellFormedView, Blocked, Pairs, TurnsOk, After, Subjects, Objects;
    var mid, ext' := After(st.ext, p, Out, run.first), RunIndex(st, p, run);
    TurnsKeep(st, st.ext, p, Out, Subjects(st, p), run.first);
    GrewKeys(st.ext, mid, p);
    hide OnlyGrew;
    if !AllOk(run.first) {
      FailedLoop(st, st.ext, p, Out, Subjects(st, p), run.first);
      var owner :| owner in mid && Blocked(st, mid, p, Out, owner);
      assert ext' == mid by {
        NoTurns(mid, p, In);
      }
      assert Aborted(st, ext', p, Out, owner);
    } else {
      SecondKeeps(st, p, run);
      FailedLoop(st, mid, p, In, Objects(st, p), run.second);
      var owner :| owner in ext' && Blocked(st, ext', p, In, owner);
      forall s, o | (s, o) in Pairs(st.preds, p)
        ensures s in ext'
      {
        PairEnds(st, p, s, o);
      }
      assert Aborted(st, ext', p, In, owner);
    }
  }

  lemma NoTurns(ext: Index, p: Key, d: Dir)
    ensures After(ext, p, d, []) == ext
  {
  }

  lemma SecondKeeps(st: Store, p: Key, run: RollupRun)
    requires ValidStore(st.(ext := After(st.ext, p, Out, run.first))) && p in st.pk
    requires WellFormedView(TransactionView(st))
    requires RunOk(st, p, run) && AllOk(run.first)
    ensures After(st.ext, p, Out, run.first).Keys <= RunIndex(st, p, run).Keys
  {
    hide ValidStore, WellFormedView, TurnOk;
    TurnsKeep(st, After(st.ext, p, Out, run.first), p, In, Objects(st, p), run.second);
    GrewKeys(After(st.ext, p, Out, run.first), RunIndex(st, p, run), p);
  }

  /** A subject's search finds its neighbours, if its record has no entry yet, or its entry. */
  lemma FirstFinds(st: Store, p: Key, d: Dir, owner: Key)
    requires ValidStore(st) && p in st.pk && WellFormedView(TransactionView(st)) && owner in st.graph
    requires Readable(st.pk, p)
    ensures !Present(st.ext, owner, d, p) ==>
              forall x :: x in EdgeList(st.graph[owner], d, p) ==> x in TurnFound(st, st.ext, p, d, owner)
    ensures Present(st.ext, owner, d, p) ==>
              forall x :: x in TurnFound(st, st.ext, p, d, owner) <==> Holds(st.ext, owner, d, p, x)
  {
    var loaded := Opened(st.ext, owner);
    var g := TransactionView(st.(ext := loaded));
    assert TablesInverse(st.entity, st.pk);
    ReadableIsUndiverted(st.entity, st.pk, p);
    hide ValidStore, UriOf, TablesInverse;
    assert WellFormedView(g) && Stored(g, st.graph[owner]) && st.graph[owner].pk == owner;
    hide WellFormedView;
    StartFinds(g, d, p, st.graph[owner]);
    assert owner in loaded && (p in PlusLists(loaded[owner], d) <==> Present(st.ext, owner, d, p));
  }

  /** Where the entries present list all neighbours, the condition for completing is the
      weakest there is: without it some order aborts. */
  lemma CompletesIff(st: Store, p: Key)
    requires ValidStore(st) && WellFormedView(TransactionView(st)) && p in st.pk
    requires ViewsAgree(st.graph, st.preds) && Readable(st.pk, p)
    requires forall k, x :: Present(st.ext, k, Out, p) && (k, x) in Pairs(st.preds, p) ==> Holds(st.ext, k, Out, p, x)
    ensures ObjectsRecorded(st, p) <==> forall run :: RunOk(st, p, run) ==> Completes(run)
  {
    assert Undiverted(st.entity, st.pk, p) by {
      assert TablesInverse(st.entity, st.pk);
      ReadableIsUndiverted(st.entity, st.pk, p);
    }
    if ObjectsRecorded(st, p) {
      forall run | RunOk(st, p, run)
        ensures Completes(run)
      {
        if !Completes(run) {
          IncompleteAborted(st, p, run);
          var d, owner :| Aborted(st, RunIndex(st, p, run), p, d, owner);
          AbortMeansMissing(st, RunIndex(st, p, run), p, d, owner);
        }
      }
    } else {
      var s, o :| (s, o) in Pairs(st.preds, p) && s != o && o !in st.ext;
      var run := RollupRun([OwnerTurn(s, [], false)], []);
      AbortingRun(st, p, s, o);
      assert RunOk(st, p, run) && !Completes(run);
    }
  }

  lemma OneFailingTurn(st: Store, p: Key, s: Key, o: Key)
    requires WellFormedView(TransactionView(st)) && p in st.pk && s in st.graph
    requires o in TurnFound(st, st.ext, p, Out, s) && s != o && o !in st.ext
    ensures TurnOk(st, st.ext, p, Out, OwnerTurn(s, [], false))
  {
    hide WellFormedView, Found;
    var r := TurnFound(st, st.ext, p, Out, s);
    assert Rest([], r) == r && o !in Opened(st.ext, s);
  }

  lemma AbortingRun(st: Store, p: Key, s: Key, o: Key)
    requires ValidStore(st) && WellFormedView(TransactionView(st)) && p in st.pk
    requires ViewsAgree(st.graph, st.preds) && Readable(st.pk, p)
    requires (s, o) in Pairs(st.preds, p) && s != o && o !in st.ext
    requires Present(st.ext, s, Out, p) ==> Holds(st.ext, s, Out, p, o)
    ensures var run := RollupRun([OwnerTurn(s, [], false)], []);
            RunOk(st, p, run) && !Completes(run)
  {
    var t := OwnerTurn(s, [], false);
    PairEnds(st, p, s, o);
    assert HasOut(st.graph, s, p, o) by {
      PairsAre(st.preds, p);
    }
    hide ValidStore, WellFormedView, ViewsAgree, Found, Pairs, Readable, TurnFound, Subjects;
    FirstFinds(st, p, Out, s);
    assert o in TurnFound(st, st.ext, p, Out, s);
    hide Present;
    OneFailingTurn(st, p, s, o);
    assert [t][..0] == [] && Owners([]) == {};
    NoTurns(st.ext, p, Out);
    hide Subjects, TurnOk, After;
    assert TurnsOk(st, st.ext, p, Out, Subjects(st, p), []);
    assert TurnsOk(st, st.ext, p, Out, Subjects(st, p), [t]);
    assert ![t][0].ok;
  }

  /** The owner's search finds something, and nothing it finds has a record. */
  ghost predicate Barren(st: Store, p: Key, owner: Key) {
    && owner !in st.ext
    && (exists o :: HasOut(st.graph, owner, p, o))
    && (forall x :: Plus(Pairs(st.preds, p), owner, x) ==> x !in st.ext && x != owner)
  }

  /** Every subject's search finds something, and nothing it finds has a record. */
  ghost predicate AllBarren(st: Store, p: Key) {
    && Readable(st.pk, p) && Pairs(st.preds, p) != {}
    && forall s, o :: (s, o) in Pairs(st.preds, p) ==> Barren(st, p, s)
  }

  /** Then every run aborts. */
  lemma BarrenAborts(st: Store, p: Key, run: RollupRun)
    requires ValidStore(st) && WellFormedView(TransactionView(st)) && p in st.pk && AllBarren(st, p)
    requires RunOk(st, p, run)
    ensures !Completes(run)
  {
    hide ValidStore, WellFormedView, Barren, Readable, Pairs, Subjects, TurnOk;
    if AllOk(run.first) {
      var pair :| pair in Pairs(st.preds, p);
      PairEnds(st, p, pair.0, pair.1);
      assert pair.0 in Owners(run.first);
      var t := run.first[0];
      FirstTurn(st, st.ext, p, Out, Subjects(st, p), run.first);
      var o := SubjectPairs(st, p, t.owner);
      BarrenTurn(st, p, t);
    }
  }

  lemma {:induction false} FirstTurn(st: Store, ext: Index, p: Key, d: Dir, owners: set<Key>, turns: seq<OwnerTurn>)
    requires WellFormedView(TransactionView(st)) && p in st.pk && TurnsOk(st, ext, p, d, owners, turns) && turns != []
    ensures TurnOk(st, ext, p, d, turns[0]) && turns[0].owner in owners
    decreases |turns|
  {
    hide WellFormedView, TurnOk;
    if |turns| > 1 {
      FirstTurn(st, ext, p, d, owners, turns[..|turns| - 1]);
    } else {
      assert turns[..0] == [];
    }
  }

  lemma NoneNamedNonePicked(picks: seq<(Key, Key)>)
    requires Named(picks) == {}
    ensures picks == []
  {
    if picks != [] {
      NamedMore(picks);
      assert false;
    }
  }

  lemma BarrenTurn(st: Store, p: Key, t: OwnerTurn)
    requires ValidStore(st) && WellFormedView(TransactionView(st)) && p in st.pk && Readable(st.pk, p)
    requires TurnOk(st, st.ext, p, Out, t) && Barren(st, p, t.owner)
    ensures !t.ok
  {
    var loaded, r := Opened(st.ext, t.owner), TurnFound(st, st.ext, p, Out, t.owner);
    FirstFinds(st, p, Out, t.owner);
    assert TablesInverse(st.entity, st.pk);
    ReadableIsUndiverted(st.entity, st.pk, p);
    assert st.(ext := st.ext) == st;
    TurnKeeps(st, st.ext, p, Out, t);
    RestShrinks(t.picks, loaded.Keys, r);
    var o :| HasOut(st.graph, t.owner, p, o);
    assert o in EdgeList(st.graph[t.owner], Out, p) && o in r;
    hide ValidStore, WellFormedView, Undiverted, TablesInverse, Readable;
    assert forall x :: x in r ==> x !in loaded;
    assert Named(t.picks) == {};
    NoneNamedNonePicked(t.picks);
  }
}
