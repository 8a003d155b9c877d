/** What a snapshot of the committed tables shows a query (db/snapshot.go): the stored
    triples, read in either direction, under an index that only holds true entries. */
module Snapshots {
  import opened Keys
  import opened Closure
  import opened Graphs
  import opened Store
  import opened Uris
  import opened OutClosures
  import opened RollupLoops
  import opened RollupRuns
  import opened Rollups
  import opened Executor
  import opened Searches
  import opened Traversal

  function SnapshotView(st: Store): View {
    View(st.entity, st.graph, st.ext, false)
  }

  lemma EdgesAreTriples(st: Store, p: Key)
    requires ValidStore(st)
    ensures forall s, o :: (s, o) in Rel(SnapshotView(st), Out, p) <==> HasOut(st.graph, s, p, o)
    ensures forall s, o :: (o, s) in Rel(SnapshotView(st), In, p) <==> HasIn(st.graph, s, p, o)
  {
  }

  /** A snapshot serves every stored triple, from both ends, exactly when the views agree. */
  ghost predicate ServesTriples(st: Store) {
    && Servable(SnapshotView(st))
    && forall p :: Rel(SnapshotView(st), Out, p) == Pairs(st.preds, p) == Converse(Rel(SnapshotView(st), In, p))
  }

  lemma ServesIffViewsAgree(st: Store)
    requires ValidStore(st)
    ensures ServesTriples(st) <==> ViewsAgree(st.graph, st.preds)
  {
    hide ClosureSound, ExtOk, ValidStore;
    if ViewsAgree(st.graph, st.preds) {
      SnapshotServable(st);
      forall p
        ensures Rel(SnapshotView(st), Out, p) == Pairs(st.preds, p) == Converse(Rel(SnapshotView(st), In, p))
      {
        ServedPairs(st, p);
      }
    }
    if ServesTriples(st) {
      forall s, p, o
        ensures HasOut(st.graph, s, p, o) <==> Has(st.preds, s, p, o)
        ensures HasIn(st.graph, s, p, o) <==> Has(st.preds, s, p, o)
      {
        EdgesAreTriples(st, p);
        PairsAre(st.preds, p);
        assert Rel(SnapshotView(st), Out, p) == Pairs(st.preds, p);
        assert (s, o) in Converse(Rel(SnapshotView(st), In, p)) <==> (o, s) in Rel(SnapshotView(st), In, p);
      }
    }
  }

  lemma ServedPairs(st: Store, p: Key)
    requires ValidStore(st) && ViewsAgree(st.graph, st.preds)
    ensures Rel(SnapshotView(st), Out, p) == Pairs(st.preds, p) == Converse(Rel(SnapshotView(st), In, p))
    ensures forall d :: Rel(SnapshotView(st), d, p) == DirEdges(d, Pairs(st.preds, p))
  {
    EdgesAreTriples(st, p);
    PairsAre(st.preds, p);
    hide ValidStore, ViewsAgree, HasOut, HasIn, Has;
    var e, out, into := Pairs(st.preds, p), Rel(SnapshotView(st), Out, p), Rel(SnapshotView(st), In, p);
    forall pair
      ensures pair in out <==> pair in e
      ensures pair in Converse(into) <==> pair in e
      ensures pair in into <==> pair in Converse(e)
    {
      var (a, b) := pair;
      OneTriple(st, a, p, b);
      OneTriple(st, b, p, a);
      assert (b, a) in Converse(e) <==> (a, b) in e;
      assert (a, b) in Converse(e) <==> (b, a) in e;
      assert (a, b) in Converse(into) <==> (b, a) in into;
    }
  }

  lemma OneTriple(st: Store, s: Key, p: Key, o: Key)
    requires ViewsAgree(st.graph, st.preds)
    ensures HasOut(st.graph, s, p, o) <==> Has(st.preds, s, p, o)
    ensures HasIn(st.graph, s, p, o) <==> Has(st.preds, s, p, o)
  {
  }

  lemma SnapshotServable(st: Store)
    requires ValidStore(st) && ViewsAgree(st.graph, st.preds)
    ensures Servable(SnapshotView(st))
  {
    StoreViewWellFormed(st);
    var g := SnapshotView(st);
    assert WellFormedView(g);
    forall p, s, o
      ensures (s, o) in Rel(g, Out, p) <==> (o, s) in Rel(g, In, p)
    {
      EdgesAreTriples(st, p);
      OneTriple(st, s, p, o);
    }
    forall b | b in st.entity
      ensures st.entity[b] in st.graph
    {
      assert st.entity[b] in st.pk;
    }
  }

  /** After any run of inserts that kept the views in step, every closure entry of a
      predicate that rollups do not mistake for another is true of the stored triples. */
  lemma SnapshotIndexSound(st: Store, d: Dir, p: Key)
    requires ValidStore(st) && ViewsAgree(st.graph, st.preds) && Undiverted(st.entity, st.pk, p)
    ensures IndexSound(SnapshotView(st), d, p)
  {
    ServedPairs(st, p);
    assert ClosureSoundAt(st.ext, p, Pairs(st.preds, p));
    IndexSoundInView(st, d, p, Pairs(st.preds, p));
  }

  /** Where the entries present are exact in a direction, queries may use them. */
  lemma ExactEntriesServe(st: Store, d: Dir, p: Key)
    requires ValidStore(st) && ViewsAgree(st.graph, st.preds) && PresentExact(st.ext, d, p, Pairs(st.preds, p))
    ensures IndexExact(SnapshotView(st), d, p)
  {
    hide ValidStore, ViewsAgree;
    ServedPairs(st, p);
    var g, e := SnapshotView(st), Pairs(st.preds, p);
    forall k, x | k in g.index && p in PlusLists(g.index[k], d)
      ensures x in PlusLists(g.index[k], d)[p] <==> Plus(Rel(g, d, p), k, x)
    {
      assert Present(st.ext, k, d, p);
      ReachIsPlus(d, e, k, x);
    }
  }

  /** A search from a node with an entry is answered by the entry alone, true or not. */
  lemma EntryAnswers(st: Store, d: Dir, p: Key, k: Key)
    requires ValidStore(st) && k in st.graph && Present(st.ext, k, d, p)
    ensures WellFormedView(SnapshotView(st)) && Stored(SnapshotView(st), st.graph[k])
    ensures var (found, ok) := SearchFrom(SnapshotView(st), d, p, st.graph[k]);
            ok && forall x :: x in found <==> Holds(st.ext, k, d, p, x)
  {
    StoreViewWellFormed(st);
    assert NodeOk(st.graph[k], k);
    hide ValidStore;
    StartFinds(SnapshotView(st), d, p, st.graph[k]);
  }

  /** As a rollup leaves them (`Transaction.RollupPredicate`), if no siblings are lost. */
  lemma RolledEntriesServe(st: Store, p: Key, run: RollupRun)
    requires RollsExactly(st, p) && RunOk(st, p, run)
    ensures Completes(run) && IndexExact(SnapshotView(st.(ext := RunIndex(st, p, run))), Out, p)
  {
    RunIsExact(st, p, run);
    RollupKeeps(st, p, run);
    hide Rollable, ValidStore, ViewsAgree, RunOk, RunIndex;
    AllPresentExact(RunIndex(st, p, run), Out, p, Pairs(st.preds, p));
    assert ViewsAgree(st.graph, st.preds) by {
      RollableAgrees(st, p);
    }
    ExactEntriesServe(st.(ext := RunIndex(st, p, run)), Out, p);
  }

  lemma RollableAgrees(st: Store, p: Key)
    requires Rollable(st, p)
    ensures ViewsAgree(st.graph, st.preds)
  {
  }

  /** The entity table gives the name this key. The zero key stands for none
      (db/snapshot.go:131-142). */
  ghost predicate Named(st: Store, u: URI, k: Key) {
    Bytes(u) in st.entity && st.entity[Bytes(u)] == k && k != EMPTY_KEY
  }

  /** A snapshot's lookup finds exactly the keys of names. */
  lemma LookupIff(st: Store, u: URI, k: Key)
    ensures GetHash(SnapshotView(st), u) == Some(k) <==> Named(st, u, k)
    ensures GetHash(SnapshotView(st), u).Some? <==> exists p :: Named(st, u, p)
  {
    hide Bytes;
    if GetHash(SnapshotView(st), u).Some? {
      assert Named(st, u, GetHash(SnapshotView(st), u).value);
    }
  }

  ghost predicate PredicatesNamed(st: Store, path: seq<PathPattern>) {
    forall seg :: seg in path ==> exists p :: Named(st, seg.pred, p)
  }

  /** The entries of every predicate that the path follows repeatedly are exact. */
  ghost predicate EntriesExact(st: Store, d: Dir, path: seq<PathPattern>) {
    forall seg, p :: seg in path && Transitive(seg.pattern) && Named(st, seg.pred, p) ==>
      PresentExact(st.ext, d, p, Pairs(st.preds, p))
  }

  /** The path repeats only predicates that rollups do not mistake for others. */
  ghost predicate RepeatsUndiverted(st: Store, path: seq<PathPattern>) {
    forall seg, p :: seg in path && Transitive(seg.pattern) && Named(st, seg.pred, p) ==>
      Undiverted(st.entity, st.pk, p)
  }

  /** Whatever rollups left in the index, queries find only what the path relates. They find
      all of it in a direction, over named predicates, as long as the index entries that
      their repeated steps may use are exact; single and optional steps need no index. */
  lemma PathsServe(st: Store, d: Dir, path: seq<PathPattern>, exact: bool)
    requires ValidStore(st) && ViewsAgree(st.graph, st.preds) && path != [] && RepeatsUndiverted(st, path)
    requires exact ==> PredicatesNamed(st, path) && EntriesExact(st, d, path) && (d == In ==> Reversible(path))
    ensures Servable(SnapshotView(st)) && Evaluable(SnapshotView(st), d, path, exact)
  {
    SnapshotServable(st);
    hide ValidStore, ViewsAgree, PresentExact, IndexExact, IndexSound, Undiverted, Named, SnapshotView;
    var g := SnapshotView(st);
    forall seg | seg in path
      ensures SegmentIndexSound(g, d, seg)
      ensures exact ==> SegmentIndexExact(g, d, seg) && GetHash(g, seg.pred).Some?
    {
      LookupIff(st, seg.pred, EMPTY_KEY);
      if GetHash(g, seg.pred).Some? {
        var p := GetHash(g, seg.pred).value;
        LookupIff(st, seg.pred, p);
        if Transitive(seg.pattern) {
          SnapshotIndexSound(st, d, p);
          if exact {
            ExactEntriesServe(st, d, p);
          }
        }
      }
    }
  }
}
