/** How far the turns of one rollup loop complete the closure index, and how any turns can
    be continued to the end of the loop (db/transaction.go:501-541 and 544-580). */
module RollupLoops {
  import opened Closure
  import opened Graphs
  import opened Keys
  import opened RollupRuns
  import opened Rollups
  import opened Searches
  import opened Store

  // ---- what the theorems say about an index ----

  /** Every entry that is present lists everything its node reaches. */
  ghost predicate PresentComplete(ext: Index, d: Dir, p: Key, e: Edges) {
    forall k, x :: Present(ext, k, d, p) && Reach(d, e, k, x) ==> Holds(ext, k, d, p, x)
  }

  /** The entry of `k` lists everything `k` reaches. */
  ghost predicate Complete(ext: Index, d: Dir, p: Key, e: Edges, k: Key) {
    forall x :: Reach(d, e, k, x) ==> Holds(ext, k, d, p, x)
  }

  /** The entries are the closure, for all nodes. */
  ghost predicate AllExact(ext: Index, d: Dir, p: Key, e: Edges) {
    forall k, x :: Holds(ext, k, d, p, x) <==> Reach(d, e, k, x)
  }

  /** Every entry that is present is exactly the closure of its node. */
  ghost predicate PresentExact(ext: Index, d: Dir, p: Key, e: Edges) {
    forall k, x :: Present(ext, k, d, p) ==> (Holds(ext, k, d, p, x) <==> Reach(d, e, k, x))
  }

  lemma AllPresentExact(ext: Index, d: Dir, p: Key, e: Edges)
    requires AllExact(ext, d, p, e)
    ensures PresentExact(ext, d, p, e) && PresentComplete(ext, d, p, e)
  {
  }

  /** What a node reaches has a record, perhaps except for itself. */
  ghost predicate AllRecorded(ext: Index, d: Dir, e: Edges) {
    forall k, x :: Reach(d, e, k, x) && x != k ==> x in ext
  }

  /** The stores on which rollups are compared with the closure: the graph's edges are the
      stored triples, and the URI read back for the predicate leads to it. */
  ghost predicate Rollable(st: Store, p: Key) {
    && ValidStore(st) && WellFormedView(TransactionView(st)) && p in st.pk
    && ViewsAgree(st.graph, st.preds) && Readable(st.pk, p)
  }

  lemma RollableUndiverted(st: Store, p: Key)
    requires Rollable(st, p)
    ensures Undiverted(st.entity, st.pk, p) && GetHash(TransactionView(st), UriOf(st.pk, p)) == Some(p)
  {
    assert TablesInverse(st.entity, st.pk);
    ReadableIsUndiverted(st.entity, st.pk, p);
  }

  // ---- what one turn completes ----

  lemma RelIsReach(st: Store, p: Key, d: Dir, k: Key, x: Key)
    requires Rollable(st, p)
    ensures Plus(Rel(TransactionView(st), d, p), k, x) <==> Reach(d, Pairs(st.preds, p), k, x)
  {
    RelIsPairs(st, d, p);
    ReachIsPlus(d, Pairs(st.preds, p), k, x);
  }

  lemma ExactInView(st: Store, p: Key, d: Dir)
    requires Rollable(st, p) && PresentComplete(st.ext, d, p, Pairs(st.preds, p))
    ensures IndexExact(TransactionView(st), d, p) && EntriesLead(TransactionView(st), d, p)
  {
    var g, e := TransactionView(st), Pairs(st.preds, p);
    RollableUndiverted(st, p);
    assert ClosureSoundAt(st.ext, p, e);
    SoundIsHolds(st.ext, p, e);
    assert forall k :: k in g.index ==> NoEmptyEntry(g.index[k]);
    hide Rollable, ClosureSoundAt, Rel;
    forall k, x | k in g.index && p in PlusLists(g.index[k], d)
      ensures x in PlusLists(g.index[k], d)[p] <==> Plus(Rel(g, d, p), k, x)
    {
      RelIsReach(st, p, d, k, x);
      assert Present(st.ext, k, d, p);
      assert Holds(st.ext, k, d, p, x) <==> x in PlusLists(g.index[k], d)[p];
    }
  }

  lemma RecordedInView(st: Store, p: Key, d: Dir)
    requires Rollable(st, p) && AllRecorded(st.ext, d, Pairs(st.preds, p))
    ensures forall x, y :: (x, y) in Rel(TransactionView(st), d, p) && x != y ==> y in TransactionView(st).index
  {
    var g := TransactionView(st);
    forall x, y | (x, y) in Rel(g, d, p) && x != y
      ensures y in g.index
    {
      PlusEdge(Rel(g, d, p), x, y);
      hide Rollable, Rel;
      RelIsReach(st, p, d, x, y);
    }
  }

  /** Without lost siblings, an owner's search finds its closure, if the entries present
      are complete. */
  lemma FoundExact(st: Store, p: Key, d: Dir, owner: Key)
    requires Rollable(st, p) && owner in st.graph && owner in st.ext && NoSiblingLost(DirEdges(d, Pairs(st.preds, p)))
    requires PresentComplete(st.ext, d, p, Pairs(st.preds, p)) && AllRecorded(st.ext, d, Pairs(st.preds, p))
    ensures forall x :: x in Found(st, st.ext, p, d, owner) <==> Reach(d, Pairs(st.preds, p), owner, x)
  {
    var g, e := TransactionView(st), Pairs(st.preds, p);
    RollableUndiverted(st, p);
    FoundReached(st, p, d, owner);
    RelIsPairs(st, d, p);
    ExactInView(st, p, d);
    RecordedInView(st, p, d);
    GraphStored(st, owner);
    hide UriOf, Undiverted, PresentComplete, AllRecorded, IndexExact, EntriesLead;
    assert st.(ext := st.ext) == st;
    var n := st.graph[owner];
    assert Found(st, st.ext, p, d, owner) == SearchFrom(g, d, p, n).0;
    OnTheWayStarts(Rel(g, d, p), n);
    SearchedComplete(g, d, p, owner, [n], {}, {});
    SearchedSucceeds(g, d, p, [n], {}, {});
    forall x | Reach(d, e, owner, x)
      ensures x in SearchFrom(g, d, p, n).0
    {
      RelIsReach(st, p, d, owner, x);
    }
  }

  lemma RollableAt(st: Store, ext: Index, p: Key)
    requires Rollable(st, p) && ValidStore(st.(ext := ext))
    ensures Rollable(st.(ext := ext), p)
  {
    hide ValidStore, Readable, ViewsAgree;
    assert WellFormedView(TransactionView(st.(ext := ext)));
  }

  lemma OpenedKeepsComplete(ext: Index, d: Dir, p: Key, e: Edges, owner: Key)
    requires Keyed(ext) && PresentComplete(ext, d, p, e) && AllRecorded(ext, d, e)
    ensures PresentComplete(Opened(ext, owner), d, p, e) && AllRecorded(Opened(ext, owner), d, e)
  {
  }

  /** The same for a turn at its start. */
  lemma TurnFindsAll(st: Store, ext: Index, p: Key, d: Dir, owner: Key)
    requires Rollable(st, p) && ValidStore(st.(ext := ext)) && owner in st.graph
    requires NoSiblingLost(DirEdges(d, Pairs(st.preds, p)))
    requires PresentComplete(ext, d, p, Pairs(st.preds, p)) && AllRecorded(ext, d, Pairs(st.preds, p))
    ensures forall x :: x in TurnFound(st, ext, p, d, owner) <==> Reach(d, Pairs(st.preds, p), owner, x)
  {
    var e, loaded := Pairs(st.preds, p), Opened(ext, owner);
    ValidKeyed(st.(ext := ext));
    OpenedKeepsComplete(ext, d, p, e, owner);
    OpenedValid(st, ext, p, owner);
    RollableAt(st, loaded, p);
    var st1 := st.(ext := loaded);
    assert owner in loaded;
    hide Rollable, ValidStore, UriOf, WellFormedView, PresentComplete, AllRecorded, NoSiblingLost, Keyed, Opened, Reach;
    FoundExact(st1, p, d, owner);
    assert st.(ext := loaded) == st1.(ext := loaded);
  }

  /** What a turn adds at its own end and at the other. */
  lemma TurnHolds(ext: Index, ext': Index, p: Key, d: Dir, owner: Key, ok: bool, r: set<Key>, named: set<Key>, k: Key,
                  x: Key)
    requires Extended(ext, ext', p, TurnAdds(d, owner, ok, r, named), {owner}) && named <= r
    ensures Holds(ext', k, d, p, x) <==> Holds(ext, k, d, p, x) || (ok && k == owner && x in r)
    ensures Holds(ext', k, Opposite(d), p, x) <==>
              Holds(ext, k, Opposite(d), p, x) || (x == owner && k in named && (ok ==> k != owner))
  {
    assert (d, k, x) in TurnAdds(d, owner, ok, r, named) <==> ok && k == owner && x in r;
    assert (Opposite(d), k, x) in TurnAdds(d, owner, ok, r, named) <==> x == owner && k in named && (ok ==> k != owner);
  }

  /** Only the owner's entry is new at its own end. */
  lemma TurnPresent(ext: Index, ext': Index, p: Key, d: Dir, owner: Key, ok: bool, r: set<Key>, named: set<Key>, k: Key)
    requires Keyed(ext) && Extended(ext, ext', p, TurnAdds(d, owner, ok, r, named), {owner}) && named <= r
    requires Present(ext', k, d, p) && k != owner
    ensures Present(ext, k, d, p)
  {
    hide Extended, Holds, Present, TurnAdds;
    ExtendedKeys(ext, ext', p, TurnAdds(d, owner, ok, r, named), {owner});
    PresentHolds(ext', k, d, p);
    var x :| Holds(ext', k, d, p, x);
    TurnHolds(ext, ext', p, d, owner, ok, r, named, k, x);
    PresentHolds(ext, k, d, p);
  }

  /** A turn that ends without an error completes its owner's entry and keeps the others. */
  lemma TurnCompletes(st: Store, ext: Index, p: Key, d: Dir, t: OwnerTurn)
    requires Rollable(st, p) && ValidStore(st.(ext := ext)) && TurnOk(st, ext, p, d, t) && t.ok
    requires NoSiblingLost(DirEdges(d, Pairs(st.preds, p)))
    requires PresentComplete(ext, d, p, Pairs(st.preds, p)) && AllRecorded(ext, d, Pairs(st.preds, p))
    ensures var ext' := TurnResult(ext, p, d, t);
            && PresentComplete(ext', d, p, Pairs(st.preds, p)) && AllRecorded(ext', d, Pairs(st.preds, p))
            && Complete(ext', d, p, Pairs(st.preds, p), t.owner)
  {
    var e, ext', r, named :=
      Pairs(st.preds, p), TurnResult(ext, p, d, t), TurnFound(st, ext, p, d, t.owner), Named(t.picks);
    TurnKeeps(st, ext, p, d, t);
    TurnFindsAll(st, ext, p, d, t.owner);
    ValidKeyed(st.(ext := ext));
    ExtendedGrew(ext, ext', p, TurnAdds(d, t.owner, true, r, named), {t.owner});
    hide Rollable, ValidStore, UriOf, WellFormedView, NoSiblingLost, Keyed, Reach, TurnOk, TurnAdds, Extended,
         TurnResult, Holds, Present;
    forall k, x | Present(ext', k, d, p) && Reach(d, e, k, x)
      ensures Holds(ext', k, d, p, x)
    {
      TurnHolds(ext, ext', p, d, t.owner, true, r, named, k, x);
      if k != t.owner {
        TurnPresent(ext, ext', p, d, t.owner, true, r, named, k);
      }
    }
    forall x | Reach(d, e, t.owner, x)
      ensures Holds(ext', t.owner, d, p, x)
    {
      TurnHolds(ext, ext', p, d, t.owner, true, r, named, t.owner, x);
    }
  }

  /** So after some turns that ended without an error, every owner's entry is complete. */
  lemma {:induction false} TurnsComplete(st: Store, ext: Index, p: Key, d: Dir, owners: set<Key>, turns: seq<OwnerTurn>)
    requires Rollable(st, p) && ValidStore(st.(ext := ext)) && TurnsOk(st, ext, p, d, owners, turns) && AllOk(turns)
    requires NoSiblingLost(DirEdges(d, Pairs(st.preds, p)))
    requires PresentComplete(ext, d, p, Pairs(st.preds, p)) && AllRecorded(ext, d, Pairs(st.preds, p))
    ensures var ext' := After(ext, p, d, turns);
            && PresentComplete(ext', d, p, Pairs(st.preds, p)) && AllRecorded(ext', d, Pairs(st.preds, p))
            && forall k :: k in Owners(turns) ==> Complete(ext', d, p, Pairs(st.preds, p), k)
    decreases |turns|
  {
    var e := Pairs(st.preds, p);
    hide Rollable, ValidStore, WellFormedView, NoSiblingLost, PresentComplete, AllRecorded, Complete, TurnOk, TurnsOk,
         After, OnlyGrew;
    if turns == [] {
      NoTurns(ext, p, d);
    } else {
      var before, t := turns[..|turns| - 1], turns[|turns| - 1];
      RollableViewed(st, p);
      LastTurn(st, ext, p, d, owners, turns);
      TurnsKeep(st, ext, p, d, owners, before);
      TurnsComplete(st, ext, p, d, owners, before);
      var mid := After(ext, p, d, before);
      TurnCompletes(st, mid, p, d, t);
      OwnersMore(turns);
      forall k | k in Owners(before)
        ensures Complete(TurnResult(mid, p, d, t), d, p, e, k)
      {
        TurnKeepsComplete(st, mid, p, d, t, k);
      }
    }
  }

  lemma RollableViewed(st: Store, p: Key)
    requires Rollable(st, p)
    ensures WellFormedView(TransactionView(st)) && p in st.pk
  {
  }

  lemma TurnKeepsComplete(st: Store, ext: Index, p: Key, d: Dir, t: OwnerTurn, k: Key)
    requires ValidStore(st.(ext := ext)) && WellFormedView(TransactionView(st)) && p in st.pk
    requires TurnOk(st, ext, p, d, t)
    requires Complete(ext, d, p, Pairs(st.preds, p), k)
    ensures Complete(TurnResult(ext, p, d, t), d, p, Pairs(st.preds, p), k)
  {
    hide ValidStore, WellFormedView, Reach, TurnOk, TurnAdds, Extended, TurnResult, Holds;
    TurnKeeps(st, ext, p, d, t);
    ExtendedGrew(ext, TurnResult(ext, p, d, t), p,
                 TurnAdds(d, t.owner, t.ok, TurnFound(st, ext, p, d, t.owner), Named(t.picks)), {t.owner});
  }

  /** The owners of the turns of a direction's loop. */
  function LoopOwners(st: Store, p: Key, d: Dir): set<Key> {
    if d == Out then Subjects(st, p) else Objects(st, p)
  }

  /** Every node that reaches anything in a direction owns a turn of that direction's loop. */
  lemma ReachingOwns(st: Store, p: Key, d: Dir, k: Key, x: Key)
    requires ValidStore(st) && Reach(d, Pairs(st.preds, p), k, x)
    ensures k in LoopOwners(st, p, d)
  {
    var e := Pairs(st.preds, p);
    hide ValidStore, Pairs, Subjects, Objects;
    if d == Out {
      PlusHasFirstEdge(e, k, x);
      var m :| (k, m) in e;
      PairEnds(st, p, k, m);
    } else {
      PlusHasLastEdge(e, x, k);
      var m :| (m, k) in e;
      PairEnds(st, p, m, k);
    }
  }

  /** A loop that ends without an error leaves the whole closure in the entries of its
      direction, if no siblings are lost and the entries it starts from are complete. */
  lemma LoopCompletes(st: Store, ext: Index, p: Key, d: Dir, turns: seq<OwnerTurn>)
    requires Rollable(st, p) && ValidStore(st.(ext := ext)) && LoopOk(st, ext, p, d, LoopOwners(st, p, d), turns)
    requires AllOk(turns)
    requires NoSiblingLost(DirEdges(d, Pairs(st.preds, p)))
    requires PresentComplete(ext, d, p, Pairs(st.preds, p)) && AllRecorded(ext, d, Pairs(st.preds, p))
    ensures AllExact(After(ext, p, d, turns), d, p, Pairs(st.preds, p))
  {
    var e, ext' := Pairs(st.preds, p), After(ext, p, d, turns);
    assert ValidStore(st);
    RollableUndiverted(st, p);
    hide Rollable, WellFormedView, NoSiblingLost, PresentComplete, AllRecorded, After, Undiverted, TurnsOk, Readable,
         UriOf;
    RollableViewed(st, p);
    TurnsKeep(st, ext, p, d, LoopOwners(st, p, d), turns);
    TurnsComplete(st, ext, p, d, LoopOwners(st, p, d), turns);
    ExactIfComplete(st, ext', p, d);
  }

  lemma ExactIfComplete(st: Store, ext: Index, p: Key, d: Dir)
    requires Rollable(st, p) && ValidStore(st.(ext := ext))
    requires forall k :: k in LoopOwners(st, p, d) ==> Complete(ext, d, p, Pairs(st.preds, p), k)
    ensures AllExact(ext, d, p, Pairs(st.preds, p))
  {
    var e := Pairs(st.preds, p);
    assert ValidStore(st);
    RollableUndiverted(st, p);
    assert ClosureSoundAt(st.(ext := ext).ext, p, e);
    SoundIsHolds(ext, p, e);
    hide Rollable, ValidStore, ClosureSoundAt, Holds, Reach, LoopOwners;
    forall k, x | Reach(d, e, k, x)
      ensures Holds(ext, k, d, p, x)
    {
      ReachingOwns(st, p, d, k, x);
      assert Complete(ext, d, p, e, k);
    }
  }

  // ---- continuing a loop to its end ----

  /** Results can be removed in any order while one of them is named all the time. */
  lemma {:induction false} NamingOnly(recorded: set<Key>, r: set<Key>, m: Key, removed: set<Key>)
    returns (picks: seq<(Key, Key)>)
    requires m in r && m in recorded && removed <= r - {m}
    ensures Picks(picks, recorded, r) && Rest(picks, r) == r - removed && Named(picks) <= {m}
    decreases removed
  {
    picks := [];
    if removed != {} {
      var k :| k in removed;
      var before := NamingOnly(recorded, r, m, removed - {k});
      picks := before + [(m, k)];
      assert picks[..|picks| - 1] == before;
      NamedMore(picks);
    }
  }

  lemma NamingUntilDone(recorded: set<Key>, r: set<Key>, m: Key) returns (picks: seq<(Key, Key)>)
    requires m in r && m in recorded
    ensures Picks(picks, recorded, r) && Rest(picks, r) == {} && Named(picks) == {m}
  {
    var before := NamingOnly(recorded, r, m, r - {m});
    picks := before + [(m, m)];
    assert picks[..|picks| - 1] == before;
    NamedMore(picks);
  }

  /** An owner whose results all have records can end its turn while it names any one. */
  lemma NamingTurn(st: Store, ext: Index, p: Key, d: Dir, owner: Key, m: Key) returns (t: OwnerTurn)
    requires WellFormedView(TransactionView(st)) && p in st.pk && owner in st.graph
    requires forall x :: x in TurnFound(st, ext, p, d, owner) ==> x in Opened(ext, owner)
    requires TurnFound(st, ext, p, d, owner) != {} ==> m in TurnFound(st, ext, p, d, owner)
    ensures t.owner == owner && t.ok && TurnOk(st, ext, p, d, t) && Named(t.picks) <= {m}
  {
    hide WellFormedView, Found;
    var r := TurnFound(st, ext, p, d, owner);
    if r == {} {
      t := OwnerTurn(owner, [], true);
    } else {
      var picks := NamingUntilDone(Opened(ext, owner).Keys, r, m);
      t := OwnerTurn(owner, picks, true);
    }
  }

  lemma FoundRecorded(st: Store, ext: Index, p: Key, d: Dir, owner: Key)
    requires Rollable(st, p) && ValidStore(st.(ext := ext)) && owner in st.graph
    requires AllRecorded(ext, d, Pairs(st.preds, p))
    ensures forall x :: x in TurnFound(st, ext, p, d, owner) ==> x in Opened(ext, owner)
  {
    RollableUndiverted(st, p);
    OpenedValid(st, ext, p, owner);
    OpenedFoundReached(st, ext, p, d, owner);
    hide Rollable, ValidStore, Undiverted, UriOf, Reach, TurnFound, Pairs;
    forall x | x in TurnFound(st, ext, p, d, owner)
      ensures x in Opened(ext, owner)
    {
      assert Reach(d, Pairs(st.preds, p), owner, x);
    }
  }

  lemma OneMoreTurn(st: Store, ext: Index, p: Key, d: Dir, owners: set<Key>, turns: seq<OwnerTurn>, t: OwnerTurn)
    requires WellFormedView(TransactionView(st)) && p in st.pk && TurnsOk(st, ext, p, d, owners, turns) && AllOk(turns)
    requires t.owner in owners - Owners(turns) && TurnOk(st, After(ext, p, d, turns), p, d, t)
    ensures TurnsOk(st, ext, p, d, owners, turns + [t])
  {
    hide WellFormedView, TurnOk, After, AllOk, Owners;
    var more := turns + [t];
    assert more[..|more| - 1] == turns && more[|more| - 1] == t;
  }

  lemma AfterOneMore(ext: Index, p: Key, d: Dir, turns: seq<OwnerTurn>, t: OwnerTurn)
    ensures After(ext, p, d, turns + [t]) == TurnResult(After(ext, p, d, turns), p, d, t)
    ensures Owners(turns + [t]) == Owners(turns) + {t.owner}
    ensures AllOk(turns + [t]) <==> AllOk(turns) && t.ok
  {
    hide TurnResult;
    var more := turns + [t];
    assert more[..|more| - 1] == turns && more[|more| - 1] == t;
    OwnersMore(more);
    if AllOk(more) {
      forall i | 0 <= i < |turns|
        ensures turns[i].ok
      {
        assert more[i] == turns[i];
      }
    }
  }

  /** What the entry of `k` in direction `c` may list of `x` is decided in a loop by the
      turn of one owner. */
  function Decides(d: Dir, k: Key, c: Dir, x: Key): Key {
    if c == d then k else x
  }

  /** Entries that owners who had their turn decide about are the same in both. */
  ghost predicate Decided(ext: Index, ext': Index, p: Key, d: Dir, owners: set<Key>) {
    forall k, c, x :: Decides(d, k, c, x) in owners ==> (Holds(ext', k, c, p, x) <==> Holds(ext, k, c, p, x))
  }

  lemma TurnDecides(st: Store, ext: Index, p: Key, d: Dir, t: OwnerTurn, owners: set<Key>)
    requires ValidStore(st.(ext := ext)) && WellFormedView(TransactionView(st)) && p in st.pk
    requires TurnOk(st, ext, p, d, t)
    requires t.owner !in owners
    ensures Decided(ext, TurnResult(ext, p, d, t), p, d, owners)
  {
    hide ValidStore, WellFormedView, Reach, TurnOk, TurnAdds, Extended, TurnResult, Holds, TurnFound;
    TurnKeeps(st, ext, p, d, t);
    forall k, c, x | Decides(d, k, c, x) in owners
      ensures Holds(TurnResult(ext, p, d, t), k, c, p, x) <==> Holds(ext, k, c, p, x)
    {
      TurnHolds(ext, TurnResult(ext, p, d, t), p, d, t.owner, t.ok, TurnFound(st, ext, p, d, t.owner), Named(t.picks),
                k, x);
      assert c == d || c == Opposite(d);
    }
  }

  lemma GrewRecorded(ext: Index, ext': Index, d: Dir, e: Edges)
    requires AllRecorded(ext, d, e) && ext.Keys <= ext'.Keys
    ensures AllRecorded(ext', d, e)
  {
    hide Reach;
    forall k, x | Reach(d, e, k, x) && x != k
      ensures x in ext'
    {
      assert x in ext.Keys;
    }
  }

  /** Where all results have records, every beginning of a loop can be continued to an end
      without an error, and no continuation changes what has been decided. */
  lemma {:induction false} FinishLoop(st: Store, ext: Index, p: Key, d: Dir, turns: seq<OwnerTurn>)
    returns (all: seq<OwnerTurn>)
    requires Rollable(st, p) && ValidStore(st.(ext := ext)) && AllRecorded(ext, d, Pairs(st.preds, p))
    requires TurnsOk(st, ext, p, d, LoopOwners(st, p, d), turns) && AllOk(turns)
    ensures LoopOk(st, ext, p, d, LoopOwners(st, p, d), all) && AllOk(all)
    ensures Decided(After(ext, p, d, turns), After(ext, p, d, all), p, d, Owners(turns))
    ensures OnlyGrew(After(ext, p, d, turns), After(ext, p, d, all), p)
    decreases LoopOwners(st, p, d) - Owners(turns)
  {
    hide Rollable, ValidStore, WellFormedView, AllRecorded, LoopOwners, Decided, OnlyGrew, TurnsOk, TurnOk, TurnResult,
         After, AllOk, Pairs, TurnFound, Opened;
    RollableViewed(st, p);
    var mid := After(ext, p, d, turns);
    TurnsKeep(st, ext, p, d, LoopOwners(st, p, d), turns);
    var left := LoopOwners(st, p, d) - Owners(turns);
    if left == {} {
      all := turns;
      assert forall k :: k in LoopOwners(st, p, d) ==> k !in left;
      NothingDecided(mid, p, d, Owners(turns));
      NothingGrew(mid, p);
    } else {
      var owner :| owner in left;
      OwnerStored(st, p, d, owner);
      GrewKeys(ext, mid, p);
      GrewRecorded(ext, mid, d, Pairs(st.preds, p));
      FoundRecorded(st, mid, p, d, owner);
      var m := SomeResult(TurnFound(st, mid, p, d, owner));
      var t := NamingTurn(st, mid, p, d, owner, m);
      OneMoreTurn(st, ext, p, d, LoopOwners(st, p, d), turns, t);
      AfterOneMore(ext, p, d, turns, t);
      all := FinishLoop(st, ext, p, d, turns + [t]);
      StillDecided(st, mid, After(ext, p, d, all), p, d, t, Owners(turns));
    }
  }

  lemma SomeResult(r: set<Key>) returns (m: Key)
    ensures r != {} ==> m in r
  {
    m := EMPTY_KEY;
    if r != {} {
      m :| m in r;
    }
  }

  lemma NothingDecided(ext: Index, p: Key, d: Dir, owners: set<Key>)
    ensures Decided(ext, ext, p, d, owners)
  {
  }

  lemma OwnerStored(st: Store, p: Key, d: Dir, owner: Key)
    requires Rollable(st, p) && owner in LoopOwners(st, p, d)
    ensures owner in st.graph
  {
    hide TablesInverse, GraphOk, EdgesStored, ExtOk, ClosureSound, ViewsAgree, WellFormedView, Readable;
    if d == Out {
      var o := SubjectPairs(st, p, owner);
      PairEnds(st, p, owner, o);
    } else {
      var s := ObjectPairs(st, p, owner);
      PairEnds(st, p, s, owner);
    }
  }

  lemma StillDecided(st: Store, ext: Index, last: Index, p: Key, d: Dir, t: OwnerTurn, owners: set<Key>)
    requires ValidStore(st.(ext := ext)) && WellFormedView(TransactionView(st)) && p in st.pk
    requires TurnOk(st, ext, p, d, t)
    requires t.owner !in owners && Decided(TurnResult(ext, p, d, t), last, p, d, owners + {t.owner})
    requires OnlyGrew(TurnResult(ext, p, d, t), last, p)
    ensures Decided(ext, last, p, d, owners) && OnlyGrew(ext, last, p)
  {
    hide ValidStore, WellFormedView, TurnOk, TurnResult, Holds, TurnAdds, TurnFound;
    TurnDecides(st, ext, p, d, t, owners);
    TurnKeeps(st, ext, p, d, t);
    hide Reach;
    ExtendedGrew(ext, TurnResult(ext, p, d, t), p,
                 TurnAdds(d, t.owner, t.ok, TurnFound(st, ext, p, d, t.owner), Named(t.picks)), {t.owner});
    hide Extended;
    GrewGrew(ext, TurnResult(ext, p, d, t), last, p);
  }
}
