/** One rollup of a predicate (db/transaction.go:489-583): every order in which it may walk
    its subjects and objects and name and remove its results, and what each leaves in the
    closure index. */
module Rollups {
  import opened Closure
  import opened Entities
  import opened Graphs
  import opened Keys
  import opened Searches
  import opened Store
  import opened Traversal

  type Index = map<Key, IndexRecord>

  function Opposite(d: Dir): Dir {
    if d == Out then In else Out
  }

  /** `x` is one or more steps from `k` in direction `d`. */
  ghost predicate Reach(d: Dir, e: Edges, k: Key, x: Key) {
    if d == Out then Plus(e, k, x) else Plus(e, x, k)
  }

  function EmptyRecord(k: Key): IndexRecord {
    IndexRecord(k, map[], map[])
  }

  // ---- what a rollup's searches see ----

  /** The tables as the transaction's own searches see them. */
  ghost function TransactionView(st: Store): View {
    View(st.entity, st.graph, st.ext, true)
  }

  ghost function DirEdges(d: Dir, e: Edges): Edges {
    if d == Out then e else Converse(e)
  }

  lemma ReachIsPlus(d: Dir, e: Edges, k: Key, x: Key)
    ensures Reach(d, e, k, x) <==> Plus(DirEdges(d, e), k, x)
  {
    PlusConverse(e, x, k);
  }

  lemma StoreViewWellFormed(st: Store)
    requires ValidStore(st)
    ensures WellFormedView(TransactionView(st))
  {
    hide ClosureSound, ExtOk, TablesInverse;
    var g := TransactionView(st);
    forall k | k in g.nodes
      ensures g.nodes[k].pk == k
    {
      assert NodeOk(st.graph[k], k);
    }
    forall k, d, p, x | k in g.nodes && x in EdgeList(g.nodes[k], d, p)
      ensures x in g.nodes
    {
      if d == Out {
        assert HasOut(st.graph, k, p, x);
      } else {
        assert HasIn(st.graph, x, p, k);
      }
    }
  }

  /** The graph's edges are among the stored pairs, and are all of them when the views agree. */
  lemma RelIsPairs(st: Store, d: Dir, p: Key)
    requires EdgesStored(st.graph, st.preds)
    ensures Rel(TransactionView(st), d, p) <= DirEdges(d, Pairs(st.preds, p))
    ensures ViewsAgree(st.graph, st.preds) ==> Rel(TransactionView(st), d, p) == DirEdges(d, Pairs(st.preds, p))
  {
    var g, e := TransactionView(st), Pairs(st.preds, p);
    PairsAre(st.preds, p);
    forall k, x | (k, x) in Rel(g, d, p)
      ensures (k, x) in DirEdges(d, e)
    {
      if d == Out {
        assert HasOut(st.graph, k, p, x);
      } else {
        assert HasIn(st.graph, x, p, k);
        var pair := (x, k);
        assert pair in e;
      }
    }
    if ViewsAgree(st.graph, st.preds) {
      forall s, o | (s, o) in e
        ensures (if d == Out then (s, o) else (o, s)) in Rel(g, d, p)
      {
        assert HasOut(st.graph, s, p, o) && HasIn(st.graph, s, p, o);
      }
    }
  }

  lemma IndexSoundInView(st: Store, d: Dir, p: Key, e: Edges)
    requires ClosureSoundAt(st.ext, p, e)
    ensures IndexSoundFor(TransactionView(st), d, p, DirEdges(d, e))
  {
    var g := TransactionView(st);
    forall k, x | k in g.index && p in PlusLists(g.index[k], d) && x in PlusLists(g.index[k], d)[p]
      ensures Plus(DirEdges(d, e), k, x)
    {
      assert RecordSound(st.ext[k], k, p, e);
      ReachIsPlus(d, e, k, x);
    }
  }

  // ---- the index as a relation ----

  ghost predicate Keyed(ext: Index) {
    forall k :: k in ext ==> ext[k].pk == k && NoEmptyEntry(ext[k])
  }

  /** The record of `k` has an entry for `p` in direction `d`. */
  ghost predicate Present(ext: Index, k: Key, d: Dir, p: Key) {
    k in ext && p in PlusLists(ext[k], d)
  }

  /** The record's entry for `p` lists `x`. */
  ghost predicate InEntry(r: IndexRecord, d: Dir, p: Key, x: Key) {
    x in ListOf(PlusLists(r, d), p)
  }

  ghost predicate Holds(ext: Index, k: Key, d: Dir, p: Key, x: Key) {
    k in ext && InEntry(ext[k], d, p, x)
  }

  lemma PresentHolds(ext: Index, k: Key, d: Dir, p: Key)
    requires Keyed(ext)
    ensures Present(ext, k, d, p) <==> exists x :: Holds(ext, k, d, p, x)
  {
    if Present(ext, k, d, p) {
      var list := PlusLists(ext[k], d)[p];
      assert NoEmptyEntry(ext[k]);
      assert Holds(ext, k, d, p, list[0]);
    }
  }

  /** Additions to the entries of one predicate: direction, record, listed key. */
  type Additions = iset<(Dir, Key, Key)>

  /** The index gains exactly these additions and the records of `records`. */
  ghost predicate Extended(ext: Index, ext': Index, p: Key, adds: Additions, records: set<Key>) {
    && Keyed(ext') && ext'.Keys == ext.Keys + records
    && forall k, d, q, x :: Holds(ext', k, d, q, x) <==> Holds(ext, k, d, q, x) || (q == p && (d, k, x) in adds)
  }

  lemma WithEdgeHasOne(lists: EdgeLists, p: Key, x: Key, q: Key)
    requires q in WithEdge(lists, p, x) && (q in lists ==> lists[q] != [])
    ensures WithEdge(lists, p, x)[q] != []
  {
  }

  lemma WithPlusEffect(r: IndexRecord, d: Dir, p: Key, x: Key)
    ensures var r' := WithPlus(r, d, p, x);
            && r'.pk == r.pk && PlusLists(r', Opposite(d)) == PlusLists(r, Opposite(d))
            && (forall q, y :: InEntry(r', d, q, y) <==> InEntry(r, d, q, y) || (q == p && y == x))
            && (NoEmptyEntry(r) ==> NoEmptyEntry(r'))
  {
    var r' := WithPlus(r, d, p, x);
    forall q, y
      ensures InEntry(r', d, q, y) <==> InEntry(r, d, q, y) || (q == p && y == x)
    {
      WithEdgeAt(PlusLists(r, d), p, x, q, y);
    }
    if NoEmptyEntry(r) {
      forall c, q | q in PlusLists(r', c)
        ensures PlusLists(r', c)[q] != []
      {
        if c == d {
          assert q in PlusLists(r, d) ==> PlusLists(r, d)[q] != [];
          WithEdgeHasOne(PlusLists(r, d), p, x, q);
        } else {
          assert c == Opposite(d) && PlusLists(r', c) == PlusLists(r, c);
          assert q in PlusLists(r, c);
        }
      }
    }
  }

  lemma OneAddition(ext: Index, d: Dir, p: Key, k: Key, x: Key)
    requires Keyed(ext) && k in ext
    ensures Extended(ext, ext[k := WithPlus(ext[k], d, p, x)], p, iset{(d, k, x)}, {})
  {
    hide NoEmptyEntry;
    WithPlusEffect(ext[k], d, p, x);
    var ext' := ext[k := WithPlus(ext[k], d, p, x)];
    forall j, c, q, y
      ensures Holds(ext', j, c, q, y) <==> Holds(ext, j, c, q, y) || (q == p && (c, j, y) in iset{(d, k, x)})
    {
      if j == k && c != d {
        assert c == Opposite(d);
      }
    }
  }

  lemma NewRecord(ext: Index, p: Key, k: Key)
    requires Keyed(ext) && k !in ext
    ensures Extended(ext, ext[k := EmptyRecord(k)], p, iset{}, {k})
  {
  }

  lemma NoAdditions(ext: Index, p: Key)
    requires Keyed(ext)
    ensures Extended(ext, ext, p, iset{}, {})
  {
  }

  lemma MoreAdditions(a: Index, b: Index, c: Index, p: Key, adds: Additions, more: Additions, records: set<Key>,
                      extra: set<Key>)
    requires Extended(a, b, p, adds, records) && Extended(b, c, p, more, extra)
    ensures Extended(a, c, p, adds + more, records + extra)
  {
    hide Holds, Keyed;
  }

  // ---- runs ----

  /** One owner's turn: the records and keys picked for its results, and whether it ends
      without an error. */
  datatype OwnerTurn = OwnerTurn(owner: Key, picks: seq<(Key, Key)>, ok: bool)

  /** The results that are left after some picks. */
  function Rest(picks: seq<(Key, Key)>, r: set<Key>): set<Key> {
    if picks == [] then r else Rest(picks[..|picks| - 1], r) - {picks[|picks| - 1].1}
  }

  /** Each pick names one of the results left, which has a record, and removes one. */
  ghost predicate Picks(picks: seq<(Key, Key)>, recorded: set<Key>, r: set<Key>) {
    picks == [] ||
    var before := picks[..|picks| - 1];
    var (max, k) := picks[|picks| - 1];
    Picks(before, recorded, r) && max in Rest(before, r) && max in recorded && k in Rest(before, r)
  }

  /** The index and the owner's record in memory after some picks. */
  ghost function Drained(picks: seq<(Key, Key)>, d: Dir, p: Key, owner: Key, ext: Index, own: IndexRecord)
    : (Index, IndexRecord)
  {
    if picks == [] then (ext, own)
    else
      var (max, k) := picks[|picks| - 1];
      var (ext', own') := Drained(picks[..|picks| - 1], d, p, owner, ext, own);
      var other := if max in ext' then ext'[max] else EmptyRecord(max);
      (ext'[max := WithPlus(other, Opposite(d), p, owner)], WithPlus(own', d, p, k))
  }

  function Opened(ext: Index, owner: Key): Index {
    if owner in ext then ext else ext[owner := EmptyRecord(owner)]
  }

  /** What the owner's search finds: nothing if the URI read back for `p` is unknown. */
  ghost function Found(st: Store, ext: Index, p: Key, d: Dir, owner: Key): set<Key>
    requires WellFormedView(TransactionView(st)) && p in st.pk && owner in st.graph
  {
    var g := TransactionView(st.(ext := ext));
    assert WellFormedView(g) && Stored(g, st.graph[owner]);
    match GetHash(g, UriOf(st.pk, p))
    case None => {}
    case Some(q) => SearchFrom(g, d, q, st.graph[owner]).0
  }

  /** A turn that the source may take from this index. It ends with an error where the
      record of some result left is absent. */
  ghost predicate TurnOk(st: Store, ext: Index, p: Key, d: Dir, t: OwnerTurn)
    requires WellFormedView(TransactionView(st)) && p in st.pk
  {
    && t.owner in st.graph
    && var loaded := Opened(ext, t.owner);
       var r := Found(st, loaded, p, d, t.owner);
       && Picks(t.picks, loaded.Keys, r)
       && if t.ok then Rest(t.picks, r) == {} else exists x :: x in Rest(t.picks, r) && x !in loaded
  }

  /** The index after a turn. Only a turn without an error saves the owner's record. */
  ghost function TurnResult(ext: Index, p: Key, d: Dir, t: OwnerTurn): Index {
    var loaded := Opened(ext, t.owner);
    var (drained, own) := Drained(t.picks, d, p, t.owner, loaded, loaded[t.owner]);
    if t.ok then drained[t.owner := own] else drained
  }

  ghost function After(ext: Index, p: Key, d: Dir, turns: seq<OwnerTurn>): Index {
    if turns == [] then ext
    else TurnResult(After(ext, p, d, turns[..|turns| - 1]), p, d, turns[|turns| - 1])
  }

  ghost function Owners(turns: seq<OwnerTurn>): set<Key> {
    set t | t in turns :: t.owner
  }

  predicate AllOk(turns: seq<OwnerTurn>) {
    forall i :: 0 <= i < |turns| ==> turns[i].ok
  }

  /** Turns of different owners, one after the other until one fails. */
  ghost predicate TurnsOk(st: Store, ext: Index, p: Key, d: Dir, owners: set<Key>, turns: seq<OwnerTurn>)
    requires WellFormedView(TransactionView(st)) && p in st.pk
  {
    turns == [] ||
    var before, t := turns[..|turns| - 1], turns[|turns| - 1];
    && TurnsOk(st, ext, p, d, owners, before) && AllOk(before)
    && t.owner in owners - Owners(before) && TurnOk(st, After(ext, p, d, before), p, d, t)
  }

  /** One of the two outer loops: it ends with an error or when all owners had their turn. */
  ghost predicate LoopOk(st: Store, ext: Index, p: Key, d: Dir, owners: set<Key>, turns: seq<OwnerTurn>)
    requires WellFormedView(TransactionView(st)) && p in st.pk
  {
    TurnsOk(st, ext, p, d, owners, turns) && (AllOk(turns) ==> Owners(turns) == owners)
  }

  function Subjects(st: Store, p: Key): set<Key> {
    PredOf(st.preds, p).subjects.Keys
  }

  function Objects(st: Store, p: Key): set<Key> {
    PredOf(st.preds, p).objects.Keys
  }

  /** A rollup: the subjects' turns, and, if none failed, the objects'. */
  datatype RollupRun = RollupRun(first: seq<OwnerTurn>, second: seq<OwnerTurn>)

  ghost predicate RunOk(st: Store, p: Key, run: RollupRun)
    requires WellFormedView(TransactionView(st)) && p in st.pk
  {
    && LoopOk(st, st.ext, p, Out, Subjects(st, p), run.first)
    && if AllOk(run.first) then LoopOk(st, After(st.ext, p, Out, run.first), p, In, Objects(st, p), run.second)
       else run.second == []
  }

  ghost function RunIndex(st: Store, p: Key, run: RollupRun): Index {
    After(After(st.ext, p, Out, run.first), p, In, run.second)
  }

  predicate Completes(run: RollupRun) {
    AllOk(run.first) && AllOk(run.second)
  }

  // ---- what a turn adds ----

  function Named(picks: seq<(Key, Key)>): set<Key> {
    set pick | pick in picks :: pick.0
  }

  lemma NamedMore(picks: seq<(Key, Key)>)
    requires picks != []
    ensures Named(picks) == Named(picks[..|picks| - 1]) + {picks[|picks| - 1].0}
  {
    assert picks == picks[..|picks| - 1] + [picks[|picks| - 1]];
  }

  ghost function NamedAdds(d: Dir, owner: Key, named: set<Key>): Additions {
    iset k | k in named :: (Opposite(d), k, owner)
  }

  ghost function OwnAdds(d: Dir, owner: Key, removed: set<Key>): Additions {
    iset x | x in removed :: (d, owner, x)
  }

  lemma {:induction false} RestShrinks(picks: seq<(Key, Key)>, recorded: set<Key>, r: set<Key>)
    requires Picks(picks, recorded, r)
    ensures Rest(picks, r) <= r && Named(picks) <= r * recorded
  {
    if picks != [] {
      RestShrinks(picks[..|picks| - 1], recorded, r);
      NamedMore(picks);
    }
  }

  /** The owner's record in memory gains what was removed, at its own end. */
  ghost predicate OwnGains(own: IndexRecord, own': IndexRecord, d: Dir, p: Key, removed: set<Key>) {
    && own'.pk == own.pk && PlusLists(own', Opposite(d)) == PlusLists(own, Opposite(d))
    && NoEmptyEntry(own')
    && forall q, x :: InEntry(own', d, q, x) <==> InEntry(own, d, q, x) || (q == p && x in removed)
  }

  /** One more pick adds the owner to the record it names and what it removes to the owner's. */
  lemma PickEffect(ext: Index, ext': Index, own: IndexRecord, own': IndexRecord, d: Dir, p: Key, owner: Key,
                   named: set<Key>, removed: set<Key>, max: Key, k: Key)
    requires Extended(ext, ext', p, NamedAdds(d, owner, named), {}) && max in ext'
    requires OwnGains(own, own', d, p, removed)
    ensures Extended(ext, ext'[max := WithPlus(ext'[max], Opposite(d), p, owner)], p,
                     NamedAdds(d, owner, named + {max}), {})
    ensures OwnGains(own, WithPlus(own', d, p, k), d, p, removed + {k})
  {
    hide Extended, OwnGains, NoEmptyEntry, Keyed, WithPlus;
    ExtendedKeys(ext, ext', p, NamedAdds(d, owner, named), {});
    OneAddition(ext', Opposite(d), p, max, owner);
    MoreAdditions(ext, ext', ext'[max := WithPlus(ext'[max], Opposite(d), p, owner)], p,
                  NamedAdds(d, owner, named), iset{(Opposite(d), max, owner)}, {}, {});
    var none: set<Key> := {};
    assert none + none == none;
    assert NamedAdds(d, owner, named) + iset{(Opposite(d), max, owner)} == NamedAdds(d, owner, named + {max});
    GainsOne(own, own', d, p, removed, k);
  }

  lemma {:induction false} DrainedEffect(picks: seq<(Key, Key)>, d: Dir, p: Key, owner: Key, ext: Index,
                                         own: IndexRecord, r: set<Key>)
    requires Keyed(ext) && NoEmptyEntry(own) && Picks(picks, ext.Keys, r)
    ensures var (ext', own') := Drained(picks, d, p, owner, ext, own);
            && Extended(ext, ext', p, NamedAdds(d, owner, Named(picks)), {})
            && OwnGains(own, own', d, p, r - Rest(picks, r))
  {
    hide Extended, OwnGains, NoEmptyEntry, Keyed, NamedAdds, WithPlus;
    if picks == [] {
      NoAdditions(ext, p);
      assert NamedAdds(d, owner, Named(picks)) == iset{} by {
        NoneNamed(d, owner);
      }
      GainsNothing(own, d, p, r - r);
    } else {
      var before := picks[..|picks| - 1];
      var (max, k) := picks[|picks| - 1];
      DrainedEffect(before, d, p, owner, ext, own, r);
      var (ext', own') := Drained(before, d, p, owner, ext, own);
      ExtendedKeys(ext, ext', p, NamedAdds(d, owner, Named(before)), {});
      PickEffect(ext, ext', own, own', d, p, owner, Named(before), r - Rest(before, r), max, k);
      NamedMore(picks);
      RestShrinks(before, ext.Keys, r);
      assert r - Rest(before, r) + {k} == r - Rest(picks, r);
    }
  }

  lemma NoneNamed(d: Dir, owner: Key)
    ensures NamedAdds(d, owner, Named([])) == iset{}
  {
  }

  lemma ExtendedKeys(ext: Index, ext': Index, p: Key, adds: Additions, records: set<Key>)
    requires Extended(ext, ext', p, adds, records)
    ensures Keyed(ext') && ext'.Keys == ext.Keys + records
  {
  }

  lemma GainsNothing(own: IndexRecord, d: Dir, p: Key, none: set<Key>)
    requires NoEmptyEntry(own) && none == {}
    ensures OwnGains(own, own, d, p, none)
  {
  }

  lemma GainsOne(own: IndexRecord, own': IndexRecord, d: Dir, p: Key, removed: set<Key>, k: Key)
    requires OwnGains(own, own', d, p, removed)
    ensures OwnGains(own, WithPlus(own', d, p, k), d, p, removed + {k})
  {
    WithPlusEffect(own', d, p, k);
    var more := WithPlus(own', d, p, k);
    assert NoEmptyEntry(own') && NoEmptyEntry(more);
    assert more.pk == own.pk && PlusLists(more, Opposite(d)) == PlusLists(own, Opposite(d));
    hide NoEmptyEntry, WithPlus;
    forall q, x
      ensures InEntry(more, d, q, x) <==>
                InEntry(own, d, q, x) || (q == p && x in removed + {k})
    {
      assert InEntry(own', d, q, x) <==> InEntry(own, d, q, x) || (q == p && x in removed);
    }
  }

  /** What a turn adds to the index, given what its search found and which results it named:
      the owner to the records named, and, unless it fails, the results to the owner's
      record, whose other half is saved as it was loaded. */
  ghost function TurnAdds(d: Dir, owner: Key, ok: bool, r: set<Key>, named: set<Key>): Additions {
    if ok then OwnAdds(d, owner, r) + NamedAdds(d, owner, named - {owner}) else NamedAdds(d, owner, named)
  }

  ghost function TurnFound(st: Store, ext: Index, p: Key, d: Dir, owner: Key): set<Key>
    requires WellFormedView(TransactionView(st)) && p in st.pk && owner in st.graph
  {
    Found(st, Opened(ext, owner), p, d, owner)
  }

  lemma OpenedEffect(ext: Index, p: Key, owner: Key)
    requires Keyed(ext)
    ensures Extended(ext, Opened(ext, owner), p, iset{}, {owner}) && owner in Opened(ext, owner)
    ensures Keyed(Opened(ext, owner))
  {
    if owner !in ext {
      NewRecord(ext, p, owner);
    }
  }

  lemma TurnEffect(st: Store, ext: Index, p: Key, d: Dir, t: OwnerTurn)
    requires WellFormedView(TransactionView(st)) && p in st.pk && Keyed(ext) && TurnOk(st, ext, p, d, t)
    ensures var r := TurnFound(st, ext, p, d, t.owner);
            && Named(t.picks) <= r
            && Extended(ext, TurnResult(ext, p, d, t), p, TurnAdds(d, t.owner, t.ok, r, Named(t.picks)), {t.owner})
  {
    var loaded, r := Opened(ext, t.owner), TurnFound(st, ext, p, d, t.owner);
    hide Extended, OwnGains, Keyed, Found, WellFormedView;
    OpenedEffect(ext, p, t.owner);
    assert NoEmptyEntry(loaded[t.owner]) && loaded[t.owner].pk == t.owner by {
      KeyedRecord(loaded, t.owner);
    }
    DrainedEffect(t.picks, d, p, t.owner, loaded, loaded[t.owner], r);
    RestShrinks(t.picks, loaded.Keys, r);
    var (drained, own) := Drained(t.picks, d, p, t.owner, loaded, loaded[t.owner]);
    var named := NamedAdds(d, t.owner, Named(t.picks));
    MoreAdditions(ext, loaded, drained, p, iset{}, named, {t.owner}, {});
    assert iset{} + named == named && {t.owner} + {} == {t.owner};
    if t.ok {
      assert r - {} == r;
      SavedEffect(ext, loaded, drained, own, p, d, t.owner, r, Named(t.picks));
    }
  }

  lemma KeyedRecord(ext: Index, k: Key)
    requires Keyed(ext) && k in ext
    ensures ext[k].pk == k && NoEmptyEntry(ext[k])
  {
  }

  lemma OwnerAdds(d: Dir, owner: Key, r: set<Key>, named: set<Key>, c: Dir, x: Key)
    ensures (c, owner, x) in TurnAdds(d, owner, true, r, named) <==> c == d && x in r
  {
    assert c == d || c == Opposite(d);
  }

  lemma OtherAdds(d: Dir, owner: Key, r: set<Key>, named: set<Key>, c: Dir, k: Key, x: Key)
    requires k != owner
    ensures (c, k, x) in TurnAdds(d, owner, true, r, named) <==> c == Opposite(d) && k in named && x == owner
    ensures (c, k, x) in NamedAdds(d, owner, named) <==> c == Opposite(d) && k in named && x == owner
  {
  }

  /** Saving the owner's record replaces what the turn put there in the meantime. */
  lemma SavedEffect(ext: Index, loaded: Index, drained: Index, own: IndexRecord, p: Key, d: Dir, owner: Key,
                    r: set<Key>, named: set<Key>)
    requires Extended(ext, loaded, p, iset{}, {owner}) && owner in loaded && loaded[owner].pk == owner
    requires Extended(ext, drained, p, NamedAdds(d, owner, named), {owner})
    requires OwnGains(loaded[owner], own, d, p, r)
    ensures Extended(ext, drained[owner := own], p, TurnAdds(d, owner, true, r, named), {owner})
  {
    var ext' := drained[owner := own];
    assert Keyed(ext') by {
      hide NoEmptyEntry;
    }
    hide Keyed, NoEmptyEntry;
    forall k, c, q, x
      ensures Holds(ext', k, c, q, x) <==>
                Holds(ext, k, c, q, x) || (q == p && (c, k, x) in TurnAdds(d, owner, true, r, named))
    {
      if k == owner {
        assert Holds(loaded, owner, c, q, x) <==> Holds(ext, owner, c, q, x);
        assert Holds(ext', k, c, q, x) <==> InEntry(own, c, q, x);
        OwnerAdds(d, owner, r, named, c, x);
      } else {
        assert Holds(ext', k, c, q, x) <==> Holds(drained, k, c, q, x);
        OtherAdds(d, owner, r, named, c, k, x);
      }
    }
  }
}
