/** What an insert leaves in the closure index (db/transaction.go:342-350): consequences of
    its being a chain of rollups, one for each predicate of the data set and its inverse. */
module Inserts {
  import opened Closure
  import opened Entities
  import opened Graphs
  import opened InClosures
  import opened Keys
  import opened OutClosures
  import opened RollupLoops
  import opened RollupRuns
  import opened Rollups
  import opened Searches
  import opened Store
  import opened Transactions
  import opened Uris

  // ---- one rollup ----

  /** Records and entries are only added, and entries only for these predicates. */
  ghost predicate IndexGrew(ext: Index, ext': Index, ps: seq<Key>) {
    && ext.Keys <= ext'.Keys
    && (forall k, d, q, x :: Holds(ext, k, d, q, x) ==> Holds(ext', k, d, q, x))
    && forall k, d, q, x :: Holds(ext', k, d, q, x) && q !in ps ==> Holds(ext, k, d, q, x)
  }

  lemma SameTriplesValid(st: Store, st': Store)
    requires ValidStore(st) && st' == st.(preds := st'.preds) && SameTriples(st.preds, st'.preds)
    ensures ValidStore(st')
  {
    SameTriplesHave(st.preds, st'.preds);
    hide TablesInverse, GraphOk, ExtOk, ClosureSound, HasPair, HasOut, HasIn;
    SamePredsOk(st, st');
    SameTriplesEdges(st.graph, st.preds, st'.preds);
    ClosureGrows(st.entity, st.pk, st.ext, st.preds, st'.preds);
  }

  lemma SamePredsOk(st: Store, st': Store)
    requires PredsOk(st.graph, st.preds) && SameTriples(st.preds, st'.preds)
    ensures forall p :: p in st'.preds ==> PredRecordOk(st'.preds[p], p)
  {
    forall p | p in st'.preds
      ensures PredRecordOk(st'.preds[p], p)
    {
      assert PredOf(st'.preds, p) == PredOf(st.preds, p);
    }
  }

  lemma SamePairs(st: Store, st': Store, p: Key)
    requires SameTriples(st.preds, st'.preds)
    ensures Pairs(st'.preds, p) == Pairs(st.preds, p)
  {
    assert PredOf(st'.preds, p) == PredOf(st.preds, p);
  }

  lemma StepRun(st: Store, st': Store, p: Key) returns (run: RollupRun)
    requires RollStep(st, st', p)
    ensures RolledUp(st, st', p) && WellFormedView(TransactionView(st)) && p in st.pk
    ensures RunOk(st, p, run) && st'.ext == RunIndex(st, p, run)
  {
    hide RolledUp, WellFormedView, RunOk, RunIndex;
    var ok :| RunTaken(st, p, st'.ext, ok);
    run :| RunOk(st, p, run) && st'.ext == RunIndex(st, p, run);
  }

  lemma GrewIndex(ext: Index, ext': Index, p: Key)
    requires OnlyGrew(ext, ext', p)
    ensures IndexGrew(ext, ext', [p])
  {
    hide Holds;
  }

  /** A rollup leaves a valid store with the same triples, in which only the index has grown. */
  lemma StepKeeps(st: Store, st': Store, p: Key)
    requires ValidStore(st) && RollStep(st, st', p)
    ensures ValidStore(st') && OnlyIndexChanged(st, st') && IndexGrew(st.ext, st'.ext, [p])
  {
    var run := StepRun(st, st', p);
    hide ValidStore, SameTriples, RunOk, RunIndex, WellFormedView, OnlyGrew, IndexGrew;
    RollupKeeps(st, p, run);
    GrewIndex(st.ext, st'.ext, p);
    SameTriplesValid(st.(ext := st'.ext), st');
  }

  /** Some subject of the predicate has a record. */
  ghost predicate SubjectRecorded(preds: map<Key, PredRecord>, p: Key, ext: Index) {
    exists a, b :: Has(preds, a, p, b) && a in ext
  }

  /** Of a predicate with pairs, some subject gets a record: the one whose turn is first. */
  lemma StepRecords(st: Store, st': Store, p: Key, s: Key, o: Key)
    requires ValidStore(st) && RollStep(st, st', p) && Has(st.preds, s, p, o)
    ensures SubjectRecorded(st.preds, p, st'.ext)
  {
    var run := StepRun(st, st', p);
    PairsAre(st.preds, p);
    PairEnds(st, p, s, o);
    assert st.(ext := st.ext) == st;
    hide ValidStore, WellFormedView, Has, Pairs, Subjects, Objects, After, TurnsOk, OnlyGrew, RolledUp;
    TurnsKeep(st, st.ext, p, Out, Subjects(st, p), run.first);
    var mid := After(st.ext, p, Out, run.first);
    assert mid.Keys <= st'.ext.Keys by {
      SecondGrows(st, p, run);
    }
    var a := FirstOwner(st, p, run, s);
    var b := SubjectPairs(st, p, a);
  }

  lemma SecondGrows(st: Store, p: Key, run: RollupRun)
    requires ValidStore(st) && WellFormedView(TransactionView(st)) && p in st.pk && RunOk(st, p, run)
    ensures After(st.ext, p, Out, run.first).Keys <= RunIndex(st, p, run).Keys
  {
    assert st.(ext := st.ext) == st;
    hide ValidStore, WellFormedView, TurnsOk;
    TurnsKeep(st, st.ext, p, Out, Subjects(st, p), run.first);
    if AllOk(run.first) {
      TurnsKeep(st, After(st.ext, p, Out, run.first), p, In, Objects(st, p), run.second);
    }
  }

  lemma FirstOwner(st: Store, p: Key, run: RollupRun, s: Key) returns (a: Key)
    requires WellFormedView(TransactionView(st)) && p in st.pk && RunOk(st, p, run) && s in Subjects(st, p)
    requires Owners(run.first) <= Subjects(st, p)
    ensures a in Owners(run.first) && a in Subjects(st, p)
  {
    hide WellFormedView, TurnsOk;
    if AllOk(run.first) {
      a := s;
    } else {
      assert run.first != [];
      a := run.first[0].owner;
      assert run.first[0] in run.first;
    }
  }

  // ---- a chain of rollups ----

  lemma NoIndexGrew(ext: Index)
    ensures IndexGrew(ext, ext, [])
  {
  }

  lemma IndexGrewTwice(a: Index, b: Index, c: Index, ps: seq<Key>, p: Key)
    requires IndexGrew(a, b, ps) && IndexGrew(b, c, [p])
    ensures IndexGrew(a, c, ps + [p])
  {
    hide Holds;
  }

  lemma OnlyIndexTwice(a: Store, b: Store, c: Store)
    requires OnlyIndexChanged(a, b) && OnlyIndexChanged(b, c)
    ensures OnlyIndexChanged(a, c)
  {
  }

  /** The last step of a chain. */
  lemma LastStep(st: Store, st': Store, ps: seq<Key>) returns (mid: Store)
    requires RollsUp(st, st', ps) && ps != []
    ensures RollsUp(st, mid, ps[..|ps| - 1]) && RollStep(mid, st', ps[|ps| - 1])
    ensures ps == ps[..|ps| - 1] + [ps[|ps| - 1]]
  {
    hide RollStep;
    var before, p := ps[..|ps| - 1], ps[|ps| - 1];
    mid :| RollsUp(st, mid, before) && RollStep(mid, st', p);
  }

  /** So does a chain of rollups, and the entries of other predicates stay as they are. */
  lemma {:induction false} ChainKeeps(st: Store, st': Store, ps: seq<Key>)
    requires ValidStore(st) && RollsUp(st, st', ps)
    ensures ValidStore(st') && OnlyIndexChanged(st, st') && IndexGrew(st.ext, st'.ext, ps)
    decreases |ps|
  {
    hide ValidStore, RollStep, OnlyIndexChanged, IndexGrew;
    if ps == [] {
      NothingChanged(st);
      NoIndexGrew(st.ext);
    } else {
      var mid := LastStep(st, st', ps);
      hide RollsUp;
      ChainKeeps(st, mid, ps[..|ps| - 1]);
      StepKeeps(mid, st', ps[|ps| - 1]);
      OnlyIndexTwice(st, mid, st');
      IndexGrewTwice(st.ext, mid.ext, st'.ext, ps[..|ps| - 1], ps[|ps| - 1]);
    }
  }

  lemma RecordStays(preds: map<Key, PredRecord>, p: Key, ext: Index, ext': Index, ps: seq<Key>)
    requires SubjectRecorded(preds, p, ext) && IndexGrew(ext, ext', ps)
    ensures SubjectRecorded(preds, p, ext')
  {
    hide Has, Holds;
  }

  lemma SameSubjectRecorded(st: Store, mid: Store, p: Key, ext: Index)
    requires OnlyIndexChanged(st, mid) && SubjectRecorded(mid.preds, p, ext)
    ensures SubjectRecorded(st.preds, p, ext)
  {
    SameTriplesHave(st.preds, mid.preds);
    hide Has, SameTriples;
  }

  lemma StillHas(st: Store, mid: Store, s: Key, p: Key, o: Key)
    requires OnlyIndexChanged(st, mid) && Has(st.preds, s, p, o)
    ensures Has(mid.preds, s, p, o)
  {
    SameTriplesHave(st.preds, mid.preds);
  }

  /** Every predicate of the chain that has pairs has a subject with a record. */
  lemma {:induction false} ChainRecords(st: Store, st': Store, ps: seq<Key>, p: Key, s: Key, o: Key)
    requires ValidStore(st) && RollsUp(st, st', ps) && p in ps && Has(st.preds, s, p, o)
    ensures SubjectRecorded(st.preds, p, st'.ext)
    decreases |ps|
  {
    hide RollStep, ValidStore, Has, OnlyIndexChanged, IndexGrew, SubjectRecorded;
    var mid := LastStep(st, st', ps);
    hide RollsUp;
    var before, q := ps[..|ps| - 1], ps[|ps| - 1];
    ChainKeeps(st, mid, before);
    if p in before {
      ChainRecords(st, mid, before, p, s, o);
      StepKeeps(mid, st', q);
      RecordStays(st.preds, p, mid.ext, st'.ext, [q]);
    } else {
      StillHas(st, mid, s, p, o);
      StepRecords(mid, st', p, s, o);
      SameSubjectRecorded(st, mid, p, st'.ext);
    }
  }

  // ---- exact rollups in a chain ----

  /** Rollups of other predicates leave a predicate as it was for its own. */
  lemma OthersKeepPresent(ext: Index, ext': Index, ps: seq<Key>, d: Dir, p: Key, e: Edges)
    requires Keyed(ext) && Keyed(ext') && IndexGrew(ext, ext', ps) && p !in ps
    requires PresentComplete(ext, d, p, e)
    ensures PresentComplete(ext', d, p, e)
  {
    forall k, x | Present(ext', k, d, p) && Reach(d, e, k, x)
      ensures Holds(ext', k, d, p, x)
    {
      PresentHolds(ext', k, d, p);
      PresentHolds(ext, k, d, p);
      hide Holds, Present;
    }
  }

  lemma OthersKeepReady(st: Store, mid: Store, ps: seq<Key>, p: Key)
    requires Rollable(st, p) && ObjectsRecorded(st, p) && ValidStore(mid)
    requires OnlyIndexChanged(st, mid) && IndexGrew(st.ext, mid.ext, ps) && p !in ps
    ensures Rollable(mid, p) && ObjectsRecorded(mid, p) && Pairs(mid.preds, p) == Pairs(st.preds, p)
    ensures forall d :: PresentComplete(st.ext, d, p, Pairs(st.preds, p)) ==>
                          PresentComplete(mid.ext, d, p, Pairs(mid.preds, p))
  {
    SamePairs(st, mid, p);
    SameTriplesHave(st.preds, mid.preds);
    ValidKeyed(st);
    ValidKeyed(mid);
    hide ValidStore, WellFormedView, Keyed, Has, HasOut, HasIn, PresentComplete, Pairs, Readable;
    forall d | PresentComplete(st.ext, d, p, Pairs(st.preds, p))
      ensures PresentComplete(mid.ext, d, p, Pairs(mid.preds, p))
    {
      OthersKeepPresent(st.ext, mid.ext, ps, d, p, Pairs(st.preds, p));
    }
  }

  /** Exact entries stay exact: later entries are true as well. */
  lemma ExactStays(mid: Store, st': Store, ps: seq<Key>, p: Key, d: Dir)
    requires ValidStore(st') && Undiverted(st'.entity, st'.pk, p) && IndexGrew(mid.ext, st'.ext, ps)
    requires AllExact(mid.ext, d, p, Pairs(st'.preds, p))
    ensures AllExact(st'.ext, d, p, Pairs(st'.preds, p))
  {
    var e := Pairs(st'.preds, p);
    assert ClosureSoundAt(st'.ext, p, e);
    SoundIsHolds(st'.ext, p, e);
    hide ValidStore, ClosureSoundAt, Holds, Reach, Undiverted, Pairs;
  }

  lemma StepIsExact(st: Store, st': Store, p: Key)
    requires RollsExactly(st, p) && RollStep(st, st', p)
    ensures AllExact(st'.ext, Out, p, Pairs(st.preds, p))
    ensures RollsBothExactly(st, p) ==> AllExact(st'.ext, In, p, Pairs(st.preds, p))
  {
    var run := StepRun(st, st', p);
    hide RunOk, RunIndex, AllExact, RollStep, RolledUp, Completes, NoSiblingLost;
    RunIsExact(st, p, run);
    if RollsBothExactly(st, p) {
      InIsExact(st, p, run);
    }
  }

  lemma MidwayExact(mid: Store, st': Store, p: Key, q: Key, e: Edges, d: Dir)
    requires ValidStore(st') && Undiverted(st'.entity, st'.pk, p) && IndexGrew(mid.ext, st'.ext, [q])
    requires e == Pairs(st'.preds, p) && AllExact(mid.ext, d, p, e)
    ensures AllExact(st'.ext, d, p, e)
  {
    hide *;
    ExactStays(mid, st', [q], p, d);
  }

  lemma StillReady(st: Store, mid: Store, ps: seq<Key>, p: Key)
    requires RollsExactly(st, p) && ValidStore(mid)
    requires OnlyIndexChanged(st, mid) && IndexGrew(st.ext, mid.ext, ps) && p !in ps
    ensures RollsExactly(mid, p) && Pairs(mid.preds, p) == Pairs(st.preds, p)
    ensures RollsBothExactly(st, p) ==> RollsBothExactly(mid, p)
  {
    hide ValidStore, OnlyIndexChanged, IndexGrew, Rollable, ObjectsRecorded, PresentComplete, NoSiblingLost,
         MeetOnlyAtEnds, Pairs;
    OthersKeepReady(st, mid, ps, p);
  }

  lemma ReadyIsValid(st: Store, p: Key)
    requires RollsExactly(st, p)
    ensures ValidStore(st) && Undiverted(st.entity, st.pk, p)
  {
    RollableUndiverted(st, p);
  }

  /** Where every rollup of a predicate is exact before the chain, the entries are exact after
      it, whatever else is rolled up and whenever its own turn comes. */
  lemma {:induction false} ChainIsExact(st: Store, st': Store, ps: seq<Key>, p: Key)
    requires RollsExactly(st, p) && RollsUp(st, st', ps) && p in ps
    ensures AllExact(st'.ext, Out, p, Pairs(st.preds, p))
    ensures RollsBothExactly(st, p) ==> AllExact(st'.ext, In, p, Pairs(st.preds, p))
    decreases |ps|
  {
    hide *;
    ReadyIsValid(st, p);
    var mid := LastStep(st, st', ps);
    var before, q := ps[..|ps| - 1], ps[|ps| - 1];
    ChainKeeps(st, mid, before);
    StepKeeps(mid, st', q);
    SameNames(st, mid, p);
    SameNames(mid, st', p);
    if p in before {
      ChainIsExact(st, mid, before, p);
      MidwayExact(mid, st', p, q, Pairs(st.preds, p), Out);
      if RollsBothExactly(st, p) {
        MidwayExact(mid, st', p, q, Pairs(st.preds, p), In);
      }
    } else {
      StillReady(st, mid, before, p);
      StepIsExact(mid, st', p);
    }
  }

  lemma SameNames(st: Store, st': Store, p: Key)
    requires OnlyIndexChanged(st, st')
    ensures Undiverted(st.entity, st.pk, p) ==> Undiverted(st'.entity, st'.pk, p)
    ensures Pairs(st'.preds, p) == Pairs(st.preds, p)
  {
    SamePairs(st, st', p);
  }

  // ---- the inverse edges ----

  /** Even where predicates have several inverses, an insert honours the noted one for every
      triple stored before, and a triple that it adds mirrors one it leaves stored. */
  lemma {:induction false} ReversesMirror(st: Store, st': Store, order: seq<Key>, inverse: map<Key, Key>)
    requires Reverses(st, st', order, inverse)
    ensures forall s, p, o :: Has(st.preds, s, p, o) ==> Has(st'.preds, s, p, o)
    ensures forall s, p, o :: p in order && p in inverse && Has(st.preds, s, p, o) ==> Has(st'.preds, o, inverse[p], s)
    ensures forall s, p, o :: Has(st'.preds, s, p, o) && !Has(st.preds, s, p, o) ==>
                                exists q :: q in order && q in inverse && inverse[q] == p && Has(st'.preds, o, q, s)
    decreases |order|
  {
    hide InStep, Has;
    if order == [] {
      SameTriplesHave(st.preds, st'.preds);
    } else {
      var before, p := order[..|order| - 1], order[|order| - 1];
      assert order == before + [p];
      var mid :| Reverses(st, mid, before, inverse) && PredicateReversed(mid, st', p, inverse[p]);
      ReversesMirror(st, mid, before, inverse);
      hide Reverses;
      forall a, r, b | Has(st'.preds, a, r, b) && !Has(st.preds, a, r, b)
        ensures exists q :: q in order && q in inverse && inverse[q] == r && Has(st'.preds, b, q, a)
      {
        if Has(mid.preds, a, r, b) {
          var q :| q in before && q in inverse && inverse[q] == r && Has(mid.preds, b, q, a);
          assert q in order && Has(st'.preds, b, q, a);
        } else {
          assert p in order && Has(st'.preds, b, p, a);
        }
      }
    }
  }

  // ---- one insert ----

  /** The predicates that an insert rolls up: the data set's, and their noted inverses. */
  lemma {:induction false} VisitedIff(order: seq<Key>, inverse: map<Key, Key>, q: Key)
    ensures q in Visits(order, inverse) <==> q in order || exists p :: p in order && p in inverse && inverse[p] == q
    decreases |order|
  {
    if order != [] {
      var before, p := order[..|order| - 1], order[|order| - 1];
      assert order == before + [p];
      VisitedIff(before, inverse, q);
      if p in inverse && inverse[p] == q {
        assert p in order;
      }
    }
  }

  /** An insert keeps the store valid, drops no name, triple, record or entry, and adds entries
      only for the predicates it rolls up. */
  lemma InsertKeeps(st: Store, dataset: seq<Triple>, base: Store, reversed: Store, st': Store, order: seq<Key>,
                    inverse: map<Key, Key>)
    requires Inserted(st, dataset, base, reversed, st', order, inverse)
    ensures ValidStore(st') && Keeps(st.entity, st'.entity) && OnlyIndexChanged(reversed, st')
    ensures forall s, p, o :: Has(st.preds, s, p, o) ==> Has(st'.preds, s, p, o)
    ensures IndexGrew(st.ext, st'.ext, Visits(order, inverse))
  {
    hide ValidStore, InverseNoted, PredicatesOf, RollsUp, Visits, InStep, OneInverse, InverseClosure, IndexGrew,
         Reflexive, InData, Names, NoDuplicates, NamesGrew;
    ChainKeeps(reversed, st', Visits(order, inverse));
    SameTriplesHave(reversed.preds, st'.preds);
    hide Has, SameTriples;
  }

  lemma DatasetPair(st: Store, dataset: seq<Triple>, base: Store, reversed: Store, t: Triple) returns (s: Key, o: Key)
    requires AllLoaded(st, base, dataset) && Completed(base, reversed) && t in dataset
    ensures Bytes(t.pred) in base.entity && Has(reversed.preds, s, base.entity[Bytes(t.pred)], o)
    ensures Names(base.entity, t, s, base.entity[Bytes(t.pred)], o)
  {
    hide InStep, OneInverse, InverseClosure, Has, Reflexive;
    var a, p, b :| Names(base.entity, t, a, p, b);
    s, o := a, b;
    assert InData(base.entity, dataset, s, p, o);
  }

  /** After an insert, each of the predicates that it rolls up and that has pairs has a subject
      with a record; so have the data set's predicates. */
  lemma InsertRecords(st: Store, dataset: seq<Triple>, base: Store, reversed: Store, st': Store, order: seq<Key>,
                      inverse: map<Key, Key>)
    requires Inserted(st, dataset, base, reversed, st', order, inverse)
    ensures forall p, s, o :: p in Visits(order, inverse) && Has(st'.preds, s, p, o) ==>
                                SubjectRecorded(st'.preds, p, st'.ext)
    ensures forall t :: t in dataset ==>
                          Bytes(t.pred) in base.entity &&
                            SubjectRecorded(st'.preds, base.entity[Bytes(t.pred)], st'.ext)
  {
    hide ValidStore, InverseNoted, RollsUp, AllLoaded, Completed, NoDuplicates, Visits, SubjectRecorded, IndexGrew,
         OnlyIndexChanged, Has, Names;
    ChainKeeps(reversed, st', Visits(order, inverse));
    forall p, s, o | p in Visits(order, inverse) && Has(st'.preds, s, p, o)
      ensures SubjectRecorded(st'.preds, p, st'.ext)
    {
      InsertRecord(reversed, st', Visits(order, inverse), p, s, o);
    }
    forall t | t in dataset
      ensures Bytes(t.pred) in base.entity && SubjectRecorded(st'.preds, base.entity[Bytes(t.pred)], st'.ext)
    {
      var s, o := DatasetPair(st, dataset, base, reversed, t);
      var p := base.entity[Bytes(t.pred)];
      assert p in (set k | k in order);
      VisitedIff(order, inverse, p);
      StillHas(reversed, st', s, p, o);
      InsertRecord(reversed, st', Visits(order, inverse), p, s, o);
    }
  }

  lemma InsertRecord(reversed: Store, st': Store, ps: seq<Key>, p: Key, s: Key, o: Key)
    requires ValidStore(reversed) && RollsUp(reversed, st', ps) && OnlyIndexChanged(reversed, st')
    requires p in ps && Has(st'.preds, s, p, o)
    ensures SubjectRecorded(st'.preds, p, st'.ext)
  {
    hide ValidStore, RollsUp, Has;
    SameTriplesHave(reversed.preds, st'.preds);
    ChainRecords(reversed, st', ps, p, s, o);
  }

  /** And where rollups of such a predicate are exact once the inverse edges are added, its
      entries are exactly the closure of the stored pairs when the insert ends. */
  lemma InsertIsExact(st: Store, dataset: seq<Triple>, base: Store, reversed: Store, st': Store, order: seq<Key>,
                      inverse: map<Key, Key>, p: Key)
    requires Inserted(st, dataset, base, reversed, st', order, inverse) && p in Visits(order, inverse)
    requires RollsExactly(reversed, p)
    ensures AllExact(st'.ext, Out, p, Pairs(st'.preds, p))
    ensures RollsBothExactly(reversed, p) ==> forall d :: AllExact(st'.ext, d, p, Pairs(st'.preds, p))
  {
    hide ValidStore, InverseNoted, RollsUp, AllLoaded, Completed, NoDuplicates, Visits, PredicatesOf, AllExact, Pairs,
         RollsExactly, RollsBothExactly, IndexGrew;
    ChainIsExact(reversed, st', Visits(order, inverse), p);
    ChainKeeps(reversed, st', Visits(order, inverse));
    SamePairs(reversed, st', p);
    if RollsBothExactly(reversed, p) {
      forall d
        ensures AllExact(st'.ext, d, p, Pairs(st'.preds, p))
      {
        assert d == Out || d == In;
      }
    }
  }

  // ---- a run of inserts ----

  lemma InsertedOnceKeeps(st: Store, dataset: seq<Triple>, st': Store)
    requires InsertedOnce(st, dataset, st')
    ensures ValidStore(st') && Keeps(st.entity, st'.entity) && st.ext.Keys <= st'.ext.Keys
    ensures forall s, p, o :: Has(st.preds, s, p, o) ==> Has(st'.preds, s, p, o)
  {
    hide Inserted, ValidStore, Has, Holds;
    var base, reversed, order, inverse :| Inserted(st, dataset, base, reversed, st', order, inverse);
    InsertKeeps(st, dataset, base, reversed, st', order, inverse);
  }

  lemma {:induction false} RunKeepsAll(db: Store, datasets: seq<seq<Triple>>, db': Store)
    requires ValidStore(db) && Inserts(db, datasets, db')
    ensures ValidStore(db') && Keeps(db.entity, db'.entity) && db.ext.Keys <= db'.ext.Keys
    ensures forall s, p, o :: Has(db.preds, s, p, o) ==> Has(db'.preds, s, p, o)
    decreases |datasets|
  {
    hide InsertedOnce, ValidStore, Has;
    if datasets != [] {
      var first, rest := datasets[0], datasets[1..];
      var mid :| InsertedOnce(db, first, mid) && Inserts(mid, rest, db');
      InsertedOnceKeeps(db, first, mid);
      RunKeepsAll(mid, rest, db');
    }
  }

  /** A name that some inserted triple brings along. */
  ghost predicate Brought(datasets: seq<seq<Triple>>, b: string) {
    exists ds, t :: ds in datasets && t in ds && Mentions(t, b)
  }

  lemma OnceNames(st: Store, dataset: seq<Triple>, st': Store)
    requires InsertedOnce(st, dataset, st')
    ensures NamesGrew(st.entity, st'.entity, dataset)
  {
    hide Inserted, NamesGrew, ValidStore;
    var base, reversed, order, inverse :| Inserted(st, dataset, base, reversed, st', order, inverse);
    SameEntity(st, dataset, base, reversed, st', order, inverse);
    InsertedLoads(st, dataset, base, reversed, st', order, inverse);
  }

  lemma BroughtFirst(first: seq<Triple>, rest: seq<seq<Triple>>, b: string)
    ensures Brought([first] + rest, b) <==> (exists t :: t in first && Mentions(t, b)) || Brought(rest, b)
  {
    hide Mentions;
    assert forall ds :: ds in [first] + rest <==> ds == first || ds in rest;
  }

  /** After a run exactly the names of the inserted triples have joined the tables, with the
      predicates' also with a "+". */
  lemma {:induction false} RunNames(db: Store, datasets: seq<seq<Triple>>, db': Store)
    requires Inserts(db, datasets, db')
    ensures forall b :: b in db'.entity <==> b in db.entity || Brought(datasets, b)
    decreases |datasets|
  {
    hide InsertedOnce, Brought;
    if datasets == [] {
      assert forall b :: !Brought([], b) by {
        NothingBrought();
      }
    } else {
      var first, rest := datasets[0], datasets[1..];
      var mid :| InsertedOnce(db, first, mid) && Inserts(mid, rest, db');
      OnceNames(db, first, mid);
      RunNames(mid, rest, db');
      assert datasets == [first] + rest;
      forall b
        ensures b in db'.entity <==> b in db.entity || Brought(datasets, b)
      {
        BroughtFirst(first, rest, b);
      }
    }
  }

  lemma NothingBrought()
    ensures forall b :: !Brought([], b)
  {
  }

  /** After any run of inserts, the predicate of every inserted triple has a subject with an
      index record. */
  lemma {:induction false} LoadedIsRecorded(db: Store, datasets: seq<seq<Triple>>, db': Store, dataset: seq<Triple>,
                                            t: Triple)
    requires ValidStore(db) && Inserts(db, datasets, db') && dataset in datasets && t in dataset
    ensures Bytes(t.pred) in db'.entity && SubjectRecorded(db'.preds, db'.entity[Bytes(t.pred)], db'.ext)
    decreases |datasets|
  {
    hide InsertedOnce, ValidStore, Has;
    var first, rest := datasets[0], datasets[1..];
    assert datasets == [first] + rest;
    var mid :| InsertedOnce(db, first, mid) && Inserts(mid, rest, db');
    InsertedOnceKeeps(db, first, mid);
    if dataset in rest {
      LoadedIsRecorded(mid, rest, db', dataset, t);
    } else {
      OnceRecorded(db, first, mid, t);
      RunKeepsAll(mid, rest, db');
    }
  }

  /** And every inserted triple's names have keys and its key triple is stored. */
  lemma {:induction false} LoadedIsStored(db: Store, datasets: seq<seq<Triple>>, db': Store, dataset: seq<Triple>,
                                          t: Triple)
    returns (s: Key, p: Key, o: Key)
    requires ValidStore(db) && Inserts(db, datasets, db') && dataset in datasets && t in dataset
    ensures Names(db'.entity, t, s, p, o) && Has(db'.preds, s, p, o)
    decreases |datasets|
  {
    hide InsertedOnce, ValidStore, Has;
    var first, rest := datasets[0], datasets[1..];
    assert datasets == [first] + rest;
    var mid :| InsertedOnce(db, first, mid) && Inserts(mid, rest, db');
    InsertedOnceKeeps(db, first, mid);
    if dataset in rest {
      s, p, o := LoadedIsStored(mid, rest, db', dataset, t);
    } else {
      s, p, o := OnceStored(db, first, mid, t);
      RunKeepsAll(mid, rest, db');
    }
  }

  lemma OnceStored(st: Store, dataset: seq<Triple>, st': Store, t: Triple) returns (s: Key, p: Key, o: Key)
    requires InsertedOnce(st, dataset, st') && t in dataset
    ensures Names(st'.entity, t, s, p, o) && Has(st'.preds, s, p, o)
  {
    hide Inserted, ValidStore, IndexGrew;
    var base, reversed, order, inverse :| Inserted(st, dataset, base, reversed, st', order, inverse);
    SameEntity(st, dataset, base, reversed, st', order, inverse);
    InsertKeeps(st, dataset, base, reversed, st', order, inverse);
    InsertedLoads(st, dataset, base, reversed, st', order, inverse);
    s, o := DatasetPair(st, dataset, base, reversed, t);
    p := base.entity[Bytes(t.pred)];
    StillHas(reversed, st', s, p, o);
  }

  lemma InsertedLoads(st: Store, dataset: seq<Triple>, base: Store, reversed: Store, st': Store, order: seq<Key>,
                      inverse: map<Key, Key>)
    requires Inserted(st, dataset, base, reversed, st', order, inverse)
    ensures AllLoaded(st, base, dataset) && Completed(base, reversed)
  {
    hide AllLoaded, Completed, ValidStore, InverseNoted, RollsUp, NoDuplicates, PredicatesOf, ReversesAll;
  }

  lemma OnceRecorded(st: Store, dataset: seq<Triple>, st': Store, t: Triple)
    requires InsertedOnce(st, dataset, st') && t in dataset
    ensures Bytes(t.pred) in st'.entity && SubjectRecorded(st'.preds, st'.entity[Bytes(t.pred)], st'.ext)
  {
    hide Inserted, SubjectRecorded, ValidStore, IndexGrew;
    var base, reversed, order, inverse :| Inserted(st, dataset, base, reversed, st', order, inverse);
    InsertRecords(st, dataset, base, reversed, st', order, inverse);
    SameEntity(st, dataset, base, reversed, st', order, inverse);
  }

  lemma SameEntity(st: Store, dataset: seq<Triple>, base: Store, reversed: Store, st': Store, order: seq<Key>,
                   inverse: map<Key, Key>)
    requires Inserted(st, dataset, base, reversed, st', order, inverse)
    ensures st'.entity == base.entity && st'.pk == base.pk
  {
    InsertKeeps(st, dataset, base, reversed, st', order, inverse);
    hide ValidStore, RollsUp, AllLoaded, InStep, InverseClosure, Has;
  }

  /** In particular the first triple of a database gives its subject a record. */
  lemma FirstSubjectRecorded(db': Store, t: Triple)
    requires Inserts(EMPTY_STORE, [[t]], db') && Bytes(t.pred) != Bytes(INVERSEOF)
    ensures Bytes(t.subj) in db'.entity && db'.entity[Bytes(t.subj)] in db'.ext
  {
    hide Inserted, ValidStore, SubjectRecorded, IndexGrew;
    var first, rest := [t], [[t]][1..];
    var mid :| InsertedOnce(EMPTY_STORE, first, mid) && Inserts(mid, rest, db');
    assert mid == db';
    var base, reversed, order, inverse :| Inserted(EMPTY_STORE, [t], base, reversed, db', order, inverse);
    InsertRecords(EMPTY_STORE, [t], base, reversed, db', order, inverse);
    SameEntity(EMPTY_STORE, [t], base, reversed, db', order, inverse);
    InsertKeeps(EMPTY_STORE, [t], base, reversed, db', order, inverse);
    OnlyTriple(base, reversed, db', order, inverse, t);
  }

  lemma OnlyTriple(base: Store, reversed: Store, st': Store, order: seq<Key>, inverse: map<Key, Key>, t: Triple)
    requires Inserted(EMPTY_STORE, [t], base, reversed, st', order, inverse) && OnlyIndexChanged(reversed, st')
    requires Bytes(t.pred) != Bytes(INVERSEOF) && Bytes(t.pred) in base.entity
    requires SubjectRecorded(st'.preds, base.entity[Bytes(t.pred)], st'.ext)
    ensures Bytes(t.subj) in base.entity && base.entity[Bytes(t.subj)] in st'.ext
  {
    hide GraphOk, PredsOk, EdgesStored, ExtOk, ClosureSound, RollsUp, NoDuplicates, PredicatesOf, InStep, Bytes;
    forall a, b
      ensures !Declared(base.entity, base.preds, a, b)
    {
      if Declared(base.entity, base.preds, a, b) {
        var k := base.entity[Bytes(INVERSEOF)];
        assert InData(base.entity, [t], a, k, b) || InData(base.entity, [t], b, k, a);
        assert base.entity[Bytes(t.pred)] == k;
        KeysDiffer(reversed, Bytes(t.pred), Bytes(INVERSEOF));
      }
    }
    hide Declared;
    SameTriplesHave(reversed.preds, st'.preds);
    var p := base.entity[Bytes(t.pred)];
    var a, b :| Has(st'.preds, a, p, b) && a in st'.ext;
    hide Has, SameTriples;
    assert InData(base.entity, [t], a, p, b);
  }
}
