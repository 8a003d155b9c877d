/** Queries on a database after any run of inserts: what a snapshot of the stores answers,
    in terms of the stored triples alone (db/db_api.go, `runQuery`; db/snapshot.go). */
module Databases {
  import opened Closure
  import opened Graphs
  import opened Groups
  import opened Joins
  import opened Keys
  import opened Patterns
  import opened Planner
  import opened Queries
  import opened Relations
  import opened Snapshots
  import opened Solutions
  import opened Store
  import opened Traversal
  import opened Unions
  import opened Uris

  import Inserts
  import Results
  import Transactions

  // ---- the meaning of a query over stored triples ----

  /** The stored pairs of the predicate with this name; none without a key. */
  ghost function StoredEdges(st: Store, u: URI): Edges {
    if Bytes(u) in st.entity && Named(st, u, st.entity[Bytes(u)]) then Pairs(st.preds, st.entity[Bytes(u)]) else {}
  }

  ghost predicate StoredPath(st: Store, path: seq<PathPattern>, s: Key, o: Key) {
    if path == [] then false
    else if |path| == 1 then Segment(StoredEdges(st, path[0].pred), path[0].pattern, s, o)
    else exists m :: Segment(StoredEdges(st, path[0].pred), path[0].pattern, s, m) && StoredPath(st, path[1..], m, o)
  }

  /** A variable stands for its value, a name for its key in the entity table. */
  ghost predicate StoredEnd(st: Store, u: URI, mu: Assignment, k: Key) {
    if IsVariable(u) then VarOf(u) in mu && mu[VarOf(u)] == k else Named(st, u, k)
  }

  /** An assignment makes the triple true of the stored triples. */
  ghost predicate StoredTrue(st: Store, t: Term, mu: Assignment) {
    exists s, o :: StoredEnd(st, t.subj, mu, s) && StoredEnd(st, t.obj, mu, o) && StoredPath(st, t.path, s, o)
  }

  ghost function StoredTruth(st: Store): Truth {
    (t: Term, mu: Assignment) => StoredTrue(st, t, mu)
  }

  /** All constants of the triples have keys. */
  ghost predicate ConstantsNamed(st: Store, b: seq<Term>) {
    forall t :: t in b ==>
      && (!IsVariable(t.subj) ==> exists k :: Named(st, t.subj, k))
      && (!IsVariable(t.obj) ==> exists k :: Named(st, t.obj, k))
  }

  lemma EdgesAreStored(st: Store, u: URI)
    requires ValidStore(st) && ViewsAgree(st.graph, st.preds)
    ensures EdgesOf(SnapshotView(st), Out, u) == StoredEdges(st, u)
  {
    hide ValidStore, ViewsAgree, Named, Bytes, SnapshotView;
    LookupIff(st, u, EMPTY_KEY);
    match GetHash(SnapshotView(st), u)
    case None =>
    case Some(p) =>
      LookupIff(st, u, p);
      ServedPairs(st, p);
      NamedIs(st, u, p);
  }

  lemma NamedIs(st: Store, u: URI, k: Key)
    requires Named(st, u, k)
    ensures Bytes(u) in st.entity && st.entity[Bytes(u)] == k
  {
  }

  /** Where the views agree, the served graph relates what the stored triples relate. */
  lemma {:induction false} PathIsStored(st: Store, path: seq<PathPattern>, s: Key, o: Key)
    requires ValidStore(st) && ViewsAgree(st.graph, st.preds)
    ensures PathRel(SnapshotView(st), Out, path, s, o) <==> StoredPath(st, path, s, o)
    decreases |path|
  {
    hide ValidStore, ViewsAgree, Segment, EdgesOf, StoredEdges, SnapshotView;
    if path != [] {
      EdgesAreStored(st, path[0].pred);
      if |path| > 1 {
        forall m
          ensures PathRel(SnapshotView(st), Out, path[1..], m, o) <==> StoredPath(st, path[1..], m, o)
        {
          PathIsStored(st, path[1..], m, o);
        }
      }
    }
  }

  lemma EndIsStored(st: Store, u: URI, mu: Assignment, k: Key)
    ensures ValueOf(SnapshotView(st), u, mu) == Some(k) <==> StoredEnd(st, u, mu, k)
  {
    hide SnapshotView, Named;
    LookupIff(st, u, k);
  }

  /** So the meaning of a query on a snapshot is its meaning over the stored triples. */
  lemma TruthIsStored(st: Store, t: Term, mu: Assignment)
    requires ValidStore(st) && ViewsAgree(st.graph, st.preds)
    ensures TruthOf(SnapshotView(st))(t, mu) == StoredTruth(st)(t, mu)
  {
    hide ValidStore, ViewsAgree, SnapshotView, PathRel, StoredPath, StoredEnd;
    var g := SnapshotView(st);
    forall k
      ensures ValueOf(g, t.subj, mu) == Some(k) <==> StoredEnd(st, t.subj, mu, k)
      ensures ValueOf(g, t.obj, mu) == Some(k) <==> StoredEnd(st, t.obj, mu, k)
    {
      EndIsStored(st, t.subj, mu, k);
      EndIsStored(st, t.obj, mu, k);
    }
    forall s, o
      ensures PathRel(g, Out, t.path, s, o) <==> StoredPath(st, t.path, s, o)
    {
      PathIsStored(st, t.path, s, o);
    }
  }

  lemma AnsweredIsStored(st: Store, select: seq<Var>, terms: seq<Term>, group: Option<GraphGroup>,
                         murmur: seq<Byte> -> nat, exact: bool, results: seq<seq<Key>>)
    requires ValidStore(st) && ViewsAgree(st.graph, st.preds)
    requires QueryAnswered(TruthOf(SnapshotView(st)), select, terms, group, murmur, exact, results)
    ensures QueryAnswered(StoredTruth(st), select, terms, group, murmur, exact, results)
  {
    hide ValidStore, ViewsAgree, SnapshotView, TruthOf, StoredTruth, QueryAnswered;
    forall t, mu
      ensures TruthOf(SnapshotView(st))(t, mu) == StoredTruth(st)(t, mu)
    {
      TruthIsStored(st, t, mu);
    }
    SameTruthSameAnswers(TruthOf(SnapshotView(st)), StoredTruth(st), select, terms, group, murmur, exact, results);
  }

  lemma KnownIsNamed(st: Store, branches: seq<seq<Term>>)
    ensures AllBranchesKnown(SnapshotView(st), branches) <==> forall b :: b in branches ==> ConstantsNamed(st, b)
  {
    hide SnapshotView, Named;
    forall u
      ensures GetHash(SnapshotView(st), u).Some? <==> exists k :: Named(st, u, k)
    {
      LookupIff(st, u, EMPTY_KEY);
    }
  }

  // ---- queries that such a database answers ----

  /** A conjunction in an order that the four one-sided operators can run. */
  ghost predicate OrderedQuery(b: seq<Term>, select: seq<Var>) {
    && Reportable(b, select)
    && DependencyOrder(b).Plan?
    && ProperTerms(DependencyOrder(b).terms) && Ordered(DependencyOrder(b).terms)
  }

  /** No path repeats a predicate that rollups mistake for another. */
  ghost predicate QueryUndiverted(st: Store, b: seq<Term>) {
    forall t :: t in b ==> RepeatsUndiverted(st, t.path)
  }

  /** All predicates are named, and in the direction in which each path is followed, the
      index entries of the predicates it repeats are exact. */
  ghost predicate ServedExactly(st: Store, b: seq<Term>) {
    && ProperTerms(b) && DependencyOrder(b).Plan? && ProperTerms(DependencyOrder(b).terms)
    && var plan := DependencyOrder(b).terms;
       forall i :: 0 <= i < |plan| ==>
         var d := SearchDir(OpFor(VarsOf(plan[..i]), plan[i]));
         && PredicatesNamed(st, plan[i].path) && EntriesExact(st, d, plan[i].path)
         && (d == In ==> Reversible(plan[i].path))
  }

  /** A conjunction of single and optional steps by named predicates. */
  ghost predicate PlainQuery(st: Store, b: seq<Term>) {
    forall t :: t in b ==>
      && PredicatesNamed(st, t.path) && Reversible(t.path)
      && forall seg :: seg in t.path ==> !Transitive(seg.pattern)
  }

  /** Such a query needs no index. */
  lemma PlainIsServed(st: Store, b: seq<Term>, select: seq<Var>)
    requires OrderedQuery(b, select) && PlainQuery(st, b)
    ensures ServedExactly(st, b) && QueryUndiverted(st, b)
  {
    OrderMeaning(b);
    var plan := DependencyOrder(b).terms;
    hide DependencyOrder, VarsOf, OpFor, PredicatesNamed;
    forall i | 0 <= i < |plan|
      ensures plan[i] in b
    {
      assert plan[i] in plan && plan[i] in multiset(plan) && plan[i] in multiset(b);
    }
  }

  lemma ServedIsAnswerable(st: Store, b: seq<Term>, select: seq<Var>, exact: bool)
    requires ValidStore(st) && ViewsAgree(st.graph, st.preds) && OrderedQuery(b, select) && QueryUndiverted(st, b)
    requires exact ==> ServedExactly(st, b)
    ensures Answerable(SnapshotView(st), b, select, exact)
  {
    OrderMeaning(b);
    var plan := DependencyOrder(b).terms;
    hide ValidStore, ViewsAgree, DependencyOrder, VarsOf, OpFor, PredicatesNamed, Executor.Evaluable, SnapshotView,
         RepeatsUndiverted, EntriesExact;
    forall i | 0 <= i < |plan|
      ensures Executor.Evaluable(SnapshotView(st), SearchDir(OpFor(VarsOf(plan[..i]), plan[i])), plan[i].path, exact)
    {
      assert plan[i] in plan && plan[i] in multiset(plan) && plan[i] in multiset(b);
      PathsServe(st, SearchDir(OpFor(VarsOf(plan[..i]), plan[i])), plan[i].path, exact);
    }
  }

  /** A query on a database whose views are in step, as `Transactions.Run` leaves it after
      any non-reflexive data sets. It fails exactly if a constant of some branch has no key.
      Otherwise the results relate to the matches over the stored triples as
      `Patterns.QueryAnswered` says: soundly whatever rollups left in the index, and exactly
      where the entries used are exact. */
  method QueryStored(db: Store, select: seq<Var>, terms: seq<Term>, group: Option<GraphGroup>, murmur: seq<Byte> -> nat)
    returns (results: Option<seq<seq<Key>>>)
    requires ValidStore(db) && Transactions.InStep(db)
    requires forall b :: b in Conjunctions(terms, group) ==> OrderedQuery(b, select) && QueryUndiverted(db, b)
    ensures results.Some? <==> forall b :: b in Conjunctions(terms, group) ==> ConstantsNamed(db, b)
    ensures results.Some? ==>
              var exact := forall b :: b in Conjunctions(terms, group) ==> ServedExactly(db, b);
              QueryAnswered(StoredTruth(db), select, terms, group, murmur, exact, results.value)
  {
    hide ValidStore, ViewsAgree, Conjunctions, OrderedQuery, QueryUndiverted, ServedExactly, Answerable, QueryAnswered,
         AllBranchesKnown, ConstantsNamed, Executor.Servable, SnapshotView, AllResults, OncePerBranch, TruthOf,
         StoredTruth;
    SnapshotServable(db);
    KnownIsNamed(db, Conjunctions(terms, group));
    ghost var exact := forall b :: b in Conjunctions(terms, group) ==> ServedExactly(db, b);
    forall b | b in Conjunctions(terms, group)
      ensures Answerable(SnapshotView(db), b, select, exact)
    {
      ServedIsAnswerable(db, b, select, exact);
    }
    ghost var firsts, found;
    results, firsts, found := RunQuery(SnapshotView(db), select, terms, group, murmur, exact);
    if results.Some? {
      AnsweredIsStored(db, select, terms, group, murmur, exact, results.value);
    }
  }

  // ---- from data to answers ----

  /** The one-term query for the objects of a name. */
  function AskObject(subj: URI, pred: URI, v: URI): Term {
    Term(subj, [PathPattern(pred, Single)], v)
  }

  /** The stored triples join the two names to this key. */
  ghost predicate AskedPair(st: Store, subj: URI, pred: URI, k: Key) {
    exists s, p :: Named(st, subj, s) && Named(st, pred, p) && Has(st.preds, s, p, k)
  }

  lemma AskShape(subj: URI, pred: URI, v: URI)
    requires !IsVariable(subj) && !IsVariable(pred) && IsVariable(v)
    ensures var q := AskObject(subj, pred, v);
            Variables(q) == [VarOf(v)] && VarsOf([q]) == {VarOf(v)} && VarsOf([]) == {}
  {
    var q := AskObject(subj, pred, v);
    assert q in [q] && VarOf(v) in Variables(q);
  }

  lemma AskIsOrdered(subj: URI, pred: URI, v: URI)
    requires !IsVariable(subj) && !IsVariable(pred) && IsVariable(v)
    ensures OrderedQuery([AskObject(subj, pred, v)], [VarOf(v)])
  {
    var q := AskObject(subj, pred, v);
    AskShape(subj, pred, v);
    assert Without([q], 0) == [];
    assert DependencyOrder([q]) == Plan([q]) by {
      assert Root([q]) == 0;
    }
    assert [q][..0] == [];
  }

  lemma AskIsPlain(st: Store, subj: URI, pred: URI, v: URI)
    ensures QueryUndiverted(st, [AskObject(subj, pred, v)])
    ensures (exists p :: Named(st, pred, p)) ==> PlainQuery(st, [AskObject(subj, pred, v)])
  {
    hide Named;
  }

  lemma AskIsTrue(st: Store, subj: URI, pred: URI, v: URI, k: Key)
    requires !IsVariable(subj) && !IsVariable(pred) && IsVariable(v)
    ensures StoredTrue(st, AskObject(subj, pred, v), map[VarOf(v) := k]) <==> AskedPair(st, subj, pred, k)
  {
    hide Bytes, IsVariable;
    var q := AskObject(subj, pred, v);
    PairsAre(st.preds, if Bytes(pred) in st.entity then st.entity[Bytes(pred)] else EMPTY_KEY);
    assert forall s, o :: StoredPath(st, q.path, s, o) <==> (s, o) in StoredEdges(st, pred);
  }

  lemma OneSelected(v: Var, mu: Assignment, t: seq<Key>)
    ensures mu.Keys == {v} && SelectedFrom(mu, [v]) == t <==> |t| == 1 && mu == map[v := t[0]]
  {
    if v in mu {
      assert SelectedFrom(mu, [v]) == [mu[v]];
    }
    if mu.Keys == {v} {
      assert mu == map[v := mu[v]];
    }
    if |t| == 1 && mu == map[v := t[0]] {
      assert [mu[v]] == t;
    }
  }

  lemma AskedShape(st: Store, subj: URI, pred: URI, v: URI, mu: Assignment, t: seq<Key>)
    requires !IsVariable(subj) && !IsVariable(pred) && IsVariable(v)
    ensures SolvesTerms(StoredTruth(st), [AskObject(subj, pred, v)], mu) && SelectedFrom(mu, [VarOf(v)]) == t <==>
              |t| == 1 && mu == map[VarOf(v) := t[0]] && StoredTrue(st, AskObject(subj, pred, v), mu)
  {
    var q := AskObject(subj, pred, v);
    AskShape(subj, pred, v);
    OneSelected(VarOf(v), mu, t);
    hide StoredTrue, AskObject, VarsOf, Variables, Bytes, IsVariable, SelectedFrom, VarOf;
    assert forall u :: u in [q] <==> u == q;
  }

  /** What the query means. */
  lemma AskMeans(st: Store, subj: URI, pred: URI, v: URI, t: seq<Key>)
    requires !IsVariable(subj) && !IsVariable(pred) && IsVariable(v)
    ensures BranchMatch(StoredTruth(st), [AskObject(subj, pred, v)], [VarOf(v)], t) <==>
            |t| == 1 && AskedPair(st, subj, pred, t[0])
  {
    hide StoredTrue, StoredTruth, SolvesTerms, SelectedFrom, AskedPair, AskObject, IsVariable, VarOf;
    forall mu
      ensures SolvesTerms(StoredTruth(st), [AskObject(subj, pred, v)], mu) && SelectedFrom(mu, [VarOf(v)]) == t <==>
                |t| == 1 && mu == map[VarOf(v) := t[0]] && StoredTrue(st, AskObject(subj, pred, v), mu)
    {
      AskedShape(st, subj, pred, v, mu, t);
    }
    if |t| == 1 {
      AskIsTrue(st, subj, pred, v, t[0]);
      assert AskedPair(st, subj, pred, t[0]) ==>
               SolvesTerms(StoredTruth(st), [AskObject(subj, pred, v)], map[VarOf(v) := t[0]]);
    }
  }

  /** No other object of the pair of names has the hash of this one. */
  ghost predicate ObjectAlone(st: Store, subj: URI, pred: URI, murmur: seq<Byte> -> nat, k: Key) {
    forall x :: AskedPair(st, subj, pred, x) && murmur(Results.TupleBytes([x])) == murmur(Results.TupleBytes([k])) ==>
                  x == k
  }

  /** The results of the query are the objects, once each. */
  ghost predicate ObjectsAnswered(st: Store, subj: URI, pred: URI, murmur: seq<Byte> -> nat, results: seq<seq<Key>>) {
    && NoneTwice(results)
    && (forall t :: t in results ==> |t| == 1 && t[0] != EMPTY_KEY && AskedPair(st, subj, pred, t[0]))
    && forall k :: AskedPair(st, subj, pred, k) && k != EMPTY_KEY && ObjectAlone(st, subj, pred, murmur, k) ==>
                     [k] in results
  }

  /** One tuple of the results. */
  lemma AskCounted(st: Store, subj: URI, pred: URI, v: URI, murmur: seq<Byte> -> nat, exact: bool,
                   results: seq<seq<Key>>, t: seq<Key>)
    requires !IsVariable(subj) && !IsVariable(pred) && IsVariable(v)
    requires TupleCounted(StoredTruth(st), [VarOf(v)], [AskObject(subj, pred, v)], None, murmur, exact, results, t)
    ensures t in results ==> |t| == 1 && t[0] != EMPTY_KEY && AskedPair(st, subj, pred, t[0])
    ensures exact && |t| == 1 && AskedPair(st, subj, pred, t[0]) && t[0] != EMPTY_KEY &&
            ObjectAlone(st, subj, pred, murmur, t[0]) ==>
              t in results
  {
    var q, truth := AskObject(subj, pred, v), StoredTruth(st);
    AskShape(subj, pred, v);
    hide StoredTruth, AskObject, SolvesTerms, Variables, IsVariable, SelectedFrom, AskedPair;
    forall u
      ensures BranchMatch(truth, [q], [VarOf(v)], u) <==> |u| == 1 && AskedPair(st, subj, pred, u[0])
    {
      AskMeans(st, subj, pred, v, u);
    }
    assert Match(truth, [q], None, [VarOf(v)], t) <==> BranchMatch(truth, [q], [VarOf(v)], t);
    hide BranchMatch, Match;
    assert Conjunctions([q], None) == [[q]];
    assert Binds([q], [VarOf(v)]) by {
      hide *;
      AskBinds(subj, pred, v);
    }
    if |t| == 1 && ObjectAlone(st, subj, pred, murmur, t[0]) {
      assert [t[0]] == t;
      forall u | BranchMatch(truth, [q], [VarOf(v)], u) &&
               murmur(Results.TupleBytes(u)) == murmur(Results.TupleBytes(t))
        ensures u == t
      {
        assert [u[0]] == u;
      }
      assert Alone(truth, [q], [VarOf(v)], murmur, t);
    }
  }

  lemma AskBinds(subj: URI, pred: URI, v: URI)
    requires !IsVariable(subj) && !IsVariable(pred) && IsVariable(v)
    ensures Binds([AskObject(subj, pred, v)], [VarOf(v)])
  {
    AskShape(subj, pred, v);
  }

  lemma AskAnswered(st: Store, subj: URI, pred: URI, v: URI, murmur: seq<Byte> -> nat, exact: bool,
                    results: seq<seq<Key>>)
    requires !IsVariable(subj) && !IsVariable(pred) && IsVariable(v)
    requires (exists p :: Named(st, pred, p)) ==> exact
    requires QueryAnswered(StoredTruth(st), [VarOf(v)], [AskObject(subj, pred, v)], None, murmur, exact, results)
    ensures ObjectsAnswered(st, subj, pred, murmur, results)
  {
    var q, truth := AskObject(subj, pred, v), StoredTruth(st);
    hide StoredTruth, AskObject, IsVariable, NoneTwice, Named, ObjectAlone, TupleCounted, Has;
    assert Conjunctions([q], None) == [[q]];
    forall t | t in results
      ensures |t| == 1 && t[0] != EMPTY_KEY && AskedPair(st, subj, pred, t[0])
    {
      AskCounted(st, subj, pred, v, murmur, exact, results, t);
    }
    forall k | AskedPair(st, subj, pred, k) && k != EMPTY_KEY && ObjectAlone(st, subj, pred, murmur, k)
      ensures [k] in results
    {
      AskCounted(st, subj, pred, v, murmur, exact, results, [k]);
    }
  }

  lemma AskKnown(st: Store, subj: URI, pred: URI, v: URI)
    requires !IsVariable(subj) && IsVariable(v)
    ensures ConstantsNamed(st, [AskObject(subj, pred, v)]) <==> exists s :: Named(st, subj, s)
  {
    hide Named;
    assert AskObject(subj, pred, v) in [AskObject(subj, pred, v)];
  }

  lemma AskServed(st: Store, subj: URI, pred: URI, v: URI)
    requires !IsVariable(subj) && !IsVariable(pred) && IsVariable(v)
    ensures var b := [AskObject(subj, pred, v)];
            && Conjunctions(b, None) == [b] && OrderedQuery(b, [VarOf(v)]) && QueryUndiverted(st, b)
            && ((exists p :: Named(st, pred, p)) ==> ServedExactly(st, b))
  {
    var b := [AskObject(subj, pred, v)];
    AskIsOrdered(subj, pred, v);
    AskIsPlain(st, subj, pred, v);
    hide AskObject, OrderedQuery, QueryUndiverted, ServedExactly, PlainQuery, Named;
    if exists p :: Named(st, pred, p) {
      PlainIsServed(st, b, [VarOf(v)]);
    }
  }

  /** The query for the objects of a name fails exactly if the name has no key, and otherwise
      reports exactly the objects stored for it. Zero keys are never reported, and of objects
      with equal hashes only one. */
  method Ask(db: Store, subj: URI, pred: URI, v: URI, hash: seq<Byte> -> nat) returns (results: Option<seq<seq<Key>>>)
    requires ValidStore(db) && Transactions.InStep(db)
    requires !IsVariable(subj) && !IsVariable(pred) && IsVariable(v)
    ensures results.Some? <==> exists s :: Named(db, subj, s)
    ensures results.Some? ==> ObjectsAnswered(db, subj, pred, hash, results.value)
  {
    hide ValidStore, Transactions.InStep, QueryAnswered, OrderedQuery, QueryUndiverted, ServedExactly, StoredTruth,
         AskObject, IsVariable, ObjectsAnswered, Named, Conjunctions, ConstantsNamed;
    AskServed(db, subj, pred, v);
    AskKnown(db, subj, pred, v);
    var q := AskObject(subj, pred, v);
    results := QueryStored(db, [VarOf(v)], [q], None, hash);
    if results.Some? {
      ghost var exact := forall b :: b in Conjunctions([q], None) ==> ServedExactly(db, b);
      AskAnswered(db, subj, pred, v, hash, exact, results.value);
    }
  }

  /** An inserted triple's object is among the results, if no key is zero and no other object
      has the object's hash. */
  ghost predicate LoadedFound(db: Store, t: Transactions.Triple, hash: seq<Byte> -> nat,
                              results: Option<seq<seq<Key>>>)
  {
    exists s, p, o ::
      && Transactions.Names(db.entity, t, s, p, o)
      && (EMPTY_KEY !in [s, p, o] && ObjectAlone(db, t.subj, t.pred, hash, o) ==>
            results.Some? && [o] in results.value)
  }

  lemma LoadedIsFound(db: Store, datasets: seq<seq<Transactions.Triple>>, db': Store,
                      dataset: seq<Transactions.Triple>, t: Transactions.Triple, hash: seq<Byte> -> nat,
                      results: Option<seq<seq<Key>>>)
    requires ValidStore(db) && Transactions.Inserts(db, datasets, db') && dataset in datasets && t in dataset
    requires results.Some? <==> exists s :: Named(db', t.subj, s)
    requires results.Some? ==> ObjectsAnswered(db', t.subj, t.pred, hash, results.value)
    ensures LoadedFound(db', t, hash, results)
  {
    hide ValidStore, Has, ObjectAlone, Transactions.Inserts;
    var s, p, o := Inserts.LoadedIsStored(db, datasets, db', dataset, t);
    assert Transactions.Names(db'.entity, t, s, p, o);
    if EMPTY_KEY !in [s, p, o] {
      assert s in [s, p, o] && p in [s, p, o] && o in [s, p, o];
      assert Named(db', t.subj, s) && Named(db', t.pred, p);
      assert AskedPair(db', t.subj, t.pred, o);
    }
  }

  /** From data to answers: after any run of inserts of non-reflexive triples, the query for the
      objects of a name finds the objects of all inserted triples. */
  method InsertAndAsk(murmur: Transactions.Murmur, db: Store, datasets: seq<seq<Transactions.Triple>>, subj: URI,
                      pred: URI, v: URI, hash: seq<Byte> -> nat, ghost limit: nat)
    returns (db': Store, results: Option<seq<seq<Key>>>)
    requires ValidStore(db) && Transactions.InStep(db) && Transactions.Roomy(murmur, limit)
    requires |db.pk.Keys| + Transactions.TripleCount(datasets) * 4 <= limit
    requires forall ds, t :: ds in datasets && t in ds ==> !Transactions.Reflexive(t)
    requires !IsVariable(subj) && !IsVariable(pred) && IsVariable(v)
    ensures results.Some? <==> exists s :: Named(db', subj, s)
    ensures results.Some? ==> ObjectsAnswered(db', subj, pred, hash, results.value)
    ensures forall ds, t :: ds in datasets && t in ds && t.subj == subj && t.pred == pred ==>
                              LoadedFound(db', t, hash, results)
  {
    hide ValidStore, Transactions.InStep, Transactions.Roomy, Transactions.Reflexive, Transactions.Inserts, Has,
         IsVariable, Transactions.InData, ObjectsAnswered, Named, LoadedFound, Transactions.Completed;
    ghost var base;
    db', base := Transactions.Run(murmur, db, datasets, limit);
    results := Ask(db', subj, pred, v, hash);
    forall ds, t | ds in datasets && t in ds && t.subj == subj && t.pred == pred
      ensures LoadedFound(db', t, hash, results)
    {
      LoadedIsFound(db, datasets, db', ds, t, hash, results);
    }
  }
}
