/** Running a planned query from end to end (db/db_api.go, `getQueryResults` and
    `executeQueryPlan`). */
module Queries {
  import opened Keys
  import opened Uris
  import opened Graphs
  import opened Rows
  import opened Relations
  import opened Joins
  import opened Planner
  import opened Solutions
  import opened Executor
  import Results

  /** The direction in which the operator of a ready term searches. */
  function SearchDir(op: Op): Dir {
    if op.ResolveSubject? || op.ResolveSubjectFromVarObject? then In else Out
  }

  /** Every path can be evaluated in the direction its operator searches, soundly or, if
      asked for, exactly. */
  ghost predicate Runnable(g: View, plan: seq<Term>, exact: bool) {
    && Ordered(plan)
    && forall i :: 0 <= i < |plan| ==> Evaluable(g, SearchDir(OpFor(VarsOf(plan[..i]), plan[i])), plan[i].path, exact)
  }

  /** The constants of a term have keys. */
  predicate KnownConstants(g: View, t: Term) {
    && (!IsVariable(t.subj) ==> GetHash(g, t.subj).Some?)
    && (!IsVariable(t.obj) ==> GetHash(g, t.obj).Some?)
  }

  lemma ReadyShape(resolved: set<Var>, t: Term)
    requires ReadyTerm(resolved, t)
    ensures var op := OpFor(resolved, t);
            var d := SearchDir(op);
            && (op.ResolveSubject? || op.ResolveObject? ==>
                  OneEnded(d, t) && VarOf(FarEnd(d, t)) in VarSet(t))
            && (op.ResolveSubjectFromVarObject? || op.ResolveObjectFromVarSubject? ==> TwoEnded(d, t, resolved))
            && op.term == t
            && (op.ResolveSubject? || op.ResolveObject?
                || op.ResolveSubjectFromVarObject? || op.ResolveObjectFromVarSubject?)
  {
  }

  lemma KnownEnd(g: View, resolved: set<Var>, t: Term)
    requires ReadyTerm(resolved, t)
    ensures var op := OpFor(resolved, t);
            && (op.ResolveSubject? || op.ResolveObject? ==>
                  (KnownConstants(g, t) <==> GetHash(g, NearEnd(SearchDir(op), t)).Some?))
            && (op.ResolveSubjectFromVarObject? || op.ResolveObjectFromVarSubject? ==> KnownConstants(g, t))
  {
  }

  /** Run the operator of one term. */
  method RunOp(op: Op, ctx: QueryContext, ghost done: seq<Term>) returns (ok: bool)
    requires Servable(ctx.g) && ctx.Valid(done) && ReadyTerm(VarsOf(done), op.term)
    requires op == OpFor(VarsOf(done), op.term)
    requires VarSet(op.term) <= ctx.rel.vars.Keys && Evaluable(ctx.g, SearchDir(op), op.term.path, ctx.exact)
    modifies ctx, ctx.rel
    ensures ok <==> KnownConstants(ctx.g, op.term)
    ensures ctx.rel.vars == old(ctx.rel.vars) && ctx.Valid(if ok then done + [op.term] else done)
  {
    hide Servable, VarsOf, ReadyTerm, Evaluable, ContextOk, OneEnded, TwoEnded, VarSet;
    ContextShape(ctx.g, done, ctx.rel.rows, ctx.rel.multiindex, ctx.rel.vars, ctx.Defs(), ctx.exact);
    ReadyShape(VarsOf(done), op.term);
    KnownEnd(ctx.g, VarsOf(done), op.term);
    hide OpFor, KnownConstants;
    match op {
      case ResolveSubject(t) => ok := ctx.ResolveEnd(In, t, done);
      case ResolveObject(t) => ok := ctx.ResolveEnd(Out, t, done);
      case ResolveSubjectFromVarObject(t) =>
        ctx.ResolveFarEnd(In, t, done);
        ok := true;
      case ResolveObjectFromVarSubject(t) =>
        ctx.ResolveFarEnd(Out, t, done);
        ok := true;
    }
  }

  /** The constants of all terms have keys. */
  ghost predicate AllKnown(g: View, terms: seq<Term>) {
    forall t :: t in terms ==> KnownConstants(g, t)
  }

  lemma KnownMore(g: View, plan: seq<Term>, i: nat)
    requires i < |plan|
    ensures plan[..i + 1] == plan[..i] + [plan[i]]
    ensures AllKnown(g, plan[..i + 1]) <==> AllKnown(g, plan[..i]) && KnownConstants(g, plan[i])
    ensures AllKnown(g, plan) ==> KnownConstants(g, plan[i])
  {
    assert forall t :: t in plan[..i] + [plan[i]] <==> t in plan[..i] || t == plan[i];
  }

  lemma RunnableAt(g: View, plan: seq<Term>, i: nat, exact: bool)
    requires Runnable(g, plan, exact) && i < |plan|
    ensures ProperTerms(plan[..i]) && ReadyTerm(VarsOf(plan[..i]), plan[i])
    ensures Evaluable(g, SearchDir(OpFor(VarsOf(plan[..i]), plan[i])), plan[i].path, exact)
    ensures ProperTerms(plan) && plan[i].path != [] && VarSet(plan[i]) <= VarsOf(plan)
  {
    TermVars(plan, plan[i]);
  }

  /** `formQueryPlan` and `executeQueryPlan`: run each term's operator, stopping at the
      first error. */
  method ExecuteQueryPlan(ctx: QueryContext, plan: seq<Term>) returns (ok: bool)
    requires Servable(ctx.g) && ctx.Valid([]) && Runnable(ctx.g, plan, ctx.exact) && VarsOf(plan) <= ctx.rel.vars.Keys
    modifies ctx, ctx.rel
    ensures ok <==> AllKnown(ctx.g, plan)
    ensures ok ==> ctx.rel.vars == old(ctx.rel.vars) && ctx.Valid(plan)
  {
    hide ContextOk, Servable, VarsOf, VarSet, ReadyTerm, Evaluable, OpFor, KnownConstants, PlanTerm;
    assert plan[..0] == [] && plan[0..] == plan;
    var operations := FormQueryPlan(plan);
    NoVariablesYet();
    PlanOrdered(map[], plan, 0);
    for i := 0 to |plan|
      invariant ctx.rel.vars == old(ctx.rel.vars) && ctx.Valid(plan[..i])
      invariant AllKnown(ctx.g, plan[..i])
    {
      RunnableAt(ctx.g, plan, i, ctx.exact);
      KnownMore(ctx.g, plan, i);
      assert operations.value[i].term == plan[i] by {
        ReadyShape(VarsOf(plan[..i]), plan[i]);
      }
      ok := RunOp(operations.value[i], ctx, plan[..i]);
      if !ok {
        return;
      }
    }
    assert plan[..|plan|] == plan;
    ok := true;
  }

  lemma NoVariablesYet()
    ensures VarsOf([]) == {}
  {
  }

  // ---- answers ----

  /** The selected keys of some solution of the basic graph pattern; a variable without a
      value shows the zero key. */
  ghost predicate IsAnswer(g: View, terms: seq<Term>, select: seq<Var>, t: seq<Key>)
    requires ProperTerms(terms)
  {
    exists mu :: IsSolution(g, terms, mu) && SelectedFrom(mu, select) == t
  }

  ghost function SelectedFrom(mu: Assignment, select: seq<Var>): seq<Key> {
    seq(|select|, i requires 0 <= i < |select| => if select[i] in mu then mu[select[i]] else EMPTY_KEY)
  }

  ghost predicate PositionsOf(vars: map<Var, nat>, select: seq<Var>, positions: seq<nat>) {
    |positions| == |select| && forall i :: 0 <= i < |select| ==> select[i] in vars && positions[i] == vars[select[i]]
  }

  /** A row's selected slots are its solution's selected keys. */
  lemma RowIsAnswer(row: seq<Byte>, vars: map<Var, nat>, dom: set<Var>, select: seq<Var>, positions: seq<nat>)
    requires dom <= vars.Keys && Names(select) <= dom && PositionsOf(vars, select, positions)
    ensures Results.Project(row, positions) == SelectedFrom(Assign(row, vars, dom), select)
  {
    assert forall i :: 0 <= i < |select| ==> select[i] in Names(select);
  }

  /** Every row has bytes for all selected slots. */
  lemma RowsCovered(rows: seq<seq<Byte>>, vars: map<Var, nat>, dom: set<Var>, select: seq<Var>, positions: seq<nat>)
    requires Names(select) <= dom <= vars.Keys && PositionsOf(vars, select, positions) && RowsReach(rows, vars, dom)
    ensures forall row :: row in rows ==> Results.Covers(row, positions)
  {
    hide Reaches;
    forall n | 0 <= n < |rows|
      ensures Results.Covers(rows[n], positions)
    {
      forall i | 0 <= i < |positions|
        ensures Reaches(rows[n], positions[i])
      {
        assert select[i] in Names(select);
      }
    }
  }

  /** The rows of a finished context, projected, are answers, and if the searches are exact,
      all of them. */
  lemma RowsAreAnswers(g: View, plan: seq<Term>, rows: seq<seq<Byte>>, multiindex: map<Var, ValueIndex>,
                       vars: map<Var, nat>, defs: map<Var, set<Key>>, exact: bool, select: seq<Var>,
                       positions: seq<nat>)
    requires ContextOk(g, plan, rows, multiindex, vars, defs, exact) && plan != []
    requires Names(select) <= VarsOf(plan) && PositionsOf(vars, select, positions)
    ensures forall row :: row in rows ==> Results.Covers(row, positions)
    ensures forall t :: Tells(InTuples(rows, positions, t), IsAnswer(g, plan, select, t), exact)
  {
    RowsCovered(rows, vars, VarsOf(plan), select, positions);
    hide VarsOf, SelectedFrom, IsSolution, Assign, PositionsOk, PositionsOf, RowsReach, DefsCover, Names,
         Results.Project, Results.Covers;
    var dom := VarsOf(plan);
    forall n | 0 <= n < |rows|
      ensures IsAnswer(g, plan, select, Results.TupleAt(rows, positions, n))
    {
      RowIsAnswer(rows[n], vars, dom, select, positions);
      var mu := Assign(rows[n], vars, dom);
      assert InRows(rows, vars, dom, mu);
      assert SelectedFrom(mu, select) == Results.TupleAt(rows, positions, n);
    }
    forall t | exact && IsAnswer(g, plan, select, t)
      ensures InTuples(rows, positions, t)
    {
      var mu :| IsSolution(g, plan, mu) && SelectedFrom(mu, select) == t;
      assert InRows(rows, vars, dom, mu);
      var n :| 0 <= n < |rows| && Assign(rows[n], vars, dom) == mu;
      RowIsAnswer(rows[n], vars, dom, select, positions);
      assert Results.TupleAt(rows, positions, n) == t;
    }
  }

  /** The tuple of some row. */
  ghost predicate InTuples(rows: seq<seq<Byte>>, positions: seq<nat>, t: seq<Key>) {
    exists n :: 0 <= n < |rows| && Results.TupleAt(rows, positions, n) == t
  }

  /** Solutions do not depend on the order of the terms. */
  lemma SameTermsSameAnswers(g: View, terms: seq<Term>, plan: seq<Term>, select: seq<Var>)
    requires multiset(terms) == multiset(plan) && ProperTerms(terms)
    ensures ProperTerms(plan) && VarsOf(terms) == VarsOf(plan)
    ensures forall mu :: IsSolution(g, terms, mu) <==> IsSolution(g, plan, mu)
    ensures forall t :: IsAnswer(g, terms, select, t) <==> IsAnswer(g, plan, select, t)
    ensures AllKnown(g, terms) <==> AllKnown(g, plan)
  {
    assert forall t :: t in terms <==> t in multiset(terms);
    assert forall t :: t in plan <==> t in multiset(plan);
    hide Satisfies, KnownConstants;
  }

  /** No other answer has the hash of the tuple. */
  ghost predicate HashedAlone(g: View, terms: seq<Term>, select: seq<Var>, murmur: seq<Byte> -> nat, t: seq<Key>)
    requires ProperTerms(terms)
  {
    forall u :: IsAnswer(g, terms, select, u) && murmur(Results.TupleBytes(u)) == murmur(Results.TupleBytes(t)) ==>
             u == t
  }

  /** Results of the projected rows are fully bound answers, each at most once; if the rows
      are all the answers, every answer that is alone with its hash is a result. */
  lemma ResultsAreAnswers(g: View, terms: seq<Term>, select: seq<Var>, rows: seq<seq<Byte>>, positions: seq<nat>,
                          murmur: seq<Byte> -> nat, results: seq<seq<Key>>, exact: bool)
    requires ProperTerms(terms)
    requires forall t :: Tells(InTuples(rows, positions, t), IsAnswer(g, terms, select, t), exact)
    requires Results.ResultsUpTo(rows, positions, murmur, |rows|, results)
    ensures forall i, j :: 0 <= i < j < |results| ==> results[i] != results[j]
    ensures forall t :: t in results ==> IsAnswer(g, terms, select, t) && EMPTY_KEY !in t
    ensures exact ==>
              forall t ::
                IsAnswer(g, terms, select, t) && EMPTY_KEY !in t && HashedAlone(g, terms, select, murmur, t) ==>
                  t in results
  {
    hide IsAnswer, VarsOf, Names;
    forall m | 0 <= m < |rows|
      ensures IsAnswer(g, terms, select, Results.TupleAt(rows, positions, m))
    {
      assert InTuples(rows, positions, Results.TupleAt(rows, positions, m));
    }
    hide Results.TupleAt;
    forall t | exact && IsAnswer(g, terms, select, t) && EMPTY_KEY !in t && HashedAlone(g, terms, select, murmur, t)
      ensures t in results
    {
      var n :| 0 <= n < |rows| && Results.TupleAt(rows, positions, n) == t;
      var f := Results.FirstExists(rows, positions, n);
      Results.MissingIff(rows, positions, murmur, results, f);
    }
  }

  /** What is reported for the selected variables: a variable without a position shows what
      stands at position zero, the value of the first variable. */
  ghost function Shown(vars: set<Var>, first: Var, select: seq<Var>): seq<Var> {
    seq(|select|, i requires 0 <= i < |select| => if select[i] in vars then select[i] else first)
  }

  lemma ShownIsSelected(vars: set<Var>, first: Var, select: seq<Var>)
    requires Names(select) <= vars
    ensures Shown(vars, first, select) == select
  {
    assert forall i :: 0 <= i < |select| ==> select[i] in Names(select);
  }

  /** `getQueryResults`: order the terms, plan them, run the plan, project the rows. A
      constant without a key is an error. Otherwise every result is an answer of the
      query, as shown, none comes twice, and if the searches are exact every answer that is
      alone with its hash is a result. The zero key counts as unbound, so answers that
      hold it are dropped. */
  method GetQueryResults(g: View, variables: seq<Var>, select: seq<Var>, terms: seq<Term>, murmur: seq<Byte> -> nat,
                         ghost exact: bool)
    returns (results: Option<seq<seq<Key>>>)
    requires Servable(g)
    requires ProperTerms(terms) && DependencyOrder(terms).Plan?
    requires ProperTerms(DependencyOrder(terms).terms) && Runnable(g, DependencyOrder(terms).terms, exact)
    requires Distinct(variables) && VarsOf(terms) <= Names(variables) && variables != []
    requires Names(Shown(Names(variables), variables[0], select)) <= VarsOf(terms)
    ensures results.Some? <==> AllKnown(g, terms)
    ensures results.Some? ==>
              var shown := Shown(Names(variables), variables[0], select);
              && (forall i, j :: 0 <= i < j < |results.value| ==> results.value[i] != results.value[j])
              && (forall t :: t in results.value ==> IsAnswer(g, terms, shown, t) && EMPTY_KEY !in t)
              && (exact ==>
                    forall t ::
                      IsAnswer(g, terms, shown, t) && EMPTY_KEY !in t && HashedAlone(g, terms, shown, murmur, t) ==>
                        t in results.value)
  {
    hide Servable, Runnable, VarsOf, Names, ContextOk, DependencyOrder, AllKnown, IsSolution, ProperTerms, IsAnswer,
         Shown;
    ghost var shown := Shown(Names(variables), variables[0], select);
    OrderMeaning(terms);
    var order := MakeDependencyGraph(terms);
    var plan := order.terms;
    SameTermsSameAnswers(g, terms, plan, shown);
    var ctx := new QueryContext(g, variables, select, exact);
    var ok := ExecuteQueryPlan(ctx, plan);
    if !ok {
      return None;
    }
    var positions := Results.Positions(ctx.variablePosition, select);
    ShownPositions(ctx.rel.vars, variables, select, positions);
    RowsAreAnswers(g, plan, ctx.rel.rows, ctx.rel.multiindex, ctx.rel.vars, ctx.Defs(), exact, shown, positions);
    var tuples := Results.GetResults(ctx.rel.rows, positions, murmur);
    ResultsAreAnswers(g, terms, shown, ctx.rel.rows, positions, murmur, tuples, exact);
    results := Some(tuples);
  }

  lemma ShownPositions(vars: map<Var, nat>, variables: seq<Var>, select: seq<Var>, positions: seq<nat>)
    requires vars.Keys == Names(variables) && variables != [] && |positions| == |select|
    requires forall i :: 0 <= i < |variables| ==> vars[variables[i]] == i
    requires forall i :: 0 <= i < |positions| ==> positions[i] == Results.Position(vars, select[i])
    ensures PositionsOf(vars, Shown(Names(variables), variables[0], select), positions)
  {
    assert variables[0] in Names(variables) && vars[variables[0]] == 0;
  }
}
