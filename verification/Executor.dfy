/** The query context (db/context.go) and the operators that resolve one term of a basic
    graph pattern at a time (db/operators.go). */
module Executor {
  import opened Keys
  import opened Uris
  import opened Graphs
  import opened Keymaps
  import opened Traversal
  import opened Rows
  import opened Relations
  import opened Joins
  import opened Planner
  import opened Solutions

  // ---- one search, forwards or backwards ----

  /** Related by the path, with `k` at the near end for direction `d`. */
  ghost predicate Related(g: View, d: Dir, path: seq<PathPattern>, k: Key, x: Key) {
    if d == Out then PathRel(g, Out, path, k, x) else PathRel(g, Out, path, x, k)
  }

  /** The graph a snapshot serves: well-formed, with in-edges and out-edges in step, and
      an entity for every named key. */
  ghost predicate Servable(g: View) {
    WellFormedView(g) && !g.strict && EdgesAgree(g) && forall b :: b in g.entity ==> g.entity[b] in g.nodes
  }

  /** The evaluator finds only what the path relates in this direction; `exact` asks for all
      of it. */
  ghost predicate Evaluable(g: View, d: Dir, path: seq<PathPattern>, exact: bool) {
    && path != [] && PathIndexSound(g, d, path)
    && (exact ==> KnownPath(g, path) && PathIndexExact(g, d, path) && (d == In ==> Reversible(path)))
  }

  method Traverse(g: View, d: Dir, k: Key, path: seq<PathPattern>, ghost exact: bool) returns (r: Option<Keymap>)
    requires Servable(g)
    ensures r.None? <==> k !in g.nodes
    ensures r.Some? ==> fresh(r.value)
    ensures r.Some? && Evaluable(g, d, path, exact) ==>
              (forall x :: Tells(x in r.value.m, Related(g, d, path, k, x), exact)) && r.value.m <= g.nodes.Keys
  {
    if d == Out {
      r := GetObjectFromSubjectPred(g, k, path);
    } else {
      r := GetSubjectFromPredObject(g, k, path);
    }
    if r.Some? && Evaluable(g, d, path, exact) {
      forall x | x in r.value.m
        ensures x in g.nodes
      {
        RelatedStored(g, d, path, k, x);
      }
    }
  }

  lemma {:induction false} PathStaysStored(g: View, d: Dir, path: seq<PathPattern>, s: Key, o: Key)
    requires WellFormedView(g) && s in g.nodes && PathRel(g, d, path, s, o)
    ensures o in g.nodes
    decreases |path|
  {
    if |path| == 1 {
      SegmentStaysStored(g, d, path[0].pred, path[0].pattern, s, o);
    } else {
      var m :| Segment(EdgesOf(g, d, path[0].pred), path[0].pattern, s, m) && PathRel(g, d, path[1..], m, o);
      SegmentStaysStored(g, d, path[0].pred, path[0].pattern, s, m);
      PathStaysStored(g, d, path[1..], m, o);
    }
  }

  lemma RelatedStored(g: View, d: Dir, path: seq<PathPattern>, k: Key, x: Key)
    requires Servable(g) && k in g.nodes && Related(g, d, path, k, x)
    ensures x in g.nodes
  {
    if d == Out {
      PathStaysStored(g, Out, path, k, x);
    } else {
      PathConverse(g, path, x, k);
      PathStaysStored(g, In, Reversed(path), k, x);
    }
  }

  // ---- tuples and assignments ----

  function TupleOf(nu: Assignment, ks: seq<Var>): seq<Key>
    requires forall v :: v in ks ==> v in nu
  {
    seq(|ks|, i requires 0 <= i < |ks| => nu[ks[i]])
  }

  lemma TupleIsAssignment(row: seq<Byte>, vars: map<Var, nat>, ks: seq<Var>, nu: Assignment)
    requires (forall v :: v in ks ==> v in vars) && nu.Keys == Names(ks)
    ensures Assign(row, vars, Names(ks)) == nu <==> Tuple(row, vars, ks) == TupleOf(nu, ks)
  {
    assert forall i :: 0 <= i < |ks| ==> ks[i] in Names(ks);
    if Tuple(row, vars, ks) == TupleOf(nu, ks) {
      forall v | v in Names(ks)
        ensures Assign(row, vars, Names(ks))[v] == nu[v]
      {
        var i :| 0 <= i < |ks| && ks[i] == v;
        assert Tuple(row, vars, ks)[i] == TupleOf(nu, ks)[i];
      }
    }
  }

  lemma RowsByTuple(rows: seq<seq<Byte>>, vars: map<Var, nat>, ks: seq<Var>, nu: Assignment)
    requires (forall v :: v in ks ==> v in vars) && nu.Keys == Names(ks)
    ensures InRows(rows, vars, Names(ks), nu) <==> HasTuple(rows, vars, ks, TupleOf(nu, ks))
  {
    forall i | 0 <= i < |rows|
      ensures Assign(rows[i], vars, Names(ks)) == nu <==> Tuple(rows[i], vars, ks) == TupleOf(nu, ks)
    {
      TupleIsAssignment(rows[i], vars, ks, nu);
    }
  }

  lemma NoRepeatsByTuple(rows: seq<seq<Byte>>, vars: map<Var, nat>, ks: seq<Var>)
    requires (forall v :: v in ks ==> v in vars) && NoDuplicateTuples(rows, vars, ks)
    ensures NoRepeats(rows, vars, Names(ks))
  {
    forall i, j | 0 <= i < j < |rows|
      ensures Assign(rows[i], vars, Names(ks)) != Assign(rows[j], vars, Names(ks))
    {
      var nu := Assign(rows[j], vars, Names(ks));
      TupleIsAssignment(rows[i], vars, ks, nu);
      TupleIsAssignment(rows[j], vars, ks, nu);
    }
  }

  /** The tuples that a term's relation should hold: its pairs, within the definitions. */
  ghost predicate TuplesOfTerm(g: View, t: Term, defs: map<Var, set<Key>>, ks: seq<Var>, ts: set<seq<Key>>, exact: bool)
    requires t.path != []
  {
    forall nu: Assignment :: nu.Keys == Names(ks) ==> Tells(TupleOf(nu, ks) in ts, TermRows(g, t, defs, nu), exact)
  }

  /** A relation freshly filled with those tuples holds the term's rows, once each. */
  lemma FilledHoldsTerm(g: View, t: Term, defs: map<Var, set<Key>>, ks: seq<Var>, ts: set<seq<Key>>,
                        rows: seq<seq<Byte>>, vars: map<Var, nat>, exact: bool)
    requires t.path != [] && VarSet(t) == Names(ks) == vars.Keys
    requires Inserted([], rows, vars, ks, ts) && TuplesOfTerm(g, t, defs, ks, ts, exact)
    ensures HoldsTerm(g, t, defs, rows, vars, exact) && NoRepeats(rows, vars, vars.Keys)
  {
    forall nu
      ensures Tells(InRows(rows, vars, vars.Keys, nu), TermRows(g, t, defs, nu), exact)
    {
      if nu.Keys == Names(ks) {
        RowsByTuple(rows, vars, ks, nu);
        assert !HasTuple([], vars, ks, TupleOf(nu, ks));
      }
    }
    NoRepeatsByTuple(rows, vars, ks);
  }

  // ---- the context's invariant ----

  /** After the terms so far: the rows are their solutions, each once, and, if the searches
      are exact, all of them, covered by the definitions; before the first term, everything
      is empty. */
  ghost predicate ContextOk(g: View, terms: seq<Term>, rows: seq<seq<Byte>>, multiindex: map<Var, ValueIndex>,
                            vars: map<Var, nat>, defs: map<Var, set<Key>>, exact: bool)
  {
    && (forall u :: u in terms ==> ConstantPredicate(u))
    && AllAligned(rows) && PositionsOk(vars) && VarsOf(terms) <= vars.Keys
    && DefsCover(g, terms, defs, exact) && (forall v :: v in defs ==> defs[v] <= g.nodes.Keys)
    && (if terms == [] then
          rows == [] && forall v :: v in vars ==> VarIndexed(rows, multiindex, vars, v)
        else
          VarsOf(terms) != {} && HoldsSolutions(g, terms, rows, vars, exact) && NoRepeats(rows, vars, VarsOf(terms))
          && RowsReach(rows, vars, VarsOf(terms)))
  }

  /** Every row has bytes for all the variables. */
  ghost predicate RowsReach(rows: seq<seq<Byte>>, vars: map<Var, nat>, dom: set<Var>)
    requires dom <= vars.Keys
  {
    forall i, v :: 0 <= i < |rows| && v in dom ==> Reaches(rows[i], vars[v])
  }

  /** The solutions of a single one-variable term. */
  lemma OneTermSolutions(g: View, t: Term, v: Var, mu: Assignment)
    requires ConstantPredicate(t) && Variables(t) == [v]
    ensures ProperTerms([t]) && VarsOf([t]) == VarSet(t) == {v}
    ensures IsSolution(g, [t], mu) <==> mu.Keys == {v} && Satisfies(g, t, map[v := mu[v]])
  {
    hide Satisfies;
    assert VarSet(t) == {v};
    VarsOfMore([], t);
    assert [] + [t] == [t] && VarsOf([]) == {};
    if mu.Keys == {v} {
      assert mu == map[v := mu[v]];
    }
  }

  /** The rows of one inserted column. */
  lemma OneColumnRows(v: Var, values: set<Key>, rows: seq<seq<Byte>>, vars: map<Var, nat>, mu: Assignment)
    requires v in vars && Inserted([], rows, vars, [v], set k | k in values :: [k])
    ensures InRows(rows, vars, {v}, mu) <==> mu.Keys == {v} && mu[v] in values
  {
    assert Names([v]) == {v};
    if mu.Keys == {v} {
      RowsByTuple(rows, vars, [v], mu);
      assert TupleOf(mu, [v]) == [mu[v]];
      SingletonTuples(values, mu[v]);
      assert !HasTuple([], vars, [v], TupleOf(mu, [v]));
    }
  }

  /** The first term: its rows go straight into the relation. */
  lemma FirstTermDone(g: View, t: Term, v: Var, values: set<Key>, rows: seq<seq<Byte>>,
                      multiindex: map<Var, ValueIndex>, vars: map<Var, nat>, exact: bool)
    requires ConstantPredicate(t) && Variables(t) == [v] && v in vars && values <= g.nodes.Keys
    requires Indexed(rows, multiindex, vars, [v])
    requires Inserted([], rows, vars, [v], set k | k in values :: [k])
    requires forall k :: Tells(k in values, Satisfies(g, t, map[v := k]), exact)
    ensures ContextOk(g, [t], rows, multiindex, vars, map[v := values], exact)
  {
    hide InRows, IsSolution, Satisfies, VarsOf, NoDuplicateTuples, IndexExactAt;
    OneTermSolutions(g, t, v, map[]);
    assert Names([v]) == {v};
    forall mu
      ensures Tells(InRows(rows, vars, {v}, mu), IsSolution(g, [t], mu), exact)
      ensures exact && IsSolution(g, [t], mu) ==> mu.Keys == {v} && mu[v] in values
    {
      OneTermSolutions(g, t, v, mu);
      OneColumnRows(v, values, rows, vars, mu);
    }
    NoneRepeat(vars, [v]);
    NoRepeatsByTuple(rows, vars, [v]);
  }

  lemma NoneRepeat(vars: map<Var, nat>, ks: seq<Var>)
    requires forall v :: v in ks ==> v in vars
    ensures NoDuplicateTuples([], vars, ks)
  {
  }

  lemma SingletonTuples(values: set<Key>, k: Key)
    ensures [k] in (set x | x in values :: [x]) <==> k in values
  {
    if [k] in (set x | x in values :: [x]) {
      var x :| x in values && [x] == [k];
      assert [x][0] == [k][0];
    }
  }

  /** New definitions keep the old values of a variable, or hold all its values in the
      term's rows, if the searches are exact. */
  ghost predicate Redefined(g: View, t: Term, defs: map<Var, set<Key>>, defs': map<Var, set<Key>>, exact: bool)
    requires t.path != []
  {
    && defs'.Keys == defs.Keys + VarSet(t)
    && forall v :: v in defs' ==>
         && defs'[v] <= g.nodes.Keys
         && (exact ==> (v in defs && defs'[v] == defs[v])
                       || forall nu :: TermRows(g, t, defs, nu) ==> v in nu && nu[v] in defs'[v])
  }

  /** A later term: join its rows on the resolved variable it shares. */
  lemma LaterTermDone(g: View, terms: seq<Term>, t: Term, rows0: seq<seq<Byte>>, multiindex: map<Var, ValueIndex>,
                      vars: map<Var, nat>, defs: map<Var, set<Key>>, others: seq<seq<Byte>>, otherVars: map<Var, nat>,
                      on: seq<Var>, rows: seq<seq<Byte>>, src: seq<(nat, nat)>, defs': map<Var, set<Key>>, exact: bool)
    requires ContextOk(g, terms, rows0, multiindex, vars, defs, exact) && terms != [] && ConstantPredicate(t)
    requires HoldsTerm(g, t, defs, others, otherVars, exact) && NoRepeats(others, otherVars, otherVars.Keys)
    requires VarSet(t) <= vars.Keys && on != [] && Names(on) == VarsOf(terms) * VarSet(t)
    requires JoinResult(rows0, vars, others, otherVars, on, rows, src)
    requires Redefined(g, t, defs, defs', exact)
    ensures ContextOk(g, terms + [t], rows, multiindex, vars, defs', exact)
  {
    hide VarsOf, VarSet, Variables, HoldsSolutions, IsNaturalJoin, NoRepeats, IsSolution, TermRows, PositionsOk;
    VarsOfMore(terms, t);
    assert forall u :: u in terms + [t] <==> u in terms || u == t;
    JoinIsNatural(rows0, vars, VarsOf(terms), others, otherVars, on, rows, src);
    JoinExtends(g, terms, t, defs, rows0, vars, others, otherVars, rows, exact);
    ResultReaches(rows0, vars, VarsOf(terms), others, otherVars, on, rows, src);
    forall mu, v | exact && IsSolution(g, terms + [t], mu) && v in mu
      ensures v in defs' && mu[v] in defs'[v]
    {
      SolutionKeys(g, terms + [t], mu);
      SolutionIsJoined(g, terms, t, defs, mu);
      var left, right := Restrict(mu, VarsOf(terms)), Restrict(mu, VarSet(t));
      assert v in left ==> left[v] in defs[v];
    }
  }

  lemma SolutionKeys(g: View, terms: seq<Term>, mu: Assignment)
    requires ProperTerms(terms) && IsSolution(g, terms, mu)
    ensures mu.Keys == VarsOf(terms)
  {
  }

  lemma ResultReaches(rows0: seq<seq<Byte>>, vars: map<Var, nat>, dom: set<Var>, others: seq<seq<Byte>>,
                      otherVars: map<Var, nat>, on: seq<Var>, rows: seq<seq<Byte>>, src: seq<(nat, nat)>)
    requires JoinResult(rows0, vars, others, otherVars, on, rows, src) && dom <= vars.Keys
    requires otherVars.Keys <= vars.Keys
    requires RowsReach(rows0, vars, dom)
    ensures AllAligned(rows) && RowsReach(rows, vars, dom + otherVars.Keys)
  {
    forall i, v | 0 <= i < |rows| && v in dom + otherVars.Keys
      ensures Reaches(rows[i], vars[v])
    {
      assert Merged(rows[i], rows0[src[i].0], others[src[i].1], vars, otherVars);
      assert v in dom ==> Reaches(rows0[src[i].0], vars[v]);
    }
  }

  class QueryContext {
    const g: View
    const variablePosition: map<Var, nat>
    const selectVars: seq<Var>
    const rel: Relation
    var definitions: map<Var, Keymap>
    var joined: seq<Var>
    // whether all searches find everything
    ghost const exact: bool

    /** `newQueryContext`: an empty relation over the query's variables. */
    constructor (g: View, variables: seq<Var>, selectVars: seq<Var>, ghost exact: bool)
      requires Distinct(variables)
      ensures this.g == g && this.selectVars == selectVars && this.exact == exact && fresh(rel)
      ensures variablePosition == rel.vars && rel.vars.Keys == Names(variables)
      ensures definitions == map[] && joined == []
      ensures ContextOk(g, [], rel.rows, rel.multiindex, rel.vars, Defs(), exact)
      ensures forall i :: 0 <= i < |variables| ==> rel.vars[variables[i]] == i
    {
      this.g, this.selectVars, this.exact := g, selectVars, exact;
      definitions, joined := map[], [];
      var relation := new Relation(variables);
      rel := relation;
      variablePosition := relation.vars;
      new;
      EmptyContextOk(g, rel.rows, rel.multiindex, rel.vars, variables, exact);
    }

    /** The definitions as sets. */
    ghost function Defs(): map<Var, set<Key>>
      reads this, definitions.Values
    {
      map v | v in definitions :: definitions[v].m
    }

    ghost predicate Valid(terms: seq<Term>)
      reads this, rel, definitions.Values
    {
      ContextOk(g, terms, rel.rows, rel.multiindex, rel.vars, Defs(), exact)
    }

    predicate Defined(v: Var)
      reads this
    {
      v in definitions
    }

    method MarkJoined(v: Var)
      modifies `joined
      ensures joined == if v in old(joined) then old(joined) else old(joined) + [v]
    {
      for i := 0 to |joined|
        invariant joined == old(joined) && v !in joined[..i]
      {
        if joined[i] == v {
          return;
        }
      }
      joined := joined + [v];
    }

    method GetValuesForVariable(v: Var) returns (values: Keymap)
      ensures if v in definitions then values == definitions[v] else fresh(values) && values.m == {}
    {
      if v in definitions {
        values := definitions[v];
      } else {
        values := new Keymap();
      }
    }

    /** A definition with values is kept. */
    method DefineVariable(v: Var, values: Keymap)
      modifies `definitions
      ensures definitions == if v in old(definitions) && old(definitions)[v].m != {} then old(definitions)
                             else old(definitions)[v := values]
    {
      if v !in definitions || definitions[v].m == {} {
        definitions := definitions[v := values];
      }
    }

    /** Remove the values that are not among the variable's values so far. */
    method RestrictToResolved(v: Var, values: Keymap)
      modifies values
      ensures values.m == if v in definitions then old(values.m) * old(definitions[v].m) else old(values.m)
    {
      if v !in definitions {
        return;
      }
      var tree := definitions[v];
      var toDelete := set k | k in values.m && k !in tree.m;
      ghost var kept := values.m * tree.m;
      while toDelete != {}
        invariant values.m == kept + toDelete && kept !! toDelete
        decreases toDelete
      {
        var k :| k in toDelete;
        values.Delete(k);
        toDelete := toDelete - {k};
      }
    }

    method UnionDefinitions(v: Var, values: Keymap)
      modifies `definitions, values
      ensures values.m == if v in old(definitions) then old(values.m) * old(definitions[v].m) else old(values.m)
      ensures definitions == old(definitions)[v := values]
    {
      RestrictToResolved(v, values);
      definitions := definitions[v := values];
    }

    /** The values of a variable as a relation of their own. */
    method OneVariable(v: Var, values: Keymap) returns (newrel: Relation)
      ensures fresh(newrel) && newrel.vars.Keys == {v} && newrel.IndexedOn([v])
      ensures Inserted([], newrel.rows, newrel.vars, [v], set k | k in values.m :: [k])
    {
      hide Indexed, Inserted, ReadyFor;
      newrel := new Relation([v]);
      FreshIsReady(newrel.rows, newrel.multiindex, newrel.vars, [v]);
      newrel.Add1Value(v, values);
    }

    /** A first term's values define its variable and fill the relation. */
    method DefineFirst(v: Var, values: Keymap, ghost terms: seq<Term>, ghost t: Term)
      requires Valid(terms) && ReadyTerm(VarsOf(terms), t) && Variables(t) == [v] && v in rel.vars
      requires !Defined(v) && values.m <= g.nodes.Keys
      requires forall k :: Tells(k in values.m, Satisfies(g, t, map[v := k]), exact)
      modifies this, rel
      ensures Valid(terms + [t]) && rel.vars == old(rel.vars)
    {
      hide ContextOk, Satisfies, PositionsOk, VarsOf, Indexed, Inserted, ReadyFor, Variables;
      FirstTermReady(g, terms, t, rel.rows, rel.multiindex, rel.vars, Defs(), v, exact);
      DefineVariable(v, values);
      rel.Add1Value(v, values);
      FirstTermDone(g, t, v, values.m, rel.rows, rel.multiindex, rel.vars, exact);
      assert terms + [t] == [t];
      assert Defs() == map[v := values.m];
    }

    /** Join the relation of one more term on its only resolved variable. */
    method JoinTerm(newrel: Relation, on: seq<Var>, ghost terms: seq<Term>, ghost t: Term,
                    ghost defs: map<Var, set<Key>>, ghost defs': map<Var, set<Key>>)
      requires ContextOk(g, terms, rel.rows, rel.multiindex, rel.vars, defs, exact) && terms != []
      requires ConstantPredicate(t)
      requires newrel != rel && HoldsTerm(g, t, defs, newrel.rows, newrel.vars, exact)
      requires NoRepeats(newrel.rows, newrel.vars, newrel.vars.Keys)
      requires VarSet(t) <= rel.vars.Keys && on != [] && Names(on) == VarsOf(terms) * VarSet(t)
      requires Indexed(newrel.rows, newrel.multiindex, newrel.vars, on) && OnKnown(rel.vars, newrel.vars, on)
      requires Redefined(g, t, defs, defs', exact)
      modifies rel`rows
      ensures ContextOk(g, terms + [t], rel.rows, rel.multiindex, rel.vars, defs', exact)
    {
      hide ContextOk, VarsOf, VarSet, Variables, Names, Indexed, JoinResult, NoRepeats, Redefined, OnKnown, PositionsOk;
      ContextShape(g, terms, rel.rows, rel.multiindex, rel.vars, defs, exact);
      assert newrel.vars.Keys == VarSet(t);
      hide HoldsTerm;
      ghost var rows0 := rel.rows;
      var src := rel.Join(newrel, on);
      LaterTermDone(g, terms, t, rows0, rel.multiindex, rel.vars, defs, newrel.rows, newrel.vars, on, rel.rows, src,
                    defs', exact);
    }

    /** A later term's values restrict its variable and the relation. */
    method RestrictLater(v: Var, values: Keymap, ghost terms: seq<Term>, ghost t: Term)
      requires Valid(terms) && ReadyTerm(VarsOf(terms), t) && Variables(t) == [v] && v in rel.vars
      requires Defined(v) && values !in definitions.Values
      requires forall k :: Tells(k in values.m, Satisfies(g, t, map[v := k]), exact)
      modifies this, rel, values
      ensures Valid(terms + [t]) && rel.vars == old(rel.vars)
    {
      hide ContextOk, Satisfies, PositionsOk, VarsOf, Indexed, Inserted, HoldsTerm, NoRepeats,
           Redefined, VarSet, Names, Variables, ReadyTerm, OnKnown;
      ghost var defs, all := Defs(), values.m;
      ContextShape(g, terms, rel.rows, rel.multiindex, rel.vars, defs, exact);
      LaterTermReady(g, terms, t, rel.rows, rel.multiindex, rel.vars, defs, v, exact);
      UnionDefinitions(v, values);
      assert Defs() == defs[v := values.m];
      var newrel := OneVariable(v, values);
      OneVariableRows(g, t, defs, v, all, values.m, newrel.rows, newrel.vars, exact);
      IndexedIsKnown(newrel.rows, newrel.multiindex, newrel.vars, rel.vars, [v]);
      JoinTerm(newrel, [v], terms, t, defs, Defs());
    }

    /** The common end of `resolveSubject` and `resolveObject`: the values found for a
        term's only variable define it, or restrict it by a join. */
    method ApplyValues(v: Var, values: Keymap, ghost terms: seq<Term>, ghost t: Term)
      requires Valid(terms) && ReadyTerm(VarsOf(terms), t) && Variables(t) == [v] && v in rel.vars
      requires values !in definitions.Values && values.m <= g.nodes.Keys
      requires forall k :: Tells(k in values.m, Satisfies(g, t, map[v := k]), exact)
      modifies this, rel, values
      ensures Valid(terms + [t]) && rel.vars == old(rel.vars)
    {
      hide ContextOk, Satisfies, VarsOf, Variables, ReadyTerm;
      if !Defined(v) {
        DefineFirst(v, values, terms, t);
      } else {
        RestrictLater(v, values, terms, t);
      }
    }

    /** `resolveSubject` for `?s path o` (`d == In`) and `resolveObject` for `s path ?o`
        (`d == Out`). A constant without a key is an error. */
    method ResolveEnd(d: Dir, t: Term, ghost terms: seq<Term>) returns (ok: bool)
      requires Servable(g) && Valid(terms) && ReadyTerm(VarsOf(terms), t) && OneEnded(d, t)
      requires VarOf(FarEnd(d, t)) in rel.vars && Evaluable(g, d, t.path, exact)
      modifies this, rel
      ensures ok <==> GetHash(g, NearEnd(d, t)).Some?
      ensures rel.vars == old(rel.vars) && Valid(if ok then terms + [t] else terms)
    {
      hide ContextOk, VarsOf, ReadyTerm, Evaluable, Related, OneEnded;
      var end := GetHash(g, NearEnd(d, t));
      if end.None? {
        return false;
      }
      assert end.value in g.nodes;
      ContextShape(g, terms, rel.rows, rel.multiindex, rel.vars, Defs(), exact);
      var found := Traverse(g, d, end.value, t.path, exact);
      var v := VarOf(FarEnd(d, t));
      OneEndedTerm(g, d, t, end.value, VarsOf(terms));
      ApplyValues(v, found.value, terms, t);
      ok := true;
    }

    /** The loops of `resolveSubjectFromVarObject` (`d == In`) and
        `resolveObjectFromVarSubject` (`d == Out`): follow the path from every value of
        the resolved variable and collect the pairs, as far as the other variable's values
        are not resolved otherwise. */
    method CollectPairs(d: Dir, known: Var, other: Var, path: seq<PathPattern>)
      returns (contents: seq<seq<Key>>, newValues: Keymap)
      requires Servable(g) && Evaluable(g, d, path, exact) && known in definitions
      requires definitions[known].m <= g.nodes.Keys
      ensures fresh(newValues) && newValues.m <= g.nodes.Keys
      ensures forall k, x :: Tells([k, x] in contents,
                                   k in definitions[known].m && Related(g, d, path, k, x) && Admitted(Defs(), other, x),
                                   exact)
      ensures forall c :: c in contents ==> |c| == 2
      ensures forall x :: x in newValues.m <==> exists k :: [k, x] in contents
    {
      hide Related, Evaluable, Admitted;
      newValues := new Keymap();
      contents := [];
      var values := GetValuesForVariable(known);
      var todo := values.m;
      ghost var defs := Defs();
      while todo != {}
        invariant todo <= values.m && fresh(newValues) && newValues.m <= g.nodes.Keys && Defs() == defs
        invariant forall k, x :: Tells([k, x] in contents,
                                       k in values.m - todo && Related(g, d, path, k, x) &&
                                         Admitted(defs, other, x), exact)
        invariant forall c :: c in contents ==> |c| == 2
        invariant forall x :: x in newValues.m <==> exists k :: [k, x] in contents
      {
        var k :| k in todo;
        var reachable := Traverse(g, d, k, path, exact);
        ghost var all := reachable.value.m;
        RestrictToResolved(other, reachable.value);
        AdmittedAre(defs, other, all, reachable.value.m);
        var pairs := PairsWith(k, reachable.value, newValues);
        PairsMore(g, d, path, defs, other, values.m - todo, k, reachable.value.m, contents, pairs, exact);
        MoreValues(k, reachable.value.m, contents, pairs);
        contents := contents + pairs;
        assert values.m - (todo - {k}) == values.m - todo + {k};
        todo := todo - {k};
      }
      assert values.m - {} == values.m;
    }

    /** One value with everything reachable from it, in any order. */
    method PairsWith(k: Key, reachable: Keymap, newValues: Keymap) returns (pairs: seq<seq<Key>>)
      requires reachable != newValues
      modifies newValues
      ensures newValues.m == old(newValues.m) + reachable.m
      ensures forall c :: c in pairs <==> exists x :: x in reachable.m && c == [k, x]
    {
      pairs := [];
      var todo := reachable.m;
      while todo != {}
        invariant todo <= reachable.m && newValues.m == old(newValues.m) + (reachable.m - todo)
        invariant forall c :: c in pairs <==> exists x :: x in reachable.m - todo && c == [k, x]
      {
        var x :| x in todo;
        newValues.Add(x);
        pairs := pairs + [[k, x]];
        todo := todo - {x};
      }
    }

    /** Pairs of values as a relation of their own. */
    method TwoVariables(known: Var, other: Var, contents: seq<seq<Key>>) returns (newrel: Relation)
      requires known != other && forall c :: c in contents ==> |c| == 2
      ensures fresh(newrel) && newrel.keys == [known, other]
      ensures newrel.vars.Keys == {known, other} && newrel.IndexedOn([known, other])
      ensures Inserted([], newrel.rows, newrel.vars, [known, other], Elements(contents))
    {
      hide Indexed, Inserted, ReadyFor, Elements;
      newrel := new Relation([known, other]);
      FreshIsReady(newrel.rows, newrel.multiindex, newrel.vars, [known, other]);
      newrel.AddValues([known, other], contents);
    }

    /** The pairs as a relation, joined on the resolved variable. */
    method JoinPairs(d: Dir, t: Term, contents: seq<seq<Key>>, newValues: Keymap,
                     ghost terms: seq<Term>, ghost defs: map<Var, set<Key>>)
      requires ContextOk(g, terms, rel.rows, rel.multiindex, rel.vars, defs, exact)
      requires ReadyTerm(VarsOf(terms), t) && TwoEnded(d, t, VarsOf(terms)) && VarSet(t) <= rel.vars.Keys
      requires newValues.m <= g.nodes.Keys && forall c :: c in contents ==> |c| == 2
      requires PairsOf(g, d, t, defs, contents, newValues.m, exact)
      modifies rel`rows
      ensures ContextOk(g, terms + [t], rel.rows, rel.multiindex, rel.vars, defs[VarOf(FarEnd(d, t)) := newValues.m],
                        exact)
    {
      hide ContextOk, VarsOf, ReadyTerm, Indexed, Inserted, HoldsTerm, NoRepeats, Redefined, Variables, OnKnown,
           Elements, PositionsOk, Satisfies, PairsOf, Names;
      var known, other := VarOf(NearEnd(d, t)), VarOf(FarEnd(d, t));
      ContextShape(g, terms, rel.rows, rel.multiindex, rel.vars, defs, exact);
      TwoEndedTerm(g, d, t, VarsOf(terms));
      hide VarSet, TwoEnded;
      var relation := TwoVariables(known, other, contents);
      TwoVariableRows(g, d, t, defs, contents, newValues.m, relation.rows, relation.vars, exact);
      IndexedIsKnown(relation.rows, relation.multiindex, relation.vars, rel.vars, [known, other]);
      assert relation.keys[..1] == [known] <= [known, other];
      JoinTerm(relation, relation.keys[..1], terms, t, defs, defs[other := newValues.m]);
    }

    method NoteJoined(t: Term, other: Var, newValues: Keymap)
      requires other !in definitions && newValues !in definitions.Values
      modifies `definitions, `joined, newValues
      ensures Defs() == old(Defs())[other := old(newValues.m)]
      ensures VarOf(t.subj) in joined && VarOf(t.obj) in joined && old(joined) <= joined
    {
      ghost var defs, values := Defs(), newValues.m;
      MarkJoined(VarOf(t.subj));
      MarkJoined(VarOf(t.obj));
      UnionDefinitions(other, newValues);
      assert Defs() == defs[other := values];
    }

    /** `resolveSubjectFromVarObject` (`d == In`) and `resolveObjectFromVarSubject`
        (`d == Out`): one end of the term is resolved, the other is not. */
    method ResolveFarEnd(d: Dir, t: Term, ghost terms: seq<Term>)
      requires Servable(g) && Valid(terms) && ReadyTerm(VarsOf(terms), t) && TwoEnded(d, t, VarsOf(terms))
      requires VarSet(t) <= rel.vars.Keys && Evaluable(g, d, t.path, exact)
      modifies this, rel
      ensures Valid(terms + [t]) && rel.vars == old(rel.vars)
    {
      hide ContextOk, VarsOf, ReadyTerm, Evaluable, VarSet, Variables, Satisfies, Servable, Related;
      var known, other := VarOf(NearEnd(d, t)), VarOf(FarEnd(d, t));
      ghost var defs := Defs();
      ContextShape(g, terms, rel.rows, rel.multiindex, rel.vars, defs, exact);
      TwoEndedTerm(g, d, t, VarsOf(terms));
      hide TwoEnded, ConstantPredicate, Names;
      var contents, newValues := CollectPairs(d, known, other, t.path);
      assert PairsOf(g, d, t, defs, contents, newValues.m, exact);
      hide PairsOf;
      JoinPairs(d, t, contents, newValues, terms, defs);
      NoteJoined(t, other, newValues);
    }
  }

  /** The pairs related by a term's path from the resolved variable's values, and the
      values at their far ends. */
  ghost predicate PairsOf(g: View, d: Dir, t: Term, defs: map<Var, set<Key>>, contents: seq<seq<Key>>,
                          newValues: set<Key>, exact: bool) {
    var known := VarOf(NearEnd(d, t));
    && known in defs
    && (forall k, x :: Tells([k, x] in contents, k in defs[known] && Related(g, d, t.path, k, x), exact))
    && (forall x :: x in newValues <==> exists k :: [k, x] in contents)
  }

  /** Two different variables, the near one resolved and the far one not. */
  ghost predicate TwoEnded(d: Dir, t: Term, resolved: set<Var>) {
    && IsVariable(t.subj) && IsVariable(t.obj)
    && VarOf(NearEnd(d, t)) in resolved && VarOf(FarEnd(d, t)) !in resolved
  }

  lemma TwoEndedTerm(g: View, d: Dir, t: Term, resolved: set<Var>)
    requires ReadyTerm(resolved, t) && TwoEnded(d, t, resolved)
    ensures var known, other := VarOf(NearEnd(d, t)), VarOf(FarEnd(d, t));
            && known != other && VarSet(t) == {known, other} && Names([known]) == resolved * VarSet(t)
            && ConstantPredicate(t) && resolved != {}
    ensures var known, other := VarOf(NearEnd(d, t)), VarOf(FarEnd(d, t));
            forall nu: Assignment :: known in nu && other in nu ==>
              (Satisfies(g, t, nu) <==> Related(g, d, t.path, nu[known], nu[other]))
  {
  }

  /** The relation of a two-variable term, and the far variable's definition. */
  lemma TwoVariableRows(g: View, d: Dir, t: Term, defs: map<Var, set<Key>>, contents: seq<seq<Key>>,
                        newValues: set<Key>, rows: seq<seq<Byte>>, vars: map<Var, nat>, exact: bool)
    requires ReadyTerm(defs.Keys, t) && TwoEnded(d, t, defs.Keys) && newValues <= g.nodes.Keys
    requires forall v :: v in defs ==> defs[v] <= g.nodes.Keys
    requires var known, other := VarOf(NearEnd(d, t)), VarOf(FarEnd(d, t));
             && vars.Keys == {known, other}
             && Inserted([], rows, vars, [known, other], Elements(contents))
    requires PairsOf(g, d, t, defs, contents, newValues, exact)
    ensures HoldsTerm(g, t, defs, rows, vars, exact) && NoRepeats(rows, vars, vars.Keys)
    ensures Redefined(g, t, defs, defs[VarOf(FarEnd(d, t)) := newValues], exact)
  {
    hide Inserted, NoRepeats, HoldsTerm, Related, ReadyTerm;
    var known, other := VarOf(NearEnd(d, t)), VarOf(FarEnd(d, t));
    TwoEndedTerm(g, d, t, defs.Keys);
    hide Satisfies, VarSet, Variables;
    assert Names([known, other]) == {known, other};
    forall nu: Assignment | nu.Keys == {known, other}
      ensures Tells(TupleOf(nu, [known, other]) in Elements(contents), TermRows(g, t, defs, nu), exact)
      ensures exact && TermRows(g, t, defs, nu) ==> nu[other] in newValues
    {
      assert TupleOf(nu, [known, other]) == [nu[known], nu[other]];
      assert Tells([nu[known], nu[other]] in contents,
                   nu[known] in defs[known] && Related(g, d, t.path, nu[known], nu[other]), exact);
    }
    FilledHoldsTerm(g, t, defs, [known, other], Elements(contents), rows, vars, exact);
  }

  /** The end of a term a search starts from, and the other one. */
  function NearEnd(d: Dir, t: Term): URI {
    if d == Out then t.subj else t.obj
  }

  function FarEnd(d: Dir, t: Term): URI {
    if d == Out then t.obj else t.subj
  }

  predicate OneEnded(d: Dir, t: Term) {
    !IsVariable(NearEnd(d, t)) && IsVariable(FarEnd(d, t))
  }

  lemma OneEndedTerm(g: View, d: Dir, t: Term, k: Key, resolved: set<Var>)
    requires ReadyTerm(resolved, t) && OneEnded(d, t) && GetHash(g, NearEnd(d, t)) == Some(k)
    ensures Variables(t) == [VarOf(FarEnd(d, t))]
    ensures forall x :: Satisfies(g, t, map[VarOf(FarEnd(d, t)) := x]) <==> Related(g, d, t.path, k, x)
  {
  }

  /** The variable has no values yet, or this one among them. */
  ghost predicate Admitted(defs: map<Var, set<Key>>, v: Var, x: Key) {
    v in defs ==> x in defs[v]
  }

  lemma AdmittedAre(defs: map<Var, set<Key>>, v: Var, all: set<Key>, restricted: set<Key>)
    requires restricted == if v in defs then all * defs[v] else all
    ensures forall x :: x in restricted <==> x in all && Admitted(defs, v, x)
  {
  }

  lemma PairsMore(g: View, d: Dir, path: seq<PathPattern>, defs: map<Var, set<Key>>, other: Var, done: set<Key>, k: Key,
                  reachable: set<Key>, contents: seq<seq<Key>>, pairs: seq<seq<Key>>, exact: bool)
    requires forall m, x ::
               Tells([m, x] in contents, m in done && Related(g, d, path, m, x) && Admitted(defs, other, x),
                                  exact)
    requires forall x :: Tells(x in reachable, Related(g, d, path, k, x) && Admitted(defs, other, x), exact)
    requires forall c :: c in pairs <==> exists x :: x in reachable && c == [k, x]
    ensures forall m, x :: Tells([m, x] in contents + pairs,
                                 m in done + {k} && Related(g, d, path, m, x) && Admitted(defs, other, x), exact)
  {
    hide Related, Admitted;
    forall m, x
      ensures Tells([m, x] in contents + pairs,
                    m in done + {k} && Related(g, d, path, m, x) && Admitted(defs, other, x), exact)
    {
      if [m, x] in pairs {
        var y :| y in reachable && [m, x] == [k, y];
        assert [m, x][0] == [k, y][0] && [m, x][1] == [k, y][1];
      }
      if m == k && x in reachable {
        assert [m, x] == [k, x];
      }
    }
  }

  lemma MoreValues(k: Key, reachable: set<Key>, contents: seq<seq<Key>>, pairs: seq<seq<Key>>)
    requires forall c :: c in pairs <==> exists x :: x in reachable && c == [k, x]
    ensures forall x :: (exists m :: [m, x] in contents + pairs) <==> x in reachable || exists m :: [m, x] in contents
  {
    forall x
      ensures (exists m :: [m, x] in contents + pairs) <==> x in reachable || exists m :: [m, x] in contents
    {
      if x in reachable {
        assert [k, x] in contents + pairs;
      }
      if m :| [m, x] in contents {
        assert [m, x] in contents + pairs;
      }
      if m :| [m, x] in pairs {
        var y :| y in reachable && [m, x] == [k, y];
        assert [m, x][1] == [k, y][1];
      }
    }
  }

  /** What the proofs of single operators need from the invariant. */
  lemma ContextShape(g: View, terms: seq<Term>, rows: seq<seq<Byte>>, multiindex: map<Var, ValueIndex>,
                     vars: map<Var, nat>, defs: map<Var, set<Key>>, exact: bool)
    requires ContextOk(g, terms, rows, multiindex, vars, defs, exact)
    ensures ProperTerms(terms) && AllAligned(rows) && PositionsOk(vars) && VarsOf(terms) <= vars.Keys
    ensures defs.Keys == VarsOf(terms) && forall v :: v in defs ==> defs[v] <= g.nodes.Keys
    ensures terms != [] ==> VarsOf(terms) != {}
    ensures terms == [] ==> VarsOf(terms) == {} && rows == []
  {
  }

  lemma FirstTermReady(g: View, terms: seq<Term>, t: Term, rows: seq<seq<Byte>>, multiindex: map<Var, ValueIndex>,
                       vars: map<Var, nat>, defs: map<Var, set<Key>>, v: Var, exact: bool)
    requires ContextOk(g, terms, rows, multiindex, vars, defs, exact) && ReadyTerm(VarsOf(terms), t)
    requires Variables(t) == [v] && v in vars && v !in defs
    ensures terms == [] && rows == [] && defs == map[] && ConstantPredicate(t)
    ensures ReadyFor(rows, multiindex, vars, [v])
  {
  }

  lemma LaterTermReady(g: View, terms: seq<Term>, t: Term, rows: seq<seq<Byte>>, multiindex: map<Var, ValueIndex>,
                       vars: map<Var, nat>, defs: map<Var, set<Key>>, v: Var, exact: bool)
    requires ContextOk(g, terms, rows, multiindex, vars, defs, exact) && ReadyTerm(VarsOf(terms), t)
    requires Variables(t) == [v] && v in defs
    ensures terms != [] && ConstantPredicate(t) && VarSet(t) == {v} && Names([v]) == VarsOf(terms) * VarSet(t)
  {
  }

  lemma FreshIsReady(rows: seq<seq<Byte>>, multiindex: map<Var, ValueIndex>, vars: map<Var, nat>, ks: seq<Var>)
    requires Indexed(rows, multiindex, vars, ks)
    ensures ReadyFor(rows, multiindex, vars, ks)
  {
  }

  lemma IndexedIsKnown(rows: seq<seq<Byte>>, multiindex: map<Var, ValueIndex>, otherVars: map<Var, nat>,
                       vars: map<Var, nat>, ks: seq<Var>)
    requires Indexed(rows, multiindex, otherVars, ks) && forall v :: v in ks ==> v in vars
    ensures OnKnown(vars, otherVars, ks)
    ensures forall on :: on <= ks ==> OnKnown(vars, otherVars, on) && Indexed(rows, multiindex, otherVars, on)
  {
    forall on | on <= ks
      ensures OnKnown(vars, otherVars, on) && Indexed(rows, multiindex, otherVars, on)
    {
      assert forall v :: v in on ==> v in ks;
      assert forall v :: v in ks ==> VarIndexed(rows, multiindex, otherVars, v);
    }
  }

  /** The relation of a later one-variable term, and the variable's new definition. */
  lemma OneVariableRows(g: View, t: Term, defs: map<Var, set<Key>>, v: Var, all: set<Key>, values: set<Key>,
                        rows: seq<seq<Byte>>, vars: map<Var, nat>, exact: bool)
    requires t.path != [] && VarSet(t) == {v} == vars.Keys && v in defs && values == all * defs[v]
    requires forall k :: Tells(k in all, Satisfies(g, t, map[v := k]), exact)
    requires Inserted([], rows, vars, [v], set k | k in values :: [k])
    requires forall u :: u in defs ==> defs[u] <= g.nodes.Keys
    ensures HoldsTerm(g, t, defs, rows, vars, exact) && NoRepeats(rows, vars, vars.Keys)
    ensures Redefined(g, t, defs, defs[v := values], exact)
  {
    var ts := set k | k in values :: [k];
    assert Names([v]) == {v};
    forall nu: Assignment | nu.Keys == {v}
      ensures Tells(TupleOf(nu, [v]) in ts, TermRows(g, t, defs, nu), exact)
      ensures exact && TermRows(g, t, defs, nu) ==> nu[v] in values
    {
      assert nu == map[v := nu[v]] && TupleOf(nu, [v]) == [nu[v]];
      SingletonTuples(values, nu[v]);
    }
    FilledHoldsTerm(g, t, defs, [v], ts, rows, vars, exact);
  }

  lemma EmptyContextOk(g: View, rows: seq<seq<Byte>>, multiindex: map<Var, ValueIndex>, vars: map<Var, nat>,
                       variables: seq<Var>, exact: bool)
    requires rows == [] && Indexed(rows, multiindex, vars, variables) && vars.Keys == Names(variables)
    ensures ContextOk(g, [], rows, multiindex, vars, map[], exact)
  {
    assert VarsOf([]) == {};
    forall v | v in vars
      ensures VarIndexed(rows, multiindex, vars, v)
    {
      assert v in Names(variables);
    }
  }
}
