/** The solutions of a basic graph pattern with property paths (SPARQL 1.1 Query Language,
    sections 18.3 and 18.4), and why one join per term computes them. */
module Solutions {
  import opened Keys
  import opened Uris
  import opened Graphs
  import opened Relations
  import opened Joins
  import opened Planner

  /** The key a subject or object stands for under an assignment. */
  ghost function ValueOf(g: View, u: URI, mu: Assignment): Option<Key> {
    if IsVariable(u) then if VarOf(u) in mu then Some(mu[VarOf(u)]) else None
    else GetHash(g, u)
  }

  ghost predicate Satisfies(g: View, t: Term, mu: Assignment) {
    var s, o := ValueOf(g, t.subj, mu), ValueOf(g, t.obj, mu);
    s.Some? && o.Some? && PathRel(g, Out, t.path, s.value, o.value)
  }

  /** The assignments of exactly the terms' variables that satisfy every term. */
  ghost predicate IsSolution(g: View, terms: seq<Term>, mu: Assignment)
    requires ProperTerms(terms)
  {
    mu.Keys == VarsOf(terms) && forall t :: t in terms ==> Satisfies(g, t, mu)
  }

  predicate ConstantPredicate(t: Term) {
    t.path != [] && !IsVariable(t.path[0].pred)
  }

  lemma SatisfiesLocally(g: View, t: Term, mu: Assignment, nu: Assignment)
    requires t.path != []
    requires forall v :: v in VarSet(t) ==> v in mu && v in nu && mu[v] == nu[v]
    ensures Satisfies(g, t, mu) <==> Satisfies(g, t, nu)
  {
    assert IsVariable(t.subj) ==> VarOf(t.subj) in VarSet(t);
    assert IsVariable(t.obj) ==> VarOf(t.obj) in VarSet(t);
  }

  function Restrict(mu: Assignment, dom: set<Var>): Assignment {
    map v | v in dom && v in mu :: mu[v]
  }

  lemma TermVars(terms: seq<Term>, t: Term)
    requires ProperTerms(terms) && t in terms
    ensures VarSet(t) <= VarsOf(terms)
  {
  }

  /** A solution of one more term is a solution of the terms before that satisfies it. */
  lemma SolutionMore(g: View, terms: seq<Term>, t: Term, mu: Assignment)
    requires forall u :: u in terms + [t] ==> ConstantPredicate(u)
    ensures ProperTerms(terms) && ProperTerms(terms + [t])
    ensures IsSolution(g, terms + [t], mu) <==>
              && mu.Keys == VarsOf(terms) + VarSet(t)
              && IsSolution(g, terms, Restrict(mu, VarsOf(terms)))
              && Satisfies(g, t, mu)
  {
    assert forall u :: u in terms + [t] <==> u in terms || u == t;
    VarsOfMore(terms, t);
    if mu.Keys == VarsOf(terms) + VarSet(t) {
      var left := Restrict(mu, VarsOf(terms));
      assert left.Keys == VarsOf(terms);
      forall u | u in terms
        ensures Satisfies(g, u, mu) <==> Satisfies(g, u, left)
      {
        TermVars(terms, u);
        SatisfiesLocally(g, u, mu, left);
      }
    }
  }

  /** A term's pairs, as far as the definitions of its resolved variables allow. */
  ghost predicate TermRows(g: View, t: Term, defs: map<Var, set<Key>>, nu: Assignment)
    requires t.path != []
  {
    nu.Keys == VarSet(t) && Satisfies(g, t, nu) && forall v :: v in nu && v in defs ==> nu[v] in defs[v]
  }

  /** What is found holds, and if the searches are exact, what holds is found. */
  predicate Tells(found: bool, holds: bool, exact: bool) {
    (found ==> holds) && (exact && holds ==> found)
  }

  /** Definitions contain every value their variables take, if the searches are exact. */
  ghost predicate DefsCover(g: View, terms: seq<Term>, defs: map<Var, set<Key>>, exact: bool)
    requires ProperTerms(terms)
  {
    && defs.Keys == VarsOf(terms)
    && (exact ==> forall mu, v :: IsSolution(g, terms, mu) && v in mu ==> v in defs && mu[v] in defs[v])
  }

  /** Joining the solutions so far with the rows of one more term, restricted to the
      definitions, gives the solutions with that term. */
  lemma JoinedIsSolution(g: View, terms: seq<Term>, t: Term, defs: map<Var, set<Key>>, left: Assignment,
                         right: Assignment)
    requires forall u :: u in terms + [t] ==> ConstantPredicate(u)
    requires ProperTerms(terms) && t.path != [] && ProperTerms(terms + [t])
    requires IsSolution(g, terms, left) && TermRows(g, t, defs, right) && Compatible(left, right)
    ensures IsSolution(g, terms + [t], left + right)
  {
    var mu := left + right;
    assert Restrict(mu, VarsOf(terms)) == left;
    SatisfiesLocally(g, t, mu, right);
    SolutionMore(g, terms, t, mu);
  }

  lemma SolutionIsJoined(g: View, terms: seq<Term>, t: Term, defs: map<Var, set<Key>>, mu: Assignment)
    requires forall u :: u in terms + [t] ==> ConstantPredicate(u)
    requires ProperTerms(terms) && t.path != [] && ProperTerms(terms + [t])
    requires DefsCover(g, terms, defs, true) && IsSolution(g, terms + [t], mu)
    ensures var left, right := Restrict(mu, VarsOf(terms)), Restrict(mu, VarSet(t));
            IsSolution(g, terms, left) && TermRows(g, t, defs, right) && Compatible(left, right) && mu == left + right
  {
    SolutionMore(g, terms, t, mu);
    SplitAssignment(mu, VarsOf(terms), VarSet(t));
    hide Satisfies, VarsOf, VarSet, Variables, Restrict;
    var left, right := Restrict(mu, VarsOf(terms)), Restrict(mu, VarSet(t));
    SatisfiesLocally(g, t, mu, right);
    forall v | v in right && v in defs
      ensures right[v] in defs[v]
    {
      assert v in left && left[v] == right[v];
    }
  }

  lemma SplitAssignment(mu: Assignment, a: set<Var>, b: set<Var>)
    requires mu.Keys == a + b
    ensures var left, right := Restrict(mu, a), Restrict(mu, b);
            && left.Keys == a && right.Keys == b && Compatible(left, right) && mu == left + right
            && (forall v :: v in a ==> left[v] == mu[v]) && (forall v :: v in b ==> right[v] == mu[v])
  {
  }

  /** The rows are solutions, and if the searches are exact, all of them. */
  ghost predicate HoldsSolutions(g: View, terms: seq<Term>, rows: seq<seq<Byte>>, vars: map<Var, nat>, exact: bool)
    requires ProperTerms(terms) && VarsOf(terms) <= vars.Keys
  {
    forall mu :: Tells(InRows(rows, vars, VarsOf(terms), mu), IsSolution(g, terms, mu), exact)
  }

  /** The rows are pairs of a term, and if the searches are exact, all of them. */
  ghost predicate HoldsTerm(g: View, t: Term, defs: map<Var, set<Key>>, rows: seq<seq<Byte>>, vars: map<Var, nat>,
                            exact: bool)
    requires t.path != []
  {
    vars.Keys == VarSet(t) && forall nu :: Tells(InRows(rows, vars, vars.Keys, nu), TermRows(g, t, defs, nu), exact)
  }

  /** The natural join of the solutions so far with the rows of one more term gives the
      solutions with that term. */
  lemma JoinExtends(g: View, terms: seq<Term>, t: Term, defs: map<Var, set<Key>>, rows: seq<seq<Byte>>,
                    vars: map<Var, nat>, others: seq<seq<Byte>>, otherVars: map<Var, nat>, result: seq<seq<Byte>>,
                    exact: bool)
    requires forall u :: u in terms + [t] ==> ConstantPredicate(u)
    requires ProperTerms(terms) && t.path != [] && ProperTerms(terms + [t])
    requires VarsOf(terms) <= vars.Keys && VarSet(t) <= vars.Keys
    requires HoldsSolutions(g, terms, rows, vars, exact) && DefsCover(g, terms, defs, exact)
    requires HoldsTerm(g, t, defs, others, otherVars, exact)
    requires IsNaturalJoin(rows, vars, VarsOf(terms), others, otherVars, result)
    ensures VarsOf(terms + [t]) == VarsOf(terms) + VarSet(t) && HoldsSolutions(g, terms + [t], result, vars, exact)
  {
    VarsOfMore(terms, t);
    hide VarsOf, VarSet, IsSolution, TermRows, Assign;
    forall mu
      ensures Tells(InRows(result, vars, VarsOf(terms + [t]), mu), IsSolution(g, terms + [t], mu), exact)
    {
      if Joinable(rows, vars, VarsOf(terms), others, otherVars, mu) {
        var i, j :| 0 <= i < |rows| && 0 <= j < |others| &&
          var left, right := Assign(rows[i], vars, VarsOf(terms)), Assign(others[j], otherVars, otherVars.Keys);
          Compatible(left, right) && mu == left + right;
        var left, right := Assign(rows[i], vars, VarsOf(terms)), Assign(others[j], otherVars, otherVars.Keys);
        assert InRows(rows, vars, VarsOf(terms), left) && InRows(others, otherVars, otherVars.Keys, right);
        JoinedIsSolution(g, terms, t, defs, left, right);
      }
      if exact && IsSolution(g, terms + [t], mu) {
        SolutionIsJoined(g, terms, t, defs, mu);
        var left, right := Restrict(mu, VarsOf(terms)), Restrict(mu, VarSet(t));
        assert InRows(rows, vars, VarsOf(terms), left) && InRows(others, otherVars, otherVars.Keys, right);
        var i :| 0 <= i < |rows| && Assign(rows[i], vars, VarsOf(terms)) == left;
        var j :| 0 <= j < |others| && Assign(others[j], otherVars, otherVars.Keys) == right;
        assert Joinable(rows, vars, VarsOf(terms), others, otherVars, mu);
      }
    }
  }
}
