/** The solutions of a WHERE clause with a graph group (SPARQL 1.1 Query Language, section
    18.5), and that they are those of the conjunctions it expands to (lang/ast/ast.go,
    `Expand`; db/db_api.go, `runQuery`). */
module Groups {
  import opened Joins
  import opened Keys
  import opened Planner
  import opened Solutions
  import opened Unions

  /** Which triples hold under an assignment. */
  type Truth = (Term, Assignment) -> bool

  /** An assignment of exactly the triples' variables under which all of them hold. */
  ghost predicate SolvesTerms(truth: Truth, terms: seq<Term>, mu: Assignment) {
    ProperTerms(terms) && mu.Keys == VarsOf(terms) && forall t :: t in terms ==> truth(t, mu)
  }

  ghost predicate IsJoin(left: Assignment, right: Assignment, mu: Assignment) {
    Compatible(left, right) && mu == left + right
  }

  /** A group's solutions: those of its own triples, joined, if it has unions, with a
      solution of one of them. */
  ghost predicate SolvesGroup(truth: Truth, grp: GraphGroup, mu: Assignment) {
    if grp.unions == [] then SolvesTerms(truth, grp.terms, mu)
    else
      exists i, left, right :: 0 <= i < |grp.unions| && SolvesTerms(truth, grp.terms, left)
                               && SolvesGroup(truth, grp.unions[i], right) && IsJoin(left, right, mu)
  }

  /** The WHERE clause: its triples, joined with its group. */
  ghost predicate SolvesWhere(truth: Truth, terms: seq<Term>, group: Option<GraphGroup>, mu: Assignment) {
    match group
    case None => SolvesTerms(truth, terms, mu)
    case Some(grp) =>
      exists left, right :: SolvesTerms(truth, terms, left) && SolvesGroup(truth, grp, right) && IsJoin(left, right, mu)
  }

  /** The conjunctions a query runs. */
  ghost function Conjunctions(terms: seq<Term>, group: Option<GraphGroup>): seq<seq<Term>> {
    if group.Some? then Prefixed(terms, Branches(group.value)) else [terms]
  }

  ghost predicate SolvesSome(truth: Truth, branches: seq<seq<Term>>, mu: Assignment) {
    exists i :: 0 <= i < |branches| && SolvesTerms(truth, branches[i], mu)
  }

  ghost predicate AgreeOn(t: Term, mu: Assignment, nu: Assignment)
    requires t.path != []
  {
    forall v :: v in VarSet(t) ==> v in mu && v in nu && mu[v] == nu[v]
  }

  /** Whether a triple holds depends only on its own variables. */
  ghost predicate Local(truth: Truth) {
    forall t: Term, mu: Assignment, nu: Assignment ::
      t.path != [] && AgreeOn(t, mu, nu) ==> truth(t, mu) == truth(t, nu)
  }

  lemma VarsOfSplit(a: seq<Term>, b: seq<Term>)
    requires ProperTerms(a) && ProperTerms(b)
    ensures ProperTerms(a + b) && VarsOf(a + b) == VarsOf(a) + VarsOf(b)
  {
    assert forall t :: t in a + b <==> t in a || t in b;
  }

  lemma SolutionSplits(truth: Truth, a: seq<Term>, b: seq<Term>, mu: Assignment)
    requires Local(truth) && SolvesTerms(truth, a + b, mu)
    ensures ProperTerms(a) && ProperTerms(b)
    ensures var left, right := Restrict(mu, VarsOf(a)), Restrict(mu, VarsOf(b));
            SolvesTerms(truth, a, left) && SolvesTerms(truth, b, right) && IsJoin(left, right, mu)
  {
    hide Local;
    assert forall t :: t in a ==> t in a + b;
    assert forall t :: t in b ==> t in a + b;
    VarsOfSplit(a, b);
    hide VarsOf;
    SplitAssignment(mu, VarsOf(a), VarsOf(b));
    RestrictedHolds(truth, a, mu, Restrict(mu, VarsOf(a)));
    RestrictedHolds(truth, b, mu, Restrict(mu, VarsOf(b)));
  }

  lemma SolutionsJoin(truth: Truth, a: seq<Term>, b: seq<Term>, left: Assignment, right: Assignment, mu: Assignment)
    requires Local(truth) && SolvesTerms(truth, a, left) && SolvesTerms(truth, b, right) && IsJoin(left, right, mu)
    ensures SolvesTerms(truth, a + b, mu)
  {
    hide Local;
    VarsOfSplit(a, b);
    hide VarsOf;
    RestrictedHolds(truth, a, left, mu);
    RestrictedHolds(truth, b, right, mu);
  }

  /** The solutions of two lists of triples together are the joins of their solutions. */
  lemma JoinedTerms(truth: Truth, a: seq<Term>, b: seq<Term>, mu: Assignment)
    requires Local(truth)
    ensures SolvesTerms(truth, a + b, mu) <==>
            exists left, right :: SolvesTerms(truth, a, left) && SolvesTerms(truth, b, right) && IsJoin(left, right, mu)
  {
    hide Local, SolvesTerms, IsJoin, VarsOf, Restrict;
    if SolvesTerms(truth, a + b, mu) {
      SolutionSplits(truth, a, b, mu);
    }
    if left, right :| SolvesTerms(truth, a, left) && SolvesTerms(truth, b, right) && IsJoin(left, right, mu) {
      SolutionsJoin(truth, a, b, left, right, mu);
    }
  }

  lemma RestrictedHolds(truth: Truth, terms: seq<Term>, mu: Assignment, nu: Assignment)
    requires Local(truth) && ProperTerms(terms)
    requires forall v :: v in VarsOf(terms) ==> v in mu && v in nu && mu[v] == nu[v]
    requires forall t :: t in terms ==> truth(t, mu)
    ensures forall t :: t in terms ==> truth(t, nu)
  {
    forall t | t in terms
      ensures truth(t, nu)
    {
      TermVars(terms, t);
      hide VarsOf, VarSet;
      assert AgreeOn(t, mu, nu);
      assert truth(t, mu) == truth(t, nu);
    }
  }

  lemma PrefixedSolves(truth: Truth, terms: seq<Term>, branches: seq<seq<Term>>, mu: Assignment)
    requires Local(truth)
    ensures SolvesSome(truth, Prefixed(terms, branches), mu) <==>
            exists left, right ::
              SolvesTerms(truth, terms, left) && SolvesSome(truth, branches, right) && IsJoin(left, right, mu)
  {
    hide Local, SolvesTerms;
    var all := Prefixed(terms, branches);
    if i :| 0 <= i < |all| && SolvesTerms(truth, all[i], mu) {
      JoinedTerms(truth, terms, branches[i], mu);
      var left, right :|
        SolvesTerms(truth, terms, left) && SolvesTerms(truth, branches[i], right) && IsJoin(left, right, mu);
      assert SolvesSome(truth, branches, right);
    }
    if left, right :| SolvesTerms(truth, terms, left) && SolvesSome(truth, branches, right) && IsJoin(left, right, mu)
    {
      var i :| 0 <= i < |branches| && SolvesTerms(truth, branches[i], right);
      JoinedTerms(truth, terms, branches[i], mu);
      assert all[i] == terms + branches[i];
    }
  }

  lemma SolvesSomeSplit(truth: Truth, a: seq<seq<Term>>, b: seq<seq<Term>>, mu: Assignment)
    ensures SolvesSome(truth, a + b, mu) <==> SolvesSome(truth, a, mu) || SolvesSome(truth, b, mu)
  {
    hide SolvesTerms;
    if i :| 0 <= i < |a| && SolvesTerms(truth, a[i], mu) {
      assert (a + b)[i] == a[i];
    }
    if i :| 0 <= i < |b| && SolvesTerms(truth, b[i], mu) {
      assert (a + b)[|a| + i] == b[i];
    }
  }

  /** Expansion keeps the solutions, with the variables they bind: a group's solutions are
      those of its branches. */
  lemma {:induction false} GroupIsBranches(truth: Truth, grp: GraphGroup, mu: Assignment)
    requires Local(truth)
    ensures SolvesGroup(truth, grp, mu) <==> SolvesSome(truth, Branches(grp), mu)
    decreases grp, |grp.unions| + 1
  {
    hide Local, SolvesTerms;
    if grp.unions == [] {
      assert Branches(grp)[0] == grp.terms;
    } else {
      PrefixedSolves(truth, grp.terms, UnionBranches(grp, 0), mu);
      forall right
        ensures (exists j :: 0 <= j < |grp.unions| && SolvesGroup(truth, grp.unions[j], right)) <==>
                SolvesSome(truth, UnionBranches(grp, 0), right)
      {
        UnionsAreBranches(truth, grp, 0, right);
      }
      hide SolvesSome, Branches, UnionBranches, IsJoin;
      UnionsJoined(truth, grp, mu);
    }
  }

  ghost predicate SolvesUnions(truth: Truth, grp: GraphGroup, mu: Assignment) {
    SolvesSome(truth, UnionBranches(grp, 0), mu)
  }

  /** A group with unions, one quantifier after the other. */
  lemma UnionsJoined(truth: Truth, grp: GraphGroup, mu: Assignment)
    requires grp.unions != []
    requires forall right :: (exists j :: 0 <= j < |grp.unions| && SolvesGroup(truth, grp.unions[j], right)) <==>
                             SolvesSome(truth, UnionBranches(grp, 0), right)
    ensures SolvesGroup(truth, grp, mu) <==>
            exists left, right :: SolvesTerms(truth, grp.terms, left) && SolvesUnions(truth, grp, right)
                                  && IsJoin(left, right, mu)
  {
    hide SolvesTerms, SolvesSome, UnionBranches, IsJoin;
    if SolvesGroup(truth, grp, mu) {
      var i, left, right :| 0 <= i < |grp.unions| && SolvesTerms(truth, grp.terms, left) &&
        SolvesGroup(truth, grp.unions[i], right) && IsJoin(left, right, mu);
      assert SolvesUnions(truth, grp, right);
    }
    if left, right :| SolvesTerms(truth, grp.terms, left) && SolvesUnions(truth, grp, right) && IsJoin(left, right, mu)
    {
      var j :| 0 <= j < |grp.unions| && SolvesGroup(truth, grp.unions[j], right);
    }
  }

  lemma {:induction false} UnionsAreBranches(truth: Truth, grp: GraphGroup, i: nat, mu: Assignment)
    requires i <= |grp.unions| && Local(truth)
    ensures (exists j :: i <= j < |grp.unions| && SolvesGroup(truth, grp.unions[j], mu)) <==>
            SolvesSome(truth, UnionBranches(grp, i), mu)
    decreases grp, |grp.unions| - i
  {
    hide Local, SolvesTerms;
    if i < |grp.unions| {
      GroupIsBranches(truth, grp.unions[i], mu);
      UnionsAreBranches(truth, grp, i + 1, mu);
      SolvesSomeSplit(truth, Branches(grp.unions[i]), UnionBranches(grp, i + 1), mu);
    }
  }

  /** So the solutions of the WHERE clause are those of the conjunctions that are run. */
  lemma WhereIsConjunctions(truth: Truth, terms: seq<Term>, group: Option<GraphGroup>, mu: Assignment)
    requires Local(truth)
    ensures SolvesWhere(truth, terms, group, mu) <==> SolvesSome(truth, Conjunctions(terms, group), mu)
  {
    hide Local, SolvesTerms, SolvesGroup;
    if group.Some? {
      PrefixedSolves(truth, terms, Branches(group.value), mu);
      forall right
        ensures SolvesGroup(truth, group.value, right) <==> SolvesSome(truth, Branches(group.value), right)
      {
        GroupIsBranches(truth, group.value, right);
      }
    } else {
      assert Conjunctions(terms, group)[0] == terms;
    }
  }

  /** The same triples, the same solutions. */
  lemma {:induction false} SameTruthSameSolutions(truth: Truth, other: Truth, grp: GraphGroup, mu: Assignment)
    requires forall t, nu :: truth(t, nu) == other(t, nu)
    ensures SolvesGroup(truth, grp, mu) ==> SolvesGroup(other, grp, mu)
    decreases grp
  {
    if SolvesGroup(truth, grp, mu) && grp.unions != [] {
      var i, left, right :| 0 <= i < |grp.unions| && SolvesTerms(truth, grp.terms, left) &&
        SolvesGroup(truth, grp.unions[i], right) && IsJoin(left, right, mu);
      SameTruthSameSolutions(truth, other, grp.unions[i], right);
    }
  }

  lemma SameTruthSameWhere(truth: Truth, other: Truth, terms: seq<Term>, group: Option<GraphGroup>, mu: Assignment)
    requires forall t, nu :: truth(t, nu) == other(t, nu)
    ensures SolvesWhere(truth, terms, group, mu) <==> SolvesWhere(other, terms, group, mu)
  {
    hide SolvesGroup;
    if group.Some? {
      forall right
        ensures SolvesGroup(truth, group.value, right) <==> SolvesGroup(other, group.value, right)
      {
        SameTruthSameSolutions(truth, other, group.value, right);
        SameTruthSameSolutions(other, truth, group.value, right);
      }
    }
    assert forall nu :: SolvesTerms(truth, terms, nu) <==> SolvesTerms(other, terms, nu);
    hide SolvesTerms;
  }
}
