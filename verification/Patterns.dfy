/** Whole queries: WHERE terms and a graph group with unions, run branch by branch
    (db/db_api.go, `runQuery`; lang/ast/ast.go, `PopulateVars`). */
module Patterns {
  import opened Keys
  import opened Uris
  import opened Graphs
  import opened Relations
  import opened Joins
  import opened Planner
  import opened Solutions
  import opened Executor
  import opened Queries
  import opened Unions
  import opened Groups

  import Results

  // ---- variables ----

  /** The variables a term mentions anywhere, also in later steps of its path. */
  function Mentioned(t: Term): set<Var> {
    (if IsVariable(t.subj) then {VarOf(t.subj)} else {})
    + (if IsVariable(t.obj) then {VarOf(t.obj)} else {})
    + (set seg | seg in t.path && IsVariable(seg.pred) :: VarOf(seg.pred))
  }

  function AllMentioned(terms: seq<Term>): set<Var> {
    set t, v | t in terms && v in Mentioned(t) :: v
  }

  lemma MentionedAll(terms: seq<Term>)
    requires ProperTerms(terms)
    ensures VarsOf(terms) <= AllMentioned(terms)
  {
    forall t, v | t in terms && v in Variables(t)
      ensures v in Mentioned(t)
    {
      assert t.path[0] in t.path;
    }
  }

  /** `PopulateVars`: every mentioned variable once, in any order. */
  method PopulateVars(terms: seq<Term>) returns (variables: seq<Var>)
    ensures Distinct(variables) && Names(variables) == AllMentioned(terms)
  {
    var vars: set<Var> := {};
    for i := 0 to |terms|
      invariant vars == AllMentioned(terms[..i])
    {
      assert terms[..i + 1] == terms[..i] + [terms[i]];
      assert AllMentioned(terms[..i + 1]) == AllMentioned(terms[..i]) + Mentioned(terms[i]);
      vars := vars + Mentioned(terms[i]);
    }
    assert terms[..|terms|] == terms;
    variables := ListOf(vars);
  }

  method ListOf(vars: set<Var>) returns (variables: seq<Var>)
    ensures Distinct(variables) && Names(variables) == vars
  {
    variables := [];
    var todo := vars;
    while todo != {}
      invariant todo <= vars && Distinct(variables)
      invariant forall v :: v in variables <==> v in vars && v !in todo
    {
      var v :| v in todo;
      variables := variables + [v];
      todo := todo - {v};
    }
  }

  // ---- the meaning of a query ----

  /** A triple holds under an assignment if the graph relates its ends by its path. */
  ghost function TruthOf(g: View): Truth {
    (t: Term, mu: Assignment) => Satisfies(g, t, mu)
  }

  lemma TruthIsLocal(g: View)
    ensures Local(TruthOf(g))
  {
    hide Satisfies;
    forall t: Term, mu: Assignment, nu: Assignment
      | t.path != [] && AgreeOn(t, mu, nu)
      ensures TruthOf(g)(t, mu) == TruthOf(g)(t, nu)
    {
      SatisfiesLocally(g, t, mu, nu);
    }
  }

  /** The selected keys of a solution of the WHERE clause; a variable without a value shows
      the zero key. */
  ghost predicate Match(truth: Truth, terms: seq<Term>, group: Option<GraphGroup>, select: seq<Var>, t: seq<Key>) {
    exists mu :: SolvesWhere(truth, terms, group, mu) && SelectedFrom(mu, select) == t
  }

  /** The same for one conjunction. */
  ghost predicate BranchMatch(truth: Truth, b: seq<Term>, select: seq<Var>, t: seq<Key>) {
    exists mu :: SolvesTerms(truth, b, mu) && SelectedFrom(mu, select) == t
  }

  /** No other match of the conjunction has the hash of the tuple. */
  ghost predicate Alone(truth: Truth, b: seq<Term>, select: seq<Var>, murmur: seq<Byte> -> nat, t: seq<Key>) {
    forall u :: BranchMatch(truth, b, select, u) && murmur(Results.TupleBytes(u)) == murmur(Results.TupleBytes(t)) ==>
             u == t
  }

  /** Every selected variable is bound by the triples, or at least no variable is mentioned
      that they do not bind. */
  ghost predicate Reportable(b: seq<Term>, select: seq<Var>) {
    ProperTerms(b) && (Binds(b, select) || AllMentioned(b) <= VarsOf(b))
  }

  ghost predicate Binds(b: seq<Term>, select: seq<Var>) {
    ProperTerms(b) && Names(select) <= VarsOf(b)
  }

  /** What running one conjunction demands. */
  ghost predicate Answerable(g: View, terms: seq<Term>, select: seq<Var>, exact: bool) {
    && Reportable(terms, select)
    && DependencyOrder(terms).Plan?
    && ProperTerms(DependencyOrder(terms).terms) && Runnable(g, DependencyOrder(terms).terms, exact)
  }

  /** The conjunctions that have the tuple among their matches. */
  ghost function Answering(truth: Truth, branches: seq<seq<Term>>, select: seq<Var>, t: seq<Key>): set<nat> {
    set i {:trigger branches[i]} | 0 <= i < |branches| && BranchMatch(truth, branches[i], select, t)
  }

  /** The query's matches are those of its conjunctions, taken together. */
  lemma MatchIffAnswer(truth: Truth, terms: seq<Term>, group: Option<GraphGroup>, select: seq<Var>, t: seq<Key>)
    requires Local(truth)
    ensures Match(truth, terms, group, select, t) <==> Answering(truth, Conjunctions(terms, group), select, t) != {}
  {
    var all := Conjunctions(terms, group);
    hide Conjunctions, SelectedFrom, SolvesWhere, Local, SolvesTerms;
    if mu :| SolvesWhere(truth, terms, group, mu) && SelectedFrom(mu, select) == t {
      WhereIsConjunctions(truth, terms, group, mu);
      var i :| 0 <= i < |all| && SolvesTerms(truth, all[i], mu);
      assert i in Answering(truth, all, select, t);
    }
    if i :| i in Answering(truth, all, select, t) {
      var mu :| SolvesTerms(truth, all[i], mu) && SelectedFrom(mu, select) == t;
      WhereIsConjunctions(truth, terms, group, mu);
    }
  }

  /** Answers are matches under what holds in the graph. */
  lemma AnswerIsMatch(g: View, b: seq<Term>, select: seq<Var>, t: seq<Key>)
    ensures BranchMatch(TruthOf(g), b, select, t) <==> ProperTerms(b) && IsAnswer(g, b, select, t)
  {
    hide Satisfies, SelectedFrom, VarsOf, ProperTerms;
    if mu :| SolvesTerms(TruthOf(g), b, mu) && SelectedFrom(mu, select) == t {
      assert IsSolution(g, b, mu);
    }
    if ProperTerms(b) && IsAnswer(g, b, select, t) {
      var mu :| IsSolution(g, b, mu) && SelectedFrom(mu, select) == t;
      assert SolvesTerms(TruthOf(g), b, mu);
    }
  }

  // ---- what a branch reports ----

  /** A branch's answers as they are shown: a selected variable that the branch does not
      mention shows the value of the variable at position zero. */
  ghost predicate Reported(g: View, b: seq<Term>, first: Var, select: seq<Var>, t: seq<Key>) {
    ProperTerms(b) && first in AllMentioned(b) && IsAnswer(g, b, Shown(AllMentioned(b), first, select), t)
  }

  lemma BoundIsShown(b: seq<Term>, first: Var, select: seq<Var>)
    requires Binds(b, select)
    ensures Shown(AllMentioned(b), first, select) == select
  {
    MentionedAll(b);
    ShownIsSelected(AllMentioned(b), first, select);
  }

  /** No solution gives a value to a variable that the branch does not bind. */
  lemma UnboundIsZero(truth: Truth, b: seq<Term>, select: seq<Var>, t: seq<Key>)
    requires BranchMatch(truth, b, select, t) && EMPTY_KEY !in t
    ensures Binds(b, select)
  {
    var mu :| SolvesTerms(truth, b, mu) && SelectedFrom(mu, select) == t;
    forall v | v in Names(select)
      ensures v in VarsOf(b)
    {
      var i :| 0 <= i < |select| && select[i] == v;
      assert t[i] in t;
    }
  }

  /** The results of a branch are matches of it exactly when it binds all selected variables
      or has no results. */
  lemma BranchIsRightIff(g: View, b: seq<Term>, first: Var, select: seq<Var>, results: seq<seq<Key>>)
    requires forall t :: t in results ==> Reported(g, b, first, select, t) && EMPTY_KEY !in t
    ensures (forall t :: t in results ==> BranchMatch(TruthOf(g), b, select, t)) <==> results == [] || Binds(b, select)
  {
    hide IsAnswer, Shown, AllMentioned, Binds, BranchMatch;
    if Binds(b, select) && results != [] {
      BoundIsShown(b, first, select);
      forall t | t in results
        ensures BranchMatch(TruthOf(g), b, select, t)
      {
        AnswerIsMatch(g, b, select, t);
      }
    }
    if results != [] && forall t :: t in results ==> BranchMatch(TruthOf(g), b, select, t) {
      assert results[0] in results;
      UnboundIsZero(TruthOf(g), b, select, results[0]);
    }
  }

  lemma TwoBranches(a: seq<Term>, b: seq<Term>)
    ensures Conjunctions([], Some(GraphGroupUnion(GraphGroupFromTriples(a), GraphGroupFromTriples(b)))) == [a, b]
  {
    var left, right := GraphGroupFromTriples(a), GraphGroupFromTriples(b);
    var group := GraphGroupUnion(left, right);
    assert group.unions[0] == left && group.unions[1] == right;
    assert UnionBranches(group, 2) == [];
    assert UnionBranches(group, 1) == [b];
    assert UnionBranches(group, 0) == [a, b];
    assert forall x: seq<Term> :: [] + x == x;
    assert Prefixed([], [a, b]) == [a, b];
  }

  /** A triple whose only variable is `v` reports the value of `v` for any other variable. */
  lemma OtherIsReported(g: View, t: Term, v: Var, w: Var, k: Key)
    requires t.path != [] && Mentioned(t) == VarSet(t) == {v} && v != w && Satisfies(g, t, map[v := k])
    ensures ProperTerms([t]) && VarsOf([t]) == {v} && Reported(g, [t], v, [w], [k])
  {
    hide Satisfies;
    VarsOfMore([], t);
    assert [] + [t] == [t] && VarsOf([]) == {};
    assert AllMentioned([t]) == {v};
    assert IsSolution(g, [t], map[v := k]);
    assert Shown({v}, v, [w]) == [v];
    assert SelectedFrom(map[v := k], [v]) == [k];
  }

  /** A union whose first branch does not mention the selected variable `w`: the branch
      reports the value of its own variable `v` for it, which is no match of the query if
      the second branch has no answers. */
  lemma UnionReportsAnother(g: View, t: Term, other: Term, v: Var, w: Var, k: Key)
    requires t.path != [] && Mentioned(t) == VarSet(t) == {v} && v != w && Satisfies(g, t, map[v := k])
    requires k != EMPTY_KEY
    requires forall mu :: !Satisfies(g, other, mu)
    ensures Reported(g, [t], v, [w], [k])
    ensures var group := GraphGroupUnion(GraphGroupFromTriples([t]), GraphGroupFromTriples([other]));
            Conjunctions([], Some(group)) == [[t], [other]] && !Match(TruthOf(g), [], Some(group), [w], [k])
  {
    var group := GraphGroupUnion(GraphGroupFromTriples([t]), GraphGroupFromTriples([other]));
    OtherIsReported(g, t, v, w, k);
    TwoBranches([t], [other]);
    TruthIsLocal(g);
    NeverAnswered(g, other, [w], [k]);
    UnboundNotAnswered(TruthOf(g), [t], w, k);
    NeitherAnswers(TruthOf(g), [t], [other], [w], [k]);
    hide *;
    MatchIffAnswer(TruthOf(g), [], Some(group), [w], [k]);
  }

  lemma NeverAnswered(g: View, t: Term, select: seq<Var>, u: seq<Key>)
    requires forall mu :: !Satisfies(g, t, mu)
    ensures !BranchMatch(TruthOf(g), [t], select, u)
  {
    assert t in [t];
  }

  lemma UnboundNotAnswered(truth: Truth, b: seq<Term>, w: Var, k: Key)
    requires ProperTerms(b) && w !in VarsOf(b) && k != EMPTY_KEY
    ensures !BranchMatch(truth, b, [w], [k])
  {
    hide BranchMatch;
    assert w in Names([w]) && EMPTY_KEY !in [k];
    if BranchMatch(truth, b, [w], [k]) {
      UnboundIsZero(truth, b, [w], [k]);
    }
  }

  lemma NeitherAnswers(truth: Truth, a: seq<Term>, b: seq<Term>, select: seq<Var>, t: seq<Key>)
    requires !BranchMatch(truth, a, select, t) && !BranchMatch(truth, b, select, t)
    ensures Answering(truth, [a, b], select, t) == {}
  {
    hide BranchMatch;
  }

  // ---- running the branches ----

  ghost predicate AllAnswerable(g: View, branches: seq<seq<Term>>, select: seq<Var>, exact: bool) {
    forall b :: b in branches ==> Answerable(g, b, select, exact)
  }

  ghost predicate AllBranchesKnown(g: View, branches: seq<seq<Term>>) {
    forall b :: b in branches ==> AllKnown(g, b)
  }

  /** No other answer of the branch, as it is shown, has the hash of the tuple. */
  ghost predicate ReportedAlone(g: View, b: seq<Term>, first: Var, select: seq<Var>, murmur: seq<Byte> -> nat,
                                t: seq<Key>)
  {
    ProperTerms(b) ==> HashedAlone(g, b, Shown(AllMentioned(b), first, select), murmur, t)
  }

  lemma SomeVariable(b: seq<Term>)
    requires ProperTerms(b) && DependencyOrder(b).Plan?
    ensures AllMentioned(b) != {}
  {
    NoRootIff(b);
    hide DependencyOrder;
    var t :| t in b && Variables(t) != [];
    assert Variables(t)[0] in VarsOf(b) by {
      assert Variables(t)[0] in Variables(t);
    }
    MentionedAll(b);
  }

  lemma ShownIsBound(b: seq<Term>, first: Var, select: seq<Var>)
    requires Reportable(b, select) && first in AllMentioned(b)
    ensures Names(Shown(AllMentioned(b), first, select)) <= VarsOf(b)
  {
    if Binds(b, select) {
      BoundIsShown(b, first, select);
    }
  }

  predicate NoneTwice(results: seq<seq<Key>>) {
    forall i, j :: 0 <= i < j < |results| ==> results[i] != results[j]
  }

  /** A branch's results are fully bound reports of it, each once; in the exact case, all
      of those that are alone with their hash. */
  ghost predicate BranchResults(g: View, b: seq<Term>, first: Var, select: seq<Var>, murmur: seq<Byte> -> nat,
                                exact: bool, results: seq<seq<Key>>)
  {
    && NoneTwice(results)
    && (forall t :: t in results ==> Reported(g, b, first, select, t) && EMPTY_KEY !in t)
    && (exact ==>
          forall t ::
            Reported(g, b, first, select, t) && EMPTY_KEY !in t && ReportedAlone(g, b, first, select, murmur, t) ==>
              t in results)
  }

  /** One branch, with its own variables. `first` is the variable that happens to stand at
      position zero. */
  method RunBranch(g: View, select: seq<Var>, b: seq<Term>, murmur: seq<Byte> -> nat, ghost exact: bool)
    returns (results: Option<seq<seq<Key>>>, ghost first: Var)
    requires Servable(g) && Answerable(g, b, select, exact)
    ensures first in AllMentioned(b)
    ensures results.Some? <==> AllKnown(g, b)
    ensures results.Some? ==> BranchResults(g, b, first, select, murmur, exact, results.value)
  {
    assert ProperTerms(b);
    hide Servable, IsAnswer, AllKnown, HashedAlone, DependencyOrder, VarsOf, Runnable, Reportable, Shown;
    var variables := PopulateVars(b);
    MentionedAll(b);
    SomeVariable(b);
    assert variables != [] by {
      assert Names([]) == {};
    }
    first := variables[0];
    ShownIsBound(b, first, select);
    hide Names, AllMentioned;
    results := GetQueryResults(g, variables, select, b, murmur, exact);
  }

  /** Each branch has one of its own variables at position zero. */
  ghost predicate FirstsMentioned(branches: seq<seq<Term>>, firsts: seq<Var>) {
    |firsts| == |branches| && forall i :: 0 <= i < |branches| ==> firsts[i] in AllMentioned(branches[i])
  }

  ghost predicate AllResults(g: View, branches: seq<seq<Term>>, firsts: seq<Var>, select: seq<Var>,
                             murmur: seq<Byte> -> nat, exact: bool, found: seq<seq<seq<Key>>>)
  {
    && FirstsMentioned(branches, firsts) && |found| == |branches|
    && forall i :: 0 <= i < |branches| ==> BranchResults(g, branches[i], firsts[i], select, murmur, exact, found[i])
  }

  // ---- how often a result comes ----

  /** The branches that have the tuple among their results. */
  ghost function Holders(found: seq<seq<seq<Key>>>, t: seq<Key>): set<nat> {
    set i {:trigger found[i]} | 0 <= i < |found| && t in found[i]
  }

  /** Every tuple comes once for each branch that has it. */
  ghost predicate OncePerBranch(results: seq<seq<Key>>, found: seq<seq<seq<Key>>>) {
    forall t :: multiset(results)[t] == |Holders(found, t)|
  }

  lemma {:induction false} OnceIfDistinct(results: seq<seq<Key>>, t: seq<Key>)
    requires NoneTwice(results)
    ensures multiset(results)[t] == if t in results then 1 else 0
    decreases |results|
  {
    if results != [] {
      var n := |results| - 1;
      assert results == results[..n] + [results[n]];
      OnceIfDistinct(results[..n], t);
    }
  }

  lemma {:induction false} DistinctIfOnce(results: seq<seq<Key>>)
    requires forall t :: multiset(results)[t] <= 1
    ensures NoneTwice(results)
  {
    forall i, j | 0 <= i < j < |results|
      ensures results[i] != results[j]
    {
      assert results == results[..i] + [results[i]] + results[i + 1..j] + [results[j]] + results[j + 1..];
      assert multiset(results)[results[i]] <= 1;
    }
  }

  /** One more branch done adds one to the tuples it has. */
  lemma OnceMore(all: seq<seq<Key>>, found: seq<seq<seq<Key>>>, i: nat, rows: seq<seq<Key>>)
    requires OncePerBranch(all, found) && i < |found| && found[i] == [] && NoneTwice(rows)
    ensures OncePerBranch(all + rows, found[i := rows])
  {
    forall t
      ensures multiset(all + rows)[t] == |Holders(found[i := rows], t)|
    {
      OnceIfDistinct(rows, t);
      var before, now := Holders(found, t), Holders(found[i := rows], t);
      assert i !in before;
      assert now == if t in rows then before + {i} else before;
      assert multiset(all + rows)[t] == multiset(all)[t] + multiset(rows)[t];
    }
  }

  /** A tuple is among the results exactly if some branch has it. */
  lemma HeldIsResult(results: seq<seq<Key>>, found: seq<seq<seq<Key>>>, t: seq<Key>)
    requires OncePerBranch(results, found)
    ensures t in results <==> exists i :: 0 <= i < |found| && t in found[i]
  {
    assert t in results <==> multiset(results)[t] > 0;
    if i :| 0 <= i < |found| && t in found[i] {
      assert i in Holders(found, t);
    }
    if t in results {
      assert Holders(found, t) != {};
      var i :| i in Holders(found, t);
    }
  }

  /** So with one branch none comes twice. */
  lemma OneBranchOnce(results: seq<seq<Key>>, found: seq<seq<seq<Key>>>)
    requires OncePerBranch(results, found) && |found| == 1
    ensures NoneTwice(results)
  {
    forall t
      ensures multiset(results)[t] <= 1
    {
      assert Holders(found, t) <= {0};
      assert Holders(found, t) == {} || Holders(found, t) == {0};
    }
    DistinctIfOnce(results);
  }

  /** The branches in any order; one failing branch makes the whole query fail. */
  method RunBranches(g: View, select: seq<Var>, branches: seq<seq<Term>>, murmur: seq<Byte> -> nat, ghost exact: bool)
    returns (results: Option<seq<seq<Key>>>, ghost firsts: seq<Var>, ghost found: seq<seq<seq<Key>>>)
    requires Servable(g) && AllAnswerable(g, branches, select, exact)
    ensures results.Some? <==> AllBranchesKnown(g, branches)
    ensures results.Some? ==> AllResults(g, branches, firsts, select, murmur, exact, found)
    ensures results.Some? ==> OncePerBranch(results.value, found)
  {
    hide Servable, AllKnown, BranchResults, Answerable, AllMentioned, OncePerBranch;
    var all: seq<seq<Key>> := [];
    var failed := false;
    var todo := set i {:trigger branches[i]} | 0 <= i < |branches|;
    firsts, found := seq(|branches|, _ => Var("")), seq(|branches|, _ => []);
    NoneYet(found);
    while todo != {}
      invariant |firsts| == |found| == |branches| && forall i :: i in todo ==> 0 <= i < |branches| && found[i] == []
      invariant forall i :: 0 <= i < |branches| && i !in todo ==> firsts[i] in AllMentioned(branches[i])
      invariant !failed <==> forall i :: 0 <= i < |branches| && i !in todo ==> AllKnown(g, branches[i])
      invariant OncePerBranch(all, found)
      invariant !failed ==>
                  forall i :: 0 <= i < |branches| && i !in todo ==>
                    BranchResults(g, branches[i], firsts[i], select, murmur, exact, found[i])
    {
      var i :| i in todo;
      assert branches[i] in branches;
      ghost var first;
      var rows;
      rows, first := RunBranch(g, select, branches[i], murmur, exact);
      firsts := firsts[i := first];
      match rows {
        case None =>
          failed := true;
        case Some(more) =>
          ResultsDistinct(g, branches[i], first, select, murmur, exact, more);
          OnceMore(all, found, i, more);
          all, found := all + more, found[i := more];
      }
      todo := todo - {i};
    }
    results := if failed then None else Some(all);
    if !failed {
      forall b | b in branches
        ensures AllKnown(g, b)
      {
        var i :| 0 <= i < |branches| && branches[i] == b;
      }
    }
  }

  lemma ResultsDistinct(g: View, b: seq<Term>, first: Var, select: seq<Var>, murmur: seq<Byte> -> nat, exact: bool,
                        results: seq<seq<Key>>)
    requires BranchResults(g, b, first, select, murmur, exact, results)
    ensures NoneTwice(results)
  {
  }

  lemma NoneYet(found: seq<seq<seq<Key>>>)
    requires forall i :: 0 <= i < |found| ==> found[i] == []
    ensures OncePerBranch([], found)
  {
    forall t
      ensures |Holders(found, t)| == 0
    {
      assert Holders(found, t) == {};
    }
  }

  // ---- the results of a query ----

  lemma AloneIsReported(g: View, b: seq<Term>, first: Var, select: seq<Var>, murmur: seq<Byte> -> nat, t: seq<Key>)
    requires Binds(b, select) && Alone(TruthOf(g), b, select, murmur, t)
    ensures ReportedAlone(g, b, first, select, murmur, t)
  {
    BoundIsShown(b, first, select);
    hide IsAnswer, Shown, AllMentioned, Binds, BranchMatch;
    forall u | IsAnswer(g, b, select, u)
      ensures BranchMatch(TruthOf(g), b, select, u)
    {
      AnswerIsMatch(g, b, select, u);
    }
  }

  lemma HeldIsAnswer(g: View, b: seq<Term>, first: Var, select: seq<Var>, murmur: seq<Byte> -> nat, exact: bool,
                     results: seq<seq<Key>>, t: seq<Key>)
    requires BranchResults(g, b, first, select, murmur, exact, results) && first in AllMentioned(b)
    ensures t in results && Binds(b, select) ==> BranchMatch(TruthOf(g), b, select, t)
    ensures exact && Alone(TruthOf(g), b, select, murmur, t) && EMPTY_KEY !in t ==>
              (BranchMatch(TruthOf(g), b, select, t) ==> t in results)
  {
    hide IsAnswer, Shown, AllMentioned, Binds, NoneTwice, BranchMatch, Alone, ReportedAlone;
    AnswerIsMatch(g, b, select, t);
    if Binds(b, select) {
      BoundIsShown(b, first, select);
      if Alone(TruthOf(g), b, select, murmur, t) {
        AloneIsReported(g, b, first, select, murmur, t);
      }
    } else if BranchMatch(TruthOf(g), b, select, t) && EMPTY_KEY !in t {
      UnboundIsZero(TruthOf(g), b, select, t);
    }
  }

  /** The branches that hold a tuple are those that match it, if they bind what is selected;
      each of them, in the exact case and without hash collisions of the tuple. */
  lemma HoldersAnswer(g: View, branches: seq<seq<Term>>, firsts: seq<Var>, select: seq<Var>, murmur: seq<Byte> -> nat,
                      exact: bool, found: seq<seq<seq<Key>>>, t: seq<Key>)
    requires AllResults(g, branches, firsts, select, murmur, exact, found)
    ensures (forall b :: b in branches ==> Binds(b, select)) ==>
              Holders(found, t) <= Answering(TruthOf(g), branches, select, t)
    ensures exact && (forall b :: b in branches ==> Alone(TruthOf(g), b, select, murmur, t)) && EMPTY_KEY !in t ==>
              Answering(TruthOf(g), branches, select, t) <= Holders(found, t)
  {
    hide BranchResults, BranchMatch, Binds, Alone, AllMentioned;
    forall i | 0 <= i < |branches|
      ensures branches[i] in branches
      ensures t in found[i] && Binds(branches[i], select) ==> BranchMatch(TruthOf(g), branches[i], select, t)
      ensures exact && Alone(TruthOf(g), branches[i], select, murmur, t) && EMPTY_KEY !in t ==>
                (BranchMatch(TruthOf(g), branches[i], select, t) ==> t in found[i])
    {
      HeldIsAnswer(g, branches[i], firsts[i], select, murmur, exact, found[i], t);
    }
  }

  /** How the results of a query relate to its matches. */
  ghost predicate QueryAnswered(truth: Truth, select: seq<Var>, terms: seq<Term>, group: Option<GraphGroup>,
                                murmur: seq<Byte> -> nat, exact: bool, results: seq<seq<Key>>)
  {
    && (|Conjunctions(terms, group)| == 1 ==> NoneTwice(results))
    && forall t :: TupleCounted(truth, select, terms, group, murmur, exact, results, t)
  }

  /** A tuple among the results has no zero key. If the branches bind what is selected, it is
      a match and comes at most once for each branch that matches it. In the exact case a
      match without the zero key that is alone with its hash in every branch is there, and
      comes at least so often. */
  ghost predicate TupleCounted(truth: Truth, select: seq<Var>, terms: seq<Term>, group: Option<GraphGroup>,
                               murmur: seq<Byte> -> nat, exact: bool, results: seq<seq<Key>>, t: seq<Key>)
  {
    var branches := Conjunctions(terms, group);
    && (t in results ==> EMPTY_KEY !in t)
    && ((forall b :: b in branches ==> Binds(b, select)) ==>
          && (t in results ==> Match(truth, terms, group, select, t))
          && multiset(results)[t] <= |Answering(truth, branches, select, t)|)
    && (exact && (forall b :: b in branches ==> Alone(truth, b, select, murmur, t)) && EMPTY_KEY !in t ==>
          && (Match(truth, terms, group, select, t) ==> t in results)
          && multiset(results)[t] >= |Answering(truth, branches, select, t)|)
  }

  lemma NeverZero(g: View, branches: seq<seq<Term>>, firsts: seq<Var>, select: seq<Var>, murmur: seq<Byte> -> nat,
                  exact: bool, found: seq<seq<seq<Key>>>, i: nat, t: seq<Key>)
    requires AllResults(g, branches, firsts, select, murmur, exact, found) && i < |found| && t in found[i]
    ensures EMPTY_KEY !in t
  {
    hide Reported, ReportedAlone, NoneTwice;
    assert BranchResults(g, branches[i], firsts[i], select, murmur, exact, found[i]);
  }

  lemma SubsetCount(a: set<nat>, b: set<nat>)
    requires a <= b
    ensures |a| <= |b|
  {
    assert b == a + (b - a);
  }

  /** One tuple of the results. */
  lemma TupleAnswered(g: View, select: seq<Var>, terms: seq<Term>, group: Option<GraphGroup>, murmur: seq<Byte> -> nat,
                      exact: bool, results: seq<seq<Key>>, firsts: seq<Var>, found: seq<seq<seq<Key>>>, t: seq<Key>)
    requires AllResults(g, Conjunctions(terms, group), firsts, select, murmur, exact, found)
    requires OncePerBranch(results, found)
    ensures TupleCounted(TruthOf(g), select, terms, group, murmur, exact, results, t)
  {
    var branches := Conjunctions(terms, group);
    var held, answering := Holders(found, t), Answering(TruthOf(g), branches, select, t);
    TruthIsLocal(g);
    hide Match, Conjunctions, Answering, AllResults, Binds, Alone, Local, TruthOf;
    MatchIffAnswer(TruthOf(g), terms, group, select, t);
    HoldersAnswer(g, branches, firsts, select, murmur, exact, found, t);
    HeldIsResult(results, found, t);
    assert t in results <==> held != {} by {
      if i :| 0 <= i < |found| && t in found[i] {
        assert i in held;
      }
      if held != {} {
        var i :| i in held;
      }
    }
    if t in results {
      var i :| 0 <= i < |found| && t in found[i];
      assert |found| == |branches| by {
        ResultsAligned(g, branches, firsts, select, murmur, exact, found);
      }
      NeverZero(g, branches, firsts, select, murmur, exact, found, i, t);
    }
    if held <= answering {
      SubsetCount(held, answering);
    }
    if answering <= held {
      SubsetCount(answering, held);
    }
  }

  lemma ResultsAligned(g: View, branches: seq<seq<Term>>, firsts: seq<Var>, select: seq<Var>, murmur: seq<Byte> -> nat,
                       exact: bool, found: seq<seq<seq<Key>>>)
    requires AllResults(g, branches, firsts, select, murmur, exact, found)
    ensures |found| == |branches|
  {
    hide BranchResults, FirstsMentioned;
  }

  lemma AllAnswered(g: View, select: seq<Var>, terms: seq<Term>, group: Option<GraphGroup>, murmur: seq<Byte> -> nat,
                    exact: bool, results: seq<seq<Key>>, firsts: seq<Var>, found: seq<seq<seq<Key>>>)
    requires AllResults(g, Conjunctions(terms, group), firsts, select, murmur, exact, found)
    requires OncePerBranch(results, found)
    ensures QueryAnswered(TruthOf(g), select, terms, group, murmur, exact, results)
  {
    ResultsAligned(g, Conjunctions(terms, group), firsts, select, murmur, exact, found);
    if |Conjunctions(terms, group)| == 1 {
      OneBranchOnce(results, found);
    }
    hide TupleCounted, Conjunctions, AllResults, OncePerBranch;
    forall t
      ensures TupleCounted(TruthOf(g), select, terms, group, murmur, exact, results, t)
    {
      TupleAnswered(g, select, terms, group, murmur, exact, results, firsts, found, t);
    }
  }

  /** `runQuery`: every result is what some branch reports, once for each such branch. So it
      is a match of the query if the branches bind what is selected. Where the searches are
      exact, every match that is alone with its hash is a result, except for matches with the
      zero key, once for each branch that matches it. */
  method RunQuery(g: View, select: seq<Var>, terms: seq<Term>, group: Option<GraphGroup>, murmur: seq<Byte> -> nat,
                  ghost exact: bool)
    returns (results: Option<seq<seq<Key>>>, ghost firsts: seq<Var>, ghost found: seq<seq<seq<Key>>>)
    requires Servable(g) && AllAnswerable(g, Conjunctions(terms, group), select, exact)
    ensures results.Some? <==> AllBranchesKnown(g, Conjunctions(terms, group))
    ensures results.Some? ==> AllResults(g, Conjunctions(terms, group), firsts, select, murmur, exact, found)
    ensures results.Some? ==> OncePerBranch(results.value, found)
    ensures results.Some? ==> QueryAnswered(TruthOf(g), select, terms, group, murmur, exact, results.value)
  {
    hide Servable, AllBranchesKnown, AllResults, OncePerBranch, AllAnswerable, QueryAnswered;
    var ors := ElaborateBranches(terms, group);
    var branches := if ors != [] then ors else [terms];
    assert branches == Conjunctions(terms, group);
    hide Conjunctions;
    results, firsts, found := RunBranches(g, select, branches, murmur, exact);
    if results.Some? {
      AllAnswered(g, select, terms, group, murmur, exact, results.value, firsts, found);
    }
  }

  /** The same triples, the same results are right. */
  lemma SameTruthSameAnswers(truth: Truth, other: Truth, select: seq<Var>, terms: seq<Term>, group: Option<GraphGroup>,
                             murmur: seq<Byte> -> nat, exact: bool, results: seq<seq<Key>>)
    requires forall t, mu :: truth(t, mu) == other(t, mu)
    requires QueryAnswered(truth, select, terms, group, murmur, exact, results)
    ensures QueryAnswered(other, select, terms, group, murmur, exact, results)
  {
    hide Conjunctions, SelectedFrom, SolvesWhere, VarsOf;
    forall mu
      ensures SolvesWhere(truth, terms, group, mu) <==> SolvesWhere(other, terms, group, mu)
    {
      SameTruthSameWhere(truth, other, terms, group, mu);
    }
    assert forall b, mu :: SolvesTerms(truth, b, mu) <==> SolvesTerms(other, b, mu);
    hide SolvesTerms;
    assert forall b, t :: BranchMatch(truth, b, select, t) <==> BranchMatch(other, b, select, t);
    assert forall t :: Match(truth, terms, group, select, t) <==> Match(other, terms, group, select, t);
    hide BranchMatch, Match, Binds;
    assert forall b, t :: Alone(truth, b, select, murmur, t) <==> Alone(other, b, select, murmur, t);
    hide Alone;
    forall t
      ensures TupleCounted(other, select, terms, group, murmur, exact, results, t)
    {
      assert TupleCounted(truth, select, terms, group, murmur, exact, results, t);
      assert Answering(truth, Conjunctions(terms, group), select, t)
          == Answering(other, Conjunctions(terms, group), select, t);
    }
  }
}
