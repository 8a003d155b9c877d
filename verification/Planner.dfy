/** Ordering the terms of a query (db/dependency.go) and choosing an operator for each
    (db/plan.go). */
module Planner {
  import opened Keys
  import opened Uris
  import opened Graphs
  import opened Relations

  datatype Term = Term(subj: URI, path: seq<PathPattern>, obj: URI)

  /** The variable a URI stands for is named by the URI's string form. */
  function VarOf(u: URI): Var {
    Var(Bytes(u))
  }

  /** The variables of a term, in order, a repeated one twice (`makeQueryTerm`). A path
      is never empty; only its first predicate is looked at. */
  function Variables(t: Term): (vs: seq<Var>)
    requires t.path != []
    ensures |vs| <= 3
  {
    (if IsVariable(t.subj) then [VarOf(t.subj)] else [])
    + (if IsVariable(t.path[0].pred) then [VarOf(t.path[0].pred)] else [])
    + (if IsVariable(t.obj) then [VarOf(t.obj)] else [])
  }

  ghost predicate ProperTerms(terms: seq<Term>) {
    forall t :: t in terms ==> t.path != []
  }

  // ---- the dependency order ----

  function Occurrences(v: Var, vs: seq<Var>): nat {
    if vs == [] then 0 else (if vs[0] == v then 1 else 0) + Occurrences(v, vs[1..])
  }

  function CountShared(vs: seq<Var>, ws: seq<Var>): nat {
    if vs == [] then 0 else Occurrences(vs[0], ws) + CountShared(vs[1..], ws)
  }

  lemma {:induction false} OccursIff(v: Var, vs: seq<Var>)
    ensures Occurrences(v, vs) > 0 <==> v in vs
  {
    if vs != [] {
      OccursIff(v, vs[1..]);
    }
  }

  lemma {:induction false} SharedIff(vs: seq<Var>, ws: seq<Var>)
    ensures CountShared(vs, ws) > 0 <==> exists v :: v in vs && v in ws
  {
    if vs != [] {
      OccursIff(vs[0], ws);
      SharedIff(vs[1..], ws);
      assert vs == [vs[0]] + vs[1..];
    }
  }

  /** `overlap`: the number of matching pairs of variables. */
  method Overlap(t: Term, other: Term) returns (count: nat)
    requires t.path != [] && other.path != []
    ensures count == CountShared(Variables(t), Variables(other))
    ensures count > 0 <==> Share(t, other)
  {
    var vs, ws := Variables(t), Variables(other);
    count := 0;
    for i := 0 to |vs|
      invariant count + CountShared(vs[i..], ws) == CountShared(vs, ws)
    {
      for j := 0 to |ws|
        invariant count + Occurrences(vs[i], ws[j..]) + CountShared(vs[i + 1..], ws) == CountShared(vs, ws)
      {
        assert ws[j..][1..] == ws[j + 1..];
        if ws[j] == vs[i] {
          count := count + 1;
        }
      }
      assert vs[i..][1..] == vs[i + 1..];
    }
    SharedIff(vs, ws);
  }

  ghost predicate Share(t: Term, other: Term)
    requires t.path != [] && other.path != []
  {
    exists v :: v in Variables(t) && v in Variables(other)
  }

  function Without<T>(s: seq<T>, i: nat): seq<T>
    requires i < |s|
  {
    s[..i] + s[i + 1..]
  }

  /** How ordering ends: with a plan; with a nil dereference when no term has a variable;
      or never, when no remaining term shares a variable with the last one chosen. */
  datatype Order = Plan(terms: seq<Term>) | NoRoot | Stuck

  /** The first index from `i` on that satisfies the test, or the length of the list. */
  ghost function FirstSharing(terms: seq<Term>, last: Term, i: nat): (k: nat)
    requires ProperTerms(terms) && last.path != [] && i <= |terms|
    ensures i <= k <= |terms|
    ensures forall j :: i <= j < k ==> !Share(terms[j], last)
    ensures k < |terms| ==> Share(terms[k], last)
    decreases |terms| - i
  {
    if i == |terms| || Share(terms[i], last) then i else FirstSharing(terms, last, i + 1)
  }

  ghost function FirstWith(terms: seq<Term>, n: nat, i: nat): (k: nat)
    requires ProperTerms(terms) && i <= |terms|
    ensures i <= k <= |terms|
    ensures forall j :: i <= j < k ==> |Variables(terms[j])| != n
    ensures k < |terms| ==> |Variables(terms[k])| == n
    decreases |terms| - i
  {
    if i == |terms| || |Variables(terms[i])| == n then i else FirstWith(terms, n, i + 1)
  }

  /** Always take the first remaining term that shares a variable with the last one taken. */
  ghost function Greedy(plan: seq<Term>, rest: seq<Term>): Order
    requires ProperTerms(plan) && ProperTerms(rest) && plan != []
    decreases |rest|
  {
    if rest == [] then Plan(plan)
    else
      var k := FirstSharing(rest, plan[|plan| - 1], 0);
      if k == |rest| then Stuck else Greedy(plan + [rest[k]], Without(rest, k))
  }

  /** The root is the first term with one variable, else with two, else with three. */
  ghost function Root(terms: seq<Term>): (k: nat)
    requires ProperTerms(terms)
    ensures k <= |terms|
  {
    if FirstWith(terms, 1, 0) < |terms| then FirstWith(terms, 1, 0)
    else if FirstWith(terms, 2, 0) < |terms| then FirstWith(terms, 2, 0)
    else FirstWith(terms, 3, 0)
  }

  ghost function DependencyOrder(terms: seq<Term>): Order
    requires ProperTerms(terms)
  {
    var k := Root(terms);
    if k == |terms| then NoRoot else Greedy([terms[k]], Without(terms, k))
  }

  /** The first loop of `makeDependencyGraph`: a term with the fewest variables. */
  method FindRoot(terms: seq<Term>) returns (root: nat)
    requires ProperTerms(terms)
    ensures root == Root(terms)
  {
    root := |terms|;
    var numvars := 1;
    while numvars <= 3 && root == |terms|
      invariant 1 <= numvars <= 4 && root <= |terms|
      invariant root == |terms| ==> forall n :: 1 <= n < numvars ==> FirstWith(terms, n, 0) == |terms|
      invariant root < |terms| ==> root == Root(terms)
      decreases 4 - numvars
    {
      var idx := 0;
      while idx < |terms| && |Variables(terms[idx])| != numvars
        invariant idx <= |terms| && FirstWith(terms, numvars, 0) == FirstWith(terms, numvars, idx)
      {
        idx := idx + 1;
      }
      root := idx;
      numvars := numvars + 1;
    }
    if root == |terms| {
      assert FirstWith(terms, 1, 0) == FirstWith(terms, 2, 0) == FirstWith(terms, 3, 0) == |terms|;
    }
  }

  /** The inner loop of `makeDependencyGraph`: a term that shares a variable with the last. */
  method FindNext(rest: seq<Term>, next: Term) returns (idx: nat)
    requires ProperTerms(rest) && next.path != []
    ensures idx == FirstSharing(rest, next, 0)
  {
    hide Share, Variables;
    idx := 0;
    while idx < |rest|
      invariant idx <= |rest| && FirstSharing(rest, next, 0) == FirstSharing(rest, next, idx)
    {
      assert rest[idx] in rest;
      var overlap := Overlap(rest[idx], next);
      if overlap > 0 {
        return;
      }
      idx := idx + 1;
    }
  }

  method MakeDependencyGraph(terms: seq<Term>) returns (order: Order)
    requires ProperTerms(terms)
    ensures order == DependencyOrder(terms)
  {
    hide Root, FirstSharing;
    var root := FindRoot(terms);
    if root == |terms| {
      return NoRoot;
    }
    var next, rest, plan := terms[root], Without(terms, root), [terms[root]];
    while rest != []
      invariant plan != [] && next == plan[|plan| - 1] && ProperTerms(plan) && ProperTerms(rest)
      invariant DependencyOrder(terms) == Greedy(plan, rest)
      decreases |rest|
    {
      var idx := FindNext(rest, next);
      if idx == |rest| {
        return Stuck;
      }
      next := rest[idx];
      plan := plan + [next];
      rest := Without(rest, idx);
    }
    order := Plan(plan);
  }

  // ---- what the order guarantees ----

  /** Neighbouring terms share a variable, from position `i` on. */
  ghost predicate ChainedFrom(plan: seq<Term>, i: nat)
    requires ProperTerms(plan)
  {
    forall j :: i < j < |plan| ==> Share(plan[j], plan[j - 1])
  }

  lemma WithoutSplits(terms: seq<Term>, k: nat)
    requires k < |terms|
    ensures multiset(terms) == multiset([terms[k]]) + multiset(Without(terms, k))
    ensures forall t :: t in terms <==> t == terms[k] || t in Without(terms, k)
  {
    assert terms == terms[..k] + [terms[k]] + terms[k + 1..];
  }

  /** A finished plan extends the started one by exactly the remaining terms, chained. */
  lemma {:induction false} GreedyMeaning(plan: seq<Term>, rest: seq<Term>)
    requires ProperTerms(plan) && ProperTerms(rest) && plan != []
    requires Greedy(plan, rest).Plan? && ChainedFrom(plan, 0)
    ensures var done := Greedy(plan, rest).terms;
            && plan <= done && multiset(done) == multiset(plan) + multiset(rest)
            && ProperTerms(done) && ChainedFrom(done, 0)
    decreases |rest|
  {
    hide Share, Variables;
    if rest != [] {
      var k := FirstSharing(rest, plan[|plan| - 1], 0);
      WithoutSplits(rest, k);
      ChainMore(plan, rest[k]);
      hide FirstSharing, Without, ChainedFrom;
      GreedyMeaning(plan + [rest[k]], Without(rest, k));
    }
  }

  lemma ChainMore(plan: seq<Term>, t: Term)
    requires ProperTerms(plan) && plan != [] && ChainedFrom(plan, 0) && t.path != [] && Share(t, plan[|plan| - 1])
    ensures ProperTerms(plan + [t]) && ChainedFrom(plan + [t], 0)
  {
    hide Share, Variables;
    forall j | 0 < j < |plan + [t]|
      ensures Share((plan + [t])[j], (plan + [t])[j - 1])
    {
    }
  }

  /** The root has the fewest variables of all terms that have any. */
  lemma RootIsLeast(terms: seq<Term>)
    requires ProperTerms(terms)
    ensures Root(terms) == |terms| <==> forall t :: t in terms ==> |Variables(t)| == 0
    ensures Root(terms) < |terms| ==>
              forall t :: t in terms && |Variables(t)| > 0 ==> 0 < |Variables(terms[Root(terms)])| <= |Variables(t)|
  {
    forall t | t in terms
      ensures exists j :: 0 <= j < |terms| && terms[j] == t
    {
    }
  }

  /** A finished order is a permutation of the terms, starts with a term of fewest
      variables, and neighbouring terms share a variable. */
  lemma OrderMeaning(terms: seq<Term>)
    requires ProperTerms(terms) && DependencyOrder(terms).Plan?
    ensures var plan := DependencyOrder(terms).terms;
            && multiset(plan) == multiset(terms) && ProperTerms(plan) && plan != []
            && (forall t :: t in terms ==> |Variables(plan[0])| <= |Variables(t)|)
            && ChainedFrom(plan, 0)
  {
    var k := Root(terms);
    WithoutSplits(terms, k);
    GreedyMeaning([terms[k]], Without(terms, k));
    RootIsLeast(terms);
    var plan := DependencyOrder(terms).terms;
    forall t | t in terms
      ensures |Variables(plan[0])| <= |Variables(t)|
    {
      assert t in multiset(terms) && t in multiset(plan);
      var j :| 0 <= j < |plan| && plan[j] == t;
      if j > 0 {
        assert Share(plan[j], plan[j - 1]);
      }
    }
  }

  // ---- exactly which choices it makes ----

  /** `t` is the first of the terms left that shares a variable with `last`, and `left` are
      the others, in order. */
  ghost predicate TakesFirst(rest: seq<Term>, last: Term, t: Term, left: seq<Term>)
    requires ProperTerms(rest) && last.path != []
  {
    exists k :: 0 <= k < |rest| && rest[k] == t && left == rest[..k] + rest[k + 1..]
                && Share(rest[k], last) && forall j :: 0 <= j < k ==> !Share(rest[j], last)
  }

  /** `t` is the first of the terms with the fewest variables, those without any aside, and
      `left` are the others, in order. */
  ghost predicate StartsLeast(terms: seq<Term>, t: Term, left: seq<Term>)
    requires ProperTerms(terms)
  {
    exists k :: 0 <= k < |terms| && terms[k] == t && left == terms[..k] + terms[k + 1..]
                && LeastAt(terms, k) && forall j :: 0 <= j < k ==> !LeastAt(terms, j)
  }

  ghost predicate LeastAt(terms: seq<Term>, k: nat)
    requires ProperTerms(terms) && k < |terms|
  {
    Variables(terms[k]) != [] &&
    forall u :: u in terms && Variables(u) != [] ==> |Variables(terms[k])| <= |Variables(u)|
  }

  /** The terms chosen one after the other, and what was left after each choice. */
  ghost predicate Chosen(terms: seq<Term>, plan: seq<Term>, rests: seq<seq<Term>>): (r: bool)
    requires ProperTerms(terms)
    ensures r ==> |plan| == |rests| > 0 && ProperTerms(plan) && ProperTerms(rests[|rests| - 1])
  {
    && |plan| == |rests| > 0 && ProperTerms(plan) && (forall i :: 0 <= i < |rests| ==> ProperTerms(rests[i]))
    && StartsLeast(terms, plan[0], rests[0])
    && forall i :: 0 < i < |plan| ==> TakesFirst(rests[i - 1], plan[i - 1], plan[i], rests[i])
  }

  lemma RootIsChosen(terms: seq<Term>)
    requires ProperTerms(terms) && Root(terms) < |terms|
    ensures StartsLeast(terms, terms[Root(terms)], Without(terms, Root(terms)))
  {
    var k := Root(terms);
    RootIsLeast(terms);
    assert terms[k] in terms;
    forall j | 0 <= j < k
      ensures !LeastAt(terms, j)
    {
      assert terms[j] in terms;
    }
  }

  lemma ChosenIsRoot(terms: seq<Term>, t: Term, left: seq<Term>)
    requires ProperTerms(terms) && StartsLeast(terms, t, left)
    ensures Root(terms) < |terms| && t == terms[Root(terms)] && left == Without(terms, Root(terms))
  {
    RootIsLeast(terms);
    var k :| 0 <= k < |terms| && terms[k] == t && left == terms[..k] + terms[k + 1..]
             && LeastAt(terms, k) && forall j :: 0 <= j < k ==> !LeastAt(terms, j);
    assert terms[k] in terms;
    RootIsChosen(terms);
    var r :| 0 <= r < |terms| && terms[r] == terms[Root(terms)] && LeastAt(terms, r)
             && Without(terms, Root(terms)) == terms[..r] + terms[r + 1..] && forall j :: 0 <= j < r ==>
               !LeastAt(terms, j);
    assert r == k;
  }

  lemma ChosenBefore(terms: seq<Term>, plan: seq<Term>, rests: seq<seq<Term>>)
    requires ProperTerms(terms) && Chosen(terms, plan, rests) && |plan| > 1
    ensures var n := |plan| - 1;
            && plan == plan[..n] + [plan[n]] && rests[..n][n - 1] == rests[n - 1] && plan[..n][n - 1] == plan[n - 1]
            && Chosen(terms, plan[..n], rests[..n])
            && plan[n - 1].path != [] && TakesFirst(rests[n - 1], plan[n - 1], plan[n], rests[n])
  {
    hide TakesFirst, StartsLeast;
  }

  lemma TakenAt(rest: seq<Term>, last: Term, t: Term, left: seq<Term>) returns (k: nat)
    requires ProperTerms(rest) && last.path != [] && TakesFirst(rest, last, t, left)
    ensures k < |rest| && t == rest[k] && left == Without(rest, k) && FirstSharing(rest, last, 0) == k
  {
    hide Share;
    k :| 0 <= k < |rest| && rest[k] == t && left == rest[..k] + rest[k + 1..]
         && Share(rest[k], last) && forall j :: 0 <= j < k ==> !Share(rest[j], last);
  }

  lemma GreedyUnfolds(plan: seq<Term>, rest: seq<Term>, k: nat)
    requires ProperTerms(plan) && ProperTerms(rest) && plan != [] && k < |rest|
    requires FirstSharing(rest, plan[|plan| - 1], 0) == k
    ensures ProperTerms(plan + [rest[k]]) && ProperTerms(Without(rest, k))
    ensures Greedy(plan, rest) == Greedy(plan + [rest[k]], Without(rest, k))
  {
    hide FirstSharing, Share;
  }

  lemma GreedyStep(plan: seq<Term>, rest: seq<Term>, t: Term, left: seq<Term>)
    requires ProperTerms(plan) && ProperTerms(rest) && plan != [] && TakesFirst(rest, plan[|plan| - 1], t, left)
    ensures ProperTerms(plan + [t]) && ProperTerms(left) && Greedy(plan, rest) == Greedy(plan + [t], left)
  {
    hide TakesFirst, Greedy, FirstSharing, Share;
    var k := TakenAt(rest, plan[|plan| - 1], t, left);
    GreedyUnfolds(plan, rest, k);
  }

  /** What was chosen so far is what the greedy order goes on from. */
  lemma {:induction false} ChosenFollows(terms: seq<Term>, plan: seq<Term>, rests: seq<seq<Term>>)
    requires ProperTerms(terms) && Chosen(terms, plan, rests)
    ensures DependencyOrder(terms) == Greedy(plan, rests[|rests| - 1])
    decreases |plan|
  {
    var n := |plan| - 1;
    hide Share, Variables, StartsLeast, Root, TakesFirst, Greedy;
    if n == 0 {
      ChosenIsRoot(terms, plan[0], rests[0]);
      assert plan == [plan[0]];
    } else {
      ChosenBefore(terms, plan, rests);
      hide Chosen;
      ChosenFollows(terms, plan[..n], rests[..n]);
      GreedyStep(plan[..n], rests[n - 1], plan[n], rests[n]);
    }
  }

  lemma FirstIsTaken(rest: seq<Term>, last: Term)
    requires ProperTerms(rest) && last.path != []
    ensures var k := FirstSharing(rest, last, 0);
            if k == |rest| then NoneShares(last, rest) else TakesFirst(rest, last, rest[k], Without(rest, k))
  {
    hide Share;
  }

  /** From any choices on, the greedy order makes more until nothing is left or nothing
      left shares a variable with the last one. */
  lemma {:induction false} ChoicesGoOn(terms: seq<Term>, plan: seq<Term>, rests: seq<seq<Term>>)
    returns (plan': seq<Term>, rests': seq<seq<Term>>)
    requires ProperTerms(terms) && Chosen(terms, plan, rests)
    ensures Chosen(terms, plan', rests')
    ensures (rests'[|rests'| - 1] == [] || NoneShares(plan'[|plan'| - 1], rests'[|rests'| - 1]))
    decreases |rests[|rests| - 1]|
  {
    hide Share, Variables, StartsLeast, Chosen, TakesFirst, FirstSharing, NoneShares;
    plan', rests' := plan, rests;
    var rest, last := rests[|rests| - 1], plan[|plan| - 1];
    var k := FirstSharing(rest, last, 0);
    FirstIsTaken(rest, last);
    if k < |rest| {
      var left := Without(rest, k);
      assert forall u :: u in left ==> u in rest;
      ChosenMore(terms, plan, rests, rest[k], left);
      plan', rests' := ChoicesGoOn(terms, plan + [rest[k]], rests + [left]);
    }
  }

  lemma ChosenMore(terms: seq<Term>, plan: seq<Term>, rests: seq<seq<Term>>, t: Term, left: seq<Term>)
    requires ProperTerms(terms) && Chosen(terms, plan, rests) && t.path != [] && ProperTerms(left)
    requires TakesFirst(rests[|rests| - 1], plan[|plan| - 1], t, left)
    ensures Chosen(terms, plan + [t], rests + [left])
  {
    hide TakesFirst, StartsLeast;
  }

  /** Nothing left shares a variable with the last term chosen. */
  ghost predicate NoneShares(last: Term, rest: seq<Term>)
    requires last.path != [] && ProperTerms(rest)
  {
    forall u :: u in rest ==> !Share(u, last)
  }

  lemma NoneSharesSticks(plan: seq<Term>, rest: seq<Term>)
    requires plan != [] && ProperTerms(plan) && ProperTerms(rest) && NoneShares(plan[|plan| - 1], rest) && rest != []
    ensures Greedy(plan, rest) == Stuck
  {
    hide Share;
    assert forall j :: 0 <= j < |rest| ==> rest[j] in rest;
    var k := FirstSharing(rest, plan[|plan| - 1], 0);
  }

  /** Ordering ends with a plan exactly when these choices use up all terms, and the plan
      lists them. */
  lemma FinishesIff(terms: seq<Term>, plan: seq<Term>)
    requires ProperTerms(terms)
    ensures DependencyOrder(terms) == Plan(plan) <==>
            exists rests :: Chosen(terms, plan, rests) && rests[|rests| - 1] == []
  {
    hide Chosen, Share, Variables;
    if rests :| Chosen(terms, plan, rests) && rests[|rests| - 1] == [] {
      ChosenFollows(terms, plan, rests);
    }
    if DependencyOrder(terms) == Plan(plan) {
      var plan', rests := AllChoices(terms);
    }
  }

  /** All the choices it makes, and how it ends after them. */
  lemma AllChoices(terms: seq<Term>) returns (plan: seq<Term>, rests: seq<seq<Term>>)
    requires ProperTerms(terms) && Root(terms) < |terms|
    ensures Chosen(terms, plan, rests)
    ensures if rests[|rests| - 1] == [] then DependencyOrder(terms) == Plan(plan)
            else NoneShares(plan[|plan| - 1], rests[|rests| - 1]) && DependencyOrder(terms) == Stuck
  {
    var k := Root(terms);
    RootIsChosen(terms);
    assert forall u :: u in Without(terms, k) ==> u in terms;
    plan, rests := ChoicesGoOn(terms, [terms[k]], [Without(terms, k)]);
    ChosenFollows(terms, plan, rests);
    hide Root, DependencyOrder;
    if rests[|rests| - 1] != [] {
      NoneSharesSticks(plan, rests[|rests| - 1]);
    }
  }

  /** It never ends exactly when after some choices nothing that is left shares a variable
      with the last term chosen. */
  lemma StuckIff(terms: seq<Term>)
    requires ProperTerms(terms)
    ensures DependencyOrder(terms) == Stuck <==>
            exists plan, rests ::
              && Chosen(terms, plan, rests) && rests[|rests| - 1] != []
              && NoneShares(plan[|plan| - 1], rests[|rests| - 1])
  {
    hide Chosen, Share, Variables;
    if plan, rests :| (
                        && Chosen(terms, plan, rests) && rests[|rests| - 1] != []
                        && NoneShares(plan[|plan| - 1], rests[|rests| - 1])) {
      ChosenFollows(terms, plan, rests);
      NoneSharesSticks(plan, rests[|rests| - 1]);
    }
    if DependencyOrder(terms) == Stuck {
      var plan, rests := AllChoices(terms);
    }
  }

  lemma TakenSplits(rest: seq<Term>, last: Term, t: Term, left: seq<Term>)
    requires ProperTerms(rest) && last.path != [] && TakesFirst(rest, last, t, left)
    ensures multiset(rest) == multiset{t} + multiset(left) && t.path != [] && Share(t, last)
  {
    hide Share;
    var k :| 0 <= k < |rest| && rest[k] == t && left == rest[..k] + rest[k + 1..] && Share(rest[k], last);
    WithoutSplits(rest, k);
  }

  lemma StartSplits(terms: seq<Term>, t: Term, left: seq<Term>)
    requires ProperTerms(terms) && StartsLeast(terms, t, left)
    ensures multiset(terms) == multiset{t} + multiset(left)
  {
    hide LeastAt;
    var k :| 0 <= k < |terms| && terms[k] == t && left == terms[..k] + terms[k + 1..];
    WithoutSplits(terms, k);
  }

  /** Chosen terms and those left are all the terms, and the chosen ones are chained. */
  lemma {:induction false} ChosenSplits(terms: seq<Term>, plan: seq<Term>, rests: seq<seq<Term>>)
    requires ProperTerms(terms) && Chosen(terms, plan, rests)
    ensures multiset(plan) + multiset(rests[|rests| - 1]) == multiset(terms) && ChainedFrom(plan, 0)
    decreases |plan|
  {
    var n := |plan| - 1;
    hide Share, Variables, TakesFirst, StartsLeast;
    if n == 0 {
      StartSplits(terms, plan[0], rests[0]);
      assert plan == [plan[0]];
    } else {
      ChosenBefore(terms, plan, rests);
      hide Chosen;
      ChosenSplits(terms, plan[..n], rests[..n]);
      TakenSplits(rests[n - 1], plan[n - 1], plan[n], rests[n]);
      ChainMore(plan[..n], plan[n]);
    }
  }

  /** There is no root exactly when no term has a variable. */
  lemma NoRootIff(terms: seq<Term>)
    requires ProperTerms(terms)
    ensures DependencyOrder(terms) == NoRoot <==> forall t :: t in terms ==> Variables(t) == []
  {
    RootIsLeast(terms);
    var k := Root(terms);
    if k < |terms| {
      GreedyHasRoot([terms[k]], Without(terms, k));
    }
  }

  lemma {:induction false} GreedyHasRoot(plan: seq<Term>, rest: seq<Term>)
    requires ProperTerms(plan) && ProperTerms(rest) && plan != []
    ensures Greedy(plan, rest) != NoRoot
    decreases |rest|
  {
    if rest != [] {
      var k := FirstSharing(rest, plan[|plan| - 1], 0);
      if k < |rest| {
        GreedyHasRoot(plan + [rest[k]], Without(rest, k));
      }
    }
  }

  /** Every two of the terms share a variable. */
  ghost predicate AllShare(terms: seq<Term>)
    requires ProperTerms(terms)
  {
    forall t, u :: t in terms && u in terms ==> Share(t, u)
  }

  /** If every two terms share a variable, ordering finishes. */
  lemma PairwiseSharingFinishes(terms: seq<Term>)
    requires ProperTerms(terms) && terms != [] && AllShare(terms)
    ensures DependencyOrder(terms).Plan?
  {
    RootIsLeast(terms);
    assert Share(terms[0], terms[0]) && terms[0] in terms;
    var k := Root(terms);
    WithoutSplits(terms, k);
    SharingGoesOn([terms[k]], Without(terms, k));
  }

  lemma {:induction false} SharingGoesOn(plan: seq<Term>, rest: seq<Term>)
    requires ProperTerms(plan) && ProperTerms(rest) && plan != []
    requires forall t, u :: (t in plan || t in rest) && u in rest ==> Share(u, t)
    ensures Greedy(plan, rest).Plan?
    decreases |rest|
  {
    hide Share, Variables;
    if rest != [] {
      var last := plan[|plan| - 1];
      assert rest[0] in rest && last in plan;
      var k := FirstSharing(rest, last, 0);
      assert k == 0;
      WithoutSplits(rest, k);
      SharingGoesOn(plan + [rest[k]], Without(rest, k));
    }
  }

  /** In particular if some variable occurs in every term. */
  lemma CommonVariableFinishes(terms: seq<Term>, v: Var)
    requires ProperTerms(terms) && terms != [] && forall t :: t in terms ==> v in Variables(t)
    ensures DependencyOrder(terms).Plan?
  {
    forall t, u | t in terms && u in terms
      ensures Share(t, u)
    {
      assert v in Variables(t) && v in Variables(u);
    }
    PairwiseSharingFinishes(terms);
  }

  const STEP := PathPattern(URI("", "p"), Single)
  const A := URI("", "?a")
  const B := URI("", "?b")
  const C := URI("", "?c")
  const D := URI("", "?d")
  const CONSTANT := URI("", "x")

  /** Four terms in which every variable is linked to every other, but the last term
      shares no variable with the one chosen before it: ordering never ends. */
  const STUCK_TERMS := [Term(A, [STEP], CONSTANT), Term(A, [STEP], B), Term(B, [STEP], C), Term(A, [STEP], D)]

  lemma StuckVariables()
    ensures ProperTerms(STUCK_TERMS)
    ensures Variables(STUCK_TERMS[0]) == [VarOf(A)] && Variables(STUCK_TERMS[1]) == [VarOf(A), VarOf(B)]
    ensures Variables(STUCK_TERMS[2]) == [VarOf(B), VarOf(C)] && Variables(STUCK_TERMS[3]) == [VarOf(A), VarOf(D)]
  {
    assert A.value[0] == B.value[0] == C.value[0] == D.value[0] == '?';
    assert IsVariable(A) && IsVariable(B) && IsVariable(C) && IsVariable(D);
    assert CONSTANT.value[0] != '?' && STEP.pred.value[0] != '?';
    assert !IsVariable(CONSTANT) && !IsVariable(STEP.pred);
  }

  lemma StuckNamesDiffer()
    ensures VarOf(A) != VarOf(B) && VarOf(A) != VarOf(C) && VarOf(D) != VarOf(B) && VarOf(D) != VarOf(C)
    ensures VarOf(B) != VarOf(C)
  {
    assert VarOf(A).name[1] == 'a' && VarOf(B).name[1] == 'b' && VarOf(C).name[1] == 'c' && VarOf(D).name[1] == 'd';
  }

  /** A chain of three and a fourth term that does not share with the third. */
  lemma ChainSticks(t0: Term, t1: Term, t2: Term, t3: Term)
    requires ProperTerms([t0, t1, t2, t3])
    requires Share(t1, t0) && Share(t2, t1) && !Share(t3, t2)
    ensures Greedy([t0], [t1, t2, t3]) == Stuck
  {
    hide Share, Variables;
    assert t0 in [t0, t1, t2, t3] && t1 in [t0, t1, t2, t3] && t2 in [t0, t1, t2, t3] && t3 in [t0, t1, t2, t3];
    assert Without([t1, t2, t3], 0) == [t2, t3] && [t0] + [t1] == [t0, t1];
    assert Without([t2, t3], 0) == [t3] && [t0, t1] + [t2] == [t0, t1, t2];
    assert FirstSharing([t3], t2, 0) == 1;
    assert Greedy([t0, t1, t2], [t3]) == Stuck;
    assert FirstSharing([t2, t3], t1, 0) == 0;
    assert Greedy([t0, t1], [t2, t3]) == Stuck;
    assert FirstSharing([t1, t2, t3], t0, 0) == 0;
  }

  lemma ConnectedYetStuck()
    ensures ProperTerms(STUCK_TERMS) && DependencyOrder(STUCK_TERMS) == Stuck
    ensures Share(STUCK_TERMS[1], STUCK_TERMS[0]) && Share(STUCK_TERMS[2], STUCK_TERMS[1])
    ensures Share(STUCK_TERMS[3], STUCK_TERMS[0])
  {
    var t0, t1, t2, t3 := STUCK_TERMS[0], STUCK_TERMS[1], STUCK_TERMS[2], STUCK_TERMS[3];
    StuckVariables();
    StuckNamesDiffer();
    hide Variables, VarOf, Greedy;
    assert VarOf(A) in Variables(t0) && VarOf(A) in Variables(t1) && VarOf(A) in Variables(t3);
    assert VarOf(B) in Variables(t1) && VarOf(B) in Variables(t2);
    assert FirstWith(STUCK_TERMS, 1, 0) == 0;
    assert Without(STUCK_TERMS, 0) == [t1, t2, t3];
    assert STUCK_TERMS == [t0, t1, t2, t3];
    ChainSticks(t0, t1, t2, t3);
  }

  // ---- the operators of a plan ----

  datatype Op =
    | ResolveSubject(term: Term)
    | ResolveObject(term: Term)
    | ResolvePredicate(term: Term)
    | ResolveVarTripleFromSubject(term: Term)
    | ResolveVarTripleFromObject(term: Term)
    | ResolveVarTripleFromPredicate(term: Term)
    | ResolveVarTripleAll(term: Term)
    | RestrictSubjectObjectByPredicate(term: Term, parentVar: Var, childVar: Var)
    | ResolveSubjectFromVarObject(term: Term)
    | ResolveObjectFromVarSubject(term: Term)
    | ResolveSubjectObjectFromPred(term: Term)
    | ResolveSubjectPredFromObject(term: Term)
    | ResolvePredObjectFromSubject(term: Term)

  /** How a variable was resolved: at the top of a chain of variables or below a parent.
      The source encodes this in a string; variable names contain a "?", so they never
      collide with its two marker values. */
  datatype Link = Top | Child(parent: Var)

  type Links = map<Var, Link>

  predicate IsChild(vars: Links, v: Var) {
    v in vars && vars[v].Child?
  }

  function AddTopLevel(vars: Links, v: Var): Links {
    if IsChild(vars, v) then vars else vars[v := Top]
  }

  function AddLink(vars: Links, parent: Var, child: Var): Links {
    vars[child := Child(parent)]
  }

  /** One turn of `formQueryPlan`: the operator for a term and the new links, or nothing
      for a term without variables, which is an error. */
  function PlanTerm(vars: Links, t: Term): Option<(Op, Links)>
    requires t.path != []
  {
    var pred := t.path[0].pred;
    var (sv, pv, ov) := (VarOf(t.subj), VarOf(pred), VarOf(t.obj));
    var (isS, isP, isO) := (IsVariable(t.subj), IsVariable(pred), IsVariable(t.obj));
    var numvars := |Variables(t)|;
    if numvars == 1 && isS then Some((ResolveSubject(t), AddTopLevel(vars, sv)))
    else if numvars == 1 && isO then Some((ResolveObject(t), AddTopLevel(vars, ov)))
    else if numvars == 1 && isP then Some((ResolvePredicate(t), AddTopLevel(vars, pv)))
    else if isS && isO && isP then
      Some((if sv in vars then ResolveVarTripleFromSubject(t)
            else if ov in vars then ResolveVarTripleFromObject(t)
            else if pv in vars then ResolveVarTripleFromPredicate(t)
            else ResolveVarTripleAll(t), vars))
    else if isS && isO then
      if sv in vars && ov in vars then
        if IsChild(vars, sv) || (!IsChild(vars, ov) && vars[sv].Top?)
        then Some((RestrictSubjectObjectByPredicate(t, sv, ov), AddLink(vars, sv, ov)))
        else Some((RestrictSubjectObjectByPredicate(t, ov, sv), AddLink(vars, ov, sv)))
      else if ov in vars then Some((ResolveSubjectFromVarObject(t), AddLink(vars, ov, sv)))
      else if sv in vars then Some((ResolveObjectFromVarSubject(t), AddLink(vars, sv, ov)))
      else Some((ResolveSubjectObjectFromPred(t), AddLink(vars, sv, ov)))
    else if isS && isP then Some((ResolveSubjectPredFromObject(t), AddLink(vars, sv, pv)))
    else if isO && isP then Some((ResolvePredObjectFromSubject(t), AddLink(vars, ov, pv)))
    else None
  }

  ghost function PlanFrom(vars: Links, terms: seq<Term>): Option<seq<Op>>
    requires ProperTerms(terms)
    decreases |terms|
  {
    if terms == [] then Some([])
    else
      match PlanTerm(vars, terms[0])
      case None => None
      case Some((op, vars')) =>
        match PlanFrom(vars', terms[1..])
        case None => None
        case Some(ops) => Some([op] + ops)
  }

  /** The variable that an operator adds to those placed: for a filter, the one it hangs
      below the other. */
  ghost function Places(op: Op): set<Var>
    requires op.term.path != []
  {
    var sv, pv, ov := VarOf(op.term.subj), VarOf(op.term.path[0].pred), VarOf(op.term.obj);
    match op
    case ResolveSubject(_) => {sv}
    case ResolveObject(_) => {ov}
    case ResolvePredicate(_) => {pv}
    case RestrictSubjectObjectByPredicate(_, _, child) => {child}
    case ResolveSubjectFromVarObject(_) => {sv}
    case ResolveObjectFromVarSubject(_) => {ov}
    case ResolveSubjectObjectFromPred(_) => {ov}
    case ResolveSubjectPredFromObject(_) => {pv}
    case ResolvePredObjectFromSubject(_) => {pv}
    case _ => {}
  }

  /** The operators that place their variable at the top of a chain. */
  predicate PlacesOnTop(op: Op) {
    op.ResolveSubject? || op.ResolveObject? || op.ResolvePredicate?
  }

  ghost predicate ProperOps(ops: seq<Op>) {
    forall op :: op in ops ==> op.term.path != []
  }

  ghost function PlacedBy(ops: seq<Op>): set<Var>
    requires ProperOps(ops)
  {
    set op, v | op in ops && v in Places(op) :: v
  }

  /** The variables placed below another one. */
  ghost function BelowBy(ops: seq<Op>): set<Var>
    requires ProperOps(ops)
  {
    set op, v | op in ops && !PlacesOnTop(op) && v in Places(op) :: v
  }

  /** When an operator is the one for a term, given the variables placed before it and those
      of them that are below another one. */
  ghost predicate Suits(placed: set<Var>, below: set<Var>, t: Term, op: Op)
    requires t.path != []
  {
    var (isS, isP, isO) := (IsVariable(t.subj), IsVariable(t.path[0].pred), IsVariable(t.obj));
    var (sv, pv, ov) := (VarOf(t.subj), VarOf(t.path[0].pred), VarOf(t.obj));
    op.term == t &&
    match op
    case ResolveSubject(_) => isS && !isP && !isO
    case ResolveObject(_) => !isS && !isP && isO
    case ResolvePredicate(_) => !isS && isP && !isO
    case ResolveVarTripleFromSubject(_) => isS && isP && isO && sv in placed
    case ResolveVarTripleFromObject(_) => isS && isP && isO && sv !in placed && ov in placed
    case ResolveVarTripleFromPredicate(_) => isS && isP && isO && sv !in placed && ov !in placed && pv in placed
    case ResolveVarTripleAll(_) => isS && isP && isO && sv !in placed && ov !in placed && pv !in placed
    case RestrictSubjectObjectByPredicate(_, parent, child) =>
      && isS && !isP && isO && sv in placed && ov in placed
      && ((parent == sv && child == ov) || (parent == ov && child == sv))
      && (sv in below || ov in below ==> parent in below)
      && ((sv in below <==> ov in below) ==> parent == sv)
    case ResolveSubjectFromVarObject(_) => isS && !isP && isO && sv !in placed && ov in placed
    case ResolveObjectFromVarSubject(_) => isS && !isP && isO && sv in placed && ov !in placed
    case ResolveSubjectObjectFromPred(_) => isS && !isP && isO && sv !in placed && ov !in placed
    case ResolveSubjectPredFromObject(_) => isS && isP && !isO
    case ResolvePredObjectFromSubject(_) => !isS && isP && isO
  }

  ghost function Children(vars: Links): set<Var> {
    set v | v in vars && vars[v].Child?
  }

  /** A term with variables gets the one operator that suits it. */
  lemma PlanTermSuits(vars: Links, t: Term)
    requires t.path != []
    ensures PlanTerm(vars, t).None? <==> Variables(t) == []
    ensures PlanTerm(vars, t).None? ==> forall op :: !Suits(vars.Keys, Children(vars), t, op)
    ensures PlanTerm(vars, t).Some? ==>
              forall op :: Suits(vars.Keys, Children(vars), t, op) <==> op == PlanTerm(vars, t).value.0
  {
  }

  lemma PlanTermPlaces(vars: Links, t: Term)
    requires t.path != [] && PlanTerm(vars, t).Some?
    ensures var (op, vars') := PlanTerm(vars, t).value;
            && op.term == t && vars'.Keys == vars.Keys + Places(op)
            && Children(vars') == Children(vars) + if PlacesOnTop(op) then {} else Places(op)
  {
  }

  /** Every operator is the one that suits its term after those before it. */
  ghost predicate AllSuit(done: seq<Op>, terms: seq<Term>, ops: seq<Op>)
    requires ProperTerms(terms) && ProperOps(done)
  {
    && |ops| == |terms| && ProperOps(ops)
    && forall i :: 0 <= i < |ops| ==> Suits(PlacedBy(done + ops[..i]), BelowBy(done + ops[..i]), terms[i], ops[i])
  }

  lemma PlacedMore(ops: seq<Op>, op: Op)
    requires ProperOps(ops) && op.term.path != []
    ensures ProperOps(ops + [op]) && PlacedBy(ops + [op]) == PlacedBy(ops) + Places(op)
    ensures BelowBy(ops + [op]) == BelowBy(ops) + if PlacesOnTop(op) then {} else Places(op)
  {
    hide Places, PlacesOnTop;
    assert forall o :: o in ops + [op] <==> o in ops || o == op;
  }

  lemma SuitsHead(done: seq<Op>, terms: seq<Term>, ops: seq<Op>)
    requires ProperTerms(terms) && ProperOps(done) && terms != []
    ensures AllSuit(done, terms, ops) <==>
              && ops != [] && ops[0].term.path != [] && Suits(PlacedBy(done), BelowBy(done), terms[0], ops[0])
              && ProperOps(done + [ops[0]]) && AllSuit(done + [ops[0]], terms[1..], ops[1..])
  {
    hide PlacedBy, BelowBy, Suits;
    if ops != [] && ProperOps(ops) && |ops| == |terms| {
      assert done + ops[..0] == done;
      forall i | 0 < i < |ops|
        ensures done + ops[..i] == done + [ops[0]] + ops[1..][..i - 1]
      {
        assert ops[..i] == [ops[0]] + ops[1..][..i - 1];
      }
      if AllSuit(done + [ops[0]], terms[1..], ops[1..]) {
        forall i | 0 < i < |ops|
          ensures Suits(PlacedBy(done + ops[..i]), BelowBy(done + ops[..i]), terms[i], ops[i])
        {
          assert ops[1..][i - 1] == ops[i] && terms[1..][i - 1] == terms[i];
        }
      }
    }
    if ops != [] && ops[0].term.path != [] && ProperOps(ops[1..]) {
      assert ops == [ops[0]] + ops[1..];
      assert ProperOps(ops);
    }
  }

  lemma PlanFromSplits(vars: Links, terms: seq<Term>, ops: seq<Op>)
    requires ProperTerms(terms) && terms != [] && terms[0].path != []
    ensures PlanFrom(vars, terms) == Some(ops) <==>
              && PlanTerm(vars, terms[0]).Some? && ops != [] && ops[0] == PlanTerm(vars, terms[0]).value.0
              && PlanFrom(PlanTerm(vars, terms[0]).value.1, terms[1..]) == Some(ops[1..])
  {
    hide PlanTerm;
    if ops != [] {
      assert ops == [ops[0]] + ops[1..];
    }
  }

  /** The plan from some links on is exactly the list of suiting operators. */
  lemma {:induction false} PlanFromIff(vars: Links, done: seq<Op>, terms: seq<Term>, ops: seq<Op>)
    requires ProperTerms(terms) && ProperOps(done)
    requires vars.Keys == PlacedBy(done) && Children(vars) == BelowBy(done)
    ensures PlanFrom(vars, terms) == Some(ops) <==> AllSuit(done, terms, ops)
    decreases |terms|
  {
    if terms != [] {
      hide PlacedBy, BelowBy, Suits, Places, PlacesOnTop, Children, PlanTerm, Variables, AllSuit, PlanFrom;
      assert terms[0] in terms;
      PlanFromSplits(vars, terms, ops);
      PlanTermSuits(vars, terms[0]);
      SuitsHead(done, terms, ops);
      if PlanTerm(vars, terms[0]).Some? {
        var (op, vars') := PlanTerm(vars, terms[0]).value;
        PlanTermPlaces(vars, terms[0]);
        PlacedMore(done, op);
        if ops != [] {
          PlanFromIff(vars', done + [op], terms[1..], ops[1..]);
        }
      }
    }
  }

  /** There is no plan exactly when some term has no variable. */
  lemma {:induction false} NoPlanIff(vars: Links, terms: seq<Term>)
    requires ProperTerms(terms)
    ensures PlanFrom(vars, terms).None? <==> exists t :: t in terms && Variables(t) == []
    decreases |terms|
  {
    if terms != [] {
      assert terms[0] in terms && forall t :: t in terms <==> t == terms[0] || t in terms[1..];
      PlanTermSuits(vars, terms[0]);
      hide PlanTerm, Variables, Suits;
      if PlanTerm(vars, terms[0]).Some? {
        NoPlanIff(PlanTerm(vars, terms[0]).value.1, terms[1..]);
      }
    }
  }

  lemma PlanIsSuiting(terms: seq<Term>, plan: Option<seq<Op>>)
    requires ProperTerms(terms) && plan == PlanFrom(map[], terms)
    ensures plan.None? <==> exists t :: t in terms && Variables(t) == []
    ensures forall ops :: plan == Some(ops) <==> AllSuit([], terms, ops)
  {
    NoPlanIff(map[], terms);
    hide AllSuit, PlanTerm, Variables;
    forall ops
      ensures PlanFrom(map[], terms) == Some(ops) <==> AllSuit([], terms, ops)
    {
      PlanFromIff(map[], [], terms, ops);
    }
  }

  /** `formQueryPlan`: an error exactly if some term has no variable, else for each term the
      operator that suits it, and no other plan is right. */
  method FormQueryPlan(terms: seq<Term>) returns (plan: Option<seq<Op>>)
    requires ProperTerms(terms)
    ensures plan == PlanFrom(map[], terms)
    ensures plan.None? <==> exists t :: t in terms && Variables(t) == []
    ensures forall ops :: plan == Some(ops) <==> AllSuit([], terms, ops)
  {
    hide AllSuit, PlanTerm, Variables;
    var vars: Links := map[];
    var operations: seq<Op> := [];
    assert terms[0..] == terms;
    assert PlanFrom(vars, terms).Some? ==> [] + PlanFrom(vars, terms).value == PlanFrom(vars, terms).value;
    for i := 0 to |terms|
      invariant PlanFrom(map[], terms) ==
                match PlanFrom(vars, terms[i..])
                case None => None
                case Some(ops) => Some(operations + ops)
    {
      assert terms[i..][1..] == terms[i + 1..];
      var step := PlanTerm(vars, terms[i]);
      match step
      case None =>
        PlanIsSuiting(terms, None);
        return None;
      case Some(next) =>
        ghost var tail := PlanFrom(next.1, terms[i + 1..]);
        assert tail.Some? ==> operations + ([next.0] + tail.value) == (operations + [next.0]) + tail.value;
        operations := operations + [next.0];
        vars := next.1;
    }
    assert terms[|terms|..] == [] && operations + [] == operations;
    plan := Some(operations);
    PlanIsSuiting(terms, plan);
  }

  // ---- plans for basic graph patterns ----

  ghost function VarSet(t: Term): set<Var>
    requires t.path != []
  {
    set v | v in Variables(t)
  }

  ghost function VarsOf(terms: seq<Term>): set<Var>
    requires ProperTerms(terms)
  {
    set t, v | t in terms && v in Variables(t) :: v
  }

  lemma VarsOfMore(terms: seq<Term>, t: Term)
    requires ProperTerms(terms) && t.path != []
    ensures VarsOf(terms + [t]) == VarsOf(terms) + VarSet(t)
  {
    assert forall u :: u in terms + [t] <==> u in terms || u == t;
  }

  /** A term with a constant predicate that the executor handles exactly: one variable,
      resolved already unless this is the first term; or two, exactly one resolved. */
  ghost predicate ReadyTerm(resolved: set<Var>, t: Term) {
    && t.path != [] && !IsVariable(t.path[0].pred)
    && var vs := Variables(t);
       || (|vs| == 1 && (resolved == {} || vs[0] in resolved))
       || (|vs| == 2 && vs[0] != vs[1] && (vs[0] in resolved <==> vs[1] !in resolved))
  }

  ghost predicate Ordered(terms: seq<Term>) {
    ProperTerms(terms) && forall i :: 0 <= i < |terms| ==> ReadyTerm(VarsOf(terms[..i]), terms[i])
  }

  /** The operator such a term gets. */
  function OpFor(resolved: set<Var>, t: Term): Op
    requires t.path != []
  {
    if IsVariable(t.subj) && IsVariable(t.obj) then
      if VarOf(t.obj) in resolved then ResolveSubjectFromVarObject(t) else ResolveObjectFromVarSubject(t)
    else if IsVariable(t.subj) then ResolveSubject(t)
    else ResolveObject(t)
  }

  lemma PlanReadyTerm(vars: Links, t: Term)
    requires ReadyTerm(vars.Keys, t)
    ensures PlanTerm(vars, t).Some?
    ensures PlanTerm(vars, t).value.0 == OpFor(vars.Keys, t)
    ensures PlanTerm(vars, t).value.1.Keys == vars.Keys + VarSet(t)
  {
  }

  /** The planner gives every term of an ordered query its operator: no filter, cross
      product or variable-predicate operator appears. */
  lemma {:induction false} PlanOrdered(vars: Links, terms: seq<Term>, i: nat)
    requires Ordered(terms) && i <= |terms| && vars.Keys == VarsOf(terms[..i])
    ensures PlanFrom(vars, terms[i..]).Some?
    ensures var ops := PlanFrom(vars, terms[i..]).value;
            |ops| == |terms| - i &&
            forall j :: i <= j < |terms| ==> ops[j - i] == OpFor(VarsOf(terms[..j]), terms[j])
    decreases |terms| - i
  {
    hide PlanTerm, ReadyTerm, OpFor, VarsOf, VarSet, Variables;
    if i < |terms| {
      PlanReadyTerm(vars, terms[i]);
      assert terms[..i + 1] == terms[..i] + [terms[i]];
      VarsOfMore(terms[..i], terms[i]);
      assert terms[i..][1..] == terms[i + 1..];
      PlanOrdered(PlanTerm(vars, terms[i]).value.1, terms, i + 1);
    }
  }

  /** A finished dependency order is ordered in this sense when it starts with a
      one-variable term, its predicates are constants, its two-variable terms have two
      different variables, and none of them closes a cycle over resolved variables. */
  lemma ChainedIsOrdered(plan: seq<Term>)
    requires ProperTerms(plan) && plan != [] && ChainedFrom(plan, 0) && |Variables(plan[0])| == 1
    requires forall t :: t in plan ==> !IsVariable(t.path[0].pred)
    requires forall t :: t in plan && |Variables(t)| == 2 ==> Variables(t)[0] != Variables(t)[1]
    requires forall i :: 0 <= i < |plan| && |Variables(plan[i])| == 2 ==>
               Variables(plan[i])[0] !in VarsOf(plan[..i]) || Variables(plan[i])[1] !in VarsOf(plan[..i])
    ensures Ordered(plan)
  {
    forall i | 0 <= i < |plan|
      ensures ReadyTerm(VarsOf(plan[..i]), plan[i])
    {
      if i > 0 {
        assert Share(plan[i], plan[i - 1]);
        var v :| v in Variables(plan[i]) && v in Variables(plan[i - 1]);
        assert plan[..i][i - 1] == plan[i - 1];
        assert v in VarsOf(plan[..i]);
      }
    }
  }

  // ---- which variables the planner takes for resolved ----

  lemma SuitedPlaces(resolved: set<Var>, below: set<Var>, t: Term, op: Op)
    requires t.path != [] && !IsVariable(t.path[0].pred) && Suits(resolved, below, t, op)
    requires exists v :: v in VarSet(t) && (v in resolved || |Variables(t)| == 1)
    ensures !op.ResolveSubjectObjectFromPred? && resolved + Places(op) == resolved + VarSet(t)
  {
  }

  /** A chained order that starts with a one-variable term and has constant predicates. */
  ghost predicate PlainChain(plan: seq<Term>) {
    && ProperTerms(plan) && plan != [] && ChainedFrom(plan, 0) && |Variables(plan[0])| == 1
    && forall t :: t in plan ==> !IsVariable(t.path[0].pred)
  }

  lemma ChainStep(plan: seq<Term>, ops: seq<Op>, i: nat)
    requires PlainChain(plan) && AllSuit([], plan, ops) && i < |plan|
    ensures |ops| == |plan| && ProperOps(ops[..i]) && ProperTerms(plan[..i])
    ensures plan[i].path != [] && ops[i].term.path != []
    ensures Suits(PlacedBy(ops[..i]), BelowBy(ops[..i]), plan[i], ops[i])
    ensures PlacedAlike(plan, ops, i) ==>
              && !ops[i].ResolveSubjectObjectFromPred?
              && PlacedBy(ops[..i]) + Places(ops[i]) == VarsOf(plan[..i]) + VarSet(plan[i])
  {
    SuitsAt(plan, ops, i);
    ChainedReaches(plan, i);
    assert plan[i] in plan;
    hide Suits, Places, PlacesOnTop, Variables, AllSuit, ChainedFrom, PlacedBy, BelowBy, VarsOf, VarSet;
    if PlacedBy(ops[..i]) == VarsOf(plan[..i]) {
      SuitedPlaces(PlacedBy(ops[..i]), BelowBy(ops[..i]), plan[i], ops[i]);
    }
  }

  /** The variables placed by the first operators are those of the first terms. */
  ghost predicate PlacedAlike(plan: seq<Term>, ops: seq<Op>, i: nat) {
    && i <= |plan| && i <= |ops| && ProperOps(ops[..i]) && ProperTerms(plan[..i])
    && PlacedBy(ops[..i]) == VarsOf(plan[..i])
  }

  /** In such an order the planner takes exactly the variables of earlier terms for resolved. */
  lemma {:induction false} ChainedIsPlaced(plan: seq<Term>, ops: seq<Op>, i: nat)
    requires PlainChain(plan) && AllSuit([], plan, ops) && i <= |plan|
    ensures PlacedAlike(plan, ops, i)
    decreases i
  {
    hide *;
    if i > 0 {
      ChainedIsPlaced(plan, ops, i - 1);
      ChainStep(plan, ops, i - 1);
      OnePlacedMore(plan, ops, i - 1);
    } else {
      NothingPlaced(plan, ops);
    }
  }

  lemma OnePlacedMore(plan: seq<Term>, ops: seq<Op>, i: nat)
    requires i < |plan| == |ops| && PlacedAlike(plan, ops, i)
    requires plan[i].path != [] && ops[i].term.path != []
    requires PlacedBy(ops[..i]) + Places(ops[i]) == VarsOf(plan[..i]) + VarSet(plan[i])
    ensures PlacedAlike(plan, ops, i + 1)
  {
    hide PlacedBy, Places, VarsOf, VarSet;
    assert plan[..i + 1] == plan[..i] + [plan[i]] && ops[..i + 1] == ops[..i] + [ops[i]];
    PlacedMore(ops[..i], ops[i]);
    VarsOfMore(plan[..i], plan[i]);
  }

  lemma NothingPlaced(plan: seq<Term>, ops: seq<Op>)
    ensures PlacedAlike(plan, ops, 0)
  {
    assert plan[..0] == [] && ops[..0] == [];
  }

  /** So it filters exactly the terms with both ends among them, and never scans a predicate. */
  lemma ChainedFilters(plan: seq<Term>, ops: seq<Op>, i: nat)
    requires PlainChain(plan) && AllSuit([], plan, ops) && i < |plan|
    ensures ProperTerms(plan[..i]) && !ops[i].ResolveSubjectObjectFromPred?
    ensures ops[i].RestrictSubjectObjectByPredicate? <==>
              && IsVariable(plan[i].subj) && VarOf(plan[i].subj) in VarsOf(plan[..i])
              && IsVariable(plan[i].obj) && VarOf(plan[i].obj) in VarsOf(plan[..i])
  {
    ChainedIsPlaced(plan, ops, i);
    ChainStep(plan, ops, i);
    assert plan[i] in plan;
    hide AllSuit, ChainedFrom, Places, PlacesOnTop, PlacedBy, BelowBy, VarsOf, VarSet, Variables;
  }

  /** What a term mentions and its operator does not place: a scan its subject, the operators
      of three variables everything. */
  ghost function LeftBehind(op: Op): set<Var>
    requires op.term.path != []
  {
    VarSet(op.term) - Places(op)
  }

  lemma PlacesOwn(placed: set<Var>, below: set<Var>, t: Term, op: Op)
    requires t.path != [] && Suits(placed, below, t, op)
    ensures op.term == t && Places(op) <= VarSet(t)
  {
    assert forall v :: v in Variables(t) <==> v in VarSet(t);
  }

  lemma OwnPlaces(plan: seq<Term>, ops: seq<Op>, i: nat)
    requires ProperTerms(plan) && AllSuit([], plan, ops) && i < |plan|
    ensures ops[i].term == plan[i] && plan[i].path != [] && Places(ops[i]) <= VarSet(plan[i])
  {
    SuitsAt(plan, ops, i);
    PlacesOwn(PlacedBy(ops[..i]), BelowBy(ops[..i]), plan[i], ops[i]);
  }

  /** The planner never takes a variable for resolved that no earlier term has, and it takes
      all of theirs exactly if each variable that one of them leaves behind is placed by
      another. */
  lemma PlacedIff(plan: seq<Term>, ops: seq<Op>, i: nat)
    requires ProperTerms(plan) && AllSuit([], plan, ops) && i <= |plan|
    ensures |ops| == |plan| && ProperOps(ops[..i]) && ProperTerms(plan[..i])
    ensures PlacedBy(ops[..i]) <= VarsOf(plan[..i])
    ensures PlacedBy(ops[..i]) == VarsOf(plan[..i]) <==>
              forall op :: op in ops[..i] ==> LeftBehind(op) <= PlacedBy(ops[..i])
  {
    forall j | 0 <= j < i
      ensures ops[j].term == plan[j] && plan[j].path != [] && Places(ops[j]) <= VarSet(plan[j])
      ensures ops[j] in ops[..i] && plan[j] in plan[..i]
    {
      OwnPlaces(plan, ops, j);
      assert ops[..i][j] == ops[j] && plan[..i][j] == plan[j];
    }
    hide Places, Variables, AllSuit;
    forall v | v in VarsOf(plan[..i]) && forall op :: op in ops[..i] ==> LeftBehind(op) <= PlacedBy(ops[..i])
      ensures v in PlacedBy(ops[..i])
    {
      var t :| t in plan[..i] && v in Variables(t);
      var j :| 0 <= j < i && plan[j] == t;
      assert v in LeftBehind(ops[j]) || v in Places(ops[j]);
    }
  }

  lemma SuitsAt(terms: seq<Term>, ops: seq<Op>, i: nat)
    requires ProperTerms(terms) && AllSuit([], terms, ops) && i < |terms|
    ensures terms[i].path != [] && ops[i].term.path != [] && ProperOps(ops[..i])
    ensures Suits(PlacedBy(ops[..i]), BelowBy(ops[..i]), terms[i], ops[i])
  {
    hide Suits, PlacedBy, BelowBy;
    assert [] + ops[..i] == ops[..i];
    assert terms[i] in terms && ops[i] in ops;
  }

  /** Every term of such an order has a variable of an earlier term, except the first. */
  lemma ChainedReaches(plan: seq<Term>, i: nat)
    requires ProperTerms(plan) && i < |plan| && ChainedFrom(plan, 0) && |Variables(plan[0])| == 1
    ensures plan[i].path != [] && ProperTerms(plan[..i])
    ensures exists v :: v in VarSet(plan[i]) && (v in VarsOf(plan[..i]) || |Variables(plan[i])| == 1)
  {
    if i == 0 {
      assert Variables(plan[0])[0] in VarSet(plan[0]);
    } else {
      assert Share(plan[i], plan[i - 1]);
      var v :| v in Variables(plan[i]) && v in Variables(plan[i - 1]);
      assert plan[..i][i - 1] == plan[i - 1];
      assert v in VarSet(plan[i]) && v in VarsOf(plan[..i]);
    }
  }

  /** Otherwise a scan leaves the subject of its term unresolved, so that a second term with
      the same subject is scanned again. */
  lemma ScanForgets()
    ensures var terms := [Term(A, [STEP], B), Term(A, [STEP], C)];
            && ProperTerms(terms)
            && PlanFrom(map[], terms) ==
               Some([ResolveSubjectObjectFromPred(terms[0]), ResolveSubjectObjectFromPred(terms[1])])
            && Share(terms[0], terms[1])
  {
    var terms := [Term(A, [STEP], B), Term(A, [STEP], C)];
    assert A.value[0] == B.value[0] == C.value[0] == '?' && STEP.pred.value[0] != '?';
    assert IsVariable(A) && IsVariable(B) && IsVariable(C) && !IsVariable(STEP.pred);
    StuckNamesDiffer();
    assert VarOf(A) in Variables(terms[0]) && VarOf(A) in Variables(terms[1]);
    var vars := map[VarOf(B) := Child(VarOf(A))];
    assert PlanTerm(map[], terms[0]) == Some((ResolveSubjectObjectFromPred(terms[0]), vars));
    assert PlanTerm(vars, terms[1]).value.0 == ResolveSubjectObjectFromPred(terms[1]);
    hide PlanTerm, VarOf, Variables;
    assert terms[1..] == [terms[1]] && [terms[1]][1..] == [];
    var first, second := ResolveSubjectObjectFromPred(terms[0]), ResolveSubjectObjectFromPred(terms[1]);
    PlanFromStep(vars, [terms[1]], []);
    assert [second] + [] == [second] && [first] + [second] == [first, second];
    PlanFromStep(map[], terms, [second]);
  }

  lemma PlanFromStep(vars: Links, terms: seq<Term>, ops: seq<Op>)
    requires ProperTerms(terms) && terms != [] && PlanTerm(vars, terms[0]).Some?
    requires PlanFrom(PlanTerm(vars, terms[0]).value.1, terms[1..]) == Some(ops)
    ensures PlanFrom(vars, terms) == Some([PlanTerm(vars, terms[0]).value.0] + ops)
  {
    hide PlanTerm;
  }
}
