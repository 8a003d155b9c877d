/** Graph groups with unions and their expansion into conjunctions (lang/ast/ast.go), with
    the meaning of group and Union patterns (SPARQL 1.1 Query Language, section 18.5). */
module Unions {
  import opened Keys
  import opened Planner

  datatype GraphGroup = GraphGroup(terms: seq<Term>, unions: seq<GraphGroup>)

  // ---- meaning ----

  /** All triples of a list hold. */
  ghost predicate AllHold(holds: iset<Term>, terms: seq<Term>) {
    forall t :: t in terms ==> t in holds
  }

  /** A group holds when its own triples do and, if it has unions, one of them does. */
  ghost predicate Holds(holds: iset<Term>, grp: GraphGroup) {
    AllHold(holds, grp.terms) && (grp.unions == [] || exists i :: 0 <= i < |grp.unions| && Holds(holds, grp.unions[i]))
  }

  ghost predicate SomeHolds(holds: iset<Term>, branches: seq<seq<Term>>) {
    exists i :: 0 <= i < |branches| && AllHold(holds, branches[i])
  }

  // ---- expansion ----

  ghost function Prefixed(terms: seq<Term>, branches: seq<seq<Term>>): (r: seq<seq<Term>>)
    ensures |r| == |branches|
  {
    seq(|branches|, i requires 0 <= i < |branches| => terms + branches[i])
  }

  ghost function Branches(grp: GraphGroup): seq<seq<Term>>
    decreases grp, |grp.unions| + 1
  {
    if grp.unions == [] then [grp.terms] else Prefixed(grp.terms, UnionBranches(grp, 0))
  }

  /** The branches of the unions from number `i` on, in order. */
  ghost function UnionBranches(grp: GraphGroup, i: nat): seq<seq<Term>>
    requires i <= |grp.unions|
    decreases grp, |grp.unions| - i
  {
    if i == |grp.unions| then [] else Branches(grp.unions[i]) + UnionBranches(grp, i + 1)
  }

  lemma PrefixedSplit(terms: seq<Term>, a: seq<seq<Term>>, b: seq<seq<Term>>)
    ensures Prefixed(terms, a + b) == Prefixed(terms, a) + Prefixed(terms, b)
  {
  }

  /** `GraphGroup.Expand`. */
  method Expand(grp: GraphGroup) returns (groups: seq<seq<Term>>)
    ensures groups == Branches(grp)
    decreases grp
  {
    hide Prefixed;
    groups := [];
    if |grp.unions| > 0 {
      for i := 0 to |grp.unions|
        invariant groups + Prefixed(grp.terms, UnionBranches(grp, i)) == Branches(grp)
      {
        var subgroups := Expand(grp.unions[i]);
        var prefixed := PrefixEach(grp.terms, subgroups);
        PrefixedSplit(grp.terms, subgroups, UnionBranches(grp, i + 1));
        groups := groups + prefixed;
      }
    } else {
      groups := groups + [grp.terms];
    }
  }

  /** The inner loop of `Expand`. */
  method PrefixEach(terms: seq<Term>, subgroups: seq<seq<Term>>) returns (groups: seq<seq<Term>>)
    ensures groups == Prefixed(terms, subgroups)
  {
    groups := [];
    for i := 0 to |subgroups|
      invariant groups == Prefixed(terms, subgroups)[..i]
    {
      groups := groups + [terms + subgroups[i]];
    }
  }

  lemma SomeHoldsSplit(holds: iset<Term>, a: seq<seq<Term>>, b: seq<seq<Term>>)
    ensures SomeHolds(holds, a + b) <==> SomeHolds(holds, a) || SomeHolds(holds, b)
  {
    if i :| 0 <= i < |a| && AllHold(holds, a[i]) {
      assert (a + b)[i] == a[i];
    }
    if i :| 0 <= i < |b| && AllHold(holds, b[i]) {
      assert (a + b)[|a| + i] == b[i];
    }
  }

  lemma AllHoldSplit(holds: iset<Term>, a: seq<Term>, b: seq<Term>)
    ensures AllHold(holds, a + b) <==> AllHold(holds, a) && AllHold(holds, b)
  {
    assert forall t :: t in a + b <==> t in a || t in b;
  }

  lemma SomePrefixedHolds(holds: iset<Term>, terms: seq<Term>, branches: seq<seq<Term>>)
    ensures SomeHolds(holds, Prefixed(terms, branches)) <==> AllHold(holds, terms) && SomeHolds(holds, branches)
  {
    hide AllHold;
    forall i | 0 <= i < |branches|
      ensures AllHold(holds, Prefixed(terms, branches)[i]) <==> AllHold(holds, terms) && AllHold(holds, branches[i])
    {
      AllHoldSplit(holds, terms, branches[i]);
    }
  }

  /** Expansion preserves meaning: a group holds exactly when all triples of one of its
      branches hold. There is always at least one branch. */
  lemma {:induction false} ExpandMeaning(holds: iset<Term>, grp: GraphGroup)
    ensures Branches(grp) != []
    ensures Holds(holds, grp) <==> SomeHolds(holds, Branches(grp))
    decreases grp, |grp.unions| + 1
  {
    if grp.unions == [] {
      assert Branches(grp)[0] == grp.terms;
    } else {
      UnionsMeaning(holds, grp, 0);
      SomePrefixedHolds(holds, grp.terms, UnionBranches(grp, 0));
    }
  }

  lemma {:induction false} UnionsMeaning(holds: iset<Term>, grp: GraphGroup, i: nat)
    requires i <= |grp.unions|
    ensures i < |grp.unions| ==> UnionBranches(grp, i) != []
    ensures (exists j :: i <= j < |grp.unions| && Holds(holds, grp.unions[j])) <==>
              SomeHolds(holds, UnionBranches(grp, i))
    decreases grp, |grp.unions| - i
  {
    if i < |grp.unions| {
      ExpandMeaning(holds, grp.unions[i]);
      UnionsMeaning(holds, grp, i + 1);
      SomeHoldsSplit(holds, Branches(grp.unions[i]), UnionBranches(grp, i + 1));
    }
  }

  // ---- one branch for each way to choose ----

  /** A way to choose one union at every level of a group. */
  ghost predicate Chooses(grp: GraphGroup, path: seq<nat>)
    decreases |path|
  {
    if grp.unions == [] then path == []
    else path != [] && path[0] < |grp.unions| && Chooses(grp.unions[path[0]], path[1..])
  }

  /** The triples met on the way. */
  ghost function Along(grp: GraphGroup, path: seq<nat>): seq<Term>
    requires Chooses(grp, path)
    decreases |path|
  {
    if grp.unions == [] then grp.terms else grp.terms + Along(grp.unions[path[0]], path[1..])
  }

  /** The branches are those of these ways, in the same order. */
  ghost predicate OneEach(grp: GraphGroup, branches: seq<seq<Term>>, ways: seq<seq<nat>>) {
    && |ways| == |branches|
    && (forall i, j :: 0 <= i < j < |ways| ==> ways[i] != ways[j])
    && forall i :: 0 <= i < |ways| ==> Chooses(grp, ways[i]) && branches[i] == Along(grp, ways[i])
  }

  /** The same for the unions from number `k` on. */
  ghost predicate OneEachFrom(grp: GraphGroup, k: nat, branches: seq<seq<Term>>, ways: seq<seq<nat>>) {
    && |ways| == |branches|
    && (forall i, j :: 0 <= i < j < |ways| ==> ways[i] != ways[j])
    && forall i :: 0 <= i < |ways| ==>
         && ways[i] != [] && k <= ways[i][0] < |grp.unions| && Chooses(grp.unions[ways[i][0]], ways[i][1..])
         && branches[i] == Along(grp.unions[ways[i][0]], ways[i][1..])
  }

  ghost function WithFirst(k: nat, ways: seq<seq<nat>>): seq<seq<nat>> {
    seq(|ways|, i requires 0 <= i < |ways| => [k] + ways[i])
  }

  lemma OneUnionMore(grp: GraphGroup, k: nat, here: seq<seq<Term>>, first: seq<seq<nat>>, later: seq<seq<Term>>,
                     rest: seq<seq<nat>>)
    requires k < |grp.unions| && OneEach(grp.unions[k], here, first) && OneEachFrom(grp, k + 1, later, rest)
    ensures OneEachFrom(grp, k, here + later, WithFirst(k, first) + rest)
  {
    hide Chooses, Along;
    var ways := WithFirst(k, first) + rest;
    forall i | 0 <= i < |ways|
      ensures ways[i] != [] && k <= ways[i][0] < |grp.unions| && Chooses(grp.unions[ways[i][0]], ways[i][1..])
      ensures (here + later)[i] == Along(grp.unions[ways[i][0]], ways[i][1..])
      ensures i < |first| <==> ways[i][0] == k
    {
      if i < |first| {
        assert ways[i][1..] == first[i];
      } else {
        assert ways[i] == rest[i - |first|];
      }
    }
    forall i, j | 0 <= i < j < |ways|
      ensures ways[i] != ways[j]
    {
      if j < |first| {
        assert ways[i][1..] == first[i] && ways[j][1..] == first[j];
      }
    }
  }

  lemma ChosenFirst(grp: GraphGroup, k: nat, first: seq<seq<nat>>, rest: seq<seq<nat>>, path: seq<nat>)
    requires path != [] && path[0] == k && path[1..] in first
    ensures path in WithFirst(k, first) + rest
  {
    var i :| 0 <= i < |first| && first[i] == path[1..];
    assert (WithFirst(k, first) + rest)[i] == path;
  }

  /** Expansion yields one branch for each way to choose, so no way is missed and none comes
      twice, whatever branches have the same triples. */
  lemma {:induction false} BranchesAreWays(grp: GraphGroup) returns (ways: seq<seq<nat>>)
    ensures OneEach(grp, Branches(grp), ways) && forall path :: Chooses(grp, path) ==> path in ways
    decreases grp, |grp.unions| + 1
  {
    if grp.unions == [] {
      ways := [[]];
    } else {
      ways := UnionsAreWays(grp, 0);
    }
  }

  lemma {:induction false} UnionsAreWays(grp: GraphGroup, k: nat) returns (ways: seq<seq<nat>>)
    requires k <= |grp.unions|
    ensures OneEachFrom(grp, k, UnionBranches(grp, k), ways)
    ensures forall path :: path != [] && k <= path[0] < |grp.unions| && Chooses(grp.unions[path[0]], path[1..]) ==>
                             path in ways
    decreases grp, |grp.unions| - k
  {
    if k == |grp.unions| {
      ways := [];
    } else {
      var first := BranchesAreWays(grp.unions[k]);
      var rest := UnionsAreWays(grp, k + 1);
      OneUnionMore(grp, k, Branches(grp.unions[k]), first, UnionBranches(grp, k + 1), rest);
      ways := WithFirst(k, first) + rest;
      hide Chooses, OneEach, OneEachFrom;
      forall path | path != [] && k <= path[0] < |grp.unions| && Chooses(grp.unions[path[0]], path[1..])
        ensures path in ways
      {
        if path[0] == k {
          ChosenFirst(grp, k, first, rest, path);
        }
      }
    }
  }

  /** The branches a query runs: its WHERE terms before each branch of its group; none
      without a group. */
  method ElaborateBranches(terms: seq<Term>, group: Option<GraphGroup>) returns (ors: seq<seq<Term>>)
    ensures ors == if group.Some? then Prefixed(terms, Branches(group.value)) else []
    ensures group.None? <==> ors == []
    ensures group.Some? ==> forall holds :: SomeHolds(holds, ors) <==>
              AllHold(holds, terms) && Holds(holds, group.value)
  {
    ors := [];
    if group.Some? {
      var groups := Expand(group.value);
      ors := PrefixEach(terms, groups);
      ExpandMeaning(iset{}, group.value);
      forall holds
        ensures SomeHolds(holds, ors) <==> AllHold(holds, terms) && Holds(holds, group.value)
      {
        ExpandMeaning(holds, group.value);
        SomePrefixedHolds(holds, terms, groups);
      }
    }
  }

  // ---- the builders ----

  function GraphGroupFromTriples(triples: seq<Term>): GraphGroup {
    GraphGroup(triples, [])
  }

  function GraphGroupUnion(left: GraphGroup, right: GraphGroup): GraphGroup {
    GraphGroup([], [left, right])
  }

  function AddTriplesToGraphGroup(left: GraphGroup, triples: seq<Term>): GraphGroup {
    GraphGroup(left.terms + triples, left.unions)
  }

  function MergeGraphGroups(left: GraphGroup, right: GraphGroup): GraphGroup {
    GraphGroup(left.terms + right.terms, left.unions + right.unions)
  }

  /** Union builds a disjunction, adding triples a conjunction. */
  lemma BuildersMean(holds: iset<Term>, left: GraphGroup, right: GraphGroup, triples: seq<Term>)
    ensures Holds(holds, GraphGroupFromTriples(triples)) <==> AllHold(holds, triples)
    ensures Holds(holds, GraphGroupUnion(left, right)) <==> Holds(holds, left) || Holds(holds, right)
    ensures Holds(holds, AddTriplesToGraphGroup(left, triples)) <==> Holds(holds, left) && AllHold(holds, triples)
  {
    var union := GraphGroupUnion(left, right);
    assert union.unions[0] == left && union.unions[1] == right;
    AllHoldSplit(holds, left.terms, triples);
  }

  ghost predicate SomeUnionHolds(holds: iset<Term>, unions: seq<GraphGroup>) {
    exists i :: 0 <= i < |unions| && Holds(holds, unions[i])
  }

  lemma SomeUnionSplit(holds: iset<Term>, a: seq<GraphGroup>, b: seq<GraphGroup>)
    ensures SomeUnionHolds(holds, a + b) <==> SomeUnionHolds(holds, a) || SomeUnionHolds(holds, b)
  {
    if i :| 0 <= i < |a| && Holds(holds, a[i]) {
      assert (a + b)[i] == a[i];
    }
    if i :| 0 <= i < |b| && Holds(holds, b[i]) {
      assert (a + b)[|a| + i] == b[i];
    }
  }

  lemma MergedHolds(holds: iset<Term>, left: GraphGroup, right: GraphGroup)
    ensures Holds(holds, MergeGraphGroups(left, right)) <==>
              && AllHold(holds, left.terms) && AllHold(holds, right.terms)
              && (left.unions + right.unions == []
                  || SomeUnionHolds(holds, left.unions) || SomeUnionHolds(holds, right.unions))
  {
    AllHoldSplit(holds, left.terms, right.terms);
    SomeUnionSplit(holds, left.unions, right.unions);
    var merged := MergeGraphGroups(left, right);
    assert SomeUnionHolds(holds, merged.unions) <==>
           exists i :: 0 <= i < |merged.unions| && Holds(holds, merged.unions[i]);
  }

  /** Merging keeps at least the conjunction, and is the conjunction when at most one
      side has unions. */
  lemma MergeIsConjunction(holds: iset<Term>, left: GraphGroup, right: GraphGroup)
    ensures Holds(holds, left) && Holds(holds, right) ==> Holds(holds, MergeGraphGroups(left, right))
    ensures left.unions == [] || right.unions == [] ==>
              (Holds(holds, MergeGraphGroups(left, right)) <==> Holds(holds, left) && Holds(holds, right))
  {
    MergedHolds(holds, left, right);
    assert Holds(holds, left) <==>
             AllHold(holds, left.terms) && (left.unions == [] || SomeUnionHolds(holds, left.unions));
    assert Holds(holds, right) <==>
             AllHold(holds, right.terms) && (right.unions == [] || SomeUnionHolds(holds, right.unions));
  }

  /** The merged group means both groups, whatever triples hold. */
  ghost predicate MergesFaithfully(left: GraphGroup, right: GraphGroup) {
    forall holds :: Holds(holds, MergeGraphGroups(left, right)) <==> (Holds(holds, left) && Holds(holds, right))
  }

  /** Every branch of either side's unions, together with both sides' own triples,
      contains a branch of the other side's unions. */
  ghost predicate UnionsCovered(left: GraphGroup, right: GraphGroup) {
    || left.unions == [] || right.unions == []
    || (&& (forall b :: b in UnionBranches(left, 0) ==> Contains(left.terms + right.terms + b, UnionBranches(right, 0)))
        && (forall b :: b in UnionBranches(right, 0) ==>
              Contains(left.terms + right.terms + b, UnionBranches(left, 0))))
  }

  /** Merging is the conjunction exactly when at most one side has unions or the branches
      of each side's unions cover those of the other. */
  lemma MergeIffCovered(left: GraphGroup, right: GraphGroup)
    ensures MergesFaithfully(left, right) <==> UnionsCovered(left, right)
  {
    hide Holds, MergeGraphGroups, UnionBranches;
    if UnionsCovered(left, right) {
      forall holds
        ensures Holds(holds, MergeGraphGroups(left, right)) <==> (Holds(holds, left) && Holds(holds, right))
      {
        CoveredHolds(holds, left, right);
      }
    }
    if MergesFaithfully(left, right) && left.unions != [] && right.unions != [] {
      forall b | b in UnionBranches(left, 0)
        ensures Contains(left.terms + right.terms + b, UnionBranches(right, 0))
      {
        FaithfulCovers(b, left, right);
      }
      forall b | b in UnionBranches(right, 0)
        ensures Contains(left.terms + right.terms + b, UnionBranches(left, 0))
      {
        FaithfulCovers(b, left, right);
      }
    }
  }

  /** A group in terms of its union branches. */
  lemma GroupHolds(holds: iset<Term>, grp: GraphGroup)
    ensures SomeUnionHolds(holds, grp.unions) <==> SomeHolds(holds, UnionBranches(grp, 0))
    ensures Holds(holds, grp) <==>
              AllHold(holds, grp.terms) && (grp.unions == [] || SomeHolds(holds, UnionBranches(grp, 0)))
  {
    UnionsMeaning(holds, grp, 0);
  }

  lemma CoveredHolds(holds: iset<Term>, left: GraphGroup, right: GraphGroup)
    requires UnionsCovered(left, right)
    ensures Holds(holds, MergeGraphGroups(left, right)) <==> (Holds(holds, left) && Holds(holds, right))
  {
    hide Holds, MergeGraphGroups, UnionBranches;
    MergeIsConjunction(holds, left, right);
    if Holds(holds, MergeGraphGroups(left, right)) && left.unions != [] && right.unions != [] {
      MergedHolds(holds, left, right);
      GroupHolds(holds, left);
      GroupHolds(holds, right);
      var base := left.terms + right.terms;
      AllHoldSplit(holds, left.terms, right.terms);
      if i :| 0 <= i < |UnionBranches(left, 0)| && AllHold(holds, UnionBranches(left, 0)[i]) {
        ContainedHolds(holds, base, UnionBranches(left, 0)[i], UnionBranches(right, 0));
      }
      if i :| 0 <= i < |UnionBranches(right, 0)| && AllHold(holds, UnionBranches(right, 0)[i]) {
        ContainedHolds(holds, base, UnionBranches(right, 0)[i], UnionBranches(left, 0));
      }
    }
  }

  lemma FaithfulCovers(b: seq<Term>, left: GraphGroup, right: GraphGroup)
    requires MergesFaithfully(left, right) && left.unions != [] && right.unions != []
    requires b in UnionBranches(left, 0) || b in UnionBranches(right, 0)
    ensures Contains(left.terms + right.terms + b, UnionBranches(left, 0))
    ensures Contains(left.terms + right.terms + b, UnionBranches(right, 0))
  {
    hide Holds, MergeGraphGroups, UnionBranches;
    var base := left.terms + right.terms;
    var holds := TriplesOf(base + b);
    AllHoldSplit(holds, base, b);
    AllHoldSplit(holds, left.terms, right.terms);
    assert AllHold(holds, base + b);
    GroupHolds(holds, left);
    GroupHolds(holds, right);
    MergedHolds(holds, left, right);
    assert Holds(holds, MergeGraphGroups(left, right));
  }

  ghost function TriplesOf(b: seq<Term>): iset<Term> {
    iset t | t in b
  }

  /** Some branch has all its triples in the list. */
  ghost predicate Contains(b: seq<Term>, branches: seq<seq<Term>>) {
    SomeHolds(TriplesOf(b), branches)
  }

  lemma ContainedHolds(holds: iset<Term>, base: seq<Term>, b: seq<Term>, branches: seq<seq<Term>>)
    requires AllHold(holds, base) && AllHold(holds, b) && Contains(base + b, branches)
    ensures SomeHolds(holds, branches)
  {
    AllHoldSplit(holds, base, b);
  }

  /** Two groups with unions whose merge is not their conjunction: `{a} UNION {b}` merged
      with `{c} UNION {d}` already holds when only `a` does. */
  lemma MergeLosesUnions(a: Term, b: Term, c: Term, d: Term)
    requires a != c && a != d
    ensures var left := GraphGroupUnion(GraphGroupFromTriples([a]), GraphGroupFromTriples([b]));
            var right := GraphGroupUnion(GraphGroupFromTriples([c]), GraphGroupFromTriples([d]));
            Holds(iset{a}, MergeGraphGroups(left, right)) && !Holds(iset{a}, right)
  {
    var holds := iset{a};
    var left := GraphGroupUnion(GraphGroupFromTriples([a]), GraphGroupFromTriples([b]));
    var right := GraphGroupUnion(GraphGroupFromTriples([c]), GraphGroupFromTriples([d]));
    BuildersMean(holds, GraphGroupFromTriples([a]), GraphGroupFromTriples([b]), [a]);
    BuildersMean(holds, GraphGroupFromTriples([c]), GraphGroupFromTriples([d]), [c]);
    BuildersMean(holds, GraphGroupFromTriples([c]), GraphGroupFromTriples([d]), [d]);
    assert c in [c] && d in [d];
    MergedHolds(holds, left, right);
    assert SomeUnionHolds(holds, left.unions) by {
      assert left.unions[0] == GraphGroupFromTriples([a]);
    }
  }
}
