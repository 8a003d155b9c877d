/** What the index join means: the natural join of solution mappings (SPARQL 1.1 Query
    Language, section 18.5), and exactly when it means that. */
module Joins {
  import opened Keys
  import opened Rows
  import opened Relations

  type Assignment = map<Var, Key>

  /** A row as a mapping of the variables in `dom`. */
  function Assign(row: seq<Byte>, vars: map<Var, nat>, dom: set<Var>): (mu: Assignment)
    requires dom <= vars.Keys
    ensures mu.Keys == dom
  {
    map v | v in dom :: ValueAt(row, vars[v])
  }

  ghost predicate InRows(rows: seq<seq<Byte>>, vars: map<Var, nat>, dom: set<Var>, mu: Assignment)
    requires dom <= vars.Keys
  {
    exists i :: 0 <= i < |rows| && Assign(rows[i], vars, dom) == mu
  }

  ghost predicate NoRepeats(rows: seq<seq<Byte>>, vars: map<Var, nat>, dom: set<Var>)
    requires dom <= vars.Keys
  {
    forall i, j :: 0 <= i < j < |rows| ==> Assign(rows[i], vars, dom) != Assign(rows[j], vars, dom)
  }

  ghost predicate Compatible(mu: Assignment, nu: Assignment) {
    forall v :: v in mu && v in nu ==> mu[v] == nu[v]
  }

  /** The join of two sets of mappings, as a predicate on mappings. */
  ghost predicate Joinable(rows: seq<seq<Byte>>, vars: map<Var, nat>, dom: set<Var>, others: seq<seq<Byte>>,
                           otherVars: map<Var, nat>, mu: Assignment)
    requires dom <= vars.Keys
  {
    exists i, j :: 0 <= i < |rows| && 0 <= j < |others| &&
      var left, right := Assign(rows[i], vars, dom), Assign(others[j], otherVars, otherVars.Keys);
      Compatible(left, right) && mu == left + right
  }

  ghost function Names(on: seq<Var>): set<Var> {
    set v | v in on
  }

  /** The natural join: the result's mappings are exactly the joined mappings. */
  ghost predicate IsNaturalJoin(rows: seq<seq<Byte>>, vars: map<Var, nat>, dom: set<Var>, others: seq<seq<Byte>>,
                                otherVars: map<Var, nat>, result: seq<seq<Byte>>)
    requires dom <= vars.Keys && otherVars.Keys <= vars.Keys
  {
    forall mu :: InRows(result, vars, dom + otherVars.Keys, mu) <==> Joinable(rows, vars, dom, others, otherVars, mu)
  }

  lemma MergedAssigns(newRow: seq<Byte>, inner: seq<Byte>, row: seq<Byte>, vars: map<Var, nat>,
                      otherVars: map<Var, nat>, dom: set<Var>)
    requires Merged(newRow, inner, row, vars, otherVars) && dom <= vars.Keys && otherVars.Keys <= vars.Keys
    ensures Assign(newRow, vars, dom + otherVars.Keys) ==
                Assign(inner, vars, dom) + Assign(row, otherVars, otherVars.Keys)
  {
  }

  lemma AgreeIsCompatible(row: seq<Byte>, vars: map<Var, nat>, other: seq<Byte>, otherVars: map<Var, nat>, on: seq<Var>,
                          dom: set<Var>)
    requires OnKnown(vars, otherVars, on) && dom <= vars.Keys && dom * otherVars.Keys == Names(on)
    ensures Agree(row, vars, other, otherVars, on) <==>
            Compatible(Assign(row, vars, dom), Assign(other, otherVars, otherVars.Keys))
  {
    var left, right := Assign(row, vars, dom), Assign(other, otherVars, otherVars.Keys);
    assert forall v :: v in left && v in right <==> v in Names(on);
  }

  /** When the join variables are exactly the variables bound on both sides, the join is
      the natural join, and it repeats no mapping if neither side does. */
  lemma JoinIsNatural(rows: seq<seq<Byte>>, vars: map<Var, nat>, dom: set<Var>, others: seq<seq<Byte>>,
                      otherVars: map<Var, nat>,
                      on: seq<Var>, result: seq<seq<Byte>>, src: seq<(nat, nat)>)
    requires JoinResult(rows, vars, others, otherVars, on, result, src) && on != []
    requires dom <= vars.Keys && otherVars.Keys <= vars.Keys && dom * otherVars.Keys == Names(on)
    ensures IsNaturalJoin(rows, vars, dom, others, otherVars, result)
    ensures NoRepeats(rows, vars, dom) && NoRepeats(others, otherVars, otherVars.Keys) ==>
              NoRepeats(result, vars, dom + otherVars.Keys)
  {
    var all := dom + otherVars.Keys;
    forall n | 0 <= n < |result|
      ensures var (i, j) := src[n];
              i < |rows| && j < |others| &&
              Assign(result[n], vars, all) ==
                Assign(rows[i], vars, dom) + Assign(others[j], otherVars, otherVars.Keys) &&
              Compatible(Assign(rows[i], vars, dom), Assign(others[j], otherVars, otherVars.Keys))
    {
      var (i, j) := src[n];
      assert (i, j) in src;
      MergedAssigns(result[n], rows[i], others[j], vars, otherVars, dom);
      AgreeIsCompatible(rows[i], vars, others[j], otherVars, on, dom);
    }
    forall mu | Joinable(rows, vars, dom, others, otherVars, mu)
      ensures InRows(result, vars, all, mu)
    {
      var i, j :| 0 <= i < |rows| && 0 <= j < |others| &&
        var left, right := Assign(rows[i], vars, dom), Assign(others[j], otherVars, otherVars.Keys);
        Compatible(left, right) && mu == left + right;
      AgreeIsCompatible(rows[i], vars, others[j], otherVars, on, dom);
      assert IsMatch(rows[i], vars, others, otherVars, on, j);
      assert (i, j) in src;
      var n :| 0 <= n < |src| && src[n] == (i, j);
      assert Assign(result[n], vars, all) == mu;
    }
    if NoRepeats(rows, vars, dom) && NoRepeats(others, otherVars, otherVars.Keys) {
      forall m, n | 0 <= m < n < |result|
        ensures Assign(result[m], vars, all) != Assign(result[n], vars, all)
      {
        SidesDetermine(Assign(rows[src[m].0], vars, dom), Assign(others[src[m].1], otherVars, otherVars.Keys),
                       Assign(rows[src[n].0], vars, dom), Assign(others[src[n].1], otherVars, otherVars.Keys));
      }
    }
  }

  /** Joined mappings that are equal have equal sides. */
  lemma SidesDetermine(l: Assignment, r: Assignment, l': Assignment, r': Assignment)
    requires l.Keys == l'.Keys && r.Keys == r'.Keys && Compatible(l, r) && Compatible(l', r')
    ensures l + r == l' + r' ==> l == l' && r == r'
  {
    if l + r == l' + r' {
      forall v | v in r
        ensures r[v] == r'[v]
      {
        assert (l + r)[v] == r[v] && (l' + r')[v] == r'[v];
      }
      forall v | v in l
        ensures l[v] == l'[v]
      {
        assert (l + r)[v] == l[v] && (l' + r')[v] == l'[v];
      }
    }
  }

  /** The index join of these row lists, whatever pairs it took them from, is natural. */
  ghost predicate JoinsNaturally(vars: map<Var, nat>, dom: set<Var>, otherVars: map<Var, nat>, on: seq<Var>,
                                 rows: seq<seq<Byte>>, others: seq<seq<Byte>>)
    requires dom <= vars.Keys && otherVars.Keys <= vars.Keys
  {
    forall result, src :: JoinResult(rows, vars, others, otherVars, on, result, src) ==>
                          IsNaturalJoin(rows, vars, dom, others, otherVars, result)
  }

  /** No variable of `dom` has the zero key, which stands for unbound. */
  ghost predicate AllBound(rows: seq<seq<Byte>>, vars: map<Var, nat>, dom: set<Var>)
    requires dom <= vars.Keys
  {
    forall i, v :: 0 <= i < |rows| && v in dom ==> ValueAt(rows[i], vars[v]) != EMPTY_KEY
  }

  /** The index join is the natural join on all fully bound data exactly when it joins on
      every shared variable: the value of a shared variable outside `on` is overwritten. */
  lemma NaturalIffOnAllShared(vars: map<Var, nat>, dom: set<Var>, otherVars: map<Var, nat>, on: seq<Var>)
    requires PositionsOk(vars) && PositionsOk(otherVars) && on != []
    requires dom <= vars.Keys && otherVars.Keys <= vars.Keys && Names(on) <= dom * otherVars.Keys
    ensures dom * otherVars.Keys == Names(on) <==>
            forall rows, others :: AllBound(rows, vars, dom) && AllBound(others, otherVars, otherVars.Keys) ==>
              JoinsNaturally(vars, dom, otherVars, on, rows, others)
  {
    hide RowWith, ValueAt, PositionsOk, AllBound;
    if dom * otherVars.Keys == Names(on) {
      forall rows, others
        ensures JoinsNaturally(vars, dom, otherVars, on, rows, others)
      {
        forall result, src | JoinResult(rows, vars, others, otherVars, on, result, src)
          ensures IsNaturalJoin(rows, vars, dom, others, otherVars, result)
        {
          JoinIsNatural(rows, vars, dom, others, otherVars, on, result, src);
        }
      }
    } else {
      var v :| v in dom * otherVars.Keys && v !in Names(on);
      assert forall u :: u in on ==> u in Names(on);
      OverwritesShared(vars, dom, otherVars, on, v);
    }
  }

  const BOUND := EMPTY_KEY.(b0 := 1)
  const CLASH := EMPTY_KEY.(b0 := 2)

  /** A row with the same key in its first `n` positions. */
  function FilledRow(n: nat): seq<Byte> {
    if n == 0 then [] else Put(FilledRow(n - 1), n - 1, BOUND)
  }

  lemma {:induction false} FilledRowAt(n: nat, pos: nat)
    ensures Aligned(FilledRow(n))
    ensures pos < n ==> ValueAt(FilledRow(n), pos) == BOUND && Reaches(FilledRow(n), pos)
  {
    if n > 0 {
      FilledRowAt(n - 1, pos);
      PutAt(FilledRow(n - 1), n - 1, BOUND, pos);
    }
  }

  /** The row that binds all variables, `v` to `w` and the others to the same key. */
  function RowWith(vars: map<Var, nat>, v: Var, w: Key): seq<Byte>
    requires v in vars
  {
    Put(FilledRow(|vars| + 1), vars[v], w)
  }

  lemma RowOf(vars: map<Var, nat>, v: Var, w: Key)
    requires PositionsOk(vars) && v in vars
    ensures Aligned(RowWith(vars, v, w)) && |RowWith(vars, v, w)| == |FilledRow(|vars| + 1)|
    ensures forall u :: u in vars ==> Reaches(RowWith(vars, v, w), vars[u])
    ensures forall u :: u in vars ==> ValueAt(RowWith(vars, v, w), vars[u]) == if u == v then w else BOUND
  {
    hide ValueAt, Reaches, Aligned, Put, FilledRow;
    FilledRowAt(|vars| + 1, vars[v]);
    PutAt(FilledRow(|vars| + 1), vars[v], w, 0);
    PutLength(FilledRow(|vars| + 1), vars[v], w);
    forall u | u in vars
      ensures Reaches(RowWith(vars, v, w), vars[u])
      ensures ValueAt(RowWith(vars, v, w), vars[u]) == if u == v then w else BOUND
    {
      FilledRowAt(|vars| + 1, vars[u]);
      PutAt(FilledRow(|vars| + 1), vars[v], w, vars[u]);
    }
  }

  /** Two fully bound rows that agree on all variables except `v`. */
  lemma OverwritingJoin(vars: map<Var, nat>, otherVars: map<Var, nat>, on: seq<Var>, v: Var)
    requires PositionsOk(vars) && PositionsOk(otherVars) && on != []
    requires otherVars.Keys <= vars.Keys && OnKnown(vars, otherVars, on) && v in otherVars && v !in on
    ensures JoinResult([RowWith(vars, v, BOUND)], vars, [RowWith(otherVars, v, CLASH)], otherVars, on,
                       [RowWith(vars, v, CLASH)], [(0, 0)])
  {
    hide RowWith, ValueAt;
    RowOf(vars, v, BOUND);
    RowOf(vars, v, CLASH);
    RowOf(otherVars, v, CLASH);
    assert IsMatch(RowWith(vars, v, BOUND), vars, [RowWith(otherVars, v, CLASH)], otherVars, on, 0);
  }

  /** The join overwrites the left row's value of `v`. */
  lemma OverwritesShared(vars: map<Var, nat>, dom: set<Var>, otherVars: map<Var, nat>, on: seq<Var>, v: Var)
    requires PositionsOk(vars) && PositionsOk(otherVars) && on != [] && OnKnown(vars, otherVars, on)
    requires dom <= vars.Keys && otherVars.Keys <= vars.Keys
    requires v in dom && v in otherVars && v !in on
    ensures var rows, others := [RowWith(vars, v, BOUND)], [RowWith(otherVars, v, CLASH)];
            && AllBound(rows, vars, dom) && AllBound(others, otherVars, otherVars.Keys)
            && !JoinsNaturally(vars, dom, otherVars, on, rows, others)
  {
    hide RowWith, ValueAt, JoinResult, IsNaturalJoin, PositionsOk, OnKnown;
    var row, other, joined := RowWith(vars, v, BOUND), RowWith(otherVars, v, CLASH), RowWith(vars, v, CLASH);
    OverwritingJoin(vars, otherVars, on, v);
    RowOf(vars, v, BOUND);
    RowOf(otherVars, v, CLASH);
    ClashIsNotNatural(row, other, joined, vars, dom, otherVars, v);
  }

  /** Two rows that differ in a shared variable have no join. */
  lemma ClashIsNotNatural(left: seq<Byte>, right: seq<Byte>, joined: seq<Byte>, vars: map<Var, nat>, dom: set<Var>,
                          otherVars: map<Var, nat>, v: Var)
    requires dom <= vars.Keys && otherVars.Keys <= vars.Keys && v in dom && v in otherVars
    requires ValueAt(left, vars[v]) != ValueAt(right, otherVars[v])
    ensures !IsNaturalJoin([left], vars, dom, [right], otherVars, [joined])
  {
    hide ValueAt;
    var mu := Assign(joined, vars, dom + otherVars.Keys);
    assert [joined][0] == joined;
    assert InRows([joined], vars, dom + otherVars.Keys, mu);
    assert Assign(left, vars, dom)[v] != Assign(right, otherVars, otherVars.Keys)[v];
    assert !Joinable([left], vars, dom, [right], otherVars, mu);
  }
}
