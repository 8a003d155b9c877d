/** Relations over query variables (db/relation.go): a list of packed rows and, for each
    variable, an index from values to row numbers. Rows are their byte contents here. */
module Relations {
  import opened Keys
  import opened Rows
  import opened Keymaps

  /** The name of a query variable. */
  datatype Var = Var(name: string)

  /** One variable's index; a bitmap is the set of its members, nil the empty set. */
  type ValueIndex = map<Key, set<nat>>

  function Bitmap(index: ValueIndex, k: Key): set<nat> {
    if k in index then index[k] else {}
  }

  // ---- what the parts of a relation mean ----

  ghost predicate AllAligned(rows: seq<seq<Byte>>) {
    forall i :: 0 <= i < |rows| ==> Aligned(rows[i])
  }

  /** Row `i` is in the bitmap of `k` iff it holds `k`. */
  ghost predicate BitmapRight(rows: seq<seq<Byte>>, index: ValueIndex, pos: nat, k: Key, i: nat) {
    i in Bitmap(index, k) <==> i < |rows| && ValueAt(rows[i], pos) == k
  }

  /** The bitmap of `k` is exactly the set of rows holding `k`, and no bitmap is empty. */
  ghost predicate IndexExactAt(rows: seq<seq<Byte>>, index: ValueIndex, pos: nat) {
    && (forall k: Key, i: nat :: BitmapRight(rows, index, pos, k, i))
    && (forall k :: k in index ==> index[k] != {})
  }

  /** Variables have different positions, and the position after next is free. */
  ghost predicate PositionsOk(vars: map<Var, nat>) {
    && (forall u, v :: u in vars && v in vars && vars[u] == vars[v] ==> u == v)
    && (forall v :: v in vars ==> vars[v] <= |vars|)
  }

  predicate Distinct(ks: seq<Var>) {
    forall i, j :: 0 <= i < j < |ks| ==> ks[i] != ks[j]
  }

  /** The values of a row at the given variables. */
  function Tuple(row: seq<Byte>, vars: map<Var, nat>, ks: seq<Var>): (t: seq<Key>)
    requires forall v :: v in ks ==> v in vars
    ensures |t| == |ks|
  {
    seq(|ks|, i requires 0 <= i < |ks| => ValueAt(row, vars[ks[i]]))
  }

  ghost predicate VarIndexed(rows: seq<seq<Byte>>, multiindex: map<Var, ValueIndex>, vars: map<Var, nat>, v: Var) {
    v in vars && v in multiindex && IndexExactAt(rows, multiindex[v], vars[v])
  }

  /** All the given variables have positions and exact indexes. */
  ghost predicate Indexed(rows: seq<seq<Byte>>, multiindex: map<Var, ValueIndex>, vars: map<Var, nat>, ks: seq<Var>) {
    && AllAligned(rows) && PositionsOk(vars) && Distinct(ks)
    && forall v :: v in ks ==> VarIndexed(rows, multiindex, vars, v)
  }

  ghost predicate HasTuple(rows: seq<seq<Byte>>, vars: map<Var, nat>, ks: seq<Var>, t: seq<Key>)
    requires forall v :: v in ks ==> v in vars
  {
    exists i :: 0 <= i < |rows| && Tuple(rows[i], vars, ks) == t
  }

  ghost predicate NoDuplicateTuples(rows: seq<seq<Byte>>, vars: map<Var, nat>, ks: seq<Var>)
    requires forall v :: v in ks ==> v in vars
  {
    forall i, j :: 0 <= i < j < |rows| ==> Tuple(rows[i], vars, ks) != Tuple(rows[j], vars, ks)
  }

  lemma BitmapIs(rows: seq<seq<Byte>>, index: ValueIndex, pos: nat, k: Key)
    requires IndexExactAt(rows, index, pos)
    ensures forall i: nat :: i in Bitmap(index, k) <==> i < |rows| && ValueAt(rows[i], pos) == k
  {
    forall i: nat
      ensures i in Bitmap(index, k) <==> i < |rows| && ValueAt(rows[i], pos) == k
    {
      assert BitmapRight(rows, index, pos, k, i);
    }
  }

  /** Appending a row and noting it under its value keeps an index exact. */
  lemma AppendKeepsIndex(rows: seq<seq<Byte>>, index: ValueIndex, pos: nat, row: seq<Byte>)
    requires IndexExactAt(rows, index, pos)
    ensures var k := ValueAt(row, pos);
            IndexExactAt(rows + [row], index[k := Bitmap(index, k) + {|rows|}], pos)
  {
    hide ValueAt;
    var k := ValueAt(row, pos);
    var index' := index[k := Bitmap(index, k) + {|rows|}];
    forall m: Key, i: nat
      ensures BitmapRight(rows + [row], index', pos, m, i)
    {
      assert BitmapRight(rows, index, pos, m, i);
      if i < |rows| {
        assert (rows + [row])[i] == rows[i];
      } else if i == |rows| {
        assert (rows + [row])[i] == row;
      }
    }
  }

  lemma EmptyIndexExact(pos: nat)
    ensures IndexExactAt([], map[], pos)
  {
    assert forall k :: Bitmap(map[], k) == {};
  }

  /** The first `i` names have their list positions, and no other variable has one. */
  ghost predicate PlacedUpTo(names: seq<Var>, i: nat, positions: map<Var, nat>) {
    && (forall v, j {:trigger v in positions, names[j]} :: 0 <= j < |names| ==>
          ((v in positions && positions[v] == j) <==> (j < i && names[j] == v)))
    && (forall v :: v in positions ==> positions[v] < i)
  }

  lemma NewIsIndexed(names: seq<Var>, positions: map<Var, nat>, indexes: map<Var, ValueIndex>)
    requires Distinct(names) && indexes.Keys == positions.Keys
    requires forall v :: v in indexes ==> indexes[v] == map[]
    requires |positions| == |names| && PlacedUpTo(names, |names|, positions)
    ensures Indexed([], indexes, positions, names)
    ensures positions.Keys == (set v | v in names) && forall i :: 0 <= i < |names| ==> positions[names[i]] == i
  {
    forall u, v | u in positions && v in positions && positions[u] == positions[v]
      ensures u == v
    {
      assert names[positions[u]] == u && names[positions[v]] == v;
    }
    forall i | 0 <= i < |names|
      ensures names[i] in positions && positions[names[i]] == i
    {
      var v := names[i];
      assert v in positions <==> v in positions.Keys;
    }
    forall v | v in positions
      ensures v in names
    {
      assert names[positions[v]] == v;
    }
    forall v | v in names
      ensures VarIndexed([], indexes, positions, v)
    {
      assert v in positions.Keys && indexes[v] == map[];
      EmptyIndexExact(positions[v]);
    }
  }

  /** Row number `r` is in the bitmap of every value of the tuple. */
  ghost predicate InAll(multiindex: map<Var, ValueIndex>, ks: seq<Var>, t: seq<Key>, r: nat)
    requires |ks| == |t| && forall v :: v in ks ==> v in multiindex
  {
    forall i :: 0 <= i < |ks| ==> r in Bitmap(multiindex[ks[i]], t[i])
  }

  class Relation {
    var rows: seq<seq<Byte>>
    var multiindex: map<Var, ValueIndex>
    var vars: map<Var, nat>
    var keys: seq<Var>

    ghost predicate IndexedOn(ks: seq<Var>)
      reads this
    {
      Indexed(rows, multiindex, vars, ks)
    }

    /** `NewRelation`: no rows, the variables at their places in the list. */
    constructor (names: seq<Var>)
      requires Distinct(names)
      ensures rows == [] && keys == names && IndexedOn(names)
      ensures vars.Keys == (set v | v in names) && forall i :: 0 <= i < |names| ==> vars[names[i]] == i
      ensures multiindex.Keys == vars.Keys
    {
      keys, rows := names, [];
      var positions, indexes := Places(names);
      vars, multiindex := positions, indexes;
      new;
      NewIsIndexed(names, positions, indexes);
    }

    static method Places(names: seq<Var>) returns (positions: map<Var, nat>, indexes: map<Var, ValueIndex>)
      requires Distinct(names)
      ensures |positions| == |names| && PlacedUpTo(names, |names|, positions)
      ensures indexes.Keys == positions.Keys && forall v :: v in indexes ==> indexes[v] == map[]
    {
      positions, indexes := map[], map[];
      for i := 0 to |names|
        invariant |positions| == i && PlacedUpTo(names, i, positions)
        invariant indexes.Keys == positions.Keys && forall v :: v in indexes ==> indexes[v] == map[]
      {
        forall v | v in positions
          ensures v != names[i]
        {
          assert names[positions[v]] == v;
        }
        positions := positions[names[i] := i];
        indexes := indexes[names[i] := map[]];
      }
    }

    /** A blank row from the pool: empty, or all zeros. */
    method BlankRow() returns (row: seq<Byte>)
      ensures Aligned(row) && forall pos :: ValueAt(row, pos) == EMPTY_KEY
    {
      var recycled: bool := *;
      row := if recycled then [] else Zeros(FRESH_LENGTH);
      forall pos
        ensures ValueAt(row, pos) == EMPTY_KEY
      {
        ZerosAreEmpty(|row|, pos);
      }
    }

    /** A copy of a row, possibly in a longer zeroed buffer. */
    method CopyRow(row: seq<Byte>) returns (copy: seq<Byte>)
      requires Aligned(row)
      ensures Aligned(copy) && |row| <= |copy| && forall pos :: ValueAt(copy, pos) == ValueAt(row, pos)
    {
      var recycled: bool := *;
      var padding := if recycled || |row| >= FRESH_LENGTH then 0 else FRESH_LENGTH - |row|;
      copy := row + Zeros(padding);
      forall pos
        ensures ValueAt(copy, pos) == ValueAt(row, pos)
      {
        PaddingInvisible(row, padding, pos);
      }
    }

    /** The row numbers that every bitmap of a tuple contains. */
    method FastAnd(ks: seq<Var>, t: seq<Key>) returns (matches: set<nat>)
      requires |ks| == |t| && ks != [] && forall v :: v in ks ==> v in multiindex
      ensures forall r :: r in matches <==> InAll(multiindex, ks, t, r)
    {
      matches := Bitmap(multiindex[ks[0]], t[0]);
      for i := 1 to |ks|
        invariant forall r :: r in matches <==> forall j :: 0 <= j < i ==> r in Bitmap(multiindex[ks[j]], t[j])
      {
        matches := matches * Bitmap(multiindex[ks[i]], t[i]);
      }
    }

    /** Write one position of a row. */
    static method WriteSlot(row: seq<Byte>, pos: nat, value: Key) returns (written: seq<Byte>)
      requires Aligned(row)
      ensures Aligned(written) && |row| <= |written| && written == Put(row, pos, value)
      ensures forall q: nat :: ValueAt(written, q) == if q == pos then value else ValueAt(row, q)
      ensures forall q: nat :: Reaches(written, q) <==> q <= pos || Reaches(row, q)
    {
      written := Put(row, pos, value);
      PutAt(row, pos, value, pos);
      forall q: nat
        ensures ValueAt(written, q) == if q == pos then value else ValueAt(row, q)
        ensures Reaches(written, q) <==> q <= pos || Reaches(row, q)
      {
        PutAt(row, pos, value, q);
      }
    }

    /** A row holding one tuple and nothing else. */
    method TupleRow(ks: seq<Var>, t: seq<Key>) returns (row: seq<Byte>)
      requires |ks| == |t| && Distinct(ks) && PositionsOk(vars) && forall v :: v in ks ==> v in vars
      ensures Aligned(row) && Tuple(row, vars, ks) == t
      ensures forall v :: v in ks ==> Reaches(row, vars[v])
      ensures forall pos :: (forall v :: v in ks ==> vars[v] != pos) ==> ValueAt(row, pos) == EMPTY_KEY
    {
      hide Put, ValueAt, Reaches, Aligned;
      row := BlankRow();
      for i := 0 to |ks|
        invariant Aligned(row)
        invariant forall j :: 0 <= j < i ==> ValueAt(row, vars[ks[j]]) == t[j] && Reaches(row, vars[ks[j]])
        invariant forall pos :: (forall v :: v in ks ==> vars[v] != pos) ==> ValueAt(row, pos) == EMPTY_KEY
      {
        row := WriteSlot(row, vars[ks[i]], t[i]);
        assert forall j :: 0 <= j < i ==> ks[j] != ks[i] && vars[ks[j]] != vars[ks[i]];
      }
    }

    /** Note a row number under each of its tuple's values. */
    method NoteRow(ks: seq<Var>, t: seq<Key>, n: nat)
      requires |ks| == |t| && Distinct(ks) && forall v :: v in ks ==> v in multiindex
      modifies `multiindex
      ensures multiindex.Keys == old(multiindex.Keys)
      ensures forall j :: 0 <= j < |ks| ==>
                multiindex[ks[j]] == old(multiindex)[ks[j]][t[j] := Bitmap(old(multiindex)[ks[j]], t[j]) + {n}]
    {
      ghost var index0 := multiindex;
      for i := 0 to |ks|
        invariant multiindex.Keys == index0.Keys
        invariant forall j :: 0 <= j < i ==>
                    multiindex[ks[j]] == index0[ks[j]][t[j] := Bitmap(index0[ks[j]], t[j]) + {n}]
        invariant forall j :: i <= j < |ks| ==> multiindex[ks[j]] == index0[ks[j]]
      {
        var index := multiindex[ks[i]];
        assert forall j :: 0 <= j < |ks| && j != i ==> ks[j] != ks[i];
        multiindex := multiindex[ks[i] := index[t[i] := Bitmap(index, t[i]) + {n}]];
      }
    }

    /** The body that `add1Value`, `add2Values` and `add3Values` unroll for one, two and
        three variables: skip a tuple that some row holds already, else append a row. */
    method AddTuple(ks: seq<Var>, t: seq<Key>)
      requires IndexedOn(ks) && ks != [] && |t| == |ks|
      modifies `rows, `multiindex
      ensures IndexedOn(ks) && Inserted(old(rows), rows, vars, ks, {t})
      ensures multiindex.Keys == old(multiindex.Keys)
    {
      hide Inserted, IndexExactAt, InAll, HasTuple, Tuple;
      var matches := FastAnd(ks, t);
      if matches != {} {
        HeldAlready(rows, multiindex, vars, ks, t, matches);
        return;
      }
      NotHeldYet(rows, multiindex, vars, ks, t);
      var row := TupleRow(ks, t);
      ghost var rows0, index0 := rows, multiindex;
      rows := rows + [row];
      NoteRow(ks, t, |rows| - 1);
      RowAppended(rows0, index0, multiindex, vars, ks, t, row);
    }

    /** Give a variable a position, unless it has one. */
    method Register(key: Var)
      requires PositionsOk(vars)
      modifies `vars, `multiindex
      ensures PositionsOk(vars) && key in vars
      ensures key in old(vars) ==> vars == old(vars) && multiindex == old(multiindex)
      ensures key !in old(vars) ==>
                vars == old(vars)[key := |old(vars)| + 1] && multiindex == old(multiindex)[key := map[]]
    {
      if key !in vars {
        ghost var vars0 := vars;
        vars := vars[key := |vars| + 1];
        assert |vars| == |vars0| + 1;
        multiindex := multiindex[key := map[]];
      }
    }

    method RegisterNext(ks: seq<Var>, i: nat)
      requires i < |ks| && RegisteredUpTo(rows, multiindex, vars, ks, i)
      modifies `vars, `multiindex
      ensures RegisteredUpTo(rows, multiindex, vars, ks, i + 1) && Keeps(old(vars), vars)
      ensures ks[i] in old(vars) ==> vars == old(vars)
    {
      hide VarIndexed, VarReady;
      ghost var index0, vars0 := multiindex, vars;
      Register(ks[i]);
      VarRegistered(rows, index0, vars0, multiindex, vars, ks[i]);
      assert forall j :: 0 <= j < |ks| && j != i ==> ks[j] != ks[i];
    }

    method RegisterAll(ks: seq<Var>)
      requires ReadyFor(rows, multiindex, vars, ks)
      modifies `vars, `multiindex
      ensures IndexedOn(ks) && Keeps(old(vars), vars)
      ensures (forall v :: v in ks ==> v in old(vars)) ==> vars == old(vars)
    {
      hide RegisteredUpTo, Indexed, ReadyFor;
      AllReady(rows, multiindex, vars, ks);
      for i := 0 to |ks|
        invariant RegisteredUpTo(rows, multiindex, vars, ks, i) && Keeps(old(vars), vars)
        invariant (forall v :: v in ks ==> v in old(vars)) ==> vars == old(vars)
      {
        assert ks[i] in ks;
        RegisterNext(ks, i);
      }
      AllIndexed(rows, multiindex, vars, ks);
    }

    /** `add1Value`: the values in any order. */
    method Add1Value(key1: Var, values: Keymap)
      requires ReadyFor(rows, multiindex, vars, [key1])
      modifies `rows, `multiindex, `vars
      ensures IndexedOn([key1]) && Inserted(old(rows), rows, vars, [key1], set v | v in values.m :: [v])
      ensures key1 in old(vars) ==> vars == old(vars)
    {
      RegisterAll([key1]);
      ghost var vars0 := vars;
      var todo := values.m;
      InsertedNothing(rows, vars, [key1]);
      ghost var done: set<seq<Key>> := {};
      while todo != {}
        invariant todo <= values.m && done == set v | v in values.m - todo :: [v]
        invariant vars == vars0
        invariant IndexedOn([key1]) && Inserted(old(rows), rows, vars, [key1], done)
      {
        var value :| value in todo;
        ghost var mid := rows;
        AddTuple([key1], [value]);
        InsertedMore(old(rows), mid, rows, vars, [key1], done, [value]);
        done := done + {[value]};
        todo := todo - {value};
      }
      assert values.m - {} == values.m;
    }

    /** `add2Values` (two variables) and `add3Values` (three): the tuples in order. */
    method AddValues(ks: seq<Var>, values: seq<seq<Key>>)
      requires 2 <= |ks| <= 3 && ReadyFor(rows, multiindex, vars, ks)
      requires forall t :: t in values ==> |t| == |ks|
      modifies `rows, `multiindex, `vars
      ensures IndexedOn(ks) && Inserted(old(rows), rows, vars, ks, Elements(values))
      ensures (forall v :: v in ks ==> v in old(vars)) ==> vars == old(vars)
    {
      hide Indexed, Inserted, ReadyFor;
      RegisterAll(ks);
      AllRegistered(rows, multiindex, vars, ks);
      ghost var vars0 := vars;
      InsertedNothing(rows, vars, ks);
      assert Elements(values[..0]) == {};
      for i := 0 to |values|
        invariant vars == vars0 && IndexedOn(ks)
        invariant Inserted(old(rows), rows, vars, ks, Elements(values[..i]))
      {
        ghost var mid := rows;
        assert values[i] in values;
        AddTuple(ks, values[i]);
        InsertedMore(old(rows), mid, rows, vars, ks, Elements(values[..i]), values[i]);
        assert values[..i + 1] == values[..i] + [values[i]];
        assert Elements(values[..i + 1]) == Elements(values[..i]) + {values[i]};
      }
      assert values[..|values|] == values;
    }

    /** One row of the join: a copy of the inner row overwritten with every variable of
        the other row, in any order. */
    method MergeRow(inner: seq<Byte>, other: Relation, row: seq<Byte>) returns (newRow: seq<Byte>)
      requires Aligned(inner) && PositionsOk(vars) && other.vars.Keys <= vars.Keys
      ensures Merged(newRow, inner, row, vars, other.vars)
    {
      hide Put, ValueAt, Reaches, Aligned;
      newRow := CopyRow(inner);
      var todo := other.vars.Keys;
      while todo != {}
        invariant todo <= other.vars.Keys && Aligned(newRow) && |inner| <= |newRow|
        invariant forall v :: v in other.vars && v !in todo ==> Reaches(newRow, vars[v])
        invariant forall v :: v in vars ==>
                    ValueAt(newRow, vars[v]) ==
                    if v in other.vars && v !in todo then ValueAt(row, other.vars[v]) else ValueAt(inner, vars[v])
      {
        var otherVarname :| otherVarname in todo;
        newRow := WriteSlot(newRow, vars[otherVarname], ValueAt(row, other.vars[otherVarname]));
        todo := todo - {otherVarname};
      }
    }

    /** The rows of the other relation that share the inner row's values of `on`; without
        join variables the intersection of no bitmaps is empty. */
    method Matches(inner: seq<Byte>, other: Relation, on: seq<Var>) returns (matches: set<nat>)
      requires other.IndexedOn(on) && OnKnown(vars, other.vars, on)
      ensures forall j :: j in matches <==> on != [] && IsMatch(inner, vars, other.rows, other.vars, on, j)
    {
      matches := {};
      for i := 0 to |on|
        invariant OnKnown(vars, other.vars, on[..i])
        invariant i == 0 ==> matches == {}
        invariant i > 0 ==> forall j :: j in matches <==> IsMatch(inner, vars, other.rows, other.vars, on[..i], j)
      {
        assert on[i] in on && VarIndexed(other.rows, other.multiindex, other.vars, on[i]);
        assert on[..i + 1] == on[..i] + [on[i]];
        var value := ValueAt(inner, vars[on[i]]);
        var index := other.multiindex[on[i]];
        IsMatchMore(inner, vars, other.rows, other.vars, on[..i], on[i]);
        BitmapIs(other.rows, index, other.vars[on[i]], value);
        if value !in index {
          assert Bitmap(index, value) == {};
          assert on[..|on|] == on;
          NoMatch(inner, vars, other.rows, other.vars, on, on[i]);
          return {};
        }
        matches := if i == 0 then index[value] else matches * index[value];
        assert index[value] == Bitmap(index, value);
      }
      assert on[..|on|] == on;
    }

    /** The index join. `src` records which pair of rows each result row came from. */
    method Join(other: Relation, on: seq<Var>) returns (ghost src: seq<(nat, nat)>)
      requires AllAligned(rows) && PositionsOk(vars) && other != this
      requires other.IndexedOn(on) && OnKnown(vars, other.vars, on) && other.vars.Keys <= vars.Keys
      modifies `rows
      ensures JoinResult(old(rows), vars, other.rows, other.vars, on, rows, src)
    {
      hide JoinedUpTo, JoinResult, Merged, IsMatch, Indexed;
      src := [];
      var joinedRows: seq<seq<Byte>> := [];
      JoinStarts(rows, vars, other.rows, other.vars, on);
      for i := 0 to |rows|
        invariant rows == old(rows)
        invariant JoinedUpTo(rows, vars, other.rows, other.vars, on, joinedRows, src, i, {})
      {
        var innerRow := rows[i];
        var matches := Matches(innerRow, other, on);
        ghost var all := matches;
        assert all - matches == {};
        while matches != {}
          invariant rows == old(rows) && matches <= all
          invariant JoinedUpTo(rows, vars, other.rows, other.vars, on, joinedRows, src, i, all - matches)
          decreases matches
        {
          var j :| j in matches;
          JoinTakes(innerRow, vars, other.rows, other.vars, on, j);
          var newRow := MergeRow(innerRow, other, other.rows[j]);
          JoinMore(rows, vars, other.rows, other.vars, on, joinedRows, src, i, all - matches, j, newRow);
          joinedRows := joinedRows + [newRow];
          src := src + [(i, j)];
          assert all - (matches - {j}) == all - matches + {j};
          matches := matches - {j};
        }
        assert all - {} == all;
        JoinRowDone(rows, vars, other.rows, other.vars, on, joinedRows, src, i, all);
      }
      JoinEnds(rows, vars, other.rows, other.vars, on, joinedRows, src);
      rows := joinedRows;
    }
  }

  ghost predicate OnKnown(vars: map<Var, nat>, otherVars: map<Var, nat>, on: seq<Var>) {
    forall v :: v in on ==> v in vars && v in otherVars
  }

  /** Two rows hold the same values of the join variables. */
  ghost predicate Agree(row: seq<Byte>, vars: map<Var, nat>, other: seq<Byte>, otherVars: map<Var, nat>, on: seq<Var>)
    requires OnKnown(vars, otherVars, on)
  {
    forall v :: v in on ==> ValueAt(row, vars[v]) == ValueAt(other, otherVars[v])
  }

  ghost predicate IsMatch(row: seq<Byte>, vars: map<Var, nat>, others: seq<seq<Byte>>, otherVars: map<Var, nat>,
                          on: seq<Var>, j: nat)
    requires OnKnown(vars, otherVars, on)
  {
    j < |others| && Agree(row, vars, others[j], otherVars, on)
  }

  lemma IsMatchMore(row: seq<Byte>, vars: map<Var, nat>, others: seq<seq<Byte>>, otherVars: map<Var, nat>, on: seq<Var>,
                    v: Var)
    requires OnKnown(vars, otherVars, on + [v])
    ensures forall j: nat :: IsMatch(row, vars, others, otherVars, on + [v], j) <==>
              j < |others| && (on == [] || IsMatch(row, vars, others, otherVars, on, j))
              && ValueAt(row, vars[v]) == ValueAt(others[j], otherVars[v])
  {
    assert forall u :: u in on + [v] <==> u in on || u == v;
  }

  lemma NoMatch(row: seq<Byte>, vars: map<Var, nat>, others: seq<seq<Byte>>, otherVars: map<Var, nat>, on: seq<Var>,
                v: Var)
    requires OnKnown(vars, otherVars, on) && v in on
    requires forall j: nat :: j < |others| ==> ValueAt(others[j], otherVars[v]) != ValueAt(row, vars[v])
    ensures forall j: nat :: !IsMatch(row, vars, others, otherVars, on, j)
  {
  }

  /** A join row takes the other row's variables from there and the rest from the inner row. */
  ghost predicate Merged(newRow: seq<Byte>, inner: seq<Byte>, row: seq<Byte>, vars: map<Var, nat>,
                         otherVars: map<Var, nat>) {
    && Aligned(newRow) && |inner| <= |newRow|
    && (forall v :: v in otherVars && v in vars ==> Reaches(newRow, vars[v]))
    && forall v :: v in vars ==>
         ValueAt(newRow, vars[v]) == if v in otherVars then ValueAt(row, otherVars[v]) else ValueAt(inner, vars[v])
  }

  /** Every result row is merged from the pair of rows recorded for it, and no pair is used twice. */
  ghost predicate FromPairs(rows: seq<seq<Byte>>, vars: map<Var, nat>, others: seq<seq<Byte>>, otherVars: map<Var, nat>,
                            result: seq<seq<Byte>>, src: seq<(nat, nat)>)
  {
    && |src| == |result|
    && (forall n :: 0 <= n < |src| ==>
          && src[n].0 < |rows| && src[n].1 < |others|
          && Merged(result[n], rows[src[n].0], others[src[n].1], vars, otherVars))
    && (forall m, n :: 0 <= m < n < |src| ==> src[m] != src[n])
  }

  /** The result rows come, one each, from exactly the pairs of agreeing rows. */
  ghost predicate JoinResult(rows: seq<seq<Byte>>, vars: map<Var, nat>, others: seq<seq<Byte>>,
                             otherVars: map<Var, nat>,
                             on: seq<Var>, result: seq<seq<Byte>>, src: seq<(nat, nat)>)
  {
    && OnKnown(vars, otherVars, on)
    && FromPairs(rows, vars, others, otherVars, result, src)
    && (forall i: nat, j: nat :: (i, j) in src <==>
          on != [] && i < |rows| && IsMatch(rows[i], vars, others, otherVars, on, j))
  }

  /** The same while the first `i` inner rows, and for row `i` the matches in `done`, are joined. */
  ghost predicate JoinedUpTo(rows: seq<seq<Byte>>, vars: map<Var, nat>, others: seq<seq<Byte>>,
                             otherVars: map<Var, nat>,
                             on: seq<Var>, result: seq<seq<Byte>>, src: seq<(nat, nat)>, i: nat, done: set<nat>)
  {
    && OnKnown(vars, otherVars, on)
    && FromPairs(rows, vars, others, otherVars, result, src)
    && (forall a: nat, b: nat :: (a, b) in src <==>
          || (a < i && on != [] && a < |rows| && IsMatch(rows[a], vars, others, otherVars, on, b))
          || (a == i && b in done))
  }

  lemma JoinStarts(rows: seq<seq<Byte>>, vars: map<Var, nat>, others: seq<seq<Byte>>, otherVars: map<Var, nat>,
                   on: seq<Var>)
    requires OnKnown(vars, otherVars, on)
    ensures JoinedUpTo(rows, vars, others, otherVars, on, [], [], 0, {})
  {
  }

  lemma JoinTakes(row: seq<Byte>, vars: map<Var, nat>, others: seq<seq<Byte>>, otherVars: map<Var, nat>, on: seq<Var>,
                  j: nat)
    requires OnKnown(vars, otherVars, on) && IsMatch(row, vars, others, otherVars, on, j)
    ensures j < |others|
  {
  }

  lemma JoinMore(rows: seq<seq<Byte>>, vars: map<Var, nat>, others: seq<seq<Byte>>, otherVars: map<Var, nat>,
                 on: seq<Var>, result: seq<seq<Byte>>, src: seq<(nat, nat)>, i: nat, done: set<nat>, j: nat,
                 newRow: seq<Byte>)
    requires JoinedUpTo(rows, vars, others, otherVars, on, result, src, i, done)
    requires i < |rows| && j < |others| && j !in done && Merged(newRow, rows[i], others[j], vars, otherVars)
    ensures JoinedUpTo(rows, vars, others, otherVars, on, result + [newRow], src + [(i, j)], i, done + {j})
  {
    hide Merged, IsMatch;
    assert (i, j) !in src;
    assert forall a: nat, b: nat :: (a, b) in src + [(i, j)] <==> (a, b) in src || (a == i && b == j);
  }

  lemma JoinRowDone(rows: seq<seq<Byte>>, vars: map<Var, nat>, others: seq<seq<Byte>>, otherVars: map<Var, nat>,
                    on: seq<Var>, result: seq<seq<Byte>>, src: seq<(nat, nat)>, i: nat, all: set<nat>)
    requires JoinedUpTo(rows, vars, others, otherVars, on, result, src, i, all) && i < |rows|
    requires forall j :: j in all <==> on != [] && IsMatch(rows[i], vars, others, otherVars, on, j)
    ensures JoinedUpTo(rows, vars, others, otherVars, on, result, src, i + 1, {})
  {
    hide Merged, IsMatch, FromPairs;
  }

  lemma JoinEnds(rows: seq<seq<Byte>>, vars: map<Var, nat>, others: seq<seq<Byte>>, otherVars: map<Var, nat>,
                 on: seq<Var>, result: seq<seq<Byte>>, src: seq<(nat, nat)>)
    requires JoinedUpTo(rows, vars, others, otherVars, on, result, src, |rows|, {})
    ensures JoinResult(rows, vars, others, otherVars, on, result, src)
  {
    hide Merged, IsMatch, FromPairs;
  }

  function Elements(values: seq<seq<Key>>): set<seq<Key>> {
    set t | t in values
  }

  lemma AllRegistered(rows: seq<seq<Byte>>, multiindex: map<Var, ValueIndex>, vars: map<Var, nat>, ks: seq<Var>)
    requires Indexed(rows, multiindex, vars, ks)
    ensures forall v :: v in ks ==> v in vars
  {
    assert forall v :: v in ks ==> VarIndexed(rows, multiindex, vars, v);
  }

  /** The variables are registered with exact indexes, or new to a relation without rows. */
  ghost predicate ReadyFor(rows: seq<seq<Byte>>, multiindex: map<Var, ValueIndex>, vars: map<Var, nat>, ks: seq<Var>) {
    && AllAligned(rows) && PositionsOk(vars) && Distinct(ks)
    && forall v :: v in ks ==>
         VarReady(rows, multiindex, vars, v)
  }

  /** Positions are never taken away. */
  ghost predicate Keeps(vars0: map<Var, nat>, vars: map<Var, nat>) {
    forall v :: v in vars0 ==> v in vars && vars[v] == vars0[v]
  }

  /** The first `i` variables are registered, the others ready to be. */
  ghost predicate RegisteredUpTo(rows: seq<seq<Byte>>, multiindex: map<Var, ValueIndex>, vars: map<Var, nat>,
                                 ks: seq<Var>, i: nat) {
    && AllAligned(rows) && PositionsOk(vars) && Distinct(ks)
    && (forall j :: 0 <= j < i && j < |ks| ==> VarIndexed(rows, multiindex, vars, ks[j]))
    && (forall j :: i <= j < |ks| ==> VarReady(rows, multiindex, vars, ks[j]))
  }

  lemma AllReady(rows: seq<seq<Byte>>, multiindex: map<Var, ValueIndex>, vars: map<Var, nat>, ks: seq<Var>)
    requires ReadyFor(rows, multiindex, vars, ks)
    ensures RegisteredUpTo(rows, multiindex, vars, ks, 0)
  {
    hide VarReady, VarIndexed;
    assert forall j :: 0 <= j < |ks| ==> ks[j] in ks;
  }

  lemma AllIndexed(rows: seq<seq<Byte>>, multiindex: map<Var, ValueIndex>, vars: map<Var, nat>, ks: seq<Var>)
    requires RegisteredUpTo(rows, multiindex, vars, ks, |ks|)
    ensures Indexed(rows, multiindex, vars, ks)
  {
    hide VarIndexed;
  }

  ghost predicate VarReady(rows: seq<seq<Byte>>, multiindex: map<Var, ValueIndex>, vars: map<Var, nat>, v: Var) {
    if v in vars then VarIndexed(rows, multiindex, vars, v) else rows == []
  }

  lemma VarRegistered(rows: seq<seq<Byte>>, index0: map<Var, ValueIndex>, vars0: map<Var, nat>,
                      multiindex: map<Var, ValueIndex>, vars: map<Var, nat>, key: Var)
    requires VarReady(rows, index0, vars0, key)
    requires key in vars0 ==> vars == vars0 && multiindex == index0
    requires key !in vars0 ==> vars == vars0[key := |vars0| + 1] && multiindex == index0[key := map[]]
    ensures VarIndexed(rows, multiindex, vars, key)
    ensures forall v :: v != key && VarIndexed(rows, index0, vars0, v) ==> VarIndexed(rows, multiindex, vars, v)
    ensures forall v :: v != key && VarReady(rows, index0, vars0, v) ==> VarReady(rows, multiindex, vars, v)
  {
    EmptyIndexExact(|vars0| + 1);
    hide IndexExactAt;
  }

  /** The rows grew by exactly the tuples of `ts` that were not there, each once. */
  ghost predicate Inserted(rows0: seq<seq<Byte>>, rows: seq<seq<Byte>>, vars: map<Var, nat>, ks: seq<Var>,
                           ts: set<seq<Key>>) {
    && (forall v :: v in ks ==> v in vars)
    && rows0 <= rows
    && (forall t :: HasTuple(rows, vars, ks, t) <==> HasTuple(rows0, vars, ks, t) || t in ts)
    && (NoDuplicateTuples(rows0, vars, ks) ==> NoDuplicateTuples(rows, vars, ks))
    && (forall i, pos :: |rows0| <= i < |rows| && (forall v :: v in ks ==> vars[v] != pos) ==>
          ValueAt(rows[i], pos) == EMPTY_KEY)
    && (forall i, v :: |rows0| <= i < |rows| && v in ks ==> Reaches(rows[i], vars[v]))
  }

  lemma InsertedNothing(rows: seq<seq<Byte>>, vars: map<Var, nat>, ks: seq<Var>)
    requires forall v :: v in ks ==> v in vars
    ensures Inserted(rows, rows, vars, ks, {})
  {
  }

  lemma InsertedMore(rows0: seq<seq<Byte>>, mid: seq<seq<Byte>>, rows: seq<seq<Byte>>, vars: map<Var, nat>,
                     ks: seq<Var>, ts: set<seq<Key>>, t: seq<Key>)
    requires Inserted(rows0, mid, vars, ks, ts) && Inserted(mid, rows, vars, ks, {t})
    ensures Inserted(rows0, rows, vars, ks, ts + {t})
  {
    forall i, pos | |rows0| <= i < |rows| && (forall v :: v in ks ==> vars[v] != pos)
      ensures ValueAt(rows[i], pos) == EMPTY_KEY
    {
      if i < |mid| {
        assert rows[i] == mid[i];
      }
    }
    forall i, v | |rows0| <= i < |rows| && v in ks
      ensures Reaches(rows[i], vars[v])
    {
      if i < |mid| {
        assert rows[i] == mid[i];
      }
    }
  }

  lemma BitmapsAreTuples(rows: seq<seq<Byte>>, multiindex: map<Var, ValueIndex>, vars: map<Var, nat>,
                         ks: seq<Var>, t: seq<Key>, r: nat)
    requires Indexed(rows, multiindex, vars, ks) && |t| == |ks| && ks != []
    ensures (forall v :: v in ks ==> v in multiindex) &&
            (InAll(multiindex, ks, t, r) <==> r < |rows| && Tuple(rows[r], vars, ks) == t)
  {
    hide ValueAt, PositionsOk, AllAligned, Distinct;
    assert forall v :: v in ks ==> VarIndexed(rows, multiindex, vars, v);
    assert forall i :: 0 <= i < |ks| ==> ks[i] in ks;
    forall i | 0 <= i < |ks|
      ensures r in Bitmap(multiindex[ks[i]], t[i]) <==> r < |rows| && ValueAt(rows[r], vars[ks[i]]) == t[i]
    {
      assert VarIndexed(rows, multiindex, vars, ks[i]);
      assert BitmapRight(rows, multiindex[ks[i]], vars[ks[i]], t[i], r);
    }
    if InAll(multiindex, ks, t, r) {
      assert r in Bitmap(multiindex[ks[0]], t[0]);
      assert forall i :: 0 <= i < |ks| ==> r in Bitmap(multiindex[ks[i]], t[i]);
      assert Tuple(rows[r], vars, ks) == t;
    }
    if r < |rows| && Tuple(rows[r], vars, ks) == t {
      forall i | 0 <= i < |ks|
        ensures ValueAt(rows[r], vars[ks[i]]) == t[i]
      {
        assert Tuple(rows[r], vars, ks)[i] == t[i];
      }
    }
  }

  lemma HeldAlready(rows: seq<seq<Byte>>, multiindex: map<Var, ValueIndex>, vars: map<Var, nat>,
                    ks: seq<Var>, t: seq<Key>, matches: set<nat>)
    requires Indexed(rows, multiindex, vars, ks) && |t| == |ks| && ks != [] && matches != {}
    requires forall r :: r in matches <==> InAll(multiindex, ks, t, r)
    ensures Inserted(rows, rows, vars, ks, {t})
  {
    var r :| r in matches;
    BitmapsAreTuples(rows, multiindex, vars, ks, t, r);
    assert HasTuple(rows, vars, ks, t);
  }

  lemma NotHeldYet(rows: seq<seq<Byte>>, multiindex: map<Var, ValueIndex>, vars: map<Var, nat>, ks: seq<Var>,
                   t: seq<Key>)
    requires Indexed(rows, multiindex, vars, ks) && |t| == |ks| && ks != []
    requires forall r :: !InAll(multiindex, ks, t, r)
    ensures !HasTuple(rows, vars, ks, t)
  {
    if r :| 0 <= r < |rows| && Tuple(rows[r], vars, ks) == t {
      BitmapsAreTuples(rows, multiindex, vars, ks, t, r);
    }
  }

  lemma RowAppended(rows0: seq<seq<Byte>>, index0: map<Var, ValueIndex>, multiindex: map<Var, ValueIndex>,
                    vars: map<Var, nat>, ks: seq<Var>, t: seq<Key>, row: seq<Byte>)
    requires Indexed(rows0, index0, vars, ks) && |t| == |ks| && !HasTuple(rows0, vars, ks, t)
    requires Aligned(row) && Tuple(row, vars, ks) == t
    requires forall v :: v in ks ==> Reaches(row, vars[v])
    requires forall pos :: (forall v :: v in ks ==> vars[v] != pos) ==> ValueAt(row, pos) == EMPTY_KEY
    requires forall j :: 0 <= j < |ks| ==>
               && ks[j] in multiindex && ks[j] in index0
               && multiindex[ks[j]] == index0[ks[j]][t[j] := Bitmap(index0[ks[j]], t[j]) + {|rows0|}]
    ensures Indexed(rows0 + [row], multiindex, vars, ks)
    ensures Inserted(rows0, rows0 + [row], vars, ks, {t})
  {
    var rows := rows0 + [row];
    assert forall v :: v in ks ==> VarIndexed(rows0, index0, vars, v);
    forall v | v in ks
      ensures VarIndexed(rows, multiindex, vars, v)
    {
      var j :| 0 <= j < |ks| && ks[j] == v;
      assert Tuple(row, vars, ks)[j] == t[j];
      AppendKeepsIndex(rows0, index0[v], vars[v], row);
    }
    TupleAppended(rows0, vars, ks, t, row);
  }

  lemma TupleAppended(rows0: seq<seq<Byte>>, vars: map<Var, nat>, ks: seq<Var>, t: seq<Key>, row: seq<Byte>)
    requires (forall v :: v in ks ==> v in vars) && !HasTuple(rows0, vars, ks, t) && Tuple(row, vars, ks) == t
    requires forall v :: v in ks ==> Reaches(row, vars[v])
    requires forall pos :: (forall v :: v in ks ==> vars[v] != pos) ==> ValueAt(row, pos) == EMPTY_KEY
    ensures Inserted(rows0, rows0 + [row], vars, ks, {t})
  {
    var rows := rows0 + [row];
    assert rows[|rows0|] == row;
    forall i | 0 <= i < |rows0|
      ensures rows[i] == rows0[i] && Tuple(rows0[i], vars, ks) != t
    {
    }
    forall u
      ensures HasTuple(rows, vars, ks, u) <==> HasTuple(rows0, vars, ks, u) || u == t
    {
      if i :| 0 <= i < |rows0| && Tuple(rows0[i], vars, ks) == u {
        assert Tuple(rows[i], vars, ks) == u;
      }
      assert Tuple(rows[|rows0|], vars, ks) == t;
    }
  }
}
