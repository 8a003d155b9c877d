/** Projecting a relation's rows onto the selected variables (db/context.go, `getResults`;
    db/util.go, `hashRowWithPos`). A result is the list of selected keys. */
module Results {
  import opened Keys
  import opened Rows
  import opened Relations

  /** A missing variable has the position zero. */
  function Position(variablePosition: map<Var, nat>, v: Var): nat {
    if v in variablePosition then variablePosition[v] else 0
  }

  predicate Covers(row: seq<Byte>, positions: seq<nat>) {
    forall i :: 0 <= i < |positions| ==> Reaches(row, positions[i])
  }

  function Project(row: seq<Byte>, positions: seq<nat>): seq<Key> {
    seq(|positions|, i requires 0 <= i < |positions| => ValueAt(row, positions[i]))
  }

  /** The bytes of a tuple, in order. */
  function TupleBytes(t: seq<Key>): seq<Byte> {
    if t == [] then [] else TupleBytes(t[..|t| - 1]) + ToBytes(t[|t| - 1])
  }

  lemma ToFromSlice(b: seq<Byte>)
    requires |b| == SLOT
    ensures ToBytes(FromSlice(b)) == b
  {
  }

  lemma {:induction false} TupleBytesInjective(t: seq<Key>, u: seq<Key>)
    requires |t| == |u|
    ensures TupleBytes(t) == TupleBytes(u) <==> t == u
  {
    if t != [] && TupleBytes(t) == TupleBytes(u) {
      var n := |t| - 1;
      LengthOfBytes(t[..n]);
      LengthOfBytes(u[..n]);
      assert TupleBytes(t)[..n * SLOT] == TupleBytes(t[..n]) && TupleBytes(t)[n * SLOT..] == ToBytes(t[n]);
      assert TupleBytes(u)[..n * SLOT] == TupleBytes(u[..n]) && TupleBytes(u)[n * SLOT..] == ToBytes(u[n]);
      TupleBytesInjective(t[..n], u[..n]);
      FromToBytes(t[n]);
      FromToBytes(u[n]);
      assert t == t[..n] + [t[n]] && u == u[..n] + [u[n]];
    }
  }

  lemma {:induction false} LengthOfBytes(t: seq<Key>)
    ensures |TupleBytes(t)| == |t| * SLOT
  {
    if t != [] {
      LengthOfBytes(t[..|t| - 1]);
    }
  }

  /** `hashRowWithPos`: hash the selected slots, one after the other. */
  method HashRowWithPos(row: seq<Byte>, positions: seq<nat>, murmur: seq<Byte> -> nat) returns (hash: nat)
    requires Covers(row, positions)
    ensures hash == murmur(TupleBytes(Project(row, positions)))
  {
    var b: seq<Byte> := [];
    var t := Project(row, positions);
    for i := 0 to |positions|
      invariant b == TupleBytes(t[..i])
    {
      var slot := row[positions[i] * SLOT..positions[i] * SLOT + SLOT];
      ToFromSlice(slot);
      assert t[..i + 1][..i] == t[..i];
      b := b + slot;
    }
    assert t[..|positions|] == t;
    hash := murmur(b);
  }

  /** The tuple of row `n`, and its hash. */
  function TupleAt(rows: seq<seq<Byte>>, positions: seq<nat>, n: nat): seq<Key>
    requires n < |rows|
  {
    Project(rows[n], positions)
  }

  function HashAt(rows: seq<seq<Byte>>, positions: seq<nat>, murmur: seq<Byte> -> nat, n: nat): nat
    requires n < |rows|
  {
    murmur(TupleBytes(TupleAt(rows, positions, n)))
  }

  /** Row `n` becomes a result: it is fully bound and no earlier row has its hash. */
  ghost predicate Chosen(rows: seq<seq<Byte>>, positions: seq<nat>, murmur: seq<Byte> -> nat, n: nat) {
    && n < |rows| && EMPTY_KEY !in TupleAt(rows, positions, n)
    && forall m :: 0 <= m < n ==> HashAt(rows, positions, murmur, m) != HashAt(rows, positions, murmur, n)
  }

  /** Exactly the tuples of chosen rows among the first `n`, each once. */
  ghost predicate ResultsUpTo(rows: seq<seq<Byte>>, positions: seq<nat>, murmur: seq<Byte> -> nat, n: nat,
                              results: seq<seq<Key>>)
    requires n <= |rows|
  {
    && (forall t :: t in results <==>
          exists m :: 0 <= m < n && Chosen(rows, positions, murmur, m) && TupleAt(rows, positions, m) == t)
    && (forall i, j :: 0 <= i < j < |results| ==> results[i] != results[j])
  }

  method Positions(variablePosition: map<Var, nat>, selectVars: seq<Var>) returns (positions: seq<nat>)
    ensures |positions| == |selectVars|
    ensures forall i :: 0 <= i < |positions| ==> positions[i] == Position(variablePosition, selectVars[i])
  {
    positions := [];
    for i := 0 to |selectVars|
      invariant |positions| == i
      invariant forall j :: 0 <= j < i ==> positions[j] == Position(variablePosition, selectVars[j])
    {
      positions := positions + [Position(variablePosition, selectVars[i])];
    }
  }

  /** `getResults` over rows long enough to be hashed. A hash is marked as seen before the
      row is known to be fully bound. */
  method GetResults(rows: seq<seq<Byte>>, positions: seq<nat>,
                    murmur: seq<Byte> -> nat) returns (results: seq<seq<Key>>)
    requires forall row :: row in rows ==> Covers(row, positions)
    ensures ResultsUpTo(rows, positions, murmur, |rows|, results)
  {
    hide ResultsUpTo, HashAt, TupleAt;
    results := [];
    var jtest: set<nat> := {};
    NoResultsYet(rows, positions, murmur);
    for n := 0 to |rows|
      invariant forall h :: h in jtest <==> exists m :: 0 <= m < n && HashAt(rows, positions, murmur, m) == h
      invariant ResultsUpTo(rows, positions, murmur, n, results)
    {
      var hash := HashRowWithPos(rows[n], positions, murmur);
      HashIs(rows, positions, murmur, n, hash);
      ResultsNext(rows, positions, murmur, n, results);
      if hash !in jtest {
        jtest := jtest + {hash};
        var values := FullTuple(rows[n], positions);
        if values.Some? {
          results := results + [values.value];
        }
      }
    }
  }

  /** The values of a row, or nothing at the first unbound one. */
  method FullTuple(row: seq<Byte>, positions: seq<nat>) returns (values: Option<seq<Key>>)
    ensures values == if EMPTY_KEY in Project(row, positions) then None else Some(Project(row, positions))
  {
    var t: seq<Key> := [];
    for i := 0 to |positions|
      invariant t == Project(row, positions)[..i] && EMPTY_KEY !in t
    {
      var val := ValueAt(row, positions[i]);
      if val == EMPTY_KEY {
        assert Project(row, positions)[i] == EMPTY_KEY;
        return None;
      }
      t := t + [val];
    }
    assert t == Project(row, positions);
    values := Some(t);
  }

  lemma NoResultsYet(rows: seq<seq<Byte>>, positions: seq<nat>, murmur: seq<Byte> -> nat)
    ensures ResultsUpTo(rows, positions, murmur, 0, [])
  {
  }

  lemma HashIs(rows: seq<seq<Byte>>, positions: seq<nat>, murmur: seq<Byte> -> nat, n: nat, hash: nat)
    requires n < |rows| && hash == murmur(TupleBytes(Project(rows[n], positions)))
    ensures HashAt(rows, positions, murmur, n) == hash && TupleAt(rows, positions, n) == Project(rows[n], positions)
  {
  }

  lemma ResultsNext(rows: seq<seq<Byte>>, positions: seq<nat>, murmur: seq<Byte> -> nat, n: nat, results: seq<seq<Key>>)
    requires n < |rows| && ResultsUpTo(rows, positions, murmur, n, results)
    ensures if Chosen(rows, positions, murmur, n) then
              ResultsUpTo(rows, positions, murmur, n + 1, results + [TupleAt(rows, positions, n)])
            else ResultsUpTo(rows, positions, murmur, n + 1, results)
  {
    var t := TupleAt(rows, positions, n);
    if Chosen(rows, positions, murmur, n) {
      assert forall m :: 0 <= m < n && TupleAt(rows, positions, m) == t ==>
          HashAt(rows, positions, murmur, m) == HashAt(rows, positions, murmur, n);
      assert t !in results;
      hide Chosen, TupleAt;
      assert forall u :: u in results + [t] <==> u in results || u == t;
    }
  }

  // ---- what the results are ----

  /** Row `n` is the first with its tuple. */
  ghost predicate First(rows: seq<seq<Byte>>, positions: seq<nat>, n: nat) {
    n < |rows| && forall m :: 0 <= m < n ==> TupleAt(rows, positions, m) != TupleAt(rows, positions, n)
  }

  lemma {:induction false} FirstExists(rows: seq<seq<Byte>>, positions: seq<nat>, n: nat) returns (f: nat)
    requires n < |rows|
    ensures f <= n && First(rows, positions, f) && TupleAt(rows, positions, f) == TupleAt(rows, positions, n)
  {
    f := n;
    if m :| 0 <= m < n && TupleAt(rows, positions, m) == TupleAt(rows, positions, n) {
      f := FirstExists(rows, positions, m);
    }
  }

  /** A fully bound tuple is missing from the results exactly when its first row follows a
      row with another tuple of the same hash. */
  lemma MissingIff(rows: seq<seq<Byte>>, positions: seq<nat>, murmur: seq<Byte> -> nat, results: seq<seq<Key>>, f: nat)
    requires ResultsUpTo(rows, positions, murmur, |rows|, results)
    requires First(rows, positions, f) && EMPTY_KEY !in TupleAt(rows, positions, f)
    ensures TupleAt(rows, positions, f) !in results <==>
              exists m :: 0 <= m < f && TupleAt(rows, positions, m) != TupleAt(rows, positions, f)
                          && HashAt(rows, positions, murmur, m) == HashAt(rows, positions, murmur, f)
  {
    hide TupleAt;
    if TupleAt(rows, positions, f) in results {
      var n :| 0 <= n < |rows| && Chosen(rows, positions, murmur, n)
               && TupleAt(rows, positions, n) == TupleAt(rows, positions, f);
      assert f <= n;
      assert HashAt(rows, positions, murmur, f) == HashAt(rows, positions, murmur, n);
    }
  }

  ghost predicate CollisionFree(rows: seq<seq<Byte>>, positions: seq<nat>, murmur: seq<Byte> -> nat) {
    forall m, n :: 0 <= m < |rows| && 0 <= n < |rows| ==>
      (HashAt(rows, positions, murmur, m) == HashAt(rows, positions, murmur, n) ==>
        TupleAt(rows, positions, m) == TupleAt(rows, positions, n))
  }

  /** Without collisions the results are exactly the fully bound tuples of the rows. */
  lemma ResultsAreFullTuples(rows: seq<seq<Byte>>, positions: seq<nat>, murmur: seq<Byte> -> nat,
                             results: seq<seq<Key>>)
    requires ResultsUpTo(rows, positions, murmur, |rows|, results) && CollisionFree(rows, positions, murmur)
    ensures forall t :: t in results <==>
              EMPTY_KEY !in t && exists n :: 0 <= n < |rows| && TupleAt(rows, positions, n) == t
  {
    hide TupleAt, HashAt;
    forall n | 0 <= n < |rows| && EMPTY_KEY !in TupleAt(rows, positions, n)
      ensures TupleAt(rows, positions, n) in results
    {
      var f := FirstExists(rows, positions, n);
      MissingIff(rows, positions, murmur, results, f);
    }
  }
}
