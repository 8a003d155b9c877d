/** The insert transaction (db/transaction.go): it adds URIs and triples, closes the
    graph under declared inverses and rolls up the closure index. */
module Transactions {
  import opened Keys
  import opened Uris
  import opened Closure
  import opened Graphs
  import opened Entities
  import opened Store
  import opened Keymaps
  import opened Traversal
  import opened InClosures
  import opened OutClosures
  import opened RollupLoops
  import opened RollupRuns
  import opened Rollups

  datatype Triple = Triple(subj: URI, pred: URI, obj: URI)

  const INVERSEOF := URI("http://www.w3.org/2002/07/owl", "inverseOf")

  /** The 32-bit hash of some bytes and a salt; salt 0 hashes the bytes alone. */
  type Murmur = (string, nat) -> (Byte, Byte, Byte, Byte)

  /** `hashURI` (db/util.go:14-27) fills the first half of a key and leaves the rest zero. */
  function HashURI(murmur: Murmur, b: string, salt: nat): Key {
    var h := murmur(b, salt);
    Key(h.0, h.1, h.2, h.3, 0, 0, 0, 0)
  }

  /** Some salt leads to a key that is not taken; without one the source searches forever. */
  ghost predicate FreeSalt(murmur: Murmur, b: string, taken: set<Key>) {
    exists salt: nat :: HashURI(murmur, b, salt) !in taken
  }

  /** The key holds the salted hash in its first half and nothing in its second. */
  ghost predicate Hashes(murmur: Murmur, b: string, salt: nat, k: Key) {
    var h := murmur(b, salt);
    ToBytes(k) == [h.0, h.1, h.2, h.3] + [0, 0, 0, 0]
  }

  lemma HashesIff(murmur: Murmur, b: string, salt: nat, k: Key)
    ensures Hashes(murmur, b, salt, k) <==> k == HashURI(murmur, b, salt)
  {
    var h := murmur(b, salt);
    assert [h.0, h.1, h.2, h.3] + [0, 0, 0, 0] == [h.0, h.1, h.2, h.3, 0, 0, 0, 0];
    if Hashes(murmur, b, salt, k) {
      assert ToBytes(k)[0] == h.0 && ToBytes(k)[1] == h.1 && ToBytes(k)[2] == h.2 && ToBytes(k)[3] == h.3;
      assert ToBytes(k)[4] == 0 && ToBytes(k)[5] == 0 && ToBytes(k)[6] == 0 && ToBytes(k)[7] == 0;
    }
  }

  /** The key that a new URI gets: its first salted hash that is not taken. */
  ghost predicate FirstFree(murmur: Murmur, b: string, taken: set<Key>, k: Key) {
    k !in taken && exists salt: nat :: Hashes(murmur, b, salt, k) && TakenBefore(murmur, b, salt, taken)
  }

  ghost predicate TakenBefore(murmur: Murmur, b: string, salt: nat, taken: set<Key>) {
    forall i: nat, k :: i < salt && Hashes(murmur, b, i, k) ==> k in taken
  }

  /** There is only one such key. */
  lemma FirstFreeUnique(murmur: Murmur, b: string, taken: set<Key>, k: Key, k': Key)
    requires FirstFree(murmur, b, taken, k) && FirstFree(murmur, b, taken, k')
    ensures k == k'
  {
    hide Hashes;
    var salt: nat :| Hashes(murmur, b, salt, k) && TakenBefore(murmur, b, salt, taken);
    var salt': nat :| Hashes(murmur, b, salt', k') && TakenBefore(murmur, b, salt', taken);
    HashesIff(murmur, b, salt, k);
    HashesIff(murmur, b, salt', k');
  }

  /** Fewer than `limit` keys never exhaust the salts of a URI. */
  ghost predicate Roomy(murmur: Murmur, limit: nat) {
    forall b, taken: set<Key> :: |taken| < limit ==> FreeSalt(murmur, b, taken)
  }

  /** An inverseOf triple between `a` and `b`, in either direction. */
  ghost predicate Declared(entity: map<string, Key>, preds: map<Key, PredRecord>, a: Key, b: Key) {
    && Bytes(INVERSEOF) in entity
    && (Has(preds, a, entity[Bytes(INVERSEOF)], b) || Has(preds, b, entity[Bytes(INVERSEOF)], a))
  }

  ghost predicate HashesOk(hashes: map<URI, Key>, entity: map<string, Key>) {
    forall u :: u in hashes ==> Bytes(u) in entity && entity[Bytes(u)] == hashes[u]
  }

  ghost predicate InverseOk(inverse: map<Key, Key>, st: Store) {
    forall a :: a in inverse ==> Declared(st.entity, st.preds, a, inverse[a])
  }

  /** What holds before and after every operation of a transaction. */
  ghost predicate ValidState(st: Store, hashes: map<URI, Key>, inverse: map<Key, Key>) {
    ValidStore(st) && HashesOk(hashes, st.entity) && InverseOk(inverse, st)
  }

  /** An absent predicate record means the same as an empty one. */
  ghost predicate SameTriples(preds: map<Key, PredRecord>, preds': map<Key, PredRecord>) {
    forall p :: PredOf(preds', p) == PredOf(preds, p)
  }

  /** Loading a predicate's record into the batch changes no triple. */
  lemma TouchKeeps(st: Store, k: Key, hashes: map<URI, Key>, inverse: map<Key, Key>)
    requires ValidState(st, hashes, inverse)
    ensures var preds' := st.preds[k := PredOf(st.preds, k)];
            SameTriples(st.preds, preds') && ValidState(st.(preds := preds'), hashes, inverse)
  {
    var preds' := st.preds[k := PredOf(st.preds, k)];
    SameTriplesHave(st.preds, preds');
    SameTriplesEdges(st.graph, st.preds, preds');
    ClosureGrows(st.entity, st.pk, st.ext, st.preds, preds');
  }

  lemma SameTriplesHave(preds: map<Key, PredRecord>, preds': map<Key, PredRecord>)
    requires SameTriples(preds, preds')
    ensures forall s, p, o :: Has(preds', s, p, o) <==> Has(preds, s, p, o)
    ensures forall s, p, o :: HasByObject(preds', s, p, o) <==> HasByObject(preds, s, p, o)
  {
  }

  lemma SameTriplesEdges(graph: map<Key, Node>, preds: map<Key, PredRecord>, preds': map<Key, PredRecord>)
    requires SameTriples(preds, preds') && PredsOk(graph, preds) && EdgesStored(graph, preds)
    requires forall p :: p in preds' ==> PredRecordOk(preds'[p], p)
    ensures PredsOk(graph, preds') && EdgesStored(graph, preds')
    ensures ViewsAgree(graph, preds) ==> ViewsAgree(graph, preds')
  {
    SameTriplesHave(preds, preds');
  }

  class Transaction {
    const murmur: Murmur
    // the five stores
    var entity: map<string, Key>
    var pk: map<Key, string>
    var graph: map<Key, Node>
    var ext: map<Key, IndexRecord>
    var pred: map<Key, PredRecord>
    // the transaction's own state
    var predbatch: map<Key, PredRecord>
    var hashes: map<URI, Key>
    var inverse: map<Key, Key>

    ghost function Db(): Store
      reads this
    {
      Store(entity, pk, graph, ext, pred + predbatch)
    }

    ghost predicate Valid()
      reads this
    {
      ValidState(Db(), hashes, inverse)
    }

    /** `openTransaction` on committed stores. */
    constructor Open(murmur: Murmur, db: Store)
      requires ValidStore(db)
      ensures Valid() && Db() == db && this.murmur == murmur
    {
      this.murmur := murmur;
      entity, pk, graph, ext, pred := db.entity, db.pk, db.graph, db.ext, db.preds;
      predbatch, hashes, inverse := map[], map[], map[];
      new;
      assert pred + predbatch == pred;
    }

    /** `done`: the pending predicate records are written and the stores committed. */
    method Done() returns (db: Store)
      requires Valid()
      modifies this
      ensures ValidStore(db) && db == old(Db())
    {
      pred := pred + predbatch;
      db := Store(entity, pk, graph, ext, pred);
    }

    /** The first salted hash that is not taken. */
    method FreshKey(b: string) returns (k: Key)
      requires FreeSalt(murmur, b, pk.Keys)
      ensures FirstFree(murmur, b, pk.Keys, k)
    {
      ghost var free: nat :| HashURI(murmur, b, free) !in pk.Keys;
      var salt: nat := 0;
      k := HashURI(murmur, b, salt);
      while k in pk
        invariant k == HashURI(murmur, b, salt) && salt <= free
        invariant forall i: nat :: i < salt ==> HashURI(murmur, b, i) in pk
        decreases free - salt
      {
        salt := salt + 1;
        k := HashURI(murmur, b, salt);
      }
      HashesIff(murmur, b, salt, k);
      forall i: nat, j | i < salt && Hashes(murmur, b, i, j)
        ensures j in pk
      {
        HashesIff(murmur, b, i, j);
      }
    }

    /** Give a URI a key, unless it has one, and the key an entity. */
    method AddURI(uri: URI)
      requires TablesInverse(entity, pk) && (forall k :: k in graph <==> k in pk) && HashesOk(hashes, entity)
      requires FreeSalt(murmur, Bytes(uri), pk.Keys)
      modifies `entity, `pk, `graph, `hashes
      ensures Bytes(uri) in entity && hashes == old(hashes)[uri := entity[Bytes(uri)]]
      ensures Bytes(uri) in old(entity) ==> Db() == old(Db())
      ensures Bytes(uri) !in old(entity) ==>
                && FirstFree(murmur, Bytes(uri), old(pk).Keys, entity[Bytes(uri)])
                && Db() == AddKey(old(Db()), Bytes(uri), entity[Bytes(uri)])
    {
      hide FirstFree;
      var hashdest;
      var b := Bytes(uri);
      if uri in hashes {
        hashdest := hashes[uri];
        assert hashes == hashes[uri := hashdest];
      } else {
        if b in entity {
          hashdest := entity[b];
        } else {
          hashdest := FreshKey(b);
          entity := entity[b := hashdest];
          pk := pk[hashdest := b];
        }
        hashes := hashes[uri := hashdest];
      }
      if hashdest !in graph {
        graph := graph[hashdest := Node(hashdest, map[], map[])];
      }
    }

    /** The same, on a valid transaction. */
    method AddURIValid(uri: URI)
      requires Valid() && FreeSalt(murmur, Bytes(uri), pk.Keys)
      modifies `entity, `pk, `graph, `hashes
      ensures Valid() && Added(old(Db()), Db(), {Bytes(uri)}, 1)
      ensures hashes == old(hashes)[uri := entity[Bytes(uri)]]
    {
      ghost var st := Db();
      AddURI(uri);
      AddURIKeeps(st, Db(), Bytes(uri), inverse);
      AddURIHashes(st, Db(), old(hashes), uri);
    }

    /** The pending record of a predicate, loading it into the batch if need be. */
    method GetPredicateByHash(k: Key) returns (r: PredicateEntity)
      requires PredOf(pred + predbatch, k).pk == k
      modifies `predbatch
      ensures fresh(r) && r.Record() == PredOf(old(pred + predbatch), k)
      ensures pred + predbatch == old(pred + predbatch)[k := r.Record()]
      ensures k in predbatch && predbatch[k] == r.Record()
    {
      if k !in predbatch {
        var record := if k in pred then pred[k] else PredRecord(k, map[], map[]);
        MergeUpdate(pred, predbatch, k, record);
        predbatch := predbatch[record.pk := record];
      }
      r := new PredicateEntity.Load(predbatch[k]);
    }

    /** The predicate index gains the pair. */
    method PutPair(p: Key, s: Key, o: Key)
      requires PredOf(pred + predbatch, p).pk == p
      modifies `predbatch
      ensures pred + predbatch == InsertPair(old(pred + predbatch), p, s, o)
    {
      var predEnt := GetPredicateByHash(p);
      var changed := predEnt.AddSubjectObject(s, o);
      if changed {
        MergeUpdate(pred, predbatch, p, predEnt.Record());
        predbatch := predbatch[predEnt.pk := predEnt.Record()];
      }
    }

    /** The two entities gain their edges. */
    method PutEdges(s: Key, p: Key, o: Key)
      requires s in graph && graph[s].pk == s && o in graph && graph[o].pk == o
      modifies `graph
      ensures graph == InsertEdges(old(graph), s, p, o)
    {
      var subj := new Entity.Load(graph[s]);
      var obj := new Entity.Load(graph[o]);
      var changed := subj.AddOutEdge(p, obj.pk);
      if changed {
        graph := graph[subj.pk := subj.Record()];
      }
      changed := obj.AddInEdge(p, subj.pk);
      if changed {
        graph := graph[obj.pk := obj.Record()];
      }
    }

    method PutTriple(s: Key, p: Key, o: Key)
      requires TripleReady(Db(), s, p, o)
      modifies `graph, `predbatch
      ensures Db() == InsertTriple(old(Db()), s, p, o)
    {
      PutPair(p, s, o);
      PutEdges(s, p, o);
    }

    /** The same, on a valid transaction. */
    method PutTripleValid(s: Key, p: Key, o: Key)
      requires Valid() && TripleReady(Db(), s, p, o)
      modifies `graph, `predbatch
      ensures Valid() && Db() == InsertTriple(old(Db()), s, p, o)
    {
      ghost var st := Db();
      PutTriple(s, p, o);
      InsertTripleKeeps(st, s, p, o, hashes, inverse);
    }

    /** The four URIs of a triple: the last is the predicate's with a "+" appended. */
    method AddTripleURIs(t: Triple, ghost limit: nat)
      requires Valid() && Roomy(murmur, limit) && |pk.Keys| + 4 <= limit
      modifies `entity, `pk, `graph, `hashes
      ensures Valid() && Added(old(Db()), Db(), TripleBytes(t), 4)
      ensures t.subj in hashes && t.pred in hashes && t.obj in hashes
    {
      ghost var st := Db();
      AddURIValid(t.subj);
      ghost var st1 := Db();
      AddURIValid(t.pred);
      ghost var st2 := Db();
      AddedTwice(st, st1, st2, {Bytes(t.subj)}, {Bytes(t.pred)}, 1, 1);
      AddURIValid(t.obj);
      ghost var st3 := Db();
      AddedTwice(st, st2, st3, {Bytes(t.subj)} + {Bytes(t.pred)}, {Bytes(t.obj)}, 2, 1);
      var rev := t.pred.(value := t.pred.value + "+");
      AddURIValid(rev);
      AddedTwice(st, st3, Db(), {Bytes(t.subj)} + {Bytes(t.pred)} + {Bytes(t.obj)}, {Bytes(rev)}, 3, 1);
    }

    /** Insert one triple. `mid` is the state once its URIs have keys. */
    method AddTriple(t: Triple, ghost limit: nat) returns (ghost mid: Store)
      requires Valid() && Roomy(murmur, limit) && |pk.Keys| + 4 <= limit
      modifies `entity, `pk, `graph, `hashes, `predbatch
      ensures Valid()
      ensures Added(old(Db()), mid, TripleBytes(t), 4) && Located(mid, t) && TablesInverse(mid.entity, mid.pk)
      ensures Db() == InsertTriple(mid, KeyOf(mid, t.subj), KeyOf(mid, t.pred), KeyOf(mid, t.obj))
      ensures t.subj in hashes && t.pred in hashes && t.obj in hashes
    {
      hide ValidState, Added, Roomy, TripleBytes, InsertTriple;
      AddTripleURIs(t, limit);
      mid := Db();
      var s, p, o := hashes[t.subj], hashes[t.pred], hashes[t.obj];
      LocatedKeys(mid, hashes, inverse, t);
      PutTripleValid(s, p, o);
    }

    /** `getPredicateByURI`, called for its effect on the batch. */
    method Touch(k: Key)
      requires Valid()
      modifies `predbatch
      ensures Valid() && Db() == old(Db()).(preds := pred + predbatch)
      ensures SameTriples(old(pred + predbatch), pred + predbatch)
    {
      ghost var st := Db();
      assert PredOf(st.preds, k).pk == k;
      var r := GetPredicateByHash(k);
      TouchKeeps(st, k, hashes, inverse);
    }

    /** Note that two predicates are each other's inverse, and load their records. */
    method NoteInverse(s: Key, o: Key)
      requires Valid() && Declared(entity, pred + predbatch, s, o)
      modifies `predbatch, `inverse
      ensures Valid() && Db() == old(Db()).(preds := pred + predbatch)
      ensures SameTriples(old(pred + predbatch), pred + predbatch)
      ensures inverse == old(inverse)[s := o][o := s]
    {
      hide ValidState, Declared;
      DeclaredKeeps(Db(), s, o, hashes, inverse);
      inverse := inverse[s := o];
      inverse := inverse[o := s];
      Touch(s);
      Touch(o);
    }

    /** Insert a triple and say what that did to the triple set. */
    method InsertNamed(t: Triple, ghost limit: nat)
      requires Valid() && Roomy(murmur, limit) && |pk.Keys| + 4 <= limit
      modifies `entity, `pk, `graph, `hashes, `predbatch
      ensures Valid() && Loaded(old(Db()), Db(), t)
      ensures t.subj in hashes && t.pred in hashes && t.obj in hashes
    {
      hide ValidState, InsertTriple, Added, Loaded, TripleBytes;
      ghost var st := Db();
      var mid := AddTriple(t, limit);
      InsertedIsLoaded(st, mid, Db(), t);
    }

    /** One turn of the loading loop: insert the triple and note a declared inverse. */
    method LoadTriple(t: Triple, ghost limit: nat)
      requires Valid() && Roomy(murmur, limit) && |pk.Keys| + 4 <= limit
      modifies `entity, `pk, `graph, `hashes, `predbatch, `inverse
      ensures Valid() && Loaded(old(Db()), Db(), t)
      ensures t.pred in hashes
    {
      hide ValidState, Declared, Loaded, SameTriples;
      ghost var st := Db();
      InsertNamed(t, limit);
      if t.pred.ns == INVERSEOF.ns && t.pred.value == INVERSEOF.value {
        ghost var mid := Db();
        LoadedDeclares(st, mid, t, hashes, inverse);
        NoteInverse(hashes[t.subj], hashes[t.obj]);
        LoadedThenTouched(st, mid, Db(), t);
      }
    }

    /** The loading loop. */
    method LoadTriples(dataset: seq<Triple>, ghost limit: nat) returns (newPredicates: set<Key>)
      requires Valid() && Roomy(murmur, limit) && |pk.Keys| + 4 * |dataset| <= limit
      modifies `entity, `pk, `graph, `hashes, `predbatch, `inverse
      ensures Valid() && AllLoaded(old(Db()), Db(), dataset)
      ensures PredicatesOf(entity, dataset, newPredicates)
    {
      hide ValidState, AllLoaded, Loaded, Roomy, PredicatesOf, NamesGrew, Mentions, Keeps, Names, Has, InStep, HashURI,
           ValidStore, InverseOk, HashesOk, SameTriples;
      newPredicates := {};
      ghost var st := Db();
      NothingLoaded(st);
      for i := 0 to |dataset|
        invariant Valid() && AllLoaded(st, Db(), dataset[..i]) && PredicatesOf(entity, dataset[..i], newPredicates)
        invariant |pk.Keys| <= |st.pk.Keys| + 4 * i
      {
        ghost var mid := Db();
        LoadTriple(dataset[i], limit);
        LoadedMore(st, mid, Db(), dataset[..i], dataset[i]);
        PredicatesMore(mid, Db(), dataset[..i], dataset[i], newPredicates, hashes, inverse);
        newPredicates := newPredicates + {hashes[dataset[i].pred]};
        assert dataset[..i + 1] == dataset[..i] + [dataset[i]];
      }
      assert dataset[..|dataset|] == dataset;
    }

    /** Note the declared pairs given, in any order. */
    method NoteInverses(pairs: set<(Key, Key)>)
      requires Valid() && forall s, o :: (s, o) in pairs ==> Declared(entity, pred + predbatch, s, o)
      modifies `inverse
      ensures Valid() && Db() == old(Db())
      ensures forall s, o :: (s, o) in pairs ==> s in inverse && o in inverse
      ensures forall k :: k in old(inverse) ==> k in inverse
    {
      hide ValidState, Declared;
      var todo := pairs;
      while todo != {}
        invariant todo <= pairs && Valid()
        invariant forall s, o :: (s, o) in pairs && (s, o) !in todo ==> s in inverse && o in inverse
        invariant forall k :: k in old(inverse) ==> k in inverse
      {
        var pair :| pair in todo;
        todo := todo - {pair};
        var (s, o) := pair;
        DeclaredKeeps(Db(), s, o, hashes, inverse);
        inverse := inverse[s := o];
        inverse := inverse[o := s];
      }
    }

    /** Every stored inverseOf triple goes into the table of inverses. */
    method CollectInverses()
      requires Valid()
      modifies `predbatch, `inverse
      ensures Valid() && Db() == old(Db()).(preds := pred + predbatch)
      ensures SameTriples(old(pred + predbatch), pred + predbatch)
      ensures Covers(inverse, entity, pred + predbatch)
    {
      hide ValidState;
      if Bytes(INVERSEOF) !in entity {
        return;
      }
      var k := entity[Bytes(INVERSEOF)];
      Touch(k);
      PairsAre(pred + predbatch, k);
      NoteInverses(Pairs(pred + predbatch, k));
    }

    /** One turn of the inverse-edge loop: the pair (s, o) of predicate `p` gives the
        pair (o, s) of its inverse `q`. */
    method ReversePair(p: Key, q: Key, s: Key, o: Key)
      requires s in graph && graph[s].pk == s && o in graph && graph[o].pk == o
      requires PredOf(pred + predbatch, q).pk == q
      modifies `graph, `predbatch
      ensures Db() == InsertReverse(old(Db()), p, q, s, o)
    {
      var subjectEnt := new Entity.Load(graph[s]);
      var objectEnt := new Entity.Load(graph[o]);
      var changed := subjectEnt.AddInEdge(q, o);
      changed := subjectEnt.AddOutEdge(p, o);
      changed := objectEnt.AddOutEdge(q, s);
      changed := objectEnt.AddInEdge(p, s);
      graph := graph[subjectEnt.pk := subjectEnt.Record()];
      graph := graph[objectEnt.pk := objectEnt.Record()];
      PutPair(q, o, s);
    }

    method ReversePairValid(p: Key, q: Key, s: Key, o: Key)
      requires Valid() && Has(pred + predbatch, s, p, o)
      modifies `graph, `predbatch
      ensures Valid() && PairReversed(old(Db()), Db(), q, s, o)
    {
      ghost var st := Db();
      PairIsReady(st, p, q, s, o);
      ReversePair(p, q, s, o);
      PairReverses(st, p, q, s, o, hashes, inverse);
    }

    /** All pairs of `p`, reversed into `q`. When `q` is `p` itself the map is extended
        while it is iterated, and the source's iteration may or may not visit the new
        pairs, too. */
    method ReversePredicate(p: Key, q: Key)
      requires Valid()
      modifies `graph, `predbatch
      ensures Valid() && PredicateReversed(old(Db()), Db(), p, q)
    {
      hide ValidState, PairReversed, SameTriples, PairLoop, PredicateReversed, Has;
      ghost var st := Db();
      Touch(p);
      Touch(q);
      var todo := Pairs(pred + predbatch, p);
      var visited: set<(Key, Key)> := {};
      PairLoopStarts(st, Db(), p, q);
      while todo != {}
        invariant Valid() && todo !! visited && todo + visited <= Universe(st, p)
        invariant PairLoop(st, Db(), p, q, todo, visited)
        decreases Universe(st, p) - visited
      {
        var pair :| pair in todo;
        var (s, o) := pair;
        ghost var mid := Db();
        PairInLoop(st, mid, p, q, todo, visited, s, o);
        ReversePairValid(p, q, s, o);
        visited := visited + {pair};
        var revisit: set<(Key, Key)> := {};
        if p == q {
          // the mirrored pair is in the map now
          revisit :| revisit <= {(o, s)} - visited;
        }
        PairLoopTurns(st, mid, Db(), p, q, todo, visited, s, o, revisit);
        todo := todo - {pair} + revisit;
      }
      AllPairsReversed(st, Db(), p, q, visited);
    }

    /** The loop over the table of inverses, in any order. */
    method AddReverseEdges()
      requires Valid() && Covers(inverse, entity, pred + predbatch)
      modifies `graph, `predbatch
      ensures Valid() && AllReversed(old(Db()), Db()) && ReversesAll(old(Db()), Db(), inverse)
    {
      hide ValidState, PredicateReversed, Covers, OneInverse, InverseLoop, AllReversed, Reverses, NoDuplicates,
           OnlyIndexChanged;
      ghost var st := Db();
      var todo := inverse.Keys;
      ghost var order := [];
      InverseLoopStarts(st, inverse);
      while todo != {}
        invariant Valid() && todo <= inverse.Keys
        invariant InverseLoop(st, Db(), inverse, inverse.Keys - todo)
        invariant NoDuplicates(order) && (set p | p in order) == inverse.Keys - todo
        invariant Reverses(st, Db(), order, inverse)
      {
        var predicateHash :| predicateHash in todo;
        ghost var mid := Db();
        ReversePredicate(predicateHash, inverse[predicateHash]);
        InverseLoopTurns(st, mid, Db(), inverse, hashes, inverse.Keys - todo, predicateHash);
        OneReversed(st, mid, Db(), order, inverse, predicateHash, inverse.Keys - todo);
        assert inverse.Keys - (todo - {predicateHash}) == inverse.Keys - todo + {predicateHash};
        order := order + [predicateHash];
        todo := todo - {predicateHash};
      }
      assert inverse.Keys - {} == inverse.Keys;
      InverseLoopEnds(st, Db(), inverse, hashes);
    }

    // ---- the closure index ----

    /** One turn of the inner loop of a rollup: the key goes to the owner's record in
        memory, the owner to the stored record. */
    method HandOver(d: Dir, p: Key, owner: Key, own: EntityExtendedIndex, max: Key, k: Key)
      requires max in ext && ext[max].pk == max
      modifies `ext, own
      ensures own.Record() == WithPlus(old(own.Record()), d, p, k)
      ensures ext == old(ext)[max := WithPlus(old(ext)[max], Opposite(d), p, owner)]
    {
      var other := new EntityExtendedIndex.Load(ext[max]);
      var added := own.AddPlusEdge(d, p, k);
      added := other.AddPlusEdge(Opposite(d), p, owner);
      ext := ext[other.pk := other.Record()];
    }

    /** The inner loop of a rollup: hand every result to the owner's record, and the owner
        to the record of some result. The record is chosen by one call of `Max` and the
        key by another, so they need not belong together. */
    method Drain(d: Dir, p: Key, owner: Key, own: EntityExtendedIndex, results: Keymap)
      returns (ok: bool, ghost picks: seq<(Key, Key)>)
      requires forall k :: k in ext ==> ext[k].pk == k
      modifies `ext, own, results
      ensures Picks(picks, old(ext).Keys, old(results.m)) && results.m == Rest(picks, old(results.m))
      ensures (ext, own.Record()) == Drained(picks, d, p, owner, old(ext), old(own.Record()))
      ensures ext.Keys == old(ext).Keys && own.pk == old(own.pk)
      ensures if ok then results.m == {} else exists x :: x in results.m && x !in ext
    {
      ghost var r0, ext0, own0 := results.m, ext, own.Record();
      picks := [];
      while results.m != {}
        invariant ext.Keys == ext0.Keys && own.pk == own0.pk
        invariant forall k :: k in ext ==> ext[k].pk == k
        invariant Picks(picks, ext0.Keys, r0) && results.m == Rest(picks, r0)
        invariant (ext, own.Record()) == Drained(picks, d, p, owner, ext0, own0)
        decreases results.m
      {
        var max := results.Max();
        if max !in ext {
          return false, picks;
        }
        var k := results.DeleteMax();
        PickedOnce(picks, max, k, ext0.Keys, r0, d, p, owner, ext0, own0);
        HandOver(d, p, owner, own, max, k);
        picks := picks + [(max, k)];
      }
      ok := true;
    }

    /** One turn of the two outer loops of a rollup: the subjects' (`d == Out`) and the
        objects' (`d == In`). False where the source returns an error, which is at a result
        without a record. */
    method RollUpOwner(d: Dir, p: Key, uri: URI, owner: Key, results: Keymap, ghost st: Store)
      returns (ok: bool, ghost t: OwnerTurn)
      requires ValidStore(st) && WellFormedView(TransactionView(st)) && ValidStore(st.(ext := ext))
      requires Db() == st.(ext := ext) && p in pk && uri == UriOf(pk, p) && owner in graph && results.m == {}
      modifies `ext, results
      ensures t.owner == owner && t.ok == ok && (ok ==> results.m == {})
      ensures TurnOk(st, old(ext), p, d, t) && ext == TurnResult(old(ext), p, d, t)
    {
      ghost var ext0 := ext;
      OwnerOpens(st, ext, p, owner);
      hide ValidStore, SearchPost, UriOf, WellFormedView, Searched, TurnOk, TurnResult;
      if owner !in ext {
        ext := ext[owner := EmptyRecord(owner)];
      }
      assert ext == Opened(ext0, owner);
      var own := new EntityExtendedIndex.Load(ext[owner]);
      var g := View(entity, graph, ext, true);
      var stack := new WorkList.Empty();
      var found, added := FollowPath(g, d, graph[owner], results, stack, PathPattern(uri, OnePlus));
      FoundBySearch(st, ext0, p, d, owner, results.m, found);
      ghost var picks, loaded := [], own.Record();
      ok, picks := Drain(d, p, owner, own, results);
      t := OwnerTurn(owner, picks, ok);
      TurnTaken(st, ext0, p, d, t, ext, own.Record());
      if ok {
        ext := ext[own.pk := own.Record()];
      }
    }

    /** All owners of one direction, in any order, until one fails. */
    method RollUpOwners(d: Dir, p: Key, uri: URI, owners: set<Key>, results: Keymap, ghost st: Store)
      returns (ok: bool, ghost turns: seq<OwnerTurn>)
      requires ValidStore(st) && WellFormedView(TransactionView(st)) && ValidStore(st.(ext := ext))
      requires Db() == st.(ext := ext) && p in pk && uri == UriOf(pk, p) && owners <= graph.Keys && results.m == {}
      modifies `ext, results
      ensures LoopOk(st, old(ext), p, d, owners, turns) && ext == After(old(ext), p, d, turns)
      ensures ok == AllOk(turns) && (ok ==> results.m == {})
    {
      hide ValidStore, WellFormedView, UriOf, TurnsOk, TurnOk, TurnResult, After, AllOk, Owners, OnlyGrew;
      ghost var ext0 := ext;
      var todo := owners;
      turns := [];
      NoTurnsOk(st, ext, p, d, owners);
      while todo != {}
        invariant todo <= owners && results.m == {} && Owners(turns) == owners - todo
        invariant TurnsOk(st, ext0, p, d, owners, turns) && AllOk(turns) && ext == After(ext0, p, d, turns)
        invariant ValidStore(st.(ext := ext))
      {
        var owner :| owner in todo;
        ghost var t;
        ok, t := RollUpOwner(d, p, uri, owner, results, st);
        OneMoreTurn(st, ext0, p, d, owners, turns, t);
        AfterOneMore(ext0, p, d, turns, t);
        turns := turns + [t];
        TurnsKeep(st, ext0, p, d, owners, turns);
        if !ok {
          return;
        }
        todo := todo - {owner};
      }
      ok := true;
    }

    /** Both loops of a rollup. */
    method RollUpBoth(p: Key, uri: URI, predicateEnt: PredRecord, ghost st: Store)
      returns (ok: bool, ghost run: RollupRun)
      requires ValidStore(st) && WellFormedView(TransactionView(st))
      requires Db() == st && p in pk && uri == UriOf(pk, p) && predicateEnt == PredOf(st.preds, p)
      modifies `ext
      ensures RunOk(st, p, run) && ext == RunIndex(st, p, run) && ok == Completes(run)
    {
      assert st.(ext := st.ext) == st;
      OwnersStored(st, p);
      hide ValidStore, WellFormedView, UriOf, TurnsOk, After, OnlyGrew;
      var results := new Keymap();
      ghost var first, second := [], [];
      ok, first := RollUpOwners(Out, p, uri, predicateEnt.subjects.Keys, results, st);
      NoTurns(ext, p, In);
      if ok {
        TurnsKeep(st, st.ext, p, Out, Subjects(st, p), first);
        ok, second := RollUpOwners(In, p, uri, predicateEnt.objects.Keys, results, st);
      }
      run := RollupRun(first, second);
    }

    /** Roll the edges of a predicate forward: every subject's record lists what it
        reaches, every object's what reaches it. An absent record aborts the rollup, so it
        completes if all objects have one, and aborts if no search finds any. */
    method RollupPredicate(p: Key) returns (ok: bool)
      requires Valid() && p in pk
      modifies `ext, `predbatch
      ensures Valid() && RolledUp(old(Db()), Db(), p) && RunTaken(old(Db()), p, ext, ok)
      ensures Undiverted(entity, pk, p) && ObjectsRecorded(old(Db()), p) ==> ok
      ensures !ok ==> exists d, owner :: Aborted(old(Db()), ext, p, d, owner)
      ensures AllBarren(old(Db()), p) ==> !ok
      ensures RollsExactly(old(Db()), p) ==> ok && AllExact(ext, Out, p, Pairs(old(Db()).preds, p))
      ensures RollsBothExactly(old(Db()), p) ==> ok && forall d :: AllExact(ext, d, p, Pairs(old(Db()).preds, p))
    {
      hide ValidState, ValidStore, RunOk, RunIndex, Completes, UriOf, RolledUp, WellFormedView, AllExact, SameTriples,
           Undiverted, ObjectsRecorded, Aborted, AllBarren, RollsExactly, RollsBothExactly;
      ghost var st0 := Db();
      Touch(p);
      ghost var st := Db();
      ValidStateIsStore(st0, old(hashes), old(inverse));
      ValidStateIsStore(st, hashes, inverse);
      StoreViewWellFormed(st0);
      StoreViewWellFormed(st);
      var uri := UriOf(pk, p);
      ghost var run;
      ok, run := RollUpBoth(p, uri, PredOf(pred + predbatch, p), st);
      TouchKeepsRuns(st0, st, p, run);
      RunEnds(st0, st, p, run, hashes, inverse);
      RunFates(st0, p, run);
    }

    /** Roll up the new predicates, in any order, each followed by its inverse if one is
        noted; errors are ignored. */
    method RollupAll(newPredicates: set<Key>) returns (ghost order: seq<Key>)
      requires Valid() && newPredicates <= pk.Keys
      modifies `ext, `predbatch
      ensures Valid() && OnlyIndexChanged(old(Db()), Db())
      ensures NoDuplicates(order) && (set p | p in order) == newPredicates
      ensures RollsUp(old(Db()), Db(), Visits(order, inverse))
    {
      hide ValidState, RolledUp, RunTaken, Undiverted, ObjectsRecorded, Aborted, AllBarren, RollsExactly,
           RollsBothExactly, AllExact, RollsUp, Visits, RollStep;
      ghost var st := Db();
      var todo := newPredicates;
      order := [];
      NothingVisited(st, inverse);
      while todo != {}
        invariant Valid() && todo <= newPredicates && OnlyIndexChanged(st, Db())
        invariant NoDuplicates(order) && (set p | p in order) == newPredicates - todo
        invariant RollsUp(st, Db(), Visits(order, inverse))
      {
        var predicateHash :| predicateHash in todo;
        assert predicateHash !in (set p | p in order);
        ghost var mid := Db();
        var ok := RollupPredicate(predicateHash);
        RolledUpOnlyIndex(mid, Db(), predicateHash);
        ghost var mid' := Db();
        StepTaken(mid, mid', predicateHash, ok);
        if predicateHash in inverse {
          InverseStored(Db(), hashes, inverse, predicateHash);
          ok := RollupPredicate(inverse[predicateHash]);
          RolledUpOnlyIndex(mid', Db(), inverse[predicateHash]);
          StepTaken(mid', Db(), inverse[predicateHash], ok);
        }
        OneVisited(st, mid, mid', Db(), order, inverse, predicateHash);
        Ordered(order, predicateHash, newPredicates - todo);
        order := order + [predicateHash];
        todo := todo - {predicateHash};
        assert newPredicates - todo == newPredicates - (todo + {predicateHash}) + {predicateHash};
      }
    }

    /** Insert a data set. `base` is the state once its triples are loaded, `reversed` once
        the inverse edges are added. */
    method AddTriples(dataset: seq<Triple>, ghost limit: nat)
      returns (ghost base: Store, ghost reversed: Store, ghost order: seq<Key>)
      requires Valid() && Roomy(murmur, limit) && |pk.Keys| + 4 * |dataset| <= limit
      modifies this
      ensures Valid() && AllLoaded(old(Db()), base, dataset) && Completed(base, Db())
      ensures Inserted(old(Db()), dataset, base, reversed, Db(), order, inverse)
    {
      hide ValidState, AllLoaded, AllReversed, Completed, SameTriples, Covers, Roomy, OnlyIndexChanged, PredicatesOf,
           RollsUp, Visits, InverseNoted, Inserted, NoDuplicates, ReversesAll;
      ghost var st := Db();
      var newPredicates := LoadTriples(dataset, limit);
      base := Db();
      PredicatesStored(base, dataset, newPredicates, hashes, inverse);
      CollectInverses();
      ghost var collected := Db();
      NotedInverse(base, collected, hashes, inverse);
      AddReverseEdges();
      reversed := Db();
      ValidStateIsStore(reversed, hashes, inverse);
      ReversedPk(collected, reversed);
      order := RollupAll(newPredicates);
      WholeInsert(st, dataset, base, collected, reversed, Db(), order, inverse);
    }
  }

  /** A run of inserts (db/insert.go:42-54): each data set in a transaction of its own.
      `base` is the state once the last data set's triples are loaded. */
  method Run(murmur: Murmur, db: Store, datasets: seq<seq<Triple>>, ghost limit: nat)
    returns (db': Store, ghost base: Store)
    requires ValidStore(db) && Roomy(murmur, limit)
    requires |db.pk.Keys| + TripleCount(datasets) * 4 <= limit
    ensures ValidStore(db') && Keeps(db.entity, db'.entity)
    ensures forall s, p, o :: Has(db.preds, s, p, o) ==> Has(db'.preds, s, p, o)
    ensures forall ds, s, p, o :: ds in datasets && InData(db'.entity, ds, s, p, o) ==> Has(db'.preds, s, p, o)
    ensures InStep(db) && (forall ds, t :: ds in datasets && t in ds ==> !Reflexive(t)) ==> InStep(db')
    ensures forall s, p, o :: Has(db.preds, s, p, o) ==> Has(base.preds, s, p, o)
    ensures if datasets == [] then base == db' == db else Completed(base, db')
    ensures Inserts(db, datasets, db')
    decreases |datasets|
  {
    hide ValidStore, ValidState, InStep, AllLoaded, Completed, Roomy, Has, Keeps, InData, Reflexive, Inserted;
    if datasets == [] {
      db', base := db, db;
      NothingRun(db);
    } else {
      var tx := new Transaction.Open(murmur, db);
      ghost var loaded, reversed, order := tx.AddTriples(datasets[0], limit);
      AddedRoom(db, loaded, tx.Db(), datasets[0]);
      ghost var inverse := tx.inverse;
      var next := tx.Done();
      assert InsertedOnce(db, datasets[0], next);
      hide InsertedOnce;
      db', base := Run(murmur, next, datasets[1..], limit);
      RunMore(db, loaded, next, db', datasets);
      RunKeeps(db, loaded, next, datasets[0]);
      if datasets[1..] == [] {
        base := loaded;
      }
    }
  }

  function TripleCount(datasets: seq<seq<Triple>>): nat {
    if datasets == [] then 0 else |datasets[0]| + TripleCount(datasets[1..])
  }

  lemma NothingRun(db: Store)
    ensures Keeps(db.entity, db.entity)
  {
  }

  lemma AddedRoom(db: Store, base: Store, next: Store, dataset: seq<Triple>)
    requires AllLoaded(db, base, dataset) && Completed(base, next)
    ensures |next.pk.Keys| <= |db.pk.Keys| + 4 * |dataset|
  {
    hide InStep;
  }

  lemma RunKeeps(db: Store, loaded: Store, next: Store, dataset: seq<Triple>)
    requires AllLoaded(db, loaded, dataset) && Completed(loaded, next)
    ensures forall s, p, o :: Has(db.preds, s, p, o) ==> Has(loaded.preds, s, p, o)
    ensures forall s, p, o :: Has(db.preds, s, p, o) ==> Has(next.preds, s, p, o)
  {
    hide InStep, Has, Reflexive, OneInverse, InverseClosure, InData;
  }

  lemma RunMore(db: Store, base: Store, next: Store, db': Store, datasets: seq<seq<Triple>>)
    requires datasets != [] && AllLoaded(db, base, datasets[0]) && Completed(base, next)
    requires Keeps(next.entity, db'.entity)
    requires forall s, p, o :: Has(next.preds, s, p, o) ==> Has(db'.preds, s, p, o)
    requires forall ds, s, p, o :: ds in datasets[1..] && InData(db'.entity, ds, s, p, o) ==> Has(db'.preds, s, p, o)
    requires InStep(next) && (forall ds, t :: ds in datasets[1..] && t in ds ==> !Reflexive(t)) ==> InStep(db')
    ensures Keeps(db.entity, db'.entity)
    ensures forall s, p, o :: Has(db.preds, s, p, o) ==> Has(db'.preds, s, p, o)
    ensures forall ds, s, p, o :: ds in datasets && InData(db'.entity, ds, s, p, o) ==> Has(db'.preds, s, p, o)
    ensures InStep(db) && (forall ds, t :: ds in datasets && t in ds ==> !Reflexive(t)) ==> InStep(db')
  {
    hide InStep, Has, Reflexive, OneInverse, InverseClosure;
    assert datasets == [datasets[0]] + datasets[1..];
    forall ds, s, p, o | ds in datasets && InData(db'.entity, ds, s, p, o)
      ensures Has(db'.preds, s, p, o)
    {
      if ds == datasets[0] {
        InDataKept(base.entity, db'.entity, ds, s, p, o);
        assert Has(base.preds, s, p, o);
      }
    }
    assert forall ds :: ds in datasets[1..] ==> ds in datasets;
    assert datasets[0] in datasets;
  }

  lemma InDataKept(entity: map<string, Key>, entity': map<string, Key>, dataset: seq<Triple>, s: Key, p: Key, o: Key)
    requires Keeps(entity, entity') && InData(entity', dataset, s, p, o)
    requires forall t :: t in dataset ==> exists s, p, o :: Names(entity, t, s, p, o)
    ensures InData(entity, dataset, s, p, o)
  {
    var t :| t in dataset && Names(entity', t, s, p, o);
    var a, b, c :| Names(entity, t, a, b, c);
    assert Names(entity, t, s, p, o);
  }

  // ---- the whole insert ----

  /** One rollup takes the store to the other. */
  ghost predicate RollStep(st: Store, st': Store, p: Key) {
    RolledUp(st, st', p) && exists ok :: RunTaken(st, p, st'.ext, ok)
  }

  /** Rollups of these predicates, one after the other, and nothing else. */
  ghost predicate RollsUp(st: Store, st': Store, ps: seq<Key>)
    decreases |ps|
  {
    if ps == [] then st' == st
    else
      var before, p := ps[..|ps| - 1], ps[|ps| - 1];
      exists mid :: RollsUp(st, mid, before) && RollStep(mid, st', p)
  }

  /** Each predicate, followed by its inverse if one is noted. */
  function Visits(order: seq<Key>, inverse: map<Key, Key>): seq<Key> {
    if order == [] then []
    else
      var p := order[|order| - 1];
      Visits(order[..|order| - 1], inverse) + [p] + if p in inverse then [inverse[p]] else []
  }

  /** The noted inverses are declared, and every predicate with a declared inverse has one. */
  ghost predicate InverseNoted(st: Store, inverse: map<Key, Key>) {
    InverseOk(inverse, st) && Covers(inverse, st.entity, st.preds)
  }

  /** One insert: the triples are loaded, the inverse edges added, and exactly the data set's
      predicates and their noted inverses rolled up. */
  ghost predicate Inserted(st: Store, dataset: seq<Triple>, base: Store, reversed: Store, st': Store, order: seq<Key>,
                           inverse: map<Key, Key>)
  {
    && AllLoaded(st, base, dataset) && InverseNoted(base, inverse)
    && ReversesAll(base, reversed, inverse) && Completed(base, reversed) && reversed.ext == base.ext
    && ValidStore(reversed)
    && NoDuplicates(order) && PredicatesOf(base.entity, dataset, set p | p in order)
    && RollsUp(reversed, st', Visits(order, inverse))
  }

  lemma WholeInsert(st: Store, dataset: seq<Triple>, base: Store, collected: Store, reversed: Store, st': Store,
                    order: seq<Key>, inverse: map<Key, Key>)
    requires AllLoaded(st, base, dataset) && InverseNoted(base, inverse)
    requires collected == base.(preds := collected.preds) && SameTriples(base.preds, collected.preds)
    requires AllReversed(collected, reversed) && ReversesAll(collected, reversed, inverse)
    requires ValidStore(reversed) && OnlyIndexChanged(reversed, st')
    requires NoDuplicates(order) && PredicatesOf(base.entity, dataset, set p | p in order)
    requires RollsUp(reversed, st', Visits(order, inverse))
    ensures Inserted(st, dataset, base, reversed, st', order, inverse) && Completed(base, st')
  {
    hide AllLoaded, Completed, SameTriples, PredicatesOf, RollsUp, Visits, InverseNoted, NoDuplicates, ValidStore,
         InStep, OneInverse, InverseClosure, Has, Reverses;
    assert OnlyIndexChanged(reversed, reversed) by {
      NothingChanged(reversed);
    }
    var turns :| NoDuplicates(turns) && (set p | p in turns) == inverse.Keys &&
                 Reverses(collected, reversed, turns, inverse);
    ReversesFrom(base, collected, reversed, turns, inverse);
    AllStepsComplete(base, collected, reversed, reversed);
    AllStepsComplete(base, collected, reversed, st');
  }

  lemma NothingChanged(st: Store)
    ensures OnlyIndexChanged(st, st)
  {
  }

  ghost predicate InsertedOnce(st: Store, dataset: seq<Triple>, st': Store) {
    exists base, reversed, order, inverse :: Inserted(st, dataset, base, reversed, st', order, inverse)
  }

  /** One insert for each data set. */
  ghost predicate Inserts(st: Store, datasets: seq<seq<Triple>>, st': Store)
    decreases |datasets|
  {
    if datasets == [] then st' == st
    else
      var first, rest := datasets[0], datasets[1..];
      exists mid :: InsertedOnce(st, first, mid) && Inserts(mid, rest, st')
  }

  lemma Ordered(order: seq<Key>, p: Key, ps: set<Key>)
    requires (set k | k in order) == ps
    ensures (set k | k in order + [p]) == ps + {p}
  {
  }

  lemma NothingVisited(st: Store, inverse: map<Key, Key>)
    ensures Visits([], inverse) == [] && RollsUp(st, st, [])
  {
  }

  lemma StepTaken(st: Store, st': Store, p: Key, ok: bool)
    requires RolledUp(st, st', p) && RunTaken(st, p, st'.ext, ok)
    ensures RollStep(st, st', p)
  {
    hide RolledUp, RunTaken;
  }

  lemma OneMoreStep(st: Store, mid: Store, st': Store, ps: seq<Key>, p: Key)
    requires RollsUp(st, mid, ps) && RollStep(mid, st', p)
    ensures RollsUp(st, st', ps + [p])
  {
    hide RollStep;
    var more := ps + [p];
    assert more[..|more| - 1] == ps && more[|more| - 1] == p;
  }

  lemma OneVisited(st: Store, mid: Store, mid': Store, st': Store, order: seq<Key>, inverse: map<Key, Key>, p: Key)
    requires RollsUp(st, mid, Visits(order, inverse)) && RollStep(mid, mid', p)
    requires if p in inverse then RollStep(mid', st', inverse[p]) else st' == mid'
    requires NoDuplicates(order) && p !in order
    ensures RollsUp(st, st', Visits(order + [p], inverse)) && NoDuplicates(order + [p])
  {
    hide RollsUp, RollStep;
    var more := order + [p];
    assert more[..|more| - 1] == order && more[|more| - 1] == p;
    OneMoreStep(st, mid, mid', Visits(order, inverse), p);
    if p in inverse {
      OneMoreStep(st, mid', st', Visits(order, inverse) + [p], inverse[p]);
    } else {
      assert Visits(order, inverse) + [p] + [] == Visits(order, inverse) + [p];
    }
  }

  lemma NotedInverse(base: Store, collected: Store, hashes: map<URI, Key>, inverse: map<Key, Key>)
    requires collected == base.(preds := collected.preds) && SameTriples(base.preds, collected.preds)
    requires ValidState(collected, hashes, inverse) && Covers(inverse, collected.entity, collected.preds)
    ensures InverseNoted(base, inverse)
  {
    hide ValidStore, HashesOk;
    SameTriplesHave(base.preds, collected.preds);
    hide Has, SameTriples;
    forall a, b
      ensures Declared(base.entity, base.preds, a, b) <==> Declared(collected.entity, collected.preds, a, b)
    {
    }
    hide Declared;
  }

  ghost predicate OnlyIndexChanged(st: Store, st': Store) {
    && st'.entity == st.entity && st'.pk == st.pk && st'.graph == st.graph && SameTriples(st.preds, st'.preds)
  }

  lemma RolledUpOnlyIndex(st: Store, st': Store, p: Key)
    requires RolledUp(st, st', p)
    ensures OnlyIndexChanged(st, st')
  {
  }

  lemma InverseStored(st: Store, hashes: map<URI, Key>, inverse: map<Key, Key>, p: Key)
    requires ValidState(st, hashes, inverse) && p in inverse
    ensures inverse[p] in st.pk
  {
    hide EdgesStored, ExtOk, ClosureSound, TablesInverse, HashesOk;
    assert Declared(st.entity, st.preds, p, inverse[p]);
  }

  lemma PredicatesStored(st: Store, dataset: seq<Triple>, ks: set<Key>, hashes: map<URI, Key>, inverse: map<Key, Key>)
    requires ValidState(st, hashes, inverse) && PredicatesOf(st.entity, dataset, ks)
    ensures ks <= st.pk.Keys
  {
    hide GraphOk, PredsOk, EdgesStored, ExtOk, ClosureSound, HashesOk, InverseOk;
    forall k | k in ks
      ensures k in st.pk
    {
      var t :| t in dataset && Bytes(t.pred) in st.entity && st.entity[Bytes(t.pred)] == k;
    }
  }

  lemma ReversedPk(st: Store, st': Store)
    requires AllReversed(st, st')
    ensures st'.pk == st.pk
  {
    hide InStep, OneInverse, InverseClosure;
  }

  /** What the rest of an insert does once the triples are loaded: the triple set is
      closed under declared inverses, if no predicate has two of them, and the views
      stay in step. */
  ghost predicate Completed(base: Store, st: Store) {
    && st.entity == base.entity && st.pk == base.pk
    && (forall s, p, o :: Has(base.preds, s, p, o) ==> Has(st.preds, s, p, o))
    && (InStep(base) ==> InStep(st))
    && (OneInverse(base) ==> InverseClosure(base, st))
  }

  lemma SameTriplesInStep(st: Store, st': Store)
    requires OnlyIndexChanged(st, st')
    ensures InStep(st) <==> InStep(st')
    ensures OneInverse(st) <==> OneInverse(st')
    ensures forall a, b :: Declared(st.entity, st.preds, a, b) <==> Declared(st'.entity, st'.preds, a, b)
    ensures forall s, p, o :: Has(st'.preds, s, p, o) <==> Has(st.preds, s, p, o)
  {
    SameTriplesHave(st.preds, st'.preds);
    hide Has;
    assert forall a, b :: Declared(st.entity, st.preds, a, b) <==> Declared(st'.entity, st'.preds, a, b);
    hide Declared;
  }

  lemma AllStepsComplete(base: Store, collected: Store, reversed: Store, st: Store)
    requires collected == base.(preds := collected.preds) && SameTriples(base.preds, collected.preds)
    requires AllReversed(collected, reversed) && OnlyIndexChanged(reversed, st)
    ensures Completed(base, st)
  {
    SameTriplesInStep(base, collected);
    SameTriplesInStep(reversed, st);
    hide InStep, Has, Declared, SameTriples, OneInverse;
  }

  /** With at most one inverse per predicate, a pair is stored under a predicate exactly
      when the reversed pair is stored under its inverse, whichever of the two was
      inserted and whenever the inverse was declared; the graph's edges say the same. */
  lemma InverseSymmetry(base: Store, st: Store, p: Key, q: Key, s: Key, o: Key)
    requires Completed(base, st) && OneInverse(base) && Declared(base.entity, base.preds, p, q)
    ensures Has(st.preds, s, p, o) <==> Has(st.preds, o, q, s)
    ensures InStep(base) ==> (HasOut(st.graph, s, p, o) <==> HasOut(st.graph, o, q, s))
    ensures InStep(base) ==> (HasIn(st.graph, s, p, o) <==> HasIn(st.graph, o, q, s))
  {
    hide Has, HasOut, HasIn;
    assert Declared(base.entity, base.preds, q, p);
  }

  /** Every declared inverse is honoured by the stored triples. */
  ghost predicate InverseClosed(st: Store) {
    forall p, q, s, o :: Declared(st.entity, st.preds, p, q) && Has(st.preds, s, p, o) ==> Has(st.preds, o, q, s)
  }

  /** So the last insert of a run leaves a store closed under its own declarations, if no
      predicate has two inverses and inverseOf itself has none. */
  lemma CompletedIsClosed(base: Store, st: Store)
    requires Completed(base, st) && OneInverse(base)
    requires Bytes(INVERSEOF) in base.entity ==>
               forall q :: !Declared(base.entity, base.preds, base.entity[Bytes(INVERSEOF)], q)
    ensures InverseClosed(st)
  {
    hide Has;
    forall p, q | Declared(st.entity, st.preds, p, q)
      ensures Declared(base.entity, base.preds, p, q)
    {
      hide OneInverse;
    }
    forall p, q, s, o | Declared(st.entity, st.preds, p, q) && Has(st.preds, s, p, o)
      ensures Has(st.preds, o, q, s)
    {
      InverseSymmetry(base, st, p, q, s, o);
    }
  }

  // ---- rollups ----

  /** A rollup only changes the closure index: records and entries of its predicate are
      added. */
  ghost predicate RolledUp(st: Store, st': Store, p: Key) {
    && st'.entity == st.entity && st'.pk == st.pk && st'.graph == st.graph && SameTriples(st.preds, st'.preds)
    && OnlyGrew(st.ext, st'.ext, p)
  }

  /** Some run from the store leaves this index and ends like this. */
  ghost predicate RunTaken(st: Store, p: Key, ext': Index, ok: bool) {
    && WellFormedView(TransactionView(st)) && p in st.pk
    && exists run :: RunOk(st, p, run) && ext' == RunIndex(st, p, run) && ok == Completes(run)
  }

  lemma ValidStateIsStore(st: Store, hashes: map<URI, Key>, inverse: map<Key, Key>)
    requires ValidState(st, hashes, inverse)
    ensures ValidStore(st)
  {
    hide ValidStore;
  }

  lemma PickedOnce(picks: seq<(Key, Key)>, max: Key, k: Key, recorded: set<Key>, r: set<Key>, d: Dir, p: Key,
                   owner: Key, ext: Index, own: IndexRecord)
    requires Picks(picks, recorded, r) && max in Rest(picks, r) && max in recorded && k in Rest(picks, r)
    ensures var more := picks + [(max, k)];
            && Picks(more, recorded, r) && Rest(more, r) == Rest(picks, r) - {k}
            && (var (ext', own') := Drained(picks, d, p, owner, ext, own);
                max in ext' ==>
                  Drained(more, d, p, owner, ext, own) ==
                  (ext'[max := WithPlus(ext'[max], Opposite(d), p, owner)], WithPlus(own', d, p, k)))
  {
    hide WithPlus;
    var more := picks + [(max, k)];
    assert more[..|more| - 1] == picks && more[|more| - 1] == (max, k);
  }

  /** The owner's record is there once it is opened, and the tables can be searched. */
  lemma OwnerOpens(st: Store, ext: Index, p: Key, owner: Key)
    requires ValidStore(st.(ext := ext)) && WellFormedView(TransactionView(st)) && p in st.pk && owner in st.graph
    ensures var loaded := Opened(ext, owner);
            && owner in loaded && loaded[owner].pk == owner && (forall k :: k in loaded ==> loaded[k].pk == k)
            && (var g := View(st.entity, st.graph, loaded, true);
                WellFormedView(g) && Stored(g, st.graph[owner]))
  {
    ValidKeyed(st.(ext := ext));
    OpenedEffect(ext, p, owner);
  }

  /** The search that a turn runs finds what `TurnFound` says. */
  lemma FoundBySearch(st: Store, ext: Index, p: Key, d: Dir, owner: Key, r: set<Key>, ok: bool)
    requires WellFormedView(TransactionView(st)) && p in st.pk && owner in st.graph
    requires var g := View(st.entity, st.graph, Opened(ext, owner), true);
             && WellFormedView(g) && AllStored(g, [st.graph[owner]])
             && match GetHash(g, UriOf(st.pk, p))
                case None => r == {}
                case Some(q) => (r, ok) == Searched(g, d, q, OnePlus, [st.graph[owner]], {}, {})
    ensures r == TurnFound(st, ext, p, d, owner)
  {
    hide WellFormedView, UriOf, Searched;
    assert TransactionView(st.(ext := Opened(ext, owner))) == View(st.entity, st.graph, Opened(ext, owner), true);
  }

  /** What the draining leaves is the turn's result, once the owner is saved. */
  lemma TurnTaken(st: Store, ext: Index, p: Key, d: Dir, t: OwnerTurn, drained: Index, own: IndexRecord)
    requires WellFormedView(TransactionView(st)) && p in st.pk && t.owner in st.graph
    requires var loaded, r := Opened(ext, t.owner), TurnFound(st, ext, p, d, t.owner);
             && t.owner in loaded && Picks(t.picks, loaded.Keys, r)
             && (drained, own) == Drained(t.picks, d, p, t.owner, loaded, loaded[t.owner]) &&
               drained.Keys == loaded.Keys
             && if t.ok then Rest(t.picks, r) == {} else exists x :: x in Rest(t.picks, r) && x !in drained
    ensures TurnOk(st, ext, p, d, t) && TurnResult(ext, p, d, t) == if t.ok then drained[t.owner := own] else drained
  {
    hide WellFormedView, Found, Drained;
  }

  lemma OwnersStored(st: Store, p: Key)
    requires ValidStore(st)
    ensures Subjects(st, p) <= st.graph.Keys && Objects(st, p) <= st.graph.Keys
  {
    hide ValidStore, Pairs;
    forall k | k in Subjects(st, p)
      ensures k in st.graph
    {
      var o := SubjectPairs(st, p, k);
      PairEnds(st, p, k, o);
    }
    forall k | k in Objects(st, p)
      ensures k in st.graph
    {
      var s := ObjectPairs(st, p, k);
      PairEnds(st, p, s, k);
    }
  }

  // ---- a rollup of stores that hold the same triples ----

  lemma {:induction false} TouchKeepsTurns(st0: Store, st: Store, ext: Index, p: Key, d: Dir, owners: set<Key>,
                                           turns: seq<OwnerTurn>)
    requires st == st0.(preds := st.preds) && WellFormedView(TransactionView(st)) && p in st.pk
    requires TurnsOk(st, ext, p, d, owners, turns)
    ensures TurnsOk(st0, ext, p, d, owners, turns)
    decreases |turns|
  {
    hide WellFormedView;
    if turns != [] {
      var before, t := turns[..|turns| - 1], turns[|turns| - 1];
      TouchKeepsTurns(st0, st, ext, p, d, owners, before);
      TouchKeepsTurn(st0, st, After(ext, p, d, before), p, d, t);
    }
  }

  lemma TouchKeepsTurn(st0: Store, st: Store, ext: Index, p: Key, d: Dir, t: OwnerTurn)
    requires st == st0.(preds := st.preds) && WellFormedView(TransactionView(st)) && p in st.pk
    requires TurnOk(st, ext, p, d, t)
    ensures TurnOk(st0, ext, p, d, t)
  {
    var loaded := Opened(ext, t.owner);
    assert TransactionView(st.(ext := loaded)) == TransactionView(st0.(ext := loaded));
    hide WellFormedView;
  }

  /** A run is a run of any store with the same triples. */
  lemma TouchKeepsRuns(st0: Store, st: Store, p: Key, run: RollupRun)
    requires st == st0.(preds := st.preds) && SameTriples(st0.preds, st.preds) && p in st.pk
    requires WellFormedView(TransactionView(st)) && RunOk(st, p, run)
    ensures RunOk(st0, p, run) && RunIndex(st0, p, run) == RunIndex(st, p, run)
  {
    hide WellFormedView, TurnsOk, After;
    TouchKeepsTurns(st0, st, st.ext, p, Out, Subjects(st, p), run.first);
    if AllOk(run.first) {
      TouchKeepsTurns(st0, st, After(st.ext, p, Out, run.first), p, In, Objects(st, p), run.second);
    }
  }

  lemma RunEnds(st0: Store, st: Store, p: Key, run: RollupRun, hashes: map<URI, Key>, inverse: map<Key, Key>)
    requires ValidState(st, hashes, inverse) && p in st.pk && st == st0.(preds := st.preds)
    requires SameTriples(st0.preds, st.preds) && WellFormedView(TransactionView(st)) && RunOk(st, p, run)
    ensures ValidState(st.(ext := RunIndex(st, p, run)), hashes, inverse)
    ensures RolledUp(st0, st.(ext := RunIndex(st, p, run)), p)
  {
    hide ValidStore, HashesOk, SameTriples, WellFormedView, RunOk, RunIndex, OnlyGrew;
    RollupKeeps(st, p, run);
  }

  /** The out- and in-entries come out exact. */
  ghost predicate RollsBothExactly(st: Store, p: Key) {
    && Rollable(st, p) && ObjectsRecorded(st, p) && MeetOnlyAtEnds(Pairs(st.preds, p))
    && forall d :: PresentComplete(st.ext, d, p, Pairs(st.preds, p))
  }

  /** How a run ends, in terms of the store before it. */
  lemma RunFates(st: Store, p: Key, run: RollupRun)
    requires ValidStore(st) && WellFormedView(TransactionView(st)) && p in st.pk && RunOk(st, p, run)
    ensures Undiverted(st.entity, st.pk, p) && ObjectsRecorded(st, p) ==> Completes(run)
    ensures !Completes(run) ==> exists d, owner :: Aborted(st, RunIndex(st, p, run), p, d, owner)
    ensures AllBarren(st, p) ==> !Completes(run)
    ensures RollsExactly(st, p) ==> Completes(run) && AllExact(RunIndex(st, p, run), Out, p, Pairs(st.preds, p))
    ensures RollsBothExactly(st, p) ==>
              Completes(run) && forall d :: AllExact(RunIndex(st, p, run), d, p, Pairs(st.preds, p))
  {
    hide ValidStore, WellFormedView, RunOk, RunIndex, Completes, Undiverted, ObjectsRecorded, Aborted, AllBarren,
         RollsExactly, AllExact, Rollable, Pairs, MeetOnlyAtEnds, PresentComplete;
    if !Completes(run) {
      IncompleteAborted(st, p, run);
      if Undiverted(st.entity, st.pk, p) {
        var d, owner :| Aborted(st, RunIndex(st, p, run), p, d, owner);
        AbortMeansMissing(st, RunIndex(st, p, run), p, d, owner);
      }
    }
    if AllBarren(st, p) {
      BarrenAborts(st, p, run);
    }
    if RollsExactly(st, p) {
      RunIsExact(st, p, run);
    }
    if RollsBothExactly(st, p) {
      InIsExact(st, p, run);
    }
  }

  /** No predicate is declared to have two inverses. */
  ghost predicate OneInverse(st: Store) {
    forall a, b, c :: Declared(st.entity, st.preds, a, b) && Declared(st.entity, st.preds, a, c) ==> b == c
  }

  /** The closure under declared inverses (OWL 2 Structural Specification, section 9.2.4). */
  ghost predicate InverseClosure(st: Store, st': Store) {
    forall s, p, o :: Has(st'.preds, s, p, o) <==>
                      || Has(st.preds, s, p, o)
                      || exists q :: Declared(st.entity, st.preds, p, q) && Has(st.preds, o, q, s)
  }

  /** What adding the inverse edges does. */
  ghost predicate AllReversed(st: Store, st': Store) {
    && st'.entity == st.entity && st'.pk == st.pk && st'.ext == st.ext
    && (forall s, p, o :: Has(st.preds, s, p, o) ==> Has(st'.preds, s, p, o))
    && (InStep(st) ==> InStep(st'))
    && (OneInverse(st) ==> InverseClosure(st, st'))
  }

  /** The state of the loop over the inverses once the predicates in `done` are reversed. */
  ghost predicate InverseLoop(st: Store, st': Store, inverse: map<Key, Key>, done: set<Key>) {
    && st'.entity == st.entity && st'.pk == st.pk && st'.ext == st.ext
    && (forall s, p, o :: Has(st.preds, s, p, o) ==> Has(st'.preds, s, p, o))
    && (InStep(st) ==> InStep(st'))
    && (OneInverse(st) ==>
          && (forall s, p, o :: Has(st'.preds, s, p, o) ==>
                Has(st.preds, s, p, o) || (p in inverse && Has(st.preds, o, inverse[p], s)))
          && (forall s, p, o :: p in done && p in inverse && Has(st.preds, s, p, o) ==>
                Has(st'.preds, o, inverse[p], s)))
  }

  lemma InverseLoopStarts(st: Store, inverse: map<Key, Key>)
    ensures InverseLoop(st, st, inverse, inverse.Keys - inverse.Keys)
    ensures Reverses(st, st, [], inverse) && NoDuplicates([])
  {
    assert inverse.Keys - inverse.Keys == {};
    NothingChanged(st);
  }

  /** The pairs of these predicates, one after the other, reversed into the noted inverses. */
  ghost predicate Reverses(st: Store, st': Store, order: seq<Key>, inverse: map<Key, Key>)
    decreases |order|
  {
    if order == [] then OnlyIndexChanged(st, st') && st'.ext == st.ext
    else
      var before, p := order[..|order| - 1], order[|order| - 1];
      p in inverse && exists mid :: Reverses(st, mid, before, inverse) && PredicateReversed(mid, st', p, inverse[p])
  }

  /** Every predicate with a noted inverse is reversed once, in some order. */
  ghost predicate ReversesAll(st: Store, st': Store, inverse: map<Key, Key>) {
    exists order :: NoDuplicates(order) && (set p | p in order) == inverse.Keys && Reverses(st, st', order, inverse)
  }

  lemma OneReversed(st: Store, mid: Store, st': Store, order: seq<Key>, inverse: map<Key, Key>, p: Key, done: set<Key>)
    requires Reverses(st, mid, order, inverse) && p in inverse && PredicateReversed(mid, st', p, inverse[p])
    requires NoDuplicates(order) && (set k | k in order) == done && p !in done
    ensures Reverses(st, st', order + [p], inverse) && NoDuplicates(order + [p])
    ensures (set k | k in order + [p]) == done + {p}
  {
    hide PredicateReversed, OnlyIndexChanged;
    var more := order + [p];
    assert more[..|more| - 1] == order && more[|more| - 1] == p;
    Ordered(order, p, done);
    assert p !in (set k | k in order);
  }

  /** Loading records into the batch first changes nothing about it. */
  lemma {:induction false} ReversesFrom(base: Store, st: Store, st': Store, order: seq<Key>, inverse: map<Key, Key>)
    requires OnlyIndexChanged(base, st) && st.ext == base.ext && Reverses(st, st', order, inverse)
    ensures Reverses(base, st', order, inverse)
    decreases |order|
  {
    hide PredicateReversed;
    if order != [] {
      hide OnlyIndexChanged;
      var before, p := order[..|order| - 1], order[|order| - 1];
      var mid :| Reverses(st, mid, before, inverse) && PredicateReversed(mid, st', p, inverse[p]);
      ReversesFrom(base, st, mid, before, inverse);
    }
  }

  /** With one inverse each, the table of inverses is its own inverse. */
  lemma Involution(st: Store, inverse: map<Key, Key>, p: Key)
    requires InverseOk(inverse, st) && Covers(inverse, st.entity, st.preds) && OneInverse(st) && p in inverse
    ensures inverse[p] in inverse && inverse[inverse[p]] == p
  {
    var q := inverse[p];
    assert Declared(st.entity, st.preds, p, q);
    assert Declared(st.entity, st.preds, q, p);
    assert Declared(st.entity, st.preds, q, inverse[q]);
  }

  lemma InverseLoopTurns(st: Store, mid: Store, st': Store, inverse: map<Key, Key>, hashes: map<URI, Key>,
                         done: set<Key>, p: Key)
    requires ValidState(st, hashes, inverse) && Covers(inverse, st.entity, st.preds) && p in inverse
    requires InverseLoop(st, mid, inverse, done) && PredicateReversed(mid, st', p, inverse[p])
    ensures InverseLoop(st, st', inverse, done + {p})
  {
    hide ValidStore, HashesOk, InStep, Has, Declared;
    if OneInverse(st) {
      hide OneInverse;
      Involution(st, inverse, p);
    }
  }

  lemma InverseLoopEnds(st: Store, st': Store, inverse: map<Key, Key>, hashes: map<URI, Key>)
    requires ValidState(st, hashes, inverse) && Covers(inverse, st.entity, st.preds)
    requires InverseLoop(st, st', inverse, inverse.Keys)
    ensures AllReversed(st, st')
  {
    hide ValidStore, HashesOk, InStep, Has;
    if OneInverse(st) {
      forall s, p, o
        ensures Has(st'.preds, s, p, o) <==>
                Has(st.preds, s, p, o) || exists q :: Declared(st.entity, st.preds, p, q) && Has(st.preds, o, q, s)
      {
        if q :| Declared(st.entity, st.preds, p, q) && Has(st.preds, o, q, s) {
          assert Declared(st.entity, st.preds, q, p);
          assert Declared(st.entity, st.preds, q, inverse[q]);
          assert inverse[q] == p;
        }
        if Has(st'.preds, s, p, o) && !Has(st.preds, s, p, o) {
          assert Declared(st.entity, st.preds, p, inverse[p]);
        }
      }
    }
  }

  // ---- inverse edges ----

  lemma PairIsReady(st: Store, p: Key, q: Key, s: Key, o: Key)
    requires ValidStore(st) && Has(st.preds, s, p, o)
    ensures s in st.graph && st.graph[s].pk == s && o in st.graph && st.graph[o].pk == o
    ensures PredOf(st.preds, q).pk == q
  {
    assert s in st.graph && NodeOk(st.graph[s], s);
    assert o in st.graph && NodeOk(st.graph[o], o);
  }

  /** What reversing one pair does: the inverse pair joins the triple set. */
  ghost predicate PairReversed(st: Store, st': Store, q: Key, s: Key, o: Key) {
    && st'.entity == st.entity && st'.pk == st.pk && st'.ext == st.ext
    && (forall a, r, b :: Has(st'.preds, a, r, b) <==> Has(st.preds, a, r, b) || (a == o && r == q && b == s))
    && (InStep(st) ==> InStep(st'))
  }

  lemma PairReverses(st: Store, p: Key, q: Key, s: Key, o: Key, hashes: map<URI, Key>, inverse: map<Key, Key>)
    requires ValidState(st, hashes, inverse) && Has(st.preds, s, p, o)
    requires s in st.graph && o in st.graph
    ensures ValidState(InsertReverse(st, p, q, s, o), hashes, inverse)
    ensures PairReversed(st, InsertReverse(st, p, q, s, o), q, s, o)
  {
    hide GraphOk, PredsOk, EdgesStored, ExtOk, ClosureSound, TablesInverse, ReverseEdges, HasPair;
    InsertReverseValid(st, p, q, s, o);
    InsertPairMeaning(st.preds, q, o, s);
    if InStep(st) {
      ReverseInStep(st, p, q, s, o);
    }
  }

  lemma ReverseInStep(st: Store, p: Key, q: Key, s: Key, o: Key)
    requires InStep(st) && Has(st.preds, s, p, o) && s in st.graph && o in st.graph
    ensures InStep(InsertReverse(st, p, q, s, o))
  {
    InsertPairMeaning(st.preds, q, o, s);
    ReverseKeepsViewsIff(st.graph, st.preds, p, q, s, o);
  }

  /** The state of the inverse-edge loop after the pairs in `visited`. */
  ghost predicate Reversing(st: Store, st': Store, q: Key, visited: set<(Key, Key)>) {
    && st'.entity == st.entity && st'.pk == st.pk && st'.ext == st.ext
    && (forall a, r, b :: Has(st'.preds, a, r, b) <==> Has(st.preds, a, r, b) || (r == q && (b, a) in visited))
    && (InStep(st) ==> InStep(st'))
  }

  /** The pairs the loop can meet. */
  ghost function Universe(st: Store, p: Key): set<(Key, Key)> {
    Pairs(st.preds, p) + Converse(Pairs(st.preds, p))
  }

  ghost predicate PairLoop(st: Store, st': Store, p: Key, q: Key, todo: Edges, visited: Edges) {
    && Reversing(st, st', q, visited)
    && Pairs(st.preds, p) <= todo + visited
    && (p != q ==> todo + visited <= Pairs(st.preds, p))
    && (forall s, o :: (s, o) in todo ==> Has(st'.preds, s, p, o))
  }

  lemma PairLoopStarts(st: Store, st': Store, p: Key, q: Key)
    requires st' == st.(preds := st'.preds) && SameTriples(st.preds, st'.preds)
    ensures Pairs(st'.preds, p) == Pairs(st.preds, p)
    ensures PairLoop(st, st', p, q, Pairs(st.preds, p), {})
  {
    SameTriplesHave(st.preds, st'.preds);
    PairsAre(st.preds, p);
    PairsAre(st'.preds, p);
  }

  lemma PairInLoop(st: Store, st': Store, p: Key, q: Key, todo: Edges, visited: Edges, s: Key, o: Key)
    requires PairLoop(st, st', p, q, todo, visited) && (s, o) in todo && todo + visited <= Universe(st, p)
    ensures Has(st'.preds, s, p, o)
    ensures (o, s) in Universe(st, p)
  {
    var pair, mirror := (s, o), (o, s);
    var e := Pairs(st.preds, p);
    assert pair in e ==> mirror in Converse(e);
    if pair in Converse(e) {
      var x :| x in e && (x.1, x.0) == pair;
      assert x == mirror;
    }
  }

  lemma PairLoopTurns(st: Store, mid: Store, st': Store, p: Key, q: Key, todo: Edges, visited: Edges,
                      s: Key, o: Key, revisit: Edges)
    requires (s, o) in todo && (s, o) in visited
    requires PairLoop(st, mid, p, q, todo, visited - {(s, o)}) && PairReversed(mid, st', q, s, o)
    requires revisit <= {(o, s)} && (p != q ==> revisit == {})
    ensures PairLoop(st, st', p, q, todo - {(s, o)} + revisit, visited)
  {
    hide InStep, Has;
    var before := visited - {(s, o)};
    assert before + {(s, o)} == visited;
  }

  /** What the loop over all pairs of `p` does. */
  ghost predicate PredicateReversed(st: Store, st': Store, p: Key, q: Key) {
    && st'.entity == st.entity && st'.pk == st.pk && st'.ext == st.ext
    && (forall a, r, b :: Has(st'.preds, a, r, b) <==> Has(st.preds, a, r, b) || (r == q && Has(st.preds, b, p, a)))
    && (InStep(st) ==> InStep(st'))
  }

  lemma AllPairsReversed(st: Store, st': Store, p: Key, q: Key, visited: Edges)
    requires PairLoop(st, st', p, q, {}, visited) && visited <= Universe(st, p)
    ensures PredicateReversed(st, st', p, q)
  {
    var e := Pairs(st.preds, p);
    PairsAre(st.preds, p);
    forall b, a | (b, a) in visited
      ensures Has(st.preds, b, p, a) || (p == q && Has(st.preds, a, p, b))
    {
      var pair := (b, a);
      if pair !in e {
        assert pair in Converse(e);
        var x :| x in e && (x.1, x.0) == pair;
        assert x == (a, b);
      }
    }
  }

  /** The key triples that a data set stands for. */
  ghost predicate InData(entity: map<string, Key>, dataset: seq<Triple>, s: Key, p: Key, o: Key) {
    exists t :: t in dataset && Names(entity, t, s, p, o)
  }

  /** The names that a triple brings along: its three and the predicate's with a "+". */
  ghost predicate Mentions(t: Triple, b: string) {
    b == Bytes(t.subj) || b == Bytes(t.pred) || b == Bytes(t.obj) || b == Bytes(URI(t.pred.ns, t.pred.value + "+"))
  }

  /** Exactly the names of these triples get keys. */
  ghost predicate NamesGrew(entity: map<string, Key>, entity': map<string, Key>, ts: seq<Triple>) {
    forall b :: b in entity' <==> b in entity || exists t :: t in ts && Mentions(t, b)
  }

  lemma NamesGrewMore(a: map<string, Key>, b: map<string, Key>, c: map<string, Key>, ts: seq<Triple>, t: Triple)
    requires NamesGrew(a, b, ts) && NamesGrew(b, c, [t])
    ensures NamesGrew(a, c, ts + [t])
  {
    hide Mentions;
    assert t in [t] && t in ts + [t];
    assert forall u :: u in ts + [t] <==> u in ts || u == t;
  }

  lemma TripleNames(st: Store, mid: Store, t: Triple)
    requires Added(st, mid, TripleBytes(t), 4)
    ensures NamesGrew(st.entity, mid.entity, [t])
  {
    hide Bytes, Grows, ViewsAgree;
    assert t in [t];
  }

  /** What loading a data set does: its triples join the triple set, and nothing else does. */
  ghost predicate AllLoaded(st: Store, st': Store, dataset: seq<Triple>) {
    && Keeps(st.entity, st'.entity) && NamesGrew(st.entity, st'.entity, dataset)
    && (forall t :: t in dataset ==> exists s, p, o :: Names(st'.entity, t, s, p, o))
    && (forall s, p, o :: Has(st'.preds, s, p, o) <==> Has(st.preds, s, p, o) || InData(st'.entity, dataset, s, p, o))
    && |st'.pk.Keys| <= |st.pk.Keys| + 4 * |dataset|
    && st'.ext == st.ext
    && (InStep(st) && (forall t :: t in dataset ==> !Reflexive(t)) ==> InStep(st'))
  }

  lemma NothingLoaded(st: Store)
    ensures AllLoaded(st, st, []) && PredicatesOf(st.entity, [], {})
  {
  }

  lemma InDataMore(entity: map<string, Key>, entity': map<string, Key>, dataset: seq<Triple>, t: Triple, s: Key, p: Key,
                   o: Key)
    requires Keeps(entity, entity')
    requires forall t :: t in dataset ==> exists s, p, o :: Names(entity, t, s, p, o)
    ensures InData(entity', dataset + [t], s, p, o) <==> InData(entity, dataset, s, p, o) || Names(entity', t, s, p, o)
  {
    if u :| u in dataset + [t] && Names(entity', u, s, p, o) {
      if u in dataset {
        var a, b, c :| Names(entity, u, a, b, c);
        assert Names(entity, u, s, p, o);
      }
    }
    if u :| u in dataset && Names(entity, u, s, p, o) {
      assert u in dataset + [t] && Names(entity', u, s, p, o);
    }
    assert t in dataset + [t];
  }

  lemma LoadedMore(st: Store, mid: Store, st': Store, dataset: seq<Triple>, t: Triple)
    requires AllLoaded(st, mid, dataset) && Loaded(mid, st', t)
    ensures AllLoaded(st, st', dataset + [t]) && |st'.pk.Keys| <= |mid.pk.Keys| + 4
  {
    hide InStep, Reflexive, NamesGrew;
    NamesGrewMore(st.entity, mid.entity, st'.entity, dataset, t);
    forall s, p, o
      ensures Has(st'.preds, s, p, o) <==> Has(st.preds, s, p, o) || InData(st'.entity, dataset + [t], s, p, o)
    {
      InDataMore(mid.entity, st'.entity, dataset, t, s, p, o);
    }
    forall u | u in dataset + [t]
      ensures exists s, p, o :: Names(st'.entity, u, s, p, o)
    {
      if u in dataset {
        var s, p, o :| Names(mid.entity, u, s, p, o);
        assert Names(st'.entity, u, s, p, o);
      }
    }
    if InStep(st) && (forall u :: u in dataset + [t] ==> !Reflexive(u)) {
      assert forall u :: u in dataset ==> u in dataset + [t];
      assert t in dataset + [t];
    }
  }

  /** The keys of the predicates a data set mentions. */
  ghost predicate PredicatesOf(entity: map<string, Key>, dataset: seq<Triple>, ks: set<Key>) {
    && (forall t :: t in dataset ==> Bytes(t.pred) in entity && entity[Bytes(t.pred)] in ks)
    && (forall k :: k in ks ==> exists t :: t in dataset && Bytes(t.pred) in entity && entity[Bytes(t.pred)] == k)
  }

  lemma PredicatesMore(mid: Store, st': Store, dataset: seq<Triple>, t: Triple, ks: set<Key>, hashes: map<URI, Key>,
                       inverse: map<Key, Key>)
    requires PredicatesOf(mid.entity, dataset, ks) && Loaded(mid, st', t)
    requires ValidState(st', hashes, inverse) && t.pred in hashes
    ensures PredicatesOf(st'.entity, dataset + [t], ks + {hashes[t.pred]})
  {
    hide ValidStore, InStep, InverseOk, Names;
    forall k | k in ks + {hashes[t.pred]}
      ensures exists u :: u in dataset + [t] && Bytes(u.pred) in st'.entity && st'.entity[Bytes(u.pred)] == k
    {
      if k in ks {
        var u :| u in dataset && Bytes(u.pred) in mid.entity && mid.entity[Bytes(u.pred)] == k;
        assert u in dataset + [t];
      } else {
        assert t in dataset + [t];
      }
    }
  }

  /** Every predicate of a declared pair has an inverse in the table. */
  ghost predicate Covers(inverse: map<Key, Key>, entity: map<string, Key>, preds: map<Key, PredRecord>) {
    forall a, b :: Declared(entity, preds, a, b) ==> a in inverse
  }

  /** The key triple that `t` stands for. */
  ghost predicate Names(entity: map<string, Key>, t: Triple, s: Key, p: Key, o: Key) {
    && Bytes(t.subj) in entity && entity[Bytes(t.subj)] == s
    && Bytes(t.pred) in entity && entity[Bytes(t.pred)] == p
    && Bytes(t.obj) in entity && entity[Bytes(t.obj)] == o
  }

  predicate Reflexive(t: Triple) {
    Bytes(t.subj) == Bytes(t.obj)
  }

  ghost predicate Keeps(entity: map<string, Key>, entity': map<string, Key>) {
    forall b :: b in entity ==> b in entity' && entity'[b] == entity[b]
  }

  /** Graph and predicate index hold the same, irreflexive triples. */
  ghost predicate InStep(st: Store) {
    ViewsAgree(st.graph, st.preds) && Irreflexive(st.preds)
  }

  /** What loading one triple of a data set does. */
  ghost predicate Loaded(st: Store, st': Store, t: Triple) {
    && Keeps(st.entity, st'.entity) && NamesGrew(st.entity, st'.entity, [t])
    && (exists s, p, o :: Names(st'.entity, t, s, p, o))
    && (forall s, p, o :: Has(st'.preds, s, p, o) <==> Has(st.preds, s, p, o) || Names(st'.entity, t, s, p, o))
    && |st'.pk.Keys| <= |st.pk.Keys| + 4
    && st'.ext == st.ext
    && (InStep(st) && !Reflexive(t) ==> InStep(st'))
  }

  lemma InsertedIsNamed(mid: Store, t: Triple)
    requires Located(mid, t)
    ensures var preds' := InsertPair(mid.preds, KeyOf(mid, t.pred), KeyOf(mid, t.subj), KeyOf(mid, t.obj));
            && Names(mid.entity, t, KeyOf(mid, t.subj), KeyOf(mid, t.pred), KeyOf(mid, t.obj))
            && (forall s, p, o :: Has(preds', s, p, o) <==> Has(mid.preds, s, p, o) || Names(mid.entity, t, s, p, o))
  {
    InsertPairMeaning(mid.preds, KeyOf(mid, t.pred), KeyOf(mid, t.subj), KeyOf(mid, t.obj));
  }

  lemma InsertedInStep(mid: Store, t: Triple)
    requires TablesInverse(mid.entity, mid.pk) && Located(mid, t) && InStep(mid) && !Reflexive(t)
    ensures InStep(InsertTriple(mid, KeyOf(mid, t.subj), KeyOf(mid, t.pred), KeyOf(mid, t.obj)))
  {
    KeysDiffer(mid, Bytes(t.subj), Bytes(t.obj));
    InsertKeepsInStep(mid, KeyOf(mid, t.subj), KeyOf(mid, t.pred), KeyOf(mid, t.obj));
  }

  lemma InsertedIsLoaded(st: Store, mid: Store, st': Store, t: Triple)
    requires TablesInverse(mid.entity, mid.pk) && Added(st, mid, TripleBytes(t), 4) && Located(mid, t)
    requires st' == InsertTriple(mid, KeyOf(mid, t.subj), KeyOf(mid, t.pred), KeyOf(mid, t.obj))
    ensures Loaded(st, st', t)
  {
    hide TripleBytes, InStep, Names, Has, InsertEdges, InsertPair, Reflexive, TablesInverse, NamesGrew;
    TripleNames(st, mid, t);
    InsertedIsNamed(mid, t);
    if InStep(st) && !Reflexive(t) {
      AddedKeepsInStep(st, mid, TripleBytes(t), 4);
      InsertedInStep(mid, t);
    }
  }

  lemma AddedKeepsInStep(st: Store, st': Store, bs: set<string>, n: nat)
    requires Added(st, st', bs, n) && InStep(st)
    ensures InStep(st')
  {
  }

  lemma KeysDiffer(st: Store, b: string, c: string)
    requires TablesInverse(st.entity, st.pk) && b in st.entity && c in st.entity && b != c
    ensures st.entity[b] != st.entity[c]
  {
    assert st.entity[b] in st.pk;
  }

  lemma InsertKeepsInStep(st: Store, s: Key, p: Key, o: Key)
    requires InStep(st) && s in st.graph && o in st.graph && s != o
    ensures InStep(InsertTriple(st, s, p, o))
  {
    InsertPairMeaning(st.preds, p, s, o);
    InsertKeepsViewsIff(st.graph, st.preds, s, p, o);
  }

  lemma LoadedDeclares(st: Store, st': Store, t: Triple, hashes: map<URI, Key>, inverse: map<Key, Key>)
    requires Loaded(st, st', t) && t.pred == INVERSEOF && ValidState(st', hashes, inverse)
    requires t.subj in hashes && t.obj in hashes
    ensures Declared(st'.entity, st'.preds, hashes[t.subj], hashes[t.obj])
  {
    var s, p, o :| Names(st'.entity, t, s, p, o);
    assert Has(st'.preds, s, p, o);
  }

  lemma DeclaredKeeps(st: Store, s: Key, o: Key, hashes: map<URI, Key>, inverse: map<Key, Key>)
    requires ValidState(st, hashes, inverse) && Declared(st.entity, st.preds, s, o)
    ensures ValidState(st, hashes, inverse[s := o][o := s])
  {
  }

  lemma LoadedThenTouched(st: Store, mid: Store, st': Store, t: Triple)
    requires Loaded(st, mid, t) && st' == mid.(preds := st'.preds) && SameTriples(mid.preds, st'.preds)
    ensures Loaded(st, st', t)
  {
    SameTriplesHave(mid.preds, st'.preds);
  }

  function KeyOf(st: Store, u: URI): Key
    requires Bytes(u) in st.entity
  {
    st.entity[Bytes(u)]
  }

  function TripleBytes(t: Triple): set<string> {
    {Bytes(t.subj)} + {Bytes(t.pred)} + {Bytes(t.obj)} + {Bytes(t.pred.(value := t.pred.value + "+"))}
  }

  /** The URIs of a triple have keys, and subject and object have entities. */
  ghost predicate Located(st: Store, t: Triple) {
    && Bytes(t.subj) in st.entity && Bytes(t.pred) in st.entity && Bytes(t.obj) in st.entity
    && KeyOf(st, t.subj) in st.graph && KeyOf(st, t.obj) in st.graph
  }

  ghost predicate TripleReady(st: Store, s: Key, p: Key, o: Key) {
    && s in st.graph && st.graph[s].pk == s
    && o in st.graph && st.graph[o].pk == o
    && PredOf(st.preds, p).pk == p
  }

  lemma LocatedKeys(st: Store, hashes: map<URI, Key>, inverse: map<Key, Key>, t: Triple)
    requires ValidState(st, hashes, inverse)
    requires t.subj in hashes && t.pred in hashes && t.obj in hashes
    ensures TablesInverse(st.entity, st.pk) && Located(st, t)
    ensures TripleReady(st, hashes[t.subj], hashes[t.pred], hashes[t.obj])
    ensures hashes[t.subj] == KeyOf(st, t.subj) && hashes[t.pred] == KeyOf(st, t.pred)
    ensures hashes[t.obj] == KeyOf(st, t.obj)
  {
    assert NodeOk(st.graph[KeyOf(st, t.subj)], KeyOf(st, t.subj));
    assert NodeOk(st.graph[KeyOf(st, t.obj)], KeyOf(st, t.obj));
  }

  lemma MergeUpdate<V>(m: map<Key, V>, n: map<Key, V>, k: Key, v: V)
    ensures m + n[k := v] == (m + n)[k := v]
  {
  }

  lemma InsertTripleKeeps(st: Store, s: Key, p: Key, o: Key, hashes: map<URI, Key>, inverse: map<Key, Key>)
    requires ValidState(st, hashes, inverse) && s in st.graph && o in st.graph
    ensures ValidState(InsertTriple(st, s, p, o), hashes, inverse)
  {
    InsertTripleValid(st, s, p, o);
    InsertKeepsInverse(st, s, p, o, inverse);
  }

  lemma InsertKeepsInverse(st: Store, s: Key, p: Key, o: Key, inverse: map<Key, Key>)
    requires InverseOk(inverse, st) && s in st.graph && o in st.graph
    ensures InverseOk(inverse, InsertTriple(st, s, p, o))
  {
    InsertPairMeaning(st.preds, p, s, o);
  }

  lemma AddURIKeeps(st: Store, st': Store, b: string, inverse: map<Key, Key>)
    requires ValidStore(st) && InverseOk(inverse, st)
    requires b in st.entity ==> st' == st
    requires b !in st.entity ==> b in st'.entity && st'.entity[b] !in st.pk && st' == AddKey(st, b, st'.entity[b])
    ensures ValidStore(st') && Added(st, st', {b}, 1) && InverseOk(inverse, st')
  {
    if b in st.entity {
      NothingAdded(st, b);
    } else {
      AddKeyAdds(st, b, st'.entity[b]);
    }
    AddedKeepsInverse(st, st', {b}, 1, inverse);
  }

  lemma NothingAdded(st: Store, b: string)
    requires b in st.entity && GraphOk(st.graph, st.pk)
    ensures Added(st, st, {b}, 1)
  {
  }

  lemma AddURIHashes(st: Store, st': Store, hashes: map<URI, Key>, uri: URI)
    requires HashesOk(hashes, st.entity) && Grows(st, st') && Bytes(uri) in st'.entity
    ensures HashesOk(hashes[uri := st'.entity[Bytes(uri)]], st'.entity)
  {
  }

  /** What giving keys to the URIs with bytes `bs` does to the stores. */
  ghost predicate Added(st: Store, st': Store, bs: set<string>, n: nat) {
    && Grows(st, st')
    && (forall b :: b in st'.entity <==> b in st.entity || b in bs)
    && |st'.pk.Keys| <= |st.pk.Keys| + n
    && (ViewsAgree(st.graph, st.preds) ==> ViewsAgree(st'.graph, st'.preds))
  }

  lemma AddedTwice(a: Store, b: Store, c: Store, bs: set<string>, cs: set<string>, n: nat, m: nat)
    requires Added(a, b, bs, n) && Added(b, c, cs, m)
    ensures Added(a, c, bs + cs, n + m)
  {
    GrowsTransitive(a, b, c);
  }

  lemma AddKeyAdds(st: Store, b: string, k: Key)
    requires ValidStore(st) && b !in st.entity && k !in st.pk
    ensures Added(st, AddKey(st, b, k), {b}, 1) && ValidStore(AddKey(st, b, k))
  {
    AddKeyValid(st, b, k);
    OneMoreKey(st.entity, b, k);
    OneMoreKey(st.pk, k, b);
  }

  lemma OneMoreKey<K, V>(m: map<K, V>, k: K, v: V)
    ensures m[k := v].Keys == m.Keys + {k} && |m[k := v].Keys| <= |m.Keys| + 1
  {
    var keys := m[k := v].Keys;
    assert keys == m.Keys + {k};
    assert |m.Keys + {k}| <= |m.Keys| + 1;
  }

  lemma AddedKeepsInverse(st: Store, st': Store, bs: set<string>, n: nat, inverse: map<Key, Key>)
    requires Added(st, st', bs, n) && InverseOk(inverse, st)
    ensures InverseOk(inverse, st')
  {
  }
}
