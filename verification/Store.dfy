/** The five tables of a database as one value, the invariants every transaction
    keeps, and the effect of each table update (db/transaction.go). */
module Store {
  import opened Keys
  import opened Uris
  import opened Closure
  import opened Graphs
  import opened Entities

  /** `preds` is the predicate table with the transaction's pending batch laid over it. */
  datatype Store = Store(entity: map<string, Key>, pk: map<Key, string>, graph: map<Key, Node>,
                         ext: map<Key, IndexRecord>, preds: map<Key, PredRecord>)

  const EMPTY_STORE := Store(map[], map[], map[], map[], map[])

  // ---- the three views of the triple set ----

  function PredOf(preds: map<Key, PredRecord>, p: Key): PredRecord {
    if p in preds then preds[p] else PredRecord(p, map[], map[])
  }

  /** The stored triple set: the predicate index read by subject. */
  ghost predicate Has(preds: map<Key, PredRecord>, s: Key, p: Key, o: Key) {
    HasPair(PredOf(preds, p).subjects, s, o)
  }

  ghost predicate HasByObject(preds: map<Key, PredRecord>, s: Key, p: Key, o: Key) {
    HasPair(PredOf(preds, p).objects, o, s)
  }

  ghost predicate HasOut(graph: map<Key, Node>, s: Key, p: Key, o: Key) {
    s in graph && o in ListOf(graph[s].outEdges, p)
  }

  ghost predicate HasIn(graph: map<Key, Node>, s: Key, p: Key, o: Key) {
    o in graph && s in ListOf(graph[o].inEdges, p)
  }

  /** The stored pairs of one predicate. */
  function Pairs(preds: map<Key, PredRecord>, p: Key): Edges {
    var m := PredOf(preds, p).subjects;
    set s, o | s in m && o in m[s] :: (s, o)
  }

  lemma PairsAre(preds: map<Key, PredRecord>, p: Key)
    ensures forall s, o :: (s, o) in Pairs(preds, p) <==> Has(preds, s, p, o)
  {
  }

  // ---- invariants ----

  /** URI-to-key and key-to-URI are inverse bijections. */
  ghost predicate TablesInverse(entity: map<string, Key>, pk: map<Key, string>) {
    forall b, k {:trigger b in entity, k in pk} :: (b in entity && entity[b] == k) <==> (k in pk && pk[k] == b)
  }

  ghost predicate NodeOk(n: Node, k: Key) {
    n.pk == k && DuplicateFree(n.inEdges) && DuplicateFree(n.outEdges)
  }

  /** Every key has exactly one entity, whose edge lists hold no duplicates. */
  ghost predicate GraphOk(graph: map<Key, Node>, pk: map<Key, string>) {
    && (forall k :: k in graph <==> k in pk)
    && (forall k :: k in graph ==> NodeOk(graph[k], k))
  }

  /** A predicate's record sits under its key and lists no subject or object in vain. */
  ghost predicate PredRecordOk(r: PredRecord, p: Key) {
    && r.pk == p
    && (forall k :: k in r.subjects ==> r.subjects[k] != {})
    && (forall k :: k in r.objects ==> r.objects[k] != {})
  }

  /** Both halves of the predicate index agree, and pairs join stored entities. */
  ghost predicate PredsOk(graph: map<Key, Node>, preds: map<Key, PredRecord>) {
    && (forall p :: p in preds ==> PredRecordOk(preds[p], p))
    && (forall s, p, o :: Has(preds, s, p, o) ==> s in graph && o in graph)
    && (forall s, p, o :: Has(preds, s, p, o) <==> HasByObject(preds, s, p, o))
  }

  /** Every edge of the graph is a stored triple. */
  ghost predicate EdgesStored(graph: map<Key, Node>, preds: map<Key, PredRecord>) {
    && (forall s, p, o :: HasOut(graph, s, p, o) ==> Has(preds, s, p, o))
    && (forall s, p, o :: HasIn(graph, s, p, o) ==> Has(preds, s, p, o))
  }

  function UriOf(pk: map<Key, string>, k: Key): URI
    requires k in pk
  {
    if k == EMPTY_KEY then URI("", "") else ParseURI(pk[k])
  }

  /** The URI read back for the key leads to the key again. */
  predicate Readable(pk: map<Key, string>, k: Key) {
    k in pk && Bytes(UriOf(pk, k)) == pk[k]
  }

  /** Looking up the URI read back for the key finds the key again, or nothing. */
  predicate Undiverted(entity: map<string, Key>, pk: map<Key, string>, k: Key) {
    k in pk && (Bytes(UriOf(pk, k)) in entity ==> entity[Bytes(UriOf(pk, k))] == k)
  }

  lemma ReadableIsUndiverted(entity: map<string, Key>, pk: map<Key, string>, k: Key)
    requires TablesInverse(entity, pk) && Readable(pk, k)
    ensures Undiverted(entity, pk, k) && Bytes(UriOf(pk, k)) in entity && entity[Bytes(UriOf(pk, k))] == k
  {
    hide ParseURI;
    assert pk[k] in entity;
  }

  ghost predicate RecordSound(r: IndexRecord, k: Key, p: Key, e: Edges) {
    && (forall x :: x in ListOf(r.outPlus, p) ==> Plus(e, k, x))
    && (forall x :: x in ListOf(r.inPlus, p) ==> Plus(e, x, k))
  }

  /** Closure entries of `p` only relate keys joined by one or more steps of `e`. */
  ghost predicate ClosureSoundAt(ext: map<Key, IndexRecord>, p: Key, e: Edges) {
    forall k :: k in ext ==> RecordSound(ext[k], k, p, e)
  }

  ghost predicate NoEmptyEntry(r: IndexRecord) {
    forall d, p :: p in PlusLists(r, d) ==> PlusLists(r, d)[p] != []
  }

  /** Records sit under their own key, hold no empty entry, and belong to named predicates. */
  ghost predicate ExtOk(ext: map<Key, IndexRecord>, pk: map<Key, string>) {
    && (forall k :: k in ext ==> ext[k].pk == k && NoEmptyEntry(ext[k]))
    && (forall k, p :: k in ext && (p in ext[k].outPlus || p in ext[k].inPlus) ==> p in pk)
  }

  /** The closure index is sound for every predicate that a rollup does not mistake for
      another. */
  ghost predicate ClosureSound(entity: map<string, Key>, pk: map<Key, string>, ext: map<Key, IndexRecord>,
                               preds: map<Key, PredRecord>)
  {
    forall p :: Undiverted(entity, pk, p) ==> ClosureSoundAt(ext, p, Pairs(preds, p))
  }

  ghost predicate ValidStore(st: Store) {
    && TablesInverse(st.entity, st.pk)
    && GraphOk(st.graph, st.pk)
    && PredsOk(st.graph, st.preds)
    && EdgesStored(st.graph, st.preds)
    && ExtOk(st.ext, st.pk)
    && ClosureSound(st.entity, st.pk, st.ext, st.preds)
  }

  /** The graph's edges are the stored triples, read in either direction. */
  ghost predicate ViewsAgree(graph: map<Key, Node>, preds: map<Key, PredRecord>) {
    && (forall s, p, o :: HasOut(graph, s, p, o) <==> Has(preds, s, p, o))
    && (forall s, p, o :: HasIn(graph, s, p, o) <==> Has(preds, s, p, o))
  }

  ghost predicate Irreflexive(preds: map<Key, PredRecord>) {
    forall k, p :: !Has(preds, k, p, k)
  }

  lemma EmptyStoreValid()
    ensures ValidStore(EMPTY_STORE) && ViewsAgree(map[], map[]) && Irreflexive(map[])
  {
  }

  /** Reading back the key of a URI gives that URI exactly when the URI is well-formed;
      the zero key reads back as the empty URI. */
  lemma ReadBack(st: Store, u: URI)
    requires TablesInverse(st.entity, st.pk) && Bytes(u) in st.entity
    ensures var k := st.entity[Bytes(u)];
            && (k != EMPTY_KEY ==> (UriOf(st.pk, k) == u <==> WellFormed(u)))
            && (k == EMPTY_KEY ==> (UriOf(st.pk, k) == u <==> u == URI("", "")))
            && (k != EMPTY_KEY && WellFormed(u) ==> Readable(st.pk, k))
  {
    assert st.entity[Bytes(u)] in st.pk;
    RoundTrip(u);
  }

  // ---- adding a URI ----

  /** New URIs get new keys with entities that have no edges; nothing else changes. */
  ghost predicate Grows(st: Store, st': Store) {
    && (forall b :: b in st.entity ==> b in st'.entity && st'.entity[b] == st.entity[b])
    && (forall k :: k in st.pk ==> k in st'.pk && st'.pk[k] == st.pk[k])
    && (forall k :: k in st.graph ==> k in st'.graph && st'.graph[k] == st.graph[k])
    && (forall k :: k in st'.graph && k !in st.graph ==> st'.graph[k] == Node(k, map[], map[]))
    && st'.ext == st.ext && st'.preds == st.preds
  }

  function AddKey(st: Store, b: string, k: Key): Store {
    st.(entity := st.entity[b := k], pk := st.pk[k := b], graph := st.graph[k := Node(k, map[], map[])])
  }

  lemma GrowsTransitive(a: Store, b: Store, c: Store)
    requires Grows(a, b) && Grows(b, c)
    ensures Grows(a, c)
  {
  }

  lemma AddKeyTables(entity: map<string, Key>, pk: map<Key, string>, b: string, k: Key)
    requires TablesInverse(entity, pk) && b !in entity && k !in pk
    ensures TablesInverse(entity[b := k], pk[k := b])
  {
  }

  lemma AddKeyGraph(graph: map<Key, Node>, pk: map<Key, string>, b: string, k: Key)
    requires GraphOk(graph, pk)
    ensures GraphOk(graph[k := Node(k, map[], map[])], pk[k := b])
  {
  }

  lemma AddKeyGrows(st: Store, b: string, k: Key)
    requires b !in st.entity && k !in st.pk && k !in st.graph
    ensures Grows(st, AddKey(st, b, k))
  {
  }

  lemma AddNodeEdges(graph: map<Key, Node>, preds: map<Key, PredRecord>, k: Key)
    requires k !in graph && PredsOk(graph, preds) && EdgesStored(graph, preds)
    ensures var graph' := graph[k := Node(k, map[], map[])];
            && PredsOk(graph', preds) && EdgesStored(graph', preds)
            && (ViewsAgree(graph, preds) ==> ViewsAgree(graph', preds))
  {
    var graph' := graph[k := Node(k, map[], map[])];
    assert forall s, p, o :: HasOut(graph', s, p, o) <==> HasOut(graph, s, p, o);
    assert forall s, p, o :: HasIn(graph', s, p, o) <==> HasIn(graph, s, p, o);
  }

  /** A new name can divert predicates, but none that had been diverted is set right. */
  lemma AddKeyClosure(entity: map<string, Key>, pk: map<Key, string>, ext: map<Key, IndexRecord>,
                      preds: map<Key, PredRecord>, b: string, k: Key)
    requires b !in entity && k !in pk && ExtOk(ext, pk) && ClosureSound(entity, pk, ext, preds)
    ensures ExtOk(ext, pk[k := b]) && ClosureSound(entity[b := k], pk[k := b], ext, preds)
  {
    hide ParseURI;
    forall p | Undiverted(entity[b := k], pk[k := b], p)
      ensures ClosureSoundAt(ext, p, Pairs(preds, p))
    {
      if p in pk {
        assert UriOf(pk[k := b], p) == UriOf(pk, p);
        assert Undiverted(entity, pk, p);
      }
    }
  }

  /** A new URI under a free key keeps every invariant. */
  lemma AddKeyValid(st: Store, b: string, k: Key)
    requires ValidStore(st) && b !in st.entity && k !in st.pk
    ensures ValidStore(AddKey(st, b, k)) && Grows(st, AddKey(st, b, k))
    ensures ViewsAgree(st.graph, st.preds) ==> ViewsAgree(AddKey(st, b, k).graph, st.preds)
  {
    AddKeyTables(st.entity, st.pk, b, k);
    AddKeyGraph(st.graph, st.pk, b, k);
    AddKeyGrows(st, b, k);
    AddNodeEdges(st.graph, st.preds, k);
    AddKeyClosure(st.entity, st.pk, st.ext, st.preds, b, k);
  }

  // ---- adding a triple ----

  function InsertPair(preds: map<Key, PredRecord>, p: Key, s: Key, o: Key): map<Key, PredRecord> {
    preds[p := WithSubjectObject(PredOf(preds, p), s, o)]
  }

  /** Subject and object are loaded before either is saved, and only changed records are
      saved, so for a reflexive triple the second save can overwrite the first. */
  function InsertEdges(graph: map<Key, Node>, s: Key, p: Key, o: Key): map<Key, Node>
    requires s in graph && o in graph
  {
    var subj, obj := graph[s], graph[o];
    var graph1 := if o in ListOf(subj.outEdges, p) then graph
                  else graph[s := subj.(outEdges := WithEdge(subj.outEdges, p, o))];
    if s in ListOf(obj.inEdges, p) then graph1
    else graph1[o := obj.(inEdges := WithEdge(obj.inEdges, p, s))]
  }

  lemma InsertPairMeaning(preds: map<Key, PredRecord>, p: Key, s: Key, o: Key)
    ensures var preds' := InsertPair(preds, p, s, o);
            && (forall a, q, b :: Has(preds', a, q, b) <==> Has(preds, a, q, b) || (a == s && q == p && b == o))
            && (forall a, q, b :: HasByObject(preds', a, q, b) <==>
                                  HasByObject(preds, a, q, b) || (a == s && q == p && b == o))
            && ((forall q :: q in preds ==> PredRecordOk(preds[q],
                                                         q)) ==> forall q :: q in preds' ==> PredRecordOk(preds'[q], q))
  {
    WithPairMeaning(PredOf(preds, p).subjects, s, o);
    WithPairMeaning(PredOf(preds, p).objects, o, s);
  }

  lemma InsertEdgesAt(graph: map<Key, Node>, s: Key, p: Key, o: Key, a: Key, q: Key, b: Key)
    requires s in graph && o in graph
    ensures var graph' := InsertEdges(graph, s, p, o);
            && (HasIn(graph', a, q, b) <==> HasIn(graph, a, q, b) || (a == s && q == p && b == o))
            && (HasOut(graph', a, q, b) <==>
                  HasOut(graph, a, q, b) || (a == s && q == p && b == o && (s != o || HasIn(graph, s, p, o))))
  {
    WithEdgeAt(graph[s].outEdges, p, o, q, b);
    WithEdgeAt(graph[o].inEdges, p, s, q, a);
  }

  lemma InsertEdgesNodes(graph: map<Key, Node>, s: Key, p: Key, o: Key)
    requires s in graph && o in graph && forall k :: k in graph ==> NodeOk(graph[k], k)
    ensures var graph' := InsertEdges(graph, s, p, o);
            graph'.Keys == graph.Keys && forall k :: k in graph' ==> NodeOk(graph'[k], k)
  {
    assert NodeOk(graph[s], s) && NodeOk(graph[o], o);
    WithEdgeKeepsFree(graph[s].outEdges, p, o);
    WithEdgeKeepsFree(graph[o].inEdges, p, s);
  }

  /** Exactly what the two saves leave in the graph: the in-edge always, the out-edge
      unless the triple is reflexive and its in-edge is new. */
  lemma InsertEdgesMeaning(graph: map<Key, Node>, s: Key, p: Key, o: Key)
    requires s in graph && o in graph
    ensures var graph' := InsertEdges(graph, s, p, o);
            && graph'.Keys == graph.Keys
            && (forall a, q, b :: HasIn(graph', a, q, b) <==> HasIn(graph, a, q, b) || (a == s && q == p && b == o))
            && (forall a, q, b :: HasOut(graph', a, q, b) <==>
                  HasOut(graph, a, q, b) || (a == s && q == p && b == o && (s != o || HasIn(graph, s, p, o))))
  {
    var graph' := InsertEdges(graph, s, p, o);
    forall a, q, b
      ensures HasIn(graph', a, q, b) <==> HasIn(graph, a, q, b) || (a == s && q == p && b == o)
      ensures HasOut(graph', a, q, b) <==>
                HasOut(graph, a, q, b) || (a == s && q == p && b == o && (s != o || HasIn(graph, s, p, o)))
    {
      InsertEdgesAt(graph, s, p, o, a, q, b);
    }
  }

  /** More triples keep the closure index sound. */
  lemma ClosureGrows(entity: map<string, Key>, pk: map<Key, string>, ext: map<Key, IndexRecord>,
                     preds: map<Key, PredRecord>, preds': map<Key, PredRecord>)
    requires ClosureSound(entity, pk, ext, preds)
    requires forall s, p, o :: Has(preds, s, p, o) ==> Has(preds', s, p, o)
    ensures ClosureSound(entity, pk, ext, preds')
  {
    forall p | Undiverted(entity, pk, p)
      ensures ClosureSoundAt(ext, p, Pairs(preds', p))
    {
      var e, e' := Pairs(preds, p), Pairs(preds', p);
      assert e <= e' by {
        forall s, o | (s, o) in e
          ensures (s, o) in e'
        {
          assert Has(preds, s, p, o);
        }
      }
      forall k | k in ext
        ensures RecordSound(ext[k], k, p, e')
      {
        forall x | x in ListOf(ext[k].outPlus, p)
          ensures Plus(e', k, x)
        {
          PlusMonotone(e, e', k, x);
        }
        forall x | x in ListOf(ext[k].inPlus, p)
          ensures Plus(e', x, k)
        {
          PlusMonotone(e, e', x, k);
        }
      }
    }
  }

  lemma InsertKeepsEdges(graph: map<Key, Node>, preds: map<Key, PredRecord>, s: Key, p: Key, o: Key)
    requires PredsOk(graph, preds) && EdgesStored(graph, preds) && s in graph && o in graph
    ensures PredsOk(InsertEdges(graph, s, p, o), InsertPair(preds, p, s, o))
    ensures EdgesStored(InsertEdges(graph, s, p, o), InsertPair(preds, p, s, o))
  {
    InsertPairMeaning(preds, p, s, o);
    InsertEdgesMeaning(graph, s, p, o);
  }

  lemma InsertKeepsGraph(graph: map<Key, Node>, pk: map<Key, string>, s: Key, p: Key, o: Key)
    requires GraphOk(graph, pk) && s in graph && o in graph
    ensures GraphOk(InsertEdges(graph, s, p, o), pk)
  {
    InsertEdgesNodes(graph, s, p, o);
  }

  /** Inserting a triple keeps the three views in step exactly when the triple is not
      reflexive or was stored already. */
  lemma InsertKeepsViewsIff(graph: map<Key, Node>, preds: map<Key, PredRecord>, s: Key, p: Key, o: Key)
    requires ViewsAgree(graph, preds) && s in graph && o in graph
    ensures ViewsAgree(InsertEdges(graph, s, p, o), InsertPair(preds, p, s, o)) <==> s != o || Has(preds, s, p, o)
  {
    InsertPairMeaning(preds, p, s, o);
    InsertEdgesMeaning(graph, s, p, o);
    var graph', preds' := InsertEdges(graph, s, p, o), InsertPair(preds, p, s, o);
    if s == o && !Has(preds, s, p, o) {
      assert Has(preds', s, p, o) && !HasOut(graph', s, p, o);
    }
  }

  function InsertTriple(st: Store, s: Key, p: Key, o: Key): Store
    requires s in st.graph && o in st.graph
  {
    st.(graph := InsertEdges(st.graph, s, p, o), preds := InsertPair(st.preds, p, s, o))
  }

  /** Every triple, reflexive or not, keeps the store's invariants. */
  lemma InsertTripleValid(st: Store, s: Key, p: Key, o: Key)
    requires ValidStore(st) && s in st.graph && o in st.graph
    ensures ValidStore(InsertTriple(st, s, p, o))
  {
    InsertKeepsGraph(st.graph, st.pk, s, p, o);
    InsertKeepsEdges(st.graph, st.preds, s, p, o);
    InsertPairMeaning(st.preds, p, s, o);
    ClosureGrows(st.entity, st.pk, st.ext, st.preds, InsertPair(st.preds, p, s, o));
  }

  // ---- adding the inverse of a triple ----

  /** The graph after one turn of the inverse-edge loop for the pair (s, o) of predicate
      `p` with inverse `q`; again both entities are loaded before either is saved. */
  function ReverseEdges(graph: map<Key, Node>, p: Key, q: Key, s: Key, o: Key): map<Key, Node>
    requires s in graph && o in graph
  {
    var subj, obj := graph[s], graph[o];
    graph[s := subj.(inEdges := WithEdge(subj.inEdges, q, o), outEdges := WithEdge(subj.outEdges, p, o))]
         [o := obj.(outEdges := WithEdge(obj.outEdges, q, s), inEdges := WithEdge(obj.inEdges, p, s))]
  }

  lemma ReverseEdgesAt(graph: map<Key, Node>, p: Key, q: Key, s: Key, o: Key, a: Key, r: Key, b: Key)
    requires s in graph && o in graph
    ensures var graph' := ReverseEdges(graph, p, q, s, o);
            var pair, mirror := a == s && r == p && b == o, a == o && r == q && b == s;
            && (HasOut(graph', a, r, b) <==> HasOut(graph, a, r, b) || mirror || (s != o && pair))
            && (HasIn(graph', a, r, b) <==> HasIn(graph, a, r, b) || pair || (s != o && mirror))
  {
    WithEdgeAt(graph[s].inEdges, q, o, r, a);
    WithEdgeAt(graph[s].outEdges, p, o, r, b);
    WithEdgeAt(graph[o].outEdges, q, s, r, b);
    WithEdgeAt(graph[o].inEdges, p, s, r, a);
  }

  lemma ReverseEdgesNodes(graph: map<Key, Node>, p: Key, q: Key, s: Key, o: Key)
    requires s in graph && o in graph && forall k :: k in graph ==> NodeOk(graph[k], k)
    ensures var graph' := ReverseEdges(graph, p, q, s, o);
            graph'.Keys == graph.Keys && forall k :: k in graph' ==> NodeOk(graph'[k], k)
  {
    assert NodeOk(graph[s], s) && NodeOk(graph[o], o);
    WithEdgeKeepsFree(graph[s].inEdges, q, o);
    WithEdgeKeepsFree(graph[s].outEdges, p, o);
    WithEdgeKeepsFree(graph[o].outEdges, q, s);
    WithEdgeKeepsFree(graph[o].inEdges, p, s);
  }

  /** Exactly what the two saves leave in the graph: both pairs at both ends, except that
      for a reflexive pair only the object's changes survive, its out-edge of the inverse
      and its in-edge of the predicate. */
  lemma ReverseEdgesMeaning(graph: map<Key, Node>, p: Key, q: Key, s: Key, o: Key)
    requires s in graph && o in graph
    ensures var graph' := ReverseEdges(graph, p, q, s, o);
            && graph'.Keys == graph.Keys
            && (forall a, r, b :: HasOut(graph', a, r, b) <==>
                  HasOut(graph, a, r, b) || (a == o && r == q && b == s) || (s != o && a == s && r == p && b == o))
            && (forall a, r, b :: HasIn(graph', a, r, b) <==>
                  HasIn(graph, a, r, b) || (a == s && r == p && b == o) || (s != o && a == o && r == q && b == s))
  {
    var graph' := ReverseEdges(graph, p, q, s, o);
    forall a, r, b
      ensures HasOut(graph', a, r, b) <==>
                HasOut(graph, a, r, b) || (a == o && r == q && b == s) || (s != o && a == s && r == p && b == o)
      ensures HasIn(graph', a, r, b) <==>
                HasIn(graph, a, r, b) || (a == s && r == p && b == o) || (s != o && a == o && r == q && b == s)
    {
      ReverseEdgesAt(graph, p, q, s, o, a, r, b);
    }
  }

  function InsertReverse(st: Store, p: Key, q: Key, s: Key, o: Key): Store
    requires s in st.graph && o in st.graph
  {
    st.(graph := ReverseEdges(st.graph, p, q, s, o), preds := InsertPair(st.preds, q, o, s))
  }

  lemma ReverseKeepsEdges(graph: map<Key, Node>, preds: map<Key, PredRecord>, p: Key, q: Key, s: Key, o: Key)
    requires PredsOk(graph, preds) && EdgesStored(graph, preds) && Has(preds, s, p, o)
    ensures PredsOk(ReverseEdges(graph, p, q, s, o), InsertPair(preds, q, o, s))
    ensures EdgesStored(ReverseEdges(graph, p, q, s, o), InsertPair(preds, q, o, s))
  {
    InsertPairMeaning(preds, q, o, s);
    ReverseEdgesMeaning(graph, p, q, s, o);
  }

  /** A turn keeps the three views in step exactly when the pair is not reflexive or its
      mirror image was stored already. */
  lemma ReverseKeepsViewsIff(graph: map<Key, Node>, preds: map<Key, PredRecord>, p: Key, q: Key, s: Key, o: Key)
    requires ViewsAgree(graph, preds) && Has(preds, s, p, o) && s in graph && o in graph
    ensures ViewsAgree(ReverseEdges(graph, p, q, s, o), InsertPair(preds, q, o, s)) <==> s != o || Has(preds, s, q, s)
  {
    InsertPairMeaning(preds, q, o, s);
    ReverseEdgesMeaning(graph, p, q, s, o);
    var graph', preds' := ReverseEdges(graph, p, q, s, o), InsertPair(preds, q, o, s);
    if s == o && !Has(preds, s, q, s) {
      assert Has(preds', s, q, s) && !HasIn(graph', s, q, s);
    }
  }

  lemma InsertReverseValid(st: Store, p: Key, q: Key, s: Key, o: Key)
    requires ValidStore(st) && Has(st.preds, s, p, o)
    ensures s in st.graph && o in st.graph && ValidStore(InsertReverse(st, p, q, s, o))
  {
    assert forall k :: k in st.graph ==> NodeOk(st.graph[k], k);
    ReverseEdgesNodes(st.graph, p, q, s, o);
    ReverseKeepsEdges(st.graph, st.preds, p, q, s, o);
    InsertPairMeaning(st.preds, q, o, s);
    ClosureGrows(st.entity, st.pk, st.ext, st.preds, InsertPair(st.preds, q, o, s));
  }
}
