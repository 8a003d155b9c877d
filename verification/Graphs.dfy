/** The stored graph as the path evaluator sees it, and the meaning of property
    paths over it (SPARQL 1.1 Query Language, sections 9 and 18.4, at set level). */
module Graphs {
  import opened Keys
  import opened Uris
  import opened Closure

  type EdgeLists = map<Key, seq<Key>>

  /** A stored entity: its key and its neighbours by predicate. */
  datatype Node = Node(pk: Key, inEdges: EdgeLists, outEdges: EdgeLists)

  /** A stored closure-index record. */
  datatype IndexRecord = IndexRecord(pk: Key, inPlus: EdgeLists, outPlus: EdgeLists)

  /** Which way edges are followed. */
  datatype Dir = Out | In

  /** The tables a traversal reads. `strict` is the transaction's view, where an
      absent index record is an error; a snapshot answers "no record" instead, and
      refuses the zero key as a hash. */
  datatype View = View(entity: map<string, Key>, nodes: map<Key, Node>,
                       index: map<Key, IndexRecord>, strict: bool)

  function EdgeList(n: Node, d: Dir, p: Key): seq<Key> {
    var lists := if d == Out then n.outEdges else n.inEdges;
    if p in lists then lists[p] else []
  }

  function PlusLists(r: IndexRecord, d: Dir): EdgeLists {
    if d == Out then r.outPlus else r.inPlus
  }

  function GetHash(g: View, u: URI): Option<Key> {
    if Bytes(u) !in g.entity then None
    else if !g.strict && g.entity[Bytes(u)] == EMPTY_KEY then None
    else Some(g.entity[Bytes(u)])
  }

  /** All edges of predicate `p`, read in direction `d`. */
  ghost function Rel(g: View, d: Dir, p: Key): Edges {
    set k, x | k in g.nodes && x in EdgeList(g.nodes[k], d, p) :: (k, x)
  }

  /** Records sit under their own key and edges end at stored nodes. */
  ghost predicate WellFormedView(g: View) {
    && (forall k :: k in g.nodes ==> g.nodes[k].pk == k)
    && (forall k, d, p, x :: k in g.nodes && x in EdgeList(g.nodes[k], d, p) ==> x in g.nodes)
  }

  /** Every present closure entry holds only keys that edges `e` lead to. */
  ghost predicate IndexSoundFor(g: View, d: Dir, p: Key, e: Edges) {
    forall k, x :: k in g.index && p in PlusLists(g.index[k], d) && x in PlusLists(g.index[k], d)[p]
      ==> Plus(e, k, x)
  }

  ghost predicate IndexSound(g: View, d: Dir, p: Key) {
    IndexSoundFor(g, d, p, Rel(g, d, p))
  }

  /** Every present closure entry is exactly the closure of its node. */
  ghost predicate IndexExact(g: View, d: Dir, p: Key) {
    forall k, x :: k in g.index && p in PlusLists(g.index[k], d)
      ==> (x in PlusLists(g.index[k], d)[p] <==> Plus(Rel(g, d, p), k, x))
  }

  // ---- property paths ----

  /** `Unset` is the zero value, which no query text produces. */
  datatype Pattern = Unset | Single | ZeroOne | OnePlus | ZeroPlus

  datatype PathPattern = PathPattern(pred: URI, pattern: Pattern)

  const ZERO_PATTERN := PathPattern(URI("", ""), Unset)

  /** The pairs one path segment relates, given the edges of its predicate. */
  ghost predicate Segment(e: Edges, pattern: Pattern, s: Key, o: Key) {
    match pattern
    case Unset => false
    case Single => (s, o) in e
    case ZeroOne => s == o || (s, o) in e
    case OnePlus => Plus(e, s, o)
    case ZeroPlus => Star(e, s, o)
  }

  /** The edges of the predicate named `u`; a name the store does not know has none. */
  ghost function EdgesOf(g: View, d: Dir, u: URI): Edges {
    match GetHash(g, u)
    case Some(p) => Rel(g, d, p)
    case None => {}
  }

  /** The meaning of a path: the composition of its segments. */
  ghost predicate PathRel(g: View, d: Dir, path: seq<PathPattern>, s: Key, o: Key) {
    if path == [] then false
    else if |path| == 1 then Segment(EdgesOf(g, d, path[0].pred), path[0].pattern, s, o)
    else exists m :: Segment(EdgesOf(g, d, path[0].pred), path[0].pattern, s, m)
                     && PathRel(g, d, path[1..], m, o)
  }

  ghost predicate KnownPath(g: View, path: seq<PathPattern>) {
    forall seg :: seg in path ==> GetHash(g, seg.pred).Some?
  }

  /** Every segment names a known predicate and carries one of the four patterns. */
  ghost predicate LivePath(g: View, path: seq<PathPattern>) {
    forall seg :: seg in path ==> GetHash(g, seg.pred).Some? && seg.pattern != Unset
  }

  /** Only `+` and `*` look at the closure index. */
  predicate Transitive(pattern: Pattern) {
    pattern == OnePlus || pattern == ZeroPlus
  }

  ghost predicate SegmentIndexSound(g: View, d: Dir, seg: PathPattern) {
    GetHash(g, seg.pred).Some? && Transitive(seg.pattern) ==> IndexSound(g, d, GetHash(g, seg.pred).value)
  }

  ghost predicate SegmentIndexExact(g: View, d: Dir, seg: PathPattern) {
    GetHash(g, seg.pred).Some? && Transitive(seg.pattern) ==> IndexExact(g, d, GetHash(g, seg.pred).value)
  }

  ghost predicate PathIndexSound(g: View, d: Dir, path: seq<PathPattern>) {
    forall seg :: seg in path ==> SegmentIndexSound(g, d, seg)
  }

  ghost predicate PathIndexExact(g: View, d: Dir, path: seq<PathPattern>) {
    forall seg :: seg in path ==> SegmentIndexExact(g, d, seg)
  }

  /** A path also splits at its last segment. */
  lemma {:induction false} PathSplitLast(g: View, d: Dir, path: seq<PathPattern>, last: PathPattern, s: Key, o: Key)
    requires path != []
    ensures PathRel(g, d, path + [last], s, o) <==>
            exists m :: PathRel(g, d, path, s, m) && Segment(EdgesOf(g, d, last.pred), last.pattern, m, o)
    decreases |path|
  {
    var whole := path + [last];
    if |path| == 1 {
      assert whole[1..] == [last];
    } else {
      assert whole[1..] == path[1..] + [last];
      if PathRel(g, d, whole, s, o) {
        var x :| Segment(EdgesOf(g, d, path[0].pred), path[0].pattern, s, x) && PathRel(g, d, whole[1..], x, o);
        PathSplitLast(g, d, path[1..], last, x, o);
        var m :| PathRel(g, d, path[1..], x, m) && Segment(EdgesOf(g, d, last.pred), last.pattern, m, o);
        assert PathRel(g, d, path, s, m);
      }
      if m :| PathRel(g, d, path, s, m) && Segment(EdgesOf(g, d, last.pred), last.pattern, m, o) {
        var x :| Segment(EdgesOf(g, d, path[0].pred), path[0].pattern, s, x) && PathRel(g, d, path[1..], x, m);
        PathSplitLast(g, d, path[1..], last, x, o);
      }
    }
  }

  // ---- reading a path backwards ----

  /** In-edges are the out-edges reversed. */
  ghost predicate EdgesAgree(g: View) {
    forall p, s, o :: (s, o) in Rel(g, Out, p) <==> (o, s) in Rel(g, In, p)
  }

  function Reversed<T>(path: seq<T>): (r: seq<T>)
    ensures |r| == |path|
    ensures forall i :: 0 <= i < |r| ==> r[i] == path[|path| - 1 - i]
  {
    if path == [] then [] else Reversed(path[1..]) + [path[0]]
  }

  lemma SegmentConverse(g: View, u: URI, pattern: Pattern, s: Key, o: Key)
    requires EdgesAgree(g)
    ensures Segment(EdgesOf(g, Out, u), pattern, s, o) <==> Segment(EdgesOf(g, In, u), pattern, o, s)
  {
    var e, c := EdgesOf(g, Out, u), EdgesOf(g, In, u);
    assert c == Converse(e) by {
      forall p
        ensures p in c <==> p in Converse(e)
      {
        var (x, y) := p;
        if p in c {
          assert (y, x) in e;
        }
      }
    }
    PlusConverse(e, s, o);
    var fwd, bwd := (s, o), (o, s);
    assert fwd in e ==> bwd in c;
  }

  /** Following the reversed path along in-edges relates exactly the reversed pairs. */
  lemma {:induction false} PathConverse(g: View, path: seq<PathPattern>, s: Key, o: Key)
    requires EdgesAgree(g)
    ensures PathRel(g, Out, path, s, o) <==> PathRel(g, In, Reversed(path), o, s)
    decreases |path|
  {
    if path != [] {
      var head := path[0];
      if |path| == 1 {
        assert Reversed(path) == path;
        SegmentConverse(g, head.pred, head.pattern, s, o);
      } else {
        var back := Reversed(path[1..]);
        PathSplitLast(g, In, back, head, o, s);
        if m :| Segment(EdgesOf(g, Out, head.pred), head.pattern, s, m) && PathRel(g, Out, path[1..], m, o) {
          PathConverse(g, path[1..], m, o);
          SegmentConverse(g, head.pred, head.pattern, s, m);
        }
        if m :| PathRel(g, In, back, o, m) && Segment(EdgesOf(g, In, head.pred), head.pattern, m, s) {
          PathConverse(g, path[1..], m, o);
          SegmentConverse(g, head.pred, head.pattern, s, m);
        }
      }
    }
  }

  // ---- the index is only a shortcut ----

  /** The meaning of a path does not mention the closure index. */
  lemma {:induction false} PathRelIgnoresIndex(g: View, index: map<Key, IndexRecord>, d: Dir, path: seq<PathPattern>,
                                               s: Key, o: Key)
    ensures PathRel(g, d, path, s, o) <==> PathRel(g.(index := index), d, path, s, o)
    decreases |path|
  {
    if path != [] {
      var h := g.(index := index);
      assert EdgesOf(g, d, path[0].pred) == EdgesOf(h, d, path[0].pred);
      forall m
        ensures PathRel(g, d, path[1..], m, o) <==> PathRel(h, d, path[1..], m, o)
      {
        PathRelIgnoresIndex(g, index, d, path[1..], m, o);
      }
    }
  }
}
