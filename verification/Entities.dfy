/** In-memory entities, predicate entities and closure-index entries (db/entity.go).
    Loading one from the store makes a fresh object; `Record` is what saving it writes. */
module Entities {
  import opened Keys
  import opened Graphs

  // ---- edge lists ----

  function ListOf(lists: EdgeLists, p: Key): seq<Key> {
    if p in lists then lists[p] else []
  }

  function WithEdge(lists: EdgeLists, p: Key, x: Key): EdgeLists {
    if x in ListOf(lists, p) then lists else lists[p := ListOf(lists, p) + [x]]
  }

  predicate NoDuplicates(s: seq<Key>) {
    forall i, j :: 0 <= i < j < |s| ==> s[i] != s[j]
  }

  ghost predicate DuplicateFree(lists: EdgeLists) {
    forall p :: p in lists ==> NoDuplicates(lists[p])
  }

  /** Adding an edge adds that edge and nothing else. */
  lemma WithEdgeAt(lists: EdgeLists, p: Key, x: Key, q: Key, y: Key)
    ensures y in ListOf(WithEdge(lists, p, x), q) <==> y in ListOf(lists, q) || (q == p && y == x)
  {
  }

  /** Adding an edge never stores a second copy. */
  lemma WithEdgeKeepsFree(lists: EdgeLists, p: Key, x: Key)
    requires DuplicateFree(lists)
    ensures DuplicateFree(WithEdge(lists, p, x))
  {
    if x !in ListOf(lists, p) && p in lists {
      assert NoDuplicates(lists[p]);
    }
  }

  /** The scan shared by the four `Add...Edge` methods. */
  method AddEdge(lists: EdgeLists, p: Key, x: Key) returns (lists': EdgeLists, added: bool)
    ensures lists' == WithEdge(lists, p, x)
    ensures added <==> x !in ListOf(lists, p)
  {
    if p !in lists {
      assert [] + [x] == [x];
      return lists[p := [x]], true;
    }
    var edgeList := lists[p];
    for i := 0 to |edgeList|
      invariant x !in edgeList[..i]
    {
      if edgeList[i] == x {
        return lists, false;
      }
    }
    return lists[p := edgeList + [x]], true;
  }

  class Entity {
    var pk: Key
    var inEdges: EdgeLists
    var outEdges: EdgeLists

    constructor Load(n: Node)
      ensures Record() == n
    {
      pk, inEdges, outEdges := n.pk, n.inEdges, n.outEdges;
    }

    function Record(): Node
      reads this
    {
      Node(pk, inEdges, outEdges)
    }

    method AddInEdge(p: Key, endpoint: Key) returns (added: bool)
      modifies this
      ensures Record() == old(Record()).(inEdges := WithEdge(old(inEdges), p, endpoint))
      ensures added <==> endpoint !in ListOf(old(inEdges), p)
    {
      inEdges, added := AddEdge(inEdges, p, endpoint);
    }

    method AddOutEdge(p: Key, endpoint: Key) returns (added: bool)
      modifies this
      ensures Record() == old(Record()).(outEdges := WithEdge(old(outEdges), p, endpoint))
      ensures added <==> endpoint !in ListOf(old(outEdges), p)
    {
      outEdges, added := AddEdge(outEdges, p, endpoint);
    }
  }

  class EntityExtendedIndex {
    var pk: Key
    var inPlusEdges: EdgeLists
    var outPlusEdges: EdgeLists

    constructor Load(r: IndexRecord)
      ensures Record() == r
    {
      pk, inPlusEdges, outPlusEdges := r.pk, r.inPlus, r.outPlus;
    }

    function Record(): IndexRecord
      reads this
    {
      IndexRecord(pk, inPlusEdges, outPlusEdges)
    }

    /** `AddOutPlusEdge` (`d == Out`) and `AddInPlusEdge` (`d == In`). */
    method AddPlusEdge(d: Dir, p: Key, endpoint: Key) returns (added: bool)
      modifies this
      ensures Record() == WithPlus(old(Record()), d, p, endpoint)
      ensures added <==> endpoint !in ListOf(PlusLists(old(Record()), d), p)
    {
      if d == Out {
        outPlusEdges, added := AddEdge(outPlusEdges, p, endpoint);
      } else {
        inPlusEdges, added := AddEdge(inPlusEdges, p, endpoint);
      }
    }
  }

  function WithPlus(r: IndexRecord, d: Dir, p: Key, x: Key): IndexRecord {
    if d == Out then r.(outPlus := WithEdge(r.outPlus, p, x)) else r.(inPlus := WithEdge(r.inPlus, p, x))
  }

  // ---- the predicate index ----

  /** The source maps every inner key to the number 0; here the inner map is its key set. */
  type PairMap = map<Key, set<Key>>

  predicate HasPair(m: PairMap, a: Key, b: Key) {
    a in m && b in m[a]
  }

  function WithPair(m: PairMap, a: Key, b: Key): PairMap {
    m[a := (if a in m then m[a] else {}) + {b}]
  }

  /** Adding a pair adds that pair and nothing else. */
  lemma WithPairMeaning(m: PairMap, a: Key, b: Key)
    ensures forall x, y :: HasPair(WithPair(m, a, b), x, y) <==> HasPair(m, x, y) || (x == a && y == b)
  {
  }

  datatype PredRecord = PredRecord(pk: Key, subjects: PairMap, objects: PairMap)

  class PredicateEntity {
    var pk: Key
    var subjects: PairMap
    var objects: PairMap

    constructor Load(r: PredRecord)
      ensures Record() == r
    {
      pk, subjects, objects := r.pk, r.subjects, r.objects;
    }

    function Record(): PredRecord
      reads this
    {
      PredRecord(pk, subjects, objects)
    }

    method AddSubjectObject(s: Key, o: Key) returns (changed: bool)
      modifies this
      ensures Record() == WithSubjectObject(old(Record()), s, o)
      ensures changed <==> !HasPair(old(subjects), s, o) || !HasPair(old(objects), o, s)
      ensures !changed ==> Record() == old(Record())
    {
      changed := false;
      if s in subjects {
        if o !in subjects[s] {
          subjects := subjects[s := subjects[s] + {o}];
          changed := true;
        }
      } else {
        subjects := subjects[s := {o}];
        changed := true;
      }
      if o in objects {
        if s !in objects[o] {
          objects := objects[o := objects[o] + {s}];
          changed := true;
        }
      } else {
        objects := objects[o := {s}];
        changed := true;
      }
      assert subjects[s] == WithPair(old(subjects), s, o)[s] && subjects == WithPair(old(subjects), s, o);
      assert objects[o] == WithPair(old(objects), o, s)[o] && objects == WithPair(old(objects), o, s);
    }
  }

  function WithSubjectObject(r: PredRecord, s: Key, o: Key): PredRecord {
    PredRecord(r.pk, WithPair(r.subjects, s, o), WithPair(r.objects, o, s))
  }
}
