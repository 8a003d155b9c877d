/** The mutable key set used for search results and variable definitions (db/keymap.go). */
module Keymaps {
  import opened Keys

  class Keymap {
    var m: set<Key>

    constructor ()
      ensures m == {}
    {
      m := {};
    }

    method Add(ent: Key)
      modifies this
      ensures m == old(m) + {ent}
    {
      m := m + {ent};
    }

    method Delete(k: Key)
      modifies this
      ensures m == old(m) - {k}
    {
      m := m - {k};
    }

    /** Some member, not necessarily the greatest one: the source takes the first
        key of an unordered iteration. Two calls may answer differently. */
    method Max() returns (max: Key)
      ensures m == {} ==> max == EMPTY_KEY
      ensures m != {} ==> max in m
    {
      max := EMPTY_KEY;
      if m != {} {
        max :| max in m;
      }
    }

    method DeleteMax() returns (max: Key)
      modifies this
      ensures old(m) != {} ==> max in old(m) && m == old(m) - {max}
      ensures old(m) == {} ==> max == EMPTY_KEY && m == {}
    {
      max := Max();
      m := m - {max};
    }

    /** The loop every search runs over an edge list. */
    method AddAll(endpoints: seq<Key>)
      modifies this
      ensures m == old(m) + set x | x in endpoints
    {
      for i := 0 to |endpoints|
        invariant m == old(m) + set x | x in endpoints[..i]
      {
        Add(endpoints[i]);
        assert endpoints[..i + 1] == endpoints[..i] + [endpoints[i]];
      }
      assert endpoints[..|endpoints|] == endpoints;
    }
  }
}
