/** Packed result rows (db/row.go): eight bytes per variable position, in buffers that
    are recycled through a pool. */
module Rows {
  import opened Keys

  const SLOT: nat := 8
  const FRESH_LENGTH: nat := 64

  // ---- the bytes of a row ----

  /** Row contents only ever grow by whole slots. */
  predicate Aligned(c: seq<Byte>) {
    |c| % SLOT == 0
  }

  function Zeros(n: nat): (z: seq<Byte>)
    ensures |z| == n && forall i :: 0 <= i < n ==> z[i] == 0
  {
    seq(n, i => 0 as Byte)
  }

  /** `valueAt`: positions past the end read as the empty key. */
  function ValueAt(c: seq<Byte>, pos: nat): Key {
    if pos * SLOT + SLOT > |c| then EMPTY_KEY else FromSlice(c[pos * SLOT..pos * SLOT + SLOT])
  }

  /** The content has bytes for the position. */
  predicate Reaches(c: seq<Byte>, pos: nat) {
    pos * SLOT + SLOT <= |c|
  }

  /** `addValue`: grow with zeros if need be, then overwrite one slot. */
  function Put(c: seq<Byte>, pos: nat, v: Key): seq<Byte> {
    var grown := if |c| < pos * SLOT + SLOT then c + Zeros(pos * SLOT + SLOT - |c|) else c;
    grown[..pos * SLOT] + ToBytes(v) + grown[pos * SLOT + SLOT..]
  }

  lemma EmptySlot(b: seq<Byte>)
    requires |b| == SLOT && forall i :: 0 <= i < SLOT ==> b[i] == 0
    ensures FromSlice(b) == EMPTY_KEY
  {
  }

  lemma FromToBytes(k: Key)
    ensures FromSlice(ToBytes(k)) == k
  {
  }

  lemma PutLength(c: seq<Byte>, pos: nat, v: Key)
    ensures |Put(c, pos, v)| == if Reaches(c, pos) then |c| else pos * SLOT + SLOT
  {
  }

  lemma SlotWritten(c: seq<Byte>, pos: nat, v: Key)
    ensures Put(c, pos, v)[pos * SLOT..pos * SLOT + SLOT] == ToBytes(v)
  {
  }

  lemma SlotKept(c: seq<Byte>, pos: nat, v: Key, q: nat)
    requires q != pos && Reaches(c, q)
    ensures Put(c, pos, v)[q * SLOT..q * SLOT + SLOT] == c[q * SLOT..q * SLOT + SLOT]
  {
    var grown := if |c| < pos * SLOT + SLOT then c + Zeros(pos * SLOT + SLOT - |c|) else c;
    assert grown[q * SLOT..q * SLOT + SLOT] == c[q * SLOT..q * SLOT + SLOT];
    if q < pos {
      assert Put(c, pos, v)[..pos * SLOT] == grown[..pos * SLOT];
    } else {
      assert Put(c, pos, v)[pos * SLOT + SLOT..] == grown[pos * SLOT + SLOT..];
    }
  }

  /** Slots between the old end and the written one are zero. */
  lemma SlotGrown(c: seq<Byte>, pos: nat, v: Key, q: nat)
    requires Aligned(c) && q != pos && !Reaches(c, q) && Reaches(Put(c, pos, v), q)
    ensures Put(c, pos, v)[q * SLOT..q * SLOT + SLOT] == Zeros(SLOT)
  {
    var grown := c + Zeros(pos * SLOT + SLOT - |c|);
    assert |c| <= q * SLOT && q < pos;
    assert Put(c, pos, v)[q * SLOT..q * SLOT + SLOT] == grown[q * SLOT..q * SLOT + SLOT];
  }

  /** A row is a map from positions to keys: writing one position changes that position only. */
  lemma PutAt(c: seq<Byte>, pos: nat, v: Key, q: nat)
    requires Aligned(c)
    ensures Aligned(Put(c, pos, v))
    ensures ValueAt(Put(c, pos, v), q) == if q == pos then v else ValueAt(c, q)
    ensures Reaches(Put(c, pos, v), q) <==> q <= pos || Reaches(c, q)
  {
    PutLength(c, pos, v);
    hide Put;
    FromToBytes(v);
    EmptySlot(Zeros(SLOT));
    if q == pos {
      SlotWritten(c, pos, v);
    } else if Reaches(c, q) {
      SlotKept(c, pos, v, q);
    } else if Reaches(Put(c, pos, v), q) {
      SlotGrown(c, pos, v, q);
    }
  }

  lemma ZerosAreEmpty(n: nat, pos: nat)
    ensures ValueAt(Zeros(n), pos) == EMPTY_KEY
  {
    if pos * SLOT + SLOT <= n {
      EmptySlot(Zeros(n)[pos * SLOT..pos * SLOT + SLOT]);
    }
  }

  /** Trailing zeros are not visible. */
  lemma PaddingInvisible(c: seq<Byte>, n: nat, pos: nat)
    requires Aligned(c)
    ensures ValueAt(c + Zeros(n), pos) == ValueAt(c, pos)
  {
    var p := c + Zeros(n);
    if pos * SLOT + SLOT <= |p| {
      var slot := p[pos * SLOT..pos * SLOT + SLOT];
      if pos * SLOT + SLOT <= |c| {
        assert slot == c[pos * SLOT..pos * SLOT + SLOT];
      } else {
        EmptySlot(slot);
      }
    }
  }

  // ---- rows and their pool ----

  /** A row's content is a slice: the first `len` bytes of a buffer that may be longer. */
  class Row {
    var buf: array<Byte>
    var len: nat

    /** What the pool makes when it has nothing to recycle. */
    constructor Fresh()
      ensures fresh(buf) && len == buf.Length && buf[..] == Zeros(FRESH_LENGTH)
    {
      buf := new Byte[FRESH_LENGTH](_ => 0);
      len := FRESH_LENGTH;
    }

    function Content(): seq<Byte>
      requires len <= buf.Length
      reads this, buf
    {
      buf[..len]
    }

    /** The row as a map from positions to keys. */
    ghost function At(pos: nat): Key
      requires len <= buf.Length
      reads this, buf
    {
      ValueAt(Content(), pos)
    }

    /** A longer content needs a new buffer, which is zeroed. */
    method Grow(n: nat)
      requires len <= buf.Length
      modifies this
      ensures len <= buf.Length && len >= n && (buf == old(buf) || fresh(buf))
      ensures Content() == if old(len) < n then old(Content()) + Zeros(n - old(len)) else old(Content())
    {
      if len < n {
        var nbuf := new Byte[n](_ => 0);
        forall i | 0 <= i < len {
          nbuf[i] := buf[i];
        }
        assert nbuf[..] == Content() + Zeros(n - len);
        buf, len := nbuf, n;
      }
    }

    method Write(start: nat, bytes: seq<Byte>)
      requires start + |bytes| <= len <= buf.Length
      modifies buf
      ensures Content() == old(Content())[..start] + bytes + old(Content())[start + |bytes|..]
    {
      forall i | 0 <= i < |bytes| {
        buf[start + i] := bytes[i];
      }
    }

    /** The second half of `copy`: take over the other row's bytes, in a new buffer if
        this one is too short. */
    method CopyFrom(row: Row)
      requires len <= buf.Length && row.len <= row.buf.Length && buf != row.buf && this != row
      requires Content() == Zeros(len)
      modifies this, buf
      ensures len <= buf.Length && (buf == old(buf) || fresh(buf))
      ensures Content() == row.Content() + Zeros(if old(len) < row.len then 0 else old(len) - row.len)
    {
      if len < row.len {
        buf := new Byte[row.len](_ => 0);
        len := row.len;
      }
      Write(0, row.Content());
    }

    method AddValue(pos: nat, v: Key)
      requires len <= buf.Length
      modifies this, buf
      ensures len <= buf.Length && (buf == old(buf) || fresh(buf))
      ensures Content() == Put(old(Content()), pos, v)
    {
      Grow(pos * SLOT + SLOT);
      Write(pos * SLOT, ToBytes(v));
    }
  }

  class RowPool {
    var free: seq<Row>
    ghost var owned: set<Row>

    ghost predicate Valid()
      reads this, owned, set r | r in owned :: r.buf
    {
      && (forall r :: r in owned ==> r.len <= r.buf.Length && Aligned(r.Content()))
      && (forall r, s :: r in owned && s in owned && r != s ==> r.buf != s.buf)
      && (forall r :: r in free ==> r in owned && r.len == 0)
      && (forall i, j :: 0 <= i < j < |free| ==> free[i] != free[j])
    }

    /** The rows handed out and not yet released. */
    ghost function Live(): set<Row>
      reads this
    {
      owned - set r | r in free
    }

    constructor ()
      ensures Valid() && Live() == {}
    {
      free, owned := [], {};
    }

    /** Take a released row off the free list. */
    method Recycle() returns (row: Row)
      requires Valid() && free != []
      modifies `free
      ensures Valid() && row !in old(Live()) && Live() == old(Live()) + {row}
      ensures row in owned && row.len == 0
    {
      ghost var free0 := free;
      row := free[|free| - 1];
      assert free == free[..|free| - 1] + [row];
      free := free[..|free| - 1];
      assert forall r :: r in free0 <==> r in free || r == row;
    }

    /** What the pool does when it has nothing to recycle. */
    method Make() returns (row: Row)
      requires Valid()
      modifies `owned
      ensures Valid() && row !in old(Live()) && Live() == old(Live()) + {row}
      ensures fresh(row) && fresh(row.buf) && row.Content() == Zeros(row.len)
    {
      row := new Row.Fresh();
      assert row.Content() == Zeros(FRESH_LENGTH);
      owned := owned + {row};
    }

    /** A recycled row or a fresh one; which is up to the pool. Either way it is blank. */
    method NewRow() returns (row: Row)
      requires Valid()
      modifies this
      ensures Valid() && row !in old(Live()) && Live() == old(Live()) + {row}
      ensures row in old(owned) || (fresh(row) && fresh(row.buf))
      ensures row.len <= row.buf.Length && row.Content() == Zeros(row.len)
      ensures forall pos :: row.At(pos) == EMPTY_KEY
    {
      var recycle: bool := *;
      if recycle && free != [] {
        row := Recycle();
        assert row.Content() == [] == Zeros(0);
      } else {
        row := Make();
      }
      forall pos
        ensures ValueAt(Zeros(row.len), pos) == EMPTY_KEY
      {
        ZerosAreEmpty(row.len, pos);
      }
    }

    /** The content shrinks to nothing; the old bytes stay in the buffer. */
    method Release(row: Row)
      requires Valid() && row in Live()
      modifies this, row
      ensures Valid() && Live() == old(Live()) - {row}
      ensures row.buf == old(row.buf)
    {
      row.len := 0;
      free := free + [row];
      assert row.Content() == [];
    }

    /** Write one position of a row. */
    method AddValue(row: Row, pos: nat, v: Key)
      requires Valid() && row in Live()
      modifies row, row.buf
      ensures Valid() && Live() == old(Live())
      ensures row.Content() == Put(old(row.Content()), pos, v)
      ensures forall q :: row.At(q) == if q == pos then v else old(row.At(q))
      ensures forall r :: r in Live() && r != row ==> r.Content() == old(r.Content())
    {
      ghost var before := row.Content();
      row.AddValue(pos, v);
      forall q
        ensures ValueAt(Put(before, pos, v), q) == if q == pos then v else ValueAt(before, q)
        ensures Aligned(Put(before, pos, v))
      {
        PutAt(before, pos, v, q);
      }
      assert Aligned(Put(before, pos, v)) by {
        PutAt(before, pos, v, 0);
      }
    }

    /** A row with the same values; the pool's buffer is replaced if it is too short. */
    method Copy(row: Row) returns (gr: Row)
      requires Valid() && row in Live()
      modifies this, owned - Live(), set r | r in owned - Live() :: r.buf
      ensures Valid() && gr !in old(Live()) && Live() == old(Live()) + {gr}
      ensures forall pos :: gr.At(pos) == old(row.At(pos))
      ensures forall r :: r in old(Live()) ==> r.Content() == old(r.Content())
    {
      gr := NewRow();
      ghost var padding := if gr.len < row.len then 0 else gr.len - row.len;
      gr.CopyFrom(row);
      forall pos
        ensures ValueAt(row.Content() + Zeros(padding), pos) == ValueAt(row.Content(), pos)
      {
        PaddingInvisible(row.Content(), padding, pos);
      }
    }
  }
}
