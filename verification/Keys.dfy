/** Fixed-width identifiers of graph nodes and predicates (db/key.go), and the
    option type used for lookups that may fail. */
module Keys {

  newtype Byte = x: int | 0 <= x < 256

  /** The source's `[8]byte`. Most of the project only compares keys; the rows
      of the query executor store them byte by byte. */
  datatype Key = Key(b0: Byte, b1: Byte, b2: Byte, b3: Byte, b4: Byte, b5: Byte, b6: Byte, b7: Byte)

  /** The zero value, which the executor reads as "unbound". */
  const EMPTY_KEY := Key(0, 0, 0, 0, 0, 0, 0, 0)

  datatype Option<+T> = None | Some(value: T)

  function ToBytes(k: Key): (b: seq<Byte>)
    ensures |b| == 8
  {
    [k.b0, k.b1, k.b2, k.b3, k.b4, k.b5, k.b6, k.b7]
  }

  function FromSlice(b: seq<Byte>): (k: Key)
    requires |b| == 8
    ensures ToBytes(k) == b
  {
    Key(b[0], b[1], b[2], b[3], b[4], b[5], b[6], b[7])
  }
}
