/** Bytes, 16-bit words and their layouts in memory and on the wire. */
module Wire {

  type byte = x: int | 0 <= x < 0x100
  type u16 = x: int | 0 <= x < 0x1_0000
  type Bytes = seq<byte>

  datatype Option<+T> = None | Some(value: T)

  /** Network byte order; wider values are truncated as `htons` and `htonl` do. */
  function Be16(x: nat): (b: Bytes)
    ensures |b| == 2
  {
    [x / 0x100 % 0x100, x % 0x100]
  }

  function Be32(x: nat): (b: Bytes)
    ensures |b| == 4
  {
    Be16(x / 0x1_0000) + Be16(x)
  }

  /** Host byte order, as a plain store of a 16-bit value leaves it in memory. */
  function Le16(x: u16): (b: Bytes)
    ensures |b| == 2
  {
    [x % 0x100, x / 0x100]
  }

  /** The big-endian 16-bit number at a position. */
  function U16At(b: Bytes, pos: nat): (n: nat)
    requires pos + 2 <= |b|
    ensures n < 0x1_0000
  {
    0x100 * (b[pos] as int) + b[pos + 1]
  }

  lemma Be16OfU16(b: Bytes, pos: nat)
    requires pos + 2 <= |b|
    ensures Be16(U16At(b, pos)) == b[pos..pos + 2]
  {
    var hi: int, lo: int := b[pos], b[pos + 1];
    assert (0x100 * hi + lo) / 0x100 == hi;
  }
}
