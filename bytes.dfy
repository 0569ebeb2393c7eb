/**
 * Bytes, signed `char` values and NUL-terminated strings as the codec sees
 * them. A C string is modelled by its contents (a byte sequence without a
 * zero byte); the buffer that holds it is those contents followed by 0.
 */
module Bytes {

  /** An unsigned byte (`unsigned char`). */
  type u8 = b: int | 0 <= b < 256

  datatype Option<T> = None | Some(value: T)

  /** The byte stored when an `int` is assigned to a `char`: its value modulo 256. */
  function ToByte(x: int): (b: u8)
    ensures 0 <= x < 256 ==> b == x
    ensures -256 <= x < 0 ==> b == x + 256
  {
    x % 256
  }

  /** The value read back through a signed `char`. */
  function Signed(b: u8): (r: int)
    ensures -128 <= r < 128
    ensures ToByte(r) == b
    ensures r == b || r == b - 256
  {
    if b < 128 then b else b - 256
  }

  /** Storing a value in [-128, 127] into a `char` and reading it back gives it unchanged. */
  lemma SignedToByte(x: int)
    requires -128 <= x < 128
    ensures Signed(ToByte(x)) == x
  {
  }

  /** The contents of a C string: no byte is the terminator. */
  predicate NoNul(s: seq<u8>)
  {
    forall j :: 0 <= j < |s| ==> s[j] != 0
  }

  /** A value of a `short` (16-bit two's complement). */
  predicate IsShort(x: int)
  {
    -32768 <= x < 32768
  }

  /**
   * The two bytes a `short` occupies in memory after `htole16`: the
   * low byte of its 16-bit pattern first.
   */
  function Le16(x: int): (bs: seq<u8>)
    requires IsShort(x)
    ensures |bs| == 2
    ensures bs[0] as int + 256 * (bs[1] as int) == x % 65536
  {
    var u := x % 65536;
    [u % 256, u / 256]
  }

  /** The `short` read from two bytes with `le16toh`. */
  function S16(lo: u8, hi: u8): (x: int)
    ensures IsShort(x)
    ensures x % 65536 == lo as int + 256 * (hi as int)
  {
    var u := lo as int + 256 * (hi as int);
    if u >= 32768 then u - 65536 else u
  }

  /** Writing a `short` little-endian and reading it back gives it unchanged. */
  lemma S16Le16(x: int)
    requires IsShort(x)
    ensures S16(Le16(x)[0], Le16(x)[1]) == x
  {
    var bs := Le16(x);
    assert bs[0] as int + 256 * (bs[1] as int) == x % 65536;
  }
}
