/**
 * The public constants of the codec: the error codes that `frenc` and
 * `frdec` return in place of a size, the integer limits of the platform
 * the code assumes (LP64: 64-bit `size_t` and pointers, 32-bit `int`),
 * and the delta tier bounds of the wire format.
 */
module FrencH {

  /** `~(size_t)0`: the largest `size_t`. */
  const SIZE_MAX: nat := 0xFFFF_FFFF_FFFF_FFFF
  /** `INT_MAX` of a 32-bit `int`. */
  const INT_MAX: nat := 0x7FFF_FFFF
  /** `INT_MIN` of a 32-bit `int`. */
  const INT_MIN: int := -0x8000_0000

  /**
   * `(int) x`: a wider integer stored in a 32-bit `int` keeps its value
   * modulo 2^32, read as a two's complement number (as GCC and Clang
   * define the conversion).
   */
  function Int32(x: int): (r: int)
    ensures INT_MIN <= r <= INT_MAX
    ensures (x - r) % 0x1_0000_0000 == 0
    ensures INT_MIN <= x <= INT_MAX ==> r == x
    ensures 0 <= x && 0 <= r ==> r <= x
  {
    var m := x % 0x1_0000_0000;
    if m <= INT_MAX then m else m - 0x1_0000_0000
  }
  /** `sizeof(char *)`. */
  const PTR_SIZE: nat := 8

  /** A `malloc` failed. */
  const FRENC_ERR_MALLOC: nat := SIZE_MAX - 0
  /** An input exceeds a size limit of the format. */
  const FRENC_ERR_RANGE: nat := SIZE_MAX - 1
  /** The encoded data are malformed. */
  const FRENC_ERR_DATA: nat := SIZE_MAX - 2
  /** An I/O error in the streaming interface. */
  const FRENC_ERR_STDIO: nat := SIZE_MAX - 3
  /** Every return value at or above this one is an error. */
  const FRENC_ERROR: nat := SIZE_MAX - 7

  /** How a caller tells an error from a size or a count. */
  predicate IsError(ret: nat)
  {
    ret >= FRENC_ERROR
  }

  /** The four error codes are pairwise distinct, all are errors, and all are `size_t` values. */
  lemma ErrorCodes()
    ensures |{FRENC_ERR_MALLOC, FRENC_ERR_RANGE, FRENC_ERR_DATA, FRENC_ERR_STDIO}| == 4
    ensures IsError(FRENC_ERR_MALLOC) && IsError(FRENC_ERR_RANGE)
    ensures IsError(FRENC_ERR_DATA) && IsError(FRENC_ERR_STDIO)
    ensures FRENC_ERR_MALLOC <= SIZE_MAX
  {
  }

  // Delta tiers. The header's format block that defines these is not part
  // of this model; the values are the ones the code and its assertions fix.

  /** A delta in [DIFF1_LO, DIFF1_HI] takes one byte. */
  const DIFF1_LO: int := -126
  const DIFF1_HI: int := 126
  /** A delta in [DIFF2_LO, DIFF2_HI] outside tier 1 takes a marker and one unsigned byte. */
  const DIFF2_LO: int := -382
  const DIFF2_HI: int := 382
  /** Larger deltas take a marker and a little-endian `short`; larger ones still are clamped or refused. */
  const DIFF3_LO: int := -33151
  const DIFF3_HI: int := 33150
}
