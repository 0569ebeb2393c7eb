/**
 * The longest-common-prefix primitive `lcp` that drives the encoder: a
 * 16-byte block comparison (the SSE2 build) followed by a scalar loop
 * that stops at the first unequal byte, using the NUL terminator as the
 * stop signal when both strings have the same length.
 */
module LcpEngine {
  import opened Bytes

  function Min(a: nat, b: nat): (m: nat)
    ensures m <= a && m <= b && (m == a || m == b)
  {
    if a < b then a else b
  }

  /** The length of the longest common prefix of two byte sequences: the reference definition. */
  function CommonPrefixLen(a: seq<u8>, b: seq<u8>): (r: nat)
    ensures r <= |a| && r <= |b|
    ensures forall j :: 0 <= j < r ==> a[j] == b[j]
    ensures r < |a| && r < |b| ==> a[r] != b[r]
  {
    if a == [] || b == [] || a[0] != b[0] then 0
    else 1 + CommonPrefixLen(a[1..], b[1..])
  }

  /** The three properties of the contract above determine the prefix length. */
  lemma CommonPrefixUnique(a: seq<u8>, b: seq<u8>, k: nat)
    requires k <= |a| && k <= |b|
    requires forall j :: 0 <= j < k ==> a[j] == b[j]
    requires k < |a| && k < |b| ==> a[k] != b[k]
    ensures k == CommonPrefixLen(a, b)
  {
  }

  /** Up to the common prefix length, the two sequences have the same prefix. */
  lemma CommonPrefixSlices(a: seq<u8>, b: seq<u8>)
    ensures a[..CommonPrefixLen(a, b)] == b[..CommonPrefixLen(a, b)]
  {
  }

  /** The first index in [i, hi) where the two sequences differ, or hi. */
  function FirstMismatch(s1: seq<u8>, s2: seq<u8>, i: nat, hi: nat): (j: nat)
    requires i <= hi <= |s1| && hi <= |s2|
    ensures i <= j <= hi
    ensures forall t :: i <= t < j ==> s1[t] == s2[t]
    ensures j < hi ==> s1[j] != s2[j]
    decreases hi - i
  {
    if i == hi || s1[i] != s2[i] then i else FirstMismatch(s1, s2, i + 1, hi)
  }

  /**
   * One SSE2 block step: compare the 16 bytes at `off` of both strings and
   * give the offset of the first unequal one (`ffs(~mask) - 1` of the
   * equality mask), or 16 when the mask is 0xffff.
   */
  function BlockMismatch(s1: seq<u8>, s2: seq<u8>, off: nat): (k: nat)
    requires off + 16 <= |s1| && off + 16 <= |s2|
    ensures k <= 16
    ensures forall t :: off <= t < off + k ==> s1[t] == s2[t]
    ensures k < 16 ==> s1[off + k] != s2[off + k]
  {
    FirstMismatch(s1, s2, off, off + 16) - off
  }

  /**
   * `lcp(s1, len1, s2, len2)`: `s1` and `s2` are the strings' buffers, each
   * holding `len` non-zero bytes and a terminator. With `sse2` the 16-byte
   * block loop runs first; either way the result is the common prefix
   * length, so both builds agree.
   */
  method Lcp(s1: seq<u8>, len1: nat, s2: seq<u8>, len2: nat, sse2: bool) returns (r: nat)
    requires len1 < |s1| && s1[len1] == 0 && NoNul(s1[..len1])
    requires len2 < |s2| && s2[len2] == 0 && NoNul(s2[..len2])
    ensures r <= len1 && r <= len2
    ensures s1[..r] == s2[..r]
    ensures r < len1 && r < len2 ==> s1[r] != s2[r]
    ensures len1 == len2 && s1[..len1] == s2[..len2] ==> r == len1
    ensures r == CommonPrefixLen(s1[..len1], s2[..len2])
  {
    var minlen := Min(len1, len2);
    var k := 0;
    if sse2 {
      var xmmsize := minlen / 16;
      var i := 0;
      while i < xmmsize
        invariant 0 <= i <= xmmsize
        invariant k == 16 * i && k <= minlen
        invariant forall t :: 0 <= t < k ==> s1[t] == s2[t]
      {
        var m := BlockMismatch(s1, s2, k);
        if m != 16 {
          r := k + m;
          assert s1[..r] == s2[..r];
          CommonPrefixUnique(s1[..len1], s2[..len2], r);
          return;
        }
        k := k + 16;
        i := i + 1;
      }
    }
    // Past the blocks: when the lengths differ, the shorter string's
    // terminator meets a non-zero byte of the other and stops the loop.
    if len1 != len2 {
      while s1[k] == s2[k]
        invariant k <= minlen
        invariant forall t :: 0 <= t < k ==> s1[t] == s2[t]
        decreases minlen - k
      {
        k := k + 1;
      }
    } else {
      while s1[k] != 0 && s1[k] == s2[k]
        invariant k <= minlen
        invariant forall t :: 0 <= t < k ==> s1[t] == s2[t]
        decreases minlen - k
      {
        k := k + 1;
      }
    }
    r := k;
    assert s1[..r] == s2[..r];
    CommonPrefixUnique(s1[..len1], s2[..len2], r);
  }
}
