/**
 * The tiered delta code of the wire format, both as the encoder writes it
 * and as the decoder reads it back. A delta is the change of the shared
 * prefix length from one entry to the next.
 */
module Delta {
  import opened Bytes
  import opened FrencH

  datatype Tier = Tier1 | Tier2 | Tier3

  /** The tier `encpass` chooses for a delta. */
  function TierOf(d: int): (t: Tier)
    ensures t == Tier1 <==> DIFF1_LO <= d <= DIFF1_HI
    ensures t == Tier2 <==> DIFF2_LO <= d < DIFF1_LO || DIFF1_HI < d <= DIFF2_HI
    ensures t == Tier3 <==> d < DIFF2_LO || DIFF2_HI < d
  {
    if DIFF1_LO <= d <= DIFF1_HI then Tier1
    else if DIFF2_LO <= d <= DIFF2_HI then Tier2
    else Tier3
  }

  /** The bytes the first pass counts for a delta's code. */
  function Cost(d: int): (c: nat)
    ensures 1 <= c <= 3
  {
    match TierOf(d)
    case Tier1 => 1
    case Tier2 => 2
    case Tier3 => 3
  }

  /**
   * The bytes the second pass writes for a delta (already clamped to
   * DIFF3_HI), as the code is written: tier 2 below zero stores
   * (d + 127) mod 256, and tier 3 writes the little-endian `short` alone,
   * without the -128 marker the first pass counted.
   */
  function Code(d: int): (c: seq<u8>)
    requires DIFF3_LO <= d <= DIFF3_HI
    ensures |c| == (if TierOf(d) == Tier3 then Cost(d) - 1 else Cost(d))
  {
    match TierOf(d)
    case Tier1 => [ToByte(d)]
    case Tier2 =>
      if d > 0 then [127, ToByte(d - 127)] else [ToByte(-127), ToByte(d + 127)]
    case Tier3 =>
      if d > 0 then Le16(d - (DIFF2_HI + 1)) else Le16(d - (DIFF2_LO - 1))
  }

  /** The `bigdiff` table: the bytes that, read as `char`, are 127, -128 or -127 are markers. */
  function BigDiff(b: u8): (r: bool)
    ensures r <==> Signed(b) == 127 || Signed(b) == -128 || Signed(b) == -127
  {
    127 <= b <= 129
  }

  datatype DeltaRead = Read(diff: int, next: nat) | Short

  /**
   * Reading the delta code at `p`, given `left`, what the decoder takes for
   * the number of bytes after the lead byte. The first pass (`strict`
   * false) asks a marker for as many following bytes as its operand has;
   * the second (`strict` true) asks for one more, and also refuses a plain
   * delta that is the last byte of the blob (`enc == end`).
   */
  function ReadCode(b: seq<u8>, p: nat, strict: bool, left: int): (r: DeltaRead)
    requires p < |b| && (left >= 0 ==> left <= |b| - (p + 1))
    ensures r.Read? ==> p < r.next <= |b|
    ensures r.Read? && strict ==> r.next < |b|
  {
    var m := Signed(b[p]);
    var slack := if strict then 1 else 0;
    if BigDiff(b[p]) then
      if m == 127 then
        if left < 1 + slack then Short else Read(m + b[p + 1], p + 2)
      else if m == -127 then
        if left < 1 + slack then Short else Read(m - b[p + 1], p + 2)
      else
        if left < 2 + slack then Short
        else
          var s := S16(b[p + 1], b[p + 2]);
          Read(if s >= 0 then s + (DIFF2_HI + 1) else s - (DIFF2_LO - 1), p + 3)
    else if strict && p + 1 == |b| then Short
    else Read(m, p + 1)
  }

  /**
   * The delta read as written: `int left = end - enc` keeps the pointer
   * difference modulo 2^32, so a marker whose count of bytes after it is
   * 2^31 or more modulo 2^32 (for example 2^31 … 2^32 - 1 bytes) sees a
   * negative `left`.
   */
  function ReadDelta(b: seq<u8>, p: nat, strict: bool): (r: DeltaRead)
    requires p < |b|
    ensures r.Read? ==> p < r.next <= |b|
    ensures r.Read? && strict ==> r.next < |b|
  {
    ReadCode(b, p, strict, Int32(|b| - (p + 1)))
  }

  /** The delta read with `left` kept as the full pointer difference. */
  function WideReadDelta(b: seq<u8>, p: nat, strict: bool): (r: DeltaRead)
    requires p < |b|
    ensures r.Read? ==> p < r.next <= |b|
    ensures r.Read? && strict ==> r.next < |b|
  {
    ReadCode(b, p, strict, |b| - (p + 1))
  }

  /** Below 2^31 bytes after the lead byte, the 32-bit `left` is exact and the two reads agree. */
  lemma NarrowAgrees(b: seq<u8>, p: nat, strict: bool)
    requires p < |b| && |b| - (p + 1) <= INT_MAX
    ensures ReadDelta(b, p, strict) == WideReadDelta(b, p, strict)
  {
  }

  /**
   * What each lead byte reads as: a marker whose operand is cut off by the
   * end of the blob is refused, 127 and -127 add or subtract the unsigned
   * byte after them, -128 adds 383 to the `short` after it whatever its
   * sign, and any other byte is the delta itself.
   */
  lemma ReadDeltaCases(b: seq<u8>, p: nat, strict: bool)
    requires p < |b|
    ensures var r := ReadDelta(b, p, strict);
      && (r.Short? <==>
          || ((Signed(b[p]) == 127 || Signed(b[p]) == -127) && Int32(|b| - (p + 1)) < (if strict then 2 else 1))
          || (Signed(b[p]) == -128 && Int32(|b| - (p + 1)) < (if strict then 3 else 2))
          || (strict && !BigDiff(b[p]) && p + 1 == |b|))
      && (r.Read? && Signed(b[p]) == 127 ==> r == Read(127 + b[p + 1] as int, p + 2))
      && (r.Read? && Signed(b[p]) == -127 ==> r == Read(-127 - b[p + 1] as int, p + 2))
      && (r.Read? && Signed(b[p]) == -128 ==> r == Read(S16(b[p + 1], b[p + 2]) + 383, p + 3))
      && (r.Read? && !BigDiff(b[p]) ==> r == Read(Signed(b[p]), p + 1))
  {
  }

  /** Whatever the second pass's checks accept, the first pass's accept too, with the same result. */
  lemma StrictAcceptsLess(b: seq<u8>, p: nat)
    requires p < |b|
    requires ReadDelta(b, p, true).Read?
    ensures ReadDelta(b, p, false) == ReadDelta(b, p, true)
  {
  }

  /**
   * A delta in [-127, DIFF2_HI] comes back unchanged: its code, followed by
   * at least one more byte, reads as the delta on either pass, as long as
   * the 32-bit `left` does not wrap.
   */
  lemma DeltaRoundTrip(d: int, b: seq<u8>, p: nat, strict: bool)
    requires -127 <= d <= DIFF2_HI
    requires p + |Code(d)| < |b| && b[p..p + |Code(d)|] == Code(d)
    requires |b| - (p + 1) <= INT_MAX
    ensures ReadDelta(b, p, strict) == Read(d, p + |Code(d)|)
  {
    WideRoundTrip(d, b, p, strict);
    NarrowAgrees(b, p, strict);
  }

  /** With `left` kept in full, a delta in [-127, DIFF2_HI] comes back unchanged however long the blob. */
  lemma WideRoundTrip(d: int, b: seq<u8>, p: nat, strict: bool)
    requires -127 <= d <= DIFF2_HI
    requires p + |Code(d)| < |b| && b[p..p + |Code(d)|] == Code(d)
    ensures WideReadDelta(b, p, strict) == Read(d, p + |Code(d)|)
  {
    var c := Code(d);
    assert b[p] == c[0];
    if TierOf(d) == Tier2 {
      assert b[p + 1] == c[1];
    }
  }

  /**
   * Negative tier 2 below -127 does not invert: the encoder stores
   * (d + 127) mod 256 and the decoder computes -127 minus that byte, which
   * gives -510 - d. (At d = -127 the stored byte is 0 and the read is
   * right.)
   */
  lemma NegativeTier2Decodes(d: int, b: seq<u8>, p: nat, strict: bool)
    requires DIFF2_LO <= d <= -128
    requires p + 2 < |b| && b[p..p + 2] == Code(d)
    requires |b| - (p + 1) <= INT_MAX
    ensures ReadDelta(b, p, strict) == Read(-510 - d, p + 2)
    ensures ReadDelta(b, p, strict).diff == d <==> d == -255
  {
    var c := Code(d);
    assert b[p] == c[0] && b[p + 1] == c[1];
  }

  /**
   * Tier 3 without its marker: a delta of 400 is written as the two bytes
   * of 17, and the decoder reads the first of them as a plain delta of 17.
   */
  lemma Tier3WritesNoMarker()
    ensures Cost(400) == 3 && Code(400) == [17, 0]
    ensures ReadDelta(Code(400) + [0], 0, true) == Read(17, 1)
  {
  }

  /**
   * Tier 3 below zero: even with the marker in place, the decoder adds 383
   * to the stored `short` where the encoder had added 383 to the delta, so
   * the delta comes back as d + 766.
   */
  lemma NegativeTier3Decodes(d: int, b: seq<u8>)
    requires DIFF3_LO <= d < DIFF2_LO
    requires |b| > 3 && b[0] == ToByte(-128) && b[1..3] == Code(d)
    requires |b| - 1 <= INT_MAX
    ensures ReadDelta(b, 0, true) == Read(d + 766, 3)
  {
    var c := Code(d);
    assert b[1] == c[0] && b[2] == c[1];
    S16Le16(d + 383);
  }

  // The delta code as evidently intended: tier 2 below zero stores
  // |d| - 127, tier 3 writes its -128 marker, and the stored `short` is
  // offset by 383 above zero and by 382 below, so that its sign tells the
  // two sides apart. The intended tier-3 range is [-33150, 33150].

  const INTENDED_DIFF3_LO: int := -33150

  function IntendedCode(d: int): (c: seq<u8>)
    requires INTENDED_DIFF3_LO <= d <= DIFF3_HI
    ensures |c| == Cost(d)
  {
    match TierOf(d)
    case Tier1 => [ToByte(d)]
    case Tier2 =>
      if d > 0 then [127, ToByte(d - 127)] else [ToByte(-127), ToByte(-d - 127)]
    case Tier3 =>
      [ToByte(-128)] + (if d > 0 then Le16(d - (DIFF2_HI + 1)) else Le16(d - DIFF2_LO))
  }

  /** The second pass's reading with `left` kept in full and the tier-3 offsets matching `IntendedCode`. */
  function IntendedRead(b: seq<u8>, p: nat): (r: DeltaRead)
    requires p < |b|
  {
    match WideReadDelta(b, p, true)
    case Short => Short
    case Read(d, q) =>
      if Signed(b[p]) == -128 then
        var s := S16(b[p + 1], b[p + 2]);
        Read(if s >= 0 then s + (DIFF2_HI + 1) else s + DIFF2_LO, q)
      else Read(d, q)
  }

  /** Every delta of the intended tier range comes back unchanged. */
  lemma IntendedRoundTrip(d: int, b: seq<u8>, p: nat)
    requires INTENDED_DIFF3_LO <= d <= DIFF3_HI
    requires p + |IntendedCode(d)| < |b| && b[p..p + |IntendedCode(d)|] == IntendedCode(d)
    ensures IntendedRead(b, p) == Read(d, p + |IntendedCode(d)|)
  {
    var c := IntendedCode(d);
    assert b[p] == c[0];
    match TierOf(d)
    case Tier1 =>
    case Tier2 =>
      assert b[p + 1] == c[1];
    case Tier3 =>
      assert b[p + 1] == c[1] && b[p + 2] == c[2];
      if d > 0 {
        S16Le16(d - (DIFF2_HI + 1));
      } else {
        S16Le16(d - DIFF2_LO);
      }
  }
}
