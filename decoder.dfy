/**
 * The decoder `frdec`: a first pass walks the blob to count the strings
 * and size the output block, a second pass rebuilds each string as a
 * prefix of the previously rebuilt one followed by its literal suffix.
 *
 * The output block (a table of n + 1 pointers, then the strings) is
 * modelled by the regions the pointers delimit: region i holds the bytes
 * from `strv[i]` up to `strv[i + 1]`, and the string the caller sees is
 * the C string at the start of that region.
 */
module Decoder {
  import opened Bytes
  import opened FrencH
  import opened Delta

  /** A blob whose last byte is 0: every `strlen` that starts inside it stops inside it. */
  predicate Terminated(b: seq<u8>)
  {
    |b| > 0 && b[|b| - 1] == 0
  }

  /** `strlen(b + q)`: the number of non-zero bytes from `q` to the next 0. */
  function StrLen(b: seq<u8>, q: nat): (r: nat)
    requires Terminated(b) && q < |b|
    ensures q + r < |b| && b[q + r] == 0
    decreases |b| - q
  {
    if b[q] == 0 then 0 else 1 + StrLen(b, q + 1)
  }

  /** The bytes `strlen` counts are the contents of a C string. */
  lemma {:induction false} StrLenNoNul(b: seq<u8>, q: nat)
    requires Terminated(b) && q < |b|
    ensures NoNul(b[q..q + StrLen(b, q)])
    decreases |b| - q
  {
    if b[q] != 0 {
      StrLenNoNul(b, q + 1);
      assert b[q..q + StrLen(b, q)] == [b[q]] + b[q + 1..q + 1 + StrLen(b, q + 1)];
    }
  }

  /** A run of non-zero bytes followed by 0 measures as the run's length. */
  lemma {:induction false} StrLenOf(b: seq<u8>, q: nat, s: seq<u8>)
    requires Terminated(b) && NoNul(s) && q + |s| < |b|
    requires b[q..q + |s|] == s && b[q + |s|] == 0
    ensures StrLen(b, q) == |s|
    decreases |s|
  {
    if s != [] {
      assert b[q] == s[0];
      assert b[q + 1..q + 1 + |s[1..]|] == s[1..];
      StrLenOf(b, q + 1, s[1..]);
    }
  }

  /** The `strlen` loop. */
  method StrLenLoop(b: seq<u8>, q: nat) returns (r: nat)
    requires Terminated(b) && q < |b|
    ensures r == StrLen(b, q)
  {
    var k := q;
    while b[k] != 0
      invariant q <= k < |b|
      invariant StrLen(b, q) == (k - q) + StrLen(b, k)
      decreases |b| - k
    {
      k := k + 1;
    }
    r := k - q;
  }

  /** The C string at the start of a region: its bytes up to the first 0. */
  function CString(r: seq<u8>): (s: seq<u8>)
    ensures NoNul(s) && |s| <= |r| && s == r[..|s|]
    ensures |s| < |r| ==> r[|s|] == 0
  {
    if r == [] || r[0] == 0 then []
    else [r[0]] + CString(r[1..])
  }

  /** A string followed by its terminator reads back as the string. */
  lemma {:induction false} CStringOf(s: seq<u8>, tail: seq<u8>)
    requires NoNul(s)
    ensures CString(s + [0] + tail) == s
    decreases |s|
  {
    if s != [] {
      assert (s + [0] + tail)[1..] == s[1..] + [0] + tail;
      CStringOf(s[1..], tail);
    }
  }

  function CStrings(rs: seq<seq<u8>>): (v: seq<seq<u8>>)
    ensures |v| == |rs| && forall i :: 0 <= i < |rs| ==> v[i] == CString(rs[i])
  {
    seq(|rs|, i requires 0 <= i < |rs| => CString(rs[i]))
  }

  datatype Sizing = Sized(n: nat, total: int) | SizingFailed | SizingOverread

  /**
   * The first pass from position `p`, with running count `n` and size
   * `total`. As written (`strict` false) it asks a marker only for the
   * bytes of its operand, so the `strlen` after a delta that ends the blob
   * reads past it: `SizingOverread`. With `strict` it applies the second
   * pass's checks instead.
   */
  function Pass1(b: seq<u8>, p: nat, olen: int, n: nat, total: int, strict: bool): (s: Sizing)
    requires Terminated(b) && p <= |b|
    ensures s.Sized? ==> s.n >= n
    decreases |b| - p
  {
    if p == |b| then Sized(n, total)
    else
      match ReadDelta(b, p, strict)
      case Short => SizingFailed
      case Read(diff, q) =>
        if q == |b| then SizingOverread
        else
          var len := olen + diff;
          var sl := StrLen(b, q);
          Pass1(b, q + sl + 1, len, n + 1, total + len + sl + 1 + PTR_SIZE, strict)
  }

  datatype Rebuild = Rebuilt(regions: seq<seq<u8>>) | RebuildFailed | RebuildUndefined

  /**
   * The second pass from position `p` with the regions `rs` rebuilt so
   * far. Each step copies the first `olen + diff` bytes of the previous
   * region (`memcpy`) and the suffix with its terminator (`stpcpy`). A
   * negative length, or one that runs past the previous region into the
   * bytes being written, is a `memcpy` without defined behaviour.
   */
  function Pass2(b: seq<u8>, p: nat, olen: int, rs: seq<seq<u8>>): (r: Rebuild)
    requires Terminated(b) && p <= |b| && |rs| > 0
    ensures r.Rebuilt? ==> |r.regions| >= |rs|
    decreases |b| - p
  {
    if p == |b| then Rebuilt(rs)
    else
      match ReadDelta(b, p, true)
      case Short => RebuildFailed
      case Read(diff, q) =>
        var len := olen + diff;
        var prev := rs[|rs| - 1];
        if len < 0 || len > |prev| then RebuildUndefined
        else
          var sl := StrLen(b, q);
          Pass2(b, q + sl + 1, len, rs + [prev[..len] + b[q..q + sl + 1]])
  }

  /** The second pass only appends: the regions it started from stay as they were. */
  lemma {:induction false} Pass2Extends(b: seq<u8>, p: nat, olen: int, rs: seq<seq<u8>>)
    requires Terminated(b) && p <= |b| && |rs| > 0 && Pass2(b, p, olen, rs).Rebuilt?
    ensures Pass2(b, p, olen, rs).regions[..|rs|] == rs
    decreases |b| - p
  {
    if p < |b| {
      Pass2Proceeds(b, p, olen, rs);
      var d := ReadDelta(b, p, true);
      var len := olen + d.diff;
      var e := d.next + StrLen(b, d.next) + 1;
      var rs' := rs + [rs[|rs| - 1][..len] + b[d.next..e]];
      Pass2Step(b, p, olen, rs, d.diff, d.next, e, len, rs');
      Pass2Extends(b, e, len, rs');
      var out := Pass2(b, p, olen, rs).regions;
      assert out[..|rs|] == out[..|rs'|][..|rs|];
    }
  }

  datatype Outcome = Decoded(n: nat, v: seq<seq<u8>>) | Counted(n: nat) | Failed(err: nat) | Undefined

  /** The first region: the blob's first string and its terminator. */
  function FirstRegion(b: seq<u8>): seq<u8>
    requires Terminated(b)
  {
    b[..StrLen(b, 0) + 1]
  }

  /** The size the first pass starts from: the first string, its terminator, and two pointers. */
  function FirstTotal(b: seq<u8>): int
    requires Terminated(b)
  {
    StrLen(b, 0) + 1 + 2 * PTR_SIZE
  }

  /**
   * `frdec(b, |b|, vp)`: `wantList` says whether `vp` is non-NULL. A blob
   * whose last byte is not 0 is refused; otherwise the first pass runs,
   * and only when a list is wanted does the second.
   */
  function Decoding(b: seq<u8>, wantList: bool): Outcome
    requires |b| > 0
  {
    if b[|b| - 1] != 0 then Failed(FRENC_ERR_DATA)
    else
      var p0 := StrLen(b, 0) + 1;
      match Pass1(b, p0, 0, 1, FirstTotal(b), false)
      case SizingFailed => Failed(FRENC_ERR_DATA)
      case SizingOverread => Undefined
      case Sized(n, _) =>
        if !wantList then Counted(n)
        else
          match Pass2(b, p0, 0, [FirstRegion(b)])
          case RebuildFailed => Failed(FRENC_ERR_DATA)
          case RebuildUndefined => Undefined
          case Rebuilt(rs) => Decoded(n, CStrings(rs))
  }

  /** The size of the string table: the total length of the regions. */
  function TableSize(rs: seq<seq<u8>>): nat
  {
    if rs == [] then 0 else TableSize(rs[..|rs| - 1]) + |rs[|rs| - 1]|
  }

  /**
   * Wherever the second pass gets through, the first pass gets through
   * the same deltas too, counting one string and `|region| + PTR_SIZE`
   * bytes for each region the second pass adds.
   */
  lemma {:induction false} PassesAgree(b: seq<u8>, p: nat, olen: int, rs: seq<seq<u8>>, n: nat, total: int, out: seq<seq<u8>>)
    requires Terminated(b) && p <= |b| && |rs| > 0
    requires Pass2(b, p, olen, rs) == Rebuilt(out)
    ensures Pass1(b, p, olen, n, total, false)
      == Sized(n + |out| - |rs|, total + TableSize(out) - TableSize(rs) + PTR_SIZE * (|out| - |rs|))
    decreases |b| - p
  {
    if p < |b| {
      Pass2Proceeds(b, p, olen, rs);
      var d := ReadDelta(b, p, true);
      StrictAcceptsLess(b, p);
      var diff, q := d.diff, d.next;
      var sl := StrLen(b, q);
      var len, e := olen + diff, q + sl + 1;
      var r := rs[|rs| - 1][..len] + b[q..e];
      var total' := total + len + sl + 1 + PTR_SIZE;
      Pass1Step(b, p, olen, n, total, false, diff, q, e, len, total');
      Pass2Step(b, p, olen, rs, diff, q, e, len, rs + [r]);
      TableGrows(rs, r);
      PassesAgree(b, e, len, rs + [r], n + 1, total', out);
    }
  }

  /** A region added to the table adds its length to the table's size. */
  lemma TableGrows(rs: seq<seq<u8>>, r: seq<u8>)
    ensures TableSize(rs + [r]) == TableSize(rs) + |r|
  {
    assert (rs + [r])[..|rs|] == rs;
  }

  /** The first rebuilt region is the first string of the blob with its terminator. */
  lemma FirstRebuilt(b: seq<u8>)
    requires Terminated(b) && Pass2(b, StrLen(b, 0) + 1, 0, [FirstRegion(b)]).Rebuilt?
    ensures var rs := Pass2(b, StrLen(b, 0) + 1, 0, [FirstRegion(b)]).regions;
      |rs| >= 1 && CString(rs[0]) == b[..StrLen(b, 0)]
  {
    var rs := Pass2(b, StrLen(b, 0) + 1, 0, [FirstRegion(b)]).regions;
    Pass2Extends(b, StrLen(b, 0) + 1, 0, [FirstRegion(b)]);
    assert rs[0] == rs[..1][0];
    FirstRegionRead(b);
  }

  /** The first region, read as a C string, is the blob's first string. */
  lemma FirstRegionRead(b: seq<u8>)
    requires Terminated(b)
    ensures CString(FirstRegion(b)) == b[..StrLen(b, 0)]
  {
    var l0 := StrLen(b, 0);
    assert FirstRegion(b) == b[..l0] + [0] + [];
    StrLenNoNul(b, 0);
    assert b[0..0 + l0] == b[..l0];
    CStringOf(b[..l0], []);
  }

  /**
   * The size of the block the first pass asks for is exactly the pointer
   * table with its NULL sentinel plus the regions the second pass writes.
   */
  lemma TotalMatchesBlock(b: seq<u8>)
    requires Terminated(b) && Pass2(b, StrLen(b, 0) + 1, 0, [FirstRegion(b)]).Rebuilt?
    ensures var rs := Pass2(b, StrLen(b, 0) + 1, 0, [FirstRegion(b)]).regions;
      Pass1(b, StrLen(b, 0) + 1, 0, 1, FirstTotal(b), false)
        == Sized(|rs|, PTR_SIZE * (|rs| + 1) + TableSize(rs))
  {
    var p0 := StrLen(b, 0) + 1;
    assert TableSize([FirstRegion(b)]) == p0;
    PassesAgree(b, p0, 0, [FirstRegion(b)], 1, FirstTotal(b), Pass2(b, p0, 0, [FirstRegion(b)]).regions);
  }

  /**
   * A list decoded by `frdec`: its count is the number of strings, the
   * first is the blob's first string, and the same call without a list
   * gives the same count.
   */
  lemma DecodedShape(b: seq<u8>)
    requires Terminated(b) && Decoding(b, true).Decoded?
    ensures Decoding(b, true).n == |Decoding(b, true).v| >= 1
    ensures Decoding(b, true).v[0] == b[..StrLen(b, 0)]
    ensures Decoding(b, false) == Counted(Decoding(b, true).n)
  {
    var p0 := StrLen(b, 0) + 1;
    var rb := Pass2(b, p0, 0, [FirstRegion(b)]);
    assert rb.Rebuilt?;
    TotalMatchesBlock(b);
    FirstRebuilt(b);
    assert Decoding(b, true) == Decoded(|rb.regions|, CStrings(rb.regions));
  }

  /** One step of the first pass over a delta that leaves bytes after it. */
  lemma Pass1Step(b: seq<u8>, p: nat, olen: int, n: nat, total: int, strict: bool, diff: int, q: nat, e: nat, len: int, total': int)
    requires Terminated(b) && p < |b| && ReadDelta(b, p, strict) == Read(diff, q)
    requires q < |b| && e == q + StrLen(b, q) + 1 && len == olen + diff
    requires total' == total + len + StrLen(b, q) + 1 + PTR_SIZE
    ensures e <= |b| && Pass1(b, p, olen, n, total, strict) == Pass1(b, e, len, n + 1, total', strict)
  {
  }

  /** The second pass fails at a delta whose code is cut off. */
  lemma Pass2Short(b: seq<u8>, p: nat, olen: int, rs: seq<seq<u8>>)
    requires Terminated(b) && p < |b| && |rs| > 0 && ReadDelta(b, p, true).Short?
    ensures Pass2(b, p, olen, rs) == RebuildFailed
  {
  }

  /** A claimed prefix that is negative or longer than the last region makes the `memcpy` undefined. */
  lemma Pass2Overrun(b: seq<u8>, p: nat, olen: int, rs: seq<seq<u8>>, diff: int, q: nat)
    requires Terminated(b) && p < |b| && |rs| > 0 && ReadDelta(b, p, true) == Read(diff, q)
    requires olen + diff < 0 || olen + diff > |rs[|rs| - 1]|
    ensures Pass2(b, p, olen, rs) == RebuildUndefined
  {
  }

  /** Where the second pass gets through, it reads a delta whose claimed prefix fits the last region. */
  lemma Pass2Proceeds(b: seq<u8>, p: nat, olen: int, rs: seq<seq<u8>>)
    requires Terminated(b) && p < |b| && |rs| > 0 && Pass2(b, p, olen, rs).Rebuilt?
    ensures ReadDelta(b, p, true).Read?
    ensures 0 <= olen + ReadDelta(b, p, true).diff <= |rs[|rs| - 1]|
  {
  }

  /**
   * One step of the second pass over a delta whose claimed prefix fits the
   * last region: it goes on from `e`, past the string after the delta.
   */
  lemma Pass2Step(b: seq<u8>, p: nat, olen: int, rs: seq<seq<u8>>, diff: int, q: nat, e: nat, len: int, rs': seq<seq<u8>>)
    requires Terminated(b) && p < |b| && |rs| > 0 && ReadDelta(b, p, true) == Read(diff, q)
    requires q < |b| && e == q + StrLen(b, q) + 1 && len == olen + diff && 0 <= len <= |rs[|rs| - 1]|
    requires rs' == rs + [rs[|rs| - 1][..len] + b[q..e]]
    ensures e <= |b| && Pass2(b, p, olen, rs) == Pass2(b, e, len, rs')
  {
  }

  /**
   * The first loop of `frdec`: from the end of the first string, counts
   * the strings and accumulates `total`; stops at a truncated marker, or
   * where `strlen` would start at the end of the blob.
   */
  method SizingPass(enc: seq<u8>, len0: nat) returns (s: Sizing)
    requires Terminated(enc) && len0 == StrLen(enc, 0)
    ensures s == Pass1(enc, len0 + 1, 0, 1, FirstTotal(enc), false)
  {
    var n := 1;
    var p := len0 + 1;
    var total: int := len0 + 1 + 2 * PTR_SIZE;
    var olen := 0;
    ghost var target := Pass1(enc, p, olen, n, total, false);
    while p < |enc|
      invariant p <= |enc|
      invariant Pass1(enc, p, olen, n, total, false) == target
      decreases |enc| - p
    {
      var done;
      done, s, p, olen, n, total := SizeNext(enc, p, olen, n, total);
      if done {
        return;
      }
    }
    return Sized(n, total);
  }

  /**
   * One iteration of the first loop of `frdec`: either the pass stops
   * here with `s`, or it goes on from `p'` with one more string counted.
   */
  method SizeNext(enc: seq<u8>, p: nat, olen: int, n: nat, total: int)
    returns (done: bool, s: Sizing, p': nat, olen': int, n': nat, total': int)
    requires Terminated(enc) && p < |enc|
    ensures done ==> s == Pass1(enc, p, olen, n, total, false)
    ensures !done ==> p < p' <= |enc| && Pass1(enc, p', olen', n', total', false) == Pass1(enc, p, olen, n, total, false)
  {
    var rd := ReadDelta(enc, p, false);
    if rd.Short? {
      return true, SizingFailed, p, olen, n, total;
    }
    var q := rd.next;
    if q == |enc| {
      // strlen(enc) at the end of the blob
      return true, SizingOverread, p, olen, n, total;
    }
    var sl := StrLenLoop(enc, q);
    // prefix
    var len := olen + rd.diff;
    // suffix
    var e := q + sl + 1;
    total' := total + len + sl + 1 + PTR_SIZE;
    Pass1Step(enc, p, olen, n, total, false, rd.diff, q, e, len, total');
    return false, Sized(n + 1, total'), e, len, n + 1, total';
  }

  /**
   * The second loop of `frdec`: from the first region, rebuilds each
   * region from a prefix of the previous one and the next suffix.
   */
  method RebuildPass(enc: seq<u8>, len0: nat) returns (r: Rebuild)
    requires Terminated(enc) && len0 == StrLen(enc, 0)
    ensures r == Pass2(enc, len0 + 1, 0, [FirstRegion(enc)])
  {
    var rs := [enc[..len0 + 1]];
    assert rs == [FirstRegion(enc)];
    var p := len0 + 1;
    var olen := 0;
    while p < |enc|
      invariant p <= |enc| && |rs| > 0
      invariant Pass2(enc, p, olen, rs) == Pass2(enc, len0 + 1, 0, [FirstRegion(enc)])
      decreases |enc| - p
    {
      var done;
      done, r, p, olen, rs := RebuildNext(enc, p, olen, rs);
      if done {
        return;
      }
    }
    return Rebuilt(rs);
  }

  /**
   * One iteration of the second loop of `frdec`: either the pass stops
   * here with `r`, or it goes on from `p'` with the region added.
   */
  method RebuildNext(enc: seq<u8>, p: nat, olen: int, rs: seq<seq<u8>>)
    returns (done: bool, r: Rebuild, p': nat, olen': int, rs': seq<seq<u8>>)
    requires Terminated(enc) && p < |enc| && |rs| > 0
    ensures done ==> r == Pass2(enc, p, olen, rs)
    ensures !done ==> p < p' <= |enc| && |rs'| > 0 && Pass2(enc, p', olen', rs') == Pass2(enc, p, olen, rs)
  {
    match ReadDelta(enc, p, true)
    case Short =>
      Pass2Short(enc, p, olen, rs);
      return true, RebuildFailed, p, olen, rs;
    case Read(diff, q) =>
      // prefix
      var len := olen + diff;
      var prev := rs[|rs| - 1];
      if len < 0 || len > |prev| {
        // memcpy of a wrapped length, or of one that overlaps its destination
        Pass2Overrun(enc, p, olen, rs, diff, q);
        return true, RebuildUndefined, p, olen, rs;
      }
      // suffix
      var sl := StrLenLoop(enc, q);
      var e := q + sl + 1;
      Pass2Step(enc, p, olen, rs, diff, q, e, len, rs + [prev[..len] + enc[q..e]]);
      return false, Rebuilt(rs), e, len, rs + [prev[..len] + enc[q..e]];
  }

  /**
   * `frdec` as written: the check of the last byte, the first pass, and
   * the second pass only when a list is wanted.
   */
  method Frdec(enc: seq<u8>, wantList: bool) returns (r: Outcome)
    requires |enc| > 0
    ensures enc[|enc| - 1] != 0 ==> r == Failed(FRENC_ERR_DATA)
    ensures r == Decoding(enc, wantList)
  {
    if enc[|enc| - 1] != 0 {
      return Failed(FRENC_ERR_DATA);
    }
    var len0 := StrLenLoop(enc, 0);
    var sizing := SizingPass(enc, len0);
    match sizing
    case SizingFailed =>
      return Failed(FRENC_ERR_DATA);
    case SizingOverread =>
      return Undefined;
    case Sized(n, _) =>
      if !wantList {
        return Counted(n);
      }
      var rebuild := RebuildPass(enc, len0);
      match rebuild
      case RebuildFailed =>
        return Failed(FRENC_ERR_DATA);
      case RebuildUndefined =>
        return Undefined;
      case Rebuilt(rs) =>
        return Decoded(n, CStrings(rs));
  }

  /**
   * The blob 'a', 0, 0: the first pass reads the final 0 as a delta and
   * then calls `strlen` on the byte after the blob.
   */
  lemma Pass1Overreads()
    ensures Decoding([97, 0, 0], true) == Undefined
    ensures Decoding([97, 0, 0], false) == Undefined
  {
    var b: seq<u8> := [97, 0, 0];
    assert StrLen(b, 0) == 1;
    assert ReadDelta(b, 2, false) == Read(0, 3);
  }

  /**
   * The 32-bit `left`: after the empty first string, the marker 127 with
   * operand 73 codes the delta 200, but 2^31 + 3 bytes follow the marker,
   * so `left` wraps to a negative number and both passes refuse the blob
   * that a full-width `left` reads on.
   */
  lemma LongTailRefused(x: seq<u8>, wantList: bool)
    requires |x| == 0x8000_0002 && x[|x| - 1] == 0
    ensures WideReadDelta([0, 127, 73] + x, 1, true) == Read(200, 3)
    ensures Decoding([0, 127, 73] + x, wantList) == Failed(FRENC_ERR_DATA)
  {
    var b: seq<u8> := [0, 127, 73] + x;
    assert b[0] == 0 && b[1] == 127 && b[2] == 73 && b[|b| - 1] == 0;
    assert StrLen(b, 0) == 0;
    assert Int32(|b| - 2) < 0;
    assert ReadDelta(b, 1, false) == Short;
  }

  /**
   * No shrink check: the delta -2 after the one-byte string "a" is
   * counted by the first pass, and the second pass's `memcpy` gets a
   * negative length.
   */
  lemma NegativePrefixUndefined()
    ensures Decoding([97, 0, 254, 98, 0], false) == Counted(2)
    ensures Decoding([97, 0, 254, 98, 0], true) == Undefined
  {
    var b: seq<u8> := [97, 0, 254, 98, 0];
    assert StrLen(b, 0) == 1;
    assert ReadDelta(b, 2, false) == Read(-2, 3);
    assert ReadDelta(b, 2, true) == Read(-2, 3);
    assert StrLen(b, 3) == 1;
  }

  /**
   * The first pass with the second pass's checks (a marker needs one more
   * byte, a plain delta may not end the blob) never reads past the blob.
   */
  lemma {:induction false} StrictPass1Safe(b: seq<u8>, p: nat, olen: int, n: nat, total: int)
    requires Terminated(b) && p <= |b|
    ensures Pass1(b, p, olen, n, total, true) != SizingOverread
    decreases |b| - p
  {
    if p < |b| {
      match ReadDelta(b, p, true)
      case Short =>
      case Read(diff, q) =>
        StrictPass1Safe(b, q + StrLen(b, q) + 1, olen + diff, n + 1, total + olen + diff + StrLen(b, q) + 1 + PTR_SIZE);
    }
  }

  /** On 'a', 0, 0 the checked first pass refuses the trailing delta instead. */
  lemma StrictPass1Refuses()
    ensures Pass1([97, 0, 0], 2, 0, 1, 2 + 2 * PTR_SIZE, true) == SizingFailed
  {
  }
}
