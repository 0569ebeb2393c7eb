/**
 * The encoder `frenc`: a first pass sizes the output and caches every
 * adjacent common prefix length in `pplen[]`, a second pass writes the
 * first string verbatim and then, for each further string, the tiered
 * delta of its claimed prefix length and the suffix after that prefix.
 */
module Encoder {
  import opened Bytes
  import opened FrencH
  import opened Delta
  import opened LcpEngine

  /** A list `frenc` accepts: at least one string, none holding a zero byte. */
  predicate ValidList(v: seq<seq<u8>>)
  {
    |v| > 0 && forall i :: 0 <= i < |v| ==> NoNul(v[i])
  }

  /**
   * What both passes decide for one string after the first: the common
   * prefix length with its predecessor, the prefix length it claims (the
   * same unless the delta was clamped), and the delta that is coded.
   */
  datatype Entry = Entry(lcp: nat, len: nat, diff: int)

  /**
   * One step of `encpass` given the previous claimed prefix length `olen`
   * and the common prefix length `l`: a range error when `l` exceeds
   * INT_MAX or the delta is below DIFF3_LO; a delta above DIFF3_HI is
   * clamped, so the claimed prefix is shorter than the common one.
   */
  function NextEntry(olen: nat, l: nat): (r: Option<Entry>)
    ensures r.None? <==> l > INT_MAX || l - olen < DIFF3_LO
    ensures r.Some? ==> r.value.lcp == l && r.value.len == olen + r.value.diff
    ensures r.Some? ==> DIFF3_LO <= r.value.diff <= DIFF3_HI && r.value.len <= l
    ensures r.Some? && l - olen <= DIFF3_HI ==> r.value.len == l
    ensures r.Some? && l - olen > DIFF3_HI ==> r.value.len == olen + DIFF3_HI
  {
    if l > INT_MAX then None
    else
      var diff := l - olen;
      if DIFF1_LO <= diff <= DIFF1_HI || DIFF2_LO <= diff <= DIFF2_HI then Some(Entry(l, l, diff))
      else if diff > DIFF3_HI then Some(Entry(l, olen + DIFF3_HI, DIFF3_HI))
      else if diff < DIFF3_LO then None
      else Some(Entry(l, l, diff))
  }

  /** The claimed prefix length before entry `j` (`olen`): 0 before the first. */
  function PrevLen(es: seq<Entry>, j: nat): nat
    requires j <= |es|
  {
    if j == 0 then 0 else es[j - 1].len
  }

  /** Entry `j` of `es` is the decision the first pass takes for string j + 1. */
  predicate Decided(v: seq<seq<u8>>, es: seq<Entry>, j: nat)
    requires j < |es| && j + 1 < |v|
  {
    NextEntry(PrevLen(es, j), CommonPrefixLen(v[j], v[j + 1])) == Some(es[j])
  }

  /**
   * The decisions for strings 1 .. k-1, computed as the first pass walks
   * the list, or None once a range error stops it.
   */
  function Plan(v: seq<seq<u8>>, k: nat): (p: Option<seq<Entry>>)
    requires 1 <= k <= |v|
    ensures p.Some? ==> |p.value| == k - 1
    ensures p.Some? ==> forall j :: 0 <= j < k - 1 ==> Decided(v, p.value, j)
  {
    if k == 1 then Some([])
    else
      match Plan(v, k - 1)
      case None => None
      case Some(es) =>
        match NextEntry(PrevLen(es, k - 2), CommonPrefixLen(v[k - 2], v[k - 1]))
        case None => None
        case Some(e) =>
          assert forall j :: 0 <= j < k - 2 ==> Decided(v, es, j) ==> Decided(v, es + [e], j);
          assert Decided(v, es + [e], k - 2);
          Some(es + [e])
  }

  /** A plan that gets through `k` strings got through every shorter prefix, with the same decisions. */
  lemma {:induction false} PlanPrefix(v: seq<seq<u8>>, i: nat, k: nat)
    requires 1 <= i <= k <= |v|
    requires Plan(v, k).Some?
    ensures Plan(v, i).Some? && Plan(v, i).value == Plan(v, k).value[..i - 1]
    decreases k - i
  {
    if i < k {
      PlanPrefix(v, i, k - 1);
      var es := Plan(v, k - 1).value;
      assert Plan(v, k).value == es + [Plan(v, k).value[k - 2]];
      assert (es + [Plan(v, k).value[k - 2]])[..i - 1] == es[..i - 1];
    }
  }

  /**
   * The decisions for strings 1 .. k-1 fit their strings: each claimed
   * prefix is no longer than the string, and each delta is codable.
   */
  predicate Fits(v: seq<seq<u8>>, es: seq<Entry>, k: nat)
    requires 1 <= k <= |v| && k - 1 <= |es|
  {
    forall j :: 0 <= j < k - 1 ==> FitsAt(v, es, j)
  }

  predicate FitsAt(v: seq<seq<u8>>, es: seq<Entry>, j: nat)
    requires j < |es| && j + 1 < |v|
  {
    es[j].len <= |v[j + 1]| && DIFF3_LO <= es[j].diff <= DIFF3_HI
  }

  /** The plan's decisions fit, and each claims a prefix the two neighbours really share. */
  lemma PlanFits(v: seq<seq<u8>>, k: nat)
    requires 1 <= k <= |v| && Plan(v, k).Some?
    ensures Fits(v, Plan(v, k).value, k)
    ensures forall j :: 0 <= j < k - 1 ==> Replays(Plan(v, k).value, j)
  {
    var es := Plan(v, k).value;
    forall j | 0 <= j < k - 1
      ensures FitsAt(v, es, j) && Replays(es, j)
    {
      assert Decided(v, es, j);
    }
  }

  /**
   * Entry `j` is what the first pass decides from the previous claimed
   * length and its own common prefix length: what the second pass,
   * which sees only the cached lengths, decides again.
   */
  predicate Replays(es: seq<Entry>, j: nat)
    requires j < |es|
  {
    NextEntry(PrevLen(es, j), es[j].lcp) == Some(es[j])
  }

  /** The size the first pass returns after `k` strings. */
  function Total(v: seq<seq<u8>>, es: seq<Entry>, k: nat): nat
    requires 1 <= k <= |v| && k - 1 <= |es| && Fits(v, es, k)
  {
    if k == 1 then |v[0]| + 1
    else
      assert FitsAt(v, es, k - 2);
      Total(v, es, k - 1) + Cost(es[k - 2].diff) + (|v[k - 1]| - es[k - 2].len) + 1
  }

  /** A decision the first pass refuses ends the plan. */
  lemma PlanStops(v: seq<seq<u8>>, i: nat, es: seq<Entry>)
    requires 1 <= i < |v| && Plan(v, i) == Some(es)
    requires NextEntry(PrevLen(es, i - 1), CommonPrefixLen(v[i - 1], v[i])).None?
    ensures Plan(v, i + 1).None?
    ensures Plan(v, |v|).None?
  {
    PlanNoneStays(v, i + 1, |v|);
  }

  /** Once the plan has stopped, it stays stopped. */
  lemma {:induction false} PlanNoneStays(v: seq<seq<u8>>, i: nat, k: nat)
    requires 1 <= i <= k <= |v| && Plan(v, i).None?
    ensures Plan(v, k).None?
    decreases k - i
  {
    if i < k {
      PlanNoneStays(v, i, k - 1);
    }
  }

  /** The bytes the second pass writes for string `s` with decision `e`. */
  function Piece(s: seq<u8>, e: Entry): seq<u8>
    requires e.len <= |s| && DIFF3_LO <= e.diff <= DIFF3_HI
  {
    Code(e.diff) + s[e.len..] + [0]
  }

  /** The bytes the second pass has written after `k` strings. */
  function Blob(v: seq<seq<u8>>, es: seq<Entry>, k: nat): seq<u8>
    requires 1 <= k <= |v| && k - 1 <= |es| && Fits(v, es, k)
  {
    if k == 1 then v[0] + [0]
    else
      assert FitsAt(v, es, k - 2);
      Blob(v, es, k - 1) + Piece(v[k - 1], es[k - 2])
  }

  /** How many of the first k - 1 decisions code their delta in tier 3. */
  function Tier3Count(es: seq<Entry>, k: nat): nat
    requires 1 <= k && k - 1 <= |es|
  {
    if k == 1 then 0
    else Tier3Count(es, k - 1) + (if TierOf(es[k - 2].diff) == Tier3 then 1 else 0)
  }

  /**
   * The two passes' sizes agree except for tier 3: each tier-3 entry is
   * counted as three bytes but written as two.
   */
  lemma {:induction false} BlobSize(v: seq<seq<u8>>, es: seq<Entry>, k: nat)
    requires 1 <= k <= |v| && k - 1 <= |es| && Fits(v, es, k)
    ensures |Blob(v, es, k)| + Tier3Count(es, k) == Total(v, es, k)
    ensures |Blob(v, es, k)| <= Total(v, es, k)
  {
    if k > 1 {
      assert FitsAt(v, es, k - 2);
      BlobSize(v, es, k - 1);
    }
  }

  /** The bytes written after `i` strings are a prefix of those written after `k >= i`. */
  lemma {:induction false} BlobPrefix(v: seq<seq<u8>>, es: seq<Entry>, i: nat, k: nat)
    requires 1 <= i <= k <= |v| && k - 1 <= |es| && Fits(v, es, k)
    ensures |Blob(v, es, i)| <= |Blob(v, es, k)|
    ensures Blob(v, es, k)[..|Blob(v, es, i)|] == Blob(v, es, i)
    decreases k - i
  {
    if i < k {
      assert FitsAt(v, es, k - 2) && Fits(v, es, k - 1);
      BlobPrefix(v, es, i, k - 1);
      TakeAppend(Blob(v, es, k - 1), Piece(v[k - 1], es[k - 2]), |Blob(v, es, i)|);
    }
  }

  /** A prefix of `a + b` no longer than `a` is a prefix of `a`. */
  lemma TakeAppend(a: seq<u8>, b: seq<u8>, n: nat)
    requires n <= |a|
    ensures (a + b)[..n] == a[..n]
  {
  }

  /** Total and Blob after `k` strings depend only on the first k - 1 decisions. */
  lemma {:induction false} PrefixAgree(v: seq<seq<u8>>, es: seq<Entry>, es2: seq<Entry>, k: nat)
    requires 1 <= k <= |v| && k - 1 <= |es| && k - 1 <= |es2| && es[..k - 1] == es2[..k - 1]
    requires Fits(v, es, k)
    ensures Fits(v, es2, k)
    ensures Total(v, es, k) == Total(v, es2, k) && Blob(v, es, k) == Blob(v, es2, k)
  {
    forall j | 0 <= j < k - 1
      ensures FitsAt(v, es2, j)
    {
      assert es[..k - 1][j] == es2[..k - 1][j];
      assert FitsAt(v, es, j);
    }
    if k > 1 {
      assert es[..k - 1][k - 2] == es2[..k - 1][k - 2];
      assert es[..k - 2] == es[..k - 1][..k - 2];
      assert es2[..k - 2] == es2[..k - 1][..k - 2];
      PrefixAgree(v, es, es2, k - 1);
    }
  }

  /** A decision the first pass accepts extends the plan, its fit and its size by one string. */
  lemma PlanGrows(v: seq<seq<u8>>, i: nat, es: seq<Entry>, e: Entry)
    requires 1 <= i < |v| && Plan(v, i) == Some(es) && Fits(v, es, i)
    requires NextEntry(PrevLen(es, i - 1), CommonPrefixLen(v[i - 1], v[i])) == Some(e)
    ensures Plan(v, i + 1) == Some(es + [e]) && Fits(v, es + [e], i + 1)
    ensures Total(v, es + [e], i + 1) == Total(v, es, i) + Cost(e.diff) + (|v[i]| - e.len) + 1
  {
    PlanFits(v, i + 1);
    assert (es + [e])[..i - 1] == es[..i - 1];
    PrefixAgree(v, es, es + [e], i);
  }

  /** The size `frenc` returns for a list, or None on a range error. */
  function EncodedSize(v: seq<seq<u8>>): Option<nat>
    requires ValidList(v)
  {
    match Plan(v, |v|)
    case None => None
    case Some(es) =>
      PlanFits(v, |v|);
      Some(Total(v, es, |v|))
  }

  /** The meaningful bytes of the buffer `frenc` returns, or None on a range error. */
  function Encoding(v: seq<seq<u8>>): (r: Option<seq<u8>>)
    requires ValidList(v)
    ensures r.Some? <==> EncodedSize(v).Some?
    ensures r.Some? ==> |r.value| <= EncodedSize(v).value
  {
    match Plan(v, |v|)
    case None => None
    case Some(es) =>
      PlanFits(v, |v|);
      BlobSize(v, es, |v|);
      Some(Blob(v, es, |v|))
  }

  /**
   * The blob starts with the first string and its terminator; a list of
   * one string encodes to exactly that. The size is positive, and with no
   * tier-3 delta it is the number of bytes written.
   */
  lemma EncodingShape(v: seq<seq<u8>>)
    requires ValidList(v) && Encoding(v).Some?
    ensures EncodedSize(v).Some? && EncodedSize(v).value > 0
    ensures |v[0]| + 1 <= |Encoding(v).value| <= EncodedSize(v).value
    ensures Encoding(v).value[..|v[0]| + 1] == v[0] + [0]
    ensures |v| == 1 ==> Encoding(v) == Some(v[0] + [0])
    ensures (forall e <- Plan(v, |v|).value :: TierOf(e.diff) != Tier3) ==>
      |Encoding(v).value| == EncodedSize(v).value
  {
    var es := Plan(v, |v|).value;
    PlanFits(v, |v|);
    BlobPrefix(v, es, 1, |v|);
    BlobSize(v, es, |v|);
    if forall e <- es :: TierOf(e.diff) != Tier3 {
      NoTier3(es, |v|);
    }
  }

  lemma {:induction false} NoTier3(es: seq<Entry>, k: nat)
    requires 1 <= k && k - 1 <= |es|
    requires forall e <- es :: TierOf(e.diff) != Tier3
    ensures Tier3Count(es, k) == 0
  {
    if k > 1 {
      assert es[k - 2] in es;
      NoTier3(es, k - 1);
    }
  }

  /**
   * `stpcpy(dst + at, s)` for a NUL-terminated buffer `s`: copies its
   * bytes up to and including the terminator and gives the position of
   * the terminator written.
   */
  method StpCpy(dst: array<u8>, at: nat, s: seq<u8>) returns (end: nat)
    requires |s| > 0 && s[|s| - 1] == 0 && NoNul(s[..|s| - 1])
    requires at + |s| <= dst.Length
    modifies dst
    ensures end == at + |s| - 1
    ensures dst[..] == old(dst[..])[..at] + s + old(dst[..])[at + |s|..]
  {
    ghost var d0 := dst[..];
    var k := 0;
    while s[k] != 0
      invariant 0 <= k < |s|
      invariant forall j :: 0 <= j < dst.Length ==> dst[j] == if at <= j < at + k then s[j - at] else d0[j]
      decreases |s| - k
    {
      dst[at + k] := s[k];
      k := k + 1;
    }
    dst[at + k] := 0;
    end := at + k;
  }

  /**
   * The first pass of `encpass`: sizes the output, fills `pplen[1..]` with
   * the common prefix lengths, and gives FRENC_ERR_RANGE on a prefix above
   * INT_MAX or a delta below DIFF3_LO.
   */
  method EncPass1(v: seq<seq<u8>>, pplen: array<int>, sse2: bool) returns (total: nat)
    requires ValidList(v) && pplen.Length == |v|
    modifies pplen
    ensures Plan(v, |v|).None? ==> total == FRENC_ERR_RANGE
    ensures Plan(v, |v|).Some? ==> Fits(v, Plan(v, |v|).value, |v|)
    ensures Plan(v, |v|).Some? ==> total == Total(v, Plan(v, |v|).value, |v|)
    ensures Plan(v, |v|).Some? ==>
      forall j :: 1 <= j < |v| ==> pplen[j] == Plan(v, |v|).value[j - 1].lcp
  {
    var len1 := |v[0]|;
    total := len1 + 1;
    var olen := 0;
    var i := 1;
    ghost var es: seq<Entry> := [];
    while i < |v|
      invariant 1 <= i <= |v| && |es| == i - 1
      invariant Plan(v, i) == Some(es) && Fits(v, es, i)
      invariant olen == PrevLen(es, i - 1)
      invariant len1 == |v[i - 1]|
      invariant total == Total(v, es, i)
      invariant forall j :: 1 <= j < i ==> pplen[j] == es[j - 1].lcp
    {
      var len2 := |v[i]|;
      var ok, cost, len, e := CountNext(v, pplen, i, olen, len1, len2, sse2, es);
      if !ok {
        return FRENC_ERR_RANGE;
      }
      total := total + cost;
      total := total + len2 - len + 1;
      len1 := len2;
      olen := len;
      es := es + [e];
      i := i + 1;
    }
  }

  /**
   * The first pass's loop turn for string `i`: `lcp` with string i - 1
   * (each given with its terminator and length), cached in `pplen[i]`
   * unless it exceeds INT_MAX, then the tier block. `ok` is false on a
   * range error, and then the plan stops.
   */
  method CountNext(v: seq<seq<u8>>, pplen: array<int>, i: nat, olen: nat, len1: nat, len2: nat, sse2: bool,
                   ghost es: seq<Entry>) returns (ok: bool, cost: nat, len: nat, ghost e: Entry)
    requires ValidList(v) && 1 <= i < |v| && len1 == |v[i - 1]| && len2 == |v[i]| && pplen.Length == |v|
    requires Plan(v, i) == Some(es) && Fits(v, es, i) && olen == PrevLen(es, i - 1)
    modifies pplen
    ensures !ok ==> Plan(v, |v|).None?
    ensures ok ==> Plan(v, i + 1) == Some(es + [e]) && Fits(v, es + [e], i + 1)
    ensures ok ==> len == e.len && len <= len2 && cost == Cost(e.diff) && pplen[i] == e.lcp
    ensures ok ==> Total(v, es + [e], i + 1) == Total(v, es, i) + cost + (len2 - len) + 1
    ensures forall j :: 0 <= j < pplen.Length && j != i ==> pplen[j] == old(pplen[j])
  {
    assert (v[i - 1] + [0])[..len1] == v[i - 1];
    assert (v[i] + [0])[..len2] == v[i];
    len := Lcp(v[i - 1] + [0], len1, v[i] + [0], len2, sse2);
    if len > INT_MAX {
      PlanStops(v, i, es);
      return false, 0, len, Entry(0, 0, 0);
    }
    pplen[i] := len;
    var diff;
    ok, cost, len, diff := CountDelta(olen, len);
    if !ok {
      PlanStops(v, i, es);
      return ok, cost, len, Entry(0, 0, 0);
    }
    e := Entry(pplen[i], len, diff);
    PlanGrows(v, i, es, e);
  }

  /**
   * The tier block of the first pass's loop body: the bytes counted for the
   * delta from `olen` to the common prefix length `l`, with the clamp of a
   * delta above DIFF3_HI; `ok` is false on a delta below DIFF3_LO.
   */
  method CountDelta(olen: nat, l: nat) returns (ok: bool, cost: nat, len: nat, diff: int)
    requires l <= INT_MAX
    ensures ok <==> NextEntry(olen, l).Some?
    ensures ok ==> NextEntry(olen, l) == Some(Entry(l, len, diff)) && cost == Cost(diff)
  {
    ok := true;
    len := l;
    diff := len - olen;
    if DIFF1_LO <= diff <= DIFF1_HI {
      cost := 1;
    } else if DIFF2_LO <= diff <= DIFF2_HI {
      cost := 2;
    } else {
      if diff > DIFF3_HI {
        // this will result in inefficient encoding
        diff := DIFF3_HI;
        len := olen + diff;
      } else if diff < DIFF3_LO {
        return false, 0, len, diff;
      }
      cost := 3;
    }
  }

  /**
   * The second pass of `encpass`: reads the prefix lengths the first pass
   * cached, redoes the tier choice and clamp, and writes the first string,
   * then each code and suffix, into `enc`.
   */
  method EncPass2(v: seq<seq<u8>>, pplen: array<int>, enc: array<u8>, ghost es: seq<Entry>)
    requires ValidList(v) && |es| == |v| - 1 && Fits(v, es, |v|)
    requires forall j :: 0 <= j < |es| ==> Replays(es, j)
    requires pplen.Length == |v| && forall j :: 1 <= j < |v| ==> pplen[j] == es[j - 1].lcp
    requires |Blob(v, es, |v|)| <= enc.Length
    modifies enc
    ensures enc[..|Blob(v, es, |v|)|] == Blob(v, es, |v|)
    ensures enc[|Blob(v, es, |v|)|..] == old(enc[..])[|Blob(v, es, |v|)|..]
  {
    ghost var orig := enc[..];
    BlobPrefix(v, es, 1, |v|);
    var pos := StpCpy(enc, 0, v[0] + [0]);
    pos := pos + 1;
    assert enc[..pos] == v[0] + [0];
    var olen := 0;
    var i := 1;
    while i < |v|
      invariant 1 <= i <= |v|
      invariant pos == |Blob(v, es, i)| <= enc.Length
      invariant enc[..pos] == Blob(v, es, i)
      invariant enc[pos..] == orig[pos..]
      invariant olen == PrevLen(es, i - 1)
    {
      var next, len := PutNext(v, enc, es, orig, i, pos, olen, pplen[i]);
      pos := next;
      olen := len;
      i := i + 1;
    }
  }

  /**
   * The second pass's loop turn for string `i`: with the blob of the
   * strings before it written at the start of `enc`, it writes the next
   * piece after it and leaves the rest of `enc` as it was.
   */
  method PutNext(v: seq<seq<u8>>, enc: array<u8>, ghost es: seq<Entry>, ghost orig: seq<u8>,
                 i: nat, pos: nat, olen: nat, l: int) returns (next: nat, len: nat)
    requires ValidList(v) && 1 <= i < |v| && |es| == |v| - 1 && Fits(v, es, |v|)
    requires Replays(es, i - 1) && l == es[i - 1].lcp && olen == PrevLen(es, i - 1)
    requires |Blob(v, es, |v|)| <= enc.Length == |orig|
    requires pos == |Blob(v, es, i)| <= enc.Length && enc[..pos] == Blob(v, es, i) && enc[pos..] == orig[pos..]
    modifies enc
    ensures next == |Blob(v, es, i + 1)| <= enc.Length
    ensures enc[..next] == Blob(v, es, i + 1) && enc[next..] == orig[next..]
    ensures len == PrevLen(es, i)
  {
    BlobGrows(v, es, i, olen, l);
    ghost var mid := enc[..];
    next, len := PutPiece(enc, pos, olen, l, v[i], es[i - 1]);
    Overwrite(orig, mid, enc[..], pos, Piece(v[i], es[i - 1]));
  }

  /**
   * One turn of the second pass's loop: the delta code, then `stpcpy` of
   * the suffix of `s` after the claimed prefix. Gives the position after
   * the terminator and the claimed prefix length.
   */
  method PutPiece(enc: array<u8>, pos: nat, olen: nat, l: int, s: seq<u8>, ghost e: Entry) returns (next: nat, len: nat)
    requires NoNul(s) && l >= 0 && NextEntry(olen, l) == Some(e) && e.len <= |s|
    requires pos + |Piece(s, e)| <= enc.Length
    modifies enc
    ensures len == e.len && next == pos + |Piece(s, e)|
    ensures enc[..] == old(enc[..])[..pos] + Piece(s, e) + old(enc[..])[next..]
  {
    ghost var mid := enc[..];
    var at;
    at, len := PutDelta(enc, pos, olen, l);
    ghost var after := enc[..];
    var tail := s[len..] + [0];
    next := StpCpy(enc, at, tail);
    next := next + 1;
    Splice(mid, mid, after, enc[..], pos, at, Code(e.diff), tail);
    assert enc[..] == enc[..next] + enc[next..];
  }

  /** Writing `w` at `start` right after the meaningful bytes extends them by `w` and keeps the rest. */
  lemma Overwrite(orig: seq<u8>, mid: seq<u8>, fin: seq<u8>, start: nat, w: seq<u8>)
    requires start + |w| <= |mid| == |orig| && mid[start..] == orig[start..]
    requires fin == mid[..start] + w + mid[start + |w|..]
    ensures fin[..start + |w|] == mid[..start] + w
    ensures fin[start + |w|..] == orig[start + |w|..]
  {
    var pos := start + |w|;
    assert mid[pos..] == mid[start..][|w|..];
    assert orig[pos..] == orig[start..][|w|..];
  }

  /** Blob after one more string: the previous blob and the piece the decision for string i codes. */
  lemma BlobGrows(v: seq<seq<u8>>, es: seq<Entry>, i: nat, olen: nat, l: int)
    requires ValidList(v) && 1 <= i < |v| && |es| == |v| - 1 && Fits(v, es, |v|)
    requires Replays(es, i - 1) && olen == PrevLen(es, i - 1) && l == es[i - 1].lcp
    ensures Fits(v, es, i) && Fits(v, es, i + 1) && FitsAt(v, es, i - 1)
    ensures l >= 0 && NextEntry(olen, l) == Some(es[i - 1]) && NoNul(v[i]) && PrevLen(es, i) == es[i - 1].len
    ensures Blob(v, es, i + 1) == Blob(v, es, i) + Piece(v[i], es[i - 1])
    ensures |Blob(v, es, i + 1)| <= |Blob(v, es, |v|)|
  {
    assert FitsAt(v, es, i - 1);
    BlobPrefix(v, es, i + 1, |v|);
  }

  /**
   * Writing `code` at `start` and then `tail` right after it: the written
   * prefix grows by both, and what lies beyond stays as it was.
   */
  lemma Splice(orig: seq<u8>, mid: seq<u8>, after: seq<u8>, fin: seq<u8>,
               start: nat, next: nat, code: seq<u8>, tail: seq<u8>)
    requires start <= |mid| == |orig| && mid[start..] == orig[start..]
    requires next == start + |code| && next + |tail| <= |mid|
    requires after == mid[..start] + code + mid[next..]
    requires fin == after[..next] + tail + after[next + |tail|..]
    ensures fin[..next + |tail|] == mid[..start] + code + tail
    ensures fin[next + |tail|..] == orig[next + |tail|..]
  {
    var pos := next + |tail|;
    assert after[..next] == mid[..start] + code;
    assert fin[pos..] == after[pos..];
    assert after[pos..] == mid[pos..];
    assert mid[pos..] == mid[start..][pos - start..];
    assert orig[pos..] == orig[start..][pos - start..];
  }

  /**
   * The tier block of the second pass's loop body: from the previous
   * claimed prefix length `olen` and the cached common prefix length `l`,
   * redoes the first pass's tier choice and clamp and writes the code at
   * `pos`. Gives the position after the code and the claimed prefix length.
   */
  method PutDelta(enc: array<u8>, pos: nat, olen: nat, l: int) returns (next: nat, len: nat)
    requires l >= 0 && NextEntry(olen, l).Some?
    requires pos + |Code(NextEntry(olen, l).value.diff)| <= enc.Length
    modifies enc
    ensures len == NextEntry(olen, l).value.len
    ensures next == pos + |Code(NextEntry(olen, l).value.diff)|
    ensures enc[..] == old(enc[..])[..pos] + Code(NextEntry(olen, l).value.diff) + old(enc[..])[next..]
  {
    len := l;
    var diff := len - olen;
    if DIFF1_LO <= diff <= DIFF1_HI {
      enc[pos] := ToByte(diff);
      next := pos + 1;
    } else if DIFF2_LO <= diff <= DIFF2_HI {
      if diff > 0 {
        enc[pos] := 127;
        diff := diff - 127;
      } else {
        enc[pos] := ToByte(-127);
        diff := diff + 127;
      }
      enc[pos + 1] := ToByte(diff);
      next := pos + 2;
    } else {
      if diff > DIFF3_HI {
        // this will result in inefficient encoding
        diff := DIFF3_HI;
        len := olen + diff;
      }
      // no -128 marker is written before the `short`
      if diff > 0 {
        diff := diff - (DIFF2_HI + 1);
      } else {
        diff := diff - (DIFF2_LO - 1);
      }
      var u := Le16(diff);
      enc[pos] := u[0];
      enc[pos + 1] := u[1];
      next := pos + 2;
    }
  }

  /**
   * `frenc`: allocates the prefix-length cache, runs the first pass, then
   * allocates the output of the size it returned and runs the second. The
   * two flags say whether each `malloc` fails; an allocation failure or a
   * range error returns an error code and no buffer.
   */
  method Frenc(v: seq<seq<u8>>, sse2: bool, pplenFails: bool, encFails: bool)
    returns (ret: nat, enc: array?<u8>)
    requires ValidList(v)
    ensures IsError(ret) <==> enc == null
    ensures pplenFails ==> ret == FRENC_ERR_MALLOC
    ensures !pplenFails && EncodedSize(v).None? ==> ret == FRENC_ERR_RANGE
    ensures !pplenFails && EncodedSize(v).Some? && !IsError(EncodedSize(v).value) && encFails ==>
      ret == FRENC_ERR_MALLOC
    ensures !pplenFails && !encFails && EncodedSize(v).Some? && !IsError(EncodedSize(v).value) ==>
      enc != null
    ensures enc != null ==>
      && fresh(enc) && !pplenFails && !encFails
      && EncodedSize(v) == Some(ret) && Encoding(v).Some?
      && enc.Length == ret > 0
      && enc[..|Encoding(v).value|] == Encoding(v).value
  {
    if pplenFails {
      return FRENC_ERR_MALLOC, null;
    }
    var pplen := new int[|v|];
    var total := EncPass1(v, pplen, sse2);
    if total >= FRENC_ERROR {
      return total, null;
    }
    if encFails {
      return FRENC_ERR_MALLOC, null;
    }
    ghost var es := Plan(v, |v|).value;
    BlobSize(v, es, |v|);
    PlanFits(v, |v|);
    enc := new u8[total];
    EncPass2(v, pplen, enc, es);
    ret := total;
  }
}
