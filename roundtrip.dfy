/**
 * What `frdec` gives back for a blob `frenc` wrote. Every delta the
 * encoder codes in [-127, DIFF2_HI] is read back unchanged, so a list
 * whose deltas all fall in that range decodes to itself. Outside the range
 * the defects of the delta code (see `Delta`) break the round trip.
 */
module RoundTrip {
  import opened Bytes
  import opened FrencH
  import opened LcpEngine
  import opened Delta
  import opened Encoder
  import opened Decoder

  /** The regions the second pass of `frdec` should rebuild for the first `k` strings: each string with its terminator. */
  function Regions(v: seq<seq<u8>>, k: nat): (rs: seq<seq<u8>>)
    requires k <= |v|
    ensures |rs| == k && forall i {:trigger rs[i]} :: 0 <= i < k ==> rs[i] == v[i] + [0]
  {
    seq(k, i requires 0 <= i < k => v[i] + [0])
  }

  /** Every delta of the plan lies in the range the delta code inverts. */
  predicate SmallDeltas(es: seq<Entry>)
  {
    forall e <- es :: -127 <= e.diff <= DIFF2_HI
  }

  /**
   * What the plan decided for string j + 1, with no clamping: it claims
   * the whole common prefix with string j, and codes a delta the decoder
   * reads back.
   */
  predicate Claimed(v: seq<seq<u8>>, es: seq<Entry>, j: nat)
    requires j < |es| && j + 1 < |v|
  {
    && es[j].len == CommonPrefixLen(v[j], v[j + 1])
    && es[j].len == PrevLen(es, j) + es[j].diff
    && -127 <= es[j].diff <= DIFF2_HI
  }

  /** A plan with small deltas claims every common prefix in full. */
  lemma PlanClaims(v: seq<seq<u8>>, es: seq<Entry>)
    requires 1 <= |v| && Plan(v, |v|) == Some(es) && SmallDeltas(es)
    ensures |es| == |v| - 1 && forall j :: 0 <= j < |es| ==> Claimed(v, es, j)
  {
    forall j | 0 <= j < |es|
      ensures Claimed(v, es, j)
    {
      assert es[j] in es;
      assert Decided(v, es, j);
    }
  }

  /** The parts of a prefix `x + c + s + [0]` of `b`, located in `b`. */
  lemma PartsAt(b: seq<u8>, x: seq<u8>, c: seq<u8>, s: seq<u8>, p: nat, q: nat, e: nat)
    requires |x| + |c| + |s| < |b| && b[..|x| + |c| + |s| + 1] == x + (c + s + [0])
    requires p == |x| && q == p + |c| && e == q + |s| + 1
    ensures e <= |b| && b[p..q] == c && b[q..e] == s + [0]
  {
    var t := x + (c + s + [0]);
    forall i | p <= i < e
      ensures b[i] == t[i]
    {
      assert b[i] == b[..e][i];
    }
    assert b[p..q] == t[p..q] == c;
    assert b[q..e] == t[q..e] == s + [0];
  }

  /**
   * The bytes the encoder wrote for string k sit in the blob right after
   * those of the strings before it.
   */
  lemma PieceInBlob(v: seq<seq<u8>>, es: seq<Entry>, k: nat, b: seq<u8>, x: seq<u8>, c: seq<u8>, s: seq<u8>)
    requires 1 <= k < |v| && |es| == |v| - 1 && Fits(v, es, |v|) && FitsAt(v, es, k - 1)
    requires b == Blob(v, es, |v|) && x == Blob(v, es, k)
    requires c == Code(es[k - 1].diff) && s == v[k][es[k - 1].len..]
    ensures |x| + |c| + |s| < |b| && b[..|x| + |c| + |s| + 1] == x + (c + s + [0])
    ensures Fits(v, es, k + 1) && |Blob(v, es, k + 1)| == |x| + |c| + |s| + 1
  {
    assert Fits(v, es, k) && Fits(v, es, k + 1);
    var y := Blob(v, es, k + 1);
    assert y == x + (c + s + [0]);
    BlobPrefix(v, es, k + 1, |v|);
    assert b[..|y|] == y && |y| == |x| + |c| + |s| + 1;
  }

  /**
   * One step of the second pass over a delta read at `p` and followed by a
   * suffix and its terminator: the new region is the claimed prefix of the
   * last one, then the suffix.
   */
  lemma Pass2Reads(b: seq<u8>, p: nat, olen: int, rs: seq<seq<u8>>, d: int, q: nat, s: seq<u8>,
                   len: int, e: nat, rs': seq<seq<u8>>)
    requires Terminated(b) && p < |b| && |rs| > 0 && ReadDelta(b, p, true) == Read(d, q)
    requires NoNul(s) && e == q + |s| + 1 && e <= |b| && b[q..e] == s + [0]
    requires len == olen + d && 0 <= len <= |rs[|rs| - 1]|
    requires rs' == rs + [rs[|rs| - 1][..len] + (s + [0])]
    ensures Pass2(b, p, olen, rs) == Pass2(b, e, len, rs')
  {
    assert b[q..q + |s|] == b[q..e][..|s|] == s;
    assert b[q + |s|] == b[q..e][|s|] == 0;
    StrLenOf(b, q, s);
    Pass2Step(b, p, olen, rs, d, q, e, len, rs');
  }

  /**
   * The region of string k is a shared prefix of the region before it,
   * then the rest of string k and its terminator.
   */
  lemma RegionsGrow(ws: seq<seq<u8>>, k: nat, l: nat)
    requires 1 <= k < |ws| && l <= |ws[k - 1]| && l <= |ws[k]| && ws[k - 1][..l] == ws[k][..l]
    ensures |Regions(ws, k)| == k && l < |Regions(ws, k)[|Regions(ws, k)| - 1]|
    ensures Regions(ws, k + 1)
      == Regions(ws, k) + [Regions(ws, k)[|Regions(ws, k)| - 1][..l] + (ws[k][l..] + [0])]
  {
    var prev := Regions(ws, k)[k - 1];
    assert prev[..l] == ws[k - 1][..l];
    assert prev[..l] + (ws[k][l..] + [0]) == ws[k] + [0] by {
      assert ws[k][..l] + ws[k][l..] == ws[k];
    }
    assert Regions(ws, k + 1) == Regions(ws, k) + [ws[k] + [0]];
  }

  /**
   * The layout of a blob as the second pass reads it, for string `j` of
   * `ws`: it claims the prefix `ls[j]` it shares with string j - 1; its
   * bytes start at `ps[j - 1]` with a delta that reads back as the change
   * of claimed prefix and ends at `qs[j]`; then come the suffix after the
   * claimed prefix and a terminator, which end at `ps[j]`.
   */
  predicate Lays(b: seq<u8>, ws: seq<seq<u8>>, ls: seq<nat>, qs: seq<nat>, ps: seq<nat>, j: nat)
    requires 1 <= j < |ws| && |ls| == |ws| && |qs| == |ws| && |ps| == |ws|
  {
    var l := ls[j];
    && l <= |ws[j - 1]| && l <= |ws[j]| && ws[j - 1][..l] == ws[j][..l]
    && NoNul(ws[j][l..])
    && ps[j - 1] < qs[j] < ps[j] <= |b| && ps[j] == qs[j] + |ws[j][l..]| + 1
    && ReadDelta(b, ps[j - 1], true) == Read(l as int - ls[j - 1], qs[j])
    && b[qs[j]..ps[j]] == ws[j][l..] + [0]
  }

  /** The layout of string k, in the terms of `Pass2Reads`. */
  lemma LaysRead(b: seq<u8>, ws: seq<seq<u8>>, ls: seq<nat>, qs: seq<nat>, ps: seq<nat>, k: nat)
    requires 1 <= k < |ws| && |ls| == |ws| && |qs| == |ws| && |ps| == |ws|
    requires Lays(b, ws, ls, qs, ps, k)
    ensures ps[k - 1] < ps[k] <= |b| && |Regions(ws, k)| > 0
    ensures ReadDelta(b, ps[k - 1], true) == Read(ls[k] as int - ls[k - 1], qs[k])
    ensures NoNul(ws[k][ls[k]..]) && ps[k] == qs[k] + |ws[k][ls[k]..]| + 1
    ensures b[qs[k]..ps[k]] == ws[k][ls[k]..] + [0]
    ensures ls[k] == ls[k - 1] + (ls[k] as int - ls[k - 1])
    ensures 0 <= ls[k] <= |Regions(ws, k)[|Regions(ws, k)| - 1]|
    ensures Regions(ws, k + 1)
      == Regions(ws, k) + [Regions(ws, k)[|Regions(ws, k)| - 1][..ls[k]] + (ws[k][ls[k]..] + [0])]
  {
    RegionsGrow(ws, k, ls[k]);
  }

  /** The second pass over the bytes of string k adds the region of string k. */
  lemma LaysStep(b: seq<u8>, ws: seq<seq<u8>>, ls: seq<nat>, qs: seq<nat>, ps: seq<nat>, k: nat)
    requires Terminated(b) && 1 <= k < |ws| && |ls| == |ws| && |qs| == |ws| && |ps| == |ws|
    requires Lays(b, ws, ls, qs, ps, k)
    ensures ps[k - 1] < ps[k] <= |b|
    ensures Pass2(b, ps[k - 1], ls[k - 1], Regions(ws, k)) == Pass2(b, ps[k], ls[k], Regions(ws, k + 1))
  {
    LaysRead(b, ws, ls, qs, ps, k);
    Pass2Reads(b, ps[k - 1], ls[k - 1], Regions(ws, k), ls[k] as int - ls[k - 1], qs[k], ws[k][ls[k]..],
               ls[k], ps[k], Regions(ws, k + 1));
  }

  /**
   * From the end of the first `k` strings' bytes, with those strings'
   * regions rebuilt, the second pass rebuilds the regions of all strings.
   */
  lemma {:induction false} Rebuilds(b: seq<u8>, ws: seq<seq<u8>>, ls: seq<nat>, qs: seq<nat>, ps: seq<nat>, k: nat)
    requires Terminated(b) && 1 <= k <= |ws| && |ls| == |ws| && |qs| == |ws| && |ps| == |ws|
    requires ps[k - 1] <= |b| && ps[|ws| - 1] == |b|
    requires forall j :: 1 <= j < |ws| ==> Lays(b, ws, ls, qs, ps, j)
    ensures Pass2(b, ps[k - 1], ls[k - 1], Regions(ws, k)) == Rebuilt(Regions(ws, |ws|))
    decreases |ws| - k
  {
    if k < |ws| {
      LaysStep(b, ws, ls, qs, ps, k);
      Rebuilds(b, ws, ls, qs, ps, k + 1);
    }
  }

  /** The prefix each string claims: none for the first, then those of the plan. */
  function Claims(es: seq<Entry>): (ls: seq<nat>)
    ensures |ls| == |es| + 1 && forall j {:trigger ls[j]} :: 0 <= j < |ls| ==> ls[j] == PrevLen(es, j)
  {
    seq(|es| + 1, j requires 0 <= j <= |es| => PrevLen(es, j))
  }

  /** Where the delta code of each string after the first ends in the blob. */
  function Deltas(v: seq<seq<u8>>, es: seq<Entry>): (qs: seq<nat>)
    requires 1 <= |v| && |es| == |v| - 1 && Fits(v, es, |v|)
    ensures |qs| == |v|
    ensures forall j {:trigger qs[j]} :: 1 <= j < |v| ==> FitsAt(v, es, j - 1) && qs[j] == |Blob(v, es, j)| + |Code(es[j - 1].diff)|
  {
    seq(|v|, j requires 0 <= j < |v| =>
      if j == 0 then 0
      else
        assert Fits(v, es, j) && FitsAt(v, es, j - 1);
        |Blob(v, es, j)| + |Code(es[j - 1].diff)|)
  }

  /** Where the bytes of each string end in the blob. */
  function Ends(v: seq<seq<u8>>, es: seq<Entry>): (ps: seq<nat>)
    requires 1 <= |v| && |es| == |v| - 1 && Fits(v, es, |v|)
    ensures |ps| == |v| && forall j {:trigger ps[j]} :: 0 <= j < |v| ==> ps[j] == |Blob(v, es, j + 1)|
  {
    seq(|v|, j requires 0 <= j < |v| => assert Fits(v, es, j + 1); |Blob(v, es, j + 1)|)
  }

  /** The blob `frenc` wrote for string k has the layout the second pass reads. */
  lemma Located(v: seq<seq<u8>>, es: seq<Entry>, k: nat, b: seq<u8>, ls: seq<nat>, qs: seq<nat>, ps: seq<nat>)
    requires 1 <= k < |v| && |es| == |v| - 1 && Fits(v, es, |v|)
    requires Claimed(v, es, k - 1) && NoNul(v[k])
    requires b == Blob(v, es, |v|) && ls == Claims(es) && qs == Deltas(v, es) && ps == Ends(v, es)
    requires |b| <= INT_MAX
    ensures Lays(b, v, ls, qs, ps, k)
  {
    DeltaAt(v, es, k, b, qs, ps);
    SuffixAt(v, es, k, b, qs, ps);
    ClaimedSuffix(v, es, k);
  }

  /** The prefix string k claims is common to it and string k - 1, and the rest of it has no NUL. */
  lemma ClaimedSuffix(v: seq<seq<u8>>, es: seq<Entry>, k: nat)
    requires 1 <= k < |v| && |es| == |v| - 1
    requires Claimed(v, es, k - 1) && NoNul(v[k])
    ensures var l := Claims(es)[k];
      && l == es[k - 1].len && l as int - Claims(es)[k - 1] == es[k - 1].diff
      && l <= |v[k - 1]| && l <= |v[k]| && v[k - 1][..l] == v[k][..l]
      && NoNul(v[k][l..])
  {
    CommonPrefixSlices(v[k - 1], v[k]);
  }

  /**
   * The delta code of string k runs from the end of string k - 1's bytes
   * to `Deltas`, and the second pass reads back the plan's delta there.
   */
  lemma DeltaAt(v: seq<seq<u8>>, es: seq<Entry>, k: nat, b: seq<u8>, qs: seq<nat>, ps: seq<nat>)
    requires 1 <= k < |v| && |es| == |v| - 1 && Fits(v, es, |v|) && -127 <= es[k - 1].diff <= DIFF2_HI
    requires b == Blob(v, es, |v|) && qs == Deltas(v, es) && ps == Ends(v, es) && |b| <= INT_MAX
    ensures ps[k - 1] < qs[k] < |b|
    ensures ReadDelta(b, ps[k - 1], true) == Read(es[k - 1].diff, qs[k])
  {
    assert Fits(v, es, k) && FitsAt(v, es, k - 1);
    var c, s := Code(es[k - 1].diff), v[k][es[k - 1].len..];
    var x := Blob(v, es, k);
    PieceInBlob(v, es, k, b, x, c, s);
    assert ps[k - 1] == |x|;
    assert qs[k] == |x| + |c|;
    PartsAt(b, x, c, s, ps[k - 1], qs[k], qs[k] + |s| + 1);
    DeltaRoundTrip(es[k - 1].diff, b, ps[k - 1], true);
  }

  /** After the delta code of string k come its suffix and terminator, up to `Ends`. */
  lemma SuffixAt(v: seq<seq<u8>>, es: seq<Entry>, k: nat, b: seq<u8>, qs: seq<nat>, ps: seq<nat>)
    requires 1 <= k < |v| && |es| == |v| - 1 && Fits(v, es, |v|)
    requires b == Blob(v, es, |v|) && qs == Deltas(v, es) && ps == Ends(v, es)
    ensures es[k - 1].len <= |v[k]|
    ensures qs[k] < ps[k] <= |b| && ps[k] == qs[k] + |v[k][es[k - 1].len..]| + 1
    ensures b[qs[k]..ps[k]] == v[k][es[k - 1].len..] + [0]
  {
    assert Fits(v, es, k) && FitsAt(v, es, k - 1);
    var c, s := Code(es[k - 1].diff), v[k][es[k - 1].len..];
    var x := Blob(v, es, k);
    PieceInBlob(v, es, k, b, x, c, s);
    assert qs[k] == |x| + |c|;
    assert ps[k] == |Blob(v, es, k + 1)|;
    PartsAt(b, x, c, s, |x|, qs[k], ps[k]);
  }

  /** The blob opens with the first string and its terminator, and ends with a terminator. */
  lemma FirstString(v: seq<seq<u8>>, es: seq<Entry>)
    requires ValidList(v) && |es| == |v| - 1 && Fits(v, es, |v|)
    ensures Terminated(Blob(v, es, |v|))
    ensures StrLen(Blob(v, es, |v|), 0) == |v[0]|
    ensures FirstRegion(Blob(v, es, |v|)) == v[0] + [0]
  {
    var b := Blob(v, es, |v|);
    BlobPrefix(v, es, 1, |v|);
    var l0 := |v[0]|;
    assert b[..l0 + 1] == v[0] + [0];
    if |v| > 1 {
      assert FitsAt(v, es, |v| - 2);
    }
    assert b[0..0 + l0] == b[..l0 + 1][..l0];
    StrLenOf(b, 0, v[0]);
  }

  /**
   * The second pass over the blob of a plan with small deltas rebuilds a
   * region per string, when the blob is short enough for the 32-bit `left`.
   */
  lemma SecondPass(v: seq<seq<u8>>, es: seq<Entry>)
    requires ValidList(v) && Plan(v, |v|) == Some(es) && SmallDeltas(es) && Fits(v, es, |v|)
    requires |Blob(v, es, |v|)| <= INT_MAX
    ensures Terminated(Blob(v, es, |v|))
    ensures Pass2(Blob(v, es, |v|), StrLen(Blob(v, es, |v|), 0) + 1, 0, [FirstRegion(Blob(v, es, |v|))])
      == Rebuilt(Regions(v, |v|))
  {
    var b := Blob(v, es, |v|);
    FirstString(v, es);
    PlanClaims(v, es);
    var ls, qs, ps := Claims(es), Deltas(v, es), Ends(v, es);
    AllLaid(v, es, b, ls, qs, ps);
    assert [FirstRegion(b)] == Regions(v, 1);
    Rebuilds(b, v, ls, qs, ps, 1);
  }

  /** Every string after the first has the layout the second pass reads. */
  lemma AllLaid(v: seq<seq<u8>>, es: seq<Entry>, b: seq<u8>, ls: seq<nat>, qs: seq<nat>, ps: seq<nat>)
    requires ValidList(v) && |es| == |v| - 1 && Fits(v, es, |v|)
    requires forall j :: 0 <= j < |es| ==> Claimed(v, es, j)
    requires b == Blob(v, es, |v|) && ls == Claims(es) && qs == Deltas(v, es) && ps == Ends(v, es)
    requires |b| <= INT_MAX
    ensures forall j :: 1 <= j < |v| ==> Lays(b, v, ls, qs, ps, j)
  {
    forall j | 1 <= j < |v|
      ensures Lays(b, v, ls, qs, ps, j)
    {
      assert Claimed(v, es, j - 1) && NoNul(v[j]);
      Located(v, es, j, b, ls, qs, ps);
    }
  }

  /** With small deltas no delta takes tier 3, so the size `frenc` returns is the blob's length. */
  lemma EncodedBlob(v: seq<seq<u8>>)
    requires ValidList(v) && Encoding(v).Some? && SmallDeltas(Plan(v, |v|).value)
    ensures var es := Plan(v, |v|).value;
      && Fits(v, es, |v|) && Encoding(v).value == Blob(v, es, |v|)
      && EncodedSize(v) == Some(|Blob(v, es, |v|)|)
  {
    var es := Plan(v, |v|).value;
    PlanFits(v, |v|);
    EncodingShape(v);
    assert forall e <- es :: TierOf(e.diff) != Tier3;
  }

  /** Each region, read as a C string, gives back its string. */
  lemma RegionsRead(v: seq<seq<u8>>)
    requires ValidList(v)
    ensures CStrings(Regions(v, |v|)) == v
  {
    var rs := Regions(v, |v|);
    forall i | 0 <= i < |v|
      ensures CStrings(rs)[i] == v[i]
    {
      CStringOf(v[i], []);
      assert v[i] + [0] + [] == rs[i];
    }
  }

  /** A blob whose second pass rebuilds a region per string decodes to those strings. */
  lemma DecodesTo(b: seq<u8>, v: seq<seq<u8>>)
    requires Terminated(b) && ValidList(v)
    requires Pass2(b, StrLen(b, 0) + 1, 0, [FirstRegion(b)]) == Rebuilt(Regions(v, |v|))
    ensures Decoding(b, true) == Decoded(|v|, v) && Decoding(b, false) == Counted(|v|)
  {
    TotalMatchesBlock(b);
    RegionsRead(v);
    DecodedShape(b);
  }

  /**
   * The round trip: a list whose deltas all lie in [-127, DIFF2_HI]
   * encodes to a blob that `frdec` decodes back to the same list, and
   * counts the same number of strings when no list is asked for, as long
   * as the blob is at most INT_MAX bytes (beyond that the decoder's
   * 32-bit `left` can wrap; see `Decoder.LongTailRefused`). The size
   * `frenc` returns is then exactly the blob's length.
   */
  lemma RoundTrip(v: seq<seq<u8>>)
    requires ValidList(v) && Encoding(v).Some?
    requires SmallDeltas(Plan(v, |v|).value)
    requires |Encoding(v).value| <= INT_MAX
    ensures EncodedSize(v) == Some(|Encoding(v).value|)
    ensures Decoding(Encoding(v).value, true) == Decoded(|v|, v)
    ensures Decoding(Encoding(v).value, false) == Counted(|v|)
  {
    var es := Plan(v, |v|).value;
    EncodedBlob(v);
    SecondPass(v, es);
    DecodesTo(Blob(v, es, |v|), v);
  }

  // "app", "apple", "application", "banana": the deltas 3, 1 and -4 each
  // take one byte.

  const APP: seq<u8> := [97, 112, 112]
  const LE: seq<u8> := [108, 101]
  const ICATION: seq<u8> := [105, 99, 97, 116, 105, 111, 110]
  const BANANA: seq<u8> := [98, 97, 110, 97, 110, 97]

  const APPS: seq<seq<u8>> := [APP, APP + LE, APP + [108] + ICATION, BANANA]

  const APPS_PLAN: seq<Entry> := [Entry(3, 3, 3), Entry(4, 4, 1), Entry(0, 0, -4)]

  /** The 25 bytes: "app", then 3 and "le", then 1 and "ication", then -4 and "banana", each terminated. */
  const APPS_BLOB: seq<u8> := APP + [0] + ([3] + LE + [0]) + ([1] + ICATION + [0]) + ([252] + BANANA + [0])

  /** The first pass over the example claims each common prefix in full. */
  lemma ExamplePlan()
    ensures ValidList(APPS) && Plan(APPS, 4) == Some(APPS_PLAN) && SmallDeltas(APPS_PLAN)
  {
    var v := APPS;
    assert ValidList(v);
    CommonPrefixUnique(v[0], v[1], 3);
    CommonPrefixUnique(v[1], v[2], 4);
    CommonPrefixUnique(v[2], v[3], 0);
    var es := APPS_PLAN;
    PlanGrows(v, 1, [], es[0]);
    assert [] + [es[0]] == es[..1];
    PlanGrows(v, 2, es[..1], es[1]);
    assert es[..1] + [es[1]] == es[..2];
    PlanGrows(v, 3, es[..2], es[2]);
    assert es[..2] + [es[2]] == es;
  }

  /** The second pass over the example writes its blob byte for byte. */
  lemma ExampleBlob()
    ensures ValidList(APPS) && Encoding(APPS) == Some(APPS_BLOB)
  {
    var v, es := APPS, APPS_PLAN;
    ExamplePlan();
    PlanFits(v, 4);
    assert Piece(v[1], es[0]) == [3] + LE + [0] by {
      assert Code(3) == [3] && v[1][3..] == LE;
    }
    assert Piece(v[2], es[1]) == [1] + ICATION + [0] by {
      assert Code(1) == [1] && v[2][4..] == ICATION;
    }
    assert Piece(v[3], es[2]) == [252] + BANANA + [0] by {
      assert Code(-4) == [252] && v[3][0..] == BANANA;
    }
    assert Blob(v, es, 2) == APP + [0] + ([3] + LE + [0]);
    assert Blob(v, es, 3) == Blob(v, es, 2) + ([1] + ICATION + [0]);
    assert Blob(v, es, 4) == Blob(v, es, 3) + ([252] + BANANA + [0]);
  }

  /** The example's blob is the 25 bytes `frenc` returns, and it decodes back to the list. */
  lemma WorkedExample()
    ensures ValidList(APPS) && |APPS_BLOB| == 25 && EncodedSize(APPS) == Some(25)
    ensures Decoding(APPS_BLOB, true) == Decoded(4, APPS)
  {
    ExamplePlan();
    ExampleBlob();
    RoundTrip(APPS);
  }
}
