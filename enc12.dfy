/**
 * The 12-bit size-hint packer: `enc12` packs a size into a 7-bit mantissa
 * (with an implicit high bit) and a 5-bit exponent, rounding up, and
 * `dec12` unpacks it. Values up to 256 stand for themselves.
 */
module Enc12 {
  import opened FrencH

  /** The largest hint that unpacks below 2^32 (`ENC12_MAX32`). */
  const ENC12_MAX32: nat := 3327

  function Pow2(e: nat): (p: nat)
    ensures p >= 1
  {
    if e == 0 then 1 else 2 * Pow2(e - 1)
  }

  lemma {:induction false} Pow2Add(a: nat, b: nat)
    ensures Pow2(a + b) == Pow2(a) * Pow2(b)
    decreases a
  {
    if a > 0 {
      Pow2Add(a - 1, b);
      assert Pow2(a + b) == 2 * Pow2(a - 1 + b);
    }
  }

  lemma {:induction false} Pow2Monotone(a: nat, b: nat)
    requires a <= b
    ensures Pow2(a) <= Pow2(b)
    decreases b
  {
    if a < b {
      Pow2Monotone(a, b - 1);
    }
  }

  lemma Pow2Values()
    ensures Pow2(6) == 64 && Pow2(7) == 128 && Pow2(8) == 256
    ensures Pow2(24) == 0x100_0000 && Pow2(25) == 0x200_0000
    ensures Pow2(30) == 0x4000_0000 && Pow2(32) == 0x1_0000_0000
  {
    Pow2Add(8, 8);
    Pow2Add(16, 8);
    Pow2Add(24, 1);
    Pow2Add(24, 6);
    Pow2Add(16, 16);
  }

  /** `n / 2 + n % 2`: halving with round up. */
  function HalfUp(n: nat): (r: nat)
    ensures 2 * r == n || 2 * r == n + 1
  {
    n / 2 + n % 2
  }

  /**
   * The loop of `enc12`: while the value does not fit in 8 bits, halve it
   * rounding up and count one more in the exponent. Gives the final
   * mantissa and exponent.
   */
  function Normalize(n: nat, e: nat): (r: (nat, nat))
    decreases n
  {
    if n < 256 then (n, e) else Normalize(HalfUp(n), e + 1)
  }

  /**
   * The value `enc12(n)` returns: `n` itself up to 256, otherwise the
   * exponent in the high bits and the mantissa without its top bit below.
   */
  function Pack12(n: nat): nat
  {
    if n <= 256 then n
    else
      var (m, e) := Normalize(HalfUp(n), 2);
      e * 128 + m % 128
  }

  /**
   * `enc12`: the round-up loop runs at least once for every value above
   * 256, as the source's do-while does.
   */
  method Enc12(n0: nat) returns (h: nat)
    requires n0 <= SIZE_MAX
    ensures h == Pack12(n0)
    ensures n0 <= 256 ==> h == n0
    ensures n0 > 256 ==> h > 256
  {
    if n0 <= 256 {
      return n0;
    }
    var e := 1;
    var n := n0;
    n := n / 2 + n % 2;
    e := e + 1;
    while n >= 256
      invariant Normalize(n, e) == Normalize(HalfUp(n0), 2)
      decreases n
    {
      n := n / 2 + n % 2;
      e := e + 1;
    }
    NormalizeShape(HalfUp(n0), 2);
    // the implicit top bit of the mantissa is dropped
    n := n % 128;
    h := e * 128 + n;
  }

  /**
   * Started from a value of at least 128, the loop ends with a mantissa in
   * [128, 255], an exponent no smaller than the start, and a strictly
   * larger one when at least one halving was done.
   */
  lemma {:induction false} NormalizeShape(n: nat, e: nat)
    requires n >= 128
    ensures 128 <= Normalize(n, e).0 < 256
    ensures Normalize(n, e).1 >= e
    ensures Normalize(n, e).1 == e <==> n < 256
    ensures Normalize(n, e).1 == e ==> Normalize(n, e).0 == n
    decreases n
  {
    if n >= 256 {
      NormalizeShape(HalfUp(n), e + 1);
    }
  }

  /** Multiplying by a doubled factor doubles the product. */
  lemma Doubling(m: int, q: int, p: int)
    requires p == 2 * q
    ensures m * p == 2 * (m * q)
  {
  }

  /** The mantissa covers `n`, and one less does not: it is `n` over 2^(exponent growth), rounded up. */
  lemma {:induction false} NormalizeCovers(n: nat, e: nat)
    ensures Normalize(n, e).1 >= e
    ensures Normalize(n, e).0 * Pow2(Normalize(n, e).1 - e) >= n
    ensures (Normalize(n, e).0 - 1) * Pow2(Normalize(n, e).1 - e) < n
    decreases n
  {
    if n >= 256 {
      var h := HalfUp(n);
      NormalizeCovers(h, e + 1);
      var r := Normalize(h, e + 1);
      assert r == Normalize(n, e);
      var m, q, p := r.0, Pow2(r.1 - (e + 1)), Pow2(r.1 - e);
      assert p == 2 * q;
      Doubling(m, q, p);
      Doubling(m - 1, q, p);
    }
  }

  /** After at least one halving, the value before the last halving did not fit in 8 bits. */
  lemma {:induction false} NormalizeMinimal(n: nat, e: nat)
    requires Normalize(n, e).1 > e
    ensures n > 255 * Pow2(Normalize(n, e).1 - e - 1)
    decreases n
  {
    var h := HalfUp(n);
    var r := Normalize(h, e + 1);
    assert r == Normalize(n, e);
    if r.1 > e + 1 {
      NormalizeMinimal(h, e + 1);
      var q, p := Pow2(r.1 - (e + 1) - 1), Pow2(r.1 - e - 1);
      assert p == 2 * q;
      Doubling(255, q, p);
    }
  }

  /** Packing a value of at most 256 leaves it unchanged. */
  lemma Pack12Small(n: nat)
    requires n <= 256
    ensures Pack12(n) == n
  {
  }

  /** `Packed` of a normalized mantissa and exponent: exponent above, mantissa bits below. */
  function Packed(r: (nat, nat)): int
  {
    r.1 * 128 + r.0 - 128
  }

  lemma {:induction false} NormalizeMonotone(n1: nat, n2: nat, e: nat)
    requires 128 <= n1 <= n2
    ensures Packed(Normalize(n1, e)) <= Packed(Normalize(n2, e))
    decreases n2
  {
    NormalizeShape(n1, e);
    NormalizeShape(n2, e);
    if n1 >= 256 {
      NormalizeMonotone(HalfUp(n1), HalfUp(n2), e + 1);
    } else if n2 >= 256 {
      NormalizeShape(HalfUp(n2), e + 1);
    }
  }

  /** Packing is monotone: a larger size never gets a smaller hint. */
  lemma Pack12Monotone(n1: nat, n2: nat)
    requires n1 <= n2
    ensures Pack12(n1) <= Pack12(n2)
  {
    if n2 > 256 {
      NormalizeShape(HalfUp(n2), 2);
      if n1 > 256 {
        NormalizeShape(HalfUp(n1), 2);
        NormalizeMonotone(HalfUp(n1), HalfUp(n2), 2);
      }
    }
  }

  /**
   * `dec12` on a 12-bit hint: the value itself up to 256, otherwise the
   * mantissa with its implicit top bit, shifted left by the exponent less one.
   */
  function Dec12(h: nat): (n: nat)
    requires h < 4096
    ensures h <= 256 ==> n == h
    ensures h > 256 ==> n > 256
  {
    if h <= 256 then h
    else
      var m := h % 128 + 128;
      var e := h / 128 - 1;
      ShiftedAbove(m, e);
      m * Pow2(e)
  }

  /** A mantissa shifted left at least once is above 256, unless it is 128 shifted once. */
  lemma ShiftedAbove(m: nat, e: nat)
    requires 128 <= m < 256 && e >= 1 && (e == 1 ==> m > 128)
    ensures m * Pow2(e) > 256
  {
    if e == 1 {
      assert Pow2(1) == 2;
    } else {
      Pow2Monotone(2, e);
      assert Pow2(2) == 4;
      MulMonotone(4, Pow2(e), m);
    }
  }

  lemma MulMonotone(a: int, b: int, c: nat)
    requires a <= b
    ensures a * c <= b * c
  {
  }

  lemma MulStrict(a: int, b: int, c: nat)
    requires a < b && c > 0
    ensures a * c < b * c
  {
  }

  /** Unpacking is strictly increasing over the 12-bit hints. */
  lemma Dec12Increasing(h1: nat, h2: nat)
    requires h1 < h2 < 4096
    ensures Dec12(h1) < Dec12(h2)
  {
    if h1 > 256 {
      var e1, e2 := h1 / 128 - 1, h2 / 128 - 1;
      var m1, m2 := h1 % 128 + 128, h2 % 128 + 128;
      var p1, p2 := Pow2(e1), Pow2(e2);
      assert Dec12(h1) == m1 * p1 && Dec12(h2) == m2 * p2;
      if e1 == e2 {
        MulStrict(m1, m2, p1);
      } else {
        var q := Pow2(e1 + 1);
        assert q == 2 * p1;
        MulStrict(m1, 256, p1);
        Doubling(128, p1, q);
        Pow2Monotone(e1 + 1, e2);
        MulMonotone(q, p2, 128);
        MulMonotone(128, m2, p2);
      }
    }
  }

  /** The loop on a mantissa shifted left by `j` undoes the shift exactly. */
  lemma {:induction false} NormalizeShifted(m: nat, j: nat, e: nat)
    requires 128 <= m < 256
    ensures Normalize(m * Pow2(j), e) == (m, e + j)
    decreases j
  {
    if j > 0 {
      var p, q := Pow2(j), Pow2(j - 1);
      Doubling(m, q, p);
      MulMonotone(1, q, m);
      assert HalfUp(m * p) == m * q;
      NormalizeShifted(m, j - 1, e + 1);
    }
  }

  /** The hint of a size above 256 from the mantissa and exponent the loop ends with. */
  lemma Pack12Of(n: nat, m: nat, e: nat)
    requires n > 256 && Normalize(HalfUp(n), 2) == (m, e)
    ensures 128 <= m < 256 && Pack12(n) == e * 128 + (m - 128)
  {
    NormalizeShape(HalfUp(n), 2);
  }

  /** Halving an unpacked hint above 256, rounding up, lowers its shift by one. */
  lemma HalvedHint(h: nat)
    requires 256 < h < 4096
    ensures HalfUp(Dec12(h)) == (h % 128 + 128) * Pow2(h / 128 - 2)
  {
    var m, e := h % 128 + 128, h / 128 - 1;
    var p, q := Pow2(e), Pow2(e - 1);
    Doubling(m, q, p);
    assert Dec12(h) == m * p;
  }

  /** Every 12-bit hint is the packing of its own unpacked value. */
  lemma Pack12Dec12(h: nat)
    requires h < 4096
    ensures Pack12(Dec12(h)) == h
  {
    if h > 256 {
      var m, j := h % 128 + 128, h / 128 - 2;
      assert (j + 2) * 128 + (m - 128) == h;
      HalvedHint(h);
      NormalizeShifted(m, j, 2);
      Pack12Of(Dec12(h), m, j + 2);
    }
  }

  /** The exponent the loop reaches bounds the value it started from. */
  lemma ExponentBound(n: nat, big: nat)
    requires n >= 128
    ensures Normalize(n, 2).1 <= big + 2 <==> n <= 255 * Pow2(big)
  {
    var r := Normalize(n, 2);
    NormalizeShape(n, 2);
    NormalizeCovers(n, 2);
    if r.1 <= big + 2 {
      Pow2Monotone(r.1 - 2, big);
      MulMonotone(r.0, 255, Pow2(r.1 - 2));
      MulMonotone(Pow2(r.1 - 2), Pow2(big), 255);
    } else {
      NormalizeMinimal(n, 2);
      Pow2Monotone(big, r.1 - 3);
      MulMonotone(Pow2(big), Pow2(r.1 - 3), 255);
    }
  }

  /**
   * A packed value fits in 12 bits exactly when the size is at most
   * `dec12(4095)` = 255 * 2^30.
   */
  lemma Pack12Fits(n: nat)
    ensures Dec12(4095) == 255 * Pow2(30)
    ensures Pack12(n) < 4096 <==> n <= 255 * Pow2(30)
  {
    Pow2Values();
    if n > 256 {
      var h := HalfUp(n);
      NormalizeShape(h, 2);
      ExponentBound(h, 29);
      Pow2Add(1, 29);
    }
  }

  /** Doubling a rounded-up half: `m` covers `h` = n/2 rounded up at scale `small`, so at twice the scale it covers `n`. */
  lemma DoubledCover(n: nat, h: nat, m: nat, small: nat, big: nat)
    requires 2 * h == n || 2 * h == n + 1
    requires big == 2 * small
    requires m * small >= h && (m - 1) * small < h
    ensures m * big >= n && (m - 1) * big < n
  {
    Doubling(m, small, big);
    Doubling(m - 1, small, big);
  }

  /** A mantissa of at least 128 that just covers `n` overshoots it by at most 1/128 of the value. */
  lemma RoundUpOverhead(n: nat, m: nat, big: nat, d: nat)
    requires d == m * big && 128 <= m
    requires n <= d && (m - 1) * big < n
    ensures 128 * (d - n) <= d
  {
    assert (m - 1) * big == d - big;
    MulMonotone(d - n, big, 128);
    MulMonotone(128, m, big);
  }

  /**
   * The hint packed from a size above 256 is itself above 256, and it
   * unpacks to the loop's mantissa shifted by its exponent less one.
   */
  lemma PackedHint(n: nat)
    requires n > 256
    ensures var r := Normalize(HalfUp(n), 2);
      && 128 <= r.0 < 256 && r.1 >= 2
      && Pack12(n) == r.1 * 128 + (r.0 - 128) > 256
      && Pack12(n) / 128 == r.1 && Pack12(n) % 128 == r.0 - 128
      && (Pack12(n) < 4096 ==> Dec12(Pack12(n)) == r.0 * Pow2(r.1 - 1))
  {
    var r := Normalize(HalfUp(n), 2);
    NormalizeShape(HalfUp(n), 2);
    var p := Pack12(n);
    assert p == r.1 * 128 + (r.0 - 128);
  }

  /** The unpacked hint of a size above 256 covers it, and one mantissa step less does not. */
  lemma PackedCovers(n: nat)
    requires n > 256
    ensures var r := Normalize(HalfUp(n), 2);
      r.1 >= 2 && r.0 * Pow2(r.1 - 1) >= n && (r.0 - 1) * Pow2(r.1 - 1) < n
  {
    var h := HalfUp(n);
    var r := Normalize(h, 2);
    NormalizeShape(h, 2);
    NormalizeCovers(h, 2);
    var big, small := Pow2(r.1 - 1), Pow2(r.1 - 2);
    assert big == 2 * small;
    DoubledCover(n, h, r.0, small, big);
  }

  /**
   * Unpacking a packed size gives an upper bound of it, and the rounding
   * overhead is at most 1/128 of the unpacked value.
   */
  lemma Dec12Pack12(n: nat)
    requires n <= 255 * Pow2(30)
    ensures Pack12(n) < 4096
    ensures n <= Dec12(Pack12(n))
    ensures 128 * (Dec12(Pack12(n)) - n) <= Dec12(Pack12(n))
  {
    Pack12Fits(n);
    if n > 256 {
      PackedOverhead(n);
    }
  }

  /** `Dec12Pack12` for sizes above 256, whose hints fit. */
  lemma PackedOverhead(n: nat)
    requires n > 256 && Pack12(n) < 4096
    ensures n <= Dec12(Pack12(n))
    ensures 128 * (Dec12(Pack12(n)) - n) <= Dec12(Pack12(n))
  {
    var r := Normalize(HalfUp(n), 2);
    PackedHint(n);
    PackedCovers(n);
    RoundUpOverhead(n, r.0, Pow2(r.1 - 1), Dec12(Pack12(n)));
  }

  /** The hint just below a packed one unpacks below the size. */
  lemma HintBelowPacked(n: nat)
    requires n > 256 && 0 < Pack12(n) < 4096
    ensures Dec12(Pack12(n) - 1) < n
  {
    var x := HalfUp(n);
    var r := Normalize(x, 2);
    var m, e := r.0, r.1;
    PackedHint(n);
    NormalizeCovers(x, 2);
    var p := Pack12(n);
    if m > 128 {
      var big, small := Pow2(e - 1), Pow2(e - 2);
      assert big == 2 * small;
      Doubling(m - 1, small, big);
      if p - 1 > 256 {
        assert (p - 1) / 128 == e && (p - 1) % 128 == m - 129;
        assert Dec12(p - 1) == (m as int - 1) * big;
      }
    } else {
      NormalizeShape(x, 2);
      assert e >= 3;
      NormalizeMinimal(x, 2);
      var big, small := Pow2(e - 2), Pow2(e - 3);
      assert big == 2 * small;
      Doubling(255, small, big);
      assert (p - 1) / 128 == e - 1 && (p - 1) % 128 == 127;
      assert Dec12(p - 1) == 255 * big;
    }
  }

  /**
   * The packing is the least hint that covers the size: every smaller
   * hint unpacks below it.
   */
  lemma Pack12Least(n: nat, h: nat)
    requires h < Pack12(n) < 4096
    ensures Dec12(h) < n
  {
    if n > 256 {
      PackedHint(n);
      HintBelowPacked(n);
      if h < Pack12(n) - 1 {
        Dec12Increasing(h, Pack12(n) - 1);
      }
    }
  }

  /** A hint unpacks to a value below 2^32 exactly when it is at most `ENC12_MAX32`. */
  lemma Dec12Max32(h: nat)
    requires h < 4096
    ensures Dec12(h) < Pow2(32) <==> h <= ENC12_MAX32
  {
    Pow2Values();
    if h > 256 {
      var m, e := h % 128 + 128, h / 128 - 1;
      assert Dec12(h) == m * Pow2(e);
      if e <= 24 {
        Pow2Monotone(e, 24);
        MulStrict(m, 256, Pow2(e));
        MulMonotone(Pow2(e), Pow2(24), 256);
      } else {
        Pow2Monotone(25, e);
        MulMonotone(Pow2(25), Pow2(e), 128);
        MulMonotone(128, m, Pow2(e));
      }
    }
  }
}
