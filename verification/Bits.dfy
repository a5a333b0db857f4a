/** Binary length, lowest bit and right shift, as the BAR configuration uses them. */
module Bits {
  function Pow2(n: nat): (p: nat)
    ensures p > 0
  {
    if n == 0 then 1 else 2 * Pow2(n - 1)
  }

  /** `v >> n` */
  function Shr(v: nat, n: nat): nat { if n == 0 then v else Shr(v / 2, n - 1) }

  /** `64 - v.leading_zeros()` */
  function BitLength(v: nat): nat { if v == 0 then 0 else 1 + BitLength(v / 2) }

  /** `v & v.wrapping_neg()` */
  function LowestBit(v: nat): nat
  {
    if v == 0 then 0 else if v % 2 == 1 then 1 else 2 * LowestBit(v / 2)
  }

  /** The largest power of two not above n. */
  function FloorPow2(n: nat): (p: nat)
    requires n > 0
    ensures 0 < p <= n < 2 * p
  {
    if n == 1 then 1 else 2 * FloorPow2(n / 2)
  }

  lemma Pow2UpTo16()
    ensures Pow2(4) == 0x10 && Pow2(8) == 0x100 && Pow2(10) == 0x400 && Pow2(16) == 0x1_0000
  {
  }

  lemma Pow2UpTo48()
    ensures Pow2(36) == 0x10_0000_0000 && Pow2(40) == 0x100_0000_0000 && Pow2(42) == 0x400_0000_0000
    ensures Pow2(44) == 0x1000_0000_0000 && Pow2(46) == 0x4000_0000_0000 && Pow2(48) == 0x1_0000_0000_0000
  {
    Pow2UpTo16();
    assert Pow2(26) == 0x400 * Pow2(16);
    assert Pow2(36) == 0x400 * Pow2(26);
    assert Pow2(40) == 0x10 * Pow2(36);
    assert Pow2(42) == 4 * Pow2(40);
    assert Pow2(44) == 4 * Pow2(42);
    assert Pow2(46) == 4 * Pow2(44);
    assert Pow2(48) == 4 * Pow2(46);
  }

  lemma {:induction false} OneMore(b: nat, p: nat, q: nat)
    requires p < q
    ensures p * b + b <= q * b
  {
    if q > p + 1 { OneMore(b, p, q - 1); }
  }

  /** Quotient and remainder are unique. */
  lemma QuotientIs(v: nat, b: nat, q: nat, r: nat)
    requires r < b && v == q * b + r
    ensures v / b == q && v % b == r
  {
    var p := v / b;
    assert v == p * b + v % b;
    if p < q { OneMore(b, p, q); }
    if q < p { OneMore(b, q, p); }
  }

  /** Dividing by 2 and then by b. */
  lemma HalfThen(v: nat, b: nat)
    requires b > 0
    ensures v / 2 / b == v / (2 * b) && v % (2 * b) == 2 * (v / 2 % b) + v % 2
  {
    var q, r := v / 2 / b, v / 2 % b;
    assert v / 2 == q * b + r;
    assert q * (2 * b) == 2 * (q * b);
    QuotientIs(v, 2 * b, q, 2 * r + v % 2);
  }

  lemma {:induction false} ShrDivides(v: nat, n: nat)
    ensures Shr(v, n) == v / Pow2(n)
  {
    if n != 0 {
      ShrDivides(v / 2, n - 1);
      HalfThen(v, Pow2(n - 1));
    }
  }

  /** The position of the lowest set bit, the way the truncation check computes it. */
  lemma {:induction false} TrailingZeros(v: nat, n: nat)
    requires v > 0
    ensures BitLength(LowestBit(v)) > 0
    ensures BitLength(LowestBit(v)) - 1 < n <==> v % Pow2(n) != 0
  {
    if n != 0 { HalfThen(v, Pow2(n - 1)); }
    if v % 2 == 1 {
      assert BitLength(1) == 1 + BitLength(0);
    } else {
      if n == 0 { TrailingZeros(v / 2, 0); } else { TrailingZeros(v / 2, n - 1); }
      assert LowestBit(v) / 2 == LowestBit(v / 2);
    }
  }

  lemma {:induction false} BitLengthBound(v: nat, n: nat)
    ensures BitLength(v) <= n <==> v < Pow2(n)
  {
    if v != 0 && n != 0 {
      BitLengthBound(v / 2, n - 1);
    }
  }
}
