/** Bitwise long division of `btc-types/src/u256.rs`, and the work function built on it. */
module Division {
  import opened Arith
  import opened Wide

  /** In a limb that is a multiple of 2^(s+1), `|= 1 << s` adds 2^s without overflow. */
  lemma SetFreeBit(x: nat, k: nat, s: nat)
    requires s < 128 && x < TWO128 && x == k * (2 * Pow2(s))
    ensures SetBit(x, s) == x + Pow2(s) < TWO128
  {
    LimbEnd(s);
    EvenDigit(x, k, Pow2(s));
    NextMultiple(k, 2 * Pow2(s), Pow2(127 - s), x);
  }

  lemma EvenDigit(x: nat, k: nat, p: nat)
    requires p > 0 && x == k * (2 * p)
    ensures (x / p) % 2 == 0
  {
    assert x == (2 * k) * p;
    DivModUnique(x, p, 2 * k, 0);
    DivModUnique(2 * k, 2, k, 0);
  }

  lemma LimbEnd(s: nat)
    requires s < 128
    ensures (2 * Pow2(s)) * Pow2(127 - s) == TWO128
  {
    Pow2Limbs();
    Pow2Add(s + 1, 127 - s);
  }

  lemma NextMultiple(k: nat, m: nat, w: nat, x: nat)
    requires m > 0 && x == k * m && x < m * w
    ensures x + m <= m * w
  {
    if k >= w {
      MulMono(w, k, m);
    } else {
      MulMono(k + 1, w, m);
    }
  }

  /** A divisor shifted to the bit length of the dividend fits 256 bits and exceeds half of it. */
  lemma ShiftedDivisor(n: nat, d: nat, shift: nat)
    requires d > 0 && BitLen(n) == BitLen(d) + shift <= 256
    ensures shift % 256 == shift && (d * Pow2(shift)) % TWO256 == Scaled(d, shift)
    ensures n < 2 * Scaled(d, shift)
  {
    BitLenBounds(d);
    BitLenBounds(n);
    AlignBits(d, BitLen(d), shift);
    FitsWide(d, shift, BitLen(n));
  }

  lemma FitsWide(d: nat, shift: nat, bits: nat)
    requires Scaled(d, shift) < Pow2(bits) && bits <= 256
    ensures (d * Pow2(shift)) % TWO256 == Scaled(d, shift)
  {
    ScaledIsProduct(d, shift);
    BelowWide(Scaled(d, shift), bits);
    DivModUnique(d * Pow2(shift), TWO256, 0, Scaled(d, shift));
  }

  lemma BelowWide(x: nat, bits: nat)
    requires x < Pow2(bits) && bits <= 256
    ensures x < TWO256
  {
    Pow2Mono(bits, 256);
    Pow2Limbs();
  }

  lemma AlignBits(d: nat, bits: nat, shift: nat)
    requires bits > 0 && Pow2(bits - 1) <= d < Pow2(bits)
    ensures Scaled(d, shift) < Pow2(bits + shift) <= 2 * Scaled(d, shift)
  {
    ScaledIsProduct(d, shift);
    Pow2Add(bits, shift);
    Pow2Add(bits - 1, shift);
    MulMono(d + 1, Pow2(bits), Pow2(shift));
    MulMono(Pow2(bits - 1), d, Pow2(shift));
    assert (d + 1) * Pow2(shift) == d * Pow2(shift) + Pow2(shift);
  }

  /** `x << s` on unbounded numbers. */
  ghost function Scaled(x: nat, s: nat): nat {
    if s == 0 then x else 2 * Scaled(x, s - 1)
  }

  lemma {:induction false} ScaledIsProduct(x: nat, s: nat)
    ensures Scaled(x, s) == x * Pow2(s)
  {
    if s > 0 {
      ScaledIsProduct(x, s - 1);
      assert x * (2 * Pow2(s - 1)) == 2 * (x * Pow2(s - 1));
    }
  }

  lemma {:induction false} ScaledSum(x: nat, y: nat, s: nat)
    ensures Scaled(2 * x + y, s) == Scaled(x, s + 1) + Scaled(y, s)
  {
    if s > 0 {
      ScaledSum(x, y, s - 1);
    }
  }

  ghost predicate IsProduct(p: int, x: int, y: int) {
    p == x * y
  }

  /** Deciding bit `shift`: it joins the quotient digits `k`, and `k * d` follows. */
  lemma DecideBit(k: nat, bit: nat, d: nat, kd: nat, shift: nat)
    requires bit <= 1 && IsProduct(kd, k, d)
    ensures IsProduct(2 * kd + bit * d, 2 * k + bit, d)
    ensures Scaled(2 * k + bit, shift) == Scaled(k, shift + 1) + (if bit == 1 then Pow2(shift) else 0)
    ensures Scaled(2 * kd + bit * d, shift)
            == Scaled(kd, shift + 1) + (if bit == 1 then Scaled(d, shift) else 0)
  {
    assert (2 * k + bit) * d == 2 * (k * d) + bit * d;
    ScaledSum(k, bit, shift);
    ScaledSum(kd, bit * d, shift);
    ScaledIsProduct(bit, shift);
    ScaledIsProduct(0, shift);
  }

  /** Quotient and remainder by shift and subtract; the source panics on a zero divisor. */
  method DivRem(dividend: U256, divisor: U256) returns (quotient: U256, remainder: U256)
    requires !divisor.IsZero()
    ensures quotient.Val() == dividend.Val() / divisor.Val()
    ensures remainder.Val() == dividend.Val() % divisor.Val()
  {
    var myBits, yourBits := Bits(dividend), Bits(divisor);
    // Early return in case the divisor is longer.
    if myBits < yourBits {
      ShorterDividend(dividend.Val(), divisor.Val());
      return ZERO, dividend;
    }
    quotient, remainder := LongDivision(dividend, divisor, myBits - yourBits);
  }

  /** `ret[1 - shift / 128] |= 1 << (shift % 128)` for a quotient whose bits up to `shift` are zero. */
  method SetQuotientBit(high: nat, low: nat, shift: nat, ghost k: nat) returns (high': nat, low': nat)
    requires shift < 256 && high < TWO128 && low < TWO128
    requires high * TWO128 + low == Scaled(k, shift + 1)
    ensures high' < TWO128 && low' < TWO128
    ensures high' * TWO128 + low' == high * TWO128 + low + Pow2(shift)
  {
    QuotientBit(high, low, k, shift);
    high', low' := high, low;
    if shift / 128 == 1 {
      high' := SetBit(high, shift % 128);
    } else {
      low' := SetBit(low, shift % 128);
    }
  }

  method Align(dividend: U256, divisor: U256, shift: nat) returns (r: U256)
    requires !divisor.IsZero() && Bits(dividend) == Bits(divisor) + shift
    ensures shift < 256
    ensures r.Val() == Scaled(divisor.Val(), shift) && dividend.Val() < 2 * r.Val()
  {
    ShiftedDivisor(dividend.Val(), divisor.Val(), shift);
    r := WrappingShl(divisor, shift);
  }

  /** The loop of the division, from the shift that aligns the two bit lengths down to zero. */
  method LongDivision(dividend: U256, divisor: U256, align: nat) returns (quotient: U256, remainder: U256)
    requires !divisor.IsZero() && Bits(dividend) == Bits(divisor) + align
    ensures quotient.Val() == dividend.Val() / divisor.Val()
    ensures remainder.Val() == dividend.Val() % divisor.Val()
  {
    ghost var n, d := dividend.Val(), divisor.Val();
    var subCopy, shift := dividend, align;
    var shiftCopy := Align(dividend, divisor, shift);
    var retHigh, retLow := 0, 0;
    ghost var k: nat, kd: nat := 0, 0;  // quotient bits above `shift`, and their product with d
    ScaledIsProduct(0, shift + 1);
    while true
      invariant 0 <= shift < 256
      invariant 0 <= retHigh < TWO128 && 0 <= retLow < TWO128
      invariant retHigh * TWO128 + retLow == Scaled(k, shift + 1)
      invariant shiftCopy.Val() == Scaled(d, shift)
      invariant subCopy.Val() < 2 * shiftCopy.Val()
      invariant IsProduct(kd, k, d) && n == Scaled(kd, shift + 1) + subCopy.Val()
      decreases shift
    {
      ValFaithful(subCopy, shiftCopy);
      if !subCopy.Less(shiftCopy) {
        retHigh, retLow := SetQuotientBit(retHigh, retLow, shift, k);
        var difference, _ := OverflowingSub(subCopy, shiftCopy);
        subCopy := difference;
        DecideBit(k, 1, d, kd, shift);
        k, kd := 2 * k + 1, 2 * kd + d;
      } else {
        DecideBit(k, 0, d, kd, shift);
        k, kd := 2 * k, 2 * kd;
      }
      shiftCopy := Half(shiftCopy);
      if shift == 0 {
        quotient, remainder := U256(retHigh, retLow), subCopy;
        LastBit(n, d, k, kd, quotient.Val(), remainder.Val());
        return;
      }
      shift := shift - 1;
    }
  }

  /** With all bits decided, the digits are the quotient and what is left is the remainder. */
  lemma LastBit(n: nat, d: nat, k: nat, kd: nat, quotient: nat, remainder: nat)
    requires d > 0 && IsProduct(kd, k, d) && quotient == Scaled(k, 0)
    requires n == Scaled(kd, 0) + remainder && remainder < Scaled(d, 0)
    ensures quotient == n / d && remainder == n % d
  {
    DivModUnique(n, d, k, remainder);
  }

  lemma ShorterDividend(n: nat, d: nat)
    requires BitLen(n) < BitLen(d)
    ensures d > 0 && n / d == 0 && n % d == n
  {
    BitLenBounds(n);
    BitLenBounds(d);
    Pow2Mono(BitLen(n), BitLen(d) - 1);
    DivModUnique(n, d, 0, n);
  }

  /** Setting bit `shift` through its limb adds 2^shift to a quotient with free low bits. */
  lemma QuotientBit(hi: nat, lo: nat, k: nat, shift: nat)
    requires shift < 256 && hi < TWO128 && lo < TWO128
    requires hi * TWO128 + lo == Scaled(k, shift + 1)
    ensures shift >= 128 ==>
              && SetBit(hi, shift - 128) < TWO128
              && SetBit(hi, shift - 128) * TWO128 + lo == hi * TWO128 + lo + Pow2(shift)
    ensures shift < 128 ==>
              && SetBit(lo, shift) < TWO128
              && hi * TWO128 + SetBit(lo, shift) == hi * TWO128 + lo + Pow2(shift)
  {
    var q := hi * TWO128 + lo;
    ScaledIsProduct(k, shift + 1);
    DivModUnique(q, TWO128, hi, lo);
    if shift >= 128 {
      var p := Pow2(shift - 128);
      Pow2Limbs();
      Pow2Add(128, shift - 128);
      WordMultiple(k, p);
      DivModUnique(q, TWO128, k * (2 * p), 0);
      SetFreeBit(hi, k, shift - 128);
    } else {
      var p, w := 2 * Pow2(shift), Pow2(127 - shift);
      LimbEnd(shift);
      LowMultiple(k, p, w);
      SetFreeBit(lo, k % w, shift);
    }
  }

  lemma WordMultiple(k: nat, p: nat)
    ensures k * (2 * (TWO128 * p)) == (k * (2 * p)) * TWO128
  {
  }

  lemma LowMultiple(k: nat, p: nat, w: nat)
    requires p > 0 && w > 0
    ensures p * w > 0 && (k * p) % (p * w) == (k % w) * p
  {
    MulMono(1, w, p);
    var q, r := k / w, k % w;
    assert k * p == q * (p * w) + r * p by { assert (q * w + r) * p == q * (p * w) + r * p; }
    assert 0 <= r * p < p * w by {
      MulMono(r + 1, w, p);
      MulMono(0, r, p);
      assert (r + 1) * p == r * p + p;
    }
    DivModUnique(k * p, p * w, q, r * p);
  }

  // ---- work ----

  /** The work of a target as a number: floor(2^256 / (x + 1)), except that the source clamps
      0 and 1 to the largest 256-bit number. */
  function Work(x: nat): (w: nat)
    requires x < TWO256
  {
    if x <= 1 then TWO256 - 1 else TWO256 / (x + 1)
  }

  /** `inverse`: 2^256 / (x + 1) computed as !x / (x + 1) + 1. */
  method Inverse(x: U256) returns (r: U256)
    ensures r.Val() == Work(x.Val())
    ensures r == FromNat(Work(x.Val()))
  {
    WorkBounds(x.Val());
    if x.IsZero() {
      r := MAX;
    } else if x.IsOne() {
      r := MAX;
    } else if x.IsMax() {
      r := ONE;
      DivModUnique(TWO256, TWO256, 1, 0);
    } else {
      var next := WrappingInc(x);
      var quotient, _ := DivRem(x.Not(), next);
      InverseIdentity(x.Val());
      r := WrappingInc(quotient);
    }
    ValFaithful(r, FromNat(Work(x.Val())));
  }

  lemma InverseIdentity(x: nat)
    requires 2 <= x < TWO256 - 1
    ensures (TWO256 - 1 - x) / (x + 1) + 1 == TWO256 / (x + 1)
  {
    var d := x + 1;
    var q, r := (TWO256 - d) / d, (TWO256 - d) % d;
    assert TWO256 == (q + 1) * d + r by { assert (q + 1) * d == q * d + d; }
    DivModUnique(TWO256, d, q + 1, r);
  }

  /** Every block contributes at least one unit of work, and the work fits 256 bits. */
  lemma WorkBounds(x: nat)
    requires x < TWO256
    ensures 1 <= Work(x) < TWO256
  {
    if x > 1 {
      DivGalois(TWO256, x + 1, 1);
      DivGalois(TWO256, x + 1, TWO256);
      MulMono(2, x + 1, TWO256);
    }
  }

  /** The work of a target of at least 2 is how often the target plus one fits into 2^256; the targets
      0 and 1 have the largest 256-bit number. */
  lemma WorkIff(x: nat, w: nat)
    requires x < TWO256
    ensures x >= 2 ==> (w == Work(x) <==> w * (x + 1) <= TWO256 < (w + 1) * (x + 1))
    ensures x < 2 ==> Work(x) == TWO256 - 1
  {
    DivGalois(TWO256, x + 1, w);
    DivGalois(TWO256, x + 1, w + 1);
  }

  /** A harder (smaller) target never has less work. */
  lemma WorkAntitone(x: nat, y: nat)
    requires x <= y < TWO256
    ensures Work(x) >= Work(y)
  {
    WorkBounds(y);
    if x > 1 {
      var q := Work(y);
      DivGalois(TWO256, y + 1, q);
      MulMono(x + 1, y + 1, q);
      DivGalois(TWO256, x + 1, q);
    }
  }
}
