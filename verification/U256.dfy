/** The two-limb 256-bit integers of `btc-types/src/u256.rs`, each operation tied to the
    number its limbs stand for. */
module Wide {
  import opened Arith

  type u128 = x: int | 0 <= x < TWO128

  datatype U256 = U256(hi: u128, lo: u128) {

    /** The number the two limbs stand for. */
    function Val(): (v: nat)
      ensures v < TWO256
    {
      hi * TWO128 + lo
    }

    /** The derived ordering compares the high limb first. */
    predicate Less(rhs: U256)
    {
      hi < rhs.hi || (hi == rhs.hi && lo < rhs.lo)
    }

    predicate IsZero() { hi == 0 && lo == 0 }

    predicate IsOne() { hi == 0 && lo == 1 }

    predicate IsMax() { hi == TWO128 - 1 && lo == TWO128 - 1 }

    function Not(): (r: U256)
      ensures r.Val() == TWO256 - 1 - Val()
    {
      U256(TWO128 - 1 - hi, TWO128 - 1 - lo)
    }
  }

  const ZERO: U256 := U256(0, 0)
  const ONE: U256 := U256(0, 1)
  const MAX: U256 := U256(TWO128 - 1, TWO128 - 1)

  function FromNat(v: nat): (r: U256)
    requires v < TWO256
    ensures r.Val() == v
  {
    U256(v / TWO128, v % TWO128)
  }

  /** Limbs are determined by the number, and the limb order is the numeric order. */
  lemma ValFaithful(a: U256, b: U256)
    ensures a.Val() == b.Val() <==> a == b
    ensures a.Less(b) <==> a.Val() < b.Val()
  {
  }

  /** Wrap-around of a sum or difference of two numbers below `modulus`. */
  function Wrap(n: int, modulus: nat): (r: int)
    requires 0 <= n + modulus && n < 2 * modulus
    ensures 0 <= r < modulus
    ensures r == n || r == n - modulus || r == n + modulus
  {
    if n < 0 then n + modulus else if n < modulus then n else n - modulus
  }

  // ---- one-limb operations of the Rust standard library ----

  function Add128(a: u128, b: u128): (u128, bool) {
    (Wrap(a + b, TWO128), a + b >= TWO128)
  }

  function Mul128(a: u128, b: u128): (u128, bool) {
    MulMono(0, a, b);
    ((a * b) % TWO128, a * b >= TWO128)
  }

  function Shl128(a: u128, s: nat): u128
    requires s < 128
  {
    MulMono(0, a, Pow2(s));
    (a * Pow2(s)) % TWO128
  }

  function Shr128(a: u128, s: nat): (r: u128)
    requires s < 128
  {
    DivShrinks(a, Pow2(s));
    a / Pow2(s)
  }

  /** `x |= 1 << s` */
  function SetBit(x: nat, s: nat): nat {
    if (x / Pow2(s)) % 2 == 1 then x else x + Pow2(s)
  }

  lemma DivShrinks(a: nat, b: nat)
    requires b > 0
    ensures 0 <= a / b <= a
  {
    DivGalois(a, b, a / b);
    MulMono(1, b, a / b);
  }

  // ---- addition and subtraction ----

  method OverflowingAdd(a: U256, b: U256) returns (r: U256, overflow: bool)
    ensures r.Val() == Wrap(a.Val() + b.Val(), TWO256)
    ensures overflow <==> a.Val() + b.Val() >= TWO256
  {
    var (high, overflowHigh) := Add128(a.hi, b.hi);
    r, overflow := ZERO.(hi := high), overflowHigh;
    var (low, carry) := Add128(a.lo, b.lo);
    r := r.(lo := low);
    if carry {
      var (high', overflowCarry) := Add128(r.hi, 1);
      r := r.(hi := high');
      overflow := overflow || overflowCarry;
    }
  }

  method OverflowingSub(a: U256, b: U256) returns (r: U256, overflow: bool)
    ensures r.Val() == Wrap(a.Val() - b.Val(), TWO256)
    ensures overflow <==> a.Val() < b.Val()
  {
    var sum, _ := OverflowingAdd(a, b.Not());
    var result, _ := OverflowingAdd(sum, ONE);
    r := result;
    ValFaithful(a, b);
    overflow := a.Less(b);
  }

  method WrappingInc(a: U256) returns (r: U256)
    ensures r.Val() == Wrap(a.Val() + 1, TWO256)
  {
    r := ZERO.(lo := Wrap(a.lo + 1, TWO128));
    if r.lo == 0 {
      r := r.(hi := Wrap(a.hi + 1, TWO128));
    } else {
      r := r.(hi := a.hi);
    }
  }

  // ---- shifts ----

  /** A value times `p`, where `p * w == t`, splits at `t`. */
  lemma SplitScaled(x: nat, p: nat, w: nat, t: nat)
    requires p > 0 && w > 0 && p * w == t && x < t
    ensures x * p == (x / w) * t + (x % w) * p
    ensures 0 <= (x % w) * p <= t - p
    ensures 0 <= x / w < p
    ensures (x * p) % t == (x % w) * p
  {
    var q, r := x / w, x % w;
    assert x * p == q * t + r * p by {
      assert x == q * w + r;
      assert (q * w + r) * p == q * (p * w) + r * p;
    }
    assert 0 <= r * p <= t - p by {
      MulMono(r, w - 1, p);
      MulMono(0, r, p);
      assert (w - 1) * p == t - p;
    }
    DivModUnique(x * p, t, q, r * p);
    DivGalois(x, w, 0);
    DivGalois(x, w, p);
  }

  /** Left shift of the number `hi * t + lo` by the factor `p` within two limbs of size `t`. */
  lemma ShlNat(hi: nat, lo: nat, p: nat, w: nat, t: nat)
    requires p > 0 && w > 0 && p * w == t && hi < t && lo < t
    ensures (hi * p) % t + lo / w < t
    ensures ((hi * t + lo) * p) % (t * t) == ((hi * p) % t + lo / w) * t + (lo * p) % t
  {
    SplitScaled(hi, p, w, t);
    SplitScaled(lo, p, w, t);
    var top, mid, h, l := hi / w, lo / w, (hi * p) % t, (lo * p) % t;
    var r := (h + mid) * t + l;
    ShlAlgebra(hi, lo, p, t, top, mid, h, l);
    TwoDigits(h + mid, l, t);
    DivModUnique((hi * t + lo) * p, t * t, top, r);
  }

  lemma ShlAlgebra(hi: nat, lo: nat, p: nat, t: nat, top: nat, mid: nat, h: nat, l: nat)
    requires hi * p == top * t + h && lo * p == mid * t + l
    ensures (hi * t + lo) * p == top * (t * t) + ((h + mid) * t + l)
  {
    assert (hi * t + lo) * p == (hi * p) * t + lo * p;
    assert (top * t + h) * t == top * (t * t) + h * t;
    assert (h + mid) * t == h * t + mid * t;
  }

  lemma TwoDigits(x: nat, y: nat, t: nat)
    requires x < t && y < t
    ensures 0 <= x * t + y < t * t
  {
    MulMono(x, t - 1, t);
    MulMono(0, x, t);
    assert (t - 1) * t == t * t - t;
  }

  /** Left shift by a whole limb and a factor `p` more. */
  lemma ShlWordNat(hi: nat, lo: nat, p: nat, t: nat)
    requires p > 0 && t > 0 && lo < t
    ensures t * t > 0
    ensures ((hi * t + lo) * (t * p)) % (t * t) == ((lo * p) % t) * t
  {
    MulMono(0, lo, p);
    MulMono(1, t, t);
    var q, l := (lo * p) / t, (lo * p) % t;
    assert (hi * t + lo) * (t * p) == (hi * p + q) * (t * t) + l * t by {
      assert (hi * t + lo) * (t * p) == (hi * p) * (t * t) + (lo * p) * t;
      assert lo * p == q * t + l;
      assert (q * t + l) * t == q * (t * t) + l * t;
      assert (hi * p) * (t * t) + q * (t * t) == (hi * p + q) * (t * t);
    }
    TwoDigits(l, 0, t);
    DivModUnique((hi * t + lo) * (t * p), t * t, hi * p + q, l * t);
  }

  /** Right shift of the number `hi * t + lo` by the factor `p`. */
  lemma ShrNat(hi: nat, lo: nat, p: nat, w: nat, t: nat)
    requires p > 0 && w > 0 && p * w == t && hi < t && lo < t
    ensures lo / p + (hi * w) % t < t
    ensures (hi * t + lo) / p == (hi / p) * t + (lo / p + (hi * w) % t)
  {
    SplitScaled(hi, w, p, t);
    var q, s := hi / p, (hi * w) % t;
    var ql, rl := lo / p, lo % p;
    DivGalois(lo, p, w);
    assert hi * t + lo == (q * t + (ql + s)) * p + rl by {
      assert hi * t == (hi * w) * p;
      assert (q * t + s) * p + ql * p == (q * t + (ql + s)) * p;
    }
    DivModUnique(hi * t + lo, p, q * t + (ql + s), rl);
  }

  method WrappingShl(a: U256, rhs: nat) returns (r: U256)
    ensures r.Val() == (a.Val() * Pow2(rhs % 256)) % TWO256
  {
    var shift := rhs % 256;
    var wordShift, bitShift := shift >= 128, shift % 128;
    if wordShift {
      assert shift == 128 + bitShift;
      r := ShlLowLimb(a, bitShift);
    } else {
      assert shift == bitShift;
      r := ShlBothLimbs(a, bitShift);
    }
  }

  method ShlLowLimb(a: U256, bitShift: nat) returns (r: U256)
    requires bitShift < 128
    ensures r.Val() == (a.Val() * Pow2(128 + bitShift)) % TWO256
  {
    ShlWord(a, bitShift);
    r := U256(Shl128(a.lo, bitShift), 0);
  }

  method ShlBothLimbs(a: U256, bitShift: nat) returns (r: U256)
    requires bitShift < 128
    ensures r.Val() == (a.Val() * Pow2(bitShift)) % TWO256
  {
    if bitShift > 0 {
      ShlBits(a, bitShift);
      r := U256(Shl128(a.hi, bitShift) + Shr128(a.lo, 128 - bitShift), Shl128(a.lo, bitShift));
    } else {
      ShlNone(a);
      r := U256(Shl128(a.hi, bitShift), Shl128(a.lo, bitShift));
    }
  }

  lemma ShlBits(a: U256, s: nat)
    requires 0 < s < 128
    ensures Shl128(a.hi, s) + Shr128(a.lo, 128 - s) < TWO128
    ensures U256(Shl128(a.hi, s) + Shr128(a.lo, 128 - s), Shl128(a.lo, s)).Val()
            == (a.Val() * Pow2(s)) % TWO256
  {
    Pow2Limbs();
    Pow2Add(s, 128 - s);
    ShlNat(a.hi, a.lo, Pow2(s), Pow2(128 - s), TWO128);
  }

  lemma ShlWord(a: U256, s: nat)
    requires s < 128
    ensures U256(Shl128(a.lo, s), 0).Val() == (a.Val() * Pow2(128 + s)) % TWO256
  {
    Pow2Limbs();
    Pow2Add(128, s);
    ShlWordNat(a.hi, a.lo, Pow2(s), TWO128);
  }

  lemma ShlNone(a: U256)
    ensures U256(Shl128(a.hi, 0), Shl128(a.lo, 0)).Val() == (a.Val() * Pow2(0)) % TWO256
  {
    DivModUnique(a.Val(), TWO256, 0, a.Val());
    DivModUnique(a.hi, TWO128, 0, a.hi);
    DivModUnique(a.lo, TWO128, 0, a.lo);
  }

  method WrappingShr(a: U256, rhs: nat) returns (r: U256)
    ensures r.Val() == a.Val() / Pow2(rhs % 256)
  {
    var shift := rhs % 256;
    var wordShift, bitShift := shift >= 128, shift % 128;
    if wordShift {
      ShrWord(a, bitShift);
      r := U256(0, Shr128(a.hi, bitShift));
    } else if bitShift > 0 {
      ShrBits(a, bitShift);
      r := U256(Shr128(a.hi, bitShift), Shr128(a.lo, bitShift) + Shl128(a.hi, 128 - bitShift));
    } else {
      ShrNone(a);
      r := U256(Shr128(a.hi, bitShift), Shr128(a.lo, bitShift));
    }
  }

  lemma ShrBits(a: U256, s: nat)
    requires 0 < s < 128
    ensures Shr128(a.lo, s) + Shl128(a.hi, 128 - s) < TWO128
    ensures U256(Shr128(a.hi, s), Shr128(a.lo, s) + Shl128(a.hi, 128 - s)).Val()
            == a.Val() / Pow2(s)
  {
    Pow2Limbs();
    Pow2Add(s, 128 - s);
    ShrNat(a.hi, a.lo, Pow2(s), Pow2(128 - s), TWO128);
  }

  lemma ShrWord(a: U256, s: nat)
    requires s < 128
    ensures U256(0, Shr128(a.hi, s)).Val() == a.Val() / Pow2(128 + s)
  {
    Pow2Limbs();
    Pow2Add(128, s);
    DivModUnique(a.Val(), TWO128, a.hi, a.lo);
    DivDiv(a.Val(), TWO128, Pow2(s));
  }

  lemma ShrNone(a: U256)
    ensures U256(Shr128(a.hi, 0), Shr128(a.lo, 0)).Val() == a.Val() / Pow2(0)
  {
  }

  /** `a >> 1`. */
  method Half(a: U256) returns (r: U256)
    ensures r.Val() == a.Val() / 2
  {
    assert Pow2(1) == 2;
    r := WrappingShr(a, 1);
  }

  // ---- bit length ----

  /** Least number of bits that represent the number. */
  function Bits(a: U256): (b: nat)
    ensures b == BitLen(a.Val()) && b <= 256
  {
    BitsValue(a);
    if a.hi > 0 then 256 - (128 - BitLen(a.hi)) else 128 - (128 - BitLen(a.lo))
  }

  lemma BitLenLimit(v: nat)
    requires v < TWO256
    ensures BitLen(v) <= 256
  {
    Pow2Limbs();
    BitLenUnique(TWO256 - 1, 256);
    BitLenMono(v, TWO256 - 1);
  }

  lemma BitsValue(a: U256)
    ensures BitLen(a.hi) <= 128 && BitLen(a.lo) <= 128
    ensures a.hi > 0 ==> BitLen(a.Val()) == 128 + BitLen(a.hi)
  {
    Pow2Limbs();
    BitLenUnique(TWO128 - 1, 128);
    BitLenMono(a.hi, TWO128 - 1);
    BitLenMono(a.lo, TWO128 - 1);
    if a.hi > 0 {
      HighBits(a.hi, a.lo, BitLen(a.hi));
    }
  }

  lemma HighBits(hi: nat, lo: nat, k: nat)
    requires hi > 0 && lo < TWO128 && k == BitLen(hi)
    ensures BitLen(hi * TWO128 + lo) == 128 + k
  {
    BitLenBounds(hi);
    Pow2Limbs();
    Pow2Add(128, k);
    Pow2Add(128, k - 1);
    MulMono(Pow2(k - 1), hi, TWO128);
    MulMono(hi + 1, Pow2(k), TWO128);
    BitLenUnique(hi * TWO128 + lo, 128 + k);
  }

  // ---- multiplication by a 64-bit factor ----

  type u64 = x: int | 0 <= x < TWO64

  /** The source estimates the carry out of the low limb from that limb's upper half alone. */
  function EstimatedCarry(lo: nat, rhs: nat): nat {
    ((lo / TWO64) * rhs) / TWO64
  }

  /** The lower half would have contributed one more unit of carry. */
  predicate DropsCarry(lo: nat, rhs: nat) {
    ((lo / TWO64) * rhs) % TWO64 + ((lo % TWO64) * rhs) / TWO64 >= TWO64
  }

  function OverflowingMul(a: U256, rhs: u64): (r: (U256, bool)) {
    var (high, overflow) := Mul128(a.hi, rhs);
    var (low, overflowLow) := Mul128(a.lo, rhs);
    if !overflowLow then
      (U256(high, low), overflow)
    else
      var carry := EstimatedCarry(a.lo, rhs);
      CarrySmall(a.lo, rhs);
      var (high', overflowAdd) := Add128(high, carry);
      (U256(high', low), overflow || overflowAdd)
  }

  lemma CarrySmall(lo: u128, rhs: u64)
    ensures 0 <= EstimatedCarry(lo, rhs) < TWO64
  {
    CarryDigit(lo / TWO64, rhs, TWO64);
  }

  /** The true carry is the estimate, plus one exactly when the estimate drops a unit. */
  lemma TrueCarry(lo: u128, rhs: u64)
    ensures lo * rhs >= 0
    ensures (lo * rhs) / TWO128
            == EstimatedCarry(lo, rhs) + (if DropsCarry(lo, rhs) then 1 else 0)
  {
    var t := TWO64;
    var a, b := lo / t, lo % t;
    CarryDigit(a, rhs, t);
    CarryDigit(b, rhs, t);
    CarryOfDigits(a, b, rhs, t, (a * rhs) / t, (b * rhs) / t, (a * rhs) % t, (b * rhs) % t);
  }

  lemma CarryOfDigits(a: nat, b: nat, m: nat, t: nat, qa: nat, qb: nat, ra: nat, rb: nat)
    requires a * m == qa * t + ra && b * m == qb * t + rb
    requires ra < t && rb < t && qb < t
    ensures t * t > 0 && (a * t + b) * m >= 0
    ensures ((a * t + b) * m) / (t * t) == qa + (if ra + qb >= t then 1 else 0)
  {
    var x := ra + qb;
    var p := (a * t + b) * m;
    MulMono(1, t, t);
    ShlAlgebra(a, b, m, t, qa, qb, ra, rb);
    if x < t {
      TwoDigits(x, rb, t);
      DivModUnique(p, t * t, qa, x * t + rb);
    } else {
      TwoDigits(x - t, rb, t);
      CarryShift(qa, x, rb, t);
      DivModUnique(p, t * t, qa + 1, (x - t) * t + rb);
    }
  }

  lemma CarryDigit(a: nat, m: nat, t: nat)
    requires a < t && m < t
    ensures a * m >= 0
    ensures 0 <= (a * m) / t < t
  {
    BelowSquare(a, m, t);
    DivGalois(a * m, t, t);
    DivGalois(a * m, t, 0);
  }

  lemma BelowSquare(a: int, m: int, t: int)
    requires 0 <= a < t && 0 <= m < t
    ensures 0 <= a * m < t * t
  {
    MulMono(0, a, m);
    MulMono(a, t, m);
    MulMono(m + 1, t, t);
    assert t * (m + 1) == t * m + t;
  }

  lemma CarryShift(q: int, x: int, y: int, t: int)
    ensures q * (t * t) + (x * t + y) == (q + 1) * (t * t) + ((x - t) * t + y)
  {
    assert (x - t) * t == x * t - t * t;
    assert (q + 1) * (t * t) == q * (t * t) + t * t;
  }

  /** What the multiplication computes, for every input. With the flag clear the result is the
      product, or exactly 2^128 less; the latter happens if and only if the carry estimate drops
      a unit. A raised flag never lies, and it is complete when no carry is dropped. */
  lemma MulResult(a: U256, rhs: u64)
    ensures var (r, overflow) := OverflowingMul(a, rhs);
            var product := a.Val() * rhs;
            && (!overflow ==> r.Val() == product - (if DropsCarry(a.lo, rhs) then TWO128 else 0))
            && (overflow ==> product >= TWO256)
            && (!DropsCarry(a.lo, rhs) ==> (overflow <==> product >= TWO256))
  {
    var est, drop := EstimatedCarry(a.lo, rhs), if DropsCarry(a.lo, rhs) then 1 else 0;
    TrueCarry(a.lo, rhs);
    MulMono(0, a.hi, rhs);
    MulMono(0, a.lo, rhs);
    assert TWO64 * TWO64 == TWO128;
    var low := (a.lo * rhs) % TWO128;
    assert a.lo * rhs == (est + drop) * TWO128 + low;
    assert a.Val() * rhs == (a.hi * rhs + est + drop) * TWO128 + low by {
      assert a.Val() * rhs == (a.hi * rhs) * TWO128 + a.lo * rhs;
    }
    var (r, overflow) := OverflowingMul(a, rhs);
    assert overflow <==> a.hi * rhs + est >= TWO128 by { HighOverflow(a, rhs); }
    if !overflow {
      assert r.Val() == (a.hi * rhs + est) * TWO128 + low by { HighOverflow(a, rhs); }
    }
  }

  /** The result and the flag are what a caller expects. */
  predicate MulCorrect(a: U256, rhs: u64) {
    var (r, overflow) := OverflowingMul(a, rhs);
    && (overflow <==> a.Val() * rhs >= TWO256)
    && (!overflow ==> r.Val() == a.Val() * rhs)
  }

  /** The multiplication is correct exactly when no carry is dropped, or when it overflows in the
      high limb anyway. */
  lemma MulCorrectIff(a: U256, rhs: u64)
    ensures MulCorrect(a, rhs)
            <==> !DropsCarry(a.lo, rhs) || a.hi * rhs + EstimatedCarry(a.lo, rhs) >= TWO128
  {
    MulResult(a, rhs);
    HighOverflow(a, rhs);
  }

  /** A product that comes out 2^128 short with the flag clear; the factor is the span of a Zcash
      retarget whose blocks came exactly on time. */
  lemma MulLosesCarry()
    ensures var a := U256(0, 0x6699_cd00_3366_99cd_0063_c72a_8df1_54b8);
            var (r, overflow) := OverflowingMul(a, 1275);
            !overflow && r.Val() == a.Val() * 1275 - TWO128
  {
    var a := U256(0, 0x6699_cd00_3366_99cd_0063_c72a_8df1_54b8);
    assert DropsCarry(a.lo, 1275);
    MulResult(a, 1275);
    HighOverflow(a, 1275);
  }

  lemma HighOverflow(a: U256, rhs: u64)
    ensures var (r, overflow) := OverflowingMul(a, rhs);
            var high := a.hi * rhs + EstimatedCarry(a.lo, rhs);
            && (overflow <==> high >= TWO128)
            && (!overflow ==> r == U256(high, (a.lo * rhs) % TWO128))
  {
    TrueCarry(a.lo, rhs);
    CarrySmall(a.lo, rhs);
    MulMono(0, a.hi, rhs);
    MulMono(0, a.lo, rhs);
    var h := a.hi * rhs;
    if h < TWO128 {
      DivModUnique(h, TWO128, 0, h);
    }
    if a.lo * rhs < TWO128 {
      DivModUnique(a.lo * rhs, TWO128, 0, a.lo * rhs);
    }
  }

  lemma LowHalf(v: nat)
    ensures (v % TWO128) % TWO64 == v % TWO64
  {
    assert TWO128 == TWO64 * TWO64;
    var q, r := v / TWO128, v % TWO128;
    var q2, r2 := r / TWO64, r % TWO64;
    DivModUnique(v, TWO64, q * TWO64 + q2, r2);
  }
}
