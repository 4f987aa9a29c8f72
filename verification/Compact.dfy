/** The compact "nBits" form of 256-bit targets: `target_to_bits` of `btc-types/src/u256.rs` and
    `target_from_bits`, `work_from_bits` of `btc-types/src/utils.rs`. */
module Compact {
  import opened Arith
  import opened Wide
  import Division

  const EXPONENT_UNIT: nat := 0x100_0000  // the exponent sits above the three mantissa bytes
  const SIGN_BIT: nat := 0x80_0000

  type u32 = x: int | 0 <= x < 0x1_0000_0000

  /** 256^k */
  function Bytes(k: nat): (r: nat)
    ensures r > 0
  {
    Pow2(8 * k)
  }

  // ---- reference form ----

  /** The least number of bytes that leaves the top bit of the leading byte clear. */
  function Exponent(v: nat): nat {
    if v == 0 then 0 else BitLen(v) / 8 + 1
  }

  /** The three leading bytes of `v` written with `e` bytes: floor(v * 256^(3 - e)). */
  function Leading(v: nat, e: nat): nat {
    DivGalois(v * EXPONENT_UNIT, Bytes(e), 0);
    (v * EXPONENT_UNIT) / Bytes(e)
  }

  function Encode(v: nat): nat {
    Exponent(v) * EXPONENT_UNIT + Leading(v, Exponent(v))
  }

  /** The source decodes any 32-bit word; shift amounts wrap at 256. */
  function Decode(bits: u32): (t: nat)
    ensures t < TWO256
  {
    var e, m := bits / EXPONENT_UNIT, bits % EXPONENT_UNIT;
    var mant := if e <= 3 then m / Bytes(3 - e) else m;
    if mant >= SIGN_BIT then 0
    else if e <= 3 then DecodeSmall(m, e); mant
    else (mant * Pow2((8 * (e - 3)) % 256)) % TWO256
  }

  lemma DecodeSmall(m: nat, e: nat)
    requires m < EXPONENT_UNIT && e <= 3
    ensures 0 <= m / Bytes(3 - e) <= m
  {
    DivShrinks(m, Bytes(3 - e));
  }

  // ---- the range of exponent and mantissa ----

  lemma ExponentBrackets(v: nat)
    requires 0 < v < TWO256
    ensures 1 <= Exponent(v) <= 33
    ensures v < Pow2(8 * Exponent(v) - 1)
    ensures Exponent(v) >= 2 ==> Pow2(8 * Exponent(v) - 9) <= v
  {
    var l, e := BitLen(v), Exponent(v);
    BitLenBounds(v);
    BitLenLimit(v);
    Pow2Mono(l, 8 * e - 1);
    if e >= 2 {
      Pow2Mono(8 * e - 9, l - 1);
    }
  }

  /** The bracket determines the exponent. */
  lemma ExponentUnique(v: nat, e: nat)
    requires v > 0 && e >= 1 && v < Pow2(8 * e - 1)
    requires e >= 2 ==> Pow2(8 * e - 9) <= v
    ensures Exponent(v) == e
  {
    BitLenBounds(v);
    var l := BitLen(v);
    if l >= 8 * e {
      Pow2Mono(8 * e - 1, l - 1);
    }
    if e >= 2 && l < 8 * e - 8 {
      Pow2Mono(l, 8 * e - 9);
    }
  }

  lemma LeadingAtLeast(v: nat, e: nat, c: nat)
    ensures c <= Leading(v, e) <==> c * Bytes(e) <= v * EXPONENT_UNIT
  {
    DivGalois(v * EXPONENT_UNIT, Bytes(e), c);
  }

  lemma LeadingRange(v: nat)
    requires 0 < v < TWO256
    ensures 0x8000 <= Leading(v, Exponent(v)) < SIGN_BIT
  {
    var e := Exponent(v);
    ExponentBrackets(v);
    SignBit(v, e);
    if e >= 2 {
      TopByteSet(v, e);
    } else {
      LeadingAtLeast(v, e, 0x8000);
      Pow2Small();
    }
  }

  lemma TopByteSet(v: nat, e: nat)
    requires e >= 2 && Pow2(8 * e - 9) <= v
    ensures 0x8000 <= Leading(v, e)
  {
    Pow2Small();
    Pow2Scale(8 * e - 9, 24, 15, 8 * e);
    MulMono(Pow2(8 * e - 9), v, EXPONENT_UNIT);
    LeadingAtLeast(v, e, 0x8000);
  }

  lemma Pow2Scale(a: nat, b: nat, c: nat, d: nat)
    requires a + b == c + d
    ensures Pow2(a) * Pow2(b) == Pow2(c) * Pow2(d) == Pow2(a + b)
  {
    Pow2Add(a, b);
    Pow2Add(c, d);
  }

  /** The sign bit of the leading bytes is the top bit of a value of `n` bytes. */
  lemma SignBit(v: nat, n: nat)
    requires n >= 1
    ensures Leading(v, n) >= SIGN_BIT <==> v >= Pow2(8 * n - 1)
  {
    Pow2Small();
    Pow2Scale(8 * n - 1, 24, 23, 8 * n);
    LeadingAtLeast(v, n, SIGN_BIT);
    var p := Pow2(8 * n - 1);
    assert SIGN_BIT * Bytes(n) == p * EXPONENT_UNIT;
  }

  lemma ThreeBytes(v: nat, n: nat)
    requires v < Bytes(n)
    ensures Leading(v, n) < EXPONENT_UNIT
  {
    LeadingAtLeast(v, n, EXPONENT_UNIT);
  }

  lemma DropByte(v: nat, n: nat)
    ensures Leading(v, n) / 256 == Leading(v, n + 1)
  {
    Pow2Small();
    Pow2Scale(8 * n, 8, 8 * n + 8, 0);
    DivDiv(v * EXPONENT_UNIT, Bytes(n), 256);
  }

  // ---- the source's encoder refines the reference form ----

  method TargetToBits(target: U256) returns (bits: u32)
    ensures bits == Encode(target.Val())
  {
    var nSize := (Bits(target) + 7) / 8;
    var nCompact := ThreeLeadingBytes(target, nSize);
    EncoderForm(target.Val(), nSize, nCompact);
    if (nCompact / SIGN_BIT) % 2 != 0 {
      nCompact := nCompact / 256;
      nSize := nSize + 1;
    }
    // the exponent is or-ed into bits that the mantissa leaves clear
    bits := nCompact + nSize * EXPONENT_UNIT;
  }

  method ThreeLeadingBytes(target: U256, nSize: nat) returns (nCompact: nat)
    requires nSize == (Bits(target) + 7) / 8
    ensures nCompact == Leading(target.Val(), nSize) < EXPONENT_UNIT
  {
    ghost var v := target.Val();
    SizeFits(v, nSize);
    if nSize <= 3 {
      SmallTarget(target, nSize);
      nCompact := Shl128(target.lo, 8 * (3 - nSize));
    } else {
      var shifted := WrappingShr(target, 8 * (nSize - 3));
      LargeTarget(v, nSize, shifted.Val());
      FewBits(shifted);
      nCompact := shifted.lo % EXPONENT_UNIT;
    }
  }

  lemma SizeFits(v: nat, n: nat)
    requires v < TWO256 && n == (BitLen(v) + 7) / 8
    ensures n <= 32 && v < Bytes(n) && Leading(v, n) < EXPONENT_UNIT
  {
    BitLenBounds(v);
    BitLenLimit(v);
    Pow2Mono(BitLen(v), 8 * n);
    ThreeBytes(v, n);
  }

  lemma FewBits(x: U256)
    requires x.Val() < EXPONENT_UNIT
    ensures x.lo % EXPONENT_UNIT == x.Val()
  {
  }

  lemma SmallTarget(target: U256, n: nat)
    requires n <= 3 && target.Val() < Bytes(n)
    ensures Shl128(target.lo, 8 * (3 - n)) == Leading(target.Val(), n)
  {
    var v, p, w := target.Val(), Bytes(n), Bytes(3 - n);
    Pow2Mono(8 * n, 24);
    Pow2Small();
    Pow2Scale(8 * n, 8 * (3 - n), 24, 0);
    ScaledDown(v, p, w);
    FitsLimb(v * w);
  }

  lemma FitsLimb(x: nat)
    requires x < EXPONENT_UNIT
    ensures x % TWO128 == x
  {
  }

  lemma ScaledDown(v: nat, p: nat, w: nat)
    requires v < p && p * w == EXPONENT_UNIT
    ensures 0 <= v * w < EXPONENT_UNIT && (v * EXPONENT_UNIT) / p == v * w
  {
    MulMono(0, v, w);
    MulMono(v + 1, p, w);
    assert (v + 1) * w == v * w + w;
    assert v * (p * w) == (v * w) * p;
    DivModUnique(v * EXPONENT_UNIT, p, v * w, 0);
  }

  lemma LargeTarget(v: nat, n: nat, shifted: nat)
    requires 3 < n <= 32 && shifted == v / Pow2((8 * (n - 3)) % 256)
    ensures shifted == Leading(v, n)
  {
    DivModUnique(8 * (n - 3), 256, 0, 8 * (n - 3));
    Pow2Small();
    Pow2Scale(24, 8 * (n - 3), 8 * n, 0);
    DivModUnique(v * EXPONENT_UNIT, EXPONENT_UNIT, v, 0);
    DivDiv(v * EXPONENT_UNIT, EXPONENT_UNIT, Bytes(n - 3));
  }

  /** The two outcomes of the encoder's sign test. */
  lemma EncoderForm(v: nat, n: nat, m: nat)
    requires v < TWO256 && n == (BitLen(v) + 7) / 8 && m == Leading(v, n) < EXPONENT_UNIT
    ensures n <= 32
    ensures (m / SIGN_BIT) % 2 != 0 ==> Encode(v) == m / 256 + (n + 1) * EXPONENT_UNIT
    ensures (m / SIGN_BIT) % 2 == 0 ==> Encode(v) == m + n * EXPONENT_UNIT
  {
    EncoderSize(v);
    SignTest(m);
    if m >= SIGN_BIT {
      DropByte(v, n);
    }
  }

  lemma SignTest(m: nat)
    requires m < EXPONENT_UNIT
    ensures (m / SIGN_BIT) % 2 != 0 <==> m >= SIGN_BIT
  {
  }

  lemma WholeBytes(l: nat, n: nat)
    requires n == (l + 7) / 8
    ensures l <= 8 * n && (l > 0 ==> l / 8 + 1 == if l == 8 * n then n + 1 else n)
  {
  }

  /** The byte size that the encoder starts from, and when it makes room for the sign bit. */
  lemma EncoderSize(v: nat)
    requires v < TWO256
    ensures var n := (BitLen(v) + 7) / 8;
            && n <= 32
            && (Leading(v, n) < SIGN_BIT ==> Exponent(v) == n)
            && (Leading(v, n) >= SIGN_BIT ==> Exponent(v) == n + 1)
  {
    var l, n := BitLen(v), (BitLen(v) + 7) / 8;
    BitLenLimit(v);
    WholeBytes(l, n);
    if v > 0 {
      BitLenBounds(v);
      SignBit(v, n);
      if l < 8 * n {
        Pow2Mono(l, 8 * n - 1);
      }
    }
  }

  // ---- decoding ----

  method TargetFromBits(bits: u32) returns (target: U256)
    ensures target.Val() == Decode(bits)
    ensures target == FromNat(Decode(bits))
  {
    var unshifted := bits / EXPONENT_UNIT;
    var mant, expt;
    if unshifted <= 3 {
      mant, expt := (bits % EXPONENT_UNIT) / Bytes(3 - unshifted), 0;
      DecodeSmall(bits % EXPONENT_UNIT, unshifted);
    } else {
      mant, expt := bits % EXPONENT_UNIT, 8 * (unshifted - 3);
    }
    if mant > 0x7f_ffff {
      target := ZERO;
    } else {
      target := ShiftMantissa(mant, expt);
    }
    ValFaithful(target, FromNat(Decode(bits)));
  }

  method ShiftMantissa(mant: nat, expt: nat) returns (target: U256)
    requires mant < SIGN_BIT
    ensures target.Val() == (mant * Pow2(expt % 256)) % TWO256
    ensures expt == 0 ==> target.Val() == mant
  {
    target := WrappingShl(U256(0, mant), expt);
    DivModUnique(mant, TWO256, 0, mant);
  }

  /** The work a header claims through its bits. */
  function WorkOfBits(bits: u32): (w: nat)
    ensures 1 <= w < TWO256
  {
    Division.WorkBounds(Decode(bits));
    Division.Work(Decode(bits))
  }

  /** The work of a word: how often its target plus one fits into 2^256. */
  lemma WorkOfBitsIff(bits: u32, w: nat)
    ensures Decode(bits) >= 2 ==>
              (w == WorkOfBits(bits) <==> w * (Decode(bits) + 1) <= TWO256 < (w + 1) * (Decode(bits) + 1))
    ensures Decode(bits) < 2 ==> WorkOfBits(bits) == TWO256 - 1
  {
    Division.WorkIff(Decode(bits), w);
  }

  method WorkFromBits(bits: u32) returns (work: U256)
    ensures work.Val() == WorkOfBits(bits)
    ensures work == FromNat(WorkOfBits(bits))
  {
    var target := TargetFromBits(bits);
    work := Division.Inverse(target);
  }

  // ---- the two directions together ----

  /** The words that the encoder can produce. */
  predicate Canonical(bits: u32) {
    var e, m := bits / EXPONENT_UNIT, bits % EXPONENT_UNIT;
    bits == 0 ||
    (&& 1 <= e <= 33
     && 0x8000 <= m < SIGN_BIT
     && (e < 3 ==> m % Bytes(3 - e) == 0)
     && (e == 33 ==> m < 0x1_0000))
  }

  lemma EncodeCanonical(v: nat)
    requires v < TWO256
    ensures Encode(v) < 0x1_0000_0000 && Canonical(Encode(v))
    ensures Encode(v) / EXPONENT_UNIT == Exponent(v)
    ensures Encode(v) % EXPONENT_UNIT == Leading(v, Exponent(v))
  {
    if v == 0 {
      DivModUnique(0, Bytes(0), 0, 0);
    } else {
      var e := Exponent(v);
      ExponentBrackets(v);
      LeadingRange(v);
      DivModUnique(Encode(v), EXPONENT_UNIT, e, Leading(v, e));
      if e == 33 {
        Pow2Limbs();
        Pow2Small();
        Pow2Scale(16, 8 * 33, 24, 256);
        LeadingAtLeast(v, 33, 0x1_0000);
      } else if e < 3 {
        ShortMantissa(v, e);
      }
    }
  }

  lemma ShortMantissa(v: nat, e: nat)
    requires e <= 3
    ensures Leading(v, e) == v * Bytes(3 - e) && Leading(v, e) % Bytes(3 - e) == 0
  {
    Pow2Small();
    Pow2Scale(8 * e, 8 * (3 - e), 24, 0);
    UnitQuotient(v, Bytes(e), Bytes(3 - e));
  }

  lemma UnitQuotient(v: nat, p: nat, w: nat)
    requires p > 0 && w > 0 && p * w == EXPONENT_UNIT
    ensures (v * EXPONENT_UNIT) / p == v * w && (v * w) % w == 0
  {
    assert v * (p * w) == (v * w) * p;
    DivModUnique(v * EXPONENT_UNIT, p, v * w, 0);
    DivModUnique(v * w, w, v, 0);
  }

  /** A canonical word stands for mantissa * 256^(exponent - 3), with nothing lost or wrapped. */
  lemma DecodeCanonical(bits: u32)
    requires Canonical(bits) && bits != 0
    ensures Decode(bits) * EXPONENT_UNIT
            == (bits % EXPONENT_UNIT) * Bytes(bits / EXPONENT_UNIT)
  {
    var e, m := bits / EXPONENT_UNIT, bits % EXPONENT_UNIT;
    if e <= 3 {
      ShortWord(m, e);
    } else {
      LongWord(m, e);
    }
  }

  lemma ShortWord(m: nat, e: nat)
    requires e <= 3 && (e < 3 ==> m % Bytes(3 - e) == 0) && m < SIGN_BIT
    ensures 0 <= m / Bytes(3 - e) <= m
    ensures (m / Bytes(3 - e)) * EXPONENT_UNIT == m * Bytes(e)
  {
    var p, w := Bytes(e), Bytes(3 - e);
    Pow2Small();
    Pow2Scale(8 * e, 8 * (3 - e), 24, 0);
    DivShrinks(m, w);
    ScaledUp(m, p, w);
  }

  lemma ScaledUp(m: nat, p: nat, w: nat)
    requires w > 0 && m % w == 0 && p * w == EXPONENT_UNIT
    ensures (m / w) * EXPONENT_UNIT == m * p
  {
    assert (m / w) * (p * w) == ((m / w) * w) * p;
  }

  lemma LongWord(m: nat, e: nat)
    requires 3 < e <= 33 && m < SIGN_BIT && (e == 33 ==> m < 0x1_0000)
    ensures (m * Pow2((8 * (e - 3)) % 256)) % TWO256 == m * Bytes(e - 3)
    ensures (m * Bytes(e - 3)) * EXPONENT_UNIT == m * Bytes(e)
  {
    var p := Bytes(e - 3);
    NoWrap(m, e);
    DivModUnique(m * p, TWO256, 0, m * p);
    UnitShift(m, e);
  }

  lemma UnitShift(m: nat, e: nat)
    requires e >= 3
    ensures (m * Bytes(e - 3)) * EXPONENT_UNIT == m * Bytes(e)
  {
    Pow2Small();
    Pow2Scale(8 * (e - 3), 24, 8 * e, 0);
    assert (m * Bytes(e - 3)) * EXPONENT_UNIT == m * (Bytes(e - 3) * EXPONENT_UNIT);
  }

  lemma NoWrap(m: nat, e: nat)
    requires 3 < e <= 33 && m < SIGN_BIT && (e == 33 ==> m < 0x1_0000)
    ensures 0 <= m * Bytes(e - 3) < TWO256
  {
    var p := Bytes(e - 3);
    Pow2Small();
    Pow2Limbs();
    MulMono(0, m, p);
    if e == 33 {
      Pow2Scale(16, 240, 256, 0);
      MulMono(m, 0xffff, p);
    } else {
      MulMono(m, SIGN_BIT - 1, p);
      Pow2Add(23, 8 * (e - 3));
      Pow2Mono(23 + 8 * (e - 3), 256);
      assert (SIGN_BIT - 1) * p == SIGN_BIT * p - p;
    }
  }

  /** Words with the sign bit set in a full mantissa stand for zero. */
  lemma DecodeSigned(e: nat, m: nat)
    requires 3 <= e < 256 && SIGN_BIT <= m < EXPONENT_UNIT
    ensures Decode(e * EXPONENT_UNIT + m) == 0
  {
    DivModUnique(e * EXPONENT_UNIT + m, EXPONENT_UNIT, e, m);
    assert Bytes(0) == 1;
  }

  /** Short words drop the low bytes of the mantissa. */
  lemma DecodeShort(m: nat)
    requires m < EXPONENT_UNIT
    ensures Decode(m) == 0 && Decode(0x100_0000 + m) == m / 0x1_0000 && Decode(0x200_0000 + m) == m / 0x100
    ensures m < SIGN_BIT ==> Decode(0x300_0000 + m) == m
  {
    Pow2Small();
    assert Bytes(0) == 1 && Bytes(3) == Pow2(24);
  }

  /** Other words shift the mantissa by whole bytes and lose what does not fit 256 bits; from exponent
      35 on the shift starts over. */
  lemma DecodeLong(e: nat, m: nat)
    requires 3 <= e < 256 && m < SIGN_BIT
    ensures e <= 34 ==> m * Bytes(e - 3) >= 0 && Decode(e * EXPONENT_UNIT + m) == (m * Bytes(e - 3)) % TWO256
    ensures e >= 35 ==> Decode(e * EXPONENT_UNIT + m) == Decode((e - 32) * EXPONENT_UNIT + m)
  {
    DivModUnique(e * EXPONENT_UNIT + m, EXPONENT_UNIT, e, m);
    assert Bytes(0) == 1;
    if e <= 34 {
      MulMono(0, m, Bytes(e - 3));
      DivModUnique(8 * (e - 3), 256, 0, 8 * (e - 3));
      DivModUnique(m, TWO256, 0, m);
    } else {
      DivModUnique((e - 32) * EXPONENT_UNIT + m, EXPONENT_UNIT, e - 32, m);
      ShiftStartsOver(e);
      DivModUnique(m, TWO256, 0, m);
    }
  }

  lemma ShiftStartsOver(e: nat)
    requires e >= 35
    ensures (8 * (e - 3)) % 256 == (8 * (e - 35)) % 256
    ensures Pow2(0) == 1
  {
  }

  /** Re-encoding a decoded word gives the word back exactly for the canonical words. */
  lemma CompactFixedPoint(bits: u32)
    ensures Encode(Decode(bits)) == bits <==> Canonical(bits)
  {
    EncodeCanonical(Decode(bits));
    if bits == 0 {
      assert Decode(0) == 0 by { DecodeSmall(0, 0); }
      EncodeZero();
    } else if Canonical(bits) {
      var e, m, t := bits / EXPONENT_UNIT, bits % EXPONENT_UNIT, Decode(bits);
      DecodeCanonical(bits);
      MantissaBrackets(t, m, e);
      ExponentUnique(t, e);
      DivModUnique(t * EXPONENT_UNIT, Bytes(e), m, 0);
    }
  }

  lemma EncodeZero()
    ensures Encode(0) == 0
  {
    DivModUnique(0, Bytes(0), 0, 0);
  }

  lemma MantissaBrackets(t: nat, m: nat, e: nat)
    requires t * EXPONENT_UNIT == m * Bytes(e) && 0x8000 <= m < SIGN_BIT && e >= 1
    ensures t > 0 && t < Pow2(8 * e - 1)
    ensures e >= 2 ==> Pow2(8 * e - 9) <= t
  {
    Pow2Small();
    Pow2Scale(8 * e - 1, 24, 23, 8 * e);
    MulMono(m, SIGN_BIT - 1, Bytes(e));
    MulMono(1, m, Bytes(e));
    assert (SIGN_BIT - 1) * Bytes(e) == SIGN_BIT * Bytes(e) - Bytes(e);
    if e >= 2 {
      Pow2Scale(8 * e - 9, 24, 15, 8 * e);
      MulMono(0x8000, m, Bytes(e));
    }
  }

  lemma SmallExponent(v: nat)
    requires v < TWO256
    ensures v < SIGN_BIT <==> Exponent(v) <= 3
  {
    Pow2Small();
    if v > 0 {
      BitLenBounds(v);
      if BitLen(v) <= 23 {
        Pow2Mono(BitLen(v), 23);
      } else {
        Pow2Mono(23, BitLen(v) - 1);
      }
    }
  }

  /** Encoding rounds down, and loses less than the weight of the last mantissa byte; values below
      2^23 come back exactly. */
  lemma CompactLoss(v: nat)
    requires v < TWO256
    ensures Encode(v) < 0x1_0000_0000
    ensures Decode(Encode(v)) <= v
    ensures v < SIGN_BIT ==> Decode(Encode(v)) == v
    ensures v < SIGN_BIT <==> Exponent(v) <= 3
    ensures Exponent(v) > 3 ==> v - Decode(Encode(v)) < Bytes(Exponent(v) - 3)
  {
    SmallExponent(v);
    EncodeCanonical(v);
    if v == 0 {
      EncodeZero();
      assert Decode(0) == 0 by { DecodeSmall(0, 0); }
    } else {
      LeadingRange(v);
      DecodeCanonical(Encode(v));
      LossBound(v, Decode(Encode(v)), Leading(v, Exponent(v)), Exponent(v));
    }
  }

  lemma LossBound(v: nat, t: nat, m: nat, e: nat)
    requires m == Leading(v, e) && t * EXPONENT_UNIT == m * Bytes(e)
    ensures t <= v
    ensures e <= 3 ==> t == v
    ensures e > 3 ==> v - t < Bytes(e - 3)
  {
    LeadingAtLeast(v, e, m);
    LeadingAtLeast(v, e, m + 1);
    assert (m + 1) * Bytes(e) == m * Bytes(e) + Bytes(e);
    Pow2Small();
    if e <= 3 {
      Pow2Mono(8 * e, 24);
    } else {
      Pow2Scale(8 * (e - 3), 24, 8 * e, 0);
    }
  }

  /** Larger targets never get smaller words, so words can be compared as plain integers. */
  lemma EncodeMono(v: nat, w: nat)
    requires v <= w < TWO256
    ensures Encode(v) <= Encode(w)
  {
    if v == 0 {
      EncodeZero();
    } else {
      var e, f := Exponent(v), Exponent(w);
      BitLenMono(v, w);
      LeadingRange(v);
      LeadingRange(w);
      if e == f {
        LeadingAtLeast(v, e, Leading(v, e));
        LeadingAtLeast(w, e, Leading(v, e));
      } else {
        assert e * EXPONENT_UNIT + EXPONENT_UNIT <= f * EXPONENT_UNIT;
      }
    }
  }

  /** The encoder picks the greatest canonical word whose target does not exceed `v`. */
  lemma CompactAdjoint(v: nat, bits: u32)
    requires v < TWO256 && Canonical(bits)
    ensures Decode(bits) <= v <==> bits <= Encode(v)
  {
    CompactFixedPoint(bits);
    if Decode(bits) <= v {
      EncodeMono(Decode(bits), v);
    } else {
      EncodeMono(v, Decode(bits));
      CompactLoss(v);
    }
  }

  /** Encoding twice changes nothing more. */
  lemma EncodeStable(v: nat)
    requires v < TWO256
    ensures Encode(v) < 0x1_0000_0000
    ensures Encode(Decode(Encode(v))) == Encode(v)
  {
    EncodeCanonical(v);
    CompactFixedPoint(Encode(v));
  }
}
