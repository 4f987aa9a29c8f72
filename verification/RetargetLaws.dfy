/** What the retargeting formulas guarantee: no overflow below the limit, how far one step can
    move the target, and that more elapsed time never makes the next target harder. */
module RetargetLaws {
  import opened Arith
  import opened Wide
  import opened Compact
  import opened Hashing
  import opened Params
  import opened Retarget

  // ---- the limits ----

  lemma SomePowers()
    ensures Pow2(96) == 0x1_0000_0000_0000_0000_0000_0000
    ensures Pow2(108) == 0x1000_0000_0000_0000_0000_0000_0000
    ensures Pow2(115) == 0x8_0000_0000_0000_0000_0000_0000_0000
    ensures Pow2(123) == 0x800_0000_0000_0000_0000_0000_0000_0000
  {
    Pow2Small();
    Pow2Limbs();
    Pow2Add(64, 32);
    assert Pow2(12) == 4096;
    Pow2Add(96, 12);
    assert Pow2(7) == 128;
    Pow2Add(108, 7);
    Pow2Add(115, 8);
  }

  lemma TopLimb(k: nat, limit: U256)
    requires limit.lo == TWO128 - 1 && limit.hi == Pow2(k) - 1
    ensures limit.Val() == Pow2(128 + k) - 1
  {
    Pow2Limbs();
    Pow2Add(128, k);
  }

  lemma LimitPowers(n: Network)
    ensures BitcoinConfig(n).powLimit.Val() == Pow2(224) - 1
    ensures LitecoinConfig(n).powLimit.Val() == Pow2(236) - 1
    ensures DogecoinConfig(n).powLimit.Val() == Pow2(236) - 1
    ensures ZcashConfigOf(n).powLimit.Val() == Pow2(if n.Mainnet? then 243 else 251) - 1
  {
    SomePowers();
    TopLimb(96, BitcoinConfig(n).powLimit);
    TopLimb(108, LitecoinConfig(n).powLimit);
    TopLimb(if n.Mainnet? then 115 else 123, ZcashConfigOf(n).powLimit);
  }

  /** The minimum-difficulty words of the configurations respect their own limits. */
  lemma LimitBitsWithinLimit(n: Network)
    ensures Decode(BitcoinConfig(n).limitBits) <= BitcoinConfig(n).powLimit.Val()
    ensures Decode(LitecoinConfig(n).limitBits) <= LitecoinConfig(n).powLimit.Val()
    ensures Decode(DogecoinConfig(n).limitBits) <= DogecoinConfig(n).powLimit.Val()
    ensures Decode(ZcashConfigOf(n).limitBits) <= ZcashConfigOf(n).powLimit.Val()
  {
    LimitPowers(n);
    Pow2Small();
    assert Pow2(3) == 8 && Pow2(4) == 16;
    Pow2Add(16, 3);
    Pow2Add(16, 4);
    WordBelow(0x1d00ffff, 0x1d, 0xffff, 16);
    WordBelow(0x1e0fffff, 0x1e, 0x0fffff, 20);
    WordBelow(0x1f07ffff, 0x1f, 0x07ffff, 19);
    WordBelow(0x2007ffff, 0x20, 0x07ffff, 19);
  }

  lemma WordBelow(bits: u32, e: nat, m: nat, width: nat)
    requires bits == e * EXPONENT_UNIT + m && 3 < e <= 32 && m < SIGN_BIT && m < Pow2(width)
    ensures Decode(bits) < Pow2(8 * (e - 3) + width)
  {
    LongDecode(bits, e, m);
    ShiftedBelow(m, width, 8 * (e - 3));
  }

  lemma ShiftedBelow(m: nat, width: nat, s: nat)
    requires m < Pow2(width)
    ensures m * Pow2(s) < Pow2(s + width)
  {
    Pow2Add(s, width);
    MulMono(m + 1, Pow2(width), Pow2(s));
    assert (m + 1) * Pow2(s) == m * Pow2(s) + Pow2(s);
  }

  lemma LongDecode(bits: u32, e: nat, m: nat)
    requires bits == e * EXPONENT_UNIT + m && 3 < e <= 32 && m < SIGN_BIT
    ensures Decode(bits) == m * Bytes(e - 3)
  {
    DivModUnique(bits, EXPONENT_UNIT, e, m);
    LongWord(m, e);
  }

  // ---- no overflow below the limit ----

  lemma ProductBelow(x: nat, y: nat, a: nat, b: nat)
    requires x < Pow2(a) && y <= Pow2(b) && a + b <= 256
    ensures 0 <= x * y < TWO256
  {
    Pow2Limbs();
    Pow2Add(a, b);
    Pow2Mono(a + b, 256);
    MulMono(0, x, y);
    MulMono(y, Pow2(b), x);
    MulMono(x + 1, Pow2(a), Pow2(b));
    assert (x + 1) * Pow2(b) == x * Pow2(b) + Pow2(b);
  }

  /** A parent target within the limit never triggers the overflow panic, and the demanded
      target is again within the limit. */
  lemma NextTargetWithinLimit(n: Network, bits: u32, elapsed: int)
    ensures Decode(bits) <= BitcoinConfig(n).powLimit.Val() ==>
              && BitcoinBits(BitcoinConfig(n), bits, elapsed).Some?
              && Decode(BitcoinBits(BitcoinConfig(n), bits, elapsed).value) <= BitcoinConfig(n).powLimit.Val()
    ensures Decode(bits) <= LitecoinConfig(n).powLimit.Val() ==>
              && LitecoinBits(LitecoinConfig(n), bits, elapsed).Some?
              && Decode(LitecoinBits(LitecoinConfig(n), bits, elapsed).value) <= LitecoinConfig(n).powLimit.Val()
    ensures Decode(bits) <= DogecoinConfig(n).powLimit.Val() ==>
              && DogecoinBits(DogecoinConfig(n), bits, elapsed).Some?
              && Decode(DogecoinBits(DogecoinConfig(n), bits, elapsed).value) <= DogecoinConfig(n).powLimit.Val()
  {
    BitcoinWithinLimit(n, bits, elapsed);
    LitecoinWithinLimit(n, bits, elapsed);
    DogecoinWithinLimit(n, bits, elapsed);
  }

  lemma BitcoinWithinLimit(n: Network, bits: u32, elapsed: int)
    ensures Decode(bits) <= BitcoinConfig(n).powLimit.Val() ==>
              && BitcoinBits(BitcoinConfig(n), bits, elapsed).Some?
              && Decode(BitcoinBits(BitcoinConfig(n), bits, elapsed).value) <= BitcoinConfig(n).powLimit.Val()
  {
    LimitPowers(n);
    Pow2Small();
    if Decode(bits) < Pow2(224) {
      ProductBelow(Decode(bits), BitcoinSpan(BitcoinConfig(n), elapsed), 224, 23);
    }
  }

  lemma LitecoinWithinLimit(n: Network, bits: u32, elapsed: int)
    ensures Decode(bits) <= LitecoinConfig(n).powLimit.Val() ==>
              && LitecoinBits(LitecoinConfig(n), bits, elapsed).Some?
              && Decode(LitecoinBits(LitecoinConfig(n), bits, elapsed).value) <= LitecoinConfig(n).powLimit.Val()
  {
    LimitPowers(n);
    if Decode(bits) < Pow2(236) {
      LitecoinFits(n, Decode(bits), BitcoinSpan(LitecoinConfig(n), elapsed));
    }
  }

  lemma DogecoinWithinLimit(n: Network, bits: u32, elapsed: int)
    ensures Decode(bits) <= DogecoinConfig(n).powLimit.Val() ==>
              && DogecoinBits(DogecoinConfig(n), bits, elapsed).Some?
              && Decode(DogecoinBits(DogecoinConfig(n), bits, elapsed).value) <= DogecoinConfig(n).powLimit.Val()
  {
    LimitPowers(n);
    Pow2Small();
    if Decode(bits) < Pow2(236) {
      ProductBelow(Decode(bits), DogecoinSpan(DogecoinConfig(n), elapsed), 236, 8);
    }
  }

  /** Litecoin's largest targets would overflow by a hair; the pre-shift is what prevents it. */
  lemma LitecoinFits(n: Network, prior: nat, span: nat)
    requires prior < Pow2(236) && span <= 2016 * 150 * 4
    ensures LitecoinTarget(LitecoinConfig(n), prior, span).Some?
    ensures PreShifts(LitecoinConfig(n), prior) <==> BitLen(prior) == 236
  {
    LimitPowers(n);
    assert BitLen(Pow2(236) - 1) == 236 by { BitLenUnique(Pow2(236) - 1, 236); }
    BitLenMono(prior, Pow2(236) - 1);
    BitLenBounds(prior);
    Pow2Small();
    assert Pow2(21) == 0x20_0000 by { Pow2Add(16, 5); assert Pow2(5) == 32; }
    if PreShifts(LitecoinConfig(n), prior) {
      ProductBelow(prior / 2, span, 235, 21);
    } else {
      Pow2Mono(BitLen(prior), 235);
      ProductBelow(prior, span, 235, 21);
    }
  }

  // ---- one step moves the target by a bounded factor ----

  lemma ScaleBetween(prior: nat, actual: nat, timespan: nat, num1: nat, den1: nat, num2: nat, den2: nat)
    requires timespan > 0 && den1 > 0 && den2 > 0
    requires num1 * timespan <= actual * den1 && actual * den2 <= num2 * timespan
    ensures (prior * num1) / den1 <= (prior * actual) / timespan <= (prior * num2) / den2
  {
    var low, mid := (prior * num1) / den1, (prior * actual) / timespan;
    // low * timespan <= prior * actual
    DivGalois(prior * num1, den1, low);
    CrossScale(low, den1, prior, num1, actual, timespan);
    DivGalois(prior * actual, timespan, low);
    DivGalois(prior * actual, timespan, mid);
    CrossScale(mid, timespan, prior, actual, num2, den2);
    DivGalois(prior * num2, den2, mid);
  }

  /** From q * d <= p * a and a * t <= b * d follows q * t <= p * b. */
  lemma CrossScale(q: int, d: nat, p: nat, a: int, b: int, t: nat)
    requires d > 0 && q * d <= p * a && a * t <= b * d
    ensures q * t <= p * b
  {
    MulMono(q * d, p * a, t);
    MulMono(a * t, b * d, p);
    assert (q * t) * d <= (p * b) * d by {
      assert (q * d) * t == (q * t) * d;
      assert (p * a) * t == p * (a * t);
      assert p * (b * d) == (p * b) * d;
    }
    if q * t > p * b {
      MulMono(p * b + 1, q * t, d);
    }
  }

  /** Bitcoin (and Litecoin before its pre-shift): at most a factor of four either way. */
  lemma BitcoinStep(cfg: NetworkConfig, prior: nat, elapsed: int)
    requires Sane(cfg)
    ensures var t := (prior * BitcoinSpan(cfg, elapsed)) / cfg.timespan;
            prior / 4 <= t <= 4 * prior
  {
    ScaleBetween(prior, BitcoinSpan(cfg, elapsed), cfg.timespan, 1, 4, 4, 1);
  }

  /** Dogecoin: never below three quarters, never above one and a half. */
  lemma DogecoinStep(cfg: NetworkConfig, prior: nat, elapsed: int)
    requires Sane(cfg)
    ensures var t := (prior * DogecoinSpan(cfg, elapsed)) / cfg.timespan;
            (3 * prior) / 4 <= t <= (3 * prior) / 2
  {
    ScaleBetween(prior, DogecoinSpan(cfg, elapsed), cfg.timespan, 3, 4, 3, 2);
  }

  /** The pre-shifted computation is at most one below the plain quotient on even targets... */
  lemma PreShiftLoss(w: nat, span: nat, timespan: nat)
    requires timespan > 0
    ensures var plain, shifted := (2 * w * span) / timespan, 2 * ((w * span) / timespan);
            shifted <= plain <= shifted + 1
  {
    var q := (w * span) / timespan;
    DivGalois(w * span, timespan, q);
    DivGalois(w * span, timespan, q + 1);
    DivGalois(2 * w * span, timespan, 2 * q);
    DivGalois(2 * w * span, timespan, 2 * q + 2);
    assert 2 * w * span == 2 * (w * span);
    assert (2 * q) * timespan == 2 * (q * timespan);
    assert (2 * q + 2) * timespan == 2 * ((q + 1) * timespan);
  }

  /** ... and every decoded target that Litecoin pre-shifts is even. */
  lemma PreShiftedIsEven(n: Network, bits: u32)
    requires PreShifts(LitecoinConfig(n), Decode(bits))
    ensures Decode(bits) % 2 == 0
  {
    PreShiftedIsLarge(n, Decode(bits));
    Pow2Mono(87, 235);
    LargeIsEven(bits);
  }

  lemma PreShiftedIsLarge(n: Network, prior: nat)
    requires PreShifts(LitecoinConfig(n), prior)
    ensures prior >= Pow2(235)
  {
    LimitPowers(n);
    BitLenUnique(Pow2(236) - 1, 236);
    BitLenBounds(prior);
    Pow2Mono(235, BitLen(prior) - 1);
  }

  lemma LargeIsShifted(bits: u32)
    requires Decode(bits) >= Pow2(87)
    ensures Pow2(87) == 0x80_0000_0000_0000_0000_0000
    ensures bits / EXPONENT_UNIT > 3 && bits % EXPONENT_UNIT < SIGN_BIT
  {
    Pow2Small();
    Pow2Limbs();
    Pow2Add(64, 23);
  }

  lemma LargeIsEven(bits: u32)
    requires Decode(bits) >= Pow2(87)
    ensures Decode(bits) % 2 == 0
  {
    var e, m := bits / EXPONENT_UNIT, bits % EXPONENT_UNIT;
    LargeIsShifted(bits);
    var s := (8 * (e - 3)) % 256;
    if s <= 64 {
      SmallShift(m, s);
    } else {
      assert Pow2(1) == 2;
      ShiftedLowZero(m, s, 1);
    }
  }

  /** Litecoin's retarget against the unshifted quotient, for every word and span. */
  lemma LitecoinLoss(n: Network, bits: u32, span: nat)
    ensures LitecoinTarget(LitecoinConfig(n), Decode(bits), span).Some? ==>
              var t := LitecoinTarget(LitecoinConfig(n), Decode(bits), span).value;
              var plain := (Decode(bits) * span) / LitecoinConfig(n).timespan;
              t <= plain <= t + 1
  {
    if PreShifts(LitecoinConfig(n), Decode(bits)) && LitecoinTarget(LitecoinConfig(n), Decode(bits), span).Some? {
      PreShiftedIsEven(n, bits);
      EvenLoss(n, Decode(bits), span);
    }
  }

  lemma EvenLoss(n: Network, prior: nat, span: nat)
    requires prior % 2 == 0 && PreShifts(LitecoinConfig(n), prior)
    requires LitecoinTarget(LitecoinConfig(n), prior, span).Some?
    ensures var t := LitecoinTarget(LitecoinConfig(n), prior, span).value;
            t <= (prior * span) / LitecoinConfig(n).timespan <= t + 1
  {
    var w, timespan := prior / 2, LitecoinConfig(n).timespan;
    MulMono(0, w, span);
    PreShiftLoss(w, span, timespan);
    DoubledFits(w, span, timespan);
    assert 2 * w == prior;
  }

  lemma DoubledFits(w: nat, span: nat, timespan: nat)
    requires timespan >= 2 && 0 <= w * span < TWO256
    ensures (((w * span) / timespan) * 2) % TWO256 == ((w * span) / timespan) * 2
  {
    var q := (w * span) / timespan;
    DivGalois(w * span, timespan, q);
    DivGalois(w * span, timespan, 0);
    MulMono(2, timespan, q);
    DivModUnique(q * 2, TWO256, 0, q * 2);
  }

  // ---- more elapsed time never asks for a harder target ----

  lemma CapMono(t: nat, u: nat, powLimit: U256)
    requires t <= u
    ensures CappedBits(t, powLimit) <= CappedBits(u, powLimit)
  {
    EncodeMono(Min(t, powLimit.Val()), Min(u, powLimit.Val()));
  }

  lemma RescaleMono(prior: nat, a: nat, b: nat, timespan: nat)
    requires timespan > 0 && a <= b
    ensures Rescaled(prior, b, timespan).Some? ==>
              && Rescaled(prior, a, timespan).Some?
              && Rescaled(prior, a, timespan).value <= Rescaled(prior, b, timespan).value
  {
    MulMono(a, b, prior);
    DivMono(prior * a, prior * b, timespan);
  }

  lemma SpansMono(cfg: NetworkConfig, e1: int, e2: int)
    requires e1 <= e2
    ensures BitcoinSpan(cfg, e1) <= BitcoinSpan(cfg, e2)
    ensures DogecoinSpan(cfg, e1) <= DogecoinSpan(cfg, e2)
  {
    TruncDivMono(e1 - cfg.timespan, e2 - cfg.timespan, 8);
  }

  /** For Bitcoin and Dogecoin, with any sane parameters: if the longer interval is accepted, so
      is the shorter, and its word is not larger. */
  lemma BitsMonotone(cfg: NetworkConfig, bits: u32, e1: int, e2: int)
    requires Sane(cfg) && e1 <= e2
    ensures BitcoinBits(cfg, bits, e2).Some? ==>
              && BitcoinBits(cfg, bits, e1).Some?
              && BitcoinBits(cfg, bits, e1).value <= BitcoinBits(cfg, bits, e2).value
    ensures DogecoinBits(cfg, bits, e2).Some? ==>
              && DogecoinBits(cfg, bits, e1).Some?
              && DogecoinBits(cfg, bits, e1).value <= DogecoinBits(cfg, bits, e2).value
  {
    var prior := Decode(bits);
    SpansMono(cfg, e1, e2);
    RescaleMono(prior, BitcoinSpan(cfg, e1), BitcoinSpan(cfg, e2), cfg.timespan);
    RescaleMono(prior, DogecoinSpan(cfg, e1), DogecoinSpan(cfg, e2), cfg.timespan);
    var b1, b2 := Rescaled(prior, BitcoinSpan(cfg, e1), cfg.timespan), Rescaled(prior, BitcoinSpan(cfg, e2), cfg.timespan);
    if b2.Some? {
      CapMono(b1.value, b2.value, cfg.powLimit);
    }
    var d1, d2 := Rescaled(prior, DogecoinSpan(cfg, e1), cfg.timespan), Rescaled(prior, DogecoinSpan(cfg, e2), cfg.timespan);
    if d2.Some? {
      CapMono(d1.value, d2.value, cfg.powLimit);
    }
  }

  lemma LitecoinTargetMono(cfg: NetworkConfig, prior: nat, a: nat, b: nat)
    requires cfg.timespan >= 4 && a <= b && LitecoinTarget(cfg, prior, b).Some?
    ensures LitecoinTarget(cfg, prior, a).Some?
    ensures LitecoinTarget(cfg, prior, a).value <= LitecoinTarget(cfg, prior, b).value
  {
    if PreShifts(cfg, prior) {
      RescaleMono(prior / 2, a, b, cfg.timespan);
      MulMono(0, prior / 2, a);
      MulMono(0, prior / 2, b);
      DoubledFits(prior / 2, a, cfg.timespan);
      DoubledFits(prior / 2, b, cfg.timespan);
    } else {
      RescaleMono(prior, a, b, cfg.timespan);
    }
  }

  /** The same for Litecoin. */
  lemma LitecoinBitsMonotone(cfg: NetworkConfig, bits: u32, e1: int, e2: int)
    requires Sane(cfg) && e1 <= e2
    ensures LitecoinBits(cfg, bits, e2).Some? ==>
              && LitecoinBits(cfg, bits, e1).Some?
              && LitecoinBits(cfg, bits, e1).value <= LitecoinBits(cfg, bits, e2).value
  {
    SpansMono(cfg, e1, e2);
    var prior, a, b := Decode(bits), BitcoinSpan(cfg, e1), BitcoinSpan(cfg, e2);
    if LitecoinTarget(cfg, prior, b).Some? {
      LitecoinTargetMono(cfg, prior, a, b);
      CapMono(LitecoinTarget(cfg, prior, a).value, LitecoinTarget(cfg, prior, b).value, cfg.powLimit);
    }
  }

  // ---- Zcash ----

  /** The two successive floor divisions are one division of the target sum. The target is that
      unit times the span, or exactly 2^128 less when the multiplier drops its carry; it is refused
      only where the product does not fit. */
  lemma ZcashTargetForm(cfg: ZcashConfig, total: nat, elapsed: int)
    requires SaneZcash(cfg) && total < TWO256
    ensures cfg.window * cfg.WindowTimespan() > 0
    ensures 0 <= total / cfg.window < TWO256 && 0 <= total / (cfg.window * cfg.WindowTimespan()) < TWO256
    ensures var unit, span := total / (cfg.window * cfg.WindowTimespan()), ZcashSpan(cfg, elapsed);
            match ZcashTarget(cfg, total / cfg.window, elapsed)
            case None => unit * span >= TWO256
            case Some(t) => t == unit * span - (if DropsCarry(FromNat(unit).lo, span) then TWO128 else 0)
  {
    DivDiv(total, cfg.window, cfg.WindowTimespan());
    DivShrinks(total, cfg.window);
    DivShrinks(total / cfg.window, cfg.WindowTimespan());
    MulResult(FromNat(total / (cfg.window * cfg.WindowTimespan())), ZcashSpan(cfg, elapsed));
  }

  // ---- a Zcash retarget that loses its carry ----

  /** One block with this word and sixteen with the other fill the averaging window. */
  const HIGH_WORD: u32 := 0x1221_ef00
  const LOW_WORD: u32 := 0x0901_0000

  const WINDOW_TOTAL: nat := 0x21ef_0000_0000_0000_0010_0000_0000_0000_0000

  lemma WindowTotal()
    ensures Decode(HIGH_WORD) + 16 * Decode(LOW_WORD) == WINDOW_TOTAL
  {
    Pow2Small();
    Pow2Limbs();
    Pow2Add(32, 16);
    Pow2Add(64, 48);
    Pow2Add(112, 8);
    LongDecode(HIGH_WORD, 0x12, 0x21ef00);
    LongDecode(LOW_WORD, 0x09, 0x010000);
  }

  /** A value between the brackets of an exponent and a mantissa has that word. */
  lemma EncodeIs(v: nat, e: nat, m: nat)
    requires 2 <= e && Pow2(8 * e - 9) <= v < Pow2(8 * e - 1) && v > 0
    requires m * Bytes(e) <= v * EXPONENT_UNIT < (m + 1) * Bytes(e)
    ensures Encode(v) == e * EXPONENT_UNIT + m
  {
    ExponentUnique(v, e);
    LeadingAtLeast(v, e, m);
    LeadingAtLeast(v, e, m + 1);
  }

  lemma EighteenBytes()
    ensures Pow2(135) == 0x80 * TWO128 && Pow2(143) == 0x8000 * TWO128 && Pow2(144) == 0x1_0000 * TWO128
  {
    Pow2Small();
    Pow2Limbs();
    Pow2Add(128, 15);
    Pow2Add(128, 16);
    assert Pow2(7) == 128;
    Pow2Add(128, 7);
  }

  /** For a window with these targets and blocks that came exactly on time, the target demanded is
      2^128 below the one of the protocol, and so is the word below the protocol's word. */
  lemma ZcashLosesCarry()
    ensures var cfg, unit := ZcashConfigOf(Mainnet), WINDOW_TOTAL / 21675;
            && ZcashTarget(cfg, WINDOW_TOTAL / 17, 1275) == Some(unit * 1275 - TWO128)
            && ZcashBits(cfg, WINDOW_TOTAL / 17, 1275) == Some(0x1201_fe00)
            && CappedBits(unit * 1275, cfg.powLimit) == 0x1201_ff00
  {
    LostTarget();
    LostWords(WINDOW_TOTAL / 21675);
  }

  lemma LostTarget()
    ensures var cfg, unit := ZcashConfigOf(Mainnet), WINDOW_TOTAL / 21675;
            && unit == 0x6699_cd00_3366_99cd_0063_c72a_8df1_54b8
            && ZcashTarget(cfg, WINDOW_TOTAL / 17, 1275) == Some(unit * 1275 - TWO128)
  {
    var cfg, unit := ZcashConfigOf(Mainnet), WINDOW_TOTAL / 21675;
    assert ZcashSpan(cfg, 1275) == 1275;
    assert FromNat(unit) == U256(0, unit);
    MulLosesCarry();
  }

  lemma LostWords(unit: nat)
    requires unit == 0x6699_cd00_3366_99cd_0063_c72a_8df1_54b8
    ensures var limit := ZcashConfigOf(Mainnet).powLimit;
            && CappedBits(unit * 1275, limit) == 0x1201_ff00
            && CappedBits(unit * 1275 - TWO128, limit) == 0x1201_fe00
  {
    EighteenBytes();
    EncodeIs(unit * 1275, 0x12, 0x01ff00);
    EncodeIs(unit * 1275 - TWO128, 0x12, 0x01fe00);
  }

  lemma ZcashProductFits(total: nat, span: nat)
    requires total < TWO256 && span <= 1683
    ensures 0 <= (total / 21675) * span < TWO256
  {
    var unit := total / 21675;
    DivGalois(total, 21675, unit);
    DivGalois(total, 21675, 0);
    MulMono(span, 21675, unit);
    MulMono(0, unit, span);
  }

  /** On both networks a sum of targets that fits 256 bits never overflows the product, and the new
      target is within the limit, however large the targets were. */
  lemma ZcashWithinLimit(n: Network, total: nat, elapsed: int)
    requires total < TWO256
    ensures 0 <= total / 17 < TWO256 && 0 <= ZcashSpan(ZcashConfigOf(n), elapsed) < TWO64
    ensures var bits := ZcashBits(ZcashConfigOf(n), total / 17, elapsed);
            bits.Some? && Decode(bits.value) <= ZcashConfigOf(n).powLimit.Val()
  {
    ZcashConfigsSane(n);
    ZcashTargetForm(ZcashConfigOf(n), total, elapsed);
    ZcashProductFits(total, ZcashSpan(ZcashConfigOf(n), elapsed));
  }

  lemma ZcashSumFits(n: Network, total: nat)
    requires total <= 17 * ZcashConfigOf(n).powLimit.Val()
    ensures total < TWO256
  {
    LimitPowers(n);
    Pow2Mono(243, 251);
    assert Pow2(5) == 32;
    Pow2Add(5, 251);
    Pow2Limbs();
  }
}
