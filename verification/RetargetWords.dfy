/** The words that a retarget demands, in closed form on the configurations of the four chains, with
    the constants written out: which span each elapsed time gives, and which word each span gives. */
module RetargetWords {
  import opened Arith
  import opened Wide
  import opened Compact
  import opened Hashing
  import opened Params
  import opened Retarget
  import opened RetargetLaws

  /** The word for `target * span / timespan`, capped at `limit`. */
  function Word(target: nat, span: nat, timespan: nat, limit: nat): Option<nat>
    requires timespan > 0
  {
    MulMono(0, target, span);
    DivGalois(target * span, timespan, 0);
    if target * span >= TWO256 then None else Some(Encode(Min((target * span) / timespan, limit)))
  }

  // ---- Bitcoin ----

  /** Two weeks, with the elapsed time taken between half a week and eight weeks. */
  lemma BitcoinWord(n: Network, bits: u32, elapsed: int)
    ensures 302400 <= elapsed <= 4838400 ==>
              BitcoinBits(BitcoinConfig(n), bits, elapsed) == Word(Decode(bits), elapsed, 1209600, Pow2(224) - 1)
    ensures elapsed < 302400 ==>
              BitcoinBits(BitcoinConfig(n), bits, elapsed) == Word(Decode(bits), 302400, 1209600, Pow2(224) - 1)
    ensures elapsed > 4838400 ==>
              BitcoinBits(BitcoinConfig(n), bits, elapsed) == Word(Decode(bits), 4838400, 1209600, Pow2(224) - 1)
  {
    LimitPowers(n);
  }

  /** Half the intended time halves the genesis target. */
  lemma HalfTimeHalves()
    ensures BitcoinBits(BitcoinConfig(Mainnet), 0x1d00ffff, 604800) == Some(0x1c7fff80)
  {
    BitcoinWord(Mainnet, 0x1d00ffff, 604800);
    GenesisTarget();
    HalfTarget(Decode(0x1d00ffff));
  }

  lemma GenesisTarget()
    ensures Pow2(80) == 0x1_0000_0000_0000_0000_0000 && Decode(0x1d00ffff) == 0xffff * (TWO128 * Pow2(80))
  {
    Pow2Small();
    Pow2Limbs();
    Pow2Add(64, 16);
    Pow2Add(128, 80);
    LongDecode(0x1d00ffff, 0x1d, 0xffff);
  }

  lemma HalfTarget(prior: nat)
    requires prior == 0xffff * (TWO128 * 0x1_0000_0000_0000_0000_0000)
    ensures Word(prior, 604800, 1209600, Pow2(224) - 1) == Some(0x1c7fff80)
  {
    var half := 0x7fff_8000_0000_0000_0000_0000 * TWO128;
    assert prior * 604800 < TWO256 && (prior * 604800) / 1209600 == half;
    PowersNear224();
    EncodeIs(half, 0x1c, 0x7fff80);
  }

  lemma PowersNear224()
    ensures Pow2(215) == 0x80_0000_0000_0000_0000_0000 * TWO128
    ensures Pow2(223) == 0x8000_0000_0000_0000_0000_0000 * TWO128
    ensures Pow2(224) == 0x1_0000_0000_0000_0000_0000_0000 * TWO128
  {
    Pow2Small();
    Pow2Limbs();
    Pow2Add(64, 23);
    Pow2Add(128, 87);
    Pow2Add(215, 8);
    Pow2Add(215, 8 + 1);
    Pow2Add(8, 1);
  }

  // ---- how far one retarget can move the target that the next block must meet ----

  /** Encoding loses less than one part in 2^15. */
  lemma RelativeLoss(v: nat)
    requires v < TWO256
    ensures Encode(v) < 0x1_0000_0000
    ensures 0x8000 * Decode(Encode(v)) >= 0x7fff * v
  {
    CompactLoss(v);
    if v >= SIGN_BIT {
      var e := Exponent(v);
      LeadingRange(v);
      LeadingAtLeast(v, e, 0x8000);
      UnitScale(e, v);
    }
  }

  lemma UnitScale(e: nat, v: nat)
    requires e > 3 && 0x8000 * Bytes(e) <= v * EXPONENT_UNIT
    ensures 0x8000 * Bytes(e - 3) <= v
  {
    Pow2Small();
    Pow2Scale(8 * (e - 3), 24, 8 * e, 0);
  }

  lemma CappedStep(t: nat, low: nat, high: nat, powLimit: U256)
    requires low <= t <= high
    ensures var d := Decode(CappedBits(t, powLimit));
            d <= high && d <= powLimit.Val() && 0x8000 * d >= 0x7fff * Min(low, powLimit.Val())
  {
    RelativeLoss(Min(t, powLimit.Val()));
  }

  /** Bitcoin: the decoded result is at most four times the old target, and, up to the rounding of the
      encoding and the cap, at least a quarter of it. */
  lemma BitcoinResultStep(n: Network, bits: u32, elapsed: int)
    ensures BitcoinBits(BitcoinConfig(n), bits, elapsed).Some? ==>
              var d, limit := Decode(BitcoinBits(BitcoinConfig(n), bits, elapsed).value), BitcoinConfig(n).powLimit.Val();
              && d <= 4 * Decode(bits) && d <= limit
              && 0x8000 * d >= 0x7fff * Min(Decode(bits) / 4, limit)
  {
    var cfg, prior := BitcoinConfig(n), Decode(bits);
    BitcoinStep(cfg, prior, elapsed);
    if Rescaled(prior, BitcoinSpan(cfg, elapsed), cfg.timespan).Some? {
      CappedStep(Rescaled(prior, BitcoinSpan(cfg, elapsed), cfg.timespan).value, prior / 4, 4 * prior, cfg.powLimit);
    }
  }

  /** Dogecoin: between three quarters and three halves. */
  lemma DogecoinResultStep(n: Network, bits: u32, elapsed: int)
    ensures DogecoinBits(DogecoinConfig(n), bits, elapsed).Some? ==>
              var d, limit := Decode(DogecoinBits(DogecoinConfig(n), bits, elapsed).value), DogecoinConfig(n).powLimit.Val();
              && d <= (3 * Decode(bits)) / 2 && d <= limit
              && 0x8000 * d >= 0x7fff * Min((3 * Decode(bits)) / 4, limit)
  {
    var cfg, prior := DogecoinConfig(n), Decode(bits);
    DogecoinStep(cfg, prior, elapsed);
    if Rescaled(prior, DogecoinSpan(cfg, elapsed), cfg.timespan).Some? {
      CappedStep(Rescaled(prior, DogecoinSpan(cfg, elapsed), cfg.timespan).value,
                 (3 * prior) / 4, (3 * prior) / 2, cfg.powLimit);
    }
  }

  // ---- Litecoin ----

  /** Three and a half days, with the elapsed time taken between a quarter and four times that. */
  function LitecoinSpanOf(elapsed: int): nat {
    if elapsed < 75600 then 75600 else if elapsed > 1209600 then 1209600 else elapsed
  }

  lemma LitecoinSpanIs(n: Network, elapsed: int)
    ensures BitcoinSpan(LitecoinConfig(n), elapsed) == LitecoinSpanOf(elapsed)
  {
  }

  /** Targets below 2^235 are rescaled directly. */
  lemma LitecoinWordPlain(n: Network, bits: u32, elapsed: int)
    requires Decode(bits) < Pow2(235)
    ensures LitecoinBits(LitecoinConfig(n), bits, elapsed)
            == Word(Decode(bits), LitecoinSpanOf(elapsed), 302400, Pow2(236) - 1)
  {
    LimitPowers(n);
    LitecoinSpanIs(n, elapsed);
    SmallNotShifted(n, Decode(bits), LitecoinSpanOf(elapsed));
  }

  lemma SmallNotShifted(n: Network, prior: nat, span: nat)
    requires prior < Pow2(235)
    ensures LitecoinTarget(LitecoinConfig(n), prior, span) == Rescaled(prior, span, 302400)
  {
    if PreShifts(LitecoinConfig(n), prior) {
      PreShiftedIsLarge(n, prior);
    }
  }

  /** Larger ones are halved first and doubled afterwards. */
  lemma LitecoinWordShifted(n: Network, bits: u32, elapsed: int, product: nat)
    requires Decode(bits) >= Pow2(235) && product == (Decode(bits) / 2) * LitecoinSpanOf(elapsed)
    ensures LitecoinBits(LitecoinConfig(n), bits, elapsed) == DoubledWord(product)
  {
    LimitPowers(n);
    LitecoinSpanIs(n, elapsed);
    LargeShifted(n, Decode(bits), LitecoinSpanOf(elapsed));
  }

  function DoubledWord(product: nat): Option<nat> {
    if product >= TWO256 then None else Some(Encode(Min(2 * (product / 302400), Pow2(236) - 1)))
  }

  lemma LargeShifted(n: Network, prior: nat, span: nat)
    requires prior >= Pow2(235)
    ensures 0 <= (prior / 2) * span
    ensures LitecoinTarget(LitecoinConfig(n), prior, span)
            == if (prior / 2) * span >= TWO256 then None else Some(2 * (((prior / 2) * span) / 302400))
  {
    LargePreShifts(n, prior);
    MulMono(0, prior / 2, span);
    if (prior / 2) * span < TWO256 {
      DoubledFits(prior / 2, span, 302400);
    }
  }

  lemma LargePreShifts(n: Network, prior: nat)
    requires prior >= Pow2(235)
    ensures PreShifts(LitecoinConfig(n), prior)
  {
    LimitPowers(n);
    BitLenUnique(Pow2(236) - 1, 236);
    BitLenUnique(Pow2(235), 236);
    BitLenMono(Pow2(235), prior);
  }

  // ---- Dogecoin ----

  /** One minute, damped by eight towards zero and taken between 45 and 90 seconds. */
  lemma DogecoinSpanIs(n: Network, k: nat, r: nat)
    requires r < 8
    ensures DogecoinSpan(DogecoinConfig(n), 60 + (8 * k + r)) == if k <= 30 then 60 + k else 90
    ensures DogecoinSpan(DogecoinConfig(n), 60 - (8 * k + r)) == if k <= 15 then 60 - k else 45
  {
  }

  lemma DogecoinWord(n: Network, bits: u32, elapsed: int, span: nat)
    requires span == DogecoinSpan(DogecoinConfig(n), elapsed)
    ensures DogecoinBits(DogecoinConfig(n), bits, elapsed) == Word(Decode(bits), span, 60, Pow2(236) - 1)
  {
    LimitPowers(n);
  }

  // ---- Zcash ----

  /** Seventeen intervals of 75 seconds, damped by four towards zero and taken between 1071 and 1683
      seconds. */
  lemma ZcashSpanIs(n: Network, k: nat, r: nat)
    requires r < 4
    ensures ZcashSpan(ZcashConfigOf(n), 1275 + (4 * k + r)) == if k <= 408 then 1275 + k else 1683
    ensures ZcashSpan(ZcashConfigOf(n), 1275 - (4 * k + r)) == if k <= 204 then 1275 - k else 1071
  {
  }

  /** The word of the sum of the window's targets: one division by 17 * 1275, the product by the span
      less a dropped carry, and the cap. */
  lemma ZcashWord(n: Network, total: nat, elapsed: int, span: nat)
    requires total < TWO256 && span == ZcashSpan(ZcashConfigOf(n), elapsed)
    ensures 0 <= total / 17 < TWO256 && 0 <= total / 21675 < TWO256
    ensures var unit := total / 21675;
            var target := unit * span - (if DropsCarry(FromNat(unit).lo, span) then TWO128 else 0);
            && target >= 0
            && ZcashBits(ZcashConfigOf(n), total / 17, elapsed)
               == Some(Encode(Min(target, Pow2(if n.Mainnet? then 243 else 251) - 1)))
  {
    LimitPowers(n);
    ZcashConfigsSane(n);
    ZcashTargetForm(ZcashConfigOf(n), total, elapsed);
    ZcashProductFits(total, span);
  }
}
