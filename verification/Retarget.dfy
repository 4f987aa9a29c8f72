/** Difficulty retargeting of the four chains: what `calculate_next_work_required` computes in
    `contract/src/bitcoin.rs`, `litecoin.rs`, `dogecoin.rs` and `zcash.rs`, and its bounds. */
module Retarget {
  import opened Arith
  import opened Wide
  import opened Division
  import opened Compact
  import opened Hashing
  import opened Params

  /** Timespans are positive multiples of four and far below 2^38 seconds. */
  ghost predicate Sane(cfg: NetworkConfig) {
    && 4 <= cfg.timespan < 0x40_0000_0000 && cfg.timespan % 4 == 0
    && cfg.powLimit.Val() > 0
  }

  lemma ConfigsSane(n: Network)
    ensures Sane(BitcoinConfig(n)) && Sane(LitecoinConfig(n)) && Sane(DogecoinConfig(n))
  {
  }

  function Clamp(x: int, lo: int, hi: int): int {
    if x < lo then lo else if x > hi then hi else x
  }

  // ---- scaling a decoded target ----

  /** Decoded targets never lose a carry in the multiplication, whatever the 32-bit word. */
  lemma DecodedKeepsCarry(bits: u32, rhs: nat)
    requires rhs < 0x100_0000_0000
    ensures !DropsCarry(FromNat(Decode(bits)).lo, rhs)
  {
    var e, m := bits / EXPONENT_UNIT, bits % EXPONENT_UNIT;
    var v := Decode(bits);
    if v == 0 || e <= 3 {
      SmallKeepsCarry(v, rhs);
    } else {
      var s := (8 * (e - 3)) % 256;
      if s < 72 {
        SmallShift(m, s);
        SmallKeepsCarry(v, rhs);
      } else {
        ShiftedLowZero(m, s, 64);
        Pow2Limbs();
        LowZeroKeepsCarry(v, rhs);
      }
    }
  }

  /** In particular for a 23-bit mantissa shifted by whole bytes within 256 bits: every such number
      is the target of some word. */
  lemma ShiftedMantissaKeepsCarry(v: nat, mant: nat, bytes: nat, rhs: nat)
    requires v < TWO256 && v == mant * Bytes(bytes) && mant < SIGN_BIT && rhs < 0x100_0000_0000
    ensures !DropsCarry(FromNat(v).lo, rhs)
  {
    if bytes < 32 {
      WordFor(v, mant, bytes);
      DecodedKeepsCarry((bytes + 3) * EXPONENT_UNIT + mant, rhs);
    } else {
      NothingShifted(mant, bytes);
      SmallKeepsCarry(0, rhs);
    }
  }

  lemma WordFor(v: nat, mant: nat, bytes: nat)
    requires v < TWO256 && v == mant * Bytes(bytes) && mant < SIGN_BIT && bytes < 32
    ensures (bytes + 3) * EXPONENT_UNIT + mant < 0x1_0000_0000
    ensures Decode((bytes + 3) * EXPONENT_UNIT + mant) == v
  {
    DivModUnique((bytes + 3) * EXPONENT_UNIT + mant, EXPONENT_UNIT, bytes + 3, mant);
    DivModUnique(8 * bytes, 256, 0, 8 * bytes);
    DivModUnique(v, TWO256, 0, v);
    if bytes == 0 {
      assert Bytes(0) == 1;
    }
  }

  lemma NothingShifted(mant: nat, bytes: nat)
    requires bytes >= 32 && mant * Bytes(bytes) < TWO256
    ensures mant == 0
  {
    Pow2Limbs();
    Pow2Mono(256, 8 * bytes);
    if mant > 0 {
      MulMono(1, mant, Bytes(bytes));
    }
  }

  lemma SmallShift(m: nat, s: nat)
    requires m < SIGN_BIT && s <= 64
    ensures (m * Pow2(s)) % TWO256 == m * Pow2(s) < 0x80_0000_0000_0000_0000_0000
  {
    Pow2Limbs();
    Pow2Mono(s, 64);
    MulMono(m, SIGN_BIT - 1, Pow2(s));
    MulMono(Pow2(s), TWO64, SIGN_BIT - 1);
    MulMono(0, m, Pow2(s));
    DivModUnique(m * Pow2(s), TWO256, 0, m * Pow2(s));
  }

  lemma SmallKeepsCarry(v: nat, rhs: nat)
    requires v < 0x80_0000_0000_0000_0000_0000 && rhs < 0x100_0000_0000
    ensures !DropsCarry(FromNat(v).lo, rhs)
  {
    var a, b := v / TWO64, v % TWO64;
    DivModUnique(v, TWO128, 0, v);
    MulMono(a, 0x7f_ffff, rhs);
    MulMono(0, a, rhs);
    DivModUnique(a * rhs, TWO64, 0, a * rhs);
    MulMono(b, TWO64, rhs);
    DivGalois(b * rhs, TWO64, 0x100_0000_0000);
  }

  lemma LowZeroKeepsCarry(v: nat, rhs: nat)
    requires v < TWO256 && v % TWO64 == 0
    ensures !DropsCarry(FromNat(v).lo, rhs)
  {
    LowHalf(v);
  }

  /** Bits shifted out at the top leave the low ones zero. */
  lemma ShiftedLowZero(m: nat, s: nat, z: nat)
    requires z <= 72 && 72 <= s < 256
    ensures ((m * Pow2(s)) % TWO256) % Pow2(z) == 0
  {
    Pow2Limbs();
    Pow2Add(z, s - z);
    Pow2Add(z, 256 - z);
    Regroup(m, Pow2(z), Pow2(s - z));
    RemainderMultiple(m * Pow2(s), m * Pow2(s - z), Pow2(z), Pow2(256 - z), TWO256);
  }

  lemma Regroup(m: nat, p: nat, w: nat)
    ensures m * (p * w) == (m * w) * p
  {
  }

  lemma RemainderMultiple(x: int, k: int, p: nat, t: nat, modulus: nat)
    requires p > 0 && modulus > 0 && p * t == modulus && x == k * p
    ensures (x % modulus) % p == 0
  {
    var q, r := x / modulus, x % modulus;
    assert r == (k - q * t) * p by {
      assert q * modulus == (q * t) * p;
      assert (k - q * t) * p == k * p - (q * t) * p;
    }
    DivModUnique(r, p, k - q * t, 0);
  }

  lemma HalvedLowZero(m: nat, s: nat)
    requires 72 <= s < 256
    ensures (((m * Pow2(s)) % TWO256) / 2) % TWO64 == 0
  {
    var v := (m * Pow2(s)) % TWO256;
    ShiftedLowZero(m, s, 65);
    Pow2Limbs();
    Pow2Add(1, 64);
    var k := v / Pow2(65);
    assert v == (k * TWO64) * 2 by { assert k * (2 * TWO64) == (k * TWO64) * 2; }
    DivModUnique(v, 2, k * TWO64, 0);
    DivModUnique(k * TWO64, TWO64, k, 0);
  }

  /** `overflowing_mul` for callers: by its result. */
  method Multiply(target: U256, rhs: u64) returns (product: U256, overflow: bool)
    ensures (product, overflow) == OverflowingMul(target, rhs)
    ensures !DropsCarry(target.lo, rhs) ==>
              && (overflow <==> target.Val() * rhs >= TWO256)
              && (!overflow ==> product.Val() == target.Val() * rhs)
  {
    MulResult(target, rhs);
    var result := OverflowingMul(target, rhs);
    product, overflow := result.0, result.1;
  }

  /** The common tail of all four chains: cap at the limit and encode. */
  function CappedBits(target: nat, powLimit: U256): (bits: u32)
    ensures Decode(bits) <= powLimit.Val() && Decode(bits) <= target
  {
    CompactLoss(Min(target, powLimit.Val()));
    Encode(Min(target, powLimit.Val()))
  }

  method CapAndEncode(target: U256, powLimit: U256) returns (bits: u32)
    ensures bits == CappedBits(target.Val(), powLimit)
  {
    ValFaithful(powLimit, target);
    bits := TargetToBits(if powLimit.Less(target) then powLimit else target);
  }

  /** Rescaling by `actual / timespan`, rounded down; `None` is the overflow panic. */
  function Rescaled(prior: nat, actual: nat, timespan: nat): Option<nat>
    requires timespan > 0
  {
    MulMono(0, prior, actual);
    DivGalois(prior * actual, timespan, 0);
    if prior * actual >= TWO256 then None else Some((prior * actual) / timespan)
  }

  method Rescale(target: U256, actual: nat, timespan: nat) returns (r: Option<U256>)
    requires 0 < timespan < TWO64 && actual < TWO64 && !DropsCarry(target.lo, actual)
    ensures r.None? <==> Rescaled(target.Val(), actual, timespan).None?
    ensures r.Some? ==> Rescaled(target.Val(), actual, timespan) == Some(r.value.Val())
  {
    var product, overflow := Multiply(target, actual);
    if overflow {
      return None;
    }
    var quotient, _ := DivRem(product, U256(0, timespan));
    return Some(quotient);
  }

  // ---- Bitcoin ----

  function BitcoinSpan(cfg: NetworkConfig, elapsed: int): int {
    Clamp(elapsed, cfg.timespan / 4, cfg.timespan * 4)
  }

  function BitcoinBits(cfg: NetworkConfig, prevBits: u32, elapsed: int): Option<u32>
    requires cfg.timespan >= 4
  {
    match Rescaled(Decode(prevBits), BitcoinSpan(cfg, elapsed), cfg.timespan)
    case None => None
    case Some(t) => Some(CappedBits(t, cfg.powLimit))
  }

  method CalculateBitcoin(cfg: NetworkConfig, prevBits: u32, prevTime: int, firstTime: int)
    returns (bits: Option<u32>)
    requires Sane(cfg)
    ensures bits == BitcoinBits(cfg, prevBits, prevTime - firstTime)
  {
    var actual := prevTime - firstTime;
    if actual < cfg.timespan / 4 {
      actual := cfg.timespan / 4;
    }
    if actual > cfg.timespan * 4 {
      actual := cfg.timespan * 4;
    }
    var target := TargetFromBits(prevBits);
    DecodedKeepsCarry(prevBits, actual);
    var rescaled := Rescale(target, actual, cfg.timespan);
    if rescaled.None? {
      return None;
    }
    var encoded := CapAndEncode(rescaled.value, cfg.powLimit);
    return Some(encoded);
  }

  // ---- Litecoin ----

  /** Litecoin halves the largest targets before the multiplication and doubles afterwards. */
  predicate PreShifts(cfg: NetworkConfig, prior: nat) {
    BitLen(prior) > BitLen(cfg.powLimit.Val()) - 1
  }

  function LitecoinTarget(cfg: NetworkConfig, prior: nat, span: nat): Option<nat>
    requires cfg.timespan >= 4
  {
    if PreShifts(cfg, prior) then
      match Rescaled(prior / 2, span, cfg.timespan)
      case None => None
      case Some(t) => Some((t * 2) % TWO256)
    else
      Rescaled(prior, span, cfg.timespan)
  }

  function LitecoinBits(cfg: NetworkConfig, prevBits: u32, elapsed: int): Option<u32>
    requires cfg.timespan >= 4
  {
    match LitecoinTarget(cfg, Decode(prevBits), BitcoinSpan(cfg, elapsed))
    case None => None
    case Some(t) => Some(CappedBits(t, cfg.powLimit))
  }

  method CalculateLitecoin(cfg: NetworkConfig, prevBits: u32, prevTime: int, firstTime: int)
    returns (bits: Option<u32>)
    requires Sane(cfg)
    ensures bits == LitecoinBits(cfg, prevBits, prevTime - firstTime)
  {
    var actual := prevTime - firstTime;
    if actual < cfg.timespan / 4 {
      actual := cfg.timespan / 4;
    }
    if actual > cfg.timespan * 4 {
      actual := cfg.timespan * 4;
    }
    var newTarget := LitecoinRescale(cfg, prevBits, actual);
    if newTarget.None? {
      return None;
    }
    var encoded := CapAndEncode(newTarget.value, cfg.powLimit);
    return Some(encoded);
  }

  method LitecoinRescale(cfg: NetworkConfig, prevBits: u32, actual: nat) returns (r: Option<U256>)
    requires Sane(cfg) && actual < 0x100_0000_0000
    ensures r.None? <==> LitecoinTarget(cfg, Decode(prevBits), actual).None?
    ensures r.Some? ==> LitecoinTarget(cfg, Decode(prevBits), actual) == Some(r.value.Val())
  {
    var target := TargetFromBits(prevBits);
    if Bits(target) > Bits(cfg.powLimit) - 1 {
      target := Half(target);
      HalvedKeepsCarry(prevBits, actual);
      ValFaithful(target, FromNat(Decode(prevBits) / 2));
      var rescaled := Rescale(target, actual, cfg.timespan);
      if rescaled.None? {
        return None;
      }
      var doubled := Double(rescaled.value);
      return Some(doubled);
    } else {
      DecodedKeepsCarry(prevBits, actual);
      r := Rescale(target, actual, cfg.timespan);
    }
  }

  /** `a << 1`. */
  method Double(a: U256) returns (r: U256)
    ensures r.Val() == (a.Val() * 2) % TWO256
  {
    assert Pow2(1) == 2;
    r := WrappingShl(a, 1);
  }

  /** Halving keeps a decoded target free of dropped carries. */
  lemma HalvedKeepsCarry(bits: u32, rhs: nat)
    requires rhs < 0x100_0000_0000
    ensures !DropsCarry(FromNat(Decode(bits) / 2).lo, rhs)
  {
    var e, m := bits / EXPONENT_UNIT, bits % EXPONENT_UNIT;
    var v := Decode(bits);
    if v == 0 || e <= 3 {
      SmallKeepsCarry(v / 2, rhs);
    } else {
      var s := (8 * (e - 3)) % 256;
      if s < 72 {
        SmallShift(m, s);
        SmallKeepsCarry(v / 2, rhs);
      } else {
        HalvedLowZero(m, s);
        LowZeroKeepsCarry(v / 2, rhs);
      }
    }
  }

  // ---- Dogecoin ----

  function DogecoinSpan(cfg: NetworkConfig, elapsed: int): int {
    Clamp(cfg.timespan + TruncDiv(elapsed - cfg.timespan, 8),
          cfg.timespan - cfg.timespan / 4, cfg.timespan + cfg.timespan / 2)
  }

  function DogecoinBits(cfg: NetworkConfig, prevBits: u32, elapsed: int): Option<u32>
    requires cfg.timespan >= 4
  {
    match Rescaled(Decode(prevBits), DogecoinSpan(cfg, elapsed), cfg.timespan)
    case None => None
    case Some(t) => Some(CappedBits(t, cfg.powLimit))
  }

  method CalculateDogecoin(cfg: NetworkConfig, prevBits: u32, prevTime: int, firstTime: int)
    returns (bits: Option<u32>)
    requires Sane(cfg)
    ensures bits == DogecoinBits(cfg, prevBits, prevTime - firstTime)
  {
    var modulated := prevTime - firstTime;
    modulated := cfg.timespan + TruncDiv(modulated - cfg.timespan, 8);
    var minTimespan := cfg.timespan - cfg.timespan / 4;
    var maxTimespan := cfg.timespan + cfg.timespan / 2;
    if modulated < minTimespan {
      modulated := minTimespan;
    } else if modulated > maxTimespan {
      modulated := maxTimespan;
    }
    var target := TargetFromBits(prevBits);
    DecodedKeepsCarry(prevBits, modulated);
    var rescaled := Rescale(target, modulated, cfg.timespan);
    if rescaled.None? {
      return None;
    }
    var encoded := CapAndEncode(rescaled.value, cfg.powLimit);
    return Some(encoded);
  }

  // ---- Zcash ----

  ghost predicate SaneZcash(cfg: ZcashConfig) {
    && 0 < cfg.WindowTimespan() < 0x1_0000_0000 && 11 <= cfg.window < 0x1_0000
    && 0 <= cfg.MinActual() <= cfg.MaxActual() < 0x1_0000_0000
  }

  lemma ZcashConfigsSane(n: Network)
    ensures SaneZcash(ZcashConfigOf(n))
    ensures var cfg := ZcashConfigOf(n);
            cfg.WindowTimespan() == 1275 && cfg.MinActual() == 1071 && cfg.MaxActual() == 1683
  {
  }

  function ZcashSpan(cfg: ZcashConfig, elapsed: int): int {
    Clamp(cfg.WindowTimespan() + TruncDiv(elapsed - cfg.WindowTimespan(), 4),
          cfg.MinActual(), cfg.MaxActual())
  }

  /** The multiplication comes after the division here, so its carry may be dropped. */
  function ZcashTarget(cfg: ZcashConfig, average: nat, elapsed: int): Option<nat>
    requires average < TWO256 && cfg.WindowTimespan() > 0
    requires 0 <= ZcashSpan(cfg, elapsed) < TWO64
  {
    DivShrinks(average, cfg.WindowTimespan());
    var (product, overflow) :=
      OverflowingMul(FromNat(average / cfg.WindowTimespan()), ZcashSpan(cfg, elapsed));
    if overflow then None else Some(product.Val())
  }

  function ZcashBits(cfg: ZcashConfig, average: nat, elapsed: int): Option<u32>
    requires average < TWO256 && cfg.WindowTimespan() > 0
    requires 0 <= ZcashSpan(cfg, elapsed) < TWO64
  {
    match ZcashTarget(cfg, average, elapsed)
    case None => None
    case Some(t) => Some(CappedBits(t, cfg.powLimit))
  }

  method CalculateZcash(cfg: ZcashConfig, average: U256, lastMedian: int, firstMedian: int)
    returns (bits: Option<u32>)
    requires SaneZcash(cfg)
    ensures bits == ZcashBits(cfg, average.Val(), lastMedian - firstMedian)
  {
    var window := cfg.WindowTimespan();
    var actual := lastMedian - firstMedian;
    actual := window + TruncDiv(actual - window, 4);
    if actual < cfg.MinActual() {
      actual := cfg.MinActual();
    }
    if actual > cfg.MaxActual() {
      actual := cfg.MaxActual();
    }
    var quotient, _ := DivRem(average, U256(0, window));
    ValFaithful(quotient, FromNat(average.Val() / window));
    var product, overflow := Multiply(quotient, actual);
    if overflow {
      return None;
    }
    var encoded := CapAndEncode(product, cfg.powLimit);
    return Some(encoded);
  }
}
