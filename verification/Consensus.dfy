/** Header checks against the stored chain: the expected bits (`get_next_work_required` of the
    four chains), median time past (`contract/src/utils.rs`) and `check_pow`. */
module Consensus {
  import opened Arith
  import opened Wide
  import opened Division
  import opened Compact
  import opened Hashing
  import opened Median
  import opened Params
  import opened Retarget
  import opened ChainState

  datatype Coin = Bitcoin | Litecoin | Dogecoin | Zcash

  const MAX_FUTURE_BLOCK_TIME_MTP: nat := 90 * 60
  const MAX_FUTURE_BLOCK_TIME_LOCAL: nat := 2 * 60 * 60

  function ConfigOf(coin: Coin, n: Network): NetworkConfig
    requires !coin.Zcash?
  {
    match coin
    case Bitcoin => BitcoinConfig(n)
    case Litecoin => LitecoinConfig(n)
    case Dogecoin => DogecoinConfig(n)
  }

  // ---- walking back through the pool ----

  function TimeOf(k: H256): u32 { if k.OfHeader? then k.header.time else 0 }

  function BitsOf(k: H256): u32 { if k.OfHeader? then k.header.bits else 0 }

  /** Times of the `n` blocks from `k` backwards. */
  function Times(k: H256, n: nat): (s: seq<u32>)
    ensures |s| == n
  {
    seq(n, i requires 0 <= i < n => TimeOf(Ancestor(k, i)))
  }

  /** The `n` ancestors of `k` are all still stored. */
  predicate Linked(c: Chain, k: H256, n: nat) {
    forall i :: 1 <= i <= n ==> Ancestor(k, i) in c.pool
  }

  /** Reading the median takes eleven steps back, the last of them past the window. */
  function MedianTimePast(c: Chain, k: H256): Option<u32> {
    if Linked(c, k, MEDIAN_TIME_SPAN) then Some(MedianOf(Times(k, MEDIAN_TIME_SPAN))) else None
  }

  ghost predicate Stored(c: Chain, a: Anchor, e: ExtendedHeader) {
    PoolOk(c.pool, a) && e.hash in c.pool && c.pool[e.hash] == e
  }

  method GetMedianTimePast(c: Chain, start: ExtendedHeader, ghost a: Anchor) returns (median: Option<u32>)
    requires Stored(c, a, start)
    ensures median == MedianTimePast(c, start.hash)
  {
    var medianTime := new u32[MEDIAN_TIME_SPAN](_ => 0);
    var current := start;
    for i := 0 to MEDIAN_TIME_SPAN
      invariant Walked(c, a, start.hash, current, i)
      invariant forall j :: 0 <= j < i ==> medianTime[j] == TimeOf(Ancestor(start.hash, j))
    {
      StepBack(c, a, start.hash, current, i);
      medianTime[i] := current.header.time;
      if current.header.prev !in c.pool {
        return None;
      }
      current := c.pool[current.header.prev];
    }
    assert medianTime[..] == Times(start.hash, MEDIAN_TIME_SPAN);
    SortUnstable(medianTime);
    return Some(medianTime[MEDIAN_TIME_SPAN / 2]);
  }

  /** The last block that was not mined under the minimum-difficulty rule: the walk stops at a
      block with other bits or at an interval boundary; `None` when a parent is missing. */
  function WalkBack(c: Chain, cfg: NetworkConfig, k: H256): Option<H256>
    requires cfg.interval > 0
  {
    if k !in c.pool || !k.OfHeader? then None
    else if k.header.bits == cfg.limitBits && c.pool[k].height % cfg.interval != 0 then
      WalkBack(c, cfg, k.header.prev)
    else Some(k)
  }

  method WalkBackLoop(c: Chain, cfg: NetworkConfig, start: ExtendedHeader, ghost a: Anchor)
    returns (bits: Option<u32>)
    requires Stored(c, a, start) && cfg.interval > 0
    ensures match WalkBack(c, cfg, start.hash)
            case None => bits == None
            case Some(k) => bits == Some(BitsOf(k))
  {
    var current := start;
    while current.header.bits == cfg.limitBits && current.height % cfg.interval != 0
      invariant Stored(c, a, current)
      invariant WalkBack(c, cfg, current.hash) == WalkBack(c, cfg, start.hash)
      decreases current.hash
    {
      if current.header.prev !in c.pool {
        return None;
      }
      current := c.pool[current.header.prev];
    }
    return Some(current.header.bits);
  }

  /** A stored block that the walk passes over. */
  predicate Passed(c: Chain, cfg: NetworkConfig, k: H256)
    requires cfg.interval > 0
  {
    k in c.pool && BitsOf(k) == cfg.limitBits && c.pool[k].height % cfg.interval != 0
  }

  /** The walk takes `n <= height % interval` steps, so it stays within the current interval, and
      every block before the `n`-th ancestor is stored, of minimum difficulty and not at the start
      of the interval. It ends at the `n`-th ancestor, the first that is not passed over, or fails
      because that one is missing. */
  lemma {:induction false} WalkBackWithinInterval(c: Chain, a: Anchor, cfg: NetworkConfig, k: H256) returns (n: nat)
    requires PoolOk(c.pool, a) && cfg.interval > 0 && k in c.pool
    ensures n <= c.pool[k].height % cfg.interval && n <= Links(k)
    ensures forall j: nat :: j < n ==> Passed(c, cfg, Ancestor(k, j))
    ensures match WalkBack(c, cfg, k)
            case None => Ancestor(k, n) !in c.pool
            case Some(r) =>
              && r == Ancestor(k, n) && r in c.pool && !Passed(c, cfg, r)
              && c.pool[r].height == c.pool[k].height - n
  {
    n := 0;
    if Passed(c, cfg, k) {
      var prev := k.header.prev;
      StepWithinInterval(c.pool[k].height, cfg.interval);
      var m: nat := 0;
      if prev in c.pool {
        m := WalkBackWithinInterval(c, a, cfg, prev);
      }
      n := m + 1;
      forall j: nat | j < n ensures Passed(c, cfg, Ancestor(k, j)) {
        if j > 0 {
          assert Ancestor(k, j) == Ancestor(prev, j - 1);
        }
      }
    }
  }

  lemma StepWithinInterval(h: int, interval: nat)
    requires interval > 0 && h % interval != 0
    ensures (h - 1) / interval == h / interval && (h - 1) % interval == h % interval - 1
  {
    DivModUnique(h - 1, interval, h / interval, h % interval - 1);
  }

  // ---- expected bits: Bitcoin, Litecoin, Dogecoin ----

  /** `header.time > prev.time + 2 * spacing`, where the sum is checked at 32 bits. */
  function SlowBlock(cfg: NetworkConfig, h: Header, prev: ExtendedHeader): Option<bool> {
    if prev.header.time + 2 * cfg.spacing >= WORD then None
    else Some(h.time > prev.header.time + 2 * cfg.spacing)
  }

  /** Bits between retargets. */
  function BetweenRetargets(cfg: NetworkConfig, c: Chain, h: Header, prev: ExtendedHeader): Option<u32>
    requires cfg.interval > 0
  {
    if !cfg.allowMin then Some(prev.header.bits)
    else
      match SlowBlock(cfg, h, prev)
      case None => None
      case Some(slow) =>
        if slow then Some(cfg.limitBits)
        else
          match WalkBack(c, cfg, prev.hash)
          case None => None
          case Some(k) => Some(BitsOf(k))
  }

  function BlockByHeight(c: Chain, height: int): Option<ExtendedHeader> {
    if height in c.byHeight && c.byHeight[height] in c.pool
    then Some(c.pool[c.byHeight[height]]) else None
  }

  /** How far back the first block of the elapsed interval lies. */
  function StepsBack(coin: Coin, interval: nat, height: int): int {
    if coin.Bitcoin? || height + 1 == interval then interval - 1 else interval
  }

  function RetargetBits(coin: Coin, cfg: NetworkConfig, bits: u32, elapsed: int): Option<u32>
    requires cfg.timespan >= 4
  {
    match coin
    case Bitcoin => BitcoinBits(cfg, bits, elapsed)
    case Litecoin => LitecoinBits(cfg, bits, elapsed)
    case _ => DogecoinBits(cfg, bits, elapsed)
  }

  function AtRetarget(coin: Coin, cfg: NetworkConfig, interval: nat, c: Chain, prev: ExtendedHeader): Option<u32>
    requires cfg.timespan >= 4
  {
    match BlockByHeight(c, prev.height - StepsBack(coin, interval, prev.height))
    case None => None
    case Some(first) =>
      RetargetBits(coin, cfg, prev.header.bits, prev.header.time - first.header.time)
  }

  /** Dogecoin's Digishield rule for minimum-difficulty blocks. */
  function AllowMinDifficulty(coin: Coin, cfg: NetworkConfig, h: Header, prev: ExtendedHeader): Option<bool> {
    if !coin.Dogecoin? || !cfg.allowMin || prev.height < 157_500 then Some(false)
    else SlowBlock(cfg, h, prev)
  }

  function EffectiveInterval(coin: Coin, cfg: NetworkConfig, prev: ExtendedHeader): (i: nat)
    requires cfg.interval > 0
    ensures i > 0
  {
    if coin.Dogecoin? && prev.height >= 145_000 then 1 else cfg.interval
  }

  /** The bits a child of `prev` must carry; `None` is any panic on the way. */
  function NextWork(coin: Coin, cfg: NetworkConfig, c: Chain, h: Header, prev: ExtendedHeader): Option<u32>
    requires cfg.timespan >= 4 && cfg.interval > 0
  {
    match AllowMinDifficulty(coin, cfg, h, prev)
    case None => None
    case Some(allow) =>
      if allow then Some(cfg.limitBits)
      else
        var interval := EffectiveInterval(coin, cfg, prev);
        if (prev.height + 1) % interval != 0 then BetweenRetargets(cfg, c, h, prev)
        else AtRetarget(coin, cfg, interval, c, prev)
  }

  method CalculateNextWorkRequired(coin: Coin, cfg: NetworkConfig, prev: ExtendedHeader, firstTime: int)
    returns (bits: Option<u32>)
    requires Sane(cfg)
    ensures bits == RetargetBits(coin, cfg, prev.header.bits, prev.header.time - firstTime)
  {
    match coin {
      case Bitcoin =>
        bits := CalculateBitcoin(cfg, prev.header.bits, prev.header.time, firstTime);
      case Litecoin =>
        bits := CalculateLitecoin(cfg, prev.header.bits, prev.header.time, firstTime);
      case _ =>
        bits := CalculateDogecoin(cfg, prev.header.bits, prev.header.time, firstTime);
    }
  }

  method GetNextWorkRequired(coin: Coin, cfg: NetworkConfig, c: Chain, h: Header, prev: ExtendedHeader,
                             ghost a: Anchor)
    returns (bits: Option<u32>)
    requires Stored(c, a, prev) && Sane(cfg) && cfg.interval > 0
    ensures bits == NextWork(coin, cfg, c, h, prev)
  {
    var allow := AllowMinDifficulty(coin, cfg, h, prev);
    if allow.None? {
      return None;
    }
    if allow.value {
      return Some(cfg.limitBits);
    }
    var interval := EffectiveInterval(coin, cfg, prev);
    if (prev.height + 1) % interval != 0 {
      if cfg.allowMin {
        var slow := SlowBlock(cfg, h, prev);
        if slow.None? {
          return None;
        }
        if slow.value {
          return Some(cfg.limitBits);
        }
        bits := WalkBackLoop(c, cfg, prev, a);
        return;
      }
      return Some(prev.header.bits);
    }
    bits := RetargetNow(coin, cfg, interval, c, prev);
  }

  /** The part at the end of an interval. */
  method RetargetNow(coin: Coin, cfg: NetworkConfig, interval: nat, c: Chain, prev: ExtendedHeader)
    returns (bits: Option<u32>)
    requires Sane(cfg)
    ensures bits == AtRetarget(coin, cfg, interval, c, prev)
  {
    var blocksToGoBack := interval - 1;
    if !coin.Bitcoin? && prev.height + 1 != interval {
      blocksToGoBack := interval;
    }
    var first := BlockByHeight(c, prev.height - blocksToGoBack);
    if first.None? {
      return None;
    }
    bits := CalculateNextWorkRequired(coin, cfg, prev, first.value.header.time);
  }

  // ---- expected bits: Zcash ----

  /** Sum of the targets of the `n` blocks from `k` backwards. */
  function TargetSum(k: H256, n: nat): nat
    decreases n
  {
    if n == 0 then 0 else TargetSum(k, n - 1) + Decode(BitsOf(Ancestor(k, n - 1)))
  }

  datatype NextWorkResult = NextWorkResult(expectedBits: u32, prevMedian: u32)

  predicate ZcashMinDifficulty(cfg: ZcashConfig, h: Header, prev: ExtendedHeader) {
    && cfg.minAfterHeight.Some? && prev.height >= cfg.minAfterHeight.value
    && h.time > prev.header.time + 6 * cfg.spacing
  }

  /** Two medians of the stored chain and the mean of the window's targets. */
  function ZcashNextWork(cfg: ZcashConfig, c: Chain, h: Header, prev: ExtendedHeader): Option<NextWorkResult>
    requires cfg.window > 0 && cfg.WindowTimespan() > 0
    requires 0 <= cfg.MinActual() <= cfg.MaxActual() < 0x1_0000_0000
  {
    var k, total := prev.hash, TargetSum(prev.hash, cfg.window);
    if !Linked(c, k, cfg.window + MEDIAN_TIME_SPAN) || total >= TWO256 then None
    else
      var last := MedianOf(Times(k, MEDIAN_TIME_SPAN));
      var first := MedianOf(Times(Ancestor(k, cfg.window), MEDIAN_TIME_SPAN));
      if ZcashMinDifficulty(cfg, h, prev) then Some(NextWorkResult(cfg.limitBits, last))
      else
        DivShrinks(total, cfg.window);
        match ZcashBits(cfg, total / cfg.window, last - first)
        case None => None
        case Some(bits) => Some(NextWorkResult(bits, last))
  }

  lemma {:induction false} TargetSumMono(k: H256, m: nat, n: nat)
    requires m <= n
    ensures TargetSum(k, m) <= TargetSum(k, n)
    decreases n
  {
    if m < n {
      TargetSumMono(k, m, n - 1);
    }
  }

  /** `i` stored prev links lead from `start` to `current`. */
  ghost predicate Walked(c: Chain, a: Anchor, start: H256, current: ExtendedHeader, i: nat) {
    && Stored(c, a, current) && i <= Links(start)
    && current.hash == Ancestor(start, i) && Linked(c, start, i)
  }

  lemma StepBack(c: Chain, a: Anchor, start: H256, current: ExtendedHeader, i: nat)
    requires Walked(c, a, start, current, i)
    ensures Ancestor(start, i + 1) == current.header.prev
    ensures BitsOf(Ancestor(start, i)) == current.header.bits
    ensures TimeOf(Ancestor(start, i)) == current.header.time
    ensures current.header.prev in c.pool ==>
              Walked(c, a, start, c.pool[current.header.prev], i + 1)
  {
    AncestorLinks(start, i);
    AncestorAdd(start, i, 1);
    assert Ancestor(current.hash, 1) == current.header.prev;
  }

  method AddTarget(sum: U256, bits: u32) returns (next: Option<U256>)
    ensures next.None? <==> sum.Val() + Decode(bits) >= TWO256
    ensures next.Some? ==> next.value.Val() == sum.Val() + Decode(bits)
  {
    var target := TargetFromBits(bits);
    var total, overflow := OverflowingAdd(sum, target);
    return if overflow then None else Some(total);
  }

  /** What the first loop has established when it completes. */
  ghost predicate WindowRead(cfg: ZcashConfig, c: Chain, a: Anchor, prev: ExtendedHeader,
                             total: U256, times: seq<u32>, current: ExtendedHeader) {
    && Walked(c, a, prev.hash, current, cfg.window)
    && total.Val() == TargetSum(prev.hash, cfg.window)
    && times == Times(prev.hash, MEDIAN_TIME_SPAN)
  }

  /** The first loop: the window's targets are summed while the newest eleven times are kept. */
  method SumWindow(cfg: ZcashConfig, c: Chain, prev: ExtendedHeader, medianTime: array<u32>, ghost a: Anchor)
    returns (total: Option<U256>, current: ExtendedHeader)
    requires Stored(c, a, prev) && SaneZcash(cfg) && medianTime.Length == MEDIAN_TIME_SPAN
    modifies medianTime
    ensures total.None? ==> !Linked(c, prev.hash, cfg.window) || TargetSum(prev.hash, cfg.window) >= TWO256
    ensures total.Some? ==> WindowRead(cfg, c, a, prev, total.value, medianTime[..], current)
  {
    var sum := ZERO;
    current := prev;
    for i := 0 to cfg.window
      invariant Walked(c, a, prev.hash, current, i)
      invariant forall j :: 0 <= j < i && j < MEDIAN_TIME_SPAN ==> medianTime[j] == TimeOf(Ancestor(prev.hash, j))
      invariant sum.Val() == TargetSum(prev.hash, i)
    {
      StepBack(c, a, prev.hash, current, i);
      if i < MEDIAN_TIME_SPAN {
        medianTime[i] := current.header.time;
      }
      var next := AddTarget(sum, current.header.bits);
      if next.None? || current.header.prev !in c.pool {
        WindowFails(c, prev.hash, i, cfg.window);
        return None, current;
      }
      sum := next.value;
      current := c.pool[current.header.prev];
    }
    assert medianTime[..] == Times(prev.hash, MEDIAN_TIME_SPAN);
    return Some(sum), current;
  }

  lemma WindowFails(c: Chain, k: H256, i: nat, window: nat)
    requires i < window && (TargetSum(k, i + 1) >= TWO256 || Ancestor(k, i + 1) !in c.pool)
    ensures !Linked(c, k, window) || TargetSum(k, window) >= TWO256
  {
    TargetSumMono(k, i + 1, window);
  }

  /** The second loop: the eleven times before the window. */
  method FillTimes(c: Chain, start: ExtendedHeader, medianTime: array<u32>, ghost a: Anchor) returns (ok: bool)
    requires Stored(c, a, start) && medianTime.Length == MEDIAN_TIME_SPAN
    modifies medianTime
    ensures ok <==> Linked(c, start.hash, MEDIAN_TIME_SPAN)
    ensures ok ==> medianTime[..] == Times(start.hash, MEDIAN_TIME_SPAN)
  {
    var current := start;
    for i := 0 to MEDIAN_TIME_SPAN
      invariant Walked(c, a, start.hash, current, i)
      invariant forall j :: 0 <= j < i ==> medianTime[j] == TimeOf(Ancestor(start.hash, j))
    {
      StepBack(c, a, start.hash, current, i);
      medianTime[i] := current.header.time;
      if current.header.prev !in c.pool {
        return false;
      }
      current := c.pool[current.header.prev];
    }
    assert medianTime[..] == Times(start.hash, MEDIAN_TIME_SPAN);
    return true;
  }

  /** Links compose: the walk of the window and the walk behind it are one walk. */
  lemma LinkedSplit(c: Chain, k: H256, m: nat, n: nat)
    requires m <= Links(k)
    ensures Linked(c, k, m + n) <==> Linked(c, k, m) && Linked(c, Ancestor(k, m), n)
  {
    forall i | 1 <= i <= n ensures Ancestor(Ancestor(k, m), i) == Ancestor(k, m + i) {
      AncestorAdd(k, m, i);
    }
    if Linked(c, k, m) && Linked(c, Ancestor(k, m), n) {
      forall i | 1 <= i <= m + n ensures Ancestor(k, i) in c.pool {
        if i > m {
          assert Ancestor(k, i) == Ancestor(Ancestor(k, m), i - m);
        }
      }
    }
    if Linked(c, k, m + n) {
      forall i | 1 <= i <= n ensures Ancestor(Ancestor(k, m), i) in c.pool {
        assert Ancestor(k, m + i) in c.pool;
      }
    }
  }

  method ZcashGetNextWorkRequired(cfg: ZcashConfig, c: Chain, h: Header, prev: ExtendedHeader, ghost a: Anchor)
    returns (r: Option<NextWorkResult>)
    requires Stored(c, a, prev) && SaneZcash(cfg)
    ensures r == ZcashNextWork(cfg, c, h, prev)
  {
    var medianTime := new u32[MEDIAN_TIME_SPAN](_ => 0);
    var total, current := SumWindow(cfg, c, prev, medianTime, a);
    if total.None? {
      return None;
    }
    LinkedSplit(c, prev.hash, cfg.window, MEDIAN_TIME_SPAN);
    SortUnstable(medianTime);
    var prevMedian := medianTime[MEDIAN_TIME_SPAN / 2];
    var linked := FillTimes(c, current, medianTime, a);
    if !linked {
      return None;
    }
    SortUnstable(medianTime);
    var firstMedian := medianTime[MEDIAN_TIME_SPAN / 2];
    if ZcashMinDifficulty(cfg, h, prev) {
      return Some(NextWorkResult(cfg.limitBits, prevMedian));
    }
    var bits := MeanTargetBits(cfg, total.value, prevMedian, firstMedian);
    if bits.None? {
      return None;
    }
    return Some(NextWorkResult(bits.value, prevMedian));
  }

  /** The mean of the window's targets, rescaled. */
  method MeanTargetBits(cfg: ZcashConfig, total: U256, prevMedian: u32, firstMedian: u32)
    returns (bits: Option<u32>)
    requires SaneZcash(cfg)
    ensures 0 <= total.Val() / cfg.window < TWO256
    ensures bits == ZcashBits(cfg, total.Val() / cfg.window, prevMedian - firstMedian)
  {
    var divisor := U256(0, cfg.window);
    assert divisor.Val() == cfg.window;
    var average, _ := DivRem(total, divisor);
    bits := CalculateZcash(cfg, average, prevMedian, firstMedian);
  }

  /** The single walk of the Zcash check reads the same medians as two separate
      median-time-past calls, on the parent and on the block before the window. */
  lemma ZcashMediansAreMtp(cfg: ZcashConfig, c: Chain, a: Anchor, h: Header, prev: ExtendedHeader)
    requires SaneZcash(cfg) && Stored(c, a, prev) && ZcashNextWork(cfg, c, h, prev).Some?
    ensures MedianTimePast(c, prev.hash) == Some(ZcashNextWork(cfg, c, h, prev).value.prevMedian)
    ensures MedianTimePast(c, Ancestor(prev.hash, cfg.window)).Some?
    ensures 0 <= TargetSum(prev.hash, cfg.window) / cfg.window < TWO256
    ensures !ZcashMinDifficulty(cfg, h, prev) ==>
              Some(ZcashNextWork(cfg, c, h, prev).value.expectedBits)
              == ZcashBits(cfg, TargetSum(prev.hash, cfg.window) / cfg.window,
                           MedianTimePast(c, prev.hash).value
                           - MedianTimePast(c, Ancestor(prev.hash, cfg.window)).value)
  {
    LinkedDepth(c, a, prev.hash, cfg.window + MEDIAN_TIME_SPAN);
    LinkedSplit(c, prev.hash, cfg.window, MEDIAN_TIME_SPAN);
    DivShrinks(TargetSum(prev.hash, cfg.window), cfg.window);
  }

  /** A stored walk cannot be longer than the chain of headers the hash commits to. */
  lemma LinkedDepth(c: Chain, a: Anchor, k: H256, n: nat)
    requires PoolOk(c.pool, a) && k in c.pool && Linked(c, k, n)
    ensures n <= Links(k)
  {
    AncestorLinks(k, Links(k));
    assert Links(k) > 0 && Links(Ancestor(k, Links(k))) == 0;
  }

  // ---- check_pow ----

  /** `time <= now + 2h`, with the sum and the clock checked at 32 bits. */
  predicate NotTooNew(time: u32, now: nat) {
    now + MAX_FUTURE_BLOCK_TIME_LOCAL < WORD && time <= now + MAX_FUTURE_BLOCK_TIME_LOCAL
  }

  predicate ZcashPowOk(n: Network, c: Chain, h: Header, prev: ExtendedHeader, now: nat, solutionOk: bool) {
    var cfg := ZcashConfigOf(n);
    match ZcashNextWork(cfg, c, h, prev)
    case None => false
    case Some(r) =>
      && r.expectedBits == h.bits
      && h.time > r.prevMedian
      && r.prevMedian + MAX_FUTURE_BLOCK_TIME_MTP < WORD
      && h.time <= r.prevMedian + MAX_FUTURE_BLOCK_TIME_MTP
      && NotTooNew(h.time, now)
      && h.version >= 4
      && solutionOk
  }

  /** All requirements of `check_pow`. */
  predicate PowRulesOk(coin: Coin, n: Network, c: Chain, h: Header, prev: ExtendedHeader,
                       now: nat, solutionOk: bool) {
    if coin.Zcash? then ZcashPowOk(n, c, h, prev, now, solutionOk)
    else
      && NextWork(coin, ConfigOf(coin, n), c, h, prev) == Some(h.bits)
      && (match MedianTimePast(c, prev.hash)
          case None => false
          case Some(median) => h.time > median)
      && NotTooNew(h.time, now)
      && (coin.Dogecoin? || h.version >= 4)
  }

  method CheckPow(coin: Coin, n: Network, c: Chain, h: Header, prev: ExtendedHeader,
                  now: nat, solutionOk: bool, ghost a: Anchor)
    returns (ok: bool)
    requires Stored(c, a, prev)
    ensures ok == PowRulesOk(coin, n, c, h, prev, now, solutionOk)
  {
    var expected: Option<u32>, median: Option<u32>;
    if coin.Zcash? {
      ZcashConfigsSane(n);
      var r := ZcashGetNextWorkRequired(ZcashConfigOf(n), c, h, prev, a);
      if r.None? {
        return false;
      }
      expected, median := Some(r.value.expectedBits), Some(r.value.prevMedian);
    } else {
      ConfigsSane(n);
      expected := GetNextWorkRequired(coin, ConfigOf(coin, n), c, h, prev, a);
      median := GetMedianTimePast(c, prev, a);
    }
    if expected != Some(h.bits) {
      return false;
    }
    if median.None? || h.time <= median.value {
      return false;
    }
    if coin.Zcash? {
      if median.value + MAX_FUTURE_BLOCK_TIME_MTP >= WORD
         || h.time > median.value + MAX_FUTURE_BLOCK_TIME_MTP {
        return false;
      }
    }
    if !NotTooNew(h.time, now) {
      return false;
    }
    if !coin.Dogecoin? && h.version < 4 {
      return false;
    }
    return !coin.Zcash? || solutionOk;
  }
}
