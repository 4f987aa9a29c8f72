/** Further laws of all executions: the height index and the prev links agree, resubmission is
    harmless, targets stay within the limit, and median time past never goes back. */
module RunLaws {
  import opened Arith
  import opened Wide
  import opened Compact
  import opened Hashing
  import opened Median
  import opened Params
  import opened Retarget
  import opened RetargetLaws
  import opened ChainState
  import opened Reorg
  import opened Consensus
  import opened ForkChoice
  import opened Runs

  /** Median time past as a function of the hash alone. */
  function Mtp(k: H256): u32 { MedianOf(Times(k, MEDIAN_TIME_SPAN)) }

  // ---- the height index and the prev links ----

  /** For any stored block, the height index gives its true ancestor exactly when that ancestor is
      on the stored main chain. */
  lemma HeightIndexIff(c: Chain, a: Anchor, k: H256, n: nat, h: int)
    requires Inv(c, a) && k in c.pool && n <= Links(k)
    requires h == HeightOf(k, a) - n && h in c.byHeight
    ensures c.byHeight[h] == Ancestor(k, n) <==> Ancestor(k, n) in c.byHash
  {
    var x := Ancestor(k, n);
    AncestorLinks(k, n);
    if x in c.byHash {
      MainHeight(c, a, x);
    }
    IndexIff(c, x, h);
  }

  /** Where the prev links lead back to the main chain, that is exactly when the fork leaves it at or
      above the height looked up. */
  lemma HeightIndexByForkPoint(c: Chain, a: Anchor, k: H256, n: nat, h: int)
    requires Inv(c, a) && k in c.pool && n <= Links(k) && ForkPoint(c, k).Some?
    requires h == HeightOf(k, a) - n && h in c.byHeight
    ensures c.byHeight[h] == Ancestor(k, n) <==> h <= ForkPoint(c, k).value
  {
    HeightIndexIff(c, a, k, n, h);
    ForkPath(c, a, k);
    var p := ForkPoint(c, k).value;
    if h <= p {
      BelowForkPoint(c, a, k, HeightOf(k, a) - p, p - h);
    }
  }

  lemma BelowForkPoint(c: Chain, a: Anchor, k: H256, m: nat, i: nat)
    requires Inv(c, a) && m + i <= Links(k) && Ancestor(k, m) in c.byHash
    requires c.byHash[Ancestor(k, m)] - i >= Low(c, a)
    ensures Ancestor(k, m + i) in c.byHash
  {
    AncestorAdd(k, m, i);
    AncestorLinks(k, m);
    MainAncestor(c, a, Ancestor(k, m), i);
  }

  lemma IndexIff(c: Chain, x: H256, h: int)
    requires h in c.byHeight && c.byHeight[h] in c.byHash
    requires x in c.byHash ==> c.byHash[x] == h && c.byHeight[c.byHash[x]] == x
    ensures c.byHeight[h] == x <==> x in c.byHash
  {
  }

  lemma MainAncestor(c: Chain, a: Anchor, k: H256, i: nat)
    requires Inv(c, a) && k in c.byHash && i <= Links(k) && c.byHash[k] - i >= Low(c, a)
    ensures c.byHash[k] - i in c.byHeight && c.byHeight[c.byHash[k] - i] == Ancestor(k, i)
    ensures Ancestor(k, i) in c.pool && Ancestor(k, i) in c.byHash
  {
    var h := c.byHash[k];
    assert h in c.byHeight && c.byHeight[h] == k;
    assert h - i in c.byHeight;
    DescendsLinks(c.initial, a.genesis);
    AncestorAdd(c.tip, High(c, a) - h, i);
  }

  /** On the main chain, `n` steps along prev links and a lookup `n` heights down give the same
      stored header, for every `n` the chain still holds. */
  lemma HeightIndexIsAncestor(c: Chain, a: Anchor, k: H256, n: nat)
    requires Inv(c, a) && k in c.byHash && n <= Links(k) && c.byHash[k] - n >= Low(c, a)
    ensures Linked(c, k, n) && Ancestor(k, n) in c.pool
    ensures BlockByHeight(c, c.byHash[k] - n) == Some(c.pool[Ancestor(k, n)])
  {
    MainAncestor(c, a, k, n);
    forall i | 1 <= i <= n ensures Ancestor(k, i) in c.pool {
      MainAncestor(c, a, k, i);
    }
  }

  // ---- resubmission ----

  /** Submitting a header that is still stored changes nothing. */
  lemma ResubmissionChangesNothing(r: Rules, w: World, a: Anchor, s: Submission, skip: bool)
    requires Good(w, a) && BlockHash(s.header) in w.chain.pool
    requires Submit(r, w.chain, s, skip).Some?
    ensures Submit(r, w.chain, s, skip) == Some(w.chain)
  {
    var c, h := w.chain, s.header;
    var k, e := BlockHash(h), EntryFor(h, c.pool[h.prev]).value;
    EntryCorrect(c, a, h);
    ValFaithful(e.work, c.pool[k].work);
    assert e == c.pool[k];
    AcceptedNotHeavier(w, a, k);
    ValFaithful(c.pool[c.tip].work, e.work);
    assert c.pool[k := e] == c.pool;
  }

  lemma AcceptedNotHeavier(w: World, a: Anchor, k: H256)
    requires Good(w, a) && k in w.log
    ensures WorkOf(k, a.genesis) <= WorkOf(w.chain.tip, a.genesis)
  {
    var i :| 0 <= i < |w.log| && FirstBest(w.log, i, w.chain.tip, a.genesis);
  }

  /** A header that was ever accepted, even if it has been dropped since, cannot move the tip when
      it is accepted again. */
  lemma ReacceptanceKeepsTip(r: Rules, w: World, a: Anchor, s: Submission, skip: bool)
    requires Good(w, a) && BlockHash(s.header) in w.log
    requires Submit(r, w.chain, s, skip).Some?
    ensures Submit(r, w.chain, s, skip).value.tip == w.chain.tip
  {
    var c, h := w.chain, s.header;
    EntryCorrect(c, a, h);
    AcceptedNotHeavier(w, a, BlockHash(h));
    PlaceTip(c, a, EntryFor(h, c.pool[h.prev]).value);
  }

  // ---- targets stay within the limit ----

  function PowLimit(coin: Coin, n: Network): nat {
    if coin.Zcash? then ZcashConfigOf(n).powLimit.Val() else ConfigOf(coin, n).powLimit.Val()
  }

  ghost predicate TargetsWithin(keys: set<H256>, limit: nat) {
    forall k :: k in keys ==> Decode(BitsOf(k)) <= limit
  }

  lemma LimitBitsOk(coin: Coin, n: Network)
    requires !coin.Zcash?
    ensures Decode(ConfigOf(coin, n).limitBits) <= PowLimit(coin, n)
  {
    LimitBitsWithinLimit(n);
  }

  lemma RetargetWithin(coin: Coin, n: Network, bits: u32, elapsed: int)
    requires !coin.Zcash? && Decode(bits) <= PowLimit(coin, n)
    ensures RetargetBits(coin, ConfigOf(coin, n), bits, elapsed).Some?
    ensures Decode(RetargetBits(coin, ConfigOf(coin, n), bits, elapsed).value) <= PowLimit(coin, n)
  {
    NextTargetWithinLimit(n, bits, elapsed);
  }

  lemma WalkBackWithin(c: Chain, a: Anchor, coin: Coin, n: Network, k: H256)
    requires !coin.Zcash? && PoolOk(c.pool, a) && TargetsWithin(c.pool.Keys, PowLimit(coin, n))
    requires WalkBack(c, ConfigOf(coin, n), k).Some?
    ensures Decode(BitsOf(WalkBack(c, ConfigOf(coin, n), k).value)) <= PowLimit(coin, n)
  {
    var steps := WalkBackWithinInterval(c, a, ConfigOf(coin, n), k);
  }

  /** Dogecoin retargets on every block and Zcash averages, so both cap every demanded target. */
  predicate SelfLimiting(coin: Coin) { coin.Dogecoin? || coin.Zcash? }

  /** The bits demanded of a child never exceed the limit, through every rule: plain inheritance,
      minimum difficulty, the walk back, and the retarget. Bitcoin and Litecoin inherit bits, so
      there the stored targets must be within the limit; Dogecoin needs no assumption. */
  lemma NextWorkWithin(coin: Coin, n: Network, c: Chain, a: Anchor, h: Header, prev: ExtendedHeader)
    requires !coin.Zcash? && Stored(c, a, prev)
    requires coin.Dogecoin? || TargetsWithin(c.pool.Keys, PowLimit(coin, n))
    requires NextWork(coin, ConfigOf(coin, n), c, h, prev).Some?
    ensures Decode(NextWork(coin, ConfigOf(coin, n), c, h, prev).value) <= PowLimit(coin, n)
  {
    LimitBitsOk(coin, n);
    if coin.Dogecoin? {
      DogecoinNextWork(n, c, h, prev);
    } else {
      InheritedWithin(coin, n, c, a, h, prev);
    }
  }

  /** The Dogecoin interval is one block: every child is at minimum difficulty or retargeted. */
  lemma DogecoinNextWork(n: Network, c: Chain, h: Header, prev: ExtendedHeader)
    ensures var cfg := DogecoinConfig(n);
            NextWork(Dogecoin, cfg, c, h, prev)
            == match AllowMinDifficulty(Dogecoin, cfg, h, prev)
               case None => None
               case Some(allow) => if allow then Some(cfg.limitBits) else AtRetarget(Dogecoin, cfg, 1, c, prev)
    ensures AtRetarget(Dogecoin, DogecoinConfig(n), 1, c, prev).Some? ==>
              Decode(AtRetarget(Dogecoin, DogecoinConfig(n), 1, c, prev).value) <= DogecoinConfig(n).powLimit.Val()
  {
  }

  lemma InheritedWithin(coin: Coin, n: Network, c: Chain, a: Anchor, h: Header, prev: ExtendedHeader)
    requires !SelfLimiting(coin) && Stored(c, a, prev) && TargetsWithin(c.pool.Keys, PowLimit(coin, n))
    requires NextWork(coin, ConfigOf(coin, n), c, h, prev).Some?
    ensures Decode(NextWork(coin, ConfigOf(coin, n), c, h, prev).value) <= PowLimit(coin, n)
  {
    var cfg := ConfigOf(coin, n);
    LimitBitsOk(coin, n);
    assert BitsOf(prev.hash) == prev.header.bits;
    var interval := EffectiveInterval(coin, cfg, prev);
    if (prev.height + 1) % interval != 0 {
      if WalkBack(c, cfg, prev.hash).Some? {
        WalkBackWithin(c, a, coin, n, prev.hash);
      }
    } else {
      var first := BlockByHeight(c, prev.height - StepsBack(coin, interval, prev.height));
      if first.Some? {
        RetargetWithin(coin, n, prev.header.bits, prev.header.time - first.value.header.time);
      }
    }
  }

  /** The overflow panic of a retarget never fires: with targets within the limit a retarget fails
      only because the first block of the interval is no longer on the main chain. */
  lemma RetargetFailsOnlyOnMissingBlock(coin: Coin, n: Network, interval: nat, c: Chain, a: Anchor, prev: ExtendedHeader)
    requires !coin.Zcash? && Stored(c, a, prev) && TargetsWithin(c.pool.Keys, PowLimit(coin, n))
    ensures AtRetarget(coin, ConfigOf(coin, n), interval, c, prev).None?
            <==> BlockByHeight(c, prev.height - StepsBack(coin, interval, prev.height)).None?
  {
    assert BitsOf(prev.hash) == prev.header.bits;
    RetargetFailsIff(coin, n, interval, c, prev);
  }

  lemma RetargetFailsIff(coin: Coin, n: Network, interval: nat, c: Chain, prev: ExtendedHeader)
    requires !coin.Zcash? && Decode(prev.header.bits) <= PowLimit(coin, n)
    ensures AtRetarget(coin, ConfigOf(coin, n), interval, c, prev).None?
            <==> BlockByHeight(c, prev.height - StepsBack(coin, interval, prev.height)).None?
  {
    var first := BlockByHeight(c, prev.height - StepsBack(coin, interval, prev.height));
    if first.Some? {
      RetargetWithin(coin, n, prev.header.bits, prev.header.time - first.value.header.time);
    }
  }

  lemma {:induction false} TargetSumWithin(c: Chain, k: H256, m: nat, limit: nat)
    requires TargetsWithin(c.pool.Keys, limit) && k in c.pool && Linked(c, k, m)
    ensures TargetSum(k, m) <= m * limit
    decreases m
  {
    if m > 0 {
      TargetSumWithin(c, k, m - 1, limit);
      assert Ancestor(k, m - 1) in c.pool by {
        if m == 1 { assert Ancestor(k, 0) == k; }
      }
      assert m * limit == (m - 1) * limit + limit;
    }
  }

  /** Zcash: the expected work exists exactly when the 28 ancestors are stored and the sum of the
      window's targets fits 256 bits; it is then within the limit, whatever those targets are. */
  lemma ZcashNextWorkWithin(n: Network, c: Chain, h: Header, prev: ExtendedHeader)
    ensures ZcashNextWork(ZcashConfigOf(n), c, h, prev).Some?
            <==> Linked(c, prev.hash, 28) && TargetSum(prev.hash, 17) < TWO256
    ensures ZcashNextWork(ZcashConfigOf(n), c, h, prev).Some? ==>
              Decode(ZcashNextWork(ZcashConfigOf(n), c, h, prev).value.expectedBits) <= PowLimit(Zcash, n)
  {
    ZcashConfigsSane(n);
    if Linked(c, prev.hash, 28) && TargetSum(prev.hash, 17) < TWO256 {
      ZcashExpected(n, ZcashConfigOf(n), c, h, prev);
    }
  }

  /** With stored targets within the limit the sum always fits. */
  lemma ZcashSumNeverOverflows(n: Network, c: Chain, prev: ExtendedHeader)
    requires TargetsWithin(c.pool.Keys, PowLimit(Zcash, n)) && prev.hash in c.pool && Linked(c, prev.hash, 17)
    ensures TargetSum(prev.hash, 17) < TWO256
  {
    TargetSumWithin(c, prev.hash, 17, PowLimit(Zcash, n));
    ZcashSumFits(n, TargetSum(prev.hash, 17));
  }

  lemma ZcashExpected(n: Network, cfg: ZcashConfig, c: Chain, h: Header, prev: ExtendedHeader)
    requires SaneZcash(cfg) && cfg == ZcashConfigOf(n) && cfg.window == 17 && Linked(c, prev.hash, 28)
    requires TargetSum(prev.hash, 17) < TWO256
    ensures var r := ZcashNextWork(cfg, c, h, prev);
            r.Some? && Decode(r.value.expectedBits) <= cfg.powLimit.Val()
  {
    var total := TargetSum(prev.hash, 17);
    var elapsed := Mtp(prev.hash) - Mtp(Ancestor(prev.hash, 17));
    LimitBitsWithinLimit(n);
    ZcashWithinLimit(n, total, elapsed);
    ZcashCases(cfg, c, h, prev, total / 17, elapsed);
  }

  lemma {:induction false} WindowSum(k: H256, n: nat)
    requires n > 0 && BitsOf(k) == HIGH_WORD
    requires forall i: nat :: 1 <= i < n ==> BitsOf(Ancestor(k, i)) == LOW_WORD
    ensures TargetSum(k, n) == Decode(HIGH_WORD) + (n - 1) * Decode(LOW_WORD)
    decreases n
  {
    if n > 1 {
      WindowSum(k, n - 1);
      assert BitsOf(Ancestor(k, n - 1)) == LOW_WORD;
    } else {
      assert Ancestor(k, 0) == k && TargetSum(k, 0) == 0;
    }
  }

  /** A Zcash window where the lost carry decides the block: behind a parent with one word and sixteen
      blocks with another, all stored and on time, mainnet demands the word 0x1201fe00, although the
      averaged target of the protocol has the word 0x1201ff00. */
  lemma ZcashDemandsWrongBits(c: Chain, h: Header, prev: ExtendedHeader)
    requires Linked(c, prev.hash, 28) && BitsOf(prev.hash) == HIGH_WORD
    requires forall i: nat :: 1 <= i < 17 ==> BitsOf(Ancestor(prev.hash, i)) == LOW_WORD
    requires Mtp(prev.hash) - Mtp(Ancestor(prev.hash, 17)) == 1275
    ensures TargetSum(prev.hash, 17) == WINDOW_TOTAL && SaneZcash(ZcashConfigOf(Mainnet))
    ensures ZcashNextWork(ZcashConfigOf(Mainnet), c, h, prev) == Some(NextWorkResult(0x1201_fe00, Mtp(prev.hash)))
    ensures CappedBits((WINDOW_TOTAL / (17 * 1275)) * 1275, ZcashConfigOf(Mainnet).powLimit) == 0x1201_ff00
  {
    WindowSum(prev.hash, 17);
    WindowTotal();
    ZcashLosesCarry();
    ZcashConfigsSane(Mainnet);
    assert !ZcashMinDifficulty(ZcashConfigOf(Mainnet), h, prev);
    ZcashCases(ZcashConfigOf(Mainnet), c, h, prev, WINDOW_TOTAL / 17, 1275);
  }

  /** The two outcomes of the Zcash rule once the walk and the sum have succeeded. */
  lemma ZcashCases(cfg: ZcashConfig, c: Chain, h: Header, prev: ExtendedHeader, average: nat, elapsed: int)
    requires SaneZcash(cfg) && Linked(c, prev.hash, cfg.window + MEDIAN_TIME_SPAN)
    requires TargetSum(prev.hash, cfg.window) < TWO256
    requires average == TargetSum(prev.hash, cfg.window) / cfg.window < TWO256
    requires elapsed == Mtp(prev.hash) - Mtp(Ancestor(prev.hash, cfg.window))
    ensures ZcashNextWork(cfg, c, h, prev).Some?
            <==> ZcashMinDifficulty(cfg, h, prev) || ZcashBits(cfg, average, elapsed).Some?
    ensures ZcashNextWork(cfg, c, h, prev).Some? ==>
              ZcashNextWork(cfg, c, h, prev).value.expectedBits
              == if ZcashMinDifficulty(cfg, h, prev) then cfg.limitBits
                 else ZcashBits(cfg, average, elapsed).value
  {
  }

  // ---- over whole runs ----

  /** All logged targets from position `n` on are within the limit. */
  ghost predicate WithinFrom(log: seq<H256>, n: nat, limit: nat) {
    forall i :: n <= i < |log| ==> Decode(BitsOf(log[i])) <= limit
  }

  lemma PoolWithinLog(w: World, a: Anchor, limit: nat)
    requires Good(w, a) && WithinFrom(w.log, 0, limit)
    ensures TargetsWithin(w.chain.pool.Keys, limit) && PoolOk(w.chain.pool, a)
  {
    forall k | k in w.chain.pool.Keys ensures Decode(BitsOf(k)) <= limit {
      assert k in w.log;
    }
  }

  /** A verified header is within the limit: always for Dogecoin and Zcash, and for Bitcoin and
      Litecoin if everything accepted before is. */
  lemma VerifiedWithin(r: Rules, w: World, a: Anchor, s: Submission)
    requires Good(w, a) && SubmitOne(r, w, s, false).Some?
    requires SelfLimiting(r.coin) || WithinFrom(w.log, 0, PowLimit(r.coin, r.network))
    ensures Decode(s.header.bits) <= PowLimit(r.coin, r.network)
  {
    var c, prev := w.chain, w.chain.pool[s.header.prev];
    assert Stored(c, a, prev);
    if r.coin.Zcash? {
      ZcashNextWorkWithin(r.network, c, s.header, prev);
    } else {
      if !r.coin.Dogecoin? {
        PoolWithinLog(w, a, PowLimit(r.coin, r.network));
      }
      NextWorkWithin(r.coin, r.network, c, a, s.header, prev);
    }
  }

  lemma WithinGrows(log: seq<H256>, n: nat, limit: nat, k: H256)
    requires WithinFrom(log, n, limit) && Decode(BitsOf(k)) <= limit
    ensures WithinFrom(log + [k], n, limit)
  {
  }

  lemma {:induction false} SubmitAllWithin(r: Rules, w: World, a: Anchor, ss: seq<Submission>, n: nat)
    requires Good(w, a) && WithinFrom(w.log, n, PowLimit(r.coin, r.network)) && (n == 0 || SelfLimiting(r.coin))
    requires SubmitAll(r, w, ss, false).Some?
    ensures WithinFrom(SubmitAll(r, w, ss, false).value.log, n, PowLimit(r.coin, r.network))
    decreases |ss|
  {
    if ss != [] {
      VerifiedWithin(r, w, a, ss[0]);
      SubmitKeepsGood(r, w, a, ss[0], false);
      WithinGrows(w.log, n, PowLimit(r.coin, r.network), BlockHash(ss[0].header));
      SubmitAllWithin(r, SubmitOne(r, w, ss[0], false).value, a, ss[1..], n);
    }
  }

  /** Collections and failed calls leave the log alone. */
  lemma NextLog(r: Rules, w: World, ev: Event)
    ensures Next(r, w, ev).log
            == if Call(r, w, ev).Some? && ev.SubmitBlocks?
               then SubmitAll(r, w, ev.headers, r.skipPow).value.log else w.log
  {
  }

  /** Over every run with proof-of-work checks on: if all logged targets are within the limit they
      stay so, and for Dogecoin and Zcash it is enough to look at the log from any position on. */
  lemma {:induction false} TargetsStayWithinLimit(r: Rules, w: World, a: Anchor, evs: seq<Event>, n: nat)
    requires !r.skipPow && Good(w, a) && (n == 0 || SelfLimiting(r.coin))
    requires WithinFrom(w.log, n, PowLimit(r.coin, r.network))
    ensures WithinFrom(Run(r, w, evs).log, n, PowLimit(r.coin, r.network))
    decreases |evs|
  {
    if evs != [] {
      NextLog(r, w, evs[0]);
      if Call(r, w, evs[0]).Some? && evs[0].SubmitBlocks? {
        SubmitAllWithin(r, w, a, evs[0].headers, n);
      }
      NextKeepsGood(r, w, a, evs[0]);
      TargetsStayWithinLimit(r, Next(r, w, evs[0]), a, evs[1..], n);
    }
  }

  // ---- runs from initialisation ----

  function Hashes(ss: seq<Submission>): (ks: seq<H256>)
    ensures |ks| == |ss|
  {
    seq(|ss|, i requires 0 <= i < |ss| => BlockHash(ss[i].header))
  }

  /** An accepted batch appends exactly its hashes to the log. */
  lemma {:induction false} SubmitAllLog(r: Rules, w: World, ss: seq<Submission>, skip: bool)
    requires SubmitAll(r, w, ss, skip).Some?
    ensures SubmitAll(r, w, ss, skip).value.log == w.log + Hashes(ss)
    decreases |ss|
  {
    if ss == [] {
      assert w.log + Hashes(ss) == w.log;
    } else {
      var w', k := SubmitOne(r, w, ss[0], skip).value, BlockHash(ss[0].header);
      SubmitAllLog(r, w', ss[1..], skip);
      HashesCons(w.log, ss);
      assert w'.log == w.log + [k];
    }
  }

  lemma HashesCons(log: seq<H256>, ss: seq<Submission>)
    requires ss != []
    ensures log + Hashes(ss) == (log + [BlockHash(ss[0].header)]) + Hashes(ss[1..])
  {
    assert Hashes(ss) == [BlockHash(ss[0].header)] + Hashes(ss[1..]);
  }

  /** The log after initialisation is the list of the initial blocks. */
  lemma InitLog(r: Rules, blockHash: H256, height: nat, blocks: seq<Header>)
    requires Init(r, blockHash, height, blocks).Some?
    ensures Init(r, blockHash, height, blocks).value.log == seq(|blocks|, i requires 0 <= i < |blocks| => BlockHash(blocks[i]))
  {
    var w := World(GenesisChain(blocks[0], height), [blockHash]);
    SubmitAllLog(r, w, InitSubmissions(blocks), true);
  }

  /** Every call only appends to the log. */
  lemma NextLogGrows(r: Rules, w: World, ev: Event)
    ensures w.log <= Next(r, w, ev).log
  {
    NextLog(r, w, ev);
    if Call(r, w, ev).Some? && ev.SubmitBlocks? {
      SubmitAllLog(r, w, ev.headers, r.skipPow);
    }
  }

  lemma {:induction false} RunLogGrows(r: Rules, w: World, evs: seq<Event>)
    ensures w.log <= Run(r, w, evs).log
    decreases |evs|
  {
    if evs != [] {
      NextLogGrows(r, w, evs[0]);
      RunLogGrows(r, Next(r, w, evs[0]), evs[1..]);
    }
  }

  lemma InitWithin(r: Rules, blockHash: H256, height: nat, blocks: seq<Header>)
    requires Init(r, blockHash, height, blocks).Some?
    requires forall b :: b in blocks ==> Decode(b.bits) <= PowLimit(r.coin, r.network)
    ensures WithinFrom(Init(r, blockHash, height, blocks).value.log, 0, PowLimit(r.coin, r.network))
  {
    InitLog(r, blockHash, height, blocks);
    forall i | 0 <= i < |blocks| ensures Decode(BitsOf(BlockHash(blocks[i]))) <= PowLimit(r.coin, r.network) {
      assert blocks[i] in blocks;
    }
  }

  /** In every state reachable with checks on, every header accepted after initialisation is within
      the limit: for Dogecoin and Zcash whatever the initial blocks are, for Bitcoin and Litecoin if
      the initial blocks are. If they are, then so is every header ever accepted, on all chains. */
  lemma ReachableTargetsWithin(r: Rules, blockHash: H256, height: nat, blocks: seq<Header>, evs: seq<Event>)
    requires Init(r, blockHash, height, blocks).Some? && !r.skipPow
    ensures var log, limit := Run(r, Init(r, blockHash, height, blocks).value, evs).log, PowLimit(r.coin, r.network);
            && (SelfLimiting(r.coin) ==> WithinFrom(log, |blocks|, limit))
            && ((forall b :: b in blocks ==> Decode(b.bits) <= limit) ==> WithinFrom(log, 0, limit))
  {
    var w, a := Init(r, blockHash, height, blocks).value, Anchor(blockHash, height);
    InitGood(r, blockHash, height, blocks);
    InitLog(r, blockHash, height, blocks);
    if SelfLimiting(r.coin) {
      TargetsStayWithinLimit(r, w, a, evs, |blocks|);
    }
    if forall b :: b in blocks ==> Decode(b.bits) <= PowLimit(r.coin, r.network) {
      InitWithin(r, blockHash, height, blocks);
      TargetsStayWithinLimit(r, w, a, evs, 0);
    }
  }

  /** The expected work of a child of `prev` fails for want of a stored block only, never on an
      overflow: a retarget of the first three chains because its first block is not on the main
      chain, the Zcash computation because one of the 28 ancestors is gone. */
  ghost predicate FailsOnlyOnMissing(r: Rules, c: Chain, h: Header, prev: ExtendedHeader, interval: nat) {
    if r.coin.Zcash? then
      ZcashNextWork(ZcashConfigOf(r.network), c, h, prev).Some? <==> Linked(c, prev.hash, 28)
    else
      AtRetarget(r.coin, ConfigOf(r.coin, r.network), interval, c, prev).None?
      <==> BlockByHeight(c, prev.height - StepsBack(r.coin, interval, prev.height)).None?
  }

  lemma RetargetsNeverOverflow(r: Rules, w: World, a: Anchor, h: Header, prev: ExtendedHeader, interval: nat)
    requires Good(w, a) && WithinFrom(w.log, 0, PowLimit(r.coin, r.network))
    requires prev.hash in w.chain.pool && w.chain.pool[prev.hash] == prev
    ensures FailsOnlyOnMissing(r, w.chain, h, prev, interval)
  {
    PoolWithinLog(w, a, PowLimit(r.coin, r.network));
    if r.coin.Zcash? {
      ZcashNextWorkWithin(r.network, w.chain, h, prev);
      if Linked(w.chain, prev.hash, 28) {
        ZcashSumNeverOverflows(r.network, w.chain, prev);
      }
    } else {
      RetargetFailsOnlyOnMissingBlock(r.coin, r.network, interval, w.chain, a, prev);
    }
  }

  /** Hence the overflow panics never fire in any such state, for any stored parent and any child. */
  lemma ReachableRetargetsNeverOverflow(r: Rules, blockHash: H256, height: nat, blocks: seq<Header>, evs: seq<Event>,
                                        h: Header, prev: ExtendedHeader, interval: nat)
    requires Init(r, blockHash, height, blocks).Some? && !r.skipPow
    requires forall b :: b in blocks ==> Decode(b.bits) <= PowLimit(r.coin, r.network)
    requires var c := Run(r, Init(r, blockHash, height, blocks).value, evs).chain;
             prev.hash in c.pool && c.pool[prev.hash] == prev
    ensures FailsOnlyOnMissing(r, Run(r, Init(r, blockHash, height, blocks).value, evs).chain, h, prev, interval)
  {
    EveryReachableStateGood(r, blockHash, height, blocks, evs);
    ReachableTargetsWithin(r, blockHash, height, blocks, evs);
    RetargetsNeverOverflow(r, Run(r, Init(r, blockHash, height, blocks).value, evs), Anchor(blockHash, height), h, prev, interval);
  }

  // ---- median time past ----

  /** A child whose time is above its parent's median never lowers the median. */
  lemma ChildMtp(h: Header)
    requires h.time >= Mtp(h.prev)
    ensures Mtp(BlockHash(h)) >= Mtp(h.prev)
  {
    var k, window := BlockHash(h), Times(h.prev, MEDIAN_TIME_SPAN);
    assert Times(k, MEDIAN_TIME_SPAN) == [h.time] + window[..MEDIAN_TIME_SPAN - 1];
    MedianNeverFalls(window, h.time);
  }

  /** Accepted with checks on: its median is not below its parent's. */
  lemma VerifiedMtp(r: Rules, c: Chain, s: Submission)
    requires Submit(r, c, s, false).Some? && c.pool[s.header.prev].hash == s.header.prev
    ensures Mtp(BlockHash(s.header)) >= Mtp(s.header.prev)
  {
    ChildMtp(s.header);
  }

  /** All entries from position `n` on have at least the median of their parent. */
  ghost predicate MtpOk(log: seq<H256>, n: nat) {
    forall i :: n <= i < |log| ==> log[i].OfHeader? && Mtp(log[i]) >= Mtp(log[i].header.prev)
  }

  lemma {:induction false} SubmitAllMtp(r: Rules, w: World, a: Anchor, ss: seq<Submission>, n: nat)
    requires Good(w, a) && MtpOk(w.log, n) && SubmitAll(r, w, ss, false).Some?
    ensures MtpOk(SubmitAll(r, w, ss, false).value.log, n)
    decreases |ss|
  {
    if ss != [] {
      VerifiedMtp(r, w.chain, ss[0]);
      SubmitKeepsGood(r, w, a, ss[0], false);
      SubmitAllMtp(r, SubmitOne(r, w, ss[0], false).value, a, ss[1..], n);
    }
  }

  /** Over every run with checks on, every header accepted after initialisation has a median time
      past of at least its parent's. */
  lemma {:induction false} RunMtp(r: Rules, w: World, a: Anchor, evs: seq<Event>, n: nat)
    requires !r.skipPow && Good(w, a) && MtpOk(w.log, n)
    ensures MtpOk(Run(r, w, evs).log, n)
    decreases |evs|
  {
    if evs != [] {
      NextLog(r, w, evs[0]);
      if Call(r, w, evs[0]).Some? && evs[0].SubmitBlocks? {
        SubmitAllMtp(r, w, a, evs[0].headers, n);
      }
      NextKeepsGood(r, w, a, evs[0]);
      RunMtp(r, Next(r, w, evs[0]), a, evs[1..], n);
    }
  }

  /** From initialisation: in every reachable state with checks on, every header accepted after the
      initial blocks has a median time past of at least its parent's. */
  lemma ReachableMtp(r: Rules, blockHash: H256, height: nat, blocks: seq<Header>, evs: seq<Event>)
    requires Init(r, blockHash, height, blocks).Some? && !r.skipPow
    ensures MtpOk(Run(r, Init(r, blockHash, height, blocks).value, evs).log, |blocks|)
  {
    InitGood(r, blockHash, height, blocks);
    InitLog(r, blockHash, height, blocks);
    RunMtp(r, Init(r, blockHash, height, blocks).value, Anchor(blockHash, height), evs, |blocks|);
  }

  /** So along any chain of `d` headers accepted after the initial blocks it never decreases. */
  lemma ReachableMtpAlongChain(r: Rules, blockHash: H256, height: nat, blocks: seq<Header>, evs: seq<Event>, k: H256, d: nat)
    requires Init(r, blockHash, height, blocks).Some? && !r.skipPow
    requires var log := Run(r, Init(r, blockHash, height, blocks).value, evs).log;
             |blocks| <= |log| && forall j :: 0 <= j < d ==> Ancestor(k, j) in log[|blocks|..]
    ensures Mtp(Ancestor(k, d)) <= Mtp(k)
  {
    ReachableMtp(r, blockHash, height, blocks, evs);
    MtpAlongChain(Run(r, Init(r, blockHash, height, blocks).value, evs).log, |blocks|, k, d);
  }

  /** Hence median time past never decreases along any chain of verified blocks. */
  lemma {:induction false} MtpAlongChain(log: seq<H256>, n: nat, k: H256, d: nat)
    requires MtpOk(log, n) && n <= |log|
    requires forall j :: 0 <= j < d ==> Ancestor(k, j) in log[n..]
    ensures Mtp(Ancestor(k, d)) <= Mtp(k)
    decreases d
  {
    if d > 0 {
      assert Ancestor(k, 0) in log[n..];
      forall j | 0 <= j < d - 1 ensures Ancestor(k.header.prev, j) in log[n..] {
        assert Ancestor(k, j + 1) == Ancestor(k.header.prev, j);
      }
      MtpAlongChain(log, n, k.header.prev, d - 1);
    }
  }
}
