/** The bits that a child must carry, case by case on the configurations of the chains, with the
    constants written out and in terms of prev links alone. */
module Demands {
  import opened Arith
  import opened Compact
  import opened Hashing
  import opened Params
  import opened ChainState
  import opened Retarget
  import opened RetargetLaws
  import opened Consensus
  import opened ForkChoice
  import opened Runs
  import opened RunLaws

  /** The chains that retarget every 2016 blocks. */
  predicate Periodic(coin: Coin) { coin.Bitcoin? || coin.Litecoin? }

  function MinimumWord(coin: Coin): u32 { if coin.Bitcoin? then 0x1d00ffff else 0x1e0fffff }

  /** Twice the target spacing, in seconds. */
  function Slack(coin: Coin): nat { if coin.Bitcoin? then 1200 else if coin.Litecoin? then 300 else 120 }

  // ---- between retargets ----

  /** On mainnet the bits are inherited. */
  lemma MainnetInherits(coin: Coin, c: Chain, h: Header, prev: ExtendedHeader)
    requires Periodic(coin) && (prev.height + 1) % 2016 != 0
    ensures NextWork(coin, ConfigOf(coin, Mainnet), c, h, prev) == Some(prev.header.bits)
  {
  }

  /** On testnet a late child carries the minimum word. */
  lemma TestnetLate(coin: Coin, c: Chain, h: Header, prev: ExtendedHeader)
    requires Periodic(coin) && (prev.height + 1) % 2016 != 0
    ensures prev.header.time + Slack(coin) >= 0x1_0000_0000 ==>
              NextWork(coin, ConfigOf(coin, Testnet), c, h, prev) == None
    ensures prev.header.time + Slack(coin) < h.time ==>
              NextWork(coin, ConfigOf(coin, Testnet), c, h, prev) == Some(MinimumWord(coin))
  {
  }

  /** Any other child carries the bits of the first ancestor, within the interval, that has other bits
      than the minimum word or starts the interval; if that one is gone there is no answer. */
  lemma TestnetOnTime(coin: Coin, c: Chain, a: Anchor, h: Header, prev: ExtendedHeader) returns (n: nat)
    requires Periodic(coin) && Stored(c, a, prev) && (prev.height + 1) % 2016 != 0
    requires h.time <= prev.header.time + Slack(coin) < 0x1_0000_0000
    ensures n <= prev.height % 2016 && n <= Links(prev.hash)
    ensures forall j: nat :: j < n ==>
              && Ancestor(prev.hash, j) in c.pool && BitsOf(Ancestor(prev.hash, j)) == MinimumWord(coin)
              && (prev.height - j) % 2016 != 0
    ensures match NextWork(coin, ConfigOf(coin, Testnet), c, h, prev)
            case None => Ancestor(prev.hash, n) !in c.pool
            case Some(bits) =>
              && bits == BitsOf(Ancestor(prev.hash, n))
              && (bits != MinimumWord(coin) || (prev.height - n) % 2016 == 0)
  {
    var cfg, k := ConfigOf(coin, Testnet), prev.hash;
    n := WalkBackWithinInterval(c, a, cfg, k);
    forall j: nat | j < n
      ensures Ancestor(k, j) in c.pool && BitsOf(Ancestor(k, j)) == MinimumWord(coin)
      ensures (prev.height - j) % 2016 != 0
    {
      assert Passed(c, cfg, Ancestor(k, j));
      AncestorHeight(c, a, k, j);
    }
  }

  lemma AncestorHeight(c: Chain, a: Anchor, k: H256, j: nat)
    requires PoolOk(c.pool, a) && k in c.pool && j <= Links(k) && Ancestor(k, j) in c.pool
    ensures c.pool[Ancestor(k, j)].height == c.pool[k].height - j
  {
    AncestorLinks(k, j);
  }

  // ---- at a retarget, on a main-chain parent ----

  ghost predicate OnMain(c: Chain, a: Anchor, prev: ExtendedHeader) {
    Inv(c, a) && prev.hash in c.byHash && prev.hash in c.pool && c.pool[prev.hash] == prev
  }

  /** The stored time `n` blocks back, where the main chain still holds that block. */
  lemma TimeBack(c: Chain, a: Anchor, prev: ExtendedHeader, n: nat)
    requires OnMain(c, a, prev)
    ensures prev.height - n >= Low(c, a) ==>
              && BlockByHeight(c, prev.height - n).Some?
              && BlockByHeight(c, prev.height - n).value.header.time == TimeOf(Ancestor(prev.hash, n))
    ensures prev.height - n < Low(c, a) ==> BlockByHeight(c, prev.height - n).None?
  {
    MainHeight(c, a, prev.hash);
    DescendsLinks(c.initial, a.genesis);
    if prev.height - n >= Low(c, a) {
      HeightIndexIsAncestor(c, a, prev.hash, n);
    }
  }

  /** At the end of an interval the stored block `back` heights down decides. */
  lemma PeriodicBoundary(coin: Coin, n: Network, c: Chain, h: Header, prev: ExtendedHeader)
    requires Periodic(coin) && (prev.height + 1) % 2016 == 0
    ensures var back := if coin.Bitcoin? || prev.height == 2015 then 2015 else 2016;
            NextWork(coin, ConfigOf(coin, n), c, h, prev)
            == match BlockByHeight(c, prev.height - back)
               case None => None
               case Some(first) =>
                 if coin.Bitcoin?
                 then BitcoinBits(BitcoinConfig(n), prev.header.bits, prev.header.time - first.header.time)
                 else LitecoinBits(LitecoinConfig(n), prev.header.bits, prev.header.time - first.header.time)
  {
  }

  /** Bitcoin measures from the block 2015 back. */
  lemma BitcoinBoundary(n: Network, c: Chain, a: Anchor, h: Header, prev: ExtendedHeader)
    requires OnMain(c, a, prev) && (prev.height + 1) % 2016 == 0
    ensures NextWork(Bitcoin, BitcoinConfig(n), c, h, prev)
            == if prev.height - 2015 < Low(c, a) then None
               else BitcoinBits(BitcoinConfig(n), prev.header.bits,
                                prev.header.time - TimeOf(Ancestor(prev.hash, 2015)))
  {
    PeriodicBoundary(Bitcoin, n, c, h, prev);
    TimeBack(c, a, prev, 2015);
  }

  /** Litecoin measures from the block 2016 back, except at the first retarget of the chain. */
  lemma LitecoinBoundary(n: Network, c: Chain, a: Anchor, h: Header, prev: ExtendedHeader)
    requires OnMain(c, a, prev) && (prev.height + 1) % 2016 == 0
    ensures var back := if prev.height == 2015 then 2015 else 2016;
            NextWork(Litecoin, LitecoinConfig(n), c, h, prev)
            == if prev.height - back < Low(c, a) then None
               else LitecoinBits(LitecoinConfig(n), prev.header.bits,
                                 prev.header.time - TimeOf(Ancestor(prev.hash, back)))
  {
    PeriodicBoundary(Litecoin, n, c, h, prev);
    TimeBack(c, a, prev, if prev.height == 2015 then 2015 else 2016);
  }

  /** Dogecoin retargets on every block, measuring from the parent's parent, except that on testnet,
      from height 157500 on, a late child carries the minimum word. */
  lemma DogecoinDemand(n: Network, c: Chain, a: Anchor, h: Header, prev: ExtendedHeader)
    requires OnMain(c, a, prev) && prev.height > 0
    ensures var special, limit := n.Testnet? && prev.height >= 157500, prev.header.time + 120;
            NextWork(Dogecoin, DogecoinConfig(n), c, h, prev)
            == if special && limit >= 0x1_0000_0000 then None
               else if special && h.time > limit then Some(0x1e0fffff)
               else if prev.height - 1 < Low(c, a) then None
               else DogecoinBits(DogecoinConfig(n), prev.header.bits,
                                 prev.header.time - TimeOf(Ancestor(prev.hash, 1)))
  {
    DogecoinNextWork(n, c, h, prev);
    TimeBack(c, a, prev, 1);
  }

  /** Zcash, where the 28 ancestors are stored and the window's targets can be summed: on testnet, from
      height 299187 on, a child more than 450 seconds late carries the minimum word; any other child
      the word of the mean of the 17 targets and of the difference of the two medians. */
  lemma ZcashDemand(n: Network, cfg: ZcashConfig, c: Chain, h: Header, prev: ExtendedHeader, average: nat, elapsed: int)
    requires cfg == ZcashConfigOf(n) && SaneZcash(cfg) && cfg.window == 17
    requires Linked(c, prev.hash, 28) && TargetSum(prev.hash, 17) < TWO256
    requires average == TargetSum(prev.hash, 17) / 17 < TWO256
    requires elapsed == Mtp(prev.hash) - Mtp(Ancestor(prev.hash, 17))
    ensures ZcashNextWork(cfg, c, h, prev).Some?
    ensures ZcashNextWork(cfg, c, h, prev).value.prevMedian == Mtp(prev.hash)
    ensures LateZcash(n, h, prev) ==> ZcashNextWork(cfg, c, h, prev).value.expectedBits == 0x2007ffff
    ensures !LateZcash(n, h, prev) ==>
              Some(ZcashNextWork(cfg, c, h, prev).value.expectedBits) == ZcashBits(cfg, average, elapsed)
  {
    ZcashSpecial(n, h, prev);
    ZcashWithinLimit(n, TargetSum(prev.hash, 17), elapsed);
    ZcashCases(cfg, c, h, prev, average, elapsed);
    ZcashMedian(cfg, c, h, prev);
  }

  predicate LateZcash(n: Network, h: Header, prev: ExtendedHeader) {
    n.Testnet? && prev.height >= 299187 && h.time > prev.header.time + 450
  }

  lemma ZcashSpecial(n: Network, h: Header, prev: ExtendedHeader)
    ensures ZcashMinDifficulty(ZcashConfigOf(n), h, prev) <==> LateZcash(n, h, prev)
    ensures n.Testnet? ==> ZcashConfigOf(n).limitBits == 0x2007ffff
  {
  }

  lemma ZcashMedian(cfg: ZcashConfig, c: Chain, h: Header, prev: ExtendedHeader)
    requires SaneZcash(cfg) && ZcashNextWork(cfg, c, h, prev).Some?
    ensures ZcashNextWork(cfg, c, h, prev).value.prevMedian == Mtp(prev.hash)
  {
  }

  // ---- over whole runs ----

  /** From position `n` on, headers off the 2016-block boundaries carry their parent's bits. */
  ghost predicate Inherited(log: seq<H256>, n: nat, a: Anchor) {
    forall i :: n <= i < |log| ==>
      log[i].OfHeader? && (HeightOf(log[i], a) % 2016 != 0 ==> BitsOf(log[i]) == BitsOf(log[i].header.prev))
  }

  lemma VerifiedInherits(r: Rules, w: World, a: Anchor, s: Submission)
    requires Good(w, a) && SubmitOne(r, w, s, false).Some? && Periodic(r.coin) && r.network.Mainnet?
    ensures HeightOf(BlockHash(s.header), a) % 2016 != 0 ==> s.header.bits == BitsOf(s.header.prev)
  {
    var prev := w.chain.pool[s.header.prev];
    assert EntryOk(s.header.prev, prev, a);
    assert HeightOf(BlockHash(s.header), a) == prev.height + 1;
    if (prev.height + 1) % 2016 != 0 {
      MainnetInherits(r.coin, w.chain, s.header, prev);
    }
  }

  lemma InheritedGrows(log: seq<H256>, n: nat, a: Anchor, k: H256)
    requires Inherited(log, n, a) && k.OfHeader?
    requires HeightOf(k, a) % 2016 != 0 ==> BitsOf(k) == BitsOf(k.header.prev)
    ensures Inherited(log + [k], n, a)
  {
  }

  lemma {:induction false} SubmitAllInherits(r: Rules, w: World, a: Anchor, ss: seq<Submission>, n: nat)
    requires Good(w, a) && Periodic(r.coin) && r.network.Mainnet? && Inherited(w.log, n, a)
    requires SubmitAll(r, w, ss, false).Some?
    ensures Inherited(SubmitAll(r, w, ss, false).value.log, n, a)
    decreases |ss|
  {
    if ss != [] {
      VerifiedInherits(r, w, a, ss[0]);
      SubmitKeepsGood(r, w, a, ss[0], false);
      InheritedGrows(w.log, n, a, BlockHash(ss[0].header));
      SubmitAllInherits(r, SubmitOne(r, w, ss[0], false).value, a, ss[1..], n);
    }
  }

  lemma {:induction false} RunInherits(r: Rules, w: World, a: Anchor, evs: seq<Event>, n: nat)
    requires !r.skipPow && Good(w, a) && Periodic(r.coin) && r.network.Mainnet? && Inherited(w.log, n, a)
    ensures Inherited(Run(r, w, evs).log, n, a)
    decreases |evs|
  {
    if evs != [] {
      NextLog(r, w, evs[0]);
      if Call(r, w, evs[0]).Some? && evs[0].SubmitBlocks? {
        SubmitAllInherits(r, w, a, evs[0].headers, n);
      }
      NextKeepsGood(r, w, a, evs[0]);
      RunInherits(r, Next(r, w, evs[0]), a, evs[1..], n);
    }
  }

  /** In every state reachable with checks on, every Bitcoin or Litecoin mainnet header accepted after
      the initial blocks, at a height that 2016 does not divide, has its parent's bits. */
  lemma ReachableInherits(r: Rules, blockHash: H256, height: nat, blocks: seq<Header>, evs: seq<Event>)
    requires Init(r, blockHash, height, blocks).Some? && !r.skipPow && Periodic(r.coin) && r.network.Mainnet?
    ensures Inherited(Run(r, Init(r, blockHash, height, blocks).value, evs).log, |blocks|, Anchor(blockHash, height))
  {
    InitGood(r, blockHash, height, blocks);
    InitLog(r, blockHash, height, blocks);
    RunInherits(r, Init(r, blockHash, height, blocks).value, Anchor(blockHash, height), evs, |blocks|);
  }
}
