/** Which block a retarget finds: it looks the first block of the interval up by main-chain height,
    which is right on the main chain, can be wrong on a fork, and fails only below the initial
    block. */
module Lookups {
  import opened Arith
  import opened Wide
  import opened Hashing
  import opened Params
  import opened ChainState
  import opened Consensus
  import opened ForkChoice
  import opened Runs
  import opened Retarget
  import opened RetargetLaws
  import opened RunLaws
  import opened CallSteps
  import opened Relayer
  import opened Progress

  // ---- the lookup on a fork ----

  /** What accepting `k` on the tip, or beside the main chain, does to the state. */
  ghost predicate Grown(w: World, w': World, a: Anchor, k: H256, onTip: bool) {
    && Sound(w', a)
    && w'.chain.pool.Keys == w.chain.pool.Keys + {k}
    && w'.chain.byHeight == (if onTip then w.chain.byHeight[HeightOf(k, a) := k] else w.chain.byHeight)
    && w'.chain.tip == (if onTip then k else w.chain.tip)
  }

  lemma EntryForms(w: World, a: Anchor, h: Header)
    requires Sound(w, a) && h.prev in w.chain.pool && Fits(BlockHash(h), a)
    ensures EntryFor(h, w.chain.pool[h.prev]).Some?
    ensures var e := EntryFor(h, w.chain.pool[h.prev]).value;
            && e.hash == BlockHash(h) && e.header == h && e.height == HeightOf(BlockHash(h), a)
            && e.work.Val() == WorkOf(BlockHash(h), a.genesis)
    ensures w.chain.tip in w.chain.pool
            && w.chain.pool[w.chain.tip].work.Val() == WorkOf(w.chain.tip, a.genesis)
  {
    assert Unlock(w, 0);
    DescendsLinks(h.prev, a.genesis);
  }

  lemma TipGrows(r: Rules, w: World, a: Anchor, s: Submission)
    requires Sound(w, a) && s.header.prev == w.chain.tip && w.chain.tip in w.chain.pool
    requires Fits(BlockHash(s.header), a)
    ensures SubmitOne(r, w, s, true).Some?
    ensures Grown(w, SubmitOne(r, w, s, true).value, a, BlockHash(s.header), true)
  {
    EntryForms(w, a, s.header);
    SubmitStep(r, w, a, s, true);
  }

  lemma ForkGrows(r: Rules, w: World, a: Anchor, s: Submission)
    requires Sound(w, a) && s.header.prev in w.chain.pool && s.header.prev != w.chain.tip
    requires Fits(BlockHash(s.header), a)
    requires WorkOf(BlockHash(s.header), a.genesis) <= WorkOf(w.chain.tip, a.genesis)
    ensures SubmitOne(r, w, s, true).Some?
    ensures Grown(w, SubmitOne(r, w, s, true).value, a, BlockHash(s.header), false)
  {
    EntryForms(w, a, s.header);
    var e := EntryFor(s.header, w.chain.pool[s.header.prev]).value;
    ValFaithful(w.chain.pool[w.chain.tip].work, e.work);
    assert SubmitOne(r, w, s, true) == Some(World(StoreFork(w.chain, e), w.log + [e.hash]));
    SubmitStep(r, w, a, s, true);
  }

  lemma SubmitAllStep(r: Rules, w: World, s: Submission, ss: seq<Submission>, skip: bool)
    requires SubmitOne(r, w, s, skip).Some?
    ensures SubmitAll(r, w, [s] + ss, skip) == SubmitAll(r, SubmitOne(r, w, s, skip).value, ss, skip)
  {
    assert ([s] + ss)[1..] == ss;
  }

  /** A main chain of two new blocks and a fork of two beside it, on the same parent, where the fork
      is not heavier. */
  ghost predicate TwoBranches(parent: H256, a: Anchor, m: Header, m': Header, f: Header, f': Header) {
    && m.prev == parent && f.prev == parent && m != f
    && m'.prev == BlockHash(m) && f'.prev == BlockHash(f)
    && Fits(BlockHash(m'), a)
    && WorkOf(BlockHash(f'), a.genesis) <= WorkOf(BlockHash(m'), a.genesis)
  }

  function Branches(m: Header, m': Header, f: Header, f': Header): seq<Submission> {
    [Unchecked(m)] + ([Unchecked(m')] + ([Unchecked(f)] + ([Unchecked(f')] + [])))
  }

  /** Works and heights along the two branches. */
  lemma BranchNumbers(w: World, a: Anchor, m: Header, m': Header, f: Header, f': Header)
    requires Sound(w, a) && TwoBranches(w.chain.tip, a, m, m', f, f')
    ensures w.chain.tip in w.chain.pool
    ensures Fits(BlockHash(m), a) && Fits(BlockHash(f), a) && Fits(BlockHash(f'), a)
    ensures WorkOf(BlockHash(f), a.genesis) <= WorkOf(BlockHash(m'), a.genesis)
    ensures HeightOf(BlockHash(f'), a) == HeightOf(BlockHash(m'), a) == HeightOf(BlockHash(m), a) + 1
    ensures BlockHash(m') != w.chain.tip && BlockHash(m') != BlockHash(f)
    ensures HeightOf(BlockHash(f'), a) > 1
  {
    var t := w.chain.tip;
    assert Unlock(w, 0);
    DescendsLinks(t, a.genesis);
    assert Links(BlockHash(m')) == Links(BlockHash(f')) == Links(t) + 2;
    assert Links(BlockHash(m)) == Links(BlockHash(f)) == Links(t) + 1;
  }

  /** The outcome: the fork is stored, and one height below its tip the index holds `m`. */
  ghost predicate Misread(w: World, a: Anchor, m: Header, f: Header, f': Header) {
    && Sound(w, a) && BlockHash(f') in w.chain.pool && BlockHash(m) in w.chain.pool
    && w.chain.pool[BlockHash(f')].header == f'
    && BlockByHeight(w.chain, w.chain.pool[BlockHash(f')].height - 1) == Some(w.chain.pool[BlockHash(m)])
    && w.chain.pool[BlockHash(m)].header == m
    && Ancestor(BlockHash(f'), 1) == BlockHash(f) != BlockHash(m)
  }

  lemma BranchesAccepted(r: Rules, w: World, a: Anchor, m: Header, m': Header, f: Header, f': Header)
    requires Sound(w, a) && TwoBranches(w.chain.tip, a, m, m', f, f')
    ensures SubmitAll(r, w, Branches(m, m', f, f'), true).Some?
    ensures Misread(SubmitAll(r, w, Branches(m, m', f, f'), true).value, a, m, f, f')
  {
    BranchNumbers(w, a, m, m', f, f');
    TipGrows(r, w, a, Unchecked(m));
    var w1 := SubmitOne(r, w, Unchecked(m), true).value;
    TipGrows(r, w1, a, Unchecked(m'));
    var w2 := SubmitOne(r, w1, Unchecked(m'), true).value;
    ForkGrows(r, w2, a, Unchecked(f));
    var w3 := SubmitOne(r, w2, Unchecked(f), true).value;
    ForkGrows(r, w3, a, Unchecked(f'));
    var w4 := SubmitOne(r, w3, Unchecked(f'), true).value;
    SubmitAllStep(r, w, Unchecked(m), [Unchecked(m')] + ([Unchecked(f)] + ([Unchecked(f')] + [])), true);
    SubmitAllStep(r, w1, Unchecked(m'), [Unchecked(f)] + ([Unchecked(f')] + []), true);
    SubmitAllStep(r, w2, Unchecked(f), [Unchecked(f')] + [], true);
    SubmitAllStep(r, w3, Unchecked(f'), [], true);
    assert SubmitAll(r, w, Branches(m, m', f, f'), true) == Some(w4);
    MisreadBy(w4, a, m, f, f');
  }

  lemma MisreadBy(w: World, a: Anchor, m: Header, f: Header, f': Header)
    requires Sound(w, a) && BlockHash(f') in w.chain.pool && BlockHash(m) in w.chain.pool
    requires HeightOf(BlockHash(m), a) in w.chain.byHeight
    requires w.chain.byHeight[HeightOf(BlockHash(m), a)] == BlockHash(m)
    requires HeightOf(BlockHash(f'), a) == HeightOf(BlockHash(m), a) + 1
    requires f'.prev == BlockHash(f) && f != m
    ensures Misread(w, a, m, f, f')
  {
    StoredAt(w, a, BlockHash(m));
    StoredAt(w, a, BlockHash(f'));
    assert Ancestor(BlockHash(f'), 1) == BlockHash(f);
  }

  lemma StoredAt(w: World, a: Anchor, k: H256)
    requires Sound(w, a) && k in w.chain.pool
    ensures k == BlockHash(w.chain.pool[k].header) && w.chain.pool[k].height == HeightOf(k, a)
  {
    assert Unlock(w, 0);
  }

  /** Reachable states where a retarget on a fork parent reads the wrong block: any initialisation of
      Bitcoin, Litecoin or Dogecoin can be continued by two main-chain blocks and a fork of two that
      is not heavier. Dogecoin retargets on every block, so the bits it expects of a child of the
      fork tip, unless the minimum-difficulty rule applies, then follow from the time elapsed since
      `m`, although the parent of `f'` is `f`. */
  lemma IndexMisleadsOnFork(r: Rules, blockHash: H256, height: nat, blocks: seq<Header>,
                            m: Header, m': Header, f: Header, f': Header, h: Header)
    requires !r.coin.Zcash? && Init(r, blockHash, height, blocks).Some?
    requires TwoBranches(Init(r, blockHash, height, blocks).value.chain.tip, Anchor(blockHash, height), m, m', f, f')
    ensures Init(r, blockHash, height, blocks + [m, m', f, f']).Some?
    ensures Misread(Init(r, blockHash, height, blocks + [m, m', f, f']).value, Anchor(blockHash, height), m, f, f')
    ensures r.coin.Dogecoin? ==>
              MisreadBits(r.network, Init(r, blockHash, height, blocks + [m, m', f, f']).value.chain, m, f', h)
  {
    var a, w := Anchor(blockHash, height), Init(r, blockHash, height, blocks).value;
    InitGood(r, blockHash, height, blocks);
    SoundIsGood(w, a);
    BranchesAccepted(r, w, a, m, m', f, f');
    BranchNumbers(w, a, m, m', f, f');
    InitContinues(r, blockHash, height, blocks, m, m', f, f');
    ReadsIndexed(r.network, SubmitAll(r, w, Branches(m, m', f, f'), true).value, a, m, f, f', h);
  }

  /** What Dogecoin expects of a child `h` of `f'` is computed from the time of `m`. */
  ghost predicate MisreadBits(n: Network, c: Chain, m: Header, f': Header, h: Header) {
    && BlockHash(f') in c.pool
    && var cfg, prev := DogecoinConfig(n), c.pool[BlockHash(f')];
       AllowMinDifficulty(Dogecoin, cfg, h, prev) == Some(false) ==>
         NextWork(Dogecoin, cfg, c, h, prev) == RetargetBits(Dogecoin, cfg, f'.bits, f'.time - m.time)
  }

  lemma ReadsIndexed(n: Network, w: World, a: Anchor, m: Header, f: Header, f': Header, h: Header)
    requires Misread(w, a, m, f, f') && HeightOf(BlockHash(f'), a) > 1
    ensures MisreadBits(n, w.chain, m, f', h)
  {
    StoredAt(w, a, BlockHash(f'));
    DogecoinNextWork(n, w.chain, h, w.chain.pool[BlockHash(f')]);
  }

  lemma InitContinues(r: Rules, blockHash: H256, height: nat, blocks: seq<Header>,
                      m: Header, m': Header, f: Header, f': Header)
    requires !r.coin.Zcash? && Init(r, blockHash, height, blocks).Some?
    ensures Init(r, blockHash, height, blocks + [m, m', f, f'])
            == SubmitAll(r, Init(r, blockHash, height, blocks).value, Branches(m, m', f, f'), true)
  {
    var w := World(GenesisChain(blocks[0], height), [blockHash]);
    assert InitSubmissions(blocks + [m, m', f, f']) == InitSubmissions(blocks) + Branches(m, m', f, f');
    SubmitAllAppend(r, w, InitSubmissions(blocks), Branches(m, m', f, f'), true);
  }

  lemma {:induction false} SubmitAllAppend(r: Rules, w: World, ss: seq<Submission>, tt: seq<Submission>, skip: bool)
    requires SubmitAll(r, w, ss, skip).Some?
    ensures SubmitAll(r, w, ss + tt, skip) == SubmitAll(r, SubmitAll(r, w, ss, skip).value, tt, skip)
    decreases |ss|
  {
    if ss == [] {
      assert ss + tt == tt;
    } else {
      assert (ss + tt)[1..] == ss[1..] + tt;
      SubmitAllAppend(r, SubmitOne(r, w, ss[0], skip).value, ss[1..], tt, skip);
    }
  }

  // ---- the lookup on the tip ----

  /** In a valid state the lookup fails exactly outside the stored main chain. */
  lemma LookupFailsIff(c: Chain, a: Anchor, h: int)
    requires Inv(c, a)
    ensures BlockByHeight(c, h).None? <==> h < Low(c, a) || h > High(c, a)
  {
  }

  /** A retarget on the tip fails exactly when its first block has been collected. */
  lemma TipRetargetFailsIff(coin: Coin, interval: nat, c: Chain, a: Anchor)
    requires Inv(c, a) && interval > 0
    ensures c.tip in c.pool
    ensures var h := c.pool[c.tip].height;
            BlockByHeight(c, h - StepsBack(coin, interval, h)).None? <==> h - StepsBack(coin, interval, h) < Low(c, a)
  {
    LookupFailsIff(c, a, High(c, a) - StepsBack(coin, interval, High(c, a)));
  }

  /** The alignment that initialisation demands of the first height. */
  predicate Aligned(coin: Coin, cfg: NetworkConfig, height: nat)
    requires cfg.interval > 0
  {
    if coin.Bitcoin? then height % cfg.interval == 0 else (height + 1) % cfg.interval == 0
  }

  /** Between multiples of `interval`, stepping back one interval does not pass an earlier one. */
  lemma NoMultipleBetween(x: int, y: int, interval: nat)
    requires interval > 0 && x % interval == 0 && y % interval == 0 && x < y
    ensures x <= y - interval
  {
    var p, q := x / interval, y / interval;
    if q <= p {
      MulMono(q, p, interval);
    } else {
      MulMono(p, q - 1, interval);
      assert (q - 1) * interval == q * interval - interval;
    }
  }

  /** From an aligned first height, every later retarget height has its first block in range. */
  lemma AlignedReach(coin: Coin, interval: nat, first: nat, h: int)
    requires !coin.Zcash? && interval > 0 && first < h && (h + 1) % interval == 0
    requires interval == 1 || (if coin.Bitcoin? then first % interval == 0 else (first + 1) % interval == 0)
    ensures h - StepsBack(coin, interval, h) >= first
  {
    if coin.Bitcoin? {
      if interval > 1 {
        NoMultipleBetween(first, h + 1, interval);
      }
    } else if interval > 1 {
      NoMultipleBetween(first + 1, h + 1, interval);
    }
  }

  /** If the child of the tip is due for a retarget, its first block is found. */
  ghost predicate FindsFirst(coin: Coin, cfg: NetworkConfig, c: Chain)
    requires cfg.interval > 0
  {
    && c.tip in c.pool
    && var prev := c.pool[c.tip];
       var interval := EffectiveInterval(coin, cfg, prev);
       (prev.height + 1) % interval == 0 ==>
         BlockByHeight(c, prev.height - StepsBack(coin, interval, prev.height)).Some?
  }

  /** Until the first collection removes a block, a retarget on the tip always finds its first block,
      thanks to the alignment of the first height. */
  lemma TipRetargetFindsFirst(coin: Coin, cfg: NetworkConfig, c: Chain, a: Anchor)
    requires !coin.Zcash? && cfg.interval > 0 && Aligned(coin, cfg, a.height)
    requires Inv(c, a) && c.initial == a.genesis && c.tip != a.genesis
    ensures FindsFirst(coin, cfg, c)
  {
    var prev := c.pool[c.tip];
    var interval := EffectiveInterval(coin, cfg, prev);
    DescendsLinks(c.tip, a.genesis);
    if (prev.height + 1) % interval == 0 {
      AlignedReach(coin, interval, a.height, prev.height);
      TipRetargetFailsIff(coin, interval, c, a);
    }
  }

  lemma {:induction false} WorkAboveGenesis(k: H256, genesis: H256)
    requires Descends(k, genesis) && genesis.OfHeader? && k != genesis
    ensures WorkOf(k, genesis) > WorkOf(genesis, genesis)
  {
    if k.header.prev != genesis {
      WorkAboveGenesis(k.header.prev, genesis);
    }
  }

  /** Once anything beyond the first block was accepted, the first block is not the tip. */
  lemma TipPastGenesis(w: World, a: Anchor)
    requires Good(w, a) && |w.log| > 1
    ensures w.chain.tip != a.genesis
  {
    WorkAboveGenesis(w.log[1], a.genesis);
    AcceptedNotHeavier(w, a, w.log[1]);
  }

  /** Over every run: as long as the first block is still the initial one, a retarget of Bitcoin,
      Litecoin or Dogecoin on the tip finds the first block of its interval. */
  lemma ReachableTipRetargetFindsFirst(r: Rules, blockHash: H256, height: nat, blocks: seq<Header>, evs: seq<Event>)
    requires !r.coin.Zcash? && Init(r, blockHash, height, blocks).Some?
    requires Run(r, Init(r, blockHash, height, blocks).value, evs).chain.initial == blockHash
    ensures ConfigOf(r.coin, r.network).interval > 0
    ensures FindsFirst(r.coin, ConfigOf(r.coin, r.network), Run(r, Init(r, blockHash, height, blocks).value, evs).chain)
  {
    ReachablePastGenesis(r, blockHash, height, blocks, evs);
    InitAligned(r, blockHash, height, blocks);
    TipRetargetFindsFirst(r.coin, ConfigOf(r.coin, r.network),
                          Run(r, Init(r, blockHash, height, blocks).value, evs).chain, Anchor(blockHash, height));
  }

  lemma InitAligned(r: Rules, blockHash: H256, height: nat, blocks: seq<Header>)
    requires !r.coin.Zcash? && Init(r, blockHash, height, blocks).Some?
    ensures |blocks| > 1 && ConfigOf(r.coin, r.network).interval > 0
    ensures Aligned(r.coin, ConfigOf(r.coin, r.network), height)
  {
  }

  lemma ReachablePastGenesis(r: Rules, blockHash: H256, height: nat, blocks: seq<Header>, evs: seq<Event>)
    requires !r.coin.Zcash? && Init(r, blockHash, height, blocks).Some?
    ensures var c := Run(r, Init(r, blockHash, height, blocks).value, evs).chain;
            Inv(c, Anchor(blockHash, height)) && c.tip != blockHash
  {
    var w := Init(r, blockHash, height, blocks).value;
    EveryReachableStateGood(r, blockHash, height, blocks, evs);
    InitAligned(r, blockHash, height, blocks);
    InitLog(r, blockHash, height, blocks);
    RunLogGrows(r, w, evs);
    TipPastGenesis(Run(r, w, evs), Anchor(blockHash, height));
  }

  /** Zcash, until the first collection: the tip has its 28 stored ancestors exactly when it is at
      least 28 blocks past the first one. */
  lemma TipWindowStored(c: Chain, a: Anchor, n: nat)
    requires Inv(c, a) && c.initial == a.genesis
    ensures Linked(c, c.tip, n) <==> High(c, a) - a.height >= n
  {
    DescendsLinks(c.tip, a.genesis);
    if High(c, a) - a.height >= n {
      forall i | 1 <= i <= n ensures Ancestor(c.tip, i) in c.pool {
        assert High(c, a) - i in c.byHeight;
      }
    } else {
      var past := High(c, a) - a.height + 1;
      BeyondGenesis(c, a);
      assert Ancestor(c.tip, past) !in c.pool;
    }
  }

  lemma BeyondGenesis(c: Chain, a: Anchor)
    requires Inv(c, a) && c.initial == a.genesis
    ensures High(c, a) >= a.height && Ancestor(c.tip, High(c, a) - a.height + 1) !in c.pool
  {
    var n := High(c, a) - a.height;
    AncestorAdd(c.tip, n, 1);
    var k := Ancestor(a.genesis, 1);
    assert Links(k) < Links(a.genesis);
    if k in c.pool {
      DescendsLinks(k, a.genesis);
    }
  }

  /** A reachable state where the lost carry of the Zcash multiplication decides the next block: an
      initialisation with 29 connected mainnet blocks whose last 17 carry the two words. */
  lemma ReachableZcashDemandsWrongBits(r: Rules, blockHash: H256, height: nat, blocks: seq<Header>, h: Header)
    requires r.coin.Zcash? && r.network.Mainnet? && Init(r, blockHash, height, blocks).Some?
    requires |blocks| > 1 && Consecutive(InitSubmissions(blocks), BlockHash(blocks[0]))
    requires var k := BlockHash(blocks[|blocks| - 1]);
             && BitsOf(k) == HIGH_WORD && (forall i: nat :: 1 <= i < 17 ==> BitsOf(Ancestor(k, i)) == LOW_WORD)
             && Mtp(k) - Mtp(Ancestor(k, 17)) == 1275
    ensures var c := Init(r, blockHash, height, blocks).value.chain;
            && SaneZcash(ZcashConfigOf(Mainnet)) && c.tip in c.pool
            && ZcashNextWork(ZcashConfigOf(Mainnet), c, h, c.pool[c.tip])
               == Some(NextWorkResult(0x1201_fe00, Mtp(c.tip)))
  {
    var w := Init(r, blockHash, height, blocks).value;
    ConnectedInitSucceeds(r, blockHash, height, blocks);
    ConnectedInitWindow(r, blockHash, height, blocks);
    ZcashDemandsWrongBits(w.chain, h, w.chain.pool[w.chain.tip]);
  }

  lemma ConnectedInitWindow(r: Rules, blockHash: H256, height: nat, blocks: seq<Header>)
    requires r.coin.Zcash? && Init(r, blockHash, height, blocks).Some?
    requires |blocks| > 1 && Consecutive(InitSubmissions(blocks), BlockHash(blocks[0]))
    ensures var c := Init(r, blockHash, height, blocks).value.chain;
            c.tip in c.pool && c.pool[c.tip].hash == c.tip && Linked(c, c.tip, 28)
  {
    ConnectedInitEnds(r, blockHash, height, blocks);
    InitCounts(r, height, |blocks|);
    InitGood(r, blockHash, height, blocks);
    TipWindow(Init(r, blockHash, height, blocks).value.chain, Anchor(blockHash, height), 28);
  }

  /** After an initialisation with connected blocks every chain can check the next header: the tip has
      as many stored ancestors as there are further initial blocks, so that its median time past is
      defined, and for Zcash the whole averaging window. */
  lemma ConnectedInitReady(r: Rules, blockHash: H256, height: nat, blocks: seq<Header>)
    requires Init(r, blockHash, height, blocks).Some?
    requires |blocks| > 1 && Consecutive(InitSubmissions(blocks), BlockHash(blocks[0]))
    ensures var c := Init(r, blockHash, height, blocks).value.chain;
            && (forall n: nat :: Linked(c, c.tip, n) <==> n < |blocks|)
            && MedianTimePast(c, c.tip) == Some(Mtp(c.tip))
            && (r.coin.Zcash? ==> Linked(c, c.tip, 28))
  {
    var c, a := Init(r, blockHash, height, blocks).value.chain, Anchor(blockHash, height);
    ConnectedInitEnds(r, blockHash, height, blocks);
    InitGood(r, blockHash, height, blocks);
    forall n: nat ensures Linked(c, c.tip, n) <==> n < |blocks| {
      TipWindowStored(c, a, n);
    }
    InitCounts(r, height, |blocks|);
  }

  lemma InitCounts(r: Rules, height: nat, count: nat)
    requires InitArgsOk(r, height, count)
    ensures count > 11 && (r.coin.Zcash? ==> count == 29)
  {
  }

  lemma ConnectedInitEnds(r: Rules, blockHash: H256, height: nat, blocks: seq<Header>)
    requires Init(r, blockHash, height, blocks).Some?
    requires |blocks| > 1 && Consecutive(InitSubmissions(blocks), BlockHash(blocks[0]))
    ensures InitArgsOk(r, height, |blocks|)
    ensures var c := Init(r, blockHash, height, blocks).value.chain;
            c.initial == blockHash && Links(c.tip) == Links(blockHash) + |blocks| - 1
  {
    var ss := InitSubmissions(blocks);
    ConnectedInitSucceeds(r, blockHash, height, blocks);
    GenesisSound(blocks[0], height);
    RunStoresLast(r, World(GenesisChain(blocks[0], height), [blockHash]), Anchor(blockHash, height), ss, blockHash, true);
    RunLinks(ss, blockHash, |ss| - 1);
  }

  lemma TipWindow(c: Chain, a: Anchor, n: nat)
    requires Inv(c, a) && c.initial == a.genesis && Links(c.tip) == Links(a.genesis) + n
    ensures c.tip in c.pool && c.pool[c.tip].hash == c.tip && Linked(c, c.tip, n)
  {
    TipWindowStored(c, a, n);
  }
}
