/** Exactly which headers are accepted with checks on, spelled out chain by chain in terms of prev
    links, times and numbers. */
module Acceptance {
  import opened Arith
  import opened Wide
  import opened Compact
  import opened Hashing
  import opened Params
  import opened ChainState
  import opened Reorg
  import opened Retarget
  import opened Consensus
  import opened AuxPow
  import opened ForkChoice
  import opened Runs
  import opened RunLaws
  import opened CallSteps
  import opened Progress
  import opened Lookups
  import opened Demands

  // ---- placing ----

  /** Storing a block does not change where the walks from lower blocks lead. */
  lemma {:induction false} StoredAbove(c: Chain, e: ExtendedHeader, x: H256)
    requires Links(x) < Links(e.hash)
    ensures ForkPoint(StoreFork(c, e), x) == ForkPoint(c, x)
    decreases x
  {
    if x !in c.byHash && x.OfHeader? {
      StoredAbove(c, e, x.header.prev);
      assert x.header.prev != e.hash;
    }
  }

  /** There is a place for a child `k` of a stored block: on the tip, beside the main chain because it
      is not heavier than the tip, or on a branch that leads back to the main chain. */
  ghost predicate HasPlace(w: World, a: Anchor, k: H256)
    requires k.OfHeader?
  {
    || k.header.prev == w.chain.tip
    || WorkOf(k, a.genesis) <= WorkOf(w.chain.tip, a.genesis)
    || exists n: nat :: ReachesMain(w.chain, k.header.prev, n)
  }

  lemma PlacedIff(w: World, a: Anchor, e: ExtendedHeader)
    requires Sound(w, a) && e.hash == BlockHash(e.header) && e.header.prev in w.chain.pool
    requires e.work.Val() == WorkOf(e.hash, a.genesis) && w.chain.tip in w.chain.pool
    requires w.chain.pool[w.chain.tip].work.Val() == WorkOf(w.chain.tip, a.genesis)
    ensures Place(w.chain, e).Some? <==> HasPlace(w, a, e.hash)
  {
    var c, k := w.chain, e.hash;
    ValFaithful(c.pool[c.tip].work, e.work);
    if c.pool[c.tip].work.Less(e.work) {
      HeavierIsNew(w, a, k);
      StoredAbove(c, e, e.header.prev);
      SoundIsGood(w, a);
      WalkSucceedsIff(c, a, e.header.prev);
    }
  }

  /** A header heavier than the tip is not on the main chain. */
  lemma HeavierIsNew(w: World, a: Anchor, k: H256)
    requires Sound(w, a) && WorkOf(k, a.genesis) > WorkOf(w.chain.tip, a.genesis)
    ensures k !in w.chain.byHash
  {
    SoundIsGood(w, a);
    if k in w.chain.byHash {
      MainHeight(w.chain, a, k);
      AcceptedNotHeavier(w, a, k);
    }
  }

  lemma UnfitHasNoEntry(w: World, a: Anchor, h: Header)
    requires Sound(w, a) && h.prev in w.chain.pool
    ensures EntryFor(h, w.chain.pool[h.prev]).Some? <==> Fits(BlockHash(h), a)
  {
    assert Unlock(w, 0);
    DescendsLinks(h.prev, a.genesis);
  }

  /** With any checks: accepted exactly when it fits, has a place, and passes them. */
  lemma SubmittedIff(r: Rules, w: World, a: Anchor, s: Submission)
    requires Sound(w, a) && s.header.prev in w.chain.pool
    ensures SubmitOne(r, w, s, false).Some?
            <==> && Fits(BlockHash(s.header), a) && HasPlace(w, a, BlockHash(s.header))
                 && Verified(r, w.chain, s, w.chain.pool[s.header.prev])
  {
    UnfitHasNoEntry(w, a, s.header);
    if Fits(BlockHash(s.header), a) {
      EntryForms(w, a, s.header);
      PlacedIff(w, a, EntryFor(s.header, w.chain.pool[s.header.prev]).value);
    }
  }

  // ---- the four chains ----

  /** What all chains demand of the time of a child of `prev`: above the median of the eleven newest
      times, all still stored, and at most two hours ahead of the clock. */
  ghost predicate TimeOk(c: Chain, h: Header, now: nat) {
    Linked(c, h.prev, 11) && h.time > Mtp(h.prev) && h.time <= now + 7200 < 0x1_0000_0000
  }

  /** Bitcoin and Litecoin. */
  lemma PeriodicAccepts(r: Rules, w: World, a: Anchor, s: Submission)
    requires Sound(w, a) && s.header.prev in w.chain.pool && (r.coin.Bitcoin? || r.coin.Litecoin?)
    ensures SubmitOne(r, w, s, false).Some?
            <==> && Fits(BlockHash(s.header), a) && HasPlace(w, a, BlockHash(s.header))
                 && NextWork(r.coin, ConfigOf(r.coin, r.network), w.chain, s.header, w.chain.pool[s.header.prev])
                    == Some(s.header.bits)
                 && TimeOk(w.chain, s.header, s.now)
                 && s.header.version >= 4
                 && s.powHash.Val() <= Decode(s.header.bits)
  {
    SubmittedIff(r, w, a, s);
    ParentStored(w, a, s.header.prev);
    PeriodicChecks(r, w.chain, s, w.chain.pool[s.header.prev]);
  }

  lemma PeriodicChecks(r: Rules, c: Chain, s: Submission, prev: ExtendedHeader)
    requires (r.coin.Bitcoin? || r.coin.Litecoin?) && prev.hash == s.header.prev
    ensures Verified(r, c, s, prev)
            <==> && NextWork(r.coin, ConfigOf(r.coin, r.network), c, s.header, prev) == Some(s.header.bits)
                 && TimeOk(c, s.header, s.now) && s.header.version >= 4
                 && s.powHash.Val() <= Decode(s.header.bits)
  {
  }

  /** Dogecoin: no version rule, and either the header's own work or merged mining. */
  lemma DogecoinAccepts(r: Rules, w: World, a: Anchor, s: Submission)
    requires Sound(w, a) && s.header.prev in w.chain.pool && r.coin.Dogecoin?
    ensures SubmitOne(r, w, s, false).Some?
            <==> && Fits(BlockHash(s.header), a) && HasPlace(w, a, BlockHash(s.header))
                 && NextWork(Dogecoin, DogecoinConfig(r.network), w.chain, s.header, w.chain.pool[s.header.prev])
                    == Some(s.header.bits)
                 && TimeOk(w.chain, s.header, s.now)
                 && (match s.aux
                     case None => s.powHash.Val() <= Decode(s.header.bits)
                     case Some(aux) => AuxOk(s.header, aux, r.skipPow, r.hex))
  {
    SubmittedIff(r, w, a, s);
    ParentStored(w, a, s.header.prev);
    DogecoinChecks(r, w.chain, s, w.chain.pool[s.header.prev]);
  }

  lemma DogecoinChecks(r: Rules, c: Chain, s: Submission, prev: ExtendedHeader)
    requires r.coin.Dogecoin? && prev.hash == s.header.prev
    ensures Verified(r, c, s, prev)
            <==> && NextWork(Dogecoin, DogecoinConfig(r.network), c, s.header, prev) == Some(s.header.bits)
                 && TimeOk(c, s.header, s.now)
                 && (match s.aux
                     case None => s.powHash.Val() <= Decode(s.header.bits)
                     case Some(aux) => AuxOk(s.header, aux, r.skipPow, r.hex))
  {
  }

  /** Zcash: the sum of the window must fit, 28 ancestors must be stored, the time may be at most 90
      minutes above the median, and the solution must be valid. */
  lemma ZcashAccepts(r: Rules, w: World, a: Anchor, s: Submission)
    requires Sound(w, a) && s.header.prev in w.chain.pool && r.coin.Zcash?
    ensures SaneZcash(ZcashConfigOf(r.network))
    ensures SubmitOne(r, w, s, false).Some?
            <==> && Fits(BlockHash(s.header), a) && HasPlace(w, a, BlockHash(s.header))
                 && Linked(w.chain, s.header.prev, 28) && TargetSum(s.header.prev, 17) < TWO256
                 && ZcashWordIs(r.network, w.chain, s.header, w.chain.pool[s.header.prev])
                 && TimeOk(w.chain, s.header, s.now)
                 && s.header.time <= Mtp(s.header.prev) + 5400 < 0x1_0000_0000
                 && s.header.version >= 4
                 && s.solutionOk
                 && s.powHash.Val() <= Decode(s.header.bits)
  {
    ZcashConfigsSane(r.network);
    SubmittedIff(r, w, a, s);
    ParentStored(w, a, s.header.prev);
    ZcashChecks(r, w.chain, s, w.chain.pool[s.header.prev]);
  }

  /** The header carries the expected word. */
  ghost predicate ZcashWordIs(n: Network, c: Chain, h: Header, prev: ExtendedHeader)
    requires SaneZcash(ZcashConfigOf(n))
  {
    && ZcashNextWork(ZcashConfigOf(n), c, h, prev).Some?
    && ZcashNextWork(ZcashConfigOf(n), c, h, prev).value.expectedBits == h.bits
  }

  lemma ZcashChecks(r: Rules, c: Chain, s: Submission, prev: ExtendedHeader)
    requires r.coin.Zcash? && prev.hash == s.header.prev && SaneZcash(ZcashConfigOf(r.network))
    ensures Verified(r, c, s, prev)
            <==> && Linked(c, s.header.prev, 28) && TargetSum(s.header.prev, 17) < TWO256
                 && ZcashWordIs(r.network, c, s.header, prev)
                 && TimeOk(c, s.header, s.now)
                 && s.header.time <= Mtp(s.header.prev) + 5400 < 0x1_0000_0000
                 && s.header.version >= 4 && s.solutionOk
                 && s.powHash.Val() <= Decode(s.header.bits)
  {
    ZcashNextWorkWithin(r.network, c, s.header, prev);
    if ZcashNextWork(ZcashConfigOf(r.network), c, s.header, prev).Some? {
      FewerLinks(c, s.header.prev, 11, 28);
      ZcashTimes(r.network, ZcashConfigOf(r.network), c, s, prev);
    }
  }

  lemma ZcashTimes(n: Network, cfg: ZcashConfig, c: Chain, s: Submission, prev: ExtendedHeader)
    requires SaneZcash(cfg) && cfg == ZcashConfigOf(n) && ZcashNextWork(cfg, c, s.header, prev).Some?
    ensures var h, median := s.header, Mtp(prev.hash);
            ZcashPowOk(n, c, h, prev, s.now, s.solutionOk)
            <==> && ZcashNextWork(cfg, c, h, prev).value.expectedBits == h.bits
                 && median < h.time <= median + 5400 < 0x1_0000_0000
                 && h.time <= s.now + 7200 < 0x1_0000_0000
                 && h.version >= 4 && s.solutionOk
  {
    ZcashMedian(cfg, c, s.header, prev);
  }

  lemma FewerLinks(c: Chain, k: H256, m: nat, n: nat)
    requires m <= n && Linked(c, k, n)
    ensures Linked(c, k, m)
  {
  }
}
