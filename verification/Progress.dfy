/** What the contract accepts: connected headers on top of the tip are never turned away, except
    where height or chain work would leave the number range. */
module Progress {
  import opened Arith
  import opened Hashing
  import opened ChainState
  import opened Pruning
  import opened ForkChoice
  import opened Runs
  import opened CallSteps
  import opened Relayer

  /** Height and chain work of `k` are representable. */
  ghost predicate Fits(k: H256, a: Anchor) {
    HeightOf(k, a) < TWO64 && WorkOf(k, a.genesis) < TWO256
  }

  lemma HeadFits(w: World, a: Anchor, h: Header)
    requires Sound(w, a) && h.prev == w.chain.tip
    ensures h.prev in w.chain.pool && BlockHash(h) != a.genesis
    ensures EntryFor(h, w.chain.pool[h.prev]).Some? <==> Fits(BlockHash(h), a)
  {
    assert Unlock(w, 0);
    DescendsLinks(w.chain.tip, a.genesis);
  }

  /** A header on the tip, submitted without checks, becomes the tip unless it does not fit. */
  lemma HeadAccepted(r: Rules, w: World, a: Anchor, s: Submission)
    requires Sound(w, a) && s.header.prev == w.chain.tip
    ensures SubmitOne(r, w, s, true).Some? <==> Fits(BlockHash(s.header), a)
    ensures SubmitOne(r, w, s, true).Some? ==>
              SubmitOne(r, w, s, true).value.chain.tip == BlockHash(s.header)
  {
    HeadFits(w, a, s.header);
  }

  /** Heights and works grow along a connected run, so only its last header matters. */
  lemma {:induction false} AllFit(ss: seq<Submission>, parent: H256, a: Anchor)
    requires Consecutive(ss, parent) && Links(parent) >= Links(a.genesis) && Fits(LastOf(ss, parent), a)
    ensures Fits(parent, a)
    decreases |ss|
  {
    if ss != [] {
      ConsecutiveTail(ss, parent);
      AllFit(ss[1..], BlockHash(ss[0].header), a);
      assert BlockHash(ss[0].header) != a.genesis;
    }
  }

  /** A connected run on the tip, submitted without checks, is accepted if and only if its last
      header fits, and that header is then the tip. */
  lemma {:induction false} ConnectedRunAccepted(r: Rules, w: World, a: Anchor, ss: seq<Submission>)
    requires Sound(w, a) && Consecutive(ss, w.chain.tip) && ss != []
    ensures SubmitAll(r, w, ss, true).Some? <==> Fits(LastOf(ss, w.chain.tip), a)
    ensures SubmitAll(r, w, ss, true).Some? ==>
              SubmitAll(r, w, ss, true).value.chain.tip == LastOf(ss, w.chain.tip)
    decreases |ss|
  {
    var k := BlockHash(ss[0].header);
    ConsecutiveTail(ss, w.chain.tip);
    HeadAccepted(r, w, a, ss[0]);
    if Fits(LastOf(ss, w.chain.tip), a) {
      TipDepth(w, a);
      AllFit(ss[1..], k, a);
    }
    if Fits(k, a) {
      SubmitStep(r, w, a, ss[0], true);
      if |ss| > 1 {
        ConnectedRunAccepted(r, SubmitOne(r, w, ss[0], true).value, a, ss[1..]);
      }
    }
  }

  lemma TipDepth(w: World, a: Anchor)
    requires Sound(w, a)
    ensures Links(w.chain.tip) >= Links(a.genesis)
  {
    assert Unlock(w, 0);
    DescendsLinks(w.chain.tip, a.genesis);
  }

  /** Initialisation with connected blocks succeeds exactly when the arguments are aligned, the
      first block has the announced hash, and the last block fits; the last block is the tip. */
  lemma ConnectedInitSucceeds(r: Rules, blockHash: H256, height: nat, blocks: seq<Header>)
    requires |blocks| > 1 && Consecutive(InitSubmissions(blocks), BlockHash(blocks[0]))
    ensures Init(r, blockHash, height, blocks).Some?
            <==> && InitArgsOk(r, height, |blocks|) && blockHash == BlockHash(blocks[0])
                 && Fits(BlockHash(blocks[|blocks| - 1]), Anchor(blockHash, height))
    ensures Init(r, blockHash, height, blocks).Some? ==>
              Init(r, blockHash, height, blocks).value.chain.tip == BlockHash(blocks[|blocks| - 1])
  {
    if InitArgsOk(r, height, |blocks|) && blockHash == BlockHash(blocks[0]) {
      var w := World(GenesisChain(blocks[0], height), [blockHash]);
      GenesisSound(blocks[0], height);
      ConnectedRunAccepted(r, w, Anchor(blockHash, height), InitSubmissions(blocks));
    }
  }

  // ---- the collection after a submission ----

  /** Collecting `batch` blocks from a chain of `size`: nothing within the threshold, otherwise down to
      the threshold, but no more than the batch. */
  function SizeAfter(size: int, threshold: nat, batch: nat): int {
    if size <= threshold then size else Max(threshold, size - batch)
  }

  lemma CollectedSize(r: Rules, w: World, a: Anchor, batch: nat)
    requires Good(w, a)
    ensures Collect(r, w, batch).None? <==> r.gcThreshold == 0 && batch >= Size(w.chain, a)
    ensures Collect(r, w, batch).Some? ==>
              && Size(Collect(r, w, batch).value.chain, a) == SizeAfter(Size(w.chain, a), r.gcThreshold, batch)
              && Collect(r, w, batch).value.log == w.log
  {
    GcResult(w.chain, a, r.gcThreshold, batch);
    QuotaSize(Size(w.chain, a), r.gcThreshold, batch);
  }

  lemma QuotaSize(size: int, threshold: nat, batch: nat)
    ensures size - Quota(size, threshold, batch) == SizeAfter(size, threshold, batch)
  {
  }

  /** A call to collect removes up to its batch. */
  lemma GcCallSize(r: Rules, w: World, a: Anchor, batch: nat)
    requires Good(w, a)
    ensures Call(r, w, RunMainchainGc(batch)).None? <==> r.gcThreshold == 0 && batch >= Size(w.chain, a)
    ensures Call(r, w, RunMainchainGc(batch)).Some? ==>
              Size(Call(r, w, RunMainchainGc(batch)).value.chain, a) == SizeAfter(Size(w.chain, a), r.gcThreshold, batch)
  {
    CollectedSize(r, w, a, batch);
  }

  /** A submission fails exactly when one of its headers does or the collection would empty the chain;
      otherwise it collects as many blocks as it has headers from the chain that the headers left. */
  lemma SubmissionCollects(r: Rules, w: World, a: Anchor, ss: seq<Submission>)
    requires Good(w, a)
    ensures Call(r, w, SubmitBlocks(ss)).None?
            <==> || SubmitAll(r, w, ss, r.skipPow).None?
                 || (r.gcThreshold == 0 && |ss| >= Size(SubmitAll(r, w, ss, r.skipPow).value.chain, a))
    ensures Call(r, w, SubmitBlocks(ss)).Some? ==>
              var after, w' := SubmitAll(r, w, ss, r.skipPow).value, Call(r, w, SubmitBlocks(ss)).value;
              && Size(w'.chain, a) == SizeAfter(Size(after.chain, a), r.gcThreshold, |ss|)
              && w'.chain.tip == after.chain.tip && w'.log == after.log
  {
    if SubmitAll(r, w, ss, r.skipPow).Some? {
      var after := SubmitAll(r, w, ss, r.skipPow).value;
      SubmitAllKeepsGood(r, w, a, ss, r.skipPow);
      CollectedSize(r, after, a, |ss|);
      if Collect(r, after, |ss|).Some? {
        CollectKeepsGood(r, after, a, |ss|);
      }
    }
  }

  /** A connected batch on the tip grows the chain up to the threshold and then holds its size. */
  lemma ConnectedBatchSize(r: Rules, w: World, a: Anchor, ss: seq<Submission>)
    requires Sound(w, a) && Consecutive(ss, w.chain.tip) && ss != [] && Call(r, w, SubmitBlocks(ss)).Some?
    ensures var size, w' := Size(w.chain, a), Call(r, w, SubmitBlocks(ss)).value;
            && w'.chain.tip == LastOf(ss, w.chain.tip)
            && Size(w'.chain, a)
               == if size + |ss| <= r.gcThreshold then size + |ss| else Max(r.gcThreshold, size)
  {
    SoundIsGood(w, a);
    SubmissionCollects(r, w, a, ss);
    ConnectedRunSize(r, w, a, ss, r.skipPow);
  }

  lemma ConnectedRunSize(r: Rules, w: World, a: Anchor, ss: seq<Submission>, skip: bool)
    requires Sound(w, a) && Consecutive(ss, w.chain.tip) && ss != [] && SubmitAll(r, w, ss, skip).Some?
    ensures var c := SubmitAll(r, w, ss, skip).value.chain;
            c.tip == LastOf(ss, w.chain.tip) && Size(c, a) == Size(w.chain, a) + |ss|
  {
    TipStored(w, a);
    RunMovesTip(r, w, a, ss, w.chain.tip, skip);
    RunStoresLast(r, w, a, ss, w.chain.tip, skip);
    RunLinks(ss, w.chain.tip, |ss| - 1);
  }

  /** A contract that skips the checks accepts every connected batch on the tip that fits, unless the
      collection would empty the chain. */
  lemma SkippingCallAccepts(r: Rules, w: World, a: Anchor, ss: seq<Submission>)
    requires Sound(w, a) && Consecutive(ss, w.chain.tip) && ss != [] && r.skipPow && r.gcThreshold > 0
    ensures Call(r, w, SubmitBlocks(ss)).Some? <==> Fits(LastOf(ss, w.chain.tip), a)
  {
    SoundIsGood(w, a);
    SubmissionCollects(r, w, a, ss);
    ConnectedRunAccepted(r, w, a, ss);
  }

  lemma TipStored(w: World, a: Anchor)
    requires Sound(w, a)
    ensures w.chain.tip in w.chain.pool
  {
    assert Unlock(w, 0);
  }
}
