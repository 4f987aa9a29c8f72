/** The contract calls, one step at a time: what each method of the contract object hands to the
    next, sealed in the manner of the reorganisation loops. */
module CallSteps {
  import opened Hashing
  import opened ChainState
  import opened Reorg
  import opened ReorgSteps
  import opened Pruning
  import opened Consensus
  import opened ForkChoice
  import opened Runs
  import opened RunLaws

  /** Let the sealed predicates about `w` be proved and be used. */
  predicate Lock(w: World, n: int) { true }
  predicate Unlock(w: World, n: int) { true }

  /** The invariant of all runs. */
  ghost predicate Sound(w: World, a: Anchor) {
    exists m {:trigger Lock(w, m)} :: Lock(w, m) &&
      forall n {:trigger Unlock(w, n)} :: Unlock(w, n) ==> Good(w, a)
  }

  lemma SoundIsGood(w: World, a: Anchor)
    ensures Sound(w, a) <==> Good(w, a)
  {
    assert Lock(w, 0) && Unlock(w, 0);
  }

  lemma GenesisSound(h: Header, height: nat)
    ensures Sound(World(GenesisChain(h, height), [BlockHash(h)]), Anchor(BlockHash(h), height))
  {
    GenesisGood(h, height);
    SoundIsGood(World(GenesisChain(h, height), [BlockHash(h)]), Anchor(BlockHash(h), height));
  }

  // ---- one submission ----

  /** A checked record `e`, ready to be placed on its stored parent. */
  ghost predicate Staged(c: Chain, a: Anchor, e: ExtendedHeader) {
    exists m {:trigger Seal(c, -1, m)} :: Seal(c, -1, m) &&
      forall n {:trigger Unseal(c, -1, n)} :: Unseal(c, -1, n) ==>
        && Inv(c, a) && EntryOk(e.hash, e, a)
        && e.header.prev in c.pool
  }

  lemma ParentStored(w: World, a: Anchor, k: H256)
    requires Sound(w, a) && k in w.chain.pool
    ensures w.chain.pool[k].hash == k && Stored(w.chain, a, w.chain.pool[k])
  {
    assert Unlock(w, 0);
  }

  lemma EntryStaged(w: World, a: Anchor, h: Header)
    requires Sound(w, a) && h.prev in w.chain.pool && EntryFor(h, w.chain.pool[h.prev]).Some?
    ensures Staged(w.chain, a, EntryFor(h, w.chain.pool[h.prev]).value)
  {
    assert Seal(w.chain, -1, 0) && Unlock(w, 0);
    EntryCorrect(w.chain, a, h);
  }

  /** On a fork: the tip is stored at the top height, and storing the header makes it promotable. */
  lemma ForkStaged(c: Chain, a: Anchor, e: ExtendedHeader)
    requires Staged(c, a, e)
    ensures c.tip in c.pool && c.pool[c.tip].height == High(StoreFork(c, e), a)
    ensures ForkReady(StoreFork(c, e), a, e)
  {
    assert Seal(StoreFork(c, e), 0, 0) && Unseal(c, -1, 0);
    StoreForkInv(c, a, e);
  }

  /** What one accepted header does. */
  lemma SubmitStep(r: Rules, w: World, a: Anchor, s: Submission, skip: bool)
    requires Sound(w, a) && SubmitOne(r, w, s, skip).Some?
    ensures var w', k := SubmitOne(r, w, s, skip).value, BlockHash(s.header);
            && Sound(w', a) && k in w'.chain.pool
            && WorkOf(k, a.genesis) > WorkOf(s.header.prev, a.genesis)
            && w'.chain.tip == if WorkOf(k, a.genesis) > WorkOf(w.chain.tip, a.genesis) then k else w.chain.tip
  {
    var c, h := w.chain, s.header;
    var e := EntryFor(h, c.pool[h.prev]).value;
    SoundIsGood(w, a);
    SubmitKeepsGood(r, w, a, s, skip);
    SoundIsGood(SubmitOne(r, w, s, skip).value, a);
    EntryCorrect(c, a, h);
    PlacePool(c, a, e);
    PlaceTip(c, a, e);
  }

  lemma SubmitKeepsInitial(r: Rules, w: World, a: Anchor, s: Submission, skip: bool)
    requires Sound(w, a) && SubmitOne(r, w, s, skip).Some?
    ensures SubmitOne(r, w, s, skip).value.chain.initial == w.chain.initial
  {
  }

  lemma StoredNotHeavier(w: World, a: Anchor, k: H256)
    requires Sound(w, a) && k in w.chain.pool
    ensures WorkOf(k, a.genesis) <= WorkOf(w.chain.tip, a.genesis)
  {
    SoundIsGood(w, a);
    AcceptedNotHeavier(w, a, k);
  }

  // ---- a batch ----

  /** State `w` of the loop over `ss` that started in `start`, before header `i`. */
  ghost predicate Submitting(r: Rules, w: World, start: World, a: Anchor, ss: seq<Submission>, skip: bool, i: nat) {
    exists m {:trigger Lock(w, m)} :: Lock(w, m) &&
      forall n {:trigger Unlock(w, n)} :: Unlock(w, n) ==>
        && Good(w, a) && i <= |ss|
        && SubmitAll(r, start, ss, skip) == SubmitAll(r, w, ss[i..], skip)
  }

  lemma BatchStart(r: Rules, w: World, a: Anchor, ss: seq<Submission>, skip: bool)
    requires Sound(w, a)
    ensures Submitting(r, w, w, a, ss, skip, 0)
  {
    assert Lock(w, 0) && Unlock(w, 0);
    assert ss[0..] == ss;
  }

  lemma BatchRound(r: Rules, w: World, start: World, a: Anchor, ss: seq<Submission>, skip: bool, i: nat)
    requires Submitting(r, w, start, a, ss, skip, i) && i < |ss|
    ensures Sound(w, a)
    ensures match SubmitOne(r, w, ss[i], skip)
            case None => SubmitAll(r, start, ss, skip).None?
            case Some(w') => Submitting(r, w', start, a, ss, skip, i + 1)
  {
    assert Lock(w, 0) && Unlock(w, 0);
    assert ss[i..][1..] == ss[i + 1..];
    if SubmitOne(r, w, ss[i], skip).Some? {
      var w' := SubmitOne(r, w, ss[i], skip).value;
      assert Lock(w', 0);
      SubmitKeepsGood(r, w, a, ss[i], skip);
    }
  }

  lemma BatchEnd(r: Rules, w: World, start: World, a: Anchor, ss: seq<Submission>, skip: bool)
    requires Submitting(r, w, start, a, ss, skip, |ss|)
    ensures SubmitAll(r, start, ss, skip) == Some(w) && Sound(w, a)
  {
    assert Lock(w, 0) && Unlock(w, 0);
  }

  // ---- garbage collection ----

  /** State `s` of the removal loop that started in `c`, before height `h`. */
  ghost predicate Collecting(s: Chain, c: Chain, a: Anchor, h: int) {
    exists m {:trigger Seal(s, h, m)} :: Seal(s, h, m) &&
      forall n {:trigger Unseal(s, h, n)} :: Unseal(s, h, n) ==>
        && Inv(c, a) && Low(c, a) <= h <= High(c, a) + 1
        && s == PruneTo(c, h).(initial := c.initial)
  }

  lemma CollectStart(w: World, a: Anchor)
    requires Sound(w, a)
    ensures var c := w.chain;
            && c.initial in c.pool && c.tip in c.pool
            && Collecting(c, c, a, c.pool[c.initial].height)
            && c.pool[c.initial].height == Low(c, a) && c.pool[c.tip].height == High(c, a)
  {
    var c := w.chain;
    assert Unlock(w, 0) && Seal(c, c.pool[c.initial].height, 0);
    PruneNothing(c, a);
  }

  lemma CollectRound(s: Chain, c: Chain, a: Anchor, h: int)
    requires Collecting(s, c, a, h) && h <= High(c, a)
    ensures h in s.byHeight && Collecting(Without(s, h), c, a, h + 1)
  {
    assert Unseal(s, h, 0) && Seal(Without(s, h), h + 1, 0);
    MainUnique(c, a, h);
    PruneOne(c, h);
  }

  lemma PruneOne(c: Chain, h: int)
    requires h in c.byHeight && c.byHeight[h] in c.byHash && c.byHash[c.byHeight[h]] == h
    requires forall k :: k in c.byHash && c.byHash[k] == h ==> k == c.byHeight[h]
    ensures var now, next, k := PruneTo(c, h), PruneTo(c, h + 1), c.byHeight[h];
            && h in now.byHeight && now.byHeight[h] == k
            && next.byHeight == now.byHeight - {h}
            && next.byHash == now.byHash - {k}
            && next.pool == now.pool - {k}
  {
    var k := c.byHeight[h];
    assert MainBelow(c, h + 1) == MainBelow(c, h) + {k};
    PoolStep(c.pool, MainBelow(c, h), {k});
  }

  lemma CollectEnd(s: Chain, c: Chain, a: Anchor, h: int)
    requires Collecting(s, c, a, h)
    ensures h in s.byHeight <==> h in c.byHeight
    ensures h in c.byHeight ==> s.(initial := s.byHeight[h]) == PruneTo(c, h)
  {
    assert Unseal(s, h, 0);
  }

  lemma CollectStaysSound(r: Rules, w: World, a: Anchor, batch: nat)
    requires Sound(w, a) && Collect(r, w, batch).Some?
    ensures Sound(Collect(r, w, batch).value, a)
  {
    SoundIsGood(w, a);
    CollectKeepsGood(r, w, a, batch);
    SoundIsGood(Collect(r, w, batch).value, a);
  }
}
