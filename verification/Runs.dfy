/** Whole executions: initialisation followed by any sequence of submissions and collections,
    with a log of every header ever accepted, and what holds in every reachable state. */
module Runs {
  import opened Arith
  import opened Wide
  import opened Compact
  import opened Hashing
  import opened Median
  import opened Params
  import opened ChainState
  import opened Pruning
  import opened Consensus
  import opened ForkChoice

  /** The contract state, with the hashes of all headers accepted so far in order of acceptance. */
  datatype World = World(chain: Chain, log: seq<H256>)

  datatype Event =
    | SubmitBlocks(headers: seq<Submission>)
    | RunMainchainGc(batch: nat)

  // ---- transitions ----

  function SubmitOne(r: Rules, w: World, s: Submission, skip: bool): Option<World> {
    match Submit(r, w.chain, s, skip)
    case None => None
    case Some(c) => Some(World(c, w.log + [BlockHash(s.header)]))
  }

  function SubmitAll(r: Rules, w: World, ss: seq<Submission>, skip: bool): Option<World>
    decreases |ss|
  {
    if ss == [] then Some(w)
    else
      match SubmitOne(r, w, ss[0], skip)
      case None => None
      case Some(w') => SubmitAll(r, w', ss[1..], skip)
  }

  function Collect(r: Rules, w: World, batch: nat): Option<World> {
    match Gc(w.chain, r.gcThreshold, batch)
    case None => None
    case Some(c) => Some(w.(chain := c))
  }

  /** One call; `None` is a panic. `submit_blocks` ends with a collection of as many blocks as
      were submitted. */
  function Call(r: Rules, w: World, ev: Event): Option<World> {
    match ev
    case RunMainchainGc(batch) => Collect(r, w, batch)
    case SubmitBlocks(ss) =>
      match SubmitAll(r, w, ss, r.skipPow)
      case None => None
      case Some(w') => Collect(r, w', |ss|)
  }

  /** A failed call leaves the state as it was. */
  function Next(r: Rules, w: World, ev: Event): World {
    match Call(r, w, ev)
    case None => w
    case Some(w') => w'
  }

  function Run(r: Rules, w: World, evs: seq<Event>): World
    decreases |evs|
  {
    if evs == [] then w else Run(r, Next(r, w, evs[0]), evs[1..])
  }

  // ---- initialisation ----

  /** Alignment and number of the initial blocks, per chain. */
  predicate InitArgsOk(r: Rules, height: nat, count: nat) {
    && count > 0
    && match r.coin
       case Zcash => MEDIAN_TIME_SPAN + ZcashConfigOf(r.network).window == count - 1
       case Bitcoin =>
         height % BitcoinConfig(r.network).interval == 0 && count > MEDIAN_TIME_SPAN
       case _ =>
         (height + 1) % ConfigOf(r.coin, r.network).interval == 0 && count > MEDIAN_TIME_SPAN
  }

  function GenesisEntry(h: Header, height: nat): ExtendedHeader {
    ExtendedHeader(h, BlockHash(h), FromNat(WorkOfBits(h.bits)), height)
  }

  function GenesisChain(h: Header, height: nat): Chain {
    var k := BlockHash(h);
    Chain(map[height as int := k], map[k := height as int], map[k := GenesisEntry(h, height)], k, k)
  }

  function Unchecked(h: Header): Submission { Submission(h, None, ZERO, 0, false) }

  /** The initial blocks after the first, submitted without checks. */
  function InitSubmissions(blocks: seq<Header>): seq<Submission>
    requires blocks != []
  {
    seq(|blocks| - 1, i requires 0 <= i < |blocks| - 1 => Unchecked(blocks[i + 1]))
  }

  function Init(r: Rules, blockHash: H256, height: nat, blocks: seq<Header>): Option<World> {
    if !InitArgsOk(r, height, |blocks|) || BlockHash(blocks[0]) != blockHash then None
    else
      SubmitAll(r, World(GenesisChain(blocks[0], height), [blockHash]), InitSubmissions(blocks), true)
  }

  // ---- the invariant of all runs ----

  /** Every logged header descends from the genesis block through logged headers, and its chain
      work fits 256 bits. */
  ghost predicate LogOk(log: seq<H256>, a: Anchor) {
    && |log| > 0 && log[0] == a.genesis
    && (forall i :: 0 <= i < |log| ==> log[i].OfHeader? && Descends(log[i], a.genesis))
    && (forall i :: 0 <= i < |log| ==> WorkOf(log[i], a.genesis) < TWO256)
    && (forall i :: 0 < i < |log| ==> log[i] != a.genesis && log[i].header.prev in log[..i])
  }

  /** `tip` is the earliest accepted header of maximal chain work. */
  ghost predicate EarliestHeaviest(log: seq<H256>, tip: H256, genesis: H256) {
    exists i :: 0 <= i < |log| && FirstBest(log, i, tip, genesis)
  }

  ghost predicate FirstBest(log: seq<H256>, i: nat, tip: H256, genesis: H256)
    requires i < |log|
  {
    && log[i] == tip
    && (forall j :: 0 <= j < |log| ==> WorkOf(log[j], genesis) <= WorkOf(tip, genesis))
    && (forall j :: 0 <= j < i ==> WorkOf(log[j], genesis) < WorkOf(tip, genesis))
  }

  ghost predicate Good(w: World, a: Anchor) {
    && Inv(w.chain, a)
    && PoolWork(w.chain.pool, a.genesis)
    && LogOk(w.log, a)
    && (forall k :: k in w.chain.pool ==> k in w.log)
    && EarliestHeaviest(w.log, w.chain.tip, a.genesis)
  }

  lemma GenesisGood(h: Header, height: nat)
    ensures Good(World(GenesisChain(h, height), [BlockHash(h)]), Anchor(BlockHash(h), height))
  {
    var k, a := BlockHash(h), Anchor(BlockHash(h), height);
    assert FirstBest([k], 0, k, k);
  }

  lemma SubmitKeepsGood(r: Rules, w: World, a: Anchor, s: Submission, skip: bool)
    requires Good(w, a) && SubmitOne(r, w, s, skip).Some?
    ensures Good(SubmitOne(r, w, s, skip).value, a)
    ensures WorkOf(SubmitOne(r, w, s, skip).value.chain.tip, a.genesis) >= WorkOf(w.chain.tip, a.genesis)
  {
    var c, h := w.chain, s.header;
    var e := EntryFor(h, c.pool[h.prev]).value;
    EntryCorrect(c, a, h);
    PlaceKeepsInv(c, a, e);
    PlaceTip(c, a, e);
    LogGrows(w.log, a, e.hash);
    BestGrows(w.log, c.tip, a.genesis, e.hash);
    PlaceLogged(w, a, e);
  }

  /** The pool stays within the log, with the right works. */
  lemma PlaceLogged(w: World, a: Anchor, e: ExtendedHeader)
    requires Good(w, a) && EntryOk(e.hash, e, a) && Place(w.chain, e).Some?
    requires e.work.Val() == WorkOf(e.hash, a.genesis)
    ensures PoolWork(Place(w.chain, e).value.pool, a.genesis)
    ensures forall k :: k in Place(w.chain, e).value.pool ==> k in w.log + [e.hash]
  {
    PlacePool(w.chain, a, e);
  }

  lemma LogGrows(log: seq<H256>, a: Anchor, k: H256)
    requires LogOk(log, a) && k.OfHeader? && k.header.prev in log && k != a.genesis
    requires WorkOf(k, a.genesis) < TWO256
    ensures LogOk(log + [k], a)
  {
    var next := log + [k];
    assert forall i :: 0 <= i <= |log| ==> next[..i] == log[..i];
    assert log[..|log|] == log;
  }

  lemma BestGrows(log: seq<H256>, tip: H256, genesis: H256, k: H256)
    requires EarliestHeaviest(log, tip, genesis)
    ensures EarliestHeaviest(log + [k], if WorkOf(k, genesis) > WorkOf(tip, genesis) then k else tip, genesis)
  {
    var i :| 0 <= i < |log| && FirstBest(log, i, tip, genesis);
    if WorkOf(k, genesis) > WorkOf(tip, genesis) {
      BestReplaced(log, i, tip, genesis, k);
    } else {
      BestStays(log, i, tip, genesis, k);
    }
  }

  lemma BestReplaced(log: seq<H256>, i: nat, tip: H256, genesis: H256, k: H256)
    requires i < |log| && FirstBest(log, i, tip, genesis) && WorkOf(k, genesis) > WorkOf(tip, genesis)
    ensures FirstBest(log + [k], |log|, k, genesis)
  {
  }

  lemma BestStays(log: seq<H256>, i: nat, tip: H256, genesis: H256, k: H256)
    requires i < |log| && FirstBest(log, i, tip, genesis) && WorkOf(k, genesis) <= WorkOf(tip, genesis)
    ensures FirstBest(log + [k], i, tip, genesis)
  {
  }

  lemma {:induction false} SubmitAllKeepsGood(r: Rules, w: World, a: Anchor, ss: seq<Submission>, skip: bool)
    requires Good(w, a) && SubmitAll(r, w, ss, skip).Some?
    ensures Good(SubmitAll(r, w, ss, skip).value, a)
    ensures WorkOf(SubmitAll(r, w, ss, skip).value.chain.tip, a.genesis) >= WorkOf(w.chain.tip, a.genesis)
    decreases |ss|
  {
    if ss != [] {
      SubmitKeepsGood(r, w, a, ss[0], skip);
      SubmitAllKeepsGood(r, SubmitOne(r, w, ss[0], skip).value, a, ss[1..], skip);
    }
  }

  lemma CollectKeepsGood(r: Rules, w: World, a: Anchor, batch: nat)
    requires Good(w, a) && Collect(r, w, batch).Some?
    ensures Good(Collect(r, w, batch).value, a)
    ensures Collect(r, w, batch).value.chain.tip == w.chain.tip
  {
    GcResult(w.chain, a, r.gcThreshold, batch);
    GcForm(w.chain, a, r.gcThreshold, batch);
  }

  /** One call, successful or not: the state stays good and the tip's work never decreases. */
  lemma NextKeepsGood(r: Rules, w: World, a: Anchor, ev: Event)
    requires Good(w, a)
    ensures Good(Next(r, w, ev), a)
    ensures WorkOf(Next(r, w, ev).chain.tip, a.genesis) >= WorkOf(w.chain.tip, a.genesis)
  {
    if Call(r, w, ev).Some? {
      match ev {
        case RunMainchainGc(batch) => CollectKeepsGood(r, w, a, batch);
        case SubmitBlocks(ss) =>
          SubmitAllKeepsGood(r, w, a, ss, r.skipPow);
          CollectKeepsGood(r, SubmitAll(r, w, ss, r.skipPow).value, a, |ss|);
      }
    }
  }

  lemma {:induction false} RunKeepsGood(r: Rules, w: World, a: Anchor, evs: seq<Event>)
    requires Good(w, a)
    ensures Good(Run(r, w, evs), a)
    ensures WorkOf(Run(r, w, evs).chain.tip, a.genesis) >= WorkOf(w.chain.tip, a.genesis)
    decreases |evs|
  {
    if evs != [] {
      NextKeepsGood(r, w, a, evs[0]);
      RunKeepsGood(r, Next(r, w, evs[0]), a, evs[1..]);
    }
  }

  lemma InitGood(r: Rules, blockHash: H256, height: nat, blocks: seq<Header>)
    requires Init(r, blockHash, height, blocks).Some?
    ensures Good(Init(r, blockHash, height, blocks).value, Anchor(blockHash, height))
  {
    var w := World(GenesisChain(blocks[0], height), [blockHash]);
    GenesisGood(blocks[0], height);
    SubmitAllKeepsGood(r, w, Anchor(blockHash, height), InitSubmissions(blocks), true);
  }

  /** Safety of every execution: after any successful initialisation and any calls, the maps
      agree, the main chain is the prev-link path of the tip, and the tip is the earliest header
      of maximal chain work among all ever accepted. */
  lemma EveryReachableStateGood(r: Rules, blockHash: H256, height: nat, blocks: seq<Header>, evs: seq<Event>)
    requires Init(r, blockHash, height, blocks).Some?
    ensures Good(Run(r, Init(r, blockHash, height, blocks).value, evs), Anchor(blockHash, height))
  {
    InitGood(r, blockHash, height, blocks);
    RunKeepsGood(r, Init(r, blockHash, height, blocks).value, Anchor(blockHash, height), evs);
  }
}
