/** Submission of one header (`submit_block_header` and `submit_block_header_inner` of
    `contract/src/lib.rs`, `submit_block_header` of `contract/src/dogecoin.rs`) on the value
    level, and the state invariant it keeps. */
module ForkChoice {
  import opened Arith
  import opened Wide
  import opened Compact
  import opened Hashing
  import opened Params
  import opened ChainState
  import opened Reorg
  import opened Consensus
  import opened AuxPow

  /** What is fixed when the contract is created; `hex` is the text form of hashes. */
  datatype Rules = Rules(
    coin: Coin,
    network: Network,
    skipPow: bool,
    gcThreshold: nat,
    hex: H256 -> seq<Nibble>)

  /** A submitted header with everything the checks read from outside: the proof-of-work hash, the
      local time in seconds, and the verdict on the Equihash solution. */
  datatype Submission = Submission(
    header: Header,
    aux: Option<AuxData>,
    powHash: U256,
    now: nat,
    solutionOk: bool)

  /** `check_target` and the proof-of-work test. */
  predicate Verified(r: Rules, c: Chain, s: Submission, prev: ExtendedHeader) {
    && PowRulesOk(r.coin, r.network, c, s.header, prev, s.now, s.solutionOk)
    && if r.coin.Dogecoin? && s.aux.Some?
       then AuxOk(s.header, s.aux.value, r.skipPow, r.hex)
       else s.powHash.Val() <= Decode(s.header.bits)
  }

  /** The record stored for a header; `None` where chain work or height would overflow. */
  function EntryFor(h: Header, prev: ExtendedHeader): Option<ExtendedHeader> {
    var work := prev.work.Val() + WorkOfBits(h.bits);
    if work >= TWO256 || prev.height + 1 >= TWO64 then None
    else Some(ExtendedHeader(h, BlockHash(h), FromNat(work), prev.height + 1))
  }

  /** Storing a checked header: extend the main chain, keep it as a fork, or promote it. */
  function Place(c: Chain, e: ExtendedHeader): Option<Chain> {
    if e.header.prev == c.tip then Some(Extend(c, e))
    else if c.tip !in c.pool then None
    else
      var stored := StoreFork(c, e);
      if !c.pool[c.tip].work.Less(e.work) then Some(stored)
      else
        match ForkPoint(stored, e.hash)
        case None => None
        case Some(p) => Some(Promote(stored, e, p))
  }

  /** One submission; `None` is any panic, which reverts the call. */
  function Submit(r: Rules, c: Chain, s: Submission, skip: bool): Option<Chain> {
    if s.header.prev !in c.pool then None
    else
      var prev := c.pool[s.header.prev];
      match EntryFor(s.header, prev)
      case None => None
      case Some(e) => if skip || Verified(r, c, s, prev) then Place(c, e) else None
  }

  // ---- chain work ----

  /** Sum of the works along the prev links from the genesis block. */
  function WorkOf(k: H256, genesis: H256): nat {
    if !k.OfHeader? then 0
    else if k == genesis then WorkOfBits(k.header.bits)
    else WorkOf(k.header.prev, genesis) + WorkOfBits(k.header.bits)
  }

  ghost predicate PoolWork(pool: map<H256, ExtendedHeader>, genesis: H256) {
    forall k :: k in pool ==> pool[k].work.Val() == WorkOf(k, genesis)
  }

  /** The stored record is what the prev links say: right hash, height and non-wrapping work. */
  lemma EntryCorrect(c: Chain, a: Anchor, h: Header)
    requires PoolOk(c.pool, a) && PoolWork(c.pool, a.genesis) && h.prev in c.pool
    requires EntryFor(h, c.pool[h.prev]).Some?
    ensures var e := EntryFor(h, c.pool[h.prev]).value;
            && e.hash == BlockHash(h) != a.genesis && e.header == h
            && EntryOk(e.hash, e, a)
            && e.work.Val() == WorkOf(e.hash, a.genesis)
            && WorkOf(e.hash, a.genesis) > WorkOf(h.prev, a.genesis)
  {
    DescendsLinks(h.prev, a.genesis);
  }

  /** Any accepted submission keeps the maps and the main chain consistent. */
  lemma PlaceKeepsInv(c: Chain, a: Anchor, e: ExtendedHeader)
    requires Inv(c, a) && EntryOk(e.hash, e, a) && Place(c, e).Some?
    ensures Inv(Place(c, e).value, a)
  {
    if e.header.prev == c.tip {
      ExtendInv(c, a, e);
    } else {
      StoreForkInv(c, a, e);
      if c.pool[c.tip].work.Less(e.work) {
        PromoteInv(StoreFork(c, e), a, e, ForkPoint(StoreFork(c, e), e.hash).value);
      }
    }
  }

  /** Placing a header only adds its own record to the pool, and keeps that record. */
  lemma PlacePool(c: Chain, a: Anchor, e: ExtendedHeader)
    requires Inv(c, a) && EntryOk(e.hash, e, a) && Place(c, e).Some?
    ensures var d := Place(c, e).value;
            && (forall k :: k in d.pool ==> (k == e.hash && d.pool[k] == e) || (k in c.pool && d.pool[k] == c.pool[k]))
            && e.hash in d.pool && d.pool[e.hash] == e
            && d.initial == c.initial
  {
    if e.header.prev != c.tip && c.pool[c.tip].work.Less(e.work) {
      StoreForkInv(c, a, e);
      PromotedEnds(StoreFork(c, e), a, e, ForkPoint(StoreFork(c, e), e.hash).value);
    }
  }

  /** The tip moves exactly when the header is heavier than the tip. */
  lemma PlaceTip(c: Chain, a: Anchor, e: ExtendedHeader)
    requires Inv(c, a) && PoolWork(c.pool, a.genesis) && Place(c, e).Some?
    requires e.header.prev in c.pool && e.work.Val() == WorkOf(e.hash, a.genesis)
    requires WorkOf(e.hash, a.genesis) > WorkOf(e.header.prev, a.genesis)
    ensures Place(c, e).value.tip
            == if WorkOf(e.hash, a.genesis) > WorkOf(c.tip, a.genesis) then e.hash else c.tip
  {
    if e.header.prev != c.tip {
      ValFaithful(c.pool[c.tip].work, e.work);
    }
  }
}
