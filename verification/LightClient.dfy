/** The contract object of `contract/src/lib.rs`: methods that update its maps and pointers in
    place, each proved against the value-level specification. A panic is a result of `false`; an
    entry point then restores the state, as NEAR reverts a failed call. */
module LightClient {
  import opened Arith
  import opened Wide
  import opened Compact
  import opened Hashing
  import opened ChainState
  import opened Reorg
  import opened ReorgSteps
  import opened Consensus
  import opened AuxPow
  import opened ForkChoice
  import opened Runs
  import opened CallSteps
  import opened Merkle
  import opened Queries
  import opened Inclusion

  class BtcLightClient {
    const rules: Rules

    var byHeight: map<int, H256>
    var byHash: map<H256, int>
    var pool: map<H256, ExtendedHeader>
    var tip: H256
    var initial: H256

    ghost var anchor: Anchor
    ghost var log: seq<H256>

    function State(): Chain
      reads this
    {
      Chain(byHeight, byHash, pool, tip, initial)
    }

    ghost function TheWorld(): World
      reads this
    {
      World(State(), log)
    }

    ghost predicate Valid()
      reads this
    {
      Sound(TheWorld(), anchor)
    }

    constructor (rules: Rules)
      ensures this.rules == rules
      ensures byHeight == map[] && byHash == map[] && pool == map[]
    {
      this.rules := rules;
      byHeight, byHash, pool := map[], map[], map[];
      tip, initial := Raw(0), Raw(0);
    }

    // ---- single updates ----

    method StoreBlockHeader(e: ExtendedHeader)
      modifies this`byHeight, this`byHash, this`pool
      ensures byHeight == old(byHeight)[e.height := e.hash]
      ensures byHash == old(byHash)[e.hash := e.height]
      ensures pool == old(pool)[e.hash := e]
    {
      byHeight := byHeight[e.height := e.hash];
      byHash := byHash[e.hash := e.height];
      pool := pool[e.hash := e];
    }

    method RemoveBlockHeader(k: H256)
      modifies this`byHash, this`pool
      ensures byHash == old(byHash) - {k}
      ensures pool == old(pool) - {k}
    {
      byHash := byHash - {k};
      pool := pool - {k};
    }

    method StoreForkHeader(e: ExtendedHeader)
      modifies this`pool
      ensures pool == old(pool)[e.hash := e]
    {
      pool := pool[e.hash := e];
    }

    // ---- reorganisation ----

    /** Promotes the stored fork that ends in `fork`; fails exactly when the stored prev links do
        not lead back to the main chain. */
    method ReorgChain(fork: ExtendedHeader, lastMainChainHeight: int) returns (ok: bool)
      requires ForkReady(State(), anchor, fork)
      requires lastMainChainHeight == High(State(), anchor)
      modifies this`byHeight, this`byHash, this`pool, this`tip
      ensures ok <==> ForkPoint(old(State()), fork.hash).Some?
      ensures ok ==> State() == Promote(old(State()), fork, ForkPoint(old(State()), fork.hash).value)
    {
      ghost var c := State();
      if lastMainChainHeight > fork.height {
        TrimStart(c, anchor, fork, lastMainChainHeight);
        var trimmed := TrimMainChain(fork, lastMainChainHeight, c);
        if !trimmed {
          return false;
        }
        WalkAfterTrim(State(), c, anchor, fork, lastMainChainHeight);
      } else {
        WalkAtOnce(c, anchor, fork);
      }
      ok := WalkFork(fork, c);
      if ok {
        tip := fork.hash;
      }
    }

    /** The removal loop over main-chain blocks above the fork tip. */
    method TrimMainChain(fork: ExtendedHeader, last: int, ghost c: Chain) returns (ok: bool)
      requires Trimming(State(), c, anchor, fork, last, fork.height + 1) && fork.height < last
      modifies this`byHeight, this`byHash, this`pool
      ensures !ok ==> ForkPoint(c, fork.hash).None?
      ensures ok ==> Trimming(State(), c, anchor, fork, last, last + 1)
    {
      var height := fork.height + 1;
      while height != last + 1
        invariant height <= last + 1
        invariant Trimming(State(), c, anchor, fork, last, height)
        decreases last + 1 - height
      {
        if height !in byHeight {
          TrimFails(State(), c, anchor, fork, last, height);
          return false;
        }
        TrimRound(State(), c, anchor, fork, last, height);
        RemoveBlockHeader(byHeight[height]);
        byHeight := byHeight - {height};
        height := height + 1;
      }
      return true;
    }

    /** The cursor loop from the fork tip down to the first main-chain block. A fork block takes its
        height, and the main-chain block that occupied it, if any, leaves the maps. */
    method WalkFork(fork: ExtendedHeader, ghost c: Chain) returns (ok: bool)
      requires Walking(State(), c, anchor, fork, fork)
      modifies this`byHeight, this`byHash, this`pool
      ensures ok <==> ForkPoint(c, fork.hash).Some?
      ensures ok ==> State() == HandedOver(c, fork, ForkPoint(c, fork.hash).value)
    {
      var cursor := fork;
      while cursor.hash !in byHash
        invariant Walking(State(), c, anchor, fork, cursor)
        decreases cursor.hash
      {
        ghost var s := State();
        var prevHash := cursor.header.prev;
        var occupied := cursor.height in byHeight;
        var mainChainBlock := if occupied then byHeight[cursor.height] else cursor.hash;
        byHeight := byHeight[cursor.height := cursor.hash];
        byHash := byHash[cursor.hash := cursor.height];
        if occupied {
          RemoveBlockHeader(mainChainBlock);
        }
        WalkRound(s, State(), c, anchor, fork, cursor);
        if prevHash !in pool {
          return false;
        }
        cursor := pool[prevHash];
      }
      WalkStops(State(), c, anchor, fork, cursor);
      return true;
    }

    // ---- submission ----

    /** Places a checked header: on the tip, as a fork, or as the new tip. */
    method SubmitBlockHeaderInner(current: ExtendedHeader, prev: ExtendedHeader) returns (ok: bool)
      requires Staged(State(), anchor, current) && prev.hash == current.header.prev
      modifies this`byHeight, this`byHash, this`pool, this`tip
      ensures ok <==> Place(old(State()), current).Some?
      ensures ok ==> State() == Place(old(State()), current).value
    {
      if prev.hash == tip {
        if tip != current.header.prev {
          return false;
        }
        StoreBlockHeader(current);
        tip := current.hash;
        return true;
      }
      ForkStaged(State(), anchor, current);
      if tip !in pool {
        return false;
      }
      var tipHeader := pool[tip];
      StoreForkHeader(current);
      if tipHeader.work.Less(current.work) {
        ok := ReorgChain(current, tipHeader.height);
      } else {
        ok := true;
      }
    }

    /** The record of a header on its stored parent. */
    method Record(h: Header, prev: ExtendedHeader) returns (e: Option<ExtendedHeader>)
      ensures e == EntryFor(h, prev)
    {
      var blockWork := WorkFromBits(h.bits);
      var work, overflow := OverflowingAdd(prev.work, blockWork);
      if overflow || prev.height + 1 >= TWO64 {
        return None;
      }
      ValFaithful(work, FromNat(prev.work.Val() + WorkOfBits(h.bits)));
      return Some(ExtendedHeader(h, BlockHash(h), work, prev.height + 1));
    }

    /** The target and proof-of-work checks. */
    method Verify(s: Submission, prev: ExtendedHeader) returns (ok: bool)
      requires Stored(State(), anchor, prev)
      ensures ok == Verified(rules, State(), s, prev)
    {
      ok := CheckPow(rules.coin, rules.network, State(), s.header, prev, s.now, s.solutionOk, anchor);
      if ok {
        if rules.coin.Dogecoin? && s.aux.Some? {
          ok := CheckAux(s.header, s.aux.value, rules.skipPow, rules.hex);
        } else {
          var target := TargetFromBits(s.header.bits);
          ValFaithful(target, s.powHash);
          ok := !target.Less(s.powHash);
        }
      }
    }

    /** One header: fails exactly when the specification does, and otherwise commits its result. */
    method SubmitBlockHeader(s: Submission, skip: bool) returns (ok: bool)
      requires Valid()
      modifies this`byHeight, this`byHash, this`pool, this`tip, this`log
      ensures ok <==> SubmitOne(rules, old(TheWorld()), s, skip).Some?
      ensures ok ==> TheWorld() == SubmitOne(rules, old(TheWorld()), s, skip).value && Valid()
    {
      ghost var w := TheWorld();
      if s.header.prev !in pool {
        return false;
      }
      var prev := pool[s.header.prev];
      ParentStored(w, anchor, s.header.prev);
      var current := Record(s.header, prev);
      if current.None? {
        return false;
      }
      EntryStaged(w, anchor, s.header);
      if !skip {
        var verified := Verify(s, prev);
        if !verified {
          return false;
        }
      }
      ok := SubmitBlockHeaderInner(current.value, prev);
      if ok {
        log := log + [current.value.hash];
        SubmitStep(rules, w, anchor, s, skip);
      }
    }

    /** The loop over the headers of a batch. */
    method SubmitEach(headers: seq<Submission>, skip: bool) returns (ok: bool)
      requires Valid()
      modifies this`byHeight, this`byHash, this`pool, this`tip, this`log
      ensures ok <==> SubmitAll(rules, old(TheWorld()), headers, skip).Some?
      ensures ok ==> TheWorld() == SubmitAll(rules, old(TheWorld()), headers, skip).value && Valid()
    {
      ghost var start := TheWorld();
      BatchStart(rules, start, anchor, headers, skip);
      var i := 0;
      while i != |headers|
        invariant i <= |headers|
        invariant Submitting(rules, TheWorld(), start, anchor, headers, skip, i)
        decreases |headers| - i
      {
        BatchRound(rules, TheWorld(), start, anchor, headers, skip, i);
        ok := SubmitBlockHeader(headers[i], skip);
        if !ok {
          return;
        }
        i := i + 1;
      }
      BatchEnd(rules, TheWorld(), start, anchor, headers, skip);
      return true;
    }

    // ---- garbage collection ----

    /** Removes the oldest main-chain blocks and moves the initial block up. */
    method CollectGarbage(batch: nat) returns (ok: bool)
      requires Valid()
      modifies this`byHeight, this`byHash, this`pool, this`initial
      ensures ok <==> Collect(rules, old(TheWorld()), batch).Some?
      ensures ok ==> TheWorld() == Collect(rules, old(TheWorld()), batch).value && Valid()
    {
      ghost var w := TheWorld();
      CollectStart(w, anchor);
      if initial !in pool || tip !in pool {
        return false;
      }
      var low := pool[initial].height;
      var size := pool[tip].height - low + 1;
      if size > rules.gcThreshold {
        var end := low + Min(size - rules.gcThreshold, batch);
        RemoveBelow(low, end, w.chain);
        CollectEnd(State(), w.chain, anchor, end);
        if end !in byHeight {
          return false;
        }
        initial := byHeight[end];
      }
      CollectStaysSound(rules, w, anchor, batch);
      return true;
    }

    /** The removal loop. */
    method RemoveBelow(low: int, end: int, ghost c: Chain)
      requires Collecting(State(), c, anchor, low) && low <= end <= High(c, anchor) + 1
      modifies this`byHeight, this`byHash, this`pool
      ensures Collecting(State(), c, anchor, end)
    {
      var height := low;
      while height != end
        invariant low <= height <= end
        invariant Collecting(State(), c, anchor, height)
        decreases end - height
      {
        CollectRound(State(), c, anchor, height);
        RemoveBlockHeader(byHeight[height]);
        byHeight := byHeight - {height};
        height := height + 1;
      }
    }

    // ---- entry points ----

    /** NEAR undoes the writes of a failed call. */
    method Revert(saved: Chain, ghost savedLog: seq<H256>)
      modifies this`byHeight, this`byHash, this`pool, this`tip, this`initial, this`log
      ensures TheWorld() == World(saved, savedLog)
    {
      byHeight, byHash, pool := saved.byHeight, saved.byHash, saved.pool;
      tip, initial := saved.tip, saved.initial;
      log := savedLog;
    }

    /** Either the whole batch and the collection after it commit, or nothing changes. */
    method SubmitBlocks(headers: seq<Submission>) returns (ok: bool)
      requires Valid()
      modifies this`byHeight, this`byHash, this`pool, this`tip, this`initial, this`log
      ensures ok <==> Call(rules, old(TheWorld()), Event.SubmitBlocks(headers)).Some?
      ensures TheWorld() == Next(rules, old(TheWorld()), Event.SubmitBlocks(headers))
      ensures Valid()
    {
      var saved := State();
      ghost var savedLog := log;
      ok := SubmitEach(headers, rules.skipPow);
      if ok {
        ok := CollectGarbage(|headers|);
      }
      if !ok {
        Revert(saved, savedLog);
      }
    }

    method RunMainchainGc(batch: nat) returns (ok: bool)
      requires Valid()
      modifies this`byHeight, this`byHash, this`pool, this`initial, this`tip, this`log
      ensures ok <==> Call(rules, old(TheWorld()), Event.RunMainchainGc(batch)).Some?
      ensures TheWorld() == Next(rules, old(TheWorld()), Event.RunMainchainGc(batch))
      ensures Valid()
    {
      var saved := State();
      ghost var savedLog := log;
      ok := CollectGarbage(batch);
      if !ok {
        Revert(saved, savedLog);
      }
    }

    /** Initialisation of a new contract; on failure there is no contract. */
    method InitGenesis(blockHash: H256, height: nat, blocks: seq<Header>) returns (ok: bool)
      requires byHeight == map[] && byHash == map[] && pool == map[]
      modifies this
      ensures ok <==> Init(rules, blockHash, height, blocks).Some?
      ensures ok ==> TheWorld() == Init(rules, blockHash, height, blocks).value && Valid()
      ensures ok ==> anchor == Anchor(blockHash, height)
    {
      if !InitArgsOk(rules, height, |blocks|) {
        return false;
      }
      var first := blocks[0];
      var firstHash := BlockHash(first);
      if firstHash != blockHash {
        return false;
      }
      var work := WorkFromBits(first.bits);
      StoreBlockHeader(ExtendedHeader(first, firstHash, work, height));
      initial := firstHash;
      tip := firstHash;
      anchor, log := Anchor(blockHash, height), [blockHash];
      GenesisSound(first, height);
      ok := SubmitEach(InitSubmissions(blocks), true);
    }

    // ---- views ----

    method GetLastNBlocksHashes(skip: nat, limit: nat) returns (hashes: Option<seq<H256>>)
      ensures hashes == RecentHashes(State(), skip, limit)
    {
      if tip !in pool || initial !in pool || limit + skip > pool[tip].height {
        return None;
      }
      var c, high := State(), pool[tip].height;
      var start := Max(pool[initial].height, high - limit - skip + 1);
      var blockHashes: seq<H256> := [];
      var height := start;
      while height <= high - skip
        invariant blockHashes + MainRange(c, height, high - skip) == MainRange(c, start, high - skip)
        decreases high - skip - height + 1
      {
        if height in byHeight {
          blockHashes := blockHashes + [byHeight[height]];
        }
        height := height + 1;
      }
      assert blockHashes + [] == blockHashes;
      return Some(blockHashes);
    }

    method VerifyTransactionInclusion(args: ProofArgs) returns (included: Option<bool>)
      ensures included == VerifyInclusion(State(), rules.gcThreshold, args)
    {
      if args.confirmations > rules.gcThreshold || tip !in pool || args.blockHash !in byHash {
        return None;
      }
      if Max(pool[tip].height - byHash[args.blockHash], 0) + 1 < args.confirmations {
        return None;
      }
      if args.blockHash !in pool || args.merkleProof == [] || args.txIndex >= USIZE {
        return None;
      }
      var root := ComputeRootFromMerkleProof(args.txId, args.txIndex, args.merkleProof);
      return Some(root == pool[args.blockHash].header.merkleRoot);
    }

    method VerifyTransactionInclusionV2(args: ProofArgsV2) returns (included: Option<bool>)
      ensures included == VerifyInclusionV2(State(), rules.gcThreshold, args)
    {
      if |args.base.merkleProof| != |args.coinbaseMerkleProof| || args.base.blockHash !in pool {
        return None;
      }
      var root := ComputeRootFromMerkleProof(args.coinbaseTxId, 0, args.coinbaseMerkleProof);
      if root != pool[args.base.blockHash].header.merkleRoot {
        return None;
      }
      included := VerifyTransactionInclusion(args.base);
    }
  }
}
