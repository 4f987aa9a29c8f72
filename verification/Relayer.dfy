/** The relayer's search for the last block on which the contract and its node agree, and the blocks
    it fetches next (`relayer/src/main.rs`), over a fixed snapshot of both chains. */
module Relayer {
  import opened Arith
  import opened Hashing
  import opened ChainState
  import opened Pruning
  import opened Queries
  import opened ForkChoice
  import opened Runs
  import opened CallSteps

  // ---- the search ----

  /** Contract and node hold the same block at height `h`. A height the node has no header for is a
      failed request. */
  predicate Agree(c: Chain, node: map<int, Header>, h: int) {
    h in c.byHeight && h in node && BlockHash(node[h]) == c.byHeight[h]
  }

  /** The search looks at the tip, and, if the view answers, at `maxForkLen` heights below it. */
  ghost predicate InWindow(c: Chain, a: Anchor, maxForkLen: nat, h: int) {
    h == High(c, a) || (maxForkLen < High(c, a) && High(c, a) - maxForkLen <= h < High(c, a))
  }

  /** Every height from `h + 1` to the tip was answered, and differs. */
  ghost predicate DifferAbove(c: Chain, a: Anchor, node: map<int, Header>, h: int) {
    forall g :: h < g <= High(c, a) ==> g in node && !Agree(c, node, g)
  }

  /** `h` is the greatest height of the window on which both agree. */
  ghost predicate LastCorrect(c: Chain, a: Anchor, node: map<int, Header>, maxForkLen: nat, h: int) {
    InWindow(c, a, maxForkLen, h) && Agree(c, node, h) && DifferAbove(c, a, node, h)
  }

  /** Returns the last correct height whenever there is one, and otherwise fails. */
  method GetLastCorrectBlockHeight(c: Chain, node: map<int, Header>, maxForkLen: nat, ghost a: Anchor)
    returns (r: Option<int>)
    requires Inv(c, a)
    ensures forall h :: r == Some(h) <==> LastCorrect(c, a, node, maxForkLen, h)
  {
    var last := c.pool[c.tip];
    var high := last.height;
    assert high == High(c, a) && high in c.byHeight && c.byHeight[high] == last.hash;
    if high !in node {
      return None;
    }
    if BlockHash(node[high]) == last.hash {
      return Some(high);
    }
    var hashes := RecentHashes(c, 1, maxForkLen);
    RecentHashesAreLinked(c, a, 1, maxForkLen);
    if hashes.None? {
      return None;
    }
    var count := |hashes.value|;
    var height := high - 1;
    for i := 0 to count
      invariant height == high - 1 - i
      invariant DifferAbove(c, a, node, height)
    {
      assert height in c.byHeight && hashes.value[count - i - 1] == c.byHeight[height];
      if height !in node {
        return None;
      }
      if hashes.value[count - i - 1] == BlockHash(node[height]) {
        return Some(height);
      }
      height := height - 1;
    }
    return None;
  }

  // ---- agreement is downward closed ----

  ghost predicate NodeLinked(node: map<int, Header>) {
    forall h :: h in node && h - 1 in node ==> node[h].prev == BlockHash(node[h - 1])
  }

  ghost predicate NodeCovers(node: map<int, Header>, from: int, upto: int) {
    forall h :: from <= h <= upto ==> h in node
  }

  /** The block below a main-chain block is its parent. */
  lemma ParentBelow(c: Chain, a: Anchor, h: int)
    requires Inv(c, a) && h in c.byHeight && h - 1 in c.byHeight
    ensures c.byHeight[h].OfHeader? && c.byHeight[h - 1] == c.byHeight[h].header.prev
    ensures c.byHeight[h - 1] in c.pool
  {
    DescendsLinks(c.initial, a.genesis);
    AncestorLinks(c.tip, High(c, a) - h);
    AncestorAdd(c.tip, High(c, a) - h, 1);
    assert Ancestor(c.byHeight[h], 1) == c.byHeight[h].header.prev;
  }

  lemma {:induction false} AgreementBelow(c: Chain, a: Anchor, node: map<int, Header>, h: int, g: int)
    requires Inv(c, a) && NodeLinked(node) && NodeCovers(node, g, h)
    requires Agree(c, node, h) && Low(c, a) <= g <= h
    ensures Agree(c, node, g)
    decreases h - g
  {
    if g < h {
      ParentBelow(c, a, h);
      AgreementBelow(c, a, node, h - 1, g);
    }
  }

  /** The height found separates the stored main chain: everything up to it agrees with the node
      by hash linking, everything above differs. */
  lemma SearchSeparates(c: Chain, a: Anchor, node: map<int, Header>, maxForkLen: nat, h: int, g: int)
    requires Inv(c, a) && NodeLinked(node) && NodeCovers(node, Low(c, a), High(c, a))
    requires LastCorrect(c, a, node, maxForkLen, h) && Low(c, a) <= g <= High(c, a)
    ensures Agree(c, node, g) <==> g <= h
  {
    if g <= h {
      AgreementBelow(c, a, node, h, g);
    }
  }

  /** The search succeeds exactly when some height of its window agrees. */
  lemma SearchSucceedsIff(c: Chain, a: Anchor, node: map<int, Header>, maxForkLen: nat)
    requires Inv(c, a) && NodeCovers(node, Low(c, a), High(c, a))
    ensures (exists h :: LastCorrect(c, a, node, maxForkLen, h))
            <==> exists g :: InWindow(c, a, maxForkLen, g) && Agree(c, node, g)
  {
    forall g | InWindow(c, a, maxForkLen, g) && Agree(c, node, g)
      ensures exists h :: LastCorrect(c, a, node, maxForkLen, h)
    {
      var h := GreatestAgreement(c, a, node, g, High(c, a));
      assert LastCorrect(c, a, node, maxForkLen, h);
    }
  }

  lemma {:induction false} GreatestAgreement(c: Chain, a: Anchor, node: map<int, Header>, g: int, top: int)
    returns (h: int)
    requires Inv(c, a) && NodeCovers(node, Low(c, a), High(c, a))
    requires g <= top <= High(c, a) && Agree(c, node, g) && DifferAbove(c, a, node, top)
    ensures g <= h && Agree(c, node, h) && DifferAbove(c, a, node, h)
    decreases top - g
  {
    if Agree(c, node, top) {
      h := top;
    } else {
      h := GreatestAgreement(c, a, node, g, top - 1);
    }
  }

  // ---- fetching ----

  datatype Fetch = Fetched(header: Header) | RequestFailed | TaskFailed

  /** The first `n` blocks from height `start` were fetched, and are `blocks`. */
  ghost predicate FetchedRun(fetch: int -> Fetch, start: int, blocks: seq<(int, Header)>, n: nat) {
    && n <= |blocks|
    && forall i :: 0 <= i < n ==> fetch(start + i) == Fetched(blocks[i].1) && blocks[i].0 == start + i
  }

  /** Returns the gap-free run of blocks before the first failure of either kind. Blocks arrive in
      height order, so the sort after the loop has nothing to move. */
  method FetchBlocksToSubmit(fetch: int -> Fetch, start: int, end: int) returns (blocks: seq<(int, Header)>)
    ensures FetchedRun(fetch, start, blocks, |blocks|)
    ensures |blocks| <= Max(0, end - start + 1)
    ensures |blocks| < end - start + 1 ==> !fetch(start + |blocks|).Fetched?
  {
    blocks := [];
    var minFailed: Option<int> := None;
    var height := start;
    while height <= end
      invariant start <= height <= Max(start, end + 1)
      invariant forall i, j :: 0 <= i < j < |blocks| ==> blocks[i].0 < blocks[j].0
      invariant forall i :: 0 <= i < |blocks| ==> blocks[i].0 < height
      invariant match minFailed
                case None => |blocks| == height - start && FetchedRun(fetch, start, blocks, |blocks|)
                case Some(m) =>
                  && start <= m < height && !fetch(m).Fetched?
                  && FetchedRun(fetch, start, blocks, m - start)
                  && forall i :: m - start <= i < |blocks| ==> blocks[i].0 > m
      decreases end - height
    {
      match fetch(height) {
        case Fetched(header) =>
          blocks := blocks + [(height, header)];
        case RequestFailed =>
          minFailed := Some(if minFailed.None? then height else Min(minFailed.value, height));
        case TaskFailed =>
          break;
      }
      height := height + 1;
    }
    if minFailed.Some? {
      blocks := RetainBelow(blocks, minFailed.value, minFailed.value - start);
    }
  }

  method RetainBelow(blocks: seq<(int, Header)>, limit: int, ghost n: nat) returns (kept: seq<(int, Header)>)
    requires n <= |blocks|
    requires forall i :: 0 <= i < |blocks| ==> (blocks[i].0 < limit <==> i < n)
    ensures kept == blocks[..n]
  {
    kept := [];
    for i := 0 to |blocks|
      invariant kept == blocks[..Min(i, n)]
    {
      if blocks[i].0 < limit {
        kept := kept + [blocks[i]];
      }
    }
  }

  // ---- submitting what was fetched ----

  /** Each header is the child of the one before, the first one of `parent`. */
  ghost predicate Consecutive(ss: seq<Submission>, parent: H256) {
    forall i: nat :: i < |ss| ==> Follows(ss, parent, i)
  }

  predicate Follows(ss: seq<Submission>, parent: H256, i: nat)
    requires i < |ss|
  {
    ss[i].header.prev == if i == 0 then parent else BlockHash(ss[i - 1].header)
  }

  lemma ConsecutiveTail(ss: seq<Submission>, parent: H256)
    requires Consecutive(ss, parent) && ss != []
    ensures ss[0].header.prev == parent && Consecutive(ss[1..], BlockHash(ss[0].header))
    ensures LastOf(ss[1..], BlockHash(ss[0].header)) == LastOf(ss, parent)
  {
    assert Follows(ss, parent, 0);
    forall i: nat | i < |ss| - 1 ensures Follows(ss[1..], BlockHash(ss[0].header), i) {
      assert Follows(ss, parent, i + 1);
    }
  }

  /** One round on a snapshot: the blocks fetched after the height found, submitted with whatever
      else the checks read, form a connected run on a stored main-chain block. */
  lemma FetchedRunConnects(c: Chain, a: Anchor, node: map<int, Header>, maxForkLen: nat, h: int,
                           fetch: int -> Fetch, blocks: seq<(int, Header)>, ss: seq<Submission>)
    requires Inv(c, a) && NodeLinked(node) && LastCorrect(c, a, node, maxForkLen, h)
    requires forall g :: fetch(g).Fetched? ==> g in node && fetch(g).header == node[g]
    requires FetchedRun(fetch, h + 1, blocks, |blocks|)
    requires |ss| == |blocks| && forall i :: 0 <= i < |ss| ==> ss[i].header == blocks[i].1
    ensures c.byHeight[h] in c.pool && Consecutive(ss, c.byHeight[h])
  {
    NodeRunConnects(node, h, fetch, blocks, ss);
  }

  lemma NodeRunConnects(node: map<int, Header>, h: int, fetch: int -> Fetch, blocks: seq<(int, Header)>, ss: seq<Submission>)
    requires NodeLinked(node) && h in node
    requires forall g :: fetch(g).Fetched? ==> g in node && fetch(g).header == node[g]
    requires FetchedRun(fetch, h + 1, blocks, |blocks|)
    requires |ss| == |blocks| && forall i :: 0 <= i < |ss| ==> ss[i].header == blocks[i].1
    ensures Consecutive(ss, BlockHash(node[h]))
  {
    forall i: nat | i < |ss| ensures Follows(ss, BlockHash(node[h]), i) {
      HoldsRun(node, h + 1, fetch, blocks, i);
      if i > 0 {
        HoldsRun(node, h + 1, fetch, blocks, i - 1);
      }
    }
  }

  lemma HoldsRun(node: map<int, Header>, start: int, fetch: int -> Fetch, blocks: seq<(int, Header)>, i: nat)
    requires FetchedRun(fetch, start, blocks, |blocks|) && i < |blocks|
    requires forall g :: fetch(g).Fetched? ==> g in node && fetch(g).header == node[g]
    ensures Holds(node, start + i, blocks[i].1)
  {
    assert fetch(start + i) == Fetched(blocks[i].1);
  }

  predicate Holds(node: map<int, Header>, h: int, header: Header) { h in node && node[h] == header }

  /** Submitting a connected run on a stored parent never fails for want of a parent: after any
      number of accepted headers, reorganisations included, the next one's parent is stored. */
  lemma {:induction false} ParentAlwaysStored(r: Rules, w: World, a: Anchor, ss: seq<Submission>, parent: H256, skip: bool, i: nat)
    requires Sound(w, a) && Consecutive(ss, parent) && parent in w.chain.pool
    requires i < |ss| && SubmitAll(r, w, ss[..i], skip).Some?
    ensures ss[i].header.prev in SubmitAll(r, w, ss[..i], skip).value.chain.pool
    decreases i
  {
    ConsecutiveTail(ss, parent);
    if i > 0 {
      assert ss[..i][1..] == ss[1..][..i - 1];
      SubmitStep(r, w, a, ss[0], skip);
      ParentAlwaysStored(r, SubmitOne(r, w, ss[0], skip).value, a, ss[1..], BlockHash(ss[0].header), skip, i - 1);
    }
  }

  function LastOf(ss: seq<Submission>, parent: H256): H256 {
    if ss == [] then parent else BlockHash(ss[|ss| - 1].header)
  }

  /** The tip after an accepted connected run is the run's last block if that is heavier than the
      old tip, and otherwise the old tip. */
  lemma {:induction false} RunMovesTip(r: Rules, w: World, a: Anchor, ss: seq<Submission>, parent: H256, skip: bool)
    requires Sound(w, a) && Consecutive(ss, parent) && parent in w.chain.pool && SubmitAll(r, w, ss, skip).Some?
    ensures var last := LastOf(ss, parent);
            && (ss != [] ==> WorkOf(last, a.genesis) > WorkOf(parent, a.genesis))
            && SubmitAll(r, w, ss, skip).value.chain.tip
               == if WorkOf(last, a.genesis) > WorkOf(w.chain.tip, a.genesis) then last else w.chain.tip
    decreases |ss|
  {
    if ss == [] {
      StoredNotHeavier(w, a, parent);
    } else {
      ConsecutiveTail(ss, parent);
      SubmitStep(r, w, a, ss[0], skip);
      RunMovesTip(r, SubmitOne(r, w, ss[0], skip).value, a, ss[1..], BlockHash(ss[0].header), skip);
    }
  }

  // ---- several batches, with a collection after each ----

  /** Heights along a connected run. */
  lemma {:induction false} RunLinks(ss: seq<Submission>, parent: H256, i: nat)
    requires Consecutive(ss, parent) && i < |ss|
    ensures Links(BlockHash(ss[i].header)) == Links(parent) + i + 1
    decreases i
  {
    ConsecutiveTail(ss, parent);
    if i > 0 {
      assert ss[1..][i - 1] == ss[i];
      RunLinks(ss[1..], BlockHash(ss[0].header), i - 1);
    }
  }

  /** The blocks fetched after the height found are off the contract's main chain. */
  lemma FetchedRunOffMain(c: Chain, a: Anchor, node: map<int, Header>, maxForkLen: nat, h: int,
                          fetch: int -> Fetch, blocks: seq<(int, Header)>, ss: seq<Submission>, i: nat)
    requires Inv(c, a) && NodeLinked(node) && LastCorrect(c, a, node, maxForkLen, h)
    requires forall g :: fetch(g).Fetched? ==> g in node && fetch(g).header == node[g]
    requires FetchedRun(fetch, h + 1, blocks, |blocks|)
    requires |ss| == |blocks| && forall j :: 0 <= j < |ss| ==> ss[j].header == blocks[j].1
    requires i < |ss|
    ensures BlockHash(ss[i].header) !in c.byHash
  {
    var k := BlockHash(ss[i].header);
    FetchedRunConnects(c, a, node, maxForkLen, h, fetch, blocks, ss);
    RunLinks(ss, c.byHeight[h], i);
    HoldsRun(node, h + 1, fetch, blocks, i);
    if k in c.byHash {
      MainHeight(c, a, k);
      MainHeight(c, a, c.byHeight[h]);
    }
  }

  lemma {:induction false} RunStoresLast(r: Rules, w: World, a: Anchor, ss: seq<Submission>, parent: H256, skip: bool)
    requires Sound(w, a) && Consecutive(ss, parent) && ss != [] && SubmitAll(r, w, ss, skip).Some?
    ensures Sound(SubmitAll(r, w, ss, skip).value, a)
    ensures LastOf(ss, parent) in SubmitAll(r, w, ss, skip).value.chain.pool
    ensures SubmitAll(r, w, ss, skip).value.chain.initial == w.chain.initial
    decreases |ss|
  {
    ConsecutiveTail(ss, parent);
    SubmitStep(r, w, a, ss[0], skip);
    SubmitKeepsInitial(r, w, a, ss[0], skip);
    if |ss| > 1 {
      RunStoresLast(r, SubmitOne(r, w, ss[0], skip).value, a, ss[1..], BlockHash(ss[0].header), skip);
    }
  }

  /** The main chain is determined by its two ends. */
  lemma SameEndsSameMain(c: Chain, d: Chain, a: Anchor, k: H256)
    requires Inv(c, a) && Inv(d, a) && c.tip == d.tip && c.initial == d.initial && k in c.byHash
    ensures k in d.byHash
  {
    var h := c.byHash[k];
    assert c.byHeight[h] == k && h in d.byHeight && d.byHeight[h] == k;
  }

  /** After the loop of a batch, off-chain headers are off the main chain still, unless they are at
      most as high as a new tip. */
  lemma RunMain(r: Rules, w: World, a: Anchor, ss: seq<Submission>, parent: H256, skip: bool, x: H256)
    requires Sound(w, a) && Consecutive(ss, parent) && ss != [] && parent in w.chain.pool
    requires SubmitAll(r, w, ss, skip).Some? && x !in w.chain.byHash
    ensures var w', last := SubmitAll(r, w, ss, skip).value, LastOf(ss, parent);
            x in w'.chain.byHash ==> w'.chain.tip == last && Links(x) <= Links(last)
  {
    var w' := SubmitAll(r, w, ss, skip).value;
    RunMovesTip(r, w, a, ss, parent, skip);
    RunStoresLast(r, w, a, ss, parent, skip);
    SoundIsGood(w, a);
    SoundIsGood(w', a);
    if x in w'.chain.byHash {
      if w'.chain.tip == w.chain.tip {
        SameEndsSameMain(w'.chain, w.chain, a, x);
      } else {
        MainHeight(w'.chain, a, x);
      }
    }
  }

  lemma CollectSpares(r: Rules, w: World, a: Anchor, batch: nat, k: H256)
    requires Sound(w, a) && Collect(r, w, batch).Some?
    ensures Sound(Collect(r, w, batch).value, a)
    ensures k in w.chain.pool && (k == w.chain.tip || k !in w.chain.byHash) ==> k in Collect(r, w, batch).value.chain.pool
    ensures k in Collect(r, w, batch).value.chain.byHash ==> k in w.chain.byHash
  {
    CollectStaysSound(r, w, a, batch);
    SoundIsGood(w, a);
    if k in w.chain.pool {
      GcSpares(w.chain, a, r.gcThreshold, batch, k);
    }
  }

  /** One successful call with a connected batch whose last header was off the main chain leaves that
      header stored, collection included, and later headers that were off the main chain off it. */
  lemma BatchLeavesParent(r: Rules, w: World, a: Anchor, ss: seq<Submission>, parent: H256, x: H256)
    requires Sound(w, a) && Consecutive(ss, parent) && ss != [] && parent in w.chain.pool
    requires LastOf(ss, parent) !in w.chain.byHash && x !in w.chain.byHash && Links(x) > Links(LastOf(ss, parent))
    requires Call(r, w, SubmitBlocks(ss)).Some?
    ensures var w' := Call(r, w, SubmitBlocks(ss)).value;
            Sound(w', a) && LastOf(ss, parent) in w'.chain.pool && x !in w'.chain.byHash
  {
    var w1, last := SubmitAll(r, w, ss, r.skipPow).value, LastOf(ss, parent);
    RunStoresLast(r, w, a, ss, parent, r.skipPow);
    RunMain(r, w, a, ss, parent, r.skipPow, last);
    RunMain(r, w, a, ss, parent, r.skipPow, x);
    CollectSpares(r, w1, a, |ss|, last);
    CollectSpares(r, w1, a, |ss|, x);
  }

  /** Non-empty batches that continue one another. */
  ghost predicate BatchesConnect(batches: seq<seq<Submission>>, parent: H256) {
    batches == []
    || (batches[0] != [] && Consecutive(batches[0], parent)
        && BatchesConnect(batches[1..], LastOf(batches[0], parent)))
  }

  ghost predicate OffMain(c: Chain, batches: seq<seq<Submission>>) {
    forall b, s :: b in batches && s in b ==> BlockHash(s.header) !in c.byHash
  }

  /** As long as the calls succeed, the parent of every batch is stored when the batch is submitted. */
  ghost predicate ParentsStored(r: Rules, w: World, batches: seq<seq<Submission>>, parent: H256)
    decreases |batches|
  {
    && parent in w.chain.pool
    && (batches != [] && Call(r, w, SubmitBlocks(batches[0])).Some? ==>
          ParentsStored(r, Call(r, w, SubmitBlocks(batches[0])).value, batches[1..], LastOf(batches[0], parent)))
  }

  lemma {:induction false} LaterLinks(batches: seq<seq<Submission>>, parent: H256, b: seq<Submission>, s: Submission)
    requires BatchesConnect(batches, parent) && b in batches && s in b
    ensures Links(BlockHash(s.header)) > Links(parent)
    decreases |batches|
  {
    var first := batches[0];
    if b == first {
      var i :| 0 <= i < |first| && first[i] == s;
      RunLinks(first, parent, i);
    } else {
      RunLinks(first, parent, |first| - 1);
      LaterLinks(batches[1..], LastOf(first, parent), b, s);
    }
  }

  /** A connected run of headers off the main chain, submitted in any number of batches with a
      collection after each, never lacks a parent at the start of a batch. */
  lemma {:induction false} BatchesNeverLackParent(r: Rules, w: World, a: Anchor, batches: seq<seq<Submission>>, parent: H256)
    requires Sound(w, a) && parent in w.chain.pool && BatchesConnect(batches, parent) && OffMain(w.chain, batches)
    ensures ParentsStored(r, w, batches, parent)
    decreases |batches|
  {
    if batches != [] && Call(r, w, SubmitBlocks(batches[0])).Some? {
      var first, last := batches[0], LastOf(batches[0], parent);
      var w' := Call(r, w, SubmitBlocks(first)).value;
      assert first in batches && first[|first| - 1] in first;
      FirstBatch(r, w, a, first, parent);
      forall b, s | b in batches[1..] && s in b ensures BlockHash(s.header) !in w'.chain.byHash {
        assert b in batches;
        LaterLinks(batches[1..], last, b, s);
        BatchLeavesParent(r, w, a, first, parent, BlockHash(s.header));
      }
      BatchesNeverLackParent(r, w', a, batches[1..], last);
    }
  }

  lemma FirstBatch(r: Rules, w: World, a: Anchor, ss: seq<Submission>, parent: H256)
    requires Sound(w, a) && Consecutive(ss, parent) && ss != [] && parent in w.chain.pool
    requires LastOf(ss, parent) !in w.chain.byHash && Call(r, w, SubmitBlocks(ss)).Some?
    ensures var w' := Call(r, w, SubmitBlocks(ss)).value;
            Sound(w', a) && LastOf(ss, parent) in w'.chain.pool
  {
    RunStoresLast(r, w, a, ss, parent, r.skipPow);
    RunMain(r, w, a, ss, parent, r.skipPow, LastOf(ss, parent));
    CollectSpares(r, SubmitAll(r, w, ss, r.skipPow).value, a, |ss|, LastOf(ss, parent));
  }
}
