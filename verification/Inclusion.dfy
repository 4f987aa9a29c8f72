/** Transaction inclusion (`verify_transaction_inclusion` and its second version in
    `contract/src/lib.rs`): exactly which arguments are accepted. */
module Inclusion {
  import opened Arith
  import opened Hashing
  import opened ChainState
  import opened Merkle
  import opened Forgery

  datatype ProofArgs = ProofArgs(
    txId: H256,
    blockHash: H256,
    txIndex: nat,
    merkleProof: seq<H256>,
    confirmations: nat)

  /** The second version adds a proof of the coinbase transaction. */
  datatype ProofArgsV2 = ProofArgsV2(base: ProofArgs, coinbaseTxId: H256, coinbaseMerkleProof: seq<H256>)

  const USIZE: nat := WORD  // the contract is compiled for 32-bit wasm

  /** `None` is a panic. */
  function VerifyInclusion(c: Chain, threshold: nat, args: ProofArgs): Option<bool> {
    if args.confirmations > threshold || c.tip !in c.pool || args.blockHash !in c.byHash then None
    else if Max(c.pool[c.tip].height - c.byHash[args.blockHash], 0) + 1 < args.confirmations then None
    else if args.blockHash !in c.pool || args.merkleProof == [] || args.txIndex >= USIZE then None
    else Some(RootFrom(args.txId, args.txIndex, args.merkleProof) == c.pool[args.blockHash].header.merkleRoot)
  }

  function VerifyInclusionV2(c: Chain, threshold: nat, args: ProofArgsV2): Option<bool> {
    if |args.base.merkleProof| != |args.coinbaseMerkleProof| || args.base.blockHash !in c.pool then None
    else if RootFrom(args.coinbaseTxId, 0, args.coinbaseMerkleProof)
            != c.pool[args.base.blockHash].header.merkleRoot then None
    else VerifyInclusion(c, threshold, args.base)
  }

  // ---- confirmations ----

  /** `k` is the block `n` links behind the tip of the stored main chain. */
  ghost predicate Behind(c: Chain, a: Anchor, k: H256, n: nat) {
    n <= High(c, a) - Low(c, a) && Ancestor(c.tip, n) == k
  }

  /** At least `confirmations` linked headers lead from `k` to the tip, `k` included. */
  ghost predicate Confirmed(c: Chain, a: Anchor, k: H256, confirmations: nat) {
    exists n: nat :: n + 1 >= confirmations && Behind(c, a, k, n)
  }

  /** In a valid state the first version gives an answer exactly for confirmed blocks, and the
      answer is whether the proof leads to the block's Merkle root. */
  lemma AnswersWhenConfirmed(c: Chain, a: Anchor, threshold: nat, args: ProofArgs)
    requires Inv(c, a)
    ensures VerifyInclusion(c, threshold, args).Some?
            <==> args.confirmations <= threshold && args.merkleProof != [] && args.txIndex < USIZE
                 && Confirmed(c, a, args.blockHash, args.confirmations)
    ensures Confirmed(c, a, args.blockHash, args.confirmations) ==>
              args.blockHash in c.pool && args.blockHash == OfHeader(c.pool[args.blockHash].header)
  {
    var k, high := args.blockHash, High(c, a);
    if k in c.byHash {
      var h := c.byHash[k];
      assert c.byHeight[h] == k && Low(c, a) <= h <= high;
      assert Behind(c, a, k, high - h);
    }
    forall n: nat | Behind(c, a, k, n) ensures k in c.byHash && k in c.pool && c.byHash[k] == high - n {
      assert high - n in c.byHeight && c.byHeight[high - n] == k;
    }
  }

  /** A block with transactions `txs` that has the demanded confirmations. */
  ghost predicate Settled(c: Chain, a: Anchor, threshold: nat, txs: seq<H256>, block: H256, confirmations: nat) {
    && Inv(c, a) && txs != [] && confirmations <= threshold
    && block.OfHeader? && block.header.merkleRoot == MerkleRoot(txs)
    && Confirmed(c, a, block, confirmations)
  }

  // ---- the second version ----

  /** The id and proofs of transaction `i` of a block with transactions `txs`. */
  ghost predicate ProofsOf(txs: seq<H256>, i: nat, args: ProofArgsV2)
    requires i < |txs|
  {
    && args.base.txId == txs[i]
    && Some(args.base.merkleProof) == Proof(txs, i)
    && Some(args.coinbaseMerkleProof) == Proof(txs, 0)
  }

  /** With the true coinbase id and any claimed index, exactly the honest proofs of the transaction
      that the index stands for are accepted, in confirmed blocks; a block with a single transaction
      is always refused, since its proofs are empty. */
  lemma SecondVersionExact(c: Chain, a: Anchor, threshold: nat, txs: seq<H256>, args: ProofArgsV2)
    requires Inv(c, a) && |txs| > 0 && args.coinbaseTxId == txs[0]
    requires args.base.blockHash.OfHeader? && args.base.blockHash.header.merkleRoot == MerkleRoot(txs)
    ensures VerifyInclusionV2(c, threshold, args) == Some(true)
            <==> args.base.confirmations <= threshold && args.base.txIndex < USIZE && |txs| > 1
                 && Confirmed(c, a, args.base.blockHash, args.base.confirmations)
                 && ProofsOf(txs, LeafIndex(|txs|, args.base.txIndex), args)
  {
    var base := args.base;
    AnswersWhenConfirmed(c, a, threshold, base);
    ProofComplete(txs, 0);
    ProofComplete(txs, LeafIndex(|txs|, base.txIndex));
    if RootFrom(txs[0], 0, args.coinbaseMerkleProof) == MerkleRoot(txs) {
      FirstItemForcesDepth(txs, args.coinbaseMerkleProof);
      ProofSound(txs, txs[0], 0, args.coinbaseMerkleProof);
      if |base.merkleProof| == Depth(|txs|) {
        ProofSoundAnywhere(txs, base.txId, base.txIndex, base.merkleProof);
      }
    }
    assert |txs| > 1 <==> Depth(|txs|) > 0;
  }

  /** For an index of the block that is the transaction at the index. */
  lemma SecondVersionInRange(c: Chain, a: Anchor, threshold: nat, txs: seq<H256>, args: ProofArgsV2)
    requires Inv(c, a) && args.base.txIndex < |txs| && args.coinbaseTxId == txs[0]
    requires args.base.blockHash.OfHeader? && args.base.blockHash.header.merkleRoot == MerkleRoot(txs)
    ensures VerifyInclusionV2(c, threshold, args) == Some(true)
            <==> args.base.confirmations <= threshold && args.base.txIndex < USIZE && |txs| > 1
                 && Confirmed(c, a, args.base.blockHash, args.base.confirmations)
                 && ProofsOf(txs, args.base.txIndex, args)
  {
    SecondVersionExact(c, a, threshold, txs, args);
    LeafInRange(|txs|, args.base.txIndex);
  }

  /** Whatever index is claimed, an accepted id is a transaction of the block, the one that the index
      stands for. */
  lemma SecondVersionSound(c: Chain, a: Anchor, threshold: nat, txs: seq<H256>, args: ProofArgsV2)
    requires Inv(c, a) && |txs| > 0 && args.coinbaseTxId == txs[0]
    requires args.base.blockHash.OfHeader? && args.base.blockHash.header.merkleRoot == MerkleRoot(txs)
    requires VerifyInclusionV2(c, threshold, args) == Some(true)
    ensures args.base.txId in txs && args.base.txId == txs[LeafIndex(|txs|, args.base.txIndex)]
    ensures args.base.txIndex < |txs| ==> args.base.txId == txs[args.base.txIndex]
  {
    SecondVersionExact(c, a, threshold, txs, args);
    if args.base.txIndex < |txs| {
      LeafInRange(|txs|, args.base.txIndex);
    }
  }

  predicate SecondAccepts(c: Chain, threshold: nat, args: ProofArgsV2) {
    VerifyInclusionV2(c, threshold, args) == Some(true)
  }

  /** An index past the end of the block is accepted for some id, with the true coinbase id, if and
      only if the block has at least two transactions and such an index is representable. */
  lemma SecondVersionPastEndIff(c: Chain, a: Anchor, threshold: nat, txs: seq<H256>, block: H256, confirmations: nat)
    requires Settled(c, a, threshold, txs, block, confirmations)
    ensures (exists args: ProofArgsV2 ::
               && args.base.blockHash == block && args.base.confirmations == confirmations
               && args.coinbaseTxId == txs[0] && args.base.txIndex >= |txs|
               && SecondAccepts(c, threshold, args))
            <==> 1 < |txs| < USIZE
  {
    if 1 < |txs| < USIZE {
      var i := LeafIndex(|txs|, |txs|);
      ProofComplete(txs, 0);
      ProofComplete(txs, i);
      var args := ProofArgsV2(ProofArgs(txs[i], block, |txs|, Proof(txs, i).value, confirmations),
                              txs[0], Proof(txs, 0).value);
      SecondVersionExact(c, a, threshold, txs, args);
      assert SecondAccepts(c, threshold, args);
    }
    if args: ProofArgsV2 :|
      && args.base.blockHash == block && args.base.confirmations == confirmations
      && args.coinbaseTxId == txs[0] && args.base.txIndex >= |txs|
      && SecondAccepts(c, threshold, args) {
      SecondVersionExact(c, a, threshold, txs, args);
    }
  }

  // ---- the first version ----

  /** The deprecated version accepts `x` at position `i` of `block`. */
  predicate FirstAccepts(c: Chain, threshold: nat, block: H256, x: H256, i: nat, proof: seq<H256>, confirmations: nat) {
    VerifyInclusion(c, threshold, ProofArgs(x, block, i, proof, confirmations)) == Some(true)
  }

  lemma FirstAcceptsIff(c: Chain, a: Anchor, threshold: nat, txs: seq<H256>, block: H256,
                        x: H256, i: nat, proof: seq<H256>, confirmations: nat)
    requires Settled(c, a, threshold, txs, block, confirmations)
    ensures FirstAccepts(c, threshold, block, x, i, proof, confirmations)
            <==> proof != [] && i < USIZE && RootFrom(x, i, proof) == MerkleRoot(txs)
  {
    AnswersWhenConfirmed(c, a, threshold, ProofArgs(x, block, i, proof, confirmations));
  }

  /** For every claimed index and every proof length, the id accepted is the node of the block's
      Merkle term on the path of the index, and no other; an empty proof shows nothing. */
  lemma FirstVersionShows(c: Chain, a: Anchor, threshold: nat, txs: seq<H256>, block: H256,
                          x: H256, i: nat, k: nat, confirmations: nat)
    requires Settled(c, a, threshold, txs, block, confirmations)
    ensures (exists proof: seq<H256> ::
               |proof| == k && FirstAccepts(c, threshold, block, x, i, proof, confirmations))
            <==> 0 < k && i < USIZE && NodeAt(MerkleRoot(txs), i, k) == Some(x)
  {
    if proof: seq<H256> :| |proof| == k && FirstAccepts(c, threshold, block, x, i, proof, confirmations) {
      FirstAcceptsIff(c, a, threshold, txs, block, x, i, proof, confirmations);
      RootLeadsBack(x, i, proof);
    }
    if 0 < k && i < USIZE && NodeAt(MerkleRoot(txs), i, k) == Some(x) {
      var proof := ProofOfNode(MerkleRoot(txs), i, k);
      FirstAcceptsIff(c, a, threshold, txs, block, x, i, proof, confirmations);
    }
  }

  /** Some id other than the transaction at index `i` is accepted there with a proof of length `k`
      exactly when the term has another node at that place; at the first index, when `k` is not the
      depth of the tree and the left path of the root is that long. */
  lemma FirstVersionForgeable(c: Chain, a: Anchor, threshold: nat, txs: seq<H256>, block: H256,
                              i: nat, k: nat, confirmations: nat)
    requires Settled(c, a, threshold, txs, block, confirmations) && i < |txs|
    ensures (exists x: H256, proof: seq<H256> ::
               |proof| == k && x != txs[i] && FirstAccepts(c, threshold, block, x, i, proof, confirmations))
            <==> 0 < k && i < USIZE && OtherNode(txs, i, k)
    ensures OtherNode(txs, 0, k) <==> k != Depth(|txs|) && k <= LeftDepth(MerkleRoot(txs))
  {
    FirstOtherNode(txs, k);
    if 0 < k && i < USIZE && OtherNode(txs, i, k) {
      var proof := ProofOfNode(MerkleRoot(txs), i, k);
      FirstAcceptsIff(c, a, threshold, txs, block, NodeAt(MerkleRoot(txs), i, k).value, i, proof, confirmations);
    }
    if x: H256, proof: seq<H256> :|
      |proof| == k && x != txs[i] && FirstAccepts(c, threshold, block, x, i, proof, confirmations) {
      FirstAcceptsIff(c, a, threshold, txs, block, x, i, proof, confirmations);
      RootLeadsBack(x, i, proof);
    }
  }

  /** On the path of index `i`, `k` levels down, there is a node other than the transaction `i`. */
  predicate OtherNode(txs: seq<H256>, i: nat, k: nat)
    requires i < |txs|
  {
    NodeAt(MerkleRoot(txs), i, k).Some? && NodeAt(MerkleRoot(txs), i, k) != Some(txs[i])
  }

  lemma FirstOtherNode(txs: seq<H256>, k: nat)
    requires txs != []
    ensures OtherNode(txs, 0, k) <==> k != Depth(|txs|) && k <= LeftDepth(MerkleRoot(txs))
  {
    TreeLeftDepth(txs);
    LeftNodes(MerkleRoot(txs), k);
    ProofComplete(txs, 0);
    RootLeadsBack(txs[0], 0, Proof(txs, 0).value);
  }

  lemma AcceptedIsShown(c: Chain, a: Anchor, threshold: nat, txs: seq<H256>, block: H256,
                        x: H256, i: nat, proof: seq<H256>, confirmations: nat)
    requires Settled(c, a, threshold, txs, block, confirmations)
    requires FirstAccepts(c, threshold, block, x, i, proof, confirmations)
    ensures i < USIZE && Shows(txs, i, x)
  {
    FirstAcceptsIff(c, a, threshold, txs, block, x, i, proof, confirmations);
    RootLeadsBack(x, i, proof);
  }

  lemma ShownIsAccepted(c: Chain, a: Anchor, threshold: nat, txs: seq<H256>, block: H256,
                        x: H256, i: nat, confirmations: nat) returns (proof: seq<H256>)
    requires Settled(c, a, threshold, txs, block, confirmations) && i < USIZE && Shows(txs, i, x)
    ensures FirstAccepts(c, threshold, block, x, i, proof, confirmations)
  {
    var k: nat :| k > 0 && NodeAt(MerkleRoot(txs), i, k) == Some(x);
    proof := ProofOfNode(MerkleRoot(txs), i, k);
    FirstAcceptsIff(c, a, threshold, txs, block, x, i, proof, confirmations);
  }

  /** Some id that is not a transaction of the block is accepted, at some index and with some proof,
      if and only if the block has more than two transactions or an id that is the hash of a pair
      with a part that is not a transaction. */
  lemma FirstVersionUnsafeIff(c: Chain, a: Anchor, threshold: nat, txs: seq<H256>, block: H256, confirmations: nat)
    requires Settled(c, a, threshold, txs, block, confirmations)
    ensures (exists x: H256, i: nat, proof: seq<H256> ::
               x !in txs && FirstAccepts(c, threshold, block, x, i, proof, confirmations))
            <==> |txs| > 2 || HasOpenPair(txs)
  {
    if |txs| > 2 || HasOpenPair(txs) {
      var i, x := ForeignNode(txs);
      var proof := ShownIsAccepted(c, a, threshold, txs, block, x, i, confirmations);
    }
    if x: H256, i: nat, proof: seq<H256> :|
      x !in txs && FirstAccepts(c, threshold, block, x, i, proof, confirmations) {
      AcceptedIsShown(c, a, threshold, txs, block, x, i, proof, confirmations);
      ForeignIff(txs, USIZE);
    }
  }

  /** Some id is accepted at an index of the block where another transaction stands if and only if
      the block has more than two transactions or its coinbase id is the hash of a pair. */
  lemma FirstVersionMismatchIff(c: Chain, a: Anchor, threshold: nat, txs: seq<H256>, block: H256, confirmations: nat)
    requires Settled(c, a, threshold, txs, block, confirmations)
    ensures (exists x: H256, i: nat, proof: seq<H256> ::
               i < |txs| && x != txs[i] && FirstAccepts(c, threshold, block, x, i, proof, confirmations))
            <==> |txs| > 2 || txs[0].OfPair?
  {
    if |txs| > 2 || txs[0].OfPair? {
      var x := WrongNode(txs);
      var proof := ShownIsAccepted(c, a, threshold, txs, block, x, 0, confirmations);
    }
    if x: H256, i: nat, proof: seq<H256> :|
      i < |txs| && x != txs[i] && FirstAccepts(c, threshold, block, x, i, proof, confirmations) {
      AcceptedIsShown(c, a, threshold, txs, block, x, i, proof, confirmations);
      MismatchIff(txs);
    }
  }

  /** A proof of the tree's depth is accepted for the transaction that the index stands for only. */
  lemma FirstVersionSound(c: Chain, a: Anchor, threshold: nat, txs: seq<H256>, args: ProofArgs)
    requires Inv(c, a) && |txs| > 0 && |args.merkleProof| == Depth(|txs|)
    requires args.blockHash.OfHeader? && args.blockHash.header.merkleRoot == MerkleRoot(txs)
    requires VerifyInclusion(c, threshold, args) == Some(true)
    ensures args.txId == txs[LeafIndex(|txs|, args.txIndex)]
    ensures args.txIndex < |txs| ==> args.txId == txs[args.txIndex]
  {
    AnswersWhenConfirmed(c, a, threshold, args);
    ProofSoundAnywhere(txs, args.txId, args.txIndex, args.merkleProof);
    if args.txIndex < |txs| {
      LeafInRange(|txs|, args.txIndex);
    }
  }
}
