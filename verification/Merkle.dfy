/** Merkle proofs of `merkle-tools/src/lib.rs`: the calculator, the root recomputation, and what
    a recomputed root says about the list it was taken from. */
module Merkle {
  import opened Arith
  import opened Hashing

  // ---- the tree ----

  function Padded(s: seq<H256>): (p: seq<H256>)
    requires |s| > 0
    ensures |p| % 2 == 0 && |s| <= |p| <= |s| + 1
  {
    if |s| % 2 == 1 then s + [s[|s| - 1]] else s
  }

  /** One level up: an odd list hashes its last item with itself. */
  function NextLevel(s: seq<H256>): (r: seq<H256>)
    requires |s| > 0
    ensures |r| == (|s| + 1) / 2
  {
    seq(|Padded(s)| / 2, i requires 0 <= i < |Padded(s)| / 2 =>
      OfPair(Padded(s)[2 * i], Padded(s)[2 * i + 1]))
  }

  function MerkleRoot(s: seq<H256>): H256
    requires |s| > 0
    decreases |s|
  {
    if |s| == 1 then s[0] else MerkleRoot(NextLevel(s))
  }

  /** Levels above the leaves of a list of `n` items. */
  function Depth(n: nat): nat {
    if n <= 1 then 0 else 1 + Depth((n + 1) / 2)
  }

  // ---- proofs ----

  function Sibling(pos: nat): nat {
    if pos % 2 == 1 then pos - 1 else pos + 1
  }

  /** The calculator's result; `None` where its indexing would panic. */
  function Proof(s: seq<H256>, pos: nat): Option<seq<H256>>
    decreases |s|
  {
    if |s| <= 1 then Some([])
    else if Sibling(pos) >= |Padded(s)| then None
    else
      match Proof(NextLevel(s), pos / 2)
      case None => None
      case Some(rest) => Some([Padded(s)[Sibling(pos)]] + rest)
  }

  method MerkleProofCalculator(hashes: seq<H256>, position: nat) returns (proof: Option<seq<H256>>)
    ensures proof == Proof(hashes, position)
  {
    var pos: nat, current := position, hashes;
    var result: seq<H256> := [];
    assert forall p: seq<H256> :: result + p == p;
    while |current| > 1
      invariant Extends(result, Proof(current, pos)) == Proof(hashes, position)
      decreases |current|
    {
      ghost var level, before := current, result;
      if |current| % 2 == 1 {
        current := current + [current[|current| - 1]];
      }
      assert current == Padded(level);
      if pos % 2 == 1 {
        if pos - 1 >= |current| { return None; }
        result := result + [current[pos - 1]];
      } else {
        if pos + 1 >= |current| { return None; }
        result := result + [current[pos + 1]];
      }
      ProofStep(before, level, pos);
      current := HashPairs(current, level);
      pos := pos / 2;
    }
    assert result + [] == result;
    return Some(result);
  }

  /** The proof that continues `done` with the levels still to come. */
  function Extends(done: seq<H256>, rest: Option<seq<H256>>): Option<seq<H256>> {
    match rest
    case None => None
    case Some(p) => Some(done + p)
  }

  lemma ProofStep(done: seq<H256>, level: seq<H256>, pos: nat)
    requires |level| > 1 && Sibling(pos) < |Padded(level)|
    ensures Extends(done, Proof(level, pos))
            == Extends(done + [Padded(level)[Sibling(pos)]], Proof(NextLevel(level), pos / 2))
  {
    var sibling, rest := Padded(level)[Sibling(pos)], Proof(NextLevel(level), pos / 2);
    if rest.Some? {
      assert done + ([sibling] + rest.value) == (done + [sibling]) + rest.value;
    }
  }

  /** The loop that hashes one padded level into the next. */
  method HashPairs(current: seq<H256>, ghost level: seq<H256>) returns (next: seq<H256>)
    requires level != [] && current == Padded(level)
    ensures next == NextLevel(level)
  {
    next := [];
    var i := 0;
    while i < |current| - 1
      invariant i % 2 == 0 && 0 <= i <= |current|
      invariant next == NextLevel(level)[..i / 2]
    {
      next := next + [OfPair(current[i], current[i + 1])];
      i := i + 2;
    }
  }

  function Parent(x: H256, pos: nat, sibling: H256): H256 {
    if pos % 2 == 0 then OfPair(x, sibling) else OfPair(sibling, x)
  }

  function RootFrom(x: H256, pos: nat, proof: seq<H256>): H256
    decreases |proof|
  {
    if proof == [] then x else RootFrom(Parent(x, pos, proof[0]), pos / 2, proof[1..])
  }

  method ComputeRootFromMerkleProof(txHash: H256, position: nat, proof: seq<H256>) returns (root: H256)
    ensures root == RootFrom(txHash, position, proof)
  {
    var currentPosition := position;
    root := txHash;
    for i := 0 to |proof|
      invariant RootFrom(root, currentPosition, proof[i..]) == RootFrom(txHash, position, proof)
    {
      assert proof[i..][1..] == proof[i + 1..];
      if currentPosition % 2 == 0 {
        root := OfPair(root, proof[i]);
      } else {
        root := OfPair(proof[i], root);
      }
      currentPosition := currentPosition / 2;
    }
  }

  // ---- completeness ----

  /** Every item of a list has a proof, of a length that depends only on the list's length, and
      the proof recomputes the root. */
  lemma {:induction false} ProofComplete(s: seq<H256>, pos: nat)
    requires pos < |s|
    ensures Proof(s, pos).Some?
    ensures |Proof(s, pos).value| == Depth(|s|)
    ensures RootFrom(s[pos], pos, Proof(s, pos).value) == MerkleRoot(s)
    decreases |s|
  {
    if |s| > 1 {
      ProofComplete(NextLevel(s), pos / 2);
      LevelParent(s, pos);
      var rest := Proof(NextLevel(s), pos / 2).value;
      var proof := [Padded(s)[Sibling(pos)]] + rest;
      assert proof[0] == Padded(s)[Sibling(pos)] && proof[1..] == rest;
    }
  }

  lemma LevelParent(s: seq<H256>, pos: nat)
    requires pos < |s|
    ensures Sibling(pos) < |Padded(s)|
    ensures NextLevel(s)[pos / 2] == Parent(s[pos], pos, Padded(s)[Sibling(pos)])
  {
    assert Padded(s)[pos] == s[pos];
  }

  // ---- soundness ----

  /** Two proofs of equal length for the same position and root prove the same item, and are
      the same proof. */
  lemma {:induction false} RootInjective(x: H256, y: H256, pos: nat, p: seq<H256>, q: seq<H256>)
    requires |p| == |q| && RootFrom(x, pos, p) == RootFrom(y, pos, q)
    ensures x == y && p == q
    decreases |p|
  {
    if |p| > 0 {
      RootInjective(Parent(x, pos, p[0]), Parent(y, pos, q[0]), pos / 2, p[1..], q[1..]);
      assert p == [p[0]] + p[1..] && q == [q[0]] + q[1..];
    }
  }

  /** A proof as long as the tree is deep proves exactly the item at its position. */
  lemma ProofSound(s: seq<H256>, x: H256, pos: nat, proof: seq<H256>)
    requires pos < |s| && |proof| == Depth(|s|)
    ensures RootFrom(x, pos, proof) == MerkleRoot(s)
            <==> x == s[pos] && Some(proof) == Proof(s, pos)
  {
    LeafInRange(|s|, pos);
    ProofSoundAnywhere(s, x, pos, proof);
  }

  // ---- positions beyond the list ----

  /** The item that a position stands for in a tree over `n` items, for any position at all: padding
      stands for the last item of its level, and only as many low bits count as there are levels. */
  function LeafIndex(n: nat, pos: nat): (i: nat)
    requires n > 0
    ensures i < n
    decreases n
  {
    if n == 1 then 0 else Min(2 * LeafIndex((n + 1) / 2, pos / 2) + pos % 2, n - 1)
  }

  lemma {:induction false} LeafInRange(n: nat, pos: nat)
    requires pos < n
    ensures LeafIndex(n, pos) == pos
    decreases n
  {
    if n > 1 {
      LeafInRange((n + 1) / 2, pos / 2);
    }
  }

  /** Level by level: position `pos` selects item `i` of `n`, or padding that repeats it. */
  predicate StandsFor(n: nat, pos: nat, i: nat)
    decreases n
  {
    if n <= 1 then i == 0
    else
      && i < n && (i % 2 == pos % 2 || (i == n - 1 && n % 2 == 1))
      && StandsFor((n + 1) / 2, pos / 2, i / 2)
  }

  lemma {:induction false} LeafStands(n: nat, pos: nat)
    requires n > 0
    ensures StandsFor(n, pos, LeafIndex(n, pos))
    decreases n
  {
    if n > 1 {
      LeafStands((n + 1) / 2, pos / 2);
      LeafStep(n, pos, LeafIndex((n + 1) / 2, pos / 2));
    }
  }

  lemma LeafStep(n: nat, pos: nat, j: nat)
    requires n > 1 && j < (n + 1) / 2
    ensures var i := Min(2 * j + pos % 2, n - 1);
            i < n && i / 2 == j && (i % 2 == pos % 2 || (i == n - 1 && n % 2 == 1))
  {
  }

  /** The proof of the item that a position stands for recomputes the root from that position. */
  lemma {:induction false} LeafComplete(s: seq<H256>, pos: nat, i: nat)
    requires |s| > 0 && StandsFor(|s|, pos, i)
    ensures i < |s| && Proof(s, i).Some? && |Proof(s, i).value| == Depth(|s|)
    ensures RootFrom(s[i], pos, Proof(s, i).value) == MerkleRoot(s)
    decreases |s|
  {
    ProofComplete(s, i);
    if |s| > 1 {
      LeafComplete(NextLevel(s), pos / 2, i / 2);
      RootOfLevel(s, pos, i);
    }
  }

  lemma RootOfLevel(s: seq<H256>, pos: nat, i: nat)
    requires i < |s| && |s| > 1 && (i % 2 == pos % 2 || (i == |s| - 1 && |s| % 2 == 1)) && Proof(s, i).Some?
    ensures Proof(NextLevel(s), i / 2).Some?
    ensures RootFrom(s[i], pos, Proof(s, i).value)
            == RootFrom(NextLevel(s)[i / 2], pos / 2, Proof(NextLevel(s), i / 2).value)
  {
    LeafParent(s, pos, i);
    var sibling, rest := Padded(s)[Sibling(i)], Proof(NextLevel(s), i / 2).value;
    assert ([sibling] + rest)[0] == sibling && ([sibling] + rest)[1..] == rest;
  }

  lemma LeafParent(s: seq<H256>, pos: nat, i: nat)
    requires i < |s| && (i % 2 == pos % 2 || (i == |s| - 1 && |s| % 2 == 1))
    ensures Sibling(i) < |Padded(s)| && Parent(s[i], pos, Padded(s)[Sibling(i)]) == NextLevel(s)[i / 2]
  {
    LevelParent(s, i);
  }

  /** At any position, a proof of the tree's depth leads to the root if and only if it is the
      calculator's proof of the item that the position stands for. */
  lemma ProofSoundAnywhere(s: seq<H256>, x: H256, pos: nat, proof: seq<H256>)
    requires |s| > 0 && |proof| == Depth(|s|)
    ensures RootFrom(x, pos, proof) == MerkleRoot(s)
            <==> x == s[LeafIndex(|s|, pos)] && Some(proof) == Proof(s, LeafIndex(|s|, pos))
  {
    var i := LeafIndex(|s|, pos);
    LeafStands(|s|, pos);
    LeafComplete(s, pos, i);
    if RootFrom(x, pos, proof) == MerkleRoot(s) {
      RootInjective(x, s[i], pos, proof, Proof(s, i).value);
    }
  }

  /** Number of left steps down from a hash that lead through pairs. */
  function LeftDepth(h: H256): nat {
    match h
    case OfPair(l, _) => 1 + LeftDepth(l)
    case _ => 0
  }

  lemma {:induction false} LeftmostDepth(x: H256, proof: seq<H256>)
    ensures LeftDepth(RootFrom(x, 0, proof)) == LeftDepth(x) + |proof|
    decreases |proof|
  {
    if |proof| > 0 {
      LeftmostDepth(Parent(x, 0, proof[0]), proof[1..]);
    }
  }

  lemma TreeLeftDepth(s: seq<H256>)
    requires |s| > 0
    ensures LeftDepth(MerkleRoot(s)) == LeftDepth(s[0]) + Depth(|s|)
  {
    ProofComplete(s, 0);
    LeftmostDepth(s[0], Proof(s, 0).value);
  }

  /** A proof of the first item, whatever the items are, has the depth of the tree: a longer or
      shorter one would put the item strictly inside itself. */
  lemma FirstItemForcesDepth(s: seq<H256>, proof: seq<H256>)
    requires |s| > 0 && RootFrom(s[0], 0, proof) == MerkleRoot(s)
    ensures |proof| == Depth(|s|)
  {
    TreeLeftDepth(s);
    LeftmostDepth(s[0], proof);
  }

  // ---- what a proof of any length can show ----

  /** The node `k` levels below `h` on the path that position `pos` selects, if the term goes that
      deep. */
  function NodeAt(h: H256, pos: nat, k: nat): Option<H256>
    decreases k
  {
    if k == 0 then Some(h)
    else
      match NodeAt(h, pos / 2, k - 1)
      case Some(OfPair(l, r)) => Some(if pos % 2 == 0 then l else r)
      case _ => None
  }

  lemma {:induction false} RootLeadsBack(x: H256, pos: nat, proof: seq<H256>)
    ensures NodeAt(RootFrom(x, pos, proof), pos, |proof|) == Some(x)
    decreases |proof|
  {
    if proof != [] {
      RootLeadsBack(Parent(x, pos, proof[0]), pos / 2, proof[1..]);
    }
  }

  lemma {:induction false} ProofOfNode(h: H256, pos: nat, k: nat) returns (proof: seq<H256>)
    requires NodeAt(h, pos, k).Some?
    ensures |proof| == k && RootFrom(NodeAt(h, pos, k).value, pos, proof) == h
    decreases k
  {
    if k == 0 {
      proof := [];
    } else {
      var up := NodeAt(h, pos / 2, k - 1).value;
      var rest := ProofOfNode(h, pos / 2, k - 1);
      proof := [if pos % 2 == 0 then up.right else up.left] + rest;
      assert proof[1..] == rest;
    }
  }

  ghost predicate Provable(root: H256, pos: nat, k: nat, x: H256) {
    exists proof: seq<H256> :: |proof| == k && RootFrom(x, pos, proof) == root
  }

  /** At every position and for every length there is exactly one id that a proof can show, the node
      on the selected path, and none where the term is not that deep. */
  lemma ProvableIff(root: H256, pos: nat, k: nat, x: H256)
    ensures Provable(root, pos, k, x) <==> NodeAt(root, pos, k) == Some(x)
  {
    if Provable(root, pos, k, x) {
      var proof: seq<H256> :| |proof| == k && RootFrom(x, pos, proof) == root;
      RootLeadsBack(x, pos, proof);
    }
    if NodeAt(root, pos, k) == Some(x) {
      var proof := ProofOfNode(root, pos, k);
    }
  }

  lemma {:induction false} LeftNodes(h: H256, k: nat)
    ensures NodeAt(h, 0, k).Some? <==> k <= LeftDepth(h)
    ensures k <= LeftDepth(h) ==> LeftDepth(NodeAt(h, 0, k).value) == LeftDepth(h) - k
    decreases k
  {
    if k > 0 {
      LeftNodes(h, k - 1);
    }
  }

  /** At the first position, a proof of length `k` can show an id other than the first item if and
      only if `k` is not the depth of the tree and the root's left path is that long. */
  lemma ForgeableLengths(s: seq<H256>, k: nat)
    requires |s| > 0
    ensures (exists x: H256 :: x != s[0] && Provable(MerkleRoot(s), 0, k, x))
            <==> k != Depth(|s|) && k <= LeftDepth(MerkleRoot(s))
  {
    var root := MerkleRoot(s);
    TreeLeftDepth(s);
    LeftNodes(root, k);
    ProofComplete(s, 0);
    RootLeadsBack(s[0], 0, Proof(s, 0).value);
    if NodeAt(root, 0, k).Some? {
      ProvableIff(root, 0, k, NodeAt(root, 0, k).value);
    }
    forall x: H256 | x != s[0] && Provable(root, 0, k, x) ensures NodeAt(root, 0, k) == Some(x) {
      ProvableIff(root, 0, k, x);
    }
  }
}
