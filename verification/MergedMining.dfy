/** What the merged-mining check accepts, apart from how it searches: the layout of the coinbase
    script, the place of the coinbase in the parent block, and that honest data are accepted. */
module MergedMining {
  import opened Arith
  import opened Compact
  import opened Hashing
  import opened Merkle
  import opened AuxPow

  // ---- the script ----

  /** `pat` stands at position `j`. */
  predicate At(s: seq<Nibble>, pat: seq<Nibble>, j: nat) {
    j + |pat| <= |s| && s[j..j + |pat|] == pat
  }

  /** The low `k` bytes of a number as hex text, low byte first. */
  function BytesText(n: nat, k: nat): (t: seq<Nibble>)
    ensures |t| == 2 * k
  {
    if k == 0 then [] else [(n % 256) / 16, (n % 256) % 16] + BytesText(n / 256, k - 1)
  }

  function BytesValue(s: seq<Nibble>, i: nat, k: nat): nat
    requires i + 2 * k <= |s|
    decreases k
  {
    if k == 0 then 0 else ByteAt(s, i) + 256 * BytesValue(s, i + 2, k - 1)
  }

  lemma WordIsBytes(s: seq<Nibble>, i: nat)
    requires i + 8 <= |s|
    ensures Word(s, i) == BytesValue(s, i, 4)
  {
    assert BytesValue(s, i + 6, 1) == ByteAt(s, i + 6) + 256 * BytesValue(s, i + 8, 0);
    assert BytesValue(s, i + 4, 2) == ByteAt(s, i + 4) + 256 * BytesValue(s, i + 6, 1);
    assert BytesValue(s, i + 2, 3) == ByteAt(s, i + 2) + 256 * BytesValue(s, i + 4, 2);
  }

  function Bound(k: nat): nat { if k == 0 then 1 else 256 * Bound(k - 1) }

  /** Reading `k` bytes at a position gives `n` exactly when its text stands there. */
  lemma {:induction false} BytesIff(s: seq<Nibble>, i: nat, k: nat, n: nat)
    requires i + 2 * k <= |s| && n < Bound(k)
    ensures BytesValue(s, i, k) < Bound(k)
    ensures BytesValue(s, i, k) == n <==> s[i..i + 2 * k] == BytesText(n, k)
    decreases k
  {
    if k > 0 {
      BytesIff(s, i + 2, k - 1, n / 256);
      ByteDigits(ByteAt(s, i), BytesValue(s, i + 2, k - 1), n);
      NibblePair(s, i, n % 256);
      TextSplits(s, i, k, n);
    }
  }

  lemma TextSplits(s: seq<Nibble>, i: nat, k: nat, n: nat)
    requires 0 < k && i + 2 * k <= |s|
    ensures s[i..i + 2 * k] == BytesText(n, k)
            <==> && s[i..i + 2] == [(n % 256) / 16, (n % 256) % 16]
                 && s[i + 2..i + 2 + 2 * (k - 1)] == BytesText(n / 256, k - 1)
  {
    var head: seq<Nibble>, tail := [(n % 256) / 16, (n % 256) % 16], BytesText(n / 256, k - 1);
    assert s[i..i + 2 * k] == s[i..i + 2] + s[i + 2..i + 2 + 2 * (k - 1)];
    Halves(s[i..i + 2], s[i + 2..i + 2 + 2 * (k - 1)], head, tail);
  }

  lemma Halves(a: seq<Nibble>, b: seq<Nibble>, c: seq<Nibble>, d: seq<Nibble>)
    requires |a| == |c|
    ensures a + b == c + d <==> a == c && b == d
  {
    if a + b == c + d {
      assert a == (a + b)[..|a|] && b == (a + b)[|a|..];
      assert c == (c + d)[..|c|] && d == (c + d)[|c|..];
    }
  }

  lemma ByteDigits(b: nat, rest: nat, n: nat)
    requires b < 256
    ensures b + 256 * rest == n <==> b == n % 256 && rest == n / 256
  {
  }

  lemma NibblePair(s: seq<Nibble>, i: nat, b: nat)
    requires i + 2 <= |s| && b < 256
    ensures 0 <= ByteAt(s, i) < 256
    ensures ByteAt(s, i) == b <==> s[i..i + 2] == [b / 16, b % 16]
  {
    assert s[i..i + 2] == [s[i], s[i + 1]];
  }

  /** A number below 2^32 in the script. */
  function WordText(n: nat): (t: seq<Nibble>)
    ensures |t| == 8
  {
    BytesText(n, 4)
  }

  lemma WordIff(s: seq<Nibble>, i: nat, n: nat)
    requires i + 8 <= |s| && n < 0x1_0000_0000
    ensures 0 <= Word(s, i) < 0x1_0000_0000
    ensures Word(s, i) == n <==> At(s, WordText(n), i)
  {
    WordIsBytes(s, i);
    assert Bound(1) == 256 && Bound(2) == 0x1_0000 && Bound(3) == 0x100_0000 && Bound(4) == 0x1_0000_0000;
    BytesIff(s, i, 4, n);
  }

  // ---- searching ----

  lemma FoundIff(s: seq<Nibble>, pat: seq<Nibble>, pos: nat)
    ensures Find(s, pat) == Some(pos) <==> At(s, pat, pos) && forall j: nat :: j < pos ==> !At(s, pat, j)
  {
    if Find(s, pat) == Some(pos) {
      forall j: nat | j < pos ensures !At(s, pat, j) {
        if At(s, pat, j) {
          FindIsFirst(s, pat, 0, j);
        }
      }
    }
    if At(s, pat, pos) && forall j: nat :: j < pos ==> !At(s, pat, j) {
      FindIsFirst(s, pat, 0, pos);
      assert At(s, pat, Find(s, pat).value);
    }
  }

  lemma NotFoundIff(s: seq<Nibble>, pat: seq<Nibble>)
    ensures Find(s, pat).None? <==> forall j: nat :: !At(s, pat, j)
  {
    if Find(s, pat).None? {
      forall j: nat ensures !At(s, pat, j) {
        if At(s, pat, j) {
          FindIsFirst(s, pat, 0, j);
        }
      }
    } else {
      assert At(s, pat, Find(s, pat).value);
    }
  }

  lemma TailAt(s: seq<Nibble>, pat: seq<Nibble>, from: nat, j: nat)
    requires from <= |s|
    ensures At(s[from..], pat, j) <==> At(s, pat, from + j)
  {
    if j + |pat| <= |s| - from {
      assert s[from..][j..j + |pat|] == s[from + j..from + j + |pat|];
    }
  }

  /** The root may stand at `pos`: right after the only marker, or, without any marker, within the
      first twenty bytes. */
  ghost predicate MarkedAt(script: seq<Nibble>, pos: nat) {
    if exists j: nat :: At(script, MARKER, j) then
      && pos >= 8 && At(script, MARKER, pos - 8)
      && forall j: nat :: At(script, MARKER, j) ==> pos - 8 <= j < pos
    else pos <= 40
  }

  lemma NoneAfter(s: seq<Nibble>, pat: seq<Nibble>, from: nat)
    requires from <= |s|
    ensures Find(s[from..], pat).None? <==> forall j: nat :: At(s, pat, j) ==> j < from
  {
    var tail := s[from..];
    NotFoundIff(tail, pat);
    if Find(tail, pat).None? {
      forall j: nat | At(s, pat, j) ensures j < from {
        if j >= from {
          TailAt(s, pat, from, j - from);
        }
      }
    } else {
      TailAt(s, pat, from, Find(tail, pat).value);
    }
  }

  lemma PlacedIffMarked(script: seq<Nibble>, pos: nat)
    ensures RootPlaced(script, pos) <==> MarkedAt(script, pos)
  {
    NotFoundIff(script, MARKER);
    if Find(script, MARKER).Some? {
      var m := Find(script, MARKER).value;
      FoundIff(script, MARKER, m);
      NoneAfter(script, MARKER, m + 8);
      assert At(script, MARKER, m);
    }
  }

  /** The layout of a script that commits to the root `text` in a tree of 2^height leaves: the first
      occurrence of the root, properly marked, followed by the tree size and a nonce whose slot is
      `index`. */
  ghost predicate Committed(script: seq<Nibble>, text: seq<Nibble>, height: nat, index: nat, pos: nat, nonce: nat) {
    && At(script, text, pos) && (forall j: nat :: j < pos ==> !At(script, text, j))
    && MarkedAt(script, pos)
    && At(script, WordText(Pow2(height)), pos + |text|)
    && nonce < 0x1_0000_0000 && At(script, WordText(nonce), pos + |text| + 8)
    && index == ExpectedIndex(nonce, 98, height)
  }

  lemma CommitsIff(script: seq<Nibble>, text: seq<Nibble>, height: nat, index: nat)
    requires height <= 30
    ensures ScriptCommits(script, text, height, index)
            <==> exists pos: nat, nonce: nat :: Committed(script, text, height, index, pos, nonce)
  {
    if ScriptCommits(script, text, height, index) {
      var pos, nonce := CommitsLayout(script, text, height, index);
    }
    if pos: nat, nonce: nat :| Committed(script, text, height, index, pos, nonce) {
      LayoutCommits(script, text, height, index, pos, nonce);
    }
  }

  lemma CommitsLayout(script: seq<Nibble>, text: seq<Nibble>, height: nat, index: nat) returns (pos: nat, nonce: nat)
    requires height <= 30 && ScriptCommits(script, text, height, index)
    ensures Committed(script, text, height, index, pos, nonce)
  {
    pos := Find(script, text).value;
    var end := pos + |text|;
    nonce := Word(script, end + 8);
    SmallPower(height);
    FoundIff(script, text, pos);
    PlacedIffMarked(script, pos);
    WordIff(script, end, Pow2(height));
    WordIff(script, end + 8, 0);
    WordIff(script, end + 8, nonce);
  }

  lemma LayoutCommits(script: seq<Nibble>, text: seq<Nibble>, height: nat, index: nat, pos: nat, nonce: nat)
    requires height <= 30 && Committed(script, text, height, index, pos, nonce)
    ensures ScriptCommits(script, text, height, index)
  {
    SmallPower(height);
    FoundIff(script, text, pos);
    PlacedIffMarked(script, pos);
    WordIff(script, pos + |text|, Pow2(height));
    WordIff(script, pos + |text| + 8, nonce);
  }

  lemma SmallPower(height: nat)
    requires height <= 30
    ensures Pow2(height) < 0x1_0000_0000
  {
    Pow2Small();
    Pow2Mono(height, 31);
    assert Pow2(32) == 2 * Pow2(31);
  }

  // ---- the check ----

  /** The check accepts exactly this, with the constants of Dogecoin written out: a branch of at most
      30 hashes, the merged-mining bit and chain id 98 in the header's version, another chain id in
      the parent's, the coinbase in the parent block, the commitment in its script, and a parent
      proof-of-work hash within the header's own target. */
  lemma AuxIff(h: Header, aux: AuxData, skipPow: bool, hex: H256 -> seq<Nibble>)
    ensures AuxOk(h, aux, skipPow, hex)
            <==> && |aux.chainMerkleProof| <= 30
                 && (h.version / 256) % 2 == 1 && h.version / 65536 == 98
                 && aux.parentBlock.version / 65536 != 98
                 && RootFrom(aux.coinbaseTxid, 0, aux.merkleProof) == aux.parentBlock.merkleRoot
                 && (exists pos: nat, nonce: nat ::
                       Committed(aux.scriptSig, hex(RootFrom(BlockHash(h), aux.chainIndex, aux.chainMerkleProof)),
                                 |aux.chainMerkleProof|, aux.chainIndex, pos, nonce))
                 && (skipPow || aux.parentPowHash.Val() <= Decode(h.bits))
  {
    if |aux.chainMerkleProof| <= 30 {
      CommitsIff(aux.scriptSig, hex(ChainRoot(h, aux)), |aux.chainMerkleProof|, aux.chainIndex);
    }
  }

  /** The coinbase that commits is in the parent block: it is the node that the proof's length selects
      on the left edge, and the first transaction if that length is the depth of the block's tree. */
  lemma CoinbaseInParent(h: Header, aux: AuxData, skipPow: bool, hex: H256 -> seq<Nibble>, txs: seq<H256>)
    requires AuxOk(h, aux, skipPow, hex)
    ensures NodeAt(aux.parentBlock.merkleRoot, 0, |aux.merkleProof|) == Some(aux.coinbaseTxid)
    ensures txs != [] && aux.parentBlock.merkleRoot == MerkleRoot(txs) && |aux.merkleProof| == Depth(|txs|) ==>
              aux.coinbaseTxid == txs[0]
  {
    RootLeadsBack(aux.coinbaseTxid, 0, aux.merkleProof);
    if txs != [] && aux.parentBlock.merkleRoot == MerkleRoot(txs) && |aux.merkleProof| == Depth(|txs|) {
      ProofSound(txs, aux.coinbaseTxid, 0, aux.merkleProof);
    }
  }

  lemma {:induction false} DepthOfPower(height: nat)
    ensures Depth(Pow2(height)) == height
  {
    if height > 0 {
      DepthOfPower(height - 1);
    }
  }

  /** Honest merged mining is accepted: the header sits in its slot of a full tree of chains, the
      script of a transaction list's coinbase commits to that tree, and the parent has the work. */
  lemma HonestMinerAccepted(h: Header, aux: AuxData, skipPow: bool, hex: H256 -> seq<Nibble>,
                            chains: seq<H256>, txs: seq<H256>, height: nat, pos: nat, nonce: nat)
    requires height <= 30 && |chains| == Pow2(height) && aux.chainIndex < |chains| && txs != []
    requires chains[aux.chainIndex] == BlockHash(h) && Some(aux.chainMerkleProof) == Proof(chains, aux.chainIndex)
    requires txs[0] == aux.coinbaseTxid && Some(aux.merkleProof) == Proof(txs, 0)
    requires aux.parentBlock.merkleRoot == MerkleRoot(txs)
    requires (h.version / 256) % 2 == 1 && h.version / 65536 == 98 != aux.parentBlock.version / 65536
    requires Committed(aux.scriptSig, hex(MerkleRoot(chains)), height, aux.chainIndex, pos, nonce)
    requires aux.parentPowHash.Val() <= Decode(h.bits)
    ensures AuxOk(h, aux, skipPow, hex)
  {
    SlotProof(h, aux, chains, height);
    ProofComplete(txs, 0);
    AuxIff(h, aux, skipPow, hex);
  }

  lemma SlotProof(h: Header, aux: AuxData, chains: seq<H256>, height: nat)
    requires |chains| == Pow2(height) && aux.chainIndex < |chains|
    requires chains[aux.chainIndex] == BlockHash(h) && Some(aux.chainMerkleProof) == Proof(chains, aux.chainIndex)
    ensures RootFrom(BlockHash(h), aux.chainIndex, aux.chainMerkleProof) == MerkleRoot(chains)
    ensures |aux.chainMerkleProof| == height
  {
    ProofComplete(chains, aux.chainIndex);
    DepthOfPower(height);
  }

  /** The usual script has that layout, if neither the root text nor the marker stands elsewhere. */
  lemma UsualScript(script: seq<Nibble>, pre: seq<Nibble>, text: seq<Nibble>, height: nat, nonce: nat, post: seq<Nibble>)
    requires nonce < 0x1_0000_0000
    requires script == pre + MARKER + text + WordText(Pow2(height)) + WordText(nonce) + post
    requires forall j: nat :: At(script, text, j) ==> j >= |pre| + 8
    requires forall j: nat :: At(script, MARKER, j) ==> |pre| <= j < |pre| + 8
    ensures Committed(script, text, height, ExpectedIndex(nonce, 98, height), |pre| + 8, nonce)
  {
    ScriptParts(script, pre, text, WordText(Pow2(height)), WordText(nonce), post);
  }

  lemma ScriptParts(script: seq<Nibble>, pre: seq<Nibble>, text: seq<Nibble>, size: seq<Nibble>, nonce: seq<Nibble>,
                    post: seq<Nibble>)
    requires script == pre + MARKER + text + size + nonce + post
    ensures At(script, MARKER, |pre|) && At(script, text, |pre| + 8)
    ensures At(script, size, |pre| + 8 + |text|) && At(script, nonce, |pre| + 8 + |text| + |size|)
  {
    var tail := text + size + nonce + post;
    assert script == pre + MARKER + tail;
    Between(pre, MARKER, tail, script);
    Between(pre + MARKER, text, size + nonce + post, script) by {
      assert tail == text + (size + nonce + post);
    }
    Between(pre + MARKER + text, size, nonce + post, script);
    Between(pre + MARKER + text + size, nonce, post, script);
  }

  lemma Between(a: seq<Nibble>, pat: seq<Nibble>, b: seq<Nibble>, s: seq<Nibble>)
    requires s == a + pat + b
    ensures At(s, pat, |a|)
  {
  }

  /** The slot of Dogecoin in a tree of 1024 chains, for two nonces. */
  lemma TwoSlots()
    ensures ExpectedIndex(0, 98, 10) == 56 && ExpectedIndex(7, 98, 10) == 279
  {
    Pow2Small();
    assert Pow2(2) == 4;
    Pow2Add(8, 2);
  }
}
