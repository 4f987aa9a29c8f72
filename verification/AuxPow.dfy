/** Merged mining (`check_aux` and `get_expected_index` of `contract/src/dogecoin.rs`): a Dogecoin
    header is accepted on the work of a parent block whose coinbase script commits to it. */
module AuxPow {
  import opened Arith
  import opened Wide
  import opened Compact
  import opened Hashing
  import opened Merkle
  import opened Params

  type Nibble = x: int | 0 <= x < 16

  /** Hex text of the merged-mining marker `fabe6d6d`. */
  const MARKER: seq<Nibble> := [0xf, 0xa, 0xb, 0xe, 6, 0xd, 6, 0xd]

  const HASH_DIGITS: nat := 64

  datatype AuxData = AuxData(
    coinbaseTxid: H256,
    scriptSig: seq<Nibble>,        // hex text of the coinbase's first input script
    merkleProof: seq<H256>,        // coinbase to the parent block's merkle root
    chainMerkleProof: seq<H256>,   // this header to the chain merkle root
    chainIndex: nat,               // position in the chain merkle tree
    parentBlock: Header,
    parentPowHash: U256)           // proof-of-work hash of the parent block

  // ---- text search ----

  /** First occurrence at or after `i`. */
  function FindFrom(s: seq<Nibble>, pat: seq<Nibble>, i: nat): (r: Option<nat>)
    ensures r.Some? ==> i <= r.value && r.value + |pat| <= |s| && s[r.value..r.value + |pat|] == pat
    decreases |s| - i
  {
    if i + |pat| > |s| then None
    else if s[i..i + |pat|] == pat then Some(i)
    else FindFrom(s, pat, i + 1)
  }

  function Find(s: seq<Nibble>, pat: seq<Nibble>): (r: Option<nat>)
    ensures r.Some? ==> r.value + |pat| <= |s| && s[r.value..r.value + |pat|] == pat
  {
    FindFrom(s, pat, 0)
  }

  /** The search is exact: it finds the first occurrence, and fails only when there is none. */
  lemma {:induction false} FindIsFirst(s: seq<Nibble>, pat: seq<Nibble>, i: nat, j: nat)
    requires i <= j && j + |pat| <= |s| && s[j..j + |pat|] == pat
    ensures FindFrom(s, pat, i).Some? && FindFrom(s, pat, i).value <= j
    decreases j - i
  {
    if s[i..i + |pat|] != pat {
      FindIsFirst(s, pat, i + 1, j);
    }
  }

  // ---- decoding ----

  function ByteAt(s: seq<Nibble>, i: nat): nat
    requires i + 2 <= |s|
  {
    var high: int, low: int := s[i], s[i + 1];
    16 * high + low
  }

  /** Four little-endian bytes of hex text. */
  function Word(s: seq<Nibble>, i: nat): nat
    requires i + 8 <= |s|
  {
    ByteAt(s, i) + 0x100 * ByteAt(s, i + 2) + 0x1_0000 * ByteAt(s, i + 4) + 0x100_0000 * ByteAt(s, i + 6)
  }

  /** `version >> 16` on a signed version. */
  function ChainId(h: Header): int { h.version / 0x1_0000 }

  predicate HasAuxFlag(h: Header) { (h.version / 0x100) % 2 == 1 }

  /** The pseudo-random slot of a chain in a tree of 2^height leaves, as an affine function of the
      nonce over unbounded integers. */
  function ExpectedIndex(nonce: nat, chainId: nat, height: nat): nat {
    ((nonce * RAND_FACTOR + RAND_TERM + chainId) * RAND_FACTOR + RAND_TERM) % Pow2(height)
  }

  const RAND_FACTOR: nat := 1103515245
  const RAND_TERM: nat := 12345

  /** The 32-bit wrap-around of every step is invisible in the low bits that select the slot. */
  method GetExpectedIndex(nonce: nat, chainId: nat, height: nat) returns (index: nat)
    requires height < 32
    ensures index == ExpectedIndex(nonce, chainId, height) < Pow2(height)
  {
    var rand := nonce;
    rand := (rand * RAND_FACTOR + RAND_TERM) % WORD;
    rand := (rand + chainId) % WORD;
    rand := (rand * RAND_FACTOR + RAND_TERM) % WORD;
    WrapsAgree(nonce * RAND_FACTOR + RAND_TERM, 1, chainId);
    WrapsAgree(nonce * RAND_FACTOR + RAND_TERM + chainId, RAND_FACTOR, RAND_TERM);
    LowBits((nonce * RAND_FACTOR + RAND_TERM + chainId) * RAND_FACTOR + RAND_TERM, height);
    index := rand % Pow2(height);
  }

  lemma WrapsAgree(x: nat, factor: nat, term: nat)
    ensures ((x % WORD) * factor + term) % WORD == (x * factor + term) % WORD
  {
    var q, r := x / WORD, x % WORD;
    var y := r * factor + term;
    assert x * factor + term == (q * factor) * WORD + y by {
      assert (q * WORD + r) * factor == (q * factor) * WORD + r * factor;
    }
    assert (q * factor) * WORD + y == (q * factor + y / WORD) * WORD + y % WORD;
    DivModUnique(x * factor + term, WORD, q * factor + y / WORD, y % WORD);
  }

  lemma LowBits(x: nat, height: nat)
    requires height < 32
    ensures (x % WORD) % Pow2(height) == x % Pow2(height)
  {
    Pow2Small();
    Pow2Add(height, 32 - height);
    ModMod(x, Pow2(height), Pow2(32 - height), WORD);
  }

  lemma ModMod(x: nat, p: nat, w: nat, m: nat)
    requires p > 0 && m > 0 && p * w == m
    ensures (x % m) % p == x % p
  {
    var q, r := x / m, x % m;
    var s, u := r / p, r % p;
    assert q * (p * w) == (q * w) * p;
    assert (q * w + s) * p == (q * w) * p + s * p;
    DivModUnique(x, p, q * w + s, u);
  }

  // ---- the check ----

  function ChainRoot(h: Header, aux: AuxData): H256 {
    RootFrom(BlockHash(h), aux.chainIndex, aux.chainMerkleProof)
  }

  /** Where the chain root must sit in the script. */
  predicate RootPlaced(script: seq<Nibble>, pos: nat) {
    match Find(script, MARKER)
    case Some(m) =>
      && Find(script[m + |MARKER|..], MARKER).None?
      && m + |MARKER| == pos
    case None => pos <= 40
  }

  /** The coinbase script commits to the chain root `text`, in a tree of 2^height leaves, and
      `index` is the slot that the nonce after it assigns. */
  predicate ScriptCommits(script: seq<Nibble>, text: seq<Nibble>, height: nat, index: nat) {
    var found := Find(script, text);
    && found.Some?
    && RootPlaced(script, found.value)
    && var pos := found.value + |text|;
    && |script| - pos >= 16
    && Word(script, pos) == Pow2(height)
    && index == ExpectedIndex(Word(script, pos + 8), DOGECOIN_AUX_CHAIN_ID, height)
  }

  /** All requirements of `check_aux`; `hex` is the text form of a hash. */
  predicate AuxOk(h: Header, aux: AuxData, skipPow: bool, hex: H256 -> seq<Nibble>) {
    && |aux.chainMerkleProof| <= 30
    && HasAuxFlag(h)
    && ChainId(h) == DOGECOIN_AUX_CHAIN_ID != ChainId(aux.parentBlock)
    && RootFrom(aux.coinbaseTxid, 0, aux.merkleProof) == aux.parentBlock.merkleRoot
    && ScriptCommits(aux.scriptSig, hex(ChainRoot(h, aux)), |aux.chainMerkleProof|, aux.chainIndex)
    && (skipPow || aux.parentPowHash.Val() <= Decode(h.bits))
  }

  method CheckAux(h: Header, aux: AuxData, skipPow: bool, hex: H256 -> seq<Nibble>) returns (ok: bool)
    ensures ok == AuxOk(h, aux, skipPow, hex)
  {
    if |aux.chainMerkleProof| > 30 || !HasAuxFlag(h) {
      return false;
    }
    if DOGECOIN_AUX_CHAIN_ID != ChainId(h) || DOGECOIN_AUX_CHAIN_ID == ChainId(aux.parentBlock) {
      return false;
    }
    var chainRoot := ComputeRootFromMerkleProof(BlockHash(h), aux.chainIndex, aux.chainMerkleProof);
    var coinbaseRoot := ComputeRootFromMerkleProof(aux.coinbaseTxid, 0, aux.merkleProof);
    if coinbaseRoot != aux.parentBlock.merkleRoot {
      return false;
    }
    var committed := CheckScript(aux.scriptSig, hex(chainRoot), |aux.chainMerkleProof|, aux.chainIndex);
    if !committed {
      return false;
    }
    var target := TargetFromBits(h.bits);
    ValFaithful(target, aux.parentPowHash);
    return skipPow || !target.Less(aux.parentPowHash);
  }

  /** The part of the check that reads the coinbase script. */
  method CheckScript(script: seq<Nibble>, text: seq<Nibble>, height: nat, index: nat) returns (ok: bool)
    requires height <= 30
    ensures ok == ScriptCommits(script, text, height, index)
  {
    var posMarker := Find(script, MARKER);
    var found := Find(script, text);
    if found.None? {
      return false;
    }
    var posChainRoot := found.value;
    match posMarker {
      case Some(m) =>
        if Find(script[m + |MARKER|..], MARKER).Some? || m + |MARKER| != posChainRoot {
          return false;
        }
      case None =>
        if posChainRoot > 40 {
          return false;
        }
    }
    posChainRoot := posChainRoot + |text|;
    if |script| - posChainRoot < 16 {
      return false;
    }
    var nSize := Word(script, posChainRoot);
    if nSize != Pow2(height) {
      return false;
    }
    var nNonce := Word(script, posChainRoot + 8);
    var expected := GetExpectedIndex(nNonce, DOGECOIN_AUX_CHAIN_ID, height);
    return index == expected;
  }

  // ---- one coinbase, one header ----

  lemma {:induction false} Pow2Injective(a: nat, b: nat)
    requires Pow2(a) == Pow2(b)
    ensures a == b
  {
    if a > 0 && b > 0 {
      Pow2Injective(a - 1, b - 1);
    }
  }

  /** A coinbase script with the merged-mining marker commits to at most one Dogecoin header, as
      long as the text form tells the two chain roots apart: slot, branch length, chain root and
      branch of two accepted headers are all forced equal, and so are the headers. */
  lemma CoinbaseCommitsOnce(h1: Header, aux1: AuxData, h2: Header, aux2: AuxData,
                            skip1: bool, skip2: bool, hex: H256 -> seq<Nibble>)
    requires AuxOk(h1, aux1, skip1, hex) && AuxOk(h2, aux2, skip2, hex)
    requires aux1.scriptSig == aux2.scriptSig && Find(aux1.scriptSig, MARKER).Some?
    requires var text1, text2 := hex(ChainRoot(h1, aux1)), hex(ChainRoot(h2, aux2));
             && |text1| == |text2| == HASH_DIGITS
             && (text1 == text2 ==> ChainRoot(h1, aux1) == ChainRoot(h2, aux2))
    ensures h1 == h2
    ensures aux1.chainIndex == aux2.chainIndex && aux1.chainMerkleProof == aux2.chainMerkleProof
  {
    Pow2Injective(|aux1.chainMerkleProof|, |aux2.chainMerkleProof|);
    RootInjective(BlockHash(h1), BlockHash(h2), aux1.chainIndex,
                  aux1.chainMerkleProof, aux2.chainMerkleProof);
  }
}
