/** The stored chain of `contract/src/lib.rs` as a value: the three maps and two pointers, what
    holds of them in every reachable state, and what extending, promoting a fork and garbage
    collecting do to them. */
module ChainState {
  import opened Wide
  import opened Hashing

  datatype ExtendedHeader = ExtendedHeader(header: Header, hash: H256, work: U256, height: int)

  datatype Chain = Chain(
    byHeight: map<int, H256>,          // mainchain_height_to_header
    byHash: map<H256, int>,            // mainchain_header_to_height
    pool: map<H256, ExtendedHeader>,   // headers_pool
    tip: H256,
    initial: H256)

  /** The block the contract was initialised with. */
  datatype Anchor = Anchor(genesis: H256, height: nat)

  // ---- walking prev links ----

  /** Length of the chain of headers a hash commits to. */
  function Links(k: H256): nat {
    if k.OfHeader? then 1 + Links(k.header.prev) else 0
  }

  function Ancestor(k: H256, n: nat): H256
    decreases n
  {
    if n == 0 then k else if k.OfHeader? then Ancestor(k.header.prev, n - 1) else k
  }

  lemma {:induction false} AncestorLinks(k: H256, n: nat)
    requires n <= Links(k)
    ensures Links(Ancestor(k, n)) == Links(k) - n
    decreases n
  {
    if n > 0 {
      AncestorLinks(k.header.prev, n - 1);
    }
  }

  lemma {:induction false} AncestorAdd(k: H256, m: nat, n: nat)
    requires m <= Links(k)
    ensures Ancestor(Ancestor(k, m), n) == Ancestor(k, m + n)
    decreases m
  {
    if m > 0 {
      AncestorAdd(k.header.prev, m - 1, n);
    }
  }

  predicate Descends(k: H256, genesis: H256) {
    k == genesis || (k.OfHeader? && Descends(k.header.prev, genesis))
  }

  lemma {:induction false} DescendsLinks(k: H256, genesis: H256)
    requires Descends(k, genesis)
    ensures Links(k) >= Links(genesis)
    ensures Links(k) == Links(genesis) ==> k == genesis
  {
    if k != genesis {
      DescendsLinks(k.header.prev, genesis);
    }
  }

  function HeightOf(k: H256, a: Anchor): int {
    a.height + Links(k) - Links(a.genesis)
  }

  // ---- the invariant ----

  /** A pool entry sits under its own hash, at the height its prev links give it. */
  ghost predicate EntryOk(k: H256, e: ExtendedHeader, a: Anchor) {
    && k == OfHeader(e.header) == e.hash
    && Descends(k, a.genesis)
    && e.height == HeightOf(k, a)
  }

  ghost predicate PoolOk(pool: map<H256, ExtendedHeader>, a: Anchor) {
    forall k :: k in pool ==> EntryOk(k, pool[k], a)
  }

  ghost function Low(c: Chain, a: Anchor): int { HeightOf(c.initial, a) }

  ghost function High(c: Chain, a: Anchor): int { HeightOf(c.tip, a) }

  /** The main chain is the prev-link path from the tip down to the initial block, indexed both
      ways, and every block of it is in the pool. */
  ghost predicate MainOk(c: Chain, a: Anchor) {
    && c.tip in c.pool && c.initial in c.pool
    && Low(c, a) <= High(c, a)
    && Ancestor(c.tip, High(c, a) - Low(c, a)) == c.initial
    && (forall h :: h in c.byHeight <==> Low(c, a) <= h <= High(c, a))
    && (forall h :: h in c.byHeight ==>
          && c.byHeight[h] == Ancestor(c.tip, High(c, a) - h)
          && c.byHeight[h] in c.pool)
    && (forall h :: h in c.byHeight ==>
          c.byHeight[h] in c.byHash && c.byHash[c.byHeight[h]] == h)
    && (forall k :: k in c.byHash ==>
          c.byHash[k] in c.byHeight && c.byHeight[c.byHash[k]] == k)
  }

  ghost predicate Inv(c: Chain, a: Anchor) {
    a.genesis.OfHeader? && PoolOk(c.pool, a) && MainOk(c, a)
  }

  /** In a valid state a main-chain hash sits at its own height. */
  lemma MainHeight(c: Chain, a: Anchor, k: H256)
    requires Inv(c, a) && k in c.byHash
    ensures k in c.pool && c.byHash[k] == HeightOf(k, a) == c.pool[k].height
  {
    var h := c.byHash[k];
    DescendsLinks(c.initial, a.genesis);
    AncestorLinks(c.tip, High(c, a) - h);
  }

  // ---- extending and storing ----

  function Extend(c: Chain, e: ExtendedHeader): Chain {
    Chain(c.byHeight[e.height := e.hash], c.byHash[e.hash := e.height],
          c.pool[e.hash := e], e.hash, c.initial)
  }

  function StoreFork(c: Chain, e: ExtendedHeader): Chain {
    c.(pool := c.pool[e.hash := e])
  }

  /** A header on top of the tip keeps the state valid. */
  lemma ExtendInv(c: Chain, a: Anchor, e: ExtendedHeader)
    requires Inv(c, a) && EntryOk(e.hash, e, a) && e.header.prev == c.tip
    ensures Inv(Extend(c, e), a)
  {
    ChildOffMain(c, a, e);
    PoolStores(c.pool, a, e);
    ExtendMain(c, a, e);
  }

  lemma PoolStores(pool: map<H256, ExtendedHeader>, a: Anchor, e: ExtendedHeader)
    requires PoolOk(pool, a) && EntryOk(e.hash, e, a)
    ensures PoolOk(pool[e.hash := e], a)
  {
    var stored := pool[e.hash := e];
    forall k | k in stored ensures EntryOk(k, stored[k], a) {
      if k != e.hash {
        assert EntryOk(k, pool[k], a);
      }
    }
  }

  lemma ExtendMain(c: Chain, a: Anchor, e: ExtendedHeader)
    requires MainOk(c, a) && e.hash == OfHeader(e.header) && e.header.prev == c.tip
    requires e.height == High(c, a) + 1 && e.hash !in c.byHash
    ensures MainOk(Extend(c, e), a)
  {
    ExtendIndex(c, e, High(c, a));
    assert High(Extend(c, e), a) == e.height;
    assert Ancestor(e.hash, High(c, a) + 1 - Low(c, a)) == c.initial;
  }

  lemma ChildOffMain(c: Chain, a: Anchor, e: ExtendedHeader)
    requires Inv(c, a) && EntryOk(e.hash, e, a) && e.header.prev == c.tip
    ensures e.hash !in c.byHash && e.height == High(c, a) + 1
  {
    if e.hash in c.byHash {
      MainHeight(c, a, e.hash);
    }
  }

  /** The two indexes stay inverse, and the path of the old tip is the path of the new one. */
  lemma ExtendIndex(c: Chain, e: ExtendedHeader, high: int)
    requires e.hash == OfHeader(e.header) && e.header.prev == c.tip && e.height == high + 1
    requires forall h :: h in c.byHeight ==> h <= high
    requires forall h :: h in c.byHeight ==> c.byHeight[h] == Ancestor(c.tip, high - h)
    requires forall h :: h in c.byHeight ==> c.byHeight[h] in c.byHash && c.byHash[c.byHeight[h]] == h
    requires forall k :: k in c.byHash ==> c.byHash[k] in c.byHeight && c.byHeight[c.byHash[k]] == k
    requires e.hash !in c.byHash
    ensures var d := Extend(c, e);
            && (forall h :: h in d.byHeight ==> h <= high + 1 && d.byHeight[h] == Ancestor(d.tip, high + 1 - h))
            && (forall h :: h in d.byHeight ==> d.byHeight[h] in d.byHash && d.byHash[d.byHeight[h]] == h)
            && (forall k :: k in d.byHash ==> d.byHash[k] in d.byHeight && d.byHeight[d.byHash[k]] == k)
  {
  }

  lemma StoreForkInv(c: Chain, a: Anchor, e: ExtendedHeader)
    requires Inv(c, a) && EntryOk(e.hash, e, a)
    ensures Inv(StoreFork(c, e), a)
  {
    PoolStores(c.pool, a, e);
    StoreMain(c, a, e);
  }

  lemma StoreMain(c: Chain, a: Anchor, e: ExtendedHeader)
    requires MainOk(c, a)
    ensures MainOk(StoreFork(c, e), a)
  {
  }

  // ---- sealing ----

  /** Let the sealed predicates about `s` be proved and be used. */
  predicate Seal(s: Chain, h: int, n: int) { true }
  predicate Unseal(s: Chain, h: int, n: int) { true }

  /** The invariant behind a trigger, for proofs that pass it on without unfolding it. */
  ghost predicate Tidy(c: Chain, a: Anchor) {
    exists m {:trigger Seal(c, -2, m)} :: Seal(c, -2, m) &&
      forall n {:trigger Unseal(c, -2, n)} :: Unseal(c, -2, n) ==> Inv(c, a)
  }

  lemma TidyIff(c: Chain, a: Anchor)
    ensures Tidy(c, a) <==> Inv(c, a)
  {
    assert Seal(c, -2, 0) && Unseal(c, -2, 0);
  }
}
