/** Promotion of a heavier fork (`reorg_chain` of `contract/src/lib.rs`) as a pure specification,
    with the intermediate states of its two loops. */
module Reorg {
  import opened Hashing
  import opened ChainState

  /** Follow prev links through the pool to the first main-chain block; `None` where the walk
      meets a hash that is no longer stored. */
  function ForkPoint(c: Chain, k: H256): Option<int> {
    if k in c.byHash then Some(c.byHash[k])
    else if k.OfHeader? && k.header.prev in c.pool then ForkPoint(c, k.header.prev)
    else None
  }

  /** Main-chain blocks above height `j`. */
  function MainAbove(c: Chain, j: int): set<H256> {
    set k | k in c.byHash && c.byHash[k] > j
  }

  /** The block at height `h` of the chain that ends in `e`. */
  function BlockAt(e: ExtendedHeader, h: int): H256 {
    if h <= e.height then Ancestor(e.hash, e.height - h) else e.hash
  }

  /** The branch that ends in `e`, above height `j`. */
  function BranchAbove(e: ExtendedHeader, j: int): set<H256> {
    set h | j < h <= e.height :: BlockAt(e, h)
  }

  /** The state once every height above `j` has been handed over to the branch of `e`. */
  function HandedOver(c: Chain, e: ExtendedHeader, j: int): Chain {
    Chain(KeptHeights(c, j) + BranchHeights(e, j),
          KeptHashes(c, j) + BranchHashes(e, j),
          c.pool - MainAbove(c, j),
          c.tip,
          c.initial)
  }

  function KeptHeights(c: Chain, j: int): map<int, H256> {
    map h | h in c.byHeight && h <= j :: c.byHeight[h]
  }

  function BranchHeights(e: ExtendedHeader, j: int): map<int, H256> {
    map h | j < h <= e.height :: BlockAt(e, h)
  }

  function KeptHashes(c: Chain, j: int): map<H256, int> {
    map k | k in c.byHash && c.byHash[k] <= j :: c.byHash[k]
  }

  function BranchHashes(e: ExtendedHeader, j: int): map<H256, int> {
    map k | k in BranchAbove(e, j) :: e.height - Links(e.hash) + Links(k)
  }

  /** The result of promoting `e` with fork point `p`: the old main chain up to `p`, then the
      branch; the abandoned blocks leave all three maps and nothing else changes. */
  function Promote(c: Chain, e: ExtendedHeader, p: int): Chain {
    HandedOver(c, e, p).(tip := e.hash)
  }

  // ---- the branch ----

  /** A successful walk: every block of the branch is stored and off the main chain, and the
      block at the fork point is on it. */
  lemma {:induction false} ForkPath(c: Chain, a: Anchor, k: H256)
    requires Inv(c, a) && k in c.pool && ForkPoint(c, k).Some?
    ensures var p := ForkPoint(c, k).value;
            && Low(c, a) <= p <= HeightOf(k, a) && p <= High(c, a)
            && HeightOf(k, a) - p <= Links(k)
            && Ancestor(k, HeightOf(k, a) - p) in c.byHash
            && c.byHash[Ancestor(k, HeightOf(k, a) - p)] == p
            && (forall n :: 0 <= n < HeightOf(k, a) - p ==>
                  && Ancestor(k, n) in c.pool
                  && Ancestor(k, n) !in c.byHash)
  {
    var p := ForkPoint(c, k).value;
    if k in c.byHash {
      MainHeight(c, a, k);
    } else {
      var prev := k.header.prev;
      ForkPath(c, a, prev);
      forall n | 0 <= n < HeightOf(k, a) - p
        ensures Ancestor(k, n) in c.pool && Ancestor(k, n) !in c.byHash
      {
        if n > 0 {
          assert Ancestor(k, n) == Ancestor(prev, n - 1);
        }
      }
    }
  }

  /** Blocks of the branch are told apart by their heights. */
  lemma BranchBlock(e: ExtendedHeader, a: Anchor, j: int, k: H256)
    requires EntryOk(e.hash, e, a) && e.height - j <= Links(e.hash) && k in BranchAbove(e, j)
    ensures j < HeightOf(k, a) <= e.height
    ensures k == Ancestor(e.hash, e.height - HeightOf(k, a))
  {
    var h :| j < h <= e.height && k == BlockAt(e, h);
    AncestorLinks(e.hash, e.height - h);
  }

  // ---- the walk, one step at a time ----

  /** The main-chain block at height `j`, if there is one. */
  function OccupantOf(c: Chain, j: int): set<H256> {
    if j in c.byHeight then {c.byHeight[j]} else {}
  }

  /** Handing over height `j` to block `k`: the branch block is inserted, and the main-chain block
      that occupied the height, if any, is dropped. */
  ghost predicate HandsOver(c: Chain, fork: ExtendedHeader, j: int, k: H256) {
    var now, next := HandedOver(c, fork, j), HandedOver(c, fork, j - 1);
    && OccupantOf(now, j) == OccupantOf(c, j)
    && next.byHeight == now.byHeight[j := k]
    && next.byHash == now.byHash[k := j] - OccupantOf(c, j)
    && next.pool == now.pool - OccupantOf(c, j)
  }

  lemma HandOverOne(c: Chain, a: Anchor, e: ExtendedHeader, j: int, cursor: H256)
    requires Inv(c, a) && EntryOk(e.hash, e, a)
    requires 0 <= e.height - j < Links(e.hash) && cursor == BlockAt(e, j)
    requires cursor !in c.byHash
    ensures HandsOver(c, e, j, cursor)
  {
    HandOverHeight(c, e, j, cursor);
    HandOverHash(c, e, j, cursor, a);
    MainOneMore(c, j);
    PoolStep(c.pool, MainAbove(c, j), OccupantOf(c, j));
  }

  lemma PoolStep<K, V>(m: map<K, V>, s: set<K>, t: set<K>)
    ensures m - (s + t) == (m - s) - t
  {
  }

  lemma MainOneMore(c: Chain, j: int)
    requires forall h :: h in c.byHeight ==>
               c.byHeight[h] in c.byHash && c.byHash[c.byHeight[h]] == h
    requires forall k :: k in c.byHash ==>
               c.byHash[k] in c.byHeight && c.byHeight[c.byHash[k]] == k
    ensures MainAbove(c, j - 1) == MainAbove(c, j) + OccupantOf(c, j)
    ensures KeptHashes(c, j - 1) == KeptHashes(c, j) - OccupantOf(c, j)
  {
  }

  lemma HandOverHeight(c: Chain, e: ExtendedHeader, j: int, cursor: H256)
    requires j <= e.height && cursor == BlockAt(e, j)
    ensures HandedOver(c, e, j - 1).byHeight == HandedOver(c, e, j).byHeight[j := cursor]
    ensures OccupantOf(HandedOver(c, e, j), j) == OccupantOf(c, j)
  {
    assert BranchHeights(e, j - 1) == BranchHeights(e, j)[j := cursor];
    HeightStep(c, j, BranchHeights(e, j), cursor);
  }

  lemma HeightStep(c: Chain, j: int, branch: map<int, H256>, k: H256)
    requires j !in branch
    ensures KeptHeights(c, j - 1) + branch[j := k] == (KeptHeights(c, j) + branch)[j := k]
    ensures j in KeptHeights(c, j) + branch <==> j in c.byHeight
    ensures j in c.byHeight ==> (KeptHeights(c, j) + branch)[j] == c.byHeight[j]
  {
  }

  lemma HandOverHash(c: Chain, e: ExtendedHeader, j: int, cursor: H256, a: Anchor)
    requires Inv(c, a) && EntryOk(e.hash, e, a)
    requires 0 <= e.height - j < Links(e.hash) && cursor == BlockAt(e, j)
    requires cursor !in c.byHash
    ensures HandedOver(c, e, j - 1).byHash
            == (HandedOver(c, e, j).byHash[cursor := j]) - OccupantOf(c, j)
  {
    BranchHashStep(e, j, cursor);
    MainOneMore(c, j);
    BranchOffOccupant(c, a, e, j);
    HashStep(KeptHashes(c, j), BranchHashes(e, j), OccupantOf(c, j), cursor, j);
  }

  lemma BranchHashStep(e: ExtendedHeader, j: int, cursor: H256)
    requires 0 <= e.height - j < Links(e.hash) && cursor == BlockAt(e, j)
    ensures BranchHashes(e, j - 1) == BranchHashes(e, j)[cursor := j]
  {
    AncestorLinks(e.hash, e.height - j);
    BranchOneMore(e, j);
  }

  lemma BranchOffOccupant(c: Chain, a: Anchor, e: ExtendedHeader, j: int)
    requires Inv(c, a) && EntryOk(e.hash, e, a) && 0 <= e.height - j < Links(e.hash)
    ensures BranchAbove(e, j) !! OccupantOf(c, j)
  {
    forall k | k in BranchAbove(e, j) ensures k !in OccupantOf(c, j) {
      BranchBlock(e, a, j, k);
      if k in OccupantOf(c, j) {
        MainHeight(c, a, k);
      }
    }
  }

  lemma HashStep<K, V>(kept: map<K, V>, branch: map<K, V>, drop: set<K>, k: K, v: V)
    requires branch.Keys !! drop && k !in drop
    ensures (kept - drop) + branch[k := v] == ((kept + branch)[k := v]) - drop
  {
  }

  lemma BranchOneMore(e: ExtendedHeader, j: int)
    requires j <= e.height
    ensures BranchAbove(e, j - 1) == BranchAbove(e, j) + {BlockAt(e, j)}
  {
    var one, more := BranchAbove(e, j) + {BlockAt(e, j)}, BranchAbove(e, j - 1);
    forall k | k in more ensures k in one {
      var h :| j - 1 < h <= e.height && k == BlockAt(e, h);
    }
    forall k | k in one ensures k in more {
      if k != BlockAt(e, j) {
        var h :| j < h <= e.height && k == BlockAt(e, h);
      }
    }
  }

  /** The walk's tests see the old state: nothing at or below the cursor has changed yet. */
  lemma CursorSees(c: Chain, a: Anchor, e: ExtendedHeader, j: int, k: H256)
    requires Inv(c, a) && EntryOk(e.hash, e, a) && 0 <= e.height - j <= Links(e.hash)
    requires HeightOf(k, a) <= j
    ensures k in HandedOver(c, e, j).byHash <==> k in c.byHash
    ensures k in HandedOver(c, e, j).pool <==> k in c.pool
    ensures k in c.pool ==> HandedOver(c, e, j).pool[k] == c.pool[k]
  {
    if k in BranchAbove(e, j) {
      BranchBlock(e, a, j, k);
    }
    if k in c.byHash {
      MainHeight(c, a, k);
    }
  }

  // ---- the promoted state ----

  /** The premises of a promotion: `e` is stored and its walk reaches the main chain at `p`. */
  ghost predicate Promotable(c: Chain, a: Anchor, e: ExtendedHeader, p: int) {
    && Inv(c, a) && EntryOk(e.hash, e, a)
    && e.hash in c.pool && c.pool[e.hash] == e
    && ForkPoint(c, e.hash) == Some(p)
  }

  /** The whole main chain after a promotion is the prev-link path of the new tip; up to the
      fork point it is the old one. */
  lemma PromotedPath(c: Chain, a: Anchor, e: ExtendedHeader, p: int, h: int)
    requires Promotable(c, a, e, p) && Low(c, a) <= h <= e.height
    ensures Low(c, a) <= p <= e.height && p <= High(c, a) && e.height - p <= Links(e.hash)
    ensures e.height - h <= Links(e.hash)
    ensures h <= p ==> h in c.byHeight && BlockAt(e, h) == c.byHeight[h]
    ensures h > p ==> BlockAt(e, h) in c.pool && BlockAt(e, h) !in c.byHash
  {
    ForkPath(c, a, e.hash);
    DescendsLinks(c.initial, a.genesis);
    if h <= p {
      var fork := Ancestor(e.hash, e.height - p);
      AncestorAdd(e.hash, e.height - p, p - h);
      AncestorAdd(c.tip, High(c, a) - p, p - h);
    }
  }

  lemma PromotedHeights(c: Chain, a: Anchor, e: ExtendedHeader, p: int)
    requires Promotable(c, a, e, p)
    ensures var d := Promote(c, e, p);
            && (forall h :: h in d.byHeight <==> Low(c, a) <= h <= e.height)
            && (forall h :: h in d.byHeight ==> d.byHeight[h] == BlockAt(e, h))
            && (forall h :: h in d.byHeight ==> d.byHeight[h] in d.pool)
            && (forall h :: h in d.byHeight ==> HeightOf(d.byHeight[h], a) == h)
  {
    var d := Promote(c, e, p);
    ForkPath(c, a, e.hash);
    forall h | h in d.byHeight
      ensures d.byHeight[h] == BlockAt(e, h) && d.byHeight[h] in d.pool
      ensures HeightOf(d.byHeight[h], a) == h
    {
      PromotedBlock(c, a, e, p, h);
    }
  }

  /** The block at height `h` of the promoted chain is kept, at its own height. */
  lemma PromotedBlock(c: Chain, a: Anchor, e: ExtendedHeader, p: int, h: int)
    requires Promotable(c, a, e, p) && Low(c, a) <= h <= e.height
    ensures HeightOf(BlockAt(e, h), a) == h
    ensures BlockAt(e, h) in c.pool && BlockAt(e, h) !in MainAbove(c, p)
    ensures h <= p ==> h in c.byHeight && BlockAt(e, h) == c.byHeight[h]
  {
    PromotedPath(c, a, e, p, h);
    AncestorLinks(e.hash, e.height - h);
  }

  lemma PromotedHashes(c: Chain, a: Anchor, e: ExtendedHeader, p: int)
    requires Promotable(c, a, e, p)
    ensures var d := Promote(c, e, p);
            && (forall h :: h in d.byHeight ==>
                  d.byHeight[h] in d.byHash && d.byHash[d.byHeight[h]] == h)
            && (forall k :: k in d.byHash ==>
                  d.byHash[k] in d.byHeight && d.byHeight[d.byHash[k]] == k)
  {
    var d := Promote(c, e, p);
    PromotedHeights(c, a, e, p);
    ForkPath(c, a, e.hash);
    forall h | h in d.byHeight
      ensures d.byHeight[h] in d.byHash && d.byHash[d.byHeight[h]] == h
    {
      PromotedPath(c, a, e, p, h);
      var k := BlockAt(e, h);
      if h <= p && k in BranchAbove(e, p) {
        BranchBlock(e, a, p, k);
      }
    }
    forall k | k in d.byHash
      ensures d.byHash[k] in d.byHeight && d.byHeight[d.byHash[k]] == k
    {
      if k in BranchAbove(e, p) {
        BranchBlock(e, a, p, k);
      } else {
        MainHeight(c, a, k);
        PromotedPath(c, a, e, p, c.byHash[k]);
      }
    }
  }

  lemma PromotedEnds(c: Chain, a: Anchor, e: ExtendedHeader, p: int)
    requires Promotable(c, a, e, p)
    ensures Low(c, a) <= p <= High(c, a) && p <= e.height
    ensures e.hash in Promote(c, e, p).pool && c.initial in Promote(c, e, p).pool
    ensures Ancestor(e.hash, e.height - Low(c, a)) == c.initial
  {
    ForkPath(c, a, e.hash);
    PromotedPath(c, a, e, p, Low(c, a));
    PromotedPath(c, a, e, p, e.height);
  }

  /** Promotion keeps the state valid and never displaces the initial block. */
  lemma PromoteInv(c: Chain, a: Anchor, e: ExtendedHeader, p: int)
    requires Promotable(c, a, e, p)
    ensures Inv(Promote(c, e, p), a)
    ensures Low(c, a) <= p <= High(c, a) && p <= e.height
  {
    var d := Promote(c, e, p);
    PromotedEnds(c, a, e, p);
    PromotedHeights(c, a, e, p);
    PromotedHashes(c, a, e, p);
    assert PoolOk(d.pool, a);
    PathIsMain(d, a, e);
  }

  /** Assembles the main-chain invariant from its parts. */
  lemma PathIsMain(d: Chain, a: Anchor, e: ExtendedHeader)
    requires EntryOk(e.hash, e, a) && d.tip == e.hash
    requires d.tip in d.pool && d.initial in d.pool && Low(d, a) <= e.height
    requires Ancestor(e.hash, e.height - Low(d, a)) == d.initial
    requires forall h :: h in d.byHeight <==> Low(d, a) <= h <= e.height
    requires forall h :: h in d.byHeight ==> d.byHeight[h] == BlockAt(e, h)
    requires forall h :: h in d.byHeight ==> d.byHeight[h] in d.pool
    requires forall h :: h in d.byHeight ==>
               d.byHeight[h] in d.byHash && d.byHash[d.byHeight[h]] == h
    requires forall k :: k in d.byHash ==>
               d.byHash[k] in d.byHeight && d.byHeight[d.byHash[k]] == k
    ensures MainOk(d, a)
  {
  }

  /** What a promotion drops: exactly the main-chain blocks that are not ancestors of the new tip
      leave the pool, every other record stays as it is, and the main chain becomes exactly the
      kept main-chain blocks and the branch. */
  lemma AbandonedExactly(c: Chain, a: Anchor, e: ExtendedHeader, p: int, k: H256)
    requires Promotable(c, a, e, p)
    ensures var d := Promote(c, e, p);
            && (k in d.pool <==> k in c.pool && (k in c.byHash ==> k in d.byHash))
            && (k in d.pool ==> d.pool[k] == c.pool[k])
            && (k in d.byHash <==> (k in c.byHash && c.byHash[k] <= p) || k in BranchAbove(e, p))
            && (k in BranchAbove(e, p) ==> k !in c.byHash)
  {
    if k in BranchAbove(e, p) {
      ForkPath(c, a, e.hash);
      BranchBlock(e, a, p, k);
      PromotedPath(c, a, e, p, HeightOf(k, a));
    }
    if k in c.byHash {
      MainHeight(c, a, k);
    }
  }

  /** The `n`-th ancestor of `k` is on the main chain and everything before it is stored. */
  ghost predicate ReachesMain(c: Chain, k: H256, n: nat) {
    && n <= Links(k) && Ancestor(k, n) in c.byHash
    && forall m: nat :: m < n ==> Ancestor(k, m) in c.pool
  }

  /** A promotion fails exactly when stored prev links do not lead to the stored main chain; in
      particular a fork that leaves it below the initial block can only fail. */
  lemma WalkSucceedsIff(c: Chain, a: Anchor, k: H256)
    requires Inv(c, a) && k in c.pool
    ensures ForkPoint(c, k).Some? <==> exists n: nat :: ReachesMain(c, k, n)
  {
    if ForkPoint(c, k).Some? {
      var n := WalkLength(c, a, k);
    }
    forall n: nat | ReachesMain(c, k, n) ensures ForkPoint(c, k).Some? {
      WalkArrives(c, a, k, n);
    }
  }

  lemma WalkLength(c: Chain, a: Anchor, k: H256) returns (n: nat)
    requires Inv(c, a) && k in c.pool && ForkPoint(c, k).Some?
    ensures ReachesMain(c, k, n)
  {
    ForkPath(c, a, k);
    n := HeightOf(k, a) - ForkPoint(c, k).value;
  }

  lemma {:induction false} WalkArrives(c: Chain, a: Anchor, k: H256, n: nat)
    requires Inv(c, a) && ReachesMain(c, k, n)
    ensures ForkPoint(c, k).Some?
    decreases n
  {
    if n > 0 && k !in c.byHash {
      var prev := k.header.prev;
      forall m: nat | m < n - 1 ensures Ancestor(prev, m) in c.pool {
        assert Ancestor(k, m + 1) == Ancestor(prev, m);
      }
      assert prev in c.pool by {
        if n == 1 {
          MainHeight(c, a, prev);
        } else {
          assert Ancestor(k, 1) == prev;
        }
      }
      WalkArrives(c, a, prev, n - 1);
    }
  }

  // ---- the first loop: main-chain blocks above the fork tip ----

  /** The state once the main-chain blocks at heights strictly between `from` and `upto` are gone. */
  function Trimmed(c: Chain, from: int, upto: int): Chain {
    Chain(map h | h in c.byHeight && !(from < h < upto) :: c.byHeight[h],
          map k | k in c.byHash && !(from < c.byHash[k] < upto) :: c.byHash[k],
          c.pool - (set k | k in c.byHash && from < c.byHash[k] < upto),
          c.tip,
          c.initial)
  }

  lemma TrimNone(c: Chain, from: int)
    ensures Trimmed(c, from, from + 1) == c
  {
    assert (set k | k in c.byHash && from < c.byHash[k] < from + 1) == {};
  }

  lemma TrimOne(c: Chain, from: int, h: int)
    requires from < h && h in c.byHeight
    requires c.byHeight[h] in c.byHash && c.byHash[c.byHeight[h]] == h
    requires forall k :: k in c.byHash && c.byHash[k] == h ==> k == c.byHeight[h]
    ensures var now, next, k := Trimmed(c, from, h), Trimmed(c, from, h + 1), c.byHeight[h];
            && h in now.byHeight && now.byHeight[h] == k
            && next.byHeight == now.byHeight - {h}
            && next.byHash == now.byHash - {k}
            && next.pool == now.pool - {k}
  {
    var k := c.byHeight[h];
    var gone, more := set x | x in c.byHash && from < c.byHash[x] < h,
                      set x | x in c.byHash && from < c.byHash[x] < h + 1;
    assert more == gone + {k};
    PoolStep(c.pool, gone, {k});
  }

  /** After the first loop the walk starts with nothing handed over yet. */
  lemma TrimmedIsStart(c: Chain, e: ExtendedHeader, last: int)
    requires forall h :: h in c.byHeight ==> h <= last
    requires forall k :: k in c.byHash ==> c.byHash[k] <= last
    ensures Trimmed(c, e.height, last + 1) == HandedOver(c, e, e.height)
  {
    NothingHandedOver(c, e);
    var start, trimmed := HandedOver(c, e, e.height), Trimmed(c, e.height, last + 1);
    assert trimmed.byHeight == start.byHeight;
    assert trimmed.byHash == start.byHash;
    assert MainAbove(c, e.height) == set k | k in c.byHash && e.height < c.byHash[k] < last + 1;
  }

  lemma NothingHandedOver(c: Chain, e: ExtendedHeader)
    ensures HandedOver(c, e, e.height).byHeight == KeptHeights(c, e.height)
    ensures HandedOver(c, e, e.height).byHash == KeptHashes(c, e.height)
  {
    assert BranchAbove(e, e.height) == {};
    assert BranchHeights(e, e.height) == map[];
    assert BranchHashes(e, e.height) == map[];
  }

  /** When the main chain does not reach above the fork tip there is nothing to trim. */
  lemma NothingToTrim(c: Chain, e: ExtendedHeader, last: int)
    requires last <= e.height
    requires forall h :: h in c.byHeight ==> h <= last
    requires forall k :: k in c.byHash ==> c.byHash[k] <= last
    ensures c == HandedOver(c, e, e.height)
  {
    NothingHandedOver(c, e);
    assert MainAbove(c, e.height) == {};
    assert KeptHashes(c, e.height) == c.byHash;
    assert KeptHeights(c, e.height) == c.byHeight;
  }

  /** If the first loop would leave the main chain, the walk cannot succeed either. */
  lemma ShortForkFails(c: Chain, a: Anchor, e: ExtendedHeader)
    requires Inv(c, a) && EntryOk(e.hash, e, a) && e.hash in c.pool && e.height + 1 < Low(c, a)
    ensures ForkPoint(c, e.hash).None?
  {
    if ForkPoint(c, e.hash).Some? {
      ForkPath(c, a, e.hash);
    }
  }
}
