/** The loops of a reorganisation, one round at a time. Each loop's invariant is one predicate that
    keeps its facts behind a trigger, so that the imperative code hands it from round to round
    without unfolding it. */
module ReorgSteps {
  import opened Hashing
  import opened ChainState
  import opened Reorg

  /** A valid state that stores `fork`. */
  ghost predicate Ready(c: Chain, a: Anchor, fork: ExtendedHeader) {
    && Inv(c, a) && EntryOk(fork.hash, fork, a)
    && fork.hash in c.pool && c.pool[fork.hash] == fork
  }

  ghost predicate ForkReady(c: Chain, a: Anchor, fork: ExtendedHeader) {
    exists m {:trigger Seal(c, 0, m)} :: Seal(c, 0, m) &&
      forall n {:trigger Unseal(c, 0, n)} :: Unseal(c, 0, n) ==> Ready(c, a, fork)
  }

  // ---- removal of main-chain blocks above the fork tip ----

  /** State `s` of the removal loop up to height `last` that started in `c`, before height `h`. */
  ghost predicate Trimming(s: Chain, c: Chain, a: Anchor, fork: ExtendedHeader, last: int, h: int) {
    exists m {:trigger Seal(s, h, m)} :: Seal(s, h, m) && forall n {:trigger Unseal(s, h, n)} :: Unseal(s, h, n) ==>
      && Ready(c, a, fork)
      && s == Trimmed(c, fork.height, h)
      && last == High(c, a)
      && fork.height < h <= last + 1
      && (h > fork.height + 1 ==> fork.height + 1 >= Low(c, a))
  }

  lemma TrimStart(c: Chain, a: Anchor, fork: ExtendedHeader, last: int)
    requires ForkReady(c, a, fork) && last == High(c, a) >= fork.height
    ensures Trimming(c, c, a, fork, last, fork.height + 1)
  {
    assert Seal(c, fork.height + 1, 0);
    assert Unseal(c, 0, 0);
    TrimNone(c, fork.height);
  }

  lemma TrimFails(s: Chain, c: Chain, a: Anchor, fork: ExtendedHeader, last: int, h: int)
    requires Trimming(s, c, a, fork, last, h) && h <= last && h !in s.byHeight
    ensures ForkPoint(c, fork.hash).None?
  {
    assert Unseal(s, h, 0);
    ShortForkFails(c, a, fork);
  }

  /** `s` without its main-chain block at height `h`. */
  function Without(s: Chain, h: int): Chain {
    if h in s.byHeight then
      var k := s.byHeight[h];
      Chain(s.byHeight - {h}, s.byHash - {k}, s.pool - {k}, s.tip, s.initial)
    else s
  }

  lemma TrimRound(s: Chain, c: Chain, a: Anchor, fork: ExtendedHeader, last: int, h: int)
    requires Trimming(s, c, a, fork, last, h) && h <= last && h in s.byHeight
    ensures Trimming(Without(s, h), c, a, fork, last, h + 1)
  {
    assert Seal(Without(s, h), h + 1, 0) && Unseal(s, h, 0);
    assert h in c.byHeight && s.byHeight[h] == c.byHeight[h];
    MainUnique(c, a, h);
    TrimOne(c, fork.height, h);
  }

  lemma MainUnique(c: Chain, a: Anchor, h: int)
    requires Inv(c, a) && h in c.byHeight
    ensures c.byHeight[h] in c.byHash && c.byHash[c.byHeight[h]] == h
    ensures forall k :: k in c.byHash && c.byHash[k] == h ==> k == c.byHeight[h]
  {
  }

  // ---- the cursor loop ----

  /** The cursor is a stored block of the branch, and the walk from it decides the outcome. */
  ghost predicate OnBranch(c: Chain, fork: ExtendedHeader, cursor: ExtendedHeader) {
    exists m {:trigger Seal(c, cursor.height, m)} :: Seal(c, cursor.height, m) &&
      forall n {:trigger Unseal(c, cursor.height, n)} :: Unseal(c, cursor.height, n) ==>
        && cursor.hash in c.pool && c.pool[cursor.hash] == cursor
        && 0 <= fork.height - cursor.height < Links(fork.hash)
        && cursor.hash == BlockAt(fork, cursor.height)
        && ForkPoint(c, cursor.hash) == ForkPoint(c, fork.hash)
  }

  ghost predicate Handed(s: Chain, c: Chain, fork: ExtendedHeader, j: int) {
    exists m {:trigger Seal(s, j, m)} :: Seal(s, j, m) &&
      forall n {:trigger Unseal(s, j, n)} :: Unseal(s, j, n) ==> s == HandedOver(c, fork, j)
  }

  /** State `s` of the cursor loop that started in `c`, at `cursor`. */
  ghost predicate Walking(s: Chain, c: Chain, a: Anchor, fork: ExtendedHeader, cursor: ExtendedHeader) {
    ForkReady(c, a, fork) && OnBranch(c, fork, cursor) && Handed(s, c, fork, cursor.height)
  }

  lemma ForkOnBranch(c: Chain, a: Anchor, fork: ExtendedHeader)
    requires ForkReady(c, a, fork)
    ensures OnBranch(c, fork, fork)
  {
    assert Unseal(c, 0, 0) && Seal(c, fork.height, 0);
  }

  lemma WalkAfterTrim(s: Chain, c: Chain, a: Anchor, fork: ExtendedHeader, last: int)
    requires ForkReady(c, a, fork) && Trimming(s, c, a, fork, last, last + 1)
    ensures Walking(s, c, a, fork, fork)
  {
    assert Unseal(s, last + 1, 0) && Seal(s, fork.height, 0);
    MainBelowTip(c, a);
    TrimmedIsStart(c, fork, last);
    ForkOnBranch(c, a, fork);
  }

  lemma MainBelowTip(c: Chain, a: Anchor)
    requires Inv(c, a)
    ensures forall h :: h in c.byHeight ==> h <= High(c, a)
    ensures forall k :: k in c.byHash ==> c.byHash[k] <= High(c, a)
  {
  }

  lemma WalkAtOnce(c: Chain, a: Anchor, fork: ExtendedHeader)
    requires ForkReady(c, a, fork) && High(c, a) <= fork.height
    ensures Walking(c, c, a, fork, fork)
  {
    assert Unseal(c, 0, 0) && Seal(c, fork.height, 0);
    NothingToTrim(c, fork, High(c, a));
    ForkOnBranch(c, a, fork);
  }

  /** The loop test sees the old main chain. */
  lemma SeesOldMain(s: Chain, c: Chain, a: Anchor, fork: ExtendedHeader, cursor: ExtendedHeader)
    requires Walking(s, c, a, fork, cursor)
    ensures cursor.hash in s.byHash <==> cursor.hash in c.byHash
  {
    assert Unseal(c, 0, 0) && Unseal(c, cursor.height, 0) && Unseal(s, cursor.height, 0);
    CursorSees(c, a, fork, cursor.height, cursor.hash);
  }

  /** When the loop stops, the branch has been handed over down to the fork point. */
  lemma WalkStops(s: Chain, c: Chain, a: Anchor, fork: ExtendedHeader, cursor: ExtendedHeader)
    requires Walking(s, c, a, fork, cursor) && cursor.hash in s.byHash
    ensures ForkPoint(c, fork.hash) == Some(cursor.height)
    ensures s == HandedOver(c, fork, cursor.height)
  {
    SeesOldMain(s, c, a, fork, cursor);
    assert Unseal(c, 0, 0) && Unseal(c, cursor.height, 0) && Unseal(s, cursor.height, 0);
    MainHeight(c, a, cursor.hash);
  }

  /** One round: insert the cursor at its height, drop the occupant, move to the parent. */
  lemma WalkRound(s: Chain, t: Chain, c: Chain, a: Anchor, fork: ExtendedHeader, cursor: ExtendedHeader)
    requires Walking(s, c, a, fork, cursor) && cursor.hash !in s.byHash
    requires t.byHeight == s.byHeight[cursor.height := cursor.hash]
    requires t.byHash == s.byHash[cursor.hash := cursor.height] - OccupantOf(s, cursor.height)
    requires t.pool == s.pool - OccupantOf(s, cursor.height)
    requires t.tip == s.tip && t.initial == s.initial
    ensures cursor.header.prev !in t.pool ==> ForkPoint(c, fork.hash).None?
    ensures cursor.header.prev in t.pool ==>
              && Walking(t, c, a, fork, t.pool[cursor.header.prev])
              && t.pool[cursor.header.prev].hash == cursor.header.prev
              && cursor.hash == OfHeader(cursor.header)
  {
    SeesOldMain(s, c, a, fork, cursor);
    HandOverRound(s, t, c, a, fork, cursor);
    BranchStep(c, a, fork, cursor);
    SeesOldPool(t, c, a, fork, cursor);
  }

  lemma HandOverRound(s: Chain, t: Chain, c: Chain, a: Anchor, fork: ExtendedHeader, cursor: ExtendedHeader)
    requires Walking(s, c, a, fork, cursor) && cursor.hash !in c.byHash
    requires t.byHeight == s.byHeight[cursor.height := cursor.hash]
    requires t.byHash == s.byHash[cursor.hash := cursor.height] - OccupantOf(s, cursor.height)
    requires t.pool == s.pool - OccupantOf(s, cursor.height)
    requires t.tip == s.tip && t.initial == s.initial
    ensures Handed(t, c, fork, cursor.height - 1)
  {
    BranchHandsOver(c, a, fork, cursor);
    HandedMatches(s, t, c, fork, cursor.height, cursor.hash);
  }

  lemma BranchHandsOver(c: Chain, a: Anchor, fork: ExtendedHeader, cursor: ExtendedHeader)
    requires ForkReady(c, a, fork) && OnBranch(c, fork, cursor) && cursor.hash !in c.byHash
    ensures HandsOver(c, fork, cursor.height, cursor.hash)
  {
    assert Unseal(c, 0, 0) && Unseal(c, cursor.height, 0);
    HandOverOne(c, a, fork, cursor.height, cursor.hash);
  }

  lemma HandedMatches(s: Chain, t: Chain, c: Chain, fork: ExtendedHeader, j: int, k: H256)
    requires Handed(s, c, fork, j) && HandsOver(c, fork, j, k)
    requires t.byHeight == s.byHeight[j := k]
    requires t.byHash == s.byHash[k := j] - OccupantOf(s, j)
    requires t.pool == s.pool - OccupantOf(s, j)
    requires t.tip == s.tip && t.initial == s.initial
    ensures Handed(t, c, fork, j - 1)
  {
    assert Unseal(s, j, 0) && Seal(t, j - 1, 0);
    SameChain(t, HandedOver(c, fork, j - 1));
  }

  lemma SameChain(s: Chain, t: Chain)
    requires s.byHeight == t.byHeight && s.byHash == t.byHash && s.pool == t.pool
    requires s.tip == t.tip && s.initial == t.initial
    ensures s == t
  {
  }

  lemma SeesOldPool(t: Chain, c: Chain, a: Anchor, fork: ExtendedHeader, cursor: ExtendedHeader)
    requires ForkReady(c, a, fork) && OnBranch(c, fork, cursor) && Handed(t, c, fork, cursor.height - 1)
    ensures var prev := cursor.header.prev;
            (prev in t.pool <==> prev in c.pool) && (prev in t.pool ==> t.pool[prev] == c.pool[prev])
  {
    assert Unseal(c, 0, 0) && Unseal(c, cursor.height, 0) && Unseal(t, cursor.height - 1, 0);
    BranchParent(fork, a, cursor);
    CursorSees(c, a, fork, cursor.height - 1, cursor.header.prev);
  }

  lemma BranchStep(c: Chain, a: Anchor, fork: ExtendedHeader, cursor: ExtendedHeader)
    requires ForkReady(c, a, fork) && OnBranch(c, fork, cursor) && cursor.hash !in c.byHash
    ensures cursor.hash == OfHeader(cursor.header)
    ensures var prev := cursor.header.prev;
            && (prev !in c.pool ==> ForkPoint(c, fork.hash).None?)
            && (prev in c.pool ==>
                  && OnBranch(c, fork, c.pool[prev]) && c.pool[prev].hash == prev
                  && c.pool[prev].height == cursor.height - 1)
  {
    assert Unseal(c, 0, 0) && Unseal(c, cursor.height, 0) && Seal(c, cursor.height - 1, 0);
    BranchParent(fork, a, cursor);
  }

  /** The parent of a branch block is the branch block one height below. */
  lemma BranchParent(fork: ExtendedHeader, a: Anchor, cursor: ExtendedHeader)
    requires EntryOk(fork.hash, fork, a) && EntryOk(cursor.hash, cursor, a)
    requires 0 <= fork.height - cursor.height < Links(fork.hash)
    requires cursor.hash == BlockAt(fork, cursor.height)
    ensures cursor.header.prev == BlockAt(fork, cursor.height - 1)
    ensures HeightOf(cursor.header.prev, a) == cursor.height - 1
    ensures Links(cursor.header.prev) > 0 ==> fork.height - (cursor.height - 1) < Links(fork.hash)
  {
    var n := fork.height - cursor.height;
    AncestorLinks(fork.hash, n);
    AncestorAdd(fork.hash, n, 1);
    assert Ancestor(cursor.hash, 1) == cursor.header.prev;
  }
}
