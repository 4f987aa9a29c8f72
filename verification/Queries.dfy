/** The contract view of the newest main-chain hashes (`get_last_n_blocks_hashes` of
    `contract/src/lib.rs`). */
module Queries {
  import opened Arith
  import opened Hashing
  import opened ChainState

  /** Main-chain hashes at heights `from..=upto`. */
  function MainRange(c: Chain, from: int, upto: int): seq<H256>
    decreases upto - from + 1
  {
    if from > upto then []
    else (if from in c.byHeight then [c.byHeight[from]] else []) + MainRange(c, from + 1, upto)
  }

  /** `None` is a panic: a missing end block, or a height below zero. */
  function RecentHashes(c: Chain, skip: nat, limit: nat): Option<seq<H256>> {
    if c.tip !in c.pool || c.initial !in c.pool then None
    else
      var high := c.pool[c.tip].height;
      if limit + skip > high then None
      else Some(MainRange(c, Max(c.pool[c.initial].height, high - limit - skip + 1), high - skip))
  }

  lemma {:induction false} MainRangeAt(c: Chain, from: int, upto: int, i: nat)
    requires forall h :: from <= h <= upto ==> h in c.byHeight
    requires i <= upto - from
    ensures |MainRange(c, from, upto)| == upto - from + 1
    ensures MainRange(c, from, upto)[i] == c.byHeight[from + i]
    decreases upto - from
  {
    if from < upto {
      MainRangeAt(c, from + 1, upto, if i > 0 then i - 1 else 0);
    }
  }

  /** In a valid state the view returns the newest hashes after the skipped ones, oldest first,
      each linked to the next, as many as asked for and stored. */
  lemma RecentHashesAreLinked(c: Chain, a: Anchor, skip: nat, limit: nat)
    requires Inv(c, a)
    ensures RecentHashes(c, skip, limit).Some? <==> limit + skip <= High(c, a)
    ensures RecentHashes(c, skip, limit).Some? ==>
              var hashes := RecentHashes(c, skip, limit).value;
              && |hashes| == Max(0, Min(limit, High(c, a) - skip - Low(c, a) + 1))
              && forall i :: 0 <= i < |hashes| ==> hashes[i] == Ancestor(c.tip, skip + (|hashes| - 1 - i))
  {
    RecentForm(c, Low(c, a), High(c, a), skip, limit);
  }

  lemma RecentForm(c: Chain, low: int, high: int, skip: nat, limit: nat)
    requires c.tip in c.pool && c.pool[c.tip].height == high
    requires c.initial in c.pool && c.pool[c.initial].height == low
    requires forall h :: low <= h <= high ==> h in c.byHeight && c.byHeight[h] == Ancestor(c.tip, high - h)
    ensures RecentHashes(c, skip, limit).Some? <==> limit + skip <= high
    ensures RecentHashes(c, skip, limit).Some? ==>
              var hashes := RecentHashes(c, skip, limit).value;
              && |hashes| == Max(0, Min(limit, high - skip - low + 1))
              && forall i :: 0 <= i < |hashes| ==> hashes[i] == Ancestor(c.tip, skip + (|hashes| - 1 - i))
  {
    var start := Max(low, high - limit - skip + 1);
    if limit + skip <= high && start <= high - skip {
      RangeIsPath(c, high, start, skip);
    }
  }

  lemma RangeIsPath(c: Chain, high: int, start: int, skip: nat)
    requires start <= high - skip
    requires forall h :: start <= h <= high ==> h in c.byHeight && c.byHeight[h] == Ancestor(c.tip, high - h)
    ensures var hashes, n := MainRange(c, start, high - skip), high - skip - start + 1;
            && |hashes| == n
            && forall i :: 0 <= i < n ==> hashes[i] == Ancestor(c.tip, skip + (n - 1 - i))
  {
    var end := high - skip;
    MainRangeAt(c, start, end, 0);
    forall i: nat | i <= end - start
      ensures MainRange(c, start, end)[i] == Ancestor(c.tip, skip + (end - start - i))
    {
      MainRangeAt(c, start, end, i);
      assert high - (start + i) == skip + (end - start - i);
    }
  }
}
