/** Garbage collection of the oldest main-chain blocks (`run_mainchain_gc` of
    `contract/src/lib.rs`) as a pure specification. */
module Pruning {
  import opened Arith
  import opened Hashing
  import opened ChainState

  /** The state without the main-chain blocks below height `floor`. */
  function PruneTo(c: Chain, floor: int): Chain {
    Chain(
      map h | h in c.byHeight && h >= floor :: c.byHeight[h],
      map k | k in c.byHash && c.byHash[k] >= floor :: c.byHash[k],
      c.pool - MainBelow(c, floor),
      c.tip,
      if floor in c.byHeight then c.byHeight[floor] else c.initial)
  }

  function MainBelow(c: Chain, floor: int): set<H256> {
    set k | k in c.byHash && c.byHash[k] < floor
  }

  /** How many blocks a call removes from a chain of `size` blocks. */
  function Quota(size: int, threshold: nat, batch: nat): int {
    if size > threshold then Min(size - threshold, batch) else 0
  }

  /** `None` is the panic when no block would be left to become the initial one. */
  function Gc(c: Chain, threshold: nat, batch: nat): Option<Chain> {
    if c.initial !in c.pool || c.tip !in c.pool then None
    else
      var low := c.pool[c.initial].height;
      var size := c.pool[c.tip].height - low + 1;
      if size <= threshold then Some(c)
      else
        var floor := low + Quota(size, threshold, batch);
        if floor in c.byHeight then Some(PruneTo(c, floor)) else None
  }

  lemma PruneInv(c: Chain, a: Anchor, floor: int)
    requires Inv(c, a) && Low(c, a) <= floor <= High(c, a)
    ensures Inv(PruneTo(c, floor), a)
    ensures Low(PruneTo(c, floor), a) == floor && PruneTo(c, floor).tip == c.tip
  {
    DescendsLinks(c.initial, a.genesis);
    AncestorLinks(c.tip, High(c, a) - floor);
    FloorHeight(c, a, floor);
    PruneMain(c, a, floor);
    PrunePool(c.pool, MainBelow(c, floor), a);
  }

  lemma FloorHeight(c: Chain, a: Anchor, floor: int)
    requires Inv(c, a) && Low(c, a) <= floor <= High(c, a)
    ensures floor in c.byHeight && HeightOf(c.byHeight[floor], a) == floor
  {
    DescendsLinks(c.initial, a.genesis);
    AncestorLinks(c.tip, High(c, a) - floor);
  }

  lemma PrunePool(pool: map<H256, ExtendedHeader>, gone: set<H256>, a: Anchor)
    requires PoolOk(pool, a)
    ensures PoolOk(pool - gone, a)
  {
  }

  lemma PruneMain(c: Chain, a: Anchor, floor: int)
    requires MainOk(c, a) && Low(c, a) <= floor <= High(c, a)
    requires floor in c.byHeight && HeightOf(c.byHeight[floor], a) == floor
    ensures MainOk(PruneTo(c, floor), a) && Low(PruneTo(c, floor), a) == floor
  {
    assert c.byHeight[High(c, a)] == Ancestor(c.tip, 0) == c.tip;
  }

  lemma PruneTwice(c: Chain, x: int, y: int)
    requires x <= y && y in c.byHeight
    ensures PruneTo(PruneTo(c, x), y) == PruneTo(c, y)
  {
    var d := PruneTo(c, x);
    assert MainBelow(c, y) == MainBelow(c, x) + MainBelow(d, y);
    assert PruneTo(d, y).pool == PruneTo(c, y).pool;
    assert PruneTo(d, y).byHash == PruneTo(c, y).byHash;
    assert PruneTo(d, y).byHeight == PruneTo(c, y).byHeight;
  }

  lemma PruneNothing(c: Chain, a: Anchor)
    requires Inv(c, a)
    ensures PruneTo(c, Low(c, a)) == c
  {
    assert MainBelow(c, Low(c, a)) == {};
    assert c.pool - {} == c.pool;
  }

  ghost function Size(c: Chain, a: Anchor): int { High(c, a) - Low(c, a) + 1 }

  /** A collection in a valid state removes the oldest blocks up to its quota, and fails exactly
      when that would be the whole chain. */
  lemma GcForm(c: Chain, a: Anchor, threshold: nat, batch: nat)
    requires Inv(c, a)
    ensures Gc(c, threshold, batch)
            == Outcome(c, Low(c, a), Size(c, a), Quota(Size(c, a), threshold, batch))
  {
    PruneNothing(c, a);
    GcOutcome(c, Low(c, a), Size(c, a), threshold, batch);
  }

  lemma GcOutcome(c: Chain, low: int, size: int, threshold: nat, batch: nat)
    requires c.initial in c.pool && low == c.pool[c.initial].height
    requires c.tip in c.pool && size == c.pool[c.tip].height - low + 1 >= 1
    requires forall h :: h in c.byHeight <==> low <= h < low + size
    requires PruneTo(c, low) == c
    ensures Gc(c, threshold, batch) == Outcome(c, low, size, Quota(size, threshold, batch))
  {
  }

  /** Only a zero threshold can fail; otherwise the state stays valid, the tip stays, and a chain
      within the threshold is left alone. */
  lemma GcResult(c: Chain, a: Anchor, threshold: nat, batch: nat)
    requires Inv(c, a)
    ensures Gc(c, threshold, batch).None? <==> threshold == 0 && batch >= Size(c, a)
    ensures Gc(c, threshold, batch).Some? ==>
              var d := Gc(c, threshold, batch).value;
              && Inv(d, a) && d.tip == c.tip
              && Size(d, a) == Size(c, a) - Quota(Size(c, a), threshold, batch)
              && (Size(c, a) <= threshold ==> d == c)
  {
    GcForm(c, a, threshold, batch);
    PruneOutcome(c, a, Quota(Size(c, a), threshold, batch));
  }

  lemma PruneOutcome(c: Chain, a: Anchor, n: int)
    requires Inv(c, a) && n >= 0
    ensures Outcome(c, Low(c, a), Size(c, a), n).Some? ==>
              var d := Outcome(c, Low(c, a), Size(c, a), n).value;
              Inv(d, a) && d.tip == c.tip && Size(d, a) == Size(c, a) - n && (n == 0 ==> d == c)
  {
    if n < Size(c, a) {
      PruneInv(c, a, Low(c, a) + n);
    }
    if n == 0 {
      PruneNothing(c, a);
    }
  }

  /** Fork entries and the tip survive any collection; the pool loses exactly the old part of
      the main chain. */
  lemma GcSpares(c: Chain, a: Anchor, threshold: nat, batch: nat, k: H256)
    requires Inv(c, a) && Gc(c, threshold, batch).Some? && k in c.pool
    ensures var d := Gc(c, threshold, batch).value;
            && (k !in c.byHash ==> k in d.pool && d.pool[k] == c.pool[k])
            && (k in c.byHash ==>
                  (k in d.pool <==> HeightOf(k, a) >= Low(d, a)) &&
                  (k in d.byHash <==> HeightOf(k, a) >= Low(d, a)))
            && c.tip in d.pool
  {
    GcForm(c, a, threshold, batch);
    PruneInv(c, a, Low(c, a) + Quota(Size(c, a), threshold, batch));
    if k in c.byHash {
      MainHeight(c, a, k);
    }
  }

  function GcThen(c: Option<Chain>, threshold: nat, batch: nat): Option<Chain> {
    match c
    case None => None
    case Some(d) => Gc(d, threshold, batch)
  }

  lemma GcAfterPrune(c: Chain, a: Anchor, floor: int, size: int, threshold: nat, batch: nat)
    requires Tidy(c, a) && Low(c, a) <= floor <= High(c, a) && size == High(c, a) - floor + 1
    ensures Gc(PruneTo(c, floor), threshold, batch)
            == Outcome(c, floor, size, Quota(size, threshold, batch))
  {
    var m := Quota(size, threshold, batch);
    PruneTidy(c, a, floor);
    TidyForm(PruneTo(c, floor), a, threshold, batch);
    OutcomeAfterPrune(c, floor, size, m);
  }

  lemma PruneTidy(c: Chain, a: Anchor, floor: int)
    requires Tidy(c, a) && Low(c, a) <= floor <= High(c, a)
    ensures Tidy(PruneTo(c, floor), a)
    ensures Low(PruneTo(c, floor), a) == floor && PruneTo(c, floor).tip == c.tip
    ensures forall h :: floor <= h <= High(c, a) ==> h in c.byHeight
  {
    TidyIff(c, a);
    PruneInv(c, a, floor);
    TidyIff(PruneTo(c, floor), a);
  }

  lemma TidyForm(c: Chain, a: Anchor, threshold: nat, batch: nat)
    requires Tidy(c, a)
    ensures Size(c, a) >= 1
    ensures Gc(c, threshold, batch)
            == Outcome(c, Low(c, a), Size(c, a), Quota(Size(c, a), threshold, batch))
  {
    TidyIff(c, a);
    GcForm(c, a, threshold, batch);
  }

  lemma OutcomeAfterPrune(c: Chain, floor: int, size: int, m: int)
    requires 0 <= m && (m < size ==> floor + m in c.byHeight)
    ensures Outcome(PruneTo(c, floor), floor, size, m) == Outcome(c, floor, size, m)
  {
    if m < size {
      PruneTwice(c, floor, floor + m);
    }
  }

  lemma QuotaAdds(size: int, threshold: nat, x: nat, y: nat)
    ensures var n := Quota(size, threshold, x);
            n + Quota(size - n, threshold, y) == Quota(size, threshold, x + y)
  {
  }

  /** What a collection with quota `n` from height `low` of a chain of `size` blocks gives. */
  function Outcome(c: Chain, low: int, size: int, n: int): Option<Chain> {
    if n < size then Some(PruneTo(c, low + n)) else None
  }

  /** Collecting in two batches is collecting once with their sum, failures included. */
  lemma GcComposes(c: Chain, a: Anchor, threshold: nat, x: nat, y: nat)
    requires Inv(c, a)
    ensures GcThen(Gc(c, threshold, x), threshold, y) == Gc(c, threshold, x + y)
  {
    TidyIff(c, a);
    TidyBatches(c, a, threshold, x, y);
  }

  lemma TidyBatches(c: Chain, a: Anchor, threshold: nat, x: nat, y: nat)
    requires Tidy(c, a)
    ensures GcThen(Gc(c, threshold, x), threshold, y) == Gc(c, threshold, x + y)
  {
    var low, size, n := Low(c, a), Size(c, a), Quota(Size(c, a), threshold, x);
    TidyForm(c, a, threshold, x);
    TidyForm(c, a, threshold, x + y);
    if n < size {
      GcAfterPrune(c, a, low + n, size - n, threshold, y);
    }
    BatchesCompose(c, low, size, threshold, x, y);
  }

  lemma BatchesCompose(c: Chain, low: int, size: int, threshold: nat, x: nat, y: nat)
    requires Gc(c, threshold, x) == Outcome(c, low, size, Quota(size, threshold, x))
    requires Gc(c, threshold, x + y) == Outcome(c, low, size, Quota(size, threshold, x + y))
    requires var n := Quota(size, threshold, x);
             n < size ==>
               Gc(PruneTo(c, low + n), threshold, y)
               == Outcome(c, low + n, size - n, Quota(size - n, threshold, y))
    ensures GcThen(Gc(c, threshold, x), threshold, y) == Gc(c, threshold, x + y)
  {
    var n := Quota(size, threshold, x);
    var m := Quota(size - n, threshold, y);
    QuotaAdds(size, threshold, x, y);
    if n < size {
      OutcomeShift(c, low, size, n, m);
    }
  }

  lemma OutcomeShift(c: Chain, low: int, size: int, n: int, m: int)
    ensures Outcome(c, low + n, size - n, m) == Outcome(c, low, size, n + m)
  {
    assert low + n + m == low + (n + m);
  }
}
