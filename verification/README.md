# Verified model of the BTC light client

The repository keeps an SPV light client of Bitcoin, Litecoin, Dogecoin and Zcash as the state of a
NEAR contract, with a relayer that feeds it headers. This project models the parts that decide
whether that state can be trusted, and proves their properties for all inputs and all executions.

Run `dafny verify dfyconfig.toml` in this directory to check everything.

| files | what they hold |
|---|---|
| `Arith`, `U256`, `Division`, `Compact` | two-limb 256-bit integers, long division, work, compact targets |
| `Hashing`, `Merkle`, `Forgery`, `AuxPow`, `MergedMining`, `Inclusion` | symbolic hashes, Merkle proofs and what wrong ones can show, merged mining, transaction inclusion |
| `Median`, `Params`, `Retarget`, `RetargetLaws`, `RetargetWords`, `Consensus`, `Demands` | median time past, difficulty rules of the four chains, `check_pow` |
| `Chain`, `Reorg`, `Pruning`, `ForkChoice` | the stored maps as a value; extending, promoting a fork, collecting |
| `Runs`, `RunLaws`, `Progress`, `Lookups`, `Acceptance` | whole executions with a log of every accepted header, exactly what is accepted and collected, which blocks retargets find |
| `ReorgSteps`, `CallSteps`, `LightClient` | the contract object, whose methods update the maps in place |
| `Queries`, `Relayer` | the view of the newest hashes, the relayer's fork-point search and fetch |

## How the model is built

- A hash is the term that was hashed (`Raw | OfPair | OfHeader`). Hashing is then injective and
  acyclic by construction, so nothing has to be assumed about the hash of the genesis parent.
- A panic or a failed `require!` is a result (`None`, or `ok == false`). Methods of
  `BtcLightClient` stop where the source panics; the entry points then restore the saved state, as
  NEAR reverts a failed call. Integer overflow panics, because the contract is built with overflow
  checks (`contract/Cargo.toml`). The contract is compiled for 32-bit wasm, which bounds `usize`.
- Every method with a loop or an update is proved equal to a pure function of its inputs or of the
  old state; the laws are proved about those functions. `BtcLightClient.Valid` is the invariant of
  all runs, `Runs.Good`, sealed behind a trigger (`CallSteps.SoundIsGood`), so that methods hand it
  on without unfolding it. The loops of a reorganisation use the same device (`ReorgSteps`).
- Inputs of the model: the proof-of-work hash of a header, the clock, the verdict on an Equihash
  solution, the hex text of a hash, the coinbase script of a merge-mined parent, and the answers of
  the Bitcoin node.

Where the code differs from what its names suggest, the model follows the code:

- `overflowing_mul` estimates the carry of the low limb from its upper half. `Wide.MulCorrectIff`
  says exactly when the product is right. Bitcoin, Litecoin and Dogecoin multiply decoded targets,
  which never lose a carry (`Retarget.DecodedKeepsCarry`, `HalvedKeepsCarry`). Zcash multiplies an
  averaged target and is affected: `RetargetLaws.ZcashTargetForm` says exactly when, and
  `Lookups.ReachableZcashDemandsWrongBits` gives reachable states in which mainnet demands a word
  that the protocol does not.
- `inverse(1)` is the largest number rather than half of 2^256.
- Shift amounts are taken modulo 256, so `target_from_bits` wraps for large exponents; the words
  that survive a round trip are characterised by `Compact.CompactFixedPoint`.
- A retarget looks its first block up by main-chain height. `RunLaws.HeightIndexIff` says exactly
  when that is the true ancestor, and `Lookups.IndexMisleadsOnFork` gives reachable states with a
  fork where it is not.
- The deprecated inclusion check accepts ids that are not in the block. Over all indices and proofs,
  `Inclusion.FirstVersionUnsafeIff` says exactly for which blocks, `FirstVersionMismatchIff` for
  which blocks it accepts an id at an index where another transaction stands, and
  `FirstVersionShows` which id it accepts for each index and proof length.
- Neither inclusion check bounds the index. `Inclusion.SecondVersionExact` says which transaction an
  index stands for: for an index of the block the one at that index, and past the end, where the
  documentation promises a refusal, a padding or wrapped position is accepted for some transaction of
  the block; `SecondVersionPastEndIff` says exactly for which blocks. The second version also refuses
  every block with a single transaction, because it demands a non-empty proof.

## Model

| member | source | states |
|---|---|---|
| `Wide.OverflowingAdd` | btc-types/src/u256.rs:179-196 | limb-wise addition is addition modulo 2^256, with the flag set exactly when the sum does not fit |
| `Wide.OverflowingSub` | btc-types/src/u256.rs:203-207 | subtraction through complement and increment is subtraction modulo 2^256; the flag is the borrow |
| `Wide.WrappingInc` | btc-types/src/u256.rs:227-239 | increment modulo 2^256, carry into the high limb included |
| `Wide.WrappingShl` | btc-types/src/u256.rs:246-265 | multiplies by 2^(shift mod 256) modulo 2^256 across the limb boundary |
| `Wide.WrappingShr` | btc-types/src/u256.rs:272-289 | floor division by 2^(shift mod 256) across the limb boundary |
| `Wide.Bits` | btc-types/src/u256.rs:108-114 | the leading-zero count of the limbs gives the bit length of the number |
| `Wide.ValFaithful` | btc-types/src/u256.rs:1-22 | limbs are determined by the number, and the limb-wise order is the numeric order |
| `Wide.MulResult` | btc-types/src/u256.rs:116-128 | for every input: with the flag clear the result is the product or exactly 2^128 less, the latter if and only if a carry is dropped; a raised flag never lies |
| `Wide.MulCorrectIff` | btc-types/src/u256.rs:116-128 | product and flag are both right if and only if no carry is dropped or the high limb overflows anyway |
| `Wide.MulLosesCarry` | btc-types/src/u256.rs:124-127 | a concrete product by the span of a punctual Zcash retarget that comes out 2^128 short with the flag clear |
| `Division.DivRem` | btc-types/src/u256.rs:140-172 | shift-and-subtract returns the exact quotient and remainder for every dividend and nonzero divisor |
| `Division.LongDivision` | btc-types/src/u256.rs:154-172 | the loop, from the aligned divisor down to shift zero, decides every quotient bit correctly |
| `Division.Inverse` | btc-types/src/u256.rs:56-73 | the work of a target is floor(2^256 / (x + 1)) for x >= 2, and the largest number for 0 and 1 |
| `Division.InverseIdentity` | btc-types/src/u256.rs:70-72 | the quotient that fits 256 bits, plus one, is floor(2^256 / (x + 1)) |
| `Division.WorkBounds` | btc-types/src/u256.rs:56-73 | every target has work at least 1 and below 2^256 |
| `Division.WorkAntitone` | btc-types/src/u256.rs:56-73 | a smaller target never has less work |
| `Division.WorkIff` | btc-types/src/u256.rs:56-73 | the work of a target of at least 2 is the number of times that target plus one fits into 2^256 |
| `Compact.TargetToBits` | btc-types/src/u256.rs:75-93 | the encoder equals the reference form: least exponent with a clear sign bit, three leading bytes |
| `Compact.TargetFromBits` | btc-types/src/utils.rs:40-55 | the decoder's value for every 32-bit word, including wrapped shifts and negative mantissas |
| `Compact.WorkFromBits` | btc-types/src/utils.rs:59-61 | the work of a word is the work of its decoded target, between 1 and 2^256 |
| `Compact.WorkOfBitsIff` | btc-types/src/utils.rs:59-61 | the work of a word is the number of times its target plus one fits into 2^256, and the largest number for targets 0 and 1 |
| `Compact.DecodeSigned` | btc-types/src/utils.rs:40-55 | words with the sign bit set stand for zero |
| `Compact.DecodeShort` | btc-types/src/utils.rs:40-55 | words of exponent up to 3 drop the low bytes of the mantissa |
| `Compact.DecodeLong` | btc-types/src/utils.rs:40-55 | longer words shift the mantissa modulo 2^256, and from exponent 35 on the shift starts over |
| `Compact.DecodeCanonical` | btc-types/src/utils.rs:40-55 | a canonical word stands for mantissa times 256^(exponent - 3), nothing lost or wrapped |
| `Compact.CompactFixedPoint` | btc-types/src/utils.rs:40-55 | re-encoding a decoded word gives it back if and only if the word is canonical |
| `Compact.EncodeCanonical` | btc-types/src/u256.rs:75-93 | every encoding is a canonical word, with the fields of the reference form |
| `Compact.CompactLoss` | btc-types/src/u256.rs:75-93 | decode after encode rounds down: nothing is lost below 2^23, which is where the size is at most 3, and less than 256^(size - 3) above |
| `Compact.EncodeStable` | btc-types/src/u256.rs:75-93 | encoding the decoded encoding changes nothing more |
| `Compact.EncodeMono` | btc-types/src/u256.rs:75-93 | a larger target never gets a smaller word |
| `Compact.CompactAdjoint` | btc-types/src/u256.rs:75-93 | the encoder picks the greatest canonical word whose target does not exceed the value |
| `Merkle.MerkleProofCalculator` | merkle-tools/src/lib.rs:4-32 | the level-by-level loop computes the recursive proof, or fails where its indexing would panic |
| `Merkle.ComputeRootFromMerkleProof` | merkle-tools/src/lib.rs:34-52 | the fold over the proof computes the recursive root |
| `Merkle.ProofComplete` | merkle-tools/src/lib.rs:4-52 | for every list and position, the calculator's proof recomputes the recursive Merkle root, and its length depends on the list length only |
| `Merkle.RootInjective` | merkle-tools/src/lib.rs:34-60 | at one position, equal roots from proofs of equal length force equal items and proofs |
| `Merkle.ProofSound` | merkle-tools/src/lib.rs:34-60 | at a position of the list, a proof of the tree's depth reaches the root if and only if it is the calculator's proof of the item there |
| `Merkle.ProofSoundAnywhere` | merkle-tools/src/lib.rs:34-60 | the same at any position at all, for the item that the position stands for once padding and surplus bits are accounted for |
| `Merkle.LeafInRange` | merkle-tools/src/lib.rs:34-52 | a position of the list stands for the item there |
| `Merkle.FirstItemForcesDepth` | merkle-tools/src/lib.rs:34-60 | any accepted proof of the first item has the depth of the tree |
| `Merkle.ProvableIff` | merkle-tools/src/lib.rs:34-60 | for every position and proof length exactly one id can be proved against a root, the node on the selected path of the root's term, and none where the term is not that deep |
| `Merkle.ForgeableLengths` | merkle-tools/src/lib.rs:34-60 | some other id can be proved at position 0 with a proof of length k if and only if k is not the depth and the root's left path is that long |
| `Forgery.ForeignIff` | merkle-tools/src/lib.rs:34-60 | an id outside the list can be proved, at some position, if and only if the list has more than two items or an item that is a pair with a part that is not an item |
| `Forgery.MismatchIff` | merkle-tools/src/lib.rs:34-60 | an id other than the one at the claimed position can be proved if and only if the list has more than two items or its first item is the hash of a pair |
| `AuxPow.FindIsFirst` | contract/src/dogecoin.rs:103-106 | the text search finds the first occurrence and fails only when there is none |
| `AuxPow.GetExpectedIndex` | contract/src/dogecoin.rs:157-164 | the slot is an affine function of the nonce modulo the tree size; the 32-bit wrap-around of each step is invisible |
| `AuxPow.CheckAux` | contract/src/dogecoin.rs:49-155 | accepts exactly when all requirements of merged mining hold, as characterised by `AuxIff` |
| `AuxPow.CheckScript` | contract/src/dogecoin.rs:98-145 | accepts exactly the scripts that commit to the chain root, tree size and slot |
| `AuxPow.CoinbaseCommitsOnce` | contract/src/dogecoin.rs:78-148 | one coinbase script with the marker commits to one header: two accepted headers have equal slot and branch, and are equal |
| `MergedMining.CommitsIff` | contract/src/dogecoin.rs:98-145 | the script check accepts exactly the scripts with the layout: first occurrence of the root text, right after the only marker or within twenty bytes without one, then the tree size and a nonce whose slot is the index |
| `MergedMining.AuxIff` | contract/src/dogecoin.rs:49-155 | the whole check in its own terms: branch length, version bit and chain ids, the coinbase's Merkle proof, the layout of the script, and the parent's work against the header's target |
| `MergedMining.CoinbaseInParent` | contract/src/dogecoin.rs:84-93 | the committing coinbase is a node on the left edge of the parent block's tree, and its first transaction if the proof has the depth of that tree |
| `MergedMining.HonestMinerAccepted` | contract/src/dogecoin.rs:49-155 | a header in its slot of a full tree of chains, committed to by the coinbase of a parent with enough work, is accepted |
| `MergedMining.UsualScript` | contract/src/dogecoin.rs:95-131 | marker, root, size and nonce in this order have the layout, if root text and marker stand nowhere else |
| `MergedMining.WordIff` | contract/src/dogecoin.rs:126-137 | four bytes of script read as a number exactly when the number's little-endian text stands there |
| `MergedMining.TwoSlots` | contract/src/dogecoin.rs:157-164 | the slot of Dogecoin for two nonces, as numbers |
| `Inclusion.AnswersWhenConfirmed` | contract/src/lib.rs:288-323 | in a valid state an answer is given if and only if the block has that many linked headers up to the tip, the threshold allows it and the proof is not empty |
| `Inclusion.SecondVersionExact` | contract/src/lib.rs:347-369 | for every claimed index, with the true coinbase id: exactly the honest proofs of the transaction the index stands for are accepted, in confirmed blocks with more than one transaction |
| `Inclusion.SecondVersionInRange` | contract/src/lib.rs:347-369 | for an index of the block, that is the transaction at the index |
| `Inclusion.SecondVersionPastEndIff` | contract/src/lib.rs:347-369 | an index past the end of a confirmed block is accepted for some id if and only if the block has at least two transactions and fewer than 2^32 |
| `Inclusion.SecondVersionSound` | contract/src/lib.rs:347-369 | for any claimed index an accepted id is the transaction of the block that the index stands for, and for an index of the block the one at the index |
| `Inclusion.FirstVersionShows` | contract/src/lib.rs:288-323 | for every claimed index and every proof length, the deprecated check can accept exactly one id, the node on the index's path in the block's Merkle term |
| `Inclusion.FirstVersionForgeable` | contract/src/lib.rs:288-323 | for every index of the block and proof length, when some other id is accepted there; at index 0, exactly when the length is not the depth and the root's left path is that long |
| `Inclusion.FirstVersionUnsafeIff` | contract/src/lib.rs:288-323 | over all ids, indices and proofs: an id that is not a transaction of a confirmed block is accepted if and only if the block has more than two transactions or an id that is the hash of a pair with a part that is not a transaction |
| `Inclusion.FirstVersionMismatchIff` | contract/src/lib.rs:288-323 | an id is accepted at an index of the block where another transaction stands if and only if the block has more than two transactions or its coinbase id is the hash of a pair |
| `Inclusion.FirstVersionSound` | contract/src/lib.rs:288-323 | for any index, a proof of the tree's depth is accepted only for the transaction the index stands for |
| `Median.SortUnstable` | contract/src/utils.rs:24-24 | leaves the sorted form of the array |
| `Median.SortedIsSort` | contract/src/utils.rs:24-24 | the sorted form is ordered and a permutation |
| `Median.Rank` | contract/src/utils.rs:24-25 | the element of rank k is at most v if and only if more than k elements are |
| `Median.MedianIff` | contract/src/utils.rs:24-25 | the median is the one number that more than half of the times do not exceed and no smaller number shares this with |
| `Median.MedianNeverFalls` | contract/src/utils.rs:10-26 | replacing the oldest time by one not below the median never lowers the median |
| `Consensus.GetMedianTimePast` | contract/src/utils.rs:10-26 | the walk reads the eleven newest times of the chain and fails exactly when one of the eleven links is gone |
| `Consensus.WalkBackLoop` | contract/src/bitcoin.rs:64-76 | the testnet walk back stops at the specified block or fails where a parent is missing |
| `Consensus.WalkBackWithinInterval` | contract/src/bitcoin.rs:64-76 | the walk back takes at most height mod interval steps, all over stored minimum-difficulty blocks inside the interval; it ends at the first ancestor that is not one, or fails because that ancestor is missing |
| `Consensus.CalculateNextWorkRequired` | contract/src/dogecoin.rs:301-333 | dispatches to the rescaling of the chain with the elapsed time of the interval |
| `Consensus.GetNextWorkRequired` | contract/src/litecoin.rs:51-95 | the expected bits of a child for Bitcoin, Litecoin and Dogecoin, with every missing-block and overflow failure; what they are is stated by the rows of `Demands` |
| `Consensus.RetargetNow` | contract/src/dogecoin.rs:268-298 | the bits at the end of an interval, from the block that many heights back |
| `Consensus.SumWindow` | contract/src/zcash.rs:85-109 | the first loop reads the eleven newest times and the sum of the window's targets, or fails on a missing block or an overflow |
| `Consensus.FillTimes` | contract/src/zcash.rs:111-118 | the second loop reads the eleven times before the window, or fails exactly when one is gone |
| `Consensus.ZcashGetNextWorkRequired` | contract/src/zcash.rs:77-157 | the two loops compute the specified bits and median |
| `Consensus.ZcashMediansAreMtp` | contract/src/zcash.rs:77-157 | the single walk gives the medians of two separate median-time-past calls and the mean of the window's targets |
| `Consensus.CheckPow` | contract/src/zcash.rs:21-73 | accepts exactly when bits, times, version and solution meet the chain's rules |
| `Demands.MainnetInherits` | contract/src/bitcoin.rs:56-76 | between Bitcoin and Litecoin mainnet retargets a child carries its parent's bits |
| `Demands.TestnetLate` | contract/src/bitcoin.rs:57-62 | on testnet a child more than twice the spacing late carries the minimum word; a sum of times beyond 32 bits has no answer |
| `Demands.TestnetOnTime` | contract/src/litecoin.rs:57-78 | any other testnet child carries the bits of the first ancestor in the interval that has other bits than the minimum word or starts the interval |
| `Demands.BitcoinBoundary` | contract/src/bitcoin.rs:78-87 | at a boundary, on a main-chain parent, the elapsed time runs from the ancestor 2015 back |
| `Demands.LitecoinBoundary` | contract/src/litecoin.rs:80-94 | for Litecoin from the ancestor 2016 back, or 2015 at the first retarget |
| `Demands.DogecoinDemand` | contract/src/dogecoin.rs:208-298 | Dogecoin retargets on every block from the parent's parent, except for late testnet children from height 157500 on |
| `Demands.ZcashDemand` | contract/src/zcash.rs:77-157 | Zcash: the minimum word for late testnet children from height 299187 on, otherwise the word of the mean target and the difference of the medians |
| `Demands.ReachableInherits` | contract/src/bitcoin.rs:56-76 | over every run with checks on, Bitcoin and Litecoin mainnet headers at heights that 2016 does not divide carry their parent's bits |
| `Retarget.CalculateBitcoin` | contract/src/bitcoin.rs:90-118 | clamped rescaling, cap and encoding, over exact arithmetic |
| `Retarget.CalculateLitecoin` | contract/src/litecoin.rs:97-134 | the same with the one-bit pre-shift of large targets |
| `Retarget.CalculateDogecoin` | contract/src/dogecoin.rs:301-333 | the same with the damped and clamped interval |
| `Retarget.CalculateZcash` | contract/src/zcash.rs:159-195 | the averaged target divided, multiplied by the damped span, capped and encoded |
| `Retarget.DecodedKeepsCarry` | contract/src/bitcoin.rs:105-109 | no decoded target, from any 32-bit word, loses a carry in the multiplication by a factor below 2^40 |
| `Retarget.ShiftedMantissaKeepsCarry` | btc-types/src/u256.rs:116-128 | in particular not a 23-bit mantissa shifted by whole bytes within 256 bits |
| `Retarget.HalvedKeepsCarry` | contract/src/litecoin.rs:112-121 | neither does a decoded target after the pre-shift |
| `RetargetLaws.LimitBitsWithinLimit` | btc-types/src/network.rs:26-150 | the minimum-difficulty words respect the limits they belong to |
| `RetargetLaws.NextTargetWithinLimit` | contract/src/bitcoin.rs:90-118 | from a target within the limit the overflow panic never fires and the new target is within the limit, for three chains and both networks |
| `RetargetLaws.LitecoinFits` | contract/src/litecoin.rs:112-121 | the pre-shift happens exactly for 236-bit targets and makes the product fit |
| `RetargetLaws.BitcoinStep` | contract/src/bitcoin.rs:97-109 | one retarget changes the target by at most a factor of four either way |
| `RetargetLaws.DogecoinStep` | contract/src/dogecoin.rs:305-324 | one retarget stays between floor(3/4) and floor(3/2) of the target |
| `RetargetLaws.LitecoinLoss` | contract/src/litecoin.rs:112-126 | for every word and span that is not refused, the shifted computation is at most one below the unshifted quotient |
| `RetargetLaws.BitsMonotone` | contract/src/bitcoin.rs:90-118 | a longer interval never gives a smaller word, for Bitcoin and Dogecoin |
| `RetargetLaws.LitecoinBitsMonotone` | contract/src/litecoin.rs:97-134 | the same for Litecoin, with any sane parameters and any word |
| `RetargetLaws.ZcashTargetForm` | contract/src/zcash.rs:143-194 | for any sane parameters and any sum, the two floor divisions are one division by window times timespan; the target is that unit times the span, or exactly 2^128 less when a carry is dropped, and is refused only where the product does not fit |
| `RetargetLaws.ZcashLosesCarry` | contract/src/zcash.rs:176-194 | a sum of window targets for which the target comes out 2^128 low and the demanded word differs from the protocol's |
| `RetargetLaws.ZcashWithinLimit` | contract/src/zcash.rs:159-195 | for every sum that fits 256 bits the product never overflows and the new target is within the limit, on both networks |
| `RetargetWords.BitcoinWord` | contract/src/bitcoin.rs:90-118 | the word in closed form: target times elapsed time over 1209600, with the time taken between 302400 and 4838400, capped and encoded |
| `RetargetWords.HalfTimeHalves` | contract/src/bitcoin.rs:90-118 | half the intended time turns 0x1d00ffff into 0x1c7fff80 |
| `RetargetWords.LitecoinWordPlain` | contract/src/litecoin.rs:97-134 | the same for Litecoin targets below 2^235, over 302400 and between 75600 and 1209600 |
| `RetargetWords.LitecoinWordShifted` | contract/src/litecoin.rs:112-134 | for larger targets twice the rescaled half |
| `RetargetWords.DogecoinWord` | contract/src/dogecoin.rs:301-333 | the same for Dogecoin over 60 |
| `RetargetWords.DogecoinSpanIs` | contract/src/dogecoin.rs:305-318 | the Dogecoin span is 60 plus an eighth of the deviation, rounded towards zero, between 45 and 90 |
| `RetargetWords.ZcashSpanIs` | contract/src/zcash.rs:169-182 | the Zcash span is 1275 plus a quarter of the deviation, rounded towards zero, between 1071 and 1683 |
| `RetargetWords.ZcashWord` | contract/src/zcash.rs:143-194 | the Zcash word of a sum of targets in closed form, dropped carry included |
| `RetargetWords.BitcoinResultStep` | contract/src/bitcoin.rs:90-118 | the decoded result is at most four times the old target and, up to one part in 2^15 and the cap, at least a quarter |
| `RetargetWords.DogecoinResultStep` | contract/src/dogecoin.rs:301-333 | for Dogecoin at most three halves and, up to the same rounding, at least three quarters |
| `ChainState.ExtendInv` | contract/src/lib.rs:531-548 | a header on top of the tip keeps the maps and the main chain consistent |
| `ChainState.MainHeight` | contract/src/lib.rs:650-656 | a main-chain hash is indexed at the height its prev links give it |
| `Reorg.ForkPath` | contract/src/lib.rs:617-642 | a successful walk passes only stored blocks off the main chain and ends on it, not below the initial block |
| `Reorg.WalkSucceedsIff` | contract/src/lib.rs:617-642 | the walk succeeds if and only if some ancestor is on the stored main chain and everything before it is stored |
| `Reorg.PromoteInv` | contract/src/lib.rs:575-647 | a promotion keeps the maps and the main chain consistent and never displaces the initial block |
| `Reorg.PromotedPath` | contract/src/lib.rs:575-647 | the new main chain is the old one up to the fork point and the stored branch above it |
| `Reorg.PromotedEnds` | contract/src/lib.rs:575-647 | the initial block is an ancestor of any promoted tip, so a fork from below it can only fail |
| `Reorg.AbandonedExactly` | contract/src/lib.rs:575-662 | exactly the main-chain blocks that are not on the new main chain leave the pool; every other record is unchanged |
| `ReorgSteps.TrimRound` | contract/src/lib.rs:588-596 | one round of the removal loop is one step of its specification |
| `ReorgSteps.WalkRound` | contract/src/lib.rs:617-642 | one round of the cursor loop hands over one more height, and a missing parent means the promotion fails |
| `Pruning.PruneInv` | contract/src/lib.rs:377-416 | dropping the oldest main-chain blocks keeps the state consistent and the tip in place |
| `Pruning.GcResult` | contract/src/lib.rs:377-416 | a collection removes min(size - threshold, batch) blocks, does nothing within the threshold, keeps the tip, and fails exactly when a zero threshold would empty the chain |
| `Pruning.GcSpares` | contract/src/lib.rs:398-407 | fork entries are untouched, and a main-chain block leaves exactly when it is below the new initial height |
| `Pruning.GcComposes` | contract/src/lib.rs:377-416 | collecting twice equals collecting once with the summed batch, failures included |
| `ForkChoice.EntryCorrect` | contract/src/lib.rs:502-515 | the stored record has the hash, height and non-wrapping work that the prev links give |
| `ForkChoice.PlaceKeepsInv` | contract/src/lib.rs:531-568 | storing a header by any of the three routes keeps the state consistent |
| `ForkChoice.PlacePool` | contract/src/lib.rs:531-568 | storing a header keeps its record and adds no other |
| `ForkChoice.PlaceTip` | contract/src/lib.rs:531-568 | the tip moves exactly when the header is heavier than the tip |
| `Runs.SubmitKeepsGood` | contract/src/lib.rs:490-568 | an accepted header keeps the invariant of all runs, and the tip's work never falls |
| `Runs.CollectKeepsGood` | contract/src/lib.rs:377-416 | so does a collection, which keeps the tip |
| `Runs.InitGood` | contract/src/lib.rs:420-486 | a successful initialisation establishes it |
| `Runs.RunKeepsGood` | contract/src/lib.rs:169-197 | any sequence of calls, successful or not, keeps it, and the tip's work never decreases |
| `Runs.EveryReachableStateGood` | contract/src/lib.rs:135-416 | in every reachable state the maps are mutually inverse over initial..tip, the main chain is the prev-link path of the tip, works are sums along the path, and the tip is the earliest header of maximal work ever accepted |
| `RunLaws.HeightIndexIff` | contract/src/lib.rs:670-683 | for any stored block the height index gives the true ancestor if and only if that ancestor is on the main chain |
| `RunLaws.HeightIndexByForkPoint` | contract/src/lib.rs:670-683 | where prev links lead back to the main chain, if and only if the fork leaves it at or above the height looked up |
| `Lookups.IndexMisleadsOnFork` | contract/src/dogecoin.rs:278-298 | any initialisation of the first three chains continues to a reachable state whose fork tip has another parent than the index gives one height down, and the bits Dogecoin expects of its child follow from the wrong block's time |
| `Lookups.ReachableZcashDemandsWrongBits` | contract/src/zcash.rs:77-195 | initialisations after which the Zcash rule demands another word than the protocol, because the multiplication lost its carry |
| `Lookups.LookupFailsIff` | contract/src/lib.rs:677-683 | a lookup by height fails exactly outside the stored main chain |
| `Lookups.TipRetargetFailsIff` | contract/src/bitcoin.rs:78-82 | a retarget on the tip fails exactly when its first block lies below the initial block |
| `Lookups.ReachableTipRetargetFindsFirst` | contract/src/lib.rs:434-443 | over every run, until the first block is collected, a retarget on the tip finds the first block of its interval: what the alignment of the initial height is for |
| `Lookups.TipWindowStored` | contract/src/lib.rs:455-463 | until the first collection, the tip has n stored ancestors exactly when it is at least n blocks past the first one |
| `Lookups.ConnectedInitReady` | contract/src/lib.rs:444-463 | after an initialisation with connected blocks the tip has exactly as many stored ancestors as further initial blocks, so the median time past, and for Zcash the whole window, can be read |
| `RunLaws.HeightIndexIsAncestor` | contract/src/lib.rs:670-683 | on the main chain, n prev links and a lookup n heights down give the same stored header |
| `RunLaws.ResubmissionChangesNothing` | contract/src/lib.rs:490-568 | accepting a header that is still stored changes nothing |
| `RunLaws.ReacceptanceKeepsTip` | contract/src/lib.rs:490-568 | a header that was ever accepted cannot move the tip again, even after it was dropped |
| `RunLaws.NextWorkWithin` | contract/src/bitcoin.rs:50-88 | the bits demanded of a child are within the limit: for Dogecoin always, for Bitcoin and Litecoin if the stored headers are |
| `RunLaws.RetargetFailsOnlyOnMissingBlock` | contract/src/bitcoin.rs:78-118 | with targets within the limit a retarget fails only because its first block is gone |
| `RunLaws.ZcashNextWorkWithin` | contract/src/zcash.rs:77-195 | the Zcash computation succeeds if and only if the 28 ancestors are stored and the sum of the window's targets fits, and its bits are then within the limit whatever those targets are |
| `RunLaws.ZcashSumNeverOverflows` | contract/src/zcash.rs:97-100 | the sum fits if the stored targets are within the limit |
| `RunLaws.ZcashDemandsWrongBits` | contract/src/zcash.rs:77-195 | a window of stored blocks for which the expected bits differ from the protocol's |
| `RunLaws.TargetsStayWithinLimit` | contract/src/lib.rs:517-526 | over every run with checks on, logged targets within the limit stay so; for Dogecoin and Zcash from any position of the log on |
| `RunLaws.ReachableTargetsWithin` | contract/src/lib.rs:420-526 | in every state reachable with checks on, every header accepted after initialisation is within the limit: for Dogecoin and Zcash whatever the initial blocks are, for all chains if the initial blocks are, and then the initial ones too |
| `RunLaws.ReachableRetargetsNeverOverflow` | contract/src/bitcoin.rs:105-112 | in every such state, for any stored parent and any child, the new-target overflow and the Zcash sum overflow never fire: only a missing block makes the computation fail |
| `RunLaws.SubmitAllLog` | contract/src/lib.rs:178-180 | an accepted batch appends exactly its headers to the log |
| `RunLaws.InitLog` | contract/src/lib.rs:465-485 | the log after initialisation is the list of initial blocks |
| `RunLaws.ChildMtp` | contract/src/bitcoin.rs:29-32 | a child above its parent's median has at least that median |
| `RunLaws.RunMtp` | contract/src/zcash.rs:31-34 | over every run with checks on, every header accepted after initialisation has at least its parent's median time past |
| `RunLaws.MtpAlongChain` | contract/src/bitcoin.rs:29-32 | so median time past never decreases along a chain of verified blocks |
| `RunLaws.ReachableMtp` | contract/src/bitcoin.rs:29-32 | in every state reachable with checks on, every header accepted after the initial blocks has at least its parent's median time past |
| `RunLaws.ReachableMtpAlongChain` | contract/src/bitcoin.rs:29-32 | and it never decreases along any chain of such headers |
| `Queries.RecentHashesAreLinked` | contract/src/lib.rs:237-261 | the view returns the stored ancestors of the tip after the skipped ones, oldest first, and fails exactly when a height would be negative |
| `Relayer.GetLastCorrectBlockHeight` | relayer/src/main.rs:296-326 | returns a height if and only if it is the greatest of the window on which contract and node agree, everything above having been answered |
| `Relayer.SearchSeparates` | relayer/src/main.rs:296-326 | a stored height agrees with the node if and only if it is not above the height found |
| `Relayer.SearchSucceedsIff` | relayer/src/main.rs:296-326 | the search succeeds if and only if some height of its window agrees |
| `Relayer.AgreementBelow` | relayer/src/main.rs:296-326 | agreement at one height gives agreement at every stored height below, by hash linking |
| `Relayer.FetchBlocksToSubmit` | relayer/src/main.rs:75-120 | returns the gap-free run of blocks before the first failure of either kind |
| `Relayer.FetchedRunConnects` | relayer/src/main.rs:228-251 | the blocks fetched after the height found form a connected run on a stored main-chain block |
| `Relayer.ParentAlwaysStored` | contract/src/lib.rs:490-568 | within one call, submitting a connected run never fails for want of a parent, reorganisations included |
| `Relayer.FetchedRunOffMain` | relayer/src/main.rs:228-251 | the blocks fetched after the height found are off the contract's main chain |
| `Relayer.BatchesNeverLackParent` | contract/src/lib.rs:169-197 | a connected run of headers off the main chain, submitted in any number of calls with a collection after each, never lacks a parent at the start of a call |
| `Relayer.RunMovesTip` | contract/src/lib.rs:531-568 | after an accepted connected run the tip is its last block if that is heavier than the old tip, and otherwise the old tip |
| `Progress.ConnectedRunAccepted` | contract/src/lib.rs:490-568 | a connected run on the tip, submitted without checks, is accepted if and only if height and work of its last header fit, and that header is then the tip |
| `Progress.ConnectedInitSucceeds` | contract/src/lib.rs:420-486 | initialisation with connected blocks succeeds exactly when the arguments are aligned, the first hash matches and the last block fits |
| `Progress.SubmissionCollects` | contract/src/lib.rs:169-197 | a submission fails exactly when a header does or the collection would empty the chain; otherwise it collects as many blocks as it has headers, down to the threshold |
| `Progress.ConnectedBatchSize` | contract/src/lib.rs:169-197 | a connected batch on the tip grows the chain up to the threshold and then holds its size |
| `Progress.GcCallSize` | contract/src/lib.rs:377-416 | the size after a call to collect, and when it fails |
| `Progress.SkippingCallAccepts` | contract/src/lib.rs:178-180 | a contract that skips checks accepts a connected batch on the tip if and only if its last header fits |
| `Acceptance.PeriodicAccepts` | contract/src/bitcoin.rs:19-46 | with checks on, a Bitcoin or Litecoin child of a stored block is accepted if and only if it fits, has a place, carries the expected bits, has a time above the median and at most 7200 seconds ahead of the clock, a version of at least 4 and a proof-of-work hash within its target |
| `Acceptance.DogecoinAccepts` | contract/src/dogecoin.rs:166-205 | the same for Dogecoin, without a version rule and with merged mining in place of the header's own work where there is auxiliary data |
| `Acceptance.ZcashAccepts` | contract/src/zcash.rs:21-73 | the same for Zcash, with 28 stored ancestors, a sum of targets that fits, a time at most 5400 seconds above the median and a valid solution |
| `Acceptance.PlacedIff` | contract/src/lib.rs:531-568 | a checked header has a place exactly on the tip, beside the main chain if it is not heavier than the tip, or on a branch that leads back to it |
| `CallSteps.SoundIsGood` | contract/src/lib.rs:90-118 | the sealed invariant of the contract object is the invariant of all runs |
| `CallSteps.SubmitStep` | contract/src/lib.rs:490-568 | what one accepted header does to pool, work and tip |
| `LightClient.BtcLightClient.constructor` | contract/src/lib.rs:135-145 | an uninitialised contract has empty maps |
| `LightClient.BtcLightClient.InitGenesis` | contract/src/lib.rs:420-486 | fails exactly when the specified initialisation does, and otherwise commits its state, which is valid |
| `LightClient.BtcLightClient.SubmitBlocks` | contract/src/lib.rs:169-197 | the whole batch and its collection commit, or nothing changes; the state stays valid; what a successful call does to the size is stated by `SubmissionCollects` |
| `LightClient.BtcLightClient.RunMainchainGc` | contract/src/lib.rs:377-416 | the collection commits or nothing changes; the state stays valid |
| `LightClient.BtcLightClient.CollectGarbage` | contract/src/lib.rs:377-416 | the removal loop computes the specified collection |
| `LightClient.BtcLightClient.RemoveBelow` | contract/src/lib.rs:398-407 | the loop never meets a missing height and removes exactly the range |
| `LightClient.BtcLightClient.SubmitBlockHeader` | contract/src/lib.rs:490-529 | one header fails exactly when the specification does, and otherwise commits its result |
| `LightClient.BtcLightClient.Verify` | contract/src/dogecoin.rs:166-205 | target checks and proof of work, by merged mining where there is auxiliary data, as characterised by the rows of `Acceptance` |
| `LightClient.BtcLightClient.Record` | contract/src/lib.rs:502-515 | the record of a header, or a failure where work or height would overflow |
| `LightClient.BtcLightClient.SubmitBlockHeaderInner` | contract/src/lib.rs:531-568 | extends, stores a fork, or promotes it, as specified |
| `LightClient.BtcLightClient.ReorgChain` | contract/src/lib.rs:575-647 | the two loops compute the specified promotion, and fail exactly when the walk cannot reach the main chain |
| `LightClient.BtcLightClient.TrimMainChain` | contract/src/lib.rs:588-596 | removes the main-chain blocks above the fork tip; stopping short means the promotion fails |
| `LightClient.BtcLightClient.WalkFork` | contract/src/lib.rs:617-642 | hands the heights over to the branch down to the fork point |
| `LightClient.BtcLightClient.StoreBlockHeader` | contract/src/lib.rs:650-656 | enters a header in all three maps |
| `LightClient.BtcLightClient.RemoveBlockHeader` | contract/src/lib.rs:659-662 | drops a hash from the pool and the hash index |
| `LightClient.BtcLightClient.StoreForkHeader` | contract/src/lib.rs:665-667 | enters a header in the pool only |
| `LightClient.BtcLightClient.GetLastNBlocksHashes` | contract/src/lib.rs:237-261 | the loop returns the specified hashes |
| `LightClient.BtcLightClient.VerifyTransactionInclusion` | contract/src/lib.rs:288-323 | the answer characterised by `AnswersWhenConfirmed` |
| `LightClient.BtcLightClient.VerifyTransactionInclusionV2` | contract/src/lib.rs:347-369 | the answer characterised by `SecondVersionExact` |

## Left out

- SHA-256, scrypt and Equihash themselves: hashing is symbolic and the proof-of-work hash is an input.
- The NEAR runtime: storage layout, serialisation, deposits and refunds, roles, pausing, trusted relayers, upgrade and migration.
- Header byte encodings and the deserialisation of the parent coinbase transaction: fixed-offset copying; the coinbase script is an input.
- AuxPow.CoinbaseCommitsOnce: says nothing about coinbases without the marker, where the root may sit at several positions, and requires that the text form tells the two chain roots apart, since symbolic hashes are not bounded by 64 digits.
- Median.SortUnstable: models the library sort by its result, not by its algorithm.
- Relayer.FetchBlocksToSubmit: tasks are awaited in height order as in the source, so the sort after the loop has nothing to move and is not modelled; concurrency of the requests is not observable in the result.
- The relayer's batching, submission-skipping check, retries, adaptive sizes and configuration: scheduling and I/O.
- Simple getters (`get_last_block_header`, `get_block_hash_by_height`, `get_mainchain_size` and the like): they read one entry.
