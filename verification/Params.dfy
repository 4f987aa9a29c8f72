/** Consensus parameters of the four supported chains (`btc-types/src/network.rs`). */
module Params {
  import opened Wide
  import opened Compact
  import opened Hashing

  datatype Network = Mainnet | Testnet

  datatype NetworkConfig = NetworkConfig(
    timespan: nat,           // pow_target_timespan
    interval: nat,           // difficulty_adjustment_interval
    limitBits: u32,          // proof_of_work_limit_bits
    spacing: nat,            // pow_target_spacing
    allowMin: bool,          // pow_allow_min_difficulty_blocks
    powLimit: U256)

  datatype ZcashConfig = ZcashConfig(
    limitBits: u32,
    powLimit: U256,
    window: nat,             // pow_averaging_window
    spacing: nat,            // post_blossom_pow_target_spacing
    maxAdjustDown: nat,      // percent
    maxAdjustUp: nat,        // percent
    minAfterHeight: Option<nat>)
  {
    function WindowTimespan(): nat { window * spacing }
    function MinActual(): int { WindowTimespan() * (100 - maxAdjustUp) / 100 }
    function MaxActual(): int { WindowTimespan() * (100 + maxAdjustDown) / 100 }
  }

  const LOW_LIMB: u128 := 0xffff_ffff_ffff_ffff_ffff_ffff_ffff_ffff

  function BitcoinConfig(n: Network): NetworkConfig {
    NetworkConfig(2016 * 600, 2016, 0x1d00ffff, 600, n.Testnet?,
                  U256(0x0000_0000_ffff_ffff_ffff_ffff_ffff_ffff, LOW_LIMB))
  }

  function LitecoinConfig(n: Network): NetworkConfig {
    NetworkConfig(2016 * 150, 2016, 0x1e0fffff, 150, n.Testnet?,
                  U256(0x0000_0fff_ffff_ffff_ffff_ffff_ffff_ffff, LOW_LIMB))
  }

  function DogecoinConfig(n: Network): NetworkConfig {
    NetworkConfig(60, 1, 0x1e0fffff, 60, n.Testnet?,
                  U256(0x0000_0fff_ffff_ffff_ffff_ffff_ffff_ffff, LOW_LIMB))
  }

  const DOGECOIN_AUX_CHAIN_ID: int := 0x0062

  function ZcashConfigOf(n: Network): ZcashConfig {
    match n
    case Mainnet =>
      ZcashConfig(0x1f07ffff, U256(0x0007_ffff_ffff_ffff_ffff_ffff_ffff_ffff, LOW_LIMB),
                  17, 75, 32, 16, None)
    case Testnet =>
      ZcashConfig(0x2007ffff, U256(0x07ff_ffff_ffff_ffff_ffff_ffff_ffff_ffff, LOW_LIMB),
                  17, 75, 32, 16, Some(299187))
  }
}
