/** Compile-time constants of the simulator (Config.h, Config.c, Topology.h). */
module Config {

  /** Number of heights each of the two level buffers of a Blockchain holds. */
  const DEPTH_TO_KEEP: nat := 200

  /** Number of peers a relayed block is forwarded to; 0 means "all peers". */
  const GOSSIP_FANOUT: nat := 80

  /** Number of transactions generated for a whole run. */
  const TXN_NUMBER: nat := 500000

  /** Number of geographical regions. */
  const REGIONS_NUM: nat := 6

  /** Share of the nodes placed in each region. */
  const REGIONS_DISTRIBUTION: seq<real> := [0.476, 0.222, 0.0, 0.297, 0.005, 0.0]

  /** Processing time charged for validating a block, in seconds. */
  const BLOCK_VALIDATION_TIME: real := 0.03

  /** Bounds the shipped Topology.h compiles in. */
  const N_NODES: nat := 1000
  const MIN_PEERS: nat := 40
  const MAX_PEERS: nat := 120

  /** Node id of the genesis block's miner (UINT32_MAX). */
  const NODE_ID_MAX: nat := 0xFFFF_FFFF

  /** Moduli of the C unsigned types whose wrap-around the model spells out. */
  const SIZE_T_MODULUS: nat := 0x1_0000_0000_0000_0000
  const UINT32_MODULUS: nat := 0x1_0000_0000

}
