/** The static configuration of the tool: chain entries with their RPC lists,
    and the two relay API base URLs. */
module Config {
  import opened Outcomes

  /** A chain entry: `{ id, rpcs }` under a network key; `rpcs` may be absent. */
  datatype ChainConfig = ChainConfig(name: string, id: int, rpcs: Option<seq<string>>)

  /** `Object.values(network)`: the chain entries of one network, in key order. */
  type Network = seq<ChainConfig>

  const SepoliaId: int := 11155111
  const BaseSepoliaId: int := 84532

  const SepoliaRpcs: seq<string> := [
    "https://eth-sepolia.public.blastapi.io",
    "https://ethereum-sepolia.blockpi.network/v1/rpc/public",
    "https://rpc.ankr.com/eth_sepolia"
  ]
  const BaseSepoliaRpcs: seq<string> := ["https://sepolia.base.org"]

  /** `Object.values(CHAIN_CONFIGS)`: only the TESTNET network is configured. */
  const ChainConfigs: seq<Network> := [
    [ ChainConfig("SEPOLIA", SepoliaId, Some(SepoliaRpcs)),
      ChainConfig("BASE_SEPOLIA", BaseSepoliaId, Some(BaseSepoliaRpcs)) ]
  ]

  const TestnetApi: string := "https://api.testnets.relay.link"
  const MainnetApi: string := "https://api.relay.link"

  /** The native-currency address passed as both currencies of a quote. */
  const EthAddress: string := "0x0000000000000000000000000000000000000000"
}
