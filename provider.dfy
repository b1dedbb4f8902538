/** `ProviderManager` (utils/providerUtils.js): ordered RPC fallback and the
    chain-id lookup in the chain configuration. The liveness probe
    (`provider.getNetwork()`) is an abstract predicate on URLs. */
module ProviderResolver {
  import opened Outcomes
  import opened Logging
  import opened Config

  /** A provider bound to the URL whose probe succeeded. */
  datatype Provider = Provider(url: string)

  /** `k` is the first position whose probe succeeds. */
  predicate FirstWorkingAt(urls: seq<string>, probe: string -> bool, k: nat)
  {
    k < |urls| && probe(urls[k]) && forall j :: 0 <= j < k ==> !probe(urls[j])
  }

  /** The debug lines of one probe: the attempt, and the failure when it fails. */
  function ProbeLines(url: string, ok: bool): seq<LogLine>
  {
    [RpcAttempt(url)] + (if ok then [] else [RpcFailed(url)])
  }

  function ProbeLog(urls: seq<string>, probe: string -> bool): seq<LogLine>
  {
    if urls == [] then [] else ProbeLines(urls[0], probe(urls[0])) + ProbeLog(urls[1..], probe)
  }

  lemma {:induction false} ProbeLogAppend(a: seq<string>, b: seq<string>, probe: string -> bool)
    ensures ProbeLog(a + b, probe) == ProbeLog(a, probe) + ProbeLog(b, probe)
  {
    if a == [] {
      assert a + b == b;
    } else {
      assert (a + b)[0] == a[0] && (a + b)[1..] == a[1..] + b;
      ProbeLogAppend(a[1..], b, probe);
    }
  }

  /** `getWorkingProvider(chainId, rpcUrls)`: returns the provider of the first
      URL, in list order, whose probe succeeds; `probed` is the list of URLs
      probed, in order. A missing or empty list fails before any probe; a list
      whose every probe fails fails after probing each URL once. */
  method GetWorkingProvider(chainId: int, rpcUrls: Option<seq<string>>, probe: string -> bool)
    returns (r: Result<Provider>, probed: seq<string>, log: seq<LogLine>)
    ensures rpcUrls.None? || rpcUrls.value == [] ==>
              r == Err(NoRpcConfigured(chainId)) && probed == [] && log == []
    ensures rpcUrls.Some? && rpcUrls.value != [] ==>
              (r.Ok? <==> exists k :: 0 <= k < |rpcUrls.value| && probe(rpcUrls.value[k]))
    ensures r.Ok? ==>
              rpcUrls.Some? &&
              (exists k: nat :: FirstWorkingAt(rpcUrls.value, probe, k) &&
                 r.value == Provider(rpcUrls.value[k]) && probed == rpcUrls.value[..k + 1])
    ensures r.Err? && rpcUrls.Some? && rpcUrls.value != [] ==>
              r == Err(NoWorkingRpc(chainId)) && probed == rpcUrls.value
    ensures log == ProbeLog(probed, probe)
  {
    if rpcUrls.None? || |rpcUrls.value| == 0 {
      return Err(NoRpcConfigured(chainId)), [], [];
    }
    var urls := rpcUrls.value;
    probed, log := [], [];
    for i := 0 to |urls|
      invariant probed == urls[..i]
      invariant forall j :: 0 <= j < i ==> !probe(urls[j])
      invariant log == ProbeLog(probed, probe)
    {
      var rpcUrl := urls[i];
      var ok := probe(rpcUrl);
      ProbeLogAppend(probed, [rpcUrl], probe);
      probed := probed + [rpcUrl];
      log := log + ProbeLines(rpcUrl, ok);
      if ok {
        assert FirstWorkingAt(urls, probe, i);
        return Ok(Provider(rpcUrl)), probed, log;
      }
    }
    assert probed == urls;
    return Err(NoWorkingRpc(chainId)), probed, log;
  }

  /** The first chain entry of a network whose id is `chainId`, as
      JavaScript's `find` over the entries in order. */
  function FindInNetwork(chainId: int, network: Network): (r: Option<ChainConfig>)
    ensures r.None? <==> forall c :: c in network ==> c.id != chainId
    ensures r.Some? ==>
              exists k :: 0 <= k < |network| && r.value == network[k] && network[k].id == chainId &&
                          forall j :: 0 <= j < k ==> network[j].id != chainId
  {
    if network == [] then None
    else if network[0].id == chainId then Some(network[0])
    else
      var r := FindInNetwork(chainId, network[1..]);
      assert r.Some? ==>
               exists k :: 1 <= k < |network| && r.value == network[k] && network[k].id == chainId &&
                           forall j :: 1 <= j < k ==> network[j].id != chainId by {
        if r.Some? {
          var k :| 0 <= k < |network[1..]| && r.value == network[1..][k] && network[1..][k].id == chainId &&
                   forall j :: 0 <= j < k ==> network[1..][j].id != chainId;
          assert network[k + 1] == network[1..][k];
          forall j | 1 <= j < k + 1 ensures network[j].id != chainId {
            assert network[j] == network[1..][j - 1];
          }
        }
      }
      r
  }

  /** `k` is the first network of `configs` holding a chain with id `chainId`. */
  predicate FirstNetworkAt(chainId: int, configs: seq<Network>, k: nat)
  {
    k < |configs| && FindInNetwork(chainId, configs[k]).Some? &&
    forall j :: 0 <= j < k ==> FindInNetwork(chainId, configs[j]).None?
  }

  /** A first network of the tail is a first network of the whole when the
      head holds no such chain. */
  lemma FirstNetworkShift(chainId: int, configs: seq<Network>, k: nat)
    requires configs != [] && FindInNetwork(chainId, configs[0]).None?
    requires FirstNetworkAt(chainId, configs[1..], k)
    ensures FirstNetworkAt(chainId, configs, k + 1) && configs[k + 1] == configs[1..][k]
  {
    forall j | 1 <= j < k + 1 ensures FindInNetwork(chainId, configs[j]).None? {
      assert configs[j] == configs[1..][j - 1];
    }
  }

  /** The first network, in configuration order, that holds a chain entry
      with id `chainId`, as the outer `find` of `getChainProvider`. */
  function FindNetwork(chainId: int, configs: seq<Network>): (r: Option<Network>)
    ensures r.None? <==> forall n :: n in configs ==> FindInNetwork(chainId, n).None?
    ensures r.Some? ==> exists k: nat :: FirstNetworkAt(chainId, configs, k) && r.value == configs[k]
  {
    if configs == [] then None
    else if FindInNetwork(chainId, configs[0]).Some? then
      assert configs[0] in configs && FirstNetworkAt(chainId, configs, 0);
      Some(configs[0])
    else
      var r := FindNetwork(chainId, configs[1..]);
      assert r.Some? ==>
               (exists k: nat :: FirstNetworkAt(chainId, configs, k) && r.value == configs[k]) &&
               !(forall n :: n in configs ==> FindInNetwork(chainId, n).None?) by {
        if r.Some? {
          var k: nat :| FirstNetworkAt(chainId, configs[1..], k) && r.value == configs[1..][k];
          FirstNetworkShift(chainId, configs, k);
          assert configs[k + 1] in configs;
        }
      }
      assert r.None? ==> forall n :: n in configs ==> FindInNetwork(chainId, n).None? by {
        if r.None? {
          forall n | n in configs ensures FindInNetwork(chainId, n).None? {
            if n != configs[0] {
              assert n in configs[1..];
            }
          }
        }
      }
      r
  }

  function LookupChain(chainId: int, configs: seq<Network>): Option<ChainConfig>
  {
    match FindNetwork(chainId, configs)
    case None => None
    case Some(network) => FindInNetwork(chainId, network)
  }

  /** Reference definition: all chain entries of all networks, in order. */
  function AllChains(configs: seq<Network>): seq<ChainConfig>
  {
    if configs == [] then [] else configs[0] + AllChains(configs[1..])
  }

  /** The nested lookup finds the first chain entry, over all networks in
      order, whose id is `chainId`; it finds none exactly when no entry has it. */
  lemma {:induction false} LookupChainIsFirstMatch(chainId: int, configs: seq<Network>)
    ensures LookupChain(chainId, configs) == FindInNetwork(chainId, AllChains(configs))
  {
    if configs != [] {
      LookupChainIsFirstMatch(chainId, configs[1..]);
      FindInNetworkAppend(chainId, configs[0], AllChains(configs[1..]));
    }
  }

  lemma {:induction false} FindInNetworkAppend(chainId: int, a: Network, b: Network)
    ensures FindInNetwork(chainId, a + b) ==
            if FindInNetwork(chainId, a).Some? then FindInNetwork(chainId, a) else FindInNetwork(chainId, b)
  {
    if a == [] {
      assert a + b == b;
    } else {
      assert (a + b)[0] == a[0] && (a + b)[1..] == a[1..] + b;
      FindInNetworkAppend(chainId, a[1..], b);
    }
  }

  /** `getChainProvider(chainId, chainConfigs)`: an unknown chain id fails with
      "Unsupported chain ID" before any probe; a known one is resolved with
      exactly the `rpcs` list of its chain entry. */
  method GetChainProvider(chainId: int, configs: seq<Network>, probe: string -> bool)
    returns (r: Result<Provider>, probed: seq<string>, log: seq<LogLine>)
    ensures LookupChain(chainId, configs).None? ==>
              r == Err(UnsupportedChain(chainId)) && probed == [] && log == []
    ensures LookupChain(chainId, configs).Some? ==>
              var rpcs := LookupChain(chainId, configs).value.rpcs;
              (rpcs.None? || rpcs.value == [] ==> r == Err(NoRpcConfigured(chainId)) && probed == []) &&
              (rpcs.Some? && rpcs.value != [] ==>
                 (r.Ok? <==> exists k :: 0 <= k < |rpcs.value| && probe(rpcs.value[k]))) &&
              (r.Ok? ==>
                 rpcs.Some? &&
                 (exists k: nat :: FirstWorkingAt(rpcs.value, probe, k) &&
                    r.value == Provider(rpcs.value[k]) && probed == rpcs.value[..k + 1])) &&
              (r.Err? && rpcs.Some? && rpcs.value != [] ==>
                 r == Err(NoWorkingRpc(chainId)) && probed == rpcs.value)
    ensures log == ProbeLog(probed, probe)
  {
    var chain := LookupChain(chainId, configs);
    if chain.None? {
      return Err(UnsupportedChain(chainId)), [], [];
    }
    r, probed, log := GetWorkingProvider(chainId, chain.value.rpcs, probe);
  }

  /** With the shipped configuration, Sepolia resolves against its three RPC
      URLs and chain id 1 (Ethereum mainnet) is unsupported. */
  lemma ShippedLookup()
    ensures LookupChain(SepoliaId, ChainConfigs) == Some(ChainConfig("SEPOLIA", SepoliaId, Some(SepoliaRpcs)))
    ensures LookupChain(BaseSepoliaId, ChainConfigs).Some?
    ensures LookupChain(1, ChainConfigs) == None
  {
  }
}
