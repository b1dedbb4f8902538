/** `BridgeService` (services/bridgeService.js): the per-wallet bridge flow.
    The RPC probe, the wallet balance, the SDK's quote and execute calls and
    the status endpoint are inputs; amounts are in wei. */
module Bridge {
  import opened Outcomes
  import opened Logging
  import opened Config
  import opened ProviderResolver
  import opened Progress
  import opened StatusPoller

  /** The signer: a private key bound to the URL of the provider it uses. */
  datatype Wallet = Wallet(privateKey: string, providerUrl: string)

  /** The arguments of the SDK's `getQuote`, with the API base URL the relay
      client was configured with just before. */
  datatype QuoteRequest = QuoteRequest(
    apiBase: string, chainId: int, toChainId: int, currency: string, toCurrency: string,
    amountWei: nat, tradeType: string, wallet: Wallet)

  /** `getChainProvider(chainId)`: whatever the chain, it connects to Sepolia's
      first RPC URL; a failed probe is "Failed to connect to provider". */
  function ServiceChainProvider(chainId: int, probe: string -> bool): (r: Result<Provider>)
    ensures r.Ok? <==> probe(SepoliaRpcs[0])
    ensures r.Ok? ==> r.value == Provider(SepoliaRpcs[0])
    ensures r.Err? ==> r.error == ProviderConnectFailed
  {
    if probe(SepoliaRpcs[0]) then Ok(Provider(SepoliaRpcs[0])) else Err(ProviderConnectFailed)
  }

  /** The chain id passed to `getChainProvider` makes no difference. */
  lemma ServiceChainProviderIgnoresChain(a: int, b: int, probe: string -> bool)
    ensures ServiceChainProvider(a, probe) == ServiceChainProvider(b, probe)
  {
  }

  /** `validateBalance(amount)`: fails with "Insufficient balance" exactly
      when the balance is below the amount, and otherwise returns the balance. */
  function ValidateBalance(balanceWei: nat, amountWei: nat): (r: Result<nat>)
    ensures r.Ok? <==> amountWei <= balanceWei
    ensures r.Ok? ==> r.value == balanceWei
    ensures r.Err? ==> r.error == InsufficientBalance(amountWei, balanceWei)
  {
    if balanceWei < amountWei then Err(InsufficientBalance(amountWei, balanceWei)) else Ok(balanceWei)
  }

  /** The network is chosen by the source chain id alone: Sepolia (11155111)
      selects the testnet relay API, every other chain the mainnet one. */
  predicate UsesTestnetApi(sourceChainId: int)
  {
    sourceChainId == SepoliaId
  }

  /** `getQuote(sourceChainId, destChainId, amount)`: the request handed to
      the SDK, native ETH to native ETH, exact input. */
  function QuoteRequestFor(sourceChainId: int, destChainId: int, amountWei: nat, wallet: Wallet)
    : (q: QuoteRequest)
    ensures q.apiBase == TestnetApi <==> sourceChainId == SepoliaId
    ensures q.apiBase == MainnetApi <==> sourceChainId != SepoliaId
    ensures q.chainId == sourceChainId && q.toChainId == destChainId && q.amountWei == amountWei
    ensures q.currency == EthAddress && q.toCurrency == EthAddress && q.tradeType == "EXACT_INPUT"
  {
    QuoteRequest(ApiBase(UsesTestnetApi(sourceChainId)), sourceChainId, destChainId,
                 EthAddress, EthAddress, amountWei, "EXACT_INPUT", wallet)
  }

  /** Base Sepolia is a testnet chain of the configuration, yet as a source
      chain it selects the mainnet relay API. */
  lemma BaseSepoliaUsesMainnetApi(amountWei: nat, wallet: Wallet)
    ensures QuoteRequestFor(BaseSepoliaId, SepoliaId, amountWei, wallet).apiBase == MainnetApi
  {
  }

  class BridgeService {
    var provider: Option<Provider>
    var wallet: Option<Wallet>

    constructor ()
      ensures provider == None && wallet == None
    {
      provider, wallet := None, None;
    }

    /** `initialize(chainId, privateKey)`: connect, then build the wallet on
        that provider. On a failed connection neither field is assigned. */
    method Initialize(chainId: int, privateKey: string, probe: string -> bool) returns (r: Result<Provider>)
      modifies this
      ensures r == ServiceChainProvider(chainId, probe)
      ensures r.Ok? ==> provider == Some(r.value) && wallet == Some(Wallet(privateKey, r.value.url))
      ensures r.Err? ==> provider == old(provider) && wallet == old(wallet)
    {
      r := ServiceChainProvider(chainId, probe);
      if r.Ok? {
        provider := Some(r.value);
        wallet := Some(Wallet(privateKey, r.value.url));
      }
    }

    /** `processBridgeTransaction(...)`: initialize, check the balance, quote,
        execute, then poll the status of the request id the execution latched.
        Every failure is logged as "Bridge transaction failed" and returned. */
    method ProcessBridgeTransaction(
      sourceChainId: int, destChainId: int, amountWei: nat, privateKey: string,
      probe: string -> bool, balanceWei: nat, quoteFailure: Option<string>,
      events: seq<ProgressEvent>, executeFailure: Option<string>, responses: seq<Response>)
      returns (r: Result<StatusPayload>, quote: Option<QuoteRequest>, statusUrl: Option<string>,
               log: seq<LogLine>)
      requires MaxAttempts <= |responses|
      modifies this
      ensures !probe(SepoliaRpcs[0]) ==> r == Err(ProviderConnectFailed) && quote == None
      ensures probe(SepoliaRpcs[0]) && balanceWei < amountWei ==>
                r == Err(InsufficientBalance(amountWei, balanceWei)) && quote == None
      ensures probe(SepoliaRpcs[0]) && amountWei <= balanceWei ==>
                quote == Some(QuoteRequestFor(sourceChainId, destChainId, amountWei,
                                              Wallet(privateKey, SepoliaRpcs[0])))
      ensures probe(SepoliaRpcs[0]) && amountWei <= balanceWei && quoteFailure.Some? ==>
                r == Err(QuoteFailed(quoteFailure.value))
      ensures probe(SepoliaRpcs[0]) && amountWei <= balanceWei && quoteFailure.None? &&
              executeFailure.Some? ==>
                r == Err(ExecutionFailed(executeFailure.value))
      ensures probe(SepoliaRpcs[0]) && amountWei <= balanceWei && quoteFailure.None? &&
              executeFailure.None? && FirstRequestId(AllItems(events)).None? ==>
                r == Err(NoRequestId)
      ensures probe(SepoliaRpcs[0]) && amountWei <= balanceWei && quoteFailure.None? &&
              executeFailure.None? && FirstRequestId(AllItems(events)).Some? ==>
                r == PollFrom(responses, 0, "").result &&
                statusUrl == Some(StatusUrl(UsesTestnetApi(sourceChainId),
                                            FirstRequestId(AllItems(events)).value))
      ensures statusUrl.Some? <==>
                probe(SepoliaRpcs[0]) && amountWei <= balanceWei && quoteFailure.None? &&
                executeFailure.None? && FirstRequestId(AllItems(events)).Some?
      ensures statusUrl.Some? ==> r.Ok? || r == Err(StatusPollTimeout)
      ensures probe(SepoliaRpcs[0]) ==>
                provider == Some(Provider(SepoliaRpcs[0])) && wallet == Some(Wallet(privateKey, SepoliaRpcs[0]))
      ensures !probe(SepoliaRpcs[0]) ==> provider == old(provider) && wallet == old(wallet)
      ensures !probe(SepoliaRpcs[0]) || balanceWei < amountWei ==> log == [TransactionFailed(r.error)]
      ensures probe(SepoliaRpcs[0]) && amountWei <= balanceWei && quoteFailure.Some? ==>
                log == [WalletBalance(balanceWei), TransactionFailed(r.error)]
      ensures probe(SepoliaRpcs[0]) && amountWei <= balanceWei && quoteFailure.None? ==>
                log == [WalletBalance(balanceWei)] +
                       ExecutionLog(events, false, Numbered(sourceChainId), Numbered(destChainId)).0 +
                       (if statusUrl.Some? then PollFrom(responses, 0, "").log else []) +
                       (if r.Err? then [TransactionFailed(r.error)] else [])
      ensures r.Err? ==> log != [] && log[|log| - 1] == TransactionFailed(r.error)
    {
      quote, statusUrl := None, None;
      var connected := Initialize(sourceChainId, privateKey, probe);
      if connected.Err? {
        r := Err(connected.error);
        log := [TransactionFailed(r.error)];
        return;
      }
      var balance := ValidateBalance(balanceWei, amountWei);
      if balance.Err? {
        r := Err(balance.error);
        log := [TransactionFailed(r.error)];
        return;
      }
      var w := wallet.value;
      var request := QuoteRequestFor(sourceChainId, destChainId, amountWei, w);
      quote := Some(request);
      if quoteFailure.Some? {
        r := Err(QuoteFailed(quoteFailure.value));
        log := [WalletBalance(balanceWei), TransactionFailed(r.error)];
        return;
      }
      var executed, progressLog := ExecuteBridge(events, executeFailure,
                                                 Numbered(sourceChainId), Numbered(destChainId));
      var before := [WalletBalance(balanceWei)] + progressLog;
      if executed.Err? {
        r := Err(executed.error);
        log := before + [] + [TransactionFailed(r.error)];
        return;
      }
      var requestId := executed.value;
      if requestId.None? {
        r := Err(NoRequestId);
        log := before + [] + [TransactionFailed(r.error)];
        return;
      }
      var url, result, pollLog, requests := TrackBridgeStatus(requestId.value, UsesTestnetApi(sourceChainId), responses);
      PollFailsOnlyByTimeout(responses);
      statusUrl := Some(url);
      r := result;
      log := before + pollLog + (if r.Err? then [TransactionFailed(r.error)] else []);
    }
  }
}
