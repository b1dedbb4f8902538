/** Failure-compatible wrappers and the errors the bridge tool raises. */
module Outcomes {

  datatype Option<+T> = None | Some(value: T)

  /** The errors thrown by the bridge service and the provider resolver.
      The source throws `Error` objects whose messages carry these fields. */
  datatype BridgeError =
    | NoRpcConfigured(chainId: int)          // "No RPC configured for chain <id>"
    | NoWorkingRpc(chainId: int)             // "No working RPC found for chain <id>"
    | UnsupportedChain(chainId: int)         // "Unsupported chain ID: <id>"
    | ProviderConnectFailed                  // "Failed to connect to provider: ..."
    | InsufficientBalance(requiredWei: nat, availableWei: nat)
    | QuoteFailed(reason: string)            // rejection of the SDK's getQuote
    | ExecutionFailed(reason: string)        // rejection of the SDK's execute
    | NoRequestId                            // "No requestId received from bridge execution"
    | StatusPollTimeout                      // "Bridge status check timed out after 5 minutes"

  datatype Result<+T> = Ok(value: T) | Err(error: BridgeError)
}
