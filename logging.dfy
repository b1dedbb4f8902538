/** The logger is modelled as the list of lines it is asked to emit; colours,
    timestamps and the dated log file are not part of this model. */
module Logging {
  import opened Outcomes

  /** How a chain is named in the completion line: `index.js` passes display
      names, `processBridgeTransaction` passes the numeric chain ids. */
  datatype ChainLabel = Named(name: string) | Numbered(id: int)

  datatype LogLine =
      /** info: "Bridge status: <STATUS>[ | Dest TX: <first 10 chars>...]" */
    | StatusChanged(status: string, destTx: Option<string>)
      /** success: "Bridge transfer successful | Destination TX: <first 10 chars>..." */
    | TransferSucceeded(destTxPrefix: string)
      /** error: "Bridge <status in lower case> | Details: <details>" */
    | TransferEnded(outcome: string, details: string)
      /** debug: "Status check error: <message>" */
    | StatusCheckError(reason: string)
      /** info: "Depositing <amount> ETH | Status: <STATE>[ | TX: ...][ | Dest: ...]" */
    | Depositing(amountWei: Option<nat>, state: string, tx: Option<string>, destTx: Option<string>)
      /** success: "Bridge completed | Amount: ... | From: <a> to <b> | TX: <first 10 chars>..." */
    | BridgeCompleted(completedWei: Option<nat>, from: ChainLabel, to: ChainLabel, txPrefix: string)
      /** debug: "Attempting connection to RPC: <url>" */
    | RpcAttempt(url: string)
      /** debug: "RPC <url> failed: ..." */
    | RpcFailed(url: string)
      /** info: "Current wallet balance: <balance> ETH" */
    | WalletBalance(wei: nat)
      /** error: "Bridge transaction failed: <message>" */
    | TransactionFailed(error: BridgeError)
      /** error: "Failed to load private keys: <message>" */
    | KeyLoadFailed(reason: string)
}
