# relay-bridge decision logic, modelled in Dafny

This project models the self-contained decision logic of the relay-bridge
command-line tool. The tool bridges ETH between EVM chains for a list of
wallets through the relay SDK. Everything around that logic (the SDK, ethers,
HTTP, prompts, the logger's files) becomes inputs and outputs:

- **Status poller** (`trackBridgeStatus`, module `StatusPoller`). This is a
  bounded loop over the relay status endpoint. Each request's outcome is taken
  in order from a sequence of `Response`s: an error, or a payload. The 3-second
  sleeps become an attempt counter. The loop is the method `TrackBridgeStatus`,
  proved equal to the specification function `PollFrom`, and the lemmas are
  about `PollFrom`.
- **Progress extraction** (the `onProgress` callback of `executeBridge`,
  module `Progress`). The closure's `requestId`/`txProcessed` latches and the
  log are the fields of class `ExecutionProgress`. `ExecuteBridge` delivers a
  sequence of progress events to it.
- **Balance check, quote request and orchestration** (class
  `Bridge.BridgeService`). `initialize` sets the `provider` and `wallet`
  fields. Amounts are `nat` wei. The RPC probe, the balance and the SDK's
  quote/execute outcomes are parameters.
- **RPC fallback resolver** (`ProviderManager`, module `ProviderResolver`).
  The liveness probe is an abstract predicate on URLs, and the resolver returns
  the list of URLs it probed. The chain configuration is a sequence of
  networks, each a sequence of chain entries (`Object.values` order).
- **Key-file parsing** (`loadPrivateKeys`, module `KeyFile`):
  `split('\n')`, JavaScript `trim` (its exact whitespace set) and the filter
  that drops empty strings. A read failure becomes `Exited(1, ...)`.

The logger is modelled as the list of `Logging.LogLine` values it is asked to
emit.

Behaviour as written that the model keeps:

- A SUCCESS answer with no `txHashes[0]` makes the success log line throw
  inside the poller's `try`. That attempt counts as an error and polling goes
  on (`Ends`, `Attempt`).
- The poller returns the payload with its original `status`. Only its local
  copy is upper-cased.
- `lastStatus` starts as the empty string, so an empty status is not logged
  when it is the first answer or follows another empty status. After any
  other status it is logged like any change.
- A completed progress item without an internal transaction hash makes
  `txHash.slice` throw after the "Depositing" line. No completion line is
  logged and `txProcessed` stays clear.
- The testnet API is chosen only for source chain 11155111. Base Sepolia
  (84532), although listed under the testnet configuration, gets the mainnet
  API (`BaseSepoliaUsesMainnetApi`).
- `BridgeService.getChainProvider` ignores its chain id and always probes
  Sepolia's first RPC URL. `ProviderManager` is not used by the service.
- The resolver has two distinct errors, one for an empty or missing list and
  one for all probes failing, and a third for an unknown chain id. It does not
  have a single "no provider" error.

## Model

| member | source | states |
|---|---|---|
| `StatusPoller.TrackBridgeStatus` | services/bridgeService.js:112-165 | the polling loop yields exactly the outcome, log and request count of the specification `PollFrom` from attempt 0 with an empty last status, and polls the status URL of the chosen network |
| `StatusPoller.StatusUrl` | services/bridgeService.js:113-120 | the status URL starts with the testnet API base exactly when the network flag is set, and the mainnet one otherwise |
| `Text.ToUpper` | services/bridgeService.js:128 | upper-casing keeps the length |
| `Text.ToUpperChars` | services/bridgeService.js:128 | upper-casing maps each character on its own, in place (ASCII letters only) |
| `Text.ToLower` | services/bridgeService.js:147 | lower-casing keeps the length |
| `Text.ToLowerChars` | services/bridgeService.js:147 | lower-casing maps each character on its own, in place (ASCII letters only) |
| `StatusPoller.PollOnce` | services/bridgeService.js:119-161 | one loop iteration logs exactly the lines of the specification `Attempt` and either returns the answer's payload, exactly when `Attempt` ends, or carries on with the status `Attempt` remembers |
| `StatusPoller.Attempt` | services/bridgeService.js:119-161 | one attempt returns exactly when the answer's upper-cased status is SUCCESS, FAILURE or REFUND (SUCCESS needing a first tx hash), and then returns that answer's original payload |
| `StatusPoller.PollShape` | services/bridgeService.js:112-165 | of `PollFrom`, the specification of the whole loop: at most the remaining budget of requests; an Ok result is the payload of the first ending answer, after one request per attempt up to it; an Err result is the timeout after all remaining attempts, and only when no remaining answer ends the loop |
| `StatusPoller.PollReturnsFirstEnd` | services/bridgeService.js:140-153 | given the first ending answer at index k, polling returns its payload after exactly k+1 requests, whatever mix of errors and non-terminal answers precedes it, and makes no further request |
| `StatusPoller.PollTimesOut` | services/bridgeService.js:115-164 | when no answer within 100 attempts ends the loop (errors and non-terminal answers alike), exactly 100 requests are made and the result is the timeout error |
| `StatusPoller.PollFailsOnlyByTimeout` | services/bridgeService.js:118-164 | the only error the loop ends with is the timeout: every failed request is caught inside the loop |
| `StatusPoller.AttemptLogsChange` | services/bridgeService.js:128-137 | one attempt logs a "Bridge status" line exactly when the upper-cased status differs from the last logged one, which it then becomes; an error logs none and keeps it |
| `StatusPoller.PollLogsChanges` | services/bridgeService.js:131-137 | the statuses of a run's "Bridge status" lines are the upper-cased statuses of its answered requests, with each status equal to the previous one dropped |
| `StatusPoller.ChangesNeverRepeat` | services/bridgeService.js:131-137 | change-only logging never logs the same status twice in a row, and never starts with the status already last logged |
| `StatusPoller.PendingThenSuccess` | services/bridgeService.js:118-162 | N PENDING answers then SUCCESS, with N+1 <= 100: exactly N+1 requests, and the SUCCESS payload is returned |
| `StatusPoller.PendingThenSuccessLogs` | services/bridgeService.js:127-137 | in that scenario the status line is logged once for PENDING (when N > 0) and once for SUCCESS |
| `Progress.FirstRequestId` | services/bridgeService.js:71-76 | the result is the request id of the first item, in flattened order, that has a non-empty one; it is None exactly when no item has one |
| `Progress.FirstRequestIdAppend` | services/bridgeService.js:70-77 | over two runs of items, the first id of the first run wins and the second run is consulted only when the first has none, so a latched id is never overwritten |
| `Progress.DisplayLines` | services/bridgeService.js:79-105 | one event logs nothing exactly when it has no primary item, and otherwise starts with the Depositing line showing the item's amount; the latch ends set iff it was set or the item is complete with an internal hash; the completion line is logged (two lines in all) exactly when that newly sets the latch |
| `Progress.DisplayReadsPrimaryItem` | services/bridgeService.js:79-105 | the display depends only on `steps[0].items[0]`; with no such item nothing is logged; a missing progress state shows as PENDING; a completion line is logged only while the latch is clear, and then the latch is set |
| `Progress.RequestIdScanReachesLaterSteps` | services/bridgeService.js:70-82 | the request-id scan reaches later steps, while the display still reads the first item |
| `Progress.ExecutionProgress.constructor` | services/bridgeService.js:62-63 | both latches start clear and the log is empty |
| `Progress.ExecutionProgress.OnProgress` | services/bridgeService.js:68-106 | a set request id is kept; an unset one becomes the event's first request id; the log grows by the display lines of the primary item; the invariant "completion logged iff `txProcessed`" is kept |
| `Progress.ExecuteBridge` | services/bridgeService.js:61-110 | the returned id is the first request id over all items of all events in order; the completion line appears at most once; an SDK rejection is an execution failure |
| `Bridge.ServiceChainProvider` | services/bridgeService.js:18-27 | the result is Sepolia's first RPC URL when its probe succeeds, and "Failed to connect to provider" otherwise |
| `Bridge.ServiceChainProviderIgnoresChain` | services/bridgeService.js:18-23 | the chain id argument makes no difference |
| `Bridge.ValidateBalance` | services/bridgeService.js:29-38 | fails with insufficient balance exactly when balance < amount, and otherwise returns the balance unchanged |
| `Bridge.QuoteRequestFor` | services/bridgeService.js:40-58 | the quote uses the testnet API exactly for source chain 11155111 and the mainnet API otherwise; it is native ETH to native ETH, exact input, for the given chains and wei amount |
| `Bridge.BaseSepoliaUsesMainnetApi` | services/bridgeService.js:46 | source chain 84532 (a configured testnet chain) selects the mainnet API |
| `Bridge.BridgeService.constructor` | services/bridgeService.js:8-11 | provider and wallet start unset |
| `Bridge.BridgeService.Initialize` | services/bridgeService.js:13-16 | on a successful connection, provider and wallet are set to Sepolia's first RPC and a wallet bound to it; on failure neither field changes |
| `Bridge.BridgeService.ProcessBridgeTransaction` | services/bridgeService.js:167-191 | the errors come in order: connection, insufficient balance, quote, execution, missing request id. Otherwise the result is the poller's, on the status URL of the network keyed on chain 11155111, and a status URL is polled exactly on that path. A successful connection sets `provider` and `wallet` to Sepolia's first RPC and a wallet bound to it before anything else can fail; a failed one leaves both. The whole log is given on every path: the failure line alone before the balance is known; otherwise the balance line, then the progress lines, then the poll lines, then the failure line on an error |
| `ProviderResolver.GetWorkingProvider` | utils/providerUtils.js:5-22 | a missing or empty list fails with "No RPC configured" before any probe. Otherwise it succeeds iff some probe succeeds, returns the first working URL in list order after probing exactly the URLs up to it, once each; if all fail, it reports "No working RPC" after probing each URL once |
| `ProviderResolver.GetChainProvider` | utils/providerUtils.js:24-37 | an unknown chain id fails with "Unsupported chain ID" and probes nothing. A known one is resolved with exactly its chain entry's `rpcs` list: no list or an empty one fails with "No RPC configured"; otherwise it succeeds iff some URL of the list works, with the first working URL after probing exactly the URLs up to it, and else fails with "No working RPC" after probing them all |
| `ProviderResolver.FindInNetwork` | utils/providerUtils.js:33-34 | the entry found is the first entry of the network, in order, with the id; none is found exactly when no entry has it |
| `ProviderResolver.FindNetwork` | utils/providerUtils.js:25-27 | the network found is the first one, in configuration order, holding a chain with the id; none is found exactly when no network holds one |
| `ProviderResolver.LookupChainIsFirstMatch` | utils/providerUtils.js:25-34 | `LookupChain`, the nested lookup, equals the first entry with that id over all networks' entries in order |
| `ProviderResolver.ShippedLookup` | config/constants.js:1-16 | with the shipped configuration, Sepolia resolves to its three RPC URLs, Base Sepolia is known and chain 1 is unsupported |
| `KeyFile.Split` | utils/helpers.js:11 | splitting gives at least one piece, and no piece holds a line feed |
| `KeyFile.JoinSplit` | utils/helpers.js:11 | joining the pieces with line feeds gives back the content |
| `KeyFile.SplitAppend` | utils/helpers.js:11 | the pieces of `a + "\n" + b` are the pieces of `a` followed by those of `b` |
| `KeyFile.TrimSpec` | utils/helpers.js:11 | of `Trim` (JavaScript `trim`): trimming gives an infix whose removed prefix and suffix are JavaScript whitespace, and it neither starts nor ends with whitespace |
| `KeyFile.TrimEmptyIff` | utils/helpers.js:11 | a trimmed line is empty exactly when the line is whitespace only |
| `KeyFile.TrimIdempotent` | utils/helpers.js:11 | trimming twice is trimming once |
| `KeyFile.TrimAll` | utils/helpers.js:11 | the map keeps one entry per line, and the entry at each position is the trimmed line at that position |
| `KeyFile.NonEmpty` | utils/helpers.js:11 | the filter keeps only non-empty strings of the input, keeps every non-empty string of it, and never grows the list |
| `KeyFile.ParseKeys` | utils/helpers.js:11 | there are no more keys than lines and no key is empty; the exact list is given by `ParseKeysKeepsNonBlankLines` |
| `KeyFile.ParseKeysKeepsNonBlankLines` | utils/helpers.js:11 | the keys are the trimmed non-blank lines in file order; exactly the blank and whitespace-only lines are dropped |
| `KeyFile.ParseKeysWellFormed` | utils/helpers.js:11 | every key is non-empty, equals its trimmed form, has no leading or trailing whitespace (a CRLF `\r` included) and no line feed; there are no more keys than lines |
| `KeyFile.ParseKeysAppend` | utils/helpers.js:11 | keys keep the relative order of their lines: the keys of `a + "\n" + b` are those of `a` followed by those of `b` |
| `KeyFile.LoadPrivateKeys` | utils/helpers.js:8-16 | a read failure logs the error and exits with code 1, returning no list; otherwise the result is the list of trimmed non-blank lines |

## Left out

- `getRandomAmount` (utils/helpers.js:25-31): it uses floating-point `parseFloat`, `Math.pow` and `toFixed`, and `Math.random`.
- `index.js`: the interactive prompts, the `/chains` fetch, `process.exit` and the per-wallet loop that continues after an error. Its comparison of the returned status with lower-case `'success'` is not modelled.
- `config/logger.js`: colours, timestamps and the dated log file. Only the emitted lines are modelled, not their rendered text.
- `utils/walletAdapter.js` and ethers: `parseEther`/`formatEther`, wallet construction (a malformed private key is not modelled), `getNetwork`, and `getBalance`, which is called twice and is assumed to give the same balance both times.
- The relay SDK: the quote object is opaque, so only the request is modelled. `execute` is modelled as the events it delivers followed by an optional rejection. How the SDK treats a callback whose promise rejects is unknown; the model goes on delivering events.
- The 3-second sleeps and all real time: attempts are counted instead.
- The status payload: non-string fields, and a `status` that is not a string, are not modelled. A missing `status` is folded into an error response. Missing `txHashes` behave as an empty list for control flow, but on a SUCCESS answer the source's error message then reads '0' rather than 'slice'; the model logs the 'slice' message in both cases.
- `Text.ToUpper`: maps only the ASCII letters, not the full Unicode case mapping of JavaScript's `toUpperCase`.
- `Text.ToLower`: maps only the ASCII letters, not the full Unicode case mapping of JavaScript's `toLowerCase`.
- `StatusPoller.TrackBridgeStatus`: the responses must cover the 100 possible requests. That is one answer per request the endpoint could receive, not a restriction on the endpoint.
