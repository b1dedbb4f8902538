/** `BridgeService.trackBridgeStatus` (services/bridgeService.js): a bounded
    polling loop over the relay status endpoint. Each request is modelled by
    its outcome, taken in order from a sequence; the 3-second sleeps are left
    out and attempts are counted instead. */
module StatusPoller {
  import opened Outcomes
  import opened Logging
  import opened Text
  import opened Config

  /** `MAX_RETRIES`: the number of status requests the loop may make. */
  const MaxAttempts: nat := 100

  /** The JSON body of a status answer: `status`, `txHashes` (a missing list
      behaves as an empty one) and the optional `details`. */
  datatype StatusPayload = StatusPayload(status: string, txHashes: seq<string>, details: Option<string>)

  /** One status request: it throws (network error, a non-2xx answer, an
      unreadable body or a missing `status` field), or it yields a payload. */
  datatype Response = Failed(reason: string) | Answered(data: StatusPayload)

  /** The message of the TypeError raised when a SUCCESS answer's hash list
      is empty and its first element is sliced. When the list is missing
      altogether the TypeError comes one step earlier, reading '0' instead of
      'slice'; the model does not tell the two messages apart. */
  const MissingTxHashError: string := "Cannot read properties of undefined (reading 'slice')"

  /** The relay API base URL: the testnet one exactly when `isTestnet`. */
  function ApiBase(isTestnet: bool): string
  {
    if isTestnet then TestnetApi else MainnetApi
  }

  /** The status endpoint polled for `requestId`. */
  function StatusUrl(isTestnet: bool, requestId: string): (url: string)
    ensures ApiBase(isTestnet) <= url
  {
    ApiBase(isTestnet) + "/intents/status/v2?requestId=" + requestId
  }

  predicate IsTerminal(status: string)
  {
    status == "SUCCESS" || status == "FAILURE" || status == "REFUND"
  }

  /** Whether an answer makes the loop return: its upper-cased status is
      terminal and, for SUCCESS, the first transaction hash exists (otherwise
      the success line throws inside the `try` and the attempt counts as an
      error). Whether the loop returns does not depend on `lastStatus`. */
  predicate Ends(r: Response)
  {
    r.Answered? && IsTerminal(ToUpper(r.data.status)) &&
    (ToUpper(r.data.status) == "SUCCESS" ==> |r.data.txHashes| > 0)
  }

  /** The optional destination part of a status line: the first ten
      characters of the first transaction hash, when there is a non-empty one. */
  function DestTxPart(txHashes: seq<string>): Option<string>
  {
    if |txHashes| > 0 && txHashes[0] != "" then Some(Prefix(txHashes[0], 10)) else None
  }

  /** The details shown for a failure or refund: the payload's details when
      present and non-empty, and a fixed placeholder otherwise. */
  function DetailsText(details: Option<string>): string
  {
    if details.Some? && details.value != "" then details.value else "No details available"
  }

  /** What one attempt does: carry on with the new `lastStatus`, or return the payload. */
  datatype AttemptOutcome =
    | Next(lines: seq<LogLine>, lastStatus: string)
    | Done(lines: seq<LogLine>, payload: StatusPayload)

  /** The body of one loop iteration, given the last logged status. */
  function Attempt(r: Response, lastStatus: string): (o: AttemptOutcome)
    ensures o.Done? <==> Ends(r)
    ensures o.Done? ==> o.payload == r.data
  {
    match r
    case Failed(reason) => Next([StatusCheckError(reason)], lastStatus)
    case Answered(data) =>
      var status := ToUpper(data.status);
      var shown := if status != lastStatus then [StatusChanged(status, DestTxPart(data.txHashes))] else [];
      if !IsTerminal(status) then Next(shown, status)
      else if status == "SUCCESS" then
        if |data.txHashes| == 0 then Next(shown + [StatusCheckError(MissingTxHashError)], status)
        else Done(shown + [TransferSucceeded(Prefix(data.txHashes[0], 10))], data)
      else Done(shown + [TransferEnded(ToLower(status), DetailsText(data.details))], data)
  }

  /** The outcome of polling, the lines logged and the number of requests made. */
  datatype Poll = Poll(result: Result<StatusPayload>, log: seq<LogLine>, requests: nat)

  /** Polling from attempt number `attempt` on, with `lastStatus` last logged. */
  function PollFrom(responses: seq<Response>, attempt: nat, lastStatus: string): Poll
    requires attempt <= MaxAttempts <= |responses|
    decreases MaxAttempts - attempt
  {
    if attempt == MaxAttempts then Poll(Err(StatusPollTimeout), [], 0)
    else match Attempt(responses[attempt], lastStatus)
      case Done(lines, payload) => Poll(Ok(payload), lines, 1)
      case Next(lines, last) =>
        var rest := PollFrom(responses, attempt + 1, last);
        Poll(rest.result, lines + rest.log, rest.requests + 1)
  }

  /** Polling after an attempt that carries on. */
  lemma PollFromNext(responses: seq<Response>, attempt: nat, lastStatus: string,
                     lines: seq<LogLine>, last: string)
    requires attempt < MaxAttempts <= |responses|
    requires Attempt(responses[attempt], lastStatus) == Next(lines, last)
    ensures var rest := PollFrom(responses, attempt + 1, last);
      PollFrom(responses, attempt, lastStatus) == Poll(rest.result, lines + rest.log, rest.requests + 1)
  {
  }

  /** Polling after an attempt that returns. */
  lemma PollFromDone(responses: seq<Response>, attempt: nat, lastStatus: string,
                     lines: seq<LogLine>, payload: StatusPayload)
    requires attempt < MaxAttempts <= |responses|
    requires Attempt(responses[attempt], lastStatus) == Done(lines, payload)
    ensures PollFrom(responses, attempt, lastStatus) == Poll(Ok(payload), lines, 1)
  {
  }

  /** Polling from the start, split into what was logged before attempt
      number `attempt` and the polling that remains. */
  predicate PolledSoFar(responses: seq<Response>, attempt: nat, lastStatus: string, logged: seq<LogLine>)
    requires attempt <= MaxAttempts <= |responses|
  {
    var rest := PollFrom(responses, attempt, lastStatus);
    PollFrom(responses, 0, "") == Poll(rest.result, logged + rest.log, attempt + rest.requests)
  }

  /** An attempt that carries on moves the split one attempt further. */
  lemma PolledNext(responses: seq<Response>, attempt: nat, lastStatus: string, logged: seq<LogLine>,
                   lines: seq<LogLine>, last: string)
    requires attempt < MaxAttempts <= |responses|
    requires PolledSoFar(responses, attempt, lastStatus, logged)
    requires Attempt(responses[attempt], lastStatus) == Next(lines, last)
    ensures PolledSoFar(responses, attempt + 1, last, logged + lines)
  {
    var next := PollFrom(responses, attempt + 1, last);
    assert logged + (lines + next.log) == (logged + lines) + next.log;
  }

  /** An attempt that returns ends polling from the start. */
  lemma PolledDone(responses: seq<Response>, attempt: nat, lastStatus: string, logged: seq<LogLine>,
                   lines: seq<LogLine>, payload: StatusPayload)
    requires attempt < MaxAttempts <= |responses|
    requires PolledSoFar(responses, attempt, lastStatus, logged)
    requires Attempt(responses[attempt], lastStatus) == Done(lines, payload)
    ensures PollFrom(responses, 0, "") == Poll(Ok(payload), logged + lines, attempt + 1)
  {
  }

  /** One iteration of the polling loop on the answer to its request: the
      lines it logs, the status it remembers, and whether it returns. */
  method PollOnce(r: Response, lastStatus: string) returns (lines: seq<LogLine>, status: string, done: bool)
    ensures done ==> r.Answered? && Attempt(r, lastStatus) == Done(lines, r.data)
    ensures !done ==> Attempt(r, lastStatus) == Next(lines, status)
  {
    lines, status, done := [], lastStatus, false;
    match r {
      case Failed(reason) =>
        lines := lines + [StatusCheckError(reason)];
      case Answered(data) =>
        var upper := ToUpper(data.status);
        if upper != lastStatus {
          lines := lines + [StatusChanged(upper, DestTxPart(data.txHashes))];
          status := upper;
        }
        if IsTerminal(upper) && (upper != "SUCCESS" || |data.txHashes| > 0) {
          if upper == "SUCCESS" {
            lines := lines + [TransferSucceeded(Prefix(data.txHashes[0], 10))];
          } else {
            lines := lines + [TransferEnded(ToLower(upper), DetailsText(data.details))];
          }
          done := true;
        } else if IsTerminal(upper) {
          // SUCCESS without a transaction hash: the success line throws.
          lines := lines + [StatusCheckError(MissingTxHashError)];
        }
    }
  }

  /** `trackBridgeStatus(requestId, isTestnet)`: polls until the first answer
      that ends the loop, or until `MaxAttempts` requests have been made. */
  method TrackBridgeStatus(requestId: string, isTestnet: bool, responses: seq<Response>)
    returns (url: string, result: Result<StatusPayload>, log: seq<LogLine>, requests: nat)
    requires MaxAttempts <= |responses|
    ensures url == StatusUrl(isTestnet, requestId)
    ensures Poll(result, log, requests) == PollFrom(responses, 0, "")
  {
    url := StatusUrl(isTestnet, requestId);
    var lastStatus := "";
    var retryCount := 0;
    log := [];
    while retryCount < MaxAttempts
      invariant retryCount <= MaxAttempts
      invariant PolledSoFar(responses, retryCount, lastStatus, log)
    {
      var r := responses[retryCount];
      var lines, status, done := PollOnce(r, lastStatus);
      if done {
        PolledDone(responses, retryCount, lastStatus, log, lines, r.data);
        return url, Ok(r.data), log + lines, retryCount + 1;
      }
      PolledNext(responses, retryCount, lastStatus, log, lines, status);
      log, lastStatus := log + lines, status;
      retryCount := retryCount + 1;
    }
    result, requests := Err(StatusPollTimeout), retryCount;
  }

  /** The shape of a polling run `p` from attempt number `attempt`: it makes
      at most the remaining number of requests; it returns the payload of the
      first answer that ends the loop, after exactly as many requests as
      attempts up to and including that answer (errors and non-terminal
      answers each use up one); and it times out, after all remaining
      attempts, exactly when no remaining answer ends it. */
  predicate Shaped(responses: seq<Response>, attempt: nat, p: Poll)
    requires attempt <= MaxAttempts <= |responses|
  {
    p.requests <= MaxAttempts - attempt &&
    (p.result.Err? ==>
       p.result == Err(StatusPollTimeout) && p.requests == MaxAttempts - attempt &&
       forall j :: attempt <= j < MaxAttempts ==> !Ends(responses[j])) &&
    (p.result.Ok? ==>
       1 <= p.requests && Ends(responses[attempt + p.requests - 1]) &&
       p.result.value == responses[attempt + p.requests - 1].data &&
       forall j :: attempt <= j < attempt + p.requests - 1 ==> !Ends(responses[j]))
  }

  /** An attempt that carries on, followed by a run of the right shape. */
  lemma ShapedNext(responses: seq<Response>, attempt: nat, lines: seq<LogLine>, rest: Poll)
    requires attempt < MaxAttempts <= |responses|
    requires !Ends(responses[attempt])
    requires Shaped(responses, attempt + 1, rest)
    ensures Shaped(responses, attempt, Poll(rest.result, lines + rest.log, rest.requests + 1))
  {
    if rest.result.Ok? {
      assert attempt + (rest.requests + 1) - 1 == attempt + 1 + rest.requests - 1;
    }
  }

  /** An attempt that returns the payload of an ending answer. */
  lemma ShapedDone(responses: seq<Response>, attempt: nat, lines: seq<LogLine>)
    requires attempt < MaxAttempts <= |responses|
    requires Ends(responses[attempt])
    ensures Shaped(responses, attempt, Poll(Ok(responses[attempt].data), lines, 1))
  {
  }

  lemma {:induction false} PollShape(responses: seq<Response>, attempt: nat, lastStatus: string)
    requires attempt <= MaxAttempts <= |responses|
    ensures Shaped(responses, attempt, PollFrom(responses, attempt, lastStatus))
    decreases MaxAttempts - attempt
  {
    if attempt < MaxAttempts {
      var o := Attempt(responses[attempt], lastStatus);
      if o.Done? {
        PollFromDone(responses, attempt, lastStatus, o.lines, o.payload);
        ShapedDone(responses, attempt, o.lines);
      } else {
        PollFromNext(responses, attempt, lastStatus, o.lines, o.lastStatus);
        PollShape(responses, attempt + 1, o.lastStatus);
        ShapedNext(responses, attempt, o.lines, PollFrom(responses, attempt + 1, o.lastStatus));
      }
    }
  }

  /** The loop returns the payload of the first answer that ends it, after
      exactly one request per attempt up to that answer, whatever mix of
      errors and non-terminal answers came before it. */
  lemma {:induction false} PollReturnsFirstEnd(responses: seq<Response>, k: nat)
    requires k < MaxAttempts <= |responses|
    requires Ends(responses[k])
    requires forall j :: 0 <= j < k ==> !Ends(responses[j])
    ensures PollFrom(responses, 0, "").result == Ok(responses[k].data)
    ensures PollFrom(responses, 0, "").requests == k + 1
  {
    var p := PollFrom(responses, 0, "");
    PollShape(responses, 0, "");
    assert p.result.Ok?;
    assert p.requests - 1 == k;
  }

  /** When no answer within the budget ends the loop (errors, non-terminal
      statuses, SUCCESS without a hash, in any mix), exactly `MaxAttempts`
      requests are made and polling fails with the timeout error. */
  lemma PollTimesOut(responses: seq<Response>)
    requires MaxAttempts <= |responses|
    requires forall j :: 0 <= j < MaxAttempts ==> !Ends(responses[j])
    ensures PollFrom(responses, 0, "") == Poll(Err(StatusPollTimeout), PollFrom(responses, 0, "").log, MaxAttempts)
  {
    PollShape(responses, 0, "");
  }

  /** Polling fails in one way only: the timeout after the last attempt. */
  lemma PollFailsOnlyByTimeout(responses: seq<Response>)
    requires MaxAttempts <= |responses|
    ensures PollFrom(responses, 0, "").result.Err? ==> PollFrom(responses, 0, "").result == Err(StatusPollTimeout)
  {
    PollShape(responses, 0, "");
  }

  /** The statuses of the "Bridge status" lines of a log, in order. */
  function LoggedStatuses(log: seq<LogLine>): seq<string>
  {
    if log == [] then []
    else (if log[0].StatusChanged? then [log[0].status] else []) + LoggedStatuses(log[1..])
  }

  /** The upper-cased statuses of the answered requests, in order. */
  function AnsweredStatuses(rs: seq<Response>): seq<string>
  {
    if rs == [] then []
    else (if rs[0].Answered? then [ToUpper(rs[0].data.status)] else []) + AnsweredStatuses(rs[1..])
  }

  /** Reference definition of change-only logging: the statuses of `ss` that
      differ from the one before them, the first compared with `last`. */
  function Changes(last: string, ss: seq<string>): seq<string>
    decreases |ss|
  {
    if ss == [] then []
    else if ss[0] != last then [ss[0]] + Changes(ss[0], ss[1..])
    else Changes(last, ss[1..])
  }

  lemma {:induction false} LoggedStatusesAppend(a: seq<LogLine>, b: seq<LogLine>)
    ensures LoggedStatuses(a + b) == LoggedStatuses(a) + LoggedStatuses(b)
  {
    if a == [] {
      assert a + b == b;
    } else {
      assert (a + b)[0] == a[0] && (a + b)[1..] == a[1..] + b;
      LoggedStatusesAppend(a[1..], b);
    }
  }

  /** What `AnsweredStatuses` takes from one request. */
  function AnsweredStatus(r: Response): seq<string>
  {
    if r.Answered? then [ToUpper(r.data.status)] else []
  }

  lemma AnsweredStatusesCons(r: Response, rs: seq<Response>)
    ensures AnsweredStatuses([r] + rs) == AnsweredStatus(r) + AnsweredStatuses(rs)
  {
    assert ([r] + rs)[0] == r && ([r] + rs)[1..] == rs;
  }

  /** The "Bridge status" line one attempt logs: the upper-cased status of an
      answer when it differs from the status last logged, which it then becomes. */
  lemma AttemptLogsChange(r: Response, lastStatus: string)
    ensures var o := Attempt(r, lastStatus);
      LoggedStatuses(o.lines) ==
        (if r.Answered? && ToUpper(r.data.status) != lastStatus then [ToUpper(r.data.status)] else []) &&
      (o.Next? ==> o.lastStatus == if r.Answered? then ToUpper(r.data.status) else lastStatus)
  {
    match r
    case Failed(reason) =>
      assert LoggedStatuses([StatusCheckError(reason)]) == [] + LoggedStatuses([]);
    case Answered(data) =>
      var status := ToUpper(data.status);
      var shown := if status != lastStatus then [StatusChanged(status, DestTxPart(data.txHashes))] else [];
      assert LoggedStatuses(shown) == if status != lastStatus then [status] else [] by {
        if status != lastStatus {
          assert LoggedStatuses(shown) == [status] + LoggedStatuses([]);
        }
      }
      var o := Attempt(r, lastStatus);
      if o.lines != shown {
        var tail := o.lines[|shown|..];
        assert o.lines == shown + tail;
        assert |tail| == 1 && !tail[0].StatusChanged?;
        assert LoggedStatuses(tail) == [] + LoggedStatuses([]);
        LoggedStatusesAppend(shown, tail);
      }
  }

  /** Changes over one more status, given the status last logged. */
  lemma ChangesCons(last: string, s: string, rest: seq<string>)
    ensures Changes(last, [s] + rest) ==
            (if s != last then [s] else []) + Changes(s, rest)
  {
    assert ([s] + rest)[0] == s && ([s] + rest)[1..] == rest;
  }

  /** The statuses a polling run `p` from attempt number `attempt` logs:
      the changes among the answered statuses of the requests it made. */
  predicate LogsChanges(responses: seq<Response>, attempt: nat, lastStatus: string, p: Poll)
  {
    attempt + p.requests <= |responses| &&
    LoggedStatuses(p.log) == Changes(lastStatus, AnsweredStatuses(responses[attempt..attempt + p.requests]))
  }

  /** Change-only logging over one more status whose lines are known. */
  lemma ChangesStep(lastStatus: string, r: Response, logged: seq<string>, last: string, restChanges: seq<string>,
                    rs: seq<string>)
    requires logged == if r.Answered? && ToUpper(r.data.status) != lastStatus then [ToUpper(r.data.status)] else []
    requires last == if r.Answered? then ToUpper(r.data.status) else lastStatus
    requires restChanges == Changes(last, rs)
    ensures logged + restChanges == Changes(lastStatus, AnsweredStatus(r) + rs)
  {
    if r.Answered? {
      ChangesCons(lastStatus, ToUpper(r.data.status), rs);
    } else {
      assert AnsweredStatus(r) + rs == rs;
    }
  }

  /** The answered statuses of `n + 1` requests from `attempt` on. */
  lemma AnsweredFrom(responses: seq<Response>, attempt: nat, n: nat)
    requires attempt + n + 1 <= |responses|
    ensures AnsweredStatuses(responses[attempt..attempt + (n + 1)]) ==
            AnsweredStatus(responses[attempt]) + AnsweredStatuses(responses[attempt + 1..attempt + 1 + n])
  {
    assert responses[attempt..attempt + (n + 1)] ==
           [responses[attempt]] + responses[attempt + 1..attempt + 1 + n];
    AnsweredStatusesCons(responses[attempt], responses[attempt + 1..attempt + 1 + n]);
  }

  /** The inductive step of PollLogsChanges: an attempt that carries on. */
  lemma LogsChangesNext(responses: seq<Response>, attempt: nat, lastStatus: string,
                        lines: seq<LogLine>, last: string, rest: Poll)
    requires attempt < |responses|
    requires Attempt(responses[attempt], lastStatus) == Next(lines, last)
    requires LogsChanges(responses, attempt + 1, last, rest)
    ensures LogsChanges(responses, attempt, lastStatus, Poll(rest.result, lines + rest.log, rest.requests + 1))
  {
    var r := responses[attempt];
    AttemptLogsChange(r, lastStatus);
    AnsweredFrom(responses, attempt, rest.requests);
    LoggedStatusesAppend(lines, rest.log);
    ChangesStep(lastStatus, r, LoggedStatuses(lines), last, LoggedStatuses(rest.log),
                AnsweredStatuses(responses[attempt + 1..attempt + 1 + rest.requests]));
  }

  /** The base step of PollLogsChanges: an attempt that returns. */
  lemma LogsChangesDone(responses: seq<Response>, attempt: nat, lastStatus: string,
                        lines: seq<LogLine>, payload: StatusPayload)
    requires attempt < |responses|
    requires Attempt(responses[attempt], lastStatus) == Done(lines, payload)
    ensures LogsChanges(responses, attempt, lastStatus, Poll(Ok(payload), lines, 1))
  {
    var r := responses[attempt];
    AttemptLogsChange(r, lastStatus);
    assert responses[attempt..attempt + 1] == [r] + [];
    AnsweredStatusesCons(r, []);
    ChangesStep(lastStatus, r, LoggedStatuses(lines), ToUpper(r.data.status), [], []);
  }

  /** Change-only logging: the "Bridge status" lines of a polling run are the
      answered statuses of the requests it made, upper-cased, with every
      status equal to the one logged before it left out (`lastStatus` starts
      as the empty string). */
  lemma {:induction false} PollLogsChanges(responses: seq<Response>, attempt: nat, lastStatus: string)
    requires attempt <= MaxAttempts <= |responses|
    ensures LogsChanges(responses, attempt, lastStatus, PollFrom(responses, attempt, lastStatus))
    decreases MaxAttempts - attempt
  {
    if attempt < MaxAttempts {
      var o := Attempt(responses[attempt], lastStatus);
      if o.Done? {
        PollFromDone(responses, attempt, lastStatus, o.lines, o.payload);
        LogsChangesDone(responses, attempt, lastStatus, o.lines, o.payload);
      } else {
        PollFromNext(responses, attempt, lastStatus, o.lines, o.lastStatus);
        PollLogsChanges(responses, attempt + 1, o.lastStatus);
        LogsChangesNext(responses, attempt, lastStatus, o.lines, o.lastStatus,
                        PollFrom(responses, attempt + 1, o.lastStatus));
      }
    } else {
      assert responses[attempt..attempt] == [];
    }
  }

  /** Change-only logging never logs a status twice in a row, and never logs
      first the status that was already last logged. */
  lemma {:induction false} ChangesNeverRepeat(last: string, ss: seq<string>)
    ensures var c := Changes(last, ss);
      (c != [] ==> c[0] != last) &&
      forall i :: 0 < i < |c| ==> c[i] != c[i - 1]
    decreases |ss|
  {
    if ss != [] {
      ChangesNeverRepeat(if ss[0] != last then ss[0] else last, ss[1..]);
    }
  }

  lemma {:induction false} AnsweredStatusesAllAnswered(rs: seq<Response>)
    requires forall j :: 0 <= j < |rs| ==> rs[j].Answered?
    ensures |AnsweredStatuses(rs)| == |rs|
    ensures forall j :: 0 <= j < |rs| ==> AnsweredStatuses(rs)[j] == ToUpper(rs[j].data.status)
  {
    if rs != [] {
      AnsweredStatusesAllAnswered(rs[1..]);
    }
  }

  /** `n` PENDING statuses. */
  function Pendings(n: nat): (ss: seq<string>)
    ensures |ss| == n && forall j :: 0 <= j < n ==> ss[j] == "PENDING"
  {
    seq(n, _ => "PENDING")
  }

  lemma {:induction false} ChangesAfterPending(m: nat)
    ensures Changes("PENDING", Pendings(m) + ["SUCCESS"]) == ["SUCCESS"]
  {
    var ss := Pendings(m) + ["SUCCESS"];
    if m == 0 {
      assert ss == ["SUCCESS"] + [];
      ChangesCons("PENDING", "SUCCESS", []);
    } else {
      assert ss == ["PENDING"] + (Pendings(m - 1) + ["SUCCESS"]);
      ChangesCons("PENDING", "PENDING", Pendings(m - 1) + ["SUCCESS"]);
      ChangesAfterPending(m - 1);
    }
  }

  /** The answered statuses of the PENDING-then-SUCCESS scenario. */
  lemma PendingStatuses(responses: seq<Response>, n: nat)
    requires n < |responses|
    requires forall j :: 0 <= j < n ==>
               responses[j].Answered? && ToUpper(responses[j].data.status) == "PENDING"
    requires responses[n].Answered? && ToUpper(responses[n].data.status) == "SUCCESS"
    ensures AnsweredStatuses(responses[0..n + 1]) == Pendings(n) + ["SUCCESS"]
  {
    var rs := responses[0..n + 1];
    assert forall j :: 0 <= j < |rs| ==> rs[j] == responses[j];
    AnsweredStatusesAllAnswered(rs);
  }

  /** In the PENDING-then-SUCCESS scenario no answer before the last ends the loop. */
  lemma PendingDoesNotEnd(r: Response)
    requires r.Answered? && ToUpper(r.data.status) == "PENDING"
    ensures !Ends(r)
  {
  }

  /** An endpoint that answers PENDING for the first `n` requests and then
      SUCCESS (with a destination hash), within the budget: exactly `n + 1`
      requests are made and the SUCCESS payload is returned. */
  lemma PendingThenSuccess(responses: seq<Response>, n: nat)
    requires n < MaxAttempts <= |responses|
    requires forall j :: 0 <= j < n ==>
               responses[j].Answered? && ToUpper(responses[j].data.status) == "PENDING"
    requires responses[n].Answered? && ToUpper(responses[n].data.status) == "SUCCESS"
    requires |responses[n].data.txHashes| > 0
    ensures PollFrom(responses, 0, "").result == Ok(responses[n].data)
    ensures PollFrom(responses, 0, "").requests == n + 1
  {
    forall j | 0 <= j < n ensures !Ends(responses[j]) {
      PendingDoesNotEnd(responses[j]);
    }
    PollReturnsFirstEnd(responses, n);
  }

  /** In the same scenario the status line is logged once for PENDING (if
      there was one) and once for SUCCESS. */
  lemma PendingThenSuccessLogs(responses: seq<Response>, n: nat)
    requires n < MaxAttempts <= |responses|
    requires forall j :: 0 <= j < n ==>
               responses[j].Answered? && ToUpper(responses[j].data.status) == "PENDING"
    requires responses[n].Answered? && ToUpper(responses[n].data.status) == "SUCCESS"
    requires |responses[n].data.txHashes| > 0
    ensures LoggedStatuses(PollFrom(responses, 0, "").log) ==
            (if n == 0 then [] else ["PENDING"]) + ["SUCCESS"]
  {
    PendingThenSuccess(responses, n);
    PollLogsChanges(responses, 0, "");
    PendingStatuses(responses, n);
    var p := PollFrom(responses, 0, "");
    ChangesOfPendings(n);
    assert responses[0..0 + p.requests] == responses[0..n + 1];
  }

  lemma ChangesOfPendings(n: nat)
    ensures Changes("", Pendings(n) + ["SUCCESS"]) == (if n == 0 then [] else ["PENDING"]) + ["SUCCESS"]
  {
    var ss := Pendings(n) + ["SUCCESS"];
    if n == 0 {
      assert ss == ["SUCCESS"] + [];
      ChangesCons("", "SUCCESS", []);
    } else {
      var tail := Pendings(n - 1) + ["SUCCESS"];
      assert ss == ["PENDING"] + tail;
      ChangesCons("", "PENDING", tail);
      ChangesAfterPending(n - 1);
    }
  }
}
