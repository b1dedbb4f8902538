/** The `onProgress` callback of `BridgeService.executeBridge`
    (services/bridgeService.js): it latches the relay request id and logs the
    progress of the first step's first item, with the completion line at most
    once. The SDK's `execute` is modelled by the events it delivers. */
module Progress {
  import opened Outcomes
  import opened Logging
  import opened Text

  /** One item of a step, reduced to the fields the callback reads. Strings
      are `None` when the field is absent; JavaScript treats an empty string
      as absent in a condition (see `Truthy`). */
  datatype Item = Item(
    requestId: Option<string>,       // the request id of the item's check
    progressState: Option<string>,
    status: Option<string>,
    valueWei: Option<nat>,           // the amount in the item's data
    internalTxHash: Option<string>,  // hash of the first internal transaction
    txHash: Option<string>)          // hash of the first transaction

  /** A step; a step without `items` behaves as one with none. */
  datatype Step = Step(items: seq<Item>)

  /** One progress payload; missing `steps` behaves as no steps. */
  datatype ProgressEvent = ProgressEvent(steps: seq<Step>)

  predicate Truthy(s: Option<string>)
  {
    s.Some? && s.value != ""
  }

  /** The items of all steps, step by step in order. */
  function Flatten(steps: seq<Step>): seq<Item>
  {
    if steps == [] then [] else steps[0].items + Flatten(steps[1..])
  }

  /** The request id of the first item, in order, that carries a non-empty
      one (the callback's search over the flattened items). */
  function FirstRequestId(items: seq<Item>): (r: Option<string>)
    ensures r.None? <==> forall k :: 0 <= k < |items| ==> !Truthy(items[k].requestId)
    ensures r.Some? ==>
              r.value != "" &&
              exists k :: 0 <= k < |items| && items[k].requestId == r &&
                          forall j :: 0 <= j < k ==> !Truthy(items[j].requestId)
  {
    if items == [] then None
    else if Truthy(items[0].requestId) then items[0].requestId
    else
      var r := FirstRequestId(items[1..]);
      assert r.Some? ==> exists k :: 1 <= k < |items| && items[k].requestId == r &&
                          forall j :: 1 <= j < k ==> !Truthy(items[j].requestId) by {
        if r.Some? {
          var k :| 0 <= k < |items[1..]| && items[1..][k].requestId == r &&
                   forall j :: 0 <= j < k ==> !Truthy(items[1..][j].requestId);
          assert items[k + 1].requestId == r;
          forall j | 1 <= j < k + 1 ensures !Truthy(items[j].requestId) {
            assert items[j] == items[1..][j - 1];
          }
        }
      }
      r
  }

  lemma {:induction false} FirstRequestIdAppend(a: seq<Item>, b: seq<Item>)
    ensures FirstRequestId(a + b) ==
            if FirstRequestId(a).Some? then FirstRequestId(a) else FirstRequestId(b)
  {
    if a == [] {
      assert a + b == b;
    } else {
      assert (a + b)[0] == a[0] && (a + b)[1..] == a[1..] + b;
      FirstRequestIdAppend(a[1..], b);
    }
  }

  /** The first item of the first step, when both exist: the only item the
      display reads. */
  function PrimaryItem(e: ProgressEvent): Option<Item>
  {
    if |e.steps| > 0 && |e.steps[0].items| > 0 then Some(e.steps[0].items[0]) else None
  }

  /** The state shown for an item: its progress state upper-cased, or PENDING
      when the item has none (or an empty one). */
  function DisplayState(item: Item): string
  {
    if Truthy(item.progressState) then ToUpper(item.progressState.value) else "PENDING"
  }

  /** The first ten characters of a non-empty hash, as an optional part of
      the line. */
  function HashPart(hash: Option<string>): Option<string>
  {
    if Truthy(hash) then Some(Prefix(hash.value, 10)) else None
  }

  /** The lines one event logs, and the new `txProcessed`. The completion
      line shows the first ten characters of the internal transaction hash:
      with no such hash that throws, so the line is not logged and the latch
      stays as it was. */
  function DisplayLines(e: ProgressEvent, txProcessed: bool, from: ChainLabel, to: ChainLabel)
    : (r: (seq<LogLine>, bool))
    ensures r.0 == [] <==> PrimaryItem(e).None?
    ensures r.0 != [] ==> r.0[0].Depositing? && r.0[0].amountWei == PrimaryItem(e).value.valueWei
    ensures r.1 <==>
              txProcessed ||
              (PrimaryItem(e).Some? && PrimaryItem(e).value.status == Some("complete") &&
               PrimaryItem(e).value.internalTxHash.Some?)
    ensures |r.0| == 2 <==> r.1 && !txProcessed
  {
    match PrimaryItem(e)
    case None => ([], txProcessed)
    case Some(item) =>
      var deposit := Depositing(item.valueWei, DisplayState(item),
                                HashPart(item.internalTxHash), HashPart(item.txHash));
      if item.status == Some("complete") && !txProcessed && item.internalTxHash.Some? then
        ([deposit, BridgeCompleted(item.valueWei, from, to, Prefix(item.internalTxHash.value, 10))], true)
      else ([deposit], txProcessed)
  }

  /** The number of completion lines in a log. */
  function Completions(log: seq<LogLine>): nat
  {
    if log == [] then 0
    else (if log[0].BridgeCompleted? then 1 else 0) + Completions(log[1..])
  }

  lemma {:induction false} CompletionsAppend(a: seq<LogLine>, b: seq<LogLine>)
    ensures Completions(a + b) == Completions(a) + Completions(b)
  {
    if a == [] {
      assert a + b == b;
    } else {
      assert (a + b)[0] == a[0] && (a + b)[1..] == a[1..] + b;
      CompletionsAppend(a[1..], b);
    }
  }

  /** The display of one event reads only the first step's first item: two
      events with the same primary item log the same; without one nothing is
      logged; a missing or empty progress state shows as PENDING; and a
      completion line is logged only while the latch is clear, which it sets. */
  lemma DisplayReadsPrimaryItem(e1: ProgressEvent, e2: ProgressEvent, txProcessed: bool,
                                from: ChainLabel, to: ChainLabel)
    ensures PrimaryItem(e1) == PrimaryItem(e2) ==>
              DisplayLines(e1, txProcessed, from, to) == DisplayLines(e2, txProcessed, from, to)
    ensures PrimaryItem(e1).None? ==> DisplayLines(e1, txProcessed, from, to) == ([], txProcessed)
    ensures PrimaryItem(e1).Some? && !Truthy(PrimaryItem(e1).value.progressState) ==>
              DisplayLines(e1, txProcessed, from, to).0[0].state == "PENDING"
    ensures var (lines, processed) := DisplayLines(e1, txProcessed, from, to);
              Completions(lines) == (if processed && !txProcessed then 1 else 0) &&
              (txProcessed ==> processed)
  {
    var (lines, _) := DisplayLines(e1, txProcessed, from, to);
    if |lines| == 2 {
      assert Completions(lines) == 0 + Completions(lines[1..]);
      assert Completions(lines[1..]) == 1 + Completions([]);
    } else if |lines| == 1 {
      assert Completions(lines) == 0 + Completions(lines[1..]);
    }
  }

  /** The state the callback closes over: the `requestId` and `txProcessed`
      latches, and the lines logged so far. */
  class ExecutionProgress {
    var requestId: Option<string>
    var txProcessed: bool
    var log: seq<LogLine>
    const from: ChainLabel
    const to: ChainLabel

    /** A latched request id is never empty; the completion line has been
        logged exactly when `txProcessed` is set, and so at most once. */
    ghost predicate Valid()
      reads this
    {
      (requestId.Some? ==> requestId.value != "") &&
      Completions(log) == if txProcessed then 1 else 0
    }

    constructor (from: ChainLabel, to: ChainLabel)
      ensures Valid()
      ensures requestId == None && !txProcessed && log == []
      ensures this.from == from && this.to == to
    {
      this.from, this.to := from, to;
      requestId, txProcessed, log := None, false, [];
    }

    /** `onProgress(progress)`: latch the request id if none yet, then log the
        display lines of the primary item. */
    method OnProgress(e: ProgressEvent)
      requires Valid()
      modifies this
      ensures Valid()
      ensures requestId == if old(requestId).Some? then old(requestId) else FirstRequestId(Flatten(e.steps))
      ensures (log, txProcessed) ==
              var (lines, processed) := DisplayLines(e, old(txProcessed), from, to);
              (old(log) + lines, processed)
    {
      if requestId.None? {
        var checkItem := FirstRequestId(Flatten(e.steps));
        if checkItem.Some? {
          requestId := checkItem;
        }
      }
      var item := PrimaryItem(e);
      if item.None? {
        assert log == old(log) + [];
        return;
      }
      var it := item.value;
      var deposit := Depositing(it.valueWei, DisplayState(it), HashPart(it.internalTxHash), HashPart(it.txHash));
      var lines := [deposit];
      if it.status == Some("complete") && !txProcessed && it.internalTxHash.Some? {
        // An item without an internal hash makes `txHash.slice` throw here instead.
        lines := [deposit, BridgeCompleted(it.valueWei, from, to, Prefix(it.internalTxHash.value, 10))];
        txProcessed := true;
      }
      DisplayReadsPrimaryItem(e, e, old(txProcessed), from, to);
      CompletionsAppend(log, lines);
      log := log + lines;
    }
  }

  /** All items of all events, in delivery order. */
  function AllItems(events: seq<ProgressEvent>): seq<Item>
  {
    if events == [] then [] else Flatten(events[0].steps) + AllItems(events[1..])
  }

  /** The log of a run of the callback over `events`, and the final latch. */
  function ExecutionLog(events: seq<ProgressEvent>, txProcessed: bool, from: ChainLabel, to: ChainLabel)
    : (seq<LogLine>, bool)
  {
    if events == [] then ([], txProcessed)
    else
      var (lines, processed) := DisplayLines(events[0], txProcessed, from, to);
      var (rest, final) := ExecutionLog(events[1..], processed, from, to);
      (lines + rest, final)
  }

  /** Running the callback over one more event appends that event's lines,
      displayed with the latch the earlier events left. */
  lemma {:induction false} ExecutionLogSnoc(events: seq<ProgressEvent>, e: ProgressEvent, txProcessed: bool,
                                           from: ChainLabel, to: ChainLabel)
    ensures var before := ExecutionLog(events, txProcessed, from, to);
            var step := DisplayLines(e, before.1, from, to);
            ExecutionLog(events + [e], txProcessed, from, to) == (before.0 + step.0, step.1)
  {
    if events == [] {
      assert events + [e] == [e];
      assert [e][1..] == [];
      assert [] + DisplayLines(e, txProcessed, from, to).0 == DisplayLines(e, txProcessed, from, to).0 + [];
    } else {
      var first := DisplayLines(events[0], txProcessed, from, to);
      assert (events + [e])[0] == events[0];
      assert (events + [e])[1..] == events[1..] + [e];
      ExecutionLogSnoc(events[1..], e, first.1, from, to);
      var rest := ExecutionLog(events[1..], first.1, from, to);
      var step := DisplayLines(e, rest.1, from, to);
      assert first.0 + (rest.0 + step.0) == (first.0 + rest.0) + step.0;
    }
  }

  lemma {:induction false} AllItemsSnoc(events: seq<ProgressEvent>, e: ProgressEvent)
    ensures AllItems(events + [e]) == AllItems(events) + Flatten(e.steps)
  {
    if events == [] {
      assert [] + [e] == [e];
    } else {
      assert (events + [e])[0] == events[0] && (events + [e])[1..] == events[1..] + [e];
      AllItemsSnoc(events[1..], e);
    }
  }

  /** `executeBridge(...)`: the SDK delivers `events` to the callback in order,
      then resolves, or rejects with `failure`. The returned request id is that
      of the first item, over all events and all their steps and items in
      order, that carries one: once latched, later events never change it.
      The completion line appears at most once. */
  method ExecuteBridge(events: seq<ProgressEvent>, failure: Option<string>, from: ChainLabel, to: ChainLabel)
    returns (r: Result<Option<string>>, log: seq<LogLine>)
    ensures failure.Some? ==> r == Err(ExecutionFailed(failure.value))
    ensures failure.None? ==> r == Ok(FirstRequestId(AllItems(events)))
    ensures log == ExecutionLog(events, false, from, to).0
    ensures Completions(log) <= 1
  {
    var progress := new ExecutionProgress(from, to);
    for i := 0 to |events|
      invariant progress.Valid() && progress.from == from && progress.to == to
      invariant progress.requestId == FirstRequestId(AllItems(events[..i]))
      invariant (progress.log, progress.txProcessed) == ExecutionLog(events[..i], false, from, to)
    {
      assert events[..i + 1] == events[..i] + [events[i]];
      AllItemsSnoc(events[..i], events[i]);
      FirstRequestIdAppend(AllItems(events[..i]), Flatten(events[i].steps));
      ExecutionLogSnoc(events[..i], events[i], false, from, to);
      progress.OnProgress(events[i]);
    }
    assert events[..|events|] == events;
    log := progress.log;
    if failure.Some? {
      r := Err(ExecutionFailed(failure.value));
    } else {
      r := Ok(progress.requestId);
    }
  }

  /** The two scans differ in scope: an event whose primary item carries no
      request id but whose second step's item does yields that later id, while
      the display still shows the primary item. */
  lemma RequestIdScanReachesLaterSteps(primary: Item, later: Item)
    requires !Truthy(primary.requestId) && Truthy(later.requestId)
    ensures var e := ProgressEvent([Step([primary]), Step([later])]);
      FirstRequestId(Flatten(e.steps)) == later.requestId && PrimaryItem(e) == Some(primary)
  {
    var e := ProgressEvent([Step([primary]), Step([later])]);
    assert Flatten(e.steps) == [primary] + Flatten(e.steps[1..]);
    assert Flatten(e.steps[1..]) == [later] + Flatten([]);
  }
}
