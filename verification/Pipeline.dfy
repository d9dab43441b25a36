/** `accept_results`: which atomic steps one call makes, and the call itself. */
module Pipeline {
  import opened Contracts
  import opened Store
  import opened Acceptance

  const INBOX_BUDGET := 5_000
  const PUBLICATION_BUDGET := 5_000

  /** What a stretch of the accept loop does: its steps in order, the result it then holds
      as published last, the names it reports, and whether it raised out of the call. */
  datatype Stretch = Stretch(
    steps: seq<Step>, previous: Option<AnalysisResult>,
    accepted: seq<Id>, rejected: seq<Rejection>, raised: bool)

  /** Details are immutable: only the missing ones are written. */
  function DetailSteps(existing: set<Id>, advice: seq<Advice>, receipt: Receipt, now: Time): seq<Step>
    decreases |advice|
  {
    if advice == [] then []
    else if advice[0].id in existing then DetailSteps(existing, advice[1..], receipt, now)
    else [WriteDetail(Detail(advice[0], receipt), now)]
         + DetailSteps(existing + {advice[0].id}, advice[1..], receipt, now)
  }

  /** The commit point precedes the receipt, so a restart may have to finish the last one. */
  function RecoverySteps(s: Store, now: Time): seq<Step> {
    if s.publication.None? then []
    else
      var Envelope(result, receipt) := s.publication.value;
      (if result.id in s.receipts then [] else [WriteReceipt(result.id, receipt), WriteCurrent(result)])
      + DetailSteps(s.details.Keys, result.advice, receipt, now)
  }

  predicate Advances(previous: Option<AnalysisResult>, previousInput: Time, result: AnalysisResult, input: Time) {
    previous.None? || (result.generatedAt > previous.value.generatedAt && input >= previousInput)
  }

  function Skip(previous: Option<AnalysisResult>): Stretch {
    Stretch([], previous, [], [], false)
  }

  function PublishSteps(s: Store, result: AnalysisResult, receipt: Receipt, inputTime: Time, now: Time): seq<Step> {
    [Commit(Envelope(result, receipt), inputTime)]
    + (DetailSteps(s.details.Keys, result.advice, receipt, now) + [WriteCurrent(result)])
  }

  /** One file of the inbox. A name already acknowledged is a duplicate transfer. */
  function ProcessFile(s: Store, previous: Option<AnalysisResult>, name: Id, now: Time): Stretch {
    var file := if name in s.inbox then s.inbox[name] else NotJson;
    if name in s.receipts then
      if !file.Verified? || file.result.id != name then Skip(previous).(raised := true)
      else Skip(previous).(steps := [RemoveInbox(name)])
    else
      var problem := FileProblem(name, file, s.inputs, now);
      if problem.Some? then Skip(previous).(rejected := [Rejection(name, problem.value)])
      else
        var result, input := file.result, s.inputs[file.result.inputId].value;
        var saved := WriteResult(name, result, now);
        if previous.Some? && previous.value.inputId !in s.inputs then
          Skip(previous).(steps := [saved], rejected := [Rejection(name, PreviousInputMissing)])
        else
          var previousInput := if previous.Some? then s.inputs[previous.value.inputId].value.generatedAt else 0;
          var advances := Advances(previous, previousInput, result, input.generatedAt);
          var receipt := Receipt(result.id, result.inputId, now, if advances then Some(now) else None);
          var published := if advances then PublishSteps(s, result, receipt, input.generatedAt, now) else [];
          Stretch(
            [saved] + (published + [WriteReceipt(name, receipt), RemoveInbox(name)]),
            if advances then Some(result) else previous, [name], [], false)
  }

  function AcceptLoop(s: Store, previous: Option<AnalysisResult>, names: seq<Id>, now: Time): Stretch
    decreases |names|
  {
    if names == [] then Skip(previous)
    else
      var first := ProcessFile(s, previous, names[0], now);
      if first.raised then first
      else
        var rest := AcceptLoop(ApplyAll(s, first.steps), first.previous, names[1..], now);
        Stretch(first.steps + rest.steps, rest.previous, first.accepted + rest.accepted,
                first.rejected + rest.rejected, rest.raised)
  }

  function PublishedReceipts(receipts: map<Id, Receipt>, names: seq<Id>): seq<Receipt>
    requires forall name :: name in names ==> name in receipts
  {
    if names == [] then []
    else (if receipts[names[0]].publishedAt.Some? then [receipts[names[0]]] else [])
         + PublishedReceipts(receipts, names[1..])
  }

  function PublicationsOf(s: Store): seq<Receipt> {
    PublishedReceipts(s.receipts, SortedIds(s.receipts.Keys))
  }

  /** The whole call: its steps, and whether it came to its regular end. */
  datatype AcceptRun = AcceptRun(steps: seq<Step>, completed: bool)

  function ClosingSteps(s: Store, status: AcceptStatus): AcceptRun {
    var list := PublicationsOf(s);
    if |list| > PUBLICATION_BUDGET then AcceptRun([WriteAcceptStatus(status)], false)
    else AcceptRun([WriteAcceptStatus(status), WritePublicationList(list)], true)
  }

  function LoopOf(s: Store, now: Time): Stretch {
    var recovered := ApplyAll(s, RecoverySteps(s, now));
    AcceptLoop(recovered, recovered.current, SortedIds(s.inbox.Keys), now)
  }

  predicate RaisesAtOnce(s: Store) {
    || |s.inbox| > INBOX_BUDGET
    || (s.publication.Some? &&
        var Envelope(result, receipt) := s.publication.value;
        receipt.resultId != result.id || receipt.publishedAt.None?)
  }

  function Accept(s: Store, now: Time): AcceptRun {
    if RaisesAtOnce(s) then AcceptRun([], false)
    else
      var recovery, loop := RecoverySteps(s, now), LoopOf(s, now);
      if loop.raised then AcceptRun(recovery + loop.steps, false)
      else
        var closing := ClosingSteps(
          ApplyAll(ApplyAll(s, recovery), loop.steps),
          AcceptStatus(now, loop.accepted, loop.rejected));
        AcceptRun(recovery + loop.steps + closing.steps, closing.completed)
  }
}
