/** An OSError that the accept loop swallows: what the loop then holds, what becomes of the published
    order, and of a receipt that could not be written. */
module FaultWindows {
  import opened Contracts
  import opened Store
  import opened Pipeline
  import opened CrashTransparency
  import opened LoopOrder

  // ----- the step that raises

  /** The loop goes on with `previous` updated only once the current pointer was written; the
      receipt and the unlink are the two steps after it. */
  ghost function HolderAfterFault(run: Stretch, previous: Option<AnalysisResult>, done: nat): Option<AnalysisResult> {
    if done + 2 >= |run.steps| then run.previous else previous
  }

  /** Neither publishes nor acknowledges. */
  predicate Quiet(steps: seq<Step>) {
    forall i :: 0 <= i < |steps| ==> !steps[i].Commit? && !steps[i].WriteReceipt? && !steps[i].RemoveReceipt?
  }

  lemma QuietStep(s: Store, step: Step)
    requires !step.Commit? && !step.WriteReceipt? && !step.RemoveReceipt?
    ensures Apply(s, step).log == s.log && Apply(s, step).receipts == s.receipts
  {
  }

  lemma {:induction false} QuietSteps(s: Store, steps: seq<Step>)
    requires Quiet(steps)
    ensures ApplyAll(s, steps).log == s.log && ApplyAll(s, steps).receipts == s.receipts
    decreases |steps|
  {
    if steps != [] {
      QuietStep(s, steps[0]);
      QuietSteps(Apply(s, steps[0]), steps[1..]);
    }
  }

  lemma {:induction false} DetailsQuiet(existing: set<Id>, advice: seq<Advice>, receipt: Receipt, now: Time)
    ensures Quiet(DetailSteps(existing, advice, receipt, now))
    decreases |advice|
  {
    if advice != [] {
      DetailsQuiet(existing, advice[1..], receipt, now);
      DetailsQuiet(existing + {advice[0].id}, advice[1..], receipt, now);
    }
  }

  /** The log and the receipts when one of these steps raises. */
  lemma AfterFault(s: Store, saved: Step, commit: Step, quiet: seq<Step>, acknowledge: Step, unlink: Step, done: nat)
    requires Quiet([saved]) && commit.Commit? && Quiet(quiet) && acknowledge.WriteReceipt?
    requires done < |quiet| + 4
    ensures var s' := ApplyAll(s, ([saved, commit] + quiet + [acknowledge, unlink])[..done]);
            && s'.log == (if done < 2 then s.log else s.log + [Publication(commit.envelope, commit.inputTime)])
            && s'.receipts == (if done == |quiet| + 3 then s.receipts[acknowledge.name := acknowledge.receipt]
               else s.receipts)
  {
    var steps := [saved, commit] + quiet + [acknowledge, unlink];
    if done < 2 {
      assert steps[..done] == [saved][..done];
      QuietSteps(s, steps[..done]);
    } else {
      assert steps[..2] == [saved, commit] && steps[2..] == quiet + [acknowledge, unlink];
      ApplySplit(s, steps, 2, done);
      ApplyTwo(s, saved, commit);
      AfterCommit(Apply(Apply(s, saved), commit), quiet, acknowledge, unlink, done - 2);
    }
  }

  lemma AfterCommit(s: Store, quiet: seq<Step>, acknowledge: Step, unlink: Step, k: nat)
    requires Quiet(quiet) && acknowledge.WriteReceipt? && k < |quiet| + 2
    ensures var s' := ApplyAll(s, (quiet + [acknowledge, unlink])[..k]);
            && s'.log == s.log
            && s'.receipts == (if k == |quiet| + 1 then s.receipts[acknowledge.name := acknowledge.receipt]
               else s.receipts)
  {
    var steps := quiet + [acknowledge, unlink];
    if k <= |quiet| {
      assert steps[..k] == quiet[..k];
      QuietSteps(s, quiet[..k]);
    } else {
      assert steps[..k] == quiet + [acknowledge];
      QuietSteps(s, quiet);
      ApplyAllConcat(s, quiet, [acknowledge]);
      assert ApplyAll(ApplyAll(s, quiet), [acknowledge]) == Apply(ApplyAll(s, quiet), acknowledge);
    }
  }

  /** The holder a settled store has is the result published last. */
  lemma HeldIsLast(s: Store, previous: Option<AnalysisResult>)
    requires Recoverable(s) && LogMatches(s) && Settled(s, previous)
    ensures if s.log == [] then previous.None? else previous == Some(s.log[|s.log| - 1].envelope.result)
  {
  }

  /** A file that advances the publication is newer than the holder. */
  lemma PublishedDiffers(s: Store, previous: Option<AnalysisResult>, c: Candidate, now: Time)
    requires Recoverable(s) && LogMatches(s) && Settled(s, previous) && ReceiptFor(s, c, now).publishedAt.Some?
    ensures previous != Some(c.result)
  {
    HeldIsLast(s, previous);
  }

  lemma Regroup(saved: Step, commit: Step, details: seq<Step>, point: Step, acknowledge: Step, unlink: Step)
    ensures [saved] + (([commit] + (details + [point])) + [acknowledge, unlink])
         == [saved, commit] + (details + [point]) + [acknowledge, unlink]
  {
  }

  /** Between the commit and the receipt: the details and the pointer. */
  ghost function Middle(s: Store, c: Candidate, receipt: Receipt, now: Time): seq<Step> {
    DetailSteps(s.details.Keys, c.result.advice, receipt, now) + [WriteCurrent(c.result)]
  }

  lemma PublishingRun(s: Store, previous: Option<AnalysisResult>, name: Id, now: Time)
    requires Sound(s) && Settled(s, previous) && Least(s, name, now)
    requires ReceiptFor(s, Candidates(s, now)[name], now).publishedAt.Some?
    ensures var run, c := ProcessFile(s, previous, name, now), Candidates(s, now)[name];
            var receipt := ReceiptFor(s, c, now);
            && run.previous == Some(c.result) && previous != run.previous
            && (if s.log == [] then previous.None? else previous == Some(s.log[|s.log| - 1].envelope.result))
            && c.result.id == name && name !in s.receipts && receipt.resultId == name
            && run.steps == [WriteResult(name, c.result, now), Commit(Envelope(c.result, receipt), c.inputTime)]
                            + Middle(s, c, receipt, now) + [WriteReceipt(name, receipt), RemoveInbox(name)]
  {
    CandidateRun(s, previous, name, now);
    HeldIsLast(s, previous);
    var c := Candidates(s, now)[name];
    PublishedDiffers(s, previous, c, now);
    var receipt := ReceiptFor(s, c, now);
    Regroup(WriteResult(name, c.result, now), Commit(Envelope(c.result, receipt), c.inputTime),
            DetailSteps(s.details.Keys, c.result.advice, receipt, now), WriteCurrent(c.result),
            WriteReceipt(name, receipt), RemoveInbox(name));
  }

  /** The call holds the result published last. */
  ghost predicate HoldsLast(s: Store, previous: Option<AnalysisResult>) {
    if s.log == [] then previous.None? else previous == Some(s.log[|s.log| - 1].envelope.result)
  }

  lemma FaultParts(s: Store, c: Candidate, receipt: Receipt, steps: seq<Step>, now: Time, done: nat)
    requires steps == [WriteResult(receipt.resultId, c.result, now), Commit(Envelope(c.result, receipt), c.inputTime)]
                      + Middle(s, c, receipt, now)
                      + [WriteReceipt(receipt.resultId, receipt), RemoveInbox(receipt.resultId)]
    requires receipt.resultId == c.result.id && receipt.resultId !in s.receipts && done < |steps|
    ensures var s' := ApplyAll(s, steps[..done]);
            && s'.log == (if done < 2 then s.log else s.log + [Publication(Envelope(c.result, receipt), c.inputTime)])
            && (AllAcknowledged(s, s') <==> done < 2 || done + 1 == |steps|)
  {
    DetailsQuiet(s.details.Keys, c.result.advice, receipt, now);
    AfterFault(s, WriteResult(receipt.resultId, c.result, now), Commit(Envelope(c.result, receipt), c.inputTime),
               Middle(s, c, receipt, now), WriteReceipt(receipt.resultId, receipt), RemoveInbox(receipt.resultId),
               done);
    var s' := ApplyAll(s, steps[..done]);
    if 2 <= done {
      assert s'.log[|s.log|].envelope == Envelope(c.result, receipt);
      assert AllAcknowledged(s, s') <==> Acknowledged(s', s'.log[|s.log|].envelope);
    }
  }

  /** A publishing file whose step number `done` raises an OSError leaves the loop holding the
      result published last, if and only if the fault is not between the commit and the pointer;
      and everything the file published has its receipt as well, if and only if the fault comes
      before the commit or at the unlink. */
  lemma FaultHarmlessIff(s: Store, previous: Option<AnalysisResult>, name: Id, now: Time, done: nat)
    requires Sound(s) && Settled(s, previous) && Least(s, name, now)
    requires ReceiptFor(s, Candidates(s, now)[name], now).publishedAt.Some?
    requires done < |ProcessFile(s, previous, name, now).steps|
    ensures var run := ProcessFile(s, previous, name, now);
            var s', holder := ApplyAll(s, run.steps[..done]), HolderAfterFault(run, previous, done);
            && (HoldsLast(s', holder) <==> !(2 <= done && done + 2 < |run.steps|))
            && (HoldsLast(s', holder) && AllAcknowledged(s, s') <==> done < 2 || done + 1 == |run.steps|)
  {
    PublishingRun(s, previous, name, now);
    var c := Candidates(s, now)[name];
    FaultVerdict(s, previous, c, ReceiptFor(s, c, now), ProcessFile(s, previous, name, now), now, done);
  }

  lemma FaultVerdict(
    s: Store, previous: Option<AnalysisResult>, c: Candidate, receipt: Receipt, run: Stretch, now: Time, done: nat)
    requires run.steps == [WriteResult(receipt.resultId, c.result, now),
                           Commit(Envelope(c.result, receipt), c.inputTime)]
                          + Middle(s, c, receipt, now)
                          + [WriteReceipt(receipt.resultId, receipt), RemoveInbox(receipt.resultId)]
    requires receipt.resultId == c.result.id && receipt.resultId !in s.receipts && done < |run.steps|
    requires HoldsLast(s, previous) && run.previous == Some(c.result) && previous != run.previous
    ensures var s', holder := ApplyAll(s, run.steps[..done]), HolderAfterFault(run, previous, done);
            && (HoldsLast(s', holder) <==> !(2 <= done && done + 2 < |run.steps|))
            && (HoldsLast(s', holder) && AllAcknowledged(s, s') <==> done < 2 || done + 1 == |run.steps|)
  {
    FaultParts(s, c, receipt, run.steps, now, done);
  }

  /** After such a fault the loop goes on with the other names: it keeps the published order if and
      only if the first file that what it holds lets through does not overtake that. */
  lemma FaultOrderIff(
    s: Store, previous: Option<AnalysisResult>, name: Id, now: Time, done: nat, names: seq<Id>)
    requires Sound(s) && Settled(s, previous) && Least(s, name, now) && Distinct(names)
    requires ReceiptFor(s, Candidates(s, now)[name], now).publishedAt.Some?
    requires 2 <= done < |ProcessFile(s, previous, name, now).steps|
    ensures var run := ProcessFile(s, previous, name, now);
            var s', holder := ApplyAll(s, run.steps[..done]), HolderAfterFault(run, previous, done);
            Chain(Published(ApplyAll(s', AcceptLoop(s', holder, names, now).steps).log))
            <==> !SomeOvertakes(s', holder, names, now)
  {
    var run, c := ProcessFile(s, previous, name, now), Candidates(s, now)[name];
    var receipt := ReceiptFor(s, c, now);
    PublishingRun(s, previous, name, now);
    FaultParts(s, c, receipt, run.steps, now, done);
    CandidateRun(s, previous, name, now);
    NextExtends(s, c, receipt, now);
    LoopKeepsOrderIff(ApplyAll(s, run.steps[..done]), HolderAfterFault(run, previous, done), names, now);
  }

  // ----- what becomes of a receipt that could not be written

  /** The next recovery starts by writing this receipt. */
  ghost predicate WillAcknowledge(s: Store, receipt: Receipt, later: Time) {
    RecoverySteps(s, later) != [] && RecoverySteps(s, later)[0] == WriteReceipt(receipt.resultId, receipt)
  }

  lemma LoopWithoutReceipt(s: Store, c: Candidate, receipt: Receipt, names: seq<Id>, now: Time, later: Time)
    requires receipt.resultId == c.result.id && c.result.id !in s.receipts && HeldLast(s, c)
    requires s.publication == Some(Envelope(c.result, receipt))
    requires c.result.id !in names && Distinct(names)
    ensures var end := ApplyAll(s, AcceptLoop(s, Some(c.result), names, now).steps);
            && c.result.id !in end.receipts && s.log <= end.log && Chain(Published(end.log))
            && (WillAcknowledge(end, receipt, later) <==> !SomeFirst(s, Some(c.result), names, now))
  {
    HeldLoopKeepsOrder(s, c, names, now);
    var run := AcceptLoop(s, Some(c.result), names, now);
    LoopForeign(s, Some(c.result), names, now, c.result.id);
    ForeignSteps(s, run.steps, c.result.id);
    LoopMovesIff(s, Some(c.result), names, now);
    DetailsAreNoReceipts(ApplyAll(s, run.steps), later);
  }

  /** The store when the receipt write raises. */
  ghost function Unreceipted(s: Store, previous: Option<AnalysisResult>, name: Id, now: Time): Store {
    var steps := ProcessFile(s, previous, name, now).steps;
    ApplyAll(s, if |steps| >= 2 then steps[..|steps| - 2] else steps)
  }

  lemma NextExtends(s: Store, c: Candidate, receipt: Receipt, now: Time)
    requires Chain(Published(s.log)) && Next(s, c, receipt, now) && receipt.publishedAt.Some?
    ensures InputOf(s, c) && Chain(Published(s.log + [Publication(Envelope(c.result, receipt), c.inputTime)]))
  {
    PublishedAfter(s, c, receipt);
    ChainExtended(Published(s.log), c);
  }

  lemma UnreceiptedFacts(s: Store, previous: Option<AnalysisResult>, name: Id, now: Time)
    requires Sound(s) && Settled(s, previous) && Least(s, name, now)
    requires ReceiptFor(s, Candidates(s, now)[name], now).publishedAt.Some?
    ensures var c := Candidates(s, now)[name];
            && SameFacts(Advanced(s, c, ReceiptFor(s, c, now), true, true, false, false),
                         Unreceipted(s, previous, name, now))
            && ReceiptFor(s, c, now).resultId == c.result.id == name && name !in s.receipts && InputOf(s, c)
            && Chain(Published(s.log + [Publication(Envelope(c.result, ReceiptFor(s, c, now)), c.inputTime)]))
  {
    var c := Candidates(s, now)[name];
    var receipt := ReceiptFor(s, c, now);
    UnreceiptedSteps(s, previous, name, now);
    CandidateRun(s, previous, name, now);
    PublishPath(s, c, receipt, now);
    NextExtends(s, c, receipt, now);
  }

  lemma DropTwo(a: seq<Step>, x: Step, y: Step)
    ensures (a + [x, y])[..|a + [x, y]| - 2] == a
  {
  }

  lemma UnreceiptedSteps(s: Store, previous: Option<AnalysisResult>, name: Id, now: Time)
    requires Sound(s) && Settled(s, previous) && Least(s, name, now)
    requires ReceiptFor(s, Candidates(s, now)[name], now).publishedAt.Some?
    ensures var c := Candidates(s, now)[name];
            var receipt := ReceiptFor(s, c, now);
            Unreceipted(s, previous, name, now)
            == ApplyAll(s, [WriteResult(name, c.result, now)] + PublishSteps(s, c.result, receipt, c.inputTime, now))
  {
    var c := Candidates(s, now)[name];
    var receipt := ReceiptFor(s, c, now);
    var first := [WriteResult(name, c.result, now)] + PublishSteps(s, c.result, receipt, c.inputTime, now);
    CandidateRun(s, previous, name, now);
    assert ProcessFile(s, previous, name, now).steps == first + [WriteReceipt(name, receipt), RemoveInbox(name)];
    DropTwo(first, WriteReceipt(name, receipt), RemoveInbox(name));
  }

  lemma DetailsAreNoReceipts(s: Store, now: Time)
    ensures var steps := RecoverySteps(s, now);
            steps != [] && steps[0].WriteReceipt? ==>
              s.publication.Some? && steps[0].name == s.publication.value.result.id
  {
    if s.publication.Some? {
      DetailsQuiet(s.details.Keys, s.publication.value.result.advice, s.publication.value.receipt, now);
    }
  }

  lemma FirstSame(s: Store, s': Store, previous: Option<AnalysisResult>, names: seq<Id>, now: Time)
    requires s'.inputs == s.inputs && s'.inbox == s.inbox && s'.receipts == s.receipts
    ensures SomeFirst(s', previous, names, now) <==> SomeFirst(s, previous, names, now)
  {
    forall j | 0 <= j < |names|
      ensures Through(s', previous, names[j], now) <==> Through(s, previous, names[j], now)
      ensures Raises(s', names[j]) <==> Raises(s, names[j])
    {
    }
    if i :| First(s, previous, names, i, now) {
      assert First(s', previous, names, i, now);
    }
    if i :| First(s', previous, names, i, now) {
      assert First(s, previous, names, i, now);
    }
  }

  // ----- no later call gives a passed-over result a publication time

  /** Pointer and publication are at least this new, and the publication is another one; the file
      of this name, if it is there, is no newer, and its receipt, if there is one, has no time. */
  ghost predicate Passed(s: Store, name: Id, time: Time) {
    && s.current.Some? && s.current.value.generatedAt >= time
    && s.publication.Some? && s.publication.value.result.generatedAt >= time
    && s.publication.value.result.id != name
    && (name in s.inbox && s.inbox[name].Verified? ==> s.inbox[name].result.generatedAt <= time)
    && Untimed(s, name)
  }

  ghost predicate Untimed(s: Store, name: Id) {
    name in s.receipts ==> s.receipts[name].publishedAt.None?
  }

  predicate Harmless(step: Step, name: Id, time: Time) {
    match step
    case Commit(envelope, _) => envelope.result.id != name && envelope.result.generatedAt >= time
    case WriteCurrent(result) => result.generatedAt >= time
    case WriteReceipt(other, receipt) => other != name || receipt.publishedAt.None?
    case Deliver(_, _) => false
    case _ => true
  }

  predicate AllHarmless(steps: seq<Step>, name: Id, time: Time) {
    forall i :: 0 <= i < |steps| ==> Harmless(steps[i], name, time)
  }

  lemma StaysPassed(s: Store, step: Step, name: Id, time: Time)
    requires Passed(s, name, time) && Harmless(step, name, time)
    ensures Passed(Apply(s, step), name, time)
  {
  }

  lemma {:induction false} AllStayPassed(s: Store, steps: seq<Step>, name: Id, time: Time)
    requires Passed(s, name, time) && AllHarmless(steps, name, time)
    ensures Passed(ApplyAll(s, steps), name, time)
    decreases |steps|
  {
    if steps != [] {
      StaysPassed(s, steps[0], name, time);
      AllStayPassed(Apply(s, steps[0]), steps[1..], name, time);
    }
  }

  lemma {:induction false} DetailsHarmless(
    existing: set<Id>, advice: seq<Advice>, receipt: Receipt, now: Time, name: Id, time: Time)
    ensures AllHarmless(DetailSteps(existing, advice, receipt, now), name, time)
    decreases |advice|
  {
    if advice != [] {
      DetailsHarmless(existing, advice[1..], receipt, now, name, time);
      DetailsHarmless(existing + {advice[0].id}, advice[1..], receipt, now, name, time);
    }
  }

  lemma RecoveryHarmless(s: Store, now: Time, name: Id, time: Time)
    requires Passed(s, name, time)
    ensures AllHarmless(RecoverySteps(s, now), name, time)
  {
    var Envelope(result, receipt) := s.publication.value;
    DetailsHarmless(s.details.Keys, result.advice, receipt, now, name, time);
  }

  ghost predicate AtLeast(held: Option<AnalysisResult>, time: Time) {
    held.Some? && held.value.generatedAt >= time
  }

  lemma HarmlessConcat(a: seq<Step>, b: seq<Step>, name: Id, time: Time)
    requires AllHarmless(a, name, time) && AllHarmless(b, name, time)
    ensures AllHarmless(a + b, name, time)
  {
  }

  lemma PublishHarmless(
    s: Store, result: AnalysisResult, receipt: Receipt, inputTime: Time, now: Time, name: Id, time: Time)
    requires result.id != name && result.generatedAt >= time
    ensures AllHarmless(PublishSteps(s, result, receipt, inputTime, now), name, time)
  {
    DetailsHarmless(s.details.Keys, result.advice, receipt, now, name, time);
  }

  lemma TurnHarmless(
    s: Store, result: AnalysisResult, receipt: Receipt, published: seq<Step>, now: Time, name: Id, time: Time)
    requires AllHarmless(published, name, time) && (receipt.resultId != name || receipt.publishedAt.None?)
    ensures AllHarmless(
              [WriteResult(receipt.resultId, result, now)]
              + (published + [WriteReceipt(receipt.resultId, receipt), RemoveInbox(receipt.resultId)]), name, time)
  {
    var tail := [WriteReceipt(receipt.resultId, receipt), RemoveInbox(receipt.resultId)];
    HarmlessConcat(published, tail, name, time);
    HarmlessConcat([WriteResult(receipt.resultId, result, now)], published + tail, name, time);
  }

  lemma FileHarmless(s: Store, previous: Option<AnalysisResult>, other: Id, now: Time, name: Id, time: Time)
    requires Passed(s, name, time) && AtLeast(previous, time)
    ensures var run := ProcessFile(s, previous, other, now);
            AllHarmless(run.steps, name, time) && AtLeast(run.previous, time)
  {
    if Acceptable(s, previous, other, now) {
      var c := CandidateOf(s, other, now);
      var through := LetThrough(s, previous, c);
      var receipt := Receipt(other, c.result.inputId, now, if through then Some(now) else None);
      AcceptableRun(s, previous, other, now);
      if through {
        PublishHarmless(s, c.result, receipt, c.inputTime, now, name, time);
      }
      TurnHarmless(s, c.result, receipt,
                   if through then PublishSteps(s, c.result, receipt, c.inputTime, now) else [], now, name, time);
    }
  }

  lemma {:induction false} LoopHarmless(
    s: Store, previous: Option<AnalysisResult>, names: seq<Id>, now: Time, name: Id, time: Time)
    requires Passed(s, name, time) && AtLeast(previous, time)
    ensures AllHarmless(AcceptLoop(s, previous, names, now).steps, name, time)
    decreases |names|
  {
    if names != [] {
      var first := ProcessFile(s, previous, names[0], now);
      FileHarmless(s, previous, names[0], now, name, time);
      if !first.raised {
        AllStayPassed(s, first.steps, name, time);
        LoopHarmless(ApplyAll(s, first.steps), first.previous, names[1..], now, name, time);
      }
    }
  }

  lemma ClosingHarmless(s: Store, status: AcceptStatus, name: Id, time: Time)
    ensures AllHarmless(ClosingSteps(s, status).steps, name, time)
  {
    ReportsHarmless(status, PublicationsOf(s), name, time);
  }

  lemma ReportsHarmless(status: AcceptStatus, list: seq<Receipt>, name: Id, time: Time)
    ensures AllHarmless([WriteAcceptStatus(status)], name, time)
    ensures AllHarmless([WriteAcceptStatus(status), WritePublicationList(list)], name, time)
  {
  }

  lemma OpeningHarmless(s: Store, now: Time, name: Id, time: Time)
    requires Passed(s, name, time)
    ensures AllHarmless(RecoverySteps(s, now) + LoopOf(s, now).steps, name, time)
  {
    var recovered := ApplyAll(s, RecoverySteps(s, now));
    RecoveryHarmless(s, now, name, time);
    AllStayPassed(s, RecoverySteps(s, now), name, time);
    LoopHarmless(recovered, recovered.current, SortedIds(s.inbox.Keys), now, name, time);
    HarmlessConcat(RecoverySteps(s, now), LoopOf(s, now).steps, name, time);
  }

  lemma CallHarmless(s: Store, now: Time, name: Id, time: Time)
    requires Passed(s, name, time)
    ensures AllHarmless(Accept(s, now).steps, name, time)
  {
    var loop := LoopOf(s, now);
    OpeningHarmless(s, now, name, time);
    if !RaisesAtOnce(s) && !loop.raised {
      var status := AcceptStatus(now, loop.accepted, loop.rejected);
      ClosingHarmless(AfterLoop(s, now), status, name, time);
      HarmlessConcat(RecoverySteps(s, now) + loop.steps, ClosingSteps(AfterLoop(s, now), status).steps, name, time);
    }
  }

  /** Whatever calls follow, stopped anywhere. */
  lemma {:induction false} AttemptsStayPassed(s: Store, attempts: seq<Attempt>, name: Id, time: Time)
    requires Passed(s, name, time)
    ensures Passed(AfterAttempts(s, attempts), name, time)
    decreases |attempts|
  {
    if attempts != [] {
      var steps := Accept(s, attempts[0].now).steps;
      CallHarmless(s, attempts[0].now, name, time);
      AllStayPassed(s, if attempts[0].done <= |steps| then steps[..attempts[0].done] else steps, name, time);
      AttemptsStayPassed(StoppedAfter(s, attempts[0].now, attempts[0].done), attempts[1..], name, time);
    }
  }

  ghost predicate NeverTimed(s: Store, name: Id) {
    forall attempts :: Untimed(AfterAttempts(s, attempts), name)
  }

  lemma PassedIsNeverTimed(s: Store, name: Id, time: Time)
    requires Passed(s, name, time)
    ensures NeverTimed(s, name)
  {
    forall attempts ensures Untimed(AfterAttempts(s, attempts), name) {
      AttemptsStayPassed(s, attempts, name, time);
    }
  }

  /** When a later file of the loop advances the publication, the unreceipted one is passed over. */
  lemma PassedByLoop(s: Store, c: Candidate, names: seq<Id>, now: Time)
    requires c.result.id !in s.receipts && c.result.id !in names && Distinct(names)
    requires s.current == Some(c.result) && c.result.id in s.inbox && s.inbox[c.result.id] == Verified(c.result)
    requires SomeFirst(s, Some(c.result), names, now)
    ensures Passed(ApplyAll(s, AcceptLoop(s, Some(c.result), names, now).steps), c.result.id, c.result.generatedAt)
  {
    var run := AcceptLoop(s, Some(c.result), names, now);
    LoopMovesIff(s, Some(c.result), names, now);
    LoopForeign(s, Some(c.result), names, now, c.result.id);
    ForeignSteps(s, run.steps, c.result.id);
  }

  /** The receipt of a file just published cannot be written, and the loop goes on with the other
      names: the result stays published, in order, and the next recovery gives it its receipt if and
      only if no other file of the loop advances the publication. Otherwise no sequence of later
      calls, stopped anywhere, gives it a publication time. */
  lemma ReceiptFaultIff(s: Store, previous: Option<AnalysisResult>, name: Id, names: seq<Id>, now: Time, later: Time)
    requires Sound(s) && Settled(s, previous) && Least(s, name, now)
    requires ReceiptFor(s, Candidates(s, now)[name], now).publishedAt.Some?
    requires name !in names && Distinct(names)
    ensures var c, s' := Candidates(s, now)[name], Unreceipted(s, previous, name, now);
            var receipt := ReceiptFor(s, c, now);
            var end := ApplyAll(s', AcceptLoop(s', Some(c.result), names, now).steps);
            && name !in end.receipts && Chain(Published(end.log))
            && s.log + [Publication(Envelope(c.result, receipt), c.inputTime)] <= end.log
            && (WillAcknowledge(end, receipt, later) <==> !SomeFirst(s, Some(c.result), names, now))
            && (SomeFirst(s, Some(c.result), names, now) ==> NeverTimed(end, name))
  {
    var c, s' := Candidates(s, now)[name], Unreceipted(s, previous, name, now);
    UnreceiptedFacts(s, previous, name, now);
    LoopWithoutReceipt(s', c, ReceiptFor(s, c, now), names, now, later);
    FirstSame(s, s', Some(c.result), names, now);
    if SomeFirst(s', Some(c.result), names, now) {
      PassedByLoop(s', c, names, now);
      PassedIsNeverTimed(ApplyAll(s', AcceptLoop(s', Some(c.result), names, now).steps), name, c.result.generatedAt);
    }
  }
}
