/** The directory as the running jobs see it: an object updated in place, one file operation
    at a time. `budget` is how many more operations the host survives, so that every point
    at which a call may be cut off is one of its executions. */
module CloudDisk {
  import opened Contracts
  import opened Store
  import opened Acceptance
  import opened Pipeline
  import opened CrashTransparency
  import opened Retention
  import opened EvidenceClosure
  import opened TurnEffect
  import opened PruneEffect

  datatype Ending = Completed | Raised | Crashed

  lemma StoppedWithin(s: Store, a: seq<Step>, b: seq<Step>, k: nat)
    ensures k < |a| ==> Stopped(s, a + b, k) == Stopped(s, a, k)
    ensures k >= |a| ==> Stopped(s, a + b, k) == Stopped(ApplyAll(s, a), b, k - |a|)
  {
    if k < |a| {
      assert (a + b)[..k] == a[..k];
    } else {
      ApplyAllConcat(s, a, b);
      if k <= |a + b| {
        assert (a + b)[..k] == a + b[..k - |a|];
        ApplyAllConcat(s, a, b[..k - |a|]);
      }
    }
  }

  /** What the loop has done, followed by what it is still going to do. */
  ghost function Glued(done: seq<Step>, accepted: seq<Id>, rejected: seq<Rejection>, rest: Stretch): Stretch {
    Stretch(done + rest.steps, rest.previous, accepted + rest.accepted, rejected + rest.rejected, rest.raised)
  }

  ghost function AfterFile(s: Store, run: Stretch, names: seq<Id>, now: Time): Stretch {
    if run.raised then Stretch([], run.previous, [], [], true)
    else AcceptLoop(ApplyAll(s, run.steps), run.previous, names, now)
  }

  lemma GluedTurn(
    done: seq<Step>, accepted: seq<Id>, rejected: seq<Rejection>,
    s: Store, previous: Option<AnalysisResult>, names: seq<Id>, now: Time)
    requires names != []
    ensures var run := ProcessFile(s, previous, names[0], now);
            Glued(done, accepted, rejected, AcceptLoop(s, previous, names, now))
            == Glued(done + run.steps, accepted + run.accepted, rejected + run.rejected,
                     AfterFile(s, run, names[1..], now))
  {
    var run := ProcessFile(s, previous, names[0], now);
    var rest := AfterFile(s, run, names[1..], now);
    Associative(done, run.steps, rest.steps);
    Associative(accepted, run.accepted, rest.accepted);
    Associative(rejected, run.rejected, rest.rejected);
  }

  lemma Associative<T>(a: seq<T>, b: seq<T>, c: seq<T>)
    ensures a + (b + c) == a + b + c && a + [] == a
  {
  }

  function EndingOf(run: AcceptRun, budget: nat): Ending {
    if |run.steps| > budget then Crashed else if run.completed then Completed else Raised
  }

  /** What the call does after its recovery. */
  ghost function AfterRecovery(s: Store, names: seq<Id>, now: Time): AcceptRun {
    var loop := AcceptLoop(s, s.current, names, now);
    if loop.raised then AcceptRun(loop.steps, false)
    else
      var closing := ClosingSteps(ApplyAll(s, loop.steps), AcceptStatus(now, loop.accepted, loop.rejected));
      AcceptRun(loop.steps + closing.steps, closing.completed)
  }

  lemma AcceptInTwo(s: Store, now: Time)
    requires !RaisesAtOnce(s)
    ensures var recovery := RecoverySteps(s, now);
            var rest := AfterRecovery(ApplyAll(s, recovery), SortedIds(s.inbox.Keys), now);
            Accept(s, now) == AcceptRun(recovery + rest.steps, rest.completed)
  {
    var loop := LoopOf(s, now);
    if !loop.raised {
      var closing := ClosingSteps(AfterLoop(s, now), AcceptStatus(now, loop.accepted, loop.rejected));
      Associative(RecoverySteps(s, now), loop.steps, closing.steps);
    }
  }

  lemma StoppedAtEnd(s: Store, run: AcceptRun, had: nat)
    requires !EndingOf(run, had).Crashed?
    ensures run.completed <==> EndingOf(run, had).Completed?
    ensures Stopped(s, run.steps, had) == ApplyAll(s, run.steps)
  {
    assert run.steps[..|run.steps|] == run.steps;
  }

  lemma CompletedView(s: Store, end: Store, now: Time, had: nat)
    requires end == StoppedAfter(s, now, had) && EndingOf(Accept(s, now), had).Completed?
    ensures ClosedBy(s, end, now) && EndsWell(s, end)
  {
    assert Accept(s, now).completed && end == Finished(s, now) by {
      StoppedAtEnd(s, Accept(s, now), had);
    }
    assert ClosedBy(s, Finished(s, now), now) by {
      CompletedCall(s, now);
    }
    assert EndsWell(s, Finished(s, now)) by {
      CallEnds(s, now);
    }
  }

  lemma RaisedView(s: Store, end: Store, now: Time, had: nat)
    requires end == StoppedAfter(s, now, had) && EndingOf(Accept(s, now), had).Raised?
    ensures RaisesFor(s, end)
  {
    assert !Accept(s, now).completed && end == Finished(s, now) by {
      StoppedAtEnd(s, Accept(s, now), had);
    }
    assert RaisesFor(s, Finished(s, now)) by {
      CallEnds(s, now);
    }
  }

  class Disk {
    var inputs: map<Id, Aged<InputSnapshot>>
    var inbox: map<Id, InboxFile>
    var results: map<Id, Aged<AnalysisResult>>
    var receipts: map<Id, Receipt>
    var details: map<Id, Aged<Detail>>
    var retained: map<Name, RetentionRecord>
    var currentInput: Option<InputSnapshot>
    var current: Option<AnalysisResult>
    var publication: Option<Envelope>
    var acceptStatus: Option<AcceptStatus>
    var publicationList: seq<Receipt>
    var log: seq<Publication>
    var budget: nat

    function View(): Store
      reads this
    {
      Store(inputs, inbox, results, receipts, details, retained, currentInput, current,
            publication, acceptStatus, publicationList, log)
    }

    /** From `s` with `had` operations left, exactly `steps` were run, as far as they went. */
    ghost predicate Ran(s: Store, had: nat, steps: seq<Step>, ok: bool)
      reads this
    {
      && ok == (|steps| <= had)
      && budget == (if ok then had - |steps| else 0)
      && View() == Stopped(s, steps, had)
    }

    lemma RanThen(s: Store, had: nat, a: seq<Step>, b: seq<Step>, ok: bool)
      requires |a| <= had && Ran(ApplyAll(s, a), had - |a|, b, ok)
      ensures Ran(s, had, a + b, ok)
    {
      StoppedWithin(s, a, b, had);
    }

    lemma RanShort(s: Store, had: nat, a: seq<Step>, b: seq<Step>)
      requires Ran(s, had, a, false)
      ensures Ran(s, had, a + b, false)
    {
      StoppedWithin(s, a, b, had);
    }

    static predicate RemovesEvidence(step: Step) {
      step.RemoveResult? || step.RemoveInput?
    }

    static predicate RemovesOther(step: Step) {
      step.RemoveInbox? || step.RemoveDetail? || step.RemoveReceipt?
    }

    /** The files of which there is one. */
    static predicate WritesSingle(step: Step) {
      || step.WriteCurrentInput? || step.Commit? || step.WriteCurrent?
      || step.WriteAcceptStatus? || step.WritePublicationList?
    }

    static predicate WritesEntry(step: Step) {
      step.WriteInput? || step.Deliver? || step.WriteResult?
    }

    method WriteSingle(step: Step)
      requires WritesSingle(step)
      modifies this
      ensures View() == Apply(old(View()), step) && budget == old(budget)
    {
      match step {
        case WriteCurrentInput(input) => currentInput := Some(input);
        case Commit(envelope, inputTime) =>
          publication := Some(envelope);
          log := log + [Publication(envelope, inputTime)];
        case WriteCurrent(result) => current := Some(result);
        case WriteAcceptStatus(status) => acceptStatus := Some(status);
        case WritePublicationList(list) => publicationList := list;
        case _ => assert false;
      }
    }

    method WriteEntry(step: Step)
      requires WritesEntry(step)
      modifies this
      ensures View() == Apply(old(View()), step) && budget == old(budget)
    {
      match step {
        case WriteInput(input, at) => inputs := inputs[input.id := Aged(input, at)];
        case Deliver(name, file) => inbox := inbox[name := file];
        case WriteResult(name, result, at) => results := results[name := Aged(result, at)];
        case _ => assert false;
      }
    }

    method WriteRecord(step: Step)
      requires step.WriteDetail? || step.WriteReceipt? || step.WriteRetention?
      modifies this
      ensures View() == Apply(old(View()), step) && budget == old(budget)
    {
      match step {
        case WriteDetail(detail, at) => details := details[detail.advice.id := Aged(detail, at)];
        case WriteReceipt(name, receipt) => receipts := receipts[name := receipt];
        case WriteRetention(record) => retained := retained[record.entry.name := record];
        case _ => assert false;
      }
    }

    method RemoveEvidence(step: Step)
      requires RemovesEvidence(step)
      modifies this
      ensures View() == Apply(old(View()), step) && budget == old(budget)
    {
      match step {
        case RemoveResult(name) => results := results - {name};
        case RemoveInput(name) => inputs := inputs - {name};
        case _ => assert false;
      }
    }

    method RemoveOther(step: Step)
      requires RemovesOther(step)
      modifies this
      ensures View() == Apply(old(View()), step) && budget == old(budget)
    {
      match step {
        case RemoveInbox(name) => inbox := inbox - {name};
        case RemoveDetail(adviceId) => details := details - {adviceId};
        case RemoveReceipt(name) => receipts := receipts - {name};
        case _ => assert false;
      }
    }

    method Perform(step: Step)
      modifies this
      ensures View() == Apply(old(View()), step) && budget == old(budget)
    {
      if RemovesEvidence(step) {
        RemoveEvidence(step);
      } else if RemovesOther(step) {
        RemoveOther(step);
      } else if WritesSingle(step) {
        WriteSingle(step);
      } else if WritesEntry(step) {
        WriteEntry(step);
      } else {
        WriteRecord(step);
      }
    }

    /** One atomic file operation, if the host survives it. */
    method Do(step: Step) returns (ok: bool)
      modifies this
      ensures Ran(old(View()), old(budget), [step], ok)
    {
      if budget == 0 {
        assert [step][..0] == [];
        return false;
      }
      budget := budget - 1;
      Perform(step);
      assert ApplyAll(old(View()), [step]) == Apply(old(View()), step);
      assert [step][..1] == [step];
      return true;
    }

    /** After `done`, one more step: the whole is what was run, whether or not it fitted. */
    method DoAfter(step: Step, ghost s: Store, ghost had: nat, ghost done: seq<Step>) returns (ok: bool)
      requires Ran(s, had, done, true)
      modifies this
      ensures Ran(s, had, done + [step], ok)
      ensures ok ==> View() == Apply(old(View()), step)
    {
      assert done[..|done|] == done;
      ok := Do(step);
      RanThen(s, had, done, [step], ok);
      assert [step][..1] == [step] && ApplyAll(old(View()), [step]) == Apply(old(View()), step);
    }

    /** The loop that writes the missing details of a result. */
    method WriteDetails(advice: seq<Advice>, receipt: Receipt, now: Time) returns (ok: bool)
      modifies this
      ensures Ran(old(View()), old(budget), DetailSteps(old(details.Keys), advice, receipt, now), ok)
    {
      ghost var s, had, all := View(), budget, DetailSteps(details.Keys, advice, receipt, now);
      ghost var done: seq<Step> := [];
      assert all == done + all;
      for i := 0 to |advice|
        invariant Ran(s, had, done, true)
        invariant all == done + DetailSteps(details.Keys, advice[i..], receipt, now)
      {
        assert advice[i..][0] == advice[i] && advice[i..][1..] == advice[i + 1..];
        if advice[i].id !in details {
          var step := WriteDetail(Detail(advice[i], receipt), now);
          ghost var keys := details.Keys + {advice[i].id};
          ghost var rest := DetailSteps(keys, advice[i + 1..], receipt, now);
          Associative(done, [step], rest);
          ok := DoAfter(step, s, had, done);
          done := done + [step];
          if !ok {
            RanShort(s, had, done, rest);
            return;
          }
          assert details.Keys == keys;
        }
      }
      assert all == done;
      return true;
    }

    /** After `done`, a stretch of steps that was run on its own. */
    lemma RanOn(s: Store, had: nat, done: seq<Step>, start: Store, left: nat, more: seq<Step>, ok: bool)
      requires |done| <= had && start == ApplyAll(s, done) && left == had - |done| && Ran(start, left, more, ok)
      ensures Ran(s, had, done + more, ok)
    {
      RanThen(s, had, done, more, ok);
    }

    lemma RanAll(s: Store, had: nat, done: seq<Step>)
      requires Ran(s, had, done, true)
      ensures View() == ApplyAll(s, done) && budget == had - |done|
    {
      assert done[..|done|] == done;
    }

    /** The commit point, the details, and the current pointer. */
    method Publish(result: AnalysisResult, receipt: Receipt, inputTime: Time, now: Time) returns (ok: bool)
      modifies this
      ensures Ran(old(View()), old(budget), PublishSteps(old(View()), result, receipt, inputTime, now), ok)
    {
      ghost var s, had := View(), budget;
      var commit := Commit(Envelope(result, receipt), inputTime);
      ghost var writes := DetailSteps(s.details.Keys, result.advice, receipt, now);
      ok := Do(commit);
      if !ok {
        RanShort(s, had, [commit], writes + [WriteCurrent(result)]);
        return;
      }
      RanAll(s, had, [commit]);
      ghost var start, left := View(), budget;
      ok := WriteDetails(result.advice, receipt, now);
      RanOn(s, had, [commit], start, left, writes, ok);
      assert [commit] + (writes + [WriteCurrent(result)]) == [commit] + writes + [WriteCurrent(result)];
      if !ok {
        RanShort(s, had, [commit] + writes, [WriteCurrent(result)]);
        return;
      }
      ok := DoAfter(WriteCurrent(result), s, had, [commit] + writes);
    }

    /** The last two steps for an accepted file. */
    method Acknowledge(name: Id, receipt: Receipt) returns (ok: bool)
      modifies this
      ensures Ran(old(View()), old(budget), [WriteReceipt(name, receipt), RemoveInbox(name)], ok)
    {
      ghost var s, had := View(), budget;
      assert [WriteReceipt(name, receipt)] + [RemoveInbox(name)] == [WriteReceipt(name, receipt), RemoveInbox(name)];
      ok := Do(WriteReceipt(name, receipt));
      if !ok {
        RanShort(s, had, [WriteReceipt(name, receipt)], [RemoveInbox(name)]);
        return;
      }
      ok := DoAfter(RemoveInbox(name), s, had, [WriteReceipt(name, receipt)]);
    }

    /** What one file adds to the report, besides the steps it caused. */
    ghost predicate Reports(
      run: Stretch, previous: Option<AnalysisResult>, accepted: seq<Id>, rejected: seq<Rejection>,
      raised: bool) {
      previous == run.previous && accepted == run.accepted && rejected == run.rejected && raised == run.raised
    }

    /** A verified file whose receipt does not exist yet. */
    method AcceptResult(name: Id, result: AnalysisResult, previous: Option<AnalysisResult>, now: Time)
      returns (ok: bool, previous': Option<AnalysisResult>, accepted: seq<Id>, rejected: seq<Rejection>)
      requires name !in receipts && name in inbox && inbox[name] == Verified(result)
      requires FileProblem(name, inbox[name], inputs, now).None?
      modifies this
      ensures Ran(old(View()), old(budget), ProcessFile(old(View()), previous, name, now).steps, ok)
      ensures ok ==> Reports(ProcessFile(old(View()), previous, name, now), previous', accepted, rejected, false)
    {
      ghost var s, had, run := View(), budget, ProcessFile(View(), previous, name, now);
      var inputTime := inputs[result.inputId].value.generatedAt;
      var saved := WriteResult(name, result, now);
      previous', accepted, rejected := previous, [], [];
      ok := Do(saved);
      if !ok {
        assert run.steps == [saved] + run.steps[1..];
        RanShort(s, had, [saved], run.steps[1..]);
        return;
      }
      RanAll(s, had, [saved]);
      if previous.Some? && previous.value.inputId !in inputs {
        rejected := [Rejection(name, PreviousInputMissing)];
        return;
      }
      var previousInput := if previous.Some? then inputs[previous.value.inputId].value.generatedAt else 0;
      var advances := Advances(previous, previousInput, result, inputTime);
      var receipt := Receipt(result.id, result.inputId, now, if advances then Some(now) else None);
      ghost var published := if advances then PublishSteps(s, result, receipt, inputTime, now) else [];
      ghost var last := [WriteReceipt(name, receipt), RemoveInbox(name)];
      assert run.steps == [saved] + published + last;
      ghost var start, left := View(), budget;
      if advances {
        ok := Publish(result, receipt, inputTime, now);
        RanOn(s, had, [saved], start, left, published, ok);
        if !ok {
          RanShort(s, had, [saved] + published, last);
          return;
        }
        previous' := Some(result);
      } else {
        assert [saved] + published == [saved];
      }
      RanAll(s, had, [saved] + published);
      start, left := View(), budget;
      ok := Acknowledge(name, receipt);
      RanOn(s, had, [saved] + published, start, left, last, ok);
      accepted := [name];
    }

    lemma RanNothing()
      ensures Ran(View(), budget, [], true)
    {
      var none: seq<Step> := [];
      assert none[..0] == [];
    }

    /** One turn of the accept loop: unless the host dies, what `TurnOf` says of the files. */
    method AcceptFile(name: Id, previous: Option<AnalysisResult>, now: Time)
      returns (ok: bool, previous': Option<AnalysisResult>, accepted: seq<Id>, rejected: seq<Rejection>, raised: bool)
      modifies this
      ensures Ran(old(View()), old(budget), ProcessFile(old(View()), previous, name, now).steps, ok)
      ensures ok ==> Reports(ProcessFile(old(View()), previous, name, now), previous', accepted, rejected, raised)
      ensures ok && name in old(inbox) ==>
                TurnOf(old(View()), View(), Stretch([], previous', accepted, rejected, raised), previous, name, now)
    {
      ghost var s, had := View(), budget;
      ok, previous', accepted, rejected, raised := TakeTurn(name, previous, now);
      if ok && name in s.inbox {
        RanAll(s, had, ProcessFile(s, previous, name, now).steps);
        TurnMeans(s, previous, name, now);
        TurnWithoutSteps(s, View(), ProcessFile(s, previous, name, now), previous, name, now);
      }
    }

    method TakeTurn(name: Id, previous: Option<AnalysisResult>, now: Time)
      returns (ok: bool, previous': Option<AnalysisResult>, accepted: seq<Id>, rejected: seq<Rejection>, raised: bool)
      modifies this
      ensures Ran(old(View()), old(budget), ProcessFile(old(View()), previous, name, now).steps, ok)
      ensures ok ==> Reports(ProcessFile(old(View()), previous, name, now), previous', accepted, rejected, raised)
    {
      ok, previous', accepted, rejected, raised := true, previous, [], [], false;
      var file := if name in inbox then inbox[name] else NotJson;
      if name in receipts {
        if !file.Verified? || file.result.id != name {
          raised := true;
        } else {
          ok := Do(RemoveInbox(name));
        }
        return;
      }
      var problem := FileProblem(name, file, inputs, now);
      if problem.Some? {
        rejected := [Rejection(name, problem.value)];
      } else {
        ok, previous', accepted, rejected := AcceptResult(name, file.result, previous, now);
      }
    }

    /** The receipt and the pointer of a committed result that has no receipt yet. */
    method FollowUp(result: AnalysisResult, receipt: Receipt) returns (ok: bool)
      modifies this
      ensures Ran(old(View()), old(budget), [WriteReceipt(result.id, receipt), WriteCurrent(result)], ok)
    {
      ghost var s, had := View(), budget;
      var acknowledge, point := WriteReceipt(result.id, receipt), WriteCurrent(result);
      assert [acknowledge] + [point] == [acknowledge, point];
      ok := Do(acknowledge);
      if !ok {
        RanShort(s, had, [acknowledge], [point]);
        return;
      }
      ok := DoAfter(point, s, had, [acknowledge]);
    }

    /** The prologue: finish what a crash after the commit point left undone. */
    method Recover(now: Time) returns (ok: bool)
      modifies this
      ensures Ran(old(View()), old(budget), RecoverySteps(old(View()), now), ok)
      ensures ok ==> RecoveryOf(old(View()), View(), now)
    {
      ghost var s, had := View(), budget;
      RecoveryMeans(s, now);
      RanNothing();
      if publication.None? {
        return true;
      }
      var Envelope(result, receipt) := publication.value;
      ghost var writes := DetailSteps(s.details.Keys, result.advice, receipt, now);
      ghost var done: seq<Step> := [];
      if result.id !in receipts {
        ok := FollowUp(result, receipt);
        done := [WriteReceipt(result.id, receipt), WriteCurrent(result)];
        if !ok {
          RanShort(s, had, done, writes);
          return;
        }
      }
      RanAll(s, had, done);
      if done != [] {
        ApplyTwo(s, done[0], done[1]);
      }
      ghost var start, left := View(), budget;
      ok := WriteDetails(result.advice, receipt, now);
      RanOn(s, had, done, start, left, writes, ok);
      assert done + writes == RecoverySteps(s, now);
      if ok {
        RanAll(s, had, RecoverySteps(s, now));
      }
    }

    method AcceptFiles(names: seq<Id>, first: Option<AnalysisResult>, now: Time)
      returns (ok: bool, accepted: seq<Id>, rejected: seq<Rejection>, raised: bool)
      modifies this
      ensures var run := AcceptLoop(old(View()), first, names, now);
              Ran(old(View()), old(budget), run.steps, ok) &&
              (ok ==> accepted == run.accepted && rejected == run.rejected && raised == run.raised)
    {
      ghost var s, had, all := View(), budget, AcceptLoop(View(), first, names, now);
      ghost var done: seq<Step> := [];
      var previous, i := first, 0;
      ok, accepted, rejected, raised := true, [], [], false;
      RanNothing();
      while i < |names|
        invariant i <= |names| && Ran(s, had, done, true)
        invariant all == Glued(done, accepted, rejected, AcceptLoop(View(), previous, names[i..], now))
      {
        RanAll(s, had, done);
        ghost var start, left := View(), budget;
        ghost var run := ProcessFile(start, previous, names[i], now);
        ghost var rest := AfterFile(start, run, names[i + 1..], now);
        GluedTurn(done, accepted, rejected, start, previous, names[i..], now);
        assert names[i..][1..] == names[i + 1..];
        var a, r;
        ok, previous, a, r, raised := AcceptFile(names[i], previous, now);
        RanOn(s, had, done, start, left, run.steps, ok);
        done := done + run.steps;
        if !ok {
          RanShort(s, had, done, rest.steps);
          return;
        }
        RanAll(start, left, run.steps);
        accepted, rejected, i := accepted + a, rejected + r, i + 1;
        if raised {
          assert all.steps == done;
          return;
        }
      }
      assert all.steps == done;
    }

    /** Gathers the receipts that name a publication time, in file-name order. */
    method CollectPublications(names: seq<Id>) returns (list: seq<Receipt>)
      requires forall name :: name in names ==> name in receipts
      ensures list == PublishedReceipts(receipts, names)
    {
      list := [];
      ghost var all := PublishedReceipts(receipts, names);
      for i := 0 to |names|
        invariant all == list + PublishedReceipts(receipts, names[i..])
      {
        var receipt := receipts[names[i]];
        ghost var more := if receipt.publishedAt.Some? then [receipt] else [];
        assert names[i..][0] == names[i] && names[i..][1..] == names[i + 1..];
        Associative(list, more, PublishedReceipts(receipts, names[i + 1..]));
        if receipt.publishedAt.Some? {
          list := list + [receipt];
        }
      }
    }

    /** The two reports that close the call. */
    method Close(status: AcceptStatus) returns (ok: bool, completed: bool)
      modifies this
      ensures Ran(old(View()), old(budget), ClosingSteps(old(View()), status).steps, ok)
      ensures ok ==> completed == ClosingSteps(old(View()), status).completed
    {
      ghost var s, had, report, rest := View(), budget, [WriteAcceptStatus(status)], ListSteps(PublicationsOf(View()));
      assert ClosingSteps(s, status).steps == report + rest;
      ok := Do(WriteAcceptStatus(status));
      completed := false;
      if !ok {
        RanShort(s, had, report, rest);
        return;
      }
      RanAll(s, had, report);
      ghost var start, left := View(), budget;
      assert start == ApplyAll(s, report) && PublicationsOf(start) == PublicationsOf(s) by {
        assert ApplyAll(s, report) == Apply(s, WriteAcceptStatus(status));
      }
      ok, completed := ListPublications();
      RanOn(s, had, report, start, left, rest, ok);
    }

    static ghost function ListSteps(list: seq<Receipt>): seq<Step> {
      if |list| > PUBLICATION_BUDGET then [] else [WritePublicationList(list)]
    }

    method ListPublications() returns (ok: bool, completed: bool)
      modifies this
      ensures Ran(old(View()), old(budget), ListSteps(PublicationsOf(old(View()))), ok)
      ensures completed == (|PublicationsOf(old(View()))| <= PUBLICATION_BUDGET)
    {
      var publications := CollectPublications(SortedIds(receipts.Keys));
      if |publications| > PUBLICATION_BUDGET {
        RanNothing();
        return true, false;
      }
      ok := Do(WritePublicationList(publications));
      completed := true;
    }

    /** `accept_results`. The store it leaves is what the first `budget` of its steps make of
        the old one; that is harmless exactly when they do not end at the stranding point. */
    method AcceptResults(now: Time) returns (ending: Ending)
      modifies this
      ensures View() == StoppedAfter(old(View()), now, old(budget))
      ensures ending == EndingOf(Accept(old(View()), now), old(budget))
      ensures Sound(old(View())) ==> (Keeps(old(View()), View(), now) <==> !Strands(old(View()), now, old(budget)))
      ensures ending.Completed? ==> ClosedBy(old(View()), View(), now) && EndsWell(old(View()), View())
      ensures ending.Raised? ==> RaisesFor(old(View()), View())
    {
      ghost var s, had := View(), budget;
      ending := AcceptAll(now);
      if ending.Completed? {
        CompletedView(s, View(), now, had);
      } else if ending.Raised? {
        RaisedView(s, View(), now, had);
      }
      if Sound(s) {
        CrashSafeIff(s, now, had);
      }
    }

    /** The loop over the files and the reports, once recovery is done. */
    method AcceptAndReport(names: seq<Id>, now: Time) returns (ok: bool, completed: bool)
      modifies this
      ensures Ran(old(View()), old(budget), AfterRecovery(old(View()), names, now).steps, ok)
      ensures ok ==> completed == AfterRecovery(old(View()), names, now).completed
    {
      ghost var s, had, loop := View(), budget, AcceptLoop(View(), current, names, now);
      ghost var all := AfterRecovery(s, names, now);
      var accepted, rejected, raised;
      completed := false;
      ok, accepted, rejected, raised := AcceptFiles(names, current, now);
      if !ok {
        ghost var rest := all.steps[|loop.steps|..];
        assert all.steps == loop.steps + rest;
        RanShort(s, had, loop.steps, rest);
        return;
      }
      if raised {
        return;
      }
      RanAll(s, had, loop.steps);
      ghost var start, left := View(), budget;
      var status := AcceptStatus(now, accepted, rejected);
      ok, completed := Close(status);
      RanOn(s, had, loop.steps, start, left, ClosingSteps(start, status).steps, ok);
    }

    method AcceptAll(now: Time) returns (ending: Ending)
      modifies this
      ensures View() == Stopped(old(View()), Accept(old(View()), now).steps, old(budget))
      ensures ending == EndingOf(Accept(old(View()), now), old(budget))
    {
      ghost var s, had := View(), budget;
      RanNothing();
      if |inbox| > INBOX_BUDGET {
        return Raised;
      }
      if publication.Some? {
        var Envelope(result, receipt) := publication.value;
        if receipt.resultId != result.id || receipt.publishedAt.None? {
          return Raised;
        }
      }
      var names := SortedIds(inbox.Keys);
      ghost var recovery := RecoverySteps(s, now);
      ghost var rest := AfterRecovery(ApplyAll(s, recovery), names, now);
      AcceptInTwo(s, now);
      var ok := Recover(now);
      if !ok {
        RanShort(s, had, recovery, rest.steps);
        return Crashed;
      }
      RanAll(s, had, recovery);
      ghost var start, left := View(), budget;
      var completed;
      ok, completed := AcceptAndReport(names, now);
      RanOn(s, had, recovery, start, left, rest.steps, ok);
      ending := if !ok then Crashed else if completed then Completed else Raised;
    }

    /** The loop that unlinks the aged details of a deleted result. */
    method RemoveDetails(advice: seq<Advice>, policy: Policy) returns (ok: bool)
      modifies this
      ensures Ran(old(View()), old(budget), RemovedDetails(old(details), advice, policy), ok)
    {
      ghost var s, had, all := View(), budget, RemovedDetails(details, advice, policy);
      ghost var done: seq<Step> := [];
      RanNothing();
      for i := 0 to |advice|
        invariant Ran(s, had, done, true)
        invariant all == done + RemovedDetails(details, advice[i..], policy)
      {
        assert advice[i..][0] == advice[i] && advice[i..][1..] == advice[i + 1..];
        var id := advice[i].id;
        if id !in policy.keptAdvice && id in details && details[id].mtime < policy.cutoff {
          ghost var left := details - {id};
          ghost var rest := RemovedDetails(left, advice[i + 1..], policy);
          Associative(done, [RemoveDetail(id)], rest);
          ok := DoAfter(RemoveDetail(id), s, had, done);
          done := done + [RemoveDetail(id)];
          if !ok {
            RanShort(s, had, done, rest);
            return;
          }
          assert details == left;
        }
      }
      assert all == done;
      return true;
    }

    /** The details, the receipt, and at last the result itself. */
    method RemoveWholeResult(id: Id, policy: Policy) returns (ok: bool)
      requires id in results
      modifies this
      ensures Ran(old(View()), old(budget),
                  RemovedDetails(old(details), old(results[id]).value.advice, policy)
                    + [RemoveReceipt(id), RemoveResult(id)], ok)
    {
      ghost var s, had := View(), budget;
      var advice := results[id].value.advice;
      ghost var first := RemovedDetails(details, advice, policy);
      assert first + [RemoveReceipt(id)] + [RemoveResult(id)] == first + [RemoveReceipt(id), RemoveResult(id)];
      ok := RemoveDetails(advice, policy);
      if !ok {
        RanShort(s, had, first, [RemoveReceipt(id), RemoveResult(id)]);
        return;
      }
      ok := DoAfter(RemoveReceipt(id), s, had, first);
      if !ok {
        RanShort(s, had, first + [RemoveReceipt(id)], [RemoveResult(id)]);
        return;
      }
      ok := DoAfter(RemoveResult(id), s, had, first + [RemoveReceipt(id)]);
    }

    /** One entry of the acknowledgement. */
    method PruneOne(entry: AckEntry, policy: Policy) returns (ok: bool, raised: bool, removed: seq<RetentionRecord>)
      modifies this
      ensures Ran(old(View()), old(budget), PruneEntry(old(View()), entry, policy).steps, ok)
      ensures ok ==> raised == PruneEntry(old(View()), entry, policy).raised
      ensures ok ==> removed == PruneEntry(old(View()), entry, policy).removed
    {
      ghost var s, had, run := View(), budget, PruneEntry(View(), entry, policy);
      RanNothing();
      ok, raised, removed := true, false, [];
      if !WellNamed(entry) {
        raised := true;
        return;
      }
      if entry.name in policy.kept {
        return;
      }
      var present := match entry.name case InputName(id) => id in inputs case ResultName(id) => id in results;
      if !present {
        return;
      }
      var mtime := match entry.name case InputName(id) => inputs[id].mtime case ResultName(id) => results[id].mtime;
      if mtime >= policy.cutoff {
        return;
      }
      var content := match entry.name
        case InputName(id) => InputContent(inputs[id].value)
        case ResultName(id) => ResultContent(results[id].value);
      if content != entry.digest {
        raised := true;
        return;
      }
      var record := WriteRetention(RetentionRecord(entry, policy.now, policy.ackAt));
      ghost var rest := run.steps[1..];
      assert run.steps == [record] + rest;
      ok := Do(record);
      if !ok {
        RanShort(s, had, [record], rest);
        return;
      }
      RanAll(s, had, [record]);
      ghost var start, left := View(), budget;
      match entry.name {
        case InputName(id) => ok := Do(RemoveInput(id));
        case ResultName(id) => ok := RemoveWholeResult(id, policy);
      }
      RanOn(s, had, [record], start, left, rest, ok);
      removed := [record.record];
    }

    /** `prune_acknowledged`, past its guards or not. */
    method PruneAcknowledged(ack: Option<Ack>, now: Time, retentionDays: int) returns (ok: bool, status: PruneStatus)
      modifies this
      ensures View() == Stopped(old(View()), Prune(old(View()), ack, now, retentionDays), old(budget))
      ensures ok ==> status == PruneStatusOf(old(View()), ack, now, retentionDays)
      ensures ok ==> PruneMeans(old(View()), View(), ack, now, retentionDays, status)
      ensures Sound(old(View())) ==> Sound(View())
    {
      ghost var s, had := View(), budget;
      if MayPrune(View(), ack, now, retentionDays) {
        var raised, removed;
        ok, raised, removed := PruneEntries(ResultsFirst(ack.value.entries),
                                            PolicyOf(View(), ack.value, now, retentionDays));
        status := if raised then PruneRaised else Pruned(removed);
      } else {
        RanNothing();
        ok := true;
        status := if 7 <= retentionDays <= 30 && ack.None? then AwaitingAck
                  else if 7 <= retentionDays <= 30 && ack.value.authentic && ack.value.generatedAt <= now + 5 * SECOND
                          && now - ack.value.generatedAt > ACK_LIFETIME then StaleAck
                  else PruneRaised;
      }
      if ok {
        PruneCallMeans(s, ack, now, retentionDays);
        RanAll(s, had, Prune(s, ack, now, retentionDays));
      }
      if Sound(s) {
        JobSound(s, Job.PruneAcknowledged(ack, now, retentionDays, had));
      }
    }

    method PruneEntries(entries: seq<AckEntry>, policy: Policy)
      returns (ok: bool, raised: bool, removed: seq<RetentionRecord>)
      modifies this
      ensures Ran(old(View()), old(budget), PruneLoop(old(View()), entries, policy).steps, ok)
      ensures ok ==> raised == PruneLoop(old(View()), entries, policy).raised
      ensures ok ==> removed == PruneLoop(old(View()), entries, policy).removed
    {
      ghost var s, had, all := View(), budget, PruneLoop(View(), entries, policy);
      ghost var done: seq<Step> := [];
      removed := [];
      RanNothing();
      for i := 0 to |entries|
        invariant Ran(s, had, done, true)
        invariant Goes(all, done, removed, PruneLoop(View(), entries[i..], policy))
      {
        RanAll(s, had, done);
        ghost var start, left := View(), budget;
        ghost var run := PruneEntry(start, entries[i], policy);
        assert entries[i..][0] == entries[i] && entries[i..][1..] == entries[i + 1..];
        ghost var rest := if run.raised then PruneRun([], true, [])
          else PruneLoop(ApplyAll(start, run.steps), entries[i + 1..], policy);
        var gone;
        ok, raised, gone := PruneOne(entries[i], policy);
        RanOn(s, had, done, start, left, run.steps, ok);
        GoesOn(all, done, removed, run, rest);
        done := done + run.steps;
        if !ok {
          RanShort(s, had, done, rest.steps);
          return;
        }
        removed := removed + gone;
        if raised {
          GoesToEnd(all, done, removed, rest);
          return;
        }
        RanAll(start, left, run.steps);
      }
      GoesToEnd(all, done, removed, PruneLoop(View(), entries[|entries|..], policy));
      return true, false, removed;
    }

    /** What is done and removed so far, followed by the rest, is the whole. */
    static ghost predicate Goes(all: PruneRun, done: seq<Step>, removed: seq<RetentionRecord>, rest: PruneRun) {
      all == PruneRun(done + rest.steps, rest.raised, removed + rest.removed)
    }

    static lemma GoesToEnd(all: PruneRun, done: seq<Step>, removed: seq<RetentionRecord>, rest: PruneRun)
      requires Goes(all, done, removed, rest) && rest.steps == [] && rest.removed == []
      ensures all == PruneRun(done, rest.raised, removed)
    {
    }

    static lemma GoesOn(all: PruneRun, done: seq<Step>, removed: seq<RetentionRecord>, run: PruneRun, rest: PruneRun)
      requires run.raised ==> rest == PruneRun([], true, [])
      requires Goes(all, done, removed, if run.raised then run
                                        else PruneRun(run.steps + rest.steps, rest.raised, run.removed + rest.removed))
      ensures Goes(all, done + run.steps, removed + run.removed, rest)
    {
    }

    /** `publish_input`: facts already stored keep their first generation time. */
    method PublishInput(input: InputSnapshot, now: Time) returns (ok: bool)
      modifies this
      ensures Ran(old(View()), old(budget), InputSteps(old(View()), input, now), ok)
      ensures ok && input.id in old(inputs) ==>
                View() == old(View()).(currentInput := Some(old(inputs[input.id]).value))
      ensures ok && input.id !in old(inputs) ==>
                View() == old(View()).(inputs := old(inputs)[input.id := Aged(input, now)], currentInput := Some(input))
    {
      ghost var s, had := View(), budget;
      if input.id in inputs {
        ok := Do(WriteCurrentInput(inputs[input.id].value));
        if ok {
          RanAll(s, had, [WriteCurrentInput(s.inputs[input.id].value)]);
        }
        return;
      }
      var stored := WriteInput(input, now);
      assert [stored] + [WriteCurrentInput(input)] == [stored, WriteCurrentInput(input)];
      ok := Do(stored);
      if !ok {
        RanShort(s, had, [stored], [WriteCurrentInput(input)]);
        return;
      }
      RanAll(s, had, [stored]);
      ok := DoAfter(WriteCurrentInput(input), s, had, [stored]);
    }
  }
}
