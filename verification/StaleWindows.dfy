/** The gap between the two recovery writes of `accept_results`: a call that stops there leaves the
    pointer behind the last publication, and what the next whole call then does. */
module StaleWindows {
  import opened Contracts
  import opened Store
  import opened Acceptance
  import opened Pipeline
  import opened CrashTransparency
  import opened LoopOrder
  import opened Retention
  import opened EvidenceClosure
  import opened Samples

  // ----- the gap between the two writes of the recovery

  lemma RecoveryIdle(s: Store, now: Time)
    requires s.publication.Some? && s.publication.value.result.id in s.receipts
    ensures SameFacts(s, ApplyAll(s, RecoverySteps(s, now)))
  {
    var Envelope(result, receipt) := s.publication.value;
    DetailsPath(s, s.details.Keys, result.advice, receipt, now);
    var details := DetailSteps(s.details.Keys, result.advice, receipt, now);
    assert RecoverySteps(s, now) == [] + details == details;
    AlongEnd(s, details, x => SameFacts(s, x) && x.results == s.results);
  }

  // ----- a whole call on a store where nothing awaits recovery

  ghost predicate NothingAwaits(s: Store) {
    s.publication.Some? && s.publication.value.result.id in s.receipts
  }

  lemma ClosingFacts(s: Store, now: Time)
    requires !RaisesAtOnce(s)
    ensures SameFacts(AfterLoop(s, now), Finished(s, now))
  {
    var recovery, loop := RecoverySteps(s, now), LoopOf(s, now);
    var before := AfterLoop(s, now);
    if loop.raised {
      ApplyAllConcat(s, recovery, loop.steps);
    } else {
      var status := AcceptStatus(now, loop.accepted, loop.rejected);
      ClosingPath(before, status);
      AlongEnd(before, ClosingSteps(before, status).steps, x => SameFacts(before, x) && x.results == before.results);
      ApplyAllThree(s, recovery, loop.steps, ClosingSteps(before, status).steps);
    }
  }

  lemma SameTurns(s: Store, s': Store, previous: Option<AnalysisResult>, now: Time)
    requires SameFacts(s, s')
    ensures Advancing(s', previous, now) <==> Advancing(s, previous, now)
    ensures Overtaking(s', previous, now) <==> Overtaking(s, previous, now)
  {
    forall name
      ensures Through(s', previous, name, now) <==> Through(s, previous, name, now)
      ensures Raises(s', name) <==> Raises(s, name)
      ensures Overtaken(s', previous, name, now) <==> Overtaken(s, previous, name, now)
    {
      SameTurn(s, s', previous, name, now);
    }
    forall name ensures QuietBefore(s', previous, name, now) <==> QuietBefore(s, previous, name, now) {
      SameQuiet(s, s', previous, name, now);
    }
    if name :| QuietBefore(s, previous, name, now) && Through(s, previous, name, now) {
      assert QuietBefore(s', previous, name, now) && Through(s', previous, name, now);
    }
    if name :| QuietBefore(s, previous, name, now) && Overtaken(s, previous, name, now) {
      assert QuietBefore(s', previous, name, now) && Overtaken(s', previous, name, now);
    }
  }

  lemma SameQuiet(s: Store, s': Store, previous: Option<AnalysisResult>, name: Id, now: Time)
    requires SameFacts(s, s')
    ensures QuietBefore(s', previous, name, now) <==> QuietBefore(s, previous, name, now)
  {
    forall other
      ensures Through(s', previous, other, now) <==> Through(s, previous, other, now)
      ensures Raises(s', other) <==> Raises(s, other)
    {
      SameTurn(s, s', previous, other, now);
    }
  }

  /** Whatever the current result is: a call keeps the published order if and only if the first file
      that the current result lets through does not overtake it, and leaves the current result as it
      is if and only if no file is let through. */
  lemma CallKeepsOrderIff(s: Store, now: Time)
    requires NothingAwaits(s) && s.log != [] && Chain(Published(s.log)) && !RaisesAtOnce(s)
    ensures Chain(Published(Finished(s, now).log)) <==> !Overtaking(s, s.current, now)
    ensures Finished(s, now).current == s.current <==> !Advancing(s, s.current, now)
  {
    var start, names := ApplyAll(s, RecoverySteps(s, now)), SortedIds(s.inbox.Keys);
    assert SameFacts(s, start) by {
      RecoveryIdle(s, now);
    }
    ClosingFacts(s, now);
    SameTurns(s, start, s.current, now);
    ByName(start, s.current, now);
    LoopKeepsOrderIff(start, s.current, names, now);
    LoopMovesIff(start, s.current, names, now);
  }

  // ----- the next call after a stop in the gap

  lemma StrandedCall(s: Store, now: Time)
    requires Sound(s) && Strands(s, now, 1)
    ensures var s' := StoppedAfter(s, now, 1);
            && NothingAwaits(s') && s'.log == s.log != [] && !RaisesAtOnce(s') && s'.current == s.current
            && s' == s.(receipts := s'.receipts) && s'.current != Some(s'.log[|s'.log| - 1].envelope.result)
            && forall name :: name in s.receipts ==> name in s'.receipts
  {
    FirstWrite(s, now);
    OnlyReceiptWritten(s, StoppedAfter(s, now, 1));
  }

  lemma OnlyReceiptWritten(s: Store, s': Store)
    requires Recoverable(s) && LogMatches(s) && NeedsRecovery(s) && !RaisesAtOnce(s)
    requires s.current != Some(s.publication.value.result)
    requires s' == Apply(s, WriteReceipt(s.publication.value.result.id, s.publication.value.receipt))
    ensures NothingAwaits(s') && s'.log == s.log != [] && !RaisesAtOnce(s') && s'.current == s.current
    ensures s' == s.(receipts := s'.receipts) && s'.current != Some(s'.log[|s'.log| - 1].envelope.result)
    ensures forall name :: name in s.receipts ==> name in s'.receipts
  {
  }

  /** After a stop there, the next call starts its loop with the old pointer: its recovery sees the
      receipt and leaves the pointer alone. Only a file that is let through moves it. */
  lemma StrandedHolder(s: Store, now: Time, later: Time)
    requires Sound(s) && Strands(s, now, 1)
    ensures var s' := StoppedAfter(s, now, 1);
            && SameFacts(s', ApplyAll(s', RecoverySteps(s', later)))
            && s' == s.(receipts := s'.receipts)
            && s'.log != [] && s'.current != Some(s'.log[|s'.log| - 1].envelope.result)
            && (Finished(s', later).current == s'.current <==> !Advancing(s', s'.current, later))
  {
    StrandedCall(s, now);
    RecoveryIdle(StoppedAfter(s, now, 1), later);
    CallKeepsOrderIff(StoppedAfter(s, now, 1), later);
  }

  /** The next call publishes out of order if and only if the first file that the old pointer lets
      through overtakes it. */
  lemma StrandedBreaksOrder(s: Store, now: Time, later: Time)
    requires Sound(s) && Strands(s, now, 1)
    ensures var s' := StoppedAfter(s, now, 1);
            Chain(Published(Finished(s', later).log)) <==> !Overtaking(s', s'.current, later)
  {
    StrandedCall(s, now);
    CallKeepsOrderIff(StoppedAfter(s, now, 1), later);
  }

  // ----- whatever is delivered first

  /** The store when these files have arrived as well. */
  ghost function Receive(s: Store, more: map<Id, InboxFile>): Store {
    s.(inbox := s.inbox + more)
  }

  ghost predicate Arrives(s: Store, more: map<Id, InboxFile>) {
    && more.Keys !! s.inbox.Keys
    && forall name :: name in more && more[name].Verified? ==> more[name].result.Valid()
  }

  /** Whatever files arrive before it, the next call keeps the published order. */
  ghost predicate OrderSafe(s: Store, later: Time) {
    forall more :: Arrives(s, more) ==> Chain(Published(Finished(Receive(s, more), later).log))
  }

  /** A name that the next call reaches with the pointer as it is, and that holds a file which
      overtakes the pointer, or is still free for one. */
  ghost predicate Exposed(s: Store, name: Id, later: Time) {
    && QuietBefore(s, s.current, name, later)
    && (Overtaken(s, s.current, name, later)
        || (name !in s.inbox && name !in s.receipts && |s.inbox| < INBOX_BUDGET))
  }

  /** What reading and accepting the committed result established of it. */
  ghost predicate CommittedWasAccepted(s: Store) {
    s.publication.Some? ==>
      var result := s.publication.value.result;
      && result.inputId in s.inputs
      && var input := s.inputs[result.inputId].value;
         input.id == result.inputId && input.Valid() && input.generatedAt <= result.generatedAt
  }

  /** A result of the same moment on the same input as the committed one. */
  ghost function Twin(s: Store, name: Id): AnalysisResult
    requires s.publication.Some? && s.publication.value.result.inputId in s.inputs
  {
    var result := s.publication.value.result;
    NoViewResult(s.inputs[result.inputId].value, name, result.generatedAt)
  }

  ghost predicate TwinArrived(s: Store, name: Id, later: Time) {
    && s.publication.Some? && s.publication.value.result.inputId in s.inputs
    && name in s.inbox && name !in s.receipts && s.inbox[name] == Verified(Twin(s, name))
    && s.publication.value.result.generatedAt <= later + CLOCK_ALLOWANCE
  }

  lemma TwinAcceptable(s: Store, name: Id, later: Time)
    requires EvidenceKept(s) && CommittedWasAccepted(s) && TwinArrived(s, name, later)
    ensures Acceptable(s, s.current, name, later) && Twin(s, name).Valid()
    ensures var result := s.publication.value.result;
            && CandidateOf(s, name, later).result.generatedAt == result.generatedAt
            && CandidateOf(s, name, later).inputTime == s.inputs[result.inputId].value.generatedAt
  {
    var result := s.publication.value.result;
    NoViewResultAccepted(s.inputs[result.inputId].value, name, result.generatedAt, later);
  }

  /** Until the pointer is written, what it names precedes the committed result. */
  lemma BehindCommitted(s: Store)
    requires Recoverable(s) && LogMatches(s) && PointerKnown(s) && Chain(Published(s.log))
    requires NeedsRecovery(s) && s.current != Some(s.publication.value.result)
    ensures s.log != []
    ensures var result := s.publication.value.result;
            && result.inputId in s.inputs
            && var last := Candidate(result, s.inputs[result.inputId].value.generatedAt);
               Published(s.log)[|s.log| - 1] == last && PointerBefore(s, last)
  {
    if s.current.Some? {
      var i := |s.log| - 2;
      assert PointerAt(s, i);
      assert Precedes(Published(s.log)[i], Published(s.log)[i + 1]);
    }
  }

  ghost predicate PointerBefore(s: Store, last: Candidate) {
    s.current.Some? ==>
      && s.current.value.inputId in s.inputs
      && Precedes(Candidate(s.current.value, s.inputs[s.current.value.inputId].value.generatedAt), last)
  }

  lemma TwinOvertakes(s: Store, name: Id, later: Time)
    requires Sound(s) && CommittedWasAccepted(s) && NeedsRecovery(s) && TwinArrived(s, name, later)
    requires s.current != Some(s.publication.value.result)
    ensures Overtaken(s, s.current, name, later)
  {
    TwinAcceptable(s, name, later);
    BehindCommitted(s);
  }

  lemma ReceiveSound(s: Store, more: map<Id, InboxFile>)
    requires Sound(s) && more.Keys !! s.inbox.Keys
    ensures Sound(Receive(s, more))
  {
  }

  /** A call on a sound store keeps the order. */
  lemma SoundCallKeepsOrder(s: Store, now: Time)
    requires Sound(s)
    ensures Chain(Published(Finished(s, now).log))
  {
    if !RaisesAtOnce(s) {
      StoppedLate(s, now, |Accept(s, now).steps| + 2);
    }
  }

  lemma SoundIsSafe(s: Store, later: Time)
    requires Sound(s)
    ensures OrderSafe(s, later)
  {
    forall more | Arrives(s, more) ensures Chain(Published(Finished(Receive(s, more), later).log)) {
      ReceiveSound(s, more);
      SoundCallKeepsOrder(Receive(s, more), later);
    }
  }

  /** A file of the one store is the same file in the other. */
  lemma SameFileSameTurn(s: Store, s': Store, name: Id, later: Time)
    requires s'.inputs == s.inputs && s'.log == s.log && s'.receipts == s.receipts && s'.current == s.current
    requires name in s.inbox && name in s'.inbox && s'.inbox[name] == s.inbox[name]
    ensures Through(s', s.current, name, later) <==> Through(s, s.current, name, later)
    ensures Raises(s', name) <==> Raises(s, name)
    ensures Overtaken(s', s.current, name, later) <==> Overtaken(s, s.current, name, later)
  {
  }

  /** Fewer files before a name leave it as quiet as it was. */
  lemma QuietWithout(s: Store, more: map<Id, InboxFile>, name: Id, later: Time)
    requires more.Keys !! s.inbox.Keys && QuietBefore(Receive(s, more), s.current, name, later)
    ensures QuietBefore(s, s.current, name, later)
  {
    forall other | other in s.inbox && other < name
      ensures !Raises(s, other) && !Through(s, s.current, other, later)
    {
      SameFileSameTurn(s, Receive(s, more), other, later);
    }
  }

  lemma QuietWith(s: Store, name: Id, file: InboxFile, later: Time)
    requires name !in s.inbox && QuietBefore(s, s.current, name, later)
    ensures QuietBefore(Receive(s, map[name := file]), s.current, name, later)
  {
    var received := Receive(s, map[name := file]);
    forall other | other in received.inbox && other < name
      ensures !Raises(received, other) && !Through(received, s.current, other, later)
    {
      SameFileSameTurn(s, received, other, later);
    }
  }

  lemma MoreFiles(s: Store, more: map<Id, InboxFile>)
    requires more.Keys !! s.inbox.Keys
    ensures |Receive(s, more).inbox| == |s.inbox| + |more|
  {
    var all := (s.inbox + more).Keys;
    assert all == s.inbox.Keys + more.Keys;
    assert |all| == |s.inbox.Keys| + |more.Keys|;
    assert |s.inbox + more| == |all| && |s.inbox| == |s.inbox.Keys| && |more| == |more.Keys|;
  }

  /** What overtakes after the arrivals was exposed before them. */
  lemma ArrivalsExpose(s: Store, more: map<Id, InboxFile>, name: Id, later: Time)
    requires more.Keys !! s.inbox.Keys && |Receive(s, more).inbox| <= INBOX_BUDGET
    requires QuietBefore(Receive(s, more), s.current, name, later)
    requires Overtaken(Receive(s, more), s.current, name, later)
    ensures Exposed(s, name, later)
  {
    QuietWithout(s, more, name, later);
    if name in s.inbox {
      SameFileSameTurn(s, Receive(s, more), name, later);
    } else {
      MoreFiles(s, more);
      assert name in more && |more| > 0;
    }
  }

  /** A pointer left behind is harmless when no name is exposed. */
  lemma UnexposedIsSafe(s: Store, later: Time)
    requires NothingAwaits(s) && s.log != [] && Chain(Published(s.log))
    requires forall name :: !Exposed(s, name, later)
    ensures OrderSafe(s, later)
  {
    forall more | Arrives(s, more) ensures Chain(Published(Finished(Receive(s, more), later).log)) {
      var received := Receive(s, more);
      if !RaisesAtOnce(received) {
        CallKeepsOrderIff(received, later);
        if name :| QuietBefore(received, received.current, name, later)
                   && Overtaken(received, received.current, name, later) {
          ArrivalsExpose(s, more, name, later);
          assert false;
        }
      }
    }
  }

  lemma TwinArrives(s: Store, name: Id, later: Time)
    requires s.publication.Some? && s.publication.value.result.inputId in s.inputs
    requires name !in s.receipts && s.publication.value.result.generatedAt <= later + CLOCK_ALLOWANCE
    ensures var s' := Receive(s, map[name := Verified(Twin(s, name))]);
            TwinArrived(s', name, later) && Twin(s', name) == Twin(s, name)
  {
  }

  lemma DeliveredTwinOvertakes(s: Store, name: Id, later: Time)
    requires Sound(s) && CommittedWasAccepted(s)
    requires NeedsRecovery(s) && s.current != Some(s.publication.value.result)
    requires name !in s.inbox && name !in s.receipts
    requires s.publication.value.result.generatedAt <= later + CLOCK_ALLOWANCE
    ensures Overtaken(Receive(s, map[name := Verified(Twin(s, name))]), s.current, name, later)
    ensures Twin(s, name).Valid()
  {
    var more := map[name := Verified(Twin(s, name))];
    ReceiveSound(s, more);
    TwinArrives(s, name, later);
    TwinAcceptable(Receive(s, more), name, later);
    TwinOvertakes(Receive(s, more), name, later);
  }

  /** Receipts of other names do not matter. */
  lemma OvertakenAnyway(s: Store, s': Store, previous: Option<AnalysisResult>, name: Id, now: Time)
    requires Overtaken(s, previous, name, now) && name !in s'.receipts
    requires s'.inputs == s.inputs && s'.inbox == s.inbox && s'.log == s.log
    ensures Overtaken(s', previous, name, now)
  {
  }

  lemma OvertakingIsUnsafe(s: Store, more: map<Id, InboxFile>, name: Id, later: Time)
    requires NothingAwaits(s) && s.log != [] && Chain(Published(s.log))
    requires Arrives(s, more) && !RaisesAtOnce(Receive(s, more))
    requires QuietBefore(Receive(s, more), s.current, name, later)
    requires Overtaken(Receive(s, more), s.current, name, later)
    ensures !OrderSafe(s, later)
  {
    CallKeepsOrderIff(Receive(s, more), later);
    assert Overtaking(Receive(s, more), s.current, later);
  }

  lemma PresentIsUnsafe(s: Store, name: Id, later: Time)
    requires NothingAwaits(s) && s.log != [] && Chain(Published(s.log)) && !RaisesAtOnce(s)
    requires QuietBefore(s, s.current, name, later) && Overtaken(s, s.current, name, later)
    ensures !OrderSafe(s, later)
  {
    var none: map<Id, InboxFile> := map[];
    assert Receive(s, none) == s;
    OvertakingIsUnsafe(s, none, name, later);
  }

  lemma RoomForOne(s: Store, name: Id, file: InboxFile)
    requires name !in s.inbox && |s.inbox| < INBOX_BUDGET && !RaisesAtOnce(s)
    ensures !RaisesAtOnce(Receive(s, map[name := file]))
  {
    MoreFiles(s, map[name := file]);
  }

  lemma FreeNameIsUnsafe(s: Store, name: Id, file: InboxFile, later: Time)
    requires NothingAwaits(s) && s.log != [] && Chain(Published(s.log)) && !RaisesAtOnce(s)
    requires QuietBefore(s, s.current, name, later) && name !in s.inbox && |s.inbox| < INBOX_BUDGET
    requires file.Verified? ==> file.result.Valid()
    requires Overtaken(Receive(s, map[name := file]), s.current, name, later)
    ensures !OrderSafe(s, later)
  {
    RoomForOne(s, name, file);
    QuietWith(s, name, file, later);
    OvertakingIsUnsafe(s, map[name := file], name, later);
  }

  /** At an exposed name the order breaks: with the file that is there, or with a twin of the
      committed result. */
  lemma ExposedIsUnsafe(s: Store, now: Time, name: Id, later: Time)
    requires Sound(s) && CommittedWasAccepted(s) && Strands(s, now, 1)
    requires s.publication.value.result.generatedAt <= later + CLOCK_ALLOWANCE
    requires Exposed(StoppedAfter(s, now, 1), name, later)
    ensures !OrderSafe(StoppedAfter(s, now, 1), later)
  {
    var s' := StoppedAfter(s, now, 1);
    StrandedCall(s, now);
    if Overtaken(s', s'.current, name, later) {
      PresentIsUnsafe(s', name, later);
    } else {
      TwinForName(s, s', name, later);
      FreeNameIsUnsafe(s', name, Verified(Twin(s, name)), later);
    }
  }

  lemma TwinForName(s: Store, s': Store, name: Id, later: Time)
    requires Sound(s) && CommittedWasAccepted(s)
    requires NeedsRecovery(s) && s.current != Some(s.publication.value.result)
    requires s' == s.(receipts := s'.receipts) && name !in s'.inbox && name !in s'.receipts && name !in s.receipts
    requires s.publication.value.result.generatedAt <= later + CLOCK_ALLOWANCE
    ensures Overtaken(Receive(s', map[name := Verified(Twin(s, name))]), s'.current, name, later)
    ensures Twin(s, name).Valid()
  {
    DeliveredTwinOvertakes(s, name, later);
    OvertakenElsewhere(s, s', Verified(Twin(s, name)), name, later);
  }

  lemma OvertakenElsewhere(s: Store, s': Store, file: InboxFile, name: Id, later: Time)
    requires s' == s.(receipts := s'.receipts) && name !in s'.receipts
    requires Overtaken(Receive(s, map[name := file]), s.current, name, later)
    ensures Overtaken(Receive(s', map[name := file]), s'.current, name, later)
  {
    OvertakenAnyway(Receive(s, map[name := file]), Receive(s', map[name := file]), s.current, name, later);
  }

  /** Wherever a call stops: whatever files arrive, the next call keeps the published order, if and
      only if the stop was not at the stranding point or no name is exposed there. */
  lemma OrderSafeIff(s: Store, now: Time, k: nat, later: Time)
    requires Sound(s) && CommittedWasAccepted(s)
    requires s.publication.Some? ==> s.publication.value.result.generatedAt <= later + CLOCK_ALLOWANCE
    ensures OrderSafe(StoppedAfter(s, now, k), later)
            <==> !(Strands(s, now, k) && exists name :: Exposed(StoppedAfter(s, now, k), name, later))
  {
    var s' := StoppedAfter(s, now, k);
    if Strands(s, now, k) {
      if name :| Exposed(s', name, later) {
        ExposedIsUnsafe(s, now, name, later);
      } else {
        StrandedCall(s, now);
        UnexposedIsSafe(s', later);
      }
    } else {
      CrashSafeIff(s, now, k);
      SoundIsSafe(s', later);
    }
  }

  // ----- every reachable directory

  ghost predicate InputsNamed(s: Store) {
    forall id :: id in s.inputs ==> s.inputs[id].value.id == id && s.inputs[id].value.Valid()
  }

  /** Every publication is dated between its input and the clock, but for the allowance. */
  ghost predicate Dated(log: seq<Publication>, until: Time) {
    forall i :: 0 <= i < |log| ==>
      log[i].inputTime <= log[i].envelope.result.generatedAt <= until + CLOCK_ALLOWANCE
  }

  predicate DatedCommits(steps: seq<Step>, until: Time) {
    forall i :: 0 <= i < |steps| && steps[i].Commit? ==>
      steps[i].inputTime <= steps[i].envelope.result.generatedAt <= until + CLOCK_ALLOWANCE
  }

  lemma StepDated(s: Store, step: Step, until: Time)
    requires Dated(s.log, until) && DatedCommits([step], until)
    ensures Dated(Apply(s, step).log, until)
  {
    assert step.Commit? ==> [step][0].Commit?;
  }

  lemma {:induction false} StepsDated(s: Store, steps: seq<Step>, until: Time)
    requires Dated(s.log, until) && DatedCommits(steps, until)
    ensures Dated(ApplyAll(s, steps).log, until)
    decreases |steps|
  {
    if steps != [] {
      assert [steps[0]][0] == steps[0];
      StepDated(s, steps[0], until);
      StepsDated(Apply(s, steps[0]), steps[1..], until);
    }
  }

  lemma NoCommitDated(steps: seq<Step>, until: Time)
    requires NoCommit(steps)
    ensures DatedCommits(steps, until)
  {
  }

  lemma DatedConcat(a: seq<Step>, b: seq<Step>, until: Time)
    requires DatedCommits(a, until) && DatedCommits(b, until)
    ensures DatedCommits(a + b, until)
  {
  }

  lemma FileDated(s: Store, previous: Option<AnalysisResult>, name: Id, now: Time, until: Time)
    requires now <= until
    ensures DatedCommits(ProcessFile(s, previous, name, now).steps, until)
  {
    if Through(s, previous, name, now) {
      var c := CandidateOf(s, name, now);
      AcceptableRun(s, previous, name, now);
      DetailsOnly(s.details.Keys, c.result.advice, Receipt(name, c.result.inputId, now, Some(now)), now);
    } else {
      FileMoves(s, previous, name, now);
    }
  }

  lemma {:induction false} LoopDated(
    s: Store, previous: Option<AnalysisResult>, names: seq<Id>, now: Time, until: Time)
    requires now <= until
    ensures DatedCommits(AcceptLoop(s, previous, names, now).steps, until)
    decreases |names|
  {
    if names != [] {
      var first := ProcessFile(s, previous, names[0], now);
      FileDated(s, previous, names[0], now, until);
      if !first.raised {
        LoopDated(ApplyAll(s, first.steps), first.previous, names[1..], now, until);
      }
    }
  }

  lemma {:induction false} DetailsOnly(existing: set<Id>, advice: seq<Advice>, receipt: Receipt, now: Time)
    ensures NoCommit(DetailSteps(existing, advice, receipt, now))
    decreases |advice|
  {
    if advice != [] {
      DetailsOnly(existing, advice[1..], receipt, now);
      DetailsOnly(existing + {advice[0].id}, advice[1..], receipt, now);
    }
  }

  lemma RecoveryDated(s: Store, now: Time, until: Time)
    ensures DatedCommits(RecoverySteps(s, now), until)
  {
    if s.publication.Some? {
      DetailsOnly(s.details.Keys, s.publication.value.result.advice, s.publication.value.receipt, now);
    }
  }

  lemma OpeningDated(s: Store, now: Time, until: Time)
    requires now <= until
    ensures DatedCommits(RecoverySteps(s, now) + LoopOf(s, now).steps, until)
  {
    var recovered := ApplyAll(s, RecoverySteps(s, now));
    RecoveryDated(s, now, until);
    LoopDated(recovered, recovered.current, SortedIds(s.inbox.Keys), now, until);
    DatedConcat(RecoverySteps(s, now), LoopOf(s, now).steps, until);
  }

  lemma ClosingDated(s: Store, status: AcceptStatus, until: Time)
    ensures DatedCommits(ClosingSteps(s, status).steps, until)
  {
    ReportsDated(status, PublicationsOf(s), until);
  }

  lemma ReportsDated(status: AcceptStatus, list: seq<Receipt>, until: Time)
    ensures DatedCommits([WriteAcceptStatus(status)], until)
    ensures DatedCommits([WriteAcceptStatus(status), WritePublicationList(list)], until)
  {
  }

  lemma CallDated(s: Store, now: Time, until: Time)
    requires now <= until
    ensures DatedCommits(Accept(s, now).steps, until)
  {
    var loop := LoopOf(s, now);
    OpeningDated(s, now, until);
    if !RaisesAtOnce(s) && !loop.raised {
      var status := AcceptStatus(now, loop.accepted, loop.rejected);
      ClosingDated(AfterLoop(s, now), status, until);
      DatedConcat(RecoverySteps(s, now) + loop.steps, ClosingSteps(AfterLoop(s, now), status).steps, until);
    }
  }

  lemma StoppedDated(s: Store, steps: seq<Step>, k: nat, until: Time)
    requires Dated(s.log, until) && DatedCommits(steps, until)
    ensures Dated(Stopped(s, steps, k).log, until)
  {
    StepsDated(s, if k <= |steps| then steps[..k] else steps, until);
  }

  /** The inputs of the job are valid, and it was made by then. */
  ghost predicate MadeBy(job: Job, until: Time) {
    (job.PublishInput? ==> job.input.Valid()) && (job.AcceptResults? ==> job.now <= until)
  }

  lemma JobDated(s: Store, job: Job, until: Time)
    requires Dated(s.log, until) && MadeBy(job, until)
    ensures Dated(After(s, job).log, until)
  {
    match job {
      case PublishInput(input, now, done) =>
        NoCommitDated(InputSteps(s, input, now), until);
        StoppedDated(s, InputSteps(s, input, now), done, until);
      case ReceiveFile(name, file) =>
        NoCommitDated([Deliver(name, file)], until);
        StoppedDated(s, [Deliver(name, file)], 1, until);
      case AcceptResults(now, done) =>
        CallDated(s, now, until);
        StoppedDated(s, Accept(s, now).steps, done, until);
      case PruneAcknowledged(ack, now, days, done) =>
        if MayPrune(s, ack, now, days) {
          PruneThins(s, ack, now, days, done);
        }
    }
  }

  lemma JobInputsNamed(s: Store, job: Job, until: Time)
    requires Sound(s) && Admissible(s, job) && InputsNamed(s) && MadeBy(job, until)
    ensures InputsNamed(After(s, job))
  {
    match job {
      case PublishInput(input, now, done) => PublishInputNamed(s, input, now, done);
      case ReceiveFile(name, file) => ApplyOne(s, [Deliver(name, file)]);
      case AcceptResults(now, done) => CrashSafeIff(s, now, done);
      case PruneAcknowledged(ack, now, days, done) =>
        if MayPrune(s, ack, now, days) {
          PruneThins(s, ack, now, days, done);
          ThinnedNamed(s, After(s, job), ack.value.entries, PolicyOf(s, ack.value, now, days));
        }
    }
  }

  predicate StoresValid(step: Step) {
    step.WriteInput? ==> step.input.Valid()
  }

  lemma StepNamed(s: Store, step: Step)
    requires InputsNamed(s) && StoresValid(step)
    ensures InputsNamed(Apply(s, step))
  {
  }

  lemma {:induction false} StepsNamed(s: Store, steps: seq<Step>)
    requires InputsNamed(s) && forall i :: 0 <= i < |steps| ==> StoresValid(steps[i])
    ensures InputsNamed(ApplyAll(s, steps))
    decreases |steps|
  {
    if steps != [] {
      StepNamed(s, steps[0]);
      StepsNamed(Apply(s, steps[0]), steps[1..]);
    }
  }

  lemma PublishInputNamed(s: Store, input: InputSnapshot, now: Time, done: nat)
    requires InputsNamed(s) && input.Valid()
    ensures InputsNamed(Stopped(s, InputSteps(s, input, now), done))
  {
    var steps := InputSteps(s, input, now);
    StepsNamed(s, if done <= |steps| then steps[..done] else steps);
  }

  lemma ThinnedNamed(s: Store, s': Store, entries: seq<AckEntry>, policy: Policy)
    requires InputsNamed(s) && Thinned(s, s', entries, policy)
    ensures InputsNamed(s')
  {
    forall id | id in s'.inputs ensures id in s.inputs && s'.inputs[id] == s.inputs[id] {
      assert Lookup(s', InputName(id)) == Lookup(s, InputName(id));
    }
  }

  lemma {:induction false} RunAccepted(s: Store, jobs: seq<Job>, archive: map<Name, Content>, until: Time)
    requires Everything(s) && AllFair(s, jobs, archive) && forall i :: 0 <= i < |jobs| ==> MadeBy(jobs[i], until)
    requires InputsNamed(s) && Dated(s.log, until)
    ensures InputsNamed(Run(s, jobs)) && Dated(Run(s, jobs).log, until)
    decreases |jobs|
  {
    if jobs != [] {
      JobSound(s, jobs[0]);
      JobKeepsInbox(s, jobs[0], archive);
      JobInputsNamed(s, jobs[0], until);
      JobDated(s, jobs[0], until);
      RunAccepted(After(s, jobs[0]), jobs[1..], archive, until);
    }
  }

  lemma AcceptedFromDates(s: Store, until: Time)
    requires LogMatches(s) && InputsNamed(s) && Dated(s.log, until)
    ensures CommittedWasAccepted(s)
    ensures s.publication.Some? ==> s.publication.value.result.generatedAt <= until + CLOCK_ALLOWANCE
  {
  }

  /** Over every run of publishing, receiving, accepting and pruning from the empty directory: an
      accept call may be stopped anywhere, and whatever files then arrive the next call keeps the
      published order, if and only if the stop was not at the stranding point or no name is exposed
      there. */
  lemma ReachableOrderSafeIff(jobs: seq<Job>, archive: map<Name, Content>, now: Time, k: nat, later: Time)
    requires AllFair(EMPTY, jobs, archive) && forall i :: 0 <= i < |jobs| ==> MadeBy(jobs[i], later)
    ensures var s := Run(EMPTY, jobs);
            OrderSafe(StoppedAfter(s, now, k), later)
            <==> !(Strands(s, now, k) && exists name :: Exposed(StoppedAfter(s, now, k), name, later))
  {
    var s := Run(EMPTY, jobs);
    StartsSound();
    EvidenceClosure.EvidenceClosure(EMPTY, jobs, archive);
    RunAccepted(EMPTY, jobs, archive, later);
    AcceptedFromDates(s, later);
    OrderSafeIff(s, now, k, later);
  }

  // ----- the window is reachable

  const NOTHING := InputSnapshot(9, 0, "commit", [], [], [])

  /** What a worker answers to an input without bars and costs. */
  ghost function Answer(id: Id, at: Time): AnalysisResult {
    NoViewResult(NOTHING, id, at)
  }

  /** Result 1 is current, result 2 was just committed when the call died, result 3 is between. */
  ghost function DeadStore(one: AnalysisResult, two: AnalysisResult, three: AnalysisResult): Store {
    var first, second := Receipt(1, 9, 10, Some(10)), Receipt(2, 9, 30, Some(30));
    Store(
      map[9 := Aged(NOTHING, 0)], map[2 := Verified(two), 3 := Verified(three)],
      map[1 := Aged(one, 10), 2 := Aged(two, 30)], map[1 := first], map[], map[], Some(NOTHING),
      Some(one), Some(Envelope(two, second)), None, [],
      [Publication(Envelope(one, first), 0), Publication(Envelope(two, second), 0)])
  }

  ghost function DeadAfterCommit(): Store {
    DeadStore(Answer(1, 10), Answer(2, 30), Answer(3, 20))
  }

  lemma AnswersValid()
    ensures NOTHING.Valid() && Answer(1, 10).Valid() && Answer(2, 30).Valid() && Answer(3, 20).Valid()
  {
    NoViewResultAccepted(NOTHING, 1, 10, 50);
    NoViewResultAccepted(NOTHING, 2, 30, 50);
    NoViewResultAccepted(NOTHING, 3, 20, 50);
  }

  lemma DeadStoreOrder(one: AnalysisResult, two: AnalysisResult, three: AnalysisResult)
    requires one.inputId == two.inputId == 9 && one.generatedAt < two.generatedAt
    ensures Chain(Published(DeadStore(one, two, three).log)) && PointerKnown(DeadStore(one, two, three))
  {
    var s := DeadStore(one, two, three);
    assert Published(s.log) == [Candidate(one, 0), Candidate(two, 0)];
    assert PointerAt(s, |s.log| - 2);
  }

  lemma DeadStoreSound(one: AnalysisResult, two: AnalysisResult, three: AnalysisResult)
    requires one.id == 1 && two.id == 2 && one.inputId == two.inputId == 9 && one.generatedAt < two.generatedAt
    ensures Sound(DeadStore(one, two, three))
  {
    var s := DeadStore(one, two, three);
    DeadStoreOrder(one, two, three);
    assert s.log[0].envelope.receipt == s.receipts[1];
  }

  lemma DeadStoreStrands(one: AnalysisResult, two: AnalysisResult, three: AnalysisResult)
    requires two.id == 2 && one != two
    ensures Strands(DeadStore(one, two, three), 40, 1)
  {
    var s := DeadStore(one, two, three);
    assert s.inbox.Keys == {2, 3};
    assert |s.inbox| == |s.inbox.Keys|;
  }

  lemma DeadAfterCommitIsSound()
    ensures Sound(DeadAfterCommit()) && Strands(DeadAfterCommit(), 40, 1)
  {
    DeadStoreSound(Answer(1, 10), Answer(2, 30), Answer(3, 20));
    DeadStoreStrands(Answer(1, 10), Answer(2, 30), Answer(3, 20));
  }

  ghost function StrandedExample(): Store {
    Apply(DeadAfterCommit(), WriteReceipt(2, Receipt(2, 9, 30, Some(30))))
  }

  lemma ResultThreeAcceptable(s: Store)
    requires 9 in s.inputs && s.inputs[9] == Aged(NOTHING, 0)
    requires 3 in s.inbox && 3 !in s.receipts && s.inbox[3] == Verified(Answer(3, 20))
    ensures Acceptable(s, Some(Answer(1, 10)), 3, 50) && CandidateOf(s, 3, 50) == Candidate(Answer(3, 20), 0)
    ensures LetThrough(s, Some(Answer(1, 10)), Candidate(Answer(3, 20), 0))
  {
    NoViewResultAccepted(NOTHING, 3, 20, 50);
  }

  lemma StrandedFacts()
    ensures var s := StrandedExample();
            && 9 in s.inputs && s.inputs[9] == Aged(NOTHING, 0)
            && 3 in s.inbox && 3 !in s.receipts && s.inbox[3] == Verified(Answer(3, 20))
            && |s.log| == 2 && Published(s.log)[1] == Candidate(Answer(2, 30), 0)
  {
  }

  lemma ResultThreeOvertakes()
    ensures Overtaken(StrandedExample(), Some(Answer(1, 10)), 3, 50)
  {
    StrandedFacts();
    ResultThreeAcceptable(StrandedExample());
  }

  lemma StoppedThere()
    ensures StoppedAfter(DeadAfterCommit(), 40, 1) == StrandedExample()
  {
    DeadAfterCommitIsSound();
    FirstWrite(DeadAfterCommit(), 40);
  }

  /** The stranding point is reachable from a sound store; result 3 overtakes the pointer, and the
      next call publishes it after result 2. */
  lemma StrandingExample()
    ensures NOTHING.Valid() && Answer(1, 10).Valid() && Answer(2, 30).Valid() && Answer(3, 20).Valid()
    ensures Sound(DeadAfterCommit()) && CommittedWasAccepted(DeadAfterCommit()) && Strands(DeadAfterCommit(), 40, 1)
    ensures Overtaken(StoppedAfter(DeadAfterCommit(), 40, 1), Some(Answer(1, 10)), 3, 50)
    ensures !Chain(Published(Finished(StoppedAfter(DeadAfterCommit(), 40, 1), 50).log))
  {
    AnswersValid();
    DeadAfterCommitIsSound();
    ResultThreeOvertakes();
    StoppedThere();
    ExampleBreaksOrder();
  }

  lemma ExampleBreaksOrder()
    ensures !Chain(Published(Finished(StoppedAfter(DeadAfterCommit(), 40, 1), 50).log))
  {
    DeadAfterCommitIsSound();
    StrandedBreaksOrder(DeadAfterCommit(), 40, 50);
    assert Overtaking(StoppedAfter(DeadAfterCommit(), 40, 1), Some(Answer(1, 10)), 50) by {
      StoppedThere();
      ResultThreeOvertakes();
      OnlyADuplicateBefore();
    }
    PointerStays(DeadAfterCommit(), 40, Some(Answer(1, 10)));
  }

  lemma PointerStays(s: Store, now: Time, held: Option<AnalysisResult>)
    requires Sound(s) && Strands(s, now, 1) && s.current == held
    ensures StoppedAfter(s, now, 1).current == held
  {
    StrandedCall(s, now);
  }

  lemma OnlyADuplicateBefore()
    ensures QuietBefore(StrandedExample(), Some(Answer(1, 10)), 3, 50)
  {
    var s := StrandedExample();
    assert s.inbox.Keys == {2, 3} && 2 in s.receipts;
    assert s.inbox[2] == Verified(Answer(2, 30)) && Answer(2, 30).id == 2;
  }
}
