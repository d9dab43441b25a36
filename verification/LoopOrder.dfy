/** The advance rule of the accept loop against the publication log: what one file and a whole loop
    do to the published order, whatever result the loop starts with. */
module LoopOrder {
  import opened Contracts
  import opened Store
  import opened Acceptance
  import opened Pipeline
  import opened CrashTransparency

  /** A file that reaches the advance rule: no receipt, no problem, and the input of the held
      result is there. */
  ghost predicate Acceptable(s: Store, previous: Option<AnalysisResult>, name: Id, now: Time) {
    && name in s.inbox && name !in s.receipts
    && FileProblem(name, s.inbox[name], s.inputs, now).None?
    && (previous.Some? ==> previous.value.inputId in s.inputs)
  }

  ghost function CandidateOf(s: Store, name: Id, now: Time): Candidate
    requires Acceptable(s, None, name, now)
  {
    Candidate(s.inbox[name].result, s.inputs[s.inbox[name].result.inputId].value.generatedAt)
  }

  ghost predicate LetThrough(s: Store, previous: Option<AnalysisResult>, c: Candidate)
    requires previous.Some? ==> previous.value.inputId in s.inputs
  {
    Advances(previous, if previous.Some? then s.inputs[previous.value.inputId].value.generatedAt else 0,
             c.result, c.inputTime)
  }

  /** The held result lets the file through, though it does not follow the publication last. With
      no held result, every file gets through. */
  ghost predicate Overtaken(s: Store, previous: Option<AnalysisResult>, name: Id, now: Time) {
    && s.log != [] && Acceptable(s, previous, name, now)
    && LetThrough(s, previous, CandidateOf(s, name, now))
    && !Precedes(Published(s.log)[|s.log| - 1], CandidateOf(s, name, now))
  }

  lemma AcceptableRun(s: Store, previous: Option<AnalysisResult>, name: Id, now: Time)
    requires Acceptable(s, previous, name, now)
    ensures var c := CandidateOf(s, name, now);
            var through := LetThrough(s, previous, c);
            var receipt := Receipt(name, c.result.inputId, now, if through then Some(now) else None);
            && c.result.id == name
            && ProcessFile(s, previous, name, now) == Stretch(
              [WriteResult(name, c.result, now)]
              + ((if through then PublishSteps(s, c.result, receipt, c.inputTime, now) else [])
                 + [WriteReceipt(name, receipt), RemoveInbox(name)]),
              if through then Some(c.result) else previous, [name], [], false)
  {
  }

  /** What one acceptable file adds to the log. */
  lemma AcceptableLog(s: Store, previous: Option<AnalysisResult>, name: Id, now: Time)
    requires Acceptable(s, previous, name, now)
    ensures var c := CandidateOf(s, name, now);
            var s' := ApplyAll(s, ProcessFile(s, previous, name, now).steps);
            && s'.inputs == s.inputs
            && Published(s'.log) == Published(s.log) + (if LetThrough(s, previous, c) then [c] else [])
  {
    var c := CandidateOf(s, name, now);
    var through := LetThrough(s, previous, c);
    var receipt := Receipt(name, c.result.inputId, now, if through then Some(now) else None);
    var published := if through then PublishSteps(s, c.result, receipt, c.inputTime, now) else [];
    AcceptableRun(s, previous, name, now);
    CandidateSteps(s, c, receipt, now);
    PublishedAfter(s, c, receipt);
    assert [WriteResult(name, c.result, now)] + (published + [WriteReceipt(name, receipt), RemoveInbox(name)])
        == [WriteResult(name, c.result, now)] + published + [WriteReceipt(name, receipt), RemoveInbox(name)];
  }

  lemma ExtendedChainIff(published: seq<Candidate>, c: Candidate)
    requires published != [] && Chain(published)
    ensures Chain(published + [c]) <==> Precedes(published[|published| - 1], c)
  {
    if Precedes(published[|published| - 1], c) {
      ChainExtended(published, c);
    } else {
      NotAfterLast(published, c);
    }
  }

  /** Whatever the call holds: an acceptable file keeps the order of what is published if and
      only if it does not overtake the held result. */
  lemma OrderKeptIff(s: Store, previous: Option<AnalysisResult>, name: Id, now: Time)
    requires s.log != [] && Chain(Published(s.log)) && Acceptable(s, previous, name, now)
    ensures Chain(Published(ApplyAll(s, ProcessFile(s, previous, name, now).steps).log))
            <==> !Overtaken(s, previous, name, now)
  {
    var published, c := Published(s.log), CandidateOf(s, name, now);
    AcceptableLog(s, previous, name, now);
    ExtendedChainIff(published, c);
    assert published + [] == published;
  }

  /** A file that overtakes the holder is published, and the published times stop increasing. */
  lemma StaleHolderBreaksOrder(s: Store, previous: Option<AnalysisResult>, name: Id, now: Time)
    requires Overtaken(s, previous, name, now)
    ensures var s' := ApplyAll(s, ProcessFile(s, previous, name, now).steps);
            && Published(s'.log) == Published(s.log) + [CandidateOf(s, name, now)]
            && !Chain(Published(s'.log))
  {
    AcceptableLog(s, previous, name, now);
    NotAfterLast(Published(s.log), CandidateOf(s, name, now));
  }

  lemma NotAfterLast(published: seq<Candidate>, c: Candidate)
    requires published != [] && !Precedes(published[|published| - 1], c)
    ensures !Chain(published + [c])
  {
    var longer := published + [c];
    assert !Precedes(longer[|published| - 1], longer[|published|]);
  }

  // ----- which steps publish

  predicate NoCommit(steps: seq<Step>) {
    forall i :: 0 <= i < |steps| ==> !steps[i].Commit?
  }

  lemma OneLogUnchanged(s: Store, step: Step)
    requires !step.Commit?
    ensures Apply(s, step).log == s.log
  {
  }

  lemma {:induction false} LogUnchanged(s: Store, steps: seq<Step>)
    requires NoCommit(steps)
    ensures ApplyAll(s, steps).log == s.log
    decreases |steps|
  {
    if steps != [] {
      OneLogUnchanged(s, steps[0]);
      LogUnchanged(Apply(s, steps[0]), steps[1..]);
    }
  }

  lemma NoCommitHead(steps: seq<Step>)
    requires steps != []
    ensures NoCommit(steps) <==> !steps[0].Commit? && NoCommit(steps[1..])
  {
    assert forall i :: 0 <= i < |steps| - 1 ==> steps[1..][i] == steps[i + 1];
    if !steps[0].Commit? && NoCommit(steps[1..]) {
      forall i | 0 <= i < |steps| ensures !steps[i].Commit? {
        assert i > 0 ==> !steps[1..][i - 1].Commit?;
      }
    }
  }

  lemma NoCommitConcat(a: seq<Step>, b: seq<Step>)
    ensures NoCommit(a + b) <==> NoCommit(a) && NoCommit(b)
  {
    assert forall i :: 0 <= i < |a| ==> (a + b)[i] == a[i];
    assert forall i :: 0 <= i < |b| ==> (a + b)[|a| + i] == b[i];
  }

  ghost predicate Distinct(names: seq<Id>) {
    forall i, j :: 0 <= i < j < |names| ==> names[i] != names[j]
  }

  ghost predicate InputOf(s: Store, c: Candidate) {
    c.result.inputId in s.inputs && s.inputs[c.result.inputId].value.generatedAt == c.inputTime
  }

  lemma CommitShows(steps: seq<Step>, i: nat)
    requires i < |steps| && steps[i].Commit?
    ensures !NoCommit(steps)
  {
  }

  lemma LogUnlessAcceptable(s: Store, previous: Option<AnalysisResult>, name: Id, now: Time)
    requires !Acceptable(s, previous, name, now)
    ensures ApplyAll(s, ProcessFile(s, previous, name, now).steps).log == s.log
  {
    LogUnchanged(s, ProcessFile(s, previous, name, now).steps);
  }

  // ----- other names

  /** The step leaves the inbox entry and the receipt of this name alone and does not publish it. */
  predicate ForeignTo(step: Step, id: Id) {
    match step
    case Commit(envelope, _) => envelope.result.id != id
    case WriteReceipt(name, _) => name != id
    case RemoveInbox(name) => name != id
    case RemoveReceipt(_) => false
    case Deliver(_, _) => false
    case WriteInput(_, _) => false
    case RemoveInput(_) => false
    case _ => true
  }

  predicate Foreign(steps: seq<Step>, id: Id) {
    forall i :: 0 <= i < |steps| ==> ForeignTo(steps[i], id)
  }

  /** Nothing about this name has changed, and the log has only grown. */
  ghost predicate Untouched(s: Store, s': Store, id: Id) {
    && s'.inputs == s.inputs
    && (id in s'.inbox <==> id in s.inbox) && (id in s.inbox ==> s'.inbox[id] == s.inbox[id])
    && (id in s'.receipts <==> id in s.receipts)
    && s.log <= s'.log
  }

  lemma ForeignStep(s: Store, step: Step, id: Id)
    requires ForeignTo(step, id)
    ensures var s' := Apply(s, step);
            && Untouched(s, s', id)
            && (if !step.Commit? then s'.publication == s.publication && s'.log == s.log
                else s'.publication.Some? && s'.publication.value.result.id != id && |s'.log| > |s.log|)
  {
  }

  lemma {:induction false} ForeignSteps(s: Store, steps: seq<Step>, id: Id)
    requires Foreign(steps, id)
    ensures var s' := ApplyAll(s, steps);
            && Untouched(s, s', id)
            && (if NoCommit(steps) then s'.publication == s.publication && s'.log == s.log
                else s'.publication.Some? && s'.publication.value.result.id != id && |s'.log| > |s.log|)
    decreases |steps|
  {
    if steps != [] {
      var s1 := Apply(s, steps[0]);
      ForeignStep(s, steps[0], id);
      ForeignSteps(s1, steps[1..], id);
      NoCommitHead(steps);
    }
  }

  lemma {:induction false} DetailsForeign(existing: set<Id>, advice: seq<Advice>, receipt: Receipt, now: Time, id: Id)
    ensures Foreign(DetailSteps(existing, advice, receipt, now), id)
    decreases |advice|
  {
    if advice != [] {
      DetailsForeign(existing, advice[1..], receipt, now, id);
      DetailsForeign(existing + {advice[0].id}, advice[1..], receipt, now, id);
    }
  }

  lemma FileForeign(s: Store, previous: Option<AnalysisResult>, name: Id, now: Time, id: Id)
    requires name != id
    ensures Foreign(ProcessFile(s, previous, name, now).steps, id)
  {
    if Acceptable(s, previous, name, now) {
      var c := CandidateOf(s, name, now);
      AcceptableRun(s, previous, name, now);
      DetailsForeign(s.details.Keys, c.result.advice, Receipt(name, c.result.inputId, now, Some(now)), now, id);
    }
  }

  lemma ForeignConcat(a: seq<Step>, b: seq<Step>, id: Id)
    requires Foreign(a, id) && Foreign(b, id)
    ensures Foreign(a + b, id)
  {
  }

  lemma {:induction false} LoopForeign(s: Store, previous: Option<AnalysisResult>, names: seq<Id>, now: Time, id: Id)
    requires id !in names
    ensures Foreign(AcceptLoop(s, previous, names, now).steps, id)
    decreases |names|
  {
    if names != [] {
      var first := ProcessFile(s, previous, names[0], now);
      FileForeign(s, previous, names[0], now, id);
      if !first.raised {
        var rest := AcceptLoop(ApplyAll(s, first.steps), first.previous, names[1..], now);
        LoopForeign(ApplyAll(s, first.steps), first.previous, names[1..], now, id);
        ForeignConcat(first.steps, rest.steps, id);
      }
    }
  }

  lemma OthersUntouched(s: Store, steps: seq<Step>, names: seq<Id>, previous: Option<AnalysisResult>, now: Time)
    requires names != [] && Distinct(names) && steps == ProcessFile(s, previous, names[0], now).steps
    ensures ApplyAll(s, steps).inputs == s.inputs
    ensures forall j :: 1 <= j < |names| ==> Untouched(s, ApplyAll(s, steps), names[j])
  {
    forall id | id != names[0] ensures Untouched(s, ApplyAll(s, steps), id) {
      FileForeign(s, previous, names[0], now, id);
      ForeignSteps(s, steps, id);
    }
    assert Untouched(s, ApplyAll(s, steps), names[0] + 1);
  }

  /** An acknowledged name whose file does not read back ends the call. */
  predicate Raises(s: Store, name: Id) {
    name in s.receipts && (name !in s.inbox || !s.inbox[name].Verified? || s.inbox[name].result.id != name)
  }

  // ----- one file, whatever is held

  /** The file is acceptable and the held result lets it through. */
  ghost predicate Through(s: Store, previous: Option<AnalysisResult>, name: Id, now: Time) {
    Acceptable(s, previous, name, now) && LetThrough(s, previous, CandidateOf(s, name, now))
  }

  /** The second result is there and newer than the first, if that is. */
  ghost predicate Newer(first: Option<AnalysisResult>, second: Option<AnalysisResult>) {
    second.Some? && (first.Some? ==> first.value.generatedAt < second.value.generatedAt)
  }

  /** Nothing published, and the same held. */
  ghost predicate Unmoved(s: Store, s': Store, previous: Option<AnalysisResult>, held: Option<AnalysisResult>) {
    held == previous && s'.log == s.log && s'.publication == s.publication && s'.current == s.current
  }

  /** Something was published, and the newest of it is held. */
  ghost predicate Moved(s': Store, previous: Option<AnalysisResult>, held: Option<AnalysisResult>) {
    && Newer(previous, held) && s'.current == held
    && s'.publication.Some? && s'.publication.value.result == held.value
  }

  lemma {:induction false} PointerUntouched(s: Store, steps: seq<Step>)
    requires forall i :: 0 <= i < |steps| ==> !steps[i].Commit? && !steps[i].WriteCurrent?
    ensures var s' := ApplyAll(s, steps);
            s'.log == s.log && s'.publication == s.publication && s'.current == s.current
    decreases |steps|
  {
    if steps != [] {
      OnePointerUntouched(s, steps[0]);
      PointerUntouched(Apply(s, steps[0]), steps[1..]);
    }
  }

  lemma OnePointerUntouched(s: Store, step: Step)
    requires !step.Commit? && !step.WriteCurrent?
    ensures var s' := Apply(s, step);
            s'.log == s.log && s'.publication == s.publication && s'.current == s.current
  {
  }

  /** A file that is let through is published and held; any other changes nothing of that. */
  lemma FileMoves(s: Store, previous: Option<AnalysisResult>, name: Id, now: Time)
    ensures var run := ProcessFile(s, previous, name, now);
            var s' := ApplyAll(s, run.steps);
            && (run.raised <==> Raises(s, name))
            && (NoCommit(run.steps) <==> !Through(s, previous, name, now))
            && (if Through(s, previous, name, now) then
                  && Moved(s', previous, run.previous) && run.previous.value.id == name
                  && Published(s'.log) == Published(s.log) + [CandidateOf(s, name, now)]
                else Unmoved(s, s', previous, run.previous))
  {
    var run := ProcessFile(s, previous, name, now);
    if Through(s, previous, name, now) {
      ThroughMoves(s, previous, name, now);
    } else if Acceptable(s, previous, name, now) {
      AcceptableRun(s, previous, name, now);
      PointerUntouched(s, run.steps);
    } else {
      PointerUntouched(s, run.steps);
    }
  }

  lemma ThroughMoves(s: Store, previous: Option<AnalysisResult>, name: Id, now: Time)
    requires Through(s, previous, name, now)
    ensures var run, c := ProcessFile(s, previous, name, now), CandidateOf(s, name, now);
            var s' := ApplyAll(s, run.steps);
            && !run.raised && !NoCommit(run.steps) && run.previous == Some(c.result) && c.result.id == name
            && Moved(s', previous, run.previous) && Published(s'.log) == Published(s.log) + [c]
  {
    var c := CandidateOf(s, name, now);
    var receipt := Receipt(name, c.result.inputId, now, Some(now));
    AcceptableRun(s, previous, name, now);
    AcceptableLog(s, previous, name, now);
    CommitShows(ProcessFile(s, previous, name, now).steps, 1);
    CandidateSteps(s, c, receipt, now);
    MiddleFirst([WriteResult(name, c.result, now)], PublishSteps(s, c.result, receipt, c.inputTime, now),
                [WriteReceipt(name, receipt), RemoveInbox(name)]);
  }

  // ----- the whole loop

  /** The first file of the list that is let through, with none before it that ends the call. */
  ghost predicate First(s: Store, previous: Option<AnalysisResult>, names: seq<Id>, i: int, now: Time) {
    && 0 <= i < |names| && Through(s, previous, names[i], now)
    && forall j :: 0 <= j < i ==> !Raises(s, names[j]) && !Through(s, previous, names[j], now)
  }

  lemma SameTurn(s: Store, s': Store, previous: Option<AnalysisResult>, name: Id, now: Time)
    requires Untouched(s, s', name)
    ensures Through(s', previous, name, now) <==> Through(s, previous, name, now)
    ensures Raises(s', name) <==> Raises(s, name)
    ensures s'.log == s.log ==> (Overtaken(s', previous, name, now) <==> Overtaken(s, previous, name, now))
  {
  }

  /** After a first file that changes nothing, the rest of the list decides. */
  lemma FirstLater(s: Store, s': Store, previous: Option<AnalysisResult>, names: seq<Id>, i: int, now: Time)
    requires 0 < i < |names| && !Raises(s, names[0]) && !Through(s, previous, names[0], now)
    requires forall j :: 1 <= j < |names| ==> Untouched(s, s', names[j])
    ensures First(s, previous, names, i, now) <==> First(s', previous, names[1..], i - 1, now)
  {
    var rest := names[1..];
    forall j | 0 <= j < |rest|
      ensures Through(s', previous, rest[j], now) <==> Through(s, previous, names[j + 1], now)
      ensures Raises(s', rest[j]) <==> Raises(s, names[j + 1])
    {
      SameTurn(s, s', previous, names[j + 1], now);
    }
    if First(s', previous, rest, i - 1, now) {
      forall j | 0 <= j < i ensures !Raises(s, names[j]) && !Through(s, previous, names[j], now) {
        assert j > 0 ==> !Raises(s', rest[j - 1]) && !Through(s', previous, rest[j - 1], now);
      }
    }
    if First(s, previous, names, i, now) {
      forall j | 0 <= j < i - 1 ensures !Raises(s', rest[j]) && !Through(s', previous, rest[j], now) {
        assert !Raises(s, names[j + 1]) && !Through(s, previous, names[j + 1], now);
      }
    }
  }

  ghost predicate SomeFirst(s: Store, previous: Option<AnalysisResult>, names: seq<Id>, now: Time) {
    exists i :: First(s, previous, names, i, now)
  }

  /** The first file let through overtakes the held result. */
  ghost predicate SomeOvertakes(s: Store, previous: Option<AnalysisResult>, names: seq<Id>, now: Time) {
    exists i :: First(s, previous, names, i, now) && Overtaken(s, previous, names[i], now)
  }

  lemma ShiftFirst(s: Store, s': Store, previous: Option<AnalysisResult>, names: seq<Id>, now: Time)
    requires names != [] && !Raises(s, names[0]) && !Through(s, previous, names[0], now)
    requires forall j :: 1 <= j < |names| ==> Untouched(s, s', names[j])
    ensures SomeFirst(s, previous, names, now) <==> SomeFirst(s', previous, names[1..], now)
    ensures s'.log == s.log ==> (SomeOvertakes(s, previous, names, now) <==>
            SomeOvertakes(s', previous, names[1..], now))
  {
    var rest := names[1..];
    forall i | 0 < i < |names|
      ensures First(s, previous, names, i, now) <==> First(s', previous, rest, i - 1, now)
      ensures s'.log == s.log ==>
                (Overtaken(s, previous, names[i], now) <==> Overtaken(s', previous, rest[i - 1], now))
    {
      FirstLater(s, s', previous, names, i, now);
      SameTurn(s, s', previous, names[i], now);
    }
    assert !First(s, previous, names, 0, now);
    if i :| First(s, previous, names, i, now) {
      assert First(s', previous, rest, i - 1, now);
    }
    if i :| First(s', previous, rest, i, now) {
      assert First(s, previous, names, i + 1, now);
    }
    if s'.log == s.log {
      if i :| First(s, previous, names, i, now) && Overtaken(s, previous, names[i], now) {
        assert First(s', previous, rest, i - 1, now) && Overtaken(s', previous, rest[i - 1], now);
      }
      if i :| First(s', previous, rest, i, now) && Overtaken(s', previous, rest[i], now) {
        assert First(s, previous, names, i + 1, now) && Overtaken(s, previous, names[i + 1], now);
      }
    }
  }

  lemma NotFirstAfterRaise(s: Store, previous: Option<AnalysisResult>, names: seq<Id>, now: Time)
    requires names != [] && Raises(s, names[0])
    ensures !SomeFirst(s, previous, names, now)
  {
    assert forall i :: First(s, previous, names, i, now) ==> i == 0;
  }

  lemma OnlyFirst(s: Store, previous: Option<AnalysisResult>, names: seq<Id>, now: Time)
    requires names != [] && Through(s, previous, names[0], now)
    ensures SomeFirst(s, previous, names, now)
    ensures SomeOvertakes(s, previous, names, now) <==> Overtaken(s, previous, names[0], now)
  {
    assert First(s, previous, names, 0, now);
    assert forall i :: First(s, previous, names, i, now) ==> i == 0;
  }

  lemma MovedOn(
    s': Store, end: Store, previous: Option<AnalysisResult>, middle: Option<AnalysisResult>,
    held: Option<AnalysisResult>)
    requires Moved(s', previous, middle) && (Unmoved(s', end, middle, held) || Moved(end, middle, held))
    ensures Moved(end, previous, held)
  {
  }

  /** A loop publishes something, moving the pointer on to newer results, exactly when some file is
      let through first. */
  lemma {:induction false} LoopMovesIff(s: Store, previous: Option<AnalysisResult>, names: seq<Id>, now: Time)
    requires Distinct(names)
    ensures var run := AcceptLoop(s, previous, names, now);
            var end := ApplyAll(s, run.steps);
            && (NoCommit(run.steps) <==> !SomeFirst(s, previous, names, now))
            && (if SomeFirst(s, previous, names, now) then Moved(end, previous, run.previous)
                else Unmoved(s, end, previous, run.previous))
    decreases |names|
  {
    if names != [] {
      var first := ProcessFile(s, previous, names[0], now);
      var s' := ApplyAll(s, first.steps);
      FileMoves(s, previous, names[0], now);
      if first.raised {
        NotFirstAfterRaise(s, previous, names, now);
      } else {
        var rest := AcceptLoop(s', first.previous, names[1..], now);
        LoopMovesIff(s', first.previous, names[1..], now);
        NoCommitConcat(first.steps, rest.steps);
        ApplyAllConcat(s, first.steps, rest.steps);
        if Through(s, previous, names[0], now) {
          OnlyFirst(s, previous, names, now);
          MovedOn(s', ApplyAll(s', rest.steps), previous, first.previous, rest.previous);
        } else {
          OthersUntouched(s, first.steps, names, previous, now);
          ShiftFirst(s, s', previous, names, now);
        }
      }
    }
  }

  lemma {:induction false} LogGrows(s: Store, steps: seq<Step>)
    ensures s.log <= ApplyAll(s, steps).log
    decreases |steps|
  {
    if steps != [] {
      OneLogGrows(s, steps[0]);
      LogGrows(Apply(s, steps[0]), steps[1..]);
    }
  }

  lemma OneLogGrows(s: Store, step: Step)
    ensures s.log <= Apply(s, step).log
  {
  }

  lemma ChainPrefix(a: seq<Publication>, b: seq<Publication>)
    requires a <= b && Chain(Published(b))
    ensures Chain(Published(a))
  {
    forall i, j | 0 <= i < j < |a| ensures Precedes(Published(a)[i], Published(a)[j]) {
      assert Published(a)[i] == Published(b)[i] && Published(a)[j] == Published(b)[j];
    }
  }

  ghost predicate HeldLast(s: Store, c: Candidate) {
    && s.log != [] && Published(s.log)[|s.log| - 1] == c && InputOf(s, c) && Chain(Published(s.log))
  }

  lemma FileKeepsHeld(s: Store, c: Candidate, name: Id, now: Time)
    requires HeldLast(s, c)
    ensures var run := ProcessFile(s, Some(c.result), name, now);
            var s' := ApplyAll(s, run.steps);
            && run.previous.Some? && s'.log != []
            && HeldLast(s', Published(s'.log)[|s'.log| - 1])
            && run.previous == Some(Published(s'.log)[|s'.log| - 1].result)
  {
    var run := ProcessFile(s, Some(c.result), name, now);
    if Acceptable(s, Some(c.result), name, now) {
      AcceptableLog(s, Some(c.result), name, now);
      AcceptableRun(s, Some(c.result), name, now);
      OrderKeptIff(s, Some(c.result), name, now);
    } else {
      LogUnlessAcceptable(s, Some(c.result), name, now);
    }
  }

  /** A loop that holds the result published last keeps the order, with or without its receipt. */
  lemma {:induction false} HeldLoopKeepsOrder(s: Store, c: Candidate, names: seq<Id>, now: Time)
    requires HeldLast(s, c)
    ensures Chain(Published(ApplyAll(s, AcceptLoop(s, Some(c.result), names, now).steps).log))
    decreases |names|
  {
    if names != [] {
      var first := ProcessFile(s, Some(c.result), names[0], now);
      var s' := ApplyAll(s, first.steps);
      FileKeepsHeld(s, c, names[0], now);
      if !first.raised {
        HeldLoopKeepsOrder(s', Published(s'.log)[|s'.log| - 1], names[1..], now);
        ApplyAllConcat(s, first.steps, AcceptLoop(s', first.previous, names[1..], now).steps);
      }
    }
  }

  /** Whatever a loop starts with: it keeps the published order if and only if the first file it
      lets through does not overtake what it holds. */
  lemma {:induction false} LoopKeepsOrderIff(s: Store, previous: Option<AnalysisResult>, names: seq<Id>, now: Time)
    requires s.log != [] && Chain(Published(s.log)) && Distinct(names)
    ensures Chain(Published(ApplyAll(s, AcceptLoop(s, previous, names, now).steps).log))
            <==> !SomeOvertakes(s, previous, names, now)
    decreases |names|
  {
    if names != [] {
      var first := ProcessFile(s, previous, names[0], now);
      var s' := ApplyAll(s, first.steps);
      FileMoves(s, previous, names[0], now);
      if first.raised {
        NotFirstAfterRaise(s, previous, names, now);
      } else {
        var rest := AcceptLoop(s', first.previous, names[1..], now);
        ApplyAllConcat(s, first.steps, rest.steps);
        if Through(s, previous, names[0], now) {
          OnlyFirst(s, previous, names, now);
          ThroughFirst(s, previous, names, now);
        } else {
          OthersUntouched(s, first.steps, names, previous, now);
          ShiftFirst(s, s', previous, names, now);
          LoopKeepsOrderIff(s', previous, names[1..], now);
        }
      }
    }
  }

  lemma ThroughFirst(s: Store, previous: Option<AnalysisResult>, names: seq<Id>, now: Time)
    requires s.log != [] && Chain(Published(s.log)) && names != [] && Through(s, previous, names[0], now)
    ensures var first := ProcessFile(s, previous, names[0], now);
            var s' := ApplyAll(s, first.steps);
            var rest := AcceptLoop(s', first.previous, names[1..], now);
            Chain(Published(ApplyAll(s', rest.steps).log)) <==> !Overtaken(s, previous, names[0], now)
  {
    var first, c := ProcessFile(s, previous, names[0], now), CandidateOf(s, names[0], now);
    var s' := ApplyAll(s, first.steps);
    ThroughMoves(s, previous, names[0], now);
    AcceptableLog(s, previous, names[0], now);
    OrderKeptIff(s, previous, names[0], now);
    if Overtaken(s, previous, names[0], now) {
      var steps := AcceptLoop(s', first.previous, names[1..], now).steps;
      LogGrows(s', steps);
      if Chain(Published(ApplyAll(s', steps).log)) {
        ChainPrefix(s'.log, ApplyAll(s', steps).log);
      }
    } else {
      HeldLoopKeepsOrder(s', c, names[1..], now);
    }
  }

  // ----- the same, name by name

  /** No file of a smaller name ends the call or is let through. */
  ghost predicate QuietBefore(s: Store, previous: Option<AnalysisResult>, name: Id, now: Time) {
    forall other :: other in s.inbox && other < name ==> !Raises(s, other) && !Through(s, previous, other, now)
  }

  lemma FirstIsQuiet(s: Store, previous: Option<AnalysisResult>, names: seq<Id>, i: int, now: Time)
    requires names == SortedIds(s.inbox.Keys) && First(s, previous, names, i, now)
    ensures QuietBefore(s, previous, names[i], now)
  {
    forall other | other in s.inbox && other < names[i]
      ensures !Raises(s, other) && !Through(s, previous, other, now)
    {
      var j := PlaceOf(s.inbox.Keys, names, other);
      assert j < i;
    }
  }

  lemma PlaceOf(ids: set<Id>, names: seq<Id>, id: Id) returns (place: nat)
    requires names == SortedIds(ids) && id in ids
    ensures place < |names| && names[place] == id
    ensures forall i :: 0 <= i < |names| && id < names[i] ==> place < i
  {
    place :| 0 <= place < |names| && names[place] == id;
  }

  lemma QuietIsFirst(s: Store, previous: Option<AnalysisResult>, names: seq<Id>, i: int, now: Time)
    requires names == SortedIds(s.inbox.Keys) && 0 <= i < |names|
    requires Through(s, previous, names[i], now) && QuietBefore(s, previous, names[i], now)
    ensures First(s, previous, names, i, now)
  {
    forall j | 0 <= j < i ensures !Raises(s, names[j]) && !Through(s, previous, names[j], now) {
      assert names[j] in s.inbox.Keys && names[j] < names[i];
    }
  }

  lemma FirstByName(s: Store, previous: Option<AnalysisResult>, i: int, now: Time)
    requires 0 <= i < |SortedIds(s.inbox.Keys)|
    ensures var names := SortedIds(s.inbox.Keys);
            First(s, previous, names, i, now)
            <==> Through(s, previous, names[i], now) && QuietBefore(s, previous, names[i], now)
  {
    var names := SortedIds(s.inbox.Keys);
    if First(s, previous, names, i, now) {
      FirstIsQuiet(s, previous, names, i, now);
    }
    if Through(s, previous, names[i], now) && QuietBefore(s, previous, names[i], now) {
      QuietIsFirst(s, previous, names, i, now);
    }
  }

  /** Some file is reached and let through. */
  ghost predicate Advancing(s: Store, previous: Option<AnalysisResult>, now: Time) {
    exists name :: QuietBefore(s, previous, name, now) && Through(s, previous, name, now)
  }

  /** Some file is reached first and overtakes what is held. */
  ghost predicate Overtaking(s: Store, previous: Option<AnalysisResult>, now: Time) {
    exists name :: QuietBefore(s, previous, name, now) && Overtaken(s, previous, name, now)
  }

  lemma ByName(s: Store, previous: Option<AnalysisResult>, now: Time)
    ensures Distinct(SortedIds(s.inbox.Keys))
    ensures SomeFirst(s, previous, SortedIds(s.inbox.Keys), now) <==> Advancing(s, previous, now)
    ensures SomeOvertakes(s, previous, SortedIds(s.inbox.Keys), now) <==> Overtaking(s, previous, now)
  {
    var names := SortedIds(s.inbox.Keys);
    forall i | 0 <= i < |names|
      ensures First(s, previous, names, i, now)
              <==> Through(s, previous, names[i], now) && QuietBefore(s, previous, names[i], now)
    {
      FirstByName(s, previous, i, now);
    }
    if name :| QuietBefore(s, previous, name, now) && Through(s, previous, name, now) {
      var i :| 0 <= i < |names| && names[i] == name;
      assert First(s, previous, names, i, now);
    }
    if name :| QuietBefore(s, previous, name, now) && Overtaken(s, previous, name, now) {
      var i :| 0 <= i < |names| && names[i] == name;
      assert First(s, previous, names, i, now) && Overtaken(s, previous, names[i], now);
    }
  }
}
