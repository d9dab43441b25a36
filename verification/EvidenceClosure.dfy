/** What the directory keeps over every interleaving of publishing inputs, deliveries,
    accepting and pruning, each call cut off anywhere: the evidence of whatever is hot. */
module EvidenceClosure {
  import opened Contracts
  import opened Store
  import opened Pipeline
  import opened CrashTransparency
  import opened Retention

  // ----- pruning

  /** An artifact that is gone had aged, matched its acknowledged digest, and left a record. */
  ghost predicate Justified(s: Store, s': Store, name: Name, entries: seq<AckEntry>, policy: Policy) {
    && name !in policy.kept
    && Lookup(s, name).Some? && Lookup(s, name).value.mtime < policy.cutoff
    && name in s'.retained
    && s'.retained[name].entry in entries && s'.retained[name].entry.name == name
    && s'.retained[name].entry.digest == Lookup(s, name).value.value
  }

  /** `s'` is `s` with some unprotected artifacts deleted, each of them justified. */
  ghost predicate Thinned(s: Store, s': Store, entries: seq<AckEntry>, policy: Policy) {
    && s'.inbox == s.inbox && s'.current == s.current && s'.currentInput == s.currentInput
    && s'.publication == s.publication && s'.log == s.log
    && (forall name :: Lookup(s', name).Some? ==> Lookup(s', name) == Lookup(s, name))
    && (forall name :: Lookup(s, name).Some? && Lookup(s', name).None? ==> Justified(s, s', name, entries, policy))
    && (forall id :: id in s'.receipts ==> id in s.receipts && s'.receipts[id] == s.receipts[id])
    && (forall id :: id in s.receipts && id !in s'.receipts ==> ResultName(id) !in policy.kept)
  }

  lemma {:induction false} DetailsThin(
    s0: Store, s: Store, details: map<Id, Aged<Detail>>, advice: seq<Advice>, entries: seq<AckEntry>, policy: Policy)
    requires Thinned(s0, s, entries, policy)
    ensures var steps := RemovedDetails(details, advice, policy);
            && Along(s, steps, x => Thinned(s0, x, entries, policy))
            && ApplyAll(s, steps) == s.(details := ApplyAll(s, steps).details)
    decreases |advice|
  {
    if advice != [] {
      var id := advice[0].id;
      if id !in policy.keptAdvice && id in details && details[id].mtime < policy.cutoff {
        var s' := Apply(s, RemoveDetail(id));
        assert forall name :: Lookup(s', name) == Lookup(s, name);
        var rest := RemovedDetails(details - {id}, advice[1..], policy);
        DetailsThin(s0, s', details - {id}, advice[1..], entries, policy);
        AlongStep(s, RemoveDetail(id), rest, x => Thinned(s0, x, entries, policy));
      } else {
        DetailsThin(s0, s, details, advice[1..], entries, policy);
      }
    }
  }

  /** The record is written before anything is deleted. */
  lemma RecordThins(s0: Store, s: Store, entry: AckEntry, entries: seq<AckEntry>, policy: Policy)
    requires Thinned(s0, s, entries, policy) && entry in entries
    requires Lookup(s, entry.name).Some? && entry.digest == Lookup(s, entry.name).value.value
    ensures Thinned(s0, Apply(s, WriteRetention(RetentionRecord(entry, policy.now, policy.ackAt))), entries, policy)
  {
    var s' := Apply(s, WriteRetention(RetentionRecord(entry, policy.now, policy.ackAt)));
    assert forall name :: Lookup(s', name) == Lookup(s, name);
  }

  lemma DeletionThins(s0: Store, s: Store, step: Step, name: Name, entries: seq<AckEntry>, policy: Policy)
    requires Thinned(s0, s, entries, policy) && Justified(s0, s, name, entries, policy)
    requires step == (match name case InputName(id) => RemoveInput(id) case ResultName(id) => RemoveResult(id))
          || (name.ResultName? && step == RemoveReceipt(name.id))
    ensures Thinned(s0, Apply(s, step), entries, policy) && Justified(s0, Apply(s, step), name, entries, policy)
  {
    var s' := Apply(s, step);
    assert forall other :: other != name ==> Lookup(s', other) == Lookup(s, other);
  }

  lemma InputEntryThins(s0: Store, s: Store, entry: AckEntry, entries: seq<AckEntry>, policy: Policy)
    requires Thinned(s0, s, entries, policy) && entry.name.InputName?
    requires var s1 := Apply(s, WriteRetention(RetentionRecord(entry, policy.now, policy.ackAt)));
             Thinned(s0, s1, entries, policy) && Justified(s0, s1, entry.name, entries, policy)
    ensures Along(s, [WriteRetention(RetentionRecord(entry, policy.now, policy.ackAt)), RemoveInput(entry.name.id)],
                  x => Thinned(s0, x, entries, policy))
  {
    var good := x => Thinned(s0, x, entries, policy);
    var record := WriteRetention(RetentionRecord(entry, policy.now, policy.ackAt));
    var s1, remove := Apply(s, record), RemoveInput(entry.name.id);
    DeletionThins(s0, s1, remove, entry.name, entries, policy);
    OnlyStep(s1, remove, good);
    AlongStep(s, record, [remove], good);
    assert [record] + [remove] == [record, remove];
  }

  lemma ResultEntryThins(s0: Store, s1: Store, id: Id, details: seq<Step>, entries: seq<AckEntry>, policy: Policy)
    requires Along(s1, details, x => Thinned(s0, x, entries, policy))
    requires Justified(s0, ApplyAll(s1, details), ResultName(id), entries, policy)
    ensures Along(s1, details + [RemoveReceipt(id), RemoveResult(id)], x => Thinned(s0, x, entries, policy))
  {
    var good := x => Thinned(s0, x, entries, policy);
    var s2 := ApplyAll(s1, details);
    AlongEnd(s1, details, good);
    DeletionThins(s0, s2, RemoveReceipt(id), ResultName(id), entries, policy);
    AlongAppend(s1, details, RemoveReceipt(id), good);
    DeletionThins(s0, Apply(s2, RemoveReceipt(id)), RemoveResult(id), ResultName(id), entries, policy);
    AlongAppend(s1, details + [RemoveReceipt(id)], RemoveResult(id), good);
    assert details + [RemoveReceipt(id)] + [RemoveResult(id)] == details + [RemoveReceipt(id), RemoveResult(id)];
  }

  lemma RecordJustifies(s0: Store, s: Store, entry: AckEntry, entries: seq<AckEntry>, policy: Policy)
    requires Thinned(s0, s, entries, policy) && entry in entries && PruneEntry(s, entry, policy).steps != []
    ensures var s1 := Apply(s, WriteRetention(RetentionRecord(entry, policy.now, policy.ackAt)));
            Thinned(s0, s1, entries, policy) && Justified(s0, s1, entry.name, entries, policy)
  {
    RecordThins(s0, s, entry, entries, policy);
  }

  lemma EntryThins(s0: Store, s: Store, entry: AckEntry, entries: seq<AckEntry>, policy: Policy)
    requires Thinned(s0, s, entries, policy) && entry in entries
    ensures Along(s, PruneEntry(s, entry, policy).steps, x => Thinned(s0, x, entries, policy))
  {
    var good := x => Thinned(s0, x, entries, policy);
    if PruneEntry(s, entry, policy).steps != [] {
      var record := WriteRetention(RetentionRecord(entry, policy.now, policy.ackAt));
      var s1 := Apply(s, record);
      RecordJustifies(s0, s, entry, entries, policy);
      match entry.name {
        case InputName(id) => InputEntryThins(s0, s, entry, entries, policy);
        case ResultName(id) =>
          var details := RemovedDetails(s.details, s.results[id].value.advice, policy);
          DetailsThin(s0, s1, s.details, s.results[id].value.advice, entries, policy);
          StillJustified(s0, s1, ApplyAll(s1, details), entry.name, entries, policy);
          ResultEntryThins(s0, s1, id, details, entries, policy);
          AlongStep(s, record, details + [RemoveReceipt(id), RemoveResult(id)], good);
      }
    }
  }

  lemma StillJustified(s0: Store, s: Store, s': Store, name: Name, entries: seq<AckEntry>, policy: Policy)
    requires Justified(s0, s, name, entries, policy) && s' == s.(details := s'.details)
    ensures Justified(s0, s', name, entries, policy)
  {
  }

  lemma {:induction false} LoopThins(s0: Store, s: Store, todo: seq<AckEntry>, entries: seq<AckEntry>, policy: Policy)
    requires Thinned(s0, s, entries, policy) && forall e :: e in todo ==> e in entries
    ensures Along(s, PruneLoop(s, todo, policy).steps, x => Thinned(s0, x, entries, policy))
    decreases |todo|
  {
    if todo != [] {
      var good := x => Thinned(s0, x, entries, policy);
      var first := PruneEntry(s, todo[0], policy);
      EntryThins(s0, s, todo[0], entries, policy);
      if !first.raised {
        AlongEnd(s, first.steps, good);
        var s' := ApplyAll(s, first.steps);
        LoopThins(s0, s', todo[1..], entries, policy);
        AlongConcat(s, first.steps, PruneLoop(s', todo[1..], policy).steps, good);
      }
    }
  }

  lemma ProtectedKept(s: Store, s': Store, name: Name, entries: seq<AckEntry>, policy: Policy)
    requires Thinned(s, s', entries, policy) && name in policy.kept
    ensures Lookup(s', name) == Lookup(s, name)
  {
  }

  lemma InputStays(s: Store, s': Store, id: Id, entries: seq<AckEntry>, policy: Policy)
    requires Thinned(s, s', entries, policy) && InputName(id) in policy.kept && id in s.inputs
    ensures id in s'.inputs && s'.inputs[id] == s.inputs[id]
  {
    ProtectedKept(s, s', InputName(id), entries, policy);
  }

  lemma ResultWasThere(s: Store, s': Store, id: Id, entries: seq<AckEntry>, policy: Policy)
    requires Thinned(s, s', entries, policy) && id in s'.results
    ensures id in s.results && s'.results[id] == s.results[id]
  {
    assert Lookup(s', ResultName(id)) == Lookup(s, ResultName(id));
  }

  lemma ThinnedKeepsEvidence(s: Store, s': Store, entries: seq<AckEntry>, policy: Policy)
    requires EvidenceKept(s) && Thinned(s, s', entries, policy) && policy.kept == ProtectedNames(s)
    ensures EvidenceKept(s')
  {
    forall name | name in s'.results ensures s'.results[name].value.inputId in s'.inputs {
      ResultWasThere(s, s', name, entries, policy);
      InputStays(s, s', s.results[name].value.inputId, entries, policy);
    }
    if s.current.Some? {
      InputStays(s, s', s.current.value.inputId, entries, policy);
    }
  }

  /** The committed result is the current one, or its file still waits in the inbox. */
  lemma CommittedInputProtected(s: Store)
    requires Sound(s) && s.publication.Some?
    ensures InputName(s.publication.value.result.inputId) in ProtectedNames(s)
    ensures s.publication.value.result.id in s.receipts ==>
              ResultName(s.publication.value.result.id) in ProtectedNames(s)
  {
    var result := s.publication.value.result;
    if result.id !in s.receipts {
      assert InputName(result.inputId) in ClaimedInput(s.inbox[result.id]);
    }
  }

  lemma ThinnedSound(s: Store, s': Store, entries: seq<AckEntry>, policy: Policy)
    requires Sound(s) && Thinned(s, s', entries, policy) && policy.kept == ProtectedNames(s)
    ensures Sound(s')
  {
    ThinnedKeepsEvidence(s, s', entries, policy);
    if s.publication.Some? {
      CommittedInputProtected(s);
      InputStays(s, s', s.publication.value.result.inputId, entries, policy);
      assert LogMatches(s');
      var id := s.publication.value.result.id;
      assert id in s.receipts ==> id in s'.receipts;
      assert Recoverable(s');
      PointerStays(s, s', entries, policy);
    }
  }

  lemma PointerStays(s: Store, s': Store, entries: seq<AckEntry>, policy: Policy)
    requires PointerKnown(s) && EvidenceKept(s) && Thinned(s, s', entries, policy) && policy.kept == ProtectedNames(s)
    ensures PointerKnown(s')
  {
    if s.current.Some? {
      InputStays(s, s', s.current.value.inputId, entries, policy);
      assert forall i :: PointerAt(s, i) ==> PointerAt(s', i);
    }
  }

  // ----- the system

  /** A job of the cloud node, cut off after `done` of its steps, or a file sent by the worker. */
  datatype Job =
    | PublishInput(input: InputSnapshot, now: Time, done: nat)
    | ReceiveFile(name: Id, file: InboxFile)
    | AcceptResults(now: Time, done: nat)
    | PruneAcknowledged(ack: Option<Ack>, now: Time, retentionDays: int, done: nat)

  /** `publish_input`: a snapshot already stored keeps its first generation time. */
  function InputSteps(s: Store, input: InputSnapshot, now: Time): seq<Step> {
    if input.id in s.inputs then [WriteCurrentInput(s.inputs[input.id].value)]
    else [WriteInput(input, now), WriteCurrentInput(input)]
  }

  ghost function StepsOf(s: Store, job: Job): seq<Step> {
    match job
    case PublishInput(input, now, _) => InputSteps(s, input, now)
    case ReceiveFile(name, file) => [Deliver(name, file)]
    case AcceptResults(now, _) => Accept(s, now).steps
    case PruneAcknowledged(ack, now, days, _) => Prune(s, ack, now, days)
  }

  ghost function After(s: Store, job: Job): Store {
    Stopped(s, StepsOf(s, job), if job.ReceiveFile? then 1 else job.done)
  }

  /** Names are content hashes, so a second delivery under one name brings the same file; and
      no accept call stops at its stranding point. */
  ghost predicate Admissible(s: Store, job: Job) {
    match job
    case ReceiveFile(name, file) => name in s.inbox ==> s.inbox[name] == file
    case AcceptResults(now, done) => !Strands(s, now, done)
    case _ => true
  }

  lemma PruneThins(s: Store, ack: Option<Ack>, now: Time, days: int, done: nat)
    requires MayPrune(s, ack, now, days)
    ensures Thinned(s, Stopped(s, Prune(s, ack, now, days), done), ack.value.entries, PolicyOf(s, ack.value, now, days))
  {
    var policy, entries := PolicyOf(s, ack.value, now, days), ack.value.entries;
    assert Thinned(s, s, entries, policy);
    LoopThins(s, s, ResultsFirst(entries), entries, policy);
    AlongStopped(s, Prune(s, ack, now, days), 0, done, x => Thinned(s, x, entries, policy));
  }

  lemma NewInputSound(s: Store, input: InputSnapshot, now: Time)
    requires Sound(s) && input.id !in s.inputs
    ensures Sound(Apply(s, WriteInput(input, now)))
  {
  }

  lemma CurrentInputSound(s: Store, input: InputSnapshot)
    requires Sound(s)
    ensures Sound(Apply(s, WriteCurrentInput(input)))
  {
  }

  lemma PublishInputSound(s: Store, input: InputSnapshot, now: Time, done: nat)
    requires Sound(s)
    ensures Sound(Stopped(s, InputSteps(s, input, now), done))
  {
    var steps := InputSteps(s, input, now);
    if done > 0 {
      ApplyOne(s, steps);
      if input.id in s.inputs {
        CurrentInputSound(s, s.inputs[input.id].value);
        assert steps[..1] == steps;
      } else {
        NewInputSound(s, input, now);
        CurrentInputSound(Apply(s, steps[0]), input);
        ApplyTwo(s, steps[0], steps[1]);
        assert steps == [steps[0], steps[1]] && steps[..2] == steps;
      }
    } else {
      assert steps[..0] == [];
    }
  }

  lemma ReceiveSound(s: Store, name: Id, file: InboxFile)
    requires Sound(s) && (name in s.inbox ==> s.inbox[name] == file)
    ensures Sound(Apply(s, Deliver(name, file)))
  {
  }

  lemma JobSound(s: Store, job: Job)
    requires Sound(s) && Admissible(s, job)
    ensures Sound(After(s, job))
  {
    match job {
      case PublishInput(input, now, done) => PublishInputSound(s, input, now, done);
      case ReceiveFile(name, file) =>
        ReceiveSound(s, name, file);
        ApplyOne(s, [Deliver(name, file)]);
      case AcceptResults(now, done) => CrashSafeIff(s, now, done);
      case PruneAcknowledged(ack, now, days, done) =>
        if MayPrune(s, ack, now, days) {
          PruneThins(s, ack, now, days, done);
          ThinnedSound(s, After(s, job), ack.value.entries, PolicyOf(s, ack.value, now, days));
        } else {
          assert After(s, job) == s;
        }
    }
  }

  /** The acceptable files of the inbox still have their inputs. */
  ghost predicate InboxEvidence(s: Store) {
    forall name :: name in s.inbox ==> forall id :: InputName(id) in ClaimedInput(s.inbox[name]) ==> id in s.inputs
  }

  /** A result stored under a name is the one a verified inbox file of that name holds. */
  ghost predicate ContentNamed(s: Store) {
    forall name :: name in s.inbox && s.inbox[name].Verified? && name in s.results ==>
      s.results[name].value == s.inbox[name].result
  }

  ghost predicate Delivers(s: Store, job: Job) {
    job.ReceiveFile? ==>
      && (forall id :: InputName(id) in ClaimedInput(job.file) ==> id in s.inputs)
      && (job.file.Verified? && job.name in s.results ==> s.results[job.name].value == job.file.result)
  }

  /** Stays stored with the content it has, unless the archive holds exactly that content. */
  ghost predicate Preserved(s: Store, s': Store, archive: map<Name, Content>) {
    forall name :: Lookup(s, name).Some? ==>
      var content := Lookup(s, name).value.value;
      || (Lookup(s', name).Some? && Lookup(s', name).value.value == content)
      || (name in archive && archive[name] == content)
  }

  /** `write_archive_ack`: every entry names an archived artifact by its digest. */
  ghost predicate FromArchive(job: Job, archive: map<Name, Content>) {
    job.PruneAcknowledged? && job.ack.Some? ==>
      forall e :: e in job.ack.value.entries ==> e.name in archive && archive[e.name] == e.digest
  }

  ghost predicate Everything(s: Store) {
    Sound(s) && InboxEvidence(s) && ContentNamed(s)
  }

  ghost predicate Fair(s: Store, job: Job, archive: map<Name, Content>) {
    Admissible(s, job) && Delivers(s, job) && FromArchive(job, archive)
  }

  lemma PublishKeepsContent(s: Store, input: InputSnapshot, now: Time, done: nat)
    ensures var s' := Stopped(s, InputSteps(s, input, now), done);
            && s'.inbox == s.inbox && s'.results == s.results
            && (forall id :: id in s.inputs ==> id in s'.inputs && s'.inputs[id] == s.inputs[id])
  {
    var steps := InputSteps(s, input, now);
    if done > 0 {
      ApplyOne(s, steps);
      if input.id in s.inputs {
        assert steps[..1] == steps;
      } else {
        ApplyTwo(s, steps[0], steps[1]);
        assert steps == [steps[0], steps[1]] && steps[..2] == steps;
      }
    } else {
      assert steps[..0] == [];
    }
  }

  lemma ThinnedKeepsInbox(s: Store, s': Store, entries: seq<AckEntry>, policy: Policy)
    requires InboxEvidence(s) && ContentNamed(s)
    requires Thinned(s, s', entries, policy) && policy.kept == ProtectedNames(s)
    ensures InboxEvidence(s') && ContentNamed(s')
  {
    forall name, id | name in s'.inbox && InputName(id) in ClaimedInput(s'.inbox[name]) ensures id in s'.inputs {
      InputStays(s, s', id, entries, policy);
    }
    forall name | name in s'.results ensures name in s.results && s'.results[name] == s.results[name] {
      ResultWasThere(s, s', name, entries, policy);
    }
  }

  lemma JobKeepsInbox(s: Store, job: Job, archive: map<Name, Content>)
    requires Everything(s) && Fair(s, job, archive)
    ensures InboxEvidence(After(s, job)) && ContentNamed(After(s, job))
  {
    match job {
      case PublishInput(input, now, done) => PublishKeepsContent(s, input, now, done);
      case ReceiveFile(name, file) => ApplyOne(s, [Deliver(name, file)]);
      case AcceptResults(now, done) => CrashSafeIff(s, now, done);
      case PruneAcknowledged(ack, now, days, done) =>
        if MayPrune(s, ack, now, days) {
          PruneThins(s, ack, now, days, done);
          ThinnedKeepsInbox(s, After(s, job), ack.value.entries, PolicyOf(s, ack.value, now, days));
        } else {
          assert After(s, job) == s;
        }
    }
  }

  lemma FaithfulPreserves(s: Store, s': Store, archive: map<Name, Content>)
    requires Faithful(s, s') && ContentNamed(s)
    ensures Preserved(s, s', archive)
  {
  }

  lemma JobPreserves(s: Store, job: Job, archive: map<Name, Content>)
    requires Everything(s) && Fair(s, job, archive)
    ensures Preserved(s, After(s, job), archive)
  {
    match job {
      case PublishInput(input, now, done) => PublishKeepsContent(s, input, now, done);
      case ReceiveFile(name, file) => ApplyOne(s, [Deliver(name, file)]);
      case AcceptResults(now, done) =>
        CrashSafeIff(s, now, done);
        FaithfulPreserves(s, After(s, job), archive);
      case PruneAcknowledged(ack, now, days, done) =>
        if MayPrune(s, ack, now, days) {
          PruneThins(s, ack, now, days, done);
        } else {
          assert After(s, job) == s;
        }
    }
  }

  // ----- whole runs

  ghost function Run(s: Store, jobs: seq<Job>): Store
    decreases |jobs|
  {
    if jobs == [] then s else Run(After(s, jobs[0]), jobs[1..])
  }

  ghost predicate AllFair(s: Store, jobs: seq<Job>, archive: map<Name, Content>)
    decreases |jobs|
  {
    jobs == [] || (Fair(s, jobs[0], archive) && AllFair(After(s, jobs[0]), jobs[1..], archive))
  }

  lemma PreservedTransitive(s: Store, s': Store, s'': Store, archive: map<Name, Content>)
    requires Preserved(s, s', archive) && Preserved(s', s'', archive)
    ensures Preserved(s, s'', archive)
  {
  }

  /** Evidence closure. Over every run of jobs cut off anywhere but at the stranding point, the
      directory stays sound (every stored and the current result keep their inputs, published
      times increase), every acceptable delivered file keeps its input, and no stored artifact
      is lost: what is gone is in the archive with exactly the content it had. */
  lemma {:induction false} EvidenceClosure(s: Store, jobs: seq<Job>, archive: map<Name, Content>)
    requires Everything(s) && AllFair(s, jobs, archive)
    ensures Everything(Run(s, jobs)) && Preserved(s, Run(s, jobs), archive)
    decreases |jobs|
  {
    if jobs != [] {
      var s' := After(s, jobs[0]);
      JobSound(s, jobs[0]);
      JobKeepsInbox(s, jobs[0], archive);
      JobPreserves(s, jobs[0], archive);
      EvidenceClosure(s', jobs[1..], archive);
      PreservedTransitive(s, s', Run(s', jobs[1..]), archive);
    }
  }

  /** Hence the accept loop always finds the input of the result it compares with. */
  lemma PreviousInputFound(s: Store, jobs: seq<Job>, archive: map<Name, Content>, now: Time)
    requires Everything(s) && AllFair(s, jobs, archive)
    ensures forall r :: r in LoopOf(Run(s, jobs), now).rejected ==> r.reason != PreviousInputMissing
  {
    EvidenceClosure(s, jobs, archive);
    LoopAfterRecovery(Run(s, jobs), now);
  }

  /** A prune stopped anywhere, or raising part-way, has deleted only aged, unprotected
      artifacts whose content equals an acknowledged digest and whose record is on disk. */
  lemma PruneDeletesOnlyAcknowledged(s: Store, ack: Option<Ack>, now: Time, days: int, done: nat, name: Name)
    requires var s' := Stopped(s, Prune(s, ack, now, days), done);
             Lookup(s, name).Some? && Lookup(s', name).None?
    ensures var s' := Stopped(s, Prune(s, ack, now, days), done);
            && 7 <= days <= 30 && ack.Some? && ack.value.authentic && now - ack.value.generatedAt <= ACK_LIFETIME
            && name !in ProtectedNames(s)
            && Lookup(s, name).value.mtime < now - days * DAY
            && (exists e :: e in ack.value.entries && e.name == name && e.digest == Lookup(s, name).value.value)
            && name in s'.retained && s'.retained[name].entry.digest == Lookup(s, name).value.value
  {
    if MayPrune(s, ack, now, days) {
      PruneThins(s, ack, now, days, done);
      var s' := Stopped(s, Prune(s, ack, now, days), done);
      assert Justified(s, s', name, ack.value.entries, PolicyOf(s, ack.value, now, days));
    }
  }

  /** The empty directory, from which every run starts. */
  ghost const EMPTY := Store(map[], map[], map[], map[], map[], map[], None, None, None, None, [], [])

  lemma StartsSound()
    ensures Everything(EMPTY)
  {
    assert Published(EMPTY.log) == [];
  }
}
