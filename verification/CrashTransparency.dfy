/** A crash between any two atomic steps of `accept_results` changes nothing about what is
    published in the end: every step keeps the *outcome*, the results published so far
    followed by those the inbox still promises. */
module CrashTransparency {
  import opened Contracts
  import opened Store
  import opened Acceptance
  import opened Pipeline

  /** A result with the generation time of its input: all the advance rule looks at. */
  datatype Candidate = Candidate(result: AnalysisResult, inputTime: Time)

  ghost predicate Precedes(a: Candidate, b: Candidate) {
    a.result.generatedAt < b.result.generatedAt && a.inputTime <= b.inputTime
  }

  ghost predicate Chain(published: seq<Candidate>) {
    forall i, j :: 0 <= i < j < |published| ==> Precedes(published[i], published[j])
  }

  ghost function Published(log: seq<Publication>): seq<Candidate> {
    seq(|log|, i requires 0 <= i < |log| => Candidate(log[i].envelope.result, log[i].inputTime))
  }

  ghost function Last(published: seq<Candidate>): Option<Candidate> {
    if published == [] then None else Some(published[|published| - 1])
  }

  ghost predicate IsCandidate(s: Store, name: Id, now: Time) {
    && name in s.inbox && name !in s.receipts
    && FileProblem(name, s.inbox[name], s.inputs, now).None?
    && !(s.publication.Some? && s.publication.value.result.id == name)
  }

  /** The acceptable results of the inbox that have no receipt and are not yet committed. */
  ghost function Candidates(s: Store, now: Time): map<Id, Candidate> {
    map name | name in s.inbox.Keys && IsCandidate(s, name, now) ::
      Candidate(s.inbox[name].result, s.inputs[s.inbox[name].result.inputId].value.generatedAt)
  }

  /** The results that taking the candidates in name order publishes: its running records. */
  ghost function Records(last: Option<Candidate>, todo: map<Id, Candidate>): seq<Candidate>
    decreases |todo|
  {
    if todo == map[] then []
    else
      var name := MinId(todo.Keys);
      var rest := todo - {name};
      if last.None? || Precedes(last.value, todo[name]) then [todo[name]] + Records(Some(todo[name]), rest)
      else Records(last, rest)
  }

  ghost function Outcome(s: Store, now: Time): seq<Candidate> {
    Published(s.log) + Records(Last(Published(s.log)), Candidates(s, now))
  }

  // ----- the invariant of the directory

  /** publication.json is either fully followed up or still has its file in the inbox. */
  ghost predicate Recoverable(s: Store) {
    match s.publication
    case None => s.current.None?
    case Some(Envelope(result, receipt)) =>
      && receipt.resultId == result.id && receipt.publishedAt.Some?
      && (if result.id in s.receipts then s.current == Some(result) && s.receipts[result.id] == receipt
          else result.id in s.inbox && s.inbox[result.id] == Verified(result))
  }

  ghost predicate LogMatches(s: Store) {
    && (s.publication.None? <==> s.log == [])
    && (s.log != [] ==>
          var last := s.log[|s.log| - 1];
          && last.envelope == s.publication.value
          && last.envelope.result.inputId in s.inputs
          && s.inputs[last.envelope.result.inputId].value.generatedAt == last.inputTime)
  }

  /** A receipt that names a publication time repeats the envelope of that publication. */
  ghost predicate ReceiptsHonest(s: Store) {
    forall name :: name in s.receipts && s.receipts[name].publishedAt.Some? ==>
      exists i ::
        0 <= i < |s.log| && s.log[i].envelope.result.id == name && s.log[i].envelope.receipt == s.receipts[name]
  }

  /** Everything still hot keeps the input it rests on. */
  ghost predicate EvidenceKept(s: Store) {
    && (forall name :: name in s.results ==> s.results[name].value.inputId in s.inputs)
    && (s.current.Some? ==> s.current.value.inputId in s.inputs)
  }

  ghost predicate PointerAt(s: Store, i: int) {
    && 0 <= i < |s.log| && s.current == Some(s.log[i].envelope.result)
    && s.log[i].envelope.result.inputId in s.inputs
    && s.inputs[s.log[i].envelope.result.inputId].value.generatedAt == s.log[i].inputTime
  }

  /** The current pointer names the last publication or, until it is written, the one before. */
  ghost predicate PointerKnown(s: Store) {
    s.log == [] || PointerAt(s, |s.log| - 1) || PointerAt(s, |s.log| - 2) || (|s.log| == 1 && s.current.None?)
  }

  ghost predicate Sound(s: Store) {
    && Recoverable(s) && LogMatches(s) && PointerKnown(s)
    && Chain(Published(s.log)) && ReceiptsHonest(s) && EvidenceKept(s)
  }

  // ----- the stages of one file

  /** Nothing awaits recovery, and the caller holds what was published last. */
  ghost predicate Settled(s: Store, previous: Option<AnalysisResult>) {
    && previous == s.current
    && (s.publication.Some? ==> s.publication.value.result.id in s.receipts)
  }

  ghost predicate Least(s: Store, name: Id, now: Time) {
    IsCandidate(s, name, now) && forall other :: IsCandidate(s, other, now) ==> name <= other
  }

  lemma RecordsOfLeast(s: Store, name: Id, now: Time, last: Option<Candidate>)
    requires Least(s, name, now)
    ensures var todo := Candidates(s, now);
            && name in todo
            && Records(last, todo) ==
               if last.None? || Precedes(last.value, todo[name])
               then [todo[name]] + Records(Some(todo[name]), todo - {name})
               else Records(last, todo - {name})
  {
    var todo := Candidates(s, now);
    assert name in todo.Keys && MinId(todo.Keys) in todo.Keys;
    assert MinId(todo.Keys) == name;
  }

  /** The candidate that is next in name order, with the receipt the accept loop gives it. */
  ghost predicate Next(s: Store, c: Candidate, receipt: Receipt, now: Time) {
    && Settled(s, s.current)
    && Least(s, receipt.resultId, now) && c == Candidates(s, now)[receipt.resultId]
    && (receipt.publishedAt.Some? <==> (s.log == [] || Precedes(Published(s.log)[|s.log| - 1], c)))
  }

  /** Equal in everything that publication depends on. */
  ghost predicate SameFacts(s: Store, s': Store) {
    && s'.inputs == s.inputs && s'.inbox == s.inbox && s'.receipts == s.receipts
    && s'.publication == s.publication && s'.current == s.current && s'.log == s.log
  }

  ghost predicate ResultsFrom(s: Store, s': Store, result: AnalysisResult, at: Time) {
    s'.results == s.results || s'.results == s.results[result.id := Aged(result, at)]
  }

  /** The store `s` with the commit, the current pointer, the receipt and the unlink done or not. */
  ghost function Advanced(
    s: Store, c: Candidate, receipt: Receipt, committed: bool, pointed: bool, acknowledged: bool, unlinked: bool): Store
  {
    s.(publication := if committed then Some(Envelope(c.result, receipt)) else s.publication,
       log := if committed then s.log + [Publication(Envelope(c.result, receipt), c.inputTime)] else s.log,
       current := if pointed then Some(c.result) else s.current,
       receipts := if acknowledged then s.receipts[c.result.id := receipt] else s.receipts,
       inbox := if unlinked then s.inbox - {c.result.id} else s.inbox)
  }

  /** How far the steps for one candidate have come; a candidate that does not advance the
      publication is only acknowledged and unlinked. */
  ghost predicate Stage(s: Store, s': Store, c: Candidate, receipt: Receipt) {
    && ResultsFrom(s, s', c.result, receipt.acceptedAt)
    && (if receipt.publishedAt.Some? then
          || SameFacts(s, s')
          || SameFacts(Advanced(s, c, receipt, true, false, false, false), s')
          || SameFacts(Advanced(s, c, receipt, true, true, false, false), s')
          || SameFacts(Advanced(s, c, receipt, true, true, true, false), s')
          || SameFacts(Advanced(s, c, receipt, true, true, true, true), s')
        else
          || SameFacts(s, s')
          || SameFacts(Advanced(s, c, receipt, false, false, true, false), s')
          || SameFacts(Advanced(s, c, receipt, false, false, true, true), s'))
  }

  /** The inbox only shrinks, receipts are write-once, saved results come from the inbox, and
      of everything published since `s` (and the last publication before) all but the newest
      has its own receipt. */
  ghost predicate Faithful(s: Store, s': Store) {
    && (forall name :: name in s'.inbox ==> name in s.inbox && s'.inbox[name] == s.inbox[name])
    && (forall name :: name in s.receipts ==> name in s'.receipts && s'.receipts[name] == s.receipts[name])
    && s'.inputs == s.inputs
    && (forall name :: name in s.results ==> name in s'.results)
    && (forall name :: name in s'.results ==>
          || (name in s.results && s'.results[name].value == s.results[name].value)
          || (name in s.inbox && s.inbox[name] == Verified(s'.results[name].value)))
    && s.log <= s'.log
    && (forall i :: |s.log| - 1 <= i < |s'.log| - 1 && 0 <= i ==> Acknowledged(s', s'.log[i].envelope))
  }

  ghost predicate Acknowledged(s: Store, envelope: Envelope) {
    envelope.result.id in s.receipts && s.receipts[envelope.result.id] == envelope.receipt
  }

  ghost predicate Keeps(s: Store, s': Store, now: Time) {
    Sound(s') && Outcome(s', now) == Outcome(s, now) && Faithful(s, s')
  }

  lemma FaithfulTransitive(s: Store, s': Store, s'': Store)
    requires Faithful(s, s') && Faithful(s', s'')
    ensures Faithful(s, s'')
  {
    forall i | |s.log| - 1 <= i < |s''.log| - 1 && 0 <= i ensures Acknowledged(s'', s''.log[i].envelope) {
      if i < |s'.log| - 1 {
        assert s''.log[i] == s'.log[i];
        assert Acknowledged(s', s'.log[i].envelope);
      }
    }
  }

  lemma SameFactsSound(s: Store, s': Store, now: Time)
    requires Sound(s) && SameFacts(s, s')
    requires forall name :: name in s'.results ==> s'.results[name].value.inputId in s'.inputs
    ensures Sound(s') && Outcome(s', now) == Outcome(s, now)
  {
    assert Candidates(s', now) == Candidates(s, now);
  }

  lemma SameFactsKeep(s: Store, s': Store, now: Time)
    requires Sound(s) && SameFacts(s, s') && s'.results == s.results
    ensures Keeps(s, s', now)
  {
    SameFactsSound(s, s', now);
  }

  lemma ChainExtended(published: seq<Candidate>, c: Candidate)
    requires Chain(published) && (published != [] ==> Precedes(published[|published| - 1], c))
    ensures Chain(published + [c])
  {
    forall i | 0 <= i < |published| ensures Precedes(published[i], c) {
      assert i < |published| - 1 ==> Precedes(published[i], published[|published| - 1]);
    }
  }

  lemma HonestAfterCommit(s: Store, envelope: Envelope, inputTime: Time)
    requires ReceiptsHonest(s)
    ensures ReceiptsHonest(Apply(s, Commit(envelope, inputTime)))
  {
    var log := s.log + [Publication(envelope, inputTime)];
    forall name | name in s.receipts && s.receipts[name].publishedAt.Some?
      ensures exists i ::
                0 <= i < |log| && log[i].envelope.result.id == name && log[i].envelope.receipt == s.receipts[name]
    {
      var i :| 0 <= i < |s.log| && s.log[i].envelope.result.id == name && s.log[i].envelope.receipt == s.receipts[name];
      assert log[i] == s.log[i];
    }
  }

  lemma CandidateAfter(
    s: Store, c: Candidate, receipt: Receipt, committed: bool, pointed: bool, acknowledged: bool, unlinked: bool,
    now: Time, name: Id)
    requires Next(s, c, receipt, now) && (committed || acknowledged)
    ensures IsCandidate(Advanced(s, c, receipt, committed, pointed, acknowledged, unlinked), name, now)
            <==> IsCandidate(s, name, now) && name != c.result.id
  {
  }

  lemma CandidatesAfter(
    s: Store, c: Candidate, receipt: Receipt, committed: bool, pointed: bool, acknowledged: bool, unlinked: bool,
    now: Time)
    requires Next(s, c, receipt, now) && (committed || acknowledged)
    ensures Candidates(Advanced(s, c, receipt, committed, pointed, acknowledged, unlinked), now)
         == Candidates(s, now) - {c.result.id}
  {
    var s' := Advanced(s, c, receipt, committed, pointed, acknowledged, unlinked);
    forall name ensures IsCandidate(s', name, now) <==> IsCandidate(s, name, now) && name != c.result.id {
      CandidateAfter(s, c, receipt, committed, pointed, acknowledged, unlinked, now, name);
    }
  }

  lemma PublishedAfter(s: Store, c: Candidate, receipt: Receipt)
    ensures Published(s.log + [Publication(Envelope(c.result, receipt), c.inputTime)]) == Published(s.log) + [c]
  {
  }

  lemma RecordOutcome(
    s: Store, c: Candidate, receipt: Receipt, pointed: bool, acknowledged: bool, unlinked: bool, now: Time)
    requires Next(s, c, receipt, now) && receipt.publishedAt.Some?
    ensures Outcome(Advanced(s, c, receipt, true, pointed, acknowledged, unlinked), now) == Outcome(s, now)
  {
    PublishedAfter(s, c, receipt);
    CandidatesAfter(s, c, receipt, true, pointed, acknowledged, unlinked, now);
    RecordsOfLeast(s, c.result.id, now, Last(Published(s.log)));
    OutcomeAfterRecord(Published(s.log), c, Candidates(s, now), Candidates(s, now) - {c.result.id});
  }

  lemma ArchiveOutcome(s: Store, c: Candidate, receipt: Receipt, unlinked: bool, now: Time)
    requires Next(s, c, receipt, now) && receipt.publishedAt.None?
    ensures Outcome(Advanced(s, c, receipt, false, false, true, unlinked), now) == Outcome(s, now)
  {
    CandidatesAfter(s, c, receipt, false, false, true, unlinked, now);
    RecordsOfLeast(s, c.result.id, now, Last(Published(s.log)));
  }

  lemma CommittedSound(s: Store, c: Candidate, receipt: Receipt, pointed: bool, now: Time)
    requires Sound(s) && Next(s, c, receipt, now) && receipt.publishedAt.Some?
    ensures Sound(Advanced(s, c, receipt, true, pointed, false, false))
  {
    PublishedAfter(s, c, receipt);
    ChainExtended(Published(s.log), c);
    HonestAfterCommit(s, Envelope(c.result, receipt), c.inputTime);
  }

  lemma AcknowledgedSound(s: Store, c: Candidate, receipt: Receipt, unlinked: bool, now: Time)
    requires Sound(s) && Next(s, c, receipt, now) && receipt.publishedAt.Some?
    ensures Sound(Advanced(s, c, receipt, true, true, true, unlinked))
  {
    CommittedSound(s, c, receipt, true, now);
    HonestAfterReceipt(Advanced(s, c, receipt, true, true, false, false));
  }

  lemma HonestAfterReceipt(s: Store)
    requires ReceiptsHonest(s) && LogMatches(s) && s.publication.Some?
    ensures ReceiptsHonest(s.(receipts := s.receipts[s.publication.value.result.id := s.publication.value.receipt]))
  {
    var last := s.log[|s.log| - 1];
    assert last.envelope == s.publication.value;
  }

  lemma ArchivedSound(s: Store, c: Candidate, receipt: Receipt, unlinked: bool, now: Time)
    requires Sound(s) && Next(s, c, receipt, now) && receipt.publishedAt.None?
    ensures Sound(Advanced(s, c, receipt, false, false, true, unlinked))
  {
  }

  lemma OutcomeAfterRecord(
    published: seq<Candidate>, c: Candidate, todo: map<Id, Candidate>, rest: map<Id, Candidate>)
    requires Records(Last(published), todo) == [c] + Records(Some(c), rest)
    ensures published + Records(Last(published), todo) == published + [c] + Records(Last(published + [c]), rest)
  {
  }

  lemma StageLog(s: Store, s': Store, c: Candidate, receipt: Receipt)
    requires Recoverable(s) && LogMatches(s) && Settled(s, s.current) && c.result.id !in s.receipts
    requires Stage(s, s', c, receipt)
    ensures s.log <= s'.log
    ensures forall i :: |s.log| - 1 <= i < |s'.log| - 1 && 0 <= i ==> Acknowledged(s', s'.log[i].envelope)
  {
    if s.log != [] && |s'.log| > |s.log| {
      assert s'.log[|s.log| - 1] == s.log[|s.log| - 1];
      assert Acknowledged(s, s.log[|s.log| - 1].envelope);
    }
  }

  lemma AdvancedFiles(
    s: Store, s': Store, c: Candidate, receipt: Receipt, committed: bool, pointed: bool, acknowledged: bool,
    unlinked: bool)
    requires SameFacts(Advanced(s, c, receipt, committed, pointed, acknowledged, unlinked), s')
    ensures s'.inputs == s.inputs && (s'.inbox == s.inbox || s'.inbox == s.inbox - {c.result.id})
    ensures s'.receipts == s.receipts || s'.receipts == s.receipts[c.result.id := receipt]
  {
  }

  lemma StageFiles(s: Store, s': Store, c: Candidate, receipt: Receipt)
    requires Stage(s, s', c, receipt)
    ensures s'.inputs == s.inputs && (s'.inbox == s.inbox || s'.inbox == s.inbox - {c.result.id})
    ensures s'.receipts == s.receipts || s'.receipts == s.receipts[c.result.id := receipt]
  {
    if SameFacts(s, s') {
    } else if receipt.publishedAt.Some? {
      if SameFacts(Advanced(s, c, receipt, true, false, false, false), s') {
        AdvancedFiles(s, s', c, receipt, true, false, false, false);
      } else if SameFacts(Advanced(s, c, receipt, true, true, false, false), s') {
        AdvancedFiles(s, s', c, receipt, true, true, false, false);
      } else if SameFacts(Advanced(s, c, receipt, true, true, true, false), s') {
        AdvancedFiles(s, s', c, receipt, true, true, true, false);
      } else {
        AdvancedFiles(s, s', c, receipt, true, true, true, true);
      }
    } else if SameFacts(Advanced(s, c, receipt, false, false, true, false), s') {
      AdvancedFiles(s, s', c, receipt, false, false, true, false);
    } else {
      AdvancedFiles(s, s', c, receipt, false, false, true, true);
    }
  }

  lemma StageFaithful(s: Store, s': Store, c: Candidate, receipt: Receipt)
    requires Recoverable(s) && LogMatches(s) && Settled(s, s.current) && c.result.id !in s.receipts
    requires c.result.id in s.inbox && s.inbox[c.result.id] == Verified(c.result)
    requires Stage(s, s', c, receipt)
    ensures Faithful(s, s')
  {
    assert ResultsFrom(s, s', c.result, receipt.acceptedAt);
    StageLog(s, s', c, receipt);
    StageFiles(s, s', c, receipt);
    LogAndFilesSuffice(s, s', c.result, receipt);
  }

  lemma LogAndFilesSuffice(s: Store, s': Store, result: AnalysisResult, receipt: Receipt)
    requires result.id !in s.receipts && result.id in s.inbox && s.inbox[result.id] == Verified(result)
    requires ResultsFrom(s, s', result, receipt.acceptedAt) && s.log <= s'.log
    requires forall i :: |s.log| - 1 <= i < |s'.log| - 1 && 0 <= i ==> Acknowledged(s', s'.log[i].envelope)
    requires s'.inputs == s.inputs && (s'.inbox == s.inbox || s'.inbox == s.inbox - {result.id})
    requires s'.receipts == s.receipts || s'.receipts == s.receipts[result.id := receipt]
    ensures Faithful(s, s')
  {
  }

  /** A store with the facts of a sound one that has the outcome. */
  lemma FromBase(s: Store, base: Store, s': Store, now: Time)
    requires Sound(base) && Outcome(base, now) == Outcome(s, now) && SameFacts(base, s') && Faithful(s, s')
    requires forall name :: name in s'.results ==> s'.results[name].value.inputId in s'.inputs
    ensures Keeps(s, s', now)
  {
    SameFactsSound(base, s', now);
  }

  lemma ResultsKeepInputs(s: Store, s': Store, result: AnalysisResult, at: Time)
    requires EvidenceKept(s) && ResultsFrom(s, s', result, at) && result.inputId in s.inputs && s'.inputs == s.inputs
    ensures forall name :: name in s'.results ==> s'.results[name].value.inputId in s'.inputs
  {
  }

  lemma RecordStageKeeps(s: Store, s': Store, c: Candidate, receipt: Receipt, now: Time)
    requires Sound(s) && Next(s, c, receipt, now) && Stage(s, s', c, receipt) && receipt.publishedAt.Some?
    requires Faithful(s, s') && !SameFacts(s, s')
    ensures Keeps(s, s', now)
  {
    var pointed := !SameFacts(Advanced(s, c, receipt, true, false, false, false), s');
    var acknowledged := pointed && !SameFacts(Advanced(s, c, receipt, true, true, false, false), s');
    var unlinked := acknowledged && !SameFacts(Advanced(s, c, receipt, true, true, true, false), s');
    var base := Advanced(s, c, receipt, true, pointed, acknowledged, unlinked);
    assert SameFacts(base, s');
    assert Sound(base) by {
      if acknowledged {
        AcknowledgedSound(s, c, receipt, unlinked, now);
      } else {
        CommittedSound(s, c, receipt, pointed, now);
      }
    }
    RecordOutcome(s, c, receipt, pointed, acknowledged, unlinked, now);
    ResultsKeepInputs(s, s', c.result, receipt.acceptedAt);
    FromBase(s, base, s', now);
  }

  lemma ArchiveStageKeeps(s: Store, s': Store, c: Candidate, receipt: Receipt, now: Time)
    requires Sound(s) && Next(s, c, receipt, now) && Stage(s, s', c, receipt) && receipt.publishedAt.None?
    requires Faithful(s, s') && !SameFacts(s, s')
    ensures Keeps(s, s', now)
  {
    var unlinked := !SameFacts(Advanced(s, c, receipt, false, false, true, false), s');
    var base := Advanced(s, c, receipt, false, false, true, unlinked);
    assert SameFacts(base, s');
    ArchivedSound(s, c, receipt, unlinked, now);
    ArchiveOutcome(s, c, receipt, unlinked, now);
    ResultsKeepInputs(s, s', c.result, receipt.acceptedAt);
    FromBase(s, base, s', now);
  }

  lemma StageKeeps(s: Store, s': Store, c: Candidate, receipt: Receipt, now: Time)
    requires Sound(s) && Next(s, c, receipt, now) && Stage(s, s', c, receipt)
    ensures Keeps(s, s', now)
  {
    StageFaithful(s, s', c, receipt);
    if SameFacts(s, s') {
      ResultsKeepInputs(s, s', c.result, receipt.acceptedAt);
      FromBase(s, s, s', now);
    } else if receipt.publishedAt.Some? {
      RecordStageKeeps(s, s', c, receipt, now);
    } else {
      ArchiveStageKeeps(s, s', c, receipt, now);
    }
  }

  // ----- the path of one file

  lemma {:induction false} DetailsPath(
    s: Store, existing: set<Id>, advice: seq<Advice>, receipt: Receipt, now: Time)
    ensures var steps := DetailSteps(existing, advice, receipt, now);
            Along(s, steps, x => SameFacts(s, x) && x.results == s.results)
    decreases |advice|
  {
    var good := x => SameFacts(s, x) && x.results == s.results;
    if advice == [] {
    } else if advice[0].id in existing {
      DetailsPath(s, existing, advice[1..], receipt, now);
    } else {
      var step := WriteDetail(Detail(advice[0], receipt), now);
      var existing' := existing + {advice[0].id};
      var rest := DetailSteps(existing', advice[1..], receipt, now);
      DetailsPath(Apply(s, step), existing', advice[1..], receipt, now);
      AlongMono(Apply(s, step), rest, x => SameFacts(Apply(s, step), x) && x.results == Apply(s, step).results, good);
      AlongStep(s, step, rest, good);
    }
  }

  lemma SavedStages(s: Store, c: Candidate, receipt: Receipt, now: Time)
    requires receipt.publishedAt.Some? && receipt.acceptedAt == now
    ensures var s1 := Apply(s, WriteResult(c.result.id, c.result, now));
            var s2 := Apply(s1, Commit(Envelope(c.result, receipt), c.inputTime));
            && Stage(s, s, c, receipt) && Stage(s, s1, c, receipt)
            && ResultsFrom(s, s2, c.result, now) && SameFacts(Advanced(s, c, receipt, true, false, false, false), s2)
  {
  }

  lemma CommittedStages(s: Store, s2: Store, x: Store, c: Candidate, receipt: Receipt)
    requires receipt.publishedAt.Some?
    requires ResultsFrom(s, s2, c.result, receipt.acceptedAt)
    requires SameFacts(Advanced(s, c, receipt, true, false, false, false), s2)
    requires SameFacts(s2, x) && x.results == s2.results
    ensures var y := Apply(x, WriteCurrent(c.result));
            && Stage(s, x, c, receipt) && Stage(s, y, c, receipt) && ResultsFrom(s, y, c.result, receipt.acceptedAt)
            && SameFacts(Advanced(s, c, receipt, true, true, false, false), y)
  {
  }

  /** Save, commit, details, pointer: the steps up to the receipt. */
  lemma PublishPath(s: Store, c: Candidate, receipt: Receipt, now: Time)
    requires receipt.publishedAt.Some? && receipt.resultId == c.result.id && receipt.acceptedAt == now
    ensures var steps := [WriteResult(c.result.id, c.result, now)]
                         + PublishSteps(s, c.result, receipt, c.inputTime, now);
            && Along(s, steps, x => Stage(s, x, c, receipt))
            && ResultsFrom(s, ApplyAll(s, steps), c.result, receipt.acceptedAt)
            && SameFacts(Advanced(s, c, receipt, true, true, false, false), ApplyAll(s, steps))
  {
    var good := x => Stage(s, x, c, receipt);
    var saved, commit := WriteResult(c.result.id, c.result, now), Commit(Envelope(c.result, receipt), c.inputTime);
    var details := DetailSteps(s.details.Keys, c.result.advice, receipt, now);
    var s1 := Apply(s, saved);
    var s2 := Apply(s1, commit);
    SavedStages(s, c, receipt, now);
    DetailsPath(s2, s.details.Keys, c.result.advice, receipt, now);
    var still := x => SameFacts(s2, x) && x.results == s2.results;
    AlongEnd(s2, details, still);
    forall x | still(x) ensures good(x) {
      CommittedStages(s, s2, x, c, receipt);
    }
    AlongMono(s2, details, still, good);
    CommittedStages(s, s2, ApplyAll(s2, details), c, receipt);
    AlongAppend(s2, details, WriteCurrent(c.result), good);
    AlongStep(s1, commit, details + [WriteCurrent(c.result)], good);
    AlongStep(s, saved, [commit] + (details + [WriteCurrent(c.result)]), good);
  }

  lemma TailFacts(s: Store, x: Store, c: Candidate, receipt: Receipt, published: bool)
    requires SameFacts(Advanced(s, c, receipt, published, published, false, false), x)
    ensures var y := Apply(x, WriteReceipt(c.result.id, receipt));
            && SameFacts(Advanced(s, c, receipt, published, published, true, false), y)
            && SameFacts(Advanced(s, c, receipt, published, published, true, true), Apply(y, RemoveInbox(c.result.id)))
  {
  }

  lemma TailStages(s: Store, x: Store, c: Candidate, receipt: Receipt)
    requires ResultsFrom(s, x, c.result, receipt.acceptedAt)
    requires var published := receipt.publishedAt.Some?;
             SameFacts(Advanced(s, c, receipt, published, published, false, false), x)
    ensures var y := Apply(x, WriteReceipt(c.result.id, receipt));
            var z := Apply(y, RemoveInbox(c.result.id));
            var published := receipt.publishedAt.Some?;
            && Stage(s, y, c, receipt) && Stage(s, z, c, receipt) && ResultsFrom(s, z, c.result, receipt.acceptedAt)
            && SameFacts(Advanced(s, c, receipt, published, published, true, true), z)
  {
    TailFacts(s, x, c, receipt, receipt.publishedAt.Some?);
  }

  lemma TailPath(s: Store, steps: seq<Step>, c: Candidate, receipt: Receipt)
    requires Along(s, steps, x => Stage(s, x, c, receipt))
             && ResultsFrom(s, ApplyAll(s, steps), c.result, receipt.acceptedAt)
    requires var published := receipt.publishedAt.Some?;
             SameFacts(Advanced(s, c, receipt, published, published, false, false), ApplyAll(s, steps))
    ensures var all := steps + [WriteReceipt(c.result.id, receipt), RemoveInbox(c.result.id)];
            var published := receipt.publishedAt.Some?;
            && Along(s, all, x => Stage(s, x, c, receipt))
            && ResultsFrom(s, ApplyAll(s, all), c.result, receipt.acceptedAt)
            && SameFacts(Advanced(s, c, receipt, published, published, true, true), ApplyAll(s, all))
  {
    var good := x => Stage(s, x, c, receipt);
    var acknowledge, unlink := WriteReceipt(c.result.id, receipt), RemoveInbox(c.result.id);
    TailStages(s, ApplyAll(s, steps), c, receipt);
    AlongAppend(s, steps, acknowledge, good);
    AlongAppend(s, steps + [acknowledge], unlink, good);
    assert steps + [acknowledge] + [unlink] == steps + [acknowledge, unlink];
  }

  ghost function ReceiptFor(s: Store, c: Candidate, now: Time): Receipt {
    Receipt(c.result.id, c.result.inputId, now,
            if s.log == [] || Precedes(Published(s.log)[|s.log| - 1], c) then Some(now) else None)
  }

  /** The call compares with the result it holds; that is the last one published. */
  lemma CandidateRun(s: Store, previous: Option<AnalysisResult>, name: Id, now: Time)
    requires Sound(s) && Settled(s, previous) && Least(s, name, now)
    ensures var run, c := ProcessFile(s, previous, name, now), Candidates(s, now)[name];
            var receipt := ReceiptFor(s, c, now);
            && c.result.id == name && Next(s, c, receipt, now)
            && run == Stretch(
              [WriteResult(name, c.result, now)]
              + ((if receipt.publishedAt.Some? then PublishSteps(s, c.result, receipt, c.inputTime, now) else [])
                 + [WriteReceipt(name, receipt), RemoveInbox(name)]),
              if receipt.publishedAt.Some? then Some(c.result) else previous, [name], [], false)
  {
  }

  /** A candidate's turn: every store on the way is at some stage, the last one at the end. */
  lemma CandidatePath(s: Store, previous: Option<AnalysisResult>, name: Id, now: Time)
    requires Sound(s) && Settled(s, previous) && Least(s, name, now)
    ensures var run, c := ProcessFile(s, previous, name, now), Candidates(s, now)[name];
            var receipt := ReceiptFor(s, c, now);
            var published := receipt.publishedAt.Some?;
            && Along(s, run.steps, x => Stage(s, x, c, receipt))
            && SameFacts(Advanced(s, c, receipt, published, published, true, true), ApplyAll(s, run.steps))
  {
    CandidateRun(s, previous, name, now);
    var run, c := ProcessFile(s, previous, name, now), Candidates(s, now)[name];
    var receipt := ReceiptFor(s, c, now);
    CandidateSteps(s, c, receipt, now);
    MiddleFirst([WriteResult(name, c.result, now)],
                if receipt.publishedAt.Some? then PublishSteps(s, c.result, receipt, c.inputTime, now) else [],
                [WriteReceipt(name, receipt), RemoveInbox(name)]);
  }

  lemma MiddleFirst(a: seq<Step>, b: seq<Step>, c: seq<Step>)
    ensures a + (b + c) == a + b + c
  {
  }

  lemma CandidateSteps(s: Store, c: Candidate, receipt: Receipt, now: Time)
    requires receipt.resultId == c.result.id && receipt.acceptedAt == now
    ensures var published := receipt.publishedAt.Some?;
            var steps := [WriteResult(c.result.id, c.result, now)]
                         + (if published then PublishSteps(s, c.result, receipt, c.inputTime, now) else [])
                         + [WriteReceipt(c.result.id, receipt), RemoveInbox(c.result.id)];
            && Along(s, steps, x => Stage(s, x, c, receipt))
            && SameFacts(Advanced(s, c, receipt, published, published, true, true), ApplyAll(s, steps))
  {
    var good := x => Stage(s, x, c, receipt);
    var saved := WriteResult(c.result.id, c.result, now);
    if receipt.publishedAt.Some? {
      PublishPath(s, c, receipt, now);
      TailPath(s, [saved] + PublishSteps(s, c.result, receipt, c.inputTime, now), c, receipt);
    } else {
      assert Along(Apply(s, saved), [], good);
      AlongStep(s, saved, [], good);
      TailPath(s, [saved] + [], c, receipt);
    }
  }

  // ----- the loop, the recovery and the whole call

  /** All that is still to do is among the names the loop has not reached. */
  ghost predicate Ahead(s: Store, names: seq<Id>, now: Time) {
    && (forall i, j :: 0 <= i < j < |names| ==> names[i] < names[j])
    && (forall name :: IsCandidate(s, name, now) ==> name in names)
  }

  lemma AheadShrinks(s: Store, s': Store, names: seq<Id>, now: Time)
    requires names != [] && Ahead(s, names, now) && !IsCandidate(s', names[0], now)
    requires forall name :: IsCandidate(s', name, now) ==> IsCandidate(s, name, now)
    ensures Ahead(s', names[1..], now)
  {
    forall name | IsCandidate(s', name, now) ensures name in names[1..] {
      var i :| 0 <= i < |names| && names[i] == name;
      assert names[1..][i - 1] == name;
    }
  }

  lemma CandidateTurn(s: Store, previous: Option<AnalysisResult>, names: seq<Id>, now: Time)
    requires names != [] && Sound(s) && Settled(s, previous) && Ahead(s, names, now) && IsCandidate(s, names[0], now)
    ensures var run := ProcessFile(s, previous, names[0], now);
            var s' := ApplyAll(s, run.steps);
            && !run.raised && Along(s, run.steps, x => Keeps(s, x, now))
            && Settled(s', run.previous) && Ahead(s', names[1..], now)
            && run.rejected == []
  {
    var run, c := ProcessFile(s, previous, names[0], now), Candidates(s, now)[names[0]];
    var receipt := ReceiptFor(s, c, now);
    CandidateRun(s, previous, names[0], now);
    CandidatePath(s, previous, names[0], now);
    forall x | Stage(s, x, c, receipt) ensures Keeps(s, x, now) {
      StageKeeps(s, x, c, receipt, now);
    }
    AlongMono(s, run.steps, x => Stage(s, x, c, receipt), x => Keeps(s, x, now));
    var s' := ApplyAll(s, run.steps);
    assert forall name :: IsCandidate(s', name, now) ==> IsCandidate(s, name, now) && name != names[0];
    AheadShrinks(s, s', names, now);
  }

  lemma DuplicateRun(s: Store, previous: Option<AnalysisResult>, name: Id, now: Time)
    requires name in s.receipts && !ProcessFile(s, previous, name, now).raised
    ensures ProcessFile(s, previous, name, now) == Stretch([RemoveInbox(name)], previous, [], [], false)
  {
  }

  lemma UnlinkSettled(s: Store, previous: Option<AnalysisResult>, name: Id, now: Time)
    requires Settled(s, previous) && name in s.receipts
    ensures var s' := Apply(s, RemoveInbox(name));
            && Settled(s', previous) && !IsCandidate(s', name, now)
            && forall other :: IsCandidate(s', other, now) ==> IsCandidate(s, other, now)
  {
  }

  /** A duplicate transfer is only unlinked. */
  lemma DuplicateTurn(s: Store, previous: Option<AnalysisResult>, names: seq<Id>, now: Time)
    requires names != [] && Sound(s) && Settled(s, previous) && Ahead(s, names, now) && names[0] in s.receipts
    requires !ProcessFile(s, previous, names[0], now).raised
    ensures var run := ProcessFile(s, previous, names[0], now);
            var s' := ApplyAll(s, run.steps);
            && Along(s, run.steps, x => Keeps(s, x, now))
            && Settled(s', run.previous) && Ahead(s', names[1..], now)
  {
    var good, unlink := x => Keeps(s, x, now), RemoveInbox(names[0]);
    var s' := Apply(s, unlink);
    DuplicateRun(s, previous, names[0], now);
    UnlinkSettled(s, previous, names[0], now);
    AheadShrinks(s, s', names, now);
    SameFactsKeep(s, s, now);
    UnlinkKeeps(s, names[0], now);
    OnlyStep(s, unlink, good);
  }

  lemma FileTurn(s: Store, previous: Option<AnalysisResult>, names: seq<Id>, now: Time)
    requires names != [] && Sound(s) && Settled(s, previous) && Ahead(s, names, now)
    ensures var run := ProcessFile(s, previous, names[0], now);
            var s' := ApplyAll(s, run.steps);
            && Along(s, run.steps, x => Keeps(s, x, now))
            && (!run.raised ==> Settled(s', run.previous) && Ahead(s', names[1..], now))
            && forall r :: r in run.rejected ==> r.reason != PreviousInputMissing
  {
    if IsCandidate(s, names[0], now) {
      CandidateTurn(s, previous, names, now);
    } else if names[0] in s.receipts && !ProcessFile(s, previous, names[0], now).raised {
      DuplicateTurn(s, previous, names, now);
    } else {
      UntouchedTurn(s, previous, names, now);
    }
  }

  /** A file that is rejected, or ends the call, changes nothing. */
  lemma UntouchedTurn(s: Store, previous: Option<AnalysisResult>, names: seq<Id>, now: Time)
    requires names != [] && Sound(s) && Settled(s, previous) && Ahead(s, names, now)
    requires !IsCandidate(s, names[0], now)
    requires names[0] in s.receipts ==> ProcessFile(s, previous, names[0], now).raised
    ensures var run := ProcessFile(s, previous, names[0], now);
            && run.steps == [] && run.previous == previous
            && Along(s, run.steps, x => Keeps(s, x, now)) && Ahead(s, names[1..], now)
            && forall r :: r in run.rejected ==> r.reason != PreviousInputMissing
  {
    SameFactsKeep(s, s, now);
    AheadShrinks(s, s, names, now);
  }

  lemma UnlinkSound(s: Store, name: Id)
    requires Sound(s) && name in s.receipts
    ensures Sound(Apply(s, RemoveInbox(name)))
  {
  }

  lemma UnlinkOutcome(s: Store, name: Id, now: Time)
    requires name in s.receipts
    ensures Outcome(Apply(s, RemoveInbox(name)), now) == Outcome(s, now)
  {
    assert Candidates(Apply(s, RemoveInbox(name)), now) == Candidates(s, now);
  }

  lemma UnlinkFaithful(s: Store, name: Id)
    ensures Faithful(s, Apply(s, RemoveInbox(name)))
  {
  }

  lemma UnlinkKeeps(s: Store, name: Id, now: Time)
    requires Sound(s) && name in s.receipts
    ensures Keeps(s, Apply(s, RemoveInbox(name)), now)
  {
    UnlinkSound(s, name);
    UnlinkOutcome(s, name, now);
    UnlinkFaithful(s, name);
  }

  lemma {:induction false} LoopPath(s: Store, previous: Option<AnalysisResult>, names: seq<Id>, now: Time)
    requires Sound(s) && Settled(s, previous) && Ahead(s, names, now)
    ensures var run := AcceptLoop(s, previous, names, now);
            && Along(s, run.steps, x => Keeps(s, x, now))
            && (!run.raised ==>
                  var end := ApplyAll(s, run.steps);
                  Settled(end, run.previous) && forall name :: !IsCandidate(end, name, now))
            && forall r :: r in run.rejected ==> r.reason != PreviousInputMissing
    decreases |names|
  {
    var good := x => Keeps(s, x, now);
    SameFactsKeep(s, s, now);
    if names != [] {
      var first := ProcessFile(s, previous, names[0], now);
      FileTurn(s, previous, names, now);
      if !first.raised {
        AlongEnd(s, first.steps, good);
        var s' := ApplyAll(s, first.steps);
        LoopPath(s', first.previous, names[1..], now);
        forall x | Keeps(s', x, now) ensures Keeps(s, x, now) {
          FaithfulTransitive(s, s', x);
        }
        var rest := AcceptLoop(s', first.previous, names[1..], now);
        AlongMono(s', rest.steps, x => Keeps(s', x, now), good);
        AlongConcat(s, first.steps, rest.steps, good);
        ApplyAllConcat(s, first.steps, rest.steps);
      }
    }
  }

  ghost predicate NeedsRecovery(s: Store) {
    s.publication.Some? && s.publication.value.result.id !in s.receipts
  }

  /** The store once recovery has written the receipt and the pointer. */
  ghost function Recovered(s: Store): Store {
    if NeedsRecovery(s) then
      var Envelope(result, receipt) := s.publication.value;
      s.(receipts := s.receipts[result.id := receipt], current := Some(result))
    else s
  }

  lemma RecoveredSound(s: Store)
    requires Sound(s) && NeedsRecovery(s)
    ensures Sound(Recovered(s))
  {
    HonestAfterReceipt(s);
  }

  lemma RecoveredFaithful(s: Store)
    requires NeedsRecovery(s)
    ensures Faithful(s, Recovered(s))
  {
  }

  lemma RecoveredCandidates(s: Store, now: Time)
    ensures forall name :: IsCandidate(Recovered(s), name, now) <==> IsCandidate(s, name, now)
    ensures Outcome(Recovered(s), now) == Outcome(s, now)
  {
    assert Candidates(Recovered(s), now) == Candidates(s, now);
  }

  lemma RecoveredSettled(s: Store)
    ensures Settled(Recovered(s), Recovered(s).current)
  {
  }

  lemma RecoveredKeeps(s: Store, now: Time)
    requires Sound(s)
    ensures Keeps(s, Recovered(s), now) && Settled(Recovered(s), Recovered(s).current)
    ensures forall name :: IsCandidate(Recovered(s), name, now) ==> name in s.inbox
  {
    RecoveredCandidates(s, now);
    RecoveredSettled(s);
    if NeedsRecovery(s) {
      RecoveredSound(s);
      RecoveredFaithful(s);
    } else {
      SameFactsKeep(s, s, now);
    }
  }

  /** Recovery, with its first two writes taken together. */
  lemma RecoveryPath(s: Store, now: Time)
    requires Sound(s)
    ensures var steps := RecoverySteps(s, now);
            var prefix := if NeedsRecovery(s) then 2 else 0;
            && prefix <= |steps| && ApplyAll(s, steps[..prefix]) == Recovered(s)
            && Along(Recovered(s), steps[prefix..], x => SameFacts(Recovered(s), x) && x.results == s.results)
            && ApplyAll(s, steps) == ApplyAll(Recovered(s), steps[prefix..])
  {
    var steps, prefix := RecoverySteps(s, now), if NeedsRecovery(s) then 2 else 0;
    if s.publication.Some? {
      RecoveryOpening(s, now);
    } else {
      assert Along(s, steps, x => SameFacts(s, x) && x.results == s.results);
    }
    ApplyAllConcat(s, steps[..prefix], steps[prefix..]);
    assert steps[..prefix] + steps[prefix..] == steps;
  }

  lemma RecoveryOpening(s: Store, now: Time)
    requires s.publication.Some?
    ensures var steps := RecoverySteps(s, now);
            var prefix := if NeedsRecovery(s) then 2 else 0;
            && prefix <= |steps| && ApplyAll(s, steps[..prefix]) == Recovered(s)
            && Along(Recovered(s), steps[prefix..], x => SameFacts(Recovered(s), x) && x.results == s.results)
  {
    var steps := RecoverySteps(s, now);
    var Envelope(result, receipt) := s.publication.value;
    var details := DetailSteps(s.details.Keys, result.advice, receipt, now);
    DetailsPath(Recovered(s), s.details.Keys, result.advice, receipt, now);
    if NeedsRecovery(s) {
      assert steps[..2] == [WriteReceipt(result.id, receipt), WriteCurrent(result)] && steps[2..] == details;
      ApplyTwo(s, WriteReceipt(result.id, receipt), WriteCurrent(result));
    } else {
      assert steps[0..] == steps == details;
    }
  }

  lemma LoopAfterRecovery(s: Store, now: Time)
    requires Sound(s)
    ensures forall r :: r in LoopOf(s, now).rejected ==> r.reason != PreviousInputMissing
    ensures var start := ApplyAll(s, RecoverySteps(s, now));
            var loop := LoopOf(s, now);
            && Keeps(s, start, now)
            && Along(start, loop.steps, x => Keeps(s, x, now))
            && (!loop.raised ==>
                  var end := ApplyAll(start, loop.steps);
                  && (end.publication.Some? ==> end.publication.value.result.id in end.receipts)
                  && forall name :: !IsCandidate(end, name, now))
  {
    var start := ApplyAll(s, RecoverySteps(s, now));
    var prefix := if NeedsRecovery(s) then 2 else 0;
    RecoveryPath(s, now);
    RecoveredKeeps(s, now);
    AlongEnd(Recovered(s), RecoverySteps(s, now)[prefix..], x => SameFacts(Recovered(s), x) && x.results == s.results);
    SameFactsKeep(Recovered(s), start, now);
    FaithfulTransitive(s, Recovered(s), start);
    var names := SortedIds(s.inbox.Keys);
    assert forall name :: IsCandidate(start, name, now) ==> IsCandidate(Recovered(s), name, now);
    LoopPath(start, start.current, names, now);
    forall x | Keeps(start, x, now) ensures Keeps(s, x, now) {
      FaithfulTransitive(s, start, x);
    }
    AlongMono(start, LoopOf(s, now).steps, x => Keeps(start, x, now), x => Keeps(s, x, now));
  }

  lemma ClosingPath(end: Store, status: AcceptStatus)
    ensures Along(end, ClosingSteps(end, status).steps, x => SameFacts(end, x) && x.results == end.results)
  {
    var good := x => SameFacts(end, x) && x.results == end.results;
    var list := WritePublicationList(PublicationsOf(end));
    assert Along(end, [], good);
    AlongAppend(end, [], WriteAcceptStatus(status), good);
    assert [] + [WriteAcceptStatus(status)] == [WriteAcceptStatus(status)];
    AlongAppend(end, [WriteAcceptStatus(status)], list, good);
    assert [WriteAcceptStatus(status)] + [list] == [WriteAcceptStatus(status), list];
  }

  lemma ClosingKeeps(s: Store, end: Store, status: AcceptStatus, now: Time)
    requires Sound(s) && Keeps(s, end, now)
    ensures Along(end, ClosingSteps(end, status).steps, x => Keeps(s, x, now))
  {
    ClosingPath(end, status);
    forall x | SameFacts(end, x) && x.results == end.results ensures Keeps(s, x, now) {
      SameFactsKeep(end, x, now);
      FaithfulTransitive(s, end, x);
    }
    AlongMono(end, ClosingSteps(end, status).steps,
              x => SameFacts(end, x) && x.results == end.results, x => Keeps(s, x, now));
  }

  ghost function PrefixOf(s: Store): nat {
    if NeedsRecovery(s) then 2 else 0
  }

  lemma RecoveryKeeps(s: Store, now: Time)
    requires Sound(s)
    ensures PrefixOf(s) <= |RecoverySteps(s, now)|
    ensures Along(Recovered(s), RecoverySteps(s, now)[PrefixOf(s)..], x => Keeps(s, x, now))
  {
    RecoveryPath(s, now);
    RecoveredKeeps(s, now);
    forall x | SameFacts(Recovered(s), x) && x.results == s.results ensures Keeps(s, x, now) {
      SameFactsKeep(Recovered(s), x, now);
      FaithfulTransitive(s, Recovered(s), x);
    }
    AlongMono(Recovered(s), RecoverySteps(s, now)[PrefixOf(s)..],
              x => SameFacts(Recovered(s), x) && x.results == s.results, x => Keeps(s, x, now));
  }

  /** The steps of the call after recovery's first writes, in their three stretches. */
  ghost function Remaining(s: Store, now: Time): (seq<Step>, seq<Step>, seq<Step>)
    requires PrefixOf(s) <= |RecoverySteps(s, now)|
  {
    var recovery, loop := RecoverySteps(s, now), LoopOf(s, now);
    var end := ApplyAll(ApplyAll(s, recovery), loop.steps);
    (recovery[PrefixOf(s)..], loop.steps,
     if loop.raised then [] else ClosingSteps(end, AcceptStatus(now, loop.accepted, loop.rejected)).steps)
  }

  lemma AcceptIsRemaining(s: Store, now: Time)
    requires !RaisesAtOnce(s) && PrefixOf(s) <= |RecoverySteps(s, now)|
    ensures var (a, b, c) := Remaining(s, now);
            && PrefixOf(s) <= |Accept(s, now).steps| && Accept(s, now).steps[PrefixOf(s)..] == a + b + c
            && Accept(s, now).steps[..PrefixOf(s)] == RecoverySteps(s, now)[..PrefixOf(s)]
  {
    AcceptInThree(s, now);
    var (a, b, c) := Remaining(s, now);
    SliceSum(RecoverySteps(s, now), b, c, PrefixOf(s));
  }

  lemma AcceptInThree(s: Store, now: Time)
    requires !RaisesAtOnce(s) && PrefixOf(s) <= |RecoverySteps(s, now)|
    ensures Accept(s, now).steps == RecoverySteps(s, now) + Remaining(s, now).1 + Remaining(s, now).2
  {
    var recovery, loop := RecoverySteps(s, now), LoopOf(s, now);
    if loop.raised {
      assert recovery + loop.steps + [] == recovery + loop.steps;
    }
  }

  lemma SliceSum<T>(a: seq<T>, b: seq<T>, c: seq<T>, p: nat)
    requires p <= |a|
    ensures (a + b + c)[p..] == a[p..] + b + c && (a + b + c)[..p] == a[..p]
  {
  }

  /** After the first two recovery writes, every store along the call keeps the outcome. */
  lemma AcceptPath(s: Store, now: Time)
    requires Sound(s) && !RaisesAtOnce(s)
    ensures var steps := Accept(s, now).steps;
            PrefixOf(s) <= |steps| && Along(Recovered(s), steps[PrefixOf(s)..], x => Keeps(s, x, now))
  {
    var good := x => Keeps(s, x, now);
    RecoveryPath(s, now);
    RecoveryKeeps(s, now);
    LoopAfterRecovery(s, now);
    var (a, b, c) := Remaining(s, now);
    var start := ApplyAll(s, RecoverySteps(s, now));
    var end := ApplyAll(start, b);
    AlongEnd(start, b, good);
    if c != [] {
      ClosingKeeps(s, end, AcceptStatus(now, LoopOf(s, now).accepted, LoopOf(s, now).rejected), now);
    }
    AlongThree(Recovered(s), a, b, c, good);
    AcceptIsRemaining(s, now);
  }

  /** The call stopped after `k` of its steps. */
  ghost function StoppedAfter(s: Store, now: Time, k: nat): Store {
    Stopped(s, Accept(s, now).steps, k)
  }

  /** The one bad place to stop: recovery has acknowledged the committed result, and the
      current pointer still names another one. */
  ghost predicate Strands(s: Store, now: Time, k: nat) {
    && k == 1 && NeedsRecovery(s) && !RaisesAtOnce(s)
    && s.current != Some(s.publication.value.result)
  }

  lemma AcceptOpening(s: Store, now: Time)
    requires Sound(s) && !RaisesAtOnce(s)
    ensures var steps := Accept(s, now).steps;
            && PrefixOf(s) <= |steps| && ApplyAll(s, steps[..PrefixOf(s)]) == Recovered(s)
            && (NeedsRecovery(s) ==>
                  steps[0] == WriteReceipt(s.publication.value.result.id, s.publication.value.receipt))
  {
    RecoveryPath(s, now);
    AcceptIsRemaining(s, now);
    var steps := Accept(s, now).steps;
    if NeedsRecovery(s) {
      assert steps[0] == steps[..2][0] == RecoverySteps(s, now)[..2][0];
    }
  }

  /** Past the first two writes of the recovery. */
  lemma StoppedLate(s: Store, now: Time, k: nat)
    requires Sound(s) && !RaisesAtOnce(s) && k >= PrefixOf(s)
    ensures Keeps(s, StoppedAfter(s, now, k), now)
  {
    var good := x => Keeps(s, x, now);
    assert good(StoppedAfter(s, now, k)) by {
      AcceptPath(s, now);
      AcceptOpening(s, now);
      AlongStopped(s, Accept(s, now).steps, PrefixOf(s), k, good);
    }
  }

  lemma FirstWrite(s: Store, now: Time)
    requires Sound(s) && !RaisesAtOnce(s) && NeedsRecovery(s)
    ensures StoppedAfter(s, now, 1)
            == Apply(s, WriteReceipt(s.publication.value.result.id, s.publication.value.receipt))
  {
    AcceptOpening(s, now);
    ApplyOne(s, Accept(s, now).steps);
  }

  /** Between those two writes. */
  lemma StoppedBetween(s: Store, now: Time)
    requires Sound(s) && NeedsRecovery(s)
    ensures var s' := Apply(s, WriteReceipt(s.publication.value.result.id, s.publication.value.receipt));
            Keeps(s, s', now) <==> s.current == Some(s.publication.value.result)
  {
    var s' := Apply(s, WriteReceipt(s.publication.value.result.id, s.publication.value.receipt));
    if s.current == Some(s.publication.value.result) {
      assert s' == Recovered(s);
      RecoveredKeeps(s, now);
    } else {
      assert !Recoverable(s');
    }
  }

  /** Stopping a call after any number of steps keeps the directory sound, the outcome and
      everything already acknowledged, if and only if it does not strand the pointer. */
  lemma CrashSafeIff(s: Store, now: Time, k: nat)
    requires Sound(s)
    ensures Keeps(s, StoppedAfter(s, now, k), now) <==> !Strands(s, now, k)
  {
    if RaisesAtOnce(s) || k == 0 {
      SameFactsKeep(s, s, now);
    } else if k >= PrefixOf(s) {
      StoppedLate(s, now, k);
    } else {
      FirstWrite(s, now);
      StoppedBetween(s, now);
    }
  }

  // ----- runs with crashes and restarts

  /** The store when the loop is over, before the two closing files. */
  ghost function AfterLoop(s: Store, now: Time): Store {
    ApplyAll(ApplyAll(s, RecoverySteps(s, now)), LoopOf(s, now).steps)
  }

  ghost function Finished(s: Store, now: Time): Store {
    ApplyAll(s, Accept(s, now).steps)
  }

  lemma ClosingChangesNoFacts(s: Store, now: Time)
    requires Accept(s, now).completed
    ensures SameFacts(AfterLoop(s, now), Finished(s, now)) && !LoopOf(s, now).raised
  {
    var recovery, loop := RecoverySteps(s, now), LoopOf(s, now);
    var status := AcceptStatus(now, loop.accepted, loop.rejected);
    var before := AfterLoop(s, now);
    var closing := ClosingSteps(before, status).steps;
    ClosingPath(before, status);
    AlongEnd(before, closing, x => SameFacts(before, x) && x.results == before.results);
    ApplyAllThree(s, recovery, loop.steps, closing);
  }

  /** No candidate is left and nothing awaits recovery. */
  ghost predicate NothingToDo(end: Store, now: Time) {
    && (forall name :: !IsCandidate(end, name, now))
    && (end.publication.Some? ==> end.publication.value.result.id in end.receipts)
  }

  lemma NothingLeft(s: Store, now: Time)
    requires Sound(s) && Accept(s, now).completed
    ensures NothingToDo(Finished(s, now), now)
  {
    LoopAfterRecovery(s, now);
    ClosingChangesNoFacts(s, now);
    assert forall name :: IsCandidate(Finished(s, now), name, now) ==> IsCandidate(AfterLoop(s, now), name, now);
  }

  lemma OutcomeWhenDone(end: Store, now: Time)
    requires Sound(end) && NothingToDo(end, now)
    ensures Published(end.log) == Outcome(end, now)
    ensures end.log != [] ==> Acknowledged(end, end.log[|end.log| - 1].envelope)
  {
    assert Candidates(end, now) == map[];
    assert Published(end.log) + [] == Published(end.log);
  }

  lemma FinishedIsStopped(s: Store, now: Time)
    requires Sound(s) && Accept(s, now).completed
    ensures Keeps(s, Finished(s, now), now)
  {
    StoppedLate(s, now, |Accept(s, now).steps| + 2);
  }

  /** What a call that came to its end leaves behind. */
  ghost predicate Done(s: Store, end: Store, now: Time) {
    && Keeps(s, end, now) && Published(end.log) == Outcome(s, now)
    && (end.log != [] ==> Acknowledged(end, end.log[|end.log| - 1].envelope))
  }

  lemma KeptAndNothingLeft(s: Store, end: Store, now: Time)
    requires Keeps(s, end, now) && NothingToDo(end, now)
    ensures Done(s, end, now)
  {
    OutcomeWhenDone(end, now);
  }

  /** A call that comes to its end publishes exactly the outcome and leaves no candidate. */
  lemma CompletedRun(s: Store, now: Time)
    requires Sound(s) && Accept(s, now).completed
    ensures Done(s, Finished(s, now), now) && NothingToDo(Finished(s, now), now)
  {
    FinishedIsStopped(s, now);
    NothingLeft(s, now);
    KeptAndNothingLeft(s, Finished(s, now), now);
  }

  /** No file of the inbox is turned away for its date alone, so verdicts do not change later. */
  ghost predicate NoFutureFile(s: Store, from: Time) {
    forall name :: name in s.inbox ==> FileProblem(name, s.inbox[name], s.inputs, from) != Some(FutureResult)
  }

  lemma VerdictFixed(name: Id, file: InboxFile, inputs: map<Id, Aged<InputSnapshot>>, from: Time, now: Time)
    requires from <= now && FileProblem(name, file, inputs, from) != Some(FutureResult)
    ensures FileProblem(name, file, inputs, now) == FileProblem(name, file, inputs, from)
  {
  }

  lemma OutcomeFixed(s: Store, from: Time, now: Time)
    requires from <= now && NoFutureFile(s, from)
    ensures Outcome(s, now) == Outcome(s, from)
  {
    forall name | name in s.inbox
      ensures IsCandidate(s, name, now) <==> IsCandidate(s, name, from)
    {
      VerdictFixed(name, s.inbox[name], s.inputs, from, now);
    }
    assert Candidates(s, now) == Candidates(s, from);
  }

  /** One call: when it was made, and after how many steps it was stopped. */
  datatype Attempt = Attempt(now: Time, done: nat)

  ghost function AfterAttempts(s: Store, attempts: seq<Attempt>): Store
    decreases |attempts|
  {
    if attempts == [] then s
    else AfterAttempts(StoppedAfter(s, attempts[0].now, attempts[0].done), attempts[1..])
  }

  ghost predicate NoneStrands(s: Store, attempts: seq<Attempt>)
    decreases |attempts|
  {
    attempts == [] ||
    (!Strands(s, attempts[0].now, attempts[0].done)
     && NoneStrands(StoppedAfter(s, attempts[0].now, attempts[0].done), attempts[1..]))
  }

  /** A relation that every attempt satisfies, that is reflexive and transitive, holds of a run. */
  lemma {:induction false} RunRelates(
    s: Store, attempts: seq<Attempt>, from: Time, good: Store -> bool, related: (Store, Store) -> bool)
    requires good(s) && NoneStrands(s, attempts) && StartedBy(attempts, from)
    requires forall x :: good(x) ==> related(x, x)
    requires forall x, y, z :: related(x, y) && related(y, z) ==> related(x, z)
    requires forall x, a: Attempt :: good(x) && from <= a.now && !Strands(x, a.now, a.done) ==>
               related(x, StoppedAfter(x, a.now, a.done)) && good(StoppedAfter(x, a.now, a.done))
    ensures related(s, AfterAttempts(s, attempts)) && good(AfterAttempts(s, attempts))
    decreases |attempts|
  {
    if attempts != [] {
      RunRelates(StoppedAfter(s, attempts[0].now, attempts[0].done), attempts[1..], from, good, related);
    }
  }

  lemma AttemptsKeep(s: Store, attempts: seq<Attempt>, from: Time)
    requires Sound(s) && NoFutureFile(s, from) && NoneStrands(s, attempts)
    requires StartedBy(attempts, from)
    ensures var end := AfterAttempts(s, attempts);
            Keeps(s, end, from) && NoFutureFile(end, from)
  {
    forall x | Sound(x) && NoFutureFile(x, from) ensures Keeps(x, x, from) {
      SameFactsKeep(x, x, from);
    }
    forall x, y, z | Keeps(x, y, from) && Keeps(y, z, from) ensures Keeps(x, z, from) {
      KeepsTransitive(x, y, z, from);
    }
    forall x, a: Attempt | Sound(x) && NoFutureFile(x, from) && from <= a.now && !Strands(x, a.now, a.done)
      ensures Keeps(x, StoppedAfter(x, a.now, a.done), from)
      ensures NoFutureFile(StoppedAfter(x, a.now, a.done), from)
    {
      AttemptKeeps(x, a.now, a.done, from);
    }
    RunRelates(s, attempts, from, x => Sound(x) && NoFutureFile(x, from), (x, y) => Keeps(x, y, from));
  }

  lemma KeepsTransitive(s: Store, s': Store, s'': Store, now: Time)
    requires Keeps(s, s', now) && Keeps(s', s'', now)
    ensures Keeps(s, s'', now)
  {
    FaithfulTransitive(s, s', s'');
  }

  lemma AttemptKeeps(s: Store, now: Time, done: nat, from: Time)
    requires Sound(s) && NoFutureFile(s, from) && !Strands(s, now, done) && from <= now
    ensures Keeps(s, StoppedAfter(s, now, done), from) && NoFutureFile(StoppedAfter(s, now, done), from)
  {
    var s' := StoppedAfter(s, now, done);
    CrashSafeIff(s, now, done);
    StillNoFuture(s, s', from);
    OutcomeFixed(s, from, now);
    OutcomeFixed(s', from, now);
  }

  lemma StillNoFuture(s: Store, s': Store, from: Time)
    requires Faithful(s, s') && NoFutureFile(s, from)
    ensures NoFutureFile(s', from)
  {
  }

  ghost predicate AllAcknowledged(s: Store, end: Store) {
    forall i :: |s.log| <= i < |end.log| ==> Acknowledged(end, end.log[i].envelope)
  }

  lemma NewAcknowledged(s: Store, end: Store)
    requires Faithful(s, end) && (end.log != [] ==> Acknowledged(end, end.log[|end.log| - 1].envelope))
    ensures AllAcknowledged(s, end)
  {
  }

  lemma DoneAfter(s: Store, crashed: Store, end: Store, now: Time)
    requires Faithful(s, crashed) && Done(crashed, end, now)
    ensures Chain(Published(end.log)) && AllAcknowledged(s, end)
  {
    FaithfulTransitive(s, crashed, end);
    NewAcknowledged(s, end);
  }

  lemma PublishesOutcome(s: Store, now: Time)
    requires Sound(s) && Accept(s, now).completed
    ensures Published(Finished(s, now).log) == Outcome(s, now)
  {
    CompletedRun(s, now);
  }

  lemma CompletesAfter(s: Store, crashed: Store, now: Time)
    requires Sound(crashed) && Faithful(s, crashed) && Accept(crashed, now).completed
    ensures var end := Finished(crashed, now);
            Published(end.log) == Outcome(crashed, now) && Chain(Published(end.log)) && AllAcknowledged(s, end)
  {
    CompletedRun(crashed, now);
    DoneAfter(s, crashed, Finished(crashed, now), now);
  }

  ghost predicate StartedBy(attempts: seq<Attempt>, from: Time) {
    forall i :: 0 <= i < |attempts| ==> from <= attempts[i].now
  }

  lemma AfterCrashes(s: Store, attempts: seq<Attempt>, from: Time, last: Time)
    requires Sound(s) && NoFutureFile(s, from) && NoneStrands(s, attempts)
    requires from <= last && StartedBy(attempts, from)
    ensures var crashed := AfterAttempts(s, attempts);
            Sound(crashed) && Faithful(s, crashed) && Outcome(crashed, last) == Outcome(s, from)
  {
    AttemptsKeep(s, attempts, from);
    OutcomeFixed(AfterAttempts(s, attempts), from, last);
  }

  /** Crash transparency. Any number of calls stopped anywhere but at the stranding point,
      followed by one that completes, publish the same results in the same order as a single
      uninterrupted call; in that order result times strictly increase and input times never
      decrease; and every newly published result has one publication time, its receipt's. */
  lemma CrashTransparent(s: Store, attempts: seq<Attempt>, from: Time, last: Time)
    requires Sound(s) && NoFutureFile(s, from) && NoneStrands(s, attempts)
    requires from <= last && forall i :: 0 <= i < |attempts| ==> from <= attempts[i].now
    requires Accept(s, from).completed && Accept(AfterAttempts(s, attempts), last).completed
    ensures var crashed := AfterAttempts(s, attempts);
            var end := Finished(crashed, last);
            && Published(end.log) == Published(Finished(s, from).log)
            && Chain(Published(end.log))
            && forall i :: |s.log| <= i < |end.log| ==> Acknowledged(end, end.log[i].envelope)
  {
    AfterCrashes(s, attempts, from, last);
    PublishesOutcome(s, from);
    CompletesAfter(s, AfterAttempts(s, attempts), last);
  }
}
