/** What one turn of the accept loop, the recovery and the closing files leave in the directory, said
    of the files themselves. */
module TurnEffect {
  import opened Contracts
  import opened Store
  import opened Acceptance
  import opened Pipeline
  import opened CrashTransparency
  import opened LoopOrder

  // ----- details

  ghost predicate AddsDetail(
    after: map<Id, Aged<Detail>>, advice: seq<Advice>, receipt: Receipt, now: Time, id: Id, i: int)
  {
    && 0 <= i < |advice| && advice[i].id == id && (forall j :: 0 <= j < i ==> advice[j].id != id)
    && id in after && after[id] == Aged(Detail(advice[i], receipt), now)
  }

  ghost predicate NamesDetail(advice: seq<Advice>, id: Id) {
    exists i :: 0 <= i < |advice| && advice[i].id == id
  }

  /** Details are immutable: those there stay, and each missing one is written from its first item. */
  ghost predicate DetailsAdded(
    before: map<Id, Aged<Detail>>, after: map<Id, Aged<Detail>>, advice: seq<Advice>, receipt: Receipt, now: Time)
  {
    && (forall id :: id in before ==> id in after && after[id] == before[id])
    && (forall id :: id in after <==> id in before || NamesDetail(advice, id))
    && (forall id :: id in after && id !in before ==> exists i :: AddsDetail(after, advice, receipt, now, id, i))
  }

  /** The first item is there already, or written first. */
  lemma DetailsHead(
    before: map<Id, Aged<Detail>>, after: map<Id, Aged<Detail>>, advice: seq<Advice>, receipt: Receipt, now: Time)
    requires advice != []
    requires var first := if advice[0].id in before then before
                          else before[advice[0].id := Aged(Detail(advice[0], receipt), now)];
             DetailsAdded(first, after, advice[1..], receipt, now)
    ensures DetailsAdded(before, after, advice, receipt, now)
  {
    var rest := advice[1..];
    forall id ensures NamesDetail(advice, id) <==> advice[0].id == id || NamesDetail(rest, id) {
      if i :| 0 <= i < |rest| && rest[i].id == id {
        assert advice[i + 1].id == id;
      }
      if i :| 0 < i < |advice| && advice[i].id == id {
        assert rest[i - 1].id == id;
      }
    }
    forall id | id in after && id !in before ensures exists i :: AddsDetail(after, advice, receipt, now, id, i) {
      if id == advice[0].id {
        assert AddsDetail(after, advice, receipt, now, id, 0);
      } else {
        var i :| AddsDetail(after, rest, receipt, now, id, i);
        assert forall j :: 0 < j < i + 1 ==> advice[j] == rest[j - 1];
        assert AddsDetail(after, advice, receipt, now, id, i + 1);
      }
    }
  }

  lemma {:induction false} DetailStepsMean(s: Store, advice: seq<Advice>, receipt: Receipt, now: Time)
    ensures var s' := ApplyAll(s, DetailSteps(s.details.Keys, advice, receipt, now));
            s' == s.(details := s'.details) && DetailsAdded(s.details, s'.details, advice, receipt, now)
    decreases |advice|
  {
    if advice != [] {
      if advice[0].id in s.details {
        DetailStepsMean(s, advice[1..], receipt, now);
        DetailsHead(s.details, ApplyAll(s, DetailSteps(s.details.Keys, advice[1..], receipt, now)).details,
                    advice, receipt, now);
      } else {
        var step := WriteDetail(Detail(advice[0], receipt), now);
        var s1 := Apply(s, step);
        assert s1.details.Keys == s.details.Keys + {advice[0].id};
        var rest := DetailSteps(s1.details.Keys, advice[1..], receipt, now);
        DetailStepsMean(s1, advice[1..], receipt, now);
        assert ([step] + rest)[1..] == rest;
        DetailsHead(s.details, ApplyAll(s1, rest).details, advice, receipt, now);
      }
    }
  }

  // ----- one file

  /** The result may be published: nothing is held, or it is newer on an input no older. */
  ghost predicate MayPublish(s: Store, previous: Option<AnalysisResult>, result: AnalysisResult)
    requires result.inputId in s.inputs && (previous.Some? ==> previous.value.inputId in s.inputs)
  {
    previous.Some? ==>
      && previous.value.generatedAt < result.generatedAt
      && s.inputs[previous.value.inputId].value.generatedAt <= s.inputs[result.inputId].value.generatedAt
  }

  /** What a turn reports, and what it then holds. */
  ghost predicate Tells(
    run: Stretch, held: Option<AnalysisResult>, accepted: seq<Id>, rejected: seq<Rejection>, raised: bool)
  {
    run.previous == held && run.accepted == accepted && run.rejected == rejected && run.raised == raised
  }

  /** A sanctioned file is saved, acknowledged and unlinked, and published if it may be. */
  ghost predicate TakesFile(s: Store, s': Store, run: Stretch, previous: Option<AnalysisResult>, name: Id, now: Time)
    requires name in s.inbox && Sanctioned(name, s.inbox[name], s.inputs, now)
    requires previous.Some? ==> previous.value.inputId in s.inputs
  {
    var result := s.inbox[name].result;
    var saved := s.results[name := Aged(result, now)];
    if MayPublish(s, previous, result) then
      var receipt := Receipt(name, result.inputId, now, Some(now));
      && s' == s.(results := saved, publication := Some(Envelope(result, receipt)),
                  log := s.log + [Publication(Envelope(result, receipt), s.inputs[result.inputId].value.generatedAt)],
                  current := Some(result), receipts := s.receipts[name := receipt], inbox := s.inbox - {name},
                  details := s'.details)
      && DetailsAdded(s.details, s'.details, result.advice, receipt, now)
      && Tells(run, Some(result), [name], [], false)
    else
      && s' == s.(results := saved, receipts := s.receipts[name := Receipt(name, result.inputId, now, None)],
                  inbox := s.inbox - {name})
      && Tells(run, previous, [name], [], false)
  }

  /** One turn. A duplicate is unlinked, or ends the call if it does not read back; a file that is not
      sanctioned changes nothing; one whose predecessor's input is gone is only saved. */
  ghost predicate TurnOf(s: Store, s': Store, run: Stretch, previous: Option<AnalysisResult>, name: Id, now: Time)
    requires name in s.inbox
  {
    var file := s.inbox[name];
    if name in s.receipts then
      if file.Verified? && file.result.id == name then
        s' == s.(inbox := s.inbox - {name}) && Tells(run, previous, [], [], false)
      else s' == s && Tells(run, previous, [], [], true)
    else if !Sanctioned(name, file, s.inputs, now) then
      && s' == s
      && exists reason :: TurnedAwayFor(reason, name, file, s.inputs, now)
                          && Tells(run, previous, [], [Rejection(name, reason)], false)
    else if previous.Some? && previous.value.inputId !in s.inputs then
      && s' == s.(results := s.results[name := Aged(file.result, now)])
      && Tells(run, previous, [], [Rejection(name, PreviousInputMissing)], false)
    else TakesFile(s, s', run, previous, name, now)
  }

  lemma LastThree(s: Store, a: Step, b: Step, c: Step)
    ensures ApplyAll(s, [a, b, c]) == Apply(Apply(Apply(s, a), b), c)
  {
    assert [a, b, c] == [a] + [b, c] && [a][1..] == [];
    ApplyAllConcat(s, [a], [b, c]);
    ApplyTwo(Apply(s, a), b, c);
  }

  lemma ArchiveMeans(s: Store, result: AnalysisResult, receipt: Receipt, now: Time)
    ensures ApplyAll(s, [WriteResult(receipt.resultId, result, now)]
                        + ([] + [WriteReceipt(receipt.resultId, receipt), RemoveInbox(receipt.resultId)]))
         == s.(results := s.results[receipt.resultId := Aged(result, now)],
               receipts := s.receipts[receipt.resultId := receipt], inbox := s.inbox - {receipt.resultId})
  {
    var save, write, unlink :=
      WriteResult(receipt.resultId, result, now), WriteReceipt(receipt.resultId, receipt),
        RemoveInbox(receipt.resultId);
    NoMiddle(save, write, unlink);
    LastThree(s, save, write, unlink);
  }

  lemma NoMiddle(a: Step, b: Step, c: Step)
    ensures [a] + ([] + [b, c]) == [a, b, c]
  {
  }

  /** The store after save and commit. */
  ghost function Committed(
    s: Store, result: AnalysisResult, receipt: Receipt, inputTime: Time, now: Time): Store
  {
    Apply(Apply(s, WriteResult(receipt.resultId, result, now)), Commit(Envelope(result, receipt), inputTime))
  }

  /** The store a publication leaves, with these details. */
  ghost function PublishedStore(
    s: Store, result: AnalysisResult, receipt: Receipt, inputTime: Time, now: Time, details: map<Id,
    Aged<Detail>>): Store
  {
    s.(results := s.results[receipt.resultId := Aged(result, now)],
       publication := Some(Envelope(result, receipt)),
       log := s.log + [Publication(Envelope(result, receipt), inputTime)], current := Some(result),
       receipts := s.receipts[receipt.resultId := receipt], inbox := s.inbox - {receipt.resultId}, details := details)
  }

  lemma Finish(s: Store, x: Store, result: AnalysisResult, receipt: Receipt, inputTime: Time, now: Time)
    requires x == Committed(s, result, receipt, inputTime, now).(details := x.details)
    ensures ApplyAll(x, [WriteCurrent(result), WriteReceipt(receipt.resultId, receipt), RemoveInbox(receipt.resultId)])
         == PublishedStore(s, result, receipt, inputTime, now, x.details)
  {
    LastThree(x, WriteCurrent(result), WriteReceipt(receipt.resultId, receipt), RemoveInbox(receipt.resultId));
  }

  lemma Regrouped(save: Step, commit: Step, details: seq<Step>, point: Step, write: Step, unlink: Step)
    ensures [save] + (([commit] + (details + [point])) + [write, unlink])
         == [save, commit] + details + [point, write, unlink]
  {
  }

  lemma PublishMeans(s: Store, result: AnalysisResult, receipt: Receipt, inputTime: Time, now: Time)
    ensures var steps := [WriteResult(receipt.resultId, result, now)]
                         + (PublishSteps(s, result, receipt, inputTime, now)
                            + [WriteReceipt(receipt.resultId, receipt), RemoveInbox(receipt.resultId)]);
            var s' := ApplyAll(s, steps);
            && s' == PublishedStore(s, result, receipt, inputTime, now, s'.details)
            && DetailsAdded(s.details, s'.details, result.advice, receipt, now)
  {
    var save, commit := WriteResult(receipt.resultId, result, now), Commit(Envelope(result, receipt), inputTime);
    var details := DetailSteps(s.details.Keys, result.advice, receipt, now);
    var point, write, unlink := WriteCurrent(result), WriteReceipt(receipt.resultId, receipt),
      RemoveInbox(receipt.resultId);
    var s2 := Committed(s, result, receipt, inputTime, now);
    Regrouped(save, commit, details, point, write, unlink);
    ApplyAllThree(s, [save, commit], details, [point, write, unlink]);
    ApplyTwo(s, save, commit);
    DetailStepsMean(s2, result.advice, receipt, now);
    Finish(s, ApplyAll(s2, details), result, receipt, inputTime, now);
  }

  lemma OneStep(s: Store, step: Step)
    ensures ApplyAll(s, [step]) == Apply(s, step)
  {
    assert [step][..1] == [step];
    ApplyOne(s, [step]);
  }

  lemma SanctionedTurn(s: Store, previous: Option<AnalysisResult>, name: Id, now: Time)
    requires name in s.inbox && name !in s.receipts && Sanctioned(name, s.inbox[name], s.inputs, now)
    requires previous.Some? ==> previous.value.inputId in s.inputs
    ensures var run := ProcessFile(s, previous, name, now);
            TakesFile(s, ApplyAll(s, run.steps), run, previous, name, now)
  {
    var result := s.inbox[name].result;
    var inputTime := s.inputs[result.inputId].value.generatedAt;
    assert FileProblem(name, s.inbox[name], s.inputs, now).None?;
    if MayPublish(s, previous, result) {
      PublishMeans(s, result, Receipt(name, result.inputId, now, Some(now)), inputTime, now);
    } else {
      ArchiveMeans(s, result, Receipt(name, result.inputId, now, None), now);
    }
  }

  lemma TurnMeans(s: Store, previous: Option<AnalysisResult>, name: Id, now: Time)
    requires name in s.inbox
    ensures var run := ProcessFile(s, previous, name, now);
            TurnOf(s, ApplyAll(s, run.steps), run, previous, name, now)
  {
    var file, run := s.inbox[name], ProcessFile(s, previous, name, now);
    if name in s.receipts {
      OneStep(s, RemoveInbox(name));
    } else if Sanctioned(name, file, s.inputs, now) {
      if previous.Some? && previous.value.inputId !in s.inputs {
        OneStep(s, WriteResult(name, file.result, now));
      } else {
        SanctionedTurn(s, previous, name, now);
      }
    } else {
      var problem := FileProblem(name, file, s.inputs, now);
      assert Tells(run, previous, [], [Rejection(name, problem.value)], false);
    }
  }

  /** A turn is judged by what it reports, not by its steps. */
  lemma TurnWithoutSteps(
    s: Store, s': Store, run: Stretch, previous: Option<AnalysisResult>, name: Id, now: Time)
    requires name in s.inbox && TurnOf(s, s', run, previous, name, now)
    ensures TurnOf(s, s', run.(steps := []), previous, name, now)
  {
    var told := run.(steps := []);
    forall held, accepted, rejected, raised ensures Tells(run, held, accepted, rejected, raised)
                                                    ==> Tells(told, held, accepted, rejected, raised) {
    }
  }

  // ----- the recovery

  /** An unacknowledged publication gets its receipt and the pointer; its missing details are written. */
  ghost predicate RecoveryOf(s: Store, s': Store, now: Time) {
    match s.publication
    case None => s' == s
    case Some(Envelope(result, receipt)) =>
      && (if result.id in s.receipts then s' == s.(details := s'.details)
          else s' == s.(receipts := s.receipts[result.id := receipt], current := Some(result), details := s'.details))
      && DetailsAdded(s.details, s'.details, result.advice, receipt, now)
  }

  lemma RecoveryMeans(s: Store, now: Time)
    ensures RecoveryOf(s, ApplyAll(s, RecoverySteps(s, now)), now)
  {
    if s.publication.Some? {
      var Envelope(result, receipt) := s.publication.value;
      var details := DetailSteps(s.details.Keys, result.advice, receipt, now);
      if result.id in s.receipts {
        assert [] + details == details;
        DetailStepsMean(s, result.advice, receipt, now);
      } else {
        var write, point := WriteReceipt(result.id, receipt), WriteCurrent(result);
        ApplyAllConcat(s, [write, point], details);
        ApplyTwo(s, write, point);
        DetailStepsMean(Apply(Apply(s, write), point), result.advice, receipt, now);
      }
    }
  }

  // ----- every publication has its details

  ghost predicate Detailed(s: Store, result: AnalysisResult) {
    forall i :: 0 <= i < |result.advice| ==> result.advice[i].id in s.details
  }

  /** Everything published since, and the publication before, has the details of all its advice. */
  ghost predicate AllDetailed(s: Store, from: int) {
    && (s.publication.Some? ==> Detailed(s, s.publication.value.result))
    && forall i :: 0 <= i < |s.log| && from <= i ==> Detailed(s, s.log[i].envelope.result)
  }

  lemma AddedIsDetailed(before: map<Id, Aged<Detail>>, s: Store, result: AnalysisResult, receipt: Receipt, now: Time)
    requires DetailsAdded(before, s.details, result.advice, receipt, now)
    ensures Detailed(s, result)
  {
    assert forall i :: 0 <= i < |result.advice| ==> NamesDetail(result.advice, result.advice[i].id);
  }

  /** The details stay as they are, or something is published and has its details. */
  ghost predicate PublishesDetailed(s: Store, s': Store) {
    || (s'.log == s.log && s'.publication == s.publication && s'.details == s.details)
    || (&& (forall id :: id in s.details ==> id in s'.details) && s'.publication.Some?
        && |s'.log| == |s.log| + 1 && s'.log[..|s.log|] == s.log
        && s'.log[|s.log|].envelope == s'.publication.value && Detailed(s', s'.publication.value.result))
  }

  lemma TurnPublishes(s: Store, s': Store, run: Stretch, previous: Option<AnalysisResult>, name: Id, now: Time)
    requires name in s.inbox && TurnOf(s, s', run, previous, name, now)
    ensures PublishesDetailed(s, s')
  {
    if s'.log != s.log {
      var e := s'.log[|s.log|].envelope;
      AddedIsDetailed(s.details, s', e.result, e.receipt, now);
    }
  }

  lemma TurnDetails(s: Store, previous: Option<AnalysisResult>, name: Id, now: Time)
    requires name in s.inbox
    ensures PublishesDetailed(s, ApplyAll(s, ProcessFile(s, previous, name, now).steps))
  {
    var run := ProcessFile(s, previous, name, now);
    TurnMeans(s, previous, name, now);
    TurnPublishes(s, ApplyAll(s, run.steps), run, previous, name, now);
  }

  lemma StaysDetailed(s: Store, s': Store, from: int)
    requires AllDetailed(s, from) && PublishesDetailed(s, s')
    ensures AllDetailed(s', from)
  {
    forall i | 0 <= i < |s.log| && from <= i ensures Detailed(s', s.log[i].envelope.result) {
      assert Detailed(s, s.log[i].envelope.result);
    }
  }

  lemma TurnKeepsDetailed(s: Store, previous: Option<AnalysisResult>, name: Id, now: Time, from: int)
    requires name in s.inbox && AllDetailed(s, from)
    ensures AllDetailed(ApplyAll(s, ProcessFile(s, previous, name, now).steps), from)
  {
    TurnDetails(s, previous, name, now);
    StaysDetailed(s, ApplyAll(s, ProcessFile(s, previous, name, now).steps), from);
  }

  lemma {:induction false} LoopKeepsDetailed(
    s: Store, previous: Option<AnalysisResult>, names: seq<Id>, now: Time, from: int)
    requires AllDetailed(s, from)
    ensures AllDetailed(ApplyAll(s, AcceptLoop(s, previous, names, now).steps), from)
    decreases |names|
  {
    if names != [] {
      var first := ProcessFile(s, previous, names[0], now);
      if names[0] in s.inbox {
        TurnKeepsDetailed(s, previous, names[0], now, from);
      }
      if !first.raised {
        var s' := ApplyAll(s, first.steps);
        LoopKeepsDetailed(s', first.previous, names[1..], now, from);
        ApplyAllConcat(s, first.steps, AcceptLoop(s', first.previous, names[1..], now).steps);
      }
    }
  }

  /** After a call's loop, the publication it found and everything it published has all details. */
  lemma CallDetails(s: Store, now: Time)
    ensures LogMatches(s) ==> AllDetailed(AfterLoop(s, now), |s.log| - 1)
  {
    var start := ApplyAll(s, RecoverySteps(s, now));
    RecoveryMeans(s, now);
    if LogMatches(s) {
      if s.publication.Some? {
        AddedIsDetailed(s.details, start, s.publication.value.result, s.publication.value.receipt, now);
      }
      LoopKeepsDetailed(start, start.current, SortedIds(s.inbox.Keys), now, |s.log| - 1);
    }
  }

  // ----- the closing files

  /** The receipts with a publication time, in the order of their names. */
  ghost predicate ListsPublished(list: seq<Receipt>, receipts: map<Id, Receipt>) {
    exists names: seq<Id> :: Places(names, list, receipts)
  }

  ghost predicate Places(names: seq<Id>, list: seq<Receipt>, receipts: map<Id, Receipt>) {
    && |names| == |list| && AscendingNames(names)
    && (forall i :: 0 <= i < |names| ==> names[i] in receipts && receipts[names[i]] == list[i])
    && (forall name :: name in names <==> name in receipts && receipts[name].publishedAt.Some?)
  }

  ghost predicate AscendingNames(names: seq<Id>) {
    forall i, j :: 0 <= i < j < |names| ==> names[i] < names[j]
  }

  /** Of these names those with a publication time, and their receipts. */
  ghost predicate PlacesAmong(kept: seq<Id>, list: seq<Receipt>, receipts: map<Id, Receipt>, names: seq<Id>) {
    && |kept| == |list| && AscendingNames(kept)
    && (forall i :: 0 <= i < |kept| ==> kept[i] in receipts && receipts[kept[i]] == list[i])
    && (forall name :: name in kept <==> name in names && name in receipts && receipts[name].publishedAt.Some?)
  }

  lemma PlaceFirst(name: Id, kept: seq<Id>, list: seq<Receipt>, receipts: map<Id, Receipt>, names: seq<Id>)
    requires PlacesAmong(kept, list, receipts, names) && name in receipts && receipts[name].publishedAt.Some?
    requires forall other :: other in names ==> name < other
    ensures PlacesAmong([name] + kept, [receipts[name]] + list, receipts, [name] + names)
  {
    forall i | 0 <= i < |kept| ensures name < kept[i] {
      assert kept[i] in kept;
    }
  }

  lemma PassFirst(name: Id, kept: seq<Id>, list: seq<Receipt>, receipts: map<Id, Receipt>, names: seq<Id>)
    requires PlacesAmong(kept, list, receipts, names) && name in receipts && receipts[name].publishedAt.None?
    ensures PlacesAmong(kept, list, receipts, [name] + names)
  {
  }

  lemma {:induction false} PublishedPlaces(receipts: map<Id, Receipt>, names: seq<Id>) returns (kept: seq<Id>)
    requires AscendingNames(names) && forall name :: name in names ==> name in receipts
    ensures PlacesAmong(kept, PublishedReceipts(receipts, names), receipts, names)
    decreases |names|
  {
    if names == [] {
      return [];
    }
    var name, rest := names[0], names[1..];
    var list := PublishedReceipts(receipts, rest);
    kept := PublishedPlaces(receipts, rest);
    assert [name] + rest == names;
    if receipts[name].publishedAt.Some? {
      forall other | other in rest ensures name < other {
        var k :| 0 <= k < |rest| && rest[k] == other;
        assert names[k + 1] == other;
      }
      PlaceFirst(name, kept, list, receipts, rest);
      kept := [name] + kept;
    } else {
      PassFirst(name, kept, list, receipts, rest);
      assert PublishedReceipts(receipts, names) == list;
    }
  }

  lemma PublicationsListed(s: Store)
    ensures ListsPublished(PublicationsOf(s), s.receipts)
  {
    var names := PublishedPlaces(s.receipts, SortedIds(s.receipts.Keys));
    assert Places(names, PublicationsOf(s), s.receipts);
  }

  // ----- which names the loop reports

  /** An unacknowledged name is reported as accepted exactly when the turn gives it a receipt. */
  lemma TurnAccepts(s: Store, previous: Option<AnalysisResult>, name: Id, now: Time)
    ensures var run := ProcessFile(s, previous, name, now);
            var s' := ApplyAll(s, run.steps);
            && run.accepted == (if name !in s.receipts && name in s'.receipts then [name] else [])
            && (run.rejected != [] <==> name !in s.receipts && name !in s'.receipts)
            && (name in s.receipts ==> name in s'.receipts)
  {
    if name in s.inbox {
      TurnMeans(s, previous, name, now);
    }
  }

  /** Of these names, those without a receipt are accepted if they have one at the end, and otherwise
      rejected. */
  ghost predicate ReportsFor(
    names: seq<Id>, before: set<Id>, after: set<Id>, accepted: seq<Id>, rejected: seq<Rejection>)
  {
    && (forall name :: name in accepted <==> name in names && name !in before && name in after)
    && (forall name :: (exists r :: r in rejected && r.name == name)
                       <==> name in names && name !in before && name !in after)
  }

  lemma JoinReports(
    name: Id, names: seq<Id>, before: set<Id>, mid: set<Id>, after: set<Id>, accepted: seq<Id>,
    rejected: seq<Rejection>, more: seq<Id>, others: seq<Rejection>)
    requires name !in names && ReportsFor([name], before, mid, accepted, rejected)
    requires ReportsFor(names, mid, after, more, others)
    requires name in after <==> name in mid
    requires forall other :: other in names ==> (other in mid <==> other in before)
    ensures ReportsFor([name] + names, before, after, accepted + more, rejected + others)
  {
    forall other
      ensures (exists r :: r in rejected + others && r.name == other)
              <==> other in [name] + names && other !in before && other !in after
    {
      assert (exists r :: r in rejected + others && r.name == other)
        <==> (exists r :: r in rejected && r.name == other) || exists r :: r in others && r.name == other;
      assert other in [name] + names <==> other == name || other in names;
      assert other in [name] <==> other == name;
      assert (exists r :: r in rejected && r.name == other) <==> other == name && name !in before && name !in mid;
    }
  }

  lemma TurnReports(s: Store, previous: Option<AnalysisResult>, name: Id, now: Time)
    ensures var run := ProcessFile(s, previous, name, now);
            LoopReportsFor(s, ApplyAll(s, run.steps), [name], run)
  {
    TurnAccepts(s, previous, name, now);
    RejectsItsName(s, previous, name, now);
    var run := ProcessFile(s, previous, name, now);
    assert run.rejected != [] ==> run.rejected[0] in run.rejected;
  }

  /** The later turns leave the first name alone, and the first turn the others. */
  lemma TurnsApart(s: Store, previous: Option<AnalysisResult>, names: seq<Id>, now: Time)
    requires names != [] && LoopOrder.Distinct(names)
    ensures var first := ProcessFile(s, previous, names[0], now);
            var s' := ApplyAll(s, first.steps);
            var end := ApplyAll(s', AcceptLoop(s', first.previous, names[1..], now).steps);
            && (names[0] in end.receipts <==> names[0] in s'.receipts)
            && (forall other :: other in names[1..] ==> (other in s'.receipts <==> other in s.receipts))
  {
    var name, first := names[0], ProcessFile(s, previous, names[0], now);
    var s' := ApplyAll(s, first.steps);
    LoopForeign(s', first.previous, names[1..], now, name);
    ForeignSteps(s', AcceptLoop(s', first.previous, names[1..], now).steps, name);
    forall other | other in names[1..] ensures other in s'.receipts <==> other in s.receipts {
      FileForeign(s, previous, name, now, other);
      ForeignSteps(s, first.steps, other);
    }
  }

  /** How a loop that does not raise splits into its first turn and the rest. */
  lemma LoopSplits(s: Store, previous: Option<AnalysisResult>, names: seq<Id>, now: Time)
    requires names != [] && !AcceptLoop(s, previous, names, now).raised
    ensures var first := ProcessFile(s, previous, names[0], now);
            var s' := ApplyAll(s, first.steps);
            var rest, run := AcceptLoop(s', first.previous, names[1..], now), AcceptLoop(s, previous, names, now);
            && !rest.raised && run.accepted == first.accepted + rest.accepted
            && run.rejected == first.rejected + rest.rejected
            && ApplyAll(s, run.steps) == ApplyAll(s', rest.steps)
  {
    var first := ProcessFile(s, previous, names[0], now);
    var s' := ApplyAll(s, first.steps);
    ApplyAllConcat(s, first.steps, AcceptLoop(s', first.previous, names[1..], now).steps);
  }

  ghost predicate LoopReportsFor(s: Store, end: Store, names: seq<Id>, run: Stretch) {
    ReportsFor(names, s.receipts.Keys, end.receipts.Keys, run.accepted, run.rejected)
  }

  lemma JoinStretches(s: Store, mid: Store, end: Store, name: Id, names: seq<Id>, first: Stretch, rest: Stretch,
                      run: Stretch)
    requires name !in names && LoopReportsFor(s, mid, [name], first) && LoopReportsFor(mid, end, names, rest)
    requires name in end.receipts <==> name in mid.receipts
    requires forall other :: other in names ==> (other in mid.receipts <==> other in s.receipts)
    requires run.accepted == first.accepted + rest.accepted && run.rejected == first.rejected + rest.rejected
    ensures LoopReportsFor(s, end, [name] + names, run)
  {
    JoinReports(name, names, s.receipts.Keys, mid.receipts.Keys, end.receipts.Keys, first.accepted, first.rejected,
                rest.accepted, rest.rejected);
  }

  lemma LoopAcceptsOn(s: Store, previous: Option<AnalysisResult>, names: seq<Id>, now: Time)
    requires names != [] && LoopOrder.Distinct(names) && !AcceptLoop(s, previous, names, now).raised
    requires var first := ProcessFile(s, previous, names[0], now);
             var s' := ApplyAll(s, first.steps);
             var rest := AcceptLoop(s', first.previous, names[1..], now);
             LoopReportsFor(s', ApplyAll(s', rest.steps), names[1..], rest)
    ensures var run := AcceptLoop(s, previous, names, now);
            LoopReportsFor(s, ApplyAll(s, run.steps), [names[0]] + names[1..], run)
  {
    var first := ProcessFile(s, previous, names[0], now);
    var s' := ApplyAll(s, first.steps);
    var rest := AcceptLoop(s', first.previous, names[1..], now);
    LoopSplits(s, previous, names, now);
    TurnReports(s, previous, names[0], now);
    TurnsApart(s, previous, names, now);
    JoinStretches(s, s', ApplyAll(s', rest.steps), names[0], names[1..], first, rest,
                  AcceptLoop(s, previous, names, now));
  }

  lemma {:induction false} LoopAccepts(s: Store, previous: Option<AnalysisResult>, names: seq<Id>, now: Time)
    requires LoopOrder.Distinct(names) && !AcceptLoop(s, previous, names, now).raised
    ensures var run := AcceptLoop(s, previous, names, now);
            LoopReportsFor(s, ApplyAll(s, run.steps), names, run)
    decreases |names|
  {
    if names != [] {
      var first := ProcessFile(s, previous, names[0], now);
      LoopSplits(s, previous, names, now);
      LoopAccepts(ApplyAll(s, first.steps), first.previous, names[1..], now);
      LoopAcceptsOn(s, previous, names, now);
      assert names == [names[0]] + names[1..];
    }
  }

  lemma RejectsItsName(s: Store, previous: Option<AnalysisResult>, name: Id, now: Time)
    ensures forall r :: r in ProcessFile(s, previous, name, now).rejected ==> r.name == name
  {
  }

  // ----- a completed call

  /** What a completed call leaves beside the publications: its report and the list for the worker. */
  ghost predicate ClosedBy(s: Store, end: Store, now: Time) {
    && ListsPublished(end.publicationList, end.receipts)
    && end.acceptStatus.Some? && end.acceptStatus.value.checkedAt == now
    && (LogMatches(s) ==> AllDetailed(end, |s.log| - 1))
    && (forall name :: name in end.acceptStatus.value.accepted
                       <==> name in s.inbox && name !in Recovered(s).receipts && name in end.receipts)
    && (forall name :: (exists r :: r in end.acceptStatus.value.rejected && r.name == name)
                       <==> name in s.inbox && name !in Recovered(s).receipts && name !in end.receipts)
  }

  lemma LoopReports(s: Store, now: Time)
    requires !LoopOf(s, now).raised
    ensures var loop, end := LoopOf(s, now), AfterLoop(s, now);
            && (forall name :: name in loop.accepted
                               <==> name in s.inbox && name !in Recovered(s).receipts && name in end.receipts)
            && (forall name :: (exists r :: r in loop.rejected && r.name == name)
                               <==> name in s.inbox && name !in Recovered(s).receipts && name !in end.receipts)
  {
    var start, names := ApplyAll(s, RecoverySteps(s, now)), SortedIds(s.inbox.Keys);
    RecoveryMeans(s, now);
    assert start.receipts == Recovered(s).receipts;
    LoopAccepts(start, start.current, names, now);
  }

  lemma ReportsWritten(s: Store, status: AcceptStatus, list: seq<Receipt>)
    ensures ApplyAll(s, [WriteAcceptStatus(status), WritePublicationList(list)])
         == s.(acceptStatus := Some(status), publicationList := list)
  {
    ApplyTwo(s, WriteAcceptStatus(status), WritePublicationList(list));
  }

  lemma ClosingWrites(s: Store, status: AcceptStatus)
    requires ClosingSteps(s, status).completed
    ensures ApplyAll(s, ClosingSteps(s, status).steps)
         == s.(acceptStatus := Some(status), publicationList := PublicationsOf(s))
  {
    ReportsWritten(s, status, PublicationsOf(s));
  }

  lemma CompletedCall(s: Store, now: Time)
    requires Accept(s, now).completed
    ensures ClosedBy(s, Finished(s, now), now)
  {
    var loop, before := LoopOf(s, now), AfterLoop(s, now);
    var status := AcceptStatus(now, loop.accepted, loop.rejected);
    LoopReports(s, now);
    CallDetails(s, now);
    ClosingWrites(before, status);
    ApplyAllThree(s, RecoverySteps(s, now), loop.steps, ClosingSteps(before, status).steps);
    PublicationsListed(before);
    ClosedFrom(s, before, Finished(s, now), now, status);
  }

  lemma ClosedFrom(s: Store, before: Store, end: Store, now: Time, status: AcceptStatus)
    requires end == before.(acceptStatus := Some(status), publicationList := end.publicationList)
    requires ListsPublished(end.publicationList, before.receipts) && status.checkedAt == now
    requires LogMatches(s) ==> AllDetailed(before, |s.log| - 1)
    requires forall name :: name in status.accepted
                            <==> name in s.inbox && name !in Recovered(s).receipts && name in before.receipts
    requires forall name :: (exists r :: r in status.rejected && r.name == name)
                            <==> name in s.inbox && name !in Recovered(s).receipts && name !in before.receipts
    ensures ClosedBy(s, end, now)
  {
    if LogMatches(s) {
      forall i | 0 <= i < |end.log| && |s.log| - 1 <= i ensures Detailed(end, end.log[i].envelope.result) {
        assert Detailed(before, before.log[i].envelope.result);
      }
    }
  }

  // ----- how a call ends

  /** More than 5,000 files, or a publication with a receipt that is not its own or has no time. */
  ghost predicate Unusable(s: Store) {
    || |s.inbox| > 5_000
    || (s.publication.Some? && (s.publication.value.receipt.resultId != s.publication.value.result.id
                                || s.publication.value.receipt.publishedAt.None?))
  }

  /** The file of an acknowledged name that does not read back as that name's result. */
  ghost predicate Unreadable(file: InboxFile, name: Id) {
    !file.Verified? || file.result.id != name
  }

  ghost predicate BadDuplicate(s: Store, name: Id) {
    && name in s.inbox && Unreadable(s.inbox[name], name)
    && (name in s.receipts || (s.publication.Some? && s.publication.value.result.id == name))
  }

  /** More than 5,000 receipts have a publication time. */
  ghost predicate TooManyPublished(receipts: map<Id, Receipt>) {
    |Published(receipts)| > 5_000
  }

  ghost function Published(receipts: map<Id, Receipt>): set<Id> {
    set name | name in receipts && receipts[name].publishedAt.Some?
  }

  /** The call raises at once, in its loop, or when it lists the publications. */
  ghost predicate RaisesFor(s: Store, s': Store) {
    (Unusable(s) && s' == s) || (exists name :: BadDuplicate(s, name)) || TooManyPublished(s'.receipts)
  }

  ghost predicate EndsWell(s: Store, s': Store) {
    !Unusable(s) && (forall name :: !BadDuplicate(s, name)) && !TooManyPublished(s'.receipts)
  }

  ghost predicate LoopBadName(s: Store, name: Id) {
    name in s.inbox && Unreadable(s.inbox[name], name) && name in s.receipts
  }

  lemma {:induction false} LoopRaisesIff(s: Store, previous: Option<AnalysisResult>, names: seq<Id>, now: Time)
    requires LoopOrder.Distinct(names) && forall name :: name in names ==> name in s.inbox
    ensures AcceptLoop(s, previous, names, now).raised <==> exists i :: 0 <= i < |names| && LoopBadName(s, names[i])
    decreases |names|
  {
    if names != [] {
      var first := ProcessFile(s, previous, names[0], now);
      assert first.raised <==> LoopBadName(s, names[0]);
      if !first.raised {
        var s1, rest := ApplyAll(s, first.steps), names[1..];
        forall i | 0 <= i < |rest| ensures rest[i] in s1.inbox
          && (LoopBadName(s1, rest[i]) <==> LoopBadName(s, names[i + 1])) {
          FileForeign(s, previous, names[0], now, rest[i]);
          ForeignSteps(s, first.steps, rest[i]);
        }
        LoopRaisesIff(s1, first.previous, rest, now);
        LaterIndex(s, s1, names);
      }
    }
  }

  lemma LaterIndex(s: Store, s1: Store, names: seq<Id>)
    requires names != [] && !LoopBadName(s, names[0])
    requires forall i :: 0 <= i < |names[1..]| ==> (LoopBadName(s1, names[1..][i]) <==> LoopBadName(s, names[i + 1]))
    ensures (exists i :: 0 <= i < |names| && LoopBadName(s, names[i]))
       <==> exists i :: 0 <= i < |names[1..]| && LoopBadName(s1, names[1..][i])
  {
    if i :| 0 <= i < |names| && LoopBadName(s, names[i]) {
      assert LoopBadName(s1, names[1..][i - 1]);
    }
    if i :| 0 <= i < |names[1..]| && LoopBadName(s1, names[1..][i]) {
      assert LoopBadName(s, names[i + 1]);
    }
  }

  lemma CallLoopRaises(s: Store, now: Time)
    ensures LoopOf(s, now).raised <==> exists name :: BadDuplicate(s, name)
  {
    var start, names := ApplyAll(s, RecoverySteps(s, now)), SortedIds(s.inbox.Keys);
    RecoveryMeans(s, now);
    LoopRaisesIff(start, start.current, names, now);
    forall name ensures LoopBadName(start, name) <==> BadDuplicate(s, name) {
    }
    if name :| BadDuplicate(s, name) {
      assert name in names;
      var i :| 0 <= i < |names| && names[i] == name;
      assert LoopBadName(start, names[i]);
    }
  }

  lemma {:induction false} DistinctNames(names: seq<Id>, all: set<Id>)
    requires forall i, j :: 0 <= i < j < |names| ==> names[i] < names[j]
    requires forall name :: name in names <==> name in all
    ensures |names| == |all|
    decreases |names|
  {
    if names == [] {
      assert forall name :: name in all ==> name in names;
      assert all == {};
    } else {
      var rest := names[1..];
      forall name ensures name in rest <==> name in all - {names[0]} {
        if name in rest {
          var k :| 0 <= k < |rest| && rest[k] == name;
          assert names[k + 1] == name && name in names;
        }
        if name in all - {names[0]} {
          var k :| 0 <= k < |names| && names[k] == name;
          assert rest[k - 1] == name;
        }
      }
      DistinctNames(rest, all - {names[0]});
    }
  }

  lemma NamesCounted(receipts: map<Id, Receipt>, names: seq<Id>)
    requires forall i, j :: 0 <= i < j < |names| ==> names[i] < names[j]
    requires forall name :: name in names <==> name in receipts && receipts[name].publishedAt.Some?
    ensures TooManyPublished(receipts) <==> |names| > 5_000
  {
    DistinctNames(names, Published(receipts));
  }

  lemma PublishedCounted(s: Store)
    ensures TooManyPublished(s.receipts) <==> |PublicationsOf(s)| > 5_000
  {
    var kept := PublishedPlaces(s.receipts, SortedIds(s.receipts.Keys));
    NamesCounted(s.receipts, kept);
  }

  lemma CallEnds(s: Store, now: Time)
    ensures var end := Finished(s, now);
            if Accept(s, now).completed then EndsWell(s, end) else RaisesFor(s, end)
  {
    assert RaisesAtOnce(s) <==> Unusable(s);
    if !RaisesAtOnce(s) {
      var recovery, loop, before := RecoverySteps(s, now), LoopOf(s, now), AfterLoop(s, now);
      CallLoopRaises(s, now);
      if !loop.raised {
        var closing := ClosingSteps(before, AcceptStatus(now, loop.accepted, loop.rejected));
        PublishedCounted(before);
        ApplyAllThree(s, recovery, loop.steps, closing.steps);
        ClosingKeepsReceipts(before, AcceptStatus(now, loop.accepted, loop.rejected));
      }
    }
  }

  lemma ReportsKeepReceipts(s: Store, status: AcceptStatus, list: seq<Receipt>)
    ensures ApplyAll(s, [WriteAcceptStatus(status)]).receipts == s.receipts
    ensures ApplyAll(s, [WriteAcceptStatus(status), WritePublicationList(list)]).receipts == s.receipts
  {
    OneStep(s, WriteAcceptStatus(status));
    ReportsWritten(s, status, list);
  }

  lemma ClosingKeepsReceipts(s: Store, status: AcceptStatus)
    ensures ApplyAll(s, ClosingSteps(s, status).steps).receipts == s.receipts
  {
    ReportsKeepReceipts(s, status, PublicationsOf(s));
  }
}
