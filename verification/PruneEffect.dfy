/** What a prune that does not raise deletes, and that it deletes it: said of the files, the signed
    acknowledgement and the clock. */
module PruneEffect {
  import opened Contracts
  import opened Store
  import opened Retention

  // ----- said with the policy of one call

  ghost predicate Acknowledged(entries: seq<AckEntry>, name: Name, content: Content) {
    exists e :: e in entries && e.name == name && e.digest == content
  }

  /** Present, unprotected, aged, and acknowledged with the content it has. */
  ghost predicate Due(s: Store, entries: seq<AckEntry>, policy: Policy, name: Name) {
    && name !in policy.kept && Lookup(s, name).Some? && Lookup(s, name).value.mtime < policy.cutoff
    && Acknowledged(entries, name, Lookup(s, name).value.value)
  }

  ghost predicate RecordsName(record: RetentionRecord, s: Store, entries: seq<AckEntry>, policy: Policy, name: Name) {
    && record.entry in entries && record.entry.name == name
    && Lookup(s, name).Some? && record.entry.digest == Lookup(s, name).value.value
    && record.removedAt == policy.now && record.ackAt == policy.ackAt
  }

  /** The detail belongs to a result that is due, is unprotected itself, and has aged. */
  ghost predicate DetailDue(s: Store, entries: seq<AckEntry>, policy: Policy, id: Id) {
    && id in s.details && id !in policy.keptAdvice && s.details[id].mtime < policy.cutoff
    && exists result :: result in s.results && Due(s, entries, policy, ResultName(result)) && HasAdvice(s, result, id)
  }

  ghost predicate HasAdvice(s: Store, result: Id, id: Id)
    requires result in s.results
  {
    exists i :: 0 <= i < |s.results[result].value.advice| && s.results[result].value.advice[i].id == id
  }

  /** What no prune touches. */
  ghost predicate SameRest(s: Store, s': Store) {
    && s'.inbox == s.inbox && s'.currentInput == s.currentInput && s'.current == s.current
    && s'.publication == s.publication && s'.acceptStatus == s.acceptStatus
    && s'.publicationList == s.publicationList && s'.log == s.log
  }

  ghost predicate ArtifactsGone(s: Store, s': Store, entries: seq<AckEntry>, policy: Policy) {
    && (forall name :: Lookup(s', name) == if Due(s, entries, policy, name) then None else Lookup(s, name))
    && (forall id :: id in s'.receipts <==> id in s.receipts && !Due(s, entries, policy, ResultName(id)))
    && (forall id :: id in s'.receipts ==> s'.receipts[id] == s.receipts[id])
  }

  ghost predicate DetailsGone(s: Store, s': Store, entries: seq<AckEntry>, policy: Policy) {
    && (forall id :: id in s'.details <==> id in s.details && !DetailDue(s, entries, policy, id))
    && (forall id :: id in s'.details ==> s'.details[id] == s.details[id])
  }

  ghost predicate RecordsKept(
    s: Store, s': Store, entries: seq<AckEntry>, policy: Policy, removed: seq<RetentionRecord>)
  {
    && (forall name :: Due(s, entries, policy, name) ==>
          && name in s'.retained && s'.retained[name] in removed
          && RecordsName(s'.retained[name], s, entries, policy, name))
    && (forall name :: !Due(s, entries, policy, name) ==>
          (name in s'.retained <==> name in s.retained)
            && (name in s.retained ==> s'.retained[name] == s.retained[name]))
    && (forall r :: r in removed ==> Due(s, entries, policy, r.entry.name) && s'.retained[r.entry.name] == r)
    && (forall i, j :: 0 <= i < j < |removed| ==> removed[i].entry.name != removed[j].entry.name)
  }

  ghost predicate Effect(
    s: Store, s': Store, entries: seq<AckEntry>, policy: Policy, removed: seq<RetentionRecord>)
  {
    && SameRest(s, s') && ArtifactsGone(s, s', entries, policy)
    && DetailsGone(s, s', entries, policy) && RecordsKept(s, s', entries, policy, removed)
  }

  // ----- one entry

  /** The aged, unprotected details among these are removed. */
  ghost predicate AmongGone(s: Store, s': Store, advice: seq<Advice>, policy: Policy) {
    && s' == s.(details := s'.details)
    && (forall id :: id in s'.details <==>
          id in s.details && !(id !in policy.keptAdvice && s.details[id].mtime < policy.cutoff && Names(advice, id)))
    && (forall id :: id in s'.details ==> s'.details[id] == s.details[id])
  }

  ghost predicate Names(advice: seq<Advice>, id: Id) {
    exists i :: 0 <= i < |advice| && advice[i].id == id
  }

  lemma NamesHead(advice: seq<Advice>, id: Id)
    requires advice != []
    ensures Names(advice, id) <==> advice[0].id == id || Names(advice[1..], id)
  {
    if i :| 0 <= i < |advice[1..]| && advice[1..][i].id == id {
      assert advice[i + 1].id == id;
    }
    if i :| 0 < i < |advice| && advice[i].id == id {
      assert advice[1..][i - 1].id == id;
    }
  }

  lemma {:induction false} DetailsRemoved(s: Store, advice: seq<Advice>, policy: Policy)
    ensures AmongGone(s, ApplyAll(s, RemovedDetails(s.details, advice, policy)), advice, policy)
    decreases |advice|
  {
    if advice != [] {
      var id := advice[0].id;
      forall other ensures Names(advice, other) <==> id == other || Names(advice[1..], other) {
        NamesHead(advice, other);
      }
      if id !in policy.keptAdvice && id in s.details && s.details[id].mtime < policy.cutoff {
        var s1 := Apply(s, RemoveDetail(id));
        var rest := RemovedDetails(s1.details, advice[1..], policy);
        DetailsRemoved(s1, advice[1..], policy);
        assert ([RemoveDetail(id)] + rest)[1..] == rest;
      } else {
        DetailsRemoved(s, advice[1..], policy);
      }
    }
  }

  lemma InputRemoved(s: Store, id: Id, record: RetentionRecord)
    ensures ApplyAll(s, [WriteRetention(record), RemoveInput(id)])
         == s.(retained := s.retained[record.entry.name := record], inputs := s.inputs - {id})
  {
    ApplyTwo(s, WriteRetention(record), RemoveInput(id));
  }

  lemma LastRemovals(s: Store, id: Id)
    ensures ApplyAll(s, [RemoveReceipt(id), RemoveResult(id)])
         == s.(receipts := s.receipts - {id}, results := s.results - {id})
  {
    ApplyTwo(s, RemoveReceipt(id), RemoveResult(id));
  }

  lemma ResultRemoved(s: Store, id: Id, record: RetentionRecord, advice: seq<Advice>, policy: Policy)
    ensures var details := RemovedDetails(s.details, advice, policy);
            var s' := ApplyAll(s, [WriteRetention(record)] + (details + [RemoveReceipt(id), RemoveResult(id)]));
            && s' == s.(retained := s.retained[record.entry.name := record], receipts := s.receipts - {id},
                        results := s.results - {id}, details := s'.details)
            && AmongGone(s, s.(details := s'.details), advice, policy)
  {
    var first, last := [WriteRetention(record)], [RemoveReceipt(id), RemoveResult(id)];
    var details := RemovedDetails(s.details, advice, policy);
    var s1 := Apply(s, WriteRetention(record));
    assert first + (details + last) == first + details + last && first[..1] == first;
    ApplyAllThree(s, first, details, last);
    ApplyOne(s, first);
    DetailsRemoved(s1, advice, policy);
    LastRemovals(ApplyAll(s1, details), id);
  }

  lemma OnlyOne(s: Store, entry: AckEntry, policy: Policy)
    ensures forall name :: Due(s, [entry], policy, name) <==> name == entry.name && Due(s, [entry], policy, entry.name)
  {
  }

  lemma SkippedEffect(s: Store, entry: AckEntry, policy: Policy)
    requires !PruneEntry(s, entry, policy).raised && PruneEntry(s, entry, policy).steps == []
    ensures Effect(s, s, [entry], policy, []) && PruneEntry(s, entry, policy).removed == []
  {
    OnlyOne(s, entry, policy);
    assert !Due(s, [entry], policy, entry.name);
  }

  lemma DueEntry(s: Store, entry: AckEntry, policy: Policy)
    requires !PruneEntry(s, entry, policy).raised && PruneEntry(s, entry, policy).steps != []
    ensures Due(s, [entry], policy, entry.name)
    ensures forall name :: Due(s, [entry], policy, name) <==> name == entry.name
    ensures RecordsName(RetentionRecord(entry, policy.now, policy.ackAt), s, [entry], policy, entry.name)
  {
    assert Acknowledged([entry], entry.name, Lookup(s, entry.name).value.value) by {
      assert entry in [entry];
    }
  }

  lemma InputEffect(s: Store, entry: AckEntry, policy: Policy)
    requires !PruneEntry(s, entry, policy).raised && PruneEntry(s, entry, policy).steps != []
    requires entry.name.InputName?
    ensures Effect(s, ApplyAll(s, PruneEntry(s, entry, policy).steps), [entry], policy,
            PruneEntry(s, entry, policy).removed)
  {
    DueEntry(s, entry, policy);
    InputRemoved(s, entry.name.id, RetentionRecord(entry, policy.now, policy.ackAt));
  }

  lemma ResultEffect(s: Store, entry: AckEntry, policy: Policy)
    requires !PruneEntry(s, entry, policy).raised && PruneEntry(s, entry, policy).steps != []
    requires entry.name.ResultName?
    ensures Effect(s, ApplyAll(s, PruneEntry(s, entry, policy).steps), [entry], policy,
            PruneEntry(s, entry, policy).removed)
  {
    var id := entry.name.id;
    var advice := s.results[id].value.advice;
    DueEntry(s, entry, policy);
    ResultRemoved(s, id, RetentionRecord(entry, policy.now, policy.ackAt), advice, policy);
    forall other ensures HasAdvice(s, id, other) <==> Names(advice, other) {
    }
  }

  lemma EntryEffect(s: Store, entry: AckEntry, policy: Policy)
    requires !PruneEntry(s, entry, policy).raised
    ensures Effect(s, ApplyAll(s, PruneEntry(s, entry, policy).steps), [entry], policy,
            PruneEntry(s, entry, policy).removed)
  {
    if PruneEntry(s, entry, policy).steps == [] {
      SkippedEffect(s, entry, policy);
    } else {
      match entry.name {
        case InputName(_) => InputEffect(s, entry, policy);
        case ResultName(_) => ResultEffect(s, entry, policy);
      }
    }
  }

  // ----- the whole list

  /** What is due under the whole list is due under its first entry, or then under the others. */
  lemma DueSplits(s: Store, s1: Store, entry: AckEntry, rest: seq<AckEntry>, policy: Policy, name: Name)
    requires ArtifactsGone(s, s1, [entry], policy)
    ensures Due(s, [entry] + rest, policy, name) <==> Due(s, [entry], policy, name) || Due(s1, rest, policy, name)
    ensures !(Due(s, [entry], policy, name) && Due(s1, rest, policy, name))
    ensures Due(s1, rest, policy, name) ==> Lookup(s1, name) == Lookup(s, name)
  {
    forall content
      ensures Acknowledged([entry] + rest, name, content)
              <==> Acknowledged([entry], name, content) || Acknowledged(rest, name, content)
    {
      assert forall e :: e in [entry] + rest <==> e in [entry] || e in rest;
    }
  }

  lemma SameResult(s: Store, s1: Store, id: Id)
    requires Lookup(s1, ResultName(id)) == Lookup(s, ResultName(id))
    ensures id in s1.results <==> id in s.results
    ensures id in s.results ==> s1.results[id] == s.results[id]
  {
    assert id in s1.results ==> Lookup(s1, ResultName(id)).Some?;
    assert id in s.results ==> Lookup(s, ResultName(id)).Some?;
  }

  lemma DetailDueSplits(s: Store, s1: Store, entry: AckEntry, rest: seq<AckEntry>, policy: Policy, id: Id)
    requires ArtifactsGone(s, s1, [entry], policy) && DetailsGone(s, s1, [entry], policy)
    ensures DetailDue(s, [entry] + rest, policy, id)
            <==> DetailDue(s, [entry], policy, id) || DetailDue(s1, rest, policy, id)
  {
    if DetailDue(s, [entry] + rest, policy, id) && !DetailDue(s, [entry], policy, id) {
      var result :| result in s.results && Due(s, [entry] + rest, policy, ResultName(result))
        && HasAdvice(s, result, id);
      DueSplits(s, s1, entry, rest, policy, ResultName(result));
      SameResult(s, s1, result);
      assert HasAdvice(s1, result, id);
    }
    if DetailDue(s, [entry], policy, id) {
      var result :| result in s.results && Due(s, [entry], policy, ResultName(result)) && HasAdvice(s, result, id);
      DueSplits(s, s1, entry, rest, policy, ResultName(result));
    }
    if DetailDue(s1, rest, policy, id) {
      var result :| result in s1.results && Due(s1, rest, policy, ResultName(result)) && HasAdvice(s1, result, id);
      DueSplits(s, s1, entry, rest, policy, ResultName(result));
      SameResult(s, s1, result);
      assert HasAdvice(s, result, id);
    }
  }

  lemma ArtifactsCompose(s: Store, s1: Store, s2: Store, entry: AckEntry, rest: seq<AckEntry>, policy: Policy)
    requires ArtifactsGone(s, s1, [entry], policy) && ArtifactsGone(s1, s2, rest, policy)
    ensures ArtifactsGone(s, s2, [entry] + rest, policy)
  {
    forall name
      ensures Due(s, [entry] + rest, policy, name) <==> Due(s, [entry], policy, name) || Due(s1, rest, policy, name)
    {
      DueSplits(s, s1, entry, rest, policy, name);
    }
    forall name ensures Lookup(s2, name) == if Due(s, [entry] + rest, policy, name) then None else Lookup(s, name) {
      assert Lookup(s1, name) == if Due(s, [entry], policy, name) then None else Lookup(s, name);
    }
  }

  lemma DetailsCompose(s: Store, s1: Store, s2: Store, entry: AckEntry, rest: seq<AckEntry>, policy: Policy)
    requires ArtifactsGone(s, s1, [entry], policy)
    requires DetailsGone(s, s1, [entry], policy) && DetailsGone(s1, s2, rest, policy)
    ensures DetailsGone(s, s2, [entry] + rest, policy)
  {
    forall id
      ensures DetailDue(s, [entry] + rest, policy, id)
              <==> DetailDue(s, [entry], policy, id) || DetailDue(s1, rest, policy, id)
    {
      DetailDueSplits(s, s1, entry, rest, policy, id);
    }
  }

  lemma RecordsCompose(
    s: Store, s1: Store, s2: Store, entry: AckEntry, rest: seq<AckEntry>, policy: Policy,
    first: seq<RetentionRecord>, more: seq<RetentionRecord>)
    requires ArtifactsGone(s, s1, [entry], policy)
    requires RecordsKept(s, s1, [entry], policy, first) && RecordsKept(s1, s2, rest, policy, more)
    ensures RecordsKept(s, s2, [entry] + rest, policy, first + more)
  {
    var all, removed := [entry] + rest, first + more;
    forall name
      ensures Due(s, all, policy, name) <==> Due(s, [entry], policy, name) || Due(s1, rest, policy, name)
      ensures !(Due(s, [entry], policy, name) && Due(s1, rest, policy, name))
      ensures Due(s1, rest, policy, name) ==> Lookup(s1, name) == Lookup(s, name)
    {
      DueSplits(s, s1, entry, rest, policy, name);
    }
    forall name | Due(s, all, policy, name)
      ensures name in s2.retained && s2.retained[name] in removed
              && RecordsName(s2.retained[name], s, all, policy, name)
    {
      if Due(s, [entry], policy, name) {
        assert RecordsName(s1.retained[name], s, [entry], policy, name) && s2.retained[name] == s1.retained[name];
      } else {
        assert RecordsName(s2.retained[name], s1, rest, policy, name);
      }
    }
    forall i, j | 0 <= i < j < |removed| ensures removed[i].entry.name != removed[j].entry.name {
      if i < |first| <= j {
        assert removed[i] in first && removed[j] in more;
      }
    }
    forall r | r in removed ensures Due(s, all, policy, r.entry.name) && s2.retained[r.entry.name] == r {
      if r in first {
        assert s1.retained[r.entry.name] == r;
      }
    }
  }

  /** A prune that comes to its end: exactly what is due is gone, and recorded. */
  lemma {:induction false} LoopEffect(s: Store, entries: seq<AckEntry>, policy: Policy)
    requires !PruneLoop(s, entries, policy).raised
    ensures var run := PruneLoop(s, entries, policy);
            Effect(s, ApplyAll(s, run.steps), entries, policy, run.removed)
    decreases |entries|
  {
    if entries == [] {
      assert forall name :: !Due(s, [], policy, name);
    } else {
      var first := PruneEntry(s, entries[0], policy);
      var s1 := ApplyAll(s, first.steps);
      var rest := PruneLoop(s1, entries[1..], policy);
      var s2 := ApplyAll(s1, rest.steps);
      EntryEffect(s, entries[0], policy);
      LoopEffect(s1, entries[1..], policy);
      ApplyAllConcat(s, first.steps, rest.steps);
      assert [entries[0]] + entries[1..] == entries;
      ArtifactsCompose(s, s1, s2, entries[0], entries[1..], policy);
      DetailsCompose(s, s1, s2, entries[0], entries[1..], policy);
      RecordsCompose(s, s1, s2, entries[0], entries[1..], policy, first.removed, rest.removed);
    }
  }

  // ----- when it raises, and in which order it deletes

  /** Where the first entry of this name stands. */
  ghost function Position(entries: seq<AckEntry>, name: Name): (p: nat)
    ensures p <= |entries|
    ensures p < |entries| ==> entries[p].name == name
  {
    if entries == [] || entries[0].name == name then 0 else 1 + Position(entries[1..], name)
  }

  lemma PositionHead(entry: AckEntry, rest: seq<AckEntry>, name: Name)
    ensures Position([entry] + rest, name) == if entry.name == name then 0 else 1 + Position(rest, name)
  {
    assert ([entry] + rest)[1..] == rest;
  }

  /** The artifact would go, but its first entry gives other content. */
  ghost predicate Mismatch(s: Store, entries: seq<AckEntry>, policy: Policy, name: Name) {
    && Position(entries, name) < |entries|
    && name !in policy.kept && Lookup(s, name).Some? && Lookup(s, name).value.mtime < policy.cutoff
    && Lookup(s, name).value.value != entries[Position(entries, name)].digest
  }

  ghost predicate IllNamed(entry: AckEntry) {
    match entry.name
    case InputName(_) => entry.kind != Inputs
    case ResultName(_) => entry.kind != Results
  }

  ghost predicate Offends(s: Store, entries: seq<AckEntry>, policy: Policy) {
    (exists e :: e in entries && IllNamed(e)) || exists name :: Mismatch(s, entries, policy, name)
  }

  lemma OffendsAfterEntry(s: Store, entry: AckEntry, rest: seq<AckEntry>, policy: Policy)
    requires !PruneEntry(s, entry, policy).raised
    ensures Offends(s, [entry] + rest, policy)
       <==> Offends(ApplyAll(s, PruneEntry(s, entry, policy).steps), rest, policy)
  {
    var all, s1 := [entry] + rest, ApplyAll(s, PruneEntry(s, entry, policy).steps);
    EntryEffect(s, entry, policy);
    OnlyOne(s, entry, policy);
    assert forall e :: e in all <==> e == entry || e in rest;
    forall name ensures Mismatch(s, all, policy, name) <==> Mismatch(s1, rest, policy, name) {
      assert all[0] == entry && all[1..] == rest;
      assert Lookup(s1, name) == if Due(s, [entry], policy, name) then None else Lookup(s, name);
      if name == entry.name {
        assert Position(all, name) == 0;
        assert entry in [entry];
      } else {
        assert Position(all, name) == 1 + Position(rest, name);
      }
    }
  }

  lemma FirstRaises(s: Store, entries: seq<AckEntry>, policy: Policy)
    requires entries != [] && PruneEntry(s, entries[0], policy).raised
    ensures Offends(s, entries, policy)
  {
    if WellNamed(entries[0]) {
      assert Position(entries, entries[0].name) == 0;
      assert Mismatch(s, entries, policy, entries[0].name);
    } else {
      assert IllNamed(entries[0]);
    }
  }

  lemma {:induction false} LoopRaisesIff(s: Store, entries: seq<AckEntry>, policy: Policy)
    ensures PruneLoop(s, entries, policy).raised <==> Offends(s, entries, policy)
    decreases |entries|
  {
    if entries != [] {
      var first := PruneEntry(s, entries[0], policy);
      assert [entries[0]] + entries[1..] == entries;
      if first.raised {
        FirstRaises(s, entries, policy);
      } else {
        OffendsAfterEntry(s, entries[0], entries[1..], policy);
        LoopRaisesIff(ApplyAll(s, first.steps), entries[1..], policy);
      }
    }
  }

  ghost predicate Ascending(entries: seq<AckEntry>, removed: seq<RetentionRecord>) {
    forall i, j :: 0 <= i < j < |removed| ==>
      Position(entries, removed[i].entry.name) < Position(entries, removed[j].entry.name)
  }

  lemma AscendsOn(entry: AckEntry, rest: seq<AckEntry>, first: seq<RetentionRecord>, more: seq<RetentionRecord>)
    requires Ascending(rest, more) && |first| <= 1 && (first != [] ==> first[0].entry == entry)
    requires forall r :: r in more ==> r.entry.name != entry.name
    ensures Ascending([entry] + rest, first + more)
  {
    var all := first + more;
    forall i, j | 0 <= i < j < |all|
      ensures Position([entry] + rest, all[i].entry.name) < Position([entry] + rest, all[j].entry.name)
    {
      PositionHead(entry, rest, all[i].entry.name);
      PositionHead(entry, rest, all[j].entry.name);
      var n := |first|;
      assert all[j] == more[j - n];
      if i >= n {
        assert all[i] == more[i - n];
      }
    }
  }

  /** An entry deals with its name: no later entry removes it. */
  lemma NameDoneWith(s: Store, entries: seq<AckEntry>, policy: Policy)
    requires entries != [] && !PruneLoop(s, entries, policy).raised
    ensures var s1 := ApplyAll(s, PruneEntry(s, entries[0], policy).steps);
            forall r :: r in PruneLoop(s1, entries[1..], policy).removed ==> r.entry.name != entries[0].name
  {
    var name := entries[0].name;
    var s1 := ApplyAll(s, PruneEntry(s, entries[0], policy).steps);
    EntryEffect(s, entries[0], policy);
    LoopEffect(s1, entries[1..], policy);
    assert Lookup(s1, name) == if Due(s, [entries[0]], policy, name) then None else Lookup(s, name);
    assert entries[0] in [entries[0]];
    assert !Due(s1, entries[1..], policy, name);
  }

  lemma {:induction false} RemovedAscend(s: Store, entries: seq<AckEntry>, policy: Policy)
    requires !PruneLoop(s, entries, policy).raised
    ensures Ascending(entries, PruneLoop(s, entries, policy).removed)
    decreases |entries|
  {
    if entries != [] {
      var first := PruneEntry(s, entries[0], policy);
      var s1 := ApplyAll(s, first.steps);
      RemovedAscend(s1, entries[1..], policy);
      NameDoneWith(s, entries, policy);
      AscendsOn(entries[0], entries[1..], first.removed, PruneLoop(s1, entries[1..], policy).removed);
      assert [entries[0]] + entries[1..] == entries;
    }
  }

  // ----- the order of the call: results first

  ghost predicate WellKinded(entries: seq<AckEntry>) {
    forall e :: e in entries ==> !IllNamed(e)
  }

  lemma OfKindHead(entry: AckEntry, rest: seq<AckEntry>, inputs: bool)
    requires WellKinded([entry] + rest)
    ensures WellKinded(rest)
    ensures OfKind([entry] + rest, inputs)
         == if entry.name.InputName? == inputs then [entry] + OfKind(rest, inputs) else OfKind(rest, inputs)
  {
    assert entry in [entry] + rest && ([entry] + rest)[1..] == rest;
    assert !IllNamed(entry);
  }

  /** The first entry of a name stands in the list of its kind. */
  ghost predicate SameFirst(kept: seq<AckEntry>, entries: seq<AckEntry>, name: Name) {
    && (Position(kept, name) < |kept| <==> Position(entries, name) < |entries|)
    && (Position(kept, name) < |kept| ==> kept[Position(kept, name)] == entries[Position(entries, name)])
  }

  lemma SameFirstOn(kept: seq<AckEntry>, entries: seq<AckEntry>, entry: AckEntry, name: Name)
    requires SameFirst(kept, entries, name)
    ensures SameFirst([entry] + kept, [entry] + entries, name)
    ensures entry.name != name ==> SameFirst(kept, [entry] + entries, name)
  {
    PositionHead(entry, kept, name);
    PositionHead(entry, entries, name);
  }

  lemma {:induction false} PositionOfKind(entries: seq<AckEntry>, inputs: bool, name: Name)
    requires WellKinded(entries)
    ensures name.InputName? != inputs ==> Position(OfKind(entries, inputs), name) == |OfKind(entries, inputs)|
    ensures name.InputName? == inputs ==> SameFirst(OfKind(entries, inputs), entries, name)
    decreases |entries|
  {
    if entries != [] {
      var entry, rest := entries[0], entries[1..];
      assert [entry] + rest == entries;
      OfKindHead(entry, rest, inputs);
      PositionOfKind(rest, inputs, name);
      PositionHead(entry, OfKind(rest, inputs), name);
      if name.InputName? == inputs {
        SameFirstOn(OfKind(rest, inputs), rest, entry, name);
      }
    }
  }

  lemma {:induction false} OrderOfKind(entries: seq<AckEntry>, inputs: bool, x: Name, y: Name)
    requires WellKinded(entries)
    requires x.InputName? == inputs == y.InputName?
    ensures Position(OfKind(entries, inputs), x) < Position(OfKind(entries, inputs), y)
       <==> Position(entries, x) < Position(entries, y)
    decreases |entries|
  {
    if entries != [] {
      var entry, rest := entries[0], entries[1..];
      assert [entry] + rest == entries;
      OfKindHead(entry, rest, inputs);
      OrderOfKind(rest, inputs, x, y);
      PositionHead(entry, rest, x);
      PositionHead(entry, rest, y);
      PositionHead(entry, OfKind(rest, inputs), x);
      PositionHead(entry, OfKind(rest, inputs), y);
    }
  }

  lemma {:induction false} PositionConcat(a: seq<AckEntry>, b: seq<AckEntry>, name: Name)
    ensures Position(a + b, name) == if Position(a, name) < |a| then Position(a, name) else |a| + Position(b, name)
    decreases |a|
  {
    if a == [] {
      assert a + b == b;
    } else {
      assert (a + b)[0] == a[0] && (a + b)[1..] == a[1..] + b;
      PositionConcat(a[1..], b, name);
    }
  }

  lemma ResultsFirstMembers(entries: seq<AckEntry>)
    ensures forall e :: e in ResultsFirst(entries) <==> e in entries
  {
  }

  /** The first entry of a name is the same one, and results come before inputs. */
  lemma ResultsFirstPosition(entries: seq<AckEntry>, name: Name)
    requires WellKinded(entries)
    ensures var sorted := ResultsFirst(entries);
            && (Position(sorted, name) < |sorted| <==> Position(entries, name) < |entries|)
            && (Position(sorted, name) < |sorted| ==>
                  sorted[Position(sorted, name)] == entries[Position(entries, name)])
  {
    PositionConcat(OfKind(entries, false), OfKind(entries, true), name);
    PositionOfKind(entries, false, name);
    PositionOfKind(entries, true, name);
  }

  lemma OffendsResultsFirst(s: Store, entries: seq<AckEntry>, policy: Policy)
    ensures Offends(s, ResultsFirst(entries), policy) <==> Offends(s, entries, policy)
  {
    ResultsFirstMembers(entries);
    if WellKinded(entries) {
      forall name ensures Mismatch(s, ResultsFirst(entries), policy, name) <==> Mismatch(s, entries, policy, name) {
        ResultsFirstPosition(entries, name);
      }
    }
  }

  /** Results before inputs, and each kind in the order of the acknowledgement. */
  ghost predicate ListedInOrder(entries: seq<AckEntry>, removed: seq<RetentionRecord>) {
    forall i, j :: 0 <= i < j < |removed| ==> Precedes(entries, removed[i].entry.name, removed[j].entry.name)
  }

  ghost predicate Precedes(entries: seq<AckEntry>, x: Name, y: Name) {
    || (x.ResultName? && y.InputName?)
    || (x.ResultName? == y.ResultName? && Position(entries, x) < Position(entries, y))
  }

  lemma SortedPosition(entries: seq<AckEntry>, name: Name)
    requires WellKinded(entries)
    ensures var results, inputs := OfKind(entries, false), OfKind(entries, true);
            Position(ResultsFirst(entries), name)
            == if name.InputName? then |results| + Position(inputs, name)
               else if Position(results, name) < |results| then Position(results, name) else |results| + |inputs|
  {
    PositionConcat(OfKind(entries, false), OfKind(entries, true), name);
    PositionOfKind(entries, false, name);
    PositionOfKind(entries, true, name);
  }

  lemma PrecedesSorted(entries: seq<AckEntry>, x: Name, y: Name)
    requires WellKinded(entries)
    requires Position(ResultsFirst(entries), x) < Position(ResultsFirst(entries), y) < |ResultsFirst(entries)|
    ensures Precedes(entries, x, y)
  {
    SortedPosition(entries, x);
    SortedPosition(entries, y);
    if x.InputName? == y.InputName? {
      OrderOfKind(entries, x.InputName?, x, y);
    }
  }

  // ----- said of the files, the acknowledgement and the clock

  /** A hot inbox file names this input, whether or not it passes its checks. */
  ghost predicate Claims(file: InboxFile, name: Name) {
    match file
    case NotJson => false
    case Unverified(claimed) => name == InputName(claimed)
    case Verified(result) => name == InputName(result.inputId)
  }

  /** The current input and result, and the input of every hot result. */
  ghost predicate InUse(s: Store, name: Name) {
    || (s.currentInput.Some? && name == InputName(s.currentInput.value.id))
    || (s.current.Some? && (name == ResultName(s.current.value.id) || name == InputName(s.current.value.inputId)))
    || (exists id :: id in s.results && name == InputName(s.results[id].value.inputId))
    || (exists id :: id in s.inbox && Claims(s.inbox[id], name))
  }

  /** The advice is one of the current result. */
  ghost predicate ShownNow(s: Store, id: Id) {
    s.current.Some? && Names(s.current.value.advice, id)
  }

  /** What one call fixes before it deletes. */
  ghost predicate Fixed(policy: Policy, s: Store, ack: Ack, now: Time, retentionDays: int) {
    && (forall name :: name in policy.kept <==> InUse(s, name))
    && (forall id :: id in policy.keptAdvice <==> ShownNow(s, id))
    && policy.cutoff == now - retentionDays * DAY && policy.now == now && policy.ackAt == ack.generatedAt
  }

  ghost predicate Genuine(ack: Ack, now: Time) {
    ack.authentic && ack.generatedAt - now <= 5 * SECOND
  }

  ghost predicate Stale(ack: Ack, now: Time) {
    now - ack.generatedAt > 48 * HOUR
  }

  ghost predicate WithinBudget(s: Store, ack: Ack) {
    |ack.entries| <= 10_000 && forall id :: id in s.inbox ==> s.inbox[id] != NotJson
  }

  ghost predicate PrunedAll(
    s: Store, s': Store, ack: Ack, policy: Policy, now: Time, retentionDays: int, removed: seq<RetentionRecord>)
  {
    && Fixed(policy, s, ack, now, retentionDays) && !Offends(s, ack.entries, policy)
    && Effect(s, s', ack.entries, policy, removed) && ListedInOrder(ack.entries, removed)
  }

  ghost predicate RaisesOn(s: Store, ack: Ack, policy: Policy, now: Time, retentionDays: int) {
    Fixed(policy, s, ack, now, retentionDays) && Offends(s, ack.entries, policy)
  }

  /** What the call answers, and what it leaves when it raises on no entry. */
  ghost predicate PruneMeans(
    s: Store, s': Store, ack: Option<Ack>, now: Time, retentionDays: int, status: PruneStatus)
  {
    if retentionDays < 7 || retentionDays > 30 then status == PruneRaised && s' == s
    else if ack.None? then status == AwaitingAck && s' == s
    else if !Genuine(ack.value, now) then status == PruneRaised && s' == s
    else if Stale(ack.value, now) then status == StaleAck && s' == s
    else if !WithinBudget(s, ack.value) then status == PruneRaised && s' == s
    else
      || (status.Pruned? && exists policy :: PrunedAll(s, s', ack.value, policy, now, retentionDays, status.removed))
      || (status == PruneRaised && exists policy :: RaisesOn(s, ack.value, policy, now, retentionDays))
  }

  lemma KeptIsInUse(s: Store, name: Name)
    ensures name in ProtectedNames(s) <==> InUse(s, name)
  {
    forall id | id in s.inbox ensures name in ClaimedInput(s.inbox[id]) <==> Claims(s.inbox[id], name) {
    }
  }

  lemma KeptAdviceIsShown(s: Store, id: Id)
    ensures id in ProtectedAdvice(s) <==> ShownNow(s, id)
  {
    if s.current.Some? {
      var advice := s.current.value.advice;
      if i :| 0 <= i < |advice| && advice[i].id == id {
        assert advice[i] in advice;
      }
    }
  }

  lemma PolicyFixed(s: Store, ack: Ack, now: Time, retentionDays: int)
    ensures Fixed(PolicyOf(s, ack, now, retentionDays), s, ack, now, retentionDays)
  {
    var policy := PolicyOf(s, ack, now, retentionDays);
    forall name ensures name in policy.kept <==> InUse(s, name) {
      KeptIsInUse(s, name);
    }
    forall id ensures id in policy.keptAdvice <==> ShownNow(s, id) {
      KeptAdviceIsShown(s, id);
    }
  }

  /** The same entries in another order make the same names due. */
  lemma EffectOfMembers(
    s: Store, s': Store, a: seq<AckEntry>, b: seq<AckEntry>, policy: Policy, removed: seq<RetentionRecord>)
    requires forall e :: e in a <==> e in b
    requires Effect(s, s', a, policy, removed)
    ensures Effect(s, s', b, policy, removed)
  {
    forall name ensures Due(s, a, policy, name) <==> Due(s, b, policy, name) {
    }
    forall id ensures DetailDue(s, a, policy, id) <==> DetailDue(s, b, policy, id) {
    }
    forall name | Due(s, b, policy, name) ensures RecordsName(s'.retained[name], s, b, policy, name) {
      assert RecordsName(s'.retained[name], s, a, policy, name);
    }
  }

  lemma SortedRemovals(entries: seq<AckEntry>, removed: seq<RetentionRecord>)
    requires WellKinded(entries) && Ascending(ResultsFirst(entries), removed)
    requires forall r :: r in removed ==> r.entry in entries
    ensures ListedInOrder(entries, removed)
  {
    ResultsFirstMembers(entries);
    forall i, j | 0 <= i < j < |removed| ensures Precedes(entries, removed[i].entry.name, removed[j].entry.name) {
      var last := removed[j].entry;
      assert removed[j] in removed;
      PositionOfMember(ResultsFirst(entries), last);
      PrecedesSorted(entries, removed[i].entry.name, last.name);
    }
  }

  lemma {:induction false} PositionOfMember(entries: seq<AckEntry>, entry: AckEntry)
    requires entry in entries
    ensures Position(entries, entry.name) < |entries|
    decreases |entries|
  {
    if entries[0] != entry {
      PositionOfMember(entries[1..], entry);
    }
  }

  lemma PruneDeletesAll(s: Store, ack: Ack, now: Time, retentionDays: int)
    ensures var policy := PolicyOf(s, ack, now, retentionDays);
            var run := PruneLoop(s, ResultsFirst(ack.entries), policy);
            if run.raised then RaisesOn(s, ack, policy, now, retentionDays)
            else PrunedAll(s, ApplyAll(s, run.steps), ack, policy, now, retentionDays, run.removed)
  {
    var policy, sorted := PolicyOf(s, ack, now, retentionDays), ResultsFirst(ack.entries);
    var run := PruneLoop(s, sorted, policy);
    PolicyFixed(s, ack, now, retentionDays);
    LoopRaisesIff(s, sorted, policy);
    OffendsResultsFirst(s, ack.entries, policy);
    if !run.raised {
      LoopEffect(s, sorted, policy);
      ResultsFirstMembers(ack.entries);
      EffectOfMembers(s, ApplyAll(s, run.steps), sorted, ack.entries, policy, run.removed);
      RemovedAscend(s, sorted, policy);
      RecordsEntries(s, ApplyAll(s, run.steps), ack.entries, policy, run.removed);
      SortedRemovals(ack.entries, run.removed);
    }
  }

  lemma RecordsEntries(
    s: Store, s': Store, entries: seq<AckEntry>, policy: Policy, removed: seq<RetentionRecord>)
    requires RecordsKept(s, s', entries, policy, removed)
    ensures forall r :: r in removed ==> r.entry in entries
  {
    forall r | r in removed ensures r.entry in entries {
      assert RecordsName(s'.retained[r.entry.name], s, entries, policy, r.entry.name);
    }
  }

  /** The whole call, when it is not cut off. */
  lemma PruneCallMeans(s: Store, ack: Option<Ack>, now: Time, retentionDays: int)
    ensures PruneMeans(s, ApplyAll(s, Prune(s, ack, now, retentionDays)), ack, now, retentionDays,
                       PruneStatusOf(s, ack, now, retentionDays))
  {
    assert (exists id :: id in s.inbox && s.inbox[id] == NotJson) <==> NotJson in s.inbox.Values;
    if MayPrune(s, ack, now, retentionDays) {
      PruneDeletesAll(s, ack.value, now, retentionDays);
    }
  }
}
