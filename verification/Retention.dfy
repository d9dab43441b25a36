/** `prune_acknowledged`: which hot artifacts one call deletes, in which order. */
module Retention {
  import opened Contracts
  import opened Store

  /** The signed acknowledgement file; `authentic` is false for a bad signature or schema. */
  datatype Ack = Ack(authentic: bool, generatedAt: Time, entries: seq<AckEntry>)

  /** What deleting comes to: its steps, whether it raised, and the records of what is gone. */
  datatype PruneRun = PruneRun(steps: seq<Step>, raised: bool, removed: seq<RetentionRecord>)

  const ENTRY_BUDGET := 10_000
  const ACK_LIFETIME: Time := 2 * DAY

  /** The input a hot file names, which keeps that input. */
  function ClaimedInput(file: InboxFile): set<Name> {
    match file
    case NotJson => {}
    case Unverified(claimed) => {InputName(claimed)}
    case Verified(result) => {InputName(result.inputId)}
  }

  function ProtectedNames(s: Store): set<Name> {
    (if s.currentInput.Some? then {InputName(s.currentInput.value.id)} else {})
    + (if s.current.Some? then {ResultName(s.current.value.id), InputName(s.current.value.inputId)} else {})
    + (set id | id in s.results.Keys :: InputName(s.results[id].value.inputId))
    + (set id, name | id in s.inbox.Keys && name in ClaimedInput(s.inbox[id]) :: name)
  }

  function ProtectedAdvice(s: Store): set<Id> {
    if s.current.None? then {} else set a | a in s.current.value.advice :: a.id
  }

  /** What a call fixes before it starts deleting. */
  datatype Policy = Policy(kept: set<Name>, keptAdvice: set<Id>, cutoff: Time, now: Time, ackAt: Time)

  function RemovedDetails(details: map<Id, Aged<Detail>>, advice: seq<Advice>, policy: Policy): seq<Step>
    decreases |advice|
  {
    if advice == [] then []
    else
      var id := advice[0].id;
      if id !in policy.keptAdvice && id in details && details[id].mtime < policy.cutoff then
        [RemoveDetail(id)] + RemovedDetails(details - {id}, advice[1..], policy)
      else RemovedDetails(details, advice[1..], policy)
  }

  predicate WellNamed(entry: AckEntry) {
    (entry.kind.Inputs? && entry.name.InputName?) || (entry.kind.Results? && entry.name.ResultName?)
  }

  /** The artifact an entry names, if it is still there: its content and age. */
  function Lookup(s: Store, name: Name): Option<Aged<Content>> {
    match name
    case InputName(id) => if id in s.inputs then Some(Aged(InputContent(s.inputs[id].value), s.inputs[id].mtime))
      else None
    case ResultName(id) => if id in s.results then Some(Aged(ResultContent(s.results[id].value), s.results[id].mtime))
      else None
  }

  function PruneEntry(s: Store, entry: AckEntry, policy: Policy): PruneRun {
    if !WellNamed(entry) then PruneRun([], true, [])
    else
      var found := Lookup(s, entry.name);
      if entry.name in policy.kept || found.None? then PruneRun([], false, [])
      else if found.value.mtime >= policy.cutoff then PruneRun([], false, [])
      else if found.value.value != entry.digest then PruneRun([], true, [])
      else
        var record := RetentionRecord(entry, policy.now, policy.ackAt);
        match entry.name
        case InputName(id) => PruneRun([WriteRetention(record), RemoveInput(id)], false, [record])
        case ResultName(id) =>
          PruneRun([WriteRetention(record)]
                   + (RemovedDetails(s.details, s.results[id].value.advice, policy)
                     + [RemoveReceipt(id), RemoveResult(id)]),
                   false, [record])
  }

  function PruneLoop(s: Store, entries: seq<AckEntry>, policy: Policy): PruneRun
    decreases |entries|
  {
    if entries == [] then PruneRun([], false, [])
    else
      var first := PruneEntry(s, entries[0], policy);
      if first.raised then first
      else
        var rest := PruneLoop(ApplyAll(s, first.steps), entries[1..], policy);
        PruneRun(first.steps + rest.steps, rest.raised, first.removed + rest.removed)
  }

  /** The stable sort by `kind == "inputs"`: an input goes only after the results. */
  function ResultsFirst(entries: seq<AckEntry>): seq<AckEntry> {
    OfKind(entries, false) + OfKind(entries, true)
  }

  function OfKind(entries: seq<AckEntry>, inputs: bool): (kept: seq<AckEntry>)
    ensures forall e :: e in kept <==> e in entries && e.kind.Inputs? == inputs
  {
    if entries == [] then []
    else (if entries[0].kind.Inputs? == inputs then [entries[0]] else []) + OfKind(entries[1..], inputs)
  }

  function PolicyOf(s: Store, ack: Ack, now: Time, retentionDays: int): Policy {
    Policy(ProtectedNames(s), ProtectedAdvice(s), now - retentionDays * DAY, now, ack.generatedAt)
  }

  /** A call that gets past its guards; the others delete nothing. */
  predicate MayPrune(s: Store, ack: Option<Ack>, now: Time, retentionDays: int) {
    && 7 <= retentionDays <= 30
    && ack.Some? && ack.value.authentic
    && ack.value.generatedAt <= now + 5 * SECOND && now - ack.value.generatedAt <= ACK_LIFETIME
    && |ack.value.entries| <= ENTRY_BUDGET
    && NotJson !in s.inbox.Values
  }

  /** What the call returns, if it does not raise. */
  datatype PruneStatus = AwaitingAck | StaleAck | Pruned(removed: seq<RetentionRecord>) | PruneRaised

  function PruneStatusOf(s: Store, ack: Option<Ack>, now: Time, retentionDays: int): PruneStatus {
    if !(7 <= retentionDays <= 30) then PruneRaised
    else if ack.None? then AwaitingAck
    else if !ack.value.authentic || ack.value.generatedAt > now + 5 * SECOND then PruneRaised
    else if now - ack.value.generatedAt > ACK_LIFETIME then StaleAck
    else if |ack.value.entries| > ENTRY_BUDGET || NotJson in s.inbox.Values then PruneRaised
    else
      var run := PruneLoop(s, ResultsFirst(ack.value.entries), PolicyOf(s, ack.value, now, retentionDays));
      if run.raised then PruneRaised else Pruned(run.removed)
  }

  function Prune(s: Store, ack: Option<Ack>, now: Time, retentionDays: int): seq<Step> {
    if MayPrune(s, ack, now, retentionDays) then
      PruneLoop(s, ResultsFirst(ack.value.entries), PolicyOf(s, ack.value, now, retentionDays)).steps
    else []
  }
}
