/** The forward ledger: first-observation-wins registration and write-once labels. */
module Ledger {
  import opened Contracts
  import opened Samples

  /** The table's primary key. */
  datatype Key = Key(opportunity: Id, horizon: nat, experiment: string)

  datatype Label = Label(at: Time, gross: real, net: Option<real>, evidence: seq<HourBar>)

  /** A row: the advice as archived, when it was published, and its label once sealed. */
  datatype Observation = Observation(advice: Advice, publishedAt: Time, outcome: Option<Label>)

  type Table = map<Key, Observation>

  /** A result with the time its receipt says it was published. */
  datatype Published = Published(result: AnalysisResult, at: Time)

  function KeyOf(advice: Advice): Key {
    Key(advice.opportunityId, advice.horizon, advice.experiment)
  }

  function Bound(advice: Advice): (string, string) {
    (advice.strategyVersion, advice.cost.version)
  }

  // ----- registration

  /** A delayed or expired publication can never become a prospective forecast. */
  predicate InTime(advice: Advice, at: Time) {
    advice.entryAt.Some? && at < Min(advice.entryAt.value, advice.expiresAt)
  }

  /** A row under the advice's key that the advice does not contradict, or no row. */
  predicate Compatible(table: Table, advice: Advice, legacy: bool) {
    KeyOf(advice) in table ==>
      var prior := table[KeyOf(advice)].advice;
      Bound(prior) == Bound(advice) || (legacy && prior.strategyVersion == advice.strategyVersion)
  }

  predicate AllCompatible(table: Table, advice: seq<Advice>, legacy: bool) {
    forall a :: a in advice ==> Compatible(table, a, legacy)
  }

  predicate TimesConsistent(p: Published, now: Time) {
    p.result.generatedAt <= p.at <= now
  }

  /** Whether registration gets past its checks; the archive reader allows legacy replay of v1. */
  predicate Admitted(table: Table, p: Published, now: Time, legacy: bool) {
    (legacy ==> p.result.schema.V1?) && TimesConsistent(p, now) && AllCompatible(table, p.result.advice, legacy)
  }

  function InsertAll(table: Table, advice: seq<Advice>, at: Time): Table
    decreases |advice|
  {
    if advice == [] then table
    else
      var a := advice[0];
      InsertAll(if InTime(a, at) && KeyOf(a) !in table then table[KeyOf(a) := Observation(a, at, None)] else table,
                advice[1..], at)
  }

  function RegisterIn(table: Table, p: Published, now: Time, legacy: bool): Table {
    if Admitted(table, p, now, legacy) then InsertAll(table, p.result.advice, p.at) else table
  }

  /** Replaying a receipt list, up to the first one that raises. */
  function Replay(table: Table, list: seq<Published>, now: Time): (r: (Table, nat))
    ensures r.1 <= |list|
    decreases |list|
  {
    if list == [] || !Admitted(table, list[0], now, list[0].result.schema.V1?) then (table, 0)
    else
      var (end, n) := Replay(RegisterIn(table, list[0], now, list[0].result.schema.V1?), list[1..], now);
      (end, n + 1)
  }

  // ----- what the table should hold, said of the receipts

  /** The first advice for a key, in list order, that was published in time. */
  function FirstOf(advice: seq<Advice>, at: Time, key: Key): Option<Observation> {
    if advice == [] then None
    else if KeyOf(advice[0]) == key && InTime(advice[0], at) then Some(Observation(advice[0], at, None))
    else FirstOf(advice[1..], at, key)
  }

  function FirstObservation(list: seq<Published>, key: Key): Option<Observation> {
    if list == [] then None
    else
      var first := FirstOf(list[0].result.advice, list[0].at, key);
      if first.Some? then first else FirstObservation(list[1..], key)
  }

  /** The registered part of a row: everything but the label. */
  function Registration(table: Table, key: Key): Option<Observation> {
    if key in table then Some(table[key].(outcome := None)) else None
  }

  ghost predicate Refines(table: Table, list: seq<Published>) {
    forall key :: Registration(table, key) == FirstObservation(list, key)
  }

  lemma {:induction false} InsertAllFirst(table: Table, advice: seq<Advice>, at: Time, key: Key)
    ensures var end := InsertAll(table, advice, at);
            && (key in table ==> key in end && end[key] == table[key])
            && (key !in table ==> Registration(end, key) == FirstOf(advice, at, key)
                                  && (key in end ==> end[key].outcome.None?))
    decreases |advice|
  {
    if advice != [] {
      var a := advice[0];
      InsertAllFirst(if InTime(a, at) && KeyOf(a) !in table then table[KeyOf(a) := Observation(a, at, None)] else table,
                     advice[1..], at, key);
    }
  }

  lemma {:induction false} FirstObservationAppend(list: seq<Published>, p: Published, key: Key)
    ensures FirstObservation(list + [p], key)
         == if FirstObservation(list, key).Some? then FirstObservation(list, key)
           else FirstOf(p.result.advice, p.at, key)
    decreases |list|
  {
    if list == [] {
      assert list + [p] == [p];
      assert FirstObservation([p][1..], key) == None;
    } else {
      assert (list + [p])[0] == list[0] && (list + [p])[1..] == list[1..] + [p];
      FirstObservationAppend(list[1..], p, key);
    }
  }

  /** Rows already there are left alone; a new one is the first in time of its result. */
  lemma RegisterRefines(table: Table, done: seq<Published>, p: Published, now: Time, legacy: bool)
    requires Refines(table, done) && Admitted(table, p, now, legacy)
    ensures Refines(RegisterIn(table, p, now, legacy), done + [p])
  {
    forall key ensures Registration(RegisterIn(table, p, now, legacy), key) == FirstObservation(done + [p], key) {
      InsertAllFirst(table, p.result.advice, p.at, key);
      FirstObservationAppend(done, p, key);
      assert Registration(table, key) == FirstObservation(done, key);
    }
  }

  /** A receipt whose advice is all accounted for changes nothing. */
  lemma RegisterCoveredIsNoOp(table: Table, p: Published, now: Time, legacy: bool)
    requires forall a :: a in p.result.advice && InTime(a, p.at) ==> KeyOf(a) in table
    ensures RegisterIn(table, p, now, legacy) == table
  {
    InsertCovered(table, p.result.advice, p.at);
  }

  lemma {:induction false} InsertCovered(table: Table, advice: seq<Advice>, at: Time)
    requires forall a :: a in advice && InTime(a, at) ==> KeyOf(a) in table
    ensures InsertAll(table, advice, at) == table
    decreases |advice|
  {
    if advice != [] {
      InsertCovered(table, advice[1..], at);
    }
  }

  ghost predicate Covered(table: Table, list: seq<Published>) {
    forall p, a :: p in list && a in p.result.advice && InTime(a, p.at) ==> KeyOf(a) in table
  }

  /** Replaying receipts the table covers leaves it as it is, raising or not. */
  lemma {:induction false} ReplayIsNoOp(table: Table, list: seq<Published>, now: Time)
    requires Covered(table, list)
    ensures Replay(table, list, now).0 == table
    decreases |list|
  {
    if list != [] {
      RegisterCoveredIsNoOp(table, list[0], now, list[0].result.schema.V1?);
      ReplayIsNoOp(table, list[1..], now);
    }
  }

  lemma {:induction false} FirstOfCovers(advice: seq<Advice>, at: Time, a: Advice)
    requires a in advice && InTime(a, at)
    ensures FirstOf(advice, at, KeyOf(a)).Some?
    decreases |advice|
  {
    if a != advice[0] {
      FirstOfCovers(advice[1..], at, a);
    }
  }

  lemma {:induction false} FirstObservationCovers(list: seq<Published>, p: Published, a: Advice)
    requires p in list && a in p.result.advice && InTime(a, p.at)
    ensures FirstObservation(list, KeyOf(a)).Some?
    decreases |list|
  {
    if p == list[0] {
      FirstOfCovers(p.result.advice, p.at, a);
    } else {
      FirstObservationCovers(list[1..], p, a);
    }
  }

  lemma RefinesCovers(table: Table, list: seq<Published>)
    requires Refines(table, list)
    ensures Covered(table, list)
  {
    forall p, a | p in list && a in p.result.advice && InTime(a, p.at) ensures KeyOf(a) in table {
      FirstObservationCovers(list, p, a);
      assert Registration(table, KeyOf(a)) == FirstObservation(list, KeyOf(a));
    }
  }

  /** Ledger refinement, one run: a table that holds the fold of `done` and then replays a longer
      list holds the fold of what that replay reached, or still of `done` if it raised earlier. */
  lemma {:induction false} ReplayRefines(table: Table, done: seq<Published>, list: seq<Published>, now: Time)
    requires Refines(table, done) && done <= list
    ensures var (end, n) := Replay(table, list, now);
            Refines(end, if n <= |done| then done else list[..n])
  {
    RefinesCovers(table, done);
    ReplayFrom(table, done, list, 0, now);
  }

  lemma {:induction false} ReplayFrom(table: Table, done: seq<Published>, list: seq<Published>, i: nat, now: Time)
    requires i <= |list| && done <= list
    requires Refines(table, if i <= |done| then done else list[..i]) && Covered(table, done)
    ensures var (end, n) := Replay(table, list[i..], now);
            Refines(end, if i + n <= |done| then done else list[..i + n])
    decreases |list| - i
  {
    if i < |list| && Admitted(table, list[i], now, list[i].result.schema.V1?) {
      var p, legacy := list[i], list[i].result.schema.V1?;
      var next := RegisterIn(table, p, now, legacy);
      assert list[i..][0] == p && list[i..][1..] == list[i + 1..];
      if i < |done| {
        assert p in done;
        RegisterCoveredIsNoOp(table, p, now, legacy);
      } else {
        assert list[..i + 1] == list[..i] + [p];
        assert (if i <= |done| then done else list[..i]) == list[..i];
        RegisterRefines(table, list[..i], p, now, legacy);
        RegisterKeeps(table, p, now, legacy);
      }
      ReplayFrom(next, done, list, i + 1, now);
    }
  }

  /** Receipts the table covers are passed over, unless one of them raises. */
  lemma {:induction false} ReplayKnown(table: Table, known: seq<Published>, more: seq<Published>, now: Time)
    requires Covered(table, known)
    ensures var n := Replay(table, known, now).1;
            Replay(table, known + more, now)
            == if n < |known| then (table, n) else (Replay(table, more, now).0, |known| + Replay(table, more, now).1)
    decreases |known|
  {
    if known == [] {
      assert known + more == more;
    } else {
      assert (known + more)[0] == known[0] && (known + more)[1..] == known[1..] + more;
      RegisterCoveredIsNoOp(table, known[0], now, known[0].result.schema.V1?);
      assert known[0] in known && Covered(table, known[1..]);
      ReplayKnown(table, known[1..], more, now);
    }
  }

  /** One run on a list that has lost some of the receipts of `done` and goes on with `more`. */
  lemma ReplayThinned(table: Table, done: seq<Published>, known: seq<Published>, more: seq<Published>, now: Time)
    requires Refines(table, done) && forall p :: p in known ==> p in done
    ensures var (end, n) := Replay(table, known + more, now);
            Refines(end, if n <= |known| then done else done + more[..n - |known|])
  {
    RefinesCovers(table, done);
    ReplayKnown(table, known, more, now);
    ReplayFrom(table, done, done + more, |done|, now);
    assert (done + more)[|done|..] == more && (done + more)[..|done|] == done;
    var n := Replay(table, more, now).1;
    assert (done + more)[..|done| + n] == done + more[..n];
  }

  /** Existing rows are never touched by registration. */
  lemma RegisterKeeps(table: Table, p: Published, now: Time, legacy: bool)
    ensures forall key :: key in table ==>
              key in RegisterIn(table, p, now, legacy) && RegisterIn(table, p, now, legacy)[key] == table[key]
  {
    forall key | key in table
      ensures key in RegisterIn(table, p, now, legacy) && RegisterIn(table, p, now, legacy)[key] == table[key]
    {
      InsertAllFirst(table, p.result.advice, p.at, key);
    }
  }

  lemma {:induction false} ReplayKeeps(table: Table, list: seq<Published>, now: Time)
    ensures forall key :: key in table ==>
              key in Replay(table, list, now).0 && Replay(table, list, now).0[key] == table[key]
    decreases |list|
  {
    if list != [] && Admitted(table, list[0], now, list[0].result.schema.V1?) {
      RegisterKeeps(table, list[0], now, list[0].result.schema.V1?);
      ReplayKeeps(RegisterIn(table, list[0], now, list[0].result.schema.V1?), list[1..], now);
    }
  }

  // ----- when a replay goes through

  predicate DistinctKeys(advice: seq<Advice>) {
    forall i, j :: 0 <= i < j < |advice| ==> KeyOf(advice[i]) != KeyOf(advice[j])
  }

  lemma {:induction false} FirstOfDistinct(advice: seq<Advice>, at: Time, a: Advice)
    requires DistinctKeys(advice) && a in advice && InTime(a, at)
    ensures FirstOf(advice, at, KeyOf(a)) == Some(Observation(a, at, None))
    decreases |advice|
  {
    if a != advice[0] {
      var i :| 0 <= i < |advice| && advice[i] == a;
      assert KeyOf(advice[0]) != KeyOf(advice[i]);
      FirstOfDistinct(advice[1..], at, a);
    }
  }

  /** What was published in time never contradicts the table a completed replay leaves. */
  lemma {:induction false} InTimeCompatible(table: Table, list: seq<Published>, now: Time, p: Published, a: Advice)
    requires Replay(table, list, now).1 == |list|
    requires forall q :: q in list ==> DistinctKeys(q.result.advice)
    requires p in list && a in p.result.advice && InTime(a, p.at)
    ensures Compatible(Replay(table, list, now).0, a, p.result.schema.V1?)
    decreases |list|
  {
    var first := list[0];
    var next := RegisterIn(table, first, now, first.result.schema.V1?);
    if p == first {
      InsertAllFirst(table, first.result.advice, first.at, KeyOf(a));
      FirstOfDistinct(first.result.advice, first.at, a);
      assert KeyOf(a) in next;
      ReplayKeeps(next, list[1..], now);
    } else {
      InTimeCompatible(next, list[1..], now, p, a);
    }
  }

  lemma {:induction false} ReplayCoveredIff(table: Table, list: seq<Published>, now: Time)
    requires Covered(table, list)
    ensures Replay(table, list, now).1 == |list| <==>
            forall p :: p in list ==> Admitted(table, p, now, p.result.schema.V1?)
    decreases |list|
  {
    if list != [] {
      RegisterCoveredIsNoOp(table, list[0], now, list[0].result.schema.V1?);
      ReplayCoveredIff(table, list[1..], now);
    }
  }

  lemma {:induction false} ReplayedTimes(table: Table, list: seq<Published>, now: Time, p: Published)
    requires Replay(table, list, now).1 == |list| && p in list
    ensures TimesConsistent(p, now)
    decreases |list|
  {
    if p != list[0] {
      ReplayedTimes(RegisterIn(table, list[0], now, list[0].result.schema.V1?), list[1..], now, p);
    }
  }

  /** A list that was once replayed in full is replayed in full again if and only if none of its
      late advice contradicts a row that some other receipt registered. */
  lemma ReplayAgainIff(list: seq<Published>, now: Time, later: Time)
    requires Replay(map[], list, now).1 == |list| && now <= later
    requires forall q :: q in list ==> DistinctKeys(q.result.advice)
    ensures var table := Replay(map[], list, now).0;
            Replay(table, list, later).1 == |list| <==>
            forall p, a :: p in list && a in p.result.advice && !InTime(a, p.at) ==>
              Compatible(table, a, p.result.schema.V1?)
  {
    var table := Replay(map[], list, now).0;
    assert Refines(map[], []);
    ReplayRefines(map[], [], list, now);
    assert list[..|list|] == list;
    RefinesCovers(table, list);
    ReplayCoveredIff(table, list, later);
    forall p, a | p in list && a in p.result.advice && InTime(a, p.at)
      ensures Compatible(table, a, p.result.schema.V1?)
    {
      InTimeCompatible(map[], list, now, p, a);
    }
    forall p | p in list ensures TimesConsistent(p, later) {
      ReplayedTimes(map[], list, now, p);
    }
  }

  // ----- a list on which it does not

  /** An item of the hour at time zero, from an input with missing costs of this version. */
  function SampleItem(inputId: Id, expires: Time, version: string): (Symbol, nat) -> Advice {
    (symbol: Symbol, horizon: nat) =>
      NoViewAdvice(symbol, horizon, 0, expires, Some(0), MissingCost(symbol, version), inputId)
  }

  function SamplePublished(id: Id, at: Time, expires: Time, version: string): Published {
    Published(AnalysisResult(id, V3, 0, id, "commit", Eight(SampleItem(id, expires, version))), at)
  }

  lemma SampleValid(id: Id, at: Time, expires: Time, version: string)
    requires 0 <= expires <= HOUR
    ensures SamplePublished(id, at, expires, version).result.Valid()
  {
    var result, item := SamplePublished(id, at, expires, version).result, SampleItem(id, expires, version);
    EightInScope(result.advice, item);
    forall s: Symbol, h: nat | h in HORIZONS ensures result.ValidAdvice(item(s, h)) {
      NoViewCoherent(s, h, 0, expires, Some(0), MissingCost(s, version), id);
    }
    EachItem(item, a => result.ValidAdvice(a));
    PartsSuffice(result);
  }

  /** Nothing in time, nothing inserted. */
  lemma {:induction false} NothingInserted(table: Table, advice: seq<Advice>, at: Time)
    requires forall a :: a in advice ==> !InTime(a, at)
    ensures InsertAll(table, advice, at) == table
    decreases |advice|
  {
    if advice != [] {
      NothingInserted(table, advice[1..], at);
    }
  }

  lemma FirstSample(now: Time)
    requires 10 <= now
    ensures var p := SamplePublished(1, 10, 5, "none");
            Admitted(map[], p, now, false) && RegisterIn(map[], p, now, false) == map[]
  {
    var p := SamplePublished(1, 10, 5, "none");
    assert forall i :: 0 <= i < |p.result.advice| ==> p.result.advice[i].expiresAt == 5;
    NothingInserted(map[], p.result.advice, 10);
  }

  lemma SecondSample(now: Time)
    requires 20 <= now
    ensures var p := SamplePublished(2, 20, HOUR, "v1");
            var table := RegisterIn(map[], p, now, false);
            && Admitted(map[], p, now, false)
            && Key(0, 4, EXPERIMENT_VERSION) in table
            && table[Key(0, 4, EXPERIMENT_VERSION)].advice.cost.version == "v1"
  {
    var p, key := SamplePublished(2, 20, HOUR, "v1"), Key(0, 4, EXPERIMENT_VERSION);
    var a := p.result.advice[0];
    assert KeyOf(a) == key && InTime(a, 20);
    InsertAllFirst(map[], p.result.advice, 20, key);
    assert FirstOf(p.result.advice, 20, key) == Some(Observation(a, 20, None));
  }

  lemma FirstSampleBlocked(table: Table, now: Time)
    requires Key(0, 4, EXPERIMENT_VERSION) in table
    requires table[Key(0, 4, EXPERIMENT_VERSION)].advice.cost.version == "v1"
    ensures !Admitted(table, SamplePublished(1, 10, 5, "none"), now, false)
  {
    var p := SamplePublished(1, 10, 5, "none");
    var a := p.result.advice[0];
    assert |"none"| != |"v1"|;
    assert a in p.result.advice && !Compatible(table, a, false);
  }

  lemma ReplayTwo(first: Published, second: Published, now: Time)
    requires !first.result.schema.V1? && !second.result.schema.V1?
    requires Admitted(map[], first, now, false) && RegisterIn(map[], first, now, false) == map[]
    requires Admitted(map[], second, now, false)
    ensures Replay(map[], [first, second], now) == (RegisterIn(map[], second, now, false), 2)
    ensures forall table, later ::
              !Admitted(table, first, later, false) ==> Replay(table, [first, second], later).1 == 0
  {
    assert [first, second][1..] == [second] && [second][1..] == [];
    assert Replay(map[], [second], now) == (RegisterIn(map[], second, now, false), 1);
  }

  /** An expired first publication leaves no row, a second one from an input with another cost
      version does; from then on every replay of the list raises at the first receipt. */
  lemma LateVersionBlocksReplay()
    ensures var list := [SamplePublished(1, 10, 5, "none"), SamplePublished(2, 20, HOUR, "v1")];
            var (table, n) := Replay(map[], list, 30);
            && list[0].result.Valid() && list[1].result.Valid()
            && n == 2 && Key(0, 4, EXPERIMENT_VERSION) in table
            && forall later :: Replay(table, list, later).1 == 0
  {
    var first, second := SamplePublished(1, 10, 5, "none"), SamplePublished(2, 20, HOUR, "v1");
    SampleValid(1, 10, 5, "none");
    SampleValid(2, 20, HOUR, "v1");
    FirstSample(30);
    SecondSample(30);
    var table := RegisterIn(map[], second, 30, false);
    forall later ensures !Admitted(table, first, later, false) {
      FirstSampleBlocked(table, later);
    }
    ReplayTwo(first, second, 30);
  }

  // ----- labels

  predicate ValidBars(bars: seq<HourBar>) {
    forall b :: b in bars ==> b.open > 0.0
  }

  /** The bar a lookup finds: the last available one of the list with that symbol and hour. */
  function BarAt(bars: seq<HourBar>, symbol: Symbol, ts: Time, now: Time): (bar: Option<HourBar>)
    ensures bar.Some? ==>
              bar.value in bars && bar.value.symbol == symbol && bar.value.ts == ts && bar.value.Available(now)
    decreases |bars|
  {
    if bars == [] then None
    else
      var last := bars[|bars| - 1];
      if last.symbol == symbol && last.ts == ts && last.Available(now) then Some(last)
      else BarAt(bars[..|bars| - 1], symbol, ts, now)
  }

  function WindowAt(bars: seq<HourBar>, advice: Advice, now: Time): (window: seq<Option<HourBar>>)
    requires advice.entryAt.Some?
    ensures |window| == advice.horizon + 1
  {
    seq(advice.horizon + 1, i requires 0 <= i => BarAt(bars, advice.symbol, advice.entryAt.value + i * HOUR, now))
  }

  predicate Pending(o: Observation, now: Time) {
    o.outcome.None? && o.advice.entryAt.Some? && o.advice.exitAt.Some? && o.advice.exitAt.value + HOUR <= now
  }

  predicate Whole(window: seq<Option<HourBar>>) {
    forall i :: 0 <= i < |window| ==> window[i].Some?
  }

  function Sealed(o: Observation, bars: seq<HourBar>, now: Time): Observation
    requires ValidBars(bars)
  {
    if !Pending(o, now) then o
    else
      var window := WindowAt(bars, o.advice, now);
      if !Whole(window) then o
      else
        var evidence := seq(|window|, i requires 0 <= i < |window| => window[i].value);
        var first, last := evidence[0], evidence[|evidence| - 1];
        assert first in bars && last in bars;
        var gross := (last.open / first.open - 1.0) * 10_000.0;
        var cost := o.advice.cost.roundtripBps;
        o.(outcome := Some(Label(now, gross, if cost.Some? then Some(gross - cost.value) else None, evidence)))
  }

  function MatureIn(table: Table, bars: seq<HourBar>, now: Time): Table
    requires ValidBars(bars)
  {
    map key | key in table :: Sealed(table[key], bars, now)
  }

  /** A label is sealed no earlier than an hour after the exit, rests on one bar for each hour from
      entry to exit, each closed and ingested by then, and returns exit open over entry open. */
  lemma SealedLabel(o: Observation, bars: seq<HourBar>, now: Time)
    requires ValidBars(bars) && o.outcome.None? && Sealed(o, bars, now).outcome.Some?
    ensures var l, a := Sealed(o, bars, now).outcome.value, o.advice;
            && a.entryAt.Some? && a.exitAt.Some? && l.at == now >= a.exitAt.value + HOUR
            && |l.evidence| == a.horizon + 1
            && (forall i :: 0 <= i < |l.evidence| ==>
                  && l.evidence[i] in bars && l.evidence[i].symbol == a.symbol
                  && l.evidence[i].ts == a.entryAt.value + i * HOUR && l.evidence[i].Available(now))
            && l.evidence[0].open > 0.0
            && l.gross == (l.evidence[a.horizon].open / l.evidence[0].open - 1.0) * 10_000.0
            && l.net == (if a.cost.roundtripBps.Some? then Some(l.gross - a.cost.roundtripBps.value) else None)
  {
    var window := WindowAt(bars, o.advice, now);
    assert window[0].value in bars;
  }

  // ----- what labelling means, said of the bars

  /** The bar opens this hour of the symbol, has closed and was ingested by now. */
  ghost predicate Opens(bar: HourBar, symbol: Symbol, ts: Time, now: Time) {
    bar.symbol == symbol && bar.ts == ts && ts + HOUR <= now && bar.ingestTs <= now
  }

  ghost predicate HasBar(bars: seq<HourBar>, symbol: Symbol, entry: Time, hour: int, now: Time) {
    exists i :: 0 <= i < |bars| && Opens(bars[i], symbol, entry + hour * HOUR, now)
  }

  /** Of several bars of one hour, the last listed. */
  ghost predicate LastListed(bars: seq<HourBar>, symbol: Symbol, ts: Time, now: Time, bar: HourBar) {
    exists i :: 0 <= i < |bars| && bars[i] == bar && Opens(bar, symbol, ts, now)
                && forall j :: i < j < |bars| ==> !Opens(bars[j], symbol, ts, now)
  }

  /** The exit hour is over and every hour from entry to exit has its bar. */
  ghost predicate WindowClosed(a: Advice, bars: seq<HourBar>, now: Time) {
    && a.entryAt.Some? && a.exitAt.Some? && a.exitAt.value + HOUR <= now
    && forall hour :: 0 <= hour <= a.horizon ==> HasBar(bars, a.symbol, a.entryAt.value, hour, now)
  }

  ghost predicate LabelOf(a: Advice, bars: seq<HourBar>, now: Time, l: Label) {
    && a.entryAt.Some? && l.at == now && |l.evidence| == a.horizon + 1
    && (forall i :: 0 <= i <= a.horizon ==>
          LastListed(bars, a.symbol, a.entryAt.value + i * HOUR, now, l.evidence[i]))
    && l.evidence[0].open > 0.0
    && l.gross == (l.evidence[a.horizon].open / l.evidence[0].open - 1.0) * 10_000.0
    && (a.cost.roundtripBps.None? ==> l.net.None?)
    && (a.cost.roundtripBps.Some? ==> l.net == Some(l.gross - a.cost.roundtripBps.value))
  }

  /** A label that is there stays; a missing one appears exactly when the window has closed. */
  ghost predicate Labelled(before: Observation, after: Observation, bars: seq<HourBar>, now: Time) {
    && after.advice == before.advice && after.publishedAt == before.publishedAt
    && (before.outcome.Some? ==> after.outcome == before.outcome)
    && (before.outcome.None? ==>
          && (after.outcome.Some? <==> WindowClosed(before.advice, bars, now))
          && (after.outcome.Some? ==> LabelOf(before.advice, bars, now, after.outcome.value)))
  }

  lemma LastListedBefore(bars: seq<HourBar>, symbol: Symbol, ts: Time, now: Time, bar: HourBar)
    requires bars != [] && !Opens(bars[|bars| - 1], symbol, ts, now)
    requires LastListed(bars[..|bars| - 1], symbol, ts, now, bar)
    ensures LastListed(bars, symbol, ts, now, bar)
  {
    var before := bars[..|bars| - 1];
    var i :| 0 <= i < |before| && before[i] == bar && Opens(bar, symbol, ts, now)
             && forall j :: i < j < |before| ==> !Opens(before[j], symbol, ts, now);
    assert bars[i] == bar && forall j :: i < j < |bars| - 1 ==> bars[j] == before[j];
  }

  lemma {:induction false} BarAtMeans(bars: seq<HourBar>, symbol: Symbol, ts: Time, now: Time)
    ensures BarAt(bars, symbol, ts, now).None? ==> forall i :: 0 <= i < |bars| ==> !Opens(bars[i], symbol, ts, now)
    ensures BarAt(bars, symbol, ts, now).Some? ==> LastListed(bars, symbol, ts, now, BarAt(bars, symbol, ts, now).value)
    decreases |bars|
  {
    if bars != [] {
      var before, last := bars[..|bars| - 1], bars[|bars| - 1];
      if Opens(last, symbol, ts, now) {
        assert LastListed(bars, symbol, ts, now, last);
      } else {
        BarAtMeans(before, symbol, ts, now);
        if BarAt(before, symbol, ts, now).Some? {
          LastListedBefore(bars, symbol, ts, now, BarAt(before, symbol, ts, now).value);
        } else {
          assert forall i :: 0 <= i < |before| ==> bars[i] == before[i];
        }
      }
    }
  }

  lemma WholeMeans(a: Advice, bars: seq<HourBar>, now: Time)
    requires a.entryAt.Some?
    ensures Whole(WindowAt(bars, a, now))
       <==> forall hour :: 0 <= hour <= a.horizon ==> HasBar(bars, a.symbol, a.entryAt.value, hour, now)
  {
    var window := WindowAt(bars, a, now);
    forall hour | 0 <= hour <= a.horizon
      ensures HasBar(bars, a.symbol, a.entryAt.value, hour, now) <==> window[hour].Some?
    {
      BarAtMeans(bars, a.symbol, a.entryAt.value + hour * HOUR, now);
    }
  }

  lemma SealedMeans(o: Observation, bars: seq<HourBar>, now: Time)
    requires ValidBars(bars)
    ensures Labelled(o, Sealed(o, bars, now), bars, now)
  {
    if Pending(o, now) {
      WholeMeans(o.advice, bars, now);
      if Sealed(o, bars, now).outcome.Some? {
        SealedLabel(o, bars, now);
        forall i | 0 <= i <= o.advice.horizon
          ensures LastListed(bars, o.advice.symbol, o.advice.entryAt.value + i * HOUR, now,
                             Sealed(o, bars, now).outcome.value.evidence[i])
        {
          BarAtMeans(bars, o.advice.symbol, o.advice.entryAt.value + i * HOUR, now);
        }
      }
    }
  }

  function InWindow(bars: seq<HourBar>, symbol: Symbol, from: Time, to: Time, now: Time): seq<HourBar>
    decreases |bars|
  {
    if bars == [] then []
    else
      var last := bars[|bars| - 1];
      InWindow(bars[..|bars| - 1], symbol, from, to, now)
      + if last.symbol == symbol && from <= last.ts <= to && last.Available(now) then [last] else []
  }

  lemma BarAtAppend(bars: seq<HourBar>, x: HourBar, symbol: Symbol, ts: Time, now: Time)
    ensures BarAt(bars + [x], symbol, ts, now)
            == if x.symbol == symbol && x.ts == ts && x.Available(now) then Some(x) else BarAt(bars, symbol, ts, now)
  {
    assert (bars + [x])[..|bars|] == bars;
  }

  lemma {:induction false} BarAtInWindow(bars: seq<HourBar>, symbol: Symbol, from: Time, to: Time, ts: Time, now: Time)
    requires from <= ts <= to
    ensures BarAt(bars, symbol, ts, now) == BarAt(InWindow(bars, symbol, from, to, now), symbol, ts, now)
    decreases |bars|
  {
    if bars != [] {
      var before, last := bars[..|bars| - 1], bars[|bars| - 1];
      BarAtInWindow(before, symbol, from, to, ts, now);
      var kept := InWindow(before, symbol, from, to, now);
      assert bars == before + [last] && kept + [] == kept;
      BarAtAppend(before, last, symbol, ts, now);
      BarAtAppend(kept, last, symbol, ts, now);
    }
  }

  lemma BarAtSame(a: seq<HourBar>, b: seq<HourBar>, symbol: Symbol, from: Time, to: Time, ts: Time, now: Time)
    requires from <= ts <= to && InWindow(a, symbol, from, to, now) == InWindow(b, symbol, from, to, now)
    ensures BarAt(a, symbol, ts, now) == BarAt(b, symbol, ts, now)
  {
    BarAtInWindow(a, symbol, from, to, ts, now);
    BarAtInWindow(b, symbol, from, to, ts, now);
  }

  /** Only the bars of the symbol from entry to exit that are closed and ingested by now matter. */
  lemma SealedIsLocal(o: Observation, a: seq<HourBar>, b: seq<HourBar>, now: Time)
    requires ValidBars(a) && ValidBars(b)
    requires o.advice.entryAt.Some? && o.advice.exitAt == Some(o.advice.entryAt.value + o.advice.horizon * HOUR)
    requires InWindow(a, o.advice.symbol, o.advice.entryAt.value, o.advice.exitAt.value, now)
          == InWindow(b, o.advice.symbol, o.advice.entryAt.value, o.advice.exitAt.value, now)
    ensures Sealed(o, a, now) == Sealed(o, b, now)
  {
    assert WindowAt(a, o.advice, now) == WindowAt(b, o.advice, now) by {
      var entry, exit := o.advice.entryAt.value, o.advice.exitAt.value;
      forall i: nat | i <= o.advice.horizon
        ensures BarAt(a, o.advice.symbol, entry + i * HOUR, now) == BarAt(b, o.advice.symbol, entry + i * HOUR, now)
      {
        BarAtSame(a, b, o.advice.symbol, entry, exit, entry + i * HOUR, now);
      }
    }
  }

  // ----- worker runs

  /** One worker run: the receipts it pulled, how many had been written by then, the history it
      has, and when. */
  datatype WorkerRun = WorkerRun(list: seq<Published>, written: nat, bars: seq<HourBar>, now: Time)

  /** A receipt that raises ends the run before anything is labelled. */
  function AfterRun(table: Table, run: WorkerRun): Table
    requires ValidBars(run.bars)
  {
    var (replayed, n) := Replay(table, run.list, run.now);
    if n < |run.list| then replayed else MatureIn(replayed, run.bars, run.now)
  }

  ghost predicate ValidRuns(runs: seq<WorkerRun>) {
    forall r :: r in runs ==> ValidBars(r.bars)
  }

  function AfterRuns(table: Table, runs: seq<WorkerRun>): Table
    requires ValidRuns(runs)
    decreases |runs|
  {
    if runs == [] then table else AfterRuns(AfterRun(table, runs[0]), runs[1..])
  }

  /** The run's list is what had been written of `all`, in order, except that retention may have
      removed any of the first `done` receipts. */
  ghost predicate Pulls(run: WorkerRun, all: seq<Published>, done: nat) {
    && done <= run.written <= |all| && run.written - done <= |run.list|
    && run.list[Kept(run, done)..] == all[done..run.written]
    && forall p :: p in run.list[..Kept(run, done)] ==> p in all[..done]
  }

  /** How many of the first `done` receipts are still in the list. */
  function Kept(run: WorkerRun, done: nat): int {
    |run.list| - (run.written - done)
  }

  /** How many receipts are accounted for after a run, of `done` before it. */
  function ReachedBy(table: Table, done: nat, run: WorkerRun): nat {
    var n := Replay(table, run.list, run.now).1;
    if n <= Kept(run, done) then done else done + n - Kept(run, done)
  }

  function Reached(table: Table, done: nat, runs: seq<WorkerRun>): nat
    requires ValidRuns(runs)
    decreases |runs|
  {
    if runs == [] then done
    else Reached(AfterRun(table, runs[0]), ReachedBy(table, done, runs[0]), runs[1..])
  }

  /** Only receipts that some run has reached are ever removed. */
  ghost predicate AllPull(table: Table, all: seq<Published>, done: nat, runs: seq<WorkerRun>)
    requires ValidRuns(runs)
    decreases |runs|
  {
    runs == [] ||
    (Pulls(runs[0], all, done)
     && AllPull(AfterRun(table, runs[0]), all, ReachedBy(table, done, runs[0]), runs[1..]))
  }

  lemma MatureRefines(table: Table, list: seq<Published>, bars: seq<HourBar>, now: Time)
    requires Refines(table, list) && ValidBars(bars)
    ensures Refines(MatureIn(table, bars, now), list)
  {
    forall key ensures Registration(MatureIn(table, bars, now), key) == FirstObservation(list, key) {
      assert Registration(table, key) == FirstObservation(list, key);
    }
  }

  lemma RunRefines(table: Table, all: seq<Published>, done: nat, run: WorkerRun)
    requires Pulls(run, all, done) && Refines(table, all[..done]) && ValidBars(run.bars)
    ensures ReachedBy(table, done, run) <= |all|
    ensures Refines(AfterRun(table, run), all[..ReachedBy(table, done, run)])
  {
    var known, more := run.list[..Kept(run, done)], all[done..run.written];
    var (replayed, n) := Replay(table, run.list, run.now);
    assert run.list == known + more;
    ReplayThinned(table, all[..done], known, more, run.now);
    if n > |known| {
      assert all[..done] + more[..n - |known|] == all[..done + n - |known|];
    }
    if n == |run.list| {
      MatureRefines(replayed, all[..ReachedBy(table, done, run)], run.bars, run.now);
    }
  }

  /** Ledger refinement. Over any sequence of worker runs on a receipt list that grows at its end
      and may lose receipts already reached, the registered part of the table is the first
      observation in time for each key, among all the receipts any run has reached. */
  lemma {:induction false} LedgerRefinement(table: Table, all: seq<Published>, done: nat, runs: seq<WorkerRun>)
    requires done <= |all| && Refines(table, all[..done]) && ValidRuns(runs) && AllPull(table, all, done, runs)
    ensures Reached(table, done, runs) <= |all|
    ensures Refines(AfterRuns(table, runs), all[..Reached(table, done, runs)])
    decreases |runs|
  {
    if runs != [] {
      RunRefines(table, all, done, runs[0]);
      LedgerRefinement(AfterRun(table, runs[0]), all, ReachedBy(table, done, runs[0]), runs[1..]);
    }
  }

  /** Rows are never lost, registered fields never change, and labels are write-once. */
  ghost predicate Extends(table: Table, later: Table) {
    forall key :: key in table ==>
      && key in later
      && later[key].advice == table[key].advice && later[key].publishedAt == table[key].publishedAt
      && (table[key].outcome.Some? ==> later[key].outcome == table[key].outcome)
  }

  lemma {:induction false} LedgerIsAppendOnly(table: Table, runs: seq<WorkerRun>)
    requires ValidRuns(runs)
    ensures Extends(table, AfterRuns(table, runs))
    decreases |runs|
  {
    if runs != [] {
      ReplayKeeps(table, runs[0].list, runs[0].now);
      LedgerIsAppendOnly(AfterRun(table, runs[0]), runs[1..]);
    }
  }

  // ----- the table as the worker updates it

  /** The legacy replays the check passes over: up to the first item that raises, those whose
      cost version differs from the registered one. */
  function Preserved(table: Table, advice: seq<Advice>, legacy: bool): nat {
    if advice == [] || !Compatible(table, advice[0], legacy) then 0
    else
      (if KeyOf(advice[0]) in table && Bound(table[KeyOf(advice[0])].advice) != Bound(advice[0]) then 1 else 0)
      + Preserved(table, advice[1..], legacy)
  }

  lemma {:induction false} NonePreserved(table: Table, advice: seq<Advice>)
    ensures Preserved(table, advice, false) == 0
    decreases |advice|
  {
    if advice != [] {
      NonePreserved(table, advice[1..]);
    }
  }

  datatype Admission = Inserted(count: nat) | Refused

  // ----- what registering means, said of the receipt and the rows

  /** The row's key is the advice's opportunity, horizon and experiment. */
  ghost predicate Keyed(key: Key, a: Advice) {
    key.opportunity == a.opportunityId && key.horizon == a.horizon && key.experiment == a.experiment
  }

  /** A row of the advice's key holds another strategy version, or another cost version that is
      not passed over. */
  ghost predicate Contradicts(table: Table, a: Advice, legacy: bool) {
    exists key :: key in table && Keyed(key, a)
                  && (table[key].advice.strategyVersion != a.strategyVersion
                      || (!legacy && table[key].advice.cost.version != a.cost.version))
  }

  /** A row of the advice's key holds another cost version. */
  ghost predicate CostDiffers(table: Table, a: Advice) {
    exists key :: key in table && Keyed(key, a) && table[key].advice.cost.version != a.cost.version
  }

  ghost predicate Refuses(table: Table, p: Published, now: Time, legacy: bool) {
    || (legacy && p.result.schema != V1)
    || p.at < p.result.generatedAt || p.at > now
    || exists i :: 0 <= i < |p.result.advice| && Contradicts(table, p.result.advice[i], legacy)
  }

  /** Published before its entry and before it expires. */
  ghost predicate Prospective(a: Advice, at: Time) {
    a.entryAt.Some? && at < a.entryAt.value && at < a.expiresAt
  }

  ghost predicate FirstProspective(advice: seq<Advice>, at: Time, key: Key, i: int) {
    && 0 <= i < |advice| && Keyed(key, advice[i]) && Prospective(advice[i], at)
    && forall j :: 0 <= j < i ==> !(Keyed(key, advice[j]) && Prospective(advice[j], at))
  }

  /** Rows stay; a new one is the first prospective advice of its key, as published. */
  ghost predicate Registers(before: Table, after: Table, advice: seq<Advice>, at: Time) {
    && (forall key :: key in before ==> key in after && after[key] == before[key])
    && (forall key :: key in after && key !in before ==>
          exists i :: FirstProspective(advice, at, key, i) && after[key] == Observation(advice[i], at, None))
    && forall i :: 0 <= i < |advice| && Prospective(advice[i], at) ==>
          exists key :: key in after && Keyed(key, advice[i])
  }

  /** The legacy items from here on passed over before the first one that raises. */
  ghost function PassedOverFrom(table: Table, advice: seq<Advice>, from: nat): set<int> {
    set i | from <= i < |advice| && CostDiffers(table, advice[i])
            && (forall j :: from <= j <= i ==> !Contradicts(table, advice[j], true))
  }

  ghost function PassedOver(table: Table, advice: seq<Advice>): set<int> {
    PassedOverFrom(table, advice, 0)
  }

  lemma KeyedIff(key: Key, a: Advice)
    ensures Keyed(key, a) <==> key == KeyOf(a)
  {
  }

  lemma ContradictsIff(table: Table, a: Advice, legacy: bool)
    ensures Contradicts(table, a, legacy) <==> !Compatible(table, a, legacy)
    ensures CostDiffers(table, a) && !Contradicts(table, a, true)
            <==> KeyOf(a) in table && Compatible(table, a, true) && Bound(table[KeyOf(a)].advice) != Bound(a)
  {
    assert Keyed(KeyOf(a), a);
  }

  lemma RefusesIff(table: Table, p: Published, now: Time, legacy: bool)
    ensures Refuses(table, p, now, legacy) <==> !Admitted(table, p, now, legacy)
  {
    var advice := p.result.advice;
    forall i | 0 <= i < |advice| ensures Contradicts(table, advice[i], legacy) <==>
      !Compatible(table, advice[i], legacy) {
      ContradictsIff(table, advice[i], legacy);
    }
    assert (forall a :: a in advice ==> Compatible(table, a, legacy))
      <==> forall i :: 0 <= i < |advice| ==> Compatible(table, advice[i], legacy);
  }

  lemma {:induction false} FirstOfMeans(advice: seq<Advice>, at: Time, key: Key)
    ensures FirstOf(advice, at, key).None? ==>
              forall i :: 0 <= i < |advice| ==> !(Keyed(key, advice[i]) && Prospective(advice[i], at))
    ensures FirstOf(advice, at, key).Some? ==>
              exists i :: FirstProspective(advice, at, key, i)
                          && FirstOf(advice, at, key).value == Observation(advice[i], at, None)
    decreases |advice|
  {
    if advice != [] {
      var rest := advice[1..];
      FirstOfMeans(rest, at, key);
      KeyedIff(key, advice[0]);
      assert InTime(advice[0], at) <==> Prospective(advice[0], at);
      if Keyed(key, advice[0]) && Prospective(advice[0], at) {
        assert FirstProspective(advice, at, key, 0);
      } else if FirstOf(advice, at, key).Some? {
        var i :| FirstProspective(rest, at, key, i) && FirstOf(rest, at, key).value == Observation(rest[i], at, None);
        assert forall j :: 0 < j < i + 1 ==> advice[j] == rest[j - 1];
        assert FirstProspective(advice, at, key, i + 1);
      } else {
        assert forall j :: 0 < j < |advice| ==> advice[j] == rest[j - 1];
      }
    }
  }

  lemma InsertRegisters(table: Table, advice: seq<Advice>, at: Time)
    ensures Registers(table, InsertAll(table, advice, at), advice, at)
  {
    var end := InsertAll(table, advice, at);
    forall key
      ensures key in table ==> key in end && end[key] == table[key]
      ensures key !in table ==> Registration(end, key) == FirstOf(advice, at, key)
      ensures key in end && key !in table ==> end[key].outcome.None?
    {
      InsertAllFirst(table, advice, at, key);
    }
    forall key | key in end && key !in table
      ensures exists i :: FirstProspective(advice, at, key, i) && end[key] == Observation(advice[i], at, None)
    {
      FirstOfMeans(advice, at, key);
    }
    forall i | 0 <= i < |advice| && Prospective(advice[i], at)
      ensures exists key :: key in end && Keyed(key, advice[i])
    {
      var key := KeyOf(advice[i]);
      KeyedIff(key, advice[i]);
      FirstOfMeans(advice, at, key);
      assert key in end;
    }
  }

  lemma PassedOverHead(table: Table, advice: seq<Advice>, from: nat)
    requires from < |advice|
    ensures PassedOverFrom(table, advice, from)
         == if Contradicts(table, advice[from], true) then {}
           else (if CostDiffers(table, advice[from]) then {from} else {}) + PassedOverFrom(table, advice, from + 1)
  {
  }

  lemma {:induction false} PreservedCounts(table: Table, advice: seq<Advice>, from: nat)
    requires from <= |advice|
    ensures Preserved(table, advice[from..], true) == |PassedOverFrom(table, advice, from)|
    decreases |advice| - from
  {
    if from < |advice| {
      PreservedCounts(table, advice, from + 1);
      PassedOverHead(table, advice, from);
      ContradictsIff(table, advice[from], true);
      assert advice[from..][0] == advice[from] && advice[from..][1..] == advice[from + 1..];
    }
  }

  /** The ledger object: its table, and how many v1 receipts it passed over in favour of the
      first observation. */
  class LedgerTable {
    var rows: Table
    var legacyReplayPreserved: nat

    constructor ()
      ensures rows == map[] && legacyReplayPreserved == 0
      ensures Refines(rows, [])
    {
      rows, legacyReplayPreserved := map[], 0;
    }

    /** The two passes of `register`, the first one only checks. */
    method Enter(p: Published, now: Time, allowLegacy: bool) returns (r: Admission)
      modifies this
      ensures rows == RegisterIn(old(rows), p, now, allowLegacy)
      ensures r.Refused? <==> !Admitted(old(rows), p, now, allowLegacy)
      ensures r.Inserted? ==> r.count == |rows| - |old(rows)|
      ensures legacyReplayPreserved == old(legacyReplayPreserved)
                + if (allowLegacy ==> p.result.schema.V1?) && TimesConsistent(p, now)
                  then Preserved(old(rows), p.result.advice, allowLegacy) else 0
    {
      NonePreserved(rows, p.result.advice);
      var advice := p.result.advice;
      if allowLegacy && !p.result.schema.V1? {
        return Refused;
      }
      if p.at < p.result.generatedAt || p.at > now {
        return Refused;
      }
      for i := 0 to |advice|
        invariant rows == old(rows)
        invariant forall k :: 0 <= k < i ==> Compatible(rows, advice[k], allowLegacy)
        invariant legacyReplayPreserved + Preserved(rows, advice[i..], allowLegacy)
               == old(legacyReplayPreserved) + Preserved(rows, advice, allowLegacy)
      {
        var a := advice[i];
        assert advice[i..][0] == a && advice[i..][1..] == advice[i + 1..];
        if KeyOf(a) in rows && Bound(rows[KeyOf(a)].advice) != Bound(a) {
          if allowLegacy && rows[KeyOf(a)].advice.strategyVersion == a.strategyVersion {
            legacyReplayPreserved := legacyReplayPreserved + 1;
            continue;
          }
          assert a in advice;
          return Refused;
        }
      }
      var inserted := 0;
      for i := 0 to |advice|
        invariant InsertAll(rows, advice[i..], p.at) == InsertAll(old(rows), advice, p.at)
        invariant |rows| == |old(rows)| + inserted
        invariant legacyReplayPreserved == old(legacyReplayPreserved) + Preserved(old(rows), advice, allowLegacy)
      {
        var a := advice[i];
        assert advice[i..][0] == a && advice[i..][1..] == advice[i + 1..];
        if InTime(a, p.at) && KeyOf(a) !in rows {
          rows := rows[KeyOf(a) := Observation(a, p.at, None)];
          inserted := inserted + 1;
        }
      }
      return Inserted(inserted);
    }

    /** `register`. */
    method Register(p: Published, now: Time, allowLegacy: bool) returns (r: Admission)
      modifies this
      ensures rows == RegisterIn(old(rows), p, now, allowLegacy)
      ensures r.Refused? <==> Refuses(old(rows), p, now, allowLegacy)
      ensures r.Refused? ==> rows == old(rows)
      ensures r.Inserted? ==> Registers(old(rows), rows, p.result.advice, p.at) && r.count == |rows| - |old(rows)|
      ensures legacyReplayPreserved == old(legacyReplayPreserved)
                + if allowLegacy && p.result.schema.V1? && p.result.generatedAt <= p.at <= now
                  then |PassedOver(old(rows), p.result.advice)| else 0
    {
      ghost var before := rows;
      r := Enter(p, now, allowLegacy);
      RefusesIff(before, p, now, allowLegacy);
      InsertRegisters(before, p.result.advice, p.at);
      NonePreserved(before, p.result.advice);
      PreservedCounts(before, p.result.advice, 0);
      assert p.result.advice[0..] == p.result.advice;
    }

    /** `mature`: one update for each pending row whose window is whole. */
    method Mature(bars: seq<HourBar>, now: Time)
      requires ValidBars(bars)
      modifies this`rows
      ensures rows == MatureIn(old(rows), bars, now)
      ensures Extends(old(rows), rows)
      ensures rows.Keys == old(rows).Keys
      ensures forall key :: key in rows ==> Labelled(old(rows)[key], rows[key], bars, now)
    {
      var pending := set key | key in rows.Keys && Pending(rows[key], now);
      while pending != {}
        invariant rows.Keys == old(rows).Keys
        invariant forall key :: key in rows ==>
                    rows[key] == if key in pending then old(rows)[key] else Sealed(old(rows)[key], bars, now)
        invariant forall key :: key in pending ==> key in rows
        decreases |pending|
      {
        var key :| key in pending;
        rows := rows[key := Sealed(rows[key], bars, now)];
        pending := pending - {key};
      }
      assert rows == MatureIn(old(rows), bars, now);
      forall key | key in rows ensures Labelled(old(rows)[key], rows[key], bars, now) {
        SealedMeans(old(rows)[key], bars, now);
      }
    }
  }
}
