/** `merge_closed_candles`: exchange candles merged into the bars of the last snapshot without
    re-dating what was already observed, and what that means for the stored inputs. */
module Refresh {
  import opened Contracts
  import opened Sorting
  import opened Store
  import opened CrashTransparency
  import opened EvidenceClosure

  const MAX_CANDLES := 200
  const WINDOW: Time := 8 * DAY

  type Field = Option<real>

  /** A candle as the exchange sent it; None is a missing key or anything `number` refuses. */
  datatype Candle = Candle(
    confirmed: Option<bool>, ts: Option<Time>, open: Field, high: Field, low: Field, close: Field, volume: Field)

  /** Every field is there, the hour is whole, prices are positive, and high and low enclose the others. */
  ghost predicate ReadsAsBar(c: Candle) {
    && c.ts.Some? && c.open.Some? && c.high.Some? && c.low.Some? && c.close.Some? && c.volume.Some?
    && c.ts.value % HOUR == 0 && c.open.value > 0.0 && c.close.value > 0.0 && c.low.value > 0.0
    && c.volume.value >= 0.0
    && c.low.value <= c.open.value <= c.high.value && c.low.value <= c.close.value <= c.high.value
  }

  function BarOf(symbol: Symbol, c: Candle, now: Time): (bar: Option<HourBar>)
    ensures bar.Some? ==>
              && c.ts == Some(bar.value.ts) && bar.value.symbol == symbol && bar.value.ingestTs == now
              && bar.value.Valid()
              && c.open == Some(bar.value.open) && c.high == Some(bar.value.high) && c.low == Some(bar.value.low)
              && c.close == Some(bar.value.close) && c.volume == Some(bar.value.volume)
    ensures bar.None? ==> !ReadsAsBar(c)
  {
    if c.ts.None? || c.open.None? || c.high.None? || c.low.None? || c.close.None? || c.volume.None? then None
    else
      var bar := HourBar(symbol, c.ts.value, c.open.value, c.high.value, c.low.value, c.close.value, c.volume.value,
                         now);
      if bar.Valid() then Some(bar) else None
  }

  // ----- what a merge yields, without its loop

  predicate Confirmed(rows: seq<Candle>, i: int) {
    0 <= i < |rows| && rows[i].confirmed == Some(true)
  }

  /** What makes the whole response unusable. */
  ghost predicate Refused(symbol: Symbol, rows: seq<Candle>, now: Time) {
    || |rows| > 200
    || (exists i :: 0 <= i < |rows| && RowRefused(symbol, rows, i, now))
  }

  ghost predicate RowRefused(symbol: Symbol, rows: seq<Candle>, i: int, now: Time)
    requires 0 <= i < |rows|
  {
    || rows[i].confirmed.None?
    || (rows[i].confirmed.value
        && (|| rows[i].ts.None?
            || (exists j :: 0 <= j < i && Confirmed(rows, j) && rows[j].ts == rows[i].ts)
            || rows[i].ts.value + HOUR > now
            || !ReadsAsBar(rows[i])))
  }

  /** The bar that stands for a confirmed row: the one known already, when the market fields
      are the same, and otherwise a new one of this moment. */
  function Settle(known: map<Time, HourBar>, bar: HourBar): HourBar {
    if bar.ts in known && known[bar.ts].SameMarket(bar) then known[bar.ts] else bar
  }

  /** What an hour holds after the first `n` rows. */
  ghost predicate Holds(
    symbol: Symbol, known: map<Time, HourBar>, rows: seq<Candle>, n: nat, now: Time,
    merged: map<Time, HourBar>)
    requires n <= |rows|
  {
    && (forall i {:trigger Confirmed(rows, i)} :: 0 <= i < n && Confirmed(rows, i) ==>
          && BarOf(symbol, rows[i], now).Some?
          && var bar := BarOf(symbol, rows[i], now).value;
             bar.ts in merged && merged[bar.ts] == Settle(known, bar))
    && (forall t :: t in known ==> t in merged && (Untouched(rows, n, t) ==> merged[t] == known[t]))
    && (forall t :: t in merged ==> t in known || !Untouched(rows, n, t))
  }

  predicate Untouched(rows: seq<Candle>, n: nat, t: Time)
    requires n <= |rows|
  {
    forall i {:trigger Confirmed(rows, i)} :: 0 <= i < n && Confirmed(rows, i) ==> rows[i].ts != Some(t)
  }

  /** The last bar of each hour of the symbol. */
  ghost predicate Known(symbol: Symbol, bars: seq<HourBar>, known: map<Time, HourBar>) {
    && (forall t :: t in known ==> known[t] in bars && known[t].symbol == symbol && known[t].ts == t)
    && (forall b :: b in bars && b.symbol == symbol ==> b.ts in known)
  }

  ghost predicate OneBarPerHour(bars: seq<HourBar>) {
    forall a, b :: a in bars && b in bars && a.symbol == b.symbol && a.ts == b.ts ==> a == b
  }

  predicate EarlierBar(a: HourBar, b: HourBar) {
    a.ts < b.ts
  }

  /** The returned list: strictly ascending, exactly the merged bars of the window. */
  ghost predicate IsWindow(recent: seq<HourBar>, merged: map<Time, HourBar>, now: Time) {
    && StrictlySorted(recent, EarlierBar)
    && (forall b :: b in recent <==> b.ts in merged && merged[b.ts] == b && now - 8 * 24 * HOUR <= b.ts)
  }

  /** A successful merge of `rows` into the bars of a symbol. */
  ghost predicate IsMerge(symbol: Symbol, rows: seq<Candle>, bars: seq<HourBar>, now: Time, recent: seq<HourBar>) {
    exists known, merged ::
      Known(symbol, bars, known) && Holds(symbol, known, rows, |rows|, now, merged) && IsWindow(recent, merged, now)
  }

  // ----- the method

  lemma UntouchedNext(rows: seq<Candle>, i: nat, t: Time)
    requires i < |rows|
    ensures Untouched(rows, i + 1, t) <==> Untouched(rows, i, t) && !(Confirmed(rows, i) && rows[i].ts == Some(t))
  {
  }

  /** A row that is not confirmed changes nothing. */
  lemma RowSkipped(
    symbol: Symbol, known: map<Time, HourBar>, rows: seq<Candle>, i: nat, now: Time, merged: map<Time, HourBar>)
    requires i < |rows| && !Confirmed(rows, i) && Holds(symbol, known, rows, i, now, merged)
    ensures Holds(symbol, known, rows, i + 1, now, merged)
    ensures forall t :: Untouched(rows, i + 1, t) <==> Untouched(rows, i, t)
  {
  }

  /** A confirmed row of an hour not touched before takes its place. */
  lemma RowTaken(
    symbol: Symbol, known: map<Time, HourBar>, rows: seq<Candle>, i: nat, now: Time, merged: map<Time, HourBar>,
    read: HourBar, bar: HourBar)
    requires i < |rows| && Confirmed(rows, i) && Holds(symbol, known, rows, i, now, merged)
    requires BarOf(symbol, rows[i], now) == Some(read) && Untouched(rows, i, read.ts)
    requires bar == if read.ts in merged && merged[read.ts].SameMarket(read) then merged[read.ts] else read
    ensures bar == Settle(known, read)
    ensures Holds(symbol, known, rows, i + 1, now, merged[read.ts := bar])
    ensures forall t :: Untouched(rows, i + 1, t) <==> Untouched(rows, i, t) && t != read.ts
  {
    forall t ensures Untouched(rows, i + 1, t) <==> Untouched(rows, i, t) && t != read.ts {
      UntouchedNext(rows, i, t);
    }
  }

  /** What the loop has done with the first rows. */
  ghost predicate Progress(
    symbol: Symbol, known: map<Time, HourBar>, rows: seq<Candle>, i: nat, now: Time, merged: map<Time, HourBar>,
    seen: set<Time>)
    requires i <= |rows|
  {
    && (forall j :: 0 <= j < i ==> !RowRefused(symbol, rows, j, now))
    && (forall t :: t in seen <==> !Untouched(rows, i, t))
    && Holds(symbol, known, rows, i, now, merged)
    && (forall t :: t in merged ==> merged[t].ts == t)
  }

  lemma ProgressSkips(
    symbol: Symbol, known: map<Time, HourBar>, rows: seq<Candle>, i: nat, now: Time, merged: map<Time, HourBar>,
    seen: set<Time>)
    requires i < |rows| && Progress(symbol, known, rows, i, now, merged, seen) && rows[i].confirmed == Some(false)
    ensures Progress(symbol, known, rows, i + 1, now, merged, seen)
  {
    RowSkipped(symbol, known, rows, i, now, merged);
  }

  lemma ProgressTakes(
    symbol: Symbol, known: map<Time, HourBar>, rows: seq<Candle>, i: nat, now: Time, merged: map<Time, HourBar>,
    seen: set<Time>, read: HourBar, bar: HourBar)
    requires i < |rows| && Progress(symbol, known, rows, i, now, merged, seen) && rows[i].confirmed == Some(true)
    requires BarOf(symbol, rows[i], now) == Some(read) && read.ts !in seen && read.ts + HOUR <= now
    requires bar == if read.ts in merged && merged[read.ts].SameMarket(read) then merged[read.ts] else read
    ensures Progress(symbol, known, rows, i + 1, now, merged[read.ts := bar], seen + {read.ts})
  {
    assert !RowRefused(symbol, rows, i, now);
    RowTaken(symbol, known, rows, i, now, merged, read, bar);
  }

  lemma RefusedAt(symbol: Symbol, rows: seq<Candle>, i: nat, now: Time)
    requires i < |rows| && RowRefused(symbol, rows, i, now)
    ensures Refused(symbol, rows, now)
  {
  }

  method MergeRows(symbol: Symbol, rows: seq<Candle>, known: map<Time, HourBar>, now: Time)
    returns (ok: bool, merged: map<Time, HourBar>)
    requires forall t :: t in known ==> known[t].ts == t
    ensures ok <==> !Refused(symbol, rows, now)
    ensures ok ==> Holds(symbol, known, rows, |rows|, now, merged) && forall t :: t in merged ==> merged[t].ts == t
  {
    merged := known;
    if |rows| > MAX_CANDLES {
      return false, merged;
    }
    var seen: set<Time> := {};
    for i := 0 to |rows|
      invariant Progress(symbol, known, rows, i, now, merged, seen)
    {
      var row := rows[i];
      if row.confirmed.None? {
        RefusedAt(symbol, rows, i, now);
        return false, merged;
      }
      if row.confirmed.value {
        if row.ts.None? || row.ts.value in seen || row.ts.value + HOUR > now {
          RefusedAt(symbol, rows, i, now);
          return false, merged;
        }
        var read := BarOf(symbol, row, now);
        if read.None? {
          RefusedAt(symbol, rows, i, now);
          return false, merged;
        }
        var bar := read.value;
        if bar.ts in merged && merged[bar.ts].SameMarket(bar) {
          bar := merged[bar.ts];
        }
        ProgressTakes(symbol, known, rows, i, now, merged, seen, read.value, bar);
        seen := seen + {row.ts.value};
        merged := merged[read.value.ts := bar];
      } else {
        ProgressSkips(symbol, known, rows, i, now, merged, seen);
      }
    }
    return true, merged;
  }

  lemma Pick<T>(items: set<T>) returns (x: T)
    requires items != {}
    ensures x in items
  {
    x :| x in items;
  }

  lemma {:induction false} EarliestExists(times: set<Time>)
    requires times != {}
    ensures exists t: Time :: t in times && forall u :: u in times ==> t <= u
    decreases |times|
  {
    var t := Pick(times);
    var rest := times - {t};
    var least := t;
    if rest != {} {
      EarliestExists(rest);
      var other: Time :| other in rest && forall u :: u in rest ==> other <= u;
      least := if t <= other then t else other;
    }
    forall u | u in times ensures least <= u {
      assert u == t || u in rest;
    }
  }

  function KeysIn(merged: map<Time, HourBar>, now: Time): set<Time> {
    set t | t in merged && now - WINDOW <= t
  }

  /** `[merged[t] for t in sorted(merged) if now - 8 days <= t]`. */
  method Window(merged: map<Time, HourBar>, now: Time) returns (recent: seq<HourBar>)
    requires forall t :: t in merged ==> merged[t].ts == t
    ensures IsWindow(recent, merged, now)
  {
    recent := [];
    var left := KeysIn(merged, now);
    while left != {}
      invariant left <= KeysIn(merged, now)
      invariant StrictlySorted(recent, EarlierBar)
      invariant forall b :: b in recent <==> b.ts in KeysIn(merged, now) - left && merged[b.ts] == b
      invariant forall b, t :: b in recent && t in left ==> b.ts < t
      decreases left
    {
      EarliestExists(left);
      var t: Time :| t in left && forall u :: u in left ==> t <= u;
      recent := recent + [merged[t]];
      left := left - {t};
    }
  }

  function KnownBars(symbol: Symbol, bars: seq<HourBar>): (known: map<Time, HourBar>)
    ensures Known(symbol, bars, known)
  {
    if bars == [] then map[]
    else
      var known, last := KnownBars(symbol, bars[..|bars| - 1]), bars[|bars| - 1];
      if last.symbol == symbol then known[last.ts := last] else known
  }

  /** The whole function; no result stands for the errors it raises. */
  method MergeClosedCandles(symbol: Symbol, rows: seq<Candle>, bars: seq<HourBar>, now: Time)
    returns (recent: Option<seq<HourBar>>)
    ensures recent.None? <==> Refused(symbol, rows, now)
    ensures recent.Some? ==> IsMerge(symbol, rows, bars, now, recent.value)
  {
    var known := KnownBars(symbol, bars);
    var ok, merged := MergeRows(symbol, rows, known, now);
    if !ok {
      return None;
    }
    var window := Window(merged, now);
    assert Holds(symbol, known, rows, |rows|, now, merged) && IsWindow(window, merged, now);
    return Some(window);
  }

  // ----- consequences

  lemma RowOf(rows: seq<Candle>, t: Time) returns (i: nat)
    requires !Untouched(rows, |rows|, t)
    ensures i < |rows| && Confirmed(rows, i) && rows[i].ts == Some(t)
  {
    i :| 0 <= i < |rows| && Confirmed(rows, i) && rows[i].ts == Some(t);
  }

  /** A merged hour holds the known bar, or the bar of a confirmed row if that says otherwise. */
  lemma MergedBar(symbol: Symbol, bars: seq<HourBar>, known: map<Time, HourBar>, rows: seq<Candle>, now: Time,
                  merged: map<Time, HourBar>, t: Time)
    requires Known(symbol, bars, known) && Holds(symbol, known, rows, |rows|, now, merged) && t in merged
    ensures merged[t].ts == t && merged[t].symbol == symbol
    ensures merged[t] in bars || (merged[t].ingestTs == now && merged[t].Valid() && !Untouched(rows, |rows|, t))
    ensures t in known && merged[t] != known[t] ==> !known[t].SameMarket(merged[t])
  {
    if !Untouched(rows, |rows|, t) {
      var i := RowOf(rows, t);
      assert Confirmed(rows, i);
    }
  }

  ghost predicate SameFields(a: HourBar, b: HourBar) {
    a.open == b.open && a.high == b.high && a.low == b.low && a.close == b.close && a.volume == b.volume
  }

  /** Nothing is invented: a merged bar is one of the given ones as it was, or was made now from
      a confirmed closed row; and a given one of its hour was replaced only because the market
      fields differ. */
  lemma MergeInventsNothing(
    symbol: Symbol, rows: seq<Candle>, bars: seq<HourBar>, now: Time, recent: seq<HourBar>, b: HourBar)
    requires IsMerge(symbol, rows, bars, now, recent) && b in recent && OneBarPerHour(bars)
    ensures b.symbol == symbol
    ensures b in bars
            || (b.ingestTs == now && b.Valid()
                && exists i :: Confirmed(rows, i) && BarOf(symbol, rows[i], now) == Some(b))
    ensures forall a :: a in bars && a.symbol == symbol && a.ts == b.ts && SameFields(a, b) ==> a == b
  {
    var known, merged :|
      Known(symbol, bars, known) && Holds(symbol, known, rows, |rows|, now, merged) && IsWindow(recent, merged, now);
    MergedBar(symbol, bars, known, rows, now, merged, b.ts);
    if b !in bars {
      var i := RowOf(rows, b.ts);
      assert Confirmed(rows, i);
    }
  }

  lemma SameRowLater(symbol: Symbol, c: Candle, t1: Time, t2: Time)
    requires BarOf(symbol, c, t1).Some?
    ensures BarOf(symbol, c, t2).Some? && BarOf(symbol, c, t2).value.SameMarket(BarOf(symbol, c, t1).value)
  {
  }

  /** A response that was accepted is accepted again later. */
  lemma StillAccepted(symbol: Symbol, rows: seq<Candle>, t1: Time, t2: Time)
    requires !Refused(symbol, rows, t1) && t1 <= t2
    ensures !Refused(symbol, rows, t2)
  {
    forall i | 0 <= i < |rows| ensures !RowRefused(symbol, rows, i, t2) {
      assert !RowRefused(symbol, rows, i, t1);
      if Confirmed(rows, i) {
        SameRowLater(symbol, rows[i], t1, t2);
      }
    }
  }

  ghost predicate Recent(bars: seq<HourBar>, symbol: Symbol, recent: seq<HourBar>) {
    forall b: HourBar :: b.symbol == symbol ==> (b in bars <==> b in recent)
  }

  lemma KnownAgain(symbol: Symbol, rows: seq<Candle>, k1: map<Time, HourBar>, m1: map<Time, HourBar>,
                   k2: map<Time, HourBar>, m2: map<Time, HourBar>, t1: Time, t2: Time, t: Time)
    requires Holds(symbol, k1, rows, |rows|, t1, m1) && Holds(symbol, k2, rows, |rows|, t2, m2)
    requires t in m1 && t in k2 && k2[t] == m1[t]
    ensures m2[t] == m1[t]
  {
    if !Untouched(rows, |rows|, t) {
      var i := RowOf(rows, t);
      assert Confirmed(rows, i);
      SameRowLater(symbol, rows[i], t1, t2);
    }
  }

  /** Refreshing later with the same rows returns the earlier bars, ingest times and all, cut to
      the later window. */
  lemma RefreshIsStable(symbol: Symbol, rows: seq<Candle>, bars: seq<HourBar>, t1: Time, first: seq<HourBar>,
                        later: seq<HourBar>, t2: Time, second: seq<HourBar>)
    requires IsMerge(symbol, rows, bars, t1, first) && t1 <= t2
    requires Recent(later, symbol, first) && IsMerge(symbol, rows, later, t2, second)
    ensures forall b :: b in second <==> b in first && t2 - WINDOW <= b.ts
    ensures (forall b :: b in first ==> t2 - WINDOW <= b.ts) ==> second == first
  {
    var k1, m1 :| Known(symbol, bars, k1) && Holds(symbol, k1, rows, |rows|, t1, m1) && IsWindow(first, m1, t1);
    var k2, m2 :| Known(symbol, later, k2) && Holds(symbol, k2, rows, |rows|, t2, m2) && IsWindow(second, m2, t2);
    forall b | b in first ensures b.ts in m1 && b.ts in k2 && k2[b.ts] == b && m2[b.ts] == b {
      MergedBar(symbol, bars, k1, rows, t1, m1, b.ts);
      assert b in later && k2[b.ts] in later && k2[b.ts] in first;
      KnownAgain(symbol, rows, k1, m1, k2, m2, t1, t2, b.ts);
    }
    forall b | b in second ensures b in first {
      SecondWasFirst(symbol, rows, bars, k1, m1, t1, first, later, k2, m2, t2, b);
    }
    if forall b :: b in first ==> t2 - WINDOW <= b.ts {
      assert forall i :: 0 <= i < |first| ==> first[i] in first;
      assert forall i :: 0 <= i < |second| ==> second[i] in second;
      StrictlySortedUnique(second, first, EarlierBar);
    }
  }

  lemma SecondWasFirst(
    symbol: Symbol, rows: seq<Candle>, bars: seq<HourBar>, k1: map<Time, HourBar>, m1: map<Time, HourBar>, t1: Time,
    first: seq<HourBar>, later: seq<HourBar>, k2: map<Time, HourBar>, m2: map<Time, HourBar>, t2: Time, b: HourBar)
    requires Known(symbol, bars, k1) && Holds(symbol, k1, rows, |rows|, t1, m1) && IsWindow(first, m1, t1)
    requires Known(symbol, later, k2) && Holds(symbol, k2, rows, |rows|, t2, m2) && Recent(later, symbol, first)
             && t1 <= t2
    requires b.ts in m2 && m2[b.ts] == b && t2 - WINDOW <= b.ts
    ensures b in first
  {
    var t := b.ts;
    if t !in k2 {
      var i := RowOf(rows, t);
      assert Confirmed(rows, i);
      MergedBar(symbol, bars, k1, rows, t1, m1, t);
      assert false;
    }
    assert k2[t] in first;
    KnownAgain(symbol, rows, k1, m1, k2, m2, t1, t2, t);
  }

  // ----- the stored inputs

  /** What `input_identity` hashes: everything but the name, the generation time and the signature. */
  datatype InputFacts = InputFacts(producerCommit: string, bars: seq<HourBar>, costs: seq<Cost>, warnings: seq<string>)

  function ContentOf(input: InputSnapshot): InputFacts {
    InputFacts(input.producerCommit, input.bars, input.costs, input.warnings)
  }

  /** A snapshot of facts already stored writes no input, whenever it is generated: the current
      pointer goes back to the stored snapshot with its first generation time. */
  lemma SameFactsWriteNoInput(
    s: Store, identity: InputFacts -> Id, known: InputSnapshot, refreshed: InputSnapshot, now: Time, done: nat)
    requires known.id == identity(ContentOf(known)) && refreshed.id == identity(ContentOf(refreshed))
    requires ContentOf(known) == ContentOf(refreshed)
    requires known.id in s.inputs && s.inputs[known.id].value == known
    ensures var s' := After(s, PublishInput(refreshed, now, done));
            && s'.inputs == s.inputs && (done > 0 ==> s'.currentInput == Some(known))
  {
    var steps := InputSteps(s, refreshed, now);
    if done > 0 {
      ApplyOne(s, steps);
      assert steps[..1] == steps;
    } else {
      assert steps[..0] == [];
    }
  }

  ghost predicate Unpruned(jobs: seq<Job>) {
    forall i :: 0 <= i < |jobs| ==> !jobs[i].PruneAcknowledged?
  }

  lemma JobKeepsInputs(s: Store, job: Job, archive: map<Name, Content>)
    requires Everything(s) && Fair(s, job, archive) && !job.PruneAcknowledged?
    ensures forall id :: id in s.inputs ==> id in After(s, job).inputs && After(s, job).inputs[id] == s.inputs[id]
  {
    match job {
      case PublishInput(input, now, done) => PublishKeepsContent(s, input, now, done);
      case ReceiveFile(name, file) => ApplyOne(s, [Deliver(name, file)]);
      case AcceptResults(now, done) => CrashSafeIff(s, now, done);
    }
  }

  /** Inputs are write-once: over every unpruned run an identity keeps the snapshot, and so the
      generation time, that was stored under it first. */
  lemma {:induction false} InputsWriteOnce(s: Store, jobs: seq<Job>, archive: map<Name, Content>)
    requires Everything(s) && AllFair(s, jobs, archive) && Unpruned(jobs)
    ensures forall id :: id in s.inputs ==> id in Run(s, jobs).inputs && Run(s, jobs).inputs[id] == s.inputs[id]
    decreases |jobs|
  {
    if jobs != [] {
      JobKeepsInputs(s, jobs[0], archive);
      JobSound(s, jobs[0]);
      JobKeepsInbox(s, jobs[0], archive);
      InputsWriteOnce(After(s, jobs[0]), jobs[1..], archive);
    }
  }
}
