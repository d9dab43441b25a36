/** `update_history`: the bars of a new input laid over the worker's year of history, with a
    record of every stored bar that the input replaces. */
module WorkingHistory {
  import opened Contracts
  import opened Sorting
  import opened NonOverlap
  import opened History

  const YEAR: Time := 365 * DAY
  const ROW_BUDGET := 35_040

  datatype Correction = Correction(previous: HourBar, replacement: HourBar)

  function KeyOf(bar: HourBar): BarKey {
    (bar.symbol, bar.ts)
  }

  ghost predicate Keyed(merged: map<BarKey, HourBar>) {
    forall key :: key in merged ==> KeyOf(merged[key]) == key
  }

  ghost predicate UniqueKeys(bars: seq<HourBar>) {
    forall i, j :: 0 <= i < j < |bars| ==> KeyOf(bars[i]) != KeyOf(bars[j])
  }

  /** `{key(bar): bar for bar in bars}`, laid over what is known. */
  function Overlaid(known: map<BarKey, HourBar>, bars: seq<HourBar>): map<BarKey, HourBar> {
    if bars == [] then known
    else Overlaid(known, bars[..|bars| - 1])[KeyOf(bars[|bars| - 1]) := bars[|bars| - 1]]
  }

  /** The corrections an overlay records, in the order of the new bars. */
  function Corrections(known: map<BarKey, HourBar>, bars: seq<HourBar>): seq<Correction> {
    if bars == [] then []
    else
      var before, bar := Overlaid(known, bars[..|bars| - 1]), bars[|bars| - 1];
      Corrections(known, bars[..|bars| - 1])
      + if KeyOf(bar) in before && before[KeyOf(bar)] != bar then [Correction(before[KeyOf(bar)], bar)] else []
  }

  /** The loop over the new bars. */
  method LayOver(known: map<BarKey, HourBar>, bars: seq<HourBar>)
    returns (merged: map<BarKey, HourBar>, corrections: seq<Correction>)
    ensures merged == Overlaid(known, bars) && corrections == Corrections(known, bars)
  {
    merged, corrections := known, [];
    for i := 0 to |bars|
      invariant merged == Overlaid(known, bars[..i]) && corrections == Corrections(known, bars[..i])
    {
      var bar := bars[i];
      assert bars[..i + 1][..i] == bars[..i] && bars[..i + 1][i] == bar;
      if KeyOf(bar) in merged && merged[KeyOf(bar)] != bar {
        corrections := corrections + [Correction(merged[KeyOf(bar)], bar)];
      }
      merged := merged[KeyOf(bar) := bar];
    }
    assert bars[..|bars|] == bars;
  }

  lemma {:induction false} OverlaidAt(known: map<BarKey, HourBar>, bars: seq<HourBar>, key: BarKey)
    requires UniqueKeys(bars)
    ensures key in Overlaid(known, bars) <==> key in known || exists i :: 0 <= i < |bars| && KeyOf(bars[i]) == key
    ensures forall i :: 0 <= i < |bars| && KeyOf(bars[i]) == key ==> Overlaid(known, bars)[key] == bars[i]
    ensures (forall i :: 0 <= i < |bars| ==> KeyOf(bars[i]) != key) && key in known ==>
              Overlaid(known, bars)[key] == known[key]
    decreases |bars|
  {
    if bars != [] {
      var front := bars[..|bars| - 1];
      OverlaidAt(known, front, key);
      assert forall i :: 0 <= i < |front| ==> front[i] == bars[i];
    }
  }

  /** A bar is recorded as corrected exactly when an input bar of its hour differs from it. */
  lemma {:induction false} CorrectionsExact(known: map<BarKey, HourBar>, bars: seq<HourBar>, c: Correction)
    requires UniqueKeys(bars)
    ensures c in Corrections(known, bars) <==>
              && c.replacement in bars && KeyOf(c.replacement) in known
              && c.previous == known[KeyOf(c.replacement)] && c.previous != c.replacement
    decreases |bars|
  {
    if bars != [] {
      var front, bar := bars[..|bars| - 1], bars[|bars| - 1];
      assert bars == front + [bar];
      CorrectionsExact(known, front, c);
      OverlaidAt(known, front, KeyOf(bar));
      assert forall i :: 0 <= i < |front| ==> KeyOf(front[i]) != KeyOf(bar);
    }
  }

  /** Nothing is lost: what was known is in the merged bars or among the recorded predecessors. */
  lemma NothingLost(known: map<BarKey, HourBar>, bars: seq<HourBar>, key: BarKey)
    requires UniqueKeys(bars) && key in known && Keyed(known)
    ensures key in Overlaid(known, bars)
    ensures Overlaid(known, bars)[key] == known[key]
            || Correction(known[key], Overlaid(known, bars)[key]) in Corrections(known, bars)
  {
    OverlaidAt(known, bars, key);
    if Overlaid(known, bars)[key] != known[key] {
      var i :| 0 <= i < |bars| && KeyOf(bars[i]) == key;
      CorrectionsExact(known, bars, Correction(known[key], bars[i]));
    }
  }

  /** Laying the same input over the result corrects nothing and changes nothing. */
  lemma OverlayAgain(known: map<BarKey, HourBar>, bars: seq<HourBar>)
    requires UniqueKeys(bars)
    ensures Overlaid(Overlaid(known, bars), bars) == Overlaid(known, bars)
    ensures Corrections(Overlaid(known, bars), bars) == []
  {
    var merged := Overlaid(known, bars);
    forall key ensures key in Overlaid(merged, bars) <==> key in merged {
      OverlaidAt(known, bars, key);
      OverlaidAt(merged, bars, key);
    }
    forall key | key in merged ensures Overlaid(merged, bars)[key] == merged[key] {
      OverlaidAt(known, bars, key);
      OverlaidAt(merged, bars, key);
    }
    if Corrections(merged, bars) != [] {
      var c := Corrections(merged, bars)[0];
      CorrectionsExact(merged, bars, c);
      var i :| 0 <= i < |bars| && bars[i] == c.replacement;
      OverlaidAt(known, bars, KeyOf(bars[i]));
      assert false;
    }
  }

  /** The values of a dictionary as a list, in any order. */
  ghost predicate Lists(values: seq<HourBar>, merged: map<BarKey, HourBar>) {
    && (forall v :: v in values <==> KeyOf(v) in merged && merged[KeyOf(v)] == v)
  }

  lemma OneBarPerKeyNeverConflicts(values: seq<HourBar>, merged: map<BarKey, HourBar>, now: Time)
    requires Lists(values, merged)
    ensures !Conflict(values, now)
  {
    forall a, b | a in values && b in values && SameKey(a, b) ensures a == b {
    }
  }

  method ValuesSince(merged: map<BarKey, HourBar>, from: Time) returns (values: seq<HourBar>)
    requires Keyed(merged)
    ensures Lists(values, map key | key in merged && merged[key].ts >= from :: merged[key])
  {
    values := [];
    var left := merged.Keys;
    while left != {}
      invariant left <= merged.Keys
      invariant forall v :: v in values <==>
                KeyOf(v) in merged && KeyOf(v) !in left && merged[KeyOf(v)] == v && v.ts >= from
      decreases left
    {
      var key :| key in left;
      if merged[key].ts >= from {
        values := values + [merged[key]];
      }
      left := left - {key};
    }
  }

  // ----- the row budget

  const YEAR_HOURS := 8_760

  /** The place of an hourly bar of the last year among all symbols and hours. */
  function BarRank(bar: HourBar, now: Time): int {
    SymbolRank(bar.symbol) * YEAR_HOURS + (bar.ts / HOUR - (now / HOUR - YEAR_HOURS))
  }

  predicate InYear(bar: HourBar, now: Time) {
    bar.ts % HOUR == 0 && now - YEAR <= bar.ts && bar.ts + HOUR <= now
  }

  lemma HourInYear(bar: HourBar, now: Time)
    requires InYear(bar, now)
    ensures 0 <= bar.ts / HOUR - (now / HOUR - YEAR_HOURS) < YEAR_HOURS
  {
    var h, n := bar.ts / HOUR, now / HOUR;
    assert bar.ts == h * HOUR && n * HOUR <= now < n * HOUR + HOUR && YEAR == YEAR_HOURS * HOUR;
    assert (h + 1) * HOUR < (n + 1) * HOUR && (n - YEAR_HOURS) * HOUR <= h * HOUR;
  }

  lemma BarRanksAscend(a: HourBar, b: HourBar, now: Time)
    requires InYear(a, now) && InYear(b, now) && BarBefore(a, b)
    ensures BarRank(a, now) < BarRank(b, now)
  {
    HourInYear(a, now);
    HourInYear(b, now);
    if a.symbol == b.symbol {
      assert a.ts == a.ts / HOUR * HOUR && b.ts == b.ts / HOUR * HOUR;
    }
  }

  lemma {:induction false} BarRankAtLeast(history: seq<HourBar>, now: Time, i: nat)
    requires i < |history| && StrictlySorted(history, BarBefore)
    requires forall k :: 0 <= k < |history| ==> InYear(history[k], now)
    ensures BarRank(history[i], now) >= i
    decreases i
  {
    if i > 0 {
      BarRankAtLeast(history, now, i - 1);
      BarRanksAscend(history[i - 1], history[i], now);
    } else {
      HourInYear(history[0], now);
    }
  }

  /** Hourly bars of four symbols within the last year: never more rows than the budget. */
  lemma YearFits(history: seq<HourBar>, values: seq<HourBar>, now: Time)
    requires IsPrepared(history, values, now)
    requires forall v :: v in values ==> v.ts % HOUR == 0 && v.ts >= now - YEAR
    ensures |history| <= ROW_BUDGET
  {
    forall k | 0 <= k < |history| ensures InYear(history[k], now) {
      assert history[k] in values;
    }
    if history != [] {
      var last := history[|history| - 1];
      BarRankAtLeast(history, now, |history| - 1);
      HourInYear(last, now);
    }
  }

  lemma {:induction false} OverlaidHours(known: map<BarKey, HourBar>, bars: seq<HourBar>)
    requires forall key :: key in known ==> known[key].ts % HOUR == 0
    requires forall i :: 0 <= i < |bars| ==> bars[i].ts % HOUR == 0
    ensures forall key :: key in Overlaid(known, bars) ==> Overlaid(known, bars)[key].ts % HOUR == 0
    decreases |bars|
  {
    if bars != [] {
      OverlaidHours(known, bars[..|bars| - 1]);
    }
  }

  /** `update_history` up to its files: it never fails on a conflict between stored and new bars,
      the new history is the prepared year of the merged ones, and as stored bars are hourly the
      row budget is never exceeded. */
  method UpdateHistory(known: map<BarKey, HourBar>, input: InputSnapshot, now: Time)
    returns (history: Option<seq<HourBar>>, corrections: seq<Correction>, ghost values: seq<HourBar>)
    requires Keyed(known) && input.Valid()
    ensures corrections == Corrections(known, input.bars)
    ensures var merged := Overlaid(known, input.bars);
            Lists(values, map key | key in merged && merged[key].ts >= now - 365 * DAY :: merged[key])
    ensures history.Some? ==> IsPrepared(history.value, values, now) && |history.value| <= 35_040
    ensures history.None? ==> exists prepared :: IsPrepared(prepared, values, now) && |prepared| > 35_040
    ensures (forall key :: key in known ==> known[key].ts % HOUR == 0) ==> history.Some?
  {
    var merged;
    merged, corrections := LayOver(known, input.bars);
    OverlaidKeyed(known, input.bars);
    var recent := ValuesSince(merged, now - YEAR);
    values := recent;
    OneBarPerKeyNeverConflicts(recent, map key | key in merged && merged[key].ts >= now - YEAR :: merged[key], now);
    var prepared := PrepareHistory(recent, now);
    if forall key :: key in known ==> known[key].ts % HOUR == 0 {
      OverlaidHours(known, input.bars);
      YearFits(prepared.value, values, now);
    }
    history := if |prepared.value| > ROW_BUDGET then None else prepared;
  }

  lemma {:induction false} OverlaidKeyed(known: map<BarKey, HourBar>, bars: seq<HourBar>)
    requires Keyed(known)
    ensures Keyed(Overlaid(known, bars))
    decreases |bars|
  {
    if bars != [] {
      OverlaidKeyed(known, bars[..|bars| - 1]);
    }
  }
}
