/** `context_at`, `historical_labels` and the chronological split of `describe`. */
module Labels {
  import opened Contracts
  import opened Sorting

  /** A signal becomes available at `signalAt`; its outcome is known at `exitAt`. */
  datatype Outcome = Outcome(signalAt: Time, exitAt: Time, gross: real)

  predicate Contiguous(bars: seq<HourBar>) {
    bars != [] && forall i :: 0 <= i < |bars| - 1 ==> bars[i + 1].ts - bars[i].ts == HOUR
  }

  predicate Priced(bars: seq<HourBar>) {
    forall i :: 0 <= i < |bars| ==> bars[i].Valid()
  }

  /** The direction and size of the last day's move, if the day is complete. */
  function ContextAt(bars: seq<HourBar>, index: int): Option<(Trend, real)>
    requires Priced(bars) && index < |bars|
  {
    if index < 24 then None
    else
      var window := bars[index - 24..index + 1];
      if !Contiguous(window) then None
      else
        var trend := (bars[index].close / bars[index - 24].close - 1.0) * 10_000.0;
        Some((if trend >= 0.0 then TrendUp else TrendDown, trend))
  }

  function LastIndex(bars: seq<HourBar>, horizon: nat): int {
    |bars| - horizon - 2
  }

  /** A signal of the context whose whole outcome path is recorded. */
  predicate IsMatch(bars: seq<HourBar>, horizon: nat, context: Trend, index: int)
    requires Priced(bars) && 0 <= index < LastIndex(bars, horizon)
  {
    var state := ContextAt(bars, index);
    state.Some? && state.value.0 == context && Contiguous(bars[index..index + horizon + 3])
  }

  /** The grid keeps one hour in `horizon + 1`. */
  predicate OnGrid(ts: Time, horizon: nat) {
    ts / HOUR % (horizon + 1) == 0
  }

  function OutcomeAt(bars: seq<HourBar>, horizon: nat, index: int): Outcome
    requires Priced(bars) && 0 <= index < LastIndex(bars, horizon)
  {
    var entry, exit := bars[index + 2], bars[index + 2 + horizon];
    Outcome(bars[index].ts + HOUR, exit.ts, (exit.open / entry.open - 1.0) * 10_000.0)
  }

  /** The labels of the signals before `end`. */
  function LabelsTo(bars: seq<HourBar>, horizon: nat, context: Trend, end: int): seq<Outcome>
    requires Priced(bars) && end <= LastIndex(bars, horizon)
    decreases end
  {
    if end <= 24 then []
    else
      LabelsTo(bars, horizon, context, end - 1)
      + if IsMatch(bars, horizon, context, end - 1) && OnGrid(bars[end - 1].ts, horizon)
        then [OutcomeAt(bars, horizon, end - 1)] else []
  }

  function MatchesTo(bars: seq<HourBar>, horizon: nat, context: Trend, end: int): (n: nat)
    requires Priced(bars) && end <= LastIndex(bars, horizon)
    ensures |LabelsTo(bars, horizon, context, end)| <= n
    decreases end
  {
    if end <= 24 then 0
    else MatchesTo(bars, horizon, context, end - 1) + if IsMatch(bars, horizon, context, end - 1) then 1 else 0
  }

  function LabelsOf(bars: seq<HourBar>, horizon: nat, context: Trend): seq<Outcome>
    requires Priced(bars)
  {
    LabelsTo(bars, horizon, context, LastIndex(bars, horizon))
  }

  /** One turn of the loop. */
  lemma LabelTurn(bars: seq<HourBar>, horizon: nat, context: Trend, i: int)
    requires Priced(bars) && 24 <= i < LastIndex(bars, horizon)
    ensures var labels, matched := LabelsTo(bars, horizon, context, i), IsMatch(bars, horizon, context, i);
            && LabelsTo(bars, horizon, context, i + 1)
               == (if matched && OnGrid(bars[i].ts, horizon) then labels + [OutcomeAt(bars, horizon, i)] else labels)
            && MatchesTo(bars, horizon, context, i + 1)
               == MatchesTo(bars, horizon, context, i) + if matched then 1 else 0
  {
    assert LabelsTo(bars, horizon, context, i) + [] == LabelsTo(bars, horizon, context, i);
  }

  // ----- what the labels are, said of the bars

  /** Hour after hour without a gap. */
  ghost predicate Gapless(bars: seq<HourBar>, from: int, to: int) {
    0 <= from <= to < |bars| && forall i :: from <= i < to ==> bars[i + 1].ts - bars[i].ts == HOUR
  }

  /** The close against the close of 24 hours before, over a day without a gap. */
  ghost predicate DayMoves(bars: seq<HourBar>, context: Trend, k: int) {
    && 24 <= k < |bars| && Gapless(bars, k - 24, k)
    && match context
       case TrendUp => bars[k].close >= bars[k - 24].close
       case TrendDown => bars[k].close < bars[k - 24].close
       case Unavailable => false
  }

  /** A signal of the context whose bars are recorded without a gap up to its exit. */
  ghost predicate Signals(bars: seq<HourBar>, horizon: nat, context: Trend, k: int) {
    DayMoves(bars, context, k) && Gapless(bars, k, k + horizon + 2)
  }

  ghost predicate GridSignal(bars: seq<HourBar>, horizon: nat, context: Trend, k: int) {
    Signals(bars, horizon, context, k) && bars[k].ts / HOUR % (horizon + 1) == 0
  }

  /** Bought at the open two hours after the signal's, sold at the open of `horizon` hours later. */
  ghost predicate ReturnsAt(bars: seq<HourBar>, horizon: nat, k: int, l: Outcome)
    requires 0 <= k && k + horizon + 2 < |bars|
  {
    var entry, exit := bars[k + 2], bars[k + 2 + horizon];
    && l.signalAt == bars[k].ts + HOUR && l.exitAt == exit.ts
    && entry.open > 0.0 && l.gross == (exit.open / entry.open - 1.0) * 10_000.0
  }

  /** `hours` lists, ascending, the grid signals before `end`. */
  ghost predicate ListsSignals(bars: seq<HourBar>, horizon: nat, context: Trend, end: int, hours: seq<int>) {
    && (forall i, j :: 0 <= i < j < |hours| ==> hours[i] < hours[j])
    && (forall i :: 0 <= i < |hours| ==> GridSignal(bars, horizon, context, hours[i]) && hours[i] < end)
    && forall k :: k < end && GridSignal(bars, horizon, context, k) ==> exists i :: 0 <= i < |hours| && hours[i] == k
  }

  ghost predicate LabelsAt(bars: seq<HourBar>, horizon: nat, labels: seq<Outcome>, hours: seq<int>) {
    && |labels| == |hours|
    && forall i :: 0 <= i < |hours| ==>
         0 <= hours[i] && hours[i] + horizon + 2 < |bars| && ReturnsAt(bars, horizon, hours[i], labels[i])
  }

  /** One label for each grid signal, in order of hour, and the number of all signals. */
  ghost predicate LabelsMean(bars: seq<HourBar>, horizon: nat, context: Trend, labels: seq<Outcome>, matches: nat) {
    && (exists hours :: ListsSignals(bars, horizon, context, |bars|, hours) && LabelsAt(bars, horizon, labels, hours))
    && CountsSignals(bars, horizon, context, |bars|, matches)
  }

  ghost function UpTo(p: int -> bool, end: int): set<int> {
    set k | 0 <= k < end && p(k)
  }

  ghost predicate CountsSignals(bars: seq<HourBar>, horizon: nat, context: Trend, end: int, matches: nat) {
    matches == |UpTo(k => Signals(bars, horizon, context, k), end)|
  }

  lemma OneMore(p: int -> bool, end: int)
    requires 0 <= end
    ensures |UpTo(p, end + 1)| == |UpTo(p, end)| + if p(end) then 1 else 0
  {
    assert UpTo(p, end + 1) == UpTo(p, end) + if p(end) then {end} else {};
  }

  lemma NoneUpTo(p: int -> bool, end: int)
    requires forall k :: 0 <= k < end ==> !p(k)
    ensures |UpTo(p, end)| == 0
  {
    assert UpTo(p, end) == {};
  }

  lemma NoneBetween(p: int -> bool, a: int, b: int)
    requires forall k :: p(k) ==> !(a <= k < b)
    requires 0 <= a <= b
    ensures UpTo(p, b) == UpTo(p, a)
  {
  }

  lemma MoveIff(a: real, b: real)
    requires b > 0.0
    ensures (a / b - 1.0) * 10_000.0 >= 0.0 <==> a >= b
  {
    assert a / b * b == a;
    var ratio := a / b;
    if ratio >= 1.0 {
      ScaleReal(1.0, ratio, b);
    } else {
      ScaleReal(ratio, 1.0, b);
      assert ratio * b != b by {
        assert (1.0 - ratio) * b > 0.0;
      }
    }
  }

  lemma ScaleReal(a: real, b: real, d: real)
    requires a <= b && d > 0.0
    ensures a * d <= b * d
  {
    assert (b - a) * d >= 0.0;
  }

  lemma GaplessIff(bars: seq<HourBar>, from: int, to: int)
    requires 0 <= from <= to < |bars|
    ensures Gapless(bars, from, to) <==> Contiguous(bars[from..to + 1])
  {
    var part := bars[from..to + 1];
    if Contiguous(part) {
      forall i | from <= i < to ensures bars[i + 1].ts - bars[i].ts == HOUR {
        assert part[i - from + 1].ts - part[i - from].ts == HOUR;
      }
    }
  }

  lemma ContextIff(bars: seq<HourBar>, context: Trend, k: int)
    requires Priced(bars) && 0 <= k < |bars|
    ensures DayMoves(bars, context, k) <==> ContextAt(bars, k).Some? && ContextAt(bars, k).value.0 == context
    ensures ContextAt(bars, k).None? <==> k < 24 || !Gapless(bars, k - 24, k)
  {
    if k >= 24 {
      GaplessIff(bars, k - 24, k);
      assert bars[k - 24].Valid();
      MoveIff(bars[k].close, bars[k - 24].close);
    }
  }

  lemma MatchIff(bars: seq<HourBar>, horizon: nat, context: Trend, k: int)
    requires Priced(bars) && 0 <= k < LastIndex(bars, horizon)
    ensures IsMatch(bars, horizon, context, k) <==> Signals(bars, horizon, context, k)
    ensures ReturnsAt(bars, horizon, k, OutcomeAt(bars, horizon, k))
  {
    ContextIff(bars, context, k);
    GaplessIff(bars, k, k + horizon + 2);
    assert bars[k + 2].Valid();
  }

  lemma ListsOneMore(bars: seq<HourBar>, horizon: nat, context: Trend, end: int,
                     hours: seq<int>) returns (more: seq<int>)
    requires ListsSignals(bars, horizon, context, end, hours)
    ensures more == if GridSignal(bars, horizon, context, end) then hours + [end] else hours
    ensures ListsSignals(bars, horizon, context, end + 1, more)
  {
    more := if GridSignal(bars, horizon, context, end) then hours + [end] else hours;
    forall k | k < end + 1 && GridSignal(bars, horizon, context, k)
      ensures exists i :: 0 <= i < |more| && more[i] == k
    {
      if k == end {
        assert more[|hours|] == k;
      } else {
        var i :| 0 <= i < |hours| && hours[i] == k;
        assert more[i] == k;
      }
    }
  }

  lemma SignalRange(bars: seq<HourBar>, horizon: nat, context: Trend, k: int)
    ensures Signals(bars, horizon, context, k) ==> 24 <= k < LastIndex(bars, horizon)
  {
  }

  lemma {:induction false} MatchesCount(bars: seq<HourBar>, horizon: nat, context: Trend, end: int, p: int -> bool)
    requires Priced(bars) && end <= LastIndex(bars, horizon)
    requires forall k {:trigger p(k)} :: 24 <= k < LastIndex(bars, horizon) ==>
               p(k) == IsMatch(bars, horizon, context, k)
    requires forall k {:trigger p(k)} :: 0 <= k < 24 ==> !p(k)
    ensures MatchesTo(bars, horizon, context, end) == |UpTo(p, end)|
    decreases end
  {
    if end <= 24 {
      NoneUpTo(p, end);
    } else {
      MatchesCount(bars, horizon, context, end - 1, p);
      OneMore(p, end - 1);
    }
  }

  lemma LabelsAtMore(bars: seq<HourBar>, horizon: nat, labels: seq<Outcome>, hours: seq<int>, k: int, l: Outcome)
    requires LabelsAt(bars, horizon, labels, hours)
    requires 0 <= k && k + horizon + 2 < |bars| && ReturnsAt(bars, horizon, k, l)
    ensures LabelsAt(bars, horizon, labels + [l], hours + [k])
  {
  }

  lemma {:induction false} LabelsToMean(bars: seq<HourBar>, horizon: nat, context: Trend, end: int)
    returns (hours: seq<int>)
    requires Priced(bars) && end <= LastIndex(bars, horizon)
    ensures ListsSignals(bars, horizon, context, end, hours)
    ensures LabelsAt(bars, horizon, LabelsTo(bars, horizon, context, end), hours)
    decreases end
  {
    if end <= 24 {
      return [];
    }
    var before := LabelsToMean(bars, horizon, context, end - 1);
    MatchIff(bars, horizon, context, end - 1);
    hours := ListsOneMore(bars, horizon, context, end - 1, before);
    LabelTurn(bars, horizon, context, end - 1);
    LabelsAtMore(bars, horizon, LabelsTo(bars, horizon, context, end - 1), before, end - 1,
                 OutcomeAt(bars, horizon, end - 1));
  }

  lemma SignalsCounted(bars: seq<HourBar>, horizon: nat, context: Trend)
    requires Priced(bars)
    ensures CountsSignals(bars, horizon, context, |bars|,
                          MatchesTo(bars, horizon, context, LastIndex(bars, horizon)))
  {
    var end := LastIndex(bars, horizon);
    var p: int -> bool := k => Signals(bars, horizon, context, k);
    forall k ensures p(k) ==> 24 <= k < end {
      SignalRange(bars, horizon, context, k);
    }
    forall k {:trigger p(k)} | 24 <= k < end ensures p(k) == IsMatch(bars, horizon, context, k) {
      MatchIff(bars, horizon, context, k);
    }
    MatchesCount(bars, horizon, context, end, p);
    if end >= 0 {
      NoneBetween(p, end, |bars|);
    } else {
      NoneUpTo(p, |bars|);
      NoneUpTo(p, end);
    }
  }

  /** No signal is left after the last index the loop reaches. */
  lemma LabelsOfMean(bars: seq<HourBar>, horizon: nat, context: Trend)
    requires Priced(bars)
    ensures LabelsMean(bars, horizon, context, LabelsOf(bars, horizon, context),
                       MatchesTo(bars, horizon, context, LastIndex(bars, horizon)))
  {
    var end := LastIndex(bars, horizon);
    var hours := LabelsToMean(bars, horizon, context, end);
    assert ListsSignals(bars, horizon, context, |bars|, hours);
    SignalsCounted(bars, horizon, context);
  }

  /** The loop over signals. */
  method CollectLabels(bars: seq<HourBar>, horizon: nat, context: Trend) returns (labels: seq<Outcome>, matches: nat)
    requires Priced(bars)
    ensures labels == LabelsOf(bars, horizon, context)
    ensures matches == MatchesTo(bars, horizon, context, LastIndex(bars, horizon))
  {
    labels, matches := [], 0;
    if LastIndex(bars, horizon) <= 24 {
      return;
    }
    for index := 24 to LastIndex(bars, horizon)
      invariant labels == LabelsTo(bars, horizon, context, index) && matches == MatchesTo(bars, horizon, context, index)
    {
      LabelTurn(bars, horizon, context, index);
      var state := ContextAt(bars, index);
      if state.None? || state.value.0 != context {
        continue;
      }
      if !Contiguous(bars[index..index + horizon + 3]) {
        continue;
      }
      matches := matches + 1;
      if bars[index].ts / HOUR % (horizon + 1) != 0 {
        continue;
      }
      labels := labels + [OutcomeAt(bars, horizon, index)];
    }
  }

  /** `historical_labels`. */
  method HistoricalLabels(bars: seq<HourBar>, horizon: nat, context: Trend) returns (labels: seq<Outcome>, matches: nat)
    requires Priced(bars)
    ensures labels == LabelsOf(bars, horizon, context)
    ensures matches == MatchesTo(bars, horizon, context, LastIndex(bars, horizon))
    ensures LabelsMean(bars, horizon, context, labels, matches)
    ensures |labels| <= matches
  {
    labels, matches := CollectLabels(bars, horizon, context);
    LabelsOfMean(bars, horizon, context);
  }

  // ----- label hygiene

  ghost predicate AscendingHours(bars: seq<HourBar>) {
    forall i, j :: 0 <= i < j < |bars| ==> bars[i].ts < bars[j].ts
  }

  /** Every label comes from a grid hour, spans from the hour after it to the exit, and they are
      listed by hour. */
  ghost predicate OnGridLabel(l: Outcome, horizon: nat) {
    && l.signalAt % HOUR == 0 && OnGrid(l.signalAt - HOUR, horizon)
    && l.exitAt == l.signalAt + (horizon + 1) * HOUR
  }

  lemma {:induction false} ContiguousSpan(bars: seq<HourBar>, k: nat)
    requires Contiguous(bars) && k < |bars|
    ensures bars[k].ts == bars[0].ts + k * HOUR
    decreases k
  {
    if k > 0 {
      ContiguousSpan(bars, k - 1);
      assert bars[k - 1 + 1].ts - bars[k - 1].ts == HOUR;
    }
  }

  lemma LabelShape(bars: seq<HourBar>, horizon: nat, context: Trend, index: int)
    requires Priced(bars) && 0 <= index < LastIndex(bars, horizon)
    requires IsMatch(bars, horizon, context, index) && OnGrid(bars[index].ts, horizon)
    ensures OnGridLabel(OutcomeAt(bars, horizon, index), horizon)
    ensures OutcomeAt(bars, horizon, index).signalAt == bars[index].ts + HOUR
  {
    var path := bars[index..index + horizon + 3];
    ContiguousSpan(path, horizon + 2);
    assert path[horizon + 2] == bars[index + 2 + horizon] && path[0] == bars[index];
    assert bars[index].Valid();
    assert bars[index].ts + (horizon + 2) * HOUR == bars[index].ts + HOUR + (horizon + 1) * HOUR;
    WholeHour(bars[index].ts);
  }

  lemma WholeHour(ts: Time)
    requires ts % HOUR == 0
    ensures (ts + HOUR) % HOUR == 0
  {
  }

  lemma MultiplesApart(m: int, n: int, d: int)
    requires d > 0 && m < n && m % d == 0 && n % d == 0
    ensures n >= m + d
  {
    var a, b := m / d, n / d;
    assert m == a * d && n == b * d;
    assert a < b by {
      if b <= a {
        ScaleMonotone(b, a, d);
      }
    }
    ScaleMonotone(a + 1, b, d);
  }

  lemma ScaleMonotone(a: int, b: int, d: int)
    requires a <= b && d > 0
    ensures a * d <= b * d
  {
    assert (b - a) * d >= 0;
  }

  /** Two labels of the grid overlap at most at an endpoint. */
  lemma GridLabelsApart(a: Outcome, b: Outcome, horizon: nat)
    requires OnGridLabel(a, horizon) && OnGridLabel(b, horizon) && a.signalAt < b.signalAt
    ensures a.exitAt <= b.signalAt
  {
    var m, n := (a.signalAt - HOUR) / HOUR, (b.signalAt - HOUR) / HOUR;
    assert a.signalAt == (m + 1) * HOUR && b.signalAt == (n + 1) * HOUR;
    MultiplesApart(m, n, horizon + 1);
  }

  ghost predicate LabelsBefore(labels: seq<Outcome>, horizon: nat, bound: Time) {
    && (forall i :: 0 <= i < |labels| ==> OnGridLabel(labels[i], horizon) && labels[i].signalAt <= bound)
    && (forall i, j :: 0 <= i < j < |labels| ==> labels[i].signalAt < labels[j].signalAt)
  }

  lemma {:induction false} LabelsInOrder(bars: seq<HourBar>, horizon: nat, context: Trend, end: int)
    requires Priced(bars) && AscendingHours(bars) && 0 < end <= LastIndex(bars, horizon)
    ensures LabelsBefore(LabelsTo(bars, horizon, context, end), horizon, bars[end - 1].ts + HOUR)
    decreases end
  {
    if end > 24 {
      LabelsInOrder(bars, horizon, context, end - 1);
      assert bars[end - 2].ts < bars[end - 1].ts;
      if IsMatch(bars, horizon, context, end - 1) && OnGrid(bars[end - 1].ts, horizon) {
        LabelShape(bars, horizon, context, end - 1);
      }
    }
  }

  /** Label hygiene: on ascending hour bars, labels are listed by signal and any two of them
      overlap at most at an endpoint. */
  lemma LabelsDisjoint(bars: seq<HourBar>, horizon: nat, context: Trend)
    requires Priced(bars) && AscendingHours(bars)
    ensures var labels := LabelsOf(bars, horizon, context);
            && (forall i :: 0 <= i < |labels| ==> OnGridLabel(labels[i], horizon))
            && forall i, j :: 0 <= i < j < |labels| ==>
                 labels[i].signalAt < labels[i].exitAt <= labels[j].signalAt
  {
    var labels := LabelsOf(bars, horizon, context);
    if LastIndex(bars, horizon) > 0 {
      LabelsInOrder(bars, horizon, context, LastIndex(bars, horizon));
      forall i, j | 0 <= i < j < |labels| ensures labels[i].signalAt < labels[i].exitAt <= labels[j].signalAt {
        GridLabelsApart(labels[i], labels[j], horizon);
        assert (horizon + 1) * HOUR > 0;
      }
    }
  }

  lemma MatchSame(bars: seq<HourBar>, more: seq<HourBar>, horizon: nat, context: Trend, index: int)
    requires Priced(bars) && Priced(bars + more) && 24 <= index < LastIndex(bars, horizon)
    ensures IsMatch(bars + more, horizon, context, index) == IsMatch(bars, horizon, context, index)
    ensures OutcomeAt(bars + more, horizon, index) == OutcomeAt(bars, horizon, index)
  {
    assert (bars + more)[index - 24..index + 1] == bars[index - 24..index + 1];
    assert (bars + more)[index..index + horizon + 3] == bars[index..index + horizon + 3];
    assert ContextAt(bars + more, index) == ContextAt(bars, index);
  }

  lemma {:induction false} LabelsSame(bars: seq<HourBar>, more: seq<HourBar>, horizon: nat, context: Trend, end: int)
    requires Priced(bars) && Priced(bars + more) && end <= LastIndex(bars, horizon)
    ensures LabelsTo(bars + more, horizon, context, end) == LabelsTo(bars, horizon, context, end)
    decreases end
  {
    if end > 24 {
      LabelsSame(bars, more, horizon, context, end - 1);
      MatchSame(bars, more, horizon, context, end - 1);
    }
  }

  lemma {:induction false} LabelsGrow(bars: seq<HourBar>, horizon: nat, context: Trend, end: int, later: int)
    requires Priced(bars) && end <= later <= LastIndex(bars, horizon)
    ensures LabelsTo(bars, horizon, context, end) <= LabelsTo(bars, horizon, context, later)
    decreases later
  {
    if end < later && later > 24 {
      LabelsGrow(bars, horizon, context, end, later - 1);
    }
  }

  /** Later bars only append labels; none of the old ones changes or moves. */
  lemma LabelsAreAppendOnly(bars: seq<HourBar>, more: seq<HourBar>, horizon: nat, context: Trend)
    requires Priced(bars) && Priced(bars + more)
    ensures LabelsOf(bars, horizon, context) <= LabelsOf(bars + more, horizon, context)
  {
    LabelsSame(bars, more, horizon, context, LastIndex(bars, horizon));
    LabelsGrow(bars + more, horizon, context, LastIndex(bars, horizon), LastIndex(bars + more, horizon));
  }

  // ----- the chronological split

  /** 70% of the way from the first bar to the last. */
  function SplitAt(bars: seq<HourBar>): real
    requires bars != []
  {
    bars[0].ts as real + (bars[|bars| - 1].ts - bars[0].ts) as real * 0.7
  }

  function Train(labels: seq<Outcome>, split: real): (kept: seq<Outcome>)
    ensures forall l :: l in kept <==> l in labels && l.exitAt as real <= split
  {
    if labels == [] then []
    else (if labels[0].exitAt as real <= split then [labels[0]] else []) + Train(labels[1..], split)
  }

  function EmbargoEnd(split: real, horizon: nat): real {
    split + ((horizon + 1) * HOUR) as real
  }

  function ChronologicalTail(labels: seq<Outcome>, split: real, horizon: nat): (kept: seq<Outcome>)
    ensures forall l :: l in kept <==> l in labels && l.signalAt as real >= EmbargoEnd(split, horizon)
  {
    if labels == [] then []
    else (if labels[0].signalAt as real >= EmbargoEnd(split, horizon) then [labels[0]] else [])
         + ChronologicalTail(labels[1..], split, horizon)
  }

  /** Tuples compare by signal, then exit, then return. */
  predicate OutcomeNotAfter(a: Outcome, b: Outcome) {
    if a.signalAt != b.signalAt then a.signalAt < b.signalAt
    else if a.exitAt != b.exitAt then a.exitAt < b.exitAt
    else a.gross <= b.gross
  }

  lemma TailFollowsTrain(bars: seq<HourBar>, horizon: nat, context: Trend, a: Outcome, b: Outcome)
    requires bars != [] && Priced(bars) && AscendingHours(bars)
    requires a in Train(LabelsOf(bars, horizon, context), SplitAt(bars))
    requires b in ChronologicalTail(LabelsOf(bars, horizon, context), SplitAt(bars), horizon)
    ensures a.exitAt + (horizon + 1) * HOUR <= b.signalAt && a.signalAt < b.signalAt
  {
    var labels := LabelsOf(bars, horizon, context);
    LabelsDisjoint(bars, horizon, context);
    var i :| 0 <= i < |labels| && labels[i] == a;
    assert OnGridLabel(labels[i], horizon);
    assert a.exitAt as real + ((horizon + 1) * HOUR) as real <= b.signalAt as real;
  }

  lemma ConcatSorted(train: seq<Outcome>, tail: seq<Outcome>)
    requires BySignal(train) && BySignal(tail)
    requires forall a, b :: a in train && b in tail ==> a.signalAt < b.signalAt
    ensures SortBy(train + tail, OutcomeNotAfter) == train + tail
  {
    var both := train + tail;
    forall i, j | 0 <= i < j < |both| ensures OutcomeNotAfter(both[i], both[j]) {
      if i < |train| <= j {
        assert both[i] in train && both[j] in tail;
      }
    }
    SortBySortedIsIdentity(both, OutcomeNotAfter);
  }

  /** A purged and embargoed split: every tail signal is at least `horizon + 1` hours after every
      training exit, and what the split keeps is the training labels followed by the tail. */
  lemma SplitSeparates(bars: seq<HourBar>, horizon: nat, context: Trend)
    requires bars != [] && Priced(bars) && AscendingHours(bars)
    ensures var labels, split := LabelsOf(bars, horizon, context), SplitAt(bars);
            var train, tail := Train(labels, split), ChronologicalTail(labels, split, horizon);
            && (forall a, b :: a in train && b in tail ==> a.exitAt + (horizon + 1) * HOUR <= b.signalAt)
            && SortBy(train + tail, OutcomeNotAfter) == train + tail
            && |train| + |tail| <= |labels|
  {
    var labels, split := LabelsOf(bars, horizon, context), SplitAt(bars);
    LabelsDisjoint(bars, horizon, context);
    SplitSizes(labels, split, horizon);
    TrainSorted(labels, split);
    TailSorted(labels, split, horizon);
    var train, tail := Train(labels, split), ChronologicalTail(labels, split, horizon);
    forall a, b | a in train && b in tail
      ensures a.exitAt + (horizon + 1) * HOUR <= b.signalAt && a.signalAt < b.signalAt
    {
      TailFollowsTrain(bars, horizon, context, a, b);
    }
    ConcatSorted(train, tail);
  }

  lemma {:induction false} SplitSizes(labels: seq<Outcome>, split: real, horizon: nat)
    requires forall i :: 0 <= i < |labels| ==> labels[i].signalAt < labels[i].exitAt
    ensures |Train(labels, split)| + |ChronologicalTail(labels, split, horizon)| <= |labels|
    decreases |labels|
  {
    if labels != [] {
      SplitSizes(labels[1..], split, horizon);
      assert labels[0].signalAt as real < labels[0].exitAt as real;
    }
  }

  ghost predicate BySignal(labels: seq<Outcome>) {
    forall i, j :: 0 <= i < j < |labels| ==> labels[i].signalAt < labels[j].signalAt
  }

  lemma {:induction false} TrainSorted(labels: seq<Outcome>, split: real)
    requires BySignal(labels)
    ensures BySignal(Train(labels, split))
    decreases |labels|
  {
    if labels != [] {
      TrainSorted(labels[1..], split);
      var rest := Train(labels[1..], split);
      forall i | 0 <= i < |rest| ensures labels[0].signalAt < rest[i].signalAt {
        assert rest[i] in labels[1..];
        var k :| 0 <= k < |labels[1..]| && labels[1..][k] == rest[i];
        assert labels[k + 1] == rest[i];
      }
    }
  }

  lemma {:induction false} TailSorted(labels: seq<Outcome>, split: real, horizon: nat)
    requires BySignal(labels)
    ensures BySignal(ChronologicalTail(labels, split, horizon))
    decreases |labels|
  {
    if labels != [] {
      TailSorted(labels[1..], split, horizon);
      var rest := ChronologicalTail(labels[1..], split, horizon);
      forall i | 0 <= i < |rest| ensures labels[0].signalAt < rest[i].signalAt {
        assert rest[i] in labels[1..];
        var k :| 0 <= k < |labels[1..]| && labels[1..][k] == rest[i];
        assert labels[k + 1] == rest[i];
      }
    }
  }
}
