/** `quantile` and `describe`: the historical description of one context. */
module Statistics {
  import opened Contracts
  import opened Sorting
  import opened NonOverlap
  import opened Labels

  /** Linear interpolation between the neighbours of a position. */
  function Interpolate(ordered: seq<real>, position: real): real
    requires ordered != [] && 0.0 <= position <= (|ordered| - 1) as real
  {
    var left := position.Floor;
    var right := Min(left + 1, |ordered| - 1);
    ordered[left] + (ordered[right] - ordered[left]) * (position - left as real)
  }

  lemma PositionInRange(n: nat, probability: real)
    requires n > 0 && 0.0 <= probability <= 1.0
    ensures 0.0 <= (n - 1) as real * probability <= (n - 1) as real
  {
  }

  lemma PositionOrder(n: nat, p: real, q: real)
    requires n > 0 && p <= q
    ensures (n - 1) as real * p <= (n - 1) as real * q
  {
    var last, more := (n - 1) as real, q - p;
    assert last * more >= 0.0;
    assert last * p + last * more == last * q;
  }

  function Quantile(values: seq<real>, probability: real): real
    requires values != [] && 0.0 <= probability <= 1.0
  {
    PositionInRange(|values|, probability);
    Interpolate(SortBy(values, AtMost), (|values| - 1) as real * probability)
  }

  lemma BetweenNeighbours(ordered: seq<real>, position: real)
    requires ordered != [] && 0.0 <= position <= (|ordered| - 1) as real && Sorted(ordered, AtMost)
    ensures var left := position.Floor;
            ordered[left] <= Interpolate(ordered, position) <= ordered[Min(left + 1, |ordered| - 1)]
  {
    var left := position.Floor;
    var right := Min(left + 1, |ordered| - 1);
    assert ordered[left] <= ordered[right] by {
      assert left < right ==> AtMost(ordered[left], ordered[right]);
    }
    WeightedBetween(ordered[left], ordered[right], position - left as real);
  }

  lemma WeightedBetween(a: real, b: real, w: real)
    requires a <= b && 0.0 <= w <= 1.0
    ensures a <= a + (b - a) * w <= b
  {
  }

  lemma WeightedMonotone(a: real, b: real, w: real, v: real)
    requires a <= b && w <= v
    ensures a + (b - a) * w <= a + (b - a) * v
  {
  }

  lemma InterpolateMonotone(ordered: seq<real>, x: real, y: real)
    requires ordered != [] && 0.0 <= x <= y <= (|ordered| - 1) as real && Sorted(ordered, AtMost)
    ensures Interpolate(ordered, x) <= Interpolate(ordered, y)
  {
    var left := x.Floor;
    if left == y.Floor {
      var right := Min(left + 1, |ordered| - 1);
      assert ordered[left] <= ordered[right] by {
        assert left < right ==> AtMost(ordered[left], ordered[right]);
      }
      WeightedMonotone(ordered[left], ordered[right], x - left as real, y - left as real);
    } else {
      BetweenNeighbours(ordered, x);
      BetweenNeighbours(ordered, y);
      assert left + 1 <= y.Floor;
      assert left + 1 < y.Floor ==> AtMost(ordered[left + 1], ordered[y.Floor]);
    }
  }

  lemma QuantilesAt(values: seq<real>, p: real, q: real) returns (x: real, y: real)
    requires values != [] && 0.0 <= p <= q <= 1.0
    ensures 0.0 <= x <= y <= (|values| - 1) as real
    ensures Quantile(values, p) == Interpolate(SortBy(values, AtMost), x)
    ensures Quantile(values, q) == Interpolate(SortBy(values, AtMost), y)
  {
    x, y := (|values| - 1) as real * p, (|values| - 1) as real * q;
    PositionInRange(|values|, p);
    PositionInRange(|values|, q);
    PositionOrder(|values|, p, q);
  }

  /** A larger probability never gives a smaller quantile. */
  lemma QuantileMonotone(values: seq<real>, p: real, q: real)
    requires values != [] && 0.0 <= p <= q <= 1.0
    ensures Quantile(values, p) <= Quantile(values, q)
  {
    var x, y := QuantilesAt(values, p, q);
    assert TotalPreorder(AtMost);
    SortBySorted(values, AtMost);
    InterpolateMonotone(SortBy(values, AtMost), x, y);
  }

  function Mean(values: seq<real>): real
    requires values != []
  {
    Sum(values) / |values| as real
  }

  function Grosses(labels: seq<Outcome>): (g: seq<real>)
    ensures |g| == |labels|
  {
    seq(|labels|, i requires 0 <= i < |labels| => labels[i].gross)
  }

  function CountAbove(values: seq<real>, threshold: real): (n: nat)
    ensures n <= |values|
  {
    if values == [] then 0 else (if values[0] > threshold then 1 else 0) + CountAbove(values[1..], threshold)
  }

  function QuantilesOf(values: seq<real>): Quantiles
    requires values != []
  {
    Quantiles(Mean(values), Quantile(values, 0.1), Quantile(values, 0.5), Quantile(values, 0.9))
  }

  function Net(gross: Quantiles, cost: real): Quantiles {
    Quantiles(gross.mean - cost, gross.p10 - cost, gross.p50 - cost, gross.p90 - cost)
  }

  /** The labels kept by the split, and those of the tail. */
  function Kept(bars: seq<HourBar>, horizon: nat, context: Trend): (seq<Outcome>, seq<Outcome>)
    requires Priced(bars)
  {
    if bars == [] then ([], [])
    else
      var labels, split := LabelsOf(bars, horizon, context), SplitAt(bars);
      var tail := ChronologicalTail(labels, split, horizon);
      (SortBy(Train(labels, split) + tail, OutcomeNotAfter), tail)
  }

  function PositiveFraction(gross: seq<real>, cost: real): real
    requires gross != []
  {
    CountAbove(gross, cost) as real / |gross| as real
  }

  /** The description as its fields are filled in. */
  function Assemble(matches: nat, selected: seq<Outcome>, tail: seq<Outcome>, cost: Option<real>): Distribution {
    var gross := Grosses(selected);
    var priced := gross != [] && cost.Some?;
    Distribution(
      matches, |selected|,
      if gross != [] then Some(QuantilesOf(gross)) else None,
      if priced then Some(Net(QuantilesOf(gross), cost.value)) else None,
      if priced then Some(Mean(gross) - 2.0 * cost.value) else None,
      if priced then Some(PositiveFraction(gross, cost.value)) else None,
      |tail|,
      if priced && tail != [] then Some(Mean(Grosses(tail)) - cost.value) else None)
  }

  function Describe(bars: seq<HourBar>, horizon: nat, context: Trend, cost: Option<real>): Distribution
    requires Priced(bars)
  {
    var (selected, tail) := Kept(bars, horizon, context);
    Assemble(MatchesTo(bars, horizon, context, LastIndex(bars, horizon)), selected, tail, cost)
  }

  /** The description meets its contract on every ascending history. */
  lemma DescribeValid(bars: seq<HourBar>, horizon: nat, context: Trend, cost: Option<real>)
    requires Priced(bars) && AscendingHours(bars)
    ensures Describe(bars, horizon, context, cost).Valid()
  {
    var (selected, tail) := Kept(bars, horizon, context);
    if bars != [] {
      SplitSeparates(bars, horizon, context);
    }
    var gross := Grosses(selected);
    if gross != [] {
      QuantileMonotone(gross, 0.1, 0.5);
      QuantileMonotone(gross, 0.5, 0.9);
      if cost.Some? {
        FractionInRange(CountAbove(gross, cost.value), |gross|);
      }
    }
  }

  // ----- what the description is, said of the labels

  ghost function Total(labels: seq<Outcome>): real {
    if labels == [] then 0.0 else labels[0].gross + Total(labels[1..])
  }

  ghost predicate MeanIs(labels: seq<Outcome>, mean: real) {
    labels != [] && mean == Total(labels) / |labels| as real
  }

  /** The returns of the labels, ascending. */
  ghost predicate Ranks(labels: seq<Outcome>, ordered: seq<real>) {
    && (forall i, j :: 0 <= i < j < |ordered| ==> ordered[i] <= ordered[j])
    && multiset(ordered) == multiset(seq(|labels|, i requires 0 <= i < |labels| => labels[i].gross))
  }

  /** The value at a position between two ranks, or at the last rank. */
  ghost predicate LiesAt(ordered: seq<real>, position: real, q: real) {
    exists rank :: 0 <= rank < |ordered| && rank as real <= position < rank as real + 1.0
      && LiesAfter(ordered, position, rank, q)
  }

  ghost predicate LiesAfter(ordered: seq<real>, position: real, rank: int, q: real)
    requires 0 <= rank < |ordered|
  {
    if rank == |ordered| - 1 then q == ordered[rank]
    else q == ordered[rank] + (ordered[rank + 1] - ordered[rank]) * (position - rank as real)
  }

  ghost predicate RankedAt(labels: seq<Outcome>, position: real, q: real) {
    exists ordered :: Ranks(labels, ordered) && LiesAt(ordered, position, q)
  }

  /** The mean, and the values at a tenth, at half and at nine tenths of the way up the ranks. */
  ghost predicate QuantilesAre(labels: seq<Outcome>, q: Quantiles) {
    && MeanIs(labels, q.mean)
    && RankedAt(labels, 0.1 * (|labels| - 1) as real, q.p10)
    && RankedAt(labels, 0.5 * (|labels| - 1) as real, q.p50)
    && RankedAt(labels, 0.9 * (|labels| - 1) as real, q.p90)
  }

  /** The share of labels that return more than the cost. */
  ghost predicate ShareAbove(labels: seq<Outcome>, cost: real, share: real) {
    labels != [] && share == |set i | 0 <= i < |labels| && labels[i].gross > cost| as real / |labels| as real
  }

  /** Every figure of the description, from the labels it keeps and those of the tail. */
  ghost predicate Figures(selected: seq<Outcome>, tail: seq<Outcome>, cost: Option<real>, d: Distribution) {
    && d.nonOverlapping == |selected| && d.tailSamples == |tail|
    && (d.gross.Some? <==> selected != [])
    && (d.gross.Some? ==> QuantilesAre(selected, d.gross.value))
    && (d.net.Some? <==> selected != [] && cost.Some?)
    && (d.doubleCostMean.Some? <==> selected != [] && cost.Some?)
    && (d.positiveFraction.Some? <==> selected != [] && cost.Some?)
    && (d.tailNetMean.Some? <==> selected != [] && cost.Some? && tail != [])
    && (d.net.Some? ==>
          && d.net.value.mean == d.gross.value.mean - cost.value && d.net.value.p10 == d.gross.value.p10 - cost.value
          && d.net.value.p50 == d.gross.value.p50 - cost.value && d.net.value.p90 == d.gross.value.p90 - cost.value
          && d.doubleCostMean.value == d.gross.value.mean - 2.0 * cost.value
          && ShareAbove(selected, cost.value, d.positiveFraction.value))
    && (d.tailNetMean.Some? ==> MeanIs(tail, d.tailNetMean.value + cost.value))
  }

  /** The label was known when 70% of the recorded time had passed. */
  ghost predicate BeforeSplit(bars: seq<HourBar>, l: Outcome)
    requires bars != []
  {
    (l.exitAt - bars[0].ts) as real <= 0.7 * (bars[|bars| - 1].ts - bars[0].ts) as real
  }

  /** The signal comes `horizon + 1` hours after that, or later. */
  ghost predicate AfterEmbargo(bars: seq<HourBar>, horizon: nat, l: Outcome)
    requires bars != []
  {
    (l.signalAt - (horizon + 1) * HOUR - bars[0].ts) as real >= 0.7 * (bars[|bars| - 1].ts - bars[0].ts) as real
  }

  /** What the split keeps of the labels, each as often as it is listed. */
  ghost predicate SplitKeeps(
    bars: seq<HourBar>, horizon: nat, labels: seq<Outcome>, selected: seq<Outcome>, tail: seq<Outcome>)
  {
    if bars == [] then selected == [] && tail == []
    else forall l ::
      && multiset(tail)[l] == (if AfterEmbargo(bars, horizon, l) then multiset(labels)[l] else 0)
      && multiset(selected)[l] == multiset(tail)[l] + if BeforeSplit(bars, l) then multiset(labels)[l] else 0
  }

  ghost predicate DescribesLabels(
    bars: seq<HourBar>, horizon: nat, labels: seq<Outcome>, cost: Option<real>, d: Distribution)
  {
    exists selected, tail :: SplitKeeps(bars, horizon, labels, selected, tail) && Figures(selected, tail, cost, d)
  }

  /** The description of the signals of one context, said of the bars. */
  ghost predicate Describes(bars: seq<HourBar>, horizon: nat, context: Trend, cost: Option<real>, d: Distribution) {
    exists labels :: LabelsMean(bars, horizon, context, labels, d.samples)
      && DescribesLabels(bars, horizon, labels, cost, d)
  }

  lemma {:induction false} TotalIsSum(labels: seq<Outcome>)
    ensures Total(labels) == Sum(Grosses(labels))
    decreases |labels|
  {
    if labels != [] {
      TotalIsSum(labels[1..]);
      assert Grosses(labels)[1..] == Grosses(labels[1..]);
    }
  }

  lemma RanksSorted(labels: seq<Outcome>)
    ensures Ranks(labels, SortBy(Grosses(labels), AtMost))
  {
    var gross := Grosses(labels);
    var ordered := SortBy(gross, AtMost);
    assert gross == seq(|labels|, i requires 0 <= i < |labels| => labels[i].gross);
    assert TotalPreorder(AtMost);
    SortBySorted(gross, AtMost);
    SortByPermutes(gross, AtMost);
    forall i, j | 0 <= i < j < |ordered| ensures ordered[i] <= ordered[j] {
      assert AtMost(ordered[i], ordered[j]);
    }
  }

  lemma RankedMeans(labels: seq<Outcome>, position: real)
    requires labels != [] && 0.0 <= position <= (|labels| - 1) as real
    ensures RankedAt(labels, position, Interpolate(SortBy(Grosses(labels), AtMost), position))
  {
    RanksSorted(labels);
    InterpolateLies(SortBy(Grosses(labels), AtMost), position);
  }

  lemma InterpolateLies(ordered: seq<real>, position: real)
    requires ordered != [] && 0.0 <= position <= (|ordered| - 1) as real
    ensures LiesAt(ordered, position, Interpolate(ordered, position))
  {
    var rank := position.Floor;
    assert LiesAfter(ordered, position, rank, Interpolate(ordered, position));
  }

  lemma {:induction false} CountsAbove(labels: seq<Outcome>, cost: real, from: nat)
    requires from <= |labels|
    ensures CountAbove(Grosses(labels)[from..], cost) == |set i | from <= i < |labels| && labels[i].gross > cost|
    decreases |labels| - from
  {
    var gross := Grosses(labels);
    if from < |labels| {
      CountsAbove(labels, cost, from + 1);
      assert gross[from..][0] == gross[from] && gross[from..][1..] == gross[from + 1..];
      var rest := set i | from + 1 <= i < |labels| && labels[i].gross > cost;
      assert (set i | from <= i < |labels| && labels[i].gross > cost)
          == rest + if labels[from].gross > cost then {from} else {};
    }
  }

  lemma ShareMeans(labels: seq<Outcome>, cost: real)
    requires labels != []
    ensures ShareAbove(labels, cost, PositiveFraction(Grosses(labels), cost))
  {
    CountsAbove(labels, cost, 0);
    assert Grosses(labels)[0..] == Grosses(labels);
  }

  lemma QuantilesMean(labels: seq<Outcome>)
    requires labels != []
    ensures QuantilesAre(labels, QuantilesOf(Grosses(labels)))
  {
    TotalIsSum(labels);
    RankedMeans(labels, 0.1 * (|labels| - 1) as real);
    RankedMeans(labels, 0.5 * (|labels| - 1) as real);
    RankedMeans(labels, 0.9 * (|labels| - 1) as real);
  }

  lemma AssembledFigures(matches: nat, selected: seq<Outcome>, tail: seq<Outcome>, cost: Option<real>)
    ensures Figures(selected, tail, cost, Assemble(matches, selected, tail, cost))
  {
    if selected != [] {
      QuantilesMean(selected);
      if cost.Some? {
        ShareMeans(selected, cost.value);
      }
    }
    TotalIsSum(tail);
  }

  lemma {:induction false} TrainKeeps(labels: seq<Outcome>, split: real, l: Outcome)
    ensures multiset(Train(labels, split))[l] == if l.exitAt as real <= split then multiset(labels)[l] else 0
    decreases |labels|
  {
    if labels != [] {
      TrainKeeps(labels[1..], split, l);
      assert labels == [labels[0]] + labels[1..];
    }
  }

  lemma {:induction false} TailKeeps(labels: seq<Outcome>, split: real, horizon: nat, l: Outcome)
    ensures multiset(ChronologicalTail(labels, split, horizon))[l]
         == if l.signalAt as real >= split + ((horizon + 1) * HOUR) as real then multiset(labels)[l] else 0
    decreases |labels|
  {
    if labels != [] {
      TailKeeps(labels[1..], split, horizon, l);
      assert labels == [labels[0]] + labels[1..];
    }
  }

  lemma SplitMeans(bars: seq<HourBar>, horizon: nat, labels: seq<Outcome>)
    requires bars != []
    ensures var tail := ChronologicalTail(labels, SplitAt(bars), horizon);
            SplitKeeps(bars, horizon, labels, SortBy(Train(labels, SplitAt(bars)) + tail, OutcomeNotAfter), tail)
  {
    var split := SplitAt(bars);
    var train, tail := Train(labels, split), ChronologicalTail(labels, split, horizon);
    SortByPermutes(train + tail, OutcomeNotAfter);
    forall l
      ensures multiset(train)[l] == if BeforeSplit(bars, l) then multiset(labels)[l] else 0
      ensures multiset(tail)[l] == if AfterEmbargo(bars, horizon, l) then multiset(labels)[l] else 0
    {
      TrainKeeps(labels, split, l);
      TailKeeps(labels, split, horizon, l);
    }
  }

  lemma DescribeMeans(bars: seq<HourBar>, horizon: nat, context: Trend, cost: Option<real>)
    requires Priced(bars)
    ensures Describes(bars, horizon, context, cost, Describe(bars, horizon, context, cost))
  {
    var labels := LabelsOf(bars, horizon, context);
    var (selected, tail) := Kept(bars, horizon, context);
    LabelsOfMean(bars, horizon, context);
    if bars != [] {
      SplitMeans(bars, horizon, labels);
    }
    AssembledFigures(MatchesTo(bars, horizon, context, LastIndex(bars, horizon)), selected, tail, cost);
  }

  /** `describe`, over the labels its loop collects. */
  method DescribeHistory(bars: seq<HourBar>, horizon: nat, context: Trend, cost: Option<real>) returns (d: Distribution)
    requires Priced(bars)
    ensures d == Describe(bars, horizon, context, cost)
    ensures Describes(bars, horizon, context, cost, d)
    ensures AscendingHours(bars) ==> d.Valid()
  {
    assert Describes(bars, horizon, context, cost, Describe(bars, horizon, context, cost)) by {
      DescribeMeans(bars, horizon, context, cost);
    }
    var labels, matches := HistoricalLabels(bars, horizon, context);
    var train: seq<Outcome>, tail: seq<Outcome> := [], [];
    if bars != [] {
      train, tail := Train(labels, SplitAt(bars)), ChronologicalTail(labels, SplitAt(bars), horizon);
    }
    d := Assemble(matches, SortBy(train + tail, OutcomeNotAfter), tail, cost);
    if AscendingHours(bars) {
      DescribeValid(bars, horizon, context, cost);
    }
  }
}
