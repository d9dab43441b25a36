/** `build_advice`: one piece of advice from a history and a signed input, which must satisfy the
    contracts it is sealed with and the check the cloud node makes later. */
module AdviceBuilder {
  import opened Contracts
  import opened Store
  import opened Acceptance
  import opened History
  import opened Labels
  import opened Statistics

  const MIN_SAMPLES := 40
  const MIN_TAIL_SAMPLES := 12

  /** The two content hashes that name an advice and its opportunity. */
  datatype Naming = Naming(opportunity: Opportunity -> Id, advice: Advice -> Id)

  function CurrentExpiry(cost: Cost): Option<Time> {
    if cost.current.Some? then cost.current.value.validUntil else None
  }

  function Plus(t: Option<Time>, d: Time): Option<Time> {
    if t.Some? then Some(t.value + d) else None
  }

  function When(condition: bool, reason: ReasonCode): (r: seq<ReasonCode>)
    ensures |r| <= 1
    ensures r == [] <==> !condition
  {
    if condition then [reason] else []
  }

  /** What forbids a directional view, in the order it is noted: on the market, */
  function MarketReasons(bars: seq<HourBar>, latest: Option<HourBar>, context: Option<(Trend, real)>, now: Time)
    : (missing: seq<ReasonCode>)
    ensures |missing| <= 3
  {
    var entry := Plus(MarketAsof(latest), HOUR);
    When(latest.None? || bars == [] || bars[|bars| - 1].ts != latest.value.ts,
         if latest.None? then CurrentMarketMissing else HistoryCurrentMismatch)
    + When(entry.Some? && now >= entry.value, CurrentMarketStale)
    + When(context.None?, ContextWindowIncomplete)
  }

  /** on the cost, */
  function CostReasons(cost: Cost, now: Time): (missing: seq<ReasonCode>)
    ensures |missing| <= 3
    ensures missing == [] ==>
              && cost.roundtripBps.Some?
              && (cost.IsCurrent() ==> CurrentExpiry(cost).Some? && now < CurrentExpiry(cost).value)
  {
    When(cost.roundtripBps.None?, CostMissing)
    + (if cost.IsCurrent() then
         When(CurrentExpiry(cost).None? || now >= CurrentExpiry(cost).value, CurrentCostExpiredOrUnavailable)
       else When(cost.asOf.None? || now - cost.asOf.value > 2 * DAY, CostStaleOrUndated))
    + When(cost.asOf.Some? && cost.asOf.value > now, CostTimestampFuture)
  }

  /** and on the samples. */
  function SampleReasons(d: Distribution): (missing: seq<ReasonCode>)
    ensures |missing| <= 2
    ensures missing == [] ==> d.nonOverlapping >= MIN_SAMPLES && d.tailSamples >= MIN_TAIL_SAMPLES
  {
    When(d.nonOverlapping < MIN_SAMPLES, HistoricalSampleInsufficient)
    + When(d.tailSamples < MIN_TAIL_SAMPLES, RecentDiagnosticSampleInsufficient)
  }

  function MissingReasons(
    bars: seq<HourBar>, latest: Option<HourBar>, context: Option<(Trend, real)>, cost: Cost, d: Distribution, now: Time)
    : (missing: seq<ReasonCode>)
    ensures |missing| <= 8
  {
    MarketReasons(bars, latest, context, now) + CostReasons(cost, now) + SampleReasons(d)
  }

  /** Whether the cost is evidence enough for an independent paper comparison. */
  predicate PaperEvidence(cost: Cost) {
    cost.trustedForPaper || cost.IsCurrent()
  }

  /** The action from the mean net of the sample, of its tail, and at double cost. */
  function Choose(mean: real, tail: real, double: real, evidence: bool): (Action, ReasonCode) {
    if mean <= 0.0 && tail <= 0.0 then (Defer, HistoricalCostDrag)
    else if mean > 0.0 && tail > 0.0 && double > 0.0 then
      if evidence then (ReviewEntry, PositiveHistoricalReference) else (KeepBaseline, CostRequiresCalibration)
    else (KeepBaseline, HistoricalReferenceMixed)
  }

  function GetOr(x: Option<real>, default: real): real {
    if x.Some? then x.value else default
  }

  /** The advice stays valid until the entry, never beyond the cost it rests on. */
  function Expiry(now: Time, entry: Option<Time>, cost: Cost): Time {
    var byEntry := if entry.Some? && now < entry.value then entry.value else now;
    if CurrentExpiry(cost).Some? then Max(now, Min(byEntry, CurrentExpiry(cost).value)) else byEntry
  }

  /** What the builder has found out before it decides. */
  datatype Findings = Findings(
    latest: Option<HourBar>, cost: Cost, context: Option<(Trend, real)>, distribution: Distribution,
    missing: seq<ReasonCode>)

  function FindingsOf(bars: seq<HourBar>, input: InputSnapshot, symbol: Symbol, horizon: nat, now: Time): Findings
    requires Priced(bars)
  {
    var latest, cost := LatestBar(input.bars, symbol), CostFor(input, symbol);
    var context := if bars == [] then None else ContextAt(bars, |bars| - 1);
    var d := Describe(bars, horizon, if context.Some? then context.value.0 else Unavailable, cost.roundtripBps);
    Findings(latest, cost, context, d, MissingReasons(bars, latest, context, cost, d, now))
  }

  /** The decision: no view unless nothing is missing. */
  function Decide(f: Findings): (Action, seq<ReasonCode>) {
    if f.missing != [] || f.distribution.net.None? || f.distribution.tailNetMean.None? then (NoView, f.missing)
    else
      var (action, reason) := Choose(f.distribution.net.value.mean, f.distribution.tailNetMean.value,
                                     GetOr(f.distribution.doubleCostMean, 0.0), PaperEvidence(f.cost));
      (action, [reason])
  }

  function AdviceFrom(
    f: Findings, input: InputSnapshot, symbol: Symbol, horizon: nat, now: Time, volatility: real,
    naming: Naming): Advice
  {
    var (action, reasons) := Decide(f);
    var asof := MarketAsof(f.latest);
    var entry := Plus(asof, HOUR);
    var draft := Advice(
      0, naming.opportunity(Opportunity(symbol, asof, EXPERIMENT_VERSION)), symbol, horizon, now, asof,
      Expiry(now, entry, f.cost), entry, Plus(entry, horizon * HOUR), action,
      reasons + When(!f.cost.trustedForPaper, CostNotPaperTrusted)
        + When(f.cost.IsCurrent(), CurrentCostIsEstimate)
      + [ForwardValueNotEstablished],
      if f.context.Some? then f.context.value.0 else Unavailable,
      if f.latest.Some? then Some(f.latest.value.close) else None,
      if f.context.Some? then Some(volatility) else None,
      f.cost, f.distribution, input.id, EXPERIMENT_VERSION, STRATEGY_VERSION,
      Eligibility(f.missing == [] && PaperEvidence(f.cost),
                  !f.cost.IsCurrent() && f.cost.quality == "calibrated" && f.cost.actualSampleCount > 0));
    draft.(id := naming.advice(draft))
  }

  // ----- builder, contracts and acceptance agree

  lemma NoReason(
    bars: seq<HourBar>, latest: Option<HourBar>, context: Option<(Trend, real)>, cost: Cost, d: Distribution, now: Time)
    requires MissingReasons(bars, latest, context, cost, d, now) == []
    ensures latest.Some? && cost.roundtripBps.Some? && now < latest.value.ts + 2 * HOUR
    ensures cost.IsCurrent() ==> CurrentExpiry(cost).Some? && now < CurrentExpiry(cost).value
    ensures d.nonOverlapping >= MIN_SAMPLES && d.tailSamples >= MIN_TAIL_SAMPLES
  {
  }

  lemma MeansPresent(bars: seq<HourBar>, horizon: nat, context: Trend, cost: Option<real>)
    requires Priced(bars) && cost.Some?
    requires var d := Describe(bars, horizon, context, cost); d.nonOverlapping > 0 && d.tailSamples > 0
    ensures var d := Describe(bars, horizon, context, cost);
            d.net.Some? && d.tailNetMean.Some? && d.doubleCostMean.Some?
  {
  }

  /** With nothing missing, the means the decision needs are there (the original asserts it). */
  lemma NothingMissing(bars: seq<HourBar>, input: InputSnapshot, symbol: Symbol, horizon: nat, now: Time)
    requires Priced(bars) && FindingsOf(bars, input, symbol, horizon, now).missing == []
    ensures var f := FindingsOf(bars, input, symbol, horizon, now);
            && f.latest.Some? && f.cost.roundtripBps.Some?
            && now < f.latest.value.ts + 2 * HOUR
            && (f.cost.IsCurrent() ==> CurrentExpiry(f.cost).Some? && now < CurrentExpiry(f.cost).value)
            && f.distribution.net.Some? && f.distribution.tailNetMean.Some? && f.distribution.doubleCostMean.Some?
  {
    var f := FindingsOf(bars, input, symbol, horizon, now);
    NoReason(bars, f.latest, f.context, f.cost, f.distribution, now);
    MeansPresent(bars, horizon, if f.context.Some? then f.context.value.0 else Unavailable, f.cost.roundtripBps);
  }

  lemma LatestIsBar(input: InputSnapshot, symbol: Symbol)
    requires input.Valid()
    ensures var latest := LatestBar(input.bars, symbol);
            latest.Some? ==> latest.value.Valid() && latest.value.Available(input.generatedAt)
  {
    var latest := LatestBar(input.bars, symbol);
    if latest.Some? {
      var i :| 0 <= i < |input.bars| && input.bars[i] == latest.value;
    }
  }

  /** Times: the advice lives at most an hour, and an acting one not past its entry. */
  lemma ExpiryBounds(now: Time, asof: Option<Time>, cost: Cost)
    ensures var entry := Plus(asof, HOUR);
            var expiry := Expiry(now, entry, cost);
            && now <= expiry
            && (asof.None? || asof.value <= now ==> expiry <= now + HOUR)
            && (entry.Some? && now < entry.value ==> expiry <= entry.value)
            && (CurrentExpiry(cost).Some? && now < CurrentExpiry(cost).value ==> expiry <= CurrentExpiry(cost).value)
  {
  }

  ghost predicate GoodFindings(f: Findings, now: Time) {
    && f.cost.Valid() && f.distribution.Valid()
    && (f.latest.Some? ==> f.latest.value.close > 0.0)
    && (f.distribution.gross.Some? && f.cost.roundtripBps.Some? ==>
          f.distribution.net == Some(Net(f.distribution.gross.value, f.cost.roundtripBps.value)))
    && (f.missing == [] ==>
          && f.latest.Some? && f.cost.roundtripBps.Some? && now < f.latest.value.ts + 2 * HOUR
          && (f.cost.IsCurrent() ==> CurrentExpiry(f.cost).Some? && now < CurrentExpiry(f.cost).value)
          && f.distribution.net.Some? && f.distribution.tailNetMean.Some?)
    && |f.missing| <= 8
  }

  lemma FindingsAreGood(bars: seq<HourBar>, input: InputSnapshot, symbol: Symbol, horizon: nat, now: Time)
    requires Priced(bars) && AscendingHours(bars) && input.Valid()
    ensures GoodFindings(FindingsOf(bars, input, symbol, horizon, now), now)
  {
    var f := FindingsOf(bars, input, symbol, horizon, now);
    CostForIsValid(input, symbol);
    LatestIsBar(input, symbol);
    DescribeValid(bars, horizon, if f.context.Some? then f.context.value.0 else Unavailable, f.cost.roundtripBps);
    if f.missing == [] {
      NothingMissing(bars, input, symbol, horizon, now);
    }
  }

  lemma CoherentIff(
    f: Findings, input: InputSnapshot, symbol: Symbol, horizon: nat, now: Time, volatility: real,
    naming: Naming)
    requires GoodFindings(f, now) && horizon in HORIZONS && volatility >= 0.0
    ensures AdviceFrom(f, input, symbol, horizon, now, volatility, naming).Coherent()
            <==> (f.latest.Some? ==> f.latest.value.ts + HOUR <= now)
  {
    ExpiryBounds(now, MarketAsof(f.latest), f.cost);
  }

  lemma EvidenceHolds(
    f: Findings, input: InputSnapshot, symbol: Symbol, horizon: nat, now: Time, volatility: real,
    naming: Naming)
    requires GoodFindings(f, now)
    ensures AdviceFrom(f, input, symbol, horizon, now, volatility, naming).HasEvidence()
  {
  }

  /** Builder and contracts agree: on every valid input and ascending history the built advice
      satisfies all its validators, if and only if the input's latest bar of the symbol has closed
      by the builder's clock, which holds whenever the input was not generated in the future. */
  lemma BuiltAdviceValidIff(
    bars: seq<HourBar>, input: InputSnapshot, symbol: Symbol, horizon: nat, now: Time, volatility: real, naming: Naming)
    requires Priced(bars) && AscendingHours(bars) && input.Valid() && horizon in HORIZONS && volatility >= 0.0
    ensures var latest := LatestBar(input.bars, symbol);
            var advice := AdviceFrom(FindingsOf(bars, input, symbol, horizon, now), input, symbol, horizon, now,
                                     volatility, naming);
            && (advice.Valid() <==> (latest.Some? ==> latest.value.ts + HOUR <= now))
            && (input.generatedAt <= now ==> advice.Valid())
  {
    FindingsAreGood(bars, input, symbol, horizon, now);
    var f := FindingsOf(bars, input, symbol, horizon, now);
    CoherentIff(f, input, symbol, horizon, now, volatility, naming);
    EvidenceHolds(f, input, symbol, horizon, now, volatility, naming);
    LatestIsBar(input, symbol);
  }

  /** Builder and acceptance agree: the cloud node finds nothing to object to in built advice. */
  lemma BuiltAdvicePasses(
    bars: seq<HourBar>, input: InputSnapshot, symbol: Symbol, horizon: nat, now: Time, volatility: real, naming: Naming)
    requires Priced(bars)
    ensures AdviceProblem(
              AdviceFrom(FindingsOf(bars, input, symbol, horizon, now), input, symbol, horizon, now, volatility,
                         naming), input).None?
  {
  }

  ghost predicate BuiltFor(
    a: Advice, bars: Symbol -> seq<HourBar>, input: InputSnapshot, now: Time, volatility: real, naming: Naming) {
    && a.horizon in HORIZONS && Priced(bars(a.symbol)) && AscendingHours(bars(a.symbol))
    && a == AdviceFrom(FindingsOf(bars(a.symbol), input, a.symbol, a.horizon, now), input, a.symbol, a.horizon, now,
                       volatility, naming)
  }

  /** A result whose advice was built from a stored input with matching commits is accepted at
      every later check, and every item of it is valid. */
  lemma BuiltResultAccepted(
    result: AnalysisResult, bars: Symbol -> seq<HourBar>, input: InputSnapshot, now: Time, volatility: real,
    naming: Naming,
    name: Id, inputs: map<Id, Aged<InputSnapshot>>, checked: Time)
    requires input.Valid() && input.generatedAt <= now <= result.generatedAt <= checked + CLOCK_ALLOWANCE
             && volatility >= 0.0
    requires result.inputId == input.id && result.workerCommit == input.producerCommit && !result.schema.V1?
    requires forall i :: 0 <= i < |result.advice| ==> BuiltFor(result.advice[i], bars, input, now, volatility, naming)
    requires name == result.id && input.id in inputs && inputs[input.id].value == input
    ensures FileProblem(name, Verified(result), inputs, checked).None?
    ensures forall i :: 0 <= i < |result.advice| ==> result.ValidAdvice(result.advice[i])
  {
    forall i | 0 <= i < |result.advice|
      ensures AdviceProblem(result.advice[i], input).None? && result.ValidAdvice(result.advice[i])
    {
      var a := result.advice[i];
      assert BuiltFor(a, bars, input, now, volatility, naming);
      BuiltAdvicePasses(bars(a.symbol), input, a.symbol, a.horizon, now, volatility, naming);
      BuiltAdviceValidIff(bars(a.symbol), input, a.symbol, a.horizon, now, volatility, naming);
    }
  }

  // ----- cost and action

  function Rank(action: Action): int {
    match action case ReviewEntry => 0 case KeepBaseline => 1 case Defer => 2 case NoView => 3
  }

  /** The decision on one sample at a given cost, when nothing is missing. */
  function ActionAt(selected: seq<Outcome>, tail: seq<Outcome>, cost: real, evidence: bool): Action
    requires selected != [] && tail != []
  {
    var d := Assemble(|selected|, selected, tail, Some(cost));
    Choose(d.net.value.mean, d.tailNetMean.value, GetOr(d.doubleCostMean, 0.0), evidence).0
  }

  /** Raising the cost only moves the action from reviewing an entry to the baseline to deferring. */
  lemma RaisingCostOnlyDefers(selected: seq<Outcome>, tail: seq<Outcome>, low: real, high: real, evidence: bool)
    requires selected != [] && tail != [] && low <= high
    ensures Rank(ActionAt(selected, tail, low, evidence)) <= Rank(ActionAt(selected, tail, high, evidence)) <= 2
  {
  }

  // ----- what built advice says, said of the bars, the input and the clock

  ghost predicate Trusted(cost: Cost) {
    cost.trustedForPaper || cost.current.Some?
  }

  /** The reason stands against any view. */
  ghost predicate Stands(code: ReasonCode, a: Advice, bars: seq<HourBar>, now: Time) {
    match code
    case CurrentMarketMissing => a.marketAsof.None?
    case HistoryCurrentMismatch =>
      a.marketAsof.Some? && (bars == [] || bars[|bars| - 1].ts + HOUR != a.marketAsof.value)
    case CurrentMarketStale => a.entryAt.Some? && now >= a.entryAt.value
    case ContextWindowIncomplete => a.context.Unavailable?
    case CostMissing => a.cost.roundtripBps.None?
    case CurrentCostExpiredOrUnavailable =>
      a.cost.current.Some? && (a.cost.current.value.validUntil.None? || now >= a.cost.current.value.validUntil.value)
    case CostStaleOrUndated =>
      a.cost.current.None? && (a.cost.asOf.None? || now - a.cost.asOf.value > 48 * HOUR)
    case CostTimestampFuture => a.cost.asOf.Some? && a.cost.asOf.value > now
    case HistoricalSampleInsufficient => a.distribution.nonOverlapping < 40
    case RecentDiagnosticSampleInsufficient => a.distribution.tailSamples < 12
    case _ => false
  }

  ghost predicate Blocked(a: Advice, bars: seq<HourBar>, now: Time) {
    exists code :: Stands(code, a, bars, now)
  }

  /** Both the sample and its tail lose at this cost. */
  ghost predicate Drags(d: Distribution) {
    d.net.Some? && d.tailNetMean.Some? && d.net.value.mean <= 0.0 && d.tailNetMean.value <= 0.0
  }

  /** Both gain, and the sample gains at twice the cost. */
  ghost predicate Gains(d: Distribution) {
    && d.net.Some? && d.tailNetMean.Some? && d.doubleCostMean.Some?
    && d.net.value.mean > 0.0 && d.tailNetMean.value > 0.0 && d.doubleCostMean.value > 0.0
  }

  ghost predicate ActsBySigns(a: Advice, bars: seq<HourBar>, now: Time) {
    && (a.action.NoView? <==> Blocked(a, bars, now))
    && (a.action.Defer? <==> !Blocked(a, bars, now) && Drags(a.distribution))
    && (a.action.ReviewEntry? <==> !Blocked(a, bars, now) && Gains(a.distribution) && Trusted(a.cost))
  }

  ghost predicate Noted(code: ReasonCode, a: Advice, bars: seq<HourBar>, now: Time) {
    match code
    case HistoricalCostDrag => a.action.Defer?
    case PositiveHistoricalReference => a.action.ReviewEntry?
    case CostRequiresCalibration => a.action.KeepBaseline? && Gains(a.distribution)
    case HistoricalReferenceMixed => a.action.KeepBaseline? && !Gains(a.distribution)
    case CostNotPaperTrusted => !a.cost.trustedForPaper
    case CurrentCostIsEstimate => a.cost.current.Some?
    case ForwardValueNotEstablished => true
    case _ => Stands(code, a, bars, now)
  }

  ghost function Place(code: ReasonCode): nat {
    match code
    case CurrentMarketMissing => 0 case HistoryCurrentMismatch => 1 case CurrentMarketStale => 2
    case ContextWindowIncomplete => 3 case CostMissing => 4 case CurrentCostExpiredOrUnavailable => 5
    case CostStaleOrUndated => 6 case CostTimestampFuture => 7 case HistoricalSampleInsufficient => 8
    case RecentDiagnosticSampleInsufficient => 9 case HistoricalCostDrag => 10
    case PositiveHistoricalReference => 11 case CostRequiresCalibration => 12 case HistoricalReferenceMixed => 13
    case CostNotPaperTrusted => 14 case CurrentCostIsEstimate => 15 case ForwardValueNotEstablished => 16
  }

  ghost predicate InPlaces(codes: seq<ReasonCode>) {
    forall i, j :: 0 <= i < j < |codes| ==> Place(codes[i]) < Place(codes[j])
  }

  /** Every reason that holds is listed once, in the order above. */
  ghost predicate Reasoned(a: Advice, bars: seq<HourBar>, now: Time) {
    InPlaces(a.reasons) && forall code :: code in a.reasons <==> Noted(code, a, bars, now)
  }

  /** Until the entry, if that is still ahead, and never beyond the current cost. */
  ghost predicate ExpiresInTime(a: Advice, now: Time) {
    var byEntry := if a.entryAt.Some? && now < a.entryAt.value then a.entryAt.value else now;
    if a.cost.current.Some? && a.cost.current.value.validUntil.Some? then
      var until := a.cost.current.value.validUntil.value;
      a.expiresAt == if until <= now then now else if until < byEntry then until else byEntry
    else a.expiresAt == byEntry
  }

  ghost predicate ClosedAt(price: real, a: Advice, bars: seq<HourBar>) {
    exists i :: 0 <= i < |bars| && bars[i].symbol == a.symbol && a.marketAsof == Some(bars[i].ts + HOUR)
                && bars[i].close == price
  }

  ghost predicate TimedAndPriced(a: Advice, input: InputSnapshot, now: Time) {
    && a.generatedAt == now && ClosesAt(a.marketAsof, a.symbol, input.bars) && OnTime(a)
    && a.exitAt == (if a.entryAt.Some? then Some(a.entryAt.value + a.horizon * HOUR) else None)
    && ExpiresInTime(a, now)
    && (a.lastClose.Some? <==> a.marketAsof.Some?)
    && (a.lastClose.Some? ==> ClosedAt(a.lastClose.value, a, input.bars))
    && (if NoCostFor(a.symbol, input.costs)
        then a.cost == Cost(a.symbol, None, 20.0, "missing", "none", None, false, 0, None)
        else RecordedCost(a.cost, a.symbol, input.costs))
  }

  /** The trend of the last recorded day, if that day is complete. */
  ghost predicate InContext(a: Advice, bars: seq<HourBar>, volatility: real) {
    && (if a.context.Unavailable? then
          !DayMoves(bars, TrendUp, |bars| - 1) && !DayMoves(bars, TrendDown, |bars| - 1)
        else DayMoves(bars, a.context, |bars| - 1))
    && a.volatility == if a.context.Unavailable? then None else Some(volatility)
  }

  ghost predicate Named(a: Advice, naming: Naming) {
    && a.opportunityId == naming.opportunity(Opportunity(a.symbol, a.marketAsof, "trend-reference-1h-v2"))
    && a.experiment == "trend-reference-1h-v2" && a.strategyVersion == "context-trend-24h-v1"
    && a.id == naming.advice(a.(id := 0))
  }

  ghost predicate Eligible(a: Advice) {
    && (a.eligibility.researchEvaluable <==> !a.action.NoView? && Trusted(a.cost))
    && (a.eligibility.costCalibrated <==>
          a.cost.current.None? && a.cost.quality == "calibrated" && a.cost.actualSampleCount > 0)
  }

  ghost predicate Advises(
    a: Advice, bars: seq<HourBar>, input: InputSnapshot, symbol: Symbol, horizon: nat, now: Time,
    volatility: real, naming: Naming)
  {
    && a.symbol == symbol && a.horizon == horizon && a.inputId == input.id && Named(a, naming)
    && TimedAndPriced(a, input, now) && InContext(a, bars, volatility)
    && Describes(bars, horizon, a.context, a.cost.roundtripBps, a.distribution)
    && ActsBySigns(a, bars, now) && Reasoned(a, bars, now) && Eligible(a)
  }

  ghost predicate Within(codes: seq<ReasonCode>, from: nat, to: nat) {
    InPlaces(codes) && forall i :: 0 <= i < |codes| ==> from <= Place(codes[i]) < to
  }

  lemma WithinConcat(a: seq<ReasonCode>, b: seq<ReasonCode>, from: nat, mid: nat, to: nat)
    requires Within(a, from, mid) && Within(b, mid, to) && from <= mid <= to
    ensures Within(a + b, from, to)
    ensures forall code :: code in a + b <==> code in a || code in b
  {
  }

  /** The reasons noted up to a place are those, in order, that are said to hold. */
  ghost predicate Lists(codes: seq<ReasonCode>, holds: ReasonCode -> bool, to: nat) {
    Within(codes, 0, to) && forall code :: code in codes <==> holds(code) && Place(code) < to
  }

  lemma ListsOn(codes: seq<ReasonCode>, holds: ReasonCode -> bool, code: ReasonCode)
    requires Lists(codes, holds, Place(code))
    ensures Lists(codes + When(holds(code), code), holds, Place(code) + 1)
  {
    var next := When(holds(code), code);
    WithinConcat(codes, next, 0, Place(code), Place(code) + 1);
    forall other ensures other in codes + next <==> holds(other) && Place(other) < Place(code) + 1 {
      assert Place(other) == Place(code) ==> other == code;
    }
  }

  lemma ListsPast(codes: seq<ReasonCode>, holds: ReasonCode -> bool, code: ReasonCode)
    requires Lists(codes, holds, Place(code)) && !holds(code)
    ensures Lists(codes, holds, Place(code) + 1)
  {
    ListsOn(codes, holds, code);
    assert codes + [] == codes;
  }

  /** The advice carries what these findings say. */
  ghost predicate Carries(a: Advice, f: Findings) {
    && a.marketAsof == MarketAsof(f.latest) && a.entryAt == Plus(a.marketAsof, HOUR)
    && (a.context.Unavailable? <==> f.context.None?) && a.cost == f.cost && a.distribution == f.distribution
  }

  /** What stands, reason by reason. */
  ghost predicate MarketHolds(
    holds: ReasonCode -> bool, bars: seq<HourBar>, latest: Option<HourBar>, context: Option<(Trend, real)>, now: Time)
  {
    && holds(CurrentMarketMissing) == latest.None?
    && holds(HistoryCurrentMismatch) == (latest.Some? && (bars == [] || bars[|bars| - 1].ts != latest.value.ts))
    && holds(CurrentMarketStale) == (latest.Some? && now >= latest.value.ts + 2 * HOUR)
    && holds(ContextWindowIncomplete) == context.None?
  }

  ghost predicate CostHolds(holds: ReasonCode -> bool, cost: Cost, now: Time) {
    && holds(CostMissing) == cost.roundtripBps.None?
    && holds(CurrentCostExpiredOrUnavailable)
       == (cost.IsCurrent() && (CurrentExpiry(cost).None? || now >= CurrentExpiry(cost).value))
    && holds(CostStaleOrUndated) == (!cost.IsCurrent() && (cost.asOf.None? || now - cost.asOf.value > 2 * DAY))
    && holds(CostTimestampFuture) == (cost.asOf.Some? && cost.asOf.value > now)
  }

  ghost predicate SamplesHold(holds: ReasonCode -> bool, d: Distribution) {
    && holds(HistoricalSampleInsufficient) == (d.nonOverlapping < MIN_SAMPLES)
    && holds(RecentDiagnosticSampleInsufficient) == (d.tailSamples < MIN_TAIL_SAMPLES)
  }

  lemma MarketReason(holds: ReasonCode -> bool, none: bool, mismatch: bool)
    requires holds(CurrentMarketMissing) == none && holds(HistoryCurrentMismatch) == (!none && mismatch)
    ensures Lists(When(none || mismatch, if none then CurrentMarketMissing else HistoryCurrentMismatch), holds, 2)
  {
    forall code | Place(code) < 2 ensures code == CurrentMarketMissing || code == HistoryCurrentMismatch {
    }
  }

  lemma MarketReasonsListed(codes: seq<ReasonCode>, holds: ReasonCode -> bool)
    requires Lists(codes, holds, 2)
    ensures Lists(codes + When(holds(CurrentMarketStale), CurrentMarketStale)
                  + When(holds(ContextWindowIncomplete), ContextWindowIncomplete), holds, 4)
  {
    ListsOn(codes, holds, CurrentMarketStale);
    ListsOn(codes + When(holds(CurrentMarketStale), CurrentMarketStale), holds, ContextWindowIncomplete);
  }

  lemma MarketListed(
    holds: ReasonCode -> bool, bars: seq<HourBar>, latest: Option<HourBar>, context: Option<(Trend, real)>, now: Time)
    requires MarketHolds(holds, bars, latest, context, now)
    ensures Lists(MarketReasons(bars, latest, context, now), holds, 4)
  {
    var mismatch := bars == [] || (latest.Some? && bars[|bars| - 1].ts != latest.value.ts);
    MarketReason(holds, latest.None?, mismatch);
    MarketReasonsListed(When(latest.None? || mismatch, if latest.None? then CurrentMarketMissing
                                                       else HistoryCurrentMismatch), holds);
  }

  lemma DatedListed(codes: seq<ReasonCode>, holds: ReasonCode -> bool, current: bool, expired: bool, stale: bool)
    requires Lists(codes, holds, 5)
    requires holds(CurrentCostExpiredOrUnavailable) == (current && expired)
    requires holds(CostStaleOrUndated) == (!current && stale)
    ensures Lists(codes + (if current then When(expired, CurrentCostExpiredOrUnavailable)
                           else When(stale, CostStaleOrUndated)), holds, 7)
  {
    if current {
      ListsOn(codes, holds, CurrentCostExpiredOrUnavailable);
      ListsPast(codes + When(expired, CurrentCostExpiredOrUnavailable), holds, CostStaleOrUndated);
    } else {
      ListsPast(codes, holds, CurrentCostExpiredOrUnavailable);
      ListsOn(codes, holds, CostStaleOrUndated);
    }
  }

  lemma Appended(codes: seq<ReasonCode>, a: seq<ReasonCode>, b: seq<ReasonCode>, c: seq<ReasonCode>)
    ensures codes + (a + b + c) == codes + a + b + c
  {
  }

  lemma CostReasonsListed(codes: seq<ReasonCode>, holds: ReasonCode -> bool, current: bool, expired: bool, stale: bool)
    requires Lists(codes, holds, 4)
    requires holds(CurrentCostExpiredOrUnavailable) == (current && expired)
    requires holds(CostStaleOrUndated) == (!current && stale)
    ensures Lists(codes + (When(holds(CostMissing), CostMissing)
                           + (if current then When(expired, CurrentCostExpiredOrUnavailable)
                              else When(stale, CostStaleOrUndated))
                           + When(holds(CostTimestampFuture), CostTimestampFuture)), holds, 8)
  {
    var priced := When(holds(CostMissing), CostMissing);
    var dated := if current then When(expired, CurrentCostExpiredOrUnavailable) else When(stale, CostStaleOrUndated);
    ListsOn(codes, holds, CostMissing);
    DatedListed(codes + priced, holds, current, expired, stale);
    ListsOn(codes + priced + dated, holds, CostTimestampFuture);
    Appended(codes, priced, dated, When(holds(CostTimestampFuture), CostTimestampFuture));
  }

  lemma CostListed(codes: seq<ReasonCode>, holds: ReasonCode -> bool, cost: Cost, now: Time)
    requires Lists(codes, holds, 4) && CostHolds(holds, cost, now)
    ensures Lists(codes + CostReasons(cost, now), holds, 8)
  {
    CostReasonsListed(codes, holds, cost.IsCurrent(), CurrentExpiry(cost).None? || now >= CurrentExpiry(cost).value,
                      cost.asOf.None? || now - cost.asOf.value > 2 * DAY);
  }

  lemma SamplesListed(codes: seq<ReasonCode>, holds: ReasonCode -> bool, d: Distribution)
    requires Lists(codes, holds, 8) && SamplesHold(holds, d)
    ensures Lists(codes + SampleReasons(d), holds, 10)
  {
    var samples := When(holds(HistoricalSampleInsufficient), HistoricalSampleInsufficient);
    var tail := When(holds(RecentDiagnosticSampleInsufficient), RecentDiagnosticSampleInsufficient);
    ListsOn(codes, holds, HistoricalSampleInsufficient);
    ListsOn(codes + samples, holds, RecentDiagnosticSampleInsufficient);
    assert codes + samples + tail == codes + (samples + tail);
  }

  lemma StandsAs(a: Advice, f: Findings, bars: seq<HourBar>, now: Time)
    requires Carries(a, f)
    ensures var holds: ReasonCode -> bool := code => Stands(code, a, bars, now);
            && MarketHolds(holds, bars, f.latest, f.context, now)
            && CostHolds(holds, f.cost, now) && SamplesHold(holds, f.distribution)
  {
  }

  lemma StandsFirst(code: ReasonCode, a: Advice, bars: seq<HourBar>, now: Time)
    ensures Stands(code, a, bars, now) ==> Place(code) < 10
  {
  }

  lemma MissingStand(a: Advice, f: Findings, bars: seq<HourBar>, now: Time)
    requires Carries(a, f) && f.missing == MissingReasons(bars, f.latest, f.context, f.cost, f.distribution, now)
    ensures Within(f.missing, 0, 10)
    ensures forall code :: code in f.missing <==> Stands(code, a, bars, now)
  {
    var holds: ReasonCode -> bool := code => Stands(code, a, bars, now);
    StandsAs(a, f, bars, now);
    MarketListed(holds, bars, f.latest, f.context, now);
    CostListed(MarketReasons(bars, f.latest, f.context, now), holds, f.cost, now);
    SamplesListed(MarketReasons(bars, f.latest, f.context, now) + CostReasons(f.cost, now), holds, f.distribution);
    forall code ensures code in f.missing <==> Stands(code, a, bars, now) {
      StandsFirst(code, a, bars, now);
    }
  }

  /** Built advice: what the builder found, and the action and reasons it came to. */
  ghost predicate Decided(a: Advice, f: Findings) {
    && Carries(a, f) && a.action == Decide(f).0
    && a.reasons == Decide(f).1 + When(!f.cost.trustedForPaper, CostNotPaperTrusted)
                    + When(f.cost.IsCurrent(), CurrentCostIsEstimate) + [ForwardValueNotEstablished]
  }

  ghost predicate Complete(f: Findings) {
    f.missing == [] ==>
      f.distribution.net.Some? && f.distribution.tailNetMean.Some? && f.distribution.doubleCostMean.Some?
  }

  lemma BlockedIff(a: Advice, f: Findings, bars: seq<HourBar>, now: Time)
    requires Carries(a, f) && f.missing == MissingReasons(bars, f.latest, f.context, f.cost, f.distribution, now)
    ensures Blocked(a, bars, now) <==> f.missing != []
  {
    MissingStand(a, f, bars, now);
    if f.missing != [] {
      assert f.missing[0] in f.missing;
      assert Stands(f.missing[0], a, bars, now);
    }
  }

  lemma DecidedBySigns(a: Advice, f: Findings, bars: seq<HourBar>, now: Time)
    requires Decided(a, f) && Complete(f) && (Blocked(a, bars, now) <==> f.missing != [])
    ensures ActsBySigns(a, bars, now)
  {
  }

  lemma DecidedReasons(a: Advice, f: Findings, bars: seq<HourBar>, now: Time)
    requires Decided(a, f) && Complete(f) && (Blocked(a, bars, now) <==> f.missing != [])
    requires Within(f.missing, 0, 10) && forall code :: code in f.missing <==> Stands(code, a, bars, now)
    ensures Lists(Decide(f).1, code => Noted(code, a, bars, now), 14)
  {
    var reasons := Decide(f).1;
    forall code ensures code in reasons <==> Noted(code, a, bars, now) && Place(code) < 14 {
      StandsFirst(code, a, bars, now);
    }
  }

  lemma StandingReasons(codes: seq<ReasonCode>, holds: ReasonCode -> bool)
    requires Lists(codes, holds, 14) && holds(ForwardValueNotEstablished)
    ensures Lists(codes + When(holds(CostNotPaperTrusted), CostNotPaperTrusted)
                  + When(holds(CurrentCostIsEstimate), CurrentCostIsEstimate) + [ForwardValueNotEstablished], holds, 17)
  {
    var trusted := codes + When(holds(CostNotPaperTrusted), CostNotPaperTrusted);
    ListsOn(codes, holds, CostNotPaperTrusted);
    ListsOn(trusted, holds, CurrentCostIsEstimate);
    ListsOn(trusted + When(holds(CurrentCostIsEstimate), CurrentCostIsEstimate), holds, ForwardValueNotEstablished);
  }

  lemma AllListed(codes: seq<ReasonCode>, holds: ReasonCode -> bool)
    requires Lists(codes, holds, 17)
    ensures InPlaces(codes) && forall code :: code in codes <==> holds(code)
  {
    forall code ensures Place(code) < 17 {
    }
  }

  lemma AllReasoned(a: Advice, decided: seq<ReasonCode>, bars: seq<HourBar>, now: Time)
    requires a.reasons == decided + When(!a.cost.trustedForPaper, CostNotPaperTrusted)
                          + When(a.cost.current.Some?, CurrentCostIsEstimate) + [ForwardValueNotEstablished]
    requires Lists(decided, code => Noted(code, a, bars, now), 14)
    ensures Reasoned(a, bars, now)
  {
    var holds: ReasonCode -> bool := code => Noted(code, a, bars, now);
    assert holds(CostNotPaperTrusted) == !a.cost.trustedForPaper
      && holds(CurrentCostIsEstimate) == a.cost.current.Some?;
    StandingReasons(decided, holds);
    AllListed(a.reasons, holds);
  }

  lemma DecidedActs(a: Advice, f: Findings, bars: seq<HourBar>, now: Time)
    requires Decided(a, f) && Complete(f)
    requires f.missing == MissingReasons(bars, f.latest, f.context, f.cost, f.distribution, now)
    ensures ActsBySigns(a, bars, now) && Reasoned(a, bars, now)
  {
    MissingStand(a, f, bars, now);
    BlockedIff(a, f, bars, now);
    DecidedBySigns(a, f, bars, now);
    DecidedReasons(a, f, bars, now);
    AllReasoned(a, Decide(f).1, bars, now);
  }

  lemma BuiltDecided(
    bars: seq<HourBar>, input: InputSnapshot, symbol: Symbol, horizon: nat, now: Time, volatility: real, naming: Naming)
    requires Priced(bars)
    ensures var f := FindingsOf(bars, input, symbol, horizon, now);
            var a := AdviceFrom(f, input, symbol, horizon, now, volatility, naming);
            Decided(a, f) && Complete(f) && InContext(a, bars, volatility)
  {
    var f := FindingsOf(bars, input, symbol, horizon, now);
    if bars != [] {
      ContextIff(bars, TrendUp, |bars| - 1);
      ContextIff(bars, TrendDown, |bars| - 1);
    }
    if f.missing == [] {
      NothingMissing(bars, input, symbol, horizon, now);
    }
  }

  lemma BuiltTimes(
    f: Findings, input: InputSnapshot, symbol: Symbol, horizon: nat, now: Time, volatility: real, naming: Naming)
    requires f.latest == LatestBar(input.bars, symbol) && f.cost == CostFor(input, symbol)
    ensures TimedAndPriced(AdviceFrom(f, input, symbol, horizon, now, volatility, naming), input, now)
  {
    FirstCost(input.costs, symbol, f.cost);
    if f.latest.Some? {
      var i :| 0 <= i < |input.bars| && input.bars[i] == f.latest.value;
    }
  }

  lemma BuiltNamed(
    f: Findings, input: InputSnapshot, symbol: Symbol, horizon: nat, now: Time, volatility: real, naming: Naming)
    requires Complete(f)
    ensures var a := AdviceFrom(f, input, symbol, horizon, now, volatility, naming);
            a.symbol == symbol && a.horizon == horizon && a.inputId == input.id && Named(a, naming) && Eligible(a)
  {
  }

  /** Built advice is what the bars, the input and the clock make it. */
  lemma BuiltAdvises(
    bars: seq<HourBar>, input: InputSnapshot, symbol: Symbol, horizon: nat, now: Time, volatility: real, naming: Naming)
    requires Priced(bars)
    ensures Advises(AdviceFrom(FindingsOf(bars, input, symbol, horizon, now), input, symbol, horizon, now, volatility,
                               naming),
                    bars, input, symbol, horizon, now, volatility, naming)
  {
    var f := FindingsOf(bars, input, symbol, horizon, now);
    var a := AdviceFrom(f, input, symbol, horizon, now, volatility, naming);
    BuiltDecided(bars, input, symbol, horizon, now, volatility, naming);
    BuiltTimes(f, input, symbol, horizon, now, volatility, naming);
    BuiltNamed(f, input, symbol, horizon, now, volatility, naming);
    DecidedActs(a, f, bars, now);
    assert Describes(bars, horizon, a.context, a.cost.roundtripBps, a.distribution) by {
      DescribeMeans(bars, horizon, a.context, a.cost.roundtripBps);
    }
  }

  // ----- the builder itself

  lemma PreparedAscends(history: seq<HourBar>, bars: seq<HourBar>, symbol: Symbol, now: Time)
    requires IsPrepared(history, bars, now) && forall b :: b in bars ==> b.symbol == symbol && b.Valid()
    ensures Priced(history) && AscendingHours(history)
  {
    forall i, j | 0 <= i < j < |history| ensures history[i].ts < history[j].ts {
      assert BarBefore(history[i], history[j]) && history[i] in bars && history[j] in bars;
    }
    forall i | 0 <= i < |history| ensures history[i].Valid() {
      assert history[i] in bars;
    }
  }

  function OfSymbol(history: seq<HourBar>, symbol: Symbol): (own: seq<HourBar>)
    ensures forall b :: b in own <==> b in history && b.symbol == symbol
  {
    if history == [] then []
    else (if history[0].symbol == symbol then [history[0]] else []) + OfSymbol(history[1..], symbol)
  }

  /** The advice is what the definitions above make of the prepared history. */
  ghost predicate BuiltFrom(
    advice: Advice, own: seq<HourBar>, input: InputSnapshot, symbol: Symbol, horizon: nat, now: Time,
    volatility: real, naming: Naming)
  {
    exists bars :: IsPrepared(bars, own, now) && IsBuilt(advice, bars, input, symbol, horizon, now, volatility, naming)
  }

  ghost predicate IsBuilt(
    advice: Advice, bars: seq<HourBar>, input: InputSnapshot, symbol: Symbol, horizon: nat, now: Time,
    volatility: real, naming: Naming)
  {
    && Priced(bars) && AscendingHours(bars)
    && advice == AdviceFrom(FindingsOf(bars, input, symbol, horizon, now), input, symbol, horizon, now, volatility,
                            naming)
  }

  lemma IsBuiltPasses(
    advice: Advice, bars: seq<HourBar>, input: InputSnapshot, symbol: Symbol, horizon: nat, now: Time,
    volatility: real, naming: Naming)
    requires IsBuilt(advice, bars, input, symbol, horizon, now, volatility, naming)
    requires input.Valid() && input.generatedAt <= now && horizon in HORIZONS && volatility >= 0.0
    ensures advice.Valid() && AdviceProblem(advice, input).None?
  {
    BuiltAdviceValidIff(bars, input, symbol, horizon, now, volatility, naming);
    BuiltAdvicePasses(bars, input, symbol, horizon, now, volatility, naming);
  }

  method Assess(
    bars: seq<HourBar>, input: InputSnapshot, symbol: Symbol, horizon: nat, now: Time, volatility: real, naming: Naming)
    returns (advice: Advice)
    requires Priced(bars) && AscendingHours(bars)
    ensures IsBuilt(advice, bars, input, symbol, horizon, now, volatility, naming)
  {
    var latest := LatestBar(input.bars, symbol);
    var cost := CostFor(input, symbol);
    var context := if bars == [] then None else ContextAt(bars, |bars| - 1);
    var distribution := DescribeHistory(
      bars, horizon, if context.Some? then context.value.0 else Unavailable, cost.roundtripBps);
    var missing := MissingReasons(bars, latest, context, cost, distribution, now);
    advice := AdviceFrom(Findings(latest, cost, context, distribution, missing),
                         input, symbol, horizon, now, volatility, naming);
  }

  /** Raises (no result) exactly when the symbol's available bars conflict; otherwise the advice it
      returns is valid and passes the cloud node's check. */
  method BuildAdvice(
    history: seq<HourBar>, input: InputSnapshot, symbol: Symbol, horizon: nat, now: Time, volatility: real,
    naming: Naming)
    returns (advice: Option<Advice>)
    requires input.Valid() && input.generatedAt <= now && horizon in HORIZONS && volatility >= 0.0
    requires forall b :: b in history ==> b.Valid()
    ensures advice.None? <==> Conflict(OfSymbol(history, symbol), now)
    ensures advice.Some? ==> advice.value.Valid() && AdviceProblem(advice.value, input).None?
    ensures advice.Some? ==>
              BuiltFrom(advice.value, OfSymbol(history, symbol), input, symbol, horizon, now, volatility, naming)
    ensures advice.Some? ==>
              exists bars :: IsPrepared(bars, OfSymbol(history, symbol), now)
                             && Advises(advice.value, bars, input, symbol, horizon, now, volatility, naming)
  {
    var own := OfSymbol(history, symbol);
    var prepared := PrepareHistory(own, now);
    if prepared.None? {
      return None;
    }
    var bars := prepared.value;
    PreparedAscends(bars, own, symbol, now);
    var built := Assess(bars, input, symbol, horizon, now, volatility, naming);
    IsBuiltPasses(built, bars, input, symbol, horizon, now, volatility, naming);
    BuiltAdvises(bars, input, symbol, horizon, now, volatility, naming);
    return Some(built);
  }
}
