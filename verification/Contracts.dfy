/** The signed artifacts that the cloud node and the NAS worker exchange, and the
    validators every one of them must pass. Instants are microseconds since the epoch,
    the resolution of the original's datetimes; prices and basis points are reals. */
module Contracts {

  type Id = nat
  type Time = int

  const SECOND: Time := 1_000_000
  const HOUR: Time := 3600 * SECOND
  const DAY: Time := 24 * HOUR

  datatype Option<T> = None | Some(value: T)

  datatype Symbol = BTCUSDT | ETHUSDT | SOLUSDT | BNBUSDT

  const SYMBOLS: seq<Symbol> := [BTCUSDT, ETHUSDT, SOLUSDT, BNBUSDT]
  const HORIZONS: seq<nat> := [4, 24]

  const EXPERIMENT_VERSION := "trend-reference-1h-v2"
  const STRATEGY_VERSION := "context-trend-24h-v1"

  datatype Action = Defer | ReviewEntry | KeepBaseline | NoView
  datatype Trend = TrendUp | TrendDown | Unavailable

  datatype HourBar = HourBar(
    symbol: Symbol, ts: Time,
    open: real, high: real, low: real, close: real, volume: real,
    ingestTs: Time)
  {
    predicate Valid() {
      && ts % HOUR == 0
      && open > 0.0 && high > 0.0 && low > 0.0 && close > 0.0 && volume >= 0.0
      && high >= open && high >= close && low <= open && low <= close && low <= high
    }

    /** The five market fields; the ingest time is not one of them. */
    predicate SameMarket(other: HourBar) {
      open == other.open && high == other.high && low == other.low && close == other.close && volume == other.volume
    }

    predicate Available(now: Time) {
      ts + HOUR <= now && ingestTs <= now
    }
  }

  datatype FeeRate = FeeRate(symbol: Symbol, groupId: string, takerBps: real, fetchedAt: Time)

  datatype SizeStatus = SizeEstimated | InsufficientDepth | BelowMinimumSize

  datatype SizeCost = SizeCost(
    notional: real, status: SizeStatus, baseQuantity: real,
    buyBps: Option<real>, sellBps: Option<real>, bookBps: Option<real>,
    feeBps: real, uncertaintyBps: real, roundtripBps: Option<real>)
  {
    predicate NonNegative(x: Option<real>) {
      x.Some? ==> x.value >= 0.0
    }

    predicate Valid() {
      && 0.0 < notional <= 100_000.0 && baseQuantity > 0.0
      && NonNegative(buyBps) && NonNegative(sellBps) && NonNegative(bookBps) && NonNegative(roundtripBps)
      && feeBps >= 0.0 && uncertaintyBps >= 0.0
      && (roundtripBps.Some? ==> roundtripBps.value <= 10_000.0)
      && (if status.SizeEstimated? then
            && buyBps.Some? && sellBps.Some? && bookBps.Some? && roundtripBps.Some?
            && bookBps.value == buyBps.value + sellBps.value
            && roundtripBps.value == bookBps.value + feeBps + uncertaintyBps
          else roundtripBps.None?)
    }
  }

  /** The detail of an estimate from the current order book and account fee. */
  datatype CurrentDetail = CurrentDetail(
    estimated: bool, fee: Option<FeeRate>, bookAsOf: Option<Time>,
    validUntil: Option<Time>, sizes: seq<SizeCost>)

  const BOOK_LIFETIME: Time := 15 * 60 * SECOND
  const FEE_MAX_AGE: Time := 24 * HOUR

  function Min(a: int, b: int): int {
    if a <= b then a else b
  }

  function Max(a: int, b: int): int {
    if a >= b then a else b
  }

  /** A cost observation. `current` is present exactly on a CurrentCostObservation. */
  datatype Cost = Cost(
    symbol: Symbol, roundtripBps: Option<real>, notional: real,
    quality: string, version: string, asOf: Option<Time>,
    trustedForPaper: bool, actualSampleCount: nat, current: Option<CurrentDetail>)
  {
    predicate IsCurrent() {
      current.Some?
    }

    predicate Valid() {
      && (roundtripBps.Some? ==> 0.0 <= roundtripBps.value <= 10_000.0)
      && 0.0 < notional <= 100_000.0
      && (current.Some? ==> ConsistentEstimate(current.value))
    }

    predicate ConsistentEstimate(detail: CurrentDetail) {
      && !trustedForPaper && actualSampleCount == 0
      && |detail.sizes| <= 4
      && (forall i, j :: 0 <= i < j < |detail.sizes| ==> detail.sizes[i].notional != detail.sizes[j].notional)
      && (forall i :: 0 <= i < |detail.sizes| ==> detail.sizes[i].Valid())
      && (if detail.estimated then
            && detail.fee.Some? && detail.validUntil.Some? && detail.bookAsOf.Some? && roundtripBps.Some?
            && (exists i :: 0 <= i < |detail.sizes| && detail.sizes[i].notional == notional
                            && detail.sizes[i].status.SizeEstimated? && detail.sizes[i].roundtripBps == roundtripBps)
            && detail.fee.value.symbol == symbol
            && asOf == detail.bookAsOf
            && asOf.value < detail.validUntil.value
               <= Min(asOf.value + BOOK_LIFETIME, detail.fee.value.fetchedAt + FEE_MAX_AGE)
          else roundtripBps.None?)
    }
  }

  datatype InputSnapshot = InputSnapshot(
    id: Id, generatedAt: Time, producerCommit: string,
    bars: seq<HourBar>, costs: seq<Cost>, warnings: seq<string>)
  {
    predicate Valid() {
      && (forall i, j :: 0 <= i < j < |bars| ==> !(bars[i].symbol == bars[j].symbol && bars[i].ts == bars[j].ts))
      && (forall i, j :: 0 <= i < j < |costs| ==> costs[i].symbol != costs[j].symbol)
      && (forall i :: 0 <= i < |bars| ==> bars[i].Valid() && bars[i].Available(generatedAt))
      && (forall i :: 0 <= i < |costs| ==> costs[i].Valid())
    }
  }

  /** Mean and quantiles of one series of outcomes; all present or all absent together. */
  datatype Quantiles = Quantiles(mean: real, p10: real, p50: real, p90: real)

  datatype Distribution = Distribution(
    samples: nat, nonOverlapping: nat,
    gross: Option<Quantiles>, net: Option<Quantiles>,
    doubleCostMean: Option<real>, positiveFraction: Option<real>,
    tailSamples: nat, tailNetMean: Option<real>)
  {
    predicate Ordered(q: Option<Quantiles>) {
      q.Some? ==> q.value.p10 <= q.value.p50 <= q.value.p90
    }

    predicate Valid() {
      && tailSamples <= nonOverlapping <= samples
      && Ordered(gross) && Ordered(net)
      && (positiveFraction.Some? ==> 0.0 <= positiveFraction.value <= 1.0)
      && (nonOverlapping == 0 ==> gross.None?)
    }
  }

  datatype Eligibility = Eligibility(researchEvaluable: bool, costCalibrated: bool)

  /** The reason codes of an advice, in the order the builder notes them. */
  datatype ReasonCode =
    | CurrentMarketMissing | HistoryCurrentMismatch | CurrentMarketStale | ContextWindowIncomplete | CostMissing
    | CurrentCostExpiredOrUnavailable | CostStaleOrUndated | CostTimestampFuture
    | HistoricalSampleInsufficient | RecentDiagnosticSampleInsufficient
    | HistoricalCostDrag | PositiveHistoricalReference | CostRequiresCalibration | HistoricalReferenceMixed
    | CostNotPaperTrusted | CurrentCostIsEstimate | ForwardValueNotEstablished

  /** The payload whose hash names an opportunity. */
  datatype Opportunity = Opportunity(symbol: Symbol, marketAsof: Option<Time>, experiment: string)

  datatype Advice = Advice(
    id: Id, opportunityId: Id, symbol: Symbol, horizon: nat,
    generatedAt: Time, marketAsof: Option<Time>, expiresAt: Time,
    entryAt: Option<Time>, exitAt: Option<Time>,
    action: Action, reasons: seq<ReasonCode>, context: Trend,
    lastClose: Option<real>, volatility: Option<real>,
    cost: Cost, distribution: Distribution, inputId: Id,
    experiment: string, strategyVersion: string, eligibility: Eligibility)
  {
    /** The first contract: field ranges and `coherent_times`. */
    predicate Coherent() {
      && horizon in HORIZONS
      && 1 <= |reasons| <= 30
      && (lastClose.Some? ==> lastClose.value > 0.0)
      && (volatility.Some? ==> volatility.value >= 0.0)
      && cost.Valid() && distribution.Valid()
      && generatedAt <= expiresAt <= generatedAt + HOUR
      && (marketAsof.Some? ==> marketAsof.value <= generatedAt)
      && (entryAt.Some? ==>
            && exitAt == Some(entryAt.value + horizon * HOUR)
            && (!action.NoView? ==> generatedAt < entryAt.value && expiresAt <= entryAt.value))
      && (cost.roundtripBps.Some? && distribution.gross.Some? ==>
            && distribution.net.Some?
            && var g, n, c := distribution.gross.value, distribution.net.value, cost.roundtripBps.value;
               n == Quantiles(g.mean - c, g.p10 - c, g.p50 - c, g.p90 - c))
    }

    predicate Calibrated() {
      !cost.IsCurrent() && cost.quality == "calibrated" && cost.actualSampleCount > 0
    }

    /** The second contract: `eligibility_has_evidence`. */
    predicate HasEvidence() {
      && (eligibility.costCalibrated <==> Calibrated())
      && (eligibility.researchEvaluable ==>
            && !action.NoView? && cost.roundtripBps.Some?
            && (match cost.current
                case Some(detail) =>
                  detail.estimated && detail.validUntil.Some? && detail.validUntil.value > generatedAt
                case None => cost.trustedForPaper))
      && (action.ReviewEntry? ==> eligibility.researchEvaluable)
    }

    predicate Valid() {
      Coherent() && HasEvidence()
    }
  }

  /** The result schema; v1 advice carries no eligibility evidence. */
  datatype Schema = V1 | V2 | V3

  datatype AnalysisResult = AnalysisResult(
    id: Id, schema: Schema, generatedAt: Time, inputId: Id, workerCommit: string, advice: seq<Advice>)
  {
    predicate ValidAdvice(a: Advice) {
      && a.Coherent() && (!schema.V1? ==> a.HasEvidence())
      && a.inputId == inputId && a.generatedAt <= generatedAt
    }

    /** `exact_scope`: eight valid items, one for each symbol and horizon, of one input. */
    predicate Valid() {
      && |advice| == 8
      && (set i | 0 <= i < |advice| :: (advice[i].symbol, advice[i].horizon))
         == (set s, h | s in SYMBOLS && h in HORIZONS :: (s, h))
      && (forall i :: 0 <= i < |advice| ==> ValidAdvice(advice[i]))
    }
  }

  /** The bar `max(..., key=ts)` picks for a symbol: the first of the latest ones. */
  function LatestBar(bars: seq<HourBar>, symbol: Symbol): (latest: Option<HourBar>)
    ensures latest.Some? ==> latest.value in bars && latest.value.symbol == symbol
    ensures forall b :: b in bars && b.symbol == symbol ==> latest.Some? && b.ts <= latest.value.ts
  {
    if bars == [] then None
    else
      var last, best := bars[|bars| - 1], LatestBar(bars[..|bars| - 1], symbol);
      if last.symbol == symbol && (best.None? || last.ts > best.value.ts) then Some(last) else best
  }

  /** The first cost recorded for a symbol. */
  function FindCost(costs: seq<Cost>, symbol: Symbol): (cost: Option<Cost>)
    ensures cost.Some? ==> cost.value in costs && cost.value.symbol == symbol
    ensures cost.None? <==> forall c :: c in costs ==> c.symbol != symbol
  {
    if costs == [] then None
    else if costs[0].symbol == symbol then Some(costs[0])
    else FindCost(costs[1..], symbol)
  }

  /** What stands for the cost of a symbol that the input has none for. */
  function MissingCost(symbol: Symbol, version: string): Cost {
    Cost(symbol, None, 20.0, "missing", version, None, false, 0, None)
  }

  function CostFor(input: InputSnapshot, symbol: Symbol): Cost {
    var found := FindCost(input.costs, symbol);
    if found.Some? then found.value else MissingCost(symbol, "none")
  }

  lemma CostForIsValid(input: InputSnapshot, symbol: Symbol)
    requires input.Valid()
    ensures CostFor(input, symbol).Valid()
  {
    var found := FindCost(input.costs, symbol);
    if found.Some? {
      var i :| 0 <= i < |input.costs| && input.costs[i] == found.value;
    }
  }

  /** The close of the latest bar. */
  function MarketAsof(latest: Option<HourBar>): Option<Time> {
    if latest.Some? then Some(latest.value.ts + HOUR) else None
  }

  lemma FractionInRange(part: int, whole: int)
    requires 0 <= part <= whole && whole > 0
    ensures 0.0 <= part as real / whole as real <= 1.0
  {
  }
}
