/** Valid results of eight items without a view, for the examples and for showing that a file
    with given times exists. */
module Samples {
  import opened Contracts
  import opened Acceptance

  function NoViewAdvice(
    symbol: Symbol, horizon: nat, at: Time, expires: Time, market: Option<Time>, cost: Cost, inputId: Id): Advice
  {
    var entry := if market.Some? then Some(market.value + HOUR) else None;
    Advice(0, OpportunityNumber(symbol), symbol, horizon, at, market, expires,
           entry, if entry.Some? then Some(entry.value + horizon * HOUR) else None,
           NoView, [ForwardValueNotEstablished], Unavailable, None, None, cost,
           Distribution(0, 0, None, None, None, None, 0, None), inputId, EXPERIMENT_VERSION, STRATEGY_VERSION,
           Eligibility(false, !cost.IsCurrent() && cost.quality == "calibrated" && cost.actualSampleCount > 0))
  }

  function OpportunityNumber(symbol: Symbol): Id {
    match symbol
    case BTCUSDT => 0
    case ETHUSDT => 1
    case SOLUSDT => 2
    case BNBUSDT => 3
  }

  /** One item for each symbol and horizon. */
  function Eight(item: (Symbol, nat) -> Advice): seq<Advice> {
    [item(BTCUSDT, 4), item(BTCUSDT, 24), item(ETHUSDT, 4), item(ETHUSDT, 24),
     item(SOLUSDT, 4), item(SOLUSDT, 24), item(BNBUSDT, 4), item(BNBUSDT, 24)]
  }

  ghost predicate InScope(advice: seq<Advice>) {
    (set i | 0 <= i < |advice| :: (advice[i].symbol, advice[i].horizon))
    == (set s, h | s in SYMBOLS && h in HORIZONS :: (s, h))
  }

  lemma EightInScope(advice: seq<Advice>, item: (Symbol, nat) -> Advice)
    requires advice == Eight(item)
    requires forall s, h :: h in HORIZONS ==> item(s, h).symbol == s && item(s, h).horizon == h
    ensures InScope(advice)
  {
    assert HORIZONS == [4, 24];
    forall s: Symbol, h: nat | h in HORIZONS
      ensures exists i :: 0 <= i < |advice| && (advice[i].symbol, advice[i].horizon) == (s, h)
    {
      var i := 2 * OpportunityNumber(s) + if h == 4 then 0 else 1;
      assert advice[i] == item(s, h);
    }
    forall i | 0 <= i < |advice| ensures advice[i].symbol in SYMBOLS && advice[i].horizon in HORIZONS {
      InSymbols(advice[i].symbol);
    }
  }

  lemma InSymbols(symbol: Symbol)
    ensures symbol in SYMBOLS
  {
    assert SYMBOLS[OpportunityNumber(symbol)] == symbol;
  }

  lemma NoViewCoherent(
    symbol: Symbol, horizon: nat, at: Time, expires: Time, market: Option<Time>, cost: Cost, inputId: Id)
    requires horizon in HORIZONS && cost.Valid() && at <= expires <= at + HOUR && (market.Some? ==> market.value <= at)
    ensures NoViewAdvice(symbol, horizon, at, expires, market, cost, inputId).Valid()
  {
  }

  // ----- the result of a worker that has nothing to say about an input

  function NoViewItem(input: InputSnapshot, at: Time): (Symbol, nat) -> Advice {
    (symbol: Symbol, horizon: nat) =>
      NoViewAdvice(symbol, horizon, at, at, MarketAsof(LatestBar(input.bars, symbol)), CostFor(input, symbol), input.id)
  }

  function NoViewResult(input: InputSnapshot, id: Id, at: Time): AnalysisResult {
    AnalysisResult(id, V3, at, input.id, input.producerCommit, Eight(NoViewItem(input, at)))
  }

  lemma EachItem(item: (Symbol, nat) -> Advice, good: Advice -> bool)
    requires forall s, h :: h in HORIZONS ==> good(item(s, h))
    ensures forall i :: 0 <= i < 8 ==> good(Eight(item)[i])
  {
    assert HORIZONS[0] == 4 && HORIZONS[1] == 24;
  }

  lemma MarketFits(input: InputSnapshot, symbol: Symbol, at: Time)
    requires input.Valid() && input.generatedAt <= at
    ensures MarketAsof(LatestBar(input.bars, symbol)).Some? ==> MarketAsof(LatestBar(input.bars, symbol)).value <= at
  {
    var latest := LatestBar(input.bars, symbol);
    if latest.Some? {
      var i :| 0 <= i < |input.bars| && input.bars[i] == latest.value;
    }
  }

  lemma NothingToObject(input: InputSnapshot, at: Time, symbol: Symbol, horizon: nat)
    ensures AdviceProblem(NoViewItem(input, at)(symbol, horizon), input).None?
  {
    var item := NoViewAdvice(symbol, horizon, at, at, MarketAsof(LatestBar(input.bars, symbol)),
                             CostFor(input, symbol), input.id);
    assert NoViewItem(input, at)(symbol, horizon) == item;
    assert item.symbol == symbol && item.marketAsof == MarketAsof(LatestBar(input.bars, symbol)) && item.action.NoView?;
    assert item.entryAt == if item.marketAsof.Some? then Some(item.marketAsof.value + HOUR) else None;
    assert FindCost(input.costs, symbol).Some? ==> item.cost == FindCost(input.costs, symbol).value;
    assert AdviceProblem(item, input).None?;
  }

  lemma ItemAccepted(input: InputSnapshot, at: Time, symbol: Symbol, horizon: nat)
    requires input.Valid() && input.generatedAt <= at && horizon in HORIZONS
    ensures Fine(NoViewItem(input, at)(symbol, horizon), input, at)
  {
    CostForIsValid(input, symbol);
    MarketFits(input, symbol, at);
    NoViewCoherent(symbol, horizon, at, at, MarketAsof(LatestBar(input.bars, symbol)), CostFor(input, symbol),
                   input.id);
    NothingToObject(input, at, symbol, horizon);
  }

  ghost predicate Fine(a: Advice, input: InputSnapshot, at: Time) {
    a.Valid() && AdviceProblem(a, input).None? && a.inputId == input.id && a.generatedAt == at
  }

  lemma AllItems(input: InputSnapshot, at: Time)
    requires input.Valid() && input.generatedAt <= at
    ensures forall i :: 0 <= i < 8 ==> Fine(Eight(NoViewItem(input, at))[i], input, at)
  {
    var item := NoViewItem(input, at);
    forall s: Symbol, h: nat | h in HORIZONS ensures Fine(item(s, h), input, at) {
      ItemAccepted(input, at, s, h);
    }
    EachItem(item, a => Fine(a, input, at));
  }

  lemma ItemsSuffice(result: AnalysisResult, input: InputSnapshot, now: Time)
    requires result.inputId == input.id && result.workerCommit == input.producerCommit
    requires input.generatedAt <= result.generatedAt <= now + CLOCK_ALLOWANCE
    requires |result.advice| == 8 && InScope(result.advice)
    requires forall i :: 0 <= i < |result.advice| ==> Fine(result.advice[i], input, result.generatedAt)
    ensures result.Valid() && ResultProblem(result, input, now).None?
  {
    AllFine(result, input);
    PartsSuffice(result);
  }

  /** It meets the result contract, and the cloud node has nothing to object to. */
  lemma NoViewResultAccepted(input: InputSnapshot, id: Id, at: Time, now: Time)
    requires input.Valid() && input.generatedAt <= at <= now + CLOCK_ALLOWANCE
    ensures NoViewResult(input, id, at).Valid()
    ensures ResultProblem(NoViewResult(input, id, at), input, now).None?
  {
    var result, item := NoViewResult(input, id, at), NoViewItem(input, at);
    EightInScope(result.advice, item);
    AllItems(input, at);
    ItemsSuffice(result, input, now);
  }

  ghost predicate AllValid(result: AnalysisResult) {
    forall i :: 0 <= i < |result.advice| ==> result.ValidAdvice(result.advice[i])
  }

  lemma PartsSuffice(result: AnalysisResult)
    requires |result.advice| == 8 && InScope(result.advice) && AllValid(result)
    ensures result.Valid()
  {
  }

  lemma AllFine(result: AnalysisResult, input: InputSnapshot)
    requires result.inputId == input.id
    requires forall i :: 0 <= i < |result.advice| ==> Fine(result.advice[i], input, result.generatedAt)
    ensures AllValid(result) && FirstProblem(result.advice, input).None?
  {
    forall a | a in result.advice ensures AdviceProblem(a, input).None? {
      var i :| 0 <= i < |result.advice| && result.advice[i] == a;
    }
  }
}
