/** The second check: what the cloud node demands of a result before it may be accepted. */
module Acceptance {
  import opened Contracts
  import opened Store

  const CLOCK_ALLOWANCE: Time := 5 * SECOND

  /** The first disagreement between one piece of advice and the signed input. */
  function AdviceProblem(advice: Advice, input: InputSnapshot): Option<Reason> {
    var market := LatestBar(input.bars, advice.symbol);
    var cost := FindCost(input.costs, advice.symbol);
    if advice.marketAsof != (if market.Some? then Some(market.value.ts + HOUR) else None) then Some(WrongMarket)
    else if advice.entryAt != (if advice.marketAsof.Some? then Some(advice.marketAsof.value + HOUR) else None)
    then Some(WrongDelay)
    else if cost.Some? && advice.cost != cost.value then Some(WrongCost)
    else if (market.None? || cost.None?) && !advice.action.NoView? then Some(MustBeNoView)
    else None
  }

  // ----- what the cloud node demands of an item, said of the input

  /** The latest bar of the symbol closes at `asof`, or there is none. */
  ghost predicate ClosesAt(asof: Option<Time>, symbol: Symbol, bars: seq<HourBar>) {
    match asof
    case None => forall b :: b in bars ==> b.symbol != symbol
    case Some(t) =>
      && (exists b :: b in bars && b.symbol == symbol && b.ts + HOUR == t)
      && (forall b :: b in bars && b.symbol == symbol ==> b.ts + HOUR <= t)
  }

  /** The cost is the one the input records first for the symbol. */
  ghost predicate RecordedCost(cost: Cost, symbol: Symbol, costs: seq<Cost>) {
    exists i :: RecordedAt(cost, symbol, costs, i)
  }

  ghost predicate NoCostFor(symbol: Symbol, costs: seq<Cost>) {
    forall c :: c in costs ==> c.symbol != symbol
  }

  ghost predicate OnTime(a: Advice) {
    if a.marketAsof.Some? then a.entryAt == Some(a.marketAsof.value + HOUR) else a.entryAt.None?
  }

  /** What an item must be on this input. */
  ghost predicate AgreesWith(a: Advice, input: InputSnapshot) {
    && ClosesAt(a.marketAsof, a.symbol, input.bars) && OnTime(a)
    && (NoCostFor(a.symbol, input.costs) || RecordedCost(a.cost, a.symbol, input.costs))
    && (a.marketAsof.None? || NoCostFor(a.symbol, input.costs) ==> a.action.NoView?)
  }

  ghost predicate RecordedAt(cost: Cost, symbol: Symbol, costs: seq<Cost>, i: int) {
    && 0 <= i < |costs| && costs[i] == cost && cost.symbol == symbol
    && forall j :: 0 <= j < i ==> costs[j].symbol != symbol
  }

  lemma RecordedTail(cost: Cost, symbol: Symbol, costs: seq<Cost>)
    requires costs != [] && costs[0].symbol != symbol
    ensures RecordedCost(cost, symbol, costs) <==> RecordedCost(cost, symbol, costs[1..])
  {
    var rest := costs[1..];
    if i :| RecordedAt(cost, symbol, costs, i) {
      assert forall j :: 0 <= j < i - 1 ==> rest[j] == costs[j + 1];
      assert RecordedAt(cost, symbol, rest, i - 1);
    }
    if i :| RecordedAt(cost, symbol, rest, i) {
      assert forall j :: 1 <= j < i + 1 ==> costs[j] == rest[j - 1];
      assert RecordedAt(cost, symbol, costs, i + 1);
    }
  }

  lemma {:induction false} FirstCost(costs: seq<Cost>, symbol: Symbol, cost: Cost)
    ensures FindCost(costs, symbol) == Some(cost) <==> RecordedCost(cost, symbol, costs)
    decreases |costs|
  {
    if costs != [] {
      if costs[0].symbol == symbol {
        if costs[0] == cost {
          assert RecordedAt(cost, symbol, costs, 0);
        } else {
          assert forall i :: RecordedAt(cost, symbol, costs, i) ==> i == 0;
        }
      } else {
        FirstCost(costs[1..], symbol, cost);
        RecordedTail(cost, symbol, costs);
      }
    }
  }

  lemma ClosesAtIff(asof: Option<Time>, symbol: Symbol, bars: seq<HourBar>)
    ensures ClosesAt(asof, symbol, bars) <==> asof == MarketAsof(LatestBar(bars, symbol))
  {
    var latest := LatestBar(bars, symbol);
    if latest.Some? {
      assert latest.value in bars && latest.value.symbol == symbol;
    }
  }

  /** Each problem is reported exactly when it is the first of them. */
  lemma ProblemMeans(a: Advice, input: InputSnapshot)
    ensures var p := AdviceProblem(a, input);
            && (p.None? <==> AgreesWith(a, input))
            && (p == Some(WrongMarket) <==> !ClosesAt(a.marketAsof, a.symbol, input.bars))
            && (p == Some(WrongDelay) <==> ClosesAt(a.marketAsof, a.symbol, input.bars) && !OnTime(a))
            && (p == Some(WrongCost) <==>
                  && ClosesAt(a.marketAsof, a.symbol, input.bars) && OnTime(a)
                  && !NoCostFor(a.symbol, input.costs) && !RecordedCost(a.cost, a.symbol, input.costs))
            && (p.Some? ==> p.value in {WrongMarket, WrongDelay, WrongCost, MustBeNoView})
  {
    ClosesAtIff(a.marketAsof, a.symbol, input.bars);
    FirstCost(input.costs, a.symbol, a.cost);
  }

  /** Item number `i` is the first that does not agree, with this problem. */
  ghost predicate FirstAt(problem: Option<Reason>, advice: seq<Advice>, input: InputSnapshot, i: int) {
    && 0 <= i < |advice| && AdviceProblem(advice[i], input) == problem
    && forall j :: 0 <= j < i ==> AgreesWith(advice[j], input)
  }

  /** Why a verified and bound result is turned away, in the order of the checks. */
  ghost predicate Reported(reason: Reason, result: AnalysisResult, input: InputSnapshot, now: Time) {
    if result.generatedAt > now + 5 * SECOND then reason.FutureResult?
    else if result.generatedAt < input.generatedAt then reason.PredatesInput?
    else if result.workerCommit != input.producerCommit then reason.CommitDiffers?
    else exists i :: FirstAt(Some(reason), result.advice, input, i)
  }

  /** Why a file is turned away. */
  ghost predicate TurnedAwayFor(
    reason: Reason, name: Id, file: InboxFile, inputs: map<Id, Aged<InputSnapshot>>, now: Time)
  {
    if !file.Verified? then reason.NotReadable?
    else if file.result.id != name then reason.FilenameMismatch?
    else if file.result.inputId !in inputs then reason.InputMissing?
    else Reported(reason, file.result, inputs[file.result.inputId].value, now)
  }

  /** A verified and bound file is acceptable: dates and commit are right, and every item agrees
      with the signed input. */
  ghost predicate Sanctioned(name: Id, file: InboxFile, inputs: map<Id, Aged<InputSnapshot>>, now: Time) {
    && file.Verified? && file.result.id == name && file.result.inputId in inputs
    && var input := inputs[file.result.inputId].value;
       && input.generatedAt <= file.result.generatedAt <= now + 5 * SECOND
       && file.result.workerCommit == input.producerCommit
       && forall a :: a in file.result.advice ==> AgreesWith(a, input)
  }

  function FirstProblem(advice: seq<Advice>, input: InputSnapshot): (problem: Option<Reason>)
    ensures problem.None? <==> forall a :: a in advice ==> AgreesWith(a, input)
    ensures problem.Some? ==> exists i :: FirstAt(problem, advice, input, i)
    ensures problem != Some(PreviousInputMissing)
  {
    if advice == [] then None
    else
      ProblemMeans(advice[0], input);
      if AdviceProblem(advice[0], input).Some? then
        assert FirstAt(AdviceProblem(advice[0], input), advice, input, 0);
        AdviceProblem(advice[0], input)
      else
        var rest := FirstProblem(advice[1..], input);
        FirstAtTail(rest, advice, input);
        rest
  }

  lemma FirstAtTail(problem: Option<Reason>, advice: seq<Advice>, input: InputSnapshot)
    requires advice != [] && AgreesWith(advice[0], input)
    ensures forall i :: FirstAt(problem, advice[1..], input, i) ==> FirstAt(problem, advice, input, i + 1)
  {
    assert forall j :: 1 <= j < |advice| ==> advice[j] == advice[1..][j - 1];
  }

  function ResultProblem(result: AnalysisResult, input: InputSnapshot, now: Time): Option<Reason> {
    if result.generatedAt > now + CLOCK_ALLOWANCE then Some(FutureResult)
    else if result.generatedAt < input.generatedAt then Some(PredatesInput)
    else if result.workerCommit != input.producerCommit then Some(CommitDiffers)
    else FirstProblem(result.advice, input)
  }

  /** Why an inbox file is rejected before anything is written, if it is. */
  function FileProblem(name: Id, file: InboxFile, inputs: map<Id, Aged<InputSnapshot>>, now: Time)
    : (problem: Option<Reason>)
    ensures problem.None? <==> Sanctioned(name, file, inputs, now)
    ensures problem.Some? ==> TurnedAwayFor(problem.value, name, file, inputs, now)
    ensures problem != Some(PreviousInputMissing)
  {
    if !file.Verified? then Some(NotReadable)
    else if file.result.id != name then Some(FilenameMismatch)
    else if file.result.inputId !in inputs then Some(InputMissing)
    else ResultProblem(file.result, inputs[file.result.inputId].value, now)
  }
}
