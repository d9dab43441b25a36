/** `Ledger.summary`: the counts of one scope, which every validator must find consistent. */
module Summary {
  import opened Contracts
  import opened Sorting
  import opened NonOverlap
  import opened Coverage
  import opened Ledger
  import opened Manifest

  datatype Scope = Scope(experiment: string, strategyVersion: string, costVersions: seq<string>, from: Time,
                         until: Time)

  predicate InScope(o: Observation, scope: Scope) {
    && o.advice.experiment == scope.experiment && o.advice.strategyVersion == scope.strategyVersion
    && o.advice.cost.version in scope.costVersions && scope.from <= o.publishedAt <= scope.until
  }

  /** What registration guarantees of a row; see `RegisteredRows`. */
  predicate WellFormed(table: Table) {
    forall key :: key in table ==>
      var a := table[key].advice;
      && KeyOf(a) == key && a.horizon in HORIZONS
      && a.entryAt.Some? && a.exitAt == Some(a.entryAt.value + a.horizon * HOUR)
  }

  function RowOf(o: Observation): Row
    requires o.advice.entryAt.Some? && o.advice.exitAt.Some?
  {
    var a := o.advice;
    Row(a.symbol, a.opportunityId, a.horizon, a.action, o.publishedAt, a.entryAt.value, a.exitAt.value,
        if o.outcome.Some? then Some(o.outcome.value.at) else None,
        if o.outcome.Some? then Some(o.outcome.value.gross) else None,
        if o.outcome.Some? then o.outcome.value.net else None)
  }

  /** The rows are the scoped part of the table, one for each key, in some order. */
  ghost predicate ListsScope(rows: seq<Row>, table: Table, scope: Scope)
    requires WellFormed(table)
  {
    && (forall i, j :: 0 <= i < j < |rows| ==>
          !(rows[i].opportunity == rows[j].opportunity && rows[i].horizon == rows[j].horizon))
    && (forall key :: key in table && InScope(table[key], scope) ==> RowOf(table[key]) in rows)
    && (forall r :: r in rows ==>
          exists key :: key in table && InScope(table[key], scope) && r == RowOf(table[key])
                        && key == Ledger.Key(r.opportunity, r.horizon, scope.experiment))
  }

  // ----- distinct values

  function Distinct<T(==)>(s: seq<T>): (d: seq<T>)
    ensures |d| <= |s|
  {
    if s == [] then []
    else if s[0] in s[1..] then Distinct(s[1..])
    else [s[0]] + Distinct(s[1..])
  }

  lemma {:induction false} DistinctElements<T>(s: seq<T>)
    ensures forall i :: 0 <= i < |s| ==> s[i] in Distinct(s)
    ensures forall i :: 0 <= i < |Distinct(s)| ==> Distinct(s)[i] in s
    ensures forall i, j :: 0 <= i < j < |Distinct(s)| ==> Distinct(s)[i] != Distinct(s)[j]
    decreases |s|
  {
    if s != [] {
      DistinctElements(s[1..]);
      var rest := Distinct(s[1..]);
      if s[0] !in s[1..] {
        assert forall i :: 0 <= i < |rest| ==> rest[i] in s[1..];
      }
      forall i | 0 <= i < |s| ensures s[i] in Distinct(s) {
        if i > 0 {
          assert s[i] == s[1..][i - 1];
        } else if s[0] in s[1..] {
          var j :| 0 <= j < |s[1..]| && s[1..][j] == s[0];
        }
      }
    }
  }

  function Opportunities(rows: seq<Row>): seq<Id> {
    if rows == [] then [] else [rows[0].opportunity] + Opportunities(rows[1..])
  }

  function SymbolOpportunities(rows: seq<Row>): seq<(Symbol, Id)> {
    if rows == [] then [] else [(rows[0].symbol, rows[0].opportunity)] + SymbolOpportunities(rows[1..])
  }

  lemma {:induction false} OpportunityOf(rows: seq<Row>)
    ensures |Opportunities(rows)| == |SymbolOpportunities(rows)| == |rows|
    ensures forall i :: 0 <= i < |rows| ==>
              Opportunities(rows)[i] == rows[i].opportunity
                && SymbolOpportunities(rows)[i] == (rows[i].symbol, rows[i].opportunity)
    decreases |rows|
  {
    if rows != [] {
      OpportunityOf(rows[1..]);
    }
  }

  /** The hash of an opportunity covers its symbol. */
  ghost predicate FixesSymbol(rows: seq<Row>) {
    forall a, b :: a in rows && b in rows && a.opportunity == b.opportunity ==> a.symbol == b.symbol
  }

  lemma {:induction false} OnePairPerOpportunity(rows: seq<Row>)
    requires FixesSymbol(rows)
    ensures |Distinct(SymbolOpportunities(rows))| == |Distinct(Opportunities(rows))|
    decreases |rows|
  {
    if rows != [] {
      var rest := rows[1..];
      OnePairPerOpportunity(rest);
      OpportunityOf(rest);
      if rows[0].opportunity in Opportunities(rest) {
        var i :| 0 <= i < |rest| && Opportunities(rest)[i] == rows[0].opportunity;
        assert rest[i] in rows && SymbolOpportunities(rest)[i] == (rows[0].symbol, rows[0].opportunity);
      }
      if (rows[0].symbol, rows[0].opportunity) in SymbolOpportunities(rest) {
        var i :| 0 <= i < |rest| && SymbolOpportunities(rest)[i] == (rows[0].symbol, rows[0].opportunity);
        assert Opportunities(rest)[i] == rows[0].opportunity;
      }
    }
  }

  // ----- counts

  predicate IsWaiting(r: Row, now: Time) {
    !Matured(r, now) && r.exitAt + HOUR > now
  }

  function MaturedCount(rows: seq<Row>, now: Time): (n: nat)
    ensures n == |MaturedRows(rows, now)| <= |rows|
  {
    if rows == [] then 0 else (if Matured(rows[0], now) then 1 else 0) + MaturedCount(rows[1..], now)
  }

  function WaitingCount(rows: seq<Row>, now: Time): (n: nat)
    ensures n + MaturedCount(rows, now) <= |rows|
  {
    if rows == [] then 0 else (if IsWaiting(rows[0], now) then 1 else 0) + WaitingCount(rows[1..], now)
  }

  /** On a fixed ledger and scope, maturing only grows and waiting only shrinks with time. */
  lemma {:induction false} CountsMonotone(rows: seq<Row>, now: Time, later: Time)
    requires now <= later
    ensures MaturedCount(rows, now) <= MaturedCount(rows, later)
    ensures WaitingCount(rows, later) <= WaitingCount(rows, now)
    decreases |rows|
  {
    if rows != [] {
      CountsMonotone(rows[1..], now, later);
    }
  }

  // ----- independent opportunities

  /** One line of the `GROUP BY symbol, opportunity` query. */
  datatype Window = Window(symbol: Symbol, opportunity: Id, entry: Time, exit: Time)

  function OfPair(rows: seq<Row>, pair: (Symbol, Id)): seq<Row> {
    if rows == [] then []
    else (if (rows[0].symbol, rows[0].opportunity) == pair then [rows[0]] else []) + OfPair(rows[1..], pair)
  }

  function LastExitOf(rows: seq<Row>): Time {
    if |rows| <= 1 then (if rows == [] then 0 else rows[0].exitAt) else Max(rows[0].exitAt, LastExitOf(rows[1..]))
  }

  function FirstEntryOf(rows: seq<Row>): Time {
    if |rows| <= 1 then (if rows == [] then 0 else rows[0].entryAt) else Min(rows[0].entryAt, FirstEntryOf(rows[1..]))
  }

  function WindowsOf(rows: seq<Row>): (windows: seq<Window>)
    ensures |windows| == |Distinct(SymbolOpportunities(rows))|
  {
    var pairs := Distinct(SymbolOpportunities(rows));
    seq(|pairs|, i requires 0 <= i < |pairs| =>
          Window(pairs[i].0, pairs[i].1, FirstEntryOf(OfPair(rows, pairs[i])), LastExitOf(OfPair(rows, pairs[i]))))
  }

  predicate WindowBefore(a: Window, b: Window) {
    if a.entry != b.entry then a.entry < b.entry
    else if a.symbol != b.symbol then SymbolRank(a.symbol) < SymbolRank(b.symbol)
    else a.opportunity <= b.opportunity
  }

  /** The windows the loop counts: each starts no earlier than the last counted one of its symbol ends. */
  function Counted(windows: seq<Window>, lastExit: map<Symbol, Time>): (counted: seq<Window>)
    ensures |counted| <= |windows|
    ensures forall w :: w in counted ==> w in windows
    decreases |windows|
  {
    if windows == [] then []
    else
      var w := windows[0];
      if w.symbol in lastExit && w.entry < lastExit[w.symbol] then Counted(windows[1..], lastExit)
      else [w] + Counted(windows[1..], lastExit[w.symbol := w.exit])
  }

  ghost predicate DisjointWindows(counted: seq<Window>) {
    forall i, j :: 0 <= i < j < |counted| && counted[i].symbol == counted[j].symbol ==>
      counted[i].exit <= counted[j].entry
  }

  ghost predicate After(counted: seq<Window>, lastExit: map<Symbol, Time>) {
    forall i :: 0 <= i < |counted| && counted[i].symbol in lastExit ==> lastExit[counted[i].symbol] <= counted[i].entry
  }

  lemma CountOne(w: Window, rest: seq<Window>, lastExit: map<Symbol, Time>)
    requires w.entry <= w.exit && (w.symbol in lastExit ==> lastExit[w.symbol] <= w.entry)
    requires DisjointWindows(rest) && After(rest, lastExit[w.symbol := w.exit])
    ensures DisjointWindows([w] + rest) && After([w] + rest, lastExit)
  {
    var counted := [w] + rest;
    forall j | 0 < j < |counted| ensures counted[j] == rest[j - 1] {
    }
  }

  /** Counted windows of one symbol do not overlap. */
  lemma {:induction false} CountedDisjoint(windows: seq<Window>, lastExit: map<Symbol, Time>)
    requires forall i :: 0 <= i < |windows| ==> windows[i].entry <= windows[i].exit
    ensures DisjointWindows(Counted(windows, lastExit)) && After(Counted(windows, lastExit), lastExit)
    decreases |windows|
  {
    if windows != [] {
      var w := windows[0];
      if w.symbol in lastExit && w.entry < lastExit[w.symbol] {
        CountedDisjoint(windows[1..], lastExit);
      } else {
        CountedDisjoint(windows[1..], lastExit[w.symbol := w.exit]);
        CountOne(w, Counted(windows[1..], lastExit[w.symbol := w.exit]), lastExit);
      }
    }
  }

  lemma {:induction false} PairHasRow(rows: seq<Row>, pair: (Symbol, Id))
    requires pair in SymbolOpportunities(rows)
    ensures OfPair(rows, pair) != []
    decreases |rows|
  {
    if (rows[0].symbol, rows[0].opportunity) != pair {
      PairHasRow(rows[1..], pair);
    }
  }

  lemma {:induction false} OfPairIn(rows: seq<Row>, pair: (Symbol, Id))
    ensures forall r :: r in OfPair(rows, pair) ==> r in rows
    decreases |rows|
  {
    if rows != [] {
      OfPairIn(rows[1..], pair);
      assert rows == [rows[0]] + rows[1..];
    }
  }

  lemma EarliestAndLatest(rows: seq<Row>)
    requires rows != []
    ensures FirstEntryOf(rows) <= rows[0].entryAt && rows[0].exitAt <= LastExitOf(rows)
  {
  }

  /** The windows of the query run forward. */
  lemma WindowsRunForward(rows: seq<Row>)
    requires Windows(rows)
    ensures forall w :: w in WindowsOf(rows) ==> w.entry <= w.exit
  {
    var pairs := Distinct(SymbolOpportunities(rows));
    DistinctElements(SymbolOpportunities(rows));
    forall i | 0 <= i < |pairs| ensures WindowsOf(rows)[i].entry <= WindowsOf(rows)[i].exit {
      var own := OfPair(rows, pairs[i]);
      PairHasRow(rows, pairs[i]);
      OfPairIn(rows, pairs[i]);
      EarliestAndLatest(own);
      assert own[0] in rows;
      PositiveLength(own[0]);
    }
  }

  function IndependentWindows(rows: seq<Row>): seq<Window> {
    Counted(SortBy(WindowsOf(rows), WindowBefore), map[])
  }

  /** The opportunities counted as independent: no two of one symbol overlap. */
  lemma IndependentDisjoint(rows: seq<Row>)
    requires Windows(rows)
    ensures DisjointWindows(IndependentWindows(rows))
  {
    var windows := SortBy(WindowsOf(rows), WindowBefore);
    WindowsRunForward(rows);
    forall i | 0 <= i < |windows| ensures windows[i].entry <= windows[i].exit {
      assert windows[i] in WindowsOf(rows);
    }
    CountedDisjoint(windows, map[]);
  }

  // ----- the groups of matured rows

  /** `ForwardGroup`. */
  datatype ForwardGroup = ForwardGroup(
    horizon: nat, action: Action, observations: nat, grossMean: Option<real>, netMean: Option<real>)

  function HorizonActions(rows: seq<Row>): (pairs: seq<(nat, Action)>)
    ensures |pairs| == |rows|
    ensures forall i :: 0 <= i < |rows| ==> pairs[i] == (rows[i].horizon, rows[i].action)
  {
    if rows == [] then [] else [(rows[0].horizon, rows[0].action)] + HorizonActions(rows[1..])
  }

  function InGroup(rows: seq<Row>, pair: (nat, Action)): seq<Row> {
    if rows == [] then []
    else (if (rows[0].horizon, rows[0].action) == pair then [rows[0]] else []) + InGroup(rows[1..], pair)
  }

  predicate PairBefore(a: (nat, Action), b: (nat, Action)) {
    if a.0 != b.0 then a.0 < b.0 else ActionRank(a.1) <= ActionRank(b.1)
  }

  function GroupOf(rows: seq<Row>, pair: (nat, Action)): (g: ForwardGroup)
    ensures g.observations == |InGroup(rows, pair)|
  {
    var own := InGroup(rows, pair);
    ForwardGroup(pair.0, pair.1, |own|,
                 MeanOf(Present(GrossValues(own))), MeanOf(Present(NetValues(own))))
  }

  function GroupsFor(rows: seq<Row>, pairs: seq<(nat, Action)>): (groups: seq<ForwardGroup>)
    ensures |groups| == |pairs|
    ensures forall i :: 0 <= i < |pairs| ==> groups[i] == GroupOf(rows, pairs[i])
  {
    if pairs == [] then [] else [GroupOf(rows, pairs[0])] + GroupsFor(rows, pairs[1..])
  }

  function GroupsOf(matured: seq<Row>): seq<ForwardGroup> {
    GroupsFor(matured, SortBy(Distinct(HorizonActions(matured)), PairBefore))
  }

  function TotalObservations(groups: seq<ForwardGroup>): nat {
    if groups == [] then 0 else groups[0].observations + TotalObservations(groups[1..])
  }

  /** One more row counts in exactly the group of its pair. */
  lemma {:induction false} TotalAfterRow(r: Row, rows: seq<Row>, pairs: seq<(nat, Action)>)
    requires forall i, j :: 0 <= i < j < |pairs| ==> pairs[i] != pairs[j]
    ensures TotalObservations(GroupsFor([r] + rows, pairs))
         == TotalObservations(GroupsFor(rows, pairs)) + if (r.horizon, r.action) in pairs then 1 else 0
    decreases |pairs|
  {
    assert ([r] + rows)[1..] == rows;
    if pairs != [] {
      TotalAfterRow(r, rows, pairs[1..]);
      assert (r.horizon, r.action) in pairs[1..] ==> (r.horizon, r.action) != pairs[0];
    }
  }

  /** The groups partition the matured rows. */
  lemma {:induction false} GroupsSum(rows: seq<Row>, pairs: seq<(nat, Action)>)
    requires forall i, j :: 0 <= i < j < |pairs| ==> pairs[i] != pairs[j]
    requires forall r :: r in rows ==> (r.horizon, r.action) in pairs
    ensures TotalObservations(GroupsFor(rows, pairs)) == |rows|
    decreases |rows|
  {
    if rows == [] {
      NoObservations(pairs);
    } else {
      GroupsSum(rows[1..], pairs);
      TotalAfterRow(rows[0], rows[1..], pairs);
      assert [rows[0]] + rows[1..] == rows;
    }
  }

  lemma {:induction false} NoObservations(pairs: seq<(nat, Action)>)
    ensures TotalObservations(GroupsFor([], pairs)) == 0
    decreases |pairs|
  {
    if pairs != [] {
      NoObservations(pairs[1..]);
    }
  }

  lemma GroupsSumToMatured(matured: seq<Row>)
    ensures TotalObservations(GroupsOf(matured)) == |matured|
  {
    var all := HorizonActions(matured);
    var pairs := SortBy(Distinct(all), PairBefore);
    DistinctElements(all);
    SortByPermutes(Distinct(all), PairBefore);
    DistinctPermutation(Distinct(all), pairs);
    forall r | r in matured ensures (r.horizon, r.action) in pairs {
      var i :| 0 <= i < |matured| && matured[i] == r;
      assert all[i] in Distinct(all);
    }
    GroupsSum(matured, pairs);
  }

  ghost const KINDS: set<(nat, Action)> :=
    {(4, Defer), (4, ReviewEntry), (4, KeepBaseline), (4, NoView)}
    + {(24, Defer), (24, ReviewEntry), (24, KeepBaseline), (24, NoView)}

  lemma KindOf(horizon: nat, action: Action)
    requires horizon in HORIZONS
    ensures (horizon, action) in KINDS
  {
    assert horizon == 4 || horizon == 24;
    match action {
      case Defer =>
      case ReviewEntry =>
      case KeepBaseline =>
      case NoView =>
    }
  }

  lemma EightKinds()
    ensures |KINDS| <= 8
  {
    var a: set<(nat, Action)> := {(4, Defer), (4, ReviewEntry), (4, KeepBaseline), (4, NoView)};
    var b: set<(nat, Action)> := {(24, Defer), (24, ReviewEntry), (24, KeepBaseline), (24, NoView)};
    assert |a| <= 4 && |b| <= 4;
    assert KINDS == a + b;
    assert |a + b| <= |a| + |b|;
  }

  /** At most eight groups: two horizons, four actions. */
  lemma GroupsFit(matured: seq<Row>)
    requires forall r :: r in matured ==> r.horizon in HORIZONS
    ensures |GroupsOf(matured)| <= 8
  {
    var d := Distinct(HorizonActions(matured));
    DistinctElements(HorizonActions(matured));
    forall i | 0 <= i < |d| ensures d[i] in KINDS {
      var k :| 0 <= k < |matured| && HorizonActions(matured)[k] == d[i];
      assert matured[k] in matured;
      KindOf(matured[k].horizon, matured[k].action);
    }
    DistinctFit(d, KINDS);
    EightKinds();
  }

  lemma {:induction false} DistinctFit<T>(d: seq<T>, kinds: set<T>)
    requires forall i :: 0 <= i < |d| ==> d[i] in kinds
    requires forall i, j :: 0 <= i < j < |d| ==> d[i] != d[j]
    ensures |d| <= |kinds|
    decreases |d|
  {
    if d != [] {
      forall i | 0 <= i < |d[1..]| ensures d[1..][i] in kinds - {d[0]} {
        assert d[1..][i] == d[i + 1];
      }
      DistinctFit(d[1..], kinds - {d[0]});
    }
  }

  // ----- the summary

  /** The counts of a forward summary, as its three contracts constrain them. */
  datatype Summary = Summary(
    scope: Scope, started: Option<Time>, opportunities: nat, total: nat, matured: nat, waiting: nat, missing: int,
    independent: nat, overlapping: int, groups: seq<ForwardGroup>)
  {
    predicate Valid() {
      && 1 <= |scope.experiment| <= 128 && 1 <= |scope.strategyVersion| <= 128
      && 1 <= |scope.costVersions| <= 4
      && missing >= 0 && total == matured + waiting + missing
      && opportunities <= total
      && scope.from <= scope.until
      && independent <= opportunities
      && overlapping >= 0 && overlapping == total - independent
      && |groups| <= 8
    }
  }

  /** What the summary's contracts demand of the scope beyond what the query itself checks. */
  predicate Bounded(scope: Scope) {
    |scope.experiment| <= 128 && |scope.strategyVersion| <= 128 && |Distinct(scope.costVersions)| <= 4
  }

  /** The scope as reported: each version once, in order. */
  function Reported(scope: Scope): Scope {
    scope.(costVersions := SortBy(Distinct(scope.costVersions), NotAfter))
  }

  /** `min(published_at)`. */
  function FirstPublished(rows: seq<Row>): (first: Option<Time>)
    ensures first.None? <==> rows == []
    ensures first.Some? ==>
              (exists r :: r in rows && r.publishedAt == first.value)
                && forall r :: r in rows ==> first.value <= r.publishedAt
  {
    if rows == [] then None
    else
      var rest := FirstPublished(rows[1..]);
      if rest.None? || rows[0].publishedAt <= rest.value then Some(rows[0].publishedAt) else rest
  }

  function Summarize(rows: seq<Row>, scope: Scope, now: Time): Summary {
    var independent := |IndependentWindows(rows)|;
    Summary(Reported(scope), FirstPublished(rows), |Distinct(Opportunities(rows))|, |rows|,
            MaturedCount(rows, now), WaitingCount(rows, now),
            |rows| - MaturedCount(rows, now) - WaitingCount(rows, now),
            independent, |rows| - independent, GroupsOf(MaturedRows(rows, now)))
  }

  lemma DistinctNonEmpty(s: seq<string>)
    ensures Distinct(s) == [] <==> s == []
  {
    DistinctElements(s);
    if s != [] {
      assert s[0] in Distinct(s);
    }
  }

  /** For an explicit scope every validator of the summary holds exactly when the scope is within
      bounds; the groups sum to the matured count, and the independent windows of one symbol do
      not overlap. */
  lemma SummaryValid(rows: seq<Row>, scope: Scope, now: Time)
    requires ExplicitScope(scope, now) && FixesSymbol(rows) && Windows(rows)
    requires forall r :: r in rows ==> r.horizon in HORIZONS
    ensures Summarize(rows, scope, now).Valid() <==> Bounded(scope)
    ensures TotalObservations(Summarize(rows, scope, now).groups) == Summarize(rows, scope, now).matured
    ensures Summarize(rows, scope, now).independent == |IndependentWindows(rows)|
            && DisjointWindows(IndependentWindows(rows))
  {
    OnePairPerOpportunity(rows);
    OpportunityOf(rows);
    GroupsSumToMatured(MaturedRows(rows, now));
    GroupsFit(MaturedRows(rows, now));
    IndependentDisjoint(rows);
    DistinctNonEmpty(scope.costVersions);
  }

  // ----- rows of a reachable ledger

  /** The receipts of a reachable ledger are for accepted results: valid, and with the entry an
      hour after the market hour. */
  ghost predicate Accepted(list: seq<Published>) {
    forall p :: p in list ==>
      && p.result.generatedAt <= p.at
      && forall a :: a in p.result.advice ==>
           && a.Coherent() && a.generatedAt <= p.result.generatedAt
           && (a.entryAt.Some? ==> a.marketAsof.Some? && a.entryAt.value == a.marketAsof.value + HOUR)
  }

  lemma {:induction false} FirstOfIsOne(advice: seq<Advice>, at: Time, key: Ledger.Key)
    requires FirstOf(advice, at, key).Some?
    ensures var o := FirstOf(advice, at, key).value;
            o.advice in advice && InTime(o.advice, at) && KeyOf(o.advice) == key && o.publishedAt == at
    decreases |advice|
  {
    if !(KeyOf(advice[0]) == key && InTime(advice[0], at)) {
      FirstOfIsOne(advice[1..], at, key);
    }
  }

  lemma {:induction false} FirstObservationIsOne(list: seq<Published>, key: Ledger.Key) returns (p: Published)
    requires FirstObservation(list, key).Some?
    ensures var o := FirstObservation(list, key).value;
            p in list && o.advice in p.result.advice && InTime(o.advice, p.at) && KeyOf(o.advice) == key
              && o.publishedAt == p.at
    decreases |list|
  {
    if FirstOf(list[0].result.advice, list[0].at, key).Some? {
      FirstOfIsOne(list[0].result.advice, list[0].at, key);
      p := list[0];
    } else {
      p := FirstObservationIsOne(list[1..], key);
    }
  }

  /** So every registered row is well formed and was published no earlier than its market hour,
      which is what keeps publication delays non-negative. */
  lemma RegisteredRows(table: Table, list: seq<Published>)
    requires Refines(table, list) && Accepted(list)
    ensures WellFormed(table)
    ensures forall key :: key in table ==> table[key].publishedAt >= table[key].advice.entryAt.value - HOUR
  {
    forall key | key in table
      ensures var a := table[key].advice;
              && KeyOf(a) == key && a.horizon in HORIZONS
              && a.entryAt.Some? && a.exitAt == Some(a.entryAt.value + a.horizon * HOUR)
              && table[key].publishedAt >= a.entryAt.value - HOUR
    {
      assert Registration(table, key) == FirstObservation(list, key);
      var p := FirstObservationIsOne(list, key);
    }
  }

  predicate ExplicitScope(scope: Scope, now: Time) {
    && scope.experiment != "" && scope.strategyVersion != ""
    && scope.costVersions != [] && (forall v :: v in scope.costVersions ==> v != "")
    && scope.from <= scope.until <= now
  }

  lemma ScopedRows(rows: seq<Row>, table: Table, list: seq<Published>, scope: Scope)
    requires Refines(table, list) && Accepted(list) && WellFormed(table) && ListsScope(rows, table, scope)
    ensures Prompt(rows) && Windows(rows) && forall r :: r in rows ==> r.horizon in HORIZONS
  {
    RegisteredRows(table, list);
    forall r | r in rows
      ensures r.publishedAt >= r.entryAt - HOUR && r.horizon in HORIZONS && r.exitAt == r.entryAt + r.horizon * HOUR
    {
      var key :| key in table && InScope(table[key], scope) && r == RowOf(table[key]);
    }
  }
}
