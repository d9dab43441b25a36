/** `summary`: what a forward summary reports, said of the ledger's rows and the clock, and the
    method that reports it. */
module ForwardSummary {
  import opened Contracts
  import opened Sorting
  import opened Tally
  import opened NonOverlap
  import opened Coverage
  import opened Ledger
  import opened Summary
  import opened Manifest

  // ----- the rows of a scope

  ghost predicate Scoped(o: Observation, scope: Scope) {
    && o.advice.experiment == scope.experiment && o.advice.strategyVersion == scope.strategyVersion
    && (exists i :: 0 <= i < |scope.costVersions| && scope.costVersions[i] == o.advice.cost.version)
    && scope.from <= o.publishedAt && o.publishedAt <= scope.until
  }

  /** The columns of one row. */
  ghost predicate Shows(r: Row, o: Observation) {
    && r.symbol == o.advice.symbol && r.opportunity == o.advice.opportunityId && r.horizon == o.advice.horizon
    && r.action == o.advice.action && r.publishedAt == o.publishedAt
    && o.advice.entryAt == Some(r.entryAt) && o.advice.exitAt == Some(r.exitAt)
    && match o.outcome
       case None => r.labelAt.None? && r.grossBps.None? && r.netBps.None?
       case Some(l) => r.labelAt == Some(l.at) && r.grossBps == Some(l.gross) && r.netBps == l.net
  }

  /** Every observation of the scope is shown by one row, and nothing else is. */
  ghost predicate RowsSeen(rows: seq<Row>, table: Table, scope: Scope) {
    && (forall i, j :: 0 <= i < j < |rows| ==>
          rows[i].opportunity != rows[j].opportunity || rows[i].horizon != rows[j].horizon)
    && (forall i :: 0 <= i < |rows| ==> FromScope(rows[i], table, scope))
    && (forall key :: key in table && Scoped(table[key], scope) ==> Shown(table[key], rows))
  }

  ghost predicate FromScope(r: Row, table: Table, scope: Scope) {
    exists key :: key in table && Scoped(table[key], scope) && Shows(r, table[key])
  }

  ghost predicate Shown(o: Observation, rows: seq<Row>) {
    exists i :: 0 <= i < |rows| && Shows(rows[i], o)
  }

  lemma ScopedIff(o: Observation, scope: Scope)
    ensures Scoped(o, scope) <==> InScope(o, scope)
  {
  }

  lemma ListedRowsSeen(rows: seq<Row>, table: Table, scope: Scope)
    requires WellFormed(table) && ListsScope(rows, table, scope)
    ensures RowsSeen(rows, table, scope)
  {
    forall key | key in table
      ensures Scoped(table[key], scope) <==> InScope(table[key], scope)
      ensures Shows(RowOf(table[key]), table[key])
    {
      ScopedIff(table[key], scope);
    }
    forall i, j | 0 <= i < j < |rows|
      ensures rows[i].opportunity != rows[j].opportunity || rows[i].horizon != rows[j].horizon
    {
      assert !(rows[i].opportunity == rows[j].opportunity && rows[i].horizon == rows[j].horizon);
    }
    forall i | 0 <= i < |rows| ensures FromScope(rows[i], table, scope) {
      assert rows[i] in rows;
      var key :| key in table && InScope(table[key], scope) && rows[i] == RowOf(table[key])
                 && key == Ledger.Key(rows[i].opportunity, rows[i].horizon, scope.experiment);
      assert Shows(rows[i], table[key]) && Scoped(table[key], scope);
    }
    forall key | key in table && Scoped(table[key], scope) ensures Shown(table[key], rows) {
      assert RowOf(table[key]) in rows;
    }
  }

  /** The scoped query: a loop over the table. */
  method SelectRows(table: Table, scope: Scope) returns (rows: seq<Row>)
    requires WellFormed(table)
    ensures ListsScope(rows, table, scope)
  {
    rows := [];
    var todo := table.Keys;
    while todo != {}
      invariant todo <= table.Keys
      invariant forall i, j :: 0 <= i < j < |rows| ==>
                  !(rows[i].opportunity == rows[j].opportunity && rows[i].horizon == rows[j].horizon)
      invariant forall key :: key in table && key !in todo && InScope(table[key], scope) ==> RowOf(table[key]) in rows
      invariant forall r :: r in rows ==>
                  exists key :: key in table && key !in todo && InScope(table[key], scope) && r == RowOf(table[key])
                                && key == Ledger.Key(r.opportunity, r.horizon, scope.experiment)
      decreases |todo|
    {
      var key :| key in todo;
      var before := rows;
      if InScope(table[key], scope) {
        rows := rows + [RowOf(table[key])];
        forall r | r in rows
          ensures exists k :: k in table && k !in todo - {key} && InScope(table[k], scope) && r == RowOf(table[k])
                              && k == Ledger.Key(r.opportunity, r.horizon, scope.experiment)
        {
          if r in before {
          } else {
            assert r == RowOf(table[key]);
          }
        }
      }
      todo := todo - {key};
    }
  }

  // ----- the counts

  /** The scope as reported: the same versions, each once, in order. */
  ghost predicate ScopeSeen(reported: Scope, scope: Scope) {
    && reported == scope.(costVersions := reported.costVersions)
    && (forall v :: v in reported.costVersions <==> v in scope.costVersions)
    && forall i, j :: 0 <= i < j < |reported.costVersions| ==>
         reported.costVersions[i] != reported.costVersions[j]
         && NotAfter(reported.costVersions[i], reported.costVersions[j])
  }

  ghost predicate StartedAt(rows: seq<Row>, started: Option<Time>) {
    match started
    case None => rows == []
    case Some(t) =>
      && (exists i :: 0 <= i < |rows| && rows[i].publishedAt == t)
      && forall i :: 0 <= i < |rows| ==> t <= rows[i].publishedAt
  }

  ghost predicate CountsSeen(s: Summary, rows: seq<Row>, now: Time) {
    && s.total == |rows| && s.opportunities == |set i | 0 <= i < |rows| :: rows[i].opportunity|
    && s.matured == CountIf(rows, HasLabel(now)) && s.waiting == CountIf(rows, StillOpen(now))
    && s.missing == CountIf(rows, Overdue(now)) && StartedAt(rows, s.started)
  }

  lemma {:induction false} WaitingIsOpen(rows: seq<Row>, now: Time)
    ensures WaitingCount(rows, now) == CountIf(rows, StillOpen(now))
    decreases |rows|
  {
    if rows != [] {
      WaitingIsOpen(rows[1..], now);
    }
  }

  lemma {:induction false} DistinctSize<T>(s: seq<T>, values: set<T>)
    requires forall x :: x in values <==> x in s
    ensures |Distinct(s)| == |values|
    decreases |s|
  {
    if s == [] {
      assert values == {};
    } else if s[0] in s[1..] {
      DistinctSize(s[1..], values);
    } else {
      DistinctSize(s[1..], values - {s[0]});
    }
  }

  lemma CountsMean(rows: seq<Row>, scope: Scope, now: Time)
    ensures CountsSeen(Summarize(rows, scope, now), rows, now)
  {
    MaturedCounts(rows, now);
    WaitingIsOpen(rows, now);
    CountsPartition(rows, HasLabel(now), StillOpen(now), Overdue(now));
    OpportunitiesCounted(rows);
    var first := FirstPublished(rows);
    if first.Some? {
      var r :| r in rows && r.publishedAt == first.value;
      var i :| 0 <= i < |rows| && rows[i] == r;
    }
  }

  lemma OpportunitiesCounted(rows: seq<Row>)
    ensures |Distinct(Opportunities(rows))| == |set i | 0 <= i < |rows| :: rows[i].opportunity|
  {
    var all := Opportunities(rows);
    OpportunityOf(rows);
    var b := set i | 0 <= i < |rows| :: rows[i].opportunity;
    forall x ensures x in b <==> x in all {
      if x in all {
        var i :| 0 <= i < |all| && all[i] == x;
        assert rows[i].opportunity == x;
      }
      if x in b {
        var i :| 0 <= i < |rows| && rows[i].opportunity == x;
        assert all[i] == x;
      }
    }
    DistinctSize(all, b);
  }

  lemma ScopeMeans(scope: Scope)
    ensures ScopeSeen(Reported(scope), scope)
  {
    var versions := Distinct(scope.costVersions);
    DistinctElements(scope.costVersions);
    TextsAreOrdered();
    SortBySorted(versions, NotAfter);
    SortByPermutes(versions, NotAfter);
    DistinctPermutation(versions, SortBy(versions, NotAfter));
    forall v ensures v in versions <==> v in scope.costVersions {
    }
  }

  // ----- the windows of opportunities

  ghost predicate Of(r: Row, w: Window) {
    r.symbol == w.symbol && r.opportunity == w.opportunity
  }

  /** From the first entry of the opportunity to its last exit. */
  ghost predicate Spans(w: Window, rows: seq<Row>) {
    && (exists i :: 0 <= i < |rows| && Of(rows[i], w) && rows[i].entryAt == w.entry)
    && (exists i :: 0 <= i < |rows| && Of(rows[i], w) && rows[i].exitAt == w.exit)
    && forall i :: 0 <= i < |rows| && Of(rows[i], w) ==> w.entry <= rows[i].entryAt && rows[i].exitAt <= w.exit
  }

  ghost predicate Earlier(a: Window, b: Window) {
    || a.entry < b.entry
    || (a.entry == b.entry && SymbolRank(a.symbol) < SymbolRank(b.symbol))
    || (a.entry == b.entry && a.symbol == b.symbol && a.opportunity < b.opportunity)
  }

  ghost predicate HasWindow(r: Row, windows: seq<Window>) {
    exists i :: 0 <= i < |windows| && Of(r, windows[i])
  }

  ghost predicate AllSpan(windows: seq<Window>, rows: seq<Row>) {
    && (forall i {:trigger Spans(windows[i], rows)} :: 0 <= i < |windows| ==> Spans(windows[i], rows))
    && (forall i {:trigger HasWindow(rows[i], windows)} :: 0 <= i < |rows| ==> HasWindow(rows[i], windows))
  }

  /** One window for each opportunity of a symbol, by entry, symbol and opportunity. */
  ghost predicate WindowsSeen(windows: seq<Window>, rows: seq<Row>) {
    && AllSpan(windows, rows)
    && (forall i, j :: 0 <= i < j < |windows| ==> Earlier(windows[i], windows[j]))
  }

  /** The last chosen window of the symbol before `i`. */
  ghost predicate LastChosen(windows: seq<Window>, chosen: set<int>, j: int, i: int) {
    && j in chosen && 0 <= j < i < |windows| && windows[j].symbol == windows[i].symbol
    && forall k :: k in chosen && j < k < i ==> windows[k].symbol != windows[i].symbol
  }

  /** Whether no chosen window of its symbol reaches into it. */
  ghost function FreeOf(windows: seq<Window>, chosen: set<int>): int -> bool {
    i => forall j :: LastChosen(windows, chosen, j, i) ==> windows[j].exit <= windows[i].entry
  }

  /** Of the first `n` exactly those are chosen that are free. */
  ghost predicate ChosenBy(free: int -> bool, chosen: set<int>, n: int) {
    (forall k :: k in chosen ==> 0 <= k < n) && forall i :: 0 <= i < n ==> (i in chosen <==> free(i))
  }

  /** Going through the windows in order, each one that is free is chosen. */
  ghost predicate GreedyTo(windows: seq<Window>, chosen: set<int>, n: int) {
    n <= |windows| && ChosenBy(FreeOf(windows, chosen), chosen, n)
  }

  ghost predicate IndependentSeen(rows: seq<Row>, independent: nat) {
    exists windows, chosen :: WindowsSeen(windows, rows) && GreedyTo(windows, chosen, |windows|)
      && independent == |chosen|
  }

  lemma {:induction false} PairRows(rows: seq<Row>, pair: (Symbol, Id))
    ensures forall r :: r in OfPair(rows, pair) <==> r in rows && (r.symbol, r.opportunity) == pair
    decreases |rows|
  {
    if rows != [] {
      PairRows(rows[1..], pair);
      assert rows == [rows[0]] + rows[1..];
    }
  }

  lemma {:induction false} FirstEntryMeans(rows: seq<Row>)
    requires rows != []
    ensures exists r :: r in rows && r.entryAt == FirstEntryOf(rows)
    ensures forall r :: r in rows ==> FirstEntryOf(rows) <= r.entryAt
    decreases |rows|
  {
    assert rows == [rows[0]] + rows[1..];
    if |rows| > 1 {
      FirstEntryMeans(rows[1..]);
      var r :| r in rows[1..] && r.entryAt == FirstEntryOf(rows[1..]);
      assert r in rows && rows[0] in rows;
    } else {
      assert rows[0] in rows;
    }
  }

  lemma {:induction false} LastExitMeans(rows: seq<Row>)
    requires rows != []
    ensures exists r :: r in rows && r.exitAt == LastExitOf(rows)
    ensures forall r :: r in rows ==> r.exitAt <= LastExitOf(rows)
    decreases |rows|
  {
    assert rows == [rows[0]] + rows[1..];
    if |rows| > 1 {
      LastExitMeans(rows[1..]);
      var r :| r in rows[1..] && r.exitAt == LastExitOf(rows[1..]);
      assert r in rows && rows[0] in rows;
    } else {
      assert rows[0] in rows;
    }
  }

  lemma PairSpans(rows: seq<Row>, pair: (Symbol, Id))
    requires pair in SymbolOpportunities(rows)
    ensures Spans(Window(pair.0, pair.1, FirstEntryOf(OfPair(rows, pair)), LastExitOf(OfPair(rows, pair))), rows)
  {
    var own := OfPair(rows, pair);
    PairHasRow(rows, pair);
    PairRows(rows, pair);
    FirstEntryMeans(own);
    LastExitMeans(own);
    var first :| first in own && first.entryAt == FirstEntryOf(own);
    var last :| last in own && last.exitAt == LastExitOf(own);
    var i :| 0 <= i < |rows| && rows[i] == first;
    var j :| 0 <= j < |rows| && rows[j] == last;
  }

  ghost predicate OneEach(windows: seq<Window>) {
    forall i, j :: 0 <= i < j < |windows| ==>
      windows[i].symbol != windows[j].symbol || windows[i].opportunity != windows[j].opportunity
  }

  lemma WindowsOfMean(rows: seq<Row>)
    ensures AllSpan(WindowsOf(rows), rows) && OneEach(WindowsOf(rows))
  {
    var all, windows := SymbolOpportunities(rows), WindowsOf(rows);
    var pairs := Distinct(all);
    DistinctElements(all);
    OpportunityOf(rows);
    forall i | 0 <= i < |windows| ensures Spans(windows[i], rows) {
      PairSpans(rows, pairs[i]);
    }
    forall i | 0 <= i < |rows| ensures HasWindow(rows[i], windows) {
      assert all[i] in pairs;
      var k :| 0 <= k < |pairs| && pairs[k] == all[i];
      assert Of(rows[i], windows[k]);
    }
    forall i, j | 0 <= i < j < |windows|
      ensures windows[i].symbol != windows[j].symbol || windows[i].opportunity != windows[j].opportunity
    {
      assert pairs[i] != pairs[j];
    }
  }

  lemma WindowBeforeTotal()
    ensures TotalPreorder(WindowBefore)
  {
  }

  lemma SpanPermuted(windows: seq<Window>, sorted: seq<Window>, rows: seq<Row>)
    requires AllSpan(windows, rows) && forall w :: w in sorted <==> w in windows
    ensures AllSpan(sorted, rows)
  {
    forall i | 0 <= i < |sorted| ensures Spans(sorted[i], rows) {
      assert sorted[i] in windows;
      var k :| 0 <= k < |windows| && windows[k] == sorted[i];
      assert Spans(windows[k], rows);
    }
    forall i | 0 <= i < |rows| ensures HasWindow(rows[i], sorted) {
      assert HasWindow(rows[i], windows);
      var k :| 0 <= k < |windows| && Of(rows[i], windows[k]);
      assert windows[k] in sorted;
      var m :| 0 <= m < |sorted| && sorted[m] == windows[k];
    }
  }

  lemma SortedWindows(rows: seq<Row>)
    ensures WindowsSeen(SortBy(WindowsOf(rows), WindowBefore), rows)
  {
    var windows := WindowsOf(rows);
    var sorted := SortBy(windows, WindowBefore);
    WindowsOfMean(rows);
    SpanPermuted(windows, sorted, rows);
    WindowBeforeTotal();
    SortBySorted(windows, WindowBefore);
    SortByPermutes(windows, WindowBefore);
    SortedKeepsOneEach(windows, sorted);
    forall i, j | 0 <= i < j < |sorted| ensures Earlier(sorted[i], sorted[j]) {
      assert WindowBefore(sorted[i], sorted[j]);
    }
  }

  lemma SortedKeepsOneEach(windows: seq<Window>, sorted: seq<Window>)
    requires OneEach(windows) && multiset(sorted) == multiset(windows)
    ensures OneEach(sorted)
  {
    DistinctPermutation(windows, sorted);
    forall i, j | 0 <= i < j < |sorted|
      ensures sorted[i].symbol != sorted[j].symbol || sorted[i].opportunity != sorted[j].opportunity
    {
      assert sorted[i] in multiset(sorted) && sorted[j] in multiset(sorted);
      var a :| 0 <= a < |windows| && windows[a] == sorted[i];
      var b :| 0 <= b < |windows| && windows[b] == sorted[j];
    }
  }

  /** The map holds the exit of the last chosen window of each symbol. */
  ghost predicate ExitsChosen(windows: seq<Window>, chosen: set<int>, n: int, lastExit: map<Symbol, Time>)
    requires forall k :: k in chosen ==> 0 <= k < |windows|
  {
    && (forall s :: s in lastExit ==> exists k :: LatestOf(windows, chosen, s, k) && windows[k].exit == lastExit[s])
    && forall k :: k in chosen ==> windows[k].symbol in lastExit
  }

  ghost predicate LatestOf(windows: seq<Window>, chosen: set<int>, symbol: Symbol, k: int)
    requires forall k :: k in chosen ==> 0 <= k < |windows|
  {
    k in chosen && windows[k].symbol == symbol && forall m :: m in chosen && m > k ==> windows[m].symbol != symbol
  }

  /** The test of the loop. */
  ghost predicate Overlaps(w: Window, lastExit: map<Symbol, Time>) {
    w.symbol in lastExit && w.entry < lastExit[w.symbol]
  }

  lemma FreeIff(windows: seq<Window>, chosen: set<int>, n: int, lastExit: map<Symbol, Time>)
    requires 0 <= n < |windows| && (forall k :: k in chosen ==> 0 <= k < n)
    requires ExitsChosen(windows, chosen, n, lastExit)
    ensures FreeOf(windows, chosen)(n) <==> !Overlaps(windows[n], lastExit)
  {
    var s := windows[n].symbol;
    if s in lastExit {
      var k :| LatestOf(windows, chosen, s, k) && windows[k].exit == lastExit[s];
      assert LastChosen(windows, chosen, k, n);
    }
  }

  /** What is chosen from `n` on does not change what was free up to there. */
  lemma FreeBefore(windows: seq<Window>, chosen: set<int>, n: int, i: int)
    requires 0 <= i <= n < |windows| && (forall k :: k in chosen ==> 0 <= k < n)
    ensures FreeOf(windows, chosen + {n})(i) <==> FreeOf(windows, chosen)(i)
  {
    forall j ensures LastChosen(windows, chosen + {n}, j, i) <==> LastChosen(windows, chosen, j, i) {
    }
  }

  lemma ChooseNext(free: int -> bool, more: int -> bool, chosen: set<int>, n: int)
    requires 0 <= n && ChosenBy(free, chosen, n) && free(n) && forall i :: 0 <= i <= n ==> more(i) == free(i)
    ensures ChosenBy(more, chosen + {n}, n + 1)
  {
  }

  lemma PassNext(free: int -> bool, chosen: set<int>, n: int)
    requires 0 <= n && ChosenBy(free, chosen, n) && !free(n)
    ensures ChosenBy(free, chosen, n + 1)
  {
  }

  lemma ChooseOne(windows: seq<Window>, chosen: set<int>, n: int, lastExit: map<Symbol, Time>)
    requires 0 <= n < |windows| && GreedyTo(windows, chosen, n) && ExitsChosen(windows, chosen, n, lastExit)
    requires !Overlaps(windows[n], lastExit)
    ensures GreedyTo(windows, chosen + {n}, n + 1)
  {
    FreeIff(windows, chosen, n, lastExit);
    forall i | 0 <= i <= n ensures FreeOf(windows, chosen + {n})(i) == FreeOf(windows, chosen)(i) {
      FreeBefore(windows, chosen, n, i);
    }
    ChooseNext(FreeOf(windows, chosen), FreeOf(windows, chosen + {n}), chosen, n);
  }

  lemma ExitsNext(windows: seq<Window>, chosen: set<int>, n: int, lastExit: map<Symbol, Time>)
    requires 0 <= n < |windows| && (forall k :: k in chosen ==> 0 <= k < n)
    requires ExitsChosen(windows, chosen, n, lastExit)
    ensures ExitsChosen(windows, chosen + {n}, n + 1, lastExit[windows[n].symbol := windows[n].exit])
  {
    var more, w := chosen + {n}, windows[n];
    var exits := lastExit[w.symbol := w.exit];
    forall s | s in exits ensures exists k :: LatestOf(windows, more, s, k) && windows[k].exit == exits[s] {
      if s == w.symbol {
        assert LatestOf(windows, more, s, n);
      } else {
        var k :| LatestOf(windows, chosen, s, k) && windows[k].exit == lastExit[s];
        assert LatestOf(windows, more, s, k);
      }
    }
  }

  lemma PassOne(windows: seq<Window>, chosen: set<int>, n: int, lastExit: map<Symbol, Time>)
    requires 0 <= n < |windows| && GreedyTo(windows, chosen, n) && ExitsChosen(windows, chosen, n, lastExit)
    requires Overlaps(windows[n], lastExit)
    ensures GreedyTo(windows, chosen, n + 1)
  {
    FreeIff(windows, chosen, n, lastExit);
    PassNext(FreeOf(windows, chosen), chosen, n);
  }

  lemma {:induction false} CountedMeans(windows: seq<Window>, chosen: set<int>, n: nat, lastExit: map<Symbol, Time>)
    returns (all: set<int>)
    requires n <= |windows| && GreedyTo(windows, chosen, n) && ExitsChosen(windows, chosen, n, lastExit)
    ensures GreedyTo(windows, all, |windows|)
    ensures |all| == |chosen| + |Counted(windows[n..], lastExit)|
    decreases |windows| - n
  {
    if n == |windows| {
      return chosen;
    }
    var w := windows[n];
    assert windows[n..][0] == w && windows[n..][1..] == windows[n + 1..];
    if Overlaps(w, lastExit) {
      PassOne(windows, chosen, n, lastExit);
      all := CountedMeans(windows, chosen, n + 1, lastExit);
    } else {
      ChooseOne(windows, chosen, n, lastExit);
      ExitsNext(windows, chosen, n, lastExit);
      assert n !in chosen;
      all := CountedMeans(windows, chosen + {n}, n + 1, lastExit[w.symbol := w.exit]);
    }
  }

  lemma IndependentMeans(rows: seq<Row>)
    ensures IndependentSeen(rows, |IndependentWindows(rows)|)
  {
    var windows := SortBy(WindowsOf(rows), WindowBefore);
    SortedWindows(rows);
    assert windows[0..] == windows;
    var chosen := CountedMeans(windows, {}, 0, map[]);
  }

  // ----- the groups of labelled rows

  ghost function OfKind(horizon: nat, action: Action, now: Time): Row -> bool {
    (r: Row) => r.labelAt.Some? && r.labelAt.value <= now && r.horizon == horizon && r.action == action
  }

  ghost function KindGross(horizon: nat, action: Action, now: Time): Row -> Option<real> {
    (r: Row) =>
      if r.labelAt.Some? && r.labelAt.value <= now && r.horizon == horizon && r.action == action then r.grossBps
        else None
  }

  ghost function KindNet(horizon: nat, action: Action, now: Time): Row -> Option<real> {
    (r: Row) =>
      if r.labelAt.Some? && r.labelAt.value <= now && r.horizon == horizon && r.action == action then r.netBps else None
  }

  ghost predicate GroupSeen(g: ForwardGroup, rows: seq<Row>, now: Time) {
    && g.observations == CountIf(rows, OfKind(g.horizon, g.action, now)) && g.observations > 0
    && MeanOver(rows, KindGross(g.horizon, g.action, now), g.grossMean)
    && MeanOver(rows, KindNet(g.horizon, g.action, now), g.netMean)
  }

  ghost predicate HasGroup(r: Row, groups: seq<ForwardGroup>) {
    exists i :: 0 <= i < |groups| && groups[i].horizon == r.horizon && groups[i].action == r.action
  }

  /** One group for each horizon and action with labelled rows, in that order. */
  ghost predicate GroupsSeen(groups: seq<ForwardGroup>, rows: seq<Row>, now: Time) {
    && (forall i {:trigger GroupSeen(groups[i], rows, now)} :: 0 <= i < |groups| ==> GroupSeen(groups[i], rows, now))
    && (forall i {:trigger HasGroup(rows[i], groups)} :: 0 <= i < |rows| && HasLabel(now)(rows[i]) ==>
          HasGroup(rows[i], groups))
    && GroupsInOrder(groups)
  }

  ghost predicate GroupsInOrder(groups: seq<ForwardGroup>) {
    forall i, j :: 0 <= i < j < |groups| ==>
         groups[i].horizon < groups[j].horizon
         || (groups[i].horizon == groups[j].horizon && ActionRank(groups[i].action) < ActionRank(groups[j].action))
  }

  /** Labelled rows of one kind. */
  function KindRows(rows: seq<Row>, pair: (nat, Action), now: Time): seq<Row> {
    InGroup(MaturedRows(rows, now), pair)
  }

  lemma KindHead(rows: seq<Row>, pair: (nat, Action), now: Time)
    requires rows != []
    ensures KindRows(rows, pair, now)
         == if OfKind(pair.0, pair.1, now)(rows[0]) then [rows[0]] + KindRows(rows[1..], pair, now)
            else KindRows(rows[1..], pair, now)
  {
    var rest := MaturedRows(rows[1..], now);
    if Matured(rows[0], now) {
      assert ([rows[0]] + rest)[1..] == rest;
    } else {
      assert MaturedRows(rows, now) == rest;
    }
  }

  lemma {:induction false} KindCounts(rows: seq<Row>, pair: (nat, Action), now: Time)
    ensures |KindRows(rows, pair, now)| == CountIf(rows, OfKind(pair.0, pair.1, now))
    decreases |rows|
  {
    if rows != [] {
      KindCounts(rows[1..], pair, now);
      KindHead(rows, pair, now);
    }
  }

  lemma {:induction false} KindGrossCounts(rows: seq<Row>, pair: (nat, Action), now: Time)
    ensures var gross := Present(GrossValues(KindRows(rows, pair, now)));
            |gross| == Valued(rows, KindGross(pair.0, pair.1, now))
            && Sum(gross) == SumOf(rows, KindGross(pair.0, pair.1, now))
    decreases |rows|
  {
    if rows != [] {
      var rest := KindRows(rows[1..], pair, now);
      KindGrossCounts(rows[1..], pair, now);
      KindHead(rows, pair, now);
      if OfKind(pair.0, pair.1, now)(rows[0]) {
        PresentHead(rows[0].grossBps, GrossValues(rest));
        assert GrossValues([rows[0]] + rest) == [rows[0].grossBps] + GrossValues(rest);
      }
    }
  }

  lemma {:induction false} KindNetCounts(rows: seq<Row>, pair: (nat, Action), now: Time)
    ensures var net := Present(NetValues(KindRows(rows, pair, now)));
            |net| == Valued(rows, KindNet(pair.0, pair.1, now))
            && Sum(net) == SumOf(rows, KindNet(pair.0, pair.1, now))
    decreases |rows|
  {
    if rows != [] {
      var rest := KindRows(rows[1..], pair, now);
      KindNetCounts(rows[1..], pair, now);
      KindHead(rows, pair, now);
      if OfKind(pair.0, pair.1, now)(rows[0]) {
        PresentHead(rows[0].netBps, NetValues(rest));
        assert NetValues([rows[0]] + rest) == [rows[0].netBps] + NetValues(rest);
      }
    }
  }

  lemma {:induction false} KindIsThere(matured: seq<Row>, pair: (nat, Action))
    requires pair in HorizonActions(matured)
    ensures InGroup(matured, pair) != []
    decreases |matured|
  {
    if (matured[0].horizon, matured[0].action) != pair {
      KindIsThere(matured[1..], pair);
    }
  }

  lemma GroupMeans(rows: seq<Row>, pair: (nat, Action), now: Time)
    requires pair in HorizonActions(MaturedRows(rows, now))
    ensures GroupSeen(GroupOf(MaturedRows(rows, now), pair), rows, now)
  {
    KindCounts(rows, pair, now);
    KindGrossCounts(rows, pair, now);
    KindNetCounts(rows, pair, now);
    KindIsThere(MaturedRows(rows, now), pair);
  }

  lemma PairBeforeTotal()
    ensures TotalPreorder(PairBefore)
    ensures forall a, b :: PairBefore(a, b) && PairBefore(b, a) ==> a == b
  {
  }

  ghost predicate PairsInOrder(pairs: seq<(nat, Action)>) {
    forall i, j :: 0 <= i < j < |pairs| ==> pairs[i] != pairs[j] && PairBefore(pairs[i], pairs[j])
  }

  lemma PairsSorted(matured: seq<Row>)
    ensures var pairs := SortBy(Distinct(HorizonActions(matured)), PairBefore);
            && (forall p :: p in pairs <==> p in HorizonActions(matured))
            && PairsInOrder(pairs)
  {
    var all := HorizonActions(matured);
    var found := Distinct(all);
    DistinctElements(all);
    PairBeforeTotal();
    SortBySorted(found, PairBefore);
    SortByPermutes(found, PairBefore);
    DistinctPermutation(found, SortBy(found, PairBefore));
  }

  lemma GroupsMean(rows: seq<Row>, now: Time)
    ensures GroupsSeen(GroupsOf(MaturedRows(rows, now)), rows, now)
  {
    var matured := MaturedRows(rows, now);
    var pairs := SortBy(Distinct(HorizonActions(matured)), PairBefore);
    var groups := GroupsOf(matured);
    PairsSorted(matured);
    forall i | 0 <= i < |groups| ensures GroupSeen(groups[i], rows, now) {
      GroupMeans(rows, pairs[i], now);
    }
    forall i | 0 <= i < |rows| && HasLabel(now)(rows[i]) ensures HasGroup(rows[i], groups) {
      assert rows[i] in matured;
      RowHasGroup(matured, rows[i]);
    }
    GroupsAscend(matured);
  }

  lemma RowHasGroup(matured: seq<Row>, r: Row)
    requires r in matured
    ensures HasGroup(r, GroupsOf(matured))
  {
    var all, pairs := HorizonActions(matured), SortBy(Distinct(HorizonActions(matured)), PairBefore);
    PairsSorted(matured);
    var k :| 0 <= k < |matured| && matured[k] == r;
    assert all[k] == (r.horizon, r.action) && all[k] in all;
    var m :| 0 <= m < |pairs| && pairs[m] == all[k];
    GroupsForPairs(matured, pairs);
  }

  /** The groups are those of the sorted pairs. */
  ghost predicate ForPairs(groups: seq<ForwardGroup>, pairs: seq<(nat, Action)>) {
    && |groups| == |pairs|
    && forall i :: 0 <= i < |groups| ==> groups[i].horizon == pairs[i].0 && groups[i].action == pairs[i].1
  }

  lemma GroupsForPairs(matured: seq<Row>, pairs: seq<(nat, Action)>)
    ensures ForPairs(GroupsFor(matured, pairs), pairs)
  {
    var groups := GroupsFor(matured, pairs);
    forall i | 0 <= i < |groups| ensures groups[i].horizon == pairs[i].0 && groups[i].action == pairs[i].1 {
      assert groups[i] == GroupOf(matured, pairs[i]);
    }
  }

  lemma PairsAscend(groups: seq<ForwardGroup>, pairs: seq<(nat, Action)>)
    requires ForPairs(groups, pairs)
    requires PairsInOrder(pairs)
    ensures GroupsInOrder(groups)
  {
    forall i, j | 0 <= i < j < |groups|
      ensures groups[i].horizon < groups[j].horizon
              || (groups[i].horizon == groups[j].horizon && ActionRank(groups[i].action) < ActionRank(groups[j].action))
    {
      assert pairs[i] != pairs[j] && PairBefore(pairs[i], pairs[j]);
    }
  }

  lemma GroupsAscend(matured: seq<Row>)
    ensures GroupsInOrder(GroupsOf(matured))
  {
    var pairs := SortBy(Distinct(HorizonActions(matured)), PairBefore);
    assert PairsInOrder(pairs) by {
      PairsSorted(matured);
    }
    GroupsForPairs(matured, pairs);
    PairsAscend(GroupsFor(matured, pairs), pairs);
  }

  // ----- the order of names

  ghost function SymbolName(s: Symbol): string {
    match s case BTCUSDT => "BTCUSDT" case ETHUSDT => "ETHUSDT" case SOLUSDT => "SOLUSDT" case BNBUSDT => "BNBUSDT"
  }

  ghost function ActionName(a: Action): string {
    match a
    case Defer => "DEFER"
    case ReviewEntry => "REVIEW_ENTRY"
    case KeepBaseline => "KEEP_BASELINE"
    case NoView => "NO_VIEW"
  }

  /** Ranks order symbols and actions by their names. */
  lemma RanksAreNames(s: Symbol, t: Symbol, a: Action, b: Action)
    ensures SymbolRank(s) <= SymbolRank(t) <==> NotAfter(SymbolName(s), SymbolName(t))
    ensures ActionRank(a) <= ActionRank(b) <==> NotAfter(ActionName(a), ActionName(b))
  {
    NotAfterTotal(SymbolName(s), SymbolName(t));
    NotAfterTotal(ActionName(a), ActionName(b));
  }

  // ----- the report

  /** The figures of a summary, said of the scope's rows. */
  ghost predicate SummarySeen(s: Summary, rows: seq<Row>, scope: Scope, now: Time) {
    && ScopeSeen(s.scope, scope) && CountsSeen(s, rows, now)
    && IndependentSeen(rows, s.independent) && s.overlapping == |rows| - s.independent
    && GroupsSeen(s.groups, rows, now)
  }

  lemma SummaryMeans(rows: seq<Row>, scope: Scope, now: Time)
    ensures SummarySeen(Summarize(rows, scope, now), rows, scope, now)
  {
    ScopeMeans(scope);
    CountsMean(rows, scope, now);
    IndependentMeans(rows);
    GroupsMean(rows, now);
  }

  /** The parts of an `ObservedForwardSummary`. */
  datatype ForwardReport = ForwardReport(summary: Summary, registration: RegistrationCoverage, byGroup: seq<Group>)

  /** The registration report is exact for the rows. */
  ghost predicate Covers(report: RegistrationCoverage, rows: seq<Row>, now: Time) {
    && report.first == FirstEntry(rows) && report.due == now - now % HOUR && |report.bySymbol| == |SYMBOLS|
    && IsDue(Expected(report.first, report.due), rows, report.due)
    && forall i :: 0 <= i < |SYMBOLS| ==>
         Exact(report.bySymbol[i], rows, Expected(report.first, report.due), report.due)
  }

  /** The whole report, said of the scope's rows. */
  ghost predicate ReportSeen(report: ForwardReport, rows: seq<Row>, table: Table, scope: Scope, now: Time) {
    && RowsSeen(rows, table, scope) && SummarySeen(report.summary, rows, scope, now)
    && Reports(report.byGroup, rows, now) && Covers(report.registration, rows, scope.until)
  }

  ghost predicate SymbolsFixed(table: Table) {
    forall a, b :: a in table && b in table && a.opportunity == b.opportunity ==>
      table[a].advice.symbol == table[b].advice.symbol
  }

  lemma RowsFixSymbols(rows: seq<Row>, table: Table, scope: Scope)
    requires WellFormed(table) && ListsScope(rows, table, scope) && SymbolsFixed(table)
    ensures FixesSymbol(rows)
  {
    forall a, b | a in rows && b in rows && a.opportunity == b.opportunity ensures a.symbol == b.symbol {
      var k :| k in table && a == RowOf(table[k]) && k == Ledger.Key(a.opportunity, a.horizon, scope.experiment);
      var m :| m in table && b == RowOf(table[m]) && m == Ledger.Key(b.opportunity, b.horizon, scope.experiment);
    }
  }

  lemma ReportMeans(report: ForwardReport, rows: seq<Row>, table: Table, scope: Scope, now: Time)
    requires WellFormed(table) && ListsScope(rows, table, scope)
    requires report.summary == Summarize(rows, scope, now) && Reports(report.byGroup, rows, now)
    requires Covers(report.registration, rows, scope.until)
    ensures ReportSeen(report, rows, table, scope, now)
  {
    SummaryMeans(rows, scope, now);
    ListedRowsSeen(rows, table, scope);
  }

  /** When the scope is explicit and within the bounds of the report. */
  ghost predicate Reportable(scope: Scope, now: Time) {
    && 1 <= |scope.experiment| <= 128 && 1 <= |scope.strategyVersion| <= 128
    && 1 <= |set v | v in scope.costVersions| <= 4 && "" !in scope.costVersions
    && scope.from <= scope.until && scope.until <= now
  }

  lemma ReportableIff(scope: Scope, now: Time)
    ensures Reportable(scope, now) <==> ExplicitScope(scope, now) && Bounded(scope)
  {
    var versions := set v | v in scope.costVersions;
    DistinctSize(scope.costVersions, versions);
    DistinctNonEmpty(scope.costVersions);
  }

  /** `summary`: on every table that some list of accepted receipts produces, with opportunities
      that fix their symbol, it passes all its contracts, unless the scope is not explicit or
      beyond the bounds of the report, which raises. */
  method Report(table: Table, scope: Scope, now: Time, ghost list: seq<Published>) returns (r: Option<ForwardReport>)
    requires Refines(table, list) && Accepted(list) && WellFormed(table) && SymbolsFixed(table)
    ensures r.Some? <==> Reportable(scope, now)
    ensures r.Some? ==>
              exists rows :: ReportSeen(r.value, rows, table, scope, now)
                             && r.value.summary == Summarize(rows, scope, now)
                             && DisjointWindows(IndependentWindows(rows))
    ensures r.Some? ==>
              && r.value.summary.Valid() && r.value.registration.Valid()
              && TotalObservations(r.value.summary.groups) == r.value.summary.matured
              && |r.value.byGroup| <= 32 && forall i :: 0 <= i < |r.value.byGroup| ==> r.value.byGroup[i].Valid()
  {
    ReportableIff(scope, now);
    if !ExplicitScope(scope, now) {
      return None;
    }
    var rows := SelectRows(table, scope);
    ScopedRows(rows, table, list, scope);
    RowsFixSymbols(rows, table, scope);
    SummaryValid(rows, scope, now);
    var registration := RegistrationReport(rows, scope.until);
    var groups := MatureNonOverlapping(rows, now);
    ReportFits(groups, rows, now);
    if !Bounded(scope) {
      return None;
    }
    r := Some(ForwardReport(Summarize(rows, scope, now), registration, groups));
    ReportMeans(r.value, rows, table, scope, now);
  }
}
