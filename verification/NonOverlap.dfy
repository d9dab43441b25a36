/** `mature_non_overlapping`: the earliest registered windows that do not overlap, chosen per
    symbol and horizon before any outcome is looked at. */
module NonOverlap {
  import opened Contracts
  import opened Sorting
  import opened Tally

  /** A registered observation as the diagnostics read it. */
  datatype Row = Row(
    symbol: Symbol, opportunity: Id, horizon: nat, action: Action,
    publishedAt: Time, entryAt: Time, exitAt: Time,
    labelAt: Option<Time>, grossBps: Option<real>, netBps: Option<real>)

  /** Symbols and actions in the order of their names. */
  function SymbolRank(s: Symbol): nat {
    match s case BNBUSDT => 0 case BTCUSDT => 1 case ETHUSDT => 2 case SOLUSDT => 3
  }

  function ActionRank(a: Action): nat {
    match a case Defer => 0 case KeepBaseline => 1 case NoView => 2 case ReviewEntry => 3
  }

  predicate RowBefore(a: Row, b: Row) {
    if a.entryAt != b.entryAt then a.entryAt < b.entryAt
    else if a.symbol != b.symbol then SymbolRank(a.symbol) < SymbolRank(b.symbol)
    else if a.horizon != b.horizon then a.horizon < b.horizon
    else a.opportunity <= b.opportunity
  }

  lemma RowBeforeTotal()
    ensures TotalPreorder(RowBefore)
  {
  }

  predicate Matches(r: Row, symbol: Symbol, horizon: nat) {
    r.symbol == symbol && r.horizon == horizon
  }

  /** The greedy choice among rows in registration order, after a window that ended at `last`. */
  function Select(rows: seq<Row>, symbol: Symbol, horizon: nat, last: Option<Time>): seq<Row> {
    if rows == [] then []
    else if Matches(rows[0], symbol, horizon) && !(last.Some? && rows[0].entryAt < last.value) then
      [rows[0]] + Select(rows[1..], symbol, horizon, Some(rows[0].exitAt))
    else Select(rows[1..], symbol, horizon, last)
  }

  function Selection(rows: seq<Row>, symbol: Symbol, horizon: nat): seq<Row> {
    Select(SortBy(rows, RowBefore), symbol, horizon, None)
  }

  // ----- what the choice means

  ghost predicate Disjoint(a: Row, b: Row) {
    a.exitAt <= b.entryAt || b.exitAt <= a.entryAt
  }

  ghost predicate NoOverlap(rows: seq<Row>) {
    forall i, j :: 0 <= i < j < |rows| ==> Disjoint(rows[i], rows[j])
  }

  /** Acceptance fixes the exit: the entry plus the horizon. */
  ghost predicate Windows(rows: seq<Row>) {
    forall r :: r in rows ==> r.horizon > 0 && r.exitAt == r.entryAt + r.horizon * HOUR
  }

  lemma {:induction false} SelectedRows(rows: seq<Row>, symbol: Symbol, horizon: nat, last: Option<Time>)
    requires Sorted(rows, RowBefore) && Windows(rows)
    ensures var chosen := Select(rows, symbol, horizon, last);
            && (forall r :: r in chosen ==> r in rows && Matches(r, symbol, horizon)
                                            && (last.Some? ==> last.value <= r.entryAt))
            && (forall i, j :: 0 <= i < j < |chosen| ==> chosen[i].exitAt <= chosen[j].entryAt)
    decreases |rows|
  {
    if rows != [] {
      SelectedRows(rows[1..], symbol, horizon, Some(rows[0].exitAt));
      SelectedRows(rows[1..], symbol, horizon, last);
      var first := rows[0];
      if Matches(first, symbol, horizon) && !(last.Some? && first.entryAt < last.value) {
        assert first.exitAt > first.entryAt by {
          PositiveLength(first);
        }
      }
    }
  }

  lemma PositiveLength(r: Row)
    requires r.horizon > 0 && r.exitAt == r.entryAt + r.horizon * HOUR
    ensures r.exitAt >= r.entryAt + HOUR
  {
  }

  /** All but at most one of a set of disjoint windows start at or after the first one's end. */
  lemma DropFirstOverlap(other: seq<Row>, first: Row) returns (rest: seq<Row>)
    requires NoOverlap(other) && first.horizon > 0
    requires forall r :: r in other ==> r.horizon == first.horizon && r.entryAt >= first.entryAt
                                        && r.exitAt == r.entryAt + first.horizon * HOUR
    requires first.exitAt == first.entryAt + first.horizon * HOUR
    ensures |rest| >= |other| - 1 && NoOverlap(rest)
    ensures forall r :: r in rest ==> r in other && r.entryAt >= first.exitAt
  {
    if i :| 0 <= i < |other| && other[i].entryAt < first.exitAt {
      rest := other[..i] + other[i + 1..];
      forall r | r in rest ensures r in other && r.entryAt >= first.exitAt {
        var j :| 0 <= j < |other| && j != i && other[j] == r;
        assert Disjoint(other[if i < j then i else j], other[if i < j then j else i]);
      }
      forall a, b | 0 <= a < b < |rest| ensures Disjoint(rest[a], rest[b]) {
        assert rest[a] == other[if a < i then a else a + 1] && rest[b] == other[if b < i then b else b + 1];
      }
    } else {
      rest := other;
      forall r | r in rest ensures r.entryAt >= first.exitAt {
        var j :| 0 <= j < |other| && other[j] == r;
      }
    }
  }

  /** No set of disjoint windows of the key is larger than the greedy choice. */
  lemma {:induction false} SelectMaximum(
    rows: seq<Row>, symbol: Symbol, horizon: nat, last: Option<Time>, other: seq<Row>)
    requires Sorted(rows, RowBefore) && Windows(rows) && NoOverlap(other)
    requires forall r :: r in other ==>
               r in rows && Matches(r, symbol, horizon) && (last.Some? ==> last.value <= r.entryAt)
    ensures |other| <= |Select(rows, symbol, horizon, last)|
    decreases |rows|
  {
    assert other != [] ==> other[0] in rows;
    if rows != [] {
      var first := rows[0];
      if Matches(first, symbol, horizon) && !(last.Some? && first.entryAt < last.value) {
        forall r | r in other ensures r.entryAt >= first.entryAt {
          var j :| 0 <= j < |rows| && rows[j] == r;
          assert j > 0 ==> RowBefore(rows[0], rows[j]);
        }
        var rest := DropFirstOverlap(other, first);
        PositiveLength(first);
        forall r | r in rest ensures r in rows[1..] {
          var j :| 0 <= j < |rows| && rows[j] == r;
        }
        SelectMaximum(rows[1..], symbol, horizon, Some(first.exitAt), rest);
      } else {
        forall r | r in other ensures r in rows[1..] {
          var j :| 0 <= j < |rows| && rows[j] == r;
        }
        SelectMaximum(rows[1..], symbol, horizon, last, other);
      }
    }
  }

  /** Greedy optimality: for every symbol and horizon the selected rows are registered rows of
      that key with pairwise disjoint windows, and no other such choice has more of them. */
  lemma GreedyOptimal(rows: seq<Row>, symbol: Symbol, horizon: nat, other: seq<Row>)
    requires Windows(rows)
    ensures var chosen := Selection(rows, symbol, horizon);
            && NoOverlap(chosen) && (forall r :: r in chosen ==> r in rows && Matches(r, symbol, horizon))
            && (NoOverlap(other) && (forall r :: r in other ==> r in rows && Matches(r, symbol, horizon)) ==>
                  |other| <= |chosen|)
  {
    RowBeforeTotal();
    var sorted := SortBy(rows, RowBefore);
    SortBySorted(rows, RowBefore);
    SelectedRows(sorted, symbol, horizon, None);
    if NoOverlap(other) && forall r :: r in other ==> r in rows && Matches(r, symbol, horizon) {
      SelectMaximum(sorted, symbol, horizon, None, other);
    }
  }

  // ----- what the choice does not depend on

  /** Equal in what was registered; action, labels and returns may differ. */
  ghost predicate SameRegistration(a: Row, b: Row) {
    && a.symbol == b.symbol && a.horizon == b.horizon && a.opportunity == b.opportunity
    && a.entryAt == b.entryAt && a.exitAt == b.exitAt
  }

  ghost predicate SameRegistrations(a: seq<Row>, b: seq<Row>) {
    |a| == |b| && forall i :: 0 <= i < |a| ==> SameRegistration(a[i], b[i])
  }

  lemma {:induction false} InsertSame(x: Row, y: Row, a: seq<Row>, b: seq<Row>)
    requires SameRegistration(x, y) && SameRegistrations(a, b)
    ensures SameRegistrations(Insert(x, a, RowBefore), Insert(y, b, RowBefore))
    decreases |a|
  {
    if a != [] && !RowBefore(x, a[0]) {
      InsertSame(x, y, a[1..], b[1..]);
    }
  }

  lemma {:induction false} SortSame(a: seq<Row>, b: seq<Row>)
    requires SameRegistrations(a, b)
    ensures SameRegistrations(SortBy(a, RowBefore), SortBy(b, RowBefore))
    decreases |a|
  {
    if a != [] {
      SortSame(a[1..], b[1..]);
      InsertSame(a[0], b[0], SortBy(a[1..], RowBefore), SortBy(b[1..], RowBefore));
    }
  }

  lemma {:induction false} SelectSame(a: seq<Row>, b: seq<Row>, symbol: Symbol, horizon: nat, last: Option<Time>)
    requires SameRegistrations(a, b)
    ensures SameRegistrations(Select(a, symbol, horizon, last), Select(b, symbol, horizon, last))
    decreases |a|
  {
    if a != [] {
      SelectSame(a[1..], b[1..], symbol, horizon, Some(a[0].exitAt));
      SelectSame(a[1..], b[1..], symbol, horizon, last);
    }
  }

  /** Labels, returns and actions cannot shift the sample: however they are changed, the same
      registrations are selected, in the same order. */
  lemma SelectionIgnoresOutcomes(a: seq<Row>, b: seq<Row>, symbol: Symbol, horizon: nat)
    requires SameRegistrations(a, b)
    ensures SameRegistrations(Selection(a, symbol, horizon), Selection(b, symbol, horizon))
  {
    SortSame(a, b);
    SelectSame(SortBy(a, RowBefore), SortBy(b, RowBefore), symbol, horizon, None);
  }

  /** The query returns rows in no particular order; with one row per opportunity and horizon
      (the table's key within one experiment) the selection is the same for all of them. */
  lemma SelectionIgnoresOrder(a: seq<Row>, b: seq<Row>, symbol: Symbol, horizon: nat)
    requires multiset(a) == multiset(b)
    requires forall x, y :: x in a && y in a && x.opportunity == y.opportunity && x.horizon == y.horizon ==> x == y
    ensures Selection(a, symbol, horizon) == Selection(b, symbol, horizon)
  {
    RowBeforeTotal();
    SortBySorted(a, RowBefore);
    SortBySorted(b, RowBefore);
    SortByPermutes(a, RowBefore);
    SortByPermutes(b, RowBefore);
    SortedUnique(SortBy(a, RowBefore), SortBy(b, RowBefore), RowBefore);
  }

  // ----- the loops

  datatype Key = Key(symbol: Symbol, horizon: nat, action: Action)

  predicate KeyBefore(a: Key, b: Key) {
    if a.symbol != b.symbol then SymbolRank(a.symbol) < SymbolRank(b.symbol)
    else if a.horizon != b.horizon then a.horizon < b.horizon
    else ActionRank(a.action) <= ActionRank(b.action)
  }

  function WithAction(rows: seq<Row>, action: Action): seq<Row> {
    if rows == [] then []
    else (if rows[0].action == action then [rows[0]] else []) + WithAction(rows[1..], action)
  }

  function GroupRows(sorted: seq<Row>, key: Key): seq<Row> {
    WithAction(Select(sorted, key.symbol, key.horizon, None), key.action)
  }

  function LastExit(chosen: seq<Row>, last: Option<Time>): Option<Time> {
    if chosen == [] then last else Some(chosen[|chosen| - 1].exitAt)
  }

  lemma {:induction false} SelectAppend(rows: seq<Row>, r: Row, symbol: Symbol, horizon: nat, last: Option<Time>)
    ensures var chosen := Select(rows, symbol, horizon, last);
            var end := LastExit(chosen, last);
            Select(rows + [r], symbol, horizon, last)
            == chosen + if Matches(r, symbol, horizon) && !(end.Some? && r.entryAt < end.value) then [r] else []
    decreases |rows|
  {
    if rows == [] {
      assert rows + [r] == [r];
    } else {
      assert (rows + [r])[0] == rows[0] && (rows + [r])[1..] == rows[1..] + [r];
      SelectAppend(rows[1..], r, symbol, horizon, Some(rows[0].exitAt));
      SelectAppend(rows[1..], r, symbol, horizon, last);
    }
  }

  lemma {:induction false} WithActionAppend(rows: seq<Row>, more: seq<Row>, action: Action)
    ensures WithAction(rows + more, action) == WithAction(rows, action) + WithAction(more, action)
    decreases |rows|
  {
    if rows == [] {
      assert rows + more == more;
    } else {
      assert (rows + more)[0] == rows[0] && (rows + more)[1..] == rows[1..] + more;
      WithActionAppend(rows[1..], more, action);
    }
  }

  function ExitOf(lastExit: map<(Symbol, nat), Time>, symbol: Symbol, horizon: nat): Option<Time> {
    if (symbol, horizon) in lastExit then Some(lastExit[(symbol, horizon)]) else None
  }

  function RowsOf(groups: map<Key, seq<Row>>, key: Key): seq<Row> {
    if key in groups then groups[key] else []
  }

  /** What the selection loop has in its two dictionaries after the rows of `sorted`. */
  ghost predicate ExitsCollected(sorted: seq<Row>, lastExit: map<(Symbol, nat), Time>) {
    forall symbol, horizon: nat ::
      LastExit(Select(sorted, symbol, horizon, None), None) == ExitOf(lastExit, symbol, horizon)
  }

  ghost predicate GroupsCollected(sorted: seq<Row>, groups: map<Key, seq<Row>>) {
    forall key :: GroupRows(sorted, key) == RowsOf(groups, key)
  }

  lemma GroupAppend(sorted: seq<Row>, r: Row, key: Key)
    ensures var end := LastExit(Select(sorted, key.symbol, key.horizon, None), None);
            GroupRows(sorted + [r], key) == GroupRows(sorted, key)
              + if Matches(r, key.symbol, key.horizon) && !(end.Some? && r.entryAt < end.value)
                && r.action == key.action
                then [r] else []
  {
    SelectAppend(sorted, r, key.symbol, key.horizon, None);
    var chosen := Select(sorted, key.symbol, key.horizon, None);
    WithActionAppend(chosen, Select(sorted + [r], key.symbol, key.horizon, None)[|chosen|..], key.action);
    assert Select(sorted + [r], key.symbol, key.horizon, None)
        == chosen + Select(sorted + [r], key.symbol, key.horizon, None)[|chosen|..];
  }

  predicate PassedOver(r: Row, lastExit: map<(Symbol, nat), Time>) {
    (r.symbol, r.horizon) in lastExit && r.entryAt < lastExit[(r.symbol, r.horizon)]
  }

  lemma ExitsStep(sorted: seq<Row>, r: Row, lastExit: map<(Symbol, nat), Time>)
    requires ExitsCollected(sorted, lastExit)
    ensures ExitsCollected(sorted + [r],
                           if PassedOver(r, lastExit) then lastExit else lastExit[(r.symbol, r.horizon) := r.exitAt])
  {
    var lastExit' := if PassedOver(r, lastExit) then lastExit else lastExit[(r.symbol, r.horizon) := r.exitAt];
    forall symbol, horizon: nat
      ensures LastExit(Select(sorted + [r], symbol, horizon, None), None) == ExitOf(lastExit', symbol, horizon)
    {
      SelectAppend(sorted, r, symbol, horizon, None);
      assert LastExit(Select(sorted, symbol, horizon, None), None) == ExitOf(lastExit, symbol, horizon);
    }
  }

  lemma GroupsStep(sorted: seq<Row>, r: Row, lastExit: map<(Symbol, nat), Time>, groups: map<Key, seq<Row>>)
    requires ExitsCollected(sorted, lastExit) && GroupsCollected(sorted, groups)
    ensures var key := Key(r.symbol, r.horizon, r.action);
            GroupsCollected(sorted + [r],
                            if PassedOver(r, lastExit) then groups else groups[key := RowsOf(groups, key) + [r]])
  {
    var own := Key(r.symbol, r.horizon, r.action);
    var groups' := if PassedOver(r, lastExit) then groups else groups[own := RowsOf(groups, own) + [r]];
    forall key: Key ensures GroupRows(sorted + [r], key) == RowsOf(groups', key) {
      GroupAppend(sorted, r, key);
      assert LastExit(Select(sorted, key.symbol, key.horizon, None), None) == ExitOf(lastExit, key.symbol, key.horizon);
      assert GroupRows(sorted, key) == RowsOf(groups, key);
    }
  }

  /** The loop over the sorted rows; a row that starts before the last exit is passed over. */
  method CollectGroups(sorted: seq<Row>) returns (groups: map<Key, seq<Row>>, keys: seq<Key>)
    ensures GroupsCollected(sorted, groups)
    ensures forall key :: key in groups ==> groups[key] != []
    ensures forall key :: key in keys <==> key in groups
    ensures forall i, j :: 0 <= i < j < |keys| ==> keys[i] != keys[j]
  {
    var lastExit: map<(Symbol, nat), Time> := map[];
    groups, keys := map[], [];
    for i := 0 to |sorted|
      invariant ExitsCollected(sorted[..i], lastExit) && GroupsCollected(sorted[..i], groups)
      invariant forall key :: key in groups ==> groups[key] != []
      invariant forall key :: key in keys <==> key in groups
      invariant forall a, b :: 0 <= a < b < |keys| ==> keys[a] != keys[b]
    {
      var row := sorted[i];
      assert sorted[..i + 1] == sorted[..i] + [row];
      ExitsStep(sorted[..i], row, lastExit);
      GroupsStep(sorted[..i], row, lastExit, groups);
      if PassedOver(row, lastExit) {
        continue;
      }
      lastExit := lastExit[(row.symbol, row.horizon) := row.exitAt];
      var key := Key(row.symbol, row.horizon, row.action);
      if key in groups {
        groups := groups[key := groups[key] + [row]];
      } else {
        groups := groups[key := [] + [row]];
        keys := keys + [key];
      }
    }
    assert sorted[..|sorted|] == sorted;
  }

  // ----- the report

  /** `MatureNonOverlappingGroup`. */
  datatype Group = Group(
    key: Key, selected: nat, matured: nat, waiting: nat, missing: int,
    netObservations: nat, grossMean: Option<real>, netMean: Option<real>)
  {
    predicate Valid() {
      missing >= 0 && selected == matured + waiting + missing && netObservations <= matured
    }
  }

  predicate Matured(r: Row, now: Time) {
    r.labelAt.Some? && r.labelAt.value <= now
  }

  function MaturedRows(rows: seq<Row>, now: Time): (r: seq<Row>)
    ensures |r| <= |rows|
    ensures forall x :: x in r <==> x in rows && Matured(x, now)
  {
    if rows == [] then []
    else (if Matured(rows[0], now) then [rows[0]] else []) + MaturedRows(rows[1..], now)
  }

  /** Counts the rows outside `matured` that are still inside their window or its last bar. */
  function Waiting(rows: seq<Row>, matured: seq<Row>, now: Time): nat {
    if rows == [] then 0
    else (if rows[0] !in matured && rows[0].exitAt + HOUR > now then 1 else 0) + Waiting(rows[1..], matured, now)
  }

  function Present(values: seq<Option<real>>): (r: seq<real>)
    ensures |r| <= |values|
  {
    if values == [] then [] else (if values[0].Some? then [values[0].value] else []) + Present(values[1..])
  }

  function Sum(values: seq<real>): real {
    if values == [] then 0.0 else values[0] + Sum(values[1..])
  }

  function MeanOf(values: seq<real>): Option<real> {
    if values == [] then None else Some(Sum(values) / |values| as real)
  }

  function Describe(key: Key, rows: seq<Row>, now: Time): Group {
    var matured := MaturedRows(rows, now);
    var waiting := Waiting(rows, matured, now);
    var gross, net := Present(GrossValues(matured)), Present(NetValues(matured));
    Group(key, |rows|, |matured|, waiting, |rows| - |matured| - waiting, |net|, MeanOf(gross), MeanOf(net))
  }

  // ----- what a line says, said of the rows

  ghost function HasLabel(now: Time): Row -> bool {
    (r: Row) => r.labelAt.Some? && r.labelAt.value <= now
  }

  /** Without a label, and its window or the bar after it not over. */
  ghost function StillOpen(now: Time): Row -> bool {
    (r: Row) => !(r.labelAt.Some? && r.labelAt.value <= now) && now < r.exitAt + HOUR
  }

  ghost function Overdue(now: Time): Row -> bool {
    (r: Row) => !(r.labelAt.Some? && r.labelAt.value <= now) && r.exitAt + HOUR <= now
  }

  ghost function GrossOf(now: Time): Row -> Option<real> {
    (r: Row) => if r.labelAt.Some? && r.labelAt.value <= now then r.grossBps else None
  }

  ghost function NetOf(now: Time): Row -> Option<real> {
    (r: Row) => if r.labelAt.Some? && r.labelAt.value <= now then r.netBps else None
  }

  /** Every figure of a line, from the selected rows of its group. */
  ghost predicate Figures(g: Group, rows: seq<Row>, now: Time) {
    && g.selected == |rows| && g.matured == CountIf(rows, HasLabel(now))
    && g.waiting == CountIf(rows, StillOpen(now)) && g.missing == CountIf(rows, Overdue(now))
    && g.netObservations == Valued(rows, NetOf(now))
    && MeanOver(rows, GrossOf(now), g.grossMean) && MeanOver(rows, NetOf(now), g.netMean)
  }

  lemma {:induction false} MaturedCounts(rows: seq<Row>, now: Time)
    ensures |MaturedRows(rows, now)| == CountIf(rows, HasLabel(now))
    decreases |rows|
  {
    if rows != [] {
      MaturedCounts(rows[1..], now);
    }
  }

  lemma {:induction false} WaitingCounts(rows: seq<Row>, matured: seq<Row>, now: Time)
    requires forall r :: r in rows ==> (r in matured <==> HasLabel(now)(r))
    ensures Waiting(rows, matured, now) == CountIf(rows, StillOpen(now))
    decreases |rows|
  {
    if rows != [] {
      assert rows[0] in rows && forall r :: r in rows[1..] ==> r in rows;
      WaitingCounts(rows[1..], matured, now);
    }
  }

  function GrossValues(rows: seq<Row>): seq<Option<real>> {
    seq(|rows|, i requires 0 <= i < |rows| => rows[i].grossBps)
  }

  function NetValues(rows: seq<Row>): seq<Option<real>> {
    seq(|rows|, i requires 0 <= i < |rows| => rows[i].netBps)
  }

  lemma PresentHead(value: Option<real>, rest: seq<Option<real>>)
    ensures |Present([value] + rest)| == |Present(rest)| + if value.Some? then 1 else 0
    ensures Sum(Present([value] + rest)) == Sum(Present(rest)) + if value.Some? then value.value else 0.0
  {
    assert ([value] + rest)[1..] == rest;
    if value.Some? {
      assert ([value.value] + Present(rest))[1..] == Present(rest);
    } else {
      assert Present([value] + rest) == Present(rest);
    }
  }

  lemma {:induction false} GrossCounts(rows: seq<Row>, now: Time)
    ensures var gross := Present(GrossValues(MaturedRows(rows, now)));
            |gross| == Valued(rows, GrossOf(now)) && Sum(gross) == SumOf(rows, GrossOf(now))
    decreases |rows|
  {
    if rows != [] {
      GrossCounts(rows[1..], now);
      var matured := MaturedRows(rows, now);
      if Matured(rows[0], now) {
        PresentHead(rows[0].grossBps, GrossValues(MaturedRows(rows[1..], now)));
        assert GrossValues(matured) == [rows[0].grossBps] + GrossValues(MaturedRows(rows[1..], now));
      } else {
        assert matured == MaturedRows(rows[1..], now);
      }
    }
  }

  lemma {:induction false} NetCounts(rows: seq<Row>, now: Time)
    ensures var net := Present(NetValues(MaturedRows(rows, now)));
            |net| == Valued(rows, NetOf(now)) && Sum(net) == SumOf(rows, NetOf(now))
    decreases |rows|
  {
    if rows != [] {
      NetCounts(rows[1..], now);
      var matured := MaturedRows(rows, now);
      if Matured(rows[0], now) {
        PresentHead(rows[0].netBps, NetValues(MaturedRows(rows[1..], now)));
        assert NetValues(matured) == [rows[0].netBps] + NetValues(MaturedRows(rows[1..], now));
      } else {
        assert matured == MaturedRows(rows[1..], now);
      }
    }
  }

  lemma DescribedFigures(key: Key, rows: seq<Row>, now: Time)
    ensures Figures(Describe(key, rows, now), rows, now)
  {
    MaturedCounts(rows, now);
    WaitingCounts(rows, MaturedRows(rows, now), now);
    CountsPartition(rows, HasLabel(now), StillOpen(now), Overdue(now));
    GrossCounts(rows, now);
    NetCounts(rows, now);
  }

  lemma {:induction false} CountsDisjoint(rows: seq<Row>, matured: seq<Row>, now: Time)
    requires forall r :: r in rows && Matured(r, now) ==> r in matured
    ensures |MaturedRows(rows, now)| + Waiting(rows, matured, now) <= |rows|
    decreases |rows|
  {
    if rows != [] {
      CountsDisjoint(rows[1..], matured, now);
    }
  }

  method DescribeGroups(keys: seq<Key>, groups: map<Key, seq<Row>>, now: Time) returns (report: seq<Group>)
    requires forall key :: key in keys ==> key in groups
    ensures |report| == |keys|
    ensures forall i :: 0 <= i < |keys| ==> report[i] == Describe(keys[i], groups[keys[i]], now) && report[i].Valid()
  {
    report := [];
    for i := 0 to |keys|
      invariant |report| == i
      invariant forall a :: 0 <= a < i ==> report[a] == Describe(keys[a], groups[keys[a]], now) && report[a].Valid()
    {
      CountsDisjoint(groups[keys[i]], MaturedRows(groups[keys[i]], now), now);
      report := report + [Describe(keys[i], groups[keys[i]], now)];
    }
  }

  /** The selected rows of one group. */
  function ReportRows(rows: seq<Row>, key: Key): seq<Row> {
    WithAction(Selection(rows, key.symbol, key.horizon), key.action)
  }

  ghost predicate Lists(report: seq<Group>, key: Key) {
    exists i :: 0 <= i < |report| && report[i].key == key
  }

  ghost predicate AscendingKeys(keys: seq<Key>) {
    forall i, j :: 0 <= i < j < |keys| ==> keys[i] != keys[j] && KeyBefore(keys[i], keys[j])
  }

  /** The report describes exactly the groups that have selected rows. */
  ghost predicate Reports(report: seq<Group>, rows: seq<Row>, now: Time) {
    && (forall i :: 0 <= i < |report| ==>
          Figures(report[i], ReportRows(rows, report[i].key), now) && report[i].Valid())
    && (forall i, j :: 0 <= i < j < |report| ==>
          report[i].key != report[j].key && KeyBefore(report[i].key, report[j].key))
    && (forall key: Key :: Lists(report, key) <==> ReportRows(rows, key) != [])
  }

  lemma ReportComplete(report: seq<Group>, rows: seq<Row>, now: Time, groups: map<Key, seq<Row>>, keys: seq<Key>)
    requires forall key: Key :: ReportRows(rows, key) == RowsOf(groups, key)
    requires forall key :: key in groups ==> groups[key] != []
    requires forall key :: key in keys <==> key in groups
    requires AscendingKeys(keys)
    requires |report| == |keys|
    requires forall i :: 0 <= i < |keys| ==>
               keys[i] in groups && report[i] == Describe(keys[i], groups[keys[i]], now) && report[i].Valid()
    ensures Reports(report, rows, now)
  {
    forall i | 0 <= i < |report|
      ensures report[i].key == keys[i] && ReportRows(rows, keys[i]) == groups[keys[i]]
      ensures Figures(report[i], groups[keys[i]], now)
    {
      assert ReportRows(rows, keys[i]) == RowsOf(groups, keys[i]);
      DescribedFigures(keys[i], groups[keys[i]], now);
    }
    forall key: Key ensures Lists(report, key) <==> ReportRows(rows, key) != [] {
      assert ReportRows(rows, key) == RowsOf(groups, key);
      if key in keys {
        var i :| 0 <= i < |keys| && keys[i] == key;
        assert report[i].key == key;
      }
      if Lists(report, key) {
        var i :| 0 <= i < |report| && report[i].key == key;
        assert keys[i] == key;
      }
    }
  }

  /** The whole report: one valid line for each group that has selected rows, in key order. */
  method MatureNonOverlapping(rows: seq<Row>, now: Time) returns (report: seq<Group>)
    ensures Reports(report, rows, now)
  {
    var sorted := SortBy(rows, RowBefore);
    var groups, found := CollectGroups(sorted);
    var keys := SortBy(found, KeyBefore);
    SortedKeys(found);
    report := DescribeGroups(keys, groups, now);
    forall key: Key ensures ReportRows(rows, key) == RowsOf(groups, key) {
      assert ReportRows(rows, key) == GroupRows(sorted, key);
    }
    ReportComplete(report, rows, now, groups, keys);
  }

  lemma KeyBeforeTotal()
    ensures TotalPreorder(KeyBefore)
    ensures forall a, b :: KeyBefore(a, b) && KeyBefore(b, a) ==> a == b
  {
  }

  lemma SortedKeys(found: seq<Key>)
    requires forall i, j :: 0 <= i < j < |found| ==> found[i] != found[j]
    ensures AscendingKeys(SortBy(found, KeyBefore))
  {
    KeyBeforeTotal();
    SortBySorted(found, KeyBefore);
    SortByPermutes(found, KeyBefore);
    DistinctPermutation(found, SortBy(found, KeyBefore));
  }

  // ----- how many lines a report can have

  function HorizonRank(horizon: nat): nat {
    if horizon == 4 then 0 else 1
  }

  /** The place of a key among all symbols, horizons and actions. */
  function KeyRank(key: Key): (rank: nat)
    ensures rank < 32
  {
    SymbolRank(key.symbol) * 8 + HorizonRank(key.horizon) * 4 + ActionRank(key.action)
  }

  lemma RanksAscend(a: Key, b: Key)
    requires a.horizon in HORIZONS && b.horizon in HORIZONS && KeyBefore(a, b) && a != b
    ensures KeyRank(a) < KeyRank(b)
  {
    assert a.horizon == 4 || a.horizon == 24;
    assert b.horizon == 4 || b.horizon == 24;
    if a.action != b.action {
      assert ActionRank(a.action) != ActionRank(b.action);
    }
  }

  lemma {:induction false} RankAtLeast(report: seq<Group>, i: nat)
    requires i < |report| && forall k :: 0 <= k < |report| ==> report[k].key.horizon in HORIZONS
    requires forall a, b :: 0 <= a < b < |report| ==>
               report[a].key != report[b].key && KeyBefore(report[a].key, report[b].key)
    ensures KeyRank(report[i].key) >= i
    decreases i
  {
    if i > 0 {
      RankAtLeast(report, i - 1);
      RanksAscend(report[i - 1].key, report[i].key);
    }
  }

  /** Four symbols, two horizons, four actions: at most thirty-two lines. */
  lemma ReportFits(report: seq<Group>, rows: seq<Row>, now: Time)
    requires Reports(report, rows, now) && Windows(rows) && forall r :: r in rows ==> r.horizon in HORIZONS
    ensures |report| <= 32
  {
    forall k | 0 <= k < |report| ensures report[k].key.horizon in HORIZONS {
      var key, sorted := report[k].key, SortBy(rows, RowBefore);
      assert Lists(report, key);
      RowBeforeTotal();
      SortBySorted(rows, RowBefore);
      SelectedRows(sorted, key.symbol, key.horizon, None);
      WithActionIn(Selection(rows, key.symbol, key.horizon), key.action);
      var r := ReportRows(rows, key)[0];
      assert r in sorted && r.horizon == key.horizon;
    }
    if report != [] {
      RankAtLeast(report, |report| - 1);
    }
  }

  lemma {:induction false} WithActionIn(rows: seq<Row>, action: Action)
    ensures forall r :: r in WithAction(rows, action) ==> r in rows
    decreases |rows|
  {
    if rows != [] {
      WithActionIn(rows[1..], action);
      assert rows == [rows[0]] + rows[1..];
    }
  }
}
