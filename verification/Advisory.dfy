/** The advisory query: filter, latest per candidate, and the compact form, and how its row set
    changes as rows expire. Symbol normalisation and the stripping of blanks are parameters; no row
    limit is modelled. */
module Advisory {
  import opened Contracts
  import opened Sorting
  import opened Manifest

  /** An advisory row; an absent text and an empty one are the same. */
  datatype Row = Row(
    candidate: string, symbol: string, sourceModule: string, templateFamily: string, strategyId: string,
    candidateId: string, horizon: Option<int>, generatedAt: Time, asOf: Time, expiresAt: Time)
  {
    /** The text a family is looked for in. */
    function Haystack(): string {
      Lower(sourceModule) + " " + Lower(templateFamily) + " " + Lower(candidate) + " " + Lower(strategyId) + " "
      + Lower(candidateId)
    }
  }

  datatype Normalizer = Normalizer(symbol: string -> string, strip: string -> string)
  {
    function Family(text: string): string {
      Lower(strip(text))
    }
  }

  /** A request; an absent list and an empty one are the same. */
  datatype Query = Query(
    symbols: seq<string>, families: seq<string>, latestOnly: bool, freshOnly: bool, compactForV5: bool, fields: string)

  // ----- filters

  function Filter(s: seq<Row>, keep: Row -> bool): seq<Row> {
    if s == [] then []
    else if keep(s[0]) then [s[0]] + Filter(s[1..], keep)
    else Filter(s[1..], keep)
  }

  lemma {:induction false} FilterIn(s: seq<Row>, keep: Row -> bool, x: Row)
    ensures x in Filter(s, keep) <==> x in s && keep(x)
    decreases |s|
  {
    if s != [] {
      FilterIn(s[1..], keep, x);
      assert s == [s[0]] + s[1..];
    }
  }

  lemma {:induction false} FilterCount(s: seq<Row>, keep: Row -> bool, x: Row)
    ensures multiset(Filter(s, keep))[x] == if keep(x) then multiset(s)[x] else 0
    decreases |s|
  {
    if s != [] {
      FilterCount(s[1..], keep, x);
      assert s == [s[0]] + s[1..];
    }
  }

  function NormalizedAll(texts: seq<string>, normalize: string -> string): seq<string> {
    seq(|texts|, i requires 0 <= i < |texts| => normalize(texts[i]))
  }

  predicate PartAt(text: string, part: string, i: int) {
    0 <= i <= |text| - |part| && text[i..i + |part|] == part
  }

  predicate Contains(text: string, part: string) {
    exists i :: 0 <= i <= |text| && PartAt(text, part, i)
  }

  predicate InFamily(row: Row, families: seq<string>) {
    exists i :: 0 <= i < |families| && families[i] != "" && Contains(row.Haystack(), families[i])
  }

  const RISK_ON := "risk_on_multi_buy"

  predicate RiskOn(row: Row) {
    Contains(row.Haystack(), RISK_ON)
  }

  /** The symbol and family filters. */
  predicate Wanted(row: Row, q: Query, n: Normalizer) {
    && (q.symbols != [] ==> n.symbol(row.symbol) in NormalizedAll(q.symbols, n.symbol))
    && (q.families != [] ==> InFamily(row, NormalizedAll(q.families, n.Family)))
  }

  predicate Fresh(row: Row, now: Time) {
    row.expiresAt >= now
  }

  // ----- dictionaries in insertion order

  /** The two groupings: of the latest rows and of the compact risk-on rows. */
  datatype Group =
    | ByCandidate(candidate: string, symbol: string, sourceModule: string, candidateId: string)
    | ByHorizon(candidate: string, symbol: string, sourceModule: string, horizon: Option<int>)

  type Dict = seq<(Group, Row)>

  /** Replaces the value of a key where it stands, or appends it. */
  function Put(d: Dict, key: Group, value: Row): Dict {
    if d == [] then [(key, value)]
    else if d[0].0 == key then [(key, value)] + d[1..]
    else [d[0]] + Put(d[1..], key, value)
  }

  function Lookup(d: Dict, key: Group): Option<Row> {
    if d == [] then None else if d[0].0 == key then Some(d[0].1) else Lookup(d[1..], key)
  }

  lemma {:induction false} LookupPut(d: Dict, key: Group, value: Row, k: Group)
    ensures Lookup(Put(d, key, value), k) == if k == key then Some(value) else Lookup(d, k)
    decreases |d|
  {
    if d != [] && d[0].0 != key {
      LookupPut(d[1..], key, value, k);
      assert ([d[0]] + Put(d[1..], key, value))[1..] == Put(d[1..], key, value);
    }
  }

  function Values(d: Dict): seq<Row> {
    seq(|d|, i requires 0 <= i < |d| => d[i].1)
  }

  predicate KeysDiffer(d: Dict) {
    forall i, j :: 0 <= i < j < |d| ==> d[i].0 != d[j].0
  }

  lemma {:induction false} PutKeys(d: Dict, key: Group, value: Row)
    requires KeysDiffer(d)
    ensures KeysDiffer(Put(d, key, value))
    ensures forall i :: 0 <= i < |Put(d, key, value)| ==>
              Put(d, key, value)[i].0 == key || (i < |d| && Put(d, key, value)[i] == d[i])
    decreases |d|
  {
    if d != [] && d[0].0 != key {
      PutKeys(d[1..], key, value);
    }
  }

  lemma {:induction false} LookupAt(d: Dict, i: nat)
    requires KeysDiffer(d) && i < |d|
    ensures Lookup(d, d[i].0) == Some(d[i].1)
    decreases |d|
  {
    if i > 0 {
      assert d[1..][i - 1] == d[i] && d[0].0 != d[i].0;
      LookupAt(d[1..], i - 1);
    }
  }

  lemma {:induction false} LookupIn(d: Dict, key: Group)
    requires Lookup(d, key).Some?
    ensures exists i :: 0 <= i < |d| && d[i] == (key, Lookup(d, key).value)
    decreases |d|
  {
    if d[0].0 != key {
      LookupIn(d[1..], key);
      var i :| 0 <= i < |d[1..]| && d[1..][i] == (key, Lookup(d, key).value);
      assert d[i + 1] == d[1..][i];
    } else {
      assert d[0] == (key, Lookup(d, key).value);
    }
  }

  lemma ValueAt(d: Dict, v: Row) returns (key: Group)
    requires KeysDiffer(d) && v in Values(d)
    ensures Lookup(d, key) == Some(v)
  {
    var i :| 0 <= i < |d| && Values(d)[i] == v;
    LookupAt(d, i);
    key := d[i].0;
  }

  lemma ValueOf(d: Dict, key: Group)
    requires Lookup(d, key).Some?
    ensures Lookup(d, key).value in Values(d)
  {
    LookupIn(d, key);
    var i :| 0 <= i < |d| && d[i] == (key, Lookup(d, key).value);
    assert Values(d)[i] == Lookup(d, key).value;
  }

  function Consider(d: Dict, x: Row, group: Row -> Group, better: (Row, Row) -> bool): (d': Dict)
    ensures KeysDiffer(d) ==> KeysDiffer(d')
  {
    var current := Lookup(d, group(x));
    assert KeysDiffer(d) ==> KeysDiffer(Put(d, group(x), x)) by {
      if KeysDiffer(d) {
        PutKeys(d, group(x), x);
      }
    }
    if current.None? || better(x, current.value) then Put(d, group(x), x) else d
  }

  /** The best row of each group; the first one wins a tie. */
  function Best(s: seq<Row>, group: Row -> Group, better: (Row, Row) -> bool): (d: Dict)
    ensures KeysDiffer(d)
  {
    if s == [] then [] else Consider(Best(s[..|s| - 1], group, better), s[|s| - 1], group, better)
  }

  lemma BestAppend(s: seq<Row>, x: Row, group: Row -> Group, better: (Row, Row) -> bool)
    ensures Best(s + [x], group, better) == Consider(Best(s, group, better), x, group, better)
  {
    assert (s + [x])[..|s|] == s;
  }

  // ----- dropping losers changes no winner

  ghost predicate OrderAt(better: (Row, Row) -> bool, a: Row, b: Row, c: Row) {
    && (better(a, b) ==> !better(b, a))
    && (better(a, b) && !better(c, b) ==> better(a, c))
    && (!better(a, b) && better(c, b) ==> !better(a, c))
  }

  /** A strict weak order. */
  ghost predicate StrictWeak(better: (Row, Row) -> bool) {
    forall a, b, c :: OrderAt(better, a, b, c)
  }

  /** How the winners among the kept rows relate to the winners among all. */
  ghost predicate FollowsAt(all: Dict, kept: Dict, keep: Row -> bool, better: (Row, Row) -> bool, k: Group) {
    var a, b := Lookup(all, k), Lookup(kept, k);
    && (b.Some? ==> a.Some? && !better(b.value, a.value))
    && (a.Some? && keep(a.value) ==> b == a)
  }

  lemma {:induction false} FilterAppend(s: seq<Row>, x: Row, keep: Row -> bool)
    ensures Filter(s + [x], keep) == if keep(x) then Filter(s, keep) + [x] else Filter(s, keep)
    decreases |s|
  {
    if s == [] {
      assert s + [x] == [x] && [x][1..] == [];
    } else {
      assert (s + [x])[1..] == s[1..] + [x];
      FilterAppend(s[1..], x, keep);
      var rest := Filter(s[1..], keep);
      assert [s[0]] + (rest + [x]) == [s[0]] + rest + [x];
    }
  }

  /** One more row, on both sides. */
  lemma ConsiderFollows(
    all: Dict, kept: Dict, x: Row, group: Row -> Group, better: (Row, Row) -> bool, keep: Row -> bool, k: Group)
    requires StrictWeak(better) && FollowsAt(all, kept, keep, better, k)
    ensures FollowsAt(Consider(all, x, group, better), if keep(x) then Consider(kept, x, group, better) else kept,
                      keep, better, k)
  {
    LookupPut(all, group(x), x, k);
    LookupPut(kept, group(x), x, k);
    if k == group(x) {
      var a, b := Lookup(all, k), Lookup(kept, k);
      assert OrderAt(better, x, x, x);
      if b.Some? {
        assert OrderAt(better, x, a.value, b.value) && OrderAt(better, b.value, a.value, x);
      }
    }
  }

  lemma {:induction false} WinnersFollow(
    s: seq<Row>, group: Row -> Group, better: (Row, Row) -> bool, keep: Row -> bool, k: Group)
    requires StrictWeak(better)
    ensures FollowsAt(Best(s, group, better), Best(Filter(s, keep), group, better), keep, better, k)
    decreases |s|
  {
    if s != [] {
      var front, x := s[..|s| - 1], s[|s| - 1];
      assert s == front + [x];
      WinnersFollow(front, group, better, keep, k);
      FilterAppend(front, x, keep);
      BestAppend(front, x, group, better);
      BestAppend(Filter(front, keep), x, group, better);
      ConsiderFollows(Best(front, group, better), Best(Filter(front, keep), group, better), x, group, better, keep, k);
    }
  }

  // ----- what the dictionary holds

  /** Row number `i` is kept, no kept row of its group is better, and all earlier ones are worse. */
  ghost predicate WinsAt(s: seq<Row>, i: int, keep: Row -> bool, group: Row -> Group, better: (Row, Row) -> bool) {
    && 0 <= i < |s| && keep(s[i])
    && forall j :: 0 <= j < |s| && keep(s[j]) && group(s[j]) == group(s[i])
                   ==> !better(s[j], s[i]) && (j < i ==> better(s[i], s[j]))
  }

  ghost predicate Wins(s: seq<Row>, v: Row, keep: Row -> bool, group: Row -> Group, better: (Row, Row) -> bool) {
    exists i :: WinsAt(s, i, keep, group, better) && s[i] == v
  }

  /** A group without an entry has no kept row; an entry is the winner of its group. */
  ghost predicate HoldsWinner(
    d: Dict, s: seq<Row>, keep: Row -> bool, group: Row -> Group, better: (Row, Row) -> bool, k: Group) {
    match Lookup(d, k)
    case None => forall j :: 0 <= j < |s| && keep(s[j]) ==> group(s[j]) != k
    case Some(v) => group(v) == k && Wins(s, v, keep, group, better)
  }

  lemma WinnerStays(
    front: seq<Row>, x: Row, i: int, keep: Row -> bool, group: Row -> Group, better: (Row, Row) -> bool)
    requires WinsAt(front, i, keep, group, better)
    requires keep(x) && group(x) == group(front[i]) ==> !better(x, front[i])
    ensures WinsAt(front + [x], i, keep, group, better)
  {
    var s := front + [x];
    forall j | 0 <= j < |s| && keep(s[j]) && group(s[j]) == group(s[i])
      ensures !better(s[j], s[i]) && (j < i ==> better(s[i], s[j]))
    {
      assert j < |front| ==> s[j] == front[j];
    }
  }

  lemma WinnerTakesOver(
    front: seq<Row>, x: Row, i: int, keep: Row -> bool, group: Row -> Group, better: (Row, Row) -> bool)
    requires StrictWeak(better) && keep(x)
    requires WinsAt(front, i, keep, group, better) && group(front[i]) == group(x) && better(x, front[i])
    ensures WinsAt(front + [x], |front|, keep, group, better)
  {
    var s := front + [x];
    forall j | 0 <= j < |s| && keep(s[j]) && group(s[j]) == group(x)
      ensures !better(s[j], x) && (j < |front| ==> better(x, s[j]))
    {
      assert OrderAt(better, x, x, x);
      if j < |front| {
        assert s[j] == front[j];
        assert OrderAt(better, x, front[i], front[j]) && OrderAt(better, x, front[j], front[j]);
      }
    }
  }

  lemma WinnerStarts(front: seq<Row>, x: Row, keep: Row -> bool, group: Row -> Group, better: (Row, Row) -> bool)
    requires StrictWeak(better) && keep(x)
    requires forall j :: 0 <= j < |front| && keep(front[j]) ==> group(front[j]) != group(x)
    ensures WinsAt(front + [x], |front|, keep, group, better)
  {
    assert OrderAt(better, x, x, x);
  }

  lemma ConsiderHolds(
    d: Dict, front: seq<Row>, x: Row, keep: Row -> bool, group: Row -> Group, better: (Row, Row) -> bool, k: Group)
    requires StrictWeak(better) && HoldsWinner(d, front, keep, group, better, k)
    ensures HoldsWinner(if keep(x) then Consider(d, x, group, better) else d, front + [x], keep, group, better, k)
  {
    LookupPut(d, group(x), x, k);
    var s, current := front + [x], Lookup(d, k);
    assert s[|front|] == x;
    if current.Some? {
      var i :| WinsAt(front, i, keep, group, better) && front[i] == current.value;
      if keep(x) && group(x) == k && better(x, front[i]) {
        WinnerTakesOver(front, x, i, keep, group, better);
      } else {
        WinnerStays(front, x, i, keep, group, better);
        assert s[i] == current.value;
      }
    } else if keep(x) && group(x) == k {
      WinnerStarts(front, x, keep, group, better);
    }
  }

  lemma {:induction false} BestHolds(
    s: seq<Row>, keep: Row -> bool, group: Row -> Group, better: (Row, Row) -> bool, k: Group)
    requires StrictWeak(better)
    ensures HoldsWinner(Best(Filter(s, keep), group, better), s, keep, group, better, k)
    decreases |s|
  {
    if s != [] {
      var front, x := s[..|s| - 1], s[|s| - 1];
      assert s == front + [x];
      BestHolds(front, keep, group, better, k);
      FilterAppend(front, x, keep);
      BestAppend(Filter(front, keep), x, group, better);
      ConsiderHolds(Best(Filter(front, keep), group, better), front, x, keep, group, better, k);
    }
  }

  /** A group has one winner only. */
  lemma OneWinner(s: seq<Row>, i: int, j: int, keep: Row -> bool, group: Row -> Group, better: (Row, Row) -> bool)
    requires WinsAt(s, i, keep, group, better) && WinsAt(s, j, keep, group, better) && group(s[i]) == group(s[j])
    ensures i == j
  {
  }

  lemma {:induction false} NoDuplicates(s: seq<Row>, v: Row)
    requires forall i, j :: 0 <= i < j < |s| ==> s[i] != s[j]
    ensures multiset(s)[v] <= 1
    decreases |s|
  {
    if s != [] {
      NoDuplicates(s[1..], v);
      assert s == [s[0]] + s[1..];
      if s[0] == v {
        assert v !in s[1..];
      }
    }
  }

  /** The values of the dictionary are the winners, each once. */
  lemma BestValues(s: seq<Row>, keep: Row -> bool, group: Row -> Group, better: (Row, Row) -> bool, v: Row)
    requires StrictWeak(better)
    ensures multiset(Values(Best(Filter(s, keep), group, better)))[v]
         == if Wins(s, v, keep, group, better) then 1 else 0
  {
    var d := Best(Filter(s, keep), group, better);
    var values := Values(d);
    forall i, j | 0 <= i < j < |values| ensures values[i] != values[j] {
      LookupAt(d, i);
      LookupAt(d, j);
      BestHolds(s, keep, group, better, d[i].0);
      BestHolds(s, keep, group, better, d[j].0);
    }
    NoDuplicates(values, v);
    if v in values {
      var k := ValueAt(d, v);
      BestHolds(s, keep, group, better, k);
    }
    if Wins(s, v, keep, group, better) {
      BestHolds(s, keep, group, better, group(v));
      var i :| WinsAt(s, i, keep, group, better) && s[i] == v;
      var w := Lookup(d, group(v)).value;
      var j :| WinsAt(s, j, keep, group, better) && s[j] == w;
      OneWinner(s, i, j, keep, group, better);
      ValueOf(d, group(v));
    }
  }

  ghost predicate AllKept(rows: seq<Row>, keep: Row -> bool) {
    forall i :: 0 <= i < |rows| ==> keep(rows[i])
  }

  lemma ValueKept(d: Dict, k: Group, keep: Row -> bool)
    requires AllKept(Values(d), keep) && Lookup(d, k).Some?
    ensures keep(Lookup(d, k).value)
  {
    ValueOf(d, k);
  }

  ghost predicate SameLookups(a: Dict, b: Dict) {
    forall k :: Lookup(a, k) == Lookup(b, k)
  }

  lemma SameValues(a: Dict, b: Dict, v: Row)
    requires SameLookups(a, b) && KeysDiffer(a) && KeysDiffer(b)
    ensures v in Values(a) <==> v in Values(b)
  {
    if v in Values(a) {
      var k := ValueAt(a, v);
      ValueOf(b, k);
    }
    if v in Values(b) {
      var k := ValueAt(b, v);
      ValueOf(a, k);
    }
  }

  /** When every winner is kept, the winners among the kept rows are the same rows. */
  lemma SameWinners(s: seq<Row>, group: Row -> Group, better: (Row, Row) -> bool, keep: Row -> bool)
    requires StrictWeak(better) && AllKept(Values(Best(s, group, better)), keep)
    ensures SameLookups(Best(Filter(s, keep), group, better), Best(s, group, better))
  {
    var all, kept := Best(s, group, better), Best(Filter(s, keep), group, better);
    forall k ensures Lookup(kept, k) == Lookup(all, k) {
      WinnersFollow(s, group, better, keep, k);
      if Lookup(all, k).Some? {
        ValueKept(all, k, keep);
      }
    }
  }

  // ----- sorting

  function HorizonRank(row: Row): int {
    if row.horizon.None? || row.horizon.value == 0 then -1 else row.horizon.value
  }

  /** The order of responses: newest first, then by candidate, symbol and horizon. */
  predicate ListedBefore(a: Row, b: Row) {
    if a.generatedAt != b.generatedAt then a.generatedAt > b.generatedAt
    else if a.candidate != b.candidate then NotAfter(a.candidate, b.candidate)
    else if a.symbol != b.symbol then NotAfter(a.symbol, b.symbol)
    else HorizonRank(a) <= HorizonRank(b)
  }

  lemma ListedTransitive(a: Row, b: Row, c: Row)
    requires ListedBefore(a, b) && ListedBefore(b, c)
    ensures ListedBefore(a, c)
  {
    if a.generatedAt == b.generatedAt == c.generatedAt {
      if a.candidate == b.candidate == c.candidate {
        if NotAfter(a.symbol, b.symbol) && NotAfter(b.symbol, c.symbol) {
          NotAfterTransitive(a.symbol, b.symbol, c.symbol);
        }
        NotAfterTotal(a.symbol, b.symbol);
      } else {
        if NotAfter(a.candidate, b.candidate) && NotAfter(b.candidate, c.candidate) {
          NotAfterTransitive(a.candidate, b.candidate, c.candidate);
        }
        NotAfterTotal(a.candidate, b.candidate);
      }
    }
  }

  lemma ListingOrder()
    ensures TotalPreorder(ListedBefore)
  {
    forall a, b ensures ListedBefore(a, b) || ListedBefore(b, a) {
      NotAfterTotal(a.candidate, b.candidate);
      NotAfterTotal(a.symbol, b.symbol);
    }
    forall a, b, c | ListedBefore(a, b) && ListedBefore(b, c) ensures ListedBefore(a, c) {
      ListedTransitive(a, b, c);
    }
  }

  function Listed(rows: seq<Row>): seq<Row> {
    SortBy(rows, ListedBefore)
  }

  lemma FilterHead(x: Row, rest: seq<Row>, keep: Row -> bool)
    ensures Filter([x] + rest, keep) == if keep(x) then [x] + Filter(rest, keep) else Filter(rest, keep)
  {
    assert ([x] + rest)[1..] == rest;
  }

  /** A row that comes before a sorted list is inserted in front of what is kept of it. */
  lemma InsertInFront(x: Row, s: seq<Row>, keep: Row -> bool)
    requires Sorted(s, ListedBefore) && s != [] && ListedBefore(x, s[0])
    ensures Insert(x, Filter(s, keep), ListedBefore) == [x] + Filter(s, keep)
  {
    var kept := Filter(s, keep);
    if kept != [] {
      FilterIn(s, keep, kept[0]);
      var i :| 0 <= i < |s| && s[i] == kept[0];
      if i > 0 {
        ListedTransitive(x, s[0], s[i]);
      }
    }
  }

  lemma InsertPast(x: Row, first: Row, rest: seq<Row>)
    requires !ListedBefore(x, first)
    ensures Insert(x, [first] + rest, ListedBefore) == [first] + Insert(x, rest, ListedBefore)
  {
    assert ([first] + rest)[1..] == rest;
  }

  lemma ListedHead(x: Row, rest: seq<Row>)
    ensures Listed([x] + rest) == Insert(x, Listed(rest), ListedBefore)
  {
    assert ([x] + rest)[1..] == rest;
  }

  lemma {:induction false} InsertFiltered(x: Row, s: seq<Row>, keep: Row -> bool)
    requires Sorted(s, ListedBefore)
    ensures Filter(Insert(x, s, ListedBefore), keep)
            == if keep(x) then Insert(x, Filter(s, keep), ListedBefore) else Filter(s, keep)
    decreases |s|
  {
    if s != [] {
      if ListedBefore(x, s[0]) {
        FilterHead(x, s, keep);
        InsertInFront(x, s, keep);
      } else {
        var rest := s[1..];
        InsertFiltered(x, rest, keep);
        FilterHead(s[0], Insert(x, rest, ListedBefore), keep);
        FilterHead(s[0], rest, keep);
        assert s == [s[0]] + rest;
        InsertPast(x, s[0], Filter(rest, keep));
      }
    }
  }

  /** The sort is stable, so it commutes with dropping rows. */
  lemma {:induction false} ListedFiltered(s: seq<Row>, keep: Row -> bool)
    ensures Listed(Filter(s, keep)) == Filter(Listed(s), keep)
    decreases |s|
  {
    if s != [] {
      var rest := s[1..];
      ListedFiltered(rest, keep);
      ListingOrder();
      SortBySorted(rest, ListedBefore);
      InsertFiltered(s[0], Listed(rest), keep);
      FilterHead(s[0], rest, keep);
      assert s == [s[0]] + rest;
      ListedHead(s[0], rest);
      ListedHead(s[0], Filter(rest, keep));
    }
  }
}
