/** The response cache of the advisory endpoint: when a cached answer equals a recomputation. */
module ResponseCache {
  import opened Contracts
  import opened Sorting
  import opened Manifest
  import opened Advisory

  // ----- the answer to a query

  function CandidateGroup(row: Row): Group {
    ByCandidate(row.candidate, row.symbol, row.sourceModule, row.candidateId)
  }

  function HorizonGroup(row: Row): Group {
    ByHorizon(row.candidate, row.symbol, row.sourceModule, row.horizon)
  }

  predicate Newer(a: Row, b: Row) {
    a.generatedAt > b.generatedAt
  }

  /** By generation time, then time of the data, then candidate. */
  predicate Outranks(a: Row, b: Row) {
    if a.generatedAt != b.generatedAt then a.generatedAt > b.generatedAt
    else if a.asOf != b.asOf then a.asOf > b.asOf
    else !NotAfter(a.candidateId, b.candidateId)
  }

  lemma OrdersAreStrictWeak()
    ensures StrictWeak(Newer) && StrictWeak(Outranks)
  {
    forall a, b, c ensures OrderAt(Outranks, a, b, c) {
      NotAfterTotal(a.candidateId, b.candidateId);
      NotAfterTotal(b.candidateId, c.candidateId);
      NotAfterTotal(a.candidateId, c.candidateId);
      if NotAfter(a.candidateId, b.candidateId) && NotAfter(b.candidateId, c.candidateId) {
        NotAfterTransitive(a.candidateId, b.candidateId, c.candidateId);
      }
      if NotAfter(a.candidateId, c.candidateId) && NotAfter(c.candidateId, b.candidateId) {
        NotAfterTransitive(a.candidateId, c.candidateId, b.candidateId);
      }
      if NotAfter(c.candidateId, b.candidateId) && NotAfter(b.candidateId, a.candidateId) {
        NotAfterTransitive(c.candidateId, b.candidateId, a.candidateId);
      }
    }
  }

  function WantedBy(q: Query, n: Normalizer): Row -> bool {
    (row: Row) => Wanted(row, q, n)
  }

  function FreshAt(now: Time): Row -> bool {
    (row: Row) => Fresh(row, now)
  }

  function Ordinary(row: Row): bool {
    !RiskOn(row)
  }

  /** What the request asks of a row by itself. */
  function MatchesAt(q: Query, n: Normalizer, now: Time): Row -> bool {
    (row: Row) => Wanted(row, q, n) && (q.freshOnly ==> Fresh(row, now))
  }

  function Matching(rows: seq<Row>, q: Query, n: Normalizer, now: Time): seq<Row> {
    var wanted := Filter(rows, WantedBy(q, n));
    if q.freshOnly then Filter(wanted, FreshAt(now)) else wanted
  }

  function Latest(rows: seq<Row>): seq<Row> {
    Values(Best(rows, CandidateGroup, Newer))
  }

  /** `_filter_strategy_opportunity_advisory_rows`. */
  function Filtered(rows: seq<Row>, q: Query, n: Normalizer, now: Time): seq<Row> {
    var matching := Matching(rows, q, n, now);
    Listed(if q.latestOnly then Latest(matching) else matching)
  }

  /** `_compact_strategy_opportunity_advisory_for_v5`. */
  function Compacted(rows: seq<Row>): seq<Row> {
    Listed(Filter(rows, Ordinary) + Values(Best(Filter(rows, RiskOn), HorizonGroup, Outranks)))
  }

  function Answer(rows: seq<Row>, q: Query, n: Normalizer, now: Time): seq<Row> {
    var filtered := Filtered(rows, q, n, now);
    if q.compactForV5 then Compacted(filtered) else filtered
  }

  /** `_fresh_only_response_valid_until`: the earliest expiry of the returned rows. */
  function ValidUntil(rows: seq<Row>): (until: Option<Time>)
    ensures until.None? <==> rows == []
    ensures until.Some? ==> forall i :: 0 <= i < |rows| ==> until.value <= rows[i].expiresAt
    ensures until.Some? ==> exists i :: 0 <= i < |rows| && until.value == rows[i].expiresAt
  {
    if rows == [] then None
    else
      var rest := ValidUntil(rows[1..]);
      assert rest.Some? ==> exists i :: 0 <= i < |rows[1..]| && rest.value == rows[1..][i].expiresAt;
      assert forall i :: 0 <= i < |rows[1..]| ==> rows[1..][i] == rows[i + 1];
      if rest.Some? && rest.value < rows[0].expiresAt then rest else Some(rows[0].expiresAt)
  }

  function Expiry(rows: seq<Row>, q: Query): Option<Time> {
    if q.freshOnly then ValidUntil(rows) else None
  }

  ghost predicate SameRows(a: seq<Row>, b: seq<Row>) {
    forall v :: v in a <==> v in b
  }

  method LatestRows(rows: seq<Row>) returns (latest: seq<Row>)
    ensures latest == Latest(rows)
  {
    var best: Dict := [];
    for i := 0 to |rows|
      invariant best == Best(rows[..i], CandidateGroup, Newer)
    {
      assert rows[..i + 1] == rows[..i] + [rows[i]];
      BestAppend(rows[..i], rows[i], CandidateGroup, Newer);
      best := Consider(best, rows[i], CandidateGroup, Newer);
    }
    assert rows[..|rows|] == rows;
    latest := Values(best);
  }

  lemma {:induction false} FilterBoth(s: seq<Row>, first: Row -> bool, second: Row -> bool, both: Row -> bool)
    requires forall r :: both(r) <==> first(r) && second(r)
    ensures Filter(Filter(s, first), second) == Filter(s, both)
    decreases |s|
  {
    if s != [] {
      FilterBoth(s[1..], first, second, both);
      FilterHead(s[0], Filter(s[1..], first), second);
    }
  }

  lemma {:induction false} FilterSame(s: seq<Row>, p: Row -> bool, q: Row -> bool)
    requires forall r :: p(r) == q(r)
    ensures Filter(s, p) == Filter(s, q)
    decreases |s|
  {
    if s != [] {
      FilterSame(s[1..], p, q);
    }
  }

  lemma MatchingIsOneFilter(rows: seq<Row>, q: Query, n: Normalizer, now: Time)
    ensures Matching(rows, q, n, now) == Filter(rows, MatchesAt(q, n, now))
  {
    if q.freshOnly {
      FilterBoth(rows, WantedBy(q, n), FreshAt(now), MatchesAt(q, n, now));
    } else {
      FilterSame(rows, WantedBy(q, n), MatchesAt(q, n, now));
    }
  }

  lemma ListedRows(rows: seq<Row>)
    ensures Sorted(Listed(rows), ListedBefore) && multiset(Listed(rows)) == multiset(rows)
  {
    ListingOrder();
    SortBySorted(rows, ListedBefore);
    SortByPermutes(rows, ListedBefore);
  }

  /** How often a row is in the filtered answer. */
  lemma FilteredRows(rows: seq<Row>, q: Query, n: Normalizer, now: Time, v: Row)
    ensures multiset(Filtered(rows, q, n, now))[v]
         == if q.latestOnly then (if Wins(rows, v, MatchesAt(q, n, now), CandidateGroup, Newer) then 1 else 0)
            else if MatchesAt(q, n, now)(v) then multiset(rows)[v]
            else 0
  {
    var matches := MatchesAt(q, n, now);
    MatchingIsOneFilter(rows, q, n, now);
    OrdersAreStrictWeak();
    if q.latestOnly {
      ListedRows(Latest(Filter(rows, matches)));
      BestValues(rows, matches, CandidateGroup, Newer, v);
    } else {
      ListedRows(Filter(rows, matches));
      FilterCount(rows, matches, v);
    }
  }

  /** In the order of responses: without `latestOnly` the matching rows; with it, of each
      candidate the first of its newest matching rows. */
  ghost predicate SelectionOf(selected: seq<Row>, rows: seq<Row>, q: Query, n: Normalizer, now: Time) {
    && Sorted(selected, ListedBefore)
    && forall v :: multiset(selected)[v]
                   == if q.latestOnly then (if Wins(rows, v, MatchesAt(q, n, now), CandidateGroup, Newer) then 1 else 0)
                      else if MatchesAt(q, n, now)(v) then multiset(rows)[v]
                      else 0
  }

  lemma FilteredIsSelection(rows: seq<Row>, q: Query, n: Normalizer, now: Time)
    ensures SelectionOf(Filtered(rows, q, n, now), rows, q, n, now)
  {
    var matching := Matching(rows, q, n, now);
    ListedRows(if q.latestOnly then Latest(matching) else matching);
    forall v {
      FilteredRows(rows, q, n, now, v);
    }
  }

  // ----- what a request selects, said of the rows

  ghost predicate Appears(part: string, text: string) {
    exists k :: 0 <= k <= |text| - |part| && PartStarts(part, text, k)
  }

  ghost predicate PartStarts(part: string, text: string, k: int) {
    0 <= k <= |text| - |part| && forall i :: 0 <= i < |part| ==> text[k + i] == part[i]
  }

  /** The text appears in module, template family, candidate, strategy and candidate number, lower-cased. */
  ghost predicate Mentions(row: Row, part: string) {
    Appears(part, Lower(row.sourceModule) + " " + Lower(row.templateFamily) + " " + Lower(row.candidate) + " "
                  + Lower(row.strategyId) + " " + Lower(row.candidateId))
  }

  ghost predicate AsksSymbol(row: Row, q: Query, n: Normalizer) {
    exists i :: 0 <= i < |q.symbols| && n.symbol(q.symbols[i]) == n.symbol(row.symbol)
  }

  /** A blank family asks for nothing. */
  ghost predicate AsksFamily(row: Row, q: Query, n: Normalizer) {
    exists i :: 0 <= i < |q.families| && Lower(n.strip(q.families[i])) != ""
      && Mentions(row, Lower(n.strip(q.families[i])))
  }

  ghost predicate Asks(row: Row, q: Query, n: Normalizer, now: Time) {
    && (q.symbols == [] || AsksSymbol(row, q, n)) && (q.families == [] || AsksFamily(row, q, n))
    && (q.freshOnly ==> now <= row.expiresAt)
  }

  ghost predicate SameCandidate(a: Row, b: Row) {
    a.candidate == b.candidate && a.symbol == b.symbol && a.sourceModule == b.sourceModule
    && a.candidateId == b.candidateId
  }

  /** Of the asked rows of its candidate it is the newest, and the first of those. */
  ghost predicate NewestAt(rows: seq<Row>, i: int, q: Query, n: Normalizer, now: Time) {
    && 0 <= i < |rows| && Asks(rows[i], q, n, now)
    && forall j :: 0 <= j < |rows| && Asks(rows[j], q, n, now) && SameCandidate(rows[j], rows[i]) ==>
         rows[j].generatedAt < rows[i].generatedAt || (rows[j].generatedAt == rows[i].generatedAt && i <= j)
  }

  ghost predicate Newest(rows: seq<Row>, v: Row, q: Query, n: Normalizer, now: Time) {
    exists i :: NewestAt(rows, i, q, n, now) && rows[i] == v
  }

  ghost function HorizonValue(row: Row): int {
    match row.horizon case None => -1 case Some(h) => if h == 0 then -1 else h
  }

  /** Newest first, then by candidate, symbol and horizon; no horizon and zero come first. */
  ghost predicate InResponseOrder(rows: seq<Row>) {
    forall i, j :: 0 <= i < j < |rows| ==> ComesBefore(rows[i], rows[j])
  }

  ghost predicate ComesBefore(a: Row, b: Row) {
    || a.generatedAt > b.generatedAt
    || (a.generatedAt == b.generatedAt
        && (if a.candidate != b.candidate then NotAfter(a.candidate, b.candidate)
            else if a.symbol != b.symbol then NotAfter(a.symbol, b.symbol)
            else HorizonValue(a) <= HorizonValue(b)))
  }

  /** Every asked row as often as it is there; with `latestOnly` one row of each asked candidate. */
  ghost predicate Selects(selected: seq<Row>, rows: seq<Row>, q: Query, n: Normalizer, now: Time) {
    && InResponseOrder(selected)
    && forall v :: multiset(selected)[v]
                   == if q.latestOnly then (if Newest(rows, v, q, n, now) then 1 else 0)
                      else if Asks(v, q, n, now) then multiset(rows)[v]
                      else 0
  }

  lemma ContainsIff(text: string, part: string)
    ensures Contains(text, part) <==> Appears(part, text)
  {
    forall k | 0 <= k <= |text| - |part| ensures PartAt(text, part, k) <==> PartStarts(part, text, k) {
      if PartStarts(part, text, k) {
        assert text[k..k + |part|] == part;
      }
      if PartAt(text, part, k) {
        forall i | 0 <= i < |part| ensures text[k + i] == part[i] {
          assert text[k..k + |part|][i] == part[i];
        }
      }
    }
  }

  lemma FamilyAt(q: Query, n: Normalizer, i: int)
    requires 0 <= i < |q.families|
    ensures NormalizedAll(q.families, n.Family)[i] == Lower(n.strip(q.families[i]))
  {
    assert NormalizedAll(q.families, n.Family)[i] == n.Family(q.families[i]);
  }

  lemma AsksFamilyIff(row: Row, q: Query, n: Normalizer)
    ensures AsksFamily(row, q, n) <==> InFamily(row, NormalizedAll(q.families, n.Family))
  {
    var families := NormalizedAll(q.families, n.Family);
    forall i | 0 <= i < |q.families|
      ensures families[i] == Lower(n.strip(q.families[i]))
      ensures Contains(row.Haystack(), families[i]) <==> Mentions(row, families[i])
    {
      FamilyAt(q, n, i);
      ContainsIff(row.Haystack(), families[i]);
    }
  }

  lemma AsksIff(row: Row, q: Query, n: Normalizer, now: Time)
    ensures Asks(row, q, n, now) <==> MatchesAt(q, n, now)(row)
  {
    var symbols := NormalizedAll(q.symbols, n.symbol);
    AsksFamilyIff(row, q, n);
    assert AsksSymbol(row, q, n) <==> n.symbol(row.symbol) in symbols by {
      if n.symbol(row.symbol) in symbols {
        var i :| 0 <= i < |symbols| && symbols[i] == n.symbol(row.symbol);
        assert n.symbol(q.symbols[i]) == n.symbol(row.symbol);
      }
      if i :| 0 <= i < |q.symbols| && n.symbol(q.symbols[i]) == n.symbol(row.symbol) {
        assert symbols[i] == n.symbol(row.symbol);
      }
    }
  }

  lemma NewestIff(rows: seq<Row>, v: Row, q: Query, n: Normalizer, now: Time)
    ensures Newest(rows, v, q, n, now) <==> Wins(rows, v, MatchesAt(q, n, now), CandidateGroup, Newer)
  {
    var matches := MatchesAt(q, n, now);
    forall row ensures Asks(row, q, n, now) <==> matches(row) {
      AsksIff(row, q, n, now);
    }
    forall i ensures NewestAt(rows, i, q, n, now) <==> WinsAt(rows, i, matches, CandidateGroup, Newer) {
      if 0 <= i < |rows| {
        NewestAtIff(rows, i, q, n, now, matches);
      }
    }
  }

  lemma NewestAtIff(rows: seq<Row>, i: int, q: Query, n: Normalizer, now: Time, matches: Row -> bool)
    requires 0 <= i < |rows| && forall row :: matches(row) <==> Asks(row, q, n, now)
    ensures NewestAt(rows, i, q, n, now) <==> WinsAt(rows, i, matches, CandidateGroup, Newer)
  {
    forall j | 0 <= j < |rows|
      ensures SameCandidate(rows[j], rows[i]) <==> CandidateGroup(rows[j]) == CandidateGroup(rows[i])
      ensures rows[j].generatedAt < rows[i].generatedAt || (rows[j].generatedAt == rows[i].generatedAt && i <= j)
              <==> !Newer(rows[j], rows[i]) && (j < i ==> Newer(rows[i], rows[j]))
    {
    }
  }

  lemma ListedIff(rows: seq<Row>)
    ensures InResponseOrder(rows) <==> Sorted(rows, ListedBefore)
  {
    forall a, b ensures ComesBefore(a, b) <==> ListedBefore(a, b) {
    }
  }

  lemma SelectionSelects(selected: seq<Row>, rows: seq<Row>, q: Query, n: Normalizer, now: Time)
    requires SelectionOf(selected, rows, q, n, now)
    ensures Selects(selected, rows, q, n, now)
  {
    ListedIff(selected);
    forall v
      ensures multiset(selected)[v]
           == if q.latestOnly then (if Newest(rows, v, q, n, now) then 1 else 0)
              else if Asks(v, q, n, now) then multiset(rows)[v]
              else 0
    {
      AsksIff(v, q, n, now);
      NewestIff(rows, v, q, n, now);
    }
  }

  method FilterRows(rows: seq<Row>, q: Query, n: Normalizer, now: Time) returns (selected: seq<Row>)
    ensures selected == Filtered(rows, q, n, now) && SelectionOf(selected, rows, q, n, now)
    ensures Selects(selected, rows, q, n, now)
  {
    FilteredIsSelection(rows, q, n, now);
    SelectionSelects(Filtered(rows, q, n, now), rows, q, n, now);
    selected := Filter(rows, WantedBy(q, n));
    if q.freshOnly {
      selected := Filter(selected, FreshAt(now));
    }
    if q.latestOnly {
      selected := LatestRows(selected);
    }
    selected := Listed(selected);
  }

  lemma CompactTurn(front: seq<Row>, row: Row)
    ensures Filter(front + [row], Ordinary)
            == if RiskOn(row) then Filter(front, Ordinary) else Filter(front, Ordinary) + [row]
    ensures Best(Filter(front + [row], RiskOn), HorizonGroup, Outranks)
            == var best := Best(Filter(front, RiskOn), HorizonGroup, Outranks);
               if RiskOn(row) then Consider(best, row, HorizonGroup, Outranks) else best
  {
    FilterAppend(front, row, Ordinary);
    FilterAppend(front, row, RiskOn);
    if RiskOn(row) {
      BestAppend(Filter(front, RiskOn), row, HorizonGroup, Outranks);
    }
  }

  lemma CompactedRows(rows: seq<Row>, v: Row)
    ensures multiset(Compacted(rows))[v]
         == if !RiskOn(v) then multiset(rows)[v]
            else if Wins(rows, v, RiskOn, HorizonGroup, Outranks) then 1
            else 0
  {
    var winners := Values(Best(Filter(rows, RiskOn), HorizonGroup, Outranks));
    ListedRows(Filter(rows, Ordinary) + winners);
    OrdersAreStrictWeak();
    FilterCount(rows, Ordinary, v);
    BestValues(rows, RiskOn, HorizonGroup, Outranks, v);
    assert Wins(rows, v, RiskOn, HorizonGroup, Outranks) ==> RiskOn(v);
  }

  /** All ordinary rows; of the risk-on rows the highest of each horizon, the first on a tie. */
  ghost predicate CompactOf(compact: seq<Row>, rows: seq<Row>) {
    && Sorted(compact, ListedBefore)
    && forall v :: multiset(compact)[v]
                   == if !RiskOn(v) then multiset(rows)[v]
                      else if Wins(rows, v, RiskOn, HorizonGroup, Outranks) then 1
                      else 0
  }

  lemma CompactedIsCompact(rows: seq<Row>)
    ensures CompactOf(Compacted(rows), rows)
  {
    ListedRows(Filter(rows, Ordinary) + Values(Best(Filter(rows, RiskOn), HorizonGroup, Outranks)));
    forall v {
      CompactedRows(rows, v);
    }
  }

  /** The row mentions the risk-on family. */
  ghost predicate IsRiskOn(row: Row) {
    Mentions(row, "risk_on_multi_buy")
  }

  ghost predicate SameHorizon(a: Row, b: Row) {
    a.candidate == b.candidate && a.symbol == b.symbol && a.sourceModule == b.sourceModule && a.horizon == b.horizon
  }

  /** Later generated, or of later data, or with the later candidate number. */
  ghost predicate Above(a: Row, b: Row) {
    || a.generatedAt > b.generatedAt
    || (a.generatedAt == b.generatedAt && a.asOf > b.asOf)
    || (a.generatedAt == b.generatedAt && a.asOf == b.asOf && a.candidateId != b.candidateId
        && NotAfter(b.candidateId, a.candidateId))
  }

  /** Of the risk-on rows of its horizon it is the highest, and the first of those. */
  ghost predicate HighestAt(rows: seq<Row>, i: int) {
    && 0 <= i < |rows| && IsRiskOn(rows[i])
    && forall j :: 0 <= j < |rows| && IsRiskOn(rows[j]) && SameHorizon(rows[j], rows[i]) ==>
         !Above(rows[j], rows[i]) && (j < i ==> Above(rows[i], rows[j]))
  }

  ghost predicate Highest(rows: seq<Row>, v: Row) {
    exists i :: HighestAt(rows, i) && rows[i] == v
  }

  /** Every other row as often as it is there, and one risk-on row of each horizon. */
  ghost predicate Compacts(compact: seq<Row>, rows: seq<Row>) {
    && InResponseOrder(compact)
    && forall v :: multiset(compact)[v]
                   == if !IsRiskOn(v) then multiset(rows)[v] else if Highest(rows, v) then 1 else 0
  }

  lemma AboveIff(a: Row, b: Row)
    ensures Above(a, b) <==> Outranks(a, b)
  {
    NotAfterTotal(a.candidateId, b.candidateId);
  }

  lemma HighestAtIff(rows: seq<Row>, i: int)
    requires 0 <= i < |rows| && forall row :: RiskOn(row) <==> IsRiskOn(row)
    ensures HighestAt(rows, i) <==> WinsAt(rows, i, RiskOn, HorizonGroup, Outranks)
  {
    forall j | 0 <= j < |rows|
      ensures SameHorizon(rows[j], rows[i]) <==> HorizonGroup(rows[j]) == HorizonGroup(rows[i])
      ensures Above(rows[j], rows[i]) <==> Outranks(rows[j], rows[i])
      ensures Above(rows[i], rows[j]) <==> Outranks(rows[i], rows[j])
    {
      AboveIff(rows[j], rows[i]);
      AboveIff(rows[i], rows[j]);
    }
  }

  lemma CompactCompacts(compact: seq<Row>, rows: seq<Row>)
    requires CompactOf(compact, rows)
    ensures Compacts(compact, rows)
  {
    ListedIff(compact);
    forall row ensures RiskOn(row) <==> IsRiskOn(row) {
      ContainsIff(row.Haystack(), RISK_ON);
    }
    forall v ensures Highest(rows, v) <==> Wins(rows, v, RiskOn, HorizonGroup, Outranks) {
      forall i ensures HighestAt(rows, i) <==> WinsAt(rows, i, RiskOn, HorizonGroup, Outranks) {
        if 0 <= i < |rows| {
          HighestAtIff(rows, i);
        }
      }
    }
  }

  method CompactRows(rows: seq<Row>) returns (compact: seq<Row>)
    ensures compact == Compacted(rows) && CompactOf(compact, rows) && Compacts(compact, rows)
  {
    var riskOnLatest: Dict, selected: seq<Row> := [], [];
    for i := 0 to |rows|
      invariant selected == Filter(rows[..i], Ordinary)
      invariant riskOnLatest == Best(Filter(rows[..i], RiskOn), HorizonGroup, Outranks)
    {
      assert rows[..i + 1] == rows[..i] + [rows[i]];
      CompactTurn(rows[..i], rows[i]);
      if RiskOn(rows[i]) {
        riskOnLatest := Consider(riskOnLatest, rows[i], HorizonGroup, Outranks);
      } else {
        selected := selected + [rows[i]];
      }
    }
    assert rows[..|rows|] == rows;
    compact := Listed(selected + Values(riskOnLatest));
    CompactedIsCompact(rows);
    CompactCompacts(compact, rows);
  }

  method AnswerRows(rows: seq<Row>, q: Query, n: Normalizer, now: Time) returns (answer: seq<Row>)
    ensures answer == Answer(rows, q, n, now)
  {
    answer := FilterRows(rows, q, n, now);
    if q.compactForV5 {
      answer := CompactRows(answer);
    }
  }

  // ----- when time changes nothing

  lemma {:induction false} FilterTwice(s: seq<Row>, first: Row -> bool, second: Row -> bool)
    requires forall r :: second(r) ==> first(r)
    ensures Filter(Filter(s, first), second) == Filter(s, second)
    decreases |s|
  {
    if s != [] {
      FilterTwice(s[1..], first, second);
      if first(s[0]) {
        FilterHead(s[0], Filter(s[1..], first), second);
      }
    }
  }

  lemma {:induction false} FilterSwap(s: seq<Row>, p: Row -> bool, q: Row -> bool)
    ensures Filter(Filter(s, p), q) == Filter(Filter(s, q), p)
    decreases |s|
  {
    if s != [] {
      var rest := s[1..];
      FilterSwap(rest, p, q);
      FilterHead(s[0], Filter(rest, p), q);
      FilterHead(s[0], Filter(rest, q), p);
    }
  }

  lemma {:induction false} FilterAll(s: seq<Row>, keep: Row -> bool)
    requires AllKept(s, keep)
    ensures Filter(s, keep) == s
    decreases |s|
  {
    if s != [] {
      FilterAll(s[1..], keep);
      assert s == [s[0]] + s[1..];
    }
  }

  /** Later, the matching rows are those of before that are still fresh. */
  lemma MatchingLater(rows: seq<Row>, q: Query, n: Normalizer, t0: Time, t: Time)
    requires q.freshOnly && t0 <= t
    ensures Matching(rows, q, n, t) == Filter(Matching(rows, q, n, t0), FreshAt(t))
  {
    FilterTwice(Filter(rows, WantedBy(q, n)), FreshAt(t0), FreshAt(t));
  }

  lemma KeptIfListed(rows: seq<Row>, keep: Row -> bool)
    requires AllKept(Listed(rows), keep)
    ensures AllKept(rows, keep)
  {
    forall i | 0 <= i < |rows| ensures keep(rows[i]) {
      assert rows[i] in Listed(rows);
    }
  }

  lemma LatestLater(matching: seq<Row>, keep: Row -> bool)
    requires AllKept(Listed(Latest(matching)), keep)
    ensures SameRows(Listed(Latest(Filter(matching, keep))), Listed(Latest(matching)))
  {
    KeptIfListed(Latest(matching), keep);
    OrdersAreStrictWeak();
    SameWinners(matching, CandidateGroup, Newer, keep);
    forall v ensures v in Latest(Filter(matching, keep)) <==> v in Latest(matching) {
      SameValues(Best(Filter(matching, keep), CandidateGroup, Newer), Best(matching, CandidateGroup, Newer), v);
    }
  }

  lemma CompactedKept(rows: seq<Row>, keep: Row -> bool)
    requires AllKept(Compacted(rows), keep)
    ensures AllKept(Filter(rows, Ordinary), keep)
    ensures AllKept(Values(Best(Filter(rows, RiskOn), HorizonGroup, Outranks)), keep)
  {
    var ordinary, winners := Filter(rows, Ordinary), Values(Best(Filter(rows, RiskOn), HorizonGroup, Outranks));
    KeptIfListed(ordinary + winners, keep);
    forall i | 0 <= i < |ordinary| ensures keep(ordinary[i]) {
      assert (ordinary + winners)[i] == ordinary[i];
    }
    forall i | 0 <= i < |winners| ensures keep(winners[i]) {
      assert (ordinary + winners)[|ordinary| + i] == winners[i];
    }
  }

  lemma CompactedLater(rows: seq<Row>, keep: Row -> bool)
    requires AllKept(Compacted(rows), keep)
    ensures SameRows(Compacted(Filter(rows, keep)), Compacted(rows))
  {
    var risky := Best(Filter(rows, RiskOn), HorizonGroup, Outranks);
    var later := Best(Filter(Filter(rows, keep), RiskOn), HorizonGroup, Outranks);
    CompactedKept(rows, keep);
    FilterSwap(rows, keep, Ordinary);
    FilterAll(Filter(rows, Ordinary), keep);
    FilterSwap(rows, keep, RiskOn);
    OrdersAreStrictWeak();
    SameWinners(Filter(rows, RiskOn), HorizonGroup, Outranks, keep);
    forall v ensures v in Compacted(Filter(rows, keep)) <==> v in Compacted(rows) {
      SameValues(later, risky, v);
    }
  }

  /** A moment at which the cache still serves an answer computed at t0. */
  predicate Served(answer: seq<Row>, q: Query, t0: Time, t: Time) {
    t0 <= t && (Expiry(answer, q).Some? ==> t < Expiry(answer, q).value)
  }

  /** A served answer holds the same rows as a recomputation, unless the request asks for fresh
      rows, the latest of each candidate and the compact form all at once. */
  lemma ServedAgrees(rows: seq<Row>, q: Query, n: Normalizer, t0: Time, t: Time)
    requires Served(Answer(rows, q, n, t0), q, t0, t)
    requires !(q.freshOnly && q.latestOnly && q.compactForV5)
    ensures SameRows(Answer(rows, q, n, t), Answer(rows, q, n, t0))
  {
    if q.freshOnly {
      var keep, matching := FreshAt(t), Matching(rows, q, n, t0);
      assert AllKept(Answer(rows, q, n, t0), keep);
      MatchingLater(rows, q, n, t0, t);
      if q.compactForV5 {
        ListedFiltered(matching, keep);
        CompactedLater(Listed(matching), keep);
      } else if q.latestOnly {
        LatestLater(matching, keep);
      } else {
        KeptIfListed(matching, keep);
        FilterAll(matching, keep);
      }
    }
  }

  // ----- the failing combination

  ghost predicate AlwaysAgrees(q: Query, n: Normalizer) {
    forall rows, t0, t :: Served(Answer(rows, q, n, t0), q, t0, t) ==>
                            SameRows(Answer(rows, q, n, t), Answer(rows, q, n, t0))
  }

  /** What lets a row pass the filters of a request. */
  datatype Site = Site(symbol: string, family: string)

  function RiskRow(site: Site, candidateId: string, horizon: int, generatedAt: Time, expiresAt: Time): Row {
    Row(RISK_ON, site.symbol, "", site.family, "", candidateId, Some(horizon), generatedAt, 0, expiresAt)
  }

  /** Two candidates at one horizon and an older row of the second at another horizon. */
  function Kept(site: Site): Row {
    RiskRow(site, "a", 4, 10, 100)
  }

  function Hidden(site: Site): Row {
    RiskRow(site, "b", 4, 9, 20)
  }

  function Older(site: Site): Row {
    RiskRow(site, "b", 24, 8, 100)
  }

  /** Rows of this site are wanted and are risk-on rows. */
  ghost predicate Fits(site: Site, q: Query, n: Normalizer) {
    forall row: Row :: row.symbol == site.symbol && row.templateFamily == site.family && row.candidate == RISK_ON ==>
      Wanted(row, q, n) && RiskOn(row)
  }

  lemma ConsiderOne(a: Row, b: Row, group: Row -> Group, better: (Row, Row) -> bool)
    ensures Consider([(group(a), a)], b, group, better)
            == if group(a) != group(b) then [(group(a), a), (group(b), b)]
               else if better(b, a) then [(group(b), b)] else [(group(a), a)]
  {
    var d: Dict := [(group(a), a)];
    assert |d[1..]| == 0 && Put(d[1..], group(b), b) == [(group(b), b)];
    assert Lookup(d, group(b)) == if group(a) == group(b) then Some(a) else None;
  }

  lemma BestOfTwo(a: Row, b: Row, group: Row -> Group, better: (Row, Row) -> bool)
    ensures Best([a, b], group, better)
            == if group(a) != group(b) then [(group(a), a), (group(b), b)]
               else if better(b, a) then [(group(b), b)] else [(group(a), a)]
  {
    BestAppend([], a, group, better);
    BestAppend([a], b, group, better);
    assert [] + [a] == [a] && [a] + [b] == [a, b];
    ConsiderOne(a, b, group, better);
  }

  lemma {:induction false} NoneKept(rows: seq<Row>, keep: Row -> bool)
    requires forall r :: !keep(r)
    ensures Filter(rows, keep) == []
    decreases |rows|
  {
    if rows != [] {
      NoneKept(rows[1..], keep);
    }
  }

  lemma {:induction false} NoneOrdinary(rows: seq<Row>)
    requires AllKept(rows, RiskOn)
    ensures Filter(rows, Ordinary) == []
    decreases |rows|
  {
    if rows != [] {
      NoneOrdinary(rows[1..]);
    }
  }

  lemma CompactedRisk(rows: seq<Row>, winners: seq<Row>)
    requires AllKept(rows, RiskOn) && winners == Values(Best(rows, HorizonGroup, Outranks))
    ensures Compacted(rows) == Listed(winners)
  {
    FilterAll(rows, RiskOn);
    NoneOrdinary(rows);
    assert Filter(rows, Ordinary) + winners == winners;
  }

  lemma ListedTwo(a: Row, b: Row)
    requires ListedBefore(a, b)
    ensures Listed([a, b]) == [a, b] && Listed([a]) == [a]
  {
    SortBySortedIsIdentity([a, b], ListedBefore);
    SortBySortedIsIdentity([a], ListedBefore);
  }

  /** The three options at once, with families, if any, that a row can belong to. */
  predicate AsksForAll(q: Query, n: Normalizer) {
    && q.freshOnly && q.latestOnly && q.compactForV5
    && (q.families == [] || exists i :: 0 <= i < |q.families| && n.Family(q.families[i]) != "")
  }

  /** A family is looked for anywhere in the text, so one text can hold it and the risk-on name. */
  lemma SiteFor(q: Query, n: Normalizer) returns (site: Site)
    requires AsksForAll(q, n)
    ensures Fits(site, q, n)
  {
    var symbol := if q.symbols == [] then "BTC-USDT" else q.symbols[0];
    assert q.symbols != [] ==> NormalizedAll(q.symbols, n.symbol)[0] == n.symbol(symbol);
    if q.families == [] {
      site := Site(symbol, "");
    } else {
      var i :| 0 <= i < |q.families| && n.Family(q.families[i]) != "";
      site := Site(symbol, n.Family(q.families[i]));
      LowerAgain(n.strip(q.families[i]));
      assert NormalizedAll(q.families, n.Family)[i] == site.family;
    }
    forall row: Row | row.symbol == site.symbol && row.templateFamily == site.family && row.candidate == RISK_ON
      ensures Wanted(row, q, n) && RiskOn(row)
    {
      HaystackHolds(row);
    }
  }

  lemma PartInside(before: string, part: string, after: string)
    ensures Contains(before + part + after, part)
  {
    assert PartAt(before + part + after, part, |before|);
  }

  lemma LowerRiskOn()
    ensures Lower(RISK_ON) == RISK_ON
  {
    assert forall i :: 0 <= i < |RISK_ON| ==> !('A' <= RISK_ON[i] <= 'Z');
  }

  /** The text of a row holds its template family and its candidate, each in lower case. */
  lemma HaystackHolds(row: Row)
    ensures Contains(row.Haystack(), Lower(row.templateFamily)) && Contains(row.Haystack(), Lower(row.candidate))
    ensures Lower(RISK_ON) == RISK_ON
  {
    var source, family, candidate := Lower(row.sourceModule) + " ", Lower(row.templateFamily), Lower(row.candidate);
    var rest := " " + Lower(row.strategyId) + " " + Lower(row.candidateId);
    assert row.Haystack() == source + family + (" " + candidate + rest);
    PartInside(source, family, " " + candidate + rest);
    assert row.Haystack() == source + family + " " + candidate + rest;
    PartInside(source + family + " ", candidate, rest);
    LowerRiskOn();
  }

  lemma MatchingThree(site: Site, q: Query, n: Normalizer, now: Time)
    requires AsksForAll(q, n) && Fits(site, q, n) && now <= 100
    ensures var a, b, c := Kept(site), Hidden(site), Older(site);
            Matching([a, b, c], q, n, now) == if now <= 20 then [a, b, c] else [a, c]
  {
    var a, b, c := Kept(site), Hidden(site), Older(site);
    FilterAll([a, b, c], WantedBy(q, n));
    assert [a] + [b, c] == [a, b, c] && [b] + [c] == [b, c] && [c] + [] == [c];
    FilterHead(a, [b, c], FreshAt(now));
    FilterHead(b, [c], FreshAt(now));
    FilterHead(c, [], FreshAt(now));
  }

  lemma LatestThree(site: Site)
    ensures var a, b, c := Kept(site), Hidden(site), Older(site);
            Latest([a, b, c]) == [a, b] && Latest([a, c]) == [a, c]
  {
    var a, b, c := Kept(site), Hidden(site), Older(site);
    BestOfTwo(a, b, CandidateGroup, Newer);
    BestOfTwo(a, c, CandidateGroup, Newer);
    var d: Dict := [(CandidateGroup(a), a), (CandidateGroup(b), b)];
    assert d[1..] == [(CandidateGroup(b), b)];
    assert Lookup(d, CandidateGroup(c)) == Some(b);
    BestAppend([a, b], c, CandidateGroup, Newer);
    assert [a, b] + [c] == [a, b, c];
  }

  /** What a request for everything at once answers from the three rows. */
  lemma AnswerOfThree(site: Site, q: Query, n: Normalizer, now: Time)
    requires AsksForAll(q, n) && Fits(site, q, n) && now <= 100
    ensures var a, b, c := Kept(site), Hidden(site), Older(site);
            Answer([a, b, c], q, n, now) == if now <= 20 then [a] else [a, c]
  {
    var a, b, c := Kept(site), Hidden(site), Older(site);
    MatchingThree(site, q, n, now);
    LatestThree(site);
    ListedTwo(a, b);
    ListedTwo(a, c);
    CompactedTwo(site, q, n);
  }

  lemma CompactedTwo(site: Site, q: Query, n: Normalizer)
    requires Fits(site, q, n)
    ensures var a, b, c := Kept(site), Hidden(site), Older(site);
            Compacted([a, b]) == [a] && Compacted([a, c]) == [a, c]
  {
    var a, b, c := Kept(site), Hidden(site), Older(site);
    ListedTwo(a, c);
    BestOfTwo(a, b, HorizonGroup, Outranks);
    BestOfTwo(a, c, HorizonGroup, Outranks);
    CompactedRisk([a, b], [a]);
    CompactedRisk([a, c], [a, c]);
  }

  /** Families that are all blank match no row. */
  lemma BlankFamilies(rows: seq<Row>, q: Query, n: Normalizer, now: Time)
    requires q.families != [] && forall i :: 0 <= i < |q.families| ==> n.Family(q.families[i]) == ""
    ensures Answer(rows, q, n, now) == []
  {
    MatchingIsOneFilter(rows, q, n, now);
    NoneKept(rows, MatchesAt(q, n, now));
  }

  lemma HiddenRowComesBack(q: Query, n: Normalizer)
    requires AsksForAll(q, n)
    ensures !AlwaysAgrees(q, n)
  {
    var site := SiteFor(q, n);
    var a, c, rows := Kept(site), Older(site), [Kept(site), Hidden(site), Older(site)];
    AnswerOfThree(site, q, n, 10);
    AnswerOfThree(site, q, n, 50);
    assert Served(Answer(rows, q, n, 10), q, 10, 50);
    assert c in Answer(rows, q, n, 50) && c !in Answer(rows, q, n, 10) by {
      assert [a, c][1] == c;
    }
  }

  /** A request is always answered alike, cached or not, if and only if it does not combine all
      three options or no row can belong to its families: a row that the compact form hides can
      expire unnoticed and let an older one of its candidate through. */
  lemma AlwaysAgreesIff(q: Query, n: Normalizer)
    ensures AlwaysAgrees(q, n)
            <==> !(q.freshOnly && q.latestOnly && q.compactForV5
                   && (q.families == [] || exists i :: 0 <= i < |q.families| && n.Family(q.families[i]) != ""))
  {
    if AsksForAll(q, n) {
      HiddenRowComesBack(q, n);
    } else {
      forall rows, t0, t | Served(Answer(rows, q, n, t0), q, t0, t)
        ensures SameRows(Answer(rows, q, n, t), Answer(rows, q, n, t0))
      {
        if q.freshOnly && q.latestOnly && q.compactForV5 {
          BlankFamilies(rows, q, n, t0);
          BlankFamilies(rows, q, n, t);
        } else {
          ServedAgrees(rows, q, n, t0, t);
        }
      }
    }
  }

  // ----- the key

  datatype CacheKey = CacheKey(
    sourceSha: string, symbols: seq<string>, families: seq<string>, latestOnly: bool, freshOnly: bool,
    fields: string, compactForV5: bool)

  /** `_strategy_opportunity_advisory_response_cache_key`, without a limit. */
  function KeyOf(sourceSha: string, q: Query, n: Normalizer): CacheKey {
    CacheKey(sourceSha, SortBy(NormalizedAll(q.symbols, n.symbol), NotAfter),
             SortBy(NormalizedAll(q.families, n.Family), NotAfter), q.latestOnly, q.freshOnly,
             n.Family(q.fields), q.compactForV5)
  }

  lemma FamiliesMatter(row: Row, a: seq<string>, b: seq<string>)
    requires InFamily(row, a) && forall f :: f in a ==> f in b
    ensures InFamily(row, b)
  {
    var i :| 0 <= i < |a| && a[i] != "" && Contains(row.Haystack(), a[i]);
    assert a[i] in b;
    var j :| 0 <= j < |b| && b[j] == a[i];
  }

  lemma SortedAlike(a: seq<string>, b: seq<string>)
    requires SortBy(a, NotAfter) == SortBy(b, NotAfter)
    ensures |a| == |b| && forall x :: x in a <==> x in b
  {
    forall x ensures x in a <==> x in b {
      assert x in SortBy(a, NotAfter) <==> x in SortBy(b, NotAfter);
    }
  }

  lemma SortedEqualIff(a: seq<string>, b: seq<string>)
    ensures SortBy(a, NotAfter) == SortBy(b, NotAfter) <==> multiset(a) == multiset(b)
  {
    TextsAreOrdered();
    SortByPermutes(a, NotAfter);
    SortByPermutes(b, NotAfter);
    SortBySorted(a, NotAfter);
    SortBySorted(b, NotAfter);
    if multiset(a) == multiset(b) {
      SortedUnique(SortBy(a, NotAfter), SortBy(b, NotAfter), NotAfter);
    }
  }

  /** Keys are equal exactly when source, options, and the normalised symbols and families agree,
      in whatever order these are given. */
  lemma KeysEqualIff(sha1: string, q1: Query, sha2: string, q2: Query, n: Normalizer)
    ensures KeyOf(sha1, q1, n) == KeyOf(sha2, q2, n)
       <==> && sha1 == sha2 && q1.latestOnly == q2.latestOnly && q1.freshOnly == q2.freshOnly
            && q1.compactForV5 == q2.compactForV5 && Lower(n.strip(q1.fields)) == Lower(n.strip(q2.fields))
            && multiset(NormalizedAll(q1.symbols, n.symbol)) == multiset(NormalizedAll(q2.symbols, n.symbol))
            && multiset(NormalizedAll(q1.families, n.Family)) == multiset(NormalizedAll(q2.families, n.Family))
  {
    SortedEqualIff(NormalizedAll(q1.symbols, n.symbol), NormalizedAll(q2.symbols, n.symbol));
    SortedEqualIff(NormalizedAll(q1.families, n.Family), NormalizedAll(q2.families, n.Family));
  }

  /** Equal keys ask for the same thing: the same answer at every moment, with the same expiry and
      the same form of the rows. */
  lemma EqualKeysEqualAnswers(sha: string, q1: Query, q2: Query, n: Normalizer, rows: seq<Row>, now: Time)
    requires KeyOf(sha, q1, n) == KeyOf(sha, q2, n)
    ensures Answer(rows, q1, n, now) == Answer(rows, q2, n, now)
    ensures Expiry(Answer(rows, q1, n, now), q1) == Expiry(Answer(rows, q2, n, now), q2)
    ensures n.Family(q1.fields) == n.Family(q2.fields)
  {
    var f1, f2 := NormalizedAll(q1.families, n.Family), NormalizedAll(q2.families, n.Family);
    SortedAlike(NormalizedAll(q1.symbols, n.symbol), NormalizedAll(q2.symbols, n.symbol));
    SortedAlike(f1, f2);
    forall r ensures WantedBy(q1, n)(r) == WantedBy(q2, n)(r) {
      if InFamily(r, f1) {
        FamiliesMatter(r, f1, f2);
      }
      if InFamily(r, f2) {
        FamiliesMatter(r, f2, f1);
      }
    }
    FilterSame(rows, WantedBy(q1, n), WantedBy(q2, n));
  }

  // ----- the cache

  /** A cached response; its rows stand for the serialized payload and its entity tag. */
  datatype Response = Response(rows: seq<Row>, createdAt: Time, validUntil: Option<Time>)

  predicate Expired(r: Response, now: Time) {
    r.validUntil.Some? && now >= r.validUntil.value
  }

  /** The rows behind a source signature. */
  type Source = string -> seq<Row>

  /** The response was computed by then for a request with this key. */
  ghost predicate Genuine(key: CacheKey, r: Response, source: Source, n: Normalizer, now: Time) {
    exists q, at: Time :: at <= now && ComputedAt(key, r, source, n, q, at)
  }

  ghost predicate ComputedAt(key: CacheKey, r: Response, source: Source, n: Normalizer, q: Query, at: Time) {
    && key == KeyOf(key.sourceSha, q, n)
    && r.rows == Answer(source(key.sourceSha), q, n, at) && r.validUntil == Expiry(r.rows, q)
  }

  ghost predicate AllGenuine(responses: map<CacheKey, Response>, source: Source, n: Normalizer, now: Time) {
    forall key :: key in responses ==> Genuine(key, responses[key], source, n, now)
  }

  predicate IsOldest(oldest: CacheKey, all: map<CacheKey, Response>)
    requires oldest in all
  {
    forall k :: k in all ==> all[oldest].createdAt <= all[k].createdAt
  }

  /** `a` is `b` with some entries gone. */
  ghost predicate Within(a: map<CacheKey, Response>, b: map<CacheKey, Response>) {
    forall key :: key in a ==> key in b && a[key] == b[key]
  }

  class AdvisoryCache {
    var responses: map<CacheKey, Response>
    const maxEntries: nat

    ghost predicate Valid(source: Source, n: Normalizer, now: Time)
      reads this
    {
      |responses| <= maxEntries && AllGenuine(responses, source, n, now)
    }

    constructor (maxEntries: int)
      ensures responses == map[] && this.maxEntries >= 1
    {
      this.maxEntries := if maxEntries >= 1 then maxEntries else 1;
      responses := map[];
    }

    /** `get`: an expired response is dropped. */
    method Get(key: CacheKey, now: Time) returns (hit: Option<Response>)
      modifies this
      ensures hit == if key in old(responses) && !Expired(old(responses)[key], now)
                     then Some(old(responses)[key]) else None
      ensures responses == if key in old(responses) && Expired(old(responses)[key], now) then old(responses) - {key}
                           else old(responses)
    {
      if key !in responses {
        return None;
      }
      var cached := responses[key];
      if cached.validUntil.Some? && now >= cached.validUntil.value {
        responses := responses - {key};
        return None;
      }
      return Some(cached);
    }

    method ClearExceptSourceSha(sourceSha: string)
      modifies this
      ensures responses == map key | key in old(responses) && key.sourceSha == sourceSha :: old(responses)[key]
    {
      responses := map key | key in responses && key.sourceSha == sourceSha :: responses[key];
    }

    /** `set`: beyond the limit one of the oldest responses goes. */
    method Set(key: CacheKey, rows: seq<Row>, validUntil: Option<Time>, now: Time)
      modifies this
      ensures var all := old(responses)[key := Response(rows, now, validUntil)];
              if |all| <= maxEntries then responses == all
              else exists oldest :: oldest in all && responses == all - {oldest} && IsOldest(oldest, all)
    {
      responses := responses[key := Response(rows, now, validUntil)];
      if |responses| > maxEntries {
        OldestExists(responses, responses.Keys);
        var oldest :| oldest in responses && IsOldest(oldest, responses);
        responses := responses - {oldest};
      }
    }

    /** The first half of a request: drop other sources, look the key up. */
    method Find(
      key: CacheKey, n: Normalizer, now: Time, ghost source: Source, ghost last: Time)
      returns (hit: Option<Response>)
      requires Valid(source, n, last) && last <= now
      modifies this
      ensures Valid(source, n, now) && forall k :: k in responses ==> k.sourceSha == key.sourceSha
      ensures hit.Some? ==> Genuine(key, hit.value, source, n, now) && !Expired(hit.value, now)
    {
      ghost var before := responses;
      ClearExceptSourceSha(key.sourceSha);
      WithinGenuine(responses, before, source, n, last, now);
      ghost var cleared := responses;
      hit := Get(key, now);
      WithinGenuine(responses, cleared, source, n, now, now);
    }

    /** The second half: compute the answer and store it. */
    method Compute(key: CacheKey, q: Query, n: Normalizer, snapshot: seq<Row>, now: Time, ghost source: Source)
      returns (rows: seq<Row>)
      requires maxEntries >= 1 && Valid(source, n, now) && snapshot == source(key.sourceSha)
               && key == KeyOf(key.sourceSha, q, n)
      modifies this
      ensures Valid(source, n, now) && rows == Answer(snapshot, q, n, now)
      ensures forall k :: k in responses ==> k == key || k in old(responses)
    {
      rows := AnswerRows(snapshot, q, n, now);
      NewGenuine(responses, key, rows, source, n, q, now);
      ghost var all := responses[key := Response(rows, now, Expiry(rows, q))];
      Set(key, rows, Expiry(rows, q), now);
      WithinGenuine(responses, all, source, n, now, now);
    }

    /** `_strategy_opportunity_advisory_response`: every response a run of requests gives holds the
        rows a recomputation would give, unless the request combines all three options. */
    method Respond(
      q: Query, n: Normalizer, sourceSha: string, snapshot: seq<Row>, now: Time, ghost source: Source,
      ghost last: Time)
      returns (rows: seq<Row>)
      requires maxEntries >= 1 && Valid(source, n, last) && last <= now && snapshot == source(sourceSha)
      modifies this
      ensures Valid(source, n, now)
      ensures forall key :: key in responses ==> key.sourceSha == sourceSha
      ensures !(q.freshOnly && q.latestOnly && q.compactForV5) ==> SameRows(rows, Answer(snapshot, q, n, now))
    {
      var key := KeyOf(sourceSha, q, n);
      var cached := Find(key, n, now, source, last);
      if cached.Some? {
        HitAgrees(key, cached.value, source, n, q, now);
        return cached.value.rows;
      }
      rows := Compute(key, q, n, snapshot, now, source);
    }
  }

  lemma {:induction false} OldestExists(responses: map<CacheKey, Response>, keys: set<CacheKey>)
    requires keys <= responses.Keys && keys != {}
    ensures exists oldest ::
              oldest in keys && forall k :: k in keys ==> responses[oldest].createdAt <= responses[k].createdAt
    decreases |keys|
  {
    var x :| x in keys;
    var rest := keys - {x};
    var oldest := x;
    if rest != {} {
      OldestExists(responses, rest);
      var y :| y in rest && forall k :: k in rest ==> responses[y].createdAt <= responses[k].createdAt;
      oldest := if responses[x].createdAt <= responses[y].createdAt then x else y;
    }
    assert forall k :: k in keys ==> k == x || k in rest;
    assert oldest in keys && forall k :: k in keys ==> responses[oldest].createdAt <= responses[k].createdAt;
  }

  lemma NewGenuine(
    responses: map<CacheKey, Response>, key: CacheKey, rows: seq<Row>, source: Source, n: Normalizer, q: Query,
    now: Time)
    requires AllGenuine(responses, source, n, now)
    requires key == KeyOf(key.sourceSha, q, n) && rows == Answer(source(key.sourceSha), q, n, now)
    ensures AllGenuine(responses[key := Response(rows, now, Expiry(rows, q))], source, n, now)
  {
    assert ComputedAt(key, Response(rows, now, Expiry(rows, q)), source, n, q, now);
  }

  lemma WithinGenuine(
    a: map<CacheKey, Response>, b: map<CacheKey, Response>, source: Source, n: Normalizer, last: Time, now: Time)
    requires Within(a, b) && AllGenuine(b, source, n, last) && last <= now
    ensures AllGenuine(a, source, n, now) && |a| <= |b|
  {
    forall key | key in a ensures Genuine(key, a[key], source, n, now) {
      assert Genuine(key, b[key], source, n, last);
      var q, at: Time :| at <= last && ComputedAt(key, b[key], source, n, q, at);
    }
    SubsetSmaller(a.Keys, b.Keys);
    assert |a| == |a.Keys| && |b| == |b.Keys|;
  }

  lemma SubsetSmaller(a: set<CacheKey>, b: set<CacheKey>)
    requires a <= b
    ensures |a| <= |b|
  {
    assert b == a + (b - a);
  }

  lemma HitAgrees(key: CacheKey, r: Response, source: Source, n: Normalizer, q: Query, now: Time)
    requires Genuine(key, r, source, n, now) && key == KeyOf(key.sourceSha, q, n) && !Expired(r, now)
    ensures !(q.freshOnly && q.latestOnly && q.compactForV5) ==>
              SameRows(r.rows, Answer(source(key.sourceSha), q, n, now))
  {
    var asked, at: Time :| at <= now && ComputedAt(key, r, source, n, asked, at);
    var rows := source(key.sourceSha);
    EqualKeysEqualAnswers(key.sourceSha, asked, q, n, rows, at);
    if !(q.freshOnly && q.latestOnly && q.compactForV5) {
      ServedAgrees(rows, q, n, at, now);
    }
  }
}
