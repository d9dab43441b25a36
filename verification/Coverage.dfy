/** `registration_coverage`: which hourly entries have a complete registration, and the ranges
    of hours that have none. */
module Coverage {
  import opened Contracts
  import opened NonOverlap
  import opened Sorting

  const GAP_LIMIT := 50
  const LATE: Time := 900 * SECOND

  /** An inclusive range of hourly entries. */
  datatype Gap = Gap(first: Time, last: Time)
  {
    function Hours(): int {
      (last - first) / HOUR + 1
    }
  }

  datatype SymbolRegistration = SymbolRegistration(
    symbol: Symbol, expectedHours: nat, registeredHours: int, missingHours: nat,
    partialHours: nat, pendingHours: nat, fraction: Option<real>, lateHours: nat,
    maximumDelay: Option<int>, latestEntry: Option<Time>, gaps: seq<Gap>, omittedGaps: nat)
  {
    predicate Valid() {
      && registeredHours >= 0 && registeredHours + missingHours == expectedHours
      && partialHours <= missingHours
      && fraction == (if expectedHours > 0 then Some(registeredHours as real / expectedHours as real) else None)
      && (fraction.Some? ==> 0.0 <= fraction.value <= 1.0)
      && (maximumDelay.Some? ==> maximumDelay.value >= 0)
      && |gaps| <= GAP_LIMIT
      && (forall i :: 0 <= i < |gaps| ==>
            gaps[i].Hours() > 0 && gaps[i].last - gaps[i].first == (gaps[i].Hours() - 1) * HOUR)
    }
  }

  datatype Status = NotStarted | Complete | Gaps

  datatype RegistrationCoverage = RegistrationCoverage(
    first: Option<Time>, due: Time, status: Status, bySymbol: seq<SymbolRegistration>)
  {
    predicate Valid() {
      && |bySymbol| == |SYMBOLS|
      && (forall i :: 0 <= i < |SYMBOLS| ==>
            bySymbol[i].symbol == SYMBOLS[i] && bySymbol[i].Valid())
      && due % HOUR == 0
      && (status == if first.None? then NotStarted
                    else if exists i :: 0 <= i < |bySymbol| && bySymbol[i].missingHours > 0 then Gaps else Complete)
      && (forall i :: 0 <= i < |bySymbol| ==> bySymbol[i].expectedHours == ExpectedHours(first, due))
    }
  }

  /** `int(a / b)`: Python truncates the quotient toward zero. */
  function Truncated(a: int, b: int): int
    requires b > 0
  {
    if a >= 0 then a / b else -((-a) / b)
  }

  function ExpectedHours(first: Option<Time>, due: Time): nat {
    if first.None? then 0 else Max(0, Truncated(due - first.value, HOUR) + 1)
  }

  function FirstEntry(rows: seq<Row>): (first: Option<Time>)
    ensures first.None? <==> rows == []
    ensures first.Some? ==>
              (exists r :: r in rows && r.entryAt == first.value) && forall r :: r in rows ==> first.value <= r.entryAt
  {
    if rows == [] then None
    else
      var rest := FirstEntry(rows[1..]);
      if rest.None? || rows[0].entryAt <= rest.value then Some(rows[0].entryAt) else rest
  }

  function Expected(first: Option<Time>, due: Time): seq<Time> {
    if first.None? then [] else seq(ExpectedHours(first, due), i requires 0 <= i => first.value + i * HOUR)
  }

  // ----- what is registered, said of the rows directly

  ghost predicate Registered(rows: seq<Row>, symbol: Symbol, entry: Time, horizon: nat) {
    exists r :: r in rows && r.symbol == symbol && r.entryAt == entry && r.horizon == horizon
  }

  /** Every horizon, and no other, is registered for the entry. */
  ghost predicate CompleteAt(rows: seq<Row>, symbol: Symbol, entry: Time) {
    forall h :: Registered(rows, symbol, entry, h) <==> h in HORIZONS
  }

  ghost predicate AnyAt(rows: seq<Row>, symbol: Symbol, entry: Time) {
    exists r :: r in rows && r.symbol == symbol && r.entryAt == entry
  }

  // ----- ranges

  function HoursOf(gap: Gap): (hours: seq<Time>)
    decreases gap.last - gap.first
  {
    if gap.first > gap.last then [] else [gap.first] + HoursOf(Gap(gap.first + HOUR, gap.last))
  }

  function Expand(gaps: seq<Gap>): seq<Time> {
    if gaps == [] then [] else HoursOf(gaps[0]) + Expand(gaps[1..])
  }

  ghost predicate WholeHours(gap: Gap) {
    gap.first <= gap.last && (gap.last - gap.first) % HOUR == 0
  }

  /** Expanding the ranges gives back the hours, and no two ranges touch. */
  ghost predicate MaximalRuns(gaps: seq<Gap>, hours: seq<Time>) {
    AllWhole(gaps) && Apart(gaps) && Expand(gaps) == hours
  }

  ghost predicate AllWhole(gaps: seq<Gap>) {
    forall i :: 0 <= i < |gaps| ==> WholeHours(gaps[i])
  }

  ghost predicate Apart(gaps: seq<Gap>) {
    forall i :: 0 <= i < |gaps| - 1 ==> gaps[i].last + HOUR < gaps[i + 1].first
  }

  /** `b` is a whole number of hours after `a`, at least one. */
  predicate LaterHour(a: Time, b: Time) {
    a < b && (b - a) % HOUR == 0
  }

  ghost predicate HourGrid(hours: seq<Time>) {
    forall i, j :: 0 <= i < j < |hours| ==> LaterHour(hours[i], hours[j])
  }

  lemma {:induction false} HoursAppend(first: Time, last: Time)
    requires WholeHours(Gap(first, last))
    ensures HoursOf(Gap(first, last + HOUR)) == HoursOf(Gap(first, last)) + [last + HOUR]
    ensures |HoursOf(Gap(first, last))| == Gap(first, last).Hours()
    decreases last - first
  {
    if first + HOUR <= last {
      HoursAppend(first + HOUR, last);
    } else {
      assert first == last;
      assert HoursOf(Gap(first + HOUR, last)) == [];
      assert HoursOf(Gap(first, last)) == [first];
      assert HoursOf(Gap(first + HOUR, last + HOUR)) == [first + HOUR] + HoursOf(Gap(first + HOUR + HOUR, last + HOUR));
    }
  }

  lemma {:induction false} ExpandConcat(a: seq<Gap>, b: seq<Gap>)
    ensures Expand(a + b) == Expand(a) + Expand(b)
    decreases |a|
  {
    if a == [] {
      assert a + b == b;
    } else {
      assert (a + b)[0] == a[0] && (a + b)[1..] == a[1..] + b;
      ExpandConcat(a[1..], b);
    }
  }

  lemma ExpandOne(gap: Gap)
    ensures Expand([gap]) == HoursOf(gap)
  {
    assert HoursOf(gap) + [] == HoursOf(gap);
  }

  lemma ExpandExtended(before: seq<Gap>, last: Gap)
    requires WholeHours(last)
    ensures Expand(before + [Gap(last.first, last.last + HOUR)]) == Expand(before + [last]) + [last.last + HOUR]
  {
    var wider := Gap(last.first, last.last + HOUR);
    ExpandConcat(before, [last]);
    ExpandConcat(before, [wider]);
    ExpandOne(last);
    ExpandOne(wider);
    HoursAppend(last.first, last.last);
    assert Expand(before) + (HoursOf(last) + [last.last + HOUR]) == Expand(before) + HoursOf(last) + [last.last + HOUR];
  }

  lemma WiderIsWhole(gap: Gap)
    requires WholeHours(gap)
    ensures WholeHours(Gap(gap.first, gap.last + HOUR))
  {
    assert gap.last + HOUR - gap.first == (gap.last - gap.first) + HOUR;
  }

  lemma WidenedRanges(before: seq<Gap>, last: Gap)
    requires AllWhole(before + [last]) && Apart(before + [last])
    ensures var wider := Gap(last.first, last.last + HOUR);
            AllWhole(before + [wider]) && Apart(before + [wider])
  {
    var gaps, wide := before + [last], before + [Gap(last.first, last.last + HOUR)];
    assert gaps[|before|] == last;
    WiderIsWhole(last);
    forall i | 0 <= i < |wide| ensures WholeHours(wide[i]) {
      assert i < |before| ==> wide[i] == gaps[i];
    }
    forall i | 0 <= i < |wide| - 1 ensures wide[i].last + HOUR < wide[i + 1].first {
      assert wide[i] == gaps[i] && wide[i + 1].first == gaps[i + 1].first;
    }
  }

  lemma ExtendLast(gaps: seq<Gap>, hours: seq<Time>)
    requires gaps != [] && MaximalRuns(gaps, hours)
    ensures var last := gaps[|gaps| - 1];
            MaximalRuns(gaps[|gaps| - 1 := Gap(last.first, last.last + HOUR)], hours + [last.last + HOUR])
  {
    var before, last := gaps[..|gaps| - 1], gaps[|gaps| - 1];
    var wider := Gap(last.first, last.last + HOUR);
    assert gaps == before + [last] && gaps[|gaps| - 1 := wider] == before + [wider];
    assert WholeHours(last);
    ExpandExtended(before, last);
    WidenedRanges(before, last);
  }

  lemma OpenRange(gaps: seq<Gap>, hours: seq<Time>, entry: Time)
    requires MaximalRuns(gaps, hours) && (gaps != [] ==> gaps[|gaps| - 1].last + HOUR < entry)
    ensures MaximalRuns(gaps + [Gap(entry, entry)], hours + [entry])
  {
    var one := Gap(entry, entry);
    ExpandConcat(gaps, [one]);
    ExpandOne(one);
    assert HoursOf(Gap(entry + HOUR, entry)) == [];
    assert HoursOf(one) == [entry] + HoursOf(Gap(entry + HOUR, entry));
  }

  /** The loop that extends the last range or opens a new one. */
  method GapRanges(missing: seq<Time>) returns (gaps: seq<Gap>)
    requires HourGrid(missing)
    ensures MaximalRuns(gaps, missing)
  {
    gaps := [];
    for i := 0 to |missing|
      invariant MaximalRuns(gaps, missing[..i])
      invariant gaps == [] <==> i == 0
      invariant i > 0 ==> gaps[|gaps| - 1].last == missing[i - 1]
    {
      var entry := missing[i];
      assert missing[..i + 1] == missing[..i] + [entry];
      if gaps != [] && entry == gaps[|gaps| - 1].last + HOUR {
        ExtendLast(gaps, missing[..i]);
        gaps := gaps[|gaps| - 1 := Gap(gaps[|gaps| - 1].first, entry)];
      } else {
        if i > 0 {
          NextOnGrid(missing[i - 1], entry);
        }
        OpenRange(gaps, missing[..i], entry);
        gaps := gaps + [Gap(entry, entry)];
      }
    }
    assert missing[..|missing|] == missing;
  }

  lemma NextOnGrid(a: Time, b: Time)
    requires LaterHour(a, b)
    ensures a + HOUR <= b
  {
  }

  // ----- what the ranges say

  lemma {:induction false} RunsAfterFirst(gaps: seq<Gap>, hours: seq<Time>)
    requires gaps != [] && MaximalRuns(gaps, hours)
    ensures HoursOf(gaps[0]) <= hours && MaximalRuns(gaps[1..], hours[|HoursOf(gaps[0])|..])
    ensures |HoursOf(gaps[0])| >= 1 && hours[0] == gaps[0].first && hours[|HoursOf(gaps[0])| - 1] == gaps[0].last
    ensures |HoursOf(gaps[0])| < |hours| ==> gaps[0].last + HOUR < hours[|HoursOf(gaps[0])|]
  {
    var own := HoursOf(gaps[0]);
    assert hours == own + Expand(gaps[1..]);
    assert hours[|own|..] == Expand(gaps[1..]);
    HoursEnds(gaps[0]);
    if |gaps| > 1 {
      HoursEnds(gaps[1]);
      assert Expand(gaps[1..]) == HoursOf(gaps[1]) + Expand(gaps[1..][1..]);
    }
    forall i | 0 <= i < |gaps[1..]| - 1 ensures gaps[1..][i].last + HOUR < gaps[1..][i + 1].first {
      assert gaps[i + 1].last + HOUR < gaps[i + 1 + 1].first;
    }
  }

  lemma {:induction false} HoursEnds(gap: Gap)
    requires WholeHours(gap)
    ensures var hours := HoursOf(gap); |hours| >= 1 && hours[0] == gap.first && hours[|hours| - 1] == gap.last
    ensures forall i :: 0 <= i < |HoursOf(gap)| ==> HoursOf(gap)[i] == gap.first + i * HOUR
    decreases gap.last - gap.first
  {
    if gap.first + HOUR <= gap.last {
      HoursEnds(Gap(gap.first + HOUR, gap.last));
    } else {
      assert gap.first == gap.last && HoursOf(Gap(gap.first + HOUR, gap.last)) == [];
    }
  }

  lemma FirstRunNotShorter(a: seq<Gap>, b: seq<Gap>, hours: seq<Time>)
    requires a != [] && b != [] && MaximalRuns(a, hours) && MaximalRuns(b, hours)
    ensures |HoursOf(a[0])| >= |HoursOf(b[0])|
  {
    RunsAfterFirst(a, hours);
    RunsAfterFirst(b, hours);
    HoursEnds(a[0]);
    HoursEnds(b[0]);
    var own, other := HoursOf(a[0]), HoursOf(b[0]);
    if |own| < |other| {
      assert hours[|own|] == other[|own|] && hours[|own| - 1] == other[|own| - 1];
      NextHour(b[0].first, |own|);
      assert false;
    }
  }

  lemma NextHour(first: Time, i: int)
    ensures first + i * HOUR == first + (i - 1) * HOUR + HOUR
  {
  }

  /** Two range lists that both are maximal runs of the same hours are equal. */
  lemma {:induction false} RunsUnique(a: seq<Gap>, b: seq<Gap>, hours: seq<Time>)
    requires MaximalRuns(a, hours) && MaximalRuns(b, hours)
    ensures a == b
    decreases |a|
  {
    if a != [] && b != [] {
      FirstRunNotShorter(a, b, hours);
      FirstRunNotShorter(b, a, hours);
      RunsAfterFirst(a, hours);
      RunsAfterFirst(b, hours);
      assert a[0] == b[0];
      RunsUnique(a[1..], b[1..], hours[|HoursOf(a[0])|..]);
      assert a == [a[0]] + a[1..] && b == [b[0]] + b[1..];
    } else if a != [] {
      RunsAfterFirst(a, hours);
    } else if b != [] {
      RunsAfterFirst(b, hours);
    }
  }

  function TotalHours(gaps: seq<Gap>): int {
    if gaps == [] then 0 else gaps[0].Hours() + TotalHours(gaps[1..])
  }

  /** The ranges' hour counts sum to the number of missing hours. */
  lemma {:induction false} RunsTotal(gaps: seq<Gap>, hours: seq<Time>)
    requires MaximalRuns(gaps, hours)
    ensures TotalHours(gaps) == |hours|
    decreases |gaps|
  {
    if gaps != [] {
      RunsAfterFirst(gaps, hours);
      HoursAppend(gaps[0].first, gaps[0].last);
      RunsTotal(gaps[1..], hours[|HoursOf(gaps[0])|..]);
    }
  }

  // ----- one symbol

  /** What the loop over the rows has recorded about `rows`. */
  ghost predicate Recorded(rows: seq<Row>, symbol: Symbol, slots: map<Time, Time>, horizons: map<Time, set<nat>>) {
    && slots.Keys == horizons.Keys
    && (forall e :: e in slots <==> AnyAt(rows, symbol, e))
    && (forall e, h :: e in horizons ==> (h in horizons[e] <==> Registered(rows, symbol, e, h)))
  }

  /** Every slot holds the earliest publication of its entry. */
  ghost predicate Earliest(rows: seq<Row>, symbol: Symbol, slots: map<Time, Time>) {
    && (forall e :: e in slots ==>
          exists r :: r in rows && r.symbol == symbol && r.entryAt == e && r.publishedAt == slots[e])
    && (forall r :: r in rows && r.symbol == symbol ==> r.entryAt in slots && slots[r.entryAt] <= r.publishedAt)
  }

  lemma RegisteredAppend(rows: seq<Row>, r: Row, symbol: Symbol)
    ensures forall e, h :: Registered(rows + [r], symbol, e, h)
              <==> Registered(rows, symbol, e, h) || (r.symbol == symbol && r.entryAt == e && r.horizon == h)
    ensures forall e :: AnyAt(rows + [r], symbol, e) <==>
            AnyAt(rows, symbol, e) || (r.symbol == symbol && r.entryAt == e)
  {
    assert forall x :: x in rows + [r] <==> x in rows || x == r;
  }

  lemma RecordedAppend(
    rows: seq<Row>, r: Row, symbol: Symbol, slots: map<Time, Time>, horizons: map<Time, set<nat>>, at: Time)
    requires Recorded(rows, symbol, slots, horizons)
    ensures if r.symbol != symbol then Recorded(rows + [r], symbol, slots, horizons)
            else Recorded(rows + [r], symbol, slots[r.entryAt := at],
                          horizons[r.entryAt := (if r.entryAt in horizons then horizons[r.entryAt] else {})
                            + {r.horizon}])
  {
    RegisteredAppend(rows, r, symbol);
  }

  method SlotsOf(rows: seq<Row>, symbol: Symbol)
    returns (slots: map<Time, Time>, horizons: map<Time, set<nat>>, order: seq<Time>)
    ensures Recorded(rows, symbol, slots, horizons) && Earliest(rows, symbol, slots)
    ensures forall e :: e in order <==> e in slots
  {
    slots, horizons, order := map[], map[], [];
    for i := 0 to |rows|
      invariant Recorded(rows[..i], symbol, slots, horizons) && Earliest(rows[..i], symbol, slots)
      invariant forall e :: e in order <==> e in slots
    {
      var row := rows[i];
      assert rows[..i + 1] == rows[..i] + [row];
      if row.symbol == symbol {
        var published := Min(if row.entryAt in slots then slots[row.entryAt] else row.publishedAt, row.publishedAt);
        RecordedAppend(rows[..i], row, symbol, slots, horizons, published);
        if row.entryAt !in slots {
          order := order + [row.entryAt];
        }
        slots := slots[row.entryAt := published];
        horizons := horizons[row.entryAt := (if row.entryAt in horizons then horizons[row.entryAt] else {})
          + {row.horizon}];
      } else {
        RecordedAppend(rows[..i], row, symbol, slots, horizons, 0);
      }
    }
    assert rows[..|rows|] == rows;
  }

  function Missing(expected: seq<Time>, complete: set<Time>): (missing: seq<Time>)
    ensures |missing| <= |expected|
    ensures forall e :: e in missing <==> e in expected && e !in complete
  {
    if expected == [] then []
    else (if expected[0] in complete then [] else [expected[0]]) + Missing(expected[1..], complete)
  }

  lemma {:induction false} MissingOnGrid(expected: seq<Time>, complete: set<Time>)
    requires HourGrid(expected)
    ensures HourGrid(Missing(expected, complete))
    decreases |expected|
  {
    if expected != [] {
      MissingOnGrid(expected[1..], complete);
      var rest := Missing(expected[1..], complete);
      forall i | 0 <= i < |rest| ensures LaterHour(expected[0], rest[i]) {
        assert rest[i] in expected[1..];
        var j :| 0 <= j < |expected[1..]| && expected[1..][j] == rest[i];
        assert expected[j + 1] == rest[i];
      }
    }
  }

  lemma ExpectedOnGrid(first: Option<Time>, due: Time)
    ensures HourGrid(Expected(first, due))
  {
    var expected := Expected(first, due);
    forall i, j | 0 <= i < j < |expected| ensures LaterHour(expected[i], expected[j]) {
      assert expected[j] - expected[i] == (j - i) * HOUR;
      MultipleOfHour(j - i);
    }
  }

  lemma MultipleOfHour(n: int)
    ensures n * HOUR % HOUR == 0
  {
  }

  function CountIn(hours: seq<Time>, slots: set<Time>): (n: nat)
    ensures n <= |hours|
  {
    if hours == [] then 0 else (if hours[0] in slots then 1 else 0) + CountIn(hours[1..], slots)
  }

  /** The last ranges, as many as the report may hold. */
  function Tail(gaps: seq<Gap>): seq<Gap> {
    if |gaps| > GAP_LIMIT then gaps[|gaps| - GAP_LIMIT..] else gaps
  }

  /** How long after its market hour each registered entry was first published. */
  function DelayOf(slots: map<Time, Time>, entry: Time): int
    requires entry in slots
  {
    slots[entry] - (entry - HOUR)
  }

  /** `max(..., default=None)`. */
  function MaximumOf(values: seq<int>): (m: Option<int>)
    ensures m.None? <==> values == []
    ensures m.Some? ==> m.value in values && forall i :: 0 <= i < |values| ==> values[i] <= m.value
  {
    if values == [] then None
    else
      var rest := MaximumOf(values[1..]);
      if rest.None? || values[0] >= rest.value then Some(values[0]) else rest
  }

  /** The hours due that lack a complete set of horizons, in order. */
  ghost predicate IsMissing(missing: seq<Time>, symbol: Symbol, rows: seq<Row>, expected: seq<Time>) {
    (forall e :: e in missing <==> e in expected && !CompleteAt(rows, symbol, e)) && HourGrid(missing)
  }

  ghost predicate ExactBy(
    line: SymbolRegistration, rows: seq<Row>, expected: seq<Time>, missing: seq<Time>, runs: seq<Gap>)
  {
    && IsMissing(missing, line.symbol, rows, expected) && MaximalRuns(runs, missing)
    && line.missingHours == |missing| && line.omittedGaps + |line.gaps| == |runs|
    && line.gaps == if |runs| > 50 then runs[|runs| - 50..] else runs
  }

  function Hours(slots: map<Time, Time>, wanted: Time -> bool): set<Time> {
    set e | e in slots.Keys && wanted(e)
  }

  ghost predicate IsLatestEntry(latest: Option<Time>, slots: map<Time, Time>) {
    match latest
    case None => slots == map[]
    case Some(t) => t in slots && forall e :: e in slots ==> e <= t
  }

  ghost predicate IsLongestDelay(delay: Option<int>, slots: map<Time, Time>) {
    match delay
    case None => slots == map[]
    case Some(d) =>
      && (exists e :: e in slots && slots[e] == e - HOUR + d)
      && (forall e :: e in slots ==> slots[e] <= e - HOUR + d)
  }

  /** With `slots` giving each registered entry its first publication: the missing hours that are
      registered in part, the entries beyond the deadline, those published late, the longest
      delay and the latest entry. */
  ghost predicate ExactTimes(
    line: SymbolRegistration, rows: seq<Row>, missing: seq<Time>, due: Time, slots: map<Time, Time>)
  {
    && Earliest(rows, line.symbol, slots)
    && line.partialHours == |set e | e in slots && e in missing|
    && line.pendingHours == |set e | e in slots && e > due|
    && line.lateHours == |set e | e in slots && slots[e] - (e - HOUR) > 900 * SECOND|
    && IsLongestDelay(line.maximumDelay, slots) && IsLatestEntry(line.latestEntry, slots)
  }

  /** What one line of the report means, said of the rows. */
  ghost predicate Exact(line: SymbolRegistration, rows: seq<Row>, expected: seq<Time>, due: Time) {
    && line.expectedHours == |expected| && line.registeredHours == |expected| - line.missingHours
    && line.fraction == (if |expected| > 0 then Some(line.registeredHours as real / |expected| as real) else None)
    && exists missing: seq<Time>, runs: seq<Gap>, slots: map<Time, Time> ::
         ExactBy(line, rows, expected, missing, runs) && ExactTimes(line, rows, missing, due, slots)
  }

  ghost predicate Prompt(rows: seq<Row>) {
    forall r :: r in rows ==> r.publishedAt >= r.entryAt - HOUR
  }

  lemma CompleteAgrees(rows: seq<Row>, symbol: Symbol, slots: map<Time, Time>, horizons: map<Time, set<nat>>, e: Time)
    requires Recorded(rows, symbol, slots, horizons)
    ensures (e in horizons && horizons[e] == {4, 24}) <==> CompleteAt(rows, symbol, e)
  {
    if CompleteAt(rows, symbol, e) {
      assert Registered(rows, symbol, e, 4);
      forall h ensures h in horizons[e] <==> h in {4, 24} {
        assert h in horizons[e] <==> Registered(rows, symbol, e, h);
      }
    } else if e in horizons && horizons[e] == {4, 24} {
      forall h ensures Registered(rows, symbol, e, h) <==> h in HORIZONS {
        assert h in horizons[e] <==> Registered(rows, symbol, e, h);
      }
    }
  }

  lemma GapsValid(gaps: seq<Gap>, hours: seq<Time>)
    requires MaximalRuns(gaps, hours)
    ensures forall i :: 0 <= i < |Tail(gaps)| ==>
              var gap := Tail(gaps)[i]; gap.Hours() > 0 && gap.last - gap.first == (gap.Hours() - 1) * HOUR
  {
    forall i | 0 <= i < |Tail(gaps)|
      ensures var gap := Tail(gaps)[i]; gap.Hours() > 0 && gap.last - gap.first == (gap.Hours() - 1) * HOUR
    {
      assert Tail(gaps)[i] in gaps;
    }
  }

  /** The line assembled from the pieces. */
  function Line(
    symbol: Symbol, expected: seq<Time>, missing: seq<Time>, gaps: seq<Gap>, slots: map<Time, Time>,
    due: Time, maximum: Option<int>, latest: Option<Time>): SymbolRegistration
    requires |missing| <= |expected|
  {
    var registered := |expected| - |missing|;
    SymbolRegistration(
      symbol, |expected|, registered, |missing|, CountIn(missing, slots.Keys),
      |Hours(slots, e => e > due)|,
      if |expected| > 0 then Some(registered as real / |expected| as real) else None,
      |Hours(slots, e => e in slots && DelayOf(slots, e) > LATE)|,
      maximum, latest, Tail(gaps), Max(0, |gaps| - GAP_LIMIT))
  }

  /** On distinct hours the count along the list is the size of a set. */
  lemma {:induction false} CountInIsSize(hours: seq<Time>, slots: map<Time, Time>)
    requires HourGrid(hours)
    ensures CountIn(hours, slots.Keys) == |Hours(slots, e => e in hours)|
    decreases |hours|
  {
    if hours == [] {
      assert Hours(slots, e => e in hours) == {};
    } else {
      var rest := hours[1..];
      CountInIsSize(rest, slots);
      var before := Hours(slots, e => e in rest);
      assert hours[0] !in rest by {
        forall i | 0 <= i < |rest| ensures rest[i] > hours[0] {
          assert rest[i] == hours[i + 1] && LaterHour(hours[0], hours[i + 1]);
        }
      }
      assert Hours(slots, e => e in hours) == before + if hours[0] in slots then {hours[0]} else {};
    }
  }

  lemma MaximaExact(slots: map<Time, Time>, order: seq<Time>)
    requires forall e :: e in order <==> e in slots
    ensures IsLatestEntry(MaximumOf(order), slots)
    ensures IsLongestDelay(MaximumOf(Delays(slots, order)), slots)
  {
    var delays := Delays(slots, order);
    if order == [] {
      assert forall e :: e in slots ==> e in order;
      assert slots == map[];
    } else {
      assert order[0] in slots;
      var longest := MaximumOf(delays).value;
      var i :| 0 <= i < |delays| && delays[i] == longest;
      assert order[i] in slots && DelayOf(slots, order[i]) == longest;
      forall e | e in slots ensures DelayOf(slots, e) <= longest && e <= MaximumOf(order).value {
        var k :| 0 <= k < |order| && order[k] == e;
        assert delays[k] == DelayOf(slots, e);
      }
    }
  }

  function Delays(slots: map<Time, Time>, order: seq<Time>): seq<int>
    requires forall e :: e in order ==> e in slots
  {
    seq(|order|, i requires 0 <= i < |order| => DelayOf(slots, order[i]))
  }

  lemma LineExact(
    rows: seq<Row>, symbol: Symbol, expected: seq<Time>, missing: seq<Time>, gaps: seq<Gap>, slots: map<Time, Time>,
    due: Time, maximum: Option<int>, latest: Option<Time>)
    requires |missing| <= |expected| && HourGrid(missing) && MaximalRuns(gaps, missing)
    requires forall e :: e in missing <==> e in expected && !CompleteAt(rows, symbol, e)
    requires Earliest(rows, symbol, slots) && IsLongestDelay(maximum, slots) && IsLatestEntry(latest, slots)
    ensures Exact(Line(symbol, expected, missing, gaps, slots, due, maximum, latest), rows, expected, due)
  {
    var line := Line(symbol, expected, missing, gaps, slots, due, maximum, latest);
    CountInIsSize(missing, slots);
    assert Hours(slots, e => e in missing) == set e | e in slots && e in missing;
    assert Hours(slots, e => e > due) == set e | e in slots && e > due;
    assert Hours(slots, e => e in slots && DelayOf(slots, e) > LATE)
        == set e | e in slots && slots[e] - (e - HOUR) > 900 * SECOND;
    assert ExactBy(line, rows, expected, missing, gaps);
    assert ExactTimes(line, rows, missing, due, slots);
  }

  lemma LineValid(
    rows: seq<Row>, symbol: Symbol, expected: seq<Time>, missing: seq<Time>, gaps: seq<Gap>, slots: map<Time, Time>,
    due: Time, maximum: Option<int>, latest: Option<Time>)
    requires |missing| <= |expected| && MaximalRuns(gaps, missing)
    requires Prompt(rows) && Earliest(rows, symbol, slots) && IsLongestDelay(maximum, slots)
    ensures Line(symbol, expected, missing, gaps, slots, due, maximum, latest).Valid()
  {
    GapsValid(gaps, missing);
    if |expected| > 0 {
      FractionInRange(|expected| - |missing|, |expected|);
    }
    forall e | e in slots ensures DelayOf(slots, e) >= 0 {
      var r :| r in rows && r.symbol == symbol && r.entryAt == e && r.publishedAt == slots[e];
    }
  }

  method CoverSymbol(rows: seq<Row>, symbol: Symbol, expected: seq<Time>, due: Time) returns (line: SymbolRegistration)
    requires HourGrid(expected)
    ensures line.symbol == symbol && Exact(line, rows, expected, due)
    ensures Prompt(rows) ==> line.Valid()
  {
    var slots, horizons, order := SlotsOf(rows, symbol);
    var complete := set e | e in horizons.Keys && horizons[e] == {4, 24};
    forall e ensures e in complete <==> CompleteAt(rows, symbol, e) {
      CompleteAgrees(rows, symbol, slots, horizons, e);
    }
    var missing := Missing(expected, complete);
    MissingOnGrid(expected, complete);
    var gaps := GapRanges(missing);
    var maximum, latest := MaximumOf(Delays(slots, order)), MaximumOf(order);
    MaximaExact(slots, order);
    line := Line(symbol, expected, missing, gaps, slots, due, maximum, latest);
    LineExact(rows, symbol, expected, missing, gaps, slots, due, maximum, latest);
    if Prompt(rows) {
      LineValid(rows, symbol, expected, missing, gaps, slots, due, maximum, latest);
    }
  }

  // ----- the report

  lemma FloorIsWhole(now: Time)
    ensures (now - now % HOUR) % HOUR == 0
  {
  }

  ghost predicate LineGood(line: SymbolRegistration, rows: seq<Row>, expected: seq<Time>, due: Time) {
    Exact(line, rows, expected, due) && (Prompt(rows) ==> line.Valid())
  }

  ghost predicate AllGood(lines: seq<SymbolRegistration>, rows: seq<Row>, expected: seq<Time>, due: Time) {
    forall i :: 0 <= i < |lines| ==> LineGood(lines[i], rows, expected, due)
  }

  ghost predicate SymbolsInOrder(lines: seq<SymbolRegistration>) {
    |lines| <= |SYMBOLS| && forall i :: 0 <= i < |lines| ==> lines[i].symbol == SYMBOLS[i]
  }

  ghost predicate AnyMissing(lines: seq<SymbolRegistration>) {
    exists k :: 0 <= k < |lines| && lines[k].missingHours > 0
  }

  /** The lines of the first symbols, and whether any hour is missing in them. */
  ghost predicate Covered(
    lines: seq<SymbolRegistration>, gaps: bool, n: nat, rows: seq<Row>, expected: seq<Time>, due: Time)
  {
    |lines| == n && SymbolsInOrder(lines) && AllGood(lines, rows, expected, due) && gaps == AnyMissing(lines)
  }

  lemma AllGoodAppend(
    lines: seq<SymbolRegistration>, line: SymbolRegistration, rows: seq<Row>, expected: seq<Time>, due: Time)
    requires AllGood(lines, rows, expected, due) && LineGood(line, rows, expected, due)
    ensures AllGood(lines + [line], rows, expected, due)
  {
  }

  lemma AnyMissingAppend(lines: seq<SymbolRegistration>, line: SymbolRegistration)
    ensures AnyMissing(lines + [line]) <==> AnyMissing(lines) || line.missingHours > 0
  {
    var more := lines + [line];
    if AnyMissing(lines) {
      var k :| 0 <= k < |lines| && lines[k].missingHours > 0;
      assert more[k].missingHours > 0;
    }
    if line.missingHours > 0 {
      assert more[|lines|].missingHours > 0;
    }
  }

  lemma InOrderAppend(lines: seq<SymbolRegistration>, line: SymbolRegistration)
    requires SymbolsInOrder(lines) && |lines| < |SYMBOLS| && line.symbol == SYMBOLS[|lines|]
    ensures SymbolsInOrder(lines + [line])
  {
  }

  lemma CoverOneMore(
    lines: seq<SymbolRegistration>, gaps: bool, n: nat, line: SymbolRegistration,
    rows: seq<Row>, expected: seq<Time>, due: Time)
    requires Covered(lines, gaps, n, rows, expected, due) && LineGood(line, rows, expected, due)
    requires n < |SYMBOLS| && line.symbol == SYMBOLS[n]
    ensures Covered(lines + [line], gaps || line.missingHours > 0, n + 1, rows, expected, due)
  {
    InOrderAppend(lines, line);
    AllGoodAppend(lines, line, rows, expected, due);
    AnyMissingAppend(lines, line);
  }

  method CoverOne(rows: seq<Row>, symbol: Symbol, expected: seq<Time>, due: Time) returns (line: SymbolRegistration)
    requires HourGrid(expected)
    ensures line.symbol == symbol && LineGood(line, rows, expected, due)
  {
    line := CoverSymbol(rows, symbol, expected, due);
  }

  method CoverSymbols(
    rows: seq<Row>, expected: seq<Time>, due: Time) returns (lines: seq<SymbolRegistration>, gaps: bool)
    requires HourGrid(expected)
    ensures Covered(lines, gaps, |SYMBOLS|, rows, expected, due)
  {
    lines, gaps := [], false;
    for i := 0 to |SYMBOLS|
      invariant Covered(lines, gaps, i, rows, expected, due)
    {
      var line := CoverOne(rows, SYMBOLS[i], expected, due);
      CoverOneMore(lines, gaps, i, line, rows, expected, due);
      lines := lines + [line];
      gaps := gaps || line.missingHours > 0;
    }
  }

  lemma ReportValid(report: RegistrationCoverage, gaps: bool)
    requires |report.bySymbol| == |SYMBOLS| && SymbolsInOrder(report.bySymbol)
    requires forall i :: 0 <= i < |report.bySymbol| ==> report.bySymbol[i].Valid()
    requires forall i :: 0 <= i < |SYMBOLS| ==>
               report.bySymbol[i].expectedHours == ExpectedHours(report.first, report.due)
    requires gaps <==> AnyMissing(report.bySymbol)
    requires report.due % HOUR == 0
    requires report.status == if report.first.None? then NotStarted else if gaps then Gaps else Complete
    ensures report.Valid()
  {
  }

  ghost predicate IsFirst(first: Time, rows: seq<Row>) {
    (exists r :: r in rows && r.entryAt == first) && forall r :: r in rows ==> first <= r.entryAt
  }

  /** A whole number of hours after the first entry and due by now; the first entry itself counts
      from an hour earlier, as the quotient is truncated. */
  ghost predicate DueSince(first: Time, due: Time, e: Time) {
    e >= first && (e - first) % HOUR == 0 && (e <= due || (e == first && first < due + HOUR))
  }

  /** The hours due, in order. */
  ghost predicate IsDue(expected: seq<Time>, rows: seq<Row>, due: Time) {
    HourGrid(expected) && forall e :: e in expected <==> exists first :: IsFirst(first, rows) && DueSince(first, due, e)
  }

  lemma DueIff(first: Time, due: Time, e: Time)
    ensures e in Expected(Some(first), due) <==> DueSince(first, due, e)
  {
    var expected := Expected(Some(first), due);
    if DueSince(first, due, e) {
      var i := (e - first) / HOUR;
      assert e == first + i * HOUR;
      if e <= due {
        QuotientOrder(i, due - first);
      }
      assert expected[i] == e;
    }
    if e in expected {
      var i :| 0 <= i < |expected| && expected[i] == e;
      assert e - first == i * HOUR;
      MultipleOfHour(i);
      if due >= first {
        QuotientOrder(i, due - first);
      }
    }
  }

  lemma QuotientOrder(i: int, d: int)
    requires d >= 0
    ensures i <= d / HOUR <==> i * HOUR <= d
  {
  }

  lemma ExpectedIsDue(rows: seq<Row>, due: Time)
    ensures IsDue(Expected(FirstEntry(rows), due), rows, due)
  {
    var first := FirstEntry(rows);
    ExpectedOnGrid(first, due);
    if first.Some? {
      forall f ensures IsFirst(f, rows) <==> f == first.value {
      }
      forall e ensures e in Expected(first, due) <==> DueSince(first.value, due, e) {
        DueIff(first.value, due, e);
      }
    }
  }

  /** The whole report. Each line is exact: its missing hours are the due entries since the first
      registration that lack a complete set of horizons, its ranges are their maximal runs (the
      last ones, with the others counted); and with prompt rows every validator holds. */
  method RegistrationReport(rows: seq<Row>, now: Time) returns (report: RegistrationCoverage)
    ensures report.first == FirstEntry(rows) && report.due == now - now % HOUR
    ensures |report.bySymbol| == |SYMBOLS| && SymbolsInOrder(report.bySymbol)
    ensures forall i :: 0 <= i < |SYMBOLS| ==>
              Exact(report.bySymbol[i], rows, Expected(report.first, report.due), report.due)
    ensures IsDue(Expected(report.first, report.due), rows, report.due)
    ensures report.status == if rows == [] then NotStarted else if AnyMissing(report.bySymbol) then Gaps else Complete
    ensures Prompt(rows) ==> report.Valid()
  {
    var due := now - now % HOUR;
    FloorIsWhole(now);
    var first := FirstEntry(rows);
    var expected := Expected(first, due);
    ExpectedIsDue(rows, due);
    var lines, gaps := CoverSymbols(rows, expected, due);
    var status := if first.None? then NotStarted else if gaps then Gaps else Complete;
    report := RegistrationCoverage(first, due, status, lines);
    forall i | 0 <= i < |lines|
      ensures Exact(lines[i], rows, expected, due) && lines[i].expectedHours == |expected|
              && (Prompt(rows) ==> lines[i].Valid())
    {
      assert LineGood(lines[i], rows, expected, due);
    }
    if Prompt(rows) {
      ReportValid(report, gaps);
    }
  }

  lemma SameHours(m: seq<Time>, n: seq<Time>)
    requires HourGrid(m) && HourGrid(n) && SameElements(m, n)
    ensures m == n
  {
    StrictlySortedUnique(m, n, LaterHour);
  }

  lemma MissingUnique(m: seq<Time>, n: seq<Time>, symbol: Symbol, rows: seq<Row>, expected: seq<Time>)
    requires IsMissing(m, symbol, rows, expected) && IsMissing(n, symbol, rows, expected)
    ensures m == n
  {
    forall e ensures e in m <==> e in n {
    }
    SameHours(m, n);
  }

  lemma ExactParts(line: SymbolRegistration, rows: seq<Row>, expected: seq<Time>, due: Time)
    returns (missing: seq<Time>, runs: seq<Gap>, slots: map<Time, Time>)
    requires Exact(line, rows, expected, due)
    ensures ExactBy(line, rows, expected, missing, runs) && ExactTimes(line, rows, missing, due, slots)
  {
    missing, runs, slots :| ExactBy(line, rows, expected, missing, runs) && ExactTimes(line, rows, missing, due, slots);
  }

  lemma EarliestUnique(rows: seq<Row>, symbol: Symbol, p: map<Time, Time>, q: map<Time, Time>)
    requires Earliest(rows, symbol, p) && Earliest(rows, symbol, q)
    ensures p == q
  {
    forall e ensures (e in p <==> e in q) && (e in p ==> p[e] == q[e]) {
      if e in p {
        var r :| r in rows && r.symbol == symbol && r.entryAt == e && r.publishedAt == p[e];
      }
      if e in q {
        var r :| r in rows && r.symbol == symbol && r.entryAt == e && r.publishedAt == q[e];
      }
    }
  }

  lemma TimesDetermine(
    a: SymbolRegistration, b: SymbolRegistration, rows: seq<Row>, missing: seq<Time>, due: Time, slots: map<Time, Time>)
    requires ExactTimes(a, rows, missing, due, slots) && ExactTimes(b, rows, missing, due, slots)
    ensures a.partialHours == b.partialHours && a.pendingHours == b.pendingHours && a.lateHours == b.lateHours
    ensures a.maximumDelay == b.maximumDelay && a.latestEntry == b.latestEntry
  {
  }

  /** A line is determined by the rows: no two exact lines of a symbol differ in anything. */
  lemma ExactDetermines(a: SymbolRegistration, b: SymbolRegistration, rows: seq<Row>, expected: seq<Time>, due: Time)
    requires Exact(a, rows, expected, due) && Exact(b, rows, expected, due) && a.symbol == b.symbol
    ensures a == b
  {
    var m, r, p := ExactParts(a, rows, expected, due);
    var n, q, t := ExactParts(b, rows, expected, due);
    MissingUnique(m, n, a.symbol, rows, expected);
    RunsUnique(r, q, m);
    EarliestUnique(rows, a.symbol, p, t);
    TimesDetermine(a, b, rows, m, due, p);
  }
}
