/** `prepare_history`: the available closed bars, one for each symbol and hour. */
module History {
  import opened Contracts
  import opened Sorting
  import opened NonOverlap

  predicate SameKey(a: HourBar, b: HourBar) {
    a.symbol == b.symbol && a.ts == b.ts
  }

  predicate BarBefore(a: HourBar, b: HourBar) {
    if a.symbol != b.symbol then SymbolRank(a.symbol) < SymbolRank(b.symbol) else a.ts < b.ts
  }

  predicate BarNotAfter(a: HourBar, b: HourBar) {
    if a.symbol != b.symbol then SymbolRank(a.symbol) < SymbolRank(b.symbol) else a.ts <= b.ts
  }

  /** Two available bars of one hour that disagree about the market. */
  ghost predicate Conflict(bars: seq<HourBar>, now: Time) {
    exists a, b :: a in bars && b in bars && a.Available(now) && b.Available(now) && SameKey(a, b) && !a.SameMarket(b)
  }

  /** Strictly ascending, nothing invented, and for every available bar one of its hour that was
      ingested no earlier. */
  ghost predicate IsPrepared(history: seq<HourBar>, bars: seq<HourBar>, now: Time) {
    && StrictlySorted(history, BarBefore)
    && (forall h :: h in history ==> h in bars && h.Available(now))
    && (forall b {:trigger Represented(history, b)} :: b in bars && b.Available(now) ==> Represented(history, b))
  }

  ghost predicate Represented(history: seq<HourBar>, b: HourBar) {
    exists h :: h in history && SameKey(h, b) && b.ingestTs <= h.ingestTs
  }

  // ----- consequences

  ghost predicate SameAvailable(a: seq<HourBar>, b: seq<HourBar>, now: Time) {
    forall bar: HourBar :: bar.Available(now) ==> (bar in a <==> bar in b)
  }

  lemma OnePerKey(x: seq<HourBar>, a: HourBar, b: HourBar)
    requires StrictlySorted(x, BarBefore) && a in x && b in x && SameKey(a, b)
    ensures a == b
  {
    var i :| 0 <= i < |x| && x[i] == a;
    var j :| 0 <= j < |x| && x[j] == b;
  }

  lemma OneMarket(bars: seq<HourBar>, now: Time, a: HourBar, b: HourBar)
    requires !Conflict(bars, now) && a in bars && b in bars && a.Available(now) && b.Available(now) && SameKey(a, b)
    ensures a.SameMarket(b)
  {
  }

  lemma Representative(history: seq<HourBar>, bars: seq<HourBar>, now: Time, b: HourBar) returns (h: HourBar)
    requires IsPrepared(history, bars, now) && b in bars && b.Available(now)
    ensures h in history && h in bars && h.Available(now) && SameKey(h, b) && b.ingestTs <= h.ingestTs
  {
    assert Represented(history, b);
    h :| h in history && SameKey(h, b) && b.ingestTs <= h.ingestTs;
  }

  lemma PreparedContains(x: seq<HourBar>, y: seq<HourBar>, a: seq<HourBar>, b: seq<HourBar>, now: Time, bar: HourBar)
    requires IsPrepared(x, a, now) && IsPrepared(y, b, now) && SameAvailable(a, b, now) && !Conflict(a, now)
    requires bar in x
    ensures bar in y
  {
    var other := Representative(y, b, now, bar);
    var back := Representative(x, a, now, other);
    assert back == bar by {
      OnePerKey(x, back, bar);
    }
    assert bar.SameMarket(other) by {
      OneMarket(a, now, bar, other);
    }
  }

  /** The result depends only on which available bars the input holds: not on their order, on
      repetitions, or on bars that were not closed and ingested by now. */
  lemma PreparedUnique(x: seq<HourBar>, y: seq<HourBar>, a: seq<HourBar>, b: seq<HourBar>, now: Time)
    requires IsPrepared(x, a, now) && IsPrepared(y, b, now) && SameAvailable(a, b, now) && !Conflict(a, now)
    ensures x == y
  {
    forall i | 0 <= i < |x| ensures x[i] in y {
      PreparedContains(x, y, a, b, now, x[i]);
    }
    forall i | 0 <= i < |y| ensures y[i] in x {
      assert !Conflict(b, now);
      PreparedContains(y, x, b, a, now, y[i]);
    }
    StrictlySortedUnique(x, y, BarBefore);
  }

  /** Preparing a prepared history raises nothing and changes nothing. */
  lemma PreparedIsFixed(x: seq<HourBar>, bars: seq<HourBar>, now: Time, again: seq<HourBar>)
    requires IsPrepared(x, bars, now)
    ensures !Conflict(x, now) && (IsPrepared(again, x, now) ==> again == x)
  {
    forall a, b | a in x && b in x && SameKey(a, b) ensures a == b {
      OnePerKey(x, a, b);
    }
    forall b | b in x ensures Represented(x, b) {
      assert SameKey(b, b);
    }
    if IsPrepared(again, x, now) {
      PreparedUnique(again, x, x, x, now);
    }
  }

  // ----- the loop

  type BarKey = (Symbol, Time)

  /** What the dictionary holds after the bars of `seen`. */
  ghost predicate Chosen(seen: seq<HourBar>, now: Time, selected: map<BarKey, HourBar>) {
    && (forall key :: key in selected ==>
          (selected[key].symbol, selected[key].ts) == key && selected[key] in seen && selected[key].Available(now))
    && (forall b :: b in seen && b.Available(now) ==>
          && (b.symbol, b.ts) in selected
          && b.ingestTs <= selected[(b.symbol, b.ts)].ingestTs && b.SameMarket(selected[(b.symbol, b.ts)]))
  }

  lemma ChosenStep(seen: seq<HourBar>, bar: HourBar, now: Time, selected: map<BarKey, HourBar>)
    requires Chosen(seen, now, selected)
    requires (bar.symbol, bar.ts) in selected ==> bar.SameMarket(selected[(bar.symbol, bar.ts)])
    ensures var key := (bar.symbol, bar.ts);
            Chosen(seen + [bar], now,
                   if !bar.Available(now) || (key in selected && selected[key].ingestTs >= bar.ingestTs) then selected
                   else selected[key := bar])
  {
    assert forall x :: x in seen + [bar] <==> x in seen || x == bar;
  }

  /** The dictionary's values, in the order its keys were first inserted. */
  function ValuesOf(selected: map<BarKey, HourBar>, order: seq<BarKey>): seq<HourBar>
    requires forall key :: key in order ==> key in selected
  {
    if order == [] then [] else [selected[order[0]]] + ValuesOf(selected, order[1..])
  }

  lemma {:induction false} ValuesAt(selected: map<BarKey, HourBar>, order: seq<BarKey>)
    requires forall key :: key in order ==> key in selected
    ensures |ValuesOf(selected, order)| == |order|
    ensures forall i :: 0 <= i < |order| ==> ValuesOf(selected, order)[i] == selected[order[i]]
    decreases |order|
  {
    if order != [] {
      ValuesAt(selected, order[1..]);
    }
  }

  method SelectBars(
    bars: seq<HourBar>, now: Time) returns (ok: bool, selected: map<BarKey, HourBar>, order: seq<BarKey>)
    ensures ok <==> !Conflict(bars, now)
    ensures ok ==> Chosen(bars, now, selected)
    ensures forall key :: key in order <==> key in selected
    ensures forall i, j :: 0 <= i < j < |order| ==> order[i] != order[j]
  {
    selected, order := map[], [];
    for i := 0 to |bars|
      invariant Chosen(bars[..i], now, selected)
      invariant forall key :: key in order <==> key in selected
      invariant forall a, b :: 0 <= a < b < |order| ==> order[a] != order[b]
    {
      var bar := bars[i];
      assert bars[..i + 1] == bars[..i] + [bar];
      var key := (bar.symbol, bar.ts);
      if bar.Available(now) && key in selected && !selected[key].SameMarket(bar) {
        assert selected[key] in bars && bar in bars;
        return false, selected, order;
      }
      if bar.Available(now) {
        ChosenStep(bars[..i], bar, now, selected);
        if key !in selected {
          order := order + [key];
        }
        if key !in selected || selected[key].ingestTs < bar.ingestTs {
          selected := selected[key := bar];
        }
      } else {
        assert forall x :: x in bars[..i + 1] <==> x in bars[..i] || x == bar;
      }
    }
    assert bars[..|bars|] == bars;
    forall a, b | a in bars && b in bars && a.Available(now) && b.Available(now) && SameKey(a, b)
      ensures a.SameMarket(b)
    {
      assert a.SameMarket(selected[(a.symbol, a.ts)]) && b.SameMarket(selected[(b.symbol, b.ts)]);
    }
    ok := true;
  }

  lemma BarOrders()
    ensures TotalPreorder(BarNotAfter)
    ensures forall a, b :: BarBefore(a, b) <==> BarNotAfter(a, b) && !SameKey(a, b)
  {
  }

  lemma DistinctKeys(selected: map<BarKey, HourBar>, order: seq<BarKey>, values: seq<HourBar>)
    requires forall key :: key in order ==> key in selected && (selected[key].symbol, selected[key].ts) == key
    requires forall i, j :: 0 <= i < j < |order| ==> order[i] != order[j]
    requires values == ValuesOf(selected, order)
    ensures forall i, j :: 0 <= i < j < |values| ==> !SameKey(values[i], values[j])
  {
    ValuesAt(selected, order);
    forall i, j | 0 <= i < j < |values| ensures !SameKey(values[i], values[j]) {
      assert order[i] != order[j] && order[i] in order && order[j] in order;
    }
  }

  lemma SortedValues(selected: map<BarKey, HourBar>, order: seq<BarKey>, values: seq<HourBar>)
    requires forall key :: key in order ==> key in selected && (selected[key].symbol, selected[key].ts) == key
    requires forall i, j :: 0 <= i < j < |order| ==> order[i] != order[j]
    requires values == ValuesOf(selected, order)
    ensures StrictlySorted(SortBy(values, BarNotAfter), BarBefore)
  {
    DistinctKeys(selected, order, values);
    SortedDistinct(values);
  }

  lemma SortedDistinct(values: seq<HourBar>)
    requires forall i, j :: 0 <= i < j < |values| ==> !SameKey(values[i], values[j])
    ensures StrictlySorted(SortBy(values, BarNotAfter), BarBefore)
  {
    var sorted := SortBy(values, BarNotAfter);
    BarOrders();
    SortBySorted(values, BarNotAfter);
    SortByPermutes(values, BarNotAfter);
    DistinctPermutation(values, sorted);
    forall i, j | 0 <= i < j < |sorted| ensures BarBefore(sorted[i], sorted[j]) {
      DistinctMembers(values, sorted[i], sorted[j]);
    }
  }

  lemma DistinctMembers(values: seq<HourBar>, x: HourBar, y: HourBar)
    requires forall i, j :: 0 <= i < j < |values| ==> !SameKey(values[i], values[j])
    requires x in values && y in values && x != y
    ensures !SameKey(x, y)
  {
    var a :| 0 <= a < |values| && values[a] == x;
    var b :| 0 <= b < |values| && values[b] == y;
  }

  lemma ValuesPrepared(
    bars: seq<HourBar>, now: Time, selected: map<BarKey, HourBar>, order: seq<BarKey>, values: seq<HourBar>)
    requires Chosen(bars, now, selected) && (forall key :: key in order <==> key in selected)
    requires values == ValuesOf(selected, order)
    ensures forall h :: h in values ==> h in bars && h.Available(now)
    ensures forall b {:trigger Represented(values, b)} :: b in bars && b.Available(now) ==> Represented(values, b)
  {
    ValuesAt(selected, order);
    forall h | h in values ensures h in bars && h.Available(now) {
      var i :| 0 <= i < |values| && values[i] == h;
      assert order[i] in order;
    }
    forall b | b in bars && b.Available(now) ensures Represented(values, b) {
      assert (b.symbol, b.ts) in order;
      var i :| 0 <= i < |order| && order[i] == (b.symbol, b.ts);
      assert values[i] in values && SameKey(values[i], b);
    }
  }

  // ----- the result, said of the fields

  /** The hour is over and its bar was ingested by now. */
  ghost predicate Closed(b: HourBar, now: Time) {
    b.ts + HOUR <= now && b.ingestTs <= now
  }

  ghost predicate Disagree(bars: seq<HourBar>, now: Time) {
    exists a, b :: a in bars && b in bars && Closed(a, now) && Closed(b, now) && a.symbol == b.symbol && a.ts == b.ts
                   && (a.open != b.open || a.high != b.high || a.low != b.low || a.close != b.close
                       || a.volume != b.volume)
  }

  ghost predicate StandsFor(history: seq<HourBar>, b: HourBar) {
    exists i :: 0 <= i < |history| && history[i].symbol == b.symbol && history[i].ts == b.ts
                && b.ingestTs <= history[i].ingestTs
  }

  /** Ascending by symbol and hour; closed bars of the input only; for each of those one of its
      hour, ingested no earlier. */
  ghost predicate Prepares(history: seq<HourBar>, bars: seq<HourBar>, now: Time) {
    && (forall i, j :: 0 <= i < j < |history| ==>
          SymbolRank(history[i].symbol) < SymbolRank(history[j].symbol)
          || (history[i].symbol == history[j].symbol && history[i].ts < history[j].ts))
    && (forall i :: 0 <= i < |history| ==> history[i] in bars && Closed(history[i], now))
    && (forall i {:trigger StandsFor(history, bars[i])} :: 0 <= i < |bars| && Closed(bars[i], now) ==>
          StandsFor(history, bars[i]))
  }

  lemma DisagreeIff(bars: seq<HourBar>, now: Time)
    ensures Disagree(bars, now) <==> Conflict(bars, now)
  {
    forall b: HourBar ensures Closed(b, now) <==> b.Available(now) {
    }
    if a, b :| a in bars && b in bars && a.Available(now) && b.Available(now) && SameKey(a, b) && !a.SameMarket(b) {
      assert Closed(a, now) && Closed(b, now);
    }
  }

  lemma IsPreparedPrepares(history: seq<HourBar>, bars: seq<HourBar>, now: Time)
    requires IsPrepared(history, bars, now)
    ensures Prepares(history, bars, now)
  {
    forall i, j | 0 <= i < j < |history|
      ensures SymbolRank(history[i].symbol) < SymbolRank(history[j].symbol)
              || (history[i].symbol == history[j].symbol && history[i].ts < history[j].ts)
    {
      assert BarBefore(history[i], history[j]);
    }
    forall i | 0 <= i < |bars| && Closed(bars[i], now) ensures StandsFor(history, bars[i]) {
      assert bars[i].Available(now) && Represented(history, bars[i]);
      var h :| h in history && SameKey(h, bars[i]) && bars[i].ingestTs <= h.ingestTs;
      var k :| 0 <= k < |history| && history[k] == h;
    }
  }


  /** The whole function; no result stands for the error it raises, exactly on a conflict. */
  method PrepareHistory(bars: seq<HourBar>, now: Time) returns (history: Option<seq<HourBar>>)
    ensures history.None? <==> Conflict(bars, now)
    ensures history.Some? ==> IsPrepared(history.value, bars, now)
    ensures history.None? <==> Disagree(bars, now)
    ensures history.Some? ==> Prepares(history.value, bars, now)
  {
    DisagreeIff(bars, now);
    var ok, selected, order := SelectBars(bars, now);
    if !ok {
      return None;
    }
    var values := ValuesOf(selected, order);
    SortedValues(selected, order, values);
    ValuesPrepared(bars, now, selected, order, values);
    var sorted := SortBy(values, BarNotAfter);
    forall b | b in bars && b.Available(now) ensures Represented(sorted, b) {
      assert Represented(values, b);
      var h :| h in values && SameKey(h, b) && b.ingestTs <= h.ingestTs;
      assert h in sorted;
    }
    IsPreparedPrepares(sorted, bars, now);
    return Some(sorted);
  }
}
