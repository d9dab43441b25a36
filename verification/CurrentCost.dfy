/** `validate_book`, `estimate_sizes` and `current_cost`: an estimate from the current order book
    and the cached account fee, which fails closed. */
module CurrentCost {
  import opened Contracts
  import opened OrderBook
  import opened Sorting
  import AdviceBuilder
  import Labels

  const BOOK_MAX_AGE: Time := 60 * SECOND
  const UNCERTAINTY_BPS := 6.0
  const MAX_LEVELS := 20

  /** A field of an exchange response; None is anything `number` refuses. */
  type Field = Option<real>

  /** An order book as the exchange sent it; None is a missing key, or a side that is no list. */
  datatype Book = Book(ts: Option<Time>, asks: Option<seq<(Field, Field)>>, bids: Option<seq<(Field, Field)>>)

  datatype Instrument = Instrument(live: bool, groupId: string, minSize: Field)

  // ----- the book

  function ReadLevels(raw: seq<(Field, Field)>): (levels: Option<seq<Level>>)
    ensures levels.Some? ==> |levels.value| == |raw|
  {
    if raw == [] then Some([])
    else if raw[0].0.None? || raw[0].1.None? then None
    else
      var rest := ReadLevels(raw[1..]);
      if rest.None? then None else Some([(raw[0].0.value, raw[0].1.value)] + rest.value)
  }

  predicate GoodLevels(levels: seq<Level>, falling: bool) {
    && 1 <= |levels| <= MAX_LEVELS && Priced(levels) && Sized(levels)
    && (if falling then Falling(levels) else Rising(levels))
  }

  function GoodSide(raw: Option<seq<(Field, Field)>>, falling: bool): (levels: Option<seq<Level>>)
    ensures levels.Some? ==> GoodLevels(levels.value, falling)
  {
    if raw.None? then None
    else
      var levels := ReadLevels(raw.value);
      if levels.Some? && GoodLevels(levels.value, falling) then levels else None
  }

  predicate Fresh(ts: Option<Time>, now: Time) {
    ts.Some? && now - BOOK_MAX_AGE <= ts.value <= now
  }

  /** Both sides of a book that may be used: fresh, well formed, ordered and not crossed. */
  function GoodBook(book: Book, now: Time): (sides: Option<(seq<Level>, seq<Level>)>)
    ensures sides.Some? ==> GoodSides(sides.value.0, sides.value.1)
  {
    var asks, bids := GoodSide(book.asks, false), GoodSide(book.bids, true);
    if Fresh(book.ts, now) && asks.Some? && bids.Some? && bids.value[0].0 < asks.value[0].0
    then Some((asks.value, bids.value)) else None
  }

  predicate GoodSides(asks: seq<Level>, bids: seq<Level>) {
    GoodLevels(asks, false) && GoodLevels(bids, true) && bids[0].0 < asks[0].0
  }

  function Prices(levels: seq<Level>): seq<real> {
    seq(|levels|, i requires 0 <= i < |levels| => levels[i].0)
  }

  function DownTo(a: real, b: real): bool { a >= b }

  lemma {:induction false} ElementsOf(s: seq<real>)
    ensures |set x | x in s| <= |s|
    ensures |set x | x in s| == |s| <==> forall i, j :: 0 <= i < j < |s| ==> s[i] != s[j]
    decreases |s|
  {
    if s != [] {
      var rest := s[1..];
      ElementsOf(rest);
      assert (set x | x in s) == (set x | x in rest) + {s[0]};
      if s[0] in rest {
        var k :| 0 <= k < |rest| && rest[k] == s[0];
        assert s[k + 1] == s[0];
        assert (set x | x in s) == (set x | x in rest);
      } else {
        assert |set x | x in s| == |set x | x in rest| + 1;
        if forall i, j :: 0 <= i < j < |rest| ==> rest[i] != rest[j] {
          forall i, j | 0 <= i < j < |s| ensures s[i] != s[j] {
            assert s[j] == rest[j - 1];
            if i > 0 {
              assert s[i] == rest[i - 1];
            }
          }
        } else {
          var i, j :| 0 <= i < j < |rest| && rest[i] == rest[j];
          assert s[i + 1] == s[j + 1];
        }
      }
    }
  }

  /** The check of one side, distinct prices equal to their sorted list, is strict order. */
  lemma DistinctAndSorted(levels: seq<Level>, falling: bool)
    ensures var prices, le := Prices(levels), if falling then DownTo else AtMost;
            |set p | p in prices| == |prices| && prices == SortBy(prices, le)
            <==> if falling then Falling(levels) else Rising(levels)
  {
    var prices, le := Prices(levels), if falling then DownTo else AtMost;
    ElementsOf(prices);
    SortBySorted(prices, le);
    assert forall i :: 0 <= i < |levels| ==> prices[i] == levels[i].0;
    if (if falling then Falling(levels) else Rising(levels)) {
      SortByPermutes(prices, le);
      SortedUnique(prices, SortBy(prices, le), le);
    }
  }

  lemma {:induction false} ReadNext(raw: seq<(Field, Field)>, k: nat)
    requires k < |raw|
    ensures ReadLevels(raw[..k + 1])
            == if ReadLevels(raw[..k]).None? || raw[k].0.None? || raw[k].1.None? then None
               else Some(ReadLevels(raw[..k]).value + [(raw[k].0.value, raw[k].1.value)])
    decreases k
  {
    assert raw[..k + 1][1..] == raw[1..][..k];
    if k == 0 {
      assert raw[..0] == [] && ReadLevels(raw[..1][1..]) == Some([]);
      if raw[0].0.Some? && raw[0].1.Some? {
        var only := [(raw[0].0.value, raw[0].1.value)];
        assert only + [] == only == [] + only;
      }
    } else {
      assert raw[..k][1..] == raw[1..][..k - 1] && raw[..k][0] == raw[0];
      ReadNext(raw[1..], k - 1);
      assert raw[1..][k - 1] == raw[k];
      var first, rest := raw[0], ReadLevels(raw[1..][..k - 1]);
      if first.0.Some? && first.1.Some? && rest.Some? && raw[k].0.Some? && raw[k].1.Some? {
        var head, last := [(first.0.value, first.1.value)], [(raw[k].0.value, raw[k].1.value)];
        assert head + (rest.value + last) == head + rest.value + last;
      }
    }
  }

  /** One unreadable row makes the side unreadable. */
  lemma {:induction false} ReadPrefix(raw: seq<(Field, Field)>, k: nat)
    requires k <= |raw| && ReadLevels(raw[..k]).None?
    ensures ReadLevels(raw).None?
    decreases |raw| - k
  {
    if k < |raw| {
      ReadNext(raw, k);
      ReadPrefix(raw, k + 1);
    } else {
      assert raw[..k] == raw;
    }
  }

  method ReadRows(rows: seq<(Field, Field)>) returns (levels: Option<seq<Level>>)
    ensures levels == ReadLevels(rows)
  {
    var read: seq<Level> := [];
    for i := 0 to |rows|
      invariant ReadLevels(rows[..i]) == Some(read)
    {
      ReadNext(rows, i);
      if rows[i].0.None? || rows[i].1.None? {
        ReadPrefix(rows, i + 1);
        return None;
      }
      read := read + [(rows[i].0.value, rows[i].1.value)];
    }
    assert rows[..|rows|] == rows;
    return Some(read);
  }

  method AllPositiveLevels(levels: seq<Level>) returns (positive: bool)
    ensures positive <==> Priced(levels) && Sized(levels)
  {
    for i := 0 to |levels|
      invariant Priced(levels[..i]) && Sized(levels[..i])
    {
      if levels[i].0 <= 0.0 || levels[i].1 <= 0.0 {
        return false;
      }
    }
    assert levels[..|levels|] == levels;
    return true;
  }

  /** The loop body of `validate_book` for one side. */
  method ReadSide(raw: Option<seq<(Field, Field)>>, falling: bool) returns (side: Option<seq<Level>>)
    ensures side == GoodSide(raw, falling)
  {
    if raw.None? || !(1 <= |raw.value| <= MAX_LEVELS) {
      return None;
    }
    var levels := ReadRows(raw.value);
    if levels.None? {
      return None;
    }
    var positive := AllPositiveLevels(levels.value);
    var prices := Prices(levels.value);
    DistinctAndSorted(levels.value, falling);
    if !positive || |set p | p in prices| != |prices| || prices != SortBy(prices, if falling then DownTo else AtMost) {
      return None;
    }
    return levels;
  }

  /** The side as read: up to twenty readable, positive levels, best price first. */
  ghost predicate SideReads(raw: Option<seq<(Field, Field)>>, falling: bool, levels: seq<Level>) {
    && raw.Some? && 1 <= |raw.value| <= 20 && |levels| == |raw.value|
    && (forall i :: 0 <= i < |levels| ==>
          raw.value[i] == (Some(levels[i].0), Some(levels[i].1)) && levels[i].0 > 0.0 && levels[i].1 > 0.0)
    && (forall i, j :: 0 <= i < j < |levels| ==>
          if falling then levels[i].0 > levels[j].0 else levels[i].0 < levels[j].0)
  }

  /** A fresh book that is not crossed, and its two sides. */
  ghost predicate BookReads(book: Book, now: Time, asks: seq<Level>, bids: seq<Level>) {
    && book.ts.Some? && 0 <= now - book.ts.value <= 60 * SECOND
    && SideReads(book.asks, false, asks) && SideReads(book.bids, true, bids) && bids[0].0 < asks[0].0
  }

  lemma {:induction false} LevelsRead(raw: seq<(Field, Field)>)
    ensures ReadLevels(raw).None? <==> exists i :: 0 <= i < |raw| && (raw[i].0.None? || raw[i].1.None?)
    ensures ReadLevels(raw).Some? ==>
              forall i :: 0 <= i < |raw| ==>
                raw[i] == (Some(ReadLevels(raw).value[i].0), Some(ReadLevels(raw).value[i].1))
    decreases |raw|
  {
    if raw != [] {
      LevelsRead(raw[1..]);
      if raw[0].0.Some? && raw[0].1.Some? {
        assert forall i :: 0 < i < |raw| ==> raw[i] == raw[1..][i - 1];
        if ReadLevels(raw[1..]).None? {
          var i :| 0 <= i < |raw[1..]| && (raw[1..][i].0.None? || raw[1..][i].1.None?);
          assert raw[i + 1].0.None? || raw[i + 1].1.None?;
        }
      }
    }
  }

  lemma SideReadsIff(raw: Option<seq<(Field, Field)>>, falling: bool)
    ensures GoodSide(raw, falling).Some? ==> SideReads(raw, falling, GoodSide(raw, falling).value)
    ensures forall levels :: SideReads(raw, falling, levels) ==> GoodSide(raw, falling) == Some(levels)
  {
    if raw.Some? {
      LevelsRead(raw.value);
      forall levels | SideReads(raw, falling, levels) ensures GoodSide(raw, falling) == Some(levels) {
        assert ReadLevels(raw.value).Some?;
        assert ReadLevels(raw.value).value == levels;
      }
    }
  }

  lemma BookReadsIff(book: Book, now: Time)
    ensures GoodBook(book, now).Some? ==> BookReads(book, now, GoodBook(book, now).value.0, GoodBook(book, now).value.1)
    ensures forall asks, bids :: BookReads(book, now, asks, bids) ==> GoodBook(book, now) == Some((asks, bids))
  {
    SideReadsIff(book.asks, false);
    SideReadsIff(book.bids, true);
  }

  /** `validate_book`. */
  method ValidateBook(book: Book, now: Time) returns (sides: Option<(seq<Level>, seq<Level>)>)
    ensures sides == GoodBook(book, now)
    ensures sides.Some? ==> BookReads(book, now, sides.value.0, sides.value.1)
    ensures sides.None? ==> forall asks, bids :: !BookReads(book, now, asks, bids)
  {
    BookReadsIff(book, now);
    if book.ts.None? || !(now - BOOK_MAX_AGE <= book.ts.value <= now) {
      return None;
    }
    var asks := ReadSide(book.asks, false);
    if asks.None? {
      return None;
    }
    var bids := ReadSide(book.bids, true);
    if bids.None? || bids.value[0].0 >= asks.value[0].0 {
      return None;
    }
    return Some((asks.value, bids.value));
  }

  // ----- the cost of each size

  function AtLeastZero(x: real): real {
    if x >= 0.0 then x else 0.0
  }

  function Mid(asks: seq<Level>, bids: seq<Level>): (mid: real)
    requires GoodSides(asks, bids)
    ensures bids[0].0 < mid < asks[0].0
  {
    (asks[0].0 + bids[0].0) / 2.0
  }

  function Quantity(asks: seq<Level>, bids: seq<Level>, notional: real): (quantity: real)
    requires GoodSides(asks, bids) && notional > 0.0
    ensures quantity > 0.0
  {
    notional / Mid(asks, bids)
  }

  function BuyBps(price: real, mid: real): real
    requires mid > 0.0
  {
    AtLeastZero((price / mid - 1.0) * 10_000.0)
  }

  function SellBps(price: real, mid: real): real
    requires mid > 0.0
  {
    AtLeastZero((1.0 - price / mid) * 10_000.0)
  }

  /** Twice the taker fee; a rebate is not credited. */
  function FeeBps(fee: FeeRate): real {
    2.0 * AtLeastZero(fee.takerBps)
  }

  /** One turn of `estimate_sizes`; `tolerance` is the one of `vwap`. */
  function Scenario(
    asks: seq<Level>, bids: seq<Level>, fee: FeeRate, minimum: real, notional: real, tolerance: real): SizeCost
    requires GoodSides(asks, bids) && notional > 0.0
  {
    var mid, quantity := Mid(asks, bids), Quantity(asks, bids, notional);
    var buy, sell := Average(asks, quantity, tolerance), Average(bids, quantity, tolerance);
    var status := if quantity < minimum then BelowMinimumSize
                  else if buy.None? || sell.None? then InsufficientDepth else SizeEstimated;
    var buyBps := if buy.Some? then Some(BuyBps(buy.value, mid)) else None;
    var sellBps := if sell.Some? then Some(SellBps(sell.value, mid)) else None;
    var bookBps := if buy.Some? && sell.Some? then Some(buyBps.value + sellBps.value) else None;
    SizeCost(notional, status, quantity, buyBps, sellBps, bookBps, FeeBps(fee), UNCERTAINTY_BPS,
             if status.SizeEstimated? then Some(bookBps.value + FeeBps(fee) + UNCERTAINTY_BPS) else None)
  }

  /** A size is refused, and all sizes with it, only above the contract's bounds. */
  lemma ScenarioValidIff(
    asks: seq<Level>, bids: seq<Level>, fee: FeeRate, minimum: real, notional: real, tolerance: real)
    requires GoodSides(asks, bids) && notional > 0.0
    ensures var cost := Scenario(asks, bids, fee, minimum, notional, tolerance);
            cost.Valid() <==> notional <= 100_000.0 && (cost.roundtripBps.Some? ==> cost.roundtripBps.value <= 10_000.0)
  {
  }

  predicate DeepEnough(levels: seq<Level>, quantity: real, tolerance: real) {
    Depth(levels) >= quantity - quantity * tolerance
  }

  /** A size is estimated exactly when it is tradable and both sides are deep enough, but for
      the tolerance. */
  lemma SizeEstimatedIff(
    asks: seq<Level>, bids: seq<Level>, fee: FeeRate, minimum: real, notional: real, tolerance: real)
    requires GoodSides(asks, bids) && notional > 0.0 && 0.0 <= tolerance < 1.0
    ensures var quantity := Quantity(asks, bids, notional);
            Scenario(asks, bids, fee, minimum, notional, tolerance).status.SizeEstimated?
            <==> quantity >= minimum && DeepEnough(asks, quantity, tolerance) && DeepEnough(bids, quantity, tolerance)
  {
    var quantity := Quantity(asks, bids, notional);
    var buy, sell := Average(asks, quantity, tolerance), Average(bids, quantity, tolerance);
    assert buy.Some? <==> DeepEnough(asks, quantity, tolerance) by {
      PriceExists(asks, quantity, tolerance);
    }
    assert sell.Some? <==> DeepEnough(bids, quantity, tolerance) by {
      PriceExists(bids, quantity, tolerance);
    }
  }

  predicate AllPositive(notionals: seq<real>) {
    forall i :: 0 <= i < |notionals| ==> notionals[i] > 0.0
  }

  /** All scenarios, or none when a single one breaks its contract or the minimum is unusable. */
  function SizesOf(asks: seq<Level>, bids: seq<Level>, fee: FeeRate, minimum: Field, notionals: seq<real>)
    : Option<seq<SizeCost>>
    requires GoodSides(asks, bids) && AllPositive(notionals)
  {
    if minimum.None? || minimum.value <= 0.0 then None
    else
      var costs := seq(|notionals|, i requires 0 <= i < |notionals| =>
                         Scenario(asks, bids, fee, minimum.value, notionals[i], TOLERANCE));
      if forall i :: 0 <= i < |costs| ==> costs[i].Valid() then Some(costs) else None
  }

  // ----- what a size is quoted, said of the levels

  ghost predicate Deep(levels: seq<Level>, quantity: real) {
    Depth(levels) >= quantity - quantity * 0.000000000001
  }

  /** The bps by which a price is worse than the mid; None where the levels do not reach. */
  ghost predicate Deviates(levels: seq<Level>, quantity: real, mid: real, side: real, bps: Option<real>)
    requires quantity > 0.0 && mid > 0.0
  {
    && (bps.Some? <==> Deep(levels, quantity))
    && (bps.Some? ==> exists price ::
       PricedAt(levels, quantity, 0.000000000001, price) && WorseBy(price, mid, side, bps.value))
  }

  /** A better price is no gain. */
  ghost predicate WorseBy(price: real, mid: real, side: real, bps: real)
    requires mid > 0.0
  {
    bps >= 0.0 && (bps == (price / mid - 1.0) * 10_000.0 * side || (bps == 0.0 && (price / mid - 1.0) * side <= 0.0))
  }

  /** The size of one notional: the quantity at the mid, what buying and selling it deviate from
      the mid, twice the taker fee without rebate, and six bps of uncertainty. */
  ghost predicate QuotedAt(
    asks: seq<Level>, bids: seq<Level>, fee: FeeRate, minimum: real, mid: real, size: SizeCost)
    requires mid > 0.0
  {
    && size.notional > 0.0 && size.baseQuantity == size.notional / mid && size.baseQuantity > 0.0
    && Deviates(asks, size.baseQuantity, mid, 1.0, size.buyBps)
    && Deviates(bids, size.baseQuantity, mid, -1.0, size.sellBps)
    && (size.status.BelowMinimumSize? <==> size.baseQuantity < minimum)
    && (size.status.SizeEstimated? <==> size.baseQuantity >= minimum && size.buyBps.Some? && size.sellBps.Some?)
    && (size.bookBps.Some? <==> size.buyBps.Some? && size.sellBps.Some?)
    && (size.bookBps.Some? ==> size.bookBps.value == size.buyBps.value + size.sellBps.value)
    && size.feeBps == (if fee.takerBps > 0.0 then fee.takerBps + fee.takerBps else 0.0) && size.uncertaintyBps == 6.0
    && (size.roundtripBps.Some? <==> size.status.SizeEstimated?)
    && (size.roundtripBps.Some? ==> size.roundtripBps.value == size.bookBps.value + size.feeBps + 6.0)
  }

  ghost predicate Quoted(asks: seq<Level>, bids: seq<Level>, fee: FeeRate, minimum: real, size: SizeCost) {
    && asks != [] && bids != []
    && var mid := (asks[0].0 + bids[0].0) / 2.0; mid > 0.0 && QuotedAt(asks, bids, fee, minimum, mid, size)
  }

  /** The quote fits the contract of a size. */
  ghost predicate Bounded(size: SizeCost) {
    size.notional <= 100_000.0 && (size.roundtripBps.Some? ==> size.roundtripBps.value <= 10_000.0)
  }

  ghost predicate AllQuoted(
    asks: seq<Level>, bids: seq<Level>, fee: FeeRate, minimum: real, notionals: seq<real>, quotes: seq<SizeCost>)
  {
    && |quotes| == |notionals|
    && forall i :: 0 <= i < |quotes| ==>
       quotes[i].notional == notionals[i] && Quoted(asks, bids, fee, minimum, quotes[i])
  }

  /** Every notional is quoted; one quote out of bounds, or an unusable minimum, refuses them all. */
  ghost predicate SizesMean(
    asks: seq<Level>, bids: seq<Level>, fee: FeeRate, minimum: Field, notionals: seq<real>,
    sizes: Option<seq<SizeCost>>)
  {
    if minimum.None? || minimum.value <= 0.0 then sizes.None?
    else
      exists quotes ::
        && AllQuoted(asks, bids, fee, minimum.value, notionals, quotes)
        && sizes == if forall i :: 0 <= i < |quotes| ==> Bounded(quotes[i]) then Some(quotes) else None
  }

  lemma WorseBuy(price: real, mid: real)
    requires mid > 0.0
    ensures WorseBy(price, mid, 1.0, BuyBps(price, mid)) && WorseBy(price, mid, -1.0, SellBps(price, mid))
  {
    var ratio := price / mid;
    assert (1.0 - ratio) * 10_000.0 == (ratio - 1.0) * 10_000.0 * -1.0;
  }

  lemma AverageDeviates(levels: seq<Level>, quantity: real, mid: real)
    requires Sized(levels) && quantity > 0.0 && mid > 0.0
    ensures var price := Average(levels, quantity, TOLERANCE);
            && Deviates(levels, quantity, mid, 1.0, if price.Some? then Some(BuyBps(price.value, mid)) else None)
            && Deviates(levels, quantity, mid, -1.0, if price.Some? then Some(SellBps(price.value, mid)) else None)
  {
    PriceExists(levels, quantity, TOLERANCE);
    var price := Average(levels, quantity, TOLERANCE);
    if price.Some? {
      AverageIsPrice(levels, quantity, TOLERANCE);
      WorseBuy(price.value, mid);
    }
  }

  lemma ScenarioQuoted(asks: seq<Level>, bids: seq<Level>, fee: FeeRate, minimum: real, notional: real)
    requires GoodSides(asks, bids) && notional > 0.0
    ensures Quoted(asks, bids, fee, minimum, Scenario(asks, bids, fee, minimum, notional, TOLERANCE))
  {
    var mid, quantity := Mid(asks, bids), Quantity(asks, bids, notional);
    AverageDeviates(asks, quantity, mid);
    AverageDeviates(bids, quantity, mid);
  }

  lemma SizesAreQuoted(asks: seq<Level>, bids: seq<Level>, fee: FeeRate, minimum: Field, notionals: seq<real>)
    requires GoodSides(asks, bids) && AllPositive(notionals)
    ensures SizesMean(asks, bids, fee, minimum, notionals, SizesOf(asks, bids, fee, minimum, notionals))
  {
    if minimum.Some? && minimum.value > 0.0 {
      var quotes := seq(|notionals|, i requires 0 <= i < |notionals| =>
                          Scenario(asks, bids, fee, minimum.value, notionals[i], TOLERANCE));
      forall i | 0 <= i < |quotes|
        ensures quotes[i].notional == notionals[i] && Quoted(asks, bids, fee, minimum.value, quotes[i])
        ensures quotes[i].Valid() <==> Bounded(quotes[i])
      {
        ScenarioQuoted(asks, bids, fee, minimum.value, notionals[i]);
        ScenarioValidIff(asks, bids, fee, minimum.value, notionals[i], TOLERANCE);
      }
      assert AllQuoted(asks, bids, fee, minimum.value, notionals, quotes);
    }
  }

  /** The body of the loop of `estimate_sizes`. */
  method EstimateSize(
    asks: seq<Level>, bids: seq<Level>, fee: FeeRate, minimum: real, notional: real) returns (cost: SizeCost)
    requires GoodSides(asks, bids) && notional > 0.0
    ensures cost == Scenario(asks, bids, fee, minimum, notional, TOLERANCE)
  {
    var mid := (asks[0].0 + bids[0].0) / 2.0;
    var quantity := notional / mid;
    assert quantity == Quantity(asks, bids, notional);
    var buy := Vwap(asks, quantity);
    var sell := Vwap(bids, quantity);
    var status := SizeEstimated;
    if quantity < minimum {
      status := BelowMinimumSize;
    } else if buy.None? || sell.None? {
      status := InsufficientDepth;
    }
    var buyBps := if buy.Some? then Some(BuyBps(buy.value, mid)) else None;
    var sellBps := if sell.Some? then Some(SellBps(sell.value, mid)) else None;
    var bookBps := if buyBps.Some? && sellBps.Some? then Some(buyBps.value + sellBps.value) else None;
    var total := if status.SizeEstimated? then Some(bookBps.value + FeeBps(fee) + UNCERTAINTY_BPS) else None;
    cost := SizeCost(notional, status, quantity, buyBps, sellBps, bookBps, FeeBps(fee), UNCERTAINTY_BPS, total);
  }

  /** The loop of `estimate_sizes`, which ends at the first size that breaks its contract. */
  method EstimateEach(asks: seq<Level>, bids: seq<Level>, fee: FeeRate, minimum: real, notionals: seq<real>)
    returns (sizes: Option<seq<SizeCost>>)
    requires GoodSides(asks, bids) && AllPositive(notionals) && minimum > 0.0
    ensures sizes == SizesOf(asks, bids, fee, Some(minimum), notionals)
  {
    ghost var all := seq(|notionals|, i requires 0 <= i < |notionals| =>
                           Scenario(asks, bids, fee, minimum, notionals[i], TOLERANCE));
    var scenarios := [];
    for i := 0 to |notionals|
      invariant |scenarios| == i && scenarios == all[..i] && forall j :: 0 <= j < i ==> all[j].Valid()
    {
      var cost := EstimateSize(asks, bids, fee, minimum, notionals[i]);
      assert cost == all[i];
      if !cost.Valid() {
        return None;
      }
      scenarios := scenarios + [cost];
    }
    assert scenarios == all;
    return Some(scenarios);
  }

  /** `estimate_sizes`. */
  method EstimateSizes(asks: seq<Level>, bids: seq<Level>, fee: FeeRate, minimum: Field, notionals: seq<real>)
    returns (sizes: Option<seq<SizeCost>>)
    requires GoodSides(asks, bids) && AllPositive(notionals)
    ensures sizes == SizesOf(asks, bids, fee, minimum, notionals)
    ensures SizesMean(asks, bids, fee, minimum, notionals, sizes)
  {
    if minimum.None? || minimum.value <= 0.0 {
      return None;
    }
    sizes := EstimateEach(asks, bids, fee, minimum.value, notionals);
    SizesAreQuoted(asks, bids, fee, minimum, notionals);
  }

  // ----- the observation

  const STANDARD_NOTIONALS: seq<real> := [20.0, 50.0, 100.0]

  function Place(notional: real): nat {
    if notional <= 20.0 then 0 else if notional <= 50.0 then 1 else if notional <= 100.0 then 2 else 3
  }

  /** `sorted({notional, 20, 50, 100})`. */
  function Notionals(notional: real): (all: seq<real>)
    requires notional > 0.0
    ensures AllPositive(all) && |all| <= 4
    ensures Place(notional) < |all| && all[Place(notional)] == notional
    ensures forall x :: x in all <==> x == notional || x in STANDARD_NOTIONALS
    ensures forall i, j :: 0 <= i < j < |all| ==> all[i] < all[j]
  {
    if notional < 20.0 then [notional, 20.0, 50.0, 100.0]
    else if 20.0 < notional < 50.0 then [20.0, notional, 50.0, 100.0]
    else if 50.0 < notional < 100.0 then [20.0, 50.0, notional, 100.0]
    else if 100.0 < notional then [20.0, 50.0, 100.0, notional]
    else STANDARD_NOTIONALS
  }

  predicate FeeCurrent(fee: FeeRate, now: Time) {
    0 <= now - fee.fetchedAt < FEE_MAX_AGE
  }

  function FindSize(sizes: seq<SizeCost>, notional: real): (found: Option<SizeCost>)
    ensures found.Some? ==> found.value in sizes && found.value.notional == notional
    ensures found.None? ==> forall s :: s in sizes ==> s.notional != notional
  {
    if sizes == [] then None
    else if sizes[0].notional == notional then Some(sizes[0])
    else FindSize(sizes[1..], notional)
  }

  /** The sizes that can be estimated; none when anything they rest on is unusable. */
  function UsableSizes(
    fee: Option<FeeRate>, book: Book, instrument: Instrument, now: Time, notional: real): seq<SizeCost>
    requires notional > 0.0
  {
    var sides := GoodBook(book, now);
    if sides.None? || !instrument.live || fee.None? || fee.value.groupId != instrument.groupId then []
    else
      var sizes := SizesOf(sides.value.0, sides.value.1, fee.value, instrument.minSize, Notionals(notional));
      if sizes.None? then [] else sizes.value
  }

  function Unexpired(fee: Option<FeeRate>, now: Time): Option<FeeRate> {
    if fee.Some? && FeeCurrent(fee.value, now) then fee else None
  }

  function TotalOf(sizes: seq<SizeCost>, notional: real): Option<real> {
    var selected := FindSize(sizes, notional);
    if selected.Some? then selected.value.roundtripBps else None
  }

  predicate Dated(fee: Option<FeeRate>, bookAt: Option<Time>, sizes: seq<SizeCost>) {
    sizes != [] ==> fee.Some? && bookAt.Some?
  }

  function Assembled(
    symbol: Symbol, fee: Option<FeeRate>, bookAt: Option<Time>, sizes: seq<SizeCost>, notional: real): Cost
    requires Dated(fee, bookAt, sizes)
  {
    var total := TotalOf(sizes, notional);
    Cost(symbol, total, notional, "estimated_uncalibrated", "current-cost-v1", bookAt, false, 0,
         Some(CurrentDetail(total.Some?, fee, bookAt,
                            if total.None? then None
                            else Some(Min(bookAt.value + BOOK_LIFETIME, fee.value.fetchedAt + FEE_MAX_AGE)),
                            sizes)))
  }

  /** `current_cost`, as a cost record; `Cost.Valid` is what its constructors check. */
  function Observe(
    symbol: Symbol, fee: Option<FeeRate>, book: Book, instrument: Instrument, now: Time, notional: real): Cost
    requires notional > 0.0
  {
    var kept := Unexpired(fee, now);
    Assembled(symbol, kept, if GoodBook(book, now).Some? then book.ts else None,
              UsableSizes(kept, book, instrument, now, notional), notional)
  }

  // ----- what the observation says

  /** The asked notional and the three standard ones, each once, ascending. */
  ghost predicate AskedFor(notional: real, notionals: seq<real>) {
    && (forall i, j :: 0 <= i < j < |notionals| ==> notionals[i] < notionals[j])
    && (forall x :: x in notionals <==> x == notional || x == 20.0 || x == 50.0 || x == 100.0)
  }

  ghost predicate Readable(book: Book, now: Time) {
    exists asks, bids :: BookReads(book, now, asks, bids)
  }

  ghost predicate SizesFrom(
    book: Book, now: Time, fee: FeeRate, minimum: Field, asks: seq<Level>, bids: seq<Level>, notional: real,
    notionals: seq<real>, given: Option<seq<SizeCost>>)
  {
    && BookReads(book, now, asks, bids) && AskedFor(notional, notionals)
    && SizesMean(asks, bids, fee, minimum, notionals, given)
  }

  /** The sizes of a readable book, a live instrument and the instrument's own fee group; none when
      one of these fails or a size is refused. */
  ghost predicate SizesSeen(
    fee: Option<FeeRate>, book: Book, instrument: Instrument, now: Time, notional: real, sizes: seq<SizeCost>)
  {
    if Readable(book, now) && instrument.live && fee.Some? && fee.value.groupId == instrument.groupId then
      exists asks, bids, notionals, given ::
        && SizesFrom(book, now, fee.value, instrument.minSize, asks, bids, notional, notionals, given)
        && sizes == if given.Some? then given.value else []
    else sizes == []
  }

  /** The roundtrip is that of the size with the asked notional. */
  ghost predicate TotalSeen(sizes: seq<SizeCost>, notional: real, total: Option<real>) {
    if sizes == [] then total.None?
    else exists i :: 0 <= i < |sizes| && sizes[i].notional == notional && total == sizes[i].roundtripBps
  }

  /** An estimate ends a quarter of an hour after its book, or a day after its fee. */
  ghost predicate EndsInTime(detail: CurrentDetail) {
    if detail.estimated then
      && detail.bookAsOf.Some? && detail.fee.Some? && detail.validUntil.Some?
      && var byBook, byFee := detail.bookAsOf.value + 900 * SECOND, detail.fee.value.fetchedAt + 24 * HOUR;
         detail.validUntil.value == if byBook <= byFee then byBook else byFee
    else detail.validUntil.None?
  }

  ghost predicate Observes(
    symbol: Symbol, cached: Option<FeeRate>, book: Book, instrument: Instrument, now: Time, notional: real, cost: Cost)
  {
    && cost.symbol == symbol && cost.notional == notional && cost.quality == "estimated_uncalibrated"
    && cost.version == "current-cost-v1" && !cost.trustedForPaper && cost.actualSampleCount == 0
    && cost.current.Some?
    && var detail := cost.current.value;
       && detail.fee == (if cached.Some? && 0 <= now - cached.value.fetchedAt < 24 * HOUR then cached else None)
       && detail.bookAsOf == (if Readable(book, now) then book.ts else None) && cost.asOf == detail.bookAsOf
       && SizesSeen(detail.fee, book, instrument, now, notional, detail.sizes)
       && TotalSeen(detail.sizes, notional, cost.roundtripBps)
       && detail.estimated == cost.roundtripBps.Some? && EndsInTime(detail)
  }

  lemma UsableSeen(fee: Option<FeeRate>, book: Book, instrument: Instrument, now: Time, notional: real)
    requires notional > 0.0
    ensures SizesSeen(fee, book, instrument, now, notional, UsableSizes(fee, book, instrument, now, notional))
    ensures Readable(book, now) <==> GoodBook(book, now).Some?
  {
    BookReadsIff(book, now);
    var sides := GoodBook(book, now);
    if sides.Some? && instrument.live && fee.Some? && fee.value.groupId == instrument.groupId {
      var (asks, bids) := sides.value;
      var notionals := Notionals(notional);
      SizesAreQuoted(asks, bids, fee.value, instrument.minSize, notionals);
      assert SizesFrom(book, now, fee.value, instrument.minSize, asks, bids, notional, notionals,
                       SizesOf(asks, bids, fee.value, instrument.minSize, notionals));
    }
  }

  lemma TotalIsSeen(fee: Option<FeeRate>, book: Book, instrument: Instrument, now: Time, notional: real)
    requires notional > 0.0
    ensures var sizes := UsableSizes(fee, book, instrument, now, notional);
            TotalSeen(sizes, notional, TotalOf(sizes, notional))
  {
    SelectedNeedsSizes(fee, book, instrument, now, notional);
    var sizes := UsableSizes(fee, book, instrument, now, notional);
    if sizes != [] {
      var found := FindSize(sizes, notional).value;
      var i :| 0 <= i < |sizes| && sizes[i] == found;
    }
  }

  lemma ObserveObserves(
    symbol: Symbol, cached: Option<FeeRate>, book: Book, instrument: Instrument, now: Time, notional: real)
    requires notional > 0.0
    ensures Observes(symbol, cached, book, instrument, now, notional,
                     Observe(symbol, cached, book, instrument, now, notional))
  {
    var kept := Unexpired(cached, now);
    UsableSeen(kept, book, instrument, now, notional);
    TotalIsSeen(kept, book, instrument, now, notional);
    SelectedNeedsSizes(kept, book, instrument, now, notional);
  }

  /** The guarded part of `current_cost`: anything unreadable leaves the book time or the sizes empty. */
  method ReadSizes(fee: Option<FeeRate>, book: Book, instrument: Instrument, now: Time, notional: real)
    returns (bookAt: Option<Time>, sizes: seq<SizeCost>)
    requires notional > 0.0
    ensures bookAt == if GoodBook(book, now).Some? then book.ts else None
    ensures sizes == UsableSizes(fee, book, instrument, now, notional)
  {
    bookAt, sizes := None, [];
    var sides := ValidateBook(book, now);
    if sides.Some? {
      bookAt := book.ts;
      if instrument.live && fee.Some? && fee.value.groupId == instrument.groupId {
        var estimated := EstimateSizes(sides.value.0, sides.value.1, fee.value, instrument.minSize,
                                       Notionals(notional));
        if estimated.Some? {
          sizes := estimated.value;
        }
      }
    }
  }

  /** `current_cost`. */
  method CurrentCost(
    symbol: Symbol, cached: Option<FeeRate>, book: Book, instrument: Instrument, now: Time, notional: real)
    returns (cost: Cost)
    requires notional > 0.0
    ensures cost == Observe(symbol, cached, book, instrument, now, notional)
    ensures Observes(symbol, cached, book, instrument, now, notional, cost)
  {
    var fee := cached;
    if fee.Some? && !(0 <= now - fee.value.fetchedAt < FEE_MAX_AGE) {
      fee := None;
    }
    assert fee == Unexpired(cached, now);
    var bookAt, sizes := ReadSizes(fee, book, instrument, now, notional);
    SelectedNeedsSizes(fee, book, instrument, now, notional);
    cost := Assemble(symbol, fee, bookAt, sizes, notional);
    ObserveObserves(symbol, cached, book, instrument, now, notional);
  }

  /** The end of `current_cost`. */
  method Assemble(symbol: Symbol, fee: Option<FeeRate>, bookAt: Option<Time>, sizes: seq<SizeCost>, notional: real)
    returns (cost: Cost)
    requires Dated(fee, bookAt, sizes)
    ensures cost == Assembled(symbol, fee, bookAt, sizes, notional)
  {
    var selected := FindSize(sizes, notional);
    var total := if selected.Some? then selected.value.roundtripBps else None;
    var validUntil := None;
    if total.Some? {
      validUntil := Some(Min(bookAt.value + BOOK_LIFETIME, fee.value.fetchedAt + FEE_MAX_AGE));
    }
    cost := Cost(symbol, total, notional, "estimated_uncalibrated", "current-cost-v1", bookAt, false, 0,
                 Some(CurrentDetail(total.Some?, fee, bookAt, validUntil, sizes)));
  }

  lemma SelectedNeedsSizes(fee: Option<FeeRate>, book: Book, instrument: Instrument, now: Time, notional: real)
    requires notional > 0.0
    ensures var sizes := UsableSizes(fee, book, instrument, now, notional);
            && (sizes != [] ==> fee.Some? && GoodBook(book, now).Some? && book.ts.Some?)
            && (FindSize(sizes, notional).Some? <==> sizes != [])
  {
    var sizes := UsableSizes(fee, book, instrument, now, notional);
    if sizes != [] {
      assert sizes[Place(notional)].notional == notional;
    }
  }

  /** The scenario of the asked notional, once everything it rests on is usable. */
  lemma SelectedScenario(fee: Option<FeeRate>, book: Book, instrument: Instrument, now: Time, notional: real)
    requires notional > 0.0
    ensures var sizes := UsableSizes(fee, book, instrument, now, notional);
            sizes != [] ==>
              && fee.Some? && GoodBook(book, now).Some? && instrument.minSize.Some?
              && var sides := GoodBook(book, now).value;
                 FindSize(sizes, notional)
                 == Some(Scenario(sides.0, sides.1, fee.value, instrument.minSize.value, notional, TOLERANCE))
  {
    SelectedNeedsSizes(fee, book, instrument, now, notional);
    var sizes := UsableSizes(fee, book, instrument, now, notional);
    if sizes != [] {
      var found := FindSize(sizes, notional).value;
      var k :| 0 <= k < |sizes| && sizes[k] == found;
    }
  }

  /** The sizes pass their validators, whatever comes in. */
  lemma SizesConsistent(fee: Option<FeeRate>, book: Book, instrument: Instrument, now: Time, notional: real)
    requires notional > 0.0
    ensures var sizes := UsableSizes(fee, book, instrument, now, notional);
            && |sizes| <= 4 && (forall i :: 0 <= i < |sizes| ==> sizes[i].Valid())
            && (forall i, j :: 0 <= i < j < |sizes| ==> sizes[i].notional != sizes[j].notional)
  {
    var sizes, all := UsableSizes(fee, book, instrument, now, notional), Notionals(notional);
    if sizes != [] {
      assert forall i :: 0 <= i < |sizes| ==> sizes[i].notional == all[i];
    }
  }

  lemma AssembledValidIff(
    symbol: Symbol, fee: Option<FeeRate>, bookAt: Option<Time>, sizes: seq<SizeCost>, notional: real)
    requires Dated(fee, bookAt, sizes) && notional > 0.0 && |sizes| <= 4
    requires forall i :: 0 <= i < |sizes| ==> sizes[i].Valid()
    requires forall i, j :: 0 <= i < j < |sizes| ==> sizes[i].notional != sizes[j].notional
    requires sizes != [] ==> bookAt.value < fee.value.fetchedAt + FEE_MAX_AGE
    ensures var cost := Assembled(symbol, fee, bookAt, sizes, notional);
            cost.Valid() <==> notional <= 100_000.0 && (cost.current.value.estimated ==> fee.value.symbol == symbol)
  {
    var found := FindSize(sizes, notional);
    if found.Some? {
      var k :| 0 <= k < |sizes| && sizes[k] == found.value;
    }
  }

  /** `current_cost` is total: the observation passes every validator exactly when the notional
      is within the contract's bound and an estimate rests on the symbol's own fee. */
  lemma ObservationValidIff(
    symbol: Symbol, fee: Option<FeeRate>, book: Book, instrument: Instrument, now: Time, notional: real)
    requires notional > 0.0
    ensures var cost := Observe(symbol, fee, book, instrument, now, notional);
            cost.Valid() <==>
              notional <= 100_000.0 && (cost.current.value.estimated ==> fee.Some? && fee.value.symbol == symbol)
  {
    var kept := Unexpired(fee, now);
    var sizes := UsableSizes(kept, book, instrument, now, notional);
    SizesConsistent(kept, book, instrument, now, notional);
    SelectedNeedsSizes(kept, book, instrument, now, notional);
    AssembledValidIff(symbol, kept, if GoodBook(book, now).Some? then book.ts else None, sizes, notional);
  }

  ghost predicate UnderCeiling(asks: seq<Level>, bids: seq<Level>, fee: FeeRate, minimum: real, notional: real)
    requires GoodSides(asks, bids) && notional > 0.0
  {
    var total := Scenario(asks, bids, fee, minimum, notional, TOLERANCE).roundtripBps;
    total.Some? ==> total.value <= 10_000.0
  }

  /** An estimate is given exactly when the book is fresh and well formed, the instrument is live,
      the fee is less than a day old and of the instrument's group, every size stays within its
      contract, and the asked size is tradable and fits the depth of both sides. */
  lemma EstimatedIff(
    symbol: Symbol, fee: Option<FeeRate>, book: Book, instrument: Instrument, now: Time, notional: real)
    requires notional > 0.0
    ensures Observe(symbol, fee, book, instrument, now, notional).current.value.estimated
            <==> && fee.Some? && 0 <= now - fee.value.fetchedAt < FEE_MAX_AGE
                 && instrument.live && instrument.groupId == fee.value.groupId
                 && instrument.minSize.Some? && instrument.minSize.value > 0.0
                 && GoodBook(book, now).Some?
                 && var (asks, bids) := GoodBook(book, now).value;
                    var quantity := Quantity(asks, bids, notional);
                    && notional <= 100_000.0 && CheapEnough(asks, bids, fee.value, instrument.minSize.value, notional)
                    && quantity >= instrument.minSize.value
                    && DeepEnough(asks, quantity, TOLERANCE) && DeepEnough(bids, quantity, TOLERANCE)
  {
    var kept, sides := Unexpired(fee, now), GoodBook(book, now);
    SelectedScenario(kept, book, instrument, now, notional);
    if kept.Some? && sides.Some? && instrument.minSize.Some? {
      var (asks, bids) := sides.value;
      var minimum := instrument.minSize.value;
      SizeEstimatedIff(asks, bids, fee.value, minimum, notional, TOLERANCE);
      SizesGivenIff(asks, bids, fee.value, minimum, notional);
    }
  }

  /** No size that can be estimated costs more than the contract's ceiling. */
  ghost predicate CheapEnough(asks: seq<Level>, bids: seq<Level>, fee: FeeRate, minimum: real, notional: real)
    requires GoodSides(asks, bids) && notional > 0.0
  {
    forall i :: 0 <= i < |Notionals(notional)| ==> UnderCeiling(asks, bids, fee, minimum, Notionals(notional)[i])
  }

  lemma SizesGivenIff(asks: seq<Level>, bids: seq<Level>, fee: FeeRate, minimum: real, notional: real)
    requires GoodSides(asks, bids) && notional > 0.0
    ensures SizesOf(asks, bids, fee, Some(minimum), Notionals(notional)).Some?
            <==> minimum > 0.0 && notional <= 100_000.0 && CheapEnough(asks, bids, fee, minimum, notional)
  {
    var all := Notionals(notional);
    forall i | 0 <= i < |all|
      ensures Scenario(asks, bids, fee, minimum, all[i], TOLERANCE).Valid()
              <==> all[i] <= 100_000.0 && UnderCeiling(asks, bids, fee, minimum, all[i])
    {
      ScenarioValidIff(asks, bids, fee, minimum, all[i], TOLERANCE);
    }
    BoundedIff(notional);
    if minimum > 0.0 {
      var costs := seq(|all|, i requires 0 <= i < |all| => Scenario(asks, bids, fee, minimum, all[i], TOLERANCE));
      assert forall i :: 0 <= i < |all| ==> costs[i] == Scenario(asks, bids, fee, minimum, all[i], TOLERANCE);
      assert (forall i :: 0 <= i < |costs| ==> costs[i].Valid())
        <==> notional <= 100_000.0 && CheapEnough(asks, bids, fee, minimum, notional);
    }
  }

  lemma BoundedIff(notional: real)
    requires notional > 0.0
    ensures (forall i :: 0 <= i < |Notionals(notional)| ==> Notionals(notional)[i] <= 100_000.0) <==>
            notional <= 100_000.0
  {
    assert Notionals(notional)[Place(notional)] == notional;
  }

  /** An estimate is dated by its book and ends with the book's quarter of an hour or the
      fee's day, whichever is earlier; it has not ended when it is made. */
  lemma EstimateLifetime(
    symbol: Symbol, fee: Option<FeeRate>, book: Book, instrument: Instrument, now: Time, notional: real)
    requires notional > 0.0
    ensures var cost := Observe(symbol, fee, book, instrument, now, notional);
            var detail := cost.current.value;
            if detail.estimated then
              && fee.Some? && detail.fee == fee && cost.asOf.Some? && detail.validUntil.Some?
              && now - BOOK_MAX_AGE <= cost.asOf.value <= now < detail.validUntil.value
              && detail.validUntil.value == Min(cost.asOf.value + BOOK_LIFETIME, fee.value.fetchedAt + FEE_MAX_AGE)
            else cost.roundtripBps.None? && detail.validUntil.None?
  {
    SelectedNeedsSizes(Unexpired(fee, now), book, instrument, now, notional);
  }

  // ----- cost and size

  /** Depth never lets the book cost fall below the quoted spread, unless a level of asks ends
      within the tolerance. */
  lemma BookCostsTheSpread(
    asks: seq<Level>, bids: seq<Level>, fee: FeeRate, minimum: real, notional: real, tolerance: real)
    requires GoodSides(asks, bids) && notional > 0.0 && 0.0 <= tolerance < 1.0
    requires Scenario(asks, bids, fee, minimum, notional, tolerance).bookBps.Some?
    requires var quantity := Quantity(asks, bids, notional); Clear(asks, quantity, quantity * tolerance)
    ensures Scenario(asks, bids, fee, minimum, notional, tolerance).bookBps.value
            >= (asks[0].0 - bids[0].0) / Mid(asks, bids) * 10_000.0
  {
    var mid, quantity := Mid(asks, bids), Quantity(asks, bids, notional);
    AskAtLeastBest(asks, quantity, tolerance);
    BidAtMostBest(bids, quantity, tolerance);
    SpreadBps(asks[0].0, bids[0].0, Average(asks, quantity, tolerance).value,
              Average(bids, quantity, tolerance).value, mid);
  }

  lemma BuyBpsOrder(p1: real, p2: real, mid: real)
    requires mid > 0.0 && p1 <= p2
    ensures BuyBps(p1, mid) <= BuyBps(p2, mid)
    ensures SellBps(p2, mid) <= SellBps(p1, mid)
  {
    assert p1 / mid <= p2 / mid;
  }

  lemma SpreadBps(ask: real, bid: real, buy: real, sell: real, mid: real)
    requires mid > 0.0 && ask <= buy && sell <= bid
    ensures BuyBps(buy, mid) + SellBps(sell, mid) >= (ask - bid) / mid * 10_000.0
  {
    BuyBpsOrder(ask, buy, mid);
    BuyBpsOrder(sell, bid, mid);
    Difference(ask, bid, mid);
    NotBelow(ask / mid, bid / mid);
  }

  lemma Difference(a: real, b: real, mid: real)
    requires mid > 0.0
    ensures (a - b) / mid == a / mid - b / mid
  {
  }

  lemma NotBelow(a: real, b: real)
    ensures AtLeastZero((a - 1.0) * 10_000.0) + AtLeastZero((1.0 - b) * 10_000.0) >= (a - b) * 10_000.0
  {
  }

  /** A larger size does not cost less, unless a level ends within the tolerance: of the asks
      for the larger quantity, of the bids for the smaller. */
  lemma RoundtripMonotone(
    asks: seq<Level>, bids: seq<Level>, fee: FeeRate, minimum: real, small: real, large: real, tolerance: real)
    requires GoodSides(asks, bids) && 0.0 < small <= large && 0.0 <= tolerance < 1.0
    requires Scenario(asks, bids, fee, minimum, small, tolerance).roundtripBps.Some?
    requires Scenario(asks, bids, fee, minimum, large, tolerance).roundtripBps.Some?
    requires Untruncated(asks, bids, small, large, tolerance)
    ensures Scenario(asks, bids, fee, minimum, small, tolerance).roundtripBps.value
            <= Scenario(asks, bids, fee, minimum, large, tolerance).roundtripBps.value
  {
    var mid := Mid(asks, bids);
    var q1, q2 := Quantity(asks, bids, small), Quantity(asks, bids, large);
    QuantityOrder(small, large, mid);
    AskMonotone(asks, q1, q2, tolerance);
    BidMonotone(bids, q1, q2, tolerance);
    BuyBpsOrder(Average(asks, q1, tolerance).value, Average(asks, q2, tolerance).value, mid);
    BuyBpsOrder(Average(bids, q2, tolerance).value, Average(bids, q1, tolerance).value, mid);
  }

  lemma QuantityOrder(small: real, large: real, mid: real)
    requires mid > 0.0 && small <= large
    ensures small / mid <= large / mid
  {
  }

  ghost predicate Untruncated(asks: seq<Level>, bids: seq<Level>, small: real, large: real, tolerance: real)
    requires GoodSides(asks, bids) && small > 0.0 && large > 0.0
  {
    var q1, q2 := Quantity(asks, bids, small), Quantity(asks, bids, large);
    Clear(asks, q2, q2 * tolerance) && Clear(bids, q1, q1 * tolerance)
  }

  /** With no tolerance nothing is ever truncated, so both laws hold of every accepted book. */
  lemma ExactNeverTruncates(asks: seq<Level>, bids: seq<Level>, small: real, large: real)
    requires GoodSides(asks, bids) && small > 0.0 && large > 0.0
    ensures Untruncated(asks, bids, small, large, 0.0)
  {
  }

  /** So at tolerance zero a larger size never costs less, on every accepted book. */
  lemma ExactRoundtripMonotone(
    asks: seq<Level>, bids: seq<Level>, fee: FeeRate, minimum: real, small: real, large: real)
    requires GoodSides(asks, bids) && 0.0 < small <= large
    requires Scenario(asks, bids, fee, minimum, small, 0.0).roundtripBps.Some?
    requires Scenario(asks, bids, fee, minimum, large, 0.0).roundtripBps.Some?
    ensures Scenario(asks, bids, fee, minimum, small, 0.0).roundtripBps.value
            <= Scenario(asks, bids, fee, minimum, large, 0.0).roundtripBps.value
  {
    ExactNeverTruncates(asks, bids, small, large);
    RoundtripMonotone(asks, bids, fee, minimum, small, large, 0.0);
  }

  // ----- exactly when the book cost never falls

  /** The book cost of a quantity, as far as both sides price it. */
  ghost function BookCost(asks: seq<Level>, bids: seq<Level>, quantity: real, tolerance: real): Option<real>
    requires GoodSides(asks, bids) && quantity > 0.0
  {
    var buy, sell := Average(asks, quantity, tolerance), Average(bids, quantity, tolerance);
    if buy.None? || sell.None? then None
    else Some(BuyBps(buy.value, Mid(asks, bids)) + SellBps(sell.value, Mid(asks, bids)))
  }

  ghost predicate CostNeverFalls(asks: seq<Level>, bids: seq<Level>, tolerance: real)
    requires GoodSides(asks, bids)
  {
    forall q1, q2 :: 0.0 < q1 <= q2 ==>
      NoHigher(BookCost(asks, bids, q1, tolerance), BookCost(asks, bids, q2, tolerance))
  }

  /** Between the two best prices nothing is cut off at zero. */
  lemma CostBps(buy: real, sell: real, mid: real)
    requires mid > 0.0 && sell <= mid <= buy
    ensures BuyBps(buy, mid) + SellBps(sell, mid) == (buy - sell) / mid * 10_000.0
  {
    RatioToOne(buy, mid);
    RatioToOne(sell, mid);
    assert buy / mid - sell / mid == (buy - sell) / mid;
  }

  lemma RatioToOne(a: real, mid: real)
    requires mid > 0.0
    ensures a >= mid <==> a / mid >= 1.0
    ensures a <= mid <==> a / mid <= 1.0
  {
    Larger(a / mid, 1.0, mid);
    Larger(1.0, a / mid, mid);
    assert a / mid * mid == a;
  }

  lemma Larger(a: real, b: real, factor: real)
    requires factor > 0.0
    ensures a <= b <==> a * factor <= b * factor
  {
    assert b * factor - a * factor == (b - a) * factor;
    if a <= b {
      assert (b - a) * factor >= 0.0;
    } else {
      assert (a - b) * factor > 0.0;
    }
  }

  lemma LessCost(buy1: real, sell1: real, buy2: real, sell2: real, mid: real)
    requires mid > 0.0 && sell1 <= mid <= buy1 && sell2 <= mid <= buy2 && buy2 - sell2 < buy1 - sell1
    ensures BuyBps(buy2, mid) + SellBps(sell2, mid) < BuyBps(buy1, mid) + SellBps(sell1, mid)
  {
    CostBps(buy1, sell1, mid);
    CostBps(buy2, sell2, mid);
    SmallerRatio(buy2 - sell2, buy1 - sell1, mid);
  }

  lemma SmallerRatio(a: real, b: real, mid: real)
    requires mid > 0.0 && a < b
    ensures a / mid < b / mid
  {
  }

  /** What the first ask level prices: the whole of it, or all of it spread over a little more. */
  lemma FirstAskLevel(asks: seq<Level>, quantity: real, tolerance: real) returns (price: real)
    requires Sized(asks) && asks != [] && quantity > 0.0 && 0.0 <= tolerance < 1.0
    requires quantity - asks[0].1 <= quantity * tolerance
    ensures Average(asks, quantity, tolerance) == Some(price)
    ensures quantity <= asks[0].1 ==> price == asks[0].0
    ensures quantity > asks[0].1 ==> price == asks[0].0 * asks[0].1 / quantity
  {
    var slack, taken := quantity * tolerance, if quantity <= asks[0].1 then quantity else asks[0].1;
    var paid := asks[0].0 * taken;
    assert slack >= 0.0;
    FirstTurn(asks, quantity, slack, taken, paid);
    AverageOf(asks, quantity, tolerance, slack, paid);
    price := paid / quantity;
    if quantity <= asks[0].1 {
      assert asks[0].0 * quantity / quantity == asks[0].0;
    }
  }

  /** More sold never brings in less in all. */
  lemma RevenueGrows(bids: seq<Level>, q1: real, q2: real, tolerance: real, sell1: real, sell2: real)
    requires GoodLevels(bids, true) && 0.0 < q1 <= q2 && 0.0 <= tolerance < 1.0
    requires Average(bids, q1, tolerance) == Some(sell1) && Average(bids, q2, tolerance) == Some(sell2)
    ensures NoMore(sell1, q1, sell2, q2)
  {
    var t1, t2 := TwoFills(bids, q1, q2, tolerance);
    assert OrderBook.AtLeast(bids, 0.0);
    SlopeAtLeast(bids, 0.0, t1, t2);
    Products(OrderBook.Cost(bids, t1), q1, sell1);
    Products(OrderBook.Cost(bids, t2), q2, sell2);
  }

  predicate NoMore(sell1: real, q1: real, sell2: real, q2: real) {
    sell1 * q1 <= sell2 * q2
  }

  lemma Products(paid: real, quantity: real, average: real)
    requires quantity > 0.0 && average == paid / quantity
    ensures average * quantity == paid
  {
  }

  /** A quantity just beyond the first ask level that still stops at its end; `keep` is what the
      tolerance leaves to fill. */
  lemma JustBeyond(size: real, depth: real, ratio: real, keep: real) returns (q: real)
    requires size > 0.0 && ratio > 1.0 && 0.0 < keep < 1.0 && depth > size * keep
    ensures size < q && q * keep <= size && q * keep <= depth && q <= size * ratio
  {
    var edge, far := size / keep, depth / keep;
    assert edge * keep == size && far * keep == depth;
    SmallerFactor(size, keep, 1.0);
    Larger(edge, size, keep);
    Larger(far, size, keep);
    SmallerFactor(size, 1.0, ratio);
    q := if edge <= far then edge else far;
    q := if q <= size * ratio then q else size * ratio;
    Larger(q, edge, keep);
    Larger(q, far, keep);
  }

  lemma Kept(q: real, tolerance: real, keep: real)
    requires keep == 1.0 - tolerance
    ensures q * keep == q - q * tolerance
  {
  }

  /** Filled only up to the end of the first ask level, a slightly larger size costs less. */
  lemma CostFallsAtEnd(asks: seq<Level>, bids: seq<Level>, tolerance: real, size: real)
    requires GoodSides(asks, bids) && 0.0 < tolerance < 1.0 && size == asks[0].1
    requires Depth(bids) > size - size * tolerance
    ensures !CostNeverFalls(asks, bids, tolerance)
  {
    var ratio := AboveMid(asks, bids);
    var q := EndOfLevel(size, Depth(bids), ratio, tolerance);
    CostFallsBeyond(asks, bids, tolerance, size, q, Mid(asks, bids), ratio);
  }

  lemma AboveMid(asks: seq<Level>, bids: seq<Level>) returns (ratio: real)
    requires GoodSides(asks, bids)
    ensures ratio > 1.0 && ratio * Mid(asks, bids) == asks[0].0
  {
    var mid := Mid(asks, bids);
    ratio := asks[0].0 / mid;
    RatioToOne(asks[0].0, mid);
    assert ratio * mid == asks[0].0;
  }

  lemma EndOfLevel(size: real, depth: real, ratio: real, tolerance: real) returns (q: real)
    requires size > 0.0 && ratio > 1.0 && 0.0 < tolerance < 1.0 && depth > size - size * tolerance
    ensures size < q && q - size <= q * tolerance && q - q * tolerance <= depth && q <= size * ratio
    ensures size * tolerance >= 0.0
  {
    var keep := 1.0 - tolerance;
    Kept(size, tolerance, keep);
    q := JustBeyond(size, depth, ratio, keep);
    Kept(q, tolerance, keep);
  }

  /** The buying quotes of the whole first ask level and of a little more. */
  lemma TwoBuys(asks: seq<Level>, tolerance: real, size: real, q: real) returns (buy: real)
    requires GoodLevels(asks, false) && 0.0 < tolerance < 1.0 && size == asks[0].1 && size < q
    requires q - size <= q * tolerance && size * tolerance >= 0.0
    ensures Average(asks, size, tolerance) == Some(asks[0].0) && Average(asks, q, tolerance) == Some(buy)
    ensures SpreadOver(buy, q, asks[0].0, size)
  {
    var whole := FirstAskLevel(asks, size, tolerance);
    buy := FirstAskLevel(asks, q, tolerance);
    Products(asks[0].0 * asks[0].1, q, buy);
  }

  /** The worth of one quantity, spread over another. */
  predicate SpreadOver(average: real, quantity: real, price: real, size: real) {
    average * quantity == price * size
  }

  lemma SellBelow(bids: seq<Level>, q: real, tolerance: real) returns (sell: real)
    requires GoodLevels(bids, true) && 0.0 < tolerance < 1.0 && q > 0.0 && q - q * tolerance <= Depth(bids)
    ensures Average(bids, q, tolerance) == Some(sell) && sell <= bids[0].0
  {
    PriceExists(bids, q, tolerance);
    BidAtMostBest(bids, q, tolerance);
    sell := Average(bids, q, tolerance).value;
  }

  lemma CostFallsBeyond(
    asks: seq<Level>, bids: seq<Level>, tolerance: real, size: real, q: real, mid: real, ratio: real)
    requires GoodSides(asks, bids) && 0.0 < tolerance < 1.0 && size == asks[0].1 && size < q
    requires q - size <= q * tolerance && q - q * tolerance <= Depth(bids)
    requires size * tolerance >= 0.0 && size - size * tolerance <= Depth(bids)
    requires mid == Mid(asks, bids) && ratio * mid == asks[0].0 && q <= size * ratio
    ensures !CostNeverFalls(asks, bids, tolerance)
  {
    var buy := TwoBuys(asks, tolerance, size, q);
    var sell1 := SellBelow(bids, size, tolerance);
    var sell2 := SellBelow(bids, q, tolerance);
    CostFallsFrom(asks, bids, tolerance, size, q, mid, ratio, buy, sell1, sell2);
  }

  lemma CostFallsFrom(
    asks: seq<Level>, bids: seq<Level>, tolerance: real, size: real, q: real, mid: real, ratio: real, buy: real,
    sell1: real, sell2: real)
    requires GoodSides(asks, bids) && 0.0 < tolerance < 1.0 && 0.0 < size < q
    requires mid == Mid(asks, bids) && ratio * mid == asks[0].0 && q <= size * ratio
    requires Average(asks, size, tolerance) == Some(asks[0].0) && Average(asks, q, tolerance) == Some(buy)
    requires Average(bids, size, tolerance) == Some(sell1) && Average(bids, q, tolerance) == Some(sell2)
    requires SpreadOver(buy, q, asks[0].0, size) && sell1 <= bids[0].0 && sell2 <= bids[0].0
    ensures !CostNeverFalls(asks, bids, tolerance)
  {
    RevenueGrows(bids, size, q, tolerance, sell1, sell2);
    assert buy >= mid && buy - sell2 < asks[0].0 - sell1 by {
      CheaperShare(asks[0].0, size, mid, q, ratio, sell1, sell2, buy);
    }
    CheaperBeyond(asks, bids, tolerance, size, q, mid, asks[0].0, buy, sell1, sell2);
  }

  lemma CheaperShare(
    best: real, size: real, mid: real, q: real, ratio: real, sell1: real, sell2: real, spread: real)
    requires mid > 0.0 && 0.0 < size < q && q <= size * ratio && ratio * mid == best
    requires NoMore(sell1, size, sell2, q) && sell1 < mid < best && SpreadOver(spread, q, best, size)
    ensures spread >= mid && spread - sell2 < best - sell1
  {
    AtLeastMid(best, size, mid, q, ratio, spread);
    SharesFall(best, size, q, sell1, sell2, spread);
  }

  lemma CheaperBeyond(
    asks: seq<Level>, bids: seq<Level>, tolerance: real, q1: real, q2: real, mid: real, buy1: real, buy2: real,
    sell1: real, sell2: real)
    requires GoodSides(asks, bids) && 0.0 < q1 <= q2
    requires Average(asks, q1, tolerance) == Some(buy1) && Average(asks, q2, tolerance) == Some(buy2)
    requires Average(bids, q1, tolerance) == Some(sell1) && Average(bids, q2, tolerance) == Some(sell2)
    requires mid == Mid(asks, bids) && sell1 <= mid <= buy1 && sell2 <= mid <= buy2
    requires buy2 - sell2 < buy1 - sell1
    ensures !CostNeverFalls(asks, bids, tolerance)
  {
    LessCost(buy1, sell1, buy2, sell2, mid);
    assert !NoHigher(BookCost(asks, bids, q1, tolerance), BookCost(asks, bids, q2, tolerance));
  }

  lemma AtLeastMid(best: real, size: real, mid: real, q: real, ratio: real, spread: real)
    requires mid > 0.0 && q > 0.0 && q <= size * ratio && ratio * mid == best && SpreadOver(spread, q, best, size)
    ensures spread >= mid
  {
    Larger(q, size * ratio, mid);
    assert size * ratio * mid == size * best;
    Larger(mid, spread, q);
  }

  lemma SharesFall(best: real, size: real, q: real, sell1: real, sell2: real, spread: real)
    requires 0.0 < size < q && NoMore(sell1, size, sell2, q) && sell1 < best && SpreadOver(spread, q, best, size)
    ensures spread - sell2 < best - sell1
  {
    var gain1, gain2 := best - sell1, spread - sell2;
    assert gain2 * q == best * size - sell2 * q <= best * size - sell1 * size == gain1 * size;
    SmallerFactor(gain1, size, q);
    Larger(gain1, gain2, q);
  }

  lemma SmallerFactor(gain: real, size: real, q: real)
    requires gain > 0.0 && size < q
    ensures gain * size < gain * q
  {
    assert gain * (q - size) > 0.0;
  }

  /** Within the first ask level only the bids matter. */
  lemma CostWithinFirst(asks: seq<Level>, bids: seq<Level>, q1: real, q2: real, tolerance: real)
    requires GoodSides(asks, bids) && 0.0 <= tolerance < 1.0 && 0.0 < q1 && 0.0 < q2
    requires q1 <= asks[0].1 && q2 <= asks[0].1
    ensures NoHigher(BookCost(asks, bids, q1, tolerance), BookCost(asks, bids, q2, tolerance))
            <==> NoHigher(Average(bids, q2, tolerance), Average(bids, q1, tolerance))
  {
    assert q1 * tolerance >= 0.0 && q2 * tolerance >= 0.0;
    var best := FirstAskLevel(asks, q1, tolerance);
    var same := FirstAskLevel(asks, q2, tolerance);
    var sell1, sell2 := Average(bids, q1, tolerance), Average(bids, q2, tolerance);
    if sell1.Some? && sell2.Some? {
      BidAtMostBest(bids, q1, tolerance);
      BidAtMostBest(bids, q2, tolerance);
      var mid := Mid(asks, bids);
      if sell1.value < sell2.value {
        LessCost(best, sell1.value, best, sell2.value, mid);
      } else if sell2.value < sell1.value {
        LessCost(best, sell2.value, best, sell1.value, mid);
      }
    }
  }

  /** What the bids price is within the first ask level. */
  lemma PricedWithinFirst(bids: seq<Level>, q: real, tolerance: real, size: real)
    requires GoodLevels(bids, true) && 0.0 <= tolerance < 1.0 && q > 0.0
    requires Depth(bids) <= size - size * tolerance && Average(bids, q, tolerance).Some?
    ensures q <= size
  {
    assert q - q * tolerance <= Depth(bids) by {
      PriceExists(bids, q, tolerance);
    }
    WithinSize(q, size, tolerance, 1.0 - tolerance);
  }

  lemma WithinSize(q: real, size: real, tolerance: real, keep: real)
    requires keep == 1.0 - tolerance && keep > 0.0 && q - q * tolerance <= size - size * tolerance
    ensures q <= size
  {
    Kept(q, tolerance, keep);
    Kept(size, tolerance, keep);
    Larger(q, size, keep);
  }

  lemma ShallowBids(asks: seq<Level>, bids: seq<Level>, tolerance: real, size: real)
    requires GoodSides(asks, bids) && 0.0 <= tolerance < 1.0 && size == asks[0].1
    requires Depth(bids) <= size - size * tolerance
    ensures CostNeverFalls(asks, bids, tolerance) <==> NeverRises(bids, tolerance)
  {
    forall q1, q2 | 0.0 < q1 <= q2
      ensures NoHigher(BookCost(asks, bids, q1, tolerance), BookCost(asks, bids, q2, tolerance))
              <==> NoHigher(Average(bids, q2, tolerance), Average(bids, q1, tolerance))
    {
      if Average(bids, q1, tolerance).Some? && Average(bids, q2, tolerance).Some? {
        PricedWithinFirst(bids, q1, tolerance, size);
        PricedWithinFirst(bids, q2, tolerance, size);
        CostWithinFirst(asks, bids, q1, q2, tolerance);
      }
    }
  }

  lemma ExactCostNeverFalls(asks: seq<Level>, bids: seq<Level>)
    requires GoodSides(asks, bids)
    ensures CostNeverFalls(asks, bids, 0.0)
  {
    forall q1, q2 | 0.0 < q1 <= q2
      ensures NoHigher(BookCost(asks, bids, q1, 0.0), BookCost(asks, bids, q2, 0.0))
    {
      if BookCost(asks, bids, q1, 0.0).Some? && BookCost(asks, bids, q2, 0.0).Some? {
        ExactAskOrder(asks, q1, q2);
        ExactOrder(bids, q1, q2);
        var mid := Mid(asks, bids);
        BuyBpsOrder(Average(asks, q1, 0.0).value, Average(asks, q2, 0.0).value, mid);
        BuyBpsOrder(Average(bids, q2, 0.0).value, Average(bids, q1, 0.0).value, mid);
      }
    }
  }

  /** Over every accepted book: the book cost never falls with the quantity if and only if there is
      no tolerance, or a single bid level is used up before the first ask level is. */
  lemma CostNeverFallsIff(asks: seq<Level>, bids: seq<Level>, tolerance: real)
    requires GoodSides(asks, bids) && 0.0 <= tolerance < 1.0
    ensures CostNeverFalls(asks, bids, tolerance)
            <==> tolerance == 0.0 || (|bids| == 1 && bids[0].1 <= asks[0].1 - asks[0].1 * tolerance)
  {
    assert |bids| == 1 ==> Depth(bids) == bids[0].1;
    if tolerance == 0.0 {
      ExactCostNeverFalls(asks, bids);
    } else if Depth(bids) > asks[0].1 - asks[0].1 * tolerance {
      CostFallsAtEnd(asks, bids, tolerance, asks[0].1);
    } else {
      ShallowBids(asks, bids, tolerance, asks[0].1);
      BidNeverRisesIff(bids, tolerance);
    }
  }

  lemma ScenarioBookCost(
    asks: seq<Level>, bids: seq<Level>, fee: FeeRate, minimum: real, notional: real, tolerance: real)
    requires GoodSides(asks, bids) && notional > 0.0
    ensures Scenario(asks, bids, fee, minimum, notional, tolerance).bookBps
            == BookCost(asks, bids, Quantity(asks, bids, notional), tolerance)
  {
  }

  lemma TimesAndBack(quantity: real, mid: real, notional: real)
    requires quantity > 0.0 && mid > 0.0 && notional == quantity * mid
    ensures notional > 0.0 && notional / mid == quantity
  {
  }

  /** Every quantity is that of some notional, and larger quantities are of larger ones. */
  lemma NotionalsFor(q1: real, q2: real, mid: real) returns (small: real, large: real)
    requires 0.0 < q1 <= q2 && mid > 0.0
    ensures 0.0 < small <= large && small / mid == q1 && large / mid == q2
  {
    small, large := q1 * mid, q2 * mid;
    TimesAndBack(q1, mid, small);
    TimesAndBack(q2, mid, large);
    Larger(q1, q2, mid);
  }

  ghost predicate SizesNeverCheaper(asks: seq<Level>, bids: seq<Level>, fee: FeeRate, minimum: real, tolerance: real)
    requires GoodSides(asks, bids)
  {
    forall small, large :: 0.0 < small <= large ==>
      NoHigher(Scenario(asks, bids, fee, minimum, small, tolerance).bookBps,
               Scenario(asks, bids, fee, minimum, large, tolerance).bookBps)
  }

  /** The same of the scenarios: a larger size never has the lower book cost if and only if there is
      no tolerance, or a single bid level is used up before the first ask level is. */
  lemma SizesNeverCheaperIff(asks: seq<Level>, bids: seq<Level>, fee: FeeRate, minimum: real, tolerance: real)
    requires GoodSides(asks, bids) && 0.0 <= tolerance < 1.0
    ensures SizesNeverCheaper(asks, bids, fee, minimum, tolerance)
            <==> tolerance == 0.0 || (|bids| == 1 && bids[0].1 <= asks[0].1 - asks[0].1 * tolerance)
  {
    CostNeverFallsIff(asks, bids, tolerance);
    if CostNeverFalls(asks, bids, tolerance) {
      forall small, large | 0.0 < small <= large
        ensures NoHigher(Scenario(asks, bids, fee, minimum, small, tolerance).bookBps,
                         Scenario(asks, bids, fee, minimum, large, tolerance).bookBps)
      {
        QuantityOrder(small, large, Mid(asks, bids));
        ScenarioBookCost(asks, bids, fee, minimum, small, tolerance);
        ScenarioBookCost(asks, bids, fee, minimum, large, tolerance);
      }
    } else {
      CheaperNotional(asks, bids, fee, minimum, tolerance);
    }
  }

  lemma CheaperNotional(asks: seq<Level>, bids: seq<Level>, fee: FeeRate, minimum: real, tolerance: real)
    requires GoodSides(asks, bids) && !CostNeverFalls(asks, bids, tolerance)
    ensures !SizesNeverCheaper(asks, bids, fee, minimum, tolerance)
  {
    var q1, q2 :| 0.0 < q1 <= q2
                  && !NoHigher(BookCost(asks, bids, q1, tolerance), BookCost(asks, bids, q2, tolerance));
    var small, large := NotionalsFor(q1, q2, Mid(asks, bids));
    ScenarioBookCost(asks, bids, fee, minimum, small, tolerance);
    ScenarioBookCost(asks, bids, fee, minimum, large, tolerance);
    assert !NoHigher(Scenario(asks, bids, fee, minimum, small, tolerance).bookBps,
                     Scenario(asks, bids, fee, minimum, large, tolerance).bookBps);
  }

  /** From the book to the advice: on the same history, the action at the cost of a larger size
      is never further along towards an entry. */
  lemma LargerSizeOnlyDefers(
    asks: seq<Level>, bids: seq<Level>, fee: FeeRate, minimum: real, small: real, large: real,
    selected: seq<Labels.Outcome>, tail: seq<Labels.Outcome>, evidence: bool)
    requires GoodSides(asks, bids) && 0.0 < small <= large && selected != [] && tail != []
    requires Scenario(asks, bids, fee, minimum, small, TOLERANCE).roundtripBps.Some?
    requires Scenario(asks, bids, fee, minimum, large, TOLERANCE).roundtripBps.Some?
    requires Untruncated(asks, bids, small, large, TOLERANCE)
    ensures var atSmall := Scenario(asks, bids, fee, minimum, small, TOLERANCE).roundtripBps.value;
            var atLarge := Scenario(asks, bids, fee, minimum, large, TOLERANCE).roundtripBps.value;
            AdviceBuilder.Rank(AdviceBuilder.ActionAt(selected, tail, atSmall, evidence))
            <= AdviceBuilder.Rank(AdviceBuilder.ActionAt(selected, tail, atLarge, evidence))
  {
    RoundtripMonotone(asks, bids, fee, minimum, small, large, TOLERANCE);
    AdviceBuilder.RaisingCostOnlyDefers(
      selected, tail, Scenario(asks, bids, fee, minimum, small, TOLERANCE).roundtripBps.value,
      Scenario(asks, bids, fee, minimum, large, TOLERANCE).roundtripBps.value, evidence);
  }
}
