/** `vwap` over sorted levels: when it exists, and how it moves with the quantity. */
module OrderBook {
  import opened Contracts

  /** A price level: price and size. */
  type Level = (real, real)

  /** A quantity counts as filled when all but this fraction of it is. */
  const TOLERANCE := 0.000000000001

  predicate Sized(levels: seq<Level>) {
    forall i :: 0 <= i < |levels| ==> levels[i].1 > 0.0
  }

  predicate Priced(levels: seq<Level>) {
    forall i :: 0 <= i < |levels| ==> levels[i].0 > 0.0
  }

  /** The order of asks; bids have the reverse one. */
  predicate Rising(levels: seq<Level>) {
    forall i, j :: 0 <= i < j < |levels| ==> levels[i].0 < levels[j].0
  }

  predicate Falling(levels: seq<Level>) {
    forall i, j :: 0 <= i < j < |levels| ==> levels[i].0 > levels[j].0
  }

  function Depth(levels: seq<Level>): real {
    if levels == [] then 0.0 else levels[0].1 + Depth(levels[1..])
  }

  /** What the loop has paid when it stops, with `remaining` to fill and `slack` to spare. */
  function Paid(levels: seq<Level>, remaining: real, slack: real): Option<real> {
    if levels == [] then None
    else
      var (price, size) := levels[0];
      if remaining <= size then Some(price * remaining)
      else if remaining - size <= slack then Some(price * size)
      else Shifted(price * size, Paid(levels[1..], remaining - size, slack))
  }

  /** A payment on top of what was paid before. */
  function Shifted(quote: real, paid: Option<real>): Option<real> {
    if paid.None? then None else Some(quote + paid.value)
  }

  function Average(levels: seq<Level>, quantity: real, tolerance: real): Option<real>
    requires quantity > 0.0
  {
    var paid := Paid(levels, quantity, quantity * tolerance);
    if paid.None? then None else Some(paid.value / quantity)
  }

  /** One turn of the loop, on top of `quote`. */
  lemma PaidTurn(levels: seq<Level>, remaining: real, slack: real, quote: real, taken: real, turn: real)
    requires levels != [] && slack >= 0.0
    requires taken == (if remaining <= levels[0].1 then remaining else levels[0].1) && turn == levels[0].0 * taken
    ensures Shifted(quote, Paid(levels, remaining, slack))
            == if remaining - taken <= slack then Some(quote + turn)
               else Shifted(quote + turn, Paid(levels[1..], remaining - taken, slack))
  {
    var paid, rest := Paid(levels, remaining, slack), Paid(levels[1..], remaining - taken, slack);
    if remaining <= levels[0].1 {
      assert paid.value == levels[0].0 * remaining == turn;
    } else {
      assert levels[0].0 * levels[0].1 == turn;
    }
    if remaining - taken > slack && rest.Some? {
      assert paid.value == turn + rest.value;
      assert quote + (turn + rest.value) == quote + turn + rest.value;
    }
  }

  /** `vwap`. */
  method Vwap(levels: seq<Level>, quantity: real) returns (price: Option<real>)
    requires quantity > 0.0
    ensures price == Average(levels, quantity, TOLERANCE)
  {
    var remaining, quote := quantity, 0.0;
    ghost var slack := quantity * TOLERANCE;
    for i := 0 to |levels|
      invariant Paid(levels, quantity, slack) == Shifted(quote, Paid(levels[i..], remaining, slack))
    {
      assert levels[i..][0] == levels[i] && levels[i..][1..] == levels[i + 1..];
      var taken := if remaining <= levels[i].1 then remaining else levels[i].1;
      PaidTurn(levels[i..], remaining, slack, quote, taken, levels[i].0 * taken);
      quote := quote + levels[i].0 * taken;
      remaining := remaining - taken;
      if remaining <= quantity * TOLERANCE {
        return Some(quote / quantity);
      }
    }
    return None;
  }

  // ----- the exact cost of a quantity

  /** What exactly `amount` costs, as far as the levels reach. */
  function Cost(levels: seq<Level>, amount: real): real {
    if levels == [] then 0.0
    else
      var (price, size) := levels[0];
      if amount <= size then price * amount else price * size + Cost(levels[1..], amount - size)
  }

  /** How much the loop has taken when it stops. */
  function Taken(levels: seq<Level>, remaining: real, slack: real): real {
    if levels == [] then 0.0
    else
      var size := levels[0].1;
      if remaining <= size then remaining
      else if remaining - size <= slack then size
      else size + Taken(levels[1..], remaining - size, slack)
  }

  lemma {:induction false} DepthNonNegative(levels: seq<Level>)
    requires Sized(levels)
    ensures Depth(levels) >= 0.0
    decreases |levels|
  {
    if levels != [] {
      DepthNonNegative(levels[1..]);
    }
  }

  /** It stops exactly when the depth suffices but for the slack, has taken between the wanted
      quantity less the slack and all of it, and paid what that much costs. */
  lemma {:induction false} PaidIsCost(levels: seq<Level>, remaining: real, slack: real)
    requires Sized(levels) && 0.0 <= slack < remaining
    ensures Paid(levels, remaining, slack).Some? <==> Depth(levels) >= remaining - slack
    ensures Paid(levels, remaining, slack).Some? ==>
              var taken := Taken(levels, remaining, slack);
              && remaining - slack <= taken <= remaining && 0.0 < taken <= Depth(levels)
              && Paid(levels, remaining, slack).value == Cost(levels, taken)
    decreases |levels|
  {
    if levels != [] {
      var size := levels[0].1;
      DepthNonNegative(levels[1..]);
      if remaining - size > slack {
        PaidIsCost(levels[1..], remaining - size, slack);
      }
    }
  }

  /** A larger quantity takes at least as much. */
  lemma {:induction false} TakenMonotone(levels: seq<Level>, r1: real, s1: real, r2: real, s2: real)
    requires Sized(levels) && 0.0 <= s1 < r1 <= r2 && 0.0 <= s2 < r2 && r1 - s1 <= r2 - s2
    requires Paid(levels, r1, s1).Some? && Paid(levels, r2, s2).Some?
    ensures Taken(levels, r1, s1) <= Taken(levels, r2, s2)
    decreases |levels|
  {
    var size := levels[0].1;
    if r2 - size > s2 {
      PaidIsCost(levels[1..], r2 - size, s2);
      if r1 - size > s1 {
        TakenMonotone(levels[1..], r1 - size, s1, r2 - size, s2);
      }
    }
  }

  predicate AtLeast(levels: seq<Level>, floor: real) {
    forall i :: 0 <= i < |levels| ==> levels[i].0 >= floor
  }

  /** `cost` for `amount` averages at most `price`. */
  predicate AtMostEach(cost: real, price: real, amount: real) {
    cost <= price * amount
  }

  predicate AtLeastEach(cost: real, price: real, amount: real) {
    cost >= price * amount
  }

  /** cx / x <= cy / y, multiplied out. */
  predicate NoDearer(cx: real, x: real, cy: real, y: real) {
    cx * y <= cy * x
  }

  lemma Steeper(price: real, floor: real, x: real, y: real)
    requires price >= floor && x <= y
    ensures AtLeastEach(price * y - price * x, floor, y - x)
  {
    assert price * y - price * x == price * (y - x);
  }

  lemma Extend(c1: real, c2: real, floor: real, w1: real, w2: real)
    requires AtLeastEach(c1, floor, w1) && AtLeastEach(c2, floor, w2)
    ensures AtLeastEach(c1 + c2, floor, w1 + w2)
  {
  }

  /** Beyond any amount, more costs at least the lowest price each. */
  lemma {:induction false} SlopeAtLeast(levels: seq<Level>, floor: real, x: real, y: real)
    requires AtLeast(levels, floor) && Sized(levels)
    requires 0.0 <= x <= y <= Depth(levels)
    ensures AtLeastEach(Cost(levels, y) - Cost(levels, x), floor, y - x)
    decreases |levels|
  {
    if levels == [] {
      assert y - x == 0.0;
    } else {
      var price, size, rest := levels[0].0, levels[0].1, levels[1..];
      DepthNonNegative(rest);
      if y <= size {
        Steeper(price, floor, x, y);
      } else if x <= size {
        SlopeAtLeast(rest, floor, 0.0, y - size);
        Steeper(price, floor, x, size);
        Extend(price * size - price * x, Cost(rest, y - size), floor, size - x, y - size);
      } else {
        SlopeAtLeast(rest, floor, x - size, y - size);
        assert (y - size) - (x - size) == y - x;
      }
    }
  }

  lemma AddFirst(price: real, size: real, p: real, x: real, rest: real, cost: real)
    requires price <= p && size > 0.0 && AtMostEach(rest, p, x - size) && cost == price * size + rest
    ensures AtMostEach(cost, p, x)
  {
    assert price * size <= p * size && p * size + p * (x - size) == p * x;
  }

  /** Some price is no less than the average up to x and no more than what is paid beyond x. */
  lemma {:induction false} PriceAt(levels: seq<Level>, x: real, y: real) returns (p: real)
    requires Sized(levels) && Rising(levels) && 0.0 < x <= y <= Depth(levels)
    ensures p >= levels[0].0
    ensures AtMostEach(Cost(levels, x), p, x)
    ensures AtLeastEach(Cost(levels, y) - Cost(levels, x), p, y - x)
    decreases |levels|
  {
    var price, size, rest := levels[0].0, levels[0].1, levels[1..];
    assert AtLeast(levels, price);
    if x <= size {
      p := price;
      SlopeAtLeast(levels, price, x, y);
    } else {
      p := PriceAt(rest, x - size, y - size);
      assert (y - size) - (x - size) == y - x;
      AddFirst(price, size, p, x, Cost(rest, x - size), Cost(levels, x));
    }
  }

  /** The average cost of rising levels does not fall: C(x) / x <= C(y) / y, multiplied out. */
  lemma AverageRises(levels: seq<Level>, x: real, y: real)
    requires Sized(levels) && Rising(levels) && 0.0 < x <= y <= Depth(levels)
    ensures NoDearer(Cost(levels, x), x, Cost(levels, y), y)
  {
    var p := PriceAt(levels, x, y);
    CombineAverages(p, x, y, Cost(levels, x), Cost(levels, y));
  }

  lemma CombineAverages(p: real, x: real, y: real, cx: real, cy: real)
    requires 0.0 < x <= y && AtMostEach(cx, p, x) && AtLeastEach(cy - cx, p, y - x)
    ensures NoDearer(cx, x, cy, y)
  {
    assert cx * (y - x) <= (p * x) * (y - x) == (p * (y - x)) * x <= (cy - cx) * x;
    assert cx * y == cx * x + cx * (y - x) && cy * x == cx * x + (cy - cx) * x;
  }

  // ----- bids are asks at negative prices

  function Negated(levels: seq<Level>): seq<Level> {
    seq(|levels|, i requires 0 <= i < |levels| => (-levels[i].0, levels[i].1))
  }

  lemma {:induction false} NegatedCost(levels: seq<Level>, x: real)
    ensures Cost(Negated(levels), x) == -Cost(levels, x)
    ensures Depth(Negated(levels)) == Depth(levels)
    decreases |levels|
  {
    if levels != [] {
      assert Negated(levels)[1..] == Negated(levels[1..]);
      NegatedCost(levels[1..], x - levels[0].1);
    }
  }

  lemma AverageFalls(levels: seq<Level>, x: real, y: real)
    requires Sized(levels) && Falling(levels) && 0.0 < x <= y <= Depth(levels)
    ensures NoDearer(Cost(levels, y), y, Cost(levels, x), x)
  {
    NegatedCost(levels, x);
    NegatedCost(levels, y);
    AverageRises(Negated(levels), x, y);
    FlipSigns(Cost(levels, x), x, Cost(levels, y), y);
  }

  lemma FlipSigns(cx: real, x: real, cy: real, y: real)
    requires NoDearer(-cx, x, -cy, y)
    ensures NoDearer(cy, y, cx, x)
  {
    assert (-cx) * y == -(cx * y) && (-cy) * x == -(cy * x);
  }

  // ----- the laws of `vwap`

  /** What the price is made of. */
  ghost predicate Filled(levels: seq<Level>, quantity: real, tolerance: real, taken: real)
    requires quantity > 0.0
  {
    && quantity - quantity * tolerance <= taken <= quantity && 0.0 < taken <= Depth(levels)
    && Average(levels, quantity, tolerance) == Some(Cost(levels, taken) / quantity)
  }

  /** A price exists exactly when the depth suffices but for the tolerance; it is what the
      filled part costs, over the whole quantity. */
  lemma PriceExists(levels: seq<Level>, quantity: real, tolerance: real)
    requires Sized(levels) && quantity > 0.0 && 0.0 <= tolerance < 1.0
    ensures Average(levels, quantity, tolerance).Some? <==> Depth(levels) >= quantity - quantity * tolerance
    ensures Average(levels, quantity, tolerance).Some? ==>
              Filled(levels, quantity, tolerance, Taken(levels, quantity, quantity * tolerance))
  {
    var slack := Portion(quantity, tolerance);
    PaidIsCost(levels, quantity, slack);
  }

  /** `k` levels are the first that leave no more than the slack to fill; they give `taken`. */
  ghost predicate StopsAfter(levels: seq<Level>, remaining: real, slack: real, k: int, taken: real) {
    && 0 < k <= |levels| && remaining - Depth(levels[..k]) <= slack
    && (forall j {:trigger levels[..j]} :: 0 <= j < k ==> remaining - Depth(levels[..j]) > slack)
    && taken == if remaining <= Depth(levels[..k]) then remaining else Depth(levels[..k])
  }

  lemma {:induction false} PaidStops(levels: seq<Level>, remaining: real, slack: real) returns (k: int)
    requires Sized(levels) && 0.0 <= slack < remaining && Paid(levels, remaining, slack).Some?
    ensures StopsAfter(levels, remaining, slack, k, Taken(levels, remaining, slack))
    decreases |levels|
  {
    var size := levels[0].1;
    assert levels[..1] == [levels[0]] && [levels[0]][1..] == [];
    assert Depth(levels[..1]) == size;
    if remaining - size <= slack {
      return 1;
    }
    var rest := PaidStops(levels[1..], remaining - size, slack);
    forall j | 0 < j <= |levels| ensures Depth(levels[..j]) == size + Depth(levels[1..][..j - 1]) {
      assert levels[..j][0] == levels[0] && levels[..j][1..] == levels[1..][..j - 1];
    }
    k := rest + 1;
  }

  /** The price of a quantity: what the levels taken cost, over the whole quantity. */
  ghost predicate PricedAt(levels: seq<Level>, quantity: real, tolerance: real, price: real)
    requires quantity > 0.0
  {
    exists k, taken, slack :: slack == quantity * tolerance && StopsAfter(levels, quantity, slack, k, taken)
                              && price == Cost(levels, taken) / quantity
  }

  lemma AverageIsPrice(levels: seq<Level>, quantity: real, tolerance: real)
    requires Sized(levels) && quantity > 0.0 && 0.0 <= tolerance < 1.0
    requires Average(levels, quantity, tolerance).Some?
    ensures PricedAt(levels, quantity, tolerance, Average(levels, quantity, tolerance).value)
  {
    var slack := Portion(quantity, tolerance);
    PaidIsCost(levels, quantity, slack);
    var k := PaidStops(levels, quantity, slack);
  }

  /** No level ends within the tolerance just short of the quantity. */
  ghost predicate Clear(levels: seq<Level>, quantity: real, slack: real) {
    forall k {:trigger levels[..k]} :: 0 <= k <= |levels| ==> !(quantity - slack <= Depth(levels[..k]) < quantity)
  }

  lemma DepthOfPrefix(levels: seq<Level>, k: nat)
    requires 0 < k <= |levels|
    ensures Depth(levels[..k]) == levels[0].1 + Depth(levels[1..][..k - 1])
  {
    assert levels[..k][1..] == levels[1..][..k - 1];
  }

  lemma ClearRest(levels: seq<Level>, remaining: real, slack: real)
    requires levels != [] && levels[0].1 > 0.0 && remaining - levels[0].1 > slack >= 0.0
    ensures Clear(levels, remaining, slack) <==> Clear(levels[1..], remaining - levels[0].1, slack)
  {
    var size, rest := levels[0].1, levels[1..];
    if Clear(levels, remaining, slack) {
      forall k | 0 <= k <= |rest|
        ensures !(remaining - size - slack <= Depth(rest[..k]) < remaining - size)
      {
        DepthOfPrefix(levels, k + 1);
      }
    }
    if Clear(rest, remaining - size, slack) {
      forall k | 0 <= k <= |levels|
        ensures !(remaining - slack <= Depth(levels[..k]) < remaining)
      {
        if k > 0 {
          DepthOfPrefix(levels, k);
        }
      }
    }
  }

  /** The loop takes the whole quantity exactly when no level ends within the tolerance. */
  lemma {:induction false} FullIffClear(levels: seq<Level>, remaining: real, slack: real)
    requires Sized(levels) && 0.0 <= slack < remaining && Paid(levels, remaining, slack).Some?
    ensures Taken(levels, remaining, slack) == remaining <==> Clear(levels, remaining, slack)
    decreases |levels|
  {
    var size, rest := levels[0].1, levels[1..];
    if remaining <= size {
      forall k | 0 <= k <= |levels| ensures !(remaining - slack <= Depth(levels[..k]) < remaining) {
        if k > 0 {
          DepthOfPrefix(levels, k);
          DepthNonNegative(rest[..k - 1]);
        }
      }
    } else if remaining - size <= slack {
      DepthOfPrefix(levels, 1);
    } else {
      ClearRest(levels, remaining, slack);
      FullIffClear(rest, remaining - size, slack);
    }
  }

  lemma RatioOrder(c1: real, q1: real, c2: real, q2: real)
    requires q1 > 0.0 && q2 > 0.0
    ensures c1 / q1 <= c2 / q2 <==> NoDearer(c1, q1, c2, q2)
  {
    assert c1 == c1 / q1 * q1 && c2 == c2 / q2 * q2;
    assert c2 * q1 - c1 * q2 == (c2 / q2 - c1 / q1) * (q1 * q2);
    assert q1 * q2 > 0.0;
  }

  lemma CostNonNegative(levels: seq<Level>, x: real)
    requires Sized(levels) && Priced(levels) && 0.0 <= x <= Depth(levels)
    ensures Cost(levels, x) >= 0.0
  {
    assert AtLeast(levels, 0.0);
    SlopeAtLeast(levels, 0.0, 0.0, x);
    assert levels != [] ==> Cost(levels, 0.0) == levels[0].0 * 0.0;
  }

  lemma WidenAsk(c1: real, t1: real, q1: real, c2: real, t2: real, q2: real, tolerance: real, scaled: real)
    requires NoDearer(c1, t1, c2, t2) && c1 >= 0.0 && c2 >= 0.0 && 0.0 < t1 <= q1 && 0.0 < t2 <= q2
    requires t2 >= q2 - q2 * tolerance && 0.0 <= tolerance < 1.0 && scaled == c1 * (1.0 - tolerance)
    ensures NoDearer(scaled, q1, c2, q2)
    ensures t2 == q2 ==> NoDearer(c1, q1, c2, q2)
  {
    assert c2 * q1 >= c2 * t1;
    assert c1 * t2 >= c1 * (q2 - q2 * tolerance) == scaled * q2;
  }

  lemma Portion(quantity: real, tolerance: real) returns (slack: real)
    requires quantity > 0.0 && 0.0 <= tolerance < 1.0
    ensures slack == quantity * tolerance && 0.0 <= slack < quantity
  {
    slack := quantity * tolerance;
    assert (1.0 - tolerance) * quantity > 0.0;
  }

  lemma Portions(q1: real, q2: real, tolerance: real) returns (s1: real, s2: real)
    requires 0.0 < q1 <= q2 && 0.0 <= tolerance < 1.0
    ensures s1 == q1 * tolerance && s2 == q2 * tolerance
    ensures 0.0 <= s1 < q1 && 0.0 <= s2 < q2 && q1 - s1 <= q2 - s2
  {
    s1 := Portion(q1, tolerance);
    s2 := Portion(q2, tolerance);
    if q1 < q2 {
      var more := Portion(q2 - q1, tolerance);
      assert more == s2 - s1;
    }
  }

  /** What two priced quantities take, the larger one no less. */
  lemma TwoFills(levels: seq<Level>, q1: real, q2: real, tolerance: real) returns (t1: real, t2: real)
    requires Sized(levels) && 0.0 < q1 <= q2 && 0.0 <= tolerance < 1.0
    requires Average(levels, q1, tolerance).Some? && Average(levels, q2, tolerance).Some?
    ensures t1 <= t2 && Filled(levels, q1, tolerance, t1) && Filled(levels, q2, tolerance, t2)
    ensures t1 == q1 <==> Clear(levels, q1, q1 * tolerance)
    ensures t2 == q2 <==> Clear(levels, q2, q2 * tolerance)
  {
    PriceExists(levels, q1, tolerance);
    PriceExists(levels, q2, tolerance);
    var s1, s2 := Portions(q1, q2, tolerance);
    t1, t2 := Taken(levels, q1, s1), Taken(levels, q2, s2);
    TakenMonotone(levels, q1, s1, q2, s2);
    FullIffClear(levels, q1, s1);
    FullIffClear(levels, q2, s2);
  }

  lemma WidenBid(c1: real, t1: real, q1: real, c2: real, t2: real, q2: real, tolerance: real, scaled: real)
    requires NoDearer(c2, t2, c1, t1) && c1 >= 0.0 && c2 >= 0.0 && 0.0 < t1 <= q1 && 0.0 < t2 <= q2
    requires t1 >= q1 - q1 * tolerance && 0.0 <= tolerance < 1.0 && scaled == c2 * (1.0 - tolerance)
    ensures NoDearer(scaled, q2, c1, q1)
    ensures t1 == q1 ==> NoDearer(c2, q2, c1, q1)
  {
    assert c1 * q2 >= c1 * t2;
    assert c2 * t1 >= c2 * (q1 - q1 * tolerance) == scaled * q1;
  }

  /** The ask price does not fall with the quantity, but for the tolerance; and not at all
      when no level ends within the tolerance of the larger quantity. */
  lemma AskMonotone(asks: seq<Level>, q1: real, q2: real, tolerance: real)
    requires Sized(asks) && Priced(asks) && Rising(asks) && 0.0 < q1 <= q2 && 0.0 <= tolerance < 1.0
    requires Average(asks, q1, tolerance).Some? && Average(asks, q2, tolerance).Some?
    ensures Average(asks, q2, tolerance).value >= Average(asks, q1, tolerance).value * (1.0 - tolerance)
    ensures Clear(asks, q2, q2 * tolerance) ==> Average(asks, q2, tolerance).value >= Average(asks, q1, tolerance).value
  {
    var t1, t2 := TwoFills(asks, q1, q2, tolerance);
    AverageRises(asks, t1, t2);
    CostNonNegative(asks, t1);
    CostNonNegative(asks, t2);
    AskOrder(Cost(asks, t1), t1, q1, Cost(asks, t2), t2, q2, tolerance,
             Average(asks, q1, tolerance).value, Average(asks, q2, tolerance).value);
  }

  lemma AskOrder(
    c1: real, t1: real, q1: real, c2: real, t2: real, q2: real, tolerance: real, a1: real, a2: real)
    requires NoDearer(c1, t1, c2, t2) && c1 >= 0.0 && c2 >= 0.0 && 0.0 < t1 <= q1 && 0.0 < t2 <= q2
    requires t2 >= q2 - q2 * tolerance && 0.0 <= tolerance < 1.0 && a1 == c1 / q1 && a2 == c2 / q2
    ensures a2 >= a1 * (1.0 - tolerance)
    ensures t2 == q2 ==> a2 >= a1
  {
    var scaled := c1 * (1.0 - tolerance);
    WidenAsk(c1, t1, q1, c2, t2, q2, tolerance, scaled);
    RatioOrder(scaled, q1, c2, q2);
    RatioOrder(c1, q1, c2, q2);
    ScaleRatio(c1, q1, 1.0 - tolerance, a1, scaled);
  }

  /** The bid price does not rise with the quantity, but for the tolerance; and not at all
      when no level ends within the tolerance of the smaller quantity. */
  lemma BidMonotone(bids: seq<Level>, q1: real, q2: real, tolerance: real)
    requires Sized(bids) && Priced(bids) && Falling(bids) && 0.0 < q1 <= q2 && 0.0 <= tolerance < 1.0
    requires Average(bids, q1, tolerance).Some? && Average(bids, q2, tolerance).Some?
    ensures Average(bids, q2, tolerance).value * (1.0 - tolerance) <= Average(bids, q1, tolerance).value
    ensures Clear(bids, q1, q1 * tolerance) ==> Average(bids, q2, tolerance).value <= Average(bids, q1, tolerance).value
  {
    var t1, t2 := TwoFills(bids, q1, q2, tolerance);
    AverageFalls(bids, t1, t2);
    CostNonNegative(bids, t1);
    CostNonNegative(bids, t2);
    BidOrder(Cost(bids, t1), t1, q1, Cost(bids, t2), t2, q2, tolerance,
             Average(bids, q1, tolerance).value, Average(bids, q2, tolerance).value);
  }

  lemma BidOrder(
    c1: real, t1: real, q1: real, c2: real, t2: real, q2: real, tolerance: real, a1: real, a2: real)
    requires NoDearer(c2, t2, c1, t1) && c1 >= 0.0 && c2 >= 0.0 && 0.0 < t1 <= q1 && 0.0 < t2 <= q2
    requires t1 >= q1 - q1 * tolerance && 0.0 <= tolerance < 1.0 && a1 == c1 / q1 && a2 == c2 / q2
    ensures a2 * (1.0 - tolerance) <= a1
    ensures t1 == q1 ==> a2 <= a1
  {
    var scaled := c2 * (1.0 - tolerance);
    WidenBid(c1, t1, q1, c2, t2, q2, tolerance, scaled);
    RatioOrder(scaled, q2, c1, q1);
    RatioOrder(c2, q2, c1, q1);
    ScaleRatio(c2, q2, 1.0 - tolerance, a2, scaled);
  }

  lemma ScaleRatio(c: real, q: real, factor: real, average: real, scaled: real)
    requires q > 0.0 && average == c / q && scaled == c * factor
    ensures scaled / q == average * factor
  {
  }

  lemma AskAtLeastBest(asks: seq<Level>, quantity: real, tolerance: real)
    requires Sized(asks) && Priced(asks) && Rising(asks) && 0.0 < quantity && 0.0 <= tolerance < 1.0
    requires Average(asks, quantity, tolerance).Some? && Clear(asks, quantity, quantity * tolerance)
    ensures Average(asks, quantity, tolerance).value >= asks[0].0
  {
    var _, taken := TwoFills(asks, quantity, quantity, tolerance);
    CostFloor(asks, taken);
    ShareAtLeast(Cost(asks, quantity), asks[0].0, quantity);
  }

  lemma ShareAtLeast(cost: real, price: real, quantity: real)
    requires AtLeastEach(cost, price, quantity) && quantity > 0.0
    ensures cost / quantity >= price
  {
    assert cost == cost / quantity * quantity;
  }

  /** Whatever the tolerance: the unfilled part counts as sold for nothing. */
  lemma BidAtMostBest(bids: seq<Level>, quantity: real, tolerance: real)
    requires Sized(bids) && Priced(bids) && Falling(bids) && 0.0 < quantity && 0.0 <= tolerance < 1.0
    requires Average(bids, quantity, tolerance).Some?
    ensures Average(bids, quantity, tolerance).value <= bids[0].0
  {
    var _, taken := TwoFills(bids, quantity, quantity, tolerance);
    CostCeiling(bids, taken);
    ShareAtMost(Cost(bids, taken), bids[0].0, taken, quantity);
  }

  lemma CostCeiling(bids: seq<Level>, x: real)
    requires Sized(bids) && Falling(bids) && 0.0 < x <= Depth(bids)
    ensures AtMostEach(Cost(bids, x), bids[0].0, x)
  {
    var asks := Negated(bids);
    NegatedCost(bids, x);
    NegatedCost(bids, 0.0);
    assert AtLeast(asks, asks[0].0);
    SlopeAtLeast(asks, asks[0].0, 0.0, x);
    assert Cost(bids, 0.0) == bids[0].0 * 0.0 && asks[0].0 * x == -(bids[0].0 * x);
  }

  lemma ShareAtMost(cost: real, price: real, taken: real, quantity: real)
    requires AtMostEach(cost, price, taken) && price > 0.0 && 0.0 < taken <= quantity
    ensures cost / quantity <= price
  {
    assert price * taken <= price * quantity;
    assert cost == cost / quantity * quantity;
  }

  // ----- exactly when the ask price does not fall

  ghost predicate StopsAt(levels: seq<Level>, remaining: real, slack: real, taken: real) {
    Paid(levels, remaining, slack).Some? && Taken(levels, remaining, slack) == taken
  }

  /** A loop that stops short at the end of a level stops there for every quantity beyond
      that level's end whose least acceptable part lies beyond the previous level's end. */
  lemma {:induction false} ShortStop(levels: seq<Level>, r: real, s: real, taken: real) returns (before: real)
    requires Sized(levels) && 0.0 <= s < r && StopsAt(levels, r, s, taken) && taken < r
    ensures 0.0 <= before < r - s
    ensures forall r1, s1 :: s1 >= 0.0 && taken <= r1 && before < r1 - s1 <= taken ==> StopsAt(levels, r1, s1, taken)
    decreases |levels|
  {
    var size, rest := levels[0].1, levels[1..];
    if r - size <= s {
      before := 0.0;
    } else {
      var inRest := ShortStop(rest, r - size, s, taken - size);
      before := size + inRest;
      forall r1, s1 | s1 >= 0.0 && taken <= r1 && before < r1 - s1 <= taken
        ensures StopsAt(levels, r1, s1, taken)
      {
        assert StopsAt(rest, r1 - size, s1, taken - size);
      }
    }
  }

  /** The ask price of a quantity is the highest up to it exactly when no level ends within
      the tolerance just short of that quantity. */
  lemma AskMonotoneIff(asks: seq<Level>, quantity: real, tolerance: real)
    requires Sized(asks) && Priced(asks) && Rising(asks) && 0.0 < quantity && 0.0 <= tolerance < 1.0
    requires Average(asks, quantity, tolerance).Some?
    ensures (forall q :: 0.0 < q <= quantity && Average(asks, q, tolerance).Some? ==>
                           Average(asks, q, tolerance).value <= Average(asks, quantity, tolerance).value)
            <==> Clear(asks, quantity, quantity * tolerance)
  {
    var taken, _ := TwoFills(asks, quantity, quantity, tolerance);
    if Clear(asks, quantity, quantity * tolerance) {
      forall q | 0.0 < q <= quantity && Average(asks, q, tolerance).Some?
        ensures Average(asks, q, tolerance).value <= Average(asks, quantity, tolerance).value
      {
        AskMonotone(asks, q, quantity, tolerance);
      }
    } else {
      var q := DearerLess(asks, quantity, tolerance);
      assert Average(asks, q, tolerance).value > Average(asks, quantity, tolerance).value;
    }
  }

  lemma Shortfall(q: real, before: real, taken: real, tolerance: real) returns (less: real)
    requires 0.0 <= tolerance < 1.0 && before < q - q * tolerance <= taken < q
    ensures taken <= less < q && before < less - less * tolerance <= taken
  {
    var room := (q - q * tolerance - before) / 2.0;
    var e := if q - taken <= room then q - taken else room;
    var part := Portion(e, tolerance);
    less := q - e;
    assert less * tolerance == q * tolerance - part;
  }

  /** A quantity filled short of a level's end is cheaper each than a slightly smaller one. */
  lemma DearerLess(asks: seq<Level>, quantity: real, tolerance: real) returns (less: real)
    requires Sized(asks) && Priced(asks) && Rising(asks) && 0.0 < quantity && 0.0 <= tolerance < 1.0
    requires Average(asks, quantity, tolerance).Some? && !Clear(asks, quantity, quantity * tolerance)
    ensures 0.0 < less < quantity && Average(asks, less, tolerance).Some?
    ensures Average(asks, less, tolerance).value > Average(asks, quantity, tolerance).value
  {
    var slack := Portion(quantity, tolerance);
    var taken := Taken(asks, quantity, slack);
    PriceExists(asks, quantity, tolerance);
    FullIffClear(asks, quantity, slack);
    var before := ShortStop(asks, quantity, slack, taken);
    less := Shortfall(quantity, before, taken, tolerance);
    var lessSlack := Portion(less, tolerance);
    assert StopsAt(asks, less, lessSlack, taken);
    PriceExists(asks, less, tolerance);
    assert AtLeast(asks, asks[0].0);
    CostFloor(asks, taken);
    SmallerShare(Cost(asks, taken), less, quantity);
  }

  lemma CostFloor(asks: seq<Level>, x: real)
    requires Sized(asks) && Priced(asks) && Rising(asks) && 0.0 < x <= Depth(asks)
    ensures AtLeastEach(Cost(asks, x), asks[0].0, x) && Cost(asks, x) > 0.0
  {
    assert AtLeast(asks, asks[0].0);
    SlopeAtLeast(asks, asks[0].0, 0.0, x);
    assert Cost(asks, 0.0) == asks[0].0 * 0.0;
    assert asks[0].0 * x > 0.0;
  }

  lemma SmallerShare(c: real, q1: real, q2: real)
    requires c > 0.0 && 0.0 < q1 < q2
    ensures c / q1 > c / q2
  {
    RatioOrder(c, q1, c, q2);
    assert c * q1 < c * q2;
  }

  /** At the tolerance of the code: one ask for one unit, and a quantity just above one. */
  lemma AskMonotoneFails()
    ensures var asks, more := [(1.0, 1.0)], 1.0 / (1.0 - TOLERANCE);
            && 1.0 < more && Average(asks, 1.0, TOLERANCE) == Some(1.0)
            && Average(asks, more, TOLERANCE).Some? && Average(asks, more, TOLERANCE).value < 1.0
  {
    var more := 1.0 / (1.0 - TOLERANCE);
    assert more * (1.0 - TOLERANCE) == 1.0;
    assert more - 1.0 == more * TOLERANCE;
    assert Paid([(1.0, 1.0)], more, more * TOLERANCE) == Some(1.0);
    SmallerShare(1.0, 1.0, more);
  }

  // ----- exactly when the bid price does not rise

  ghost predicate NeverRises(bids: seq<Level>, tolerance: real) {
    forall q1, q2 :: 0.0 < q1 <= q2 ==> NoHigher(Average(bids, q2, tolerance), Average(bids, q1, tolerance))
  }

  lemma ExactIsClear(levels: seq<Level>, quantity: real)
    ensures Clear(levels, quantity, quantity * 0.0)
  {
    assert quantity * 0.0 == 0.0;
  }

  function OneLevelTaken(level: Level, quantity: real): real {
    if quantity <= level.1 then quantity else level.1
  }

  lemma OneLevelAverage(level: Level, quantity: real, tolerance: real) returns (paid: real)
    requires quantity > 0.0 && tolerance >= 0.0 && Average([level], quantity, tolerance).Some?
    ensures paid == level.0 * OneLevelTaken(level, quantity)
    ensures Average([level], quantity, tolerance).value == paid / quantity
  {
    var slack, taken := quantity * tolerance, OneLevelTaken(level, quantity);
    paid := level.0 * taken;
    assert [level][1..] == [] && Paid([], quantity - taken, slack) == None;
    assert slack >= 0.0;
    FirstTurn([level], quantity, slack, taken, paid);
    AverageOf([level], quantity, tolerance, slack, paid);
  }

  lemma OneLevelOrder(
    price: real, size: real, t1: real, q1: real, t2: real, q2: real, paid1: real, paid2: real)
    requires price > 0.0 && 0.0 < q1 <= q2 && size > 0.0
    requires t1 == (if q1 <= size then q1 else size) && t2 == if q2 <= size then q2 else size
    requires paid1 == price * t1 && paid2 == price * t2
    ensures paid2 / q2 <= paid1 / q1
  {
    Spread(t1, q1, t2, q2, size);
    Scaled(price, t2, q1, t1, q2);
    RatioOrder(paid2, q2, paid1, q1);
  }

  ghost predicate NoHigher(a: Option<real>, b: Option<real>) {
    a.Some? && b.Some? ==> a.value <= b.value
  }

  /** One level: the price each, or its whole worth spread over more. */
  lemma OneLevel(level: Level, q1: real, q2: real, tolerance: real)
    requires level.0 > 0.0 && level.1 > 0.0 && 0.0 < q1 <= q2 && 0.0 <= tolerance < 1.0
    ensures NoHigher(Average([level], q2, tolerance), Average([level], q1, tolerance))
  {
    var a1, a2 := Average([level], q1, tolerance), Average([level], q2, tolerance);
    if a1.Some? && a2.Some? {
      var paid1 := OneLevelAverage(level, q1, tolerance);
      var paid2 := OneLevelAverage(level, q2, tolerance);
      OneLevelOrder(level.0, level.1, OneLevelTaken(level, q1), q1, OneLevelTaken(level, q2), q2, paid1, paid2);
    }
  }

  /** The loop that stops in its first turn, or does not. */
  lemma FirstTurn(levels: seq<Level>, remaining: real, slack: real, taken: real, turn: real)
    requires levels != [] && slack >= 0.0
    requires taken == (if remaining <= levels[0].1 then remaining else levels[0].1) && turn == levels[0].0 * taken
    ensures Paid(levels, remaining, slack)
            == if remaining - taken <= slack then Some(turn)
              else Shifted(turn, Paid(levels[1..], remaining - taken, slack))
  {
    PaidTurn(levels, remaining, slack, 0.0, taken, turn);
  }

  lemma Spread(t1: real, q1: real, t2: real, q2: real, size: real)
    requires 0.0 < q1 <= q2 && size > 0.0
    requires t1 == (if q1 <= size then q1 else size) && t2 == if q2 <= size then q2 else size
    ensures NoDearer(t2, q2, t1, q1)
  {
    if q2 > size {
      assert size * q1 <= t1 * q2;
    }
  }

  lemma Scaled(price: real, t2: real, q1: real, t1: real, q2: real)
    requires price > 0.0 && NoDearer(t2, q2, t1, q1)
    ensures NoDearer(price * t2, q2, price * t1, q1)
  {
    assert price * t2 * q1 == price * (t2 * q1) && price * t1 * q2 == price * (t1 * q2);
  }

  lemma SmallStep(limit: real, factor: real, room: real) returns (step: real)
    requires limit > 0.0 && factor > 0.0 && room > 0.0
    ensures 0.0 < step <= limit && step * factor < room
  {
    step := room / (2.0 * factor);
    assert step * factor == room / 2.0;
    if step > limit {
      assert limit * factor <= step * factor;
      step := limit;
    }
  }

  /** The largest quantity that stops at the end of the first level. */
  lemma Edge(size: real, tolerance: real) returns (edge: real)
    requires size > 0.0 && 0.0 < tolerance < 1.0
    ensures edge > size && edge - size == edge * tolerance
  {
    edge := size / (1.0 - tolerance);
    assert edge * (1.0 - tolerance) == size;
    assert edge > 0.0 && edge * tolerance > 0.0;
  }

  /** Selling `extra` more than `edge` at once brings in more for each. */
  lemma MoreEach(first: real, edge: real, extra: real, second: real, more: real, both: real)
    requires edge > 0.0 && extra > 0.0 && extra * first < second * edge
    requires more == edge + extra && both == first + second
    ensures first / edge < both / more
  {
    assert both * edge == first * edge + second * edge && first * more == first * edge + first * extra;
    RatioOrder(both, more, first, edge);
  }

  /** A little beyond that quantity the second level is tapped. */
  lemma BeyondEdge(
    bids: seq<Level>, tolerance: real, edge: real, extra: real, more: real, slack: real, moreSlack: real)
    returns (tapped: real, both: real)
    requires Sized(bids) && |bids| >= 2 && 0.0 < tolerance < 1.0
    requires edge > bids[0].1 && edge - bids[0].1 == slack && 0.0 < extra <= bids[1].1 && more == edge + extra
    requires slack == edge * tolerance && moreSlack == more * tolerance
    ensures tapped >= slack || tapped >= bids[1].1
    ensures Paid(bids, edge, slack) == Some(bids[0].0 * bids[0].1)
    ensures both == bids[0].0 * bids[0].1 + bids[1].0 * tapped && Paid(bids, more, moreSlack) == Some(both)
  {
    var part := Portion(extra, tolerance);
    var remaining := more - bids[0].1;
    assert moreSlack == slack + part;
    tapped := if remaining <= bids[1].1 then remaining else bids[1].1;
    both := bids[0].0 * bids[0].1 + bids[1].0 * tapped;
    assert bids[1..][0] == bids[1];
    assert remaining == slack + extra && remaining - tapped <= moreSlack < remaining;
    FirstTurn(bids[1..], remaining, moreSlack, tapped, bids[1].0 * tapped);
    FirstTurn(bids, more, moreSlack, bids[0].1, bids[0].0 * bids[0].1);
    FirstTurn(bids, edge, slack, bids[0].1, bids[0].0 * bids[0].1);
  }

  lemma RiseAtEdge(bids: seq<Level>, tolerance: real)
    requires Sized(bids) && Priced(bids) && |bids| >= 2 && 0.0 < tolerance < 1.0
    ensures !NeverRises(bids, tolerance)
  {
    var first, price, size := bids[0].0 * bids[0].1, bids[1].0, bids[1].1;
    var edge := Edge(bids[0].1, tolerance);
    var slack := edge * tolerance;
    Positive(bids[0].0, bids[0].1);
    Positive(edge, tolerance);
    var least := if slack <= size then slack else size;
    var extra := StepFor(first, price, least, edge, size);
    var more := edge + extra;
    var moreSlack := more * tolerance;
    var tapped, both := BeyondEdge(bids, tolerance, edge, extra, more, slack, moreSlack);
    MoreTapped(first, price, least, tapped, edge, extra, more, both);
    RiseFrom(bids, tolerance, edge, more, slack, moreSlack, first, both);
  }

  lemma RiseFrom(
    bids: seq<Level>, tolerance: real, edge: real, more: real, slack: real, moreSlack: real, first: real, both: real)
    requires 0.0 < edge < more && slack == edge * tolerance && moreSlack == more * tolerance
    requires Paid(bids, edge, slack) == Some(first) && Paid(bids, more, moreSlack) == Some(both)
    requires first / edge < both / more
    ensures !NeverRises(bids, tolerance)
  {
    AverageOf(bids, edge, tolerance, slack, first);
    AverageOf(bids, more, tolerance, moreSlack, both);
    assert !NoHigher(Average(bids, more, tolerance), Average(bids, edge, tolerance));
  }

  lemma AverageOf(levels: seq<Level>, quantity: real, tolerance: real, slack: real, paid: real)
    requires quantity > 0.0 && slack == quantity * tolerance && Paid(levels, quantity, slack) == Some(paid)
    ensures Average(levels, quantity, tolerance) == Some(paid / quantity)
  {
  }

  lemma StepFor(first: real, price: real, least: real, edge: real, limit: real) returns (extra: real)
    requires first > 0.0 && price > 0.0 && least > 0.0 && edge > 0.0 && limit > 0.0
    ensures 0.0 < extra <= limit && extra * first < price * least * edge
  {
    Positive(price, least);
    Positive(price * least, edge);
    extra := SmallStep(limit, first, price * least * edge);
  }

  lemma MoreTapped(
    first: real, price: real, least: real, tapped: real, edge: real, extra: real, more: real, both: real)
    requires price > 0.0 && edge > 0.0 && extra > 0.0 && least <= tapped && extra * first < price * least * edge
    requires more == edge + extra && both == first + price * tapped
    ensures first / edge < both / more
  {
    AtLeastTapped(price, least, tapped, edge);
    MoreEach(first, edge, extra, price * tapped, more, both);
  }

  lemma Positive(a: real, b: real)
    requires a > 0.0 && b > 0.0
    ensures a * b > 0.0
  {
  }

  lemma AtLeastTapped(price: real, least: real, tapped: real, edge: real)
    requires price > 0.0 && least <= tapped && edge > 0.0
    ensures price * least * edge <= price * tapped * edge
  {
    assert price * least <= price * tapped;
  }

  lemma ExactOrder(bids: seq<Level>, q1: real, q2: real)
    requires Sized(bids) && Priced(bids) && Falling(bids) && 0.0 < q1 <= q2
    ensures NoHigher(Average(bids, q2, 0.0), Average(bids, q1, 0.0))
  {
    if Average(bids, q1, 0.0).Some? && Average(bids, q2, 0.0).Some? {
      ExactIsClear(bids, q1);
      BidMonotone(bids, q1, q2, 0.0);
    }
  }

  /** The bid price never rises with the quantity, over the whole book, exactly when there is no
      tolerance or only one level. */
  lemma BidNeverRisesIff(bids: seq<Level>, tolerance: real)
    requires Sized(bids) && Priced(bids) && Falling(bids) && bids != [] && 0.0 <= tolerance < 1.0
    ensures NeverRises(bids, tolerance) <==> tolerance == 0.0 || |bids| == 1
  {
    if tolerance == 0.0 || |bids| == 1 {
      forall q1, q2 | 0.0 < q1 <= q2
        ensures NoHigher(Average(bids, q2, tolerance), Average(bids, q1, tolerance))
      {
        if |bids| == 1 {
          assert bids == [bids[0]];
          OneLevel(bids[0], q1, q2, tolerance);
        } else {
          ExactOrder(bids, q1, q2);
        }
      }
    } else {
      RiseAtEdge(bids, tolerance);
    }
  }

  ghost predicate NeverFalls(asks: seq<Level>, tolerance: real) {
    forall q1, q2 :: 0.0 < q1 <= q2 ==> NoHigher(Average(asks, q1, tolerance), Average(asks, q2, tolerance))
  }

  lemma ExactAskOrder(asks: seq<Level>, q1: real, q2: real)
    requires Sized(asks) && Priced(asks) && Rising(asks) && 0.0 < q1 <= q2
    ensures NoHigher(Average(asks, q1, 0.0), Average(asks, q2, 0.0))
  {
    if Average(asks, q1, 0.0).Some? && Average(asks, q2, 0.0).Some? {
      ExactIsClear(asks, q2);
      AskMonotone(asks, q1, q2, 0.0);
    }
  }

  /** The ask price never falls with the quantity, over the whole book, exactly when there is no
      tolerance. */
  lemma AskNeverFallsIff(asks: seq<Level>, tolerance: real)
    requires Sized(asks) && Priced(asks) && Rising(asks) && asks != [] && 0.0 <= tolerance < 1.0
    ensures NeverFalls(asks, tolerance) <==> tolerance == 0.0
  {
    if tolerance == 0.0 {
      forall q1, q2 | 0.0 < q1 <= q2 ensures NoHigher(Average(asks, q1, tolerance), Average(asks, q2, tolerance)) {
        ExactAskOrder(asks, q1, q2);
      }
    } else {
      var edge := Edge(asks[0].1, tolerance);
      DepthOfPrefix(asks, 1);
      DepthNonNegative(asks[1..]);
      PriceExists(asks, edge, tolerance);
      assert !Clear(asks, edge, edge * tolerance);
      var less := DearerLess(asks, edge, tolerance);
      assert !NoHigher(Average(asks, less, tolerance), Average(asks, edge, tolerance));
    }
  }
}
