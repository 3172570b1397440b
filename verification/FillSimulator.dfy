/** Price rounding and the limit path of the fill simulation in
    trading_app/fill_simulator.py, with prices as reals. */
module FillSimulator {
  import opened Common
  import TickRules

  datatype Side = Buy | Sell

  datatype Direction = Passive | Aggressive

  datatype Style = Market | Limit | LimitConservative

  /** The tick of a price's band; the source gives none for a price of zero or less. */
  function BandTick(price: real): (tick: int)
    requires price > 0.0
    ensures tick >= 1
  {
    if price < 2_000.0 then 1
    else if price < 5_000.0 then 5
    else if price < 20_000.0 then 10
    else if price < 50_000.0 then 50
    else if price < 200_000.0 then 100
    else if price < 500_000.0 then 500
    else 1_000
  }

  function StockTick(price: Option<real>): Option<int> {
    if price.Some? && price.value > 0.0 then Some(BandTick(price.value)) else None
  }

  function Ceil(x: real): int {
    -((-x).Floor)
  }

  predicate RoundsUp(side: Side, direction: Direction) {
    (direction == Aggressive) == (side == Buy)
  }

  function RoundToTick(price: real, side: Side, direction: Direction): Option<real> {
    if price <= 0.0 then None
    else
      var tick := BandTick(price);
      var count := if RoundsUp(side, direction) then Ceil(price / tick as real) else (price / tick as real).Floor;
      Some((if count * tick > tick then count * tick else tick) as real)
  }

  // ---------------------------------------------------------------- the grid

  /** The prices a stock can have: multiples of the tick of their own band. */
  predicate GridPrice(g: int) {
    g > 0 && g % BandTick(g as real) == 0
  }

  function RoundUp(price: real): int
    requires price > 0.0
  {
    var tick := BandTick(price);
    var up := Ceil(price / tick as real) * tick;
    if up > tick then up else tick
  }

  function RoundDown(price: real): int
    requires price > 0.0
  {
    var tick := BandTick(price);
    var down := (price / tick as real).Floor * tick;
    if down > tick then down else tick
  }

  lemma MultiplyKeepsOrder(x: real, y: real, t: real)
    requires t > 0.0
    ensures x <= y <==> x * t <= y * t
  {
    assert (y - x) * t == y * t - x * t;
    if x <= y {
      assert (y - x) * t >= 0.0;
    } else {
      assert (x - y) * t > 0.0;
    }
  }

  lemma MultiplyCasts(n: int, tick: int)
    ensures (n * tick) as real == n as real * tick as real
  {
  }

  /** Comparing a quotient with a whole number is comparing the price with that
      many ticks. */
  lemma QuotientCompares(price: real, tick: int, n: int)
    requires tick >= 1
    ensures n as real <= price / tick as real <==> (n * tick) as real <= price
    ensures price / tick as real <= n as real <==> price <= (n * tick) as real
  {
    var t := tick as real;
    var ratio := price / t;
    assert ratio * t == price;
    MultiplyKeepsOrder(n as real, ratio, t);
    MultiplyKeepsOrder(ratio, n as real, t);
    MultiplyCasts(n, tick);
  }

  /** A price lies between consecutive multiples of its tick. */
  lemma FloorCut(price: real, tick: int)
    requires tick >= 1
    ensures var q := (price / tick as real).Floor; (q * tick) as real <= price < ((q + 1) * tick) as real
    ensures var u := Ceil(price / tick as real); ((u - 1) * tick) as real < price <= (u * tick) as real
  {
    var ratio := price / tick as real;
    var q, u := ratio.Floor, Ceil(ratio);
    QuotientCompares(price, tick, q);
    QuotientCompares(price, tick, q + 1);
    QuotientCompares(price, tick, u);
    QuotientCompares(price, tick, u - 1);
  }

  /** The ticks of the ladder. */
  predicate IsTick(tick: int) {
    tick == 1 || tick == 5 || tick == 10 || tick == 50 || tick == 100 || tick == 500 || tick == 1_000
  }

  lemma MultipleOf(q: int, tick: int)
    requires IsTick(tick)
    ensures (q * tick) % tick == 0
  {
    if tick == 1 {
      assert (q * 1) % 1 == 0;
    } else if tick == 5 {
      assert (q * 5) % 5 == 0;
    } else if tick == 10 {
      assert (q * 10) % 10 == 0;
    } else if tick == 50 {
      assert (q * 50) % 50 == 0;
    } else if tick == 100 {
      assert (q * 100) % 100 == 0;
    } else if tick == 500 {
      assert (q * 500) % 500 == 0;
    } else {
      assert (q * 1_000) % 1_000 == 0;
    }
  }

  lemma IsMultiple(a: int, tick: int)
    requires IsTick(tick) && a % tick == 0
    ensures a == (a / tick) * tick
  {
    if tick == 1 {
      assert a % 1 == 0 && a == (a / 1) * 1;
    } else if tick == 5 {
      assert a % 5 == 0 && a == (a / 5) * 5;
    } else if tick == 10 {
      assert a % 10 == 0 && a == (a / 10) * 10;
    } else if tick == 50 {
      assert a % 50 == 0 && a == (a / 50) * 50;
    } else if tick == 100 {
      assert a % 100 == 0 && a == (a / 100) * 100;
    } else if tick == 500 {
      assert a % 500 == 0 && a == (a / 500) * 500;
    } else {
      assert a % 1_000 == 0 && a == (a / 1_000) * 1_000;
    }
  }

  /** Multiples of a tick are a tick apart. */
  lemma MultiplesApart(a: int, b: int, tick: int)
    requires IsTick(tick) && a % tick == 0 && b % tick == 0
    ensures a < b + tick ==> a <= b
  {
    IsMultiple(a, tick);
    IsMultiple(b, tick);
    QuotientsApart(a / tick, b / tick, tick);
  }

  lemma QuotientsApart(m: int, n: int, tick: int)
    requires tick >= 1
    ensures m * tick < n * tick + tick ==> m * tick <= n * tick
  {
    if m <= n {
      assert (n - m) * tick >= 0;
    } else {
      assert (m - n - 1) * tick >= 0;
    }
  }

  lemma NextMultiple(b: int, tick: int)
    requires IsTick(tick) && b % tick == 0
    ensures (b + tick) % tick == 0
  {
    IsMultiple(b, tick);
    assert (b / tick + 1) * tick == b + tick;
    MultipleOf(b / tick + 1, tick);
  }

  /** The prices from low up to high form (part of) one band. */
  ghost predicate Band(low: int, high: int, tick: int) {
    1 <= low && IsTick(tick) && low % tick == 0
    && forall g: int {:trigger BandTick(g as real)} :: low <= g < high ==> BandTick(g as real) == tick
  }

  lemma DownInBand(price: real, low: int, high: int, tick: int)
    requires Band(low, high, tick) && low as real <= price < high as real && BandTick(price) == tick
    ensures low <= RoundDown(price) < high && RoundDown(price) % tick == 0
    ensures RoundDown(price) as real <= price < (RoundDown(price) + tick) as real
  {
    FloorCut(price, tick);
    var q := (price / tick as real).Floor;
    MultipleOf(q, tick);
    assert (q + 1) * tick == q * tick + tick;
    MultiplesApart(low, q * tick, tick);
    MultiplesApart(tick, low, tick);
    assert q * tick >= low >= tick;
  }

  lemma UpInBand(price: real, low: int, high: int, tick: int)
    requires Band(low, high, tick) && high % tick == 0 && low as real <= price < high as real && BandTick(price) == tick
    ensures low <= RoundUp(price) <= high && RoundUp(price) % tick == 0
    ensures (RoundUp(price) - tick) as real < price <= RoundUp(price) as real
  {
    FloorCut(price, tick);
    var u := Ceil(price / tick as real);
    MultipleOf(u, tick);
    assert (u - 1) * tick == u * tick - tick;
    MultiplesApart(u * tick, high, tick);
    MultiplesApart(tick, u * tick, tick);
  }

  /** The band of a price: its tick, its lowest price and where the next starts. */
  function BandLow(price: real): int {
    if price < 2_000.0 then 1
    else if price < 5_000.0 then 2_000
    else if price < 20_000.0 then 5_000
    else if price < 50_000.0 then 20_000
    else if price < 200_000.0 then 50_000
    else if price < 500_000.0 then 200_000
    else 500_000
  }

  function BandHigh(price: real): int {
    if price < 2_000.0 then 2_000
    else if price < 5_000.0 then 5_000
    else if price < 20_000.0 then 20_000
    else if price < 50_000.0 then 50_000
    else if price < 200_000.0 then 200_000
    else if price < 500_000.0 then 500_000
    else (price.Floor / 1_000 + 1) * 1_000
  }

  lemma BandBelow2000()
    ensures Band(1, 2_000, 1) && 2_000 % 1 == 0
  {
  }

  lemma BandBelow5000()
    ensures Band(2_000, 5_000, 5) && 5_000 % 5 == 0
  {
  }

  lemma BandBelow20000()
    ensures Band(5_000, 20_000, 10) && 20_000 % 10 == 0
  {
  }

  lemma BandBelow50000()
    ensures Band(20_000, 50_000, 50) && 50_000 % 50 == 0
  {
  }

  lemma BandBelow200000()
    ensures Band(50_000, 200_000, 100) && 200_000 % 100 == 0
  {
  }

  lemma BandBelow500000()
    ensures Band(200_000, 500_000, 500) && 500_000 % 500 == 0
  {
  }

  lemma BandFrom500000(high: int)
    requires high % 1_000 == 0
    ensures Band(500_000, high, 1_000)
  {
  }

  lemma NextThousand(price: real)
    requires price >= 500_000.0
    ensures var high := (price.Floor / 1_000 + 1) * 1_000;
            500_000 < high && high % 1_000 == 0 && price < high as real
  {
    var n := price.Floor;
    assert n == n / 1_000 * 1_000 + n % 1_000;
  }

  lemma PriceIsInItsBand(price: real)
    requires price >= 1.0
    ensures BandLow(price) as real <= price < BandHigh(price) as real
  {
    if price >= 500_000.0 {
      NextThousand(price);
    }
  }

  lemma BandsAreBands(price: real)
    requires price >= 1.0
    ensures Band(BandLow(price), BandHigh(price), BandTick(price)) && BandHigh(price) % BandTick(price) == 0
  {
    if price < 2_000.0 {
      BandBelow2000();
    } else if price < 5_000.0 {
      BandBelow5000();
    } else if price < 20_000.0 {
      BandBelow20000();
    } else if price < 50_000.0 {
      BandBelow50000();
    } else if price < 200_000.0 {
      BandBelow200000();
    } else if price < 500_000.0 {
      BandBelow500000();
    } else {
      NextThousand(price);
      BandFrom500000(BandHigh(price));
    }
  }

  /** Both ends of a band are grid prices, the upper one of the next band. */
  lemma BandEndsAreOnGrid(price: real)
    requires price >= 1.0
    ensures GridPrice(BandLow(price)) && GridPrice(BandHigh(price))
  {
    if price >= 500_000.0 {
      NextThousand(price);
    }
  }

  /** Rounding down gives the greatest grid price at or below the price. */
  lemma RoundDownIsGreatest(price: real)
    requires price >= 1.0
    ensures GridPrice(RoundDown(price)) && RoundDown(price) as real <= price
    ensures forall h: int :: GridPrice(h) && h as real <= price ==> h <= RoundDown(price)
  {
    var low, high, tick := BandLow(price), BandHigh(price), BandTick(price);
    BandsAreBands(price);
    PriceIsInItsBand(price);
    DownInBand(price, low, high, tick);
    forall h: int | GridPrice(h) && h as real <= price ensures h <= RoundDown(price) {
      if low <= h {
        assert BandTick(h as real) == tick;
        MultiplesApart(h, RoundDown(price), tick);
      }
    }
  }

  /** Rounding up gives the least grid price at or above the price, also where
      that is the first price of the next band. */
  lemma RoundUpIsLeast(price: real)
    requires price >= 1.0
    ensures GridPrice(RoundUp(price)) && price <= RoundUp(price) as real
    ensures forall h: int :: GridPrice(h) && price <= h as real ==> RoundUp(price) <= h
  {
    var low, high, tick := BandLow(price), BandHigh(price), BandTick(price);
    BandsAreBands(price);
    PriceIsInItsBand(price);
    BandEndsAreOnGrid(price);
    UpInBand(price, low, high, tick);
    if RoundUp(price) < high {
      assert BandTick(RoundUp(price) as real) == tick;
    }
    forall h: int | GridPrice(h) && price <= h as real ensures RoundUp(price) <= h {
      if h < high {
        assert BandTick(h as real) == tick;
        MultiplesApart(RoundUp(price), h, tick);
      }
    }
  }

  /** What round_price_to_tick returns: by side and direction the nearest grid
      price below or above, and nothing for a price of zero or less. */
  lemma RoundToTickMeans(price: real, side: Side, direction: Direction)
    ensures RoundToTick(price, side, direction) ==
              if price <= 0.0 then None
              else Some((if RoundsUp(side, direction) then RoundUp(price) else RoundDown(price)) as real)
    ensures price >= 1.0 ==>
              var g := if RoundsUp(side, direction) then RoundUp(price) else RoundDown(price);
              GridPrice(g)
              && forall h: int :: GridPrice(h) ==>
                   if RoundsUp(side, direction) then (price <= h as real <==> g <= h) else (h as real <= price <==> h <= g)
  {
    if price >= 1.0 {
      RoundUpIsLeast(price);
      RoundDownIsGreatest(price);
    }
  }

  lemma RoundingIsIdempotent(price: real, side: Side, direction: Direction)
    requires price >= 1.0
    ensures RoundToTick(price, side, direction).Some?
    ensures RoundToTick(RoundToTick(price, side, direction).value, side, direction) == RoundToTick(price, side, direction)
  {
    RoundToTickMeans(price, side, direction);
    var g := if RoundsUp(side, direction) then RoundUp(price) else RoundDown(price);
    RoundToTickMeans(g as real, side, direction);
    RoundUpIsLeast(g as real);
    RoundDownIsGreatest(g as real);
  }

  /** Rounding keeps the order of prices across all bands. */
  lemma RoundingIsMonotone(low: real, high: real, side: Side, direction: Direction)
    requires 1.0 <= low <= high
    ensures RoundToTick(low, side, direction).Some? && RoundToTick(high, side, direction).Some?
    ensures RoundToTick(low, side, direction).value <= RoundToTick(high, side, direction).value
  {
    RoundUpIsLeast(low);
    RoundUpIsLeast(high);
    RoundDownIsGreatest(low);
    RoundDownIsGreatest(high);
  }

  /** The two directions meet on the grid and are one tick apart off it. */
  lemma DirectionsDifferByATick(price: real)
    requires price >= 1.0
    ensures RoundUp(price) == RoundDown(price) || RoundUp(price) == RoundDown(price) + BandTick(price)
    ensures RoundUp(price) == RoundDown(price) <==> exists g: int :: GridPrice(g) && g as real == price
  {
    var low, high, tick := BandLow(price), BandHigh(price), BandTick(price);
    BandsAreBands(price);
    PriceIsInItsBand(price);
    DownInBand(price, low, high, tick);
    UpInBand(price, low, high, tick);
    RoundDownIsGreatest(price);
    RoundUpIsLeast(price);
    var d, u := RoundDown(price), RoundUp(price);
    if u != d {
      NextMultiple(d, tick);
      MultiplesApart(u, d + tick, tick);
      MultiplesApart(d + tick, u, tick);
    }
  }

  /** The integer ladder of trading/rules.py is the same ladder. */
  lemma LaddersAgree(g: int)
    requires g > 0
    ensures BandTick(g as real) == TickRules.TickSize(g)
    ensures GridPrice(g) <==> TickRules.OnGrid(g)
  {
  }

  // ---------------------------------------------------------- observed ticks

  datatype Tick = Tick(
    time: Option<int>,
    price: Option<real>,
    bestBid: Option<real>,
    bestAsk: Option<real>,
    tradeValue: Option<real>,
    executionStrength: Option<real>,
    spreadTicks: Option<int>)

  /** A tick without a time sorts first, like the source's least time. */
  predicate NoLater(a: Tick, b: Tick) {
    a.time.None? || (b.time.Some? && a.time.value <= b.time.value)
  }

  function InsertTick(t: Tick, sorted: seq<Tick>): seq<Tick> {
    if sorted == [] || NoLater(t, sorted[0]) then [t] + sorted else [sorted[0]] + InsertTick(t, sorted[1..])
  }

  function SortTicks(ticks: seq<Tick>): seq<Tick> {
    if ticks == [] then [] else InsertTick(ticks[0], SortTicks(ticks[1..]))
  }

  ghost predicate Sorted(ticks: seq<Tick>) {
    forall i, j :: 0 <= i < j < |ticks| ==> NoLater(ticks[i], ticks[j])
  }

  lemma {:induction false} InsertTickKeeps(t: Tick, sorted: seq<Tick>)
    ensures multiset(InsertTick(t, sorted)) == multiset(sorted) + multiset{t}
  {
    if sorted != [] && !NoLater(t, sorted[0]) {
      InsertTickKeeps(t, sorted[1..]);
      assert sorted == [sorted[0]] + sorted[1..];
    }
  }

  lemma {:induction false} InsertTickSorts(t: Tick, sorted: seq<Tick>)
    requires Sorted(sorted)
    ensures Sorted(InsertTick(t, sorted))
  {
    if sorted != [] && !NoLater(t, sorted[0]) {
      InsertTickSorts(t, sorted[1..]);
      InsertTickKeeps(t, sorted[1..]);
      var tail := InsertTick(t, sorted[1..]);
      forall x | x in tail ensures NoLater(sorted[0], x) {
        assert x in multiset(tail);
      }
    }
  }

  lemma {:induction false} SortTicksSorts(ticks: seq<Tick>)
    ensures Sorted(SortTicks(ticks)) && multiset(SortTicks(ticks)) == multiset(ticks)
  {
    if ticks != [] {
      SortTicksSorts(ticks[1..]);
      InsertTickSorts(ticks[0], SortTicks(ticks[1..]));
      InsertTickKeeps(ticks[0], SortTicks(ticks[1..]));
      assert ticks == [ticks[0]] + ticks[1..];
    }
  }

  /** The ticks of one time, in the order they came. */
  function WithTime(ticks: seq<Tick>, time: Option<int>): seq<Tick> {
    if ticks == [] then []
    else if ticks[0].time == time then [ticks[0]] + WithTime(ticks[1..], time)
    else WithTime(ticks[1..], time)
  }

  lemma {:induction false} InsertTickIsStable(t: Tick, sorted: seq<Tick>, time: Option<int>)
    ensures WithTime(InsertTick(t, sorted), time) == if t.time == time then [t] + WithTime(sorted, time) else WithTime(sorted, time)
  {
    if sorted == [] || NoLater(t, sorted[0]) {
      assert ([t] + sorted)[1..] == sorted;
    } else {
      InsertTickIsStable(t, sorted[1..], time);
      assert InsertTick(t, sorted)[1..] == InsertTick(t, sorted[1..]);
      assert t.time != sorted[0].time;
    }
  }

  /** Ticks of one time keep their order under sorting. */
  lemma {:induction false} SortTicksIsStable(ticks: seq<Tick>, time: Option<int>)
    ensures WithTime(SortTicks(ticks), time) == WithTime(ticks, time)
  {
    if ticks != [] {
      SortTicksIsStable(ticks[1..], time);
      InsertTickIsStable(ticks[0], SortTicks(ticks[1..]), time);
    }
  }

  lemma {:induction false} FirstWithTime(ticks: seq<Tick>, i: nat)
    requires i < |ticks| && forall j :: 0 <= j < i ==> ticks[j].time != ticks[i].time
    ensures var same := WithTime(ticks, ticks[i].time); same != [] && same[0] == ticks[i]
  {
    if i > 0 {
      assert ticks[0].time != ticks[i].time;
      FirstWithTime(ticks[1..], i - 1);
    }
  }

  lemma {:induction false} LastWithTime(ticks: seq<Tick>, i: nat)
    requires i < |ticks| && forall j :: i < j < |ticks| ==> ticks[j].time != ticks[i].time
    ensures var same := WithTime(ticks, ticks[i].time); same != [] && same[|same| - 1] == ticks[i]
  {
    if i > 0 {
      LastWithTime(ticks[1..], i - 1);
    } else {
      NoneWithTime(ticks[1..], ticks[0].time);
    }
  }

  lemma {:induction false} NoneWithTime(ticks: seq<Tick>, time: Option<int>)
    requires forall j :: 0 <= j < |ticks| ==> ticks[j].time != time
    ensures WithTime(ticks, time) == []
  {
    if ticks != [] {
      NoneWithTime(ticks[1..], time);
    }
  }

  predicate AtOrAfter(t: Tick, target: int) {
    t.time.Some? && target <= t.time.value
  }

  predicate AtOrBefore(t: Tick, target: int) {
    t.time.Some? && t.time.value <= target
  }

  /** The tick is the first to come of those with the least time at or after. */
  ghost predicate IsFirst(ticks: seq<Tick>, target: int, t: Tick) {
    t in ticks && AtOrAfter(t, target)
    && (forall x :: x in ticks && AtOrAfter(x, target) ==> t.time.value <= x.time.value)
    && WithTime(ticks, t.time) != [] && t == WithTime(ticks, t.time)[0]
  }

  /** The tick is the last to come of those with the greatest time at or before. */
  ghost predicate IsLatest(ticks: seq<Tick>, target: int, t: Tick) {
    t in ticks && AtOrBefore(t, target)
    && (forall x :: x in ticks && AtOrBefore(x, target) ==> x.time.value <= t.time.value)
    && WithTime(ticks, t.time) != [] && t == WithTime(ticks, t.time)[|WithTime(ticks, t.time)| - 1]
  }

  method FirstTickAtOrAfter(ticks: seq<Tick>, target: int) returns (tick: Option<Tick>)
    requires Sorted(ticks)
    ensures tick.None? <==> forall t :: t in ticks ==> !AtOrAfter(t, target)
    ensures tick.Some? ==> IsFirst(ticks, target, tick.value)
  {
    for i := 0 to |ticks|
      invariant forall k :: 0 <= k < i ==> !AtOrAfter(ticks[k], target)
    {
      if ticks[i].time.Some? && ticks[i].time.value >= target {
        assert ticks[i] in ticks && AtOrAfter(ticks[i], target);
        FirstWithTime(ticks, i);
        return Some(ticks[i]);
      }
    }
    return None;
  }

  method LatestTickAtOrBefore(ticks: seq<Tick>, target: int) returns (tick: Option<Tick>)
    requires Sorted(ticks)
    ensures tick.None? <==> forall t :: t in ticks ==> !AtOrBefore(t, target)
    ensures tick.Some? ==> IsLatest(ticks, target, tick.value)
  {
    tick := None;
    ghost var last := 0;
    for i := 0 to |ticks|
      invariant tick.None? <==> forall k :: 0 <= k < i ==> !AtOrBefore(ticks[k], target)
      invariant tick.Some? ==> 0 <= last < i && tick.value == ticks[last] && AtOrBefore(ticks[last], target)
      invariant tick.Some? ==> forall k :: last < k < i ==> !AtOrBefore(ticks[k], target)
    {
      if ticks[i].time.Some? && ticks[i].time.value <= target {
        tick := Some(ticks[i]);
        last := i;
      }
    }
    if tick.Some? {
      LastWithTime(ticks, last);
      forall x | x in ticks && AtOrBefore(x, target) ensures x.time.value <= ticks[last].time.value {
        var k :| 0 <= k < |ticks| && ticks[k] == x;
        assert k <= last;
      }
    }
  }

  /** The tick a fill is judged on: the nearest at or after the target time,
      else the nearest before it, else none. */
  ghost predicate Observes(ticks: seq<Tick>, target: Option<int>, observed: Option<Tick>) {
    if target.None? then observed.None?
    else if exists t :: t in ticks && AtOrAfter(t, target.value) then
      observed.Some? && IsFirst(ticks, target.value, observed.value)
    else if exists t :: t in ticks && AtOrBefore(t, target.value) then
      observed.Some? && IsLatest(ticks, target.value, observed.value)
    else observed.None?
  }

  // ------------------------------------------------------------------- fills

  /** An order; targetTime is its creation time plus the simulated latency. */
  datatype Order = Order(
    side: Side,
    style: Style,
    price: Option<real>,
    targetTime: Option<int>,
    amount: Option<real>,
    quantity: Option<real>)

  datatype Config = Config(staleTickAgeSec: real, missingLiquidityRatio: real)

  datatype Fill =
    | Skipped(reason: string)
    | Filled(
        price: real,
        requested: Option<real>,
        slippageBps: Option<real>,
        hit: Option<bool>,
        ratio: real,
        partial: bool,
        fallbacks: seq<string>)

  function FirstOf(a: Option<real>, b: Option<real>): Option<real> {
    if a.Some? then a else b
  }

  function OwnPrice(order: Order): Option<real> {
    if order.price.Some? && order.price.value > 0.0 then order.price else None
  }

  /** The quote an order of this side trades against. */
  function Quote(side: Side, t: Tick): Option<real> {
    if side == Buy then t.bestAsk else t.bestBid
  }

  /** What the order asks for: its own price rounded in its favour, or else the
      quote, or else the last price. */
  function Requested(order: Order, t: Tick): Option<real> {
    var own := OwnPrice(order);
    if own.Some? then RoundToTick(own.value, order.side, Passive)
    else FirstOf(Quote(order.side, t), t.price)
  }

  function LimitHit(side: Side, requested: Option<real>, t: Tick): Option<bool> {
    if requested.None? || requested.value <= 0.0 then None
    else
      var reference := FirstOf(Quote(side, t), t.price);
      if reference.None? then None
      else Some(if side == Sell then reference.value >= requested.value else reference.value <= requested.value)
  }

  function SlippageBps(side: Side, requested: Option<real>, fill: real): Option<real> {
    if requested.None? || requested.value <= 0.0 || fill == 0.0 then None
    else
      var r := requested.value;
      Some((if side == Sell then r - fill else fill - r) / r * 10_000.0)
  }

  const LAST_PRICE_FALLBACK := "BEST_QUOTE_MISSING_USED_CONSERVATIVE_LAST_PLUS_TICK"

  function FillPriceOf(side: Side, style: Style, requested: Option<real>, t: Tick): (Option<real>, string) {
    var quote := Quote(side, t);
    if quote.None? && t.price.None? then (None, "QUOTE_AND_PRICE_MISSING")
    else
      var tick := if StockTick(t.price).Some? then StockTick(t.price).value
                  else if StockTick(requested).Some? then StockTick(requested).value else 1;
      var fallback := if quote.None? then LAST_PRICE_FALLBACK else "";
      var reference := if quote.Some? then quote.value
                       else if side == Buy then t.price.value + tick as real else t.price.value - tick as real;
      var rounded := RoundToTick(reference, side, Aggressive);
      if rounded.None? then (None, fallback)
      else if style != Market && requested.Some? && requested.value != 0.0 then
        (Some(if side == Buy then (if requested.value < rounded.value then requested.value else rounded.value)
              else (if requested.value > rounded.value then requested.value else rounded.value)), fallback)
      else (rounded, fallback)
  }

  method FillPrice(side: Side, style: Style, requested: Option<real>, t: Tick) returns (price: Option<real>, fallback: string)
    ensures (price, fallback) == FillPriceOf(side, style, requested, t)
  {
    var reference := if side == Buy then t.bestAsk else t.bestBid;
    fallback := "";
    if reference.None? {
      var tick := 1;
      if StockTick(t.price).Some? {
        tick := StockTick(t.price).value;
      } else if StockTick(requested).Some? {
        tick := StockTick(requested).value;
      }
      if t.price.None? {
        return None, "QUOTE_AND_PRICE_MISSING";
      }
      reference := Some(if side == Buy then t.price.value + tick as real else t.price.value - tick as real);
      fallback := LAST_PRICE_FALLBACK;
    }
    var rounded := RoundToTick(reference.value, side, Aggressive);
    if rounded.None? {
      return None, fallback;
    }
    if style != Market && requested.Some? && requested.value != 0.0 {
      if side == Buy {
        rounded := Some(if requested.value < rounded.value then requested.value else rounded.value);
      } else {
        rounded := Some(if requested.value > rounded.value then requested.value else rounded.value);
      }
    }
    return rounded, fallback;
  }

  // --------------------------------------------------------------- fill ratio

  /** The amount the order names, or else its quantity at the requested price. */
  function OrderAmount(order: Order, requested: Option<real>): Option<real> {
    if order.amount.Some? && order.amount.value > 0.0 then order.amount
    else if order.quantity.Some? && order.quantity.value > 0.0 && requested.Some? && requested.value > 0.0
    then Some(order.quantity.value * requested.value)
    else None
  }

  /** The share that the traded value leaves for an order of this amount. */
  function RatioOfPressure(pressure: real): real {
    if pressure <= 0.005 then 1.0
    else if pressure <= 0.01 then 0.95
    else if pressure <= 0.03 then 0.75
    else if pressure <= 0.10 then 0.35
    else 0.10
  }

  predicate HasLiquidity(t: Tick) {
    t.tradeValue.Some? && t.tradeValue.value > 0.0
  }

  function StrengthBonus(strength: Option<real>): real {
    if strength.None? then 0.0 else if strength.value >= 150.0 then 0.05 else if strength.value < 80.0 then -0.15 else 0.0
  }

  function SpreadMalus(spread: Option<int>): real {
    if spread.None? then 0.0 else if spread.value >= 6 then 0.25 else if spread.value >= 4 then 0.15 else 0.0
  }

  function Clamp(ratio: real): real {
    var capped := if ratio < 1.0 then ratio else 1.0;
    if capped > 0.05 then capped else 0.05
  }

  function FillRatioOf(amount: Option<real>, t: Tick, style: Style, config: Config): (real, string) {
    if amount.None? || amount.value <= 0.0 then (0.0, "ORDER_AMOUNT_MISSING")
    else
      var base := if HasLiquidity(t) then RatioOfPressure(amount.value / t.tradeValue.value) else config.missingLiquidityRatio;
      var reason := if !HasLiquidity(t) then "TRADE_VALUE_MISSING_CONSERVATIVE_FILL"
                    else if t.executionStrength.None? then "EXECUTION_STRENGTH_MISSING"
                    else if t.spreadTicks.None? then "SPREAD_TICKS_MISSING"
                    else "";
      (Clamp(base + StrengthBonus(t.executionStrength) - SpreadMalus(t.spreadTicks) + if style == Market then 0.05 else 0.0), reason)
  }

  method FillRatio(amount: Option<real>, t: Tick, style: Style, config: Config) returns (ratio: real, reason: string)
    ensures (ratio, reason) == FillRatioOf(amount, t, style, config)
  {
    reason := "";
    if amount.None? || amount.value <= 0.0 {
      return 0.0, "ORDER_AMOUNT_MISSING";
    }
    if t.tradeValue.None? || t.tradeValue.value <= 0.0 {
      ratio := config.missingLiquidityRatio;
      reason := "TRADE_VALUE_MISSING_CONSERVATIVE_FILL";
    } else {
      ratio := RatioOfPressure(amount.value / t.tradeValue.value);
    }
    if reason == "" && t.executionStrength.None? {
      reason := "EXECUTION_STRENGTH_MISSING";
    }
    if reason == "" && t.spreadTicks.None? {
      reason := "SPREAD_TICKS_MISSING";
    }
    ratio := Adjust(ratio, t, style);
  }

  method Adjust(base: real, t: Tick, style: Style) returns (ratio: real)
    ensures ratio == Clamp(base + StrengthBonus(t.executionStrength) - SpreadMalus(t.spreadTicks) + if style == Market then 0.05 else 0.0)
  {
    ratio := base;
    if t.executionStrength.Some? && t.executionStrength.value >= 150.0 {
      ratio := ratio + 0.05;
    } else if t.executionStrength.Some? && t.executionStrength.value < 80.0 {
      ratio := ratio - 0.15;
    }
    if t.spreadTicks.Some? && t.spreadTicks.value >= 6 {
      ratio := ratio - 0.25;
    } else if t.spreadTicks.Some? && t.spreadTicks.value >= 4 {
      ratio := ratio - 0.15;
    }
    if style == Market {
      ratio := ratio + 0.05;
    }
    ratio := Clamp(ratio);
  }

  lemma LargerOverLiquidity(x: real, y: real, v: real)
    requires x <= y && v > 0.0
    ensures x / v <= y / v
  {
    MultiplyKeepsOrder(x / v, y / v, v);
  }

  /** On one tick a larger order never fills to a larger share, and the share is
      zero exactly for an order without an amount. */
  lemma LargerOrdersFillNoBetter(x: real, y: real, t: Tick, style: Style, config: Config)
    requires 0.0 < x <= y
    ensures 0.05 <= FillRatioOf(Some(y), t, style, config).0 <= FillRatioOf(Some(x), t, style, config).0 <= 1.0
  {
    if HasLiquidity(t) {
      LargerOverLiquidity(x, y, t.tradeValue.value);
    }
  }

  /** A fill at a price. */
  function Settled(order: Order, t: Tick, requested: Option<real>, price: real, hit: Option<bool>, fallback: string, config: Config): Fill {
    var (ratio, liquidity) := FillRatioOf(OrderAmount(order, requested), t, order.style, config);
    Filled(price, requested, SlippageBps(order.side, requested, price), hit,
           ratio, 0.0 < ratio < 0.9999, Fallbacks(order.style, fallback, liquidity))
  }

  /** What the simulation of an order on its observed tick comes to. */
  function Outcome(order: Order, observed: Option<Tick>, config: Config): Fill {
    if observed.None? then Skipped("TICK_MISSING")
    else
      var t := observed.value;
      var age := if order.targetTime.Some? && t.time.Some? && t.time.value <= order.targetTime.value
                 then order.targetTime.value - t.time.value else 0;
      var requested := Requested(order, t);
      var limited := order.style != Market;
      if age as real > config.staleTickAgeSec && order.targetTime.Some? && t.time.Some? then Skipped("STALE_TICK")
      else if limited && (requested.None? || requested.value == 0.0) then Skipped("PRICE_MISSING_FOR_LIMIT")
      else
        var hit := LimitHit(order.side, requested, t);
        if limited && hit == Some(false) then Skipped("LIMIT_PRICE_NOT_MARKETABLE")
        else
          var (price, fallback) := FillPriceOf(order.side, order.style, requested, t);
          if price.None? || price.value <= 0.0 then Skipped("FILL_PRICE_UNAVAILABLE")
          else Settled(order, t, requested, price.value, hit, fallback, config)
  }

  function Fallbacks(style: Style, price: string, liquidity: string): seq<string> {
    (if style == LimitConservative then ["HOGA_UNSUPPORTED_LIMIT_CONSERVATIVE"] else [])
    + (if price != "" then [price] else []) + (if liquidity != "" then [liquidity] else [])
  }

  lemma SortingKeepsObservation(ticks: seq<Tick>, target: int, t: Tick)
    ensures forall x :: x in SortTicks(ticks) <==> x in ticks
    ensures IsFirst(SortTicks(ticks), target, t) ==> IsFirst(ticks, target, t)
    ensures IsLatest(SortTicks(ticks), target, t) ==> IsLatest(ticks, target, t)
  {
    SortTicksSorts(ticks);
    forall x ensures x in SortTicks(ticks) <==> x in ticks {
      assert x in multiset(SortTicks(ticks)) <==> x in multiset(ticks);
    }
    SortTicksIsStable(ticks, t.time);
  }

  method Observe(ticks: seq<Tick>, target: Option<int>) returns (observed: Option<Tick>)
    ensures Observes(ticks, target, observed)
  {
    observed := None;
    if target.None? {
      return;
    }
    var sorted := SortTicks(ticks);
    SortTicksSorts(ticks);
    observed := FirstTickAtOrAfter(sorted, target.value);
    if observed.None? {
      observed := LatestTickAtOrBefore(sorted, target.value);
    }
    forall t ensures t in sorted <==> t in ticks {
      SortingKeepsObservation(ticks, target.value, t);
    }
    if observed.Some? {
      SortingKeepsObservation(ticks, target.value, observed.value);
    }
  }

  method SimulateFill(order: Order, ticks: seq<Tick>, config: Config) returns (fill: Fill, observed: Option<Tick>)
    ensures Observes(ticks, order.targetTime, observed)
    ensures fill == Outcome(order, observed, config)
  {
    observed := Observe(ticks, order.targetTime);
    fill := FillAt(order, observed, config);
  }

  method FillAt(order: Order, observed: Option<Tick>, config: Config) returns (fill: Fill)
    ensures fill == Outcome(order, observed, config)
  {
    if observed.None? {
      return Skipped("TICK_MISSING");
    }
    var t := observed.value;
    var requested := Requested(order, t);
    if order.targetTime.Some? && t.time.Some? {
      var age := if t.time.value <= order.targetTime.value then order.targetTime.value - t.time.value else 0;
      if age as real > config.staleTickAgeSec {
        return Skipped("STALE_TICK");
      }
    }
    if order.style != Market && (requested.None? || requested.value == 0.0) {
      return Skipped("PRICE_MISSING_FOR_LIMIT");
    }
    var hit := LimitHit(order.side, requested, t);
    if order.style != Market && hit == Some(false) {
      return Skipped("LIMIT_PRICE_NOT_MARKETABLE");
    }
    var price, fallback := FillPrice(order.side, order.style, requested, t);
    if price.None? || price.value <= 0.0 {
      return Skipped("FILL_PRICE_UNAVAILABLE");
    }
    fill := Settle(order, t, requested, price.value, hit, fallback, config);
  }

  method Settle(order: Order, t: Tick, requested: Option<real>, price: real, hit: Option<bool>, fallback: string, config: Config)
    returns (fill: Fill)
    ensures fill == Settled(order, t, requested, price, hit, fallback, config)
  {
    var reasons := if order.style == LimitConservative then ["HOGA_UNSUPPORTED_LIMIT_CONSERVATIVE"] else [];
    if fallback != "" {
      reasons := reasons + [fallback];
    }
    var ratio, liquidity := FillRatio(OrderAmount(order, requested), t, order.style, config);
    if liquidity != "" {
      reasons := reasons + [liquidity];
    }
    return Filled(price, requested, SlippageBps(order.side, requested, price), hit, ratio, 0.0 < ratio < 0.9999, reasons);
  }

  // ------------------------------------------------------ the limit sandwich

  /** The quote the order would touch, or the last price in its place. */
  function Touch(order: Order, t: Tick): Option<real> {
    FirstOf(Quote(order.side, t), t.price)
  }

  lemma RoundUpIsAbove(price: real)
    requires price > 0.0
    ensures price <= RoundUp(price) as real && RoundUp(price) >= 1
  {
    FloorCut(price, BandTick(price));
  }

  lemma RoundDownIsBelow(price: real)
    requires price > 0.0
    ensures RoundDown(price) >= 1 && (price >= 1.0 ==> RoundDown(price) as real <= price)
    ensures price < 1.0 ==> RoundDown(price) == 1
  {
    if price >= 1.0 {
      RoundDownIsGreatest(price);
    }
  }

  /** A filled limit order with a price of its own pays no more than its rounded
      limit and no less than the touched quote, or the other way round for a
      sale; so its slippage is never positive. */
  lemma LimitFillIsSandwiched(order: Order, t: Tick, config: Config)
    requires order.style != Market && OwnPrice(order).Some?
    ensures var fill := Outcome(order, Some(t), config);
            fill.Filled? ==>
              && Touch(order, t).Some?
              && fill.requested == RoundToTick(order.price.value, order.side, Passive)
              && fill.requested.Some? && fill.requested.value >= 1.0
              && fill.hit == Some(true)
              && (order.side == Buy ==> Touch(order, t).value <= fill.price <= fill.requested.value)
              && (order.side == Sell ==> fill.requested.value <= fill.price <= Touch(order, t).value)
              && fill.slippageBps.Some? && fill.slippageBps.value <= 0.0
  {
    var fill := Outcome(order, Some(t), config);
    if fill.Filled? {
      var own := order.price.value;
      RoundUpIsAbove(own);
      RoundDownIsBelow(own);
      LimitTouch(order, t, config);
      FillBetween(order, t);
      var r := fill.requested.value;
      NegativeShare(if order.side == Sell then r - fill.price else fill.price - r, r);
    }
  }

  lemma NegativeShare(gain: real, r: real)
    requires gain <= 0.0 && r > 0.0
    ensures gain / r * 10_000.0 <= 0.0
  {
  }

  /** Passing the marketability test, the order has a touch on the right side. */
  lemma LimitTouch(order: Order, t: Tick, config: Config)
    requires order.style != Market && OwnPrice(order).Some?
    ensures Outcome(order, Some(t), config).Filled? ==>
              && Requested(order, t).Some? && Requested(order, t).value >= 1.0
              && Touch(order, t).Some? && LimitHit(order.side, Requested(order, t), t) == Some(true)
              && if order.side == Buy then Touch(order, t).value <= Requested(order, t).value
                 else Requested(order, t).value <= Touch(order, t).value
  {
    RoundUpIsAbove(order.price.value);
    RoundDownIsBelow(order.price.value);
  }

  lemma FillBetween(order: Order, t: Tick)
    requires order.style != Market && Requested(order, t).Some? && Requested(order, t).value >= 1.0
    requires Touch(order, t).Some?
    requires if order.side == Buy then Touch(order, t).value <= Requested(order, t).value
             else Requested(order, t).value <= Touch(order, t).value
    ensures var price := FillPriceOf(order.side, order.style, Requested(order, t), t).0;
            price.Some? ==>
              if order.side == Buy then Touch(order, t).value <= price.value <= Requested(order, t).value
              else Requested(order, t).value <= price.value <= Touch(order, t).value
  {
    var quote := Quote(order.side, t);
    var requested := Requested(order, t);
    var tick := if StockTick(t.price).Some? then StockTick(t.price).value
                else if StockTick(requested).Some? then StockTick(requested).value else 1;
    var reference := if quote.Some? then quote.value
                     else if order.side == Buy then t.price.value + tick as real else t.price.value - tick as real;
    if reference > 0.0 {
      RoundUpIsAbove(reference);
      RoundDownIsBelow(reference);
      RoundToTickMeans(reference, order.side, Aggressive);
    }
  }

  /** With a quote of at least one the cap never binds: the fill is the grid
      price nearest to the quote on the order's side. */
  lemma LimitFillIsTheNearestGridPrice(order: Order, t: Tick, config: Config)
    requires order.style != Market && OwnPrice(order).Some? && order.price.value >= 1.0
    requires Quote(order.side, t).Some? && Quote(order.side, t).value >= 1.0
    ensures var fill := Outcome(order, Some(t), config);
            var nearest := if order.side == Buy then RoundUp(Quote(order.side, t).value) else RoundDown(Quote(order.side, t).value);
            fill.Filled? ==> GridPrice(nearest) && fill.price == nearest as real
  {
    var own, quote := order.price.value, Quote(order.side, t).value;
    LimitTouch(order, t, config);
    RoundToTickMeans(own, order.side, Passive);
    RoundToTickMeans(quote, order.side, Aggressive);
    RoundUpIsLeast(quote);
    RoundDownIsGreatest(quote);
    RoundUpIsLeast(own);
    RoundDownIsGreatest(own);
  }
}
