/** The KRX price ladder and the order sizing of trading/rules.py. */
module TickRules {

  function Abs(x: int): nat {
    if x < 0 then -x else x
  }

  function TickSize(price: int): (tick: nat)
    ensures tick >= 1
  {
    var p := Abs(price);
    if p < 2_000 then 1
    else if p < 5_000 then 5
    else if p < 20_000 then 10
    else if p < 50_000 then 50
    else if p < 200_000 then 100
    else if p < 500_000 then 500
    else 1_000
  }

  predicate OnGrid(price: nat) {
    price % TickSize(price) == 0
  }

  const GUARD := 1_000_000

  datatype Distance = Ticks(count: nat) | TooLarge

  /** Steps of the cursor from low until it reaches high. */
  function Walk(low: nat, high: nat): nat
    decreases high - low
  {
    if low >= high then 0 else 1 + Walk(low + TickSize(low), high)
  }

  /** Where that cursor stops: the first point of the walk at or above high. */
  function Landing(low: nat, high: nat): (end: nat)
    ensures end >= high && end >= low
    decreases high - low
  {
    if low >= high then low else Landing(low + TickSize(low), high)
  }

  function TicksApart(a: int, b: int): nat {
    if Abs(a) <= Abs(b) then Walk(Abs(a), Abs(b)) else Walk(Abs(b), Abs(a))
  }

  /** ticks_between: the loop with its guard. */
  method TicksBetween(a: int, b: int) returns (d: Distance)
    ensures d == if TicksApart(a, b) <= GUARD then Ticks(TicksApart(a, b)) else TooLarge
  {
    var low := if Abs(a) < Abs(b) then Abs(a) else Abs(b);
    var high := if Abs(a) < Abs(b) then Abs(b) else Abs(a);
    if low == high {
      return Ticks(0);
    }
    var ticks := 0;
    var cursor := low;
    while cursor < high
      invariant ticks + Walk(cursor, high) == TicksApart(a, b)
      invariant ticks <= GUARD
      decreases high - cursor
    {
      cursor := cursor + TickSize(cursor);
      ticks := ticks + 1;
      if ticks > GUARD {
        return TooLarge;
      }
    }
    return Ticks(ticks);
  }

  // ------------------------------------------------------------- the distance

  lemma TicksAreSymmetric(a: int, b: int)
    ensures TicksApart(a, b) == TicksApart(b, a) == TicksApart(-a, b) == TicksApart(a, -b)
  {
  }

  /** Up from a grid price the next grid price is one tick away. */
  lemma NextGridPrice(a: nat)
    requires OnGrid(a)
    ensures OnGrid(a + TickSize(a))
    ensures forall p :: a < p < a + TickSize(a) ==> !OnGrid(p)
  {
  }

  ghost function GridPrices(low: nat, high: nat): set<nat> {
    set p: nat | low <= p < high && OnGrid(p)
  }

  /** From a grid price the distance is the number of grid prices passed, and
      the cursor stops at the least grid price at or above the end. */
  lemma {:induction false} WalkCountsGridPrices(a: nat, b: nat)
    requires OnGrid(a) && a <= b
    ensures Walk(a, b) == |GridPrices(a, b)|
    ensures OnGrid(Landing(a, b)) && forall p :: b <= p < Landing(a, b) ==> !OnGrid(p)
    decreases b - a
  {
    if a == b {
      assert GridPrices(a, b) == {};
    } else {
      NextGridPrice(a);
      var next := a + TickSize(a);
      if next <= b {
        WalkCountsGridPrices(next, b);
        assert GridPrices(a, b) == {a} + GridPrices(next, b);
      } else {
        assert GridPrices(a, b) == {a};
      }
    }
  }

  /** A longer walk goes through the landing of a shorter one. */
  lemma {:induction false} WalkSplits(a: nat, b: nat, c: nat)
    requires a <= b <= c
    ensures Walk(a, c) == Walk(a, b) + Walk(Landing(a, b), c)
    decreases b - a
  {
    if a < b {
      var next := a + TickSize(a);
      if next <= b {
        WalkSplits(next, b, c);
      }
    }
  }

  /** Cursors keep their order, however the bands fall. */
  lemma StepKeepsOrder(x: nat, y: nat)
    requires x <= y
    ensures x + TickSize(x) <= y + TickSize(y)
  {
  }

  /** A cursor that starts higher arrives no later. */
  lemma {:induction false} HigherArrivesSooner(x: nat, y: nat, c: nat)
    requires x <= y
    ensures Walk(y, c) <= Walk(x, c)
    decreases c - x
  {
    if y < c {
      StepKeepsOrder(x, y);
      HigherArrivesSooner(x + TickSize(x), y + TickSize(y), c);
    }
  }

  lemma {:induction false} LandingIsNear(a: nat, b: nat)
    requires a <= b
    ensures b <= Landing(a, b) < b + TickSize(b)
    decreases b - a
  {
    if a < b {
      var next := a + TickSize(a);
      if next <= b {
        LandingIsNear(next, b);
      }
    }
  }

  /** The distances of two legs add up to the whole or to one more. */
  lemma TicksAreNearlyAdditive(a: nat, b: nat, c: nat)
    requires a < b < c
    ensures Walk(a, b) + Walk(b, c) - 1 <= Walk(a, c) <= Walk(a, b) + Walk(b, c)
  {
    WalkSplits(a, b, c);
    LandingIsNear(a, b);
    HigherArrivesSooner(b, Landing(a, b), c);
    HigherArrivesSooner(Landing(a, b), b + TickSize(b), c);
  }

  /** From a grid price the legs add up exactly, whatever the end, exactly when
      the middle price is on the grid too. */
  lemma TicksAlwaysAddUpExactlyWhen(a: nat, b: nat)
    requires OnGrid(a) && a < b
    ensures (forall c :: b < c ==> Walk(a, c) == Walk(a, b) + Walk(b, c)) <==> OnGrid(b)
  {
    WalkCountsGridPrices(a, b);
    var end := Landing(a, b);
    if OnGrid(b) {
      forall c | b < c ensures Walk(a, c) == Walk(a, b) + Walk(b, c) {
        WalkSplits(a, b, c);
      }
    } else {
      WalkSplits(a, b, end);
      assert Walk(a, end) == Walk(a, b) && Walk(b, end) >= 1;
    }
  }

  /** From any price they add up for every end exactly when the walk lands on
      the middle price, which an off-grid start can do off the grid. */
  lemma TicksAddUpWhereTheWalkLands(a: nat, b: nat)
    requires a < b
    ensures (forall c :: b < c ==> Walk(a, c) == Walk(a, b) + Walk(b, c)) <==> Landing(a, b) == b
  {
    var end := Landing(a, b);
    if end == b {
      forall c | b < c ensures Walk(a, c) == Walk(a, b) + Walk(b, c) {
        WalkSplits(a, b, c);
      }
    } else {
      WalkSplits(a, b, end);
      assert Walk(a, end) == Walk(a, b) && Walk(b, end) >= 1;
    }
  }

  lemma OffGridLegsCanAddUp()
    ensures !OnGrid(2_001) && !OnGrid(2_006) && Landing(2_001, 2_006) == 2_006
  {
  }

  // ------------------------------------------------------------------- ranks

  /** Grid prices below p, in closed form. */
  function Rank(p: nat): nat {
    if p <= 2_000 then p
    else if p <= 5_000 then 2_000 + (p - 2_000 + 4) / 5
    else if p <= 20_000 then 2_600 + (p - 5_000 + 9) / 10
    else if p <= 50_000 then 4_100 + (p - 20_000 + 49) / 50
    else if p <= 200_000 then 4_700 + (p - 50_000 + 99) / 100
    else if p <= 500_000 then 6_200 + (p - 200_000 + 499) / 500
    else 6_800 + (p - 500_000 + 999) / 1_000
  }

  lemma RankStepBelow5000(a: nat, b: nat)
    requires 2_000 <= a < 5_000 && a % 5 == 0 && a < b <= a + 5
    ensures Rank(b) == Rank(a) + 1
  {
    assert b <= 5_000;
  }

  lemma RankStepBelow20000(a: nat, b: nat)
    requires 5_000 <= a < 20_000 && a % 10 == 0 && a < b <= a + 10
    ensures Rank(b) == Rank(a) + 1
  {
    assert b <= 20_000;
  }

  lemma RankStepBelow50000(a: nat, b: nat)
    requires 20_000 <= a < 50_000 && a % 50 == 0 && a < b <= a + 50
    ensures Rank(b) == Rank(a) + 1
  {
    assert b <= 50_000;
  }

  lemma RankStepBelow200000(a: nat, b: nat)
    requires 50_000 <= a < 200_000 && a % 100 == 0 && a < b <= a + 100
    ensures Rank(b) == Rank(a) + 1
  {
    assert b <= 200_000;
  }

  lemma RankStepBelow500000(a: nat, b: nat)
    requires 200_000 <= a < 500_000 && a % 500 == 0 && a < b <= a + 500
    ensures Rank(b) == Rank(a) + 1
  {
    assert b <= 500_000;
  }

  lemma RankStepAbove(a: nat, b: nat)
    requires 500_000 <= a && a % 1_000 == 0 && a < b <= a + 1_000
    ensures Rank(b) == Rank(a) + 1
  {
  }

  /** Every price up to the next grid price has one more grid price below it. */
  lemma RankStep(a: nat, b: nat)
    requires OnGrid(a) && a < b <= a + TickSize(a)
    ensures Rank(b) == Rank(a) + 1
  {
    if a < 2_000 {
    } else if a < 5_000 {
      RankStepBelow5000(a, b);
    } else if a < 20_000 {
      RankStepBelow20000(a, b);
    } else if a < 50_000 {
      RankStepBelow50000(a, b);
    } else if a < 200_000 {
      RankStepBelow200000(a, b);
    } else if a < 500_000 {
      RankStepBelow500000(a, b);
    } else {
      RankStepAbove(a, b);
    }
  }

  lemma {:induction false} WalkFromGridIsRank(a: nat, b: nat)
    requires OnGrid(a) && a <= b
    ensures Walk(a, b) == Rank(b) - Rank(a)
    decreases b - a
  {
    if a < b {
      NextGridPrice(a);
      var next := a + TickSize(a);
      if next <= b {
        RankStep(a, next);
        WalkFromGridIsRank(next, b);
      } else {
        RankStep(a, b);
      }
    }
  }

  // ------------------------------------------------------- off-grid distances

  /** How far a price lies above its grid price. */
  function Offset(price: nat): nat {
    price % TickSize(price)
  }

  /** The greatest grid price at or below. */
  function GridFloor(price: nat): (floor: nat)
    ensures floor <= price
  {
    price - Offset(price)
  }

  lemma FloorIsOnGrid(price: nat)
    ensures OnGrid(GridFloor(price)) && TickSize(GridFloor(price)) == TickSize(price)
    ensures Offset(price) < TickSize(GridFloor(price))
  {
  }

  lemma RemainderAbove5(g: nat, c: nat)
    requires g % 5 == 0 && g <= c < g + 5
    ensures c % 5 == c - g
  {
  }

  lemma RemainderAbove10(g: nat, c: nat)
    requires g % 10 == 0 && g <= c < g + 10
    ensures c % 10 == c - g
  {
  }

  lemma RemainderAbove50(g: nat, c: nat)
    requires g % 50 == 0 && g <= c < g + 50
    ensures c % 50 == c - g
  {
  }

  lemma RemainderAbove100(g: nat, c: nat)
    requires g % 100 == 0 && g <= c < g + 100
    ensures c % 100 == c - g
  {
  }

  lemma RemainderAbove500(g: nat, c: nat)
    requires g % 500 == 0 && g <= c < g + 500
    ensures c % 500 == c - g
  {
  }

  lemma RemainderAbove1000(g: nat, c: nat)
    requires g % 1_000 == 0 && g <= c < g + 1_000
    ensures c % 1_000 == c - g
  {
  }

  lemma RemainderAbove(g: nat, c: nat, tick: nat)
    requires tick in {1, 5, 10, 50, 100, 500, 1_000}
    requires g % tick == 0 && g <= c < g + tick
    ensures c % tick == c - g
  {
    if tick == 5 {
      RemainderAbove5(g, c);
    } else if tick == 10 {
      RemainderAbove10(g, c);
    } else if tick == 50 {
      RemainderAbove50(g, c);
    } else if tick == 100 {
      RemainderAbove100(g, c);
    } else if tick == 500 {
      RemainderAbove500(g, c);
    } else if tick == 1_000 {
      RemainderAbove1000(g, c);
    }
  }

  lemma SameBand(g: nat, c: nat)
    requires OnGrid(g) && g <= c < g + TickSize(g)
    ensures TickSize(c) == TickSize(g)
  {
    NextGridPrice(g);
  }

  /** Below the next grid price the floor is the grid price itself. */
  lemma WithinATick(g: nat, c: nat)
    requires OnGrid(g) && g <= c < g + TickSize(g)
    ensures TickSize(c) == TickSize(g) && GridFloor(c) == g && Offset(c) == c - g
  {
    SameBand(g, c);
    RemainderAbove(g, c, TickSize(g));
  }

  /** An off-grid cursor keeps its offset across every band edge, so from
      whatever price, the walk counts the grid prices from floor to floor, and
      one more exactly when the end lies further above its floor. */
  lemma {:induction false} WalkFromOffset(g: nat, r: nat, c: nat)
    requires OnGrid(g) && r < TickSize(g) && g <= c
    ensures Walk(g + r, c) == Rank(GridFloor(c)) - Rank(g) + if r < Offset(c) then 1 else 0
    decreases c - g
  {
    var next := g + TickSize(g);
    WithinATick(g, g + r);
    if c < next {
      WithinATick(g, c);
    } else {
      NextGridPrice(g);
      RankStep(g, next);
      StepKeepsOrder(g, next);
      WalkFromOffset(next, r, c);
    }
  }

  lemma WalkIsRankOfFloors(a: nat, b: nat)
    requires a <= b
    ensures Walk(a, b) == Rank(GridFloor(b)) - Rank(GridFloor(a)) + if Offset(a) < Offset(b) then 1 else 0
  {
    FloorIsOnGrid(a);
    WalkFromOffset(GridFloor(a), Offset(a), b);
  }

  /** For any three prices: the legs add up to the whole exactly when the end's
      offset lies above the start's and not above the middle's, or, where the
      middle's is not above the start's, does not lie between them. */
  lemma TicksAddUpExactlyWhen(a: nat, b: nat, c: nat)
    requires a < b < c
    ensures Walk(a, c) == Walk(a, b) + Walk(b, c) <==>
            if Offset(a) < Offset(b) then Offset(a) < Offset(c) <= Offset(b)
            else !(Offset(b) < Offset(c) <= Offset(a))
  {
    WalkIsRankOfFloors(a, b);
    WalkIsRankOfFloors(b, c);
    WalkIsRankOfFloors(a, c);
  }

  /** From a grid price: when the middle is on the grid, or the end is off it
      and no further above its grid price than the middle. */
  lemma TicksFromTheGridAddUpExactlyWhen(a: nat, b: nat, c: nat)
    requires OnGrid(a) && a < b < c
    ensures Walk(a, c) == Walk(a, b) + Walk(b, c) <==> OnGrid(b) || 1 <= Offset(c) <= Offset(b)
  {
    TicksAddUpExactlyWhen(a, b, c);
  }

  /** So from a grid start the middle need not be on the grid: the sum to 2,006
      is exact, the one to 2,005 is one too many. */
  lemma GridStartWithOffGridMiddle()
    ensures OnGrid(2_000) && !OnGrid(2_001)
    ensures TicksApart(2_000, 2_006) == 2 == TicksApart(2_000, 2_001) + TicksApart(2_001, 2_006)
    ensures TicksApart(2_000, 2_005) == 1 < 2 == TicksApart(2_000, 2_001) + TicksApart(2_001, 2_005)
  {
    assert Walk(2_001, 2_006) == 1 && Walk(2_001, 2_005) == 1;
  }

  // ---------------------------------------------------------------- the guard

  /** The guard never fires for prices up to 993,700,000, and measured from
      zero that is exactly how far it goes. */
  lemma GuardNeverFiresBelow(a: int, b: int)
    ensures Abs(a) <= 993_700_000 && Abs(b) <= 993_700_000 ==> TicksApart(a, b) <= GUARD
    ensures TicksApart(0, b) <= GUARD <==> Abs(b) <= 993_700_000
  {
    var low := if Abs(a) <= Abs(b) then Abs(a) else Abs(b);
    var high := if Abs(a) <= Abs(b) then Abs(b) else Abs(a);
    WalkFromGridIsRank(0, high);
    WalkFromGridIsRank(0, Abs(b));
    HigherArrivesSooner(0, low, high);
  }

  // ------------------------------------------------------------------ queries

  method IsWithinTicks(current: int, target: int, threshold: int) returns (within: bool, tooLarge: bool)
    ensures tooLarge <==> current > 0 && target > 0 && TicksApart(current, target) > GUARD
    ensures within ==> !tooLarge
    ensures within <==> WithinTicks(current, target, threshold)
  {
    if current <= 0 || target <= 0 {
      return false, false;
    }
    var d := TicksBetween(current, target);
    if d.TooLarge? {
      return false, true;
    }
    return d.count <= if threshold > 0 then threshold else 0, false;
  }

  predicate WithinTicks(current: int, target: int, threshold: int) {
    current > 0 && target > 0 && TicksApart(current, target) <= GUARD
    && TicksApart(current, target) <= if threshold > 0 then threshold else 0
  }

  function OrderQuantity(budget: int, weightPercent: real, targetPrice: int): (quantity: int)
    ensures quantity >= 0
    ensures quantity > 0 ==> quantity as real * targetPrice as real <= budget as real * (weightPercent / 100.0)
    ensures budget > 0 && targetPrice > 0 && weightPercent > 0.0 ==>
              budget as real * (weightPercent / 100.0) < (quantity + 1) as real * targetPrice as real
  {
    if budget <= 0 || targetPrice <= 0 || weightPercent <= 0.0 then 0
    else
      var share := budget as real * (weightPercent / 100.0) / targetPrice as real;
      FloorOfShare(budget as real * (weightPercent / 100.0), targetPrice as real);
      share.Floor
  }

  lemma FloorOfShare(amount: real, price: real)
    requires price > 0.0 && amount >= 0.0
    ensures (amount / price).Floor >= 0
    ensures (amount / price).Floor as real * price <= amount < ((amount / price).Floor + 1) as real * price
  {
    var share := amount / price;
    assert share * price == amount;
    assert share >= 0.0;
    var q := share.Floor;
    assert q as real <= share < (q + 1) as real;
    assert 0.0 <= (share - q as real) * price == share * price - q as real * price;
    var rest := (q + 1) as real - share;
    assert rest > 0.0;
    assert rest * price > 0.0;
    assert rest * price == (q + 1) as real * price - share * price;
  }

  function Sum(weights: seq<real>): real {
    if weights == [] then 0.0 else weights[0] + Sum(weights[1..])
  }

  /** No weight is negative and together they are above 0 and at most 100 percent. */
  predicate ValidWeights(weights: seq<real>) {
    (forall i :: 0 <= i < |weights| ==> weights[i] >= 0.0) && 0.0 < Sum(weights) <= 100.0
  }

  /** The greatest whole number within the percentage of the holding, but at
      least one and at most all of it. */
  function TakeProfitQuantity(holding: int, sellPercent: real): (quantity: int)
    ensures holding > 0 && sellPercent > 0.0 ==> 1 <= quantity <= holding
    ensures quantity > 1 ==> quantity as real <= holding as real * (sellPercent / 100.0)
    ensures 0 < quantity < holding ==> holding as real * (sellPercent / 100.0) < (quantity + 1) as real
    ensures holding <= 0 || sellPercent <= 0.0 ==> quantity == 0
  {
    if holding <= 0 || sellPercent <= 0.0 then 0
    else
      var share := (holding as real * (sellPercent / 100.0)).Floor;
      var capped := if share < holding then share else holding;
      if capped > 1 then capped else 1
  }

  predicate ReachedTakeProfit(current: int, average: real, rate: real) {
    current > 0 && average > 0.0 && (current as real - average) / average * 100.0 >= rate
  }

  predicate ReachedStopLoss(current: int, stopLoss: int) {
    current > 0 && stopLoss > 0 && current <= stopLoss
  }
}
