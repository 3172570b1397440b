/** What a simulated order pays, and when it is filled at all, by the fields of the
    order and of its observed tick. */
module FillOutcomes {
  import opened Common
  import opened FillSimulator

  /** The observed tick has the least time at or after the target or, where no tick
      is as late, the greatest before it; without a target or any time there is none. */
  lemma ObservedIsNearest(ticks: seq<Tick>, target: Option<int>, observed: Option<Tick>)
    requires Observes(ticks, target, observed)
    ensures observed.Some? ==> observed.value in ticks && observed.value.time.Some?
    ensures observed.None? <==> target.None? || forall t :: t in ticks ==> t.time.None?
    ensures observed.Some? && target.value <= observed.value.time.value ==>
              forall t :: t in ticks && t.time.Some? && target.value <= t.time.value ==> observed.value.time.value <= t.time.value
    ensures observed.Some? && observed.value.time.value < target.value ==>
              forall t :: t in ticks && t.time.Some? ==> t.time.value <= observed.value.time.value
  {
    if target.Some? {
      assert forall t :: t in ticks && t.time.Some? ==> AtOrAfter(t, target.value) || AtOrBefore(t, target.value);
    }
  }

  ghost predicate IsLeastGridPrice(g: int, price: real) {
    GridPrice(g) && price <= g as real && forall h: int :: GridPrice(h) && price <= h as real ==> g <= h
  }

  ghost predicate IsGreatestGridPrice(g: int, price: real) {
    GridPrice(g) && g as real <= price && forall h: int :: GridPrice(h) && h as real <= price ==> h <= g
  }

  /** The tick is older than allowed at the order's target time. */
  predicate TooOld(order: Order, t: Tick, config: Config) {
    order.targetTime.Some? && t.time.Some?
    && (if t.time.value <= order.targetTime.value then order.targetTime.value - t.time.value else 0) as real > config.staleTickAgeSec
  }

  /** The tick by which the last price is worsened when the quote is missing: that
      of the last price, or, if that is none, of the order's own price. */
  function Worsening(order: Order, last: real): int {
    if last > 0.0 then BandTick(last)
    else if order.price.Some? && order.price.value > 0.0 then
      BandTick((if order.side == Buy then RoundDown(order.price.value) else RoundUp(order.price.value)) as real)
    else 1
  }

  lemma RoundedOwnPrice(price: real, side: Side)
    requires price > 0.0
    ensures RoundToTick(price, side, Passive)
            == Some((if side == Buy then RoundDown(price) else RoundUp(price)) as real)
  {
    RoundToTickMeans(price, side, Passive);
  }

  lemma RoundedReference(price: real, side: Side)
    requires price > 0.0
    ensures RoundToTick(price, side, Aggressive)
            == Some((if side == Buy then RoundUp(price) else RoundDown(price)) as real)
    ensures price >= 1.0 && side == Buy ==> IsLeastGridPrice(RoundUp(price), price)
    ensures price >= 1.0 && side == Sell ==> IsGreatestGridPrice(RoundDown(price), price)
  {
    RoundToTickMeans(price, side, Aggressive);
    if price >= 1.0 {
      RoundUpIsLeast(price);
      RoundDownIsGreatest(price);
    }
  }

  /** What a market order trades against: the quote of the other side of the book,
      or the last price worsened by a tick. */
  function MarketReference(order: Order, t: Tick): Option<real> {
    match order.side
    case Buy =>
      if t.bestAsk.Some? then t.bestAsk
      else if t.price.Some? then Some(t.price.value + Worsening(order, t.price.value) as real)
      else None
    case Sell =>
      if t.bestBid.Some? then t.bestBid
      else if t.price.Some? then Some(t.price.value - Worsening(order, t.price.value) as real)
      else None
  }

  lemma ReferenceTick(order: Order, t: Tick)
    requires t.price.Some? && Quote(order.side, t).None?
    ensures var requested := Requested(order, t);
            (if StockTick(t.price).Some? then StockTick(t.price).value
             else if StockTick(requested).Some? then StockTick(requested).value else 1) == Worsening(order, t.price.value)
  {
    if order.price.Some? && order.price.value > 0.0 {
      RoundedOwnPrice(order.price.value, order.side);
    }
  }

  lemma MarketPrice(order: Order, t: Tick)
    requires order.style == Market
    ensures FillPriceOf(order.side, Market, Requested(order, t), t).0 ==
            if MarketReference(order, t).None? then None
            else RoundToTick(MarketReference(order, t).value, order.side, Aggressive)
  {
    if t.price.Some? && Quote(order.side, t).None? {
      ReferenceTick(order, t);
    }
  }

  /** A market order is filled exactly when its tick is not too old and the price it
      trades against is there and positive. */
  lemma MarketOrderIsFilledExactlyWhen(order: Order, t: Tick, config: Config)
    requires order.style == Market
    ensures Outcome(order, Some(t), config).Filled? <==>
            !TooOld(order, t, config) && MarketReference(order, t).Some? && MarketReference(order, t).value > 0.0
  {
    MarketPrice(order, t);
    var reference := MarketReference(order, t);
    if reference.Some? && reference.value > 0.0 {
      RoundedReference(reference.value, order.side);
    }
  }

  /** It then pays the least grid price at or above that price, or, on a sale,
      receives the greatest at or below it. */
  lemma MarketOrderPays(order: Order, t: Tick, config: Config)
    requires order.style == Market
    ensures var fill := Outcome(order, Some(t), config);
            fill.Filled? && MarketReference(order, t).value >= 1.0 ==>
              exists g: int :: fill.price == g as real
                && if order.side == Buy then IsLeastGridPrice(g, MarketReference(order, t).value)
                   else IsGreatestGridPrice(g, MarketReference(order, t).value)
  {
    MarketOrderIsFilledExactlyWhen(order, t, config);
    MarketPrice(order, t);
    var reference := MarketReference(order, t);
    if reference.Some? && reference.value > 0.0 {
      RoundedReference(reference.value, order.side);
    }
  }

  /** In the ordinary case, with a quote: a market buy pays the ask, a market sale
      the bid, each moved to the grid against the order. */
  lemma MarketOrderTakesTheQuote(order: Order, t: Tick, config: Config)
    requires order.style == Market && !TooOld(order, t, config)
    ensures order.side == Buy && t.bestAsk.Some? && t.bestAsk.value >= 1.0 ==>
              var fill := Outcome(order, Some(t), config);
              fill.Filled? && exists g: int :: fill.price == g as real && IsLeastGridPrice(g, t.bestAsk.value)
    ensures order.side == Sell && t.bestBid.Some? && t.bestBid.value >= 1.0 ==>
              var fill := Outcome(order, Some(t), config);
              fill.Filled? && exists g: int :: fill.price == g as real && IsGreatestGridPrice(g, t.bestBid.value)
  {
    MarketOrderIsFilledExactlyWhen(order, t, config);
    MarketOrderPays(order, t, config);
  }

  lemma SignOfQuotient(x: real, y: real)
    requires y > 0.0
    ensures x / y * 10_000.0 * y == 10_000.0 * x
    ensures x > 0.0 <==> x / y * 10_000.0 > 0.0
    ensures x < 0.0 <==> x / y * 10_000.0 < 0.0
  {
    assert x / y * y == x;
  }

  /** Slippage is what is paid more, or received less, than asked for, in ten
      thousandths of that: positive exactly when the order did worse, negative
      exactly when it did better. */
  lemma SlippageMeans(side: Side, asked: real, price: real)
    requires asked > 0.0 && price > 0.0
    ensures var bps := SlippageBps(side, Some(asked), price);
            && bps.Some?
            && bps.value * asked == 10_000.0 * (if side == Buy then price - asked else asked - price)
            && (bps.value > 0.0 <==> if side == Buy then price > asked else price < asked)
            && (bps.value < 0.0 <==> if side == Buy then price < asked else price > asked)
  {
    SignOfQuotient(if side == Sell then asked - price else price - asked, asked);
  }

  /** The amount is the one the order names, or else its quantity at the price it
      asks; without either there is none. */
  lemma AmountMeans(order: Order, asked: Option<real>)
    ensures order.amount.Some? && order.amount.value > 0.0 ==> OrderAmount(order, asked) == order.amount
    ensures order.amount.None? || order.amount.value <= 0.0 ==>
              OrderAmount(order, asked) ==
              if order.quantity.Some? && order.quantity.value > 0.0 && asked.Some? && asked.value > 0.0
              then Some(order.quantity.value * asked.value) else None
  {
  }

  /** A fill is measured against what the order asks, at the price it pays; its share
      is that of its amount on its tick, and it is partial when that share is neither
      nothing nor all but a ten thousandth. */
  lemma FillIsMeasured(order: Order, t: Tick, config: Config)
    requires Outcome(order, Some(t), config).Filled?
    ensures var fill, asked := Outcome(order, Some(t), config), Requested(order, t);
            && fill.price > 0.0 && fill.requested == asked
            && fill.slippageBps == SlippageBps(order.side, asked, fill.price)
            && fill.ratio == FillRatioOf(OrderAmount(order, asked), t, order.style, config).0
            && (fill.partial <==> 0.0 < fill.ratio < 0.9999)
  {
  }

  /** A market order without a price of its own is measured against its quote, and
      so never slips in its favour. */
  lemma MarketOrderNeverSlipsInItsFavour(order: Order, t: Tick, config: Config)
    requires order.style == Market && OwnPrice(order).None?
    requires Quote(order.side, t).Some? && Quote(order.side, t).value >= 1.0
    requires !TooOld(order, t, config)
    ensures var fill := Outcome(order, Some(t), config);
            fill.Filled? && fill.slippageBps.Some? && fill.slippageBps.value >= 0.0
  {
    MarketOrderIsFilledExactlyWhen(order, t, config);
    MarketOrderPays(order, t, config);
    FillIsMeasured(order, t, config);
    SlippageMeans(order.side, Requested(order, t).value, Outcome(order, Some(t), config).price);
  }

  // -------------------------------------------------------------- limit orders

  /** The price a limit order asks: its own, moved to the grid in its favour. */
  function LimitPrice(order: Order): real
    requires OwnPrice(order).Some?
  {
    (if order.side == Buy then RoundDown(order.price.value) else RoundUp(order.price.value)) as real
  }

  lemma LimitFillIsPositiveExactlyWhen(order: Order, t: Tick)
    requires order.style != Market && OwnPrice(order).Some?
    ensures var price := FillPriceOf(order.side, order.style, Requested(order, t), t).0;
            price.Some? && price.value > 0.0 <==> MarketReference(order, t).Some? && MarketReference(order, t).value > 0.0
  {
    RoundedOwnPrice(order.price.value, order.side);
    RoundUpIsAbove(order.price.value);
    if t.price.Some? && Quote(order.side, t).None? {
      ReferenceTick(order, t);
    }
    var reference := MarketReference(order, t);
    if reference.Some? && reference.value > 0.0 {
      RoundedReference(reference.value, order.side);
      RoundUpIsAbove(reference.value);
    }
  }

  /** A limit order with a price of its own is filled exactly when its tick is not
      too old, the quote, or the last price in its place, has reached the price it
      asks, and the price it trades against is positive. */
  lemma LimitOrderIsFilledExactlyWhen(order: Order, t: Tick, config: Config)
    requires order.style != Market && OwnPrice(order).Some?
    ensures Outcome(order, Some(t), config).Filled? <==>
            && !TooOld(order, t, config)
            && MarketReference(order, t).Some? && MarketReference(order, t).value > 0.0
            && match order.side
               case Buy => (if t.bestAsk.Some? then t.bestAsk.value else t.price.value) <= LimitPrice(order)
               case Sell => (if t.bestBid.Some? then t.bestBid.value else t.price.value) >= LimitPrice(order)
  {
    RoundedOwnPrice(order.price.value, order.side);
    RoundUpIsAbove(order.price.value);
    LimitFillIsPositiveExactlyWhen(order, t);
  }

  /** A limit order without a price of its own takes the quote as its price and is
      filled at just that, on the grid or not. */
  lemma LimitWithoutPriceTakesTheQuote(order: Order, t: Tick, config: Config)
    requires order.style != Market && OwnPrice(order).None?
    requires Quote(order.side, t).Some? && Quote(order.side, t).value >= 1.0
    ensures var fill := Outcome(order, Some(t), config);
            if TooOld(order, t, config) then fill == Skipped("STALE_TICK")
            else fill.Filled? && fill.price == (if order.side == Buy then t.bestAsk.value else t.bestBid.value)
                 && fill.slippageBps == Some(0.0)
  {
    RoundedReference(Quote(order.side, t).value, order.side);
    RoundUpIsAbove(Quote(order.side, t).value);
    RoundDownIsBelow(Quote(order.side, t).value);
  }

  /** Without an observed tick, or on one that is too old, nothing is filled. */
  lemma NothingFillsOnAnOldTick(order: Order, observed: Option<Tick>, config: Config)
    requires observed.Some? ==> TooOld(order, observed.value, config)
    ensures Outcome(order, observed, config) == Skipped(if observed.None? then "TICK_MISSING" else "STALE_TICK")
  {
  }

  // ------------------------------------------------------------ how much fills

  lemma QuotientAtMost(x: real, y: real, bound: real)
    requires y > 0.0
    ensures x / y <= bound <==> x <= bound * y
  {
    assert x / y * y == x;
    assert x / y <= bound ==> (bound - x / y) * y >= 0.0;
    assert x / y > bound ==> (x / y - bound) * y > 0.0;
  }

  /** A limit order on a tick of ordinary strength and spread fills wholly when it is
      worth at most half a percent of the traded value, and to a share that falls in
      steps at one, three and ten percent. */
  lemma ShareFallsInSteps(amount: real, t: Tick, style: Style, config: Config)
    requires amount > 0.0 && style != Market && t.tradeValue.Some? && t.tradeValue.value > 0.0
    requires t.executionStrength.Some? && 80.0 <= t.executionStrength.value < 150.0
    requires t.spreadTicks.Some? && t.spreadTicks.value < 4
    ensures var share, value := FillRatioOf(Some(amount), t, style, config).0, t.tradeValue.value;
            share == if amount <= 0.005 * value then 1.0
                     else if amount <= 0.01 * value then 0.95
                     else if amount <= 0.03 * value then 0.75
                     else if amount <= 0.10 * value then 0.35
                     else 0.10
  {
    QuotientAtMost(amount, t.tradeValue.value, 0.005);
    QuotientAtMost(amount, t.tradeValue.value, 0.01);
    QuotientAtMost(amount, t.tradeValue.value, 0.03);
    QuotientAtMost(amount, t.tradeValue.value, 0.10);
  }

  /** The tick as it would be with ordinary strength and spread. */
  function Ordinary(t: Tick): Tick {
    t.(executionStrength := Some(100.0), spreadTicks := Some(0))
  }

  /** From that share on: a strong tick adds 5 percent of the order and a weak one
      takes 15, a spread of four or five ticks takes 15 and a wider one 25, a market
      order adds 5; within 5 and 100 percent.  Without a traded value the share
      starts at the configured one, and without an amount it is nothing. */
  lemma ShareIsAdjusted(amount: real, t: Tick, style: Style, config: Config)
    requires amount > 0.0
    ensures var share := FillRatioOf(Some(amount), t, style, config).0;
            var start := if t.tradeValue.Some? && t.tradeValue.value > 0.0
                         then FillRatioOf(Some(amount), Ordinary(t), Limit, config).0 else config.missingLiquidityRatio;
            var strong := t.executionStrength.Some? && t.executionStrength.value >= 150.0;
            var weak := t.executionStrength.Some? && t.executionStrength.value < 80.0;
            var wide := t.spreadTicks.Some? && t.spreadTicks.value >= 4;
            var wider := t.spreadTicks.Some? && t.spreadTicks.value >= 6;
            var sum := start + (if strong then 0.05 else 0.0) - (if weak then 0.15 else 0.0)
                       - (if wider then 0.25 else if wide then 0.15 else 0.0) + (if style == Market then 0.05 else 0.0);
            && (sum >= 1.0 ==> share == 1.0)
            && (sum <= 0.05 ==> share == 0.05)
            && (0.05 <= sum <= 1.0 ==> share == sum)
    ensures FillRatioOf(None, t, style, config).0 == 0.0
  {
    if t.tradeValue.Some? && t.tradeValue.value > 0.0 {
      ShareFallsInSteps(amount, Ordinary(t), Limit, config);
    }
  }
}
