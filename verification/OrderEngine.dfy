/** The order engine of trading/engine.py: per watched item, buy legs that send
    one order each, a holding with its average price, and a take-profit sale.

    The broker's answer to the n-th order ever sent is reply(n), any function;
    it arrives inside the call that sends the order. */
module OrderEngine {
  import opened Common
  import opened TickRules

  datatype LegStatus = Waiting | Watching | OrderSent | Unfilled | PartiallyFilled | Filled

  datatype Leg = Leg(
    index: int,
    targetPrice: int,
    weight: real,
    status: LegStatus,
    orderNo: string,
    ordered: int,
    filled: int)

  datatype Item = Item(
    code: string,
    budget: int,
    stopLossPrice: int,
    tickThreshold: int,
    takeProfitRate: real,
    takeProfitPercent: real,
    autoBuy: bool,
    autoSell: bool,
    takeProfitDone: bool,
    currentPrice: int,
    averagePrice: real,
    holding: int,
    legs: seq<Leg>)

  datatype Side = Buy | Sell | OtherSide

  datatype Order = Order(code: string, side: Side, tag: string, quantity: int, price: int, accepted: bool)

  datatype Execution = Execution(
    code: string, orderNo: string, side: Side, price: int, filled: int, remaining: int, tag: string)

  /** The engine's switches at the time of a price. */
  datatype Gate = Gate(orderingEnabled: bool, account: string, legacyLiveAllowed: bool)

  datatype Engine = Engine(items: map<string, Item>, sent: seq<Order>, alerted: set<string>)

  type Reply = nat -> bool

  // --------------------------------------------------------------- leg lookup

  function BuyTag(index: int, code: string): string {
    "BUY" + Decimal(index) + "_" + code
  }

  /** The position of the first leg with an index, or -1. */
  function LegAt(legs: seq<Leg>, index: int): (k: int)
    ensures -1 <= k < |legs|
    ensures k >= 0 ==> legs[k].index == index
  {
    if legs == [] then -1
    else if legs[0].index == index then 0
    else
      var k := LegAt(legs[1..], index);
      if k < 0 then -1 else k + 1
  }

  /** A tag names its leg by the one character after BUY. */
  function LegFromTag(legs: seq<Leg>, tag: string): (k: int)
    ensures -1 <= k < |legs|
  {
    if |tag| > 3 && tag[..3] == "BUY" && '0' <= tag[3] <= '9' then LegAt(legs, (tag[3] - '0') as int) else -1
  }

  predicate InFlight(s: LegStatus) {
    s == OrderSent || s == Unfilled || s == PartiallyFilled
  }

  /** A leg that has its order: the buy trigger passes over it. */
  predicate Active(s: LegStatus) {
    InFlight(s) || s == Filled
  }

  function FirstByOrderNo(legs: seq<Leg>, orderNo: string): (k: int)
    ensures -1 <= k < |legs|
    ensures k >= 0 ==> legs[k].orderNo == orderNo && forall i :: 0 <= i < k ==> legs[i].orderNo != orderNo
    ensures k < 0 ==> forall i :: 0 <= i < |legs| ==> legs[i].orderNo != orderNo
  {
    if legs == [] then -1
    else if legs[0].orderNo == orderNo then 0
    else
      var k := FirstByOrderNo(legs[1..], orderNo);
      if k < 0 then -1 else k + 1
  }

  function FirstInFlight(legs: seq<Leg>): (k: int)
    ensures -1 <= k < |legs|
    ensures k >= 0 ==> InFlight(legs[k].status) && forall i :: 0 <= i < k ==> !InFlight(legs[i].status)
    ensures k < 0 ==> forall i :: 0 <= i < |legs| ==> !InFlight(legs[i].status)
  {
    if legs == [] then -1
    else if InFlight(legs[0].status) then 0
    else
      var k := FirstInFlight(legs[1..]);
      if k < 0 then -1 else k + 1
  }

  predicate HasOrderNo(leg: Leg, orderNo: string) {
    orderNo != "" && leg.orderNo == orderNo
  }

  /** An execution belongs to the tagged leg, else to the first leg with its order
      number, else to the first leg in flight, else to none. */
  function LegFromEvent(legs: seq<Leg>, e: Execution): (k: int)
    ensures -1 <= k < |legs|
    ensures LegFromTag(legs, e.tag) >= 0 ==> k == LegFromTag(legs, e.tag)
    ensures LegFromTag(legs, e.tag) < 0 && (exists i :: 0 <= i < |legs| && HasOrderNo(legs[i], e.orderNo)) ==>
              k >= 0 && HasOrderNo(legs[k], e.orderNo) && forall i :: 0 <= i < k ==> !HasOrderNo(legs[i], e.orderNo)
    ensures LegFromTag(legs, e.tag) < 0 && (forall i :: 0 <= i < |legs| ==> !HasOrderNo(legs[i], e.orderNo)) ==>
              if k < 0 then forall i :: 0 <= i < |legs| ==> !InFlight(legs[i].status)
              else InFlight(legs[k].status) && forall i :: 0 <= i < k ==> !InFlight(legs[i].status)
  {
    var tagged := LegFromTag(legs, e.tag);
    if tagged >= 0 then tagged
    else
      var numbered := if e.orderNo != "" then FirstByOrderNo(legs, e.orderNo) else -1;
      if numbered >= 0 then numbered else FirstInFlight(legs)
  }

  // --------------------------------------------------------------- validation

  function Weights(legs: seq<Leg>): (weights: seq<real>)
    ensures |weights| == |legs|
  {
    seq(|legs|, i requires 0 <= i < |legs| => legs[i].weight)
  }

  predicate ValidLeg(budget: int, leg: Leg) {
    leg.weight > 0.0 ==> leg.targetPrice > 0 && OrderQuantity(budget, leg.weight, leg.targetPrice) > 0
  }

  predicate ValidItem(item: Item) {
    item.code != "" && (item.autoBuy ==> item.stopLossPrice != 0) && item.budget > 0
    && ValidWeights(Weights(item.legs))
    && forall i :: 0 <= i < |item.legs| ==> ValidLeg(item.budget, item.legs[i])
  }

  // -------------------------------------------------------------------- steps

  function SetStatus(item: Item, k: int, status: LegStatus): Item
    requires 0 <= k < |item.legs|
  {
    item.(legs := item.legs[k := item.legs[k].(status := status)])
  }

  /** on_order_result for a buy order: UNFILLED if accepted, WAITING if not. */
  function AfterResult(item: Item, order: Order): Item {
    var k := LegFromTag(item.legs, order.tag);
    if order.side == Buy && k >= 0 then SetStatus(item, k, if order.accepted then Unfilled else Waiting) else item
  }

  function LegOrder(item: Item, leg: Leg, sent: seq<Order>, reply: Reply): Order {
    Order(item.code, Buy, BuyTag(leg.index, item.code), OrderQuantity(item.budget, leg.weight, leg.targetPrice),
          leg.targetPrice, reply(|sent|))
  }

  predicate Tried(leg: Leg) {
    !Active(leg.status) && leg.weight > 0.0 && leg.targetPrice > 0
  }

  /** The distance check of a leg raises: the price is too many ticks away. */
  predicate TooFar(item: Item, leg: Leg) {
    Tried(leg) && item.currentPrice > 0 && TicksApart(item.currentPrice, leg.targetPrice) > GUARD
  }

  /** The buy trigger on one leg; a check that raises leaves it WATCHING. */
  function TriggerLeg(gate: Gate, item: Item, sent: seq<Order>, reply: Reply, k: int): (Item, seq<Order>)
    requires 0 <= k < |item.legs|
  {
    var leg := item.legs[k];
    if !Tried(leg) then (item, sent)
    else if !WithinTicks(item.currentPrice, leg.targetPrice, item.tickThreshold) || !gate.legacyLiveAllowed
    then (SetStatus(item, k, Watching), sent)
    else
      var order := LegOrder(item, leg, sent, reply);
      var marked := item.(legs := item.legs[k := leg.(status := OrderSent, ordered := order.quantity)]);
      (AfterResult(marked, order), sent + [order])
  }

  lemma TriggerKeepsLegCount(gate: Gate, item: Item, sent: seq<Order>, reply: Reply, k: int)
    requires 0 <= k < |item.legs|
    ensures |TriggerLeg(gate, item, sent, reply, k).0.legs| == |item.legs|
  {
  }

  /** The buy trigger on the legs from the k-th on, up to the first whose check
      raises; the flag tells that none did. */
  function TriggerFrom(gate: Gate, item: Item, sent: seq<Order>, reply: Reply, k: int): (Item, seq<Order>, bool)
    requires 0 <= k <= |item.legs|
    decreases |item.legs| - k
  {
    if k == |item.legs| then (item, sent, true)
    else
      TriggerKeepsLegCount(gate, item, sent, reply, k);
      var (item', sent') := TriggerLeg(gate, item, sent, reply, k);
      if TooFar(item, item.legs[k]) then (item', sent', false) else TriggerFrom(gate, item', sent', reply, k + 1)
  }

  function BuyTriggers(gate: Gate, item: Item, sent: seq<Order>, reply: Reply): (Item, seq<Order>, bool) {
    if !gate.orderingEnabled || !item.autoBuy || gate.account == "" || !ValidItem(item) then (item, sent, true)
    else TriggerFrom(gate, item, sent, reply, 0)
  }

  function TakeProfit(gate: Gate, item: Item, sent: seq<Order>, reply: Reply): (Item, seq<Order>) {
    var quantity := TakeProfitQuantity(item.holding, item.takeProfitPercent);
    if !gate.orderingEnabled || !item.autoSell || item.takeProfitDone || gate.account == "" || item.holding <= 0
       || !ReachedTakeProfit(item.currentPrice, item.averagePrice, item.takeProfitRate) || quantity <= 0
       || !gate.legacyLiveAllowed
    then (item, sent)
    else
      (item.(takeProfitDone := true),
       sent + [Order(item.code, Sell, "TP_" + item.code, quantity, item.currentPrice, reply(|sent|))])
  }

  /** Triggers first, then, unless they raised, take profit. */
  function PricedItem(gate: Gate, item: Item, sent: seq<Order>, reply: Reply): (Item, seq<Order>) {
    var (item', sent', ok) := BuyTriggers(gate, item, sent, reply);
    if ok then TakeProfit(gate, item', sent', reply) else (item', sent')
  }

  /** A price for one item. */
  function PriceItem(gate: Gate, item: Item, sent: seq<Order>, reply: Reply, price: int): (Item, seq<Order>) {
    PricedItem(gate, item.(currentPrice := Abs(price)), sent, reply)
  }

  /** The order number and the first sign of life of a buy order. */
  function NoteOrderNo(item: Item, e: Execution): Item {
    var k := LegFromEvent(item.legs, e);
    if e.side == Buy && k >= 0 && e.orderNo != "" then
      var leg := item.legs[k];
      item.(legs := item.legs[k := leg.(orderNo := e.orderNo,
        status := if e.remaining > 0 && leg.status == OrderSent then Unfilled else leg.status)])
    else item
  }

  function FillLeg(item: Item, e: Execution): Item {
    var k := LegFromEvent(item.legs, e);
    if k < 0 then item
    else
      var leg := item.legs[k];
      item.(legs := item.legs[k := leg.(filled := leg.filled + e.filled, orderNo := e.orderNo,
        status := if e.remaining == 0 then Filled else PartiallyFilled)])
  }

  /** The average price of a holding joined by a buy fill. */
  function Blend(average: real, holding: int, price: int, filled: int): real
    requires holding + filled != 0
  {
    (average * holding as real + price as real * filled as real) / (holding + filled) as real
  }

  /** Holding and average price after a fill. */
  function Hold(holding: int, average: real, e: Execution): (int, real) {
    if e.filled <= 0 then (holding, average)
    else if e.side == Buy && holding + e.filled != 0 then
      (holding + e.filled, Blend(average, holding, e.price, e.filled))
    else if e.side == Sell then
      var rest := if holding - e.filled > 0 then holding - e.filled else 0;
      (rest, if rest == 0 then 0.0 else average)
    else (holding, average)
  }

  function ExecuteItem(item: Item, e: Execution): Item {
    var noted := NoteOrderNo(item, e);
    var (holding, average) := Hold(noted.holding, noted.averagePrice, e);
    var held := noted.(holding := holding, averagePrice := average);
    if e.filled > 0 && e.side == Buy then FillLeg(held, e) else held
  }

  // ------------------------------------------------------------------- engine

  function OnPriceStep(s: Engine, gate: Gate, reply: Reply, code: string, price: int): Engine {
    if code !in s.items then s
    else
      var (item, sent) := PriceItem(gate, s.items[code], s.sent, reply, price);
      Engine(s.items[code := item], sent,
             if ReachedStopLoss(Abs(price), s.items[code].stopLossPrice) then s.alerted + {code} else s.alerted - {code})
  }

  function OnExecutionStep(s: Engine, e: Execution): Engine {
    if e.code !in s.items then s else s.(items := s.items[e.code := ExecuteItem(s.items[e.code], e)])
  }

  class TradingEngine {
    const reply: Reply
    var items: map<string, Item>
    var sent: seq<Order>
    var alerted: set<string>
    var alerts: seq<string>

    function View(): Engine
      reads this
    {
      Engine(items, sent, alerted)
    }

    constructor (items: map<string, Item>, reply: Reply)
      ensures this.reply == reply && View() == Engine(items, [], {}) && alerts == []
    {
      this.reply := reply;
      this.items := items;
      sent := [];
      alerted := {};
      alerts := [];
    }

    /** A price; the result is false when a distance check raised and cut it short. */
    method OnPrice(gate: Gate, code: string, price: int) returns (ok: bool)
      requires forall c :: c in items ==> items[c].code == c
      modifies this
      ensures View() == OnPriceStep(old(View()), gate, reply, code, price)
      ensures alerts == old(alerts)
                + if code in old(items) && code !in old(alerted) && ReachedStopLoss(Abs(price), old(items)[code].stopLossPrice)
                  then [code] else []
      ensures ok <==> code !in old(items) || BuyTriggers(gate, old(items)[code].(currentPrice := Abs(price)), old(sent), reply).2
    {
      if code !in items {
        return true;
      }
      ghost var before := items;
      items := items[code := items[code].(currentPrice := Abs(price))];
      HandleStopLoss(code);
      ok := TriggersAndProfit(gate, code);
      assert items == before[code := items[code]];
    }

    method TriggersAndProfit(gate: Gate, code: string) returns (ok: bool)
      requires code in items && items[code].code == code
      modifies this`items, this`sent
      ensures var (item, orders) := PricedItem(gate, old(items)[code], old(sent), reply);
              items == old(items)[code := item] && sent == orders
      ensures ok == BuyTriggers(gate, old(items)[code], old(sent), reply).2
    {
      ok := HandleBuyTriggers(gate, code);
      if ok {
        HandleTakeProfit(gate, code);
      }
    }

    /** One alert each time the price falls to the stop loss. */
    method HandleStopLoss(code: string)
      requires code in items
      modifies this`alerted, this`alerts
      ensures ReachedStopLoss(items[code].currentPrice, items[code].stopLossPrice) ==> alerted == old(alerted) + {code}
      ensures !ReachedStopLoss(items[code].currentPrice, items[code].stopLossPrice) ==> alerted == old(alerted) - {code}
      ensures alerts == old(alerts)
                + if code !in old(alerted) && ReachedStopLoss(items[code].currentPrice, items[code].stopLossPrice) then [code] else []
    {
      if ReachedStopLoss(items[code].currentPrice, items[code].stopLossPrice) {
        if code in alerted {
          return;
        }
        alerted := alerted + {code};
        alerts := alerts + [code];
      } else {
        alerted := alerted - {code};
      }
    }

    /** The broker call: the order is sent and its result handled before it returns. */
    method SendOrder(code: string, side: Side, tag: string, quantity: int, price: int)
      requires code in items
      modifies this`items, this`sent
      ensures var order := Order(code, side, tag, quantity, price, reply(|old(sent)|));
              sent == old(sent) + [order] && items == old(items)[code := AfterResult(old(items)[code], order)]
    {
      var order := Order(code, side, tag, quantity, price, reply(|sent|));
      sent := sent + [order];
      OnOrderResult(order);
    }

    method OnOrderResult(order: Order)
      modifies this`items
      ensures items == if order.code in old(items) then old(items)[order.code := AfterResult(old(items)[order.code], order)] else old(items)
    {
      if order.code !in items {
        return;
      }
      var item := items[order.code];
      if order.side == Buy {
        var k := LegFromTag(item.legs, order.tag);
        if k >= 0 {
          item := SetStatus(item, k, if order.accepted then Unfilled else Waiting);
        }
      }
      items := items[order.code := item];
    }

    method HandleBuyTriggers(gate: Gate, code: string) returns (ok: bool)
      requires code in items && items[code].code == code
      modifies this`items, this`sent
      ensures var (item, orders, fine) := BuyTriggers(gate, old(items)[code], old(sent), reply);
              items == old(items)[code := item] && sent == orders && item.code == code && ok == fine
    {
      if !gate.orderingEnabled || !items[code].autoBuy || gate.account == "" || !ValidItem(items[code]) {
        assert items == items[code := items[code]];
        return true;
      }
      var k := 0;
      ghost var before, first := items, sent;
      while k < |items[code].legs|
        invariant code in items && items[code].code == code && 0 <= k <= |items[code].legs|
        invariant items == before[code := items[code]]
        invariant TriggerFrom(gate, items[code], sent, reply, k) == TriggerFrom(gate, before[code], first, reply, 0)
        decreases |items[code].legs| - k
      {
        TriggerKeepsLegCount(gate, items[code], sent, reply, k);
        var fine := TriggerOneLeg(gate, code, k);
        if !fine {
          return false;
        }
        k := k + 1;
      }
      return true;
    }

    method TriggerOneLeg(gate: Gate, code: string, k: int) returns (ok: bool)
      requires code in items && items[code].code == code && 0 <= k < |items[code].legs|
      modifies this`items, this`sent
      ensures var (item, orders) := TriggerLeg(gate, old(items)[code], old(sent), reply, k);
              items == old(items)[code := item] && sent == orders && item.code == code
      ensures ok == !TooFar(old(items)[code], old(items)[code].legs[k])
    {
      var item := items[code];
      var leg := item.legs[k];
      if leg.status == OrderSent || leg.status == Unfilled || leg.status == PartiallyFilled || leg.status == Filled {
        assert items == items[code := item];
        return true;
      }
      if leg.weight <= 0.0 || leg.targetPrice <= 0 {
        assert items == items[code := item];
        return true;
      }
      items := items[code := SetStatus(item, k, Watching)];
      var within, tooLarge := IsWithinTicks(item.currentPrice, leg.targetPrice, item.tickThreshold);
      if tooLarge {
        return false;
      }
      if within {
        var quantity := OrderQuantity(item.budget, leg.weight, leg.targetPrice);
        if !gate.legacyLiveAllowed {
          return true;
        }
        items := items[code := item.(legs := item.legs[k := leg.(status := OrderSent, ordered := quantity)])];
        SendOrder(code, Buy, BuyTag(leg.index, code), quantity, leg.targetPrice);
      }
      return true;
    }

    method HandleTakeProfit(gate: Gate, code: string)
      requires code in items && items[code].code == code
      modifies this`items, this`sent
      ensures var (item, orders) := TakeProfit(gate, old(items)[code], old(sent), reply);
              items == old(items)[code := item] && sent == orders
    {
      var item := items[code];
      assert items == items[code := item];
      if !gate.orderingEnabled || !item.autoSell || item.takeProfitDone {
        return;
      }
      if gate.account == "" || item.holding <= 0 {
        return;
      }
      if !ReachedTakeProfit(item.currentPrice, item.averagePrice, item.takeProfitRate) {
        return;
      }
      var quantity := TakeProfitQuantity(item.holding, item.takeProfitPercent);
      if quantity <= 0 || !gate.legacyLiveAllowed {
        return;
      }
      items := items[code := item.(takeProfitDone := true)];
      SendOrder(code, Sell, "TP_" + code, quantity, item.currentPrice);
    }

    method OnExecution(e: Execution)
      modifies this`items
      ensures View() == OnExecutionStep(old(View()), e)
    {
      if e.code !in items {
        return;
      }
      var item := items[e.code];
      if e.side == Buy {
        var k := LegFromEvent(item.legs, e);
        if k >= 0 && e.orderNo != "" {
          var leg := item.legs[k].(orderNo := e.orderNo);
          if e.remaining > 0 && leg.status == OrderSent {
            leg := leg.(status := Unfilled);
          }
          item := item.(legs := item.legs[k := leg]);
        }
      }
      if e.filled > 0 {
        item := ApplyFill(item, e);
      }
      items := items[e.code := item];
    }

    /** The part of an execution that moves the holding. */
    method ApplyFill(noted: Item, e: Execution) returns (item: Item)
      requires e.filled > 0
      ensures var (holding, average) := Hold(noted.holding, noted.averagePrice, e);
              var held := noted.(holding := holding, averagePrice := average);
              item == if e.side == Buy then FillLeg(held, e) else held
    {
      item := noted;
      if e.side == Buy {
        if item.holding + e.filled != 0 {
          var average := Blend(item.averagePrice, item.holding, e.price, e.filled);
          item := item.(holding := item.holding + e.filled);
          item := item.(averagePrice := average);
        }
        item := FillLeg(item, e);
      } else if e.side == Sell {
        item := item.(holding := if item.holding - e.filled > 0 then item.holding - e.filled else 0);
        if item.holding == 0 {
          item := item.(averagePrice := 0.0);
        }
      }
    }
  }
}
