/** When the engine sends an order, by the fields of the item, the leg and the gate. */
module OrderTriggers {
  import opened TickRules
  import opened OrderEngine
  import opened OrderEngineRuns

  /** A leg that the trigger looks at: it has no order and it has terms. */
  predicate Looked(leg: Leg) {
    (leg.status == Waiting || leg.status == Watching) && leg.weight > 0.0 && leg.targetPrice > 0
  }

  /** Its target lies within the threshold of the price. */
  predicate InReach(item: Item, leg: Leg) {
    item.currentPrice > 0
    && TicksApart(item.currentPrice, leg.targetPrice) <= if item.tickThreshold > 0 then item.tickThreshold else 0
  }

  /** The distance is so large that the check raises. */
  predicate Raises(item: Item, leg: Leg) {
    Looked(leg) && item.currentPrice > 0 && TicksApart(item.currentPrice, leg.targetPrice) > 1_000_000
  }

  /** The switches that must be on for an item to buy at all. */
  predicate BuyGatesOpen(gate: Gate, item: Item) {
    gate.orderingEnabled && item.autoBuy && gate.account != ""
  }

  predicate Fires(gate: Gate, item: Item, leg: Leg) {
    gate.legacyLiveAllowed && Looked(leg) && InReach(item, leg) && !Raises(item, leg)
  }

  /** One leg: an order is sent exactly when it fires, for its own terms. */
  lemma LegSendsExactlyWhen(gate: Gate, item: Item, sent: seq<Order>, reply: Reply, k: int)
    requires 0 <= k < |item.legs|
    ensures var sent', leg := TriggerLeg(gate, item, sent, reply, k).1, item.legs[k];
            if Fires(gate, item, leg) then
              |sent'| == |sent| + 1 && sent'[..|sent|] == sent
              && sent'[|sent|].code == item.code && sent'[|sent|].side == Buy && sent'[|sent|].tag == BuyTag(leg.index, item.code)
              && sent'[|sent|].price == leg.targetPrice
              && sent'[|sent|].quantity == OrderQuantity(item.budget, leg.weight, leg.targetPrice)
            else sent' == sent
  {
  }

  /** And the leg is then UNFILLED or, refused, WAITING again; one that is looked at
      but does not fire is WATCHING, and one that is not looked at stays. */
  lemma LegEndsAs(gate: Gate, item: Item, sent: seq<Order>, reply: Reply, k: int)
    requires SingleDigitLegs(item.legs) && 0 <= k < |item.legs|
    ensures var (item', sent') := TriggerLeg(gate, item, sent, reply, k);
            var leg, leg' := item.legs[k], item'.legs[k];
            if Fires(gate, item, leg) then
              leg' == leg.(status := if sent'[|sent|].accepted then Unfilled else Waiting, ordered := sent'[|sent|].quantity)
            else leg' == if Looked(leg) then leg.(status := Watching) else leg
  {
    var leg := item.legs[k];
    TagNamesItsLegExactlyWhen(item.legs[k := leg.(status := OrderSent, ordered := OrderQuantity(item.budget, leg.weight, leg.targetPrice))], k, item.code);
  }

  /** And only that leg changes, and of the item nothing else. */
  lemma LegChangesAlone(gate: Gate, item: Item, sent: seq<Order>, reply: Reply, k: int)
    requires SingleDigitLegs(item.legs) && 0 <= k < |item.legs|
    ensures var item' := TriggerLeg(gate, item, sent, reply, k).0;
            && item' == item.(legs := item'.legs) && |item'.legs| == |item.legs|
            && item'.legs[k].index == item.legs[k].index
            && forall j :: 0 <= j < |item.legs| && j != k ==> item'.legs[j] == item.legs[j]
  {
    var leg := item.legs[k];
    TagNamesItsLegExactlyWhen(item.legs[k := leg.(status := OrderSent, ordered := OrderQuantity(item.budget, leg.weight, leg.targetPrice))], k, item.code);
  }

  /** How many buy orders of a code carry a tag. */
  function BuysSent(sent: seq<Order>, code: string, tag: string): nat {
    if sent == [] then 0
    else
      var o := sent[|sent| - 1];
      BuysSent(sent[..|sent| - 1], code, tag) + if o.code == code && o.side == Buy && o.tag == tag then 1 else 0
  }

  lemma OneMoreSent(sent: seq<Order>, sent': seq<Order>, code: string, tag: string)
    requires |sent'| == |sent| + 1 && sent'[..|sent|] == sent
    ensures var o := sent'[|sent|];
            BuysSent(sent', code, tag) == BuysSent(sent, code, tag) + if o.code == code && o.side == Buy && o.tag == tag then 1 else 0
  {
  }

  /** The first leg from k on whose check raises, or the number of legs. */
  function StopsAt(item: Item, k: int): (stop: int)
    requires 0 <= k <= |item.legs|
    ensures k <= stop <= |item.legs|
    ensures forall j :: k <= j < stop ==> !Raises(item, item.legs[j])
    ensures stop < |item.legs| ==> Raises(item, item.legs[stop])
    decreases |item.legs| - k
  {
    if k == |item.legs| || Raises(item, item.legs[k]) then k else StopsAt(item, k + 1)
  }

  lemma {:induction false} StopsAtDependsOnLaterLegs(item: Item, item': Item, k: int)
    requires 0 <= k <= |item.legs| == |item'.legs| && item'.currentPrice == item.currentPrice
    requires forall j :: k <= j < |item.legs| ==> item'.legs[j] == item.legs[j]
    ensures StopsAt(item', k) == StopsAt(item, k)
    decreases |item.legs| - k
  {
    if k < |item.legs| {
      StopsAtDependsOnLaterLegs(item, item', k + 1);
    }
  }

  /** How many buy orders the legs from k on send for leg j. */
  function Expected(gate: Gate, item: Item, k: int, j: int): nat
    requires 0 <= k <= |item.legs| && 0 <= j < |item.legs|
  {
    if k <= j < StopsAt(item, k) && Fires(gate, item, item.legs[j]) then 1 else 0
  }

  lemma ExpectedByOne(gate: Gate, item: Item, item': Item, k: int, j: int)
    requires 0 <= k < |item.legs| == |item'.legs| && 0 <= j < |item.legs| && !Raises(item, item.legs[k])
    requires item' == item.(legs := item'.legs)
    requires forall i :: 0 <= i < |item.legs| && i != k ==> item'.legs[i] == item.legs[i]
    ensures Expected(gate, item, k, j)
            == Expected(gate, item', k + 1, j) + if j == k && Fires(gate, item, item.legs[k]) then 1 else 0
  {
    StopsAtDependsOnLaterLegs(item, item', k + 1);
  }

  lemma LegTagCounts(gate: Gate, item: Item, sent: seq<Order>, reply: Reply, k: int, j: int)
    requires SingleDigitLegs(item.legs) && 0 <= k < |item.legs| && 0 <= j < |item.legs|
    ensures var tag := BuyTag(item.legs[j].index, item.code);
            BuysSent(TriggerLeg(gate, item, sent, reply, k).1, item.code, tag)
            == BuysSent(sent, item.code, tag) + if j == k && Fires(gate, item, item.legs[k]) then 1 else 0
  {
    LegSendsExactlyWhen(gate, item, sent, reply, k);
    if Fires(gate, item, item.legs[k]) {
      OneMoreSent(sent, TriggerLeg(gate, item, sent, reply, k).1, item.code, BuyTag(item.legs[j].index, item.code));
      if j != k {
        DifferentTags(item.legs[j].index, item.legs[k].index, item.code);
      }
    }
  }

  lemma FromByOne(gate: Gate, item: Item, sent: seq<Order>, reply: Reply, k: int)
    requires 0 <= k < |item.legs|
    ensures var (item', sent') := TriggerLeg(gate, item, sent, reply, k);
            |item'.legs| == |item.legs|
            && TriggerFrom(gate, item, sent, reply, k)
               == if Raises(item, item.legs[k]) then (item', sent', false) else TriggerFrom(gate, item', sent', reply, k + 1)
  {
    TriggerKeepsLegCount(gate, item, sent, reply, k);
  }

  lemma IndicesKeepDigits(legs: seq<Leg>, legs': seq<Leg>)
    requires SingleDigitLegs(legs) && |legs'| == |legs| && forall i :: 0 <= i < |legs| ==> legs'[i].index == legs[i].index
    ensures SingleDigitLegs(legs')
  {
  }

  /** What one trigger leaves for the legs after it. */
  lemma AfterOneLeg(gate: Gate, item: Item, sent: seq<Order>, reply: Reply, k: int, j: int)
    requires SingleDigitLegs(item.legs) && 0 <= k < |item.legs| && 0 <= j < |item.legs| && !Raises(item, item.legs[k])
    ensures var item' := TriggerLeg(gate, item, sent, reply, k).0;
            && SingleDigitLegs(item'.legs) && |item'.legs| == |item.legs| && item'.code == item.code
            && item'.legs[j].index == item.legs[j].index
            && StopsAt(item', k + 1) == StopsAt(item, k)
            && Expected(gate, item, k, j) == Expected(gate, item', k + 1, j) + if j == k && Fires(gate, item, item.legs[k]) then 1 else 0
  {
    var item' := TriggerLeg(gate, item, sent, reply, k).0;
    LegChangesAlone(gate, item, sent, reply, k);
    ExpectedByOne(gate, item, item', k, j);
    IndicesKeepDigits(item.legs, item'.legs);
    StopsAtDependsOnLaterLegs(item, item', k + 1);
  }

  /** The legs from k on: each that fires, up to the first whose check raises, sends
      exactly one order with its tag, and no other leg sends any. */
  lemma {:induction false} LegsSendExactlyWhen(gate: Gate, item: Item, sent: seq<Order>, reply: Reply, k: int, j: int)
    requires SingleDigitLegs(item.legs) && 0 <= k <= |item.legs| && 0 <= j < |item.legs|
    ensures BuysSent(TriggerFrom(gate, item, sent, reply, k).1, item.code, BuyTag(item.legs[j].index, item.code))
            == BuysSent(sent, item.code, BuyTag(item.legs[j].index, item.code)) + Expected(gate, item, k, j)
    decreases |item.legs| - k
  {
    if k < |item.legs| {
      var (item', sent') := TriggerLeg(gate, item, sent, reply, k);
      FromByOne(gate, item, sent, reply, k);
      LegTagCounts(gate, item, sent, reply, k, j);
      if !Raises(item, item.legs[k]) {
        AfterOneLeg(gate, item, sent, reply, k, j);
        LegsSendExactlyWhen(gate, item', sent', reply, k + 1, j);
      }
    }
  }

  /** They run through exactly when no check raises. */
  lemma {:induction false} LegsRunThroughExactlyWhen(gate: Gate, item: Item, sent: seq<Order>, reply: Reply, k: int)
    requires SingleDigitLegs(item.legs) && 0 <= k <= |item.legs|
    ensures TriggerFrom(gate, item, sent, reply, k).2 <==> forall j :: k <= j < |item.legs| ==> !Raises(item, item.legs[j])
    decreases |item.legs| - k
  {
    if k < |item.legs| {
      var (item', sent') := TriggerLeg(gate, item, sent, reply, k);
      FromByOne(gate, item, sent, reply, k);
      if !Raises(item, item.legs[k]) {
        LegChangesAlone(gate, item, sent, reply, k);
        IndicesKeepDigits(item.legs, item'.legs);
        LegsRunThroughExactlyWhen(gate, item', sent', reply, k + 1);
        assert forall j :: k < j < |item.legs| ==> item'.legs[j] == item.legs[j];
      }
    }
  }

  /** Every order the legs from k on add is a buy of one that fires. */
  ghost predicate AddsFirings(gate: Gate, item: Item, k: int, sent: seq<Order>, sent': seq<Order>) {
    |sent| <= |sent'| && sent'[..|sent|] == sent
    && forall i :: |sent| <= i < |sent'| ==> FiredBy(gate, item, k, sent'[i])
  }

  ghost predicate FiredBy(gate: Gate, item: Item, k: int, o: Order) {
    exists j :: k <= j && FiredByLeg(gate, item, j, o)
  }

  /** Leg j fires, and the order is a buy on its terms. */
  predicate FiredByLeg(gate: Gate, item: Item, j: int, o: Order) {
    0 <= j < |item.legs| && Fires(gate, item, item.legs[j])
    && o.code == item.code && o.side == Buy && o.tag == BuyTag(item.legs[j].index, item.code)
    && o.price == item.legs[j].targetPrice
    && o.quantity == OrderQuantity(item.budget, item.legs[j].weight, item.legs[j].targetPrice)
  }

  lemma FiredByLater(gate: Gate, item: Item, legs: seq<Leg>, j: int, o: Order)
    requires 0 <= j < |item.legs| && j < |legs| && legs[j] == item.legs[j]
    requires FiredByLeg(gate, item.(legs := legs), j, o)
    ensures FiredByLeg(gate, item, j, o)
  {
  }

  lemma LegAddsFirings(gate: Gate, item: Item, sent: seq<Order>, reply: Reply, k: int)
    requires 0 <= k < |item.legs|
    ensures AddsFirings(gate, item, k, sent, TriggerLeg(gate, item, sent, reply, k).1)
  {
    LegSendsExactlyWhen(gate, item, sent, reply, k);
    var sent' := TriggerLeg(gate, item, sent, reply, k).1;
    if Fires(gate, item, item.legs[k]) {
      assert FiredByLeg(gate, item, k, sent'[|sent|]);
    }
  }

  lemma {:induction false} LegsAddFirings(gate: Gate, item: Item, sent: seq<Order>, reply: Reply, k: int)
    requires SingleDigitLegs(item.legs) && 0 <= k <= |item.legs|
    ensures AddsFirings(gate, item, k, sent, TriggerFrom(gate, item, sent, reply, k).1)
    decreases |item.legs| - k
  {
    if k < |item.legs| {
      var (item', sent') := TriggerLeg(gate, item, sent, reply, k);
      FromByOne(gate, item, sent, reply, k);
      LegAddsFirings(gate, item, sent, reply, k);
      if !Raises(item, item.legs[k]) {
        LegChangesAlone(gate, item, sent, reply, k);
        IndicesKeepDigits(item.legs, item'.legs);
        LegsAddFirings(gate, item', sent', reply, k + 1);
        AddsFiringsOnward(gate, item, item', k, sent, sent', TriggerFrom(gate, item', sent', reply, k + 1).1);
      }
    }
  }

  lemma AddsFiringsOnward(gate: Gate, item: Item, item': Item, k: int, sent: seq<Order>, sent': seq<Order>, last: seq<Order>)
    requires 0 <= k < |item.legs| == |item'.legs| && item' == item.(legs := item'.legs)
    requires forall i :: 0 <= i < |item.legs| && i != k ==> item'.legs[i] == item.legs[i]
    requires AddsFirings(gate, item, k, sent, sent') && AddsFirings(gate, item', k + 1, sent', last)
    ensures AddsFirings(gate, item, k, sent, last)
  {
    assert last[..|sent|] == last[..|sent'|][..|sent|];
    forall i | |sent| <= i < |last| ensures FiredBy(gate, item, k, last[i]) {
      if i < |sent'| {
        assert last[i] == last[..|sent'|][i];
      } else {
        var j :| k + 1 <= j && FiredByLeg(gate, item', j, last[i]);
        FiredByLater(gate, item, item'.legs, j, last[i]);
      }
    }
  }

  // -------------------------------------------------------------- take profit

  /** The switches are on, the item is held and not sold yet, and its price lies above
      its average by at least the rate. */
  predicate TakesProfit(gate: Gate, item: Item) {
    && gate.orderingEnabled && gate.account != "" && gate.legacyLiveAllowed
    && item.autoSell && !item.takeProfitDone && item.holding > 0 && item.takeProfitPercent > 0.0
    && item.currentPrice > 0 && item.averagePrice > 0.0
    && (item.currentPrice as real - item.averagePrice) / item.averagePrice * 100.0 >= item.takeProfitRate
  }

  /** The profit is taken, by one sale, exactly under these conditions. */
  lemma ProfitIsTakenExactlyWhen(gate: Gate, item: Item, sent: seq<Order>, reply: Reply)
    ensures var (item', sent') := TakeProfit(gate, item, sent, reply);
            if TakesProfit(gate, item) then
              item' == item.(takeProfitDone := true) && |sent'| == |sent| + 1 && sent'[..|sent|] == sent
              && sent'[|sent|].code == item.code && sent'[|sent|].side == Sell && sent'[|sent|].price == item.currentPrice
              && sent'[|sent|].tag == "TP_" + item.code && sent'[|sent|].quantity == TakeProfitQuantity(item.holding, item.takeProfitPercent)
              && 1 <= sent'[|sent|].quantity <= item.holding
            else item' == item && sent' == sent
  {
  }

  // ------------------------------------------------------------- validation

  /** An item is valid exactly when it has a code, a budget, a stop loss if it buys
      by itself, weights that are not negative and make more than nothing and at most
      a hundred percent, and for each weighted leg a target that its share can pay. */
  lemma ItemIsValidExactlyWhen(item: Item)
    ensures ValidItem(item) <==>
            && item.code != "" && item.budget > 0 && (item.autoBuy ==> item.stopLossPrice != 0)
            && (forall i :: 0 <= i < |item.legs| ==> item.legs[i].weight >= 0.0)
            && 0.0 < Sum(Weights(item.legs)) <= 100.0
            && forall i :: 0 <= i < |item.legs| && item.legs[i].weight > 0.0 ==>
                 item.legs[i].targetPrice > 0
                 && item.legs[i].targetPrice as real <= item.budget as real * (item.legs[i].weight / 100.0)
  {
    assert forall i :: 0 <= i < |item.legs| ==> Weights(item.legs)[i] == item.legs[i].weight;
    forall i | 0 <= i < |item.legs| && item.budget > 0 && item.legs[i].weight > 0.0 && item.legs[i].targetPrice > 0
      ensures OrderQuantity(item.budget, item.legs[i].weight, item.legs[i].targetPrice) > 0
              <==> item.legs[i].targetPrice as real <= item.budget as real * (item.legs[i].weight / 100.0)
    {
      SomethingIsAffordableExactlyWhen(item.budget, item.legs[i].weight, item.legs[i].targetPrice);
    }
  }

  lemma SomethingIsAffordableExactlyWhen(budget: int, weight: real, target: int)
    requires budget > 0 && weight > 0.0 && target > 0
    ensures OrderQuantity(budget, weight, target) > 0 <==> target as real <= budget as real * (weight / 100.0)
  {
    var q, share := OrderQuantity(budget, weight, target), budget as real * (weight / 100.0);
    if q > 0 {
      assert (q as real - 1.0) * target as real >= 0.0;
    } else {
      assert (q + 1) as real * target as real == target as real;
    }
  }

  // --------------------------------------------------------------------- runs

  /** The item as a price step finds it. */
  function Priced(item: Item, price: int): Item {
    item.(currentPrice := if price < 0 then -price else price)
  }

  lemma PriceStepOfItem(gate: Gate, item: Item, sent: seq<Order>, reply: Reply, price: int, j: int)
    requires SingleDigitLegs(item.legs) && 0 <= j < |item.legs|
    ensures var priced, tag := Priced(item, price), BuyTag(item.legs[j].index, item.code);
            BuysSent(PriceItem(gate, item, sent, reply, price).1, item.code, tag)
            == BuysSent(sent, item.code, tag)
               + if BuyGatesOpen(gate, item) && ValidItem(item) then Expected(gate, priced, 0, j) else 0
  {
    var priced := Priced(item, price);
    assert priced == item.(currentPrice := Abs(price));
    LegsSendExactlyWhen(gate, priced, sent, reply, 0, j);
    var (item', sent', ok) := BuyTriggers(gate, priced, sent, reply);
    TriggersKeepCode(gate, priced, sent, reply);
    SaleCountsForNothing(gate, item', sent', reply, item.code, BuyTag(item.legs[j].index, item.code));
  }

  lemma TriggersKeepCode(gate: Gate, item: Item, sent: seq<Order>, reply: Reply)
    ensures BuyTriggers(gate, item, sent, reply).0.code == item.code
  {
    TriggerFromAppends(gate, item, sent, reply, 0);
  }

  lemma SaleCountsForNothing(gate: Gate, item: Item, sent: seq<Order>, reply: Reply, code: string, tag: string)
    ensures BuysSent(TakeProfit(gate, item, sent, reply).1, code, tag) == BuysSent(sent, code, tag)
  {
    ProfitIsTakenExactlyWhen(gate, item, sent, reply);
    var sent' := TakeProfit(gate, item, sent, reply).1;
    if sent' != sent {
      OneMoreSent(sent, sent', code, tag);
    }
  }

  /** At every price step of every run: a leg of the priced item sends one order if
      the gates are open, the item is valid, the leg fires at that price and no check
      before it raises, and otherwise none. */
  lemma PriceStepsSendExactlyWhen(items: map<string, Item>, reply: Reply, ops: seq<Op>, m: nat, j: int)
    requires m < |ops| && ops[m].Price? && ops[m].code in items
    requires forall c :: c in items ==> items[c].code == c && SingleDigitLegs(items[c].legs)
    requires 0 <= j < |items[ops[m].code].legs|
    ensures var before, code := Run(items, reply, ops, m), ops[m].code;
            && code in before.items && |before.items[code].legs| == |items[code].legs|
            && var item := Priced(before.items[code], ops[m].price);
               var tag := BuyTag(items[code].legs[j].index, code);
               BuysSent(Run(items, reply, ops, m + 1).sent, code, tag)
               == BuysSent(before.sent, code, tag)
                  + if BuyGatesOpen(ops[m].gate, item) && ValidItem(item) && Fires(ops[m].gate, item, item.legs[j])
                       && (forall i :: 0 <= i < j ==> !Raises(item, item.legs[i]))
                    then 1 else 0
  {
    RunKeepsSafe(items, reply, ops, m);
    var before, code := Run(items, reply, ops, m), ops[m].code;
    assert SameTerms(items[code], before.items[code]) && SingleDigitLegs(before.items[code].legs);
    PriceStepOfItem(ops[m].gate, before.items[code], before.sent, reply, ops[m].price, j);
    StopsAfterExactlyWhen(Priced(before.items[code], ops[m].price), j);
  }

  lemma StopsAfterExactlyWhen(item: Item, j: int)
    requires 0 <= j < |item.legs|
    ensures j < StopsAt(item, 0) <==> forall i :: 0 <= i <= j ==> !Raises(item, item.legs[i])
  {
  }

  /** And no other step, and nothing else in a price step, sends a buy: every new
      buy order is for a leg of the priced item that fires at that price. */
  lemma BuysAreOfFiringLegs(items: map<string, Item>, reply: Reply, ops: seq<Op>, m: nat, i: nat)
    requires m < |ops| && forall c :: c in items ==> items[c].code == c && SingleDigitLegs(items[c].legs)
    requires |Run(items, reply, ops, m).sent| <= i < |Run(items, reply, ops, m + 1).sent|
    requires Run(items, reply, ops, m + 1).sent[i].side == Buy
    ensures ops[m].Price? && ops[m].code in Run(items, reply, ops, m).items
    ensures var item := Priced(Run(items, reply, ops, m).items[ops[m].code], ops[m].price);
            BuyGatesOpen(ops[m].gate, item) && ValidItem(item)
            && FiredBy(ops[m].gate, item, 0, Run(items, reply, ops, m + 1).sent[i])
  {
    RunKeepsSafe(items, reply, ops, m);
    var before, op := Run(items, reply, ops, m), ops[m];
    if op.Price? && op.code in before.items {
      var item := Priced(before.items[op.code], op.price);
      assert SingleDigitLegs(before.items[op.code].legs);
      LegsAddFirings(op.gate, item, before.sent, reply, 0);
      var (item', sent', ok) := BuyTriggers(op.gate, item, before.sent, reply);
      ProfitIsTakenExactlyWhen(op.gate, item', sent', reply);
      assert i < |sent'| ==> Run(items, reply, ops, m + 1).sent[i] == sent'[i];
    }
  }

  /** Buying moves nothing of the item but its legs. */
  lemma {:induction false} TriggersMoveLegsOnly(gate: Gate, item: Item, sent: seq<Order>, reply: Reply, k: int)
    requires SingleDigitLegs(item.legs) && 0 <= k <= |item.legs|
    ensures var item' := TriggerFrom(gate, item, sent, reply, k).0; item' == item.(legs := item'.legs)
    decreases |item.legs| - k
  {
    if k < |item.legs| {
      var (item', sent') := TriggerLeg(gate, item, sent, reply, k);
      FromByOne(gate, item, sent, reply, k);
      LegChangesAlone(gate, item, sent, reply, k);
      if !Raises(item, item.legs[k]) {
        IndicesKeepDigits(item.legs, item'.legs);
        TriggersMoveLegsOnly(gate, item', sent', reply, k + 1);
      }
    }
  }

  lemma TriggersBeforeProfit(gate: Gate, item: Item, sent: seq<Order>, reply: Reply)
    requires SingleDigitLegs(item.legs)
    ensures var (item', sent', ok) := BuyTriggers(gate, item, sent, reply);
            && item' == item.(legs := item'.legs)
            && |sent| <= |sent'| && (forall i :: |sent| <= i < |sent'| ==> sent'[i].side == Buy)
            && (ok <==> (BuyGatesOpen(gate, item) && ValidItem(item) ==> forall j :: 0 <= j < |item.legs| ==> !Raises(item, item.legs[j])))
  {
    TriggersMoveLegsOnly(gate, item, sent, reply, 0);
    LegsAddFirings(gate, item, sent, reply, 0);
    LegsRunThroughExactlyWhen(gate, item, sent, reply, 0);
  }

  /** The item's profit is taken at this price: no buy was cut short by a check that
      raised, and the conditions hold. */
  predicate SellsAt(gate: Gate, item: Item) {
    TakesProfit(gate, item)
    && (BuyGatesOpen(gate, item) && ValidItem(item) ==> forall j :: 0 <= j < |item.legs| ==> !Raises(item, item.legs[j]))
  }

  /** The new orders are buys and then one sale at the price of the item, of no more
      than it holds. */
  predicate EndsInASale(item: Item, sent: seq<Order>, sent': seq<Order>) {
    |sent| < |sent'|
    && (var sale := sent'[|sent'| - 1];
        sale.side == Sell && sale.code == item.code && sale.price == item.currentPrice && 1 <= sale.quantity <= item.holding)
    && OnlyBuys(sent, sent'[..|sent'| - 1])
  }

  predicate OnlyBuys(sent: seq<Order>, sent': seq<Order>) {
    |sent| <= |sent'| && forall i :: |sent| <= i < |sent'| ==> sent'[i].side == Buy
  }

  lemma PricedItemSells(gate: Gate, item: Item, sent: seq<Order>, reply: Reply)
    requires SingleDigitLegs(item.legs)
    ensures var (item', sent') := PricedItem(gate, item, sent, reply);
            if SellsAt(gate, item) then item'.takeProfitDone && EndsInASale(item, sent, sent')
            else item'.takeProfitDone == item.takeProfitDone && OnlyBuys(sent, sent')
  {
    TriggersBeforeProfit(gate, item, sent, reply);
    var (bought, buys, ok) := BuyTriggers(gate, item, sent, reply);
    ProfitIsTakenExactlyWhen(gate, bought, buys, reply);
  }

  /** At every price step of every run the profit is taken, by one sale after the
      buys, exactly when those conditions hold at that price; no other order of the
      step is a sale. */
  lemma PriceStepSellsExactlyWhen(items: map<string, Item>, reply: Reply, ops: seq<Op>, m: nat)
    requires m < |ops| && ops[m].Price? && ops[m].code in items
    requires forall c :: c in items ==> items[c].code == c && SingleDigitLegs(items[c].legs)
    ensures var before, after, code := Run(items, reply, ops, m), Run(items, reply, ops, m + 1), ops[m].code;
            && code in before.items && code in after.items
            && var item := Priced(before.items[code], ops[m].price);
               if SellsAt(ops[m].gate, item) then after.items[code].takeProfitDone && EndsInASale(item, before.sent, after.sent)
               else after.items[code].takeProfitDone == item.takeProfitDone && OnlyBuys(before.sent, after.sent)
  {
    RunKeepsSafe(items, reply, ops, m);
    var before, code := Run(items, reply, ops, m), ops[m].code;
    assert SameTerms(items[code], before.items[code]) && SingleDigitLegs(before.items[code].legs);
    var item := Priced(before.items[code], ops[m].price);
    assert item == before.items[code].(currentPrice := Abs(ops[m].price));
    PricedItemSells(ops[m].gate, item, before.sent, reply);
  }

  // ------------------------------------------------- alerts, answers, executions

  /** After a price step the item's code is on alert exactly when the price is there
      and at or below a stop loss; nothing else goes on or off alert. */
  lemma AlertsExactlyWhen(s: Engine, gate: Gate, reply: Reply, code: string, price: int, c: string)
    ensures c in OnPriceStep(s, gate, reply, code, price).alerted <==>
            if c == code && code in s.items
            then price != 0 && s.items[code].stopLossPrice > 0
                 && (if price < 0 then -price else price) <= s.items[code].stopLossPrice
            else c in s.alerted
  {
  }

  /** The answer to a leg's own order: accepted, it is UNFILLED; refused, it waits
      again.  Nothing else of the item changes. */
  lemma AnswerMovesItsLeg(item: Item, order: Order, k: int)
    requires SingleDigitLegs(item.legs) && 0 <= k < |item.legs|
    requires order.side == Buy && order.tag == BuyTag(item.legs[k].index, item.code)
    ensures AfterResult(item, order) ==
            item.(legs := item.legs[k := item.legs[k].(status := if order.accepted then Unfilled else Waiting)])
  {
    TagNamesItsLegExactlyWhen(item.legs, k, item.code);
  }

  /** An execution without a fill notes the order number on its leg, which comes to
      life if it was just sent and something remains; without a number, nothing. */
  lemma AcknowledgementNotesItsNumber(item: Item, e: Execution, k: int)
    requires SingleDigitLegs(item.legs) && 0 <= k < |item.legs|
    requires e.side == Buy && e.filled <= 0 && e.tag == BuyTag(item.legs[k].index, item.code)
    ensures var leg := item.legs[k];
            ExecuteItem(item, e) ==
            if e.orderNo == "" then item
            else item.(legs := item.legs[k := leg.(orderNo := e.orderNo,
                   status := if leg.status == OrderSent && e.remaining > 0 then Unfilled else leg.status)])
  {
    TagNamesItsLegExactlyWhen(item.legs, k, item.code);
  }

  /** A fill that belongs to leg k adds its quantity there and leaves the leg FILLED
      exactly when nothing remains; every other leg stays, and so do the terms. */
  lemma FillMovesItsLeg(item: Item, e: Execution, k: int)
    requires SingleDigitLegs(item.legs) && 0 <= k < |item.legs|
    requires e.side == Buy && e.filled > 0 && e.tag == BuyTag(item.legs[k].index, item.code)
    ensures var item' := ExecuteItem(item, e);
            && |item'.legs| == |item.legs|
            && item'.legs[k].filled == item.legs[k].filled + e.filled && item'.legs[k].orderNo == e.orderNo
            && item'.legs[k].status == (if e.remaining == 0 then Filled else PartiallyFilled)
            && forall j :: 0 <= j < |item.legs| && j != k ==> item'.legs[j] == item.legs[j]
  {
    TagNamesItsLegExactlyWhen(item.legs, k, item.code);
    var noted := NoteOrderNo(item, e);
    IndicesKeepDigits(item.legs, noted.legs);
    TagNamesItsLegExactlyWhen(noted.legs, k, item.code);
  }

  /** A sale takes its quantity off the holding, down to nothing, and keeps the
      average while something is left; an execution that fills nothing moves neither. */
  lemma ExecutionMovesHolding(item: Item, e: Execution)
    ensures var item' := ExecuteItem(item, e);
            && (e.filled <= 0 ==> item'.holding == item.holding && item'.averagePrice == item.averagePrice)
            && (e.side == Sell && 0 < e.filled < item.holding ==>
                  item'.holding == item.holding - e.filled && item'.averagePrice == item.averagePrice)
            && (e.side == Sell && e.filled > 0 && item.holding <= e.filled ==> item'.holding == 0 && item'.averagePrice == 0.0)
            && (e.side == Buy && e.filled > 0 && item.holding >= 0 ==> item'.holding == item.holding + e.filled)
            && (e.side == OtherSide ==> item'.holding == item.holding && item'.averagePrice == item.averagePrice)
  {
  }
}
