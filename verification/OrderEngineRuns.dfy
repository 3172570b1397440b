/** Runs of the order engine: any sequence of prices and executions, with the
    terms of every item fixed. */
module OrderEngineRuns {
  import opened Common
  import opened TickRules
  import opened OrderEngine

  datatype Op = Price(gate: Gate, code: string, price: int) | Executed(e: Execution)

  function Step(s: Engine, reply: Reply, op: Op): Engine {
    match op
    case Price(gate, code, price) => OnPriceStep(s, gate, reply, code, price)
    case Executed(e) => OnExecutionStep(s, e)
  }

  /** The engine after the first m steps. */
  function Run(items: map<string, Item>, reply: Reply, ops: seq<Op>, m: nat): Engine
    requires m <= |ops|
  {
    if m == 0 then Engine(items, [], {}) else Step(Run(items, reply, ops, m - 1), reply, ops[m - 1])
  }

  // ----------------------------------------------------------- tags and legs

  ghost predicate DistinctLegs(legs: seq<Leg>) {
    forall i, j :: 0 <= i < j < |legs| ==> legs[i].index != legs[j].index
  }

  ghost predicate SingleDigitLegs(legs: seq<Leg>) {
    DistinctLegs(legs) && forall i :: 0 <= i < |legs| ==> 0 <= legs[i].index <= 9
  }

  lemma {:induction false} LegAtFinds(legs: seq<Leg>, k: int)
    requires DistinctLegs(legs) && 0 <= k < |legs|
    ensures LegAt(legs, legs[k].index) == k
  {
    if k > 0 {
      assert legs[0].index != legs[k].index;
      assert legs[1..][k - 1] == legs[k];
      LegAtFinds(legs[1..], k - 1);
    }
  }

  lemma DecimalIsNotEmpty(n: int)
    ensures Decimal(n) != ""
    ensures 0 <= n <= 9 ==> Decimal(n) == [Digit(n)]
    ensures n < 0 ==> Decimal(n)[0] == '-'
  {
  }

  /** The tag of a leg's order leads back to that leg exactly when its index is
      a single digit; any other index hits another leg or none. */
  lemma TagNamesItsLegExactlyWhen(legs: seq<Leg>, k: int, code: string)
    requires DistinctLegs(legs) && 0 <= k < |legs|
    ensures LegFromTag(legs, BuyTag(legs[k].index, code)) == k <==> 0 <= legs[k].index <= 9
  {
    var n := legs[k].index;
    DecimalIsNotEmpty(n);
    var tag := BuyTag(n, code);
    assert tag[..3] == "BUY" && tag[3] == Decimal(n)[0];
    if 0 <= n <= 9 {
      LegAtFinds(legs, k);
    }
  }

  // ------------------------------------------------------------------ budget

  /** What the accepted buy orders for a code amount to. */
  function Spent(sent: seq<Order>, code: string): int {
    if sent == [] then 0
    else
      var o := sent[|sent| - 1];
      Spent(sent[..|sent| - 1], code) + if o.code == code && o.side == Buy && o.accepted then o.quantity * o.price else 0
  }

  /** How many buy orders with a tag were accepted. */
  function Accepted(sent: seq<Order>, code: string, tag: string): nat {
    if sent == [] then 0
    else
      var o := sent[|sent| - 1];
      Accepted(sent[..|sent| - 1], code, tag)
      + if o.code == code && o.side == Buy && o.accepted && o.tag == tag then 1 else 0
  }

  /** The part of the budget that an active leg may have used. */
  function Share(budget: int, leg: Leg): (share: real)
    ensures share >= 0.0
  {
    if Active(leg.status) && leg.weight > 0.0 && budget > 0 then FullShare(budget, leg.weight) else 0.0
  }

  function FullShare(budget: int, weight: real): (share: real)
    ensures budget > 0 && weight > 0.0 ==> share >= 0.0
  {
    budget as real * (weight / 100.0)
  }

  function Shares(budget: int, legs: seq<Leg>): (total: real)
    ensures total >= 0.0
  {
    if legs == [] then 0.0 else Share(budget, legs[0]) + Shares(budget, legs[1..])
  }

  lemma {:induction false} SharesUpdate(budget: int, legs: seq<Leg>, k: int, leg: Leg)
    requires 0 <= k < |legs|
    ensures Shares(budget, legs[k := leg]) == Shares(budget, legs) - Share(budget, legs[k]) + Share(budget, leg)
  {
    var updated := legs[k := leg];
    if k == 0 {
      assert updated[1..] == legs[1..];
    } else {
      assert updated[1..] == legs[1..][k - 1 := leg];
      SharesUpdate(budget, legs[1..], k - 1, leg);
    }
  }

  /** With valid weights all shares together stay within the budget. */
  lemma {:induction false} SharesAreWithinWeights(budget: int, legs: seq<Leg>)
    requires budget > 0 && forall i :: 0 <= i < |legs| ==> legs[i].weight >= 0.0
    ensures Shares(budget, legs) <= FullShare(budget, Sum(Weights(legs)))
  {
    if legs != [] {
      SharesAreWithinWeights(budget, legs[1..]);
      assert Weights(legs)[1..] == Weights(legs[1..]);
      var w, rest := legs[0].weight, Sum(Weights(legs[1..]));
      FullShareAdds(budget, w, rest);
    }
  }

  lemma FullShareAdds(budget: int, v: real, w: real)
    ensures FullShare(budget, v + w) == FullShare(budget, v) + FullShare(budget, w)
  {
    assert (v + w) / 100.0 == v / 100.0 + w / 100.0;
    var b, x, y := budget as real, v / 100.0, w / 100.0;
    assert b * (x + y) == b * x + b * y;
  }

  lemma HundredPercent(budget: int, total: real)
    requires budget > 0 && total <= 100.0
    ensures FullShare(budget, total) <= budget as real
  {
    var b, x := budget as real, total / 100.0;
    assert x <= 1.0;
    assert b * (1.0 - x) >= 0.0;
    assert b * (1.0 - x) == b - b * x;
  }

  /** Terms that no event of a run changes. */
  ghost predicate SameTerms(a: Item, b: Item) {
    a.code == b.code && a.budget == b.budget && a.stopLossPrice == b.stopLossPrice && a.autoBuy == b.autoBuy
    && |a.legs| == |b.legs|
    && forall i :: 0 <= i < |a.legs| ==>
         a.legs[i].index == b.legs[i].index && a.legs[i].targetPrice == b.legs[i].targetPrice
         && a.legs[i].weight == b.legs[i].weight
  }

  lemma SameTermsKeepValidity(a: Item, b: Item)
    requires SameTerms(a, b)
    ensures ValidItem(a) <==> ValidItem(b)
    ensures SingleDigitLegs(a.legs) <==> SingleDigitLegs(b.legs)
    ensures Weights(a.legs) == Weights(b.legs)
  {
    assert Weights(a.legs) == Weights(b.legs);
  }

  /** The budget invariant of one item: what was accepted fits the shares of its
      active legs, and no leg has two accepted orders. */
  ghost predicate Safe(item: Item, sent: seq<Order>) {
    SingleDigitLegs(item.legs)
    && 0 <= Spent(sent, item.code) && Spent(sent, item.code) as real <= Shares(item.budget, item.legs)
    && (Spent(sent, item.code) > 0 ==> item.budget > 0 && ValidWeights(Weights(item.legs)))
    && forall k :: 0 <= k < |item.legs| ==> SafeLeg(item, sent, k)
  }

  predicate SafeLeg(item: Item, sent: seq<Order>, k: int)
    requires 0 <= k < |item.legs|
  {
    Accepted(sent, item.code, BuyTag(item.legs[k].index, item.code)) <= if Active(item.legs[k].status) then 1 else 0
  }

  lemma SafeMeansWithinBudget(item: Item, sent: seq<Order>)
    requires Safe(item, sent)
    ensures Spent(sent, item.code) == 0 || Spent(sent, item.code) <= item.budget
  {
    if Spent(sent, item.code) > 0 {
      assert forall i :: 0 <= i < |item.legs| ==> Weights(item.legs)[i] == item.legs[i].weight;
      SharesAreWithinWeights(item.budget, item.legs);
      HundredPercent(item.budget, Sum(Weights(item.legs)));
    }
  }

  lemma DifferentTags(a: int, b: int, code: string)
    requires 0 <= a <= 9 && 0 <= b <= 9 && a != b
    ensures BuyTag(a, code) != BuyTag(b, code)
  {
    DecimalIsNotEmpty(a);
    DecimalIsNotEmpty(b);
    assert BuyTag(a, code)[3] == Digit(a) && BuyTag(b, code)[3] == Digit(b);
  }

  /** What triggering one leg comes to: nothing sent, or one order whose answer
      leaves the leg UNFILLED or WAITING again. */
  lemma TriggerOutcome(gate: Gate, item: Item, sent: seq<Order>, reply: Reply, k: int)
    requires SingleDigitLegs(item.legs) && ValidItem(item) && 0 <= k < |item.legs|
    ensures var (item', sent') := TriggerLeg(gate, item, sent, reply, k);
            var order := LegOrder(item, item.legs[k], sent, reply);
            SameTerms(item, item')
            && (item' == item.(legs := item'.legs))
            && ((sent' == sent && item'.legs == item.legs)
                || (sent' == sent && !Active(item.legs[k].status) && item'.legs == item.legs[k := item.legs[k].(status := Watching)])
                || (sent' == sent + [order] && !Active(item.legs[k].status)
                    && item.legs[k].weight > 0.0 && item.legs[k].targetPrice > 0
                    && item'.legs == item.legs[k := item.legs[k].(ordered := order.quantity, status := if order.accepted then Unfilled else Waiting)]))
  {
    var leg := item.legs[k];
    var order := LegOrder(item, leg, sent, reply);
    var marked := item.(legs := item.legs[k := leg.(status := OrderSent, ordered := order.quantity)]);
    TagNamesItsLegExactlyWhen(marked.legs, k, item.code);
    assert marked.legs[k := marked.legs[k].(status := Unfilled)] == item.legs[k := leg.(ordered := order.quantity, status := Unfilled)];
    assert marked.legs[k := marked.legs[k].(status := Waiting)] == item.legs[k := leg.(ordered := order.quantity, status := Waiting)];
  }

  lemma SentOne(sent: seq<Order>, o: Order, code: string, tag: string)
    ensures Spent(sent + [o], code) == Spent(sent, code) + if o.code == code && o.side == Buy && o.accepted then o.quantity * o.price else 0
    ensures Accepted(sent + [o], code, tag)
            == Accepted(sent, code, tag) + if o.code == code && o.side == Buy && o.accepted && o.tag == tag then 1 else 0
  {
    assert (sent + [o])[..|sent|] == sent;
  }

  /** An order's cost fits its leg's full share of the budget. */
  lemma OrderFitsShare(item: Item, leg: Leg, sent: seq<Order>, reply: Reply)
    requires item.budget > 0 && leg.weight > 0.0 && leg.targetPrice > 0
    ensures var order := LegOrder(item, leg, sent, reply);
            0 <= order.quantity * order.price && (order.quantity * order.price) as real <= FullShare(item.budget, leg.weight)
  {
    var q := OrderQuantity(item.budget, leg.weight, leg.targetPrice);
    assert (q * leg.targetPrice) as real == q as real * leg.targetPrice as real;
    assert q * leg.targetPrice >= 0;
  }

  /** Changing one inactive leg to another status that is not active. */
  lemma IdleLegKeepsSafe(item: Item, sent: seq<Order>, k: int, leg: Leg)
    requires Safe(item, sent) && 0 <= k < |item.legs|
    requires !Active(item.legs[k].status) && !Active(leg.status)
    requires leg.index == item.legs[k].index && leg.weight == item.legs[k].weight && leg.targetPrice == item.legs[k].targetPrice
    ensures Safe(item.(legs := item.legs[k := leg]), sent)
  {
    var item' := item.(legs := item.legs[k := leg]);
    SharesUpdate(item.budget, item.legs, k, leg);
    SameTermsKeepValidity(item, item');
    forall j | 0 <= j < |item'.legs| ensures SafeLeg(item', sent, j) {
      assert SafeLeg(item, sent, j);
    }
  }

  lemma SafeDependsOnLegs(item: Item, item': Item, sent: seq<Order>)
    requires Safe(item, sent)
    requires item'.code == item.code && item'.budget == item.budget && item'.legs == item.legs
    ensures Safe(item', sent)
  {
    forall j | 0 <= j < |item'.legs| ensures SafeLeg(item', sent, j) {
      assert SafeLeg(item, sent, j);
    }
  }

  /** An accepted order for an inactive leg makes it active and uses its share. */
  lemma AcceptedOrderKeepsSafe(item: Item, sent: seq<Order>, k: int, leg: Leg, order: Order)
    requires Safe(item, sent) && ValidItem(item) && 0 <= k < |item.legs|
    requires !Active(item.legs[k].status) && Active(leg.status) && leg.weight > 0.0
    requires leg.index == item.legs[k].index && leg.weight == item.legs[k].weight && leg.targetPrice == item.legs[k].targetPrice
    requires order.code == item.code && order.side == Buy && order.accepted && order.tag == BuyTag(leg.index, item.code)
    requires 0 <= order.quantity * order.price && (order.quantity * order.price) as real <= FullShare(item.budget, leg.weight)
    ensures Safe(item.(legs := item.legs[k := leg]), sent + [order])
  {
    var item' := item.(legs := item.legs[k := leg]);
    SharesUpdate(item.budget, item.legs, k, leg);
    SameTermsKeepValidity(item, item');
    SentOne(sent, order, item.code, "");
    forall j | 0 <= j < |item'.legs| ensures SafeLeg(item', sent + [order], j) {
      assert SafeLeg(item, sent, j);
      SentOne(sent, order, item.code, BuyTag(item'.legs[j].index, item.code));
      if j != k {
        DifferentTags(item'.legs[j].index, leg.index, item.code);
      }
    }
  }

  /** Orders that were refused, are sales, or carry another code count for nothing. */
  lemma OtherOrderKeepsSafe(item: Item, sent: seq<Order>, order: Order)
    requires Safe(item, sent)
    requires order.code != item.code || order.side != Buy || !order.accepted
    ensures Safe(item, sent + [order])
  {
    SentOne(sent, order, item.code, "");
    forall j | 0 <= j < |item.legs| ensures SafeLeg(item, sent + [order], j) {
      assert SafeLeg(item, sent, j);
      SentOne(sent, order, item.code, BuyTag(item.legs[j].index, item.code));
    }
  }

  lemma TriggerLegKeepsSafe(gate: Gate, item: Item, sent: seq<Order>, reply: Reply, k: int)
    requires Safe(item, sent) && ValidItem(item) && 0 <= k < |item.legs|
    ensures var (item', sent') := TriggerLeg(gate, item, sent, reply, k);
            Safe(item', sent') && SameTerms(item, item') && ValidItem(item')
  {
    TriggerOutcome(gate, item, sent, reply, k);
    var (item', sent') := TriggerLeg(gate, item, sent, reply, k);
    SameTermsKeepValidity(item, item');
    var leg := item.legs[k];
    var order := LegOrder(item, leg, sent, reply);
    if sent' == sent {
      if item'.legs != item.legs {
        IdleLegKeepsSafe(item, sent, k, leg.(status := Watching));
      }
    } else if order.accepted {
      OrderFitsShare(item, leg, sent, reply);
      AcceptedOrderKeepsSafe(item, sent, k, leg.(ordered := order.quantity, status := Unfilled), order);
    } else {
      OtherOrderKeepsSafe(item, sent, order);
      IdleLegKeepsSafe(item, sent + [order], k, leg.(ordered := order.quantity, status := Waiting));
    }
  }

  predicate PlausiblePrices(item: Item) {
    Abs(item.currentPrice) <= 993_700_000 && forall i :: 0 <= i < |item.legs| ==> Abs(item.legs[i].targetPrice) <= 993_700_000
  }

  lemma TriggerKeepsPrices(gate: Gate, item: Item, sent: seq<Order>, reply: Reply, k: int)
    requires PlausiblePrices(item) && 0 <= k < |item.legs|
    ensures PlausiblePrices(TriggerLeg(gate, item, sent, reply, k).0)
    ensures !TooFar(item, item.legs[k])
  {
    GuardNeverFiresBelow(item.currentPrice, item.legs[k].targetPrice);
  }

  /** With prices up to 993,700,000 no distance check raises, so every leg gets
      its turn. */
  lemma {:induction false} PlausiblePricesRunThrough(gate: Gate, item: Item, sent: seq<Order>, reply: Reply, k: int)
    requires PlausiblePrices(item) && 0 <= k <= |item.legs|
    ensures TriggerFrom(gate, item, sent, reply, k).2
    decreases |item.legs| - k
  {
    if k < |item.legs| {
      TriggerKeepsPrices(gate, item, sent, reply, k);
      TriggerKeepsLegCount(gate, item, sent, reply, k);
      var (item', sent') := TriggerLeg(gate, item, sent, reply, k);
      PlausiblePricesRunThrough(gate, item', sent', reply, k + 1);
    }
  }

  lemma {:induction false} TriggerFromKeepsSafe(gate: Gate, item: Item, sent: seq<Order>, reply: Reply, k: int)
    requires Safe(item, sent) && ValidItem(item) && 0 <= k <= |item.legs|
    ensures var (item', sent', ok) := TriggerFrom(gate, item, sent, reply, k);
            Safe(item', sent') && SameTerms(item, item')
    decreases |item.legs| - k
  {
    if k < |item.legs| {
      TriggerLegKeepsSafe(gate, item, sent, reply, k);
      TriggerKeepsLegCount(gate, item, sent, reply, k);
      var (item', sent') := TriggerLeg(gate, item, sent, reply, k);
      TriggerFromKeepsSafe(gate, item', sent', reply, k + 1);
    }
  }

  lemma TakeProfitKeepsSafe(gate: Gate, item: Item, sent: seq<Order>, reply: Reply)
    requires Safe(item, sent)
    ensures var (item', sent') := TakeProfit(gate, item, sent, reply);
            Safe(item', sent') && SameTerms(item, item')
  {
    var (item', sent') := TakeProfit(gate, item, sent, reply);
    SafeDependsOnLegs(item, item', sent);
    if sent' != sent {
      OtherOrderKeepsSafe(item', sent, sent'[|sent|]);
    }
  }

  lemma PriceKeepsSafe(gate: Gate, item: Item, sent: seq<Order>, reply: Reply, price: int)
    requires Safe(item, sent)
    ensures var (item', sent') := PriceItem(gate, item, sent, reply, price);
            Safe(item', sent') && SameTerms(item, item')
  {
    var priced := item.(currentPrice := Abs(price));
    SafeDependsOnLegs(item, priced, sent);
    if gate.orderingEnabled && item.autoBuy && gate.account != "" && ValidItem(priced) {
      TriggerFromKeepsSafe(gate, priced, sent, reply, 0);
    }
    var (item', sent', ok) := BuyTriggers(gate, priced, sent, reply);
    TakeProfitKeepsSafe(gate, item', sent', reply);
  }

  /** No leg that has its order goes back to wait for one. */
  ghost predicate KeepsActive(a: Item, b: Item) {
    SameTerms(a, b) && forall k :: 0 <= k < |a.legs| && Active(a.legs[k].status) ==> Active(b.legs[k].status)
  }

  lemma NoteKeepsActive(item: Item, e: Execution)
    ensures KeepsActive(item, NoteOrderNo(item, e))
  {
  }

  lemma FillKeepsActive(item: Item, e: Execution)
    ensures KeepsActive(item, FillLeg(item, e))
  {
  }

  lemma ExecutionKeepsLegs(item: Item, e: Execution)
    ensures KeepsActive(item, ExecuteItem(item, e))
  {
    NoteKeepsActive(item, e);
    var noted := NoteOrderNo(item, e);
    var (holding, average) := Hold(noted.holding, noted.averagePrice, e);
    FillKeepsActive(noted.(holding := holding, averagePrice := average), e);
  }

  lemma {:induction false} SharesGrow(budget: int, legs: seq<Leg>, legs': seq<Leg>)
    requires |legs| == |legs'|
    requires forall k :: 0 <= k < |legs| ==> legs'[k].weight == legs[k].weight && (Active(legs[k].status) ==> Active(legs'[k].status))
    ensures Shares(budget, legs) <= Shares(budget, legs')
  {
    if legs != [] {
      SharesGrow(budget, legs[1..], legs'[1..]);
    }
  }

  lemma ExecutionKeepsSafe(item: Item, sent: seq<Order>, e: Execution)
    requires Safe(item, sent)
    ensures Safe(ExecuteItem(item, e), sent) && SameTerms(item, ExecuteItem(item, e))
  {
    ExecutionKeepsLegs(item, e);
    SharesGrow(item.budget, item.legs, ExecuteItem(item, e).legs);
    SameTermsKeepValidity(item, ExecuteItem(item, e));
    forall k | 0 <= k < |item.legs| ensures SafeLeg(ExecuteItem(item, e), sent, k) {
      assert SafeLeg(item, sent, k);
    }
  }

  /** sent' is sent with more orders of one code. */
  ghost predicate AppendsOnly(sent: seq<Order>, sent': seq<Order>, code: string) {
    |sent| <= |sent'| && sent'[..|sent|] == sent && forall i :: |sent| <= i < |sent'| ==> sent'[i].code == code
  }

  lemma {:induction false} TriggerFromAppends(gate: Gate, item: Item, sent: seq<Order>, reply: Reply, k: int)
    requires 0 <= k <= |item.legs|
    ensures var (item', sent', ok) := TriggerFrom(gate, item, sent, reply, k);
            item'.code == item.code && AppendsOnly(sent, sent', item.code)
    decreases |item.legs| - k
  {
    if k < |item.legs| {
      TriggerKeepsLegCount(gate, item, sent, reply, k);
      var (item', sent') := TriggerLeg(gate, item, sent, reply, k);
      assert item'.code == item.code && AppendsOnly(sent, sent', item.code);
      TriggerFromAppends(gate, item', sent', reply, k + 1);
      var last := TriggerFrom(gate, item', sent', reply, k + 1).1;
      assert last[..|sent|] == last[..|sent'|][..|sent|];
    }
  }

  lemma PriceAppends(gate: Gate, item: Item, sent: seq<Order>, reply: Reply, price: int)
    ensures var (item', sent') := PriceItem(gate, item, sent, reply, price);
            item'.code == item.code && AppendsOnly(sent, sent', item.code)
  {
    var priced := item.(currentPrice := Abs(price));
    TriggerFromAppends(gate, priced, sent, reply, 0);
    var (item', sent', ok) := BuyTriggers(gate, priced, sent, reply);
    var last := TakeProfit(gate, item', sent', reply).1;
    assert last[..|sent|] == last[..|sent'|][..|sent|];
  }

  lemma {:induction false} OtherOrdersKeepSafe(item: Item, sent: seq<Order>, sent': seq<Order>, code: string)
    requires Safe(item, sent) && AppendsOnly(sent, sent', code) && item.code != code
    ensures Safe(item, sent')
    decreases |sent'|
  {
    if |sent| < |sent'| {
      var n := |sent'| - 1;
      assert sent'[..n][..|sent|] == sent;
      OtherOrdersKeepSafe(item, sent, sent'[..n], code);
      OtherOrderKeepsSafe(item, sent'[..n], sent'[n]);
      assert sent' == sent'[..n] + [sent'[n]];
    } else {
      assert sent' == sent;
    }
  }

  ghost predicate AllSafe(s: Engine) {
    forall c :: c in s.items ==> s.items[c].code == c && Safe(s.items[c], s.sent)
  }

  lemma SameTermsCompose(a: Item, b: Item, c: Item)
    requires SameTerms(a, b) && SameTerms(b, c)
    ensures SameTerms(a, c)
  {
  }

  /** The same items, each with its terms. */
  ghost predicate KeepsTerms(items: map<string, Item>, items': map<string, Item>) {
    items'.Keys == items.Keys && forall c :: c in items ==> SameTerms(items[c], items'[c])
  }

  lemma KeepsTermsOnward(a: map<string, Item>, b: map<string, Item>, c: map<string, Item>)
    requires KeepsTerms(a, b) && KeepsTerms(b, c)
    ensures KeepsTerms(a, c)
  {
    forall code | code in a ensures SameTerms(a[code], c[code]) {
      SameTermsCompose(a[code], b[code], c[code]);
    }
  }

  lemma StepKeepsSafe(s: Engine, reply: Reply, op: Op)
    requires AllSafe(s)
    ensures AllSafe(Step(s, reply, op)) && KeepsTerms(s.items, Step(s, reply, op).items)
  {
    match op
    case Executed(e) =>
      if e.code in s.items {
        ExecutionKeepsSafe(s.items[e.code], s.sent, e);
      }
    case Price(gate, code, price) =>
      if code in s.items {
        PriceKeepsSafe(gate, s.items[code], s.sent, reply, price);
        PriceAppends(gate, s.items[code], s.sent, reply, price);
        var sent' := PriceItem(gate, s.items[code], s.sent, reply, price).1;
        forall c | c in s.items && c != code ensures Safe(s.items[c], sent') {
          OtherOrdersKeepSafe(s.items[c], s.sent, sent', code);
        }
      }
  }

  lemma {:induction false} RunKeepsSafe(items: map<string, Item>, reply: Reply, ops: seq<Op>, m: nat)
    requires m <= |ops| && forall c :: c in items ==> items[c].code == c && SingleDigitLegs(items[c].legs)
    ensures AllSafe(Run(items, reply, ops, m)) && KeepsTerms(items, Run(items, reply, ops, m).items)
  {
    if m > 0 {
      var before := Run(items, reply, ops, m - 1);
      RunKeepsSafe(items, reply, ops, m - 1);
      StepKeepsSafe(before, reply, ops[m - 1]);
      KeepsTermsOnward(items, before.items, Run(items, reply, ops, m).items);
    }
  }

  /** Over any run of prices, answers and executions no leg ever has two accepted
      buy orders, and what was accepted for an item costs at most its budget. */
  lemma BudgetIsNeverExceeded(items: map<string, Item>, reply: Reply, ops: seq<Op>, m: nat, code: string)
    requires m <= |ops| && forall c :: c in items ==> items[c].code == c && SingleDigitLegs(items[c].legs)
    requires code in items
    ensures var sent := Run(items, reply, ops, m).sent;
            && (Spent(sent, code) == 0 || Spent(sent, code) <= items[code].budget)
            && forall k :: 0 <= k < |items[code].legs| ==> Accepted(sent, code, BuyTag(items[code].legs[k].index, code)) <= 1
  {
    RunKeepsSafe(items, reply, ops, m);
    var s := Run(items, reply, ops, m);
    var item := s.items[code];
    assert SameTerms(items[code], item);
    SafeMeansWithinBudget(item, s.sent);
    forall k | 0 <= k < |items[code].legs|
      ensures Accepted(s.sent, code, BuyTag(items[code].legs[k].index, code)) <= 1
    {
      assert SafeLeg(item, s.sent, k);
    }
  }

  /** A buy order made from a leg's terms: its tag, its target price, and the
      quantity its weight buys at that price. */
  ghost predicate FromLeg(item: Item, o: Order) {
    exists k :: 0 <= k < |item.legs|
      && o.tag == BuyTag(item.legs[k].index, item.code) && o.price == item.legs[k].targetPrice
      && o.quantity == OrderQuantity(item.budget, item.legs[k].weight, item.legs[k].targetPrice)
  }

  ghost predicate AllFromLegs(item: Item, sent: seq<Order>) {
    forall i :: 0 <= i < |sent| && sent[i].code == item.code && sent[i].side == Buy ==> FromLeg(item, sent[i])
  }

  lemma SameTermsKeepFromLeg(a: Item, b: Item, sent: seq<Order>)
    requires SameTerms(a, b) && AllFromLegs(a, sent)
    ensures AllFromLegs(b, sent)
  {
    forall i | 0 <= i < |sent| && sent[i].code == b.code && sent[i].side == Buy ensures FromLeg(b, sent[i]) {
      assert FromLeg(a, sent[i]);
      var k :| 0 <= k < |a.legs| && sent[i].tag == BuyTag(a.legs[k].index, a.code) && sent[i].price == a.legs[k].targetPrice
        && sent[i].quantity == OrderQuantity(a.budget, a.legs[k].weight, a.legs[k].targetPrice);
      assert b.legs[k].index == a.legs[k].index;
    }
  }

  lemma StatusKeepsTerms(item: Item, k: int, status: LegStatus)
    requires 0 <= k < |item.legs|
    ensures SameTerms(item, SetStatus(item, k, status))
  {
  }

  lemma AnswerKeepsTerms(item: Item, order: Order)
    ensures SameTerms(item, AfterResult(item, order))
  {
    var k := LegFromTag(item.legs, order.tag);
    if k >= 0 {
      StatusKeepsTerms(item, k, if order.accepted then Unfilled else Waiting);
    }
  }

  lemma TriggerLegTerms(gate: Gate, item: Item, sent: seq<Order>, reply: Reply, k: int)
    requires 0 <= k < |item.legs|
    ensures var (item', sent') := TriggerLeg(gate, item, sent, reply, k);
            SameTerms(item, item') && (sent' == sent || sent' == sent + [LegOrder(item, item.legs[k], sent, reply)])
  {
    var order := LegOrder(item, item.legs[k], sent, reply);
    var marked := item.(legs := item.legs[k := item.legs[k].(status := OrderSent, ordered := order.quantity)]);
    StatusKeepsTerms(item, k, Watching);
    assert SameTerms(item, marked);
    AnswerKeepsTerms(marked, order);
  }

  lemma TriggerLegFromLeg(gate: Gate, item: Item, sent: seq<Order>, reply: Reply, k: int)
    requires 0 <= k < |item.legs| && AllFromLegs(item, sent)
    ensures var (item', sent') := TriggerLeg(gate, item, sent, reply, k); SameTerms(item, item') && AllFromLegs(item', sent')
  {
    TriggerLegTerms(gate, item, sent, reply, k);
    var (item', sent') := TriggerLeg(gate, item, sent, reply, k);
    if sent' != sent {
      assert FromLeg(item, LegOrder(item, item.legs[k], sent, reply));
    }
    SameTermsKeepFromLeg(item, item', sent');
  }

  lemma {:induction false} TriggerFromFromLeg(gate: Gate, item: Item, sent: seq<Order>, reply: Reply, k: int)
    requires 0 <= k <= |item.legs| && AllFromLegs(item, sent)
    ensures var (item', sent', ok) := TriggerFrom(gate, item, sent, reply, k); SameTerms(item, item') && AllFromLegs(item', sent')
    decreases |item.legs| - k
  {
    if k < |item.legs| {
      TriggerKeepsLegCount(gate, item, sent, reply, k);
      TriggerLegFromLeg(gate, item, sent, reply, k);
      var (item', sent') := TriggerLeg(gate, item, sent, reply, k);
      TriggerFromFromLeg(gate, item', sent', reply, k + 1);
      SameTermsCompose(item, item', TriggerFrom(gate, item', sent', reply, k + 1).0);
    }
  }

  lemma PriceFromLeg(gate: Gate, item: Item, sent: seq<Order>, reply: Reply, price: int)
    requires AllFromLegs(item, sent)
    ensures var (item', sent') := PriceItem(gate, item, sent, reply, price); SameTerms(item, item') && AllFromLegs(item', sent')
  {
    var priced := item.(currentPrice := Abs(price));
    SameTermsKeepFromLeg(item, priced, sent);
    TriggerFromFromLeg(gate, priced, sent, reply, 0);
    var (item', sent', ok) := BuyTriggers(gate, priced, sent, reply);
    var (item'', sent'') := TakeProfit(gate, item', sent', reply);
    assert AllFromLegs(item', sent'');
    SameTermsKeepFromLeg(item', item'', sent'');
  }

  lemma StepKeepsFromLeg(s: Engine, reply: Reply, op: Op, code: string)
    requires forall c :: c in s.items ==> s.items[c].code == c
    requires code in s.items && AllFromLegs(s.items[code], s.sent)
    ensures var s' := Step(s, reply, op);
            code in s'.items && SameTerms(s.items[code], s'.items[code]) && AllFromLegs(s'.items[code], s'.sent)
  {
    match op
    case Executed(e) =>
      if e.code == code {
        ExecutionKeepsLegs(s.items[code], e);
        SameTermsKeepFromLeg(s.items[code], ExecuteItem(s.items[code], e), s.sent);
      }
    case Price(gate, c, price) =>
      if c == code {
        PriceFromLeg(gate, s.items[c], s.sent, reply, price);
      } else if c in s.items {
        PriceAppends(gate, s.items[c], s.sent, reply, price);
        var sent' := PriceItem(gate, s.items[c], s.sent, reply, price).1;
        forall i | 0 <= i < |sent'| && sent'[i].code == code && sent'[i].side == Buy ensures FromLeg(s.items[code], sent'[i]) {
          assert sent'[i] == sent'[..|s.sent|][i];
        }
      }
  }

  /** Every buy order a run ever sends is made from the fixed terms of one leg. */
  lemma {:induction false} OrdersKeepToTheirTerms(items: map<string, Item>, reply: Reply, ops: seq<Op>, m: nat, code: string)
    requires m <= |ops| && forall c :: c in items ==> items[c].code == c && SingleDigitLegs(items[c].legs)
    requires code in items
    ensures AllFromLegs(items[code], Run(items, reply, ops, m).sent)
  {
    if m > 0 {
      var before, after := Run(items, reply, ops, m - 1), Run(items, reply, ops, m);
      OrdersKeepToTheirTerms(items, reply, ops, m - 1, code);
      RunKeepsSafe(items, reply, ops, m - 1);
      SameTermsKeepFromLeg(items[code], before.items[code], before.sent);
      StepKeepsFromLeg(before, reply, ops[m - 1], code);
      RunKeepsSafe(items, reply, ops, m);
      SameTermsKeepFromLeg(after.items[code], items[code], after.sent);
    }
  }

  /** Why the indices must be single digits: refusing the order of leg 10 sends
      leg 1 back to wait, even if leg 1 has its order. */
  lemma RefusingLegTenReopensLegOne(item: Item, j: int, order: Order)
    requires DistinctLegs(item.legs) && 0 <= j < |item.legs| && item.legs[j].index == 1
    requires order.side == Buy && !order.accepted && order.tag == BuyTag(10, item.code)
    ensures |AfterResult(item, order).legs| == |item.legs| && AfterResult(item, order).legs[j].status == Waiting
  {
    assert Decimal(10) == Decimal(1) + [Digit(0)];
    assert order.tag[..3] == "BUY" && order.tag[3] == '1';
    LegAtFinds(item.legs, j);
  }

  // -------------------------------------------------------------- cost basis

  /** Holding and average after a sequence of executions of one item, from flat. */
  function HoldAfter(es: seq<Execution>): (int, real) {
    if es == [] then (0, 0.0)
    else
      var (holding, average) := HoldAfter(es[..|es| - 1]);
      Hold(holding, average, es[|es| - 1])
  }

  predicate BuyFill(e: Execution) {
    e.side == Buy && e.filled > 0
  }

  /** The prices of the buy fills since the holding was last zero. */
  function PricesSinceFlat(es: seq<Execution>): seq<int> {
    if es == [] || HoldAfter(es).0 == 0 then []
    else
      var e := es[|es| - 1];
      PricesSinceFlat(es[..|es| - 1]) + if BuyFill(e) then [e.price] else []
  }

  lemma {:induction false} HoldingNeverNegative(es: seq<Execution>)
    ensures HoldAfter(es).0 >= 0
    ensures HoldAfter(es).0 == 0 ==> HoldAfter(es).1 == 0.0
    ensures HoldAfter(es).0 > 0 ==> PricesSinceFlat(es) != []
  {
    if es != [] {
      HoldingNeverNegative(es[..|es| - 1]);
    }
  }

  lemma HoldOneMore(es: seq<Execution>, e: Execution)
    ensures HoldAfter(es + [e]) == Hold(HoldAfter(es).0, HoldAfter(es).1, e)
  {
    assert (es + [e])[..|es|] == es;
  }

  /** What a holding cost: average times quantity. */
  function Cost(held: (int, real)): real {
    held.1 * held.0 as real
  }

  function FillCost(e: Execution): real {
    e.price as real * e.filled as real
  }

  /** A buy fill keeps the cost: holding times average grows by price times quantity. */
  lemma BuyKeepsCost(es: seq<Execution>, e: Execution)
    requires BuyFill(e)
    ensures HoldAfter(es + [e]).0 == HoldAfter(es).0 + e.filled
    ensures Cost(HoldAfter(es + [e])) == Cost(HoldAfter(es)) + FillCost(e)
  {
    HoldingNeverNegative(es);
    HoldOneMore(es, e);
    BuyJoinsHolding(HoldAfter(es), e);
  }

  lemma BuyJoinsHolding(held: (int, real), e: Execution)
    requires held.0 >= 0 && BuyFill(e)
    ensures Hold(held.0, held.1, e).0 == held.0 + e.filled
    ensures Cost(Hold(held.0, held.1, e)) == Cost(held) + FillCost(e)
  {
    BlendTimesHolding(held.1, held.0, e.price, e.filled);
  }

  lemma BlendTimesHolding(average: real, holding: int, price: int, filled: int)
    requires holding + filled != 0
    ensures Blend(average, holding, price, filled) * (holding + filled) as real == average * holding as real + price as real * filled as real
  {
  }

  /** A blend lies between its two prices. */
  lemma BlendIsBetween(average: real, holding: int, price: int, filled: int, lo: real, hi: real)
    requires holding >= 0 && filled > 0
    requires lo <= price as real <= hi && (holding > 0 ==> lo <= average <= hi)
    ensures lo <= Blend(average, holding, price, filled) <= hi
  {
    var h, f, p := holding as real, filled as real, price as real;
    var blend := Blend(average, holding, price, filled);
    BlendTimesHolding(average, holding, price, filled);
    assert (holding + filled) as real == h + f;
    MeanIsAtLeast(h, average, f, p, blend, lo);
    MeanIsAtLeast(h, -average, f, -p, -blend, -hi);
  }

  lemma MeanIsAtLeast(h: real, a: real, f: real, p: real, mean: real, lo: real)
    requires h >= 0.0 && f > 0.0 && p >= lo && (h > 0.0 ==> a >= lo)
    requires mean * (h + f) == a * h + p * f
    ensures mean >= lo
  {
    Product(f, p - lo);
    if h > 0.0 {
      Product(h, a - lo);
    }
    assert (h + f) * (mean - lo) == h * (a - lo) + f * (p - lo);
    SignOfFactor(h + f, mean - lo);
  }

  lemma SignOfFactor(x: real, y: real)
    requires x > 0.0 && x * y >= 0.0
    ensures y >= 0.0
  {
  }

  lemma Product(x: real, y: real)
    requires x >= 0.0 && y >= 0.0
    ensures x * y >= 0.0
  {
  }

  /** While something is held, its average price lies between the least and the
      greatest buy price since the holding was last zero. */
  lemma {:induction false} AverageIsWithinBuyPrices(es: seq<Execution>, lo: real, hi: real)
    requires HoldAfter(es).0 > 0
    requires forall i :: 0 <= i < |PricesSinceFlat(es)| ==> lo <= PricesSinceFlat(es)[i] as real <= hi
    ensures lo <= HoldAfter(es).1 <= hi
  {
    var before := es[..|es| - 1];
    var e := es[|es| - 1];
    HoldingNeverNegative(before);
    var (h, a) := HoldAfter(before);
    var prices, earlier := PricesSinceFlat(es), PricesSinceFlat(before);
    if h > 0 {
      assert forall i :: 0 <= i < |earlier| ==> prices[i] == earlier[i];
      AverageIsWithinBuyPrices(before, lo, hi);
    }
    if BuyFill(e) {
      assert prices[|prices| - 1] == e.price;
      BlendIsBetween(a, h, e.price, e.filled, lo, hi);
    }
  }

  /** The executions of one code in the first m steps. */
  function ExecutionsOf(ops: seq<Op>, m: nat, code: string): seq<Execution>
    requires m <= |ops|
  {
    if m == 0 then []
    else if ops[m - 1].Executed? && ops[m - 1].e.code == code then ExecutionsOf(ops, m - 1, code) + [ops[m - 1].e]
    else ExecutionsOf(ops, m - 1, code)
  }

  lemma {:induction false} TriggersKeepHolding(gate: Gate, item: Item, sent: seq<Order>, reply: Reply, k: int)
    requires 0 <= k <= |item.legs|
    ensures var item' := TriggerFrom(gate, item, sent, reply, k).0;
            item'.holding == item.holding && item'.averagePrice == item.averagePrice
    decreases |item.legs| - k
  {
    if k < |item.legs| {
      TriggerKeepsLegCount(gate, item, sent, reply, k);
      var (item', sent') := TriggerLeg(gate, item, sent, reply, k);
      TriggersKeepHolding(gate, item', sent', reply, k + 1);
    }
  }

  lemma PriceKeepsHolding(gate: Gate, item: Item, sent: seq<Order>, reply: Reply, price: int)
    ensures var item' := PriceItem(gate, item, sent, reply, price).0;
            item'.holding == item.holding && item'.averagePrice == item.averagePrice
  {
    TriggersKeepHolding(gate, item.(currentPrice := Abs(price)), sent, reply, 0);
  }

  function HoldingOf(item: Item): (int, real) {
    (item.holding, item.averagePrice)
  }

  lemma StepOnHolding(s: Engine, reply: Reply, op: Op, code: string)
    requires code in s.items
    ensures code in Step(s, reply, op).items
    ensures HoldingOf(Step(s, reply, op).items[code]) ==
              if op.Executed? && op.e.code == code then Hold(s.items[code].holding, s.items[code].averagePrice, op.e)
              else HoldingOf(s.items[code])
  {
    match op
    case Executed(e) =>
    case Price(gate, c, price) =>
      if c == code {
        PriceKeepsHolding(gate, s.items[c], s.sent, reply, price);
      }
  }

  /** In the engine, holding and average of an item that starts flat are those of
      its executions alone, whatever prices, orders and other items do between. */
  lemma {:induction false} HoldingFollowsExecutions(items: map<string, Item>, reply: Reply, ops: seq<Op>, m: nat, code: string)
    requires m <= |ops| && code in items && items[code].holding == 0 && items[code].averagePrice == 0.0
    ensures code in Run(items, reply, ops, m).items
    ensures HoldingOf(Run(items, reply, ops, m).items[code]) == HoldAfter(ExecutionsOf(ops, m, code))
  {
    if m > 0 {
      HoldingFollowsExecutions(items, reply, ops, m - 1, code);
      StepOnHolding(Run(items, reply, ops, m - 1), reply, ops[m - 1], code);
      if ops[m - 1].Executed? && ops[m - 1].e.code == code {
        HoldOneMore(ExecutionsOf(ops, m - 1, code), ops[m - 1].e);
      }
    }
  }
}
