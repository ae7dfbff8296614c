/**
Order matching through deferred events: the matcher (src/OrderMatcher.cpp), the execution and match events
(src/ExecutionDeferedEvent.cpp, src/MatchOrderDeferedEvent.cpp) and the loop that drains them
(src/Processor.cpp), one chain at a time.
*/
module Matching {
  import opened Common
  import opened BookModel
  import opened OrderBookClass
  import opened OrderMachine
  import opened OrderRuns
  import opened OrderWorld

  // ---------------------------------------------------------------- searching the opposite side

  /** A resting price that an order of `side` at `limit` may trade with. */
  predicate Crosses(side: Side, limit: real, price: real) {
    if side.Buy? then limit >= price else limit <= price
  }

  /** FindOpositeOrder::match. */
  function FindOpposite(o: Order, orders: map<OrderId, Order>, id: OrderId): Verdict {
    if id !in orders || orders[id].leaves == 0 then Verdict(false, false)
    else if o.market || orders[id].market then Verdict(true, false)
    else if Crosses(o.side, o.price, orders[id].price) then Verdict(true, false)
    else Verdict(false, true)
  }

  function Opposing(o: Order, orders: map<OrderId, Order>): Functor {
    (id: OrderId) => FindOpposite(o, orders, id)
  }

  /** For a sorted side without market orders whose keys are the stored prices, stopping at the first price out
      of reach finds exactly what a scan of the whole side would find. */
  lemma EarlyStopIsSound(o: Order, orders: map<OrderId, Order>, list: seq<Entry>)
    requires SortedSide(Opposite(o.side), list)
    requires forall i :: 0 <= i < |list| && list[i].id in orders ==>
               orders[list[i].id].price == list[i].price && !orders[list[i].id].market
    ensures FirstFound(list, Opposing(o, orders)) ==
            FullScan(list, (id: OrderId) => FindOpposite(o, orders, id).accept)
  {
    var f := Opposing(o, orders);
    forall i, j | 0 <= i < j < |list| && f(list[i].id).stop
      ensures !f(list[j].id).accept
    {
      assert !Before(Opposite(o.side), list[j].price, list[i].price);
    }
    StopIsSound(list, f);
    SameScan(list, (id: OrderId) => f(id).accept, (id: OrderId) => FindOpposite(o, orders, id).accept);
  }

  lemma {:induction false} SameScan(list: seq<Entry>, p: OrderId -> bool, q: OrderId -> bool)
    requires forall i :: 0 <= i < |list| ==> p(list[i].id) == q(list[i].id)
    ensures FullScan(list, p) == FullScan(list, q)
  {
    if list != [] {
      SameScan(list[1..], p, q);
    }
  }

  /** An order that has something left to trade. */
  predicate Eligible(orders: map<OrderId, Order>, id: OrderId) {
    id in orders && orders[id].leaves > 0
  }

  /** The prices of the two orders agree: a market order takes any price. */
  predicate Agree(o: Order, contra: Order) {
    o.market || contra.market || Crosses(o.side, o.price, contra.price)
  }

  /** The position of the first entry with something left, or the end of the list. */
  function FirstEligible(list: seq<Entry>, orders: map<OrderId, Order>): (k: nat)
    ensures k <= |list| && (k < |list| ==> Eligible(orders, list[k].id))
    ensures forall i :: 0 <= i < k ==> !Eligible(orders, list[i].id)
  {
    if list == [] || Eligible(orders, list[0].id) then 0 else 1 + FirstEligible(list[1..], orders)
  }

  /** Whatever the list: only the first entry with something left decides, by whether the prices agree. */
  lemma {:induction false} SearchIs(o: Order, orders: map<OrderId, Order>, list: seq<Entry>)
    ensures var k := FirstEligible(list, orders);
            FirstFound(list, Opposing(o, orders)) ==
            if k < |list| && Agree(o, orders[list[k].id]) then list[k].id else NO_ORDER
  {
    if list != [] && !Eligible(orders, list[0].id) {
      SearchIs(o, orders, list[1..]);
      var k := FirstEligible(list[1..], orders);
      assert k < |list[1..]| ==> list[1..][k] == list[k + 1];
    }
  }

  /** On a sorted side without market orders whose keys are the stored prices, that is the best contra: if any entry
      has something left at a price in reach, the result is the first such entry, and nothing with something left has a
      better price; otherwise there is none. */
  lemma BestPriceFirst(o: Order, orders: map<OrderId, Order>, list: seq<Entry>, i: nat)
    requires SortedSide(Opposite(o.side), list)
    requires forall j :: 0 <= j < |list| && list[j].id in orders ==>
               orders[list[j].id].price == list[j].price && !orders[list[j].id].market
    requires i < |list| && Eligible(orders, list[i].id)
    ensures var k := FirstEligible(list, orders);
            && k <= i && !Before(Opposite(o.side), list[i].price, list[k].price)
            && (Agree(o, orders[list[i].id]) ==> FirstFound(list, Opposing(o, orders)) == list[k].id)
  {
    hide FirstFound, FirstEligible;
    SearchIs(o, orders, list);
    var k := FirstEligible(list, orders);
    assert k < i ==> !Before(Opposite(o.side), list[i].price, list[k].price);
  }

  // ---------------------------------------------------------------- deferred events

  datatype Trade = Trade(contra: OrderId, qty: Quantity, px: real)

  datatype Deferred =
    | Execution(base: OrderId, trades: seq<Trade>)
    | MatchAgain(order: OrderId)
    | CancelOrder(order: OrderId)

  function Min(a: Quantity, b: Quantity): Quantity {
    if a <= b then a else b
  }

  function BestContra(w: World, id: OrderId): OrderId
    requires id in w.orders
  {
    var o := w.orders[id];
    FirstFound(w.book.On(Opposite(o.side)), Opposing(o, w.orders))
  }

  /** The events one round of matching appends; None stands for the exception of two orders without price. */
  function MatchEvents(w: World, id: OrderId): Option<seq<Deferred>>
    requires id in w.orders
  {
    var o, c := w.orders[id], BestContra(w, id);
    if c == NO_ORDER || c !in w.orders then Some(if o.market then [CancelOrder(id)] else [])
    else
      var contra := w.orders[c];
      var qty := Min(o.leaves, contra.leaves);
      if contra.price == 0.0 && o.price == 0.0 then None
      else Some([Execution(id, [Trade(c, qty, contra.price)])] + if o.leaves > qty then [MatchAgain(id)] else [])
  }

  /** The contra of an order: the first entry of the other side with something left, if the prices agree. */
  function ContraOf(w: World, id: OrderId): Option<OrderId>
    requires id in w.orders
  {
    var list := w.book.On(Opposite(w.orders[id].side));
    var k := FirstEligible(list, w.orders);
    if k < |list| && Agree(w.orders[id], w.orders[list[k].id]) then Some(list[k].id) else None
  }

  /** A round of matching, for limit and market orders.  With a contra both trade all that the smaller one has left, at
      the contra's price, and the order is matched again if it has more; two orders without a price cannot trade.
      Without one a market order, and no other, is to be cancelled. */
  lemma RoundIs(w: World, id: OrderId)
    requires id in w.orders && ContraOf(w, id) != Some(NO_ORDER)
    ensures var o, c := w.orders[id], ContraOf(w, id);
            if c.None? then MatchEvents(w, id) == Some(if o.market then [CancelOrder(id)] else [])
            else
              c.value in w.orders &&
              var contra := w.orders[c.value];
              MatchEvents(w, id) ==
                if contra.price == 0.0 && o.price == 0.0 then None
                else if o.leaves <= contra.leaves then Some([Execution(id, [Trade(c.value, o.leaves, contra.price)])])
                else Some([Execution(id, [Trade(c.value, contra.leaves, contra.price)]), MatchAgain(id)])
  {
    hide FirstFound, FirstEligible;
    SearchIs(w.orders[id], w.orders, w.book.On(Opposite(w.orders[id].side)));
    assert forall e: Deferred :: [e] + [] == [e];
    assert forall e: Deferred, f: Deferred :: [e] + [f] == [e, f];
  }

  function Wrapped(n: nat): Quantity {
    n % U32
  }

  /** What a quantity costs at a price. */
  function Amount(q: Quantity, px: real): real {
    q as real * px
  }

  function Average(notional: real, q: Quantity): real
    requires q > 0
  {
    notional / q as real
  }

  /** What the contra fills of an execution add up to. */
  datatype Tally = Tally(world: World, qty: Quantity, notional: real)

  predicate Fillable(w: World, trades: seq<Trade>) {
    forall i :: 0 <= i < |trades| ==> trades[i].contra in w.orders
  }

  function FillContras(w: World, trades: seq<Trade>): Tally
    requires Fillable(w, trades)
    ensures FillContras(w, trades).world.orders.Keys == w.orders.Keys
  {
    if trades == [] then Tally(w, 0, 0.0)
    else
      var before, t := FillContras(w, trades[..|trades| - 1]), trades[|trades| - 1];
      var after := Step(before.world, t.contra, TradeExecution(t.qty, t.px), true);
      if before.world.orders[t.contra].leaves > after.orders[t.contra].leaves then
        Tally(after, Wrapped(before.qty + t.qty), before.notional + Amount(t.qty, t.px))
      else before.(world := after)
  }

  /** ExecutionDeferedEvent::execute: the contras one by one, then the base order at their average price. */
  function Executed(w: World, base: OrderId, trades: seq<Trade>): World
    requires base in w.orders && Fillable(w, trades)
  {
    var t := FillContras(w, trades);
    if t.qty == 0 then t.world
    else Step(t.world, base, TradeExecution(t.qty, Average(t.notional, t.qty)), true)
  }

  predicate Runnable(w: World, e: Deferred) {
    match e
    case Execution(base, trades) => base in w.orders && Fillable(w, trades)
    case MatchAgain(id) => id in w.orders
    case CancelOrder(id) => id in w.orders
  }
}
