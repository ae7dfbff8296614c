/**
Conservation of quantities and money.  Trading moves quantity from leaves to cum; matching buys what it sells, at
the same price; and an execution charges the incoming order exactly what its contras received.
*/
module Conservation {
  import opened Common
  import opened BookModel
  import opened OrderBookClass
  import opened OrderMachine
  import opened OrderLaws
  import opened OrderRuns
  import opened OrderWorld
  import opened Matching
  import opened Sweeping
  import opened Engine
  import opened Market

  // ---------------------------------------------------------------- leaves and cum of one order

  /** Leaves and cum add up to `total` as 32-bit numbers, and exactly if it fits. */
  predicate AddsUp(o: Order, total: nat) {
    (o.leaves + o.cum) % U32 == total % U32 && (total < U32 ==> o.leaves + o.cum == total)
  }

  /** The order takes the quantities of the correction. */
  predicate Corrects(o: Order, e: Event) {
    e.TradeCrctCncl? && Correctable(o)
  }

  lemma TradeAddsUp(o: Order, q: Quantity, total: nat)
    requires q <= o.leaves && AddsUp(o, total)
    ensures AddsUp(WithQuantities(o, o.leaves - q, (o.cum + q) % U32), total)
  {}

  lemma StateDoesNotCount(o: Order, n: Order, total: nat)
    requires AddsUp(o, total) && n.leaves == o.leaves && n.cum == o.cum
    ensures AddsUp(n, total)
  {}

  /** No event but a correction that the order takes changes what leaves and cum add up to; after such a correction they
      add up to what it says. */
  lemma HandleKeepsWhole(o: Order, inBook: bool, e: Event, total: nat)
    requires AddsUp(o, total)
    ensures AddsUp(Handle(o, inBook, e).order, if Corrects(o, e) then e.leaves + e.cum else total)
  {
    hide Handle, AddsUp;
    HandleIs(o, inBook, e);
    var n := Handle(o, inBook, e).order;
    if Corrects(o, e) {
      CorrectedAddsUp(n, e);
    } else if e.TradeExecution? && e.lastQty <= o.leaves {
      TradeAddsUp(o, e.lastQty, total);
      var t := WithQuantities(o, o.leaves - e.lastQty, (o.cum + e.lastQty) % U32);
      StateDoesNotCount(if Booked(o.zone1) then t else o, n, total);
    } else {
      StateDoesNotCount(o, n, total);
    }
  }

  lemma CorrectedAddsUp(o: Order, e: Event)
    requires e.TradeCrctCncl? && o.leaves == e.leaves && o.cum == e.cum
    ensures AddsUp(o, e.leaves + e.cum)
  {}

  /** What leaves and cum of order `k` have to add up to after a run: what the last correction says that the order
      took, and `total` if there was none. */
  function Owed(w: World, run: Run, k: OrderId, total: nat): nat
    requires RunOf(w, run) && k in w.orders
    decreases |run|
  {
    if run == [] then total
    else
      var (id, x) := run[0];
      Owed(Step(w, id, x.event, x.saves), run[1..], k,
           if id == k && Corrects(w.orders[k], x.event) then x.event.leaves + x.event.cum else total)
  }

  lemma StepKeepsWhole(w: World, id: OrderId, e: Event, saves: bool, k: OrderId, total: nat)
    requires id in w.orders && k in w.orders && AddsUp(w.orders[k], total)
    ensures AddsUp(Step(w, id, e, saves).orders[k],
                   if id == k && Corrects(w.orders[k], e) then e.leaves + e.cum else total)
  {
    hide Handle, PerformOps, AddsUp, Corrects;
    if id == k {
      HandleKeepsWhole(w.orders[k], EntryOf(w, k) in SideList(w, k), e, total);
    }
  }

  /** In every run, corrections included, each order's leaves and cum add up to that. */
  lemma {:induction false} RunKeepsWhole(w: World, run: Run, k: OrderId, total: nat)
    requires RunOf(w, run) && k in w.orders && AddsUp(w.orders[k], total)
    ensures WorldRun(w, run).orders.Keys == w.orders.Keys
    ensures AddsUp(WorldRun(w, run).orders[k], Owed(w, run, k, total))
    decreases |run|
  {
    hide Step, AddsUp, Correctable;
    if run != [] {
      var (id, x) := run[0];
      StepKeepsWhole(w, id, x.event, x.saves, k, total);
      RunKeepsWhole(Step(w, id, x.event, x.saves), run[1..], k,
                    if id == k && Corrects(w.orders[k], x.event) then x.event.leaves + x.event.cum else total);
    }
  }

  /** What is left and what is done make up what was ordered. */
  predicate Complete(o: Order) {
    o.leaves + o.cum == o.qty
  }

  /** A complete order stays complete, unless it takes a correction whose quantities do not make up its own. */
  lemma CompleteIff(o: Order, inBook: bool, e: Event)
    requires Complete(o)
    ensures Complete(Handle(o, inBook, e).order) <==> !(Corrects(o, e) && e.leaves + e.cum != o.qty)
  {
    hide Handle, Correctable;
    HandleKeeps(o, inBook, e);
    if Corrects(o, e) {
      CorrectionSets(o, inBook, e.leaves, e.cum);
    } else {
      HandleKeepsWhole(o, inBook, e, o.qty);
    }
  }

  /** With corrections that make up the quantity of their order, complete orders stay complete throughout. */
  lemma {:induction false} RunKeepsComplete(w: World, run: Run, k: OrderId)
    requires RunOf(w, run) && k in w.orders && Complete(w.orders[k])
    requires forall i :: 0 <= i < |run| && run[i].0 == k && run[i].1.event.TradeCrctCncl? ==>
               run[i].1.event.leaves + run[i].1.event.cum == w.orders[k].qty
    ensures WorldRun(w, run).orders.Keys == w.orders.Keys
    ensures Complete(WorldRun(w, run).orders[k]) && WorldRun(w, run).orders[k].qty == w.orders[k].qty
    decreases |run|
  {
    hide Handle, PerformOps, Complete;
    if run != [] {
      var (id, x) := run[0];
      var inBook := EntryOf(w, id) in SideList(w, id);
      HandleKeeps(w.orders[id], inBook, x.event);
      if id == k {
        CompleteIff(w.orders[id], inBook, x.event);
      }
      RunKeepsComplete(Step(w, id, x.event, x.saves), run[1..], k);
    }
  }

  // ---------------------------------------------------------------- bought and sold

  /** The quantity that the orders of one side traded. */
  function Volume(execs: seq<Exec>, orders: map<OrderId, Order>, side: Side): nat {
    if execs == [] then 0
    else
      var x := execs[|execs| - 1];
      Volume(execs[..|execs| - 1], orders, side) +
      if x.order in orders && orders[x.order].side == side then x.qty else 0
  }

  /** And the money. */
  function Turnover(execs: seq<Exec>, orders: map<OrderId, Order>, side: Side): real {
    if execs == [] then 0.0
    else
      var x := execs[|execs| - 1];
      Turnover(execs[..|execs| - 1], orders, side) +
      if x.order in orders && orders[x.order].side == side then Amount(x.qty, x.px) else 0.0
  }

  predicate SameSides(a: map<OrderId, Order>, b: map<OrderId, Order>) {
    a.Keys == b.Keys && forall k :: k in a ==> a[k].side == b[k].side
  }

  lemma {:induction false} SidesDecide(execs: seq<Exec>, a: map<OrderId, Order>, b: map<OrderId, Order>, side: Side)
    requires SameSides(a, b)
    ensures Volume(execs, a, side) == Volume(execs, b, side) && Turnover(execs, a, side) == Turnover(execs, b, side)
  {
    if execs != [] {
      SidesDecide(execs[..|execs| - 1], a, b, side);
    }
  }

  lemma AddExec(execs: seq<Exec>, orders: map<OrderId, Order>, side: Side, x: Exec)
    requires x.order in orders
    ensures Volume(execs + [x], orders, side) ==
            Volume(execs, orders, side) + if orders[x.order].side == side then x.qty else 0
    ensures Turnover(execs + [x], orders, side) ==
            Turnover(execs, orders, side) + if orders[x.order].side == side then Amount(x.qty, x.px) else 0.0
  {
    assert (execs + [x])[..|execs|] == execs;
  }

  /** What was bought was sold, and for the same money. */
  predicate Balanced(w: World) {
    && Volume(w.execs, w.orders, Buy) == Volume(w.execs, w.orders, Sell)
    && Turnover(w.execs, w.orders, Buy) == Turnover(w.execs, w.orders, Sell)
  }

  /** A purchase and the sale it is made of. */
  lemma PairBalances(execs: seq<Exec>, orders: map<OrderId, Order>, x: Exec, y: Exec, side: Side)
    requires x.order in orders && y.order in orders && orders[y.order].side == Opposite(orders[x.order].side)
    requires x.qty == y.qty && x.px == y.px
    ensures Volume(execs + [x, y], orders, side) == Volume(execs, orders, side) + x.qty
    ensures Turnover(execs + [x, y], orders, side) == Turnover(execs, orders, side) + Amount(x.qty, x.px)
  {
    hide Volume, Turnover;
    assert execs + [x, y] == execs + [x] + [y];
    AddExec(execs, orders, side, x);
    AddExec(execs + [x], orders, side, y);
  }

  lemma RoundKeepsBalance(w: World, id: OrderId)
    requires Faced(w, id) && CanTrade(w, id) && Balanced(w)
    ensures Balanced(TradeTop(w, id))
  {
    hide TradeTop, Volume, Turnover, FacingSide, Without, FilledOrder;
    TopEntry(w, id);
    FilledSide(w.orders[id], TopQty(w, id));
    FilledSide(w.orders[Contras(w, id)[0].id], TopQty(w, id));
    TradeTopIs(w, id);
    var n, top, q := TradeTop(w, id), Contras(w, id)[0], TopQty(w, id);
    var x, y := Exec(top.id, q, top.price), Exec(id, q, top.price);
    PairBalances(w.execs, w.orders, x, y, Buy);
    PairBalances(w.execs, w.orders, x, y, Sell);
    assert SameSides(w.orders, n.orders);
    SidesDecide(n.execs, w.orders, n.orders, Buy);
    SidesDecide(n.execs, w.orders, n.orders, Sell);
  }

  lemma {:induction false} SweepKeepsBalance(w: World, id: OrderId)
    requires Faced(w, id) && Balanced(w)
    ensures Balanced(Sweep(w, id))
    decreases w.orders[id].leaves
  {
    hide Balanced, TradeTop, FacingSide;
    if CanTrade(w, id) {
      RoundLowersLeaves(w, id);
      RoundKeepsBalance(w, id);
      SweepKeepsBalance(TradeTop(w, id), id);
    }
  }

  lemma NoTradeNoExec(w: World, id: OrderId, e: Event, saves: bool)
    requires id in w.orders && !e.TradeExecution?
    ensures Step(w, id, e, saves).execs == w.execs && SameSides(w.orders, Step(w, id, e, saves).orders)
  {
    hide Handle, PerformOps, ByEvent, Queued;
    var o, inBook := w.orders[id], EntryOf(w, id) in SideList(w, id);
    HandleIs(o, inBook, e);
    HandleKeeps(o, inBook, e);
  }

  /** Matching buys what it sells: after any event that is not itself a trade, and the matching it causes. */
  lemma SettleKeepsBalance(w: World, id: OrderId, e: Event, saves: bool)
    requires WorldOk(w) && Acceptable(w, id, e, saves) && !e.TradeExecution? && Balanced(w)
    ensures Balanced(Settle(w, id, e, saves))
  {
    hide WorldOk, Step, Faced, AllRest, Spoils, EntersOn, Sweep, Volume, Turnover;
    NoTradeNoExec(w, id, e, saves);
    var n := Step(w, id, e, saves);
    SidesDecide(w.execs, w.orders, n.orders, Buy);
    SidesDecide(w.execs, w.orders, n.orders, Sell);
    if Enters(w, id, e, saves) {
      EnteredIsReady(w, id, e, saves);
      SweepKeepsBalance(n, id);
    }
  }

  predicate Untraded(run: Run) {
    forall i :: 0 <= i < |run| ==> !run[i].1.event.TradeExecution?
  }

  /** Over whole runs in which all trades come from matching. */
  lemma {:induction false} MarketStaysBalanced(w: World, run: Run, t: World)
    requires WorldOk(w) && Balanced(w) && Untraded(run) && MarketRun(w, run, t)
    ensures Balanced(t)
    decreases |run|
  {
    hide WorldOk, Balanced, Settle, Acceptable;
    if run != [] {
      var (id, x) := run[0];
      SettleKeepsWorld(w, id, x.event, x.saves);
      SettleKeepsBalance(w, id, x.event, x.saves);
      MarketStaysBalanced(Settle(w, id, x.event, x.saves), run[1..], t);
    }
  }

  // ---------------------------------------------------------------- executions of several trades

  /** The trades whose contra order took them, in quantity and money. */
  function Applied(w: World, trades: seq<Trade>): (r: (nat, real))
    requires Fillable(w, trades)
  {
    if trades == [] then (0, 0.0)
    else
      var before, t := FillContras(w, trades[..|trades| - 1]).world, trades[|trades| - 1];
      var sum := Applied(w, trades[..|trades| - 1]);
      var after := Step(before, t.contra, TradeExecution(t.qty, t.px), true);
      if before.orders[t.contra].leaves > after.orders[t.contra].leaves then
        (sum.0 + t.qty, sum.1 + Amount(t.qty, t.px))
      else sum
  }

  lemma WrapAdd(a: nat, q: nat)
    ensures Wrapped(Wrapped(a) + q) == Wrapped(a + q)
  {}

  lemma AppliedNext(w: World, trades: seq<Trade>)
    requires Fillable(w, trades) && trades != []
    ensures var rest, t := trades[..|trades| - 1], trades[|trades| - 1];
            var f, fs := FillContras(w, trades), FillContras(w, rest);
            && t.contra in fs.world.orders && f.world == Step(fs.world, t.contra, TradeExecution(t.qty, t.px), true)
            && (if fs.world.orders[t.contra].leaves > f.world.orders[t.contra].leaves then
                  && f.qty == Wrapped(fs.qty + t.qty) && f.notional == fs.notional + Amount(t.qty, t.px)
                  && Applied(w, trades) == (Applied(w, rest).0 + t.qty, Applied(w, rest).1 + Amount(t.qty, t.px))
                else f.qty == fs.qty && f.notional == fs.notional && Applied(w, trades) == Applied(w, rest))
  {
    hide Step;
  }

  lemma NothingApplied(w: World)
    ensures FillContras(w, []) == Tally(w, 0, 0.0) && Applied(w, []) == (0, 0.0) && Wrapped(0) == 0
  {}

  lemma {:induction false} TallyIsApplied(w: World, trades: seq<Trade>)
    requires Fillable(w, trades)
    ensures FillContras(w, trades).qty == Wrapped(Applied(w, trades).0)
    ensures FillContras(w, trades).notional == Applied(w, trades).1
  {
    hide FillContras, Applied, Step, Wrapped;
    if trades == [] {
      NothingApplied(w);
    } else {
      var rest := trades[..|trades| - 1];
      AppliedNext(w, trades);
      TallyIsApplied(w, rest);
      WrapAdd(Applied(w, rest).0, trades[|trades| - 1].qty);
    }
  }

  function Quantities(execs: seq<Exec>): nat {
    if execs == [] then 0 else Quantities(execs[..|execs| - 1]) + execs[|execs| - 1].qty
  }

  function Money(execs: seq<Exec>): real {
    if execs == [] then 0.0
    else Money(execs[..|execs| - 1]) + Amount(execs[|execs| - 1].qty, execs[|execs| - 1].px)
  }

  lemma Recorded(execs: seq<Exec>, x: Exec)
    ensures Quantities(execs + [x]) == Quantities(execs) + x.qty
    ensures Money(execs + [x]) == Money(execs) + Amount(x.qty, x.px)
  {
    assert (execs + [x])[..|execs|] == execs;
  }

  lemma ContraRecords(w: World, trades: seq<Trade>)
    requires Fillable(w, trades) && trades != []
    ensures var rest := trades[..|trades| - 1];
            var before, after := FillContras(w, rest).world.execs, FillContras(w, trades).world.execs;
            && Quantities(after) - Quantities(before) == Applied(w, trades).0 - Applied(w, rest).0
            && Money(after) - Money(before) == Applied(w, trades).1 - Applied(w, rest).1
  {
    hide Step, Quantities, Money, FillContras, Applied, Takes;
    AppliedNext(w, trades);
    var rest, t := trades[..|trades| - 1], trades[|trades| - 1];
    var before := FillContras(w, rest).world;
    TradeRecords(before, t.contra, t.qty, t.px);
    Recorded(before.execs, Exec(t.contra, t.qty, t.px));
    assert t.qty == 0 ==> Amount(t.qty, t.px) == 0.0;
    assert before.execs + [] == before.execs;
  }

  /** The applied trades are exactly what the contra orders recorded. */
  lemma {:induction false} ContrasRecorded(w: World, trades: seq<Trade>)
    requires Fillable(w, trades)
    ensures var mid := FillContras(w, trades).world;
            && Quantities(mid.execs) == Quantities(w.execs) + Applied(w, trades).0
            && Money(mid.execs) == Money(w.execs) + Applied(w, trades).1
  {
    hide Quantities, Money, Applied, FillContras;
    if trades == [] {
      NothingApplied(w);
    } else {
      ContraRecords(w, trades);
      ContrasRecorded(w, trades[..|trades| - 1]);
    }
  }

  /** The tally is the applied quantity if and only if that fits 32 bits. */
  lemma TallyIffFits(w: World, trades: seq<Trade>)
    requires Fillable(w, trades)
    ensures FillContras(w, trades).qty == Applied(w, trades).0 <==> Applied(w, trades).0 < U32
  {
    hide FillContras, Applied;
    TallyIsApplied(w, trades);
  }

  /** The incoming order is charged, at an average price that makes the money exactly that of the contras that
      traded, if and only if something is tallied and it takes the trade. */
  lemma ExecutionCharges(w: World, base: OrderId, trades: seq<Trade>)
    requires base in w.orders && Fillable(w, trades)
    ensures var mid, q, money := FillContras(w, trades).world, Wrapped(Applied(w, trades).0), Applied(w, trades).1;
            var after := Executed(w, base, trades);
            && base in mid.orders && base in after.orders
            && (q == 0 ==> after == mid)
            && (q > 0 ==>
                  && Amount(q, Average(money, q)) == money
                  && after.execs ==
                     mid.execs + (if Takes(mid.orders[base], q) then [Exec(base, q, Average(money, q))] else [])
                  && after.orders[base].leaves ==
                     mid.orders[base].leaves - (if Takes(mid.orders[base], q) then q else 0))
  {
    hide Step, Takes, FillContras, Applied, Wrapped;
    TallyIsApplied(w, trades);
    var t := FillContras(w, trades);
    if t.qty > 0 {
      DivideBack(t.notional, t.qty as real);
      TradeRecords(t.world, base, t.qty, Average(t.notional, t.qty));
    }
  }

  lemma DivideBack(x: real, q: real)
    requires q > 0.0
    ensures q * (x / q) == x
  {}

  const HALF: Quantity := 0x8000_0000

  lemma HalfApplied(w: World, trades: seq<Trade>)
    requires Fillable(w, trades) && trades != []
    requires var before, t := FillContras(w, trades[..|trades| - 1]).world, trades[|trades| - 1];
             Takes(before.orders[t.contra], t.qty) && t.qty == HALF
    ensures Applied(w, trades).0 == Applied(w, trades[..|trades| - 1]).0 + HALF
    ensures var rest, t := trades[..|trades| - 1], trades[|trades| - 1];
            FillContras(w, trades).world ==
            Step(FillContras(w, rest).world, t.contra, TradeExecution(t.qty, t.px), true)
  {
    hide Step, FillContras, Applied, Takes;
    AppliedNext(w, trades);
    var before, t := FillContras(w, trades[..|trades| - 1]).world, trades[|trades| - 1];
    TradeRecords(before, t.contra, t.qty, t.px);
  }

  lemma OthersUntouched(w: World, id: OrderId, e: Event, saves: bool, k: OrderId)
    requires id in w.orders && k in w.orders && k != id
    ensures Step(w, id, e, saves).orders[k] == w.orders[k]
  {
    hide Handle, PerformOps;
  }

  /** Beyond 32 bits the tally wraps: two contras that trade half the range each make an execution of nothing, and
      the incoming order is charged nothing. */
  lemma TallyWraps(w: World, base: OrderId, a: OrderId, b: OrderId, px: real)
    requires base in w.orders && a in w.orders && b in w.orders && a != b
    requires Takes(w.orders[a], HALF) && Takes(w.orders[b], HALF)
    ensures var trades := [Trade(a, HALF, px), Trade(b, HALF, px)];
            var after := Executed(w, base, trades);
            && Applied(w, trades).0 == U32 && after == FillContras(w, trades).world
            && Quantities(after.execs) == Quantities(w.execs) + U32
  {
    hide Step, FillContras, Applied, Takes, Quantities, Money;
    var one, both := [Trade(a, HALF, px)], [Trade(a, HALF, px), Trade(b, HALF, px)];
    assert one[..0] == [] && both[..1] == one;
    NothingApplied(w);
    HalfApplied(w, one);
    OthersUntouched(w, a, TradeExecution(HALF, px), true, b);
    HalfApplied(w, both);
    ExecutionCharges(w, base, both);
    ContrasRecorded(w, both);
  }
}
