/**
The matching engine as the source runs it: events are appended to the thread's list, the list is swapped out and
drained, and draining it appends new events (src/Processor.cpp).  For an order that entered the market, this
machinery comes to the greedy sweep, unless it is stuck with an order that does not trade.
*/
module Engine {
  import opened Common
  import opened BookModel
  import opened OrderBookClass
  import opened OrderMachine
  import opened OrderRuns
  import opened OrderWorld
  import opened Matching
  import opened Sweeping
  import opened SweepLaw

  // ---------------------------------------------------------------- one round of matching is one trade

  /** Without market orders and with something left of every entry, the search looks at the front only. */
  lemma BestIsFront(w: World, id: OrderId)
    requires Faced(w, id)
    ensures var o, list := w.orders[id], Contras(w, id);
            BestContra(w, id) ==
              if list != [] && Crosses(o.side, o.price, list[0].price) then list[0].id else NO_ORDER
  {
    var list := Contras(w, id);
    if list != [] {
      assert Faces(w, Opposite(w.orders[id].side), list[0]);
    }
  }

  lemma MatchIsTop(w: World, id: OrderId)
    requires Faced(w, id) && w.orders[id].leaves > 0
    ensures MatchEvents(w, id) ==
            if !Reaches(w, id) then Some([])
            else
              var top, q := Contras(w, id)[0], TopQty(w, id);
              Some([Execution(id, [Trade(top.id, q, top.price)])] +
                   if w.orders[id].leaves > q then [MatchAgain(id)] else [])
  {
    hide FirstFound, SortedSide;
    BestIsFront(w, id);
    if Reaches(w, id) {
      assert Faces(w, Opposite(w.orders[id].side), Contras(w, id)[0]);
    }
  }

  lemma AveragePrice(notional: real, q: Quantity, px: real)
    requires q > 0 && notional == Amount(q, px)
    ensures Average(notional, q) == px
  {}

  /** An execution of a single trade that both orders can take. */
  lemma OneTrade(w: World, base: OrderId, t: Trade, mid: World, end: World)
    requires base in w.orders && t.contra in w.orders && t.qty > 0
    requires mid == Step(w, t.contra, TradeExecution(t.qty, t.px), true)
    requires mid.orders[t.contra].leaves < w.orders[t.contra].leaves
    requires end == Step(mid, base, TradeExecution(t.qty, t.px), true)
    ensures Executed(w, base, [t]) == end
  {
    hide Step;
    var trades := [t];
    assert trades[..0] == [];
    assert FillContras(w, []) == Tally(w, 0, 0.0);
    assert FillContras(w, trades) == Tally(mid, t.qty, 0.0 + Amount(t.qty, t.px));
    AveragePrice(FillContras(w, trades).notional, t.qty, t.px);
  }

  /** One more contra fill. */
  lemma FillNext(w: World, trades: seq<Trade>, k: nat)
    requires Fillable(w, trades) && k < |trades|
    ensures Fillable(w, trades[..k]) && Fillable(w, trades[..k + 1])
    ensures var before, t := FillContras(w, trades[..k]), trades[k];
            var after := Step(before.world, t.contra, TradeExecution(t.qty, t.px), true);
            FillContras(w, trades[..k + 1]) ==
              if before.world.orders[t.contra].leaves > after.orders[t.contra].leaves then
                Tally(after, Wrapped(before.qty + t.qty), before.notional + Amount(t.qty, t.px))
              else before.(world := after)
  {
    hide Step, FillContras;
    var more := trades[..k + 1];
    FillLast(w, more);
    assert more[..|more| - 1] == trades[..k] && more[|more| - 1] == trades[k];
  }

  lemma FillLast(w: World, trades: seq<Trade>)
    requires Fillable(w, trades) && trades != []
    ensures var rest, t := trades[..|trades| - 1], trades[|trades| - 1];
            var before := FillContras(w, rest);
            var after := Step(before.world, t.contra, TradeExecution(t.qty, t.px), true);
            FillContras(w, trades) ==
              if before.world.orders[t.contra].leaves > after.orders[t.contra].leaves then
                Tally(after, Wrapped(before.qty + t.qty), before.notional + Amount(t.qty, t.px))
              else before.(world := after)
  {
    hide Step;
  }

  lemma FillNothing(w: World)
    ensures FillContras(w, []) == Tally(w, 0, 0.0)
  {}

  /** An execution with one contra changes nothing if and only if the contra does not take the trade. */
  lemma ExecutionRepeatsIff(w: World, base: OrderId, t: Trade)
    requires base in w.orders && t.contra in w.orders && t.qty > 0
    ensures Executed(w, base, [t]) == w <==> !Takes(w.orders[t.contra], t.qty)
  {
    hide Step, Takes, FillContras, Average, Amount;
    TradeRecords(w, t.contra, t.qty, t.px);
    var mid := Step(w, t.contra, TradeExecution(t.qty, t.px), true);
    FillNothing(w);
    FillNext(w, [t], 0);
    assert [t][..0] == [] && [t][..1] == [t];
    if Takes(w.orders[t.contra], t.qty) {
      var f := FillContras(w, [t]);
      assert f == Tally(mid, t.qty, 0.0 + Amount(t.qty, t.px));
      TradeRecords(mid, base, t.qty, Average(f.notional, t.qty));
    }
  }

  lemma ExecutionIsTrade(w: World, id: OrderId)
    requires Faced(w, id) && Reaches(w, id)
    ensures var top, q := Contras(w, id)[0], TopQty(w, id);
            && top.id in w.orders
            && Executed(w, id, [Trade(top.id, q, top.price)]) == if CanTrade(w, id) then TradeTop(w, id) else w
  {
    hide SortedSide, DistinctIds, Without, Executed, Step;
    TopEntry(w, id);
    var top, q := Contras(w, id)[0], TopQty(w, id);
    if CanTrade(w, id) {
      TradeTopIs(w, id);
      var mid := FillOne(w, top.id, q, top.price);
      StepIsFill(w, top.id, q, top.price);
      StepIsFill(mid, id, q, top.price);
      OneTrade(w, id, Trade(top.id, q, top.price), mid, TradeTop(w, id));
    } else {
      ExecutionRepeatsIff(w, id, Trade(top.id, q, top.price));
    }
  }

  /** The events that wait after a round: none once the order is used up, else those of the next round. */
  function Chain(w: World, id: OrderId): seq<Deferred>
    requires id in w.orders
  {
    if w.orders[id].leaves == 0 || MatchEvents(w, id).None? then [] else MatchEvents(w, id).value
  }

  lemma ChainIs(w: World, id: OrderId)
    requires Faced(w, id)
    ensures Chain(w, id) == [] <==> !Reaches(w, id)
    ensures Reaches(w, id) ==>
              var top, q := Contras(w, id)[0], TopQty(w, id);
              Chain(w, id) == [Execution(id, [Trade(top.id, q, top.price)])] +
                              if w.orders[id].leaves > q then [MatchAgain(id)] else []
  {
    hide MatchEvents;
    if w.orders[id].leaves > 0 {
      MatchIsTop(w, id);
    }
  }

  // ---------------------------------------------------------------- rounds of deferred events

  predicate AllRunnable(w: World, events: seq<Deferred>) {
    forall i :: 0 <= i < |events| ==> Runnable(w, events[i])
  }

  /** What the processing of deferred events comes to: the world, the events that wait then, and whether an exception
      ended it. */
  datatype Round = Round(world: World, events: seq<Deferred>, threw: bool)

  /** One deferred event and the events it appends. */
  function Processed(w: World, e: Deferred): (r: Round)
    requires Runnable(w, e)
    ensures r.world.orders.Keys == w.orders.Keys && AllRunnable(r.world, r.events)
  {
    match e
    case Execution(base, trades) => Round(Executed(w, base, trades), [], false)
    case MatchAgain(id) =>
      if MatchEvents(w, id).None? then Round(w, [], true) else Round(w, MatchEvents(w, id).value, false)
    case CancelOrder(id) => Round(Step(w, id, InternalCancel, true), [], false)
  }

  /** The swapped-out events of one round, one after the other.  An exception drops the rest of them and the events
      appended so far. */
  function Drained(w: World, events: seq<Deferred>): (r: Round)
    requires AllRunnable(w, events)
    ensures r.world.orders.Keys == w.orders.Keys && AllRunnable(r.world, r.events) && (r.threw ==> r.events == [])
  {
    if events == [] then Round(w, [], false)
    else
      var before := Drained(w, events[..|events| - 1]);
      if before.threw then before
      else
        var last := Processed(before.world, events[|events| - 1]);
        Round(last.world, if last.threw then [] else before.events + last.events, last.threw)
  }

  /** `n` rounds, or fewer if no events are left. */
  function Rounds(w: World, events: seq<Deferred>, n: nat): Round
    requires AllRunnable(w, events)
    decreases n
  {
    if n == 0 || events == [] then Round(w, events, false)
    else
      var r := Drained(w, events);
      if r.threw then r else Rounds(r.world, r.events, n - 1)
  }

  lemma ChainRunnable(w: World, id: OrderId)
    requires id in w.orders
    ensures AllRunnable(w, Chain(w, id))
  {
    hide FirstFound;
  }

  /** After an exception the rest of the round does not matter. */
  lemma {:induction false} StaysThrown(w: World, events: seq<Deferred>, k: nat)
    requires AllRunnable(w, events) && k <= |events| && Drained(w, events[..k]).threw
    ensures Drained(w, events) == Drained(w, events[..k])
    decreases |events|
  {
    hide Processed;
    if k == |events| {
      assert events[..k] == events;
    } else {
      var n := |events| - 1;
      assert events[..n][..k] == events[..k];
      StaysThrown(w, events[..n], k);
    }
  }

  lemma DrainedOne(w: World, e: Deferred)
    requires Runnable(w, e) && !Processed(w, e).threw
    ensures Drained(w, [e]) == Processed(w, e)
  {
    hide Processed;
    assert [e][..0] == [];
    assert Drained(w, []) == Round(w, [], false);
    assert [] + Processed(w, e).events == Processed(w, e).events;
  }

  lemma DrainedTwo(w: World, a: Deferred, b: Deferred)
    requires Runnable(w, a) && Runnable(w, b) && !Processed(w, a).threw && !Processed(Processed(w, a).world, b).threw
    ensures var first := Processed(w, a); var second := Processed(first.world, b);
            Drained(w, [a, b]) == Round(second.world, first.events + second.events, false)
  {
    hide Processed;
    DrainedOne(w, a);
    assert [a, b][..1] == [a];
  }

  /** Two orders without a price cannot trade: the exception ends the draining, and nothing waits any more. */
  lemma PricelessThrows(w: World, id: OrderId, n: nat)
    requires id in w.orders && ContraOf(w, id).Some? && ContraOf(w, id).value in w.orders && n > 0
    requires ContraOf(w, id).value != NO_ORDER && w.orders[ContraOf(w, id).value].price == 0.0 == w.orders[id].price
    ensures Rounds(w, [MatchAgain(id)], n) == Round(w, [], true)
  {
    hide MatchEvents, ContraOf;
    RoundIs(w, id);
    var events := [MatchAgain(id)];
    assert events[..0] == [];
    assert Drained(w, []) == Round(w, [], false);
    assert Drained(w, events) == Round(w, [], true);
  }

  lemma MatchNeverThrows(w: World, id: OrderId)
    requires Faced(w, id)
    ensures MatchEvents(w, id).Some?
  {
    hide FirstFound, FacingSide;
  }

  /** A round trades with the front of the opposite side; if the front does not take the trade, nothing changes,
      and the same events are appended again as long as the order has more left than the front. */
  lemma OneRound(w: World, id: OrderId)
    requires Faced(w, id) && Reaches(w, id)
    ensures AllRunnable(w, Chain(w, id)) && (CanTrade(w, id) ==> id in TradeTop(w, id).orders)
    ensures Drained(w, Chain(w, id)) ==
            if CanTrade(w, id) then Round(TradeTop(w, id), Chain(TradeTop(w, id), id), false)
            else
              Round(w, if w.orders[id].leaves > w.orders[Contras(w, id)[0].id].leaves then Chain(w, id) else [], false)
  {
    hide Executed, MatchEvents, TradeTop, FacingSide;
    ChainRunnable(w, id);
    ChainIs(w, id);
    ExecutionIsTrade(w, id);
    if CanTrade(w, id) {
      TradeTopIs(w, id);
    }
    var top, q := Contras(w, id)[0], TopQty(w, id);
    var a := Execution(id, [Trade(top.id, q, top.price)]);
    if w.orders[id].leaves > q {
      assert [a] + [MatchAgain(id)] == [a, MatchAgain(id)];
      MatchNeverThrows(w, id);
      if CanTrade(w, id) {
        TradeTopKeepsFaced(w, id);
        MatchNeverThrows(TradeTop(w, id), id);
      }
      DrainedTwo(w, a, MatchAgain(id));
      assert forall events: seq<Deferred> :: [] + events == events;
    } else {
      assert [a] + [] == [a];
      DrainedOne(w, a);
    }
  }

  // ---------------------------------------------------------------- when the rounds end

  /** Behind the orders that trade there is one in reach that does not, and the order has more left than all of
      them together. */
  predicate Stuck(w: World, id: OrderId)
    requires Faced(w, id)
  {
    var o, list, ls := w.orders[id], Contras(w, id), Demands(w, id);
    && |ls| < |list| && Crosses(o.side, o.price, list[|ls|].price)
    && Sum(ls) + w.orders[list[|ls|].id].leaves < o.leaves
  }

  lemma StuckAtFront(w: World, id: OrderId)
    requires Faced(w, id) && !CanTrade(w, id)
    ensures Stuck(w, id) <==> Reaches(w, id) && w.orders[Contras(w, id)[0].id].leaves < w.orders[id].leaves
  {
    hide SortedSide, DistinctIds;
    var o, list := w.orders[id], Contras(w, id);
    if o.leaves > 0 {
      assert list != [] ==> Faces(w, Opposite(o.side), list[0]);
      assert Demands(w, id) == [];
    }
  }

  /** Where every order rests nothing is stuck. */
  lemma ReadyNotStuck(w: World, id: OrderId)
    requires Ready(w, id)
    ensures !Stuck(w, id)
  {
    hide SortedSide, DistinctIds, Sum, Reach;
    var o, list, k := w.orders[id], Contras(w, id), |Demands(w, id)|;
    ReachStops(o.side, o.price, w.orders, list);
    if k < |list| {
      assert Rests(w, Opposite(o.side), list[k]);
    }
  }

  lemma StuckReaches(w: World, id: OrderId)
    requires Faced(w, id) && Stuck(w, id)
    ensures Reaches(w, id)
  {
    hide SortedSide, DistinctIds, Sum;
    var o, list := w.orders[id], Contras(w, id);
    if Demands(w, id) != [] {
      ReachStops(o.side, o.price, w.orders, list);
    }
  }

  /** A trade does not change whether the rounds will be stuck. */
  lemma StuckAfterTrade(w: World, id: OrderId)
    requires Faced(w, id) && CanTrade(w, id) && Faced(TradeTop(w, id), id)
    ensures Stuck(TradeTop(w, id), id) <==> Stuck(w, id)
  {
    hide SortedSide, TradeTop, Sum, Demands, Without, FilledOrder;
    DemandsAfter(w, id);
    TradeTopIs(w, id);
    TopEntry(w, id);
    var n, o, list, ls := TradeTop(w, id), w.orders[id], Contras(w, id), Demands(w, id);
    FilledLeaves(o, TopQty(w, id));
    FilledSide(o, TopQty(w, id));
    SumOfFirst(ls);
    if ls[0] <= o.leaves && |ls| < |list| {
      var k := |ls|;
      assert list[1..][k - 1] == list[k];
      assert Faces(w, Opposite(o.side), list[k]);
    }
  }

  /** Stuck rounds go on for ever. */
  lemma {:induction false} StuckForever(w: World, id: OrderId, n: nat)
    requires Faced(w, id) && Stuck(w, id)
    ensures AllRunnable(w, Chain(w, id)) && Rounds(w, Chain(w, id), n).events != []
    decreases n
  {
    hide Stuck, Faced, Reaches, Chain, Drained, TradeTop, CanTrade;
    FacedKnown(w, id);
    StuckReaches(w, id);
    ChainIs(w, id);
    OneRound(w, id);
    if n > 0 {
      if CanTrade(w, id) {
        RoundLowersLeaves(w, id);
        StuckAfterTrade(w, id);
        StuckForever(TradeTop(w, id), id, n - 1);
      } else {
        StuckAtFront(w, id);
        StuckForever(w, id, n - 1);
      }
    }
  }

  lemma FacedKnown(w: World, id: OrderId)
    requires Faced(w, id)
    ensures id in w.orders
  {}

  /** All others end in the greedy sweep. */
  lemma {:induction false} RoundsEnd(w: World, id: OrderId) returns (n: nat)
    requires Faced(w, id) && !Stuck(w, id)
    ensures AllRunnable(w, Chain(w, id)) && Rounds(w, Chain(w, id), n) == Round(Sweep(w, id), [], false)
    decreases w.orders[id].leaves
  {
    hide Stuck, Reaches, Chain, Drained, TradeTop, FacingSide;
    ChainRunnable(w, id);
    ChainIs(w, id);
    if CanTrade(w, id) {
      assert Reaches(w, id) by { TradeReaches(w, id); }
      OneRound(w, id);
      RoundLowersLeaves(w, id);
      StuckAfterTrade(w, id);
      var m := RoundsEnd(TradeTop(w, id), id);
      n := m + 1;
    } else {
      n := 1;
      if Reaches(w, id) {
        OneRound(w, id);
        StuckAtFront(w, id);
        assert Rounds(w, [], 0) == Round(w, [], false);
      }
    }
  }

  lemma TradeReaches(w: World, id: OrderId)
    requires id in w.orders && CanTrade(w, id)
    ensures Reaches(w, id)
  {}

  /** Draining the deferred events comes to an end if and only if the order is not stuck. */
  lemma DrainEndsIff(w: World, id: OrderId)
    requires Faced(w, id)
    ensures AllRunnable(w, Chain(w, id))
    ensures (exists n: nat :: Rounds(w, Chain(w, id), n).events == []) <==> !Stuck(w, id)
  {
    hide Faced, Stuck, Rounds, Chain;
    FacedKnown(w, id);
    ChainRunnable(w, id);
    if Stuck(w, id) {
      forall n: nat
        ensures Rounds(w, Chain(w, id), n).events != []
      {
        StuckForever(w, id, n);
      }
    } else {
      var n := RoundsEnd(w, id);
    }
  }

  /** It can be stuck: an expired order that came back into the book stalls every larger order that reaches it. */
  lemma ExpiredContraStalls(o: Order, c: Order)
    requires Booked(o.zone1) && !o.market && o.side == Buy && c.zone1 == Expired && !c.market && c.side == Sell
    requires o.price >= c.price > 0.0 && o.leaves > c.leaves > 0
    ensures var w := World(map[1 := o, 2 := c], Group([Entry(o.price, 1)], [Entry(c.price, 2)]), []);
            Faced(w, 1) && Stuck(w, 1)
  {
    var w := World(map[1 := o, 2 := c], Group([Entry(o.price, 1)], [Entry(c.price, 2)]), []);
    assert EntryOf(w, 1) in SideList(w, 1);
    assert Faces(w, Sell, Contras(w, 1)[0]);
    assert Faced(w, 1);
    StuckAtFront(w, 1);
  }

  // ---------------------------------------------------------------- a run that gets stuck

  lemma ReceivedOrder(c: Order)
    requires c.zone1 == RcvdNew && c.zone2 == NoCnlReplace && !c.market
    ensures Handle(c, false, OrderReceived(true)) ==
            Result(c.(zone1 := New, status := NewStatus), false, [MatchOrder, AddToBook, Report], [])
  {
    assert [MatchOrder, AddToBook] + [Report] == [MatchOrder, AddToBook, Report];
  }

  lemma ExpiredOrder(c: Order)
    requires c.zone1 == New && c.zone2 == NoCnlReplace && !c.market && c.status == NewStatus
    ensures Handle(c, false, OrderExpired) ==
            Result(c.(zone1 := Expired, status := ExpiredStatus), false, [RemoveFromBook, Report], [])
  {
    assert [RemoveFromBook] + [Report] == [RemoveFromBook, Report];
  }

  /** What these operations do to an empty side. */
  lemma OpsOnEmpty(side: Side, e: Entry)
    ensures PerformOps(side, [], e, [MatchOrder, AddToBook, Report], true) == [e]
    ensures PerformOps(side, [], e, [MatchOrder, AddToBook, Report], false) == []
    ensures PerformOps(side, [], e, [RemoveFromBook, Report], true) == [e]
  {
    var add, rest := [MatchOrder, AddToBook, Report], [Report];
    assert add[1..] == [AddToBook, Report] && add[1..][1..] == rest && rest[1..] == [];
    assert Inserted(side, [], e) == [e];
    assert IndexOf([e], e) == 0 && Without([e], e) == [];
    assert PerformOps(side, [e], e, rest, true) == PerformOps(side, [e], e, [], true) == [e];
    assert PerformOps(side, [], e, add, true) == PerformOps(side, [], e, add[1..], true);
    assert PerformOps(side, [], e, add, false) == PerformOps(side, [], e, add[1..], false);
  }

  /** One event of an order whose side is empty. */
  lemma StepOnEmpty(w: World, id: OrderId, e: Event, saves: bool, r: Result)
    requires id in w.orders && SideList(w, id) == []
    requires Handle(w.orders[id], false, e) == r && !r.erased && r.execs == []
    ensures var o := w.orders[id];
            Step(w, id, e, saves) ==
            World(w.orders[id := r.order],
                  w.book.With(o.side, PerformOps(o.side, [], EntryOf(w, id), r.ops, saves)), w.execs)
  {
    hide Handle, PerformOps;
    assert Booking(id, []) == [] && w.execs + [] == w.execs;
  }

  /** From two received orders: the sell order is received while the saver refuses its entry, and its expiry, which asks
      for a removal, puts it into the book; then a larger buy order is received. */
  lemma StuckIsReached(o: Order, c: Order)
    requires o.zone1 == RcvdNew && o.zone2 == NoCnlReplace && !o.market && o.side == Buy
    requires c.zone1 == RcvdNew && c.zone2 == NoCnlReplace && !c.market && c.side == Sell
    requires o.price >= c.price > 0.0 && o.leaves > c.leaves > 0
    ensures var start := World(map[1 := o, 2 := c], Group([], []), []);
            var run: Run := [(2, Input(OrderReceived(true), false)), (2, Input(OrderExpired, true)),
                        (1, Input(OrderReceived(true), true))];
            RunOf(start, run) && var w := WorldRun(start, run); Faced(w, 1) && Stuck(w, 1)
  {
    hide Handle, PerformOps, Step, Faced, Stuck;
    var w0 := World(map[1 := o, 2 := c], Group([], []), []);
    var run: Run := [(2, Input(OrderReceived(true), false)), (2, Input(OrderExpired, true)),
                     (1, Input(OrderReceived(true), true))];
    var c1, o1 := c.(zone1 := New, status := NewStatus), o.(zone1 := New, status := NewStatus);
    var c2 := c1.(zone1 := Expired, status := ExpiredStatus);
    var w1, w2 := w0.(orders := map[1 := o, 2 := c1]), World(map[1 := o, 2 := c2], Group([], [Entry(c.price, 2)]), []);
    var w3 := World(map[1 := o1, 2 := c2], Group([Entry(o.price, 1)], [Entry(c.price, 2)]), []);
    OpsOnEmpty(Sell, Entry(c.price, 2));
    OpsOnEmpty(Buy, Entry(o.price, 1));
    ReceivedOrder(c);
    StepOnEmpty(w0, 2, OrderReceived(true), false, Handle(c, false, OrderReceived(true)));
    assert Step(w0, 2, OrderReceived(true), false) == w1;
    ExpiredOrder(c1);
    StepOnEmpty(w1, 2, OrderExpired, true, Handle(c1, false, OrderExpired));
    assert Step(w1, 2, OrderExpired, true) == w2;
    ReceivedOrder(o);
    StepOnEmpty(w2, 1, OrderReceived(true), true, Handle(o, false, OrderReceived(true)));
    assert Step(w2, 1, OrderReceived(true), true) == w3;
    assert run[1..] == [run[1], run[2]] && run[1..][1..] == [run[2]] && run[1..][1..][1..] == [];
    assert WorldRun(w3, []) == w3;
    assert WorldRun(w2, run[1..][1..]) == w3;
    ExpiredContraStalls(o1, c2);
  }

  // ---------------------------------------------------------------- the processor

  class Processor {
    var world: World
    var events: seq<Deferred>

    constructor (w: World)
      ensures world == w && events == []
    {
      world, events := w, [];
    }

    method AddDeferredEvent(e: Deferred)
      modifies `events
      ensures events == old(events) + [e]
    {
      events := events + [e];
    }

    /** OrderMatcher::match. */
    method Match(id: OrderId) returns (threw: bool)
      requires id in world.orders
      modifies `events
      ensures threw <==> MatchEvents(world, id).None?
      ensures events == old(events) + if threw then [] else MatchEvents(world, id).value
    {
      threw := false;
      var o, c := world.orders[id], BestContra(world, id);
      if c == NO_ORDER || c !in world.orders {
        if o.market {
          AddDeferredEvent(CancelOrder(id));
        }
      } else {
        var contra := world.orders[c];
        var trade := Trade(c, Min(o.leaves, contra.leaves), contra.price);
        if trade.px == 0.0 && o.price == 0.0 {
          return true;
        }
        var remaining := o.leaves - trade.qty;
        AddDeferredEvent(Execution(id, [trade]));
        if remaining > 0 {
          AddDeferredEvent(MatchAgain(id));
        }
      }
    }

    /** ExecutionDeferedEvent::execute. */
    method Execute(base: OrderId, trades: seq<Trade>)
      requires base in world.orders && Fillable(world, trades)
      modifies `world
      ensures world == Executed(old(world), base, trades)
    {
      hide Step, FillContras, Wrapped, Amount, Average;
      ghost var start := world;
      FillNothing(start);
      var qty: Quantity, notional := 0, 0.0;
      assert trades[..0] == [];
      var k := 0;
      while k < |trades|
        invariant k <= |trades|
        invariant world.orders.Keys == start.orders.Keys
        invariant FillContras(start, trades[..k]) == Tally(world, qty, notional)
      {
        FillNext(start, trades, k);
        var t := trades[k];
        var before := world.orders[t.contra].leaves;
        world := Step(world, t.contra, TradeExecution(t.qty, t.px), true);
        if before > world.orders[t.contra].leaves {
          qty, notional := Wrapped(qty + t.qty), notional + Amount(t.qty, t.px);
        }
        k := k + 1;
      }
      assert trades[..k] == trades;
      if qty > 0 {
        world := Step(world, base, TradeExecution(qty, Average(notional, qty)), true);
      }
    }

    /** Processor::onEvent. */
    method OnEvent(e: Deferred) returns (threw: bool)
      requires Runnable(world, e)
      modifies this
      ensures var r := Processed(old(world), e);
              threw == r.threw && world == r.world && events == old(events) + r.events
    {
      hide MatchEvents, Executed, Step;
      threw := false;
      match e
      case Execution(base, trades) => Execute(base, trades);
      case MatchAgain(id) => threw := Match(id);
      case CancelOrder(id) => world := Step(world, id, InternalCancel, true);
    }

    /** The inner loop: the swapped-out events of one round. */
    method DrainRound(tmp: seq<Deferred>) returns (threw: bool)
      requires AllRunnable(world, tmp) && events == []
      modifies this
      ensures Round(world, events, threw) == Drained(old(world), tmp)
    {
      hide Processed;
      ghost var start := world;
      assert Drained(start, []) == Round(start, [], false);
      assert tmp[..0] == [];
      threw := false;
      var k := 0;
      while k < |tmp|
        invariant k <= |tmp| && !threw
        invariant Round(world, events, false) == Drained(start, tmp[..k])
        invariant world.orders.Keys == start.orders.Keys
      {
        assert tmp[..k + 1][..k] == tmp[..k];
        threw := OnEvent(tmp[k]);
        if threw {
          events := [];
          StaysThrown(start, tmp, k + 1);
          return;
        }
        k := k + 1;
      }
      assert tmp[..k] == tmp;
    }

    /** Drains the events of one order in the market that is not stuck.  The loop ends, because every round lowers
        what is left of the order or is the last, and its outcome is the greedy sweep. */
    method ProcessDeferredEvents(ghost id: OrderId) returns (threw: bool)
      requires Faced(world, id) && !Stuck(world, id) && events == Chain(world, id)
      modifies this
      ensures !threw && events == []
      ensures world == Sweep(old(world), id)
    {
      hide Stuck, Drained, TradeTop, Chain, FacingSide, Reaches;
      ghost var start := world;
      ChainIs(world, id);
      threw := false;
      while events != []
        invariant !threw && Faced(world, id) && !Stuck(world, id)
        invariant events == Chain(world, id) || (events == [] && Sweep(world, id) == world)
        invariant Sweep(world, id) == Sweep(start, id)
        decreases world.orders[id].leaves, |events|
      {
        ghost var round := world;
        ChainIs(round, id);
        OneRound(round, id);
        if CanTrade(round, id) {
          RoundLowersLeaves(round, id);
          StuckAfterTrade(round, id);
        } else {
          StuckAtFront(round, id);
        }
        var tmp := events;
        events := [];
        threw := DrainRound(tmp);
        if threw {
          return;
        }
      }
      ChainIs(world, id);
      if CanTrade(world, id) {
        TradeReaches(world, id);
      }
    }
  }
}
