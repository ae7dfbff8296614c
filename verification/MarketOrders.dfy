/**
Market orders.  They are matched like limit orders, at any price, but never enter the book: a market order trades with
the other side from the front until one of them is used up, and what is left of it is cancelled.
*/
module MarketOrders {
  import opened Common
  import opened BookModel
  import opened OrderBookClass
  import opened OrderMachine
  import opened OrderRuns
  import opened OrderLaws
  import opened OrderWorld
  import opened Matching
  import opened Sweeping
  import opened SweepLaw
  import opened Engine

  /** A market order that was brought to the market, opposite to orders that rest. */
  predicate Bidding(w: World, id: OrderId) {
    && id in w.orders && w.orders[id].market && Booked(w.orders[id].zone1) && w.orders[id].zone2.NoCnlReplace?
    && EntryOf(w, id) !in SideList(w, id) && RestingSide(w, Opposite(w.orders[id].side))
  }

  lemma FrontIsContra(w: World, id: OrderId)
    requires Bidding(w, id)
    ensures ContraOf(w, id) == if Contras(w, id) == [] then None else Some(Contras(w, id)[0].id)
    ensures Contras(w, id) != [] ==>
              var top := Contras(w, id)[0];
              && Rests(w, Opposite(w.orders[id].side), top) && top.id != id && top.id != NO_ORDER
              && EntryOf(w, top.id) == top && SideList(w, top.id) == Contras(w, id)
              && Without(Contras(w, id), top) == Contras(w, id)[1..]
  {
    hide SortedSide;
    var list := Contras(w, id);
    if list != [] {
      assert Rests(w, Opposite(w.orders[id].side), list[0]);
      assert IndexOf(list, list[0]) == 0;
      assert list[..0] + list[1..] == list[1..];
    }
  }

  function FrontQty(w: World, id: OrderId): Quantity
    requires Bidding(w, id) && Contras(w, id) != [] && Contras(w, id)[0].id in w.orders
  {
    Min(w.orders[id].leaves, w.orders[Contras(w, id)[0].id].leaves)
  }

  /** A fill of an order without an entry. */
  function FillUnbooked(w: World, id: OrderId, q: Quantity, px: real): World
    requires id in w.orders
  {
    World(w.orders[id := AfterTrade(w.orders[id], false, q)], w.book, w.execs + [Exec(id, q, px)])
  }

  lemma StepIsUnbooked(w: World, id: OrderId, q: Quantity, px: real)
    requires id in w.orders && Booked(w.orders[id].zone1) && 0 < q <= w.orders[id].leaves
    requires EntryOf(w, id) !in SideList(w, id)
    ensures Step(w, id, TradeExecution(q, px), true) == FillUnbooked(w, id, q, px)
  {
    hide Handle, PerformOps, AfterTrade;
    var o, e := w.orders[id], TradeExecution(q, px);
    HandleIs(o, false, e);
    var ops := Queued(o, false, e);
    NoBookOps(o.side, SideList(w, id), EntryOf(w, id), ops, true);
    assert Booking(id, [(q, px)]) == [Exec(id, q, px)];
  }

  /** A trade with the front of the other side. */
  function TradeFront(w: World, id: OrderId): World
    requires Bidding(w, id) && Contras(w, id) != [] && Contras(w, id)[0].id in w.orders
  {
    var top, q := Contras(w, id)[0], FrontQty(w, id);
    FillUnbooked(FillOne(w, top.id, q, top.price), id, q, top.price)
  }

  lemma TradeFrontIs(w: World, id: OrderId)
    requires Bidding(w, id) && Contras(w, id) != [] && w.orders[id].leaves > 0
    ensures Contras(w, id)[0].id in w.orders
    ensures var top, q, n := Contras(w, id)[0], FrontQty(w, id), TradeFront(w, id);
            var o, c := w.orders[id], w.orders[top.id];
            && 0 < q && n.orders == w.orders[top.id := FilledOrder(c, q)][id := AfterTrade(o, false, q)]
            && n.book.On(o.side) == w.book.On(o.side)
            && n.book.On(Opposite(o.side)) == (if q == c.leaves then Contras(w, id)[1..] else Contras(w, id))
            && n.execs == w.execs + [Exec(top.id, q, top.price), Exec(id, q, top.price)]
  {
    FrontIsContra(w, id);
    hide Without, SortedSide, DistinctIds, AfterTrade, FilledOrder;
  }

  /** The entries behind the front. */
  lemma RestUntouched(w: World, id: OrderId, i: nat)
    requires Bidding(w, id) && 0 < i < |Contras(w, id)|
    ensures var list := Contras(w, id);
            && Rests(w, Opposite(w.orders[id].side), list[i])
            && list[i].id in w.orders && list[i].id != id && list[i].id != list[0].id
  {
    hide SortedSide;
    assert Rests(w, Opposite(w.orders[id].side), Contras(w, id)[i]);
  }

  /** The entries after a trade are the same but perhaps for the first, and their orders are the same but for it. */
  lemma ContrasRest(w: World, id: OrderId, i: nat)
    requires Bidding(w, id) && Contras(w, id) != [] && w.orders[id].leaves > 0 && Contras(w, id)[0].id in w.orders
    requires i < |TradeFront(w, id).book.On(Opposite(w.orders[id].side))|
    ensures var n, side := TradeFront(w, id), Opposite(w.orders[id].side); Rests(n, side, n.book.On(side)[i])
  {
    hide TradeFront, RestingSide, AfterTrade;
    TradeFrontIs(w, id);
    FrontIsContra(w, id);
    var n, side, before := TradeFront(w, id), Opposite(w.orders[id].side), Contras(w, id);
    var k := |before| - |n.book.On(side)|;
    assert n.book.On(side)[i] == before[i + k];
    if i + k > 0 {
      RestUntouched(w, id, i + k);
    }
  }

  /** What the trade does to the market order: it stays in the market, whatever is left of it. */
  lemma BaseAfter(o: Order, q: Quantity)
    requires Booked(o.zone1) && q <= o.leaves
    ensures var n := AfterTrade(o, false, q);
            && n.side == o.side && n.market == o.market && n.price == o.price && n.zone2 == o.zone2
            && Booked(n.zone1) && n.leaves == o.leaves - q
  {}

  lemma DistinctTail(list: seq<Entry>)
    requires DistinctIds(list) && list != []
    ensures DistinctIds(list[1..])
  {}

  lemma MakeResting(w: World, side: Side)
    requires SortedSide(side, w.book.On(side)) && DistinctIds(w.book.On(side))
    requires forall i :: 0 <= i < |w.book.On(side)| ==> Rests(w, side, w.book.On(side)[i])
    ensures RestingSide(w, side)
  {
    hide SortedSide, DistinctIds, Faces;
  }

  lemma RestingAfter(w: World, id: OrderId)
    requires Bidding(w, id) && Contras(w, id) != [] && w.orders[id].leaves > 0 && Contras(w, id)[0].id in w.orders
    ensures RestingSide(TradeFront(w, id), Opposite(w.orders[id].side))
  {
    hide TradeFront, SortedSide, DistinctIds, Rests, Faces, AfterTrade, FilledOrder;
    TradeFrontIs(w, id);
    var n, side := TradeFront(w, id), Opposite(w.orders[id].side);
    SortedTail(side, Contras(w, id));
    DistinctTail(Contras(w, id));
    forall i | 0 <= i < |n.book.On(side)|
      ensures Rests(n, side, n.book.On(side)[i])
    {
      ContrasRest(w, id, i);
    }
    MakeResting(n, side);
  }

  lemma BiddingKnown(w: World, id: OrderId)
    requires Bidding(w, id)
    ensures id in w.orders && Booked(w.orders[id].zone1) && w.orders[id].market && w.orders[id].zone2.NoCnlReplace?
    ensures EntryOf(w, id) !in SideList(w, id)
  {}

  lemma TradeFrontKeeps(w: World, id: OrderId)
    requires Bidding(w, id) && Contras(w, id) != [] && w.orders[id].leaves > 0 && Contras(w, id)[0].id in w.orders
    ensures var n := TradeFront(w, id);
            Bidding(n, id) && n.orders.Keys == w.orders.Keys && n.orders[id].leaves < w.orders[id].leaves
  {
    hide TradeFront, RestingSide, AfterTrade, FilledOrder;
    TradeFrontIs(w, id);
    BaseAfter(w.orders[id], FrontQty(w, id));
    RestingAfter(w, id);
  }

  /** The trade is what the execution event of the round makes. */
  lemma ExecutionIsFront(w: World, id: OrderId)
    requires Bidding(w, id) && Contras(w, id) != [] && w.orders[id].leaves > 0
    ensures var top := Contras(w, id)[0];
            top.id in w.orders && Executed(w, id, [Trade(top.id, FrontQty(w, id), top.price)]) == TradeFront(w, id)
  {
    hide Executed, Step, SortedSide, DistinctIds, AfterTrade;
    TradeFrontIs(w, id);
    FrontIsContra(w, id);
    var top, q := Contras(w, id)[0], FrontQty(w, id);
    FrontThere(w, id);
    var mid := FillOne(w, top.id, q, top.price);
    StepIsFill(w, top.id, q, top.price);
    MidUnbooked(w, id, q);
    StepIsUnbooked(mid, id, q, top.price);
    OneTrade(w, id, Trade(top.id, q, top.price), mid, TradeFront(w, id));
  }

  lemma FrontThere(w: World, id: OrderId)
    requires Bidding(w, id) && Contras(w, id) != []
    ensures var top := Contras(w, id)[0]; top.id in w.orders && EntryOf(w, top.id) in SideList(w, top.id)
  {
    FrontIsContra(w, id);
    assert Contras(w, id)[0] in Contras(w, id);
  }

  /** The fill of the front does not touch the market order. */
  lemma MidUnbooked(w: World, id: OrderId, q: Quantity)
    requires Bidding(w, id) && Contras(w, id) != [] && Contras(w, id)[0].id in w.orders
    requires q <= w.orders[Contras(w, id)[0].id].leaves
    ensures var top := Contras(w, id)[0]; var mid := FillOne(w, top.id, q, top.price);
            mid.orders[id] == w.orders[id] && EntryOf(mid, id) !in SideList(mid, id)
  {
    FrontIsContra(w, id);
    hide SortedSide, DistinctIds, Without, FilledOrder;
  }

  /** A round trades with the front and appends the events of the next one. */
  lemma MarketRound(w: World, id: OrderId)
    requires Bidding(w, id) && Contras(w, id) != [] && w.orders[id].leaves > 0 && Contras(w, id)[0].id in w.orders
    ensures AllRunnable(w, Chain(w, id)) && id in TradeFront(w, id).orders
    ensures Drained(w, Chain(w, id)) == Round(TradeFront(w, id), Chain(TradeFront(w, id), id), false)
  {
    hide Executed, MatchEvents, TradeFront, RestingSide, ContraOf;
    ChainRunnable(w, id);
    FrontIsContra(w, id);
    RoundIs(w, id);
    ExecutionIsFront(w, id);
    TradeFrontKeeps(w, id);
    TradeFrontIs(w, id);
    BaseAfter(w.orders[id], FrontQty(w, id));
    var n, top := TradeFront(w, id), Contras(w, id)[0];
    var a := Execution(id, [Trade(top.id, FrontQty(w, id), top.price)]);
    if w.orders[id].leaves > w.orders[top.id].leaves {
      NeverThrows(n, id);
      DrainedTwo(w, a, MatchAgain(id));
      assert [] + MatchEvents(n, id).value == MatchEvents(n, id).value;
    } else {
      DrainedOne(w, a);
    }
  }

  lemma NeverThrows(w: World, id: OrderId)
    requires Bidding(w, id)
    ensures MatchEvents(w, id).Some?
  {
    hide MatchEvents, SortedSide, DistinctIds;
    FrontIsContra(w, id);
    RoundIs(w, id);
  }

  /** Trade with the front as long as there is one, then cancel what is left. */
  ghost function MarketEnd(w: World, id: OrderId): (t: World)
    requires Bidding(w, id)
    ensures t.orders.Keys == w.orders.Keys
    decreases w.orders[id].leaves
  {
    if w.orders[id].leaves == 0 then w
    else if Contras(w, id) == [] then Step(w, id, InternalCancel, true)
    else
      FrontThere(w, id);
      TradeFrontKeeps(w, id);
      MarketEnd(TradeFront(w, id), id)
  }

  /** Draining the events of a market order always ends, and with that. */
  lemma {:induction false} MarketDrains(w: World, id: OrderId) returns (n: nat)
    requires Bidding(w, id)
    ensures AllRunnable(w, Chain(w, id)) && Rounds(w, Chain(w, id), n) == Round(MarketEnd(w, id), [], false)
    decreases w.orders[id].leaves
  {
    hide Drained, TradeFront, MatchEvents, Step, RestingSide, ContraOf;
    ChainRunnable(w, id);
    if w.orders[id].leaves == 0 {
      n := 0;
    } else if Contras(w, id) == [] {
      FrontIsContra(w, id);
      RoundIs(w, id);
      assert Chain(w, id) == [CancelOrder(id)];
      DrainedOne(w, CancelOrder(id));
      n := 1;
      assert Rounds(MarketEnd(w, id), [], 0) == Round(MarketEnd(w, id), [], false);
    } else {
      FrontThere(w, id);
      TradeFrontKeeps(w, id);
      MarketRound(w, id);
      ChainStarts(w, id);
      var m := MarketDrains(TradeFront(w, id), id);
      n := m + 1;
    }
  }

  lemma ChainStarts(w: World, id: OrderId)
    requires Bidding(w, id) && w.orders[id].leaves > 0
    ensures Chain(w, id) != []
  {
    hide MatchEvents, SortedSide, DistinctIds;
    FrontIsContra(w, id);
    RoundIs(w, id);
  }

  // ---------------------------------------------------------------- the outcome in closed form

  /** What the resting orders have left, front first. */
  function Supply(w: World, id: OrderId): seq<nat>
    requires Bidding(w, id)
  {
    LeavesOf(w.orders, Contras(w, id))
  }

  function Shares(w: World, id: OrderId): seq<nat>
    requires Bidding(w, id)
  {
    Alloc(w.orders[id].leaves, Supply(w, id))
  }

  /** The market order after trading `total`.  With something left it is cancelled; used up it is left in its state,
      since only an order with an entry becomes Filled. */
  function MarketOutcome(o: Order, total: Quantity, first: nat): Order
    requires total <= o.leaves
  {
    if total < o.leaves then FilledOrder(o, total).(zone2 := CnclReplaced, status := CanceledStatus)
    else if o.leaves <= first then Traded(o, total)
    else Traded(o, total).(zone1 := PartFill, status := PartFillStatus)
  }

  ghost predicate MarketBase(w: World, id: OrderId, t: World)
    requires Bidding(w, id)
  {
    var o, ls, total := w.orders[id], Supply(w, id), Sum(Shares(w, id));
    && id in t.orders && total <= o.leaves
    && (o.leaves > 0 ==> t.orders[id] == MarketOutcome(o, total, if ls == [] then 0 else ls[0]))
    && (o.leaves == 0 ==> t.orders[id] == o)
    && t.book.On(o.side) == w.book.On(o.side)
    && t.book.On(Opposite(o.side)) == Contras(w, id)[Used(o.leaves, ls)..]
  }

  ghost predicate MarketContras(w: World, id: OrderId, t: World)
    requires Bidding(w, id)
  {
    var list, fs := Contras(w, id), Shares(w, id);
    forall i :: 0 <= i < |fs| ==>
      && list[i].id in t.orders && fs[i] <= w.orders[list[i].id].leaves
      && t.orders[list[i].id] == FilledOrder(w.orders[list[i].id], fs[i])
  }

  ghost predicate MarketOthers(w: World, id: OrderId, t: World)
    requires Bidding(w, id)
  {
    forall k :: k in w.orders && k != id && (forall i :: 0 <= i < |Contras(w, id)| ==> Contras(w, id)[i].id != k) ==>
      k in t.orders && t.orders[k] == w.orders[k]
  }

  lemma CancelledMarket(w: World, id: OrderId)
    requires Bidding(w, id) && Contras(w, id) == []
    ensures Step(w, id, InternalCancel, true) ==
            w.(orders := w.orders[id := w.orders[id].(zone2 := CnclReplaced, status := CanceledStatus)])
  {
    hide Handle, PerformOps, SortedSide, DistinctIds;
    var o := w.orders[id];
    HandleIs(o, false, InternalCancel);
    NoBookOps(o.side, SideList(w, id), EntryOf(w, id), Queued(o, false, InternalCancel), true);
    assert Booking(id, []) == [] && w.execs + [] == w.execs;
  }

  lemma FrontSupply(w: World, id: OrderId)
    requires Bidding(w, id) && Contras(w, id) != []
    ensures var top := Contras(w, id)[0];
            top.id in w.orders && Supply(w, id) != [] && Supply(w, id)[0] == w.orders[top.id].leaves > 0
  {
    FrontIsContra(w, id);
  }

  lemma LeavesRest(a: map<OrderId, Order>, b: map<OrderId, Order>, list: seq<Entry>)
    requires list != [] && (forall i :: 0 <= i < |list| ==> list[i].id in a)
    requires forall i :: 0 < i < |list| ==> list[i].id in b && b[list[i].id] == a[list[i].id]
    ensures forall i :: 0 <= i < |list[1..]| ==> list[1..][i].id in b
    ensures LeavesOf(b, list[1..]) == LeavesOf(a, list)[1..]
  {
    var rest := list[1..];
    assert forall i :: 0 <= i < |rest| ==> rest[i] == list[i + 1];
  }

  lemma SupplyAfter(w: World, id: OrderId)
    requires Bidding(w, id) && Contras(w, id) != [] && w.orders[id].leaves > 0 && Contras(w, id)[0].id in w.orders
    requires Bidding(TradeFront(w, id), id) && Supply(w, id) != [] && Supply(w, id)[0] <= w.orders[id].leaves
    ensures var n := TradeFront(w, id); Contras(n, id) == Contras(w, id)[1..] && Supply(n, id) == Supply(w, id)[1..]
  {
    hide TradeFront, RestingSide, AfterTrade, FilledOrder, LeavesOf;
    TradeFrontIs(w, id);
    FrontSupply(w, id);
    BaseAfter(w.orders[id], FrontQty(w, id));
    var n, list := TradeFront(w, id), Contras(w, id);
    SupplyKnown(w, id);
    forall i | 0 < i < |list|
      ensures list[i].id in n.orders && n.orders[list[i].id] == w.orders[list[i].id]
    {
      RestUntouched(w, id, i);
    }
    LeavesRest(w.orders, n.orders, list);
  }

  lemma SupplyKnown(w: World, id: OrderId)
    requires Bidding(w, id)
    ensures forall i :: 0 <= i < |Contras(w, id)| ==> Contras(w, id)[i].id in w.orders
    ensures |Supply(w, id)| == |Contras(w, id)|
  {
    hide SortedSide;
  }

  /** Trading on after a part has been traded. */
  lemma OutcomeAfter(o: Order, a: Quantity, b: Quantity, first: nat)
    requires Booked(o.zone1) && 0 < a < o.leaves && a + b <= o.leaves
    ensures MarketOutcome(AfterTrade(o, false, a), b, first) == MarketOutcome(o, a + b, a)
  {
    hide Traded;
    var n := AfterTrade(o, false, a);
    assert n == FilledOrder(o, a) && n.leaves == o.leaves - a by { FilledPart(o, a); }
    hide AfterTrade;
    TradesAddUp(o, a, b);
    StateDoesNotTrade(Traded(o, a), PartFill, PartFillStatus, b);
    if a + b < o.leaves {
      hide FilledOrder;
      FillsAddUp(o, a, b);
    }
  }

  lemma FilledPart(o: Order, q: Quantity)
    requires Booked(o.zone1) && 0 < q < o.leaves
    ensures AfterTrade(o, false, q) == FilledOrder(o, q) && FilledOrder(o, q).leaves == o.leaves - q
  {}

  lemma OutcomeAll(o: Order)
    requires Booked(o.zone1) && o.leaves > 0
    ensures AfterTrade(o, false, o.leaves) == MarketOutcome(o, o.leaves, o.leaves)
  {}

  /** A front that is used up leaves the rest as it was. */
  lemma FrontUsedUp(w: World, id: OrderId)
    requires Bidding(w, id) && Contras(w, id) != [] && w.orders[id].leaves > 0 && Contras(w, id)[0].id in w.orders
    requires Bidding(TradeFront(w, id), id) && Supply(w, id) != [] && Supply(w, id)[0] <= w.orders[id].leaves
    ensures var n, o, list, ls := TradeFront(w, id), w.orders[id], Contras(w, id), Supply(w, id);
            && |ls| == |list| && list[0].id != id && 0 < ls[0] == w.orders[list[0].id].leaves
            && Contras(n, id) == list[1..] && Supply(n, id) == ls[1..]
            && n.orders == w.orders[list[0].id := FilledOrder(w.orders[list[0].id], ls[0])]
                                   [id := AfterTrade(o, false, ls[0])]
            && n.book.On(o.side) == w.book.On(o.side)
            && n.orders[id].side == o.side && n.orders[id].leaves == o.leaves - ls[0]
  {
    hide TradeFront, RestingSide, AfterTrade, FilledOrder, Supply;
    SupplyAfter(w, id);
    TradeFrontIs(w, id);
    FrontSupply(w, id);
    FrontApart(w, id);
    SupplyKnown(w, id);
    BaseAfter(w.orders[id], Supply(w, id)[0]);
  }

  /** The law for the rest then extends to the whole. */
  lemma FullMarketBase(w: World, id: OrderId, t: World)
    requires Bidding(w, id) && Contras(w, id) != [] && w.orders[id].leaves > 0 && Contras(w, id)[0].id in w.orders
    requires Bidding(TradeFront(w, id), id) && Supply(w, id) != [] && Supply(w, id)[0] <= w.orders[id].leaves
    requires MarketBase(TradeFront(w, id), id, t)
    ensures MarketBase(w, id, t)
  {
    hide Bidding, TradeFront, AfterTrade, FilledOrder, Supply, Sum, Alloc, Used, MarketOutcome;
    FrontUsedUp(w, id);
    BiddingKnown(w, id);
    BiddingKnown(TradeFront(w, id), id);
    var o, list, ls := w.orders[id], Contras(w, id), Supply(w, id);
    FirstInFull(o.leaves, ls);
    AllocTotal(o.leaves - ls[0], ls[1..]);
    var rest := Sum(Alloc(o.leaves - ls[0], ls[1..]));
    DropTwice(list, Used(o.leaves - ls[0], ls[1..]));
    if ls[0] < o.leaves {
      OutcomeAfter(o, ls[0], rest, if ls[1..] == [] then 0 else ls[1..][0]);
    } else {
      OutcomeAll(o);
    }
  }

  lemma FullMarketOthers(w: World, id: OrderId, t: World)
    requires Bidding(w, id) && Contras(w, id) != [] && w.orders[id].leaves > 0 && Contras(w, id)[0].id in w.orders
    requires Bidding(TradeFront(w, id), id) && Supply(w, id) != [] && Supply(w, id)[0] <= w.orders[id].leaves
    requires MarketOthers(TradeFront(w, id), id, t)
    ensures MarketOthers(w, id, t)
    ensures Contras(w, id)[0].id in t.orders
    ensures t.orders[Contras(w, id)[0].id] == TradeFront(w, id).orders[Contras(w, id)[0].id]
  {
    hide Bidding, TradeFront, AfterTrade, FilledOrder, Supply;
    FrontUsedUp(w, id);
    BiddingKnown(w, id);
    BiddingKnown(TradeFront(w, id), id);
    var list := Contras(w, id);
    forall i | 0 <= i < |list[1..]|
      ensures list[1..][i] == list[i + 1] && list[i + 1].id != list[0].id
    {
      RestUntouched(w, id, i + 1);
    }
  }

  lemma FullMarketContras(w: World, id: OrderId, t: World)
    requires Bidding(w, id) && Contras(w, id) != [] && w.orders[id].leaves > 0 && Contras(w, id)[0].id in w.orders
    requires Bidding(TradeFront(w, id), id) && Supply(w, id) != [] && Supply(w, id)[0] <= w.orders[id].leaves
    requires MarketContras(TradeFront(w, id), id, t) && MarketOthers(TradeFront(w, id), id, t)
    ensures MarketContras(w, id, t) && MarketOthers(w, id, t)
  {
    hide Bidding, TradeFront, AfterTrade, FilledOrder, Supply, Alloc, MarketOthers;
    FullMarketOthers(w, id, t);
    FrontUsedUp(w, id);
    BiddingKnown(w, id);
    BiddingKnown(TradeFront(w, id), id);
    var n, o, list, ls := TradeFront(w, id), w.orders[id], Contras(w, id), Supply(w, id);
    SharesAfter(o.leaves, ls);
    SupplyKnown(w, id);
    SharesKnown(w, id);
    SharesKnown(n, id);
    var fs := Shares(w, id);
    forall i | 0 <= i < |fs|
      ensures list[i].id in t.orders && fs[i] <= w.orders[list[i].id].leaves
      ensures t.orders[list[i].id] == FilledOrder(w.orders[list[i].id], fs[i])
    {
      if i > 0 {
        RestUntouched(w, id, i);
        assert list[1..][i - 1] == list[i] && fs[i] == Shares(n, id)[i - 1];
      }
    }
  }

  lemma SharesAfter(q: nat, ls: seq<nat>)
    requires ls != [] && ls[0] <= q
    ensures Alloc(q, ls) == [ls[0]] + Alloc(q - ls[0], ls[1..])
  {}

  lemma FrontApart(w: World, id: OrderId)
    requires Bidding(w, id) && Contras(w, id) != []
    ensures Contras(w, id)[0].id != id
  {
    FrontIsContra(w, id);
  }

  /** A market order that is used up by the front. */
  lemma LastMarketTrade(w: World, id: OrderId)
    requires Bidding(w, id) && Contras(w, id) != [] && w.orders[id].leaves > 0 && Contras(w, id)[0].id in w.orders
    requires Supply(w, id) != [] && w.orders[id].leaves < Supply(w, id)[0]
    ensures var n := TradeFront(w, id); MarketBase(w, id, n) && MarketContras(w, id, n) && MarketOthers(w, id, n)
    ensures TradeFront(w, id).orders[id].leaves == 0
  {
    hide TradeFront, RestingSide, AfterTrade, Supply, Sum, Alloc, Used;
    TradeFrontIs(w, id);
    FrontSupply(w, id);
    FrontApart(w, id);
    SupplyKnown(w, id);
    var o, list, ls := w.orders[id], Contras(w, id), Supply(w, id);
    BaseAfter(o, o.leaves);
    OutcomeAll(o);
    FirstTakesAll(o.leaves, ls);
    forall i | 0 < i < |list|
      ensures list[i].id in w.orders && list[i].id != id && list[i].id != list[0].id
    {
      RestUntouched(w, id, i);
    }
  }

  lemma NoMarketTrade(w: World, id: OrderId)
    requires Bidding(w, id) && (w.orders[id].leaves == 0 || Contras(w, id) == [])
    ensures var t := MarketEnd(w, id); MarketBase(w, id, t) && MarketContras(w, id, t) && MarketOthers(w, id, t)
  {
    hide Step, SortedSide, DistinctIds, Alloc;
    SupplyKnown(w, id);
    var o, ls := w.orders[id], Supply(w, id);
    if o.leaves == 0 {
      NothingLeft(ls);
      UsedNothing(w, id);
      SharesKnown(w, id);
    } else {
      CancelledMarket(w, id);
      assert Alloc(o.leaves, []) == [];
    }
  }

  lemma UsedNothing(w: World, id: OrderId)
    requires Bidding(w, id)
    ensures Used(0, Supply(w, id)) == 0
  {
    if Contras(w, id) != [] {
      FrontSupply(w, id);
    }
  }

  lemma SharesKnown(w: World, id: OrderId)
    requires Bidding(w, id)
    ensures |Shares(w, id)| == |Contras(w, id)|
  {}

  /** The outcome of a market order: the resting orders trade in their order, all together as much as both sides have;
      what is left of the market order is cancelled, and nobody else is touched. */
  lemma {:induction false} MarketIs(w: World, id: OrderId)
    requires Bidding(w, id)
    ensures var t := MarketEnd(w, id); MarketBase(w, id, t) && MarketContras(w, id, t) && MarketOthers(w, id, t)
    ensures Sum(Shares(w, id)) == Least(w.orders[id].leaves, Sum(Supply(w, id)))
    decreases w.orders[id].leaves
  {
    AllocTotal(w.orders[id].leaves, Supply(w, id));
    hide MarketBase, MarketContras, MarketOthers, TradeFront, Supply, RestingSide, Sum, Alloc;
    if w.orders[id].leaves == 0 || Contras(w, id) == [] {
      NoMarketTrade(w, id);
    } else {
      FrontThere(w, id);
      FrontSupply(w, id);
      TradeFrontKeeps(w, id);
      var n := TradeFront(w, id);
      if Supply(w, id)[0] <= w.orders[id].leaves {
        MarketIs(n, id);
        FullMarketBase(w, id, MarketEnd(n, id));
        FullMarketContras(w, id, MarketEnd(n, id));
      } else {
        LastMarketTrade(w, id);
      }
    }
  }
}
