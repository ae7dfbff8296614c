/**
The meaning of matching: a greedy sweep of the opposite side in price-time order.  Each trade is made with the
front of the opposite side, for as much as both orders have left, at the resting price.
*/
module Sweeping {
  import opened Common
  import opened BookModel
  import opened OrderBookClass
  import opened OrderMachine
  import opened OrderRuns
  import opened OrderWorld
  import opened Matching

  // ---------------------------------------------------------------- a fill

  /** An order after trading `q` in all. */
  function FilledOrder(o: Order, q: Quantity): Order
    requires q <= o.leaves
  {
    if q == 0 then o
    else
      var z := if q == o.leaves then Filled else PartFill;
      Traded(o, q).(zone1 := z, status := StatusOf(z))
  }

  /** A fill of one resting order: it leaves the book with its last unit. */
  function FillOne(w: World, id: OrderId, q: Quantity, px: real): World
    requires id in w.orders && q <= w.orders[id].leaves
  {
    var o, list := w.orders[id], SideList(w, id);
    World(w.orders[id := FilledOrder(o, q)],
          w.book.With(o.side, if q == o.leaves then Without(list, EntryOf(w, id)) else list),
          w.execs + [Exec(id, q, px)])
  }

  /** The state machine fills a resting order that is in the book as `FillOne` says. */
  lemma StepIsFill(w: World, id: OrderId, q: Quantity, px: real)
    requires id in w.orders && Booked(w.orders[id].zone1) && 0 < q <= w.orders[id].leaves
    requires EntryOf(w, id) in SideList(w, id)
    ensures Step(w, id, TradeExecution(q, px), true) == FillOne(w, id, q, px)
  {
    hide Without, PerformOps;
    var o, entry, list, e := w.orders[id], EntryOf(w, id), SideList(w, id), TradeExecution(q, px);
    var r := Handle(o, true, e);
    assert r == Result(FilledOrder(o, q), q == o.leaves, [Report], [(q, px)]) by { HandleFill(o, q, px); }
    hide Handle;
    var left := if r.erased then Without(list, entry) else list;
    NoBookOps(o.side, left, entry, [Report], true);
    assert Booking(id, [(q, px)]) == [Exec(id, q, px)];
  }

  lemma HandleFill(o: Order, q: Quantity, px: real)
    requires Booked(o.zone1) && 0 < q <= o.leaves
    ensures Handle(o, true, TradeExecution(q, px)) ==
            Result(FilledOrder(o, q), q == o.leaves, [Report], [(q, px)])
  {
    assert [] + [Report] == [Report];
  }

  /** The state machine records a trade exactly when it takes it: the order rests and has enough left. */
  predicate Takes(o: Order, q: Quantity) {
    Booked(o.zone1) && q <= o.leaves
  }

  lemma HandleTrade(o: Order, inBook: bool, q: Quantity, px: real)
    ensures var r := Handle(o, inBook, TradeExecution(q, px));
            && r.execs == (if Takes(o, q) then [(q, px)] else [])
            && r.order.leaves == o.leaves - (if Takes(o, q) then q else 0)
            && (!Takes(o, q) ==> r == Result(o, false, [], []))
  {}

  lemma TradeRecords(w: World, id: OrderId, q: Quantity, px: real)
    requires id in w.orders
    ensures var n, takes := Step(w, id, TradeExecution(q, px), true), Takes(w.orders[id], q);
            && n.execs == w.execs + (if takes then [Exec(id, q, px)] else [])
            && n.orders[id].leaves == w.orders[id].leaves - (if takes then q else 0)
            && (!takes ==> n == w)
  {
    hide PerformOps, Without, Handle, Takes;
    var o, entry, list := w.orders[id], EntryOf(w, id), SideList(w, id);
    HandleTrade(o, entry in list, q, px);
    assert Booking(id, [(q, px)]) == [Exec(id, q, px)] && Booking(id, []) == [] && w.execs + [] == w.execs;
    NoBookOps(o.side, list, entry, [], true);
  }

  /** Two fills of an order make one fill of their sum. */
  lemma FillsAddUp(o: Order, a: Quantity, b: Quantity)
    requires a + b <= o.leaves && (b > 0 ==> a < o.leaves)
    ensures FilledOrder(FilledOrder(o, a), b) == FilledOrder(o, a + b)
  {
    if a > 0 && b > 0 {
      TradesAddUp(o, a, b);
      hide Traded;
      var z := PartFill;
      StateDoesNotTrade(Traded(o, a), z, StatusOf(z), b);
    }
  }

  lemma TradesAddUp(o: Order, a: Quantity, b: Quantity)
    requires a + b <= o.leaves
    ensures Traded(Traded(o, a), b) == Traded(o, a + b) && Traded(o, a).leaves == o.leaves - a
  {}

  lemma StateDoesNotTrade(o: Order, z: Zone1, status: Status, b: Quantity)
    requires b <= o.leaves
    ensures Traded(o.(zone1 := z, status := status), b) == Traded(o, b).(zone1 := z, status := status)
  {}

  // ---------------------------------------------------------------- a round of the sweep

  /** An entry that matching can meet: a limit order at its own price and side with something left. */
  predicate Faces(w: World, side: Side, e: Entry) {
    && e.id in w.orders && e.id != NO_ORDER && e.price > 0.0
    && var o := w.orders[e.id]; o.side == side && o.price == e.price && !o.market && o.leaves > 0
  }

  /** It rests, that is, it also takes a trade. */
  predicate Rests(w: World, side: Side, e: Entry) {
    Faces(w, side, e) && Booked(w.orders[e.id].zone1)
  }

  predicate DistinctIds(list: seq<Entry>) {
    forall i, j :: 0 <= i < j < |list| ==> list[i].id != list[j].id
  }

  predicate FacingSide(w: World, side: Side) {
    && SortedSide(side, w.book.On(side)) && DistinctIds(w.book.On(side))
    && forall i :: 0 <= i < |w.book.On(side)| ==> Faces(w, side, w.book.On(side)[i])
  }

  predicate AllRest(w: World, side: Side) {
    forall i :: 0 <= i < |w.book.On(side)| ==> Rests(w, side, w.book.On(side)[i])
  }

  predicate RestingSide(w: World, side: Side) {
    FacingSide(w, side) && AllRest(w, side)
  }

  /** The order is in the market, opposite to entries that matching can meet. */
  predicate Faced(w: World, id: OrderId) {
    && id in w.orders && !w.orders[id].market && w.orders[id].price > 0.0
    && (w.orders[id].leaves > 0 ==> Booked(w.orders[id].zone1) && EntryOf(w, id) in SideList(w, id))
    && FacingSide(w, Opposite(w.orders[id].side))
  }

  /** All of them rest. */
  predicate Ready(w: World, id: OrderId) {
    Faced(w, id) && AllRest(w, Opposite(w.orders[id].side))
  }

  function Contras(w: World, id: OrderId): seq<Entry>
    requires id in w.orders
  {
    w.book.On(Opposite(w.orders[id].side))
  }

  /** The front of the opposite side is within reach. */
  predicate Reaches(w: World, id: OrderId)
    requires id in w.orders
  {
    var o, list := w.orders[id], Contras(w, id);
    o.leaves > 0 && list != [] && Crosses(o.side, o.price, list[0].price)
  }

  /** And it takes a trade. */
  predicate CanTrade(w: World, id: OrderId)
    requires id in w.orders
  {
    Reaches(w, id) && Contras(w, id)[0].id in w.orders && Booked(w.orders[Contras(w, id)[0].id].zone1)
  }

  lemma ReadyTrades(w: World, id: OrderId)
    requires Ready(w, id)
    ensures CanTrade(w, id) <==> Reaches(w, id)
  {
    if Reaches(w, id) {
      assert Rests(w, Opposite(w.orders[id].side), Contras(w, id)[0]);
    }
  }

  function TopQty(w: World, id: OrderId): Quantity
    requires Faced(w, id) && Reaches(w, id)
  {
    Min(w.orders[id].leaves, w.orders[Contras(w, id)[0].id].leaves)
  }

  /** One trade with the front of the opposite side. */
  function TradeTop(w: World, id: OrderId): World
    requires Faced(w, id) && CanTrade(w, id)
  {
    var top, q := Contras(w, id)[0], TopQty(w, id);
    FillOne(FillOne(w, top.id, q, top.price), id, q, top.price)
  }

  lemma TopEntry(w: World, id: OrderId)
    requires Faced(w, id) && Reaches(w, id)
    ensures var top := Contras(w, id)[0];
            && Faces(w, Opposite(w.orders[id].side), top) && top.id != id
            && EntryOf(w, top.id) == top && SideList(w, top.id) == Contras(w, id)
            && Without(Contras(w, id), top) == Contras(w, id)[1..]
  {
    var list := Contras(w, id);
    assert IndexOf(list, list[0]) == 0;
    assert list[..0] + list[1..] == list[1..];
  }

  /** What one trade does to the opposite side and to every order. */
  lemma TradeTopIs(w: World, id: OrderId)
    requires Faced(w, id) && CanTrade(w, id)
    ensures var top, q, n := Contras(w, id)[0], TopQty(w, id), TradeTop(w, id);
            var o, c := w.orders[id], w.orders[top.id];
            && n.orders == w.orders[top.id := FilledOrder(c, q)][id := FilledOrder(o, q)]
            && Contras(n, id) == (if q == c.leaves then Contras(w, id)[1..] else Contras(w, id))
            && SideList(n, id) == (if q == o.leaves then Without(SideList(w, id), EntryOf(w, id)) else SideList(w, id))
            && n.execs == w.execs + [Exec(top.id, q, top.price), Exec(id, q, top.price)]
            && 0 < q
  {
    TopEntry(w, id);
    hide Without, Faces, SortedSide, DistinctIds;
  }

  /** The entries after a trade are the same but perhaps for the first, and their orders are the same but for it. */
  lemma ContrasAfter(w: World, id: OrderId, i: nat)
    requires Faced(w, id) && CanTrade(w, id) && i < |Contras(TradeTop(w, id), id)|
    ensures var n, side := TradeTop(w, id), Opposite(w.orders[id].side);
            var k := |Contras(w, id)| - |Contras(n, id)|;
            && 0 <= k && i + k < |Contras(w, id)| && Contras(n, id)[i] == Contras(w, id)[i + k]
            && Faces(n, side, Contras(n, id)[i])
            && (Rests(w, side, Contras(w, id)[i + k]) ==> Rests(n, side, Contras(n, id)[i]))
  {
    hide Without, TradeTop, SortedSide;
    TradeTopIs(w, id);
    TopEntry(w, id);
    var n, side, before := TradeTop(w, id), Opposite(w.orders[id].side), Contras(w, id);
    assert n.orders[id].side == w.orders[id].side;
    var k := |before| - |Contras(n, id)|;
    assert Faces(w, side, before[i + k]);
    assert before[i + k] == before[0] || before[i + k].id != before[0].id;
  }

  lemma SidesAfter(w: World, id: OrderId)
    requires Faced(w, id) && CanTrade(w, id)
    ensures var side := Opposite(w.orders[id].side);
            FacingSide(TradeTop(w, id), side) && (AllRest(w, side) ==> AllRest(TradeTop(w, id), side))
  {
    hide Without, TradeTop, SortedSide, Faces, Rests;
    TradeTopIs(w, id);
    var n, side, before := TradeTop(w, id), Opposite(w.orders[id].side), Contras(w, id);
    assert n.orders[id].side == w.orders[id].side by { FilledSide(w.orders[id], TopQty(w, id)); }
    SortedTail(side, before);
    forall i | 0 <= i < |n.book.On(side)|
      ensures Faces(n, side, n.book.On(side)[i])
      ensures AllRest(w, side) ==> Rests(n, side, n.book.On(side)[i])
    {
      ContrasAfter(w, id, i);
    }
  }

  lemma FilledSide(o: Order, q: Quantity)
    requires q <= o.leaves
    ensures FilledOrder(o, q).side == o.side && FilledOrder(o, q).price == o.price
  {}

  lemma TradeTopKeepsFaced(w: World, id: OrderId)
    requires Faced(w, id) && CanTrade(w, id)
    ensures Faced(TradeTop(w, id), id) && (Ready(w, id) ==> Ready(TradeTop(w, id), id))
  {
    hide Without, TradeTop, FacingSide, AllRest, Faces;
    TradeTopIs(w, id);
    SidesAfter(w, id);
  }

  lemma SortedTail(side: Side, list: seq<Entry>)
    requires SortedSide(side, list) && list != []
    ensures SortedSide(side, list[1..])
  {}

  lemma RoundLowersLeaves(w: World, id: OrderId)
    requires Faced(w, id) && CanTrade(w, id)
    ensures var n := TradeTop(w, id);
            && Faced(n, id) && (Ready(w, id) ==> Ready(n, id))
            && n.orders.Keys == w.orders.Keys && n.orders[id].leaves < w.orders[id].leaves
  {
    TradeTopKeepsFaced(w, id);
    hide Faced, TradeTop, CanTrade;
    TradeTopIs(w, id);
  }

  /** The greedy sweep: trade with the front of the opposite side as long as that is possible. */
  ghost function Sweep(w: World, id: OrderId): (t: World)
    requires Faced(w, id)
    ensures t.orders.Keys == w.orders.Keys
    decreases w.orders[id].leaves
  {
    if CanTrade(w, id) then
      RoundLowersLeaves(w, id);
      Sweep(TradeTop(w, id), id)
    else w
  }
}
