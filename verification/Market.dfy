/**
Whole runs of the market.  Orders arrive, trade, expire, are suspended, continued, corrected and cancelled; after
every event and the matching it causes, the book is consistent with the orders, and no bid reaches an ask unless an
order slipped into the book unmatched.
*/
module Market {
  import opened Common
  import opened BookModel
  import opened OrderBookClass
  import opened OrderMachine
  import opened OrderRuns
  import opened OrderWorld
  import opened Matching
  import opened Sweeping
  import opened Engine

  // ---------------------------------------------------------------- a consistent market

  predicate Listed(w: World, side: Side, e: Entry) {
    e.id in w.orders && w.orders[e.id].side == side && w.orders[e.id].price == e.price
  }

  ghost predicate WorldOk(w: World) {
    && w.book.Sorted()
    && (forall e :: e in w.book.buy ==> Listed(w, Buy, e))
    && (forall e :: e in w.book.sell ==> Listed(w, Sell, e))
    && (forall k :: k in w.orders ==> k != NO_ORDER && w.orders[k].price > 0.0 && Consistent(View(w, k)))
  }

  /** The best bid is below the best ask. */
  predicate Uncrossed(w: World) {
    forall b, s :: b in w.book.buy && s in w.book.sell ==> b.price < s.price
  }

  predicate UncrossedBut(w: World, id: OrderId) {
    forall b, s :: b in w.book.buy && s in w.book.sell && b.id != id && s.id != id ==> b.price < s.price
  }

  lemma ListedOn(w: World, side: Side, e: Entry)
    requires WorldOk(w) && e in w.book.On(side)
    ensures Listed(w, side, e) && EntryOf(w, e.id) == e && SideList(w, e.id) == w.book.On(side)
  {}

  lemma EntryRests(w: World, side: Side, e: Entry)
    requires WorldOk(w) && e in w.book.On(side)
    ensures Rests(w, side, e) && multiset(w.book.On(side))[e] == 1
  {
    ListedOn(w, side, e);
    assert Consistent(View(w, e.id));
    assert e in multiset(w.book.On(side));
  }

  lemma TwiceInList(list: seq<Entry>, i: nat, j: nat)
    requires i < j < |list| && list[i] == list[j]
    ensures multiset(list)[list[i]] >= 2
  {
    assert list == list[..j] + [list[j]] + list[j + 1..];
    assert list[i] in list[..j];
  }

  /** Every order in the book has something left and rests properly, and none is there twice. */
  lemma SidesRest(w: World, side: Side)
    requires WorldOk(w)
    ensures RestingSide(w, side)
  {
    hide Rests, Faces, WorldOk;
    var list := w.book.On(side);
    forall i | 0 <= i < |list|
      ensures Rests(w, side, list[i]) && Faces(w, side, list[i])
    {
      EntryRests(w, side, list[i]);
      RestsFaces(w, side, list[i]);
    }
    forall i, j | 0 <= i < j < |list|
      ensures list[i].id != list[j].id
    {
      ListedOn(w, side, list[i]);
      ListedOn(w, side, list[j]);
      EntryRests(w, side, list[i]);
      if list[i] == list[j] {
        TwiceInList(list, i, j);
        assert false;
      }
    }
    assert SortedSide(side, list) by { BookSorted(w, side); }
  }

  lemma RestsFaces(w: World, side: Side, e: Entry)
    requires Rests(w, side, e)
    ensures Faces(w, side, e)
  {}

  lemma BookSorted(w: World, side: Side)
    requires WorldOk(w)
    ensures SortedSide(side, w.book.On(side))
  {}

  // ---------------------------------------------------------------- one event

  /** The inputs of the market: whatever a limit order may get, at any time, cancelled or not, except what puts an order
      into the book that cannot be traded with or leaves one there. */
  predicate Acceptable(w: World, id: OrderId, e: Event, saves: bool) {
    id in w.orders && !w.orders[id].market && !e.ExternalOrder? && !Spoils(View(w, id), e, saves)
  }

  /** The entries after an event: those before it, and perhaps the acting order's own, which is new only if the
      event also asks for matching. */
  lemma StepEntries(w: World, id: OrderId, e: Event, saves: bool, side: Side, x: Entry)
    requires w.book.Sorted() && id in w.orders && x in Step(w, id, e, saves).book.On(side)
    ensures x in w.book.On(side) || (x == EntryOf(w, id) && side == w.orders[id].side)
    ensures x == EntryOf(w, id) && side == w.orders[id].side ==> LocalStep(View(w, id), e, saves).copies > 0
  {
    StepSide(w, id, e, saves);
    hide Step, LocalStep;
    var o := w.orders[id];
    var after := Step(w, id, e, saves).book.On(side);
    assert x in multiset(after);
    if side != o.side {
      assert after == w.book.On(side) by { OtherSide(w, id, e, saves); }
    } else {
      assert x != EntryOf(w, id) ==> x in multiset(w.book.On(side));
    }
  }

  lemma OtherSide(w: World, id: OrderId, e: Event, saves: bool)
    requires id in w.orders
    ensures Step(w, id, e, saves).book.On(Opposite(w.orders[id].side)) == w.book.On(Opposite(w.orders[id].side))
  {
    hide Handle, PerformOps;
  }

  /** The terms of the orders are fixed. */
  lemma StepTerms(w: World, id: OrderId, e: Event, saves: bool, k: OrderId)
    requires id in w.orders && k in w.orders
    ensures var n := Step(w, id, e, saves);
            && n.orders[k].side == w.orders[k].side && n.orders[k].price == w.orders[k].price
            && n.orders[k].market == w.orders[k].market
  {
    HandleKeeps(w.orders[id], EntryOf(w, id) in SideList(w, id), e);
    hide Handle, PerformOps;
  }

  lemma StepListed(w: World, id: OrderId, e: Event, saves: bool, side: Side, x: Entry)
    requires WorldOk(w) && id in w.orders && x in Step(w, id, e, saves).book.On(side)
    ensures Listed(Step(w, id, e, saves), side, x)
  {
    hide Step, WorldOk, LocalStep;
    assert w.book.Sorted() by { SortedBook(w); }
    StepEntries(w, id, e, saves, side, x);
    if x in w.book.On(side) {
      ListedOn(w, side, x);
    }
    StepTerms(w, id, e, saves, x.id);
  }

  lemma SortedBook(w: World)
    requires WorldOk(w)
    ensures w.book.Sorted()
  {}

  lemma OrderOk(w: World, k: OrderId)
    requires WorldOk(w) && k in w.orders
    ensures k != NO_ORDER && w.orders[k].price > 0.0 && Consistent(View(w, k))
  {}

  lemma StepConsistent(w: World, id: OrderId, e: Event, saves: bool, k: OrderId)
    requires WorldOk(w) && Acceptable(w, id, e, saves) && k in w.orders
    ensures Step(w, id, e, saves).orders[k].price > 0.0 && Consistent(View(Step(w, id, e, saves), k))
  {
    hide Step, WorldOk, LocalStep, Consistent, View, Spoils;
    SortedBook(w);
    OrderOk(w, k);
    OrderOk(w, id);
    StepTerms(w, id, e, saves, k);
    StepView(w, id, e, saves, k);
    if k == id {
      assert View(w, id).order == w.orders[id] by { ViewOrder(w, id); }
      ConsistentIff(View(w, id), e, saves);
    }
  }

  lemma ViewOrder(w: World, id: OrderId)
    requires id in w.orders
    ensures View(w, id).order == w.orders[id]
  {}

  /** Every acceptable event keeps the market consistent. */
  lemma StepKeepsWorld(w: World, id: OrderId, e: Event, saves: bool)
    requires WorldOk(w) && Acceptable(w, id, e, saves)
    ensures WorldOk(Step(w, id, e, saves))
  {
    hide Step, Listed, Consistent, View, Spoils;
    var n := Step(w, id, e, saves);
    assert n.book.Sorted() by { StepView(w, id, e, saves, id); }
    forall x | x in n.book.buy
      ensures Listed(n, Buy, x)
    {
      StepListed(w, id, e, saves, Buy, x);
    }
    forall x | x in n.book.sell
      ensures Listed(n, Sell, x)
    {
      StepListed(w, id, e, saves, Sell, x);
    }
    forall k | k in n.orders
      ensures k != NO_ORDER && n.orders[k].price > 0.0 && Consistent(View(n, k))
    {
      StepConsistent(w, id, e, saves, k);
    }
  }

  /** And no other event of a limit order does. */
  lemma StepKeepsWorldIff(w: World, id: OrderId, e: Event, saves: bool)
    requires WorldOk(w) && id in w.orders && !w.orders[id].market && !e.ExternalOrder?
    ensures WorldOk(Step(w, id, e, saves)) <==> Acceptable(w, id, e, saves)
  {
    hide Step, Consistent, View, Spoils, LocalStep;
    if Acceptable(w, id, e, saves) {
      StepKeepsWorld(w, id, e, saves);
    } else {
      StepView(w, id, e, saves, id);
      assert View(w, id).order == w.orders[id] by { ViewOrder(w, id); }
      ConsistentIff(View(w, id), e, saves);
    }
  }

  // ---------------------------------------------------------------- entering and matching

  /** The order enters the book: the event says so and the saver accepts it. */
  predicate Enters(w: World, id: OrderId, e: Event, saves: bool)
    requires id in w.orders
  {
    EntersOn(w.orders[id], e) && saves
  }

  /** An order in the book may be matched. */
  lemma BookedIsReady(w: World, id: OrderId)
    requires WorldOk(w) && id in w.orders && !w.orders[id].market
    requires w.orders[id].leaves > 0 ==> View(w, id).copies > 0
    ensures Ready(w, id)
  {
    SidesRest(w, Opposite(w.orders[id].side));
    OrderOk(w, id);
    hide WorldOk, FacingSide, AllRest;
    if w.orders[id].leaves > 0 {
      assert EntryOf(w, id) in multiset(SideList(w, id));
    }
  }

  lemma EnteredIsReady(w: World, id: OrderId, e: Event, saves: bool)
    requires WorldOk(w) && Acceptable(w, id, e, saves) && Enters(w, id, e, saves)
    ensures WorldOk(Step(w, id, e, saves)) && Ready(Step(w, id, e, saves), id)
    ensures Step(w, id, e, saves).orders[id].leaves > 0
  {
    hide WorldOk, Step, LocalStep, Ready, Spoils, Consistent, EntersOn;
    StepKeepsWorld(w, id, e, saves);
    SortedBook(w);
    OrderOk(w, id);
    StepView(w, id, e, saves, id);
    ConsistentEntries(View(w, id), e, saves);
    StepTerms(w, id, e, saves, id);
    BookedIsReady(Step(w, id, e, saves), id);
  }

  /** An event and the matching it asks for. */
  ghost function Settle(w: World, id: OrderId, e: Event, saves: bool): World
    requires WorldOk(w) && Acceptable(w, id, e, saves)
  {
    if Enters(w, id, e, saves) then
      EnteredIsReady(w, id, e, saves);
      Sweep(Step(w, id, e, saves), id)
    else Step(w, id, e, saves)
  }

  /** A round of the sweep is made of two acceptable events. */
  lemma RoundKeepsWorld(w: World, id: OrderId)
    requires WorldOk(w) && Faced(w, id) && CanTrade(w, id)
    ensures WorldOk(TradeTop(w, id))
  {
    hide WorldOk, FacingSide, AllRest, Without, Step, Acceptable;
    TopEntry(w, id);
    var top, q := Contras(w, id)[0], TopQty(w, id);
    var mid := FillOne(w, top.id, q, top.price);
    TradeAcceptable(w, top.id, q, top.price);
    StepIsFill(w, top.id, q, top.price);
    StepKeepsWorld(w, top.id, TradeExecution(q, top.price), true);
    TradeAcceptable(mid, id, q, top.price);
    StepIsFill(mid, id, q, top.price);
    StepKeepsWorld(mid, id, TradeExecution(q, top.price), true);
  }

  /** A resting order may be traded with. */
  lemma TradeAcceptable(w: World, id: OrderId, q: Quantity, px: real)
    requires WorldOk(w) && id in w.orders && EntryOf(w, id) in SideList(w, id)
    ensures Acceptable(w, id, TradeExecution(q, px), true)
  {
    OrderOk(w, id);
    assert EntryOf(w, id) in multiset(SideList(w, id));
  }

  lemma RoundKeepsUncrossed(w: World, id: OrderId)
    requires Faced(w, id) && CanTrade(w, id) && UncrossedBut(w, id)
    ensures UncrossedBut(TradeTop(w, id), id)
  {
    hide TradeTop, Faced;
    TradeTopIs(w, id);
    var n := TradeTop(w, id);
    assert forall x :: x in n.book.buy ==> x in w.book.buy;
    assert forall x :: x in n.book.sell ==> x in w.book.sell;
  }

  lemma {:induction false} SweepKeepsWorld(w: World, id: OrderId)
    requires WorldOk(w) && Faced(w, id)
    ensures WorldOk(Sweep(w, id))
    decreases w.orders[id].leaves
  {
    hide WorldOk, FacingSide, TradeTop;
    if CanTrade(w, id) {
      RoundLowersLeaves(w, id);
      RoundKeepsWorld(w, id);
      SweepKeepsWorld(TradeTop(w, id), id);
    }
  }

  lemma SettleKeepsWorld(w: World, id: OrderId, e: Event, saves: bool)
    requires WorldOk(w) && Acceptable(w, id, e, saves)
    ensures WorldOk(Settle(w, id, e, saves))
  {
    hide WorldOk, Step, Faced, AllRest, Spoils, EntersOn, Sweep;
    StepKeepsWorld(w, id, e, saves);
    if Enters(w, id, e, saves) {
      EnteredIsReady(w, id, e, saves);
      SweepKeepsWorld(Step(w, id, e, saves), id);
    }
  }

  /** A finished sweep leaves no cross behind. */
  lemma {:induction false} SweepUncrosses(w: World, id: OrderId)
    requires WorldOk(w) && Ready(w, id) && UncrossedBut(w, id)
    ensures Uncrossed(Sweep(w, id))
    decreases w.orders[id].leaves
  {
    hide WorldOk, FacingSide, AllRest, TradeTop, Uncrossed, UncrossedBut;
    if CanTrade(w, id) {
      RoundLowersLeaves(w, id);
      RoundKeepsWorld(w, id);
      RoundKeepsUncrossed(w, id);
      SweepUncrosses(TradeTop(w, id), id);
    } else {
      NothingToTrade(w, id);
    }
  }

  lemma NothingToTrade(w: World, id: OrderId)
    requires WorldOk(w) && Ready(w, id) && UncrossedBut(w, id) && !CanTrade(w, id)
    ensures Uncrossed(w)
  {
    var o, list := w.orders[id], Contras(w, id);
    ReadyTrades(w, id);
    hide FacingSide, AllRest;
    forall b, s | b in w.book.buy && s in w.book.sell
      ensures b.price < s.price
    {
      OwnEntry(w, id, Buy, b);
      OwnEntry(w, id, Sell, s);
      if b.id == id || s.id == id {
        var x := if o.side.Buy? then s else b;
        FrontIsBest(w, Opposite(o.side), x);
      }
    }
  }

  /** An entry of the order is on its side, at its price, and says that it has something left. */
  lemma OwnEntry(w: World, id: OrderId, side: Side, x: Entry)
    requires WorldOk(w) && id in w.orders && x in w.book.On(side)
    ensures x.id == id ==> side == w.orders[id].side && x.price == w.orders[id].price && w.orders[id].leaves > 0
  {
    EntryRests(w, side, x);
  }

  lemma FrontIsBest(w: World, side: Side, x: Entry)
    requires WorldOk(w) && x in w.book.On(side)
    ensures !Before(side, x.price, w.book.On(side)[0].price)
  {
    BookSorted(w, side);
    var i :| 0 <= i < |w.book.On(side)| && w.book.On(side)[i] == x;
  }

  lemma StepUncrossedBut(w: World, id: OrderId, e: Event, saves: bool)
    requires WorldOk(w) && Uncrossed(w) && id in w.orders
    ensures UncrossedBut(Step(w, id, e, saves), id)
  {
    hide Step, WorldOk, LocalStep;
    SortedBook(w);
    var n := Step(w, id, e, saves);
    forall b, s | b in n.book.buy && s in n.book.sell && b.id != id && s.id != id
      ensures b.price < s.price
    {
      StepEntries(w, id, e, saves, Buy, b);
      StepEntries(w, id, e, saves, Sell, s);
    }
  }

  /** The order reaches nobody on the opposite side. */
  predicate Clear(w: World, id: OrderId)
    requires id in w.orders
  {
    forall x :: x in Contras(w, id) ==> !Crosses(w.orders[id].side, w.orders[id].price, x.price)
  }

  /** An order that slips into the book unmatched reaches nobody. */
  predicate Quiet(w: World, id: OrderId, e: Event)
    requires id in w.orders
  {
    SlipsIn(View(w, id), e) ==> Clear(w, id)
  }

  lemma SlipUncrossedIff(w: World, id: OrderId, e: Event, saves: bool)
    requires WorldOk(w) && Uncrossed(w) && Acceptable(w, id, e, saves) && SlipsIn(View(w, id), e)
    ensures Uncrossed(Step(w, id, e, saves)) <==> Clear(w, id)
  {
    hide Step, WorldOk, LocalStep, Spoils, EntersOn, LeavesOn, Consistent;
    SortedBook(w);
    OrderOk(w, id);
    ConsistentEntries(View(w, id), e, saves);
    StepView(w, id, e, saves, id);
    StepTerms(w, id, e, saves, id);
    OtherSide(w, id, e, saves);
    var n, own := Step(w, id, e, saves), EntryOf(w, id);
    assert own in multiset(n.book.On(w.orders[id].side));
    if Clear(w, id) {
      forall b, s | b in n.book.buy && s in n.book.sell
        ensures b.price < s.price
      {
        StepEntries(w, id, e, saves, Buy, b);
        StepEntries(w, id, e, saves, Sell, s);
      }
    } else {
      var x :| x in Contras(w, id) && Crosses(w.orders[id].side, w.orders[id].price, x.price);
      assert x in n.book.On(Opposite(w.orders[id].side));
    }
  }

  lemma StepUncrossed(w: World, id: OrderId, e: Event, saves: bool)
    requires WorldOk(w) && Uncrossed(w) && Acceptable(w, id, e, saves) && !Enters(w, id, e, saves)
    requires !SlipsIn(View(w, id), e)
    ensures Uncrossed(Step(w, id, e, saves))
  {
    hide Step, WorldOk, LocalStep, Spoils, EntersOn, LeavesOn, Consistent;
    SortedBook(w);
    OrderOk(w, id);
    ConsistentEntries(View(w, id), e, saves);
    var n := Step(w, id, e, saves);
    assert View(w, id).copies > 0 ==> EntryOf(w, id) in w.book.On(w.orders[id].side);
    forall b, s | b in n.book.buy && s in n.book.sell
      ensures b.price < s.price
    {
      StepEntries(w, id, e, saves, Buy, b);
      StepEntries(w, id, e, saves, Sell, s);
    }
  }

  lemma EnteringNeverSlips(l: Local, e: Event)
    requires EntersOn(l.order, e)
    ensures !SlipsIn(l, e)
  {}

  /** After an event and its matching no bid reaches an ask if and only if no order slipped into the book that reaches
      somebody. */
  lemma SettleKeepsMarketIff(w: World, id: OrderId, e: Event, saves: bool)
    requires WorldOk(w) && Uncrossed(w) && Acceptable(w, id, e, saves)
    ensures Uncrossed(Settle(w, id, e, saves)) <==> Quiet(w, id, e)
  {
    hide WorldOk, Uncrossed, UncrossedBut, Step, Faced, AllRest, Spoils, EntersOn, Sweep, SlipsIn, Clear;
    if Enters(w, id, e, saves) {
      EnteringNeverSlips(View(w, id), e);
      EnteredIsReady(w, id, e, saves);
      StepUncrossedBut(w, id, e, saves);
      SweepUncrosses(Step(w, id, e, saves), id);
    } else if SlipsIn(View(w, id), e) {
      SlipUncrossedIff(w, id, e, saves);
    } else {
      StepUncrossed(w, id, e, saves);
    }
  }

  /** It can happen: an order whose entry was refused is cancelled, slips into the book and crosses it. */
  lemma SlipCrosses(o: Order, c: Order, saves: bool)
    requires RestsWell(o) && o.side == Buy && o.status == NewStatus && o.zone2 == NoCnlReplace
    requires RestsWell(c) && c.side == Sell && o.price >= c.price > 0.0
    ensures var w := World(map[1 := o, 2 := c], Group([], [Entry(c.price, 2)]), []);
            WorldOk(w) && Uncrossed(w) && Acceptable(w, 1, InternalCancel, saves) && !Quiet(w, 1, InternalCancel)
  {
    var w := World(map[1 := o, 2 := c], Group([], [Entry(c.price, 2)]), []);
    assert View(w, 1) == Local(o, 0);
    assert View(w, 2) == Local(c, 1);
    assert Entry(c.price, 2) in Contras(w, 1);
  }

  // ---------------------------------------------------------------- the transaction of an event

  /** Matching looks at the orders and at the opposite side only. */
  lemma MatchLooksAt(w: World, v: World, id: OrderId)
    requires id in w.orders && v.orders == w.orders
    requires v.book.On(Opposite(w.orders[id].side)) == w.book.On(Opposite(w.orders[id].side))
    ensures MatchEvents(v, id) == MatchEvents(w, id)
  {}

  /** What the machine queues: matching and an entry together, or a removal. */
  lemma QueuedOps(w: World, id: OrderId, e: Event)
    requires id in w.orders && !w.orders[id].market && !e.ExternalOrder?
    ensures var r := Handle(w.orders[id], EntryOf(w, id) in SideList(w, id), e);
            && (RemoveFromBook in r.ops ==> MatchOrder !in r.ops && !r.erased)
            && (MatchOrder in r.ops <==> EntersOn(w.orders[id], e))
            && (AddToBook in r.ops <==> EntersOn(w.orders[id], e))
  {
    hide Handle, EntersOn, LeavesOn, FillsUp;
    HandleBookOps(w.orders[id], EntryOf(w, id) in SideList(w, id), e);
    OpsExclude(w.orders[id], e);
  }

  /** The operations of a transaction, in their order.  If the saver refuses the order, its entry and the events of
      the matching are taken back and the rest is not performed.  A removal that finds nothing puts an entry in. */
  method PerformTransaction(p: Processor, id: OrderId, ops: seq<Op>, saves: bool)
    requires id in p.world.orders && p.events == [] && OneBookOp(ops) && MatchFirst(ops)
    requires RemoveFromBook in ops && MatchOrder in ops ==> EntryOf(p.world, id) in SideList(p.world, id)
    requires MatchOrder in ops ==> MatchEvents(p.world, id).Some?
    modifies p
    ensures var w, o := old(p.world), old(p.world).orders[id];
            p.world ==
            w.(book := w.book.With(o.side, PerformOps(o.side, SideList(w, id), EntryOf(w, id), ops, saves)))
    ensures p.events ==
            if MatchOrder in ops && (saves || AddToBook !in ops) then MatchEvents(old(p.world), id).value else []
  {
    hide MatchEvents, Without, Inserted;
    ghost var w := p.world;
    var o, entry := p.world.orders[id], EntryOf(p.world, id);
    var k := 0;
    while k < |ops|
      invariant k <= |ops|
      invariant p.world == w.(book := w.book.With(o.side, p.world.book.On(o.side)))
      invariant PerformOps(o.side, p.world.book.On(o.side), entry, ops[k..], saves) ==
                PerformOps(o.side, SideList(w, id), entry, ops, saves)
      invariant (forall i :: 0 <= i < k ==> !BookOp(ops[i])) ==> p.world.book.On(o.side) == SideList(w, id)
      invariant p.events == if k > 0 && ops[0].MatchOrder? then MatchEvents(w, id).value else []
      invariant saves || AddToBook !in ops[..k]
    {
      assert ops[k..][0] == ops[k] && ops[k..][1..] == ops[k + 1..];
      assert ops[..k + 1] == ops[..k] + [ops[k]];
      match ops[k] {
        case MatchOrder =>
          MatchLooksAt(w, p.world, id);
          var threw := p.Match(id);
        case AddToBook =>
          p.world := p.world.(book := p.world.book.With(o.side, Inserted(o.side, p.world.book.On(o.side), entry)));
          if !saves {
            p.world := p.world.(book := p.world.book.With(o.side, Without(p.world.book.On(o.side), entry)));
            p.events := [];
            return;
          }
        case RemoveFromBook =>
          if entry !in p.world.book.On(o.side) {
            p.world := p.world.(book := p.world.book.With(o.side, Inserted(o.side, p.world.book.On(o.side), entry)));
            p.events := [];
            return;
          }
          p.world := p.world.(book := p.world.book.With(o.side, Without(p.world.book.On(o.side), entry)));
        case _ =>
      }
      k := k + 1;
    }
    assert ops[k..] == [] && ops[..k] == ops;
  }

  /** What the state machine does at once, before the queued operations. */
  function Machined(w: World, id: OrderId, e: Event): (World, seq<Op>)
    requires id in w.orders
  {
    var o, entry, list := w.orders[id], EntryOf(w, id), SideList(w, id);
    var r := Handle(o, entry in list, e);
    (World(w.orders[id := r.order], w.book.With(o.side, if r.erased then Without(list, entry) else list),
           w.execs + Booking(id, r.execs)), r.ops)
  }

  lemma MachinedTerms(w: World, id: OrderId, e: Event, saves: bool)
    requires id in w.orders
    ensures var (m, ops) := Machined(w, id, e);
            && m.orders.Keys == w.orders.Keys && OneBookOp(ops) && MatchFirst(ops)
            && EntryOf(m, id) == EntryOf(w, id) && m.orders[id].side == w.orders[id].side
            && Step(w, id, e, saves) ==
               m.(book := m.book.With(m.orders[id].side,
                                      PerformOps(m.orders[id].side, SideList(m, id), EntryOf(m, id), ops, saves)))
  {
    hide Handle, PerformOps, OneBookOp, MatchFirst, Without;
    var inBook := EntryOf(w, id) in SideList(w, id);
    HandleOneBookOp(w.orders[id], inBook, e);
    HandleMatchFirst(w.orders[id], inBook, e);
    HandleKeeps(w.orders[id], inBook, e);
  }

  lemma MachinedCanCommit(w: World, id: OrderId, e: Event, saves: bool)
    requires WorldOk(w) && Acceptable(w, id, e, saves)
    ensures var (m, ops) := Machined(w, id, e);
            && m.orders.Keys == w.orders.Keys
            && (MatchOrder in ops <==> EntersOn(w.orders[id], e)) && (AddToBook in ops <==> EntersOn(w.orders[id], e))
            && (RemoveFromBook in ops ==> MatchOrder !in ops)
            && MatchEvents(m, id) == MatchEvents(Step(w, id, e, saves), id)
            && (EntersOn(w.orders[id], e) ==> MatchEvents(m, id).Some?)
  {
    hide Handle, PerformOps, OneBookOp, MatchFirst, Without, WorldOk, Spoils, MatchEvents, EntersOn;
    MachinedTerms(w, id, e, saves);
    QueuedOps(w, id, e);
    MatchLooksAt(Step(w, id, e, saves), Machined(w, id, e).0, id);
    assert MatchEvents(Machined(w, id, e).0, id).Some? by { OrderOk(w, id); PricedMatches(w, id, e); }
  }

  /** An order with a price can be matched. */
  lemma PricedMatches(w: World, id: OrderId, e: Event)
    requires id in w.orders && w.orders[id].price > 0.0
    ensures var m := Machined(w, id, e).0; id in m.orders && MatchEvents(m, id).Some?
  {
    hide Handle, FirstFound;
    HandleKeeps(w.orders[id], EntryOf(w, id) in SideList(w, id), e);
  }

  /** One event as the source runs it: the state machine first, then the operations it queued, in which the order
      is matched before it is put into the book, then the deferred events. */
  method Receive(p: Processor, id: OrderId, e: Event, saves: bool)
    requires p.events == [] && WorldOk(p.world) && Acceptable(p.world, id, e, saves)
    modifies p
    ensures p.events == [] && p.world == Settle(old(p.world), id, e, saves)
  {
    hide WorldOk, PerformOps, MatchEvents, Sweep, Faced, AllRest, Machined, Step, OneBookOp, MatchFirst, Chain, Stuck,
      EntersOn, Spoils;
    ghost var start := p.world;
    MachinedTerms(start, id, e, saves);
    MachinedCanCommit(start, id, e, saves);
    if Enters(start, id, e, saves) {
      EnteredMatches(start, id, e, saves);
    }
    var (m, ops) := Machined(p.world, id, e);
    p.world := m;
    PerformTransaction(p, id, ops, saves);
    if p.events != [] {
      var threw := p.ProcessDeferredEvents(id);
    }
  }

  lemma EnteredMatches(w: World, id: OrderId, e: Event, saves: bool)
    requires WorldOk(w) && Acceptable(w, id, e, saves) && Enters(w, id, e, saves)
    ensures var n := Step(w, id, e, saves);
            && Ready(n, id) && !Stuck(n, id) && MatchEvents(n, id).Some? && Chain(n, id) == MatchEvents(n, id).value
            && (Chain(n, id) == [] ==> Sweep(n, id) == n)
  {
    hide WorldOk, Step, Acceptable, Enters, MatchEvents, Stuck, FacingSide, AllRest;
    EnteredIsReady(w, id, e, saves);
    var n := Step(w, id, e, saves);
    ReadyNotStuck(n, id);
    MatchIsTop(n, id);
    ChainIs(n, id);
  }

  // ---------------------------------------------------------------- runs

  /** `t` is reached from `w` by the events of the run, each acceptable where it is taken. */
  ghost predicate MarketRun(w: World, run: Run, t: World)
    requires WorldOk(w)
    decreases |run|
  {
    if run == [] then t == w
    else
      var (id, x) := run[0];
      && Acceptable(w, id, x.event, x.saves)
      && (SettleKeepsWorld(w, id, x.event, x.saves); MarketRun(Settle(w, id, x.event, x.saves), run[1..], t))
  }

  /** No order slips into the book where it reaches somebody. */
  ghost predicate QuietRun(w: World, run: Run, t: World)
    requires WorldOk(w) && MarketRun(w, run, t)
    decreases |run|
  {
    run == [] ||
    var (id, x) := run[0];
    && Quiet(w, id, x.event)
    && (SettleKeepsWorld(w, id, x.event, x.saves); QuietRun(Settle(w, id, x.event, x.saves), run[1..], t))
  }

  /** No bid reaches an ask, before the run and after each of its events. */
  ghost predicate UncrossedThroughout(w: World, run: Run, t: World)
    requires WorldOk(w) && MarketRun(w, run, t)
    decreases |run|
  {
    && Uncrossed(w)
    && (run == [] ||
        var (id, x) := run[0];
        SettleKeepsWorld(w, id, x.event, x.saves); UncrossedThroughout(Settle(w, id, x.event, x.saves), run[1..], t))
  }

  /** Over whole runs: every order in the book has something left, exactly one entry, and rests as New or PartFill at
      its own price and side. */
  lemma {:induction false} EntriesStayTradable(w: World, run: Run, t: World)
    requires WorldOk(w) && MarketRun(w, run, t)
    ensures WorldOk(t) && RestingSide(t, Buy) && RestingSide(t, Sell)
    decreases |run|
  {
    hide WorldOk, Settle, Acceptable, RestingSide;
    if run == [] {
      SidesRest(t, Buy);
      SidesRest(t, Sell);
    } else {
      var (id, x) := run[0];
      SettleKeepsWorld(w, id, x.event, x.saves);
      EntriesStayTradable(Settle(w, id, x.event, x.saves), run[1..], t);
    }
  }

  /** And the book stays uncrossed throughout the run if and only if it is quiet. */
  lemma {:induction false} BookStaysUncrossedIff(w: World, run: Run, t: World)
    requires WorldOk(w) && Uncrossed(w) && MarketRun(w, run, t)
    ensures UncrossedThroughout(w, run, t) <==> QuietRun(w, run, t)
    ensures QuietRun(w, run, t) ==> Uncrossed(t)
    decreases |run|
  {
    hide WorldOk, Uncrossed, Settle, Acceptable, Quiet;
    if run != [] {
      var (id, x) := run[0];
      SettleKeepsWorld(w, id, x.event, x.saves);
      SettleKeepsMarketIff(w, id, x.event, x.saves);
      var n := Settle(w, id, x.event, x.saves);
      if Uncrossed(n) {
        BookStaysUncrossedIff(n, run[1..], t);
      } else {
        assert !UncrossedThroughout(n, run[1..], t);
      }
    }
  }
}
