/**
The outcome of a sweep in closed form.  The orders in reach are the leading entries of the opposite side; the
i-th of them trades what is left of the incoming quantity after the ones before it, up to its own leaves.
*/
module SweepLaw {
  import opened Common
  import opened BookModel
  import opened OrderBookClass
  import opened OrderMachine
  import opened OrderRuns
  import opened OrderWorld
  import opened Matching
  import opened Sweeping

  // ---------------------------------------------------------------- allocating a quantity in order

  function Least(a: nat, b: nat): nat {
    if a <= b then a else b
  }

  /** Serve the demands one after the other. */
  function Alloc(q: nat, ls: seq<nat>): (fs: seq<nat>)
    ensures |fs| == |ls|
  {
    if ls == [] then [] else [Least(q, ls[0])] + Alloc(q - Least(q, ls[0]), ls[1..])
  }

  /** The number of leading demands that are met in full. */
  function Used(q: nat, ls: seq<nat>): (k: nat)
    ensures k <= |ls|
  {
    if ls == [] || q < ls[0] then 0 else 1 + Used(q - ls[0], ls[1..])
  }

  /** Nobody gets more than they have, and all together exactly the smaller of demand and supply. */
  lemma {:induction false} AllocTotal(q: nat, ls: seq<nat>)
    ensures Sum(Alloc(q, ls)) == Least(q, Sum(ls))
    ensures forall i :: 0 <= i < |ls| ==> Alloc(q, ls)[i] <= ls[i]
  {
    if ls != [] {
      AllocTotal(q - Least(q, ls[0]), ls[1..]);
      assert Alloc(q, ls)[1..] == Alloc(q - Least(q, ls[0]), ls[1..]);
    }
  }

  /** The closed form: each gets what those before it left over, within its own bounds; hence earlier ones are
      used up before later ones get anything. */
  lemma {:induction false} AllocIs(q: nat, ls: seq<nat>, i: nat)
    requires i < |ls|
    ensures Alloc(q, ls)[i] == if q <= Sum(ls[..i]) then 0 else Least(q - Sum(ls[..i]), ls[i])
    ensures i < Used(q, ls) ==> Alloc(q, ls)[i] == ls[i]
    ensures i > Used(q, ls) ==> Alloc(q, ls)[i] == 0
  {
    if i > 0 {
      AllocIs(q - Least(q, ls[0]), ls[1..], i - 1);
      assert ls[..i][0] == ls[0] && ls[..i][1..] == ls[1..][..i - 1];
      if q < ls[0] {
        NothingLeft(ls[1..]);
      }
    }
  }

  lemma {:induction false} NothingLeft(ls: seq<nat>)
    ensures forall i :: 0 <= i < |ls| ==> Alloc(0, ls)[i] == 0
    ensures Sum(Alloc(0, ls)) == 0
  {
    if ls != [] {
      NothingLeft(ls[1..]);
      assert Alloc(0, ls)[1..] == Alloc(0, ls[1..]);
    }
  }

  // ---------------------------------------------------------------- the orders in reach

  /** An entry that an order of `side` at `limit` trades with: the price is acceptable and the order takes trades. */
  predicate Open(side: Side, limit: real, orders: map<OrderId, Order>, e: Entry) {
    Crosses(side, limit, e.price) && e.id in orders && Booked(orders[e.id].zone1)
  }

  /** The number of leading entries of that kind. */
  function Reach(side: Side, limit: real, orders: map<OrderId, Order>, list: seq<Entry>): (n: nat)
    ensures n <= |list|
  {
    if list == [] || !Open(side, limit, orders, list[0]) then 0 else 1 + Reach(side, limit, orders, list[1..])
  }

  /** The entry after them, if there is one, is of the other kind. */
  lemma {:induction false} ReachStops(side: Side, limit: real, orders: map<OrderId, Order>, list: seq<Entry>)
    ensures var n := Reach(side, limit, orders, list);
            && (forall i :: 0 <= i < n ==> Open(side, limit, orders, list[i]))
            && (n < |list| ==> !Open(side, limit, orders, list[n]))
  {
    if list != [] && Open(side, limit, orders, list[0]) {
      ReachStops(side, limit, orders, list[1..]);
      var n := Reach(side, limit, orders, list);
      assert forall i :: 0 < i < n ==> list[i] == list[1..][i - 1];
    }
  }

  /** On a sorted side on which every order takes trades these are all entries with an acceptable price. */
  lemma ReachIs(side: Side, limit: real, orders: map<OrderId, Order>, list: seq<Entry>, i: nat)
    requires SortedSide(Opposite(side), list) && i < |list|
    requires forall k :: 0 <= k < |list| ==> list[k].id in orders && Booked(orders[list[k].id].zone1)
    ensures Crosses(side, limit, list[i].price) <==> i < Reach(side, limit, orders, list)
  {
    hide Reach;
    ReachStops(side, limit, orders, list);
    var n := Reach(side, limit, orders, list);
    if n <= i {
      assert !Before(Opposite(side), list[i].price, list[n].price);
    }
  }

  lemma {:induction false} ReachSame(side: Side, limit: real, a: map<OrderId, Order>, b: map<OrderId, Order>,
                                     list: seq<Entry>)
    requires forall i :: 0 <= i < |list| ==> list[i].id in a && list[i].id in b && a[list[i].id] == b[list[i].id]
    ensures Reach(side, limit, a, list) == Reach(side, limit, b, list)
  {
    if list != [] {
      ReachSame(side, limit, a, b, list[1..]);
    }
  }

  function LeavesOf(orders: map<OrderId, Order>, list: seq<Entry>): (ls: seq<nat>)
    requires forall i :: 0 <= i < |list| ==> list[i].id in orders
    ensures |ls| == |list|
  {
    seq(|list|, i requires 0 <= i < |list| => orders[list[i].id].leaves)
  }

  /** The leaves in reach of an order. */
  function Demands(w: World, id: OrderId): seq<nat>
    requires Faced(w, id)
  {
    var o, list := w.orders[id], Contras(w, id);
    LeavesOf(w.orders, list[..Reach(o.side, o.price, w.orders, list)])
  }

  // ---------------------------------------------------------------- the law

  function Fills(w: World, id: OrderId): seq<nat>
    requires Faced(w, id)
  {
    Alloc(w.orders[id].leaves, Demands(w, id))
  }

  /** The incoming order and both sides of the book. */
  ghost predicate SweptBase(w: World, id: OrderId, t: World)
    requires Faced(w, id)
  {
    var o, list, total := w.orders[id], Contras(w, id), Sum(Fills(w, id));
    && id in t.orders && total <= o.leaves && t.orders[id] == FilledOrder(o, total)
    && t.book.On(Opposite(o.side)) == list[Used(o.leaves, Demands(w, id))..]
    && t.book.On(o.side) == if 0 < o.leaves == total then Without(SideList(w, id), EntryOf(w, id)) else SideList(w, id)
  }

  /** The orders in reach. */
  ghost predicate SweptContras(w: World, id: OrderId, t: World)
    requires Faced(w, id)
  {
    var list, fs := Contras(w, id), Fills(w, id);
    forall i :: 0 <= i < |fs| ==>
      && fs[i] <= w.orders[list[i].id].leaves && list[i].id in t.orders
      && t.orders[list[i].id] == FilledOrder(w.orders[list[i].id], fs[i])
  }

  ghost predicate InReach(w: World, id: OrderId, k: OrderId)
    requires Faced(w, id)
  {
    exists i :: 0 <= i < |Demands(w, id)| && Contras(w, id)[i].id == k
  }

  /** Everybody else. */
  ghost predicate SweptOthers(w: World, id: OrderId, t: World)
    requires Faced(w, id)
  {
    && t.orders.Keys == w.orders.Keys
    && forall k :: k in w.orders && k != id && !InReach(w, id, k) ==> t.orders[k] == w.orders[k]
  }

  lemma NoTradeIsSwept(w: World, id: OrderId)
    requires Faced(w, id) && !CanTrade(w, id)
    ensures SweptBase(w, id, w) && SweptContras(w, id, w) && SweptOthers(w, id, w)
  {
    hide Without;
    var o, list, ls := w.orders[id], Contras(w, id), Demands(w, id);
    if o.leaves == 0 {
      NothingLeft(ls);
      forall i | 0 <= i < |ls|
        ensures w.orders[list[i].id].leaves > 0 && w.orders[list[i].id].leaves == ls[i]
      {
        assert Faces(w, Opposite(o.side), list[i]);
      }
    } else {
      assert ls == [];
    }
  }

  /** What the first trade leaves of the demands. */
  lemma DemandsAfter(w: World, id: OrderId)
    requires Faced(w, id) && CanTrade(w, id) && Faced(TradeTop(w, id), id)
    ensures var n, ls := TradeTop(w, id), Demands(w, id);
            && ls != [] && ls[0] == w.orders[Contras(w, id)[0].id].leaves
            && (ls[0] <= w.orders[id].leaves ==> Contras(n, id) == Contras(w, id)[1..] && Demands(n, id) == ls[1..])
  {
    hide Without, TradeTop, SortedSide;
    TradeTopIs(w, id);
    TopEntry(w, id);
    var n, list, o := TradeTop(w, id), Contras(w, id), w.orders[id];
    var r := Reach(o.side, o.price, w.orders, list);
    assert r == 1 + Reach(o.side, o.price, w.orders, list[1..]);
    if Contras(n, id) == list[1..] {
      var rest := list[1..];
      forall i | 0 <= i < |rest|
        ensures rest[i].id in n.orders && n.orders[rest[i].id] == w.orders[rest[i].id]
      {
        assert rest[i] == list[i + 1];
        assert Faces(w, Opposite(o.side), list[i + 1]);
      }
      ReachSame(o.side, o.price, w.orders, n.orders, rest);
      assert rest[..r - 1] == list[..r][1..];
    }
  }

  /** A first contra that is used up: the law for the rest extends to the whole. */
  lemma FullBase(w: World, id: OrderId, t: World)
    requires Faced(w, id) && CanTrade(w, id) && Faced(TradeTop(w, id), id)
    requires Demands(w, id) != [] && Demands(w, id)[0] <= w.orders[id].leaves
    requires SweptBase(TradeTop(w, id), id, t)
    ensures SweptBase(w, id, t)
  {
    hide Without, TradeTop, SortedSide, Sum, Alloc, Used, Demands, FilledOrder;
    DemandsAfter(w, id);
    TradeTopIs(w, id);
    var n, o, list, ls := TradeTop(w, id), w.orders[id], Contras(w, id), Demands(w, id);
    FilledLeaves(o, TopQty(w, id));
    FilledSide(o, TopQty(w, id));
    FirstInFull(o.leaves, ls);
    AllocTotal(n.orders[id].leaves, ls[1..]);
    FillsAddUp(o, ls[0], Sum(Alloc(o.leaves - ls[0], ls[1..])));
    DemandsLength(w, id);
    DropTwice(list, Used(o.leaves - ls[0], ls[1..]));
  }

  lemma DemandsLength(w: World, id: OrderId)
    requires Faced(w, id)
    ensures |Demands(w, id)| <= |Contras(w, id)|
  {}

  lemma DropTwice(list: seq<Entry>, k: nat)
    requires k < |list|
    ensures list[1..][k..] == list[k + 1..]
  {}

  /** A first demand that is met in full. */
  lemma FirstInFull(q: nat, ls: seq<nat>)
    requires ls != [] && ls[0] <= q
    ensures Used(q, ls) == 1 + Used(q - ls[0], ls[1..])
    ensures Sum(Alloc(q, ls)) == ls[0] + Sum(Alloc(q - ls[0], ls[1..]))
  {
    hide Sum;
    SumOfFirst(Alloc(q, ls));
    assert Alloc(q, ls)[1..] == Alloc(q - ls[0], ls[1..]);
  }

  /** A first demand that takes everything. */
  lemma FirstTakesAll(q: nat, ls: seq<nat>)
    requires ls != [] && q < ls[0]
    ensures Used(q, ls) == 0 && Sum(Alloc(q, ls)) == q && Alloc(q, ls)[0] == q
    ensures forall i :: 0 < i < |ls| ==> Alloc(q, ls)[i] == 0
  {
    hide Sum;
    var fs := Alloc(q, ls);
    NothingLeft(ls[1..]);
    SumOfFirst(fs);
    assert fs[1..] == Alloc(0, ls[1..]);
    forall i | 0 < i < |ls|
      ensures fs[i] == 0
    {
      assert fs[i] == fs[1..][i - 1];
    }
  }

  lemma SumOfFirst(s: seq<nat>)
    requires s != []
    ensures Sum(s) == s[0] + Sum(s[1..])
  {}

  lemma FilledLeaves(o: Order, q: Quantity)
    requires q <= o.leaves
    ensures FilledOrder(o, q).leaves == o.leaves - q
  {}

  /** What the first trade leaves of the fills, and that its contra is out of reach afterwards. */
  lemma FillsAfter(w: World, id: OrderId)
    requires Faced(w, id) && CanTrade(w, id) && Faced(TradeTop(w, id), id)
    requires Demands(w, id) != [] && Demands(w, id)[0] <= w.orders[id].leaves
    ensures var n, list := TradeTop(w, id), Contras(w, id);
            && Contras(n, id) == list[1..] && Demands(n, id) == Demands(w, id)[1..]
            && Fills(w, id) == [Demands(w, id)[0]] + Fills(n, id)
            && !InReach(n, id, list[0].id)
            && forall k :: InReach(n, id, k) ==> InReach(w, id, k)
  {
    hide Without, TradeTop, SortedSide, FilledOrder, InReach, Demands;
    DemandsAfter(w, id);
    TradeTopIs(w, id);
    FilledLeaves(w.orders[id], TopQty(w, id));
    ReachAfter(w, TradeTop(w, id), id);
  }

  /** With the front gone and the rest as it was, the front is out of reach and nobody new is in reach. */
  lemma ReachAfter(w: World, n: World, id: OrderId)
    requires Faced(w, id) && Faced(n, id) && Contras(w, id) != [] && Demands(w, id) != []
    requires Contras(n, id) == Contras(w, id)[1..] && Demands(n, id) == Demands(w, id)[1..]
    ensures !InReach(n, id, Contras(w, id)[0].id) && forall k :: InReach(n, id, k) ==> InReach(w, id, k)
  {
    DemandsLength(w, id);
    hide SortedSide, Demands, Faces;
    var list, ls := Contras(w, id), Demands(w, id);
    assert forall i :: 0 <= i < |ls[1..]| ==> list[1..][i] == list[i + 1];
    forall k | InReach(n, id, k)
      ensures InReach(w, id, k)
    {
      var i :| 0 <= i < |Demands(n, id)| && Contras(n, id)[i].id == k;
      assert list[i + 1].id == k;
    }
  }

  lemma FillsLength(w: World, id: OrderId)
    requires Faced(w, id)
    ensures |Fills(w, id)| <= |Contras(w, id)|
  {}

  lemma FullContras(w: World, id: OrderId, t: World)
    requires Faced(w, id) && CanTrade(w, id) && Faced(TradeTop(w, id), id)
    requires Demands(w, id) != [] && Demands(w, id)[0] <= w.orders[id].leaves
    requires SweptContras(TradeTop(w, id), id, t) && SweptOthers(TradeTop(w, id), id, t)
    ensures SweptContras(w, id, t)
  {
    hide Without, TradeTop, SortedSide, FilledOrder, InReach, Fills, Demands;
    DemandsAfter(w, id);
    FillsAfter(w, id);
    FillsLength(w, id);
    TradeTopIs(w, id);
    TopEntry(w, id);
    var n, o, list, fs := TradeTop(w, id), w.orders[id], Contras(w, id), Fills(w, id);
    forall i | 0 <= i < |fs|
      ensures i < |list| && fs[i] <= w.orders[list[i].id].leaves && list[i].id in t.orders
      ensures t.orders[list[i].id] == FilledOrder(w.orders[list[i].id], fs[i])
    {
      if i > 0 {
        assert list[1..][i - 1] == list[i] && fs[i] == Fills(n, id)[i - 1];
        assert Faces(w, Opposite(o.side), list[i]);
      }
    }
  }

  lemma FullOthers(w: World, id: OrderId, t: World)
    requires Faced(w, id) && CanTrade(w, id) && Faced(TradeTop(w, id), id)
    requires Demands(w, id) != [] && Demands(w, id)[0] <= w.orders[id].leaves
    requires SweptOthers(TradeTop(w, id), id, t)
    ensures SweptOthers(w, id, t)
  {
    hide Without, TradeTop, SortedSide, FilledOrder, InReach, Fills, Demands;
    FillsAfter(w, id);
    TradeTopIs(w, id);
    assert InReach(w, id, Contras(w, id)[0].id) by { FrontInReach(w, id); }
  }

  lemma FrontInReach(w: World, id: OrderId)
    requires Faced(w, id) && Demands(w, id) != []
    ensures Contras(w, id) != [] && InReach(w, id, Contras(w, id)[0].id)
  {
    assert Contras(w, id)[0].id == Contras(w, id)[0].id;
  }

  /** An incoming order that is used up by the first contra. */
  lemma LastTrade(w: World, id: OrderId)
    requires Faced(w, id) && CanTrade(w, id)
    requires Demands(w, id) != [] && w.orders[id].leaves < Demands(w, id)[0]
    ensures var n := TradeTop(w, id); SweptBase(w, id, n) && SweptContras(w, id, n) && SweptOthers(w, id, n)
  {
    hide Without, TradeTop, SortedSide, Sum, Alloc, Used, Demands, InReach;
    TradeTopIs(w, id);
    TopEntry(w, id);
    DemandsLength(w, id);
    FrontDemand(w, id);
    var o, list, ls, fs := w.orders[id], Contras(w, id), Demands(w, id), Fills(w, id);
    FirstTakesAll(o.leaves, ls);
    forall i | 0 <= i < |fs|
      ensures list[i].id in w.orders && list[i].id != id && (i > 0 ==> list[i].id != list[0].id)
    {
      assert Faces(w, Opposite(o.side), list[i]);
    }
    FrontInReach(w, id);
  }

  lemma FrontDemand(w: World, id: OrderId)
    requires Faced(w, id) && Demands(w, id) != []
    ensures Contras(w, id) != [] && Demands(w, id)[0] == w.orders[Contras(w, id)[0].id].leaves
  {}

  /** The greedy sweep in closed form: the total traded, every order after it, and both sides of the book. */
  lemma {:induction false} SweepIs(w: World, id: OrderId)
    requires Faced(w, id)
    ensures SweptBase(w, id, Sweep(w, id)) && SweptContras(w, id, Sweep(w, id)) && SweptOthers(w, id, Sweep(w, id))
    decreases w.orders[id].leaves
  {
    hide SweptBase, SweptContras, SweptOthers, TradeTop, Demands;
    if !CanTrade(w, id) {
      NoTradeIsSwept(w, id);
    } else {
      TradeTopKeepsFaced(w, id);
      TradeTopIs(w, id);
      DemandsAfter(w, id);
      var n := TradeTop(w, id);
      if Demands(w, id)[0] <= w.orders[id].leaves {
        SweepIs(n, id);
        FullBase(w, id, Sweep(n, id));
        FullContras(w, id, Sweep(n, id));
        FullOthers(w, id, Sweep(n, id));
      } else {
        LastTrade(w, id);
      }
    }
  }

  /** Price-time priority: an order in reach trades only when every order before it in the book is used up, and
      in total the smaller of the incoming quantity and the quantity in reach is traded. */
  lemma PriceTimePriority(w: World, id: OrderId, i: nat, j: nat)
    requires Faced(w, id) && i < j < |Demands(w, id)|
    ensures var list, t := Contras(w, id), Sweep(w, id);
            && |Demands(w, id)| <= |list| && list[i].id in t.orders && list[j].id in t.orders
            && (t.orders[list[j].id] != w.orders[list[j].id] ==> t.orders[list[i].id].leaves == 0)
    ensures w.orders[id].leaves - Sweep(w, id).orders[id].leaves == Least(w.orders[id].leaves, Sum(Demands(w, id)))
  {
    hide Sweep;
    SweepIs(w, id);
    var o, ls := w.orders[id], Demands(w, id);
    AllocTotal(o.leaves, ls);
    AllocIs(o.leaves, ls, i);
    AllocIs(o.leaves, ls, j);
  }
}
