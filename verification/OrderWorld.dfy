/**
Many orders, one book and one state machine.  The processor keeps a single machine per thread and loads the state
of the order at hand into it before every event (src/Processor.cpp).  Each order nevertheless behaves as if it had
a machine of its own.
*/
module OrderWorld {
  import opened Common
  import opened BookModel
  import opened OrderBookClass
  import opened OrderMachine
  import opened OrderRuns

  /** A trade as saved by the fill of one order. */
  datatype Exec = Exec(order: OrderId, qty: Quantity, px: real)

  datatype World = World(orders: map<OrderId, Order>, book: Group, execs: seq<Exec>)

  function EntryOf(w: World, id: OrderId): Entry
    requires id in w.orders
  {
    Entry(w.orders[id].price, id)
  }

  function SideList(w: World, id: OrderId): seq<Entry>
    requires id in w.orders
  {
    w.book.On(w.orders[id].side)
  }

  /** The queued operations, in order, on the side of the order.  An entry that the saver refuses fails the
      transaction and is taken out again.  A removal that finds nothing fails it too; undoing it inserts the entry. */
  function PerformOps(side: Side, list: seq<Entry>, e: Entry, ops: seq<Op>, saves: bool): seq<Entry>
    decreases |ops|
  {
    if ops == [] then list
    else if ops[0].AddToBook? then
      var more := Inserted(side, list, e);
      if saves then PerformOps(side, more, e, ops[1..], saves) else Without(more, e)
    else if ops[0].RemoveFromBook? then
      if e in list then PerformOps(side, Without(list, e), e, ops[1..], saves) else Inserted(side, list, e)
    else PerformOps(side, list, e, ops[1..], saves)
  }

  function Booking(id: OrderId, execs: seq<(Quantity, real)>): seq<Exec> {
    seq(|execs|, i requires 0 <= i < |execs| => Exec(id, execs[i].0, execs[i].1))
  }

  /** One event of one order: the machine, then the transaction it queued, in which the saver accepts the order or
      not. */
  function Step(w: World, id: OrderId, e: Event, saves: bool): (n: World)
    requires id in w.orders
    ensures n.orders.Keys == w.orders.Keys
  {
    var o, entry, list := w.orders[id], EntryOf(w, id), SideList(w, id);
    var r := Handle(o, entry in list, e);
    var left := if r.erased then Without(list, entry) else list;
    World(w.orders[id := r.order], w.book.With(o.side, PerformOps(o.side, left, entry, r.ops, saves)),
          w.execs + Booking(id, r.execs))
  }

  // ---------------------------------------------------------------- the processor

  /** The thread state of the processor: one machine for all orders. */
  class EventProcessor {
    var zone1: Zone1
    var zone2: Zone2
    var orderData: OrderId
    var world: World

    constructor (w: World)
      ensures world == w
    {
      zone1, zone2, orderData, world := RcvdNew, NoCnlReplace, NO_ORDER, w;
    }

    method SetPersistance(id: OrderId)
      requires id in world.orders
      modifies this
      ensures world == old(world)
      ensures orderData == id && zone1 == world.orders[id].zone1 && zone2 == world.orders[id].zone2
    {
      orderData, zone1, zone2 := id, world.orders[id].zone1, world.orders[id].zone2;
    }

    /** Whatever the machine was left with by the previous event, of any order, does not matter. */
    method Process(id: OrderId, e: Event, saves: bool)
      requires id in world.orders
      modifies this
      ensures world == Step(old(world), id, e, saves)
      ensures zone1 == world.orders[id].zone1 && zone2 == world.orders[id].zone2
    {
      SetPersistance(id);
      var o := world.orders[orderData].(zone1 := zone1, zone2 := zone2);
      var entry, list := Entry(o.price, id), world.book.On(o.side);
      var r := Handle(o, entry in list, e);
      zone1, zone2 := r.order.zone1, r.order.zone2;
      var left := if r.erased then Without(list, entry) else list;
      world := World(world.orders[orderData := r.order.(zone1 := zone1, zone2 := zone2)],
                     world.book.With(o.side, PerformOps(o.side, left, entry, r.ops, saves)),
                     world.execs + Booking(id, r.execs));
    }
  }

  // ---------------------------------------------------------------- private machines

  /** What one order sees of the world. */
  function View(w: World, id: OrderId): Local
    requires id in w.orders
  {
    Local(w.orders[id], multiset(SideList(w, id))[EntryOf(w, id)])
  }

  predicate BookOp(op: Op) {
    op.AddToBook? || op.RemoveFromBook?
  }

  predicate OneBookOp(ops: seq<Op>) {
    forall i, j :: 0 <= i < j < |ops| ==> !(BookOp(ops[i]) && BookOp(ops[j]))
  }

  lemma ActOneBookOp(a: Action, o: Order, inBook: bool, e: Event)
    requires Act.requires(a, o, inBook, e)
    ensures var f := Act(a, o, inBook, e); f.Works? ==> OneBookOp(f.ops) && (f.erased ==> inBook)
  {}

  lemma ReportIsNoBookOp(ops: seq<Op>)
    requires OneBookOp(ops)
    ensures OneBookOp(ops + [Report]) && OneBookOp(ops + [])
  {
    var r := ops + [Report];
    assert forall i :: 0 <= i < |ops| ==> r[i] == ops[i];
    assert ops + [] == ops;
  }

  lemma Zone1OneBookOp(o: Order, inBook: bool, e: Event)
    ensures var a := HandleZone1(o, inBook, e);
            && (a.Moved? ==> OneBookOp(a.result.ops))
            && (a.Threw? ==> a.result.ops == [] && !a.result.erased)
            && (a.Moved? && a.result.erased ==> inBook)
  {
    var row := Row1(o.zone1, e, Guard(o, e));
    if row.Some? && !GuardThrows(o, e) {
      ActOneBookOp(row.value.action, o, inBook, e);
      var f := Act(row.value.action, o, inBook, e);
      if f.Works? {
        ReportIsNoBookOp(f.ops);
      }
      hide Act, Row1, OneBookOp;
    }
  }

  lemma Zone2OneBookOp(r: Result, e: Event)
    requires OneBookOp(r.ops) && (r.ops == [] || Row2(r.order.zone2, e).None? || e.TradeCrctCncl?)
    ensures OneBookOp(HandleZone2(r, e).ops) && HandleZone2(r, e).erased == r.erased
  {}

  lemma ZonesShareCorrections(o: Order, guard: bool, z: Zone2, e: Event)
    requires Row1(o.zone1, e, guard).Some? && Row2(z, e).Some?
    ensures e.TradeCrctCncl?
  {}

  lemma OnceOneBookOp(o: Order, inBook: bool, e: Event)
    ensures var (r, again) := HandleOnce(o, inBook, e);
            && OneBookOp(r.ops) && (r.erased ==> inBook)
            && (again.Some? ==> r.ops == [] && !r.erased && r.order == o)
  {
    Zone1OneBookOp(o, inBook, e);
    Zone1Keeps(o, inBook, e);
    match HandleZone1(o, inBook, e)
    case NoRow => Zone2OneBookOp(Result(o, false, [], []), e);
    case Threw(_, _) =>
    case Moved(r) =>
      if Row2(r.order.zone2, e).Some? {
        ZonesShareCorrections(o, Guard(o, e), r.order.zone2, e);
      }
      hide HandleZone1, HandleZone2, Row1, Row2, Act;
      Zone2OneBookOp(r, e);
  }

  /** The machine queues at most one book operation for an event. */
  lemma HandleOneBookOp(o: Order, inBook: bool, e: Event)
    ensures var r := Handle(o, inBook, e); OneBookOp(r.ops) && (r.erased ==> inBook)
  {
    hide HandleOnce;
    OnceOneBookOp(o, inBook, e);
    var (r, again) := HandleOnce(o, inBook, e);
    if again.Some? {
      OnceOneBookOp(o, inBook, again.value);
      var (r2, _) := HandleOnce(o, inBook, again.value);
      assert [] + r2.ops == r2.ops;
    }
  }

  /** Matching comes first, if at all. */
  predicate MatchFirst(ops: seq<Op>) {
    forall i :: 0 < i < |ops| ==> !ops[i].MatchOrder?
  }

  lemma ActMatchFirst(a: Action, o: Order, inBook: bool, e: Event)
    requires Act.requires(a, o, inBook, e)
    ensures Act(a, o, inBook, e).Works? ==> MatchFirst(Act(a, o, inBook, e).ops)
  {}

  lemma Zone1MatchFirst(o: Order, inBook: bool, e: Event)
    ensures HandleZone1(o, inBook, e).Moved? ==> MatchFirst(HandleZone1(o, inBook, e).result.ops)
  {
    var row := Row1(o.zone1, e, Guard(o, e));
    if row.Some? && !GuardThrows(o, e) {
      ActMatchFirst(row.value.action, o, inBook, e);
      hide Act, Row1;
    }
  }

  lemma Zone2MatchFirst(r: Result, e: Event)
    requires MatchFirst(r.ops)
    ensures MatchFirst(HandleZone2(r, e).ops)
  {}

  lemma OnceMatchFirst(o: Order, inBook: bool, e: Event)
    ensures var (r, again) := HandleOnce(o, inBook, e); MatchFirst(r.ops) && (again.Some? ==> r.ops == [])
  {
    Zone1MatchFirst(o, inBook, e);
    Zone1OneBookOp(o, inBook, e);
    hide HandleZone1, HandleZone2, MatchFirst;
    match HandleZone1(o, inBook, e)
    case NoRow =>
      assert MatchFirst([]) by { NoMatch(); }
      Zone2MatchFirst(Result(o, false, [], []), e);
    case Threw(_, _) => NoMatch();
    case Moved(r) => Zone2MatchFirst(r, e);
  }

  lemma NoMatch()
    ensures MatchFirst([])
  {}

  lemma HandleMatchFirst(o: Order, inBook: bool, e: Event)
    ensures MatchFirst(Handle(o, inBook, e).ops)
  {
    hide HandleOnce, MatchFirst;
    OnceMatchFirst(o, inBook, e);
    var (r, again) := HandleOnce(o, inBook, e);
    if again.Some? {
      OnceMatchFirst(r.order, inBook, again.value);
      var (r2, _) := HandleOnce(r.order, inBook, again.value);
      assert [] + r2.ops == r2.ops;
    }
  }

  lemma {:induction false} NoBookOps(side: Side, list: seq<Entry>, e: Entry, ops: seq<Op>, saves: bool)
    requires forall i :: 0 <= i < |ops| ==> !BookOp(ops[i])
    ensures PerformOps(side, list, e, ops, saves) == list
    decreases |ops|
  {
    if ops != [] {
      NoBookOps(side, list, e, ops[1..], saves);
    }
  }

  /** The list after one book operation. */
  function AfterFirst(side: Side, list: seq<Entry>, e: Entry, op: Op, saves: bool): seq<Entry>
    requires BookOp(op)
  {
    if op.RemoveFromBook? && e in list then Without(list, e)
    else if op.AddToBook? && !saves then Without(Inserted(side, list, e), e)
    else Inserted(side, list, e)
  }

  lemma PerformFirst(side: Side, list: seq<Entry>, e: Entry, ops: seq<Op>, saves: bool)
    requires OneBookOp(ops) && ops != [] && BookOp(ops[0])
    ensures PerformOps(side, list, e, ops, saves) == AfterFirst(side, list, e, ops[0], saves)
    ensures Perform(multiset(list)[e], ops, saves) ==
            if ops[0].RemoveFromBook? && e in list then multiset(list)[e] - 1
            else if ops[0].AddToBook? && !saves then multiset(list)[e]
            else multiset(list)[e] + 1
  {
    hide Inserted, Without;
    var rest := ops[1..];
    assert forall i :: 0 <= i < |rest| ==> rest[i] == ops[i + 1] && !BookOp(rest[i]);
    NoBookOps(side, Inserted(side, list, e), e, rest, saves);
    NoBookOps(side, Without(list, e), e, rest, saves);
    assert ops == [ops[0]] + rest;
  }

  lemma PerformSkips(copies: nat, ops: seq<Op>, saves: bool)
    requires ops != [] && !BookOp(ops[0])
    ensures Perform(copies, ops, saves) == Perform(copies, ops[1..], saves)
  {
    assert ops == [ops[0]] + ops[1..];
  }

  lemma AfterFirstIs(side: Side, list: seq<Entry>, e: Entry, op: Op, saves: bool)
    requires SortedSide(side, list) && BookOp(op)
    ensures var r := AfterFirst(side, list, e, op, saves);
            && SortedSide(side, r)
            && multiset(r) == multiset(list)[e :=
                 if op.RemoveFromBook? && e in list then multiset(list)[e] - 1
                 else if op.AddToBook? && !saves then multiset(list)[e]
                 else multiset(list)[e] + 1]
  {
    hide SortedSide, Inserted, Without;
    InsertedIs(side, list, e);
    WithoutIs(side, list, e);
    WithoutIs(side, Inserted(side, list, e), e);
  }

  /** Performing the operations changes the multiplicity of the order's own entry as the private run says, and no
      other entry. */
  lemma {:induction false} PerformOpsIs(side: Side, list: seq<Entry>, e: Entry, ops: seq<Op>, saves: bool)
    requires SortedSide(side, list) && OneBookOp(ops)
    ensures var r := PerformOps(side, list, e, ops, saves);
            && SortedSide(side, r)
            && multiset(r) == multiset(list)[e := Perform(multiset(list)[e], ops, saves)]
    decreases |ops|
  {
    hide SortedSide, Perform, AfterFirst;
    if ops == [] {
      assert Perform(multiset(list)[e], [], saves) == multiset(list)[e] by { PerformNothing(multiset(list)[e], saves); }
    } else if BookOp(ops[0]) {
      hide PerformOps;
      PerformFirst(side, list, e, ops, saves);
      AfterFirstIs(side, list, e, ops[0], saves);
    } else {
      PerformSkips(multiset(list)[e], ops, saves);
      PerformOpsIs(side, list, e, ops[1..], saves);
    }
  }

  lemma PerformNothing(copies: nat, saves: bool)
    ensures Perform(copies, [], saves) == copies
  {}

  /** The side of the acting order after the event. */
  lemma StepSide(w: World, id: OrderId, e: Event, saves: bool)
    requires w.book.Sorted() && id in w.orders
    ensures var o, entry, list := w.orders[id], EntryOf(w, id), SideList(w, id);
            var after := Step(w, id, e, saves).book.On(o.side);
            && SortedSide(o.side, after)
            && multiset(after) == multiset(list)[entry := LocalStep(View(w, id), e, saves).copies]
  {
    hide Handle, SortedSide, PerformOps, Perform, Without;
    var o, entry, list := w.orders[id], EntryOf(w, id), SideList(w, id);
    var r := Handle(o, entry in list, e);
    HandleOneBookOp(o, entry in list, e);
    WithoutIs(o.side, list, entry);
    PerformOpsIs(o.side, if r.erased then Without(list, entry) else list, entry, r.ops, saves);
  }

  /** An event moves its own order as a private machine would, and is invisible to all others. */
  lemma StepView(w: World, id: OrderId, e: Event, saves: bool, j: OrderId)
    requires w.book.Sorted() && id in w.orders && j in w.orders
    ensures var n := Step(w, id, e, saves);
            && n.book.Sorted() && n.orders.Keys == w.orders.Keys
            && View(n, j) == if j == id then LocalStep(View(w, id), e, saves) else View(w, j)
  {
    hide Handle, SortedSide, PerformOps, Perform, Without;
    StepSide(w, id, e, saves);
    HandleKeeps(w.orders[id], EntryOf(w, id) in SideList(w, id), e);
  }

  // ---------------------------------------------------------------- interleaved runs

  type Run = seq<(OrderId, Input)>

  predicate RunOf(w: World, run: Run) {
    forall i :: 0 <= i < |run| ==> run[i].0 in w.orders
  }

  function WorldRun(w: World, run: Run): World
    requires RunOf(w, run)
    decreases |run|
  {
    if run == [] then w else WorldRun(Step(w, run[0].0, run[0].1.event, run[0].1.saves), run[1..])
  }

  function Mine(run: Run, j: OrderId): seq<Input> {
    if run == [] then []
    else if run[0].0 == j then [run[0].1] + Mine(run[1..], j)
    else Mine(run[1..], j)
  }

  /** In every interleaving of the events of many orders, each order goes through the states that its own events
      give it on a machine and a book of its own. */
  lemma {:induction false} Interleaving(w: World, run: Run, j: OrderId)
    requires w.book.Sorted() && RunOf(w, run) && j in w.orders
    ensures WorldRun(w, run).orders.Keys == w.orders.Keys
    ensures View(WorldRun(w, run), j) == LocalRun(View(w, j), Mine(run, j))
    decreases |run|
  {
    hide Step, LocalStep, View, Group.Sorted;
    if run != [] {
      var n := Step(w, run[0].0, run[0].1.event, run[0].1.saves);
      StepView(w, run[0].0, run[0].1.event, run[0].1.saves, j);
      Interleaving(n, run[1..], j);
      if run[0].0 == j {
        assert Mine(run, j)[1..] == Mine(run[1..], j);
      }
    }
  }
}
