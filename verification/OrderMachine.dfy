/**
The order state machine: the two-zone transition table of src/StateMachine.h, the guards and actions of
src/OrderStateMachineImpl.cpp and the entry actions of src/OrderStates.cpp, for one order.

The machine sees the rest of the system through one bit (is the order's entry in the book) and answers with the
changed order, whether the fill took the entry out of the book at once, and the transaction operations it queued.
A throwing guard or action leaves both zones where they were; the exception is swallowed by exception_caught.
*/
module OrderMachine {
  import opened Common
  import opened BookModel

  /** QuantityT. */
  type Quantity = x: nat | x < U32

  datatype Zone1 =
    RcvdNew | PendReplace | New | PartFill | Filled | Expired | DoneForDay | Suspended | Rejected

  datatype Zone2 = NoCnlReplace | GoingCancel | GoingReplace | CnclReplaced

  datatype Status =
    | NoStatus | NewStatus | PartFillStatus | FilledStatus | ExpiredStatus | DoneForDayStatus | SuspendedStatus
    | RejectedStatus | PendingReplaceStatus | CanceledStatus | ReplacedStatus

  /** `zone1` and `zone2` are the persisted machine state of the order. */
  datatype Order = Order(side: Side, market: bool, price: real, leaves: Quantity, cum: Quantity, qty: Quantity,
                         status: Status, zone1: Zone1, zone2: Zone2)

  /** `valid` and `located` are the outcomes of validating an order and of locating a replaced order. */
  datatype Event =
    | OrderReceived(valid: bool) | RecvOrderRejected | RplOrderReceived(located: bool) | RecvRplOrderRejected
    | ExternalOrder(valid: bool) | ExternalOrderRejected
    | Replace(valid: bool, located: bool) | RplOrderRejected(located: bool) | RplOrderExpired(located: bool)
    | TradeExecution(lastQty: Quantity, lastPx: real) | TradeCrctCncl(leaves: Quantity, cum: Quantity)
    | OrderRejected | OrderExpired | Finished | OrderSuspended | NewDay | Continued
    | CancelReceived | ReplaceReceived | InternalCancel | CancelRejected | ExecCancel | ReplaceRejected | ExecReplace

  /** The transaction operations an action queues; `MatchCopy` and `AddCopy` work on the unsaved external order. */
  datatype Op = MatchOrder | AddToBook | RemoveFromBook | Report | Enqueue | MatchCopy | AddCopy

  datatype Action =
    | Receive | RejectReceived | ReceiveReplace | AcceptExternal | AcceptReplace | RejectReplace | ExpireReplace
    | Fill | RejectNew | TakeOut | Correct | CorrectWithoutRestore | Restore | Nothing

  datatype Row<Z> = Row(next: Z, action: Action)

  // ---------------------------------------------------------------- the transition table

  /** The rows of the main zone.  Where a guarded and an unguarded row share state and event, the guarded one is
      tried first. */
  function Row1(z: Zone1, e: Event, guard: bool): Option<Row<Zone1>> {
    match z
    case RcvdNew => (
      match e
      case OrderReceived(_) => Some(Row(New, Receive))
      case RecvOrderRejected => Some(Row(Rejected, RejectReceived))
      case RplOrderReceived(_) => Some(Row(PendReplace, ReceiveReplace))
      case RecvRplOrderRejected => Some(Row(Rejected, RejectReceived))
      case ExternalOrderRejected => Some(Row(Rejected, RejectReceived))
      case ExternalOrder(_) => Some(Row(New, AcceptExternal))
      case _ => None)
    case PendReplace => (
      match e
      case Replace(_, _) => Some(Row(New, AcceptReplace))
      case RplOrderRejected(_) => Some(Row(Rejected, RejectReplace))
      case RplOrderExpired(_) => Some(Row(Expired, ExpireReplace))
      case _ => None)
    case New => (
      match e
      case TradeExecution(_, _) => Some(Row(if guard then Filled else PartFill, Fill))
      case OrderRejected => Some(Row(Rejected, RejectNew))
      case OrderExpired => Some(Row(Expired, TakeOut))
      case Finished => Some(Row(DoneForDay, TakeOut))
      case OrderSuspended => Some(Row(Suspended, TakeOut))
      case _ => None)
    case PartFill => (
      match e
      case TradeExecution(_, _) => Some(Row(if guard then Filled else PartFill, Fill))
      case TradeCrctCncl(_, _) => Some(Row(if guard then New else PartFill, Correct))
      case OrderExpired => Some(Row(Expired, TakeOut))
      case Finished => Some(Row(DoneForDay, TakeOut))
      case OrderSuspended => Some(Row(Suspended, TakeOut))
      case _ => None)
    case Filled => (
      match e
      case TradeCrctCncl(_, _) => Some(Row(if guard then New else PartFill, Correct))
      case _ => None)
    case Expired => (
      match e
      case TradeCrctCncl(_, _) => Some(Row(Expired, CorrectWithoutRestore))
      case _ => None)
    case DoneForDay => (
      match e
      case NewDay => Some(Row(if guard then New else PartFill, Restore))
      case TradeCrctCncl(_, _) => Some(Row(DoneForDay, CorrectWithoutRestore))
      case OrderSuspended => Some(Row(Suspended, TakeOut))
      case _ => None)
    case Suspended => (
      match e
      case Continued => Some(Row(if guard then New else PartFill, Restore))
      case OrderExpired => Some(Row(Expired, TakeOut))
      case Finished => Some(Row(DoneForDay, TakeOut))
      case TradeCrctCncl(_, _) => Some(Row(Suspended, CorrectWithoutRestore))
      case _ => None)
    case Rejected => None
  }

  /** The rows of the cancel/replace zone. */
  function Row2(z: Zone2, e: Event): Option<Row<Zone2>> {
    match z
    case NoCnlReplace => (
      match e
      case CancelReceived => Some(Row(GoingCancel, Nothing))
      case ReplaceReceived => Some(Row(GoingReplace, Nothing))
      case InternalCancel => Some(Row(CnclReplaced, TakeOut))
      case _ => None)
    case GoingCancel => (
      match e
      case CancelRejected => Some(Row(NoCnlReplace, Nothing))
      case ExecCancel => Some(Row(CnclReplaced, TakeOut))
      case _ => None)
    case GoingReplace => (
      match e
      case ReplaceRejected => Some(Row(NoCnlReplace, Nothing))
      case ExecReplace => Some(Row(CnclReplaced, TakeOut))
      case _ => None)
    case CnclReplaced => (
      match e
      case TradeCrctCncl(_, _) => Some(Row(CnclReplaced, CorrectWithoutRestore))
      case _ => None)
  }

  // ---------------------------------------------------------------- guards, actions, entries

  /** complete() for a trade, notexecuted() otherwise. */
  predicate Guard(o: Order, e: Event) {
    match e
    case TradeExecution(lastQty, _) => lastQty == o.leaves
    case TradeCrctCncl(leaves, _) => leaves == o.qty
    case _ => o.leaves == o.qty
  }

  /** complete() refuses a trade that is larger than what is left of the order. */
  predicate GuardThrows(o: Order, e: Event) {
    e.TradeExecution? && o.leaves < e.lastQty
  }

  /** What an action did.  `erased`: the own entry left the book at once.  `again`: the event that the action's
      handler sends before it rethrows. */
  datatype Effect =
    | Fails(order: Order, execs: seq<(Quantity, real)>, again: Option<Event>)
    | Works(order: Order, erased: bool, ops: seq<Op>, execs: seq<(Quantity, real)>)

  predicate Resting(status: Status) {
    status.NewStatus? || status.PartFillStatus?
  }

  function Traded(o: Order, q: Quantity): Order
    requires q <= o.leaves
  {
    o.(leaves := o.leaves - q, cum := (o.cum + q) % U32)
  }

  function Corrected(o: Order, e: Event): Order
    requires e.TradeCrctCncl?
  {
    o.(leaves := e.leaves, cum := e.cum)
  }

  /** The operations that bring an order to the market: market orders do not enter the book. */
  function Entering(o: Order): seq<Op> {
    if o.market then [MatchOrder] else [MatchOrder, AddToBook]
  }

  function Act(a: Action, o: Order, inBook: bool, e: Event): Effect
    requires a.Fill? ==> e.TradeExecution? && e.lastQty <= o.leaves
    requires a.Correct? || a.CorrectWithoutRestore? ==> e.TradeCrctCncl?
    requires a.Receive? ==> e.OrderReceived?
    requires a.ReceiveReplace? ==> e.RplOrderReceived?
    requires a.AcceptExternal? ==> e.ExternalOrder?
    requires a.AcceptReplace? ==> e.Replace?
    requires a.RejectReplace? ==> e.RplOrderRejected?
    requires a.ExpireReplace? ==> e.RplOrderExpired?
  {
    match a
    case Receive =>
      if e.valid then Works(o.(status := NewStatus), false, Entering(o), [])
      else Fails(o, [], Some(RecvOrderRejected))
    case RejectReceived => Works(o, false, [], [])
    case ReceiveReplace =>
      if e.located then Works(o.(status := PendingReplaceStatus), false, [Enqueue], [])
      else Fails(o, [], Some(RecvRplOrderRejected))
    case AcceptExternal =>
      if e.valid then Works(o, false, if o.market then [MatchCopy] else [MatchCopy, AddCopy], [])
      else Fails(o, [], Some(ExternalOrderRejected))
    case AcceptReplace =>
      if e.valid && e.located then Works(o, false, Entering(o) + [Enqueue], [])
      else Fails(o, [], Some(RplOrderRejected(e.located)))
    case RejectReplace => if e.located then Works(o, false, [Enqueue], []) else Fails(o, [], None)
    case ExpireReplace => if e.located then Works(o, false, [Enqueue], []) else Fails(o, [], None)
    case Fill =>
      var after, execs := Traded(o, e.lastQty), [(e.lastQty, e.lastPx)];
      if after.leaves > 0 then Works(after, false, [], execs)
      else if inBook then Works(after, true, [], execs)
      else Fails(after, execs, None)
    case RejectNew => Works(o, false, if o.market then [] else [RemoveFromBook], [])
    case TakeOut => Works(o, false, if !o.market && Resting(o.status) then [RemoveFromBook] else [], [])
    case Correct =>
      Works(Corrected(o, e), false, if o.leaves == 0 && e.leaves > 0 then Entering(o) else [], [])
    case CorrectWithoutRestore => Works(Corrected(o, e), false, [], [])
    case Restore => Works(o, false, if o.leaves > 0 then Entering(o) else [], [])
    case Nothing => Works(o, false, [], [])
  }

  /** The status that the entry action of a state of the main zone assigns. */
  function StatusOf(z: Zone1): Status {
    match z
    case RcvdNew => NoStatus
    case PendReplace => PendingReplaceStatus
    case New => NewStatus
    case PartFill => PartFillStatus
    case Filled => FilledStatus
    case Expired => ExpiredStatus
    case DoneForDay => DoneForDayStatus
    case Suspended => SuspendedStatus
    case Rejected => RejectedStatus
  }

  /** Entering CnclReplaced sets the status, except for a trade correction; the other states only report. */
  function Status2(z: Zone2, e: Event, status: Status): Status {
    if z.CnclReplaced? && (e.ExecCancel? || e.InternalCancel?) then CanceledStatus
    else if z.CnclReplaced? && e.ExecReplace? then ReplacedStatus
    else status
  }

  // ---------------------------------------------------------------- one event

  /** What the handling of an event comes to. */
  datatype Result = Result(order: Order, erased: bool, ops: seq<Op>, execs: seq<(Quantity, real)>)

  function HandleZone2(r: Result, e: Event): Result {
    var row := Row2(r.order.zone2, e);
    if row.None? then r
    else
      match Act(row.value.action, r.order, false, e)
      case Fails(o, execs, _) => r
      case Works(o, _, ops, _) =>
        r.(order := o.(zone2 := row.value.next, status := Status2(row.value.next, e, o.status)),
           ops := r.ops + ops + if e.TradeCrctCncl? then [] else [Report])
  }

  /** The main zone's answer: no row, a swallowed exception, or a transition. */
  datatype Answer = NoRow | Threw(result: Result, again: Option<Event>) | Moved(result: Result)

  function HandleZone1(o: Order, inBook: bool, e: Event): Answer {
    var row := Row1(o.zone1, e, Guard(o, e));
    if row.None? then NoRow
    else if GuardThrows(o, e) then Threw(Result(o, false, [], []), None)
    else
      match Act(row.value.action, o, inBook, e)
      case Fails(after, execs, again) => Threw(Result(after, false, [], execs), again)
      case Works(after, erased, ops, execs) =>
        var next := row.value.next;
        var report := if next.PendReplace? then [] else [Report];
        Moved(Result(after.(zone1 := next, status := StatusOf(next)), erased, ops + report, execs))
  }

  /** The main zone first, then the other one; after a failure in the main zone the other one is not asked. */
  function HandleOnce(o: Order, inBook: bool, e: Event): (Result, Option<Event>) {
    match HandleZone1(o, inBook, e)
    case NoRow => (HandleZone2(Result(o, false, [], []), e), None)
    case Threw(r, again) => (r, again)
    case Moved(r) => (HandleZone2(r, e), None)
  }

  /** process_event: the event and, after a refusal, the event that the refusing action sent. */
  function Handle(o: Order, inBook: bool, e: Event): Result {
    var (r, again) := HandleOnce(o, inBook, e);
    if again.None? then r
    else
      var (r2, _) := HandleOnce(r.order, inBook, again.value);
      r2.(ops := r.ops + r2.ops, execs := r.execs + r2.execs)
  }
}
