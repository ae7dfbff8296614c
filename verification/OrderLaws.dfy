/**
The state machine read by event instead of by row: what an order looks like after each kind of event, whatever table,
guards, actions and entry actions it took.  From it follow laws about sequences of events: a pause brings an order back
as it was, a request holds off all others until it is decided, and corrections set exactly their quantities.
*/
module OrderLaws {
  import opened Common
  import opened BookModel
  import opened OrderMachine
  import opened OrderRuns

  // ---------------------------------------------------------------- the order after an event

  function Named(o: Order, z: Zone1, status: Status): Order {
    o.(zone1 := z, status := status)
  }

  function Refused(o: Order): Order {
    Named(o, Rejected, RejectedStatus)
  }

  /** Back in the market: New if nothing has been executed, else PartFill. */
  function Reopened(o: Order): Order {
    if o.leaves == o.qty then Named(o, New, NewStatus) else Named(o, PartFill, PartFillStatus)
  }

  function WithQuantities(o: Order, leaves: Quantity, cum: Quantity): Order {
    o.(leaves := leaves, cum := cum)
  }

  /** The states that take corrections. */
  predicate HasExecutions(z: Zone1) {
    z.PartFill? || z.Filled? || z.DoneForDay? || z.Suspended? || z.Expired?
  }

  predicate Correctable(o: Order) {
    HasExecutions(o.zone1) || o.zone2.CnclReplaced?
  }

  /** A correction sets both quantities; an order with executions is reopened, one that is out of the market stays. */
  function AfterCorrection(o: Order, leaves: Quantity, cum: Quantity): Order {
    var n := WithQuantities(o, leaves, cum);
    match o.zone1
    case PartFill => Reopened(n)
    case Filled => Reopened(n)
    case Expired => Named(n, Expired, ExpiredStatus)
    case DoneForDay => Named(n, DoneForDay, DoneForDayStatus)
    case Suspended => Named(n, Suspended, SuspendedStatus)
    case _ => if o.zone2.CnclReplaced? then n else o
  }

  /** A trade moves quantity; the last unit needs the entry in the book, or else the state stays. */
  function AfterTrade(o: Order, inBook: bool, q: Quantity): Order {
    if !Booked(o.zone1) || q > o.leaves then o
    else
      var n := WithQuantities(o, o.leaves - q, (o.cum + q) % U32);
      if q < o.leaves then Named(n, PartFill, PartFillStatus)
      else if inBook then Named(n, Filled, FilledStatus)
      else n
  }

  function ByEvent(o: Order, inBook: bool, e: Event): Order {
    match e
    case OrderReceived(valid) =>
      if !o.zone1.RcvdNew? then o else if valid then Named(o, New, NewStatus) else Refused(o)
    case ExternalOrder(valid) =>
      if !o.zone1.RcvdNew? then o else if valid then Named(o, New, NewStatus) else Refused(o)
    case RplOrderReceived(located) =>
      if !o.zone1.RcvdNew? then o else if located then Named(o, PendReplace, PendingReplaceStatus) else Refused(o)
    case RecvOrderRejected => if o.zone1.RcvdNew? then Refused(o) else o
    case RecvRplOrderRejected => if o.zone1.RcvdNew? then Refused(o) else o
    case ExternalOrderRejected => if o.zone1.RcvdNew? then Refused(o) else o
    case Replace(valid, located) =>
      if !o.zone1.PendReplace? || !located then o else if valid then Named(o, New, NewStatus) else Refused(o)
    case RplOrderRejected(located) => if o.zone1.PendReplace? && located then Refused(o) else o
    case RplOrderExpired(located) => if o.zone1.PendReplace? && located then Named(o, Expired, ExpiredStatus) else o
    case TradeExecution(q, _) => AfterTrade(o, inBook, q)
    case TradeCrctCncl(leaves, cum) => AfterCorrection(o, leaves, cum)
    case OrderRejected => if o.zone1.New? then Refused(o) else o
    case OrderExpired =>
      if Booked(o.zone1) || o.zone1.Suspended? then Named(o, Expired, ExpiredStatus) else o
    case Finished =>
      if Booked(o.zone1) || o.zone1.Suspended? then Named(o, DoneForDay, DoneForDayStatus) else o
    case OrderSuspended =>
      if Booked(o.zone1) || o.zone1.DoneForDay? then Named(o, Suspended, SuspendedStatus) else o
    case NewDay => if o.zone1.DoneForDay? then Reopened(o) else o
    case Continued => if o.zone1.Suspended? then Reopened(o) else o
    case CancelReceived => if o.zone2.NoCnlReplace? then o.(zone2 := GoingCancel) else o
    case ReplaceReceived => if o.zone2.NoCnlReplace? then o.(zone2 := GoingReplace) else o
    case CancelRejected => if o.zone2.GoingCancel? then o.(zone2 := NoCnlReplace) else o
    case ReplaceRejected => if o.zone2.GoingReplace? then o.(zone2 := NoCnlReplace) else o
    case InternalCancel =>
      if o.zone2.NoCnlReplace? then o.(zone2 := CnclReplaced, status := CanceledStatus) else o
    case ExecCancel => if o.zone2.GoingCancel? then o.(zone2 := CnclReplaced, status := CanceledStatus) else o
    case ExecReplace => if o.zone2.GoingReplace? then o.(zone2 := CnclReplaced, status := ReplacedStatus) else o
  }

  predicate MainEvent(e: Event) {
    !(e.CancelReceived? || e.ReplaceReceived? || e.CancelRejected? || e.ReplaceRejected? || Zone2Event(e))
  }

  // ---------------------------------------------------------------- what an event queues

  /** The event brings an external order to the market, which is matched and stored as a copy. */
  predicate Arrives(o: Order, e: Event) {
    e.ExternalOrder? && e.valid && o.zone1.RcvdNew?
  }

  /** The event tells the order to be replaced what becomes of its replacement. */
  predicate Answered(o: Order, e: Event) {
    match e
    case RplOrderReceived(located) => o.zone1.RcvdNew? && located
    case Replace(_, located) => o.zone1.PendReplace? && located
    case RplOrderRejected(located) => o.zone1.PendReplace? && located
    case RplOrderExpired(located) => o.zone1.PendReplace? && located
    case _ => false
  }

  /** The event takes one of the zones along a transition that is reported: all but those to PendReplace and the
      corrections in CnclReplaced. */
  predicate Reported(o: Order, inBook: bool, e: Event) {
    match e
    case OrderReceived(_) => o.zone1.RcvdNew?
    case ExternalOrder(_) => o.zone1.RcvdNew?
    case RplOrderReceived(located) => o.zone1.RcvdNew? && !located
    case RecvOrderRejected => o.zone1.RcvdNew?
    case RecvRplOrderRejected => o.zone1.RcvdNew?
    case ExternalOrderRejected => o.zone1.RcvdNew?
    case Replace(_, located) => o.zone1.PendReplace? && located
    case RplOrderRejected(located) => o.zone1.PendReplace? && located
    case RplOrderExpired(located) => o.zone1.PendReplace? && located
    case TradeExecution(q, _) => Booked(o.zone1) && (q < o.leaves || (q == o.leaves && inBook))
    case TradeCrctCncl(_, _) => HasExecutions(o.zone1)
    case NewDay => o.zone1.DoneForDay?
    case Continued => o.zone1.Suspended?
    case OrderRejected => o.zone1.New?
    case OrderExpired => Booked(o.zone1) || o.zone1.Suspended?
    case Finished => Booked(o.zone1) || o.zone1.Suspended?
    case OrderSuspended => Booked(o.zone1) || o.zone1.DoneForDay?
    case _ => Ends(o.zone2, e) || Turns(o.zone2, e)
  }

  /** What is matched and stored comes first, then the answer to a replaced order, then the report. */
  function Queued(o: Order, inBook: bool, e: Event): seq<Op> {
    (if EntersOn(o, e) then [MatchOrder] + if o.market then [] else [AddToBook]
     else if Arrives(o, e) then [MatchCopy] + if o.market then [] else [AddCopy]
     else if LeavesOn(o, e) && !o.market then [RemoveFromBook]
     else []) +
    (if Answered(o, e) then [Enqueue] else []) +
    if Reported(o, inBook, e) then [Report] else []
  }

  function Executions(o: Order, e: Event): seq<(Quantity, real)> {
    if e.TradeExecution? && Booked(o.zone1) && e.lastQty <= o.leaves then [(e.lastQty, e.lastPx)] else []
  }

  /** The whole answer to an event, in terms of the order and the event alone. */
  function Answering(o: Order, inBook: bool, e: Event): Result {
    Result(ByEvent(o, inBook, e), inBook && FillsUp(o, e), Queued(o, inBook, e), Executions(o, e))
  }

  // ---------------------------------------------------------------- the machine does this

  /** What the main zone has to answer to an event of its own. */
  predicate Answers(o: Order, inBook: bool, e: Event) {
    match HandleZone1(o, inBook, e)
    case NoRow => Answering(o, inBook, e) == Result(o, false, [], [])
    case Moved(r) => Answering(o, inBook, e) == r
    case Threw(r, again) =>
      if again.None? then Answering(o, inBook, e) == r
      else r == Result(o, false, [], []) && RejectEvent(again.value) &&
           Answering(o, inBook, e) == Answering(o, inBook, again.value)
  }

  predicate Received(e: Event) {
    || e.OrderReceived? || e.ExternalOrder? || e.RplOrderReceived? || e.RecvOrderRejected? || e.RecvRplOrderRejected?
    || e.ExternalOrderRejected?
  }

  predicate Settling(e: Event) {
    e.Replace? || e.RplOrderRejected? || e.RplOrderExpired?
  }

  lemma ReceivedAnswers(o: Order, inBook: bool, e: Event)
    requires Received(e)
    ensures Answers(o, inBook, e)
  {
    hide Answers;
    if !o.zone1.RcvdNew? {
      ReceivedElsewhere(o, inBook, e);
    } else if e.OrderReceived? {
      OrderReceivedAnswers(o, inBook, e);
    } else if e.ExternalOrder? {
      ExternalAnswers(o, inBook, e);
    } else {
      ReplacementAnswers(o, inBook, e);
    }
  }

  lemma ReceivedElsewhere(o: Order, inBook: bool, e: Event)
    requires Received(e) && !o.zone1.RcvdNew?
    ensures Answers(o, inBook, e)
  {}

  lemma OrderReceivedAnswers(o: Order, inBook: bool, e: Event)
    requires e.OrderReceived? && o.zone1.RcvdNew?
    ensures Answers(o, inBook, e)
  {}

  lemma ExternalAnswers(o: Order, inBook: bool, e: Event)
    requires e.ExternalOrder? && o.zone1.RcvdNew?
    ensures Answers(o, inBook, e)
  {}

  lemma ReplacementAnswers(o: Order, inBook: bool, e: Event)
    requires Received(e) && !e.OrderReceived? && !e.ExternalOrder? && o.zone1.RcvdNew?
    ensures Answers(o, inBook, e)
  {}

  lemma SettlingAnswers(o: Order, inBook: bool, e: Event)
    requires Settling(e)
    ensures Answers(o, inBook, e)
  {
    hide Answers;
    if !o.zone1.PendReplace? {
      SettlingElsewhere(o, inBook, e);
    } else if e.Replace? {
      ReplaceAnswers(o, inBook, e);
    } else if e.RplOrderRejected? {
      RplRejectedAnswers(o, inBook, e);
    } else {
      RplExpiredAnswers(o, inBook, e);
    }
  }

  lemma SettlingElsewhere(o: Order, inBook: bool, e: Event)
    requires Settling(e) && !o.zone1.PendReplace?
    ensures Answers(o, inBook, e)
  {}

  lemma ReplaceAnswers(o: Order, inBook: bool, e: Event)
    requires e.Replace? && o.zone1.PendReplace?
    ensures Answers(o, inBook, e)
  {
    hide Answers;
    if e.valid && e.located {
      AcceptedAnswers(o, inBook, e);
    } else {
      RefusedAnswers(o, inBook, e);
    }
  }

  lemma AcceptedAnswers(o: Order, inBook: bool, e: Event)
    requires e.Replace? && o.zone1.PendReplace? && e.valid && e.located
    ensures Answers(o, inBook, e)
  {}

  lemma RefusedAnswers(o: Order, inBook: bool, e: Event)
    requires e.Replace? && o.zone1.PendReplace? && !(e.valid && e.located)
    ensures Answers(o, inBook, e)
  {}

  lemma RplRejectedAnswers(o: Order, inBook: bool, e: Event)
    requires e.RplOrderRejected? && o.zone1.PendReplace?
    ensures Answers(o, inBook, e)
  {}

  lemma RplExpiredAnswers(o: Order, inBook: bool, e: Event)
    requires e.RplOrderExpired? && o.zone1.PendReplace?
    ensures Answers(o, inBook, e)
  {}

  lemma TradeAnswers(o: Order, inBook: bool, e: Event)
    requires e.TradeExecution?
    ensures Answers(o, inBook, e)
  {}

  lemma EndAnswers(o: Order, inBook: bool, e: Event)
    requires e.OrderRejected? || e.OrderExpired? || e.Finished? || e.OrderSuspended?
    ensures Answers(o, inBook, e)
  {
    hide Answers;
    if e.OrderRejected? {
      OrderRejectedAnswers(o, inBook, e);
    } else if e.OrderExpired? {
      OrderExpiredAnswers(o, inBook, e);
    } else {
      PauseAnswers(o, inBook, e);
    }
  }

  lemma OrderRejectedAnswers(o: Order, inBook: bool, e: Event)
    requires e.OrderRejected?
    ensures Answers(o, inBook, e)
  {}

  lemma OrderExpiredAnswers(o: Order, inBook: bool, e: Event)
    requires e.OrderExpired?
    ensures Answers(o, inBook, e)
  {}

  lemma PauseAnswers(o: Order, inBook: bool, e: Event)
    requires e.Finished? || e.OrderSuspended?
    ensures Answers(o, inBook, e)
  {
    hide Answers;
    if e.Finished? {
      FinishedAnswers(o, inBook, e);
    } else {
      SuspendedAnswers(o, inBook, e);
    }
  }

  lemma FinishedAnswers(o: Order, inBook: bool, e: Event)
    requires e.Finished?
    ensures Answers(o, inBook, e)
  {}

  lemma SuspendedAnswers(o: Order, inBook: bool, e: Event)
    requires e.OrderSuspended?
    ensures Answers(o, inBook, e)
  {}

  lemma NewDayAnswers(o: Order, inBook: bool, e: Event)
    requires e.NewDay?
    ensures Answers(o, inBook, e)
  {}

  lemma ContinuedAnswers(o: Order, inBook: bool, e: Event)
    requires e.Continued?
    ensures Answers(o, inBook, e)
  {}

  lemma MainAnswers(o: Order, inBook: bool, e: Event)
    requires MainEvent(e) && !e.TradeCrctCncl?
    ensures Answers(o, inBook, e)
  {
    hide Answers;
    if Received(e) {
      ReceivedAnswers(o, inBook, e);
    } else if Settling(e) {
      SettlingAnswers(o, inBook, e);
    } else if e.TradeExecution? {
      TradeAnswers(o, inBook, e);
    } else if e.NewDay? {
      NewDayAnswers(o, inBook, e);
    } else if e.Continued? {
      ContinuedAnswers(o, inBook, e);
    } else {
      EndAnswers(o, inBook, e);
    }
  }

  /** A rejection is not itself answered by a rejection. */
  lemma RejectionIsLast(o: Order, inBook: bool, e: Event)
    requires RejectEvent(e)
    ensures HandleZone1(o, inBook, e).Threw? ==> HandleZone1(o, inBook, e).again.None?
  {}

  /** The other zone does not know the events of the main zone but the corrections. */
  lemma Zone2Idle(r: Result, e: Event)
    requires MainEvent(e) && !e.TradeCrctCncl?
    ensures HandleZone2(r, e) == r
  {}

  lemma OnceIs(o: Order, inBook: bool, e: Event)
    requires MainEvent(e) && !e.TradeCrctCncl?
    requires HandleZone1(o, inBook, e).Threw? ==> HandleZone1(o, inBook, e).again.None?
    ensures HandleOnce(o, inBook, e) == (Answering(o, inBook, e), None)
  {
    hide HandleZone1, HandleZone2, Answering;
    MainAnswers(o, inBook, e);
    var a := HandleZone1(o, inBook, e);
    Zone2Idle(if a.Moved? then a.result else Result(o, false, [], []), e);
  }

  lemma MainIs(o: Order, inBook: bool, e: Event)
    requires MainEvent(e) && !e.TradeCrctCncl?
    ensures Handle(o, inBook, e) == Answering(o, inBook, e)
  {
    hide HandleZone1, HandleZone2, Answering;
    MainAnswers(o, inBook, e);
    var a := HandleZone1(o, inBook, e);
    if a.Threw? && a.again.Some? {
      var again := a.again.value;
      RejectionIsLast(o, inBook, again);
      OnceIs(o, inBook, again);
      var r := Answering(o, inBook, again);
      assert [] + r.ops == r.ops && [] + r.execs == r.execs;
    } else {
      OnceIs(o, inBook, e);
    }
  }

  lemma CorrectionAnswers(o: Order, inBook: bool, e: Event)
    requires e.TradeCrctCncl? && HasExecutions(o.zone1)
    ensures HandleZone1(o, inBook, e) == Moved(Answering(o, inBook, e))
  {
    hide HandleZone1, Answering;
    if o.zone1.PartFill? || o.zone1.Filled? {
      MarketCorrection(o, inBook, e);
    } else {
      OutsideCorrection(o, inBook, e);
    }
  }

  lemma MarketCorrection(o: Order, inBook: bool, e: Event)
    requires e.TradeCrctCncl? && (o.zone1.PartFill? || o.zone1.Filled?)
    ensures HandleZone1(o, inBook, e) == Moved(Answering(o, inBook, e))
  {}

  lemma OutsideCorrection(o: Order, inBook: bool, e: Event)
    requires e.TradeCrctCncl? && (o.zone1.Expired? || o.zone1.DoneForDay? || o.zone1.Suspended?)
    ensures HandleZone1(o, inBook, e) == Moved(Answering(o, inBook, e))
  {}

  lemma NoCorrection(o: Order, inBook: bool, e: Event)
    requires e.TradeCrctCncl? && !HasExecutions(o.zone1)
    ensures HandleZone1(o, inBook, e).NoRow? && Queued(o, inBook, e) == [] && Executions(o, e) == []
    ensures ByEvent(o, inBook, e) == if o.zone2.CnclReplaced? then WithQuantities(o, e.leaves, e.cum) else o
  {}

  lemma CorrectionIs(o: Order, inBook: bool, e: Event)
    requires e.TradeCrctCncl?
    ensures Handle(o, inBook, e) == Answering(o, inBook, e)
  {
    hide HandleZone1, HandleZone2, Queued;
    if HasExecutions(o.zone1) {
      CorrectionAnswers(o, inBook, e);
    } else {
      NoCorrection(o, inBook, e);
    }
    var r := if HasExecutions(o.zone1) then Answering(o, inBook, e) else Result(o, false, [], []);
    Zone2Is(r, e);
    assert r.ops + [] + [] == r.ops;
  }

  lemma NoMainRow(o: Order, inBook: bool, e: Event)
    requires !MainEvent(e)
    ensures HandleZone1(o, inBook, e).NoRow?
  {}

  lemma RequestQueues(o: Order, inBook: bool, e: Event)
    requires !MainEvent(e)
    ensures Executions(o, e) == [] && !FillsUp(o, e)
    ensures Queued(o, inBook, e) ==
            if Ends(o.zone2, e) then [] + (if !o.market && Resting(o.status) then [RemoveFromBook] else []) + [Report]
            else if Turns(o.zone2, e) then [] + [] + [Report]
            else []
  {}

  lemma RequestIs(o: Order, inBook: bool, e: Event)
    requires !MainEvent(e)
    ensures Handle(o, inBook, e) == Answering(o, inBook, e)
  {
    hide HandleZone1, HandleZone2, Queued, Executions, FillsUp;
    NoMainRow(o, inBook, e);
    RequestQueues(o, inBook, e);
    Zone2Is(Result(o, false, [], []), e);
  }

  /** The whole machine: for every order and every event, the order afterwards, the operations that are queued, and
      the execution that is recorded. */
  lemma HandleIs(o: Order, inBook: bool, e: Event)
    ensures Handle(o, inBook, e) == Answering(o, inBook, e)
  {
    hide Handle, Answering;
    if !MainEvent(e) {
      RequestIs(o, inBook, e);
    } else if e.TradeCrctCncl? {
      CorrectionIs(o, inBook, e);
    } else {
      MainIs(o, inBook, e);
    }
  }

  // ---------------------------------------------------------------- pauses

  predicate Pauses(e: Event) {
    e.Finished? || e.OrderSuspended?
  }

  function PauseState(e: Event): Zone1
    requires Pauses(e)
  {
    if e.Finished? then DoneForDay else Suspended
  }

  /** The order out of the market, and otherwise as it was. */
  function PausedBy(o: Order, e: Event): Local
    requires Pauses(e)
  {
    Local(Named(o, PauseState(e), StatusOf(PauseState(e))), 0)
  }

  /** The event that ends a pause. */
  function Resuming(e: Event): Event
    requires Pauses(e)
  {
    if e.Finished? then NewDay else Continued
  }

  lemma PauseBegins(l: Local, x: Input)
    requires Healthy(l) && Booked(l.order.zone1) && !l.order.zone2.CnclReplaced? && Pauses(x.event)
    ensures LocalStep(l, x.event, x.saves) == PausedBy(l.order, x.event)
  {
    hide Handle;
    HandleIs(l.order, l.copies > 0, x.event);
  }

  lemma PauseChanges(o: Order, e: Event, x: Input)
    requires Pauses(e) && Pauses(x.event)
    ensures LocalStep(PausedBy(o, e), x.event, x.saves) == PausedBy(o, x.event)
  {
    hide Handle;
    HandleIs(PausedBy(o, e).order, false, x.event);
  }

  lemma {:induction false} PauseGoesOn(o: Order, e: Event, inputs: seq<Input>)
    requires Pauses(e) && forall i :: 0 <= i < |inputs| ==> Pauses(inputs[i].event)
    ensures LocalRun(PausedBy(o, e), inputs) ==
            PausedBy(o, if inputs == [] then e else inputs[|inputs| - 1].event)
    decreases |inputs|
  {
    hide LocalStep, PausedBy;
    if inputs != [] {
      PauseChanges(o, e, inputs[0]);
      PauseGoesOn(o, inputs[0].event, inputs[1..]);
    }
  }

  lemma PauseEnds(o: Order, e: Event, saves: bool)
    requires Pauses(e) && !o.market && o.leaves > 0
    ensures LocalStep(PausedBy(o, e), Resuming(e), saves) == Local(Reopened(o), if saves then 1 else 0)
  {
    hide Handle;
    HandleIs(PausedBy(o, e).order, false, Resuming(e));
  }

  /** Any number of pauses of an order in the market keeps all of it but its state, which is that of the last pause, and
      takes its entry out.  The event that ends the last pause brings it back: New if nothing has been executed and
      PartFill otherwise, with its entry if the saver accepts it. */
  lemma PauseKeepsOrder(l: Local, inputs: seq<Input>, saves: bool)
    requires Healthy(l) && Booked(l.order.zone1) && !l.order.zone2.CnclReplaced?
    requires inputs != [] && forall i :: 0 <= i < |inputs| ==> Pauses(inputs[i].event)
    ensures var last := inputs[|inputs| - 1].event; var n := LocalRun(l, inputs);
            && n == PausedBy(l.order, last)
            && LocalStep(n, Resuming(last), saves) == Local(Reopened(l.order), if saves then 1 else 0)
  {
    hide LocalStep, PausedBy;
    PauseBegins(l, inputs[0]);
    PauseGoesOn(l.order, inputs[0].event, inputs[1..]);
    PauseEnds(l.order, inputs[|inputs| - 1].event, saves);
  }

  /** The other resuming event does not end a pause. */
  lemma WrongResume(o: Order, e: Event, f: Event, saves: bool)
    requires Pauses(e) && Pauses(f) && e != f
    ensures LocalStep(PausedBy(o, e), Resuming(f), saves) == PausedBy(o, e)
  {
    hide Handle;
    HandleIs(PausedBy(o, e).order, false, Resuming(f));
  }

  // ---------------------------------------------------------------- requests

  predicate Asks(e: Event) {
    e.CancelReceived? || e.ReplaceReceived?
  }

  /** The events that decide a request. */
  function Denying(e: Event): Event
    requires Asks(e)
  {
    if e.CancelReceived? then CancelRejected else ReplaceRejected
  }

  function Granting(e: Event): Event
    requires Asks(e)
  {
    if e.CancelReceived? then ExecCancel else ExecReplace
  }

  function RequestState(e: Event): Zone2
    requires Asks(e)
  {
    if e.CancelReceived? then GoingCancel else GoingReplace
  }

  /** An event about requests that does not decide the one asked for by `e`. */
  predicate Beside(e: Event, f: Event)
    requires Asks(e)
  {
    !MainEvent(f) && f != Denying(e) && f != Granting(e)
  }

  lemma RequestStep(l: Local, f: Event, saves: bool)
    requires !MainEvent(f) && !Ends(l.order.zone2, f)
    ensures LocalStep(l, f, saves) == Local(ByEvent(l.order, l.copies > 0, f), l.copies)
  {
    hide Handle, ByEvent, HandleZone2;
    HandleIs(l.order, l.copies > 0, f);
    RequestQueues(l.order, l.copies > 0, f);
  }

  lemma {:induction false} RequestWaits(l: Local, e: Event, inputs: seq<Input>)
    requires Asks(e) && l.order.zone2 == RequestState(e)
    requires forall i :: 0 <= i < |inputs| ==> Beside(e, inputs[i].event)
    ensures LocalRun(l, inputs) == l
    decreases |inputs|
  {
    hide LocalStep;
    if inputs != [] {
      RequestStep(l, inputs[0].event, inputs[0].saves);
      RequestWaits(l, e, inputs[1..]);
    }
  }

  /** A request holds off all others until it is decided.  A denial leaves no trace of it. */
  lemma RequestDenied(l: Local, x: Input, inputs: seq<Input>, saves: bool)
    requires l.order.zone2 == NoCnlReplace && Asks(x.event)
    requires forall i :: 0 <= i < |inputs| ==> Beside(x.event, inputs[i].event)
    ensures LocalStep(LocalRun(LocalStep(l, x.event, x.saves), inputs), Denying(x.event), saves) == l
  {
    hide LocalStep;
    RequestStep(l, x.event, x.saves);
    var n := LocalStep(l, x.event, x.saves);
    RequestWaits(n, x.event, inputs);
    RequestStep(n, Denying(x.event), saves);
  }

  /** Granting it takes an order of a healthy run out of the book for what was asked, whatever was asked since. */
  lemma RequestGranted(l: Local, x: Input, inputs: seq<Input>, saves: bool)
    requires Healthy(l) && l.order.zone2 == NoCnlReplace && Asks(x.event) && !l.order.zone1.RcvdNew?
    requires forall i :: 0 <= i < |inputs| ==> Beside(x.event, inputs[i].event)
    ensures LocalStep(LocalRun(LocalStep(l, x.event, x.saves), inputs), Granting(x.event), saves) ==
            Local(l.order.(zone2 := CnclReplaced,
                           status := if x.event.CancelReceived? then CanceledStatus else ReplacedStatus), 0)
  {
    hide LocalStep;
    RequestStep(l, x.event, x.saves);
    var n := LocalStep(l, x.event, x.saves);
    RequestWaits(n, x.event, inputs);
    GrantStep(n, x.event, saves);
  }

  lemma GrantStep(l: Local, e: Event, saves: bool)
    requires Healthy(l) && Asks(e) && l.order.zone2 == RequestState(e) && !l.order.zone1.RcvdNew?
    ensures LocalStep(l, Granting(e), saves) ==
            Local(l.order.(zone2 := CnclReplaced,
                           status := if e.CancelReceived? then CanceledStatus else ReplacedStatus), 0)
  {
    hide Handle, HandleZone2, Queued, ByEvent;
    HandleIs(l.order, l.copies > 0, Granting(e));
    GrantedOrder(l.order, l.copies > 0, e);
    GrantQueues(l.order, l.copies > 0, e);
  }

  lemma GrantedOrder(o: Order, inBook: bool, e: Event)
    requires Asks(e) && o.zone2 == RequestState(e)
    ensures ByEvent(o, inBook, Granting(e)) ==
            o.(zone2 := CnclReplaced, status := if e.CancelReceived? then CanceledStatus else ReplacedStatus)
  {}

  lemma GrantQueues(o: Order, inBook: bool, e: Event)
    requires Asks(e) && o.zone2 == RequestState(e)
    ensures var ops := Queued(o, inBook, Granting(e));
            AddToBook !in ops && (RemoveFromBook in ops <==> !o.market && Resting(o.status))
    ensures !FillsUp(o, Granting(e))
  {
    hide Queued, FillsUp;
    RequestQueues(o, inBook, Granting(e));
  }

  // ---------------------------------------------------------------- corrections

  /** A correction gives an order with executions, and a cancelled or replaced one, exactly its quantities, and changes
      nothing of any other order. */
  lemma CorrectionSets(o: Order, inBook: bool, leaves: Quantity, cum: Quantity)
    ensures var n := Handle(o, inBook, TradeCrctCncl(leaves, cum)).order;
            if Correctable(o) then n.leaves == leaves && n.cum == cum else n == o
  {
    hide Handle;
    HandleIs(o, inBook, TradeCrctCncl(leaves, cum));
  }

  /** Taking a trade back by its opposite correction: the order is as it was before the trade. */
  lemma CorrectionUndoesTrade(l: Local, q: Quantity, px: real, saves: bool)
    requires Healthy(l) && Booked(l.order.zone1) && !l.order.zone2.CnclReplaced?
    requires q <= l.order.leaves && (l.order.zone1.New? <==> l.order.leaves == l.order.qty)
    ensures var n := LocalStep(l, TradeExecution(q, px), saves);
            LocalStep(n, TradeCrctCncl(l.order.leaves, l.order.cum), true) == l
  {
    hide Handle;
    HandleIs(l.order, l.copies > 0, TradeExecution(q, px));
    var n := LocalStep(l, TradeExecution(q, px), saves);
    HandleIs(n.order, n.copies > 0, TradeCrctCncl(l.order.leaves, l.order.cum));
  }
}
