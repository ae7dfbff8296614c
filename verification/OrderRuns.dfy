/**
Whole runs of one order through its state machine.  Every queued book operation is performed before the next
event of the order arrives, which is what the scheduler guarantees for operations on the same order.
*/
module OrderRuns {
  import opened Common
  import opened BookModel
  import opened OrderMachine

  /** An order and the number of entries it has in the book. */
  datatype Local = Local(order: Order, copies: nat)

  /** An event, and whether the saver accepts the order if the event puts it into the book. */
  datatype Input = Input(event: Event, saves: bool)

  /** The effect of a transaction on the order's entries.  An entry that the saver refuses is taken back.  A removal
      that finds nothing fails the transaction, and undoing it puts an entry in. */
  function Perform(copies: nat, ops: seq<Op>, saves: bool): nat {
    if AddToBook in ops then if saves then copies + 1 else copies
    else if RemoveFromBook !in ops then copies
    else if copies > 0 then copies - 1
    else copies + 1
  }

  function LocalStep(l: Local, e: Event, saves: bool): Local {
    Settled(l, Handle(l.order, l.copies > 0, e), saves)
  }

  function Settled(l: Local, r: Result, saves: bool): Local {
    Local(r.order, Perform(if r.erased && l.copies > 0 then l.copies - 1 else l.copies, r.ops, saves))
  }

  function LocalRun(l: Local, inputs: seq<Input>): Local
    decreases |inputs|
  {
    if inputs == [] then l else LocalRun(LocalStep(l, inputs[0].event, inputs[0].saves), inputs[1..])
  }

  // ---------------------------------------------------------------- what every event keeps

  /** The terms of an order never change, Rejected, Expired and CnclReplaced are never left, only a trade correction
      leaves Filled, and a filled order has nothing left. */
  predicate Keeps(o: Order, n: Order, e: Event) {
    && n.side == o.side && n.market == o.market && n.price == o.price && n.qty == o.qty
    && (n.zone1.RcvdNew? ==> o.zone1.RcvdNew?)
    && (o.zone1.Rejected? ==> n.zone1.Rejected?)
    && (o.zone1.Expired? ==> n.zone1.Expired?)
    && (o.zone2.CnclReplaced? ==> n.zone2.CnclReplaced?)
    && (o.zone1.Filled? && !n.zone1.Filled? ==> e.TradeCrctCncl?)
    && ((o.zone1.Filled? ==> o.leaves == 0) ==> (n.zone1.Filled? ==> n.leaves == 0))
  }

  lemma RowFacts(z: Zone1, e: Event, guard: bool)
    ensures var row := Row1(z, e, guard);
            && (z.Rejected? ==> row.None?)
            && (z.Expired? && row.Some? ==> row.value.next.Expired?)
            && (z.Filled? ==> (row.Some? <==> e.TradeCrctCncl?))
            && (row.Some? ==> !row.value.next.RcvdNew? &&
                              (row.value.next.Filled? ==> row.value.action.Fill? && guard && e.TradeExecution?))
  {}

  lemma ActFacts(a: Action, o: Order, inBook: bool, e: Event)
    requires Act.requires(a, o, inBook, e)
    ensures var f := Act(a, o, inBook, e); var n := f.order;
            && n.side == o.side && n.market == o.market && n.price == o.price && n.qty == o.qty
            && n.zone1 == o.zone1 && n.zone2 == o.zone2
            && (f.Fails? && f.again.Some? ==> n == o)
            && (a.Fill? && e.lastQty == o.leaves ==> n.leaves == 0)
            && (f.Fails? ==> !e.TradeCrctCncl?)
  {}

  lemma Zone1Keeps(o: Order, inBook: bool, e: Event)
    ensures var a := HandleZone1(o, inBook, e);
            && (!a.NoRow? ==> Keeps(o, a.result.order, e) && a.result.order.zone2 == o.zone2)
            && (a.Threw? && a.again.Some? ==> a.result.order == o && !o.zone1.Filled?)
            && (a.Moved? && e.TradeCrctCncl? ==> !a.result.order.zone1.Filled?)
            && (a.NoRow? && o.zone1.Filled? ==> !e.TradeCrctCncl?)
  {
    RowFacts(o.zone1, e, Guard(o, e));
    var row := Row1(o.zone1, e, Guard(o, e));
    if row.Some? && !GuardThrows(o, e) {
      ActFacts(row.value.action, o, inBook, e);
      hide Act, Row1;
    }
  }

  /** An event that cancels or replaces the order. */
  predicate Ends(z: Zone2, e: Event) {
    (z.NoCnlReplace? && e.InternalCancel?) || (z.GoingCancel? && e.ExecCancel?) || (z.GoingReplace? && e.ExecReplace?)
  }

  /** An event that asks for that, or takes the request back. */
  predicate Turns(z: Zone2, e: Event) {
    || (z.NoCnlReplace? && (e.CancelReceived? || e.ReplaceReceived?))
    || (z.GoingCancel? && e.CancelRejected?) || (z.GoingReplace? && e.ReplaceRejected?)
  }

  function Turned(z: Zone2, e: Event): Zone2 {
    if !z.NoCnlReplace? then NoCnlReplace else if e.CancelReceived? then GoingCancel else GoingReplace
  }

  /** The cancel/replace zone in closed form. */
  lemma Zone2Is(r: Result, e: Event)
    ensures var o := r.order;
            HandleZone2(r, e) ==
            if o.zone2.CnclReplaced? && e.TradeCrctCncl? then r.(order := Corrected(o, e), ops := r.ops + [] + [])
            else if Ends(o.zone2, e) then
              r.(order := o.(zone2 := CnclReplaced,
                             status := if e.ExecReplace? then ReplacedStatus else CanceledStatus),
                 ops := r.ops + (if !o.market && Resting(o.status) then [RemoveFromBook] else []) + [Report])
            else if Turns(o.zone2, e) then r.(order := o.(zone2 := Turned(o.zone2, e)), ops := r.ops + [] + [Report])
            else r
  {
    hide Act;
    Zone2Acts(r.order, e);
  }

  lemma Zone2Acts(o: Order, e: Event)
    ensures Act(Nothing, o, false, e) == Works(o, false, [], [])
    ensures Act(TakeOut, o, false, e) ==
            Works(o, false, if !o.market && Resting(o.status) then [RemoveFromBook] else [], [])
    ensures e.TradeCrctCncl? ==> Act(CorrectWithoutRestore, o, false, e) == Works(Corrected(o, e), false, [], [])
  {}

  lemma Zone2Keeps(r: Result, e: Event)
    requires e.TradeCrctCncl? ==> !r.order.zone1.Filled?
    ensures Keeps(r.order, HandleZone2(r, e).order, e)
    ensures HandleZone2(r, e).order.zone1 == r.order.zone1
  {
    hide HandleZone2;
    Zone2Is(r, e);
  }

  lemma OnceKeeps(o: Order, inBook: bool, e: Event)
    ensures var (r, again) := HandleOnce(o, inBook, e);
            && Keeps(o, r.order, e) && (again.Some? ==> r.order == o && !o.zone1.Filled?)
  {
    hide HandleZone1, HandleZone2;
    Zone1Keeps(o, inBook, e);
    match HandleZone1(o, inBook, e)
    case NoRow => Zone2Keeps(Result(o, false, [], []), e);
    case Threw(_, _) =>
    case Moved(r) => Zone2Keeps(r, e);
  }

  lemma HandleKeeps(o: Order, inBook: bool, e: Event)
    ensures Keeps(o, Handle(o, inBook, e).order, e)
  {
    hide HandleOnce;
    OnceKeeps(o, inBook, e);
    var (r, again) := HandleOnce(o, inBook, e);
    if again.Some? {
      OnceKeeps(r.order, inBook, again.value);
    }
  }

  // ---------------------------------------------------------------- book operations in closed form

  predicate Booked(z: Zone1) {
    z.New? || z.PartFill?
  }

  /** The event brings the order to the market: it is matched and put into the book. */
  predicate EntersOn(o: Order, e: Event) {
    match e
    case OrderReceived(valid) => o.zone1.RcvdNew? && valid
    case Replace(valid, located) => o.zone1.PendReplace? && valid && located
    case TradeCrctCncl(leaves, _) => (o.zone1.PartFill? || o.zone1.Filled?) && o.leaves == 0 && leaves > 0
    case NewDay => o.zone1.DoneForDay? && o.leaves > 0
    case Continued => o.zone1.Suspended? && o.leaves > 0
    case _ => false
  }

  /** The event asks for the order's removal from the book. */
  predicate LeavesOn(o: Order, e: Event) {
    match e
    case OrderRejected => o.zone1.New?
    case OrderExpired => Resting(o.status) && (Booked(o.zone1) || o.zone1.Suspended?)
    case Finished => Resting(o.status) && (Booked(o.zone1) || o.zone1.Suspended?)
    case OrderSuspended => Resting(o.status) && (Booked(o.zone1) || o.zone1.DoneForDay?)
    case InternalCancel => Resting(o.status) && o.zone2.NoCnlReplace?
    case ExecCancel => Resting(o.status) && o.zone2.GoingCancel?
    case ExecReplace => Resting(o.status) && o.zone2.GoingReplace?
    case _ => false
  }

  /** The event trades all that is left of the order. */
  predicate FillsUp(o: Order, e: Event) {
    e.TradeExecution? && Booked(o.zone1) && e.lastQty == o.leaves
  }

  lemma OpsExclude(o: Order, e: Event)
    ensures !(EntersOn(o, e) && LeavesOn(o, e)) && !(EntersOn(o, e) && FillsUp(o, e))
    ensures !(LeavesOn(o, e) && FillsUp(o, e))
    ensures LeavesOn(o, e) ==> !e.TradeCrctCncl? && !Abandons(o, e)
  {}

  predicate Zone2Event(e: Event) {
    e.InternalCancel? || e.ExecCancel? || e.ExecReplace?
  }

  /** The actions that bring an order to the market. */
  predicate ActEnters(a: Action, o: Order, e: Event) {
    || (a.Receive? && e.OrderReceived? && e.valid)
    || (a.AcceptReplace? && e.Replace? && e.valid && e.located)
    || (a.Correct? && e.TradeCrctCncl? && o.leaves == 0 && e.leaves > 0)
    || (a.Restore? && o.leaves > 0)
  }

  lemma ActBookOps(a: Action, o: Order, inBook: bool, e: Event)
    requires Act.requires(a, o, inBook, e) && !o.market && !a.AcceptExternal?
    ensures var r := Act(a, o, inBook, e);
            && (r.Works? ==>
                  && (AddToBook in r.ops <==> ActEnters(a, o, e)) && (MatchOrder in r.ops <==> ActEnters(a, o, e))
                  && (RemoveFromBook in r.ops <==> a.RejectNew? || (a.TakeOut? && Resting(o.status)))
                  && (r.erased <==> inBook && a.Fill? && e.lastQty == o.leaves))
            && (r.Fails? ==> !ActEnters(a, o, e) && !a.RejectNew? && !a.TakeOut? && !(inBook && a.Fill?))
  {}

  /** The table: which events lead to which of these actions. */
  lemma RowBookOps(o: Order, e: Event)
    requires !e.ExternalOrder?
    ensures var row := Row1(o.zone1, e, Guard(o, e));
            if row.None? then !EntersOn(o, e) && (LeavesOn(o, e) ==> Zone2Event(e)) && !FillsUp(o, e)
            else
              && !Zone2Event(e) && !row.value.action.AcceptExternal?
              && (!GuardThrows(o, e) ==> Act.requires(row.value.action, o, false, e))
              && (EntersOn(o, e) <==> ActEnters(row.value.action, o, e))
              && (LeavesOn(o, e) <==> row.value.action.RejectNew? || (row.value.action.TakeOut? && Resting(o.status)))
              && (FillsUp(o, e) <==> row.value.action.Fill? && e.lastQty == o.leaves)
              && (GuardThrows(o, e) ==> row.value.action.Fill?)
  {}

  /** The operations of the main zone. */
  lemma Zone1BookOps(o: Order, inBook: bool, e: Event)
    requires !o.market && !e.ExternalOrder?
    ensures var a := HandleZone1(o, inBook, e);
            && (a.Moved? ==>
                  && (AddToBook in a.result.ops <==> EntersOn(o, e)) && (MatchOrder in a.result.ops <==> EntersOn(o, e))
                  && (RemoveFromBook in a.result.ops <==> LeavesOn(o, e))
                  && (a.result.erased <==> inBook && FillsUp(o, e)))
            && (a.NoRow? ==> !EntersOn(o, e) && (LeavesOn(o, e) ==> Zone2Event(e)) && !FillsUp(o, e))
            && (a.Threw? ==>
                  && !EntersOn(o, e) && !LeavesOn(o, e) && !(inBook && FillsUp(o, e))
                  && a.result.ops == [] && !a.result.erased)
            && (!a.NoRow? ==> !Zone2Event(e))
  {
    hide Row1, Act, EntersOn, LeavesOn, FillsUp, ActEnters;
    RowBookOps(o, e);
    var row := Row1(o.zone1, e, Guard(o, e));
    if row.Some? && !GuardThrows(o, e) {
      ActBookOps(row.value.action, o, inBook, e);
    } else if row.Some? {
      assert !ActEnters(row.value.action, o, e) by { FillNeverEnters(o, e); }
    }
  }

  lemma FillNeverEnters(o: Order, e: Event)
    ensures !ActEnters(Fill, o, e)
  {}

  lemma Zone2BookOps(r: Result, e: Event)
    requires !r.order.market
    ensures var n := HandleZone2(r, e);
            && (AddToBook in n.ops <==> AddToBook in r.ops) && (MatchOrder in n.ops <==> MatchOrder in r.ops)
            && (RemoveFromBook in n.ops <==> RemoveFromBook in r.ops || (Zone2Event(e) && LeavesOn(r.order, e)))
            && n.erased == r.erased
  {
    hide HandleZone2;
    Zone2Is(r, e);
  }

  predicate RejectEvent(e: Event) {
    e.RecvOrderRejected? || e.RecvRplOrderRejected? || e.ExternalOrderRejected? || e.RplOrderRejected?
  }

  lemma ActAgain(a: Action, o: Order, inBook: bool, e: Event)
    requires Act.requires(a, o, inBook, e)
    ensures var f := Act(a, o, inBook, e); f.Fails? && f.again.Some? ==> f.order == o && RejectEvent(f.again.value)
  {}

  lemma RowActs(o: Order, inBook: bool, e: Event)
    ensures var row := Row1(o.zone1, e, Guard(o, e));
            row.Some? && !GuardThrows(o, e) ==> Act.requires(row.value.action, o, inBook, e)
  {}

  lemma RejectsDoNothing(o: Order, e: Event)
    requires RejectEvent(e)
    ensures !EntersOn(o, e) && !LeavesOn(o, e) && !FillsUp(o, e)
  {}

  lemma AgainIsReject(o: Order, inBook: bool, e: Event)
    ensures var a := HandleZone1(o, inBook, e);
            a.Threw? && a.again.Some? ==>
              && a.result.order == o && !EntersOn(o, a.again.value) && !LeavesOn(o, a.again.value)
              && !FillsUp(o, a.again.value) && !a.again.value.ExternalOrder?
  {
    hide Act, Row1, EntersOn, LeavesOn, FillsUp;
    RowActs(o, inBook, e);
    var row := Row1(o.zone1, e, Guard(o, e));
    if row.Some? && !GuardThrows(o, e) {
      ActAgain(row.value.action, o, inBook, e);
      var f := Act(row.value.action, o, inBook, e);
      if f.Fails? && f.again.Some? {
        RejectsDoNothing(o, f.again.value);
      }
    }
  }

  lemma OnceBookOps(o: Order, inBook: bool, e: Event)
    requires !o.market && !e.ExternalOrder?
    ensures var (r, again) := HandleOnce(o, inBook, e);
            && (AddToBook in r.ops <==> EntersOn(o, e)) && (MatchOrder in r.ops <==> EntersOn(o, e))
            && (RemoveFromBook in r.ops <==> LeavesOn(o, e)) && (r.erased <==> inBook && FillsUp(o, e))
            && (again.Some? ==>
                  && r.order == o && r.ops == [] && !r.erased && !again.value.ExternalOrder?
                  && !EntersOn(o, again.value) && !LeavesOn(o, again.value) && !FillsUp(o, again.value))
  {
    hide HandleZone1, HandleZone2, EntersOn, FillsUp;
    Zone1BookOps(o, inBook, e);
    Zone1Keeps(o, inBook, e);
    AgainIsReject(o, inBook, e);
    match HandleZone1(o, inBook, e)
    case NoRow => Zone2BookOps(Result(o, false, [], []), e);
    case Threw(_, _) =>
    case Moved(r) => Zone2BookOps(r, e);
  }

  /** The book operations that an event queues, in terms of the order and the event alone: it enters together with
      an attempt to match it, it leaves on the events above, and only a fill takes it out at once. */
  lemma HandleBookOps(o: Order, inBook: bool, e: Event)
    requires !o.market && !e.ExternalOrder?
    ensures var r := Handle(o, inBook, e);
            && (AddToBook in r.ops <==> EntersOn(o, e)) && (MatchOrder in r.ops <==> EntersOn(o, e))
            && (RemoveFromBook in r.ops <==> LeavesOn(o, e)) && (r.erased <==> inBook && FillsUp(o, e))
  {
    hide HandleOnce, EntersOn, LeavesOn, FillsUp;
    OnceBookOps(o, inBook, e);
    var (r, again) := HandleOnce(o, inBook, e);
    if again.Some? {
      OnceBookOps(o, inBook, again.value);
      var (r2, _) := HandleOnce(o, inBook, again.value);
      assert [] + r2.ops == r2.ops;
    }
  }

  /** An order that enters is New or PartFill, with the status to go with it unless it is cancelled or replaced. */
  lemma EnteredOrder(o: Order, inBook: bool, e: Event)
    requires !o.market && EntersOn(o, e)
    ensures var n := Handle(o, inBook, e).order;
            && !n.market && Booked(n.zone1) && n.zone2 == o.zone2 && n.status == StatusOf(n.zone1)
            && n.leaves == (if e.TradeCrctCncl? then e.leaves else o.leaves)
            && (n.leaves > 0 <==> e.TradeCrctCncl? || o.leaves > 0)
  {
    EnteredZone1(o, inBook, e);
    hide HandleZone1, HandleZone2;
    Zone2Is(HandleZone1(o, inBook, e).result, e);
  }

  lemma EnteredZone1(o: Order, inBook: bool, e: Event)
    requires !o.market && EntersOn(o, e)
    ensures HandleZone1(o, inBook, e).Moved?
    ensures var n := HandleZone1(o, inBook, e).result.order;
            && !n.market && Booked(n.zone1) && n.zone2 == o.zone2 && n.status == StatusOf(n.zone1)
            && n.leaves == (if e.TradeCrctCncl? then e.leaves else o.leaves)
  {}

  /** An order that leaves is New or PartFill afterwards exactly if it is cancelled or replaced while it is. */
  lemma LeftOrder(o: Order, inBook: bool, e: Event)
    requires !o.market && LeavesOn(o, e)
    ensures var n := Handle(o, inBook, e).order;
            !n.market && n.leaves == o.leaves && (Booked(n.zone1) <==> Zone2Event(e) && Booked(o.zone1))
  {
    LeftZone1(o, inBook, e);
    hide HandleZone1, HandleZone2;
    var a := HandleZone1(o, inBook, e);
    Zone2Is(if a.Moved? then a.result else Result(o, false, [], []), e);
  }

  lemma LeftZone1(o: Order, inBook: bool, e: Event)
    requires !o.market && LeavesOn(o, e)
    ensures var a := HandleZone1(o, inBook, e);
            if Zone2Event(e) then a.NoRow?
            else
              && a.Moved? && !Booked(a.result.order.zone1) && !a.result.order.market
              && a.result.order.leaves == o.leaves && a.result.order.zone2 == o.zone2
    ensures !Zone2Event(e) ==> !Ends(o.zone2, e) && !Turns(o.zone2, e) && !e.TradeCrctCncl?
  {}

  /** The event corrects the order to nothing left. */
  predicate CorrectedAway(o: Order, e: Event) {
    (o.zone1.PartFill? || o.zone2.CnclReplaced?) && e.TradeCrctCncl? && e.leaves == 0
  }

  /** The event takes the order out of New and PartFill without a removal, since its status is not a resting one. */
  predicate Abandons(o: Order, e: Event) {
    !Resting(o.status) && (e.OrderExpired? || e.Finished? || e.OrderSuspended?)
  }

  /** A tradable order that neither leaves nor is filled up stays tradable, but for the events above. */
  lemma StayingOrder(o: Order, e: Event)
    requires RestsWell(o) && !e.ExternalOrder? && !LeavesOn(o, e) && !FillsUp(o, e)
    ensures RestsWell(Handle(o, true, e).order) <==> !CorrectedAway(o, e) && !Abandons(o, e)
  {
    hide HandleZone1, HandleZone2, LeavesOn, FillsUp;
    StayingZone1(o, e);
    var a := HandleZone1(o, true, e);
    Zone2Is(if a.Moved? then a.result else Result(o, false, [], []), e);
  }

  lemma StayingZone1(o: Order, e: Event)
    requires RestsWell(o) && !e.ExternalOrder? && !LeavesOn(o, e) && !FillsUp(o, e)
    ensures var a := HandleZone1(o, true, e);
            && (a.Moved? ==>
                  && a.result.order.zone2 == o.zone2 && !Ends(o.zone2, e) && !Turns(o.zone2, e)
                  && (e.TradeCrctCncl? ==> o.zone1.PartFill? && Corrected(a.result.order, e) == a.result.order)
                  && (RestsWell(a.result.order) <==> !(e.TradeCrctCncl? && e.leaves == 0) && !Abandons(o, e)))
            && (a.Threw? ==> a.result.order == o && a.again.None? && !e.TradeCrctCncl?)
            && (!a.Moved? ==> !(o.zone1.PartFill? && e.TradeCrctCncl?) && !Abandons(o, e))
  {}

  // ---------------------------------------------------------------- book membership

  /** A received order that is not on its way yet. */
  predicate Start(l: Local) {
    && l.order.zone1 == RcvdNew && l.order.zone2 == NoCnlReplace && l.copies == 0
    && !l.order.market && 0 < l.order.leaves <= l.order.qty
  }

  predicate Healthy(l: Local) {
    var o := l.order;
    && !o.market
    && (o.zone1.RcvdNew? ==> o.zone2 == NoCnlReplace)
    && (!o.zone2.CnclReplaced? ==>
          && l.copies == (if Booked(o.zone1) then 1 else 0)
          && (!o.zone1.RcvdNew? ==> o.status == StatusOf(o.zone1))
          && (if o.zone1.Filled? then o.leaves == 0 else 0 < o.leaves <= o.qty))
  }

  /** Corrections leave something to execute and no more than was ordered; before the order is received the
      machine has no order to apply other events to; external orders are not covered. */
  predicate Admissible(o: Order, e: Event) {
    && (e.TradeCrctCncl? ==> 0 < e.leaves <= o.qty)
    && !e.ExternalOrder?
    && (o.zone1.RcvdNew? ==> e.OrderReceived? || e.RecvOrderRejected? || e.RplOrderReceived? ||
                             e.RecvRplOrderRejected? || e.ExternalOrderRejected?)
  }

  /** Every input is admissible where it arrives, and no entry is refused. */
  predicate AdmissibleRun(l: Local, inputs: seq<Input>)
    decreases |inputs|
  {
    inputs == [] ||
    (&& Admissible(l.order, inputs[0].event)
     && (inputs[0].saves || !EntersOn(l.order, inputs[0].event))
     && AdmissibleRun(LocalStep(l, inputs[0].event, inputs[0].saves), inputs[1..]))
  }

  /** The zones react to the same event only for a correction of a cancelled or replaced order. */
  lemma ZonesApart(o: Order, e: Event)
    requires !o.zone2.CnclReplaced? && Row1(o.zone1, e, Guard(o, e)).Some?
    ensures Row2(o.zone2, e).None?
  {}

  lemma BookedKeepsHealthy(l: Local, e: Event)
    requires Healthy(l) && Admissible(l.order, e) && !l.order.zone2.CnclReplaced? && Booked(l.order.zone1)
    requires HandleZone1(l.order, l.copies > 0, e).Moved?
    ensures var r := HandleZone1(l.order, l.copies > 0, e).result;
            Healthy(Settled(l, r, true)) && r.order.zone2 == l.order.zone2
  {
  }

  lemma UnbookedKeepsHealthy(l: Local, e: Event)
    requires Healthy(l) && Admissible(l.order, e) && !l.order.zone2.CnclReplaced? && !Booked(l.order.zone1)
    requires HandleZone1(l.order, l.copies > 0, e).Moved?
    ensures var r := HandleZone1(l.order, l.copies > 0, e).result;
            Healthy(Settled(l, r, true)) && r.order.zone2 == l.order.zone2
  {
    if l.order.zone1.RcvdNew? || l.order.zone1.PendReplace? {
      IncomingKeepsHealthy(l, e);
    } else {
      hide Admissible;
    }
  }

  lemma IncomingKeepsHealthy(l: Local, e: Event)
    requires Healthy(l) && Admissible(l.order, e) && !l.order.zone2.CnclReplaced?
    requires (l.order.zone1.RcvdNew? || l.order.zone1.PendReplace?) && HandleZone1(l.order, l.copies > 0, e).Moved?
    ensures var r := HandleZone1(l.order, l.copies > 0, e).result;
            Healthy(Settled(l, r, true)) && r.order.zone2 == l.order.zone2
  {}

  lemma Zone1KeepsHealthy(l: Local, e: Event)
    requires Healthy(l) && Admissible(l.order, e) && !l.order.zone2.CnclReplaced?
    requires HandleZone1(l.order, l.copies > 0, e).Moved?
    ensures var r := HandleZone1(l.order, l.copies > 0, e).result;
            Healthy(Settled(l, r, true)) && r.order.zone2 == l.order.zone2
  {
    hide Healthy, Admissible, HandleZone1;
    if Booked(l.order.zone1) {
      BookedKeepsHealthy(l, e);
    } else {
      UnbookedKeepsHealthy(l, e);
    }
  }

  /** A refused event changes nothing; the event sent in its place is then handled by the main zone alone. */
  lemma RefusalChangesNothing(l: Local, e: Event)
    requires Healthy(l) && Admissible(l.order, e) && !l.order.zone2.CnclReplaced?
    requires HandleZone1(l.order, l.copies > 0, e).Threw?
    ensures var a := HandleZone1(l.order, l.copies > 0, e);
            && a.result == Result(l.order, false, [], [])
            && (a.again.Some? ==>
                  && Admissible(l.order, a.again.value) && !HandleZone1(l.order, l.copies > 0, a.again.value).NoRow?)
  {
  }

  lemma ReceivedFirst(o: Order, e: Event)
    requires Admissible(o, e) && o.zone1.RcvdNew?
    ensures !Ends(o.zone2, e) && !Turns(o.zone2, e)
  {}

  lemma Zone2KeepsHealthy(l: Local, e: Event)
    requires Healthy(l) && Admissible(l.order, e) && !l.order.zone2.CnclReplaced?
    requires HandleZone1(l.order, l.copies > 0, e).NoRow?
    ensures var n := Settled(l, HandleZone2(Result(l.order, false, [], []), e), true);
            Healthy(n) && (n.order.zone2.CnclReplaced? ==> n.copies == 0)
  {
    hide HandleZone1, HandleZone2, Admissible, Ends, Turns;
    var o, r := l.order, Result(l.order, false, [], []);
    if o.zone1.RcvdNew? {
      ReceivedFirst(o, e);
    }
    Zone2Is(r, e);
    if Ends(o.zone2, e) {
      assert [] + (if Resting(o.status) then [RemoveFromBook] else []) + [Report] ==
             if Resting(o.status) then [RemoveFromBook, Report] else [Report];
    } else if Turns(o.zone2, e) {
      assert [] + [] + [Report] == [Report];
    }
  }

  lemma CancelledStays(l: Local, e: Event)
    requires l.order.zone2.CnclReplaced? && Healthy(l)
    ensures Healthy(LocalStep(l, e, true))
  {
    hide Handle;
    HandleKeeps(l.order, l.copies > 0, e);
  }

  /** An event of an order that is neither cancelled nor replaced is handled by one zone only. */
  lemma ActiveStep(l: Local, e: Event)
    requires Healthy(l) && Admissible(l.order, e) && !l.order.zone2.CnclReplaced?
    ensures Healthy(LocalStep(l, e, true))
    ensures LocalStep(l, e, true).order.zone2.CnclReplaced? ==> LocalStep(l, e, true).copies == 0
  {
    hide HandleZone1, HandleZone2, Healthy, Admissible;
    match HandleZone1(l.order, l.copies > 0, e)
    case NoRow =>
      Zone2KeepsHealthy(l, e);
    case Threw(_, again) =>
      RefusalChangesNothing(l, e);
      if again.Some? {
        RefusedStep(l, e, again.value);
      }
    case Moved(_) =>
      MovedAlone(l, e);
  }

  lemma RefusedStep(l: Local, e: Event, again: Event)
    requires Healthy(l) && Admissible(l.order, again) && !l.order.zone2.CnclReplaced?
    requires HandleZone1(l.order, l.copies > 0, e) == Threw(Result(l.order, false, [], []), Some(again))
    requires !HandleZone1(l.order, l.copies > 0, again).NoRow?
    ensures Healthy(LocalStep(l, e, true)) && LocalStep(l, e, true).order.zone2 == l.order.zone2
  {
    hide HandleZone1, HandleZone2, Healthy, Admissible;
    var a := HandleZone1(l.order, l.copies > 0, again);
    assert [] + a.result.ops == a.result.ops;
    if a.Threw? {
      RefusalChangesNothing(l, again);
    } else {
      MovedAlone(l, again);
    }
  }

  lemma MovedAlone(l: Local, e: Event)
    requires Healthy(l) && Admissible(l.order, e) && !l.order.zone2.CnclReplaced?
    requires HandleZone1(l.order, l.copies > 0, e).Moved?
    ensures var r := HandleZone1(l.order, l.copies > 0, e).result;
            Healthy(Settled(l, r, true)) && r.order.zone2 == l.order.zone2 && HandleZone2(r, e) == r
  {
    Zone1KeepsHealthy(l, e);
    hide Healthy, Admissible, Act;
    ZonesApart(l.order, e);
  }

  /** One event keeps the books straight, and the event that cancels or replaces the order takes it out. */
  lemma StepKeepsHealthy(l: Local, e: Event)
    requires Healthy(l) && Admissible(l.order, e)
    ensures Healthy(LocalStep(l, e, true))
    ensures var n := LocalStep(l, e, true);
            !l.order.zone2.CnclReplaced? && n.order.zone2.CnclReplaced? ==> n.copies == 0
  {
    if l.order.zone2.CnclReplaced? {
      CancelledStays(l, e);
    } else {
      ActiveStep(l, e);
    }
  }

  /** Without an entry to save the saver's answer does not matter. */
  lemma SaverOnlyForEntries(l: Local, e: Event)
    requires !l.order.market && !e.ExternalOrder? && !EntersOn(l.order, e)
    ensures LocalStep(l, e, false) == LocalStep(l, e, true)
  {
    hide Handle, EntersOn;
    HandleBookOps(l.order, l.copies > 0, e);
  }

  /** After an event of an order that is neither cancelled nor replaced, membership holds if and only if no entry
      of that event was refused by the saver. */
  lemma MembershipIffSaved(l: Local, e: Event, saves: bool)
    requires Healthy(l) && Admissible(l.order, e) && !l.order.zone2.CnclReplaced?
    ensures Healthy(LocalStep(l, e, saves)) <==> saves || !EntersOn(l.order, e)
  {
    StepKeepsHealthy(l, e);
    if !EntersOn(l.order, e) {
      SaverOnlyForEntries(l, e);
    } else {
      hide Handle, EntersOn, Admissible;
      HandleBookOps(l.order, l.copies > 0, e);
      EnteredOrder(l.order, l.copies > 0, e);
    }
  }

  lemma {:induction false} RunKeepsHealthy(l: Local, inputs: seq<Input>)
    requires Healthy(l) && AdmissibleRun(l, inputs)
    ensures Healthy(LocalRun(l, inputs))
    decreases |inputs|
  {
    hide Healthy, LocalStep, Admissible, EntersOn;
    if inputs != [] {
      var e, saves := inputs[0].event, inputs[0].saves;
      StepKeepsHealthy(l, e);
      if !saves {
        assert !l.order.market && !e.ExternalOrder? by { HealthyEvent(l, e); }
        SaverOnlyForEntries(l, e);
      }
      RunKeepsHealthy(LocalStep(l, e, saves), inputs[1..]);
    }
  }

  lemma HealthyEvent(l: Local, e: Event)
    requires Healthy(l) && Admissible(l.order, e)
    ensures !l.order.market && !e.ExternalOrder?
  {}

  /** In every admissible run without a refused entry, until the order is cancelled or replaced, it is in the book
      exactly once while it is New or PartFill and not at all otherwise, its status is that of its state, and it has
      something left to execute unless it is Filled. */
  lemma BookMembership(l: Local, inputs: seq<Input>)
    requires Start(l) && AdmissibleRun(l, inputs)
    ensures var n := LocalRun(l, inputs); var o := n.order;
            !o.zone2.CnclReplaced? ==>
              && (Booked(o.zone1) ==> n.copies == 1) && (!Booked(o.zone1) ==> n.copies == 0)
              && (!o.zone1.RcvdNew? ==> o.status == StatusOf(o.zone1))
              && (o.leaves == 0 <==> o.zone1.Filled?)
  {
    assert Healthy(l);
    RunKeepsHealthy(l, inputs);
  }

  // ---------------------------------------------------------------- orders out of the book

  /** The events that bring a cancelled or replaced order back into the book: a removal, which finds nothing and is
      undone into an entry, or an entry that the saver accepts. */
  predicate Returns(o: Order, e: Event, saves: bool) {
    LeavesOn(o, e) || (EntersOn(o, e) && saves)
  }

  lemma CopiesAfter(l: Local, e: Event, saves: bool)
    requires !l.order.market && !e.ExternalOrder? && l.copies <= 1
    ensures LocalStep(l, e, saves).copies ==
            if EntersOn(l.order, e) then if saves then l.copies + 1 else l.copies
            else if LeavesOn(l.order, e) then 1 - l.copies
            else if FillsUp(l.order, e) then 0
            else l.copies
  {
    hide Handle, EntersOn, LeavesOn, FillsUp;
    HandleBookOps(l.order, l.copies > 0, e);
    OpsExclude(l.order, e);
  }

  /** A cancelled or replaced order that is out of the book stays out if and only if the event is none of those. */
  lemma CancelledStaysOutIff(l: Local, e: Event, saves: bool)
    requires l.order.zone2.CnclReplaced? && !l.order.market && !e.ExternalOrder? && l.copies == 0
    ensures LocalStep(l, e, saves).copies == 0 <==> !Returns(l.order, e, saves)
    ensures LocalStep(l, e, saves).order.zone2.CnclReplaced?
  {
    hide Handle, EntersOn, LeavesOn, FillsUp;
    CopiesAfter(l, e, saves);
    OpsExclude(l.order, e);
    HandleKeeps(l.order, l.copies > 0, e);
  }

  /** Such an event is reachable: a correction gives a cancelled order a resting status again, and its expiry then
      asks for a removal. */
  lemma CancelledOrderReturns(l: Local, e: Event)
    requires Healthy(l) && l.order.zone1 == PartFill && l.order.zone2 == NoCnlReplace
    requires e.TradeCrctCncl? && 0 < e.leaves < l.order.qty
    ensures var n := LocalRun(l, [Input(InternalCancel, true), Input(e, true), Input(OrderExpired, true)]);
            n.order.zone2 == CnclReplaced && n.order.zone1 == Expired && n.copies == 1
  {
    var l1 := LocalStep(l, InternalCancel, true);
    var l2 := LocalStep(l1, e, true);
    CancelStep(l);
    CorrectStep(l1, e);
    ExpireStep(l2);
    hide LocalStep;
    var inputs := [Input(InternalCancel, true), Input(e, true), Input(OrderExpired, true)];
    assert inputs[1..] == [inputs[1], inputs[2]] && inputs[1..][1..] == [inputs[2]] && [inputs[2]][1..] == [];
    assert LocalRun(l2, [inputs[2]]) == LocalStep(l2, OrderExpired, true);
  }

  lemma CancelStep(l: Local)
    requires !l.order.market && l.order.zone1 == PartFill && l.order.zone2 == NoCnlReplace
    requires l.order.status == PartFillStatus && l.copies == 1
    ensures LocalStep(l, InternalCancel, true) ==
            Local(l.order.(zone2 := CnclReplaced, status := CanceledStatus), 0)
  {}

  lemma CorrectStep(l: Local, e: Event)
    requires !l.order.market && l.order.zone1 == PartFill && l.order.zone2 == CnclReplaced
    requires e.TradeCrctCncl? && e.leaves != l.order.qty && l.order.leaves > 0
    ensures LocalStep(l, e, true) == Local(Corrected(l.order, e).(status := PartFillStatus), l.copies)
  {}

  lemma ExpireStep(l: Local)
    requires !l.order.market && l.order.zone1 == PartFill && l.order.zone2 == CnclReplaced
    requires l.order.status == PartFillStatus && l.copies == 0
    ensures LocalStep(l, OrderExpired, true) == Local(l.order.(zone1 := Expired, status := ExpiredStatus), 1)
  {}

  // ---------------------------------------------------------------- entries that can be traded with

  /** What the market needs of an order with an entry, whether it is cancelled or not: that a trade is taken. */
  predicate RestsWell(o: Order) {
    !o.market && Booked(o.zone1) && o.leaves > 0
  }

  /** Out of the book, or in it once and tradable: nothing is said of what an order does while it is out. */
  predicate Consistent(l: Local) {
    l.copies == 0 || (l.copies == 1 && RestsWell(l.order))
  }

  /** A removal that finds nothing and is undone into an entry, which nobody matches. */
  predicate SlipsIn(l: Local, e: Event) {
    l.copies == 0 && LeavesOn(l.order, e)
  }

  /** The events that leave an untradable entry: for an order out of the book a removal, unless it stays New or PartFill
      with something left, and an entry with nothing left; for one in the book a correction to nothing left and an end
      without a removal. */
  predicate Spoils(l: Local, e: Event, saves: bool) {
    if l.copies == 0 then
      || (LeavesOn(l.order, e) && !(Zone2Event(e) && Booked(l.order.zone1) && l.order.leaves > 0))
      || (EntersOn(l.order, e) && saves && !e.TradeCrctCncl? && l.order.leaves == 0)
    else CorrectedAway(l.order, e) || Abandons(l.order, e)
  }

  lemma OutsiderConsistent(l: Local, e: Event, saves: bool)
    requires l.copies == 0 && !l.order.market && !e.ExternalOrder?
    ensures Consistent(LocalStep(l, e, saves)) <==> !Spoils(l, e, saves)
  {
    hide Handle, EntersOn, LeavesOn, FillsUp;
    CopiesAfter(l, e, saves);
    OpsExclude(l.order, e);
    if EntersOn(l.order, e) {
      EnteredOrder(l.order, l.copies > 0, e);
    } else if LeavesOn(l.order, e) {
      LeftOrder(l.order, l.copies > 0, e);
    }
  }

  lemma InsiderConsistent(l: Local, e: Event, saves: bool)
    requires l.copies == 1 && RestsWell(l.order) && !e.ExternalOrder?
    ensures Consistent(LocalStep(l, e, saves)) <==> !Spoils(l, e, saves)
  {
    hide Handle, LeavesOn;
    CopiesAfter(l, e, saves);
    assert !EntersOn(l.order, e);
    hide EntersOn;
    OpsExclude(l.order, e);
    if !LeavesOn(l.order, e) && !FillsUp(l.order, e) {
      hide FillsUp;
      StayingOrder(l.order, e);
    }
  }

  /** A cancelled order can trade again: it is suspended, cancelled while it is out of the book, and continued. */
  lemma CancelledOrderTrades(l: Local)
    requires Healthy(l) && l.order.zone1 == New && l.order.zone2 == NoCnlReplace
    ensures var n := LocalRun(l, [Input(OrderSuspended, true), Input(InternalCancel, true), Input(Continued, true)]);
            n.order.zone2 == CnclReplaced && n.copies == 1 && RestsWell(n.order)
  {
    var l1 := LocalStep(l, OrderSuspended, true);
    var l2 := LocalStep(l1, InternalCancel, true);
    assert l1 == Local(l.order.(zone1 := Suspended, status := SuspendedStatus), 0) by { SuspendStep(l); }
    assert l2 == Local(l1.order.(zone2 := CnclReplaced, status := CanceledStatus), 0) by { CancelOutside(l1); }
    ContinueStep(l2);
    hide LocalStep;
    var inputs := [Input(OrderSuspended, true), Input(InternalCancel, true), Input(Continued, true)];
    assert inputs[1..] == [inputs[1], inputs[2]] && inputs[1..][1..] == [inputs[2]] && [inputs[2]][1..] == [];
    assert LocalRun(l2, [inputs[2]]) == LocalStep(l2, Continued, true);
  }

  lemma SuspendStep(l: Local)
    requires Healthy(l) && l.order.zone1 == New && l.order.zone2 == NoCnlReplace
    ensures LocalStep(l, OrderSuspended, true) == Local(l.order.(zone1 := Suspended, status := SuspendedStatus), 0)
  {}

  lemma CancelOutside(l: Local)
    requires l.order.zone1 == Suspended && l.order.zone2 == NoCnlReplace && l.order.status == SuspendedStatus
    requires l.copies == 0
    ensures LocalStep(l, InternalCancel, true) == Local(l.order.(zone2 := CnclReplaced, status := CanceledStatus), 0)
  {}

  lemma ContinueStep(l: Local)
    requires l.order.zone1 == Suspended && l.order.zone2 == CnclReplaced && !l.order.market
    requires l.copies == 0 && l.order.leaves > 0
    ensures var n := LocalStep(l, Continued, true);
            n.order.zone2 == CnclReplaced && n.copies == 1 && RestsWell(n.order)
  {}

  /** The exact condition for an order to stay out of the book or tradable in it, whatever its history. */
  lemma ConsistentIff(l: Local, e: Event, saves: bool)
    requires Consistent(l) && !l.order.market && !e.ExternalOrder?
    ensures Consistent(LocalStep(l, e, saves)) <==> !Spoils(l, e, saves)
  {
    hide LocalStep, Spoils;
    if l.copies == 0 {
      OutsiderConsistent(l, e, saves);
    } else {
      InsiderConsistent(l, e, saves);
    }
  }

  /** What an event does to the entries then: only an order out of the book enters it, and only those that are matched
      and those that slip in. */
  lemma ConsistentEntries(l: Local, e: Event, saves: bool)
    requires Consistent(l) && !l.order.market && !e.ExternalOrder? && !Spoils(l, e, saves)
    ensures var n := LocalStep(l, e, saves);
            && (EntersOn(l.order, e) ==> l.copies == 0)
            && (EntersOn(l.order, e) && saves ==> n.copies == 1 && n.order.leaves > 0)
            && (SlipsIn(l, e) ==> n.copies == 1 && n.order.leaves > 0 && !EntersOn(l.order, e))
            && (!(EntersOn(l.order, e) && saves) && !SlipsIn(l, e) ==> n.copies <= l.copies)
            && (LeavesOn(l.order, e) && !SlipsIn(l, e) ==> l.copies == 1)
  {
    assert RestsWell(l.order) ==> !EntersOn(l.order, e);
    hide EntersOn, LeavesOn, FillsUp, LocalStep;
    CopiesAfter(l, e, saves);
    OpsExclude(l.order, e);
    ConsistentIff(l, e, saves);
  }

  // ---------------------------------------------------------------- final states

  predicate HasCorrection(inputs: seq<Input>) {
    exists i :: 0 <= i < |inputs| && inputs[i].event.TradeCrctCncl?
  }

  lemma {:induction false} FinalStatesOverRuns(l: Local, inputs: seq<Input>)
    requires l.order.zone1.Filled? ==> l.order.leaves == 0
    ensures var o, n := l.order, LocalRun(l, inputs).order;
            && (o.zone1.Rejected? ==> n.zone1.Rejected?)
            && (o.zone1.Expired? ==> n.zone1.Expired?)
            && (o.zone2.CnclReplaced? ==> n.zone2.CnclReplaced?)
            && (o.zone1.Filled? && !n.zone1.Filled? ==> HasCorrection(inputs))
            && (n.zone1.Filled? ==> n.leaves == 0)
    decreases |inputs|
  {
    hide Handle, Perform;
    if inputs != [] {
      HandleKeeps(l.order, l.copies > 0, inputs[0].event);
      FinalStatesOverRuns(LocalStep(l, inputs[0].event, inputs[0].saves), inputs[1..]);
      if HasCorrection(inputs[1..]) {
        var i :| 0 <= i < |inputs[1..]| && inputs[1..][i].event.TradeCrctCncl?;
        assert inputs[i + 1].event.TradeCrctCncl?;
      }
    }
  }
}
