/**
Transactions on the book: the operations of src/TrOperations.cpp and the execute-or-roll-back loop of
src/TransactionScope.cpp.  The rollback starts with the failed operation itself and gives up at the first undo
that throws.  What the savers and the matcher answer are parameters of the operations.
*/
module Rollback {
  import opened Common
  import opened BookModel
  import opened OrderBookClass

  /** A deferred event, of which only the identity matters here. */
  type EventId = nat

  datatype TrOp =
    | AddOp(quote: Quote, saves: bool)
    | RemoveOp(quote: Quote, resaves: bool)           // `resaves`: the saver accepts the order when it is put back
    | MatchOp(found: seq<EventId>, throws: bool)
    | ReportOp(throws: bool)

  datatype State = State(groups: Groups, events: seq<EventId>)

  datatype Attempt = Attempt(state: State, ok: bool)

  function Execute(s: State, op: TrOp): Attempt {
    match op
    case AddOp(q, saves) => Attempt(s.(groups := AddedTo(s.groups, q)), Known(s.groups, q) && saves)
    case RemoveOp(q, _) => Attempt(s.(groups := RemovedFrom(s.groups, q)), Holds(s.groups, q))
    case MatchOp(found, throws) => if throws then Attempt(s, false) else Attempt(s.(events := s.events + found), true)
    case ReportOp(throws) => Attempt(s, !throws)
  }

  /** `mark` is the number of deferred events when the operation was executed. */
  function Undo(s: State, op: TrOp, mark: nat): Attempt {
    match op
    case AddOp(q, _) => Attempt(s.(groups := RemovedFrom(s.groups, q)), Holds(s.groups, q))
    case RemoveOp(q, resaves) => Attempt(s.(groups := AddedTo(s.groups, q)), Known(s.groups, q) && resaves)
    case MatchOp(_, _) => Attempt(s.(events := if mark < |s.events| then s.events[..mark] else s.events), true)
    case ReportOp(_) => Attempt(s, true)
  }

  /** The state after the first `k` operations. */
  function After(s: State, ops: seq<TrOp>, k: nat): State
    requires k <= |ops|
  {
    if k == 0 then s else Execute(After(s, ops, k - 1), ops[k - 1]).state
  }

  predicate Succeed(s: State, ops: seq<TrOp>, k: nat)
    requires k <= |ops|
  {
    forall i :: 0 <= i < k ==> Execute(After(s, ops, i), ops[i]).ok
  }

  /** Undoing operations k-1 .. 0 in state `t`; stops at the first one whose undo throws. */
  function Undone(s: State, ops: seq<TrOp>, k: nat, t: State): State
    requires k <= |ops|
  {
    if k == 0 then t
    else
      var u := Undo(t, ops[k - 1], |After(s, ops, k - 1).events|);
      if u.ok then Undone(s, ops, k - 1, u.state) else u.state
  }

  // ---------------------------------------------------------------- the loop

  class Context {
    var state: State

    constructor (s: State)
      ensures state == s
    {
      state := s;
    }

    /** The operations up to the first that fails; `marks` are the numbers of deferred events before each of them. */
    method ExecuteForward(ops: seq<TrOp>) returns (ok: bool, pos: nat, marks: seq<nat>)
      modifies this
      ensures pos <= |ops| && Succeed(old(state), ops, pos) && (ok <==> pos == |ops|)
      ensures ok ==> state == After(old(state), ops, |ops|)
      ensures !ok ==> !Execute(After(old(state), ops, pos), ops[pos]).ok && state == After(old(state), ops, pos + 1)
      ensures |marks| == pos + if ok then 0 else 1
      ensures forall i :: 0 <= i < |marks| ==> marks[i] == |After(old(state), ops, i).events|
    {
      hide Execute;
      ghost var s := state;
      ok, pos, marks := true, 0, [];
      while pos < |ops|
        invariant pos <= |ops| && |marks| == pos && ok
        invariant Succeed(s, ops, pos) && state == After(s, ops, pos)
        invariant forall i :: 0 <= i < |marks| ==> marks[i] == |After(s, ops, i).events|
      {
        marks := marks + [|state.events|];
        var a := Execute(state, ops[pos]);
        state := a.state;
        if !a.ok {
          return false, pos, marks;
        }
        pos := pos + 1;
      }
    }

    /** From the last operation that was tried back to the first, or to one whose undo throws. */
    method RollBack(ops: seq<TrOp>, tried: nat, marks: seq<nat>, ghost s: State)
      requires tried <= |ops| && |marks| == tried
      requires forall i :: 0 <= i < tried ==> marks[i] == |After(s, ops, i).events|
      modifies this
      ensures state == Undone(s, ops, tried, old(state))
    {
      hide Execute, Undo;
      var left := tried;
      while left > 0
        invariant 0 <= left <= tried
        invariant Undone(s, ops, tried, old(state)) == Undone(s, ops, left, state)
      {
        var u := Undo(state, ops[left - 1], marks[left - 1]);
        state := u.state;
        if !u.ok {
          return;
        }
        left := left - 1;
      }
    }

    /** TransactionScope::executeTransaction.  `failed` is the failed operation, or the number of operations. */
    method ExecuteTransaction(ops: seq<TrOp>) returns (ok: bool, ghost failed: nat)
      modifies this
      ensures failed <= |ops| && Succeed(old(state), ops, failed)
      ensures ok <==> failed == |ops|
      ensures ok ==> state == After(old(state), ops, |ops|)
      ensures !ok ==>
                && !Execute(After(old(state), ops, failed), ops[failed]).ok
                && state == Undone(old(state), ops, failed + 1, After(old(state), ops, failed + 1))
    {
      hide Execute, Undone, After;
      ghost var s := state;
      var done, pos, marks := ExecuteForward(ops);
      ok, failed := done, pos;
      if !done {
        RollBack(ops, pos + 1, marks, s);
      }
    }
  }

  // ---------------------------------------------------------------- undoing one operation

  /** How often an entry is on a side. */
  function Count(g: Groups, i: InstrumentId, side: Side, e: Entry): nat {
    if i in g then multiset(g[i].On(side))[e] else 0
  }

  /** The same entries on every side, perhaps in another order. */
  ghost predicate SameContents(a: Groups, b: Groups) {
    a.Keys == b.Keys && forall i, side, e :: Count(a, i, side, e) == Count(b, i, side, e)
  }

  predicate Names(q: Quote, i: InstrumentId, side: Side, e: Entry) {
    q.instrument == i && q.side == Some(side) && e == Entry(q.price, q.id)
  }

  lemma CountWithList(g: Groups, q: Quote, list: seq<Entry>, i: InstrumentId, side: Side, e: Entry)
    requires Known(g, q)
    ensures Count(WithList(g, q, list), i, side, e) ==
            if i == q.instrument && side == q.side.value then multiset(list)[e] else Count(g, i, side, e)
    ensures Count(g, q.instrument, q.side.value, e) == multiset(ListOf(g, q))[e]
  {}

  lemma AddedCount(g: Groups, q: Quote, i: InstrumentId, side: Side, e: Entry)
    requires AllSorted(g)
    ensures Count(AddedTo(g, q), i, side, e) ==
            Count(g, i, side, e) + if Known(g, q) && Names(q, i, side, e) then 1 else 0
  {
    hide Inserted, SortedSide, Count, WithList;
    if Known(g, q) {
      var list := Inserted(q.side.value, ListOf(g, q), Entry(q.price, q.id));
      InsertedIs(q.side.value, ListOf(g, q), Entry(q.price, q.id));
      CountWithList(g, q, list, i, side, e);
    }
  }

  lemma HoldsIsCount(g: Groups, q: Quote)
    ensures Holds(g, q) <==> Known(g, q) && Count(g, q.instrument, q.side.value, Entry(q.price, q.id)) > 0
  {
    if Known(g, q) {
      assert Entry(q.price, q.id) in ListOf(g, q) <==> Entry(q.price, q.id) in multiset(ListOf(g, q));
    }
  }

  lemma RemovedCount(g: Groups, q: Quote, i: InstrumentId, side: Side, e: Entry)
    requires AllSorted(g)
    ensures Count(RemovedFrom(g, q), i, side, e) ==
            Count(g, i, side, e) - if Holds(g, q) && Names(q, i, side, e) then 1 else 0
  {
    hide Without, SortedSide, Holds, Count, WithList;
    HoldsIsCount(g, q);
    if Known(g, q) {
      var list := Without(ListOf(g, q), Entry(q.price, q.id));
      WithoutIs(q.side.value, ListOf(g, q), Entry(q.price, q.id));
      CountWithList(g, q, list, i, side, e);
    }
  }

  /** `t` has the contents that executing the operation in `s` left; undoing it then succeeds and gives the
      contents of `s`. */
  lemma UndoAdd(s: State, t: State, q: Quote)
    requires AllSorted(s.groups) && AllSorted(t.groups) && Known(s.groups, q)
    requires SameContents(t.groups, AddedTo(s.groups, q))
    ensures Holds(t.groups, q) && AllSorted(RemovedFrom(t.groups, q))
    ensures SameContents(RemovedFrom(t.groups, q), s.groups)
  {
    hide AddedTo, RemovedFrom, AllSorted, Count, Holds;
    AddedToIs(s.groups, q);
    RemovedFromIs(t.groups, q);
    HoldsIsCount(t.groups, q);
    AddedCount(s.groups, q, q.instrument, q.side.value, Entry(q.price, q.id));
    forall i, side, e
      ensures Count(RemovedFrom(t.groups, q), i, side, e) == Count(s.groups, i, side, e)
    {
      RemovedCount(t.groups, q, i, side, e);
      AddedCount(s.groups, q, i, side, e);
    }
  }

  lemma UndoRemove(s: State, t: State, q: Quote)
    requires AllSorted(s.groups) && AllSorted(t.groups) && Holds(s.groups, q)
    requires SameContents(t.groups, RemovedFrom(s.groups, q))
    ensures Known(t.groups, q) && AllSorted(AddedTo(t.groups, q)) && SameContents(AddedTo(t.groups, q), s.groups)
  {
    RemovedFromIs(s.groups, q);
    hide AddedTo, RemovedFrom, AllSorted, Count;
    AddedToIs(t.groups, q);
    forall i, side, e
      ensures Count(AddedTo(t.groups, q), i, side, e) == Count(s.groups, i, side, e)
    {
      RemovedCount(s.groups, q, i, side, e);
      AddedCount(t.groups, q, i, side, e);
    }
  }

  /** Operations whose undoing does not throw: a removed order must be accepted by the saver again.  The savers of
      src/FileStorage.cpp and src/LMDBStorage.cpp refuse an order they have saved before. */
  predicate Reversible(op: TrOp) {
    op.RemoveOp? ==> op.resaves
  }

  /** What a failed operation needs so that its own undo takes back what it did before it failed. */
  predicate FailsClean(s: State, op: TrOp) {
    match op
    case AddOp(q, _) => Known(s.groups, q)
    case RemoveOp(_, _) => false
    case MatchOp(_, _) => true
    case ReportOp(_) => true
  }

  lemma ExecuteSorted(s: State, op: TrOp)
    requires AllSorted(s.groups)
    ensures AllSorted(Execute(s, op).state.groups)
  {
    if op.AddOp? {
      AddedToIs(s.groups, op.quote);
    } else if op.RemoveOp? {
      RemovedFromIs(s.groups, op.quote);
    }
  }

  lemma {:induction false} AfterSorted(s: State, ops: seq<TrOp>, k: nat)
    requires AllSorted(s.groups) && k <= |ops|
    ensures AllSorted(After(s, ops, k).groups)
  {
    if k > 0 {
      AfterSorted(s, ops, k - 1);
      ExecuteSorted(After(s, ops, k - 1), ops[k - 1]);
    }
  }

  ghost predicate Alike(t: State, s: State) {
    AllSorted(t.groups) && SameContents(t.groups, s.groups) && t.events == s.events
  }

  lemma UndoOne(s: State, t: State, op: TrOp)
    requires AllSorted(s.groups) && Alike(t, Execute(s, op).state) && (Execute(s, op).ok || FailsClean(s, op))
    ensures var u := Undo(t, op, |s.events|); Alike(u.state, s) && (u.ok <==> Reversible(op))
  {
    hide SameContents, AllSorted, Holds, Known, AddedTo, RemovedFrom;
    match op
    case AddOp(q, _) =>
      assert Known(s.groups, q);
      UndoAdd(s, t, q);
    case RemoveOp(q, _) =>
      UndoRemove(s, t, q);
    case MatchOp(found, _) =>
      assert (s.events + found)[..|s.events|] == s.events;
    case ReportOp(_) =>
  }

  // ---------------------------------------------------------------- an extra entry

  /** The state with an extra entry, if there is one. */
  function Plus(s: State, x: Option<Quote>): State {
    if x.None? then s else s.(groups := AddedTo(s.groups, x.value))
  }

  /** An extra entry does not disturb the undoing of an add. */
  lemma AddCommutes(g: Groups, q: Quote, p: Quote)
    requires AllSorted(g)
    ensures SameContents(AddedTo(AddedTo(g, p), q), AddedTo(AddedTo(g, q), p))
  {
    hide AddedTo, AllSorted, Count;
    AddedToIs(g, p);
    AddedToIs(g, q);
    AddedToIs(AddedTo(g, p), q);
    AddedToIs(AddedTo(g, q), p);
    forall i, side, e
      ensures Count(AddedTo(AddedTo(g, p), q), i, side, e) == Count(AddedTo(AddedTo(g, q), p), i, side, e)
    {
      AddedCount(g, p, i, side, e);
      AddedCount(g, q, i, side, e);
      AddedCount(AddedTo(g, p), q, i, side, e);
      AddedCount(AddedTo(g, q), p, i, side, e);
    }
  }

  /** Nor that of a removal. */
  lemma RemoveCommutes(g: Groups, q: Quote, p: Quote)
    requires AllSorted(g) && Holds(g, p)
    ensures Holds(AddedTo(g, q), p) && SameContents(AddedTo(RemovedFrom(g, p), q), RemovedFrom(AddedTo(g, q), p))
  {
    HoldsIsCount(g, p);
    hide AddedTo, RemovedFrom, AllSorted, Count, Holds;
    AddedToIs(g, q);
    RemovedFromIs(g, p);
    AddedToIs(RemovedFrom(g, p), q);
    RemovedFromIs(AddedTo(g, q), p);
    AddedCount(g, q, p.instrument, p.side.value, Entry(p.price, p.id));
    HoldsIsCount(AddedTo(g, q), p);
    forall i, side, e
      ensures Count(AddedTo(RemovedFrom(g, p), q), i, side, e) == Count(RemovedFrom(AddedTo(g, q), p), i, side, e)
    {
      RemovedCount(g, p, i, side, e);
      AddedCount(g, q, i, side, e);
      AddedCount(RemovedFrom(g, p), q, i, side, e);
      RemovedCount(AddedTo(g, q), p, i, side, e);
    }
  }

  lemma SelfAlike(t: State)
    requires AllSorted(t.groups)
    ensures Alike(t, t)
  {}

  lemma ExecuteCommutes(s: State, x: Option<Quote>, op: TrOp)
    requires AllSorted(s.groups) && Execute(s, op).ok
    ensures Execute(Plus(s, x), op).ok
    ensures SameContents(Plus(Execute(s, op).state, x).groups, Execute(Plus(s, x), op).state.groups)
    ensures Plus(Execute(s, op).state, x).events == Execute(Plus(s, x), op).state.events
  {
    if x.Some? {
      AddedToIs(s.groups, x.value);
      if op.AddOp? {
        AddCommutes(s.groups, x.value, op.quote);
      } else if op.RemoveOp? {
        RemoveCommutes(s.groups, x.value, op.quote);
      }
    }
    hide AddedTo, RemovedFrom;
  }

  lemma SameContentsTrans(a: Groups, b: Groups, c: Groups)
    requires SameContents(a, b) && SameContents(b, c)
    ensures SameContents(a, c)
  {}

  lemma PlusSorted(s: State, x: Option<Quote>)
    requires AllSorted(s.groups)
    ensures AllSorted(Plus(s, x).groups) && Plus(s, x).events == s.events
  {
    if x.Some? {
      AddedToIs(s.groups, x.value);
    }
  }

  lemma UndoOnePlus(s: State, x: Option<Quote>, t: State, op: TrOp)
    requires AllSorted(s.groups) && Execute(s, op).ok && Alike(t, Plus(Execute(s, op).state, x))
    ensures var u := Undo(t, op, |s.events|); Alike(u.state, Plus(s, x)) && (u.ok <==> Reversible(op))
  {
    hide Execute, Undo, SameContents, AllSorted, AddedTo, Reversible, Plus;
    ExecuteCommutes(s, x, op);
    SameContentsTrans(t.groups, Plus(Execute(s, op).state, x).groups, Execute(Plus(s, x), op).state.groups);
    PlusSorted(s, x);
    UndoOne(Plus(s, x), t, op);
  }

  // ---------------------------------------------------------------- undoing a transaction

  /** The last of the first `k` operations that is a removal whose undoing throws, or 0: the rollback undoes it and
      goes no further. */
  function Standing(ops: seq<TrOp>, k: nat): (j: nat)
    requires k <= |ops|
    ensures j <= k
    ensures j < k ==> (forall i :: j < i < k ==> Reversible(ops[i])) && (j > 0 ==> !Reversible(ops[j]))
  {
    if k == 0 then 0 else if !Reversible(ops[k - 1]) then k - 1 else Standing(ops, k - 1)
  }

  lemma {:induction false} UndoneStands(s: State, ops: seq<TrOp>, k: nat, x: Option<Quote>, t: State)
    requires AllSorted(s.groups) && k <= |ops| && Succeed(s, ops, k) && Alike(t, Plus(After(s, ops, k), x))
    ensures Alike(Undone(s, ops, k, t), Plus(After(s, ops, Standing(ops, k)), x))
  {
    hide Execute, Undo, Alike, Plus, Reversible;
    if k > 0 {
      AfterSorted(s, ops, k - 1);
      UndoOnePlus(After(s, ops, k - 1), x, t, ops[k - 1]);
      if Reversible(ops[k - 1]) {
        UndoneStands(s, ops, k - 1, x, Undo(t, ops[k - 1], |After(s, ops, k - 1).events|).state);
      }
    }
  }

  /** The failure of operation `k`. */
  predicate FailsAt(s: State, ops: seq<TrOp>, k: nat) {
    k < |ops| && Succeed(s, ops, k) && !Execute(After(s, ops, k), ops[k]).ok
  }

  function RolledBack(s: State, ops: seq<TrOp>, k: nat): State
    requires k < |ops|
  {
    Undone(s, ops, k + 1, After(s, ops, k + 1))
  }

  lemma UndoneStep(s: State, ops: seq<TrOp>, k: nat, t: State)
    requires 0 < k <= |ops|
    ensures var u := Undo(t, ops[k - 1], |After(s, ops, k - 1).events|);
            Undone(s, ops, k, t) == if u.ok then Undone(s, ops, k - 1, u.state) else u.state
  {}

  lemma {:induction false} AfterKnows(s: State, ops: seq<TrOp>, k: nat)
    requires AllSorted(s.groups) && k <= |ops|
    ensures After(s, ops, k).groups.Keys == s.groups.Keys
  {
    if k > 0 {
      AfterKnows(s, ops, k - 1);
      AfterSorted(s, ops, k - 1);
    }
  }

  /** The book has no place for the order of the operation: neither it nor its undo does anything. */
  predicate Homeless(s: State, op: TrOp) {
    (op.AddOp? || op.RemoveOp?) && !Known(s.groups, op.quote)
  }

  /** How many operations stay done when operation `k` fails: all before it if it cannot be undone itself, else
      those before the last removal that cannot be undone. */
  function Kept(s: State, ops: seq<TrOp>, k: nat): (j: nat)
    requires k < |ops|
    ensures j <= k
  {
    if Homeless(s, ops[k]) || !Reversible(ops[k]) then k else Standing(ops, k)
  }

  /** The order that the rollback of a removal that found nothing puts into the book. */
  function Surplus(s: State, ops: seq<TrOp>, k: nat): Option<Quote>
    requires k < |ops|
  {
    if ops[k].RemoveOp? && !Homeless(s, ops[k]) then Some(ops[k].quote) else None
  }

  lemma CleanFailure(s: State, ops: seq<TrOp>, k: nat)
    requires AllSorted(s.groups) && FailsAt(s, ops, k) && FailsClean(After(s, ops, k), ops[k])
    ensures Alike(RolledBack(s, ops, k), After(s, ops, Standing(ops, k)))
  {
    assert !ops[k].RemoveOp?;
    hide Execute, Undo, Alike, FailsClean, Undone;
    AfterSorted(s, ops, k);
    AfterSorted(s, ops, k + 1);
    SelfAlike(After(s, ops, k + 1));
    UndoOne(After(s, ops, k), After(s, ops, k + 1), ops[k]);
    UndoneStep(s, ops, k + 1, After(s, ops, k + 1));
    UndoneStands(s, ops, k, None, Undo(After(s, ops, k + 1), ops[k], |After(s, ops, k).events|).state);
  }

  lemma HomelessFailure(s: State, ops: seq<TrOp>, k: nat)
    requires FailsAt(s, ops, k) && Homeless(After(s, ops, k), ops[k])
    ensures RolledBack(s, ops, k) == After(s, ops, k)
  {
    UndoneStep(s, ops, k + 1, After(s, ops, k + 1));
    hide Undone;
  }

  lemma NothingRemoved(g: Groups, q: Quote)
    requires Known(g, q) && !Holds(g, q)
    ensures RemovedFrom(g, q) == g
  {}

  lemma FailedRemoval(s: State, ops: seq<TrOp>, k: nat)
    requires AllSorted(s.groups) && FailsAt(s, ops, k)
    requires ops[k].RemoveOp? && Known(After(s, ops, k).groups, ops[k].quote)
    ensures var j := if ops[k].resaves then Standing(ops, k) else k;
            Alike(RolledBack(s, ops, k), Plus(After(s, ops, j), Some(ops[k].quote)))
  {
    AfterSorted(s, ops, k);
    var a, q := After(s, ops, k), ops[k].quote;
    assert After(s, ops, k + 1) == a by { NothingRemoved(a.groups, q); }
    AddedToIs(a.groups, q);
    SelfAlike(Plus(a, Some(q)));
    UndoneStep(s, ops, k + 1, a);
    hide Undone, Alike, AddedTo;
    if ops[k].resaves {
      hide Plus;
      UndoneStands(s, ops, k, Some(q), Plus(a, Some(q)));
    }
  }

  /** Every failure: what the rollback leaves behind, up to the order within a price level, and the deferred
      events exactly. */
  lemma RollbackLeaves(s: State, ops: seq<TrOp>, k: nat)
    requires AllSorted(s.groups) && FailsAt(s, ops, k)
    ensures Alike(RolledBack(s, ops, k), Plus(After(s, ops, Kept(s, ops, k)), Surplus(s, ops, k)))
  {
    AfterKnows(s, ops, k);
    AfterSorted(s, ops, k);
    var a := After(s, ops, k);
    assert Homeless(a, ops[k]) <==> Homeless(s, ops[k]);
    hide RolledBack, Alike, After, Standing;
    if Homeless(a, ops[k]) {
      HomelessFailure(s, ops, k);
      SelfAlike(a);
    } else if ops[k].RemoveOp? {
      FailedRemoval(s, ops, k);
    } else {
      CleanFailure(s, ops, k);
    }
  }

  // ---------------------------------------------------------------- when a rollback restores

  /** What an operation that succeeds does to an entry's count. */
  function Change(op: TrOp, i: InstrumentId, side: Side, e: Entry): int {
    match op
    case AddOp(q, _) => if Names(q, i, side, e) then 1 else 0
    case RemoveOp(q, _) => if Names(q, i, side, e) then -1 else 0
    case _ => 0
  }

  function Net(ops: seq<TrOp>, k: nat, i: InstrumentId, side: Side, e: Entry): int
    requires k <= |ops|
  {
    if k == 0 then 0 else Net(ops, k - 1, i, side, e) + Change(ops[k - 1], i, side, e)
  }

  function Found(ops: seq<TrOp>, k: nat): seq<EventId>
    requires k <= |ops|
  {
    if k == 0 then [] else Found(ops, k - 1) + if ops[k - 1].MatchOp? then ops[k - 1].found else []
  }

  lemma ExecuteCount(s: State, op: TrOp, i: InstrumentId, side: Side, e: Entry)
    requires AllSorted(s.groups) && Execute(s, op).ok
    ensures Count(Execute(s, op).state.groups, i, side, e) == Count(s.groups, i, side, e) + Change(op, i, side, e)
  {
    hide AddedTo, RemovedFrom, AllSorted, Count;
    if op.AddOp? {
      AddedCount(s.groups, op.quote, i, side, e);
    } else if op.RemoveOp? {
      RemovedCount(s.groups, op.quote, i, side, e);
    }
  }

  lemma {:induction false} AfterCount(s: State, ops: seq<TrOp>, k: nat, i: InstrumentId, side: Side, e: Entry)
    requires AllSorted(s.groups) && k <= |ops| && Succeed(s, ops, k)
    ensures Count(After(s, ops, k).groups, i, side, e) == Count(s.groups, i, side, e) + Net(ops, k, i, side, e)
  {
    hide Execute, Count, Change, AllSorted;
    if k > 0 {
      AfterSorted(s, ops, k - 1);
      AfterCount(s, ops, k - 1, i, side, e);
      ExecuteCount(After(s, ops, k - 1), ops[k - 1], i, side, e);
    }
  }

  lemma ExecuteEvents(s: State, op: TrOp)
    requires Execute(s, op).ok
    ensures Execute(s, op).state.events == s.events + if op.MatchOp? then op.found else []
  {
    hide AddedTo, RemovedFrom;
  }

  lemma {:induction false} AfterEvents(s: State, ops: seq<TrOp>, k: nat)
    requires k <= |ops| && Succeed(s, ops, k)
    ensures After(s, ops, k).events == s.events + Found(ops, k)
  {
    if k > 0 {
      hide Execute;
      AfterEvents(s, ops, k - 1);
      ExecuteEvents(After(s, ops, k - 1), ops[k - 1]);
      var more := if ops[k - 1].MatchOp? then ops[k - 1].found else [];
      ConcatAssoc(s.events, Found(ops, k - 1), more);
    }
  }

  /** What stays done has no effect: as many adds as removals of every entry, and no event. */
  ghost predicate NoEffect(ops: seq<TrOp>, k: nat, x: Option<Quote>)
    requires k <= |ops|
  {
    && Found(ops, k) == []
    && forall i, side, e :: Net(ops, k, i, side, e) == if x.Some? && Names(x.value, i, side, e) then -1 else 0
  }

  lemma PlusCount(s: State, x: Option<Quote>, i: InstrumentId, side: Side, e: Entry)
    requires AllSorted(s.groups) && (x.Some? ==> Known(s.groups, x.value))
    ensures Count(Plus(s, x).groups, i, side, e) ==
            Count(s.groups, i, side, e) + if x.Some? && Names(x.value, i, side, e) then 1 else 0
    ensures Plus(s, x).groups.Keys == s.groups.Keys
  {
    if x.Some? {
      AddedCount(s.groups, x.value, i, side, e);
      AddedToIs(s.groups, x.value);
    }
  }

  lemma LeftCount(s: State, ops: seq<TrOp>, j: nat, x: Option<Quote>, i: InstrumentId, side: Side, e: Entry)
    requires AllSorted(s.groups) && j <= |ops| && Succeed(s, ops, j) && (x.Some? ==> Known(s.groups, x.value))
    ensures Count(Plus(After(s, ops, j), x).groups, i, side, e) ==
            Count(s.groups, i, side, e) + Net(ops, j, i, side, e) +
            if x.Some? && Names(x.value, i, side, e) then 1 else 0
    ensures Plus(After(s, ops, j), x).groups.Keys == s.groups.Keys
    ensures Plus(After(s, ops, j), x).events == s.events + Found(ops, j)
  {
    hide Count, AllSorted, Net, Found, After, Names;
    AfterSorted(s, ops, j);
    AfterKnows(s, ops, j);
    AfterCount(s, ops, j, i, side, e);
    AfterEvents(s, ops, j);
    PlusCount(After(s, ops, j), x, i, side, e);
    PlusSorted(After(s, ops, j), x);
  }

  lemma NoMoreEvents(events: seq<EventId>, found: seq<EventId>)
    ensures events + found == events <==> found == []
  {
    assert |events + found| == |events| + |found|;
  }

  lemma LeftIsStart(s: State, ops: seq<TrOp>, j: nat, x: Option<Quote>)
    requires AllSorted(s.groups) && j <= |ops| && Succeed(s, ops, j) && (x.Some? ==> Known(s.groups, x.value))
    ensures var left := Plus(After(s, ops, j), x);
            SameContents(left.groups, s.groups) && left.events == s.events <==> NoEffect(ops, j, x)
  {
    hide Count, AllSorted, Net, Found, After, Names, Succeed, Plus, Known;
    var left := Plus(After(s, ops, j), x);
    LeftCount(s, ops, j, x, 0, Buy, Entry(0.0, 0));
    NoMoreEvents(s.events, Found(ops, j));
    forall i, side, e
      ensures Count(left.groups, i, side, e) == Count(s.groups, i, side, e) <==>
              Net(ops, j, i, side, e) == if x.Some? && Names(x.value, i, side, e) then -1 else 0
    {
      LeftCount(s, ops, j, x, i, side, e);
    }
  }

  /** Over all failures: the rollback restores the contents of the book and the deferred events if and only if what
      it leaves done has no effect. */
  lemma RestoresIff(s: State, ops: seq<TrOp>, k: nat)
    requires AllSorted(s.groups) && FailsAt(s, ops, k)
    ensures Alike(RolledBack(s, ops, k), s) <==> NoEffect(ops, Kept(s, ops, k), Surplus(s, ops, k))
  {
    var j, x := Kept(s, ops, k), Surplus(s, ops, k);
    hide RolledBack, NoEffect, AllSorted, Kept, After, Execute, Plus;
    RollbackLeaves(s, ops, k);
    LeftIsStart(s, ops, j, x);
    AlikeEither(RolledBack(s, ops, k), Plus(After(s, ops, j), x), s);
  }

  lemma AlikeEither(t: State, a: State, s: State)
    requires Alike(t, a)
    ensures Alike(t, s) <==> SameContents(a.groups, s.groups) && a.events == s.events
  {
    hide AllSorted, Count;
  }

  /** In particular, with savers that take every order back, exactly the removals that find nothing spoil it. */
  lemma RestoresIffClean(s: State, ops: seq<TrOp>, k: nat)
    requires AllSorted(s.groups) && FailsAt(s, ops, k) && !Homeless(s, ops[k])
    requires forall i :: 0 <= i <= k ==> Reversible(ops[i])
    ensures Alike(RolledBack(s, ops, k), s) <==> !ops[k].RemoveOp?
  {
    hide RolledBack, AllSorted, Execute, Alike;
    RestoresIff(s, ops, k);
    assert Kept(s, ops, k) == 0;
    if ops[k].RemoveOp? {
      var q := ops[k].quote;
      assert Names(q, q.instrument, q.side.value, Entry(q.price, q.id));
      assert Net(ops, 0, q.instrument, q.side.value, Entry(q.price, q.id)) == 0;
    }
  }

  // ---------------------------------------------------------------- exact restoration

  /** Where undoing an operation also restores the time order. */
  predicate Harmless(s: State, op: TrOp) {
    match op
    case AddOp(q, _) => Holds(s.groups, q) ==> LastOfLevel(ListOf(s.groups, q), Entry(q.price, q.id))
    case RemoveOp(q, resaves) => resaves && Holds(s.groups, q) && LastOfLevel(ListOf(s.groups, q), Entry(q.price, q.id))
    case MatchOp(_, _) => true
    case ReportOp(_) => true
  }

  lemma SameList(g: Groups, q: Quote, mid: seq<Entry>, list: seq<Entry>)
    requires Known(g, q)
    ensures Known(WithList(g, q, mid), q) && ListOf(WithList(g, q, mid), q) == mid
    ensures WithList(WithList(g, q, mid), q, list) == g <==> list == ListOf(g, q)
  {
    var h := WithList(WithList(g, q, mid), q, list);
    assert h.Keys == g.Keys && ListOf(h, q) == list;
  }

  lemma UndoAddExactly(g: Groups, q: Quote)
    requires AllSorted(g) && Known(g, q)
    ensures Holds(AddedTo(g, q), q)
    ensures RemovedFrom(AddedTo(g, q), q) == g <==>
            (Holds(g, q) ==> LastOfLevel(ListOf(g, q), Entry(q.price, q.id)))
  {
    var list, e, side := ListOf(g, q), Entry(q.price, q.id), q.side.value;
    InsertThenRemove(side, list, e);
    InsertedIs(side, list, e);
    hide Inserted, Without, SortedSide, LastOfLevel, WithList, ListOf;
    assert e in multiset(Inserted(side, list, e));
    SameList(g, q, Inserted(side, list, e), Without(Inserted(side, list, e), e));
  }

  lemma UndoRemoveExactly(g: Groups, q: Quote)
    requires AllSorted(g) && Holds(g, q)
    ensures Known(RemovedFrom(g, q), q)
    ensures AddedTo(RemovedFrom(g, q), q) == g <==> LastOfLevel(ListOf(g, q), Entry(q.price, q.id))
  {
    var list, e, side := ListOf(g, q), Entry(q.price, q.id), q.side.value;
    RemoveThenInsert(side, list, e);
    hide Inserted, Without, SortedSide, LastOfLevel, WithList, ListOf;
    SameList(g, q, Without(list, e), Inserted(side, Without(list, e), e));
  }

  /** Undoing an operation restores the state exactly, time order included, if and only if it was harmless. */
  lemma UndoOneExactly(s: State, op: TrOp)
    requires AllSorted(s.groups) && (Execute(s, op).ok || FailsClean(s, op))
    ensures Undo(Execute(s, op).state, op, |s.events|) == Attempt(s, true) <==> Harmless(s, op)
  {
    hide AllSorted, AddedTo, RemovedFrom, LastOfLevel;
    match op
    case AddOp(q, _) =>
      UndoAddExactly(s.groups, q);
    case RemoveOp(q, _) =>
      UndoRemoveExactly(s.groups, q);
    case MatchOp(found, _) =>
      assert (s.events + found)[..|s.events|] == s.events;
    case ReportOp(_) =>
  }

  lemma {:induction false} UndoneExactly(s: State, ops: seq<TrOp>, k: nat)
    requires AllSorted(s.groups) && k <= |ops|
    requires forall i :: 0 <= i < k ==> Harmless(After(s, ops, i), ops[i])
    requires forall i :: 0 <= i < k ==> Execute(After(s, ops, i), ops[i]).ok || FailsClean(After(s, ops, i), ops[i])
    ensures Undone(s, ops, k, After(s, ops, k)) == s
  {
    hide Execute, Undo, FailsClean, AllSorted, Harmless;
    if k > 0 {
      AfterSorted(s, ops, k - 1);
      UndoOneExactly(After(s, ops, k - 1), ops[k - 1]);
      UndoneExactly(s, ops, k - 1);
    }
  }

  /** A clean failure after harmless operations restores the book exactly; an undone removal otherwise puts the order
      back at the tail of its price level. */
  lemma CleanFailureRestoresExactly(s: State, ops: seq<TrOp>, k: nat)
    requires AllSorted(s.groups) && FailsAt(s, ops, k) && FailsClean(After(s, ops, k), ops[k])
    requires forall i :: 0 <= i <= k ==> Harmless(After(s, ops, i), ops[i])
    ensures RolledBack(s, ops, k) == s
  {
    hide Execute, Undo, Undone, AllSorted, FailsClean, After, Harmless;
    UndoneExactly(s, ops, k + 1);
  }
}
