/**
When a transaction on the book goes through (src/TrOperations.cpp, src/TransactionScope.cpp), told from its operations
and the book before it, and what it has done then.
*/
module Commit {
  import opened Common
  import opened BookModel
  import opened OrderBookClass
  import opened Rollback

  /** What a successful operation does to the number of an entry. */
  function Change(op: TrOp, i: InstrumentId, side: Side, e: Entry): int {
    match op
    case AddOp(q, _) => if Names(q, i, side, e) then 1 else 0
    case RemoveOp(q, _) => if Names(q, i, side, e) then -1 else 0
    case _ => 0
  }

  /** How often the operations put an entry on a side, less how often they take it off. */
  function Net(ops: seq<TrOp>, i: InstrumentId, side: Side, e: Entry): int {
    if ops == [] then 0
    else
      Net(ops[..|ops| - 1], i, side, e) + Change(ops[|ops| - 1], i, side, e)
  }

  /** The deferred events that the operations append. */
  function Appended(ops: seq<TrOp>): seq<EventId> {
    if ops == [] then []
    else
      var op := ops[|ops| - 1];
      Appended(ops[..|ops| - 1]) + if op.MatchOp? then op.found else []
  }

  /** The operation can be done after the ones before it: an instrument of the book and a side, a saver that accepts the
      order, an entry that is there or has been put there, and no exception. */
  predicate Feasible(s: State, ops: seq<TrOp>, k: nat)
    requires k < |ops|
  {
    match ops[k]
    case AddOp(q, saves) => Known(s.groups, q) && saves
    case RemoveOp(q, _) =>
      var e := Entry(q.price, q.id);
      Known(s.groups, q) &&
      Count(s.groups, q.instrument, q.side.value, e) + Net(ops[..k], q.instrument, q.side.value, e) > 0
    case MatchOp(_, throws) => !throws
    case ReportOp(throws) => !throws
  }

  /** What operations have done that all succeeded. */
  ghost predicate DoneIn(s: State, ops: seq<TrOp>, t: State) {
    && AllSorted(t.groups) && t.groups.Keys == s.groups.Keys && t.events == s.events + Appended(ops)
    && forall i, side, e :: Count(t.groups, i, side, e) == Count(s.groups, i, side, e) + Net(ops, i, side, e)
  }

  lemma KnownByKeys(a: Groups, b: Groups, q: Quote)
    requires a.Keys == b.Keys
    ensures Known(a, q) <==> Known(b, q)
  {}

  lemma NetSnoc(ops: seq<TrOp>, k: nat, i: InstrumentId, side: Side, e: Entry)
    requires k < |ops|
    ensures Net(ops[..k + 1], i, side, e) == Net(ops[..k], i, side, e) + Change(ops[k], i, side, e)
  {
    assert ops[..k + 1][..k] == ops[..k];
  }

  lemma AppendedSnoc(ops: seq<TrOp>, k: nat)
    requires k < |ops|
    ensures Appended(ops[..k + 1]) == Appended(ops[..k]) + if ops[k].MatchOp? then ops[k].found else []
  {
    assert ops[..k + 1][..k] == ops[..k];
  }

  /** Whether the next operation succeeds. */
  lemma NextIsFeasible(s: State, ops: seq<TrOp>, k: nat, t: State)
    requires k < |ops| && DoneIn(s, ops[..k], t)
    ensures Execute(t, ops[k]).ok <==> Feasible(s, ops, k)
  {
    hide AddedTo, RemovedFrom, AllSorted, Count, Holds, Net, Appended;
    match ops[k]
    case AddOp(q, _) => KnownByKeys(t.groups, s.groups, q);
    case RemoveOp(q, _) =>
      KnownByKeys(t.groups, s.groups, q);
      HoldsIsCount(t.groups, q);
      if Known(t.groups, q) {
        var side, e := q.side.value, Entry(q.price, q.id);
        assert Count(t.groups, q.instrument, side, e) ==
               Count(s.groups, q.instrument, side, e) + Net(ops[..k], q.instrument, side, e);
      }
    case MatchOp(_, _) =>
    case ReportOp(_) =>
  }

  lemma CountAfter(s: State, op: TrOp, i: InstrumentId, side: Side, e: Entry)
    requires AllSorted(s.groups) && Execute(s, op).ok
    ensures Count(Execute(s, op).state.groups, i, side, e) == Count(s.groups, i, side, e) + Change(op, i, side, e)
  {
    hide AddedTo, RemovedFrom, AllSorted, Count, Holds;
    match op
    case AddOp(q, _) => AddedCount(s.groups, q, i, side, e);
    case RemoveOp(q, _) => RemovedCount(s.groups, q, i, side, e);
    case MatchOp(_, _) =>
    case ReportOp(_) =>
  }

  lemma NextIsDone(s: State, ops: seq<TrOp>, k: nat, t: State)
    requires k < |ops| && DoneIn(s, ops[..k], t) && Execute(t, ops[k]).ok
    ensures DoneIn(s, ops[..k + 1], Execute(t, ops[k]).state)
  {
    ExecuteSorted(t, ops[k]);
    AppendedSnoc(ops, k);
    assert Execute(t, ops[k]).state.groups.Keys == t.groups.Keys by { ExecuteKeys(t, ops[k]); }
    hide AllSorted, Count, Holds, Known, Net, Appended, AddedTo, RemovedFrom;
    var n := Execute(t, ops[k]).state;
    forall i, side, e
      ensures Count(n.groups, i, side, e) == Count(s.groups, i, side, e) + Net(ops[..k + 1], i, side, e)
    {
      NetSnoc(ops, k, i, side, e);
      CountAfter(t, ops[k], i, side, e);
    }
    if ops[k].MatchOp? {
      assert s.events + Appended(ops[..k]) + ops[k].found == s.events + (Appended(ops[..k]) + ops[k].found);
    }
  }

  lemma ExecuteKeys(s: State, op: TrOp)
    requires AllSorted(s.groups)
    ensures Execute(s, op).state.groups.Keys == s.groups.Keys
  {
    hide Inserted, SortedSide;
    if op.AddOp? {
      AddedToIs(s.groups, op.quote);
    } else if op.RemoveOp? {
      RemovedFromIs(s.groups, op.quote);
    }
  }

  lemma {:induction false} SucceedIff(s: State, ops: seq<TrOp>, k: nat)
    requires AllSorted(s.groups) && k <= |ops|
    ensures Succeed(s, ops, k) <==> forall i :: 0 <= i < k ==> Feasible(s, ops, i)
    ensures Succeed(s, ops, k) ==> DoneIn(s, ops[..k], After(s, ops, k))
  {
    hide Execute, Feasible, DoneIn;
    if k == 0 {
      assert ops[..0] == [];
      assert DoneIn(s, [], s) by { NothingDone(s); }
    } else {
      SucceedIff(s, ops, k - 1);
      if Succeed(s, ops, k - 1) {
        var t := After(s, ops, k - 1);
        NextIsFeasible(s, ops, k - 1, t);
        if Execute(t, ops[k - 1]).ok {
          NextIsDone(s, ops, k - 1, t);
        }
      }
    }
  }

  lemma NothingDone(s: State)
    requires AllSorted(s.groups)
    ensures DoneIn(s, [], s)
  {}

  /** A transaction goes through if and only if each of its operations is feasible; then every entry is there as often
      as before plus what the operations added and took away, and the events of the matches wait in their order. */
  lemma CommitsIff(s: State, ops: seq<TrOp>)
    requires AllSorted(s.groups)
    ensures Succeed(s, ops, |ops|) <==> forall i :: 0 <= i < |ops| ==> Feasible(s, ops, i)
    ensures Succeed(s, ops, |ops|) ==> DoneIn(s, ops, After(s, ops, |ops|))
  {
    hide Feasible, DoneIn, Succeed;
    SucceedIff(s, ops, |ops|);
    assert ops[..|ops|] == ops;
  }
}
