/**
How well the scheduler uses its processors.  Every addition that is ready and every removal makes its thread look for
ready transactions; these look-ups keep ready transactions from waiting beside an idle processor, unless a single
removal makes more than two of them ready.
*/
module SchedulerUse {
  import opened Common
  import opened TreeModel
  import opened Effects
  import opened Scheduler
  import opened SchedulerData
  import opened SchedulerSafety

  // ---------------------------------------------------------------- look-ups

  /** How often a thread will still look for a ready transaction; a task whose transaction is still in the tree counts
      the look-up that is certain. */
  function Owed(pc: Pc): nat {
    match pc
    case Adding(ready) => if ready then 1 else 0
    case Waking(after) => if after.ThenFinal? then 2 else 1
    case Dispatching(after) => if after.ThenFinal? then 2 else 1
    case Running(_, _, _, _, _) => 0
    case Returned(_, _) => 1
    case Erased(ready) => if ready then 2 else 1
  }

  /** One for a task that has given its processor back and not yet removed its transaction. */
  function Leaving(pc: Pc): nat {
    if pc.Returned? then 1 else 0
  }

  function Tally(agents: map<nat, Pc>, next: nat, count: Pc -> nat): seq<nat> {
    seq(next, a => if a in agents then count(agents[a]) else 0)
  }

  ghost function Total(s: State, count: Pc -> nat): nat {
    Sum(Tally(s.agents, s.next, count))
  }

  lemma TallyMoved(agents: map<nat, Pc>, next: nat, count: Pc -> nat, a: nat, pc: Pc)
    requires a in agents && a < next
    ensures Sum(Tally(agents[a := pc], next, count)) == Sum(Tally(agents, next, count)) - count(agents[a]) + count(pc)
    ensures Sum(Tally(agents - {a}, next, count)) == Sum(Tally(agents, next, count)) - count(agents[a])
  {
    var q := Tally(agents, next, count);
    assert Tally(agents[a := pc], next, count) == q[a := count(pc)];
    assert Tally(agents - {a}, next, count) == q[a := 0];
    SumUpdate(q, a, count(pc));
    SumUpdate(q, a, 0);
  }

  lemma TallyNew(agents: map<nat, Pc>, next: nat, count: Pc -> nat, pc: Pc)
    ensures Sum(Tally(agents[next := pc], next + 1, count)) == Sum(Tally(agents, next, count)) + count(pc)
  {
    var q := Tally(agents, next, count);
    assert Tally(agents[next := pc], next + 1, count) == q + [count(pc)];
    SumAppend(q, count(pc));
  }

  lemma {:induction false} TallyZero(agents: map<nat, Pc>, next: nat, count: Pc -> nat)
    requires forall a :: a in agents ==> count(agents[a]) == 0
    ensures Sum(Tally(agents, next, count)) == 0
  {
    if next > 0 {
      TallyZero(agents, next - 1, count);
      var q := Tally(agents, next - 1, count);
      assert Tally(agents, next, count) == q + [0];
      SumAppend(q, 0);
    }
  }

  /** A thread that leaves owes a look-up, and another thread's debts come on top. */
  lemma {:induction false} LeavingOwes(agents: map<nat, Pc>, next: nat, a: nat)
    requires a in agents && a < next && !agents[a].Returned?
    ensures Sum(Tally(agents, next, Leaving)) + Owed(agents[a]) <= Sum(Tally(agents, next, Owed))
    decreases next
  {
    var p, q := Tally(agents, next - 1, Leaving), Tally(agents, next - 1, Owed);
    var x := if next - 1 in agents then agents[next - 1] else Running(0, 0, 0, 0, INITIAL);
    assert Tally(agents, next, Leaving) == p + [Leaving(x)] && Tally(agents, next, Owed) == q + [Owed(x)];
    SumAppend(p, Leaving(x));
    SumAppend(q, Owed(x));
    if a == next - 1 {
      LeavingBelow(agents, next - 1);
    } else {
      LeavingOwes(agents, next - 1, a);
    }
  }

  lemma {:induction false} LeavingBelow(agents: map<nat, Pc>, next: nat)
    ensures Sum(Tally(agents, next, Leaving)) <= Sum(Tally(agents, next, Owed))
    decreases next
  {
    if next > 0 {
      var p, q := Tally(agents, next - 1, Leaving), Tally(agents, next - 1, Owed);
      var x := if next - 1 in agents then agents[next - 1] else Running(0, 0, 0, 0, INITIAL);
      assert Tally(agents, next, Leaving) == p + [Leaving(x)] && Tally(agents, next, Owed) == q + [Owed(x)];
      SumAppend(p, Leaving(x));
      SumAppend(q, Owed(x));
      LeavingBelow(agents, next - 1);
    }
  }

  // ---------------------------------------------------------------- the law

  function Lesser(a: int, b: int): int {
    if a <= b then a else b
  }

  /** The look-ups owed cover the ready transactions, and those about to be made ready, as far as there are processors;
      `slack` is what removals of more than two made ready at once may be short of. */
  ghost predicate Covered(s: State, slack: nat) {
    Lesser(|Pending(s.tree)| + Total(s, Leaving), s.last + 1) <= Total(s, Owed) + slack
  }

  /** The transactions that a step makes ready by a removal. */
  ghost function Freed(s: State, l: Label): nat
    requires Enabled(s, l)
  {
    if l.Move? && s.agents[l.agent].Returned? then |Sorted(Unblocked(s.tree, s.agents[l.agent].id))| else 0
  }

  /** Those beyond two for every removal: the notification and the task's last look serve one each. */
  ghost function Excess(s: State, run: seq<Label>, t: State): nat
    requires Reaches(s, run, t)
    decreases |run|
  {
    if run == [] then 0
    else (if Freed(s, run[0]) > 2 then Freed(s, run[0]) - 2 else 0) + Excess(Next(s, run[0]), run[1..], t)
  }

  lemma AddCovers(initial: Store, s: State, tx: Tx, slack: nat)
    requires SchedInv(initial, s) && CanAdd(s, tx) && Covered(s, slack)
    ensures Covered(AddStep(s, tx), slack)
  {
    hide Inv, Mirror, DataInv, HistInv, TaskInv, WakeInv, Dispensed, Pending, Added, LastUsers, PoolInv, Tally, Sum;
    AddKeepsHist(s.tree, s.hist, tx);
    AddEffect(s.tree, tx.id, |s.hist|, tx.deps);
    var pc := AddStep(s, tx).agents[s.next];
    TallyNew(s.agents, s.next, Owed, pc);
    TallyNew(s.agents, s.next, Leaving, pc);
  }

  /** A look-up that ends without a transaction. */
  lemma ResumeTotal(s: State, a: nat)
    requires a in s.agents && a < s.next && (s.agents[a].Waking? || s.agents[a].Dispatching?)
    ensures var n := Resume(s.agents, a, s.agents[a].after);
            && Sum(Tally(n, s.next, Owed)) == Total(s, Owed) - 1
            && Sum(Tally(n, s.next, Leaving)) == Total(s, Leaving)
  {
    hide Tally, Sum;
    TallyMoved(s.agents, s.next, Owed, a, Waking(EndTask));
    TallyMoved(s.agents, s.next, Leaving, a, Waking(EndTask));
  }

  lemma LookCovers(initial: Store, s: State, a: nat, slack: nat)
    requires SchedInv(initial, s) && CanMove(s, a) && Covered(s, slack)
    requires s.agents[a].Waking? || s.agents[a].Dispatching?
    ensures Covered(MoveStep(s, a), slack)
  {
    hide Inv, Mirror, DataInv, HistInv, TaskInv, WakeInv, Dispensed, Pending, Advanced, PoolInv, Tally, Sum;
    var after := s.agents[a].after;
    ResumeTotal(s, a);
    TallyMoved(s.agents, s.next, Owed, a, Dispatching(after));
    TallyMoved(s.agents, s.next, Leaving, a, Dispatching(after));
    if s.agents[a].Dispatching? && Pending(s.tree) != [] {
      DispatchFacts(s.tree);
      var n := MoveStep(s, a);
      var rest := Resume(s.agents, a, after);
      TallyNew(rest, s.next, Owed, n.agents[s.next]);
      TallyNew(rest, s.next, Leaving, n.agents[s.next]);
    } else if s.agents[a].Dispatching? {
      LeavingOwes(s.agents, s.next, a);
    }
  }

  lemma TaskCovers(initial: Store, s: State, a: nat, slack: nat)
    requires SchedInv(initial, s) && CanMove(s, a) && Covered(s, slack)
    requires !s.agents[a].Waking? && !s.agents[a].Dispatching? && !s.agents[a].Returned?
    ensures Covered(MoveStep(s, a), slack)
  {
    hide Inv, Mirror, DataInv, HistInv, TaskInv, WakeInv, Dispensed, Pending, PoolInv, Tally, Sum, DoStep;
    var n := MoveStep(s, a);
    var pc := if a in n.agents then n.agents[a] else s.agents[a];
    TallyMoved(s.agents, s.next, Owed, a, pc);
    TallyMoved(s.agents, s.next, Leaving, a, pc);
  }

  lemma RemovePendings(initial: Store, s: State, a: nat)
    requires SchedInv(initial, s) && CanMove(s, a) && s.agents[a].Returned?
    ensures var id := s.agents[a].id;
            && |Pending(Removed(s.tree, id))| == |Pending(s.tree)| + |Sorted(Unblocked(s.tree, id))|
            && (Sorted(Unblocked(s.tree, id)) == [] <==> Unblocked(s.tree, id) == {})
  {
    hide Inv, Mirror, DataInv, HistInv, WakeInv, PoolInv, Dispensed, Pending, Removed, Unblocked;
    var id := s.agents[a].id;
    assert a in Tasks(s.agents);
    RemoveEffect(s.tree, id);
    PrefixSuffix(s.tree);
    WithoutAbsent(Pending(s.tree), id);
  }

  lemma RemoveCovers(initial: Store, s: State, a: nat, slack: nat)
    requires SchedInv(initial, s) && CanMove(s, a) && s.agents[a].Returned? && Covered(s, slack)
    ensures var f := Freed(s, Move(a)); Covered(MoveStep(s, a), slack + if f > 2 then f - 2 else 0)
  {
    hide SchedInv, Total, MoveStep, Freed, Pending;
    RemoveMoves(initial, s, a);
  }

  lemma StepCovers(initial: Store, s: State, l: Label, slack: nat)
    requires SchedInv(initial, s) && Enabled(s, l) && Covered(s, slack)
    ensures var f := Freed(s, l); Covered(Next(s, l), slack + if f > 2 then f - 2 else 0)
  {
    hide SchedInv, Covered, MoveStep, AddStep, CanMove, CanAdd;
    match l
    case Add(tx) => AddCovers(initial, s, tx, slack);
    case Move(a) =>
      MoverKnown(s, a);
      if s.agents[a].Returned? {
        RemoveCovers(initial, s, a, slack);
      } else if s.agents[a].Waking? || s.agents[a].Dispatching? {
        LookCovers(initial, s, a, slack);
      } else {
        TaskCovers(initial, s, a, slack);
      }
  }

  lemma MoverKnown(s: State, a: nat)
    requires CanMove(s, a)
    ensures a in s.agents
  {}

  lemma {:induction false} RunCovers(initial: Store, s: State, run: seq<Label>, t: State, slack: nat)
    requires SchedInv(initial, s) && Reaches(s, run, t) && Covered(s, slack)
    ensures Covered(t, slack + Excess(s, run, t))
    decreases |run|
  {
    hide SchedInv, Enabled, Next, Covered, Freed;
    if run != [] {
      StepIsSafe(initial, s, run[0]);
      StepCovers(initial, s, run[0], slack);
      var f := Freed(s, run[0]);
      RunCovers(initial, Next(s, run[0]), run[1..], t, slack + if f > 2 then f - 2 else 0);
    }
  }

  lemma InitCovered(s: State, initial: Store)
    requires Init(s, initial)
    ensures Covered(s, 0)
  {
    TallyZero(s.agents, s.next, Owed);
    TallyZero(s.agents, s.next, Leaving);
  }

  /** No thread is looking for work or about to: all of them run a transaction, or added one that has to wait. */
  predicate Settled(s: State) {
    forall a :: a in s.agents ==> s.agents[a].Running? || s.agents[a] == Adding(false)
  }

  /** In every reachable state in which no thread is about to look for work: of the ready transactions and the idle
      processors, at least one kind is used up, but for as many as removals made ready beyond two at a time. */
  lemma ProcessorsAreUsed(initial: Store, s: State, run: seq<Label>, t: State)
    requires Init(s, initial) && Reaches(s, run, t) && Settled(t)
    ensures Lesser(|Pending(t.tree)|, t.last + 1) <= Excess(s, run, t)
  {
    hide SchedInv, Pending, Reaches, Excess, Init, Settled, Total;
    InitSafe(s, initial);
    InitCovered(s, initial);
    RunCovers(initial, s, run, t, 0);
    SettledOwesNothing(t);
  }

  lemma SettledOwesNothing(t: State)
    requires Settled(t)
    ensures Total(t, Owed) == 0 && Total(t, Leaving) == 0
  {
    hide Tally, Sum;
    TallyZero(t.agents, t.next, Owed);
    TallyZero(t.agents, t.next, Leaving);
  }

  /** Every removal of the run makes at most two transactions ready. */
  ghost predicate AtMostTwo(s: State, run: seq<Label>, t: State)
    requires Reaches(s, run, t)
    decreases |run|
  {
    run == [] || (Freed(s, run[0]) <= 2 && AtMostTwo(Next(s, run[0]), run[1..], t))
  }

  lemma {:induction false} NoExcess(s: State, run: seq<Label>, t: State)
    requires Reaches(s, run, t) && AtMostTwo(s, run, t)
    ensures Excess(s, run, t) == 0
    decreases |run|
  {
    hide Enabled, Next, Freed;
    if run != [] {
      NoExcess(Next(s, run[0]), run[1..], t);
    }
  }

  /** So without such removals no ready transaction waits beside an idle processor. */
  lemma NobodyWaits(initial: Store, s: State, run: seq<Label>, t: State)
    requires Init(s, initial) && Reaches(s, run, t) && AtMostTwo(s, run, t) && Settled(t)
    ensures Pending(t.tree) == [] || t.last < 0
  {
    hide Pending, Settled;
    NoExcess(s, run, t);
    ProcessorsAreUsed(initial, s, run, t);
  }

  // ---------------------------------------------------------------- the look-ups are exactly those

  /** Nobody in the tree declares an object of the transaction. */
  ghost predicate Free(t: Tree, deps: seq<Obj>) {
    forall k, o :: k in t.keys && o in deps ==> o !in t.keys[k].deps
  }

  /** The reasons for a look-up: a transaction that is ready when it is added, a task that ends, and a removal that
      makes others ready. */
  ghost function Causes(s: State, l: Label): nat
    requires Enabled(s, l)
  {
    match l
    case Add(tx) => if Free(s.tree, tx.deps) then 1 else 0
    case Move(a) =>
      var pc := s.agents[a];
      if pc.Running? then if pc.done >= |s.hist[pc.tr].steps| then 1 else 0
      else if pc.Returned? && Freed(s, l) > 0 then 1
      else 0
  }

  /** A look-up ends in this step, with a transaction or without. */
  ghost function Looks(s: State, l: Label): nat
    requires Enabled(s, l)
  {
    if l.Move? && (s.agents[l.agent].Dispatching? || (s.agents[l.agent].Waking? && s.last < 0)) then 1 else 0
  }

  lemma FreeIsReady(t: Tree, deps: seq<Obj>)
    requires Inv(t)
    ensures Free(t, deps) <==> LastUsers(t.usedIn, deps) == {}
  {
    LastUsersEmpty(t, deps);
    hide ParentsExact, ChildrenSound, RootExact, LastUsers;
    if o :| o in deps && o in t.usedIn {
      var k := Users(t.usedIn, o)[0];
      assert k in Users(t.usedIn, o);
      assert k in t.keys && o in t.keys[k].deps;
    } else {
      forall k, o | k in t.keys && o in deps
        ensures o !in t.keys[k].deps
      {
        assert k !in Users(t.usedIn, o);
      }
    }
  }

  lemma LookCounts(initial: Store, s: State, a: nat)
    requires SchedInv(initial, s) && CanMove(s, a) && (s.agents[a].Waking? || s.agents[a].Dispatching?)
    ensures Total(MoveStep(s, a), Owed) + Looks(s, Move(a)) == Total(s, Owed)
  {
    hide Inv, Mirror, DataInv, HistInv, TaskInv, WakeInv, Dispensed, Pending, Advanced, PoolInv, Tally, Sum;
    ResumeTotal(s, a);
    TallyMoved(s.agents, s.next, Owed, a, Dispatching(s.agents[a].after));
    if s.agents[a].Dispatching? && Pending(s.tree) != [] {
      DispatchFacts(s.tree);
      TallyNew(Resume(s.agents, a, s.agents[a].after), s.next, Owed, MoveStep(s, a).agents[s.next]);
    }
  }

  lemma TaskCounts(initial: Store, s: State, a: nat)
    requires SchedInv(initial, s) && CanMove(s, a)
    requires !s.agents[a].Waking? && !s.agents[a].Dispatching? && !s.agents[a].Returned?
    ensures Total(MoveStep(s, a), Owed) == Total(s, Owed) + Causes(s, Move(a))
  {
    hide Inv, Mirror, DataInv, HistInv, TaskInv, WakeInv, PoolInv, Tally, Sum, DoStep;
    var n := MoveStep(s, a);
    TallyMoved(s.agents, s.next, Owed, a, if a in n.agents then n.agents[a] else s.agents[a]);
  }

  /** What a removal does to the thread and to the ready transactions. */
  lemma RemoveMoves(initial: Store, s: State, a: nat)
    requires SchedInv(initial, s) && CanMove(s, a) && s.agents[a].Returned?
    ensures var n, f := MoveStep(s, a), Freed(s, Move(a));
            && |Pending(n.tree)| == |Pending(s.tree)| + f && n.last == s.last && n.next == s.next
            && Total(n, Owed) == Total(s, Owed) + (if f > 0 then 1 else 0)
            && Total(n, Leaving) == Total(s, Leaving) - 1
  {
    hide SchedInv, Pending, Tally, Sum, Removed, Unblocked, Sorted;
    RemovePendings(initial, s, a);
    MoverBelow(initial, s, a);
    var pc := MoveStep(s, a).agents[a];
    TallyMoved(s.agents, s.next, Owed, a, pc);
    TallyMoved(s.agents, s.next, Leaving, a, pc);
  }

  lemma MoverBelow(initial: Store, s: State, a: nat)
    requires SchedInv(initial, s) && a in s.agents
    ensures a < s.next
  {
    hide Inv, DataInv, HistInv, TaskInv, WakeInv, PoolInv, Mirror;
  }

  lemma MoveCounts(initial: Store, s: State, a: nat)
    requires SchedInv(initial, s) && CanMove(s, a)
    ensures Total(MoveStep(s, a), Owed) + Looks(s, Move(a)) == Total(s, Owed) + Causes(s, Move(a))
  {
    hide SchedInv, Total, MoveStep, Freed;
    if s.agents[a].Returned? {
      RemoveMoves(initial, s, a);
    } else if s.agents[a].Waking? || s.agents[a].Dispatching? {
      LookCounts(initial, s, a);
    } else {
      TaskCounts(initial, s, a);
    }
  }

  lemma StepCounts(initial: Store, s: State, l: Label)
    requires SchedInv(initial, s) && Enabled(s, l)
    ensures Total(Next(s, l), Owed) + Looks(s, l) == Total(s, Owed) + Causes(s, l)
  {
    hide Inv, Mirror, DataInv, HistInv, TaskInv, WakeInv, PoolInv, Tally, Sum, LastUsers, Free, MoveStep, Added;
    match l
    case Add(tx) =>
      FreeIsReady(s.tree, tx.deps);
      TallyNew(s.agents, s.next, Owed, Adding(LastUsers(s.tree.usedIn, tx.deps) == {}));
    case Move(a) => MoveCounts(initial, s, a);
  }

  ghost function CausesIn(s: State, run: seq<Label>, t: State): nat
    requires Reaches(s, run, t)
    decreases |run|
  {
    if run == [] then 0 else Causes(s, run[0]) + CausesIn(Next(s, run[0]), run[1..], t)
  }

  ghost function LooksIn(s: State, run: seq<Label>, t: State): nat
    requires Reaches(s, run, t)
    decreases |run|
  {
    if run == [] then 0 else Looks(s, run[0]) + LooksIn(Next(s, run[0]), run[1..], t)
  }

  lemma {:induction false} RunCounts(initial: Store, s: State, run: seq<Label>, t: State)
    requires SchedInv(initial, s) && Reaches(s, run, t)
    ensures Total(t, Owed) + LooksIn(s, run, t) == Total(s, Owed) + CausesIn(s, run, t)
    decreases |run|
  {
    hide SchedInv, Enabled, Next, Total, Looks, Causes;
    if run != [] {
      StepIsSafe(initial, s, run[0]);
      StepCounts(initial, s, run[0]);
      RunCounts(initial, Next(s, run[0]), run[1..], t);
    }
  }

  /** In every run: when no thread is about to look, there was exactly one look for each reason. */
  lemma OneLookPerCause(initial: Store, s: State, run: seq<Label>, t: State)
    requires Init(s, initial) && Reaches(s, run, t) && Settled(t)
    ensures LooksIn(s, run, t) == CausesIn(s, run, t)
  {
    InitSettled(s, initial);
    hide SchedInv, Reaches, LooksIn, CausesIn, Init, Settled, Total;
    InitSafe(s, initial);
    RunCounts(initial, s, run, t);
    SettledOwesNothing(s);
    SettledOwesNothing(t);
  }

  lemma InitSettled(s: State, initial: Store)
    requires Init(s, initial)
    ensures Settled(s)
  {}
}
