/**
Progress of the scheduler.  Every step of a thread strictly lowers a measure of the work left, so without new
transactions every run ends; as threads never block each other for good, it ends with nothing left to do.
*/
module SchedulerProgress {
  import opened Common
  import opened TreeModel
  import opened Effects
  import opened Scheduler
  import opened SchedulerData
  import opened SchedulerSafety

  // ---------------------------------------------------------------- the measure

  function Weight(hist: seq<Tx>, pc: Pc): nat {
    match pc
    case Adding(_) => 4
    case Waking(after) => if after.ThenFinal? then 5 else 3
    case Dispatching(after) => if after.ThenFinal? then 4 else 2
    case Running(_, tr, _, done, _) => 8 + if tr < |hist| && done < |hist[tr].steps| then |hist[tr].steps| - done else 0
    case Returned(_, _) => 7
    case Erased(_) => 6
  }

  function AgentWeights(hist: seq<Tx>, agents: map<nat, Pc>, next: nat): seq<nat> {
    seq(next, a => if a in agents then Weight(hist, agents[a]) else 0)
  }

  /** A transaction that no task has taken yet still needs all its steps. */
  ghost function TxWeights(hist: seq<Tx>, keys: set<Key>, dispensed: set<Key>): seq<nat> {
    seq(|hist|, j requires 0 <= j < |hist| =>
      if hist[j].id in keys && hist[j].id !in dispensed then 9 + |hist[j].steps| else 0)
  }

  ghost function Taken(t: Tree): set<Key> {
    set k | k in Dispensed(t)
  }

  ghost function Untaken(s: State): nat {
    Sum(TxWeights(s.hist, s.tree.keys.Keys, Taken(s.tree)))
  }

  ghost function Measure(s: State): nat {
    Sum(AgentWeights(s.hist, s.agents, s.next)) + Untaken(s)
  }

  lemma MovedWeight(hist: seq<Tx>, agents: map<nat, Pc>, next: nat, a: nat, pc: Pc)
    requires a in agents && a < next
    ensures Sum(AgentWeights(hist, agents[a := pc], next)) ==
            Sum(AgentWeights(hist, agents, next)) - Weight(hist, agents[a]) + Weight(hist, pc)
    ensures Sum(AgentWeights(hist, agents - {a}, next)) ==
            Sum(AgentWeights(hist, agents, next)) - Weight(hist, agents[a])
  {
    var q := AgentWeights(hist, agents, next);
    assert AgentWeights(hist, agents[a := pc], next) == q[a := Weight(hist, pc)];
    assert AgentWeights(hist, agents - {a}, next) == q[a := 0];
    SumUpdate(q, a, Weight(hist, pc));
    SumUpdate(q, a, 0);
  }

  lemma NewWeight(hist: seq<Tx>, agents: map<nat, Pc>, next: nat, pc: Pc)
    ensures Sum(AgentWeights(hist, agents[next := pc], next + 1)) ==
            Sum(AgentWeights(hist, agents, next)) + Weight(hist, pc)
  {
    var q := AgentWeights(hist, agents, next);
    assert AgentWeights(hist, agents[next := pc], next + 1) == q + [Weight(hist, pc)];
    SumAppend(q, Weight(hist, pc));
  }

  // ---------------------------------------------------------------- every step lowers it

  lemma TakeOne(hist: seq<Tx>, keys: set<Key>, dispensed: set<Key>, j: nat)
    requires forall i, k :: 0 <= i < k < |hist| ==> hist[i].id < hist[k].id
    requires j < |hist| && hist[j].id in keys && hist[j].id !in dispensed
    ensures Sum(TxWeights(hist, keys, dispensed + {hist[j].id})) ==
            Sum(TxWeights(hist, keys, dispensed)) - (9 + |hist[j].steps|)
  {
    var q := TxWeights(hist, keys, dispensed);
    assert forall i :: 0 <= i < |hist| && i != j ==> hist[i].id != hist[j].id;
    assert TxWeights(hist, keys, dispensed + {hist[j].id}) == q[j := 0];
    SumUpdate(q, j, 0);
  }

  lemma DispatchTakes(s: State)
    requires Inv(s.tree) && HistInv(s.tree, s.hist) && Pending(s.tree) != []
    ensures Pending(s.tree)[0] in s.tree.keys && s.tree.keys[Pending(s.tree)[0]].value < |s.hist|
    ensures Untaken(s.(tree := Advanced(s.tree))) ==
            Untaken(s) - (9 + |s.hist[s.tree.keys[Pending(s.tree)[0]].value].steps|)
  {
    hide Inv, Dispensed, Pending, Advanced, Sum, TxWeights;
    DispatchFacts(s.tree);
    var id := Pending(s.tree)[0];
    var before, after := Taken(s.tree), Taken(Advanced(s.tree));
    assert id !in before && after == before + {id};
    TakeOne(s.hist, s.tree.keys.Keys, before, s.tree.keys[id].value);
    assert Advanced(s.tree).keys.Keys == s.tree.keys.Keys;
  }

  lemma RemoveTakesNothing(s: State, id: Key)
    requires Inv(s.tree) && id in s.tree.keys && id in Dispensed(s.tree)
    ensures Untaken(s.(tree := Removed(s.tree, id))) == Untaken(s)
  {
    hide Inv, Dispensed, Removed, Sum, Without, Unblocked, Pending;
    RemoveEffect(s.tree, id);
    DispensedNoDup(s.tree);
    WithoutMembers(Dispensed(s.tree), id);
    var after := Taken(Removed(s.tree, id));
    assert after == Taken(s.tree) - {id};
    assert TxWeights(s.hist, s.tree.keys.Keys - {id}, after) ==
           TxWeights(s.hist, s.tree.keys.Keys, Taken(s.tree));
  }

  lemma ResumeWeight(s: State, a: nat)
    requires a in s.agents && a < s.next && (s.agents[a].Waking? || s.agents[a].Dispatching?)
    ensures Sum(AgentWeights(s.hist, Resume(s.agents, a, s.agents[a].after), s.next)) <
            Sum(AgentWeights(s.hist, s.agents, s.next))
  {
    MovedWeight(s.hist, s.agents, s.next, a, Waking(EndTask));
  }

  lemma DispatchLowers(initial: Store, s: State, a: nat)
    requires SchedInv(initial, s) && CanMove(s, a) && s.agents[a].Dispatching? && Pending(s.tree) != []
    ensures Measure(MoveStep(s, a)) < Measure(s)
  {
    hide DataInv, TaskInv, PoolInv, Inv, HistInv, AgentWeights, Untaken, Pending, Advanced;
    ResumeWeight(s, a);
    DispatchTakes(s);
    UntakenLooksAt(s.(tree := Advanced(s.tree)), MoveStep(s, a));
    NewWeight(s.hist, Resume(s.agents, a, s.agents[a].after), s.next, MoveStep(s, a).agents[s.next]);
  }

  lemma UntakenLooksAt(s: State, t: State)
    requires s.tree == t.tree && s.hist == t.hist
    ensures Untaken(s) == Untaken(t)
  {}

  lemma ReturnedLowers(initial: Store, s: State, a: nat)
    requires SchedInv(initial, s) && CanMove(s, a) && s.agents[a].Returned?
    ensures Measure(MoveStep(s, a)) < Measure(s)
  {
    hide DataInv, PoolInv, Inv, HistInv, AgentWeights, Untaken, Dispensed, Removed, Unblocked;
    assert a in Tasks(s.agents);
    RemoveTakesNothing(s, s.agents[a].id);
    UntakenLooksAt(s.(tree := Removed(s.tree, s.agents[a].id)), MoveStep(s, a));
    MovedWeight(s.hist, s.agents, s.next, a, MoveStep(s, a).agents[a]);
  }

  lemma OtherLowers(initial: Store, s: State, a: nat)
    requires SchedInv(initial, s) && CanMove(s, a) && !s.agents[a].Returned?
    requires s.agents[a].Dispatching? ==> Pending(s.tree) == []
    ensures Measure(MoveStep(s, a)) < Measure(s)
  {
    hide DataInv, HistInv, TaskInv, PoolInv, Inv, AgentWeights, Untaken, Pending, DoStep;
    var n := MoveStep(s, a);
    UntakenLooksAt(s, n);
    if s.agents[a].Waking? || s.agents[a].Dispatching? {
      ResumeWeight(s, a);
      MovedWeight(s.hist, s.agents, s.next, a, Dispatching(s.agents[a].after));
    } else {
      MovedWeight(s.hist, s.agents, s.next, a, if a in n.agents then n.agents[a] else s.agents[a]);
    }
  }

  /** Every step of a thread strictly lowers the measure. */
  lemma MoveLowers(initial: Store, s: State, a: nat)
    requires SchedInv(initial, s) && CanMove(s, a)
    ensures Measure(MoveStep(s, a)) < Measure(s)
  {
    hide SchedInv, Measure, MoveStep;
    if s.agents[a].Returned? {
      ReturnedLowers(initial, s, a);
    } else if s.agents[a].Dispatching? && Pending(s.tree) != [] {
      DispatchLowers(initial, s, a);
    } else {
      OtherLowers(initial, s, a);
    }
  }

  // ---------------------------------------------------------------- runs without new transactions

  predicate OnlyMoves(run: seq<Label>) {
    forall i :: 0 <= i < |run| ==> run[i].Move?
  }

  /** Without new transactions no schedule of the threads is longer than the measure. */
  lemma {:induction false} MovesAreBounded(initial: Store, s: State, run: seq<Label>, t: State)
    requires SchedInv(initial, s) && Reaches(s, run, t) && OnlyMoves(run)
    ensures |run| + Measure(t) <= Measure(s)
    decreases |run|
  {
    hide SchedInv, Measure, CanMove, MoveStep;
    if run != [] {
      StepIsSafe(initial, s, run[0]);
      MoveLowers(initial, s, run[0].agent);
      MovesAreBounded(initial, Next(s, run[0]), run[1..], t);
    }
  }

  lemma {:induction false} ReachesJoin(s: State, run: seq<Label>, t: State, more: seq<Label>, u: State)
    requires Reaches(s, run, t) && Reaches(t, more, u)
    ensures Reaches(s, run + more, u)
    decreases |run|
  {
    hide Enabled, Next;
    if run == [] {
      assert run + more == more;
    } else {
      ReachesJoin(Next(s, run[0]), run[1..], t, more, u);
      assert (run + more)[1..] == run[1..] + more;
    }
  }

  /** From every reachable state, the threads alone drive the scheduler to rest, whatever the schedule: a
      schedule that cannot be continued has finished every transaction, with the serial outcome. */
  lemma RestIsReached(initial: Store, s: State, run: seq<Label>, t: State, moves: seq<Label>, u: State)
    requires Init(s, initial) && Reaches(s, run, t)
    requires Reaches(t, moves, u) && OnlyMoves(moves) && forall a :: !CanMove(u, a)
    ensures |moves| <= Measure(t)
    ensures u.agents == map[] && u.tree.keys == map[]
    ensures forall o :: Read(u.store, o) == Read(Serial(initial, TxsOf(run)), o)
  {
    InitSafe(s, initial);
    RunIsSafe(initial, s, run, t);
    MovesAreBounded(initial, t, moves, u);
    ReachesJoin(s, run, t, moves, u);
    hide Init, Reaches, CanMove, SchedInv, Measure;
    if u.agents != map[] {
      SomeThreadCanMove(initial, s, run + moves, u);
      assert false;
    }
    QuietMeansSerial(initial, s, run + moves, u);
    TxsOfMoves(run, moves);
  }

  lemma {:induction false} TxsOfMoves(run: seq<Label>, moves: seq<Label>)
    requires OnlyMoves(moves)
    ensures TxsOf(run + moves) == TxsOf(run)
    decreases |run| + |moves|
  {
    if run != [] {
      TxsOfMoves(run[1..], moves);
      assert (run + moves)[1..] == run[1..] + moves;
    } else if moves != [] {
      TxsOfMoves([], moves[1..]);
      assert ([] + moves)[1..] == [] + moves[1..];
    }
  }
}
