/**
Safety of the scheduler over every run: the invariant is kept by every step, so that dispatched transactions
never share an object, the outcome is that of the serial order of ids, and no wake-up is lost.
*/
module SchedulerSafety {
  import opened Common
  import opened TreeModel
  import opened Effects
  import opened Scheduler
  import opened SchedulerData

  // ---------------------------------------------------------------- bookkeeping of agents

  lemma TasksUpdate(agents: map<nat, Pc>, a: nat, pc: Pc)
    ensures Tasks(agents[a := pc]) == if pc.IsTask() then Tasks(agents)[a := pc] else Tasks(agents) - {a}
    ensures Tasks(agents - {a}) == Tasks(agents) - {a}
    ensures a in agents && !agents[a].IsTask() ==> Tasks(agents) - {a} == Tasks(agents)
    ensures a !in agents ==> Tasks(agents) - {a} == Tasks(agents)
  {}

  /** Threads that hold no processor may come, change and go without the pool noticing. */
  lemma PoolIgnores(slots: seq<Option<nat>>, last: int, agents: map<nat, Pc>, next: map<nat, Pc>)
    requires PoolInv(slots, last, agents)
    requires forall a :: a in next && next[a].Running? ==> a in agents && next[a] == agents[a]
    requires forall a :: a in agents && agents[a].Running? ==> a in next && next[a] == agents[a]
    ensures PoolInv(slots, last, next)
  {
    forall p | 0 <= p < |slots|
      ensures InSlot(slots, last, p) || Held(next, p)
    {
      if !InSlot(slots, last, p) {
        var a :| a in agents && Holds(agents[a], p);
        assert Holds(next[a], p);
      }
    }
    assert Holders(next) == Holders(agents);
  }

  lemma TakeProcessor(slots: seq<Option<nat>>, last: int, agents: map<nat, Pc>, a: nat, pc: Pc)
    requires PoolInv(slots, last, agents) && 0 <= last && a !in agents
    requires pc.Running? && slots[last] == Some(pc.proc)
    ensures PoolInv(slots[last := None], last - 1, agents[a := pc])
  {
    hide InSlot, Held;
    var g' := agents[a := pc];
    assert Holders(g') == Holders(agents) + {a};
    hide Holders;
    forall p | 0 <= p < |slots|
      ensures InSlot(slots[last := None], last - 1, p) || Held(g', p)
    {
      TakeCovers(slots, last, agents, a, pc, p);
    }
  }

  lemma TakeCovers(slots: seq<Option<nat>>, last: int, agents: map<nat, Pc>, a: nat, pc: Pc, p: nat)
    requires 0 <= last < |slots| && a !in agents && pc.Running? && slots[last] == Some(pc.proc)
    requires InSlot(slots, last, p) || Held(agents, p)
    ensures InSlot(slots[last := None], last - 1, p) || Held(agents[a := pc], p)
  {
    var s', g' := slots[last := None], agents[a := pc];
    if InSlot(slots, last, p) {
      var i :| 0 <= i <= last && slots[i] == Some(p);
      if i == last {
        assert Holds(g'[a], p);
      } else {
        assert s'[i] == Some(p);
      }
    } else {
      var b :| b in agents && Holds(agents[b], p);
      assert Holds(g'[b], p);
    }
  }

  lemma GiveProcessor(slots: seq<Option<nat>>, last: int, agents: map<nat, Pc>, a: nat, pc: Pc)
    requires PoolInv(slots, last, agents) && last + 1 < |slots|
    requires a in agents && agents[a].Running? && !pc.Running?
    ensures PoolInv(slots[last + 1 := Some(agents[a].proc)], last + 1, agents[a := pc])
  {
    var s', g' := slots[last + 1 := Some(agents[a].proc)], agents[a := pc];
    assert Holders(g') == Holders(agents) - {a};
    forall p | 0 <= p < |slots|
      ensures InSlot(s', last + 1, p) || Held(g', p)
    {
      if InSlot(slots, last, p) {
        var i :| 0 <= i <= last && slots[i] == Some(p);
        assert s'[i] == Some(p);
      } else {
        var b :| b in agents && Holds(agents[b], p);
        if b == a {
          assert s'[last + 1] == Some(p);
        } else {
          assert Holds(g'[b], p);
        }
      }
    }
  }

  /** While a task holds a processor a slot of the stack is empty; without tasks the stack is full. */
  lemma RoomForProcessor(slots: seq<Option<nat>>, last: int, agents: map<nat, Pc>)
    requires PoolInv(slots, last, agents)
    ensures forall a :: a in agents && agents[a].Running? ==> last + 1 < |slots|
    ensures Holders(agents) == {} ==> last == |slots| - 1
    ensures last < 0 && 0 < |slots| ==> exists a :: a in agents && agents[a].Running?
  {
    forall a | a in agents && agents[a].Running?
      ensures last + 1 < |slots|
    {
      assert a in Holders(agents);
    }
    if last < 0 && 0 < |slots| {
      var a :| a in Holders(agents);
    }
  }

  // ---------------------------------------------------------------- one step

  lemma InitSafe(s: State, initial: Store)
    requires Init(s, initial)
    ensures SchedInv(initial, s)
  {
    assert Tasks(s.agents) == map[];
    assert Holders(s.agents) == {};
    forall p | 0 <= p < |s.slots|
      ensures InSlot(s.slots, s.last, p)
    {
      assert s.slots[p] == Some(p);
    }
  }

  lemma AddIsSafe(initial: Store, s: State, tx: Tx)
    requires SchedInv(initial, s) && CanAdd(s, tx)
    ensures SchedInv(initial, AddStep(s, tx))
  {
    hide Inv, Mirror, DataInv, HistInv, TaskInv, WakeInv, Dispensed, Pending, Added, LastUsers, PoolInv;
    var n := AddStep(s, tx);
    AddWakes(s, tx);
    AddKeepsHist(s.tree, s.hist, tx);
    AddKeepsInv(s.tree, tx.id, |s.hist|, tx.deps);
    AddEffect(s.tree, tx.id, |s.hist|, tx.deps);
    TasksUpdate(s.agents, s.next, n.agents[s.next]);
    AddKeepsTasks(s.tree, n.tree, tx.id, |s.hist|, tx.deps, Tasks(s.agents));
    AddKeepsData(initial, s.tree, s.hist, s.store, Tasks(s.agents), tx);
    PoolIgnores(s.slots, s.last, s.agents, n.agents);
  }

  lemma AddWakes(s: State, tx: Tx)
    requires Inv(s.tree) && HistInv(s.tree, s.hist) && WakeInv(s.tree, s.agents) && AgentsInv(s.agents, s.next)
    requires CanAdd(s, tx)
    ensures WakeInv(AddStep(s, tx).tree, AddStep(s, tx).agents)
  {
    hide Inv, HistInv, Pending, Dispensed, Added, LastUsers;
    var n := AddStep(s, tx);
    AddKeepsHist(s.tree, s.hist, tx);
    AddEffect(s.tree, tx.id, |s.hist|, tx.deps);
    if Pending(n.tree) != [] {
      if n.agents[s.next].ready {
        assert Waker(n.agents[s.next]);
      } else {
        var a :| a in s.agents && Waker(s.agents[a]);
        assert Waker(n.agents[a]);
      }
    }
  }

  /** A step that only moves threads which are no tasks, and leaves a waker if one is needed. */
  lemma ControlIsSafe(initial: Store, s: State, agents: map<nat, Pc>, lock: Option<nat>)
    requires SchedInv(initial, s)
    requires Tasks(agents) == Tasks(s.agents) && AgentsInv(agents, s.next)
    requires LockInv(lock, s.last, agents) && WakeInv(s.tree, agents)
    ensures SchedInv(initial, s.(agents := agents, lock := lock))
  {
    hide Inv, HistInv, TaskInv, DataInv, WakeInv, LockInv;
    forall a
      ensures a in agents && agents[a].IsTask() <==> a in s.agents && s.agents[a].IsTask()
      ensures a in agents && agents[a].IsTask() ==> agents[a] == s.agents[a]
    {
      assert a in Tasks(agents) <==> a in Tasks(s.agents);
      assert a in Tasks(agents) ==> Tasks(agents)[a] == Tasks(s.agents)[a];
    }
    PoolIgnores(s.slots, s.last, s.agents, agents);
  }

  lemma AddingIsSafe(initial: Store, s: State, a: nat)
    requires SchedInv(initial, s) && CanMove(s, a) && s.agents[a].Adding?
    ensures SchedInv(initial, MoveStep(s, a))
  {
    hide Inv, HistInv, TaskInv, DataInv, PoolInv;
    var n := MoveStep(s, a);
    TasksUpdate(s.agents, a, Waking(EndAdd));
    assert WakeInv(s.tree, n.agents) by {
      if Pending(s.tree) != [] {
        var b :| b in s.agents && Waker(s.agents[b]);
        assert b in n.agents && Waker(n.agents[b]);
      }
    }
    ControlIsSafe(initial, s, n.agents, s.lock);
  }

  lemma ErasedIsSafe(initial: Store, s: State, a: nat)
    requires SchedInv(initial, s) && CanMove(s, a) && s.agents[a].Erased?
    ensures SchedInv(initial, MoveStep(s, a))
  {
    hide Inv, HistInv, TaskInv, DataInv, PoolInv;
    var n := MoveStep(s, a);
    TasksUpdate(s.agents, a, n.agents[a]);
    assert Waker(n.agents[a]);
    ControlIsSafe(initial, s, n.agents, s.lock);
  }

  /** After onReadyToExecute returns without dispatching, somebody still watches over the pending ones. */
  lemma ResumeIsSafe(initial: Store, s: State, a: nat, after: AfterWake)
    requires SchedInv(initial, s) && a in s.agents && !s.agents[a].IsTask()
    requires s.lock == None || s.lock == Some(a)
    requires Pending(s.tree) == [] || s.last < 0
    ensures SchedInv(initial, s.(agents := Resume(s.agents, a, after), lock := None))
  {
    hide Inv, HistInv, TaskInv, DataInv;
    var agents := Resume(s.agents, a, after);
    TasksUpdate(s.agents, a, Waking(EndTask));
    assert WakeInv(s.tree, agents) by {
      if Pending(s.tree) != [] {
        RoomForProcessor(s.slots, s.last, s.agents);
        var b :| b in s.agents && s.agents[b].Running?;
        assert b in agents && Waker(agents[b]);
      }
    }
    ControlIsSafe(initial, s, agents, None);
  }

  lemma WakingIsSafe(initial: Store, s: State, a: nat)
    requires SchedInv(initial, s) && CanMove(s, a) && s.agents[a].Waking?
    ensures SchedInv(initial, MoveStep(s, a))
  {
    hide Inv, HistInv, TaskInv, DataInv, PoolInv;
    var after := s.agents[a].after;
    if s.last < 0 {
      ResumeIsSafe(initial, s, a, after);
    } else {
      var n := MoveStep(s, a);
      TasksUpdate(s.agents, a, Dispatching(after));
      assert Waker(n.agents[a]);
      ControlIsSafe(initial, s, n.agents, Some(a));
    }
  }

  lemma DispatchIsSafe(initial: Store, s: State, a: nat)
    requires SchedInv(initial, s) && CanMove(s, a) && s.agents[a].Dispatching? && Pending(s.tree) != []
    ensures SchedInv(initial, MoveStep(s, a))
  {
    hide Inv, Mirror, DataInv, TaskInv, HistInv, Dispensed, Pending, Advanced, PoolInv;
    AdvancedCursor(s.tree);
    var after := s.agents[a].after;
    DispatchFacts(s.tree);
    HistLooksAtKeys(s.tree, Advanced(s.tree), s.hist);
    var id := Pending(s.tree)[0];
    var pc := Running(id, s.tree.keys[id].value, s.slots[s.last].value, 0, INITIAL);
    var rest := Resume(s.agents, a, after);
    var n := MoveStep(s, a);
    assert n.agents == rest[s.next := pc] && n.tree == Advanced(s.tree);
    TasksUpdate(s.agents, a, Waking(EndTask));
    TasksUpdate(rest, s.next, pc);
    DispatchKeepsTasks(s.tree, Tasks(s.agents), s.next, pc);
    DispatchKeepsData(initial, s.tree, s.hist, s.store, Tasks(s.agents), s.next, pc);
    PoolIgnores(s.slots, s.last, s.agents, rest);
    TakeProcessor(s.slots, s.last, rest, s.next, pc);
    assert Waker(n.agents[s.next]);
  }

  lemma HistLooksAtKeys(t: Tree, u: Tree, hist: seq<Tx>)
    requires HistInv(t, hist) && u.keys == t.keys
    ensures HistInv(u, hist)
  {}

  lemma RunningIsSafe(initial: Store, s: State, a: nat)
    requires SchedInv(initial, s) && CanMove(s, a) && s.agents[a].Running?
    requires s.agents[a].done < |s.hist[s.agents[a].tr].steps|
    ensures SchedInv(initial, MoveStep(s, a))
  {
    hide Inv, DataInv, TaskInv, HistInv, DoStep, PoolInv;
    var pc, tasks := s.agents[a], Tasks(s.agents);
    var n := MoveStep(s, a);
    TasksUpdate(s.agents, a, n.agents[a]);
    RunKeepsData(initial, s.tree, s.hist, s.store, tasks, a);
    SameIdsKeepTasks(s.tree, tasks, a, n.agents[a]);
    RunKeepsPool(s.slots, s.last, s.agents, a, n.agents[a]);
    assert Waker(n.agents[a]);
  }

  lemma RunKeepsPool(slots: seq<Option<nat>>, last: int, agents: map<nat, Pc>, a: nat, pc: Pc)
    requires PoolInv(slots, last, agents) && a in agents && agents[a].Running?
    requires pc.Running? && pc.proc == agents[a].proc
    ensures PoolInv(slots, last, agents[a := pc])
  {
    var g' := agents[a := pc];
    assert Holders(g') == Holders(agents);
    forall p | 0 <= p < |slots|
      ensures InSlot(slots, last, p) || Held(g', p)
    {
      if !InSlot(slots, last, p) {
        var b :| b in agents && Holds(agents[b], p);
        assert Holds(g'[b], p);
      }
    }
  }

  lemma FinishIsSafe(initial: Store, s: State, a: nat)
    requires SchedInv(initial, s) && CanMove(s, a) && s.agents[a].Running?
    requires s.agents[a].done >= |s.hist[s.agents[a].tr].steps|
    ensures SchedInv(initial, MoveStep(s, a))
  {
    hide Inv, DataInv, TaskInv, HistInv, PoolInv;
    var pc, tasks := s.agents[a], Tasks(s.agents);
    var n := MoveStep(s, a);
    TasksUpdate(s.agents, a, n.agents[a]);
    FinishKeepsData(initial, s.tree, s.hist, s.store, tasks, a);
    SameIdsKeepTasks(s.tree, tasks, a, n.agents[a]);
    GiveProcessor(s.slots, s.last, s.agents, a, n.agents[a]);
    assert Waker(n.agents[a]);
  }

  lemma TaskIsReady(t: Tree, tasks: map<nat, Pc>, a: nat)
    requires Inv(t) && TaskInv(t, tasks) && a in tasks
    ensures tasks[a].IsTask() && tasks[a].id in t.root
  {
    hide Inv, Dispensed, Pending;
    PrefixSuffix(t);
  }

  lemma ReturnedIsSafe(initial: Store, s: State, a: nat)
    requires SchedInv(initial, s) && CanMove(s, a) && s.agents[a].Returned?
    ensures SchedInv(initial, MoveStep(s, a))
  {
    hide Inv, Mirror, DataInv, HistInv, PoolInv, Removed, Dispensed, Pending, Unblocked, TaskInv;
    var pc, tasks := s.agents[a], Tasks(s.agents);
    var n := MoveStep(s, a);
    TasksUpdate(s.agents, a, n.agents[a]);
    RemoveEffect(s.tree, pc.id);
    TaskIsReady(s.tree, tasks, a);
    RemoveReadyKeepsMirror(s.tree, pc.id);
    RemoveKeepsHist(s.tree, s.hist, pc.id);
    RemoveKeepsTasks(s.tree, tasks, a);
    RemoveKeepsData(initial, s.tree, s.hist, s.store, tasks, a);
    PoolIgnores(s.slots, s.last, s.agents, n.agents);
    assert Waker(n.agents[a]);
  }

  /** Every step keeps the scheduler invariant. */
  lemma StepIsSafe(initial: Store, s: State, l: Label)
    requires SchedInv(initial, s) && Enabled(s, l)
    ensures SchedInv(initial, Next(s, l))
  {
    hide SchedInv, MoveStep, AddStep;
    match l
    case Add(tx) => AddIsSafe(initial, s, tx);
    case Move(a) =>
      match s.agents[a]
      case Adding(_) => AddingIsSafe(initial, s, a);
      case Waking(_) => WakingIsSafe(initial, s, a);
      case Dispatching(after) => DispatchingIsSafe(initial, s, a);
      case Running(_, tr, _, done, _) =>
        if done < |s.hist[tr].steps| {
          RunningIsSafe(initial, s, a);
        } else {
          FinishIsSafe(initial, s, a);
        }
      case Returned(_, _) => ReturnedIsSafe(initial, s, a);
      case Erased(_) => ErasedIsSafe(initial, s, a);
  }

  lemma DispatchingIsSafe(initial: Store, s: State, a: nat)
    requires SchedInv(initial, s) && CanMove(s, a) && s.agents[a].Dispatching?
    ensures SchedInv(initial, MoveStep(s, a))
  {
    hide SchedInv;
    if Pending(s.tree) == [] {
      ResumeIsSafe(initial, s, a, s.agents[a].after);
    } else {
      DispatchIsSafe(initial, s, a);
    }
  }

  // ---------------------------------------------------------------- whole runs

  function TxOf(l: Label): seq<Tx> {
    if l.Add? then [l.tx] else []
  }

  /** The transactions added during a run. */
  function TxsOf(run: seq<Label>): seq<Tx> {
    if run == [] then [] else TxOf(run[0]) + TxsOf(run[1..])
  }

  lemma {:induction false} RunIsSafe(initial: Store, s: State, run: seq<Label>, t: State)
    requires SchedInv(initial, s) && Reaches(s, run, t)
    ensures SchedInv(initial, t)
    decreases |run|
  {
    hide SchedInv, Enabled, Next;
    if run != [] {
      StepIsSafe(initial, s, run[0]);
      RunIsSafe(initial, Next(s, run[0]), run[1..], t);
    }
  }

  lemma {:induction false} RunHistory(s: State, run: seq<Label>, t: State)
    requires Reaches(s, run, t)
    ensures t.hist == s.hist + TxsOf(run)
    decreases |run|
  {
    hide Enabled, Next, TxOf;
    if run != [] {
      var first, rest := TxOf(run[0]), TxsOf(run[1..]);
      StepHistory(s, run[0]);
      RunHistory(Next(s, run[0]), run[1..], t);
      hide Reaches, TxsOf;
      assert (s.hist + first) + rest == s.hist + (first + rest);
    }
  }

  lemma StepHistory(s: State, l: Label)
    requires Enabled(s, l)
    ensures Next(s, l).hist == s.hist + TxOf(l)
  {}

  /** In every reachable state the transactions being executed have pairwise disjoint objects, and each of
      them has the smallest id among the unfinished transactions that declare one of its objects. */
  lemma DispatchedAreIsolated(initial: Store, s: State, run: seq<Label>, t: State, a: nat, o: Obj)
    requires Init(s, initial) && Reaches(s, run, t)
    requires a in t.agents && t.agents[a].IsTask()
    ensures t.agents[a].tr < |t.hist|
    ensures o in t.hist[t.agents[a].tr].deps ==>
              && (forall b :: b in t.agents && b != a && t.agents[b].IsTask() && t.agents[b].tr < |t.hist| ==>
                    o !in t.hist[t.agents[b].tr].deps)
              && (forall k :: k in t.tree.keys && o in t.tree.keys[k].deps ==> t.agents[a].id <= k)
  {
    InitSafe(s, initial);
    RunIsSafe(initial, s, run, t);
    hide Inv, DataInv, PoolInv, Dispensed;
    var tasks := Tasks(t.agents);
    assert a in tasks && tasks[a] == t.agents[a];
    var id := tasks[a].id;
    assert t.hist[tasks[a].tr].deps == t.tree.keys[id].deps;
    if o in t.tree.keys[id].deps {
      forall b | b in t.agents && b != a && t.agents[b].IsTask() && t.agents[b].tr < |t.hist|
        ensures o !in t.hist[t.agents[b].tr].deps
      {
        assert b in tasks;
        OtherTaskUntouched(t.tree, t.hist, tasks, a, b, o);
      }
      DispensedOwns(t.tree, id, o);
      UsersAscending(t.tree, o);
      forall k | k in t.tree.keys && o in t.tree.keys[k].deps
        ensures id <= k
      {
        var list := Users(t.tree.usedIn, o);
        assert k in list && list[0] == id;
        var i :| 0 <= i < |list| && list[i] == k;
      }
    }
  }

  /** No wake-up is lost: when every thread has finished, no transaction is left in the tree, every
      processor is back on the stack, and the store is the one that the transactions added during the run
      produce when executed one by one in the order of their ids. */
  lemma QuietMeansSerial(initial: Store, s: State, run: seq<Label>, t: State)
    requires Init(s, initial) && Reaches(s, run, t) && t.agents == map[]
    ensures t.tree.keys == map[]
    ensures t.last == |t.slots| - 1 && forall p :: 0 <= p < |t.slots| ==> InSlot(t.slots, t.last, p)
    ensures forall o :: Read(t.store, o) == Read(Serial(initial, TxsOf(run)), o)
    ensures forall i, j :: 0 <= i < j < |TxsOf(run)| ==> TxsOf(run)[i].id < TxsOf(run)[j].id
  {
    hide SchedInv, Reaches, TxsOf, Init, Serial, InSlot;
    InitSafe(s, initial);
    RunIsSafe(initial, s, run, t);
    RunHistory(s, run, t);
    StartsEmpty(s, initial);
    assert t.hist == TxsOf(run);
    QuietIsEmpty(initial, t);
    QuietStore(initial, t);
  }

  lemma StartsEmpty(s: State, initial: Store)
    requires Init(s, initial)
    ensures s.hist == []
  {}

  lemma QuietStore(initial: Store, t: State)
    requires SchedInv(initial, t) && t.agents == map[]
    ensures t.last == |t.slots| - 1 && forall p :: 0 <= p < |t.slots| ==> InSlot(t.slots, t.last, p)
    ensures forall o :: Read(t.store, o) == Read(Serial(initial, t.hist), o)
    ensures forall i, j :: 0 <= i < j < |t.hist| ==> t.hist[i].id < t.hist[j].id
  {
    hide Inv, TaskInv, WaitData, UseOrder, FirstUser, Serial, WakeInv;
    QuietIsEmpty(initial, t);
    RoomForProcessor(t.slots, t.last, t.agents);
  }

  lemma QuietIsEmpty(initial: Store, t: State)
    requires SchedInv(initial, t) && t.agents == map[]
    ensures t.tree.keys == map[] && forall o :: FirstUser(t.tree, o) == NULL_KEY
  {
    hide Inv, DataInv, PoolInv;
    var tasks := Tasks(t.agents);
    assert forall id :: id !in Dispensed(t.tree);
    PrefixSuffix(t.tree);
    if t.tree.keys != map[] {
      NonEmptyHasReady(t.tree);
      assert false;
    }
    forall o
      ensures FirstUser(t.tree, o) == NULL_KEY
    {
      UsersAscending(t.tree, o);
      FirstIsMember(Users(t.tree.usedIn, o));
    }
  }

  /** In every reachable state the children links mirror the parent links, as the scheduler removes only
      transactions that were ready. */
  lemma ChildrenMirrorParents(initial: Store, s: State, run: seq<Label>, t: State)
    requires Init(s, initial) && Reaches(s, run, t)
    ensures Inv(t.tree) && Mirror(t.tree)
  {
    InitSafe(s, initial);
    RunIsSafe(initial, s, run, t);
  }

  /** Every processor is always in exactly one slot of the stack or held by exactly one task. */
  lemma ProcessorsAreConserved(initial: Store, s: State, run: seq<Label>, t: State, p: nat)
    requires Init(s, initial) && Reaches(s, run, t) && p < |t.slots|
    ensures InSlot(t.slots, t.last, p) <==> !Held(t.agents, p)
    ensures forall a, b :: a in t.agents && b in t.agents && Holds(t.agents[a], p) && Holds(t.agents[b], p) ==> a == b
    ensures forall i, j ::
              0 <= i < |t.slots| && 0 <= j < |t.slots| && t.slots[i] == Some(p) && t.slots[j] == Some(p) ==> i == j
  {
    InitSafe(s, initial);
    RunIsSafe(initial, s, run, t);
    hide Inv, DataInv, TaskInv, HistInv;
  }

  /** No deadlock: whenever threads exist, the holder of transactLock_ can move, or else all of them can. */
  lemma SomeThreadCanMove(initial: Store, s: State, run: seq<Label>, t: State)
    requires Init(s, initial) && Reaches(s, run, t) && t.agents != map[]
    ensures exists a :: CanMove(t, a)
    ensures t.lock == None ==> forall a :: a in t.agents ==> CanMove(t, a)
  {
    InitSafe(s, initial);
    RunIsSafe(initial, s, run, t);
    hide SchedInv, CanMove;
    forall a | a in t.agents && (t.lock == None || t.lock == Some(a))
      ensures CanMove(t, a)
    {
      ThreadCanMove(initial, t, a);
    }
    LockHolderLives(initial, t);
    var a :| a in t.agents && (t.lock == None || t.lock == Some(a));
    assert CanMove(t, a);
  }

  lemma LockHolderLives(initial: Store, t: State)
    requires SchedInv(initial, t) && t.agents != map[]
    ensures exists a :: a in t.agents && (t.lock == None || t.lock == Some(a))
  {
    hide Inv, HistInv, DataInv, TaskInv, PoolInv, WakeInv;
    if t.lock.Some? {
      assert t.lock.value in t.agents;
    } else {
      var a :| a in t.agents;
    }
  }

  lemma ThreadCanMove(initial: Store, t: State, a: nat)
    requires SchedInv(initial, t) && a in t.agents && (t.lock == None || t.lock == Some(a))
    ensures CanMove(t, a)
  {
    hide Inv, HistInv, DataInv, TaskInv, WakeInv;
    RoomForProcessor(t.slots, t.last, t.agents);
    if t.agents[a].IsTask() {
      TaskHasHistory(initial, t, a);
    }
  }

  lemma TaskHasHistory(initial: Store, t: State, a: nat)
    requires SchedInv(initial, t) && a in t.agents && t.agents[a].IsTask()
    ensures t.agents[a].tr < |t.hist| && t.agents[a].id in t.tree.keys
  {
    hide Inv, HistInv, PoolInv, Dispensed, Serial;
    assert a in Tasks(t.agents) && Tasks(t.agents)[a] == t.agents[a];
  }
}
