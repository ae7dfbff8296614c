/**
The transaction scheduler: TransactionMgr (src/TransactionMgr.cpp) and TaskManager (src/TaskManager.cpp) over
the dependency tree, as a step relation for any number of adding threads and worker tasks.

Each atomic step is one critical section of the source.  `onReadyToExecute` takes transactLock_ and, while
holding it, the lock of the transaction manager; it is modelled by two steps, so that insertions and removals
may come between the look at the processor stack and the call of `next`.
*/
module Scheduler {
  import opened Common
  import opened TreeModel
  import opened Effects

  /** What a thread does after a call of onReadyToExecute returns. */
  datatype AfterWake = EndAdd | ThenFinal | EndTask

  datatype Pc =
    | Adding(ready: bool)             // addTransaction, the node is inserted
    | Waking(after: AfterWake)        // at the entry of onReadyToExecute
    | Dispatching(after: AfterWake)   // inside onReadyToExecute, holding transactLock_, a processor is free
    | Running(id: Key, tr: nat, proc: nat, done: nat, local: Value)
    | Returned(id: Key, tr: nat)      // finishTransaction, the processor is given back
    | Erased(ready: bool)             // removeTransaction, the node is removed
  {
    predicate IsTask() { Running? || Returned? }
  }

  /** `hist` are the transactions in the order of insertion; the tree stores the index as the node value.
      `slots` and `last` are transactProcessors_ and lastAvailableTransactProcessor_. */
  datatype State = State(tree: Tree, hist: seq<Tx>, store: Store, agents: map<nat, Pc>, next: nat,
                         slots: seq<Option<nat>>, last: int, lock: Option<nat>)

  datatype Label = Add(tx: Tx) | Move(agent: nat)

  ghost predicate Init(s: State, initial: Store) {
    && s.tree == EmptyTree && s.hist == [] && s.store == initial && s.agents == map[]
    && 0 < |s.slots| && s.slots == seq(|s.slots|, i => Some(i))
    && s.last == |s.slots| - 1 && s.lock == None
  }

  // ---------------------------------------------------------------- steps

  /** A transaction may be added at any time; its id is above all earlier ones, as the generator is read
      under the lock of the manager, and getRelatedObjects lists no object twice. */
  ghost predicate CanAdd(s: State, tx: Tx) {
    tx.id != NULL_KEY && NoDup(tx.deps) && forall j :: 0 <= j < |s.hist| ==> s.hist[j].id < tx.id
  }

  ghost predicate CanMove(s: State, a: nat) {
    a in s.agents &&
    match s.agents[a]
    case Waking(_) => s.lock == None
    case Dispatching(_) => s.lock == Some(a) && 0 <= s.last < |s.slots| && s.slots[s.last].Some?
    case Running(_, tr, _, done, _) =>
      tr < |s.hist| && (done < |s.hist[tr].steps| || (s.lock == None && 0 <= s.last + 1 < |s.slots|))
    case Returned(id, _) => id in s.tree.keys
    case _ => true
  }

  ghost predicate Enabled(s: State, l: Label) {
    match l
    case Add(tx) => CanAdd(s, tx)
    case Move(a) => CanMove(s, a)
  }

  function Resume(agents: map<nat, Pc>, a: nat, after: AfterWake): map<nat, Pc> {
    if after.ThenFinal? then agents[a := Waking(EndTask)] else agents - {a}
  }

  ghost function AddStep(s: State, tx: Tx): State {
    s.(tree := Added(s.tree, tx.id, |s.hist|, tx.deps),
       hist := s.hist + [tx],
       agents := s.agents[s.next := Adding(LastUsers(s.tree.usedIn, tx.deps) == {})],
       next := s.next + 1)
  }

  ghost function DispatchStep(s: State, a: nat, after: AfterWake): State
    requires 0 <= s.last < |s.slots| && s.slots[s.last].Some?
  {
    var rest := s.(lock := None, agents := Resume(s.agents, a, after));
    if Pending(s.tree) == [] || Pending(s.tree)[0] !in s.tree.keys then rest
    else
      var id := Pending(s.tree)[0];
      rest.(tree := Advanced(s.tree),
            agents := rest.agents[s.next := Running(id, s.tree.keys[id].value, s.slots[s.last].value, 0, INITIAL)],
            next := s.next + 1,
            slots := s.slots[s.last := None],
            last := s.last - 1)
  }

  ghost function RunStep(s: State, a: nat, id: Key, tr: nat, proc: nat, done: nat, local: Value): State
    requires tr < |s.hist| && (done < |s.hist[tr].steps| || 0 <= s.last + 1 < |s.slots|)
  {
    if done < |s.hist[tr].steps| then
      var (after, store) := DoStep(s.hist[tr], done, local, s.store);
      s.(store := store, agents := s.agents[a := Running(id, tr, proc, done + 1, after)])
    else
      s.(slots := s.slots[s.last + 1 := Some(proc)], last := s.last + 1, agents := s.agents[a := Returned(id, tr)])
  }

  ghost function MoveStep(s: State, a: nat): State
    requires CanMove(s, a)
  {
    match s.agents[a]
    case Adding(ready) =>
      s.(agents := if ready then s.agents[a := Waking(EndAdd)] else s.agents - {a})
    case Waking(after) =>
      if s.last < 0 then s.(agents := Resume(s.agents, a, after))
      else s.(lock := Some(a), agents := s.agents[a := Dispatching(after)])
    case Dispatching(after) => DispatchStep(s, a, after)
    case Running(id, tr, proc, done, local) => RunStep(s, a, id, tr, proc, done, local)
    case Returned(id, tr) =>
      s.(tree := Removed(s.tree, id), agents := s.agents[a := Erased(Unblocked(s.tree, id) != {})])
    case Erased(ready) =>
      s.(agents := s.agents[a := Waking(if ready then ThenFinal else EndTask)])
  }

  ghost function Next(s: State, l: Label): State
    requires Enabled(s, l)
  {
    match l
    case Add(tx) => AddStep(s, tx)
    case Move(a) => MoveStep(s, a)
  }

  /** A run: a start state and the labels taken, each enabled where it is taken. */
  ghost predicate Reaches(s: State, run: seq<Label>, t: State)
    decreases |run|
  {
    if run == [] then s == t
    else Enabled(s, run[0]) && Reaches(Next(s, run[0]), run[1..], t)
  }

  // ---------------------------------------------------------------- invariants

  /** The tree nodes describe the transactions of the history. */
  ghost predicate HistInv(t: Tree, hist: seq<Tx>) {
    && (forall i, j :: 0 <= i < j < |hist| ==> hist[i].id < hist[j].id)
    && (forall j :: 0 <= j < |hist| ==> hist[j].id != NULL_KEY && NoDup(hist[j].deps))
    && (forall k :: k in t.keys ==>
          t.keys[k].value < |hist| && hist[t.keys[k].value].id == k && hist[t.keys[k].value].deps == t.keys[k].deps)
  }

  function Tasks(agents: map<nat, Pc>): map<nat, Pc> {
    map a | a in agents && agents[a].IsTask() :: agents[a]
  }

  /** Every dispensed transaction is held by exactly one task. */
  ghost predicate TaskInv(t: Tree, tasks: map<nat, Pc>) {
    && (forall a :: a in tasks ==> tasks[a].IsTask() && tasks[a].id in Dispensed(t) &&
                                   tasks[a].id in t.keys && tasks[a].tr == t.keys[tasks[a].id].value)
    && (forall a, b :: a in tasks && b in tasks && a != b ==> tasks[a].id != tasks[b].id)
    && (forall id :: id in Dispensed(t) ==> exists a :: a in tasks && tasks[a].id == id)
  }

  function FirstUser(t: Tree, o: Obj): Key {
    if Users(t.usedIn, o) == [] then NULL_KEY else Users(t.usedIn, o)[0]
  }

  /** What a task must find in its objects: its own serial progress from the serial state before it. */
  ghost predicate TaskData(initial: Store, hist: seq<Tx>, store: Store, pc: Pc)
    requires pc.IsTask()
  {
    pc.tr < |hist| &&
    var tx, base := hist[pc.tr], Serial(initial, hist[..pc.tr]);
    if pc.Running? then
      && pc.done <= |tx.steps|
      && pc.local == Partial(tx, pc.done, base).0
      && AgreeOn(store, Partial(tx, pc.done, base).1, tx.deps)
    else AgreeOn(store, Serial(initial, hist[..pc.tr + 1]), tx.deps)
  }

  ghost predicate WaitData(initial: Store, t: Tree, hist: seq<Tx>, store: Store) {
    forall k, o :: (k in t.keys && k !in Dispensed(t) && o in t.keys[k].deps && FirstUser(t, o) == k &&
                    t.keys[k].value < |hist|) ==>
      Read(store, o) == Read(Serial(initial, hist[..t.keys[k].value]), o)
  }

  ghost predicate FreeData(initial: Store, t: Tree, hist: seq<Tx>, store: Store) {
    forall o :: FirstUser(t, o) == NULL_KEY ==> Read(store, o) == Read(Serial(initial, hist), o)
  }

  /** Finished users of an object precede its pending users. */
  ghost predicate UseOrder(t: Tree, hist: seq<Tx>) {
    forall j, o, k :: (0 <= j < |hist| && hist[j].id !in t.keys && o in hist[j].deps &&
                       k in Users(t.usedIn, o) && k in t.keys) ==> j < t.keys[k].value
  }

  ghost predicate DataInv(initial: Store, t: Tree, hist: seq<Tx>, store: Store, tasks: map<nat, Pc>) {
    && (forall a :: a in tasks ==> tasks[a].IsTask() && TaskData(initial, hist, store, tasks[a]))
    && WaitData(initial, t, hist, store)
    && FreeData(initial, t, hist, store)
    && UseOrder(t, hist)
  }

  predicate Holds(pc: Pc, p: nat) {
    pc.Running? && pc.proc == p
  }

  /** Every processor is in exactly one slot of the stack or held by exactly one task. */
  ghost predicate PoolInv(slots: seq<Option<nat>>, last: int, agents: map<nat, Pc>) {
    && -1 <= last < |slots|
    && (forall i :: 0 <= i < |slots| ==> (slots[i].Some? <==> i <= last))
    && (forall i :: 0 <= i <= last ==> slots[i].value < |slots|)
    && (forall i, j :: 0 <= i < j <= last ==> slots[i].value != slots[j].value)
    && (forall a :: a in agents && agents[a].Running? ==>
          agents[a].proc < |slots| && forall i :: 0 <= i <= last ==> slots[i].value != agents[a].proc)
    && (forall a, b :: a in agents && b in agents && a != b && agents[a].Running? && agents[b].Running? ==>
          agents[a].proc != agents[b].proc)
    && (forall p :: 0 <= p < |slots| ==> InSlot(slots, last, p) || Held(agents, p))
    && |Holders(agents)| + last + 1 == |slots|
  }

  function Holders(agents: map<nat, Pc>): set<nat> {
    set a | a in agents && agents[a].Running?
  }

  ghost predicate InSlot(slots: seq<Option<nat>>, last: int, p: nat) {
    exists i :: 0 <= i <= last && i < |slots| && slots[i] == Some(p)
  }

  ghost predicate Held(agents: map<nat, Pc>, p: nat) {
    exists a :: a in agents && Holds(agents[a], p)
  }

  ghost predicate LockInv(lock: Option<nat>, last: int, agents: map<nat, Pc>) {
    && (forall a :: a in agents ==> (agents[a].Dispatching? <==> lock == Some(a)))
    && (lock.Some? ==> lock.value in agents && 0 <= last)
  }

  /** A thread that will look for ready transactions before it ends. */
  predicate Waker(pc: Pc) {
    pc.Adding? ==> pc.ready
  }

  ghost predicate WakeInv(t: Tree, agents: map<nat, Pc>) {
    Pending(t) != [] ==> exists a :: a in agents && Waker(agents[a])
  }

  ghost predicate AgentsInv(agents: map<nat, Pc>, next: nat) {
    forall a :: a in agents ==> a < next
  }

  ghost predicate SchedInv(initial: Store, s: State) {
    && 0 < |s.slots|
    && Inv(s.tree) && Mirror(s.tree)
    && HistInv(s.tree, s.hist)
    && TaskInv(s.tree, Tasks(s.agents))
    && DataInv(initial, s.tree, s.hist, s.store, Tasks(s.agents))
    && PoolInv(s.slots, s.last, s.agents)
    && LockInv(s.lock, s.last, s.agents)
    && WakeInv(s.tree, s.agents)
    && AgentsInv(s.agents, s.next)
  }
}
