/**
The bound of SchedulerUse is sharp.  A removal that makes `n` transactions ready at once is followed by two look-ups, so
that all but two of them wait beside idle processors until another transaction ends.
*/
module SchedulerIdle {
  import opened Common
  import opened TreeModel
  import opened Effects
  import opened Scheduler
  import opened SchedulerData
  import opened SchedulerSafety
  import opened SchedulerUse

  // ---------------------------------------------------------------- the transactions

  function Thing(i: nat): Obj {
    Obj(0, i)
  }

  function Things(n: nat): (s: seq<Obj>)
    ensures |s| == n && forall i :: 0 <= i < n ==> s[i] == Thing(i)
  {
    if n == 0 then [] else Things(n - 1) + [Thing(n - 1)]
  }

  /** Transaction 1 uses `n` objects; each of the others uses one of them. */
  function Tx1(n: nat, j: nat): Tx {
    if j == 0 then Tx(1, Things(n), []) else Tx(j + 1, [Thing(j - 1)], [])
  }

  function Txs(n: nat, k: nat): (h: seq<Tx>)
    ensures |h| == k && forall j :: 0 <= j < k ==> h[j] == Tx1(n, j)
  {
    if k == 0 then [] else Txs(n, k - 1) + [Tx1(n, k - 1)]
  }

  function Numbers(k: nat): (s: set<Key>)
    ensures forall i :: i in s <==> 1 <= i <= k
  {
    if k == 0 then {} else Numbers(k - 1) + {k}
  }

  function Processors(n: nat): (s: seq<Option<nat>>)
    ensures |s| == n && forall i :: 0 <= i < n ==> s[i] == Some(i)
  {
    seq(n, i => Some(i))
  }

  /** Threads 1 to `k` - 1, whose transactions have to wait. */
  function Waiters(k: nat): (m: map<nat, Pc>)
    ensures forall a :: a in m <==> 1 <= a < k
    ensures forall a :: a in m ==> m[a] == Adding(false)
  {
    if k <= 1 then map[] else Waiters(k - 1)[k - 1 := Adding(false)]
  }

  function Idle(n: nat, initial: Store): State {
    State(EmptyTree, [], initial, map[], 0, Processors(n), n - 1, None)
  }

  // ---------------------------------------------------------------- adding them

  /** The first `k` have been added, and no thread has moved since. */
  ghost predicate Gathered(initial: Store, n: nat, k: nat, s: State) {
    && SchedInv(initial, s) && 1 <= k <= n + 1
    && s == Idle(n, initial).(tree := s.tree, hist := Txs(n, k), next := k, agents := Waiters(k)[0 := Adding(true)])
    && s.tree.keys.Keys == Numbers(k) && s.tree.root == [1] && Pending(s.tree) == [1] && Dispensed(s.tree) == []
  }

  lemma IdleIsInit(n: nat, initial: Store)
    requires n > 0
    ensures Init(Idle(n, initial), initial) && SchedInv(initial, Idle(n, initial))
  {
    InitSafe(Idle(n, initial), initial);
  }

  lemma ThingsDistinct(n: nat)
    ensures NoDup(Things(n)) && forall i :: NoDup([Thing(i)])
  {}

  lemma FirstAdd(initial: Store, n: nat)
    requires n > 0
    ensures var s := Idle(n, initial); CanAdd(s, Tx1(n, 0)) && Gathered(initial, n, 1, AddStep(s, Tx1(n, 0)))
  {
    hide SchedInv, NoDup, Processors, Inv, HistInv, Pending, Dispensed, Added, Things;
    var s, tx := Idle(n, initial), Tx1(n, 0);
    IdleIsInit(n, initial);
    ThingsDistinct(n);
    StepIsSafe(initial, s, Add(tx));
    TreeParts(initial, s);
    AddKeepsHist(s.tree, s.hist, tx);
    AddEffect(s.tree, 1, 0, tx.deps);
    assert LastUsers(EmptyTree.usedIn, tx.deps) == {};
    EmptyLists();
    var t := AddStep(s, tx);
    assert t.tree.keys.Keys == Numbers(1);
    assert t.agents == Waiters(1)[0 := Adding(true)];
    assert [] + [1] == [1];
  }

  lemma EmptyLists()
    ensures Pending(EmptyTree) == [] && Dispensed(EmptyTree) == []
  {}

  /** What the tree knows of transaction 1. */
  lemma FirstUsesAll(initial: Store, n: nat, k: nat, s: State)
    requires SchedInv(initial, s) && s.hist == Txs(n, k) && 1 in s.tree.keys
    ensures s.tree.keys[1].deps == Things(n) && s.tree.keys[1].value == 0
  {
    hide Inv, DataInv, TaskInv, PoolInv, WakeInv, Mirror;
  }

  lemma NotFree(initial: Store, n: nat, k: nat, s: State)
    requires SchedInv(initial, s) && s.hist == Txs(n, k) && 1 in s.tree.keys && 1 <= k <= n
    ensures LastUsers(s.tree.usedIn, Tx1(n, k).deps) != {}
  {
    hide SchedInv, Inv, LastUsers;
    FirstUsesAll(initial, n, k, s);
    TreeParts(initial, s);
    assert Thing(k - 1) == Things(n)[k - 1];
    assert Thing(k - 1) in s.tree.keys[1].deps && Thing(k - 1) in Tx1(n, k).deps;
    FreeIsReady(s.tree, Tx1(n, k).deps);
  }

  lemma MayAdd(n: nat, k: nat, s: State)
    requires s.hist == Txs(n, k) && k > 0
    ensures CanAdd(s, Tx1(n, k))
  {
    ThingsDistinct(n);
    hide NoDup, Things;
  }

  lemma NextTree(initial: Store, n: nat, k: nat, s: State)
    requires Gathered(initial, n, k, s) && k <= n
    ensures var t := Added(s.tree, k + 1, k, Tx1(n, k).deps);
            t.keys.Keys == Numbers(k + 1) && t.root == [1] && Pending(t) == [1] && Dispensed(t) == []
  {
    hide SchedInv, NoDup, Pending, Dispensed, Inv, HistInv, LastUsers, Added, Things, Txs;
    var tx := Tx1(n, k);
    MayAdd(n, k, s);
    NotFree(initial, n, k, s);
    TreeParts(initial, s);
    AddKeepsHist(s.tree, s.hist, tx);
    AddEffect(s.tree, tx.id, |s.hist|, tx.deps);
    assert [1] + [] == [1];
  }

  lemma TreeParts(initial: Store, s: State)
    requires SchedInv(initial, s)
    ensures Inv(s.tree) && HistInv(s.tree, s.hist)
  {
    hide Inv, HistInv, DataInv, TaskInv, PoolInv, WakeInv, Mirror;
  }

  lemma NextAdd(initial: Store, n: nat, k: nat, s: State)
    requires Gathered(initial, n, k, s) && k <= n
    ensures CanAdd(s, Tx1(n, k)) && Gathered(initial, n, k + 1, AddStep(s, Tx1(n, k)))
  {
    hide SchedInv, Pending, Dispensed, LastUsers, Added, CanAdd, Things, Processors;
    var tx := Tx1(n, k);
    MayAdd(n, k, s);
    NextTree(initial, n, k, s);
    StepIsSafe(initial, s, Add(tx));
    NotFree(initial, n, k, s);
    var t := AddStep(s, tx);
    assert t.agents == Waiters(k + 1)[0 := Adding(true)];
  }

  // ---------------------------------------------------------------- runs

  /** One more step at the end of a run, and what it adds to the excess. */
  lemma {:induction false} Extend(s: State, run: seq<Label>, t: State, l: Label)
    requires Reaches(s, run, t) && Enabled(t, l)
    ensures Reaches(s, run + [l], Next(t, l))
    ensures Excess(s, run + [l], Next(t, l)) == Excess(s, run, t) + if Freed(t, l) > 2 then Freed(t, l) - 2 else 0
    decreases |run|
  {
    hide Enabled, Next, Freed;
    var n := Next(t, l);
    if run == [] {
      assert run + [l] == [l] && [l][1..] == [];
      assert Reaches(n, [], n) && Excess(n, [], n) == 0;
    } else {
      Extend(Next(s, run[0]), run[1..], t, l);
      assert (run + [l])[1..] == run[1..] + [l] && (run + [l])[0] == run[0];
    }
  }

  lemma Nothing(s: State)
    ensures Reaches(s, [], s) && Excess(s, [], s) == 0
  {}

  lemma {:induction false} Gathers(initial: Store, n: nat, k: nat) returns (run: seq<Label>, t: State)
    requires 1 <= k <= n + 1 && n > 0
    ensures Reaches(Idle(n, initial), run, t) && Gathered(initial, n, k, t) && Excess(Idle(n, initial), run, t) == 0
    decreases k
  {
    hide Gathered, Reaches, Excess, AddStep, CanAdd;
    var s := Idle(n, initial);
    if k == 1 {
      Nothing(s);
      FirstAdd(initial, n);
      Extend(s, [], s, Add(Tx1(n, 0)));
      run, t := [] + [Add(Tx1(n, 0))], AddStep(s, Tx1(n, 0));
    } else {
      run, t := Gathers(initial, n, k - 1);
      NextAdd(initial, n, k - 1, t);
      Extend(s, run, t, Add(Tx1(n, k - 1)));
      run, t := run + [Add(Tx1(n, k - 1))], AddStep(t, Tx1(n, k - 1));
    }
  }

  // ---------------------------------------------------------------- the first one runs and ends

  /** Thread 0 dispatches transaction 1. */
  ghost predicate Started(initial: Store, n: nat, s: State) {
    && n > 0 && SchedInv(initial, s)
    && s == Idle(n, initial).(tree := s.tree, hist := Txs(n, n + 1), next := n + 2, last := n - 2,
                              slots := Processors(n)[n - 1 := None],
                              agents := Waiters(n + 1)[n + 1 := Running(1, 0, n - 1, 0, INITIAL)])
    && s.tree.keys.Keys == Numbers(n + 1) && s.tree.root == [1] && Pending(s.tree) == [] && Dispensed(s.tree) == [1]
  }

  lemma Starts(initial: Store, n: nat, run: seq<Label>, s: State) returns (more: seq<Label>, t: State)
    requires n > 0 && Gathered(initial, n, n + 1, s)
    requires Reaches(Idle(n, initial), run, s) && Excess(Idle(n, initial), run, s) == 0
    ensures Started(initial, n, t) && Reaches(Idle(n, initial), more, t) && Excess(Idle(n, initial), more, t) == 0
  {
    hide SchedInv, Reaches, Excess, Pending, Dispensed, Advanced, Processors, Waiters;
    var start := Idle(n, initial);
    var s1 := s.(agents := s.agents[0 := Waking(EndAdd)]);
    var s2 := s.(agents := s.agents[0 := Dispatching(EndAdd)], lock := Some(0));
    Extend(start, run, s, Move(0));
    StepIsSafe(initial, s, Move(0));
    assert Next(s, Move(0)) == s1;
    Extend(start, run + [Move(0)], s1, Move(0));
    StepIsSafe(initial, s1, Move(0));
    assert s1.agents[0 := Dispatching(EndAdd)] == s2.agents;
    assert Next(s1, Move(0)) == s2;
    FirstHandedOut(initial, n, s2);
    Extend(start, run + [Move(0)] + [Move(0)], s2, Move(0));
    StepIsSafe(initial, s2, Move(0));
    more, t := run + [Move(0)] + [Move(0)] + [Move(0)], Next(s2, Move(0));
    assert s2.agents - {0} == Waiters(n + 1);
  }

  lemma FirstHandedOut(initial: Store, n: nat, s: State)
    requires n > 0 && SchedInv(initial, s) && s.hist == Txs(n, n + 1) && s.slots == Processors(n) && s.last == n - 1
    requires s.tree.keys.Keys == Numbers(n + 1) && Pending(s.tree) == [1] && Dispensed(s.tree) == []
    ensures s.slots[s.last] == Some(n - 1) && s.tree.keys[1].value == 0 && 1 in s.tree.keys
    ensures var u := Advanced(s.tree);
            u.keys == s.tree.keys && u.root == s.tree.root && Pending(u) == [] && Dispensed(u) == [1]
  {
    hide SchedInv, Inv, Pending, Dispensed, Advanced, Processors;
    FirstUsesAll(initial, n, n + 1, s);
    TreeParts(initial, s);
    DispatchFacts(s.tree);
    assert [] + [1] == [1];
  }

  /** Transaction 1 has given its processor back. */
  ghost predicate Ended(initial: Store, n: nat, s: State) {
    && n > 0 && SchedInv(initial, s)
    && s == Idle(n, initial).(tree := s.tree, hist := Txs(n, n + 1), next := n + 2,
                              agents := Waiters(n + 1)[n + 1 := Returned(1, 0)])
    && s.tree.keys.Keys == Numbers(n + 1) && s.tree.root == [1] && Pending(s.tree) == [] && Dispensed(s.tree) == [1]
  }

  lemma Ends(initial: Store, n: nat, run: seq<Label>, s: State) returns (more: seq<Label>, t: State)
    requires Started(initial, n, s) && Reaches(Idle(n, initial), run, s) && Excess(Idle(n, initial), run, s) == 0
    ensures Ended(initial, n, t) && Reaches(Idle(n, initial), more, t) && Excess(Idle(n, initial), more, t) == 0
  {
    hide SchedInv, Reaches, Excess, Pending, Dispensed;
    var a := n + 1;
    Extend(Idle(n, initial), run, s, Move(a));
    StepIsSafe(initial, s, Move(a));
    more, t := run + [Move(a)], Next(s, Move(a));
    assert t.slots == Processors(n);
    assert t.agents == Waiters(n + 1)[a := Returned(1, 0)];
  }

  // ---------------------------------------------------------------- its removal frees all the others

  lemma NodeOf(initial: Store, n: nat, s: State, k: Key)
    requires SchedInv(initial, s) && s.hist == Txs(n, n + 1) && k in s.tree.keys
    ensures k >= 1 && s.tree.keys[k].value == k - 1 && s.tree.keys[k].deps == Tx1(n, k - 1).deps
  {
    hide Inv, DataInv, TaskInv, PoolInv, WakeInv, Mirror;
  }

  /** The only other user of an object of transaction `k` is transaction 1. */
  lemma AloneAfter(initial: Store, n: nat, s: State, k: Key)
    requires Ended(initial, n, s) && 2 <= k <= n + 1
    ensures Inv(Removed(s.tree, 1)) && k in Removed(s.tree, 1).keys && k in Removed(s.tree, 1).root
  {
    hide SchedInv, Inv, Pending, Dispensed, Removed, Things;
    TreeParts(initial, s);
    RemoveKeepsInv(s.tree, 1);
    RemovedKeys(s.tree, 1);
    var u := Removed(s.tree, 1);
    NodeOf(initial, n, s, k);
    RemovedNodes(s.tree, 1, k);
    var o := Thing(k - 2);
    assert u.keys[k].deps == [o];
    forall j | j in u.keys && o in u.keys[j].deps
      ensures j == k
    {
      NodeOf(initial, n, s, j);
      RemovedNodes(s.tree, 1, j);
      assert j >= 2 && Tx1(n, j - 1).deps == [Thing(j - 2)];
    }
    FirstOfItsOwn(u, k, o);
  }

  lemma FirstOfItsOwn(u: Tree, k: Key, o: Obj)
    requires Inv(u) && k in u.keys && u.keys[k].deps == [o]
    requires forall j :: j in u.keys && o in u.keys[j].deps ==> j == k
    ensures k in u.root
  {
    hide ParentsExact, ChildrenSound, RootExact;
    ReadyIsFirstUser(u, k);
    assert o in u.keys[k].deps;
    assert k in Users(u.usedIn, o);
    FirstIsMember(Users(u.usedIn, o));
    var j := Users(u.usedIn, o)[0];
    assert j in u.keys && o in u.keys[j].deps;
    forall x | x in u.keys[k].deps
      ensures Users(u.usedIn, x) != [] && Users(u.usedIn, x)[0] == k
    {
      assert x == o;
    }
  }

  lemma FreedRoot(initial: Store, n: nat, s: State)
    requires Ended(initial, n, s)
    ensures Removed(s.tree, 1).root == Sorted(Unblocked(s.tree, 1))
    ensures Removed(s.tree, 1).keys.Keys == Numbers(n + 1) - {1}
    ensures Inv(Removed(s.tree, 1)) && Pending(Removed(s.tree, 1)) == Sorted(Unblocked(s.tree, 1))
  {
    hide SchedInv, Inv, Pending, Dispensed, Removed, Unblocked, Processors, Waiters, Txs, Sorted, Numbers;
    TreeParts(initial, s);
    RemoveEffect(s.tree, 1);
    assert Without([1], 1) == [] by { IndexOfUnique([1], 0); }
    WithoutAbsent<Key>([], 1);
    hide Without;
    var freed := Sorted(Unblocked(s.tree, 1));
    assert [] + freed == freed;
  }

  lemma FreedMembers(initial: Store, n: nat, s: State, k: Key)
    requires Ended(initial, n, s)
    ensures k in Sorted(Unblocked(s.tree, 1)) <==> 2 <= k <= n + 1
  {
    hide SchedInv, Inv, Pending, Removed, Unblocked, Sorted, Processors, Waiters, Txs;
    FreedRoot(initial, n, s);
    RootFacts(Removed(s.tree, 1));
    if 2 <= k <= n + 1 {
      AloneAfter(initial, n, s, k);
    }
  }

  lemma FreedCount(initial: Store, n: nat, s: State)
    requires Ended(initial, n, s)
    ensures |Sorted(Unblocked(s.tree, 1))| == n && Unblocked(s.tree, 1) != {}
  {
    var freed := Sorted(Unblocked(s.tree, 1));
    forall k: Key
      ensures k in freed <==> 2 <= k <= n + 1
    {
      FreedMembers(initial, n, s, k);
    }
    hide Ended, Unblocked, Sorted, From;
    FromMembers(2, n);
    AscendingUnique(freed, From(2, n));
    assert 2 in freed;
  }

  lemma FreesAll(initial: Store, n: nat, s: State)
    requires Ended(initial, n, s)
    ensures |Sorted(Unblocked(s.tree, 1))| == n && |Pending(Removed(s.tree, 1))| == n && Unblocked(s.tree, 1) != {}
  {
    hide Ended, Pending, Removed, Unblocked, Sorted;
    FreedRoot(initial, n, s);
    FreedCount(initial, n, s);
  }

  function From(k: nat, n: nat): (s: seq<nat>)
    ensures |s| == n && forall i :: 0 <= i < n ==> s[i] == k + i
  {
    seq(n, i => k + i)
  }

  lemma FromMembers(k: nat, n: nat)
    ensures Ascending(From(k, n)) && forall x :: x in From(k, n) <==> k <= x < k + n
  {
    var s := From(k, n);
    forall x | k <= x < k + n
      ensures x in s
    {
      assert s[x - k] == x;
    }
  }

  // ---------------------------------------------------------------- and only two of them are served

  /** A look-up that finds a processor and a transaction. */
  lemma Look(initial: Store, start: State, run: seq<Label>, s: State, a: nat)
    returns (more: seq<Label>, t: State, pc: Pc)
    requires SchedInv(initial, s) && Reaches(start, run, s) && a in s.agents && s.agents[a].Waking?
    requires s.lock == None && 0 <= s.last && Pending(s.tree) != []
    ensures SchedInv(initial, t) && Reaches(start, more, t) && Excess(start, more, t) == Excess(start, run, s)
    ensures pc.Running? && t.agents == Resume(s.agents, a, s.agents[a].after)[s.next := pc]
    ensures t.lock == None && t.last == s.last - 1 && t.next == s.next + 1
    ensures |Pending(t.tree)| == |Pending(s.tree)| - 1
  {
    hide SchedInv, Reaches, Excess, Pending, Dispensed, Advanced;
    assert 0 <= s.last < |s.slots| && s.slots[s.last].Some? && Inv(s.tree) by { Stacked(initial, s); }
    hide Inv;
    DispatchFacts(s.tree);
    var after := s.agents[a].after;
    Extend(start, run, s, Move(a));
    StepIsSafe(initial, s, Move(a));
    var m := Next(s, Move(a));
    assert m == s.(lock := Some(a), agents := s.agents[a := Dispatching(after)]);
    Extend(start, run + [Move(a)], m, Move(a));
    StepIsSafe(initial, m, Move(a));
    more, t := run + [Move(a)] + [Move(a)], Next(m, Move(a));
    pc := t.agents[s.next];
    assert Resume(m.agents, a, after) == Resume(s.agents, a, after);
    assert t.agents == Resume(s.agents, a, after)[s.next := pc];
  }

  lemma Stacked(initial: Store, s: State)
    requires SchedInv(initial, s) && 0 <= s.last
    ensures s.last < |s.slots| && s.slots[s.last].Some? && Inv(s.tree)
  {
    hide Inv, DataInv, TaskInv, HistInv, WakeInv, Mirror;
  }

  /** The removal has been made, and the thread is about to look twice. */
  ghost predicate Emptied(initial: Store, n: nat, s: State) {
    && SchedInv(initial, s) && s.agents == Waiters(n + 1)[n + 1 := Waking(ThenFinal)] && s.next == n + 2
    && s.lock == None && s.last == n - 1 && |Pending(s.tree)| == n
  }

  lemma Empties(initial: Store, n: nat, run: seq<Label>, s: State) returns (more: seq<Label>, t: State)
    requires n >= 2 && Ended(initial, n, s)
    requires Reaches(Idle(n, initial), run, s) && Excess(Idle(n, initial), run, s) == 0
    ensures Emptied(initial, n, t) && Reaches(Idle(n, initial), more, t) && Excess(Idle(n, initial), more, t) == n - 2
  {
    hide SchedInv, Reaches, Excess, Pending, Dispensed, Removed, Unblocked, Sorted, Numbers, Txs;
    var start, a := Idle(n, initial), n + 1;
    FreesAll(initial, n, s);
    Extend(start, run, s, Move(a));
    StepIsSafe(initial, s, Move(a));
    var m := Next(s, Move(a));
    assert m == s.(tree := Removed(s.tree, 1), agents := s.agents[a := Erased(true)]);
    Extend(start, run + [Move(a)], m, Move(a));
    StepIsSafe(initial, m, Move(a));
    more, t := run + [Move(a)] + [Move(a)], Next(m, Move(a));
    assert t.agents == Waiters(n + 1)[a := Waking(ThenFinal)];
  }

  lemma TwoLooks(initial: Store, n: nat, start: State, run: seq<Label>, s: State) returns (more: seq<Label>, t: State)
    requires n >= 2 && Emptied(initial, n, s) && Reaches(start, run, s)
    ensures Reaches(start, more, t) && Settled(t) && Excess(start, more, t) == Excess(start, run, s)
    ensures |Pending(t.tree)| == n - 2 && t.last + 1 == n - 2
  {
    hide SchedInv, Reaches, Excess, Pending;
    var m, p, q;
    more, m, p := Look(initial, start, run, s, n + 1);
    more, t, q := Look(initial, start, more, m, n + 1);
  }

  /** For every `n` from 2 on there is a run with `n` processors that ends with no thread about to look for work,
      `n` - 2 processors idle and as many ready transactions waiting: exactly the excess of its one removal. */
  lemma BoundIsSharp(initial: Store, n: nat) returns (run: seq<Label>, t: State)
    requires n >= 2
    ensures Init(Idle(n, initial), initial) && Reaches(Idle(n, initial), run, t) && Settled(t)
    ensures |Pending(t.tree)| == n - 2 && t.last + 1 == n - 2 && Excess(Idle(n, initial), run, t) == n - 2
  {
    hide Init, Reaches, Excess, Pending, Gathered, Started, Ended, Emptied, Settled;
    IdleIsInit(n, initial);
    run, t := Gathers(initial, n, n + 1);
    run, t := Starts(initial, n, run, t);
    run, t := Ends(initial, n, run, t);
    run, t := Empties(initial, n, run, t);
    run, t := TwoLooks(initial, n, Idle(n, initial), run, t);
  }
}
