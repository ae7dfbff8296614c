/** Preservation of the part of the scheduler invariant that relates the store to the serial reference. */
module SchedulerData {
  import opened Common
  import opened TreeModel
  import opened Effects
  import opened Scheduler

  // ---------------------------------------------------------------- insertion

  lemma AddedNodes(t: Tree, key: Key, value: nat, deps: seq<Obj>, k: Key)
    requires k in t.keys && k != key
    ensures var u := Added(t, key, value, deps);
            k in u.keys && u.keys[k].value == t.keys[k].value && u.keys[k].deps == t.keys[k].deps
  {}

  lemma AddKeepsHist(t: Tree, hist: seq<Tx>, tx: Tx)
    requires HistInv(t, hist)
    requires tx.id != NULL_KEY && NoDup(tx.deps) && forall j :: 0 <= j < |hist| ==> hist[j].id < tx.id
    ensures HistInv(Added(t, tx.id, |hist|, tx.deps), hist + [tx])
    ensures forall k :: k in t.keys ==> k < tx.id
  {
    var u, h := Added(t, tx.id, |hist|, tx.deps), hist + [tx];
    forall k | k in t.keys
      ensures k < tx.id
    {
      assert hist[t.keys[k].value].id == k;
    }
    forall k | k in u.keys
      ensures u.keys[k].value < |h| && h[u.keys[k].value].id == k && h[u.keys[k].value].deps == u.keys[k].deps
    {
      if k != tx.id {
        AddedNodes(t, tx.id, |hist|, tx.deps, k);
      }
    }
  }

  lemma AddKeepsTasks(t: Tree, u: Tree, key: Key, value: nat, deps: seq<Obj>, tasks: map<nat, Pc>)
    requires TaskInv(t, tasks) && u == Added(t, key, value, deps) && key !in t.keys
    requires Dispensed(u) == Dispensed(t)
    ensures TaskInv(u, tasks)
  {
    hide Dispensed;
    forall a | a in tasks
      ensures tasks[a].id in u.keys && tasks[a].tr == u.keys[tasks[a].id].value
    {
      AddedNodes(t, key, value, deps, tasks[a].id);
    }
  }

  lemma TaskDataGrows(initial: Store, hist: seq<Tx>, tx: Tx, store: Store, pc: Pc)
    requires pc.IsTask() && TaskData(initial, hist, store, pc)
    ensures TaskData(initial, hist + [tx], store, pc)
  {
    var h := hist + [tx];
    assert h[..pc.tr] == hist[..pc.tr] && h[..pc.tr + 1] == hist[..pc.tr + 1];
  }

  lemma SerialSnoc(initial: Store, hist: seq<Tx>, tx: Tx, o: Obj)
    requires o !in tx.deps
    ensures Read(Serial(initial, hist + [tx]), o) == Read(Serial(initial, hist), o)
  {
    var h := hist + [tx];
    assert h[..|h| - 1] == hist;
    PartialFrame(tx, |tx.steps|, Serial(initial, hist), o);
  }

  lemma AddedFirstUser(t: Tree, key: Key, value: nat, deps: seq<Obj>, o: Obj)
    requires Inv(t) && Addable(t, key, deps)
    ensures FirstUser(Added(t, key, value, deps), o) ==
            if FirstUser(t, o) == NULL_KEY && o in deps then key else FirstUser(t, o)
    ensures forall k :: k in Users(Added(t, key, value, deps).usedIn, o) <==>
                        k in Users(t.usedIn, o) || (k == key && o in deps)
  {
    AddedUsers(t, key, value, deps, o);
    UseListFacts(t, o);
  }

  lemma AddKeepsWaitDataAt(initial: Store, t: Tree, hist: seq<Tx>, store: Store, tx: Tx, k: Key, o: Obj)
    requires Inv(t) && Addable(t, tx.id, tx.deps) && HistInv(t, hist)
    requires WaitData(initial, t, hist, store) && FreeData(initial, t, hist, store)
    requires var u := Added(t, tx.id, |hist|, tx.deps);
             k in u.keys && k !in Dispensed(u) && o in u.keys[k].deps && FirstUser(u, o) == k
    ensures var v := Added(t, tx.id, |hist|, tx.deps).keys[k].value;
            v <= |hist| && Read(store, o) == Read(Serial(initial, (hist + [tx])[..v]), o)
  {
    hide Inv, Dispensed, Added, Serial, FirstUser;
    var h := hist + [tx];
    AddEffect(t, tx.id, |hist|, tx.deps);
    AddedOwn(t, tx.id, |hist|, tx.deps);
    AddedFirstUser(t, tx.id, |hist|, tx.deps, o);
    if k == tx.id {
      assert h[..|hist|] == hist;
      NotFirst(t, tx.id, o);
    } else {
      AddedNodes(t, tx.id, |hist|, tx.deps, k);
      assert h[..t.keys[k].value] == hist[..t.keys[k].value];
    }
  }

  lemma AddKeepsWaitData(initial: Store, t: Tree, hist: seq<Tx>, store: Store, tx: Tx)
    requires Inv(t) && Addable(t, tx.id, tx.deps) && HistInv(t, hist)
    requires WaitData(initial, t, hist, store) && FreeData(initial, t, hist, store)
    ensures WaitData(initial, Added(t, tx.id, |hist|, tx.deps), hist + [tx], store)
  {
    hide Inv, Addable, Dispensed, Added, Serial, FirstUser, HistInv, FreeData;
    var u, h := Added(t, tx.id, |hist|, tx.deps), hist + [tx];
    forall k, o | k in u.keys && k !in Dispensed(u) && o in u.keys[k].deps && FirstUser(u, o) == k
      ensures u.keys[k].value <= |hist| && Read(store, o) == Read(Serial(initial, h[..u.keys[k].value]), o)
    {
      AddKeepsWaitDataAt(initial, t, hist, store, tx, k, o);
    }
  }

  lemma AddedOwn(t: Tree, key: Key, value: nat, deps: seq<Obj>)
    ensures var u := Added(t, key, value, deps);
            key in u.keys && u.keys[key].value == value && u.keys[key].deps == deps
  {}

  lemma NotFirst(t: Tree, key: Key, o: Obj)
    requires Inv(t) && key !in t.keys && key != NULL_KEY
    ensures FirstUser(t, o) != key
  {
    assert Users(t.usedIn, o) != [] ==> Users(t.usedIn, o)[0] in Users(t.usedIn, o);
  }

  lemma AddKeepsFreeData(initial: Store, t: Tree, hist: seq<Tx>, store: Store, tx: Tx)
    requires Inv(t) && Addable(t, tx.id, tx.deps) && FreeData(initial, t, hist, store)
    ensures FreeData(initial, Added(t, tx.id, |hist|, tx.deps), hist + [tx], store)
  {
    var u := Added(t, tx.id, |hist|, tx.deps);
    hide Inv;
    forall o | FirstUser(u, o) == NULL_KEY
      ensures Read(store, o) == Read(Serial(initial, hist + [tx]), o)
    {
      AddedFirstUser(t, tx.id, |hist|, tx.deps, o);
      SerialSnoc(initial, hist, tx, o);
    }
  }

  lemma AddKeepsUseOrder(t: Tree, hist: seq<Tx>, tx: Tx)
    requires Inv(t) && Addable(t, tx.id, tx.deps) && UseOrder(t, hist)
    ensures UseOrder(Added(t, tx.id, |hist|, tx.deps), hist + [tx])
  {
    var u, h := Added(t, tx.id, |hist|, tx.deps), hist + [tx];
    hide Inv;
    forall j, o, k | 0 <= j < |h| && h[j].id !in u.keys && o in h[j].deps && k in Users(u.usedIn, o) && k in u.keys
      ensures j < u.keys[k].value
    {
      AddedFirstUser(t, tx.id, |hist|, tx.deps, o);
      assert j < |hist| && hist[j].id !in t.keys;
      if k != tx.id {
        AddedNodes(t, tx.id, |hist|, tx.deps, k);
      }
    }
  }

  lemma AddKeepsData(initial: Store, t: Tree, hist: seq<Tx>, store: Store, tasks: map<nat, Pc>, tx: Tx)
    requires Inv(t) && Addable(t, tx.id, tx.deps) && HistInv(t, hist) && DataInv(initial, t, hist, store, tasks)
    ensures DataInv(initial, Added(t, tx.id, |hist|, tx.deps), hist + [tx], store, tasks)
  {
    hide Inv, Addable, WaitData, FreeData, UseOrder, TaskData;
    forall a | a in tasks
      ensures TaskData(initial, hist + [tx], store, tasks[a])
    {
      TaskDataGrows(initial, hist, tx, store, tasks[a]);
    }
    AddKeepsWaitData(initial, t, hist, store, tx);
    AddKeepsFreeData(initial, t, hist, store, tx);
    AddKeepsUseOrder(t, hist, tx);
  }

  // ---------------------------------------------------------------- dispatch

  lemma DispatchFacts(t: Tree)
    requires Inv(t) && Pending(t) != []
    ensures var id := Pending(t)[0];
            && id in t.keys && id !in Dispensed(t)
            && (forall o :: o in t.keys[id].deps ==> FirstUser(t, o) == id)
    ensures var u := Advanced(t);
            && Inv(u) && u.keys == t.keys && u.usedIn == t.usedIn && u.root == t.root
            && Dispensed(u) == Dispensed(t) + [Pending(t)[0]] && Pending(u) == Pending(t)[1..]
  {
    var id := Pending(t)[0];
    hide Inv, Dispensed, Pending;
    AdvancedCursor(t);
    RootFacts(t);
    PrefixSuffix(t);
    assert id in Pending(t);
    ReadyIsFirstUser(t, id);
  }

  lemma PrefixSuffix(t: Tree)
    requires Inv(t)
    ensures forall k :: k in Dispensed(t) ==> k !in Pending(t)
    ensures t.root == Dispensed(t) + Pending(t)
  {
    RootFacts(t);
    SplitAtCursor(t.root, t.current);
    NoDupParts(Dispensed(t), Pending(t));
  }

  lemma DispatchKeepsTasks(t: Tree, tasks: map<nat, Pc>, a: nat, pc: Pc)
    requires Inv(t) && TaskInv(t, tasks) && a !in tasks && Pending(t) != []
    requires pc.Running? && pc.id == Pending(t)[0] && pc.id in t.keys && pc.tr == t.keys[pc.id].value
    ensures TaskInv(Advanced(t), tasks[a := pc])
  {
    hide Inv, Dispensed, Pending, Advanced;
    DispatchFacts(t);
    var more := tasks[a := pc];
    forall id | id in Dispensed(Advanced(t))
      ensures exists b :: b in more && more[b].id == id
    {
      if id == pc.id {
        assert more[a].id == id;
      } else {
        var b :| b in tasks && tasks[b].id == id;
        assert more[b].id == id;
      }
    }
  }

  lemma DispatchTaskData(initial: Store, t: Tree, hist: seq<Tx>, store: Store, pc: Pc)
    requires HistInv(t, hist) && WaitData(initial, t, hist, store)
    requires pc.Running? && pc.id in t.keys && pc.id !in Dispensed(t) && pc.tr == t.keys[pc.id].value
    requires pc.done == 0 && pc.local == INITIAL
    requires forall o :: o in t.keys[pc.id].deps ==> FirstUser(t, o) == pc.id
    ensures TaskData(initial, hist, store, pc)
  {
    hide Dispensed, FirstUser, Serial;
    forall o | o in hist[pc.tr].deps
      ensures Read(store, o) == Read(Serial(initial, hist[..pc.tr]), o)
    {
      assert FirstUser(t, o) == pc.id;
    }
  }

  lemma DispatchKeepsWait(initial: Store, t: Tree, u: Tree, hist: seq<Tx>, store: Store)
    requires WaitData(initial, t, hist, store) && FreeData(initial, t, hist, store) && UseOrder(t, hist)
    requires u.keys == t.keys && u.usedIn == t.usedIn
    requires forall k :: k in Dispensed(t) ==> k in Dispensed(u)
    ensures WaitData(initial, u, hist, store) && FreeData(initial, u, hist, store) && UseOrder(u, hist)
  {
    hide Dispensed, Serial, Read;
    assert forall o :: FirstUser(u, o) == FirstUser(t, o);
  }

  lemma DispatchKeepsData(initial: Store, t: Tree, hist: seq<Tx>, store: Store, tasks: map<nat, Pc>, a: nat, pc: Pc)
    requires Inv(t) && HistInv(t, hist) && DataInv(initial, t, hist, store, tasks) && a !in tasks && Pending(t) != []
    requires pc.Running? && pc.id == Pending(t)[0] && pc.id in t.keys && pc.tr == t.keys[pc.id].value
    requires pc.done == 0 && pc.local == INITIAL
    ensures DataInv(initial, Advanced(t), hist, store, tasks[a := pc])
  {
    hide Inv, Dispensed, Pending, Advanced, HistInv, TaskData, WaitData, FreeData, UseOrder;
    DispatchFacts(t);
    DispatchTaskData(initial, t, hist, store, pc);
    DispatchKeepsWait(initial, t, Advanced(t), hist, store);
  }

  // ---------------------------------------------------------------- execution

  /** A dispensed transaction is the first user of all its objects. */
  lemma DispensedOwns(t: Tree, id: Key, o: Obj)
    requires Inv(t) && id in Dispensed(t) && id in t.keys && o in t.keys[id].deps
    ensures FirstUser(t, o) == id && id != NULL_KEY
  {
    hide Inv;
    RootFacts(t);
    ReadyIsFirstUser(t, id);
    KeyNotNull(t, id);
  }

  lemma KeyNotNull(t: Tree, id: Key)
    requires Inv(t) && id in t.keys
    ensures id != NULL_KEY
  {}

  /** Changes of `store` outside the objects of a task are invisible to it. */
  lemma TaskDataFrame(initial: Store, hist: seq<Tx>, a: Store, b: Store, pc: Pc)
    requires pc.IsTask() && TaskData(initial, hist, a, pc) && AgreeOn(a, b, hist[pc.tr].deps)
    ensures TaskData(initial, hist, b, pc)
  {
    hide Serial, Partial;
  }

  /** No two dispatched transactions share an object: a micro-step of one leaves the other's objects alone. */
  lemma OtherTaskUntouched(t: Tree, hist: seq<Tx>, tasks: map<nat, Pc>, a: nat, b: nat, o: Obj)
    requires Inv(t) && HistInv(t, hist) && TaskInv(t, tasks)
    requires a in tasks && b in tasks && a != b && tasks[a].tr < |hist| && tasks[b].tr < |hist|
    ensures !(o in hist[tasks[a].tr].deps && o in hist[tasks[b].tr].deps)
  {
    hide Inv, Dispensed, FirstUser;
    var k, l := tasks[a].id, tasks[b].id;
    if o in t.keys[k].deps && o in t.keys[l].deps {
      DispensedOwns(t, k, o);
      DispensedOwns(t, l, o);
    }
  }

  lemma RunKeepsOthers(initial: Store, t: Tree, hist: seq<Tx>, store: Store, next: Store, id: Key)
    requires Inv(t) && WaitData(initial, t, hist, store) && FreeData(initial, t, hist, store)
    requires id in t.keys && id in Dispensed(t)
    requires forall o :: o !in t.keys[id].deps ==> Read(next, o) == Read(store, o)
    ensures WaitData(initial, t, hist, next) && FreeData(initial, t, hist, next)
  {
    hide Inv, Dispensed, FirstUser, Serial, Read;
    forall o | o in t.keys[id].deps
      ensures FirstUser(t, o) == id && id != NULL_KEY
    {
      DispensedOwns(t, id, o);
    }
    assert WaitData(initial, t, hist, next);
    assert FreeData(initial, t, hist, next);
  }

  lemma RunKeepsTaskData(initial: Store, t: Tree, hist: seq<Tx>, store: Store, tasks: map<nat, Pc>, a: nat)
    requires Inv(t) && HistInv(t, hist) && TaskInv(t, tasks)
    requires forall b :: b in tasks ==> tasks[b].IsTask() && TaskData(initial, hist, store, tasks[b])
    requires a in tasks && tasks[a].Running? && tasks[a].tr < |hist| && tasks[a].done < |hist[tasks[a].tr].steps|
    ensures var pc := tasks[a];
            var (local, next) := DoStep(hist[pc.tr], pc.done, pc.local, store);
            var more := tasks[a := pc.(done := pc.done + 1, local := local)];
            && (forall b :: b in more ==> more[b].IsTask() && TaskData(initial, hist, next, more[b]))
            && (forall o :: o !in hist[pc.tr].deps ==> Read(next, o) == Read(store, o))
  {
    hide Inv, HistInv, TaskInv, DoStep, Partial, Serial, Read;
    var pc := tasks[a];
    var tx := hist[pc.tr];
    var (local, next) := DoStep(tx, pc.done, pc.local, store);
    PartialStep(tx, pc.done, Serial(initial, hist[..pc.tr]), pc.local, store);
    forall o | o !in tx.deps
      ensures Read(next, o) == Read(store, o)
    {
      DoStepFrame(tx, pc.done, pc.local, store, o);
    }
    forall b | b in tasks && b != a
      ensures TaskData(initial, hist, next, tasks[b])
    {
      forall o | o in hist[tasks[b].tr].deps
        ensures Read(store, o) == Read(next, o)
      {
        OtherTaskUntouched(t, hist, tasks, a, b, o);
      }
      TaskDataFrame(initial, hist, store, next, tasks[b]);
    }
  }

  lemma TaskNode(t: Tree, hist: seq<Tx>, tasks: map<nat, Pc>, a: nat)
    requires HistInv(t, hist) && TaskInv(t, tasks) && a in tasks && tasks[a].tr < |hist|
    ensures tasks[a].id in t.keys && tasks[a].id in Dispensed(t) && hist[tasks[a].tr].deps == t.keys[tasks[a].id].deps
  {
    hide Dispensed;
  }

  lemma RunKeepsData(initial: Store, t: Tree, hist: seq<Tx>, store: Store, tasks: map<nat, Pc>, a: nat)
    requires Inv(t) && HistInv(t, hist) && TaskInv(t, tasks) && DataInv(initial, t, hist, store, tasks)
    requires a in tasks && tasks[a].Running? && tasks[a].tr < |hist| && tasks[a].done < |hist[tasks[a].tr].steps|
    ensures var pc := tasks[a];
            var (local, next) := DoStep(hist[pc.tr], pc.done, pc.local, store);
            DataInv(initial, t, hist, next, tasks[a := pc.(done := pc.done + 1, local := local)])
  {
    hide Inv, HistInv, TaskInv, DoStep, TaskData, WaitData, FreeData, UseOrder, Dispensed, Read;
    var pc := tasks[a];
    TaskNode(t, hist, tasks, a);
    RunKeepsTaskData(initial, t, hist, store, tasks, a);
    var (local, next) := DoStep(hist[pc.tr], pc.done, pc.local, store);
    RunKeepsOthers(initial, t, hist, store, next, pc.id);
  }

  lemma FinishKeepsData(initial: Store, t: Tree, hist: seq<Tx>, store: Store, tasks: map<nat, Pc>, a: nat)
    requires DataInv(initial, t, hist, store, tasks)
    requires a in tasks && tasks[a].Running? && tasks[a].tr < |hist| && tasks[a].done >= |hist[tasks[a].tr].steps|
    ensures DataInv(initial, t, hist, store, tasks[a := Returned(tasks[a].id, tasks[a].tr)])
  {
    hide WaitData, FreeData, UseOrder, Serial, Partial;
    SerialNext(initial, hist, tasks[a].tr);
  }

  lemma SameIdsKeepTasks(t: Tree, tasks: map<nat, Pc>, a: nat, pc: Pc)
    requires TaskInv(t, tasks) && a in tasks && pc.IsTask() && pc.id == tasks[a].id && pc.tr == tasks[a].tr
    ensures TaskInv(t, tasks[a := pc])
  {
    hide Dispensed;
    var more := tasks[a := pc];
    forall id | id in Dispensed(t)
      ensures exists b :: b in more && more[b].id == id
    {
      var b :| b in tasks && tasks[b].id == id;
      assert more[b].id == id;
    }
  }

  // ---------------------------------------------------------------- removal

  lemma RemovedNodes(t: Tree, key: Key, k: Key)
    requires key in t.keys && k in t.keys && k != key
    ensures var u := Removed(t, key);
            k in u.keys && u.keys[k].value == t.keys[k].value && u.keys[k].deps == t.keys[k].deps
  {}

  lemma RemoveKeepsHist(t: Tree, hist: seq<Tx>, key: Key)
    requires HistInv(t, hist) && key in t.keys
    ensures HistInv(Removed(t, key), hist)
  {
    var u := Removed(t, key);
    forall k | k in u.keys
      ensures u.keys[k].value < |hist| && hist[u.keys[k].value].id == k && hist[u.keys[k].value].deps == u.keys[k].deps
    {
      RemovedNodes(t, key, k);
    }
  }

  lemma RemoveKeepsTasks(t: Tree, tasks: map<nat, Pc>, a: nat)
    requires Inv(t) && TaskInv(t, tasks) && a in tasks
    ensures TaskInv(Removed(t, tasks[a].id), tasks - {a})
  {
    hide Inv, Dispensed;
    var key := tasks[a].id;
    var u, rest := Removed(t, key), tasks - {a};
    RemoveEffect(t, key);
    DispensedNoDup(t);
    WithoutMembers(Dispensed(t), key);
    forall b | b in rest
      ensures rest[b].id in Dispensed(u) && rest[b].id in u.keys && rest[b].tr == u.keys[rest[b].id].value
    {
      RemovedNodes(t, key, rest[b].id);
    }
    forall id | id in Dispensed(u)
      ensures exists b :: b in rest && rest[b].id == id
    {
      var b :| b in tasks && tasks[b].id == id;
      assert b in rest && rest[b].id == id;
    }
  }

  lemma DispensedNoDup(t: Tree)
    requires Inv(t)
    ensures NoDup(Dispensed(t))
  {
    RootFacts(t);
    SplitAtCursor(t.root, t.current);
    NoDupParts(Dispensed(t), Pending(t));
  }

  /** After the removal of a ready transaction the next user of each of its objects is first. */
  lemma RemovedFirstUser(t: Tree, key: Key, o: Obj)
    requires Inv(t) && key in Dispensed(t) && key in t.keys
    ensures var list := Users(t.usedIn, o);
            var rest := Users(Removed(t, key).usedIn, o);
            if o in t.keys[key].deps then list != [] && list[0] == key && rest == list[1..] else rest == list
  {
    hide Inv, Dispensed;
    RemovedUsersAt(t, key, o);
    if o in t.keys[key].deps {
      DispensedOwns(t, key, o);
      UsersAscending(t, o);
      WithoutAt(Users(t.usedIn, o), 0);
    }
  }

  lemma RemovedUsersAt(t: Tree, key: Key, o: Obj)
    requires Inv(t) && key in t.keys
    ensures Users(Removed(t, key).usedIn, o) == Without(Users(t.usedIn, o), key)
    ensures o !in t.keys[key].deps ==> Without(Users(t.usedIn, o), key) == Users(t.usedIn, o)
  {
    RemovedUsers(t, key, o);
  }

  lemma UsersAscending(t: Tree, o: Obj)
    requires Inv(t)
    ensures Ascending(Users(t.usedIn, o)) && NoDup(Users(t.usedIn, o)) && NULL_KEY !in Users(t.usedIn, o)
    ensures forall k :: k in Users(t.usedIn, o) <==> k in t.keys && o in t.keys[k].deps
  {
    UseListFacts(t, o);
  }

  /** No transaction between two neighbours in a use list, finished or pending, declares the object. */
  lemma NobodyBetween(t: Tree, hist: seq<Tx>, o: Obj, j: nat)
    requires Inv(t) && HistInv(t, hist) && UseOrder(t, hist)
    requires Users(t.usedIn, o) != [] && j < |hist| && o in hist[j].deps
    requires Users(t.usedIn, o)[0] in t.keys && t.keys[Users(t.usedIn, o)[0]].value < j
    ensures hist[j].id in Users(t.usedIn, o)[1..]
    ensures hist[j].id in t.keys && t.keys[hist[j].id].value == j
  {
    hide Inv;
    UsersAscending(t, o);
    var list := Users(t.usedIn, o);
    var k := hist[j].id;
    assert list[0] in list;
    assert k in t.keys;
    var v := t.keys[k].value;
    assert hist[v].id == k;
    assert v == j;
    assert k in list && k != list[0];
    assert list == [list[0]] + list[1..];
  }

  lemma ValueOrder(t: Tree, hist: seq<Tx>, k: Key, l: Key)
    requires HistInv(t, hist) && k in t.keys && l in t.keys && k < l
    ensures t.keys[k].value < t.keys[l].value
  {
    var v, w := t.keys[k].value, t.keys[l].value;
    assert hist[v].id == k && hist[w].id == l;
  }

  lemma RemoveKeepsUseOrder(t: Tree, hist: seq<Tx>, key: Key)
    requires Inv(t) && HistInv(t, hist) && UseOrder(t, hist) && key in Dispensed(t) && key in t.keys
    ensures UseOrder(Removed(t, key), hist)
  {
    hide Inv, HistInv, Dispensed, Removed, Pending;
    var u := Removed(t, key);
    RemoveEffect(t, key);
    forall j, o, k | 0 <= j < |hist| && hist[j].id !in u.keys && o in hist[j].deps &&
                     k in Users(u.usedIn, o) && k in u.keys
      ensures j < u.keys[k].value
    {
      RemoveKeepsUseAt(t, hist, key, j, o, k);
    }
  }

  lemma RemoveKeepsUseAt(t: Tree, hist: seq<Tx>, key: Key, j: nat, o: Obj, k: Key)
    requires Inv(t) && HistInv(t, hist) && UseOrder(t, hist) && key in Dispensed(t) && key in t.keys
    requires var u := Removed(t, key);
             j < |hist| && hist[j].id !in u.keys && o in hist[j].deps && k in Users(u.usedIn, o) && k in u.keys
    ensures j < Removed(t, key).keys[k].value
  {
    hide Inv, Dispensed, Removed, Pending;
    RemoveEffect(t, key);
    RemovedFirstUser(t, key, o);
    RemovedNodes(t, key, k);
    UsersAscending(t, o);
    if hist[j].id == key {
      var v := t.keys[key].value;
      assert hist[v].id == key && v == j;
      ValueOrder(t, hist, key, k);
    }
  }

  /** The value a removed transaction leaves in `o` is the serial value at any later point up to which
      nobody else declares `o`. */
  lemma LeftBehind(initial: Store, t: Tree, hist: seq<Tx>, store: Store, key: Key, o: Obj, hi: nat)
    requires key in t.keys && t.keys[key].value < hi <= |hist| && o in hist[t.keys[key].value].deps
    requires AgreeOn(store, Serial(initial, hist[..t.keys[key].value + 1]), hist[t.keys[key].value].deps)
    requires forall j :: t.keys[key].value < j < hi ==> o !in hist[j].deps
    ensures Read(store, o) == Read(Serial(initial, hist[..hi]), o)
  {
    SerialFrame(initial, hist, t.keys[key].value + 1, hi, o);
  }

  lemma RemoveWaitAt(initial: Store, t: Tree, hist: seq<Tx>, store: Store, key: Key, o: Obj)
    requires Inv(t) && HistInv(t, hist) && UseOrder(t, hist) && key in Dispensed(t) && key in t.keys
    requires AgreeOn(store, Serial(initial, hist[..t.keys[key].value + 1]), hist[t.keys[key].value].deps)
    requires o in t.keys[key].deps
    ensures var list := Users(t.usedIn, o);
            if |list| == 1 then Read(store, o) == Read(Serial(initial, hist), o)
            else |list| > 1 && list[1] in t.keys && t.keys[list[1]].value < |hist| &&
                 Read(store, o) == Read(Serial(initial, hist[..t.keys[list[1]].value]), o)
  {
    hide Inv, Dispensed, Serial, AgreeOn;
    var list, v := Users(t.usedIn, o), t.keys[key].value;
    RemovedFirstUser(t, key, o);
    UsersAscending(t, o);
    assert hist[v].id == key;
    var hi := if |list| == 1 then |hist| else t.keys[list[1]].value;
    if |list| > 1 {
      assert list[1] in list;
      ValueOrder(t, hist, key, list[1]);
    }
    forall j | v < j < hi
      ensures o !in hist[j].deps
    {
      if o in hist[j].deps {
        NobodyBetween(t, hist, o, j);
      }
    }
    LeftBehind(initial, t, hist, store, key, o, hi);
    assert hist[..|hist|] == hist;
  }

  lemma RemoveKeepsWait(initial: Store, t: Tree, hist: seq<Tx>, store: Store, key: Key)
    requires Inv(t) && HistInv(t, hist) && UseOrder(t, hist) && key in Dispensed(t) && key in t.keys
    requires AgreeOn(store, Serial(initial, hist[..t.keys[key].value + 1]), hist[t.keys[key].value].deps)
    requires WaitData(initial, t, hist, store)
    ensures WaitData(initial, Removed(t, key), hist, store)
  {
    hide Inv, Dispensed, Serial, AgreeOn, Removed, HistInv, UseOrder, Read;
    var u := Removed(t, key);
    RemoveEffect(t, key);
    DispensedNoDup(t);
    WithoutMembers(Dispensed(t), key);
    forall k, o | k in u.keys && k !in Dispensed(u) && o in u.keys[k].deps && FirstUser(u, o) == k
      ensures u.keys[k].value < |hist| ==> Read(store, o) == Read(Serial(initial, hist[..u.keys[k].value]), o)
    {
      RemovedFirstUser(t, key, o);
      RemovedNodes(t, key, k);
      KeyNotNull(t, k);
      if o in t.keys[key].deps {
        RemoveWaitAt(initial, t, hist, store, key, o);
      } else {
        assert FirstUser(t, o) == k;
      }
    }
  }

  lemma RemoveKeepsFree(initial: Store, t: Tree, hist: seq<Tx>, store: Store, key: Key)
    requires Inv(t) && HistInv(t, hist) && UseOrder(t, hist) && key in Dispensed(t) && key in t.keys
    requires AgreeOn(store, Serial(initial, hist[..t.keys[key].value + 1]), hist[t.keys[key].value].deps)
    requires FreeData(initial, t, hist, store)
    ensures FreeData(initial, Removed(t, key), hist, store)
  {
    hide Inv, Dispensed, Serial, AgreeOn, Removed, HistInv, UseOrder, Read;
    var u := Removed(t, key);
    forall o | FirstUser(u, o) == NULL_KEY
      ensures Read(store, o) == Read(Serial(initial, hist), o)
    {
      RemovedFirstUser(t, key, o);
      UsersAscending(t, o);
      if o in t.keys[key].deps {
        RemoveWaitAt(initial, t, hist, store, key, o);
      } else {
        assert FirstUser(t, o) == NULL_KEY;
      }
    }
  }

  lemma RemoveKeepsData(initial: Store, t: Tree, hist: seq<Tx>, store: Store, tasks: map<nat, Pc>, a: nat)
    requires Inv(t) && HistInv(t, hist) && TaskInv(t, tasks) && DataInv(initial, t, hist, store, tasks)
    requires a in tasks && tasks[a].Returned?
    ensures DataInv(initial, Removed(t, tasks[a].id), hist, store, tasks - {a})
  {
    hide Inv, HistInv, Dispensed, WaitData, FreeData, UseOrder, Serial, AgreeOn, Removed;
    var key := tasks[a].id;
    assert TaskData(initial, hist, store, tasks[a]);
    RemoveKeepsUseOrder(t, hist, key);
    RemoveKeepsWait(initial, t, hist, store, key);
    RemoveKeepsFree(initial, t, hist, store, key);
  }
}
