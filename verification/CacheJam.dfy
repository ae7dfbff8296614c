/**
Progress of the lock-free cache of src/InterLockCache.h.  With several threads the ring can jam, and then no push ever
completes.  One pop and one push at a time cannot jam it; nothing less is enough.
*/
module CacheJam {
  import opened Common
  import opened LockFreeCache
  import opened SoloCache
  import RingCache

  // ---------------------------------------------------------------- when a push completes

  /** `n` moves of the thread alone without spurious failures. */
  function Alone(s: Cache, t: Thread, n: nat): Cache
    decreases n
  {
    if n == 0 || t !in s.threads then s else Alone(MoveStep(s, t, false), t, n - 1)
  }

  /** A thread that starts to push and moves alone completes if and only if the ring is full or the node at nextNull_
      is empty. */
  lemma SoloPushCompletesIff(s: Cache, t: Thread, val: Obj)
    requires t in s.threads && s.threads[t] == PushStart(val) && s.empty < |s.nodes|
    ensures (exists n: nat :: t !in Alone(s, t, n).threads) <==> Next(s, s.empty) == s.free || s.nodes[s.empty].None?
  {
    hide Alone;
    if Next(s, s.empty) == s.free {
      FullCompletes(s, t, val);
    } else if s.nodes[s.empty].None? {
      EmptyCompletes(s, t, val);
    } else {
      forall n: nat
        ensures t in Alone(s, t, n).threads
      {
        OccupiedNever(s, t, val, n);
      }
    }
  }

  lemma FullCompletes(s: Cache, t: Thread, val: Obj)
    requires t in s.threads && s.threads[t] == PushStart(val) && Next(s, s.empty) == s.free
    ensures t !in Alone(s, t, 3).threads
  {
    var s1 := At(s, t, PushLoaded(val, s.empty));
    var s2 := At(s1, t, PushFull(val));
    assert MoveStep(s, t, false) == s1 && MoveStep(s1, t, false) == s2 && t !in MoveStep(s2, t, false).threads;
    assert Alone(s, t, 3) == Alone(s1, t, 2) == Alone(s2, t, 1) == Alone(MoveStep(s2, t, false), t, 0);
  }

  lemma EmptyCompletes(s: Cache, t: Thread, val: Obj)
    requires t in s.threads && s.threads[t] == PushStart(val) && Next(s, s.empty) != s.free
    requires s.empty < |s.nodes| && s.nodes[s.empty].None?
    ensures t !in Alone(s, t, 4).threads
  {
    var s1 := At(s, t, PushLoaded(val, s.empty));
    var s2 := At(s1, t, PushTrying(val, s.empty, s.free));
    var s3 := MoveStep(s2, t, false);
    assert MoveStep(s, t, false) == s1 && MoveStep(s1, t, false) == s2 && t !in MoveStep(s3, t, false).threads;
    assert Alone(s, t, 4) == Alone(s1, t, 3) == Alone(s2, t, 2) == Alone(s3, t, 1);
    assert Alone(s3, t, 1) == Alone(MoveStep(s3, t, false), t, 0);
  }

  lemma {:induction false} OccupiedNever(s: Cache, t: Thread, val: Obj, n: nat)
    requires t in s.threads && s.threads[t] == PushStart(val) && Next(s, s.empty) != s.free
    requires s.empty < |s.nodes| && s.nodes[s.empty].Some?
    ensures t in Alone(s, t, n).threads
  {
    var s1 := At(s, t, PushLoaded(val, s.empty));
    var s2 := At(s1, t, PushTrying(val, s.empty, s.free));
    assert MoveStep(s, t, false) == s1 && MoveStep(s1, t, false) == s2;
    assert MoveStep(s2, t, false) == s by { assert s2.threads[t := PushStart(val)] == s.threads; }
    if n >= 3 {
      OccupiedNever(s, t, val, n - 3);
      assert Alone(s, t, n) == Alone(s1, t, n - 1) == Alone(s2, t, n - 2) == Alone(s, t, n - 3);
    } else {
      assert n > 0 ==> Alone(s, t, n) == Alone(s1, t, n - 1);
      assert n > 1 ==> Alone(s1, t, n - 1) == Alone(s2, t, n - 2);
    }
  }

  // ---------------------------------------------------------------- the jam

  /** Both pointers are at an occupied node and every thread is where it can only see that. */
  ghost predicate Jammed(s: Cache) {
    && 2 <= |s.nodes| && s.free == s.empty < |s.nodes| && s.nodes[s.empty].Some?
    && forall t :: t in s.threads ==> Waits(s, s.threads[t])
  }

  predicate Waits(s: Cache, pc: Pc) {
    match pc
    case PopStart => true
    case PopLoaded(cur) => cur == s.empty
    case PushStart(_) => true
    case PushLoaded(_, at) => at == s.empty
    case PushTrying(_, at, _) => at == s.empty
    case _ => false
  }

  /** The object that a thread is pushing. */
  function Pushing(s: Cache, t: Thread): Option<Obj> {
    if t in s.threads && (s.threads[t].PushStart? || s.threads[t].PushLoaded? || s.threads[t].PushTrying?) then
      Some(s.threads[t].val)
    else None
  }

  lemma JamKept(s: Cache, l: Label)
    requires Jammed(s) && Enabled(s, l)
    ensures var n := Step(s, l);
            && Jammed(n) && n.nodes == s.nodes && n.free == s.free && n.empty == s.empty
            && forall t :: Pushing(s, t).Some? ==> Pushing(n, t) == Pushing(s, t)
  {}

  /** In a jam nothing changes the ring any more, and no push that has started ever completes, in any interleaving. */
  lemma {:induction false} JamForever(s: Cache, run: seq<Label>, u: Cache)
    requires Jammed(s) && Reaches(s, run, u)
    ensures Jammed(u) && u.nodes == s.nodes && u.free == s.free && u.empty == s.empty
    ensures forall t :: Pushing(s, t).Some? ==> Pushing(u, t) == Pushing(s, t)
    decreases |run|
  {
    hide Jammed, Step, Enabled, Pushing;
    if run != [] {
      JamKept(s, run[0]);
      JamForever(Step(s, run[0]), run[1..], u);
    }
  }

  // ---------------------------------------------------------------- how it comes about

  function SlowPush(t: Thread, val: Obj): seq<Label> {
    [BeginPush(t, val)] + [Move(t, false)] + [Move(t, false)]
  }

  /** A push that is overtaken before its compare-and-exchange. */
  function Delayed(s: Cache, t: Thread, val: Obj): Cache {
    At(s, t, PushTrying(val, s.empty, s.free)).(held := s.held - {val})
  }

  lemma DelayPush(s: Cache, t: Thread, val: Obj, r: Rule)
    requires Obeys(s, BeginPush(t, val), r) && Next(s, s.empty) != s.free
    ensures Obeyed(s, SlowPush(t, val), Delayed(s, t, val), r)
  {
    hide Obeyed;
    var s0 := Given(s, t, val);
    var s1 := At(s0, t, PushLoaded(val, s.empty));
    assert Step(s0, Move(t, false)) == s1 && Step(s1, Move(t, false)) == Delayed(s, t, val);
    OneStep(s, BeginPush(t, val), r);
    StepAfter(s, [BeginPush(t, val)], s0, Move(t, false), s1, r);
    StepAfter(s, [BeginPush(t, val)] + [Move(t, false)], s1, Move(t, false), Delayed(s, t, val), r);
  }

  function FinishRun(t: Thread): seq<Label> {
    [Move(t, false)] + [Move(t, false)]
  }

  /** The overtaken push stores into the node it saw, which is the one before nextFree_ by now. */
  lemma FinishDelayed(s: Cache, t: Thread, val: Obj, free: nat, r: Rule)
    requires t in s.threads && s.threads[t] == PushTrying(val, s.empty, free)
    requires s.empty < |s.nodes| && s.nodes[s.empty].None?
    ensures Obeyed(s, FinishRun(t), s.(nodes := s.nodes[s.empty := Some(val)], empty := Next(s, s.empty),
                                        threads := s.threads - {t}), r)
  {
    hide Obeyed;
    var s1 := At(s, t, PushStored(s.empty)).(nodes := s.nodes[s.empty := Some(val)]);
    var s2 := s.(nodes := s.nodes[s.empty := Some(val)], empty := Next(s, s.empty), threads := s.threads - {t});
    assert Step(s, Move(t, false)) == s1;
    assert s1.threads - {t} == s.threads - {t};
    assert Step(s1, Move(t, false)) == s2;
    OneStep(s, Move(t, false), r);
    StepAfter(s, [Move(t, false)], s1, Move(t, false), s2, r);
  }

  const ONE_POP: Rule := Rule(true, false)
  const ONE_PUSH: Rule := Rule(false, true)
  const ONE_EACH: Rule := Rule(true, true)

  /** One pop at a time: the two objects of a new cache are handed out, and thread 1 is overtaken while it pushes. */
  lemma JamBegins() returns (run: seq<Label>, s: Cache)
    ensures Obeyed(Created(1), run, s, ONE_POP)
    ensures s == Cache([None, None, None], 2, 2, 2, map[1 := PushTrying(1, 2, 2)], map[0 := 0], {})
  {
    hide Obeyed;
    var c0 := Created(1);
    assert c0.nodes == [Some(0), Some(1), None];
    PopAlone(c0, 0, ONE_POP);
    var c1 := Popped(c0, 0);
    assert c1 == Cache([None, Some(1), None], 1, 2, 2, map[], map[0 := 0], {});
    PopAlone(c1, 1, ONE_POP);
    var c2 := Popped(c1, 1);
    assert c2 == Cache([None, None, None], 2, 2, 2, map[], map[0 := 0, 1 := 1], {});
    DelayPush(c2, 1, 1, ONE_POP);
    s := Delayed(c2, 1, 1);
    assert s.held == map[0 := 0];
    ObeyedConcat(c0, PopRun(0), c1, PopRun(1), c2, ONE_POP);
    run := PopRun(0) + PopRun(1) + SlowPush(1, 1);
    ObeyedConcat(c0, PopRun(0) + PopRun(1), c2, SlowPush(1, 1), s, ONE_POP);
  }

  /** Meanwhile thread 0 pushes and pops once around the ring. */
  lemma JamTurns(s: Cache) returns (run: seq<Label>, u: Cache)
    requires s == Cache([None, None, None], 2, 2, 2, map[1 := PushTrying(1, 2, 2)], map[0 := 0], {})
    ensures Obeyed(s, run, u, ONE_POP)
    ensures u == Cache([None, None, None], 0, 0, 3, map[1 := PushTrying(1, 2, 2)], map[0 := 0, 2 := 0], {})
  {
    hide Obeyed;
    PushAlone(s, 0, 0, 0, ONE_POP);
    var d1 := Pushed(s, 0);
    assert d1 == Cache([None, None, Some(0)], 2, 0, 2, map[1 := PushTrying(1, 2, 2)], map[], {});
    PopAlone(d1, 0, ONE_POP);
    var d2 := Popped(d1, 0);
    assert d2 == Cache([None, None, None], 0, 0, 2, map[1 := PushTrying(1, 2, 2)], map[0 := 0], {});
    AllocateAlone(d2, 0, ONE_POP);
    u := Allocated(d2, 0);
    assert u.held == map[0 := 0, 2 := 0];
    ObeyedConcat(s, PushRun(0, 0, 0), d1, PopRun(0), d2, ONE_POP);
    run := PushRun(0, 0, 0) + PopRun(0) + AllocateRun(0);
    ObeyedConcat(s, PushRun(0, 0, 0) + PopRun(0), d2, AllocateRun(0), u, ONE_POP);
  }

  /** It fills the ring but for the node that thread 1 saw, and thread 1 completes. */
  lemma JamEnds(u: Cache) returns (run: seq<Label>, t: Cache)
    requires u == Cache([None, None, None], 0, 0, 3, map[1 := PushTrying(1, 2, 2)], map[0 := 0, 2 := 0], {})
    ensures Obeyed(u, run, t, ONE_POP)
    ensures t == Cache([Some(0), Some(2), Some(1)], 0, 0, 3, map[], map[], {})
  {
    hide Obeyed;
    PushAlone(u, 0, 0, 0, ONE_POP);
    var e1 := Pushed(u, 0);
    assert e1 == Cache([Some(0), None, None], 0, 1, 3, map[1 := PushTrying(1, 2, 2)], map[2 := 0], {});
    PushAlone(e1, 0, 2, 0, ONE_POP);
    var e2 := Pushed(e1, 2);
    assert e2 == Cache([Some(0), Some(2), None], 0, 2, 3, map[1 := PushTrying(1, 2, 2)], map[], {});
    FinishDelayed(e2, 1, 1, 2, ONE_POP);
    t := e2.(nodes := e2.nodes[e2.empty := Some(1)], empty := Next(e2, e2.empty), threads := e2.threads - {1});
    assert t.threads == map[];
    assert t.nodes == [Some(0), Some(2), Some(1)];
    ObeyedConcat(u, PushRun(0, 0, 0), e1, PushRun(0, 2, 0), e2, ONE_POP);
    run := PushRun(0, 0, 0) + PushRun(0, 2, 0) + FinishRun(1);
    ObeyedConcat(u, PushRun(0, 0, 0) + PushRun(0, 2, 0), e2, FinishRun(1), t, ONE_POP);
  }

  /** The ring of some cache jams in a run that obeys the rule. */
  ghost predicate CanJam(r: Rule) {
    exists size: nat, run, t :: Obeyed(Created(size), run, t, r) && Jammed(t)
  }

  /** Two pushes at a time are enough: a cache created for one object jams with three objects. */
  lemma JamsWithOnePop()
    ensures CanJam(ONE_POP)
  {
    hide Obeyed;
    var a, s := JamBegins();
    var b, u := JamTurns(s);
    var c, t := JamEnds(u);
    ObeyedConcat(Created(1), a, s, b, u, ONE_POP);
    ObeyedConcat(Created(1), a + b, u, c, t, ONE_POP);
    assert Jammed(t);
  }

  // ---------------------------------------------------------------- one push at a time

  function SlowPop(t: Thread): seq<Label> {
    [BeginPop(t)] + [Move(t, false)] + [Move(t, false)]
  }

  lemma DelayPop(s: Cache, t: Thread, r: Rule)
    requires Obeys(s, BeginPop(t), r) && s.free != s.empty
    ensures Obeyed(s, SlowPop(t), At(s, t, PopTaking(s.free)), r)
  {
    hide Obeyed;
    var s1, s2, s3 := At(s, t, PopStart), At(s, t, PopLoaded(s.free)), At(s, t, PopTaking(s.free));
    assert Step(s, BeginPop(t)) == s1 && Step(s1, Move(t, false)) == s2 && Step(s2, Move(t, false)) == s3;
    OneStep(s, BeginPop(t), r);
    StepAfter(s, [BeginPop(t)], s1, Move(t, false), s2, r);
    StepAfter(s, [BeginPop(t)] + [Move(t, false)], s2, Move(t, false), s3, r);
  }

  /** Thread 1 is overtaken by a pop of the same node and finds it empty. */
  lemma SkipBegins() returns (run: seq<Label>, s: Cache)
    ensures Obeyed(Created(0), run, s, ONE_PUSH)
    ensures s == Cache([None, None], 1, 1, 2, map[1 := PopTook(0, None)], map[0 := 0, 1 := 0], {})
  {
    hide Obeyed;
    var c0 := Created(0);
    assert c0 == Cache([Some(0), None], 0, 1, 1, map[], map[], {});
    DelayPop(c0, 1, ONE_PUSH);
    var c1 := At(c0, 1, PopTaking(0));
    PopAlone(c1, 0, ONE_PUSH);
    var c2 := Popped(c1, 0);
    assert c2 == Cache([None, None], 1, 1, 1, map[1 := PopTaking(0)], map[0 := 0], {});
    var c3 := Cache([None, None], 1, 1, 1, map[1 := PopTook(0, None)], map[0 := 0], {});
    assert Step(c2, Move(1, false)) == c3;
    AllocateAlone(c3, 0, ONE_PUSH);
    s := Allocated(c3, 0);
    assert s.held == map[0 := 0, 1 := 0];
    ObeyedConcat(c0, SlowPop(1), c1, PopRun(0), c2, ONE_PUSH);
    StepAfter(c0, SlowPop(1) + PopRun(0), c2, Move(1, false), c3, ONE_PUSH);
    run := SlowPop(1) + PopRun(0) + [Move(1, false)] + AllocateRun(0);
    ObeyedConcat(c0, SlowPop(1) + PopRun(0) + [Move(1, false)], c3, AllocateRun(0), s, ONE_PUSH);
  }

  /** The ring turns until nextFree_ is at that node again, now occupied, and thread 1 skips it. */
  lemma SkipHappens(s: Cache) returns (run: seq<Label>, u: Cache)
    requires s == Cache([None, None], 1, 1, 2, map[1 := PopTook(0, None)], map[0 := 0, 1 := 0], {})
    ensures Obeyed(s, run, u, ONE_PUSH)
    ensures u == Cache([Some(0), None], 1, 1, 2, map[1 := PopStart], map[1 := 0], {})
  {
    hide Obeyed;
    PushAlone(s, 0, 0, 0, ONE_PUSH);
    var d1 := Pushed(s, 0);
    assert d1 == Cache([None, Some(0)], 1, 0, 2, map[1 := PopTook(0, None)], map[1 := 0], {});
    PopAlone(d1, 0, ONE_PUSH);
    var d2 := Popped(d1, 0);
    assert d2 == Cache([None, None], 0, 0, 2, map[1 := PopTook(0, None)], map[0 := 0, 1 := 0], {});
    PushAlone(d2, 0, 0, 0, ONE_PUSH);
    var d3 := Pushed(d2, 0);
    assert d3 == Cache([Some(0), None], 0, 1, 2, map[1 := PopTook(0, None)], map[1 := 0], {});
    u := Cache([Some(0), None], 1, 1, 2, map[1 := PopStart], map[1 := 0], {});
    assert Step(d3, Move(1, false)) == u;
    ObeyedConcat(s, PushRun(0, 0, 0), d1, PopRun(0), d2, ONE_PUSH);
    ObeyedConcat(s, PushRun(0, 0, 0) + PopRun(0), d2, PushRun(0, 0, 0), d3, ONE_PUSH);
    run := PushRun(0, 0, 0) + PopRun(0) + PushRun(0, 0, 0) + [Move(1, false)];
    StepAfter(s, PushRun(0, 0, 0) + PopRun(0) + PushRun(0, 0, 0), d3, Move(1, false), u, ONE_PUSH);
  }

  function FinishPop(t: Thread): seq<Label> {
    [Move(t, false)] + [Move(t, false)] + [Move(t, false)] + [Move(t, false)]
  }

  /** One more push and pop bring both pointers to the node that was skipped. */
  lemma SkipEnds(u: Cache) returns (run: seq<Label>, t: Cache)
    requires u == Cache([Some(0), None], 1, 1, 2, map[1 := PopStart], map[1 := 0], {})
    ensures Obeyed(u, run, t, ONE_PUSH)
    ensures t == Cache([Some(0), None], 0, 0, 2, map[], map[1 := 1], {})
  {
    hide Obeyed;
    PushAlone(u, 0, 1, 0, ONE_PUSH);
    var e0 := Pushed(u, 1);
    assert e0 == Cache([Some(0), Some(1)], 1, 0, 2, map[1 := PopStart], map[], {});
    var e1 := e0.(threads := map[1 := PopLoaded(1)]);
    var e2 := e0.(threads := map[1 := PopTaking(1)]);
    var e3 := e0.(threads := map[1 := PopTook(1, Some(1))], nodes := [Some(0), None]);
    t := Cache([Some(0), None], 0, 0, 2, map[], map[1 := 1], {});
    assert Step(e0, Move(1, false)) == e1 && Step(e1, Move(1, false)) == e2 && Step(e2, Move(1, false)) == e3;
    assert e3.threads - {1} == map[];
    assert Step(e3, Move(1, false)) == t;
    OneStep(e0, Move(1, false), ONE_PUSH);
    StepAfter(e0, [Move(1, false)], e1, Move(1, false), e2, ONE_PUSH);
    StepAfter(e0, [Move(1, false)] + [Move(1, false)], e2, Move(1, false), e3, ONE_PUSH);
    StepAfter(e0, [Move(1, false)] + [Move(1, false)] + [Move(1, false)], e3, Move(1, false), t, ONE_PUSH);
    run := PushRun(0, 1, 0) + FinishPop(1);
    ObeyedConcat(u, PushRun(0, 1, 0), e0, FinishPop(1), t, ONE_PUSH);
  }

  /** Two pops at a time are enough as well: a cache created for no object jams with two objects. */
  lemma JamsWithOnePush()
    ensures CanJam(ONE_PUSH)
  {
    hide Obeyed;
    var a, s := SkipBegins();
    var b, u := SkipHappens(s);
    var c, t := SkipEnds(u);
    ObeyedConcat(Created(0), a, s, b, u, ONE_PUSH);
    ObeyedConcat(Created(0), a + b, u, c, t, ONE_PUSH);
    assert Jammed(t);
  }

  // ---------------------------------------------------------------- one of each at a time

  /** The ring from nextFree_ to nextNull_ is occupied, but for a front that is taken already (`took`), and a node
      behind it that is stored already (`stored`). */
  predicate RingBut(nodes: seq<Option<Obj>>, free: nat, empty: nat, took: bool, stored: bool) {
    && 2 <= |nodes| && free < |nodes| && empty < |nodes|
    && var d := RingCache.Distance(|nodes|, free, empty);
       && (took ==> d > 0) && (stored ==> d + 1 < |nodes|)
       && forall k :: 0 <= k < |nodes| ==>
            (nodes[RingCache.Along(|nodes|, free, k)].Some? <==> (k < d && !(took && k == 0)) || (stored && k == d))
  }

  lemma RingTake(nodes: seq<Option<Obj>>, free: nat, empty: nat, stored: bool)
    requires RingBut(nodes, free, empty, false, stored) && free != empty
    ensures nodes[free].Some? && RingBut(nodes[free := None], free, empty, true, stored)
  {
    var n := |nodes|;
    assert RingCache.Along(n, free, 0) == free;
    forall k | 0 < k < n
      ensures RingCache.Along(n, free, k) != free
    {
    }
  }

  lemma RingAdvanceFree(nodes: seq<Option<Obj>>, free: nat, empty: nat, stored: bool)
    requires RingBut(nodes, free, empty, true, stored)
    ensures RingBut(nodes, RingCache.Along(|nodes|, free, 1), empty, false, stored)
  {
    var n := |nodes|;
    var next := RingCache.Along(n, free, 1);
    RingCache.DistanceStep(n, free, empty);
    assert RingCache.Along(n, free, 0) == free;
    forall k | 0 <= k < n
      ensures nodes[RingCache.Along(n, next, k)].Some? <==>
              k < RingCache.Distance(n, next, empty) || (stored && k == RingCache.Distance(n, next, empty))
    {
      RingCache.AlongStep(n, free, k);
    }
  }

  lemma RingStore(nodes: seq<Option<Obj>>, free: nat, empty: nat, took: bool, val: Obj)
    requires RingBut(nodes, free, empty, took, false) && RingCache.Along(|nodes|, empty, 1) != free
    ensures nodes[empty].None? && RingBut(nodes[empty := Some(val)], free, empty, took, true)
  {
    var n, d := |nodes|, RingCache.Distance(|nodes|, free, empty);
    RingCache.DistanceStep(n, free, empty);
    assert RingCache.Along(n, free, d) == empty;
    forall k | 0 <= k < n && k != d
      ensures RingCache.Along(n, free, k) != empty
    {
    }
  }

  lemma RingAdvanceEmpty(nodes: seq<Option<Obj>>, free: nat, empty: nat, took: bool)
    requires RingBut(nodes, free, empty, took, true)
    ensures RingBut(nodes, free, RingCache.Along(|nodes|, empty, 1), took, false)
  {
    RingCache.DistanceStep(|nodes|, free, empty);
  }

  /** The one pop and the one push that may be under way, as far as the ring is concerned. */
  ghost predicate PcOk(s: Cache, pc: Pc) {
    match pc
    case PopLoaded(cur) => cur == s.free
    case PopTaking(cur) => cur == s.free != s.empty
    case PopTook(cur, v) => cur == s.free && v.Some?
    case PushLoaded(_, at) => at == s.empty
    case PushTrying(_, at, _) => at == s.empty && Next(s, at) != s.free
    case PushStored(at) => at == s.empty
    case _ => true
  }

  ghost predicate Took(s: Cache) {
    exists t :: t in s.threads && s.threads[t].PopTook?
  }

  ghost predicate Stored(s: Cache) {
    exists t :: t in s.threads && s.threads[t].PushStored?
  }

  ghost predicate OneEach(s: Cache) {
    forall t, u :: t in s.threads && u in s.threads && t != u ==> IsPop(s.threads[t]) != IsPop(s.threads[u])
  }

  ghost predicate Paired(s: Cache) {
    && (forall t :: t in s.threads ==> PcOk(s, s.threads[t]))
    && OneEach(s)
    && RingBut(s.nodes, s.free, s.empty, Took(s), Stored(s))
  }

  lemma CreatedPaired(size: nat)
    ensures Paired(Created(size))
  {
    var s := Created(size);
    assert !Took(s) && !Stored(s);
  }

  lemma PairedNeverJams(s: Cache)
    requires Paired(s)
    ensures !Jammed(s)
  {
    assert RingCache.Along(|s.nodes|, s.free, 0) == s.free;
  }

  ghost predicate OnlyMoves(s: Cache, n: Cache, t: Thread) {
    forall u :: u != t ==> (u in n.threads <==> u in s.threads) && (u in n.threads ==> n.threads[u] == s.threads[u])
  }

  /** The pop under way decides what is taken, and does not touch what is stored. */
  lemma PopFlags(s: Cache, n: Cache, t: Thread)
    requires Paired(s) && t in s.threads && IsPop(s.threads[t]) && OnlyMoves(s, n, t)
    requires t in n.threads ==> IsPop(n.threads[t])
    ensures Took(s) == s.threads[t].PopTook? && Took(n) == (t in n.threads && n.threads[t].PopTook?)
    ensures Stored(n) == Stored(s)
  {
    hide RingBut, PcOk;
    if Stored(s) {
      var u :| u in s.threads && s.threads[u].PushStored?;
      assert u in n.threads && n.threads[u].PushStored?;
    }
    if Stored(n) {
      var u :| u in n.threads && n.threads[u].PushStored?;
      assert u in s.threads && s.threads[u].PushStored?;
    }
  }

  lemma PushFlags(s: Cache, n: Cache, t: Thread)
    requires Paired(s) && t in s.threads && !IsPop(s.threads[t]) && OnlyMoves(s, n, t)
    requires t in n.threads ==> !IsPop(n.threads[t])
    ensures Stored(s) == s.threads[t].PushStored? && Stored(n) == (t in n.threads && n.threads[t].PushStored?)
    ensures Took(n) == Took(s)
  {
    hide RingBut, PcOk;
    if Took(s) {
      var u :| u in s.threads && s.threads[u].PopTook?;
      assert u in n.threads && n.threads[u].PopTook?;
    }
    if Took(n) {
      var u :| u in n.threads && n.threads[u].PopTook?;
      assert u in s.threads && s.threads[u].PopTook?;
    }
  }

  lemma NextIsAlong(s: Cache, i: nat)
    requires i < |s.nodes| && 2 <= |s.nodes|
    ensures Next(s, i) == RingCache.Along(|s.nodes|, i, 1) != i
  {}

  /** The push under way does not mind that nextFree_ advances, nor the pop that nextNull_ does. */
  lemma PushUndisturbed(s: Cache, n: Cache, pc: Pc)
    requires RingBut(s.nodes, s.free, s.empty, true, Stored(s)) && !IsPop(pc) && PcOk(s, pc)
    requires |n.nodes| == |s.nodes| && n.empty == s.empty && n.free == Next(s, s.free)
    ensures PcOk(n, pc)
  {
    NextIsAlong(s, s.free);
    NextIsAlong(s, s.empty);
    RingCache.DistanceStep(|s.nodes|, s.free, s.empty);
    RingCache.DistanceStep(|s.nodes|, n.free, s.empty);
  }

  lemma PopUndisturbed(s: Cache, n: Cache, pc: Pc)
    requires RingBut(s.nodes, s.free, s.empty, Took(s), true) && IsPop(pc) && PcOk(s, pc)
    requires |n.nodes| == |s.nodes| && n.free == s.free && n.empty == Next(s, s.empty)
    ensures PcOk(n, pc)
  {
    NextIsAlong(s, s.empty);
    RingCache.DistanceStep(|s.nodes|, s.free, s.empty);
  }

  lemma RingBounds(s: Cache)
    requires RingBut(s.nodes, s.free, s.empty, Took(s), Stored(s))
    ensures 2 <= |s.nodes| && s.free < |s.nodes| && s.empty < |s.nodes|
  {}

  lemma StillOneEach(s: Cache, n: Cache, t: Thread)
    requires OneEach(s) && t in s.threads && OnlyMoves(s, n, t)
    requires t in n.threads ==> IsPop(n.threads[t]) == IsPop(s.threads[t])
    ensures OneEach(n)
  {}

  lemma OthersStay(s: Cache, t: Thread, spurious: bool)
    requires t in s.threads
    ensures var n := MoveStep(s, t, spurious);
            OnlyMoves(s, n, t) && (t in n.threads ==> IsPop(n.threads[t]) == IsPop(s.threads[t]))
  {}

  lemma PopRing(s: Cache, t: Thread)
    requires Paired(s) && t in s.threads && IsPop(s.threads[t])
    ensures var n := MoveStep(s, t, false); RingBut(n.nodes, n.free, n.empty, Took(n), Stored(n))
  {
    hide RingBut, Took, Stored, OneEach;
    var n, pc := MoveStep(s, t, false), s.threads[t];
    RingBounds(s);
    OthersStay(s, t, false);
    PopFlags(s, n, t);
    if pc.PopTaking? {
      RingTake(s.nodes, s.free, s.empty, Stored(s));
    } else if pc.PopTook? {
      NextIsAlong(s, s.free);
      RingAdvanceFree(s.nodes, s.free, s.empty, Stored(s));
    }
  }

  lemma PopKeepsPc(s: Cache, t: Thread, u: Thread)
    requires Paired(s) && t in s.threads && IsPop(s.threads[t]) && u in MoveStep(s, t, false).threads
    ensures var n := MoveStep(s, t, false); PcOk(n, n.threads[u])
  {
    hide RingBut, Took, Stored;
    var n := MoveStep(s, t, false);
    RingBounds(s);
    OthersStay(s, t, false);
    PopFlags(s, n, t);
    if s.threads[t].PopTaking? {
      RingTake(s.nodes, s.free, s.empty, Stored(s));
    } else if s.threads[t].PopTook? && u != t {
      PushUndisturbed(s, n, n.threads[u]);
    }
  }

  lemma PopMove(s: Cache, t: Thread)
    requires Paired(s) && t in s.threads && IsPop(s.threads[t])
    ensures Paired(MoveStep(s, t, false))
  {
    hide RingBut, Took, Stored, PcOk, OneEach, MoveStep;
    var n := MoveStep(s, t, false);
    OthersStay(s, t, false);
    StillOneEach(s, n, t);
    PopRing(s, t);
    forall u | u in n.threads
      ensures PcOk(n, n.threads[u])
    {
      PopKeepsPc(s, t, u);
    }
  }

  lemma PushRing(s: Cache, t: Thread, spurious: bool)
    requires Paired(s) && t in s.threads && !IsPop(s.threads[t])
    ensures var n := MoveStep(s, t, spurious); RingBut(n.nodes, n.free, n.empty, Took(n), Stored(n))
  {
    hide RingBut, Took, Stored, OneEach;
    var n, pc := MoveStep(s, t, spurious), s.threads[t];
    RingBounds(s);
    OthersStay(s, t, spurious);
    PushFlags(s, n, t);
    NextIsAlong(s, s.empty);
    if pc.PushTrying? {
      RingStore(s.nodes, s.free, s.empty, Took(s), pc.val);
    } else if pc.PushStored? {
      RingAdvanceEmpty(s.nodes, s.free, s.empty, Took(s));
    }
  }

  lemma PushKeepsPc(s: Cache, t: Thread, spurious: bool, u: Thread)
    requires Paired(s) && t in s.threads && !IsPop(s.threads[t]) && u in MoveStep(s, t, spurious).threads
    ensures var n := MoveStep(s, t, spurious); PcOk(n, n.threads[u])
  {
    hide RingBut, Took, Stored;
    var n := MoveStep(s, t, spurious);
    RingBounds(s);
    OthersStay(s, t, spurious);
    PushFlags(s, n, t);
    if s.threads[t].PushStored? && u != t {
      PopUndisturbed(s, n, n.threads[u]);
    }
  }

  lemma PushMove(s: Cache, t: Thread, spurious: bool)
    requires Paired(s) && t in s.threads && !IsPop(s.threads[t])
    ensures Paired(MoveStep(s, t, spurious))
  {
    hide RingBut, Took, Stored, PcOk, OneEach, MoveStep;
    var n := MoveStep(s, t, spurious);
    OthersStay(s, t, spurious);
    StillOneEach(s, n, t);
    PushRing(s, t, spurious);
    forall u | u in n.threads
      ensures PcOk(n, n.threads[u])
    {
      PushKeepsPc(s, t, spurious, u);
    }
  }

  lemma BeginPaired(s: Cache, l: Label)
    requires Paired(s) && Obeys(s, l, ONE_EACH) && !l.Move?
    ensures Paired(Step(s, l))
  {
    hide RingBut, Took, Stored;
    BeginFlags(s, l);
  }

  lemma BeginFlags(s: Cache, l: Label)
    requires Enabled(s, l) && !l.Move?
    ensures Took(Step(s, l)) == Took(s) && Stored(Step(s, l)) == Stored(s)
  {
    var n := Step(s, l);
    assert forall u :: u in s.threads ==> u in n.threads && n.threads[u] == s.threads[u];
    if Took(s) {
      var u :| u in s.threads && s.threads[u].PopTook?;
      assert n.threads[u].PopTook?;
    }
    if Stored(s) {
      var u :| u in s.threads && s.threads[u].PushStored?;
      assert n.threads[u].PushStored?;
    }
  }

  lemma PairedStep(s: Cache, l: Label)
    requires Paired(s) && Obeys(s, l, ONE_EACH)
    ensures Paired(Step(s, l))
  {
    hide Paired;
    if !l.Move? {
      BeginPaired(s, l);
    } else if IsPop(s.threads[l.t]) {
      PopMove(s, l.t);
    } else {
      PushMove(s, l.t, l.spurious);
    }
  }

  lemma {:induction false} PairedRun(s: Cache, run: seq<Label>, t: Cache)
    requires Paired(s) && Obeyed(s, run, t, ONE_EACH)
    ensures Paired(t)
    decreases |run|
  {
    hide Paired, Step, Enabled;
    if run != [] {
      PairedStep(s, run[0]);
      PairedRun(Step(s, run[0]), run[1..], t);
    }
  }

  /** With one pop and one push at a time, in every run of every cache, a push never meets an occupied node: its
      compare-and-exchange succeeds unless it fails for no reason. */
  lemma OnePushCompletes(size: nat, run: seq<Label>, s: Cache, t: Thread)
    requires Obeyed(Created(size), run, s, ONE_EACH) && t in s.threads && s.threads[t].PushTrying?
    ensures MoveStep(s, t, false).threads[t].PushStored?
  {
    hide Obeyed;
    CreatedPaired(size);
    PairedRun(Created(size), run, s);
    PushFlags(s, s, t);
    NextIsAlong(s, s.empty);
    RingStore(s.nodes, s.free, s.empty, Took(s), s.threads[t].val);
  }

  /** More freedom jams if less does. */
  lemma {:induction false} Loosened(s: Cache, run: seq<Label>, t: Cache, r: Rule)
    requires Obeyed(s, run, t, r)
    ensures Obeyed(s, run, t, ANYTHING)
    decreases |run|
  {
    hide Step, Enabled;
    if run != [] {
      Loosened(Step(s, run[0]), run[1..], t, r);
    }
  }

  /** The exact rule: the ring can jam if and only if two pops or two pushes may be under way at the same time. */
  lemma CanJamIff(r: Rule)
    ensures CanJam(r) <==> !(r.onePop && r.onePush)
  {
    hide Obeyed, Jammed;
    if r.onePop && r.onePush {
      forall size: nat, run, t | Obeyed(Created(size), run, t, r)
        ensures !Jammed(t)
      {
        CreatedPaired(size);
        PairedRun(Created(size), run, t);
        PairedNeverJams(t);
      }
    } else if r.onePush {
      JamsWithOnePush();
    } else {
      JamsWithOnePop();
      var size: nat, run, t :| Obeyed(Created(size), run, t, ONE_POP) && Jammed(t);
      if !r.onePop {
        Loosened(Created(size), run, t, ONE_POP);
      }
      assert Obeyed(Created(size), run, t, r) && Jammed(t);
    }
  }
}
