/**
A thread that moves alone through the lock-free cache of src/InterLockCache.h does what the queue of RingCache does.
*/
module SoloCache {
  import opened Common
  import opened LockFreeCache
  import RingCache

  // ---------------------------------------------------------------- runs

  /** What the threads may do at the same time: one pop only, one push only. */
  datatype Rule = Rule(onePop: bool, onePush: bool)

  const ANYTHING: Rule := Rule(false, false)

  predicate IsPop(pc: Pc) {
    pc.PopStart? || pc.PopLoaded? || pc.PopTaking? || pc.PopTook?
  }

  ghost predicate Obeys(s: Cache, l: Label, r: Rule) {
    && Enabled(s, l)
    && (l.BeginPop? && r.onePop ==> forall t :: t in s.threads ==> !IsPop(s.threads[t]))
    && (l.BeginPush? && r.onePush ==> forall t :: t in s.threads ==> IsPop(s.threads[t]))
  }

  /** A run in which every operation begins as the rule allows. */
  ghost predicate Obeyed(s: Cache, run: seq<Label>, t: Cache, r: Rule)
    decreases |run|
  {
    if run == [] then s == t else Obeys(s, run[0], r) && Obeyed(Step(s, run[0]), run[1..], t, r)
  }

  /** Without a rule these are all runs. */
  lemma {:induction false} ObeyedReaches(s: Cache, run: seq<Label>, t: Cache)
    ensures Obeyed(s, run, t, ANYTHING) <==> Reaches(s, run, t)
    decreases |run|
  {
    hide Step, Enabled;
    if run != [] && Enabled(s, run[0]) {
      ObeyedReaches(Step(s, run[0]), run[1..], t);
    }
  }

  lemma {:induction false} ObeyedConcat(s: Cache, a: seq<Label>, t: Cache, b: seq<Label>, u: Cache, r: Rule)
    requires Obeyed(s, a, t, r) && Obeyed(t, b, u, r)
    ensures Obeyed(s, a + b, u, r)
    decreases |a|
  {
    hide Enabled, Step;
    if a == [] {
      assert a + b == b;
    } else {
      ObeyedConcat(Step(s, a[0]), a[1..], t, b, u, r);
      assert (a + b)[1..] == a[1..] + b;
    }
  }

  lemma OneStep(s: Cache, l: Label, r: Rule)
    requires Obeys(s, l, r)
    ensures Obeyed(s, [l], Step(s, l), r)
  {
    hide Step, Enabled;
    var n := Step(s, l);
    assert [l][1..] == [];
    assert Obeyed(n, [], n, r);
  }

  /** One more step at the end of a run. */
  lemma StepAfter(s: Cache, run: seq<Label>, t: Cache, l: Label, u: Cache, r: Rule)
    requires Obeyed(s, run, t, r) && Obeys(t, l, r) && Step(t, l) == u
    ensures Obeyed(s, run + [l], u, r)
  {
    hide Step, Obeys, Obeyed;
    OneStep(t, l, r);
    ObeyedConcat(s, run, t, [l], u, r);
  }

  // ---------------------------------------------------------------- one thread alone

  function PopRun(t: Thread): seq<Label> {
    [BeginPop(t)] + [Move(t, false)] + [Move(t, false)] + [Move(t, false)] + [Move(t, false)]
  }

  function Popped(s: Cache, t: Thread): Cache
    requires s.free < |s.nodes| && s.nodes[s.free].Some?
  {
    s.(nodes := s.nodes[s.free := None], free := Next(s, s.free), held := s.held[s.nodes[s.free].value := t])
  }

  lemma PopAlone(s: Cache, t: Thread, r: Rule)
    requires Obeys(s, BeginPop(t), r) && s.free < |s.nodes| && s.free != s.empty && s.nodes[s.free].Some?
    ensures Obeyed(s, PopRun(t), Popped(s, t), r)
  {
    hide Obeyed;
    var v := s.nodes[s.free];
    var s1 := At(s, t, PopStart);
    var s2 := At(s, t, PopLoaded(s.free));
    var s3 := At(s, t, PopTaking(s.free));
    var s4 := At(s, t, PopTook(s.free, v)).(nodes := s.nodes[s.free := None]);
    assert Step(s, BeginPop(t)) == s1 && Step(s1, Move(t, false)) == s2 && Step(s2, Move(t, false)) == s3;
    assert Step(s3, Move(t, false)) == s4;
    assert s4.threads - {t} == s.threads;
    assert Step(s4, Move(t, false)) == Popped(s, t);
    OneStep(s, BeginPop(t), r);
    StepAfter(s, [BeginPop(t)], s1, Move(t, false), s2, r);
    StepAfter(s, [BeginPop(t)] + [Move(t, false)], s2, Move(t, false), s3, r);
    StepAfter(s, [BeginPop(t)] + [Move(t, false)] + [Move(t, false)], s3, Move(t, false), s4, r);
    StepAfter(s, [BeginPop(t)] + [Move(t, false)] + [Move(t, false)] + [Move(t, false)],
              s4, Move(t, false), Popped(s, t), r);
  }

  function AllocateRun(t: Thread): seq<Label> {
    [BeginPop(t)] + [Move(t, false)] + [Move(t, false)]
  }

  function Allocated(s: Cache, t: Thread): Cache {
    s.(made := s.made + 1, held := s.held[s.made := t])
  }

  lemma AllocateAlone(s: Cache, t: Thread, r: Rule)
    requires Obeys(s, BeginPop(t), r) && s.free == s.empty
    ensures Obeyed(s, AllocateRun(t), Allocated(s, t), r)
  {
    hide Obeyed;
    var s1, s2 := At(s, t, PopStart), At(s, t, PopLoaded(s.free));
    assert Step(s, BeginPop(t)) == s1 && Step(s1, Move(t, false)) == s2;
    assert s2.threads - {t} == s.threads;
    assert Step(s2, Move(t, false)) == Allocated(s, t);
    OneStep(s, BeginPop(t), r);
    StepAfter(s, [BeginPop(t)], s1, Move(t, false), s2, r);
    StepAfter(s, [BeginPop(t)] + [Move(t, false)], s2, Move(t, false), Allocated(s, t), r);
  }

  /** `k` tries whose compare-and-exchange fails for no reason. */
  function Failures(t: Thread, k: nat): seq<Label> {
    if k == 0 then [] else Failures(t, k - 1) + ([Move(t, false)] + [Move(t, false)] + [Move(t, true)])
  }

  /** The caller gives the object away. */
  function Given(s: Cache, t: Thread, val: Obj): Cache {
    At(s, t, PushStart(val)).(held := s.held - {val})
  }

  lemma FailOnce(s: Cache, t: Thread, val: Obj, spurious: bool, r: Rule)
    requires t in s.threads && s.threads[t] == PushStart(val) && Next(s, s.empty) != s.free
    requires spurious || (s.empty < |s.nodes| && s.nodes[s.empty].Some?)
    ensures Obeyed(s, [Move(t, false)] + [Move(t, false)] + [Move(t, spurious)], s, r)
  {
    hide Obeyed;
    var s1, s2 := At(s, t, PushLoaded(val, s.empty)), At(s, t, PushTrying(val, s.empty, s.free));
    assert Step(s, Move(t, false)) == s1 && Step(s1, Move(t, false)) == s2;
    assert s2.threads[t := PushStart(val)] == s.threads;
    assert Step(s2, Move(t, spurious)) == s;
    OneStep(s, Move(t, false), r);
    StepAfter(s, [Move(t, false)], s1, Move(t, false), s2, r);
    StepAfter(s, [Move(t, false)] + [Move(t, false)], s2, Move(t, spurious), s, r);
  }

  lemma {:induction false} FailRepeatedly(s: Cache, t: Thread, val: Obj, k: nat, r: Rule)
    requires t in s.threads && s.threads[t] == PushStart(val) && Next(s, s.empty) != s.free
    ensures Obeyed(s, Failures(t, k), s, r)
  {
    if k > 0 {
      FailRepeatedly(s, t, val, k - 1, r);
      FailOnce(s, t, val, true, r);
      hide Obeyed;
      ObeyedConcat(s, Failures(t, k - 1), s, [Move(t, false)] + [Move(t, false)] + [Move(t, true)], s, r);
    }
  }

  function StoreRun(t: Thread): seq<Label> {
    [Move(t, false)] + [Move(t, false)] + [Move(t, false)] + [Move(t, false)]
  }

  function Pushed(s: Cache, val: Obj): Cache
    requires s.empty < |s.nodes|
  {
    s.(nodes := s.nodes[s.empty := Some(val)], empty := Next(s, s.empty), held := s.held - {val})
  }

  lemma StoreAlone(s: Cache, t: Thread, val: Obj, r: Rule)
    requires t !in s.threads && s.empty < |s.nodes| && s.nodes[s.empty].None? && Next(s, s.empty) != s.free
    ensures Obeyed(Given(s, t, val), StoreRun(t), Pushed(s, val), r)
  {
    hide Obeyed;
    var s0 := Given(s, t, val);
    var s1, s2 := At(s0, t, PushLoaded(val, s.empty)), At(s0, t, PushTrying(val, s.empty, s.free));
    var s3 := At(s0, t, PushStored(s.empty)).(nodes := s.nodes[s.empty := Some(val)]);
    assert Step(s0, Move(t, false)) == s1 && Step(s1, Move(t, false)) == s2 && Step(s2, Move(t, false)) == s3;
    assert s3.threads - {t} == s.threads;
    assert Step(s3, Move(t, false)) == Pushed(s, val);
    OneStep(s0, Move(t, false), r);
    StepAfter(s0, [Move(t, false)], s1, Move(t, false), s2, r);
    StepAfter(s0, [Move(t, false)] + [Move(t, false)], s2, Move(t, false), s3, r);
    StepAfter(s0, [Move(t, false)] + [Move(t, false)] + [Move(t, false)], s3, Move(t, false), Pushed(s, val), r);
  }

  function PushRun(t: Thread, val: Obj, spurious: nat): seq<Label> {
    [BeginPush(t, val)] + Failures(t, spurious) + StoreRun(t)
  }

  lemma PushAlone(s: Cache, t: Thread, val: Obj, spurious: nat, r: Rule)
    requires Obeys(s, BeginPush(t, val), r)
    requires s.empty < |s.nodes| && s.nodes[s.empty].None? && Next(s, s.empty) != s.free
    ensures Obeyed(s, PushRun(t, val, spurious), Pushed(s, val), r)
  {
    hide Obeyed;
    OneStep(s, BeginPush(t, val), r);
    FailRepeatedly(Given(s, t, val), t, val, spurious, r);
    StoreAlone(s, t, val, r);
    hide Failures, StoreRun;
    ObeyedConcat(s, [BeginPush(t, val)], Given(s, t, val), Failures(t, spurious), Given(s, t, val), r);
    ObeyedConcat(s, [BeginPush(t, val)] + Failures(t, spurious), Given(s, t, val), StoreRun(t), Pushed(s, val), r);
  }

  function DeleteRun(t: Thread, val: Obj): seq<Label> {
    [BeginPush(t, val)] + [Move(t, false)] + [Move(t, false)] + [Move(t, false)]
  }

  function Refused(s: Cache, val: Obj): Cache {
    s.(held := s.held - {val}, deleted := s.deleted + {val})
  }

  lemma DeleteAlone(s: Cache, t: Thread, val: Obj, r: Rule)
    requires Obeys(s, BeginPush(t, val), r) && Next(s, s.empty) == s.free
    ensures Obeyed(s, DeleteRun(t, val), Refused(s, val), r)
  {
    hide Obeyed;
    var s0 := Given(s, t, val);
    var s1, s2 := At(s0, t, PushLoaded(val, s.empty)), At(s0, t, PushFull(val));
    assert Step(s0, Move(t, false)) == s1 && Step(s1, Move(t, false)) == s2;
    assert s2.threads - {t} == s.threads;
    assert Step(s2, Move(t, false)) == Refused(s, val);
    OneStep(s, BeginPush(t, val), r);
    StepAfter(s, [BeginPush(t, val)], s0, Move(t, false), s1, r);
    StepAfter(s, [BeginPush(t, val)] + [Move(t, false)], s1, Move(t, false), s2, r);
    StepAfter(s, [BeginPush(t, val)] + [Move(t, false)] + [Move(t, false)], s2, Move(t, false), Refused(s, val), r);
  }

  // ---------------------------------------------------------------- the queue

  ghost predicate RingOk(s: Cache) {
    RingCache.RingOk(s.nodes, s.free, s.empty)
  }

  /** The objects in the ring, as the queue of RingCache. */
  ghost function Contents(s: Cache): (q: seq<Obj>)
    requires RingOk(s)
  {
    RingCache.Queue(s.nodes, s.free, RingCache.Distance(|s.nodes|, s.free, s.empty))
  }

  lemma FrontOf(s: Cache)
    requires RingOk(s)
    ensures |Contents(s)| == RingCache.Distance(|s.nodes|, s.free, s.empty)
    ensures Contents(s) == [] <==> s.free == s.empty
    ensures s.free != s.empty ==> s.nodes[s.free] == Some(Contents(s)[0])
    ensures s.nodes[s.empty].None? && (|Contents(s)| == |s.nodes| - 1 <==> Next(s, s.empty) == s.free)
  {
    var n := |s.nodes|;
    RingCache.DistanceStep(n, s.free, s.empty);
    assert RingCache.Along(n, s.free, 0) == s.free;
    assert RingCache.Along(n, s.free, RingCache.Distance(n, s.free, s.empty)) == s.empty;
  }

  /** A thread alone pops the front of the queue, or a new object if there is none, as RingCache's PopFront does. */
  lemma SoloPop(s: Cache, t: Thread)
    requires RingOk(s) && t !in s.threads
    ensures Contents(s) == [] ==>
              && Reaches(s, AllocateRun(t), Allocated(s, t)) && RingOk(Allocated(s, t))
              && Contents(Allocated(s, t)) == []
    ensures Contents(s) != [] ==>
              && s.nodes[s.free] == Some(Contents(s)[0]) && Reaches(s, PopRun(t), Popped(s, t)) && RingOk(Popped(s, t))
              && Contents(Popped(s, t)) == Contents(s)[1..]
  {
    FrontOf(s);
    hide Reaches, Obeyed, PopRun, AllocateRun;
    if s.free == s.empty {
      AllocateAlone(s, t, ANYTHING);
      ObeyedReaches(s, AllocateRun(t), Allocated(s, t));
    } else {
      PopAlone(s, t, ANYTHING);
      ObeyedReaches(s, PopRun(t), Popped(s, t));
      RingCache.PopIs(s.nodes, s.nodes[s.free := None], s.free, s.empty);
    }
  }

  /** A thread alone appends to the queue, or deletes the object if the queue is full, as RingCache's PushBack does,
      whatever number of spurious failures come first. */
  lemma SoloPush(s: Cache, t: Thread, val: Obj, spurious: nat)
    requires RingOk(s) && Enabled(s, BeginPush(t, val))
    ensures |Contents(s)| < |s.nodes| - 1 ==>
              && Reaches(s, PushRun(t, val, spurious), Pushed(s, val)) && RingOk(Pushed(s, val))
              && Contents(Pushed(s, val)) == Contents(s) + [val]
    ensures |Contents(s)| >= |s.nodes| - 1 ==>
              && Reaches(s, DeleteRun(t, val), Refused(s, val)) && RingOk(Refused(s, val))
              && Contents(Refused(s, val)) == Contents(s)
  {
    FrontOf(s);
    hide Reaches, Obeyed, PushRun, DeleteRun;
    if Next(s, s.empty) == s.free {
      DeleteAlone(s, t, val, ANYTHING);
      ObeyedReaches(s, DeleteRun(t, val), Refused(s, val));
    } else {
      PushAlone(s, t, val, spurious, ANYTHING);
      ObeyedReaches(s, PushRun(t, val, spurious), Pushed(s, val));
      RingCache.PushIs(s.nodes, s.nodes[s.empty := Some(val)], s.free, s.empty, val);
    }
  }
}
