/**
The lock-free object cache of src/InterLockCache.h: a ring of nodes with one pointer to the next free object and
one to the next empty node.  Every atomic load, exchange and compare-and-exchange is one step, any number of
threads interleave, and a weak compare-and-exchange may fail for no reason.
*/
module LockFreeCache {
  import opened Common

  type Obj = nat
  type Thread = nat

  /** Where a thread is inside popFront or pushBack. */
  datatype Pc =
    | PopStart                              // about to load nextFree_
    | PopLoaded(cur: nat)                   // about to load nextNull_
    | PopTaking(cur: nat)                   // about to exchange the node's value
    | PopTook(cur: nat, v: Option<Obj>)     // about to advance nextFree_
    | PushStart(val: Obj)                   // about to load nextNull_
    | PushLoaded(val: Obj, at: nat)         // about to load nextFree_
    | PushTrying(val: Obj, at: nat, free: nat)
    | PushStored(at: nat)                   // about to advance nextNull_
    | PushFull(val: Obj)                    // about to delete the value

  datatype Cache = Cache(nodes: seq<Option<Obj>>, free: nat, empty: nat, made: nat,
                         threads: map<Thread, Pc>, held: map<Obj, Thread>, deleted: set<Obj>)

  /** Objects that were popped may change hands before they are pushed back. */
  datatype Label =
    | BeginPop(t: Thread)
    | BeginPush(t: Thread, val: Obj)
    | Move(t: Thread, spurious: bool)
    | Give(t: Thread, val: Obj, to: Thread)

  function Next(s: Cache, i: nat): nat {
    if i + 1 < |s.nodes| then i + 1 else 0
  }

  /** The constructor: `size` + 1 nodes with an object and one empty node, in a circle. */
  function Created(size: nat): Cache {
    Cache(seq(size + 1, i => Some(i)) + [None], 0, size + 1, size + 1, map[], map[], {})
  }

  ghost predicate Enabled(s: Cache, l: Label) {
    match l
    case BeginPop(t) => t !in s.threads
    case BeginPush(t, val) => t !in s.threads && val in s.held && s.held[val] == t
    case Move(t, _) => t in s.threads
    case Give(t, val, _) => val in s.held && s.held[val] == t
  }

  function At(s: Cache, t: Thread, pc: Pc): Cache {
    s.(threads := s.threads[t := pc])
  }

  function Returns(s: Cache, t: Thread, v: Obj): Cache {
    s.(threads := s.threads - {t}, held := s.held[v := t])
  }

  function MoveStep(s: Cache, t: Thread, spurious: bool): Cache
    requires t in s.threads
  {
    match s.threads[t]
    case PopStart => At(s, t, PopLoaded(s.free))
    case PopLoaded(cur) =>
      if cur != s.empty then At(s, t, PopTaking(cur))
      else Returns(s, t, s.made).(made := s.made + 1)
    case PopTaking(cur) =>
      if cur < |s.nodes| then At(s, t, PopTook(cur, s.nodes[cur])).(nodes := s.nodes[cur := None]) else s
    case PopTook(cur, v) =>
      var n := if s.free == cur then s.(free := Next(s, cur)) else s;
      if v.Some? then Returns(n, t, v.value) else At(n, t, PopStart)
    case PushStart(val) => At(s, t, PushLoaded(val, s.empty))
    case PushLoaded(val, at) =>
      if Next(s, at) == s.free then At(s, t, PushFull(val)) else At(s, t, PushTrying(val, at, s.free))
    case PushTrying(val, at, _) =>
      if at < |s.nodes| && s.nodes[at].None? && !spurious then
        At(s, t, PushStored(at)).(nodes := s.nodes[at := Some(val)])
      else At(s, t, PushStart(val))
    case PushStored(at) =>
      var n := if s.empty == at then s.(empty := Next(s, at)) else s;
      n.(threads := n.threads - {t})
    case PushFull(val) => s.(threads := s.threads - {t}, deleted := s.deleted + {val})
  }

  function Step(s: Cache, l: Label): Cache
    requires Enabled(s, l)
  {
    match l
    case BeginPop(t) => At(s, t, PopStart)
    case BeginPush(t, val) => At(s, t, PushStart(val)).(held := s.held - {val})
    case Move(t, spurious) => MoveStep(s, t, spurious)
    case Give(_, val, to) => s.(held := s.held[val := to])
  }

  ghost predicate Reaches(s: Cache, run: seq<Label>, t: Cache)
    decreases |run|
  {
    if run == [] then s == t else Enabled(s, run[0]) && Reaches(Step(s, run[0]), run[1..], t)
  }

  // ---------------------------------------------------------------- the two pointers

  /** Each pointer is moved only to the next node, and only by the thread that emptied or filled the node it is at. */
  lemma PointersGoForward(s: Cache, l: Label)
    requires Enabled(s, l)
    ensures var n := Step(s, l);
            && (n.free != s.free ==>
                  l.Move? && s.threads[l.t].PopTook? && s.threads[l.t].cur == s.free && n.free == Next(s, s.free))
            && (n.empty != s.empty ==>
                  l.Move? && s.threads[l.t].PushStored? && s.threads[l.t].at == s.empty && n.empty == Next(s, s.empty))
  {}

  // ---------------------------------------------------------------- ownership

  datatype Place = InNode(node: nat) | InThread(thread: Thread) | WithClient(client: Thread) | Deleted

  function Carries(pc: Pc): Option<Obj> {
    match pc
    case PopTook(_, v) => v
    case PushStart(val) => Some(val)
    case PushLoaded(val, _) => Some(val)
    case PushTrying(val, _, _) => Some(val)
    case PushFull(val) => Some(val)
    case _ => None
  }

  predicate IsAt(s: Cache, o: Obj, p: Place) {
    match p
    case InNode(i) => i < |s.nodes| && s.nodes[i] == Some(o)
    case InThread(t) => t in s.threads && Carries(s.threads[t]) == Some(o)
    case WithClient(c) => o in s.held && s.held[o] == c
    case Deleted => o in s.deleted
  }

  ghost predicate Somewhere(s: Cache, o: Obj) {
    exists p :: IsAt(s, o, p)
  }

  /** Every object ever made is in exactly one place: a node, a thread inside the cache, a client, or deleted. */
  ghost predicate Owned(s: Cache) {
    && (forall o: Obj, p, q :: IsAt(s, o, p) && IsAt(s, o, q) ==> p == q)
    && (forall o: Obj :: Somewhere(s, o) <==> o < s.made)
  }

  predicate PcFits(pc: Pc, n: nat) {
    && (pc.PopLoaded? || pc.PopTaking? || pc.PopTook? ==> pc.cur < n)
    && (pc.PushLoaded? || pc.PushTrying? || pc.PushStored? ==> pc.at < n)
  }

  ghost predicate InRange(s: Cache) {
    s.free < |s.nodes| && s.empty < |s.nodes| && forall t :: t in s.threads ==> PcFits(s.threads[t], |s.nodes|)
  }

  ghost predicate CacheInv(s: Cache) {
    Owned(s) && InRange(s)
  }

  /** One object moves from one place to another and all others stay. */
  ghost predicate Moves(s: Cache, n: Cache, o: Obj, from: Place, to: Place) {
    && n.made == s.made && IsAt(s, o, from)
    && forall x: Obj, p :: IsAt(n, x, p) <==> if x == o then p == to else IsAt(s, x, p)
  }

  ghost predicate Stays(s: Cache, n: Cache) {
    n.made == s.made && forall x: Obj, p :: IsAt(n, x, p) <==> IsAt(s, x, p)
  }

  lemma MoveKeepsOwned(s: Cache, n: Cache, o: Obj, from: Place, to: Place)
    requires Owned(s) && Moves(s, n, o, from, to)
    ensures Owned(n)
  {
    hide IsAt;
    assert Somewhere(s, o);
    forall x: Obj
      ensures Somewhere(n, x) <==> x < n.made
    {
      assert IsAt(n, o, to);
      assert x != o ==> (Somewhere(n, x) <==> Somewhere(s, x));
    }
  }

  lemma StayKeepsOwned(s: Cache, n: Cache)
    requires Owned(s) && Stays(s, n)
    ensures Owned(n)
  {
    hide IsAt;
    forall x: Obj
      ensures Somewhere(n, x) <==> x < n.made
    {
      assert Somewhere(n, x) <==> Somewhere(s, x);
    }
  }

  lemma NewKeepsOwned(s: Cache, n: Cache, to: Place)
    requires Owned(s) && n.made == s.made + 1
    requires forall x: Obj, p :: IsAt(n, x, p) <==> if x == s.made then p == to else IsAt(s, x, p)
    ensures Owned(n)
  {
    hide IsAt;
    forall x: Obj
      ensures Somewhere(n, x) <==> x < n.made
    {
      assert IsAt(n, s.made, to);
      assert x != s.made ==> (Somewhere(n, x) <==> Somewhere(s, x));
    }
  }

  lemma CreatedOwned(size: nat)
    ensures CacheInv(Created(size))
  {
    var s := Created(size);
    forall o: Obj
      ensures Somewhere(s, o) <==> o < s.made
    {
      if o < s.made {
        assert IsAt(s, o, InNode(o));
      }
    }
  }

  lemma StepKeepsOwned(s: Cache, l: Label)
    requires CacheInv(s) && Enabled(s, l)
    ensures Owned(Step(s, l))
  {
    var n := Step(s, l);
    match l
    case BeginPop(t) =>
      assert Stays(s, n);
      StayKeepsOwned(s, n);
    case BeginPush(t, val) =>
      BeginPushOwned(s, t, val);
    case Move(t, spurious) =>
      MoveOwned(s, t, spurious);
    case Give(t, val, to) =>
      GiveOwned(s, t, val, to);
  }

  lemma GiveOwned(s: Cache, t: Thread, val: Obj, to: Thread)
    requires CacheInv(s) && Enabled(s, Give(t, val, to))
    ensures Owned(Step(s, Give(t, val, to)))
  {
    var n := Step(s, Give(t, val, to));
    forall x: Obj, p
      ensures IsAt(n, x, p) <==> if x == val then p == WithClient(to) else IsAt(s, x, p)
    {
      assert IsAt(s, val, WithClient(t));
      assert x == val && IsAt(s, x, p) ==> p == WithClient(t);
    }
    MoveKeepsOwned(s, n, val, WithClient(t), WithClient(to));
  }

  lemma BeginPushOwned(s: Cache, t: Thread, val: Obj)
    requires CacheInv(s) && Enabled(s, BeginPush(t, val))
    ensures Owned(Step(s, BeginPush(t, val)))
  {
    var n := Step(s, BeginPush(t, val));
    forall x: Obj, p
      ensures IsAt(n, x, p) <==> if x == val then p == InThread(t) else IsAt(s, x, p)
    {
      assert IsAt(s, val, WithClient(t));
      assert x == val && IsAt(s, x, p) ==> p == WithClient(t);
    }
    MoveKeepsOwned(s, n, val, WithClient(t), InThread(t));
  }

  lemma MoveOwned(s: Cache, t: Thread, spurious: bool)
    requires CacheInv(s) && t in s.threads
    ensures Owned(MoveStep(s, t, spurious))
  {
    var pc := s.threads[t];
    if pc.PopTaking? && s.nodes[pc.cur].Some? {
      TakeOwned(s, t);
    } else if pc.PopLoaded? && pc.cur == s.empty {
      AllocateOwned(s, t);
    } else if (pc.PopTook? && pc.v.Some?) || (pc.PushTrying? && s.nodes[pc.at].None? && !spurious) || pc.PushFull? {
      HandOverOwned(s, t);
    } else {
      MoveStays(s, t, spurious);
      hide MoveStep;
      StayKeepsOwned(s, MoveStep(s, t, spurious));
    }
  }

  lemma MoveStays(s: Cache, t: Thread, spurious: bool)
    requires InRange(s) && t in s.threads
    requires var pc := s.threads[t];
             && !(pc.PopTaking? && s.nodes[pc.cur].Some?) && !(pc.PopLoaded? && pc.cur == s.empty)
             && !((pc.PopTook? && pc.v.Some?) || (pc.PushTrying? && s.nodes[pc.at].None? && !spurious) || pc.PushFull?)
    ensures Stays(s, MoveStep(s, t, spurious))
  {}

  lemma AllocateOwned(s: Cache, t: Thread)
    requires CacheInv(s) && t in s.threads && s.threads[t] == PopLoaded(s.empty)
    ensures Owned(MoveStep(s, t, false))
  {
    var n := MoveStep(s, t, false);
    assert !Somewhere(s, s.made);
    forall x: Obj, p
      ensures IsAt(n, x, p) <==> if x == s.made then p == WithClient(t) else IsAt(s, x, p)
    {
      assert !IsAt(s, s.made, p);
    }
    NewKeepsOwned(s, n, WithClient(t));
  }

  /** The thread passes on what it carries: to the client, into a node, or to deletion. */
  lemma HandOverOwned(s: Cache, t: Thread)
    requires CacheInv(s) && t in s.threads
    requires var pc := s.threads[t];
             (pc.PopTook? && pc.v.Some?) || (pc.PushTrying? && s.nodes[pc.at].None?) || pc.PushFull?
    ensures Owned(MoveStep(s, t, false))
  {
    var pc, n := s.threads[t], MoveStep(s, t, false);
    var o := Carries(pc).value;
    var to := if pc.PopTook? then WithClient(t) else if pc.PushTrying? then InNode(pc.at) else Deleted;
    forall x: Obj, p
      ensures IsAt(n, x, p) <==> if x == o then p == to else IsAt(s, x, p)
    {
      assert IsAt(s, o, InThread(t));
      assert x == o && IsAt(s, x, p) ==> p == InThread(t);
    }
    MoveKeepsOwned(s, n, o, InThread(t), to);
  }

  lemma TakeOwned(s: Cache, t: Thread)
    requires CacheInv(s) && t in s.threads && s.threads[t].PopTaking? && s.nodes[s.threads[t].cur].Some?
    ensures Owned(MoveStep(s, t, false))
  {
    var n, cur := MoveStep(s, t, false), s.threads[t].cur;
    var v := s.nodes[cur].value;
    forall x: Obj, p
      ensures IsAt(n, x, p) <==> if x == v then p == InThread(t) else IsAt(s, x, p)
    {
      assert IsAt(s, v, InNode(cur));
      assert x == v && IsAt(s, x, p) ==> p == InNode(cur);
    }
    MoveKeepsOwned(s, n, v, InNode(cur), InThread(t));
  }

  lemma StepKeepsInv(s: Cache, l: Label)
    requires CacheInv(s) && Enabled(s, l)
    ensures CacheInv(Step(s, l))
  {
    hide Owned, Step, InRange;
    StepKeepsOwned(s, l);
    StepKeepsRange(s, l);
  }

  lemma StepKeepsRange(s: Cache, l: Label)
    requires InRange(s) && Enabled(s, l)
    ensures InRange(Step(s, l))
  {
    hide PcFits, Step;
    ActorFits(s, l);
    OthersStay(s, l);
  }

  lemma ActorFits(s: Cache, l: Label)
    requires Enabled(s, l) && s.free < |s.nodes| && s.empty < |s.nodes|
    requires l.t in s.threads ==> PcFits(s.threads[l.t], |s.nodes|)
    ensures var n := Step(s, l);
            && |n.nodes| == |s.nodes| && n.free < |n.nodes| && n.empty < |n.nodes|
            && (l.t in n.threads ==> PcFits(n.threads[l.t], |n.nodes|))
  {}

  lemma OthersStay(s: Cache, l: Label)
    requires Enabled(s, l)
    ensures var n := Step(s, l);
            forall t :: t in n.threads && t != l.t ==> t in s.threads && n.threads[t] == s.threads[t]
  {}

  /** In every interleaving, no object is handed out twice and none is lost. */
  lemma {:induction false} OwnershipOverRuns(s: Cache, run: seq<Label>, t: Cache)
    requires CacheInv(s) && Reaches(s, run, t)
    ensures CacheInv(t)
    decreases |run|
  {
    hide CacheInv, Step, Enabled;
    if run != [] {
      StepKeepsInv(s, run[0]);
      OwnershipOverRuns(Step(s, run[0]), run[1..], t);
    }
  }

  /** From the creation of the cache on: every object made so far is in exactly one place. */
  lemma EachObjectOnce(size: nat, run: seq<Label>, t: Cache, o: Obj)
    requires Reaches(Created(size), run, t)
    ensures Somewhere(t, o) <==> o < t.made
    ensures forall p, q :: IsAt(t, o, p) && IsAt(t, o, q) ==> p == q
  {
    CreatedOwned(size);
    OwnershipOverRuns(Created(size), run, t);
  }
}
