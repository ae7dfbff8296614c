/**
The lock-free pool of transaction scopes and its owning wrapper (src/TransactionScopePool.h).  A wrapper acquires a
slot by a compare-and-exchange on its flag, replenishes an empty slot, and in the end either gives the slot back or
detaches the scope for somebody else.  Any number of wrappers interleave, one atomic step at a time.
*/
module ScopePool {
  import opened Common

  type Scope = nat
  type Owner = nat

  const WORD: nat := 0x1_0000_0000_0000_0000

  datatype Slot = Slot(used: bool, scope: Option<Scope>)

  /** The life of a wrapper. */
  datatype Pc =
    | Trying(attempts: nat)                  // at the head of the loop of acquire
    | Probing(attempts: nat, idx: nat)       // has an index, about to try the slot's flag
    | Won(idx: nat)                          // owns the slot, about to look at its scope
    | Pooled(idx: nat, scope: Scope)         // constructed, with the scope of a slot
    | OnHeap(scope: Scope)                   // constructed, with a scope of its own
    | Detaching(idx: nat, scope: Scope)      // took the scope out of the slot, about to clear the flag
  {
    predicate Owns(i: nat) {
      (Won? || Pooled? || Detaching?) && idx == i
    }
  }

  datatype Pool = Pool(slots: seq<Slot>, head: nat, made: nat, wrappers: map<Owner, Pc>,
                       detached: set<Scope>, deleted: set<Scope>)

  datatype Label = Construct(w: Owner) | Move(w: Owner) | Destroy(w: Owner) | Release(w: Owner)

  function Created(size: nat): Pool {
    Pool(seq(size, (i: nat) => Slot(false, Some(i))), 0, size, map[], {}, {})
  }

  ghost predicate Enabled(s: Pool, l: Label) {
    match l
    case Construct(w) => w !in s.wrappers
    case Move(w) => w in s.wrappers && !s.wrappers[w].Pooled? && !s.wrappers[w].OnHeap?
    case Destroy(w) => w in s.wrappers && (s.wrappers[w].Pooled? || s.wrappers[w].OnHeap?)
    case Release(w) => w in s.wrappers && (s.wrappers[w].Pooled? || s.wrappers[w].OnHeap?)
  }

  function At(s: Pool, w: Owner, pc: Pc): Pool {
    s.(wrappers := s.wrappers[w := pc])
  }

  function Gone(s: Pool, w: Owner): Pool {
    s.(wrappers := s.wrappers - {w})
  }

  function Freed(s: Pool, i: nat): Pool {
    if i < |s.slots| then s.(slots := s.slots[i := s.slots[i].(used := false)]) else s
  }

  function MoveStep(s: Pool, w: Owner): Pool
    requires Enabled(s, Move(w))
  {
    match s.wrappers[w]
    case Trying(k) =>
      if k < |s.slots| then At(s, w, Probing(k, s.head % |s.slots|)).(head := (s.head + 1) % WORD)
      else At(s, w, OnHeap(s.made)).(made := s.made + 1)
    case Probing(k, i) =>
      if i < |s.slots| && !s.slots[i].used then At(s, w, Won(i)).(slots := s.slots[i := s.slots[i].(used := true)])
      else At(s, w, Trying(k + 1))
    case Won(i) =>
      if i >= |s.slots| then s
      else if s.slots[i].scope.Some? then At(s, w, Pooled(i, s.slots[i].scope.value))
      else At(s, w, Pooled(i, s.made)).(made := s.made + 1, slots := s.slots[i := s.slots[i].(scope := Some(s.made))])
    case Detaching(i, sc) => Gone(Freed(s, i), w).(detached := s.detached + {sc})
  }

  /** releaseByIndex for a pooled scope, delete for the other. */
  function DestroyStep(s: Pool, w: Owner): Pool
    requires Enabled(s, Destroy(w))
  {
    match s.wrappers[w]
    case Pooled(i, _) => Gone(Freed(s, i), w)
    case OnHeap(sc) => Gone(s, w).(deleted := s.deleted + {sc})
  }

  /** detach for a pooled scope: whatever scope the slot has goes to the caller. */
  function ReleaseStep(s: Pool, w: Owner): Pool
    requires Enabled(s, Release(w))
  {
    match s.wrappers[w]
    case Pooled(i, _) =>
      if i < |s.slots| && s.slots[i].scope.Some? then
        At(s, w, Detaching(i, s.slots[i].scope.value)).(slots := s.slots[i := s.slots[i].(scope := None)])
      else s
    case OnHeap(sc) => Gone(s, w).(detached := s.detached + {sc})
  }

  function Step(s: Pool, l: Label): Pool
    requires Enabled(s, l)
  {
    match l
    case Construct(w) => At(s, w, Trying(0))
    case Move(w) => MoveStep(s, w)
    case Destroy(w) => DestroyStep(s, w)
    case Release(w) => ReleaseStep(s, w)
  }

  ghost predicate Reaches(s: Pool, run: seq<Label>, t: Pool)
    decreases |run|
  {
    if run == [] then s == t else Enabled(s, run[0]) && Reaches(Step(s, run[0]), run[1..], t)
  }

  // ---------------------------------------------------------------- who owns what

  ghost predicate HasOwner(s: Pool, i: nat) {
    exists w :: w in s.wrappers && s.wrappers[w].Owns(i)
  }

  /** A used slot has exactly one owner, and the owner's scope is that of the slot. */
  ghost predicate SlotsOwned(s: Pool) {
    && (forall i :: 0 <= i < |s.slots| && s.slots[i].used ==> HasOwner(s, i))
    && (forall w :: w in s.wrappers ==> Fits(s, s.wrappers[w]))
    && (forall v, w :: v in s.wrappers && w in s.wrappers && v != w ==> Apart(s.wrappers[v], s.wrappers[w]))
  }

  predicate Fits(s: Pool, pc: Pc) {
    match pc
    case Probing(_, i) => i < |s.slots|
    case Won(i) => i < |s.slots| && s.slots[i].used
    case Pooled(i, sc) => i < |s.slots| && s.slots[i] == Slot(true, Some(sc))
    case Detaching(i, _) => i < |s.slots| && s.slots[i] == Slot(true, None)
    case _ => true
  }

  predicate Apart(a: Pc, b: Pc) {
    (a.Won? || a.Pooled? || a.Detaching?) && (b.Won? || b.Pooled? || b.Detaching?) ==> a.idx != b.idx
  }

  datatype Place = InSlot(slot: nat) | WithWrapper(wrapper: Owner) | Detached | Deleted

  predicate IsAt(s: Pool, o: Scope, p: Place) {
    match p
    case InSlot(i) => i < |s.slots| && s.slots[i].scope == Some(o)
    case WithWrapper(w) =>
      w in s.wrappers && (s.wrappers[w].OnHeap? || s.wrappers[w].Detaching?) && s.wrappers[w].scope == o
    case Detached => o in s.detached
    case Deleted => o in s.deleted
  }

  ghost predicate Somewhere(s: Pool, o: Scope) {
    exists p :: IsAt(s, o, p)
  }

  /** Every scope ever made is in exactly one place. */
  ghost predicate ScopesOwned(s: Pool) {
    && (forall o: Scope, p, q :: IsAt(s, o, p) && IsAt(s, o, q) ==> p == q)
    && (forall o: Scope :: Somewhere(s, o) <==> o < s.made)
  }

  ghost predicate PoolInv(s: Pool) {
    SlotsOwned(s) && ScopesOwned(s)
  }

  // ---------------------------------------------------------------- scopes

  lemma CreatedInv(size: nat)
    ensures PoolInv(Created(size))
  {
    var s := Created(size);
    forall o: Scope
      ensures Somewhere(s, o) <==> o < s.made
    {
      if o < s.made {
        assert IsAt(s, o, InSlot(o));
      }
    }
  }

  lemma ScopesStay(s: Pool, n: Pool)
    requires ScopesOwned(s) && n.made == s.made && forall x: Scope, p :: IsAt(n, x, p) <==> IsAt(s, x, p)
    ensures ScopesOwned(n)
  {
    hide IsAt;
    forall x: Scope
      ensures Somewhere(n, x) <==> x < n.made
    {
      assert Somewhere(n, x) <==> Somewhere(s, x);
    }
  }

  lemma ScopeMoves(s: Pool, n: Pool, o: Scope, to: Place)
    requires ScopesOwned(s) && Somewhere(s, o) && n.made == s.made
    requires forall x: Scope, p :: IsAt(n, x, p) <==> if x == o then p == to else IsAt(s, x, p)
    ensures ScopesOwned(n)
  {
    hide IsAt;
    forall x: Scope
      ensures Somewhere(n, x) <==> x < n.made
    {
      assert IsAt(n, o, to);
      assert x != o ==> (Somewhere(n, x) <==> Somewhere(s, x));
    }
  }

  lemma ScopeMade(s: Pool, n: Pool, to: Place)
    requires ScopesOwned(s) && n.made == s.made + 1
    requires forall x: Scope, p :: IsAt(n, x, p) <==> if x == s.made then p == to else IsAt(s, x, p)
    ensures ScopesOwned(n)
  {
    hide IsAt;
    forall x: Scope
      ensures Somewhere(n, x) <==> x < n.made
    {
      assert IsAt(n, s.made, to);
      assert x != s.made ==> (Somewhere(n, x) <==> Somewhere(s, x));
    }
  }

  /** A new scope, on the heap or to replenish a slot. */
  lemma NewScope(s: Pool, w: Owner)
    requires PoolInv(s) && Enabled(s, Move(w))
    requires var pc := s.wrappers[w];
             (pc.Trying? && pc.attempts >= |s.slots|) || (pc.Won? && s.slots[pc.idx].scope.None?)
    ensures ScopesOwned(MoveStep(s, w))
  {
    var n := MoveStep(s, w);
    var to := if s.wrappers[w].Trying? then WithWrapper(w) else InSlot(s.wrappers[w].idx);
    assert !Somewhere(s, s.made);
    forall x: Scope, p
      ensures IsAt(n, x, p) <==> if x == s.made then p == to else IsAt(s, x, p)
    {
      assert !IsAt(s, s.made, p);
    }
    ScopeMade(s, n, to);
  }

  /** A scope changes hands: into the wrapper that detaches it, or out of a wrapper. */
  lemma ScopeHandedOver(s: Pool, l: Label)
    requires PoolInv(s) && Enabled(s, l)
    requires match l
             case Construct(_) => false
             case Move(w) => s.wrappers[w].Detaching?
             case Destroy(w) => s.wrappers[w].OnHeap?
             case Release(w) => true
    ensures ScopesOwned(Step(s, l))
  {
    var n, w := Step(s, l), l.w;
    var pc := s.wrappers[w];
    var o := pc.scope;
    var from := if pc.Pooled? then InSlot(pc.idx) else WithWrapper(w);
    var to := if pc.Pooled? then WithWrapper(w) else if l.Destroy? then Deleted else Detached;
    forall x: Scope, p
      ensures IsAt(n, x, p) <==> if x == o then p == to else IsAt(s, x, p)
    {
      assert IsAt(s, o, from);
      assert x == o && IsAt(s, x, p) ==> p == from;
    }
    assert IsAt(s, o, from) && Somewhere(s, o);
    ScopeMoves(s, n, o, to);
  }

  lemma StepKeepsScopes(s: Pool, l: Label)
    requires PoolInv(s) && Enabled(s, l)
    ensures ScopesOwned(Step(s, l))
  {
    if l.Release? || (l.Destroy? && s.wrappers[l.w].OnHeap?) || (l.Move? && s.wrappers[l.w].Detaching?) {
      ScopeHandedOver(s, l);
    } else if l.Move? && ((s.wrappers[l.w].Trying? && s.wrappers[l.w].attempts >= |s.slots|) ||
                          (s.wrappers[l.w].Won? && s.slots[s.wrappers[l.w].idx].scope.None?)) {
      NewScope(s, l.w);
    } else {
      var n := Step(s, l);
      assert forall x: Scope, p :: IsAt(n, x, p) <==> IsAt(s, x, p);
      ScopesStay(s, n);
    }
  }

  // ---------------------------------------------------------------- slots

  /** Only the acting wrapper and the slot it owns, or is about to own, change. */
  lemma StepIsLocal(s: Pool, l: Label)
    requires SlotsOwned(s) && Enabled(s, l)
    ensures var n := Step(s, l);
            && |n.slots| == |s.slots|
            && (forall v :: v != l.w ==> (v in n.wrappers <==> v in s.wrappers))
            && (forall v :: v != l.w && v in s.wrappers ==> n.wrappers[v] == s.wrappers[v])
            && (l.w in n.wrappers ==> Fits(n, n.wrappers[l.w]))
  {
    hide HasOwner, Apart;
  }

  /** What the acting wrapper does to a slot. */
  lemma SlotChange(s: Pool, l: Label, i: nat)
    requires SlotsOwned(s) && Enabled(s, l) && i < |s.slots|
    ensures var n := Step(s, l);
            && |n.slots| == |s.slots|
            && (n.slots[i] != s.slots[i] ==>
                  (!s.slots[i].used && l.w in n.wrappers && n.wrappers[l.w].Owns(i)) ||
                  (l.w in s.wrappers && s.wrappers[l.w].Owns(i)))
            && (n.slots[i].used && !s.slots[i].used ==> l.w in n.wrappers && n.wrappers[l.w].Owns(i))
            && (l.w in s.wrappers && s.wrappers[l.w].Owns(i) && n.slots[i].used ==>
                  l.w in n.wrappers && n.wrappers[l.w].Owns(i))
            && (l.w in n.wrappers && n.wrappers[l.w].Owns(i) ==>
                  !s.slots[i].used || (l.w in s.wrappers && s.wrappers[l.w].Owns(i)))
  {}

  lemma StepKeepsOwners(s: Pool, l: Label, i: nat)
    requires SlotsOwned(s) && Enabled(s, l) && i < |s.slots| && i < |Step(s, l).slots| && Step(s, l).slots[i].used
    ensures HasOwner(Step(s, l), i)
  {
    SlotChange(s, l, i);
    StepIsLocal(s, l);
    hide Step;
    var n := Step(s, l);
    if s.slots[i].used {
      var w :| w in s.wrappers && s.wrappers[w].Owns(i);
      assert w in n.wrappers && n.wrappers[w].Owns(i);
    } else {
      assert n.wrappers[l.w].Owns(i);
    }
  }

  lemma StepKeepsFits(s: Pool, l: Label, v: Owner)
    requires SlotsOwned(s) && Enabled(s, l) && v in Step(s, l).wrappers
    ensures Fits(Step(s, l), Step(s, l).wrappers[v])
  {
    StepIsLocal(s, l);
    var n := Step(s, l);
    if v != l.w {
      var pc := s.wrappers[v];
      assert Fits(s, pc);
      if pc.Won? || pc.Pooled? || pc.Detaching? {
        SlotChange(s, l, pc.idx);
        assert l.w in s.wrappers ==> Apart(s.wrappers[l.w], pc);
      }
    }
    hide Step;
  }

  lemma StepKeepsApart(s: Pool, l: Label, v: Owner)
    requires SlotsOwned(s) && Enabled(s, l) && v in Step(s, l).wrappers && l.w in Step(s, l).wrappers && v != l.w
    ensures Apart(Step(s, l).wrappers[v], Step(s, l).wrappers[l.w])
  {
    StepIsLocal(s, l);
    var pc := s.wrappers[v];
    assert Fits(s, pc);
    if pc.Won? || pc.Pooled? || pc.Detaching? {
      SlotChange(s, l, pc.idx);
      assert l.w in s.wrappers ==> Apart(s.wrappers[l.w], pc);
    }
    hide Step;
  }

  lemma StepKeepsSlots(s: Pool, l: Label)
    requires SlotsOwned(s) && Enabled(s, l)
    ensures SlotsOwned(Step(s, l))
  {
    hide Step, Fits, Apart, HasOwner;
    StepIsLocal(s, l);
    var n := Step(s, l);
    forall i | 0 <= i < |n.slots| && n.slots[i].used
      ensures HasOwner(n, i)
    {
      StepKeepsOwners(s, l, i);
    }
    forall v | v in n.wrappers
      ensures Fits(n, n.wrappers[v])
    {
      StepKeepsFits(s, l, v);
    }
    forall v, w | v in n.wrappers && w in n.wrappers && v != w
      ensures Apart(n.wrappers[v], n.wrappers[w])
    {
      if w == l.w {
        StepKeepsApart(s, l, v);
      } else if v == l.w {
        StepKeepsApart(s, l, w);
        ApartBothWays(n.wrappers[w], n.wrappers[v]);
      }
    }
  }

  lemma ApartBothWays(a: Pc, b: Pc)
    requires Apart(a, b)
    ensures Apart(b, a)
  {}

  lemma StepKeepsInv(s: Pool, l: Label)
    requires PoolInv(s) && Enabled(s, l)
    ensures PoolInv(Step(s, l))
  {
    StepKeepsScopes(s, l);
    StepKeepsSlots(s, l);
  }

  lemma {:induction false} OwnershipOverRuns(s: Pool, run: seq<Label>, t: Pool)
    requires PoolInv(s) && Reaches(s, run, t)
    ensures PoolInv(t)
    decreases |run|
  {
    hide PoolInv, Step, Enabled;
    if run != [] {
      StepKeepsInv(s, run[0]);
      OwnershipOverRuns(Step(s, run[0]), run[1..], t);
    }
  }

  /** In every interleaving: two wrappers never have the same scope, and the scope a wrapper has is in no other
      place than its own slot or itself. */
  lemma WrappersAreIsolated(size: nat, run: seq<Label>, t: Pool, v: Owner, w: Owner)
    requires Reaches(Created(size), run, t) && v in t.wrappers && w in t.wrappers && v != w
    requires (t.wrappers[v].Pooled? || t.wrappers[v].OnHeap?) && (t.wrappers[w].Pooled? || t.wrappers[w].OnHeap?)
    ensures t.wrappers[v].scope != t.wrappers[w].scope
    ensures t.wrappers[v].scope !in t.detached && t.wrappers[v].scope !in t.deleted
    ensures t.detached !! t.deleted
  {
    CreatedInv(size);
    OwnershipOverRuns(Created(size), run, t);
    var a, b := t.wrappers[v], t.wrappers[w];
    var p := if a.Pooled? then InSlot(a.idx) else WithWrapper(v);
    var q := if b.Pooled? then InSlot(b.idx) else WithWrapper(w);
    assert IsAt(t, a.scope, p) && IsAt(t, b.scope, q);
    assert !IsAt(t, a.scope, Detached) && !IsAt(t, a.scope, Deleted);
    forall o: Scope
      ensures !(o in t.detached && o in t.deleted)
    {
      assert o in t.detached ==> IsAt(t, o, Detached);
      assert o in t.deleted ==> IsAt(t, o, Deleted);
    }
  }

  /** When all wrappers are gone, every slot is free again and every scope is in a slot, with whoever took it over,
      or deleted: nothing leaks and nothing is given back twice. */
  lemma AllGivenBack(size: nat, run: seq<Label>, t: Pool, o: Scope)
    requires Reaches(Created(size), run, t) && t.wrappers == map[]
    ensures forall i :: 0 <= i < |t.slots| ==> !t.slots[i].used
    ensures o < t.made <==> (exists p :: IsAt(t, o, p) && !p.WithWrapper?)
  {
    CreatedInv(size);
    OwnershipOverRuns(Created(size), run, t);
    forall i | 0 <= i < |t.slots|
      ensures !t.slots[i].used
    {
      assert !HasOwner(t, i);
    }
    assert Somewhere(t, o) <==> o < t.made;
    if o < t.made {
      var p :| IsAt(t, o, p);
      assert !p.WithWrapper?;
    }
  }
}
