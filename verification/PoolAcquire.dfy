/**
Acquiring from the scope pool while nobody interferes (src/TransactionScopePool.h).  The loop looks at as many
consecutive values of the head counter as there are slots; taken modulo the number of slots they name every slot,
so the heap is used only when all slots are in use.  The counter is a machine word: where it wraps around in the
middle of an acquire, this holds only for pool sizes that divide the range of the word.
*/
module PoolAcquire {
  import opened Common
  import opened ScopePool

  /** The counter after `k` attempts. */
  function HeadAfter(head: nat, k: nat): (h: nat)
    ensures h < WORD
  {
    (head + k) % WORD
  }

  /** The slot looked at in attempt `k`. */
  function Looked(head: nat, k: nat, size: nat): (i: nat)
    requires size > 0
    ensures i < size
  {
    HeadAfter(head, k) % size
  }

  /** Every slot is looked at in one of `size` attempts. */
  ghost predicate Covers(head: nat, size: nat)
    requires size > 0
  {
    forall i :: 0 <= i < size ==> IsLooked(head, size, i)
  }

  ghost predicate IsLooked(head: nat, size: nat, i: nat)
    requires size > 0
  {
    exists k :: 0 <= k < size && Looked(head, k, size) == i
  }

  /** The counter does not wrap within one acquire, or wrapping does no harm. */
  predicate WrapsWell(head: nat, size: nat)
    requires size > 0
  {
    head + size <= WORD || WORD % size == 0
  }

  /** Every slot that is looked at is in use. */
  predicate AllBusy(used: seq<bool>, head: nat, attempts: nat)
    requires attempts <= |used|
  {
    forall k :: 0 <= k < attempts ==> used[Looked(head, k, |used|)]
  }

  /** The first attempt from `k` on that finds a free slot, or the number of slots. */
  function FirstFree(used: seq<bool>, head: nat, k: nat): (r: nat)
    requires k <= |used|
    ensures k <= r <= |used| && (r < |used| ==> !used[Looked(head, r, |used|)])
    ensures forall j :: k <= j < r ==> used[Looked(head, j, |used|)]
    decreases |used| - k
  {
    if k == |used| || !used[Looked(head, k, |used|)] then k else FirstFree(used, head, k + 1)
  }

  class ScopePoolAlone {
    var used: array<bool>
    var scopes: array<Option<Scope>>
    var head: nat
    var made: nat
    var cacheMisses: nat

    predicate Valid()
      reads this
    {
      used != scopes as object && used.Length == scopes.Length && head < WORD
    }

    constructor (size: nat)
      ensures Valid() && fresh(used) && fresh(scopes) && used.Length == size && head == 0 && made == size
      ensures forall i :: 0 <= i < size ==> !used[i] && scopes[i] == Some(i)
    {
      used := new bool[size](i => false);
      scopes := new Option<Scope>[size]((i: nat) => Some(i));
      head, made, cacheMisses := 0, size, 0;
    }

    /** Takes a slot, and makes its scope if it has none yet. */
    method Claim(idx: nat) returns (scope: Scope)
      requires Valid() && idx < used.Length
      modifies this`made, used, scopes
      ensures Valid() && used[..] == old(used[..])[idx := true] && scopes[..] == old(scopes[..])[idx := Some(scope)]
      ensures old(scopes[idx]).Some? ==> Some(scope) == old(scopes[idx])
      ensures old(scopes[idx]).None? ==> scope == old(made)
      ensures made == old(made) + if old(scopes[idx]).Some? then 0 else 1
    {
      used[idx] := true;
      if scopes[idx].None? {
        scopes[idx] := Some(made);
        made := made + 1;
      }
      scope := scopes[idx].value;
    }

    /** TransactionScopePool::acquire.  The first free slot that is looked at is taken, and nothing is looked at after
        it; the heap is used if and only if no slot that is looked at is free. */
    method Acquire() returns (scope: Scope, index: Option<nat>)
      requires Valid()
      modifies this, used, scopes
      ensures Valid() && used == old(used) && scopes == old(scopes)
      ensures index.None? <==> AllBusy(old(used[..]), old(head), used.Length)
      ensures var k := FirstFree(old(used[..]), old(head), 0);
              if k < used.Length then
                index == Some(Looked(old(head), k, used.Length)) && head == HeadAfter(old(head), k + 1)
              else index == None && head == HeadAfter(old(head), k)
      ensures made == old(made) + if index.Some? && old(scopes[index.value]).Some? then 0 else 1
      ensures cacheMisses == old(cacheMisses) + if index.None? then 1 else 0
      ensures index.None? ==> scope == old(made) && used[..] == old(used[..]) && scopes[..] == old(scopes[..])
      ensures index.Some? ==>
                && index.value < used.Length && !old(used[index.value])
                && used[..] == old(used[..])[index.value := true]
                && scopes[..] == old(scopes[..])[index.value := Some(scope)]
                && (old(scopes[index.value]).Some? ==> Some(scope) == old(scopes[index.value]))
                && (old(scopes[index.value]).None? ==> scope == old(made))
    {
      hide HeadAfter;
      ghost var was := used[..];
      NextHead(head, 0);
      var attempts := 0;
      while attempts < used.Length
        invariant attempts <= used.Length && used == old(used) && scopes == old(scopes) && made == old(made)
        invariant used[..] == old(used[..]) && scopes[..] == old(scopes[..])
        invariant head == HeadAfter(old(head), attempts)
        invariant AllBusy(was, old(head), attempts)
        invariant cacheMisses == old(cacheMisses) && FirstFree(was, old(head), attempts) == FirstFree(was, old(head), 0)
      {
        NextHead(old(head), attempts);
        var idx := head % used.Length;
        head := (head + 1) % WORD;
        if !used[idx] {
          assert Looked(old(head), attempts, used.Length) == idx;
          scope := Claim(idx);
          index := Some(idx);
          return;
        }
        attempts := attempts + 1;
      }
      cacheMisses := cacheMisses + 1;
      scope, index := made, None;
      made := made + 1;
    }
  }

  lemma NextHead(head: nat, k: nat)
    ensures (HeadAfter(head, k) + 1) % WORD == HeadAfter(head, k + 1)
    ensures head < WORD ==> HeadAfter(head, 0) == head
  {}

  // ---------------------------------------------------------------- consecutive values name every slot

  /** The attempt that looks at slot `i` when nothing wraps. */
  function Attempt(head: nat, size: nat, i: nat): (k: nat)
    requires i < size
    ensures k < size
  {
    var r := head % size;
    if i >= r then i - r else i + size - r
  }

  lemma AttemptFinds(head: nat, size: nat, i: nat)
    requires i < size
    ensures (head + Attempt(head, size, i)) % size == i
  {
    var r, q, k := head % size, head / size, Attempt(head, size, i);
    assert head == size * q + r;
    if i >= r {
      ModIs(head + k, size, q, i);
    } else {
      assert size * (q + 1) == size * q + size;
      ModIs(head + k, size, q + 1, i);
    }
  }

  lemma DividesOut(x: nat, size: nat, word: nat)
    requires size > 0 && word % size == 0
    ensures (x + word) % size == x % size
  {
    var k, q, r := word / size, x / size, x % size;
    DivMod(word, size);
    DivMod(x, size);
    Distributes(size, q, k);
    ModIs(x + word, size, q + k, r);
  }

  lemma DivMod(x: nat, size: nat)
    requires size > 0
    ensures x == size * (x / size) + x % size
  {}

  lemma Distributes(a: nat, b: nat, c: nat)
    ensures a * (b + c) == a * b + a * c
  {}

  lemma WrapsWellCovers(head: nat, size: nat)
    requires head < WORD && 0 < size <= WORD && WrapsWell(head, size)
    ensures Covers(head, size)
  {
    forall i | 0 <= i < size
      ensures IsLooked(head, size, i)
    {
      AttemptFinds(head, size, i);
      var k := Attempt(head, size, i);
      if head + k >= WORD {
        assert (head + k) % WORD == head + k - WORD;
        DividesOut(head + k - WORD, size, WORD);
      } else {
        assert (head + k) % WORD == head + k;
      }
      assert Looked(head, k, size) == i;
    }
  }

  /** The slot that is missed when the counter wraps after `r` attempts and leaves a remainder. */
  function Missed(r: nat, size: nat): (j: nat)
    requires 0 < r < size && WORD % size != 0
    ensures j < size
  {
    var m := WORD % size;
    if m >= r then size - 1 else size + m - r - 1
  }

  lemma MissedBeforeWrap(r: nat, size: nat, k: nat)
    requires 0 < r < size <= WORD && WORD % size != 0 && k < r
    ensures (WORD - r + k) % size != Missed(r, size)
  {
    var m, q := WORD % size, WORD / size;
    assert WORD == size * q + m;
    if m + k >= r {
      ModIs(WORD - r + k, size, q, m + k - r);
    } else {
      assert q > 0 by { assert size * 0 == 0; }
      assert size * q == size * (q - 1) + size;
      ModIs(WORD - r + k, size, q - 1, size + m + k - r);
    }
  }

  lemma BadWrapMisses(head: nat, size: nat)
    requires head < WORD && 0 < size <= WORD && !WrapsWell(head, size)
    ensures !Covers(head, size)
  {
    var r := WORD - head;
    var j := Missed(r, size);
    forall k | 0 <= k < size
      ensures Looked(head, k, size) != j
    {
      if k < r {
        assert (head + k) % WORD == WORD - r + k;
        MissedBeforeWrap(r, size, k);
      } else {
        assert (head + k) % WORD == k - r;
        ModIs(k - r, size, 0, k - r);
      }
    }
    assert !IsLooked(head, size, j);
  }

  /** One acquire looks at every slot if and only if the counter does not wrap within it, or the number of slots
      divides the range of the counter. */
  lemma CoversIff(head: nat, size: nat)
    requires head < WORD && 0 < size <= WORD
    ensures Covers(head, size) <==> WrapsWell(head, size)
  {
    if WrapsWell(head, size) {
      WrapsWellCovers(head, size);
    } else {
      BadWrapMisses(head, size);
    }
  }

  /** Hence, without an unlucky wrap, no attempt finds a free slot exactly when every slot is in use: acquire falls
      back to the heap exactly when the pool is exhausted. */
  lemma HeapIffExhausted(used: seq<bool>, head: nat)
    requires head < WORD && 0 < |used| <= WORD && WrapsWell(head, |used|)
    ensures AllBusy(used, head, |used|) <==> (forall i :: 0 <= i < |used| ==> used[i])
  {
    CoversIff(head, |used|);
    if AllBusy(used, head, |used|) {
      forall i | 0 <= i < |used|
        ensures used[i]
      {
        assert IsLooked(head, |used|, i);
      }
    }
  }

  /** With an unlucky wrap the heap is used although a slot is free. */
  lemma HeapThoughFree(head: nat, size: nat) returns (used: seq<bool>)
    requires head < WORD && 0 < size <= WORD && !WrapsWell(head, size)
    ensures |used| == size && (exists i :: 0 <= i < size && !used[i])
    ensures AllBusy(used, head, size)
  {
    BadWrapMisses(head, size);
    var j :| 0 <= j < size && !IsLooked(head, size, j);
    used := seq(size, i => i != j);
    assert !used[j];
  }

  // ---------------------------------------------------------------- one wrapper alone

  function UsedFlags(s: Pool): (used: seq<bool>)
    ensures |used| == |s.slots|
  {
    seq(|s.slots|, i requires 0 <= i < |s.slots| => s.slots[i].used)
  }

  /** What the method above leaves of a pool, with its result in the hands of wrapper `w`. */
  function Acquired(s: Pool, w: Owner): Pool {
    var n, k := |s.slots|, FirstFree(UsedFlags(s), s.head, 0);
    if k < n then
      var i := Looked(s.head, k, n);
      var empty := s.slots[i].scope.None?;
      var scope := if empty then s.made else s.slots[i].scope.value;
      Pool(s.slots[i := Slot(true, Some(scope))], HeadAfter(s.head, k + 1), if empty then s.made + 1 else s.made,
           s.wrappers[w := Pooled(i, scope)], s.detached, s.deleted)
    else
      Pool(s.slots, HeadAfter(s.head, n), s.made + 1, s.wrappers[w := OnHeap(s.made)], s.detached, s.deleted)
  }

  /** The pool of `s` with wrapper `w` before attempt `k`. */
  function Attempting(s: Pool, w: Owner, k: nat): Pool {
    At(s, w, Trying(k)).(head := HeadAfter(s.head, k))
  }

  predicate OnlyMoves(run: seq<Label>, w: Owner) {
    forall i :: 0 <= i < |run| ==> run[i] == Move(w)
  }

  lemma OneMore(s: Pool, l: Label, run: seq<Label>, t: Pool)
    requires Enabled(s, l) && Reaches(Step(s, l), run, t)
    ensures Reaches(s, [l] + run, t)
  {
    hide Enabled, Step;
    assert ([l] + run)[1..] == run;
  }

  lemma Done(s: Pool)
    ensures Reaches(s, [], s)
  {}

  /** An attempt on a slot in use. */
  lemma AttemptFails(s: Pool, w: Owner, k: nat, run: seq<Label>, t: Pool)
    requires k < |s.slots| && s.slots[Looked(s.head, k, |s.slots|)].used
    requires Reaches(Attempting(s, w, k + 1), run, t)
    ensures Reaches(Attempting(s, w, k), [Move(w), Move(w)] + run, t)
  {
    hide HeadAfter, Reaches;
    NextHead(s.head, k);
    var i := Looked(s.head, k, |s.slots|);
    var s1 := At(s, w, Probing(k, i)).(head := HeadAfter(s.head, k + 1));
    assert Step(Attempting(s, w, k), Move(w)) == s1;
    assert Step(s1, Move(w)) == Attempting(s, w, k + 1);
    OneMore(s1, Move(w), run, t);
    OneMore(Attempting(s, w, k), Move(w), [Move(w)] + run, t);
    assert [Move(w)] + ([Move(w)] + run) == [Move(w), Move(w)] + run;
  }

  /** An attempt on a free slot. */
  lemma AttemptWins(s: Pool, w: Owner, k: nat)
    requires k < |s.slots| && FirstFree(UsedFlags(s), s.head, 0) == k
    ensures Reaches(Attempting(s, w, k), [Move(w), Move(w), Move(w)], Acquired(s, w))
  {
    hide HeadAfter, Reaches, FirstFree;
    NextHead(s.head, k);
    var i := Looked(s.head, k, |s.slots|);
    var s1 := At(s, w, Probing(k, i)).(head := HeadAfter(s.head, k + 1));
    var s2 := At(s1, w, Won(i)).(slots := s.slots[i := s.slots[i].(used := true)]);
    assert !s.slots[i].used;
    assert Step(Attempting(s, w, k), Move(w)) == s1 && Step(s1, Move(w)) == s2;
    assert Step(s2, Move(w)) == Acquired(s, w);
    Done(Acquired(s, w));
    OneMore(s2, Move(w), [], Acquired(s, w));
    OneMore(s1, Move(w), [Move(w)] + [], Acquired(s, w));
    OneMore(Attempting(s, w, k), Move(w), [Move(w)] + ([Move(w)] + []), Acquired(s, w));
    assert [Move(w)] + ([Move(w)] + ([Move(w)] + [])) == [Move(w), Move(w), Move(w)];
  }

  lemma AttemptsOver(s: Pool, w: Owner)
    requires FirstFree(UsedFlags(s), s.head, 0) == |s.slots|
    ensures Reaches(Attempting(s, w, |s.slots|), [Move(w)], Acquired(s, w))
  {
    hide HeadAfter, Reaches, FirstFree;
    assert Step(Attempting(s, w, |s.slots|), Move(w)) == Acquired(s, w);
    Done(Acquired(s, w));
    OneMore(Attempting(s, w, |s.slots|), Move(w), [], Acquired(s, w));
    assert [Move(w)] + [] == [Move(w)];
  }

  lemma {:induction false} AttemptsFrom(s: Pool, w: Owner, k: nat) returns (run: seq<Label>)
    requires k <= FirstFree(UsedFlags(s), s.head, 0)
    ensures OnlyMoves(run, w) && Reaches(Attempting(s, w, k), run, Acquired(s, w))
    decreases |s.slots| - k
  {
    hide HeadAfter, Reaches, FirstFree;
    var first := FirstFree(UsedFlags(s), s.head, 0);
    if k < first {
      var rest := AttemptsFrom(s, w, k + 1);
      AttemptFails(s, w, k, rest, Acquired(s, w));
      run := [Move(w), Move(w)] + rest;
    } else if k < |s.slots| {
      AttemptWins(s, w, k);
      run := [Move(w), Move(w), Move(w)];
    } else {
      AttemptsOver(s, w);
      run := [Move(w)];
    }
  }

  /** A wrapper that moves alone through the atomic steps of the pool acquires what the method does. */
  lemma SoloAcquire(s: Pool, w: Owner) returns (run: seq<Label>)
    requires w !in s.wrappers && s.head < WORD
    ensures OnlyMoves(run, w) && Reaches(s, [Construct(w)] + run, Acquired(s, w))
  {
    hide HeadAfter, Reaches, FirstFree;
    NextHead(s.head, 0);
    run := AttemptsFrom(s, w, 0);
    assert Step(s, Construct(w)) == Attempting(s, w, 0);
    OneMore(s, Construct(w), run, Acquired(s, w));
  }
}
