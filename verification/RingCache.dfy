/**
The object cache of src/InterLockCache.h used by one thread at a time: a bounded first-in first-out queue that
allocates when it is empty and deletes what does not fit.
*/
module RingCache {
  import opened Common

  type Obj = nat

  /** The node `k` places after node `i` on a ring of `n`. */
  function Along(n: nat, i: nat, k: nat): (j: nat)
    requires i < n && k <= n
    ensures j < n
  {
    if i + k < n then i + k else i + k - n
  }

  /** How many steps lead from `i` to `j`. */
  function Distance(n: nat, i: nat, j: nat): (k: nat)
    requires i < n && j < n
    ensures k < n && Along(n, i, k) == j
  {
    if i <= j then j - i else j + n - i
  }

  function Queue(nodes: seq<Option<Obj>>, free: nat, count: nat): (q: seq<Obj>)
    requires free < |nodes| && count <= |nodes|
    requires forall k :: 0 <= k < count ==> nodes[Along(|nodes|, free, k)].Some?
    ensures |q| == count
  {
    seq(count, k requires 0 <= k < count => nodes[Along(|nodes|, free, k)].value)
  }

  class InterLockCache {
    var nodes: array<Option<Obj>>
    var nextFree: nat
    var nextNull: nat
    var made: nat                // objects created so far
    var deleted: seq<Obj>

    ghost predicate Valid()
      reads this, nodes
    {
      && 2 <= nodes.Length && nextFree < nodes.Length && nextNull < nodes.Length
      && forall k :: 0 <= k < nodes.Length ==>
           (nodes[Along(nodes.Length, nextFree, k)].Some? <==> k < Distance(nodes.Length, nextFree, nextNull))
    }

    ghost function Contents(): (q: seq<Obj>)
      requires Valid()
      reads this, nodes
    {
      Queue(nodes[..], nextFree, Distance(nodes.Length, nextFree, nextNull))
    }

    ghost function Capacity(): nat
      requires Valid()
      reads this, nodes
    {
      nodes.Length - 1
    }

    /** Filled with `cacheSize` + 1 new objects, which is also all it can hold. */
    constructor (cacheSize: nat)
      ensures Valid() && fresh(nodes) && made == cacheSize + 1 && deleted == []
      ensures Capacity() == cacheSize + 1 && Contents() == seq(cacheSize + 1, i => i)
    {
      nodes := new Option<Obj>[cacheSize + 2](i => if i <= cacheSize then Some(i) else None);
      nextFree, nextNull, made, deleted := 0, cacheSize + 1, cacheSize + 1, [];
    }

    /** The front of the queue, or a new object when there is none. */
    method PopFront() returns (v: Obj)
      requires Valid()
      modifies this, nodes
      ensures Valid() && nodes == old(nodes) && deleted == old(deleted)
      ensures old(Contents()) == [] ==> v == old(made) && made == old(made) + 1 && Contents() == []
      ensures old(Contents()) != [] ==>
                v == old(Contents())[0] && Contents() == old(Contents())[1..] && made == old(made)
    {
      var taken: Option<Obj> := None;
      while taken.None?
        invariant Valid() && nodes == old(nodes) && nextNull == old(nextNull) && deleted == old(deleted)
        invariant made == old(made)
        invariant taken.None? ==> nextFree == old(nextFree) && nodes[..] == old(nodes[..])
        invariant taken.Some? ==>
                    old(Contents()) != [] && taken.value == old(Contents())[0] && Contents() == old(Contents())[1..]
        decreases if taken.None? then 1 else 0
      {
        var cur, empty := nextFree, nextNull;
        if cur == empty {
          v := made;
          made := made + 1;
          return;
        }
        ghost var before := nodes[..];
        taken := nodes[cur];
        nodes[cur] := None;
        if nextFree == cur {
          nextFree := Along(nodes.Length, cur, 1);
        }
        PopIs(before, nodes[..], cur, empty);
      }
      v := taken.value;
    }

    /** Appends to the queue, or deletes the object when the queue is full.  `spurious` counts the failures of the
        weak compare-and-exchange. */
    method PushBack(val: Obj, spurious: nat)
      requires Valid()
      modifies this, nodes
      ensures Valid() && nodes == old(nodes) && made == old(made)
      ensures |old(Contents())| < Capacity() ==> Contents() == old(Contents()) + [val] && deleted == old(deleted)
      ensures |old(Contents())| >= Capacity() ==> Contents() == old(Contents()) && deleted == old(deleted) + [val]
    {
      var cur, free := nextNull, nextFree;
      var fails := spurious;
      while Along(nodes.Length, cur, 1) != free
        invariant Valid() && nodes == old(nodes) && nodes[..] == old(nodes[..])
        invariant cur == nextNull == old(nextNull) && free == nextFree == old(nextFree)
        invariant made == old(made) && deleted == old(deleted)
        decreases fails
      {
        assert Along(nodes.Length, nextFree, Distance(nodes.Length, nextFree, nextNull)) == cur;
        if nodes[cur].None? && fails == 0 {
          ghost var before := nodes[..];
          nodes[cur] := Some(val);
          if nextNull == cur {
            nextNull := Along(nodes.Length, cur, 1);
          }
          PushIs(before, nodes[..], free, cur, val);
          return;
        }
        fails := fails - 1;
        cur, free := nextNull, nextFree;
      }
      deleted := deleted + [val];
    }
  }

  predicate RingOk(nodes: seq<Option<Obj>>, free: nat, empty: nat) {
    && 2 <= |nodes| && free < |nodes| && empty < |nodes|
    && forall k :: 0 <= k < |nodes| ==>
         (nodes[Along(|nodes|, free, k)].Some? <==> k < Distance(|nodes|, free, empty))
  }

  lemma AlongStep(n: nat, i: nat, k: nat)
    requires 2 <= n && i < n && k < n
    ensures Along(n, Along(n, i, 1), k) == if k + 1 < n then Along(n, i, k + 1) else i
  {}

  lemma DistanceStep(n: nat, i: nat, j: nat)
    requires 2 <= n && i < n && j < n
    ensures i != j ==> Distance(n, Along(n, i, 1), j) == Distance(n, i, j) - 1
    ensures Along(n, j, 1) != i ==> Distance(n, i, Along(n, j, 1)) == Distance(n, i, j) + 1
    ensures Along(n, j, 1) == i <==> Distance(n, i, j) == n - 1
  {}

  lemma PopIs(before: seq<Option<Obj>>, after: seq<Option<Obj>>, free: nat, empty: nat)
    requires RingOk(before, free, empty) && free != empty && after == before[free := None]
    ensures var n := |before|; var next := Along(n, free, 1);
            && RingOk(after, next, empty)
            && before[free].Some?
            && before[free].value == Queue(before, free, Distance(n, free, empty))[0]
            && Queue(after, next, Distance(n, next, empty)) == Queue(before, free, Distance(n, free, empty))[1..]
  {
    var n := |before|;
    var next := Along(n, free, 1);
    DistanceStep(n, free, empty);
    assert Along(n, free, 0) == free;
    forall k | 0 <= k < n
      ensures after[Along(n, next, k)].Some? <==> k < Distance(n, next, empty)
    {
      AlongStep(n, free, k);
    }
    forall k | 0 <= k < Distance(n, next, empty)
      ensures after[Along(n, next, k)] == before[Along(n, free, k + 1)]
    {
      AlongStep(n, free, k);
    }
  }

  lemma PushIs(before: seq<Option<Obj>>, after: seq<Option<Obj>>, free: nat, empty: nat, val: Obj)
    requires RingOk(before, free, empty) && Along(|before|, empty, 1) != free && after == before[empty := Some(val)]
    ensures var n := |before|; var next := Along(n, empty, 1);
            && RingOk(after, free, next)
            && Queue(after, free, Distance(n, free, next)) == Queue(before, free, Distance(n, free, empty)) + [val]
  {
    var n, d := |before|, Distance(|before|, free, empty);
    DistanceStep(n, free, empty);
    assert Along(n, free, d) == empty;
    forall k | 0 <= k < n
      ensures after[Along(n, free, k)] == if k == d then Some(val) else before[Along(n, free, k)]
    {
      assert k != d ==> Along(n, free, k) != empty;
    }
  }
}
