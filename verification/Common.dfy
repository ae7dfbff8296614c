/** Small vocabulary shared by the models: options, duplicate-free sequences and ascending key lists. */
module Common {

  datatype Option<+T> = None | Some(value: T)

  /** The range of a 32-bit number. */
  const U32: nat := 0x1_0000_0000

  predicate NoDup<T(==)>(s: seq<T>) {
    forall i, j :: 0 <= i < j < |s| ==> s[i] != s[j]
  }

  predicate Ascending(s: seq<nat>) {
    forall i, j :: 0 <= i < j < |s| ==> s[i] < s[j]
  }

  /** The first position of `x` in `s`. */
  function IndexOf<T(==)>(s: seq<T>, x: T): (i: nat)
    requires x in s
    ensures i < |s| && s[i] == x
    ensures x !in s[..i]
  {
    if s[0] == x then 0 else 1 + IndexOf(s[1..], x)
  }

  /** `s` with the first occurrence of `x`, if any, erased. */
  function Without<T(==)>(s: seq<T>, x: T): seq<T> {
    if x in s then s[..IndexOf(s, x)] + s[IndexOf(s, x) + 1..] else s
  }

  lemma IndexOfUnique<T>(s: seq<T>, i: nat)
    requires NoDup(s) && i < |s|
    ensures IndexOf(s, s[i]) == i
  {
    var j := IndexOf(s, s[i]);
    assert s[j] == s[i];
  }

  lemma WithoutAt<T>(s: seq<T>, i: nat)
    requires NoDup(s) && i < |s|
    ensures Without(s, s[i]) == s[..i] + s[i + 1..]
  {
    IndexOfUnique(s, i);
  }

  lemma NoDupParts<T>(a: seq<T>, b: seq<T>)
    requires NoDup(a + b)
    ensures NoDup(a) && NoDup(b)
    ensures forall x :: x in a ==> x !in b
  {
    var w := a + b;
    forall i, j | 0 <= i < |a| && 0 <= j < |b|
      ensures a[i] != b[j]
    {
      assert w[i] != w[|a| + j];
    }
    forall i, j | 0 <= i < j < |b|
      ensures b[i] != b[j]
    {
      assert w[|a| + i] != w[|a| + j];
    }
    forall i, j | 0 <= i < j < |a|
      ensures a[i] != a[j]
    {
      assert w[i] != w[j];
    }
  }

  lemma WithoutAbsent<T>(s: seq<T>, x: T)
    requires x !in s
    ensures Without(s, x) == s
  {}

  lemma CutLeft<T>(a: seq<T>, b: seq<T>, i: nat)
    requires i < |a|
    ensures var w := a + b; w[i] == a[i] && w[..i] + w[i + 1..] == (a[..i] + a[i + 1..]) + b
  {}

  lemma CutRight<T>(a: seq<T>, b: seq<T>, i: nat)
    requires i < |b|
    ensures var w, j := a + b, |a| + i; w[j] == b[i] && w[..j] + w[j + 1..] == a + (b[..i] + b[i + 1..])
  {}

  lemma WithoutConcat<T>(a: seq<T>, b: seq<T>, x: T)
    requires NoDup(a + b)
    ensures Without(a + b, x) == Without(a, x) + Without(b, x)
  {
    hide NoDup, Without, IndexOf;
    NoDupParts(a, b);
    if x in a {
      var i := IndexOf(a, x);
      CutLeft(a, b, i);
      WithoutAt(a, i);
      WithoutAt(a + b, i);
      WithoutAbsent(b, x);
    } else if x in b {
      var i := IndexOf(b, x);
      CutRight(a, b, i);
      WithoutAt(b, i);
      WithoutAt(a + b, |a| + i);
      WithoutAbsent(a, x);
    } else {
      WithoutAbsent(a, x);
      WithoutAbsent(b, x);
      WithoutAbsent(a + b, x);
    }
  }

  lemma ConcatAssoc<T>(a: seq<T>, b: seq<T>, c: seq<T>)
    ensures a + (b + c) == a + b + c
  {}

  lemma SplitAt<T>(s: seq<T>, k: nat)
    requires k <= |s|
    ensures s == s[..k] + s[k..]
  {}

  lemma SplitAround<T>(s: seq<T>, k: nat)
    requires k < |s|
    ensures s == s[..k] + [s[k]] + s[k + 1..]
  {}

  lemma FirstIsMember<T>(s: seq<T>)
    ensures s != [] ==> s[0] in s
  {}

  lemma WithoutIndex<T>(s: seq<T>, x: T)
    requires x in s
    ensures var i, w := IndexOf(s, x), Without(s, x);
            && |w| == |s| - 1
            && (forall k :: 0 <= k < i ==> w[k] == s[k]) && (forall k :: i <= k < |w| ==> w[k] == s[k + 1])
  {
    hide IndexOf;
  }

  lemma WithoutMembers<T>(s: seq<T>, x: T)
    requires NoDup(s)
    ensures NoDup(Without(s, x))
    ensures forall y :: y in Without(s, x) <==> y in s && y != x
    ensures |Without(s, x)| == if x in s then |s| - 1 else |s|
  {
    if x in s {
      WithoutIndex(s, x);
      hide Without;
      var i, w := IndexOf(s, x), Without(s, x);
      forall y
        ensures y in w <==> y in s && y != x
      {
        if y in s && y != x {
          var j := IndexOf(s, y);
          assert w[if j < i then j else j - 1] == y;
        }
        if y in w {
          var k :| 0 <= k < |w| && w[k] == y;
          assert s[if k < i then k else k + 1] == y;
        }
      }
    }
  }

  lemma AscendingNoDup(s: seq<nat>)
    requires Ascending(s)
    ensures NoDup(s)
  {}

  lemma {:induction false} AscendingUnique(a: seq<nat>, b: seq<nat>)
    requires Ascending(a) && Ascending(b)
    requires forall x :: x in a <==> x in b
    ensures a == b
  {
    assert |b| > 0 ==> b[0] in a;
    if a != [] {
      assert a[0] in b;
      assert b[0] in a;
      assert a[0] == b[0];
      forall x
        ensures x in a[1..] <==> x in b[1..]
      {
        assert x in a[1..] <==> x in a && x != a[0];
        assert x in b[1..] <==> x in b && x != b[0];
      }
      AscendingUnique(a[1..], b[1..]);
    }
  }

  lemma WithoutAscending(s: seq<nat>, x: nat)
    requires Ascending(s)
    ensures Ascending(Without(s, x))
  {}

  /** The element just before `k`, or 0 (the null key) when `k` is first or absent. */
  function Pred(s: seq<nat>, k: nat): nat {
    if k in s && IndexOf(s, k) > 0 then s[IndexOf(s, k) - 1] else 0
  }

  /** The element just after `k`, or 0 (the null key) when `k` is last or absent. */
  function Succ(s: seq<nat>, k: nat): nat {
    if k in s && IndexOf(s, k) + 1 < |s| then s[IndexOf(s, k) + 1] else 0
  }

  lemma PredSucc(s: seq<nat>, k: nat, c: nat)
    requires Ascending(s) && 0 !in s && k in s && c in s
    ensures Pred(s, c) == k <==> Succ(s, k) == c
    ensures Pred(s, c) < c
    ensures Pred(s, c) != 0 ==> Pred(s, c) in s
  {
    AscendingNoDup(s);
    var i, j := IndexOf(s, k), IndexOf(s, c);
    if Pred(s, c) == k {
      assert j > 0 && s[j - 1] == s[i];
      IndexOfUnique(s, j - 1);
    }
    if Succ(s, k) == c {
      assert s[i + 1] == s[j];
      IndexOfUnique(s, i + 1);
    }
  }

  lemma PredAt(s: seq<nat>, j: nat)
    requires Ascending(s) && j < |s|
    ensures Pred(s, s[j]) == if j == 0 then 0 else s[j - 1]
  {
    AscendingNoDup(s);
    IndexOfUnique(s, j);
  }

  /** Erasing `k` rewires only the successor of `k`: its predecessor becomes the predecessor of `k`. */
  lemma PredWithout(s: seq<nat>, k: nat, c: nat)
    requires Ascending(s) && 0 !in s && k in s && c in s && c != k
    ensures Pred(Without(s, k), c) == if Pred(s, c) == k then Pred(s, k) else Pred(s, c)
  {
    hide Pred, Without, Ascending;
    var i, j, w := IndexOf(s, k), IndexOf(s, c), Without(s, k);
    WithoutAscending(s, k);
    WithoutIndex(s, k);
    PredAt(s, i);
    PredAt(s, j);
    PredAt(w, if j < i then j else j - 1);
    assert j > 0 && s[j - 1] == s[i] ==> j == i + 1 by {
      AscendingNoDup(s);
    }
  }

  ghost function Minimum(s: set<nat>): (m: nat)
    requires s != {}
    ensures m in s
    ensures forall k :: k in s ==> m <= k
  {
    var x :| x in s;
    if s == {x} then x else
      var m := Minimum(s - {x});
      assert forall k :: k in s ==> k == x || k in s - {x};
      if x < m then x else m
  }

  /** The elements of a finite key set in ascending order. */
  ghost function Sorted(s: set<nat>): (r: seq<nat>)
    ensures Ascending(r)
    ensures forall k :: k in r <==> k in s
    decreases s
  {
    if s == {} then [] else
      var m := Minimum(s);
      var rest := Sorted(s - {m});
      assert forall i :: 0 <= i < |rest| ==> rest[i] in s - {m};
      [m] + rest
  }

  /** A remainder is determined by any decomposition. */
  lemma ModIs(x: nat, p: nat, q: nat, r: nat)
    requires p > 0 && r < p && x == p * q + r
    ensures x % p == r
  {
    var d := x / p;
    assert p * d + x % p == x;
    SameQuotient(p, d, q, x % p, r);
  }

  lemma SameQuotient(p: nat, a: nat, b: nat, r: nat, s: nat)
    requires r < p && s < p && p * a + r == p * b + s
    ensures a == b && r == s
  {
    if a < b {
      assert p * (b - a) >= p by { Grows(p, b - a); }
      assert false;
    } else if b < a {
      assert p * (a - b) >= p by { Grows(p, a - b); }
      assert false;
    }
  }

  lemma Grows(p: nat, n: nat)
    requires n > 0
    ensures p * n >= p
  {}

  function Sum(s: seq<nat>): nat {
    if s == [] then 0 else s[0] + Sum(s[1..])
  }

  lemma {:induction false} SumUpdate(s: seq<nat>, i: nat, v: nat)
    requires i < |s|
    ensures Sum(s[i := v]) == Sum(s) - s[i] + v
  {
    if i == 0 {
      assert s[i := v][1..] == s[1..];
    } else {
      SumUpdate(s[1..], i - 1, v);
      assert s[i := v][1..] == s[1..][i - 1 := v];
    }
  }

  lemma {:induction false} SumAppend(s: seq<nat>, v: nat)
    ensures Sum(s + [v]) == Sum(s) + v
  {
    if s == [] {
      assert s + [v] == [v];
    } else {
      SumAppend(s[1..], v);
      assert (s + [v])[1..] == s[1..] + [v];
    }
  }
}
