/**
One side of the order book: a multimap from price to order id (src/OrderBookImpl.h), as the sequence of its
entries in iteration order.  Bids run from the highest price down, asks from the lowest price up, and entries of
one price keep the order of their insertion.
*/
module BookModel {
  import opened Common

  /** Order ids as ranks; 0 is the invalid IdT(). */
  type OrderId = nat

  const NO_ORDER: OrderId := 0

  datatype Side = Buy | Sell

  datatype Entry = Entry(price: real, id: OrderId)

  function Opposite(side: Side): Side {
    if side.Buy? then Sell else Buy
  }

  /** The comparator of the side's multimap: `p` comes strictly before `q`. */
  predicate Before(side: Side, p: real, q: real) {
    if side.Buy? then p > q else p < q
  }

  predicate SortedSide(side: Side, list: seq<Entry>) {
    forall i, j :: 0 <= i < j < |list| ==> !Before(side, list[j].price, list[i].price)
  }

  /** The first position whose price is not before `price`. */
  function LowerBound(side: Side, list: seq<Entry>, price: real): (k: nat)
    ensures k <= |list|
  {
    if list == [] || !Before(side, list[0].price, price) then 0 else 1 + LowerBound(side, list[1..], price)
  }

  /** The first position whose price is after `price`: where an equal key is inserted. */
  function UpperBound(side: Side, list: seq<Entry>, price: real): (k: nat)
    ensures k <= |list|
  {
    if list == [] || Before(side, price, list[0].price) then 0 else 1 + UpperBound(side, list[1..], price)
  }

  function Inserted(side: Side, list: seq<Entry>, e: Entry): seq<Entry> {
    var k := UpperBound(side, list, e.price);
    list[..k] + [e] + list[k..]
  }

  lemma {:induction false} LowerBoundIs(side: Side, list: seq<Entry>, price: real)
    requires SortedSide(side, list)
    ensures var k := LowerBound(side, list, price);
            && (forall i :: 0 <= i < k ==> Before(side, list[i].price, price))
            && (forall i :: k <= i < |list| ==> !Before(side, list[i].price, price))
  {
    if list != [] && Before(side, list[0].price, price) {
      LowerBoundIs(side, list[1..], price);
      var k := LowerBound(side, list[1..], price);
      forall i | 0 <= i < |list|
        ensures i < k + 1 ==> Before(side, list[i].price, price)
        ensures k + 1 <= i ==> !Before(side, list[i].price, price)
      {
        assert i > 0 ==> list[i] == list[1..][i - 1];
      }
    }
  }

  lemma {:induction false} UpperBoundIs(side: Side, list: seq<Entry>, price: real)
    requires SortedSide(side, list)
    ensures var k := UpperBound(side, list, price);
            && (forall i :: 0 <= i < k ==> !Before(side, price, list[i].price))
            && (forall i :: k <= i < |list| ==> Before(side, price, list[i].price))
  {
    if list != [] && !Before(side, price, list[0].price) {
      UpperBoundIs(side, list[1..], price);
      var k := UpperBound(side, list[1..], price);
      forall i | 0 <= i < |list|
        ensures i < k + 1 ==> !Before(side, price, list[i].price)
        ensures k + 1 <= i ==> Before(side, price, list[i].price)
      {
        assert i > 0 ==> list[i] == list[1..][i - 1];
      }
    }
  }

  /** What is in `a + b` is in `a + [e] + b` with `e` once more. */
  lemma OneMore(a: seq<Entry>, e: Entry, b: seq<Entry>)
    ensures multiset(a + [e] + b) == multiset(a + b) + multiset{e}
  {}

  lemma InsertedSorted(side: Side, list: seq<Entry>, e: Entry)
    requires SortedSide(side, list)
    ensures SortedSide(side, Inserted(side, list, e))
    ensures forall i :: UpperBound(side, list, e.price) < i <= |list| ==>
                          Before(side, e.price, Inserted(side, list, e)[i].price)
  {
    UpperBoundIs(side, list, e.price);
    hide UpperBound, Inserted;
    var r, k := Inserted(side, list, e), UpperBound(side, list, e.price);
    InsertedElements(side, list, e);
    forall i, j | 0 <= i < j < |r|
      ensures !Before(side, r[j].price, r[i].price)
    {
      var x, y := if i < k then i else i - 1, if j < k then j else j - 1;
      assert i != k && j != k ==> !Before(side, list[y].price, list[x].price);
    }
  }

  lemma InsertedElements(side: Side, list: seq<Entry>, e: Entry)
    ensures var r, k := Inserted(side, list, e), UpperBound(side, list, e.price);
            && |r| == |list| + 1 && r[k] == e
            && (forall i :: 0 <= i < k ==> r[i] == list[i]) && (forall i :: k < i < |r| ==> r[i] == list[i - 1])
  {
    hide UpperBound;
  }

  /** Insertion keeps the order of prices, adds exactly the new entry and puts it behind all entries of its
      price, without moving the others against each other. */
  lemma InsertedIs(side: Side, list: seq<Entry>, e: Entry)
    requires SortedSide(side, list)
    ensures var r, k := Inserted(side, list, e), UpperBound(side, list, e.price);
            && SortedSide(side, r) && multiset(r) == multiset(list) + multiset{e}
            && k <= |list| && r[k] == e && r[..k] + r[k + 1..] == list
            && (forall i :: k < i < |r| ==> Before(side, e.price, r[i].price))
  {
    InsertedSorted(side, list, e);
    hide SortedSide, UpperBound;
    Spliced(list, UpperBound(side, list, e.price), e);
  }

  lemma Spliced(list: seq<Entry>, k: nat, e: Entry)
    requires k <= |list|
    ensures var r := list[..k] + [e] + list[k..];
            r[k] == e && r[..k] + r[k + 1..] == list && multiset(r) == multiset(list) + multiset{e}
  {
    OneMore(list[..k], e, list[k..]);
    SplitAt(list, k);
    var r := list[..k] + [e] + list[k..];
    assert r[..k] == list[..k];
    assert r[k + 1..] == list[k..];
  }

  lemma ErasedSorted(side: Side, list: seq<Entry>, k: nat)
    requires SortedSide(side, list) && k < |list|
    ensures SortedSide(side, list[..k] + list[k + 1..])
  {
    var r := list[..k] + list[k + 1..];
    assert forall i :: 0 <= i < k ==> r[i] == list[i];
    assert forall i :: k <= i < |r| ==> r[i] == list[i + 1];
  }

  lemma WithoutIs(side: Side, list: seq<Entry>, e: Entry)
    requires SortedSide(side, list)
    ensures SortedSide(side, Without(list, e))
    ensures multiset(Without(list, e)) == multiset(list) - multiset{e}
  {
    hide SortedSide, IndexOf;
    if e in list {
      var k := IndexOf(list, e);
      ErasedSorted(side, list, k);
      ErasedMultiset(list, k);
    }
  }

  lemma ErasedMultiset(list: seq<Entry>, k: nat)
    requires k < |list|
    ensures multiset(list[..k] + list[k + 1..]) == multiset(list) - multiset{list[k]}
  {
    OneMore(list[..k], list[k], list[k + 1..]);
    SplitAround(list, k);
  }

  lemma FreshInsertThenRemove(side: Side, list: seq<Entry>, e: Entry)
    requires SortedSide(side, list) && e !in list
    ensures Without(Inserted(side, list, e), e) == list
  {
    var r, k := Inserted(side, list, e), UpperBound(side, list, e.price);
    assert r[k] == e && e in r;
    assert forall i :: 0 <= i < k ==> r[i] in list;
    assert IndexOf(r, e) == k;
    assert r[..k] + r[k + 1..] == list;
  }

  /** Where the entries of one price end. */
  lemma LevelEnd(side: Side, list: seq<Entry>, k: nat)
    requires SortedSide(side, list) && k < |list|
    ensures var w := list[..k] + list[k + 1..];
            var m := UpperBound(side, w, list[k].price);
            k <= m < |list| && forall j :: k < j < |list| ==> (j <= m <==> list[j].price == list[k].price)
  {
    var w := list[..k] + list[k + 1..];
    ErasedSorted(side, list, k);
    UpperBoundIs(side, w, list[k].price);
    hide UpperBound;
    var m := UpperBound(side, w, list[k].price);
    assert forall j :: 0 <= j < k ==> w[j] == list[j] && !Before(side, list[k].price, w[j].price);
    var next := if m < |w| then w[m] else list[k];
    assert m < |w| ==> Before(side, list[k].price, next.price);
    forall j | k < j < |list|
      ensures j <= m <==> list[j].price == list[k].price
    {
      assert w[j - 1] == list[j];
    }
  }

  /** The entry at `k` moved to `m`. */
  function Rotate(list: seq<Entry>, k: nat, m: nat): seq<Entry>
    requires k <= m < |list|
  {
    var w := list[..k] + list[k + 1..];
    w[..m] + [list[k]] + w[m..]
  }

  lemma RotateElements(list: seq<Entry>, k: nat, m: nat)
    requires k <= m < |list|
    ensures var r := Rotate(list, k, m);
            && |r| == |list| && r[m] == list[k] && (forall j :: 0 <= j < k ==> r[j] == list[j])
            && (forall j :: k <= j < m ==> r[j] == list[j + 1]) && (forall j :: m < j < |list| ==> r[j] == list[j])
  {}

  /** Moving an entry changes nothing exactly if all entries it passes are equal to it. */
  lemma Rotated(list: seq<Entry>, k: nat, m: nat)
    requires k <= m < |list|
    ensures Rotate(list, k, m) == list <==> forall j :: k < j <= m ==> list[j] == list[k]
  {
    hide Rotate;
    RotateElements(list, k, m);
    if Rotate(list, k, m) == list {
      AllAlike(list, k, m);
    }
  }

  lemma {:induction false} AllAlike(list: seq<Entry>, k: nat, m: nat)
    requires k <= m < |list| && forall j :: k <= j < m ==> list[j] == list[j + 1]
    ensures forall j :: k <= j <= m ==> list[j] == list[k]
    decreases m
  {
    if k < m {
      AllAlike(list, k, m - 1);
      assert list[m - 1] == list[m - 1 + 1];
    }
  }

  /** No other order of its price comes after the first entry `e`. */
  predicate LastOfLevel(list: seq<Entry>, e: Entry)
    requires e in list
  {
    forall j :: IndexOf(list, e) < j < |list| && list[j].price == e.price ==> list[j] == e
  }

  /** Putting an entry back after taking it out moves it behind its equals: the side is as it was if and only if no
      other order of the same price came after it. */
  lemma RemoveThenInsert(side: Side, list: seq<Entry>, e: Entry)
    requires SortedSide(side, list) && e in list
    ensures Inserted(side, Without(list, e), e) == list <==> LastOfLevel(list, e)
  {
    hide SortedSide, UpperBound;
    var k := IndexOf(list, e);
    LevelEnd(side, list, k);
    Rotated(list, k, UpperBound(side, Without(list, e), e.price));
  }

  lemma {:induction false} BoundIsUnique(side: Side, list: seq<Entry>, price: real, k: nat)
    requires k <= |list| && forall i :: 0 <= i < k ==> !Before(side, price, list[i].price)
    requires k < |list| ==> Before(side, price, list[k].price)
    ensures UpperBound(side, list, price) == k
  {
    if k > 0 {
      BoundIsUnique(side, list[1..], price, k - 1);
    }
  }

  /** The place of an entry once an earlier one of its price is gone. */
  lemma BoundWithout(side: Side, list: seq<Entry>, k: nat)
    requires SortedSide(side, list) && k < |list|
    ensures var w := list[..k] + list[k + 1..];
            k < UpperBound(side, list, list[k].price) == UpperBound(side, w, list[k].price) + 1
  {
    var w, price := list[..k] + list[k + 1..], list[k].price;
    UpperBoundIs(side, list, price);
    hide UpperBound, SortedSide;
    var u := UpperBound(side, list, price);
    assert forall j :: 0 <= j < |w| ==> w[j] == if j < k then list[j] else list[j + 1];
    BoundIsUnique(side, w, price, u - 1);
  }

  lemma {:induction false} FirstIndex(s: seq<Entry>, e: Entry, k: nat)
    requires k < |s| && s[k] == e && e !in s[..k]
    ensures IndexOf(s, e) == k
  {
    if k > 0 {
      assert s[0] == s[..k][0] && s[1..][..k - 1] == s[..k][1..];
      FirstIndex(s[1..], e, k - 1);
    }
  }

  lemma FirstErased(s: seq<Entry>, e: Entry, k: nat)
    requires k < |s| && s[k] == e && e !in s[..k]
    ensures Without(s, e) == s[..k] + s[k + 1..]
  {
    FirstIndex(s, e, k);
  }

  lemma InsertedAt(side: Side, list: seq<Entry>, e: Entry, u: nat)
    requires UpperBound(side, list, e.price) == u
    ensures Inserted(side, list, e) == list[..u] + [e] + list[u..]
  {}

  /** An entry at `k` and its copy at `u`: taking out the first is moving it to the place of the second. */
  lemma FirstOfTwoErased(list: seq<Entry>, k: nat, u: nat)
    requires k < u <= |list| && list[k] !in list[..k]
    ensures Without(list[..u] + [list[k]] + list[u..], list[k]) == Rotate(list, k, u - 1)
  {
    var r := list[..u] + [list[k]] + list[u..];
    assert r[k] == list[k] && r[..k] == list[..k];
    FirstErased(r, list[k], k);
    CutIsRotation(list, k, u);
  }

  lemma CutIsRotation(list: seq<Entry>, k: nat, u: nat)
    requires k < u <= |list|
    ensures var r := list[..u] + [list[k]] + list[u..]; r[..k] + r[k + 1..] == Rotate(list, k, u - 1)
  {
    hide Rotate;
    RotateElements(list, k, u - 1);
    var r := list[..u] + [list[k]] + list[u..];
    var x := r[..k] + r[k + 1..];
    assert forall i :: 0 <= i < |list| ==> x[i] == if i < k then list[i] else if i < u - 1 then list[i + 1] else
      if i == u - 1 then list[k] else list[i];
  }

  /** A second entry of the same order: the first one is taken out. */
  lemma SecondInsertThenRemove(side: Side, list: seq<Entry>, e: Entry)
    requires SortedSide(side, list) && e in list
    ensures Without(Inserted(side, list, e), e) == Inserted(side, Without(list, e), e)
  {
    var k := IndexOf(list, e);
    BoundWithout(side, list, k);
    hide SortedSide, UpperBound, IndexOf, Without, Inserted;
    var u := UpperBound(side, list, e.price);
    InsertedAt(side, list, e, u);
    FirstErased(list, e, k);
    InsertedAt(side, Without(list, e), e, u - 1);
    FirstOfTwoErased(list, k, u);
  }

  /** Taking out what was just put in leaves the side as it was if and only if the order is new to the side or its
      entry there is the last of its price: the first entry of the order is the one that goes. */
  lemma InsertThenRemove(side: Side, list: seq<Entry>, e: Entry)
    requires SortedSide(side, list)
    ensures Without(Inserted(side, list, e), e) == list <==> (e in list ==> LastOfLevel(list, e))
  {
    hide SortedSide, Inserted, Without, LastOfLevel;
    if e in list {
      SecondInsertThenRemove(side, list, e);
      RemoveThenInsert(side, list, e);
    } else {
      FreshInsertThenRemove(side, list, e);
    }
  }
}
