/**
The time order after a rollback.  Undoing a removal puts the order at the tail of its price level, so a rollback may
leave the right orders in the wrong order.  It does so exactly if a removed order had one behind it that the transaction
did not add itself.
*/
module RollbackOrder {
  import opened Common
  import opened BookModel
  import opened OrderBookClass
  import opened Rollback

  // ---------------------------------------------------------------- a side without some entries

  /** The entries that are not in `drop`. */
  function Strip(list: seq<Entry>, drop: set<Entry>): seq<Entry> {
    if list == [] then [] else (if list[0] in drop then [] else [list[0]]) + Strip(list[1..], drop)
  }

  lemma {:induction false} StripConcat(a: seq<Entry>, b: seq<Entry>, drop: set<Entry>)
    ensures Strip(a + b, drop) == Strip(a, drop) + Strip(b, drop)
  {
    if a == [] {
      assert a + b == b;
    } else {
      StripConcat(a[1..], b, drop);
      assert (a + b)[1..] == a[1..] + b;
      ConcatAssoc(if a[0] in drop then [] else [a[0]], Strip(a[1..], drop), Strip(b, drop));
    }
  }

  lemma {:induction false} StripMembers(list: seq<Entry>, drop: set<Entry>)
    ensures forall x :: x in Strip(list, drop) <==> x in list && x !in drop
  {
    if list != [] {
      StripMembers(list[1..], drop);
      assert list == [list[0]] + list[1..];
    }
  }

  lemma {:induction false} StripNothing(list: seq<Entry>)
    ensures Strip(list, {}) == list
  {
    if list != [] {
      StripNothing(list[1..]);
      assert list == [list[0]] + list[1..];
    }
  }

  lemma {:induction false} StripStrange(list: seq<Entry>, drop: set<Entry>, e: Entry)
    requires e !in list
    ensures Strip(list, drop + {e}) == Strip(list, drop)
  {
    if list != [] {
      StripStrange(list[1..], drop, e);
    }
  }

  lemma StripOne(e: Entry, drop: set<Entry>)
    ensures Strip([e], drop) == if e in drop then [] else [e]
  {
    assert [e][1..] == [];
  }

  /** An entry in the middle. */
  lemma StripAround(a: seq<Entry>, e: Entry, b: seq<Entry>, drop: set<Entry>)
    ensures Strip(a + [e] + b, drop) == Strip(a, drop) + (if e in drop then [] else [e]) + Strip(b, drop)
  {
    hide Strip;
    StripConcat(a + [e], b, drop);
    StripConcat(a, [e], drop);
    StripOne(e, drop);
  }

  /** The parts of a list around the first occurrence of an entry. */
  lemma FirstParts(list: seq<Entry>, e: Entry) returns (a: seq<Entry>, b: seq<Entry>)
    requires e in list
    ensures list == a + [e] + b && e !in a && Without(list, e) == a + b
    ensures a == list[..IndexOf(list, e)] && b == list[IndexOf(list, e) + 1..]
  {
    hide IndexOf;
    var k := IndexOf(list, e);
    SplitAround(list, k);
    a, b := list[..k], list[k + 1..];
  }

  lemma WithoutMiddle(a: seq<Entry>, e: Entry, b: seq<Entry>)
    requires e !in a
    ensures Without(a + [e] + b, e) == a + b && IndexOf(a + [e] + b, e) == |a|
  {
    hide Without, IndexOf;
    var s := a + [e] + b;
    assert s[..|a|] == a && s[|a| + 1..] == b && s[|a|] == e;
    FirstErased(s, e, |a|);
    FirstIndex(s, e, |a|);
  }

  lemma StripWithout(list: seq<Entry>, e: Entry, drop: set<Entry>)
    ensures Strip(Without(list, e), drop) == if e in drop then Strip(list, drop) else Without(Strip(list, drop), e)
  {
    hide Strip, Without;
    StripMembers(list, drop);
    if e in list {
      var a, b := FirstParts(list, e);
      StripAround(a, e, b, drop);
      StripConcat(a, b, drop);
      if e in drop {
        assert Strip(a, drop) + [] + Strip(b, drop) == Strip(a, drop) + Strip(b, drop);
      } else {
        StripMembers(a, drop);
        WithoutMiddle(Strip(a, drop), e, Strip(b, drop));
      }
    } else {
      WithoutAbsent(list, e);
      if e !in drop {
        WithoutAbsent(Strip(list, drop), e);
      }
    }
  }

  /** An entry that is there once. */
  lemma StripMore(list: seq<Entry>, e: Entry, drop: set<Entry>)
    requires multiset(list)[e] <= 1
    ensures Strip(list, drop + {e}) == Strip(Without(list, e), drop)
  {
    hide Strip, Without;
    if e in list {
      var a, b := FirstParts(list, e);
      assert multiset(list) == multiset(a) + multiset{e} + multiset(b);
      assert e !in b;
      StripAround(a, e, b, drop + {e});
      StripStrange(a, drop, e);
      StripStrange(b, drop, e);
      StripConcat(a, b, drop);
      assert Strip(a, drop) + [] + Strip(b, drop) == Strip(a, drop) + Strip(b, drop);
    } else {
      WithoutAbsent(list, e);
      StripStrange(list, drop, e);
    }
  }

  lemma {:induction false} StripSorted(side: Side, list: seq<Entry>, drop: set<Entry>)
    requires SortedSide(side, list)
    ensures SortedSide(side, Strip(list, drop))
  {
    if list != [] {
      var rest := Strip(list[1..], drop);
      StripSorted(side, list[1..], drop);
      StripMembers(list[1..], drop);
      if list[0] !in drop {
        forall j | 0 <= j < |rest|
          ensures !Before(side, rest[j].price, list[0].price)
        {
          assert rest[j] in list[1..];
          var k :| 0 <= k < |list[1..]| && list[1..][k] == rest[j];
          assert list[k + 1] == rest[j];
        }
      } else {
        assert [] + rest == rest;
      }
    }
  }

  lemma StripInserted(side: Side, list: seq<Entry>, e: Entry, drop: set<Entry>)
    requires SortedSide(side, list)
    ensures Strip(Inserted(side, list, e), drop) ==
            if e in drop then Strip(list, drop) else Inserted(side, Strip(list, drop), e)
  {
    var k := UpperBound(side, list, e.price);
    UpperBoundIs(side, list, e.price);
    hide Strip, SortedSide, UpperBound;
    var a, b := list[..k], list[k..];
    SplitAt(list, k);
    StripAround(a, e, b, drop);
    StripConcat(a, b, drop);
    var x, y := Strip(a, drop), Strip(b, drop);
    if e in drop {
      assert x + [] + y == x + y;
    } else {
      StripMembers(a, drop);
      StripMembers(b, drop);
      BoundBetween(side, x, y, e);
      assert (x + y)[..|x|] == x && (x + y)[|x|..] == y;
    }
  }

  lemma BoundBetween(side: Side, x: seq<Entry>, y: seq<Entry>, e: Entry)
    requires forall z :: z in x ==> !Before(side, e.price, z.price)
    requires forall z :: z in y ==> Before(side, e.price, z.price)
    ensures UpperBound(side, x + y, e.price) == |x|
  {
    var l := x + y;
    assert forall i :: 0 <= i < |x| ==> l[i] in x;
    assert |x| < |l| ==> l[|x|] in y;
    BoundIsUnique(side, l, e.price, |x|);
  }

  // ---------------------------------------------------------------- last among the others

  /** All entries behind the first `e` at its price are `e` again or in `drop`. */
  predicate LastAmong(list: seq<Entry>, e: Entry, drop: set<Entry>)
    requires e in list
  {
    forall m :: IndexOf(list, e) < m < |list| && list[m].price == e.price ==> list[m] == e || list[m] in drop
  }

  lemma LastAmongIs(list: seq<Entry>, e: Entry, drop: set<Entry>)
    requires e in list && e !in drop
    ensures e in Strip(list, drop) && (LastOfLevel(Strip(list, drop), e) <==> LastAmong(list, e, drop))
  {
    hide Strip, IndexOf, LastAmong, LastOfLevel;
    StripMembers(list, drop);
    var a, b := FirstParts(list, e);
    var x, y := Strip(a, drop), Strip(b, drop);
    StripAround(a, e, b, drop);
    StripMembers(a, drop);
    StripMembers(b, drop);
    BehindIs(list, a, e, b, drop);
    BehindIs(Strip(list, drop), x, e, y, {});
    LastOfAll(Strip(list, drop), e);
  }

  lemma LastOfAll(list: seq<Entry>, e: Entry)
    requires e in list
    ensures LastOfLevel(list, e) <==> LastAmong(list, e, {})
  {
    hide IndexOf;
  }

  /** What is behind the first `e` is what is in the rest. */
  lemma BehindIs(list: seq<Entry>, a: seq<Entry>, e: Entry, b: seq<Entry>, drop: set<Entry>)
    requires list == a + [e] + b && e !in a
    ensures e in list
    ensures LastAmong(list, e, drop) <==> forall x :: x in b && x.price == e.price ==> x == e || x in drop
  {
    hide IndexOf;
    assert list[|a|] == e;
    WithoutMiddle(a, e, b);
    assert list[|a| + 1..] == b;
    if LastAmong(list, e, drop) {
      forall x | x in b && x.price == e.price
        ensures x == e || x in drop
      {
        var i :| 0 <= i < |b| && b[i] == x;
        assert list[|a| + 1 + i] == x;
      }
    } else {
      var m :| |a| < m < |list| && list[m].price == e.price && list[m] != e && list[m] !in drop;
      assert list[m] == b[m - |a| - 1];
    }
  }

  /** Putting an entry back where it is absent restores the list exactly if the rest is right and it was the last. */
  lemma PutBackIff(side: Side, rest: seq<Entry>, list: seq<Entry>, e: Entry)
    requires SortedSide(side, rest) && SortedSide(side, list) && e !in rest && e in list
    ensures Inserted(side, rest, e) == list <==> rest == Without(list, e) && LastOfLevel(list, e)
  {
    hide SortedSide, Inserted, Without, LastOfLevel;
    FreshInsertThenRemove(side, rest, e);
    RemoveThenInsert(side, list, e);
  }

  // ---------------------------------------------------------------- undoing one operation on a side

  /** An add: `now` is the side when it is undone, `was` the side before it was done.  What counts is the side without
      the entries that are in `added`, to which the new one belongs from here on. */
  lemma UndoAddOn(side: Side, now: seq<Entry>, was: seq<Entry>, e: Entry, added: set<Entry>)
    requires SortedSide(side, now) && SortedSide(side, was)
    requires e !in added ==> e !in was && multiset(now)[e] <= 1
    ensures Strip(Without(now, e), added) == Strip(was, added) <==>
            Strip(now, added + {e}) == Strip(Inserted(side, was, e), added + {e})
  {
    hide Strip, Without, Inserted, SortedSide;
    if e in added {
      assert added + {e} == added;
      StripWithout(now, e, added);
      StripInserted(side, was, e, added);
    } else {
      StripMore(now, e, added);
      InsertedIs(side, was, e);
      StripMore(Inserted(side, was, e), e, added);
      FreshInsertThenRemove(side, was, e);
    }
  }

  lemma UndoRemoveOn(side: Side, now: seq<Entry>, was: seq<Entry>, e: Entry, added: set<Entry>)
    requires SortedSide(side, now) && SortedSide(side, was) && e in was && (e !in added ==> e !in now)
    ensures Strip(Inserted(side, now, e), added) == Strip(was, added) <==>
            && Strip(now, added) == Strip(Without(was, e), added)
            && (e !in added ==> LastAmong(was, e, added))
  {
    hide Strip, Without, Inserted, SortedSide, LastAmong, LastOfLevel;
    StripInserted(side, now, e, added);
    StripWithout(was, e, added);
    if e !in added {
      StripMembers(now, added);
      StripSorted(side, now, added);
      StripSorted(side, was, added);
      LastAmongIs(was, e, added);
      PutBackIff(side, Strip(now, added), Strip(was, added), e);
    }
  }

  // ---------------------------------------------------------------- sides and operations

  function ListAt(g: Groups, i: InstrumentId, side: Side): seq<Entry> {
    if i in g then g[i].On(side) else []
  }

  predicate Touches(op: TrOp, i: InstrumentId, side: Side) {
    (op.AddOp? || op.RemoveOp?) && op.quote.instrument == i && op.quote.side == Some(side)
  }

  function EntryIn(op: TrOp): Entry
    requires op.AddOp? || op.RemoveOp?
  {
    Entry(op.quote.price, op.quote.id)
  }

  lemma ListsAfterAdd(g: Groups, q: Quote, i: InstrumentId, side: Side)
    requires Known(g, q)
    ensures ListAt(AddedTo(g, q), i, side) ==
            if q.instrument == i && q.side == Some(side) then Inserted(side, ListAt(g, i, side), Entry(q.price, q.id))
            else ListAt(g, i, side)
  {
    hide Inserted;
  }

  lemma ListsAfterRemove(g: Groups, q: Quote, i: InstrumentId, side: Side)
    requires Known(g, q)
    ensures ListAt(RemovedFrom(g, q), i, side) ==
            if q.instrument == i && q.side == Some(side) then Without(ListAt(g, i, side), Entry(q.price, q.id))
            else ListAt(g, i, side)
  {
    hide Without;
  }

  /** The entries of a side that operations `j` to `i` add. */
  function AddedAt(ops: seq<TrOp>, j: nat, i: nat, ins: InstrumentId, side: Side): set<Entry>
    requires j <= i <= |ops|
  {
    if i == j then {}
    else
      var op := ops[i - 1];
      AddedAt(ops, j, i - 1, ins, side) + if op.AddOp? && Touches(op, ins, side) then {EntryIn(op)} else {}
  }

  /** Done, or failed in a way that its own undo takes back. */
  predicate Undoable(s: State, op: TrOp) {
    Execute(s, op).ok || FailsClean(s, op)
  }

  /** A removed order had nobody behind it at its price but orders that the transaction added itself. */
  predicate OrderKept(s: State, op: TrOp, ins: InstrumentId, side: Side, added: set<Entry>) {
    var list := ListAt(s.groups, ins, side);
    op.RemoveOp? && Touches(op, ins, side) && EntryIn(op) in list && EntryIn(op) !in added ==>
      LastAmong(list, EntryIn(op), added)
  }

  lemma SortedAt(g: Groups, i: InstrumentId, side: Side)
    requires AllSorted(g)
    ensures SortedSide(side, ListAt(g, i, side))
  {}

  lemma CountAt(g: Groups, i: InstrumentId, side: Side, e: Entry)
    ensures Count(g, i, side, e) == multiset(ListAt(g, i, side))[e]
    ensures e in ListAt(g, i, side) <==> Count(g, i, side, e) > 0
  {
    assert e in ListAt(g, i, side) <==> e in multiset(ListAt(g, i, side));
  }

  /** Undoing one operation: the side is right without the entries added before if and only if it was right without
      those added up to here, and the order was kept. */
  lemma UndoOnSide(a: State, u: State, op: TrOp, ins: InstrumentId, side: Side, added: set<Entry>)
    requires AllSorted(a.groups) && Undoable(a, op) && Alike(u, Execute(a, op).state)
    requires Touches(op, ins, side) && EntryIn(op) !in added ==>
               Count(a.groups, ins, side, EntryIn(op)) <= if op.AddOp? then 0 else 1
    ensures var next := if op.AddOp? && Touches(op, ins, side) then added + {EntryIn(op)} else added;
            var back, done := Undo(u, op, |a.events|).state, Execute(a, op).state;
            Strip(ListAt(back.groups, ins, side), added) == Strip(ListAt(a.groups, ins, side), added) <==>
              && Strip(ListAt(u.groups, ins, side), next) == Strip(ListAt(done.groups, ins, side), next)
              && OrderKept(a, op, ins, side, added)
  {
    match op
    case AddOp(q, _) => UndoAddAt(a, u, op, ins, side, added);
    case RemoveOp(q, _) => UndoRemoveAt(a, u, op, ins, side, added);
    case MatchOp(_, _) =>
    case ReportOp(_) =>
  }

  lemma UndoAddAt(a: State, u: State, op: TrOp, ins: InstrumentId, side: Side, added: set<Entry>)
    requires op.AddOp? && AllSorted(a.groups) && Undoable(a, op) && Alike(u, Execute(a, op).state)
    requires Touches(op, ins, side) && EntryIn(op) !in added ==> Count(a.groups, ins, side, EntryIn(op)) == 0
    ensures var next := if Touches(op, ins, side) then added + {EntryIn(op)} else added;
            var back, done := Undo(u, op, |a.events|).state, Execute(a, op).state;
            Strip(ListAt(back.groups, ins, side), added) == Strip(ListAt(a.groups, ins, side), added) <==>
            Strip(ListAt(u.groups, ins, side), next) == Strip(ListAt(done.groups, ins, side), next)
  {
    var q, e := op.quote, EntryIn(op);
    assert Known(a.groups, q) && Known(u.groups, q) by { hide AllSorted, Count; AddedToIs(a.groups, q); }
    ListsAfterAdd(a.groups, q, ins, side);
    ListsAfterRemove(u.groups, q, ins, side);
    SortedAt(a.groups, ins, side);
    SortedAt(u.groups, ins, side);
    AddedCount(a.groups, q, ins, side, e);
    CountAt(a.groups, ins, side, e);
    CountAt(u.groups, ins, side, e);
    assert Count(u.groups, ins, side, e) == Count(AddedTo(a.groups, q), ins, side, e);
    hide AllSorted, Count, ListAt, Strip, Without, Inserted, SameContents, AddedTo, RemovedFrom;
    if Touches(op, ins, side) {
      UndoAddOn(side, ListAt(u.groups, ins, side), ListAt(a.groups, ins, side), e, added);
    }
  }

  lemma UndoRemoveAt(a: State, u: State, op: TrOp, ins: InstrumentId, side: Side, added: set<Entry>)
    requires op.RemoveOp? && AllSorted(a.groups) && Undoable(a, op) && Alike(u, Execute(a, op).state)
    requires Touches(op, ins, side) && EntryIn(op) !in added ==> Count(a.groups, ins, side, EntryIn(op)) <= 1
    ensures var back, done := Undo(u, op, |a.events|).state, Execute(a, op).state;
            Strip(ListAt(back.groups, ins, side), added) == Strip(ListAt(a.groups, ins, side), added) <==>
              && Strip(ListAt(u.groups, ins, side), added) == Strip(ListAt(done.groups, ins, side), added)
              && OrderKept(a, op, ins, side, added)
  {
    var q, e := op.quote, EntryIn(op);
    assert Holds(a.groups, q);
    assert Known(u.groups, q) by { hide AllSorted, Count; RemovedFromIs(a.groups, q); }
    ListsAfterRemove(a.groups, q, ins, side);
    ListsAfterAdd(u.groups, q, ins, side);
    SortedAt(a.groups, ins, side);
    SortedAt(u.groups, ins, side);
    RemovedCount(a.groups, q, ins, side, e);
    CountAt(a.groups, ins, side, e);
    CountAt(u.groups, ins, side, e);
    assert Count(u.groups, ins, side, e) == Count(RemovedFrom(a.groups, q), ins, side, e);
    assert Touches(op, ins, side) ==> e in ListAt(a.groups, ins, side);
    hide AllSorted, Count, ListAt, Strip, Without, Inserted, SameContents, AddedTo, RemovedFrom, LastAmong;
    if Touches(op, ins, side) {
      UndoRemoveOn(side, ListAt(u.groups, ins, side), ListAt(a.groups, ins, side), e, added);
    }
  }

  // ---------------------------------------------------------------- the whole rollback

  /** The state once operations `m` down to `i` have been undone. */
  function Down(s: State, ops: seq<TrOp>, m: nat, i: nat): State
    requires i <= m <= |ops|
    decreases m - i
  {
    if i == m then After(s, ops, m) else Undo(Down(s, ops, m, i + 1), ops[i], |After(s, ops, i).events|).state
  }

  predicate AllUndoable(s: State, ops: seq<TrOp>, m: nat)
    requires m <= |ops|
  {
    forall i :: 0 <= i < m ==> Undoable(After(s, ops, i), ops[i])
  }

  lemma {:induction false} DownAlike(s: State, ops: seq<TrOp>, m: nat, i: nat)
    requires AllSorted(s.groups) && i <= m <= |ops| && AllUndoable(s, ops, m)
    ensures Alike(Down(s, ops, m, i), After(s, ops, i))
    decreases m - i
  {
    hide Execute, Undo, Alike, AllSorted, FailsClean;
    AfterSorted(s, ops, i);
    if i == m {
      SelfAlike(After(s, ops, m));
    } else {
      DownAlike(s, ops, m, i + 1);
      UndoOne(After(s, ops, i), Down(s, ops, m, i + 1), ops[i]);
    }
  }

  /** The rollback goes down to the last removal that cannot be undone, or to the first operation. */
  lemma {:induction false} UndoneIsDown(s: State, ops: seq<TrOp>, m: nat, i: nat)
    requires AllSorted(s.groups) && i <= m <= |ops| && AllUndoable(s, ops, m)
    ensures Undone(s, ops, i, Down(s, ops, m, i)) == Down(s, ops, m, Standing(ops, i))
    decreases i
  {
    hide Execute, Undo, AllSorted, FailsClean, Reversible, Alike;
    if i > 0 {
      DownAlike(s, ops, m, i);
      AfterSorted(s, ops, i - 1);
      UndoOne(After(s, ops, i - 1), Down(s, ops, m, i), ops[i - 1]);
      if Reversible(ops[i - 1]) {
        UndoneIsDown(s, ops, m, i - 1);
      }
    }
  }

  /** An entry that the operations do not add gets no more copies. */
  lemma {:induction false} NoMoreCopies(s: State, ops: seq<TrOp>, j: nat, i: nat, ins: InstrumentId, side: Side,
                                        e: Entry)
    requires AllSorted(s.groups) && j <= i <= |ops| && AllUndoable(s, ops, i) && e !in AddedAt(ops, j, i, ins, side)
    ensures Count(After(s, ops, i).groups, ins, side, e) <= Count(After(s, ops, j).groups, ins, side, e)
    decreases i
  {
    hide Count, AllSorted, Execute, FailsClean;
    if i > j {
      NoMoreCopies(s, ops, j, i - 1, ins, side, e);
      AfterSorted(s, ops, i - 1);
      CopiesAfterOne(After(s, ops, i - 1), ops[i - 1], ins, side, e);
    }
  }

  lemma CopiesAfterOne(a: State, op: TrOp, ins: InstrumentId, side: Side, e: Entry)
    requires AllSorted(a.groups) && (op.AddOp? && Touches(op, ins, side) ==> e != EntryIn(op))
    ensures Count(Execute(a, op).state.groups, ins, side, e) <= Count(a.groups, ins, side, e)
  {
    hide Count, AllSorted, AddedTo, RemovedFrom, Holds, Known;
    if op.AddOp? {
      AddedCount(a.groups, op.quote, ins, side, e);
    } else if op.RemoveOp? {
      RemovedCount(a.groups, op.quote, ins, side, e);
    }
  }

  /** Every order is in the book at most once, and none that the transaction adds is there already. */
  ghost predicate Plain(s: State, ops: seq<TrOp>, j: nat, m: nat)
    requires j <= m <= |ops|
  {
    && (forall ins, side, e :: Count(s.groups, ins, side, e) <= 1)
    && (forall i :: j <= i < m && ops[i].AddOp? ==> !Holds(s.groups, ops[i].quote))
  }

  lemma PlainCount(s: State, ops: seq<TrOp>, j: nat, m: nat, i: nat, ins: InstrumentId, side: Side)
    requires AllSorted(s.groups) && j <= i < m <= |ops| && AllUndoable(s, ops, m) && Plain(After(s, ops, j), ops, j, m)
    requires Touches(ops[i], ins, side) && EntryIn(ops[i]) !in AddedAt(ops, j, i, ins, side)
    ensures Count(After(s, ops, i).groups, ins, side, EntryIn(ops[i])) <= if ops[i].AddOp? then 0 else 1
  {
    hide Count, AllSorted, Execute, AddedAt, After, Holds;
    NoMoreCopies(s, ops, j, i, ins, side, EntryIn(ops[i]));
    HoldsIsCount(After(s, ops, j).groups, ops[i].quote);
    if ops[i].AddOp? && !Known(After(s, ops, j).groups, ops[i].quote) {
      NothingUnknown(After(s, ops, j).groups, ins, side, EntryIn(ops[i]));
    }
  }

  lemma NothingUnknown(g: Groups, ins: InstrumentId, side: Side, e: Entry)
    ensures ins !in g ==> Count(g, ins, side, e) == 0
  {}

  ghost predicate AgreesAt(s: State, ops: seq<TrOp>, j: nat, m: nat, i: nat, ins: InstrumentId, side: Side)
    requires j <= i <= m <= |ops|
  {
    var added := AddedAt(ops, j, i, ins, side);
    var now, was := ListAt(Down(s, ops, m, i).groups, ins, side), ListAt(After(s, ops, i).groups, ins, side);
    Strip(now, added) == Strip(was, added)
  }

  /** Operation `i` kept the order of every side. */
  ghost predicate KeptBy(s: State, ops: seq<TrOp>, j: nat, i: nat, ins: InstrumentId, side: Side)
    requires j <= i < |ops|
  {
    OrderKept(After(s, ops, i), ops[i], ins, side, AddedAt(ops, j, i, ins, side))
  }

  lemma AgreesStep(s: State, ops: seq<TrOp>, j: nat, m: nat, i: nat, ins: InstrumentId, side: Side)
    requires AllSorted(s.groups) && j <= i < m <= |ops| && AllUndoable(s, ops, m) && Plain(After(s, ops, j), ops, j, m)
    ensures AgreesAt(s, ops, j, m, i, ins, side) <==>
            AgreesAt(s, ops, j, m, i + 1, ins, side) && KeptBy(s, ops, j, i, ins, side)
  {
    hide AllSorted, Execute, Undo, Alike, Plain, Count, ListAt, Strip, FailsClean, OrderKept;
    DownAlike(s, ops, m, i + 1);
    AfterSorted(s, ops, i);
    var added := AddedAt(ops, j, i, ins, side);
    if Touches(ops[i], ins, side) && EntryIn(ops[i]) !in added {
      PlainCount(s, ops, j, m, i, ins, side);
    }
    UndoOnSide(After(s, ops, i), Down(s, ops, m, i + 1), ops[i], ins, side, added);
    assert added + {} == added;
  }

  lemma {:induction false} AgreesIff(s: State, ops: seq<TrOp>, j: nat, m: nat, i: nat, ins: InstrumentId, side: Side)
    requires AllSorted(s.groups) && j <= i <= m <= |ops| && AllUndoable(s, ops, m) && Plain(After(s, ops, j), ops, j, m)
    ensures AgreesAt(s, ops, j, m, i, ins, side) <==> forall x :: i <= x < m ==> KeptBy(s, ops, j, x, ins, side)
    decreases m - i
  {
    hide AllSorted, AllUndoable, Plain, KeptBy, After, Standing;
    if i == m {
      assert AgreesAt(s, ops, j, m, m, ins, side) by { NothingUndone(s, ops, j, m, ins, side); }
    } else {
      hide AgreesAt;
      AgreesStep(s, ops, j, m, i, ins, side);
      AgreesIff(s, ops, j, m, i + 1, ins, side);
    }
  }

  lemma NothingUndone(s: State, ops: seq<TrOp>, j: nat, m: nat, ins: InstrumentId, side: Side)
    requires j <= m <= |ops|
    ensures AgreesAt(s, ops, j, m, m, ins, side)
  {
    hide After, Strip, ListAt;
  }

  lemma SidesDecide(a: Groups, b: Groups)
    requires a.Keys == b.Keys && forall ins, side :: ListAt(a, ins, side) == ListAt(b, ins, side)
    ensures a == b
  {
    forall i | i in a
      ensures a[i] == b[i]
    {
      assert ListAt(a, i, Buy) == ListAt(b, i, Buy) && ListAt(a, i, Sell) == ListAt(b, i, Sell);
    }
  }

  lemma DownIff(s: State, ops: seq<TrOp>, j: nat, m: nat)
    requires AllSorted(s.groups) && j <= m <= |ops| && AllUndoable(s, ops, m) && Plain(After(s, ops, j), ops, j, m)
    ensures Down(s, ops, m, j) == After(s, ops, j) <==>
            forall i, ins, side :: j <= i < m ==> KeptBy(s, ops, j, i, ins, side)
  {
    hide AllSorted, AllUndoable, Plain, KeptBy, After, Down, Strip, ListAt, Count;
    var d, a := Down(s, ops, m, j), After(s, ops, j);
    forall ins, side
      ensures ListAt(d.groups, ins, side) == ListAt(a.groups, ins, side) <==>
              forall i :: j <= i < m ==> KeptBy(s, ops, j, i, ins, side)
    {
      AgreesIff(s, ops, j, m, j, ins, side);
      StripNothing(ListAt(d.groups, ins, side));
      StripNothing(ListAt(a.groups, ins, side));
    }
    DownAlike(s, ops, m, j);
    if forall i, ins, side :: j <= i < m ==> KeptBy(s, ops, j, i, ins, side) {
      assert forall ins, side :: ListAt(d.groups, ins, side) == ListAt(a.groups, ins, side);
      SidesDecide(d.groups, a.groups);
    } else {
      var i, ins, side :| j <= i < m && !KeptBy(s, ops, j, i, ins, side);
      assert ListAt(d.groups, ins, side) != ListAt(a.groups, ins, side);
    }
  }

  lemma FailsInside(s: State, ops: seq<TrOp>, k: nat)
    requires FailsAt(s, ops, k)
    ensures k < |ops|
  {
    hide Succeed, Execute;
  }

  lemma FailureUndoable(s: State, ops: seq<TrOp>, k: nat)
    requires FailsAt(s, ops, k) && FailsClean(After(s, ops, k), ops[k])
    ensures AllUndoable(s, ops, k + 1) && !ops[k].RemoveOp?
  {
    assert !ops[k].RemoveOp?;
    hide Execute, FailsClean, After;
  }

  lemma StandsBelow(ops: seq<TrOp>, k: nat)
    requires k < |ops| && !ops[k].RemoveOp?
    ensures Standing(ops, k + 1) == Standing(ops, k)
  {}

  lemma NotYetDown(s: State, ops: seq<TrOp>, m: nat)
    requires m <= |ops|
    ensures Down(s, ops, m, m) == After(s, ops, m)
  {
    hide After;
  }

  lemma RolledBackIsDown(s: State, ops: seq<TrOp>, k: nat)
    requires AllSorted(s.groups) && FailsAt(s, ops, k) && FailsClean(After(s, ops, k), ops[k])
    ensures AllUndoable(s, ops, k + 1) && RolledBack(s, ops, k) == Down(s, ops, k + 1, Standing(ops, k))
  {
    hide AllSorted, After, Execute, FailsClean, Undone, Standing, Down, AllUndoable, Succeed;
    FailureUndoable(s, ops, k);
    StandsBelow(ops, k);
    NotYetDown(s, ops, k + 1);
    UndoneIsDown(s, ops, k + 1, k + 1);
  }

  /** The whole list.  After a clean failure of operation `k` the rollback ends exactly, time order included, in the
      state before the last removal that cannot be undone (before the transaction, if there is none), if and only if
      every removal since then found its order with nobody behind it at its price but orders that the transaction had
      added. */
  lemma RestoresExactlyIff(s: State, ops: seq<TrOp>, k: nat)
    requires AllSorted(s.groups) && FailsAt(s, ops, k) && FailsClean(After(s, ops, k), ops[k])
    requires Plain(After(s, ops, Standing(ops, k)), ops, Standing(ops, k), k + 1)
    ensures var j := Standing(ops, k);
            RolledBack(s, ops, k) == After(s, ops, j) <==>
            forall i, ins, side :: j <= i <= k ==> KeptBy(s, ops, j, i, ins, side)
  {
    hide AllSorted, Plain, KeptBy, After, FailsAt, FailsClean, Standing, RolledBack, AllUndoable;
    assert k < |ops| by { FailsInside(s, ops, k); }
    RolledBackIsDown(s, ops, k);
    DownIff(s, ops, Standing(ops, k), k + 1);
  }
}
