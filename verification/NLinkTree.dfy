/**
NLinkTree (src/NLinkedTree.cpp) in its own form: a class whose methods update the maps, the root list and
the cursor in place.  Each method is proved to compute the corresponding function of TreeModel.
*/
module NLinkTreeClass {
  import opened Common
  import opened TreeModel

  /** A (child, new parent) pair collected by `remove`; the null key stands for "none". */
  datatype ChildElement = ChildElement(child: Key, parent: Key)

  predicate Less(a: ChildElement, b: ChildElement) {
    a.child < b.child || (a.child == b.child && a.parent < b.parent)
  }

  predicate Increasing(s: seq<ChildElement>) {
    forall i, j :: 0 <= i < j < |s| ==> Less(s[i], s[j])
  }

  /** Insertion into the ordered set of pairs. */
  function Inserted(s: seq<ChildElement>, e: ChildElement): (r: seq<ChildElement>)
    requires Increasing(s)
    ensures Increasing(r)
    ensures forall x :: x in r <==> x in s || x == e
  {
    if s == [] then [e]
    else if e == s[0] then s
    else if Less(e, s[0]) then [e] + s
    else
      var rest := Inserted(s[1..], e);
      assert forall i :: 0 <= i < |rest| ==> Less(s[0], rest[i]) by {
        forall i | 0 <= i < |rest| ensures Less(s[0], rest[i]) {
          assert rest[i] in s[1..] || rest[i] == e;
        }
      }
      assert s == [s[0]] + s[1..];
      [s[0]] + rest
  }

  // ---------------------------------------------------------------- what the loops of `remove` have done so far

  ghost predicate ListsErased(before: Uses, deps: seq<Obj>, n: nat, key: Key, now: Uses)
    requires n <= |deps|
  {
    && (forall o :: o in now ==> now[o] != [])
    && (forall o :: Users(now, o) == if o in deps[..n] then Without(Users(before, o), key) else Users(before, o))
  }

  /** The pair that object `o` contributes. */
  ghost function PairOf(uses: Uses, o: Obj, key: Key): ChildElement {
    ChildElement(Succ(Users(uses, o), key), Pred(Users(uses, o), key))
  }

  ghost predicate PairsCollected(uses: Uses, deps: seq<Obj>, n: nat, key: Key, pairs: seq<ChildElement>)
    requires n <= |deps|
  {
    forall e :: e in pairs <==>
      e != ChildElement(NULL_KEY, NULL_KEY) && exists o :: o in deps[..n] && e == PairOf(uses, o, key)
  }

  ghost predicate Touched(pairs: seq<ChildElement>, c: Key) {
    exists e :: e in pairs && e.child == c
  }

  ghost function ParentsIn(pairs: seq<ChildElement>, c: Key): set<Key> {
    set e | e in pairs && e.child == c && e.parent != NULL_KEY :: e.parent
  }

  ghost predicate IsNewParent(pairs: seq<ChildElement>, p: Key) {
    exists e :: e in pairs && e.parent == p
  }

  ghost predicate Relinked(before: map<Key, Node>, pairs: seq<ChildElement>, key: Key, now: map<Key, Node>) {
    && now.Keys == before.Keys
    && (forall c :: c in now ==>
          && now[c].value == before[c].value
          && now[c].deps == before[c].deps
          && now[c].parents ==
             (if Touched(pairs, c) then before[c].parents - {key} + ParentsIn(pairs, c) else before[c].parents)
          && now[c].children ==
             (if IsNewParent(pairs, c) then before[c].children - {key} else before[c].children))
  }

  /** All pairs of `c` are among the first `n` and leave it without a parent. */
  ghost predicate Freed(before: map<Key, Node>, pairs: seq<ChildElement>, n: nat, key: Key, c: Key)
    requires n <= |pairs|
  {
    && c in before
    && Touched(pairs[..n], c)
    && !Touched(pairs[n..], c)
    && before[c].parents - {key} + ParentsIn(pairs[..n], c) == {}
  }

  ghost predicate FreedList(before: map<Key, Node>, pairs: seq<ChildElement>, n: nat, key: Key, fresh_: seq<Key>)
    requires n <= |pairs|
  {
    && Ascending(fresh_)
    && (forall c {:trigger c in fresh_} :: c in fresh_ <==> Freed(before, pairs, n, key, c))
  }

  /** One round of the relinking loop. */
  function RelinkNodes(nodes: map<Key, Node>, e: ChildElement, key: Key): map<Key, Node> {
    var m := if e.parent != NULL_KEY && e.parent in nodes
             then nodes[e.parent := nodes[e.parent].(children := nodes[e.parent].children - {key})] else nodes;
    if e.child != NULL_KEY && e.child in m then
      var left := m[e.child].parents - {key};
      m[e.child := m[e.child].(parents := if e.parent != NULL_KEY && e.parent in m then left + {e.parent} else left)]
    else m
  }

  lemma TouchedSnoc(pairs: seq<ChildElement>, n: nat, c: Key)
    requires n < |pairs|
    ensures Touched(pairs[..n + 1], c) <==> Touched(pairs[..n], c) || pairs[n].child == c
    ensures IsNewParent(pairs[..n + 1], c) <==> IsNewParent(pairs[..n], c) || pairs[n].parent == c
    ensures ParentsIn(pairs[..n + 1], c) == ParentsIn(pairs[..n], c) +
              (if pairs[n].child == c && pairs[n].parent != NULL_KEY then {pairs[n].parent} else {})
    ensures Touched(pairs[n..], c) <==> pairs[n].child == c || Touched(pairs[n + 1..], c)
  {
    assert pairs[..n + 1] == pairs[..n] + [pairs[n]];
    assert pairs[n..] == [pairs[n]] + pairs[n + 1..];
    assert pairs[n] in pairs[..n + 1] && pairs[n] in pairs[n..];
  }

  lemma RelinkStepParents(before: map<Key, Node>, pairs: seq<ChildElement>, n: nat, key: Key, now: map<Key, Node>,
                          c: Key)
    requires n < |pairs| && Relinked(before, pairs[..n], key, now)
    requires forall e :: e in pairs ==> e.parent != key && (e.parent != NULL_KEY ==> e.parent in before)
    requires NULL_KEY !in before && c in before
    ensures RelinkNodes(now, pairs[n], key)[c].parents ==
            if Touched(pairs[..n + 1], c) then before[c].parents - {key} + ParentsIn(pairs[..n + 1], c)
            else before[c].parents
  {
    TouchedSnoc(pairs, n, c);
    var e := pairs[n];
    assert key !in ParentsIn(pairs[..n], c);
    assert e in pairs;
    if e.child == c {
      assert now[c].parents - {key} ==
             before[c].parents - {key} + if Touched(pairs[..n], c) then ParentsIn(pairs[..n], c) else {};
      assert !Touched(pairs[..n], c) ==> ParentsIn(pairs[..n], c) == {};
    }
  }

  lemma RelinkStepRest(before: map<Key, Node>, pairs: seq<ChildElement>, n: nat, key: Key, now: map<Key, Node>, c: Key)
    requires n < |pairs| && Relinked(before, pairs[..n], key, now)
    requires pairs[n].parent != NULL_KEY ==> pairs[n].parent in before
    requires NULL_KEY !in before && c in before
    ensures var m := RelinkNodes(now, pairs[n], key)[c];
            && m.value == before[c].value && m.deps == before[c].deps
            && m.children == (if IsNewParent(pairs[..n + 1], c) then before[c].children - {key} else before[c].children)
  {
    TouchedSnoc(pairs, n, c);
  }

  lemma RelinkStep(before: map<Key, Node>, pairs: seq<ChildElement>, n: nat, key: Key, now: map<Key, Node>)
    requires n < |pairs| && Relinked(before, pairs[..n], key, now)
    requires forall e :: e in pairs ==> e.parent != key && (e.parent != NULL_KEY ==> e.parent in before)
    requires NULL_KEY !in before
    ensures Relinked(before, pairs[..n + 1], key, RelinkNodes(now, pairs[n], key))
  {
    assert pairs[n] in pairs;
    var next := RelinkNodes(now, pairs[n], key);
    assert next.Keys == before.Keys;
    forall c | c in next
      ensures && next[c].value == before[c].value
              && next[c].deps == before[c].deps
              && next[c].parents ==
                 (if Touched(pairs[..n + 1], c) then before[c].parents - {key} + ParentsIn(pairs[..n + 1], c)
                  else before[c].parents)
              && next[c].children ==
                 (if IsNewParent(pairs[..n + 1], c) then before[c].children - {key} else before[c].children)
    {
      RelinkStepRest(before, pairs, n, key, now, c);
      RelinkStepParents(before, pairs, n, key, now, c);
    }
  }

  predicate IsLastPair(pairs: seq<ChildElement>, n: nat)
    requires n < |pairs|
  {
    n + 1 == |pairs| || pairs[n + 1].child != pairs[n].child
  }

  /** The child of a pair occurs again behind it exactly when the next pair has the same child. */
  lemma LastPairMeans(pairs: seq<ChildElement>, n: nat)
    requires Increasing(pairs) && n < |pairs|
    ensures IsLastPair(pairs, n) <==> !Touched(pairs[n + 1..], pairs[n].child)
  {
    if n + 1 < |pairs| {
      assert pairs[n + 1] in pairs[n + 1..];
      if IsLastPair(pairs, n) {
        assert forall j :: n + 1 <= j < |pairs| ==> pairs[n + 1].child <= pairs[j].child;
      }
    }
  }

  lemma FreedStepOther(before: map<Key, Node>, pairs: seq<ChildElement>, n: nat, key: Key, c: Key)
    requires n < |pairs| && c != pairs[n].child
    ensures Freed(before, pairs, n + 1, key, c) <==> Freed(before, pairs, n, key, c)
  {
    TouchedSnoc(pairs, n, c);
  }

  lemma FreedBelow(before: map<Key, Node>, pairs: seq<ChildElement>, n: nat, key: Key, fresh_: seq<Key>)
    requires n < |pairs| && Increasing(pairs) && FreedList(before, pairs, n, key, fresh_)
    ensures forall x :: x in fresh_ ==> x < pairs[n].child
  {
    var c := pairs[n].child;
    TouchedSnoc(pairs, n, c);
    forall x | x in fresh_
      ensures x < c
    {
      var e :| e in pairs[..n] && e.child == x;
      var i :| 0 <= i < n && pairs[i] == e;
      assert Less(pairs[i], pairs[n]);
    }
  }

  /** The push decision of round `n` extends the list of freed children by exactly the child of pair `n`. */
  lemma FreedStep(before: map<Key, Node>, pairs: seq<ChildElement>, n: nat, key: Key, fresh_: seq<Key>)
    requires n < |pairs| && Increasing(pairs) && FreedList(before, pairs, n, key, fresh_)
    ensures var c := pairs[n].child;
            FreedList(before, pairs, n + 1, key,
                      if Freed(before, pairs, n + 1, key, c) then fresh_ + [c] else fresh_)
  {
    var c := pairs[n].child;
    var next := if Freed(before, pairs, n + 1, key, c) then fresh_ + [c] else fresh_;
    hide Freed;
    FreedBelow(before, pairs, n, key, fresh_);
    assert forall i :: 0 <= i < |fresh_| ==> fresh_[i] in fresh_;
    forall x
      ensures x in next <==> Freed(before, pairs, n + 1, key, x)
    {
      if x != c {
        FreedStepOther(before, pairs, n, key, x);
        assert x in next <==> x in fresh_;
      }
    }
  }

  lemma FreedIsPush(before: map<Key, Node>, pairs: seq<ChildElement>, n: nat, key: Key, now: map<Key, Node>)
    requires n < |pairs| && Increasing(pairs) && Relinked(before, pairs[..n], key, now)
    requires forall e :: e in pairs ==> e.parent != key && (e.parent != NULL_KEY ==> e.parent in before)
    requires NULL_KEY !in before && pairs[n].child in before
    ensures var c := pairs[n].child;
            Freed(before, pairs, n + 1, key, c) <==>
            pairs[n].parent == NULL_KEY && now[c].parents - {key} == {} && IsLastPair(pairs, n)
  {
    var c := pairs[n].child;
    TouchedSnoc(pairs, n, c);
    LastPairMeans(pairs, n);
    RelinkStepParents(before, pairs, n, key, now, c);
    assert pairs[n] in pairs;
    assert RelinkNodes(now, pairs[n], key)[c].parents ==
           if pairs[n].parent != NULL_KEY then now[c].parents - {key} + {pairs[n].parent} else now[c].parents - {key};
    assert pairs[n].parent != NULL_KEY ==> pairs[n].parent in ParentsIn(pairs[..n + 1], c);
  }

  // ---------------------------------------------------------------- the loops together compute `Removed`

  lemma ErasedUses(t: Tree, key: Key, now: Uses)
    requires KeysValid(t) && UsesExact(t) && key in t.keys
    requires var deps := t.keys[key].deps; ListsErased(t.usedIn, deps, |deps|, key, now)
    ensures now == Removed(t, key).usedIn
  {
    var deps := t.keys[key].deps;
    assert deps[..|deps|] == deps;
    var u := Removed(t, key).usedIn;
    forall o
      ensures Users(now, o) == Users(u, o)
    {
      RemovedUsers(t, key, o);
    }
    RemovedUsesExact(t, key);
    SameUses(now, u);
  }

  lemma SameUses(a: Uses, b: Uses)
    requires forall o :: Users(a, o) == Users(b, o)
    requires (forall o :: o in a ==> a[o] != []) && forall o :: o in b ==> b[o] != []
    ensures a == b
  {
    forall o
      ensures o in a <==> o in b
    {
      assert Users(a, o) == Users(b, o);
    }
    forall o | o in a
      ensures a[o] == b[o]
    {
      assert Users(a, o) == Users(b, o);
    }
  }

  /** Every pair comes from an object of the removed transaction. */
  ghost predicate PairsSound(t: Tree, key: Key, pairs: seq<ChildElement>)
    requires key in t.keys
  {
    forall e :: e in pairs ==> exists o :: o in t.keys[key].deps && e == PairOf(t.usedIn, o, key)
  }

  /** Every object of the removed transaction that has a neighbour contributes its pair. */
  ghost predicate PairsComplete(t: Tree, key: Key, pairs: seq<ChildElement>)
    requires key in t.keys
  {
    forall o :: o in t.keys[key].deps ==>
      PairOf(t.usedIn, o, key) == ChildElement(NULL_KEY, NULL_KEY) || PairOf(t.usedIn, o, key) in pairs
  }

  lemma PairInTree(t: Tree, key: Key, e: ChildElement, o: Obj)
    requires KeysValid(t) && UsesExact(t) && ParentsExact(t)
    requires key in t.keys && o in t.keys[key].deps && e == PairOf(t.usedIn, o, key)
    ensures e.parent != key && (e.parent != NULL_KEY ==> e.parent in t.keys)
    ensures e.child != NULL_KEY ==> e.child in t.keys && e.child != key && key in t.keys[e.child].parents
  {
    if e.child != NULL_KEY {
      AdoptedNeedsParent(t, key, e.child, o);
    }
    UseListFacts(t, o);
    assert key in Users(t.usedIn, o);
    PredSucc(Users(t.usedIn, o), key, key);
  }

  lemma TouchedMeans(t: Tree, key: Key, pairs: seq<ChildElement>, c: Key)
    requires KeysValid(t) && UsesExact(t) && ParentsExact(t)
    requires key in t.keys && c in t.keys && c != key && PairsSound(t, key, pairs)
    requires Touched(pairs, c)
    ensures key in t.keys[c].parents
  {
    var e :| e in pairs && e.child == c;
    var o :| o in t.keys[key].deps && e == PairOf(t.usedIn, o, key);
    PairInTree(t, key, e, o);
  }

  lemma WaitingIsTouched(t: Tree, key: Key, pairs: seq<ChildElement>, c: Key)
    requires KeysValid(t) && UsesExact(t) && ParentsExact(t)
    requires key in t.keys && c in t.keys && c != key && PairsComplete(t, key, pairs)
    requires key in t.keys[c].parents
    ensures Touched(pairs, c)
  {
    var o :| o in t.keys[c].deps && Pred(Users(t.usedIn, o), c) == key;
    RemovedPred(t, key, c, o);
    assert PairOf(t.usedIn, o, key) in pairs;
  }

  lemma ParentsInMeans(t: Tree, key: Key, pairs: seq<ChildElement>, c: Key)
    requires key in t.keys && c != NULL_KEY && PairsSound(t, key, pairs) && PairsComplete(t, key, pairs)
    ensures ParentsIn(pairs, c) == Adopted(t.usedIn, t.keys[key].deps, key, c)
  {
    var deps := t.keys[key].deps;
    forall o | o in deps && Succ(Users(t.usedIn, o), key) == c && Pred(Users(t.usedIn, o), key) != NULL_KEY
      ensures Pred(Users(t.usedIn, o), key) in ParentsIn(pairs, c)
    {
      assert PairOf(t.usedIn, o, key) in pairs;
    }
  }

  lemma NewParentMeans(t: Tree, key: Key, pairs: seq<ChildElement>, p: Key)
    requires KeysValid(t) && ParentsExact(t) && key in t.keys && PairsComplete(t, key, pairs)
    requires p in t.keys[key].parents
    ensures IsNewParent(pairs, p)
  {
    var o :| o in t.keys[key].deps && Pred(Users(t.usedIn, o), key) == p && p != NULL_KEY;
    assert PairOf(t.usedIn, o, key) in pairs;
  }

  lemma TouchedIff(t: Tree, key: Key, pairs: seq<ChildElement>, c: Key)
    requires KeysValid(t) && UsesExact(t) && ParentsExact(t)
    requires key in t.keys && c in t.keys && c != key && PairsSound(t, key, pairs) && PairsComplete(t, key, pairs)
    ensures Touched(pairs, c) <==> key in t.keys[c].parents
  {
    if key in t.keys[c].parents {
      WaitingIsTouched(t, key, pairs, c);
    } else if Touched(pairs, c) {
      TouchedMeans(t, key, pairs, c);
    }
  }

  lemma RelinkedNode(t: Tree, key: Key, pairs: seq<ChildElement>, c: Key)
    requires KeysValid(t) && UsesExact(t) && ParentsExact(t) && ChildrenSound(t)
    requires key in t.keys && c in t.keys && c != key && PairsSound(t, key, pairs) && PairsComplete(t, key, pairs)
    ensures NewParents(t, key, c) ==
            if Touched(pairs, c) then t.keys[c].parents - {key} + ParentsIn(pairs, c) else t.keys[c].parents
    ensures Touched(pairs, c) <==> key in t.keys[c].parents
  {
    TouchedIff(t, key, pairs, c);
    ParentsInMeans(t, key, pairs, c);
    if key !in t.keys[c].parents {
      AdoptedEmpty(t, key, c);
    }
  }

  lemma RelinkedChildren(t: Tree, key: Key, pairs: seq<ChildElement>, c: Key)
    requires KeysValid(t) && ParentsExact(t) && ChildrenSound(t)
    requires key in t.keys && c in t.keys && PairsComplete(t, key, pairs)
    ensures t.keys[c].children - {key} ==
            if IsNewParent(pairs, c) then t.keys[c].children - {key} else t.keys[c].children
  {
    if key in t.keys[c].children {
      NewParentMeans(t, key, pairs, c);
    }
  }

  lemma RelinkedNodes(t: Tree, key: Key, pairs: seq<ChildElement>, now: map<Key, Node>)
    requires KeysValid(t) && UsesExact(t) && ParentsExact(t) && ChildrenSound(t)
    requires key in t.keys && PairsSound(t, key, pairs) && PairsComplete(t, key, pairs)
    requires Relinked(t.keys - {key}, pairs, key, now)
    ensures now == Removed(t, key).keys
  {
    var u := Removed(t, key).keys;
    assert now.Keys == u.Keys;
    forall c | c in t.keys && c != key
      ensures NewParents(t, key, c) ==
              if Touched(pairs, c) then t.keys[c].parents - {key} + ParentsIn(pairs, c) else t.keys[c].parents
      ensures t.keys[c].children - {key} ==
              if IsNewParent(pairs, c) then t.keys[c].children - {key} else t.keys[c].children
    {
      RelinkedNode(t, key, pairs, c);
      RelinkedChildren(t, key, pairs, c);
    }
    SameNodes(t, key, pairs, now);
  }

  lemma SameNodes(t: Tree, key: Key, pairs: seq<ChildElement>, now: map<Key, Node>)
    requires key in t.keys && Relinked(t.keys - {key}, pairs, key, now)
    requires forall c :: c in t.keys && c != key ==>
               NewParents(t, key, c) ==
               if Touched(pairs, c) then t.keys[c].parents - {key} + ParentsIn(pairs, c) else t.keys[c].parents
    requires forall c :: c in t.keys && c != key ==>
               t.keys[c].children - {key} ==
               if IsNewParent(pairs, c) then t.keys[c].children - {key} else t.keys[c].children
    ensures now == Removed(t, key).keys
  {}

  lemma FreedAreUnblocked(t: Tree, key: Key, pairs: seq<ChildElement>, freed: seq<Key>)
    requires KeysValid(t) && UsesExact(t) && ParentsExact(t) && ChildrenSound(t)
    requires key in t.keys && PairsSound(t, key, pairs) && PairsComplete(t, key, pairs)
    requires FreedList(t.keys - {key}, pairs, |pairs|, key, freed)
    ensures freed == Sorted(Unblocked(t, key))
  {
    assert pairs[..|pairs|] == pairs && pairs[|pairs|..] == [];
    forall c
      ensures c in freed <==> c in Unblocked(t, key)
    {
      if c in t.keys && c != key {
        RelinkedNode(t, key, pairs, c);
      }
    }
    AscendingUnique(freed, Sorted(Unblocked(t, key)));
  }

  lemma PairsBothWays(t: Tree, key: Key, pairs: seq<ChildElement>)
    requires KeysValid(t) && UsesExact(t) && ParentsExact(t) && key in t.keys
    requires var deps := t.keys[key].deps; PairsCollected(t.usedIn, deps, |deps|, key, pairs)
    ensures PairsSound(t, key, pairs) && PairsComplete(t, key, pairs)
    ensures forall e :: e in pairs ==> e.parent != key && (e.parent != NULL_KEY ==> e.parent in t.keys)
    ensures forall e :: e in pairs && e.child != NULL_KEY ==> e.child in t.keys && e.child != key
  {
    var deps := t.keys[key].deps;
    assert deps[..|deps|] == deps;
    forall e | e in pairs
      ensures e.parent != key && (e.parent != NULL_KEY ==> e.parent in t.keys)
      ensures e.child != NULL_KEY ==> e.child in t.keys && e.child != key
    {
      var o :| o in deps && e == PairOf(t.usedIn, o, key);
      PairInTree(t, key, e, o);
    }
  }

  lemma RelinkRound(before: map<Key, Node>, pairs: seq<ChildElement>, n: nat, key: Key, now: map<Key, Node>,
                    freed: seq<Key>)
    requires n < |pairs| && Increasing(pairs) && NULL_KEY !in before
    requires forall e :: e in pairs ==> e.parent != key && (e.parent != NULL_KEY ==> e.parent in before)
    requires Relinked(before, pairs[..n], key, now) && FreedList(before, pairs, n, key, freed)
    ensures Relinked(before, pairs[..n + 1], key, RelinkNodes(now, pairs[n], key))
    ensures var c := pairs[n].child;
            var push := c in now && pairs[n].parent == NULL_KEY && now[c].parents - {key} == {} && IsLastPair(pairs, n);
            FreedList(before, pairs, n + 1, key, if push then freed + [c] else freed)
  {
    RelinkStep(before, pairs, n, key, now);
    FreedStep(before, pairs, n, key, freed);
    if pairs[n].child in before {
      FreedIsPush(before, pairs, n, key, now);
    }
  }

  predicate Pushes(nodes: map<Key, Node>, pairs: seq<ChildElement>, n: nat, key: Key)
    requires n < |pairs|
  {
    var c := pairs[n].child;
    c in nodes && pairs[n].parent == NULL_KEY && nodes[c].parents - {key} == {} && IsLastPair(pairs, n)
  }

  /** The nodes and the list of pushed children after the first `n` rounds of the relinking loop. */
  function RelinkFold(nodes: map<Key, Node>, pairs: seq<ChildElement>, n: nat, key: Key): (map<Key, Node>, seq<Key>)
    requires n <= |pairs|
  {
    if n == 0 then (nodes, []) else
      var (now, freed) := RelinkFold(nodes, pairs, n - 1, key);
      (RelinkNodes(now, pairs[n - 1], key),
       if Pushes(now, pairs, n - 1, key) then freed + [pairs[n - 1].child] else freed)
  }

  lemma NothingRelinked(nodes: map<Key, Node>, pairs: seq<ChildElement>, key: Key)
    requires forall e :: e in pairs ==> e.parent != key
    ensures Relinked(nodes, pairs[..0], key, nodes) && FreedList(nodes, pairs, 0, key, [])
  {}

  lemma {:induction false} RelinkFoldMeans(nodes: map<Key, Node>, pairs: seq<ChildElement>, n: nat, key: Key)
    requires n <= |pairs| && Increasing(pairs) && NULL_KEY !in nodes
    requires forall e :: e in pairs ==> e.parent != key && (e.parent != NULL_KEY ==> e.parent in nodes)
    ensures Relinked(nodes, pairs[..n], key, RelinkFold(nodes, pairs, n, key).0)
    ensures FreedList(nodes, pairs, n, key, RelinkFold(nodes, pairs, n, key).1)
  {
    hide Relinked, RelinkNodes, Increasing, FreedList, IsLastPair;
    if n == 0 {
      NothingRelinked(nodes, pairs, key);
    } else {
      RelinkFoldMeans(nodes, pairs, n - 1, key);
      var (now, freed) := RelinkFold(nodes, pairs, n - 1, key);
      RelinkRound(nodes, pairs, n - 1, key, now, freed);
    }
  }

  /** The three loops of `remove` together compute the functional removal. */
  lemma LoopsRemove(t: Tree, key: Key, pairs: seq<ChildElement>, uses: Uses)
    requires Inv(t) && key in t.keys && Increasing(pairs)
    requires var deps := t.keys[key].deps; PairsCollected(t.usedIn, deps, |deps|, key, pairs)
    requires var deps := t.keys[key].deps; ListsErased(t.usedIn, deps, |deps|, key, uses)
    ensures var (nodes, freed) := RelinkFold(t.keys - {key}, pairs, |pairs|, key);
            && freed == Sorted(Unblocked(t, key))
            && Removed(t, key) ==
               Tree(nodes, uses, Without(t.root, key) + freed, CursorWithout(t.root, t.current, key))
  {
    PairsBothWays(t, key, pairs);
    ErasedUses(t, key, uses);
    RelinkFoldMeans(t.keys - {key}, pairs, |pairs|, key);
    assert pairs[..|pairs|] == pairs;
    var (nodes, freed) := RelinkFold(t.keys - {key}, pairs, |pairs|, key);
    RelinkedNodes(t, key, pairs, nodes);
    FreedAreUnblocked(t, key, pairs, freed);
  }

  lemma EraseStep(before: Uses, deps: seq<Obj>, n: nat, key: Key, now: Uses, next: Uses)
    requires n < |deps| && NoDup(deps) && ListsErased(before, deps, n, key, now)
    requires var list := Without(Users(before, deps[n]), key);
             next == if list == [] then now - {deps[n]} else now[deps[n] := list]
    ensures ListsErased(before, deps, n + 1, key, next)
  {
    assert deps[..n + 1] == deps[..n] + [deps[n]];
  }

  lemma CollectStep(uses: Uses, deps: seq<Obj>, n: nat, key: Key, pairs: seq<ChildElement>, next: seq<ChildElement>)
    requires n < |deps| && PairsCollected(uses, deps, n, key, pairs)
    requires forall e :: e in next <==>
               e in pairs || (e == PairOf(uses, deps[n], key) && e != ChildElement(NULL_KEY, NULL_KEY))
    ensures PairsCollected(uses, deps, n + 1, key, next)
  {
    assert deps[..n + 1] == deps[..n] + [deps[n]];
    forall e
      ensures e in next <==>
              e != ChildElement(NULL_KEY, NULL_KEY) && exists o :: o in deps[..n + 1] && e == PairOf(uses, o, key)
    {
      if e in next && e !in pairs {
        assert deps[n] in deps[..n + 1];
      }
    }
  }

  /** Takes `key` out of one use list; `child` and `parent` are its neighbours. */
  method TakeOut(list: seq<Key>, key: Key) returns (rest: seq<Key>, child: Key, parent: Key)
    requires Ascending(list)
    ensures rest == Without(list, key) && child == Succ(list, key) && parent == Pred(list, key)
  {
    rest, child, parent := list, NULL_KEY, NULL_KEY;
    AscendingNoDup(list);
    if list == [] {
      return;
    }
    if list[0] == key {
      IndexOfUnique(list, 0);
      if 1 < |list| {
        child := list[1];
      }
      rest := list[1..];
    } else if key in list {
      var i := IndexOf(list, key);
      if i + 1 < |list| {
        child := list[i + 1];
      }
      parent := list[i - 1];
      rest := list[..i] + list[i + 1..];
    }
  }

  lemma NotBefore(deps: seq<Obj>, n: nat)
    requires NoDup(deps) && n < |deps|
    ensures deps[n] !in deps[..n]
  {}

  /** The use lists once the key has been appended for the objects `done`. */
  ghost predicate Recorded(before: Uses, now: Uses, done: seq<Obj>, key: Key) {
    && (forall o :: o in now <==> o in before || o in done)
    && (forall o :: o in now ==> now[o] == Users(before, o) + if o in done then [key] else [])
  }

  lemma RecordStep(before: Uses, now: Uses, done: seq<Obj>, obj: Obj, key: Key)
    requires Recorded(before, now, done, key) && obj !in done
    ensures (obj in now <==> obj in before) && Users(now, obj) == Users(before, obj)
    ensures Recorded(before, now[obj := Users(now, obj) + [key]], done + [obj], key)
  {
    var s := Users(before, obj);
    assert s + [] == s;
  }

  lemma RecordedEnds(before: Uses, now: Uses, deps: seq<Obj>, key: Key)
    ensures Recorded(before, before, [], key) && LastUsers(before, []) == {}
    ensures Recorded(before, now, deps, key) ==> now == before + (map o | o in deps :: Users(before, o) + [key])
  {
    forall o | o in before
      ensures before[o] == Users(before, o) + []
    {
      assert before[o] + [] == before[o];
    }
  }

  lemma LastUsersNext(before: Uses, done: seq<Obj>, obj: Obj)
    ensures LastUsers(before, done + [obj]) ==
            LastUsers(before, done) + if obj in before then {Last(before[obj])} else {}
  {}

  lemma ListsUsed(t: Tree)
    requires Inv(t)
    ensures forall o :: o in t.usedIn ==> t.usedIn[o] != []
  {}

  /** Where the cursor is, the pending transactions begin. */
  lemma PendingFrom(t: Tree, i: nat)
    requires Inv(t) && i <= |t.root|
    requires if t.current.None? then i == 0 else i > 0 && t.root[i - 1] == t.current.value
    ensures Pending(t) == t.root[i..] && (i < |t.root| ==> t.root[i] in t.keys)
  {
    hide KeysValid, UsesExact, ParentsExact, ChildrenSound;
    if i > 0 {
      IndexOfUnique(t.root, i - 1);
    }
    hide IndexOf;
    assert i < |t.root| ==> t.root[i] in t.root;
  }

  lemma CursorKnown(t: Tree)
    requires Inv(t)
    ensures t.current.Some? ==> t.current.value in t.root
  {}

  class NLinkTree {
    var keys: map<Key, Node>
    var usedIn: Uses
    var root: seq<Key>
    var current: Option<Key>

    constructor ()
      ensures View() == EmptyTree && Inv(View()) && Mirror(View())
    {
      keys, usedIn, root, current := map[], map[], [], None;
    }

    function View(): Tree
      reads this
    {
      Tree(keys, usedIn, root, current)
    }

    /** Adds the key to the use lists of its objects and collects the transactions it must wait for. */
    method RecordUses(key: Key, deps: seq<Obj>) returns (parents: set<Key>)
      requires NoDup(deps) && forall o :: o in usedIn ==> usedIn[o] != []
      modifies this`usedIn
      ensures usedIn == old(usedIn) + (map o | o in deps :: Users(old(usedIn), o) + [key])
      ensures parents == LastUsers(old(usedIn), deps)
    {
      hide NoDup, Recorded, LastUsers;
      parents := {};
      ghost var before := usedIn;
      RecordedEnds(before, before, deps, key);
      assert deps[..0] == [];
      var n := 0;
      while n < |deps|
        invariant 0 <= n <= |deps|
        invariant Recorded(before, usedIn, deps[..n], key) && parents == LastUsers(before, deps[..n])
      {
        var obj := deps[n];
        assert deps[..n + 1] == deps[..n] + [obj];
        NotBefore(deps, n);
        RecordStep(before, usedIn, deps[..n], obj, key);
        LastUsersNext(before, deps[..n], obj);
        if obj !in usedIn {
          assert [] + [key] == [key];
          usedIn := usedIn[obj := [key]];
        } else {
          var list := usedIn[obj];
          parents := parents + {list[|list| - 1]};
          usedIn := usedIn[obj := list + [key]];
        }
        n := n + 1;
      }
      assert deps[..|deps|] == deps;
      RecordedEnds(before, usedIn, deps, key);
    }

    /** Adds the key to the children of its parents. */
    method LinkToParents(key: Key, parents: set<Key>) returns (linked: set<Key>)
      requires parents <= keys.Keys
      modifies this`keys
      ensures linked == parents
      ensures keys == map k | k in old(keys) :: WithChild(old(keys)[k], key, k in parents)
    {
      linked := {};
      var todo := parents;
      while todo != {}
        invariant todo <= parents && linked == parents - todo
        invariant keys.Keys == old(keys).Keys
        invariant forall k :: k in keys ==> keys[k] == WithChild(old(keys)[k], key, k in linked)
        decreases todo
      {
        var p :| p in todo;
        linked := linked + {p};
        keys := keys[p := keys[p].(children := keys[p].children + {key})];
        todo := todo - {p};
      }
    }

    /** NLinkTree::add; `ready` is the number of transactions added to the root list. */
    method Add(key: Key, value: nat, deps: seq<Obj>) returns (added: bool, ready: nat)
      requires Inv(View())
      requires key in keys || Addable(View(), key, deps)
      modifies this
      ensures added == (key !in old(keys))
      ensures added ==> View() == Added(old(View()), key, value, deps) && |root| == |old(root)| + ready
      ensures !added ==> View() == old(View()) && ready == 0
      ensures Inv(View())
      ensures old(Mirror(View())) ==> Mirror(View())
    {
      hide KeysValid, UsesExact, ParentsExact, ChildrenSound, RootExact, CursorInRoot, Mirror, LastUsers;
      if key in keys {
        return false, 0;
      }
      added, ready := true, 0;
      ghost var t := View();
      LastUsersEmpty(t, deps);
      ListsUsed(t);
      var parents := RecordUses(key, deps);
      var node := Node(value, deps, {}, {});
      if parents != {} {
        var linked := LinkToParents(key, parents);
        node := node.(parents := linked);
      } else {
        root := root + [key];
        ready := 1;
      }
      keys := keys[key := node];
      assert View() == Added(t, key, value, deps);
      AddKeepsInv(t, key, value, deps);
    }

    /** Takes the key out of the root list and moves the cursor off it. */
    method EraseFromRoot(key: Key)
      requires key in keys && RootExact(View())
      modifies this`root, this`current
      ensures root == Without(old(root), key)
      ensures current == CursorWithout(old(root), old(current), key)
    {
      assert key in root <==> keys[key].parents == {};
      if keys[key].parents == {} {
        var i := PlaceOf(key);
        IndexOfUnique(root, i);
        if current == Some(key) {
          current := if i == 0 then None else Some(root[i - 1]);
        }
        root := root[..i] + root[i + 1..];
      }
    }

    /** Takes the key out of the use lists of its objects and collects the (child, parent) pairs to rebind. */
    method EraseUses(key: Key, deps: seq<Obj>) returns (pairs: seq<ChildElement>)
      requires NoDup(deps)
      requires forall o :: o in usedIn ==> usedIn[o] != []
      requires forall o :: Ascending(Users(usedIn, o))
      modifies this`usedIn
      ensures Increasing(pairs)
      ensures ListsErased(old(usedIn), deps, |deps|, key, usedIn)
      ensures PairsCollected(old(usedIn), deps, |deps|, key, pairs)
    {
      pairs := [];
      ghost var before := usedIn;
      var n := 0;
      while n < |deps|
        invariant 0 <= n <= |deps| && Increasing(pairs)
        invariant ListsErased(before, deps, n, key, usedIn)
        invariant PairsCollected(before, deps, n, key, pairs)
      {
        var obj := deps[n];
        assert obj !in deps[..n];
        ghost var now, collected := usedIn, pairs;
        var list, child, parent := TakeOut(Users(usedIn, obj), key);
        if child != NULL_KEY || parent != NULL_KEY {
          pairs := Inserted(pairs, ChildElement(child, parent));
        }
        usedIn := if list == [] then usedIn - {obj} else usedIn[obj := list];
        EraseStep(before, deps, n, key, now, usedIn);
        CollectStep(before, deps, n, key, collected, pairs);
        n := n + 1;
      }
    }

    /** Rebinds the children of a removed key and appends those without a parent left to the root list. */
    method Relink(key: Key, pairs: seq<ChildElement>) returns (ready: nat)
      requires NULL_KEY !in keys
      requires forall e :: e in pairs ==> e.parent != NULL_KEY ==> e.parent in keys
      modifies this`keys, this`root
      ensures keys == RelinkFold(old(keys), pairs, |pairs|, key).0
      ensures root == old(root) + RelinkFold(old(keys), pairs, |pairs|, key).1
      ensures ready == |RelinkFold(old(keys), pairs, |pairs|, key).1|
    {
      ready := 0;
      var n := 0;
      while n < |pairs|
        invariant 0 <= n <= |pairs| && keys.Keys == old(keys).Keys
        invariant keys == RelinkFold(old(keys), pairs, n, key).0
        invariant root == old(root) + RelinkFold(old(keys), pairs, n, key).1
        invariant ready == |RelinkFold(old(keys), pairs, n, key).1|
      {
        var e := pairs[n];
        assert e in pairs;
        ghost var now := keys;
        if e.parent != NULL_KEY && e.parent in keys {
          keys := keys[e.parent := keys[e.parent].(children := keys[e.parent].children - {key})];
        }
        if e.child != NULL_KEY && e.child in keys {
          var left := keys[e.child].parents - {key};
          if e.parent != NULL_KEY && e.parent in keys {
            left := left + {e.parent};
          } else if left == {} && (n + 1 == |pairs| || pairs[n + 1].child != e.child) {
            root := root + [e.child];
            ready := ready + 1;
          }
          keys := keys[e.child := keys[e.child].(parents := left)];
        }
        assert keys == RelinkNodes(now, e, key);
        n := n + 1;
      }
    }

    /** NLinkTree::remove; `ready` is the number of transactions added to the root list. */
    method Remove(key: Key) returns (removed: bool, ready: nat)
      requires Inv(View())
      modifies this
      ensures removed == (key in old(keys))
      ensures removed ==> View() == Removed(old(View()), key) && ready == |Sorted(Unblocked(old(View()), key))|
      ensures !removed ==> View() == old(View()) && ready == 0
      ensures Inv(View())
    {
      if key !in keys {
        return false, 0;
      }
      removed := true;
      ghost var t := View();
      var deps := keys[key].deps;
      EraseFromRoot(key);
      keys := keys - {key};
      var pairs := EraseUses(key, deps);
      PairsBothWays(t, key, pairs);
      ready := Relink(key, pairs);
      LoopsRemove(t, key, pairs, usedIn);
      RemoveKeepsInv(t, key);
    }

    /** NLinkTree::next(K*, V*): hands out the first pending transaction. */
    method Next() returns (found: bool, key: Key, value: nat)
      requires Inv(View())
      modifies this`current
      ensures found == (Pending(old(View())) != [])
      ensures View() == Advanced(old(View()))
      ensures found ==> key == Pending(old(View()))[0] && key in keys && value == keys[key].value
      ensures found ==> Dispensed(View()) == Dispensed(old(View())) + [key]
      ensures Inv(View())
    {
      hide Inv, Pending, Dispensed;
      found, key, value := false, NULL_KEY, 0;
      AdvancedCursor(View());
      CursorKnown(View());
      var i := 0;
      if current.Some? {
        i := PlaceOf(current.value);
        i := i + 1;
      }
      PendingFrom(View(), i);
      if i < |root| {
        found, key, value := true, root[i], keys[root[i]].value;
        current := Some(key);
      }
    }

    /** The place of a transaction in the root list. */
    method PlaceOf(key: Key) returns (i: nat)
      requires key in root
      ensures i < |root| && root[i] == key
    {
      i := 0;
      while root[i] != key
        invariant 0 <= i < |root| && key in root[i..]
        decreases |root| - i
      {
        i := i + 1;
      }
    }

    /** NLinkTree::next(const K&, K*, V*): the ready transaction behind `after`, or the first one. */
    method NextAfter(after: Key) returns (found: bool, key: Key, value: nat)
      requires Inv(View())
      ensures after == NULL_KEY ==> found == (root != []) && (found ==> key == root[0])
      ensures after != NULL_KEY ==>
                found == (after in root && Behind(root, Some(after)) != []) &&
                (found ==> key == Behind(root, Some(after))[0])
      ensures found ==> key in keys && value == keys[key].value
    {
      found, key, value := false, NULL_KEY, 0;
      var i := 0;
      if after != NULL_KEY {
        while i < |root| && root[i] != after
          invariant 0 <= i <= |root| && after !in root[..i]
        {
          i := i + 1;
        }
        if i == |root| {
          return;
        }
        IndexOfUnique(root, i);
        i := i + 1;
      }
      if i < |root| {
        assert root[i] in root;
        found, key, value := true, root[i], keys[root[i]].value;
      }
    }
  }
}
