/**
The dependency tree of pending transactions (src/NLinkedTree.h, src/NLinkedTree.cpp) as a value.

A transaction id is modelled by its rank `id_ * 2^32 + date_`, so that the lexicographic order of the
source is the order of `nat` and the invalid id `K()` is 0.  A tree node is identified with its key, as
the node sets of the source are ordered by key.
*/
module TreeModel {
  import opened Common

  type Key = nat

  const NULL_KEY: Key := 0

  /** ObjectInTransaction (src/TransactionDef.h). */
  datatype Obj = Obj(kind: nat, id: nat)

  /** KParam together with the NTreeNode it points to. */
  datatype Node = Node(value: nat, deps: seq<Obj>, parents: set<Key>, children: set<Key>)

  type Uses = map<Obj, seq<Key>>

  /** `usedIn` lists, for every object in use, the pending transactions that declared it, in key order;
      `root` is the FIFO list of ready transactions and `current` the cursor into it. */
  datatype Tree = Tree(keys: map<Key, Node>, usedIn: Uses, root: seq<Key>, current: Option<Key>)

  const EmptyTree := Tree(map[], map[], [], None)

  function Users(usedIn: Uses, o: Obj): seq<Key> {
    if o in usedIn then usedIn[o] else []
  }

  /** The immediate predecessors of `k` in the use lists of the objects `deps`. */
  function ParentsOf(usedIn: Uses, deps: seq<Obj>, k: Key): set<Key> {
    set o | o in deps && Pred(Users(usedIn, o), k) != NULL_KEY :: Pred(Users(usedIn, o), k)
  }

  // ---------------------------------------------------------------- invariant

  ghost predicate KeysValid(t: Tree) {
    forall k :: k in t.keys ==> k != NULL_KEY && NoDup(t.keys[k].deps)
  }

  /** The use list of an object holds exactly the transactions that declare it, in key order. */
  ghost predicate UsesExact(t: Tree) {
    && (forall o :: o in t.usedIn ==> t.usedIn[o] != [])
    && (forall o :: Ascending(Users(t.usedIn, o)))
    && (forall o, k :: k in Users(t.usedIn, o) <==> k in t.keys && o in t.keys[k].deps)
  }

  ghost predicate ParentsExact(t: Tree) {
    forall k :: k in t.keys ==> t.keys[k].parents == ParentsOf(t.usedIn, t.keys[k].deps, k)
  }

  /** No child link dangles or points to a node that does not wait for this one. */
  ghost predicate ChildrenSound(t: Tree) {
    forall p, c :: p in t.keys && c in t.keys[p].children ==> c in t.keys && p in t.keys[c].parents
  }

  ghost predicate RootExact(t: Tree) {
    && NoDup(t.root)
    && (forall k {:trigger k in t.root} :: k in t.root <==> k in t.keys && t.keys[k].parents == {})
  }

  ghost predicate CursorInRoot(t: Tree) {
    t.current.Some? ==> t.current.value in t.root
  }

  ghost predicate Inv(t: Tree) {
    && KeysValid(t)
    && UsesExact(t)
    && ParentsExact(t)
    && ChildrenSound(t)
    && RootExact(t)
    && CursorInRoot(t)
  }

  /** Every node lists all the nodes that wait for it. */
  ghost predicate Mirror(t: Tree) {
    forall p, c :: c in t.keys && p in t.keys[c].parents && p in t.keys ==> c in t.keys[p].children
  }

  // ---------------------------------------------------------------- operations

  function Last(s: seq<Key>): Key {
    if s == [] then NULL_KEY else s[|s| - 1]
  }

  /** The last users of the declared objects: the parents of a transaction added now. */
  function LastUsers(usedIn: Uses, deps: seq<Obj>): set<Key> {
    set o | o in deps && o in usedIn :: Last(usedIn[o])
  }

  /** What the source asserts of an insertion: a valid key above all present ones, no object listed twice. */
  ghost predicate Addable(t: Tree, key: Key, deps: seq<Obj>) {
    key != NULL_KEY && (forall k :: k in t.keys ==> k < key) && NoDup(deps)
  }

  function WithChild(n: Node, key: Key, isParent: bool): Node {
    if isParent then n.(children := n.children + {key}) else n
  }

  function Added(t: Tree, key: Key, value: nat, deps: seq<Obj>): Tree {
    var parents := LastUsers(t.usedIn, deps);
    var linked := map k | k in t.keys :: WithChild(t.keys[k], key, k in parents);
    Tree(linked[key := Node(value, deps, parents, {})],
         t.usedIn + (map o | o in deps :: Users(t.usedIn, o) + [key]),
         if parents == {} then t.root + [key] else t.root,
         t.current)
  }

  /** The parents that `c` inherits when `key` is taken out from between them. */
  function Adopted(usedIn: Uses, deps: seq<Obj>, key: Key, c: Key): set<Key> {
    set o | o in deps && Succ(Users(usedIn, o), key) == c && Pred(Users(usedIn, o), key) != NULL_KEY
      :: Pred(Users(usedIn, o), key)
  }

  function NewParents(t: Tree, key: Key, c: Key): set<Key>
    requires key in t.keys && c in t.keys
  {
    t.keys[c].parents - {key} + Adopted(t.usedIn, t.keys[key].deps, key, c)
  }

  /** The transactions that the removal of `key` makes ready. */
  function Unblocked(t: Tree, key: Key): set<Key>
    requires key in t.keys
  {
    set c | c in t.keys && c != key && key in t.keys[c].parents && NewParents(t, key, c) == {}
  }

  /** The cursor after `key` leaves the root list: it falls back to the element before. */
  function CursorWithout(list: seq<Key>, cursor: Option<Key>, key: Key): Option<Key> {
    if cursor == Some(key) && key in list then
      var i := IndexOf(list, key);
      if i == 0 then None else Some(list[i - 1])
    else cursor
  }

  ghost function Removed(t: Tree, key: Key): Tree
    requires key in t.keys
  {
    Tree(map c | c in t.keys && c != key ::
           t.keys[c].(parents := NewParents(t, key, c), children := t.keys[c].children - {key}),
         map o | o in t.usedIn && t.usedIn[o] != [key] :: Without(t.usedIn[o], key),
         Without(t.root, key) + Sorted(Unblocked(t, key)),
         CursorWithout(t.root, t.current, key))
  }

  /** The part of `list` up to and including the cursor. */
  function UpTo(list: seq<Key>, cursor: Option<Key>): seq<Key> {
    if cursor.Some? && cursor.value in list then list[..IndexOf(list, cursor.value) + 1] else []
  }

  /** The part of `list` behind the cursor. */
  function Behind(list: seq<Key>, cursor: Option<Key>): seq<Key> {
    if cursor.Some? && cursor.value in list then list[IndexOf(list, cursor.value) + 1..] else list
  }

  /** The ready transactions already handed out: the root list up to and including the cursor. */
  function Dispensed(t: Tree): seq<Key> {
    UpTo(t.root, t.current)
  }

  /** The ready transactions not handed out yet. */
  function Pending(t: Tree): seq<Key> {
    Behind(t.root, t.current)
  }

  /** NLinkTree::next: moves the cursor to the first pending transaction. */
  function Advanced(t: Tree): Tree {
    if Pending(t) == [] then t else t.(current := Some(Pending(t)[0]))
  }

  // ---------------------------------------------------------------- facts about the invariant

  lemma UseListFacts(t: Tree, o: Obj)
    requires KeysValid(t) && UsesExact(t)
    ensures NULL_KEY !in Users(t.usedIn, o) && Ascending(Users(t.usedIn, o)) && NoDup(Users(t.usedIn, o))
  {
    AscendingNoDup(Users(t.usedIn, o));
    assert NULL_KEY in Users(t.usedIn, o) ==> NULL_KEY in t.keys;
  }

  /** Every parent is a pending transaction with a smaller key, and it shares an object. */
  lemma ParentsSmaller(t: Tree, k: Key, p: Key)
    requires Inv(t) && k in t.keys && p in t.keys[k].parents
    ensures p in t.keys && p < k
    ensures exists o :: o in t.keys[k].deps && o in t.keys[p].deps
  {
    hide RootExact, ChildrenSound, CursorInRoot;
    var o :| o in t.keys[k].deps && Pred(Users(t.usedIn, o), k) == p && p != NULL_KEY;
    UseListFacts(t, o);
    hide Pred;
    PredSucc(Users(t.usedIn, o), k, k);
    assert p in Users(t.usedIn, o);
  }

  ghost predicate ParentsKnown(t: Tree) {
    forall k :: k in t.keys ==> t.keys[k].parents <= t.keys.Keys
  }

  lemma InvParentsKnown(t: Tree)
    requires Inv(t)
    ensures ParentsKnown(t)
  {
    forall k, p | k in t.keys && p in t.keys[k].parents
      ensures p in t.keys
    {
      ParentsSmaller(t, k, p);
    }
  }

  lemma RootFacts(t: Tree)
    requires Inv(t)
    ensures NoDup(t.root)
    ensures forall k :: k in t.root ==> k in t.keys
    ensures forall k :: k in Pending(t) || k in Dispensed(t) ==> k in t.root
  {}

  /** A tree that holds a transaction always has a ready one. */
  lemma NonEmptyHasReady(t: Tree)
    requires Inv(t) && t.keys != map[]
    ensures t.root != []
  {
    var m := Minimum(t.keys.Keys);
    if p :| p in t.keys[m].parents {
      ParentsSmaller(t, m, p);
    }
    assert m in t.root;
  }

  /** A transaction is ready exactly when it is the first user of each of its objects. */
  lemma ReadyIsFirstUser(t: Tree, k: Key)
    requires Inv(t) && k in t.keys
    ensures k in t.root <==>
            forall o :: o in t.keys[k].deps ==> Users(t.usedIn, o) != [] && Users(t.usedIn, o)[0] == k
  {
    forall o | o in t.keys[k].deps
      ensures Users(t.usedIn, o) != [] && k in Users(t.usedIn, o)
      ensures Pred(Users(t.usedIn, o), k) == NULL_KEY <==> Users(t.usedIn, o)[0] == k
    {
      UseListFacts(t, o);
      var s := Users(t.usedIn, o);
      assert k in s;
      if s[0] == k {
        IndexOfUnique(s, 0);
      }
    }
    var deps := t.keys[k].deps;
    if k !in t.root {
      var p :| p in t.keys[k].parents;
      var o :| o in t.keys[k].deps && Pred(Users(t.usedIn, o), k) == p && p != NULL_KEY;
    } else {
      forall o | o in t.keys[k].deps
        ensures Users(t.usedIn, o)[0] == k
      {
        var p := Pred(Users(t.usedIn, o), k);
        assert p != NULL_KEY ==> p in ParentsOf(t.usedIn, deps, k);
      }
    }
  }

  /** Two ready transactions never share an object. */
  lemma ReadyDisjoint(t: Tree, k: Key, l: Key, o: Obj)
    requires Inv(t) && k in t.root && l in t.root && k != l
    ensures !(o in t.keys[k].deps && o in t.keys[l].deps)
  {
    ReadyIsFirstUser(t, k);
    ReadyIsFirstUser(t, l);
  }

  // ---------------------------------------------------------------- add

  lemma AddedUsers(t: Tree, key: Key, value: nat, deps: seq<Obj>, o: Obj)
    requires KeysValid(t) && UsesExact(t) && Addable(t, key, deps)
    ensures Users(Added(t, key, value, deps).usedIn, o) == Users(t.usedIn, o) + (if o in deps then [key] else [])
    ensures Ascending(Users(t.usedIn, o) + [key])
  {
    hide UsesExact, KeysValid, NoDup;
    UseListFacts(t, o);
    UsersBelow(t, key, deps, o);
    AscendingAppend(Users(t.usedIn, o), key);
    AddedUseList(t, key, value, deps, o);
  }

  lemma AddedUseList(t: Tree, key: Key, value: nat, deps: seq<Obj>, o: Obj)
    ensures Users(Added(t, key, value, deps).usedIn, o) == Users(t.usedIn, o) + (if o in deps then [key] else [])
  {
    var s := Users(t.usedIn, o);
    assert s + [] == s;
  }

  lemma UsersBelow(t: Tree, key: Key, deps: seq<Obj>, o: Obj)
    requires UsesExact(t) && Addable(t, key, deps)
    ensures forall k :: k in Users(t.usedIn, o) ==> k < key
  {
    forall k | k in Users(t.usedIn, o)
      ensures k < key
    {
      assert k in t.keys;
    }
  }

  lemma AscendingAppend(s: seq<Key>, key: Key)
    requires Ascending(s) && forall k :: k in s ==> k < key
    ensures Ascending(s + [key])
  {
    assert forall i :: 0 <= i < |s| ==> s[i] in s;
  }

  lemma PredAppend(s: seq<Key>, key: Key, k: Key)
    requires Ascending(s + [key]) && NULL_KEY !in s && (k in s || k == key)
    ensures Pred(s + [key], k) == if k == key then Last(s) else Pred(s, k)
  {
    var w := s + [key];
    AscendingNoDup(w);
    if k == key {
      assert w[|s|] == key;
      IndexOfUnique(w, |s|);
    } else {
      var i := IndexOf(s, k);
      assert w[i] == k;
      IndexOfUnique(w, i);
    }
  }

  lemma AddedPred(t: Tree, key: Key, value: nat, deps: seq<Obj>, k: Key, o: Obj)
    requires KeysValid(t) && UsesExact(t) && Addable(t, key, deps)
    requires if k == key then o in deps else k in t.keys && o in t.keys[k].deps
    ensures Pred(Users(Added(t, key, value, deps).usedIn, o), k) ==
            if k == key then Last(Users(t.usedIn, o)) else Pred(Users(t.usedIn, o), k)
  {
    AddedUsers(t, key, value, deps, o);
    UseListFacts(t, o);
    if o in deps {
      PredAppend(Users(t.usedIn, o), key, k);
    }
  }

  lemma LastUserFacts(t: Tree, deps: seq<Obj>, o: Obj)
    requires KeysValid(t) && UsesExact(t) && o in deps && o in t.usedIn
    ensures Last(t.usedIn[o]) in t.keys && Last(t.usedIn[o]) != NULL_KEY
    ensures Last(t.usedIn[o]) in LastUsers(t.usedIn, deps)
  {
    assert Last(t.usedIn[o]) in Users(t.usedIn, o);
  }

  lemma LastUsersEmpty(t: Tree, deps: seq<Obj>)
    requires KeysValid(t) && UsesExact(t)
    ensures LastUsers(t.usedIn, deps) <= t.keys.Keys
    ensures LastUsers(t.usedIn, deps) == {} <==> forall o :: o in deps ==> o !in t.usedIn
  {
    forall o | o in deps && o in t.usedIn
      ensures Last(t.usedIn[o]) in t.keys && Last(t.usedIn[o]) in LastUsers(t.usedIn, deps)
    {
      LastUserFacts(t, deps, o);
    }
  }

  lemma AddedNewParents(t: Tree, key: Key, value: nat, deps: seq<Obj>)
    requires KeysValid(t) && UsesExact(t) && Addable(t, key, deps)
    ensures LastUsers(t.usedIn, deps) == ParentsOf(Added(t, key, value, deps).usedIn, deps, key)
  {
    var u := Added(t, key, value, deps).usedIn;
    forall o | o in deps
      ensures Pred(Users(u, o), key) == Last(Users(t.usedIn, o))
      ensures o in t.usedIn ==> Last(t.usedIn[o]) != NULL_KEY
    {
      AddedPred(t, key, value, deps, key, o);
      if o in t.usedIn {
        LastUserFacts(t, deps, o);
      }
    }
  }

  lemma AddedOldParents(t: Tree, key: Key, value: nat, deps: seq<Obj>, k: Key)
    requires KeysValid(t) && UsesExact(t) && Addable(t, key, deps) && k in t.keys
    ensures ParentsOf(t.usedIn, t.keys[k].deps, k) == ParentsOf(Added(t, key, value, deps).usedIn, t.keys[k].deps, k)
  {
    forall o | o in t.keys[k].deps
      ensures Pred(Users(Added(t, key, value, deps).usedIn, o), k) == Pred(Users(t.usedIn, o), k)
    {
      AddedPred(t, key, value, deps, k, o);
    }
  }

  lemma AddedUsesExact(t: Tree, key: Key, value: nat, deps: seq<Obj>)
    requires KeysValid(t) && UsesExact(t) && Addable(t, key, deps)
    ensures UsesExact(Added(t, key, value, deps))
  {
    var u := Added(t, key, value, deps);
    forall o
      ensures Ascending(Users(u.usedIn, o))
      ensures forall k :: k in Users(u.usedIn, o) <==> k in u.keys && o in u.keys[k].deps
    {
      AddedUsers(t, key, value, deps, o);
      assert forall k :: k in Users(t.usedIn, o) <==> k in t.keys && o in t.keys[k].deps;
    }
  }

  lemma AddedParentsExact(t: Tree, key: Key, value: nat, deps: seq<Obj>)
    requires KeysValid(t) && UsesExact(t) && ParentsExact(t) && Addable(t, key, deps)
    ensures ParentsExact(Added(t, key, value, deps))
  {
    AddedNewParents(t, key, value, deps);
    forall k | k in t.keys
      ensures ParentsOf(t.usedIn, t.keys[k].deps, k) ==
              ParentsOf(Added(t, key, value, deps).usedIn, t.keys[k].deps, k)
    {
      AddedOldParents(t, key, value, deps, k);
    }
  }

  lemma AddedLinks(t: Tree, key: Key, value: nat, deps: seq<Obj>)
    requires ChildrenSound(t) && ParentsKnown(t) && Addable(t, key, deps)
    requires LastUsers(t.usedIn, deps) <= t.keys.Keys
    ensures ChildrenSound(Added(t, key, value, deps))
    ensures Mirror(t) ==> Mirror(Added(t, key, value, deps))
  {
    var u := Added(t, key, value, deps);
    var parents := LastUsers(t.usedIn, deps);
    forall p, c | p in u.keys && c in u.keys[p].children
      ensures c in u.keys && p in u.keys[c].parents
    {
      assert p != key;
      if c in t.keys[p].children {
        assert c in t.keys && c != key;
      }
    }
    if Mirror(t) {
      forall p, c | c in u.keys && p in u.keys[c].parents && p in u.keys
        ensures c in u.keys[p].children
      {
        assert p in t.keys && p != key;
        if c != key {
          assert c in t.keys[p].children;
        }
      }
    }
  }

  lemma AddedRoot(t: Tree, key: Key, value: nat, deps: seq<Obj>)
    requires KeysValid(t) && UsesExact(t) && RootExact(t) && CursorInRoot(t) && Addable(t, key, deps)
    ensures RootExact(Added(t, key, value, deps)) && CursorInRoot(Added(t, key, value, deps))
    ensures var ready := forall o :: o in deps ==> o !in t.usedIn;
            Added(t, key, value, deps).root == if ready then t.root + [key] else t.root
  {
    LastUsersEmpty(t, deps);
    assert key !in t.root;
  }

  /** Insertion keeps the whole invariant and the children mirror; it touches the root list only by
      appending the new key, exactly when no declared object is in use. */
  lemma AddKeepsInv(t: Tree, key: Key, value: nat, deps: seq<Obj>)
    requires Inv(t) && Addable(t, key, deps)
    ensures Inv(Added(t, key, value, deps))
    ensures Mirror(t) ==> Mirror(Added(t, key, value, deps))
    ensures var ready := forall o :: o in deps ==> o !in t.usedIn;
            Added(t, key, value, deps).root == if ready then t.root + [key] else t.root
  {
    var u := Added(t, key, value, deps);
    assert KeysValid(u);
    assert UsesExact(u) by {
      AddedUsesExact(t, key, value, deps);
    }
    assert ParentsExact(u) by {
      AddedParentsExact(t, key, value, deps);
    }
    InvParentsKnown(t);
    LastUsersEmpty(t, deps);
    AddedLinks(t, key, value, deps);
    AddedRoot(t, key, value, deps);
  }

  // ---------------------------------------------------------------- remove

  lemma RemovedUsers(t: Tree, key: Key, o: Obj)
    requires KeysValid(t) && UsesExact(t) && key in t.keys
    ensures Users(Removed(t, key).usedIn, o) == Without(Users(t.usedIn, o), key)
    ensures o !in t.keys[key].deps ==> Without(Users(t.usedIn, o), key) == Users(t.usedIn, o)
  {
    if o in t.usedIn && t.usedIn[o] == [key] {
      assert IndexOf([key], key) == 0;
    }
  }

  lemma RemovedUsesExact(t: Tree, key: Key)
    requires KeysValid(t) && UsesExact(t) && key in t.keys
    ensures UsesExact(Removed(t, key))
  {
    var u := Removed(t, key);
    forall o
      ensures Ascending(Users(u.usedIn, o))
      ensures forall k :: k in Users(u.usedIn, o) <==> k in u.keys && o in u.keys[k].deps
    {
      RemovedUsers(t, key, o);
      UseListFacts(t, o);
      WithoutMembers(Users(t.usedIn, o), key);
      WithoutAscending(Users(t.usedIn, o), key);
      assert forall k :: k in Users(t.usedIn, o) <==> k in t.keys && o in t.keys[k].deps;
    }
    forall o | o in u.usedIn
      ensures u.usedIn[o] != []
    {
      var s := t.usedIn[o];
      UseListFacts(t, o);
      WithoutMembers(Users(t.usedIn, o), key);
    }
  }

  lemma RemovedPred(t: Tree, key: Key, c: Key, o: Obj)
    requires KeysValid(t) && UsesExact(t) && key in t.keys && c in t.keys && c != key && o in t.keys[c].deps
    ensures var s := Users(t.usedIn, o);
            && (Pred(s, c) == key <==> o in t.keys[key].deps && Succ(s, key) == c)
            && Pred(Users(Removed(t, key).usedIn, o), c) == if Pred(s, c) == key then Pred(s, key) else Pred(s, c)
  {
    var s := Users(t.usedIn, o);
    RemovedUsers(t, key, o);
    UseListFacts(t, o);
    assert c in s;
    PredSucc(s, c, c);
    if key in s {
      PredSucc(s, key, c);
      PredWithout(s, key, c);
    }
  }

  lemma AdoptedNeedsParent(t: Tree, key: Key, c: Key, o: Obj)
    requires KeysValid(t) && UsesExact(t) && ParentsExact(t) && key in t.keys
    requires o in t.keys[key].deps && Succ(Users(t.usedIn, o), key) == c && c != NULL_KEY
    ensures c in t.keys && c != key && o in t.keys[c].deps && key in t.keys[c].parents
  {
    var s := Users(t.usedIn, o);
    UseListFacts(t, o);
    assert key in s && c in s;
    PredSucc(s, key, c);
    assert Pred(Users(t.usedIn, o), c) in ParentsOf(t.usedIn, t.keys[c].deps, c);
  }

  lemma NewParentHasPred(t: Tree, key: Key, c: Key, p: Key)
    requires KeysValid(t) && UsesExact(t) && ParentsExact(t) && key in t.keys && c in t.keys && c != key
    requires p in NewParents(t, key, c)
    ensures p in ParentsOf(Removed(t, key).usedIn, t.keys[c].deps, c)
  {
    var deps := t.keys[c].deps;
    if p in Adopted(t.usedIn, t.keys[key].deps, key, c) {
      var o :| o in t.keys[key].deps && Succ(Users(t.usedIn, o), key) == c && Pred(Users(t.usedIn, o), key) == p;
      AdoptedNeedsParent(t, key, c, o);
      RemovedPred(t, key, c, o);
      assert Pred(Users(Removed(t, key).usedIn, o), c) == p;
    } else {
      var o :| o in deps && Pred(Users(t.usedIn, o), c) == p;
      RemovedPred(t, key, c, o);
      assert Pred(Users(Removed(t, key).usedIn, o), c) == p;
    }
  }

  lemma PredIsNewParent(t: Tree, key: Key, c: Key, o: Obj)
    requires KeysValid(t) && UsesExact(t) && ParentsExact(t) && key in t.keys && c in t.keys && c != key
    requires o in t.keys[c].deps && Pred(Users(Removed(t, key).usedIn, o), c) != NULL_KEY
    ensures Pred(Users(Removed(t, key).usedIn, o), c) in NewParents(t, key, c)
  {
    RemovedPred(t, key, c, o);
    var s := Users(t.usedIn, o);
    if Pred(s, c) == key {
      assert Pred(Users(t.usedIn, o), key) in Adopted(t.usedIn, t.keys[key].deps, key, c);
    } else {
      assert Pred(Users(t.usedIn, o), c) in ParentsOf(t.usedIn, t.keys[c].deps, c);
    }
  }

  /** Removing `key` gives each remaining transaction exactly the predecessors of the shortened lists. */
  lemma RemovedParents(t: Tree, key: Key, c: Key)
    requires KeysValid(t) && UsesExact(t) && ParentsExact(t) && key in t.keys && c in t.keys && c != key
    ensures NewParents(t, key, c) == ParentsOf(Removed(t, key).usedIn, t.keys[c].deps, c)
  {
    var u := Removed(t, key).usedIn;
    forall p | p in NewParents(t, key, c)
      ensures p in ParentsOf(u, t.keys[c].deps, c)
    {
      NewParentHasPred(t, key, c, p);
    }
    forall o | o in t.keys[c].deps && Pred(Users(u, o), c) != NULL_KEY
      ensures Pred(Users(u, o), c) in NewParents(t, key, c)
    {
      PredIsNewParent(t, key, c, o);
    }
  }

  lemma RemovedParentsExact(t: Tree, key: Key)
    requires KeysValid(t) && UsesExact(t) && ParentsExact(t) && key in t.keys
    ensures ParentsExact(Removed(t, key))
  {
    var u := Removed(t, key);
    forall c | c in u.keys
      ensures u.keys[c].parents == ParentsOf(u.usedIn, u.keys[c].deps, c)
    {
      RemovedParents(t, key, c);
    }
  }

  lemma AdoptedEmpty(t: Tree, key: Key, c: Key)
    requires KeysValid(t) && UsesExact(t) && ParentsExact(t) && key in t.keys && c in t.keys
    requires key !in t.keys[c].parents
    ensures Adopted(t.usedIn, t.keys[key].deps, key, c) == {}
  {
    forall o | o in t.keys[key].deps
      ensures Succ(Users(t.usedIn, o), key) != c
    {
      if Succ(Users(t.usedIn, o), key) == c {
        AdoptedNeedsParent(t, key, c, o);
      }
    }
  }

  lemma RemovedLinks(t: Tree, key: Key)
    requires ChildrenSound(t) && key in t.keys
    ensures ChildrenSound(Removed(t, key))
  {
    hide Adopted, Sorted, Unblocked;
    var u := Removed(t, key);
    forall p, c | p in u.keys && c in u.keys[p].children
      ensures c in u.keys && p in u.keys[c].parents
    {
      assert c in t.keys[p].children;
    }
  }

  lemma RemovedRootMembers(t: Tree, key: Key)
    requires KeysValid(t) && UsesExact(t) && ParentsExact(t) && RootExact(t) && key in t.keys
    ensures forall k {:trigger k in Removed(t, key).root} :: k in Removed(t, key).root <==>
              k in t.keys && k != key && NewParents(t, key, k) == {}
    ensures forall k :: k in Unblocked(t, key) ==> k !in t.root
  {
    WithoutMembers(t.root, key);
    var w, ready := Without(t.root, key), Sorted(Unblocked(t, key));
    forall k
      ensures k in w + ready <==> k in t.keys && k != key && NewParents(t, key, k) == {}
    {
      assert k in w + ready <==> k in w || k in Unblocked(t, key);
      if k in t.keys && k != key {
        if key !in t.keys[k].parents {
          AdoptedEmpty(t, key, k);
        } else {
          assert k !in t.root;
        }
      }
    }
  }

  lemma ConcatNoDup<T>(a: seq<T>, b: seq<T>)
    requires NoDup(a) && NoDup(b) && forall x :: x in a ==> x !in b
    ensures NoDup(a + b)
  {
    var w := a + b;
    forall i, j | 0 <= i < j < |w|
      ensures w[i] != w[j]
    {
      if i < |a| <= j {
        assert a[i] in a && b[j - |a|] in b;
      }
    }
  }

  lemma RemovedRoot(t: Tree, key: Key)
    requires KeysValid(t) && UsesExact(t) && ParentsExact(t) && RootExact(t) && CursorInRoot(t) && key in t.keys
    ensures RootExact(Removed(t, key)) && CursorInRoot(Removed(t, key))
  {
    RemovedRootMembers(t, key);
    WithoutMembers(t.root, key);
    AscendingNoDup(Sorted(Unblocked(t, key)));
    ConcatNoDup(Without(t.root, key), Sorted(Unblocked(t, key)));
    var u := Removed(t, key);
    assert u.current.Some? ==> u.current.value in Without(t.root, key);
  }

  lemma UnblockedFacts(t: Tree, key: Key)
    requires Inv(t) && key in t.keys
    ensures forall k :: k in Sorted(Unblocked(t, key)) ==> k in t.keys && k !in t.root
  {
    RemovedRootMembers(t, key);
  }

  /** Removal of any transaction, ready or blocked, keeps the whole invariant. */
  lemma RemoveKeepsInv(t: Tree, key: Key)
    requires Inv(t) && key in t.keys
    ensures Inv(Removed(t, key))
  {
    var u := Removed(t, key);
    assert KeysValid(u);
    assert UsesExact(u) by {
      RemovedUsesExact(t, key);
    }
    assert ParentsExact(u) by {
      RemovedParentsExact(t, key);
    }
    RemovedLinks(t, key);
    RemovedRoot(t, key);
  }

  /** A removal keeps the children mirror exactly when no waiting transaction inherits a parent it did not
      have: `remove` repairs the parents of the child but never links the child into its new parent. */
  lemma RemoveKeepsMirrorIff(t: Tree, key: Key)
    requires Inv(t) && Mirror(t) && key in t.keys
    ensures Mirror(Removed(t, key)) <==>
            forall c :: c in t.keys && c != key ==> Adopted(t.usedIn, t.keys[key].deps, key, c) <= t.keys[c].parents
  {
    var u := Removed(t, key);
    RemoveKeepsInv(t, key);
    InvParentsKnown(u);
    hide Inv, Removed, Adopted;
    assert u.keys.Keys == t.keys.Keys - {key} by { RemovedKeys(t, key); }
    forall c, p | c in u.keys && p in u.keys
      ensures c in u.keys[p].children <==> p in t.keys[c].parents
      ensures p in u.keys[c].parents <==> p in t.keys[c].parents || p in Adopted(t.usedIn, t.keys[key].deps, key, c)
    {
      RemovedLink(t, key, c, p);
    }
    if Mirror(u) {
      forall c, p | c in u.keys && p in Adopted(t.usedIn, t.keys[key].deps, key, c)
        ensures p in t.keys[c].parents
      {
        assert p in u.keys by { AdoptedKnown(t, key, c, p); }
      }
    }
  }

  lemma RemovedKeys(t: Tree, key: Key)
    requires key in t.keys
    ensures Removed(t, key).keys.Keys == t.keys.Keys - {key}
  {}

  /** The links between two nodes that stay. */
  lemma RemovedLink(t: Tree, key: Key, c: Key, p: Key)
    requires Inv(t) && Mirror(t) && key in t.keys && c in t.keys && c != key && p in t.keys && p != key
    ensures var u := Removed(t, key);
            && c in u.keys && p in u.keys && (c in u.keys[p].children <==> p in t.keys[c].parents)
            && (p in u.keys[c].parents <==> p in t.keys[c].parents || p in Adopted(t.usedIn, t.keys[key].deps, key, c))
  {
    hide KeysValid, UsesExact, ParentsExact, RootExact, Adopted;
    assert c in t.keys[p].children <==> p in t.keys[c].parents;
  }

  lemma AdoptedKnown(t: Tree, key: Key, c: Key, p: Key)
    requires key in t.keys && c in t.keys && c != key && Inv(Removed(t, key))
    requires p in Adopted(t.usedIn, t.keys[key].deps, key, c)
    ensures p in Removed(t, key).keys
  {
    var u := Removed(t, key);
    assert p in u.keys[c].parents by { hide Adopted; }
    hide Removed, Adopted;
    ParentsSmaller(u, c, p);
  }

  /** Ready transactions, the only ones the scheduler removes, leave the mirror intact. */
  lemma RemoveReadyKeepsMirror(t: Tree, key: Key)
    requires Inv(t) && Mirror(t) && key in t.root
    ensures Mirror(Removed(t, key))
  {
    var deps := t.keys[key].deps;
    forall o | o in deps
      ensures Pred(Users(t.usedIn, o), key) == NULL_KEY
    {
      var p := Pred(Users(t.usedIn, o), key);
      assert p != NULL_KEY ==> p in ParentsOf(t.usedIn, deps, key);
    }
    RemoveKeepsMirrorIff(t, key);
  }

  /** Three transactions on one object, the middle one removed: 3 now waits for 1, but 1 does not list it. */
  lemma BlockedRemovalBreaksMirror(o: Obj)
    ensures var t := ThreeInARow(o);
            && Inv(t) && Mirror(t)
            && 1 in Removed(t, 2).keys[3].parents
            && 3 !in Removed(t, 2).keys[1].children
  {
    hide KeysValid, UsesExact, ParentsExact, ChildrenSound, RootExact, CursorInRoot, Mirror, Adopted, Sorted, Unblocked;
    ThreeInARowParents(o);
    ThreeInARowExact(o);
    ThreeInARowUses(o);
    ThreeInARowLinks(o);
    assert 1 in NewParents(ThreeInARow(o), 2, 3);
  }

  lemma ThreeInARowExact(o: Obj)
    ensures ParentsExact(ThreeInARow(o))
  {
    hide ParentsOf;
    ThreeInARowParents(o);
  }

  lemma ThreeInARowUses(o: Obj)
    ensures KeysValid(ThreeInARow(o)) && UsesExact(ThreeInARow(o))
  {
    var t := ThreeInARow(o);
    assert forall k :: k in t.keys ==> t.keys[k].deps == [o];
    assert forall k :: k in [1, 2, 3] <==> k in t.keys;
    assert forall o' :: Users(t.usedIn, o') == if o' == o then [1, 2, 3] else [];
  }

  lemma ThreeInARowLinks(o: Obj)
    ensures var t := ThreeInARow(o);
            ChildrenSound(t) && Mirror(t) && RootExact(t) && CursorInRoot(t)
  {}

  lemma ThreeInARowParents(o: Obj)
    ensures var t := ThreeInARow(o);
            && ParentsOf(t.usedIn, [o], 1) == {} && ParentsOf(t.usedIn, [o], 2) == {1}
            && ParentsOf(t.usedIn, [o], 3) == {2} && Adopted(t.usedIn, [o], 2, 3) == {1}
  {
    hide Pred, Succ;
    OneTwoThree();
    assert Users(ThreeInARow(o).usedIn, o) == [1, 2, 3];
    assert o in [o];
  }

  lemma OneTwoThree()
    ensures var s := [1, 2, 3];
            Pred(s, 1) == NULL_KEY && Pred(s, 2) == 1 && Pred(s, 3) == 2 && Succ(s, 2) == 3
  {
    var s := [1, 2, 3];
    IndexOfUnique(s, 0);
    IndexOfUnique(s, 1);
    IndexOfUnique(s, 2);
  }

  function ThreeInARow(o: Obj): Tree {
    Tree(map[1 := Node(0, [o], {}, {2}), 2 := Node(0, [o], {1}, {3}), 3 := Node(0, [o], {2}, {})],
         map[o := [1, 2, 3]], [1], None)
  }

  // ---------------------------------------------------------------- cursor

  lemma SplitAtCursor(list: seq<Key>, cursor: Option<Key>)
    ensures list == UpTo(list, cursor) + Behind(list, cursor)
  {}

  /** A non-empty prefix that ends in the cursor is the part up to the cursor. */
  lemma CursorAt(prefix: seq<Key>, rest: seq<Key>)
    requires NoDup(prefix + rest) && prefix != []
    ensures var cursor := Some(prefix[|prefix| - 1]);
            UpTo(prefix + rest, cursor) == prefix && Behind(prefix + rest, cursor) == rest
  {
    var w := prefix + rest;
    assert w[|prefix| - 1] == prefix[|prefix| - 1];
    IndexOfUnique(w, |prefix| - 1);
  }

  lemma UpToEndsInCursor(list: seq<Key>, cursor: Option<Key>)
    requires cursor.Some? ==> cursor.value in list
    ensures cursor == if UpTo(list, cursor) == [] then None else Some(UpTo(list, cursor)[|UpTo(list, cursor)| - 1])
  {}

  lemma AddedCursor(t: Tree, key: Key, value: nat, deps: seq<Obj>)
    requires Inv(t) && Addable(t, key, deps)
    ensures var u := Added(t, key, value, deps);
            && Dispensed(u) == Dispensed(t)
            && Pending(u) == Pending(t) + (if LastUsers(t.usedIn, deps) == {} then [key] else [])
  {
    hide LastUsers;
    var u := Added(t, key, value, deps);
    var extra := if LastUsers(t.usedIn, deps) == {} then [key] else [];
    AddedRoot(t, key, value, deps);
    hide Added, KeysValid, UsesExact, ParentsExact, ChildrenSound, RootExact;
    SplitAtCursor(t.root, t.current);
    UpToEndsInCursor(t.root, t.current);
    assert u.root == Dispensed(t) + (Pending(t) + extra);
    if Dispensed(t) != [] {
      CursorAt(Dispensed(t), Pending(t) + extra);
    }
  }

  lemma MoveCursorKeepsInv(t: Tree, c: Key)
    requires Inv(t) && c in t.root
    ensures Inv(t.(current := Some(c)))
    ensures Mirror(t) ==> Mirror(t.(current := Some(c)))
  {
    var u := t.(current := Some(c));
    assert KeysValid(u) && UsesExact(u);
    assert ParentsExact(u) && ChildrenSound(u);
    assert RootExact(u);
  }

  /** `next` hands out the head of the pending suffix and moves it to the dispensed prefix. */
  lemma AdvancedCursor(t: Tree)
    requires Inv(t)
    ensures Inv(Advanced(t)) && (Mirror(t) ==> Mirror(Advanced(t)))
    ensures Pending(t) != [] ==>
              Dispensed(Advanced(t)) == Dispensed(t) + [Pending(t)[0]] && Pending(Advanced(t)) == Pending(t)[1..]
  {
    RootFacts(t);
    hide Inv, UpTo, Behind, Mirror;
    if Pending(t) != [] {
      AdvanceSplit(t.root, t.current);
      MoveCursorKeepsInv(t, Pending(t)[0]);
    }
  }

  lemma AdvanceSplit(list: seq<Key>, cursor: Option<Key>)
    requires NoDup(list) && Behind(list, cursor) != []
    ensures var head := Behind(list, cursor)[0];
            && head in list && UpTo(list, Some(head)) == UpTo(list, cursor) + [head]
            && Behind(list, Some(head)) == Behind(list, cursor)[1..]
  {
    hide UpTo, Behind;
    SplitAtCursor(list, cursor);
    var d, p := UpTo(list, cursor), Behind(list, cursor);
    assert p == [p[0]] + p[1..];
    ConcatAssoc(d, [p[0]], p[1..]);
    CursorAt(d + [p[0]], p[1..]);
  }

  function CursorOf(prefix: seq<Key>): Option<Key> {
    if prefix == [] then None else Some(prefix[|prefix| - 1])
  }

  lemma CursorWithoutIs(d: seq<Key>, p: seq<Key>, key: Key)
    requires NoDup(d + p)
    ensures CursorWithout(d + p, CursorOf(d), key) == CursorOf(Without(d, key))
  {
    NoDupParts(d, p);
    var w := d + p;
    if CursorOf(d) == Some(key) {
      assert w[|d| - 1] == key;
      IndexOfUnique(w, |d| - 1);
      WithoutAt(d, |d| - 1);
      assert |d| > 1 ==> w[|d| - 2] == d[|d| - 2];
    } else if key in d {
      assert d[|d| - 1] != key;
    }
  }

  lemma EraseKeepsSplit(d: seq<Key>, p: seq<Key>, key: Key, ready: seq<Key>)
    requires NoDup(d + p) && NoDup(Without(d + p, key) + ready)
    ensures var c, w := CursorWithout(d + p, CursorOf(d), key), Without(d + p, key) + ready;
            UpTo(w, c) == Without(d, key) && Behind(w, c) == Without(p, key) + ready
  {
    CursorWithoutIs(d, p, key);
    WithoutConcat(d, p, key);
    var d', p' := Without(d, key), Without(p, key) + ready;
    assert Without(d + p, key) + ready == d' + p';
    if d' != [] {
      CursorAt(d', p');
    }
  }

  /** Erasing a key, the one under the cursor included, keeps the split of the root list: the dispensed
      prefix and the pending suffix each lose the key if they held it, and what becomes ready is appended
      to the pending suffix. */
  lemma RemovedCursor(t: Tree, key: Key)
    requires Inv(t) && key in t.keys
    ensures var u := Removed(t, key);
            && Dispensed(u) == Without(Dispensed(t), key)
            && Pending(u) == Without(Pending(t), key) + Sorted(Unblocked(t, key))
  {
    RemovedRoot(t, key);
    SplitAtCursor(t.root, t.current);
    UpToEndsInCursor(t.root, t.current);
    EraseKeepsSplit(Dispensed(t), Pending(t), key, Sorted(Unblocked(t, key)));
  }

  /** What a removal does to the keys, the root list and the pending suffix. */
  lemma RemoveEffect(t: Tree, key: Key)
    requires Inv(t) && key in t.keys
    ensures var u, freed := Removed(t, key), Sorted(Unblocked(t, key));
            && Inv(u) && NoDup(freed)
            && u.keys.Keys == t.keys.Keys - {key}
            && u.root == Without(t.root, key) + freed
            && Pending(u) == Without(Pending(t), key) + freed
            && Dispensed(u) == Without(Dispensed(t), key)
            && (forall k :: k in freed ==> k in t.keys && k !in t.root)
  {
    hide Inv, Pending, Dispensed, Without, Unblocked, NewParents;
    RemoveKeepsInv(t, key);
    RemovedCursor(t, key);
    UnblockedFacts(t, key);
    AscendingNoDup(Sorted(Unblocked(t, key)));
  }

  /** What an insertion does to the keys, the root list and the pending suffix. */
  lemma AddEffect(t: Tree, key: Key, value: nat, deps: seq<Obj>)
    requires Inv(t) && Addable(t, key, deps)
    ensures var u := Added(t, key, value, deps);
            var extra := if LastUsers(t.usedIn, deps) == {} then [key] else [];
            && Inv(u)
            && key !in t.keys && u.keys.Keys == t.keys.Keys + {key}
            && u.root == t.root + extra
            && Pending(u) == Pending(t) + extra
            && Dispensed(u) == Dispensed(t)
  {
    hide Inv, Pending, Dispensed, LastUsers;
    AddKeepsInv(t, key, value, deps);
    AddedCursor(t, key, value, deps);
  }
}
