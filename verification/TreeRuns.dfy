/**
Whole runs of the dependency tree: any mix of insertions, hand-outs and removals (src/NLinkedTree.cpp),
with a record of the order in which transactions became ready and were handed out.
*/
module TreeRuns {
  import opened Common
  import opened TreeModel

  datatype Op = OpAdd(key: Key, value: nat, deps: seq<Obj>) | OpNext | OpRemove(key: Key)

  /** `ready` and `handed` list the transactions in the order of becoming ready and of being handed out;
      `dropped` are those removed while ready but not handed out; `top` is the largest key ever used. */
  datatype Log = Log(tree: Tree, ready: seq<Key>, handed: seq<Key>, dropped: set<Key>, top: Key)

  const Start := Log(EmptyTree, [], [], {}, NULL_KEY)

  predicate Legal(s: Log, op: Op) {
    op.OpAdd? ==> s.top < op.key && NoDup(op.deps)
  }

  ghost function Step(s: Log, op: Op): Log {
    match op
    case OpAdd(key, value, deps) =>
      s.(tree := Added(s.tree, key, value, deps),
         ready := if LastUsers(s.tree.usedIn, deps) == {} then s.ready + [key] else s.ready,
         top := key)
    case OpNext =>
      if Pending(s.tree) == [] then s
      else s.(tree := Advanced(s.tree), handed := s.handed + [Pending(s.tree)[0]])
    case OpRemove(key) =>
      if key !in s.tree.keys then s
      else s.(tree := Removed(s.tree, key),
              ready := s.ready + Sorted(Unblocked(s.tree, key)),
              dropped := if key in Pending(s.tree) then s.dropped + {key} else s.dropped)
  }

  ghost predicate LegalRun(ops: seq<Op>) {
    ops != [] ==> LegalRun(ops[..|ops| - 1]) && Legal(Run(ops[..|ops| - 1]), ops[|ops| - 1])
  }

  ghost function Run(ops: seq<Op>): Log {
    if ops == [] then Start else Step(Run(ops[..|ops| - 1]), ops[|ops| - 1])
  }

  /** `s` without the members of `d`, in order. */
  function Kept(s: seq<Key>, d: set<Key>): seq<Key> {
    if s == [] then [] else
      Kept(s[..|s| - 1], d) + (if s[|s| - 1] in d then [] else [s[|s| - 1]])
  }

  /** The record agrees with the keys, the root list and the pending suffix of the tree. */
  ghost predicate LogInv(s: Log) {
    && s.handed + Pending(s.tree) == Kept(s.ready, s.dropped)
    && NoDup(s.ready)
    && (forall k :: k in s.ready ==> k <= s.top)
    && (forall k :: k in s.tree.keys ==> k <= s.top && (k in s.ready <==> k in s.tree.root))
    && (forall k :: k in s.dropped ==> k in s.ready && k !in s.tree.keys)
  }

  ghost predicate RunInv(s: Log) {
    Inv(s.tree) && LogInv(s)
  }

  lemma {:induction false} KeptMembers(s: seq<Key>, d: set<Key>)
    ensures forall k :: k in Kept(s, d) <==> k in s && k !in d
  {
    if s != [] {
      var n := |s| - 1;
      KeptMembers(s[..n], d);
      assert s == s[..n] + [s[n]];
    }
  }

  lemma {:induction false} KeptNoDup(s: seq<Key>, d: set<Key>)
    requires NoDup(s)
    ensures NoDup(Kept(s, d))
  {
    if s != [] {
      var n := |s| - 1;
      KeptNoDup(s[..n], d);
      KeptMembers(s[..n], d);
      var tail := if s[n] in d then [] else [s[n]];
      ConcatNoDup(Kept(s[..n], d), tail);
    }
  }

  lemma {:induction false} KeptAppend(s: seq<Key>, t: seq<Key>, d: set<Key>)
    requires forall k :: k in t ==> k !in d
    ensures Kept(s + t, d) == Kept(s, d) + t
  {
    if t == [] {
      assert s + t == s;
    } else {
      var n := |t| - 1;
      KeptAppend(s, t[..n], d);
      hide Kept;
      KeptSnoc(s + t[..n], t[n], d);
      assert t == t[..n] + [t[n]];
      ConcatAssoc(s, t[..n], [t[n]]);
      ConcatAssoc(Kept(s, d), t[..n], [t[n]]);
    }
  }

  lemma KeptSnoc(s: seq<Key>, k: Key, d: set<Key>)
    requires k !in d
    ensures Kept(s + [k], d) == Kept(s, d) + [k]
  {
    assert (s + [k])[..|s|] == s;
  }

  lemma {:induction false} KeptDrop(s: seq<Key>, d: set<Key>, k: Key)
    requires NoDup(s) && k !in d
    ensures Kept(s, d + {k}) == Without(Kept(s, d), k)
  {
    if s != [] {
      var n := |s| - 1;
      KeptDrop(s[..n], d, k);
      KeptNoDup(s, d);
      var tail := if s[n] in d then [] else [s[n]];
      WithoutConcat(Kept(s[..n], d), tail, k);
      assert Without(tail, k) == if s[n] in d + {k} then [] else [s[n]] by {
        if tail == [k] {
          WithoutAt(tail, 0);
        }
      }
    }
  }

  lemma AddKeepsLog(s: Log, u: Log, key: Key, extra: seq<Key>)
    requires LogInv(s) && s.top < key && (extra == [] || extra == [key])
    requires u.tree.keys.Keys == s.tree.keys.Keys + {key} && u.tree.root == s.tree.root + extra
    requires forall k :: k in s.tree.root ==> k in s.tree.keys
    requires Pending(u.tree) == Pending(s.tree) + extra
    requires u.ready == s.ready + extra && u.handed == s.handed && u.dropped == s.dropped && u.top == key
    ensures LogInv(u)
  {
    hide Pending, NoDup, Kept;
    KeptAppend(s.ready, extra, s.dropped);
    assert NoDup(extra) by { ShortNoDup(key); }
    ConcatNoDup(s.ready, extra);
    ConcatAssoc(s.handed, Pending(s.tree), extra);
  }

  lemma ShortNoDup(key: Key)
    ensures NoDup([key]) && NoDup<Key>([])
  {}

  lemma AddKeepsRunInv(s: Log, key: Key, value: nat, deps: seq<Obj>)
    requires RunInv(s) && s.top < key && NoDup(deps)
    ensures RunInv(Step(s, OpAdd(key, value, deps)))
  {
    hide Inv, Pending, Added, LastUsers;
    RootFacts(s.tree);
    AddEffect(s.tree, key, value, deps);
    var extra := if LastUsers(s.tree.usedIn, deps) == {} then [key] else [];
    AddKeepsLog(s, Step(s, OpAdd(key, value, deps)), key, extra);
  }

  lemma NextKeepsRunInv(s: Log)
    requires RunInv(s)
    ensures RunInv(Step(s, OpNext))
  {
    hide Inv;
    if Pending(s.tree) != [] {
      AdvancedCursor(s.tree);
      hide Pending, Kept;
      var p := Pending(s.tree);
      assert p == [p[0]] + p[1..];
      ConcatAssoc(s.handed, [p[0]], p[1..]);
    }
  }

  lemma RemovePending(handed: seq<Key>, p: seq<Key>, ready: seq<Key>, dropped: set<Key>, key: Key)
    requires handed + p == Kept(ready, dropped) && NoDup(ready) && key !in dropped
    ensures key in p ==> handed + Without(p, key) == Kept(ready, dropped + {key})
    ensures key !in p ==> handed + Without(p, key) == Kept(ready, dropped)
  {
    if key in p {
      KeptDrop(ready, dropped, key);
      KeptNoDup(ready, dropped);
      NoDupParts(handed, p);
      WithoutConcat(handed, p, key);
      assert Without(handed, key) == handed;
    }
  }

  lemma RemoveKeepsMembers(s: Log, u: Log, key: Key, freed: seq<Key>)
    requires LogInv(s) && NoDup(s.tree.root)
    requires u.tree.keys.Keys == s.tree.keys.Keys - {key} && u.tree.root == Without(s.tree.root, key) + freed
    requires forall k :: k in freed ==> k in s.tree.keys && k !in s.tree.root
    requires u.ready == s.ready + freed && u.top == s.top
    ensures forall k :: k in u.ready ==> k <= u.top
    ensures forall k :: k in u.tree.keys ==> k <= u.top && (k in u.ready <==> k in u.tree.root)
  {
    hide Kept;
    WithoutMembers(s.tree.root, key);
  }

  lemma RemoveKeepsLog(s: Log, u: Log, key: Key, freed: seq<Key>)
    requires LogInv(s) && key in s.tree.keys && NoDup(freed) && NoDup(s.tree.root)
    requires u.tree.keys.Keys == s.tree.keys.Keys - {key} && u.tree.root == Without(s.tree.root, key) + freed
    requires forall k :: k in freed ==> k in s.tree.keys && k !in s.tree.root
    requires forall k :: k in Pending(s.tree) ==> k in s.tree.root
    requires Pending(u.tree) == Without(Pending(s.tree), key) + freed
    requires u.ready == s.ready + freed && u.handed == s.handed && u.top == s.top
    requires u.dropped == if key in Pending(s.tree) then s.dropped + {key} else s.dropped
    ensures LogInv(u)
  {
    hide Kept, Pending, Without;
    RemovePending(s.handed, Pending(s.tree), s.ready, s.dropped, key);
    KeptAppend(s.ready, freed, u.dropped);
    ConcatNoDup(s.ready, freed);
    RemoveKeepsMembers(s, u, key, freed);
    assert s.handed + (Without(Pending(s.tree), key) + freed) == s.handed + Without(Pending(s.tree), key) + freed;
  }

  lemma RemoveKeepsRunInv(s: Log, key: Key)
    requires RunInv(s) && key in s.tree.keys
    ensures RunInv(Step(s, OpRemove(key)))
  {
    var t := s.tree;
    var freed := Sorted(Unblocked(t, key));
    hide Inv, LogInv, Pending, Without, Unblocked, Removed;
    RootFacts(t);
    RemoveEffect(t, key);
    RemoveKeepsLog(s, Step(s, OpRemove(key)), key, freed);
  }

  lemma {:induction false} RunKeepsInv(ops: seq<Op>)
    requires LegalRun(ops)
    ensures RunInv(Run(ops))
  {
    if ops == [] {
      assert Kept([], {}) == [];
    } else {
      var s, op := Run(ops[..|ops| - 1]), ops[|ops| - 1];
      RunKeepsInv(ops[..|ops| - 1]);
      match op
      case OpAdd(key, value, deps) => AddKeepsRunInv(s, key, value, deps);
      case OpNext => NextKeepsRunInv(s);
      case OpRemove(key) =>
        if key in s.tree.keys {
          RemoveKeepsRunInv(s, key);
        }
    }
  }

  /** In every run, what was handed out followed by what is pending is the list of transactions in the order
      in which they became ready, minus those withdrawn before their turn.  Hence the hand-out is FIFO, no
      transaction is skipped, and none is handed out twice. */
  lemma HandOutFollowsReadiness(ops: seq<Op>)
    requires LegalRun(ops)
    ensures var s := Run(ops);
            && s.handed + Pending(s.tree) == Kept(s.ready, s.dropped)
            && NoDup(s.handed + Pending(s.tree))
            && (s.tree.keys != map[] ==> s.tree.root != [])
  {
    var s := Run(ops);
    RunKeepsInv(ops);
    KeptNoDup(s.ready, s.dropped);
    if s.tree.keys != map[] {
      NonEmptyHasReady(s.tree);
    }
  }
}
