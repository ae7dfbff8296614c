/**
What transactions do to the shared objects.  A transaction is a finite list of micro-steps; each micro-step
reads the current values of the declared objects, may change them arbitrarily, and keeps a private state.
That the effects stay inside the declared objects is the only thing assumed about a transaction
(src/TransactionScope.cpp, getRelatedObjects and executeTransaction).
*/
module Effects {
  import opened Common
  import opened TreeModel

  /** Structured data of any shape. */
  datatype Value = Atom(n: int) | Record(fields: seq<Value>)

  const INITIAL := Atom(0)

  type MicroStep = (Value, seq<Value>) -> (Value, seq<Value>)

  datatype Tx = Tx(id: Key, deps: seq<Obj>, steps: seq<MicroStep>)

  type Store = map<Obj, Value>

  function Read(st: Store, o: Obj): Value {
    if o in st then st[o] else INITIAL
  }

  function ReadAll(st: Store, deps: seq<Obj>): seq<Value> {
    seq(|deps|, i requires 0 <= i < |deps| => Read(st, deps[i]))
  }

  function WriteAll(st: Store, deps: seq<Obj>, vals: seq<Value>): Store {
    st + map o | o in deps :: var i := IndexOf(deps, o); if i < |vals| then vals[i] else Read(st, o)
  }

  function DoStep(tx: Tx, i: nat, local: Value, st: Store): (Value, Store)
    requires i < |tx.steps|
  {
    var (next, vals) := tx.steps[i](local, ReadAll(st, tx.deps));
    (next, WriteAll(st, tx.deps, vals))
  }

  /** Private state and store after the first `n` micro-steps of `tx` from `st`. */
  function Partial(tx: Tx, n: nat, st: Store): (Value, Store)
    requires n <= |tx.steps|
  {
    if n == 0 then (INITIAL, st) else
      var (local, now) := Partial(tx, n - 1, st);
      DoStep(tx, n - 1, local, now)
  }

  /** The reference: all transactions one by one, each to its end. */
  function Serial(st: Store, hist: seq<Tx>): Store {
    if hist == [] then st else
      var last := hist[|hist| - 1];
      Partial(last, |last.steps|, Serial(st, hist[..|hist| - 1])).1
  }

  ghost predicate AgreeOn(a: Store, b: Store, deps: seq<Obj>) {
    forall o :: o in deps ==> Read(a, o) == Read(b, o)
  }

  lemma DoStepFrame(tx: Tx, i: nat, local: Value, st: Store, o: Obj)
    requires i < |tx.steps| && o !in tx.deps
    ensures Read(DoStep(tx, i, local, st).1, o) == Read(st, o)
  {}

  lemma DoStepAgree(tx: Tx, i: nat, local: Value, a: Store, b: Store)
    requires i < |tx.steps| && AgreeOn(a, b, tx.deps)
    ensures DoStep(tx, i, local, a).0 == DoStep(tx, i, local, b).0
    ensures AgreeOn(DoStep(tx, i, local, a).1, DoStep(tx, i, local, b).1, tx.deps)
  {
    assert ReadAll(a, tx.deps) == ReadAll(b, tx.deps);
  }

  lemma {:induction false} PartialFrame(tx: Tx, n: nat, st: Store, o: Obj)
    requires n <= |tx.steps| && o !in tx.deps
    ensures Read(Partial(tx, n, st).1, o) == Read(st, o)
  {
    hide DoStep, Read;
    if n > 0 {
      PartialFrame(tx, n - 1, st, o);
      var (local, now) := Partial(tx, n - 1, st);
      DoStepFrame(tx, n - 1, local, now, o);
    }
  }

  /** One more micro-step of `tx` on any store that agrees with its serial progress stays in agreement. */
  lemma PartialStep(tx: Tx, n: nat, base: Store, local: Value, st: Store)
    requires n < |tx.steps|
    requires local == Partial(tx, n, base).0 && AgreeOn(st, Partial(tx, n, base).1, tx.deps)
    ensures DoStep(tx, n, local, st).0 == Partial(tx, n + 1, base).0
    ensures AgreeOn(DoStep(tx, n, local, st).1, Partial(tx, n + 1, base).1, tx.deps)
  {
    DoStepAgree(tx, n, local, st, Partial(tx, n, base).1);
  }

  /** Transactions that do not declare `o` leave it alone. */
  lemma {:induction false} SerialFrame(st: Store, hist: seq<Tx>, lo: nat, hi: nat, o: Obj)
    requires lo <= hi <= |hist|
    requires forall j :: lo <= j < hi ==> o !in hist[j].deps
    ensures Read(Serial(st, hist[..hi]), o) == Read(Serial(st, hist[..lo]), o)
  {
    if lo < hi {
      SerialFrame(st, hist, lo, hi - 1, o);
      var h := hist[..hi];
      assert h[..hi - 1] == hist[..hi - 1];
      PartialFrame(h[hi - 1], |h[hi - 1].steps|, Serial(st, hist[..hi - 1]), o);
    }
  }

  lemma SerialNext(st: Store, hist: seq<Tx>, j: nat)
    requires j < |hist|
    ensures Serial(st, hist[..j + 1]) == Partial(hist[j], |hist[j].steps|, Serial(st, hist[..j])).1
  {
    var h := hist[..j + 1];
    assert h[..j] == hist[..j];
  }
}
