/**
The transaction scope of src/TransactionScope.cpp: a list of operations, most of them allocated from a small arena
inside the scope, with stages that can be taken back, and the list of objects that a transaction declares to the
scheduler.
*/
module TransactionScopeClass {
  import opened Common

  const ARENA_SIZE: nat := 2048
  const DEPENDANT_OBJECT_LIMIT: nat := 10

  // ---------------------------------------------------------------- the arena

  datatype Region = Region(start: nat, size: nat)

  datatype Request = Request(size: nat, align: nat)

  function Padding(offset: nat, align: nat): nat
    requires align > 0
  {
    (align - offset % align) % align
  }

  lemma PaddingAligns(offset: nat, align: nat)
    requires align > 0
    ensures (offset + Padding(offset, align)) % align == 0
  {
    var r, q := offset % align, offset / align;
    assert offset == align * q + r;
    if r > 0 {
      assert Padding(offset, align) == align - r;
      assert offset + Padding(offset, align) == align * (q + 1);
      ModIs(offset + Padding(offset, align), align, q + 1, 0);
    } else {
      assert Padding(offset, align) == align % align == 0;
    }
  }

  /** The outcome of a request at a given bump offset; None means that the caller goes to the heap. */
  function Placed(offset: nat, r: Request): Option<Region>
    requires r.align > 0
  {
    var start := offset + Padding(offset, r.align);
    if start + r.size > ARENA_SIZE then None else Some(Region(start, r.size))
  }

  /** A place for the request: aligned, behind what is taken, and inside the arena. */
  predicate FitsAt(offset: nat, r: Request, start: nat)
    requires r.align > 0
  {
    offset <= start && start % r.align == 0 && start + r.size <= ARENA_SIZE
  }

  /** A request gets the first place that fits; it goes to the heap only if none does. */
  lemma PlacedFirst(offset: nat, r: Request)
    requires r.align > 0
    ensures var p := Placed(offset, r);
            && (p.Some? ==> FitsAt(offset, r, p.value.start) && p.value.size == r.size)
            && forall s :: FitsAt(offset, r, s) ==> p.Some? && p.value.start <= s
  {
    PaddingAligns(offset, r.align);
    forall s | FitsAt(offset, r, s)
      ensures offset + Padding(offset, r.align) <= s
    {
      PaddingIsLeast(offset, r.align, s);
    }
  }

  lemma PaddingIsLeast(offset: nat, align: nat, s: nat)
    requires align > 0 && offset <= s && s % align == 0
    ensures offset + Padding(offset, align) <= s
  {
    if offset % align > 0 {
      PaddingIs(offset, align);
      NextMultiple(align, offset / align, s / align, offset % align);
    }
  }

  lemma PaddingIs(offset: nat, align: nat)
    requires align > 0 && offset % align > 0
    ensures Padding(offset, align) == align - offset % align
  {}

  lemma NextMultiple(a: nat, q: nat, m: nat, r: nat)
    requires a * q + r <= a * m && r > 0
    ensures a * q + a <= a * m
  {
    if m <= q {
      Grows(a, m, q);
    } else {
      Grows(a, q + 1, m);
    }
  }

  lemma Grows(a: nat, x: nat, y: nat)
    requires x <= y
    ensures a * x <= a * y
  {}

  function Bumped(offset: nat, r: Request): nat
    requires r.align > 0
  {
    var p := Placed(offset, r);
    if p.None? then offset else p.value.start + p.value.size
  }

  /** The outcomes of a run of requests between two resets. */
  function Allocations(offset: nat, rs: seq<Request>): (ps: seq<Option<Region>>)
    requires forall i :: 0 <= i < |rs| ==> rs[i].align > 0
    ensures |ps| == |rs|
    decreases |rs|
  {
    if rs == [] then [] else [Placed(offset, rs[0])] + Allocations(Bumped(offset, rs[0]), rs[1..])
  }

  /** Between resets all allocations are aligned, inside the arena, and pairwise disjoint. */
  lemma {:induction false} AllocationsAreApart(offset: nat, rs: seq<Request>)
    requires forall i :: 0 <= i < |rs| ==> rs[i].align > 0
    ensures var ps := Allocations(offset, rs);
            && (forall i :: 0 <= i < |ps| && ps[i].Some? ==>
                  && offset <= ps[i].value.start && ps[i].value.start % rs[i].align == 0
                  && ps[i].value.start + rs[i].size <= ARENA_SIZE && ps[i].value.size == rs[i].size)
            && (forall i, j :: 0 <= i < j < |ps| && ps[i].Some? && ps[j].Some? ==>
                  ps[i].value.start + ps[i].value.size <= ps[j].value.start)
    decreases |rs|
  {
    if rs != [] {
      hide Allocations, Placed, Bumped;
      var next := Bumped(offset, rs[0]);
      PlacedWell(offset, rs[0]);
      AllocationsAreApart(next, rs[1..]);
      AllocationsTail(offset, rs);
    }
  }

  lemma PlacedWell(offset: nat, r: Request)
    requires r.align > 0
    ensures var p, next := Placed(offset, r), Bumped(offset, r);
            && offset <= next
            && (p.Some? ==>
                  && offset <= p.value.start && p.value.start % r.align == 0 && p.value.size == r.size
                  && p.value.start + r.size <= ARENA_SIZE && next == p.value.start + r.size)
  {
    hide Padding;
    PaddingAligns(offset, r.align);
  }

  lemma AllocationsTail(offset: nat, rs: seq<Request>)
    requires rs != [] && forall i :: 0 <= i < |rs| ==> rs[i].align > 0
    ensures var ps, rest := Allocations(offset, rs), Allocations(Bumped(offset, rs[0]), rs[1..]);
            && ps[0] == Placed(offset, rs[0])
            && forall i :: 0 < i < |ps| ==> ps[i] == rest[i - 1] && rs[i] == rs[1..][i - 1]
  {
    hide Placed, Bumped;
  }

  // ---------------------------------------------------------------- operations and stages

  /** Ids are ranks and 0 is invalid. */
  datatype Operation = Operation(address: nat, subject: nat, related: nat)

  /** `base` is the address of the arena, `freed` are the blocks given back to the heap so far, in order. */
  datatype Scope = Scope(base: nat, ops: seq<Operation>, bounds: seq<nat>, freed: seq<nat>)

  /** isFromArena. */
  predicate FromArena(base: nat, p: nat) {
    base <= p < base + ARENA_SIZE
  }

  /** The blocks of some operations that are not in the arena. */
  function Blocks(base: nat, ops: seq<Operation>): seq<nat> {
    if ops == [] then []
    else
      var p := ops[|ops| - 1].address;
      Blocks(base, ops[..|ops| - 1]) + if FromArena(base, p) then [] else [p]
  }

  /** Drop the boundaries at the end that are not below `n`. */
  function Trimmed(bounds: seq<nat>, n: nat): seq<nat> {
    if bounds != [] && bounds[|bounds| - 1] >= n then Trimmed(bounds[..|bounds| - 1], n) else bounds
  }

  function Add(s: Scope, op: Operation): Scope {
    s.(ops := s.ops + [op])
  }

  function RemoveLast(s: Scope): Scope {
    if s.ops == [] then s
    else
      var n := |s.ops| - 1;
      Scope(s.base, s.ops[..n], Trimmed(s.bounds, n), s.freed + Blocks(s.base, [s.ops[n]]))
  }

  function StartStage(s: Scope): Scope {
    s.(bounds := s.bounds + [|s.ops|])
  }

  predicate HasStage(s: Scope, k: nat) {
    k < |s.bounds|
  }

  function RemoveStage(s: Scope, k: nat): Scope {
    if HasStage(s, k) && s.bounds[k] <= |s.ops| then
      Scope(s.base, s.ops[..s.bounds[k]], s.bounds[..k], s.freed + Blocks(s.base, s.ops[s.bounds[k]..]))
    else s
  }

  function Reset(s: Scope): Scope {
    Scope(s.base, [], [], s.freed + Blocks(s.base, s.ops))
  }

  /** Boundaries are sorted and within the operations. */
  predicate BoundsOk(s: Scope) {
    && (forall i :: 0 <= i < |s.bounds| ==> s.bounds[i] <= |s.ops|)
    && (forall i, j :: 0 <= i < j < |s.bounds| ==> s.bounds[i] <= s.bounds[j])
  }

  // ---------------------------------------------------------------- the class

  class TransactionScope {
    const arenaBuffer: nat
    var operations: seq<Operation>
    var stageBoundaries: seq<nat>
    var arenaOffset: nat
    var freed: seq<nat>

    function View(): Scope
      reads this
    {
      Scope(arenaBuffer, operations, stageBoundaries, freed)
    }

    constructor (address: nat)
      ensures View() == Scope(address, [], [], []) && arenaOffset == 0
    {
      arenaBuffer := address;
      operations, stageBoundaries, arenaOffset, freed := [], [], 0, [];
    }

    method ArenaAllocate(size: nat, align: nat) returns (p: Option<nat>)
      requires align > 0
      modifies `arenaOffset
      ensures var r := Placed(old(arenaOffset), Request(size, align));
              p == if r.None? then None else Some(arenaBuffer + r.value.start)
      ensures forall s :: FitsAt(old(arenaOffset), Request(size, align), s) ==> p.Some? && p.value <= arenaBuffer + s
      ensures p.Some? ==>
                arenaBuffer <= p.value && FitsAt(old(arenaOffset), Request(size, align), p.value - arenaBuffer)
      ensures arenaOffset == Bumped(old(arenaOffset), Request(size, align))
    {
      PlacedFirst(arenaOffset, Request(size, align));
      var padding := (align - arenaOffset % align) % align;
      var newOffset := arenaOffset + padding + size;
      if newOffset > ARENA_SIZE {
        return None;
      }
      p := Some(arenaBuffer + arenaOffset + padding);
      arenaOffset := newOffset;
    }

    /** Operation::operator new in the active scope: the arena, or the block that the heap returns.  isFromArena tells
        the two apart later, since an operation has at least one byte and the heap does not return arena memory. */
    method NewOperation(size: nat, align: nat, heap: nat) returns (p: nat)
      requires 0 < size && 0 < align && !FromArena(arenaBuffer, heap)
      modifies `arenaOffset
      ensures p == Obtained(arenaBuffer, old(arenaOffset), Request(size, align), heap)
      ensures FromArena(arenaBuffer, p) <==> Placed(old(arenaOffset), Request(size, align)).Some?
      ensures arenaOffset == Bumped(old(arenaOffset), Request(size, align))
    {
      if Placed(arenaOffset, Request(size, align)).Some? {
        ArenaTestIff(arenaBuffer, arenaOffset, Request(size, align));
      }
      var mem := ArenaAllocate(size, align);
      p := if mem.Some? then mem.value else heap;
    }

    /** Only heap memory is given back here; the arena is given back as a whole. */
    method DestroyOperation(op: Operation)
      modifies `freed
      ensures freed == old(freed) + Blocks(arenaBuffer, [op])
    {
      assert [op][..0] == [];
      if !FromArena(arenaBuffer, op.address) {
        freed := freed + [op.address];
      }
    }

    method DestroyFrom(start: nat)
      requires start <= |operations|
      modifies `freed
      ensures freed == old(freed) + Blocks(arenaBuffer, operations[start..])
    {
      var i := start;
      while i < |operations|
        invariant start <= i <= |operations|
        invariant freed == old(freed) + Blocks(arenaBuffer, operations[start..i])
      {
        DestroyOperation(operations[i]);
        BlocksNext(arenaBuffer, operations[start..i], operations[i]);
        assert operations[start..i] + [operations[i]] == operations[start..i + 1];
        i := i + 1;
      }
      assert operations[start..i] == operations[start..];
    }

    method AddOperation(op: Operation)
      modifies `operations
      ensures View() == Add(old(View()), op)
    {
      operations := operations + [op];
    }

    method RemoveLastOperation()
      modifies this
      ensures View() == RemoveLast(old(View())) && arenaOffset == old(arenaOffset)
    {
      if operations == [] {
        return;
      }
      DestroyOperation(operations[|operations| - 1]);
      operations := operations[..|operations| - 1];
      ghost var start := stageBoundaries;
      while stageBoundaries != [] && stageBoundaries[|stageBoundaries| - 1] >= |operations|
        invariant Trimmed(stageBoundaries, |operations|) == Trimmed(start, |operations|)
        invariant freed == old(freed) + Blocks(arenaBuffer, [old(operations)[|old(operations)| - 1]])
        invariant operations == old(operations)[..|old(operations)| - 1] && arenaOffset == old(arenaOffset)
        decreases |stageBoundaries|
      {
        stageBoundaries := stageBoundaries[..|stageBoundaries| - 1];
      }
    }

    method StartNewStage() returns (stageId: nat)
      modifies `stageBoundaries
      ensures View() == StartStage(old(View())) && stageId == |old(stageBoundaries)|
    {
      stageId := |stageBoundaries|;
      stageBoundaries := stageBoundaries + [|operations|];
    }

    /** Fails, and changes nothing, exactly if there is no such stage. */
    method RemoveStageFrom(stageId: nat) returns (ok: bool)
      requires BoundsOk(View())
      modifies this
      ensures ok <==> HasStage(old(View()), stageId)
      ensures View() == RemoveStage(old(View()), stageId) && arenaOffset == old(arenaOffset)
    {
      if stageId >= |stageBoundaries| {
        return false;
      }
      var stageStart := stageBoundaries[stageId];
      DestroyFrom(stageStart);
      operations := operations[..stageStart];
      stageBoundaries := stageBoundaries[..stageId];
      return true;
    }

    method ResetScope()
      modifies this
      ensures View() == Reset(old(View())) && arenaOffset == 0
    {
      DestroyFrom(0);
      assert operations[0..] == operations;
      operations, stageBoundaries, arenaOffset := [], [], 0;
    }
  }

  lemma BlocksNext(base: nat, ops: seq<Operation>, op: Operation)
    ensures Blocks(base, ops + [op]) == Blocks(base, ops) + Blocks(base, [op])
  {
    assert (ops + [op])[..|ops|] == ops;
    assert [op][..0] == [];
  }

  // ---------------------------------------------------------------- savepoints

  datatype Command = DoAdd(op: Operation) | DoRemoveLast | DoStart | DoRemove(stage: nat)

  function Do(s: Scope, c: Command): Scope {
    match c
    case DoAdd(op) => Add(s, op)
    case DoRemoveLast => RemoveLast(s)
    case DoStart => StartStage(s)
    case DoRemove(k) => RemoveStage(s, k)
  }

  function DoAll(s: Scope, cs: seq<Command>): Scope
    decreases |cs|
  {
    if cs == [] then s else DoAll(Do(s, cs[0]), cs[1..])
  }

  lemma {:induction false} TrimmedIs(bounds: seq<nat>, n: nat)
    ensures var t := Trimmed(bounds, n); t <= bounds && (t != [] ==> t[|t| - 1] < n)
    ensures var t := Trimmed(bounds, n); forall i :: |t| <= i < |bounds| ==> bounds[i] >= n
  {
    if bounds != [] && bounds[|bounds| - 1] >= n {
      TrimmedIs(bounds[..|bounds| - 1], n);
    }
  }

  lemma DoKeepsBounds(s: Scope, c: Command)
    requires BoundsOk(s)
    ensures BoundsOk(Do(s, c))
  {
    if c.DoRemoveLast? && s.ops != [] {
      var n := |s.ops| - 1;
      TrimmedIs(s.bounds, n);
      var t := Trimmed(s.bounds, n);
      assert forall i :: 0 <= i < |t| ==> t[i] == s.bounds[i] && t[i] <= t[|t| - 1];
    }
  }

  /** The commands stay inside stage `id`: they remove only later stages, and never the stage's first operation. */
  predicate Inside(s: Scope, id: nat, base: nat, cs: seq<Command>)
    decreases |cs|
  {
    cs == [] ||
    (&& (cs[0].DoRemove? ==> cs[0].stage > id)
     && (cs[0].DoRemoveLast? ==> |s.ops| > base + 1)
     && Inside(Do(s, cs[0]), id, base, cs[1..]))
  }

  /** `s` has grown out of `s0` since stage |s0.bounds| was started in it. */
  predicate GrewFrom(s: Scope, s0: Scope) {
    && BoundsOk(s) && s0.ops <= s.ops
    && |s.bounds| > |s0.bounds| && s0.bounds <= s.bounds && s.bounds[|s0.bounds|] == |s0.ops|
  }

  lemma DoKeepsGrowth(s: Scope, s0: Scope, c: Command)
    requires GrewFrom(s, s0) && Inside(s, |s0.bounds|, |s0.ops|, [c])
    ensures GrewFrom(Do(s, c), s0)
  {
    DoKeepsBounds(s, c);
    var id := |s0.bounds|;
    if c.DoRemoveLast? {
      TrimmedIs(s.bounds, |s.ops| - 1);
      assert s.bounds[id] < |s.ops| - 1;
    } else if c.DoRemove? && HasStage(s, c.stage) {
      assert s.bounds[id] <= s.bounds[c.stage];
    }
  }

  lemma {:induction false} DoAllKeepsGrowth(s: Scope, s0: Scope, cs: seq<Command>)
    requires GrewFrom(s, s0) && Inside(s, |s0.bounds|, |s0.ops|, cs)
    ensures GrewFrom(DoAll(s, cs), s0)
    decreases |cs|
  {
    if cs != [] {
      assert Inside(Do(s, cs[0]), |s0.bounds|, |s0.ops|, []);
      DoKeepsGrowth(s, s0, cs[0]);
      hide Do;
      DoAllKeepsGrowth(Do(s, cs[0]), s0, cs[1..]);
    }
  }

  /** removeStage takes the scope back to where it was when startNewStage returned the stage, after any additions,
      removals and nested stages inside it. */
  lemma RemoveStageRestores(s0: Scope, cs: seq<Command>)
    requires BoundsOk(s0) && Inside(StartStage(s0), |s0.bounds|, |s0.ops|, cs)
    ensures var s := DoAll(StartStage(s0), cs); var r := RemoveStage(s, |s0.bounds|);
            HasStage(s, |s0.bounds|) && r.ops == s0.ops && r.bounds == s0.bounds
  {
    DoAllKeepsGrowth(StartStage(s0), s0, cs);
  }

  /** Removing the first operation of a stage also removes the stage, so that it cannot be removed any more; a stage
      survives the removal of an operation exactly if more than one operation was added after it. */
  lemma StageSurvivesIff(s: Scope, s0: Scope)
    requires GrewFrom(s, s0) && s.ops != []
    ensures HasStage(RemoveLast(s), |s0.bounds|) <==> |s.ops| > |s0.ops| + 1
  {
    var n := |s.ops| - 1;
    TrimmedIs(s.bounds, n);
    var t := Trimmed(s.bounds, n);
    if |t| > |s0.bounds| {
      assert t[|s0.bounds|] == |s0.ops| && t[|s0.bounds|] <= t[|t| - 1];
    }
  }

  // ---------------------------------------------------------------- heap operations are freed once

  function Added(cs: seq<Command>): seq<Operation> {
    if cs == [] then [] else (if cs[0].DoAdd? then [cs[0].op] else []) + Added(cs[1..])
  }

  lemma {:induction false} BlocksConcat(base: nat, a: seq<Operation>, b: seq<Operation>)
    ensures Blocks(base, a + b) == Blocks(base, a) + Blocks(base, b)
    decreases |b|
  {
    if b == [] {
      assert a + b == a;
    } else {
      var n := |b| - 1;
      BlocksConcat(base, a, b[..n]);
      assert (a + b)[..|a + b| - 1] == a + b[..n];
    }
  }

  /** Freed and still allocated blocks together. */
  function Accounted(s: Scope): multiset<nat> {
    multiset(s.freed) + multiset(Blocks(s.base, s.ops))
  }

  lemma CutAccounts(s: Scope, n: nat, bounds: seq<nat>)
    requires n <= |s.ops|
    ensures Accounted(Scope(s.base, s.ops[..n], bounds, s.freed + Blocks(s.base, s.ops[n..]))) == Accounted(s)
  {
    hide Blocks;
    SplitAt(s.ops, n);
    BlocksConcat(s.base, s.ops[..n], s.ops[n..]);
  }

  lemma DoAccounts(s: Scope, c: Command)
    ensures Accounted(Do(s, c)) == Accounted(s) + multiset(if c.DoAdd? then Blocks(s.base, [c.op]) else [])
  {
    hide Blocks, Trimmed;
    match c
    case DoAdd(op) => BlocksConcat(s.base, s.ops, [op]);
    case DoRemoveLast =>
      if s.ops != [] {
        var n := |s.ops| - 1;
        assert s.ops[n..] == [s.ops[n]];
        CutAccounts(s, n, Trimmed(s.bounds, n));
      }
    case DoStart =>
    case DoRemove(k) =>
      if HasStage(s, k) && s.bounds[k] <= |s.ops| {
        CutAccounts(s, s.bounds[k], s.bounds[..k]);
      }
  }

  lemma {:induction false} RunAccounts(s: Scope, cs: seq<Command>)
    ensures Accounted(DoAll(s, cs)) == Accounted(s) + multiset(Blocks(s.base, Added(cs)))
    ensures DoAll(s, cs).base == s.base
    decreases |cs|
  {
    hide Do, Accounted;
    if cs != [] {
      DoAccounts(s, cs[0]);
      SameArena(s, cs[0]);
      RunAccounts(Do(s, cs[0]), cs[1..]);
      if cs[0].DoAdd? {
        BlocksConcat(s.base, [cs[0].op], Added(cs[1..]));
      } else {
        assert [] + Added(cs[1..]) == Added(cs[1..]);
      }
    }
  }

  lemma SameArena(s: Scope, c: Command)
    ensures Do(s, c).base == s.base
  {}

  /** From a fresh scope to its reset, every operation that was added and is not in the arena is freed exactly once, and
      nothing else. */
  lemma ResetFreesAllOnce(base: nat, cs: seq<Command>)
    ensures multiset(Reset(DoAll(Scope(base, [], [], []), cs)).freed) == multiset(Blocks(base, Added(cs)))
  {
    var s0 := Scope(base, [], [], []);
    RunAccounts(s0, cs);
    assert Accounted(s0) == multiset{};
  }

  // ---------------------------------------------------------------- addresses

  /** The address that an allocation yields. */
  function Obtained(base: nat, offset: nat, r: Request, heap: nat): nat
    requires r.align > 0
  {
    var p := Placed(offset, r);
    if p.Some? then base + p.value.start else heap
  }

  /** The test by address recognises what the arena gave out, except a request for nothing in a full arena. */
  lemma ArenaTestIff(base: nat, offset: nat, r: Request)
    requires r.align > 0 && Placed(offset, r).Some?
    ensures FromArena(base, base + Placed(offset, r).value.start) <==>
            !(r.size == 0 && Placed(offset, r).value.start == ARENA_SIZE)
  {}

  /** Operations, each with the request it was allocated with and the block the heap had for it. */
  datatype Birth = Birth(request: Request, heap: nat)

  predicate WellBorn(base: nat, bs: seq<Birth>) {
    forall i :: 0 <= i < |bs| ==>
      0 < bs[i].request.size && 0 < bs[i].request.align && !FromArena(base, bs[i].heap)
  }

  /** The operations have the addresses that these allocations yield, one after the other. */
  predicate BornAs(base: nat, offset: nat, ops: seq<Operation>, bs: seq<Birth>)
    requires WellBorn(base, bs)
    decreases |bs|
  {
    if bs == [] then ops == []
    else
      && ops != [] && ops[0].address == Obtained(base, offset, bs[0].request, bs[0].heap)
      && BornAs(base, Bumped(offset, bs[0].request), ops[1..], bs[1..])
  }

  /** The heap blocks of the allocations that do not fit the arena. */
  function Overflow(base: nat, offset: nat, bs: seq<Birth>): seq<nat>
    requires WellBorn(base, bs)
    decreases |bs|
  {
    if bs == [] then []
    else
      (if Placed(offset, bs[0].request).None? then [bs[0].heap] else []) +
      Overflow(base, Bumped(offset, bs[0].request), bs[1..])
  }

  lemma {:induction false} BlocksAreOverflow(base: nat, offset: nat, ops: seq<Operation>, bs: seq<Birth>)
    requires WellBorn(base, bs) && BornAs(base, offset, ops, bs)
    ensures Blocks(base, ops) == Overflow(base, offset, bs)
    decreases |bs|
  {
    hide Placed, Bumped;
    if bs != [] {
      BlocksAreOverflow(base, Bumped(offset, bs[0].request), ops[1..], bs[1..]);
      BlocksConcat(base, ops[..1], ops[1..]);
      assert ops == ops[..1] + ops[1..] && ops[..1] == [ops[0]] && [ops[0]][..0] == [];
      if Placed(offset, bs[0].request).Some? {
        ArenaTestIff(base, offset, bs[0].request);
      }
    }
  }

  /** Hence, whatever stages are taken back in between, exactly the operations that did not fit the arena are given back
      to the heap, each once, although only addresses are compared. */
  lemma ResetFreesOverflow(base: nat, cs: seq<Command>, bs: seq<Birth>)
    requires WellBorn(base, bs) && BornAs(base, 0, Added(cs), bs)
    ensures multiset(Reset(DoAll(Scope(base, [], [], []), cs)).freed) == multiset(Overflow(base, 0, bs))
  {
    ResetFreesAllOnce(base, cs);
    BlocksAreOverflow(base, 0, Added(cs), bs);
  }

  // ---------------------------------------------------------------- declared objects

  datatype ObjectKind = OrderObject | InstrumentObject

  datatype Declared = Declared(kind: ObjectKind, id: nat)

  /** The valid ids that an operation names. */
  function Named(op: Operation): set<nat> {
    {op.subject, op.related} - {0}
  }

  function Ids(ops: seq<Operation>): set<nat> {
    if ops == [] then {} else Ids(ops[..|ops| - 1]) + Named(ops[|ops| - 1])
  }

  predicate DistinctIds(list: seq<Declared>) {
    forall i, j :: 0 <= i < j < |list| ==> list[i].id != list[j].id
  }

  function IdSet(list: seq<Declared>): set<nat> {
    set i | 0 <= i < |list| :: list[i].id
  }

  lemma {:induction false} IdSetSize(list: seq<Declared>)
    requires DistinctIds(list)
    ensures |IdSet(list)| == |list|
  {
    if list != [] {
      var n := |list| - 1;
      IdSetSize(list[..n]);
      assert IdSet(list) == IdSet(list[..n]) + {list[n].id};
    }
  }

  // ---------------------------------------------------------------- and their kinds

  predicate MentionedAt(ops: seq<Operation>, k: nat, d: Declared)
    requires k < |ops|
  {
    d.id != 0 && (d == Declared(OrderObject, ops[k].subject) || d == Declared(InstrumentObject, ops[k].related))
  }

  ghost predicate Mentioned(ops: seq<Operation>, d: Declared) {
    exists k: nat :: k < |ops| && MentionedAt(ops, k, d)
  }

  /** The id is named for the first time, the object of an operation before its instrument. */
  predicate FirstAt(ops: seq<Operation>, k: nat, d: Declared)
    requires k < |ops|
  {
    && MentionedAt(ops, k, d) && d.id !in Ids(ops[..k])
    && (d.kind.InstrumentObject? ==> d.id != ops[k].subject)
  }

  ghost predicate FirstMention(ops: seq<Operation>, d: Declared) {
    exists k: nat :: k < |ops| && FirstAt(ops, k, d)
  }

  lemma FirstMentionNext(ops: seq<Operation>, k: nat, d: Declared)
    requires k < |ops|
    ensures FirstMention(ops[..k + 1], d) <==> FirstMention(ops[..k], d) || FirstAt(ops, k, d)
  {
    hide Ids;
    var a, b := ops[..k], ops[..k + 1];
    assert forall j: nat :: j <= k ==> b[..j] == ops[..j];
    assert forall j: nat :: j < k ==> a[..j] == ops[..j];
    assert forall j: nat :: j <= k ==> (FirstAt(b, j, d) <==> FirstAt(ops, j, d));
    assert forall j: nat :: j < k ==> (FirstAt(a, j, d) <==> FirstAt(ops, j, d));
  }

  lemma {:induction false} IdsAreMentioned(ops: seq<Operation>, id: nat)
    ensures id in Ids(ops) <==> exists k: nat :: k < |ops| && id in Named(ops[k])
  {
    hide Named;
    if ops != [] {
      var n := |ops| - 1;
      IdsAreMentioned(ops[..n], id);
      assert forall k: nat :: k < n ==> ops[..n][k] == ops[k];
    }
  }

  /** Every named id has a first mention, and only one. */
  lemma {:induction false} FirstExists(ops: seq<Operation>, id: nat)
    ensures id in Ids(ops) ==> exists d: Declared :: d.id == id && FirstMention(ops, d)
    decreases |ops|
  {
    if id in Ids(ops) {
      var n := |ops| - 1;
      FirstExists(ops[..n], id);
      assert ops[..n + 1] == ops;
      if id in Ids(ops[..n]) {
        var d: Declared :| d.id == id && FirstMention(ops[..n], d);
        FirstMentionNext(ops, n, d);
      } else {
        var d := if ops[n].subject == id then Declared(OrderObject, id) else Declared(InstrumentObject, id);
        assert FirstAt(ops, n, d);
        assert d.id == id && FirstMention(ops, d);
      }
    }
  }

  lemma FirstIsUnique(ops: seq<Operation>, d: Declared, e: Declared)
    requires FirstMention(ops, d) && FirstMention(ops, e) && d.id == e.id
    ensures d == e
  {
    hide Ids;
    var j: nat :| j < |ops| && FirstAt(ops, j, d);
    var k: nat :| k < |ops| && FirstAt(ops, k, e);
    IdsAreMentioned(ops[..k], d.id);
    IdsAreMentioned(ops[..j], e.id);
    assert j < k ==> d.id in Named(ops[..k][j]);
    assert k < j ==> e.id in Named(ops[..j][k]);
  }

  /** No id is named both as an object and as an instrument. */
  ghost predicate OneKindEach(ops: seq<Operation>) {
    forall d, e :: Mentioned(ops, d) && Mentioned(ops, e) && d.id == e.id ==> d.kind == e.kind
  }

  /** The first mentions declare every object under every kind it is named with if and only if no id has two kinds. */
  lemma KindsDeclaredIff(ops: seq<Operation>)
    ensures (forall d :: Mentioned(ops, d) ==> FirstMention(ops, d)) <==> OneKindEach(ops)
  {
    hide Ids;
    if OneKindEach(ops) {
      forall d | Mentioned(ops, d)
        ensures FirstMention(ops, d)
      {
        MentionIsNamed(ops, d);
        FirstExists(ops, d.id);
        var e: Declared :| e.id == d.id && FirstMention(ops, e);
        assert Mentioned(ops, e);
      }
    }
    if forall d :: Mentioned(ops, d) ==> FirstMention(ops, d) {
      forall d, e | Mentioned(ops, d) && Mentioned(ops, e) && d.id == e.id
        ensures d.kind == e.kind
      {
        FirstIsUnique(ops, d, e);
      }
    }
  }

  lemma MentionIsNamed(ops: seq<Operation>, d: Declared)
    requires Mentioned(ops, d)
    ensures d.id in Ids(ops)
  {
    var k: nat :| k < |ops| && MentionedAt(ops, k, d);
    assert d.id in Named(ops[k]);
    IdsAreMentioned(ops, d.id);
  }

  /** The list of an operation's declarations grows by the two first mentions at its place. */
  lemma FirstAtGrows(ops: seq<Operation>, k: nat, list: seq<Declared>, d: Declared)
    requires k < |ops| && IdSet(list) == Ids(ops[..k])
    ensures FirstAt(ops, k, d) <==>
            || (d == Declared(OrderObject, ops[k].subject) && d.id != 0 && d.id !in IdSet(list))
            || (d == Declared(InstrumentObject, ops[k].related) && d.id != 0 && d.id != ops[k].subject &&
                d.id !in IdSet(list))
  {}

  /** Appends an id unless it is invalid or listed already; None stands for the exception of a full list. */
  method Declare(list: seq<Declared>, kind: ObjectKind, id: nat) returns (r: Option<seq<Declared>>)
    requires DistinctIds(list) && |list| <= DEPENDANT_OBJECT_LIMIT
    ensures r.Some? ==> DistinctIds(r.value) && |r.value| <= DEPENDANT_OBJECT_LIMIT && list <= r.value
    ensures r.Some? ==> IdSet(r.value) == IdSet(list) + if id == 0 then {} else {id}
    ensures r.Some? ==>
              forall d :: d in r.value <==> d in list || (d == Declared(kind, id) && id != 0 && id !in IdSet(list))
    ensures r.None? ==> id != 0 && id !in IdSet(list) && |list| == DEPENDANT_OBJECT_LIMIT
  {
    if id == 0 {
      return Some(list);
    }
    var i := 0;
    while i < |list|
      invariant i <= |list|
      invariant forall j :: 0 <= j < i ==> list[j].id != id
    {
      if list[i].id == id {
        assert id in IdSet(list);
        return Some(list);
      }
      i := i + 1;
    }
    if |list| == DEPENDANT_OBJECT_LIMIT {
      return None;
    }
    var longer := list + [Declared(kind, id)];
    assert IdSet(longer) == IdSet(list) + {id} by {
      assert longer[|list|].id == id;
      assert forall j :: 0 <= j < |list| ==> longer[j] == list[j];
    }
    return Some(longer);
  }

  /** getRelatedObjects: every id that an operation names, once, under the kind it is first named with; it fails exactly
      if there are more than ten of them. */
  method GetRelatedObjects(ops: seq<Operation>) returns (r: Option<seq<Declared>>)
    ensures r.Some? <==> |Ids(ops)| <= DEPENDANT_OBJECT_LIMIT
    ensures r.Some? ==> DistinctIds(r.value) && IdSet(r.value) == Ids(ops)
    ensures r.Some? ==> forall d :: d in r.value <==> FirstMention(ops, d)
  {
    hide Ids, IdSet, DistinctIds, FirstMention, FirstAt;
    var list: seq<Declared> := [];
    NothingNamed();
    assert ops[..0] == [];
    var k := 0;
    while k < |ops|
      invariant k <= |ops|
      invariant DistinctIds(list) && |list| <= DEPENDANT_OBJECT_LIMIT && IdSet(list) == Ids(ops[..k])
      invariant forall d :: d in list <==> FirstMention(ops[..k], d)
    {
      IdsNext(ops, k);
      var first := Declare(list, OrderObject, ops[k].subject);
      if first.None? {
        TooMany(list, ops[k].subject, Ids(ops));
        return None;
      }
      var second := Declare(first.value, InstrumentObject, ops[k].related);
      if second.None? {
        TooMany(first.value, ops[k].related, Ids(ops));
        return None;
      }
      forall d
        ensures d in second.value <==> FirstMention(ops[..k + 1], d)
      {
        FirstMentionNext(ops, k, d);
        FirstAtGrows(ops, k, list, d);
      }
      list := second.value;
      k := k + 1;
    }
    assert ops[..|ops|] == ops;
    IdSetSize(list);
    return Some(list);
  }

  lemma NothingNamed()
    ensures Ids([]) == {} && IdSet([]) == {} && DistinctIds([]) && forall d :: !FirstMention([], d)
  {}

  lemma IdsNext(ops: seq<Operation>, k: nat)
    requires k < |ops|
    ensures Ids(ops[..k + 1]) == Ids(ops[..k]) + Named(ops[k])
    ensures Ids(ops[..k + 1]) <= Ids(ops)
  {
    assert ops[..k + 1][..k] == ops[..k];
    IdsGrow(ops, k + 1);
  }

  lemma {:induction false} IdsGrow(ops: seq<Operation>, k: nat)
    requires k <= |ops|
    ensures Ids(ops[..k]) <= Ids(ops)
    decreases |ops| - k
  {
    if k < |ops| {
      IdsGrow(ops, k + 1);
      assert ops[..k + 1][..k] == ops[..k];
    } else {
      assert ops[..k] == ops;
    }
  }

  lemma TooMany(list: seq<Declared>, id: nat, all: set<nat>)
    requires DistinctIds(list) && id !in IdSet(list) && IdSet(list) + {id} <= all
    ensures |all| > |list|
  {
    IdSetSize(list);
    SubsetSize(IdSet(list) + {id}, all);
  }

  lemma {:induction false} SubsetSize(a: set<nat>, b: set<nat>)
    requires a <= b
    ensures |a| <= |b|
  {
    if a != {} {
      var x :| x in a;
      SubsetSize(a - {x}, b - {x});
    }
  }
}
