/**
The versioned log of src/FileStorage.cpp: records are appended, and switched off in place; an index maps every id to
the chain of its live records.  Loading a file rebuilds the index by replaying it.
*/
module FileLog {
  import opened Common
  import opened Bytes
  import opened LogFormat

  /** A live record: where it is, and what it holds. */
  datatype Item = Item(offset: nat, version: Word32, body: Buffer)

  /** What the index keeps of it. */
  datatype FileRecord = FileRecord(offset: nat, version: Word32)

  predicate Live(r: Rec, id: Id) {
    r.enabled && r.id == id
  }

  /** The live records of an id, in file order. */
  function Chain(log: seq<Rec>, id: Id): seq<Item>
    requires AllFit(log)
  {
    if log == [] then []
    else
      var n := |log| - 1;
      Chain(log[..n], id) + if Live(log[n], id) then [Item(Offset(log, n), log[n].version, log[n].body)] else []
  }

  function Stubs(c: seq<Item>): (r: seq<FileRecord>)
    ensures |r| == |c|
  {
    seq(|c|, i requires 0 <= i < |c| => FileRecord(c[i].offset, c[i].version))
  }

  function Texts(c: seq<Item>): (r: seq<(Word32, Buffer)>)
    ensures |r| == |c|
  {
    seq(|c|, i requires 0 <= i < |c| => (c[i].version, c[i].body))
  }

  function Cut<T>(s: seq<T>, k: nat): seq<T>
    requires k < |s|
  {
    s[..k] + s[k + 1..]
  }

  lemma ChainNext(log: seq<Rec>, r: Rec, id: Id)
    requires AllFit(log) && r.Fits()
    ensures AllFit(log + [r])
    ensures Chain(log + [r], id) ==
            Chain(log, id) + if Live(r, id) then [Item(|FileOf(log)|, r.version, r.body)] else []
  {
    var l := log + [r];
    assert l[..|log|] == log;
  }

  // ---------------------------------------------------------------- switching a record off

  /** The position in the log of the `k`-th live record of an id. */
  ghost function Where(log: seq<Rec>, id: Id, k: nat): (i: nat)
    requires AllFit(log) && k < |Chain(log, id)|
    ensures i < |log| && Live(log[i], id) && |Chain(log[..i], id)| == k
    ensures Chain(log, id)[k] == Item(Offset(log, i), log[i].version, log[i].body)
  {
    var n := |log| - 1;
    if k < |Chain(log[..n], id)| then
      var i := Where(log[..n], id, k);
      assert log[..n][..i] == log[..i];
      i
    else n
  }

  lemma DisabledOffset(log: seq<Rec>, i: nat)
    requires AllFit(log) && i < |log|
    ensures AllFit(Disabled(log, i)) && |FileOf(Disabled(log, i))| == |FileOf(log)|
  {
    FlipInFile(log, i);
  }

  lemma CutConcat<T>(a: seq<T>, b: seq<T>, k: nat)
    requires k < |a|
    ensures Cut(a + b, k) == Cut(a, k) + b
  {}

  /** Switching off a record takes it out of its chain and leaves every other chain as it is, offsets included. */
  lemma {:induction false} DisabledChain(log: seq<Rec>, i: nat, id: Id)
    requires AllFit(log) && i < |log|
    ensures AllFit(Disabled(log, i))
    ensures Live(log[i], id) ==>
              && |Chain(log[..i], id)| < |Chain(log, id)|
              && Chain(Disabled(log, i), id) == Cut(Chain(log, id), |Chain(log[..i], id)|)
    ensures !Live(log[i], id) ==> Chain(Disabled(log, i), id) == Chain(log, id)
    decreases |log|
  {
    hide FileOf, Chain, Cut;
    var n, d := |log| - 1, Disabled(log, i);
    var front, last := log[..n], log[n];
    DisabledOffset(log, i);
    assert log == front + [last];
    ChainNext(front, last, id);
    if i == n {
      assert d == front + [d[n]];
      ChainNext(front, d[n], id);
      if Live(last, id) {
        CutLast(Chain(front, id), Chain(log, id)[|Chain(front, id)|]);
      }
    } else {
      DisabledChain(front, i, id);
      DisabledOffset(front, i);
      assert front[..i] == log[..i];
      assert d == Disabled(front, i) + [last];
      ChainNext(Disabled(front, i), last, id);
      if Live(log[i], id) {
        CutConcat(Chain(front, id), Chain(log, id)[|Chain(front, id)|..], |Chain(log[..i], id)|);
      }
    }
  }

  lemma CutLast<T>(a: seq<T>, x: T)
    ensures Cut(a + [x], |a|) == a
  {}

  // ---------------------------------------------------------------- the store

  /** The records ever written, standing for the file, and the index. */
  datatype Store = Store(log: seq<Rec>, records: map<Id, seq<FileRecord>>)

  datatype Command =
    | Save(id: Id, pad: Buffer, body: Buffer)
    | Update(id: Id, pad: Buffer, body: Buffer)
    | Replace(id: Id, version: Word32, pad: Buffer, body: Buffer)
    | EraseVersion(id: Id, version: Word32)
    | Erase(id: Id)

  /** The entry of the index for an id is its chain of live records; an id without entry has none.  The entry may be
      empty, after the last version has been erased. */
  ghost predicate Indexed(s: Store, id: Id)
    requires AllFit(s.log)
  {
    if id in s.records then s.records[id] == Stubs(Chain(s.log, id)) else Chain(s.log, id) == []
  }

  ghost predicate StoreOk(s: Store) {
    AllFit(s.log) && forall id :: Indexed(s, id)
  }

  /** The live versions of an id and their bodies. */
  ghost function LiveOf(s: Store, id: Id): seq<(Word32, Buffer)>
    requires AllFit(s.log)
  {
    Texts(Chain(s.log, id))
  }

  /** What the source demands of its callers: a body that is not empty and fits the size field, and no update of
      an id whose versions have all been erased one by one. */
  predicate Allowed(s: Store, c: Command) {
    && (c.Save? || c.Update? || c.Replace? ==> Rec(c.id, c.pad, 0, true, c.body).Fits())
    && (c.Update? && c.id in s.records ==> s.records[c.id] != [])
  }

  /** The position of the first entry with a version, or the length of the chain. */
  function FirstWith(chain: seq<FileRecord>, version: Word32): (k: nat)
    ensures k <= |chain| && (k < |chain| ==> chain[k].version == version)
    ensures forall i :: 0 <= i < k ==> chain[i].version != version
  {
    if chain == [] || chain[0].version == version then 0 else 1 + FirstWith(chain[1..], version)
  }

  function NextVersion(chain: seq<FileRecord>): Word32 {
    if chain == [] then 0 else (chain[|chain| - 1].version + 1) % U32
  }

  function EntryOf(s: Store, id: Id): seq<FileRecord> {
    if id in s.records then s.records[id] else []
  }

  /** Append a record and index it. */
  ghost function Append(s: Store, r: Rec): Store
    requires AllFit(s.log)
  {
    Store(s.log + [r], s.records[r.id := EntryOf(s, r.id) + [FileRecord(|FileOf(s.log)|, r.version)]])
  }

  /** Switch off the `k`-th live record of an id. */
  ghost function SwitchOff(s: Store, id: Id, k: nat): Store
    requires StoreOk(s) && id in s.records && k < |s.records[id]|
  {
    assert Indexed(s, id);
    Store(Disabled(s.log, Where(s.log, id, k)), s.records[id := Cut(s.records[id], k)])
  }

  lemma StubOffset(s: Store, id: Id, k: nat)
    requires StoreOk(s) && id in s.records && k < |s.records[id]|
    ensures k < |Chain(s.log, id)| && s.records[id][k].offset == Offset(s.log, Where(s.log, id, k))
  {
    hide Chain;
    assert Indexed(s, id);
  }

  lemma AppendKeeps(s: Store, r: Rec)
    requires StoreOk(s) && r.Fits() && r.enabled
    ensures StoreOk(Append(s, r))
    ensures LiveOf(Append(s, r), r.id) == LiveOf(s, r.id) + [(r.version, r.body)]
    ensures forall id :: id != r.id ==> LiveOf(Append(s, r), id) == LiveOf(s, id)
  {
    hide Chain, FileOf;
    var n := Append(s, r);
    ChainNext(s.log, r, r.id);
    assert Indexed(s, r.id);
    forall id | id != r.id
      ensures Indexed(n, id) && LiveOf(n, id) == LiveOf(s, id)
    {
      ChainNext(s.log, r, id);
      assert Indexed(s, id);
    }
  }

  lemma SwitchOffKeeps(s: Store, id: Id, k: nat)
    requires StoreOk(s) && id in s.records && k < |s.records[id]|
    ensures StoreOk(SwitchOff(s, id, k)) && k < |LiveOf(s, id)|
    ensures LiveOf(SwitchOff(s, id, k), id) == Cut(LiveOf(s, id), k)
    ensures forall x :: x != id ==> LiveOf(SwitchOff(s, id, k), x) == LiveOf(s, x)
  {
    hide Chain, FileOf;
    assert Indexed(s, id);
    var n, i := SwitchOff(s, id, k), Where(s.log, id, k);
    DisabledChain(s.log, i, id);
    forall x | x != id
      ensures Indexed(n, x) && LiveOf(n, x) == LiveOf(s, x)
    {
      DisabledChain(s.log, i, x);
      assert Indexed(s, x);
    }
  }

  /** Switch off all live records of an id, first to last. */
  ghost function SwitchOffAll(s: Store, id: Id): Store
    requires StoreOk(s) && id in s.records
    decreases |s.records[id]|
  {
    if s.records[id] == [] then s
    else
      SwitchOffKeeps(s, id, 0);
      SwitchOffAll(SwitchOff(s, id, 0), id)
  }

  lemma {:induction false} SwitchOffAllKeeps(s: Store, id: Id)
    requires StoreOk(s) && id in s.records
    ensures var n := SwitchOffAll(s, id);
            && StoreOk(n) && n.records == s.records[id := []] && LiveOf(n, id) == []
            && forall x :: x != id ==> LiveOf(n, x) == LiveOf(s, x)
    decreases |s.records[id]|
  {
    hide Chain, LiveOf, Indexed, SwitchOff, Cut;
    if s.records[id] == [] {
      assert LiveOf(s, id) == [] by { EmptyEntry(s, id); }
      assert s.records == s.records[id := []];
    } else {
      SwitchOffKeeps(s, id, 0);
      SwitchOffRecords(s, id, 0);
      SwitchOffAllKeeps(SwitchOff(s, id, 0), id);
    }
  }

  lemma SwitchOffRecords(s: Store, id: Id, k: nat)
    requires StoreOk(s) && id in s.records && k < |s.records[id]|
    ensures var n := SwitchOff(s, id, k).records;
            n == s.records[id := Cut(s.records[id], k)] && |n[id]| == |s.records[id]| - 1
  {
    hide Chain, StoreOk;
  }

  lemma EmptyEntry(s: Store, id: Id)
    requires StoreOk(s) && EntryOf(s, id) == []
    ensures LiveOf(s, id) == [] && Chain(s.log, id) == []
  {
    assert Indexed(s, id);
  }

  lemma ForgetEmpty(s: Store, id: Id)
    requires StoreOk(s) && EntryOf(s, id) == []
    ensures StoreOk(s.(records := s.records - {id}))
  {
    EmptyEntry(s, id);
    hide Chain;
    var n := s.(records := s.records - {id});
    forall x
      ensures Indexed(n, x)
    {
      assert Indexed(s, x);
    }
  }

  // ---------------------------------------------------------------- commands

  ghost function Do(s: Store, c: Command): Store
    requires StoreOk(s) && Allowed(s, c)
  {
    match c
    case Save(id, pad, body) => if id in s.records then s else Append(s, Rec(id, pad, 0, true, body))
    case Update(id, pad, body) => Append(s, Rec(id, pad, NextVersion(EntryOf(s, id)), true, body))
    case Replace(id, version, pad, body) =>
      if id !in s.records then s
      else
        var k := FirstWith(s.records[id], version);
        if k == |s.records[id]| then s
        else
          SwitchOffKeeps(s, id, k);
          Append(SwitchOff(s, id, k), Rec(id, pad, NextVersion(s.records[id]), true, body))
    case EraseVersion(id, version) =>
      if id !in s.records then s
      else
        var k := FirstWith(s.records[id], version);
        if k == |s.records[id]| then s else SwitchOff(s, id, k)
    case Erase(id) =>
      if id !in s.records then s
      else
        var n := SwitchOffAll(s, id);
        n.(records := n.records - {id})
  }

  /** What a command means for the live versions of its id; all other ids keep theirs. */
  function Effect(live: seq<(Word32, Buffer)>, known: bool, c: Command): seq<(Word32, Buffer)> {
    match c
    case Save(_, _, body) => if known then live else live + [(0, body)]
    case Update(_, _, body) => live + [(NextOf(live), body)]
    case Replace(_, version, _, body) =>
      var k := FirstLive(live, version);
      if k < |live| then Cut(live, k) + [(NextOf(live), body)] else live
    case EraseVersion(_, version) =>
      var k := FirstLive(live, version);
      if k < |live| then Cut(live, k) else live
    case Erase(_) => []
  }

  function FirstLive(live: seq<(Word32, Buffer)>, version: Word32): nat {
    if live == [] || live[0].0 == version then 0 else 1 + FirstLive(live[1..], version)
  }

  function NextOf(live: seq<(Word32, Buffer)>): Word32 {
    if live == [] then 0 else (live[|live| - 1].0 + 1) % U32
  }

  lemma {:induction false} FirstAgrees(chain: seq<FileRecord>, live: seq<(Word32, Buffer)>, version: Word32)
    requires |chain| == |live| && forall i :: 0 <= i < |live| ==> chain[i].version == live[i].0
    ensures FirstWith(chain, version) == FirstLive(live, version)
  {
    if live != [] {
      FirstAgrees(chain[1..], live[1..], version);
    }
  }

  lemma EntryAgrees(s: Store, id: Id)
    requires StoreOk(s)
    ensures var e, l := EntryOf(s, id), LiveOf(s, id);
            |e| == |l| && (forall i :: 0 <= i < |l| ==> e[i].version == l[i].0) && NextVersion(e) == NextOf(l)
  {
    hide Chain;
    assert Indexed(s, id);
  }

  /** Every command keeps the index right and does to the live versions exactly what it means. */
  lemma DoKeeps(s: Store, c: Command)
    requires StoreOk(s) && Allowed(s, c)
    ensures StoreOk(Do(s, c))
    ensures LiveOf(Do(s, c), c.id) == Effect(LiveOf(s, c.id), c.id in s.records, c)
    ensures forall id :: id != c.id ==> LiveOf(Do(s, c), id) == LiveOf(s, id)
  {
    hide Indexed, LiveOf, AllFit;
    EntryAgrees(s, c.id);
    match c
    case Save(id, pad, body) =>
      if id !in s.records {
        AppendKeeps(s, Rec(id, pad, 0, true, body));
      }
    case Update(id, pad, body) =>
      AppendKeeps(s, Rec(id, pad, NextVersion(EntryOf(s, id)), true, body));
    case Replace(id, version, pad, body) =>
      ReplaceKeeps(s, c);
    case EraseVersion(id, version) =>
      FirstAgrees(EntryOf(s, id), LiveOf(s, id), version);
      if id in s.records && FirstWith(s.records[id], version) < |s.records[id]| {
        SwitchOffKeeps(s, id, FirstWith(s.records[id], version));
      }
    case Erase(id) =>
      if id in s.records {
        SwitchOffAllKeeps(s, id);
        ForgetEmpty(SwitchOffAll(s, id), id);
        LiveLooksAtLog(SwitchOffAll(s, id), Do(s, c));
      } else {
        EmptyEntry(s, id);
      }
  }

  lemma LiveLooksAtLog(s: Store, n: Store)
    requires StoreOk(s) && StoreOk(n) && n.log == s.log
    ensures forall id :: LiveOf(n, id) == LiveOf(s, id)
  {}

  lemma ReplaceKeeps(s: Store, c: Command)
    requires StoreOk(s) && Allowed(s, c) && c.Replace?
    ensures StoreOk(Do(s, c))
    ensures LiveOf(Do(s, c), c.id) == Effect(LiveOf(s, c.id), c.id in s.records, c)
    ensures forall id :: id != c.id ==> LiveOf(Do(s, c), id) == LiveOf(s, id)
  {
    hide Indexed, LiveOf, AllFit;
    var id := c.id;
    EntryAgrees(s, id);
    FirstAgrees(EntryOf(s, id), LiveOf(s, id), c.version);
    if id in s.records && FirstWith(s.records[id], c.version) < |s.records[id]| {
      var k := FirstWith(s.records[id], c.version);
      SwitchOffKeeps(s, id, k);
      AppendKeeps(SwitchOff(s, id, k), Rec(id, c.pad, NextVersion(s.records[id]), true, c.body));
    }
  }

  // ---------------------------------------------------------------- what an id holds

  /** Whether the index knows an id, and its live versions. */
  datatype Held = Held(known: bool, live: seq<(Word32, Buffer)>)

  const NOTHING: Held := Held(false, [])

  ghost function HeldOf(s: Store, id: Id): Held
    requires AllFit(s.log)
  {
    Held(id in s.records, LiveOf(s, id))
  }

  function KnownAfter(known: bool, c: Command): bool {
    c.Save? || c.Update? || (known && !c.Erase?)
  }

  function Applied(h: Held, c: Command): Held {
    Held(KnownAfter(h.known, c), Effect(h.live, h.known, c))
  }

  lemma DoKnown(s: Store, c: Command, id: Id)
    requires StoreOk(s) && Allowed(s, c)
    ensures id in Do(s, c).records <==> if id == c.id then KnownAfter(id in s.records, c) else id in s.records
  {
    hide StoreOk, Chain;
    if c.Erase? && c.id in s.records {
      SwitchOffAllKeeps(s, c.id);
    }
  }

  /** A command applies to what its own id holds. */
  lemma DoIsApplied(s: Store, c: Command, id: Id)
    requires StoreOk(s) && Allowed(s, c)
    ensures StoreOk(Do(s, c)) && HeldOf(Do(s, c), id) == if id == c.id then Applied(HeldOf(s, id), c) else HeldOf(s, id)
  {
    hide Do, Indexed, LiveOf, Effect, KnownAfter;
    DoKeeps(s, c);
    DoKnown(s, c, id);
  }

  /** What the source demands of its callers, in terms of what the id holds. */
  predicate Permitted(h: Held, c: Command) {
    && (c.Save? || c.Update? || c.Replace? ==> Rec(c.id, c.pad, 0, true, c.body).Fits())
    && (c.Update? && h.known ==> h.live != [])
  }

  lemma PermittedIsAllowed(s: Store, c: Command)
    requires StoreOk(s)
    ensures Allowed(s, c) <==> Permitted(HeldOf(s, c.id), c)
  {
    hide Indexed, LiveOf;
    EntryAgrees(s, c.id);
  }

  // ---------------------------------------------------------------- versions

  predicate Increasing(live: seq<(Word32, Buffer)>) {
    forall i, j :: 0 <= i < j < |live| ==> live[i].0 < live[j].0
  }

  /** The next version number would exceed 32 bits while another version stays in the chain. */
  predicate Wraps(live: seq<(Word32, Buffer)>, c: Command) {
    live != [] && live[|live| - 1].0 == U32 - 1 &&
    (c.Update? || (c.Replace? && FirstLive(live, c.version) < |live| && |live| > 1))
  }

  /** Versions increase along a chain as long as, and only as long as, the version counter does not wrap. */
  lemma VersionsIncreaseIff(live: seq<(Word32, Buffer)>, known: bool, c: Command)
    requires Increasing(live) && (!known ==> live == [])
    ensures Increasing(Effect(live, known, c)) <==> !Wraps(live, c)
  {
    FirstLiveBound(live, if c.Replace? || c.EraseVersion? then c.version else 0);
    match c
    case Save(_, _, _) =>
    case Update(_, _, body) => AppendIncreasing(live, live, body);
    case Replace(_, version, _, body) =>
      var k := FirstLive(live, version);
      if k < |live| {
        CutIncreasing(live, k);
        AppendIncreasing(live, Cut(live, k), body);
      }
    case EraseVersion(_, version) =>
      var k := FirstLive(live, version);
      if k < |live| {
        CutIncreasing(live, k);
      }
    case Erase(_) =>
  }

  lemma {:induction false} FirstLiveBound(live: seq<(Word32, Buffer)>, version: Word32)
    ensures FirstLive(live, version) <= |live|
  {
    if live != [] {
      FirstLiveBound(live[1..], version);
    }
  }

  lemma CutIncreasing(live: seq<(Word32, Buffer)>, k: nat)
    requires Increasing(live) && k < |live|
    ensures Increasing(Cut(live, k)) && forall i :: 0 <= i < |Cut(live, k)| ==> Cut(live, k)[i].0 <= live[|live| - 1].0
  {
    var c := Cut(live, k);
    assert forall i :: 0 <= i < |c| ==> c[i] == live[if i < k then i else i + 1];
  }

  /** A record with the version after `live`'s last, appended to what is left of `live`. */
  lemma AppendIncreasing(live: seq<(Word32, Buffer)>, rest: seq<(Word32, Buffer)>, body: Buffer)
    requires Increasing(rest) && (rest != [] ==> live != [])
    requires live != [] ==> forall i :: 0 <= i < |rest| ==> rest[i].0 <= live[|live| - 1].0
    ensures Increasing(rest + [(NextOf(live), body)]) <==>
            rest == [] || live[|live| - 1].0 < U32 - 1
  {
    var r := rest + [(NextOf(live), body)];
    assert forall i :: 0 <= i < |rest| ==> r[i] == rest[i];
    if rest != [] && live[|live| - 1].0 == U32 - 1 {
      assert r[0].0 >= r[|rest|].0;
    }
  }

  // ---------------------------------------------------------------- loading

  /** What the observer is told: the live records of all ids, in file order. */
  function Reported(log: seq<Rec>): seq<(Id, Word32, Buffer)> {
    if log == [] then []
    else
      var r := log[|log| - 1];
      Reported(log[..|log| - 1]) + if r.enabled then [(r.id, r.version, r.body)] else []
  }

  /** The reports about one id. */
  function About(reports: seq<(Id, Word32, Buffer)>, id: Id): seq<(Word32, Buffer)> {
    if reports == [] then []
    else
      var r := reports[|reports| - 1];
      About(reports[..|reports| - 1], id) + if r.0 == id then [(r.1, r.2)] else []
  }

  lemma {:induction false} ReportsAreChains(log: seq<Rec>, id: Id)
    requires AllFit(log)
    ensures About(Reported(log), id) == Texts(Chain(log, id))
    decreases |log|
  {
    hide FileOf, Offset, About, Texts;
    if log == [] {
      assert About([], id) == [] && Texts([]) == [] by { NothingReported(id); }
    } else {
      var n := |log| - 1;
      var rest, r, chain := Reported(log[..n]), log[n], Chain(log[..n], id);
      ReportsAreChains(log[..n], id);
      assert rest + [] == rest && chain + [] == chain;
      AboutSnoc(rest, (r.id, r.version, r.body), id);
      TextsSnoc(chain, Item(Offset(log, n), r.version, r.body));
    }
  }

  lemma NothingReported(id: Id)
    ensures About([], id) == [] && Texts([]) == []
  {}

  lemma AboutSnoc(reports: seq<(Id, Word32, Buffer)>, r: (Id, Word32, Buffer), id: Id)
    ensures About(reports + [r], id) == if r.0 == id then About(reports, id) + [(r.1, r.2)] else About(reports, id)
  {
    assert (reports + [r])[..|reports|] == reports;
  }

  lemma TextsSnoc(c: seq<Item>, x: Item)
    ensures Texts(c + [x]) == Texts(c) + [(x.version, x.body)]
  {}

  /** Loading finds in the file exactly the chains that are not empty. */
  ghost predicate Rebuilt(records: map<Id, seq<FileRecord>>, log: seq<Rec>, id: Id)
    requires AllFit(log)
  {
    if id in records then records[id] == Stubs(Chain(log, id)) && records[id] != [] else Chain(log, id) == []
  }

  function IndexedWith(records: map<Id, seq<FileRecord>>, r: Rec, offset: nat): map<Id, seq<FileRecord>> {
    if !r.enabled then records
    else records[r.id := (if r.id in records then records[r.id] else []) + [FileRecord(offset, r.version)]]
  }

  lemma RebuiltNext(records: map<Id, seq<FileRecord>>, log: seq<Rec>, k: nat, id: Id)
    requires AllFit(log) && k < |log| && Rebuilt(records, log[..k], id)
    ensures Rebuilt(IndexedWith(records, log[k], Offset(log, k)), log[..k + 1], id)
  {
    hide Chain, FileOf;
    assert log[..k] + [log[k]] == log[..k + 1];
    ChainNext(log[..k], log[k], id);
  }

  /** The index that replaying the first `k` records gives. */
  function Rebuild(log: seq<Rec>, k: nat): map<Id, seq<FileRecord>>
    requires AllFit(log) && k <= |log|
  {
    if k == 0 then map[] else IndexedWith(Rebuild(log, k - 1), log[k - 1], Offset(log, k - 1))
  }

  lemma {:induction false} RebuildIs(log: seq<Rec>, k: nat, id: Id)
    requires AllFit(log) && k <= |log|
    ensures Rebuilt(Rebuild(log, k), log[..k], id)
  {
    hide Chain, FileOf, IndexedWith, Rebuilt, Offset;
    if k == 0 {
      assert log[..0] == [] && Rebuilt(map[], [], id) by { NothingRebuilt(id); }
    } else {
      RebuildIs(log, k - 1, id);
      RebuiltNext(Rebuild(log, k - 1), log, k - 1, id);
    }
  }

  lemma NothingRebuilt(id: Id)
    ensures Rebuilt(map[], [], id)
  {}

  /** The first '<' at or after a position. */
  function NextMark(file: Buffer, pos: nat): (p: nat)
    requires pos <= |file|
    ensures pos <= p <= |file|
    decreases |file| - pos
  {
    if pos == |file| || file[pos] == LESS then pos else NextMark(file, pos + 1)
  }

  function ReportedWith(reports: seq<(Id, Word32, Buffer)>, r: Rec): seq<(Id, Word32, Buffer)> {
    if r.enabled then reports + [(r.id, r.version, r.body)] else reports
  }

  /** What loading has found. */
  datatype Replay = Replay(records: map<Id, seq<FileRecord>>, reports: seq<(Id, Word32, Buffer)>)

  const NOTHING_READ: Replay := Replay(map[], [])

  function ReplayedWith(found: Replay, r: Rec, pos: nat): Replay {
    Replay(IndexedWith(found.records, r, pos), ReportedWith(found.reports, r))
  }

  /** The rest of a file from a position on: what cannot be read is skipped up to the next mark. */
  function Replayed(file: Buffer, pos: nat, found: Replay): Replay
    requires pos <= |file|
    decreases |file| - pos
  {
    if pos == |file| then found
    else
      match Parse(file, pos)
      case Got(r, next) =>
        ParsedForward(file, pos);
        Replayed(file, next, ReplayedWith(found, r, pos))
      case _ => Replayed(file, NextMark(file, pos + 1), found)
  }

  /** The records of a log are read one after the other, whatever follows them. */
  lemma {:induction false} WrittenReplays(log: seq<Rec>, tail: Buffer, k: nat)
    requires AllFit(log) && k <= |log|
    ensures var file := FileOf(log) + tail;
            && Offset(log, k) <= |FileOf(log)|
            && Replayed(file, Offset(log, k), Replay(Rebuild(log, k), Reported(log[..k]))) ==
               Replayed(file, |FileOf(log)|, Replay(Rebuild(log, |log|), Reported(log)))
    decreases |log| - k
  {
    hide FileOf, Parse, Reported, IndexedWith, Offset;
    OffsetEnd(log);
    if k == |log| {
      assert log[..k] == log;
    } else {
      ParseAt(log, tail, k);
      ReportedNext(log, k);
      WrittenReplays(log, tail, k + 1);
      var file, found := FileOf(log) + tail, Replay(Rebuild(log, k), Reported(log[..k]));
      var more := Replay(Rebuild(log, k + 1), Reported(log[..k + 1]));
      assert ReplayedWith(found, log[k], Offset(log, k)) == more;
      assert Replayed(file, Offset(log, k), found) == Replayed(file, Offset(log, k + 1), more);
    }
  }

  lemma NothingReplayed(log: seq<Rec>, tail: Buffer)
    requires AllFit(log)
    ensures Replay(Rebuild(log, 0), Reported(log[..0])) == NOTHING_READ && Offset(log, 0) == |VERSION_RECORD|
    ensures (FileOf(log) + tail)[..|VERSION_RECORD|] == VERSION_RECORD
  {
    OffsetEnd(log);
    FileSplits(log, 0);
    assert log[..0] == [];
  }

  /** A whole file that was written by the store. */
  lemma FileReplays(log: seq<Rec>)
    requires AllFit(log)
    ensures FileOf(log)[..|VERSION_RECORD|] == VERSION_RECORD
    ensures Replayed(FileOf(log), |VERSION_RECORD|, NOTHING_READ) == Replay(Rebuild(log, |log|), Reported(log))
  {
    hide FileOf, Parse, Reported, Rebuild, Offset;
    assert FileOf(log) + [] == FileOf(log);
    NothingReplayed(log, []);
    WrittenReplays(log, [], 0);
  }

  /** FileStorage::load on any bytes: a record that cannot be read is skipped up to the next mark.  On a file that
      was written by the store, every record is read, the observer is told the live ones in order, and the index
      becomes the chains that are not empty. */
  method Load(file: Buffer, ghost log: seq<Rec>)
    returns (versionOk: bool, records: map<Id, seq<FileRecord>>, reports: seq<(Id, Word32, Buffer)>)
    ensures versionOk <==> VERSION_RECORD <= file
    ensures Replay(records, reports) ==
            if versionOk then Replayed(file, |VERSION_RECORD|, NOTHING_READ) else NOTHING_READ
    ensures AllFit(log) && file == FileOf(log) ==>
              versionOk && reports == Reported(log) && records == Rebuild(log, |log|)
  {
    hide FileOf, Parse, Reported, Rebuild, IndexedWith;
    if AllFit(log) && file == FileOf(log) {
      FileReplays(log);
    }
    records, reports := map[], [];
    versionOk := |file| >= |VERSION_RECORD| && file[..|VERSION_RECORD|] == VERSION_RECORD;
    if !versionOk {
      return;
    }
    var pos := |VERSION_RECORD|;
    while pos < |file|
      invariant pos <= |file|
      invariant Replayed(file, pos, Replay(records, reports)) == Replayed(file, |VERSION_RECORD|, NOTHING_READ)
      decreases |file| - pos
    {
      match Parse(file, pos) {
        case Got(r, next) =>
          ParsedForward(file, pos);
          records := IndexedWith(records, r, pos);
          reports := ReportedWith(reports, r);
          pos := next;
        case _ =>
          pos := NextMark(file, pos + 1);
      }
    }
  }

  lemma ParsedForward(file: Buffer, pos: nat)
    requires pos <= |file| && Parse(file, pos).Got?
    ensures pos < Parse(file, pos).next <= |file|
  {}

  lemma ReportedNext(log: seq<Rec>, k: nat)
    requires k < |log|
    ensures Reported(log[..k + 1]) ==
            Reported(log[..k]) + if log[k].enabled then [(log[k].id, log[k].version, log[k].body)] else []
  {
    assert log[..k + 1][..k] == log[..k];
  }

  // ---------------------------------------------------------------- runs

  /** A call of the storage, or closing the file and loading it again. */
  datatype Action = Call(command: Command) | Reopen

  /** Loading forgets the ids that have no live versions. */
  function Reloaded(h: Held): Held {
    Held(h.live != [], h.live)
  }

  /** What an id holds after a run on a new file: the meanings of its commands, one after the other. */
  function Meaning(run: seq<Action>, id: Id): Held {
    if run == [] then NOTHING
    else
      var before, last := Meaning(run[..|run| - 1], id), run[|run| - 1];
      if last.Reopen? then Reloaded(before)
      else if last.command.id == id then Applied(before, last.command)
      else before
  }

  /** Every command is permitted where it is given. */
  predicate GoodRun(run: seq<Action>) {
    forall i :: 0 <= i < |run| && run[i].Call? ==> Permitted(Meaning(run[..i], run[i].command.id), run[i].command)
  }

  lemma GoodPrefix(run: seq<Action>, k: nat)
    requires GoodRun(run) && k <= |run|
    ensures GoodRun(run[..k])
  {
    hide Meaning, Permitted;
    forall i | 0 <= i < k && run[..k][i].Call?
      ensures Permitted(Meaning(run[..k][..i], run[i].command.id), run[i].command)
    {
      assert run[..k][..i] == run[..i];
    }
  }

  /** A new file. */
  ghost function NewStore(): (s: Store)
    ensures StoreOk(s) && forall id :: HeldOf(s, id) == NOTHING
  {
    Store([], map[])
  }

  ghost function ReopenedStore(s: Store): Store
    requires AllFit(s.log)
  {
    Store(s.log, Rebuild(s.log, |s.log|))
  }

  lemma ReopenKeeps(s: Store)
    requires StoreOk(s)
    ensures StoreOk(ReopenedStore(s)) && forall id :: HeldOf(ReopenedStore(s), id) == Reloaded(HeldOf(s, id))
  {
    hide Chain, Rebuild;
    var n := ReopenedStore(s);
    assert s.log[..|s.log|] == s.log;
    forall id
      ensures Indexed(n, id) && HeldOf(n, id) == Reloaded(HeldOf(s, id))
    {
      RebuildIs(s.log, |s.log|, id);
      assert Indexed(s, id);
    }
  }

  ghost function Taken(s: Store, a: Action): Store
    requires StoreOk(s) && (a.Call? ==> Allowed(s, a.command))
  {
    if a.Call? then Do(s, a.command) else ReopenedStore(s)
  }

  /** What an id holds after one more action. */
  lemma TakenIs(s: Store, run: seq<Action>, id: Id)
    requires run != [] && GoodRun(run) && StoreOk(s) && forall x :: HeldOf(s, x) == Meaning(run[..|run| - 1], x)
    ensures var a := run[|run| - 1];
            && (a.Call? ==> Allowed(s, a.command))
            && StoreOk(Taken(s, a)) && HeldOf(Taken(s, a), id) == Meaning(run, id)
  {
    var a := run[|run| - 1];
    hide StoreOk, HeldOf, Applied, Permitted, Do, ReopenedStore, Allowed;
    if a.Call? {
      assert HeldOf(s, a.command.id) == Meaning(run[..|run| - 1], a.command.id);
      PermittedIsAllowed(s, a.command);
      DoIsApplied(s, a.command, id);
    } else {
      ReopenKeeps(s);
    }
  }

  lemma TakenIsMeant(s: Store, run: seq<Action>)
    requires run != [] && GoodRun(run) && StoreOk(s) && forall x :: HeldOf(s, x) == Meaning(run[..|run| - 1], x)
    ensures var a := run[|run| - 1];
            && (a.Call? ==> Allowed(s, a.command))
            && StoreOk(Taken(s, a)) && forall id :: HeldOf(Taken(s, a), id) == Meaning(run, id)
  {
    hide Indexed, HeldOf, Taken, Allowed, GoodRun, Meaning;
    TakenIs(s, run, Id(0, 0));
    forall id
      ensures HeldOf(Taken(s, run[|run| - 1]), id) == Meaning(run, id)
    {
      TakenIs(s, run, id);
    }
  }

  /** The store after a run on a new file. */
  ghost function StoreAfter(run: seq<Action>): (s: Store)
    requires GoodRun(run)
    ensures StoreOk(s) && forall id :: HeldOf(s, id) == Meaning(run, id)
  {
    if run == [] then NewStore()
    else
      GoodPrefix(run, |run| - 1);
      var before := StoreAfter(run[..|run| - 1]);
      TakenIsMeant(before, run);
      Taken(before, run[|run| - 1])
  }

  /** After any run on a new file, what loading its bytes reports about an id is exactly what the commands of the run
      mean for it, and the rebuilt index has the ids for which that is something. */
  lemma ReplayAfterAnyRun(run: seq<Action>, id: Id)
    requires GoodRun(run)
    ensures var log := StoreAfter(run).log;
            && AllFit(log) && About(Reported(log), id) == Meaning(run, id).live
            && (id in Rebuild(log, |log|) <==> Meaning(run, id).live != [])
  {
    hide Chain, Rebuild, Reported, About, Meaning, StoreAfter;
    var t := StoreAfter(run);
    assert HeldOf(t, id) == Meaning(run, id);
    ReportsAreChains(t.log, id);
    RebuildIs(t.log, |t.log|, id);
    assert t.log[..|t.log|] == t.log;
  }

  /** A new id that is saved, or updated, first and then updated. */
  function Writes(id: Id, pad: Buffer, bodies: seq<Buffer>, saved: bool): (run: seq<Action>)
    ensures |run| == |bodies|
  {
    seq(|bodies|, i requires 0 <= i < |bodies| =>
      Call(if i == 0 && saved then Save(id, pad, bodies[0]) else Update(id, pad, bodies[i])))
  }

  function Numbered(bodies: seq<Buffer>): (live: seq<(Word32, Buffer)>)
    ensures |live| == |bodies|
  {
    seq(|bodies|, i requires 0 <= i < |bodies| => (i % U32, bodies[i]))
  }

  /** Its versions are all live and numbered from 0. */
  lemma {:induction false} VersionsCountUp(id: Id, pad: Buffer, bodies: seq<Buffer>, saved: bool)
    ensures Meaning(Writes(id, pad, bodies, saved), id) == Held(bodies != [], Numbered(bodies))
    decreases |bodies|
  {
    hide NextOf, Numbered;
    var run := Writes(id, pad, bodies, saved);
    if bodies != [] {
      var n := |bodies| - 1;
      VersionsCountUp(id, pad, bodies[..n], saved);
      assert run[..n] == Writes(id, pad, bodies[..n], saved);
      NextNumber(bodies[..n]);
      OneMoreNumber(bodies);
      assert [] + [(0, bodies[0])] == [(0, bodies[0])];
    }
  }

  lemma NextNumber(bodies: seq<Buffer>)
    ensures NextOf(Numbered(bodies)) == |bodies| % U32
  {}

  lemma OneMoreNumber(bodies: seq<Buffer>)
    requires bodies != []
    ensures var n := |bodies| - 1; Numbered(bodies) == Numbered(bodies[..n]) + [(n % U32, bodies[n])]
  {}

  /** No command wraps the version counter where it is given. */
  predicate NeverWraps(run: seq<Action>) {
    forall i :: 0 <= i < |run| && run[i].Call? ==> !Wraps(Meaning(run[..i], run[i].command.id).live, run[i].command)
  }

  /** Over whole runs, versions strictly increase along every chain. */
  lemma {:induction false} VersionsIncreaseOverRuns(run: seq<Action>, id: Id)
    requires NeverWraps(run)
    ensures Increasing(Meaning(run, id).live) && (!Meaning(run, id).known ==> Meaning(run, id).live == [])
    decreases |run|
  {
    hide Wraps, Effect, Increasing;
    if run == [] {
      assert Increasing([]) by { NoneIncreasing(); }
    } else {
      var n := |run| - 1;
      assert NeverWraps(run[..n]) by { UnwrappedPrefix(run, n); }
      VersionsIncreaseOverRuns(run[..n], id);
      if run[n].Call? && run[n].command.id == id {
        var before := Meaning(run[..n], id);
        VersionsIncreaseIff(before.live, before.known, run[n].command);
        UnknownHasNothing(before, run[n].command);
      }
    }
  }

  lemma NoneIncreasing()
    ensures Increasing([])
  {}

  lemma UnknownHasNothing(h: Held, c: Command)
    requires !h.known ==> h.live == []
    ensures !Applied(h, c).known ==> Applied(h, c).live == []
  {}

  lemma UnwrappedPrefix(run: seq<Action>, k: nat)
    requires NeverWraps(run) && k <= |run|
    ensures NeverWraps(run[..k])
  {
    hide Meaning, Wraps;
    forall i | 0 <= i < k && run[..k][i].Call?
      ensures !Wraps(Meaning(run[..k][..i], run[i].command.id).live, run[i].command)
    {
      assert run[..k][..i] == run[..i];
    }
  }

  // ---------------------------------------------------------------- the class

  lemma RebuiltIsOk(log: seq<Rec>)
    requires AllFit(log)
    ensures StoreOk(Store(log, Rebuild(log, |log|)))
  {
    hide Chain, Rebuild;
    assert log[..|log|] == log;
    forall id
      ensures Indexed(Store(log, Rebuild(log, |log|)), id)
    {
      RebuildIs(log, |log|, id);
    }
  }

  class FileStorage {
    var file: Buffer
    var records: map<Id, seq<FileRecord>>
    ghost var log: seq<Rec>

    ghost function View(): Store
      reads this
    {
      Store(log, records)
    }

    ghost predicate Valid()
      reads this
    {
      StoreOk(View()) && file == FileOf(log)
    }

    /** A new file. */
    constructor ()
      ensures Valid() && View() == Store([], map[])
    {
      file, records, log := VERSION_RECORD, map[], [];
    }

    /** FileStorage::load on an existing file. */
    constructor Open(bytes: Buffer, ghost written: seq<Rec>)
      requires AllFit(written) && bytes == FileOf(written)
      ensures Valid() && View() == Store(written, Rebuild(written, |written|))
    {
      var versionOk, index, reports := Load(bytes, written);
      file, records, log := bytes, index, written;
      new;
      assert StoreOk(View()) by { RebuiltIsOk(written); }
    }

    /** saveRecord: at the end of the file. */
    method SaveRecord(r: Rec) returns (offset: nat)
      requires AllFit(log) && file == FileOf(log) && r.Fits()
      modifies `file, `log
      ensures AllFit(log) && file == FileOf(log) && log == old(log) + [r] && offset == |FileOf(old(log))|
    {
      offset := |file|;
      file := file + Frame(r);
      assert (log + [r])[..|log|] == log;
      log := log + [r];
    }

    /** disableRecord: one byte of the file changes. */
    method DisableRecord(id: Id, k: nat)
      requires Valid() && id in records && k < |records[id]|
      modifies this
      ensures Valid() && View() == SwitchOff(old(View()), id, k)
    {
      hide FileOf, Chain, LiveOf, Offset;
      SwitchOffKeeps(View(), id, k);
      StubOffset(View(), id, k);
      ghost var i := Where(log, id, k);
      FlipInFile(log, i);
      file := file[records[id][k].offset + HEADER_ACTIVE_POS := NO];
      records := records[id := Cut(records[id], k)];
      log := Disabled(log, i);
    }

    method SaveNew(id: Id, pad: Buffer, body: Buffer) returns (ok: bool)
      requires Valid() && Allowed(View(), Save(id, pad, body))
      modifies this
      ensures Valid() && View() == Do(old(View()), Save(id, pad, body)) && (ok <==> id !in old(records))
    {
      hide Chain, FileOf, Indexed, Effect, Frame;
      DoKeeps(View(), Save(id, pad, body));
      if id in records {
        return false;
      }
      var offset := SaveRecord(Rec(id, pad, 0, true, body));
      records := records[id := [FileRecord(offset, 0)]];
      assert [] + [FileRecord(offset, 0)] == [FileRecord(offset, 0)];
      return true;
    }

    method UpdateRecord(id: Id, pad: Buffer, body: Buffer) returns (version: Word32)
      requires Valid() && Allowed(View(), Update(id, pad, body))
      modifies this
      ensures Valid() && View() == Do(old(View()), Update(id, pad, body))
      ensures version == NextVersion(EntryOf(old(View()), id))
    {
      hide Chain, FileOf, Indexed, Effect, Frame;
      DoKeeps(View(), Update(id, pad, body));
      version := 0;
      var chain: seq<FileRecord> := [];
      if id in records {
        chain := records[id];
        version := (chain[|chain| - 1].version + 1) % U32;
      }
      var offset := SaveRecord(Rec(id, pad, version, true, body));
      records := records[id := chain + [FileRecord(offset, version)]];
    }

    method FindVersion(chain: seq<FileRecord>, version: Word32) returns (k: nat)
      ensures k == FirstWith(chain, version)
    {
      k := 0;
      while k < |chain| && chain[k].version != version
        invariant k <= |chain|
        invariant FirstWith(chain, version) == k + FirstWith(chain[k..], version)
      {
        assert chain[k..][1..] == chain[k + 1..];
        k := k + 1;
      }
    }

    method ReplaceRecord(id: Id, version: Word32, pad: Buffer, body: Buffer) returns (r: Option<Word32>)
      requires Valid() && Allowed(View(), Replace(id, version, pad, body))
      modifies this
      ensures Valid() && View() == Do(old(View()), Replace(id, version, pad, body))
      ensures r == if id in old(records) && FirstWith(old(records)[id], version) < |old(records)[id]|
                   then Some(NextVersion(old(records)[id])) else None
    {
      hide Chain, FileOf, Indexed, Effect, Frame;
      DoKeeps(View(), Replace(id, version, pad, body));
      if id !in records {
        return None;
      }
      var k := FindVersion(records[id], version);
      if k == |records[id]| {
        return None;
      }
      var next := (records[id][|records[id]| - 1].version + 1) % U32;
      DisableRecord(id, k);
      var chain := records[id];
      var offset := SaveRecord(Rec(id, pad, next, true, body));
      records := records[id := chain + [FileRecord(offset, next)]];
      return Some(next);
    }

    method EraseOne(id: Id, version: Word32)
      requires Valid()
      modifies this
      ensures Valid() && View() == Do(old(View()), EraseVersion(id, version))
    {
      hide Chain, FileOf, Indexed, Effect, Frame;
      DoKeeps(View(), EraseVersion(id, version));
      if id in records {
        var k := FindVersion(records[id], version);
        if k < |records[id]| {
          DisableRecord(id, k);
        }
      }
    }

    method EraseAll(id: Id)
      requires Valid()
      modifies this
      ensures Valid() && View() == Do(old(View()), Erase(id))
    {
      hide Chain, FileOf, Indexed, Effect, Frame;
      DoKeeps(View(), Erase(id));
      if id !in records {
        return;
      }
      ghost var start := View();
      while records[id] != []
        invariant Valid() && id in records && SwitchOffAll(View(), id) == SwitchOffAll(start, id)
        decreases |records[id]|
      {
        DisableRecord(id, 0);
      }
      records := records - {id};
    }

    method Execute(c: Command)
      requires Valid() && Allowed(View(), c)
      modifies this
      ensures Valid() && View() == Do(old(View()), c)
    {
      hide Do, Allowed;
      match c
      case Save(id, pad, body) => var ok := SaveNew(id, pad, body);
      case Update(id, pad, body) => var version := UpdateRecord(id, pad, body);
      case Replace(id, version, pad, body) => var next := ReplaceRecord(id, version, pad, body);
      case EraseVersion(id, version) => EraseOne(id, version);
      case Erase(id) => EraseAll(id);
    }
  }

  /** A run on a new file, with all the bytes it leaves, and what a last loading of them reports: for every id exactly
      what the commands of the run mean for it. */
  method RunThenLoad(run: seq<Action>) returns (bytes: Buffer, reports: seq<(Id, Word32, Buffer)>)
    requires GoodRun(run)
    ensures bytes == FileOf(StoreAfter(run).log) && reports == Reported(StoreAfter(run).log)
    ensures forall id :: About(reports, id) == Meaning(run, id).live
  {
    hide Do, Meaning, Permitted, FileOf, Rebuild, Reported, About, Indexed, HeldOf;
    var storage := new FileStorage();
    assert run[..0] == [];
    assert StoreAfter([]) == Store([], map[]);
    var k := 0;
    while k < |run|
      invariant k <= |run| && fresh(storage) && storage.Valid()
      invariant GoodRun(run[..k]) && storage.View() == StoreAfter(run[..k])
    {
      GoodPrefix(run, k + 1);
      assert run[..k + 1][..k] == run[..k];
      TakenIs(storage.View(), run[..k + 1], Id(0, 0));
      if run[k].Call? {
        storage.Execute(run[k].command);
      } else {
        storage := new FileStorage.Open(storage.file, storage.log);
      }
      k := k + 1;
    }
    assert run[..k] == run;
    bytes := storage.file;
    var versionOk, records, told := Load(storage.file, storage.log);
    reports := told;
    forall id
      ensures About(reports, id) == Meaning(run, id).live
    {
      ReplayAfterAnyRun(run, id);
    }
  }
}
