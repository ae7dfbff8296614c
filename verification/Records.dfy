/**
The persistent records and the dispatcher that tags, saves and restores them (src/StorageRecordDispatcher.cpp): what
loading gives back is what was saved, except for the execution instructions of an order, which are not encoded.
*/
module Records {
  import opened Common
  import opened Bytes
  import opened LogFormat
  import opened FileLog
  import opened Codec

  /** An order; prices, enumerations and machine states are their bit patterns. */
  datatype OrderEntry = OrderEntry(
    orderId: Id, instrument: Id, account: Id, clearing: Id, destination: Id, clOrderId: Id, origClOrderId: Id,
    source: Id, executions: Id, origOrderId: Id,
    creationTime: Word64, lastUpdateTime: Word64, expireTime: Word64, settlDate: Word64,
    price: Word64, stopPx: Word64, avgPx: Word64, dayAvgPx: Word64,
    status: Word32, side: Word32, ordType: Word32, tif: Word32, settlType: Word32, capacity: Word32, currency: Word32,
    minQty: Word32, orderQty: Word32, leavesQty: Word32, cumQty: Word32, dayOrderQty: Word32, dayCumQty: Word32,
    zone1: Word32, zone2: Word32,
    execInstruct: set<Word32>)

  datatype Record =
    | Instrument(id: Id, symbol: Buffer, securityId: Buffer, securityIdSource: Buffer)
    | String(id: Id, value: Buffer)
    | Account(id: Id, account: Buffer, firm: Buffer, accountType: Word32)
    | Clearing(id: Id, clearingFirm: Buffer)
    | RawData(id: Id, dataType: Word32, data: Buffer)
    | Order(order: OrderEntry)

  function IdOfRecord(r: Record): Id {
    if r.Order? then r.order.orderId else r.id
  }

  /** Strings have 64-bit and raw data 32-bit lengths. */
  predicate Encodable(r: Record) {
    match r
    case Instrument(_, a, b, c) => |a| < U64 && |b| < U64 && |c| < U64
    case String(_, v) => |v| < U64
    case Account(_, a, f, _) => |a| < U64 && |f| < U64
    case Clearing(_, f) => |f| < U64
    case RawData(_, _, d) => |d| < U32
    case Order(_) => true
  }

  // ---------------------------------------------------------------- layouts

  function Dotted(fs: seq<Field>): (ps: seq<Piece>)
    ensures |ps| == |fs|
  {
    seq(|fs|, i requires 0 <= i < |fs| => Piece(fs[i], Some(DOT)))
  }

  function OrderIds(o: OrderEntry): (fs: seq<Field>)
    ensures |fs| == 9 && forall i :: 0 <= i < 9 ==> fs[i].Ident?
  {
    [Ident(o.instrument), Ident(o.account), Ident(o.clearing), Ident(o.destination), Ident(o.clOrderId),
     Ident(o.origClOrderId), Ident(o.source), Ident(o.executions), Ident(o.origOrderId)]
  }

  function OrderLongs(o: OrderEntry): (fs: seq<Field>)
    ensures |fs| == 8 && forall i :: 0 <= i < 8 ==> fs[i].W64?
  {
    [W64(o.creationTime), W64(o.lastUpdateTime), W64(o.expireTime), W64(o.settlDate),
     W64(o.price), W64(o.stopPx), W64(o.avgPx), W64(o.dayAvgPx)]
  }

  function OrderWords(o: OrderEntry): (fs: seq<Field>)
    ensures |fs| == 13 && forall i :: 0 <= i < 13 ==> fs[i].W32?
  {
    [W32(o.status), W32(o.side), W32(o.ordType), W32(o.tif), W32(o.settlType), W32(o.capacity), W32(o.currency),
     W32(o.minQty), W32(o.orderQty), W32(o.leavesQty), W32(o.cumQty), W32(o.dayOrderQty), W32(o.dayCumQty)]
  }

  /** Everything but the id, which is the key of the record, and the execution instructions. */
  function OrderPieces(o: OrderEntry): (ps: seq<Piece>)
    ensures |ps| == 32
  {
    Dotted(OrderIds(o) + OrderLongs(o) + OrderWords(o)) + [Piece(W32(o.zone1), Some(COLON)), Piece(W32(o.zone2), None)]
  }

  function Pieces(r: Record): seq<Piece> {
    match r
    case Instrument(_, a, b, c) => Dotted([Text(a), Text(b)]) + [Piece(Text(c), None)]
    case String(_, v) => [Piece(Text(v), None)]
    case Account(_, a, f, t) => Dotted([Text(a), Text(f)]) + [Piece(W32(t), None)]
    case Clearing(_, f) => [Piece(Text(f), None)]
    case RawData(_, t, d) => Dotted([W32(t)]) + [Piece(Blob(d), None)]
    case Order(o) => OrderPieces(o)
  }

  lemma PiecesFit(r: Record)
    requires Encodable(r)
    ensures AllFieldsFit(Pieces(r))
  {
    hide OrderIds, OrderLongs, OrderWords;
    if r.Order? {
      var o := r.order;
      var fs := OrderIds(o) + OrderLongs(o) + OrderWords(o);
      assert forall i :: 0 <= i < |fs| ==> fs[i].Fits();
    }
  }

  // ---------------------------------------------------------------- the tags

  datatype Tag = InstrumentTag | StringTag | AccountTag | ClearingTag | RawDataTag | OrderTag

  function TagOf(r: Record): Tag {
    match r
    case Instrument(_, _, _, _) => InstrumentTag
    case String(_, _) => StringTag
    case Account(_, _, _, _) => AccountTag
    case Clearing(_, _) => ClearingTag
    case RawData(_, _, _) => RawDataTag
    case Order(_) => OrderTag
  }

  function TagNumber(t: Tag): Word32 {
    match t
    case InstrumentTag => 1
    case StringTag => 2
    case AccountTag => 3
    case ClearingTag => 4
    case RawDataTag => 5
    case OrderTag => 6
  }

  const EXECUTION_RECORDTYPE: Word32 := 7
  const EXECUTIONS_RECORDTYPE: Word32 := 8

  function Repeat(slot: Slot, n: nat): (s: seq<Slot>)
    ensures |s| == n
  {
    seq(n, i => slot)
  }

  function Layout(t: Tag): seq<Slot> {
    match t
    case InstrumentTag => Repeat(Slot(KText, Some(DOT)), 2) + [Slot(KText, None)]
    case StringTag => [Slot(KText, None)]
    case AccountTag => Repeat(Slot(KText, Some(DOT)), 2) + [Slot(K32, None)]
    case ClearingTag => [Slot(KText, None)]
    case RawDataTag => Repeat(Slot(K32, Some(DOT)), 1) + [Slot(KBlob, None)]
    case OrderTag =>
      Repeat(Slot(KId, Some(DOT)), 9) + Repeat(Slot(K64, Some(DOT)), 8) + Repeat(Slot(K32, Some(DOT)), 13) +
      [Slot(K32, Some(COLON)), Slot(K32, None)]
  }

  lemma LayoutFits(r: Record)
    ensures Slots(Pieces(r)) == Layout(TagOf(r))
  {
    hide OrderIds, OrderLongs, OrderWords;
    if r.Order? {
      var o := r.order;
      var fs := OrderIds(o) + OrderLongs(o) + OrderWords(o);
      assert forall i :: 0 <= i < 9 ==> fs[i] == OrderIds(o)[i];
      assert forall i :: 9 <= i < 17 ==> fs[i] == OrderLongs(o)[i - 9];
      assert forall i :: 17 <= i < 30 ==> fs[i] == OrderWords(o)[i - 17];
    }
  }

  // ---------------------------------------------------------------- from fields to records

  function IdIn(f: Field): Id { if f.Ident? then f.id else Id(0, 0) }
  function LongIn(f: Field): Word64 { if f.W64? then f.m else 0 }
  function WordIn(f: Field): Word32 { if f.W32? then f.n else 0 }
  function TextIn(f: Field): Buffer { if f.Text? then f.chars else [] }
  function BlobIn(f: Field): Buffer { if f.Blob? then f.data else [] }

  function OrderFrom(id: Id, a: seq<Field>, b: seq<Field>, c: seq<Field>, z1: Field, z2: Field): OrderEntry
    requires |a| == 9 && |b| == 8 && |c| == 13
  {
    OrderEntry(id, IdIn(a[0]), IdIn(a[1]), IdIn(a[2]), IdIn(a[3]), IdIn(a[4]), IdIn(a[5]), IdIn(a[6]), IdIn(a[7]),
               IdIn(a[8]),
               LongIn(b[0]), LongIn(b[1]), LongIn(b[2]), LongIn(b[3]),
               LongIn(b[4]), LongIn(b[5]), LongIn(b[6]), LongIn(b[7]),
               WordIn(c[0]), WordIn(c[1]), WordIn(c[2]), WordIn(c[3]), WordIn(c[4]), WordIn(c[5]), WordIn(c[6]),
               WordIn(c[7]), WordIn(c[8]), WordIn(c[9]), WordIn(c[10]), WordIn(c[11]), WordIn(c[12]),
               WordIn(z1), WordIn(z2), {})
  }

  function FromFields(t: Tag, id: Id, fs: seq<Field>): Record
    requires |fs| == |Layout(t)|
  {
    match t
    case InstrumentTag => Instrument(id, TextIn(fs[0]), TextIn(fs[1]), TextIn(fs[2]))
    case StringTag => String(id, TextIn(fs[0]))
    case AccountTag => Account(id, TextIn(fs[0]), TextIn(fs[1]), WordIn(fs[2]))
    case ClearingTag => Clearing(id, TextIn(fs[0]))
    case RawDataTag => RawData(id, WordIn(fs[0]), BlobIn(fs[1]))
    case OrderTag => Order(OrderFrom(id, fs[..9], fs[9..17], fs[17..30], fs[30], fs[31]))
  }

  /** What survives encoding. */
  function Kept(r: Record): Record {
    if r.Order? then Order(r.order.(execInstruct := {})) else r
  }

  lemma OrderBack(o: OrderEntry)
    ensures OrderFrom(o.orderId, OrderIds(o), OrderLongs(o), OrderWords(o), W32(o.zone1), W32(o.zone2)) ==
            o.(execInstruct := {})
  {}

  lemma FieldsBack(r: Record)
    ensures |FieldsOf(Pieces(r))| == |Layout(TagOf(r))|
    ensures FromFields(TagOf(r), IdOfRecord(r), FieldsOf(Pieces(r))) == Kept(r)
  {
    hide OrderIds, OrderLongs, OrderWords, OrderFrom;
    if r.Order? {
      var o, fs := r.order, FieldsOf(Pieces(r));
      assert fs[..9] == OrderIds(o);
      assert fs[9..17] == OrderLongs(o);
      assert fs[17..30] == OrderWords(o);
      OrderBack(o);
    }
  }

  // ---------------------------------------------------------------- saving and loading

  /** What the dispatcher hands to the file storage. */
  function Saved(r: Record): Buffer
    requires Encodable(r)
  {
    PiecesFit(r);
    Put32(TagNumber(TagOf(r))) + Encoded(Pieces(r))
  }

  /** What becomes of a loaded record: restored, skipped, or refused with an exception. */
  datatype Loaded = Restored(record: Record) | Skipped | Refused

  function TagFor(n: nat): Option<Tag> {
    if n == 1 then Some(InstrumentTag) else if n == 2 then Some(StringTag) else if n == 3 then Some(AccountTag)
    else if n == 4 then Some(ClearingTag) else if n == 5 then Some(RawDataTag) else if n == 6 then Some(OrderTag)
    else None
  }

  lemma {:induction false} DecodedLength(slots: seq<Slot>, buf: Buffer, pos: nat)
    ensures Decoded(slots, buf, pos).Some? ==> |Decoded(slots, buf, pos).value.0| == |slots|
    decreases |slots|
  {
    hide ReadField;
    if slots != [] {
      var f := ReadField(slots[0].kind, buf, pos);
      if f.Some? {
        DecodedLength(slots[1..], buf, f.value.1 + |DelimiterBytes(slots[0].delimiter)|);
      }
    }
  }

  /** StorageRecordDispatcher::onRecordLoaded. */
  function OnRecordLoaded(id: Id, body: Buffer): Loaded {
    if |body| < 4 then Refused
    else
      var n := Number(body[..4]);
      if n == EXECUTION_RECORDTYPE || n == EXECUTIONS_RECORDTYPE then Skipped
      else
        match TagFor(n)
        case None => Refused
        case Some(t) =>
          DecodedLength(Layout(t), body, 4);
          match Decoded(Layout(t), body, 4)
          case None => Refused
          case Some((fs, _)) => Restored(FromFields(t, id, fs))
  }

  lemma LoadsBack(r: Record, rest: Buffer)
    requires Encodable(r)
    ensures OnRecordLoaded(IdOfRecord(r), Saved(r) + rest) == Restored(Kept(r))
  {
    hide FromFields, Pieces, Layout, Encoded, Put32, Number, Decoded;
    PiecesFit(r);
    var ps, head := Pieces(r), Put32(TagNumber(TagOf(r)));
    Get32(TagNumber(TagOf(r)));
    var body := Saved(r) + rest;
    assert body[..4] == head;
    assert body == head + Encoded(ps) + rest;
    DecodeEncoded(head, ps, rest);
    LayoutFits(r);
    FieldsBack(r);
  }

  /** Loading what save wrote yields the record, for every kind of record; of an order everything but its execution
      instructions. */
  lemma SaveThenLoad(r: Record)
    requires Encodable(r)
    ensures OnRecordLoaded(IdOfRecord(r), Saved(r)) == Restored(Kept(r))
  {
    LoadsBack(r, []);
    assert Saved(r) + [] == Saved(r);
  }

  // ---------------------------------------------------------------- what can be restored

  predicate KindsMatch(t: Tag, fs: seq<Field>) {
    |fs| == |Layout(t)| && forall i :: 0 <= i < |fs| ==> KindOf(fs[i]) == Layout(t)[i].kind && fs[i].Fits()
  }

  lemma OrderKinds(fs: seq<Field>)
    requires KindsMatch(OrderTag, fs)
    ensures |fs| == 32 && forall i :: 0 <= i < 9 ==> fs[i].Ident?
    ensures forall i :: 9 <= i < 17 ==> fs[i].W64?
    ensures forall i :: 17 <= i < 32 ==> fs[i].W32?
  {
    forall i | 0 <= i < 32
      ensures KindOf(fs[i]) == if i < 9 then KId else if i < 17 then K64 else K32
    {
      assert Layout(OrderTag)[i].kind == if i < 9 then KId else if i < 17 then K64 else K32;
    }
  }

  lemma OrderOfFields(id: Id, fs: seq<Field>)
    requires KindsMatch(OrderTag, fs)
    ensures var o := OrderFrom(id, fs[..9], fs[9..17], fs[17..30], fs[30], fs[31]);
            && OrderIds(o) == fs[..9] && OrderLongs(o) == fs[9..17] && OrderWords(o) == fs[17..30]
            && W32(o.zone1) == fs[30] && W32(o.zone2) == fs[31] && o.orderId == id && o.execInstruct == {}
  {
    hide KindsMatch;
    OrderKinds(fs);
    IdsBack(id, fs[..9], fs[9..17], fs[17..30], fs[30], fs[31]);
    LongsBack(id, fs[..9], fs[9..17], fs[17..30], fs[30], fs[31]);
    WordsBack(id, fs[..9], fs[9..17], fs[17..30], fs[30], fs[31]);
  }

  lemma IdsBack(id: Id, a: seq<Field>, b: seq<Field>, c: seq<Field>, z1: Field, z2: Field)
    requires |a| == 9 && |b| == 8 && |c| == 13 && forall i :: 0 <= i < 9 ==> a[i].Ident?
    ensures OrderIds(OrderFrom(id, a, b, c, z1, z2)) == a
  {}

  lemma LongsBack(id: Id, a: seq<Field>, b: seq<Field>, c: seq<Field>, z1: Field, z2: Field)
    requires |a| == 9 && |b| == 8 && |c| == 13 && forall i :: 0 <= i < 8 ==> b[i].W64?
    ensures OrderLongs(OrderFrom(id, a, b, c, z1, z2)) == b
  {}

  lemma WordsBack(id: Id, a: seq<Field>, b: seq<Field>, c: seq<Field>, z1: Field, z2: Field)
    requires |a| == 9 && |b| == 8 && |c| == 13 && forall i :: 0 <= i < 13 ==> c[i].W32?
    ensures OrderWords(OrderFrom(id, a, b, c, z1, z2)) == c
  {}

  lemma OrderLaid(id: Id, fs: seq<Field>)
    requires KindsMatch(OrderTag, fs)
    ensures OrderPieces(OrderFrom(id, fs[..9], fs[9..17], fs[17..30], fs[30], fs[31])) == Laid(Layout(OrderTag), fs)
  {
    hide OrderFrom, OrderIds, OrderLongs, OrderWords, KindsMatch;
    OrderKinds(fs);
    OrderOfFields(id, fs);
    assert fs[..9] + fs[9..17] + fs[17..30] == fs[..30];
    var ps := Dotted(fs[..30]) + [Piece(fs[30], Some(COLON)), Piece(fs[31], None)];
    forall i | 0 <= i < 32
      ensures ps[i] == Laid(Layout(OrderTag), fs)[i]
    {
      assert Layout(OrderTag)[i].delimiter == if i < 30 then Some(DOT) else if i == 30 then Some(COLON) else None;
    }
  }

  /** The record made of fields has these fields. */
  lemma FromFieldsIs(t: Tag, id: Id, fs: seq<Field>)
    requires KindsMatch(t, fs)
    ensures var r := FromFields(t, id, fs);
            TagOf(r) == t && IdOfRecord(r) == id && Kept(r) == r && Encodable(r) && Pieces(r) == Laid(Layout(t), fs)
  {
    hide OrderFrom, OrderPieces;
    if t.OrderTag? {
      OrderLaid(id, fs);
      OrderOfFields(id, fs);
    } else {
      SmallLaid(t, id, fs);
    }
  }

  lemma SmallLaid(t: Tag, id: Id, fs: seq<Field>)
    requires KindsMatch(t, fs) && !t.OrderTag?
    ensures var r := FromFields(t, id, fs);
            TagOf(r) == t && IdOfRecord(r) == id && Kept(r) == r && Encodable(r) && Pieces(r) == Laid(Layout(t), fs)
  {
    hide OrderFrom, OrderPieces;
    assert KindOf(fs[0]) == Layout(t)[0].kind;
    if |fs| > 1 {
      assert KindOf(fs[1]) == Layout(t)[1].kind;
    }
    if |fs| > 2 {
      assert KindOf(fs[2]) == Layout(t)[2].kind;
    }
  }

  lemma RestoredIsSaved(id: Id, body: Buffer, r: Record)
    requires OnRecordLoaded(id, body) == Restored(r)
    ensures IdOfRecord(r) == id && Kept(r) == r && Encodable(r) && Saved(r) <= body
  {
    hide FromFields, Pieces, Layout, Encoded, Put32, Number, Decoded, Kept, Encodable;
    var n := Number(body[..4]);
    var t := TagFor(n).value;
    DecodedLength(Layout(t), body, 4);
    var (fs, end) := Decoded(Layout(t), body, 4).value;
    DecodedIsLaid(Layout(t), body, 4, fs, end);
    FromFieldsIs(t, id, fs);
    Word32Of(body[..4]);
    PiecesFit(r);
    assert body[..end] == body[..4] + body[4..end];
  }

  /** A record is restored if and only if the body starts with what saving it writes; the two kinds of execution records
      are skipped, and everything else is refused. */
  lemma LoadedIff(id: Id, body: Buffer, r: Record)
    ensures OnRecordLoaded(id, body) == Restored(r) <==>
            IdOfRecord(r) == id && Kept(r) == r && Encodable(r) && Saved(r) <= body
    ensures OnRecordLoaded(id, body).Skipped? <==>
            Put32(EXECUTION_RECORDTYPE) <= body || Put32(EXECUTIONS_RECORDTYPE) <= body
  {
    SkippedIff(id, body);
    hide Decoded, Saved, Encodable, FromFields, Layout, Put32, Number;
    if OnRecordLoaded(id, body) == Restored(r) {
      RestoredIsSaved(id, body, r);
    }
    if IdOfRecord(r) == id && Kept(r) == r && Encodable(r) && Saved(r) <= body {
      assert body == Saved(r) + body[|Saved(r)|..];
      LoadsBack(r, body[|Saved(r)|..]);
    }
  }

  lemma SkippedIff(id: Id, body: Buffer)
    ensures OnRecordLoaded(id, body).Skipped? <==>
            Put32(EXECUTION_RECORDTYPE) <= body || Put32(EXECUTIONS_RECORDTYPE) <= body
  {
    hide Decoded, FromFields, Layout, Put32, Number;
    StartsWith(EXECUTION_RECORDTYPE, body);
    StartsWith(EXECUTIONS_RECORDTYPE, body);
  }

  lemma StartsWith(n: Word32, body: Buffer)
    ensures Put32(n) <= body <==> |body| >= 4 && Number(body[..4]) == n
  {
    hide Put32, Number;
    Get32(n);
    if |body| >= 4 {
      Word32Of(body[..4]);
      assert Put32(n) <= body ==> body[..4] == Put32(n);
    }
  }

  // ---------------------------------------------------------------- through the file

  /** Whatever run left the record's bytes as a version of its id, across sessions: what loading the file reports at
      that place restores the record. */
  lemma ThroughTheFile(run: seq<Action>, r: Record, k: nat)
    requires GoodRun(run) && Encodable(r) && k < |Meaning(run, IdOfRecord(r)).live|
    requires Meaning(run, IdOfRecord(r)).live[k].1 == Saved(r)
    ensures var reports := About(Reported(StoreAfter(run).log), IdOfRecord(r));
            k < |reports| && OnRecordLoaded(IdOfRecord(r), reports[k].1) == Restored(Kept(r))
  {
    ReplayAfterAnyRun(run, IdOfRecord(r));
    hide About, Reported, Saved, OnRecordLoaded, Meaning, StoreAfter;
    SaveThenLoad(r);
  }

  /** The dispatcher's saves of a list of records. */
  function Saves(rs: seq<Record>, pad: Buffer): (run: seq<Action>)
    requires forall i :: 0 <= i < |rs| ==> Encodable(rs[i])
    ensures |run| == |rs|
  {
    seq(|rs|, i requires 0 <= i < |rs| => Call(Save(IdOfRecord(rs[i]), pad, Saved(rs[i]))))
  }

  /** The first record with an id. */
  function FirstOf(rs: seq<Record>, id: Id): Option<Record> {
    if rs == [] then None
    else
      var before, last := FirstOf(rs[..|rs| - 1], id), rs[|rs| - 1];
      if before.Some? then before else if IdOfRecord(last) == id then Some(last) else None
  }

  lemma {:induction false} FirstIsOneOf(rs: seq<Record>, id: Id)
    requires forall i :: 0 <= i < |rs| ==> Encodable(rs[i])
    ensures var f := FirstOf(rs, id); f.Some? ==> Encodable(f.value) && IdOfRecord(f.value) == id
  {
    if rs != [] {
      FirstIsOneOf(rs[..|rs| - 1], id);
    }
  }

  lemma {:induction false} SavesMean(rs: seq<Record>, pad: Buffer, id: Id)
    requires forall i :: 0 <= i < |rs| ==> Encodable(rs[i])
    ensures var f := FirstOf(rs, id);
            && (f.None? ==> Meaning(Saves(rs, pad), id) == NOTHING)
            && (f.Some? ==> Encodable(f.value) && Meaning(Saves(rs, pad), id) == Held(true, [(0, Saved(f.value))]))
    decreases |rs|
  {
    hide Saved;
    FirstIsOneOf(rs, id);
    if rs != [] {
      var n := |rs| - 1;
      SavesMean(rs[..n], pad, id);
      assert Saves(rs, pad)[..n] == Saves(rs[..n], pad);
      assert FirstOf(rs[..n], id).None? ==> [] + [(0, Saved(rs[n]))] == [(0, Saved(rs[n]))];
    }
  }

  lemma SavesAreGood(rs: seq<Record>, pad: Buffer)
    requires |pad| == 4
    requires forall i :: 0 <= i < |rs| ==> Encodable(rs[i]) && |Saved(rs[i])| + OVERHEAD < U32
    ensures GoodRun(Saves(rs, pad))
  {
    hide Meaning, Pieces;
    var run := Saves(rs, pad);
    forall i | 0 <= i < |run| && run[i].Call?
      ensures Permitted(Meaning(run[..i], run[i].command.id), run[i].command)
    {
      assert |Saved(rs[i])| >= 4;
    }
  }

  /** Saving records of any kind to a new file and loading it restores, for every id, exactly the first record saved
      under it: the storage refuses to save an id again. */
  method SaveAllThenLoad(rs: seq<Record>, pad: Buffer) returns (bytes: Buffer, reports: seq<(Id, Word32, Buffer)>)
    requires |pad| == 4
    requires forall i :: 0 <= i < |rs| ==> Encodable(rs[i]) && |Saved(rs[i])| + OVERHEAD < U32
    ensures forall id :: FirstOf(rs, id).None? ==> About(reports, id) == []
    ensures forall id :: FirstOf(rs, id).Some? ==>
              && |About(reports, id)| == 1
              && OnRecordLoaded(id, About(reports, id)[0].1) == Restored(Kept(FirstOf(rs, id).value))
  {
    hide Saved, OnRecordLoaded, Meaning, About, StoreAfter, FirstOf, GoodRun;
    SavesAreGood(rs, pad);
    bytes, reports := RunThenLoad(Saves(rs, pad));
    forall id
      ensures FirstOf(rs, id).None? ==> About(reports, id) == []
      ensures FirstOf(rs, id).Some? ==>
                && |About(reports, id)| == 1
                && OnRecordLoaded(id, About(reports, id)[0].1) == Restored(Kept(FirstOf(rs, id).value))
    {
      SavesMean(rs, pad, id);
      FirstIsOneOf(rs, id);
      if FirstOf(rs, id).Some? {
        SaveThenLoad(FirstOf(rs, id).value);
      }
    }
  }
}
