/**
The two encoders of an order in src/OrderCodec.cpp, written out field by field: one appends to a string, the other
writes through a pointer and advances it.  Each is proved to produce the layout that the decoder reads.
*/
module OrderCodec {
  import opened Common
  import opened Bytes
  import opened LogFormat
  import opened Codec
  import opened Records

  const ORDER_FIELDS: nat := 32
  const ORDER_SIZE: nat := 272

  /** OrderCodec::decode at a position: the order and where it ends. */
  function DecodeOrder(id: Id, buf: Buffer, pos: nat): Option<(OrderEntry, nat)> {
    DecodedLength(Layout(OrderTag), buf, pos);
    match Decoded(Layout(OrderTag), buf, pos)
    case None => None
    case Some((fs, end)) => Some((OrderFrom(id, fs[..9], fs[9..17], fs[17..30], fs[30], fs[31]), end))
  }

  /** An encoded order decodes to the order without its execution instructions, whatever surrounds it. */
  lemma DecodesBack(pre: Buffer, o: OrderEntry, post: Buffer)
    ensures AllFieldsFit(OrderPieces(o))
    ensures var buf := pre + Encoded(OrderPieces(o)) + post;
            DecodeOrder(o.orderId, buf, |pre|) == Some((o.(execInstruct := {}), |pre| + |Encoded(OrderPieces(o))|))
  {
    hide OrderPieces, Decoded, Encoded, Layout, OrderFrom;
    PiecesFit(Order(o));
    LayoutFits(Order(o));
    FieldsBack(Order(o));
    DecodeEncoded(pre, OrderPieces(o), post);
  }

  // ---------------------------------------------------------------- the first fields of an order

  /** The bytes of the first `k` fields with their delimiters. */
  ghost function Prefix(o: OrderEntry, k: nat): Buffer
    requires k <= ORDER_FIELDS
  {
    PiecesFit(Order(o));
    Encoded(OrderPieces(o)[..k])
  }

  lemma {:induction false} EncodedSnoc(ps: seq<Piece>, k: nat)
    requires AllFieldsFit(ps) && k < |ps|
    ensures Encoded(ps[..k + 1]) == Encoded(ps[..k]) + PieceBytes(ps[k])
    decreases k
  {
    hide PieceBytes;
    if k == 0 {
      assert ps[..1] == [ps[0]] && ps[..0] == [];
      assert PieceBytes(ps[0]) + [] == [] + PieceBytes(ps[0]);
    } else {
      EncodedSnoc(ps[1..], k - 1);
      assert ps[..k + 1][1..] == ps[1..][..k] && ps[..k][1..] == ps[1..][..k - 1];
    }
  }

  lemma PrefixNext(o: OrderEntry, k: nat)
    requires k < ORDER_FIELDS
    ensures OrderPieces(o)[k].field.Fits() && Prefix(o, k + 1) == Prefix(o, k) + PieceBytes(OrderPieces(o)[k])
  {
    hide OrderPieces, Encoded, PieceBytes;
    PiecesFit(Order(o));
    EncodedSnoc(OrderPieces(o), k);
  }

  lemma PrefixEnds(o: OrderEntry)
    ensures Prefix(o, 0) == [] && AllFieldsFit(OrderPieces(o)) && Prefix(o, ORDER_FIELDS) == Encoded(OrderPieces(o))
  {
    PiecesFit(Order(o));
    assert OrderPieces(o)[..ORDER_FIELDS] == OrderPieces(o);
  }

  /** Where the `k`-th field starts. */
  function Place(k: nat): nat {
    if k <= 9 then 14 * k else if k <= 17 then 126 + 9 * (k - 9) else if k <= 31 then 198 + 5 * (k - 17) else ORDER_SIZE
  }

  lemma PieceLength(o: OrderEntry, k: nat)
    requires k < ORDER_FIELDS
    ensures OrderPieces(o)[k].field.Fits() && Place(k) + |PieceBytes(OrderPieces(o)[k])| == Place(k + 1)
  {
    hide Put32, Put64, OrderIds, OrderLongs, OrderWords;
    var fs := OrderIds(o) + OrderLongs(o) + OrderWords(o);
    assert k < 9 ==> fs[k] == OrderIds(o)[k];
    assert 9 <= k < 17 ==> fs[k] == OrderLongs(o)[k - 9];
    assert 17 <= k < 30 ==> fs[k] == OrderWords(o)[k - 17];
  }

  lemma {:induction false} PrefixLength(o: OrderEntry, k: nat)
    requires k <= ORDER_FIELDS
    ensures |Prefix(o, k)| == Place(k)
  {
    hide Prefix, OrderPieces, PieceBytes;
    if k == 0 {
      PrefixEnds(o);
    } else {
      PrefixLength(o, k - 1);
      PrefixNext(o, k - 1);
      PieceLength(o, k - 1);
    }
  }

  /** The fields in the order of the layout. */
  lemma IdPieces(o: OrderEntry)
    ensures var ps := OrderPieces(o);
            && ps[0] == Piece(Ident(o.instrument), Some(DOT)) && ps[1] == Piece(Ident(o.account), Some(DOT))
            && ps[2] == Piece(Ident(o.clearing), Some(DOT)) && ps[3] == Piece(Ident(o.destination), Some(DOT))
            && ps[4] == Piece(Ident(o.clOrderId), Some(DOT)) && ps[5] == Piece(Ident(o.origClOrderId), Some(DOT))
            && ps[6] == Piece(Ident(o.source), Some(DOT)) && ps[7] == Piece(Ident(o.executions), Some(DOT))
            && ps[8] == Piece(Ident(o.origOrderId), Some(DOT))
  {}

  lemma LongPieces(o: OrderEntry)
    ensures var ps := OrderPieces(o);
            && ps[9] == Piece(W64(o.creationTime), Some(DOT)) && ps[10] == Piece(W64(o.lastUpdateTime), Some(DOT))
            && ps[11] == Piece(W64(o.expireTime), Some(DOT)) && ps[12] == Piece(W64(o.settlDate), Some(DOT))
            && ps[13] == Piece(W64(o.price), Some(DOT)) && ps[14] == Piece(W64(o.stopPx), Some(DOT))
            && ps[15] == Piece(W64(o.avgPx), Some(DOT)) && ps[16] == Piece(W64(o.dayAvgPx), Some(DOT))
  {
    hide OrderIds, OrderWords;
  }

  lemma WordPieces(o: OrderEntry)
    ensures var ps := OrderPieces(o);
            && ps[17] == Piece(W32(o.status), Some(DOT)) && ps[18] == Piece(W32(o.side), Some(DOT))
            && ps[19] == Piece(W32(o.ordType), Some(DOT)) && ps[20] == Piece(W32(o.tif), Some(DOT))
            && ps[21] == Piece(W32(o.settlType), Some(DOT)) && ps[22] == Piece(W32(o.capacity), Some(DOT))
            && ps[23] == Piece(W32(o.currency), Some(DOT)) && ps[24] == Piece(W32(o.minQty), Some(DOT))
            && ps[25] == Piece(W32(o.orderQty), Some(DOT)) && ps[26] == Piece(W32(o.leavesQty), Some(DOT))
            && ps[27] == Piece(W32(o.cumQty), Some(DOT)) && ps[28] == Piece(W32(o.dayOrderQty), Some(DOT))
            && ps[29] == Piece(W32(o.dayCumQty), Some(DOT))
            && ps[30] == Piece(W32(o.zone1), Some(COLON)) && ps[31] == Piece(W32(o.zone2), None)
  {
    hide OrderIds, OrderLongs;
  }

  // ---------------------------------------------------------------- into a string

  /** The first `k` fields have been appended to `start`. */
  ghost predicate Appended(start: Buffer, o: OrderEntry, k: nat, buf: Buffer)
    requires k <= ORDER_FIELDS
  {
    buf == start + Prefix(o, k)
  }

  lemma FieldAppended(start: Buffer, o: OrderEntry, k: nat, buf: Buffer, bytes: Buffer)
    requires k < ORDER_FIELDS && Appended(start, o, k, buf)
    requires OrderPieces(o)[k].field.Fits() && bytes == PieceBytes(OrderPieces(o)[k])
    ensures Appended(start, o, k + 1, buf + bytes)
  {
    hide Prefix, OrderPieces, PieceBytes;
    PrefixNext(o, k);
    assert start + (Prefix(o, k) + bytes) == start + Prefix(o, k) + bytes;
  }

  /** IdT::serialize into a string, and the dot behind it. */
  method AppendId(buf: Buffer, id: Id, ghost start: Buffer, ghost o: OrderEntry, ghost k: nat) returns (r: Buffer)
    requires k < ORDER_FIELDS && OrderPieces(o)[k] == Piece(Ident(id), Some(DOT)) && Appended(start, o, k, buf)
    ensures Appended(start, o, k + 1, r)
  {
    hide Put32, Put64, OrderPieces, Appended;
    r := buf + Put32(id.date);
    r := r + [COLON];
    r := r + Put64(id.id);
    r := r + [DOT];
    FieldAppended(start, o, k, buf, PieceBytes(OrderPieces(o)[k]));
    assert r == buf + PieceBytes(OrderPieces(o)[k]);
  }

  method AppendLong(buf: Buffer, m: Word64, ghost start: Buffer, ghost o: OrderEntry, ghost k: nat) returns (r: Buffer)
    requires k < ORDER_FIELDS && OrderPieces(o)[k] == Piece(W64(m), Some(DOT)) && Appended(start, o, k, buf)
    ensures Appended(start, o, k + 1, r)
  {
    hide Put64, OrderPieces, Appended;
    r := buf + Put64(m);
    r := r + [DOT];
    FieldAppended(start, o, k, buf, PieceBytes(OrderPieces(o)[k]));
    assert r == buf + PieceBytes(OrderPieces(o)[k]);
  }

  method AppendWord(buf: Buffer, n: Word32, ghost start: Buffer, ghost o: OrderEntry, ghost k: nat) returns (r: Buffer)
    requires k < ORDER_FIELDS && OrderPieces(o)[k] == Piece(W32(n), Some(DOT)) && Appended(start, o, k, buf)
    ensures Appended(start, o, k + 1, r)
  {
    hide Put32, OrderPieces, Appended;
    r := buf + Put32(n);
    r := r + [DOT];
    FieldAppended(start, o, k, buf, PieceBytes(OrderPieces(o)[k]));
    assert r == buf + PieceBytes(OrderPieces(o)[k]);
  }

  /** OrderStatePersistence::serialize into a string. */
  method AppendState(buf: Buffer, zone1: Word32, zone2: Word32, ghost start: Buffer, ghost o: OrderEntry)
    returns (r: Buffer)
    requires zone1 == o.zone1 && zone2 == o.zone2 && Appended(start, o, 30, buf)
    ensures Appended(start, o, 32, r)
  {
    WordPieces(o);
    hide Put32, OrderPieces, Appended;
    r := buf + Put32(zone1);
    r := r + [COLON];
    ghost var mid := r;
    FieldAppended(start, o, 30, buf, PieceBytes(OrderPieces(o)[30]));
    assert mid == buf + PieceBytes(OrderPieces(o)[30]);
    r := r + Put32(zone2);
    FieldAppended(start, o, 31, mid, PieceBytes(OrderPieces(o)[31]));
    assert r == mid + PieceBytes(OrderPieces(o)[31]);
  }

  lemma AppendedStart(buf: Buffer, o: OrderEntry)
    ensures Appended(buf, o, 0, buf)
  {
    PrefixEnds(o);
    assert buf + [] == buf;
  }

  lemma AppendedEnd(buf: Buffer, o: OrderEntry, r: Buffer)
    requires Appended(buf, o, ORDER_FIELDS, r)
    ensures |r| == |buf| + ORDER_SIZE && r[..|buf|] == buf && r == buf + Prefix(o, ORDER_FIELDS)
    ensures DecodeOrder(o.orderId, r, |buf|) == Some((o.(execInstruct := {}), |r|))
  {
    PrefixLength(o, ORDER_FIELDS);
    hide OrderPieces, Prefix, DecodeOrder, Encoded;
    PrefixEnds(o);
    DecodesBack(buf, o, []);
    assert r == buf + Encoded(OrderPieces(o)) + [];
  }

  /** OrderCodec::encode into a string: decoding it where it was appended gives the order back. */
  method EncodeToString(o: OrderEntry, buf: Buffer) returns (r: Buffer)
    ensures |r| == |buf| + ORDER_SIZE && r[..|buf|] == buf
    ensures DecodeOrder(o.orderId, r, |buf|) == Some((o.(execInstruct := {}), |r|))
    ensures r == buf + Prefix(o, ORDER_FIELDS)
  {
    hide OrderPieces, Prefix, DecodeOrder, Appended;
    IdPieces(o);
    LongPieces(o);
    WordPieces(o);
    AppendedStart(buf, o);
    r := buf;
    r := AppendId(r, o.instrument, buf, o, 0);
    r := AppendId(r, o.account, buf, o, 1);
    r := AppendId(r, o.clearing, buf, o, 2);
    r := AppendId(r, o.destination, buf, o, 3);
    r := AppendId(r, o.clOrderId, buf, o, 4);
    r := AppendId(r, o.origClOrderId, buf, o, 5);
    r := AppendId(r, o.source, buf, o, 6);
    r := AppendId(r, o.executions, buf, o, 7);
    r := AppendId(r, o.origOrderId, buf, o, 8);
    r := AppendLong(r, o.creationTime, buf, o, 9);
    r := AppendLong(r, o.lastUpdateTime, buf, o, 10);
    r := AppendLong(r, o.expireTime, buf, o, 11);
    r := AppendLong(r, o.settlDate, buf, o, 12);
    r := AppendLong(r, o.price, buf, o, 13);
    r := AppendLong(r, o.stopPx, buf, o, 14);
    r := AppendLong(r, o.avgPx, buf, o, 15);
    r := AppendLong(r, o.dayAvgPx, buf, o, 16);
    r := AppendWord(r, o.status, buf, o, 17);
    r := AppendWord(r, o.side, buf, o, 18);
    r := AppendWord(r, o.ordType, buf, o, 19);
    r := AppendWord(r, o.tif, buf, o, 20);
    r := AppendWord(r, o.settlType, buf, o, 21);
    r := AppendWord(r, o.capacity, buf, o, 22);
    r := AppendWord(r, o.currency, buf, o, 23);
    r := AppendWord(r, o.minQty, buf, o, 24);
    r := AppendWord(r, o.orderQty, buf, o, 25);
    r := AppendWord(r, o.leavesQty, buf, o, 26);
    r := AppendWord(r, o.cumQty, buf, o, 27);
    r := AppendWord(r, o.dayOrderQty, buf, o, 28);
    r := AppendWord(r, o.dayCumQty, buf, o, 29);
    r := AppendState(r, o.zone1, o.zone2, buf, o);
    AppendedEnd(buf, o, r);
  }

  // ---------------------------------------------------------------- through a pointer

  /** `done` has been written from `start` up to `p`, and nothing else has changed. */
  ghost predicate Written(a: array<Byte>, was: Buffer, start: nat, done: Buffer, p: nat)
    reads a
  {
    |was| == a.Length && p == start + |done| <= a.Length && a[..] == was[..start] + done + was[p..]
  }

  lemma Spliced(was: Buffer, now: Buffer, p: nat, done: Buffer, bytes: Buffer)
    requires p + |done| + |bytes| <= |was| && now == was[..p] + done + was[p + |done|..]
    ensures var q := p + |done| + |bytes|;
            |now| == |was| && now[..p + |done|] + bytes + now[q..] == was[..p] + (done + bytes) + was[q..]
  {}

  /** memcpy and the pointer behind it. */
  method PutBytes(a: array<Byte>, p: nat, bytes: Buffer, ghost was: Buffer, ghost start: nat, ghost done: Buffer)
    returns (q: nat)
    requires Written(a, was, start, done, p) && p + |bytes| <= a.Length
    modifies a
    ensures Written(a, was, start, done + bytes, q) && q == p + |bytes|
  {
    ghost var now := a[..];
    Copy(a, p, bytes);
    q := p + |bytes|;
    Patched(now, a[..], p, bytes);
    Spliced(was, now, start, done, bytes);
  }

  method Copy(a: array<Byte>, p: nat, bytes: Buffer)
    requires p + |bytes| <= a.Length
    modifies a
    ensures forall j :: 0 <= j < a.Length ==> a[j] == if p <= j < p + |bytes| then bytes[j - p] else old(a[j])
  {
    for i := 0 to |bytes|
      invariant forall j :: 0 <= j < a.Length ==> a[j] == if p <= j < p + i then bytes[j - p] else old(a[j])
    {
      a[p + i] := bytes[i];
    }
  }

  lemma Patched(now: Buffer, after: Buffer, p: nat, bytes: Buffer)
    requires |after| == |now| && p + |bytes| <= |now|
    requires forall j :: 0 <= j < |after| ==> after[j] == if p <= j < p + |bytes| then bytes[j - p] else now[j]
    ensures after == now[..p] + bytes + now[p + |bytes|..]
  {}

  method PutByte(a: array<Byte>, p: nat, b: Byte, ghost was: Buffer, ghost start: nat, ghost done: Buffer)
    returns (q: nat)
    requires Written(a, was, start, done, p) && p < a.Length
    modifies a
    ensures Written(a, was, start, done + [b], q) && q == p + 1
  {
    ghost var now := a[..];
    a[p] := b;
    q := p + 1;
    Patched(now, a[..], p, [b]);
    Spliced(was, now, start, done, [b]);
  }

  /** The first `k` fields have been written, and there is room for the rest. */
  ghost predicate WrittenTo(a: array<Byte>, was: Buffer, start: nat, o: OrderEntry, k: nat, p: nat)
    requires k <= ORDER_FIELDS
    reads a
  {
    start + ORDER_SIZE <= a.Length && Written(a, was, start, Prefix(o, k), p)
  }

  /** There is room for the next field. */
  lemma RoomFor(a: array<Byte>, was: Buffer, start: nat, o: OrderEntry, k: nat, p: nat)
    requires k < ORDER_FIELDS && WrittenTo(a, was, start, o, k, p)
    ensures OrderPieces(o)[k].field.Fits() && p + |PieceBytes(OrderPieces(o)[k])| <= a.Length
  {
    PrefixLength(o, k);
    PieceLength(o, k);
    hide Prefix, OrderPieces, PieceBytes;
  }

  /** IdT::serialize through a pointer, and the dot behind it. */
  method WriteId(a: array<Byte>, p: nat, id: Id, ghost was: Buffer, ghost start: nat, ghost o: OrderEntry, ghost k: nat)
    returns (q: nat)
    requires k < ORDER_FIELDS && OrderPieces(o)[k] == Piece(Ident(id), Some(DOT)) && WrittenTo(a, was, start, o, k, p)
    modifies a
    ensures WrittenTo(a, was, start, o, k + 1, q)
  {
    hide Put32, Put64, OrderPieces, Prefix, Written;
    RoomFor(a, was, start, o, k, p);
    PrefixNext(o, k);
    ghost var done := Prefix(o, k);
    var d, i := Put32(id.date), Put64(id.id);
    q := PutBytes(a, p, d, was, start, done);
    q := PutByte(a, q, COLON, was, start, done + d);
    q := PutBytes(a, q, i, was, start, done + d + [COLON]);
    q := PutByte(a, q, DOT, was, start, done + d + [COLON] + i);
    assert done + d + [COLON] + i + [DOT] == done + ((d + [COLON] + i) + [DOT]);
  }

  method WriteLong(a: array<Byte>, p: nat, m: Word64, ghost was: Buffer, ghost start: nat, ghost o: OrderEntry,
                   ghost k: nat)
    returns (q: nat)
    requires k < ORDER_FIELDS && OrderPieces(o)[k] == Piece(W64(m), Some(DOT)) && WrittenTo(a, was, start, o, k, p)
    modifies a
    ensures WrittenTo(a, was, start, o, k + 1, q)
  {
    hide Put64, OrderPieces, Prefix, Written;
    RoomFor(a, was, start, o, k, p);
    PrefixNext(o, k);
    ghost var done := Prefix(o, k);
    q := PutBytes(a, p, Put64(m), was, start, done);
    q := PutByte(a, q, DOT, was, start, done + Put64(m));
    assert done + Put64(m) + [DOT] == done + (Put64(m) + [DOT]);
  }

  method WriteWord(a: array<Byte>, p: nat, n: Word32, ghost was: Buffer, ghost start: nat, ghost o: OrderEntry,
                   ghost k: nat)
    returns (q: nat)
    requires k < ORDER_FIELDS && OrderPieces(o)[k] == Piece(W32(n), Some(DOT)) && WrittenTo(a, was, start, o, k, p)
    modifies a
    ensures WrittenTo(a, was, start, o, k + 1, q)
  {
    hide Put32, OrderPieces, Prefix, Written;
    RoomFor(a, was, start, o, k, p);
    PrefixNext(o, k);
    ghost var done := Prefix(o, k);
    q := PutBytes(a, p, Put32(n), was, start, done);
    q := PutByte(a, q, DOT, was, start, done + Put32(n));
    assert done + Put32(n) + [DOT] == done + (Put32(n) + [DOT]);
  }

  /** OrderStatePersistence::serialize through a pointer. */
  method WriteState(a: array<Byte>, p: nat, zone1: Word32, zone2: Word32, ghost was: Buffer, ghost start: nat,
                    ghost o: OrderEntry)
    returns (q: nat)
    requires zone1 == o.zone1 && zone2 == o.zone2 && WrittenTo(a, was, start, o, 30, p)
    modifies a
    ensures WrittenTo(a, was, start, o, 32, q)
  {
    WordPieces(o);
    hide Put32, OrderPieces, Prefix, Written;
    RoomFor(a, was, start, o, 30, p);
    PrefixNext(o, 30);
    ghost var done := Prefix(o, 30);
    q := PutBytes(a, p, Put32(zone1), was, start, done);
    q := PutByte(a, q, COLON, was, start, done + Put32(zone1));
    assert done + Put32(zone1) + [COLON] == done + (Put32(zone1) + [COLON]);
    RoomFor(a, was, start, o, 31, q);
    PrefixNext(o, 31);
    assert Put32(zone2) + [] == Put32(zone2);
    q := PutBytes(a, q, Put32(zone2), was, start, Prefix(o, 31));
  }

  lemma WrittenStart(a: array<Byte>, p: nat, o: OrderEntry)
    requires p + ORDER_SIZE <= a.Length
    ensures WrittenTo(a, a[..], p, o, 0, p)
  {
    PrefixEnds(o);
    assert a[..] == a[..][..p] + [] + a[..][p..];
  }

  lemma WrittenEnd(a: array<Byte>, was: Buffer, p: nat, o: OrderEntry, q: nat)
    requires WrittenTo(a, was, p, o, ORDER_FIELDS, q)
    ensures q == p + ORDER_SIZE && a[..p] == was[..p] && a[q..] == was[q..] && a[p..q] == Prefix(o, ORDER_FIELDS)
    ensures DecodeOrder(o.orderId, a[..], p) == Some((o.(execInstruct := {}), q))
  {
    PrefixLength(o, ORDER_FIELDS);
    hide OrderPieces, Prefix, DecodeOrder, Encoded;
    PrefixEnds(o);
    DecodesBack(was[..p], o, was[q..]);
  }

  /** OrderCodec::encode through a pointer into a buffer that is large enough: decoding it where it was written gives
      the order back, and nothing else is touched. */
  method EncodeToArray(o: OrderEntry, a: array<Byte>, p: nat) returns (q: nat)
    requires p + ORDER_SIZE <= a.Length
    modifies a
    ensures q == p + ORDER_SIZE && a[..p] == old(a[..p]) && a[q..] == old(a[q..])
    ensures DecodeOrder(o.orderId, a[..], p) == Some((o.(execInstruct := {}), q))
    ensures a[p..q] == Prefix(o, ORDER_FIELDS)
  {
    hide OrderPieces, Prefix, DecodeOrder, WrittenTo;
    IdPieces(o);
    LongPieces(o);
    WordPieces(o);
    ghost var was := a[..];
    WrittenStart(a, p, o);
    q := p;
    q := WriteId(a, q, o.instrument, was, p, o, 0);
    q := WriteId(a, q, o.account, was, p, o, 1);
    q := WriteId(a, q, o.clearing, was, p, o, 2);
    q := WriteId(a, q, o.destination, was, p, o, 3);
    q := WriteId(a, q, o.clOrderId, was, p, o, 4);
    q := WriteId(a, q, o.origClOrderId, was, p, o, 5);
    q := WriteId(a, q, o.source, was, p, o, 6);
    q := WriteId(a, q, o.executions, was, p, o, 7);
    q := WriteId(a, q, o.origOrderId, was, p, o, 8);
    q := WriteLong(a, q, o.creationTime, was, p, o, 9);
    q := WriteLong(a, q, o.lastUpdateTime, was, p, o, 10);
    q := WriteLong(a, q, o.expireTime, was, p, o, 11);
    q := WriteLong(a, q, o.settlDate, was, p, o, 12);
    q := WriteLong(a, q, o.price, was, p, o, 13);
    q := WriteLong(a, q, o.stopPx, was, p, o, 14);
    q := WriteLong(a, q, o.avgPx, was, p, o, 15);
    q := WriteLong(a, q, o.dayAvgPx, was, p, o, 16);
    q := WriteWord(a, q, o.status, was, p, o, 17);
    q := WriteWord(a, q, o.side, was, p, o, 18);
    q := WriteWord(a, q, o.ordType, was, p, o, 19);
    q := WriteWord(a, q, o.tif, was, p, o, 20);
    q := WriteWord(a, q, o.settlType, was, p, o, 21);
    q := WriteWord(a, q, o.capacity, was, p, o, 22);
    q := WriteWord(a, q, o.currency, was, p, o, 23);
    q := WriteWord(a, q, o.minQty, was, p, o, 24);
    q := WriteWord(a, q, o.orderQty, was, p, o, 25);
    q := WriteWord(a, q, o.leavesQty, was, p, o, 26);
    q := WriteWord(a, q, o.cumQty, was, p, o, 27);
    q := WriteWord(a, q, o.dayOrderQty, was, p, o, 28);
    q := WriteWord(a, q, o.dayCumQty, was, p, o, 29);
    q := WriteState(a, q, o.zone1, o.zone2, was, p, o);
    WrittenEnd(a, was, p, o, q);
  }

  /** Both write the same bytes. */
  method EncodeBothWays(o: OrderEntry, buf: Buffer, a: array<Byte>, p: nat) returns (r: Buffer, q: nat)
    requires p + ORDER_SIZE <= a.Length
    modifies a
    ensures |buf| <= |r| && p <= q <= a.Length && a[p..q] == r[|buf|..]
  {
    hide Prefix, DecodeOrder;
    r := EncodeToString(o, buf);
    q := EncodeToArray(o, a, p);
    assert r[|buf|..] == Prefix(o, ORDER_FIELDS);
  }
}
