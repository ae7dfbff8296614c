/**
The layout of encoded records (src/OrderCodec.cpp, src/StringTCodec.cpp and the codecs beside them): a list of
fields, most of them followed by a delimiter.  Decoding checks every size and delimiter on its way.
*/
module Codec {
  import opened Common
  import opened Bytes
  import opened LogFormat

  /** A field: a 32-bit or 64-bit word, an IdT, a StringT, or raw data with its 32-bit length.  Enumerations and signed
      numbers are their bit patterns, and so are prices. */
  datatype Field = W32(n: Word32) | W64(m: Word64) | Ident(id: Id) | Text(chars: Buffer) | Blob(data: Buffer) {
    predicate Fits() {
      match this
      case Text(chars) => |chars| < U64
      case Blob(data) => |data| < U32
      case _ => true
    }
  }

  datatype Kind = K32 | K64 | KId | KText | KBlob

  function KindOf(f: Field): Kind {
    match f
    case W32(_) => K32
    case W64(_) => K64
    case Ident(_) => KId
    case Text(_) => KText
    case Blob(_) => KBlob
  }

  /** A field and the delimiter behind it, if any. */
  datatype Piece = Piece(field: Field, delimiter: Option<Byte>)

  datatype Slot = Slot(kind: Kind, delimiter: Option<Byte>)

  // ---------------------------------------------------------------- one field

  function FieldBytes(f: Field): Buffer
    requires f.Fits()
  {
    match f
    case W32(n) => Put32(n)
    case W64(m) => Put64(m)
    case Ident(id) => Put32(id.date) + [COLON] + Put64(id.id)
    case Text(chars) => Put64(|chars|) + chars
    case Blob(data) => Put32(|data|) + [DOT] + data
  }

  function ByteAt(buf: Buffer, pos: nat, b: Byte): bool {
    pos < |buf| && buf[pos] == b
  }

  /** Reads a field: the value and the position behind it. */
  function ReadField(kind: Kind, buf: Buffer, pos: nat): Option<(Field, nat)> {
    Ranges();
    match kind
    case K32 =>
      if pos + 4 > |buf| then None else NumberFits(buf[pos..pos + 4]); Some((W32(Number(buf[pos..pos + 4])), pos + 4))
    case K64 =>
      if pos + 8 > |buf| then None else NumberFits(buf[pos..pos + 8]); Some((W64(Number(buf[pos..pos + 8])), pos + 8))
    case KId =>
      if pos + 13 > |buf| || buf[pos + 4] != COLON then None
      else
        NumberFits(buf[pos..pos + 4]);
        NumberFits(buf[pos + 5..pos + 13]);
        Some((Ident(Id(Number(buf[pos + 5..pos + 13]), Number(buf[pos..pos + 4]))), pos + 13))
    case KText =>
      if pos + 8 > |buf| then None
      else
        var size := Number(buf[pos..pos + 8]);
        if size > |buf| - pos - 8 then None else Some((Text(buf[pos + 8..pos + 8 + size]), pos + 8 + size))
    case KBlob =>
      if pos + 5 > |buf| || buf[pos + 4] != DOT then None
      else
        var size := Number(buf[pos..pos + 4]);
        if size > |buf| - pos - 5 then None else Some((Blob(buf[pos + 5..pos + 5 + size]), pos + 5 + size))
  }

  lemma ReadWord32(pre: Buffer, n: Word32, post: Buffer)
    ensures var buf := pre + Put32(n) + post; buf[|pre|..|pre| + 4] == Put32(n) && Number(buf[|pre|..|pre| + 4]) == n
  {
    Get32(n);
    hide Put32;
  }

  lemma ReadWord64(pre: Buffer, n: Word64, post: Buffer)
    ensures var buf := pre + Put64(n) + post; buf[|pre|..|pre| + 8] == Put64(n) && Number(buf[|pre|..|pre| + 8]) == n
  {
    Get64(n);
    hide Put64;
  }

  lemma ReadBackId(pre: Buffer, id: Id, post: Buffer)
    ensures ReadField(KId, pre + FieldBytes(Ident(id)) + post, |pre|) == Some((Ident(id), |pre| + 13))
  {
    hide Put32, Put64, Number;
    var d, i := Put32(id.date), Put64(id.id);
    var buf := pre + (d + [COLON] + i) + post;
    ReadWord32(pre, id.date, [COLON] + i + post);
    ReadWord64(pre + d + [COLON], id.id, post);
    assert buf == pre + d + ([COLON] + i + post);
    assert buf == (pre + d + [COLON]) + i + post;
    assert buf[|pre| + 4] == COLON;
  }

  lemma ReadBackText(pre: Buffer, chars: Buffer, post: Buffer)
    requires |chars| < U64
    ensures ReadField(KText, pre + FieldBytes(Text(chars)) + post, |pre|) == Some((Text(chars), |pre| + 8 + |chars|))
  {
    hide Put32, Put64, Number;
    var l := Put64(|chars|);
    var buf := pre + (l + chars) + post;
    ReadWord64(pre, |chars|, chars + post);
    assert buf == pre + l + (chars + post);
    assert buf[|pre| + 8..|pre| + 8 + |chars|] == chars;
  }

  lemma ReadBackBlob(pre: Buffer, data: Buffer, post: Buffer)
    requires |data| < U32
    ensures ReadField(KBlob, pre + FieldBytes(Blob(data)) + post, |pre|) == Some((Blob(data), |pre| + 5 + |data|))
  {
    hide Put32, Put64, Number;
    var l := Put32(|data|);
    var buf := pre + (l + [DOT] + data) + post;
    ReadWord32(pre, |data|, [DOT] + data + post);
    assert buf == pre + l + ([DOT] + data + post);
    assert buf[|pre| + 4] == DOT;
    assert buf[|pre| + 5..|pre| + 5 + |data|] == data;
  }

  lemma ReadBackWord(pre: Buffer, f: Field, post: Buffer)
    requires f.W32? || f.W64?
    ensures ReadField(KindOf(f), pre + FieldBytes(f) + post, |pre|) == Some((f, |pre| + |FieldBytes(f)|))
  {
    hide Put32, Put64, Number;
    if f.W32? {
      ReadWord32(pre, f.n, post);
    } else {
      ReadWord64(pre, f.m, post);
    }
  }

  lemma FieldLength(f: Field)
    requires f.Fits()
    ensures f.Ident? ==> |FieldBytes(f)| == 13
    ensures f.Text? ==> |FieldBytes(f)| == 8 + |f.chars|
    ensures f.Blob? ==> |FieldBytes(f)| == 5 + |f.data|
  {
    hide Put32, Put64;
  }

  /** Reading a field where it was written gives it back. */
  lemma ReadBack(pre: Buffer, f: Field, post: Buffer)
    requires f.Fits()
    ensures ReadField(KindOf(f), pre + FieldBytes(f) + post, |pre|) == Some((f, |pre| + |FieldBytes(f)|))
  {
    hide ReadField, FieldBytes;
    FieldLength(f);
    match f
    case W32(_) => ReadBackWord(pre, f, post);
    case W64(_) => ReadBackWord(pre, f, post);
    case Ident(id) => ReadBackId(pre, id, post);
    case Text(chars) => ReadBackText(pre, chars, post);
    case Blob(data) => ReadBackBlob(pre, data, post);
  }

  // ---------------------------------------------------------------- a list of fields

  ghost predicate AllFieldsFit(ps: seq<Piece>) {
    forall i :: 0 <= i < |ps| ==> ps[i].field.Fits()
  }

  function DelimiterBytes(d: Option<Byte>): Buffer {
    if d.None? then [] else [d.value]
  }

  function PieceBytes(p: Piece): Buffer
    requires p.field.Fits()
  {
    FieldBytes(p.field) + DelimiterBytes(p.delimiter)
  }

  function Encoded(ps: seq<Piece>): Buffer
    requires AllFieldsFit(ps)
  {
    if ps == [] then [] else PieceBytes(ps[0]) + Encoded(ps[1..])
  }

  function Slots(ps: seq<Piece>): (r: seq<Slot>)
    ensures |r| == |ps|
  {
    seq(|ps|, i requires 0 <= i < |ps| => Slot(KindOf(ps[i].field), ps[i].delimiter))
  }

  function FieldsOf(ps: seq<Piece>): (r: seq<Field>)
    ensures |r| == |ps|
  {
    seq(|ps|, i requires 0 <= i < |ps| => ps[i].field)
  }

  /** Decodes the fields of a layout one after the other. */
  function Decoded(slots: seq<Slot>, buf: Buffer, pos: nat): Option<(seq<Field>, nat)> {
    if slots == [] then Some(([], pos))
    else
      match ReadField(slots[0].kind, buf, pos)
      case None => None
      case Some((f, next)) =>
        var d := slots[0].delimiter;
        if d.Some? && !ByteAt(buf, next, d.value) then None
        else
          match Decoded(slots[1..], buf, next + |DelimiterBytes(d)|)
          case None => None
          case Some((fs, end)) => Some(([f] + fs, end))
  }

  lemma Regrouped(pre: Buffer, f: Buffer, d: Buffer, rest: Buffer, post: Buffer)
    ensures pre + (f + d + rest) + post == pre + f + (d + rest + post)
    ensures pre + (f + d + rest) + post == (pre + f + d) + rest + post
    ensures |d| == 1 ==> |pre| + |f| < |pre + (f + d + rest) + post| &&
                         (pre + (f + d + rest) + post)[|pre| + |f|] == d[0]
  {}

  /** Decoding an encoded list of fields gives the fields back, whatever surrounds it. */
  lemma {:induction false} DecodeEncoded(pre: Buffer, ps: seq<Piece>, post: Buffer)
    requires AllFieldsFit(ps)
    ensures Decoded(Slots(ps), pre + Encoded(ps) + post, |pre|) == Some((FieldsOf(ps), |pre| + |Encoded(ps)|))
    decreases |ps|
  {
    hide FieldBytes, ReadField;
    if ps == [] {
      assert FieldsOf(ps) == [];
    } else {
      var f, d, rest := ps[0].field, DelimiterBytes(ps[0].delimiter), Encoded(ps[1..]);
      Regrouped(pre, FieldBytes(f), d, rest, post);
      ReadBack(pre, f, d + rest + post);
      DecodeEncoded(pre + FieldBytes(f) + d, ps[1..], post);
      assert Slots(ps)[1..] == Slots(ps[1..]);
      assert [f] + FieldsOf(ps[1..]) == FieldsOf(ps);
    }
  }

  // ---------------------------------------------------------------- what can be decoded

  lemma ReadIsWritten(kind: Kind, buf: Buffer, pos: nat, f: Field, next: nat)
    requires ReadField(kind, buf, pos) == Some((f, next))
    ensures KindOf(f) == kind && f.Fits() && pos <= next <= |buf| && buf[pos..next] == FieldBytes(f)
  {
    hide Put32, Put64, Number;
    match kind
    case K32 => Word32Of(buf[pos..pos + 4]);
    case K64 => Word64Of(buf[pos..pos + 8]);
    case KId =>
      Word32Of(buf[pos..pos + 4]);
      Word64Of(buf[pos + 5..pos + 13]);
      assert buf[pos..next] == buf[pos..pos + 4] + [buf[pos + 4]] + buf[pos + 5..pos + 13];
    case KText =>
      Word64Of(buf[pos..pos + 8]);
      assert buf[pos..next] == buf[pos..pos + 8] + buf[pos + 8..next];
    case KBlob =>
      Word32Of(buf[pos..pos + 4]);
      assert buf[pos..next] == buf[pos..pos + 4] + [buf[pos + 4]] + buf[pos + 5..next];
  }

  /** A field is read if and only if its bytes are there. */
  lemma ReadIff(kind: Kind, buf: Buffer, pos: nat, f: Field, next: nat)
    ensures ReadField(kind, buf, pos) == Some((f, next)) <==>
            KindOf(f) == kind && f.Fits() && pos <= next <= |buf| && buf[pos..next] == FieldBytes(f)
  {
    hide ReadField, FieldBytes;
    if ReadField(kind, buf, pos) == Some((f, next)) {
      ReadIsWritten(kind, buf, pos, f, next);
    }
    if KindOf(f) == kind && f.Fits() && pos <= next <= |buf| && buf[pos..next] == FieldBytes(f) {
      assert buf == buf[..pos] + FieldBytes(f) + buf[next..];
      ReadBack(buf[..pos], f, buf[next..]);
    }
  }

  /** Fields in a layout. */
  function Laid(slots: seq<Slot>, fs: seq<Field>): (ps: seq<Piece>)
    requires |fs| == |slots|
    ensures |ps| == |fs|
  {
    seq(|fs|, i requires 0 <= i < |fs| => Piece(fs[i], slots[i].delimiter))
  }

  ghost predicate LaidOut(slots: seq<Slot>, fs: seq<Field>, bytes: Buffer) {
    && |fs| == |slots| && (forall i :: 0 <= i < |fs| ==> KindOf(fs[i]) == slots[i].kind && fs[i].Fits())
    && bytes == Encoded(Laid(slots, fs))
  }

  lemma LaidCons(slots: seq<Slot>, f: Field, fs: seq<Field>)
    requires slots != [] && |fs| + 1 == |slots|
    ensures Laid(slots, [f] + fs) == [Piece(f, slots[0].delimiter)] + Laid(slots[1..], fs)
  {}

  lemma {:induction false} DecodedIsLaid(slots: seq<Slot>, buf: Buffer, pos: nat, fs: seq<Field>, end: nat)
    requires pos <= |buf| && Decoded(slots, buf, pos) == Some((fs, end))
    ensures pos <= end <= |buf| && LaidOut(slots, fs, buf[pos..end])
    decreases |slots|
  {
    hide ReadField, FieldBytes;
    if slots != [] {
      var (f, next) := ReadField(slots[0].kind, buf, pos).value;
      ReadIsWritten(slots[0].kind, buf, pos, f, next);
      var d := DelimiterBytes(slots[0].delimiter);
      var mid := next + |d|;
      var rest := Decoded(slots[1..], buf, mid).value.0;
      DecodedIsLaid(slots[1..], buf, mid, rest, end);
      LaidCons(slots, f, rest);
      assert buf[next..mid] == d;
      assert buf[pos..end] == (buf[pos..next] + buf[next..mid]) + buf[mid..end];
      assert Laid(slots, fs)[1..] == Laid(slots[1..], rest);
      assert forall i :: 0 < i < |fs| ==> fs[i] == rest[i - 1] && slots[i] == slots[1..][i - 1];
    }
  }

  /** Decoding succeeds with these fields if and only if the bytes are their layout, delimiters included. */
  lemma DecodeIff(slots: seq<Slot>, buf: Buffer, pos: nat, fs: seq<Field>, end: nat)
    requires pos <= |buf|
    ensures Decoded(slots, buf, pos) == Some((fs, end)) <==>
            pos <= end <= |buf| && LaidOut(slots, fs, buf[pos..end])
  {
    hide Decoded, Encoded;
    if Decoded(slots, buf, pos) == Some((fs, end)) {
      DecodedIsLaid(slots, buf, pos, fs, end);
    }
    if pos <= end <= |buf| && LaidOut(slots, fs, buf[pos..end]) {
      var ps := Laid(slots, fs);
      assert buf == buf[..pos] + Encoded(ps) + buf[end..];
      DecodeEncoded(buf[..pos], ps, buf[end..]);
      assert Slots(ps) == slots && FieldsOf(ps) == fs;
    }
  }
}
