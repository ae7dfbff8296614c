/**
The file format of src/FileStorage.cpp: a version record, then framed records.  A frame is a header of 32 bytes
(size, active flag, 16 bytes of id, version), the body and a tail.  A record is switched off by overwriting the one
byte of its flag.
*/
module LogFormat {
  import opened Common
  import opened Bytes

  const HEADER_SIZE: nat := 32
  const TAIL_SIZE: nat := 2
  const HEADER_ACTIVE_POS: nat := 7
  const OVERHEAD: nat := HEADER_SIZE + TAIL_SIZE

  const LESS: Byte := 60
  const S_CHAR: Byte := 83
  const DOT: Byte := 46
  const YES: Byte := 89
  const NO: Byte := 78
  const COLON: Byte := 58
  const E_CHAR: Byte := 69
  const GREATER: Byte := 62

  /** "<S", the size 25, and "::Version 0.0.0.1E>". */
  const VERSION_RECORD: Buffer :=
    [60, 83, 25, 0, 0, 0, 58, 58, 86, 101, 114, 115, 105, 111, 110, 32, 48, 46, 48, 46, 48, 46, 49, 69, 62]

  datatype Id = Id(id: Word64, date: Word32)

  /** `pad` are the four bytes of padding that a copy of an IdT carries along. */
  datatype Rec = Rec(id: Id, pad: Buffer, version: Word32, enabled: bool, body: Buffer) {
    /** The size field has 32 bits. */
    predicate Sized() {
      |pad| == 4 && |body| + OVERHEAD < U32
    }

    /** Callers pass a body of at least one byte. */
    predicate Fits() {
      Sized() && 0 < |body|
    }
  }

  // ---------------------------------------------------------------- frames

  function Flag(enabled: bool): Byte {
    if enabled then YES else NO
  }

  function IdBytes(id: Id, pad: Buffer): (b: Buffer)
    ensures |b| == 12 + |pad|
  {
    Put64(id.id) + Put32(id.date) + pad
  }

  /** The header up to its flag. */
  function BeforeFlag(size: Word32): (h: Buffer)
    ensures |h| == HEADER_ACTIVE_POS
  {
    [LESS, S_CHAR] + Put32(size) + [DOT]
  }

  /** And from behind it. */
  function AfterFlag(id: Buffer, version: Word32): (h: Buffer)
    ensures |h| == 8 + |id|
  {
    [DOT] + id + [DOT] + Put32(version) + [COLON, COLON]
  }

  function Header(r: Rec): (h: Buffer)
    requires r.Sized()
    ensures |h| == HEADER_SIZE
  {
    BeforeFlag(|r.body| + OVERHEAD) + [Flag(r.enabled)] + AfterFlag(IdBytes(r.id, r.pad), r.version)
  }

  function Frame(r: Rec): (f: Buffer)
    requires r.Sized()
    ensures |f| == |r.body| + OVERHEAD
  {
    Header(r) + r.body + [E_CHAR, GREATER]
  }

  // ---------------------------------------------------------------- reading a record

  /** The outcome of reading at a position: nothing left, an invalid record, or a record and where it ends. */
  datatype Parsed = End | Bad | Got(rec: Rec, next: nat)

  /** The 32 bytes of a header, already known to be there. */
  datatype Head = NoHead | Head(size: nat, enabled: bool, id: Id, pad: Buffer, version: Word32)

  function ParseHead(h: Buffer): Head
    requires |h| == HEADER_SIZE
  {
    NumberFits(h[2..6]);
    NumberFits(h[9..17]);
    NumberFits(h[17..21]);
    NumberFits(h[26..30]);
    Ranges();
    var size := Number(h[2..6]);
    if h[0] != LESS || h[1] != S_CHAR || size < HEADER_SIZE || h[6] != DOT || (h[7] != YES && h[7] != NO) ||
       h[8] != DOT || h[25] != DOT || h[30] != COLON || h[31] != COLON
    then NoHead
    else Head(size, h[7] == YES, Id(Number(h[9..17]), Number(h[17..21])), h[21..25], Number(h[26..30]))
  }

  function Parse(file: Buffer, pos: nat): Parsed
    requires pos <= |file|
  {
    if pos == |file| then End
    else if pos + HEADER_SIZE > |file| then Bad
    else
      match ParseHead(file[pos..pos + HEADER_SIZE])
      case NoHead => Bad
      case Head(size, enabled, id, pad, version) =>
        if size < OVERHEAD || pos + size > |file| || file[pos + size - 2] != E_CHAR || file[pos + size - 1] != GREATER
        then Bad
        else Got(Rec(id, pad, version, enabled, file[pos + HEADER_SIZE..pos + size - TAIL_SIZE]), pos + size)
  }

  lemma BeforeFlagFields(size: Word32)
    ensures var h := BeforeFlag(size);
            h[0] == LESS && h[1] == S_CHAR && h[2..6] == Put32(size) && h[6] == DOT
  {
    hide Put32;
  }

  lemma AfterFlagFields(id: Id, pad: Buffer, version: Word32)
    requires |pad| == 4
    ensures var h := AfterFlag(IdBytes(id, pad), version);
            && h[0] == DOT && h[1..9] == Put64(id.id) && h[9..13] == Put32(id.date) && h[13..17] == pad
            && h[17] == DOT && h[18..22] == Put32(version) && h[22] == COLON && h[23] == COLON
  {
    hide Put32, Put64;
    var b, h := IdBytes(id, pad), AfterFlag(IdBytes(id, pad), version);
    assert h[1..17] == b;
    assert h[1..9] == b[..8] == Put64(id.id);
    assert h[9..13] == b[8..12] == Put32(id.date);
    assert h[13..17] == b[12..16] == pad;
    assert h[18..22] == Put32(version);
  }

  /** The layout of a header, field by field. */
  lemma HeaderFields(r: Rec)
    requires r.Sized()
    ensures var h := Header(r);
            && h[0] == LESS && h[1] == S_CHAR && h[2..6] == Put32(|r.body| + OVERHEAD)
            && h[6] == DOT && h[7] == Flag(r.enabled) && h[8] == DOT
            && h[9..17] == Put64(r.id.id) && h[17..21] == Put32(r.id.date) && h[21..25] == r.pad
            && h[25] == DOT && h[26..30] == Put32(r.version) && h[30] == COLON && h[31] == COLON
  {
    hide Put32, Put64, BeforeFlag, AfterFlag, IdBytes;
    BeforeFlagFields(|r.body| + OVERHEAD);
    AfterFlagFields(r.id, r.pad, r.version);
    var h, a, b := Header(r), BeforeFlag(|r.body| + OVERHEAD), AfterFlag(IdBytes(r.id, r.pad), r.version);
    assert forall i :: 0 <= i < 7 ==> h[i] == a[i];
    assert forall i :: 0 <= i < 24 ==> h[8 + i] == b[i];
    assert h[2..6] == a[2..6];
    assert h[9..17] == b[1..9] && h[17..21] == b[9..13] && h[21..25] == b[13..17] && h[26..30] == b[18..22];
  }

  lemma HeadOfHeader(r: Rec)
    requires r.Sized()
    ensures ParseHead(Header(r)) == Head(|r.body| + OVERHEAD, r.enabled, r.id, r.pad, r.version)
  {
    hide Header, Put32, Put64, Number;
    HeaderFields(r);
    Get32(|r.body| + OVERHEAD);
    Get64(r.id.id);
    Get32(r.id.date);
    Get32(r.version);
  }

  /** Reading where a frame was written gives the record back, whatever is around it. */
  lemma ParseFrame(pre: Buffer, r: Rec, post: Buffer)
    requires r.Sized()
    ensures Parse(pre + Frame(r) + post, |pre|) == Got(r, |pre| + |Frame(r)|)
  {
    hide ParseHead, Header;
    HeadOfHeader(r);
    var file, p, size := pre + Frame(r) + post, |pre|, |r.body| + OVERHEAD;
    assert file[p..p + HEADER_SIZE] == Header(r);
    assert file[p + HEADER_SIZE..p + size - TAIL_SIZE] == r.body;
    assert file[p + size - 2] == E_CHAR && file[p + size - 1] == GREATER;
  }

  lemma SameHeader(g: Buffer, h: Buffer)
    requires |g| == HEADER_SIZE == |h| && g[0] == h[0] && g[1] == h[1] && g[2..6] == h[2..6] && g[6] == h[6]
    requires g[7] == h[7] && g[8] == h[8] && g[9..17] == h[9..17] && g[17..21] == h[17..21] && g[21..25] == h[21..25]
    requires g[25] == h[25] && g[26..30] == h[26..30] && g[30] == h[30] && g[31] == h[31]
    ensures g == h
  {
    assert g == [g[0], g[1]] + g[2..6] + [g[6], g[7], g[8]] + g[9..17] + g[17..21] + g[21..25] + [g[25]] + g[26..30] +
                [g[30], g[31]];
    assert h == [h[0], h[1]] + h[2..6] + [h[6], h[7], h[8]] + h[9..17] + h[17..21] + h[21..25] + [h[25]] + h[26..30] +
                [h[30], h[31]];
  }

  /** A header that can be read is the header of what is read. */
  lemma HeaderOfHead(h: Buffer, r: Rec)
    requires |h| == HEADER_SIZE && r.Sized()
    requires ParseHead(h) == Head(|r.body| + OVERHEAD, r.enabled, r.id, r.pad, r.version)
    ensures h == Header(r)
  {
    hide Header, Put32, Put64, Number;
    HeaderFields(r);
    Word32Of(h[2..6]);
    Word64Of(h[9..17]);
    Word32Of(h[17..21]);
    Word32Of(h[26..30]);
    SameHeader(h, Header(r));
  }

  lemma ParsedIsFrame(file: Buffer, pos: nat, r: Rec, next: nat)
    requires pos <= |file| && Parse(file, pos) == Got(r, next)
    ensures r.Sized() && pos <= next <= |file| && file[pos..next] == Frame(r)
  {
    hide Header, ParseHead, Number;
    var h := file[pos..pos + HEADER_SIZE];
    HeadIsSized(h);
    HeaderOfHead(h, r);
    assert file[pos..next] == h + file[pos + HEADER_SIZE..next - TAIL_SIZE] + file[next - TAIL_SIZE..next];
    assert file[next - TAIL_SIZE..next] == [E_CHAR, GREATER];
  }

  lemma HeadIsSized(h: Buffer)
    requires |h| == HEADER_SIZE && ParseHead(h).Head?
    ensures ParseHead(h).size < U32 && |ParseHead(h).pad| == 4
  {
    hide Number;
    Word32Of(h[2..6]);
  }

  /** A record is read at a position if and only if its frame is there: every size, delimiter and tail is checked. */
  lemma ParseIff(file: Buffer, pos: nat, r: Rec, next: nat)
    requires pos <= |file|
    ensures Parse(file, pos) == Got(r, next) <==>
            r.Sized() && pos <= next <= |file| && file[pos..next] == Frame(r)
  {
    hide Parse, Frame;
    if Parse(file, pos) == Got(r, next) {
      ParsedIsFrame(file, pos, r, next);
    }
    if r.Sized() && pos <= next <= |file| && file[pos..next] == Frame(r) {
      assert file == file[..pos] + Frame(r) + file[next..];
      ParseFrame(file[..pos], r, file[next..]);
    }
  }

  /** The version record carries its own size, as a 32-bit number with the low byte first. */
  lemma VersionSize()
    ensures VERSION_RECORD[2..6] == Put32(|VERSION_RECORD|)
  {
    assert Little(0, 1) == [0] + Little(0, 0) == [0];
    assert Little(0, 2) == [0] + Little(0, 1) == [0, 0];
    assert Little(0, 3) == [0] + Little(0, 2) == [0, 0, 0];
    assert Little(25, 4) == [25] + Little(0, 3) == [25, 0, 0, 0];
    var v := VERSION_RECORD;
    assert v[2] == 25 && v[3] == 0 && v[4] == 0 && v[5] == 0;
    assert v[2..6] == [v[2], v[3], v[4], v[5]];
  }

  /** Overwriting the flag of a frame gives the frame of the same record, switched off. */
  lemma FlipFrame(r: Rec)
    requires r.Fits()
    ensures Frame(r.(enabled := false)) == Frame(r)[HEADER_ACTIVE_POS := NO]
  {
    hide Header;
    FlipHeader(r);
  }

  lemma FlipHeader(r: Rec)
    requires r.Fits()
    ensures Header(r.(enabled := false)) == Header(r)[HEADER_ACTIVE_POS := NO]
  {
    hide BeforeFlag, AfterFlag, IdBytes;
  }

  // ---------------------------------------------------------------- files

  ghost predicate AllFit(log: seq<Rec>) {
    forall i :: 0 <= i < |log| ==> log[i].Fits()
  }

  function FileOf(log: seq<Rec>): (f: Buffer)
    requires AllFit(log)
    ensures |f| >= |VERSION_RECORD| == 25
  {
    if log == [] then VERSION_RECORD else FileOf(log[..|log| - 1]) + Frame(log[|log| - 1])
  }

  /** Where record `i` starts. */
  function Offset(log: seq<Rec>, i: nat): nat
    requires AllFit(log) && i <= |log|
  {
    |FileOf(log[..i])|
  }

  lemma OffsetNext(log: seq<Rec>, i: nat)
    requires AllFit(log) && i < |log|
    ensures AllFit(log[..i]) && AllFit(log[..i + 1])
    ensures FileOf(log[..i + 1]) == FileOf(log[..i]) + Frame(log[i])
    ensures Offset(log, i + 1) == Offset(log, i) + |Frame(log[i])|
  {
    assert log[..i + 1][..i] == log[..i];
  }

  /** A file starts with the file of its first records. */
  lemma {:induction false} FileSplits(log: seq<Rec>, i: nat)
    requires AllFit(log) && i <= |log|
    ensures FileOf(log[..i]) <= FileOf(log)
    decreases |log| - i
  {
    if i < |log| {
      OffsetNext(log, i);
      FileSplits(log, i + 1);
    } else {
      assert log[..i] == log;
    }
  }

  /** Reading a file at the start of record `i` gives record `i` and leads to the start of the next, whatever follows
      the last record. */
  lemma ParseAt(log: seq<Rec>, tail: Buffer, i: nat)
    requires AllFit(log) && i < |log|
    ensures Offset(log, i) < Offset(log, i + 1) <= |FileOf(log)|
    ensures Parse(FileOf(log) + tail, Offset(log, i)) == Got(log[i], Offset(log, i + 1))
  {
    hide FileOf, Frame, Parse;
    OffsetNext(log, i);
    FileSplits(log, i + 1);
    var file := FileOf(log) + tail;
    var post := file[Offset(log, i + 1)..];
    assert file == FileOf(log[..i]) + Frame(log[i]) + post;
    ParseFrame(FileOf(log[..i]), log[i], post);
  }

  lemma OffsetEnd(log: seq<Rec>)
    requires AllFit(log)
    ensures Offset(log, |log|) == |FileOf(log)| && Offset(log, 0) == |VERSION_RECORD|
  {
    assert log[..|log|] == log;
    assert log[..0] == [];
  }

  function Disabled(log: seq<Rec>, i: nat): seq<Rec>
    requires i < |log|
  {
    log[i := log[i].(enabled := false)]
  }

  /** The in-place flip of one byte switches off its record and disturbs no other. */
  lemma {:induction false} FlipInFile(log: seq<Rec>, i: nat)
    requires AllFit(log) && i < |log|
    ensures AllFit(Disabled(log, i)) && Offset(log, i) + HEADER_ACTIVE_POS < |FileOf(log)|
    ensures FileOf(Disabled(log, i)) == FileOf(log)[Offset(log, i) + HEADER_ACTIVE_POS := NO]
    decreases |log|
  {
    hide Frame, FileOf;
    var n, d := |log| - 1, Disabled(log, i);
    FileSnoc(log);
    FileSnoc(d);
    if i == n {
      assert d[..n] == log[..n];
      FlipFrame(log[n]);
    } else {
      assert d[..n] == Disabled(log[..n], i);
      assert log[..n][..i] == log[..i];
      FlipInFile(log[..n], i);
    }
  }

  lemma FileSnoc(log: seq<Rec>)
    requires AllFit(log) && log != []
    ensures AllFit(log[..|log| - 1]) && FileOf(log) == FileOf(log[..|log| - 1]) + Frame(log[|log| - 1])
  {}
}
