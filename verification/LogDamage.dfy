/**
Loading files that the storage did not leave in good order (src/FileStorage.cpp, readRecord, findNextRecord and
pocessRecord).  A block that is not a record is skipped up to the next '<', so that the records around it are found.
*/
module LogDamage {
  import opened Common
  import opened Bytes
  import opened LogFormat
  import opened FileLog

  // ---------------------------------------------------------------- records between damaged blocks

  /** A stretch of a file: a record, or a block without the mark that starts a record. */
  datatype Part = Good(rec: Rec) | Junk(bytes: Buffer) {
    predicate Ok() {
      match this
      case Good(rec) => rec.Sized()
      case Junk(bytes) => LESS !in bytes
    }
  }

  ghost predicate AllOk(parts: seq<Part>) {
    forall i :: 0 <= i < |parts| ==> parts[i].Ok()
  }

  function PartBytes(p: Part): Buffer
    requires p.Ok()
  {
    match p
    case Good(rec) => Frame(rec)
    case Junk(bytes) => bytes
  }

  function PartsFile(parts: seq<Part>): (f: Buffer)
    requires AllOk(parts)
    ensures |f| >= |VERSION_RECORD| == 25
  {
    if parts == [] then VERSION_RECORD else PartsFile(parts[..|parts| - 1]) + PartBytes(parts[|parts| - 1])
  }

  function Position(parts: seq<Part>, k: nat): nat
    requires AllOk(parts) && k <= |parts|
  {
    |PartsFile(parts[..k])|
  }

  /** The records among the first `k` parts, indexed where they are. */
  function FoundIn(parts: seq<Part>, k: nat): Replay
    requires AllOk(parts) && k <= |parts|
  {
    if k == 0 then NOTHING_READ
    else if parts[k - 1].Junk? then FoundIn(parts, k - 1)
    else ReplayedWith(FoundIn(parts, k - 1), parts[k - 1].rec, Position(parts, k - 1))
  }

  function Intact(parts: seq<Part>): seq<Rec> {
    if parts == [] then []
    else
      var p := parts[|parts| - 1];
      Intact(parts[..|parts| - 1]) + if p.Good? then [p.rec] else []
  }

  lemma PartsNext(parts: seq<Part>, k: nat)
    requires AllOk(parts) && k < |parts|
    ensures AllOk(parts[..k]) && AllOk(parts[..k + 1])
    ensures PartsFile(parts[..k + 1]) == PartsFile(parts[..k]) + PartBytes(parts[k])
  {
    assert parts[..k + 1][..k] == parts[..k];
  }

  lemma {:induction false} PartsSplit(parts: seq<Part>, k: nat)
    requires AllOk(parts) && k <= |parts|
    ensures PartsFile(parts[..k]) <= PartsFile(parts)
    decreases |parts| - k
  {
    hide PartBytes;
    if k < |parts| {
      PartsNext(parts, k);
      PartsSplit(parts, k + 1);
    } else {
      assert parts[..k] == parts;
    }
  }

  /** Where the `k`-th part is in the file. */
  lemma PartAt(parts: seq<Part>, k: nat)
    requires AllOk(parts) && k < |parts|
    ensures var file, p := PartsFile(parts), Position(parts, k);
            && Position(parts, k + 1) == p + |PartBytes(parts[k])| <= |file|
            && file == file[..p] + PartBytes(parts[k]) + file[Position(parts, k + 1)..]
  {
    hide PartBytes, PartsFile;
    PartsNext(parts, k);
    PartsSplit(parts, k + 1);
  }

  // ---------------------------------------------------------------- skipping

  lemma NoRecordHere(file: Buffer, pos: nat)
    requires pos < |file| && file[pos] != LESS
    ensures Parse(file, pos).Bad?
  {
    hide Number;
    if pos + HEADER_SIZE <= |file| {
      var h := file[pos..pos + HEADER_SIZE];
      assert h[0] != LESS;
      assert ParseHead(h).NoHead?;
    }
  }

  /** Skipping to the next mark is skipping byte by byte. */
  lemma SkipByte(file: Buffer, pos: nat, found: Replay)
    requires pos < |file| && file[pos] != LESS
    ensures Replayed(file, pos, found) == Replayed(file, pos + 1, found)
  {
    hide Parse;
    NoRecordHere(file, pos);
    if pos + 1 < |file| && file[pos + 1] != LESS {
      NoRecordHere(file, pos + 1);
    }
  }

  lemma {:induction false} SkipJunk(file: Buffer, pos: nat, end: nat, found: Replay)
    requires pos <= end <= |file| && forall i :: pos <= i < end ==> file[i] != LESS
    ensures Replayed(file, pos, found) == Replayed(file, end, found)
    decreases end - pos
  {
    hide Replayed;
    if pos < end {
      SkipByte(file, pos, found);
      SkipJunk(file, pos + 1, end, found);
    }
  }

  /** Hence an observer that throws on a record, after which the next mark is looked for, makes no difference. */
  lemma {:induction false} RefusedRecord(file: Buffer, pos: nat, found: Replay)
    requires pos <= |file|
    ensures Replayed(file, NextMark(file, pos), found) == Replayed(file, pos, found)
    decreases |file| - pos
  {
    hide Replayed;
    if pos < |file| && file[pos] != LESS {
      RefusedRecord(file, pos + 1, found);
      SkipByte(file, pos, found);
    }
  }

  lemma ReadOne(file: Buffer, pos: nat, r: Rec, next: nat, found: Replay)
    requires pos <= |file| && Parse(file, pos) == Got(r, next)
    ensures pos < next <= |file| && Replayed(file, pos, found) == Replayed(file, next, ReplayedWith(found, r, pos))
  {
    hide Parse;
    ParsedForward(file, pos);
  }

  lemma {:induction false} PartsReplay(parts: seq<Part>, k: nat)
    requires AllOk(parts) && k <= |parts|
    ensures Position(parts, k) <= |PartsFile(parts)|
    ensures Replayed(PartsFile(parts), Position(parts, k), FoundIn(parts, k)) == FoundIn(parts, |parts|)
    decreases |parts| - k
  {
    hide PartsFile, Replayed, Parse, Frame;
    var file := PartsFile(parts);
    if k == |parts| {
      assert parts[..k] == parts;
      AtTheEnd(file, FoundIn(parts, k));
    } else {
      PartAt(parts, k);
      PartsReplay(parts, k + 1);
      var p, next := Position(parts, k), Position(parts, k + 1);
      if parts[k].Good? {
        ParseFrame(file[..p], parts[k].rec, file[next..]);
        ReadOne(file, p, parts[k].rec, next, FoundIn(parts, k));
      } else {
        forall i | p <= i < next
          ensures file[i] != LESS
        {
          assert file[i] == parts[k].bytes[i - p];
        }
        SkipJunk(file, p, next, FoundIn(parts, k));
      }
    }
  }

  lemma AtTheEnd(file: Buffer, found: Replay)
    ensures Replayed(file, |file|, found) == found
  {}

  /** Every record between damaged blocks is found, where it is, and nothing else. */
  lemma DamagedFileReplays(parts: seq<Part>)
    requires AllOk(parts)
    ensures VERSION_RECORD <= PartsFile(parts)
    ensures Replayed(PartsFile(parts), |VERSION_RECORD|, NOTHING_READ) == FoundIn(parts, |parts|)
    ensures FoundIn(parts, |parts|).reports == Reported(Intact(parts))
  {
    hide Replayed, Reported;
    PartsSplit(parts, 0);
    assert parts[..0] == [];
    PartsReplay(parts, 0);
    FoundReports(parts, |parts|);
    assert parts[..|parts|] == parts;
  }

  lemma {:induction false} FoundReports(parts: seq<Part>, k: nat)
    requires AllOk(parts) && k <= |parts|
    ensures FoundIn(parts, k).reports == Reported(Intact(parts[..k]))
  {
    hide Position, IndexedWith, Reported;
    if k == 0 {
      assert Reported([]) == [] by { NoReports(); }
    } else {
      FoundReports(parts, k - 1);
      assert parts[..k][..k - 1] == parts[..k - 1];
      var before, p := Intact(parts[..k - 1]), parts[k - 1];
      if p.Good? {
        assert Intact(parts[..k]) == before + [p.rec];
        ReportedSnoc(before, p.rec);
      } else {
        assert Intact(parts[..k]) == before + [] == before;
      }
    }
  }

  lemma NoReports()
    ensures Reported([]) == []
  {}

  lemma ReportedSnoc(log: seq<Rec>, r: Rec)
    ensures Reported(log + [r]) == ReportedWith(Reported(log), r)
  {
    assert (log + [r])[..|log|] == log;
  }

  // ---------------------------------------------------------------- behind the last record

  /** Loading never takes back a report. */
  lemma {:induction false} ReplayKeeps(file: Buffer, pos: nat, found: Replay)
    requires pos <= |file|
    ensures found.reports <= Replayed(file, pos, found).reports
    decreases |file| - pos
  {
    hide Parse, IndexedWith;
    if pos < |file| {
      var p := Parse(file, pos);
      if p.Got? {
        ParsedForward(file, pos);
        ReplayKeeps(file, p.next, ReplayedWith(found, p.rec, pos));
      } else {
        ReplayKeeps(file, NextMark(file, pos + 1), found);
      }
    }
  }

  /** Whatever follows the records of a log, they are all reported first. */
  lemma AnyTail(log: seq<Rec>, tail: Buffer)
    requires AllFit(log)
    ensures VERSION_RECORD <= FileOf(log) + tail
    ensures Reported(log) <= Replayed(FileOf(log) + tail, |VERSION_RECORD|, NOTHING_READ).reports
  {
    hide Replayed, Reported, FileOf, Rebuild, Offset;
    NothingReplayed(log, tail);
    WrittenReplays(log, tail, 0);
    ReplayKeeps(FileOf(log) + tail, |FileOf(log)|, Replay(Rebuild(log, |log|), Reported(log)));
  }

  /** The beginning of a frame is no record. */
  lemma TornIsBad(pre: Buffer, r: Rec, n: nat)
    requires r.Sized() && 0 < n < |Frame(r)|
    ensures Parse(pre + Frame(r)[..n], |pre|).Bad?
  {
    hide Header, ParseHead;
    var file := pre + Frame(r)[..n];
    if HEADER_SIZE <= n {
      HeadOfHeader(r);
      var start := Frame(r)[..n];
      assert Frame(r)[..HEADER_SIZE] == Header(r);
      assert start[..HEADER_SIZE] == Frame(r)[..HEADER_SIZE];
      assert file[|pre|..|pre| + HEADER_SIZE] == start[..HEADER_SIZE];
    }
  }

  lemma {:induction false} NoMark(file: Buffer, pos: nat)
    requires pos <= |file| && forall i :: pos <= i < |file| ==> file[i] != LESS
    ensures NextMark(file, pos) == |file|
    decreases |file| - pos
  {
    if pos < |file| {
      NoMark(file, pos + 1);
    }
  }

  /** Bytes that are no record and hold no further mark. */
  lemma SkipTail(file: Buffer, pos: nat, found: Replay)
    requires pos < |file| && !Parse(file, pos).Got? && forall i :: pos < i < |file| ==> file[i] != LESS
    ensures Replayed(file, pos, found) == found
  {
    hide Parse;
    NoMark(file, pos + 1);
    AtTheEnd(file, found);
  }

  /** An append that was cut short loses its own record and no other, unless its bytes hold another mark. */
  lemma TornWrite(log: seq<Rec>, r: Rec, n: nat)
    requires AllFit(log) && r.Sized() && n < |Frame(r)| && forall i :: 0 < i < n ==> Frame(r)[i] != LESS
    ensures Replayed(FileOf(log) + Frame(r)[..n], |VERSION_RECORD|, NOTHING_READ) ==
            Replay(Rebuild(log, |log|), Reported(log))
  {
    hide Reported, FileOf, Rebuild, Offset, Parse, Frame, Replayed;
    var tail := Frame(r)[..n];
    var file, found := FileOf(log) + tail, Replay(Rebuild(log, |log|), Reported(log));
    NothingReplayed(log, tail);
    WrittenReplays(log, tail, 0);
    if n > 0 {
      TornIsBad(FileOf(log), r, n);
      forall i | |FileOf(log)| < i < |file|
        ensures file[i] != LESS
      {
        assert file[i] == Frame(r)[i - |FileOf(log)|];
      }
      SkipTail(file, |FileOf(log)|, found);
    } else {
      assert file == FileOf(log);
      AtTheEnd(file, found);
    }
  }
}
