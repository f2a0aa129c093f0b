/**
  Where a late viewer of a transport stream may start (videots.cpp, TSScanner): at the earlier of
  the last PAT and the last PMT before a confirmed random access point on the video PID.
 */
module TsScanner {
  import opened Bytes
  import opened Numbers
  import opened TsCrc
  import opened TsFraming
  import opened PsiAssembler

  const STREAM_H264: bv8 := 0x1B
  const STREAM_HEVC: bv8 := 0x24
  const STREAM_MPEG2: bv8 := 0x02

  datatype Offset = Unknown | At(at: nat)

  datatype Stats = Stats(
    packets: nat, badSync: nat, ccErrors: nat, patSeen: nat, pmtSeen: nat, raiSeen: nat, crcErrors: nat)

  // What the tables say, and where the last of each and the joining point are.
  datatype Program = Program(
    pmtPid: nat, havePat: bool, havePmt: bool, patVersion: nat, pmtVersion: nat, videoPid: nat, videoType: bv8)
  datatype Marks = Marks(patOff: Offset, pmtOff: Offset, anchor: Offset)

  datatype Scan = Scan(stats: Stats, pat: Psi, pmt: Psi, prog: Program, marks: Marks, cc: map<nat, bv8>)

  function New(): Scan
  {
    Scan(Stats(0, 0, 0, 0, 0, 0, 0), IDLE, IDLE, Program(0, false, false, 0xFF, 0xFF, 0, 0),
         Marks(Unknown, Unknown, Unknown), map[])
  }

  // ---------------------------------------------------------------- packet fields

  type packet = p: octets | |p| == PACKET witness seq(PACKET, _ => 0)

  predicate UnitStart(p: packet) { p[1] & 0x40 != 0 }
  function Pid(p: packet): nat { ((p[1] & 0x1F) as nat) * 256 + (p[2] as nat) }
  function Control(p: packet): bv8 { (p[3] >> 4) & 0x03 }
  function Counter(p: packet): bv8 { p[3] & 0x0F }
  predicate HasPayload(p: packet) { Control(p) == 1 || Control(p) == 3 }
  predicate HasField(p: packet) { Control(p) == 2 || Control(p) == 3 }
  function PayloadAt(p: packet): nat { if HasField(p) then 5 + p[4] as nat else 4 }

  // The payload, if there is one and the adaptation field leaves room for it.
  function Payload(p: packet): octets
  {
    if !HasPayload(p) || PayloadAt(p) >= PACKET then [] else p[PayloadAt(p)..]
  }

  predicate RandomAccessBit(p: packet)
  {
    HasField(p) && p[4] != 0 && PayloadAt(p) <= PACKET && p[5] & 0x40 != 0
  }

  // An access unit delimiter, parameter set or random access slice follows a start code.
  predicate StartsAccess(b: bv8, kind: bv8)
  {
    if kind == STREAM_H264 then (b & 0x1F) in {9, 7, 8, 5}
    else var nal := (b >> 1) & 0x3F; nal == 35 || 32 <= nal <= 34 || 16 <= nal <= 21
  }

  // A start code and the unit behind it, with at least one byte more.
  predicate BeginsAt(p: octets, i: nat, kind: bv8)
  {
    i + 4 < |p| && p[i] == 0 && p[i + 1] == 0 && p[i + 2] == 1 && StartsAccess(p[i + 3], kind)
  }

  predicate RandomAccessPayload(p: octets, kind: bv8)
  {
    (kind != STREAM_H264 && kind != STREAM_HEVC) || exists i | 0 <= i < |p| :: BeginsAt(p, i, kind)
  }

  // ---------------------------------------------------------------- tables

  function Version(sec: octets): nat
    requires |sec| > 5
  {
    ((sec[5] >> 1) & 0x1F) as nat
  }

  predicate Current(sec: octets)
    requires |sec| > 5
  {
    sec[5] & 1 != 0
  }

  function Pid13(a: bv8, b: bv8): nat { ((a & 0x1F) as nat) * 256 + (b as nat) }
  function Len12(a: bv8, b: bv8): nat { ((a & 0x0F) as nat) * 256 + (b as nat) }

  // The first program's PMT PID, at or after entry i.
  function FirstProgram(sec: octets, i: nat): Offset
    decreases |sec| - i
  {
    if i + 8 > |sec| then Unknown
    else if sec[i] != 0 || sec[i + 1] != 0 then At(Pid13(sec[i + 2], sec[i + 3]))
    else FirstProgram(sec, i + 4)
  }

  predicate IsPat(sec: octets) { |sec| >= 12 && sec[0] == 0x00 && Current(sec) }
  predicate IsPmt(sec: octets) { |sec| >= 16 && sec[0] == 0x02 && Current(sec) }

  // The program map after a PAT. One that moved is no longer described by the old PMT.
  function Moved(g: Program, version: nat, first: Offset): Program
  {
    match first
    case Unknown => g.(patVersion := version)
    case At(pid) =>
      if g.pmtPid != pid then
        g.(patVersion := version, pmtPid := pid, havePat := true, havePmt := false, pmtVersion := 0xFF)
      else g.(patVersion := version, havePat := true)
  }

  function ParsePat(s: Scan, sec: octets, off: nat): Scan
  {
    if !IsPat(sec) then s
    else
      var stats, marks := s.stats.(patSeen := s.stats.patSeen + 1), s.marks.(patOff := At(off));
      if s.prog.havePat && Version(sec) == s.prog.patVersion then s.(stats := stats, marks := marks)
      else
        var first := FirstProgram(sec, 8);
        s.(stats := stats, marks := marks, prog := Moved(s.prog, Version(sec), first),
           pmt := if first.At? && first.at != s.prog.pmtPid then IDLE else s.pmt)
  }

  datatype Video = NoVideo | Video(pid: nat, kind: bv8)

  // The first elementary stream that is video and has a PID, at or after position i.
  function FirstVideo(sec: octets, i: nat): Video
    decreases |sec| - i
  {
    if i + 9 > |sec| then NoVideo
    else
      var kind, pid := sec[i], Pid13(sec[i + 1], sec[i + 2]);
      if kind in {STREAM_H264, STREAM_HEVC, STREAM_MPEG2} && pid != 0 then Video(pid, kind)
      else FirstVideo(sec, i + 5 + Len12(sec[i + 3], sec[i + 4]))
  }

  function Described(g: Program, version: nat, video: Video): Program
  {
    match video
    case NoVideo => g.(pmtVersion := version)
    case Video(pid, kind) => g.(pmtVersion := version, videoPid := pid, videoType := kind, havePmt := true)
  }

  function ParsePmt(s: Scan, sec: octets, off: nat): Scan
  {
    if !IsPmt(sec) then s
    else
      var stats, marks := s.stats.(pmtSeen := s.stats.pmtSeen + 1), s.marks.(pmtOff := At(off));
      if s.prog.havePmt && Version(sec) == s.prog.pmtVersion then s.(stats := stats, marks := marks)
      else
        s.(stats := stats, marks := marks,
           prog := Described(s.prog, Version(sec), FirstVideo(sec, 12 + Len12(sec[10], sec[11]))))
  }

  // ---------------------------------------------------------------- one packet

  function Continuity(s: Scan, p: packet): Scan
  {
    if !HasPayload(p) then s
    else
      var jump := Pid(p) in s.cc && Counter(p) != (s.cc[Pid(p)] + 1) & 0x0F;
      s.(stats := if jump then s.stats.(ccErrors := s.stats.ccErrors + 1) else s.stats,
         cc := s.cc[Pid(p) := Counter(p)])
  }

  function CountCorrupt(s: Scan, f: Found): Scan
  {
    if f.Corrupt? then s.(stats := s.stats.(crcErrors := s.stats.crcErrors + 1)) else s
  }

  // Which table, if any, a packet's payload belongs to.
  datatype Role = NoRole | PatPart | PmtPart | AccessPoint

  function RoleOf(s: Scan, p: packet): Role
  {
    if p[0] != SYNC || Payload(p) == [] then NoRole
    else if Pid(p) == 0 then PatPart
    else if s.prog.havePat && Pid(p) == s.prog.pmtPid then PmtPart
    else if s.prog.havePmt && Pid(p) == s.prog.videoPid && RandomAccessBit(p)
            && (!UnitStart(p) || RandomAccessPayload(Payload(p), s.prog.videoType)) then AccessPoint
    else NoRole
  }

  // An access point after a PAT and a PMT makes the earlier of the two a joining point.
  function Anchored(m: Marks, off: nat): Marks
  {
    if m.patOff.At? && m.pmtOff.At? && m.patOff.at <= off && m.pmtOff.at <= off then
      m.(anchor := At(Min(m.patOff.at, m.pmtOff.at)))
    else m
  }

  function Packet(s: Scan, p: packet, off: nat): Scan
  {
    var t := s.(stats := s.stats.(packets := s.stats.packets + 1));
    if p[0] != SYNC then t.(stats := t.stats.(badSync := t.stats.badSync + 1))
    else
      var u := Continuity(t, p);
      match RoleOf(s, p)
      case NoRole => u
      case PatPart =>
        var r := PsiFeed(s.pat, Payload(p), UnitStart(p));
        var v := CountCorrupt(u.(pat := r.s), r.found);
        if r.found.Section? then ParsePat(v, r.found.bytes, off) else v
      case PmtPart =>
        var r := PsiFeed(s.pmt, Payload(p), UnitStart(p));
        var v := CountCorrupt(u.(pmt := r.s), r.found);
        if r.found.Section? then ParsePmt(v, r.found.bytes, off) else v
      case AccessPoint =>
        u.(stats := u.stats.(raiSeen := u.stats.raiSeen + 1), marks := Anchored(s.marks, off))
  }

  // ---------------------------------------------------------------- what a join offset means

  // The section a packet completes in its role, if it does.
  function Completed(s: Scan, p: packet): Found
  {
    match RoleOf(s, p)
    case PatPart => PsiFeed(s.pat, Payload(p), UnitStart(p)).found
    case PmtPart => PsiFeed(s.pmt, Payload(p), UnitStart(p)).found
    case _ => Nothing
  }

  predicate CompletesPat(s: Scan, p: packet)
  {
    RoleOf(s, p).PatPart? && Completed(s, p).Section? && IsPat(Completed(s, p).bytes)
  }

  predicate CompletesPmt(s: Scan, p: packet)
  {
    RoleOf(s, p).PmtPart? && Completed(s, p).Section? && IsPmt(Completed(s, p).bytes)
  }

  predicate WellFormedCalls(calls: seq<Call>)
  {
    forall k :: 0 <= k < |calls| ==> |calls[k].p| == PACKET
  }

  // The scanner after the first n packets.
  function After(calls: seq<Call>, n: nat): Scan
    requires n <= |calls| && WellFormedCalls(calls)
  {
    if n == 0 then New() else Packet(After(calls, n - 1), calls[n - 1].p, calls[n - 1].off)
  }

  ghost predicate PatAt(calls: seq<Call>, k: int, off: nat)
    requires WellFormedCalls(calls)
  {
    0 <= k < |calls| && calls[k].off == off && CompletesPat(After(calls, k), calls[k].p)
  }

  ghost predicate PmtAt(calls: seq<Call>, k: int, off: nat)
    requires WellFormedCalls(calls)
  {
    0 <= k < |calls| && calls[k].off == off && CompletesPmt(After(calls, k), calls[k].p)
  }

  // Packet k is a random access point of the video PID in force when it arrived.
  ghost predicate AccessAt(calls: seq<Call>, k: int)
    requires WellFormedCalls(calls)
  {
    0 <= k < |calls| && RoleOf(After(calls, k), calls[k].p).AccessPoint? && After(calls, k).prog.videoPid != 0
  }

  // The anchor is the earlier of a PAT's and a PMT's position, both completed before an access point.
  ghost predicate AnchorFrom(calls: seq<Call>, a: nat, i: int, j: int, k: int, pat: nat, pmt: nat)
    requires WellFormedCalls(calls)
  {
    i < k && j < k && PatAt(calls, i, pat) && PmtAt(calls, j, pmt) && AccessAt(calls, k) && a == Min(pat, pmt)
  }

  ghost predicate AnchorExplained(calls: seq<Call>, n: nat, a: nat)
    requires WellFormedCalls(calls)
  {
    exists i, j, k, pat, pmt :: k < n && AnchorFrom(calls, a, i, j, k, pat, pmt)
  }

  // A program once known has a video PID.
  predicate HasVideo(g: Program) { g.havePmt ==> g.videoPid != 0 }

  ghost predicate Explained(calls: seq<Call>, n: nat)
    requires n <= |calls| && WellFormedCalls(calls)
  {
    var m := After(calls, n).marks;
    && HasVideo(After(calls, n).prog)
    && (m.patOff.At? ==> exists i :: i < n && PatAt(calls, i, m.patOff.at))
    && (m.pmtOff.At? ==> exists i :: i < n && PmtAt(calls, i, m.pmtOff.at))
    && (m.anchor.At? ==> AnchorExplained(calls, n, m.anchor.at))
  }

  lemma BookkeepingKeeps(s: Scan, p: packet, f: Found)
    ensures Continuity(s, p).marks == s.marks && Continuity(s, p).prog == s.prog
    ensures CountCorrupt(s, f).marks == s.marks && CountCorrupt(s, f).prog == s.prog
  {
    hide Pid, Counter;
  }

  lemma ParsePatEffect(s: Scan, sec: octets, off: nat)
    ensures var t := ParsePat(s, sec, off);
      && t.marks == (if IsPat(sec) then s.marks.(patOff := At(off)) else s.marks)
      && (HasVideo(s.prog) ==> HasVideo(t.prog))
  {
    hide FirstProgram, Version, IsPat;
  }

  lemma ParsePmtEffect(s: Scan, sec: octets, off: nat)
    ensures var t := ParsePmt(s, sec, off);
      && t.marks == (if IsPmt(sec) then s.marks.(pmtOff := At(off)) else s.marks)
      && (HasVideo(s.prog) ==> HasVideo(t.prog))
  {
    hide FirstVideo, Version, Len12, Current;
    if IsPmt(sec) { FirstVideoHasPid(sec, 12 + Len12(sec[10], sec[11])); }
  }

  // How one packet moves the marks.
  function Remarked(s: Scan, p: packet, off: nat): Marks
  {
    if CompletesPat(s, p) then s.marks.(patOff := At(off))
    else if CompletesPmt(s, p) then s.marks.(pmtOff := At(off))
    else if RoleOf(s, p).AccessPoint? then Anchored(s.marks, off)
    else s.marks
  }

  lemma PacketEffect(s: Scan, p: packet, off: nat)
    ensures var t := Packet(s, p, off);
      t.marks == Remarked(s, p, off) && (HasVideo(s.prog) ==> HasVideo(t.prog))
  {
    hide PsiFeed, Continuity, CountCorrupt, ParsePat, ParsePmt, IsPat, IsPmt, Payload, UnitStart, Anchored, HasVideo;
    var t := s.(stats := s.stats.(packets := s.stats.packets + 1));
    BookkeepingKeeps(t, p, Nothing);
    if p[0] == SYNC {
      hide RoleOf;
      var u := Continuity(t, p);
      match RoleOf(s, p)
      case PatPart =>
        var r := PsiFeed(s.pat, Payload(p), UnitStart(p));
        BookkeepingKeeps(u.(pat := r.s), p, r.found);
        if r.found.Section? { ParsePatEffect(CountCorrupt(u.(pat := r.s), r.found), r.found.bytes, off); }
      case PmtPart =>
        var r := PsiFeed(s.pmt, Payload(p), UnitStart(p));
        BookkeepingKeeps(u.(pmt := r.s), p, r.found);
        if r.found.Section? { ParsePmtEffect(CountCorrupt(u.(pmt := r.s), r.found), r.found.bytes, off); }
      case _ =>
    }
  }

  lemma AccessNeedsPmt(s: Scan, p: packet)
    requires RoleOf(s, p).AccessPoint?
    ensures s.prog.havePmt
  {
  }

  lemma {:induction false} FirstVideoHasPid(sec: octets, i: nat)
    ensures FirstVideo(sec, i).Video? ==> FirstVideo(sec, i).pid != 0
    decreases |sec| - i
  {
    if i + 9 <= |sec| { FirstVideoHasPid(sec, i + 5 + Len12(sec[i + 3], sec[i + 4])); }
  }

  lemma {:induction false} EverythingExplained(calls: seq<Call>, n: nat)
    requires n <= |calls| && WellFormedCalls(calls)
    ensures Explained(calls, n)
  {
    hide Packet, CompletesPat, CompletesPmt, RoleOf;
    if n > 0 {
      EverythingExplained(calls, n - 1);
      var s, p, off := After(calls, n - 1), calls[n - 1].p, calls[n - 1].off;
      PacketEffect(s, p, off);
      var m, was := After(calls, n).marks, s.marks;
      if m.patOff != was.patOff { assert PatAt(calls, n - 1, off); }
      if m.pmtOff != was.pmtOff { assert PmtAt(calls, n - 1, off); }
      if m.anchor.At? {
        if m.anchor == was.anchor {
          var i, j, k, pat, pmt :| k < n - 1 && AnchorFrom(calls, m.anchor.at, i, j, k, pat, pmt);
          assert AnchorExplained(calls, n, m.anchor.at);
        } else {
          NewAnchor(calls, n - 1);
        }
      }
    }
  }

  lemma NewAnchor(calls: seq<Call>, n: nat)
    requires n < |calls| && WellFormedCalls(calls) && Explained(calls, n)
    requires var s := After(calls, n); RoleOf(s, calls[n].p).AccessPoint? && s.marks.patOff.At? && s.marks.pmtOff.At?
    ensures var m := After(calls, n).marks; AnchorExplained(calls, n + 1, Min(m.patOff.at, m.pmtOff.at))
  {
    hide Packet, CompletesPat, CompletesPmt, RoleOf;
    var s := After(calls, n);
    var i :| i < n && PatAt(calls, i, s.marks.patOff.at);
    var j :| j < n && PmtAt(calls, j, s.marks.pmtOff.at);
    AccessNeedsPmt(s, calls[n].p);
    assert AccessAt(calls, n);
    assert AnchorFrom(calls, Min(s.marks.patOff.at, s.marks.pmtOff.at), i, j, n, s.marks.patOff.at, s.marks.pmtOff.at);
  }

  // What join_offset reports.
  function JoinOffset(s: Scan): Offset
  {
    if s.marks.anchor.Unknown? || !s.prog.havePmt then Unknown else s.marks.anchor
  }

  // A join offset, whatever bytes were fed in whatever pieces: there is a program with a video
  // PID; the offset is the position of a packet of the stream; and it is the earlier of those of a
  // PAT-completing and a PMT-completing packet, both before a random access packet of the video PID
  // then in force.
  lemma JoinOffsetMeans(f: Framer, pieces: seq<octets>, base: nat)
    requires f == FeedStream(FRESH, pieces, base)
    ensures WellFormedCalls(f.calls)
    ensures JoinsInside(After(f.calls, |f.calls|), f.calls, base, base + |Join(pieces)|)
  {
    hide FeedStream, After, Framed, WellFormedCalls, Join, JoinsInside;
    StreamFromFresh(pieces, base);
    CallsWellFormed(f, Join(pieces), base);
    JoinOffsetOf(f, Join(pieces), base);
  }

  lemma StreamFromFresh(pieces: seq<octets>, base: nat)
    ensures Framed(FeedStream(FRESH, pieces, base), Join(pieces), base)
  {
    hide FeedStream, Framed;
    FreshFramed(base);
    StreamFramed(FRESH, [], pieces, base);
    assert [] + Join(pieces) == Join(pieces);
  }

  ghost predicate JoinsInside(s: Scan, calls: seq<Call>, base: nat, end: nat)
    requires WellFormedCalls(calls)
  {
    JoinOffset(s).At? ==>
      && s.prog.videoPid != 0
      && base <= JoinOffset(s).at && JoinOffset(s).at + PACKET <= end
      && AnchorExplained(calls, |calls|, JoinOffset(s).at)
  }

  lemma JoinOffsetOf(f: Framer, stream: octets, base: nat)
    requires Framed(f, stream, base) && WellFormedCalls(f.calls)
    ensures JoinsInside(After(f.calls, |f.calls|), f.calls, base, base + |stream|)
  {
    hide After, AnchorExplained, Framed, PatAt, PmtAt;
    EverythingExplained(f.calls, |f.calls|);
    var s := After(f.calls, |f.calls|);
    if JoinOffset(s).At? {
      var m := AnchorIsPacket(f.calls, s.marks.anchor.at);
      CallInStream(f, stream, base, m);
    }
  }

  lemma CallInStream(f: Framer, stream: octets, base: nat, m: nat)
    requires Framed(f, stream, base) && m < |f.calls|
    ensures base <= f.calls[m].off && f.calls[m].off + PACKET <= base + |stream|
  {
    assert Genuine(f.calls[m], stream, base);
  }

  lemma AnchorIsPacket(calls: seq<Call>, a: nat) returns (m: nat)
    requires WellFormedCalls(calls) && AnchorExplained(calls, |calls|, a)
    ensures m < |calls| && calls[m].off == a
  {
    hide CompletesPat, CompletesPmt, RoleOf, After;
    var i, j, k, pat, pmt :| k < |calls| && AnchorFrom(calls, a, i, j, k, pat, pmt);
    m := if pat < pmt then i else j;
  }

  lemma CallsWellFormed(f: Framer, stream: octets, base: nat)
    requires Framed(f, stream, base)
    ensures WellFormedCalls(f.calls)
  {
    forall k | 0 <= k < |f.calls| ensures |f.calls[k].p| == PACKET {
      assert Genuine(f.calls[k], stream, base);
    }
  }

  // A stream in sync leaves the scanner in the same state however it is split.
  lemma ScanSplitInvariance(pieces: seq<octets>, base: nat)
    requires Aligned(Join(pieces))
    ensures FeedStream(FRESH, pieces, base) == FeedStream(FRESH, [Join(pieces)], base)
    ensures FeedStream(FRESH, pieces, base).calls == Packets(Join(pieces), base, |Join(pieces)| / PACKET)
  {
    hide FeedTs, Cut, Aligned;
    var all := Join(pieces);
    assert [] + all == all;
    FreshIsCut(base);
    AlignedSplitInvariance([], pieces, base);
    assert Join([all]) == all by { assert [all][1..] == []; assert all + [] == all; }
    AlignedSplitInvariance([], [all], base);
    CutCalls(all, base);
  }

  lemma CutCalls(stream: octets, base: nat)
    ensures Cut(stream, base).calls == Packets(stream, base, |stream| / PACKET)
  {
  }

  // ---------------------------------------------------------------- the scanner object

  lemma {:induction false} AfterPrefix(calls: seq<Call>, more: Call, n: nat)
    requires n <= |calls| && WellFormedCalls(calls) && |more.p| == PACKET
    ensures WellFormedCalls(calls + [more]) && After(calls + [more], n) == After(calls, n)
  {
    hide Packet;
    if n > 0 { AfterPrefix(calls, more, n - 1); }
  }

  // What the packets of a stream say: the table assemblers, the program, the marks.
  class Tables {
    const pat: Assembler
    const pmt: Assembler
    const crc: CrcTable
    var stats: Stats
    var prog: Program
    var marks: Marks
    var cc: map<nat, bv8>

    ghost function Repr(): set<object> { {this, pat, pat.buf, pmt, pmt.buf, crc, crc.entries} }

    ghost predicate Valid()
      reads Repr()
    {
      && pat != pmt && pat.buf != pmt.buf && {crc, crc.entries} !! {pat, pat.buf, pmt, pmt.buf}
      && pat.Valid() && pmt.Valid() && crc.Valid()
    }

    ghost function Now(): Scan
      requires Valid()
      reads Repr()
    {
      Scan(stats, pat.View(), pmt.View(), prog, marks, cc)
    }

    constructor ()
      ensures Valid() && Now() == New() && fresh(Repr())
    {
      pat := new Assembler();
      pmt := new Assembler();
      crc := new CrcTable();
      stats, cc := Stats(0, 0, 0, 0, 0, 0, 0), map[];
      prog, marks := Program(0, false, false, 0xFF, 0xFF, 0, 0), Marks(Unknown, Unknown, Unknown);
    }

    // The program entries run from byte 8 to the CRC; the first program counts.
    static method FindProgram(sec: octets) returns (first: Offset)
      ensures first == FirstProgram(sec, 8)
    {
      var i := 8;
      while i + 8 <= |sec|
        invariant FirstProgram(sec, 8) == FirstProgram(sec, i)
        decreases |sec| - i
      {
        if sec[i] != 0 || sec[i + 1] != 0 { return At(Pid13(sec[i + 2], sec[i + 3])); }
        i := i + 4;
      }
      first := Unknown;
    }

    // All elementary streams are visited; the first that is video and has a PID counts.
    static method FindVideo(sec: octets, start: nat) returns (video: Video)
      ensures video == FirstVideo(sec, start)
    {
      hide Pid13, Len12;
      video := NoVideo;
      var i := start;
      while i + 9 <= |sec|
        invariant FirstVideo(sec, start) == if video.Video? then video else FirstVideo(sec, i)
        decreases |sec| - i
      {
        var kind, pid := sec[i], Pid13(sec[i + 1], sec[i + 2]);
        if video.NoVideo? && kind in {STREAM_H264, STREAM_HEVC, STREAM_MPEG2} && pid != 0 {
          video := Video(pid, kind);
        }
        i := i + 5 + Len12(sec[i + 3], sec[i + 4]);
      }
    }

    // Look for a start code followed by something a decoder can begin with.
    static method IsRandomAccess(p: octets, kind: bv8) returns (r: bool)
      ensures r == RandomAccessPayload(p, kind)
    {
      hide StartsAccess;
      if kind != STREAM_H264 && kind != STREAM_HEVC { return true; }
      var i := 0;
      while i + 4 < |p|
        invariant forall k | 0 <= k < i :: !BeginsAt(p, k, kind)
        decreases |p| - i
      {
        if p[i] == 0 && p[i + 1] == 0 && p[i + 2] == 1 && StartsAccess(p[i + 3], kind) {
          assert BeginsAt(p, i, kind);
          return true;
        }
        i := i + 1;
      }
      r := false;
    }

    method HandlePat(sec: octets, off: nat)
      requires Valid()
      modifies `stats, `marks, `prog, pmt
      ensures Valid() && Now() == ParsePat(old(Now()), sec, off)
    {
      hide FirstProgram, Version, Current;
      if |sec| < 12 || sec[0] != 0x00 { return; }
      if !Current(sec) { return; }
      stats, marks := stats.(patSeen := stats.patSeen + 1), marks.(patOff := At(off));
      if prog.havePat && Version(sec) == prog.patVersion { return; }
      prog := prog.(patVersion := Version(sec));
      var first := FindProgram(sec);
      if first.At? {
        if prog.pmtPid != first.at {
          prog := prog.(havePmt := false, pmtVersion := 0xFF);
          pmt.Reset();
        }
        prog := prog.(pmtPid := first.at, havePat := true);
      }
    }

    method HandlePmt(sec: octets, off: nat)
      requires Valid()
      modifies `stats, `marks, `prog
      ensures Valid() && Now() == ParsePmt(old(Now()), sec, off)
    {
      hide FirstVideo, Version, Current, Len12;
      if |sec| < 16 || sec[0] != 0x02 { return; }
      if !Current(sec) { return; }
      stats, marks := stats.(pmtSeen := stats.pmtSeen + 1), marks.(pmtOff := At(off));
      if prog.havePmt && Version(sec) == prog.pmtVersion { return; }
      prog := prog.(pmtVersion := Version(sec));
      var video := FindVideo(sec, 12 + Len12(sec[10], sec[11]));
      if video.Video? { prog := prog.(videoPid := video.pid, videoType := video.kind, havePmt := true); }
    }

    method CheckCounter(p: packet)
      requires Valid()
      modifies `stats, `cc
      ensures Valid() && Now() == Continuity(old(Now()), p)
    {
      hide Pid, Counter, Control;
      if !HasPayload(p) { return; }
      if Pid(p) in cc && Counter(p) != (cc[Pid(p)] + 1) & 0x0F {
        stats := stats.(ccErrors := stats.ccErrors + 1);
      }
      cc := cc[Pid(p) := Counter(p)];
    }

    method PatPayload(p: packet, off: nat)
      requires Valid()
      modifies `stats, `marks, `prog, pat, pat.buf, pmt, crc, crc.entries
      ensures Valid()
      ensures var s := old(Now());
        var r := PsiFeed(s.pat, Payload(p), UnitStart(p));
        var v := CountCorrupt(s.(pat := r.s), r.found);
        Now() == if r.found.Section? then ParsePat(v, r.found.bytes, off) else v
    {
      hide PsiFeed, Payload, UnitStart, ParsePat;
      var found := pat.Feed(Payload(p), UnitStart(p), crc);
      if found.Corrupt? { stats := stats.(crcErrors := stats.crcErrors + 1); }
      if found.Section? { HandlePat(found.bytes, off); }
    }

    method PmtPayload(p: packet, off: nat)
      requires Valid()
      modifies `stats, `marks, `prog, pmt, pmt.buf, crc, crc.entries
      ensures Valid()
      ensures var s := old(Now());
        var r := PsiFeed(s.pmt, Payload(p), UnitStart(p));
        var v := CountCorrupt(s.(pmt := r.s), r.found);
        Now() == if r.found.Section? then ParsePmt(v, r.found.bytes, off) else v
    {
      hide PsiFeed, Payload, UnitStart, ParsePmt;
      var found := pmt.Feed(Payload(p), UnitStart(p), crc);
      if found.Corrupt? { stats := stats.(crcErrors := stats.crcErrors + 1); }
      if found.Section? { HandlePmt(found.bytes, off); }
    }

    // An access point after a PAT and a PMT moves the anchor to the earlier of the two.
    method AccessPayload(off: nat)
      requires Valid()
      modifies `stats, `marks
      ensures Valid()
      ensures var s := old(Now());
        Now() == s.(stats := s.stats.(raiSeen := s.stats.raiSeen + 1), marks := Anchored(s.marks, off))
    {
      stats := stats.(raiSeen := stats.raiSeen + 1);
      if marks.patOff.At? && marks.pmtOff.At? && marks.patOff.at <= off && marks.pmtOff.at <= off {
        marks := marks.(anchor := At(if marks.patOff.at < marks.pmtOff.at then marks.patOff.at else marks.pmtOff.at));
      }
    }

    // Account for one packet.
    method Handle(p: packet, off: nat)
      requires Valid()
      modifies Repr()
      ensures Valid() && Now() == Packet(old(Now()), p, off)
    {
      hide Payload, PsiFeed, ParsePat, ParsePmt, CountCorrupt, Continuity, RandomAccessPayload, RandomAccessBit, Pid;
      hide UnitStart, Anchored;
      ghost var s := Now();
      stats := stats.(packets := stats.packets + 1);
      if p[0] != SYNC {
        stats := stats.(badSync := stats.badSync + 1);
        return;
      }
      CheckCounter(p);
      ContinuityKeeps(s.(stats := s.stats.(packets := s.stats.packets + 1)), p);
      if Payload(p) == [] { return; }
      if Pid(p) == 0 {
        PatPayload(p, off);
      } else if prog.havePat && Pid(p) == prog.pmtPid {
        PmtPayload(p, off);
      } else if prog.havePmt && Pid(p) == prog.videoPid && RandomAccessBit(p) {
        var begins := IsRandomAccess(Payload(p), prog.videoType);
        if !UnitStart(p) || begins { AccessPayload(off); }
      }
    }
  }

  lemma ContinuityKeeps(s: Scan, p: packet)
    ensures var u := Continuity(s, p); u.pat == s.pat && u.pmt == s.pmt && u.prog == s.prog && u.marks == s.marks
  {
    hide Pid, Counter;
  }

  // The tables are what these packets made them.
  ghost predicate Follows(t: Tables, calls: seq<Call>)
    requires WellFormedCalls(calls)
    reads t.Repr()
  {
    t.Valid() && t.Now() == After(calls, |calls|)
  }

  class Scanner {
    const tables: Tables
    const partial: array<bv8>
    var partialLen: nat
    var partialOff: nat
    var synced: bool
    var resyncs: nat
    var bytes: nat
    ghost var calls: seq<Call>        // every packet handed to the scanner

    ghost predicate Valid()
      reads this, partial, tables.Repr()
    {
      && partial.Length == PACKET && partialLen < PACKET && {this, partial} !! tables.Repr()
      && WellFormedCalls(calls) && Follows(tables, calls)
    }

    ghost function View(): Framer
      reads this, partial
      requires partialLen <= partial.Length
    {
      Framer(calls, partial[..partialLen], if partialLen == 0 then 0 else partialOff, synced, resyncs, bytes)
    }

    constructor ()
      ensures Valid() && View() == FRESH && fresh(partial) && fresh(tables.Repr())
    {
      tables := new Tables();
      partial, partialLen, partialOff := new bv8[PACKET], 0, 0;
      synced, resyncs, bytes, calls := false, 0, 0, [];
    }

    method HandlePacket(p: octets, off: nat)
      requires Valid() && |p| == PACKET
      modifies this`synced, this`calls, tables.Repr()
      ensures Valid() && View() == Deliver(old(View()), p, off)
    {
      hide Packet;
      AfterPrefix(calls, Call(p, off), |calls|);
      tables.Handle(p, off);
      if p[0] != SYNC { synced := false; }
      calls := calls + [Call(p, off)];
    }

    // Look for a sync byte that is followed by another one a packet later.
    static method FindSync(buf: octets, i: nat) returns (j: nat)
      requires i <= |buf|
      ensures j == Hunt(buf, i)
    {
      j := i;
      while j < |buf|
        invariant i <= j <= |buf| && Hunt(buf, i) == Hunt(buf, j)
      {
        if buf[j] == SYNC {
          var next := j + PACKET;
          if next >= |buf| || buf[next] == SYNC { return; }
        }
        j := j + 1;
      }
    }

    // Finish a packet split across calls; `ready` says whether there are bytes left to look at.
    method FinishPartial(buf: octets) returns (i: nat, ready: bool)
      requires Valid() && partialLen > 0
      modifies this`synced, this`calls, this`partialLen, partial, tables.Repr()
      ensures Valid() && i <= |buf|
      ensures var f := old(View());
        if |buf| < PACKET - |f.partial| then !ready && View() == f.(partial := f.partial + buf)
        else ready && i == PACKET - |f.partial|
             && View() == Deliver(f, f.partial + buf[..i], f.partialOff).(partial := [], partialOff := 0)
    {
      hide After, Packet, Follows, WellFormedCalls;
      var need := PACKET - partialLen;
      var take := if |buf| < need then |buf| else need;
      ghost var had := partial[..partialLen];
      forall k | 0 <= k < take { partial[partialLen + k] := buf[k]; }
      assert partial[..partialLen + take] == had + buf[..take];
      assert take == |buf| ==> buf[..take] == buf;
      if partialLen + take < PACKET {
        partialLen := partialLen + take;
        return take, false;
      }
      assert partial[..] == partial[..partialLen + take];
      HandlePacket(partial[..], partialOff);
      partialLen := 0;
      return take, true;
    }

    method Feed(buf: octets, base: nat)
      requires Valid()
      modifies this, partial, tables.Repr()
      ensures Valid() && View() == FeedTs(old(View()), buf, base)
    {
      hide After, TakePackets, Follows, WellFormedCalls;
      bytes := bytes + |buf|;
      var i := 0;
      if partialLen > 0 {
        var ready;
        i, ready := FinishPartial(buf);
        if !ready { return; }
      }
      TakeAll(buf, i, base);
    }

    method TakeAll(buf: octets, start: nat, base: nat)
      requires Valid() && partialLen == 0 && start <= |buf|
      modifies this, partial, tables.Repr()
      ensures Valid() && View() == TakePackets(old(View()), buf, start, base)
    {
      hide After, TakePackets, Hunt, Follows, WellFormedCalls;
      ghost var goal := TakePackets(View(), buf, start, base);
      var i := start;
      while i < |buf|
        invariant start <= i <= |buf| && Valid() && partialLen == 0
        invariant goal == TakePackets(View(), buf, i, base)
      {
        TakeUnfold(View(), buf, i, base);
        var j := i;
        if !synced {
          j := FindSync(buf, i);
          if j == |buf| { return; }
          if j != i { resyncs := resyncs + 1; }
          synced := true;
        }
        if |buf| - j < PACKET {
          Carry(buf[j..], base + j);
          return;
        }
        HandlePacket(buf[j..j + PACKET], base + j);
        i := j + PACKET;
      }
      TakeUnfold(View(), buf, i, base);
      NothingToHunt(buf);
    }

    method Carry(rest: octets, off: nat)
      requires Valid() && partialLen == 0 && 0 < |rest| < PACKET
      modifies this`partialLen, this`partialOff, partial
      ensures Valid() && View() == old(View()).(partial := rest, partialOff := off)
    {
      hide After, Follows, WellFormedCalls;
      forall k | 0 <= k < |rest| { partial[k] := rest[k]; }
      assert partial[..|rest|] == rest;
      partialLen, partialOff := |rest|, off;
    }
  }

  lemma NothingToHunt(buf: octets)
    ensures Hunt(buf, |buf|) == |buf|
  {
  }
}
