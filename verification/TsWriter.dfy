/**
  Transport packets and tables as section 2.4 of ISO/IEC 13818-1 writes them, field by field, and the proof
  that the scanner reads the same fields; and which units of H.264 and HEVC it takes for the start of an
  access point.
 */
module TsWriter {
  import opened Bytes
  import opened BitPlaces
  import opened TsCrc
  import opened TsFraming
  import opened TsScanner

  // ---------------------------------------------------------------- units

  // H.264: IDR slice, SPS, PPS and access unit delimiter, whatever the reference field says.
  lemma AvcUnits(reference: nat, kind: nat)
    requires reference < 8 && kind < 32
    ensures StartsAccess(Oct(reference * 32 + kind), STREAM_H264) <==> kind in {5, 7, 8, 9}
  {
    hide Oct;
    var b := Oct(reference * 32 + kind);
    Low5(b);
    assert b as nat % 32 == kind;
    SameUnit(b & 0x1F, kind);
  }

  lemma SameUnit(b: bv8, kind: nat)
    requires b as nat == kind
    ensures kind in {5, 7, 8, 9} <==> b in {9, 7, 8, 5}
    ensures kind == 35 || 32 <= kind <= 34 || 16 <= kind <= 21 <==> b == 35 || 32 <= b <= 34 || 16 <= b <= 21
  {
  }

  // HEVC: the random access pictures 16 to 21, VPS, SPS, PPS and access unit delimiter, in any layer.
  lemma HevcUnits(kind: nat, layer: nat)
    requires kind < 64 && layer < 2
    ensures StartsAccess(Oct(kind * 2 + layer), STREAM_HEVC) <==> 16 <= kind <= 21 || 32 <= kind <= 35
  {
    hide Oct;
    var b := Oct(kind * 2 + layer);
    Middle6(b);
    assert b as nat / 2 % 64 == kind;
    SameUnit((b >> 1) & 0x3F, kind);
  }

  // ---------------------------------------------------------------- packets

  // What a packet is made of; `field` is the adaptation field behind its length byte.
  datatype Form = Form(
    error: bool, start: bool, priority: bool, pid: nat, scrambling: nat, counter: nat,
    hasField: bool, field: octets, payload: octets)

  function Bit(b: bool): nat { if b then 1 else 0 }

  predicate FormOk(f: Form)
  {
    && f.pid < 8192 && f.scrambling < 4 && f.counter < 16
    && (!f.hasField ==> f.field == [])
    && 4 + (if f.hasField then 1 + |f.field| else 0) + |f.payload| == 188
  }

  function Head(f: Form): octets
    requires FormOk(f)
  {
    [0x47, Oct(Bit(f.error) * 128 + Bit(f.start) * 64 + Bit(f.priority) * 32 + f.pid / 256), Oct(f.pid % 256),
     Oct(f.scrambling * 64 + (if f.hasField then 32 else 0) + (if f.payload != [] then 16 else 0) + f.counter)]
  }

  function PacketBytes(f: Form): packet
    requires FormOk(f)
  {
    Head(f) + (if f.hasField then [Oct(|f.field|)] + f.field else []) + f.payload
  }

  // Bit 6 of the flags: random_access_indicator.
  predicate Marked(f: Form)
  {
    f.hasField && f.field != [] && f.field[0] as nat / 64 % 2 == 1
  }

  lemma HeadReads(f: Form, p: packet)
    requires FormOk(f) && Head(f) <= p
    ensures p[0] == SYNC && (UnitStart(p) <==> f.start) && Pid(p) == f.pid && Counter(p) as nat == f.counter
    ensures HasField(p) <==> f.hasField
    ensures HasPayload(p) <==> f.payload != []
  {
    hide Oct, Control;
    var h := Head(f);
    assert p[0] == h[0] && p[1] == h[1] && p[2] == h[2] && p[3] == h[3];
    FlagPlaces(Bit(f.error), Bit(f.start), Bit(f.priority), f.pid / 256);
    Bit6(p[1]);
    Low5(p[1]);
    var c := (if f.hasField then 2 else 0) + if f.payload != [] then 1 else 0;
    ControlReads(p, f.scrambling, c, f.counter);
  }

  lemma ControlReads(p: packet, scrambling: nat, c: nat, counter: nat)
    requires scrambling < 4 && c < 4 && counter < 16 && p[3] as nat == scrambling * 64 + c * 16 + counter
    ensures Counter(p) as nat == counter
    ensures HasField(p) <==> c == 2 || c == 3
    ensures HasPayload(p) <==> c == 1 || c == 3
  {
    ControlPlaces(scrambling, c, counter);
    Low4(p[3]);
    Middle2(p[3]);
    ControlIs(Control(p), c);
  }

  lemma FlagPlaces(e: nat, s: nat, q: nat, hi: nat)
    requires e < 2 && s < 2 && q < 2 && hi < 32
    ensures var x := e * 128 + s * 64 + q * 32 + hi; x < 256 && x % 32 == hi && x / 64 % 2 == s
  {
  }

  lemma ControlPlaces(s: nat, c: nat, n: nat)
    requires s < 4 && c < 4 && n < 16
    ensures var x := s * 64 + c * 16 + n; x < 256 && x % 16 == n && x / 16 % 4 == c
  {
  }

  lemma ControlIs(b: bv8, c: nat)
    requires b as nat == c < 4
    ensures b == 1 || b == 3 <==> c == 1 || c == 3
    ensures b == 2 || b == 3 <==> c == 2 || c == 3
  {
  }

  // Every packet is read as it was written.
  lemma PacketReads(f: Form)
    requires FormOk(f)
    ensures var p := PacketBytes(f);
      && p[0] == SYNC && (UnitStart(p) <==> f.start) && Pid(p) == f.pid && Counter(p) as nat == f.counter
      && Payload(p) == f.payload && (RandomAccessBit(p) <==> Marked(f))
  {
    hide Head, Pid, Counter, UnitStart, HasField, HasPayload, Oct;
    var p := PacketBytes(f);
    HeadLength(f);
    HeadReads(f, p);
    if f.hasField {
      assert p[4] == Oct(|f.field|);
      Zero(p[4]);
      if f.field != [] { Bit6(p[5]); }
    }
    if f.payload != [] { assert p[188 - |f.payload|..] == f.payload; }
  }

  lemma Zero(b: bv8)
    ensures b == 0 <==> b as nat == 0
  {
  }

  lemma HeadLength(f: Form)
    requires FormOk(f)
    ensures |Head(f)| == 4
  {
  }

  // What the scanner does with a packet depends on its fields as the standard has them: PID 0 carries the PAT, the
  // PID the PAT names the PMT, and a packet of the video PID is an access point if it is marked and, where a
  // unit starts in it, its payload confirms that.
  lemma RoleReads(s: Scan, f: Form)
    requires FormOk(f)
    ensures RoleOf(s, PacketBytes(f)) ==
      if f.payload == [] then NoRole
      else if f.pid == 0 then PatPart
      else if s.prog.havePat && f.pid == s.prog.pmtPid then PmtPart
      else if s.prog.havePmt && f.pid == s.prog.videoPid && Marked(f)
              && (!f.start || RandomAccessPayload(f.payload, s.prog.videoType)) then AccessPoint
      else NoRole
  {
    hide PacketBytes, Payload, Pid, UnitStart, RandomAccessBit, RandomAccessPayload, Counter, Marked;
    PacketReads(f);
  }

  // ---------------------------------------------------------------- tables

  lemma PidReads(pid: nat)
    requires pid < 8192
    ensures Pid13(Oct(0xE0 + pid / 256), Oct(pid % 256)) == pid
  {
    hide Oct;
    Low5(Oct(0xE0 + pid / 256));
  }

  lemma LengthReads(n: nat)
    requires n < 4096
    ensures Len12(Oct(0xF0 + n / 256), Oct(n % 256)) == n
  {
    hide Oct;
    Low4(Oct(0xF0 + n / 256));
  }

  // The eight bytes both tables begin with: table, length, what it is about, version and current flag.
  function TableHead(table: bv8, length: nat, about: nat, version: nat, current: bool): octets
    requires length < 1022 && about < 0x1_0000 && version < 32
  {
    [table, Oct(0xB0 + length / 256), Oct(length % 256), Oct(about / 256), Oct(about % 256),
     Oct(0xC0 + version * 2 + Bit(current)), 0, 0]
  }

  lemma TableReads(sec: octets, table: bv8, length: nat, about: nat, version: nat, current: bool)
    requires length < 1022 && about < 0x1_0000 && version < 32
    requires TableHead(table, length, about, version, current) <= sec
    ensures sec[0] == table && Version(sec) == version && (Current(sec) <==> current)
  {
    hide Oct;
    var h := TableHead(table, length, about, version, current);
    assert sec[0] == h[0] && sec[5] == h[5];
    Middle5(sec[5]);
    Bit0(sec[5]);
    VersionPlaces(version, Bit(current));
  }

  lemma VersionPlaces(version: nat, current: nat)
    requires version < 32 && current < 2
    ensures var x := 0xC0 + version * 2 + current; x < 256 && x / 2 % 32 == version && x % 2 == current
  {
  }

  // A program and the PID of its map; program 0 stands for the network.
  datatype Entry = Entry(number: nat, pid: nat)

  predicate EntriesOk(es: seq<Entry>)
  {
    forall i | 0 <= i < |es| :: es[i].number < 0x1_0000 && es[i].pid < 8192
  }

  function EntryBytes(e: Entry): octets
    requires e.number < 0x1_0000 && e.pid < 8192
  {
    [Oct(e.number / 256), Oct(e.number % 256), Oct(0xE0 + e.pid / 256), Oct(e.pid % 256)]
  }

  function Entries(es: seq<Entry>): (r: octets)
    requires EntriesOk(es)
    ensures |r| == 4 * |es|
  {
    if es == [] then [] else EntryBytes(es[0]) + Entries(es[1..])
  }

  function PatSection(about: nat, version: nat, current: bool, es: seq<Entry>, crc: octets): octets
    requires EntriesOk(es) && |es| <= 253 && about < 0x1_0000 && version < 32
  {
    TableHead(0, 9 + 4 * |es|, about, version, current) + Entries(es) + crc
  }

  // The map of the first program there is.
  function MapOf(es: seq<Entry>): Offset
  {
    if es == [] then Unknown else if es[0].number != 0 then At(es[0].pid) else MapOf(es[1..])
  }

  lemma {:induction false} EntriesRead(sec: octets, i: nat, es: seq<Entry>, crc: octets)
    requires EntriesOk(es) && |crc| == 4 && i <= |sec| && sec[i..] == Entries(es) + crc
    ensures FirstProgram(sec, i) == MapOf(es)
    decreases |es|
  {
    if es != [] {
      hide Oct, Entries, EntryBytes;
      var b, rest := EntryBytes(es[0]), Entries(es[1..]);
      EntriesSplit(es);
      assert sec[i..] == b + (rest + crc);
      EntryReads(es[0], sec, i, rest + crc);
      assert sec[i + 4..] == rest + crc;
      EntriesRead(sec, i + 4, es[1..], crc);
    }
  }

  lemma EntriesSplit(es: seq<Entry>)
    requires es != [] && EntriesOk(es)
    ensures Entries(es) == EntryBytes(es[0]) + Entries(es[1..])
  {
  }

  lemma EntryReads(e: Entry, sec: octets, i: nat, more: octets)
    requires e.number < 0x1_0000 && e.pid < 8192 && i <= |sec| && sec[i..] == EntryBytes(e) + more
    ensures i + 4 <= |sec| && sec[i + 4..] == more
    ensures sec[i] != 0 || sec[i + 1] != 0 <==> e.number != 0
    ensures Pid13(sec[i + 2], sec[i + 3]) == e.pid
  {
    hide Oct, Pid13;
    var b := EntryBytes(e);
    assert sec[i..][0] == b[0] && sec[i..][1] == b[1] && sec[i..][2] == b[2] && sec[i..][3] == b[3];
    Zero(sec[i]);
    Zero(sec[i + 1]);
    PidReads(e.pid);
  }

  // A program association section: its version, whether it applies, and the map it names.
  lemma PatReads(about: nat, version: nat, current: bool, es: seq<Entry>, crc: octets)
    requires EntriesOk(es) && |es| <= 253 && about < 0x1_0000 && version < 32 && |crc| == 4
    ensures var sec := PatSection(about, version, current, es, crc);
      && (IsPat(sec) <==> current) && |sec| > 5 && Version(sec) == version && FirstProgram(sec, 8) == MapOf(es)
  {
    hide FirstProgram, Version, Current, TableHead;
    var sec, h := PatSection(about, version, current, es, crc), TableHead(0, 9 + 4 * |es|, about, version, current);
    assert |h| == 8 by { TableHeadLength(0, 9 + 4 * |es|, about, version, current); }
    assert sec == h + (Entries(es) + crc);
    TableReads(sec, 0, 9 + 4 * |es|, about, version, current);
    assert sec[8..] == Entries(es) + crc;
    EntriesRead(sec, 8, es, crc);
  }

  lemma TableHeadLength(table: bv8, length: nat, about: nat, version: nat, current: bool)
    requires length < 1022 && about < 0x1_0000 && version < 32
    ensures |TableHead(table, length, about, version, current)| == 8
  {
  }

  // An elementary stream: what it is, its PID, and descriptors.
  datatype Stream = Stream(kind: bv8, pid: nat, descriptors: octets)

  predicate StreamsOk(ss: seq<Stream>)
  {
    forall i | 0 <= i < |ss| :: ss[i].pid < 8192 && |ss[i].descriptors| < 4096
  }

  function StreamBytes(e: Stream): octets
    requires e.pid < 8192 && |e.descriptors| < 4096
  {
    [e.kind, Oct(0xE0 + e.pid / 256), Oct(e.pid % 256),
     Oct(0xF0 + |e.descriptors| / 256), Oct(|e.descriptors| % 256)] + e.descriptors
  }

  function Streams(ss: seq<Stream>): octets
    requires StreamsOk(ss)
  {
    if ss == [] then [] else StreamBytes(ss[0]) + Streams(ss[1..])
  }

  predicate PmtOk(info: octets, ss: seq<Stream>)
  {
    StreamsOk(ss) && |info| < 4096 && 13 + |info| + |Streams(ss)| < 1022
  }

  function PmtSection(about: nat, version: nat, current: bool, pcr: nat, info: octets, ss: seq<Stream>, crc: octets)
    : octets
    requires PmtOk(info, ss) && about < 0x1_0000 && version < 32 && pcr < 8192
  {
    TableHead(2, 13 + |info| + |Streams(ss)|, about, version, current)
    + [Oct(0xE0 + pcr / 256), Oct(pcr % 256), Oct(0xF0 + |info| / 256), Oct(|info| % 256)] + info + Streams(ss) + crc
  }

  // The first MPEG-2, H.264 or HEVC stream that has a PID.
  function VideoOf(ss: seq<Stream>): Video
  {
    if ss == [] then NoVideo
    else if ss[0].kind in {0x02, 0x1B, 0x24} && ss[0].pid != 0 then Video(ss[0].pid, ss[0].kind)
    else VideoOf(ss[1..])
  }

  lemma StreamReads(e: Stream, sec: octets, i: nat, more: octets)
    requires e.pid < 8192 && |e.descriptors| < 4096 && i <= |sec| && sec[i..] == StreamBytes(e) + more
    ensures var next := i + 5 + |e.descriptors|;
      next <= |sec| && sec[next..] == more
      && sec[i] == e.kind && Pid13(sec[i + 1], sec[i + 2]) == e.pid
      && Len12(sec[i + 3], sec[i + 4]) == |e.descriptors|
  {
    hide Oct, Pid13, Len12;
    var b := StreamBytes(e);
    assert sec[i..][0] == b[0] && sec[i..][1] == b[1] && sec[i..][2] == b[2] && sec[i..][3] == b[3];
    assert sec[i..][4] == b[4];
    PidReads(e.pid);
    LengthReads(|e.descriptors|);
    assert sec[i + |b|..] == sec[i..][|b|..];
  }

  lemma Regrouped(a: octets, b: octets, c: octets)
    ensures a + b + c == a + (b + c)
  {
  }

  lemma StreamsSplit(ss: seq<Stream>)
    requires ss != [] && StreamsOk(ss)
    ensures StreamsOk(ss[1..]) && Streams(ss) == StreamBytes(ss[0]) + Streams(ss[1..])
  {
  }

  // One turn of the search.
  lemma VideoStep(sec: octets, i: nat)
    requires i + 9 <= |sec|
    ensures var kind, pid := sec[i], Pid13(sec[i + 1], sec[i + 2]);
      FirstVideo(sec, i) == if kind in {0x02, 0x1B, 0x24} && pid != 0 then Video(pid, kind)
                            else FirstVideo(sec, i + 5 + Len12(sec[i + 3], sec[i + 4]))
  {
    hide Pid13, Len12;
  }

  lemma {:induction false} StreamsRead(sec: octets, i: nat, ss: seq<Stream>, crc: octets)
    requires StreamsOk(ss) && |crc| == 4 && i <= |sec| && sec[i..] == Streams(ss) + crc
    ensures FirstVideo(sec, i) == VideoOf(ss)
    decreases |ss|
  {
    hide Streams, StreamBytes, Pid13, Len12, FirstVideo;
    if ss == [] {
      NoStreams(sec, i, crc);
    } else {
      StreamsSplit(ss);
      Regrouped(StreamBytes(ss[0]), Streams(ss[1..]), crc);
      var next, more := i + 5 + |ss[0].descriptors|, Streams(ss[1..]) + crc;
      StreamReads(ss[0], sec, i, more);
      Beyond(sec, next, more);
      VideoStep(sec, i);
      StreamsRead(sec, next, ss[1..], crc);
    }
  }

  lemma NoStreams(sec: octets, i: nat, crc: octets)
    requires |crc| == 4 && i <= |sec| && sec[i..] == Streams([]) + crc
    ensures FirstVideo(sec, i) == NoVideo
  {
    assert |sec[i..]| == 4;
  }

  lemma Beyond(sec: octets, next: nat, more: octets)
    requires next <= |sec| && sec[next..] == more
    ensures |sec| == next + |more|
  {
  }

  // A program map section: its version, whether it applies, and the video stream it names.
  lemma PmtReads(about: nat, version: nat, current: bool, pcr: nat, info: octets, ss: seq<Stream>, crc: octets)
    requires PmtOk(info, ss) && about < 0x1_0000 && version < 32 && pcr < 8192 && |crc| == 4
    ensures var sec := PmtSection(about, version, current, pcr, info, ss, crc);
      && (IsPmt(sec) <==> current) && |sec| > 11 && Version(sec) == version
      && FirstVideo(sec, 12 + Len12(sec[10], sec[11])) == VideoOf(ss)
  {
    hide FirstVideo, Version, Current, TableHead, Oct, Len12, Streams, PmtSection, IsPmt, VideoOf;
    var sec, n := PmtSection(about, version, current, pcr, info, ss, crc), 13 + |info| + |Streams(ss)|;
    PmtLayout(about, version, current, pcr, info, ss, crc);
    TableReads(sec, 2, n, about, version, current);
    Applies(sec, current);
    VideoReads(sec, info, ss, crc);
  }

  lemma VideoReads(sec: octets, info: octets, ss: seq<Stream>, crc: octets)
    requires StreamsOk(ss) && |info| < 4096 && |crc| == 4 && |sec| >= 16 + |info|
    requires sec[10] == Oct(0xF0 + |info| / 256) && sec[11] == Oct(|info| % 256)
    requires sec[12 + |info|..] == Streams(ss) + crc
    ensures FirstVideo(sec, 12 + Len12(sec[10], sec[11])) == VideoOf(ss)
  {
    hide FirstVideo, Oct, Len12, Streams, VideoOf;
    LengthReads(|info|);
    StreamsRead(sec, 12 + |info|, ss, crc);
  }

  lemma Applies(sec: octets, current: bool)
    requires |sec| >= 16 && sec[0] == 2 && (Current(sec) <==> current)
    ensures IsPmt(sec) <==> current
  {
    hide Current;
  }

  lemma PmtLayout(about: nat, version: nat, current: bool, pcr: nat, info: octets, ss: seq<Stream>, crc: octets)
    requires PmtOk(info, ss) && about < 0x1_0000 && version < 32 && pcr < 8192 && |crc| == 4
    ensures var sec := PmtSection(about, version, current, pcr, info, ss, crc);
      && |sec| >= 16 + |info| && TableHead(2, 13 + |info| + |Streams(ss)|, about, version, current) <= sec
      && sec[10] == Oct(0xF0 + |info| / 256) && sec[11] == Oct(|info| % 256)
      && sec[12 + |info|..] == Streams(ss) + crc
  {
    hide TableHead, Oct, Streams;
    var n := 13 + |info| + |Streams(ss)|;
    TableHeadLength(2, n, about, version, current);
    var four := [Oct(0xE0 + pcr / 256), Oct(pcr % 256), Oct(0xF0 + |info| / 256), Oct(|info| % 256)];
    Layout(TableHead(2, n, about, version, current), four, info, Streams(ss), crc);
  }

  lemma Layout(h: octets, four: octets, info: octets, streams: octets, crc: octets)
    requires |h| == 8 && |four| == 4
    ensures var sec := h + four + info + streams + crc;
      && |sec| == 12 + |info| + |streams| + |crc|
      && h <= sec && sec[10] == four[2] && sec[11] == four[3] && sec[12 + |info|..] == streams + crc
  {
  }
}
