/**
  Reassembly of one PSI section spread over transport packets (videots.cpp, PSIAssembler::feed;
  section 2.4.4 of ISO/IEC 13818-1).
 */
module PsiAssembler {
  import opened Bytes
  import opened TsCrc

  const MAX_SECTION := 1027

  datatype Psi = Psi(data: octets, want: nat, active: bool)
  datatype Found = Nothing | Corrupt | Section(bytes: octets)
  datatype Fed = Fed(s: Psi, found: Found)

  const IDLE := Psi([], 0, false)

  // section_length is 12 bits and excludes the three bytes before it.
  function SectionLength(d: octets): (n: nat)
    requires |d| >= 3
    ensures 3 <= n <= 4098
  {
    ((d[1] & 0x0F) as nat) * 256 + (d[2] as nat) + 3
  }

  function PsiFeed(s: Psi, payload: octets, start: bool): Fed
  {
    if payload == [] then Fed(s, Nothing)
    else if start then
      var ptr := payload[0] as nat;
      if ptr + 1 > |payload| then Fed(IDLE, Nothing)
      else Gather(Psi([], 0, true), payload[1 + ptr..])
    else if !s.active then Fed(s, Nothing)
    else Gather(s, payload)
  }

  // Append what fits; learn the length once three bytes are there.
  function Gather(s: Psi, p: octets): Fed
  {
    if p == [] then Fed(s, Nothing)
    else
      var space := if |s.data| <= MAX_SECTION then MAX_SECTION - |s.data| else 0;
      var d := s.data + p[..if |p| < space then |p| else space];
      if s.want != 0 then Finish(d, s.want, s.active)
      else if |d| < 3 then Fed(Psi(d, 0, s.active), Nothing)
      else if SectionLength(d) > MAX_SECTION || SectionLength(d) < 4 then Fed(IDLE, Nothing)
      else Finish(d, SectionLength(d), s.active)
  }

  // A complete section is handed out if its CRC holds, and in any case forgotten.
  function Finish(d: octets, want: nat, active: bool): Fed
  {
    if |d| < want then Fed(Psi(d, want, active), Nothing)
    else if Passes(d[..want]) then Fed(IDLE, Section(d[..want]))
    else Fed(IDLE, Corrupt)
  }

  // ---------------------------------------------------------------- any input

  predicate Sound(s: Psi)
  {
    && |s.data| <= MAX_SECTION
    && (s.want == 0 ==> |s.data| < 3)
    && (s.want != 0 ==> 3 <= |s.data| < s.want <= MAX_SECTION && s.want == SectionLength(s.data))
  }

  // On any input the buffer is never overrun, and what is handed out is a whole section whose
  // length field describes it and whose CRC holds.
  lemma FeedSound(s: Psi, payload: octets, start: bool)
    requires Sound(s)
    ensures Sound(PsiFeed(s, payload, start).s)
    ensures var f := PsiFeed(s, payload, start).found;
      f.Section? ==> 4 <= |f.bytes| <= MAX_SECTION && SectionLength(f.bytes) == |f.bytes| && Passes(f.bytes)
  {
    hide Passes, SectionLength;
    if payload != [] {
      if start {
        if payload[0] as nat + 1 <= |payload| { GatherSound(Psi([], 0, true), payload[1 + payload[0] as nat..]); }
      } else if s.active {
        GatherSound(s, payload);
      }
    }
  }

  lemma SameLength(d: octets, e: octets)
    requires |d| >= 3 && |e| >= 3 && d[..3] == e[..3]
    ensures SectionLength(d) == SectionLength(e)
  {
    assert d[1] == d[..3][1] == e[1] && d[2] == d[..3][2] == e[2];
  }

  lemma GatherSound(s: Psi, p: octets)
    requires Sound(s)
    ensures Sound(Gather(s, p).s)
    ensures var f := Gather(s, p).found;
      f.Section? ==> 4 <= |f.bytes| <= MAX_SECTION && SectionLength(f.bytes) == |f.bytes| && Passes(f.bytes)
  {
    hide Passes, SectionLength;
    if p != [] {
      var space := MAX_SECTION - |s.data|;
      var d := s.data + p[..if |p| < space then |p| else space];
      if |d| >= 3 {
        if s.want != 0 {
          assert d[..3] == s.data[..3];
          SameLength(d, s.data);
        }
        var w := SectionLength(d);
        if 4 <= w <= |d| {
          assert d[..w][..3] == d[..3];
          SameLength(d[..w], d);
        }
      }
    }
  }

  // ---------------------------------------------------------------- a section in pieces

  predicate ValidSection(sec: octets)
  {
    4 <= |sec| <= MAX_SECTION && SectionLength(sec) == |sec| && Passes(sec)
  }

  // What is found while continuation payloads are fed in turn.
  function FeedParts(s: Psi, parts: seq<octets>): seq<Found>
    decreases |parts|
  {
    if parts == [] then []
    else [PsiFeed(s, parts[0], false).found] + FeedParts(PsiFeed(s, parts[0], false).s, parts[1..])
  }

  // The state they leave.
  function AfterParts(s: Psi, parts: seq<octets>): Psi
    decreases |parts|
  {
    if parts == [] then s else AfterParts(PsiFeed(s, parts[0], false).s, parts[1..])
  }

  // The k-th payload yields the section, and no other yields anything.
  predicate OnlyAt(found: seq<Found>, k: nat, sec: octets)
  {
    && k < |found| && found[k] == Section(sec)
    && forall i | 0 <= i < |found| && i != k :: found[i] == Nothing
  }

  lemma {:induction false} MoreParts(s: Psi, parts: seq<octets>, more: seq<octets>)
    ensures FeedParts(s, parts + more) == FeedParts(s, parts) + FeedParts(AfterParts(s, parts), more)
    ensures |FeedParts(s, parts)| == |parts|
    decreases |parts|
  {
    hide PsiFeed;
    if parts == [] {
      assert parts + more == more;
    } else {
      assert (parts + more)[1..] == parts[1..] + more;
      MoreParts(PsiFeed(s, parts[0], false).s, parts[1..], more);
    }
  }

  // Part way through a section: its first bytes are in the buffer.
  predicate Partway(s: Psi, sec: octets)
  {
    && s.active && |s.data| < |sec| && s.data == sec[..|s.data|]
    && s.want == (if |s.data| < 3 then 0 else |sec|)
  }

  lemma PartNotLast(s: Psi, sec: octets, p: octets)
    requires ValidSection(sec) && Partway(s, sec)
    requires |s.data| + |p| < |sec| && p == sec[|s.data|..|s.data| + |p|]
    ensures var r := PsiFeed(s, p, false); r.found == Nothing && Partway(r.s, sec) && r.s.data == s.data + p
  {
    hide Passes, SectionLength;
    var d := s.data + p;
    assert d == sec[..|d|];
    assert p[..|p|] == p;
    if p == [] {
      assert s.data + [] == s.data;
    } else if |d| >= 3 {
      assert d[..3] == sec[..3];
      SameLength(d, sec);
    }
  }

  lemma PartLast(s: Psi, sec: octets, p: octets)
    requires ValidSection(sec) && Partway(s, sec)
    requires |sec| - |s.data| <= |p| && p[..|sec| - |s.data|] == sec[|s.data|..]
    ensures PsiFeed(s, p, false) == Fed(IDLE, Section(sec))
  {
    hide Passes, SectionLength;
    var space := MAX_SECTION - |s.data|;
    var d := s.data + p[..if |p| < space then |p| else space];
    assert d[..|sec|] == s.data + p[..|sec| - |s.data|];
    assert s.data + sec[|s.data|..] == sec;
    assert d[..3] == sec[..3] by { assert d[..3] == d[..|sec|][..3]; }
    SameLength(d, sec);
  }

  // Cutting a first part off bytes that begin with the rest of the section.
  lemma CutPart(sec: octets, n: nat, p: octets, rest: octets)
    requires n + |p| <= |sec| <= n + |p| + |rest| && (p + rest)[..|sec| - n] == sec[n..]
    ensures p == sec[n..n + |p|] && rest[..|sec| - n - |p|] == sec[n + |p|..]
  {
    var m := |sec| - n;
    assert p == (p + rest)[..m][..|p|];
    assert rest[..m - |p|] == (p + rest)[..m][|p|..];
  }

  lemma Begun(s: Psi, sec: octets)
    requires Partway(s, sec)
    ensures s.active && |s.data| < |sec|
  {
  }

  // Continuations that go on to complete the section, the last of them with any stuffing behind.
  lemma {:induction false} PartsComplete(s: Psi, sec: octets, parts: seq<octets>)
    requires ValidSection(sec) && Partway(s, sec) && parts != []
    requires |s.data| + |Join(parts[..|parts| - 1])| < |sec| <= |s.data| + |Join(parts)|
    requires Join(parts)[..|sec| - |s.data|] == sec[|s.data|..]
    ensures OnlyAt(FeedParts(s, parts), |parts| - 1, sec) && AfterParts(s, parts) == IDLE
    decreases |parts|
  {
    hide ValidSection, PsiFeed, Partway;
    assert s.active && |s.data| < |sec| by { Begun(s, sec); }
    var p, rest, n := parts[0], Join(parts[1..]), |s.data|;
    if |parts| == 1 {
      assert parts[1..] == [] && p + rest == p;
      PartLast(s, sec, p);
      assert FeedParts(s, parts) == [Section(sec)];
      assert AfterParts(IDLE, []) == IDLE;
    } else {
      var front := parts[..|parts| - 1];
      assert front[0] == p && front[1..] == parts[1..][..|parts| - 2];
      CutPart(sec, n, p, rest);
      PartNotLast(s, sec, p);
      PartsComplete(PsiFeed(s, p, false).s, sec, parts[1..]);
    }
  }

  // A unit-start payload: a pointer, that many bytes of an earlier section, then the first part.
  function StartPayload(ptr: bv8, skipped: octets, first: octets): octets
    requires |skipped| == ptr as nat
  {
    [ptr] + skipped + first
  }

  lemma StartGathers(s: Psi, ptr: bv8, skipped: octets, first: octets)
    requires |skipped| == ptr as nat
    ensures PsiFeed(s, StartPayload(ptr, skipped, first), true) == Gather(Psi([], 0, true), first)
  {
    hide Gather;
    assert StartPayload(ptr, skipped, first)[1 + |skipped|..] == first;
  }

  // What is found when a unit start and then continuations are fed in turn.
  function FeedUnit(s: Psi, ptr: bv8, skipped: octets, parts: seq<octets>): seq<Found>
    requires |skipped| == ptr as nat && parts != []
  {
    var r := PsiFeed(s, StartPayload(ptr, skipped, parts[0]), true);
    [r.found] + FeedParts(r.s, parts[1..])
  }

  // From whatever state, a valid section split in any way over a unit start and continuations is
  // handed out whole by the payload that completes it, and by no other before it or after it, however
  // many continuations follow.
  lemma Reassembled(s: Psi, ptr: bv8, skipped: octets, sec: octets, parts: seq<octets>, more: seq<octets>)
    requires |skipped| == ptr as nat && ValidSection(sec) && parts != []
    requires |Join(parts[..|parts| - 1])| < |sec| <= |Join(parts)| && Join(parts)[..|sec|] == sec
    ensures OnlyAt(FeedUnit(s, ptr, skipped, parts + more), |parts| - 1, sec)
  {
    hide ValidSection, StartPayload, Gather;
    var begun, all := Psi([], 0, true), parts + more;
    StartGathers(s, ptr, skipped, parts[0]);
    assert Partway(begun, sec) by { SectionLong(sec); }
    assert sec[0..] == sec;
    PartsComplete(begun, sec, parts);
    MoreParts(begun, parts, more);
    NothingTwice(IDLE, more);
    StillOnlyAt(FeedParts(begun, parts), |parts| - 1, sec, FeedParts(IDLE, more));
    assert all[0] == parts[0];
    assert PsiFeed(begun, parts[0], false) == Gather(begun, parts[0]) by { BegunGathers(parts[0]); }
    assert FeedUnit(s, ptr, skipped, all) == FeedParts(begun, all);
  }

  lemma StillOnlyAt(found: seq<Found>, k: nat, sec: octets, more: seq<Found>)
    requires OnlyAt(found, k, sec) && forall f | f in more :: f == Nothing
    ensures OnlyAt(found + more, k, sec)
  {
    forall i | 0 <= i < |found + more| && i != k ensures (found + more)[i] == Nothing {
      if i >= |found| { assert (found + more)[i] in more; }
    }
  }

  lemma BegunGathers(p: octets)
    ensures PsiFeed(Psi([], 0, true), p, false) == Gather(Psi([], 0, true), p)
  {
  }

  lemma SectionLong(sec: octets)
    requires ValidSection(sec)
    ensures |sec| >= 4
  {
  }

  // After a section, continuations yield nothing until the next unit start.
  lemma {:induction false} NothingTwice(s: Psi, parts: seq<octets>)
    requires !s.active
    ensures forall f | f in FeedParts(s, parts) :: f == Nothing
    decreases |parts|
  {
    if parts != [] { NothingTwice(s, parts[1..]); }
  }

  // ---------------------------------------------------------------- the assembler object

  class Assembler {
    const buf: array<bv8>
    var len: nat
    var want: nat
    var active: bool

    ghost predicate Valid()
      reads this, buf
    {
      buf.Length == MAX_SECTION && len <= MAX_SECTION && Sound(View())
    }

    ghost function View(): Psi
      reads this, buf
      requires len <= buf.Length
    {
      Psi(buf[..len], want, active)
    }

    constructor ()
      ensures Valid() && View() == IDLE && fresh(buf)
    {
      buf := new bv8[MAX_SECTION];
      len, want, active := 0, 0, false;
    }

    method Reset()
      requires Valid()
      modifies this
      ensures Valid() && View() == IDLE
    {
      len, want, active := 0, 0, false;
    }

    // Feed one packet's PSI payload. The CRC table is shared and built on first use.
    method Feed(payload: octets, start: bool, crc: CrcTable) returns (found: Found)
      requires Valid() && crc.Valid() && {crc, crc.entries} !! {this, buf}
      modifies this, buf, crc, crc.entries
      ensures Valid() && crc.Valid()
      ensures Fed(View(), found) == PsiFeed(old(View()), payload, start)
    {
      hide Gather;
      ghost var s := View();
      if payload == [] { return Nothing; }
      var p := payload;
      if start {
        var ptr := payload[0] as nat;
        if ptr + 1 > |payload| {
          len, want, active := 0, 0, false;
          return Nothing;
        }
        p := payload[1 + ptr..];
        len, active, want := 0, true, 0;
      } else if !active {
        return Nothing;
      }
      found := Append(p, crc);
    }

    method CopyIn(p: octets, take: nat)
      requires take <= |p| && len + take <= buf.Length
      modifies this`len, buf
      ensures len == old(len) + take && buf[..len] == old(buf[..len]) + p[..take]
    {
      forall k | 0 <= k < take { buf[len + k] := p[k]; }
      assert buf[..len + take] == buf[..len] + buf[len..len + take];
      len := len + take;
    }

    method Append(p: octets, crc: CrcTable) returns (found: Found)
      requires Valid() && crc.Valid() && {crc, crc.entries} !! {this, buf}
      modifies this, buf, crc, crc.entries
      ensures Valid() && crc.Valid()
      ensures Fed(View(), found) == Gather(old(View()), p)
    {
      hide Passes, SectionLength, Finish;
      ghost var s := View();
      GatherSound(s, p);
      if p == [] { return Nothing; }
      var space := buf.Length - len;
      CopyIn(p, if |p| < space then |p| else space);
      if want == 0 {
        if len < 3 { return Nothing; }
        want := SectionLength(buf[..len]);
        if want > MAX_SECTION || want < 4 {
          len, want, active := 0, 0, false;
          return Nothing;
        }
      }
      found := TakeSection(crc);
    }

    method TakeSection(crc: CrcTable) returns (found: Found)
      requires buf.Length == MAX_SECTION && len <= MAX_SECTION && crc.Valid() && {crc, crc.entries} !! {this, buf}
      modifies this, crc, crc.entries
      ensures len <= MAX_SECTION && crc.Valid()
      ensures Fed(View(), found) == Finish(old(buf[..len]), old(want), old(active))
    {
      hide Passes;
      if len < want { return Nothing; }
      var sec := buf[..want];
      assert sec == buf[..len][..want];
      active, len, want := false, 0, 0;
      var residue := crc.Crc32(sec);
      SerialPasses(sec);
      found := if residue != 0 then Corrupt else Section(sec);
    }
  }

  lemma SerialPasses(sec: octets)
    ensures Passes(sec) <==> Serial(Ones(), sec) == 0
  {
    hide Crc, Serial;
    TableIsSerial(Ones(), sec);
  }
}
