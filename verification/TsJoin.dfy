/**
  Whether a viewer that starts at the join offset of a transport stream can play from it.

  videots.h:9-13 says what such a viewer needs, in order: a PAT, a PMT, an access point. The viewer here is
  the scanner itself, new, fed from the join offset on: it takes the packet the offset was given for as an
  access point exactly when it has learnt the program by then.
 */
module TsJoin {
  import opened Bytes
  import opened Numbers
  import opened TsCrc
  import opened TsFraming
  import opened PsiAssembler
  import opened TsScanner

  // A new scanner fed the packets from m up to n.
  function Viewer(calls: seq<Call>, m: nat, n: nat): Scan
    requires m <= n <= |calls| && WellFormedCalls(calls)
    decreases n
  {
    if n == m then New() else Packet(Viewer(calls, m, n - 1), calls[n - 1].p, calls[n - 1].off)
  }

  ghost predicate PatDone(calls: seq<Call>, n: nat)
    requires n < |calls| && WellFormedCalls(calls)
  {
    CompletesPat(After(calls, n), calls[n].p)
  }

  ghost predicate PmtDone(calls: seq<Call>, n: nat)
    requires n < |calls| && WellFormedCalls(calls)
  {
    CompletesPmt(After(calls, n), calls[n].p)
  }

  // Packet n is the first of a section on the PID of the program map.
  ghost predicate PmtStarts(calls: seq<Call>, n: nat)
    requires n < |calls| && WellFormedCalls(calls)
  {
    RoleOf(After(calls, n), calls[n].p).PmtPart? && UnitStart(calls[n].p)
  }

  // Packets i and j complete the last PAT and the last PMT before packet k.
  ghost predicate LastTables(calls: seq<Call>, i: nat, j: nat, k: nat)
    requires WellFormedCalls(calls)
  {
    && i < k < |calls| && j < k && PatDone(calls, i) && PmtDone(calls, j)
    && (forall n | i < n < k :: !PatDone(calls, n))
    && (forall n | j < n < k :: !PmtDone(calls, n))
  }

  // What a PAT and a PMT say.
  function PatNames(sec: octets): Offset
  {
    FirstProgram(sec, 8)
  }

  function PmtNames(sec: octets): Video
    requires |sec| >= 12
  {
    FirstVideo(sec, 12 + Len12(sec[10], sec[11]))
  }

  // A table of the version in force is not read again: it has to say what is in force.
  predicate Honest(s: Scan, p: packet)
  {
    && (CompletesPat(s, p) && s.prog.havePat && Version(Completed(s, p).bytes) == s.prog.patVersion ==>
          PatNames(Completed(s, p).bytes) in {Unknown, At(s.prog.pmtPid)})
    && (CompletesPmt(s, p) && s.prog.havePmt && Version(Completed(s, p).bytes) == s.prog.pmtVersion ==>
          PmtNames(Completed(s, p).bytes) in {NoVideo, Video(s.prog.videoPid, s.prog.videoType)})
  }

  // From packet m to packet k versions tell tables apart.
  ghost predicate HonestFrom(calls: seq<Call>, m: nat, k: nat)
    requires m <= k <= |calls| && WellFormedCalls(calls)
  {
    forall n | m <= n < k :: Honest(After(calls, n), calls[n].p)
  }

  // ---------------------------------------------------------------- one packet at both scanners

  // What of a scanner matters here.
  datatype View = View(pat: Psi, pmt: Psi, prog: Program)

  function Seen(s: Scan): View
  {
    View(s.pat, s.pmt, s.prog)
  }

  // A packet as far as the tables are concerned.
  function Told(s: Scan, p: packet): View
  {
    var f := Completed(s, p);
    match RoleOf(s, p)
    case PatPart =>
      var v := View(PsiFeed(s.pat, Payload(p), UnitStart(p)).s, s.pmt, s.prog);
      if !CompletesPat(s, p) || (s.prog.havePat && Version(f.bytes) == s.prog.patVersion) then v
      else
        var first := PatNames(f.bytes);
        v.(prog := Moved(s.prog, Version(f.bytes), first),
           pmt := if first.At? && first.at != s.prog.pmtPid then IDLE else s.pmt)
    case PmtPart =>
      var v := View(s.pat, PsiFeed(s.pmt, Payload(p), UnitStart(p)).s, s.prog);
      if !CompletesPmt(s, p) || (s.prog.havePmt && Version(f.bytes) == s.prog.pmtVersion) then v
      else
        v.(prog := Described(s.prog, Version(f.bytes), PmtNames(f.bytes)))
    case _ => Seen(s)
  }

  lemma PacketTells(s: Scan, p: packet, off: nat)
    ensures Seen(Packet(s, p, off)) == Told(s, p)
  {
    hide PsiFeed, Payload, UnitStart, Pid, Counter, Version, FirstProgram, FirstVideo, Len12, Moved, Described;
    hide Anchored;
  }

  // The viewer's assembler has the scanner's section in progress, or none.
  predicate Lags(v: Psi, s: Psi)
  {
    v == s || !v.active
  }

  // The viewer knows nothing but what the scanner knows.
  predicate Behind(v: View, s: View)
  {
    var g, h := v.prog, s.prog;
    && Lags(v.pat, s.pat) && Lags(v.pmt, s.pmt)
    && (g.havePat ==> v.pat == s.pat && h.havePat && g.pmtPid == h.pmtPid && g.patVersion == h.patVersion)
    && (!g.havePat ==> !g.havePmt && !v.pmt.active)
    && (g.havePmt ==> v.pmt == s.pmt && g == h)
  }

  // An assembler that lags finds what the other finds or nothing; after a unit start they agree.
  lemma LagFeed(v: Psi, s: Psi, payload: octets, start: bool)
    requires Lags(v, s)
    ensures var a, b := PsiFeed(v, payload, start), PsiFeed(s, payload, start);
      && Lags(a.s, b.s) && (a.found.Section? ==> a.found == b.found)
      && (v == s || (start && payload != []) ==> a == b)
      && (!v.active && !start ==> a.s == v && a.found == Nothing)
  {
    hide Gather;
  }

  // The viewer plays the same part in a packet as the scanner, as far as it knows the program.
  lemma SameRole(v: Scan, s: Scan, p: packet)
    requires Behind(Seen(v), Seen(s))
    ensures RoleOf(v, p).PatPart? <==> RoleOf(s, p).PatPart?
    ensures RoleOf(v, p).PmtPart? <==> RoleOf(s, p).PmtPart? && v.prog.havePat
    ensures RoleOf(v, p).PatPart? || RoleOf(v, p).PmtPart? ==> Payload(p) != []
  {
    hide Payload, Pid, RandomAccessBit, UnitStart, RandomAccessPayload, Lags;
  }

  // A table completed at the viewer is completed at the scanner too, the same section.
  lemma SameTables(v: Scan, s: Scan, p: packet)
    requires Behind(Seen(v), Seen(s))
    ensures CompletesPat(v, p) ==> CompletesPat(s, p) && Completed(v, p) == Completed(s, p)
    ensures CompletesPmt(v, p) ==> CompletesPmt(s, p) && Completed(v, p) == Completed(s, p)
    ensures v.prog.havePat && CompletesPmt(s, p) && (v.pmt == s.pmt || UnitStart(p)) ==> CompletesPmt(v, p)
    ensures v.prog.havePat && CompletesPat(s, p) ==> CompletesPat(v, p)
    ensures !v.pmt.active && !UnitStart(p) ==> !CompletesPmt(v, p)
  {
    hide RoleOf, Payload, UnitStart, IsPat, IsPmt, PsiFeed, Lags;
    SameRole(v, s, p);
    assert Lags(v.pat, s.pat) && Lags(v.pmt, s.pmt);
    LagFeed(v.pat, s.pat, Payload(p), UnitStart(p));
    LagFeed(v.pmt, s.pmt, Payload(p), UnitStart(p));
  }

  // One packet keeps the viewer behind. It gains a program by completing its tables, and in no other way.
  lemma BehindStep(v: Scan, s: Scan, p: packet)
    requires Behind(Seen(v), Seen(s)) && Honest(s, p)
    ensures var g, h := v.prog, Told(v, p).prog;
      && Behind(Told(v, p), Told(s, p))
      && (h.havePat ==> g.havePat || CompletesPat(v, p)) && (g.havePat ==> h.havePat)
      && (h.havePmt ==> g.havePmt || CompletesPmt(v, p))
      && (!CompletesPat(s, p) ==>
            (h.havePmt <==> g.havePmt || (CompletesPmt(v, p) && PmtNames(Completed(s, p).bytes).Video?)))
  {
    hide RoleOf, Payload, UnitStart, IsPat, IsPmt, PsiFeed, PatNames, PmtNames, Version;
    SameRole(v, s, p);
    SameTables(v, s, p);
    LagFeed(v.pat, s.pat, Payload(p), UnitStart(p));
    LagFeed(v.pmt, s.pmt, Payload(p), UnitStart(p));
  }

  // Once it knows the program map's PID, a unit start there puts the viewer in step, and it stays so.
  lemma StepInStep(v: Scan, s: Scan, p: packet)
    requires Behind(Seen(v), Seen(s)) && v.prog.havePat && !CompletesPat(s, p)
    ensures v.pmt == s.pmt || (RoleOf(s, p).PmtPart? && UnitStart(p)) ==> Told(v, p).pmt == Told(s, p).pmt
    ensures !v.pmt.active && !(RoleOf(s, p).PmtPart? && UnitStart(p)) ==>
      !Told(v, p).pmt.active && !CompletesPmt(v, p)
  {
    hide RoleOf, Payload, UnitStart, IsPat, IsPmt, PsiFeed, PatNames, PmtNames, Version;
    SameRole(v, s, p);
    SameTables(v, s, p);
    LagFeed(v.pmt, s.pmt, Payload(p), UnitStart(p));
  }

  // The first packet: a new scanner learns a PAT that fits into it, and nothing else.
  lemma FirstStep(s: Scan, p: packet)
    requires Honest(s, p) && (CompletesPat(s, p) || CompletesPmt(s, p))
    ensures var w := Told(New(), p);
      && Behind(w, Told(s, p)) && !w.prog.havePmt && !w.pmt.active
      && (w.prog.havePat <==> CompletesPat(s, p) && UnitStart(p) && PatNames(Completed(s, p).bytes).At?)
  {
    hide Payload, UnitStart, IsPat, IsPmt, PsiFeed, PatNames, PmtNames, Version, Pid, RandomAccessBit;
    hide RandomAccessPayload;
    LagFeed(IDLE, s.pat, Payload(p), UnitStart(p));
    FoundIdles(s.pat, Payload(p), UnitStart(p));
  }

  // A section that is handed out leaves its assembler empty.
  lemma FoundIdles(s: Psi, payload: octets, start: bool)
    ensures PsiFeed(s, payload, start).found.Section? ==> PsiFeed(s, payload, start).s == IDLE
  {
    hide Passes, SectionLength;
  }

  // Only a PAT brings the program map, and only a PMT the program.
  lemma BroughtBy(s: Scan, p: packet)
    ensures var t := Told(s, p).prog;
      && (t.havePat && !s.prog.havePat ==> CompletesPat(s, p)) && (s.prog.havePat ==> t.havePat)
      && (t.havePmt && !s.prog.havePmt ==> CompletesPmt(s, p)) && (CompletesPmt(s, p) ==> s.prog.havePat)
  {
    hide Payload, UnitStart, IsPat, IsPmt, PsiFeed, PatNames, PmtNames, Version, Pid, RandomAccessBit;
    hide RandomAccessPayload;
  }

  // ---------------------------------------------------------------- whole runs

  // The viewer that starts at packet m is behind the scanner from there on.
  lemma {:induction false} StaysBehind(calls: seq<Call>, m: nat, n: nat, k: nat)
    requires m < n <= k <= |calls| && WellFormedCalls(calls) && HonestFrom(calls, m, k)
    requires PatDone(calls, m) || PmtDone(calls, m)
    ensures Behind(Seen(Viewer(calls, m, n)), Seen(After(calls, n)))
    decreases n
  {
    hide Packet, Told, CompletesPat, CompletesPmt, Behind, Honest;
    var v, s, p, off := Viewer(calls, m, n - 1), After(calls, n - 1), calls[n - 1].p, calls[n - 1].off;
    assert Honest(s, p);
    PacketTells(s, p, off);
    PacketTells(v, p, off);
    if n == m + 1 {
      FirstStep(s, p);
    } else {
      StaysBehind(calls, m, n - 1, k);
      BehindStep(v, s, p);
    }
  }

  // One packet further on, as the lemmas about single packets see it.
  lemma OneOn(calls: seq<Call>, m: nat, n: nat, k: nat)
    requires m < n < k <= |calls| && WellFormedCalls(calls) && HonestFrom(calls, m, k)
    requires PatDone(calls, m) || PmtDone(calls, m)
    ensures var v, s, p := Viewer(calls, m, n), After(calls, n), calls[n].p;
      && Behind(Seen(v), Seen(s)) && Honest(s, p)
      && Seen(Viewer(calls, m, n + 1)) == Told(v, p) && Seen(After(calls, n + 1)) == Told(s, p)
  {
    hide Packet, Told, CompletesPat, CompletesPmt, Behind, Honest;
    StaysBehind(calls, m, n, k);
    PacketTells(Viewer(calls, m, n), calls[n].p, calls[n].off);
    PacketTells(After(calls, n), calls[n].p, calls[n].off);
  }

  // Started at the packet that completes the PMT, the viewer has no program as long as no other PMT comes.
  lemma {:induction false} NoProgram(calls: seq<Call>, j: nat, n: nat, k: nat)
    requires j < n <= k <= |calls| && WellFormedCalls(calls) && HonestFrom(calls, j, k) && PmtDone(calls, j)
    requires forall c | j < c < n :: !PmtDone(calls, c)
    ensures !Viewer(calls, j, n).prog.havePmt
    decreases n
  {
    hide Packet, Told, CompletesPat, CompletesPmt, Behind, Honest;
    if n == j + 1 {
      OpeningPacket(calls, j, k);
    } else {
      var v, s, p := Viewer(calls, j, n - 1), After(calls, n - 1), calls[n - 1].p;
      NoProgram(calls, j, n - 1, k);
      OneOn(calls, j, n - 1, k);
      BehindStep(v, s, p);
      SameTables(v, s, p);
      assert !PmtDone(calls, n - 1);
      assert Seen(Viewer(calls, j, n)).prog == Told(v, p).prog;
    }
  }

  // Packet i completes a PAT that names a program and fits into it.
  ghost predicate WholePat(calls: seq<Call>, i: nat)
    requires i < |calls| && WellFormedCalls(calls)
  {
    PatDone(calls, i) && UnitStart(calls[i].p) && PatNames(Completed(After(calls, i), calls[i].p).bytes).At?
  }

  // Packet c completes a PMT that names a video stream.
  ghost predicate VideoPmt(calls: seq<Call>, c: nat)
    requires c < |calls| && WellFormedCalls(calls)
  {
    PmtDone(calls, c) && PmtNames(Completed(After(calls, c), calls[c].p).bytes).Video?
  }

  lemma OpeningPacket(calls: seq<Call>, m: nat, k: nat)
    requires m < k <= |calls| && WellFormedCalls(calls) && HonestFrom(calls, m, k)
    requires PatDone(calls, m) || PmtDone(calls, m)
    ensures var v := Viewer(calls, m, m + 1);
      && !v.prog.havePmt && !v.pmt.active && (v.prog.havePat <==> WholePat(calls, m))
  {
    hide Packet, Told, CompletesPat, CompletesPmt, Behind, Honest, UnitStart, PatNames;
    var s, p := After(calls, m), calls[m].p;
    assert Honest(s, p);
    PacketTells(New(), p, calls[m].off);
    assert Viewer(calls, m, m) == New();
    assert Viewer(calls, m, m + 1) == Packet(New(), p, calls[m].off);
    FirstStep(s, p);
    assert Seen(Viewer(calls, m, m + 1)) == Told(New(), p);
  }

  // Started at packet i, the viewer has seen a section begin on the program map's PID before packet n.
  ghost predicate Begun(calls: seq<Call>, i: nat, n: nat)
    requires n <= |calls| && WellFormedCalls(calls)
  {
    exists u | i < u < n :: PmtStarts(calls, u)
  }

  ghost predicate Learnt(calls: seq<Call>, i: nat, n: nat)
    requires n <= |calls| && WellFormedCalls(calls)
  {
    exists c | i < c < n :: VideoPmt(calls, c) && Begun(calls, i, c + 1)
  }

  lemma BegunOn(calls: seq<Call>, i: nat, n: nat)
    requires i < n < |calls| && WellFormedCalls(calls)
    ensures Begun(calls, i, n + 1) <==> Begun(calls, i, n) || PmtStarts(calls, n)
  {
    hide PmtStarts;
  }

  lemma LearntOn(calls: seq<Call>, i: nat, n: nat)
    requires i < n < |calls| && WellFormedCalls(calls)
    ensures Learnt(calls, i, n + 1) <==> Learnt(calls, i, n) || (VideoPmt(calls, n) && Begun(calls, i, n + 1))
  {
    hide VideoPmt, Begun;
  }

  // Without the PAT there is no program; with it, the viewer follows the first section that begins on
  // the program map's PID, and learns the program from the first PMT with video it has followed.
  ghost predicate Learning(calls: seq<Call>, i: nat, n: nat)
    requires i < n <= |calls| && WellFormedCalls(calls)
  {
    var v, s := Viewer(calls, i, n), After(calls, n);
    && (v.prog.havePat <==> WholePat(calls, i))
    && (v.prog.havePat && Begun(calls, i, n) ==> v.pmt == s.pmt)
    && (!Begun(calls, i, n) ==> !v.pmt.active)
    && (v.prog.havePmt <==> v.prog.havePat && Learnt(calls, i, n))
  }

  lemma LearnsOn(calls: seq<Call>, i: nat, n: nat, k: nat)
    requires i < n < k <= |calls| && WellFormedCalls(calls) && HonestFrom(calls, i, k) && PatDone(calls, i)
    requires !PatDone(calls, n) && Learning(calls, i, n)
    ensures Learning(calls, i, n + 1)
  {
    hide Packet, Told, CompletesPat, CompletesPmt, Honest, UnitStart, RoleOf, Begun, Learnt, After, Viewer, HonestFrom;
    hide WholePat, PmtNames;
    var v, s, p := Viewer(calls, i, n), After(calls, n), calls[n].p;
    OneOn(calls, i, n, k);
    BehindStep(v, s, p);
    SameTables(v, s, p);
    if v.prog.havePat { StepInStep(v, s, p); }
    BegunOn(calls, i, n);
    LearntOn(calls, i, n);
    assert Seen(Viewer(calls, i, n + 1)) == Told(v, p) && Seen(After(calls, n + 1)) == Told(s, p);
  }

  lemma {:induction false} Learns(calls: seq<Call>, i: nat, n: nat, k: nat)
    requires i < n <= k <= |calls| && WellFormedCalls(calls) && HonestFrom(calls, i, k) && PatDone(calls, i)
    requires forall c | i < c < k :: !PatDone(calls, c)
    ensures Learning(calls, i, n)
    decreases n
  {
    hide After, Viewer, HonestFrom, PatDone, WholePat, PmtStarts, VideoPmt;
    if n == i + 1 {
      OpeningPacket(calls, i, k);
    } else {
      Learns(calls, i, n - 1, k);
      assert !PatDone(calls, n - 1);
      LearnsOn(calls, i, n - 1, k);
    }
  }

  // ---------------------------------------------------------------- the join offset

  // The viewer takes the scanner's access point for one exactly when it has a program.
  lemma SameAccess(v: Scan, s: Scan, p: packet)
    requires Behind(Seen(v), Seen(s)) && RoleOf(s, p).AccessPoint?
    ensures RoleOf(v, p).AccessPoint? <==> v.prog.havePmt
  {
    hide Payload, Pid, RandomAccessBit, UnitStart, RandomAccessPayload, Lags;
  }

  // The PAT names a program and fits into its packet, and a PMT with video begins and ends behind it.
  ghost predicate InOrder(calls: seq<Call>, i: nat, k: nat)
    requires WellFormedCalls(calls) && i < k <= |calls|
  {
    WholePat(calls, i) && Learnt(calls, i, k)
  }

  // For every run, and every access point k with the last PAT and PMT completed by packets i and j before
  // it: a new scanner fed from the earlier of the two takes packet k for an access point exactly when
  // the PAT comes first and fits into its packet, and a PMT with video begins and ends after it.
  lemma JoinIsPlayable(calls: seq<Call>, i: nat, j: nat, k: nat)
    requires WellFormedCalls(calls) && LastTables(calls, i, j, k) && AccessAt(calls, k)
    requires HonestFrom(calls, Min(i, j), k)
    ensures RoleOf(Viewer(calls, Min(i, j), k), calls[k].p).AccessPoint? <==> i < j && InOrder(calls, i, k)
  {
    hide After, Viewer, HonestFrom, PatDone, PmtDone, RoleOf, Behind, Seen, WholePat, Learnt;
    var m, s := Min(i, j), After(calls, k);
    NotBoth(calls, i, j);
    StaysBehind(calls, m, k, k);
    SameAccess(Viewer(calls, m, k), s, calls[k].p);
    if i < j {
      Learns(calls, i, k, k);
    } else {
      NoProgram(calls, j, k, k);
    }
  }

  lemma NotBoth(calls: seq<Call>, i: nat, j: nat)
    requires WellFormedCalls(calls) && i < |calls| && j < |calls| && PatDone(calls, i) && PmtDone(calls, j)
    ensures i != j
  {
    hide RoleOf, After;
  }

  // When the last PMT names a video stream, it is enough that a section begins between the two tables.
  lemma LearntFromLast(calls: seq<Call>, i: nat, j: nat, k: nat)
    requires WellFormedCalls(calls) && LastTables(calls, i, j, k) && VideoPmt(calls, j)
    ensures Learnt(calls, i, k) <==> exists u | i < u <= j :: PmtStarts(calls, u)
  {
    hide PatDone, PmtDone, PmtStarts, PmtNames;
    if u: nat :| i < u <= j && PmtStarts(calls, u) {
      assert Begun(calls, i, j + 1);
    }
  }

  lemma {:induction false} PmtNeedsPat(calls: seq<Call>, n: nat)
    requires n <= |calls| && WellFormedCalls(calls) && After(calls, n).prog.havePmt
    ensures After(calls, n).prog.havePat
  {
    hide Packet, Told, CompletesPat, CompletesPmt;
    if n > 0 {
      var s, p := After(calls, n - 1), calls[n - 1].p;
      PacketTells(s, p, calls[n - 1].off);
      BroughtBy(s, p);
      assert Told(s, p) == Seen(After(calls, n));
      if s.prog.havePmt { PmtNeedsPat(calls, n - 1); }
    }
  }

  lemma {:induction false} LastPat(calls: seq<Call>, n: nat) returns (i: nat)
    requires n <= |calls| && WellFormedCalls(calls) && After(calls, n).prog.havePat
    ensures i < n && PatDone(calls, i) && forall c | i < c < n :: !PatDone(calls, c)
  {
    hide Packet, Told, CompletesPat, CompletesPmt;
    var s, p := After(calls, n - 1), calls[n - 1].p;
    PacketTells(s, p, calls[n - 1].off);
    BroughtBy(s, p);
    assert Told(s, p) == Seen(After(calls, n));
    if PatDone(calls, n - 1) { i := n - 1; } else { i := LastPat(calls, n - 1); }
  }

  lemma {:induction false} LastPmt(calls: seq<Call>, n: nat) returns (j: nat)
    requires n <= |calls| && WellFormedCalls(calls) && After(calls, n).prog.havePmt
    ensures j < n && PmtDone(calls, j) && forall c | j < c < n :: !PmtDone(calls, c)
  {
    hide Packet, Told, CompletesPat, CompletesPmt;
    var s, p := After(calls, n - 1), calls[n - 1].p;
    PacketTells(s, p, calls[n - 1].off);
    BroughtBy(s, p);
    assert Told(s, p) == Seen(After(calls, n));
    if PmtDone(calls, n - 1) { j := n - 1; } else { j := LastPmt(calls, n - 1); }
  }

  // Every access point has a last PAT and a last PMT before it.
  lemma AccessHasTables(calls: seq<Call>, k: nat) returns (i: nat, j: nat)
    requires WellFormedCalls(calls) && AccessAt(calls, k)
    ensures LastTables(calls, i, j, k)
  {
    hide After, RoleOf, PatDone, PmtDone;
    AccessNeedsPmt(After(calls, k), calls[k].p);
    PmtNeedsPat(calls, k);
    i := LastPat(calls, k);
    j := LastPmt(calls, k);
  }

  predicate Ascending(calls: seq<Call>)
  {
    forall a, b | 0 <= a <= b < |calls| :: calls[a].off <= calls[b].off
  }

  lemma {:induction false} MarksAreLast(calls: seq<Call>, i: nat, n: nat)
    requires i < n <= |calls| && WellFormedCalls(calls)
    ensures PatDone(calls, i) && (forall c | i < c < n :: !PatDone(calls, c))
      ==> After(calls, n).marks.patOff == At(calls[i].off)
    ensures PmtDone(calls, i) && (forall c | i < c < n :: !PmtDone(calls, c))
      ==> After(calls, n).marks.pmtOff == At(calls[i].off)
    decreases n
  {
    hide Packet, RoleOf, Completed, IsPat, IsPmt;
    var s, p, off := After(calls, n - 1), calls[n - 1].p, calls[n - 1].off;
    PacketEffect(s, p, off);
    if n > i + 1 {
      MarksAreLast(calls, i, n - 1);
      assert PatDone(calls, n - 1) == CompletesPat(s, p) && PmtDone(calls, n - 1) == CompletesPmt(s, p);
    }
  }

  // At an access point the anchor becomes the earlier of the last PAT's and the last PMT's position.
  lemma AnchorIsEarlier(calls: seq<Call>, i: nat, j: nat, k: nat)
    requires WellFormedCalls(calls) && LastTables(calls, i, j, k) && AccessAt(calls, k) && Ascending(calls)
    ensures JoinOffset(After(calls, k + 1)) == At(calls[Min(i, j)].off)
  {
    hide Packet, RoleOf, Completed, IsPat, IsPmt, PatDone, PmtDone;
    MarksAreLast(calls, i, k);
    MarksAreLast(calls, j, k);
    var s, p := After(calls, k), calls[k].p;
    AccessNeedsPmt(s, p);
    PacketEffect(s, p, calls[k].off);
    AccessKeepsProgram(s, p, calls[k].off);
    assert calls[i].off <= calls[k].off && calls[j].off <= calls[k].off;
    assert calls[i].off <= calls[j].off || calls[j].off <= calls[i].off;
    assert i <= j ==> calls[i].off <= calls[j].off;
    assert j <= i ==> calls[j].off <= calls[i].off;
  }

  lemma AccessKeepsProgram(s: Scan, p: packet, off: nat)
    requires RoleOf(s, p).AccessPoint?
    ensures Packet(s, p, off).prog == s.prog
  {
    hide Packet, Completed;
    PacketTells(s, p, off);
    assert Seen(Packet(s, p, off)).prog == s.prog;
  }

  // ---------------------------------------------------------------- in bytes

  function PacketAt(stream: octets, base: nat, n: nat): Call
    requires PACKET * n + PACKET <= |stream|
  {
    Call(stream[PACKET * n..PACKET * n + PACKET], base + PACKET * n)
  }

  lemma {:induction false} PacketsAre(stream: octets, base: nat, c: nat)
    requires PACKET * c <= |stream|
    ensures |Packets(stream, base, c)| == c
    ensures forall n | 0 <= n < c :: Packets(stream, base, c)[n] == PacketAt(stream, base, n)
    ensures WellFormedCalls(Packets(stream, base, c)) && Ascending(Packets(stream, base, c))
  {
    if c > 0 { PacketsAre(stream, base, c - 1); }
  }

  // The packets from the m-th on are those of the stream from there on.
  lemma PacketsFrom(stream: octets, base: nat, m: nat, c: nat)
    requires m <= c && PACKET * c <= |stream|
    ensures |Packets(stream, base, c)| == c
    ensures Packets(stream[PACKET * m..], base + PACKET * m, c - m) == Packets(stream, base, c)[m..]
  {
    hide Packets;
    var late := stream[PACKET * m..];
    PacketsAre(stream, base, c);
    PacketsAre(late, base + PACKET * m, c - m);
    forall n | 0 <= n < c - m
      ensures Packets(late, base + PACKET * m, c - m)[n] == Packets(stream, base, c)[m..][n]
    {
      assert late[PACKET * n..PACKET * n + PACKET] == stream[PACKET * (m + n)..PACKET * (m + n) + PACKET];
    }
  }

  lemma {:induction false} ViewerIsAfter(calls: seq<Call>, m: nat, n: nat)
    requires m <= n <= |calls| && WellFormedCalls(calls)
    ensures After(calls[m..], n - m) == Viewer(calls, m, n)
    decreases n
  {
    hide Packet;
    if n > m {
      ViewerIsAfter(calls, m, n - 1);
      assert calls[m..][n - m - 1] == calls[n - 1];
    }
  }

  lemma AlignedFrom(stream: octets, m: nat)
    requires Aligned(stream) && PACKET * m <= |stream|
    ensures Aligned(stream[PACKET * m..])
  {
    forall k | 0 <= k < |stream| - PACKET * m && k % PACKET == 0 ensures stream[PACKET * m..][k] == SYNC {
      MultipleMod(m + k / PACKET);
      assert PACKET * m + k == PACKET * (m + k / PACKET);
    }
  }

  // Packet k is an access point, with the last tables at i and j and honest versions since.
  ghost predicate Reached(calls: seq<Call>, i: nat, j: nat, k: nat)
  {
    WellFormedCalls(calls) && LastTables(calls, i, j, k) && AccessAt(calls, k) && HonestFrom(calls, Min(i, j), k)
  }

  // A new scanner fed `seen` takes the n-th packet for an access point.
  predicate PlaysAt(seen: seq<Call>, n: nat)
  {
    WellFormedCalls(seen) && n < |seen| && RoleOf(After(seen, n), seen[n].p).AccessPoint?
  }

  // The join offset once packet k is in.
  function JoinAfter(calls: seq<Call>, k: nat): Offset
  {
    if WellFormedCalls(calls) && k < |calls| then JoinOffset(After(calls, k + 1)) else Unknown
  }

  ghost predicate TablesInOrder(calls: seq<Call>, i: nat, j: nat, k: nat)
  {
    WellFormedCalls(calls) && i < j && i < k <= |calls| && InOrder(calls, i, k)
  }

  // An aligned stream in any pieces, its packet k an access point, and a viewer that gets the stream from the
  // join offset then in force on, in any pieces: it takes that packet for an access point exactly
  // when the tables before it are in order.
  lemma LateViewer(pieces: seq<octets>, base: nat, later: seq<octets>, i: nat, j: nat, k: nat)
    requires Aligned(Join(pieces)) && Reached(FeedStream(FRESH, pieces, base).calls, i, j, k)
    requires PACKET * Min(i, j) <= |Join(pieces)| && Join(later) == Join(pieces)[PACKET * Min(i, j)..]
    ensures var calls, a := FeedStream(FRESH, pieces, base).calls, base + PACKET * Min(i, j);
      && JoinAfter(calls, k) == At(a)
      && (PlaysAt(FeedStream(FRESH, later, a).calls, k - Min(i, j)) <==> TablesInOrder(calls, i, j, k))
  {
    hide FeedStream, After, Viewer, RoleOf, HonestFrom, PatDone, PmtDone, AccessAt, InOrder, Aligned, Packets, Join;
    var calls, all, m, c := FeedStream(FRESH, pieces, base).calls, Join(pieces), Min(i, j), |Join(pieces)| / PACKET;
    ScanSplitInvariance(pieces, base);
    PacketsAre(all, base, c);
    AnchorIsEarlier(calls, i, j, k);
    AlignedFrom(all, m);
    ScanSplitInvariance(later, base + PACKET * m);
    assert |all[PACKET * m..]| / PACKET == c - m;
    PacketsFrom(all, base, m, c);
    ViewerIsAfter(calls, m, k);
    JoinIsPlayable(calls, i, j, k);
  }

  // ---------------------------------------------------------------- a join offset that misleads

  function CrcBytes(c: bv32): octets
  {
    [(c >> 24) as bv8, ((c >> 16) & 0xFF) as bv8, ((c >> 8) & 0xFF) as bv8, (c & 0xFF) as bv8]
  }

  lemma CrcSpelled(c: bv32)
    ensures Word(CrcBytes(c)) == c
  {
    hide Word;
    WordIsRaw(CrcBytes(c));
  }

  function Sealed(body: octets): (r: octets)
    ensures |r| == |body| + 4
  {
    body + CrcBytes(Crc(Ones(), body))
  }

  lemma SealedIsValid(body: octets)
    requires 3 <= |body| <= 1000 && SectionLength(body) == |body| + 4
    ensures ValidSection(Sealed(body)) && |Sealed(body)| == |body| + 4
  {
    hide Crc, Passes, SectionLength, Word;
    CrcSpelled(Crc(Ones(), body));
    ResidueZero(body, CrcBytes(Crc(Ones(), body)));
    assert Sealed(body)[..3] == body[..3];
    SameLength(Sealed(body), body);
  }

  // Program 1 has its map on PID 0x100; its video is H.264 on PID 0x101.
  const PAT_BODY: octets := [0x00, 0xB0, 13, 0, 1, 0xC1, 0, 0, 0, 1, 0xE1, 0x00]
  const PMT_BODY: octets := [0x02, 0xB0, 18, 0, 1, 0xC1, 0, 0, 0xE1, 0x01, 0xF0, 0, 0x1B, 0xE1, 0x01, 0xF0, 0]

  function Filler(n: nat): octets
  {
    seq(n, _ => 0xFF)
  }

  // A packet with a whole section in it.
  function TablePacket(high: bv8, low: bv8, sec: octets): packet
    requires |sec| <= 183
  {
    [SYNC, high, low, 0x10, 0] + sec + Filler(183 - |sec|)
  }

  lemma TableFound(s: Psi, high: bv8, low: bv8, sec: octets)
    requires ValidSection(sec) && |sec| <= 183 && high & 0x40 != 0
    ensures var p := TablePacket(high, low, sec);
      && UnitStart(p) && Payload(p) != [] && PsiFeed(s, Payload(p), UnitStart(p)) == Fed(IDLE, Section(sec))
  {
    hide ValidSection, Gather, PsiFeed;
    var p, first := TablePacket(high, low, sec), sec + Filler(183 - |sec|);
    assert Payload(p) == StartPayload(0, [], first);
    StartGathers(s, 0, [], first);
    BegunGathers(first);
    assert Partway(Psi([], 0, true), sec) by { SectionLong(sec); }
    assert first[..|sec|] == sec == sec[0..];
    PartLast(Psi([], 0, true), sec, first);
  }

  function Pat(): octets { Sealed(PAT_BODY) }
  function Pmt(): octets { Sealed(PMT_BODY) }

  lemma PatFields(sec: octets)
    requires |sec| == 16 && forall n | 0 <= n < 12 :: sec[n] == PAT_BODY[n]
    ensures IsPat(sec) && Version(sec) == 0 && FirstProgram(sec, 8) == At(0x100)
  {
  }

  lemma PmtFields(sec: octets)
    requires |sec| == 21 && forall n | 0 <= n < 17 :: sec[n] == PMT_BODY[n]
    ensures IsPmt(sec) && Version(sec) == 0
    ensures FirstVideo(sec, 12 + Len12(sec[10], sec[11])) == Video(0x101, STREAM_H264)
  {
    assert sec[10] == 0xF0 && sec[11] == 0 && sec[12] == 0x1B && sec[13] == 0xE1 && sec[14] == 1;
    assert Len12(sec[10], sec[11]) == 0;
  }

  lemma SealedKeeps(body: octets)
    ensures forall n | 0 <= n < |body| :: Sealed(body)[n] == body[n]
  {
    hide Crc, CrcBytes;
  }

  lemma BodyLengths()
    ensures SectionLength(PAT_BODY) == 16 && SectionLength(PMT_BODY) == 21
  {
  }

  lemma PatReads()
    ensures ValidSection(Pat()) && |Pat()| == 16 && IsPat(Pat()) && Version(Pat()) == 0
    ensures FirstProgram(Pat(), 8) == At(0x100)
  {
    BodyLengths();
    hide ValidSection, Sealed, SectionLength, IsPat, Version, FirstProgram;
    SealedIsValid(PAT_BODY);
    SealedKeeps(PAT_BODY);
    PatFields(Pat());
  }

  lemma PmtReads()
    ensures ValidSection(Pmt()) && |Pmt()| == 21 && IsPmt(Pmt()) && Version(Pmt()) == 0
    ensures FirstVideo(Pmt(), 12 + Len12(Pmt()[10], Pmt()[11])) == Video(0x101, STREAM_H264)
  {
    BodyLengths();
    hide ValidSection, Sealed, SectionLength, IsPmt, Version, FirstVideo, Len12;
    SealedIsValid(PMT_BODY);
    SealedKeeps(PMT_BODY);
    PmtFields(Pmt());
  }

  function PatPacket(): packet { TablePacket(0x40, 0x00, Pat()) }
  function PmtPacket(): packet { TablePacket(0x41, 0x00, Pmt()) }
  function AccessPacket(): packet { [SYNC, 0x01, 0x01, 0x30, 1, 0x40] + Filler(182) }

  // What a scanner knows once it has heard of the program, and of its video.
  const MAPPED := Program(0x100, true, false, 0, 0xFF, 0, 0)
  const KNOWN := Program(0x100, true, true, 0, 0, 0x101, STREAM_H264)

  lemma PatTold(s: Scan)
    ensures CompletesPat(s, PatPacket()) && !CompletesPmt(s, PatPacket()) && Completed(s, PatPacket()) == Section(Pat())
    ensures s.prog == New().prog ==> Told(s, PatPacket()).prog == MAPPED
    ensures s.prog == KNOWN ==> Told(s, PatPacket()).prog == KNOWN && Honest(s, PatPacket())
  {
    hide Sealed, ValidSection, PsiFeed, Payload, UnitStart, IsPat, FirstProgram, Version;
    PatReads();
    TableFound(s.pat, 0x40, 0x00, Pat());
  }

  lemma PmtTold(s: Scan)
    requires s.prog == MAPPED
    ensures CompletesPmt(s, PmtPacket()) && !CompletesPat(s, PmtPacket()) && Completed(s, PmtPacket()) == Section(Pmt())
    ensures Told(s, PmtPacket()).prog == KNOWN && Honest(s, PmtPacket())
  {
    hide Sealed, ValidSection, PsiFeed, Payload, UnitStart, IsPmt, FirstVideo, Version, Len12;
    PmtReads();
    TableFound(s.pmt, 0x41, 0x00, Pmt());
  }

  lemma AccessTold(s: Scan)
    requires s.prog == KNOWN
    ensures RoleOf(s, AccessPacket()).AccessPoint?
  {
  }

  predicate Carry(calls: seq<Call>, a: packet, b: packet, c: packet)
  {
    |calls| == 4 && calls[0].p == a && calls[1].p == b && calls[2].p == a && calls[3].p == c
  }

  // Packets that are told from each other as PAT, PMT, PAT and access point.
  predicate Tell(a: packet, b: packet, c: packet, s1: Scan, s2: Scan, s3: Scan)
  {
    && CompletesPmt(s1, b) && !CompletesPat(s1, b) && Honest(s1, b)
    && CompletesPat(s2, a) && !CompletesPmt(s2, a) && Honest(s2, a)
    && RoleOf(s3, c).AccessPoint? && s3.prog == KNOWN
  }

  lemma Reaches(calls: seq<Call>, a: packet, b: packet, c: packet)
    requires WellFormedCalls(calls) && Carry(calls, a, b, c)
    requires Tell(a, b, c, After(calls, 1), After(calls, 2), After(calls, 3))
    ensures Reached(calls, 2, 1, 3)
  {
    hide After, RoleOf, CompletesPat, CompletesPmt, Honest;
  }

  lemma Tells(s0: Scan, s1: Scan, s2: Scan, s3: Scan, off0: nat, off1: nat, off2: nat)
    requires s0.prog == New().prog && s1 == Packet(s0, PatPacket(), off0)
    requires s2 == Packet(s1, PmtPacket(), off1) && s3 == Packet(s2, PatPacket(), off2)
    ensures Tell(PatPacket(), PmtPacket(), AccessPacket(), s1, s2, s3)
  {
    hide Packet, Told, CompletesPat, CompletesPmt, Completed, RoleOf, PatPacket, PmtPacket, AccessPacket, Pat, Pmt;
    hide Honest;
    PatTold(s0);
    PacketTells(s0, PatPacket(), off0);
    assert Seen(s1).prog == MAPPED;
    PmtTold(s1);
    PacketTells(s1, PmtPacket(), off1);
    assert Seen(s2).prog == KNOWN;
    PatTold(s2);
    PacketTells(s2, PatPacket(), off2);
    assert Seen(s3).prog == KNOWN;
    AccessTold(s3);
  }

  // PAT, PMT, PAT and an access point: the offset given is that of the PMT, and a viewer started there has no
  // program when the access point comes.
  function Misleading(): (r: octets)
    ensures |r| == 752
  {
    PatPacket() + PmtPacket() + PatPacket() + AccessPacket()
  }

  lemma FourInARow(a: packet, b: packet, c: packet)
    requires a[0] == SYNC && b[0] == SYNC && c[0] == SYNC
    ensures var all := a + b + a + c;
      Aligned(all) && |all| == 752 && Carry(Packets(all, 0, 4), a, b, c)
  {
    hide Packets;
    var all := a + b + a + c;
    PacketsAre(all, 0, 4);
    assert all[0..188] == a && all[188..376] == b && all[376..564] == a && all[564..752] == c;
    assert PacketAt(all, 0, 0).p == a && PacketAt(all, 0, 1).p == b;
    assert PacketAt(all, 0, 2).p == a && PacketAt(all, 0, 3).p == c;
    forall k | 0 <= k < |all| && k % PACKET == 0 ensures all[k] == SYNC {
      assert k == 0 || k == 188 || k == 376 || k == 564;
    }
  }

  lemma AllInSync()
    ensures PatPacket()[0] == SYNC && PmtPacket()[0] == SYNC && AccessPacket()[0] == SYNC
  {
    hide Pat, Pmt;
  }

  lemma MisleadingPackets(calls: seq<Call>)
    requires calls == Packets(Misleading(), 0, 4)
    ensures Aligned(Misleading()) && WellFormedCalls(calls) && Reached(calls, 2, 1, 3)
  {
    hide PatPacket, PmtPacket, AccessPacket, Packets, Aligned, Packet, Reached, Tell;
    var a, b, c := PatPacket(), PmtPacket(), AccessPacket();
    AllInSync();
    FourInARow(a, b, c);
    PacketsAre(Misleading(), 0, 4);
    Tells(After(calls, 0), After(calls, 1), After(calls, 2), After(calls, 3), calls[0].off, calls[1].off, calls[2].off);
    Reaches(calls, a, b, c);
  }

  lemma PatLastMisleads()
    ensures var calls := FeedStream(FRESH, [Misleading()], 0).calls;
      && Reached(calls, 2, 1, 3) && JoinAfter(calls, 3) == At(188)
      && !PlaysAt(FeedStream(FRESH, [Misleading()[188..]], 188).calls, 2)
  {
    hide FeedStream, Misleading, Reached, PlaysAt, JoinAfter, Packets, Aligned;
    var all := Misleading();
    MisleadingPackets(Packets(all, 0, 4));
    JoinOne(all);
    JoinOne(all[188..]);
    ScanSplitInvariance([all], 0);
    LateViewer([all], 0, [all[188..]], 2, 1, 3);
  }

  lemma JoinOne(x: octets)
    ensures Join([x]) == x
  {
    assert [x][1..] == [] && x + [] == x;
  }
}
