/**
  The program's own message encoder (videortmp.cpp, RtmpSession::send_msg) and its inverse: what it
  prints, the chunk parser reads back.
 */
module RtmpPrinter {
  import opened Bytes
  import opened Numbers
  import opened StreamDecoder
  import opened RtmpDemux
  import opened RtmpSender

  const OUT_CHUNK := 4096

  // The format 3 header that introduces a continuation.
  function Marker(csid: byte): bytes
    requires csid < 64
  {
    [192 + csid]
  }

  // Payload in chunks, each after the first introduced by a format 3 header.
  function Body(csid: byte, p: bytes): bytes
    requires csid < 64
  {
    if |p| <= OUT_CHUNK then p else p[..OUT_CHUNK] + Marker(csid) + Body(csid, p[OUT_CHUNK..])
  }

  function Preamble(m: Message): bytes
    requires m.csid < 64
  {
    [m.csid] + PutBE24(m.ts) + PutBE24(|m.payload|) + [m.kind] + Reverse4(PutBE32(m.sid))
  }

  function Printed(m: Message): bytes
    requires m.csid < 64
  {
    Preamble(m) + Body(m.csid, m.payload)
  }

  // What is still to be written once `at` payload bytes are out.
  function Owed(csid: byte, p: bytes, at: nat): bytes
    requires csid < 64 && at <= |p|
  {
    if at == |p| then [] else if at == 0 then Body(csid, p) else Marker(csid) + Body(csid, p[at..])
  }

  lemma OwedStep(csid: byte, p: bytes, at: nat)
    requires csid < 64 && at < |p|
    ensures var take := Min(|p| - at, OUT_CHUNK);
      Owed(csid, p, at) == (if at != 0 then Marker(csid) else []) + (p[at..at + take] + Owed(csid, p, at + take))
  {
    assert at == 0 ==> p[at..] == p;
    var take := Min(|p| - at, OUT_CHUNK);
    assert p[at..][..take] == p[at..at + take];
    assert p[at..][take..] == p[at + take..];
  }

  // Appends one message to the output queue.
  method SendMsg(out: bytes, m: Message) returns (o: bytes)
    requires m.csid < 64
    ensures o == out + Printed(m)
  {
    hide Owed, Preamble;
    var n, p := |m.payload|, m.payload;
    o := out + Preamble(m);
    ghost var goal := o + Owed(m.csid, p, 0);
    var at := 0;
    while at < n
      invariant 0 <= at <= n
      invariant o + Owed(m.csid, p, at) == goal
    {
      OwedStep(m.csid, p, at);
      if at != 0 { o := o + Marker(m.csid); }
      var take := if n - at < OUT_CHUNK then n - at else OUT_CHUNK;
      o := o + p[at..at + take];
      at := at + take;
    }
    NothingOwed(m.csid, p);
    assert o + [] == o;
    assert (out + Preamble(m)) + Body(m.csid, p) == out + (Preamble(m) + Body(m.csid, p));
  }

  lemma NothingOwed(csid: byte, p: bytes)
    requires csid < 64
    ensures Owed(csid, p, |p|) == [] && Owed(csid, p, 0) == Body(csid, p)
  {
  }

  predicate Printable(m: Message)
  {
    && 2 <= m.csid <= 63 && m.ts < SATURATED && m.sid < WRAP
    && |m.payload| <= MAX_MESSAGE && m.kind != 1
  }

  // Nothing is in progress on any stream but `csid`.
  ghost predicate Busy(s: Sender, csid: nat)
    requires csid < 256
  {
    Ready(s) && s.chunk == OUT_CHUNK && forall i :: 0 <= i < 256 && i != csid ==> s.todo[i] == []
  }

  ghost predicate Quiet(s: Sender)
  {
    Ready(s) && s.chunk == OUT_CHUNK && forall i :: 0 <= i < 256 ==> s.todo[i] == []
  }

  lemma BusyHolds(s: Sender, csid: nat)
    requires csid < 256 && Busy(s, csid)
    ensures Held(s.known) == |s.known[csid].acc|
  {
    var idle := s.known[csid := s.known[csid].(acc := [])];
    HeldUpdate(s.known, csid, s.known[csid].(acc := []));
    forall i | 0 <= i < 256 ensures idle[i].acc == [] {
      assert Consistent(s.known[i], s.todo[i]);
    }
    IdleHoldsNothing(idle);
  }

  // One chunk of a printed message, then whatever follows.
  lemma OneChunk(s: Sender, a: Send, bytesIn: nat, x: bytes)
    requires Ready(s) && Legal(s, a)
    ensures Run(TakeChunk, Receiver(s, bytesIn), Wire(s, a) + x)
      == After(Done(s, a), Run(TakeChunk, Receiver(Sent(s, a), bytesIn + |Wire(s, a)|), x))
    ensures Ready(Sent(s, a))
  {
    hide TakeChunk, Wire, Sent, Done, Legal, Receiver, Ready;
    var w := Wire(s, a);
    ChunkRoundTrip(s, a, bytesIn, x);
    CommitMatches(s, a, bytesIn, |w|);
    StaysReady(s, a);
    WireNotEmpty(s, a);
    RunUnit(TakeChunk, Receiver(s, bytesIn), w + x);
    assert (w + x)[|w|..] == x;
  }

  // What is left of a message in progress.
  ghost function Outstanding(s: Sender, csid: nat): Message
    requires csid < 256
  {
    var c := s.known[csid];
    Message(csid, c.kind, c.ts, c.sid, c.acc + s.todo[csid])
  }

  // A message in progress, with only its own chunks still to come.
  ghost predicate InProgress(s: Sender, csid: nat)
  {
    && 2 <= csid < 64 && Busy(s, csid) && s.todo[csid] != []
    && !s.known[csid].extTs && s.known[csid].kind != 1
  }

  // A chunk of message m, leaving `rest`: either m is finished and all is quiet, or it goes on.
  ghost predicate Advances(t: Sender, done: seq<Message>, csid: nat, m: Message, rest: bytes)
    requires csid < 256
  {
    if rest == [] then Quiet(t) && done == [m]
    else InProgress(t, csid) && t.todo[csid] == rest && Outstanding(t, csid) == m && done == []
  }

  lemma StartWire(s: Sender, m: Message)
    requires Printable(m) && Legal(s, Start(m, 0, false, 0)) && s.chunk == OUT_CHUNK
    ensures Wire(s, Start(m, 0, false, 0)) == Preamble(m) + m.payload[..Min(|m.payload|, OUT_CHUNK)]
  {
    hide Held, PutBE24, PutBE32;
    var a := Start(m, 0, false, 0);
    assert BasicBytes(0, m.csid, false) == [m.csid];
    assert BasicBytes(0, m.csid, false) + HeaderOf(s, a) == Preamble(m);
  }

  lemma StartStep(s: Sender, m: Message)
    requires Quiet(s) && Printable(m)
    ensures var a, n := Start(m, 0, false, 0), Min(|m.payload|, OUT_CHUNK);
      && Legal(s, a)
      && Wire(s, a) == Preamble(m) + m.payload[..n]
      && Advances(Sent(s, a), Done(s, a), m.csid, m, m.payload[n..])
  {
    hide Held, Wire, HeadBytes, PutBE24, PutBE32;
    BusyHolds(s, m.csid);
    assert Consistent(s.known[m.csid], s.todo[m.csid]);
    var a := Start(m, 0, false, 0);
    assert Legal(s, a);
    StartWire(s, m);
    StaysReady(s, a);
    var t := Sent(s, a);
    if |m.payload| > OUT_CHUNK {
      assert t.known[m.csid].acc + t.todo[m.csid] == m.payload;
    }
  }

  lemma TailStep(s: Sender, csid: byte)
    requires InProgress(s, csid)
    ensures var a, n := Continue(csid, false, 0), Min(|s.todo[csid]|, OUT_CHUNK);
      && Legal(s, a)
      && Wire(s, a) == Marker(csid) + s.todo[csid][..n]
      && Advances(Sent(s, a), Done(s, a), csid, Outstanding(s, csid), s.todo[csid][n..])
  {
    hide Held;
    BusyHolds(s, csid);
    assert Consistent(s.known[csid], s.todo[csid]);
    var a := Continue(csid, false, 0);
    StaysReady(s, a);
    var t := Sent(s, a);
    if |s.todo[csid]| > OUT_CHUNK {
      assert t.known[csid].acc + t.todo[csid] == s.known[csid].acc + s.todo[csid];
    }
  }

  // The chunks after the first.
  lemma {:induction false} TailParses(s: Sender, csid: byte, bytesIn: nat, x: bytes) returns (t: Sender)
    requires InProgress(s, csid)
    ensures Quiet(t)
    ensures var b := Marker(csid) + Body(csid, s.todo[csid]);
      Run(TakeChunk, Receiver(s, bytesIn), b + x)
      == After([Outstanding(s, csid)], Run(TakeChunk, Receiver(t, bytesIn + |b|), x))
    decreases |s.todo[csid]|
  {
    hide TakeChunk, Receiver, Run, Legal, Wire, Sent, Done, Quiet, Outstanding;
    var a, rest := Continue(csid, false, 0), s.todo[csid];
    TailStep(s, csid);
    t := Sent(s, a);
    if |rest| <= OUT_CHUNK {
      assert rest[..|rest|] == rest && rest[|rest|..] == [];
      OneChunk(s, a, bytesIn, x);
    } else {
      var b := Marker(csid) + Body(csid, rest[OUT_CHUNK..]);
      assert Marker(csid) + Body(csid, rest) + x == Wire(s, a) + (b + x);
      OneChunk(s, a, bytesIn, b + x);
      t := TailParses(t, csid, bytesIn + |Wire(s, a)|, x);
    }
  }

  lemma MessageParses(s: Sender, m: Message, bytesIn: nat, x: bytes) returns (t: Sender)
    requires Quiet(s) && Printable(m)
    ensures Quiet(t)
    ensures Run(TakeChunk, Receiver(s, bytesIn), Printed(m) + x)
      == After([m], Run(TakeChunk, Receiver(t, bytesIn + |Printed(m)|), x))
  {
    hide TakeChunk, Receiver, Run, Legal, Wire, Sent, Done, Outstanding, Preamble, Ready;
    var a, p := Start(m, 0, false, 0), m.payload;
    StartStep(s, m);
    t := Sent(s, a);
    if |p| <= OUT_CHUNK {
      assert p[..|p|] == p && p[|p|..] == [];
      OneChunk(s, a, bytesIn, x);
    } else {
      var b := Marker(m.csid) + Body(m.csid, p[OUT_CHUNK..]);
      assert Printed(m) + x == Wire(s, a) + (b + x);
      OneChunk(s, a, bytesIn, b + x);
      t := TailParses(t, m.csid, bytesIn + |Wire(s, a)|, x);
    }
  }

  function PrintAll(ms: seq<Message>): bytes
    requires forall i :: 0 <= i < |ms| ==> Printable(ms[i])
  {
    if ms == [] then [] else assert Printable(ms[0]); Printed(ms[0]) + PrintAll(ms[1..])
  }

  // Concatenated send_msg output decodes to the same message list, for a receiver at the announced
  // chunk size with no message in progress.
  lemma {:induction false} PrintedParses(s: Sender, ms: seq<Message>, bytesIn: nat)
    requires Quiet(s) && forall i :: 0 <= i < |ms| ==> Printable(ms[i])
    ensures var r := Run(TakeChunk, Receiver(s, bytesIn), PrintAll(ms));
      r.alive && r.held == [] && r.events == ms
    decreases |ms|
  {
    hide TakeChunk, Receiver, Preamble, Body;
    if ms == [] {
      NoBytesNoChunk(Receiver(s, bytesIn));
    } else {
      var t := MessageParses(s, ms[0], bytesIn, PrintAll(ms[1..]));
      PrintedParses(t, ms[1..], bytesIn + |Printed(ms[0])|);
    }
  }
}
