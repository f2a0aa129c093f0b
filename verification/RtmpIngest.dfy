/**
  The RTMP session object: its buffers, cursors and counters, and the loop that advances them one
  chunk at a time. Every method is proved against the value-level description in RtmpProtocol.
 */
module RtmpIngest {
  import opened Bytes
  import opened StreamDecoder
  import opened RtmpDemux
  import opened RtmpPrinter
  import opened RtmpCommands
  import opened RtmpProtocol

  // The program's table of chunk streams grows on demand; ids beyond its end are idle.
  function Padded(cs: seq<ChunkStream>): Streams
    requires |cs| <= 256
  {
    cs + seq(256 - |cs|, _ => IDLE)
  }

  lemma PaddedAt(cs: seq<ChunkStream>, i: nat)
    requires i < |cs| <= 256
    ensures Padded(cs)[i] == cs[i]
  {
  }

  lemma PaddedGrow(cs: seq<ChunkStream>, n: nat)
    requires |cs| <= n <= 256
    ensures Padded(cs + seq(n - |cs|, _ => IDLE)) == Padded(cs)
  {
  }

  lemma PaddedUpdate(cs: seq<ChunkStream>, i: nat, c: ChunkStream)
    requires i < |cs| <= 256
    ensures Padded(cs[i := c]) == Padded(cs)[i := c]
  {
  }

  // Aborting a stream never heard from changes nothing.
  lemma AbortIdle(cs: seq<ChunkStream>, id: nat)
    requires |cs| <= id < 256
    ensures Padded(cs)[id].acc == [] && Padded(cs)[id := Padded(cs)[id].(acc := [])] == Padded(cs)
  {
  }

  // Acknowledgement looks at the byte count only, so it may precede the message's effects.
  lemma AcknowledgeFirst(s: Rtmp, d: Demux)
    requires d.bytesIn == s.demux.bytesIn
    ensures Acknowledge(s.(demux := d)) == Acknowledge(s).(demux := d)
  {
    hide ControlMessage, PutBE32;
  }

  // What a complete message does: chunk-layer control first, then the session.
  function Complete(s: Rtmp, m: Message): Handled
  {
    var c := Control(s.demux, m, 0);
    if c.Unit? then OnMessage(s.(demux := c.next), m) else Ended(s)
  }

  lemma ControlUsed(d: Demux, m: Message, used: nat)
    ensures var o, c := Control(d, m, used), Control(d, m, 0);
      && o.Unit? == c.Unit? && o.Fatal? == c.Fatal? && !c.More?
      && (o.Unit? ==> o == Unit(used, c.next, [m]) && c.next.bytesIn == d.bytesIn)
      && (o.Fatal? ==> o == Fatal(d, [m]))
  {
  }

  // The turn that completes a message, in the order the program does it.
  lemma TurnCompletes(s: Rtmp, p: bytes, d: Demux, m: Message, used: nat)
    requires s.phase == Chunks && TakeChunk(s.demux, p) == Control(d, m, used)
    ensures Turn(s, p) == Capped(Complete(Acknowledge(s.(demux := d)), m), used, [m])
  {
    hide TakeChunk, Control, Acknowledge, OnMessage;
    ControlUsed(d, m, used);
    var c := Control(d, m, 0);
    if c.Unit? {
      AcknowledgeFirst(s.(demux := d), c.next);
      AcknowledgeDemux(s.(demux := d));
    } else {
      AcknowledgeDemux(s.(demux := d));
    }
  }

  lemma TurnContinues(s: Rtmp, p: bytes, d: Demux, used: nat)
    requires s.phase == Chunks && TakeChunk(s.demux, p) == Unit(used, d, [])
    ensures Turn(s, p) == Capped(Done(Acknowledge(s.(demux := d))), used, [])
  {
    hide TakeChunk, Acknowledge;
  }

  // One turn of the parser is one turn of the run it belongs to.
  lemma TurnOfRun(goal: RtmpView, done: seq<Message>, s: Rtmp, p: bytes)
    requires goal == After(done, Run(SessionStep, s, p))
    ensures var o := Turn(s, p);
      && (o.More? ==> goal == Session(true, s, p, done))
      && (o.Fatal? ==> goal == Session(false, o.end, [], done + o.last))
      && (o.Unit? ==> 0 < o.used <= |p|
                      && goal == After(done + o.events, Run(SessionStep, Authorise(o.next), p[o.used..])))
  {
    hide Turn, Run, Authorise;
    RunStops(SessionStep, s, p);
    SessionStableAt(s, p, []);
    var o := Turn(s, p);
    if o.Unit? {
      RunUnit(SessionStep, s, p);
      var r := Run(SessionStep, Authorise(o.next), p[o.used..]);
      assert done + (o.events + r.events) == (done + o.events) + r.events;
    } else if o.More? {
      assert done + [] == done;
    }
  }

  lemma NothingToAuthorise(s: Rtmp)
    ensures !s.nego.pending ==> Authorise(s) == s
  {
  }

  lemma AcknowledgeDemux(s: Rtmp)
    ensures Acknowledge(s).demux == s.demux
  {
  }

  class RtmpSession {
    var dead: bool
    var phase: Phase
    var input: bytes
    var pos: nat
    var toPeer: bytes
    var chunk: nat
    var cs: seq<ChunkStream>
    var assembly: int
    var bytesIn: nat
    var window: nat
    var acked: nat
    var nego: Negotiation
    ghost var messages: seq<Message>     // every message assembled so far

    ghost predicate Valid()
      reads this
    {
      pos <= |input| && |cs| <= 256
    }

    ghost function State(): Rtmp
      reads this
      requires Valid()
    {
      Rtmp(phase, Demux(chunk, Padded(cs), assembly, bytesIn), window, acked, toPeer, nego)
    }

    ghost function View(): RtmpView
      reads this
      requires Valid()
    {
      Session(!dead, State(), if dead then [] else input[pos..], messages)
    }

    // The object after one attempt of the parser: from state s0, unread bytes p0 and message log m0.
    ghost predicate Follows(o: Outcome<Rtmp, Message>, s0: Rtmp, p0: bytes, m0: seq<Message>)
      reads this
      requires Valid()
    {
      match o
      case More => !dead && State() == s0 && input[pos..] == p0 && messages == m0
      case Fatal(end, last) => dead && State() == end && messages == m0 + last
      case Unit(used, next, ms) =>
        !dead && State() == next && used <= |p0| && input[pos..] == p0[used..] && messages == m0 + ms
    }

    constructor ()
      ensures Valid() && View() == Session(true, CONNECTED, [], [])
    {
      dead, phase, input, pos, toPeer := false, WantC0C1, [], 0, [];
      chunk, cs, assembly, bytesIn := DEFAULT_CHUNK, [], 0, 0;
      window, acked, nego, messages := 0, 0, NEGOTIATING, [];
      new;
      assert Padded([]) == ALL_IDLE;
    }

    // The effects of one complete message.
    method HandleMessage(m: Message) returns (ok: bool)
      requires Valid() && !dead
      modifies this`dead, this`chunk, this`cs, this`assembly, this`window, this`toPeer, this`nego
      ensures Valid() && State() == Complete(old(State()), m).s
      ensures ok == !dead == Complete(old(State()), m).Done?
    {
      hide Padded, Printed, OnCommand, OnMedia, BE32, BE16;
      var p := m.payload;
      if m.kind == 1 {
        if |p| < 4 { dead := true; return false; }
        var v := BE32(p[0], p[1], p[2], p[3]) % 0x8000_0000;
        if v == 0 || v > MAX_CHUNK { dead := true; return false; }
        chunk := v;
      } else if m.kind == 2 {
        if |p| >= 4 {
          var id := BE32(p[0], p[1], p[2], p[3]);
          if id < |cs| {
            PaddedAt(cs, id);
            PaddedUpdate(cs, id, cs[id].(acc := []));
            assembly := assembly - |cs[id].acc|;
            cs := cs[id := cs[id].(acc := [])];
          } else if id < 256 {
            AbortIdle(cs, id);
          }
        }
      } else if m.kind == 5 || m.kind == 6 {
        if |p| >= 4 { window := BE32(p[0], p[1], p[2], p[3]); }
      } else if m.kind == 4 {
        if |p| >= 6 && BE16(p[0], p[1]) == 6 {
          toPeer := SendMsg(toPeer, Message(2, 4, 0, 0, [0, 7, p[2], p[3], p[4], p[5]]));
        }
      } else if m.kind == 8 || m.kind == 9 || m.kind == 18 {
        nego := OnMedia(nego, m.kind, m.ts, p);
      } else if m.kind == 20 {
        var r := OnCommand(nego, m.sid, p);
        if r.Refused? { dead := true; return false; }
        nego, toPeer := r.n, toPeer + r.out;
      }
      return true;
    }

    method SendAcknowledgement()
      requires Valid()
      modifies this`acked, this`toPeer
      ensures Valid() && State() == Acknowledge(old(State()))
    {
      hide Padded, Printed, PutBE32;
      if window != 0 && bytesIn - acked >= window {
        acked := bytesIn;
        toPeer := SendMsg(toPeer, Message(2, 3, 0, 0, PutBE32(bytesIn % WRAP)));
      }
    }

    // Whole chunk buffered: count it, acknowledge, and only then store it.
    method CommitChunk(csid: nat, n: ChunkStream, data: bytes, used: nat)
      requires Valid() && !dead && phase == Chunks && csid < |cs| && used <= |input| - pos
      requires TakeChunk(State().demux, input[pos..]) == Commit(State().demux, csid, n, data, used)
      modifies this
      ensures Valid() && Follows(Turn(old(State()), old(input[pos..])), old(State()), old(input[pos..]), old(messages))
    {
      hide TakeChunk, Acknowledge, Turn, Padded, Commit;
      ghost var s0, p0 := State(), input[pos..];
      bytesIn := bytesIn + used;
      SendAcknowledgement();
      StoreChunk(csid, n, data, used, s0, p0);
    }

    // The stream takes the header and the payload, and the message if this completes it.
    method StoreChunk(csid: nat, n: ChunkStream, data: bytes, used: nat, ghost s0: Rtmp, ghost p0: bytes)
      requires Valid() && !dead && csid < |cs| && used <= |p0| && p0 == input[pos..]
      requires s0.phase == Chunks && State() == Acknowledge(s0.(demux := s0.demux.(bytesIn := s0.demux.bytesIn + used)))
      requires TakeChunk(s0.demux, p0) == Commit(s0.demux, csid, n, data, used)
      modifies this
      ensures Valid() && Follows(Turn(s0, p0), s0, p0, old(messages))
    {
      hide TakeChunk, Acknowledge, Turn, Complete, Padded, Control;
      ghost var s1 := s0.(demux := s0.demux.(bytesIn := s0.demux.bytesIn + used));
      AcknowledgeDemux(s1);
      var acc := n.acc + data;
      pos := pos + used;
      if |acc| < n.len {
        PaddedUpdate(cs, csid, n.(acc := acc));
        assembly, cs := assembly + |data|, cs[csid := n.(acc := acc)];
        AcknowledgeFirst(s1, State().demux);
        TurnContinues(s0, p0, State().demux, used);
      } else {
        PaddedUpdate(cs, csid, n.(acc := []));
        assembly, cs := assembly + |data| - |acc|, cs[csid := n.(acc := [])];
        var m := Message(csid, n.kind, n.ts, n.sid, acc);
        AcknowledgeFirst(s1, State().demux);
        TurnCompletes(s0, p0, State().demux, m, used);
        messages := messages + [m];
        var ok := HandleMessage(m);
        if !ok { return; }
      }
      if |toPeer| > MAX_OUT { dead := true; }
    }

    method ParseChunks()
      requires Valid() && !dead && phase == Chunks
      modifies this
      ensures Valid() && Follows(Turn(old(State()), old(input[pos..])), old(State()), old(input[pos..]), old(messages))
    {
      hide ReadBasic, ReadHead, Commit, Padded, PayloadSize, Acknowledge, OnMessages, Capped, ServerHello;
      var p := input[pos..];
      var b := ReadBasic(p);
      if b.BasicWait? { return; }
      if b.BasicBad? { dead := true; return; }
      if |cs| <= b.csid {
        PaddedGrow(cs, b.csid + 1);
        cs := cs + seq(b.csid + 1 - |cs|, _ => IDLE);
      }
      PaddedAt(cs, b.csid);
      // Decode into locals; nothing is stored until the whole chunk is here.
      var h := ReadHead(cs[b.csid], b.fmt, p[b.size..]);
      if h.HeadWait? { return; }
      if h.stream.len > MAX_MESSAGE || (b.fmt != 3 && h.stream.acc != []) { dead := true; return; }
      var at := b.size + h.size;
      var take := PayloadSize(chunk, h.stream);
      if |p| < at + take { return; }
      if assembly + take > MAX_ASSEMBLY { dead := true; return; }
      CommitChunk(b.csid, h.stream, p[at..at + take], at + take);
    }

    method DoHandshake()
      requires Valid() && !dead && phase != Chunks
      modifies this
      ensures Valid() && Follows(Turn(old(State()), old(input[pos..])), old(State()), old(input[pos..]), old(messages))
    {
      hide Padded, ServerHello, TakeChunk, Capped, OnMessages, Acknowledge;
      var p := input[pos..];
      if phase == WantC0C1 {
        if |p| < 1 + C1 { return; }
        if p[0] != 3 { dead := true; return; }
        toPeer := toPeer + ServerHello(p[1..1 + C1]);
        pos := pos + 1 + C1;
        phase := WantC2;
      } else {
        if |p| < C1 { return; }
        pos := pos + C1;
        phase := Chunks;
      }
    }

    // Drop what has been consumed.
    method Compact()
      requires Valid()
      modifies this`input, this`pos
      ensures Valid() && input[pos..] == old(input[pos..])
    {
      if pos == |input| {
        input, pos := [], 0;
      } else if pos > 65536 {
        input, pos := input[pos..], 0;
      }
    }

    // Where a run with outcome `goal` stands, `m0` being the messages delivered before it.
    ghost predicate Running(goal: RtmpView, m0: seq<Message>)
      reads this
      requires Valid()
    {
      && m0 <= messages
      && var done := messages[|m0|..];
      if dead then goal == Session(false, State(), [], done)
      else goal == After(done, Run(SessionStep, Authorise(State()), input[pos..]))
    }

    // Everything that could be parsed has been.
    ghost predicate Finished(goal: RtmpView, m0: seq<Message>)
      reads this
      requires Valid()
    {
      m0 <= messages && goal == View().(events := messages[|m0|..])
    }

    // Parse until a chunk is incomplete, the session ends or a publish has to be authorised.
    method RunParser(ghost goal: RtmpView, ghost m0: seq<Message>)
      requires Valid() && !dead && !nego.pending && Running(goal, m0)
      modifies this
      ensures Valid()
      ensures nego.pending && !dead ==> Running(goal, m0) && |input| - pos < old(|input| - pos)
      ensures !nego.pending || dead ==> Finished(goal, m0)
    {
      hide Turn, Run, Authorise, Padded;
      while true
        invariant Valid() && !dead && !nego.pending
        invariant Running(goal, m0) && |input| - pos <= old(|input| - pos)
        decreases |input| - pos
      {
        ghost var s, p, m := State(), input[pos..], messages;
        var before := |input| - pos;
        NothingToAuthorise(s);
        TurnOfRun(goal, m[|m0|..], s, p);
        if phase == Chunks { ParseChunks(); } else { DoHandshake(); }
        if dead { return; }
        if nego.pending { break; }
        NothingToAuthorise(State());
        if |input| - pos == before { return; }
      }
      Compact();
    }

    method AcceptPublish()
      requires Valid() && !dead && nego.pending
      modifies this`nego, this`toPeer
      ensures Valid() && State() == Authorise(old(State())) && !nego.pending
    {
      hide AcceptReply, Padded;
      toPeer := toPeer + AcceptReply(nego);
      nego := Accepted(nego);
    }

    // Run the parser, authorising a publish when it stops for one.
    method Drive(ghost goal: RtmpView, ghost m0: seq<Message>)
      requires Valid() && !dead && !nego.pending && Running(goal, m0)
      modifies this
      ensures Valid() && (!dead ==> !nego.pending) && Finished(goal, m0)
    {
      hide Running, Finished, State, Authorise;
      RunParser(goal, m0);
      while nego.pending && !dead
        invariant Valid()
        invariant nego.pending && !dead ==> Running(goal, m0)
        invariant !nego.pending || dead ==> Finished(goal, m0)
        decreases if nego.pending && !dead then |input| - pos + 1 else 0
      {
        Resume(goal, m0);
      }
    }

    method Resume(ghost goal: RtmpView, ghost m0: seq<Message>)
      requires Valid() && !dead && nego.pending && Running(goal, m0)
      modifies this
      ensures Valid()
      ensures nego.pending && !dead ==> Running(goal, m0) && |input| - pos < old(|input| - pos)
      ensures !nego.pending || dead ==> Finished(goal, m0)
    {
      hide Run, Authorise, SessionStep, Finished;
      AcceptPublish();
      NothingToAuthorise(State());
      RunParser(goal, m0);
    }

    // Take bytes off the socket; a publish among them is authorised at once.
    method Feed(buf: bytes)
      requires Valid() && (!dead ==> !nego.pending)
      modifies this
      ensures Valid() && (!dead ==> !nego.pending)
      ensures View() == StreamDecoder.Feed(SessionStep, old(View()), buf)
    {
      hide Run, Authorise, SessionStep, Padded;
      if dead { return; }
      ghost var m0, p0 := messages, input[pos..];
      input := input + buf;
      assert input[pos..] == p0 + buf;
      NothingToAuthorise(State());
      assert messages[|m0|..] == [];
      ghost var goal := Run(SessionStep, State(), p0 + buf);
      assert After([], goal) == goal;
      Drive(goal, m0);
      assert messages == m0 + messages[|m0|..];
    }
  }
}
