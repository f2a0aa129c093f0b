/**
  Acknowledgements to the publisher (videortmp.cpp, parse_chunks; section 5.4.3 of RTMP 1.0): a peer that has
  announced a window is told how many bytes have come before it has sent a whole window unanswered.
 */
module RtmpAcks {
  import opened Bytes
  import opened StreamDecoder
  import opened RtmpDemux
  import opened RtmpPrinter
  import opened RtmpCommands
  import opened RtmpProtocol

  // Window Acknowledgement Size and Set Peer Bandwidth announce a window.
  predicate Announces(m: Message)
  {
    m.kind in {5, 6} && |m.payload| >= 4
  }

  // The window last announced; 0 if there was none.
  function WindowOf(ms: seq<Message>): nat
  {
    if ms == [] then 0
    else
      var m := ms[|ms| - 1];
      if Announces(m) then BE32(m.payload[0], m.payload[1], m.payload[2], m.payload[3]) else WindowOf(ms[..|ms| - 1])
  }

  // The peer has been sent an Acknowledgement of n bytes.
  ghost predicate Told(peer: bytes, n: nat)
  {
    exists before, after :: peer == before + Printed(Message(2, 3, 0, 0, PutBE32(n % 0x1_0000_0000))) + after
  }

  // Less than a window is unacknowledged, unless the last message has only just announced it.
  ghost predicate Prompt(s: Rtmp, ms: seq<Message>)
  {
    && s.window == WindowOf(ms)
    && 0 <= s.acked <= s.demux.bytesIn && (s.acked > 0 ==> Told(s.peer, s.acked))
    && (s.window != 0 && !(ms != [] && Announces(ms[|ms| - 1])) ==> s.demux.bytesIn - s.acked < s.window)
  }

  ghost predicate Ended(s: Rtmp, ms: seq<Message>)
  {
    true
  }

  lemma ToldStill(peer: bytes, more: bytes, n: nat)
    requires Told(peer, n)
    ensures Told(peer + more, n)
  {
    hide Printed;
    var a, b :| peer == a + Printed(Message(2, 3, 0, 0, PutBE32(n % 0x1_0000_0000))) + b;
    var m := Printed(Message(2, 3, 0, 0, PutBE32(n % 0x1_0000_0000)));
    assert a + m + b + more == a + m + (b + more);
  }

  // What acknowledging leaves, whatever the chunk was.
  lemma Acknowledges(s: Rtmp, d: Demux)
    requires 0 <= s.acked <= d.bytesIn && (s.acked > 0 ==> Told(s.peer, s.acked))
    ensures var t := Acknowledge(s.(demux := d));
      && t.demux == d && t.window == s.window && t.nego == s.nego && t.phase == s.phase
      && 0 <= t.acked <= d.bytesIn && (t.acked > 0 ==> Told(t.peer, t.acked))
      && (t.window != 0 ==> d.bytesIn - t.acked < t.window)
  {
    hide Printed;
    var t := Acknowledge(s.(demux := d));
    var m := Printed(Message(2, 3, 0, 0, PutBE32(d.bytesIn % WRAP)));
    if s.window != 0 && d.bytesIn - s.acked >= s.window {
      assert t.peer == s.peer + m + [];
    }
  }

  lemma WindowOn(ms: seq<Message>, m: Message)
    ensures WindowOf(ms + [m])
      == if Announces(m) then BE32(m.payload[0], m.payload[1], m.payload[2], m.payload[3]) else WindowOf(ms)
  {
    assert (ms + [m])[..|ms|] == ms;
  }

  lemma MessagePrompt(s: Rtmp, ms: seq<Message>, m: Message)
    requires s.window == WindowOf(ms) && 0 <= s.acked <= s.demux.bytesIn && (s.acked > 0 ==> Told(s.peer, s.acked))
    requires s.window != 0 ==> s.demux.bytesIn - s.acked < s.window
    ensures var h := OnMessage(s, m); h.Done? ==> Prompt(Authorise(h.s), ms + [m])
  {
    hide OnCommand, OnMedia, AcceptReply, ControlMessage, Told, BE32, BE16;
    WindowOn(ms, m);
    var h := OnMessage(s, m);
    if h.Done? {
      var t := Authorise(h.s);
      var more := AppendedTo(s, m);
      if s.acked > 0 { ToldStill(s.peer, more, s.acked); }
    }
  }

  // Messages only append to what the peer is sent.
  lemma AppendedTo(s: Rtmp, m: Message) returns (more: bytes)
    requires OnMessage(s, m).Done?
    ensures var t := Authorise(OnMessage(s, m).s);
      t.peer == s.peer + more && t.acked == s.acked && t.demux == s.demux
      && t.window == if Announces(m) then BE32(m.payload[0], m.payload[1], m.payload[2], m.payload[3]) else s.window
  {
    hide OnCommand, OnMedia, AcceptReply, ControlMessage, BE32, BE16;
    var t := Authorise(OnMessage(s, m).s);
    var x := OnMessage(s, m).s;
    var a := x.peer[|s.peer|..];
    assert x.peer == s.peer + a by { PeerGrows(s, m); }
    var b := if x.nego.pending then AcceptReply(x.nego) else [];
    assert b == [] ==> x.peer + b == x.peer;
    more := a + b;
    assert s.peer + a + b == s.peer + (a + b);
  }

  lemma PeerGrows(s: Rtmp, m: Message)
    requires OnMessage(s, m).Done?
    ensures s.peer <= OnMessage(s, m).s.peer
  {
    hide OnCommand, OnMedia, ControlMessage, BE32, BE16;
  }

  lemma StepPrompt(s: Rtmp, ms: seq<Message>, p: bytes)
    requires Prompt(s, ms)
    ensures TracedAt(SessionStep, Prompt, Ended, s, ms, p)
  {
    hide TakeChunk, OnMessage, ServerHello, Told, WindowOf, Acknowledge, Announces, Authorise;
    assert ms + [] == ms;
    var o := SessionStep(s, p);
    if o.Unit? {
      if s.phase.Chunks? {
        var c := TakeChunk(s.demux, p);
        ChunkCounts(s.demux, p);
        Acknowledges(s, c.next);
        var t := Acknowledge(s.(demux := c.next));
        if c.events == [] {
          NothingSaid(t);
          StillTold(t.peer, o.next.peer, t.acked);
        } else {
          assert c.events == [c.events[0]];
          MessagePrompt(t, ms, c.events[0]);
        }
      } else {
        Shaken(s, p);
        StillTold(s.peer, o.next.peer, s.acked);
      }
    }
  }

  lemma StillTold(before: bytes, now: bytes, n: nat)
    requires before <= now
    ensures Told(before, n) ==> Told(now, n)
  {
    hide Told;
    if Told(before, n) {
      ToldStill(before, now[|before|..], n);
      assert before + now[|before|..] == now;
    }
  }

  lemma Shaken(s: Rtmp, p: bytes)
    requires !s.phase.Chunks? && SessionStep(s, p).Unit?
    ensures var o := SessionStep(s, p);
      && o.next.demux == s.demux && o.next.window == s.window && o.next.acked == s.acked
      && s.peer <= o.next.peer && o.events == []
  {
    hide ServerHello, AcceptReply;
  }

  // On every connection, however its bytes arrive: the window in force is the one last announced; less than a window
  // of bytes is unacknowledged, unless the window was announced by the very last message; and
  // the count last acknowledged was sent.
  lemma AcknowledgedInTime(pieces: seq<bytes>)
    ensures var r := FeedAll(SessionStep, Session(true, CONNECTED, [], []), pieces);
      r.alive ==> Prompt(r.state, r.events)
  {
    hide SessionStep, Told, Announces;
    assert Prompt(CONNECTED, []);
    forall s: Rtmp, ms: seq<Message>, p: bytes | Prompt(s, ms) ensures TracedAt(SessionStep, Prompt, Ended, s, ms, p) {
      StepPrompt(s, ms, p);
    }
    FeedTraces(SessionStep, Prompt, Ended, Session(true, CONNECTED, [], []), pieces);
  }

  lemma ChunkCounts(d: Demux, p: bytes)
    requires TakeChunk(d, p).Unit?
    ensures var o := TakeChunk(d, p); o.next.bytesIn >= d.bytesIn && |o.events| <= 1
  {
    hide ReadBasic, ReadHead, BE32;
  }

  lemma NothingSaid(t: Rtmp)
    ensures var u := Authorise(t);
      u.demux == t.demux && u.window == t.window && u.acked == t.acked && t.peer <= u.peer
  {
    hide AcceptReply;
  }
}
