/**
  One RTMP publisher's connection (videortmp.cpp, RtmpSession): handshake, chunk layer, messages.

  A publish command is authorised and answered at once, as the caller does, and nothing is drained
  from the response queue while input is being processed, so its cap is part of the behaviour.
 */
module RtmpProtocol {
  import opened Bytes
  import opened StreamDecoder
  import opened RtmpDemux
  import opened RtmpPrinter
  import opened RtmpCommands

  const MAX_OUT := 256 * 1024
  const C1 := 1536

  datatype Phase = WantC0C1 | WantC2 | Chunks

  datatype Rtmp = Rtmp(phase: Phase, demux: Demux, window: nat, acked: nat, peer: bytes, nego: Negotiation)

  const CONNECTED := Rtmp(WantC0C1, FRESH, 0, 0, [], NEGOTIATING)

  type RtmpView = Session<byte, Rtmp, Message>

  // S0, S1 (zero time, zero, filler) and S2 echoing C1.
  function ServerHello(c1: bytes): bytes
  {
    [3] + seq(C1, i requires 0 <= i < C1 => if i < 8 then 0 else i % 256) + c1
  }

  // Acknowledge once per window.
  function Acknowledge(s: Rtmp): Rtmp
  {
    if s.window != 0 && s.demux.bytesIn - s.acked >= s.window then
      s.(acked := s.demux.bytesIn, peer := s.peer + ControlMessage(3, PutBE32(s.demux.bytesIn % WRAP)))
    else s
  }

  datatype Handled = Ended(s: Rtmp) | Done(s: Rtmp)

  // What each message type does above the chunk layer.
  function OnMessage(s: Rtmp, m: Message): Handled
  {
    var p := m.payload;
    if m.kind == 5 || m.kind == 6 then
      if |p| >= 4 then Done(s.(window := BE32(p[0], p[1], p[2], p[3]))) else Done(s)
    else if m.kind == 4 then
      if |p| >= 6 && BE16(p[0], p[1]) == 6 then
        Done(s.(peer := s.peer + ControlMessage(4, [0, 7, p[2], p[3], p[4], p[5]])))
      else Done(s)
    else if m.kind == 8 || m.kind == 9 || m.kind == 18 then
      Done(s.(nego := OnMedia(s.nego, m.kind, m.ts, p)))
    else if m.kind == 20 then
      match OnCommand(s.nego, m.sid, p)
      case Refused => Ended(s)
      case Replied(n, out) => Done(s.(nego := n, peer := s.peer + out))
    else Done(s)
  }

  function OnMessages(s: Rtmp, ms: seq<Message>): Handled
  {
    if ms == [] then Done(s) else OnMessage(s, ms[0])
  }

  // A peer that does not read its responses is cut off.
  function Capped(h: Handled, used: nat, ms: seq<Message>): Outcome<Rtmp, Message>
  {
    if h.Ended? || |h.s.peer| > MAX_OUT then Fatal(h.s, ms) else Unit(used, h.s, ms)
  }

  // One turn of the parser. A publish is left pending.
  function Turn(s: Rtmp, p: bytes): Outcome<Rtmp, Message>
  {
    match s.phase
    case WantC0C1 =>
      if |p| < 1 + C1 then More
      else if p[0] != 3 then Fatal(s, [])
      else Unit(1 + C1, s.(phase := WantC2, peer := s.peer + ServerHello(p[1..1 + C1])), [])
    case WantC2 =>
      if |p| < C1 then More else Unit(C1, s.(phase := Chunks), [])
    case Chunks =>
      match TakeChunk(s.demux, p)
      case More => More
      case Fatal(d, last) => Fatal(if last == [] then s else Acknowledge(s.(demux := d)), last)
      case Unit(used, d, ms) => Capped(OnMessages(Acknowledge(s.(demux := d)), ms), used, ms)
  }

  // The caller authorises a pending publish before anything behind it is looked at.
  function Authorise(s: Rtmp): Rtmp
  {
    if s.nego.pending then s.(nego := Accepted(s.nego), peer := s.peer + AcceptReply(s.nego)) else s
  }

  function SessionStep(s: Rtmp, p: bytes): Outcome<Rtmp, Message>
  {
    var o := Turn(s, p);
    if o.Unit? then o.(next := Authorise(o.next)) else o
  }

  // ---------------------------------------------------------------- split invariance

  lemma SessionStableAt(s: Rtmp, p: bytes, x: bytes)
    ensures StableAt(SessionStep, s, p, x)
  {
    hide TakeChunk, Capped, OnMessages, Acknowledge, ServerHello, Authorise;
    match s.phase
    case WantC0C1 =>
      if |p| >= 1 + C1 { assert (p + x)[1..1 + C1] == p[1..1 + C1]; }
    case WantC2 =>
    case Chunks =>
      ChunkStableAt(s.demux, p, x);
      var o := TakeChunk(s.demux, p);
      if o.Unit? { CappedUses(OnMessages(Acknowledge(s.(demux := o.next)), o.events), o.used, o.events); }
  }

  lemma CappedUses(h: Handled, used: nat, ms: seq<Message>)
    ensures var o := Capped(h, used, ms); !o.More? && (o.Unit? ==> o.used == used)
  {
  }

  lemma SessionStable()
    ensures Stable(SessionStep)
  {
    hide SessionStep;
    forall s, p, x
      ensures StableAt(SessionStep, s, p, x)
    {
      SessionStableAt(s, p, x);
    }
  }

  // However the publisher's bytes are split over reads, the assembled messages, the responses owed
  // to the peer, the FLV output, the negotiated state and the verdict are those of one read.
  lemma RtmpSplitInvariance(p: RtmpView, pieces: seq<bytes>)
    requires Settled(SessionStep, p)
    ensures FeedAll(SessionStep, p, pieces) == Feed(SessionStep, p, Join(pieces))
  {
    hide SessionStep;
    SessionStable();
    SplitInvariance(SessionStep, p, pieces);
  }

  lemma FreshSettled()
    ensures Settled(SessionStep, Session(true, CONNECTED, [], []))
  {
  }

  // So it is for every connection from its first byte.
  lemma EveryConnection(pieces: seq<bytes>)
    ensures var start := Session(true, CONNECTED, [], []);
      FeedAll(SessionStep, start, pieces) == Feed(SessionStep, start, Join(pieces))
  {
    hide SessionStep;
    FreshSettled();
    RtmpSplitInvariance(Session(true, CONNECTED, [], []), pieces);
  }
}
