/**
  A reference RTMP sender, and the proof that the chunk parser recovers exactly what it sent.

  The sender works from messages with absolute timestamps. It may interleave any chunk streams, use
  any of the four header formats where its abbreviation is truthful, either spelling of a chunk
  stream id, change its chunk size and abort messages. A format 3 header that starts a message
  repeats the last delta, which is zero after a format 0 header: that is the parser's convention.
 */
module RtmpSender {
  import opened Bytes
  import opened Numbers
  import opened StreamDecoder
  import opened RtmpDemux

  type Todos = s: seq<bytes> | |s| == 256 witness seq(256, _ => [])

  // `known[i]` is what the sender has announced on chunk stream i, with the part of the message
  // already sent; `todo[i]` is the part still to send.
  datatype Sender = Sender(chunk: nat, known: Streams, todo: Todos)

  // A chunk: the first of a message, under a header of format `fmt`, or the next of one in
  // progress. `wide` selects the longest spelling of the chunk stream id; `ext` fills the
  // extension field of format 3, whose value carries no information.
  datatype Send =
    | Start(m: Message, fmt: nat, wide: bool, ext: nat)
    | Continue(csid: nat, wide: bool, ext: nat)

  function Stream(a: Send): nat
  {
    if a.Start? then a.m.csid else a.csid
  }

  function Delta(from: nat, to: nat): (r: nat)
    requires from < WRAP && to < WRAP
    ensures r < WRAP && (from + r) % WRAP == to
  {
    if to >= from then to - from else to + WRAP - from
  }

  // What the timestamp field of a header has to convey.
  function Field(c: ChunkStream, m: Message, fmt: nat): nat
    requires c.ts < WRAP && m.ts < WRAP
  {
    if fmt == 0 then m.ts else Delta(c.ts, m.ts)
  }

  // What both ends know of a stream once a header for m has gone out.
  function Announce(c: ChunkStream, m: Message, fmt: nat): ChunkStream
    requires c.ts < WRAP && m.ts < WRAP
  {
    var ext := if fmt <= 2 then Field(c, m, fmt) >= SATURATED else c.extTs;
    var delta := if fmt == 0 then 0 else Delta(c.ts, m.ts);
    ChunkStream(m.ts, delta, |m.payload|, m.kind, m.sid, ext, [])
  }

  // The abbreviated formats may be used only when what they leave out has not changed.
  predicate Truthful(c: ChunkStream, m: Message, fmt: nat)
    requires c.ts < WRAP && m.ts < WRAP
  {
    && fmt <= 3
    && (fmt >= 1 ==> m.sid == c.sid)
    && (fmt >= 2 ==> m.kind == c.kind && |m.payload| == c.len)
    && (fmt == 3 ==> Delta(c.ts, m.ts) == c.delta)
  }

  predicate Sendable(m: Message)
  {
    2 <= m.csid < 256 && m.ts < WRAP && m.sid < WRAP && |m.payload| <= MAX_MESSAGE
  }

  // What remains to be sent of the message, before this chunk.
  function Rest(s: Sender, a: Send): bytes
    requires Stream(a) < 256
  {
    if a.Start? then a.m.payload else s.todo[a.csid]
  }

  // The payload of this chunk.
  function Piece(s: Sender, a: Send): bytes
    requires Stream(a) < 256
  {
    Rest(s, a)[..Min(|Rest(s, a)|, s.chunk)]
  }

  predicate Legal(s: Sender, a: Send)
  {
    && (if a.Start? then
          && Sendable(a.m) && s.known[a.m.csid].acc == [] && s.todo[a.m.csid] == []
          && s.known[a.m.csid].ts < WRAP && Truthful(s.known[a.m.csid], a.m, a.fmt)
        else 2 <= a.csid < 256 && s.todo[a.csid] != [])
    && Held(s.known) + |Piece(s, a)| <= MAX_ASSEMBLY
    && ControlLegal(Whole(s, a))
  }

  // The message as it will stand at the receiver once this chunk is in, if it is complete then.
  datatype Completed = Unfinished | Finished(m: Message)

  function Whole(s: Sender, a: Send): Completed
    requires Stream(a) < 256
  {
    if |Rest(s, a)| > s.chunk then Unfinished
    else if a.Start? then Finished(a.m)
    else
      var c := s.known[a.csid];
      Finished(Message(a.csid, c.kind, c.ts, c.sid, c.acc + s.todo[a.csid]))
  }

  // A Set Chunk Size message has to announce a size the receiver supports.
  predicate ControlLegal(w: Completed)
  {
    w.Finished? && w.m.kind == 1 ==>
      var p := w.m.payload;
      |p| >= 4 && 1 <= BE32(p[0], p[1], p[2], p[3]) % 0x8000_0000 <= MAX_CHUNK
  }

  // ---------------------------------------------------------------- wire format

  // Section 5.3.1.1: ids 2..63 in one byte, others in two or three.
  function BasicBytes(fmt: nat, csid: nat, wide: bool): bytes
    requires fmt <= 3 && 2 <= csid < 256
  {
    if csid < 64 then [fmt * 64 + csid]
    else if wide then [fmt * 64 + 1, csid - 64, 0]
    else [fmt * 64, csid - 64]
  }

  function Field24(v: nat): bytes
  {
    PutBE24(if v >= SATURATED then SATURATED else v)
  }

  function Reverse4(b: bytes): bytes
    requires |b| == 4
  {
    [b[3], b[2], b[1], b[0]]
  }

  // Sections 5.3.1.2 and 5.3.1.3: message header and extended timestamp.
  function HeadBytes(c: ChunkStream, m: Message, fmt: nat, ext: nat): bytes
    requires c.ts < WRAP && m.ts < WRAP && fmt <= 3
  {
    var v := Field(c, m, fmt);
    var tail := if v >= SATURATED then PutBE32(v) else [];
    if fmt == 0 then Field24(v) + PutBE24(|m.payload|) + [m.kind] + Reverse4(PutBE32(m.sid)) + tail
    else if fmt == 1 then Field24(v) + PutBE24(|m.payload|) + [m.kind] + tail
    else if fmt == 2 then Field24(v) + tail
    else if c.extTs then PutBE32(ext) else []
  }

  function HeaderOf(s: Sender, a: Send): bytes
    requires Legal(s, a)
  {
    if a.Start? then HeadBytes(s.known[a.m.csid], a.m, a.fmt, a.ext)
    else if s.known[a.csid].extTs then PutBE32(a.ext) else []
  }

  function Format(a: Send): nat
  {
    if a.Start? then a.fmt else 3
  }

  function Wire(s: Sender, a: Send): bytes
    requires Legal(s, a)
  {
    BasicBytes(Format(a), Stream(a), a.wide) + HeaderOf(s, a) + Piece(s, a)
  }

  // ---------------------------------------------------------------- the sender's own state

  // Set Chunk Size and Abort act on the sender too.
  function Obey(s: Sender, m: Message): Sender
  {
    var p := m.payload;
    if m.kind == 1 && |p| >= 4 then s.(chunk := BE32(p[0], p[1], p[2], p[3]) % 0x8000_0000)
    else if m.kind == 2 && |p| >= 4 && BE32(p[0], p[1], p[2], p[3]) < 256 then
      var id := BE32(p[0], p[1], p[2], p[3]);
      s.(known := s.known[id := s.known[id].(acc := [])], todo := s.todo[id := []])
    else s
  }

  // The stream as known to both ends once this chunk's header is out.
  function Announced(s: Sender, a: Send): ChunkStream
    requires Legal(s, a)
  {
    if a.Start? then Announce(s.known[a.m.csid], a.m, a.fmt) else s.known[a.csid]
  }

  // The sender once this chunk is out.
  function Sent(s: Sender, a: Send): Sender
    requires Legal(s, a)
  {
    var i, c, w := Stream(a), Announced(s, a), Whole(s, a);
    if w.Finished? then
      Obey(s.(known := s.known[i := c.(acc := [])], todo := s.todo[i := []]), w.m)
    else
      s.(known := s.known[i := c.(acc := c.acc + Piece(s, a))], todo := s.todo[i := Rest(s, a)[|Piece(s, a)|..]])
  }

  function Done(s: Sender, a: Send): seq<Message>
    requires Stream(a) < 256
  {
    if Whole(s, a).Finished? then [Whole(s, a).m] else []
  }

  predicate AllLegal(s: Sender, acts: seq<Send>)
    decreases |acts|
  {
    acts == [] || (Legal(s, acts[0]) && AllLegal(Sent(s, acts[0]), acts[1..]))
  }

  function WireAll(s: Sender, acts: seq<Send>): bytes
    requires AllLegal(s, acts)
    decreases |acts|
  {
    if acts == [] then [] else Wire(s, acts[0]) + WireAll(Sent(s, acts[0]), acts[1..])
  }

  function DoneAll(s: Sender, acts: seq<Send>): seq<Message>
    requires AllLegal(s, acts)
    decreases |acts|
  {
    if acts == [] then [] else Done(s, acts[0]) + DoneAll(Sent(s, acts[0]), acts[1..])
  }

  function Final(s: Sender, acts: seq<Send>): Sender
    requires AllLegal(s, acts)
    decreases |acts|
  {
    if acts == [] then s else Final(Sent(s, acts[0]), acts[1..])
  }

  // ---------------------------------------------------------------- sent is received

  // Sent and unsent parts of a message in progress make up its declared length.
  predicate Consistent(c: ChunkStream, todo: bytes)
  {
    && c.ts < WRAP && c.delta < WRAP
    && (todo == [] ==> c.acc == [])
    && (todo != [] ==> c.acc != [] && |c.acc| + |todo| == c.len <= MAX_MESSAGE)
  }

  ghost predicate Ready(s: Sender)
  {
    && 1 <= s.chunk <= MAX_CHUNK
    && (forall i :: 0 <= i < 256 ==> Consistent(s.known[i], s.todo[i]))
  }

  // The receiver that has followed the sender so far.
  ghost function Receiver(s: Sender, bytesIn: nat): Demux
  {
    Demux(s.chunk, s.known, Held(s.known), bytesIn)
  }

  lemma BasicRoundTrip(fmt: nat, csid: nat, wide: bool, x: bytes)
    requires fmt <= 3 && 2 <= csid < 256
    ensures ReadBasic(BasicBytes(fmt, csid, wide) + x) == Basic(fmt, csid, |BasicBytes(fmt, csid, wide)|)
  {
  }

  lemma HeadRoundTrip(c: ChunkStream, m: Message, fmt: nat, ext: nat, x: bytes)
    requires c.ts < WRAP && c.delta < WRAP && c.acc == [] && Sendable(m) && Truthful(c, m, fmt)
    ensures var h := HeadBytes(c, m, fmt, ext);
      ReadHead(c, fmt, h + x) == Head(Announce(c, m, fmt), |h|)
  {
    hide PutBE24, PutBE32;
    var v := Field(c, m, fmt);
    var f := Field24(v);
    assert BE24(f[0], f[1], f[2]) == if v >= SATURATED then SATURATED else v;
  }

  // Under the sender's invariant, the parser reads back the header of any chunk.
  lemma HeaderRoundTrip(s: Sender, a: Send, x: bytes)
    requires Ready(s) && Legal(s, a)
    ensures var h := HeaderOf(s, a);
      ReadHead(s.known[Stream(a)], Format(a), h + x) == Head(Announced(s, a), |h|)
  {
    var c := s.known[Stream(a)];
    assert Consistent(c, s.todo[Stream(a)]);
    if a.Start? {
      hide HeadBytes, ReadHead;
      HeadRoundTrip(c, a.m, a.fmt, a.ext, x);
    }
  }

  lemma AnnouncedLength(s: Sender, a: Send)
    requires Ready(s) && Legal(s, a)
    ensures var c := Announced(s, a);
      && c.acc == s.known[Stream(a)].acc && |c.acc| + |Rest(s, a)| == c.len <= MAX_MESSAGE
      && (Format(a) != 3 ==> c.acc == [])
  {
    assert Consistent(s.known[Stream(a)], s.todo[Stream(a)]);
  }

  // The chunk's bytes, split where the parser splits them.
  lemma ChunkRoundTrip(s: Sender, a: Send, bytesIn: nat, x: bytes)
    requires Ready(s) && Legal(s, a)
    ensures var w, d := Wire(s, a), Receiver(s, bytesIn);
      TakeChunk(d, w + x) == Commit(d, Stream(a), Announced(s, a), Piece(s, a), |w|)
  {
    hide ReadBasic, ReadHead, Commit, BasicBytes, HeaderOf, Announced, Held;
    var b, h, q := BasicBytes(Format(a), Stream(a), a.wide), HeaderOf(s, a), Piece(s, a);
    var p := Wire(s, a) + x;
    assert p == b + (h + q + x);
    BasicRoundTrip(Format(a), Stream(a), a.wide, h + q + x);
    assert p[|b|..] == h + (q + x);
    HeaderRoundTrip(s, a, q + x);
    AnnouncedLength(s, a);
    var pos := |b| + |h|;
    assert p[pos..pos + |q|] == q;
    assert PayloadSize(s.chunk, Announced(s, a)) == |q|;
  }

  // Set Chunk Size and Abort have the same effect at both ends.
  lemma ObeyMatches(s: Sender, m: Message, bytesIn: nat, used: nat)
    requires ControlLegal(Finished(m))
    ensures Control(Receiver(s, bytesIn), m, used) == Unit(used, Receiver(Obey(s, m), bytesIn), [m])
  {
    hide Held;
    var p := m.payload;
    if |p| >= 4 && BE32(p[0], p[1], p[2], p[3]) < 256 {
      var id := BE32(p[0], p[1], p[2], p[3]);
      HeldUpdate(s.known, id, s.known[id].(acc := []));
    }
  }

  // Committing the chunk leaves the receiver matching the sender again.
  lemma CommitMatches(s: Sender, a: Send, bytesIn: nat, used: nat)
    requires Ready(s) && Legal(s, a)
    ensures Commit(Receiver(s, bytesIn), Stream(a), Announced(s, a), Piece(s, a), used)
      == Unit(used, Receiver(Sent(s, a), bytesIn + used), Done(s, a))
  {
    hide Held, Announced, Control, Obey, ControlLegal, BE32;
    AnnouncedLength(s, a);
    var i, c, q := Stream(a), Announced(s, a), Piece(s, a);
    HeldUpdate(s.known, i, c.(acc := c.acc + q));
    HeldUpdate(s.known, i, c.(acc := []));
    if Whole(s, a).Finished? {
      WholeIsAssembled(s, a);
      ObeyMatches(Sender(s.chunk, s.known[i := c.(acc := [])], s.todo[i := []]), Whole(s, a).m, bytesIn + used, used);
    }
  }

  // The message the receiver puts together is the one that was sent.
  lemma WholeIsAssembled(s: Sender, a: Send)
    requires Ready(s) && Legal(s, a) && Whole(s, a).Finished?
    ensures var c := Announced(s, a);
      Whole(s, a).m == Message(Stream(a), c.kind, c.ts, c.sid, c.acc + Piece(s, a))
  {
    assert Consistent(s.known[Stream(a)], s.todo[Stream(a)]);
    assert Rest(s, a)[..|Rest(s, a)|] == Rest(s, a);
    if a.Start? { assert [] + a.m.payload == a.m.payload; }
  }

  lemma StaysReady(s: Sender, a: Send)
    requires Ready(s) && Legal(s, a)
    ensures Ready(Sent(s, a))
  {
    hide Held, BasicBytes;
    assert Consistent(s.known[Stream(a)], s.todo[Stream(a)]);
    AnnouncedLength(s, a);
  }

  // Whatever legal chunks the sender puts on the wire, in whatever order, the parser delivers
  // exactly the completed messages, in completion order, with their absolute timestamps, and ends
  // up knowing exactly what the sender has announced.
  lemma {:induction false} SentIsReceived(s: Sender, acts: seq<Send>, bytesIn: nat)
    requires Ready(s) && AllLegal(s, acts)
    ensures Run(TakeChunk, Receiver(s, bytesIn), WireAll(s, acts))
      == Session(true, Receiver(Final(s, acts), bytesIn + |WireAll(s, acts)|), [], DoneAll(s, acts))
    decreases |acts|
  {
    hide TakeChunk, Wire, Sent, Done, Legal, Receiver;
    if acts == [] {
      NoBytesNoChunk(Receiver(s, bytesIn));
    } else {
      var a, t := acts[0], Sent(s, acts[0]);
      var w, rest := Wire(s, a), WireAll(t, acts[1..]);
      ChunkRoundTrip(s, a, bytesIn, rest);
      CommitMatches(s, a, bytesIn, |w|);
      StaysReady(s, a);
      WireNotEmpty(s, a);
      RunUnit(TakeChunk, Receiver(s, bytesIn), w + rest);
      assert (w + rest)[|w|..] == rest;
      SentIsReceived(t, acts[1..], bytesIn + |w|);
    }
  }

  lemma NoBytesNoChunk(d: Demux)
    ensures TakeChunk(d, []) == More
  {
  }

  lemma WireNotEmpty(s: Sender, a: Send)
    requires Legal(s, a)
    ensures |Wire(s, a)| > 0
  {
  }
}
