/**
  The RTMP chunk layer (videortmp.cpp, RtmpSession::parse_chunks): interleaved chunk streams with
  four header formats, timestamp deltas and extended timestamps are put back together into
  messages. Set Chunk Size and Abort act on this layer and are applied here.
 */
module RtmpDemux {
  import opened Bytes
  import opened StreamDecoder

  const DEFAULT_CHUNK := 128
  const MAX_MESSAGE := 4 * 1024 * 1024
  const MAX_CHUNK := 1024 * 1024
  const MAX_ASSEMBLY := 8 * 1024 * 1024
  const SATURATED := 0xffffff
  const WRAP := 0x1_0000_0000

  datatype ChunkStream = ChunkStream(
    ts: nat, delta: nat, len: nat, kind: byte, sid: nat, extTs: bool, acc: bytes)

  const IDLE := ChunkStream(0, 0, 0, 0, 0, false, [])
  const ALL_IDLE: seq<ChunkStream> := seq(256, _ => IDLE)

  // One entry per chunk stream id 0..255; an id never heard from is idle.
  type Streams = s: seq<ChunkStream> | |s| == 256 witness ALL_IDLE

  datatype Demux = Demux(chunk: nat, cs: Streams, assembly: int, bytesIn: nat)

  const FRESH := Demux(DEFAULT_CHUNK, ALL_IDLE, 0, 0)

  datatype Message = Message(csid: nat, kind: byte, ts: nat, sid: nat, payload: bytes)

  // ---------------------------------------------------------------- headers

  datatype Basic = BasicWait | BasicBad | Basic(fmt: nat, csid: nat, size: nat)

  // Section 5.3.1.1 of RTMP 1.0: format and chunk stream id, in one to three bytes.
  function ReadBasic(p: bytes): (r: Basic)
    ensures r.Basic? ==> r.fmt < 4 && r.csid < 256 && 1 <= r.size <= |p|
  {
    if p == [] then BasicWait
    else
      var fmt, low := p[0] / 64, p[0] % 64;
      if low == 0 then
        if |p| < 2 then BasicWait else InRange(fmt, BE16(0, p[1]) + 64, 2)
      else if low == 1 then
        if |p| < 3 then BasicWait else InRange(fmt, BE16(p[2], p[1]) + 64, 3)
      else InRange(fmt, low, 1)
  }

  function InRange(fmt: nat, csid: nat, size: nat): Basic
  {
    if csid > 255 then BasicBad else Basic(fmt, csid, size)
  }

  // Message header length of each format.
  function HeadSize(fmt: nat): nat
  {
    if fmt == 0 then 11 else if fmt == 1 then 7 else if fmt == 2 then 3 else 0
  }

  datatype Head = HeadWait | Head(stream: ChunkStream, size: nat)

  // A 24-bit field that is saturated is replaced by the 32-bit extension behind the header; a
  // continuation repeats the extension its message started with.
  function WantsExtension(c: ChunkStream, fmt: nat, h: bytes): bool
    requires |h| >= HeadSize(fmt)
  {
    if fmt <= 2 then BE24(h[0], h[1], h[2]) == SATURATED else c.extTs
  }

  // The stream's fields as this header leaves them; nothing is stored until the chunk is whole.
  function ReadHead(c: ChunkStream, fmt: nat, h: bytes): (r: Head)
    ensures r.Head? ==> r.size <= |h| && r.stream.acc == c.acc
  {
    var mh := HeadSize(fmt);
    if |h| < mh then HeadWait
    else
      var ext := WantsExtension(c, fmt, h);
      var size := if ext then mh + 4 else mh;
      if |h| < size then HeadWait
      else if fmt <= 2 then
        var t := if ext then BE32(h[mh], h[mh + 1], h[mh + 2], h[mh + 3]) else BE24(h[0], h[1], h[2]);
        if fmt == 0 then
          Head(ChunkStream(t, 0, BE24(h[3], h[4], h[5]), h[6], BE32(h[10], h[9], h[8], h[7]), ext, c.acc), size)
        else if fmt == 1 then
          Head(c.(ts := (c.ts + t) % WRAP, delta := t, len := BE24(h[3], h[4], h[5]), kind := h[6], extTs := ext), size)
        else
          Head(c.(ts := (c.ts + t) % WRAP, delta := t, extTs := ext), size)
      else if c.acc == [] then Head(c.(ts := (c.ts + c.delta) % WRAP), size)
      else Head(c, size)
  }

  // ---------------------------------------------------------------- one chunk

  // What a chunk's payload length is: the rest of the message or a full chunk. The subtraction is
  // unsigned in the program, so a negative remainder would read as a huge one.
  function PayloadSize(chunk: nat, n: ChunkStream): nat
  {
    var remaining := n.len - |n.acc|;
    if 0 <= remaining < chunk then remaining else chunk
  }

  function TakeChunk(d: Demux, p: bytes): Outcome<Demux, Message>
  {
    match ReadBasic(p)
    case BasicWait => More
    case BasicBad => Fatal(d, [])
    case Basic(fmt, csid, b) =>
      match ReadHead(d.cs[csid], fmt, p[b..])
      case HeadWait => More
      case Head(n, size) =>
        if n.len > MAX_MESSAGE || (fmt != 3 && n.acc != []) then Fatal(d, [])
        else
          var pos := b + size;
          var take := PayloadSize(d.chunk, n);
          if |p| < pos + take then More
          else if d.assembly + take > MAX_ASSEMBLY then Fatal(d, [])
          else Commit(d, csid, n, p[pos..pos + take], pos + take)
  }

  // The whole chunk is here: store the header and the payload, and finish the message if it is.
  function Commit(d: Demux, csid: nat, n: ChunkStream, data: bytes, used: nat): Outcome<Demux, Message>
    requires csid < 256
  {
    var acc := n.acc + data;
    if |acc| >= n.len then
      Control(Demux(d.chunk, d.cs[csid := n.(acc := [])], d.assembly + |data| - |acc|, d.bytesIn + used),
              Message(csid, n.kind, n.ts, n.sid, acc), used)
    else
      Unit(used, Demux(d.chunk, d.cs[csid := n.(acc := acc)], d.assembly + |data|, d.bytesIn + used), [])
  }

  // Messages that act on the chunk layer itself: Set Chunk Size (1) and Abort (2).
  function Control(d: Demux, m: Message, used: nat): Outcome<Demux, Message>
  {
    var p := m.payload;
    if m.kind == 1 then
      if |p| < 4 then Fatal(d, [m])
      else
        var v := BE32(p[0], p[1], p[2], p[3]) % 0x8000_0000;
        if v == 0 || v > MAX_CHUNK then Fatal(d, [m]) else Unit(used, d.(chunk := v), [m])
    else if m.kind == 2 && |p| >= 4 && BE32(p[0], p[1], p[2], p[3]) < 256 then
      Unit(used, Abort(d, BE32(p[0], p[1], p[2], p[3])), [m])
    else Unit(used, d, [m])
  }

  // Discard the partial message of one chunk stream.
  function Abort(d: Demux, id: nat): Demux
    requires id < 256
  {
    d.(cs := d.cs[id := d.cs[id].(acc := [])], assembly := d.assembly - |d.cs[id].acc|)
  }

  // ---------------------------------------------------------------- split invariance

  lemma BasicStable(p: bytes, x: bytes)
    ensures !ReadBasic(p).BasicWait? ==> ReadBasic(p + x) == ReadBasic(p)
  {
  }

  lemma HeadStable(c: ChunkStream, fmt: nat, h: bytes, x: bytes)
    ensures !ReadHead(c, fmt, h).HeadWait? ==> ReadHead(c, fmt, h + x) == ReadHead(c, fmt, h)
  {
  }

  lemma ChunkStableAt(d: Demux, p: bytes, x: bytes)
    ensures StableAt(TakeChunk, d, p, x)
  {
    hide ReadBasic, ReadHead, PayloadSize, Commit;
    BasicStable(p, x);
    var b := ReadBasic(p);
    if b.Basic? {
      assert (p + x)[b.size..] == p[b.size..] + x;
      HeadStable(d.cs[b.csid], b.fmt, p[b.size..], x);
      var h := ReadHead(d.cs[b.csid], b.fmt, p[b.size..]);
      if h.Head? {
        var pos, take := b.size + h.size, PayloadSize(d.chunk, h.stream);
        if pos + take <= |p| {
          assert (p + x)[pos..pos + take] == p[pos..pos + take];
          CommitUses(d, b.csid, h.stream, p[pos..pos + take], pos + take);
        }
      }
    }
  }

  lemma CommitUses(d: Demux, csid: nat, n: ChunkStream, data: bytes, used: nat)
    requires csid < 256
    ensures var o := Commit(d, csid, n, data, used); !o.More? && (o.Unit? ==> o.used == used)
  {
  }

  lemma ChunksStable()
    ensures Stable(TakeChunk)
  {
    hide TakeChunk;
    forall d, p, x
      ensures StableAt(TakeChunk, d, p, x)
    {
      ChunkStableAt(d, p, x);
    }
  }

  // ---------------------------------------------------------------- what every run keeps

  // Bytes held in partial messages, over all chunk streams.
  function Held(cs: seq<ChunkStream>): nat
  {
    if cs == [] then 0 else |cs[0].acc| + Held(cs[1..])
  }

  lemma {:induction false} HeldUpdate(cs: seq<ChunkStream>, i: nat, c: ChunkStream)
    requires i < |cs|
    ensures Held(cs[i := c]) == Held(cs) - |cs[i].acc| + |c.acc|
  {
    if i == 0 {
      assert cs[i := c][1..] == cs[1..];
    } else {
      assert cs[i := c][1..] == cs[1..][i - 1 := c];
      HeldUpdate(cs[1..], i - 1, c);
    }
  }

  lemma {:induction false} IdleHoldsNothing(cs: seq<ChunkStream>)
    requires forall i :: 0 <= i < |cs| ==> cs[i].acc == []
    ensures Held(cs) == 0
  {
    if cs != [] {
      assert forall i :: 0 <= i < |cs[1..]| ==> cs[1..][i] == cs[i + 1];
      IdleHoldsNothing(cs[1..]);
    }
  }

  // A partial message is shorter than its declared length.
  predicate Partial(c: ChunkStream)
  {
    c.acc != [] ==> |c.acc| < c.len
  }

  // The counter is exactly what is held, and is within its cap.
  ghost predicate Accounted(d: Demux)
  {
    && d.assembly == Held(d.cs) <= MAX_ASSEMBLY
    && 1 <= d.chunk <= MAX_CHUNK
    && (forall i :: 0 <= i < 256 ==> Partial(d.cs[i]))
  }

  lemma FreshAccounted()
    ensures Accounted(FRESH)
  {
    IdleHoldsNothing(ALL_IDLE);
  }

  lemma AbortAccounted(d: Demux, id: nat)
    requires Accounted(d) && id < 256
    ensures Accounted(Abort(d, id))
  {
    HeldUpdate(d.cs, id, d.cs[id].(acc := []));
  }

  lemma CommitAccounted(d: Demux, csid: nat, n: ChunkStream, data: bytes, used: nat)
    requires Accounted(d) && csid < 256 && n.acc == d.cs[csid].acc
    requires d.assembly + |data| <= MAX_ASSEMBLY
    ensures var o := Commit(d, csid, n, data, used);
      (o.Unit? ==> Accounted(o.next)) && (o.Fatal? ==> Accounted(o.end))
  {
    hide Held;
    var acc := n.acc + data;
    HeldUpdate(d.cs, csid, n.(acc := []));
    HeldUpdate(d.cs, csid, n.(acc := acc));
    if |acc| >= n.len {
      var d1 := Demux(d.chunk, d.cs[csid := n.(acc := [])], d.assembly + |data| - |acc|, d.bytesIn + used);
      assert Accounted(d1);
      forall id | 0 <= id < 256 ensures Accounted(Abort(d1, id)) { AbortAccounted(d1, id); }
    }
  }

  lemma ChunkAccounted(d: Demux, p: bytes)
    requires Accounted(d)
    ensures var o := TakeChunk(d, p); (o.Unit? ==> Accounted(o.next)) && (o.Fatal? ==> Accounted(o.end))
  {
    hide ReadBasic, Commit, Held;
    var b := ReadBasic(p);
    if b.Basic? {
      var h := ReadHead(d.cs[b.csid], b.fmt, p[b.size..]);
      if h.Head? {
        var pos, take := b.size + h.size, PayloadSize(d.chunk, h.stream);
        if pos + take <= |p| && d.assembly + take <= MAX_ASSEMBLY {
          CommitAccounted(d, b.csid, h.stream, p[pos..pos + take], pos + take);
        }
      }
    }
  }

  // On every run, from whatever point: the counter equals the bytes held in partial messages and
  // stays within its cap, so no subtraction from it can go below zero.
  lemma AssemblyAccounted(p: Session<byte, Demux, Message>, pieces: seq<bytes>)
    requires Accounted(p.state)
    ensures Accounted(FeedAll(TakeChunk, p, pieces).state)
  {
    hide TakeChunk, Accounted;
    forall d, q | Accounted(d)
      ensures KeptAt(TakeChunk, Accounted, d, q)
    {
      ChunkAccounted(d, q);
    }
    FeedKeeps(TakeChunk, Accounted, p, pieces);
  }

  // So it is on every connection from its first byte.
  lemma EveryAssemblyAccounted(pieces: seq<bytes>)
    ensures Accounted(FeedAll(TakeChunk, Session(true, FRESH, [], []), pieces).state)
  {
    hide TakeChunk, Accounted;
    FreshAccounted();
    AssemblyAccounted(Session(true, FRESH, [], []), pieces);
  }

  // The other unsigned subtraction: the payload still owed is never negative when it is computed.
  lemma RemainingNeverNegative(d: Demux, fmt: nat, csid: nat, h: bytes)
    requires Accounted(d) && csid < 256 && fmt < 4
    ensures var r := ReadHead(d.cs[csid], fmt, h);
      r.Head? && (fmt == 3 || r.stream.acc == []) ==> |r.stream.acc| <= r.stream.len
  {
    assert Partial(d.cs[csid]);
  }
}
