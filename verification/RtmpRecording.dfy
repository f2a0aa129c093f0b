/**
  What a publisher's connection records (videortmp.cpp, accept_publish, on_media and write_flv_tag): an
  FLV reader finds exactly the media handled after the publish.
 */
module RtmpRecording {
  import opened Bytes
  import opened StreamDecoder
  import opened Amf0
  import opened HttpQuery
  import opened RtmpDemux
  import opened RtmpSender
  import opened RtmpStandard
  import opened RtmpCommands
  import opened RtmpProtocol
  import opened FlvReader

  // ---------------------------------------------------------------- what should be recorded

  // Is m a command of this name?
  predicate Commands(m: Message, name: string)
  {
    m.kind == 20 && ReadString(m.payload, 0).StringRead? && ReadString(m.payload, 0).value == Ascii(name)
  }

  // The place of the first command of this name; the number of messages if there is none.
  function First(ms: seq<Message>, name: string): (r: nat)
    ensures r <= |ms|
  {
    if ms == [] then 0
    else
      var r := First(ms[..|ms| - 1], name);
      if r < |ms| - 1 || Commands(ms[r], name) then r else |ms|
  }

  lemma {:induction false} FirstIs(ms: seq<Message>, name: string)
    ensures First(ms, name) < |ms| ==> Commands(ms[First(ms, name)], name)
    ensures forall k | 0 <= k < First(ms, name) :: !Commands(ms[k], name)
  {
    hide Commands;
    if ms != [] { FirstIs(ms[..|ms| - 1], name); }
  }

  predicate IsMedia(m: Message)
  {
    m.kind in {8, 9, 18} && m.payload != []
  }

  // The AMF0 string that publishers put before their metadata.
  function Wrapper(): bytes
  {
    Encode(Str(Ascii("@setDataFrame")))
  }

  function Unwrapped(p: bytes): bytes
  {
    if |p| > |Wrapper()| && Wrapper() <= p then p[|Wrapper()|..] else p
  }

  function TagOf(m: Message): Tag
  {
    Tag(m.kind, m.ts, if m.kind == 18 then Unwrapped(m.payload) else m.payload)
  }

  // Audio, video and metadata, in order.
  function MediaOf(ms: seq<Message>): seq<Tag>
  {
    if ms == [] then []
    else
      var m := ms[|ms| - 1];
      MediaOf(ms[..|ms| - 1]) + if IsMedia(m) then [TagOf(m)] else []
  }

  // The messages after the publish.
  function Since(ms: seq<Message>): seq<Message>
  {
    if First(ms, "publish") < |ms| then ms[First(ms, "publish") + 1..] else []
  }

  // The recording of a connection on which these messages were handled: nothing up to the publish, and
  // from then on a file that reads as all media after it.
  ghost predicate Holds(flv: bytes, ms: seq<Message>)
  {
    if First(ms, "publish") == |ms| then flv == [] else ReadFlv(flv) == Tags(MediaOf(Since(ms)))
  }

  // One publish at most, and none before connect.
  ghost predicate PublishesOnce(ms: seq<Message>)
  {
    var k := First(ms, "publish");
    k < |ms| ==> First(ms, "connect") < k && forall i | k < i < |ms| :: !Commands(ms[i], "publish")
  }

  // ---------------------------------------------------------------- one tag

  lemma ReadOne(t: Tag)
    requires |t.payload| < 0x100_0000 && t.ts < WRAP
    ensures ReadTags(FlvTag(t.kind, t.ts, t.payload)) == Tags([t])
  {
    hide BE24, BE32, PutBE24, PutBE32;
    var w, n := FlvTag(t.kind, t.ts, t.payload), |t.payload|;
    TagFields(t);
    assert TagEnd(w) == |w|;
    assert w[TAG_HEADER..TAG_HEADER + n] == t.payload && w[|w|..] == [];
    assert ReadTags([]) == Tags([]);
    assert [t] + [] == [t];
  }

  lemma TagFields(t: Tag)
    requires |t.payload| < 0x100_0000 && t.ts < WRAP
    ensures var w, end := FlvTag(t.kind, t.ts, t.payload), TAG_HEADER + |t.payload|;
      && |w| == end + 4 && w[0] == t.kind && BE24(w[1], w[2], w[3]) == |t.payload|
      && BE32(w[7], w[4], w[5], w[6]) == t.ts && BE24(w[8], w[9], w[10]) == 0
      && BE32(w[end], w[end + 1], w[end + 2], w[end + 3]) == end
  {
    hide PutBE32;
    TimestampSplits(t.ts);
    hide PutBE24;
    var size := PutBE32(|t.payload| + 11);
    assert BE32(size[0], size[1], size[2], size[3]) == |t.payload| + 11;
  }

  // The low 24 bits and the 8 above them are the timestamp.
  lemma TimestampSplits(ts: nat)
    requires ts < WRAP
    ensures var low := PutBE24(ts); BE32((ts / 0x100_0000) % 256, low[0], low[1], low[2]) == ts
  {
    var w := ts / 256;
    assert (w / 256) / 256 == ts / 0x100_0000;
  }

  lemma HeaderReads()
    ensures ReadFlv(FLV_HEADER) == Tags([])
  {
    assert FLV_HEADER[13..] == [];
  }

  // ---------------------------------------------------------------- messages fit into tags

  // Every message assembled fits a tag's fields.
  predicate Fits(m: Message)
  {
    m.ts < WRAP && |m.payload| <= MAX_MESSAGE
  }

  ghost predicate Clocked(d: Demux)
  {
    Accounted(d) && forall i | 0 <= i < 256 :: d.cs[i].ts < WRAP
  }

  lemma HeadClocked(c: ChunkStream, fmt: nat, h: bytes)
    requires c.ts < WRAP
    ensures ReadHead(c, fmt, h).Head? ==> ReadHead(c, fmt, h).stream.ts < WRAP
  {
    hide BE24;
  }

  lemma CommitClocked(d: Demux, csid: nat, n: ChunkStream, data: bytes, used: nat)
    requires Clocked(d) && csid < 256 && n.acc == d.cs[csid].acc && n.ts < WRAP && n.len <= MAX_MESSAGE
    requires d.assembly + |data| <= MAX_ASSEMBLY && |n.acc| + |data| <= n.len
    ensures var o := Commit(d, csid, n, data, used);
      && (o.Unit? ==> Clocked(o.next) && |o.events| <= 1 && forall m | m in o.events :: Fits(m))
      && (o.Fatal? ==> |o.last| <= 1 && forall m | m in o.last :: m.kind == 1)
  {
    hide Accounted;
    CommitAccounted(d, csid, n, data, used);
  }

  lemma ChunkClocked(d: Demux, p: bytes)
    requires Clocked(d)
    ensures var o := TakeChunk(d, p);
      && (o.Unit? ==> Clocked(o.next) && |o.events| <= 1 && forall m | m in o.events :: Fits(m))
      && (o.Fatal? ==> |o.last| <= 1 && forall m | m in o.last :: m.kind == 1)
  {
    hide ReadBasic, ReadHead, Commit, Held;
    var b := ReadBasic(p);
    if b.Basic? {
      var h := ReadHead(d.cs[b.csid], b.fmt, p[b.size..]);
      if h.Head? {
        HeadClocked(d.cs[b.csid], b.fmt, p[b.size..]);
        RemainingNeverNegative(d, b.fmt, b.csid, p[b.size..]);
        var pos, take := b.size + h.size, PayloadSize(d.chunk, h.stream);
        if pos + take <= |p| && d.assembly + take <= MAX_ASSEMBLY && h.stream.len <= MAX_MESSAGE
           && (b.fmt == 3 || h.stream.acc == []) {
          CommitClocked(d, b.csid, h.stream, p[pos..pos + take], pos + take);
        }
      }
    }
  }

  // ---------------------------------------------------------------- one message

  lemma FirstOn(ms: seq<Message>, m: Message, name: string)
    ensures First(ms + [m], name)
      == if First(ms, name) < |ms| then First(ms, name) else if Commands(m, name) then |ms| else |ms| + 1
  {
    hide Commands;
    assert (ms + [m])[..|ms|] == ms;
  }

  lemma MediaOn(ms: seq<Message>, m: Message)
    ensures MediaOf(ms + [m]) == MediaOf(ms) + if IsMedia(m) then [TagOf(m)] else []
  {
    hide IsMedia, TagOf;
    assert (ms + [m])[..|ms|] == ms;
  }

  // The names of commands that matter differ from all others.
  lemma NamesDiffer()
    ensures Ascii("connect") != Ascii("publish")
    ensures forall s | s in {"releaseStream", "FCUnpublish", "deleteStream", "closeStream", "FCPublish", "createStream"}
      :: Ascii(s) != Ascii("connect") && Ascii(s) != Ascii("publish")
  {
    hide Ascii;
    AsciiIs("connect", [99, 111, 110, 110, 101, 99, 116]);
    AsciiIs("publish", [112, 117, 98, 108, 105, 115, 104]);
    forall s | s in {"releaseStream", "FCUnpublish", "deleteStream", "closeStream", "FCPublish", "createStream"}
      ensures |Ascii(s)| == |s|
    {
      AsciiLength(s);
    }
  }

  // What a command does to what counts here.
  lemma CommandEffect(n: Negotiation, m: Message)
    requires m.kind == 20 && OnCommand(n, m.sid, m.payload).Replied? && !n.pending
    ensures var r := OnCommand(n, m.sid, m.payload).n;
      && r.publishing == n.publishing && r.flv == n.flv
      && (r.connected <==> n.connected || Commands(m, "connect"))
      && (r.pending <==> Commands(m, "publish"))
      && (r.pending ==> n.connected && !n.publishing)
      && !(Commands(m, "connect") && Commands(m, "publish"))
  {
    hide ConnectReply, FcPublishReply, ResultReply, DoubleBits, Ascii;
    hide CredentialPart, NamePart, NameArgument, ConnectObject, OfferedBy;
    NamesDiffer();
  }

  lemma MediaEffect(n: Negotiation, m: Message)
    requires m.kind in {8, 9, 18}
    ensures var r := OnMedia(n, m.kind, m.ts, m.payload);
      && r.publishing == n.publishing && r.connected == n.connected && r.pending == n.pending
      && r.flv == (if n.publishing && IsMedia(m) then n.flv + FlvTag(m.kind, m.ts, TagOf(m).payload) else n.flv)
  {
    hide CodecOf, FlvTag, Unwrapped, Ascii;
    UnwrappedIs(m.payload);
  }

  lemma UnwrappedIs(p: bytes)
    ensures Unwrapped(p) == if |p| > 16 && p[..16] == DATA_FRAME then p[16..] else p
  {
    hide Ascii, Wrapper;
    WrapperSpelled();
  }

  lemma WrapperSpelled()
    ensures Wrapper() == DATA_FRAME && |DATA_FRAME| == 16
  {
    hide Ascii, PutBE16;
    AsciiLength("@setDataFrame");
    assert PutBE16(13) == [0, 13] by { Thirteen(); }
  }

  lemma Thirteen()
    ensures PutBE16(13) == [0, 13]
  {
  }

  // What is true of a connection, given the messages handled on it.
  ghost predicate Live(n: Negotiation, ms: seq<Message>)
  {
    && !n.pending && Holds(n.flv, ms) && PublishesOnce(ms)
    && (n.connected <==> First(ms, "connect") < |ms|)
    && (n.publishing <==> First(ms, "publish") < |ms|)
  }

  // A connection that ended on the publish itself may lack the file header.
  ghost predicate Over(n: Negotiation, ms: seq<Message>)
  {
    Holds(n.flv, ms) || (First(ms, "publish") + 1 == |ms| && n.flv == [])
  }

  lemma LiveIsOver(n: Negotiation, ms: seq<Message>)
    requires Live(n, ms)
    ensures Over(n, ms)
  {
  }

  // One message more behind the publish.
  lemma SinceOn(ms: seq<Message>, m: Message)
    requires First(ms, "publish") < |ms|
    ensures First(ms + [m], "publish") == First(ms, "publish")
    ensures IsMedia(m) ==> MediaOf(Since(ms + [m])) == MediaOf(Since(ms)) + [TagOf(m)]
    ensures !IsMedia(m) ==> MediaOf(Since(ms + [m])) == MediaOf(Since(ms))
  {
    hide First, MediaOf, IsMedia, TagOf, Commands, Since;
    FirstOn(ms, m, "publish");
    SinceIs(ms);
    SinceIs(ms + [m]);
    var k := First(ms, "publish");
    Beyond(ms, m, k);
    MediaOn(ms[k + 1..], m);
  }

  lemma SinceIs(ms: seq<Message>)
    requires First(ms, "publish") < |ms|
    ensures Since(ms) == ms[First(ms, "publish") + 1..]
  {
    hide First;
  }

  lemma Beyond(ms: seq<Message>, m: Message, k: nat)
    ensures k < |ms| ==> (ms + [m])[k + 1..] == ms[k + 1..] + [m]
    ensures k == |ms| ==> (ms + [m])[k + 1..] == []
  {
  }

  // A message that is neither media nor a publish.
  lemma QuietKeeps(n: Negotiation, ms: seq<Message>, m: Message)
    requires Holds(n.flv, ms) && PublishesOnce(ms) && !IsMedia(m) && !Commands(m, "publish")
    ensures Holds(n.flv, ms + [m]) && PublishesOnce(ms + [m])
  {
    hide Holds, PublishesOnce, First, Commands, IsMedia;
    HoldsOn(n.flv, ms, m);
    OnceOn(ms, m);
  }

  lemma HoldsOn(flv: bytes, ms: seq<Message>, m: Message)
    requires Holds(flv, ms) && !IsMedia(m) && !Commands(m, "publish")
    ensures Holds(flv, ms + [m])
  {
    hide First, MediaOf, IsMedia, ReadFlv, Commands, Since;
    FirstOn(ms, m, "publish");
    if First(ms, "publish") < |ms| { SinceOn(ms, m); }
  }

  lemma OnceOn(ms: seq<Message>, m: Message)
    requires PublishesOnce(ms) && !Commands(m, "publish")
    ensures PublishesOnce(ms + [m])
  {
    hide First, Commands;
    FirstOn(ms, m, "publish");
    FirstOn(ms, m, "connect");
  }

  lemma PublishStarts(ms: seq<Message>, m: Message)
    requires First(ms, "publish") == |ms| && First(ms, "connect") < |ms| && Commands(m, "publish")
    ensures Holds(FLV_HEADER, ms + [m]) && PublishesOnce(ms + [m]) && First(ms + [m], "publish") == |ms|
  {
    hide First, MediaOf, ReadFlv, Commands, FLV_HEADER;
    FirstOn(ms, m, "publish");
    FirstOn(ms, m, "connect");
    Beyond(ms, m, |ms|);
    NoMedia();
    HeaderReads();
  }

  lemma NoMedia()
    ensures MediaOf([]) == []
  {
  }

  lemma CommandKeeps(n: Negotiation, ms: seq<Message>, m: Message)
    requires Live(n, ms) && m.kind == 20 && OnCommand(n, m.sid, m.payload).Replied?
    ensures var r := OnCommand(n, m.sid, m.payload).n;
      Over(r, ms + [m]) && Live(if r.pending then Accepted(r) else r, ms + [m])
  {
    hide OnCommand, Commands, First, Holds, PublishesOnce, FLV_HEADER;
    CommandEffect(n, m);
    FirstOn(ms, m, "connect");
    FirstOn(ms, m, "publish");
    if Commands(m, "publish") {
      PublishStarts(ms, m);
      NothingYet(n.flv, ms);
      assert [] + FLV_HEADER == FLV_HEADER;
    } else {
      QuietKeeps(n, ms, m);
    }
  }

  lemma NothingYet(flv: bytes, ms: seq<Message>)
    requires Holds(flv, ms) && First(ms, "publish") == |ms|
    ensures flv == []
  {
  }

  lemma OtherKeeps(n: Negotiation, ms: seq<Message>, m: Message)
    requires Live(n, ms) && m.kind !in {8, 9, 18, 20}
    ensures Live(n, ms + [m])
  {
    hide First, Holds, PublishesOnce;
    FirstOn(ms, m, "connect");
    FirstOn(ms, m, "publish");
    QuietKeeps(n, ms, m);
  }

  lemma MediaKeeps(n: Negotiation, ms: seq<Message>, m: Message)
    requires Live(n, ms) && m.kind in {8, 9, 18} && Fits(m)
    ensures Live(OnMedia(n, m.kind, m.ts, m.payload), ms + [m])
  {
    hide ReadFlv, MediaOf, FlvTag, TagOf, OnMedia, Commands, First, IsMedia, Since;
    MediaEffect(n, m);
    NotACommand(m);
    FirstOn(ms, m, "connect");
    FirstOn(ms, m, "publish");
    var k := First(ms, "publish");
    if k < |ms| {
      SinceOn(ms, m);
      if IsMedia(m) { RecordOn(n.flv, MediaOf(Since(ms)), m); }
    }
  }

  lemma NotACommand(m: Message)
    requires m.kind != 20
    ensures forall name :: !Commands(m, name)
  {
  }

  lemma RecordOn(flv: bytes, tags: seq<Tag>, m: Message)
    requires ReadFlv(flv) == Tags(tags) && Fits(m) && m.kind in {8, 9, 18}
    ensures ReadFlv(flv + FlvTag(m.kind, m.ts, TagOf(m).payload)) == Tags(tags + [TagOf(m)])
  {
    hide ReadFlv, ReadTags, FlvTag, Wrapper;
    ReadOne(TagOf(m));
    FileOn(flv, FlvTag(m.kind, m.ts, TagOf(m).payload));
  }

  // ---------------------------------------------------------------- whole connections

  ghost predicate LiveAt(s: Rtmp, ms: seq<Message>)
  {
    Clocked(s.demux) && Live(s.nego, ms)
  }

  ghost predicate OverAt(s: Rtmp, ms: seq<Message>)
  {
    Over(s.nego, ms)
  }

  lemma MessageKeeps(s: Rtmp, ms: seq<Message>, m: Message)
    requires Live(s.nego, ms) && Fits(m)
    ensures var h := OnMessage(s, m);
      && Over(h.s.nego, ms + [m]) && h.s.demux == s.demux
      && (h.Done? ==> Live(Authorise(h.s).nego, ms + [m]))
  {
    hide OnCommand, OnMedia, Live, Over, AcceptReply, ControlMessage;
    Settled(s.nego, ms);
    if m.kind == 20 {
      if OnCommand(s.nego, m.sid, m.payload).Replied? {
        CommandKeeps(s.nego, ms, m);
      } else {
        RefusedKeeps(s.nego, ms, m);
      }
    } else if m.kind in {8, 9, 18} {
      MediaKeeps(s.nego, ms, m);
      Settled(OnMedia(s.nego, m.kind, m.ts, m.payload), ms + [m]);
    } else {
      OtherKeeps(s.nego, ms, m);
      Settled(s.nego, ms + [m]);
    }
  }

  lemma Settled(n: Negotiation, ms: seq<Message>)
    requires Live(n, ms)
    ensures !n.pending && Over(n, ms)
  {
  }

  // A command that is refused ends the connection.
  lemma RefusedKeeps(n: Negotiation, ms: seq<Message>, m: Message)
    requires Live(n, ms) && m.kind == 20
    ensures Over(n, ms + [m])
  {
    hide ReadFlv, MediaOf, Commands, First, Since;
    FirstOn(ms, m, "publish");
    if First(ms, "publish") < |ms| { SinceOn(ms, m); }
  }

  // What a turn with a chunk does to the session.
  lemma ChunkStep(s: Rtmp, p: bytes)
    requires s.phase.Chunks?
    ensures var o, c := SessionStep(s, p), TakeChunk(s.demux, p);
      && (c.Fatal? ==> o.Fatal? && o.last == c.last && o.end.nego == s.nego)
      && (c.Unit? && c.events == [] ==>
            var t := Acknowledge(s.(demux := c.next));
            && (o.Unit? ==> o.next == Authorise(t) && o.events == [])
            && (o.Fatal? ==> o.end == t && o.last == []))
      && (c.Unit? && c.events != [] ==>
            var h := OnMessage(Acknowledge(s.(demux := c.next)), c.events[0]);
            && (o.Unit? ==> h.Done? && o.next == Authorise(h.s) && o.events == c.events)
            && (o.Fatal? ==> o.end == h.s && o.last == c.events))
      && (c.More? ==> o.More?)
      && Acknowledge(s.(demux := if c.Unit? then c.next else s.demux)).nego == s.nego
      && (c.Unit? ==> Acknowledge(s.(demux := c.next)).demux == c.next)
  {
    hide TakeChunk, OnMessage, ControlMessage, AcceptReply;
  }

  lemma ChunkRecords(s: Rtmp, ms: seq<Message>, p: bytes)
    requires LiveAt(s, ms) && s.phase.Chunks?
    ensures TracedAt(SessionStep, LiveAt, OverAt, s, ms, p)
  {
    hide TakeChunk, OnMessage, Live, Over, Clocked, Authorise, SessionStep, Acknowledge;
    Settled(s.nego, ms);
    Nothing(ms);
    ChunkStep(s, p);
    ChunkClocked(s.demux, p);
    var c := TakeChunk(s.demux, p);
    if c.Unit? {
      var t := Acknowledge(s.(demux := c.next));
      NothingAuthorised(t);
      if c.events != [] {
        OneOnly(c.events);
        MessageKeeps(t, ms, c.events[0]);
        SameDemux(OnMessage(t, c.events[0]).s);
      }
    } else if c.Fatal? && c.last != [] {
      OneOnly(c.last);
      OtherKeeps(s.nego, ms, c.last[0]);
      Settled(s.nego, ms + c.last);
    }
  }

  lemma Nothing(ms: seq<Message>)
    ensures ms + [] == ms
  {
  }

  lemma OneOnly(ms: seq<Message>)
    requires 0 < |ms| <= 1
    ensures ms == [ms[0]] && ms[0] in ms
  {
  }

  lemma NothingAuthorised(t: Rtmp)
    ensures !t.nego.pending ==> Authorise(t) == t
  {
  }

  lemma SameDemux(t: Rtmp)
    ensures Authorise(t).demux == t.demux
  {
  }

  lemma HandshakeStep(s: Rtmp, p: bytes)
    requires !s.phase.Chunks? && !s.nego.pending
    ensures var o := SessionStep(s, p);
      && (o.Unit? ==> o.next.demux == s.demux && o.next.nego == s.nego && o.events == [])
      && (o.Fatal? ==> o.end == s && o.last == [])
  {
    hide ServerHello, TakeChunk, OnMessages, Acknowledge, Capped, AcceptReply, FLV_HEADER;
  }

  lemma HandshakeRecords(s: Rtmp, ms: seq<Message>, p: bytes)
    requires LiveAt(s, ms) && !s.phase.Chunks?
    ensures TracedAt(SessionStep, LiveAt, OverAt, s, ms, p)
  {
    hide SessionStep, Live, Over, Clocked;
    Settled(s.nego, ms);
    Nothing(ms);
    HandshakeStep(s, p);
  }

  lemma StepRecords(s: Rtmp, ms: seq<Message>, p: bytes)
    requires LiveAt(s, ms)
    ensures TracedAt(SessionStep, LiveAt, OverAt, s, ms, p)
  {
    hide SessionStep, LiveAt, OverAt, TracedAt;
    if s.phase.Chunks? { ChunkRecords(s, ms, p); } else { HandshakeRecords(s, ms, p); }
  }

  // On every connection, however its bytes arrive: at most one publish is accepted, and none before
  // connect. Nothing is recorded before it, and from then on an FLV reader finds in the recording exactly
  // the audio, video and metadata messages that came after it, in order, with their kinds, timestamps and
  // payloads.
  lemma OnePublish(pieces: seq<bytes>)
    ensures var r := FeedAll(SessionStep, Session(true, CONNECTED, [], []), pieces);
      && Over(r.state.nego, r.events)
      && (r.alive ==> PublishesOnce(r.events) && Holds(r.state.nego.flv, r.events))
  {
    hide SessionStep, Clocked;
    FreshClocked();
    assert LiveAt(CONNECTED, []);
    forall s: Rtmp, ms: seq<Message>, p: bytes | LiveAt(s, ms) ensures TracedAt(SessionStep, LiveAt, OverAt, s, ms, p) {
      StepRecords(s, ms, p);
    }
    FeedTraces(SessionStep, LiveAt, OverAt, Session(true, CONNECTED, [], []), pieces);
  }

  lemma FreshClocked()
    ensures Clocked(FRESH)
  {
    FreshAccounted();
  }

  // ---------------------------------------------------------------- from wire to file

  // While a session lives, it hands over what the chunk layer assembles.
  lemma {:induction false} SessionAssembles(s: Rtmp, p: bytes)
    requires s.phase.Chunks?
    ensures var r, c := Run(SessionStep, s, p), Run(TakeChunk, s.demux, p);
      r.alive ==> c.alive && r.events == c.events && r.held == c.held && r.state.demux == c.state
    decreases |p|
  {
    hide TakeChunk, OnMessage, Acknowledge, Run, Authorise;
    RunStops(SessionStep, s, p);
    RunStops(TakeChunk, s.demux, p);
    ChunkStableAt(s.demux, p, []);
    var o, c := SessionStep(s, p), TakeChunk(s.demux, p);
    if o.Unit? {
      UnitKeepsChunks(s, p);
      RunUnit(SessionStep, s, p);
      RunUnit(TakeChunk, s.demux, p);
      SessionAssembles(o.next, p[o.used..]);
    }
  }

  lemma UnitKeepsChunks(s: Rtmp, p: bytes)
    requires s.phase.Chunks? && SessionStep(s, p).Unit?
    ensures var o, c := SessionStep(s, p), TakeChunk(s.demux, p);
      && c.Unit? && c.used == o.used && c.events == o.events && o.next.demux == c.next && o.next.phase.Chunks?
  {
    hide TakeChunk, OnCommand, OnMedia, ControlMessage, AcceptReply;
  }

  // Version 3, 1536 bytes of the client's, answered by version 3, 1536 bytes of our own and the client's
  // bytes; then 1536 more bytes that are not looked at.
  lemma HandshakeDone(c1: bytes, c2: bytes, rest: bytes)
    requires |c1| == |c2| == 1536
    ensures var s := CONNECTED.(phase := Chunks, peer := [3] + ServerHello(c1)[1..1537] + c1);
      && |ServerHello(c1)| == 3073
      && Run(SessionStep, CONNECTED, [3] + c1 + c2 + rest) == Run(SessionStep, s, rest)
  {
    hide Run, ServerHello, TakeChunk;
    HelloIs(c1);
    var b, mid := [3] + c1 + c2 + rest, c2 + rest;
    var t := CONNECTED.(phase := WantC2, peer := ServerHello(c1));
    assert b[1..1537] == c1 && b[1537..] == mid && mid[1536..] == rest;
    assert [] + ServerHello(c1) == ServerHello(c1);
    RunUnit(SessionStep, CONNECTED, b);
    RunUnit(SessionStep, t, mid);
    var r := Run(SessionStep, t.(phase := Chunks), rest);
    assert After([], r) == r by { assert [] + r.events == r.events; }
  }

  lemma HelloIs(c1: bytes)
    ensures |ServerHello(c1)| == 1537 + |c1| && ServerHello(c1) == [3] + ServerHello(c1)[1..1537] + c1
  {
  }

  // From the first byte to the file: a publisher sends the handshake and then any chunks a sender may send, in
  // whatever pieces they arrive. While the connection lives, the messages handled are exactly those it
  // completed, and the recording reads as the media among them that came after the publish.
  lemma RecordedAsSent(c1: bytes, c2: bytes, acts: seq<Send>, pieces: seq<bytes>)
    requires |c1| == |c2| == 1536 && AllLegal(SILENT, acts)
    requires Join(pieces) == [3] + c1 + c2 + WireAll(SILENT, acts)
    ensures var r := FeedAll(SessionStep, Session(true, CONNECTED, [], []), pieces);
      r.alive ==>
        && r.held == [] && r.events == DoneAll(SILENT, acts)
        && PublishesOnce(DoneAll(SILENT, acts)) && Holds(r.state.nego.flv, DoneAll(SILENT, acts))
  {
    hide SessionStep, TakeChunk, Run, Receiver, AllLegal, WireAll, DoneAll, Final, Holds, PublishesOnce, ServerHello;
    hide Ready, Follows, InStep;
    var wire := WireAll(SILENT, acts);
    var start: RtmpView := Session(true, CONNECTED, [], []);
    EveryConnection(pieces);
    OnePublish(pieces);
    assert start.held + Join(pieces) == Join(pieces);
    var whole := Run(SessionStep, CONNECTED, Join(pieces));
    assert start.events + whole.events == whole.events;
    HandshakeDone(c1, c2, wire);
    var s := CONNECTED.(phase := Chunks, peer := [3] + ServerHello(c1)[1..1537] + c1);
    SessionAssembles(s, wire);
    SilentReady();
    SentIsReceived(SILENT, acts, 0);
  }
}
