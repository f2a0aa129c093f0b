/**
  A viewer fed from the ring as RTP inside RTSP over one TCP connection (videortspview.cpp). Replies,
  sender reports and RTP frames share an output queue of which the socket takes as much as it likes.

  `Play` is the theorem: whatever is published, requested and accepted, in any order, the connection
  carries whole items in order, RTP frames are whole transport packets with consecutive numbers, and
  between two anchorings their payloads are one stretch of the stream.
 */
module RtspViewer {
  import opened Bytes
  import opened Numbers
  import opened VideoRing
  import opened VideoViewer

  const TS_PACKET := 188
  const RTP_PAYLOAD := 7 * TS_PACKET
  const REQUEST_LIMIT := 16384
  const CONTROL_TIMEOUT_S := 65
  const REPORT_S := 5
  const DOLLAR: byte := 36

  // Requests that change something, and all the others, which are only answered.
  datatype Request = Setup(channel: byte) | PlayFrom(join: Anchor) | Pause | Teardown | Other

  // A request, the two replies it may get, and how much had been published when it came.
  datatype Ask = Ask(request: Request, yes: bytes, no: bytes, end: nat)

  // What is put on the output queue. A reply also says where the request it answers set the reader.
  datatype Item =
    | Reply(ask: Ask, text: bytes, anchor: Anchor)
    | Report(channel: byte, body: bytes)
    | Rtp(channel: byte, number: nat, time: nat, source: nat, payload: bytes)

  function Encode(i: Item): bytes
  {
    match i
    case Reply(_, text, _) => text
    case Report(channel, body) => [DOLLAR, (channel + 1) % 256] + PutBE16(|body|) + body
    case Rtp(channel, number, time, source, payload) =>
      [DOLLAR, channel] + PutBE16(|payload| + 12) + [0x80, 33] + PutBE16(number) + PutBE32(time) + PutBE32(source)
      + payload
  }

  // An RTP frame announces its own length and number, so a client can skip or read it whole.
  lemma FrameReads(channel: byte, number: nat, time: nat, source: nat, payload: bytes)
    requires number < 0x1_0000 && |payload| <= RTP_PAYLOAD
    ensures var f := Encode(Rtp(channel, number, time, source, payload));
      && |f| == 4 + BE16(f[2], f[3]) && f[0] == DOLLAR && f[1] == channel
      && BE16(f[6], f[7]) == number && f[16..] == payload
  {
    var n := PutBE16(|payload| + 12);
    var q := PutBE16(number);
    var f := Encode(Rtp(channel, number, time, source, payload));
    assert f[2] == n[0] && f[3] == n[1] && f[6] == q[0] && f[7] == q[1];
  }

  function Flat(items: seq<Item>): bytes
  {
    if items == [] then [] else Flat(items[..|items| - 1]) + Encode(items[|items| - 1])
  }

  function Frames(items: seq<Item>): nat
  {
    if items == [] then 0 else Frames(items[..|items| - 1]) + if items[|items| - 1].Rtp? then 1 else 0
  }

  function Moved(pos: nat, i: Item): nat
  {
    match i
    case Reply(_, _, At(to)) => to
    case Reply(_, _, NoAnchor) => pos
    case Report(_, _) => pos
    case Rtp(_, _, _, _, payload) => pos + |payload|
  }

  // Where the reader is after these items.
  function Pos(items: seq<Item>): nat
  {
    if items == [] then 0 else Moved(Pos(items[..|items| - 1]), items[|items| - 1])
  }

  function Media(items: seq<Item>): bytes
  {
    if items == [] then []
    else Media(items[..|items| - 1]) + if items[|items| - 1].Rtp? then items[|items| - 1].payload else []
  }

  // The requests answered, in order, and the bodies of the sender reports.
  function Answered(items: seq<Item>): seq<Ask>
  {
    if items == [] then []
    else Answered(items[..|items| - 1]) + if items[|items| - 1].Reply? then [items[|items| - 1].ask] else []
  }

  function Bodies(items: seq<Item>): set<bytes>
  {
    if items == [] then {}
    else Bodies(items[..|items| - 1]) + if items[|items| - 1].Report? then {items[|items| - 1].body} else {}
  }

  // ---------------------------------------------------------------- play control

  datatype Control = Control(playing: bool, played: bool)

  // A PLAY needs a new anchor if it is the first to succeed, or if the reader's position is overwritten.
  predicate Reanchors(c: Control, a: Ask, cap: nat, pos: nat)
  {
    a.request.PlayFrom? && !c.playing && (!c.played || !Resident(a.end, cap, pos))
  }

  // Where a request sets the reader: only such a PLAY does, and then to the scanner's anchor.
  function Setting(c: Control, a: Ask, cap: nat, pos: nat): Anchor
  {
    if Reanchors(c, a, cap, pos) then a.request.join else NoAnchor
  }

  // It is refused if there is no anchor, or none that is still in the ring.
  predicate Refuses(c: Control, a: Ask, cap: nat, pos: nat)
  {
    Reanchors(c, a, cap, pos) && !(a.request.join.At? && Resident(a.end, cap, a.request.join.pos))
  }

  function Controlled(c: Control, a: Ask, cap: nat, pos: nat): Control
  {
    match a.request
    case PlayFrom(_) => if Refuses(c, a, cap, pos) then c else Control(true, true)
    case Pause => c.(playing := false)
    case Teardown => c.(playing := false)
    case Setup(_) => c
    case Other => c
  }

  // Is the viewer playing after these items, and has it ever?
  function ControlAfter(items: seq<Item>, cap: nat): Control
  {
    if items == [] then Control(false, false)
    else
      var before, i := items[..|items| - 1], items[|items| - 1];
      if i.Reply? then Controlled(ControlAfter(before, cap), i.ask, cap, Pos(before)) else ControlAfter(before, cap)
  }

  // ---------------------------------------------------------------- what may follow what

  // As many bytes as whole packets take of n.
  function Packed(n: nat): (r: nat)
    ensures r <= n < r + TS_PACKET && r % TS_PACKET == 0
    ensures 0 < r <= RTP_PAYLOAD ==> WholePackets(r)
  {
    n / TS_PACKET * TS_PACKET
  }

  predicate WholePackets(n: nat) { 0 < n <= RTP_PAYLOAD && n % TS_PACKET == 0 }

  // Requests are answered as the control state demands, and set the reader only as it demands. Frames
  // are sent while playing: next number, whole packets, the next bytes of the stream.
  ghost predicate Fits(before: seq<Item>, i: Item, first: nat, cap: nat, stream: bytes)
  {
    var c, pos := ControlAfter(before, cap), Pos(before);
    match i
    case Reply(ask, text, anchor) =>
      && anchor == Setting(c, ask, cap, pos)
      && text == (if Refuses(c, ask, cap, pos) then ask.no else ask.yes)
    case Report(_, _) => c.playing
    case Rtp(_, number, _, _, payload) =>
      && c.playing
      && number == (first + Frames(before)) % 0x1_0000
      && WholePackets(|payload|)
      && pos + |payload| <= |stream| && payload == stream[pos..pos + |payload|]
  }

  ghost predicate Sound(items: seq<Item>, first: nat, cap: nat, stream: bytes)
  {
    forall k | 0 <= k < |items| :: Fits(items[..k], items[k], first, cap, stream)
  }

  lemma Appended(items: seq<Item>, i: Item, cap: nat)
    ensures Flat(items + [i]) == Flat(items) + Encode(i)
    ensures Frames(items + [i]) == Frames(items) + if i.Rtp? then 1 else 0
    ensures Pos(items + [i]) == Moved(Pos(items), i)
    ensures Answered(items + [i]) == Answered(items) + if i.Reply? then [i.ask] else []
    ensures Bodies(items + [i]) == Bodies(items) + if i.Report? then {i.body} else {}
    ensures ControlAfter(items + [i], cap) ==
      if i.Reply? then Controlled(ControlAfter(items, cap), i.ask, cap, Pos(items)) else ControlAfter(items, cap)
  {
    hide Encode, Moved, Controlled;
    var all := items + [i];
    assert all[..|all| - 1] == items && all[|all| - 1] == i;
  }

  lemma SoundAppend(items: seq<Item>, i: Item, first: nat, cap: nat, stream: bytes)
    requires Sound(items, first, cap, stream) && Fits(items, i, first, cap, stream)
    ensures Sound(items + [i], first, cap, stream)
  {
    hide Fits;
    var all := items + [i];
    forall k | 0 <= k < |all| ensures Fits(all[..k], all[k], first, cap, stream) {
      if k < |items| { assert all[..k] == items[..k]; } else { assert all[..k] == items; }
    }
  }

  lemma SoundPrefix(items: seq<Item>, n: nat, first: nat, cap: nat, stream: bytes)
    requires Sound(items, first, cap, stream) && n <= |items|
    ensures Sound(items[..n], first, cap, stream)
  {
    hide Fits;
    forall k | 0 <= k < n ensures Fits(items[..n][..k], items[..n][k], first, cap, stream) {
      assert items[..n][..k] == items[..k];
    }
  }

  lemma SoundGrows(items: seq<Item>, first: nat, cap: nat, stream: bytes, more: bytes)
    requires Sound(items, first, cap, stream)
    ensures Sound(items, first, cap, stream + more)
  {
    forall k | 0 <= k < |items| ensures Fits(items[..k], items[k], first, cap, stream + more) {
      assert Fits(items[..k], items[k], first, cap, stream);
    }
  }

  // ---------------------------------------------------------------- no gaps

  predicate Undisturbed(items: seq<Item>)
  {
    forall i | 0 <= i < |items| && items[i].Reply? :: items[i].anchor == NoAnchor
  }

  // While no request sets the reader anew, the payloads are one stretch of the stream.
  lemma {:induction false} NoGap(items: seq<Item>, from: nat, first: nat, cap: nat, stream: bytes)
    requires Sound(items, first, cap, stream) && from <= |items| && Undisturbed(items[from..])
    requires Pos(items[..from]) <= |stream|
    ensures Pos(items[..from]) <= Pos(items) <= |stream|
    ensures Media(items[from..]) == stream[Pos(items[..from])..Pos(items)]
    decreases |items|
  {
    hide Sound, Undisturbed, Pos, Media;
    if from == |items| {
      assert items[..from] == items && items[from..] == [];
      NoItems();
    } else {
      var n := |items| - 1;
      var rest, last := items[..n], items[n];
      assert rest[..from] == items[..from] && items == rest + [last] && items[from..] == rest[from..] + [last];
      SoundPrefix(items, n, first, cap, stream);
      StillUndisturbed(rest[from..], last);
      NoGap(rest, from, first, cap, stream);
      AtEnd(items, first, cap, stream);
      OneMore(rest, last);
      OneMore(rest[from..], last);
      if last.Rtp? {
        NextBytes(rest, last, first, cap, stream);
        Extends(stream, Pos(items[..from]), Pos(rest), Pos(items));
      }
    }
  }

  lemma NoItems()
    ensures Media([]) == [] && Pos([]) == 0
  {
  }

  lemma StillUndisturbed(items: seq<Item>, i: Item)
    requires Undisturbed(items + [i])
    ensures Undisturbed(items) && (i.Reply? ==> i.anchor == NoAnchor)
  {
    var all := items + [i];
    assert all[|items|] == i;
    assert forall k | 0 <= k < |items| :: items[k] == all[k];
  }

  lemma OneMore(items: seq<Item>, i: Item)
    ensures Pos(items + [i]) == Moved(Pos(items), i)
    ensures Media(items + [i]) == if i.Rtp? then Media(items) + i.payload else Media(items)
  {
    hide Moved;
    var all := items + [i];
    assert all[..|all| - 1] == items;
    assert Media(items) + [] == Media(items);
  }

  lemma NextBytes(before: seq<Item>, f: Item, first: nat, cap: nat, stream: bytes)
    requires f.Rtp? && Fits(before, f, first, cap, stream)
    ensures Pos(before) + |f.payload| <= |stream| && f.payload == stream[Pos(before)..Pos(before) + |f.payload|]
  {
    hide ControlAfter, Frames, WholePackets;
  }

  lemma Extends(s: bytes, a: nat, b: nat, c: nat)
    requires a <= b <= c <= |s|
    ensures s[a..b] + s[b..c] == s[a..c]
  {
  }

  // The stretch of items from one point to another carries one stretch of the stream.
  ghost predicate OneStretch(items: seq<Item>, from: nat, to: nat, stream: bytes)
    requires from <= to <= |items|
  {
    && Pos(items[..from]) <= Pos(items[..to]) <= |stream|
    && Media(items[from..to]) == stream[Pos(items[..from])..Pos(items[..to])]
  }

  ghost predicate Gapless(items: seq<Item>, stream: bytes)
  {
    forall from, to | 0 <= from <= to <= |items| && Undisturbed(items[from..to]) :: OneStretch(items, from, to, stream)
  }

  // A request sets the reader within what was published by then.
  ghost predicate Within(items: seq<Item>, stream: bytes)
  {
    forall k | 0 <= k < |items| && items[k].Reply? && items[k].anchor.At? :: items[k].anchor.pos <= |stream|
  }

  lemma {:induction false} PosWithin(items: seq<Item>, first: nat, cap: nat, stream: bytes)
    requires Sound(items, first, cap, stream) && Within(items, stream)
    ensures Pos(items) <= |stream|
    decreases |items|
  {
    hide Fits;
    if items != [] {
      var n := |items| - 1;
      SoundPrefix(items, n, first, cap, stream);
      PosWithin(items[..n], first, cap, stream);
      assert Fits(items[..n], items[n], first, cap, stream);
      if items[n].Rtp? { NextBytes(items[..n], items[n], first, cap, stream); }
    }
  }

  // Between two settings of the reader, and before the first, the media is one stretch.
  lemma SoundIsGapless(items: seq<Item>, first: nat, cap: nat, stream: bytes)
    requires Sound(items, first, cap, stream) && Within(items, stream)
    ensures Gapless(items, stream)
  {
    hide Sound, Undisturbed, Pos, Media;
    forall from, to | 0 <= from <= to <= |items| && Undisturbed(items[from..to])
      ensures OneStretch(items, from, to, stream)
    {
      var part := items[..to];
      assert part[from..] == items[from..to] && part[..from] == items[..from];
      SoundPrefix(items, to, first, cap, stream);
      SoundPrefix(items, from, first, cap, stream);
      PosWithin(items[..from], first, cap, stream);
      NoGap(part, from, first, cap, stream);
    }
  }

  // A viewer plays only after a PLAY that was granted.
  lemma {:induction false} PlayingWasGranted(items: seq<Item>, first: nat, cap: nat, stream: bytes)
    requires Sound(items, first, cap, stream) && ControlAfter(items, cap).played
    ensures exists k :: 0 <= k < |items| && Grants(items[k])
    decreases |items|
  {
    hide Fits, Sound;
    if items != [] {
      var n := |items| - 1;
      SoundPrefix(items, n, first, cap, stream);
      if ControlAfter(items[..n], cap).played {
        PlayingWasGranted(items[..n], first, cap, stream);
        var k :| 0 <= k < n && Grants(items[..n][k]);
        assert Grants(items[k]);
      } else {
        assert Fits(items[..n], items[n], first, cap, stream) by { AtEnd(items, first, cap, stream); }
        GrantedHere(items[..n], items[n], first, cap, stream);
        assert Grants(items[n]);
      }
    }
  }

  predicate Grants(i: Item) { i.Reply? && i.ask.request.PlayFrom? && i.text == i.ask.yes }

  lemma AtEnd(items: seq<Item>, first: nat, cap: nat, stream: bytes)
    requires items != [] && Sound(items, first, cap, stream)
    ensures Fits(items[..|items| - 1], items[|items| - 1], first, cap, stream)
  {
  }

  lemma GrantedHere(before: seq<Item>, i: Item, first: nat, cap: nat, stream: bytes)
    requires Fits(before, i, first, cap, stream) && i.Reply?
    requires !ControlAfter(before, cap).played && Controlled(ControlAfter(before, cap), i.ask, cap, Pos(before)).played
    ensures Grants(i)
  {
  }

  lemma {:induction false} PlayingIsPlayed(items: seq<Item>, cap: nat)
    ensures ControlAfter(items, cap).playing ==> ControlAfter(items, cap).played
  {
    if items != [] { PlayingIsPlayed(items[..|items| - 1], cap); }
  }

  // No frame goes out before a PLAY was granted.
  lemma FramesFollowPlay(items: seq<Item>, first: nat, cap: nat, stream: bytes, j: nat)
    requires Sound(items, first, cap, stream) && j < |items| && items[j].Rtp?
    ensures exists k :: 0 <= k < j && Grants(items[k])
  {
    hide Fits, Grants;
    SoundPrefix(items, j, first, cap, stream);
    assert Fits(items[..j], items[j], first, cap, stream);
    assert ControlAfter(items[..j], cap).playing by { FramePlays(items[..j], items[j], first, cap, stream); }
    PlayingIsPlayed(items[..j], cap);
    PlayingWasGranted(items[..j], first, cap, stream);
    var k :| 0 <= k < j && Grants(items[..j][k]);
    assert Grants(items[k]);
  }

  ghost predicate FramesGranted(items: seq<Item>)
  {
    forall j | 0 <= j < |items| && items[j].Rtp? :: exists k :: 0 <= k < j && Grants(items[k])
  }

  lemma SoundIsGranted(items: seq<Item>, first: nat, cap: nat, stream: bytes)
    requires Sound(items, first, cap, stream)
    ensures FramesGranted(items)
  {
    hide Sound, Grants;
    forall j | 0 <= j < |items| && items[j].Rtp? ensures exists k :: 0 <= k < j && Grants(items[k]) {
      FramesFollowPlay(items, first, cap, stream, j);
    }
  }

  lemma FramePlays(before: seq<Item>, f: Item, first: nat, cap: nat, stream: bytes)
    requires f.Rtp? && Fits(before, f, first, cap, stream)
    ensures ControlAfter(before, cap).playing
  {
  }

  // ---------------------------------------------------------------- the queue

  datatype Queue = Queue(items: seq<Item>, first: nat, cap: nat, number: nat, readPos: nat, control: Control,
                         out: bytes, sent: nat)

  // What the connection carried and what is still queued are the items, whole and in order.
  ghost predicate InOrder(q: Queue, stream: bytes, wire: bytes)
  {
    && q.sent <= |q.out| && wire + q.out[q.sent..] == Flat(q.items)
    && Sound(q.items, q.first, q.cap, stream) && Within(q.items, stream)
    && q.number == (q.first + Frames(q.items)) % 0x1_0000
    && q.readPos == Pos(q.items) <= |stream|
    && q.control == ControlAfter(q.items, q.cap)
  }

  function Queued(q: Queue, i: Item): Queue
  {
    Queue(q.items + [i], q.first, q.cap, if i.Rtp? then (q.number + 1) % 0x1_0000 else q.number,
          Moved(q.readPos, i),
          if i.Reply? then Controlled(q.control, i.ask, q.cap, q.readPos) else q.control,
          q.out + Encode(i), q.sent)
  }

  // What may be queued next, in terms of the fields a viewer keeps.
  ghost predicate MayQueue(q: Queue, i: Item, stream: bytes)
  {
    match i
    case Reply(ask, text, anchor) =>
      && anchor == Setting(q.control, ask, q.cap, q.readPos)
      && text == (if Refuses(q.control, ask, q.cap, q.readPos) then ask.no else ask.yes)
      && (anchor.At? ==> anchor.pos <= |stream|)
    case Report(_, _) => q.control.playing
    case Rtp(_, number, _, _, payload) =>
      && q.control.playing && number == q.number && WholePackets(|payload|)
      && q.readPos + |payload| <= |stream| && payload == stream[q.readPos..q.readPos + |payload|]
  }

  lemma NextNumber(a: nat)
    ensures (a % 0x1_0000 + 1) % 0x1_0000 == (a + 1) % 0x1_0000
  {
  }

  lemma QueueFits(q: Queue, i: Item, stream: bytes, wire: bytes)
    requires InOrder(q, stream, wire) && MayQueue(q, i, stream)
    ensures Fits(q.items, i, q.first, q.cap, stream)
  {
    hide Sound, Flat, Frames, Pos, ControlAfter, WholePackets, Setting, Refuses;
  }

  lemma QueueItem(q: Queue, i: Item, stream: bytes, wire: bytes)
    requires InOrder(q, stream, wire) && MayQueue(q, i, stream)
    ensures InOrder(Queued(q, i), stream, wire)
    ensures Answered(Queued(q, i).items) == Answered(q.items) + if i.Reply? then [i.ask] else []
    ensures Bodies(Queued(q, i).items) == Bodies(q.items) + if i.Report? then {i.body} else {}
  {
    hide Sound, Flat, Frames, Pos, Encode, WholePackets, Answered, Bodies;
    hide ControlAfter, Controlled, Setting, Refuses, Fits;
    QueueFits(q, i, stream, wire);
    Appended(q.items, i, q.cap);
    SoundAppend(q.items, i, q.first, q.cap, stream);
    NextNumber(q.first + Frames(q.items));
    assert (q.out + Encode(i))[q.sent..] == q.out[q.sent..] + Encode(i);
    assert wire + (q.out[q.sent..] + Encode(i)) == wire + q.out[q.sent..] + Encode(i);
  }

  lemma QueueSent(q: Queue, stream: bytes, wire: bytes, k: nat)
    requires InOrder(q, stream, wire) && q.sent + k <= |q.out|
    ensures InOrder(q.(sent := q.sent + k), stream, wire + q.out[q.sent..][..k])
  {
    hide Sound, Flat, Frames, Pos, ControlAfter, Within;
    var rest := q.out[q.sent..];
    assert rest == rest[..k] + rest[k..] && q.out[q.sent + k..] == rest[k..];
    assert wire + rest[..k] + rest[k..] == wire + rest;
  }

  lemma QueueEmptied(q: Queue, stream: bytes, wire: bytes)
    requires InOrder(q, stream, wire) && q.sent == |q.out|
    ensures InOrder(q.(out := [], sent := 0), stream, wire)
  {
    hide Sound, Flat, Frames, Pos, ControlAfter, Within;
  }

  lemma QueueGrows(q: Queue, stream: bytes, wire: bytes, more: bytes)
    requires InOrder(q, stream, wire)
    ensures InOrder(q, stream + more, wire)
  {
    hide Sound, Flat, Frames, Pos, ControlAfter;
    SoundGrows(q.items, q.first, q.cap, stream, more);
  }

  lemma QueueFacts(q: Queue, stream: bytes, wire: bytes)
    requires InOrder(q, stream, wire)
    ensures q.sent <= |q.out| && q.readPos <= |stream| && wire <= Flat(q.items)
    ensures Sound(q.items, q.first, q.cap, stream) && Within(q.items, stream)
    ensures q.out == [] ==> wire == Flat(q.items)
    ensures q.number < 0x1_0000
  {
    hide Sound, Flat, Frames, Pos, ControlAfter, Within;
  }

  // ---------------------------------------------------------------- as programmed

  class Viewer {
    const link: Link
    const source: nat
    var out: bytes
    var sent: nat
    var number: nat
    var readPos: nat
    var channel: byte
    var playing: bool
    var played: bool
    var closing: bool
    var blocked: bool
    var progress: int
    var control: int
    var report: int
    ghost var items: seq<Item>
    ghost const first: nat
    ghost const cap: nat

    ghost function Q(): Queue
      reads this
    {
      Queue(items, first, cap, number, readPos, Control(playing, played), out, sent)
    }

    ghost predicate Valid(stream: bytes)
      reads this, link
    {
      InOrder(Q(), stream, link.wire)
    }

    constructor (start: nat, id: nat, plan: seq<Answer>, open: bool, now: int, ghost capacity: nat)
      requires start < 0x1_0000
      ensures Valid([]) && fresh(link) && items == [] && first == start && cap == capacity
      ensures link.wire == [] && link.answers == plan && link.open == open
    {
      link := new Link(plan, open);
      source, out, sent, number, readPos, channel := id, [], 0, start, 0, 0;
      playing, played, closing, blocked := false, false, false, false;
      progress, control, report := now, now, 0;
      items, first, cap := [], start, capacity;
    }

    // The PLAY of a viewer that is not playing needs a position that is still in the ring: its own if
    // it has played before, else the scanner's anchor.
    method StartPlaying(join: Anchor, ring: Ring, now: int) returns (granted: bool)
      modifies `readPos, `playing, `played, `progress
      ensures var c, here := Control(old(playing), old(played)), Resident(ring.writePos, ring.buf.Length, old(readPos));
        var anew := !c.playing && (!c.played || !here);
        && readPos == (if anew && join.At? then join.pos else old(readPos))
        && granted == (!anew || (join.At? && Resident(ring.writePos, ring.buf.Length, join.pos)))
        && Control(playing, played) == (if granted then Control(true, true) else c)
    {
      hide Resident;
      granted := true;
      var here := ring.IsResident(readPos);
      if !playing && (!played || !here) {
        granted := false;
        if join.At? {
          readPos := join.pos;
          granted := ring.IsResident(readPos);
        }
      }
      if granted { playing, played, progress := true, true, now; }
    }

    // Every request is answered exactly once, behind whatever is queued. The reader is set exactly as
    // the control state demands: a short pause does not rewind.
    method Handle(r: Request, ring: Ring, yes: bytes, no: bytes, now: int) returns (ok: bool)
      requires ring.Valid() && Valid(ring.stream) && ring.buf.Length == cap
      requires r.PlayFrom? && r.join.At? ==> r.join.pos <= ring.writePos
      modifies this
      ensures Valid(ring.stream)
      ensures var ask, q := Ask(r, yes, no, ring.writePos), old(Q());
        var anchor := Setting(q.control, ask, cap, q.readPos);
        && anchor == (if r.PlayFrom? && !old(playing) && (!old(played) || !Resident(ring.writePos, cap, old(readPos)))
                   then r.join else NoAnchor)
        && Q() == Queued(q, Reply(ask, if Refuses(q.control, ask, cap, q.readPos) then no else yes, anchor))
      ensures Answered(items) == Answered(old(items)) + [Ask(r, yes, no, ring.writePos)]
      ensures Bodies(items) == Bodies(old(items))
      ensures control == now && closing == (old(closing) || r.Teardown?)
      ensures channel == if r.Setup? then r.channel else old(channel)
      ensures ok <==> |out| <= REQUEST_LIMIT
    {
      hide InOrder, Mirrors, Answered, Bodies, Resident;
      ghost var ask, q := Ask(r, yes, no, ring.writePos), Q();
      ghost var anchor := Setting(q.control, ask, cap, q.readPos);
      var answer := yes;
      control := now;
      match r {
        case Setup(c) => channel := c;
        case PlayFrom(join) =>
          var granted := StartPlaying(join, ring, now);
          if !granted { answer := no; }
        case Pause => playing := false;
        case Teardown => playing, closing := false, true;
        case Other =>
      }
      QueueItem(q, Reply(ask, answer, anchor), ring.stream, link.wire);
      out := out + answer;
      items := items + [Reply(ask, answer, anchor)];
      ok := |out| <= REQUEST_LIMIT;
    }

    // The socket broke, took nothing though it was ready, or stopped taking with no byte taken for more than ten
    // seconds.
    ghost predicate Stuck(blocks: nat, shorts: nat, fails: nat, now: int, progress: int)
      reads link
    {
      link.fails > fails || link.shorts > shorts || (link.blocks > blocks && now - progress > STUCK_S)
    }

    // Everything queued goes out, unless the socket stops taking.
    method Flush(now: int, ghost stream: bytes) returns (ok: bool)
      requires Valid(stream)
      modifies link, `sent, `out, `blocked, `progress
      ensures Valid(stream) && Q() == old(Q()).(out := out, sent := sent)
      ensures ok ==> (out == [] && sent == 0) || link.blocks > old(link.blocks)
      ensures !ok ==> Stuck(old(link.blocks), old(link.shorts), old(link.fails), now, old(progress))
      ensures old(link.Free()) ==> ok && link.Free() && link.Troubles() == old(link.Troubles())
      ensures progress in {old(progress), now}
      ensures link.blocks >= old(link.blocks) && link.shorts >= old(link.shorts) && link.fails >= old(link.fails)
    {
      hide InOrder;
      QueueFacts(Q(), stream, link.wire);
      while sent < |out|
        invariant Valid(stream) && Q() == old(Q()).(sent := sent) && sent <= |out|
        invariant link.blocks == old(link.blocks) && link.fails == old(link.fails) && link.shorts >= old(link.shorts)
        invariant old(link.Free()) ==> link.Free() && link.Troubles() == old(link.Troubles())
        invariant progress in {old(progress), now}
        decreases |out| - sent, |link.answers|
      {
        ghost var q, w := Q(), link.wire;
        var data := out[sent..];
        var r := link.Send(data);
        assert data[..0] == [] && w + [] == w;
        match r
        case Wrote(k) =>
          if k == 0 { return false; }
          QueueSent(q, stream, w, k);
          sent := sent + k;
          progress := now;
        case WouldBlock =>
          blocked := true;
          return now - progress <= STUCK_S;
        case TryAgain =>
        case Failed => return false;
      }
      QueueEmptied(Q(), stream, link.wire);
      out, sent, blocked := [], 0, false;
      return true;
    }

    method QueueReport(body: bytes, now: int, ghost stream: bytes)
      requires Valid(stream) && playing
      modifies `out, `items, `report
      ensures Valid(stream) && Q() == Queued(old(Q()), Report(channel, body))
      ensures Answered(items) == Answered(old(items)) && Bodies(items) == Bodies(old(items)) + {body}
    {
      hide InOrder, Answered, Bodies;
      QueueItem(Q(), Report(channel, body), stream, link.wire);
      out := out + ([DOLLAR, (channel + 1) % 256] + PutBE16(|body|) + body);
      items := items + [Report(channel, body)];
      report := now;
    }

    method QueueFrame(payload: bytes, time: nat, ghost stream: bytes)
      requires Valid(stream) && playing && WholePackets(|payload|) && readPos + |payload| <= |stream|
      requires payload == stream[readPos..readPos + |payload|]
      modifies `out, `items, `number, `readPos
      ensures Valid(stream) && Q() == Queued(old(Q()), Rtp(channel, old(number), time, source, payload))
      ensures Answered(items) == Answered(old(items)) && Bodies(items) == Bodies(old(items))
    {
      hide InOrder, Answered, Bodies;
      var f := Rtp(channel, number, time, source, payload);
      QueueItem(Q(), f, stream, link.wire);
      out := out + Encode(f);
      items := items + [f];
      number := (number + 1) % 0x1_0000;
      readPos := readPos + |payload|;
    }

    // The media has got on: no whole packet is left, or less than a packet of a full budget; or the socket stopped.
    ghost predicate Advanced(end: nat, from: nat, blocks: nat)
      reads this, link
    {
      || (out != [] && link.blocks > blocks)
      || (out == [] && (readPos + TS_PACKET > end || readPos + TS_PACKET > from + WRITE_CHUNK))
    }

    // Frames and at most one report are added; no request is answered and the reader is set by none.
    method SendFrames(ring: Ring, now: int, clock: nat -> nat, body: bytes) returns (ok: bool)
      requires ring.Valid() && Valid(ring.stream) && playing && out == []
      requires Resident(ring.writePos, ring.buf.Length, readPos)
      modifies this, link
      ensures Valid(ring.stream) && Added(old(items), items) && playing && played == old(played)
      ensures Answered(items) == Answered(old(items)) && Bodies(items) <= Bodies(old(items)) + {body}
      ensures ok ==> Advanced(ring.writePos, old(readPos), old(link.blocks))
      ensures !ok ==> Stuck(old(link.blocks), old(link.shorts), old(link.fails), now, old(progress))
      ensures old(link.Free()) ==> ok && link.Free() && link.Troubles() == old(link.Troubles())
      ensures link.blocks >= old(link.blocks) && link.shorts >= old(link.shorts) && link.fails >= old(link.fails)
    {
      hide InOrder, Mirrors, ReadStream, Encode, Answered, Bodies;
      var budget := WRITE_CHUNK;
      while budget >= TS_PACKET
        invariant Valid(ring.stream) && Added(old(items), items) && playing && played == old(played)
        invariant Answered(items) == Answered(old(items)) && Bodies(items) <= Bodies(old(items)) + {body}
        invariant 0 <= budget && readPos + budget == old(readPos) + WRITE_CHUNK && out == []
        invariant Resident(ring.writePos, ring.buf.Length, readPos)
        invariant link.blocks >= old(link.blocks) && link.shorts >= old(link.shorts) && link.fails >= old(link.fails)
        invariant old(link.Free()) ==> link.Free() && link.Troubles() == old(link.Troubles())
        invariant progress in {old(progress), now}
        decreases budget
      {
        var got := QueueNext(ring, now, clock, body, Min(budget, RTP_PAYLOAD));
        if got == 0 {
          NoPacketLeft(ring.stream, ring.buf.Length, readPos, Min(budget, RTP_PAYLOAD));
          break;
        }
        budget := budget - got;
        ok := Flush(now, ring.stream);
        if !ok { return false; }
        if out != [] { break; }
      }
      return true;
    }

    // One frame of as many whole packets as there are, behind a report if one is due.
    method QueueNext(ring: Ring, now: int, clock: nat -> nat, body: bytes, room: nat) returns (got: nat)
      requires ring.Valid() && Valid(ring.stream) && playing && room <= RTP_PAYLOAD
      modifies `out, `items, `number, `readPos, `report
      ensures Valid(ring.stream) && Added(old(items), items) && got <= room
      ensures readPos == old(readPos) + got && (got > 0 ==> readPos <= |ring.stream|)
      ensures got == 0 ==> out == old(out)
      ensures Answered(items) == Answered(old(items)) && Bodies(items) <= Bodies(old(items)) + {body}
      ensures var read := ReadStream(ring.stream, ring.buf.Length, old(readPos), Packed(room));
        var due := if old(report) == 0 || now - old(report) >= REPORT_S then [Report(channel, body)] else [];
        && got == Packed(|read|)
        && items == if got == 0 then old(items)
                    else old(items) + due + [Rtp(channel, old(number), clock(old(number)), source, read[..got])]
    {
      hide InOrder, Mirrors, ReadStream, Encode, Answered, Bodies, Packed;
      QueueFacts(Q(), ring.stream, link.wire);
      var read := ring.ReadAt(readPos, Packed(room));
      got := Packed(|read|);
      if got == 0 { return; }
      if report == 0 || now - report >= REPORT_S { QueueReport(body, now, ring.stream); }
      QueueFrame(read[..got], clock(number), ring.stream);
    }

    // One writable event. While the viewer lives, what was queued goes out first, and then frames until no whole
    // packet is left or a full budget has gone out, unless the socket stops taking. A lapped viewer is
    // dropped even while a frame is stuck half sent.
    method OnWritable(ring: Ring, now: int, clock: nat -> nat, body: bytes) returns (ok: bool)
      requires ring.Valid() && Valid(ring.stream)
      modifies this, link
      ensures Valid(ring.stream) && Added(old(items), items) && playing == old(playing) && played == old(played)
      ensures Answered(items) == Answered(old(items)) && Bodies(items) <= Bodies(old(items)) + {body}
      ensures ok && old(playing) ==> Resident(ring.writePos, ring.buf.Length, old(readPos))
      ensures ok ==> (out != [] && link.blocks > old(link.blocks)) || (out == [] && !playing)
                     || Advanced(ring.writePos, old(readPos), old(link.blocks))
      ensures !ok ==>
        || Stuck(old(link.blocks), old(link.shorts), old(link.fails), now, old(progress))
        || closing || now - control > CONTROL_TIMEOUT_S
        || (playing && !Resident(ring.writePos, ring.buf.Length, old(readPos)))
      ensures old(link.Free()) ==> link.Free() && link.Troubles() == old(link.Troubles())
      ensures link.blocks >= old(link.blocks) && link.shorts >= old(link.shorts) && link.fails >= old(link.fails)
    {
      hide InOrder, Mirrors, Answered, Bodies, Resident;
      var here := ring.IsResident(readPos);
      if playing && !here { return false; }
      ok := Flush(now, ring.stream);
      if !ok { return false; }
      if out != [] { return true; }
      if closing || now - control > CONTROL_TIMEOUT_S { return false; }
      if !playing { return true; }
      ok := SendFrames(ring, now, clock, body);
    }
  }

  lemma NoPacketLeft(stream: bytes, cap: nat, pos: nat, room: nat)
    requires Resident(|stream|, cap, pos) && TS_PACKET <= room <= RTP_PAYLOAD
    requires Packed(|ReadStream(stream, cap, pos, Packed(room))|) == 0
    ensures pos + TS_PACKET > |stream|
  {
    assert Packed(room) >= TS_PACKET;
    if cap == 0 { return; }
    assert |ReadStream(stream, cap, pos, Packed(room))| < TS_PACKET;
  }

  // Only frames and reports were appended.
  ghost predicate Added(before: seq<Item>, after: seq<Item>)
  {
    before <= after && forall k | |before| <= k < |after| :: !after[k].Reply?
  }

  // ---------------------------------------------------------------- whole sessions

  datatype Event =
    | Publish(data: bytes)
    | Asked(request: Request, yes: bytes, no: bytes, now: int)
    | Writable(now: int, clock: nat -> nat, body: bytes)

  function Published(events: seq<Event>): bytes
  {
    if events == [] then []
    else Published(events[..|events| - 1]) + if events[|events| - 1].Publish? then events[|events| - 1].data else []
  }

  // A scanner never names a join point beyond what was published.
  function Clip(r: Request, end: nat): Request
  {
    if r.PlayFrom? && r.join.At? && r.join.pos > end then PlayFrom(NoAnchor) else r
  }

  // The requests made, in order, each with what had been published by then; and the reports on offer.
  function Asks(events: seq<Event>): seq<Ask>
  {
    if events == [] then []
    else
      var before, e := events[..|events| - 1], events[|events| - 1];
      var end := |Published(before)|;
      Asks(before) + if e.Asked? then [Ask(Clip(e.request, end), e.yes, e.no, end)] else []
  }

  function Offers(events: seq<Event>): set<bytes>
  {
    if events == [] then {}
    else Offers(events[..|events| - 1]) + if events[|events| - 1].Writable? then {events[|events| - 1].body} else {}
  }

  // The connection has carried the first part of these items: a reply to every request made while the
  // viewer lived, in order, sender reports on offer, and frames.
  ghost predicate Carries(wire: bytes, items: seq<Item>, start: nat, cap: nat, events: seq<Event>, alive: bool)
  {
    && wire <= Flat(items)
    && Sound(items, start, cap, Published(events)) && Within(items, Published(events))
    && Answered(items) <= Asks(events) && (alive ==> Answered(items) == Asks(events))
    && Bodies(items) <= Offers(events)
  }

  // Whatever happens in whatever order, what the connection has carried is the first part of whole items
  // that are sound. So the reader is set only by a PLAY that needs it, and in between there is no gap.
  method Play(size: nat, start: nat, id: nat, plan: seq<Answer>, open: bool, events: seq<Event>)
    returns (wire: bytes, alive: bool)
    requires start < 0x1_0000
    ensures exists items ::
      && Carries(wire, items, start, Capacity(size), events, alive)
      && Gapless(items, Published(events)) && FramesGranted(items)
  {
    hide InOrder, Mirrors, Sound, Within, Flat, Resident, Answered, Bodies;
    hide Asks, Offers, Published, Queued, Setting, Refuses;
    hide Gapless, FramesGranted;
    var ring := new Ring();
    ring.Init(size);
    var v := new Viewer(start, id, plan, open, 0, Capacity(size));
    alive := true;
    var i := 0;
    assert events[..0] == [];
    NoneYet();
    while i < |events|
      invariant i <= |events| && ring.Valid() && ring.buf.Length == v.cap && v.Valid(ring.stream)
      invariant ring.stream == Published(events[..i])
      invariant Answered(v.items) <= Asks(events[..i]) && (alive ==> Answered(v.items) == Asks(events[..i]))
      invariant Bodies(v.items) <= Offers(events[..i])
      invariant fresh(ring) && fresh(ring.buf) && fresh(v) && fresh(v.link)
    {
      var e := events[i];
      Further(events, i);
      i := i + 1;
      match e
      case Publish(data) =>
        QueueGrows(v.Q(), ring.stream, v.link.wire, data);
        ring.Publish(data);
      case Asked(request, yes, no, now) =>
        if alive { alive := v.Handle(Clip(request, ring.writePos), ring, yes, no, now); }
      case Writable(now, clock, body) =>
        if alive { alive := v.OnWritable(ring, now, clock, body); }
    }
    assert events[..i] == events;
    wire := v.link.wire;
    QueueFacts(v.Q(), ring.stream, wire);
    SoundIsGapless(v.items, start, v.cap, ring.stream);
    SoundIsGranted(v.items, start, v.cap, ring.stream);
    assert Carries(wire, v.items, start, Capacity(size), events, alive);
  }

  lemma Further(events: seq<Event>, i: nat)
    requires i < |events|
    ensures var e, end := events[i], |Published(events[..i])|;
      && Published(events[..i + 1]) == Published(events[..i]) + (if e.Publish? then e.data else [])
      && Asks(events[..i + 1]) ==
           Asks(events[..i]) + (if e.Asked? then [Ask(Clip(e.request, end), e.yes, e.no, end)] else [])
      && Offers(events[..i + 1]) == Offers(events[..i]) + (if e.Writable? then {e.body} else {})
  {
    assert events[..i + 1][..i] == events[..i];
  }

  lemma NoneYet()
    ensures Answered([]) == [] && Bodies([]) == {} && Asks([]) == [] && Offers([]) == {} && Published([]) == []
  {
  }
}
