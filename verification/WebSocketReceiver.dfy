/**
  The receiving side of a WebSocket after its handshake (websocket.cpp, fill_pending, decode_frames
  and recv): raw bytes are buffered, whole frames are taken off the front, and their data is handed
  out in pieces of whatever size the caller has room for.

  `DeliveredInOrder` is the theorem about legal clients, `SurvivesExactly` says which clients those are, and
  `NeverOverflows` holds for any bytes at all.
 */
module WebSocketReceiver {
  import opened Bytes
  import opened Numbers
  import opened WebSocketFrames

  const READ_CHUNK := 16384

  // What decoding builds up: the message bytes not yet cleared, whether a fragmented message is open,
  // everything queued for the peer, and whether a close was answered.
  datatype Dec = Dec(msg: bytes, open: bool, tx: bytes, closed: bool)

  datatype Acted = Stopped(d: Dec) | Acted(d: Dec)

  function Act(max: nat, d: Dec, fin: bool, opcode: nat, data: bytes): Acted
    requires opcode < 16 && (Control(opcode) ==> |data| <= 125)
  {
    if opcode == CLOSE then
      Stopped(if d.closed then d else d.(tx := d.tx + ServerFrame(CLOSE, data), closed := true))
    else if opcode == PING then Acted(d.(tx := d.tx + ServerFrame(PONG, data)))
    else if opcode == PONG then Acted(d)
    else if opcode == CONT then
      if !d.open || |d.msg| + |data| > max then Stopped(d)
      else Acted(d.(msg := d.msg + data, open := !fin))
    else if opcode == TEXT || opcode == BINARY then
      if d.open || |d.msg| + |data| > max then Stopped(d)
      else Acted(d.(msg := d.msg + data, open := !fin))
    else Stopped(d)
  }

  datatype Taken = Wait | Stop(d: Dec) | Took(d: Dec, used: nat)

  function TakeFrame(max: nat, d: Dec, b: bytes): (t: Taken)
    ensures t.Took? ==> 6 <= t.used <= |b|
    ensures t.Wait? ==> |b| < max + 14
  {
    match ReadHead(max, b)
    case Short => Wait
    case Bad => Stop(d)
    case Head(fin, opcode, size, len) =>
      var need := size + 4 + len;
      if |b| < need then Wait
      else match Act(max, d, fin, opcode, Masked(b[size..size + 4], b[size + 4..need]))
        case Stopped(e) => Stop(e)
        case Acted(e) => Took(e, need)
  }

  datatype Decoded = Decoded(ok: bool, d: Dec, rest: bytes)

  function DecodeAll(max: nat, d: Dec, b: bytes): Decoded
    decreases |b|
  {
    match TakeFrame(max, d, b)
    case Wait => Decoded(true, d, b)
    case Stop(e) => Decoded(false, e, b)
    case Took(e, used) => DecodeAll(max, e, b[used..])
  }

  datatype Socket = Socket(alive: bool, rx: bytes, dec: Dec, taken: nat)

  const OPENED := Socket(true, [], Dec([], false, [], false), 0)

  datatype Received = Received(s: Socket, out: bytes)

  // Hand out what the caller has room for; forget the message once it is all taken.
  function HandOut(s: Socket, n: nat): Received
    requires s.taken <= |s.dec.msg|
  {
    var to := if n < |s.dec.msg| - s.taken then s.taken + n else |s.dec.msg|;
    var out := s.dec.msg[s.taken..to];
    if to == |s.dec.msg| then Received(s.(dec := s.dec.(msg := []), taken := 0), out)
    else Received(s.(taken := to), out)
  }

  predicate Pending(s: Socket) { s.taken < |s.dec.msg| }

  predicate Overflows(max: nat, s: Socket) { |s.rx| > max + 64 }

  // Does this call read from the connection?
  predicate Reads(max: nat, s: Socket) { !Pending(s) && s.alive && !Overflows(max, s) }

  function Decode(max: nat, s: Socket, segment: bytes): Socket
  {
    var r := DecodeAll(max, s.dec, s.rx + segment);
    s.(alive := r.ok, rx := r.rest, dec := r.d)
  }

  // One recv call. `segment` is what the connection yields if it is read; empty for would-block.
  function Recv(max: nat, s: Socket, n: nat, segment: bytes): Received
  {
    if Pending(s) then HandOut(s, n)
    else if !Reads(max, s) then Received(s.(alive := false), [])
    else
      var t := Decode(max, s, segment);
      if !t.alive || t.dec.open || t.dec.msg == [] then Received(t, [])
      else HandOut(t.(taken := 0), n)
  }

  // ---------------------------------------------------------------- any client

  lemma {:induction false} LeftoverBounded(max: nat, d: Dec, b: bytes)
    ensures DecodeAll(max, d, b).ok ==> |DecodeAll(max, d, b).rest| < max + 14
    decreases |b|
  {
    hide TakeFrame;
    match TakeFrame(max, d, b)
    case Wait =>
    case Stop(_) =>
    case Took(e, used) => LeftoverBounded(max, e, b[used..]);
  }

  datatype Call = Call(n: nat, segment: bytes)

  ghost function Calls(max: nat, s: Socket, calls: seq<Call>): Socket
    decreases |calls|
  {
    if calls == [] then s else Calls(max, Recv(max, s, calls[0].n, calls[0].segment).s, calls[1..])
  }

  // Whatever a client sends, in whatever segments, the check on the receive buffer never finds it too long:
  // frames that could not fit are refused as soon as their length is known.
  lemma {:induction false} NeverOverflows(max: nat, s: Socket, calls: seq<Call>)
    requires s.alive ==> |s.rx| < max + 14
    ensures var t := Calls(max, s, calls); t.alive ==> |t.rx| < max + 14 && !Overflows(max, t)
    decreases |calls|
  {
    hide DecodeAll;
    if calls != [] {
      LeftoverBounded(max, s.dec, s.rx + calls[0].segment);
      NeverOverflows(max, Recv(max, s, calls[0].n, calls[0].segment).s, calls[1..]);
    }
  }

  // ---------------------------------------------------------------- legal clients

  predicate IsData(f: Frame) { f.opcode == CONT || f.opcode == TEXT || f.opcode == BINARY }

  // A frame of a client that has not closed.
  predicate Speaks(f: Frame) { Expressible(f) && (IsData(f) || f.opcode == PING || f.opcode == PONG) }

  function OpenAfter(f: Frame, open: bool): bool { if IsData(f) then !f.fin else open }

  // Messages are not nested: continuations continue one, anything else starts one.
  predicate Ordered(fs: seq<Frame>, open: bool)
    decreases |fs|
  {
    fs == [] || (
      && (fs[0].opcode == CONT ==> open)
      && (fs[0].opcode == TEXT || fs[0].opcode == BINARY ==> !open)
      && Ordered(fs[1..], OpenAfter(fs[0], open)))
  }

  ghost predicate Lawful(fs: seq<Frame>, open: bool)
  {
    (forall i | 0 <= i < |fs| :: Speaks(fs[i])) && Ordered(fs, open)
  }

  function Octets(f: Frame): bytes { if Expressible(f) then Wire(f) else [] }

  // The data of a data frame, and the pong owed for a ping.
  function DataOf(f: Frame): bytes { if IsData(f) then f.payload else [] }

  function PongOf(f: Frame): bytes
  {
    if f.opcode == PING && |f.payload| <= 125 then ServerFrame(PONG, f.payload) else []
  }

  function Flat(fs: seq<Frame>, part: Frame -> bytes): bytes
    decreases |fs|
  {
    if fs == [] then [] else part(fs[0]) + Flat(fs[1..], part)
  }

  lemma {:induction false} FlatSplit(a: seq<Frame>, b: seq<Frame>, part: Frame -> bytes)
    ensures Flat(a + b, part) == Flat(a, part) + Flat(b, part)
    decreases |a|
  {
    if a == [] {
      assert a + b == b;
    } else {
      assert (a + b)[1..] == a[1..] + b;
      FlatSplit(a[1..], b, part);
    }
  }

  function WireAll(fs: seq<Frame>): bytes { Flat(fs, Octets) }

  function Payloads(fs: seq<Frame>): bytes { Flat(fs, DataOf) }

  function Pongs(fs: seq<Frame>): bytes { Flat(fs, PongOf) }

  lemma Split(a: seq<Frame>, b: seq<Frame>)
    ensures WireAll(a + b) == WireAll(a) + WireAll(b)
    ensures Payloads(a + b) == Payloads(a) + Payloads(b)
    ensures Pongs(a + b) == Pongs(a) + Pongs(b)
  {
    hide Flat;
    FlatSplit(a, b, Octets);
    FlatSplit(a, b, DataOf);
    FlatSplit(a, b, PongOf);
  }

  lemma Single(f: Frame)
    ensures WireAll([f]) == Octets(f) && Payloads([f]) == DataOf(f) && Pongs([f]) == PongOf(f)
  {
    hide Octets, DataOf, PongOf;
    assert forall part: Frame -> bytes :: Flat([f], part) == part(f) + Flat([], part);
  }

  // A whole frame is read back as what the client meant.
  lemma TakeIs(max: nat, d: Dec, f: Frame, rest: bytes)
    requires Expressible(f) && |f.payload| <= max
    ensures TakeFrame(max, d, Wire(f) + rest) ==
      match Act(max, d, f.fin, f.opcode, f.payload) case Stopped(e) => Stop(e) case Acted(e) => Took(e, |Wire(f)|)
  {
    hide ReadHead, HeadBytes, Act;
    var b := Wire(f) + rest;
    var h := |HeadBytes(f)|;
    var tail := f.mask + Masked(f.mask, f.payload) + rest;
    assert b == HeadBytes(f) + tail;
    HeadReads(max, f, tail);
    assert b[h..h + 4] == f.mask;
    assert b[h + 4..|Wire(f)|] == Masked(f.mask, f.payload);
    MaskedTwice(f.mask, f.payload);
  }

  // A lawful frame that fits adds its data or its pong.
  lemma TakeWhole(max: nat, d: Dec, f: Frame, rest: bytes)
    requires Speaks(f) && |f.payload| <= max && |d.msg| + |DataOf(f)| <= max
    requires (f.opcode == CONT ==> d.open) && (f.opcode == TEXT || f.opcode == BINARY ==> !d.open)
    ensures TakeFrame(max, d, Wire(f) + rest) == Took(With(d, f), |Wire(f)|)
  {
    hide Wire, TakeFrame, ServerFrame;
    TakeIs(max, d, f, rest);
    assert d.msg + [] == d.msg && d.tx + [] == d.tx;
  }

  // Part of a frame is waited for.
  lemma TakePart(max: nat, d: Dec, f: Frame, n: nat)
    requires Expressible(f) && |f.payload| <= max && n < |Wire(f)|
    ensures TakeFrame(max, d, Wire(f)[..n]) == Wait
  {
    hide ReadHead, HeadBytes, Act;
    var h := HeadBytes(f);
    if n < |h| {
      assert Wire(f)[..n] == h[..n];
      HeadWaits(max, f, n);
    } else {
      var rest := Wire(f)[|h|..n];
      assert Wire(f)[..n] == h + rest;
      HeadReads(max, f, rest);
    }
  }

  // What it takes to decode b, the first bytes of fs: no frame that b touches is above the cap, and the
  // data of the frames complete in it stays within the cap after each of them.
  ghost predicate Room(max: nat, d: Dec, fs: seq<Frame>, b: bytes)
  {
    && (forall k | 0 <= k < |fs| && |WireAll(fs[..k])| < |b| :: |fs[k].payload| <= max)
    && (forall k | 0 <= k <= |fs| && |WireAll(fs[..k])| <= |b| :: |d.msg| + |Payloads(fs[..k])| <= max)
  }

  ghost predicate Settled(fs: seq<Frame>, rest: bytes)
  {
    if fs == [] then rest == [] else |rest| < |Octets(fs[0])|
  }

  // Decoding b took the first k frames and what is left of b is part of the next.
  ghost predicate Takes(d: Dec, fs: seq<Frame>, b: bytes, k: nat, r: Decoded)
  {
    && k <= |fs| && r.ok
    && b == WireAll(fs[..k]) + r.rest && Settled(fs[k..], r.rest)
    && r.d.msg == d.msg + Payloads(fs[..k]) && r.d.tx == d.tx + Pongs(fs[..k]) && r.d.closed == d.closed
    && Lawful(fs[k..], r.d.open)
  }

  function With(d: Dec, f: Frame): Dec
  {
    d.(msg := d.msg + DataOf(f), open := OpenAfter(f, d.open), tx := d.tx + PongOf(f))
  }

  lemma TakesNone(d: Dec, fs: seq<Frame>, b: bytes)
    requires Lawful(fs, d.open) && Settled(fs, b)
    ensures Takes(d, fs, b, 0, Decoded(true, d, b))
  {
    hide Lawful, Octets, DataOf, PongOf;
    assert fs[..0] == [] && fs[0..] == fs;
    assert Flat([], Octets) == [] && Flat([], DataOf) == [] && Flat([], PongOf) == [];
    assert d.msg + [] == d.msg && d.tx + [] == d.tx && [] + b == b;
  }

  lemma TakesOneMore(d: Dec, fs: seq<Frame>, rest: bytes, k: nat, r: Decoded)
    requires fs != [] && Takes(With(d, fs[0]), fs[1..], rest, k, r)
    ensures Takes(d, fs, Octets(fs[0]) + rest, k + 1, r)
  {
    hide Lawful, Octets, DataOf, PongOf, WireAll, Payloads, Pongs, Settled;
    var f := fs[0];
    var more := fs[1..][..k];
    assert fs[k + 1..] == fs[1..][k..];
    OneFrame(fs, k);
    assert Octets(f) + (WireAll(more) + r.rest) == Octets(f) + WireAll(more) + r.rest;
    assert d.msg + DataOf(f) + Payloads(more) == d.msg + (DataOf(f) + Payloads(more));
    assert d.tx + PongOf(f) + Pongs(more) == d.tx + (PongOf(f) + Pongs(more));
  }

  // The first k + 1 frames are the first and k of the rest.
  lemma OneFrame(fs: seq<Frame>, k: nat)
    requires k < |fs|
    ensures var f, more := fs[0], fs[1..][..k];
      && WireAll(fs[..k + 1]) == Octets(f) + WireAll(more)
      && Payloads(fs[..k + 1]) == DataOf(f) + Payloads(more)
      && Pongs(fs[..k + 1]) == PongOf(f) + Pongs(more)
  {
    hide Octets, DataOf, PongOf, WireAll, Payloads, Pongs;
    assert fs[..k + 1] == [fs[0]] + fs[1..][..k];
    Split([fs[0]], fs[1..][..k]);
    Single(fs[0]);
  }

  lemma FirstFrame(fs: seq<Frame>, open: bool)
    requires fs != [] && Lawful(fs, open)
    ensures var f := fs[0];
      && Speaks(f) && Expressible(f) && Octets(f) == Wire(f) && |Octets(f)| >= 6 + |f.payload|
      && |Octets(f)| <= 14 + |f.payload| && |DataOf(f)| <= |f.payload|
      && (f.opcode == CONT ==> open) && (f.opcode == TEXT || f.opcode == BINARY ==> !open)
      && Lawful(fs[1..], OpenAfter(f, open)) && WireAll(fs) == Octets(f) + WireAll(fs[1..])
  {
    hide HeadBytes, Masked;
    assert Speaks(fs[0]);
    forall i | 0 <= i < |fs[1..]| ensures Speaks(fs[1..][i]) { assert fs[1..][i] == fs[i + 1]; }
  }

  // Room for b is room for what follows its first frame.
  lemma RoomNext(max: nat, d: Dec, fs: seq<Frame>, rest: bytes)
    requires fs != [] && Room(max, d, fs, Octets(fs[0]) + rest)
    ensures Room(max, With(d, fs[0]), fs[1..], rest)
    ensures |d.msg| + |DataOf(fs[0])| <= max
  {
    hide WireAll, Payloads, Octets, DataOf, PongOf;
    NoFrames();
    forall k | 0 <= k < |fs| ensures var f, more := fs[0], fs[1..][..k];
      && |WireAll(fs[..k + 1])| == |Octets(f)| + |WireAll(more)|
      && |Payloads(fs[..k + 1])| == |DataOf(f)| + |Payloads(more)|
    {
      OneFrame(fs, k);
    }
    var f := fs[0];
    assert fs[1..][..0] == [];
    assert |WireAll(fs[..0 + 1])| == |Octets(f)| && |Payloads(fs[..0 + 1])| == |DataOf(f)|;
    forall k | 0 <= k < |fs[1..]| && |WireAll(fs[1..][..k])| < |rest| ensures |fs[1..][k].payload| <= max {
      assert |WireAll(fs[..k + 1])| < |Octets(f) + rest| && fs[1..][k] == fs[k + 1];
    }
    forall k | 0 <= k <= |fs[1..]| && |WireAll(fs[1..][..k])| <= |rest|
      ensures |With(d, f).msg| + |Payloads(fs[1..][..k])| <= max
    {
      assert |WireAll(fs[..k + 1])| <= |Octets(f) + rest|;
    }
  }

  lemma RoomFirst(max: nat, d: Dec, fs: seq<Frame>, b: bytes)
    requires fs != [] && b != [] && Room(max, d, fs, b)
    ensures |fs[0].payload| <= max
  {
    NoFrames();
    assert fs[..0] == [];
    assert |WireAll(fs[..0])| < |b|;
  }

  // Decoding the first bytes of a lawful stream takes exactly the frames that are complete in it.
  lemma {:induction false} DecodesLawful(max: nat, d: Dec, fs: seq<Frame>, b: bytes) returns (k: nat)
    requires Lawful(fs, d.open) && b <= WireAll(fs) && Room(max, d, fs, b)
    ensures Takes(d, fs, b, k, DecodeAll(max, d, b))
    decreases |fs|
  {
    hide Speaks, TakeFrame, Wire, Octets, DataOf, PongOf, OpenAfter, Expressible, Takes, Lawful, WireAll, Room;
    k := 0;
    if fs == [] {
      assert WireAll(fs) == [] by { NoFrames(); }
      NothingWaits(max, d);
      TakesNone(d, fs, []);
    } else {
      var f := fs[0];
      FirstFrame(fs, d.open);
      if b == [] {
        NothingWaits(max, d);
        TakesNone(d, fs, []);
      } else if |b| < |Octets(f)| {
        RoomFirst(max, d, fs, b);
        assert b == Wire(f)[..|b|];
        TakePart(max, d, f, |b|);
        TakesNone(d, fs, b);
      } else {
        RoomFirst(max, d, fs, b);
        var rest := b[|Octets(f)|..];
        assert b == Octets(f) + rest;
        assert rest <= WireAll(fs[1..]);
        RoomNext(max, d, fs, rest);
        TakeWhole(max, d, f, rest);
        var j := DecodesLawful(max, With(d, f), fs[1..], rest);
        TakesOneMore(d, fs, rest, j, DecodeAll(max, With(d, f), rest));
        k := j + 1;
      }
    }
  }

  lemma NoFrames()
    ensures WireAll([]) == [] && Payloads([]) == [] && Pongs([]) == []
  {
  }

  lemma NothingWaits(max: nat, d: Dec)
    ensures DecodeAll(max, d, []) == Decoded(true, d, [])
  {
  }

  // Decoding whole frames whose data is more than fits ends the connection.
  lemma {:induction false} DecodeDies(max: nat, d: Dec, fs: seq<Frame>)
    requires Lawful(fs, d.open) && (forall i | 0 <= i < |fs| :: |fs[i].payload| <= max)
    requires |d.msg| <= max < |d.msg| + |Payloads(fs)|
    ensures !DecodeAll(max, d, WireAll(fs)).ok
    decreases |fs|
  {
    hide TakeFrame, Wire, Octets, PongOf, OpenAfter, Lawful, Expressible, WireAll, ServerFrame;
    if fs == [] {
      NoFrames();
      assert false;
    } else {
      var f := fs[0];
      FirstFrame(fs, d.open);
      OneFrame(fs, |fs| - 1);
      assert fs[..|fs|] == fs && fs[1..][..|fs| - 1] == fs[1..];
      var b, rest := WireAll(fs), WireAll(fs[1..]);
      assert b[|Octets(f)|..] == rest;
      TakeIs(max, d, f, rest);
      if |d.msg| + |DataOf(f)| <= max {
        TakeWhole(max, d, f, rest);
        DecodeDies(max, With(d, f), fs[1..]);
      }
    }
  }

  // ---------------------------------------------------------------- a whole session

  datatype Session = Session(s: Socket, pos: nat, out: bytes)

  // A recv call with room for n bytes while the connection has `offer` more to give, at most a chunk of it.
  datatype Turn = Turn(n: nat, offer: nat)

  function Arrival(stream: bytes, pos: nat, offer: nat): (r: bytes)
    requires pos <= |stream|
    ensures |r| <= READ_CHUNK && pos + |r| <= |stream|
  {
    stream[pos..pos + Min(Min(offer, READ_CHUNK), |stream| - pos)]
  }

  function Step(max: nat, stream: bytes, x: Session, t: Turn): (y: Session)
    requires x.pos <= |stream|
    ensures y.pos <= |stream|
  {
    var segment := if Reads(max, x.s) then Arrival(stream, x.pos, t.offer) else [];
    var r := Recv(max, x.s, t.n, segment);
    Session(r.s, x.pos + |segment|, x.out + r.out)
  }

  function Run(max: nat, stream: bytes, x: Session, ts: seq<Turn>): (y: Session)
    requires x.pos <= |stream|
    ensures y.pos <= |stream|
    decreases |ts|
  {
    if ts == [] then x else Run(max, stream, Step(max, stream, x, ts[0]), ts[1..])
  }

  function Waiting(s: Socket): bytes { if Pending(s) then s.dec.msg[s.taken..] else [] }

  // After k frames: everything that arrived is those frames and part of the next, everything decoded
  // was handed out or is waiting to be, and every ping has its pong.
  ghost predicate Tracks(fs: seq<Frame>, k: nat, x: Session)
  {
    && k <= |fs| && x.s.alive
    && (Pending(x.s) || (x.s.dec.msg == [] && x.s.taken == 0))
    && Lawful(fs[k..], x.s.dec.open)
    && x.pos <= |WireAll(fs)| && WireAll(fs)[..x.pos] == WireAll(fs[..k]) + x.s.rx
    && Settled(fs[k..], x.s.rx)
    && x.out + Waiting(x.s) == Payloads(fs[..k])
    && x.s.dec.tx == Pongs(fs[..k]) && !x.s.dec.closed
  }

  lemma HandOutSplits(s: Socket, n: nat)
    requires s.taken <= |s.dec.msg|
    ensures var r := HandOut(s, n);
      && (Pending(r.s) || (r.s.dec.msg == [] && r.s.taken == 0))
      && r.out + Waiting(r.s) == Waiting(s)
      && r.s == s.(dec := s.dec.(msg := r.s.dec.msg), taken := r.s.taken)
  {
  }

  lemma TracksHandOut(fs: seq<Frame>, k: nat, x: Session, n: nat)
    requires Tracks(fs, k, x)
    ensures var r := HandOut(x.s, n); Tracks(fs, k, Session(r.s, x.pos, x.out + r.out))
  {
    hide HandOut, Lawful, Settled, WireAll, Payloads, Pongs, Waiting;
    HandOutSplits(x.s, n);
    var r := HandOut(x.s, n);
    assert x.out + r.out + Waiting(r.s) == x.out + (r.out + Waiting(r.s));
  }

  // The bytes held and the bytes that arrive are the first bytes of the frames still to come.
  lemma HeldIsPrefix(done: bytes, ahead: bytes, pos: nat, rx: bytes, n: nat)
    requires pos + n <= |done + ahead| && (done + ahead)[..pos] == done + rx
    ensures var w := done + ahead;
      rx + w[pos..pos + n] <= ahead && w[..pos + n] == done + (rx + w[pos..pos + n])
  {
    var w := done + ahead;
    var b := rx + w[pos..pos + n];
    assert w[..pos + n] == w[..pos] + w[pos..pos + n];
    assert done + rx + w[pos..pos + n] == done + b;
    assert b == w[|done|..pos + n];
    assert ahead == w[|done|..];
  }

  lemma TracksDecode(max: nat, fs: seq<Frame>, k: nat, x: Session, n: nat) returns (j: nat)
    requires Tracks(fs, k, x) && !Pending(x.s) && x.pos + n <= |WireAll(fs)|
    requires Room(max, x.s.dec, fs[k..], x.s.rx + WireAll(fs)[x.pos..x.pos + n])
    ensures Tracks(fs, j, Session(Decode(max, x.s, WireAll(fs)[x.pos..x.pos + n]), x.pos + n, x.out))
  {
    hide DecodeAll, WireAll, Payloads, Pongs, Lawful, Settled, Room, Takes;
    var w := WireAll(fs);
    var done, ahead := WireAll(fs[..k]), WireAll(fs[k..]);
    assert fs[..k] + fs[k..] == fs;
    Split(fs[..k], fs[k..]);
    var segment := w[x.pos..x.pos + n];
    HeldIsPrefix(done, ahead, x.pos, x.s.rx, n);
    var more := DecodesLawful(max, x.s.dec, fs[k..], x.s.rx + segment);
    j := TracksTaken(fs, k, x, n, more, DecodeAll(max, x.s.dec, x.s.rx + segment));
  }

  lemma TracksTaken(fs: seq<Frame>, k: nat, x: Session, n: nat, more: nat, r: Decoded) returns (j: nat)
    requires Tracks(fs, k, x) && !Pending(x.s) && x.pos + n <= |WireAll(fs)|
    requires var b := x.s.rx + WireAll(fs)[x.pos..x.pos + n];
      WireAll(fs)[..x.pos + n] == WireAll(fs[..k]) + b && Takes(x.s.dec, fs[k..], b, more, r)
    ensures r.ok && Tracks(fs, j, Session(Socket(true, r.rest, r.d, 0), x.pos + n, x.out))
  {
    hide WireAll, Payloads, Pongs, Lawful, Settled;
    j := k + more;
    var taken := fs[k..][..more];
    assert fs[..j] == fs[..k] + taken && fs[j..] == fs[k..][more..];
    Split(fs[..k], taken);
    assert WireAll(fs[..k]) + (WireAll(taken) + r.rest) == WireAll(fs[..k]) + WireAll(taken) + r.rest;
    assert [] + Payloads(taken) == Payloads(taken);
    assert x.out + [] == x.out;
    assert r.d.msg[0..] == r.d.msg;
  }

  // The bytes a turn would add to those held.
  ghost function Batch(stream: bytes, x: Session, t: Turn): bytes
    requires x.pos <= |stream|
  {
    x.s.rx + Arrival(stream, x.pos, t.offer)
  }

  lemma TracksStep(max: nat, fs: seq<Frame>, k: nat, x: Session, t: Turn) returns (j: nat)
    requires Tracks(fs, k, x) && x.pos <= |WireAll(fs)|
    requires !Pending(x.s) ==> !Overflows(max, x.s) && Room(max, x.s.dec, fs[k..], Batch(WireAll(fs), x, t))
    ensures Tracks(fs, j, Step(max, WireAll(fs), x, t))
  {
    hide HandOut, Lawful, Settled, WireAll, Payloads, Pongs, Waiting, Decode, Room, Overflows;
    if Pending(x.s) {
      j := k;
      TracksHandOut(fs, k, x, t.n);
    } else {
      var segment := Arrival(WireAll(fs), x.pos, t.offer);
      j := TracksDecode(max, fs, k, x, |segment|);
      var s := Decode(max, x.s, segment);
      assert s.taken == 0 && s == s.(taken := 0) by { DecodeTaken(max, x.s, segment); }
      var y := Session(s, x.pos + |segment|, x.out);
      assert y.out + [] == y.out;
      if !(s.dec.open || s.dec.msg == []) { TracksHandOut(fs, j, y, t.n); }
    }
  }

  lemma DecodeTaken(max: nat, s: Socket, segment: bytes)
    ensures Decode(max, s, segment).taken == s.taken
  {
  }

  // ---------------------------------------------------------------- clients whose frames fit

  // Frames i to j - 1 can be decoded together if all but the first of them come in one read with its
  // last byte. Then their data has to fit.
  ghost predicate PairFits(max: nat, fs: seq<Frame>, i: nat, j: nat)
    requires i < j <= |fs|
  {
    |WireAll(fs[i + 1..j])| < READ_CHUNK ==> |Payloads(fs[i..j])| <= max
  }

  ghost predicate Roomy(max: nat, fs: seq<Frame>)
  {
    && (forall i | 0 <= i < |fs| :: |fs[i].payload| <= max)
    && (forall i, j | 0 <= i < j <= |fs| :: PairFits(max, fs, i, j))
  }

  ghost predicate Legal(max: nat, fs: seq<Frame>, open: bool)
  {
    Lawful(fs, open) && Roomy(max, fs)
  }

  // Frames no larger than the cap less one read always fit.
  lemma SmallIsRoomy(max: nat, fs: seq<Frame>)
    requires forall i | 0 <= i < |fs| :: Expressible(fs[i]) && |fs[i].payload| + READ_CHUNK <= max
    ensures Roomy(max, fs)
  {
    hide Payloads, WireAll, Expressible;
    forall i, j | 0 <= i < j <= |fs| ensures PairFits(max, fs, i, j) {
      assert fs[i..j] == [fs[i]] + fs[i + 1..j];
      Split([fs[i]], fs[i + 1..j]);
      Single(fs[i]);
      DataInWire(fs[i + 1..j]);
    }
  }

  lemma {:induction false} DataInWire(fs: seq<Frame>)
    requires forall i | 0 <= i < |fs| :: Expressible(fs[i])
    ensures |Payloads(fs)| <= |WireAll(fs)|
    decreases |fs|
  {
    hide HeadBytes, Masked;
    if fs != [] {
      assert Expressible(fs[0]);
      forall i | 0 <= i < |fs[1..]| ensures Expressible(fs[1..][i]) { assert fs[1..][i] == fs[i + 1]; }
      DataInWire(fs[1..]);
    }
  }

  // One read after a settled buffer leaves room.
  lemma RoomAfterRead(max: nat, d: Dec, all: seq<Frame>, m: nat, rx: bytes, segment: bytes)
    requires m <= |all| && Roomy(max, all) && Settled(all[m..], rx) && d.msg == [] && |segment| <= READ_CHUNK
    ensures Room(max, d, all[m..], rx + segment)
  {
    hide WireAll, Payloads, Octets, DataOf;
    var fs, b := all[m..], rx + segment;
    NoFrames();
    forall k | 0 <= k <= |fs| && |WireAll(fs[..k])| <= |b| ensures |Payloads(fs[..k])| <= max {
      if k == 0 {
        assert fs[..0] == [];
      } else {
        OneFrame(fs, k - 1);
        assert fs[1..][..k - 1] == all[m + 1..m + k] && fs[..k] == all[m..m + k];
        assert PairFits(max, all, m, m + k);
      }
    }
  }

  lemma RestBounded(max: nat, fs: seq<Frame>, open: bool, rx: bytes)
    requires Lawful(fs, open) && Settled(fs, rx) && (fs != [] ==> |fs[0].payload| <= max)
    ensures |rx| <= max + 64
  {
    hide Lawful, Octets;
    if fs != [] { FirstFrame(fs, open); }
  }

  lemma {:induction false} RunTracks(max: nat, fs: seq<Frame>, k: nat, x: Session, ts: seq<Turn>) returns (j: nat)
    requires Roomy(max, fs) && Tracks(fs, k, x)
    ensures x.pos <= |WireAll(fs)| && Tracks(fs, j, Run(max, WireAll(fs), x, ts))
    decreases |ts|
  {
    hide Step, WireAll, Lawful, Settled, Payloads, Pongs, Waiting, Room;
    j := k;
    if ts != [] {
      if !Pending(x.s) {
        RestBounded(max, fs[k..], x.s.dec.open, x.s.rx);
        RoomAfterRead(max, x.s.dec, fs, k, x.s.rx, Arrival(WireAll(fs), x.pos, ts[0].offer));
      }
      j := TracksStep(max, fs, k, x, ts[0]);
      j := RunTracks(max, fs, j, Step(max, WireAll(fs), x, ts[0]), ts[1..]);
    }
  }

  const BEGIN := Session(OPENED, 0, [])

  lemma Begins(fs: seq<Frame>)
    requires Lawful(fs, false)
    ensures Tracks(fs, 0, BEGIN)
  {
    hide Lawful, Octets, WireAll, Payloads, Pongs;
    NoFrames();
    assert fs[0..] == fs && fs[..0] == [];
    if fs != [] { FirstFrame(fs, false); }
  }

  // For every legal client, every segmentation and all buffer sizes: the connection survives, what has
  // been received is always the first part of the data sent, and all of it once everything has arrived
  // and been drained. Pings are answered in order with their own payload.
  lemma DeliveredInOrder(max: nat, fs: seq<Frame>, ts: seq<Turn>)
    requires Legal(max, fs, false)
    ensures var x := Run(max, WireAll(fs), BEGIN, ts);
      && x.s.alive && x.out <= Payloads(fs) && x.s.dec.tx <= Pongs(fs)
      && (x.pos == |WireAll(fs)| ==> x.out + Waiting(x.s) == Payloads(fs) && x.s.dec.tx == Pongs(fs))
      && (x.pos == |WireAll(fs)| && !Pending(x.s) ==> x.out == Payloads(fs))
  {
    hide Run, Lawful, Roomy, Octets, WireAll, Payloads, Pongs;
    Begins(fs);
    var k := RunTracks(max, fs, 0, BEGIN, ts);
    Delivered(fs, k, Run(max, WireAll(fs), BEGIN, ts));
  }

  lemma Delivered(fs: seq<Frame>, k: nat, x: Session)
    requires Tracks(fs, k, x)
    ensures x.out <= Payloads(fs) && x.s.dec.tx <= Pongs(fs)
    ensures x.pos == |WireAll(fs)| ==> x.out + Waiting(x.s) == Payloads(fs) && x.s.dec.tx == Pongs(fs)
    ensures x.pos == |WireAll(fs)| && !Pending(x.s) ==> x.out == Payloads(fs)
  {
    hide Lawful, Octets, WireAll, Payloads, Pongs;
    assert fs[..k] + fs[k..] == fs;
    Split(fs[..k], fs[k..]);
    if x.pos == |WireAll(fs)| {
      assert WireAll(fs)[..x.pos] == WireAll(fs);
      assert x.s.rx == WireAll(fs)[|WireAll(fs[..k])|..] == WireAll(fs[k..]);
      AllTaken(fs[k..], x.s.rx);
      assert fs[..k] == fs;
    }
    assert x.out <= x.out + Waiting(x.s);
  }

  lemma AllTaken(fs: seq<Frame>, rest: bytes)
    requires Settled(fs, rest) && rest == WireAll(fs)
    ensures fs == []
  {
    hide Octets;
  }

  // While something waits, a caller with room is given some of it, so draining ends.
  lemma Drains(max: nat, s: Socket, n: nat, segment: bytes)
    requires Pending(s) && n > 0
    ensures var r := Recv(max, s, n, segment);
      |r.out| == Min(n, |Waiting(s)|) > 0 && r.out + Waiting(r.s) == Waiting(s) && r.s.rx == s.rx
  {
    HandOutSplits(s, n);
  }

  // ---------------------------------------------------------------- exactly which clients survive

  lemma {:induction false} RunSnoc(max: nat, stream: bytes, x: Session, ts: seq<Turn>, t: Turn)
    requires x.pos <= |stream|
    ensures Run(max, stream, x, ts + [t]) == Step(max, stream, Run(max, stream, x, ts), t)
    decreases |ts|
  {
    hide Step;
    if ts == [] {
      assert [] + [t] == [t] && [t][1..] == [];
      assert Run(max, stream, Step(max, stream, x, t), []) == Step(max, stream, x, t);
    } else {
      assert (ts + [t])[1..] == ts[1..] + [t];
      RunSnoc(max, stream, Step(max, stream, x, ts[0]), ts[1..], t);
    }
  }

  // More frames take more bytes.
  lemma {:induction false} WireGrows(fs: seq<Frame>, a: nat, b: nat)
    requires a <= b <= |fs| && forall i | 0 <= i < |fs| :: Speaks(fs[i])
    ensures |WireAll(fs[..b])| >= |WireAll(fs[..a])| + 6 * (b - a)
    ensures b > a ==> |WireAll(fs[..b])| >= |WireAll(fs[..a])| + |Octets(fs[a])|
    ensures b == a + 1 ==> WireAll(fs[..b]) == WireAll(fs[..a]) + Octets(fs[a])
    decreases b
  {
    hide WireAll, HeadBytes, Masked;
    if a < b {
      WireGrows(fs, a, b - 1);
      assert fs[..b] == fs[..b - 1] + [fs[b - 1]];
      Split(fs[..b - 1], [fs[b - 1]]);
      Single(fs[b - 1]);
      assert Speaks(fs[b - 1]);
    }
  }

  // How many frames have been taken is determined by how much has arrived.
  lemma Where(fs: seq<Frame>, k: nat, x: Session, i: nat)
    requires Tracks(fs, k, x) && i <= |fs| && forall i | 0 <= i < |fs| :: Speaks(fs[i])
    requires |WireAll(fs[..i])| <= x.pos && (i < |fs| ==> x.pos < |WireAll(fs[..i])| + |Octets(fs[i])|)
    ensures k == i && x.pos == |WireAll(fs[..i])| + |x.s.rx|
  {
    hide WireAll, Octets, Payloads, Pongs, Lawful, Speaks, Waiting;
    if k < i {
      WireGrows(fs, k, i);
    } else if i < k {
      WireGrows(fs, i, k);
    }
  }

  // One more byte of a frame within the cap, with nothing waiting, leaves room.
  lemma RoomForByte(max: nat, d: Dec, fs: seq<Frame>, b: bytes)
    requires fs != [] && (forall i | 0 <= i < |fs| :: Speaks(fs[i])) && |fs[0].payload| <= max && d.msg == []
    requires |b| <= |Octets(fs[0])|
    ensures Room(max, d, fs, b)
  {
    hide WireAll, Payloads, Octets, Speaks;
    NoFrames();
    assert fs[..0] == [];
    forall k | 0 <= k <= |fs| ensures k > 0 ==> |WireAll(fs[..k])| >= |Octets(fs[0])| + 6 * (k - 1) {
      if k > 0 { WireGrows(fs, 0, 1); WireGrows(fs, 1, k); }
    }
    assert fs[..1] == [fs[0]];
    Single(fs[0]);
  }

  // Byte by byte, with every message drained, any client whose frames are within the cap is served.
  lemma {:induction false} Trickle(max: nat, fs: seq<Frame>, m: nat, n: nat) returns (ts: seq<Turn>, k: nat)
    requires Lawful(fs, false) && m <= |fs| && (forall i | 0 <= i < m :: |fs[i].payload| <= max)
    requires n <= |WireAll(fs[..m])| <= |WireAll(fs)|
    ensures var x := Run(max, WireAll(fs), BEGIN, ts); Tracks(fs, k, x) && x.pos == n && !Pending(x.s)
    decreases n
  {
    hide Step, WireAll, Settled, Payloads, Pongs, Waiting, Room, Ordered, Speaks, Tracks;
    var w := WireAll(fs);
    if n == 0 {
      ts, k := [], 0;
      Begins(fs);
    } else {
      var before: seq<Turn>;
      before, k := Trickle(max, fs, m, n - 1);
      var x := Run(max, w, BEGIN, before);
      var t := Turn(0, 1);
      k := TrickleByte(max, fs, m, k, x);
      RunSnoc(max, w, BEGIN, before, t);
      ts := before + [t];
      var y := Step(max, w, x, t);
      if Pending(y.s) {
        var u := Turn(|Waiting(y.s)|, 0);
        TrickleDrain(max, fs, k, y);
        RunSnoc(max, w, BEGIN, ts, u);
        ts := ts + [u];
      }
    }
  }

  lemma TrickleByte(max: nat, fs: seq<Frame>, m: nat, k: nat, x: Session) returns (j: nat)
    requires Lawful(fs, false) && m <= |fs| && (forall i | 0 <= i < m :: |fs[i].payload| <= max)
    requires Tracks(fs, k, x) && !Pending(x.s) && x.pos < |WireAll(fs[..m])| <= |WireAll(fs)|
    ensures var y := Step(max, WireAll(fs), x, Turn(0, 1)); Tracks(fs, j, y) && y.pos == x.pos + 1
  {
    hide WireAll, Payloads, Pongs, Waiting, Room, Ordered, Speaks, Recv, Octets;
    if k >= m { WireGrows(fs, m, k); }
    assert k < m;
    var rest := fs[k..];
    assert rest[0] == fs[k];
    RestBounded(max, rest, x.s.dec.open, x.s.rx);
    var t := Turn(0, 1);
    RoomForByte(max, x.s.dec, rest, Batch(WireAll(fs), x, t));
    j := TracksStep(max, fs, k, x, t);
  }

  lemma TrickleDrain(max: nat, fs: seq<Frame>, k: nat, y: Session)
    requires Tracks(fs, k, y) && Pending(y.s)
    ensures y.pos <= |WireAll(fs)|
    ensures var z := Step(max, WireAll(fs), y, Turn(|Waiting(y.s)|, 0));
      Tracks(fs, k, z) && z.pos == y.pos && !Pending(z.s)
  {
    hide HandOut, Lawful, Settled, WireAll, Payloads, Pongs;
    var n := |Waiting(y.s)|;
    TracksHandOut(fs, k, y, n);
    Drains(max, y.s, n, []);
    var r := HandOut(y.s, n);
    assert |r.out| + |Waiting(r.s)| == n;
  }

  lemma PrefixWire(fs: seq<Frame>, m: nat)
    requires m <= |fs|
    ensures |WireAll(fs[..m])| <= |WireAll(fs)| && WireAll(fs)[..|WireAll(fs[..m])|] == WireAll(fs[..m])
  {
    hide WireAll, Payloads, Pongs;
    assert fs == fs[..m] + fs[m..];
    Split(fs[..m], fs[m..]);
  }

  // Frames whose data does not fit together end the connection if they arrive together.
  lemma Kills(max: nat, fs: seq<Frame>, i: nat, j: nat) returns (ts: seq<Turn>)
    requires Lawful(fs, false) && (forall k | 0 <= k < |fs| :: |fs[k].payload| <= max)
    requires i < j <= |fs| && !PairFits(max, fs, i, j)
    ensures !Run(max, WireAll(fs), BEGIN, ts).s.alive
  {
    hide Step, WireAll, Settled, Payloads, Pongs, Waiting, Ordered, Speaks, Tracks, Octets;
    var w := WireAll(fs);
    WireGrows(fs, i, i + 1);
    PrefixWire(fs, i + 1);
    OctetsSize(fs[i]);
    var n := |WireAll(fs[..i])| + |Octets(fs[i])| - 1;
    var before, k := Trickle(max, fs, i + 1, n);
    var x := Run(max, w, BEGIN, before);
    Where(fs, k, x, i);
    var t := Turn(0, 1 + |WireAll(fs[i + 1..j])|);
    KillingRead(max, fs, i, j, x, t);
    RunSnoc(max, w, BEGIN, before, t);
    ts := before + [t];
  }

  lemma OctetsSize(f: Frame)
    requires Speaks(f)
    ensures 6 <= |Octets(f)| <= 14 + |f.payload|
  {
    hide HeadBytes, Masked;
  }

  lemma KillingRead(max: nat, fs: seq<Frame>, i: nat, j: nat, x: Session, t: Turn)
    requires Lawful(fs, false) && (forall k | 0 <= k < |fs| :: |fs[k].payload| <= max)
    requires i < j <= |fs| && !PairFits(max, fs, i, j)
    requires Tracks(fs, i, x) && !Pending(x.s) && x.pos == |WireAll(fs[..i])| + |Octets(fs[i])| - 1
    requires t == Turn(0, 1 + |WireAll(fs[i + 1..j])|)
    ensures x.pos <= |WireAll(fs)| && !Step(max, WireAll(fs), x, t).s.alive
  {
    hide WireAll, Settled, Payloads, Pongs, Waiting, Ordered, Speaks, Octets, DecodeAll;
    var w, part := WireAll(fs), fs[i..j];
    RestBounded(max, fs[i..], x.s.dec.open, x.s.rx) by { assert fs[i..][0] == fs[i]; }
    assert fs[..j] == fs[..i] + part && part == [fs[i]] + fs[i + 1..j];
    Split(fs[..i], part);
    Split([fs[i]], fs[i + 1..j]);
    Single(fs[i]);
    PrefixWire(fs, j);
    var n := |WireAll(fs[i + 1..j])| + 1;
    assert x.pos + n == |WireAll(fs[..j])|;
    var segment := Arrival(w, x.pos, t.offer);
    assert segment == w[x.pos..x.pos + n];
    assert w[..x.pos + n] == w[..x.pos] + segment;
    assert WireAll(fs[..i]) + WireAll(part) == WireAll(fs[..i]) + (x.s.rx + segment);
    Cancel(WireAll(fs[..i]), WireAll(part), x.s.rx + segment);
    LawfulPart(fs, i, j, x.s.dec.open);
    DecodeDies(max, x.s.dec, part);
  }

  lemma Cancel(a: bytes, b: bytes, c: bytes)
    requires a + b == a + c
    ensures b == c
  {
    assert b == (a + b)[|a|..] == (a + c)[|a|..] == c;
  }

  lemma {:induction false} LawfulPrefix(fs: seq<Frame>, n: nat, open: bool)
    requires Lawful(fs, open) && n <= |fs|
    ensures Lawful(fs[..n], open)
    decreases n
  {
    hide Speaks;
    if n > 0 {
      assert Lawful(fs[1..], OpenAfter(fs[0], open)) by { FirstFrame(fs, open); }
      LawfulPrefix(fs[1..], n - 1, OpenAfter(fs[0], open));
      assert fs[..n][1..] == fs[1..][..n - 1];
    }
  }

  lemma LawfulPart(fs: seq<Frame>, i: nat, j: nat, open: bool)
    requires i <= j <= |fs| && Lawful(fs[i..], open)
    ensures Lawful(fs[i..j], open)
  {
    hide Lawful;
    LawfulPrefix(fs[i..], j - i, open);
    assert fs[i..][..j - i] == fs[i..j];
  }

  // A frame above the cap ends the connection as soon as its length is known.
  lemma KillsBig(max: nat, fs: seq<Frame>, i: nat) returns (ts: seq<Turn>)
    requires Lawful(fs, false) && i < |fs| && (forall k | 0 <= k < i :: |fs[k].payload| <= max) && |fs[i].payload| > max
    ensures !Run(max, WireAll(fs), BEGIN, ts).s.alive
  {
    hide Step, WireAll, Settled, Payloads, Pongs, Waiting, Ordered, Speaks, Tracks, Octets;
    var w := WireAll(fs);
    PrefixWire(fs, i);
    OctetsSize(fs[i]);
    var before, k := Trickle(max, fs, i, |WireAll(fs[..i])|);
    var x := Run(max, w, BEGIN, before);
    Where(fs, k, x, i);
    assert Expressible(fs[i]) by { assert Speaks(fs[i]); SpeaksIs(fs[i]); }
    var t := Turn(0, |HeadBytes(fs[i])|);
    BigRead(max, fs, i, x, t);
    RunSnoc(max, w, BEGIN, before, t);
    ts := before + [t];
  }

  lemma SpeaksIs(f: Frame)
    requires Speaks(f)
    ensures Expressible(f) && Octets(f) == Wire(f)
  {
  }

  lemma BigRead(max: nat, fs: seq<Frame>, i: nat, x: Session, t: Turn)
    requires Lawful(fs, false) && i < |fs| && |fs[i].payload| > max && Expressible(fs[i])
    requires Tracks(fs, i, x) && !Pending(x.s) && x.pos == |WireAll(fs[..i])| && x.s.rx == []
    requires t == Turn(0, |HeadBytes(fs[i])|)
    ensures x.pos <= |WireAll(fs)| && !Step(max, WireAll(fs), x, t).s.alive
  {
    hide WireAll, Settled, Payloads, Pongs, Waiting, Ordered, Speaks, HeadBytes, ReadHead, Masked, Expressible;
    var w, h := WireAll(fs), HeadBytes(fs[i]);
    WireGrows(fs, i, i + 1);
    PrefixWire(fs, i + 1);
    assert Octets(fs[i]) == Wire(fs[i]);
    assert w[x.pos..x.pos + |h|] == Wire(fs[i])[..|h|] == h by {
      assert w[..|WireAll(fs[..i + 1])|] == WireAll(fs[..i]) + Wire(fs[i]);
    }
    var segment := Arrival(w, x.pos, t.offer);
    assert segment == h && [] + h == h;
    HeadRefused(max, fs[i]);
  }

  lemma {:induction false} FirstBig(max: nat, fs: seq<Frame>, n: nat) returns (i: nat)
    requires n < |fs| && |fs[n].payload| > max
    ensures i <= n && |fs[i].payload| > max && forall k | 0 <= k < i :: |fs[k].payload| <= max
    decreases n
  {
    i := n;
    if k :| 0 <= k < n && |fs[k].payload| > max { i := FirstBig(max, fs, k); }
  }

  // The clients that survive every segmentation and all buffer sizes are exactly those whose frames are
  // within the cap, each and together with all that one read can complete after it.
  lemma SurvivesExactly(max: nat, fs: seq<Frame>)
    requires Lawful(fs, false)
    ensures (forall ts :: Run(max, WireAll(fs), BEGIN, ts).s.alive) <==> Roomy(max, fs)
  {
    hide Run, Lawful, WireAll, PairFits;
    if Roomy(max, fs) {
      forall ts ensures Run(max, WireAll(fs), BEGIN, ts).s.alive { DeliveredInOrder(max, fs, ts); }
    } else if n :| 0 <= n < |fs| && |fs[n].payload| > max {
      var i := FirstBig(max, fs, n);
      var ts := KillsBig(max, fs, i);
    } else {
      var i, j :| 0 <= i < j <= |fs| && !PairFits(max, fs, i, j);
      var ts := Kills(max, fs, i, j);
    }
  }

  // So the fate of two messages, each within the cap, can depend on how they arrive: the same two frames
  // are delivered by one sequence of reads and end the connection by another.
  lemma CapIsPerBatch(max: nat, f: Frame, g: Frame) returns (lives: seq<Turn>, dies: seq<Turn>)
    requires Expressible(f) && f.opcode == BINARY && f.fin && |f.payload| <= max
    requires Expressible(g) && g.opcode == BINARY && g.fin && |g.payload| <= max
    requires |f.payload| + |g.payload| > max && |Wire(g)| < READ_CHUNK
    ensures var w, x := WireAll([f, g]), Run(max, WireAll([f, g]), BEGIN, lives);
      x.s.alive && x.pos == |w| && x.out == f.payload + g.payload
    ensures !Run(max, WireAll([f, g]), BEGIN, dies).s.alive
  {
    hide Run, WireAll, Payloads, Pongs, Expressible, Wire, Tracks;
    var fs := [f, g];
    TwoMessages(f, g);
    assert fs[..2] == fs;
    var k: nat;
    lives, k := Trickle(max, fs, 2, |WireAll(fs)|);
    Delivered(fs, k, Run(max, WireAll(fs), BEGIN, lives));
    assert Run(max, WireAll(fs), BEGIN, lives).s.alive by { StillAlive(fs, k, Run(max, WireAll(fs), BEGIN, lives)); }
    dies := Kills(max, fs, 0, 2);
  }

  lemma StillAlive(fs: seq<Frame>, k: nat, x: Session)
    requires Tracks(fs, k, x)
    ensures x.s.alive
  {
  }

  lemma TwoMessages(f: Frame, g: Frame)
    requires Expressible(f) && f.opcode == BINARY && f.fin && Expressible(g) && g.opcode == BINARY && g.fin
    ensures var fs := [f, g];
      && Lawful(fs, false) && Payloads(fs) == f.payload + g.payload && fs[0..2] == fs
      && fs[1..2] == [g] && WireAll([g]) == Wire(g)
  {
    hide Expressible, Wire;
    var fs := [f, g];
    assert fs == [f] + [g] && fs[1..] == [g] && [g][1..] == [];
    Split([f], [g]);
    Single(f);
    Single(g);
    assert Ordered([g], false) && Ordered([], false);
  }
}
