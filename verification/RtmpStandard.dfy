/**
  The chunk parser against the timestamps of RTMP 1.0 itself.

  Section 5.3.1.2.4 lets a type 3 header that starts a message repeat the last delta, and says that after
  a type 0 header this delta is the type 0 timestamp. The parser keeps a delta of zero there
  (videortmp.cpp:540-556). This module has a sender that follows the standard, says for every such
  sender what the parser makes of it, and proves exactly when the two agree.
 */
module RtmpStandard {
  import opened Bytes
  import opened Numbers
  import opened StreamDecoder
  import opened RtmpDemux
  import opened RtmpSender

  // ---------------------------------------------------------------- one header

  // The standard's view of a chunk stream: the last timestamp, the delta a type 3 start would add, and
  // whether that delta is a type 0 timestamp.
  datatype Clock = Clock(ts: nat, delta: nat, zero: bool)

  // The value a header of type 0, 1 or 2 carries, extended or not.
  function TimeField(c: ChunkStream, fmt: nat, h: bytes): nat
    requires fmt <= 2 && ReadHead(c, fmt, h).Head?
  {
    var mh := HeadSize(fmt);
    if BE24(h[0], h[1], h[2]) == SATURATED then BE32(h[mh], h[mh + 1], h[mh + 2], h[mh + 3])
    else BE24(h[0], h[1], h[2])
  }

  function StandardRead(k: Clock, c: ChunkStream, fmt: nat, h: bytes): Clock
    requires ReadHead(c, fmt, h).Head?
  {
    if fmt == 0 then Clock(TimeField(c, 0, h), TimeField(c, 0, h), true)
    else if fmt <= 2 then Clock((k.ts + TimeField(c, fmt, h)) % WRAP, TimeField(c, fmt, h), false)
    else if c.acc == [] then k.(ts := (k.ts + k.delta) % WRAP)
    else k
  }

  // Parser and standard are at the same time, and agree on the delta unless it is a type 0 timestamp.
  predicate InTime(k: Clock, c: ChunkStream)
  {
    k.ts == c.ts < WRAP && k.delta < WRAP && c.delta == if k.zero then 0 else k.delta
  }

  // For every header in bytes, of all four types, extended or not: the parser's timestamp is the
  // standard's exactly unless the header is a type 3 start after a type 0 header of nonzero timestamp.
  lemma HeaderTime(k: Clock, c: ChunkStream, fmt: nat, h: bytes)
    requires InTime(k, c) && fmt <= 3 && ReadHead(c, fmt, h).Head?
    ensures var n, s := ReadHead(c, fmt, h).stream, StandardRead(k, c, fmt, h);
      && (n.ts == s.ts <==> !(fmt == 3 && c.acc == [] && k.zero && k.delta != 0))
      && (n.ts == s.ts ==> InTime(s, n))
  {
    hide BE24, BE32;
    if fmt == 3 && c.acc == [] { AddTime(c.ts, k.delta); }
  }

  lemma AddTime(ts: nat, delta: nat)
    requires ts < WRAP && delta < WRAP
    ensures (ts + delta) % WRAP == ts <==> delta == 0
    ensures (ts + 0) % WRAP == ts
    ensures Delta(ts, (ts + delta) % WRAP) == delta
  {
    if ts + delta >= WRAP { assert (ts + delta) % WRAP == ts + delta - WRAP; }
  }

  // ---------------------------------------------------------------- the standard's sender

  // `s.known[i].delta` is the standard's delta; `zero` the streams where it is a type 0 timestamp.
  datatype Standard = Standard(s: Sender, zero: set<nat>)

  function StandardSent(x: Standard, a: Send): Standard
    requires Legal(x.s, a)
  {
    var t, i := Sent(x.s, a), Stream(a);
    if a.Start? && a.fmt == 0 then
      Standard(t.(known := t.known[i := t.known[i].(delta := a.m.ts)]), x.zero + {i})
    else if a.Start? && a.fmt <= 2 then Standard(t, x.zero - {i})
    else Standard(t, x.zero)
  }

  predicate StandardLegal(x: Standard, acts: seq<Send>)
    decreases |acts|
  {
    acts == [] || (Legal(x.s, acts[0]) && StandardLegal(StandardSent(x, acts[0]), acts[1..]))
  }

  function StandardWire(x: Standard, acts: seq<Send>): bytes
    requires StandardLegal(x, acts)
    decreases |acts|
  {
    if acts == [] then [] else Wire(x.s, acts[0]) + StandardWire(StandardSent(x, acts[0]), acts[1..])
  }

  // The messages the sender means, in completion order, with their timestamps.
  function Meant(x: Standard, acts: seq<Send>): seq<Message>
    requires StandardLegal(x, acts)
    decreases |acts|
  {
    if acts == [] then [] else Done(x.s, acts[0]) + Meant(StandardSent(x, acts[0]), acts[1..])
  }

  function StandardFinal(x: Standard, acts: seq<Send>): Standard
    requires StandardLegal(x, acts)
    decreases |acts|
  {
    if acts == [] then x else StandardFinal(StandardSent(x, acts[0]), acts[1..])
  }

  // ---------------------------------------------------------------- what the parser hears

  // The timestamp the parser, having followed as r, gives the message a chunk starts.
  function HeardTime(s: Sender, r: Sender, a: Send): nat
    requires a.Start? && a.m.csid < 256 && a.m.ts < WRAP && s.known[a.m.csid].ts < WRAP
  {
    var c := r.known[a.m.csid];
    if a.fmt == 0 then a.m.ts
    else if a.fmt <= 2 then (c.ts + Delta(s.known[a.m.csid].ts, a.m.ts)) % WRAP
    else (c.ts + c.delta) % WRAP
  }

  // The same chunk as the parser takes it: all but the timestamp is what the sender meant.
  function Heard(s: Sender, r: Sender, a: Send): Send
    requires Legal(s, a)
  {
    if a.Start? then a.(m := a.m.(ts := HeardTime(s, r, a))) else a
  }

  predicate SameButTime(c: ChunkStream, d: ChunkStream)
  {
    c.len == d.len && c.kind == d.kind && c.sid == d.sid && c.extTs == d.extTs && c.acc == d.acc
  }

  // The parser has everything right except perhaps time.
  ghost predicate Follows(s: Sender, r: Sender)
  {
    && s.chunk == r.chunk && s.todo == r.todo
    && forall i | 0 <= i < 256 :: SameButTime(s.known[i], r.known[i])
  }

  lemma {:induction false} HeldSame(a: seq<ChunkStream>, b: seq<ChunkStream>)
    requires |a| == |b| && forall i | 0 <= i < |a| :: a[i].acc == b[i].acc
    ensures Held(a) == Held(b)
    decreases |a|
  {
    if a != [] { HeldSame(a[1..], b[1..]); }
  }

  lemma HeardTruthful(s: Sender, r: Sender, a: Send)
    requires Ready(s) && Ready(r) && Follows(s, r) && Legal(s, a) && a.Start?
    ensures var i, h := a.m.csid, Heard(s, r, a);
      && h.m.ts < WRAP && Truthful(r.known[i], h.m, a.fmt)
      && HeadBytes(r.known[i], h.m, a.fmt, a.ext) == HeadBytes(s.known[i], a.m, a.fmt, a.ext)
      && (a.fmt >= 1 ==> h.m.ts == (r.known[i].ts + if a.fmt == 3 then r.known[i].delta
                                                    else Delta(s.known[i].ts, a.m.ts)) % WRAP)
      && SameButTime(Announce(s.known[i], a.m, a.fmt), Announce(r.known[i], h.m, a.fmt))
  {
    hide PutBE24, PutBE32, Field24;
    var i := a.m.csid;
    assert Consistent(s.known[i], s.todo[i]) && Consistent(r.known[i], r.todo[i]);
    assert SameButTime(s.known[i], r.known[i]);
    if a.fmt == 3 {
      AddTime(r.known[i].ts, r.known[i].delta);
    } else if a.fmt >= 1 {
      AddTime(r.known[i].ts, Delta(s.known[i].ts, a.m.ts));
    }
  }

  // Whatever the standard's sender may send, the parser takes for a chunk of its own sender.
  lemma HeardLegal(s: Sender, r: Sender, a: Send)
    requires Ready(s) && Ready(r) && Follows(s, r) && Legal(s, a)
    ensures Legal(r, Heard(s, r, a)) && Wire(r, Heard(s, r, a)) == Wire(s, a)
    ensures Piece(r, Heard(s, r, a)) == Piece(s, a) && Rest(r, Heard(s, r, a)) == Rest(s, a)
  {
    hide HeadBytes, BasicBytes, Truthful, BE32;
    HeldSame(s.known, r.known) by {
      forall i | 0 <= i < 256 ensures s.known[i].acc == r.known[i].acc { assert SameButTime(s.known[i], r.known[i]); }
    }
    assert SameButTime(s.known[Stream(a)], r.known[Stream(a)]);
    if a.Start? {
      assert Consistent(r.known[Stream(a)], r.todo[Stream(a)]);
      HeardTruthful(s, r, a);
    }
  }

  lemma HeardWhole(s: Sender, r: Sender, a: Send)
    requires Ready(s) && Ready(r) && Follows(s, r) && Legal(s, a)
    ensures var w, v := Whole(s, a), Whole(r, Heard(s, r, a));
      && (w.Finished? <==> v.Finished?)
      && (w.Finished? ==> v.m == w.m.(ts := v.m.ts))
      && (w.Finished? && a.Continue? ==> w.m.ts == s.known[a.csid].ts && v.m.ts == r.known[a.csid].ts)
      && (w.Finished? && a.Start? ==> w.m.ts == a.m.ts && v.m.ts == HeardTime(s, r, a))
  {
    hide Truthful, BE32;
    assert SameButTime(s.known[Stream(a)], r.known[Stream(a)]);
  }

  lemma ObeyFollows(s: Sender, r: Sender, m: Message, n: Message)
    requires Follows(s, r) && n == m.(ts := n.ts)
    ensures Follows(Obey(s, m), Obey(r, n))
    ensures forall i | 0 <= i < 256 :: Obey(s, m).known[i] == s.known[i].(acc := Obey(s, m).known[i].acc)
    ensures forall i | 0 <= i < 256 :: Obey(r, n).known[i] == r.known[i].(acc := Obey(r, n).known[i].acc)
  {
    hide BE32;
    var p := m.payload;
    if m.kind == 2 && |p| >= 4 && BE32(p[0], p[1], p[2], p[3]) < 256 {
      var id := BE32(p[0], p[1], p[2], p[3]);
      assert SameButTime(s.known[id], r.known[id]);
    }
  }

  // Where stream i stands after a chunk: only its own time and delta are touched, and only by a start.
  function TimeAfter(s: Sender, a: Send, i: nat): (nat, nat)
    requires Legal(s, a) && i < 256
  {
    var c := if i == Stream(a) then Announced(s, a) else s.known[i];
    (c.ts, c.delta)
  }

  lemma SentTime(s: Sender, a: Send, i: nat)
    requires Ready(s) && Legal(s, a) && i < 256
    ensures (Sent(s, a).known[i].ts, Sent(s, a).known[i].delta) == TimeAfter(s, a, i)
  {
    hide Announced, Truthful, BE32, Held;
    var j, c, w := Stream(a), Announced(s, a), Whole(s, a);
    if w.Finished? {
      var t := s.(known := s.known[j := c.(acc := [])], todo := s.todo[j := []]);
      assert Follows(t, t);
      ObeyFollows(t, t, w.m, w.m);
      assert Obey(t, w.m).known[i] == t.known[i].(acc := Obey(t, w.m).known[i].acc);
    }
  }

  lemma HeardFollows(x: Standard, r: Sender, a: Send)
    requires Ready(x.s) && Ready(r) && Follows(x.s, r) && Legal(x.s, a)
    ensures Legal(r, Heard(x.s, r, a))
    ensures Follows(StandardSent(x, a).s, Sent(r, Heard(x.s, r, a)))
    ensures Ready(StandardSent(x, a).s) && Ready(Sent(r, Heard(x.s, r, a)))
  {
    hide Announced, Truthful, BE32, Held, Wire, Legal, Obey, Ready;
    var s, h := x.s, Heard(x.s, r, a);
    HeardLegal(s, r, a);
    StaysReady(r, h);
    StaysReady(s, a);
    SentFollows(s, r, a);
    DeltaOnly(x, a);
  }

  // The standard's delta after type 0 does not disturb the rest.
  lemma DeltaOnly(x: Standard, a: Send)
    requires Ready(x.s) && Legal(x.s, a) && Ready(Sent(x.s, a))
    ensures Ready(StandardSent(x, a).s)
    ensures forall r :: Follows(Sent(x.s, a), r) ==> Follows(StandardSent(x, a).s, r)
  {
    hide Sent, Truthful, ControlLegal, Held;
    var t, i := Sent(x.s, a), Stream(a);
    assert Consistent(t.known[i], t.todo[i]);
    forall r | Follows(t, r) ensures Follows(StandardSent(x, a).s, r) {
      assert SameButTime(t.known[i], r.known[i]);
    }
  }

  lemma LegalStream(s: Sender, a: Send)
    requires Legal(s, a)
    ensures Stream(a) < 256
  {
  }

  lemma SentFollows(s: Sender, r: Sender, a: Send)
    requires Ready(s) && Ready(r) && Follows(s, r) && Legal(s, a) && Legal(r, Heard(s, r, a))
    requires Piece(r, Heard(s, r, a)) == Piece(s, a) && Rest(r, Heard(s, r, a)) == Rest(s, a)
    ensures Follows(Sent(s, a), Sent(r, Heard(s, r, a)))
  {
    LegalStream(s, a);
    hide Truthful, BE32, Held, Legal, Obey, Ready, Announce, Piece, Rest, HeardTime;
    var h, i := Heard(s, r, a), Stream(a);
    AnnouncedSame(s, r, a);
    HeardWhole(s, r, a);
    var c, d := Announced(s, a), Announced(r, h);
    if Whole(s, a).Finished? {
      var t := s.(known := s.known[i := c.(acc := [])], todo := s.todo[i := []]);
      var u := r.(known := r.known[i := d.(acc := [])], todo := r.todo[i := []]);
      assert Follows(t, u);
      ObeyFollows(t, u, Whole(s, a).m, Whole(r, h).m);
    }
  }

  lemma AnnouncedSame(s: Sender, r: Sender, a: Send)
    requires Ready(s) && Ready(r) && Follows(s, r) && Legal(s, a) && Legal(r, Heard(s, r, a))
    ensures SameButTime(Announced(s, a), Announced(r, Heard(s, r, a)))
  {
    hide Truthful, Announce, HeadBytes, ControlLegal, Held;
    if a.Start? {
      HeardTruthful(s, r, a);
    } else {
      assert SameButTime(s.known[a.csid], r.known[a.csid]);
    }
  }

  // The parser's own view after all of it.
  ghost function HeardFinal(x: Standard, r: Sender, acts: seq<Send>): Sender
    requires StandardLegal(x, acts) && Ready(x.s) && Ready(r) && Follows(x.s, r)
    decreases |acts|
  {
    if acts == [] then r
    else HeardFollows(x, r, acts[0]); HeardFinal(StandardSent(x, acts[0]), Sent(r, Heard(x.s, r, acts[0])), acts[1..])
  }

  ghost function HeardAll(x: Standard, r: Sender, acts: seq<Send>): seq<Message>
    requires StandardLegal(x, acts) && Ready(x.s) && Ready(r) && Follows(x.s, r)
    decreases |acts|
  {
    if acts == [] then []
    else
      HeardFollows(x, r, acts[0]);
      Done(r, Heard(x.s, r, acts[0]))
      + HeardAll(StandardSent(x, acts[0]), Sent(r, Heard(x.s, r, acts[0])), acts[1..])
  }

  // For every sender that follows the standard, and everything it may send: the parser stays in step and
  // delivers every message, with the timestamps it hears.
  lemma {:induction false} StandardIsHeard(x: Standard, r: Sender, acts: seq<Send>, bytesIn: nat)
    requires StandardLegal(x, acts) && Ready(x.s) && Ready(r) && Follows(x.s, r)
    ensures Run(TakeChunk, Receiver(r, bytesIn), StandardWire(x, acts))
      == Session(true, Receiver(HeardFinal(x, r, acts), bytesIn + |StandardWire(x, acts)|), [], HeardAll(x, r, acts))
    decreases |acts|
  {
    hide TakeChunk, Wire, Sent, Done, Legal, Receiver, Heard, StandardSent, Ready, Follows;
    if acts == [] {
      NoBytesNoChunk(Receiver(r, bytesIn));
    } else {
      var a, y := acts[0], StandardSent(x, acts[0]);
      var h := Heard(x.s, r, a);
      var w, rest := Wire(x.s, a), StandardWire(y, acts[1..]);
      HeardLegal(x.s, r, a);
      HeardFollows(x, r, a);
      ChunkRoundTrip(r, h, bytesIn, rest);
      CommitMatches(r, h, bytesIn, |w|);
      WireNotEmpty(r, h);
      RunUnit(TakeChunk, Receiver(r, bytesIn), w + rest);
      assert (w + rest)[|w|..] == rest;
      StandardIsHeard(y, Sent(r, h), acts[1..], bytesIn + |w|);
    }
  }

  // ---------------------------------------------------------------- when the times agree

  // A type 3 start after a type 0 header of nonzero timestamp.
  predicate Departs(x: Standard, a: Send)
  {
    a.Start? && a.fmt == 3 && a.m.csid < 256 && a.m.csid in x.zero && x.s.known[a.m.csid].delta != 0
  }

  predicate NeverDeparts(x: Standard, acts: seq<Send>)
    requires StandardLegal(x, acts)
    decreases |acts|
  {
    acts == [] || (!Departs(x, acts[0]) && NeverDeparts(StandardSent(x, acts[0]), acts[1..]))
  }

  // All streams are at the standard's time.
  ghost predicate OnTime(s: Sender, r: Sender)
  {
    forall i | 0 <= i < 256 :: s.known[i].ts == r.known[i].ts
  }

  ghost predicate InStep(x: Standard, r: Sender)
  {
    forall i | 0 <= i < 256 ::
      InTime(Clock(x.s.known[i].ts, x.s.known[i].delta, i in x.zero), r.known[i])
  }

  lemma StandardTime(x: Standard, a: Send, i: nat)
    requires Ready(x.s) && Legal(x.s, a) && i < 256
    ensures var k := StandardSent(x, a).s.known[i];
      && k.ts == TimeAfter(x.s, a, i).0
      && k.delta == if i == Stream(a) && a.Start? && a.fmt == 0 then a.m.ts else TimeAfter(x.s, a, i).1
  {
    hide Sent, TimeAfter, Legal, Ready;
    SentTime(x.s, a, i);
  }

  // One chunk keeps a parser that is in step on time exactly unless it departs, and then in step.
  lemma StepTime(x: Standard, r: Sender, a: Send)
    requires Ready(x.s) && Ready(r) && Follows(x.s, r) && Legal(x.s, a) && InStep(x, r)
    requires Legal(r, Heard(x.s, r, a))
    ensures var y, t := StandardSent(x, a), Sent(r, Heard(x.s, r, a));
      && (OnTime(y.s, t) <==> !Departs(x, a))
      && (OnTime(y.s, t) ==> InStep(y, t))
  {
    hide Sent, StandardSent, Legal, Ready, Follows;
    var y, t, j := StandardSent(x, a), Sent(r, Heard(x.s, r, a)), Stream(a);
    forall i | 0 <= i < 256
      ensures i != j ==> y.s.known[i].ts == t.known[i].ts
      ensures i != j ==> InTime(Clock(y.s.known[i].ts, y.s.known[i].delta, i in y.zero), t.known[i])
    {
      StandardTime(x, a, i);
      SentTime(r, Heard(x.s, r, a), i);
      ZeroElsewhere(x, a, i);
      assert InTime(Clock(x.s.known[i].ts, x.s.known[i].delta, i in x.zero), r.known[i]);
    }
    StreamTime(x, r, a);
  }

  lemma ZeroElsewhere(x: Standard, a: Send, i: nat)
    requires Legal(x.s, a)
    ensures i != Stream(a) ==> (i in StandardSent(x, a).zero <==> i in x.zero)
    ensures i == Stream(a) ==> (i in StandardSent(x, a).zero <==>
      if a.Start? && a.fmt <= 2 then a.fmt == 0 else i in x.zero)
  {
    hide Sent, Legal;
  }

  // The stream the chunk belongs to.
  lemma StreamTime(x: Standard, r: Sender, a: Send)
    requires Ready(x.s) && Ready(r) && Follows(x.s, r) && Legal(x.s, a) && InStep(x, r)
    requires Legal(r, Heard(x.s, r, a))
    ensures var y, t, i := StandardSent(x, a), Sent(r, Heard(x.s, r, a)), Stream(a);
      && i < 256
      && (y.s.known[i].ts == t.known[i].ts <==> !Departs(x, a))
      && (y.s.known[i].ts == t.known[i].ts ==>
            InTime(Clock(y.s.known[i].ts, y.s.known[i].delta, i in y.zero), t.known[i]))
  {
    hide Sent, StandardSent, Follows, HeadBytes, ControlLegal, Held;
    var i, h := Stream(a), Heard(x.s, r, a);
    StandardTime(x, a, i);
    SentTime(r, h, i);
    ZeroElsewhere(x, a, i);
    assert InTime(Clock(x.s.known[i].ts, x.s.known[i].delta, i in x.zero), r.known[i]);
    if a.Start? { StartTime(x.s.known[i], r.known[i], i in x.zero, a.m.ts, a.fmt); }
  }

  // The arithmetic of one start: c is the standard's stream, d the parser's.
  lemma StartTime(c: ChunkStream, d: ChunkStream, zero: bool, ts: nat, fmt: nat)
    requires InTime(Clock(c.ts, c.delta, zero), d) && ts < WRAP && fmt <= 3
    requires fmt == 3 ==> Delta(c.ts, ts) == c.delta
    ensures var heard := if fmt == 0 then ts else if fmt <= 2 then (d.ts + Delta(c.ts, ts)) % WRAP
                         else (d.ts + d.delta) % WRAP;
      && (fmt <= 2 ==> heard == ts)
      && (fmt == 3 ==> (heard == ts <==> !(zero && c.delta != 0)))
      && (fmt == 1 || fmt == 2 ==> Delta(d.ts, heard) == Delta(c.ts, ts) < WRAP)
      && (fmt == 3 ==> Delta(d.ts, heard) == d.delta)
  {
    if fmt == 1 || fmt == 2 { AddTime(d.ts, Delta(c.ts, ts)); }
    if fmt == 3 {
      AddTime(d.ts, d.delta);
      AddTime(c.ts, c.delta);
    }
  }

  ghost predicate OnTimeAfter(x: Standard, r: Sender, acts: seq<Send>, k: nat)
    requires k <= |acts| && Ready(x.s) && Ready(r) && Follows(x.s, r)
  {
    StandardLegal(x, acts[..k]) && OnTime(StandardFinal(x, acts[..k]).s, HeardFinal(x, r, acts[..k]))
  }

  lemma {:induction false} PrefixLegal(x: Standard, acts: seq<Send>, k: nat)
    requires StandardLegal(x, acts) && k <= |acts|
    ensures StandardLegal(x, acts[..k])
    decreases |acts|
  {
    hide Legal, StandardSent;
    if k > 0 {
      PrefixLegal(StandardSent(x, acts[0]), acts[1..], k - 1);
      assert acts[..k][1..] == acts[1..][..k - 1];
    }
  }

  lemma OnTimeLater(x: Standard, r: Sender, acts: seq<Send>, k: nat)
    requires 0 < k <= |acts| && StandardLegal(x, acts) && Ready(x.s) && Ready(r) && Follows(x.s, r)
    ensures Legal(r, Heard(x.s, r, acts[0]))
    ensures var y, t := StandardSent(x, acts[0]), Sent(r, Heard(x.s, r, acts[0]));
      && Ready(y.s) && Ready(t) && Follows(y.s, t)
      && (OnTimeAfter(x, r, acts, k) <==> OnTimeAfter(y, t, acts[1..], k - 1))
  {
    hide Legal, StandardSent, Sent, Heard, Ready, Follows, OnTime;
    HeardFollows(x, r, acts[0]);
    PrefixLegal(x, acts, k);
    assert acts[..k][0] == acts[0] && acts[..k][1..] == acts[1..][..k - 1];
  }

  // At every point of what a standard's sender sends, all timestamps the parser holds are the
  // standard's, exactly when no chunk is a type 3 start after a type 0 header of nonzero timestamp.
  lemma {:induction false} TimesExactly(x: Standard, r: Sender, acts: seq<Send>)
    requires StandardLegal(x, acts) && Ready(x.s) && Ready(r) && Follows(x.s, r) && InStep(x, r)
    ensures NeverDeparts(x, acts) <==> forall k | 0 <= k <= |acts| :: OnTimeAfter(x, r, acts, k)
    ensures NeverDeparts(x, acts) ==> HeardAll(x, r, acts) == Meant(x, acts)
    decreases |acts|
  {
    hide Legal, StandardSent, Sent, Heard, Ready, Follows, OnTime, InStep, Departs, Done;
    assert OnTimeAfter(x, r, acts, 0) by { assert acts[..0] == []; StillOnTime(x, r); }
    if acts != [] {
      var a := acts[0];
      HeardFollows(x, r, a);
      var y, t, rest := StandardSent(x, a), Sent(r, Heard(x.s, r, a)), acts[1..];
      StepTime(x, r, a);
      forall k | 1 <= k <= |acts| ensures OnTimeAfter(x, r, acts, k) <==> OnTimeAfter(y, t, rest, k - 1) {
        OnTimeLater(x, r, acts, k);
      }
      assert OnTimeAfter(y, t, rest, 0) <==> OnTime(y.s, t) by { assert rest[..0] == []; }
      if OnTime(y.s, t) {
        TimesExactly(y, t, rest);
        DoneOnTime(x, r, a);
        if forall k | 0 <= k <= |acts| :: OnTimeAfter(x, r, acts, k) {
          forall k | 0 <= k <= |rest| ensures OnTimeAfter(y, t, rest, k) { assert OnTimeAfter(x, r, acts, k + 1); }
        }
        if forall k | 0 <= k <= |rest| :: OnTimeAfter(y, t, rest, k) {
          forall k | 0 <= k <= |acts| ensures OnTimeAfter(x, r, acts, k) {
            if k > 0 { assert OnTimeAfter(y, t, rest, k - 1); }
          }
        }
      } else {
        assert !OnTimeAfter(x, r, acts, 1);
      }
    }
  }

  lemma StillOnTime(x: Standard, r: Sender)
    requires InStep(x, r)
    ensures OnTime(x.s, r)
  {
    forall i | 0 <= i < 256 ensures x.s.known[i].ts == r.known[i].ts {
      assert InTime(Clock(x.s.known[i].ts, x.s.known[i].delta, i in x.zero), r.known[i]);
    }
  }

  lemma DoneOnTime(x: Standard, r: Sender, a: Send)
    requires Ready(x.s) && Ready(r) && Follows(x.s, r) && Legal(x.s, a) && InStep(x, r)
    requires Legal(r, Heard(x.s, r, a)) && OnTime(StandardSent(x, a).s, Sent(r, Heard(x.s, r, a)))
    ensures Done(r, Heard(x.s, r, a)) == Done(x.s, a)
  {
    LegalStream(x.s, a);
    hide Legal, StandardSent, Sent, Ready, Follows, InStep, HeardTime, Whole;
    HeardWhole(x.s, r, a);
    StillOnTime(x, r);
    if a.Start? { StartOnTime(x, r, a); }
  }

  lemma StartOnTime(x: Standard, r: Sender, a: Send)
    requires Ready(x.s) && Ready(r) && Follows(x.s, r) && Legal(x.s, a) && a.Start?
    requires Legal(r, Heard(x.s, r, a)) && OnTime(StandardSent(x, a).s, Sent(r, Heard(x.s, r, a)))
    ensures a.m.csid < 256 && HeardTime(x.s, r, a) == a.m.ts
  {
    hide StandardSent, Sent, Ready, Follows, HeardTime, Held, ControlLegal, Truthful;
    StandardTime(x, a, a.m.csid);
    SentTime(r, Heard(x.s, r, a), a.m.csid);
  }

  // ---------------------------------------------------------------- from the first byte

  const NOTHING_DUE: Todos := seq(256, _ => [])

  // The sender of a new connection.
  const SILENT: Sender := Sender(DEFAULT_CHUNK, ALL_IDLE, NOTHING_DUE)

  lemma SilentReady()
    ensures Ready(SILENT) && Follows(SILENT, SILENT) && InStep(Standard(SILENT, {}), SILENT)
    ensures Receiver(SILENT, 0) == FRESH
  {
    IdleHoldsNothing(ALL_IDLE);
  }

  // On a new connection, every sender that follows the standard and never starts a message with a type 3
  // header after a type 0 header of nonzero timestamp is understood completely; and the parser holds the
  // standard's timestamps throughout only for such a sender.
  lemma StandardSentIsReceived(acts: seq<Send>)
    requires StandardLegal(Standard(SILENT, {}), acts)
    ensures var x := Standard(SILENT, {});
      var r := Run(TakeChunk, FRESH, StandardWire(x, acts));
      && r.alive && r.held == [] && |r.events| == |Meant(x, acts)|
      && (NeverDeparts(x, acts) ==> r.events == Meant(x, acts))
    ensures var x := Standard(SILENT, {});
      Ready(SILENT) && Follows(SILENT, SILENT)
      && (NeverDeparts(x, acts) <==> forall k | 0 <= k <= |acts| :: OnTimeAfter(x, SILENT, acts, k))
  {
    hide TakeChunk, Run, Ready, Follows, InStep, NeverDeparts, StandardLegal, OnTimeAfter;
    SilentReady();
    var x := Standard(SILENT, {});
    StandardIsHeard(x, SILENT, acts, 0);
    TimesExactly(x, SILENT, acts);
    AsMany(x, SILENT, acts);
  }

  lemma {:induction false} AsMany(x: Standard, r: Sender, acts: seq<Send>)
    requires StandardLegal(x, acts) && Ready(x.s) && Ready(r) && Follows(x.s, r)
    ensures |HeardAll(x, r, acts)| == |Meant(x, acts)|
    decreases |acts|
  {
    hide Legal, StandardSent, Sent, Heard, Ready, Follows, Whole;
    if acts != [] {
      HeardFollows(x, r, acts[0]);
      HeardWhole(x.s, r, acts[0]);
      AsMany(StandardSent(x, acts[0]), Sent(r, Heard(x.s, r, acts[0])), acts[1..]);
    }
  }

  // ---------------------------------------------------------------- an input on which they part

  // One audio message under a type 0 header with timestamp t, and a second under a type 3 header.
  function TwoMessages(t: nat): bytes
  {
    [4] + PutBE24(t) + [0, 0, 1, 8, 0, 0, 0, 0] + [1] + [196] + [2]
  }

  function Audio(ts: nat, b: byte): Message
  {
    Message(4, 8, ts, 0, [b])
  }

  // The sender s after whole audio messages of one byte on stream 4, with time and delta as given.
  function Afterwards(s: Sender, t: nat, delta: nat): Sender
  {
    s.(known := s.known[4 := ChunkStream(t, delta, 1, 8, 0, false, [])])
  }

  lemma FixedFields()
    ensures PutBE24(1) == [0, 0, 1] && Reverse4(PutBE32(0)) == [0, 0, 0, 0]
  {
    hide PutBE32, PutBE24;
    BE32Put(0, 0, 0, 0);
    assert BE32(0, 0, 0, 0) == 0;
    var p := PutBE24(1);
    assert BE24(p[0], p[1], p[2]) == 1;
    assert p[0] == 0 && p[1] == 0 && p[2] == 1;
  }

  lemma FirstHeader(t: nat)
    requires t < SATURATED
    ensures HeadBytes(IDLE, Audio(t, 1), 0, 0) == PutBE24(t) + [0, 0, 1, 8, 0, 0, 0, 0]
  {
    hide PutBE24, PutBE32, Reverse4;
    FixedFields();
    var p: bytes := PutBE24(t);
    assert p + [0, 0, 1] + [8] + [0, 0, 0, 0] + [] == p + [0, 0, 1, 8, 0, 0, 0, 0];
  }

  lemma FirstMessage(t: nat)
    requires t < SATURATED
    ensures var a := Start(Audio(t, 1), 0, false, 0);
      && Legal(SILENT, a) && Wire(SILENT, a) == [4] + PutBE24(t) + [0, 0, 1, 8, 0, 0, 0, 0] + [1]
      && Sent(SILENT, a) == Afterwards(SILENT, t, 0) && Done(SILENT, a) == [Audio(t, 1)]
  {
    hide Held, HeadBytes, PutBE24;
    IdleHoldsNothing(ALL_IDLE);
    var a := Start(Audio(t, 1), 0, false, 0);
    assert Rest(SILENT, a) == [1] && Piece(SILENT, a) == [1];
    assert SILENT.todo[4 := []] == SILENT.todo;
    FirstHeader(t);
  }

  lemma SecondMessage(t: nat, delta: nat)
    requires t < SATURATED && delta < SATURATED
    ensures var s, a := Afterwards(SILENT, t, delta), Start(Audio(t + delta, 2), 3, false, 0);
      && Legal(s, a) && Wire(s, a) == [196] + [2]
      && Sent(s, a) == Afterwards(SILENT, t + delta, delta) && Done(s, a) == [Audio(t + delta, 2)]
  {
    hide Held;
    IdleHoldsNothing(ALL_IDLE);
    var s, a := Afterwards(SILENT, t, delta), Start(Audio(t + delta, 2), 3, false, 0);
    HeldUpdate(ALL_IDLE, 4, s.known[4]);
    assert Rest(s, a) == [2] && Piece(s, a) == [2];
    assert s.todo[4 := []] == s.todo;
    assert s.known[4 := Announced(s, a)] == Afterwards(SILENT, t + delta, delta).known;
  }

  // The parser gives the second message the timestamp t. The standard's is 2t, the same only if t is 0.
  lemma TypeThreeRepeats(t: nat)
    requires t < SATURATED
    ensures Run(TakeChunk, FRESH, TwoMessages(t)).events == [Audio(t, 1), Audio(t, 2)]
    ensures var x := Standard(SILENT, {});
      var acts := [Start(Audio(t, 1), 0, false, 0), Start(Audio(2 * t, 2), 3, false, 0)];
      && StandardLegal(x, acts) && StandardWire(x, acts) == TwoMessages(t)
      && Meant(x, acts) == [Audio(t, 1), Audio(2 * t, 2)]
  {
    hide Legal, Wire, Sent, Done, TakeChunk, Run, StandardLegal, StandardWire, Meant, TwoMessages;
    MeantTwice(t);
    HeardTwice(t);
  }

  lemma MeantTwice(t: nat)
    requires t < SATURATED
    ensures var x := Standard(SILENT, {});
      var acts := [Start(Audio(t, 1), 0, false, 0), Start(Audio(2 * t, 2), 3, false, 0)];
      && StandardLegal(x, acts) && StandardWire(x, acts) == TwoMessages(t)
      && Meant(x, acts) == [Audio(t, 1), Audio(2 * t, 2)]
  {
    hide Legal, Wire, Sent, Done, PutBE24;
    var x := Standard(SILENT, {});
    var a, b := Start(Audio(t, 1), 0, false, 0), Start(Audio(2 * t, 2), 3, false, 0);
    FirstMessage(t);
    SecondMessage(t, t);
    assert StandardSent(x, a) == Standard(Afterwards(SILENT, t, t), {4}) by {
      var c := ChunkStream(t, t, 1, 8, 0, false, []);
      assert Afterwards(SILENT, t, 0).known[4 := c] == Afterwards(SILENT, t, t).known;
    }
    var y := StandardSent(x, a);
    assert [a, b][1..] == [b] && [b][1..] == [];
    assert StandardLegal(y, [b]) && StandardWire(y, [b]) == [196] + [2] && Meant(y, [b]) == [Audio(2 * t, 2)];
  }

  lemma HeardTwice(t: nat)
    requires t < SATURATED
    ensures Run(TakeChunk, FRESH, TwoMessages(t)).events == [Audio(t, 1), Audio(t, 2)]
  {
    hide Legal, Wire, Sent, Done, PutBE24, TakeChunk, Run, Ready;
    var a, b := Start(Audio(t, 1), 0, false, 0), Start(Audio(t, 2), 3, false, 0);
    FirstMessage(t);
    SecondMessage(t, 0);
    var s := Afterwards(SILENT, t, 0);
    assert [a, b][1..] == [b] && [b][1..] == [];
    assert AllLegal(Sent(s, b), []) && WireAll(Sent(s, b), []) == [] && DoneAll(Sent(s, b), []) == [];
    assert AllLegal(s, [b]) && WireAll(s, [b]) == [196] + [2] && DoneAll(s, [b]) == [Audio(t, 2)];
    SilentReady();
    assert WireAll(SILENT, [a, b]) == TwoMessages(t);
    SentIsReceived(SILENT, [a, b], 0);
  }
}
