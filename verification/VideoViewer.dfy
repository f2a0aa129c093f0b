/**
  A viewer fed from the ring over plain TCP or HTTP (videoview.cpp, begin_stream, flush and
  on_writable). Sockets take what they like of each write; the publisher keeps writing meanwhile.

  `Watch` is the theorem: whatever the interleaving, what the viewer's connection has carried is the
  first part of response, codec prefix and the stream from its anchor on, without a gap.
 */
module VideoViewer {
  import opened Bytes
  import opened Numbers
  import opened VideoRing

  const WRITE_CHUNK := 65536
  const PIECE := 16384
  const STUCK_S := 10

  // How a socket answers one send.
  datatype Answer = Takes(n: nat) | Again | Interrupted | Broken

  datatype Outcome = Wrote(n: nat) | WouldBlock | TryAgain | Failed

  // The socket: the answers it will give, and after them it takes everything if it is open and nothing if it
  // is not; all it has carried; and how often it stopped taking, took less than offered, or broke.
  class Link {
    var answers: seq<Answer>
    const open: bool
    var wire: bytes
    ghost var blocks: nat
    ghost var shorts: nat
    ghost var fails: nat

    constructor (plan: seq<Answer>, open_: bool)
      ensures answers == plan && open == open_ && wire == [] && blocks == shorts == fails == 0
    {
      answers, open, wire := plan, open_, [];
      blocks, shorts, fails := 0, 0, 0;
    }

    // Nothing stands in the way any more.
    ghost predicate Free()
      reads this
    {
      open && answers == []
    }

    ghost function Troubles(): nat
      reads this
    {
      blocks + shorts + fails
    }

    method Send(data: bytes) returns (r: Outcome)
      modifies this
      ensures wire == old(wire) + data[..if r.Wrote? && r.n <= |data| then r.n else 0]
      ensures r.Wrote? ==> r.n <= |data|
      ensures |answers| <= |old(answers)|
      ensures r.TryAgain? || (r.Wrote? && r.n < |data|) ==> |answers| < |old(answers)|
      ensures old(Free()) ==> Free() && r == Wrote(|data|)
      ensures blocks == old(blocks) + (if r.WouldBlock? then 1 else 0)
      ensures shorts == old(shorts) + (if r.Wrote? && r.n < |data| then 1 else 0)
      ensures fails == old(fails) + (if r.Failed? then 1 else 0)
    {
      if answers == [] {
        if open {
          wire := wire + data;
          return Wrote(|data|);
        }
        blocks := blocks + 1;
        return WouldBlock;
      }
      var a := answers[0];
      answers := answers[1..];
      match a
      case Takes(n) =>
        var k := Min(n, |data|);
        wire := wire + data[..k];
        if k < |data| { shorts := shorts + 1; }
        r := Wrote(k);
      case Again => blocks := blocks + 1; r := WouldBlock;
      case Interrupted => r := TryAgain;
      case Broken => fails := fails + 1; r := Failed;
    }
  }

  // A scanner's anchor, if the stream has a decodable start.
  datatype Anchor = NoAnchor | At(pos: nat)

  // Everything a viewer should ever see, in order.
  function Whole(said: bytes, prefix: bytes, stream: bytes, anchor: nat): bytes
  {
    said + prefix + if anchor <= |stream| then stream[anchor..] else []
  }

  // ---------------------------------------------------------------- where a viewer is

  // What was said in response and from where, and how much of each part has gone out.
  datatype View = View(said: bytes, anchor: nat, prefix: bytes, out: bytes, outSent: nat, prefixSent: nat, readPos: nat)

  // The connection has carried the first part of the whole: prefix follows response, media follows prefix.
  ghost predicate InStep(v: View, stream: bytes, wire: bytes)
  {
    && v.outSent <= |v.out| <= |v.said| && v.out[v.outSent..] == v.said[|v.said| - (|v.out| - v.outSent)..]
    && v.prefixSent <= |v.prefix| && v.anchor <= v.readPos <= |stream|
    && (v.outSent < |v.out| ==> v.prefixSent == 0 && v.readPos == v.anchor)
    && (v.readPos > v.anchor ==> v.prefixSent == |v.prefix|)
    && wire == v.said[..|v.said| - (|v.out| - v.outSent)] + v.prefix[..v.prefixSent] + stream[v.anchor..v.readPos]
  }

  lemma Joined(said: bytes, anchor: nat, prefix: bytes, stream: bytes)
    requires anchor <= |stream|
    ensures InStep(View(said, anchor, prefix, said, 0, 0, anchor), stream, [])
  {
  }

  lemma StepOut(v: View, stream: bytes, wire: bytes, k: nat)
    requires InStep(v, stream, wire) && v.outSent + k <= |v.out|
    ensures InStep(v.(outSent := v.outSent + k), stream, wire + v.out[v.outSent..][..k])
  {
    var n := |v.said| - (|v.out| - v.outSent);
    var data := v.out[v.outSent..];
    assert v.out[v.outSent + k..] == data[k..] == v.said[n..][k..] == v.said[n + k..];
    assert data[..k] == v.said[n..n + k];
    assert v.said[..n] + v.said[n..n + k] == v.said[..n + k];
    if v.outSent < |v.out| {
      assert wire == v.said[..n];
    } else {
      assert wire + data[..k] == wire;
    }
  }

  lemma StepAnswered(v: View, stream: bytes, wire: bytes)
    requires InStep(v, stream, wire) && v.outSent == |v.out|
    ensures InStep(v.(out := [], outSent := 0), stream, wire)
  {
    assert v.said[|v.said|..] == [];
  }

  lemma StepPrefix(v: View, stream: bytes, wire: bytes, n: nat, k: nat)
    requires InStep(v, stream, wire) && v.outSent == |v.out| && k <= n && v.prefixSent + n <= |v.prefix| && n > 0
    ensures InStep(v.(prefixSent := v.prefixSent + k), stream, wire + v.prefix[v.prefixSent..v.prefixSent + n][..k])
  {
    var at, part := v.prefixSent, v.prefix[v.prefixSent..v.prefixSent + n][..k];
    PrefixPhase(v, stream, wire);
    TakeMore(v.prefix, at, n, k);
    assert v.said + v.prefix[..at] + part == v.said + (v.prefix[..at] + part);
    assert v.said[..|v.said|] == v.said && stream[v.anchor..v.readPos] == [];
    assert v.said + v.prefix[..at + k] + [] == v.said + v.prefix[..at + k];
  }

  lemma TakeMore(s: bytes, at: nat, n: nat, k: nat)
    requires k <= n && at + n <= |s|
    ensures s[..at] + s[at..at + n][..k] == s[..at + k]
  {
    assert s[at..at + n][..k] == s[at..at + k];
  }

  // Before the prefix is all sent, no media has gone out.
  lemma PrefixPhase(v: View, stream: bytes, wire: bytes)
    requires InStep(v, stream, wire) && v.outSent == |v.out| && v.prefixSent < |v.prefix|
    ensures v.readPos == v.anchor && wire == v.said + v.prefix[..v.prefixSent]
  {
    assert v.said[..|v.said|] == v.said && stream[v.anchor..v.readPos] == [];
  }

  lemma StepMedia(v: View, stream: bytes, wire: bytes, got: bytes, k: nat)
    requires InStep(v, stream, wire) && v.outSent == |v.out| && v.prefixSent == |v.prefix| && k <= |got|
    requires v.readPos + |got| <= |stream| && got == stream[v.readPos..v.readPos + |got|]
    ensures InStep(v.(readPos := v.readPos + k), stream, wire + got[..k])
  {
    var head := v.said[..|v.said| - (|v.out| - v.outSent)] + v.prefix[..v.prefixSent];
    MoreMedia(stream, v.anchor, v.readPos, got, k);
    Regroup(head, stream[v.anchor..v.readPos], got[..k]);
  }

  lemma MoreMedia(stream: bytes, from: nat, pos: nat, got: bytes, k: nat)
    requires from <= pos && pos + |got| <= |stream| && got == stream[pos..pos + |got|] && k <= |got|
    ensures stream[from..pos] + got[..k] == stream[from..pos + k]
  {
    assert got[..k] == stream[pos..pos + k];
  }

  lemma Regroup(a: bytes, b: bytes, c: bytes)
    ensures a + b + c == a + (b + c)
  {
  }

  // The ring moved on: nothing that was said changes.
  lemma Grown(v: View, stream: bytes, more: bytes, wire: bytes)
    requires InStep(v, stream, wire)
    ensures InStep(v, stream + more, wire)
  {
    assert (stream + more)[v.anchor..v.readPos] == stream[v.anchor..v.readPos];
  }

  lemma InStepIsPrefix(v: View, stream: bytes, wire: bytes)
    requires InStep(v, stream, wire)
    ensures wire <= Whole(v.said, v.prefix, stream, v.anchor)
  {
    var w := Whole(v.said, v.prefix, stream, v.anchor);
    var n := |v.said| - (|v.out| - v.outSent);
    if v.outSent < |v.out| {
      assert wire == v.said[..n];
      assert w[..n] == v.said[..n];
    } else if v.readPos == v.anchor {
      assert wire == v.said + v.prefix[..v.prefixSent];
      assert w[..n + v.prefixSent] == v.said + v.prefix[..v.prefixSent];
    } else {
      assert stream[v.anchor..] == stream[v.anchor..v.readPos] + stream[v.readPos..];
      assert w == wire + stream[v.readPos..];
    }
  }

  // ---------------------------------------------------------------- as programmed

  class Viewer {
    const link: Link
    var out: bytes
    var outSent: nat
    var prefix: bytes
    var prefixSent: nat
    var readPos: nat
    var streaming: bool
    var responding: bool
    var blocked: bool
    var lastProgress: int
    var behindSince: int
    ghost var said: bytes         // the response, as first queued
    ghost var anchor: nat

    ghost function Here(): View
      reads this
    {
      View(said, anchor, prefix, out, outSent, prefixSent, readPos)
    }

    ghost predicate Contiguous(stream: bytes)
      reads this, link
    {
      && InStep(Here(), stream, link.wire) && readPos <= |stream|
      && (!responding ==> out == [] && outSent == 0)
      && (!streaming ==> responding && prefix == [] && readPos == anchor)
    }

    // A viewer joins at the scanner's anchor if it is still in the ring, and is told so otherwise.
    constructor (ring: Ring, join: Anchor, codec: bytes, ok: bytes, notReady: bytes, plan: seq<Answer>,
                 open: bool, now: int)
      requires ring.Valid()
      ensures Contiguous(ring.stream) && fresh(link)
      ensures link.answers == plan && link.open == open && link.wire == []
      ensures streaming <==> join.At? && Resident(ring.writePos, ring.buf.Length, join.pos)
      ensures streaming ==> anchor == join.pos && said == ok && prefix == codec
      ensures !streaming ==> anchor == 0 && said == notReady && prefix == []
    {
      hide InStep, Mirrors;
      link := new Link(plan, open);
      var fits := false;
      if join.At? { fits := ring.IsResident(join.pos); }
      if fits {
        said, anchor, readPos, prefix, out := ok, join.pos, join.pos, codec, ok;
      } else {
        said, anchor, readPos, prefix, out := notReady, 0, 0, [], notReady;
      }
      streaming, responding, blocked := fits, !fits || ok != [], false;
      outSent, prefixSent, lastProgress, behindSince := 0, 0, now, 0;
      new;
      Joined(said, anchor, prefix, ring.stream);
    }

    // The rest of the response is offered to the socket.
    method OfferOut(now: int, ghost stream: bytes) returns (r: Outcome)
      requires Contiguous(stream) && outSent < |out|
      modifies link, `outSent, `lastProgress
      ensures Contiguous(stream) && Here() == old(Here()).(outSent := outSent)
      ensures outSent == old(outSent) + (if r.Wrote? then r.n else 0) <= |out|
      ensures lastProgress == if r.Wrote? then now else old(lastProgress)
      ensures |link.answers| <= |old(link.answers)|
      ensures r.TryAgain? || (r.Wrote? && r.n < |out| - old(outSent)) ==> |link.answers| < |old(link.answers)|
      ensures old(link.Free()) ==> link.Free() && r == Wrote(|out| - old(outSent))
      ensures link.blocks == old(link.blocks) + (if r.WouldBlock? then 1 else 0)
      ensures link.shorts == old(link.shorts) + (if r.Wrote? && r.n < |out| - old(outSent) then 1 else 0)
      ensures link.fails == old(link.fails) + (if r.Failed? then 1 else 0)
    {
      hide InStep;
      ghost var v, w := Here(), link.wire;
      var data := out[outSent..];
      r := link.Send(data);
      assert data[..0] == [] && w + [] == w;
      if r.Wrote? {
        StepOut(v, stream, w, r.n);
        outSent := outSent + r.n;
        lastProgress := now;
      }
    }

    method Flush(now: int, ghost stream: bytes) returns (ok: bool)
      requires Contiguous(stream)
      modifies this, link
      ensures Contiguous(stream) && Here() == old(Here()).(out := out, outSent := outSent)
      ensures streaming == old(streaming) && responding == old(responding)
      ensures ok && outSent < |out| ==> link.blocks > old(link.blocks)
      ensures ok && outSent >= |out| ==> out == [] && outSent == 0 && link.blocks == old(link.blocks)
      ensures !ok ==> link.fails > old(link.fails)
      ensures old(link.Free()) ==> link.Free() && link.Troubles() == old(link.Troubles())
      ensures link.blocks >= old(link.blocks) && link.shorts >= old(link.shorts) && link.fails >= old(link.fails)
      ensures lastProgress == old(lastProgress) || lastProgress == now
      ensures behindSince == old(behindSince)
    {
      hide InStep;
      assert outSent <= |out| by { Sane(Here(), stream, link.wire); }
      while outSent < |out|
        invariant Contiguous(stream) && Here() == old(Here()).(outSent := outSent) && outSent <= |out|
        invariant streaming == old(streaming) && responding == old(responding) && behindSince == old(behindSince)
        invariant link.blocks == old(link.blocks) && link.fails == old(link.fails) && link.shorts >= old(link.shorts)
        invariant old(link.Free()) ==> link.Free() && link.Troubles() == old(link.Troubles())
        invariant lastProgress == old(lastProgress) || lastProgress == now
        decreases |out| - outSent, |link.answers|
      {
        var r := OfferOut(now, stream);
        match r
        case Wrote(k) =>
        case WouldBlock => blocked := true; return true;
        case TryAgain =>
        case Failed => return false;
      }
      StepAnswered(Here(), stream, link.wire);
      out, outSent, blocked := [], 0, false;
      return true;
    }

    // The next bytes of the prefix are offered to the socket.
    method OfferPrefix(n: nat, now: int, ghost stream: bytes) returns (r: Outcome)
      requires Contiguous(stream) && !responding && 0 < n && prefixSent + n <= |prefix|
      modifies link, `prefixSent, `lastProgress
      ensures Contiguous(stream) && Here() == old(Here()).(prefixSent := prefixSent)
      ensures prefixSent == old(prefixSent) + (if r.Wrote? then r.n else 0) <= |prefix|
      ensures lastProgress == if r.Wrote? && r.n > 0 then now else old(lastProgress)
      ensures |link.answers| <= |old(link.answers)|
      ensures r.TryAgain? || (r.Wrote? && r.n < n) ==> |link.answers| < |old(link.answers)|
      ensures old(link.Free()) ==> link.Free() && r == Wrote(n)
      ensures link.blocks == old(link.blocks) + (if r.WouldBlock? then 1 else 0)
      ensures link.shorts == old(link.shorts) + (if r.Wrote? && r.n < n then 1 else 0)
      ensures link.fails == old(link.fails) + (if r.Failed? then 1 else 0)
    {
      hide InStep;
      ghost var v, w := Here(), link.wire;
      var data := prefix[prefixSent..prefixSent + n];
      r := link.Send(data);
      assert data[..0] == [] && w + [] == w;
      if r.Wrote? && r.n > 0 {
        StepPrefix(v, stream, w, n, r.n);
        prefixSent := prefixSent + r.n;
        lastProgress := now;
      }
    }

    // Go on only with the prefix all sent. Otherwise the socket stopped taking: wait if that is not for too long.
    method SendPrefix(now: int, ghost stream: bytes) returns (go: bool, ok: bool)
      requires Contiguous(stream) && !responding
      modifies this, link
      ensures Contiguous(stream) && !responding && streaming == old(streaming) && behindSince == old(behindSince)
      ensures Here() == old(Here()).(prefixSent := prefixSent)
      ensures go ==> ok && prefixSent == |prefix|
      ensures !go && ok ==> prefixSent < |prefix| && link.blocks > old(link.blocks)
      ensures !ok ==> link.fails > old(link.fails) || (link.shorts > old(link.shorts) && prefixSent < |prefix|)
                      || (link.blocks > old(link.blocks) && now - lastProgress > STUCK_S)
      ensures old(link.Free()) ==> link.Free() && link.Troubles() == old(link.Troubles())
      ensures link.blocks >= old(link.blocks) && link.shorts >= old(link.shorts) && link.fails >= old(link.fails)
      ensures lastProgress == if prefixSent > old(prefixSent) then now else old(lastProgress)
    {
      hide InStep;
      assert prefixSent <= |prefix| by { Sane(Here(), stream, link.wire); }
      while prefixSent < |prefix|
        invariant Contiguous(stream) && !responding && streaming == old(streaming) && prefixSent <= |prefix|
        invariant Here() == old(Here()).(prefixSent := prefixSent) && behindSince == old(behindSince)
        invariant old(link.Free()) ==> link.Free()
        invariant link.Troubles() >= old(link.Troubles()) && link.shorts >= old(link.shorts)
        invariant link.fails == old(link.fails) && link.blocks == old(link.blocks)
        invariant old(link.Free()) ==> link.Troubles() == old(link.Troubles())
        invariant prefixSent >= old(prefixSent)
        invariant lastProgress == if prefixSent > old(prefixSent) then now else old(lastProgress)
        decreases |prefix| - prefixSent, |link.answers|
      {
        var r := OfferPrefix(Min(PIECE, |prefix| - prefixSent), now, stream);
        match r
        case Wrote(k) =>
          if k == 0 { return false, false; }
        case WouldBlock =>
          blocked := true;
          return false, now - lastProgress <= STUCK_S;
        case TryAgain =>
        case Failed => return false, false;
      }
      return true, true;
    }

    // The next media bytes are offered to the socket.
    method Offer(got: bytes, now: int, ghost stream: bytes) returns (r: Outcome)
      requires Contiguous(stream) && !responding && prefixSent == |prefix| && got != []
      requires readPos + |got| <= |stream| && got == stream[readPos..readPos + |got|]
      modifies link, `readPos, `lastProgress
      ensures Contiguous(stream) && Here() == old(Here()).(readPos := readPos)
      ensures readPos == old(readPos) + if r.Wrote? then r.n else 0
      ensures lastProgress == if r.Wrote? then now else old(lastProgress)
      ensures r.Wrote? ==> r.n <= |got|
      ensures |link.answers| <= |old(link.answers)|
      ensures r.TryAgain? || (r.Wrote? && r.n < |got|) ==> |link.answers| < |old(link.answers)|
      ensures old(link.Free()) ==> link.Free() && r == Wrote(|got|)
      ensures link.blocks == old(link.blocks) + (if r.WouldBlock? then 1 else 0)
      ensures link.shorts == old(link.shorts) + (if r.Wrote? && r.n < |got| then 1 else 0)
      ensures link.fails == old(link.fails) + (if r.Failed? then 1 else 0)
    {
      hide InStep;
      ghost var v, w := Here(), link.wire;
      r := link.Send(got);
      assert got[..0] == [] && w + [] == w;
      if r.Wrote? {
        StepMedia(v, stream, w, got, r.n);
        readPos := readPos + r.n;
        lastProgress := now;
      }
    }

    // Media goes out until the viewer has caught up, the budget is spent, or the socket stops taking.
    method SendMedia(ring: Ring, now: int) returns (ok: bool)
      requires ring.Valid() && Contiguous(ring.stream) && !responding && prefixSent == |prefix|
      requires Resident(ring.writePos, ring.buf.Length, readPos)
      modifies this, link
      ensures Contiguous(ring.stream) && !responding && streaming == old(streaming) && behindSince == old(behindSince)
      ensures Here() == old(Here()).(readPos := readPos)
      ensures ok ==> readPos == ring.writePos || readPos >= old(readPos) + WRITE_CHUNK
                     || link.blocks > old(link.blocks) || link.shorts > old(link.shorts)
      ensures !ok ==> link.fails > old(link.fails)
      ensures old(link.Free()) ==> ok && link.Free() && link.Troubles() == old(link.Troubles())
      ensures lastProgress == now || (lastProgress == old(lastProgress) && readPos == old(readPos))
      ensures link.shorts == old(link.shorts) && readPos > old(readPos) ==> lastProgress == now
      ensures link.blocks >= old(link.blocks) && link.shorts >= old(link.shorts) && link.fails >= old(link.fails)
      ensures readPos >= old(readPos)
    {
      hide InStep, Mirrors;
      var budget := WRITE_CHUNK;
      while budget > 0 && readPos < ring.writePos
        invariant Contiguous(ring.stream) && !responding && streaming == old(streaming) && 0 <= budget
        invariant Here() == old(Here()).(readPos := readPos) && behindSince == old(behindSince)
        invariant readPos == old(readPos) + (WRITE_CHUNK - budget) <= ring.writePos
        invariant old(link.Free()) ==> link.Free()
        invariant link.blocks == old(link.blocks) && link.shorts == old(link.shorts) && link.fails == old(link.fails)
        invariant lastProgress == if readPos > old(readPos) then now else old(lastProgress)
        decreases budget, |link.answers|
      {
        var n := if budget < PIECE then budget else PIECE;
        var got := ring.ReadAt(readPos, n);
        assert got != [] by { SomethingThere(ring, readPos, n); }
        if got == [] { break; }
        var r := Offer(got, now, ring.stream);
        match r
        case Wrote(k) =>
          budget := budget - k;
          if k < |got| { blocked := true; break; }
          blocked := false;
        case WouldBlock => blocked := true; break;
        case TryAgain =>
        case Failed => return false;
      }
      if readPos >= ring.writePos { blocked := false; }
      return true;
    }

    // A viewer that lags half a ring for five seconds, or makes no progress for ten, is dropped.
    method Patience(ring: Ring, now: int) returns (ok: bool)
      requires readPos <= ring.writePos
      modifies `behindSince
      ensures var lags := ring.writePos - readPos > ring.buf.Length / 2;
        && behindSince == (if !lags then 0 else if old(behindSince) == 0 then now else old(behindSince))
        && (ok <==> !(lags && old(behindSince) != 0 && now - old(behindSince) > 5)
                    && !(ring.writePos > readPos && now - lastProgress > STUCK_S))
    {
      var lag := ring.writePos - readPos;
      if lag > ring.buf.Length / 2 {
        if behindSince == 0 { behindSince := now; } else if now - behindSince > 5 { return false; }
      } else {
        behindSince := 0;
      }
      return !(lag > 0 && now - lastProgress > STUCK_S);
    }

    // One writable event. While the viewer lives the response comes first, then the prefix, then media until it
    // has caught up or a full budget has gone out, unless the socket stopped taking. It is dropped only for
    // a broken or stuck socket, a refusal that is out, lagging too long, or bytes that were
    // overwritten: then it is never resumed past a hole.
    method OnWritable(ring: Ring, now: int) returns (ok: bool)
      requires ring.Valid() && Contiguous(ring.stream)
      modifies this, link
      ensures Contiguous(ring.stream)
      ensures said == old(said) && anchor == old(anchor) && prefix == old(prefix) && streaming == old(streaming)
      ensures ok && !responding ==> Resident(ring.writePos, ring.buf.Length, old(readPos))
      ensures ok ==> Advanced(ring.writePos, old(readPos), old(link.blocks), old(link.shorts))
      ensures !ok ==>
        || Stuck(old(link.blocks), old(link.shorts), old(link.fails), now, old(lastProgress)) || !streaming
        || Lagging(ring.writePos, ring.buf.Length, now, old(readPos), old(behindSince))
      ensures old(link.Free()) ==> link.Free() && link.Troubles() == old(link.Troubles())
      ensures link.blocks >= old(link.blocks) && link.shorts >= old(link.shorts) && link.fails >= old(link.fails)
      ensures behindSince in {0, now, old(behindSince)} && readPos >= old(readPos)
    {
      hide InStep, Mirrors;
      ok := Flush(now, ring.stream);
      if !ok { return false; }
      if responding {
        if out != [] { return true; }
        if !streaming { return false; }
        responding := false;
      }
      ok := Stream(ring, now);
    }

    // Either the response waits, or the prefix does, or the media has got on; waiting is the socket's doing.
    ghost predicate Advanced(end: nat, from: nat, blocks: nat, shorts: nat)
      reads this, link
    {
      || link.blocks > blocks
      || (!responding && prefixSent == |prefix|
          && (readPos == end || readPos >= from + WRITE_CHUNK || link.shorts > shorts))
    }

    // Bytes overwritten, or half a ring behind for more than five seconds.
    ghost predicate Lagging(end: nat, cap: nat, now: int, from: nat, behind: int)
    {
      !Resident(end, cap, from) || (behind != 0 && now - behind > 5)
    }

    // The socket broke, took nothing of a prefix it was ready for, or stopped taking with no byte taken for more
    // than ten seconds.
    ghost predicate Stuck(blocks: nat, shorts: nat, fails: nat, now: int, progress: int)
      reads this, link
    {
      || link.fails > fails
      || (link.shorts > shorts && prefixSent < |prefix|)
      || ((link.blocks > blocks || link.shorts > shorts) && now - progress > STUCK_S)
    }

    method Stream(ring: Ring, now: int) returns (ok: bool)
      requires ring.Valid() && Contiguous(ring.stream) && !responding
      modifies this, link
      ensures Contiguous(ring.stream) && !responding
      ensures said == old(said) && anchor == old(anchor) && prefix == old(prefix) && streaming == old(streaming)
      ensures ok ==> Resident(ring.writePos, ring.buf.Length, old(readPos))
      ensures ok ==> Advanced(ring.writePos, old(readPos), old(link.blocks), old(link.shorts))
      ensures !ok ==>
        || Stuck(old(link.blocks), old(link.shorts), old(link.fails), now, old(lastProgress))
        || Lagging(ring.writePos, ring.buf.Length, now, old(readPos), old(behindSince))
      ensures old(link.Free()) ==> link.Free() && link.Troubles() == old(link.Troubles())
      ensures behindSince in {0, now, old(behindSince)} && readPos >= old(readPos)
      ensures link.blocks >= old(link.blocks) && link.shorts >= old(link.shorts) && link.fails >= old(link.fails)
    {
      hide InStep, Mirrors, Resident;
      var here := ring.IsResident(readPos);
      if !here { return false; }
      var go: bool;
      go, ok := SendPrefix(now, ring.stream);
      if !go { return ok; }
      ok := SendMedia(ring, now);
      if !ok { return false; }
      ok := Patience(ring, now);
    }
  }

  lemma SomethingThere(ring: Ring, pos: nat, n: nat)
    requires |ring.stream| == ring.writePos && Resident(ring.writePos, ring.buf.Length, pos)
    requires pos < ring.writePos && n > 0
    ensures ReadStream(ring.stream, ring.buf.Length, pos, n) != []
  {
  }

  // A viewer that has caught up has seen all of it.
  lemma CaughtUp(v: View, stream: bytes, wire: bytes)
    requires InStep(v, stream, wire)
    ensures wire == Whole(v.said, v.prefix, stream, v.anchor) <==>
      v.outSent == |v.out| && v.prefixSent == |v.prefix| && v.readPos == |stream|
  {
    InStepIsPrefix(v, stream, wire);
    assert |wire| == |v.said| - (|v.out| - v.outSent) + v.prefixSent + (v.readPos - v.anchor);
    assert |Whole(v.said, v.prefix, stream, v.anchor)| == |v.said| + |v.prefix| + (|stream| - v.anchor);
  }

  // A refused viewer sees no more than the refusal.
  lemma RefusalOnly(v: View, stream: bytes, wire: bytes)
    requires InStep(v, stream, wire) && v.prefix == [] && v.readPos == v.anchor
    ensures wire <= v.said
  {
  }

  lemma Sane(v: View, stream: bytes, wire: bytes)
    requires InStep(v, stream, wire)
    ensures v.outSent <= |v.out| && v.prefixSent <= |v.prefix|
  {
  }

  // ---------------------------------------------------------------- whole sessions

  datatype Event = Publish(data: bytes) | Writable(now: int)

  function Published(before: bytes, events: seq<Event>): bytes
    decreases |events|
  {
    if events == [] then before
    else Published(if events[0].Publish? then before + events[0].data else before, events[1..])
  }

  // A viewer joins a ring that has carried `before`, and then anything happens in any order. Until it
  // is dropped, and also if it is, its connection has carried the first part of the whole.
  method Watch(size: nat, before: bytes, join: Anchor, codec: bytes, ok: bytes, notReady: bytes,
               plan: seq<Answer>, open: bool, events: seq<Event>) returns (wire: bytes, alive: bool)
    ensures join.At? && Resident(|before|, Capacity(size), join.pos) ==>
      wire <= Whole(ok, codec, Published(before, events), join.pos)
    ensures !(join.At? && Resident(|before|, Capacity(size), join.pos)) ==> wire <= notReady
  {
    hide InStep, Mirrors;
    var ring := new Ring();
    ring.Init(size);
    ring.Publish(before);
    assert [] + before == before;
    var v := new Viewer(ring, join, codec, ok, notReady, plan, open, 0);
    ghost var said, prefix, anchor, streaming := v.said, v.prefix, v.anchor, v.streaming;
    alive := true;
    var i := 0;
    assert events[0..] == events;
    while i < |events|
      invariant i <= |events| && ring.Valid() && v.Contiguous(ring.stream) && ring.buf.Length > 0
      invariant Published(ring.stream, events[i..]) == Published(before, events)
      invariant v.said == said && v.prefix == prefix && v.anchor == anchor && v.streaming == streaming
      invariant fresh(ring) && fresh(ring.buf) && fresh(v) && fresh(v.link)
    {
      var e := events[i];
      assert events[i..][1..] == events[i + 1..];
      i := i + 1;
      if e.Publish? {
        Grown(v.Here(), ring.stream, e.data, v.link.wire);
        ring.Publish(e.data);
      } else if alive {
        alive := v.OnWritable(ring, e.now);
      }
    }
    wire := v.link.wire;
    InStepIsPrefix(v.Here(), ring.stream, wire);
    if !streaming { RefusalOnly(v.Here(), ring.stream, wire); }
  }

  // Writable events with nothing published in between, on a socket that takes everything: each of them
  // carries a full budget of media, so that after enough of them the viewer has all of the stream. It is
  // dropped meanwhile at most for having lagged too long before.
  method CatchUp(v: Viewer, ring: Ring, times: seq<int>) returns (alive: bool)
    requires ring.Valid() && v.Contiguous(ring.stream) && v.streaming && v.link.Free()
    requires Resident(ring.writePos, ring.buf.Length, v.readPos)
    modifies v, v.link
    ensures v.Contiguous(ring.stream) && v.said == old(v.said) && v.anchor == old(v.anchor)
    ensures v.prefix == old(v.prefix) && v.link.Free() && v.streaming
    ensures alive && times != [] && |times| * WRITE_CHUNK >= ring.writePos - old(v.readPos) ==>
      v.link.wire == Whole(v.said, v.prefix, ring.stream, v.anchor)
    ensures AtOnce(times, old(v.behindSince)) ==> alive
  {
    hide InStep, Mirrors;
    alive := true;
    var i := 0;
    while i < |times| && alive
      invariant i <= |times| && v.Contiguous(ring.stream) && v.streaming && v.link.Free() && ring.Valid()
      invariant v.said == old(v.said) && v.anchor == old(v.anchor) && v.prefix == old(v.prefix)
      invariant Resident(ring.writePos, ring.buf.Length, v.readPos)
      invariant alive && i > 0 ==> !v.responding && v.prefixSent == |v.prefix|
      invariant alive ==> v.readPos == ring.writePos || v.readPos >= old(v.readPos) + i * WRITE_CHUNK
      invariant v.behindSince in {0, old(v.behindSince)} || (i > 0 && v.behindSince in times[..i])
      invariant AtOnce(times, old(v.behindSince)) ==> alive
      decreases |times| - i
    {
      alive := v.OnWritable(ring, times[i]);
      assert times[..i + 1] == times[..i] + [times[i]];
      i := i + 1;
    }
    Whereabouts(v.Here(), ring.stream, v.link.wire);
    if alive && i > 0 && v.readPos == ring.writePos { CaughtUp(v.Here(), ring.stream, v.link.wire); }
  }

  // All at one time, at most five seconds after the viewer fell behind if it did.
  predicate AtOnce(times: seq<int>, behind: int)
  {
    times != [] && (forall i | 0 <= i < |times| :: times[i] == times[0]) && (behind == 0 || times[0] - behind <= 5)
  }

  lemma Whereabouts(v: View, stream: bytes, wire: bytes)
    requires InStep(v, stream, wire)
    ensures v.readPos <= |stream|
  {
  }
}
