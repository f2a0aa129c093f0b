/**
  Cutting a byte stream into 188-byte transport packets (videots.cpp, TSScanner::feed): packets may
  straddle reads, and when sync is lost a sync byte followed by another a packet later is hunted for.
 */
module TsFraming {
  import opened Bytes
  import opened TsCrc

  const PACKET := 188
  const SYNC: bv8 := 0x47

  // One call of packet(): its bytes and the absolute position of the first.
  datatype Call = Call(p: octets, off: nat)

  // The framing state: packets delivered so far, and the packet carried across reads.
  datatype Framer = Framer(calls: seq<Call>, partial: octets, partialOff: nat, synced: bool, resyncs: nat, bytes: nat)

  const FRESH := Framer([], [], 0, false, 0, 0)

  // packet() drops sync when the sync byte is not where it should be.
  function Deliver(f: Framer, p: octets, off: nat): Framer
  {
    f.(calls := f.calls + [Call(p, off)], synced := f.synced && |p| > 0 && p[0] == SYNC)
  }

  // A plausible packet start at or after i; |buf| if there is none.
  function Hunt(buf: octets, i: nat): (j: nat)
    requires i <= |buf|
    ensures i <= j <= |buf|
    ensures j < |buf| ==> buf[j] == SYNC
    decreases |buf| - i
  {
    if i == |buf| then i
    else if buf[i] == SYNC && (i + PACKET >= |buf| || buf[i + PACKET] == SYNC) then i
    else Hunt(buf, i + 1)
  }

  // Whole packets from position i on; the rest is kept.
  function TakePackets(f: Framer, buf: octets, i: nat, base: nat): Framer
    requires i <= |buf|
    decreases |buf| - i, 1
  {
    if i == |buf| then f
    else if f.synced then TakePacket(f, buf, i, base)
    else
      var j := Hunt(buf, i);
      if j == |buf| then f
      else TakePacket(f.(synced := true, resyncs := if j != i then f.resyncs + 1 else f.resyncs), buf, j, base)
  }

  function TakePacket(f: Framer, buf: octets, i: nat, base: nat): Framer
    requires i < |buf|
    decreases |buf| - i, 0
  {
    if |buf| - i < PACKET then f.(partial := buf[i..], partialOff := base + i)
    else TakePackets(Deliver(f, buf[i..i + PACKET], base + i), buf, i + PACKET, base)
  }

  // One feed() call; `base` is the absolute position of buf[0].
  function FeedTs(f: Framer, buf: octets, base: nat): Framer
  {
    var g := f.(bytes := f.bytes + |buf|);
    if g.partial == [] || |g.partial| >= PACKET then TakePackets(g.(partial := [], partialOff := 0), buf, 0, base)
    else
      var need := PACKET - |g.partial|;
      if |buf| < need then g.(partial := g.partial + buf)
      else
        var done := Deliver(g, g.partial + buf[..need], g.partialOff);
        TakePackets(done.(partial := [], partialOff := 0), buf, need, base)
  }

  // feed() on consecutive pieces of one stream.
  function FeedStream(f: Framer, pieces: seq<octets>, base: nat): Framer
    decreases |pieces|
  {
    if pieces == [] then f else FeedStream(FeedTs(f, pieces[0], base), pieces[1..], base + |pieces[0]|)
  }

  // ---------------------------------------------------------------- any stream

  // A call hands over exactly the 188 bytes at its position.
  predicate Genuine(c: Call, stream: octets, base: nat)
  {
    base <= c.off && c.off - base + PACKET <= |stream| && c.p == stream[c.off - base..c.off - base + PACKET]
  }

  // Calls are genuine, in order, do not overlap, and end at or before `end`.
  predicate Orderly(calls: seq<Call>, stream: octets, base: nat, end: nat)
  {
    && (forall k :: 0 <= k < |calls| ==> Genuine(calls[k], stream, base))
    && (forall k :: 0 < k < |calls| ==> calls[k - 1].off + PACKET <= calls[k].off)
    && (calls != [] ==> calls[|calls| - 1].off + PACKET <= end)
    && PACKET * |calls| <= end - base
  }

  ghost predicate Framed(f: Framer, stream: octets, base: nat)
  {
    && f.bytes == |stream| && |f.partial| < PACKET && |f.partial| <= |stream|
    && f.partial == stream[|stream| - |f.partial|..]
    && (f.partial != [] ==> f.partialOff == base + |stream| - |f.partial|)
    && Orderly(f.calls, stream, base, base + |stream| - |f.partial|)
  }

  lemma DeliverOrderly(calls: seq<Call>, stream: octets, base: nat, end: nat, off: nat, p: octets)
    requires Orderly(calls, stream, base, end) && base <= end <= off && off - base + PACKET <= |stream|
    requires p == stream[off - base..off - base + PACKET]
    ensures Orderly(calls + [Call(p, off)], stream, base, off + PACKET)
  {
    var c := calls + [Call(p, off)];
    forall k | 0 <= k < |c| ensures Genuine(c[k], stream, base) {
      if k < |calls| { assert c[k] == calls[k]; }
    }
  }

  lemma Window(stream: octets, buf: octets, a: nat, b: nat)
    requires |buf| <= |stream| && buf == stream[|stream| - |buf|..] && a <= b <= |buf|
    ensures buf[a..b] == stream[|stream| - |buf| + a..|stream| - |buf| + b]
  {
  }

  // Where the next packet is taken to start, and the state once it is.
  function Next(f: Framer, buf: octets, i: nat): (j: nat)
    requires i <= |buf|
    ensures i <= j <= |buf|
  {
    if f.synced then i else Hunt(buf, i)
  }

  function Locked(f: Framer, i: nat, j: nat): Framer
  {
    if f.synced then f else f.(synced := true, resyncs := if j != i then f.resyncs + 1 else f.resyncs)
  }

  lemma TakeUnfold(f: Framer, buf: octets, i: nat, base: nat)
    requires i <= |buf|
    ensures var j := Next(f, buf, i); var r, g := TakePackets(f, buf, i, base), Locked(f, i, j);
      && (j == |buf| ==> r == f)
      && (j < |buf| < j + PACKET ==> r == g.(partial := buf[j..], partialOff := base + j))
      && (j + PACKET <= |buf| ==> r == TakePackets(Deliver(g, buf[j..j + PACKET], base + j), buf, j + PACKET, base))
  {
    hide Hunt;
  }

  // Reading on from i, everything delivered so far being genuine.
  lemma {:induction false} TakeFramed(f: Framer, buf: octets, i: nat, base: nat, stream: octets, start: nat)
    requires i <= |buf| <= |stream| && base == start + |stream| - |buf| && buf == stream[|stream| - |buf|..]
    requires f.partial == [] && f.bytes == |stream| && Orderly(f.calls, stream, start, base + i)
    ensures Framed(TakePackets(f, buf, i, base), stream, start)
    decreases |buf| - i
  {
    hide Orderly, TakePackets, Next;
    TakeUnfold(f, buf, i, base);
    var j := Next(f, buf, i);
    OrderlyLater(f.calls, stream, start, base + i, base + j);
    Window(stream, buf, j, |buf|);
    if j + PACKET <= |buf| {
      var p := buf[j..j + PACKET];
      Window(stream, buf, j, j + PACKET);
      DeliverOrderly(f.calls, stream, start, base + j, base + j, p);
      TakeFramed(Deliver(Locked(f, i, j), p, base + j), buf, j + PACKET, base, stream, start);
    }
  }

  lemma OrderlyLater(calls: seq<Call>, stream: octets, base: nat, a: nat, b: nat)
    requires Orderly(calls, stream, base, a) && a <= b
    ensures Orderly(calls, stream, base, b)
  {
  }

  // More of the stream arriving does not disturb what has been delivered.
  lemma OrderlyGrows(calls: seq<Call>, stream: octets, more: octets, base: nat, end: nat)
    requires Orderly(calls, stream, base, end)
    ensures Orderly(calls, stream + more, base, end)
  {
    forall k | 0 <= k < |calls| ensures Genuine(calls[k], stream + more, base) {
      var c := calls[k];
      assert Genuine(c, stream, base);
      assert (stream + more)[c.off - base..c.off - base + PACKET] == stream[c.off - base..c.off - base + PACKET];
    }
  }

  // The carried packet is completed by this read.
  lemma CarriedFramed(f: Framer, stream: octets, buf: octets, base: nat)
    requires Framed(f, stream, base) && f.partial != [] && |buf| >= PACKET - |f.partial|
    ensures Framed(FeedTs(f, buf, base + |stream|), stream + buf, base)
  {
    hide TakePackets, Orderly;
    var all, need, off := stream + buf, PACKET - |f.partial|, base + |stream| - |f.partial|;
    var p := f.partial + buf[..need];
    OrderlyGrows(f.calls, stream, buf, base, off);
    assert p == all[off - base..off - base + PACKET];
    DeliverOrderly(f.calls, all, base, off, off, p);
    assert buf == all[|all| - |buf|..];
    var g := f.(bytes := f.bytes + |buf|);
    TakeFramed(Deliver(g, p, off).(partial := [], partialOff := 0), buf, need, base + |stream|, all, base);
  }

  lemma FeedFramed(f: Framer, stream: octets, buf: octets, base: nat)
    requires Framed(f, stream, base)
    ensures Framed(FeedTs(f, buf, base + |stream|), stream + buf, base)
  {
    hide TakePackets, Orderly;
    var all := stream + buf;
    if f.partial != [] && |buf| >= PACKET - |f.partial| {
      CarriedFramed(f, stream, buf, base);
    } else {
      OrderlyGrows(f.calls, stream, buf, base, base + |stream| - |f.partial|);
      if f.partial == [] {
        assert buf == all[|all| - |buf|..];
        TakeFramed(f.(bytes := f.bytes + |buf|, partial := [], partialOff := 0), buf, 0, base + |stream|, all, base);
      } else {
        assert f.partial + buf == all[|all| - |f.partial| - |buf|..];
      }
    }
  }

  // For any bytes in any pieces: every packet delivered is the 188 bytes of the stream at its
  // position, packets do not overlap, and together with the carried bytes they fit what was fed.
  lemma {:induction false} StreamFramed(f: Framer, stream: octets, pieces: seq<octets>, base: nat)
    requires Framed(f, stream, base)
    ensures Framed(FeedStream(f, pieces, base + |stream|), stream + Join(pieces), base)
    decreases |pieces|
  {
    hide Framed, FeedTs;
    if pieces == [] {
      assert stream + [] == stream;
    } else {
      FeedFramed(f, stream, pieces[0], base);
      StreamFramed(FeedTs(f, pieces[0], base + |stream|), stream + pieces[0], pieces[1..], base);
      assert stream + pieces[0] + Join(pieces[1..]) == stream + Join(pieces);
    }
  }

  lemma FreshFramed(base: nat)
    ensures Framed(FRESH, [], base)
  {
  }

  // ---------------------------------------------------------------- a stream in sync

  // Every packet boundary carries a sync byte.
  predicate Aligned(stream: octets)
  {
    forall k :: 0 <= k < |stream| && k % PACKET == 0 ==> stream[k] == SYNC
  }

  // The first k packets of the stream.
  function Packets(stream: octets, base: nat, k: nat): seq<Call>
    requires PACKET * k <= |stream|
  {
    if k == 0 then []
    else Packets(stream, base, k - 1) + [Call(stream[PACKET * (k - 1)..PACKET * k], base + PACKET * (k - 1))]
  }

  // The framing of a stream that never loses sync: packets back to back, and the remainder.
  function Cut(stream: octets, base: nat): Framer
  {
    var rest := |stream| % PACKET;
    Framer(Packets(stream, base, |stream| / PACKET), stream[|stream| - rest..],
           if rest == 0 then 0 else base + |stream| - rest, |stream| > 0, 0, |stream|)
  }

  lemma {:induction false} PacketsGrow(stream: octets, more: octets, base: nat, k: nat)
    requires PACKET * k <= |stream|
    ensures Packets(stream + more, base, k) == Packets(stream, base, k)
  {
    if k > 0 {
      PacketsGrow(stream, more, base, k - 1);
      assert (stream + more)[PACKET * (k - 1)..PACKET * k] == stream[PACKET * (k - 1)..PACKET * k];
    }
  }

  // Standing at packet k of the whole stream.
  function Standing(stream: octets, base: nat, k: nat): Framer
    requires PACKET * k <= |stream|
  {
    Framer(Packets(stream, base, k), [], 0, k > 0, 0, |stream|)
  }

  lemma HuntsNoFurther(buf: octets, i: nat)
    requires i < |buf| && buf[i] == SYNC && (i + PACKET < |buf| ==> buf[i + PACKET] == SYNC)
    ensures Hunt(buf, i) == i
  {
  }

  lemma DivMod(n: nat, k: nat)
    requires PACKET * k <= n < PACKET * k + PACKET
    ensures n / PACKET == k && n % PACKET == n - PACKET * k
  {
  }

  lemma MultipleMod(k: nat)
    ensures (PACKET * k) % PACKET == 0
  {
  }

  lemma {:induction false} TakeAligned(buf: octets, i: nat, stream: octets, base: nat, k: nat)
    requires i <= |buf| <= |stream| && buf == stream[|stream| - |buf|..] && Aligned(stream)
    requires |stream| - |buf| + i == PACKET * k
    ensures TakePackets(Standing(stream, base, k), buf, i, base + |stream| - |buf|) == Cut(stream, base)
    decreases |buf| - i
  {
    hide Packets, Aligned, TakePackets, Hunt, Cut;
    var at, f := base + |stream| - |buf|, Standing(stream, base, k);
    TakeUnfold(f, buf, i, at);
    if i == |buf| {
      CutAt(stream, base, k, 0);
      assert stream[|stream|..] == [];
    } else {
      BoundarySync(stream, buf, i, k);
      HuntsNoFurther(buf, i);
      assert Next(f, buf, i) == i;
      if |buf| - i < PACKET {
        CutAt(stream, base, k, |buf| - i);
        Window(stream, buf, i, |buf|);
      } else {
        Window(stream, buf, i, i + PACKET);
        NextPacket(stream, base, k);
        TakeAligned(buf, i + PACKET, stream, base, k + 1);
      }
    }
  }

  lemma BoundarySync(stream: octets, buf: octets, i: nat, k: nat)
    requires i < |buf| <= |stream| && buf == stream[|stream| - |buf|..] && Aligned(stream)
    requires |stream| - |buf| + i == PACKET * k
    ensures buf[i] == SYNC && (i + PACKET < |buf| ==> buf[i + PACKET] == SYNC)
  {
    MultipleMod(k);
    MultipleMod(k + 1);
    assert buf[i] == stream[PACKET * k];
    if i + PACKET < |buf| { assert buf[i + PACKET] == stream[PACKET * (k + 1)]; }
  }

  lemma NextPacket(stream: octets, base: nat, k: nat)
    requires PACKET * (k + 1) <= |stream|
    ensures Packets(stream, base, k + 1)
      == Packets(stream, base, k) + [Call(stream[PACKET * k..PACKET * (k + 1)], base + PACKET * k)]
  {
  }

  // The carried packet is completed by this read.
  lemma CarriedAligned(stream: octets, buf: octets, base: nat, k: nat, rest: nat)
    requires Aligned(stream + buf) && |stream| == PACKET * k + rest && 0 < rest < PACKET && |buf| >= PACKET - rest
    ensures FeedTs(Cut(stream, base), buf, base + |stream|) == Cut(stream + buf, base)
  {
    hide Packets, TakePackets, Aligned, Cut;
    var all, need := stream + buf, PACKET - rest;
    CutAt(stream, base, k, rest);
    PacketsGrow(stream, buf, base, k);
    var p := stream[|stream| - rest..] + buf[..need];
    assert p == all[PACKET * k..PACKET * (k + 1)];
    NextPacket(all, base, k);
    AlignedAt(all, k);
    assert buf == all[|all| - |buf|..];
    TakeAligned(buf, need, all, base, k + 1);
  }

  lemma CutAt(stream: octets, base: nat, k: nat, rest: nat)
    requires |stream| == PACKET * k + rest && rest < PACKET
    ensures Cut(stream, base) == Framer(Packets(stream, base, k), stream[|stream| - rest..],
                                        if rest == 0 then 0 else base + |stream| - rest, |stream| > 0, 0, |stream|)
  {
    DivMod(|stream|, k);
  }

  lemma FeedAligned(stream: octets, buf: octets, base: nat)
    requires Aligned(stream + buf)
    ensures FeedTs(Cut(stream, base), buf, base + |stream|) == Cut(stream + buf, base)
  {
    hide Packets, TakePackets, Aligned, Cut;
    var all, k, rest := stream + buf, |stream| / PACKET, |stream| % PACKET;
    assert |stream| == PACKET * k + rest;
    CutAt(stream, base, k, rest);
    if rest == 0 {
      PacketsGrow(stream, buf, base, k);
      assert buf == all[|all| - |buf|..];
      TakeAligned(buf, 0, all, base, k);
    } else if |buf| < PACKET - rest {
      PacketsGrow(stream, buf, base, k);
      CutAt(all, base, k, rest + |buf|);
      assert stream[|stream| - rest..] + buf == all[|all| - (rest + |buf|)..];
    } else {
      CarriedAligned(stream, buf, base, k, rest);
    }
  }

  lemma AlignedAt(stream: octets, k: nat)
    requires Aligned(stream) && PACKET * k < |stream|
    ensures stream[PACKET * k] == SYNC
  {
    MultipleMod(k);
  }

  // A stream in sync is cut the same way however it is split over reads: packets back to back.
  lemma {:induction false} AlignedSplitInvariance(stream: octets, pieces: seq<octets>, base: nat)
    requires Aligned(stream + Join(pieces))
    ensures FeedStream(Cut(stream, base), pieces, base + |stream|) == Cut(stream + Join(pieces), base)
    decreases |pieces|
  {
    hide Cut, FeedTs;
    if pieces == [] {
      assert stream + [] == stream;
    } else {
      var all := stream + Join(pieces);
      assert stream + pieces[0] + Join(pieces[1..]) == all;
      assert Aligned(stream + pieces[0]) by {
        forall k | 0 <= k < |stream + pieces[0]| && k % PACKET == 0 ensures (stream + pieces[0])[k] == SYNC {
          assert (stream + pieces[0])[k] == all[k];
        }
      }
      FeedAligned(stream, pieces[0], base);
      AlignedSplitInvariance(stream + pieces[0], pieces[1..], base);
    }
  }

  lemma FreshIsCut(base: nat)
    ensures Cut([], base) == FRESH
  {
  }
}
