/**
  Finding the packets again after sync was lost (videots.cpp, TSScanner::feed): stray bytes are passed over,
  and what follows them is cut as if it had come alone.
 */
module TsResync {
  import opened Bytes
  import opened TsCrc
  import opened TsFraming

  // A packet may start here: a sync byte, and another where the next packet would, as far as can be seen.
  predicate Plausible(buf: octets, i: nat)
    requires i < |buf|
  {
    buf[i] == 0x47 && (i + 188 < |buf| ==> buf[i + 188] == 0x47)
  }

  // The hunt passes over no plausible start, and stops at one.
  lemma {:induction false} HuntsExactly(buf: octets, i: nat, j: nat)
    requires i <= j <= |buf|
    ensures Hunt(buf, i) == j <==>
      (j < |buf| ==> Plausible(buf, j)) && forall k | i <= k < j :: !Plausible(buf, k)
    decreases |buf| - i
  {
    if i < |buf| && !Plausible(buf, i) {
      if i < j { HuntsExactly(buf, i + 1, j); }
    }
  }

  // What came before the position does not matter.
  lemma HuntShift(a: octets, buf: octets, i: nat)
    requires i <= |buf|
    ensures Hunt(a + buf, |a| + i) == |a| + Hunt(buf, i)
  {
    var all, j := a + buf, Hunt(buf, i);
    HuntsExactly(buf, i, j);
    assert forall k | 0 <= k < |buf| :: all[|a| + k] == buf[k];
    forall k | |a| + i <= k < |a| + j ensures !Plausible(all, k) {
      assert !Plausible(buf, k - |a|);
    }
    HuntsExactly(all, |a| + i, |a| + j);
  }

  // g delivered, and stands, where f has after the calls c.
  predicate Same(f: Framer, g: Framer, c: seq<Call>)
  {
    && f.calls == c + g.calls && f.synced == g.synced
    && f.partial == g.partial && (f.partial != [] ==> f.partialOff == g.partialOff)
  }

  lemma DeliverSame(f: Framer, g: Framer, c: seq<Call>, p: octets, off: nat)
    requires Same(f, g, c)
    ensures Same(Deliver(f, p, off), Deliver(g, p, off), c)
  {
    assert f.calls + [Call(p, off)] == c + (g.calls + [Call(p, off)]);
  }

  lemma {:induction false} TakeSame(f: Framer, g: Framer, c: seq<Call>, a: octets, buf: octets, i: nat, base: nat)
    requires Same(f, g, c) && f.partial == [] && i <= |buf|
    ensures Same(TakePackets(f, a + buf, |a| + i, base), TakePackets(g, buf, i, base + |a|), c)
    decreases |buf| - i
  {
    hide TakePackets, Hunt, Deliver;
    var all := a + buf;
    HuntShift(a, buf, i);
    TakeUnfold(f, all, |a| + i, base);
    TakeUnfold(g, buf, i, base + |a|);
    var j := Next(g, buf, i);
    var k := |a| + j;
    assert all[k..] == buf[j..];
    if j + PACKET <= |buf| {
      assert all[k..k + PACKET] == buf[j..j + PACKET];
      var p := buf[j..j + PACKET];
      var f1, g1 := Locked(f, |a| + i, k), Locked(g, i, j);
      DeliverSame(f1, g1, c, p, base + k);
      DeliverKeepsPartial(f1, p, base + k);
      TakeSame(Deliver(f1, p, base + k), Deliver(g1, p, base + k), c, a, buf, j + PACKET, base);
    }
  }

  lemma DeliverKeepsPartial(f: Framer, p: octets, off: nat)
    ensures Deliver(f, p, off).partial == f.partial
  {
  }

  lemma FeedSame(f: Framer, g: Framer, c: seq<Call>, buf: octets, base: nat)
    requires Same(f, g, c) && |g.partial| < PACKET
    ensures Same(FeedTs(f, buf, base), FeedTs(g, buf, base), c)
  {
    hide TakePackets, Deliver;
    var f0, g0 := f.(bytes := f.bytes + |buf|), g.(bytes := g.bytes + |buf|);
    assert [] + buf == buf;
    if g.partial == [] {
      TakeSame(f0.(partial := [], partialOff := 0), g0.(partial := [], partialOff := 0), c, [], buf, 0, base);
    } else {
      var need := PACKET - |g.partial|;
      if |buf| >= need {
        var p := g.partial + buf[..need];
        DeliverSame(f0, g0, c, p, g.partialOff);
        var f1 := Deliver(f0, p, g.partialOff).(partial := [], partialOff := 0);
        var g1 := Deliver(g0, p, g.partialOff).(partial := [], partialOff := 0);
        TakeSame(f1, g1, c, [], buf, need, base);
      }
    }
  }

  // Nothing behind the first c calls depends on them.
  lemma {:induction false} StreamSame(f: Framer, g: Framer, c: seq<Call>, seen: octets, pieces: seq<octets>, base: nat)
    requires Same(f, g, c) && Framed(g, seen, base)
    ensures Same(FeedStream(f, pieces, base + |seen|), FeedStream(g, pieces, base + |seen|), c)
    decreases |pieces|
  {
    hide FeedTs, Same, Framed;
    if pieces != [] {
      assert |g.partial| < PACKET by { Short(g, seen, base); }
      FeedSame(f, g, c, pieces[0], base + |seen|);
      FeedFramed(g, seen, pieces[0], base);
      StreamSame(FeedTs(f, pieces[0], base + |seen|), FeedTs(g, pieces[0], base + |seen|), c,
                 seen + pieces[0], pieces[1..], base);
    }
  }

  lemma Short(g: Framer, seen: octets, base: nat)
    requires Framed(g, seen, base)
    ensures |g.partial| < PACKET
  {
  }

  // Bytes without a sync byte leave a scanner that is out of sync as it was.
  lemma NothingFound(f: Framer, junk: octets, base: nat)
    requires !f.synced && f.partial == [] && 0x47 !in junk
    ensures Same(FeedTs(f, junk, base), f, []) && FeedTs(f, junk, base).calls == f.calls
    ensures !FeedTs(f, junk, base).synced && FeedTs(f, junk, base).partial == []
  {
    hide Hunt;
    HuntsExactly(junk, 0, |junk|);
    TakeUnfold(f.(bytes := f.bytes + |junk|, partial := [], partialOff := 0), junk, 0, base);
    assert [] + f.calls == f.calls;
  }

  lemma Beyond(junk: octets, head: octets)
    ensures var all := junk + head;
      && all[|junk|..] == head == head[0..]
      && (PACKET <= |head| ==> all[|junk|..|junk| + PACKET] == head[0..PACKET])
  {
  }

  lemma HuntsAtHead(junk: octets, head: octets)
    requires Hunt(junk + head, 0) == |junk|
    ensures Hunt(head, 0) == 0
  {
    hide Hunt;
    HuntsExactly(junk + head, 0, |junk|);
    HuntsExactly(junk + head, |junk|, |junk|);
    HuntShift(junk, head, 0);
  }

  lemma TakeBehind(f: Framer, g: Framer, junk: octets, head: octets, base: nat)
    requires Same(f, g, f.calls) && !f.synced && f.partial == [] && Hunt(junk + head, 0) == |junk|
    ensures Same(TakePackets(f, junk + head, 0, base), TakePackets(g, head, 0, base + |junk|), f.calls)
  {
    hide TakePackets, Hunt, Deliver;
    HuntsAtHead(junk, head);
    TakeUnfold(f, junk + head, 0, base);
    TakeUnfold(g, head, 0, base + |junk|);
    Beyond(junk, head);
    if PACKET <= |head| {
      var p := head[0..PACKET];
      var f1, g1 := Locked(f, 0, |junk|), Locked(g, 0, 0);
      DeliverSame(f1, g1, f.calls, p, base + |junk|);
      DeliverKeepsPartial(f1, p, base + |junk|);
      TakeSame(Deliver(f1, p, base + |junk|), Deliver(g1, p, base + |junk|), f.calls, junk, head, PACKET, base);
    }
  }

  // The hunt ends behind the stray bytes: from there on, all is as if they had not come.
  lemma FoundBehind(f: Framer, junk: octets, head: octets, base: nat)
    requires !f.synced && f.partial == [] && Hunt(junk + head, 0) == |junk|
    ensures Same(FeedTs(f, junk + head, base), FeedTs(FRESH, head, base + |junk|), f.calls)
  {
    hide TakePackets, Hunt;
    var f0 := f.(bytes := f.bytes + |junk + head|, partial := [], partialOff := 0);
    var g0 := FRESH.(bytes := |head|, partial := [], partialOff := 0);
    assert f.calls + [] == f.calls;
    TakeBehind(f0, g0, junk, head, base);
  }

  lemma FirstAligned(junk: octets, head: octets, rest: octets)
    requires Aligned(head + rest) && 0x47 !in junk
    ensures Hunt(junk + head, 0) == |junk|
  {
    var all := junk + head;
    forall k | 0 <= k < |junk| ensures !Plausible(all, k) { assert all[k] == junk[k]; }
    if head != [] {
      assert all[|junk|] == head[0] == (head + rest)[0];
      if |head| > 188 { assert all[|junk| + 188] == head[188] == (head + rest)[188]; }
    }
    HuntsExactly(all, 0, |junk|);
  }

  // The stream after the stray bytes, in any pieces, from a fresh start.
  lemma CutAlone(head: octets, pieces: seq<octets>, base: nat)
    requires Aligned(head + Join(pieces))
    ensures FeedStream(FeedTs(FRESH, head, base), pieces, base + |head|) == Cut(head + Join(pieces), base)
  {
    hide FeedTs, Cut, Aligned;
    FreshIsCut(base);
    var all := [head] + pieces;
    assert all[0] == head && all[1..] == pieces;
    assert [] + Join(all) == head + Join(pieces);
    AlignedSplitInvariance([], all, base);
  }

  lemma FedFramed(head: octets, base: nat)
    ensures Framed(FeedTs(FRESH, head, base), head, base)
  {
    hide FeedTs, Framed;
    FreshFramed(base);
    FeedFramed(FRESH, [], head, base);
    assert [] + head == head;
  }

  // A scanner out of sync, stray bytes with no sync byte among them, and then a stream in sync, all of it in any
  // pieces: what is cut is the packets of the stream, all of them.
  lemma {:induction false} Resyncs(f: Framer, junk: octets, stream: octets, pieces: seq<octets>, base: nat)
    requires !f.synced && f.partial == [] && 0x47 !in junk && Aligned(stream) && Join(pieces) == junk + stream
    ensures FeedStream(f, pieces, base).calls == f.calls + Packets(stream, base + |junk|, |stream| / PACKET)
    decreases |pieces|
  {
    hide FeedTs, Aligned, Packets, Same, Framed, Cut;
    if pieces == [] {
      assert junk + stream == [] && stream == [];
      assert Packets([], base, 0) == [] by { NoPackets(base); }
    } else {
      var p, rest := pieces[0], Join(pieces[1..]);
      assert junk + stream == p + rest;
      if |p| <= |junk| {
        Divide(junk, stream, p, rest);
        assert forall b | b in p :: b in junk;
        NothingFound(f, p, base);
        Resyncs(FeedTs(f, p, base), junk[|p|..], stream, pieces[1..], base + |p|);
      } else {
        var head := p[|junk|..];
        Divide(p, rest, junk, stream);
        ResyncsIn(f, junk, head, pieces[1..], base);
        assert p == junk + head && stream == head + rest;
      }
    }
  }

  lemma NoPackets(base: nat)
    ensures Packets([], base, 0) == []
  {
  }

  lemma Divide(a: octets, b: octets, c: octets, d: octets)
    requires a + b == c + d && |c| <= |a|
    ensures a == c + a[|c|..] && d == a[|c|..] + b
  {
    assert (a + b)[..|c|] == (c + d)[..|c|] == c;
    assert (a + b)[|c|..] == (c + d)[|c|..] == d;
  }

  lemma ResyncsIn(f: Framer, junk: octets, head: octets, pieces: seq<octets>, base: nat)
    requires !f.synced && f.partial == [] && 0x47 !in junk && Aligned(head + Join(pieces))
    ensures var stream := head + Join(pieces);
      FeedStream(FeedTs(f, junk + head, base), pieces, base + |junk + head|).calls
        == f.calls + Packets(stream, base + |junk|, |stream| / PACKET)
  {
    hide FeedTs, Aligned, Packets, Framed, Hunt;
    var stream, start := head + Join(pieces), base + |junk|;
    FirstAligned(junk, head, Join(pieces));
    FoundBehind(f, junk, head, base);
    FedFramed(head, start);
    StreamSame(FeedTs(f, junk + head, base), FeedTs(FRESH, head, start), f.calls, head, pieces, start);
    CutAlone(head, pieces, start);
  }

  // With a sync byte among the stray bytes it is enough, in one read, that none of them is plausible.
  lemma ResyncsAtOnce(f: Framer, junk: octets, stream: octets, base: nat)
    requires !f.synced && f.partial == [] && Aligned(stream)
    requires forall k | 0 <= k < |junk| :: !Plausible(junk + stream, k)
    ensures FeedTs(f, junk + stream, base).calls == f.calls + Packets(stream, base + |junk|, |stream| / PACKET)
  {
    hide FeedTs, Packets, Hunt;
    var all, start := junk + stream, base + |junk|;
    if stream != [] {
      assert all[|junk|] == stream[0];
      if |stream| > 188 { assert all[|junk| + 188] == stream[188]; }
    }
    HuntsExactly(all, 0, |junk|);
    FoundBehind(f, junk, stream, base);
    assert stream + Join([]) == stream;
    CutAlone(stream, [], start);
  }
}
