/**
  The live Matroska scanner (videomkv.h): an EBML header, an unknown-size Segment, Info and Tracks
  make up the codec prefix; after them come finite Clusters, each a place where a viewer may join.
 */
module EbmlScanner {
  import opened Bytes
  import opened Numbers
  import opened StreamDecoder

  const MAX_CLUSTER := 4 * 1024 * 1024
  const MAX_HEADER := 65536
  const MAX_PREFIX := 131072
  const SEGMENT_ID := 0x18538067
  const CLUSTER_ID := 0x1f43b675
  const EXPECTED: seq<nat> := [0x1a45dfa3, SEGMENT_ID, 0x1549a966, 0x1654ae6b]

  datatype VintResult = Bad | Short | Value(value: nat, len: nat)

  // RFC 8794 section 4: the position of the first set bit gives the length in bytes.
  function VintLength(b: byte): (len: nat)
    requires b != 0
    ensures 1 <= len <= 8
    ensures Pow2(8 - len) <= b < Pow2(9 - len)
  {
    assert Pow2(8) == 256 && Pow2(7) == 128 && Pow2(6) == 64 && Pow2(5) == 32 && Pow2(4) == 16;
    assert Pow2(3) == 8 && Pow2(2) == 4 && Pow2(1) == 2;
    if b >= 128 then 1 else if b >= 64 then 2 else if b >= 32 then 3 else if b >= 16 then 4
    else if b >= 8 then 5 else if b >= 4 then 6 else if b >= 2 then 7 else 8
  }

  // Big-endian value of `lead` followed by the bytes of p.
  function Accumulate(lead: nat, p: bytes): nat
  {
    if p == [] then lead else Accumulate(lead, p[..|p| - 1]) * 256 + p[|p| - 1]
  }

  // A variable-size integer: an element ID keeps its length marker, a size drops it.
  function Vint(p: bytes, id: bool): (r: VintResult)
    ensures r.Value? ==> 1 <= r.len <= |p| && r.len <= (if id then 4 else 8)
  {
    if p == [] then Short
    else if p[0] == 0 then Bad
    else
      var len := VintLength(p[0]);
      if len > (if id then 4 else 8) then Bad
      else if |p| < len then Short
      else Value(Accumulate(if id then p[0] else p[0] - Pow2(8 - len), p[1..len]), len)
  }

  datatype Element = Element(id: nat, size: nat, header: nat, unknown: bool)
  datatype ElementResult = ElementBad | ElementShort | ElementOk(e: Element)

  // An element's ID and size, from the front of the pending bytes.
  function ReadElement(p: bytes): (r: ElementResult)
    ensures r.ElementOk? ==> 2 <= r.e.header <= |p|
  {
    match Vint(p, true)
    case Bad => ElementBad
    case Short => ElementShort
    case Value(id, a) =>
      match Vint(p[a..], false)
      case Bad => ElementBad
      case Short => ElementShort
      case Value(size, b) => ElementOk(Element(id, size, a + b, size == Pow2(7 * b) - 1))
  }

  datatype Anchor = NoAnchor | At(offset: nat)
  datatype Scan = Scan(stage: nat, prefix: bytes, offset: nat, anchor: Anchor)
  datatype Cluster = Cluster(at: nat, data: bytes)

  const FRESH := Scan(0, [], 0, NoAnchor)

  // Whether the declared size is acceptable at this stage, and the element's total length.
  function Extent(stage: nat, e: Element): (total: nat)
    ensures total == 0 || total >= e.header
  {
    if stage == 1 then
      if e.id != SEGMENT_ID || !e.unknown then 0 else e.header
    else if e.unknown || e.size > MAX_CLUSTER || (stage < 4 && e.size > MAX_HEADER) then 0
    else e.header + e.size
  }

  function EbmlStep(s: Scan, p: bytes): Outcome<Scan, Cluster>
  {
    match ReadElement(p)
    case ElementBad => Fatal(s, [])
    case ElementShort => More
    case ElementOk(e) =>
      var total := Extent(s.stage, e);
      if total == 0 then Fatal(s, [])
      else if |p| < total then More
      else if s.stage < 4 then
        if e.id != EXPECTED[s.stage] || |s.prefix| + total > MAX_PREFIX then Fatal(s, [])
        else Unit(total, Scan(s.stage + 1, s.prefix + p[..total], s.offset + total, s.anchor), [])
      else if e.id != CLUSTER_ID then Fatal(s, [])
      else Unit(total, Scan(s.stage, s.prefix, s.offset + total, At(s.offset)), [Cluster(s.offset, p[..total])])
  }

  type ScanSession = Session<byte, Scan, Cluster>

  // ---------------------------------------------------------------- split invariance

  lemma VintStable(p: bytes, x: bytes, id: bool)
    requires !Vint(p, id).Short?
    ensures Vint(p + x, id) == Vint(p, id)
  {
    var v := Vint(p, id);
    if v.Value? {
      assert (p + x)[1..v.len] == p[1..v.len];
    }
  }

  lemma ElementStable(p: bytes, x: bytes)
    requires !ReadElement(p).ElementShort?
    ensures ReadElement(p + x) == ReadElement(p)
  {
    VintStable(p, x, true);
    var v := Vint(p, true);
    if v.Value? {
      assert (p + x)[v.len..] == p[v.len..] + x;
      VintStable(p[v.len..], x, false);
    }
  }

  lemma EbmlStableAt(s: Scan, p: bytes, x: bytes)
    ensures StableAt(EbmlStep, s, p, x)
  {
    hide ReadElement, Extent;
    var o := EbmlStep(s, p);
    if !o.More? {
      ElementStable(p, x);
      if o.Unit? {
        assert (p + x)[..o.used] == p[..o.used];
      }
    }
  }

  lemma EbmlStable()
    ensures Stable(EbmlStep)
  {
    hide EbmlStep;
    forall s, p, x
      ensures StableAt(EbmlStep, s, p, x)
    {
      EbmlStableAt(s, p, x);
    }
  }

  // What taking an element does, without how it was recognised.
  lemma StepShape(s: Scan, p: bytes)
    ensures EbmlStep(s, p).Fatal? ==> EbmlStep(s, p) == Fatal(s, [])
    ensures var o := EbmlStep(s, p);
      o.Unit? ==>
        && 0 < o.used <= |p|
        && o.next.offset == s.offset + o.used
        && (s.stage < 4 ==> o.next == Scan(s.stage + 1, s.prefix + p[..o.used], s.offset + o.used, s.anchor)
                            && o.events == [])
        && (s.stage >= 4 ==> o.next == Scan(s.stage, s.prefix, s.offset + o.used, At(s.offset))
                             && o.events == [Cluster(s.offset, p[..o.used])])
  {
  }

  // One feed() call: the position is taken from the caller whenever nothing is pending.
  ghost function FeedAt(p: ScanSession, buf: bytes, base: nat): ScanSession
  {
    if p.alive && p.held == [] then Feed(EbmlStep, p.(state := p.state.(offset := base)), buf)
    else Feed(EbmlStep, p, buf)
  }

  // feed() called on consecutive pieces of one stream, `base` being the position of the first.
  ghost function FeedStream(p: ScanSession, pieces: seq<bytes>, base: nat): ScanSession
    decreases |pieces|
  {
    if pieces == [] then p else FeedStream(FeedAt(p, pieces[0], base), pieces[1..], base + |pieces[0]|)
  }

  lemma {:induction false} PositionTracks(s: Scan, p: bytes)
    ensures var r := Run(EbmlStep, s, p); r.alive ==> r.state.offset + |r.held| == s.offset + |p|
    decreases |p|
  {
    hide EbmlStep;
    StepShape(s, p);
    var o := EbmlStep(s, p);
    if o.Unit? { PositionTracks(o.next, p[o.used..]); }
  }

  // Every partition of a stream gives the same clusters at the same positions, the same prefix and
  // anchor and the same verdict as one call with the whole of it.
  lemma {:induction false} ScanSplitInvariance(p: ScanSession, pieces: seq<bytes>, base: nat)
    requires Settled(EbmlStep, p)
    requires p.alive ==> p.state.offset + |p.held| == base
    ensures FeedStream(p, pieces, base) == Feed(EbmlStep, p, Join(pieces))
    decreases |pieces|
  {
    hide EbmlStep;
    EbmlStable();
    if pieces == [] {
      SplitInvariance(EbmlStep, p, []);
      assert FeedAll(EbmlStep, p, []) == p;
    } else {
      var q := FeedAt(p, pieces[0], base);
      assert p.alive && p.held == [] ==> p.state.(offset := base) == p.state;
      assert q == Feed(EbmlStep, p, pieces[0]);
      if p.alive {
        RunSettles(EbmlStep, p.state, p.held + pieces[0]);
        PositionTracks(p.state, p.held + pieces[0]);
      }
      ScanSplitInvariance(q, pieces[1..], base + |pieces[0]|);
      FeedTwice(EbmlStep, p, pieces[0], Join(pieces[1..]));
    }
  }

  lemma NothingPending(s: Scan)
    ensures EbmlStep(s, []) == More
  {
  }

  // ---------------------------------------------------------------- conservation

  function Datas(cs: seq<Cluster>): (r: seq<bytes>)
    ensures |r| == |cs|
  {
    if cs == [] then [] else [cs[0].data] + Datas(cs[1..])
  }

  lemma ConserveOne(c: Cluster, p: bytes, used: nat, cs: seq<Cluster>, held: bytes)
    requires used <= |p| && c.data == p[..used] && p[used..] == Join(Datas(cs)) + held
    ensures p == Join(Datas([c] + cs)) + held
  {
    assert ([c] + cs)[1..] == cs;
    assert Datas([c] + cs) == [c.data] + Datas(cs);
    assert ([c.data] + Datas(cs))[1..] == Datas(cs);
    assert p == p[..used] + p[used..];
    assert c.data + (Join(Datas(cs)) + held) == (c.data + Join(Datas(cs))) + held;
  }

  // Past the header, clusters and held bytes are the input.
  lemma {:induction false} ClustersConserve(s: Scan, p: bytes)
    requires s.stage == 4 && Run(EbmlStep, s, p).alive
    ensures var r := Run(EbmlStep, s, p);
      r.state.prefix == s.prefix && r.state.stage == 4 && p == Join(Datas(r.events)) + r.held
    decreases |p|
  {
    var o := EbmlStep(s, p);
    if o.Unit? {
      var rest := p[o.used..];
      ClustersConserve(o.next, rest);
      ConserveOne(o.events[0], p, o.used, Run(EbmlStep, o.next, rest).events, Run(EbmlStep, o.next, rest).held);
    }
  }

  lemma NothingEmitted()
    ensures Join(Datas([])) == []
  {
  }

  // Nothing is lost, reordered or invented: prefix, clusters and held bytes are the input.
  lemma {:induction false} Conserves(s: Scan, p: bytes)
    requires s.stage <= 4 && Run(EbmlStep, s, p).alive
    ensures var r := Run(EbmlStep, s, p);
      && r.state.stage <= 4
      && (r.state.stage < 4 ==> r.events == [])
      && s.prefix + p == r.state.prefix + (Join(Datas(r.events)) + r.held)
    decreases |p|
  {
    hide EbmlStep, Run, Join, Datas;
    if s.stage == 4 {
      ClustersConserve(s, p);
    } else if EbmlStep(s, p).Unit? {
      var o := EbmlStep(s, p);
      StepShape(s, p);
      RunUnit(EbmlStep, s, p);
      Conserves(o.next, p[o.used..]);
      assert s.prefix + p == o.next.prefix + p[o.used..];
      assert [] + Run(EbmlStep, o.next, p[o.used..]).events == Run(EbmlStep, o.next, p[o.used..]).events;
    } else {
      RunStops(EbmlStep, s, p);
      NothingEmitted();
    }
  }

  // ---------------------------------------------------------------- joining late

  lemma VintLocal(p: bytes, k: nat, id: bool)
    requires Vint(p, id).Value? && Vint(p, id).len <= k <= |p|
    ensures Vint(p[..k], id) == Vint(p, id)
  {
    var v := Vint(p, id);
    assert p[..k][1..v.len] == p[1..v.len];
  }

  lemma ElementLocal(p: bytes, k: nat)
    requires ReadElement(p).ElementOk? && ReadElement(p).e.header <= k <= |p|
    ensures ReadElement(p[..k]) == ReadElement(p)
  {
    var v := Vint(p, true);
    VintLocal(p, k, true);
    assert p[..k][v.len..] == p[v.len..][..k - v.len];
    VintLocal(p[v.len..], k - v.len, false);
  }

  // A decision to take an element rests on that element's own bytes.
  lemma StepLocal(s: Scan, p: bytes, x: bytes)
    requires EbmlStep(s, p).Unit?
    ensures var o := EbmlStep(s, p); EbmlStep(s, p[..o.used] + x) == o
  {
    hide ReadElement;
    var o := EbmlStep(s, p);
    var e := p[..o.used];
    ElementLocal(p, o.used);
    assert e[..o.used] == e;
    assert EbmlStep(s, e) == o;
    EbmlStable();
    assert StableAt(EbmlStep, s, e, x);
  }

  // Feeding `prefix` to a fresh scanner brings it to `stage`, with that prefix, whatever follows.
  ghost predicate ReplayAt(stage: nat, prefix: bytes, rest: bytes)
  {
    Run(EbmlStep, FRESH, prefix + rest) == Run(EbmlStep, Scan(stage, prefix, |prefix|, NoAnchor), rest)
  }

  ghost predicate Replays(stage: nat, prefix: bytes)
  {
    forall rest :: ReplayAt(stage, prefix, rest)
  }

  lemma PositionIrrelevant(s: Scan, t: Scan, p: bytes)
    requires s.stage == t.stage && s.prefix == t.prefix
    ensures var o, q := EbmlStep(s, p), EbmlStep(t, p);
      && o.More? == q.More? && o.Fatal? == q.Fatal?
      && (o.Unit? ==> o.used == q.used)
  {
  }

  lemma ReplayStep(s: Scan, p: bytes)
    requires s.stage < 4 && EbmlStep(s, p).Unit? && Replays(s.stage, s.prefix)
    ensures var o := EbmlStep(s, p); Replays(o.next.stage, o.next.prefix)
  {
    hide EbmlStep;
    var o := EbmlStep(s, p);
    StepShape(s, p);
    var e := p[..o.used];
    var here := Scan(s.stage, s.prefix, |s.prefix|, NoAnchor);
    forall rest
      ensures ReplayAt(o.next.stage, o.next.prefix, rest)
    {
      assert ReplayAt(s.stage, s.prefix, e + rest);
      assert o.next.prefix + rest == s.prefix + (e + rest);
      PositionIrrelevant(s, here, p);
      StepShape(here, p);
      StepLocal(here, p, rest);
      assert (e + rest)[o.used..] == rest;
      var r := Run(EbmlStep, Scan(o.next.stage, o.next.prefix, |o.next.prefix|, NoAnchor), rest);
      assert [] + r.events == r.events;
    }
  }

  lemma {:induction false} RunReplays(s: Scan, p: bytes)
    requires s.stage <= 4 && Replays(s.stage, s.prefix) && Run(EbmlStep, s, p).alive
    ensures var r := Run(EbmlStep, s, p).state; Replays(r.stage, r.prefix)
    decreases |p|
  {
    if s.stage == 4 {
      ClustersConserve(s, p);
    } else if EbmlStep(s, p).Unit? {
      var o := EbmlStep(s, p);
      ReplayStep(s, p);
      RunReplays(o.next, p[o.used..]);
    }
  }

  // Where in the stream a scanner believes it is does not affect which clusters it finds.
  lemma {:induction false} OffsetIrrelevant(s: Scan, t: Scan, p: bytes)
    requires s.stage == t.stage == 4 && s.prefix == t.prefix
    ensures var v, w := Run(EbmlStep, s, p), Run(EbmlStep, t, p);
      v.alive == w.alive && v.held == w.held && Datas(v.events) == Datas(w.events)
    decreases |p|
  {
    hide EbmlStep;
    var o, q := EbmlStep(s, p), EbmlStep(t, p);
    PositionIrrelevant(s, t, p);
    StepShape(s, p);
    StepShape(t, p);
    if o.Unit? {
      var rest := p[o.used..];
      OffsetIrrelevant(o.next, q.next, rest);
      var v, w := Run(EbmlStep, o.next, rest), Run(EbmlStep, q.next, rest);
      assert (o.events + v.events)[1..] == v.events && (q.events + w.events)[1..] == w.events;
    }
  }

  // Started at `t.offset`, having seen clusters `ds` before: what a late joiner is compared against.
  ghost predicate JoinsAt(w: ScanSession, ds: seq<bytes>, t: ScanSession)
  {
    w.alive == t.alive && w.held == t.held && Datas(w.events) == ds + Datas(t.events)
  }

  // The clusters from the anchor on are those a scanner past the header finds when started there.
  ghost predicate AnchorSplits(s: Scan, p: bytes, more: bytes)
  {
    var r := Run(EbmlStep, s, p);
    && r.events != [] && r.state.stage == 4
    && r.state.anchor.At? && s.offset <= r.state.anchor.offset <= s.offset + |p|
    && JoinsAt(Run(EbmlStep, s, p + more), Datas(r.events)[..|r.events| - 1],
               Run(EbmlStep, Scan(4, r.state.prefix, r.state.anchor.offset, NoAnchor),
                   (p + more)[r.state.anchor.offset - s.offset..]))
  }

  // The unit just taken is the last cluster: the anchor is where it starts.
  lemma AnchorHere(s: Scan, p: bytes, more: bytes)
    requires s.stage <= 4 && EbmlStep(s, p).Unit?
    requires var o := EbmlStep(s, p); o.events != [] && Run(EbmlStep, o.next, p[o.used..]).alive
                                      && Run(EbmlStep, o.next, p[o.used..]).events == []
    ensures AnchorSplits(s, p, more)
  {
    hide EbmlStep;
    var o := EbmlStep(s, p);
    StepShape(s, p);
    StepShape(o.next, p[o.used..]);
    assert Run(EbmlStep, s, p).events == o.events;
    assert (p + more)[0..] == p + more;
    OffsetIrrelevant(s, Scan(4, s.prefix, s.offset, NoAnchor), p + more);
    var t := Run(EbmlStep, Scan(4, s.prefix, s.offset, NoAnchor), p + more);
    assert Datas(o.events)[..0] + Datas(t.events) == Datas(t.events);
  }

  // Otherwise the anchor lies further on.
  lemma AnchorLater(s: Scan, p: bytes, more: bytes)
    requires s.stage <= 4 && EbmlStep(s, p).Unit?
    requires var o := EbmlStep(s, p); AnchorSplits(o.next, p[o.used..], more)
    ensures AnchorSplits(s, p, more)
  {
    hide EbmlStep, Run, Datas;
    var o := EbmlStep(s, p);
    StepShape(s, p);
    var rest := p[o.used..];
    EbmlStable();
    assert StableAt(EbmlStep, s, p, more);
    assert (p + more)[o.used..] == rest + more;
    RunUnit(EbmlStep, s, p);
    RunUnit(EbmlStep, s, p + more);
    var r', w' := Run(EbmlStep, o.next, rest), Run(EbmlStep, o.next, rest + more);
    var a := r'.state.anchor.offset;
    assert (p + more)[a - s.offset..] == (rest + more)[a - o.next.offset..];
    DatasPrepend(o.events, w'.events);
    DatasPrepend(o.events, r'.events);
    var n := |r'.events| - 1;
    assert (Datas(o.events) + Datas(r'.events))[..|o.events| + n] == Datas(o.events) + Datas(r'.events)[..n];
  }

  lemma DatasPrepend(a: seq<Cluster>, b: seq<Cluster>)
    requires |a| <= 1
    ensures Datas(a + b) == Datas(a) + Datas(b)
  {
    if |a| == 1 { assert (a + b)[1..] == b; } else { assert a + b == b; }
  }

  lemma {:induction false} FromAnchor(s: Scan, p: bytes, more: bytes)
    requires s.stage <= 4 && Run(EbmlStep, s, p).alive && Run(EbmlStep, s, p).events != []
    ensures AnchorSplits(s, p, more)
    decreases |p|
  {
    hide EbmlStep;
    var o := EbmlStep(s, p);
    StepShape(s, p);
    if Run(EbmlStep, o.next, p[o.used..]).events == [] {
      AnchorHere(s, p, more);
    } else {
      FromAnchor(o.next, p[o.used..], more);
      AnchorLater(s, p, more);
    }
  }

  ghost predicate Decodable(base: nat, input: bytes, prefix: bytes, at: nat, more: bytes)
  {
    var r := Run(EbmlStep, FRESH.(offset := base), input);
    && r.events != [] && base <= at <= base + |input|
    && var w := Run(EbmlStep, FRESH.(offset := base), input + more);
    && |r.events| - 1 <= |w.events|
    && var v := Run(EbmlStep, FRESH, prefix + (input + more)[at - base..]);
    && v.alive == w.alive && v.held == w.held
    && Datas(v.events) == Datas(w.events)[|r.events| - 1..]
  }

  // A late viewer is sent the prefix and then the stream from the anchor. A fresh scanner accepts
  // that, exactly as long as the publisher's stream stays acceptable, and finds exactly the
  // clusters from the anchor on.
  lemma JoinIsDecodable(base: nat, input: bytes, more: bytes)
    requires var r := Run(EbmlStep, FRESH.(offset := base), input); r.alive && r.state.anchor.At?
    ensures var r := Run(EbmlStep, FRESH.(offset := base), input);
      Decodable(base, input, r.state.prefix, r.state.anchor.offset, more)
  {
    hide EbmlStep, Run, Datas;
    var s := FRESH.(offset := base);
    var r := Run(EbmlStep, s, input);
    AnchorNeedsCluster(s, input);
    FromAnchor(s, input, more);
    forall rest ensures ReplayAt(0, [], rest) { assert [] + rest == rest; }
    RunReplays(s, input);
    var a := r.state.anchor.offset;
    var tail := (input + more)[a - base..];
    assert ReplayAt(4, r.state.prefix, tail);
    OffsetIrrelevant(Scan(4, r.state.prefix, a, NoAnchor), Scan(4, r.state.prefix, |r.state.prefix|, NoAnchor), tail);
  }

  lemma {:induction false} AnchorNeedsCluster(s: Scan, p: bytes)
    ensures Run(EbmlStep, s, p).events == [] ==> Run(EbmlStep, s, p).state.anchor == s.anchor
    decreases |p|
  {
    var o := EbmlStep(s, p);
    if o.Unit? { AnchorNeedsCluster(o.next, p[o.used..]); }
  }

  lemma {:induction false} ClusterAnchors(s: Scan, p: bytes)
    ensures Run(EbmlStep, s, p).events != [] ==> Run(EbmlStep, s, p).state.anchor.At?
    decreases |p|
  {
    hide EbmlStep;
    StepShape(s, p);
    var o := EbmlStep(s, p);
    if o.Unit? {
      var rest := p[o.used..];
      ClusterAnchors(o.next, rest);
      AnchorNeedsCluster(o.next, rest);
    }
  }

  // A scanner that has been fed these bytes, the first of them at this position.
  ghost function Scanned(base: nat, input: bytes): ScanSession
  {
    Feed(EbmlStep, Session(true, FRESH.(offset := base), [], []), input)
  }

  lemma ScannedIs(base: nat, input: bytes)
    ensures Scanned(base, input) == Run(EbmlStep, FRESH.(offset := base), input)
  {
    hide EbmlStep, Run;
    assert [] + input == input;
    var r := Run(EbmlStep, FRESH.(offset := base), input);
    assert [] + r.events == r.events;
  }

  // Feeding the bytes that follow, at the position where they lie, is having been fed all of them.
  lemma ScannedOn(base: nat, input: bytes, buf: bytes)
    ensures FeedAt(Scanned(base, input), buf, base + |input|) == Scanned(base, input + buf)
  {
    hide EbmlStep, Run;
    EbmlStable();
    var s := FRESH.(offset := base);
    var p := Scanned(base, input);
    ScannedIs(base, input);
    PositionTracks(s, input);
    assert p.alive && p.held == [] ==> p.state.(offset := base + |input|) == p.state;
    FeedTwice(EbmlStep, Session(true, s, [], []), input, buf);
  }

  // ---------------------------------------------------------------- the scanner object

  lemma BitTest(b: nat, mask: nat)
    requires 0 < mask && b < 2 * mask
    ensures (b / mask) % 2 == 0 <==> b < mask
  {
    if b < mask {
      assert b / mask == 0;
    } else {
      assert b / mask == 1;
    }
  }

  // The length marker is found by shifting a mask down from the top bit.
  method FindMarker(b: byte) returns (len: nat, mask: nat)
    requires b != 0
    ensures len == VintLength(b) && mask == Pow2(8 - len)
  {
    len, mask := 1, 128;
    assert Pow2(7) == 128;
    while (b / mask) % 2 == 0
      invariant 1 <= len <= 8 && mask == Pow2(8 - len) && b < 2 * mask
      decreases 8 - len
    {
      BitTest(b, mask);
      len, mask := len + 1, mask / 2;
    }
    BitTest(b, mask);
    MarkerLength(b, len);
  }

  method ReadVint(p: bytes, id: bool) returns (r: VintResult)
    ensures r == Vint(p, id)
  {
    if p == [] { return Short; }
    if p[0] == 0 { return Bad; }
    var len, mask := FindMarker(p[0]);
    if len > (if id then 4 else 8) { return Bad; }
    if |p| < len { return Short; }
    var lead: nat := if id then p[0] else p[0] - mask;
    var value: nat := lead;
    var i := 1;
    while i < len
      invariant 1 <= i <= len
      invariant value == Accumulate(lead, p[1..i])
    {
      assert p[1..i + 1][..i - 1] == p[1..i];
      value := value * 256 + p[i];
      i := i + 1;
    }
    return Value(value, len);
  }

  lemma MarkerLength(b: byte, len: nat)
    requires b != 0 && 1 <= len <= 8 && Pow2(8 - len) <= b < 2 * Pow2(8 - len)
    ensures VintLength(b) == len
  {
    assert Pow2(7) == 128 && Pow2(6) == 64 && Pow2(5) == 32 && Pow2(4) == 16;
    assert Pow2(3) == 8 && Pow2(2) == 4 && Pow2(1) == 2 && Pow2(0) == 1;
  }

  class VideoScanner {
    var failed: bool
    var prefix: bytes
    var stage: nat
    var offset: nat
    var anchor: Anchor
    var pending: bytes
    var clusters: seq<Cluster>      // what the cluster callback has been handed
    ghost var started: bool
    ghost var start: nat            // where the first byte fed lies
    ghost var input: bytes          // everything fed

    // Fed consecutive bytes of one stream, the scanner is where one call with all of them would leave it.
    ghost predicate Valid()
      reads this
    {
      if started then View() == Scanned(start, input) else View() == Session(true, FRESH, [], []) && input == []
    }

    ghost function View(): ScanSession
      reads this
    {
      Session(!failed, Scan(stage, prefix, offset, anchor), if failed then [] else pending, clusters)
    }

    constructor ()
      ensures Valid() && !started && View() == Session(true, FRESH, [], [])
    {
      failed, prefix, stage, offset, anchor, pending, clusters := false, [], 0, 0, NoAnchor, [], [];
      started, start, input := false, 0, [];
    }

    ghost function State(): Scan
      reads this
    {
      Scan(stage, prefix, offset, anchor)
    }

    // One turn of the scan loop: take a whole element, wait for more, or give up.
    method TakeElement() returns (taken: bool)
      requires !failed
      modifies `failed, `prefix, `stage, `offset, `anchor, `pending, `clusters
      ensures var o := EbmlStep(old(State()), old(pending));
        && taken == o.Unit?
        && failed == o.Fatal?
        && State() == (if o.Unit? then o.next else old(State()))
        && (o.Unit? ==> pending == old(pending)[o.used..] && clusters == old(clusters) + o.events)
        && (!o.Unit? ==> pending == old(pending) && clusters == old(clusters))
    {
      var v := ReadVint(pending, true);
      if v.Short? { return false; }
      if v.Bad? { failed := true; return false; }
      var w := ReadVint(pending[v.len..], false);
      if w.Short? { return false; }
      if w.Bad? { failed := true; return false; }
      var e := Element(v.value, w.value, v.len + w.len, w.value == Pow2(7 * w.len) - 1);
      assert ReadElement(pending) == ElementOk(e);
      var total := Extent(stage, e);
      if total == 0 { failed := true; return false; }
      if |pending| < total { return false; }
      if stage < 4 {
        if e.id != EXPECTED[stage] || |prefix| + total > MAX_PREFIX { failed := true; return false; }
        prefix, stage := prefix + pending[..total], stage + 1;
      } else {
        if e.id != CLUSTER_ID { failed := true; return false; }
        anchor := At(offset);
        clusters := clusters + [Cluster(offset, pending[..total])];
      }
      pending := pending[total..];
      offset := offset + total;
      return true;
    }

    // The absolute position is taken from the caller whenever nothing is pending.
    method Consume(buf: bytes, base: nat)
      modifies `failed, `prefix, `stage, `offset, `anchor, `pending, `clusters
      ensures View() == FeedAt(old(View()), buf, base)
    {
      hide EbmlStep, Run, After;
      if failed { return; }
      if pending == [] { offset := base; }
      ghost var from := State();
      assert pending == [] ==> pending + buf == buf;
      pending := pending + buf;
      ghost var all := pending;
      ghost var found := TakeElements();
      AfterIs(old(clusters), Run(EbmlStep, from, all));
      assert View() == After(old(clusters), Run(EbmlStep, from, all));
    }

    // One feed call. Bytes that follow those already fed keep the scanner in step with the stream.
    method Feed(buf: bytes, base: nat)
      modifies this
      ensures View() == FeedAt(old(View()), buf, base) && started
      ensures start == (if old(started) then old(start) else base) && input == old(input) + buf
      ensures old(Valid()) && (old(started) ==> base == old(start + |input|)) ==> Valid()
    {
      hide EbmlStep, Run, FeedAt;
      Consume(buf, base);
      FirstScan(base, buf);
      ScannedOn(start, input, buf);
      assert input == [] ==> input + buf == buf;
      if !started { start := base; }
      started, input := true, input + buf;
    }

    // The scan loop. Elements are taken until one is incomplete, or the stream fails.
    method TakeElements() returns (ghost found: seq<Cluster>)
      requires !failed
      modifies `failed, `prefix, `stage, `offset, `anchor, `pending, `clusters
      ensures var r := Run(EbmlStep, old(State()), old(pending));
        && found == r.events && failed == !r.alive && State() == r.state
        && clusters == old(clusters) + found && (!failed ==> pending == r.held) && (failed ==> r.held == [])
    {
      hide EbmlStep, Run;
      found := [];
      ghost var goal := Run(EbmlStep, State(), pending);
      while pending != []
        invariant !failed && clusters == old(clusters) + found
        invariant goal == After(found, Run(EbmlStep, State(), pending))
        decreases |pending|
      {
        StepShape(State(), pending);
        RunStops(EbmlStep, State(), pending);
        ghost var o := EbmlStep(State(), pending);
        if o.Unit? { RunUnit(EbmlStep, State(), pending); }
        var taken := TakeElement();
        if !taken { return; }
        found := found + o.events;
      }
      NothingPending(State());
      RunStops(EbmlStep, State(), []);
    }

    // A joining point is offered exactly while the stream is sound and has had a cluster. Whatever comes
    // after, the prefix and the stream from that point are decodable.
    method JoinOffset() returns (out: nat, ok: bool)
      requires Valid()
      ensures ok <==> started && Scanned(start, input).alive && Scanned(start, input).events != []
      ensures ok ==> forall more :: Decodable(start, input, prefix, out, more)
    {
      hide EbmlStep, Run, Decodable;
      ScannedIs(start, input);
      ClusterAnchors(FRESH.(offset := start), input);
      AnchorNeedsCluster(FRESH.(offset := start), input);
      if anchor.At? && !failed {
        forall more ensures Decodable(start, input, prefix, anchor.offset, more) {
          JoinIsDecodable(start, input, more);
        }
        return anchor.offset, true;
      }
      return 0, false;
    }
  }

  lemma FirstScan(base: nat, buf: bytes)
    ensures FeedAt(Session(true, FRESH, [], []), buf, base) == Scanned(base, buf)
  {
    hide EbmlStep, Run;
  }

  lemma AfterIs(a: seq<Cluster>, r: ScanSession)
    ensures After(a, r) == Session(r.alive, r.state, r.held, a + r.events)
  {
  }
}
