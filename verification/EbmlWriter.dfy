/**
  What the live Matroska scanner accepts, against a writer of section 4 and 5 of RFC 8794: element IDs as
  their bytes, sizes of one to eight bytes with a marker bit, an all-ones size for an unknown one.
 */
module EbmlWriter {
  import opened Bytes
  import opened Numbers
  import opened StreamDecoder
  import opened EbmlScanner

  // ---------------------------------------------------------------- integers

  // The k lowest bytes of n, most significant first.
  function BigEndian(n: nat, k: nat): (r: bytes)
    ensures |r| == k
  {
    if k == 0 then [] else BigEndian(n / 256, k - 1) + [n % 256]
  }

  // A size: a marker bit above 7k bits of value, in k bytes.
  function PutSize(v: nat, k: nat): bytes
    requires 1 <= k <= 8
  {
    BigEndian(Pow2(7 * k) + v, k)
  }

  // The numbers that are element IDs of k bytes: those with their own marker bit.
  predicate IsId(n: nat, k: nat)
  {
    1 <= k <= 4 && Pow2(7 * k) <= n < 2 * Pow2(7 * k)
  }

  lemma {:induction false} Pow2Add(a: nat, b: nat)
    ensures Pow2(a + b) == Pow2(a) * Pow2(b)
    decreases a
  {
    if a > 0 { Pow2Add(a - 1, b); }
  }

  lemma Pow2Byte(k: nat)
    requires k > 0
    ensures Pow2(8 * k) == 256 * Pow2(8 * (k - 1))
  {
    assert Pow2(8) == 256;
    hide Pow2;
    Pow2Add(8, 8 * (k - 1));
  }

  // A big-endian number is read back, and what was read is spelled so.
  lemma {:induction false} ReadsBack(n: nat, k: nat)
    requires n < Pow2(8 * k)
    ensures Accumulate(0, BigEndian(n, k)) == n
  {
    hide Pow2;
    if k == 0 {
      assert Pow2(8 * 0) == 1 by { One(); }
    } else {
      Pow2Byte(k);
      Quotient(n, Pow2(8 * (k - 1)));
      ReadsBack(n / 256, k - 1);
      assert BigEndian(n, k)[..k - 1] == BigEndian(n / 256, k - 1);
    }
  }

  lemma One()
    ensures Pow2(0) == 1
  {
  }

  lemma Quotient(n: nat, m: nat)
    requires n < 256 * m
    ensures n / 256 < m
  {
  }

  lemma {:induction false} SpelledSo(q: bytes)
    ensures BigEndian(Accumulate(0, q), |q|) == q && Accumulate(0, q) < Pow2(8 * |q|)
  {
    hide Pow2;
    if q == [] {
      One();
    } else {
      var k := |q|;
      SpelledSo(q[..k - 1]);
      Pow2Byte(k);
      var a := Accumulate(0, q[..k - 1]);
      assert (a * 256 + q[k - 1]) / 256 == a && (a * 256 + q[k - 1]) % 256 == q[k - 1];
      assert q == q[..k - 1] + [q[k - 1]];
    }
  }

  // Leading bytes count by their place.
  lemma {:induction false} LeadCounts(lead: nat, q: bytes)
    ensures Accumulate(lead, q) == lead * Pow2(8 * |q|) + Accumulate(0, q)
  {
    hide Pow2;
    if q == [] {
      One();
    } else {
      LeadCounts(lead, q[..|q| - 1]);
      Pow2Byte(|q|);
      var m := Pow2(8 * (|q| - 1));
      assert lead * (256 * m) == (lead * m) * 256;
    }
  }

  lemma FirstByte(q: bytes)
    requires q != []
    ensures Accumulate(0, q) == q[0] * Pow2(8 * (|q| - 1)) + Accumulate(0, q[1..]) == Accumulate(q[0], q[1..])
  {
    LeadCounts(q[0], q[1..]);
    FrontAsLead(q);
  }

  lemma {:induction false} FrontAsLead(q: bytes)
    requires q != []
    ensures Accumulate(0, q) == Accumulate(q[0], q[1..])
  {
    if |q| == 1 {
      assert q[..0] == [] && q[1..] == [];
    } else {
      FrontAsLead(q[..|q| - 1]);
      assert q[..|q| - 1][1..] == q[1..][..|q| - 2];
    }
  }

  // The marker is in the first byte: k bytes hold a number between 2^7k and 2^(7k+1) exactly when the
  // first of them says that there are k.
  lemma MarkerSays(q: bytes)
    requires 1 <= |q| <= 8
    ensures Pow2(7 * |q|) <= Accumulate(0, q) < 2 * Pow2(7 * |q|)
      <==> q[0] != 0 && VintLength(q[0]) == |q|
  {
    hide VintLength, Pow2, Accumulate;
    var k, rest := |q|, q[1..];
    FirstByte(q);
    SpelledSo(rest);
    var m, a := Pow2(8 * (k - 1)), Pow2(8 - k);
    Pow2Add(8 - k, 8 * (k - 1));
    assert 8 - k + 8 * (k - 1) == 7 * k;
    Places(q[0], m, Accumulate(0, rest), a);
    assert Pow2(9 - k) == 2 * a by { Doubled(8 - k); }
    if a <= q[0] < 2 * a { MarkerLength(q[0], k); }
  }

  lemma Doubled(k: nat)
    ensures Pow2(k + 1) == 2 * Pow2(k)
  {
  }

  lemma Places(b: nat, m: nat, low: nat, a: nat)
    requires low < m && a > 0
    ensures a * m <= b * m + low < 2 * (a * m) <==> a <= b < 2 * a
  {
    Scaled(b + 1, a, m);
    Scaled(2 * a, b, m);
    Scaled(a, b, m);
    Scaled(b + 1, 2 * a, m);
    assert (b + 1) * m == b * m + m;
    assert (2 * a) * m == 2 * (a * m);
  }

  lemma Scaled(a: nat, b: nat, m: nat)
    ensures a <= b ==> a * m <= b * m
  {
  }

  lemma IdReads(n: nat, k: nat, rest: bytes)
    requires IsId(n, k)
    ensures Vint(BigEndian(n, k) + rest, true) == Value(n, k)
  {
    hide Pow2, Accumulate, BigEndian, VintLength;
    var q := BigEndian(n, k);
    Room(7 * k + 1, 8 * k);
    Doubled(7 * k);
    ReadsBack(n, k);
    MarkerSays(q);
    FirstByte(q);
    assert (q + rest)[1..k] == q[1..];
  }

  lemma {:induction false} Room(a: nat, b: nat)
    requires a <= b
    ensures Pow2(a) <= Pow2(b)
    decreases b
  {
    if a < b { Room(a, b - 1); }
  }

  lemma IdSpelled(p: bytes)
    requires Vint(p, true).Value?
    ensures var v := Vint(p, true); IsId(v.value, v.len) && p[..v.len] == BigEndian(v.value, v.len)
  {
    hide Pow2, Accumulate, BigEndian, VintLength;
    var k := Vint(p, true).len;
    var q := p[..k];
    assert q[1..] == p[1..k];
    FirstByte(q);
    MarkerSays(q);
    SpelledSo(q);
  }

  // Dropping the marker from the first byte drops it from the number.
  lemma MarkerDrops(q: bytes)
    requires 1 <= |q| <= 8 && q[0] >= Pow2(8 - |q|)
    ensures Accumulate(0, q) == Pow2(7 * |q|) + Accumulate(q[0] - Pow2(8 - |q|), q[1..])
  {
    hide Pow2, Accumulate;
    var k, a := |q|, Pow2(8 - |q|);
    var m := Pow2(8 * (k - 1));
    FirstByte(q);
    LeadCounts(q[0] - a, q[1..]);
    Pow2Add(8 - k, 8 * (k - 1));
    assert 8 - k + 8 * (k - 1) == 7 * k;
    assert (q[0] - a) * m == q[0] * m - a * m;
  }

  lemma SizeReads(v: nat, k: nat, rest: bytes)
    requires 1 <= k <= 8 && v < Pow2(7 * k)
    ensures Vint(PutSize(v, k) + rest, false) == Value(v, k)
  {
    hide Pow2, Accumulate, BigEndian, VintLength;
    var q := PutSize(v, k);
    Room(7 * k + 1, 8 * k);
    Doubled(7 * k);
    ReadsBack(Pow2(7 * k) + v, k);
    MarkerSays(q);
    MarkerDrops(q);
    assert (q + rest)[1..k] == q[1..];
  }

  lemma SizeSpelled(p: bytes)
    requires Vint(p, false).Value?
    ensures var v := Vint(p, false);
      1 <= v.len <= 8 && v.value < Pow2(7 * v.len) && p[..v.len] == PutSize(v.value, v.len)
  {
    hide Pow2, Accumulate, BigEndian, VintLength;
    var k := Vint(p, false).len;
    var q := p[..k];
    assert q[1..] == p[1..k];
    MarkerDrops(q);
    MarkerSays(q);
    SpelledSo(q);
  }

  // ---------------------------------------------------------------- elements

  const EBML := 0x1A45DFA3
  const SEGMENT := 0x18538067
  const INFO := 0x1549A966
  const TRACKS := 0x1654AE6B
  const CLUSTER := 0x1F43B675

  // A body, and how many bytes its size is written in.
  datatype Piece = Piece(width: nat, body: bytes)

  function Head(id: nat, size: nat, width: nat): (r: bytes)
    requires 1 <= width <= 8
    ensures |r| == 4 + width
  {
    BigEndian(id, 4) + PutSize(size, width)
  }

  function Whole(id: nat, e: Piece): bytes
    requires 1 <= e.width <= 8
  {
    Head(id, |e.body|, e.width) + e.body
  }

  // The size fits and is not the one that stands for an unknown size.
  predicate Sized(e: Piece, cap: nat)
  {
    1 <= e.width <= 8 && |e.body| < Pow2(7 * e.width) - 1 && |e.body| <= cap
  }

  lemma FourByteIds()
    ensures forall id | id in {EBML, SEGMENT, INFO, TRACKS, CLUSTER} :: IsId(id, 4)
    ensures forall id, k | id in {EBML, SEGMENT, INFO, TRACKS, CLUSTER} && IsId(id, k) :: k == 4
  {
    hide Pow2;
    Powers();
  }

  lemma Powers()
    ensures Pow2(28) == 0x1000_0000 && Pow2(21) == 0x20_0000 && Pow2(14) == 0x4000 && Pow2(7) == 128
  {
    assert Pow2(7) == 128;
    hide Pow2;
    Pow2Add(7, 7);
    Pow2Add(14, 7);
    Pow2Add(14, 14);
  }

  lemma HeadReads(id: nat, size: nat, width: nat, rest: bytes)
    requires IsId(id, 4) && 1 <= width <= 8 && size < Pow2(7 * width)
    ensures ReadElement(Head(id, size, width) + rest)
      == ElementOk(Element(id, size, 4 + width, size == Pow2(7 * width) - 1))
  {
    hide Pow2, Vint, BigEndian, PutSize;
    var a, b := BigEndian(id, 4), PutSize(size, width);
    var p := Head(id, size, width) + rest;
    assert p == a + (b + rest) && p[4..] == b + rest;
    IdReads(id, 4, b + rest);
    SizeReads(size, width, rest);
  }

  lemma HeadSpelled(p: bytes)
    requires ReadElement(p).ElementOk? && ReadElement(p).e.id in {EBML, SEGMENT, INFO, TRACKS, CLUSTER}
    ensures var e := ReadElement(p).e;
      && 5 <= e.header <= 12 && e.size < Pow2(7 * (e.header - 4))
      && (e.unknown <==> e.size == Pow2(7 * (e.header - 4)) - 1)
      && p[..e.header] == Head(e.id, e.size, e.header - 4)
  {
    hide Pow2, Vint, BigEndian, PutSize;
    var e := ReadElement(p).e;
    IdSpelled(p);
    FourByteIds();
    SizeSpelled(p[4..]);
    assert p[..e.header] == p[..4] + p[4..][..e.header - 4];
  }

  // ---------------------------------------------------------------- streams

  const HEADER_CAP := 65536
  const CLUSTER_CAP := 4 * 1024 * 1024
  const PREFIX_CAP := 131072

  // The elements before the first cluster; the Segment has only its head, and no size.
  datatype Header = Header(ebml: Piece, segment: nat, info: Piece, tracks: Piece)

  predicate Legal(h: Header)
  {
    && Sized(h.ebml, HEADER_CAP) && Sized(h.info, HEADER_CAP) && Sized(h.tracks, HEADER_CAP) && 1 <= h.segment <= 8
    && |HeaderBytes(h)| <= PREFIX_CAP
  }

  function SegmentHead(width: nat): bytes
    requires 1 <= width <= 8
  {
    Head(SEGMENT, Pow2(7 * width) - 1, width)
  }

  function HeaderBytes(h: Header): bytes
    requires 1 <= h.ebml.width <= 8 && 1 <= h.segment <= 8 && 1 <= h.info.width <= 8 && 1 <= h.tracks.width <= 8
  {
    Whole(EBML, h.ebml) + SegmentHead(h.segment) + Whole(INFO, h.info) + Whole(TRACKS, h.tracks)
  }

  predicate AllSized(cs: seq<Piece>)
  {
    forall i | 0 <= i < |cs| :: Sized(cs[i], CLUSTER_CAP)
  }

  function ClusterBytes(cs: seq<Piece>): bytes
    requires AllSized(cs)
  {
    if cs == [] then [] else Whole(CLUSTER, cs[0]) + ClusterBytes(cs[1..])
  }

  // The clusters with their positions, the first of them at `at`.
  function Placed(cs: seq<Piece>, at: nat): seq<Cluster>
    requires AllSized(cs)
  {
    if cs == [] then []
    else [Cluster(at, Whole(CLUSTER, cs[0]))] + Placed(cs[1..], at + |Whole(CLUSTER, cs[0])|)
  }

  // The element that may come at a stage with a size of its own.
  function Due(stage: nat): nat
  {
    if stage == 0 then EBML else if stage == 2 then INFO else if stage == 3 then TRACKS else CLUSTER
  }

  predicate Fits(s: Scan, e: Piece)
  {
    && s.stage in {0, 2, 3, 4} && Sized(e, if s.stage < 4 then HEADER_CAP else CLUSTER_CAP)
    && (s.stage < 4 ==> |s.prefix| + |Whole(Due(s.stage), e)| <= PREFIX_CAP)
  }

  // The state and events once the bytes w have been taken as one element.
  predicate Taken(o: Outcome<Scan, Cluster>, s: Scan, w: bytes)
  {
    o == if s.stage < 4 then Unit(|w|, Scan(s.stage + 1, s.prefix + w, s.offset + |w|, s.anchor), [])
         else Unit(|w|, Scan(s.stage, s.prefix, s.offset + |w|, At(s.offset)), [Cluster(s.offset, w)])
  }

  lemma TakesPiece(s: Scan, e: Piece, rest: bytes)
    requires Fits(s, e)
    ensures Taken(EbmlStep(s, Whole(Due(s.stage), e) + rest), s, Whole(Due(s.stage), e))
  {
    hide Pow2, ReadElement, Head;
    var id, w := Due(s.stage), Whole(Due(s.stage), e);
    var head := Head(id, |e.body|, e.width);
    FourByteIds();
    HeadReads(id, |e.body|, e.width, e.body + rest);
    assert w + rest == head + (e.body + rest);
    assert (w + rest)[..|w|] == w;
  }

  lemma TakesSegment(s: Scan, width: nat, rest: bytes)
    requires s.stage == 1 && 1 <= width <= 8 && |s.prefix| + 4 + width <= PREFIX_CAP
    ensures Taken(EbmlStep(s, SegmentHead(width) + rest), s, SegmentHead(width))
  {
    hide Pow2, ReadElement, Head;
    var w := SegmentHead(width);
    FourByteIds();
    HeadReads(SEGMENT, Pow2(7 * width) - 1, width, rest);
    assert (w + rest)[..|w|] == w;
  }

  // Whatever is taken was written so.
  lemma PieceTaken(s: Scan, p: bytes) returns (e: Piece)
    requires s.stage in {0, 2, 3, 4} && EbmlStep(s, p).Unit?
    ensures Fits(s, e) && p[..EbmlStep(s, p).used] == Whole(Due(s.stage), e)
  {
    hide Pow2, ReadElement, Head;
    HeadSpelled(p);
    var r, used := ReadElement(p).e, EbmlStep(s, p).used;
    e := Piece(r.header - 4, p[r.header..used]);
    assert p[..used] == p[..r.header] + e.body;
  }

  lemma SegmentTaken(s: Scan, p: bytes) returns (width: nat)
    requires s.stage == 1 && EbmlStep(s, p).Unit?
    ensures 1 <= width <= 8 && p[..EbmlStep(s, p).used] == SegmentHead(width)
    ensures |s.prefix| + |SegmentHead(width)| <= PREFIX_CAP
  {
    hide Pow2, ReadElement, Head;
    HeadSpelled(p);
    width := ReadElement(p).e.header - 4;
  }

  function Next(s: Scan, w: bytes): Scan
  {
    Scan(s.stage + 1, s.prefix + w, s.offset + |w|, s.anchor)
  }

  lemma RunsOn(s: Scan, w: bytes, rest: bytes)
    requires s.stage < 4 && w != [] && Taken(EbmlStep(s, w + rest), s, w)
    ensures Run(EbmlStep, s, w + rest) == Run(EbmlStep, Next(s, w), rest)
  {
    hide EbmlStep, Run;
    RunUnit(EbmlStep, s, w + rest);
    assert (w + rest)[|w|..] == rest;
    var r := Run(EbmlStep, Next(s, w), rest);
    assert [] + r.events == r.events;
  }

  // The scanner after the header.
  function Ready(h: Header, base: nat): Scan
    requires Legal(h)
  {
    Scan(4, HeaderBytes(h), base + |HeaderBytes(h)|, NoAnchor)
  }

  lemma HeaderTaken(h: Header, base: nat, rest: bytes)
    requires Legal(h)
    ensures Run(EbmlStep, FRESH.(offset := base), HeaderBytes(h) + rest) == Run(EbmlStep, Ready(h, base), rest)
  {
    hide EbmlStep, Run, Whole, SegmentHead, Pow2;
    var s := FRESH.(offset := base);
    var a, b, c, d := Whole(EBML, h.ebml), SegmentHead(h.segment), Whole(INFO, h.info), Whole(TRACKS, h.tracks);
    NeverEmpty(h);
    var t := Next(s, a);
    var u := Next(t, b);
    var v := Next(u, c);
    assert [] + a == a;
    assert HeaderBytes(h) + rest == a + (b + (c + (d + rest)));
    TakesPiece(s, h.ebml, b + (c + (d + rest)));
    RunsOn(s, a, b + (c + (d + rest)));
    TakesSegment(t, h.segment, c + (d + rest));
    RunsOn(t, b, c + (d + rest));
    TakesPiece(u, h.info, d + rest);
    RunsOn(u, c, d + rest);
    TakesPiece(v, h.tracks, rest);
    RunsOn(v, d, rest);
    assert Next(v, d) == Ready(h, base);
  }

  lemma NeverEmpty(h: Header)
    requires Legal(h)
    ensures Whole(EBML, h.ebml) != [] && Whole(INFO, h.info) != [] && Whole(TRACKS, h.tracks) != []
    ensures |SegmentHead(h.segment)| == 4 + h.segment
  {
    hide Pow2;
  }

  // A clean end among the clusters.
  ghost predicate EndsWith(r: ScanSession, s: Scan, cs: seq<Piece>)
    requires AllSized(cs)
  {
    && r.alive && r.held == [] && r.events == Placed(cs, s.offset)
    && r.state == Scan(4, s.prefix, s.offset + |ClusterBytes(cs)|,
                       if cs == [] then s.anchor else At(r.events[|r.events| - 1].at))
  }

  lemma {:induction false} ClustersTaken(s: Scan, cs: seq<Piece>)
    requires s.stage == 4 && AllSized(cs)
    ensures EndsWith(Run(EbmlStep, s, ClusterBytes(cs)), s, cs)
    decreases |cs|
  {
    hide EbmlStep, Run, Whole, Pow2;
    if cs == [] {
      NothingPending(s);
      RunStops(EbmlStep, s, []);
    } else {
      assert Sized(cs[0], CLUSTER_CAP);
      var w, rest := Whole(CLUSTER, cs[0]), ClusterBytes(cs[1..]);
      OneCluster(s, cs[0], rest);
      ClustersTaken(Scan(4, s.prefix, s.offset + |w|, At(s.offset)), cs[1..]);
    }
  }

  lemma OneCluster(s: Scan, c: Piece, rest: bytes)
    requires s.stage == 4 && Sized(c, CLUSTER_CAP)
    ensures var w := Whole(CLUSTER, c);
      Run(EbmlStep, s, w + rest)
        == After([Cluster(s.offset, w)], Run(EbmlStep, Scan(4, s.prefix, s.offset + |w|, At(s.offset)), rest))
  {
    hide EbmlStep, Run, Whole, Head, Pow2;
    var w := Whole(CLUSTER, c);
    assert |w| > 0 by { SomeBytes(c); }
    TakesPiece(s, c, rest);
    RunUnit(EbmlStep, s, w + rest);
    assert (w + rest)[|w|..] == rest;
  }

  lemma SomeBytes(c: Piece)
    requires 1 <= c.width <= 8
    ensures |Whole(CLUSTER, c)| > 0
  {
  }

  lemma {:induction false} ClustersSpelled(s: Scan, p: bytes) returns (cs: seq<Piece>)
    requires s.stage == 4 && Run(EbmlStep, s, p).alive && Run(EbmlStep, s, p).held == []
    ensures AllSized(cs) && p == ClusterBytes(cs)
    decreases |p|
  {
    hide EbmlStep, Whole, Pow2;
    var o := EbmlStep(s, p);
    if o.Unit? {
      StepShape(s, p);
      var c := PieceTaken(s, p);
      var more := ClustersSpelled(o.next, p[o.used..]);
      cs := [c] + more;
      assert cs[1..] == more;
      assert p == p[..o.used] + p[o.used..];
    } else {
      cs := [];
    }
  }

  // The first decision of a run that gets past the header.
  lemma MustTake(s: Scan, p: bytes)
    requires s.stage < 4 && Run(EbmlStep, s, p).alive && Run(EbmlStep, s, p).state.stage >= 4
    ensures var o := EbmlStep(s, p);
      && o.Unit? && 0 < o.used <= |p| && o.next == Next(s, p[..o.used])
      && Run(EbmlStep, s, p) == Run(EbmlStep, o.next, p[o.used..])
  {
    hide EbmlStep, Run;
    RunStops(EbmlStep, s, p);
    StepShape(s, p);
    var o := EbmlStep(s, p);
    if o.Unit? {
      RunUnit(EbmlStep, s, p);
      var r := Run(EbmlStep, o.next, p[o.used..]);
      assert [] + r.events == r.events;
    }
  }

  ghost predicate PassesHeader(s: Scan, p: bytes)
  {
    Run(EbmlStep, s, p).alive && Run(EbmlStep, s, p).state.stage >= 4
  }

  lemma PieceOff(s: Scan, p: bytes) returns (e: Piece, rest: bytes)
    requires s.stage in {0, 2, 3} && PassesHeader(s, p)
    ensures Fits(s, e)
    ensures var w := Whole(Due(s.stage), e);
      p == w + rest && Run(EbmlStep, s, p) == Run(EbmlStep, Next(s, w), rest)
  {
    hide EbmlStep, Run, Whole, Pow2;
    MustTake(s, p);
    e := PieceTaken(s, p);
    rest := p[EbmlStep(s, p).used..];
  }

  lemma SegmentOff(s: Scan, p: bytes) returns (width: nat, rest: bytes)
    requires s.stage == 1 && PassesHeader(s, p)
    ensures 1 <= width <= 8 && p == SegmentHead(width) + rest
    ensures Run(EbmlStep, s, p) == Run(EbmlStep, Next(s, SegmentHead(width)), rest)
  {
    hide EbmlStep, Run, SegmentHead;
    MustTake(s, p);
    width := SegmentTaken(s, p);
    rest := p[EbmlStep(s, p).used..];
  }

  lemma HeaderSpelled(base: nat, p: bytes) returns (h: Header, rest: bytes)
    requires PassesHeader(FRESH.(offset := base), p)
    ensures Legal(h) && p == HeaderBytes(h) + rest
    ensures Run(EbmlStep, FRESH.(offset := base), p) == Run(EbmlStep, Ready(h, base), rest)
  {
    hide EbmlStep, Run, Whole, SegmentHead, Pow2;
    var s := FRESH.(offset := base);
    var e, p1 := PieceOff(s, p);
    var t := Next(s, Whole(EBML, e));
    var g, p2 := SegmentOff(t, p1);
    var u := Next(t, SegmentHead(g));
    var i, p3 := PieceOff(u, p2);
    var v := Next(u, Whole(INFO, i));
    var k, p4 := PieceOff(v, p3);
    h, rest := Header(e, g, i, k), p4;
    Chain([], Whole(EBML, e), SegmentHead(g), Whole(INFO, i), Whole(TRACKS, k), rest);
  }

  lemma Chain(z: bytes, a: bytes, b: bytes, c: bytes, d: bytes, rest: bytes)
    ensures a + (b + (c + (d + rest))) == a + b + c + d + rest
    ensures z == [] ==> z + a + b + c + d == a + b + c + d
  {
  }

  // ---------------------------------------------------------------- the scanner and the writer

  // A scanner that has been given a whole stream in these pieces, the first of them at `base`.
  ghost function Fed(pieces: seq<bytes>, base: nat): ScanSession
  {
    FeedStream(Session(true, FRESH.(offset := base), [], []), pieces, base)
  }

  lemma FedAtOnce(pieces: seq<bytes>, base: nat)
    ensures Fed(pieces, base) == Run(EbmlStep, FRESH.(offset := base), Join(pieces))
  {
    hide EbmlStep, Run;
    var s: ScanSession := Session(true, FRESH.(offset := base), [], []);
    NothingPending(s.state);
    ScanSplitInvariance(s, pieces, base);
    assert [] + Join(pieces) == Join(pieces);
    var r := Run(EbmlStep, s.state, Join(pieces));
    assert [] + r.events == r.events;
  }

  // A stream of header and clusters as the writer makes it, in any pieces, is taken to its last byte: the prefix
  // is the header, and the clusters found are those written, with their bytes and positions.
  lemma Decodes(h: Header, cs: seq<Piece>, pieces: seq<bytes>, base: nat)
    requires Legal(h) && AllSized(cs) && Join(pieces) == HeaderBytes(h) + ClusterBytes(cs)
    ensures EndsWith(Fed(pieces, base), Ready(h, base), cs)
  {
    hide EbmlStep, Run, HeaderBytes, ClusterBytes, Pow2, Sized;
    FedAtOnce(pieces, base);
    HeaderTaken(h, base, ClusterBytes(cs));
    ClustersTaken(Ready(h, base), cs);
  }

  ghost predicate Writes(h: Header, cs: seq<Piece>, b: bytes)
  {
    Legal(h) && AllSized(cs) && b == HeaderBytes(h) + ClusterBytes(cs)
  }

  // And nothing else is: the streams taken to the last byte, past the header, are exactly those.
  lemma AcceptsExactly(pieces: seq<bytes>, base: nat)
    ensures var r := Fed(pieces, base);
      r.alive && r.held == [] && r.state.stage >= 4 <==> exists h, cs :: Writes(h, cs, Join(pieces))
  {
    hide EbmlStep, Run, HeaderBytes, ClusterBytes, Pow2, Sized;
    FedAtOnce(pieces, base);
    var r := Fed(pieces, base);
    if r.alive && r.held == [] && r.state.stage >= 4 {
      var h, rest := HeaderSpelled(base, Join(pieces));
      var cs := ClustersSpelled(Ready(h, base), rest);
      assert Writes(h, cs, Join(pieces));
    }
    forall h, cs | Writes(h, cs, Join(pieces)) ensures r.alive && r.held == [] && r.state.stage >= 4 {
      Decodes(h, cs, pieces, base);
    }
  }
}
