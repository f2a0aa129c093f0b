/**
  SHA-256 (FIPS 180-4) and the streaming, in-place implementation of it (sha256.cpp).

  The specification is one-shot: pad the whole message, then compress its blocks. The program keeps
  a 64-byte buffer, a two-word bit counter and eight chaining words, and is fed in pieces. Words are
  read from the buffer as a little-endian host does.
 */
module Sha256 {
  import opened Bytes

  type octets = seq<bv8>
  type words = seq<bv32>

  // ---------------------------------------------------------------- FIPS 180-4 section 4.1.2

  // Addition modulo 2^32.
  function Sum(x: bv32, y: bv32): bv32 { x + y }

  function Rotr(x: bv32, n: bv32): bv32
    requires 0 < n < 32
  {
    (x >> n) | (x << (32 - n))
  }

  function Ch(x: bv32, y: bv32, z: bv32): bv32 { (x & y) ^ (!x & z) }
  function Maj(x: bv32, y: bv32, z: bv32): bv32 { (x & y) ^ (x & z) ^ (y & z) }
  function BigSigma0(x: bv32): bv32 { Rotr(x, 2) ^ Rotr(x, 13) ^ Rotr(x, 22) }
  function BigSigma1(x: bv32): bv32 { Rotr(x, 6) ^ Rotr(x, 11) ^ Rotr(x, 25) }
  function SmallSigma0(x: bv32): bv32 { Rotr(x, 7) ^ Rotr(x, 18) ^ (x >> 3) }
  function SmallSigma1(x: bv32): bv32 { Rotr(x, 17) ^ Rotr(x, 19) ^ (x >> 10) }

  function K0(): (k: words)
    ensures |k| == 16
  {
    [
      0x428a2f98, 0x71374491, 0xb5c0fbcf, 0xe9b5dba5, 0x3956c25b, 0x59f111f1, 0x923f82a4, 0xab1c5ed5,
      0xd807aa98, 0x12835b01, 0x243185be, 0x550c7dc3, 0x72be5d74, 0x80deb1fe, 0x9bdc06a7, 0xc19bf174]
  }

  function K1(): (k: words)
    ensures |k| == 16
  {
    [
      0xe49b69c1, 0xefbe4786, 0x0fc19dc6, 0x240ca1cc, 0x2de92c6f, 0x4a7484aa, 0x5cb0a9dc, 0x76f988da,
      0x983e5152, 0xa831c66d, 0xb00327c8, 0xbf597fc7, 0xc6e00bf3, 0xd5a79147, 0x06ca6351, 0x14292967]
  }

  function K2(): (k: words)
    ensures |k| == 16
  {
    [
      0x27b70a85, 0x2e1b2138, 0x4d2c6dfc, 0x53380d13, 0x650a7354, 0x766a0abb, 0x81c2c92e, 0x92722c85,
      0xa2bfe8a1, 0xa81a664b, 0xc24b8b70, 0xc76c51a3, 0xd192e819, 0xd6990624, 0xf40e3585, 0x106aa070]
  }

  function K3(): (k: words)
    ensures |k| == 16
  {
    [
      0x19a4c116, 0x1e376c08, 0x2748774c, 0x34b0bcb5, 0x391c0cb3, 0x4ed8aa4a, 0x5b9cca4f, 0x682e6ff3,
      0x748f82ee, 0x78a5636f, 0x84c87814, 0x8cc70208, 0x90befffa, 0xa4506ceb, 0xbef9a3f7, 0xc67178f2]
  }

  function Constant(t: nat): bv32
    requires t < 64
  {
    if t < 16 then K0()[t] else if t < 32 then K1()[t - 16] else if t < 48 then K2()[t - 32] else K3()[t - 48]
  }

  // Section 5.3.3.
  function Initial(): (h: words)
    ensures |h| == 8
  {
    [0x6a09e667, 0xbb67ae85, 0x3c6ef372, 0xa54ff53a, 0x510e527f, 0x9b05688c, 0x1f83d9ab, 0x5be0cd19]
  }

  // ---------------------------------------------------------------- section 6.2.2

  // The message schedule.
  function W(block: words, t: nat): bv32
    requires |block| == 16
  {
    if t < 16 then block[t] else Mix(W(block, t - 2), W(block, t - 7), W(block, t - 15), W(block, t - 16))
  }

  function Mix(w2: bv32, w7: bv32, w15: bv32, w16: bv32): bv32
  {
    Sum(Sum(Sum(SmallSigma1(w2), w7), SmallSigma0(w15)), w16)
  }

  datatype Regs = Regs(a: bv32, b: bv32, c: bv32, d: bv32, e: bv32, f: bv32, g: bv32, h: bv32)

  function Round(r: Regs, k: bv32, w: bv32): Regs
  {
    var t1 := Sum(Sum(Sum(Sum(r.h, BigSigma1(r.e)), Ch(r.e, r.f, r.g)), k), w);
    var t2 := Sum(BigSigma0(r.a), Maj(r.a, r.b, r.c));
    Regs(Sum(t1, t2), r.a, r.b, r.c, Sum(r.d, t1), r.e, r.f, r.g)
  }

  // The working variables after t rounds.
  function Rounds(start: Regs, block: words, t: nat): Regs
    requires |block| == 16 && t <= 64
  {
    if t == 0 then start else Round(Rounds(start, block, t - 1), Constant(t - 1), W(block, t - 1))
  }

  function Load(h: words): Regs
    requires |h| == 8
  {
    Regs(h[0], h[1], h[2], h[3], h[4], h[5], h[6], h[7])
  }

  function Add(h: words, r: Regs): (s: words)
    requires |h| == 8
    ensures |s| == 8
  {
    [Sum(h[0], r.a), Sum(h[1], r.b), Sum(h[2], r.c), Sum(h[3], r.d),
     Sum(h[4], r.e), Sum(h[5], r.f), Sum(h[6], r.g), Sum(h[7], r.h)]
  }

  function Compress(h: words, block: words): (s: words)
    requires |h| == 8 && |block| == 16
    ensures |s| == 8
  {
    Add(h, Rounds(Load(h), block, 64))
  }

  // ---------------------------------------------------------------- sections 5.1.1 and 5.2.1

  function Word(b: octets, i: nat): bv32
    requires 4 * i + 4 <= |b|
  {
    ((b[4 * i] as bv32) << 24) | ((b[4 * i + 1] as bv32) << 16) | ((b[4 * i + 2] as bv32) << 8) | (b[4 * i + 3] as bv32)
  }

  function Words(b: octets): (w: words)
    requires |b| == 64
    ensures |w| == 16
  {
    seq(16, i requires 0 <= i < 16 => Word(b, i))
  }

  // The chaining value after all whole blocks of `data`.
  function Chain(h: words, data: octets): (s: words)
    requires |h| == 8
    ensures |s| == 8
    decreases |data|
  {
    if |data| < 64 then h else Chain(Compress(h, Words(data[..64])), data[64..])
  }

  function Octet(n: nat): bv8
    requires n < 256
  {
    n as bv8
  }

  function BigEndian(n: nat, k: nat): (r: octets)
    ensures |r| == k
  {
    if k == 0 then [] else BigEndian(n / 256, k - 1) + [Octet(n % 256)]
  }

  // Zero bytes needed after the 1 bit so that eight bytes remain in the last block.
  function ZeroCount(n: nat): (k: nat)
    ensures k < 64 && (n + 1 + k) % 64 == 56
  {
    (119 - n % 64) % 64
  }

  function Padding(n: nat, bits: nat): octets
  {
    [0x80] + seq(ZeroCount(n), _ => 0) + BigEndian(bits, 8)
  }

  function Pad(m: octets): octets
  {
    m + Padding(|m|, 8 * |m|)
  }

  function WordBytes(w: bv32): octets
  {
    [((w >> 24) & 0xff) as bv8, ((w >> 16) & 0xff) as bv8, ((w >> 8) & 0xff) as bv8, (w & 0xff) as bv8]
  }

  function Digest(h: words): octets
  {
    if h == [] then [] else WordBytes(h[0]) + Digest(h[1..])
  }

  function Hash(m: octets): octets
  {
    Digest(Chain(Initial(), Pad(m)))
  }

  // ---------------------------------------------------------------- blocks of a concatenation

  lemma {:induction false} ChainAppend(h: words, a: octets, b: octets)
    requires |h| == 8 && |a| % 64 == 0
    ensures Chain(h, a + b) == Chain(Chain(h, a), b)
    decreases |a|
  {
    hide Compress, Words;
    if a == [] {
      assert a + b == b;
    } else {
      assert (a + b)[..64] == a[..64];
      assert (a + b)[64..] == a[64..] + b;
      ChainAppend(Compress(h, Words(a[..64])), a[64..], b);
    }
  }

  lemma ChainOne(h: words, block: octets)
    requires |h| == 8 && |block| == 64
    ensures Chain(h, block) == Compress(h, Words(block))
  {
    hide Compress, Words;
    assert block[..64] == block && block[64..] == [];
  }

  lemma ChainBlock(h: words, a: octets, block: octets)
    requires |h| == 8 && |a| % 64 == 0 && |block| == 64
    ensures Chain(h, a + block) == Compress(Chain(h, a), Words(block))
  {
    hide Chain, Compress, Words;
    ChainAppend(h, a, block);
    ChainOne(Chain(h, a), block);
  }

  // ---------------------------------------------------------------- the bit counter

  const U32 := 0x1_0000_0000

  datatype Count = Count(lo: nat, hi: nat)

  // 32-bit arithmetic throughout: the product, the sum and the carry.
  function AddBits(c: Count, len: nat): Count
  {
    var lo := (c.lo + (len * 8) % U32) % U32;
    Count(lo, if lo < c.lo then (c.hi + 1) % U32 else c.hi)
  }

  function Total(c: Count): nat
  {
    c.hi * U32 + c.lo
  }

  // The two words count bits modulo 2^64 across an update exactly when the update is shorter than
  // 2^29 bytes: beyond that the product has already lost its high part.
  lemma CounterExact(c: Count, len: nat)
    requires c.lo < U32 && c.hi < U32 && len < U32
    ensures Total(AddBits(c, len)) == (Total(c) + 8 * len) % (U32 * U32) <==> len < 0x2000_0000
  {
    var d, q := (len * 8) % U32, (len * 8) / U32;
    assert len * 8 == q * U32 + d && q < 8;
    assert q == 0 <==> len < 0x2000_0000;
    var n := AddBits(c, len);
    var carry := if c.lo + d >= U32 then 1 else 0;
    assert n.lo == c.lo + d - carry * U32;
    assert n.hi == (c.hi + carry) % U32;
    var wrap := if c.hi + carry == U32 then 1 else 0;
    assert Total(n) == Total(c) + d - wrap * (U32 * U32);
    assert Total(c) + 8 * len == Total(n) + wrap * (U32 * U32) + q * U32;
    ModShift(Total(n), wrap, q);
  }

  lemma ModShift(n: nat, wrap: nat, q: nat)
    requires n < U32 * U32 && wrap <= 1 && q < 8
    ensures (n + wrap * (U32 * U32) + q * U32) % (U32 * U32) == n <==> q == 0
  {
    var m := U32 * U32;
    var x := n + q * U32;
    assert (x + wrap * m) % m == x % m;
    if x < m {
      assert x % m == x;
    } else {
      assert x % m == x - m;
    }
  }

  // Even then the position within the block is right.
  lemma OffsetExact(c: Count, n: nat, len: nat)
    requires c.lo < U32 && c.hi < U32 && c.lo % 8 == 0 && (c.lo / 8) % 64 == n % 64
    ensures var d := AddBits(c, len); d.lo < U32 && d.hi < U32 && d.lo % 8 == 0 && (d.lo / 8) % 64 == (n + len) % 64
  {
    var x := c.lo / 8;
    var y, z := (x + len) % 0x2000_0000, (x + len) / 0x2000_0000;
    assert x + len == z * 0x2000_0000 + y;
    BitsModulo(c.lo, len, z, y);
    BlockOffset(x, n, len, z, y);
  }

  lemma BlockOffset(x: nat, n: nat, len: nat, z: nat, y: nat)
    requires x % 64 == n % 64 && x + len == z * 0x2000_0000 + y
    ensures y % 64 == (n + len) % 64
  {
    var k := z * 0x80_0000 + n / 64 - x / 64;
    assert n + len == y + 64 * k;
    Mod64(n + len, y, k);
  }

  lemma Mod64(a: nat, y: nat, k: int)
    requires a == y + 64 * k
    ensures a % 64 == y % 64
  {
  }

  lemma BitsModulo(lo: nat, len: nat, z: nat, y: nat)
    requires y < 0x2000_0000 && lo + len * 8 == z * U32 + 8 * y
    ensures (lo + (len * 8) % U32) % U32 == 8 * y
  {
    var q := (len * 8) / U32;
    assert lo + (len * 8) % U32 == (z - q) * U32 + 8 * y;
  }

  // ---------------------------------------------------------------- the context

  lemma DigestStep(h: words, i: nat)
    requires i < |h|
    ensures Digest(h[..i + 1]) == Digest(h[..i]) + WordBytes(h[i])
  {
    DigestAppend(h[..i], h[i]);
    assert h[..i + 1] == h[..i] + [h[i]];
  }

  lemma {:induction false} DigestAppend(h: words, w: bv32)
    ensures Digest(h + [w]) == Digest(h) + WordBytes(w)
  {
    hide WordBytes;
    if h == [] {
      assert h + [w] == [w] && [w][1..] == [];
      assert Digest([w]) == WordBytes(w) + [];
    } else {
      assert (h + [w])[1..] == h[1..] + [w];
      DigestAppend(h[1..], w);
    }
  }

  // Chaining words and buffer after message m: whole blocks compressed, the rest in the buffer.
  ghost predicate Absorbed(c: words, save: octets, m: octets)
  {
    var off := |m| % 64;
    |save| == 64 && c == Chain(Initial(), m[..|m| - off]) && save[..off] == m[|m| - off..]
  }

  // The buffer after copying a piece into it.
  function Spliced(save: octets, off: nat, piece: octets): octets
    requires off + |piece| <= |save|
  {
    save[..off] + piece + save[off + |piece|..]
  }

  lemma NextOffset(n: nat, l: nat)
    requires n % 64 + l <= 64
    ensures (n + l) % 64 == if n % 64 + l == 64 then 0 else n % 64 + l
  {
  }

  lemma NothingAbsorbed(save: octets)
    requires |save| == 64
    ensures Absorbed(Initial(), save, [])
  {
    hide Initial, Compress, Words;
    assert Chain(Initial(), []) == Initial();
  }

  lemma AbsorbPart(c: words, save: octets, m: octets, piece: octets)
    requires Absorbed(c, save, m) && |m| % 64 + |piece| < 64
    ensures Absorbed(c, Spliced(save, |m| % 64, piece), m + piece)
  {
    hide Chain;
    var off, n := |m| % 64, m + piece;
    assert |n| % 64 == off + |piece|;
    assert n[..|m| - off] == m[..|m| - off];
    assert Spliced(save, off, piece)[..off + |piece|] == save[..off] + piece;
    assert n[|m| - off..] == m[|m| - off..] + piece;
  }

  lemma AbsorbBlock(c: words, save: octets, m: octets, piece: octets)
    requires Absorbed(c, save, m) && |m| % 64 + |piece| == 64 && |c| == 8
    ensures var block := Spliced(save, |m| % 64, piece);
      |block| == 64 && Absorbed(Compress(c, Words(block)), block, m + piece)
  {
    hide Chain, Compress, Words;
    var off, n, block := |m| % 64, m + piece, Spliced(save, |m| % 64, piece);
    assert |n| % 64 == 0;
    assert block == m[|m| - off..] + piece;
    assert n[..|n|] == n && n == m[..|m| - off] + block;
    ChainBlock(Initial(), m[..|m| - off], block);
  }

  // A padded message is all whole blocks, so the chaining words cover it entirely.
  lemma WholeBlocks(m: octets, bits: nat, c: words, save: octets)
    requires Absorbed(c, save, m + Padding(|m|, bits))
    ensures c == Chain(Initial(), m + Padding(|m|, bits))
  {
    hide Chain, Initial, Padding, Absorbed;
    var n := m + Padding(|m|, bits);
    PaddedLength(|m|, bits);
    assert |n| == |m| + |Padding(|m|, bits)|;
    AbsorbedWhole(c, save, n);
  }

  lemma AbsorbedWhole(c: words, save: octets, n: octets)
    requires Absorbed(c, save, n) && |n| % 64 == 0
    ensures c == Chain(Initial(), n)
  {
    hide Chain, Initial;
    assert n[..|n|] == n;
  }

  lemma PaddedLength(n: nat, bits: nat)
    ensures (n + |Padding(n, bits)|) % 64 == 0
  {
    hide ZeroCount, BigEndian;
    var k := ZeroCount(n);
    assert |Padding(n, bits)| == 1 + k + 8;
    SumMod(n + 1 + k);
  }

  lemma SumMod(x: nat)
    requires x % 64 == 56
    ensures (x + 8) % 64 == 0
  {
  }

  function FourBytes(n: nat): octets
  {
    [Octet(n / 256 / 256 / 256 % 256), Octet(n / 256 / 256 % 256), Octet(n / 256 % 256), Octet(n % 256)]
  }

  lemma BigEndianFour(n: nat, k: nat)
    ensures BigEndian(n, k + 4) == BigEndian(n / 256 / 256 / 256 / 256, k) + FourBytes(n)
  {
    hide Octet;
    var a := n / 256;
    var b := a / 256;
    var c := b / 256;
    assert BigEndian(c, k + 1) == BigEndian(c / 256, k) + [Octet(c % 256)];
    assert BigEndian(b, k + 2) == BigEndian(c, k + 1) + [Octet(b % 256)];
    assert BigEndian(a, k + 3) == BigEndian(b, k + 2) + [Octet(a % 256)];
    assert BigEndian(n, k + 4) == BigEndian(a, k + 3) + [Octet(n % 256)];
  }

  // Eight bytes of a two-word count are the four of each word.
  lemma BigEndianEight(hi: nat, lo: nat)
    requires lo < U32
    ensures BigEndian(hi * U32 + lo, 8) == FourBytes(hi) + FourBytes(lo)
  {
    hide BigEndian, FourBytes;
    var n := hi * U32 + lo;
    BigEndianFour(n, 4);
    BigEndianFour(hi, 0);
    LowWord(hi, lo);
    NoBytes(hi / 256 / 256 / 256 / 256);
    assert [] + FourBytes(hi) == FourBytes(hi);
  }

  lemma NoBytes(n: nat)
    ensures BigEndian(n, 0) == []
  {
  }

  lemma LowWord(hi: nat, lo: nat)
    requires lo < U32
    ensures var n := hi * U32 + lo; n / 256 / 256 / 256 / 256 == hi && FourBytes(n) == FourBytes(lo)
  {
    hide Octet;
    var n := hi * U32 + lo;
    var a, x := n / 256, lo / 256;
    assert a == hi * 0x100_0000 + x && n % 256 == lo % 256;
    var b, y := a / 256, x / 256;
    assert b == hi * 0x1_0000 + y && a % 256 == x % 256;
    var c, z := b / 256, y / 256;
    assert c == hi * 0x100 + z && b % 256 == y % 256;
    assert z < 256;
    assert c / 256 == hi && c % 256 == z;
  }

  lemma PaddingIs(n: nat, c: Count, tail: octets)
    requires c.lo < U32 && |tail| == ZeroCount(n) + 9 && tail[0] == 0x80
    requires forall k :: 1 <= k <= ZeroCount(n) ==> tail[k] == 0
    requires tail[ZeroCount(n) + 1..ZeroCount(n) + 5] == FourBytes(c.hi)
    requires tail[ZeroCount(n) + 5..] == FourBytes(c.lo)
    ensures tail == Padding(n, Total(c))
  {
    hide FourBytes, BigEndian, ZeroCount;
    var k := ZeroCount(n);
    BigEndianEight(c.hi, c.lo);
    assert tail[..k + 1] == [0x80] + seq(k, _ => 0);
    assert tail[k + 1..] == tail[k + 1..k + 5] + tail[k + 5..];
    assert tail == tail[..k + 1] + tail[k + 1..];
  }

  class Context {
    var sz: Count
    const counter: array<bv32>
    const save: array<bv8>
    ghost var message: octets      // everything fed in so far

    // The chaining words cover the whole blocks of the message; the buffer holds the rest.
    ghost predicate Valid()
      reads this, counter, save
    {
      && counter.Length == 8 && save.Length == 64
      && Absorbed(counter[..], save[..], message)
      && sz.lo < U32 && sz.hi < U32 && sz.lo % 8 == 0 && (sz.lo / 8) % 64 == |message| % 64
    }

    // The counter holds the length of the message in bits.
    ghost predicate Counted()
      reads this
    {
      Total(sz) == 8 * |message|
    }

    constructor ()
      ensures Valid() && message == [] && sz == Count(0, 0) && fresh(counter) && fresh(save)
    {
      hide Absorbed, Initial;
      counter := new bv32[8];
      save := new bv8[64];
      sz := Count(0, 0);
      message := [];
      new;
      var h := Initial();
      forall i | 0 <= i < 8 { counter[i] := h[i]; }
      assert counter[..] == Initial();
      NothingAbsorbed(save[..]);
    }

    // Compress one block into the chaining words.
    method Calc(block: words)
      requires counter.Length == 8 && |block| == 16
      modifies counter
      ensures counter[..] == Compress(old(counter[..]), block)
    {
      hide Rounds, Sum;
      ghost var h := counter[..];
      var r := Regs(counter[0], counter[1], counter[2], counter[3], counter[4], counter[5], counter[6], counter[7]);
      var q := SixtyFourRounds(block, r);
      counter[0] := Sum(counter[0], q.a);
      counter[1] := Sum(counter[1], q.b);
      counter[2] := Sum(counter[2], q.c);
      counter[3] := Sum(counter[3], q.d);
      counter[4] := Sum(counter[4], q.e);
      counter[5] := Sum(counter[5], q.f);
      counter[6] := Sum(counter[6], q.g);
      counter[7] := Sum(counter[7], q.h);
      assert counter[..] == Add(h, q);
    }

    static method SixtyFourRounds(block: words, start: Regs) returns (r: Regs)
      requires |block| == 16
      ensures r == Rounds(start, block, 64)
    {
      hide W, Round, Constant;
      var data := Schedule(block);
      r := start;
      var i := 0;
      while i < 64
        invariant 0 <= i <= 64 && r == Rounds(start, block, i)
        invariant forall t :: 0 <= t < 64 ==> data[t] == W(block, t)
      {
        r := OneRound(r, Constant(i), data[i]);
        i := i + 1;
      }
    }

    static method OneRound(r: Regs, k: bv32, w: bv32) returns (s: Regs)
      ensures s == Round(r, k, w)
    {
      hide BigSigma0, BigSigma1, Ch, Maj, Sum;
      var a, b, c, d, e, f, g, h := r.a, r.b, r.c, r.d, r.e, r.f, r.g, r.h;
      var t1 := Sum(Sum(Sum(Sum(h, BigSigma1(e)), Ch(e, f, g)), k), w);
      var t2 := Sum(BigSigma0(a), Maj(a, b, c));
      h := g;
      g := f;
      f := e;
      e := Sum(d, t1);
      d := c;
      c := b;
      b := a;
      a := Sum(t1, t2);
      s := Regs(a, b, c, d, e, f, g, h);
    }

    static method Schedule(block: words) returns (data: array<bv32>)
      requires |block| == 16
      ensures fresh(data) && data.Length == 64 && forall t :: 0 <= t < 64 ==> data[t] == W(block, t)
    {
      hide Mix;
      data := new bv32[64];
      var i := 0;
      while i < 16
        invariant 0 <= i <= 16 && forall t :: 0 <= t < i ==> data[t] == W(block, t)
      {
        data[i] := block[i];
        i := i + 1;
      }
      while i < 64
        invariant 16 <= i <= 64 && forall t :: 0 <= t < i ==> data[t] == W(block, t)
      {
        var w := MixWords(data[i - 2], data[i - 7], data[i - 15], data[i - 16]);
        data[i] := w;
        i := i + 1;
      }
    }

    static method MixWords(w2: bv32, w7: bv32, w15: bv32, w16: bv32) returns (w: bv32)
      ensures w == Mix(w2, w7, w15, w16)
    {
      hide SmallSigma0, SmallSigma1, Sum;
      w := Sum(Sum(Sum(SmallSigma1(w2), w7), SmallSigma0(w15)), w16);
    }

    method CopyIn(off: nat, piece: octets)
      requires save.Length == 64 && off + |piece| <= 64
      modifies save
      ensures save[..] == Spliced(old(save[..]), off, piece)
    {
      forall k | 0 <= k < |piece| {
        save[off + k] := piece[k];
      }
      assert save[..off] == old(save[..off]) && save[off + |piece|..] == old(save[off + |piece|..]);
      assert save[off..off + |piece|] == piece;
      assert save[..] == save[..off] + save[off..off + |piece|] + save[off + |piece|..];
    }

    // The sixteen big-endian words of the buffer.
    method ReadWords() returns (block: words)
      requires save.Length == 64
      ensures block == Words(save[..])
    {
      hide Word;
      block := [];
      var i := 0;
      while i < 16
        invariant 0 <= i <= 16 && |block| == i
        invariant forall k :: 0 <= k < i ==> block[k] == Word(save[..], k)
      {
        block := block + [Word(save[..], i)];
        i := i + 1;
      }
    }

    method CountBits(len: nat)
      modifies this`sz
      ensures sz == AddBits(old(sz), len)
    {
      var lo := (sz.lo + (len * 8) % U32) % U32;
      var hi := sz.hi;
      if lo < sz.lo { hi := (hi + 1) % U32; }
      sz := Count(lo, hi);
    }

    // Feed in a piece of the message. `len * 8` is computed in 32 bits.
    method Update(p: octets)
      requires Valid() && |p| < U32
      modifies this`sz, this`message, counter, save
      ensures Valid() && message == old(message) + p && sz == AddBits(old(sz), |p|)
    {
      hide Absorbed, AddBits;
      var len, off := |p|, (sz.lo / 8) % 64;
      OffsetExact(sz, |message|, len);
      CountBits(len);
      ghost var m := message;
      assert m + p[..0] == m;
      var at := 0;
      while at < len
        invariant 0 <= at <= len && off == (|m| + at) % 64
        invariant counter.Length == 8 && save.Length == 64
        invariant Absorbed(counter[..], save[..], m + p[..at])
        invariant message == m && sz == AddBits(old(sz), len)
      {
        var l := if len - at < 64 - off then len - at else 64 - off;
        ghost var before := m + p[..at];
        var piece := p[at..at + l];
        assert before + piece == m + p[..at + l];
        NextOffset(|m| + at, l);
        TakePiece(off, piece, before);
        off := if off + l == 64 then 0 else off + l;
        at := at + l;
      }
      assert p[..len] == p;
      message := message + p;
    }

    // One turn of the loop: copy, and compress if the block is full.
    method TakePiece(off: nat, piece: octets, ghost before: octets)
      requires counter.Length == 8 && save.Length == 64
      requires off == |before| % 64 && off + |piece| <= 64 && Absorbed(counter[..], save[..], before)
      modifies counter, save
      ensures Absorbed(counter[..], save[..], before + piece)
    {
      hide Chain, Compress, Words;
      ghost var c, s := counter[..], save[..];
      CopyIn(off, piece);
      assert counter[..] == c;
      if off + |piece| == 64 {
        var block := ReadWords();
        AbsorbBlock(c, s, before, piece);
        Calc(block);
      } else {
        AbsorbPart(c, s, before, piece);
      }
    }

    // Pad with the counted length, and read the digest out.
    method Final() returns (result: octets)
      requires Valid()
      modifies this`sz, this`message, counter, save
      ensures result == Digest(Chain(Initial(), old(message) + Padding(|old(message)|, old(Total(sz)))))
      ensures old(Counted()) ==> result == Hash(old(message))
    {
      hide Digest, Chain, Absorbed, Padding;
      ghost var m, bits := message, Total(sz);
      var tail := PaddingBytes();
      Update(tail);
      WholeBlocks(m, bits, counter[..], save[..]);
      result := ReadOut();
    }

    method ReadOut() returns (result: octets)
      requires counter.Length == 8
      ensures result == Digest(counter[..])
    {
      hide WordBytes;
      result := [];
      var i := 0;
      while i < 8
        invariant 0 <= i <= 8 && result == Digest(counter[..i])
      {
        DigestStep(counter[..], i);
        assert counter[..][..i + 1] == counter[..i + 1] && counter[..][..i] == counter[..i];
        result := result + WordBytes(counter[i]);
        i := i + 1;
      }
      assert counter[..8] == counter[..];
    }

    // 0x80, zeros, and the two counter words, most significant byte first.
    method PaddingBytes() returns (tail: octets)
      requires Valid()
      ensures tail == Padding(|message|, Total(sz)) && |tail| <= 72
    {
      hide Absorbed, Octet, Padding, FourBytes;
      var off := (sz.lo / 8) % 64;
      var dstart := (120 - off - 1) % 64 + 1;
      var zeros := new bv8[72];
      forall k | 0 <= k < 72 { zeros[k] := if k == 0 then 0x80 else 0; }
      PutWord(zeros, dstart, sz.hi);
      PutWord(zeros, dstart + 4, sz.lo);
      tail := zeros[..dstart + 8];
      PaddingIs(|message|, sz, tail);
    }

    static method PutWord(a: array<bv8>, at: nat, w: nat)
      requires at + 4 <= a.Length
      modifies a
      ensures a[at..at + 4] == FourBytes(w)
      ensures forall k :: 0 <= k < a.Length && !(at <= k < at + 4) ==> a[k] == old(a[k])
    {
      hide Octet;
      a[at + 3] := Octet(w % 256);
      a[at + 2] := Octet(w / 256 % 256);
      a[at + 1] := Octet(w / 256 / 256 % 256);
      a[at] := Octet(w / 256 / 256 / 256 % 256);
    }
  }

  // ---------------------------------------------------------------- any split of a message

  function CountAll(c: Count, pieces: seq<octets>): Count
    decreases |pieces|
  {
    if pieces == [] then c else CountAll(AddBits(c, |pieces[0]|), pieces[1..])
  }

  // Multiples of 2^32 bits lost by over-long updates.
  function Lost(pieces: seq<octets>): nat
  {
    if pieces == [] then 0 else (8 * |pieces[0]|) / U32 + Lost(pieces[1..])
  }

  lemma AddBitsLoses(c: Count, len: nat)
    requires c.lo < U32 && c.hi < U32 && Total(c) + 8 * len < U32 * U32
    ensures var d := AddBits(c, len);
      d.lo < U32 && d.hi < U32 && Total(d) + U32 * ((8 * len) / U32) == Total(c) + 8 * len
  {
    var d, q := (len * 8) % U32, (len * 8) / U32;
    assert len * 8 == q * U32 + d;
    var carry := if c.lo + d >= U32 then 1 else 0;
    assert (c.lo + d) % U32 == c.lo + d - carry * U32;
    assert c.hi + carry < U32;
  }

  lemma {:induction false} CountAllLoses(c: Count, pieces: seq<octets>)
    requires c.lo < U32 && c.hi < U32 && Total(c) + 8 * |Join(pieces)| < U32 * U32
    ensures Total(CountAll(c, pieces)) + U32 * Lost(pieces) == Total(c) + 8 * |Join(pieces)|
    decreases |pieces|
  {
    hide AddBits, Total;
    if pieces != [] {
      AddBitsLoses(c, |pieces[0]|);
      CountAllLoses(AddBits(c, |pieces[0]|), pieces[1..]);
    }
  }

  lemma {:induction false} NothingLost(pieces: seq<octets>)
    ensures Lost(pieces) == 0 <==> forall i :: 0 <= i < |pieces| ==> |pieces[i]| < 0x2000_0000
  {
    if pieces != [] {
      NothingLost(pieces[1..]);
      assert (8 * |pieces[0]|) / U32 == 0 <==> |pieces[0]| < 0x2000_0000;
      assert forall i :: 0 < i < |pieces| ==> pieces[i] == pieces[1..][i - 1];
    }
  }

  // The length that ends up in the padding is that of the message exactly when no update was
  // 2^29 bytes or longer.
  lemma CountedExactly(pieces: seq<octets>)
    requires 8 * |Join(pieces)| < U32 * U32
    ensures Total(CountAll(Count(0, 0), pieces)) == 8 * |Join(pieces)|
      <==> forall i :: 0 <= i < |pieces| ==> |pieces[i]| < 0x2000_0000
  {
    CountAllLoses(Count(0, 0), pieces);
    NothingLost(pieces);
  }

  // Init, an update for each piece, final: the digest of the concatenation.
  method HashPieces(pieces: seq<octets>) returns (result: octets)
    requires forall i :: 0 <= i < |pieces| ==> |pieces[i]| < U32
    requires 8 * |Join(pieces)| < U32 * U32
    ensures var m := Join(pieces);
      result == Digest(Chain(Initial(), m + Padding(|m|, Total(CountAll(Count(0, 0), pieces)))))
    ensures (forall i :: 0 <= i < |pieces| ==> |pieces[i]| < 0x2000_0000) ==> result == Hash(Join(pieces))
  {
    hide Digest, Chain, Absorbed, Padding, AddBits, Initial;
    var c := new Context();
    var i := 0;
    while i < |pieces|
      invariant 0 <= i <= |pieces| && c.Valid() && fresh(c) && fresh(c.counter) && fresh(c.save)
      invariant c.message + Join(pieces[i..]) == Join(pieces)
      invariant CountAll(c.sz, pieces[i..]) == CountAll(Count(0, 0), pieces)
    {
      assert pieces[i..][1..] == pieces[i + 1..];
      c.Update(pieces[i]);
      i := i + 1;
    }
    assert c.message == Join(pieces) by { assert pieces[i..] == [] && c.message + [] == c.message; }
    CountedExactly(pieces);
    result := c.Final();
  }
}
