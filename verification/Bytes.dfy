/** Bytes and the big-endian fields every wire format here is made of. */
module Bytes {
  type byte = x: int | 0 <= x < 256

  type bytes = seq<byte>

  function BE16(a: byte, b: byte): (r: nat)
    ensures r < 0x1_0000
  {
    a * 256 + b
  }

  function BE24(a: byte, b: byte, c: byte): (r: nat)
    ensures r < 0x100_0000
  {
    a * 65536 + b * 256 + c
  }

  function BE32(a: byte, b: byte, c: byte, d: byte): (r: nat)
    ensures r < 0x1_0000_0000
  {
    a * 16777216 + b * 65536 + c * 256 + d
  }

  // The low 16, 24 or 32 bits of v, most significant byte first.
  function PutBE16(v: nat): (r: bytes)
    ensures |r| == 2
    ensures v < 0x1_0000 ==> BE16(r[0], r[1]) == v
  {
    [(v / 256) % 256, v % 256]
  }

  function PutBE24(v: nat): (r: bytes)
    ensures |r| == 3
    ensures v < 0x100_0000 ==> BE24(r[0], r[1], r[2]) == v
  {
    var w := v / 256;
    [(w / 256) % 256, w % 256, v % 256]
  }

  function PutBE32(v: nat): (r: bytes)
    ensures |r| == 4
    ensures v < 0x1_0000_0000 ==> BE32(r[0], r[1], r[2], r[3]) == v
  {
    var w := v / 256;
    var x := w / 256;
    [(x / 256) % 256, x % 256, w % 256, v % 256]
  }

  // Writing back the field that was read gives the same bytes.
  lemma BE16Put(a: byte, b: byte)
    ensures PutBE16(BE16(a, b)) == [a, b]
  {
  }

  lemma BE32Put(a: byte, b: byte, c: byte, d: byte)
    ensures PutBE32(BE32(a, b, c, d)) == [a, b, c, d]
  {
    var x := a * 256 + b;
    var w := x * 256 + c;
    var v := w * 256 + d;
    assert v / 256 == w && v % 256 == d;
    assert w / 256 == x && w % 256 == c;
    assert x / 256 == a && x % 256 == b;
  }

  // Concatenation of a list of chunks, the meaning of "these bytes arrived, in these pieces".
  function Join<T>(chunks: seq<seq<T>>): seq<T>
  {
    if chunks == [] then [] else chunks[0] + Join(chunks[1..])
  }

  lemma {:induction false} JoinAppend<T>(a: seq<seq<T>>, b: seq<seq<T>>)
    ensures Join(a + b) == Join(a) + Join(b)
  {
    if a == [] {
      assert a + b == b;
    } else {
      assert (a + b)[1..] == a[1..] + b;
      JoinAppend(a[1..], b);
    }
  }
}
