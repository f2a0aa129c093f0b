/**
  WebSocket frames as the server reads and writes them (websocket.cpp, decode_frames and queue_frame;
  section 5 of RFC 6455).
 */
module WebSocketFrames {
  import opened Bytes
  import opened Numbers

  const CONT := 0
  const TEXT := 1
  const BINARY := 2
  const CLOSE := 8
  const PING := 9
  const PONG := 10

  // ---------------------------------------------------------------- masking

  // Exclusive or of k-bit numbers, bit by bit.
  function XorBits(a: nat, b: nat, k: nat): (r: nat)
    ensures r < Pow2(k)
  {
    if k == 0 then 0 else 2 * XorBits(a / 2, b / 2, k - 1) + (a % 2 + b % 2) % 2
  }

  lemma {:induction false} XorBitsTwice(a: nat, b: nat, k: nat)
    requires a < Pow2(k)
    ensures XorBits(XorBits(a, b, k), b, k) == a
  {
    if k > 0 {
      XorBitsTwice(a / 2, b / 2, k - 1);
      var x := XorBits(a / 2, b / 2, k - 1);
      var r := XorBits(a, b, k);
      LowBit(x, a, b, r);
      assert XorBits(r, b, k) == 2 * XorBits(r / 2, b / 2, k - 1) + (r % 2 + b % 2) % 2;
    }
  }

  lemma LowBit(x: nat, a: nat, b: nat, r: nat)
    requires r == 2 * x + (a % 2 + b % 2) % 2
    ensures r / 2 == x && (r % 2 + b % 2) % 2 == a % 2 && a == 2 * (a / 2) + a % 2
  {
    var p, q := a % 2, b % 2;
    assert (p == 0 || p == 1) && (q == 0 || q == 1);
    var d := (p + q) % 2;
    assert r % 2 == d;
  }

  lemma ByteWidth()
    ensures Pow2(8) == 256
  {
    assert Pow2(4) == 16;
  }

  function Xor(a: byte, b: byte): byte
  {
    ByteWidth();
    XorBits(a, b, 8)
  }

  lemma XorTwice(a: byte, b: byte)
    ensures Xor(Xor(a, b), b) == a
  {
    hide XorBits;
    ByteWidth();
    XorBitsTwice(a, b, 8);
  }

  function Masked(mask: bytes, s: bytes): (r: bytes)
    requires |mask| == 4
    ensures |r| == |s|
  {
    seq(|s|, i requires 0 <= i < |s| => Xor(s[i], mask[i % 4]))
  }

  // Masking is its own inverse.
  lemma MaskedTwice(mask: bytes, s: bytes)
    requires |mask| == 4
    ensures Masked(mask, Masked(mask, s)) == s
  {
    hide Xor;
    forall i | 0 <= i < |s| ensures Masked(mask, Masked(mask, s))[i] == s[i] {
      XorTwice(s[i], mask[i % 4]);
    }
  }

  // ---------------------------------------------------------------- frame heads

  function BE64(b: bytes): nat
    requires |b| == 8
  {
    BE32(b[0], b[1], b[2], b[3]) * 0x1_0000_0000 + BE32(b[4], b[5], b[6], b[7])
  }

  function PutBE64(v: nat): (r: bytes)
    requires v < 0x1_0000_0000_0000_0000
    ensures |r| == 8 && BE64(r) == v
  {
    var hi, lo := v / 0x1_0000_0000, v % 0x1_0000_0000;
    var r := PutBE32(hi) + PutBE32(lo);
    assert r[0] == PutBE32(hi)[0] && r[1] == PutBE32(hi)[1] && r[2] == PutBE32(hi)[2] && r[3] == PutBE32(hi)[3];
    assert r[4] == PutBE32(lo)[0] && r[5] == PutBE32(lo)[1] && r[6] == PutBE32(lo)[2] && r[7] == PutBE32(lo)[3];
    r
  }

  datatype Head = Short | Bad | Head(fin: bool, opcode: nat, size: nat, len: nat)

  predicate Control(opcode: nat) { opcode % 16 >= 8 }

  // Lengths are bounded before anything is added to them; control frames are short and unfragmented.
  function Checked(max: nat, b: bytes, size: nat, len: nat): Head
    requires |b| >= 2
  {
    var fin, opcode := b[0] >= 128, b[0] % 16;
    if len > max || b[1] < 128 || (Control(opcode) && (len > 125 || !fin)) then Bad
    else Head(fin, opcode, size, len)
  }

  function ReadHead(max: nat, b: bytes): (h: Head)
    ensures h.Head? ==> 2 <= h.size <= 10 && h.size <= |b| && h.len <= max && h.opcode < 16
    ensures h.Head? && Control(h.opcode) ==> h.len <= 125
    ensures h.Short? ==> |b| < 10
  {
    if |b| < 2 then Short
    else if b[1] % 128 == 126 then
      if |b| < 4 then Short else Checked(max, b, 4, BE16(b[2], b[3]))
    else if b[1] % 128 == 127 then
      if |b| < 10 then Short else Checked(max, b, 10, BE64(b[2..10]))
    else Checked(max, b, 2, b[1] % 128)
  }

  // ---------------------------------------------------------------- client frames

  // How a client writes a length: in the second byte, in two more or in eight more.
  datatype Form = Tiny | Medium | Large

  datatype Frame = Frame(fin: bool, reserved: nat, opcode: nat, form: Form, mask: bytes, payload: bytes)

  predicate Expressible(f: Frame)
  {
    && f.reserved < 8 && f.opcode < 16 && |f.mask| == 4
    && |f.payload| < (match f.form case Tiny => 126 case Medium => 0x1_0000 case Large => 0x1_0000_0000_0000_0000)
    && (Control(f.opcode) ==> f.fin && |f.payload| <= 125)
  }

  function LengthField(form: Form, n: nat): (r: bytes)
    requires n < (match form case Tiny => 126 case Medium => 0x1_0000 case Large => 0x1_0000_0000_0000_0000)
    ensures 1 <= |r| <= 9
  {
    match form
    case Tiny => [128 + n]
    case Medium => [254] + PutBE16(n)
    case Large => [255] + PutBE64(n)
  }

  function First(f: Frame): byte
    requires Expressible(f)
  {
    (if f.fin then 128 else 0) + f.reserved * 16 + f.opcode
  }

  function HeadBytes(f: Frame): (r: bytes)
    requires Expressible(f)
    ensures 2 <= |r| <= 10
  {
    [First(f)] + LengthField(f.form, |f.payload|)
  }

  function Wire(f: Frame): (r: bytes)
    requires Expressible(f)
    ensures |r| == |HeadBytes(f)| + 4 + |f.payload|
  {
    HeadBytes(f) + f.mask + Masked(f.mask, f.payload)
  }

  lemma FirstReads(f: Frame)
    requires Expressible(f)
    ensures First(f) % 16 == f.opcode && (First(f) >= 128 <==> f.fin)
  {
  }

  lemma HeadShape(f: Frame)
    requires Expressible(f)
    ensures var h, n := HeadBytes(f), |f.payload|;
      && h[0] == First(f)
      && (match f.form
          case Tiny => |h| == 2 && h[1] == 128 + n
          case Medium => |h| == 4 && h[1] == 254 && BE16(h[2], h[3]) == n
          case Large => |h| == 10 && h[1] == 255 && BE64(h[2..10]) == n)
  {
    hide BE64;
    var h := HeadBytes(f);
    match f.form
    case Tiny =>
    case Medium =>
      var n := PutBE16(|f.payload|);
      assert h[2] == n[0] && h[3] == n[1];
    case Large =>
      assert h[2..10] == PutBE64(|f.payload|);
  }

  // Whatever follows, the head of a frame reads back as what was written.
  lemma HeadReads(max: nat, f: Frame, rest: bytes)
    requires Expressible(f) && |f.payload| <= max
    ensures ReadHead(max, HeadBytes(f) + rest) == Head(f.fin, f.opcode, |HeadBytes(f)|, |f.payload|)
  {
    hide BE64, BE16, HeadBytes, First;
    HeadShape(f);
    FirstReads(f);
    var h := HeadBytes(f);
    var b := h + rest;
    assert forall i | 0 <= i < |h| :: b[i] == h[i];
    if f.form.Large? { assert b[2..10] == h[2..10]; }
  }

  // A head still incomplete is not yet refused.
  lemma HeadWaits(max: nat, f: Frame, n: nat)
    requires Expressible(f) && |f.payload| <= max && n < |HeadBytes(f)|
    ensures ReadHead(max, HeadBytes(f)[..n]) == Short
  {
    hide BE64, BE16, HeadBytes, First;
    HeadShape(f);
  }

  // A length above the cap is refused as soon as it is known.
  lemma HeadRefused(max: nat, f: Frame)
    requires Expressible(f) && |f.payload| > max
    ensures ReadHead(max, HeadBytes(f)) == Bad
  {
    hide BE64, BE16, HeadBytes, First;
    HeadShape(f);
  }

  // ---------------------------------------------------------------- server frames

  // FIN, the opcode, an unmasked length in its shortest form, the payload.
  function ServerFrame(opcode: nat, data: bytes): bytes
    requires opcode < 16 && |data| < 0x1_0000_0000_0000_0000
  {
    [128 + opcode] +
    (if |data| <= 125 then [|data|] else if |data| <= 65535 then [126] + PutBE16(|data|) else [127] + PutBE64(|data|)) +
    data
  }

  datatype Reply = Reply(opcode: nat, data: bytes)

  // What RFC 6455 section 5.2 makes of the front of a server's stream.
  datatype Seen = Nothing | Seen(reply: Reply, used: nat)

  function ReadServerFrame(b: bytes): Seen
  {
    if |b| < 2 || b[0] < 128 || b[1] >= 128 then Nothing
    else if b[1] == 126 then if |b| < 4 then Nothing else Payload(b, 4, BE16(b[2], b[3]))
    else if b[1] == 127 then if |b| < 10 then Nothing else Payload(b, 10, BE64(b[2..10]))
    else Payload(b, 2, b[1])
  }

  function Payload(b: bytes, at: nat, n: nat): Seen
    requires |b| >= 2
  {
    if at + n > |b| then Nothing else Seen(Reply(b[0] % 16, b[at..at + n]), at + n)
  }

  // A client that follows the RFC reads back what the server queued.
  lemma ServerFrameReads(opcode: nat, data: bytes, rest: bytes)
    requires opcode < 16 && |data| < 0x1_0000_0000_0000_0000
    ensures ReadServerFrame(ServerFrame(opcode, data) + rest) == Seen(Reply(opcode, data), |ServerFrame(opcode, data)|)
  {
    hide BE64;
    var f := ServerFrame(opcode, data);
    var b := f + rest;
    if |data| <= 125 {
      assert b[2..2 + |data|] == data;
    } else if |data| <= 65535 {
      var n := PutBE16(|data|);
      assert b[1] == 126 && b[2] == n[0] && b[3] == n[1] && b[4..4 + |data|] == data;
    } else {
      assert b[1] == 127 && b[2..10] == PutBE64(|data|) && b[10..10 + |data|] == data;
    }
  }
}
