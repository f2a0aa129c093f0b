/**
  What a client makes of the replies to its commands (videortmp.cpp, on_command and send_msg): a new client, at
  the chunk size it starts with, hears the six messages that answer its connect; and their bodies, like those
  of the other replies, are AMF0 values, numbers included.
 */
module RtmpReplies {
  import opened Bytes
  import opened Numbers
  import opened StreamDecoder
  import opened Amf0
  import opened HttpQuery
  import opened RtmpDemux
  import opened RtmpSender
  import opened RtmpStandard
  import opened RtmpPrinter
  import opened RtmpCommands

  // ---------------------------------------------------------------- doubles

  function BE64(b: bytes): nat
    requires |b| == 8
  {
    BE32(b[0], b[1], b[2], b[3]) * 0x1_0000_0000 + BE32(b[4], b[5], b[6], b[7])
  }

  // An IEEE 754 double, with sign 0, of a whole number: 2^(e-1023) times 1 and the fraction m of 52 bits is v.
  predicate DoubleOf(b: bytes, v: nat)
    requires |b| == 8
  {
    var n := BE64(b);
    var e, m := n / 0x10_0000_0000_0000, n % 0x10_0000_0000_0000;
    if n == 0 then v == 0
    else 0 < e <= 1075 && v * Pow2(1075 - e) == 0x10_0000_0000_0000 + m
  }

  lemma {:induction false} LogIs(v: nat)
    requires v > 0
    ensures Pow2(Log2(v)) <= v < 2 * Pow2(Log2(v))
  {
    if v > 1 { LogIs(v / 2); }
  }

  lemma {:induction false} LogSmall(v: nat, k: nat)
    requires 0 < v < Pow2(k)
    ensures Log2(v) < k
    decreases k
  {
    if v > 1 { LogSmall(v / 2, k - 1); }
  }

  lemma {:induction false} PowAdd(a: nat, b: nat)
    ensures Pow2(a + b) == Pow2(a) * Pow2(b)
    decreases a
  {
    if a > 0 { PowAdd(a - 1, b); }
  }

  lemma Pow52()
    ensures Pow2(52) == 0x10_0000_0000_0000 && Pow2(32) == 0x1_0000_0000
  {
    Sixteen();
    hide Pow2;
    PowAdd(4, 4);
    PowAdd(8, 8);
    PowAdd(16, 16);
    PowAdd(16, 32);
    PowAdd(4, 48);
  }

  lemma Sixteen()
    ensures Pow2(4) == 16
  {
  }

  // The fraction that makes v of the power of two below it.
  lemma Fraction(v: nat, l: nat, p: nat) returns (m: nat)
    requires Pow2(l) <= v < 2 * Pow2(l) && p > 0 && Pow2(l) * p == 0x10_0000_0000_0000
    ensures m == (v - Pow2(l)) * p < 0x10_0000_0000_0000 && v * p == 0x10_0000_0000_0000 + m
  {
    hide Pow2;
    var a := Pow2(l);
    m := (v - a) * p;
    Product(v - a, a, p);
    assert (v - a) * p + a * p == v * p;
  }

  lemma BitsAre(v: nat, l: nat, m: nat)
    requires 0 < v && l == Log2(v) < 32 && m == Mantissa(v, l) && Pow2(52) == 0x10_0000_0000_0000
    ensures var n := (1023 + l) * 0x10_0000_0000_0000 + m;
      DoubleBits(v) == PutBE32(n / WRAP) + PutBE32(n % WRAP)
  {
    hide Pow2, Log2, PutBE32, Mantissa;
  }

  lemma IsDouble(b: bytes, v: nat, e: nat, m: nat)
    requires |b| == 8 && 0 < e <= 1075 && m < 0x10_0000_0000_0000 && BE64(b) == e * 0x10_0000_0000_0000 + m
    requires v * Pow2(1075 - e) == 0x10_0000_0000_0000 + m
    ensures DoubleOf(b, v)
  {
    hide Pow2, BE64;
    Quotients(e, m);
  }

  // Every 32-bit number is written as the double that it is.
  lemma DoubleReads(v: nat)
    requires v < 0x1_0000_0000
    ensures |DoubleBits(v)| == 8 && DoubleOf(DoubleBits(v), v)
  {
    hide Pow2, Log2, DoubleBits, PutBE32, BE64, DoubleOf;
    if v == 0 {
      ZeroDouble();
    } else {
      Pow52();
      LogSmall(v, 32);
      LogIs(v);
      var l := Log2(v);
      PowAdd(l, 52 - l);
      var m := Fraction(v, l, Pow2(52 - l));
      BitsAre(v, l, m);
      Halves((1023 + l) * 0x10_0000_0000_0000 + m);
      assert 1075 - (1023 + l) == 52 - l;
      IsDouble(DoubleBits(v), v, 1023 + l, m);
    }
  }

  lemma ZeroDouble()
    ensures |DoubleBits(0)| == 8 && DoubleOf(DoubleBits(0), 0)
  {
  }

  lemma Product(a: nat, b: nat, p: nat)
    requires a < b && p > 0
    ensures a * p < b * p
  {
  }

  lemma Quotients(e: nat, m: nat)
    requires m < 0x10_0000_0000_0000
    ensures var n := e * 0x10_0000_0000_0000 + m; n / 0x10_0000_0000_0000 == e && n % 0x10_0000_0000_0000 == m
  {
  }

  lemma Halves(n: nat)
    requires n < 0x1_0000_0000_0000_0000
    ensures var b := PutBE32(n / WRAP) + PutBE32(n % WRAP); |b| == 8 && BE64(b) == n
  {
    hide PutBE32, BE32;
    var hi, lo := PutBE32(n / WRAP), PutBE32(n % WRAP);
    var b := hi + lo;
    assert BE32(b[0], b[1], b[2], b[3]) == n / WRAP;
    assert BE32(b[4], b[5], b[6], b[7]) == n % WRAP;
  }

  // ---------------------------------------------------------------- bodies

  function Word(s: string): Amf { Str(Ascii(s)) }
  function Num(v: nat): Amf { Number(DoubleBits(v)) }

  function Prop(key: string, v: Amf): Member
  {
    Member(Ascii(key), v)
  }

  lemma StringWritten(c: bytes)
    ensures Encode(Str(c)) == AmfString(c)
  {
    hide PutBE16;
    assert [STRING] + PutBE16(|c|) + c == [STRING] + (PutBE16(|c|) + c);
  }

  lemma NumberWritten(bits: bytes)
    ensures Encode(Number(bits)) == AmfNumber(bits)
  {
  }

  // Members written one by one, and the end marker, are an object.
  function PropBytes(ms: seq<Member>): bytes
  {
    if ms == [] then [] else AmfKey(ms[0].key) + Encode(ms[0].value) + PropBytes(ms[1..])
  }

  lemma {:induction false} ObjectWritten(ms: seq<Member>)
    ensures EncodeMembers(ms) == PropBytes(ms) + END
    decreases |ms|
  {
    hide Encode, PutBE16;
    if ms == [] {
      assert PropBytes(ms) + END == [0, 0, OBJECT_END];
    } else {
      ObjectWritten(ms[1..]);
      var a, v, rest := AmfKey(ms[0].key), Encode(ms[0].value), PropBytes(ms[1..]);
      assert a + v + (rest + END) == a + v + rest + END;
    }
  }

  lemma TwoElements(a: Amf, b: Amf, more: seq<Amf>)
    ensures EncodeElements([a, b] + more) == Encode(a) + Encode(b) + EncodeElements(more)
  {
    hide Encode;
    var all := [a, b] + more;
    assert all[1..] == [b] + more && all[1..][1..] == more;
    assert EncodeElements(all) == Encode(a) + (Encode(b) + EncodeElements(more));
  }

  // createStream and releaseStream: _result, the transaction, null, and what there is to say.
  lemma ResultWritten(txn: bytes, sid: nat)
    ensures ResultReply(txn, []) == CommandMessage(3, 0, EncodeElements([Word("_result"), Number(txn), Null]))
    ensures ResultReply(txn, AmfNumber(DoubleBits(sid)))
      == CommandMessage(3, 0, EncodeElements([Word("_result"), Number(txn), Null, Num(sid)]))
  {
    hide Ascii, DoubleBits, Encode, AmfString, AmfNumber, CommandMessage, EncodeElements;
    ResultBody(Ascii("_result"), txn, DoubleBits(sid));
  }

  lemma ResultBody(name: bytes, txn: bytes, sid: bytes)
    ensures EncodeElements([Str(name), Number(txn), Null]) == AmfString(name) + AmfNumber(txn) + [NULL] + []
    ensures EncodeElements([Str(name), Number(txn), Null, Number(sid)])
      == AmfString(name) + AmfNumber(txn) + [NULL] + AmfNumber(sid)
  {
    StringWritten(name);
    NumberWritten(txn);
    NumberWritten(sid);
    NullWritten();
    hide Encode, AmfString, AmfNumber;
    assert [Str(name), Number(txn), Null] == [Str(name), Number(txn)] + [Null];
    TwoElements(Str(name), Number(txn), [Null]);
    OneElement(Null);
    assert [Str(name), Number(txn), Null, Number(sid)] == [Str(name), Number(txn)] + [Null, Number(sid)];
    TwoElements(Str(name), Number(txn), [Null, Number(sid)]);
    assert [Null, Number(sid)] == [Null, Number(sid)] + [];
    TwoElements(Null, Number(sid), []);
    var a, b, c := AmfString(name), AmfNumber(txn), AmfNumber(sid);
    assert EncodeElements([]) == [];
    assert a + b + [NULL] + [] == a + b + [NULL];
    assert a + b + ([NULL] + c + []) == a + b + [NULL] + c;
  }

  lemma NullWritten()
    ensures Encode(Null) == [NULL]
  {
  }

  lemma OneElement(a: Amf)
    ensures EncodeElements([a]) == Encode(a)
  {
    hide Encode;
    assert [a][1..] == [] && Encode(a) + [] == Encode(a);
  }

  // A key and its value, as the program writes them.
  function KeyValue(m: Member): bytes { AmfKey(m.key) + Encode(m.value) }

  lemma PropsOne(a: Member)
    ensures PropBytes([a]) == KeyValue(a)
  {
    hide Encode, AmfKey;
    assert [a][1..] == [];
  }

  lemma PropsMore(a: Member, ms: seq<Member>)
    ensures PropBytes([a] + ms) == KeyValue(a) + PropBytes(ms)
  {
    hide Encode, AmfKey;
    assert ([a] + ms)[1..] == ms;
  }

  lemma PropsTwo(a: Member, b: Member)
    ensures PropBytes([a, b]) == KeyValue(a) + KeyValue(b)
  {
    hide KeyValue, PropBytes;
    assert [a, b] == [a] + [b];
    PropsMore(a, [b]);
    PropsOne(b);
  }

  lemma PropsThree(a: Member, b: Member, c: Member)
    ensures PropBytes([a, b, c]) == KeyValue(a) + KeyValue(b) + KeyValue(c)
  {
    hide KeyValue, PropBytes;
    assert [a, b, c] == [a] + [b, c];
    PropsMore(a, [b, c]);
    PropsTwo(b, c);
    assert KeyValue(a) + (KeyValue(b) + KeyValue(c)) == KeyValue(a) + KeyValue(b) + KeyValue(c);
  }

  lemma PropsFour(a: Member, b: Member, c: Member, d: Member)
    ensures PropBytes([a, b, c, d]) == KeyValue(a) + KeyValue(b) + KeyValue(c) + KeyValue(d)
  {
    hide KeyValue, PropBytes;
    assert [a, b, c, d] == [a] + [b, c, d];
    PropsMore(a, [b, c, d]);
    PropsThree(b, c, d);
    var w, x, y, z := KeyValue(a), KeyValue(b), KeyValue(c), KeyValue(d);
    assert w + (x + y + z) == w + x + y + z;
  }

  lemma ObjectIs(ms: seq<Member>)
    ensures Encode(Object(ms)) == [OBJECT] + PropBytes(ms) + END
  {
    hide EncodeMembers, PropBytes, END;
    ObjectWritten(ms);
    assert [OBJECT] + (PropBytes(ms) + END) == [OBJECT] + PropBytes(ms) + END;
  }

  lemma Written(key: string, v: Amf)
    ensures v.Str? ==> KeyValue(Prop(key, v)) == AmfProp(key, AmfString(v.chars))
    ensures v.Number? ==> KeyValue(Prop(key, v)) == AmfProp(key, AmfNumber(v.bits))
  {
    hide AmfKey, Ascii, Encode;
    if v.Str? { StringWritten(v.chars); }
    if v.Number? { NumberWritten(v.bits); }
  }

  function Status(code: string, description: bytes): seq<Member>
  {
    [Prop("level", Word("status")), Prop("code", Word(code)), Prop("description", Str(description))]
  }

  lemma StatusWritten(description: bytes)
    ensures [OBJECT] + PropBytes(Status("NetStream.Publish.Start", description)) == StatusStart(description)
  {
    hide KeyValue, PropBytes, AmfProp, AmfString, Ascii, AmfKey;
    Written("level", Word("status"));
    Written("code", Word("NetStream.Publish.Start"));
    Written("description", Str(description));
    var a, b, c := Prop("level", Word("status")), Prop("code", Word("NetStream.Publish.Start")),
      Prop("description", Str(description));
    PropsThree(a, b, c);
    assert [OBJECT] + (KeyValue(a) + KeyValue(b) + KeyValue(c)) == [OBJECT] + KeyValue(a) + KeyValue(b) + KeyValue(c);
  }

  // A command with null and one object behind its transaction.
  lemma NullAndObject(name: bytes, txn: bytes, ms: seq<Member>)
    ensures EncodeElements([Str(name), Number(txn), Null, Object(ms)])
      == AmfString(name) + AmfNumber(txn) + [NULL] + ([OBJECT] + PropBytes(ms) + END)
  {
    StringWritten(name);
    NumberWritten(txn);
    NullWritten();
    ObjectIs(ms);
    hide Encode, AmfString, AmfNumber, PropBytes, END;
    assert [Str(name), Number(txn), Null, Object(ms)] == [Str(name), Number(txn)] + [Null, Object(ms)];
    TwoElements(Str(name), Number(txn), [Null, Object(ms)]);
    assert [Null, Object(ms)] == [Null, Object(ms)] + [];
    TwoElements(Null, Object(ms), []);
    assert EncodeElements([]) == [];
    var a, b, o := AmfString(name), AmfNumber(txn), Encode(Object(ms));
    assert a + b + ([NULL] + o + []) == a + b + [NULL] + o;
  }

  // FCPublish: onFCPublish with the status object that some servers leave out.
  lemma FcPublishWritten(name: bytes)
    ensures FcPublishReply(name) == CommandMessage(3, 0, EncodeElements(
      [Word("onFCPublish"), Num(0), Null,
       Object(Status("NetStream.Publish.Start", if name == [] then Ascii("Publishing.") else CString(name)))]))
  {
    hide Ascii, DoubleBits, AmfString, AmfNumber, CommandMessage, EncodeElements, CString, StatusStart, PropBytes, END;
    hide Status;
    var description := if name == [] then Ascii("Publishing.") else CString(name);
    var ms := Status("NetStream.Publish.Start", description);
    NullAndObject(Ascii("onFCPublish"), DoubleBits(0), ms);
    StatusWritten(description);
    var x := AmfString(Ascii("onFCPublish")) + AmfNumber(DoubleBits(0)) + [NULL];
    assert x + (StatusStart(description) + END) == x + StatusStart(description) + END;
  }

  // publish: Stream Begin for the stream, and onStatus.
  lemma AcceptWritten(n: Negotiation)
    ensures var description :=
        if n.stream == [] then Ascii("Publishing.") else CString(n.stream + Ascii(" is now published."));
      AcceptReply(n) == ControlMessage(4, [0, 0] + PutBE32(n.sid)) + CommandMessage(5, n.sid, EncodeElements(
        [Word("onStatus"), Num(0), Null,
         Object(Status("NetStream.Publish.Start", description) + [Prop("clientid", Num(1))])]))
  {
    hide Ascii, DoubleBits, AmfString, AmfNumber, CommandMessage, EncodeElements, CString, StatusStart, PropBytes, END;
    hide ControlMessage, PutBE32, AmfProp, KeyValue;
    var description :=
      if n.stream == [] then Ascii("Publishing.") else CString(n.stream + Ascii(" is now published."));
    var ms, last := Status("NetStream.Publish.Start", description), Prop("clientid", Num(1));
    NullAndObject(Ascii("onStatus"), DoubleBits(0), ms + [last]);
    StatusWritten(description);
    PropsThree(ms[0], ms[1], ms[2]);
    assert ms + [last] == [ms[0], ms[1], ms[2], last];
    PropsFour(ms[0], ms[1], ms[2], last);
    Written("clientid", Num(1));
    var x := AmfString(Ascii("onStatus")) + AmfNumber(DoubleBits(0)) + [NULL];
    var a, b, c := [OBJECT], PropBytes(ms), KeyValue(last);
    assert x + (a + (b + c) + END) == x + (a + b) + c + END;
  }

  // ---------------------------------------------------------------- connect

  function Server(): seq<Member>
  {
    [Prop("fmsVer", Word("FMS/3,0,1,123")), Prop("capabilities", Num(31))]
  }

  function Connected(): seq<Member>
  {
    Status("NetConnection.Connect.Success", Ascii("Connection succeeded.")) + [Prop("objectEncoding", Num(0))]
  }

  function ConnectResult(txn: bytes): bytes
  {
    EncodeElements([Word("_result"), Number(txn), Object(Server()), Object(Connected())])
  }

  function BandwidthDone(): bytes
  {
    EncodeElements([Word("onBWDone"), Num(0), Null, Num(8192)])
  }

  // Window size and bandwidth of 2500000 bytes, dynamic; stream 0 begins; chunks of 4096 bytes; the result; and the
  // bandwidth check.
  function Answers(txn: bytes): seq<Message>
  {
    Controls() + [Message(3, 20, 0, 0, ConnectResult(txn)), Message(3, 20, 0, 0, BandwidthDone())]
  }

  function Controls(): seq<Message>
  {
    [Message(2, 5, 0, 0, PutBE32(2500000)), Message(2, 6, 0, 0, PutBE32(2500000) + [2]),
     Message(2, 4, 0, 0, [0, 0, 0, 0, 0, 0]), Message(2, 1, 0, 0, PutBE32(4096))]
  }

  lemma TwoObjects(name: bytes, txn: bytes, ms: seq<Member>, ns: seq<Member>)
    ensures EncodeElements([Str(name), Number(txn), Object(ms), Object(ns)])
      == AmfString(name) + AmfNumber(txn) + ([OBJECT] + PropBytes(ms) + END) + ([OBJECT] + PropBytes(ns) + END)
  {
    StringWritten(name);
    NumberWritten(txn);
    ObjectIs(ms);
    ObjectIs(ns);
    hide Encode, AmfString, AmfNumber, PropBytes, END;
    assert [Str(name), Number(txn), Object(ms), Object(ns)] == [Str(name), Number(txn)] + [Object(ms), Object(ns)];
    TwoElements(Str(name), Number(txn), [Object(ms), Object(ns)]);
    assert [Object(ms), Object(ns)] == [Object(ms), Object(ns)] + [];
    TwoElements(Object(ms), Object(ns), []);
    assert EncodeElements([]) == [];
    var a, b, o, q := AmfString(name), AmfNumber(txn), Encode(Object(ms)), Encode(Object(ns));
    assert a + b + (o + q + []) == a + b + o + q;
  }

  lemma ServerWritten()
    ensures PropBytes(Server()) == AmfProp("fmsVer", AmfString(Ascii("FMS/3,0,1,123")))
                                  + AmfProp("capabilities", AmfNumber(DoubleBits(31)))
  {
    hide KeyValue, PropBytes, AmfProp, AmfString, AmfNumber, Ascii, DoubleBits;
    Written("fmsVer", Word("FMS/3,0,1,123"));
    Written("capabilities", Num(31));
    PropsTwo(Server()[0], Server()[1]);
  }

  lemma ConnectedWritten()
    ensures PropBytes(Connected())
      == AmfProp("level", AmfString(Ascii("status")))
        + AmfProp("code", AmfString(Ascii("NetConnection.Connect.Success")))
        + AmfProp("description", AmfString(Ascii("Connection succeeded.")))
        + AmfProp("objectEncoding", AmfNumber(DoubleBits(0)))
  {
    hide KeyValue, PropBytes, AmfProp, AmfString, AmfNumber, Ascii, DoubleBits;
    Written("level", Word("status"));
    Written("code", Word("NetConnection.Connect.Success"));
    Written("description", Word("Connection succeeded."));
    Written("objectEncoding", Num(0));
    var ms := Connected();
    assert ms == [ms[0], ms[1], ms[2], ms[3]];
    PropsFour(ms[0], ms[1], ms[2], ms[3]);
  }

  lemma ConnectBody(txn: bytes)
    ensures AmfString(Ascii("_result")) + AmfNumber(txn)
        + [OBJECT] + AmfProp("fmsVer", AmfString(Ascii("FMS/3,0,1,123")))
        + AmfProp("capabilities", AmfNumber(DoubleBits(31))) + END
        + [OBJECT] + AmfProp("level", AmfString(Ascii("status")))
        + AmfProp("code", AmfString(Ascii("NetConnection.Connect.Success")))
        + AmfProp("description", AmfString(Ascii("Connection succeeded.")))
        + AmfProp("objectEncoding", AmfNumber(DoubleBits(0))) + END
      == ConnectResult(txn)
  {
    hide *;
    ConnectResultIs(txn);
    TwoObjects(Ascii("_result"), txn, Server(), Connected());
    ServerWritten();
    ConnectedWritten();
    Chained(AmfString(Ascii("_result")), AmfNumber(txn), [OBJECT],
            AmfProp("fmsVer", AmfString(Ascii("FMS/3,0,1,123"))),
            AmfProp("capabilities", AmfNumber(DoubleBits(31))), END,
            AmfProp("level", AmfString(Ascii("status"))),
            AmfProp("code", AmfString(Ascii("NetConnection.Connect.Success"))),
            AmfProp("description", AmfString(Ascii("Connection succeeded."))),
            AmfProp("objectEncoding", AmfNumber(DoubleBits(0))));
  }

  lemma ConnectResultIs(txn: bytes)
    ensures ConnectResult(txn)
      == EncodeElements([Str(Ascii("_result")), Number(txn), Object(Server()), Object(Connected())])
  {
  }

  lemma Chained(n: bytes, t: bytes, o: bytes, a: bytes, b: bytes, e: bytes, c: bytes, d: bytes, f: bytes, g: bytes)
    ensures n + t + o + a + b + e + o + c + d + f + g + e
      == n + t + (o + (a + b) + e) + (o + (c + d + f + g) + e)
  {
    var x := n + t;
    assert x + o + a + b + e == x + (o + (a + b) + e);
    var y := x + (o + (a + b) + e);
    assert y + o + c + d + f + g + e == y + (o + (c + d + f + g) + e);
  }

  lemma BandwidthBody()
    ensures AmfString(Ascii("onBWDone")) + AmfNumber(DoubleBits(0)) + [NULL] + AmfNumber(DoubleBits(8192))
      == BandwidthDone()
  {
    hide Ascii, DoubleBits, AmfString, AmfNumber, EncodeElements;
    ResultBody(Ascii("onBWDone"), DoubleBits(0), DoubleBits(8192));
  }

  lemma Fields()
    ensures PutBE32(2500000) == [0x00, 0x26, 0x25, 0xa0]
  {
    BE32Put(0x00, 0x26, 0x25, 0xa0);
    hide PutBE32;
    assert BE32(0x00, 0x26, 0x25, 0xa0) == 2500000;
  }

  function AllPrinted(ms: seq<Message>): bytes
  {
    if ms == [] then [] else (if ms[0].csid < 64 then Printed(ms[0]) else []) + AllPrinted(ms[1..])
  }

  // The reply to connect is these messages.
  lemma ConnectWritten(txn: bytes)
    ensures ConnectReply(txn) == AllPrinted(Answers(txn))
  {
    hide Ascii, DoubleBits, AmfString, AmfNumber, AmfProp, Printed, ConnectResult, BandwidthDone, END, PutBE32;
    hide AllPrinted;
    ConnectBody(txn);
    BandwidthBody();
    Fields();
    var ms := Answers(txn);
    assert ms[1].payload == [0x00, 0x26, 0x25, 0xa0, 0x02];
    SixPrinted(ms[0], ms[1], ms[2], ms[3], ms[4], ms[5]);
    assert ms == [ms[0], ms[1], ms[2], ms[3], ms[4], ms[5]];
  }

  lemma SixPrinted(a: Message, b: Message, c: Message, d: Message, e: Message, f: Message)
    requires a.csid < 64 && b.csid < 64 && c.csid < 64 && d.csid < 64 && e.csid < 64 && f.csid < 64
    ensures AllPrinted([a, b, c, d, e, f])
      == Printed(a) + Printed(b) + Printed(c) + Printed(d) + Printed(e) + Printed(f)
  {
    hide Printed;
    assert [a, b, c, d, e, f][1..] == [b, c, d, e, f] && [b, c, d, e, f][1..] == [c, d, e, f];
    assert [c, d, e, f][1..] == [d, e, f] && [d, e, f][1..] == [e, f] && [e, f][1..] == [f] && [f][1..] == [];
    assert AllPrinted([f]) == Printed(f);
    assert AllPrinted([e, f]) == Printed(e) + Printed(f);
    assert AllPrinted([d, e, f]) == Printed(d) + Printed(e) + Printed(f);
    assert AllPrinted([c, d, e, f]) == Printed(c) + Printed(d) + Printed(e) + Printed(f);
    assert AllPrinted([b, c, d, e, f]) == Printed(b) + Printed(c) + Printed(d) + Printed(e) + Printed(f);
  }

  // ---------------------------------------------------------------- what the client hears

  // Nothing is in progress.
  ghost predicate Calm(s: Sender)
  {
    Ready(s) && forall i | 0 <= i < 256 :: s.todo[i] == []
  }

  // A message that fits into one chunk, a change of chunk size among them.
  predicate Small(s: Sender, m: Message)
  {
    && 2 <= m.csid <= 63 && m.ts < SATURATED && m.sid < WRAP && |m.payload| <= s.chunk && |m.payload| <= 128
    && (m.kind == 1 ==> m.payload == PutBE32(4096))
  }

  lemma CalmHolds(s: Sender)
    requires Calm(s)
    ensures Held(s.known) == 0
  {
    forall i | 0 <= i < 256 ensures s.known[i].acc == [] { assert Consistent(s.known[i], s.todo[i]); }
    IdleHoldsNothing(s.known);
  }

  lemma SmallWire(s: Sender, m: Message)
    requires Calm(s) && Small(s, m)
    ensures var a := Start(m, 0, false, 0); Legal(s, a) && Wire(s, a) == Printed(m) && Done(s, a) == [m]
  {
    hide Held, PutBE24;
    CalmHolds(s);
    assert Consistent(s.known[m.csid], s.todo[m.csid]);
    var a, p := Start(m, 0, false, 0), m.payload;
    assert p[..|p|] == p;
    ChunkSizeSpelled();
    hide PutBE32, BE32;
    assert BasicBytes(0, m.csid, false) == [m.csid];
    assert BasicBytes(0, m.csid, false) + HeaderOf(s, a) == Preamble(m);
  }

  lemma ChunkSizeSpelled()
    ensures var p := PutBE32(4096); BE32(p[0], p[1], p[2], p[3]) % 0x8000_0000 == 4096
  {
    hide PutBE32;
  }

  lemma SmallSent(s: Sender, m: Message)
    requires Calm(s) && Small(s, m) && Legal(s, Start(m, 0, false, 0))
    ensures var t := Sent(s, Start(m, 0, false, 0));
      Calm(t) && t.chunk == if m.kind == 1 then 4096 else s.chunk
  {
    hide Held, HeadBytes, Legal;
    StaysReady(s, Start(m, 0, false, 0));
    ChunkSizeSpelled();
    hide PutBE32, BE32, Ready;
  }

  lemma SmallParses(s: Sender, m: Message, bytesIn: nat, x: bytes) returns (t: Sender)
    requires Calm(s) && Small(s, m)
    ensures Calm(t) && t.chunk == if m.kind == 1 then 4096 else s.chunk
    ensures Run(TakeChunk, Receiver(s, bytesIn), Printed(m) + x)
      == After([m], Run(TakeChunk, Receiver(t, bytesIn + |Printed(m)|), x))
  {
    hide *;
    var a := Start(m, 0, false, 0);
    SmallWire(s, m);
    SmallSent(s, m);
    CalmReady(s);
    OneChunk(s, a, bytesIn, x);
    t := Sent(s, a);
  }

  lemma CalmReady(s: Sender)
    requires Calm(s)
    ensures Ready(s)
  {
  }

  // The chunk size is changed by the last of them at most.
  predicate Smalls(s: Sender, ms: seq<Message>)
  {
    s.chunk >= 128 && forall i | 0 <= i < |ms| :: Small(s, ms[i]) && (i < |ms| - 1 ==> ms[i].kind != 1)
  }

  lemma {:induction false} SmallsParse(s: Sender, ms: seq<Message>, bytesIn: nat, x: bytes) returns (t: Sender)
    requires Calm(s) && Smalls(s, ms)
    ensures Calm(t) && (ms != [] && ms[|ms| - 1].kind == 1 ==> t.chunk == 4096)
    ensures Run(TakeChunk, Receiver(s, bytesIn), AllPrinted(ms) + x)
      == After(ms, Run(TakeChunk, Receiver(t, bytesIn + |AllPrinted(ms)|), x))
    decreases |ms|
  {
    hide TakeChunk, Receiver, Run, Printed, Calm, PutBE32;
    if ms == [] {
      t := s;
      assert AllPrinted(ms) + x == x;
      var r := Run(TakeChunk, Receiver(s, bytesIn), x);
      assert [] + r.events == r.events;
    } else {
      assert Small(s, ms[0]);
      var p, rest := Printed(ms[0]), AllPrinted(ms[1..]);
      assert AllPrinted(ms) + x == p + (rest + x);
      var u := SmallParses(s, ms[0], bytesIn, rest + x);
      if |ms| == 1 {
        t := u;
        assert rest == [] && rest + x == x && ms == [ms[0]] && AllPrinted(ms) == p;
      } else {
        t := SmallsParse(u, ms[1..], bytesIn + |p|, x);
        var r := Run(TakeChunk, Receiver(t, bytesIn + |p| + |rest|), x);
        assert [ms[0]] + (ms[1..] + r.events) == ms + r.events;
      }
    }
  }

  lemma Lengths(txn: bytes)
    requires |txn| == 8
    ensures |ConnectResult(txn)| <= 1000 && |BandwidthDone()| <= 1000
  {
    hide *;
    ConnectBody(txn);
    BandwidthBody();
    DoubleReads(31);
    DoubleReads(0);
    DoubleReads(8192);
    AsciiLength("_result");
    AsciiLength("onBWDone");
    PropLength("fmsVer", AmfString(Ascii("FMS/3,0,1,123")));
    TextLength("FMS/3,0,1,123");
    PropLength("capabilities", AmfNumber(DoubleBits(31)));
    PropLength("level", AmfString(Ascii("status")));
    TextLength("status");
    PropLength("code", AmfString(Ascii("NetConnection.Connect.Success")));
    TextLength("NetConnection.Connect.Success");
    PropLength("description", AmfString(Ascii("Connection succeeded.")));
    TextLength("Connection succeeded.");
    PropLength("objectEncoding", AmfNumber(DoubleBits(0)));
    TextLength("_result");
    TextLength("onBWDone");
    DoubleLength(txn);
    DoubleLength(DoubleBits(31));
    DoubleLength(DoubleBits(0));
    DoubleLength(DoubleBits(8192));
    EndLength();
  }

  lemma TextLength(s: string)
    ensures |AmfString(Ascii(s))| == 3 + |s|
  {
    AsciiLength(s);
  }

  lemma DoubleLength(bits: bytes)
    ensures |AmfNumber(bits)| == 1 + |bits|
  {
  }

  lemma PropLength(key: string, v: bytes)
    ensures |AmfProp(key, v)| == 2 + |key| + |v|
  {
    AsciiLength(key);
  }

  lemma EndLength()
    ensures |END| == 3
  {
  }

  // A new client, expecting chunks of 128 bytes, hears exactly the six answers to its connect.
  lemma ClientHears(txn: bytes)
    requires |txn| == 8
    ensures var r := Run(TakeChunk, FRESH, ConnectReply(txn)); r.alive && r.held == [] && r.events == Answers(txn)
  {
    hide TakeChunk, Run, ConnectReply, Receiver, Printed, ConnectResult, BandwidthDone, AllPrinted;
    hide Ready, Calm, Follows, InStep;
    var ms := Answers(txn);
    var first, last := Controls(), ms[4..];
    ConnectWritten(txn);
    Lengths(txn);
    SilentReady();
    assert Calm(SILENT) by { SilentCalm(); }
    Halved(first, last);
    assert ms == first + last;
    ControlsSmall();
    var t := SmallsParse(SILENT, first, 0, AllPrinted(last));
    CalmQuiet(t);
    SameBytes(last);
    PrintedParses(t, last, |AllPrinted(first)|);
  }

  lemma SilentCalm()
    ensures Ready(SILENT) ==> Calm(SILENT)
  {
    hide Ready;
  }

  lemma ControlsSmall()
    ensures Smalls(SILENT, Controls())
  {
    hide PutBE32;
  }

  lemma CalmQuiet(t: Sender)
    requires Calm(t) && t.chunk == 4096
    ensures Quiet(t)
  {
    hide Ready;
  }

  lemma {:induction false} Halved(a: seq<Message>, b: seq<Message>)
    ensures AllPrinted(a + b) == AllPrinted(a) + AllPrinted(b)
    decreases |a|
  {
    hide Printed;
    if a == [] {
      assert a + b == b;
    } else {
      assert (a + b)[1..] == a[1..] + b;
      Halved(a[1..], b);
    }
  }

  lemma {:induction false} SameBytes(ms: seq<Message>)
    requires forall i | 0 <= i < |ms| :: Printable(ms[i])
    ensures AllPrinted(ms) == PrintAll(ms)
    decreases |ms|
  {
    hide Printed;
    if ms != [] {
      assert Printable(ms[0]);
      SameBytes(ms[1..]);
    }
  }
}
