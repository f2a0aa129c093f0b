/**
  What an RTMP publisher negotiates (videortmp.cpp, on_command, on_media and accept_publish): AMF0
  commands in, responses and FLV out. These are value computations on whole messages; how messages
  are put together from the wire is RtmpDemux.
 */
module RtmpCommands {
  import opened Bytes
  import opened Amf0
  import opened HttpQuery
  import opened Numbers
  import opened RtmpDemux
  import opened RtmpPrinter

  datatype Codec = NoCodec | H264 | OtherCodec

  datatype Negotiation = Negotiation(
    app: bytes, stream: bytes, password: bytes, hasPassword: bool,
    connected: bool, publishing: bool, pending: bool, sid: nat,
    codec: Codec, flv: bytes, mediaBytes: nat)

  const NEGOTIATING := Negotiation([], [], [], false, false, false, false, 1, NoCodec, [], 0)

  // ---------------------------------------------------------------- credentials

  // What a publisher may call its credential.
  const CREDENTIAL_NAMES: set<bytes> := {Ascii("pw"), Ascii("password"), Ascii("key")}

  // "name?pw=secret" is a name and a credential.
  function NamePart(s: bytes): bytes
  {
    s[..Find(s, 63, 38, 0)]
  }

  function CredentialPart(s: bytes): Credential
  {
    var q := Find(s, 63, 38, 0);
    if q == |s| then Absent else QueryValue(s[q + 1..], 0, CREDENTIAL_NAMES)
  }

  // ---------------------------------------------------------------- reading commands

  datatype StringRead = NoString | StringRead(value: bytes, at: nat)

  function ReadString(p: bytes, i: nat): (r: StringRead)
    ensures r.StringRead? ==> i < r.at <= |p| && |r.value| == r.at - i - 3
  {
    if i >= |p| || p[i] != STRING || i + 3 > |p| then NoString
    else
      var end := i + 3 + BE16(p[i + 1], p[i + 2]);
      if end > |p| then NoString else StringRead(p[i + 3..end], end)
  }

  const ZERO_BITS: bytes := [0, 0, 0, 0, 0, 0, 0, 0]

  datatype NumberRead = NumberRead(bits: bytes, at: nat)

  // A transaction id that is not there reads as zero.
  function ReadNumber(p: bytes, i: nat): NumberRead
  {
    if i + 9 <= |p| && p[i] == NUMBER then NumberRead(p[i + 1..i + 9], i + 9) else NumberRead(ZERO_BITS, i)
  }

  datatype Props = BadProps | Props(app: Credential, tcUrl: Credential)

  // The app and tcUrl members of the connect object. Either of them twice is refused.
  function ConnectProps(p: bytes, i: nat, got: Props, seenApp: bool, seenUrl: bool): Props
    requires got.Props?
    decreases |p| - i
  {
    if i + 2 > |p| then BadProps
    else
      var klen, j := BE16(p[i], p[i + 1]), i + 2;
      if klen == 0 then (if j >= |p| || p[j] != OBJECT_END then BadProps else got)
      else if j + klen > |p| then BadProps
      else
        var key, k := p[j..j + klen], j + klen;
        var isApp, isUrl := key == Ascii("app"), key == Ascii("tcUrl");
        if (isApp && seenApp) || (isUrl && seenUrl) then BadProps
        else
          match ReadString(p, k)
          case StringRead(v, at) =>
            var next := if isApp then got.(app := Present(v)) else if isUrl then got.(tcUrl := Present(v)) else got;
            ConnectProps(p, at, next, seenApp || isApp, seenUrl || isUrl)
          case NoString =>
            var r := Skip(p, k, 0);
            if r.ok then ConnectProps(p, r.at, got, seenApp || isApp, seenUrl || isUrl) else BadProps
  }

  function ConnectObject(p: bytes, i: nat): Props
  {
    if i >= |p| then BadProps
    else if p[i] == OBJECT then ConnectProps(p, i + 1, Props(Absent, Absent), false, false)
    else if p[i] == ECMA_ARRAY then ConnectProps(p, i + 5, Props(Absent, Absent), false, false)
    else if Skip(p, i, 0).ok then Props(Absent, Absent) else BadProps
  }

  // ---------------------------------------------------------------- writing responses

  function Log2(v: nat): nat
    requires v > 0
  {
    if v == 1 then 0 else 1 + Log2(v / 2)
  }

  // The IEEE 754 double of a 32-bit integer, big endian.
  function DoubleBits(v: nat): bytes
  {
    if v == 0 || Log2(v) > 52 then ZERO_BITS
    else EightBytes((1023 + Log2(v)) * Pow2(52) + Mantissa(v, Log2(v)))
  }

  function Mantissa(v: nat, e: nat): int
    requires e <= 52
  {
    (v - Pow2(e)) * Pow2(52 - e)
  }

  function EightBytes(n: int): bytes
  {
    if n < 0 then ZERO_BITS else PutBE32(n / WRAP) + PutBE32(n % WRAP)
  }

  function AmfNumber(bits: bytes): bytes { [NUMBER] + bits }
  function AmfKey(s: bytes): bytes { PutBE16(|s|) + s }
  function AmfString(s: bytes): bytes { [STRING] + AmfKey(s) }

  // A string handed over as a C string ends at its first NUL.
  function CString(s: bytes): bytes
  {
    s[..Find(s, 0, 0, 0)]
  }

  function AmfProp(key: string, value: bytes): bytes
  {
    AmfKey(Ascii(key)) + value
  }

  const END: bytes := [0, 0, OBJECT_END]

  function CommandMessage(csid: nat, sid: nat, body: bytes): bytes
    requires csid < 64
  {
    Printed(Message(csid, 20, 0, sid, body))
  }

  function ControlMessage(kind: byte, body: bytes): bytes
  {
    Printed(Message(2, kind, 0, 0, body))
  }

  function ConnectReply(txn: bytes): bytes
  {
    ControlMessage(5, [0x00, 0x26, 0x25, 0xa0]) + ControlMessage(6, [0x00, 0x26, 0x25, 0xa0, 0x02])
    + ControlMessage(4, [0, 0, 0, 0, 0, 0]) + ControlMessage(1, PutBE32(OUT_CHUNK))
    + CommandMessage(3, 0,
        AmfString(Ascii("_result")) + AmfNumber(txn)
        + [OBJECT] + AmfProp("fmsVer", AmfString(Ascii("FMS/3,0,1,123")))
        + AmfProp("capabilities", AmfNumber(DoubleBits(31))) + END
        + [OBJECT] + AmfProp("level", AmfString(Ascii("status")))
        + AmfProp("code", AmfString(Ascii("NetConnection.Connect.Success")))
        + AmfProp("description", AmfString(Ascii("Connection succeeded.")))
        + AmfProp("objectEncoding", AmfNumber(DoubleBits(0))) + END)
    + CommandMessage(3, 0,
        AmfString(Ascii("onBWDone")) + AmfNumber(DoubleBits(0)) + [NULL] + AmfNumber(DoubleBits(8192)))
  }

  function StatusStart(description: bytes): bytes
  {
    [OBJECT] + AmfProp("level", AmfString(Ascii("status")))
    + AmfProp("code", AmfString(Ascii("NetStream.Publish.Start")))
    + AmfProp("description", AmfString(description))
  }

  function FcPublishReply(name: bytes): bytes
  {
    CommandMessage(3, 0, AmfString(Ascii("onFCPublish")) + AmfNumber(DoubleBits(0)) + [NULL]
      + StatusStart(if name == [] then Ascii("Publishing.") else CString(name)) + END)
  }

  function ResultReply(txn: bytes, more: bytes): bytes
  {
    CommandMessage(3, 0, AmfString(Ascii("_result")) + AmfNumber(txn) + [NULL] + more)
  }

  const FLV_HEADER: bytes := [0x46, 0x4c, 0x56, 0x01, 0x05, 0, 0, 0, 9, 0, 0, 0, 0]

  // Publish is authorised: tell the client, and start the FLV stream.
  function AcceptReply(n: Negotiation): bytes
  {
    ControlMessage(4, [0, 0] + PutBE32(n.sid))
    + CommandMessage(5, n.sid, AmfString(Ascii("onStatus")) + AmfNumber(DoubleBits(0)) + [NULL]
      + StatusStart(if n.stream == [] then Ascii("Publishing.") else CString(n.stream + Ascii(" is now published.")))
      + AmfProp("clientid", AmfNumber(DoubleBits(1))) + END)
  }

  function Accepted(n: Negotiation): Negotiation
  {
    n.(pending := false, publishing := true, flv := n.flv + FLV_HEADER)
  }

  // ---------------------------------------------------------------- commands

  datatype Reply = Refused | Replied(n: Negotiation, out: bytes)

  function HoldCredential(n: Negotiation, c: Credential): Negotiation
  {
    if c.Present? && !n.hasPassword then n.(password := c.value, hasPassword := true) else n
  }

  // The credential a connect carries itself: in its app, or else in its tcUrl.
  function OfferedBy(app: bytes, url: Credential): Credential
  {
    var own := CredentialPart(app);
    if own.Present? then own
    else if url.Present? && url.value != [] then CredentialPart(url.value) else Absent
  }

  function OnConnect(n: Negotiation, p: bytes, txn: NumberRead): Reply
  {
    if n.connected then Refused
    else
      match ConnectObject(p, txn.at)
      case BadProps => Refused
      case Props(app, url) =>
        var given := if app.Present? then app.value else n.app;
        var c := OfferedBy(given, url);
        Replied(n.(app := NamePart(given), connected := true, hasPassword := c.Present?,
                   password := if c.Present? then c.value else n.password),
                ConnectReply(txn.bits))
  }

  // The argument after the command object; a command object that will not skip is ignored.
  function NameArgument(p: bytes, i: nat): StringRead
  {
    ReadString(p, Skip(p, i, 0).at)
  }

  function OnPublish(n: Negotiation, sid: nat, p: bytes, i: nat): Reply
  {
    if n.publishing || n.pending || !n.connected then Refused
    else
      match NameArgument(p, i)
      case NoString => Refused
      case StringRead(v, _) =>
        var held := HoldCredential(n, CredentialPart(v));
        Replied(held.(stream := NamePart(v), sid := if sid != 0 then sid else 1, pending := true), [])
  }

  function OnFcPublish(n: Negotiation, p: bytes, i: nat): Reply
  {
    var r := NameArgument(p, i);
    var v := if r.StringRead? then r.value else [];
    Replied(HoldCredential(n, CredentialPart(v)), FcPublishReply(NamePart(v)))
  }

  function OnCommand(n: Negotiation, sid: nat, p: bytes): Reply
  {
    match ReadString(p, 0)
    case NoString => Refused
    case StringRead(cmd, i) =>
      var txn := ReadNumber(p, i);
      if cmd == Ascii("connect") then OnConnect(n, p, txn)
      else if cmd == Ascii("releaseStream") then Replied(n, ResultReply(txn.bits, []))
      else if cmd == Ascii("FCUnpublish") || cmd == Ascii("deleteStream") then
        if n.publishing then Refused else Replied(n, [])
      else if cmd == Ascii("closeStream") then Replied(n, [])
      else if cmd == Ascii("FCPublish") then OnFcPublish(n, p, txn.at)
      else if cmd == Ascii("createStream") then Replied(n, ResultReply(txn.bits, AmfNumber(DoubleBits(n.sid))))
      else if cmd == Ascii("publish") then OnPublish(n, sid, p, txn.at)
      else if cmd == Ascii("play") || cmd == Ascii("play2") then Refused
      else Replied(n, [])
  }

  // ---------------------------------------------------------------- media

  function CodecOf(p: bytes): Codec
    requires p != []
  {
    if p[0] < 128 then (if p[0] % 16 == 7 then H264 else OtherCodec)
    else if |p| >= 5 then (if p[1..5] == Ascii("avc1") then H264 else OtherCodec)
    else NoCodec
  }

  const DATA_FRAME: bytes := [STRING, 0, 13] + Ascii("@setDataFrame")

  function FlvTag(kind: byte, ts: nat, p: bytes): bytes
  {
    [kind] + PutBE24(|p|) + PutBE24(ts) + [(ts / 0x100_0000) % 256, 0, 0, 0] + p + PutBE32(|p| + 11)
  }

  // Media before publish is not ours to keep; metadata loses its RTMP wrapper.
  function OnMedia(n: Negotiation, kind: byte, ts: nat, p: bytes): Negotiation
  {
    if !n.publishing || p == [] then n
    else
      var codec := if kind == 9 && n.codec.NoCodec? then CodecOf(p) else n.codec;
      var q := if kind == 18 && |p| > 16 && p[..16] == DATA_FRAME then p[16..] else p;
      n.(codec := codec, mediaBytes := n.mediaBytes + |q|, flv := n.flv + FlvTag(kind, ts, q))
  }

  // ---------------------------------------------------------------- the credential that counts

  predicate IsConnect(p: bytes)
  {
    ReadString(p, 0).StringRead? && ReadString(p, 0).value == Ascii("connect")
  }

  // What the connect in p offers, on a connection in state n.
  function ConnectOffers(n: Negotiation, p: bytes): Credential
    requires IsConnect(p)
  {
    match ConnectObject(p, ReadNumber(p, ReadString(p, 0).at).at)
    case BadProps => Absent
    case Props(app, url) => OfferedBy(if app.Present? then app.value else n.app, url)
  }

  // A credential once offered survives a command exactly when the command is not a connect, or is one
  // that offers the same credential again. So the first credential wins only from connect on.
  lemma CredentialKept(n: Negotiation, sid: nat, p: bytes)
    requires OnCommand(n, sid, p).Replied? && n.hasPassword
    ensures var r := OnCommand(n, sid, p).n;
      r.hasPassword && r.password == n.password <==> !IsConnect(p) || ConnectOffers(n, p) == Present(n.password)
  {
    hide ConnectReply, FcPublishReply, ResultReply, DoubleBits, Ascii;
    hide CredentialPart, NamePart, NameArgument, ConnectObject, OfferedBy;
  }

  // FCPublish with the name "a?pw=x", and a connect that offers nothing.
  const FC_NAME: bytes := [70, 67, 80, 117, 98, 108, 105, 115, 104]
  const STREAM_NAME: bytes := [97, 63, 112, 119, 61, 120]
  const FC_PUBLISH: bytes :=
    [STRING, 0, 9] + FC_NAME + [NUMBER, 0, 0, 0, 0, 0, 0, 0, 0] + [NULL, STRING, 0, 6] + STREAM_NAME

  const PLAIN_CONNECT: bytes :=
    [STRING, 0, 7, 99, 111, 110, 110, 101, 99, 116, NUMBER, 0, 0, 0, 0, 0, 0, 0, 0, OBJECT, 0, 0, OBJECT_END]

  // Of the two commands in sequence the first offers a credential and the second forgets it.
  lemma ConnectForgets()
    ensures var first := OnCommand(NEGOTIATING, 0, FC_PUBLISH);
      && first.Replied? && first.n == NEGOTIATING.(password := [120], hasPassword := true)
      && var second := OnCommand(first.n, 0, PLAIN_CONNECT);
      && second.Replied? && second.n.connected && !second.n.hasPassword
  {
    hide OnCommand;
    PublishOffers();
    ConnectDrops(NEGOTIATING.(password := [120], hasPassword := true));
  }

  lemma PublishOffers()
    ensures var r := OnCommand(NEGOTIATING, 0, FC_PUBLISH);
      r.Replied? && r.n == NEGOTIATING.(password := [120], hasPassword := true)
  {
    hide ConnectReply, FcPublishReply, ResultReply, DoubleBits, Ascii, NamePart, CredentialPart, OnConnect, OnPublish;
    hide ReadString, Skip;
    FcPublishReads();
    FcPublishSpelled();
    AsciiLength("connect");
    AsciiLength("releaseStream");
    AsciiLength("FCUnpublish");
    AsciiLength("deleteStream");
    AsciiLength("closeStream");
    NameOffers();
  }

  lemma FcPublishReads()
    ensures ReadString(FC_PUBLISH, 0) == StringRead(FC_NAME, 12)
    ensures ReadNumber(FC_PUBLISH, 12).at == 21
    ensures Skip(FC_PUBLISH, 21, 0).at == 22
    ensures ReadString(FC_PUBLISH, 22) == StringRead(STREAM_NAME, 31)
  {
    hide Ascii;
    var p := FC_PUBLISH;
    assert p[..3] == [STRING, 0, 9] && p[3..12] == FC_NAME && p[12] == NUMBER;
    assert p[21..25] == [NULL, STRING, 0, 6] && p[25..31] == STREAM_NAME;
    assert p[0] == p[..3][0] && p[1] == p[..3][1] && p[2] == p[..3][2];
    assert p[21] == p[21..25][0] && p[22] == p[21..25][1] && p[23] == p[21..25][2] && p[24] == p[21..25][3];
  }

  // "a?pw=x" offers x.
  lemma NameOffers()
    ensures CredentialPart(STREAM_NAME) == Present([120])
  {
    hide UrlDecode, Ascii;
    var s, q: bytes := STREAM_NAME, [112, 119, 61, 120];
    assert Find(s, 63, 38, 0) == 1 && s[2..] == q;
    assert Find(q, 38, 38, 0) == 4 && q[0..4] == q;
    assert Find(q, 61, 61, 0) == 2 && q[..2] == [112, 119] && q[3..] == [120];
    assert Ascii("pw") == [112, 119] by { PwSpelled(); }
    assert UrlDecode([120]) == [120] by { PlainDecodes(); }
  }

  lemma PwSpelled()
    ensures Ascii("pw") == [112, 119]
  {
    AsciiIs("pw", [112, 119]);
  }

  lemma PlainDecodes()
    ensures UrlDecode([120]) == [120]
  {
    assert [120 as byte][1..] == [];
  }

  lemma FcPublishSpelled()
    ensures Ascii("FCPublish") == FC_NAME
  {
    AsciiIs("FCPublish", FC_NAME);
  }

  lemma ConnectDrops(n: Negotiation)
    requires !n.connected && n.app == []
    ensures var r := OnCommand(n, 0, PLAIN_CONNECT); r.Replied? && r.n.connected && !r.n.hasPassword
  {
    hide ConnectReply, FcPublishReply, ResultReply, DoubleBits, Ascii, NamePart, NameArgument, ConnectObject;
    hide OfferedBy, ReadString;
    PlainConnectReads();
    Spelled();
    assert OfferedBy([], Absent) == Absent by { NothingOffered(); }
  }

  lemma PlainConnectReads()
    ensures ReadString(PLAIN_CONNECT, 0) == StringRead([99, 111, 110, 110, 101, 99, 116], 10)
    ensures ReadNumber(PLAIN_CONNECT, 10).at == 19
    ensures ConnectObject(PLAIN_CONNECT, 19) == Props(Absent, Absent)
  {
    hide Ascii, Skip;
    var p := PLAIN_CONNECT;
    assert p[3..10] == [99, 111, 110, 110, 101, 99, 116];
  }

  lemma NothingOffered()
    ensures OfferedBy([], Absent) == Absent
  {
  }

  lemma Spelled()
    ensures Ascii("connect") == [99, 111, 110, 110, 101, 99, 116]
  {
    AsciiIs("connect", [99, 111, 110, 110, 101, 99, 116]);
  }

  // No command records anything or starts publishing by itself; a publish becomes pending only if the
  // connection is connected and none is under way.
  lemma PublishOnce(n: Negotiation, sid: nat, p: bytes)
    requires OnCommand(n, sid, p).Replied?
    ensures var r := OnCommand(n, sid, p).n;
      && r.publishing == n.publishing && r.flv == n.flv
      && (r.pending && !n.pending ==> n.connected && !n.publishing)
      && (n.connected ==> r.connected)
  {
    hide ConnectReply, FcPublishReply, ResultReply, DoubleBits, Ascii;
    hide CredentialPart, NamePart, NameArgument, ConnectObject;
  }
}
