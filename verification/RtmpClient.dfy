/**
  The commands of a publishing client (section 7.2 of RTMP 1.0, encoded in AMF0), and what the connection makes
  of them (videortmp.cpp, on_command): the names and credentials it takes are those the client wrote.
 */
module RtmpClient {
  import opened Bytes
  import opened Numbers
  import opened Amf0
  import opened HttpQuery
  import opened QueryWriter
  import opened RtmpDemux
  import opened RtmpCommands

  // ---------------------------------------------------------------- names with credentials

  // "name?pw=secret": a name without syntax, and a query.
  function Named(name: bytes, ps: seq<Pair>): bytes
  {
    if ps == [] then name else name + [QUERY] + Query(ps)
  }

  function Secrets(): set<bytes> { {Ascii("pw"), Ascii("password"), Ascii("key")} }

  lemma NameReads(name: bytes, ps: seq<Pair>)
    requires QUERY !in name && AMP !in name && AllPlain(ps)
    ensures NamePart(Named(name, ps)) == name && CredentialPart(Named(name, ps)) == Lookup(ps, Secrets())
  {
    hide Query, QueryValue, Lookup, Ascii, AllPlain;
    var s := Named(name, ps);
    if ps == [] {
      FindIs(s, QUERY, AMP, 0, |s|);
      assert s[..|s|] == s;
      NoPairs(Secrets());
    } else {
      FindIs(s, QUERY, AMP, 0, |name|);
      assert s[..|name|] == name && s[|name| + 1..] == Query(ps);
      QueryFinds(ps, Secrets());
    }
  }

  lemma NoPairs(names: set<bytes>)
    ensures Lookup([], names) == Absent
  {
  }

  // ---------------------------------------------------------------- reading AMF0

  lemma StringReads(p: bytes, i: nat, c: bytes)
    requires |c| < 0x1_0000 && At(p, i, Encode(Str(c)))
    ensures ReadString(p, i) == StringRead(c, i + |Encode(Str(c))|)
  {
    var e := Encode(Str(c));
    AtLength(p, i, e);
    AtByte(p, i, e, 0);
    AtByte(p, i, e, 1);
    AtByte(p, i, e, 2);
    assert e == [STRING] + PutBE16(|c|) + c;
    AtPart(p, i, [STRING] + PutBE16(|c|), c);
    hide PutBE16;
    assert p[i + 3..i + 3 + |c|] == c;
  }

  lemma NotAString(p: bytes, i: nat, v: Amf)
    requires !v.Str? && At(p, i, Encode(v))
    ensures ReadString(p, i) == NoString
  {
    hide EncodeMembers, EncodeElements, PutBE16, PutBE32;
    AtByte(p, i, Encode(v), 0);
  }

  lemma NumberReads(p: bytes, i: nat, bits: bytes)
    requires |bits| == 8 && At(p, i, Encode(Number(bits)))
    ensures ReadNumber(p, i) == NumberRead(bits, i + 9)
  {
    var e := Encode(Number(bits));
    AtLength(p, i, e);
    AtByte(p, i, e, 0);
    AtPart(p, i, [NUMBER], bits);
  }

  // ---------------------------------------------------------------- the connect object

  // How many members have this key.
  function Count(ms: seq<Member>, key: bytes): nat
  {
    if ms == [] then 0 else (if ms[0].key == key then 1 else 0) + Count(ms[1..], key)
  }

  // The first string under this key.
  function StringOf(ms: seq<Member>, key: bytes): Credential
  {
    if ms == [] then Absent
    else if ms[0].key == key && ms[0].value.Str? then Present(ms[0].value.chars)
    else StringOf(ms[1..], key)
  }

  predicate Shallow(ms: seq<Member>)
  {
    forall i | 0 <= i < |ms| :: Depth(ms[i].value) <= 8
  }

  function Either(c: Credential, d: Credential): Credential
  {
    if c.Present? then c else d
  }

  function Once(b: bool): nat { if b then 1 else 0 }

  // What is left to find in members, with what has been found.
  function Found(ms: seq<Member>, got: Props, seenApp: bool, seenUrl: bool): Props
    requires got.Props?
  {
    if Once(seenApp) + Count(ms, Ascii("app")) > 1 || Once(seenUrl) + Count(ms, Ascii("tcUrl")) > 1 then BadProps
    else Props(Either(StringOf(ms, Ascii("app")), got.app), Either(StringOf(ms, Ascii("tcUrl")), got.tcUrl))
  }

  lemma KeysDiffer()
    ensures Ascii("app") != Ascii("tcUrl")
  {
    AsciiLength("app");
    AsciiLength("tcUrl");
  }

  lemma KeyLies(p: bytes, i: nat, ms: seq<Member>)
    requires ms != [] && MembersOk(ms) && At(p, i, EncodeMembers(ms))
    ensures i + 2 + |ms[0].key| <= |p| && p[i + 2..i + 2 + |ms[0].key|] == ms[0].key
  {
    hide Encode, PutBE16, WellFormed, EncodeMembers;
    var key, v, rest := ms[0].key, Encode(ms[0].value), EncodeMembers(ms[1..]);
    MemberSplit(ms);
    AtPart(p, i, PutBE16(|key|) + key, v + rest);
    AtPart(p, i, PutBE16(|key|), key);
  }

  // One member: a string is read, anything else passed over.
  lemma ValuePasses(p: bytes, i: nat, v: Amf)
    requires WellFormed(v) && Depth(v) <= 8 && At(p, i, Encode(v))
    ensures v.Str? ==> ReadString(p, i) == StringRead(v.chars, i + |Encode(v)|)
    ensures !v.Str? ==> ReadString(p, i) == NoString && Skip(p, i, 0) == Cursor(true, i + |Encode(v)|)
  {
    hide Encode, Skip;
    if v.Str? {
      StringReads(p, i, v.chars);
    } else {
      NotAString(p, i, v);
      SkipEncoded(p, i, v, 0);
    }
  }

  function Taken(got: Props, m: Member): (r: Props)
    requires got.Props?
    ensures r.Props?
  {
    if !m.value.Str? then got
    else if m.key == Ascii("app") then got.(app := Present(m.value.chars))
    else if m.key == Ascii("tcUrl") then got.(tcUrl := Present(m.value.chars))
    else got
  }

  predicate Repeats(m: Member, seenApp: bool, seenUrl: bool)
  {
    (m.key == Ascii("app") && seenApp) || (m.key == Ascii("tcUrl") && seenUrl)
  }

  // One member is taken, and the rest read with what has been found by then.
  lemma MemberTurn(p: bytes, i: nat, ms: seq<Member>, got: Props, seenApp: bool, seenUrl: bool)
    requires got.Props? && ms != [] && MembersOk(ms) && Depth(ms[0].value) <= 8 && At(p, i, EncodeMembers(ms))
    ensures var m, rest := ms[0], i + 2 + |ms[0].key| + |Encode(ms[0].value)|;
      && At(p, rest, EncodeMembers(ms[1..]))
      && ConnectProps(p, i, got, seenApp, seenUrl) ==
           if Repeats(m, seenApp, seenUrl) then BadProps
           else ConnectProps(p, rest, Taken(got, m),
                             seenApp || m.key == Ascii("app"), seenUrl || m.key == Ascii("tcUrl"))
  {
    hide ConnectProps, Encode, EncodeMembers, Ascii, At, Depth, Skip, ReadString;
    MemberBytes(p, i, ms);
    KeyLies(p, i, ms);
    ValuePasses(p, i + 2 + |ms[0].key|, ms[0].value);
    KeysDiffer();
    PropsStep(p, i, ms[0].key, got, seenApp, seenUrl);
  }

  lemma {:induction false} PropsRead(p: bytes, i: nat, ms: seq<Member>, got: Props, seenApp: bool, seenUrl: bool)
    requires got.Props? && MembersOk(ms) && Shallow(ms) && At(p, i, EncodeMembers(ms))
    ensures ConnectProps(p, i, got, seenApp, seenUrl) == Found(ms, got, seenApp, seenUrl)
    decreases |ms|
  {
    hide *;
    if ms == [] {
      NoMore(p, i, got, seenApp, seenUrl);
    } else {
      MembersApart(ms);
      MemberTurn(p, i, ms, got, seenApp, seenUrl);
      if Repeats(ms[0], seenApp, seenUrl) {
        FoundTwice(ms, got, seenApp, seenUrl);
      } else {
        FoundStep(ms, got, seenApp, seenUrl);
        var app, url := seenApp || ms[0].key == Ascii("app"), seenUrl || ms[0].key == Ascii("tcUrl");
        PropsRead(p, i + 2 + |ms[0].key| + |Encode(ms[0].value)|, ms[1..], Taken(got, ms[0]), app, url);
      }
    }
  }

  lemma MembersApart(ms: seq<Member>)
    requires ms != [] && MembersOk(ms) && Shallow(ms)
    ensures Depth(ms[0].value) <= 8 && MembersOk(ms[1..]) && Shallow(ms[1..])
  {
    hide Depth, WellFormed;
  }

  lemma NoMore(p: bytes, i: nat, got: Props, seenApp: bool, seenUrl: bool)
    requires got.Props? && At(p, i, EncodeMembers([]))
    ensures ConnectProps(p, i, got, seenApp, seenUrl) == Found([], got, seenApp, seenUrl)
  {
    hide Ascii;
    var e := EncodeMembers([]);
    AtByte(p, i, e, 0);
    AtByte(p, i, e, 1);
    AtByte(p, i, e, 2);
  }

  // One turn of the member loop.
  lemma PropsStep(p: bytes, i: nat, key: bytes, got: Props, seenApp: bool, seenUrl: bool)
    requires got.Props? && key != [] && i + 2 + |key| <= |p| && BE16(p[i], p[i + 1]) == |key|
    requires p[i + 2..i + 2 + |key|] == key
    ensures var isApp, isUrl, k := key == Ascii("app"), key == Ascii("tcUrl"), i + 2 + |key|;
      ConnectProps(p, i, got, seenApp, seenUrl) ==
        if (isApp && seenApp) || (isUrl && seenUrl) then BadProps
        else match ReadString(p, k)
          case StringRead(v, at) =>
            var next := if isApp then got.(app := Present(v)) else if isUrl then got.(tcUrl := Present(v)) else got;
            ConnectProps(p, at, next, seenApp || isApp, seenUrl || isUrl)
          case NoString =>
            if Skip(p, k, 0).ok then ConnectProps(p, Skip(p, k, 0).at, got, seenApp || isApp, seenUrl || isUrl)
            else BadProps
  {
    hide Ascii, ReadString, Skip;
  }

  lemma {:induction false} CountedOnce(ms: seq<Member>, key: bytes)
    ensures Count(ms, key) == 0 ==> StringOf(ms, key) == Absent
  {
    if ms != [] { CountedOnce(ms[1..], key); }
  }

  lemma FoundStep(ms: seq<Member>, got: Props, seenApp: bool, seenUrl: bool)
    requires got.Props? && ms != [] && !Repeats(ms[0], seenApp, seenUrl)
    ensures Found(ms, got, seenApp, seenUrl) == Found(ms[1..], Taken(got, ms[0]),
      seenApp || ms[0].key == Ascii("app"), seenUrl || ms[0].key == Ascii("tcUrl"))
  {
    hide Ascii;
    KeysDiffer();
    CountedOnce(ms[1..], Ascii("app"));
    CountedOnce(ms[1..], Ascii("tcUrl"));
  }

  lemma FoundTwice(ms: seq<Member>, got: Props, seenApp: bool, seenUrl: bool)
    requires got.Props? && ms != [] && Repeats(ms[0], seenApp, seenUrl)
    ensures Found(ms, got, seenApp, seenUrl) == BadProps
  {
    hide Ascii;
  }

  // The connect object's app and tcUrl, if neither is given twice.
  function Offered(ms: seq<Member>): Props
  {
    if Count(ms, Ascii("app")) > 1 || Count(ms, Ascii("tcUrl")) > 1 then BadProps
    else Props(StringOf(ms, Ascii("app")), StringOf(ms, Ascii("tcUrl")))
  }

  lemma ObjectReads(p: bytes, i: nat, ms: seq<Member>)
    requires MembersOk(ms) && Shallow(ms) && At(p, i, Encode(Object(ms)))
    ensures ConnectObject(p, i) == Offered(ms)
  {
    hide EncodeMembers, ConnectProps, Ascii;
    AtByte(p, i, Encode(Object(ms)), 0);
    AtPart(p, i, [OBJECT], EncodeMembers(ms));
    PropsRead(p, i + 1, ms, Props(Absent, Absent), false, false);
  }

  // ---------------------------------------------------------------- commands

  // A command's name, its transaction number and its arguments.
  function Command(name: string, bits: bytes, args: seq<Amf>): bytes
  {
    EncodeElements([Str(Ascii(name)), Number(bits)] + args)
  }

  lemma CommandLies(name: string, bits: bytes, args: seq<Amf>)
    requires |name| < 0x1_0000 && |bits| == 8
    ensures var p, a := Command(name, bits, args), 3 + |name|;
      && ReadString(p, 0) == StringRead(Ascii(name), a) && ReadNumber(p, a) == NumberRead(bits, a + 9)
      && At(p, a + 9, EncodeElements(args))
  {
    hide Ascii, Encode;
    AsciiLength(name);
    var p, s, k := Command(name, bits, args), Str(Ascii(name)), Number(bits);
    var all := [s, k] + args;
    assert all[1..] == [k] + args && all[1..][1..] == args;
    assert p[0..|p|] == p;
    AtPart(p, 0, Encode(s), EncodeElements(all[1..]));
    AtPart(p, |Encode(s)|, Encode(k), EncodeElements(args));
    StringReads(p, 0, Ascii(name));
    Sizes(Ascii(name), bits);
    NumberReads(p, |Encode(s)|, bits);
  }

  lemma Sizes(c: bytes, bits: bytes)
    ensures |Encode(Str(c))| == 3 + |c| && |Encode(Number(bits))| == 1 + |bits|
  {
  }

  lemma ElementsLie(p: bytes, i: nat, v: Amf, more: seq<Amf>)
    requires At(p, i, EncodeElements([v] + more))
    ensures At(p, i, Encode(v)) && At(p, i + |Encode(v)|, EncodeElements(more))
  {
    hide Encode;
    assert ([v] + more)[1..] == more;
    AtPart(p, i, Encode(v), EncodeElements(more));
  }

  // The credential in force is c.
  predicate Holding(n: Negotiation, c: Credential)
  {
    n.hasPassword == c.Present? && (c.Present? ==> n.password == c.value)
  }

  // A name and its credentials, as app or tcUrl.
  datatype Place = Nowhere | Place(name: bytes, ps: seq<Pair>)

  predicate PlaceOk(x: Place)
  {
    x.Place? ==> QUERY !in x.name && AMP !in x.name && AllPlain(x.ps)
  }

  function Written(x: Place): Credential
  {
    if x.Nowhere? then Absent else Present(Named(x.name, x.ps))
  }

  function SecretOf(x: Place): Credential
  {
    if x.Nowhere? then Absent else Lookup(x.ps, Secrets())
  }

  // A connect with an app: it names the application, and the credential is the one in the app, else the one in tcUrl,
  // else none. With app or tcUrl given twice it is refused.
  lemma ConnectUnderstood(
    n: Negotiation, sid: nat, bits: bytes, ms: seq<Member>, more: seq<Amf>, app: Place, url: Place)
    requires !n.connected && |bits| == 8 && MembersOk(ms) && Shallow(ms) && PlaceOk(app) && PlaceOk(url)
    requires Offered(ms).Props? ==> app.Place? && Offered(ms) == Props(Written(app), Written(url))
    ensures var r := OnCommand(n, sid, Command("connect", bits, [Object(ms)] + more));
      && (r.Replied? <==> Offered(ms).Props?)
      && (r.Replied? ==> r.n.connected && r.n.app == app.name && Holding(r.n, Either(SecretOf(app), SecretOf(url))))
  {
    hide Encode, EncodeElements, ConnectReply, Ascii, NamePart, CredentialPart, ConnectObject, ReadString, ReadNumber;
    hide Command, Named, Query, Lookup;
    var p := Command("connect", bits, [Object(ms)] + more);
    CommandLies("connect", bits, [Object(ms)] + more);
    ElementsLie(p, 19, Object(ms), more);
    ObjectReads(p, 19, ms);
    if app.Place? { NameReads(app.name, app.ps); }
    if url.Place? { NameReads(url.name, url.ps); }
    EmptyName(url);
  }

  lemma EmptyName(x: Place)
    ensures x.Place? && Named(x.name, x.ps) == [] ==> SecretOf(x) == Absent
  {
  }

  // The name behind the first argument, whatever that is.
  lemma NameLies(p: bytes, i: nat, first: Amf, name: bytes, more: seq<Amf>)
    requires WellFormed(first) && Depth(first) <= 8 && |name| < 0x1_0000
    requires At(p, i, EncodeElements([first, Str(name)] + more))
    ensures NameArgument(p, i).StringRead? && NameArgument(p, i).value == name
  {
    hide Encode, EncodeElements, Skip;
    assert [first, Str(name)] + more == [first] + ([Str(name)] + more);
    ElementsLie(p, i, first, [Str(name)] + more);
    ElementsLie(p, i + |Encode(first)|, Str(name), more);
    SkipEncoded(p, i, first, 0);
    StringReads(p, i + |Encode(first)|, name);
  }

  // A credential is taken only if there is none yet.
  function Kept(n: Negotiation, c: Credential): Credential
  {
    if n.hasPassword then Present(n.password) else c
  }

  // A publish names its stream and may bring a credential. It is taken once, on a connected connection.
  lemma PublishUnderstood(n: Negotiation, sid: nat, bits: bytes, first: Amf, at: Place, more: seq<Amf>)
    requires |bits| == 8 && WellFormed(first) && Depth(first) <= 8
    requires at.Place? && PlaceOk(at) && |Named(at.name, at.ps)| < 0x1_0000
    ensures var r := OnCommand(n, sid, Command("publish", bits, [first, Str(Named(at.name, at.ps))] + more));
      && (r.Replied? <==> n.connected && !n.publishing && !n.pending)
      && (r.Replied? ==> r.out == [] && r.n.pending && r.n.stream == at.name && r.n.sid == (if sid != 0 then sid else 1)
                         && Holding(r.n, Kept(n, SecretOf(at))))
  {
    hide Encode, EncodeElements, Ascii, NamePart, CredentialPart, ReadString, ReadNumber, NameArgument;
    hide Command, Named, Query, Lookup, ConnectReply, FcPublishReply, ResultReply, OnConnect, DoubleBits;
    var p, v := Command("publish", bits, [first, Str(Named(at.name, at.ps))] + more), Named(at.name, at.ps);
    CommandLies("publish", bits, [first, Str(v)] + more);
    NameLies(p, 19, first, v, more);
    NameReads(at.name, at.ps);
    NamesDiffer();
  }

  // FCPublish may bring a credential too, and is answered.
  lemma FcPublishUnderstood(n: Negotiation, sid: nat, bits: bytes, first: Amf, at: Place, more: seq<Amf>)
    requires |bits| == 8 && WellFormed(first) && Depth(first) <= 8
    requires at.Place? && PlaceOk(at) && |Named(at.name, at.ps)| < 0x1_0000
    ensures var r := OnCommand(n, sid, Command("FCPublish", bits, [first, Str(Named(at.name, at.ps))] + more));
      r.Replied? && r.out == FcPublishReply(at.name) && Holding(r.n, Kept(n, SecretOf(at)))
  {
    hide Encode, EncodeElements, Ascii, NamePart, CredentialPart, ReadString, ReadNumber, NameArgument;
    hide Command, Named, Query, Lookup, ConnectReply, FcPublishReply, ResultReply, OnConnect, DoubleBits, OnPublish;
    var p, v := Command("FCPublish", bits, [first, Str(Named(at.name, at.ps))] + more), Named(at.name, at.ps);
    CommandLies("FCPublish", bits, [first, Str(v)] + more);
    NameLies(p, 21, first, v, more);
    NameReads(at.name, at.ps);
    NamesDiffer();
  }

  // The commands that are told apart.
  const COMMANDS: set<string> := {"connect", "releaseStream", "FCUnpublish", "deleteStream", "closeStream", "FCPublish",
                                  "createStream", "publish", "play", "play2"}

  lemma NamesDiffer()
    ensures Ascii("connect") != Ascii("publish")
    ensures forall s | s in COMMANDS :: |Ascii(s)| == |s|
  {
    hide Ascii;
    AsciiIs("connect", [99, 111, 110, 110, 101, 99, 116]);
    AsciiIs("publish", [112, 117, 98, 108, 105, 115, 104]);
    forall s | s in COMMANDS ensures |Ascii(s)| == |s| { AsciiLength(s); }
  }
}
