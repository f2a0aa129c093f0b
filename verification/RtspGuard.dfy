/**
  The filter on the client half of a relayed RTSP session (video.cpp, guard_rtsp_requests; section
  10.12 of RFC 2326). Requests are held until their header is complete and checked for a password;
  message bodies and interleaved RTP are counted and passed through unread.

  `AcceptsExactly` says what the guard takes the stream to be: whole requests with their bodies, and
  whole interleaved frames. Nothing else gets through, and everything that gets through is unchanged.
 */
module RtspGuard {
  import opened Bytes
  import opened StreamDecoder
  import opened HttpQuery

  const MAX_REQUEST := 8192
  const MAX_BODY := 16 * 1024 * 1024
  const TWO64 := 0x1_0000_0000_0000_0000
  const DOLLAR: byte := 36
  const CR: byte := 13
  const LF: byte := 10
  const SPACE: byte := 32
  const TAB: byte := 9
  const COLON: byte := 58
  const SLASH: byte := 47

  // Is a publish password configured, and which strings match it.
  datatype Policy = Policy(required: bool, matches: bytes -> bool)

  // ---------------------------------------------------------------- one request header

  function Lower(s: bytes): bytes
  {
    seq(|s|, i requires 0 <= i < |s| => if 65 <= s[i] <= 90 then s[i] + 32 else s[i])
  }

  function Chomp(line: bytes): bytes
  {
    if line != [] && line[|line| - 1] == CR then line[..|line| - 1] else line
  }

  function TrimEnd(s: bytes): bytes
  {
    if s != [] && s[|s| - 1] in {SPACE, TAB} then TrimEnd(s[..|s| - 1]) else s
  }

  function TrimStart(s: bytes): bytes
  {
    if s != [] && s[0] in {SPACE, TAB} then TrimStart(s[1..]) else s
  }

  const CONTENT_LENGTH: bytes := Ascii("content-length")

  // How many header lines name Content-Length, blanks before the colon notwithstanding.
  function LengthFields(h: bytes, at: nat): nat
    requires at <= |h|
    decreases |h| - at
  {
    if at == |h| then 0
    else
      var end := Find(h, LF, LF, at);
      var line := Chomp(h[at..end]);
      var colon := Find(line, COLON, COLON, 0);
      var hit := if colon < |line| && Lower(TrimEnd(line[..colon])) == CONTENT_LENGTH then 1 else 0;
      hit + if end == |h| then 0 else LengthFields(h, end + 1)
  }

  // The value of the first line that begins with "Content-Length:".
  function LengthValue(h: bytes, at: nat): bytes
    requires at <= |h|
    decreases |h| - at
  {
    if at == |h| then []
    else
      var end := Find(h, LF, LF, at);
      var line := Chomp(h[at..end]);
      var want := CONTENT_LENGTH + [COLON];
      if |line| >= |want| && Lower(line)[..|want|] == want then TrimEnd(TrimStart(line[|want|..]))
      else if end == |h| then [] else LengthValue(h, end + 1)
  }

  function SkipBlank(s: bytes): bytes
  {
    if s != [] && (s[0] == SPACE || 9 <= s[0] <= 13) then SkipBlank(s[1..]) else s
  }

  predicate Digits(s: bytes) { s != [] && forall i | 0 <= i < |s| :: 48 <= s[i] <= 57 }

  function Decimal(s: bytes): nat
    requires forall i | 0 <= i < |s| :: 48 <= s[i] <= 57
  {
    if s == [] then 0 else Decimal(s[..|s| - 1]) * 10 + (s[|s| - 1] - 48)
  }

  datatype Length = BadLength | Length(n: nat)

  // strtoull on the C string: blanks, a sign, digits, nothing after; a minus wraps around 2^64.
  function ParseLength(v: bytes): Length
  {
    var s := SkipBlank(v[..Find(v, 0, 0, 0)]);
    var minus := s != [] && s[0] == 45;
    var d := if s != [] && s[0] in {43, 45} then s[1..] else s;
    if !Digits(d) || Decimal(d) >= TWO64 then BadLength
    else
      var n := if minus then (TWO64 - Decimal(d)) % TWO64 else Decimal(d);
      if n > MAX_BODY then BadLength else Length(n)
  }

  // The body a header announces; ambiguous announcements are refused.
  function BodyLength(fields: bytes): Length
  {
    var count, value := LengthFields(fields, 0), LengthValue(fields, 0);
    if count > 1 || (count == 1 && value == []) then BadLength
    else if value == [] then Length(0)
    else ParseLength(value)
  }

  datatype Parsed = Malformed | Parsed(target: bytes, fields: bytes)

  predicate EndsWith(s: bytes, t: bytes) { |s| >= |t| && s[|s| - |t|..] == t }

  function Head(h: bytes): bytes
  {
    if EndsWith(h, [CR, LF, CR, LF]) then h[..|h| - 4] else if EndsWith(h, [LF, LF]) then h[..|h| - 2] else h
  }

  // Method, target and something after it; a request needs at least one header line.
  function ParseHead(h: bytes): Parsed
  {
    var head := Head(h);
    var eol := Find(head, LF, LF, 0);
    if eol == |head| then Malformed
    else
      var line := Chomp(head[..eol]);
      var sp := Find(line, SPACE, SPACE, 0);
      if sp == |line| then Malformed
      else
        var sp2 := Find(line, SPACE, SPACE, sp + 1);
        if sp2 == |line| || sp == 0 then Malformed
        else
          var target := line[sp + 1..sp2];
          if Find(target, 63, 63, 0) == 0 then Malformed else Parsed(target, head[eol + 1..])
  }

  // The first pw= of the target's query, decoded.
  function Password(target: bytes): Credential
  {
    var q := Find(target, 63, 63, 0);
    if q == |target| then Absent else QueryValue(target[q + 1..], 0, {Ascii("pw")})
  }

  function LastSlash(s: bytes): nat
  {
    if s == [] then 0 else if s[|s| - 1] == SLASH then |s| - 1 else LastSlash(s[..|s| - 1])
  }

  // A control path appended to the URI ends up in the password; what precedes its last slash counts too.
  predicate Matches(p: Policy, pw: bytes)
  {
    || p.matches(pw)
    || (SLASH in pw && LastSlash(pw) <= |pw| && p.matches(pw[..LastSlash(pw)]))
  }

  predicate Wrong(p: Policy, h: bytes)
  {
    && ParseHead(h).Parsed? && p.required
    && Password(ParseHead(h).target).Present?
    && !Matches(p, Password(ParseHead(h).target).value)
  }

  function Inspect(p: Policy, h: bytes): (r: Length)
    ensures r.Length? ==> r.n <= MAX_BODY
  {
    if |h| > MAX_REQUEST || ParseHead(h).Malformed? || Wrong(p, h) then BadLength
    else BodyLength(ParseHead(h).fields)
  }

  // ---------------------------------------------------------------- the end of a header

  predicate Ends(b: bytes, i: nat, n: nat)
  {
    || (n == 2 && i + 2 <= |b| && b[i] == LF && b[i + 1] == LF)
    || (n == 4 && i + 4 <= |b| && b[i] == CR && b[i + 1] == LF && b[i + 2] == CR && b[i + 3] == LF)
  }

  // One past the first blank line, looking from i on; 0 if there is none yet.
  function HeaderEnd(b: bytes, i: nat): (r: nat)
    ensures r == 0 || i + 2 <= r <= |b|
    decreases |b| - i
  {
    if i + 1 >= |b| then 0
    else if Ends(b, i, 2) then i + 2
    else if Ends(b, i, 4) then i + 4
    else HeaderEnd(b, i + 1)
  }

  // A blank line that is complete stays where it is when more bytes come.
  lemma {:induction false} HeaderEndStays(b: bytes, x: bytes, i: nat)
    requires HeaderEnd(b, i) != 0
    ensures HeaderEnd(b + x, i) == HeaderEnd(b, i)
    decreases |b| - i
  {
    if Ends(b, i, 2) || Ends(b, i, 4) {
      assert Ends(b + x, i, 2) || Ends(b + x, i, 4);
    } else {
      NoLongerEnd(b, x, i);
      HeaderEndStays(b, x, i + 1);
    }
  }

  // A four-byte blank line still incomplete hides no two-byte one inside it.
  lemma NoLongerEnd(b: bytes, x: bytes, i: nat)
    requires i + 1 < |b| && HeaderEnd(b, i + 1) != 0 && !Ends(b, i, 2) && !Ends(b, i, 4)
    ensures !Ends(b + x, i, 2) && !Ends(b + x, i, 4)
  {
    var c := b + x;
    assert forall k | 0 <= k < |b| :: b[k] == c[k];
    if |b| < i + 4 {
      assert HeaderEnd(b, i + 3) == 0;
      assert i + 2 < |b| ==> HeaderEnd(b, i + 2) != 0 || Ends(b, i + 1, 2);
    }
  }

  // A blank line that is missing cannot appear before the end of what was there.
  lemma {:induction false} HeaderEndComes(b: bytes, x: bytes, i: nat)
    requires HeaderEnd(b, i) == 0
    ensures HeaderEnd(b + x, i) == 0 || HeaderEnd(b + x, i) > |b|
    decreases |b| - i
  {
    if i + 1 < |b| {
      HeaderEndComes(b, x, i + 1);
      assert !Ends(b, i, 2) && !Ends(b, i, 4);
    }
  }

  // ---------------------------------------------------------------- the guard

  // What is forwarded: bytes of headers and frame heads, and bytes nobody looked at.
  datatype Sent = Read(b: byte) | Unread(b: byte)

  function AsRead(s: bytes): seq<Sent> { seq(|s|, i requires 0 <= i < |s| => Read(s[i])) }

  // One decision on the held bytes. `left` is what is still owed of a body or frame.
  function Decide(p: Policy, left: nat, b: bytes): Outcome<nat, Sent>
  {
    if b == [] then More
    else if left > 0 then Unit(1, left - 1, [Unread(b[0])])
    else if b[0] == DOLLAR then
      if |b| < 4 then More else Unit(4, BE16(b[2], b[3]), AsRead(b[..4]))
    else
      var end := HeaderEnd(b, 0);
      if end == 0 then if |b| <= MAX_REQUEST then More else Fatal(left, [])
      else match Inspect(p, b[..end])
        case BadLength => Fatal(left, [])
        case Length(n) => Unit(end, n, AsRead(b[..end]))
  }

  function Step(p: Policy): (nat, bytes) -> Outcome<nat, Sent>
  {
    (left: nat, b: bytes) => Decide(p, left, b)
  }

  lemma DecideStable(p: Policy, left: nat, b: bytes, x: bytes)
    ensures StableAt(Step(p), left, b, x)
  {
    hide HeaderEnd, Inspect, AsRead;
    if b != [] && left == 0 && b[0] != DOLLAR {
      var end := HeaderEnd(b, 0);
      if end != 0 {
        HeaderEndStays(b, x, 0);
        assert (b + x)[..end] == b[..end];
      } else {
        HeaderEndComes(b, x, 0);
        var far := HeaderEnd(b + x, 0);
        if |b| > MAX_REQUEST && far != 0 { TooLong(p, (b + x)[..far]); }
      }
    } else if |b| >= 4 {
      assert (b + x)[..4] == b[..4];
    }
  }

  lemma TooLong(p: Policy, h: bytes)
    requires |h| > MAX_REQUEST
    ensures Inspect(p, h) == BadLength
  {
  }

  lemma GuardStable(p: Policy)
    ensures Stable(Step(p))
  {
    hide Decide;
    forall left: nat, b: bytes, x: bytes ensures StableAt(Step(p), left, b, x) { DecideStable(p, left, b, x); }
  }

  const FRESH: Session<byte, nat, Sent> := Session(true, 0, [], [])

  // Forwarded bytes, held bytes, body count and verdict do not depend on how the stream was segmented.
  lemma GuardSplitInvariance(p: Policy, inputs: seq<bytes>)
    ensures FeedAll(Step(p), FRESH, inputs) == Feed(Step(p), FRESH, Join(inputs))
  {
    GuardStable(p);
    SplitInvariance(Step(p), FRESH, inputs);
  }

  function Plain(s: seq<Sent>): bytes { seq(|s|, i requires 0 <= i < |s| => s[i].b) }

  lemma PlainAppend(a: seq<Sent>, b: seq<Sent>)
    ensures Plain(a + b) == Plain(a) + Plain(b)
  {
  }

  lemma PlainRead(s: bytes)
    ensures Plain(AsRead(s)) == s
  {
  }

  // What one decision forwards is what it takes off the front.
  lemma DecideConserves(p: Policy, left: nat, b: bytes)
    requires Decide(p, left, b).Unit?
    ensures var o := Decide(p, left, b); 0 < o.used <= |b| && Plain(o.events) == b[..o.used]
  {
    hide Inspect, HeaderEnd;
    PlainRead(b[..Decide(p, left, b).used]);
  }

  lemma {:induction false} RunConserves(p: Policy, left: nat, b: bytes)
    ensures var r := Run(Step(p), left, b); r.alive ==> Plain(r.events) + r.held == b
    decreases |b|
  {
    hide Decide;
    var o := Step(p)(left, b);
    if o.Unit? {
      DecideConserves(p, left, b);
      RunConserves(p, o.next, b[o.used..]);
      PlainAppend(o.events, Run(Step(p), o.next, b[o.used..]).events);
      assert b == b[..o.used] + b[o.used..];
    }
  }

  // While the guard has not objected, forwarded and held bytes together are what was received.
  lemma Conserves(p: Policy, inputs: seq<bytes>)
    ensures var r := FeedAll(Step(p), FRESH, inputs); r.alive ==> Plain(r.events) + r.held == Join(inputs)
  {
    hide Run, Step, Plain;
    var b := Join(inputs);
    GuardSplitInvariance(p, inputs);
    RunConserves(p, 0, b);
    assert FRESH.held + b == b;
    assert FRESH.events + Run(Step(p), 0, b).events == Run(Step(p), 0, b).events;
  }

  // ---------------------------------------------------------------- what the guard takes the stream to be

  datatype Message = Request(head: bytes, body: bytes) | Interleaved(channel: byte, payload: bytes)

  // A header ends at its first blank line and does not look like a frame.
  predicate IsHeader(h: bytes)
  {
    h != [] && h[0] != DOLLAR && HeaderEnd(h, 0) == |h|
  }

  predicate Legal(p: Policy, m: Message)
  {
    match m
    case Request(head, body) => IsHeader(head) && Inspect(p, head) == Length(|body|)
    case Interleaved(_, payload) => |payload| < 0x1_0000
  }

  function FrameHead(channel: byte, n: nat): bytes { [DOLLAR, channel] + PutBE16(n) }

  function Front(m: Message): bytes
  {
    match m
    case Request(head, _) => head
    case Interleaved(channel, payload) => FrameHead(channel, |payload|)
  }

  function Back(m: Message): bytes
  {
    match m
    case Request(_, body) => body
    case Interleaved(_, payload) => payload
  }

  function Wire(m: Message): bytes { Front(m) + Back(m) }

  function WireAll(ms: seq<Message>): bytes
    decreases |ms|
  {
    if ms == [] then [] else Wire(ms[0]) + WireAll(ms[1..])
  }

  ghost predicate LegalAll(p: Policy, ms: seq<Message>)
  {
    forall i | 0 <= i < |ms| :: Legal(p, ms[i])
  }

  function AsUnread(s: bytes): seq<Sent> { seq(|s|, i requires 0 <= i < |s| => Unread(s[i])) }

  // The fronts were read, the rest was not.
  function Relayed(ms: seq<Message>): seq<Sent>
    decreases |ms|
  {
    if ms == [] then [] else AsRead(Front(ms[0])) + AsUnread(Back(ms[0])) + Relayed(ms[1..])
  }

  lemma {:induction false} RunUnread(p: Policy, body: bytes, rest: bytes)
    ensures Run(Step(p), |body|, body + rest) == After(AsUnread(body), Run(Step(p), 0, rest))
    decreases |body|
  {
    hide HeaderEnd, Inspect, AsRead;
    if body == [] {
      assert body + rest == rest;
      assert [] + Run(Step(p), 0, rest).events == Run(Step(p), 0, rest).events;
      assert AsUnread(body) == [];
    } else {
      var b := body + rest;
      RunUnit(Step(p), |body|, b);
      assert b[1..] == body[1..] + rest;
      RunUnread(p, body[1..], rest);
      assert [Unread(body[0])] + AsUnread(body[1..]) == AsUnread(body);
      AfterTwice([Unread(body[0])], AsUnread(body[1..]), Run(Step(p), 0, rest));
    }
  }

  lemma AfterTwice(a: seq<Sent>, b: seq<Sent>, r: Session<byte, nat, Sent>)
    ensures After(a, After(b, r)) == After(a + b, r)
  {
  }

  lemma DecideFront(p: Policy, m: Message, rest: bytes)
    requires Legal(p, m)
    ensures Decide(p, 0, Front(m) + rest) == Unit(|Front(m)|, |Back(m)|, AsRead(Front(m)))
  {
    hide Inspect;
    var b := Front(m) + rest;
    assert b[..|Front(m)|] == Front(m);
    match m
    case Request(head, body) => hide HeaderEnd; HeaderEndStays(head, rest, 0);
    case Interleaved(_, payload) =>
  }

  lemma RunMessage(p: Policy, m: Message, rest: bytes)
    requires Legal(p, m)
    ensures Run(Step(p), 0, Wire(m) + rest) == After(AsRead(Front(m)) + AsUnread(Back(m)), Run(Step(p), 0, rest))
  {
    hide Decide, Run, Front, Back, AsRead, AsUnread;
    var b := Front(m) + (Back(m) + rest);
    assert Wire(m) + rest == b;
    DecideFront(p, m, Back(m) + rest);
    FrontLength(p, m);
    RunUnit(Step(p), 0, b);
    assert b[|Front(m)|..] == Back(m) + rest;
    RunUnread(p, Back(m), rest);
    AfterTwice(AsRead(Front(m)), AsUnread(Back(m)), Run(Step(p), 0, rest));
  }

  lemma FrontLength(p: Policy, m: Message)
    requires Legal(p, m)
    ensures |Front(m)| > 0
  {
  }

  // Every sequence of legal messages passes, whole, read only where it may be.
  lemma {:induction false} PassesLegal(p: Policy, ms: seq<Message>, rest: bytes)
    requires LegalAll(p, ms)
    ensures Run(Step(p), 0, WireAll(ms) + rest) == After(Relayed(ms), Run(Step(p), 0, rest))
    decreases |ms|
  {
    hide Legal, Wire, Run, Front, Back;
    if ms == [] {
      assert WireAll(ms) + rest == rest;
      assert Relayed(ms) + Run(Step(p), 0, rest).events == Run(Step(p), 0, rest).events;
    } else {
      var r := Run(Step(p), 0, rest);
      assert WireAll(ms) + rest == Wire(ms[0]) + (WireAll(ms[1..]) + rest);
      RunMessage(p, ms[0], WireAll(ms[1..]) + rest);
      PassesLegal(p, ms[1..], rest);
      AfterTwice(AsRead(Front(ms[0])) + AsUnread(Back(ms[0])), Relayed(ms[1..]), r);
    }
  }

  // The message whose front the guard has just taken, given the bytes of its back.
  function MessageOf(front: bytes, back: bytes): Message
  {
    if |front| == 4 && front[0] == DOLLAR then Interleaved(front[1], back) else Request(front, back)
  }

  lemma DecidedFront(p: Policy, b: bytes, back: bytes)
    requires Decide(p, 0, b).Unit? && |back| == Decide(p, 0, b).next
    ensures var o := Decide(p, 0, b);
      0 < o.used <= |b| && Legal(p, MessageOf(b[..o.used], back)) && Front(MessageOf(b[..o.used], back)) == b[..o.used]
      && Back(MessageOf(b[..o.used], back)) == back && o.events == AsRead(b[..o.used])
  {
    hide Inspect;
    var o := Decide(p, 0, b);
    var front := b[..o.used];
    if b[0] == DOLLAR {
      BE16Put(b[2], b[3]);
      assert front == FrameHead(b[1], |back|);
    } else {
      hide HeaderEnd;
      CutAtEnd(b);
    }
  }

  lemma CutAtEnd(b: bytes)
    requires HeaderEnd(b, 0) != 0
    ensures HeaderEnd(b[..HeaderEnd(b, 0)], 0) == HeaderEnd(b, 0)
  {
    var end := HeaderEnd(b, 0);
    var h := b[..end];
    assert b == h + b[end..];
    if HeaderEnd(h, 0) != 0 {
      HeaderEndStays(h, b[end..], 0);
    } else {
      HeaderEndComes(h, b[end..], 0);
    }
  }

  // With bytes owed, the guard takes them unread, as many as there are.
  lemma {:induction false} RunOwed(p: Policy, left: nat, b: bytes)
    ensures |b| < left ==> Run(Step(p), left, b) == Session(true, left - |b|, [], AsUnread(b))
    ensures |b| >= left ==> Run(Step(p), left, b) == After(AsUnread(b[..left]), Run(Step(p), 0, b[left..]))
  {
    if |b| >= left {
      assert b == b[..left] + b[left..];
      RunUnread(p, b[..left], b[left..]);
    } else {
      OwedStays(p, left, b);
    }
  }

  lemma {:induction false} OwedStays(p: Policy, left: nat, b: bytes)
    requires |b| < left
    ensures Run(Step(p), left, b) == Session(true, left - |b|, [], AsUnread(b))
    decreases |b|
  {
    hide HeaderEnd, Inspect, AsRead;
    if b == [] {
      RunStops(Step(p), left, b);
      assert AsUnread(b) == [];
    } else {
      RunUnit(Step(p), left, b);
      OwedStays(p, left - 1, b[1..]);
      assert [Unread(b[0])] + AsUnread(b[1..]) == AsUnread(b);
    }
  }

  // Whatever the missing bytes will be, they complete a legal message.
  ghost predicate Awaits(p: Policy, front: bytes, part: bytes, missing: nat)
  {
    forall back: bytes | |back| == missing :: Legal(p, MessageOf(front, part + back))
  }

  lemma FrontAwaits(p: Policy, b: bytes, part: bytes)
    requires Decide(p, 0, b).Unit? && |part| < Decide(p, 0, b).next
    ensures var o := Decide(p, 0, b);
      0 < o.used <= |b| && o.events == AsRead(b[..o.used]) && Awaits(p, b[..o.used], part, o.next - |part|)
  {
    hide Decide, Legal, MessageOf, AsRead, Front, Back;
    var o := Decide(p, 0, b);
    DecidedFront(p, b, part + seq(o.next - |part|, _ => 0));
    forall back: bytes | |back| == o.next - |part| ensures Legal(p, MessageOf(b[..o.used], part + back)) {
      DecidedFront(p, b, part + back);
    }
  }

  // What the guard has let through, also if it then objected, is legal messages and part of one more.
  lemma {:induction false} TakenForm(p: Policy, b: bytes)
    returns (ms: seq<Message>, front: bytes, part: bytes, kept: bytes)
    ensures LegalAll(p, ms)
    ensures var r := Run(Step(p), 0, b);
      && b == WireAll(ms) + front + part + kept
      && (r.alive ==> kept == r.held)
      && r.events == Relayed(ms) + AsRead(front) + AsUnread(part)
      && (r.state == 0 ==> front == [] && part == [])
      && (r.state > 0 ==> r.held == [] && Awaits(p, front, part, r.state))
    decreases |b|
  {
    hide Legal, Wire, WireAll, Relayed, Front, Back, MessageOf, AsRead, AsUnread, Decide, Run, Awaits;
    var o := Decide(p, 0, b);
    RunStops(Step(p), 0, b);
    NoBytes();
    if !o.Unit? {
      ms, front, part, kept := [], [], [], b;
      NotTaken(p, b);
    } else {
      TakesSome(p, b);
      RunUnit(Step(p), 0, b);
      var head, rest := b[..o.used], b[o.used..];
      RunOwed(p, o.next, rest);
      assert b == head + rest;
      if |rest| < o.next {
        ms, front, part, kept := [], head, rest, [];
        FrontAwaits(p, b, rest);
        assert b == [] + head + rest + [];
        assert o.events + AsUnread(rest) == [] + AsRead(head) + AsUnread(rest);
      } else {
        var back, more := rest[..o.next], rest[o.next..];
        assert rest == back + more;
        var tail: seq<Message>;
        tail, front, part, kept := TakenForm(p, more);
        DecidedFront(p, b, back);
        var m := MessageOf(head, back);
        ms := [m] + tail;
        Prepend(m, tail);
        var r := Run(Step(p), 0, more);
        Regroup(head, back, WireAll(tail), front, part, kept);
        Regroup(AsRead(head), AsUnread(back), Relayed(tail), AsRead(front), AsUnread(part), []);
        assert r.events + [] == r.events;
        assert AsRead(head) + (AsUnread(back) + r.events) == AsRead(head) + (AsUnread(back) + (r.events + []));
        assert LegalAll(p, ms);
      }
    }
  }

  lemma Regroup<T>(a: seq<T>, b: seq<T>, c: seq<T>, d: seq<T>, e: seq<T>, f: seq<T>)
    ensures a + (b + (c + d + e + f)) == a + b + c + d + e + f
    ensures f == [] ==> a + b + c + d + e + f == a + b + c + d + e
  {
  }

  lemma NoBytes()
    ensures AsRead([]) == [] && AsUnread([]) == [] && WireAll([]) == [] && Relayed([]) == []
  {
  }

  lemma NotTaken(p: Policy, b: bytes)
    ensures Decide(p, 0, b).Fatal? ==> Decide(p, 0, b) == Fatal(0, [])
  {
    hide HeaderEnd, Inspect;
  }

  lemma TakesSome(p: Policy, b: bytes)
    ensures Decide(p, 0, b).Unit? ==> 0 < Decide(p, 0, b).used <= |b|
  {
    hide HeaderEnd, Inspect;
  }

  lemma Prepend(m: Message, ms: seq<Message>)
    ensures WireAll([m] + ms) == Front(m) + Back(m) + WireAll(ms)
    ensures Relayed([m] + ms) == AsRead(Front(m)) + AsUnread(Back(m)) + Relayed(ms)
  {
    assert ([m] + ms)[1..] == ms;
  }

  ghost predicate Carries(p: Policy, ms: seq<Message>, b: bytes)
  {
    LegalAll(p, ms) && b == WireAll(ms)
  }

  // The streams taken to the last byte are exactly the sequences of legal messages. So bodies and
  // interleaved frames are never read as requests, and no header with a wrong password is among them.
  lemma AcceptsExactly(p: Policy, inputs: seq<bytes>)
    ensures var r := FeedAll(Step(p), FRESH, inputs);
      && (r.alive && r.state == 0 && r.held == [] <==> exists ms :: Carries(p, ms, Join(inputs)))
      && (forall ms | Carries(p, ms, Join(inputs)) :: r.events == Relayed(ms))
  {
    hide Legal, Wire, Run, LegalAll, Relayed;
    var b := Join(inputs);
    GuardSplitInvariance(p, inputs);
    assert FRESH.held + b == b;
    var r := Run(Step(p), 0, b);
    assert FRESH.events + r.events == r.events;
    if r.alive && r.state == 0 && r.held == [] {
      var ms, front, part, kept := TakenForm(p, b);
      assert Carries(p, ms, b);
    }
    forall ms | Carries(p, ms, b)
      ensures r == Session(true, 0, [], Relayed(ms))
    {
      PassesLegal(p, ms, []);
      assert WireAll(ms) + [] == b;
      RunStops(Step(p), 0, []);
      assert Relayed(ms) + [] == Relayed(ms);
    }
  }

  ghost predicate LetThrough(p: Policy, sent: seq<Sent>, ms: seq<Message>, front: bytes, part: bytes)
  {
    && LegalAll(p, ms) && sent == Relayed(ms) + AsRead(front) + AsUnread(part)
    && ((front == [] && part == []) || exists n: nat :: n > 0 && Awaits(p, front, part, n))
  }

  // On every stream, up to the point where it objects if it does, the guard has forwarded legal messages.
  lemma ForwardsOnlyLegal(p: Policy, inputs: seq<bytes>)
    ensures exists ms, front, part :: LetThrough(p, FeedAll(Step(p), FRESH, inputs).events, ms, front, part)
  {
    hide Legal, Run, LegalAll, Relayed, Awaits, Step;
    var b := Join(inputs);
    GuardSplitInvariance(p, inputs);
    assert FRESH.held + b == b;
    var r := Run(Step(p), 0, b);
    assert FRESH.events + r.events == r.events;
    var ms, front, part, kept := TakenForm(p, b);
    assert LetThrough(p, r.events, ms, front, part);
  }

  lemma LegalHeader(p: Policy, m: Message)
    requires Legal(p, m) && m.Request?
    ensures !Wrong(p, m.head) && |m.head| <= MAX_REQUEST && |m.body| <= MAX_BODY
  {
  }

  // The header a message begins with, if it is a request.
  predicate Admitted(p: Policy, front: bytes)
  {
    (|front| == 4 && front[0] == DOLLAR) || (!Wrong(p, front) && |front| <= MAX_REQUEST)
  }

  lemma AwaitedHeader(p: Policy, front: bytes, part: bytes, n: nat)
    requires Awaits(p, front, part, n)
    ensures Admitted(p, front)
  {
    hide Legal, Wrong;
    var back: bytes := seq(n, _ => 0);
    assert Legal(p, MessageOf(front, part + back));
    if MessageOf(front, part + back).Request? { LegalHeader(p, MessageOf(front, part + back)); }
  }

  ghost predicate AllAdmitted(p: Policy, ms: seq<Message>, front: bytes)
  {
    && (forall i | 0 <= i < |ms| && ms[i].Request? :: !Wrong(p, ms[i].head) && |ms[i].head| <= MAX_REQUEST)
    && (front == [] || Admitted(p, front))
  }

  // On every stream, in any segments, and also on one the guard then refuses: no header that was
  // forwarded offers a wrong password, that of the message still going out included.
  lemma NoWrongPassword(p: Policy, inputs: seq<bytes>)
    ensures exists ms: seq<Message>, front: bytes, part: bytes ::
      && LetThrough(p, FeedAll(Step(p), FRESH, inputs).events, ms, front, part)
      && AllAdmitted(p, ms, front)
  {
    hide Legal, Relayed, Awaits, Step, Wrong, Admitted;
    ForwardsOnlyLegal(p, inputs);
    var sent := FeedAll(Step(p), FRESH, inputs).events;
    var ms: seq<Message>, front: bytes, part: bytes :| LetThrough(p, sent, ms, front, part);
    forall i | 0 <= i < |ms| && ms[i].Request? ensures !Wrong(p, ms[i].head) && |ms[i].head| <= MAX_REQUEST {
      LegalHeader(p, ms[i]);
    }
    if front != [] {
      var n: nat :| n > 0 && Awaits(p, front, part, n);
      AwaitedHeader(p, front, part, n);
    }
    assert AllAdmitted(p, ms, front);
  }

  // ---------------------------------------------------------------- as programmed

  class Guard {
    const policy: Policy
    var buffered: bytes
    var opaqueLeft: nat
    var toBackend: bytes
    ghost var log: seq<Sent>

    ghost predicate Valid()
      reads this
    {
      toBackend == Plain(log)
    }

    ghost function Value(): Session<byte, nat, Sent>
      reads this
    {
      Session(true, opaqueLeft, buffered, log)
    }

    constructor (p: Policy)
      ensures Valid() && policy == p && Value() == FRESH && toBackend == []
    {
      policy := p;
      buffered, opaqueLeft, toBackend, log := [], 0, [], [];
    }

    method FindHeaderEnd() returns (end: nat)
      ensures end == HeaderEnd(buffered, 0)
    {
      var i := 0;
      while i + 1 < |buffered|
        invariant HeaderEnd(buffered, 0) == HeaderEnd(buffered, i)
        decreases |buffered| - i
      {
        if buffered[i] == LF && buffered[i + 1] == LF { return i + 2; }
        if i + 3 < |buffered| && buffered[i] == CR && buffered[i + 1] == LF
           && buffered[i + 2] == CR && buffered[i + 3] == LF {
          return i + 4;
        }
        i := i + 1;
      }
      end := 0;
    }

    method Forward(n: nat, ghost as_: seq<Sent>)
      requires Valid() && n <= |buffered| && Plain(as_) == buffered[..n]
      modifies `buffered, `toBackend, `log
      ensures Valid() && log == old(log) + as_ && buffered == old(buffered)[n..]
      ensures toBackend == old(toBackend) + old(buffered)[..n]
    {
      PlainAppend(log, as_);
      toBackend := toBackend + buffered[..n];
      buffered := buffered[n..];
      log := log + as_;
    }

    // Bodies go in runs as long as what is there; everything else in whole units.
    method Push(input: bytes) returns (ok: bool)
      requires Valid()
      modifies this
      ensures Valid()
      ensures var r := Feed(Step(policy), old(Value()), input);
        && ok == r.alive && toBackend == Plain(r.events)
        && (ok ==> Value() == r)
    {
      hide HeaderEnd, Inspect, Plain, AsRead, AsUnread, Run;
      ghost var d := Step(policy);
      ghost var goal := Feed(d, Value(), input);
      buffered := buffered + input;
      while buffered != []
        invariant Valid() && After(log, Run(d, opaqueLeft, buffered)) == goal
        decreases |buffered|
      {
        RunStops(d, opaqueLeft, buffered);
        assert log + [] == log;
        if opaqueLeft > 0 {
          var n := if opaqueLeft < |buffered| then opaqueLeft else |buffered|;
          Owed(policy, opaqueLeft, buffered, n, log);
          Forward(n, AsUnread(buffered[..n]));
          opaqueLeft := opaqueLeft - n;
        } else if buffered[0] == DOLLAR {
          if |buffered| < 4 { return true; }
          RunUnit(d, 0, buffered);
          AfterTwice(log, AsRead(buffered[..4]), Run(d, BE16(buffered[2], buffered[3]), buffered[4..]));
          opaqueLeft := BE16(buffered[2], buffered[3]);
          PlainRead(buffered[..4]);
          Forward(4, AsRead(buffered[..4]));
        } else {
          var end := FindHeaderEnd();
          if end == 0 { return |buffered| <= MAX_REQUEST; }
          var verdict := Inspect(policy, buffered[..end]);
          if verdict.BadLength? { return false; }
          RunUnit(d, 0, buffered);
          AfterTwice(log, AsRead(buffered[..end]), Run(d, verdict.n, buffered[end..]));
          opaqueLeft := verdict.n;
          PlainRead(buffered[..end]);
          Forward(end, AsRead(buffered[..end]));
        }
      }
      RunStops(d, opaqueLeft, []);
      assert log + [] == log;
      ok := true;
    }
  }

  lemma Owed(p: Policy, left: nat, b: bytes, n: nat, log: seq<Sent>)
    requires n <= left && n <= |b| && (n == left || n == |b|)
    ensures After(log, Run(Step(p), left, b)) == After(log + AsUnread(b[..n]), Run(Step(p), left - n, b[n..]))
    ensures Plain(AsUnread(b[..n])) == b[..n]
  {
    hide Decide;
    RunOwed(p, left, b);
    assert n == |b| ==> b[..n] == b && b[n..] == [];
    if n < left {
      RunOwed(p, left - n, []);
      assert AsUnread([]) == [];
      assert AsUnread(b) + [] == AsUnread(b);
      assert log + (AsUnread(b) + []) == log + AsUnread(b) + [];
    } else {
      AfterTwice(log, AsUnread(b[..n]), Run(Step(p), 0, b[n..]));
    }
  }
}
