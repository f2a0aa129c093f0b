/**
  The streaming decoder of HTTP chunked bodies (videomkv.h, VideoChunks; section 7.1 of RFC 9112,
  without extensions, trailers or the final zero chunk, which ends a publication here).

  `Feed` is the meaning of a feed call, byte by byte. `AcceptsExactly` is the theorem: the inputs
  accepted up to a chunk boundary are the encodings of lists of chunks, and what comes out is their
  data.
 */
module HttpChunks {
  import opened Bytes

  const MAX_CHUNK := 4 * 1024 * 1024
  const MAX_LINE := 10
  const CR: byte := 13
  const LF: byte := 10

  datatype State = State(line: bytes, remaining: nat, ending: nat)

  const START := State([], 0, 0)

  datatype Moved = Refused | Moved(s: State, out: bytes)

  // 16 for a character that is no hex digit.
  function Digit(c: byte): (d: nat)
    ensures d <= 16
  {
    if 48 <= c <= 57 then c - 48
    else if 97 <= c <= 102 then c - 87
    else if 65 <= c <= 70 then c - 55
    else 16
  }

  // The size accumulated digit by digit, given up as 0 as soon as another digit could only exceed the cap.
  function ReadSize(digits: bytes, size: nat): nat
    decreases |digits|
  {
    if digits == [] then size
    else if Digit(digits[0]) > 15 || size > MAX_CHUNK / 16 then 0
    else ReadSize(digits[1..], size * 16 + Digit(digits[0]))
  }

  function LineSize(line: bytes): nat
  {
    if |line| < 2 || line[|line| - 1] != CR then 0
    else
      var n := ReadSize(line[..|line| - 1], 0);
      if n > MAX_CHUNK then 0 else n
  }

  function Take(s: State, c: byte): Moved
  {
    if s.remaining > 0 then
      Moved(State(s.line, s.remaining - 1, if s.remaining == 1 then 2 else s.ending), [c])
    else if s.ending > 0 then
      if c != (if s.ending == 2 then CR else LF) then Refused else Moved(s.(ending := s.ending - 1), [])
    else if c == LF then
      if LineSize(s.line) == 0 then Refused else Moved(State([], LineSize(s.line), 0), [])
    else if |s.line| + 1 > MAX_LINE then Refused
    else Moved(s.(line := s.line + [c]), [])
  }

  // `out` is what has been emitted, also if the input was refused after that.
  datatype Fed = Fed(ok: bool, s: State, out: bytes)

  function Feed(s: State, input: bytes): Fed
    decreases |input|
  {
    if input == [] then Fed(true, s, [])
    else match Take(s, input[0])
      case Refused => Fed(false, s, [])
      case Moved(t, out) =>
        var r := Feed(t, input[1..]);
        r.(out := out + r.out)
  }

  function Then(a: Fed, b: bytes): Fed
  {
    if !a.ok then a else
      var r := Feed(a.s, b);
      r.(out := a.out + r.out)
  }

  // Feeding a and then b is feeding a followed by b.
  lemma {:induction false} FeedTwice(s: State, a: bytes, b: bytes)
    ensures Feed(s, a + b) == Then(Feed(s, a), b)
    decreases |a|
  {
    hide Take;
    if a == [] {
      assert a + b == b;
    } else {
      assert (a + b)[1..] == a[1..] + b;
      match Take(s, a[0])
      case Refused =>
      case Moved(t, out) =>
        FeedTwice(t, a[1..], b);
        var x := Feed(t, a[1..]);
        if x.ok { assert out + (x.out + Feed(x.s, b).out) == (out + x.out) + Feed(x.s, b).out; }
    }
  }

  ghost function FeedAll(s: State, pieces: seq<bytes>): Fed
    decreases |pieces|
  {
    if pieces == [] then Fed(true, s, [])
    else
      var a := Feed(s, pieces[0]);
      if !a.ok then a else
        var r := FeedAll(a.s, pieces[1..]);
        r.(out := a.out + r.out)
  }

  // However the stream is cut into segments, the bytes, the state and the verdict are the same.
  lemma {:induction false} SplitInvariance(s: State, pieces: seq<bytes>)
    ensures FeedAll(s, pieces) == Feed(s, Join(pieces))
    decreases |pieces|
  {
    hide Take, Feed;
    if pieces == [] {
      assert Feed(s, []) == Fed(true, s, []) by { Nothing(s); }
    } else {
      FeedTwice(s, pieces[0], Join(pieces[1..]));
      SplitInvariance(Feed(s, pieces[0]).s, pieces[1..]);
    }
  }

  lemma Nothing(s: State)
    ensures Feed(s, []) == Fed(true, s, [])
  {
  }

  // ---------------------------------------------------------------- the encoding

  datatype Chunk = Chunk(size: bytes, data: bytes)

  ghost predicate Hex(digits: bytes)
  {
    forall i | 0 <= i < |digits| :: Digit(digits[i]) < 16
  }

  function HexValue(digits: bytes): nat
  {
    if digits == [] then 0 else HexValue(digits[..|digits| - 1]) * 16 + Digit(digits[|digits| - 1])
  }

  // A size of up to nine hex digits, leading zeros allowed.
  ghost predicate SizeField(digits: bytes)
  {
    1 <= |digits| < MAX_LINE && Hex(digits) && 1 <= HexValue(digits) <= MAX_CHUNK
  }

  ghost predicate WellFormed(c: Chunk)
  {
    SizeField(c.size) && |c.data| == HexValue(c.size)
  }

  function Encode(c: Chunk): bytes { c.size + [CR, LF] + c.data + [CR, LF] }

  function EncodeAll(cs: seq<Chunk>): bytes
  {
    if cs == [] then [] else EncodeAll(cs[..|cs| - 1]) + Encode(cs[|cs| - 1])
  }

  function DataOf(cs: seq<Chunk>): bytes
  {
    if cs == [] then [] else DataOf(cs[..|cs| - 1]) + cs[|cs| - 1].data
  }

  // ---------------------------------------------------------------- the size line

  // Positional value of digits after a number.
  function ValueAfter(digits: bytes, size: nat): nat
    decreases |digits|
  {
    if digits == [] then size else ValueAfter(digits[1..], size * 16 + Digit(digits[0]))
  }

  lemma {:induction false} ValueGrows(digits: bytes, size: nat)
    ensures ValueAfter(digits, size) >= size
    decreases |digits|
  {
    if digits != [] { ValueGrows(digits[1..], size * 16 + Digit(digits[0])); }
  }

  lemma {:induction false} ValueSnoc(digits: bytes, size: nat, d: byte)
    ensures ValueAfter(digits + [d], size) == ValueAfter(digits, size) * 16 + Digit(d)
    decreases |digits|
  {
    if digits == [] {
      assert ([d] + [])[1..] == [];
      assert digits + [d] == [d];
      assert ValueAfter([d][1..], size * 16 + Digit(d)) == size * 16 + Digit(d);
    } else {
      assert (digits + [d])[1..] == digits[1..] + [d];
      ValueSnoc(digits[1..], size * 16 + Digit(digits[0]), d);
    }
  }

  lemma {:induction false} HexValueIs(digits: bytes)
    ensures HexValue(digits) == ValueAfter(digits, 0)
    decreases |digits|
  {
    if digits != [] {
      var n := |digits| - 1;
      HexValueIs(digits[..n]);
      ValueSnoc(digits[..n], 0, digits[n]);
      assert digits[..n] + [digits[n]] == digits;
    }
  }

  // Giving up early refuses nothing that would have fitted.
  lemma {:induction false} ReadSizeIs(digits: bytes, size: nat)
    ensures Hex(digits) && ValueAfter(digits, size) <= MAX_CHUNK ==> ReadSize(digits, size) == ValueAfter(digits, size)
    ensures 1 <= ReadSize(digits, size) <= MAX_CHUNK ==>
      Hex(digits) && ReadSize(digits, size) == ValueAfter(digits, size)
    decreases |digits|
  {
    if digits != [] {
      var next := size * 16 + Digit(digits[0]);
      ReadSizeIs(digits[1..], next);
      ValueGrows(digits[1..], next);
      if Digit(digits[0]) < 16 && Hex(digits[1..]) {
        forall i | 0 <= i < |digits| ensures Digit(digits[i]) < 16 {
          if i > 0 { assert digits[i] == digits[1..][i - 1]; }
        }
      }
      if Hex(digits) {
        assert Hex(digits[1..]) && Digit(digits[0]) < 16;
      }
    }
  }

  // A line is taken exactly when it is a size field and a carriage return.
  lemma LineSizeIs(line: bytes)
    requires |line| <= MAX_LINE
    ensures LineSize(line) != 0 <==>
      |line| >= 2 && line[|line| - 1] == CR && SizeField(line[..|line| - 1])
    ensures LineSize(line) != 0 ==> LineSize(line) == HexValue(line[..|line| - 1])
  {
    if |line| >= 2 {
      var digits := line[..|line| - 1];
      ReadSizeIs(digits, 0);
      HexValueIs(digits);
    }
  }

  // ---------------------------------------------------------------- decoding an encoding

  lemma {:induction false} FeedData(s: State, part: bytes)
    requires |part| <= s.remaining
    ensures Feed(s, part) ==
      Fed(true, State(s.line, s.remaining - |part|, if part != [] && |part| == s.remaining then 2 else s.ending), part)
    decreases |part|
  {
    if part != [] {
      FeedData(Take(s, part[0]).s, part[1..]);
      assert [part[0]] + part[1..] == part;
    }
  }

  lemma FeedOne(s: State, c: byte)
    ensures Feed(s, [c]) == match Take(s, c) case Refused => Fed(false, s, []) case Moved(t, out) => Fed(true, t, out)
  {
    hide Take;
    assert [c][1..] == [];
    match Take(s, c)
    case Refused =>
    case Moved(t, out) => assert out + [] == out;
  }

  lemma {:induction false} FeedLine(s: State, part: bytes)
    requires s.remaining == 0 && s.ending == 0 && |s.line| + |part| <= MAX_LINE && LF !in part
    ensures Feed(s, part) == Fed(true, s.(line := s.line + part), [])
    decreases |part|
  {
    hide LineSize, Feed;
    if part == [] {
      Nothing(s);
      assert s.line + part == s.line;
    } else {
      var n := |part| - 1;
      FeedLine(s, part[..n]);
      assert part == part[..n] + [part[n]];
      assert part[n] in part;
      FeedTwice(s, part[..n], [part[n]]);
      FeedOne(s.(line := s.line + part[..n]), part[n]);
      assert s.line + part[..n] + [part[n]] == s.line + part;
    }
  }

  lemma HexNoLineFeed(digits: bytes)
    requires Hex(digits)
    ensures LF !in digits + [CR]
  {
  }

  lemma ChunkDecodes(c: Chunk)
    requires WellFormed(c)
    ensures Feed(START, Encode(c)) == Fed(true, START, c.data)
  {
    hide Feed, Hex, HexValue, LineSize;
    var line := c.size + [CR];
    HexNoLineFeed(c.size);
    FeedLine(START, line);
    assert START.line + line == line;
    LineSizeIs(line);
    assert line[..|line| - 1] == c.size;
    FeedOne(State(line, 0, 0), LF);
    FeedTwice(START, line, [LF]);
    var head := line + [LF];
    FeedData(State([], |c.data|, 0), c.data);
    FeedTwice(START, head, c.data);
    assert Feed(START, head + c.data) == Fed(true, State([], 0, 2), c.data);
    FeedOne(State([], 0, 2), CR);
    FeedTwice(START, head + c.data, [CR]);
    FeedOne(State([], 0, 1), LF);
    FeedTwice(START, head + c.data + [CR], [LF]);
    assert head + c.data + [CR] + [LF] == Encode(c);
    assert c.data + [] == c.data;
  }

  // The decoder undoes the encoding of every list of chunks.
  lemma {:induction false} Decodes(cs: seq<Chunk>)
    requires forall i | 0 <= i < |cs| :: WellFormed(cs[i])
    ensures Feed(START, EncodeAll(cs)) == Fed(true, START, DataOf(cs))
    decreases |cs|
  {
    hide WellFormed, Feed, Encode;
    if cs == [] {
      Nothing(START);
    } else {
      var n := |cs| - 1;
      Decodes(cs[..n]);
      ChunkDecodes(cs[n]);
      FeedTwice(START, EncodeAll(cs[..n]), Encode(cs[n]));
    }
  }

  // ---------------------------------------------------------------- nothing else is accepted

  // Where the decoder is inside a chunk, and the bytes of it taken so far.
  ghost predicate Partway(s: State, open: Chunk, tail: bytes)
  {
    if s.remaining == 0 && s.ending == 0 then
      tail == s.line && |s.line| <= MAX_LINE && open.data == []
    else
      && s.line == [] && SizeField(open.size)
      && |open.data| + s.remaining == HexValue(open.size)
      && (s.remaining > 0 ==> s.ending == 0)
      && s.ending <= 2
      && tail == open.size + [CR, LF] + open.data + (if s.ending == 1 then [CR] else [])
  }

  lemma TakePartway(s: State, open: Chunk, tail: bytes, c: byte) returns (now: Chunk, rest: bytes, done: bool)
    requires Partway(s, open, tail) && Take(s, c).Moved?
    ensures Partway(Take(s, c).s, now, rest)
    ensures !done ==> rest == tail + [c] && now.data == open.data + Take(s, c).out
    ensures done ==>
      rest == [] && WellFormed(open) && tail + [c] == Encode(open) && Take(s, c).out == [] && now.data == []
  {
    hide Hex, HexValue, LineSize;
    done := false;
    if s.remaining > 0 {
      now, rest := Chunk(open.size, open.data + [c]), tail + [c];
    } else if s.ending == 2 {
      now, rest := open, tail + [c];
    } else if s.ending == 1 {
      now, rest, done := Chunk([], []), [], true;
    } else if c == LF {
      LineSizeIs(s.line);
      var digits := s.line[..|s.line| - 1];
      now, rest := Chunk(digits, []), tail + [c];
      assert s.line == digits + [CR];
    } else {
      now, rest := open, tail + [c];
    }
  }

  lemma {:induction false} AcceptedForm(input: bytes) returns (cs: seq<Chunk>, open: Chunk, tail: bytes)
    requires Feed(START, input).ok
    ensures forall i | 0 <= i < |cs| :: WellFormed(cs[i])
    ensures input == EncodeAll(cs) + tail && Feed(START, input).out == DataOf(cs) + open.data
    ensures Partway(Feed(START, input).s, open, tail)
    decreases |input|
  {
    hide WellFormed, Take, Feed, Encode, EncodeAll, DataOf, Partway;
    if input == [] {
      Nothing(START);
      cs, open, tail := [], Chunk([], []), [];
      NothingYet();
    } else {
      var n := |input| - 1;
      var a, c := input[..n], input[n];
      assert input == a + [c];
      FeedTwice(START, a, [c]);
      var before, was, had := AcceptedForm(a);
      var s := Feed(START, a).s;
      FeedOne(s, c);
      var now, rest, done := TakePartway(s, was, had, c);
      cs, open, tail := before, now, rest;
      if done {
        cs := before + [was];
        Append(before, was);
      }
    }
  }

  lemma NothingYet()
    ensures EncodeAll([]) == [] && DataOf([]) == [] && Partway(START, Chunk([], []), [])
  {
  }

  lemma Append(cs: seq<Chunk>, c: Chunk)
    ensures EncodeAll(cs + [c]) == EncodeAll(cs) + Encode(c) && DataOf(cs + [c]) == DataOf(cs) + c.data
  {
    assert (cs + [c])[..|cs + [c]| - 1] == cs;
  }

  ghost predicate Encodes(cs: seq<Chunk>, input: bytes)
  {
    (forall i | 0 <= i < |cs| :: WellFormed(cs[i])) && input == EncodeAll(cs)
  }

  // Inputs accepted up to a chunk boundary are exactly the encodings of chunk lists.
  lemma AcceptsExactly(input: bytes)
    ensures Feed(START, input).ok && Feed(START, input).s == START <==> exists cs :: Encodes(cs, input)
    ensures forall cs | Encodes(cs, input) :: Feed(START, input).out == DataOf(cs)
  {
    hide WellFormed, Feed, EncodeAll, DataOf;
    if Feed(START, input).ok && Feed(START, input).s == START {
      var cs, open, tail := AcceptedForm(input);
      assert Encodes(cs, input);
    }
    forall cs | Encodes(cs, input)
      ensures Feed(START, input) == Fed(true, START, DataOf(cs))
    {
      Decodes(cs);
    }
  }

  // ---------------------------------------------------------------- as programmed

  class VideoChunks {
    var line: bytes
    var remaining: nat
    var ending: nat

    ghost function Value(): State
      reads this
    {
      State(line, remaining, ending)
    }

    constructor ()
      ensures Value() == START
    {
      line, remaining, ending := [], 0, 0;
    }

    method ParseSize() returns (n: nat)
      ensures n == LineSize(line)
    {
      if |line| < 2 || line[|line| - 1] != CR { return 0; }
      var length: nat, i := 0, 0;
      var digits := line[..|line| - 1];
      while i < |digits|
        invariant i <= |digits|
        invariant ReadSize(digits, 0) == ReadSize(digits[i..], length)
      {
        if Digit(digits[i]) > 15 || length > MAX_CHUNK / 16 { return 0; }
        assert digits[i..][1..] == digits[i + 1..];
        length := length * 16 + Digit(digits[i]);
        i := i + 1;
      }
      if length > MAX_CHUNK { return 0; }
      n := length;
    }

    // Data is handed on in runs, not byte by byte; the effect is that of Feed.
    method Push(input: bytes) returns (ok: bool, out: bytes)
      modifies this
      ensures ok == Feed(old(Value()), input).ok && out == Feed(old(Value()), input).out
      ensures ok ==> Value() == Feed(old(Value()), input).s
    {
      hide Feed, LineSize;
      out := [];
      var p := input;
      assert [] + Feed(Value(), input).out == Feed(Value(), input).out;
      while p != []
        invariant Then(Fed(true, Value(), out), p) == Feed(old(Value()), input)
        decreases |p|
      {
        if remaining > 0 {
          var n := if |p| < remaining then |p| else remaining;
          TakeRun(Value(), p, n, out);
          out := out + p[..n];
          remaining := remaining - n;
          p := p[n..];
          if remaining == 0 { ending := 2; }
        } else {
          var c := p[0];
          TakeFirst(Value(), p, out);
          p := p[1..];
          if ending > 0 {
            if c != (if ending == 2 then CR else LF) { return false, out; }
            ending := ending - 1;
          } else if c == LF {
            var length := ParseSize();
            if length == 0 { return false, out; }
            remaining, line := length, [];
          } else {
            if |line| + 1 > MAX_LINE { return false, out; }
            line := line + [c];
          }
          assert out + [] == out;
        }
      }
      Nothing(Value());
      assert out + [] == out;
      return true, out;
    }
  }

  lemma TakeRun(s: State, p: bytes, n: nat, out: bytes)
    requires 0 < n <= |p| && n <= s.remaining
    ensures Then(Fed(true, s, out), p) ==
      Then(Fed(true, State(s.line, s.remaining - n, if n == s.remaining then 2 else s.ending), out + p[..n]), p[n..])
  {
    hide Feed, Take;
    FeedData(s, p[..n]);
    FeedTwice(s, p[..n], p[n..]);
    assert p == p[..n] + p[n..];
  }

  lemma TakeFirst(s: State, p: bytes, out: bytes)
    requires p != []
    ensures Then(Fed(true, s, out), p) ==
      match Take(s, p[0])
      case Refused => Fed(false, s, out)
      case Moved(t, more) => Then(Fed(true, t, out + more), p[1..])
  {
    hide Take;
    match Take(s, p[0])
    case Refused => assert out + [] == out;
    case Moved(t, more) => assert out + (more + Feed(t, p[1..]).out) == out + more + Feed(t, p[1..]).out;
  }
}
