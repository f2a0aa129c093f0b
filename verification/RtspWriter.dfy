/**
  A writer of RTSP requests (RFC 2326, sections 6 and 12.14), and what the guard makes of them: the
  body it lets through unread is exactly as long as the one Content-Length field says, and the password
  it checks is the one written into the request's target.
 */
module RtspWriter {
  import opened Bytes
  import opened StreamDecoder
  import opened HttpQuery
  import opened QueryWriter
  import opened RtspGuard

  // ---------------------------------------------------------------- decimal numbers

  function Print(n: nat): (r: bytes)
    ensures r != []
  {
    if n < 10 then [48 + n] else Print(n / 10) + [48 + n % 10]
  }

  lemma {:induction false} PrintReads(n: nat)
    ensures Digits(Print(n)) && Decimal(Print(n)) == n
  {
    if n < 10 {
      assert Print(n)[..0] == [];
    } else {
      PrintReads(n / 10);
      var s := Print(n);
      assert s[..|s| - 1] == Print(n / 10);
    }
  }

  // What a body length written in decimal comes to.
  function Within(n: nat): Length
  {
    if n <= 16 * 1024 * 1024 then Length(n) else BadLength
  }

  lemma {:induction false} NoneFound(s: bytes, c: byte, at: nat)
    requires at <= |s| && c !in s
    ensures Find(s, c, c, at) == |s|
    decreases |s| - at
  {
    if at < |s| {
      assert s[at] in s;
      NoneFound(s, c, at + 1);
    }
  }

  lemma PrintParses(n: nat)
    ensures ParseLength(Print(n)) == Within(n)
  {
    hide Print, Decimal;
    var s := Print(n);
    PrintReads(n);
    NoneFound(s, 0, 0);
    assert s[..|s|] == s;
  }

  // ---------------------------------------------------------------- header fields

  datatype Field = Field(name: bytes, value: bytes)

  predicate OneLine(s: bytes) { LF !in s && CR !in s }

  predicate FieldOk(f: Field) { OneLine(f.name) && OneLine(f.value) && COLON !in f.name }

  function Line(f: Field): bytes { f.name + [COLON] + f.value }

  function Eol(crlf: bool): bytes { if crlf then [CR, LF] else [LF] }

  predicate AllOk(fs: seq<Field>) { forall i | 0 <= i < |fs| :: FieldOk(fs[i]) }

  // The lines of the fields, with line ends between them.
  function Lines(fs: seq<Field>, crlf: bool): bytes
  {
    if fs == [] then [] else if |fs| == 1 then Line(fs[0]) else Line(fs[0]) + Eol(crlf) + Lines(fs[1..], crlf)
  }

  const WANTED: bytes := [99, 111, 110, 116, 101, 110, 116, 45, 108, 101, 110, 103, 116, 104]

  // "content-length", each letter in either case.
  predicate IsNamed(name: bytes)
  {
    |name| == 14 && forall i | 0 <= i < 14 :: name[i] == WANTED[i] || (WANTED[i] >= 97 && name[i] == WANTED[i] - 32)
  }

  predicate Blank(s: bytes) { forall i | 0 <= i < |s| :: s[i] == SPACE || s[i] == TAB }

  // The name, blanks before the colon notwithstanding.
  ghost predicate Announces(f: Field)
  {
    exists name, blanks :: IsNamed(name) && Blank(blanks) && f.name == name + blanks
  }

  lemma WantedSpelled()
    ensures CONTENT_LENGTH == WANTED
  {
    AsciiIs("content-length", WANTED);
  }

  lemma LowerNamed(name: bytes)
    ensures Lower(name) == CONTENT_LENGTH <==> IsNamed(name)
  {
    hide Ascii;
    WantedSpelled();
    if IsNamed(name) {
      forall i | 0 <= i < 14 ensures Lower(name)[i] == WANTED[i] { }
    }
    if Lower(name) == WANTED {
      forall i | 0 <= i < 14 ensures name[i] == WANTED[i] || (WANTED[i] >= 97 && name[i] == WANTED[i] - 32) {
        assert Lower(name)[i] == WANTED[i];
      }
    }
  }

  lemma {:induction false} TrimsEnd(s: bytes, blanks: bytes)
    requires Blank(blanks) && (s == [] || !Blank(s[|s| - 1..]))
    ensures TrimEnd(s + blanks) == s
    decreases |blanks|
  {
    if blanks == [] {
      assert s + blanks == s;
      assert s != [] ==> s[|s| - 1..] == [s[|s| - 1]];
    } else {
      var t := s + blanks;
      assert t[..|t| - 1] == s + blanks[..|blanks| - 1];
      TrimsEnd(s, blanks[..|blanks| - 1]);
    }
  }

  lemma {:induction false} TrimmedEnd(s: bytes) returns (blanks: bytes)
    ensures Blank(blanks) && s == TrimEnd(s) + blanks
  {
    if s != [] && s[|s| - 1] in {SPACE, TAB} {
      var more := TrimmedEnd(s[..|s| - 1]);
      blanks := more + [s[|s| - 1]];
    } else {
      blanks := [];
    }
  }

  lemma {:induction false} TrimsStart(blanks: bytes, s: bytes)
    requires Blank(blanks) && (s == [] || !Blank(s[..1]))
    ensures TrimStart(blanks + s) == s
    decreases |blanks|
  {
    if blanks == [] {
      assert blanks + s == s;
      assert s != [] ==> s[..1] == [s[0]];
    } else {
      assert (blanks + s)[1..] == blanks[1..] + s;
      TrimsStart(blanks[1..], s);
    }
  }

  lemma NameAnnounces(f: Field)
    ensures Lower(TrimEnd(f.name)) == CONTENT_LENGTH <==> Announces(f)
  {
    hide TrimEnd, Lower, IsNamed, Ascii;
    LowerNamed(TrimEnd(f.name));
    var blanks := TrimmedEnd(f.name);
    if name, bs :| IsNamed(name) && Blank(bs) && f.name == name + bs {
      NamedEnds(name);
      TrimsEnd(name, bs);
    }
  }

  lemma NamedEnds(name: bytes)
    requires IsNamed(name)
    ensures !Blank(name[|name| - 1..])
  {
    assert name[|name| - 1..][0] == name[13];
  }

  // ---------------------------------------------------------------- fields in a header

  lemma LineFree(f: Field)
    requires FieldOk(f)
    ensures LF !in Line(f) && CR !in Line(f)
  {
  }

  // Up to a line end, or the end of all.
  lemma FirstLine(line: bytes, crlf: bool, more: bytes)
    requires LF !in line && CR !in line
    ensures Find(line, LF, LF, 0) == |line| && Chomp(line) == line
    ensures var s := line + Eol(crlf) + more; var end := Find(s, LF, LF, 0);
      end < |s| && Chomp(s[..end]) == line && s[end + 1..] == more
  {
    NoneFound(line, LF, 0);
    var s, n := line + Eol(crlf) + more, |line| + if crlf then 1 else 0;
    forall k | 0 <= k < n ensures s[k] != LF { if k < |line| { assert s[k] == line[k]; } }
    FindIs(s, LF, LF, 0, n);
    assert s[..n] == if crlf then line + [CR] else line;
  }

  lemma FindShift(h: bytes, at: nat, s: bytes)
    requires at <= |h| && h[at..] == s
    ensures Find(h, LF, LF, at) == at + Find(s, LF, LF, 0)
  {
    var n := Find(s, LF, LF, 0);
    assert forall k | 0 <= k < |s| :: h[at + k] == s[k];
    forall k | at <= k < at + n ensures h[k] != LF { assert h[k] == s[k - at]; }
    FindIs(h, LF, LF, at, at + n);
  }

  // The line at a position, and where the next one begins.
  lemma LineAt(h: bytes, at: nat, fs: seq<Field>, crlf: bool)
    requires fs != [] && FieldOk(fs[0]) && at <= |h| && h[at..] == Lines(fs, crlf)
    ensures at < |h|
    ensures var end := Find(h, LF, LF, at);
      && Chomp(h[at..end]) == Line(fs[0])
      && (end == |h| <==> |fs| == 1)
      && (|fs| > 1 ==> end + 1 <= |h| && h[end + 1..] == Lines(fs[1..], crlf))
  {
    hide Lines, Chomp, Line, FieldOk, Eol, Find;
    LinesSplit(fs, crlf);
    LineFree(fs[0]);
    var line, s := Line(fs[0]), Lines(fs, crlf);
    var n := Find(s, LF, LF, 0);
    FindShift(h, at, s);
    Shifted(h, at, s, n);
    if |fs| > 1 {
      FirstLine(line, crlf, Lines(fs[1..], crlf));
      Grouped(line, Eol(crlf), Lines(fs[1..], crlf));
      Shifted(h, at, s, n + 1);
    } else {
      FirstLine(line, crlf, []);
    }
    NotNothing(fs, crlf);
  }

  lemma Grouped(a: bytes, b: bytes, c: bytes)
    ensures a + (b + c) == a + b + c
    ensures a + [] == a && a[..|a|] == a
  {
  }

  lemma Shifted(h: bytes, at: nat, s: bytes, n: nat)
    requires at <= |h| && h[at..] == s && n <= |s|
    ensures |h| == at + |s| && h[at..at + n] == s[..n] && h[at + n..] == s[n..] && (n == |s| ==> s[..n] == s)
  {
  }

  lemma NotNothing(fs: seq<Field>, crlf: bool)
    requires fs != []
    ensures Lines(fs, crlf) != []
  {
  }

  lemma LinesSplit(fs: seq<Field>, crlf: bool)
    requires fs != []
    ensures |fs| == 1 ==> Lines(fs, crlf) == Line(fs[0])
    ensures |fs| > 1 ==> Lines(fs, crlf) == Line(fs[0]) + Eol(crlf) + Lines(fs[1..], crlf)
  {
  }

  lemma NoReturn(f: Field)
    requires FieldOk(f)
    ensures CR !in Line(f) && Chomp(Line(f)) == Line(f) && Chomp(Line(f) + [CR]) == Line(f)
    ensures Find(Line(f), COLON, COLON, 0) == |f.name|
  {
    FindIs(Line(f), COLON, COLON, 0, |f.name|);
  }

  ghost function Count(fs: seq<Field>): nat
  {
    if fs == [] then 0 else (if Announces(fs[0]) then 1 else 0) + Count(fs[1..])
  }

  lemma {:induction false} FieldsCount(h: bytes, at: nat, fs: seq<Field>, crlf: bool)
    requires fs != [] && AllOk(fs) && at <= |h| && h[at..] == Lines(fs, crlf)
    ensures LengthFields(h, at) == Count(fs)
    decreases |fs|
  {
    hide Lines, Chomp, Lower, TrimEnd, Announces, Ascii, FieldOk;
    assert FieldOk(fs[0]);
    LineAt(h, at, fs, crlf);
    NoReturn(fs[0]);
    NameAnnounces(fs[0]);
    var end := Find(h, LF, LF, at);
    assert Line(fs[0])[..|fs[0].name|] == fs[0].name;
    if |fs| > 1 {
      FieldsCount(h, end + 1, fs[1..], crlf);
    } else {
      assert fs[1..] == [];
    }
  }

  // The value of the first field with just this name.
  function Value(fs: seq<Field>): bytes
  {
    if fs == [] then [] else if IsNamed(fs[0].name) then TrimEnd(TrimStart(fs[0].value)) else Value(fs[1..])
  }

  // A line begins with "Content-Length:" exactly when that is its field's name.
  lemma LineNamed(f: Field)
    requires FieldOk(f)
    ensures var line, want := Line(f), CONTENT_LENGTH + [COLON];
      && |want| == 15
      && (|line| >= 15 && Lower(line)[..15] == want <==> IsNamed(f.name))
      && (IsNamed(f.name) ==> line[15..] == f.value)
  {
    WantedSpelled();
    LowerNamed(f.name);
    hide IsNamed, Ascii;
    var line, want := Line(f), CONTENT_LENGTH + [COLON];
    if |line| >= 15 && Lower(line)[..15] == want {
      assert Lower(line)[14] == Lower(line)[..15][14] == COLON;
      assert line[14] == COLON;
      assert Lower(line)[|f.name|] == COLON;
      assert |f.name| < 15 ==> want[|f.name|] == Lower(line)[..15][|f.name|] == COLON;
      assert Lower(f.name) == Lower(line)[..15][..14];
    }
    if IsNamed(f.name) {
      assert Lower(line)[..14] == Lower(f.name);
      assert Lower(line)[..15] == Lower(line)[..14] + [Lower(line)[14]];
    }
  }

  lemma {:induction false} FieldsValue(h: bytes, at: nat, fs: seq<Field>, crlf: bool)
    requires fs != [] && AllOk(fs) && at <= |h| && h[at..] == Lines(fs, crlf)
    ensures LengthValue(h, at) == Value(fs)
    decreases |fs|
  {
    hide Lines, Chomp, Lower, TrimEnd, TrimStart, Ascii, FieldOk, IsNamed;
    assert FieldOk(fs[0]);
    LineAt(h, at, fs, crlf);
    LineNamed(fs[0]);
    var end := Find(h, LF, LF, at);
    if |fs| > 1 {
      FieldsValue(h, end + 1, fs[1..], crlf);
    } else {
      assert fs[1..] == [];
    }
  }

  ghost predicate NoneAnnounces(fs: seq<Field>)
  {
    forall i | 0 <= i < |fs| :: !Announces(fs[i])
  }

  lemma NamedAnnounces(f: Field)
    ensures IsNamed(f.name) ==> Announces(f)
  {
    assert f.name == f.name + [];
  }

  lemma {:induction false} Uncounted(fs: seq<Field>)
    requires NoneAnnounces(fs)
    ensures Count(fs) == 0 && Value(fs) == []
    decreases |fs|
  {
    hide Announces, IsNamed;
    if fs != [] {
      NamedAnnounces(fs[0]);
      Uncounted(fs[1..]);
    }
  }

  lemma {:induction false} CountAppends(a: seq<Field>, b: seq<Field>)
    ensures Count(a + b) == Count(a) + Count(b)
    ensures NoneAnnounces(a) ==> Value(a + b) == Value(b)
    decreases |a|
  {
    hide Announces, IsNamed, TrimEnd, TrimStart;
    if a == [] {
      assert a + b == b;
    } else {
      assert (a + b)[1..] == a[1..] + b;
      NamedAnnounces(a[0]);
      CountAppends(a[1..], b);
    }
  }

  lemma PrintEnds(n: nat)
    ensures !Blank(Print(n)[..1]) && !Blank(Print(n)[|Print(n)| - 1..])
  {
    PrintReads(n);
    var s := Print(n);
    assert 48 <= s[..1][0] && 48 <= s[|s| - 1..][0];
  }

  lemma Trimmed(pre: bytes, n: nat, post: bytes)
    requires Blank(pre) && Blank(post)
    ensures TrimEnd(TrimStart(pre + Print(n) + post)) == Print(n)
  {
    hide Print, TrimEnd, TrimStart, Blank;
    PrintEnds(n);
    var s := Print(n);
    assert pre + s + post == pre + (s + post);
    assert (s + post)[..1] == s[..1];
    TrimsStart(pre, s + post);
    TrimsEnd(s, post);
  }

  // One field among others says how long the body is: a name in any case, blanks around a decimal.
  datatype Declared = Undeclared | Declared(name: bytes, before: bytes, n: nat, after: bytes)

  predicate DeclaredOk(d: Declared)
  {
    d.Declared? ==> IsNamed(d.name) && Blank(d.before) && Blank(d.after)
  }

  function DeclaredField(d: Declared): seq<Field>
  {
    if d.Undeclared? then [] else [Field(d.name, d.before + Print(d.n) + d.after)]
  }

  lemma DeclaredCounts(d: Declared)
    requires DeclaredOk(d)
    ensures Count(DeclaredField(d)) == if d.Declared? then 1 else 0
    ensures Value(DeclaredField(d)) == if d.Declared? then Print(d.n) else []
    ensures d.Declared? ==> forall more :: Value(DeclaredField(d) + more) == Print(d.n)
  {
    hide Print, IsNamed, Announces, TrimEnd, TrimStart, Blank;
    if d.Declared? {
      var f := DeclaredField(d)[0];
      NamedAnnounces(f);
      Trimmed(d.before, d.n, d.after);
      assert DeclaredField(d)[1..] == [];
      forall more ensures Value(DeclaredField(d) + more) == Print(d.n) {
        assert (DeclaredField(d) + more)[0] == f;
      }
    }
  }

  lemma CountsOnce(above: seq<Field>, d: Declared, below: seq<Field>)
    requires DeclaredOk(d) && NoneAnnounces(above) && NoneAnnounces(below)
    ensures var fs := above + DeclaredField(d) + below;
      && Count(fs) == (if d.Declared? then 1 else 0) && Value(fs) == if d.Declared? then Print(d.n) else []
  {
    hide Print, Count, Value, DeclaredOk, NoneAnnounces;
    var m := DeclaredField(d);
    DeclaredCounts(d);
    CountAppends(above + m, below);
    CountAppends(above, m);
    assert above + m + below == above + (m + below);
    CountAppends(above, m + below);
    Uncounted(above);
    Uncounted(below);
    if d.Undeclared? { assert m + below == below; }
  }

  // A header whose one declaration is d announces what d says.
  lemma BodyIsDeclared(above: seq<Field>, d: Declared, below: seq<Field>, crlf: bool)
    requires DeclaredOk(d) && NoneAnnounces(above) && NoneAnnounces(below)
    requires var fs := above + DeclaredField(d) + below; fs != [] && AllOk(fs)
    ensures BodyLength(Lines(above + DeclaredField(d) + below, crlf)) == Within(if d.Declared? then d.n else 0)
  {
    hide Lines, Print, DeclaredOk, NoneAnnounces, ParseLength, LengthFields, LengthValue, AllOk;
    var fs, h := above + DeclaredField(d) + below, Lines(above + DeclaredField(d) + below, crlf);
    assert h[0..] == h;
    FieldsCount(h, 0, fs, crlf);
    FieldsValue(h, 0, fs, crlf);
    CountsOnce(above, d, below);
    if d.Declared? { PrintParses(d.n); }
  }

  // Two declarations, whatever they say, are refused.
  lemma TwiceIsRefused(fs: seq<Field>, i: nat, j: nat, crlf: bool)
    requires AllOk(fs) && i < j < |fs| && Announces(fs[i]) && Announces(fs[j])
    ensures BodyLength(Lines(fs, crlf)) == BadLength
  {
    hide Lines, Announces, FieldOk;
    var h := Lines(fs, crlf);
    assert h[0..] == h;
    FieldsCount(h, 0, fs, crlf);
    CountsAt(fs, j);
    CountsAt(fs[..j], i);
    CountAppends(fs[..j], fs[j..]);
    assert fs == fs[..j] + fs[j..];
    CountsAt(fs[j..], 0);
  }

  lemma CountsAt(fs: seq<Field>, i: nat)
    requires i < |fs| && Announces(fs[i])
    ensures Count(fs) >= 1
  {
    hide Announces;
    CountAppends(fs[..i], fs[i..]);
    assert fs == fs[..i] + fs[i..];
  }

  // ---------------------------------------------------------------- requests

  // What a request is made of.
  datatype Form = Form(
    verb: bytes, path: bytes, query: seq<Pair>, version: bytes,
    above: seq<Field>, length: Declared, below: seq<Field>, crlf: bool)

  function Fields(r: Form): seq<Field>
  {
    r.above + DeclaredField(r.length) + r.below
  }

  function Target(r: Form): bytes
  {
    if r.query == [] then r.path else r.path + [QUERY] + Query(r.query)
  }

  function StartLine(r: Form): bytes
  {
    r.verb + [SPACE] + Target(r) + [SPACE] + r.version
  }

  function HeaderBytes(r: Form): bytes
  {
    StartLine(r) + Eol(r.crlf) + Lines(Fields(r), r.crlf) + Eol(r.crlf) + Eol(r.crlf)
  }

  ghost predicate Written(r: Form)
  {
    && r.verb != [] && r.verb[0] != DOLLAR && SPACE !in r.verb
    && r.path != [] && SPACE !in r.path && QUERY !in r.path && AllPlain(r.query)
    && OneLine(StartLine(r))
    && Fields(r) != [] && AllOk(Fields(r)) && DeclaredOk(r.length)
    && NoneAnnounces(r.above) && NoneAnnounces(r.below)
    && |HeaderBytes(r)| <= 8192
  }

  // The length of the body that follows.
  function BodyOf(r: Form): nat
  {
    if r.length.Declared? then r.length.n else 0
  }

  // Does the password of the request match, as it is or up to its last slash?
  ghost predicate Knows(p: Policy, pw: bytes)
  {
    || p.matches(pw)
    || exists i | 0 <= i < |pw| :: pw[i] == SLASH && SLASH !in pw[i + 1..] && p.matches(pw[..i])
  }

  ghost predicate MayPass(p: Policy, r: Form)
  {
    var c := Lookup(r.query, {Ascii("pw")});
    p.required && c.Present? ==> Knows(p, c.value)
  }

  lemma {:induction false} SlashIsLast(s: bytes)
    ensures SLASH in s ==> LastSlash(s) < |s| && s[LastSlash(s)] == SLASH && SLASH !in s[LastSlash(s) + 1..]
    decreases |s|
  {
    if SLASH in s && s[|s| - 1] != SLASH {
      var t := s[..|s| - 1];
      assert s == t + [s[|s| - 1]];
      SlashIsLast(t);
      assert s[LastSlash(t) + 1..] == t[LastSlash(t) + 1..] + [s[|s| - 1]];
    }
  }

  lemma KnowsMatches(p: Policy, pw: bytes)
    ensures Matches(p, pw) <==> Knows(p, pw)
  {
    hide LastSlash;
    SlashIsLast(pw);
    forall i | 0 <= i < |pw| && pw[i] == SLASH && SLASH !in pw[i + 1..] ensures i == LastSlash(pw) {
      var k := LastSlash(pw);
      SlashBehind(pw, i, k);
      SlashBehind(pw, k, i);
    }
  }

  lemma SlashBehind(s: bytes, i: nat, k: nat)
    requires i < |s| && k < |s| && s[k] == SLASH
    ensures i < k ==> SLASH in s[i + 1..]
  {
    if i < k { assert s[i + 1..][k - i - 1] == s[k]; }
  }

  lemma TargetFinds(r: Form)
    requires Written(r)
    ensures QUERY !in r.path && Password(Target(r)) == Lookup(r.query, {Ascii("pw")})
    ensures SPACE !in Target(r) && Find(Target(r), QUERY, QUERY, 0) != 0
  {
    hide QueryValue, Query, Lines, Lookup, Ascii;
    var t := Target(r);
    if r.query == [] {
      NoneFound(t, QUERY, 0);
      Nobody({Ascii("pw")});
    } else {
      QueryPlain(r.query);
      QueryFinds(r.query, {Ascii("pw")});
      FindIs(t, QUERY, QUERY, 0, |r.path|);
      assert t[|r.path| + 1..] == Query(r.query);
    }
  }

  lemma Nobody(names: set<bytes>)
    ensures Lookup([], names) == Absent
  {
  }

  lemma BlankLineStrips(text: bytes, crlf: bool)
    requires text != [] && text[|text| - 1] != LF && text[|text| - 1] != CR
    ensures Head(text + Eol(crlf) + Eol(crlf)) == text
  {
    var h := text + Eol(crlf) + Eol(crlf);
    assert h[..|text|] == text;
    if crlf {
      assert h[|text|..] == [CR, LF, CR, LF];
    } else {
      assert h[|text|..] == [LF, LF];
    }
  }

  lemma StartParses(verb: bytes, t: bytes, version: bytes)
    requires SPACE !in verb && SPACE !in t
    ensures var line := verb + [SPACE] + t + [SPACE] + version;
      var sp := Find(line, SPACE, SPACE, 0);
      && sp == |verb| && var sp2 := Find(line, SPACE, SPACE, sp + 1);
      sp2 < |line| && line[sp + 1..sp2] == t
  {
    var line, a := verb + [SPACE] + t + [SPACE] + version, |verb|;
    forall k | 0 <= k < a ensures line[k] != SPACE { assert line[k] == verb[k]; }
    FindIs(line, SPACE, SPACE, 0, a);
    forall k | a + 1 <= k < a + 1 + |t| ensures line[k] != SPACE { assert line[k] == t[k - a - 1]; }
    FindIs(line, SPACE, SPACE, a + 1, a + 1 + |t|);
    assert line[a + 1..a + 1 + |t|] == t;
  }

  lemma {:induction false} LinesEnd(fs: seq<Field>, crlf: bool)
    requires fs != [] && AllOk(fs)
    ensures var l := Lines(fs, crlf); l != [] && l[|l| - 1] != LF && l[|l| - 1] != CR
    decreases |fs|
  {
    assert FieldOk(fs[0]);
    if |fs| > 1 {
      LinesEnd(fs[1..], crlf);
    } else {
      LineFree(fs[0]);
    }
  }

  // The parts of the header are found again.
  lemma HeadParses(r: Form)
    requires Written(r)
    ensures ParseHead(HeaderBytes(r)) == Parsed(Target(r), Lines(Fields(r), r.crlf))
  {
    hide Lines, Target, Fields, Chomp, AllOk, Eol, Head, Find, DeclaredOk, Query, NoneAnnounces;
    TargetFinds(r);
    var start, fields, t := StartLine(r), Lines(Fields(r), r.crlf), Target(r);
    LinesEnd(Fields(r), r.crlf);
    BlankLineStrips(start + Eol(r.crlf) + fields, r.crlf);
    FirstLine(start, r.crlf, fields);
    StartParses(r.verb, t, r.version);
  }

  // ---------------------------------------------------------------- where the header ends

  // No line end is followed by another, and there is none at either end.
  predicate Calm(s: bytes)
  {
    && s != [] && s[0] !in {LF, CR} && s[|s| - 1] !in {LF, CR}
    && forall k | 0 <= k < |s| - 1 :: s[k] == LF ==> s[k + 1] !in {LF, CR}
  }

  lemma CalmLine(line: bytes)
    requires line != [] && OneLine(line)
    ensures Calm(line)
  {
  }

  lemma CalmAppend(line: bytes, crlf: bool, more: bytes)
    requires line != [] && OneLine(line) && Calm(more)
    ensures Calm(line + Eol(crlf) + more)
  {
    var s, n := line + Eol(crlf) + more, |line| + |Eol(crlf)|;
    forall k | 0 <= k < |line| ensures s[k] != LF { assert s[k] == line[k]; }
    forall k | |line| <= k < |s| - 1 && s[k] == LF ensures s[k + 1] !in {LF, CR} {
      if k >= n { assert s[k] == more[k - n] && s[k + 1] == more[k - n + 1]; }
    }
  }

  lemma {:induction false} LinesCalm(fs: seq<Field>, crlf: bool)
    requires fs != [] && AllOk(fs)
    ensures Calm(Lines(fs, crlf))
    decreases |fs|
  {
    hide Calm, Eol, FieldOk;
    assert FieldOk(fs[0]);
    LineFree(fs[0]);
    if |fs| == 1 {
      CalmLine(Line(fs[0]));
    } else {
      LinesCalm(fs[1..], crlf);
      CalmAppend(Line(fs[0]), crlf, Lines(fs[1..], crlf));
    }
  }

  lemma {:induction false} EndFound(b: bytes, i: nat, e: nat, n: nat)
    requires i <= e && Ends(b, e, n) && n in {2, 4} && (n == 4 ==> !Ends(b, e, 2))
    requires forall k | i <= k < e :: !Ends(b, k, 2) && !Ends(b, k, 4)
    ensures HeaderEnd(b, i) == e + n
    decreases e - i
  {
    if i < e { EndFound(b, i + 1, e, n); }
  }

  lemma BlankLineEnds(text: bytes, crlf: bool)
    requires Calm(text)
    ensures var h := text + Eol(crlf) + Eol(crlf); HeaderEnd(h, 0) == |h|
  {
    var h := text + Eol(crlf) + Eol(crlf);
    assert forall k | 0 <= k < |text| :: h[k] == text[k];
    forall k | 0 <= k < |text| ensures !Ends(h, k, 2) && !Ends(h, k, 4) { }
    EndFound(h, 0, |text|, if crlf then 4 else 2);
  }

  lemma HeaderIsOne(r: Form)
    requires Written(r)
    ensures IsHeader(HeaderBytes(r))
  {
    hide Lines, Target, Fields, AllOk, Eol, HeaderEnd, Calm, NoneAnnounces, DeclaredOk;
    var start, fields := StartLine(r), Lines(Fields(r), r.crlf);
    LinesCalm(Fields(r), r.crlf);
    CalmAppend(start, r.crlf, fields);
    BlankLineEnds(start + Eol(r.crlf) + fields, r.crlf);
  }

  // ---------------------------------------------------------------- what the guard makes of it

  // A request so written is legal, with a body, exactly if it may pass and the body is as long as declared.
  lemma LegalExactly(p: Policy, r: Form, body: bytes)
    requires Written(r)
    ensures Legal(p, Request(HeaderBytes(r), body))
      <==> MayPass(p, r) && |body| == BodyOf(r) <= 16 * 1024 * 1024
  {
    hide HeaderBytes, Lines, Target, Lookup, Password, BodyLength, Knows, Matches, IsHeader, ParseHead;
    HeaderIsOne(r);
    HeadParses(r);
    TargetFinds(r);
    if r.query != [] && Password(Target(r)).Present? { KnowsMatches(p, Password(Target(r)).value); }
    Nobody({Ascii("pw")});
    BodyIsDeclared(r.above, r.length, r.below, r.crlf);
  }

  // A request with its body, or an interleaved frame.
  datatype Item = Asked(form: Form, body: bytes) | Framed(channel: byte, payload: bytes)

  ghost predicate Good(p: Policy, x: Item)
  {
    match x
    case Asked(r, body) => Written(r) && MayPass(p, r) && |body| == BodyOf(r) <= 16 * 1024 * 1024
    case Framed(_, payload) => |payload| < 0x1_0000
  }

  ghost predicate AllGood(p: Policy, xs: seq<Item>)
  {
    forall i | 0 <= i < |xs| :: Good(p, xs[i])
  }

  function Sized(n: nat): bytes { [n / 256 % 256, n % 256] }

  // What is looked at, and what is only counted.
  function Looked(x: Item): bytes
  {
    if x.Asked? then HeaderBytes(x.form) else [36, x.channel] + Sized(|x.payload|)
  }

  function Counted(x: Item): bytes
  {
    if x.Asked? then x.body else x.payload
  }

  function StreamOf(xs: seq<Item>): bytes
  {
    if xs == [] then [] else Looked(xs[0]) + Counted(xs[0]) + StreamOf(xs[1..])
  }

  function SentOf(xs: seq<Item>): seq<Sent>
  {
    if xs == [] then [] else AsRead(Looked(xs[0])) + AsUnread(Counted(xs[0])) + SentOf(xs[1..])
  }

  lemma {:induction false} ItemsAreMessages(p: Policy, xs: seq<Item>) returns (ms: seq<Message>)
    requires AllGood(p, xs)
    ensures LegalAll(p, ms) && WireAll(ms) == StreamOf(xs) && Relayed(ms) == SentOf(xs)
    decreases |xs|
  {
    hide Legal, AsRead, AsUnread, HeaderBytes, Written, MayPass;
    if xs == [] {
      ms := [];
    } else {
      var x := xs[0];
      assert Good(p, x);
      var more := ItemsAreMessages(p, xs[1..]);
      var m := if x.Asked? then Request(HeaderBytes(x.form), x.body) else Interleaved(x.channel, x.payload);
      if x.Asked? { LegalExactly(p, x.form, x.body); } else { FrameIsLegal(p, x); }
      ms := [m] + more;
      assert ms[1..] == more;
    }
  }

  lemma FrameIsLegal(p: Policy, x: Item)
    requires Good(p, x) && x.Framed?
    ensures var m := Interleaved(x.channel, x.payload); Legal(p, m) && Front(m) == Looked(x)
  {
  }

  // Requests that may pass, with bodies as long as declared, and frames, in any segments: all of it is
  // forwarded, headers after being looked at, bodies and frames unread, and the byte behind them is taken
  // for the next beginning.
  lemma RelaysWritten(p: Policy, xs: seq<Item>, inputs: seq<bytes>)
    requires AllGood(p, xs) && Join(inputs) == StreamOf(xs)
    ensures FeedAll(Step(p), FRESH, inputs) == Session(true, 0, [], SentOf(xs))
  {
    hide Legal, Relayed, WireAll, Step;
    var ms := ItemsAreMessages(p, xs);
    assert Carries(p, ms, Join(inputs));
    AcceptsExactly(p, inputs);
  }

  // A request whose password is wrong, or whose body would be over 16 MiB, ends the connection before anything of
  // it is forwarded.
  lemma RefusesWritten(p: Policy, xs: seq<Item>, r: Form, rest: bytes, inputs: seq<bytes>)
    requires AllGood(p, xs) && Written(r) && (!MayPass(p, r) || BodyOf(r) > 16 * 1024 * 1024)
    requires Join(inputs) == StreamOf(xs) + (HeaderBytes(r) + rest)
    ensures var f := FeedAll(Step(p), FRESH, inputs); !f.alive && f.events == SentOf(xs)
  {
    hide Legal, Relayed, WireAll, HeaderBytes, Decide, Run, Written, MayPass;
    var ms := ItemsAreMessages(p, xs);
    var b := HeaderBytes(r) + rest;
    PassesLegal(p, ms, b);
    HeaderRefused(p, r, rest);
    RunStops(Step(p), 0, b);
    GuardSplitInvariance(p, inputs);
    assert FRESH.held + Join(inputs) == Join(inputs);
    var whole := Run(Step(p), 0, Join(inputs));
    assert FRESH.events + whole.events == whole.events;
    assert SentOf(xs) + [] == SentOf(xs);
  }

  lemma HeaderRefused(p: Policy, r: Form, rest: bytes)
    requires Written(r) && (!MayPass(p, r) || BodyOf(r) > 16 * 1024 * 1024)
    ensures Decide(p, 0, HeaderBytes(r) + rest) == Fatal(0, [])
  {
    hide HeaderBytes, Written, MayPass, Inspect, HeaderEnd;
    var h := HeaderBytes(r);
    HeaderIsOne(r);
    HeaderEndStays(h, rest, 0);
    assert (h + rest)[..|h|] == h;
    if Inspect(p, h).Length? {
      var body: bytes := seq(Inspect(p, h).n, _ => 0);
      LegalExactly(p, r, body);
    }
  }
}
