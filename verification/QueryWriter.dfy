/**
  A writer of query strings (sections 2.1 and 3.4 of RFC 3986) and the proof that httpreq.cpp finds in
  them what was written.
 */
module QueryWriter {
  import opened Bytes
  import opened HttpQuery

  const AMP: byte := 38
  const EQUALS: byte := 61
  const PERCENT: byte := 37
  const QUERY: byte := 63

  const PLUS: byte := 43
  const BLANK: byte := 32

  // A character of a value: itself, a plus for a blank, or an escape in either case of hexadecimal.
  datatype Glyph = Raw(c: byte) | Plus | Escaped(c: byte, upper: bool)

  predicate Allowed(g: Glyph)
  {
    g.Raw? ==> g.c !in {AMP, PERCENT, PLUS, BLANK, QUERY}
  }

  predicate AllAllowed(gs: seq<Glyph>)
  {
    forall i | 0 <= i < |gs| :: Allowed(gs[i])
  }

  function Hex(d: nat, upper: bool): byte
    requires d < 16
  {
    if d < 10 then 48 + d else if upper then 55 + d else 87 + d
  }

  function Spelling(g: Glyph): bytes
  {
    match g
    case Raw(c) => [c]
    case Plus => [PLUS]
    case Escaped(c, upper) => [PERCENT, Hex(c / 16, upper), Hex(c % 16, upper)]
  }

  function Spelled(gs: seq<Glyph>): bytes
  {
    if gs == [] then [] else Spelling(gs[0]) + Spelled(gs[1..])
  }

  function Meaning(gs: seq<Glyph>): bytes
  {
    if gs == [] then [] else [if gs[0].Plus? then BLANK else gs[0].c] + Meaning(gs[1..])
  }

  lemma GlyphReads(g: Glyph, rest: bytes)
    requires Allowed(g)
    ensures UrlDecode(Spelling(g) + rest) == [if g.Plus? then BLANK else g.c] + UrlDecode(rest)
    ensures AMP !in Spelling(g) && QUERY !in Spelling(g) && BLANK !in Spelling(g)
  {
    var e := Spelling(g) + rest;
    match g
    case Escaped(c, upper) =>
      assert e[3..] == rest;
      assert HexDigit(e[1]) == c / 16 && HexDigit(e[2]) == c % 16;
    case _ => assert e[1..] == rest;
  }

  lemma {:induction false} Unescapes(gs: seq<Glyph>)
    requires AllAllowed(gs)
    ensures UrlDecode(Spelled(gs)) == Meaning(gs)
    ensures AMP !in Spelled(gs) && QUERY !in Spelled(gs) && BLANK !in Spelled(gs)
    decreases |gs|
  {
    hide Spelling;
    if gs != [] {
      GlyphReads(gs[0], Spelled(gs[1..]));
      Unescapes(gs[1..]);
    }
  }

  // A name with nothing of the syntax in it, and any value.
  datatype Pair = Pair(name: bytes, value: seq<Glyph>)

  predicate Plain(name: bytes)
  {
    AMP !in name && EQUALS !in name && QUERY !in name && BLANK !in name
  }

  predicate AllPlain(ps: seq<Pair>)
  {
    forall i | 0 <= i < |ps| :: Plain(ps[i].name) && AllAllowed(ps[i].value)
  }

  function PairBytes(p: Pair): bytes { p.name + [EQUALS] + Spelled(p.value) }

  function Query(ps: seq<Pair>): bytes
    requires ps != []
  {
    if |ps| == 1 then PairBytes(ps[0]) else PairBytes(ps[0]) + [AMP] + Query(ps[1..])
  }

  // The value of the first pair with one of these names.
  function Lookup(ps: seq<Pair>, names: set<bytes>): Credential
  {
    if ps == [] then Absent else if ps[0].name in names then Present(Meaning(ps[0].value)) else Lookup(ps[1..], names)
  }

  lemma {:induction false} FindIs(s: bytes, c: byte, d: byte, at: nat, r: nat)
    requires at <= r <= |s| && (forall k | at <= k < r :: s[k] != c && s[k] != d)
    requires r < |s| ==> s[r] == c || s[r] == d
    ensures Find(s, c, d, at) == r
    decreases r - at
  {
    if at < r { FindIs(s, c, d, at + 1, r); }
  }

  lemma PairEnds(p: Pair, rest: bytes)
    requires Plain(p.name) && AllAllowed(p.value) && (rest == [] || rest[0] == AMP)
    ensures var kv := PairBytes(p);
      && Find(kv + rest, AMP, AMP, 0) == |kv| && |p.name| < |kv| && Find(kv, EQUALS, EQUALS, 0) == |p.name|
      && kv[..|p.name|] == p.name && kv[|p.name| + 1..] == Spelled(p.value)
  {
    Unescapes(p.value);
    var kv := PairBytes(p);
    FindIs(kv + rest, AMP, AMP, 0, |kv|);
    FindIs(kv, EQUALS, EQUALS, 0, |p.name|);
  }

  // One step of the search.
  lemma ValueStep(q: bytes, at: nat, names: set<bytes>)
    requires at <= |q|
    ensures var end := Find(q, AMP, AMP, at);
      QueryValue(q, at, names) == var kv := q[at..end]; var eq := Find(kv, EQUALS, EQUALS, 0);
        if eq < |kv| && kv[..eq] in names then Present(UrlDecode(kv[eq + 1..]))
        else if end == |q| then Absent else QueryValue(q, end + 1, names)
  {
  }

  // The value wanted depends only on what is behind the position.
  lemma {:induction false} ValueFrom(q: bytes, at: nat, r: bytes, bt: nat, names: set<bytes>)
    requires at <= |q| && bt <= |r| && q[at..] == r[bt..]
    ensures QueryValue(q, at, names) == QueryValue(r, bt, names)
    decreases |q| - at
  {
    hide QueryValue, UrlDecode;
    var end := Find(q, AMP, AMP, at);
    assert forall k | at <= k < |q| :: q[k] == q[at..][k - at] == r[bt..][k - at] == r[bt + (k - at)];
    FindIs(r, AMP, AMP, bt, bt + (end - at));
    assert q[at..end] == q[at..][..end - at] == r[bt..bt + (end - at)];
    ValueStep(q, at, names);
    ValueStep(r, bt, names);
    if end < |q| {
      assert q[end + 1..] == q[at..][end + 1 - at..] == r[bt + (end - at) + 1..];
      ValueFrom(q, end + 1, r, bt + (end - at) + 1, names);
    }
  }

  // The first step of the search.
  lemma FirstPair(q: bytes, names: set<bytes>, kv: bytes, eq: nat)
    requires kv <= q && Find(q, AMP, AMP, 0) == |kv| && Find(kv, EQUALS, EQUALS, 0) == eq < |kv|
    ensures QueryValue(q, 0, names)
      == if kv[..eq] in names then Present(UrlDecode(kv[eq + 1..]))
         else if |kv| == |q| then Absent else QueryValue(q, |kv| + 1, names)
  {
    hide UrlDecode, QueryValue;
    ValueStep(q, 0, names);
    assert q[0..|kv|] == kv;
  }

  lemma PairFinds(p: Pair, q: bytes, rest: bytes, names: set<bytes>)
    requires Plain(p.name) && AllAllowed(p.value) && (rest == [] || rest[0] == AMP) && q == PairBytes(p) + rest
    ensures p.name in names ==> QueryValue(q, 0, names) == Present(Meaning(p.value))
    ensures p.name !in names && rest == [] ==> QueryValue(q, 0, names) == Absent
    ensures p.name !in names && rest != [] ==> QueryValue(q, 0, names) == QueryValue(rest[1..], 0, names)
  {
    hide PairBytes, UrlDecode, Spelled, Plain, QueryValue;
    var kv := PairBytes(p);
    PairEnds(p, rest);
    Unescapes(p.value);
    FirstPair(q, names, kv, |p.name|);
    if rest != [] {
      assert q[|kv| + 1..] == rest[1..];
      ValueFrom(q, |kv| + 1, rest[1..], 0, names);
    }
  }

  // A query is searched for what was written into it.
  lemma {:induction false} QueryFinds(ps: seq<Pair>, names: set<bytes>)
    requires ps != [] && AllPlain(ps)
    ensures QueryValue(Query(ps), 0, names) == Lookup(ps, names)
    decreases |ps|
  {
    hide PairBytes, Plain, UrlDecode, Spelled, QueryValue, AllAllowed;
    assert Plain(ps[0].name) && AllAllowed(ps[0].value);
    var kv := PairBytes(ps[0]);
    if |ps| == 1 {
      assert kv + [] == kv;
      PairFinds(ps[0], kv, [], names);
      assert ps[1..] == [];
    } else {
      var rest := [AMP] + Query(ps[1..]);
      assert Query(ps) == kv + rest && rest[1..] == Query(ps[1..]);
      PairFinds(ps[0], Query(ps), rest, names);
      QueryFinds(ps[1..], names);
    }
  }

  lemma {:induction false} QueryPlain(ps: seq<Pair>)
    requires ps != [] && AllPlain(ps)
    ensures QUERY !in Query(ps) && BLANK !in Query(ps)
    decreases |ps|
  {
    Unescapes(ps[0].value);
    if |ps| > 1 { QueryPlain(ps[1..]); }
  }
}
