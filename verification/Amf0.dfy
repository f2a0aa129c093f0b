/**
  The AMF0 value skipper (videortmp.cpp, amf_skip and amf_skip_object_body): it steps over one value
  of an untrusted command, nested at most eight deep, without reading past the buffer.
 */
module Amf0 {
  import opened Bytes
  import opened Numbers

  const MAX_DEPTH := 8
  const NUMBER: byte := 0
  const BOOLEAN: byte := 1
  const STRING: byte := 2
  const OBJECT: byte := 3
  const NULL: byte := 5
  const UNDEFINED: byte := 6
  const REFERENCE: byte := 7
  const ECMA_ARRAY: byte := 8
  const OBJECT_END: byte := 9
  const STRICT_ARRAY: byte := 10
  const DATE: byte := 11
  const LONG_STRING: byte := 12

  // Verdict and the position reached; the position is left wherever a failure was noticed.
  datatype Cursor = Cursor(ok: bool, at: nat)

  // Fixed-size contents: stepped over first, checked afterwards.
  function Past(p: bytes, at: nat): (r: Cursor)
    ensures r.ok ==> r.at == at <= |p|
  {
    Cursor(at <= |p|, at)
  }

  function Skip(p: bytes, i: nat, depth: nat): (r: Cursor)
    ensures r.ok ==> i < r.at <= |p|
    decreases |p| - i, 0
  {
    if depth > MAX_DEPTH || i >= |p| then Cursor(false, i)
    else
      var m, j := p[i], i + 1;
      if m == NUMBER then Past(p, j + 8)
      else if m == BOOLEAN then Past(p, j + 1)
      else if m == STRING then
        if j + 2 > |p| then Cursor(false, j) else Past(p, j + 2 + BE16(p[j], p[j + 1]))
      else if m == LONG_STRING then
        if j + 4 > |p| then Cursor(false, j) else Past(p, j + 4 + BE32(p[j], p[j + 1], p[j + 2], p[j + 3]))
      else if m == NULL || m == UNDEFINED || m == OBJECT_END then Cursor(true, j)
      else if m == REFERENCE then Past(p, j + 2)
      else if m == DATE then Past(p, j + 10)
      else if m == OBJECT then SkipMembers(p, j, depth)
      else if m == ECMA_ARRAY then
        if j + 4 > |p| then Cursor(false, j + 4) else SkipMembers(p, j + 4, depth)
      else if m == STRICT_ARRAY then
        if j + 4 > |p| then Cursor(false, j)
        else
          var cnt := BE32(p[j], p[j + 1], p[j + 2], p[j + 3]);
          if cnt > |p| then Cursor(false, j + 4) else SkipElements(p, j + 4, cnt, depth)
      else Cursor(false, j)
  }

  // Key and value pairs up to an empty key and the end marker.
  function SkipMembers(p: bytes, i: nat, depth: nat): (r: Cursor)
    ensures r.ok ==> i < r.at <= |p|
    decreases |p| - i, 1
  {
    if i + 2 > |p| then Cursor(false, i)
    else
      var klen, j := BE16(p[i], p[i + 1]), i + 2;
      if klen == 0 then
        if j >= |p| || p[j] != OBJECT_END then Cursor(false, j) else Cursor(true, j + 1)
      else if j + klen > |p| then Cursor(false, j)
      else
        var r := Skip(p, j + klen, depth + 1);
        if r.ok then SkipMembers(p, r.at, depth) else r
  }

  function SkipElements(p: bytes, i: nat, cnt: nat, depth: nat): (r: Cursor)
    requires i <= |p|
    ensures r.ok ==> i <= r.at <= |p|
    decreases |p| - i, 1
  {
    if cnt == 0 then Cursor(true, i)
    else
      var r := Skip(p, i, depth + 1);
      if r.ok then SkipElements(p, r.at, cnt - 1, depth) else r
  }

  // ---------------------------------------------------------------- values and their encoding

  datatype Amf =
    | Number(bits: bytes)
    | Boolean(value: byte)
    | Str(chars: bytes)
    | LongStr(chars: bytes)
    | Null
    | Undefined
    | ObjectEnd
    | Reference(index: bytes)
    | Date(fields: bytes)
    | Object(members: seq<Member>)
    | EcmaArray(count: bytes, members: seq<Member>)
    | StrictArray(elements: seq<Amf>)

  datatype Member = Member(key: bytes, value: Amf)

  predicate WellFormed(v: Amf)
  {
    match v
    case Number(b) => |b| == 8
    case Str(c) => |c| < 0x1_0000
    case LongStr(c) => |c| < 0x1_0000_0000
    case Reference(r) => |r| == 2
    case Date(f) => |f| == 10
    case Object(ms) => MembersOk(ms)
    case EcmaArray(c, ms) => |c| == 4 && MembersOk(ms)
    case StrictArray(es) => |es| < 0x1_0000_0000 && ElementsOk(es)
    case _ => true
  }

  predicate MembersOk(ms: seq<Member>)
  {
    ms == [] || (0 < |ms[0].key| < 0x1_0000 && WellFormed(ms[0].value) && MembersOk(ms[1..]))
  }

  predicate ElementsOk(es: seq<Amf>)
  {
    es == [] || (WellFormed(es[0]) && ElementsOk(es[1..]))
  }

  function Encode(v: Amf): (r: bytes)
    ensures |r| >= 1
  {
    match v
    case Number(b) => [NUMBER] + b
    case Boolean(b) => [BOOLEAN, b]
    case Str(c) => [STRING] + PutBE16(|c|) + c
    case LongStr(c) => [LONG_STRING] + PutBE32(|c|) + c
    case Null => [NULL]
    case Undefined => [UNDEFINED]
    case ObjectEnd => [OBJECT_END]
    case Reference(r) => [REFERENCE] + r
    case Date(f) => [DATE] + f
    case Object(ms) => [OBJECT] + EncodeMembers(ms)
    case EcmaArray(c, ms) => [ECMA_ARRAY] + c + EncodeMembers(ms)
    case StrictArray(es) => [STRICT_ARRAY] + PutBE32(|es|) + EncodeElements(es)
  }

  function EncodeMembers(ms: seq<Member>): bytes
  {
    if ms == [] then [0, 0, OBJECT_END]
    else PutBE16(|ms[0].key|) + ms[0].key + Encode(ms[0].value) + EncodeMembers(ms[1..])
  }

  function EncodeElements(es: seq<Amf>): (r: bytes)
    ensures |r| >= |es|
  {
    if es == [] then [] else Encode(es[0]) + EncodeElements(es[1..])
  }

  // How deep a value nests: a scalar, or an empty container, nests nothing.
  function Depth(v: Amf): nat
  {
    match v
    case Object(ms) => MembersDepth(ms)
    case EcmaArray(_, ms) => MembersDepth(ms)
    case StrictArray(es) => ElementsDepth(es)
    case _ => 0
  }

  function MembersDepth(ms: seq<Member>): nat
  {
    if ms == [] then 0 else Max(1 + Depth(ms[0].value), MembersDepth(ms[1..]))
  }

  function ElementsDepth(es: seq<Amf>): nat
  {
    if es == [] then 0 else Max(1 + Depth(es[0]), ElementsDepth(es[1..]))
  }

  // ---------------------------------------------------------------- skipping what was encoded

  predicate At(p: bytes, i: nat, e: bytes)
  {
    i + |e| <= |p| && p[i..i + |e|] == e
  }

  // The skipper is at the end of e, exactly if the nesting is within the limit.
  predicate Lands(r: Cursor, fits: bool, end: nat)
  {
    r.ok == fits && (fits ==> r.at == end)
  }

  lemma AtPart(p: bytes, i: nat, a: bytes, b: bytes)
    requires At(p, i, a + b)
    ensures At(p, i, a) && At(p, i + |a|, b)
  {
    assert p[i..i + |a|] == (a + b)[..|a|];
    assert p[i + |a|..i + |a| + |b|] == (a + b)[|a|..];
  }

  lemma AtByte(p: bytes, i: nat, e: bytes, k: nat)
    requires At(p, i, e) && k < |e|
    ensures i + k < |p| && p[i + k] == e[k]
  {
    assert p[i..i + |e|][k] == e[k];
  }

  lemma SkipScalar(p: bytes, i: nat, v: Amf, depth: nat)
    requires WellFormed(v) && At(p, i, Encode(v)) && !v.Object? && !v.EcmaArray? && !v.StrictArray?
    ensures Lands(Skip(p, i, depth), depth <= MAX_DEPTH, i + |Encode(v)|)
  {
    hide PutBE16, PutBE32;
    var e := Encode(v);
    AtByte(p, i, e, 0);
    if v.Str? {
      AtByte(p, i, e, 1); AtByte(p, i, e, 2);
    } else if v.LongStr? {
      AtByte(p, i, e, 1); AtByte(p, i, e, 2); AtByte(p, i, e, 3); AtByte(p, i, e, 4);
    }
  }

  // On the encoding of any value, the skipper succeeds exactly when the value nests within the
  // limit, and then stops exactly at its end.
  lemma {:induction false} SkipEncoded(p: bytes, i: nat, v: Amf, depth: nat)
    requires WellFormed(v) && At(p, i, Encode(v))
    ensures Lands(Skip(p, i, depth), depth + Depth(v) <= MAX_DEPTH, i + |Encode(v)|)
    decreases v, 0
  {
    hide SkipMembers, SkipElements, EncodeMembers, EncodeElements, PutBE16, PutBE32, At;
    hide MembersOk, ElementsOk, MembersDepth, ElementsDepth;
    var e := Encode(v);
    if depth > MAX_DEPTH {
    } else if v.Object? {
      AtPart(p, i, [OBJECT], EncodeMembers(v.members));
      AtByte(p, i, e, 0);
      SkipEncodedMembers(p, i + 1, v.members, depth);
    } else if v.EcmaArray? {
      assert e == ([ECMA_ARRAY] + v.count) + EncodeMembers(v.members);
      AtPart(p, i, [ECMA_ARRAY] + v.count, EncodeMembers(v.members));
      AtByte(p, i, e, 0);
      SkipEncodedMembers(p, i + 5, v.members, depth);
    } else if v.StrictArray? {
      AtPart(p, i, [STRICT_ARRAY] + PutBE32(|v.elements|), EncodeElements(v.elements));
      AtByte(p, i, e, 0); AtByte(p, i, e, 1); AtByte(p, i, e, 2); AtByte(p, i, e, 3); AtByte(p, i, e, 4);
      SkipEncodedElements(p, i + 5, v.elements, depth);
    } else {
      SkipScalar(p, i, v, depth);
    }
  }

  // Where the parts of a first member lie.
  lemma MemberBytes(p: bytes, i: nat, ms: seq<Member>)
    requires ms != [] && MembersOk(ms) && At(p, i, EncodeMembers(ms))
    ensures var n, e := |ms[0].key|, |Encode(ms[0].value)|;
      && i + 2 + n + e <= |p| && BE16(p[i], p[i + 1]) == n
      && At(p, i + 2 + n, Encode(ms[0].value))
      && At(p, i + 2 + n + e, EncodeMembers(ms[1..]))
      && |EncodeMembers(ms)| == 2 + n + e + |EncodeMembers(ms[1..])|
  {
    hide Encode, PutBE16, At, WellFormed, EncodeMembers;
    var key, v, rest := ms[0].key, Encode(ms[0].value), EncodeMembers(ms[1..]);
    var head := PutBE16(|key|) + key;
    MemberSplit(ms);
    AtPart(p, i, head, v + rest);
    AtPart(p, i + |head|, v, rest);
    AtByte(p, i, head, 0); AtByte(p, i, head, 1);
    AtLength(p, i + |head| + |v|, rest);
  }

  lemma MemberSplit(ms: seq<Member>)
    requires ms != []
    ensures var key, v, rest := ms[0].key, Encode(ms[0].value), EncodeMembers(ms[1..]);
      EncodeMembers(ms) == PutBE16(|key|) + key + (v + rest)
  {
    hide Encode, PutBE16;
    var key, v, rest := ms[0].key, Encode(ms[0].value), EncodeMembers(ms[1..]);
    assert PutBE16(|key|) + key + v + rest == PutBE16(|key|) + key + (v + rest);
  }

  lemma AtLength(p: bytes, i: nat, e: bytes)
    requires At(p, i, e)
    ensures i + |e| <= |p|
  {
  }

  lemma {:induction false} SkipEncodedMembers(p: bytes, i: nat, ms: seq<Member>, depth: nat)
    requires MembersOk(ms) && At(p, i, EncodeMembers(ms)) && depth <= MAX_DEPTH
    ensures Lands(SkipMembers(p, i, depth), depth + MembersDepth(ms) <= MAX_DEPTH, i + |EncodeMembers(ms)|)
    decreases ms, 1
  {
    hide Skip, Encode, PutBE16, At, Depth, WellFormed;
    if ms == [] {
      var e := EncodeMembers(ms);
      AtByte(p, i, e, 0); AtByte(p, i, e, 1); AtByte(p, i, e, 2);
    } else {
      MemberBytes(p, i, ms);
      var at := i + 2 + |ms[0].key|;
      SkipEncoded(p, at, ms[0].value, depth + 1);
      SkipEncodedMembers(p, at + |Encode(ms[0].value)|, ms[1..], depth);
    }
  }

  lemma {:induction false} SkipEncodedElements(p: bytes, i: nat, es: seq<Amf>, depth: nat)
    requires ElementsOk(es) && At(p, i, EncodeElements(es)) && depth <= MAX_DEPTH
    ensures Lands(SkipElements(p, i, |es|, depth), depth + ElementsDepth(es) <= MAX_DEPTH, i + |EncodeElements(es)|)
    decreases es, 1
  {
    hide Skip, Encode, Depth, WellFormed;
    if es != [] {
      AtPart(p, i, Encode(es[0]), EncodeElements(es[1..]));
      SkipEncoded(p, i, es[0], depth + 1);
      SkipEncodedElements(p, i + |Encode(es[0])|, es[1..], depth);
    }
  }

  // ---------------------------------------------------------------- what was skipped was a value

  lemma AtJoin(p: bytes, i: nat, a: bytes, b: bytes)
    requires At(p, i, a) && At(p, i + |a|, b)
    ensures At(p, i, a + b)
  {
    assert p[i..i + |a| + |b|] == p[i..i + |a|] + p[i + |a|..i + |a| + |b|];
  }

  lemma StringSound(p: bytes, i: nat, depth: nat) returns (v: Amf)
    requires Skip(p, i, depth).ok && p[i] in {STRING, LONG_STRING}
    ensures WellFormed(v) && Depth(v) == 0
    ensures At(p, i, Encode(v)) && Skip(p, i, depth).at == i + |Encode(v)|
  {
    hide PutBE16, PutBE32;
    var j, end := i + 1, Skip(p, i, depth).at;
    if p[i] == STRING {
      v := Str(p[j + 2..end]);
      Same16(p, j, |v.chars|);
    } else {
      v := LongStr(p[j + 4..end]);
      Same32(p, j, |v.chars|);
    }
  }

  lemma ScalarSound(p: bytes, i: nat, depth: nat) returns (v: Amf)
    requires Skip(p, i, depth).ok && p[i] !in {OBJECT, ECMA_ARRAY, STRICT_ARRAY}
    ensures WellFormed(v) && Depth(v) == 0
    ensures At(p, i, Encode(v)) && Skip(p, i, depth).at == i + |Encode(v)|
  {
    var j, m := i + 1, p[i];
    assert p[i..j] == [m];
    if m == NUMBER { v := Number(p[j..j + 8]); Tagged(p, i, j + 8); }
    else if m == BOOLEAN { v := Boolean(p[j]); assert p[i..j + 1] == [m, p[j]]; }
    else if m == STRING || m == LONG_STRING { v := StringSound(p, i, depth); }
    else if m == NULL { v := Null; }
    else if m == UNDEFINED { v := Undefined; }
    else if m == OBJECT_END { v := ObjectEnd; }
    else if m == REFERENCE { v := Reference(p[j..j + 2]); Tagged(p, i, j + 2); }
    else { v := Date(p[j..j + 10]); Tagged(p, i, j + 10); }
  }

  lemma Tagged(p: bytes, i: nat, k: nat)
    requires i < k <= |p|
    ensures At(p, i, [p[i]] + p[i + 1..k])
  {
    assert [p[i]] + p[i + 1..k] == p[i..k];
  }

  // Whatever bytes are skipped successfully are the encoding of some value within the limit.
  lemma {:induction false} SkipSound(p: bytes, i: nat, depth: nat) returns (v: Amf)
    requires Skip(p, i, depth).ok
    ensures WellFormed(v) && depth + Depth(v) <= MAX_DEPTH
    ensures At(p, i, Encode(v)) && Skip(p, i, depth).at == i + |Encode(v)|
    decreases |p| - i, 0
  {
    hide SkipMembers, SkipElements, EncodeMembers, EncodeElements, PutBE16, PutBE32;
    hide MembersOk, ElementsOk, MembersDepth, ElementsDepth;
    var j, m := i + 1, p[i];
    if m == OBJECT {
      var ms := SkipMembersSound(p, j, depth);
      v := Object(ms);
      assert At(p, i, [OBJECT]);
      AtJoin(p, i, [OBJECT], EncodeMembers(ms));
    } else if m == ECMA_ARRAY {
      var ms := SkipMembersSound(p, j + 4, depth);
      v := EcmaArray(p[j..j + 4], ms);
      assert At(p, i, [ECMA_ARRAY] + v.count);
      AtJoin(p, i, [ECMA_ARRAY] + v.count, EncodeMembers(ms));
    } else if m == STRICT_ARRAY {
      var es := SkipElementsSound(p, j + 4, BE32(p[j], p[j + 1], p[j + 2], p[j + 3]), depth);
      v := StrictArray(es);
      StrictSound(p, i, es);
    } else {
      v := ScalarSound(p, i, depth);
    }
  }

  lemma StrictSound(p: bytes, i: nat, es: seq<Amf>)
    requires i + 5 <= |p| && p[i] == STRICT_ARRAY && |es| == BE32(p[i + 1], p[i + 2], p[i + 3], p[i + 4])
    requires At(p, i + 5, EncodeElements(es))
    ensures At(p, i, Encode(StrictArray(es)))
  {
    hide EncodeElements, PutBE32;
    Same32(p, i + 1, |es|);
    assert At(p, i, [STRICT_ARRAY] + PutBE32(|es|));
    AtJoin(p, i, [STRICT_ARRAY] + PutBE32(|es|), EncodeElements(es));
  }

  lemma Same16(p: bytes, j: nat, n: nat)
    requires j + 2 <= |p| && n == BE16(p[j], p[j + 1])
    ensures PutBE16(n) == p[j..j + 2]
  {
    hide PutBE16;
    BE16Put(p[j], p[j + 1]);
  }

  lemma Same32(p: bytes, j: nat, n: nat)
    requires j + 4 <= |p| && n == BE32(p[j], p[j + 1], p[j + 2], p[j + 3])
    ensures PutBE32(n) == p[j..j + 4]
  {
    hide PutBE32;
    BE32Put(p[j], p[j + 1], p[j + 2], p[j + 3]);
  }

  lemma MemberJoin(p: bytes, i: nat, k: nat, ms: seq<Member>)
    requires ms != [] && i + 2 <= k <= |p| && BE16(p[i], p[i + 1]) == k - i - 2 && ms[0].key == p[i + 2..k]
    requires At(p, k, Encode(ms[0].value)) && At(p, k + |Encode(ms[0].value)|, EncodeMembers(ms[1..]))
    ensures At(p, i, EncodeMembers(ms))
    ensures |EncodeMembers(ms)| == k - i + |Encode(ms[0].value)| + |EncodeMembers(ms[1..])|
  {
    hide Encode, PutBE16, At, EncodeMembers;
    var v, rest, head := Encode(ms[0].value), EncodeMembers(ms[1..]), p[i..k];
    Same16(p, i, k - i - 2);
    assert head == PutBE16(|ms[0].key|) + ms[0].key;
    MemberSplit(ms);
    assert head + v + rest == head + (v + rest);
    AtHere(p, i, k);
    AtJoin(p, i, head, v);
    AtJoin(p, i, head + v, rest);
  }

  lemma AtHere(p: bytes, i: nat, k: nat)
    requires i <= k <= |p|
    ensures At(p, i, p[i..k])
  {
  }

  lemma {:induction false} SkipMembersSound(p: bytes, i: nat, depth: nat) returns (ms: seq<Member>)
    requires SkipMembers(p, i, depth).ok && depth <= MAX_DEPTH
    ensures MembersOk(ms) && depth + MembersDepth(ms) <= MAX_DEPTH
    ensures At(p, i, EncodeMembers(ms)) && SkipMembers(p, i, depth).at == i + |EncodeMembers(ms)|
    decreases |p| - i, 1
  {
    hide Skip, Encode, EncodeMembers, PutBE16, Depth, WellFormed, At;
    var klen := BE16(p[i], p[i + 1]);
    if klen == 0 {
      ms := [];
      NoMembers(p, i);
    } else {
      var k := i + 2 + klen;
      var r := Skip(p, k, depth + 1);
      var v := SkipSound(p, k, depth + 1);
      var rest := SkipMembersSound(p, r.at, depth);
      ms := [Member(p[i + 2..k], v)] + rest;
      assert ms[1..] == rest;
      MemberJoin(p, i, k, ms);
    }
  }

  lemma NoMembers(p: bytes, i: nat)
    requires i + 3 <= |p| && p[i] == p[i + 1] == 0 && p[i + 2] == OBJECT_END
    ensures |EncodeMembers([])| == 3 && At(p, i, EncodeMembers([]))
  {
    assert p[i..i + 3] == [0, 0, OBJECT_END];
  }

  lemma {:induction false} SkipElementsSound(p: bytes, i: nat, cnt: nat, depth: nat) returns (es: seq<Amf>)
    requires i <= |p| && SkipElements(p, i, cnt, depth).ok && depth <= MAX_DEPTH
    ensures |es| == cnt && ElementsOk(es) && depth + ElementsDepth(es) <= MAX_DEPTH
    ensures At(p, i, EncodeElements(es)) && SkipElements(p, i, cnt, depth).at == i + |EncodeElements(es)|
    decreases |p| - i, 1
  {
    hide Skip, Encode, Depth, WellFormed;
    if cnt == 0 {
      es := [];
    } else {
      var r := Skip(p, i, depth + 1);
      var v := SkipSound(p, i, depth + 1);
      var rest := SkipElementsSound(p, r.at, cnt - 1, depth);
      es := [v] + rest;
      assert es[1..] == rest;
    }
  }

  ghost predicate Encodes(p: bytes, i: nat, end: nat, v: Amf)
  {
    WellFormed(v) && At(p, i, Encode(v)) && end == i + |Encode(v)|
  }

  // The skipper accepts exactly the encodings of values nested no deeper than the limit allows.
  lemma SkipExactly(p: bytes, i: nat, depth: nat, end: nat)
    ensures Skip(p, i, depth) == Cursor(true, end)
      <==> exists v :: Encodes(p, i, end, v) && depth + Depth(v) <= MAX_DEPTH
  {
    hide Skip, Encode, Depth, WellFormed, At;
    if Skip(p, i, depth) == Cursor(true, end) {
      var v := SkipSound(p, i, depth);
      assert Encodes(p, i, end, v);
    }
    forall v | Encodes(p, i, end, v) && depth + Depth(v) <= MAX_DEPTH
      ensures Skip(p, i, depth) == Cursor(true, end)
    {
      SkipEncoded(p, i, v, depth);
    }
  }

  // ---------------------------------------------------------------- the program's loops

  method AmfSkip(p: bytes, start: nat, depth: nat) returns (ok: bool, i: nat)
    ensures Cursor(ok, i) == Skip(p, start, depth)
    decreases |p| - start, 0
  {
    hide SkipMembers;
    i := start;
    if depth > MAX_DEPTH || i >= |p| { return false, i; }
    var m := p[i];
    i := i + 1;
    if m == NUMBER { i := i + 8; return i <= |p|, i; }
    if m == BOOLEAN { i := i + 1; return i <= |p|, i; }
    if m == STRING {
      if i + 2 > |p| { return false, i; }
      i := i + 2 + BE16(p[i], p[i + 1]);
      return i <= |p|, i;
    }
    if m == LONG_STRING {
      if i + 4 > |p| { return false, i; }
      i := i + 4 + BE32(p[i], p[i + 1], p[i + 2], p[i + 3]);
      return i <= |p|, i;
    }
    if m == NULL || m == UNDEFINED { return true, i; }
    if m == REFERENCE { i := i + 2; return i <= |p|, i; }
    if m == DATE { i := i + 10; return i <= |p|, i; }
    if m == OBJECT { ok, i := AmfSkipObjectBody(p, i, depth); return; }
    if m == ECMA_ARRAY {
      i := i + 4;
      if i > |p| { return false, i; }
      ok, i := AmfSkipObjectBody(p, i, depth);
      return;
    }
    if m == STRICT_ARRAY {
      if i + 4 > |p| { return false, i; }
      var cnt := BE32(p[i], p[i + 1], p[i + 2], p[i + 3]);
      i := i + 4;
      if cnt > |p| { return false, i; }
      var k := 0;
      while k < cnt
        invariant k <= cnt && start < i <= |p|
        invariant Skip(p, start, depth) == SkipElements(p, i, cnt - k, depth)
      {
        ok, i := AmfSkip(p, i, depth + 1);
        if !ok { return false, i; }
        k := k + 1;
      }
      return true, i;
    }
    return m == OBJECT_END, i;
  }

  method AmfSkipObjectBody(p: bytes, start: nat, depth: nat) returns (ok: bool, i: nat)
    ensures Cursor(ok, i) == SkipMembers(p, start, depth)
    decreases |p| - start, 1
  {
    i := start;
    while true
      invariant start <= i
      invariant SkipMembers(p, start, depth) == SkipMembers(p, i, depth)
      decreases |p| - i
    {
      if i + 2 > |p| { return false, i; }
      var klen := BE16(p[i], p[i + 1]);
      i := i + 2;
      if klen == 0 {
        if i >= |p| || p[i] != OBJECT_END { return false, i; }
        return true, i + 1;
      }
      if i + klen > |p| { return false, i; }
      i := i + klen;
      ok, i := AmfSkip(p, i, depth + 1);
      if !ok { return false, i; }
    }
  }
}
