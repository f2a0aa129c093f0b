/** Strings as HTTP and RTSP requests carry them (httpreq.cpp): searching, percent-decoding, query values. */
module HttpQuery {
  import opened Bytes

  function Ascii(s: string): bytes
  {
    if s == "" then [] else [(s[0] as int) % 256] + Ascii(s[1..])
  }

  lemma {:induction false} AsciiLength(s: string)
    ensures |Ascii(s)| == |s|
  {
    if s != "" { AsciiLength(s[1..]); }
  }

  lemma {:induction false} AsciiIs(s: string, b: bytes)
    requires |s| == |b| && forall i | 0 <= i < |s| :: (s[i] as int) % 256 == b[i]
    ensures Ascii(s) == b
  {
    if s != "" {
      AsciiIs(s[1..], b[1..]);
      assert b == [b[0]] + b[1..];
    }
  }

  // The first c or d at or after a position; the length if there is none.
  function Find(s: bytes, c: byte, d: byte, at: nat): (r: nat)
    requires at <= |s|
    ensures at <= r <= |s|
    ensures r < |s| ==> s[r] == c || s[r] == d
    ensures forall k | at <= k < r :: s[k] != c && s[k] != d
    decreases |s| - at
  {
    if at == |s| || s[at] == c || s[at] == d then at else Find(s, c, d, at + 1)
  }

  function HexDigit(c: byte): (r: int)
    ensures -1 <= r < 16
  {
    if 48 <= c <= 57 then c - 48 else if 65 <= c <= 70 then c - 55 else if 97 <= c <= 102 then c - 87 else -1
  }

  // Plus is a blank; an escape that is no escape stays as it is.
  function UrlDecode(s: bytes): bytes
  {
    if s == [] then []
    else if s[0] == 43 then [32] + UrlDecode(s[1..])
    else if s[0] == 37 && |s| > 2 && HexDigit(s[1]) >= 0 && HexDigit(s[2]) >= 0 then
      [HexDigit(s[1]) * 16 + HexDigit(s[2])] + UrlDecode(s[3..])
    else [s[0]] + UrlDecode(s[1..])
  }

  datatype Credential = Absent | Present(value: bytes)

  // The first pair of a query whose name is among these, decoded.
  function QueryValue(q: bytes, at: nat, names: set<bytes>): Credential
    requires at <= |q|
    decreases |q| - at
  {
    var end := Find(q, 38, 38, at);
    var kv := q[at..end];
    var eq := Find(kv, 61, 61, 0);
    if eq < |kv| && kv[..eq] in names then Present(UrlDecode(kv[eq + 1..]))
    else if end == |q| then Absent
    else QueryValue(q, end + 1, names)
  }
}
