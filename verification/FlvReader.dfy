/**
  A reader of FLV files, independent of what writes them (Annex E of the Adobe Flash Video file format
  specification, version 10.1): the file header, then tags, each followed by its size.
 */
module FlvReader {
  import opened Bytes

  datatype Tag = Tag(kind: byte, ts: nat, payload: bytes)
  datatype Flv = NotFlv | Tags(tags: seq<Tag>)

  const TAG_HEADER := 11

  // Where the tag at the front ends, its size behind it included; 0 if there is no whole tag. A tag is a kind,
  // a 24-bit payload size, a timestamp in 24 bits and 8 more above them, stream id 0 and the payload.
  function TagEnd(b: bytes): (r: nat)
    ensures r == 0 || TAG_HEADER + 4 <= r <= |b|
  {
    if |b| < TAG_HEADER || BE24(b[8], b[9], b[10]) != 0 then 0
    else
      var end := TAG_HEADER + BE24(b[1], b[2], b[3]);
      if |b| < end + 4 || BE32(b[end], b[end + 1], b[end + 2], b[end + 3]) != end then 0 else end + 4
  }

  function FrontTag(b: bytes): Tag
    requires TagEnd(b) != 0
  {
    Tag(b[0], BE32(b[7], b[4], b[5], b[6]), b[TAG_HEADER..TagEnd(b) - 4])
  }

  function ReadTags(b: bytes): Flv
    decreases |b|
  {
    if b == [] then Tags([])
    else if TagEnd(b) == 0 then NotFlv
    else
      match ReadTags(b[TagEnd(b)..])
      case NotFlv => NotFlv
      case Tags(more) => Tags([FrontTag(b)] + more)
  }

  // "FLV", version 1, audio and video, a header of nine bytes, no tag before the first.
  function ReadFlv(b: bytes): Flv
  {
    if |b| < 13 || b[0] != 0x46 || b[1] != 0x4c || b[2] != 0x56 || b[3] != 1 || b[4] != 5 then NotFlv
    else if BE32(b[5], b[6], b[7], b[8]) != 9 || BE32(b[9], b[10], b[11], b[12]) != 0 then NotFlv
    else ReadTags(b[13..])
  }

  lemma FrontStays(b: bytes, w: bytes)
    requires TagEnd(b) != 0
    ensures TagEnd(b + w) == TagEnd(b) && FrontTag(b + w) == FrontTag(b)
  {
    hide BE24, BE32;
    var c := b + w;
    assert forall k | 0 <= k < |b| :: c[k] == b[k];
    assert c[TAG_HEADER..TagEnd(b) - 4] == b[TAG_HEADER..TagEnd(b) - 4];
  }

  lemma ReadFront(b: bytes)
    requires b != []
    ensures ReadTags(b).Tags? <==> TagEnd(b) != 0 && ReadTags(b[TagEnd(b)..]).Tags?
    ensures ReadTags(b).Tags? ==> ReadTags(b) == Tags([FrontTag(b)] + ReadTags(b[TagEnd(b)..]).tags)
  {
    hide TagEnd, FrontTag;
  }

  // Tags behind tags.
  lemma {:induction false} ReadOn(b: bytes, w: bytes)
    requires ReadTags(b).Tags? && ReadTags(w).Tags?
    ensures ReadTags(b + w) == Tags(ReadTags(b).tags + ReadTags(w).tags)
    decreases |b|
  {
    hide TagEnd, FrontTag, ReadTags;
    if b == [] {
      assert b + w == w;
      NoTags();
    } else {
      ReadFront(b);
      ReadOn(b[TagEnd(b)..], w);
      ReadPast(b, w);
    }
  }

  lemma NoTags()
    ensures ReadTags([]) == Tags([])
  {
  }

  lemma ReadPast(b: bytes, w: bytes)
    requires TagEnd(b) != 0 && ReadTags(b[TagEnd(b)..]).Tags? && ReadTags(w).Tags?
    requires ReadTags(b[TagEnd(b)..] + w) == Tags(ReadTags(b[TagEnd(b)..]).tags + ReadTags(w).tags)
    ensures ReadTags(b + w) == Tags(ReadTags(b).tags + ReadTags(w).tags)
  {
    hide TagEnd, FrontTag, ReadTags;
    FrontStays(b, w);
    var n, head := TagEnd(b), FrontTag(b);
    Behind(b, w, n);
    var more, after := ReadTags(b[n..]).tags, ReadTags(w).tags;
    ReadsAs(b, head, b[n..], more);
    ReadsAs(b + w, head, b[n..] + w, more + after);
    Assoc([head], more, after);
  }

  lemma Assoc(a: seq<Tag>, b: seq<Tag>, c: seq<Tag>)
    ensures a + (b + c) == (a + b) + c
  {
  }

  lemma Behind(b: bytes, w: bytes, n: nat)
    requires n <= |b|
    ensures (b + w)[n..] == b[n..] + w
  {
  }

  lemma ReadsAs(b: bytes, head: Tag, rest: bytes, more: seq<Tag>)
    requires TagEnd(b) != 0 && FrontTag(b) == head && b[TagEnd(b)..] == rest && ReadTags(rest) == Tags(more)
    ensures ReadTags(b) == Tags([head] + more)
  {
    hide TagEnd, FrontTag;
  }

  // Tags behind a file.
  lemma FileOn(b: bytes, w: bytes)
    requires ReadFlv(b).Tags? && ReadTags(w).Tags?
    ensures ReadFlv(b + w) == Tags(ReadFlv(b).tags + ReadTags(w).tags)
  {
    hide BE32, ReadTags;
    var c := b + w;
    assert forall k | 0 <= k < 13 :: c[k] == b[k];
    assert c[13..] == b[13..] + w;
    ReadOn(b[13..], w);
  }
}
