/**
  The circular buffer between a publisher and its viewers (videostream.cpp). It stands for the whole
  stream published so far, of which the last `capacity` bytes can still be read.
 */
module VideoRing {
  import opened Bytes
  import opened Numbers

  const MIN_CAPACITY := 4096

  function Capacity(size: nat): nat { if size < MIN_CAPACITY then MIN_CAPACITY else size }

  function Oldest(end: nat, cap: nat): nat { if end > cap then end - cap else 0 }

  predicate Resident(end: nat, cap: nat, pos: nat) { Oldest(end, cap) <= pos <= end }

  // What a read of the unbounded stream would give; nothing once the position is overwritten.
  function ReadStream(stream: bytes, cap: nat, pos: nat, n: nat): (r: bytes)
    ensures |r| <= n
    ensures r != [] ==> pos + |r| <= |stream| && r == stream[pos..pos + |r|]
  {
    if Resident(|stream|, cap, pos) && cap > 0 then stream[pos..pos + Min(n, |stream| - pos)] else []
  }

  // ---------------------------------------------------------------- positions and slots

  // Position p + i lies i slots after p, or wraps once.
  lemma Wraps(p: nat, i: nat, cap: nat)
    requires cap > 0 && i < cap
    ensures var s := p % cap; (p + i) % cap == if s + i < cap then s + i else s + i - cap
  {
    var q, s := p / cap, p % cap;
    assert p + i == q * cap + (s + i);
    if s + i < cap { ModIs(p + i, q, s + i, cap); } else {
      assert p + i == (q + 1) * cap + (s + i - cap);
      ModIs(p + i, q + 1, s + i - cap, cap);
    }
  }

  lemma ModIs(x: nat, q: nat, r: nat, cap: nat)
    requires cap > 0 && r < cap && x == q * cap + r
    ensures x % cap == r
  {
    var q2, r2 := x / cap, x % cap;
    assert x == q2 * cap + r2 && 0 <= r2 < cap;
    assert (q - q2) * cap == r2 - r;
    if q != q2 { NoMultiple(q - q2, cap, r2 - r); }
  }

  lemma NoMultiple(k: int, cap: int, d: int)
    requires k != 0 && cap > 0 && -cap < d < cap
    ensures k * cap != d
  {
    if k > 0 { assert k * cap >= cap; } else { assert k * cap <= -cap; }
  }

  // Two positions less than a capacity apart use different slots.
  lemma Distinct(p: nat, q: nat, cap: nat)
    requires cap > 0 && p < q < p + cap
    ensures p % cap != q % cap
  {
    Wraps(p, q - p, cap);
  }

  // Slots hold the resident part of the stream.
  ghost predicate Mirrors(slots: seq<byte>, stream: bytes)
  {
    |slots| > 0 ==> forall p | Oldest(|stream|, |slots|) <= p < |stream| :: slots[p % |slots|] == stream[p]
  }

  // Overwriting the slots after the end with new bytes, wrapping once, extends the stream.
  lemma MirrorsAppend(slots: seq<byte>, stream: bytes, data: bytes, next: seq<byte>)
    requires 0 < |data| <= |slots| == |next| && Mirrors(slots, stream)
    requires var cap, s := |slots|, |stream| % |slots|;
      forall k | 0 <= k < cap ::
        next[k] == if s <= k < s + |data| then data[k - s]
                   else if k + cap < s + |data| then data[k + cap - s] else slots[k]
    ensures Mirrors(next, stream + data)
  {
    var cap, end, both := |slots|, |stream|, stream + data;
    forall p | Oldest(|both|, cap) <= p < |both| ensures next[p % cap] == both[p] {
      var s := end % cap;
      if p >= end {
        Wraps(end, p - end, cap);
      } else {
        KeptSlot(end, p, |data|, cap);
        assert slots[p % cap] == stream[p];
      }
    }
  }

  // A slot that stays resident is not among those written.
  lemma KeptSlot(end: nat, p: nat, n: nat, cap: nat)
    requires cap > 0 && 0 < n <= cap && p < end && end + n <= p + cap
    ensures var s, k := end % cap, p % cap; !(s <= k < s + n) && !(k + cap < s + n)
  {
    var s, k := end % cap, p % cap;
    if s <= k < s + n {
      Wraps(end, k - s, cap);
      Distinct(p, end + (k - s), cap);
    } else if k + cap < s + n {
      Wraps(end, k + cap - s, cap);
      Distinct(p, end + (k + cap - s), cap);
    }
  }

  // A write of a whole capacity replaces every slot.
  lemma MirrorsFull(next: seq<byte>, stream: bytes, data: bytes)
    requires |data| == |next| > 0
    requires var cap, s := |next|, |stream| % |next|;
      forall k | 0 <= k < cap :: next[k] == if s <= k then data[k - s] else data[k + cap - s]
    ensures Mirrors(next, stream + data)
  {
    var cap, end, both := |next|, |stream|, stream + data;
    forall p | Oldest(|both|, cap) <= p < |both| ensures next[p % cap] == both[p] {
      Wraps(end, p - end, cap);
    }
  }

  // Two stretches of slots, the second from the start, are a stretch of the stream.
  lemma ReadBack(slots: seq<byte>, stream: bytes, pos: nat, n: nat)
    requires |slots| > 0 && Mirrors(slots, stream) && Resident(|stream|, |slots|, pos)
    requires 0 < n && pos + n <= |stream|
    ensures var cap, s := |slots|, pos % |slots|;
      var first := Min(cap - s, n);
      n - first <= s && slots[s..s + first] + slots[..n - first] == stream[pos..pos + n]
  {
    var cap, s := |slots|, pos % |slots|;
    var first := Min(cap - s, n);
    var r := slots[s..s + first] + slots[..n - first];
    forall i | 0 <= i < n ensures r[i] == stream[pos + i] {
      Wraps(pos, i, cap);
      assert slots[(pos + i) % cap] == stream[pos + i];
    }
  }

  // ---------------------------------------------------------------- as programmed

  class Ring {
    var buf: array<byte>
    var writePos: nat
    ghost var stream: bytes       // everything published since init

    ghost predicate Valid()
      reads this, buf
    {
      |stream| == writePos && Mirrors(buf[..], stream)
    }

    constructor ()
      ensures Valid() && buf.Length == 0 && stream == [] && fresh(buf)
    {
      buf, writePos, stream := new byte[0], 0, [];
    }

    method Init(size: nat)
      modifies this
      ensures Valid() && fresh(buf) && buf.Length == Capacity(size) && stream == []
    {
      var n := if size < MIN_CAPACITY then MIN_CAPACITY else size;
      buf := new byte[n](_ => 0);
      writePos, stream := 0, [];
    }

    // Only the tail of an oversized write can survive.
    method Publish(data: bytes)
      requires Valid()
      modifies this, buf
      ensures Valid() && buf == old(buf)
      ensures stream == old(stream) + (if buf.Length == 0 then [] else data)
    {
      var cap := buf.Length;
      if cap == 0 || data == [] { return; }
      if |data| >= cap {
        stream := stream + data[..|data| - cap];
        writePos := writePos + (|data| - cap);
        PutFull(data[|data| - cap..]);
        assert data == data[..|data| - cap] + data[|data| - cap..];
        assert old(stream) + data == old(stream) + data[..|data| - cap] + data[|data| - cap..];
      } else {
        PutPart(data);
      }
    }

    // Copy to the end of the buffer and, if that is not enough room, on from its start.
    method Copy(data: bytes)
      requires 0 < |data| <= buf.Length
      modifies buf
      ensures var cap, s := buf.Length, writePos % buf.Length;
        forall k | 0 <= k < cap ::
          buf[k] == if s <= k < s + |data| then data[k - s]
                    else if k + cap < s + |data| then data[k + cap - s] else old(buf[k])
    {
      var cap := buf.Length;
      var start := writePos % cap;
      var room := cap - start;
      var first := if room < |data| then room else |data|;
      forall i | start <= i < start + first { buf[i] := data[i - start]; }
      if |data| > first {
        forall i | 0 <= i < |data| - first { buf[i] := data[i + first]; }
      }
    }

    method PutPart(data: bytes)
      requires Valid() && 0 < |data| < buf.Length
      modifies this, buf
      ensures Valid() && buf == old(buf) && stream == old(stream) + data
    {
      ghost var was := buf[..];
      Copy(data);
      MirrorsAppend(was, stream, data, buf[..]);
      writePos := writePos + |data|;
      stream := stream + data;
    }

    method PutFull(data: bytes)
      requires |stream| == writePos && |data| == buf.Length > 0
      modifies this, buf
      ensures Valid() && buf == old(buf) && stream == old(stream) + data
    {
      Copy(data);
      MirrorsFull(buf[..], stream, data);
      writePos := writePos + |data|;
      stream := stream + data;
    }

    method OldestPos() returns (pos: nat)
      ensures pos == Oldest(writePos, buf.Length)
    {
      pos := if writePos > buf.Length then writePos - buf.Length else 0;
    }

    method IsResident(pos: nat) returns (r: bool)
      ensures r == Resident(writePos, buf.Length, pos)
    {
      var from := OldestPos();
      r := pos >= from && pos <= writePos;
    }

    // A read at any resident position returns the published bytes, across wraps and oversized writes.
    method ReadAt(pos: nat, n: nat) returns (out: bytes)
      requires Valid()
      ensures out == ReadStream(stream, buf.Length, pos, n)
    {
      hide Mirrors;
      var cap := buf.Length;
      var here := IsResident(pos);
      if cap == 0 || !here { return []; }
      var avail := if writePos - pos > n then n else writePos - pos;
      if avail == 0 { return []; }
      out := TakeSlots(pos, avail);
    }

    method TakeSlots(pos: nat, n: nat) returns (out: bytes)
      requires Valid() && buf.Length > 0 && Resident(writePos, buf.Length, pos) && 0 < n && pos + n <= writePos
      ensures out == stream[pos..pos + n]
    {
      hide Mirrors, Resident;
      var cap := buf.Length;
      ReadBack(buf[..], stream, pos, n);
      var start := pos % cap;
      var first := if cap - start < n then cap - start else n;
      assert buf[start..start + first] == buf[..][start..start + first];
      assert buf[..n - first] == buf[..][..n - first];
      out := buf[start..start + first];
      if n > first { out := out + buf[..n - first]; }
    }
  }
}
