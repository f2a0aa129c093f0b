/**
  The WebSocket object as it is programmed (websocket.cpp): buffers that grow at the end and are
  erased at the front, payloads unmasked in place, an output queue that survives partial writes and,
  under TLS, keeps one record stable until it is taken.
 */
module WebSocketIo {
  import opened Bytes
  import opened Numbers
  import opened WebSocketFrames
  import opened WebSocketReceiver

  const RECORD := 16384

  // How the connection answers a write.
  datatype Write = Accepted(n: nat) | Blocked | Failed

  class WebSocket {
    const max: nat
    const tls: bool
    var alive: bool
    var rx: bytes
    var msg: bytes
    var msgTaken: nat
    var inFragment: bool
    var sentClose: bool
    var tx: bytes
    var txSent: nat
    var record: bytes
    var link: seq<Write>          // the answers to come
    ghost var queued: bytes       // every byte ever queued
    ghost var wire: bytes         // every byte the connection has accepted
    ghost var blocks: nat         // how often it would take no more
    ghost var fails: nat          // how often it broke

    // What the connection accepted and what is still queued are, in order, all that was queued.
    ghost predicate Valid()
      reads this
    {
      && txSent <= |tx| && wire + tx[txSent..] == queued
      && record <= tx[txSent..]
    }

    ghost function DecOf(): Dec
      reads this
    {
      Dec(msg, inFragment, queued, sentClose)
    }

    ghost function SocketOf(): Socket
      reads this
    {
      Socket(alive, rx, DecOf(), msgTaken)
    }

    constructor (maxMessage: nat, overTls: bool, answers: seq<Write>)
      ensures Valid() && SocketOf() == OPENED && max == maxMessage && tls == overTls && link == answers
      ensures wire == []
    {
      max, tls, alive := maxMessage, overTls, true;
      rx, msg, msgTaken, inFragment, sentClose := [], [], 0, false, false;
      tx, txSent, record, link := [], 0, [], answers;
      queued, wire, blocks, fails := [], [], 0, 0;
    }

    // What was queued has all been accepted, unless the connection would take no more or has ended.
    ghost predicate Pushed(before: nat)
      reads this
    {
      wire == queued || blocks > before || !alive
    }

    method QueueFrame(opcode: nat, data: bytes)
      requires Valid() && opcode < 16 && |data| < 0x1_0000_0000_0000_0000
      modifies `tx, `txSent, `queued
      ensures Valid() && queued == old(queued) + ServerFrame(opcode, data)
    {
      hide ServerFrame;
      if txSent > 0 && txSent == |tx| { tx, txSent := [], 0; }
      ghost var before := tx[txSent..];
      var f := ServerFrame(opcode, data);
      tx := tx + f;
      queued := queued + f;
      assert tx[txSent..] == before + f;
      assert wire + (before + f) == wire + before + f;
    }

    // The connection is offered bytes and answers; with no answers left it takes nothing.
    method Offer(data: bytes) returns (answer: Write)
      modifies `link, `wire, `blocks, `fails
      ensures answer.Accepted? ==> answer.n <= |data| && |link| < |old(link)|
      ensures wire == old(wire) + if answer.Accepted? && answer.n <= |data| then data[..answer.n] else []
      ensures blocks == old(blocks) + (if answer.Blocked? then 1 else 0)
      ensures fails == old(fails) + (if answer.Failed? then 1 else 0)
      ensures Failed !in old(link) ==> Failed !in link && !answer.Failed?
    {
      if link == [] { blocks := blocks + 1; return Blocked; }
      answer := link[0];
      link := link[1..];
      match answer
      case Accepted(n) =>
        var k := Min(n, |data|);
        wire := wire + data[..k];
        answer := Accepted(k);
      case Blocked => blocks := blocks + 1;
      case Failed => fails := fails + 1;
    }

    // Bytes behind the cursor that the connection has taken are passed over.
    lemma TakenOff(before: bytes, was: bytes, data: bytes, k: nat)
      requires before + was == queued && data <= was && k <= |data|
      ensures before + data[..k] + was[k..] == queued
    {
      assert was == data[..k] + was[k..];
    }

    // One write: under TLS of a record that stays the same until it is taken, else of all that is queued.
    method PushOnce() returns (answer: Write)
      requires Valid() && txSent < |tx|
      modifies `txSent, `record, `link, `wire, `blocks, `fails
      ensures Valid() && old(wire) <= wire
      ensures answer.Accepted? ==> |link| < |old(link)|
      ensures blocks == old(blocks) + (if answer.Blocked? then 1 else 0)
      ensures fails == old(fails) + (if answer.Failed? then 1 else 0)
      ensures Failed !in old(link) ==> Failed !in link && !answer.Failed?
    {
      if tls && record == [] { record := tx[txSent..txSent + Min(|tx| - txSent, RECORD)]; }
      var data := if tls then record else tx[txSent..];
      ghost var before, was := wire, tx[txSent..];
      answer := Offer(data);
      if answer.Accepted? {
        TakenOff(before, was, data, answer.n);
        record := [];
        txSent := txSent + answer.n;
        assert tx[txSent..] == was[answer.n..];
      }
    }

    // Push queued output until it is gone or the connection will take no more. Nothing is lost,
    // repeated or reordered, and a failure only ends the connection.
    method Flush() returns (ok: bool)
      requires Valid()
      modifies `tx, `txSent, `record, `link, `wire, `alive, `blocks, `fails
      ensures Valid() && old(wire) <= wire
      ensures ok ==> (tx == [] && wire == queued) || blocks > old(blocks)
      ensures !ok ==> fails > old(fails)
      ensures blocks >= old(blocks) && fails >= old(fails)
      ensures alive == old(alive) || fails > old(fails)
      ensures Failed !in old(link) ==> alive == old(alive) && ok && Failed !in link
      ensures alive ==> old(alive)
      ensures !ok ==> !alive
    {
      while txSent < |tx|
        invariant Valid() && old(wire) <= wire && alive == old(alive) && blocks == old(blocks) && fails == old(fails)
        invariant Failed !in old(link) ==> Failed !in link
        decreases |link|
      {
        var answer := PushOnce();
        if answer.Blocked? { return true; }
        if answer.Failed? {
          alive := false;
          return false;
        }
      }
      tx, txSent, record := [], 0, [];
      return true;
    }

    // Unmask a payload inside the receive buffer.
    method Unmask(at: nat, n: nat, mask: bytes)
      requires |mask| == 4 && at + n <= |rx|
      modifies `rx
      ensures rx == old(rx)[..at] + Masked(mask, old(rx)[at..at + n]) + old(rx)[at + n..]
    {
      hide Xor;
      ghost var was := rx;
      var i := 0;
      while i < n
        invariant i <= n && |rx| == |was|
        invariant forall j | 0 <= j < |was| && !(at <= j < at + i) :: rx[j] == was[j]
        invariant forall j | at <= j < at + i :: rx[j] == Xor(was[j], mask[(j - at) % 4])
      {
        rx := rx[at + i := Xor(rx[at + i], mask[i % 4])];
        i := i + 1;
      }
    }

    method UnmaskFrame(pos: nat, size: nat, len: nat) returns (data: bytes)
      requires pos + size + 4 + len <= |rx|
      modifies `rx
      ensures var b := old(rx)[pos..]; data == Masked(b[size..size + 4], b[size + 4..size + 4 + len])
      ensures |rx| == |old(rx)| && rx[pos + size + 4 + len..] == old(rx)[pos..][size + 4 + len..]
    {
      hide Masked;
      var mask, at := rx[pos + size..pos + size + 4], pos + size + 4;
      ghost var b := rx[pos..];
      assert mask == b[size..size + 4] && rx[at..at + len] == b[size + 4..size + 4 + len];
      assert rx[at + len..] == b[size + 4 + len..];
      Unmask(at, len, mask);
      data := rx[at..at + len];
    }

    method Dispatch(fin: bool, opcode: nat, data: bytes) returns (ok: bool)
      requires Valid() && opcode < 16 && (Control(opcode) ==> |data| <= 125)
      modifies `msg, `inFragment, `sentClose, `tx, `txSent, `record, `link, `wire, `queued, `alive, `blocks, `fails
      ensures Valid() && old(wire) <= wire
      ensures Act(max, old(DecOf()), fin, opcode, data) == if ok then Acted(DecOf()) else Stopped(DecOf())
      ensures (queued == old(queued) && wire == old(wire)) || Pushed(old(blocks))
      ensures blocks >= old(blocks) && fails >= old(fails) && (alive == old(alive) || fails > old(fails))
      ensures Failed !in old(link) ==> alive == old(alive) && Failed !in link
      ensures alive ==> old(alive)
    {
      hide ServerFrame;
      if opcode == CLOSE {
        if !sentClose {
          QueueFrame(CLOSE, data);
          sentClose := true;
          var _ := Flush();
        }
        return false;
      }
      if opcode == PING {
        QueueFrame(PONG, data);
        var _ := Flush();
      } else if opcode == PONG {
      } else if opcode == CONT {
        if !inFragment || |msg| + |data| > max { return false; }
        msg := msg + data;
        if fin { inFragment := false; }
      } else if opcode == TEXT || opcode == BINARY {
        if inFragment || |msg| + |data| > max { return false; }
        msg := msg + data;
        if !fin { inFragment := true; }
      } else {
        return false;
      }
      return true;
    }

    // Frames are taken from a cursor; what they occupied is erased once, at the end.
    method DecodeFrames() returns (ok: bool)
      requires Valid()
      modifies this
      ensures Valid() && old(wire) <= wire && msgTaken == old(msgTaken)
      ensures var r := DecodeAll(max, old(DecOf()), old(rx)); ok == r.ok && DecOf() == r.d && (ok ==> rx == r.rest)
      ensures (queued == old(queued) && wire == old(wire)) || Pushed(old(blocks))
      ensures blocks >= old(blocks) && fails >= old(fails) && (alive == old(alive) || fails > old(fails))
      ensures Failed !in old(link) ==> alive == old(alive) && Failed !in link
      ensures alive ==> old(alive)
    {
      hide ReadHead, Act, DecodeAll, Masked;
      ghost var goal := DecodeAll(max, DecOf(), rx);
      var pos := 0;
      assert rx[0..] == rx;
      while true
        invariant Valid() && old(wire) <= wire && msgTaken == old(msgTaken)
        invariant pos <= |rx| && DecodeAll(max, DecOf(), rx[pos..]) == goal
        invariant Failed !in old(link) ==> alive == old(alive) && Failed !in link
        invariant alive ==> old(alive)
        invariant (queued == old(queued) && wire == old(wire)) || Pushed(old(blocks))
        invariant blocks >= old(blocks) && fails >= old(fails) && (alive == old(alive) || fails > old(fails))
        decreases |rx| - pos
      {
        ghost var b := rx[pos..];
        DecodeStep(max, DecOf(), b);
        var head := ReadHead(max, rx[pos..]);
        if head.Short? { break; }
        if head.Bad? { return false; }
        var need := head.size + 4 + head.len;
        if |rx| - pos < need { break; }
        var data := UnmaskFrame(pos, head.size, head.len);
        assert rx[pos + need..] == b[need..];
        var go := Dispatch(head.fin, head.opcode, data);
        if !go { return false; }
        pos := pos + need;
      }
      rx := rx[pos..];
      return true;
    }

    // One recv call; `segment` is what a read would yield, empty if it would block.
    method Recv(n: nat, segment: bytes) returns (out: bytes)
      requires Valid() && (msgTaken < |msg| || msgTaken == 0)
      modifies this
      ensures Valid() && (msgTaken < |msg| || msgTaken == 0) && old(wire) <= wire
      ensures (queued == old(queued) && wire == old(wire)) || Pushed(old(blocks))
      ensures blocks >= old(blocks) && fails >= old(fails)
      ensures var r := WebSocketReceiver.Recv(max, old(SocketOf()), n, segment);
        && (Failed !in old(link) ==> alive == r.s.alive && Failed !in link)
        && (alive ==> r.s.alive)
        && out == r.out && DecOf() == r.s.dec
        && (r.s.alive ==> msgTaken == r.s.taken && rx == r.s.rx)
    {
      hide DecodeAll;
      out := [];
      if msgTaken < |msg| {
        out := TakeMessage(n);
        return;
      }
      if !alive { return; }
      if |rx| > max + 64 { alive := false; return; }
      rx := rx + segment;
      var ok := DecodeFrames();
      if !ok { alive := false; return; }
      if inFragment || msg == [] { return; }
      msgTaken := 0;
      out := TakeMessage(n);
    }

    method TakeMessage(n: nat) returns (out: bytes)
      requires Valid() && msgTaken <= |msg|
      modifies `msg, `msgTaken
      ensures Valid() && (msgTaken < |msg| || msgTaken == 0)
      ensures HandOut(old(SocketOf()), n) == Received(SocketOf(), out)
    {
      var avail := |msg| - msgTaken;
      var take := if n < avail then n else avail;
      out := msg[msgTaken..msgTaken + take];
      msgTaken := msgTaken + take;
      if msgTaken == |msg| { msg, msgTaken := [], 0; }
    }
  }

  // One turn of the decoding loop, in the terms the loop uses.
  lemma DecodeStep(max: nat, d: Dec, b: bytes)
    ensures var h, r := ReadHead(max, b), DecodeAll(max, d, b);
      && (h.Short? ==> r == Decoded(true, d, b))
      && (h.Bad? ==> r == Decoded(false, d, b))
      && (h.Head? && |b| < h.size + 4 + h.len ==> r == Decoded(true, d, b))
      && (h.Head? && |b| >= h.size + 4 + h.len ==>
            var need := h.size + 4 + h.len;
            match Act(max, d, h.fin, h.opcode, Masked(b[h.size..h.size + 4], b[h.size + 4..need]))
            case Stopped(e) => r == Decoded(false, e, b)
            case Acted(e) => r == DecodeAll(max, e, b[need..]))
  {
    hide ReadHead, Act, Masked;
  }
}
