/**
  The receiver as it is programmed: a bitmap grown in 64 KiB steps, an ACK queue, a NACK table walked
  in no particular order (binlog.cpp). Every method is tied to the step it performs in Binlog.
 */
module BinlogWriter {
  import opened Bytes
  import opened Numbers
  import opened Binlog

  const BITMAP_CHUNK := 65536

  // ---------------------------------------------------------------- one byte of the bitmap

  function Mask(i: nat): bv8
    requires i < 8
  {
    match i
    case 0 => 1 case 1 => 2 case 2 => 4 case 3 => 8
    case 4 => 16 case 5 => 32 case 6 => 64 case 7 => 128
  }

  predicate Bit(b: bv8, i: nat)
    requires i < 8
  {
    b & Mask(i) != 0
  }

  function SetBit(b: bv8, i: nat): bv8
    requires i < 8
  {
    b | Mask(i)
  }

  lemma BitOfSet(b: bv8, i: nat, j: nat)
    requires i < 8 && j < 8
    ensures Bit(SetBit(b, i), j) <==> i == j || Bit(b, j)
  {
  }

  lemma BitOfZero(i: nat)
    requires i < 8
    ensures !Bit(0, i)
  {
  }

  predicate SeenIn(bitmap: seq<bv8>, s: nat)
  {
    s / 8 < |bitmap| && Bit(bitmap[s / 8], s % 8)
  }

  function Rounded(want: nat): (r: nat)
    ensures want <= r < want + BITMAP_CHUNK && r % BITMAP_CHUNK == 0
  {
    (want + BITMAP_CHUNK - 1) / BITMAP_CHUNK * BITMAP_CHUNK
  }

  function Widened(bitmap: seq<bv8>, s: nat): (r: seq<bv8>)
    ensures s / 8 < |r|
  {
    if s / 8 < |bitmap| then bitmap else bitmap + seq(Rounded(s / 8 + 1) - |bitmap|, _ => 0)
  }

  function Marked(bitmap: seq<bv8>, s: nat): seq<bv8>
  {
    var w := Widened(bitmap, s);
    w[s / 8 := SetBit(w[s / 8], s % 8)]
  }

  // Marking a number adds that number and no other, however the bitmap has to grow for it.
  lemma MarkedSeen(bitmap: seq<bv8>, s: nat, t: nat)
    ensures SeenIn(Marked(bitmap, s), t) <==> s == t || SeenIn(bitmap, t)
  {
    hide Bit, SetBit;
    BitOfZero(t % 8);
    if t / 8 == s / 8 {
      BitOfSet(Widened(bitmap, s)[s / 8], s % 8, t % 8);
      assert t == 8 * (t / 8) + t % 8 && s == 8 * (s / 8) + s % 8;
    }
  }

  ghost predicate Denotes(bitmap: seq<bv8>, seen: set<nat>)
  {
    && (forall s: nat :: SeenIn(bitmap, s) <==> s in seen)
    && |bitmap| % BITMAP_CHUNK == 0
  }

  lemma MarkedDenotes(bitmap: seq<bv8>, seen: set<nat>, s: nat)
    requires Denotes(bitmap, seen)
    ensures Denotes(Marked(bitmap, s), seen + {s})
  {
    hide SeenIn, SetBit;
    forall t: nat ensures SeenIn(Marked(bitmap, s), t) <==> t in seen + {s} {
      MarkedSeen(bitmap, s, t);
    }
  }

  // ---------------------------------------------------------------- the receiver

  class BinlogWriter {
    const filter: nat
    var open: bool
    var disk: bytes
    var size: nat
    var bitmap: seq<bv8>
    ghost var seen: set<nat>
    var highest: u32
    var acks: seq<nat>
    var nacks: map<nat, Nack>
    var peer: Peer
    var pace: Pace

    // The bitmap is exactly the set it stands for.
    ghost predicate Valid()
      reads this
    {
      Denotes(bitmap, seen)
    }

    ghost function LogOf(): Log
      reads this
    {
      Log(disk, size, seen, highest, acks, nacks)
    }

    ghost function State(): Writer
      reads this
    {
      Writer(open, LogOf(), peer, pace)
    }

    constructor (fcSysid: nat)
      ensures Valid() && State() == IDLE && filter == fcSysid
    {
      filter := fcSysid;
      open, disk, size, bitmap, seen, highest := false, [], 0, [], {}, 0;
      acks, nacks := [], map[];
      peer, pace := Peer(false, 0, 0, 0), Pace(0, 0.0, 0.0);
    }

    method SeqnoSeen(s: nat) returns (r: bool)
      requires Valid()
      ensures r <==> s in seen
    {
      if s / 8 >= |bitmap| { return false; }
      r := Bit(bitmap[s / 8], s % 8);
    }

    method MarkSeqnoSeen(s: nat)
      requires Valid()
      modifies `bitmap, `seen
      ensures Valid() && seen == old(seen) + {s}
    {
      hide SeenIn, SetBit, Denotes;
      MarkedDenotes(bitmap, seen, s);
      bitmap := Widened(bitmap, s);
      bitmap := bitmap[s / 8 := SetBit(bitmap[s / 8], s % 8)];
      seen := seen + {s};
    }

    method QueueGapNacks(seqno: u32, now: real)
      requires Valid() && seqno > NextSeqno(highest)
      modifies `nacks
      ensures nacks == old(nacks) + GapsBefore(seen, old(nacks), highest, seqno, now)
    {
      hide Denotes, SeenIn, NextSeqno;
      ghost var was := nacks;
      var s: nat := NextSeqno(highest);
      while s < seqno
        invariant NextSeqno(highest) <= s <= seqno
        invariant nacks.Keys == was.Keys + set t | t in GapsBefore(seen, was, highest, seqno, now) && t < s
        invariant forall t | t in nacks :: nacks[t] == if t in was then was[t] else Nack(now, 0.0)
      {
        var r := SeqnoSeen(s);
        if !r && s !in nacks { nacks := nacks[s := Nack(now, 0.0)]; }
        s := s + 1;
      }
    }

    // Close the file and forget everything that belonged to it.
    method RotateForReboot()
      requires Valid()
      modifies this
      ensures Valid() && State() == Rotate(old(State()))
    {
      open, disk := false, [];
      bitmap, seen, highest := [], {}, 0;
      acks, nacks := [], map[];
      peer := peer.(bootMs := 0);
      pace := pace.(gated := 0, lastStart := 0.0);
    }

    method StoreBlock(seqno: u32, data: block, now: real)
      requires Valid()
      modifies this
      ensures Valid() && State() == old(State()).(log := Stored(old(LogOf()), seqno, data, now))
    {
      hide Patch, Denotes, GapsBefore, NextSeqno;
      disk := Patch(disk, BLOCK_BYTES * seqno, data);
      size := Max(size, BLOCK_BYTES * (seqno + 1));
      MarkSeqnoSeen(seqno);
      nacks := nacks - {seqno as nat};
      if seqno > NextSeqno(highest) { QueueGapNacks(seqno, now); } else { NoGaps(seen, nacks, highest, seqno, now); }
      if seqno >= highest { highest := seqno; }
      acks := acks + [seqno as nat];
    }

    method WriteBlock(seqno: u32, data: block, system: nat, component: nat, store: Store)
      requires Valid() && open
      modifies this
      ensures Valid() && State() == Write(old(State()), seqno, data, system, component, store)
    {
      hide Patch, Stored, Denotes;
      if Max(size, BLOCK_BYTES * (seqno + 1)) - size > MAX_FORWARD_JUMP { return; }
      if !store.room { return; }
      if !peer.streaming { peer := peer.(streaming := true, system := system, component := component); }
      if store.wrote < BLOCK_BYTES {
        disk := Patch(disk, BLOCK_BYTES * seqno, data[..store.wrote]);
        return;
      }
      StoreBlock(seqno, data, store.now);
    }

    method HandleBlock(seqno: u32, data: block, system: nat, component: nat, store: Store)
      requires Valid()
      modifies this
      ensures Valid()
      ensures State() == Step(old(State()), filter, Block(seqno, data, system, component, store))
    {
      hide Write, Denotes;
      if open && seqno == 0 && highest >= RESTART_MIN_HIGHEST { RotateForReboot(); }
      if !open {
        if seqno != 0 {
          if peer.system == 0 { peer := peer.(system := system, component := component); }
          if pace.gated < STOP_MIN_GATED { pace := pace.(gated := pace.gated + 1); }
          return;
        }
        if !store.opens { return; }
        open, disk, size := true, [], 0;
        pace := pace.(gated := 0);
      }
      WriteBlock(seqno, data, system, component, store);
    }

    method Observe(component: nat, system: nat, bootMs: u32)
      requires Valid()
      modifies this
      ensures Valid()
      ensures State() == Step(old(State()), filter, SystemTime(component, system, bootMs))
    {
      hide Denotes;
      if component != AUTOPILOT { return; }
      if filter != 0 && system != filter { return; }
      if peer.bootMs != 0 && (bootMs + REBOOT_BACKWARD_MS) % WORD <= peer.bootMs && open { RotateForReboot(); }
      peer := peer.(bootMs := bootMs);
    }

    method DropStaleNacks(now: real)
      requires Valid()
      modifies `nacks
      ensures nacks == Fresh(old(LogOf()), now)
    {
      hide Denotes;
      ghost var was := LogOf();
      var todo := nacks.Keys;
      while todo != {}
        invariant todo <= nacks.Keys <= was.nacks.Keys
        invariant forall s | s in nacks :: nacks[s] == was.nacks[s]
        invariant forall s | s in was.nacks && s !in todo :: s in nacks <==> !Stale(was, s, now)
        decreases |todo|
      {
        var s :| s in todo;
        var r := SeqnoSeen(s);
        if r || now - nacks[s].noticed > GIVEUP_S || (highest >= s && highest - s > GIVEUP_BLOCKS) {
          nacks := nacks - {s};
        }
        todo := todo - {s};
      }
    }

    // Ask for gaps in whatever order the table yields them, until ten have gone out.
    method AskForGaps(now: real, refused: set<nat>) returns (asked: seq<nat>)
      modifies `nacks
      ensures Asks(old(nacks), now, refused, asked)
      ensures nacks == Stamp(old(nacks), asked, now)
    {
      asked := [];
      ghost var was := nacks;
      var todo := nacks.Keys;
      while todo != {} && |asked| < MAX_NACKS_PER_TICK
        invariant todo <= was.Keys
        invariant nacks == Stamp(was, asked, now)
        invariant |asked| <= MAX_NACKS_PER_TICK
        invariant forall i, j | 0 <= i < j < |asked| :: asked[i] != asked[j]
        invariant forall s | s in asked :: s in was && s !in todo && s !in refused && Due(was[s], now)
        invariant forall s | s in was && s !in todo && s !in refused && Due(was[s], now) :: s in asked
        decreases |todo|
      {
        var s :| s in todo;
        todo := todo - {s};
        if (nacks[s].sent == 0.0 || now - nacks[s].sent >= NACK_REPEAT_S) && s !in refused {
          nacks := nacks[s := nacks[s].(sent := now)];
          asked := asked + [s];
        }
      }
    }

    method DrainAcks() returns (sent: seq<Packet>)
      modifies `acks
      ensures acks == [] && sent == Acks(old(acks))
    {
      sent := [];
      while acks != []
        invariant |sent| <= |old(acks)|
        invariant old(acks) == old(acks)[..|sent|] + acks
        invariant sent == Acks(old(acks)[..|sent|])
        decreases |acks|
      {
        sent := sent + [Ack(acks[0])];
        acks := acks[1..];
      }
    }

    method SendStop(now: real, ok: bool) returns (sent: seq<Packet>)
      modifies `pace
      ensures State() == Stopped(old(State()), now, ok)
      ensures sent == if WantsStop(old(State()), now) && ok then [Stop] else []
    {
      sent := [];
      if !open && pace.gated >= STOP_MIN_GATED && now - pace.lastStop >= STOP_REPEAT_S && ok {
        pace := pace.(lastStop := now, lastStart := 0.0);
        sent := [Stop];
      }
    }

    method SendStart(now: real, ok: bool) returns (sent: seq<Packet>)
      modifies `pace
      ensures State() == Started(old(State()), now, ok)
      ensures sent == if WantsStart(old(State()), now) && ok then [Start] else []
    {
      sent := [];
      if !peer.streaming {
        if now - pace.lastStart >= START_REPEAT_S && ok {
          pace := pace.(lastStart := now);
          sent := [Start];
        }
      } else if now - pace.lastStart >= START_KEEPALIVE_S && ok {
        pace := pace.(lastStart := now);
        sent := [Start];
      }
    }

    method Tick(now: real, stopOk: bool, startOk: bool, refused: set<nat>) returns (sent: seq<Packet>, asked: seq<nat>)
      requires Valid()
      modifies `acks, `nacks, `pace
      ensures Valid()
      ensures var e := Pump(now, stopOk, startOk, refused, asked);
        && Enabled(old(State()), e)
        && State() == Step(old(State()), filter, e)
        && sent == Sent(old(State()), e)
    {
      hide Denotes, Asks, Fresh, Stamp, Acks, Missings, WantsStop, WantsStart;
      asked := [];
      var stop := SendStop(now, stopOk);
      var start := SendStart(now, startOk);
      sent := stop + start;
      if peer.streaming && open {
        var acked := DrainAcks();
        ghost var l := LogOf();
        DropStaleNacks(now);
        assert nacks == Fresh(old(LogOf()), now) by {
          hide *;
          FreshIgnoresAcks(old(LogOf()), now);
          assert l == old(LogOf()).(acks := []);
        }
        asked := AskForGaps(now, refused);
        sent := sent + (acked + Missings(asked));
      }
    }
  }

  lemma NoGaps(seen: set<nat>, nacks: map<nat, Nack>, highest: u32, seqno: u32, now: real)
    requires seqno <= NextSeqno(highest)
    ensures nacks + GapsBefore(seen, nacks, highest, seqno, now) == nacks
  {
  }

  lemma FreshIgnoresAcks(l: Log, now: real)
    ensures Fresh(l.(acks := []), now) == Fresh(l, now)
  {
  }
}
