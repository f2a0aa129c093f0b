/**
  The receiver of ArduPilot's "dataflash over MAVLink" stream (binlog.cpp, binlog.h).

  A vehicle sends numbered 200-byte blocks. Each is written at seqno * 200 in a sparse file and
  acknowledged; missing numbers are asked for again until the writer gives up on them; a reboot of
  the vehicle closes the file and waits for block 0 of the next log.

  `Step` is one event. `EveryRun` is what every run keeps, whatever the vehicle sends, however the
  file system answers and in whatever order the NACK table is walked.
 */
module Binlog {
  import opened Bytes
  import opened Numbers

  const BLOCK_BYTES := 200
  const MAX_NACKS_PER_TICK := 10
  const GIVEUP_BLOCKS := 200
  const GIVEUP_S := 60.0
  const NACK_REPEAT_S := 0.1
  const START_REPEAT_S := 1.0
  const START_KEEPALIVE_S := 5.0
  const STOP_REPEAT_S := 2.0
  const STOP_MIN_GATED := 3
  const REBOOT_BACKWARD_MS := 10000
  const RESTART_MIN_HIGHEST := 200
  const MAX_FORWARD_JUMP := 100 * 1024 * 1024
  const AUTOPILOT := 1
  const WORD := 0x1_0000_0000

  type u32 = x: int | 0 <= x < WORD
  type block = b: bytes | |b| == BLOCK_BYTES witness seq(BLOCK_BYTES, _ => 0)

  // When a gap was noticed, and when it was last asked for (0 for never).
  datatype Nack = Nack(noticed: real, sent: real)

  // What belongs to the file being written; all of it goes with the file.
  datatype Log = Log(disk: bytes, size: nat, seen: set<nat>, highest: u32, acks: seq<nat>, nacks: map<nat, Nack>)

  datatype Peer = Peer(streaming: bool, system: nat, component: nat, bootMs: u32)

  datatype Pace = Pace(gated: nat, lastStart: real, lastStop: real)

  datatype Writer = Writer(open: bool, log: Log, peer: Peer, pace: Pace)

  datatype Packet = Start | Stop | Ack(seqno: nat) | Missing(seqno: nat)

  const EMPTY_LOG := Log([], 0, {}, 0, [], map[])
  const IDLE := Writer(false, EMPTY_LOG, Peer(false, 0, 0, 0), Pace(0, 0.0, 0.0))

  // ---------------------------------------------------------------- the file

  // A write at an offset. A hole reads as zeros, and writing nothing leaves no trace.
  function Patch(disk: bytes, at: nat, data: bytes): (r: bytes)
    ensures |r| == if data == [] then |disk| else Max(|disk|, at + |data|)
  {
    if data == [] then disk
    else if |disk| <= at then disk + seq(at - |disk|, _ => 0) + data
    else disk[..at] + data + disk[Min(at + |data|, |disk|)..]
  }

  predicate Holds(disk: bytes, seqno: nat, data: bytes)
    requires |data| == BLOCK_BYTES
  {
    && BLOCK_BYTES * (seqno + 1) <= |disk|
    && disk[BLOCK_BYTES * seqno..BLOCK_BYTES * (seqno + 1)] == data
  }

  // Byte by byte: the written stretch takes the new bytes, and nothing else changes.
  lemma PatchByte(disk: bytes, at: nat, data: bytes, k: nat)
    requires k < |Patch(disk, at, data)| && (k < |disk| || at <= k)
    ensures Patch(disk, at, data)[k] == if at <= k < at + |data| then data[k - at] else disk[k]
  {
  }

  // ---------------------------------------------------------------- data blocks

  function NextSeqno(h: u32): u32 { (h + 1) % WORD }

  // Every unseen number between the highest seen so far and a block that jumped ahead of it.
  function GapsBefore(seen: set<nat>, nacks: map<nat, Nack>, highest: u32, seqno: u32, now: real): map<nat, Nack>
  {
    if seqno > NextSeqno(highest) then
      map s: nat | NextSeqno(highest) <= s < seqno && s !in seen && s !in nacks :: Nack(now, 0.0)
    else map[]
  }

  function Grown(l: Log, seqno: u32): nat { Max(l.size, BLOCK_BYTES * (seqno + 1)) }

  // A whole block reached the file.
  function Stored(l: Log, seqno: u32, data: block, now: real): Log
  {
    var seen, nacks := l.seen + {seqno as nat}, l.nacks - {seqno as nat};
    Log(Patch(l.disk, BLOCK_BYTES * seqno, data), Grown(l, seqno), seen, Max(l.highest, seqno),
        l.acks + [seqno as nat], nacks + GapsBefore(seen, nacks, l.highest, seqno, now))
  }

  // Only the first n bytes did, or none: no acknowledgement, so the vehicle sends it again.
  function Cut(l: Log, seqno: u32, data: block, n: nat): Log
    requires n <= BLOCK_BYTES
  {
    l.(disk := Patch(l.disk, BLOCK_BYTES * seqno, data[..n]))
  }

  // How the file system answers: can the file be created, is there quota, how much was written.
  datatype Store = Store(opens: bool, room: bool, wrote: nat, now: real)

  function Rotate(w: Writer): Writer
  {
    Writer(false, EMPTY_LOG.(size := w.log.size), w.peer.(bootMs := 0), w.pace.(gated := 0, lastStart := 0.0))
  }

  predicate Restarts(w: Writer, seqno: u32)
  {
    w.open && seqno == 0 && w.log.highest >= RESTART_MIN_HIGHEST
  }

  function Refuse(w: Writer, system: nat, component: nat): Writer
  {
    w.(peer := if w.peer.system == 0 then w.peer.(system := system, component := component) else w.peer,
       pace := w.pace.(gated := if w.pace.gated < STOP_MIN_GATED then w.pace.gated + 1 else w.pace.gated))
  }

  function Opened(w: Writer): Writer
  {
    w.(open := true, log := w.log.(disk := [], size := 0), pace := w.pace.(gated := 0))
  }

  function Latched(p: Peer, system: nat, component: nat): Peer
  {
    if p.streaming then p else p.(streaming := true, system := system, component := component)
  }

  // The block is dropped without a trace: too far ahead, or no quota left.
  predicate Dropped(l: Log, seqno: u32, store: Store)
  {
    Grown(l, seqno) - l.size > MAX_FORWARD_JUMP || !store.room
  }

  function Write(w: Writer, seqno: u32, data: block, system: nat, component: nat, store: Store): Writer
  {
    if Dropped(w.log, seqno, store) then w
    else w.(peer := Latched(w.peer, system, component),
            log := if store.wrote >= BLOCK_BYTES then Stored(w.log, seqno, data, store.now)
                   else Cut(w.log, seqno, data, store.wrote))
  }

  function HandleBlock(w: Writer, seqno: u32, data: block, system: nat, component: nat, store: Store): Writer
  {
    var r := if Restarts(w, seqno) then Rotate(w) else w;
    if r.open then Write(r, seqno, data, system, component, store)
    else if seqno != 0 then Refuse(r, system, component)
    else if !store.opens then r
    else Write(Opened(r), seqno, data, system, component, store)
  }

  // ---------------------------------------------------------------- reboots seen in SYSTEM_TIME

  // The sum is a 32-bit one.
  predicate JumpsBack(last: u32, bootMs: u32)
  {
    last != 0 && (bootMs + REBOOT_BACKWARD_MS) % WORD <= last
  }

  predicate Watched(filter: nat, component: nat, system: nat)
  {
    component == AUTOPILOT && (filter == 0 || system == filter)
  }

  function Observe(w: Writer, filter: nat, component: nat, system: nat, bootMs: u32): Writer
  {
    if !Watched(filter, component, system) then w
    else
      var r := if JumpsBack(w.peer.bootMs, bootMs) && w.open then Rotate(w) else w;
      r.(peer := r.peer.(bootMs := bootMs))
  }

  // ---------------------------------------------------------------- the periodic pump

  predicate Stale(l: Log, s: nat, now: real)
    requires s in l.nacks
  {
    || s in l.seen
    || now - l.nacks[s].noticed > GIVEUP_S
    || l.highest - s > GIVEUP_BLOCKS
  }

  function Fresh(l: Log, now: real): map<nat, Nack>
  {
    map s | s in l.nacks && !Stale(l, s, now) :: l.nacks[s]
  }

  predicate Due(n: Nack, now: real) { n.sent == 0.0 || now - n.sent >= NACK_REPEAT_S }

  // Which gaps a tick may ask for: distinct, due, at most ten, and none passed over while there is budget.
  ghost predicate Asks(nacks: map<nat, Nack>, now: real, refused: set<nat>, asked: seq<nat>)
  {
    && |asked| <= MAX_NACKS_PER_TICK
    && (forall i, j | 0 <= i < j < |asked| :: asked[i] != asked[j])
    && (forall s | s in asked :: s in nacks && s !in refused && Due(nacks[s], now))
    && (|asked| < MAX_NACKS_PER_TICK ==> forall s | s in nacks && s !in refused && Due(nacks[s], now) :: s in asked)
  }

  function Stamp(nacks: map<nat, Nack>, asked: seq<nat>, now: real): map<nat, Nack>
  {
    map s | s in nacks :: if s in asked then nacks[s].(sent := now) else nacks[s]
  }

  predicate WantsStop(w: Writer, now: real)
  {
    !w.open && w.pace.gated >= STOP_MIN_GATED && now - w.pace.lastStop >= STOP_REPEAT_S
  }

  function Stopped(w: Writer, now: real, sent: bool): Writer
  {
    if WantsStop(w, now) && sent then w.(pace := w.pace.(lastStop := now, lastStart := 0.0)) else w
  }

  predicate WantsStart(w: Writer, now: real)
  {
    now - w.pace.lastStart >= if w.peer.streaming then START_KEEPALIVE_S else START_REPEAT_S
  }

  function Started(w: Writer, now: real, sent: bool): Writer
  {
    if WantsStart(w, now) && sent then w.(pace := w.pace.(lastStart := now)) else w
  }

  function Paced(w: Writer, now: real, stopSent: bool, startSent: bool): Writer
  {
    Started(Stopped(w, now, stopSent), now, startSent)
  }

  predicate Serves(w: Writer) { w.open && w.peer.streaming }

  function Tick(w: Writer, now: real, stopSent: bool, startSent: bool, asked: seq<nat>): Writer
  {
    var p := Paced(w, now, stopSent, startSent);
    if Serves(w) then p.(log := p.log.(acks := [], nacks := Stamp(Fresh(w.log, now), asked, now))) else p
  }

  // ---------------------------------------------------------------- one step

  datatype Event =
    | Block(seqno: u32, data: block, system: nat, component: nat, store: Store)
    | SystemTime(component: nat, system: nat, bootMs: u32)
    | Pump(now: real, stopSent: bool, startSent: bool, refused: set<nat>, asked: seq<nat>)

  ghost predicate Enabled(w: Writer, e: Event)
  {
    e.Pump? ==> if Serves(w) then Asks(Fresh(w.log, e.now), e.now, e.refused, e.asked) else e.asked == []
  }

  function Step(w: Writer, filter: nat, e: Event): Writer
  {
    match e
    case Block(seqno, data, system, component, store) => HandleBlock(w, seqno, data, system, component, store)
    case SystemTime(component, system, bootMs) => Observe(w, filter, component, system, bootMs)
    case Pump(now, stopSent, startSent, _, asked) => Tick(w, now, stopSent, startSent, asked)
  }

  function Sent(w: Writer, e: Event): seq<Packet>
  {
    if e.Pump? then
      (if WantsStop(w, e.now) && e.stopSent then [Stop] else [])
      + (if WantsStart(Stopped(w, e.now, e.stopSent), e.now) && e.startSent then [Start] else [])
      + (if Serves(w) then Acks(w.log.acks) + Missings(e.asked) else [])
    else []
  }

  function Acks(s: seq<nat>): (r: seq<Packet>) { seq(|s|, i requires 0 <= i < |s| => Ack(s[i])) }

  function Missings(s: seq<nat>): (r: seq<Packet>) { seq(|s|, i requires 0 <= i < |s| => Missing(s[i])) }
}
