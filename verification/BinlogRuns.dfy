/** What every run of the binlog receiver keeps. */
module BinlogRuns {
  import opened Bytes
  import opened Numbers
  import opened Binlog

  // Why a missing block was given up: how long it had been missing, or how far behind it had fallen.
  datatype Loss = Loss(noticed: real, at: real, highest: nat)

  // One write that reached the open file: n bytes of the block, all of it if n is 200 or more.
  datatype Attempt = Attempt(seqno: nat, data: block, n: nat)

  // The history of a run. It is read off the events; the receiver keeps none of it.
  //   writes  - the writes to the open file, oldest first
  //   lost    - numbers given up
  //   closed  - the files closed by rotations, oldest first
  datatype History = History(writes: seq<Attempt>, lost: map<nat, Loss>, closed: seq<bytes>)

  datatype World = World(w: Writer, h: History)

  const FIRST := World(IDLE, History([], map[], []))

  // ---------------------------------------------------------------- what the writes amount to

  // The last block written whole under each number.
  ghost function Wholes(ws: seq<Attempt>): map<nat, block>
  {
    if ws == [] then map[]
    else
      var a := ws[|ws| - 1];
      if a.n >= BLOCK_BYTES then Wholes(ws[..|ws| - 1])[a.seqno := a.data] else Wholes(ws[..|ws| - 1])
  }

  // Byte i of a block according to the last write under that number that got as far; -1 if none did.
  ghost function LastByte(ws: seq<Attempt>, s: nat, i: nat): int
    requires i < BLOCK_BYTES
  {
    if ws == [] then -1
    else
      var a := ws[|ws| - 1];
      if a.seqno == s && i < a.n then a.data[i] else LastByte(ws[..|ws| - 1], s, i)
  }

  // No later short write changed a byte of what was last written whole.
  ghost predicate Intact(ws: seq<Attempt>, s: nat)
  {
    s in Wholes(ws) && forall i | 0 <= i < BLOCK_BYTES :: LastByte(ws, s, i) == Wholes(ws)[s][i]
  }

  lemma Wrote(ws: seq<Attempt>, a: Attempt)
    ensures Wholes(ws + [a]) == if a.n >= BLOCK_BYTES then Wholes(ws)[a.seqno := a.data] else Wholes(ws)
    ensures forall s: nat, i | 0 <= i < BLOCK_BYTES ::
      LastByte(ws + [a], s, i) == if a.seqno == s && i < a.n then a.data[i] else LastByte(ws, s, i)
  {
    assert (ws + [a])[..|ws + [a]| - 1] == ws;
  }

  ghost predicate Rotates(w: Writer, filter: nat, e: Event)
  {
    match e
    case Block(seqno, _, _, _, _) => Restarts(w, seqno)
    case SystemTime(component, system, bootMs) =>
      Watched(filter, component, system) && JumpsBack(w.peer.bootMs, bootMs) && w.open
    case Pump(_, _, _, _, _) => false
  }

  ghost function Closed(x: World, filter: nat, e: Event): History
  {
    if Rotates(x.w, filter, e) then History([], map[], x.h.closed + [x.w.log.disk]) else x.h
  }

  // Does the block get as far as the write, and into which log?
  ghost predicate Reaches(w: Writer, seqno: u32, store: Store)
  {
    var r := Base(w, seqno);
    (r.open || (seqno == 0 && store.opens)) && !Dropped(Target(r), seqno, store)
  }

  ghost function Base(w: Writer, seqno: u32): Writer { if Restarts(w, seqno) then Rotate(w) else w }

  ghost function Target(r: Writer): Log { if r.open then r.log else Opened(r).log }

  ghost function Recorded(h: History, l: Log, seqno: u32, data: block, store: Store): History
  {
    var g := h.(writes := h.writes + [Attempt(seqno, data, store.wrote)]);
    if store.wrote >= BLOCK_BYTES then
      g.(lost := h.lost - {seqno as nat} - Noticed(l, seqno, store.now))
    else g
  }

  // The numbers first missed when this block arrives.
  ghost function Noticed(l: Log, seqno: u32, now: real): set<nat>
  {
    GapsBefore(l.seen + {seqno as nat}, l.nacks - {seqno as nat}, l.highest, seqno, now).Keys
  }

  ghost function GivenUp(l: Log, now: real): map<nat, Loss>
  {
    map s | s in l.nacks && s !in l.seen && Stale(l, s, now) :: Loss(l.nacks[s].noticed, now, l.highest)
  }

  ghost function Witness(x: World, filter: nat, e: Event): History
  {
    var h := Closed(x, filter, e);
    match e
    case Block(seqno, data, _, _, store) =>
      if Reaches(x.w, seqno, store) then Recorded(h, Target(Base(x.w, seqno)), seqno, data, store) else h
    case SystemTime(_, _, _) => h
    case Pump(now, _, _, _, _) => if Serves(x.w) then h.(lost := h.lost + GivenUp(x.w.log, now)) else h
  }

  ghost function Next(x: World, filter: nat, e: Event): World
  {
    World(Step(x.w, filter, e), Witness(x, filter, e))
  }

  ghost function Run(x: World, filter: nat, es: seq<Event>): World
    decreases |es|
  {
    if es == [] then x else Run(Next(x, filter, es[0]), filter, es[1..])
  }

  // ---------------------------------------------------------------- the invariant

  // A block of the file, byte for byte what the writes left there.
  ghost predicate BlockIs(disk: bytes, ws: seq<Attempt>, s: nat)
  {
    && BLOCK_BYTES * (s + 1) <= |disk|
    && forall i | 0 <= i < BLOCK_BYTES :: disk[BLOCK_BYTES * s + i] == LastByte(ws, s, i)
  }

  // The bitmap is the set of numbers written whole, and every such block is what the writes left there.
  ghost predicate Kept(l: Log, h: History)
  {
    && l.seen == Wholes(h.writes).Keys
    && (forall s | s in l.seen :: BlockIs(l.disk, h.writes, s))
    && (forall s | s in l.acks :: s in l.seen)
  }

  // The file is as long as the highest number demands.
  ghost predicate Sized(l: Log)
  {
    && l.size == (if l.seen == {} then 0 else BLOCK_BYTES * (l.highest + 1))
    && l.size <= |l.disk|
    && (forall s | s in l.seen :: s <= l.highest)
    && (l.seen != {} ==> (l.highest as nat) in l.seen)
    && (l.seen == {} ==> l.highest == 0 && l.nacks == map[])
  }

  // Numbers 1 to the highest are written, asked for or given up, and no number is two of these.
  ghost predicate Accounted(l: Log, h: History)
  {
    && l.nacks.Keys !! l.seen
    && h.lost.Keys !! l.seen
    && h.lost.Keys !! l.nacks.Keys
    && (forall s | s in l.nacks :: s < l.highest)
    && (forall s | s in h.lost :: s < l.highest)
    && (forall s: nat | 1 <= s <= l.highest :: s in l.seen || s in l.nacks || s in h.lost)
  }

  // Nothing is given up before a minute has passed or two hundred later blocks have come.
  ghost predicate Excused(h: History)
  {
    forall s | s in h.lost ::
      h.lost[s].at - h.lost[s].noticed > 60.0 || h.lost[s].highest - s > 200
  }

  ghost predicate LogInv(l: Log, h: History)
  {
    Kept(l, h) && Sized(l) && Accounted(l, h) && Excused(h)
  }

  // Before a file is opened, and after one is closed, nothing is remembered of any log.
  ghost predicate Inv(x: World)
  {
    if x.w.open then LogInv(x.w.log, x.h)
    else x.w.log == EMPTY_LOG.(size := x.w.log.size) && x.h == History([], map[], x.h.closed)
  }

  lemma PatchKeeps(disk: bytes, ws: seq<Attempt>, a: Attempt, s: nat)
    requires BlockIs(disk, ws, s) || (s == a.seqno && a.n >= BLOCK_BYTES)
    ensures BlockIs(Patch(disk, BLOCK_BYTES * a.seqno, a.data[..Min(a.n, BLOCK_BYTES)]), ws + [a], s)
  {
    hide Patch;
    var part := a.data[..Min(a.n, BLOCK_BYTES)];
    var r := Patch(disk, BLOCK_BYTES * a.seqno, part);
    Wrote(ws, a);
    forall i | 0 <= i < BLOCK_BYTES
      ensures BLOCK_BYTES * s + i < |r| && r[BLOCK_BYTES * s + i] == LastByte(ws + [a], s, i)
    {
      PatchByte(disk, BLOCK_BYTES * a.seqno, part, BLOCK_BYTES * s + i);
    }
  }

  lemma StoredKept(l: Log, h: History, seqno: u32, data: block, store: Store)
    requires LogInv(l, h) && store.wrote >= BLOCK_BYTES
    ensures Kept(Stored(l, seqno, data, store.now), Recorded(h, l, seqno, data, store))
  {
    hide GapsBefore, Accounted, Excused, Patch, BlockIs, Wholes;
    var a := Attempt(seqno, data, store.wrote);
    Wrote(h.writes, a);
    assert data[..BLOCK_BYTES] == data;
    forall s | s in l.seen + {seqno as nat}
      ensures BlockIs(Patch(l.disk, BLOCK_BYTES * seqno, data), h.writes + [a], s)
    {
      PatchKeeps(l.disk, h.writes, a, s);
    }
  }

  lemma StoredAccounted(l: Log, h: History, seqno: u32, data: block, store: Store)
    requires LogInv(l, h) && store.wrote >= BLOCK_BYTES
    ensures Sized(Stored(l, seqno, data, store.now))
    ensures Accounted(Stored(l, seqno, data, store.now), Recorded(h, l, seqno, data, store))
    ensures Excused(Recorded(h, l, seqno, data, store))
  {
    hide Patch, BlockIs, Kept, Wholes;
  }

  lemma CutKept(l: Log, h: History, seqno: u32, data: block, store: Store)
    requires LogInv(l, h) && store.wrote < BLOCK_BYTES
    ensures LogInv(Cut(l, seqno, data, store.wrote), Recorded(h, l, seqno, data, store))
  {
    hide Patch, BlockIs, Wholes, Accounted, Excused;
    var a := Attempt(seqno, data, store.wrote);
    Wrote(h.writes, a);
    forall s | s in l.seen
      ensures BlockIs(Patch(l.disk, BLOCK_BYTES * seqno, data[..store.wrote]), h.writes + [a], s)
    {
      PatchKeeps(l.disk, h.writes, a, s);
    }
    CutAccounted(l, h, seqno, data, store);
  }

  lemma CutAccounted(l: Log, h: History, seqno: u32, data: block, store: Store)
    requires LogInv(l, h) && store.wrote < BLOCK_BYTES
    ensures Accounted(Cut(l, seqno, data, store.wrote), Recorded(h, l, seqno, data, store))
    ensures Excused(Recorded(h, l, seqno, data, store))
  {
    hide Patch, Kept;
  }

  lemma WriteKeeps(w: Writer, h: History, e: Event)
    requires e.Block? && w.open && LogInv(w.log, h)
    ensures var v := Write(w, e.seqno, e.data, e.system, e.component, e.store);
      var g := if Dropped(w.log, e.seqno, e.store) then h else Recorded(h, w.log, e.seqno, e.data, e.store);
      v.open && LogInv(v.log, g)
  {
    hide LogInv, Stored, Cut, Recorded;
    if e.store.wrote >= BLOCK_BYTES {
      StoredKept(w.log, h, e.seqno, e.data, e.store);
      StoredAccounted(w.log, h, e.seqno, e.data, e.store);
      Together(Stored(w.log, e.seqno, e.data, e.store.now), Recorded(h, w.log, e.seqno, e.data, e.store));
    } else {
      CutKept(w.log, h, e.seqno, e.data, e.store);
    }
  }

  lemma Together(l: Log, h: History)
    requires Kept(l, h) && Sized(l) && Accounted(l, h) && Excused(h)
    ensures LogInv(l, h)
  {
  }

  lemma EmptyInv(h: History)
    requires h == History([], map[], h.closed)
    ensures LogInv(EMPTY_LOG, h)
  {
  }

  lemma BlockKeeps(x: World, filter: nat, e: Event)
    requires Inv(x) && e.Block?
    ensures Inv(Next(x, filter, e))
  {
    hide LogInv, Write, Recorded, Dropped;
    var r := Base(x.w, e.seqno);
    var h := Closed(x, filter, e);
    if r.open {
      WriteKeeps(r, h, e);
    } else if e.seqno == 0 && e.store.opens {
      EmptyInv(h);
      WriteKeeps(Opened(r), h, e);
    }
  }

  // The log and the losses after a tick has dropped what it gives up and asked for some of the rest.
  ghost function Pumped(l: Log, now: real, asked: seq<nat>): Log
  {
    l.(acks := [], nacks := Stamp(Fresh(l, now), asked, now))
  }

  lemma PumpedKeeps(l: Log, h: History, now: real, asked: seq<nat>)
    requires LogInv(l, h)
    ensures LogInv(Pumped(l, now, asked), h.(lost := h.lost + GivenUp(l, now)))
  {
    hide BlockIs, Wholes, Stale, Excused;
    var g := h.(lost := h.lost + GivenUp(l, now));
    assert Pumped(l, now, asked).nacks.Keys <= l.nacks.Keys;
    GivenUpExcused(l, h, now);
  }

  lemma GivenUpExcused(l: Log, h: History, now: real)
    requires Excused(h)
    ensures Excused(h.(lost := h.lost + GivenUp(l, now)))
  {
  }

  lemma PumpKeeps(x: World, filter: nat, e: Event)
    requires Inv(x) && e.Pump?
    ensures Inv(Next(x, filter, e))
  {
    hide LogInv, GivenUp, Stamp, Fresh;
    if Serves(x.w) { PumpedKeeps(x.w.log, x.h, e.now, e.asked); }
  }

  lemma StepKeeps(x: World, filter: nat, e: Event)
    requires Inv(x)
    ensures Inv(Next(x, filter, e))
  {
    hide LogInv, HandleBlock, Tick;
    match e
    case Block(_, _, _, _, _) => BlockKeeps(x, filter, e);
    case SystemTime(_, _, _) =>
    case Pump(_, _, _, _, _) => PumpKeeps(x, filter, e);
  }

  // On every run the invariant holds throughout.
  lemma {:induction false} EveryRun(x: World, filter: nat, es: seq<Event>)
    requires Inv(x)
    ensures Inv(Run(x, filter, es))
    decreases |es|
  {
    hide Inv, Next;
    if es != [] {
      StepKeeps(x, filter, es[0]);
      EveryRun(Next(x, filter, es[0]), filter, es[1..]);
    }
  }

  // ---------------------------------------------------------------- acknowledgements

  lemma SentNames(w: Writer, e: Event, s: nat)
    requires e.Pump?
    ensures Ack(s) in Sent(w, e) ==> Serves(w) && s in w.log.acks
    ensures Missing(s) in Sent(w, e) ==> Serves(w) && s in e.asked
  {
    hide WantsStop, WantsStart, Stopped;
    var a, m := Acks(w.log.acks), Missings(e.asked);
    assert forall p | p in a :: p.Ack? && p.seqno in w.log.acks;
    assert forall p | p in m :: p.Missing? && p.seqno in e.asked;
    assert Serves(w) ==> (Ack(s) in Sent(w, e) ==> Ack(s) in a) && (Missing(s) in Sent(w, e) ==> Missing(s) in m);
  }

  // Whether the file still holds the block last written whole is decided by the writes alone.
  lemma HoldsExactly(disk: bytes, ws: seq<Attempt>, s: nat)
    requires s in Wholes(ws) && BlockIs(disk, ws, s)
    ensures Holds(disk, s, Wholes(ws)[s]) <==> Intact(ws, s)
  {
    hide Wholes, LastByte;
    var d, at := Wholes(ws)[s], BLOCK_BYTES * s;
    var part := disk[at..at + BLOCK_BYTES];
    assert forall i | 0 <= i < BLOCK_BYTES :: part[i] == disk[at + i] == LastByte(ws, s, i);
    if Intact(ws, s) {
      assert part == d;
    }
    if Holds(disk, s, d) {
      assert part == d;
      forall i | 0 <= i < BLOCK_BYTES ensures LastByte(ws, s, i) == d[i] { assert part[i] == d[i]; }
    }
  }

  // An acknowledgement is sent only for a block that was written whole to the open file. Its bytes are
  // those of the last writes that covered them, so they are still the block written whole exactly when
  // no later short write under that number changed one.
  lemma AckedIsStored(filter: nat, es: seq<Event>, e: Event, s: nat)
    requires e.Pump? && Ack(s) in Sent(Run(FIRST, filter, es).w, e)
    ensures var x := Run(FIRST, filter, es);
      && x.w.open && s in x.w.log.seen && s in Wholes(x.h.writes)
      && BlockIs(x.w.log.disk, x.h.writes, s)
      && (Holds(x.w.log.disk, s, Wholes(x.h.writes)[s]) <==> Intact(x.h.writes, s))
  {
    hide Run, Sent, Accounted, Excused, Wholes, BlockIs, Holds, Intact;
    EveryRun(FIRST, filter, es);
    SentNames(Run(FIRST, filter, es).w, e, s);
    HoldsExactly(Run(FIRST, filter, es).w.log.disk, Run(FIRST, filter, es).h.writes, s);
  }

  // A block can be acknowledged while the file holds neither of the two versions the vehicle sent: it
  // is written whole, then sent again with other bytes and cut short before the tick.
  lemma AckedButTorn(a: block, b: block, n: nat, now: real)
    requires 0 < n < BLOCK_BYTES && a[..n] != b[..n] && a[n..] != b[n..]
    ensures var whole := Block(0, a, 1, 1, Store(true, true, BLOCK_BYTES, 1.0));
      var cut := Block(0, b, 1, 1, Store(true, true, n, 1.0));
      var x := Run(FIRST, 0, [whole, cut]);
      && Ack(0) in Sent(x.w, Pump(now, true, true, {}, []))
      && !Holds(x.w.log.disk, 0, a) && !Holds(x.w.log.disk, 0, b)
  {
    hide Step;
    var whole := Block(0, a, 1, 1, Store(true, true, BLOCK_BYTES, 1.0));
    var cut := Block(0, b, 1, 1, Store(true, true, n, 1.0));
    var v := Step(Step(FIRST.w, 0, whole), 0, cut);
    FirstStored(a);
    ThenCut(Step(FIRST.w, 0, whole), a, b, n);
    TwoSteps(whole, cut);
    assert Acks(v.log.acks)[0] == Ack(0);
    var d := v.log.disk;
    assert d[..n] == b[..n] && d[n..] == a[n..];
    assert d[0..BLOCK_BYTES] == d;
  }

  lemma FirstStored(a: block)
    ensures var w := Step(FIRST.w, 0, Block(0, a, 1, 1, Store(true, true, BLOCK_BYTES, 1.0)));
      && w.open && w.peer.streaming && w.peer.bootMs == 0 && w.log.disk == a && w.log.size == BLOCK_BYTES
      && w.log.acks == [0] && w.log.highest == 0
  {
    hide GapsBefore;
  }

  lemma ThenCut(w: Writer, a: block, b: block, n: nat)
    requires w.open && w.peer.streaming && w.log.disk == a && w.log.size == BLOCK_BYTES
    requires w.log.acks == [0] && w.log.highest == 0 && 0 < n < BLOCK_BYTES
    ensures var v := Step(w, 0, Block(0, b, 1, 1, Store(true, true, n, 1.0)));
      v.open && v.peer.streaming && v.log.acks == [0] && v.log.disk == b[..n] + a[n..]
  {
    hide GapsBefore;
  }

  lemma TwoSteps(e: Event, f: Event)
    ensures Run(FIRST, 0, [e, f]).w == Step(Step(FIRST.w, 0, e), 0, f)
  {
    hide Step, Witness;
    assert [e, f][1..] == [f] && [f][1..] == [];
    var x := Next(FIRST, 0, e);
    var y := Next(x, 0, f);
    assert Run(y, 0, []) == y && Run(x, 0, [f]) == y;
  }

  // ---------------------------------------------------------------- when nothing is torn

  ghost predicate AllIntact(ws: seq<Attempt>)
  {
    forall s | s in Wholes(ws) :: Intact(ws, s)
  }

  // A write cut short begins like the block last written whole under its number, if there is one.
  ghost predicate Agrees(ws: seq<Attempt>, a: Attempt)
  {
    a.n < BLOCK_BYTES && a.seqno in Wholes(ws) ==> a.data[..a.n] == Wholes(ws)[a.seqno][..a.n]
  }

  lemma IntactStep(ws: seq<Attempt>, a: Attempt)
    requires AllIntact(ws)
    ensures AllIntact(ws + [a]) <==> Agrees(ws, a)
  {
    hide Wholes, LastByte;
    Wrote(ws, a);
    if a.n < BLOCK_BYTES && a.seqno in Wholes(ws) {
      var d := Wholes(ws)[a.seqno];
      assert Intact(ws, a.seqno);
      if AllIntact(ws + [a]) {
        assert Intact(ws + [a], a.seqno);
        forall i | 0 <= i < a.n ensures a.data[..a.n][i] == d[..a.n][i] {
          assert LastByte(ws + [a], a.seqno, i) == a.data[i];
        }
      }
      if Agrees(ws, a) {
        forall i | 0 <= i < a.n ensures a.data[i] == d[i] { assert a.data[..a.n][i] == d[..a.n][i]; }
      }
    }
    if Agrees(ws, a) {
      forall s | s in Wholes(ws + [a]) ensures Intact(ws + [a], s) {
        if s != a.seqno || a.n < BLOCK_BYTES { assert Intact(ws, s); }
      }
    }
  }

  // Every block cut short in this run begins like the one it repeats.
  ghost predicate Repeats(x: World, filter: nat, es: seq<Event>)
    decreases |es|
  {
    es == [] || (RepeatsOne(x, filter, es[0]) && Repeats(Next(x, filter, es[0]), filter, es[1..]))
  }

  ghost predicate RepeatsOne(x: World, filter: nat, e: Event)
  {
    e.Block? && Reaches(x.w, e.seqno, e.store) ==>
      Agrees(Closed(x, filter, e).writes, Attempt(e.seqno, e.data, e.store.wrote))
  }

  lemma TornStep(x: World, filter: nat, e: Event)
    requires AllIntact(x.h.writes)
    ensures AllIntact(Next(x, filter, e).h.writes) <==> RepeatsOne(x, filter, e)
  {
    hide AllIntact, Agrees, Step, Reaches, Rotates;
    var h := Closed(x, filter, e);
    assert AllIntact(h.writes) by { NothingWritten(); }
    if e.Block? && Reaches(x.w, e.seqno, e.store) {
      IntactStep(h.writes, Attempt(e.seqno, e.data, e.store.wrote));
    }
  }

  lemma NothingWritten()
    ensures AllIntact([])
  {
  }

  ghost predicate IntactAfter(x: World, filter: nat, es: seq<Event>, k: nat)
    requires k <= |es|
  {
    AllIntact(Run(x, filter, es[..k]).h.writes)
  }

  lemma {:induction false} WritesNeverTorn(x: World, filter: nat, es: seq<Event>)
    requires AllIntact(x.h.writes)
    ensures Repeats(x, filter, es) <==> forall k | 0 <= k <= |es| :: IntactAfter(x, filter, es, k)
    decreases |es|
  {
    hide AllIntact, RepeatsOne, Next;
    assert es[..0] == [];
    if es != [] {
      var y := Next(x, filter, es[0]);
      TornStep(x, filter, es[0]);
      forall k | 1 <= k <= |es| ensures IntactAfter(x, filter, es, k) <==> IntactAfter(y, filter, es[1..], k - 1) {
        assert es[..k][0] == es[0] && es[..k][1..] == es[1..][..k - 1];
      }
      assert IntactAfter(y, filter, es[1..], 0) <==> AllIntact(y.h.writes) by { assert es[1..][..0] == []; }
      if AllIntact(y.h.writes) {
        WritesNeverTorn(y, filter, es[1..]);
        if forall k | 0 <= k <= |es| :: IntactAfter(x, filter, es, k) {
          forall k | 0 <= k <= |es[1..]| ensures IntactAfter(y, filter, es[1..], k) {
            assert IntactAfter(x, filter, es, k + 1);
          }
        }
        if forall k | 0 <= k <= |es[1..]| :: IntactAfter(y, filter, es[1..], k) {
          forall k | 0 <= k <= |es| ensures IntactAfter(x, filter, es, k) {
            if k > 0 { assert IntactAfter(y, filter, es[1..], k - 1); }
          }
        }
      } else {
        assert !IntactAfter(x, filter, es, 1);
      }
    }
  }

  // The open file holds every block of the bitmap as it was last written whole.
  ghost predicate FileWhole(x: World)
  {
    forall s | s in x.w.log.seen :: s in Wholes(x.h.writes) && Holds(x.w.log.disk, s, Wholes(x.h.writes)[s])
  }

  lemma FileShowsWrites(x: World)
    requires Inv(x)
    ensures FileWhole(x) <==> AllIntact(x.h.writes)
  {
    hide Holds, Intact, BlockIs, Wholes, Accounted, Excused;
    if x.w.open {
      forall s | s in x.w.log.seen
        ensures s in Wholes(x.h.writes) && (Holds(x.w.log.disk, s, Wholes(x.h.writes)[s]) <==> Intact(x.h.writes, s))
      {
        HoldsExactly(x.w.log.disk, x.h.writes, s);
      }
    } else {
      NothingWritten();
    }
  }

  ghost predicate WholeAfter(x: World, filter: nat, es: seq<Event>, k: nat)
    requires k <= |es|
  {
    FileWhole(Run(x, filter, es[..k]))
  }

  // At every point of a run the file holds all blocks of the bitmap as last written whole, exactly when
  // every short write that reached it began like the block it repeats.
  lemma NeverTornExactly(x: World, filter: nat, es: seq<Event>)
    requires Inv(x) && FileWhole(x)
    ensures Repeats(x, filter, es) <==> forall k | 0 <= k <= |es| :: WholeAfter(x, filter, es, k)
  {
    hide Inv, FileWhole, AllIntact, Repeats, Run;
    FileShowsWrites(x);
    WritesNeverTorn(x, filter, es);
    forall k | 0 <= k <= |es| ensures WholeAfter(x, filter, es, k) <==> IntactAfter(x, filter, es, k) {
      EveryRun(x, filter, es[..k]);
      FileShowsWrites(Run(x, filter, es[..k]));
    }
    if forall k | 0 <= k <= |es| :: WholeAfter(x, filter, es, k) {
      forall k | 0 <= k <= |es| ensures IntactAfter(x, filter, es, k) { assert WholeAfter(x, filter, es, k); }
    }
  }

  // A block is asked for only while it is missing, and at most ten are asked for at a time.
  lemma AskedIsMissing(filter: nat, es: seq<Event>, e: Event, s: nat)
    requires e.Pump? && Enabled(Run(FIRST, filter, es).w, e)
    requires Missing(s) in Sent(Run(FIRST, filter, es).w, e)
    ensures |e.asked| <= 10
    ensures var x := Run(FIRST, filter, es);
      && x.w.open && s in x.w.log.nacks && s !in x.w.log.seen && s !in x.h.lost
      && x.w.log.highest - 200 <= s < x.w.log.highest
      && e.now - x.w.log.nacks[s].noticed <= 60.0
  {
    hide Run, Sent, Kept, Excused;
    EveryRun(FIRST, filter, es);
    SentNames(Run(FIRST, filter, es).w, e, s);
    assert s in Fresh(Run(FIRST, filter, es).w.log, e.now);
  }

  ghost predicate Quiet(x: World, filter: nat, es: seq<Event>)
    decreases |es|
  {
    es == [] || (!es[0].Pump? && !Rotates(x.w, filter, es[0]) && Quiet(Next(x, filter, es[0]), filter, es[1..]))
  }

  lemma {:induction false} QuietHolds(x: World, filter: nat, es: seq<Event>, s: nat)
    requires Quiet(x, filter, es) && x.w.open && x.w.peer.streaming && s in x.w.log.acks
    ensures var y := Run(x, filter, es).w; y.open && y.peer.streaming && s in y.log.acks
    decreases |es|
  {
    hide Witness, Patch, GapsBefore, Dropped;
    if es != [] { QuietHolds(Next(x, filter, es[0]), filter, es[1..], s); }
  }

  // Every whole write is acknowledged by the next tick, unless the file is closed first. That goes
  // for a block sent twice as well: the vehicle is told again.
  lemma EveryStoreAnswered(x: World, filter: nat, e: Event, es: seq<Event>, pump: Event)
    requires e.Block? && Reaches(x.w, e.seqno, e.store) && e.store.wrote >= BLOCK_BYTES
    requires Quiet(Next(x, filter, e), filter, es) && pump.Pump?
    ensures Ack(e.seqno) in Sent(Run(Next(x, filter, e), filter, es).w, pump)
  {
    var y := Next(x, filter, e);
    assert y.w.open && y.w.peer.streaming && (e.seqno as nat) in y.w.log.acks by {
      hide Patch, GapsBefore, Dropped, Witness;
    }
    hide Next, Run, Quiet;
    QuietHolds(y, filter, es, e.seqno);
    var l := Run(y, filter, es).w.log;
    var i :| 0 <= i < |l.acks| && l.acks[i] == e.seqno;
    assert Acks(l.acks)[i] == Ack(e.seqno);
  }

  // ---------------------------------------------------------------- a vehicle that repeats itself faithfully

  // Every block the vehicle sends for its n-th log is the block of that log with that number.
  ghost predicate Truthful(x: World, filter: nat, es: seq<Event>, logs: (nat, nat) -> block)
    decreases |es|
  {
    es == [] || (
      && (es[0].Block? ==> es[0].data == logs(|Next(x, filter, es[0]).h.closed|, es[0].seqno))
      && Truthful(Next(x, filter, es[0]), filter, es[1..], logs))
  }

  ghost predicate Matches(h: History, logs: (nat, nat) -> block)
  {
    forall k | 0 <= k < |h.writes| :: h.writes[k].data == logs(|h.closed|, h.writes[k].seqno)
  }

  lemma MatchesStep(x: World, filter: nat, e: Event, logs: (nat, nat) -> block)
    requires Matches(x.h, logs)
    requires e.Block? ==> e.data == logs(|Next(x, filter, e).h.closed|, e.seqno)
    ensures Matches(Next(x, filter, e).h, logs)
  {
    hide Step, GapsBefore, Dropped;
  }

  // If every write under a number carries the same block, that block is what the writes amount to.
  lemma {:induction false} OneVersion(ws: seq<Attempt>, s: nat, data: block)
    requires forall k | 0 <= k < |ws| :: ws[k].seqno == s ==> ws[k].data == data
    ensures s in Wholes(ws) ==> Wholes(ws)[s] == data && Intact(ws, s)
    ensures forall i | 0 <= i < BLOCK_BYTES :: LastByte(ws, s, i) == -1 || LastByte(ws, s, i) == data[i]
    ensures s in Wholes(ws) ==> forall i | 0 <= i < BLOCK_BYTES :: LastByte(ws, s, i) != -1
  {
    if ws != [] { OneVersion(ws[..|ws| - 1], s, data); }
  }

  lemma {:induction false} MatchesRun(x: World, filter: nat, es: seq<Event>, logs: (nat, nat) -> block)
    requires Matches(x.h, logs) && Truthful(x, filter, es, logs)
    ensures Matches(Run(x, filter, es).h, logs)
    decreases |es|
  {
    hide Matches, Next;
    if es != [] {
      MatchesStep(x, filter, es[0], logs);
      MatchesRun(Next(x, filter, es[0]), filter, es[1..], logs);
    }
  }

  // If retransmissions repeat the same bytes, every number in the bitmap, and so every number ever
  // acknowledged, has exactly the vehicle's block in the file, even after short writes.
  lemma FileIsVehicleLog(filter: nat, es: seq<Event>, logs: (nat, nat) -> block, s: nat)
    requires Truthful(FIRST, filter, es, logs)
    requires s in Run(FIRST, filter, es).w.log.seen
    ensures var x := Run(FIRST, filter, es); Holds(x.w.log.disk, s, logs(|x.h.closed|, s))
  {
    hide Run, Truthful, Holds, Wholes, BlockIs, LastByte, Intact, Accounted, Excused;
    EveryRun(FIRST, filter, es);
    MatchesRun(FIRST, filter, es, logs);
    var x := Run(FIRST, filter, es);
    OneVersion(x.h.writes, s, logs(|x.h.closed|, s));
    HoldsExactly(x.w.log.disk, x.h.writes, s);
  }

  // ---------------------------------------------------------------- gaps

  lemma {:induction false} WindowSize(keys: set<nat>, from: nat, n: nat)
    requires forall s | s in keys :: from <= s < from + n
    ensures |keys| <= n
    decreases n
  {
    if n == 0 {
      assert forall s :: s !in keys;
      assert keys == {};
    } else {
      var rest := keys - {from + n - 1};
      WindowSize(rest, from, n - 1);
      assert keys <= rest + {from + n - 1};
      if from + n - 1 in keys { assert keys == rest + {from + n - 1}; } else { assert keys == rest; }
    }
  }

  // After a tick of an open file no acknowledgement is owed and at most 200 gaps are still chased.
  lemma GapsBounded(filter: nat, es: seq<Event>, e: Event)
    requires e.Pump? && Serves(Run(FIRST, filter, es).w)
    ensures var y := Next(Run(FIRST, filter, es), filter, e).w.log;
      && y.acks == [] && |y.nacks| <= GIVEUP_BLOCKS
      && forall s | s in y.nacks :: y.highest - GIVEUP_BLOCKS <= s < y.highest
  {
    hide Run;
    var x := Run(FIRST, filter, es);
    EveryRun(FIRST, filter, es);
    Chased(x.w.log, x.h, e.now, e.asked);
  }

  lemma Chased(l: Log, h: History, now: real, asked: seq<nat>)
    requires LogInv(l, h)
    ensures var y := Pumped(l, now, asked);
      |y.nacks| <= GIVEUP_BLOCKS && forall s | s in y.nacks :: y.highest - GIVEUP_BLOCKS <= s < y.highest
  {
    hide Kept, Excused;
    var y := Pumped(l, now, asked);
    assert forall s | s in y.nacks :: s in Fresh(l, now) && !Stale(l, s, now);
    var from := Max(0, l.highest - GIVEUP_BLOCKS);
    WindowSize(y.nacks.Keys, from, GIVEUP_BLOCKS);
  }

  // ---------------------------------------------------------------- file size

  ghost predicate Whole(es: seq<Event>)
  {
    forall i | 0 <= i < |es| :: es[i].Block? ==> es[i].store.wrote == 0 || es[i].store.wrote >= BLOCK_BYTES
  }

  lemma SizeStep(x: World, filter: nat, e: Event)
    requires Inv(x) && |x.w.log.disk| == (if x.w.open then x.w.log.size else 0)
    requires e.Block? ==> e.store.wrote == 0 || e.store.wrote >= BLOCK_BYTES
    ensures var y := Step(x.w, filter, e); |y.log.disk| == if y.open then y.log.size else 0
  {
    hide LogInv, GapsBefore, Fresh, Stamp, Patch;
  }

  lemma {:induction false} SizeRun(x: World, filter: nat, es: seq<Event>)
    requires Inv(x) && |x.w.log.disk| == (if x.w.open then x.w.log.size else 0)
    requires Whole(es)
    ensures var y := Run(x, filter, es).w; |y.log.disk| == if y.open then y.log.size else 0
    decreases |es|
  {
    hide Inv, Step, Witness;
    if es != [] {
      StepKeeps(x, filter, es[0]);
      SizeStep(x, filter, es[0]);
      SizeRun(Next(x, filter, es[0]), filter, es[1..]);
    }
  }

  // As long as no write is cut short, the file is exactly as long as its highest block demands.
  lemma FileSize(filter: nat, es: seq<Event>)
    requires Whole(es)
    ensures var l := Run(FIRST, filter, es).w.log;
      |l.disk| == if l.seen == {} then 0 else BLOCK_BYTES * (l.highest + 1)
  {
    hide Run, Whole;
    SizeRun(FIRST, filter, es);
    EveryRun(FIRST, filter, es);
  }

  // ---------------------------------------------------------------- rotation

  // Files that were closed are never written again, and a file is closed just as it stood.
  lemma {:induction false} ClosedForGood(x: World, filter: nat, es: seq<Event>)
    ensures x.h.closed <= Run(x, filter, es).h.closed
    decreases |es|
  {
    hide Step, GapsBefore, Dropped;
    if es != [] { ClosedForGood(Next(x, filter, es[0]), filter, es[1..]); }
  }

  // Block 0 of a log restarted after 200 blocks goes to a new file and leaves the old one alone.
  lemma RestartOpensNewFile(x: World, filter: nat, e: Event)
    requires Inv(x) && e.Block? && Restarts(x.w, e.seqno)
    requires e.store.opens && e.store.room && e.store.wrote >= BLOCK_BYTES
    ensures var y := Next(x, filter, e);
      && y.h.closed == x.h.closed + [x.w.log.disk]
      && y.w.open && y.w.log.disk == e.data && y.w.log.seen == {0} && y.w.log.acks == [0] && y.w.log.nacks == map[]
  {
  }

  // The block that opens a file is in it exactly when there was quota for it and it was written whole;
  // otherwise the file stays open without it.
  lemma OpeningBlock(x: World, filter: nat, e: Event)
    requires Inv(x) && !x.w.open && e.Block? && e.seqno == 0 && e.store.opens
    ensures var y := Next(x, filter, e).w;
      && y.open && y.log.highest == 0
      && (0 in y.log.seen <==> e.store.room && e.store.wrote >= BLOCK_BYTES)
  {
  }

  // So accounting starts at 1: block 0 can be refused and never asked for again.
  lemma BlockZeroForgotten(data: block)
    ensures var refused := Block(0, data, 1, 1, Store(true, false, 0, 1.0));
      var stored := Block(1, data, 1, 1, Store(true, true, BLOCK_BYTES, 1.0));
      var l := Run(FIRST, 0, [refused, stored]);
      l.w.log.highest == 1 && 0 !in l.w.log.seen && 0 !in l.w.log.nacks && 0 !in l.h.lost
  {
    var refused := Block(0, data, 1, 1, Store(true, false, 0, 1.0));
    var stored := Block(1, data, 1, 1, Store(true, true, BLOCK_BYTES, 1.0));
    var x := Next(FIRST, 0, refused);
    assert x.w.open && x.w.log.seen == {} && x.w.log.nacks == map[] && x.h.lost == map[];
    var y := Next(x, 0, stored);
    assert [refused, stored][1..] == [stored] && [stored][1..] == [];
    assert Run(y, 0, []) == y;
    assert Run(x, 0, [stored]) == y;
  }

  // Block 0 is missed, or given up, only once the numbers have been used up to the last.
  ghost predicate ZeroLast(x: World)
  {
    0 in x.w.log.nacks || 0 in x.h.lost ==> x.w.log.highest == WORD - 1
  }

  lemma GapsAboveZero(seen: set<nat>, nacks: map<nat, Nack>, highest: u32, seqno: u32, now: real)
    ensures 0 in GapsBefore(seen, nacks, highest, seqno, now) ==> highest == WORD - 1
  {
  }

  lemma ZeroWrite(l: Log, h: History, seqno: u32, data: block, store: Store)
    requires 0 in l.nacks || 0 in h.lost ==> l.highest == WORD - 1
    ensures var m := if store.wrote >= BLOCK_BYTES then Stored(l, seqno, data, store.now)
                     else Cut(l, seqno, data, store.wrote);
      0 in m.nacks || 0 in Recorded(h, l, seqno, data, store).lost ==> m.highest == WORD - 1
  {
    hide GapsBefore, Patch;
    GapsAboveZero(l.seen + {seqno as nat}, l.nacks - {seqno as nat}, l.highest, seqno, store.now);
  }

  lemma ZeroStep(x: World, filter: nat, e: Event)
    requires Inv(x) && ZeroLast(x)
    ensures ZeroLast(Next(x, filter, e))
  {
    hide LogInv, Stored, Cut, Recorded, Dropped, GapsBefore;
    match e
    case Block(seqno, data, _, _, store) =>
      var h, l := Closed(x, filter, e), Target(Base(x.w, seqno));
      ZeroWrite(l, h, seqno, data, store);
    case SystemTime(_, _, _) =>
    case Pump(_, _, _, _, _) =>
  }

  lemma {:induction false} ZeroRun(x: World, filter: nat, es: seq<Event>)
    requires Inv(x) && ZeroLast(x)
    ensures ZeroLast(Run(x, filter, es))
    decreases |es|
  {
    hide Inv, ZeroLast, Next;
    if es != [] {
      StepKeeps(x, filter, es[0]);
      ZeroStep(x, filter, es[0]);
      ZeroRun(Next(x, filter, es[0]), filter, es[1..]);
    }
  }

  // On no run is block 0 ever asked for.
  lemma ZeroNeverAsked(filter: nat, es: seq<Event>, e: Event)
    requires e.Pump? && Enabled(Run(FIRST, filter, es).w, e)
    ensures Missing(0) !in Sent(Run(FIRST, filter, es).w, e)
  {
    hide Run, Sent, Enabled;
    ZeroRun(FIRST, filter, es);
    if Missing(0) in Sent(Run(FIRST, filter, es).w, e) {
      AskedIsMissing(filter, es, e, 0);
      assert false;
    }
  }

  // On every run, until the last number is used, block 0 of the open file is accounted for exactly when
  // it has been written whole.
  lemma ZeroAccountedExactly(filter: nat, es: seq<Event>)
    requires var x := Run(FIRST, filter, es); x.w.open && x.w.log.highest < WORD - 1
    ensures var x := Run(FIRST, filter, es);
      0 in x.w.log.seen || 0 in x.w.log.nacks || 0 in x.h.lost <==> 0 in Wholes(x.h.writes)
  {
    hide Run, Wholes, BlockIs, Accounted, Excused;
    ZeroRun(FIRST, filter, es);
    EveryRun(FIRST, filter, es);
  }

  // With no file open, blocks from the middle of a log leave no trace but a count that stops at three,
  // and STOP is sent only once three have come.
  lemma {:induction false} MidLogCounts(x: World, filter: nat, es: seq<Event>, e: Event)
    requires !x.w.open && x.w.pace.gated <= STOP_MIN_GATED && e.Pump?
    requires forall i | 0 <= i < |es| :: es[i].Block? && es[i].seqno != 0
    ensures var y := Run(x, filter, es);
      && !y.w.open && y.w.log == x.w.log && y.h == x.h
      && y.w.pace == x.w.pace.(gated := Min(STOP_MIN_GATED, x.w.pace.gated + |es|))
      && (Stop in Sent(y.w, e) ==> x.w.pace.gated + |es| >= STOP_MIN_GATED)
    decreases |es|
  {
    if es == [] {
    } else {
      MidLogCounts(Next(x, filter, es[0]), filter, es[1..], e);
    }
  }

  // The 32-bit sum makes the reboot test exact below the last ten seconds of the counter's range.
  lemma RebootTest(last: u32, bootMs: u32)
    ensures bootMs < WORD - REBOOT_BACKWARD_MS ==>
      (JumpsBack(last, bootMs) <==> last - bootMs >= REBOOT_BACKWARD_MS)
    ensures bootMs >= WORD - REBOOT_BACKWARD_MS ==>
      && last - bootMs < REBOOT_BACKWARD_MS
      && (JumpsBack(last, bootMs) <==> last >= Max(1, bootMs + REBOOT_BACKWARD_MS - WORD))
  {
  }

  // A vehicle up for 49 days is taken to have rebooted although its clock moved forward: a run in which
  // the second SYSTEM_TIME closes the file.
  lemma SpuriousReboot(data: block)
    ensures var block := Block(0, data, 1, 1, Store(true, true, BLOCK_BYTES, 1.0));
      var early, late := SystemTime(AUTOPILOT, 1, 0xFFFF_F000), SystemTime(AUTOPILOT, 1, 0xFFFF_F3E8);
      && late.bootMs > early.bootMs
      && Run(FIRST, 0, [block, early]).w.open && Run(FIRST, 0, [block, early]).w.log.disk == data
      && !Run(FIRST, 0, [block, early, late]).w.open
      && Run(FIRST, 0, [block, early, late]).h.closed == [data]
  {
    hide Step, Witness;
    var block := Block(0, data, 1, 1, Store(true, true, BLOCK_BYTES, 1.0));
    var early, late := SystemTime(AUTOPILOT, 1, 0xFFFF_F000), SystemTime(AUTOPILOT, 1, 0xFFFF_F3E8);
    var x := Next(FIRST, 0, block);
    var y := Next(x, 0, early);
    var z := Next(y, 0, late);
    FirstStored(data);
    assert x.h.closed == [] by { NothingClosed(block); }
    WatchKeeps(x, early);
    WatchCloses(y, late);
    assert [block, early, late][1..] == [early, late] && [early, late][1..] == [late] && [late][1..] == [];
    assert [block, early][1..] == [early] && [early][1..] == [];
    assert Run(z, 0, []) == z && Run(y, 0, []) == y && Run(y, 0, [late]) == z;
    assert Run(x, 0, [early]) == y && Run(x, 0, [early, late]) == z;
  }

  lemma NothingClosed(e: Event)
    requires e.Block?
    ensures Next(FIRST, 0, e).h.closed == []
  {
    hide Step, Dropped, GapsBefore;
  }

  lemma WatchKeeps(x: World, e: Event)
    requires e.SystemTime? && e.component == AUTOPILOT && x.w.peer.bootMs == 0
    ensures var y := Next(x, 0, e); y.w == x.w.(peer := x.w.peer.(bootMs := e.bootMs)) && y.h == x.h
  {
  }

  lemma WatchCloses(y: World, e: Event)
    requires e.SystemTime? && e.component == AUTOPILOT && y.w.open && JumpsBack(y.w.peer.bootMs, e.bootMs)
    ensures !Next(y, 0, e).w.open && Next(y, 0, e).h.closed == y.h.closed + [y.w.log.disk]
  {
  }
}
