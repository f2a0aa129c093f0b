/**
  When the binlog receiver speaks (binlog.cpp, BinlogWriter::tick), said in terms of what happened and when: a
  gap is asked for again a tenth of a second after it was last asked for, and not sooner; START and STOP
  are repeated at their own rates.
 */
module BinlogPacing {
  import opened Bytes
  import opened Numbers
  import opened Binlog
  import opened BinlogRuns

  ghost function At(filter: nat, es: seq<Event>): Writer
  {
    Run(FIRST, filter, es).w
  }

  lemma {:induction false} OneMore(x: World, filter: nat, es: seq<Event>, e: Event)
    ensures Run(x, filter, es + [e]) == Next(Run(x, filter, es), filter, e)
    decreases |es|
  {
    hide Next;
    if es == [] {
      assert [e][1..] == [];
      assert es + [e] == [e];
      assert Run(Next(x, filter, e), filter, []) == Next(x, filter, e);
    } else {
      assert (es + [e])[1..] == es[1..] + [e];
      OneMore(Next(x, filter, es[0]), filter, es[1..], e);
    }
  }

  lemma Latest(filter: nat, es: seq<Event>)
    requires es != []
    ensures var b, e := es[..|es| - 1], es[|es| - 1]; At(filter, es) == Step(At(filter, b), filter, e)
  {
    hide Step, Witness;
    var b, e := es[..|es| - 1], es[|es| - 1];
    assert es == b + [e];
    OneMore(FIRST, filter, b, e);
  }

  // ---------------------------------------------------------------- gaps

  // The time of the last tick that asked for s since the gap was noticed; 0 if there was none.
  ghost function LastAsk(filter: nat, es: seq<Event>, s: nat): real
  {
    if es == [] then 0.0
    else
      var b, e := es[..|es| - 1], es[|es| - 1];
      if s !in At(filter, b).log.nacks then 0.0
      else if Missing(s) in Sent(At(filter, b), e) then e.now
      else LastAsk(filter, b, s)
  }

  lemma MissingAsked(w: Writer, e: Event, s: nat)
    ensures Missing(s) in Sent(w, e) <==> e.Pump? && Serves(w) && s in e.asked
  {
    hide WantsStop, WantsStart, Stopped;
    if e.Pump? {
      SentNames(w, e, s);
      if Serves(w) && s in e.asked {
        var i :| 0 <= i < |e.asked| && e.asked[i] == s;
        assert Missings(e.asked)[i] == Missing(s);
      }
    }
  }

  // How one step moves the time a gap was last asked for.
  lemma AskStep(w: Writer, filter: nat, e: Event, s: nat)
    requires s in Step(w, filter, e).log.nacks && (w.open || w.log.nacks == map[])
    ensures Step(w, filter, e).log.nacks[s].sent
      == if s !in w.log.nacks then 0.0 else if Missing(s) in Sent(w, e) then e.now else w.log.nacks[s].sent
  {
    hide Sent, Patch, Dropped, Stale;
    MissingAsked(w, e, s);
  }

  lemma ClosedNoGaps(filter: nat, es: seq<Event>)
    ensures At(filter, es).open || At(filter, es).log.nacks == map[]
  {
    hide Run, LogInv;
    EveryRun(FIRST, filter, es);
  }

  // What the table keeps is the time of the last request.
  lemma {:induction false} StampIsLastAsk(filter: nat, es: seq<Event>, s: nat)
    requires s in At(filter, es).log.nacks
    ensures At(filter, es).log.nacks[s].sent == LastAsk(filter, es, s)
    decreases |es|
  {
    hide At, Step, Sent;
    if es == [] {
      assert At(filter, []) == IDLE by { NothingYet(filter); }
    } else {
      var b := es[..|es| - 1];
      Latest(filter, es);
      ClosedNoGaps(filter, b);
      AskStep(At(filter, b), filter, es[|es| - 1], s);
      if s in At(filter, b).log.nacks { StampIsLastAsk(filter, b, s); }
    }
  }

  lemma NothingYet(filter: nat)
    ensures At(filter, []) == IDLE
  {
  }

  // The gaps this tick asks for.
  ghost function Requests(w: Writer, e: Event): set<nat>
  {
    set s: nat | s in w.log.nacks && Missing(s) in Sent(w, e)
  }

  lemma AskedOnly(w: Writer, e: Event)
    requires e.Pump? && Enabled(w, e)
    ensures |Requests(w, e)| == |e.asked| && forall s: nat :: Missing(s) in Sent(w, e) <==> s in Requests(w, e)
  {
    hide Sent, Stale;
    forall s: nat ensures Missing(s) in Sent(w, e) <==> s in e.asked { MissingAsked(w, e, s); }
    assert forall s | s in e.asked :: s in w.log.nacks;
    assert Requests(w, e) == Elements(e.asked);
    AllDistinct(e.asked);
  }

  function Elements(q: seq<nat>): set<nat>
  {
    set s | s in q
  }

  lemma {:induction false} AllDistinct(q: seq<nat>)
    requires forall i, j | 0 <= i < j < |q| :: q[i] != q[j]
    ensures |Elements(q)| == |q|
    decreases |q|
  {
    if q == [] {
      assert Elements(q) == {};
    } else {
      var p, x := q[..|q| - 1], q[|q| - 1];
      AllDistinct(p);
      assert Elements(q) == Elements(p) + {x};
    }
  }

  // On every run, for every gap that is still chased, with a socket that takes the request: a tick asks for it if
  // a tenth of a second has passed since the last request, or there was none, unless it asks for ten
  // others; and it never asks sooner.
  lemma AskedExactly(filter: nat, es: seq<Event>, e: Event, s: nat)
    requires e.Pump? && Enabled(At(filter, es), e) && Serves(At(filter, es))
    requires s in At(filter, es).log.nacks && !Stale(At(filter, es).log, s, e.now) && s !in e.refused
    ensures var w, last := At(filter, es), LastAsk(filter, es, s);
      var due := last == 0.0 || e.now - last >= 0.1;
      && |Requests(w, e)| <= 10
      && (Missing(s) in Sent(w, e) ==> due)
      && (due && Missing(s) !in Sent(w, e) ==> |Requests(w, e)| == 10)
  {
    hide At, Sent, Requests, LastAsk;
    var w := At(filter, es);
    StampIsLastAsk(filter, es, s);
    AskedOnly(w, e);
    MissingAsked(w, e, s);
    assert s in Fresh(w.log, e.now) && Fresh(w.log, e.now)[s] == w.log.nacks[s];
  }

  // ---------------------------------------------------------------- START and STOP

  // A block got as far as the file: from then on the vehicle is known to stream.
  ghost predicate Heard(filter: nat, es: seq<Event>)
  {
    exists k | 0 <= k < |es| :: es[k].Block? && Reaches(At(filter, es[..k]), es[k].seqno, es[k].store)
  }

  // The time of the last START; a STOP, or closing the file, makes the next one due at once.
  ghost function LastStart(filter: nat, es: seq<Event>): real
  {
    if es == [] then 0.0
    else
      var b, e := es[..|es| - 1], es[|es| - 1];
      var w := At(filter, b);
      if Start in Sent(w, e) then e.now
      else if Stop in Sent(w, e) || Rotates(w, filter, e) then 0.0
      else LastStart(filter, b)
  }

  ghost function LastStop(filter: nat, es: seq<Event>): real
  {
    if es == [] then 0.0
    else
      var b, e := es[..|es| - 1], es[|es| - 1];
      if Stop in Sent(At(filter, b), e) then e.now else LastStop(filter, b)
  }

  lemma SentPace(w: Writer, e: Event)
    ensures Stop in Sent(w, e) <==> e.Pump? && WantsStop(w, e.now) && e.stopSent
    ensures Start in Sent(w, e) <==> e.Pump? && WantsStart(Stopped(w, e.now, e.stopSent), e.now) && e.startSent
  {
    hide WantsStop, WantsStart, Stopped, Serves;
    if e.Pump? {
      assert forall p | p in Acks(w.log.acks) :: p.Ack?;
      assert forall p | p in Missings(e.asked) :: p.Missing?;
    }
  }

  lemma PaceStep(w: Writer, filter: nat, e: Event)
    ensures var v := Step(w, filter, e);
      && v.pace.lastStop == (if Stop in Sent(w, e) then e.now else w.pace.lastStop)
      && v.pace.lastStart == (if Start in Sent(w, e) then e.now
                              else if Stop in Sent(w, e) || Rotates(w, filter, e) then 0.0 else w.pace.lastStart)
      && v.peer.streaming == (w.peer.streaming || (e.Block? && Reaches(w, e.seqno, e.store)))
  {
    hide Sent, Patch, Dropped, Stale, Fresh, Stamp, Stored, Cut;
    SentPace(w, e);
  }

  lemma {:induction false} PaceIs(filter: nat, es: seq<Event>)
    ensures At(filter, es).pace.lastStart == LastStart(filter, es)
    ensures At(filter, es).pace.lastStop == LastStop(filter, es)
    ensures At(filter, es).peer.streaming <==> Heard(filter, es)
    decreases |es|
  {
    hide At, Step, Sent, Rotates, Reaches;
    if es == [] {
      NothingYet(filter);
      assert es == [];
    } else {
      var b := es[..|es| - 1];
      Latest(filter, es);
      PaceStep(At(filter, b), filter, es[|es| - 1]);
      PaceIs(filter, b);
      HeardOn(filter, es);
    }
  }

  lemma HeardOn(filter: nat, es: seq<Event>)
    requires es != []
    ensures var b, e := es[..|es| - 1], es[|es| - 1];
      Heard(filter, es) <==> Heard(filter, b) || (e.Block? && Reaches(At(filter, b), e.seqno, e.store))
  {
    hide At, Reaches;
    var b := es[..|es| - 1];
    assert forall k | 0 <= k < |b| :: es[..k] == b[..k];
  }

  // On every run, at every tick, with sockets that take what is sent. STOP goes out exactly when no file is open,
  // three blocks from the middle of a log have come, and the last STOP is two seconds old. START goes
  // out exactly with a STOP that makes it due, or when the last one is a second old, five once the
  // vehicle streams.
  lemma PacedExactly(filter: nat, es: seq<Event>, e: Event)
    requires e.Pump? && e.stopSent && e.startSent
    ensures var w := At(filter, es);
      && (Stop in Sent(w, e) <==> !w.open && w.pace.gated >= 3 && e.now - LastStop(filter, es) >= 2.0)
      && (Start in Sent(w, e) <==>
            e.now - (if Stop in Sent(w, e) then 0.0 else LastStart(filter, es))
              >= if Heard(filter, es) then 5.0 else 1.0)
  {
    hide At, Sent, LastStart, LastStop, Heard;
    PaceIs(filter, es);
    SentPace(At(filter, es), e);
  }
}
