/**
  The shape shared by the incremental decoders: bytes arrive in arbitrary pieces, are appended to
  what is held, and a loop takes whole units off the front until one is incomplete or fatal.

  `Run` is that loop. `SplitInvariance` is the theorem about it: a decoder whose decisions are
  stable under appending bytes behaves identically for every partition of its input.
 */
module StreamDecoder {
  import opened Bytes

  // What one attempt to take a unit off the front of the held bytes produces.
  datatype Outcome<S, E> =
    | More                                          // incomplete: wait, nothing changes
    | Fatal(end: S, last: seq<E>)                   // the connection is over
    | Unit(used: nat, next: S, events: seq<E>)      // a whole unit was consumed

  datatype Session<B, S, E> = Session(alive: bool, state: S, held: seq<B>, events: seq<E>)

  // The events of a session come after those already delivered.
  function After<B, S, E>(events: seq<E>, s: Session<B, S, E>): Session<B, S, E>
  {
    s.(events := events + s.events)
  }

  ghost function Run<B(!new), S(!new), E(!new)>(d: (S, seq<B>) -> Outcome<S, E>, s: S, held: seq<B>): Session<B, S, E>
    decreases |held|
  {
    match d(s, held)
    case More => Session(true, s, held, [])
    case Fatal(end, last) => Session(false, end, [], last)
    case Unit(used, next, events) =>
      if 0 < used <= |held| then After(events, Run(d, next, held[used..]))
      else Session(true, s, held, [])
  }

  // One turn of the loop.
  lemma RunUnit<B(!new), S(!new), E(!new)>(d: (S, seq<B>) -> Outcome<S, E>, s: S, held: seq<B>)
    requires d(s, held).Unit? && 0 < d(s, held).used <= |held|
    ensures var o := d(s, held); Run(d, s, held) == After(o.events, Run(d, o.next, held[o.used..]))
  {
  }

  // The turn that ends the loop.
  lemma RunStops<B(!new), S(!new), E(!new)>(d: (S, seq<B>) -> Outcome<S, E>, s: S, held: seq<B>)
    ensures var o := d(s, held);
      && (o.More? ==> Run(d, s, held) == Session(true, s, held, []))
      && (o.Fatal? ==> Run(d, s, held) == Session(false, o.end, [], o.last))
  {
  }

  ghost function Feed<B(!new), S(!new), E(!new)>(d: (S, seq<B>) -> Outcome<S, E>, p: Session<B, S, E>, input: seq<B>)
    : Session<B, S, E>
  {
    if p.alive then After(p.events, Run(d, p.state, p.held + input)) else p
  }

  ghost function FeedAll<B(!new), S(!new), E(!new)>(
    d: (S, seq<B>) -> Outcome<S, E>, p: Session<B, S, E>, inputs: seq<seq<B>>)
    : Session<B, S, E>
    decreases |inputs|
  {
    if inputs == [] then p else FeedAll(d, Feed(d, p, inputs[0]), inputs[1..])
  }

  // A decision to take `b` is progress within `b`, and is not changed by the bytes `x` behind it.
  ghost predicate StableAt<B(!new), S(!new), E(!new)>(d: (S, seq<B>) -> Outcome<S, E>, s: S, b: seq<B>, x: seq<B>)
  {
    && (d(s, b).Unit? ==> 0 < d(s, b).used <= |b|)
    && (!d(s, b).More? ==> d(s, b + x) == d(s, b))
  }

  // Decisions are taken only on evidence that later bytes cannot change.
  ghost predicate Stable<B(!new), S(!new), E(!new)>(d: (S, seq<B>) -> Outcome<S, E>)
  {
    forall s, b, x :: StableAt(d, s, b, x)
  }

  // Everything that could be taken has been taken.
  ghost predicate Settled<B(!new), S(!new), E(!new)>(d: (S, seq<B>) -> Outcome<S, E>, p: Session<B, S, E>)
  {
    p.alive ==> d(p.state, p.held).More?
  }

  lemma {:induction false} RunSettles<B(!new), S(!new), E(!new)>(d: (S, seq<B>) -> Outcome<S, E>, s: S, held: seq<B>)
    requires Stable(d)
    ensures Settled(d, Run(d, s, held))
    decreases |held|
  {
    var o := d(s, held);
    assert StableAt(d, s, held, []);
    if o.Unit? {
      RunSettles(d, o.next, held[o.used..]);
    }
  }

  lemma {:induction false} RunExtend<B(!new), S(!new), E(!new)>(
    d: (S, seq<B>) -> Outcome<S, E>, s: S, held: seq<B>, more: seq<B>)
    requires Stable(d)
    ensures var r := Run(d, s, held);
      Run(d, s, held + more) == if r.alive then After(r.events, Run(d, r.state, r.held + more)) else r
    decreases |held|
  {
    var o := d(s, held);
    assert StableAt(d, s, held, more);
    if o.Fatal? {
    } else if o.Unit? {
      assert (held + more)[o.used..] == held[o.used..] + more;
      RunExtend(d, o.next, held[o.used..], more);
      var r := Run(d, o.next, held[o.used..]);
      if r.alive {
        var q := Run(d, r.state, r.held + more);
        assert o.events + (r.events + q.events) == (o.events + r.events) + q.events;
      }
    } else {
      assert [] + Run(d, s, held + more).events == Run(d, s, held + more).events;
    }
  }

  // Feeding two pieces is feeding their concatenation.
  lemma FeedTwice<B(!new), S(!new), E(!new)>(
    d: (S, seq<B>) -> Outcome<S, E>, p: Session<B, S, E>, a: seq<B>, b: seq<B>)
    requires Stable(d)
    ensures Feed(d, Feed(d, p, a), b) == Feed(d, p, a + b)
  {
    if p.alive {
      RunExtend(d, p.state, p.held + a, b);
      assert p.held + (a + b) == (p.held + a) + b;
      var r := Run(d, p.state, p.held + a);
      if r.alive {
        var q := Run(d, r.state, r.held + b);
        assert p.events + (r.events + q.events) == (p.events + r.events) + q.events;
      }
    }
  }

  // For every partition of the input, the outcome is that of one call with all of it.
  lemma {:induction false} SplitInvariance<B(!new), S(!new), E(!new)>(
    d: (S, seq<B>) -> Outcome<S, E>, p: Session<B, S, E>, inputs: seq<seq<B>>)
    requires Stable(d) && Settled(d, p)
    ensures FeedAll(d, p, inputs) == Feed(d, p, Join(inputs))
    ensures Settled(d, FeedAll(d, p, inputs))
    decreases |inputs|
  {
    if inputs == [] {
      assert p.held + [] == p.held;
      assert p.events + [] == p.events;
    } else {
      var q := Feed(d, p, inputs[0]);
      if p.alive { RunSettles(d, p.state, p.held + inputs[0]); }
      SplitInvariance(d, q, inputs[1..]);
      FeedTwice(d, p, inputs[0], Join(inputs[1..]));
    }
  }

  // ---------------------------------------------------------------- invariants over runs

  ghost predicate KeptAt<B(!new), S(!new), E(!new)>(d: (S, seq<B>) -> Outcome<S, E>, inv: S -> bool, s: S, b: seq<B>)
  {
    var o := d(s, b);
    (o.Unit? ==> inv(o.next)) && (o.Fatal? ==> inv(o.end))
  }

  lemma {:induction false} RunKeeps<B(!new), S(!new), E(!new)>(
    d: (S, seq<B>) -> Outcome<S, E>, inv: S -> bool, s: S, held: seq<B>)
    requires forall s, b | inv(s) :: KeptAt(d, inv, s, b)
    requires inv(s)
    ensures inv(Run(d, s, held).state)
    decreases |held|
  {
    assert KeptAt(d, inv, s, held);
    var o := d(s, held);
    if o.Unit? && 0 < o.used <= |held| { RunKeeps(d, inv, o.next, held[o.used..]); }
  }

  // What every unit keeps, every run keeps, however the input is split.
  lemma {:induction false} FeedKeeps<B(!new), S(!new), E(!new)>(
    d: (S, seq<B>) -> Outcome<S, E>, inv: S -> bool, p: Session<B, S, E>, inputs: seq<seq<B>>)
    requires forall s, b | inv(s) :: KeptAt(d, inv, s, b)
    requires inv(p.state)
    ensures inv(FeedAll(d, p, inputs).state)
    decreases |inputs|
  {
    if inputs != [] {
      if p.alive { RunKeeps(d, inv, p.state, p.held + inputs[0]); }
      FeedKeeps(d, inv, Feed(d, p, inputs[0]), inputs[1..]);
    }
  }

  // A unit keeps what `live` says of the state and the events so far; an end establishes `dead`.
  ghost predicate TracedAt<B(!new), S(!new), E(!new)>(
    d: (S, seq<B>) -> Outcome<S, E>, live: (S, seq<E>) -> bool, dead: (S, seq<E>) -> bool, s: S, es: seq<E>, b: seq<B>)
  {
    var o := d(s, b);
    (o.Unit? ==> live(o.next, es + o.events)) && (o.Fatal? ==> dead(o.end, es + o.last))
  }

  lemma {:induction false} RunTraces<B(!new), S(!new), E(!new)>(
    d: (S, seq<B>) -> Outcome<S, E>, live: (S, seq<E>) -> bool, dead: (S, seq<E>) -> bool,
    s: S, es: seq<E>, held: seq<B>)
    requires forall s, es, b | live(s, es) :: TracedAt(d, live, dead, s, es, b)
    requires live(s, es)
    ensures var r := Run(d, s, held); if r.alive then live(r.state, es + r.events) else dead(r.state, es + r.events)
    decreases |held|
  {
    assert TracedAt(d, live, dead, s, es, held);
    assert es + [] == es;
    var o := d(s, held);
    if o.Unit? && 0 < o.used <= |held| {
      RunTraces(d, live, dead, o.next, es + o.events, held[o.used..]);
      var r := Run(d, o.next, held[o.used..]);
      assert es + (o.events + r.events) == es + o.events + r.events;
    }
  }

  // What every unit keeps of state and events, every run keeps, however the input is split.
  lemma {:induction false} FeedTraces<B(!new), S(!new), E(!new)>(
    d: (S, seq<B>) -> Outcome<S, E>, live: (S, seq<E>) -> bool, dead: (S, seq<E>) -> bool,
    p: Session<B, S, E>, inputs: seq<seq<B>>)
    requires forall s, es, b | live(s, es) :: TracedAt(d, live, dead, s, es, b)
    requires if p.alive then live(p.state, p.events) else dead(p.state, p.events)
    ensures var r := FeedAll(d, p, inputs); if r.alive then live(r.state, r.events) else dead(r.state, r.events)
    decreases |inputs|
  {
    if inputs != [] {
      if p.alive { RunTraces(d, live, dead, p.state, p.events, p.held + inputs[0]); }
      FeedTraces(d, live, dead, Feed(d, p, inputs[0]), inputs[1..]);
    }
  }
}
