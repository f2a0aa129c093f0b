/**
  The table of engineer connections in the main loop (supportproxy.cpp): a hundred slots, a count of
  those in use, and a watermark below which every scan looks. The watermark is never computed from
  the table on arrival; it is raised to the count. That this is right depends on slots being handed
  out lowest first, and is what is proved here.
 */
module EngineerSlots {
  import opened Numbers

  const LINKS := 100

  datatype Table = Table(used: seq<bool>, count: nat, mark: nat)

  const EMPTY := Table(seq(LINKS, _ => false), 0, 0)

  function CountUsed(used: seq<bool>): (n: nat)
    ensures n <= |used|
  {
    if used == [] then 0
    else CountUsed(used[..|used| - 1]) + if used[|used| - 1] then 1 else 0
  }

  // One above the highest slot in use, 0 if none is.
  ghost predicate IsTop(used: seq<bool>, mark: nat)
  {
    && mark <= |used|
    && (mark > 0 ==> used[mark - 1])
    && forall i | mark <= i < |used| :: !used[i]
  }

  ghost predicate Exact(t: Table)
  {
    && |t.used| == LINKS
    && t.count == CountUsed(t.used)
    && IsTop(t.used, t.mark)
  }

  function FirstFree(used: seq<bool>, from: nat): (i: nat)
    requires from <= |used|
    ensures from <= i <= |used|
    ensures i < |used| ==> !used[i]
    ensures forall k | from <= k < i :: used[k]
    decreases |used| - from
  {
    if from == |used| || !used[from] then from else FirstFree(used, from + 1)
  }

  // The first free slot is taken, if there is one.
  function Occupy(t: Table): Table
    requires |t.used| == LINKS
  {
    var i := FirstFree(t.used, 0);
    if i == LINKS then t else Table(t.used[i := true], t.count + 1, Max(t.mark, t.count + 1))
  }

  function Shrink(used: seq<bool>, mark: nat): nat
    requires mark <= |used|
    decreases mark
  {
    if mark > 0 && !used[mark - 1] then Shrink(used, mark - 1) else mark
  }

  function Vacate(t: Table, i: nat): Table
    requires i < |t.used| && t.mark <= |t.used|
  {
    var used := t.used[i := false];
    Table(used, if t.count > 0 then t.count - 1 else 0, Shrink(used, t.mark))
  }

  // ---------------------------------------------------------------- counting

  lemma {:induction false} CountUpdate(used: seq<bool>, i: nat, b: bool)
    requires i < |used|
    ensures CountUsed(used[i := b]) == CountUsed(used) - (if used[i] then 1 else 0) + if b then 1 else 0
  {
    var n := |used| - 1;
    if i < n {
      CountUpdate(used[..n], i, b);
      assert used[i := b][..n] == used[..n][i := b];
    } else {
      assert used[i := b][..n] == used[..n];
    }
  }

  // With nothing in use from the mark on, the count is at most the mark, and less if a slot below is free.
  lemma {:induction false} CountBelow(used: seq<bool>, mark: nat)
    requires mark <= |used| && forall i | mark <= i < |used| :: !used[i]
    ensures CountUsed(used) <= mark
    ensures (exists i :: 0 <= i < mark && !used[i]) ==> CountUsed(used) < mark
    ensures (forall i | 0 <= i < mark :: used[i]) ==> CountUsed(used) == mark
  {
    if used != [] {
      var n := |used| - 1;
      CountBelow(used[..n], if mark <= n then mark else n);
    }
  }

  lemma {:induction false} ShrinkIsTop(used: seq<bool>, mark: nat)
    requires mark <= |used| && forall i | mark <= i < |used| :: !used[i]
    ensures IsTop(used, Shrink(used, mark))
    ensures Shrink(used, mark) <= mark
    decreases mark
  {
    if mark > 0 && !used[mark - 1] { ShrinkIsTop(used, mark - 1); }
  }

  // ---------------------------------------------------------------- steps

  lemma OccupyExact(t: Table)
    requires Exact(t)
    ensures Exact(Occupy(t))
    ensures t.count < LINKS <==> Occupy(t) != t
    ensures t.count < LINKS ==> Occupy(t).count == t.count + 1
  {
    var i := FirstFree(t.used, 0);
    CountBelow(t.used, t.mark);
    CountBelow(t.used, LINKS);
    if i < LINKS {
      assert !t.used[i];
      CountUpdate(t.used, i, true);
      if i < t.mark {
        assert t.count < t.mark;
      } else {
        assert t.mark < LINKS ==> !t.used[t.mark];
        assert i == t.mark == t.count;
      }
    }
  }

  lemma VacateExact(t: Table, i: nat)
    requires Exact(t) && i < LINKS && t.used[i]
    ensures Exact(Vacate(t, i)) && Vacate(t, i).count == t.count - 1
    ensures Vacate(t, i).used == t.used[i := false] && Vacate(t, i).mark <= t.mark
  {
    CountUpdate(t.used, i, false);
    ShrinkIsTop(t.used[i := false], t.mark);
  }

  // The deadline scan: slots below the watermark are visited in order while closing moves the watermark.
  function Sweep(t: Table, i: nat, expired: set<nat>): Table
    requires |t.used| == LINKS && t.mark <= LINKS
    decreases LINKS - i
  {
    if i >= t.mark then t
    else if t.used[i] && i in expired then
      var v := Vacate(t, i);
      if v.mark <= LINKS then Sweep(v, i + 1, expired) else v
    else Sweep(t, i + 1, expired)
  }

  function Survivors(used: seq<bool>, i: nat, expired: set<nat>): seq<bool>
  {
    seq(|used|, k requires 0 <= k < |used| => used[k] && !(i <= k && k in expired))
  }

  // No expired connection is missed although the watermark shrinks under the scan, and no other is closed.
  lemma {:induction false} SweepExact(t: Table, i: nat, expired: set<nat>)
    requires Exact(t)
    ensures Exact(Sweep(t, i, expired))
    ensures Sweep(t, i, expired).used == Survivors(t.used, i, expired)
    decreases LINKS - i
  {
    hide Exact, CountUsed;
    assert |t.used| == LINKS && IsTop(t.used, t.mark) by { Unfold(t); }
    if i < t.mark {
      if t.used[i] && i in expired {
        VacateExact(t, i);
        Unfold(Vacate(t, i));
        SweepExact(Vacate(t, i), i + 1, expired);
      } else {
        SweepExact(t, i + 1, expired);
      }
    }
  }

  lemma Unfold(t: Table)
    requires Exact(t)
    ensures |t.used| == LINKS && IsTop(t.used, t.mark) && t.count == CountUsed(t.used)
  {
  }

  datatype Event = Udp | Tcp | Drop(slot: nat) | Deadlines(expired: set<nat>)

  // A TCP arrival looks at the count before it looks for a slot; a UDP arrival does not.
  function Step(t: Table, e: Event): Table
    requires |t.used| == LINKS && t.mark <= LINKS
  {
    match e
    case Udp => Occupy(t)
    case Tcp => if t.count >= LINKS then t else Occupy(t)
    case Drop(slot) => if slot < LINKS && t.used[slot] then Vacate(t, slot) else t
    case Deadlines(expired) => Sweep(t, 0, expired)
  }

  lemma StepExact(t: Table, e: Event)
    requires Exact(t)
    ensures Exact(Step(t, e))
  {
    hide CountUsed;
    match e
    case Udp => OccupyExact(t);
    case Tcp => OccupyExact(t);
    case Drop(slot) => if slot < LINKS && t.used[slot] { VacateExact(t, slot); }
    case Deadlines(expired) => SweepExact(t, 0, expired);
  }

  ghost function Run(t: Table, es: seq<Event>): Table
    requires Exact(t)
    decreases |es|
  {
    if es == [] then t else StepExact(t, es[0]); Run(Step(t, es[0]), es[1..])
  }

  // On every run the count is the number of slots in use, the watermark is one above the highest, so
  // no connection drops out of a scan and the clamp at 100 has nothing to do.
  lemma {:induction false} EveryRun(t: Table, es: seq<Event>)
    requires Exact(t)
    ensures var r := Run(t, es);
      && |r.used| == LINKS && r.count == CountUsed(r.used) <= LINKS
      && IsTop(r.used, r.mark) && r.mark <= LINKS
      && forall i | 0 <= i < LINKS && r.used[i] :: i < r.mark
    decreases |es|
  {
    if es == [] {
    } else {
      StepExact(t, es[0]);
      EveryRun(Step(t, es[0]), es[1..]);
    }
  }

  lemma EmptyExact()
    ensures Exact(EMPTY)
  {
    CountBelow(EMPTY.used, 0);
  }

  // ---------------------------------------------------------------- as programmed

  class Slots {
    const used: array<bool>
    var count: nat
    var mark: nat

    ghost function Value(): Table
      reads this, used
    {
      Table(used[..], count, mark)
    }

    ghost predicate Valid()
      reads this, used
    {
      Exact(Value())
    }

    constructor ()
      ensures Valid() && fresh(used) && Value() == EMPTY
    {
      used := new bool[LINKS](_ => false);
      count, mark := 0, 0;
      new;
      assert used[..] == EMPTY.used;
      EmptyExact();
    }

    method FindFree() returns (i: nat)
      requires used.Length == LINKS
      ensures i == FirstFree(used[..], 0)
    {
      i := 0;
      while i < LINKS && used[i]
        invariant i <= LINKS && forall k | 0 <= k < i :: used[k]
      {
        i := i + 1;
      }
      ghost var j := FirstFree(used[..], 0);
      assert i < LINKS ==> !used[..][i];
      assert forall k | 0 <= k < j :: used[..][k];
      assert j < LINKS ==> !used[..][j];
    }

    method Arrive(tcp: bool) returns (slot: nat)
      requires Valid()
      modifies this, used
      ensures Valid() && Value() == Step(old(Value()), if tcp then Tcp else Udp)
      ensures slot < LINKS <==> old(count) < LINKS
      ensures slot < LINKS ==> !old(used[slot]) && used[slot]
    {
      hide CountUsed;
      OccupyExact(Value());
      if tcp && count >= LINKS { return LINKS; }
      slot := FindFree();
      if slot == LINKS { return; }
      count := count + 1;
      mark := Max(mark, count);
      used[slot] := true;
      assert used[..] == old(used[..])[slot := true];
    }

    method CloseSlot(i: nat)
      requires Valid() && i < LINKS && used[i]
      modifies this, used
      ensures Valid() && Value() == Vacate(old(Value()), i)
    {
      hide CountUsed;
      VacateExact(Value(), i);
      used[i] := false;
      assert used[..] == old(used[..])[i := false];
      if count > 0 { count := count - 1; }
      ghost var after := used[..];
      while mark > 0 && !used[mark - 1]
        invariant mark <= LINKS && used[..] == after && count == old(Vacate(Value(), i)).count
        invariant Shrink(after, mark) == Shrink(after, old(mark))
        decreases mark
      {
        mark := mark - 1;
      }
    }

    method CloseExpired(expired: set<nat>)
      requires Valid()
      modifies this, used
      ensures Valid() && Value() == Step(old(Value()), Deadlines(expired))
      ensures used[..] == Survivors(old(used[..]), 0, expired)
    {
      hide CountUsed, Vacate;
      SweepExact(Value(), 0, expired);
      var i := 0;
      while i < mark
        invariant i <= LINKS && Valid()
        invariant Sweep(Value(), i, expired) == Sweep(old(Value()), 0, expired)
        decreases LINKS - i
      {
        if used[i] && i in expired { CloseSlot(i); }
        i := i + 1;
      }
    }
  }
}
