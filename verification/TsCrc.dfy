/**
  The MPEG-2 section CRC (videots.cpp, build_crc_table and ts_crc32; Annex A of ISO/IEC 13818-1):
  polynomial 0x04C11DB7, most significant bit first, initial value all ones.
 */
module TsCrc {
  type octets = seq<bv8>

  // ---------------------------------------------------------------- the register

  function Poly(): bv32 { 0x04C11DB7 }
  function Ones(): bv32 { 0xFFFFFFFF }
  function Xor(a: bv32, b: bv32): bv32 { a ^ b }
  function Double(c: bv32): bv32 { c << 1 }
  predicate High(c: bv32) { c & 0x80000000 != 0 }

  // A byte at the top of the register, and the register moved up by a byte.
  function Up(b: bv8): bv32 { (b as bv32) << 24 }
  function Lift(c: bv32): bv32 { c << 8 }
  predicate Low(c: bv32) { c & 0xFF000000 == 0 }

  // ---------------------------------------------------------------- bit-serial division

  // Multiply the remainder by x, modulo the polynomial.
  function Shift(c: bv32): bv32
  {
    if High(c) then Xor(Double(c), Poly()) else Double(c)
  }

  function Shifts(c: bv32, n: nat): bv32
    decreases n
  {
    if n == 0 then c else Shifts(Shift(c), n - 1)
  }

  // A message bit enters at the top.
  function TopBit(b: bv8): bv32 { if b & 0x80 != 0 then 0x80000000 else 0 }
  function NextBit(b: bv8): bv8 { b << 1 }

  // Take the first n bits of b into the division, most significant first.
  function Bits(c: bv32, b: bv8, n: nat): bv32
    decreases n
  {
    if n == 0 then c else Bits(Shift(Xor(c, TopBit(b))), NextBit(b), n - 1)
  }

  // The reference: one bit at a time over the whole message.
  function Serial(c: bv32, data: octets): bv32
    decreases |data|
  {
    if data == [] then c else Serial(Bits(c, data[0], 8), data[1..])
  }

  // ---------------------------------------------------------------- the table form

  function TopByte(c: bv32): bv8 { (c >> 24) as bv8 }

  function Index(c: bv32, b: bv8): bv8 { TopByte(c) ^ b }

  function Entry(i: bv8): bv32 { Shifts(Up(i), 8) }

  function Step(c: bv32, b: bv8): bv32 { Xor(Lift(c), Entry(Index(c, b))) }

  function Crc(c: bv32, data: octets): bv32
    decreases |data|
  {
    if data == [] then c else Crc(Step(c, data[0]), data[1..])
  }

  // ---------------------------------------------------------------- bit-vector facts

  lemma XorAssoc(a: bv32, b: bv32, c: bv32)
    ensures Xor(a, Xor(b, c)) == Xor(Xor(a, b), c)
  {
  }

  lemma XorComm(a: bv32, b: bv32)
    ensures Xor(a, b) == Xor(b, a)
  {
  }

  lemma XorZero(a: bv32)
    ensures Xor(a, 0) == a
  {
  }

  lemma XorNil(a: bv32)
    ensures Xor(a, a) == 0
  {
  }

  lemma XorSelf(a: bv32, b: bv32)
    ensures Xor(a, b) == 0 <==> a == b
  {
    hide Xor;
    XorNil(a);
    XorAssoc(a, a, b);
    XorZero(a);
    XorZero(b);
    XorComm(b, 0);
  }

  lemma XorCancel(a: bv32, b: bv32, x: bv32)
    requires Xor(a, x) == Xor(b, x)
    ensures a == b
  {
  }

  lemma XorBoth(a: bv32, b: bv32, x: bv32)
    ensures Xor(Xor(a, x), Xor(b, x)) == Xor(a, b)
  {
    hide Xor;
    XorComm(b, x);
    XorAssoc(Xor(a, x), x, b);
    XorAssoc(a, x, x);
    XorSelf(x, x);
    XorZero(a);
  }

  lemma DoubleXor(a: bv32, b: bv32)
    ensures Double(Xor(a, b)) == Xor(Double(a), Double(b))
  {
  }

  lemma HighXor(a: bv32, b: bv32)
    ensures High(Xor(a, b)) <==> High(a) != High(b)
  {
  }

  // ---------------------------------------------------------------- linearity

  lemma ShiftLinear(a: bv32, b: bv32)
    ensures Shift(Xor(a, b)) == Xor(Shift(a), Shift(b))
  {
    hide Xor, Double, High, Poly;
    var x, y, p := Double(a), Double(b), Poly();
    DoubleXor(a, b);
    HighXor(a, b);
    XorBoth(x, y, p);
    XorAssoc(x, y, p);
    XorAssoc(x, p, y);
    XorComm(p, y);
  }

  lemma {:induction false} ShiftsLinear(a: bv32, b: bv32, n: nat)
    ensures Shifts(Xor(a, b), n) == Xor(Shifts(a, n), Shifts(b, n))
    decreases n
  {
    hide Shift, Xor;
    if n > 0 {
      ShiftLinear(a, b);
      ShiftsLinear(Shift(a), Shift(b), n - 1);
    }
  }

  lemma {:induction false} ShiftsAdd(c: bv32, m: nat, n: nat)
    ensures Shifts(Shifts(c, m), n) == Shifts(c, m + n)
    decreases m
  {
    hide Shift;
    if m > 0 { ShiftsAdd(Shift(c), m - 1, n); }
  }

  function Doubles(x: bv32, n: nat): bv32
    decreases n
  {
    if n == 0 then x else Doubles(Double(x), n - 1)
  }

  predicate Clear(x: bv32, n: nat)
    decreases n
  {
    n == 0 || (!High(x) && Clear(Double(x), n - 1))
  }

  lemma {:induction false} ShiftsClear(x: bv32, n: nat)
    requires Clear(x, n)
    ensures Shifts(x, n) == Doubles(x, n)
    decreases n
  {
    hide High, Double, Xor, Poly;
    if n > 0 { ShiftsClear(Double(x), n - 1); }
  }

  lemma EightDoubles(x: bv32)
    ensures Double(Double(Double(Double(Double(Double(Double(Double(x)))))))) == Lift(x)
  {
  }

  // x has k clear bits at the top.
  predicate TopClear(x: bv32, k: bv32) { x & k == 0 }

  lemma ClearStep(x: bv32, k: bv32)
    requires TopClear(x, k) && k & 0x80000000 != 0
    ensures !High(x) && TopClear(Double(x), k << 1)
  {
  }

  lemma LowClear(x: bv32)
    requires Low(x)
    ensures Clear(x, 8)
  {
    hide High, Double, TopClear;
    assert TopClear(x, 0xFF000000) by { LowIsClear(x); }
    var a := Double(x);
    var b := Double(a);
    var c := Double(b);
    var d := Double(c);
    var e := Double(d);
    var f := Double(e);
    var g := Double(f);
    ClearStep(x, 0xFF000000);
    ClearStep(a, 0xFE000000);
    ClearStep(b, 0xFC000000);
    ClearStep(c, 0xF8000000);
    ClearStep(d, 0xF0000000);
    ClearStep(e, 0xE0000000);
    ClearStep(f, 0xC0000000);
    ClearStep(g, 0x80000000);
    assert Clear(g, 1);
    assert Clear(f, 2);
    assert Clear(e, 3);
    assert Clear(d, 4);
    assert Clear(c, 5);
    assert Clear(b, 6);
    assert Clear(a, 7);
  }

  lemma LowIsClear(x: bv32)
    requires Low(x)
    ensures TopClear(x, 0xFF000000)
  {
  }

  lemma DoublesEight(x: bv32)
    ensures Doubles(x, 8) == Lift(x)
  {
    hide Double;
    EightDoubles(x);
    var a := Double(x);
    var b := Double(a);
    var c := Double(b);
    var d := Double(c);
    assert Doubles(d, 4) == Double(Double(Double(Double(d))));
    assert Doubles(x, 8) == Doubles(d, 4);
  }

  // Bytes below the top move up untouched.
  lemma ShiftsLow(x: bv32)
    requires Low(x)
    ensures Shifts(x, 8) == Lift(x)
  {
    hide Clear, Doubles, Shifts;
    LowClear(x);
    ShiftsClear(x, 8);
    DoublesEight(x);
  }

  // ---------------------------------------------------------------- table equals bit-serial

  function Rest(b: bv8): bv32 { Up(b) & 0x7FFFFFFF }

  lemma SplitTop(b: bv8)
    ensures Up(b) == Xor(TopBit(b), Rest(b)) && !High(Rest(b)) && Double(Rest(b)) == Up(NextBit(b))
  {
  }

  // One bit entering at the top, the others of its byte being there already.
  lemma BitStep(c: bv32, b: bv8)
    ensures Shift(Xor(c, Up(b))) == Xor(Shift(Xor(c, TopBit(b))), Up(NextBit(b)))
  {
    hide Up, TopBit, Rest, NextBit, Xor, Double, High;
    SplitTop(b);
    XorAssoc(c, TopBit(b), Rest(b));
    ShiftLinear(Xor(c, TopBit(b)), Rest(b));
  }

  function Gone(b: bv8, n: nat): bv8
    decreases n
  {
    if n == 0 then b else Gone(NextBit(b), n - 1)
  }

  // Bits entering one at a time have the effect of all of them placed at the top at once.
  lemma {:induction false} BitsAtOnce(c: bv32, b: bv8, n: nat)
    ensures Shifts(Xor(c, Up(b)), n) == Xor(Bits(c, b, n), Up(Gone(b, n)))
    decreases n
  {
    hide Shift, Up, TopBit, Xor, NextBit;
    if n > 0 {
      BitStep(c, b);
      BitsAtOnce(Shift(Xor(c, TopBit(b))), NextBit(b), n - 1);
    }
  }

  lemma EightNext(b: bv8)
    ensures Up(NextBit(NextBit(NextBit(NextBit(NextBit(NextBit(NextBit(NextBit(b))))))))) == 0
  {
  }

  lemma AllGone(b: bv8)
    ensures Up(Gone(b, 8)) == 0
  {
    hide NextBit, Up;
    EightNext(b);
    var d := NextBit(NextBit(NextBit(NextBit(b))));
    assert Gone(d, 4) == NextBit(NextBit(NextBit(NextBit(d))));
    assert Gone(b, 8) == Gone(d, 4);
  }

  function LowPart(c: bv32): bv32 { c & 0x00FFFFFF }

  lemma SplitRegister(c: bv32)
    ensures c == Xor(LowPart(c), Up(TopByte(c)))
    ensures Low(LowPart(c)) && Lift(LowPart(c)) == Lift(c)
  {
  }

  lemma UpXor(a: bv8, b: bv8)
    ensures Xor(Up(a), Up(b)) == Up(a ^ b)
  {
  }

  lemma StepShifts(c: bv32, b: bv8)
    ensures Step(c, b) == Shifts(Xor(c, Up(b)), 8)
  {
    hide Shifts, Up, Xor, LowPart, Lift, Low;
    SplitRegister(c);
    XorAssoc(LowPart(c), Up(TopByte(c)), Up(b));
    UpXor(TopByte(c), b);
    ShiftsLow(LowPart(c));
    ShiftsLinear(LowPart(c), Up(Index(c, b)), 8);
  }

  lemma StepIsSerial(c: bv32, b: bv8)
    ensures Step(c, b) == Bits(c, b, 8)
  {
    hide Shifts, Up, Gone, Step, Bits, Xor;
    StepShifts(c, b);
    BitsAtOnce(c, b, 8);
    AllGone(b);
    XorZero(Bits(c, b, 8));
  }

  // The table-driven CRC is the remainder of bit-by-bit polynomial division.
  lemma {:induction false} TableIsSerial(c: bv32, data: octets)
    ensures Crc(c, data) == Serial(c, data)
    decreases |data|
  {
    hide Step, Bits;
    if data != [] {
      StepIsSerial(c, data[0]);
      TableIsSerial(Step(c, data[0]), data[1..]);
    }
  }

  // ---------------------------------------------------------------- nothing is forgotten

  // Division by x: the polynomial has a constant term, so the bit that was lost is known.
  predicate Odd(c: bv32) { c & 1 != 0 }
  function Half(c: bv32): bv32 { c >> 1 }
  function SetHigh(c: bv32): bv32 { c | 0x80000000 }

  function Back(c: bv32): bv32
  {
    if Odd(c) then SetHigh(Half(Xor(c, Poly()))) else Half(c)
  }

  lemma OddAfter(c: bv32)
    ensures !Odd(Double(c)) && Odd(Xor(Double(c), Poly()))
  {
  }

  lemma HalfDouble(c: bv32)
    ensures High(c) ==> SetHigh(Half(Double(c))) == c
    ensures !High(c) ==> Half(Double(c)) == c
  {
  }

  lemma BackShift(c: bv32)
    ensures Back(Shift(c)) == c
  {
    hide Odd, Half, SetHigh, Xor, Double, High, Poly;
    var d, p := Double(c), Poly();
    OddAfter(c);
    HalfDouble(c);
    XorAssoc(d, p, p);
    XorSelf(p, p);
    XorZero(d);
  }

  lemma {:induction false} ShiftsInjective(a: bv32, b: bv32, n: nat)
    requires Shifts(a, n) == Shifts(b, n)
    ensures a == b
    decreases n
  {
    hide Shift, Back;
    if n > 0 {
      ShiftsInjective(Shift(a), Shift(b), n - 1);
      BackShift(a);
      BackShift(b);
    }
  }

  // Different remainders stay different whatever follows.
  lemma {:induction false} CrcInjective(a: bv32, b: bv32, data: octets)
    requires Crc(a, data) == Crc(b, data)
    ensures a == b
    decreases |data|
  {
    hide Step, Shifts, Up, Xor;
    if data != [] {
      var x := data[0];
      CrcInjective(Step(a, x), Step(b, x), data[1..]);
      StepShifts(a, x);
      StepShifts(b, x);
      ShiftsInjective(Xor(a, Up(x)), Xor(b, Up(x)), 8);
      XorCancel(a, b, Up(x));
    }
  }

  lemma {:induction false} CrcAppend(c: bv32, a: octets, b: octets)
    ensures Crc(c, a + b) == Crc(Crc(c, a), b)
    decreases |a|
  {
    hide Step;
    if a == [] {
      assert a + b == b;
    } else {
      assert (a + b)[1..] == a[1..] + b;
      CrcAppend(Step(c, a[0]), a[1..], b);
    }
  }

  // ---------------------------------------------------------------- four bytes at a time

  function Wide(b: bv8): bv32 { b as bv32 }

  // A byte k places from the bottom of the register.
  function Place(b: bv8, k: nat): bv32
  {
    if k == 0 then Wide(b) else if k == 1 then Lift(Wide(b)) else if k == 2 then Lift(Lift(Wide(b))) else Up(b)
  }

  lemma PlaceUp(b: bv8)
    ensures Lift(Lift(Lift(Wide(b)))) == Up(b)
  {
  }

  lemma PlaceLow(b: bv8)
    ensures Low(Wide(b)) && Low(Lift(Wide(b))) && Low(Lift(Lift(Wide(b))))
  {
  }

  // Shifting n bytes up brings a byte k places up to k + n.
  lemma {:induction false} PlaceShifts(b: bv8, k: nat, n: nat)
    requires k + n <= 3
    ensures Shifts(Place(b, k), 8 * n) == Place(b, k + n)
    decreases n
  {
    hide Up, Lift, Low, Shift, Wide;
    assert Shifts(Place(b, k), 0) == Place(b, k);
    if n > 0 {
      hide Shifts;
      PlaceUp(b);
      PlaceLow(b);
      assert Place(b, k + 1) == Lift(Place(b, k));
      ShiftsLow(Place(b, k));
      PlaceShifts(b, k + 1, n - 1);
      ShiftsAdd(Place(b, k), 8, 8 * (n - 1));
    }
  }

  lemma AtTop(b: bv8)
    ensures Place(b, 3) == Up(b)
  {
  }

  // A byte that enters after n shifts can be put in beforehand, n / 8 places down.
  lemma Early(c: bv32, b: bv8, n: nat)
    requires n <= 3
    ensures Step(Shifts(c, 8 * n), b) == Shifts(Xor(c, Place(b, 3 - n)), 8 * n + 8)
  {
    hide Shifts, Up, Xor, Place, Step;
    var s := Shifts(c, 8 * n);
    StepShifts(s, b);
    AtTop(b);
    PlaceShifts(b, 3 - n, n);
    ShiftsLinear(c, Place(b, 3 - n), 8 * n);
    ShiftsAdd(Xor(c, Place(b, 3 - n)), 8 * n, 8);
  }

  function Word(w: octets): bv32
    requires |w| == 4
  {
    Xor(Xor(Xor(Place(w[0], 3), Place(w[1], 2)), Place(w[2], 1)), Place(w[3], 0))
  }

  lemma FourSteps(c: bv32, w: octets)
    requires |w| == 4
    ensures Crc(c, w) == Step(Step(Step(Step(c, w[0]), w[1]), w[2]), w[3])
  {
    hide Step;
    var x := Step(c, w[0]);
    var y := Step(x, w[1]);
    var z := Step(y, w[2]);
    assert w[1..][1..] == w[2..] && w[2..][1..] == w[3..] && w[3..][1..] == [];
    assert Crc(z, w[3..]) == Step(z, w[3]);
    assert Crc(y, w[2..]) == Crc(z, w[3..]);
    assert Crc(x, w[1..]) == Crc(y, w[2..]);
  }

  // Four bytes from remainder c: thirty-two shifts of c with the bytes added in.
  lemma FourBytes(c: bv32, w: octets)
    requires |w| == 4
    ensures Crc(c, w) == Shifts(Xor(c, Word(w)), 32)
  {
    hide Step, Xor, Place, Crc;
    var p, q, r, t := Place(w[0], 3), Place(w[1], 2), Place(w[2], 1), Place(w[3], 0);
    FourSteps(c, w);
    assert Shifts(c, 0) == c;
    hide Shifts;
    Early(c, w[0], 0);
    Early(Xor(c, p), w[1], 1);
    Early(Xor(Xor(c, p), q), w[2], 2);
    Early(Xor(Xor(Xor(c, p), q), r), w[3], 3);
    XorAssoc(c, p, q);
    XorAssoc(c, Xor(p, q), r);
    XorAssoc(c, Xor(Xor(p, q), r), t);
  }

  lemma {:induction false} ShiftsZero(n: nat)
    ensures Shifts(0, n) == 0
  {
    if n > 0 {
      ZeroShift();
      ShiftsZero(n - 1);
    }
  }

  lemma ZeroShift()
    ensures Shift(0) == 0
  {
  }

  // ---------------------------------------------------------------- what the check accepts

  // A section passes when the remainder over all of it, CRC included, is zero.
  predicate Passes(section: octets)
  {
    Crc(Ones(), section) == 0
  }

  // Data followed by four bytes passes exactly when those bytes are the CRC of the data.
  lemma ResidueZero(data: octets, w: octets)
    requires |w| == 4
    ensures Passes(data + w) <==> Word(w) == Crc(Ones(), data)
  {
    hide Crc, Shifts, Word, Xor;
    var c := Crc(Ones(), data);
    CrcAppend(Ones(), data, w);
    FourBytes(c, w);
    ShiftsZero(32);
    if Shifts(Xor(c, Word(w)), 32) == 0 { ShiftsInjective(Xor(c, Word(w)), 0, 32); }
    XorSelf(c, Word(w));
  }

  // Each 32-bit value is spelled by exactly one group of four bytes.
  function Raw(a: bv8, b: bv8, c: bv8, d: bv8): bv32
  {
    ((a as bv32) << 24) ^ ((b as bv32) << 16) ^ ((c as bv32) << 8) ^ (d as bv32)
  }

  lemma RawInjective(a: bv8, b: bv8, c: bv8, d: bv8, e: bv8, f: bv8, g: bv8, h: bv8)
    requires Raw(a, b, c, d) == Raw(e, f, g, h)
    ensures a == e && b == f && c == g && d == h
  {
  }

  lemma LiftTwice(b: bv8)
    ensures Lift(Lift(Wide(b))) == (b as bv32) << 16
  {
  }

  lemma WordIsRaw(w: octets)
    requires |w| == 4
    ensures Word(w) == Raw(w[0], w[1], w[2], w[3])
  {
    LiftTwice(w[1]);
  }

  lemma WordInjective(a: octets, b: octets)
    requires |a| == |b| == 4 && Word(a) == Word(b)
    ensures a == b
  {
    hide Word, Raw;
    WordIsRaw(a);
    WordIsRaw(b);
    RawInjective(a[0], a[1], a[2], a[3], b[0], b[1], b[2], b[3]);
  }

  // Two sections of equal length that differ only within four consecutive bytes have different
  // remainders, so they never both pass.
  lemma BurstDetected(pre: octets, a: octets, b: octets, post: octets)
    requires |a| == |b| == 4 && a != b
    ensures Crc(Ones(), pre + a + post) != Crc(Ones(), pre + b + post)
    ensures !(Passes(pre + a + post) && Passes(pre + b + post))
  {
    hide Crc, Shifts, Word, Xor;
    var c := Crc(Ones(), pre);
    CrcAppend(Ones(), pre + a, post);
    CrcAppend(Ones(), pre + b, post);
    CrcAppend(Ones(), pre, a);
    CrcAppend(Ones(), pre, b);
    if Crc(Ones(), pre + a + post) == Crc(Ones(), pre + b + post) {
      CrcInjective(Crc(c, a), Crc(c, b), post);
      FourBytes(c, a);
      FourBytes(c, b);
      ShiftsInjective(Xor(c, Word(a)), Xor(c, Word(b)), 32);
      XorComm(c, Word(a));
      XorComm(c, Word(b));
      XorCancel(Word(a), Word(b), c);
      WordInjective(a, b);
    }
  }

  // ---------------------------------------------------------------- the program

  class CrcTable {
    const entries: array<bv32>
    var built: bool

    ghost predicate Valid()
      reads this, entries
    {
      entries.Length == 256 && (built ==> Filled(entries[..], 256))
    }

    static ghost predicate Filled(t: seq<bv32>, n: nat)
    {
      |t| == 256 && forall i :: 0 <= i < n <= 256 ==> t[i] == Entry(i as bv8)
    }

    constructor ()
      ensures Valid() && fresh(entries)
    {
      entries := new bv32[256];
      built := false;
    }

    method Build()
      requires Valid()
      modifies this, entries
      ensures Valid() && built
    {
      hide Entry;
      var i := 0;
      while i < 256
        invariant 0 <= i <= 256 && Filled(entries[..], i)
      {
        var c := BuildEntry(i as bv8);
        entries[i] := c;
        i := i + 1;
      }
      built := true;
    }

    static method BuildEntry(i: bv8) returns (c: bv32)
      ensures c == Entry(i)
    {
      c := Up(i);
      hide Up, Shift;
      var k := 0;
      while k < 8
        invariant 0 <= k <= 8 && Shifts(c, 8 - k) == Shifts(Up(i), 8)
      {
        c := Advance(c);
        k := k + 1;
      }
    }

    static method Advance(c: bv32) returns (d: bv32)
      ensures d == Shift(c)
    {
      if c & 0x80000000 != 0 { d := (c << 1) ^ 0x04C11DB7; } else { d := c << 1; }
    }

    // The table is built on first use.
    method Crc32(data: octets) returns (crc: bv32)
      requires Valid()
      modifies this, entries
      ensures Valid() && crc == Serial(Ones(), data)
    {
      hide Step, Serial;
      if !built { Build(); }
      crc := Ones();
      var i := 0;
      while i < |data|
        invariant 0 <= i <= |data| && Valid() && built
        invariant Crc(crc, data[i..]) == Crc(Ones(), data)
      {
        assert data[i..][1..] == data[i + 1..];
        crc := LookUp(crc, data[i]);
        i := i + 1;
      }
      TableIsSerial(Ones(), data);
    }

    method LookUp(crc: bv32, b: bv8) returns (next: bv32)
      requires Valid() && built
      ensures next == Step(crc, b)
    {
      hide Entry, Lift, Index, Xor;
      var x := Index(crc, b);
      SameByte(x);
      next := Xor(Lift(crc), entries[x as int]);
    }
  }

  lemma SameByte(b: bv8)
    ensures (b as int) as bv8 == b
  {
  }
}
