/** The iterative divider (cpu/div.v). */
module Divider {
  import opened Arith
  import opened Words

  /** Quotient rounded toward zero, and the remainder that goes with it. */
  function Truncated(x: int, y: int): int
    requires y != 0
  {
    if (x < 0) == (y < 0) then Abs(x) / Abs(y) else -(Abs(x) / Abs(y))
  }

  function Remainder(x: int, y: int): int
    requires y != 0
  {
    if x < 0 then -(Abs(x) % Abs(y)) else Abs(x) % Abs(y)
  }

  /** DIV, DIVU, REM and REMU of section 7.2 of the RISC-V Unprivileged ISA. */
  function DivideSpec(a: u32, b: u32, divide: bool, signed: bool): u32 {
    if signed then
      if divide then Word(if b == 0 then -1 else Truncated(Signed(a), Signed(b)))
      else Word(if b == 0 then Signed(a) else Remainder(Signed(a), Signed(b)))
    else if divide then if b == 0 then WORD - 1 else a / b
    else if b == 0 then a else a % b
  }

  lemma Recombine(x: int, y: int, q: int, r: int)
    requires Abs(x) == Abs(y) * q + r
    ensures x == y * (if (x < 0) == (y < 0) then q else -q) + if x < 0 then -r else r
  {
    if x < 0 && y < 0 {
      assert Abs(y) * q == -(y * q);
    } else if x < 0 {
      assert Abs(y) * q == -(y * (-q));
    } else if y < 0 {
      assert Abs(y) * q == y * (-q);
    }
  }

  /** The quotient and remainder belong together. */
  lemma QuotientAndRemainder(x: int, y: int)
    requires y != 0
    ensures x == y * Truncated(x, y) + Remainder(x, y)
    ensures Abs(Remainder(x, y)) < Abs(y) && (Remainder(x, y) == 0 || (Remainder(x, y) < 0 <==> x < 0))
  {
    var a, b := Abs(x), Abs(y);
    var q: int, r: int := a / b, a % b;
    assert a == b * q + r by {
      DivMod(a, b);
      TimesIsProduct(b, Quot(a, b));
    }
    hide Times, Quot, Rem;
    Recombine(x, y, q, r);
  }

  /** Table 7.1: division by zero and the signed overflow. */
  lemma DivisionTable(a: u32)
    ensures DivideSpec(a, 0, true, false) == WORD - 1 && DivideSpec(a, 0, false, false) == a
    ensures DivideSpec(a, 0, true, true) == WORD - 1 && DivideSpec(a, 0, false, true) == a
    ensures DivideSpec(0x8000_0000, WORD - 1, true, true) == 0x8000_0000
    ensures DivideSpec(0x8000_0000, WORD - 1, false, true) == 0
  {
  }

  /** The registers of the divider. */
  datatype Regs = Regs(
    quotient: u32,
    mask: u32,
    dividend: u32,
    divisor: nat,       // 63 bits
    notzero: bool,      // a set bit of the divisor has passed
    state: nat,         // 0 idle, 1 busy, 2 signalling the end
    finished: bool,
    result: u32)

  /** The inputs of a clock. */
  datatype Input = Input(en: bool, dividend: u32, divisor: u32, divide: bool, signed: bool, reset: bool)

  /** The magnitude of an operand. */
  function Magnitude(x: u32, signed: bool): u32 {
    if signed && Negative(x) then Negate(x) else x
  }

  predicate NegateResult(i: Input, notzero: bool) {
    || (i.divide && i.signed && Negative(i.dividend) != Negative(i.divisor) && notzero)
    || (!i.divide && i.signed && Negative(i.dividend))
  }

  function Narrow(x: nat): u32 {
    x % WORD
  }

  /** The idle state at a clock edge. */
  function Started(r: Regs, i: Input): Regs {
    var s := r.(quotient := 0, mask := 0x8000_0000, finished := false, notzero := false);
    if i.en then
      s.(dividend := Magnitude(i.dividend, i.signed),
         divisor := Shl(Magnitude(i.divisor, i.signed), 31), state := 1)
    else s
  }

  /** The busy state at a clock edge. */
  function Stepped(r: Regs, i: Input): Regs {
    var out := if i.divide then r.quotient else r.dividend;
    var s := if r.finished
             then r.(result := if NegateResult(i, r.notzero) then Negate(out) else out, state := 2) else r;
    var t := if r.divisor <= r.dividend
             then s.(dividend := r.dividend - r.divisor, quotient := Narrow(Or(r.quotient, r.mask))) else s;
    t.(notzero := r.notzero || Shr(r.divisor, 31) % 2 == 1, finished := r.mask % 2 == 1,
       divisor := r.divisor / 2, mask := r.mask / 2)
  }

  /** One rising clock edge. */
  function Next(r: Regs, i: Input): Regs {
    var r' := if r.state == 0 then Started(r, i) else if r.state == 1 then Stepped(r, i) else r.(state := 0);
    if i.reset then r'.(state := 0) else r'
  }

  /** A bit of `x` below the `n`-th is set. */
  predicate LowBits(x: nat, n: nat) {
    n > 0 && (LowBits(x, n - 1) || Shr(x, n - 1) % 2 == 1)
  }

  lemma {:induction false} LowBitsShift(x: nat, n: nat)
    requires n > 0
    ensures LowBits(x, n) <==> x % 2 == 1 || LowBits(x / 2, n - 1)
  {
    if n <= 1 {
    } else {
      LowBitsShift(x, n - 1);
    }
  }

  /** Once all its bits have passed, a divisor with none set was zero. */
  lemma {:induction false} AllBits(x: nat, n: nat)
    requires x < Pow2(n)
    ensures LowBits(x, n) <==> x != 0
  {
    if n == 0 {
    } else {
      LowBitsShift(x, n);
      AllBits(x / 2, n - 1);
    }
  }

  /** The state after `n` steps of dividing `a` by `b`, of which `h` is the quotient so far:
      the dividend is the quotient times the divisor, plus the rest, with the divisor sliding. */
  ghost predicate Dividing(r: Regs, a: u32, b: u32, n: nat, h: nat) {
    && r.state == 1 && n <= 32 && r.finished == (n == 32)
    && r.mask == (if n < 32 then Pow2(31 - n) else 0)
    && (n < 32 ==> r.divisor == Shl(b, 31 - n))
    && r.quotient == Shl(h, 32 - n)
    && r.notzero == LowBits(b, n)
    && a == Times(Shl(b, 32 - n), h) + r.dividend
    && (b != 0 ==> r.dividend < Shl(b, 32 - n))
    && (b == 0 ==> h == Pow2(n) - 1)
    && h < Pow2(n)
  }

  lemma {:induction false} Pow2Mono(m: nat, n: nat)
    requires m <= n
    ensures Pow2(m) <= Pow2(n)
  {
    if m >= n {
    } else {
      Pow2Mono(m, n - 1);
    }
  }

  lemma StepMask(n: nat)
    requires n < 32
    ensures Pow2(31 - n) < WORD && Pow2(n + 1) == 2 * Pow2(n)
    ensures Pow2(31 - n) / 2 == if n < 31 then Pow2(30 - n) else 0
    ensures Pow2(31 - n) % 2 == 1 <==> n == 31
  {
    Pow2Of32();
    Pow2Mono(31 - n, 31);
  }

  lemma StepDivisor(b: u32, n: nat)
    requires n < 32
    ensures Shl(b, 32 - n) == 2 * Shl(b, 31 - n)
    ensures n < 31 ==> Shl(b, 31 - n) / 2 == Shl(b, 30 - n)
  {
  }

  lemma {:induction false} ShlFits(h: nat, n: nat, k: nat)
    requires h < Pow2(n)
    ensures Shl(h, k) + Pow2(k) <= Pow2(n + k)
  {
    if k == 0 {
    } else {
      ShlFits(h, n, k - 1);
    }
  }

  lemma Pow2Positive(n: nat)
    ensures Pow2(n) >= 1
  {
  }

  lemma StepQuotient(h: nat, n: nat)
    requires n < 32 && h < Pow2(n)
    ensures 2 * h + 1 < 2 * Pow2(n) && Shl(2 * h + 1, 31 - n) < WORD
    ensures Shl(h, 32 - n) == Shl(2 * h, 31 - n) && Or(Shl(h, 32 - n), Pow2(31 - n)) == Shl(2 * h + 1, 31 - n)
  {
    Pow2Of32();
    ShlDouble(h, 31 - n);
    OrBelow(h, 31 - n);
    ShlFits(2 * h + 1, n + 1, 31 - n);
    Pow2Positive(31 - n);
  }

  /** The rest of the dividend against the next position of the divisor. */
  lemma StepRest(d: nat, h: nat)
    ensures Times(2 * d, h) == Times(d, 2 * h) && Times(d, 2 * h + 1) == Times(d, 2 * h) + d
  {
    TimesDouble(d, h);
  }

  lemma StepBits(b: u32, n: nat)
    requires n < 32
    ensures Shr(Shl(b, 31 - n), 31) % 2 == 1 <==> Shr(b, n) % 2 == 1
    ensures LowBits(b, n + 1) <==> LowBits(b, n) || Shr(b, n) % 2 == 1
  {
    ShrShl(b, 31 - n, n);
  }

  lemma {:induction false} ShlZero(k: nat)
    ensures Shl(0, k) == 0
  {
    if k == 0 {
    } else {
      ShlZero(k - 1);
    }
  }

  /** The trial subtraction of a step: the next quotient bit. */
  function NextQuotient(r: Regs, h: nat): nat {
    if r.divisor <= r.dividend then 2 * h + 1 else 2 * h
  }

  /** A step of the division keeps the invariant. */
  lemma DivideStep(r: Regs, i: Input, a: u32, b: u32, n: nat, h: nat)
    requires Dividing(r, a, b, n, h) && n < 32 && !i.reset
    ensures Dividing(Next(r, i), a, b, n + 1, NextQuotient(r, h))
  {
    hide Pow2, Times, Shl, Shr, Or, LowBits;
    var h' := NextQuotient(r, h);
    StepMask(n);
    StepDivisor(b, n);
    StepQuotient(h, n);
    StepRest(Shl(b, 31 - n), h);
    StepBits(b, n);
    ShlZero(31 - n);
  }

  lemma TimesNothing(k: nat)
    ensures Times(k, 0) == 0
  {
  }

  lemma {:induction false} ShlAtLeast(b: nat, k: nat)
    ensures b > 0 ==> Shl(b, k) >= Pow2(k)
  {
    if k == 0 {
    } else {
      ShlAtLeast(b, k - 1);
    }
  }

  /** The first clock of a division. */
  lemma DivideStart(r: Regs, i: Input)
    requires r.state == 0 && i.en && !i.reset
    ensures Dividing(Next(r, i), Magnitude(i.dividend, i.signed), Magnitude(i.divisor, i.signed), 0, 0)
  {
    var b := Magnitude(i.divisor, i.signed);
    Pow2Of32();
    Pow2Of31();
    ShlAtLeast(b, 32);
    hide Shl, Shr, Pow2;
    TimesNothing(Shl(b, 32));
    ShlZero(32);
  }

  /** At the end the quotient and the dividend are those of the magnitudes, and `notzero` has
      seen every bit of the divisor. */
  lemma DividedMagnitudes(r: Regs, a: u32, b: u32, h: nat)
    requires Dividing(r, a, b, 32, h)
    ensures r.notzero == (b != 0)
    ensures b != 0 ==> r.quotient == a / b && r.dividend == a % b
    ensures b == 0 ==> r.quotient == WORD - 1 && r.dividend == a
  {
    Pow2Of32();
    AllBits(b, 32);
    hide Pow2, LowBits;
    if b != 0 {
      TimesIsProduct(b, h);
      DivUnique(a, b, h, r.dividend);
    } else {
      TimesZero(h);
    }
  }

  lemma MagnitudeIs(a: u32)
    ensures Magnitude(a, true) == Abs(Signed(a)) && Magnitude(a, false) == a
    ensures Negative(a) <==> Signed(a) < 0
    ensures Signed(a) == 0 <==> a == 0
  {
  }

  lemma NegateIsWord(x: u32)
    ensures Negate(x) == Word(0 - x) && x == Word(x)
  {
  }

  lemma SignedWord(a: u32)
    ensures Word(Signed(a)) == a && Word(-1) == WORD - 1
    ensures Signed(a) < 0 ==> Word(0 - Abs(Signed(a))) == a
    ensures Signed(a) >= 0 ==> Abs(Signed(a)) == a
  {
  }

  /** What the end of a division makes of quotient and remainder of the magnitudes. */
  lemma EndResult(a: u32, b: u32, q: u32, r: u32, i: Input, notzero: bool)
    requires i.dividend == a && i.divisor == b && notzero == (b != 0)
    requires var (x, y) := (Magnitude(a, i.signed), Magnitude(b, i.signed));
             if y != 0 then q == x / y && r == x % y else q == WORD - 1 && r == x
    ensures var out := if i.divide then q else r;
            (if NegateResult(i, notzero) then Negate(out) else out) == DivideSpec(a, b, i.divide, i.signed)
  {
    MagnitudeIs(a);
    MagnitudeIs(b);
    NegateIsWord(q);
    NegateIsWord(r);
    hide Magnitude, Signed, Negative, Negate, Word;
    if i.signed && b == 0 {
      SignedWord(a);
    }
  }

  /** The clock that latches the result. */
  lemma DivideEnd(r: Regs, i: Input, h: nat)
    requires Dividing(r, Magnitude(i.dividend, i.signed), Magnitude(i.divisor, i.signed), 32, h) && !i.reset
    ensures Next(r, i).state == 2 && Next(r, i).result == DivideSpec(i.dividend, i.divisor, i.divide, i.signed)
  {
    DividedMagnitudes(r, Magnitude(i.dividend, i.signed), Magnitude(i.divisor, i.signed), h);
    MagnitudeIs(i.divisor);
    hide Shl, Shr, Pow2, Times, LowBits, DivideSpec, NegateResult, Negate, Or, Magnitude;
    EndResult(i.dividend, i.divisor, r.quotient, r.dividend, i, r.notzero);
  }

  lemma DivideDone(r: Regs, i: Input)
    requires r.state == 2 && !i.reset
    ensures Next(r, i) == r.(state := 0)
  {
  }

  lemma DividingState(r: Regs, a: u32, b: u32, n: nat, h: nat)
    requires Dividing(r, a, b, n, h)
    ensures r.state == 1
  {
  }

  /** The divider as hardware: its registers, changed by every clock. */
  class Unit {
    var quotient: u32
    var mask: u32
    var dividend: u32
    var divisor: nat
    var notzero: bool
    var state: nat
    var finished: bool
    var result: u32

    constructor ()
      ensures state == 0
    {
      quotient, mask, dividend, divisor, notzero, state, finished, result := 0, 0, 0, 0, false, 0, false, 0;
    }

    function Registers(): Regs
      reads this
    {
      Regs(quotient, mask, dividend, divisor, notzero, state, finished, result)
    }

    predicate Busy()
      reads this
    {
      state != 0
    }

    /** The idle state. */
    method Start(i: Input)
      modifies this
      ensures Registers() == Started(old(Registers()), i)
    {
      hide Shl, Shr, Or, NegateResult, Magnitude, Negate, Narrow;
      quotient, mask, finished, notzero := 0, 0x8000_0000, false, false;
      if i.en {
        dividend := Magnitude(i.dividend, i.signed);
        divisor := Shl(Magnitude(i.divisor, i.signed), 31);
        state := 1;
      }
    }

    /** The busy state; every right-hand side sees the registers before the edge. */
    method Step(i: Input)
      modifies this
      ensures Registers() == Stepped(old(Registers()), i)
    {
      hide Shl, Shr, Or, NegateResult, Magnitude, Negate, Narrow;
      var quotient0, dividend0, divisor0, mask0, notzero0 := quotient, dividend, divisor, mask, notzero;
      if finished {
        var out := if i.divide then quotient0 else dividend0;
        result := if NegateResult(i, notzero0) then Negate(out) else out;
        state := 2;
      }
      notzero := notzero0 || Shr(divisor0, 31) % 2 == 1;
      if divisor0 <= dividend0 {
        dividend := dividend0 - divisor0;
        quotient := Narrow(Or(quotient0, mask0));
      }
      finished := mask0 % 2 == 1;
      divisor, mask := divisor0 / 2, mask0 / 2;
    }

    /** One rising clock edge. */
    method Clock(i: Input)
      modifies this
      ensures Registers() == Next(old(Registers()), i)
    {
      hide Started, Stepped;
      if state == 0 {
        Start(i);
      } else if state == 1 {
        Step(i);
      } else {
        state := 0;
      }
      if i.reset {
        state := 0;
      }
    }

    /** A whole division: with its inputs held, the unit is busy for 34 clocks after the first
        and then holds the result. */
    method Divide(a: u32, b: u32, divide: bool, signed: bool) returns (clocks: nat)
      requires !Busy()
      modifies this
      ensures !Busy() && result == DivideSpec(a, b, divide, signed) && clocks == 35
    {
      hide Next, Dividing, DivideSpec, Magnitude;
      var i := Input(true, a, b, divide, signed, false);
      DivideStart(Registers(), i);
      Clock(i);
      clocks := 1;
      ghost var h: nat := 0;
      DividingState(Registers(), Magnitude(a, signed), Magnitude(b, signed), 0, 0);
      while Busy()
        invariant 1 <= clocks <= 35
        invariant clocks <= 33 ==> Dividing(Registers(), Magnitude(a, signed), Magnitude(b, signed), clocks - 1, h)
        invariant clocks <= 33 ==> state == 1
        invariant clocks == 34 ==> state == 2 && result == DivideSpec(a, b, divide, signed)
        invariant clocks == 35 ==> state == 0 && result == DivideSpec(a, b, divide, signed)
        decreases 35 - clocks
      {
        if clocks <= 32 {
          DivideStep(Registers(), i, Magnitude(a, signed), Magnitude(b, signed), clocks - 1, h);
          h := NextQuotient(Registers(), h);
        } else if clocks == 33 {
          DivideEnd(Registers(), i, h);
        } else {
          DivideDone(Registers(), i);
        }
        Clock(i);
        clocks := clocks + 1;
        if clocks <= 33 {
          DividingState(Registers(), Magnitude(a, signed), Magnitude(b, signed), clocks - 1, h);
        }
      }
    }
  }
}
