/** The shift-and-add multiplier (cpu/mul.v) and the single-cycle one (cpu/muldsp.v). */
module Multiplier {
  import opened Arith
  import opened Words

  const DOUBLE: nat := 0x1_0000_0000_0000_0000

  type u64 = x: int | 0 <= x < 0x1_0000_0000_0000_0000

  /** The double word that holds a number. */
  function Double(x: int): u64 {
    x % DOUBLE
  }

  /** An operand as a number. */
  function Operand(x: u32, signed: bool): int {
    if signed then Signed(x) else x
  }

  /** The kinds of product the decoder asks for. */
  datatype Product = Low | High | Other

  /** MUL is the low word of the product; MULH, MULHSU and MULHU are the high word of the signed,
      mixed and unsigned product (section 7.1 of the RISC-V Unprivileged ISA). */
  function MultiplySpec(a: u32, b: u32, high: bool, signed1: bool, signed2: bool): u32 {
    var p := Operand(a, signed1) * Operand(b, signed2);
    if high then Word(p / WORD) else Word(p)
  }

  /** The registers of the multiplier. */
  datatype MulRegs = MulRegs(busy: bool, s1: u64, s2: u64, accumulator: u64)

  datatype MulInput = MulInput(op: Product, signed1: bool, signed2: bool, a: u32, b: u32, reset: bool)

  /** One rising clock edge. */
  function MulNext(r: MulRegs, i: MulInput): MulRegs {
    var r' :=
      if !r.busy then
        if i.op != Other then
          MulRegs(true, Double(Operand(i.a, i.signed1)), Double(Operand(i.b, i.signed2 && i.op == High)), 0)
        else r
      else if r.s2 != 0 then
        r.(accumulator := if r.s2 % 2 == 1 then Double(r.accumulator + r.s1) else r.accumulator,
           s1 := Double(2 * r.s1), s2 := r.s2 / 2)
      else r.(busy := false);
    if i.reset then r'.(busy := false, accumulator := 0) else r'
  }

  /** What the unit adds up to: the accumulator and the product still to be added. */
  function Total(r: MulRegs): u64 {
    Double(r.accumulator + r.s1 * r.s2)
  }

  lemma DoubleMultiple(x: int, k: int)
    ensures Double(x + DOUBLE * k) == Double(x)
  {
  }

  lemma Distribute(a: int, b: int, c: int)
    ensures (a + b) * c == a * c + b * c
  {
  }

  lemma Associate(a: int, b: int, c: int)
    ensures (a * b) * c == a * (b * c)
  {
  }

  /** Reducing a factor does not change a product modulo 2^64. */
  lemma DoubleProduct(c: int, x: int, y: int)
    ensures Double(c + Double(x) * y) == Double(c + x * y)
  {
    var q := x / DOUBLE;
    assert x == DOUBLE * q + Double(x);
    assert x * y == DOUBLE * (q * y) + Double(x) * y by {
      Distribute(DOUBLE * q, Double(x), y);
      Associate(DOUBLE, q, y);
    }
    DoubleMultiple(c + Double(x) * y, q * y);
  }

  lemma DoubleSum(x: int, y: int)
    ensures Double(Double(x) + y) == Double(x + y)
  {
  }

  lemma SplitFactor(x: int, y: nat)
    ensures x * y == 2 * x * (y / 2) + if y % 2 == 1 then x else 0
  {
    Distribute(2 * (y / 2), y % 2, x);
    Associate(2, y / 2, x);
  }

  lemma BusyNext(r: MulRegs, i: MulInput)
    requires r.busy && !i.reset
    ensures MulNext(r, i) == if r.s2 == 0 then r.(busy := false)
                             else MulRegs(true, Double(2 * r.s1), r.s2 / 2,
                                          if r.s2 % 2 == 1 then Double(r.accumulator + r.s1) else r.accumulator)
  {
    hide Double;
  }

  /** A step of the multiplication keeps the total. */
  lemma MultiplyStep(r: MulRegs, i: MulInput)
    requires r.busy && !i.reset
    ensures Total(MulNext(r, i)) == Total(r)
    ensures MulNext(r, i).busy <==> r.s2 != 0
    ensures MulNext(r, i).s2 == r.s2 / 2
  {
    BusyNext(r, i);
    hide MulNext, Double;
    if r.s2 != 0 {
      var h := r.s2 / 2;
      SplitFactor(r.s1, r.s2);
      var acc := MulNext(r, i).accumulator;
      DoubleProduct(acc, 2 * r.s1, h);
      if r.s2 % 2 == 1 {
        DoubleSum(r.accumulator + r.s1, 2 * r.s1 * h);
      }
    }
  }

  lemma Commute(x: int, y: int)
    ensures x * y == y * x
  {
  }

  /** The start of a multiplication: the total is the product. */
  lemma MultiplyStart(r: MulRegs, i: MulInput)
    requires !r.busy && i.op != Other && !i.reset
    ensures var r' := MulNext(r, i);
            && r'.busy && r'.s2 < DOUBLE && (i.op == Low ==> r'.s2 < WORD)
            && Total(r') == Double(Operand(i.a, i.signed1) * Operand(i.b, i.signed2 && i.op == High))
  {
    var x, y := Operand(i.a, i.signed1), Operand(i.b, i.signed2 && i.op == High);
    DoubleProduct(0, x, Double(y));
    Commute(x, Double(y));
    DoubleProduct(0, y, x);
    Commute(x, y);
    assert i.op == Low ==> Double(y) == i.b;
    hide Double, Operand;
  }

  /** The accumulator at the end is the product modulo 2^64. */
  lemma MultiplyEnd(r: MulRegs)
    requires r.s2 == 0
    ensures Total(r) == r.accumulator
  {
    assert r.s1 * r.s2 == 0;
  }

  function LowWord(x: u64): u32 {
    x % WORD
  }

  function HighWord(x: u64): u32 {
    x / WORD
  }

  /** The words of the product modulo 2^64 are the words of the product. */
  lemma ProductWords(p: int)
    ensures LowWord(Double(p)) == Word(p) && HighWord(Double(p)) == Word(p / WORD)
  {
    var q := p / DOUBLE;
    assert p == DOUBLE * q + Double(p);
    assert p / WORD == WORD * q + Double(p) / WORD;
  }

  lemma WordMultiple(x: int, k: int)
    ensures Word(x + WORD * k) == Word(x)
  {
  }

  /** For the low word it does not matter how the second operand is extended. */
  lemma LowIgnoresSign(x: int, b: u32)
    ensures Word(x * Signed(b)) == Word(x * b)
  {
    if Negative(b) {
      assert x * Signed(b) == x * b - WORD * x by {
        Distribute(b, 0 - WORD, x);
      }
      WordMultiple(x * b, 0 - x);
    }
  }

  /** The result words of a finished multiplication. */
  lemma MultiplyResult(r: MulRegs, i: MulInput)
    requires i.op != Other && r.s2 == 0
    requires Total(r) == Double(Operand(i.a, i.signed1) * Operand(i.b, i.signed2 && i.op == High))
    ensures i.op == Low ==> LowWord(r.accumulator) == MultiplySpec(i.a, i.b, false, i.signed1, i.signed2)
    ensures i.op == High ==> HighWord(r.accumulator) == MultiplySpec(i.a, i.b, true, i.signed1, i.signed2)
  {
    MultiplyEnd(r);
    ProductWords(Operand(i.a, i.signed1) * Operand(i.b, i.signed2 && i.op == High));
    LowIgnoresSign(Operand(i.a, i.signed1), i.b);
    hide Double, Word, Total, LowWord, HighWord;
  }

  /** The output of the single-cycle multiplier: the product of the operands extended by one
      bit, as 64 bits. */
  function DspResult(a: u32, b: u32, signed1: bool, signed2: bool): u64 {
    Double(Operand(a, signed1) * Operand(b, signed2))
  }

  /** Both multipliers give the words the ISA asks for. */
  lemma DspAgrees(a: u32, b: u32, signed1: bool, signed2: bool)
    ensures LowWord(DspResult(a, b, signed1, signed2)) == MultiplySpec(a, b, false, signed1, signed2)
    ensures HighWord(DspResult(a, b, signed1, signed2)) == MultiplySpec(a, b, true, signed1, signed2)
  {
    ProductWords(Operand(a, signed1) * Operand(b, signed2));
  }

  lemma Pow2Of64()
    ensures Pow2(64) == DOUBLE && Pow2(32) == WORD
  {
    Pow2Of32();
    assert Pow2(40) == 0x100_0000_0000;
    assert Pow2(48) == 0x1_0000_0000_0000;
    assert Pow2(56) == 0x100_0000_0000_0000;
  }

  lemma HalfFits(x: nat, n: nat)
    requires x < Pow2(n)
    ensures x != 0 ==> n > 0 && x / 2 < Pow2(n - 1)
    ensures x / 2 < Pow2(n)
  {
  }

  /** The multiplier as hardware: its registers, changed by every clock. */
  class MulUnit {
    var busy: bool
    var s1: u64
    var s2: u64
    var accumulator: u64

    constructor ()
      ensures !busy
    {
      busy, s1, s2, accumulator := false, 0, 0, 0;
    }

    function Registers(): MulRegs
      reads this
    {
      MulRegs(busy, s1, s2, accumulator)
    }

    /** One rising clock edge. */
    method Clock(i: MulInput)
      modifies this
      ensures Registers() == MulNext(old(Registers()), i)
    {
      hide Operand;
      if !busy {
        if i.op != Other {
          accumulator := 0;
          s1 := Double(Operand(i.a, i.signed1));
          s2 := Double(Operand(i.b, i.signed2 && i.op == High));
          busy := true;
        }
      } else if s2 != 0 {
        if s2 % 2 == 1 {
          accumulator := Double(accumulator + s1);
        }
        s1 := Double(2 * s1);
        s2 := s2 / 2;
      } else {
        busy := false;
      }
      if i.reset {
        busy, accumulator := false, 0;
      }
    }

    /** A whole multiplication, with the inputs held: at most 64 additions for the high word
        and 32 for the low one. */
    method Multiply(a: u32, b: u32, high: bool, signed1: bool, signed2: bool) returns (result: u32, clocks: nat)
      requires !busy
      modifies this
      ensures !busy && result == MultiplySpec(a, b, high, signed1, signed2)
      ensures clocks <= 66 && (!high ==> clocks <= 34)
    {
      hide MulNext, MultiplySpec, Total, Double, Operand, Pow2, LowWord, HighWord;
      var i := MulInput(if high then High else Low, signed1, signed2, a, b, false);
      MultiplyStart(Registers(), i);
      Clock(i);
      clocks := 1;
      ghost var left: nat := if high then 64 else 32;
      Pow2Of64();
      while busy
        invariant s2 < Pow2(left) && clocks + left <= (if high then 65 else 33) + if busy then 0 else 1
        invariant Total(Registers()) == Double(Operand(a, signed1) * Operand(b, signed2 && high))
        invariant !busy ==> s2 == 0
        decreases busy, s2
      {
        MultiplyStep(Registers(), i);
        HalfFits(s2, left);
        if s2 != 0 {
          left := left - 1;
        }
        Clock(i);
        clocks := clocks + 1;
      }
      MultiplyResult(Registers(), i);
      result := if high then HighWord(accumulator) else LowWord(accumulator);
    }
  }
}
