/** The combinational parts of the ALU: the comparisons from a 33-bit subtraction (cpu/alu.v) and
    the logarithmic right shifter that also shifts left (cpu/shifter.v). */
module Alu {
  import opened Arith
  import opened Words

  /** The 33-bit difference of two words; its top bit is the borrow. */
  function Difference(a: u32, b: u32): nat {
    (a - b) % (2 * WORD)
  }

  predicate Borrow(a: u32, b: u32) {
    Difference(a, b) / WORD % 2 == 1
  }

  /** The `ltu` output. */
  predicate LessUnsigned(a: u32, b: u32) {
    Borrow(a, b)
  }

  /** The `lt` output: the borrow, exclusive-or the differing sign bits. */
  predicate Less(a: u32, b: u32) {
    Borrow(a, b) != (Negative(a) != Negative(b))
  }

  /** The borrow compares unsigned, and corrected by the signs it compares signed. */
  lemma Comparisons(a: u32, b: u32)
    ensures LessUnsigned(a, b) <==> a < b
    ensures Less(a, b) <==> Signed(a) < Signed(b)
    ensures Difference(a, b) % WORD == Word(a - b)
  {
  }

  /** Bits, the least significant first. */
  type bits = seq<bool>

  function Fill(b: bool, n: nat): (r: bits)
    ensures |r| == n
  {
    seq(n, i => b)
  }

  function Reverse(x: bits): (r: bits)
    ensures |r| == |x|
  {
    seq(|x|, i requires 0 <= i < |x| => x[|x| - 1 - i])
  }

  /** One stage of the right shifter. */
  function Stage(x: bits, on: bool, k: nat, sign: bool): (r: bits)
    requires k <= |x|
    ensures |r| == |x|
  {
    if on then x[k..] + Fill(sign, k) else x
  }

  /** The shifter. */
  function Shifter(data: bits, shift: nat, left: bool, extend: bool): (r: bits)
    requires |data| == 32
    ensures |r| == 32
  {
    var sign := extend && data[31];
    var x := if left then Reverse(data) else data;
    var r4 := Stage(x, shift / 16 % 2 == 1, 16, sign);
    var r3 := Stage(r4, shift / 8 % 2 == 1, 8, sign);
    var r2 := Stage(r3, shift / 4 % 2 == 1, 4, sign);
    var r1 := Stage(r2, shift / 2 % 2 == 1, 2, sign);
    var r0 := Stage(r1, shift % 2 == 1, 1, sign);
    if left then Reverse(r0) else r0
  }

  /** A right shift by `n` in one go. */
  function Right(x: bits, n: nat, sign: bool): (r: bits)
    requires n <= |x|
    ensures |r| == |x|
  {
    x[n..] + Fill(sign, n)
  }

  function Left(x: bits, n: nat): (r: bits)
    requires n <= |x|
    ensures |r| == |x|
  {
    Fill(false, n) + x[..|x| - n]
  }

  lemma StageAdds(x: bits, n: nat, on: bool, k: nat, sign: bool)
    requires n + k <= |x|
    ensures Stage(Right(x, n, sign), on, k, sign) == Right(x, if on then n + k else n, sign)
  {
  }

  lemma RightNothing(x: bits, sign: bool)
    ensures Right(x, 0, sign) == x
  {
  }

  /** The five stages shift by the binary digits of the count. */
  lemma Stages(x: bits, shift: nat, sign: bool)
    requires |x| == 32 && shift < 32
    ensures var r4 := Stage(x, shift / 16 % 2 == 1, 16, sign);
            var r3 := Stage(r4, shift / 8 % 2 == 1, 8, sign);
            var r2 := Stage(r3, shift / 4 % 2 == 1, 4, sign);
            var r1 := Stage(r2, shift / 2 % 2 == 1, 2, sign);
            Stage(r1, shift % 2 == 1, 1, sign) == Right(x, shift, sign)
  {
    hide Stage, Right;
    RightNothing(x, sign);
    var d4, d3, d2, d1 := shift / 16 % 2 == 1, shift / 8 % 2 == 1, shift / 4 % 2 == 1, shift / 2 % 2 == 1;
    StageAdds(x, 0, d4, 16, sign);
    var n4: nat := if d4 then 16 else 0;
    StageAdds(x, n4, d3, 8, sign);
    var n3: nat := if d3 then n4 + 8 else n4;
    StageAdds(x, n3, d2, 4, sign);
    var n2: nat := if d2 then n3 + 4 else n3;
    StageAdds(x, n2, d1, 2, sign);
    var n1: nat := if d1 then n2 + 2 else n2;
    StageAdds(x, n1, shift % 2 == 1, 1, sign);
  }

  /** Between two reversals a right shift is a left shift. */
  lemma ReversedRight(x: bits, n: nat)
    requires n <= |x|
    ensures Reverse(Right(Reverse(x), n, false)) == Left(x, n)
  {
  }

  /** What the shifter does with each setting of its controls. */
  lemma Shifts(x: bits, shift: nat)
    requires |x| == 32 && shift < 32
    ensures Shifter(x, shift, true, false) == Left(x, shift)
    ensures Shifter(x, shift, false, false) == Right(x, shift, false)
    ensures Shifter(x, shift, false, true) == Right(x, shift, x[31])
  {
    Stages(Reverse(x), shift, false);
    Stages(x, shift, false);
    Stages(x, shift, x[31]);
    ReversedRight(x, shift);
    hide Stage, Right, Left, Reverse;
  }

  /** The number bits stand for. */
  function Value(x: bits): nat {
    if x == [] then 0 else (if x[0] then 1 else 0) + 2 * Value(x[1..])
  }

  /** The lowest `n` bits of a number. */
  function Bits(v: nat, n: nat): (r: bits)
    ensures |r| == n
  {
    if n == 0 then [] else [v % 2 == 1] + Bits(v / 2, n - 1)
  }

  lemma {:induction false} ValueOfBits(v: nat, n: nat)
    requires v < Pow2(n)
    ensures Value(Bits(v, n)) == v
  {
    if n == 0 {
    } else {
      ValueOfBits(v / 2, n - 1);
      assert Bits(v, n)[1..] == Bits(v / 2, n - 1);
    }
  }

  lemma {:induction false} ValueBound(x: bits)
    ensures Value(x) < Pow2(|x|)
  {
    if x == [] {
    } else {
      ValueBound(x[1..]);
    }
  }

  lemma {:induction false} ValueDrop(x: bits, n: nat)
    requires n <= |x|
    ensures Value(x[n..]) == Shr(Value(x), n)
  {
    if n > 0 {
      ValueDrop(x[1..], n - 1);
      assert x[n..] == x[1..][n - 1..];
      assert Value(x) / 2 == Value(x[1..]);
    } else {
      assert x[0..] == x;
    }
  }

  lemma {:induction false} ValueConcat(x: bits, y: bits)
    ensures Value(x + y) == Value(x) + Shl(Value(y), |x|)
  {
    if x == [] {
      assert x + y == y;
    } else {
      ValueConcat(x[1..], y);
      assert (x + y)[1..] == x[1..] + y;
    }
  }

  lemma {:induction false} ValueFill(b: bool, n: nat)
    ensures Value(Fill(b, n)) == if b then Pow2(n) - 1 else 0
  {
    if n == 0 {
    } else {
      ValueFill(b, n - 1);
      assert Fill(b, n)[1..] == Fill(b, n - 1);
    }
  }

  lemma {:induction false} ShlOfZero(k: nat)
    ensures Shl(0, k) == 0
  {
    if k == 0 {
    } else {
      ShlOfZero(k - 1);
    }
  }

  /** Logical right shift on numbers. */
  lemma ValueRight(x: bits, n: nat)
    requires n <= |x|
    ensures Value(Right(x, n, false)) == Shr(Value(x), n)
  {
    ValueDrop(x, n);
    ValueFill(false, n);
    ValueConcat(x[n..], Fill(false, n));
    ShlOfZero(|x| - n);
  }

  lemma {:induction false} ShlSum(a: nat, b: nat, k: nat)
    ensures Shl(a + b, k) == Shl(a, k) + Shl(b, k)
  {
    if k == 0 {
    } else {
      ShlSum(a, b, k - 1);
    }
  }

  lemma {:induction false} ShlTwice(a: nat, j: nat, k: nat)
    ensures Shl(Shl(a, j), k) == Shl(a, j + k)
  {
    if k == 0 {
    } else {
      ShlTwice(a, j, k - 1);
    }
  }

  lemma {:induction false} DoubleTimes(k: nat, n: nat)
    ensures Times(2 * k, n) == 2 * Times(k, n)
  {
    if n == 0 {
    } else {
      DoubleTimes(k, n - 1);
    }
  }

  lemma {:induction false} OneTimes(n: nat)
    ensures Times(1, n) == n
  {
    if n == 0 {
    } else {
      OneTimes(n - 1);
    }
  }

  lemma {:induction false} ShlIsMultiple(a: nat, k: nat)
    ensures Shl(a, k) == Times(Pow2(k), a)
  {
    if k > 0 {
      ShlIsMultiple(a, k - 1);
      TimesDouble(Pow2(k - 1), a);
      DoubleTimes(Pow2(k - 1), a);
    } else {
      OneTimes(a);
    }
  }

  lemma ShlWord(a: nat)
    ensures Shl(a, 32) == 0x1_0000_0000 * a
  {
    Pow2Of32();
    ShlIsMultiple(a, 32);
    TimesIsProduct(Pow2(32), a);
  }

  lemma LostBits(v: nat, low: nat, high: nat)
    requires v == low + 0x1_0000_0000 * high && low < 0x1_0000_0000
    ensures low == Word(v)
  {
  }

  /** Left shift on numbers: what does not fit is lost. */
  lemma ValueLeft(x: bits, n: nat)
    requires |x| == 32 && n <= 32
    ensures Value(Left(x, n)) == Word(Shl(Value(x), n))
  {
    var lo, hi := x[..32 - n], x[32 - n..];
    assert x == lo + hi && Left(x, n) == Fill(false, n) + lo;
    hide *;
    ValueConcat(lo, hi);
    ValueFill(false, n);
    ValueConcat(Fill(false, n), lo);
    ShlSum(Value(lo), Shl(Value(hi), 32 - n), n);
    ShlTwice(Value(hi), 32 - n, n);
    ShlWord(Value(hi));
    ValueBound(Left(x, n));
    Pow2Of32();
    assert Value(Left(x, n)) == Shl(Value(lo), n);
    assert Shl(Value(x), n) == Shl(Value(lo), n) + 0x1_0000_0000 * Value(hi);
    LostBits(Shl(Value(x), n), Value(Left(x, n)), Value(hi));
  }

  /** Floor division by 2^n, also of negative numbers. */
  function ShrInt(x: int, n: nat): int
    decreases n
  {
    if n == 0 then x else ShrInt(x / 2, n - 1)
  }

  lemma {:induction false} ShrIntNat(x: nat, n: nat)
    ensures ShrInt(x, n) == Shr(x, n)
  {
    if n == 0 {
    } else {
      ShrIntNat(x / 2, n - 1);
    }
  }

  /** The same as a quotient. */
  lemma {:induction false} ShrIntIsFloor(x: int, n: nat)
    ensures ShrInt(x, n) == x / Pow2(n)
    decreases n
  {
    if n == 0 {
    } else {
      ShrIntIsFloor(x / 2, n - 1);
      HalfQuotient(x, Pow2(n - 1));
    }
  }

  /** Bits read as a signed number. */
  function SignedValue(x: bits): int
    requires x != []
  {
    Value(x) - if x[|x| - 1] then Pow2(|x|) else 0
  }

  lemma HalfSigned(x: bits)
    requires x != []
    ensures SignedValue(x[1..] + [x[|x| - 1]]) == SignedValue(x) / 2
  {
    var sign := x[|x| - 1];
    ValueConcat(x[1..], [sign]);
    ShlPow2(|x| - 1);
    ShlOfZero(|x| - 1);
    assert Value([sign]) == if sign then 1 else 0;
  }

  /** Arithmetic right shift on signed numbers is floor division by 2^n. */
  lemma {:induction false} SignedRight(x: bits, n: nat)
    requires n < |x|
    ensures SignedValue(Right(x, n, x[|x| - 1])) == ShrInt(SignedValue(x), n)
    decreases n
  {
    var sign := x[|x| - 1];
    if n == 0 {
      RightNothing(x, sign);
    } else {
      var y := x[1..] + [sign];
      HalfSigned(x);
      assert Right(x, n, sign) == Right(y, n - 1, sign);
      SignedRight(y, n - 1);
    }
  }

  /** The top bit is the sign. */
  lemma TopBit(a: u32)
    ensures Bits(a, 32)[31] <==> Negative(a)
    ensures SignedValue(Bits(a, 32)) == Signed(a) && Value(Bits(a, 32)) == a
  {
    var x := Bits(a, 32);
    assert x == x[..31] + [x[31]];
    Pow2Of32();
    Pow2Of31();
    hide Bits, Pow2, Shl;
    ValueOfBits(a, 32);
    ValueConcat(x[..31], [x[31]]);
    ValueBound(x[..31]);
    ShlPow2(31);
    ShlOfZero(31);
    assert Value([x[31]]) == if x[31] then 1 else 0;
  }

  lemma WordOfSigned(v: nat, sign: bool)
    ensures Word(v - if sign then WORD else 0) == Word(v)
  {
  }

  lemma WordOfBits(y: bits)
    requires |y| == 32
    ensures Word(Value(y)) == Word(SignedValue(y))
  {
    Pow2Of32();
    hide Pow2, Value;
    WordOfSigned(Value(y), y[31]);
  }

  /** What the shifter's output stands for. */
  lemma ShiftedValues(a: u32, n: nat)
    requires n < 32
    ensures Value(Shifter(Bits(a, 32), n, true, false)) == Word(Shl(a, n))
    ensures Value(Shifter(Bits(a, 32), n, false, false)) == Shr(a, n)
    ensures Word(Value(Shifter(Bits(a, 32), n, false, true))) == Word(ShrInt(Signed(a), n))
  {
    hide *;
    var x := Bits(a, 32);
    Shifts(x, n);
    TopBit(a);
    ValueLeft(x, n);
    ValueRight(x, n);
    SignedRight(x, n);
    WordOfBits(Right(x, n, x[31]));
  }
}
