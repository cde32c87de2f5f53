/** The word-at-a-time strcmp of libtinyc (software/spu32-system/libtinyc/libtinyc.c). A char is
    unsigned, words are little-endian and pointers have 32 bits. */
module Strcmp {
  import opened Arith
  import opened Words
  import opened Machine

  /** Byte `k` of a word. */
  function Lane(v: nat, k: nat): u8 {
    if k == 0 then v % 0x100 else Lane(v / 0x100, k - 1)
  }

  /** The test for a zero byte. */
  function ZeroTest(v: u32): u32 {
    AndWord(AndWord(Word(v - 0x0101_0101), 0xFFFF_FFFF - v), 0x8080_8080)
  }

  predicate HasZero(v: u32) {
    exists k :: 0 <= k < 4 && Lane(v, k) == 0
  }

  /** The highest bit of a conjunction. */
  lemma {:induction false} TopBit(x: nat, y: nat, n: nat)
    requires x < Pow2(n + 1) && y < Pow2(n + 1)
    ensures And(x, y) < Pow2(n + 1) && (And(x, y) >= Pow2(n) <==> x >= Pow2(n) && y >= Pow2(n))
  {
    if n == 0 {
    } else {
      TopBit(x / 2, y / 2, n - 1);
    }
  }

  lemma {:induction false} BelowBit(x: nat, n: nat)
    requires x < Pow2(n)
    ensures And(x, Pow2(n)) == 0
  {
    if n == 0 {
    } else {
      BelowBit(x / 2, n - 1);
    }
  }

  lemma AndBit(x: nat, y: nat)
    ensures And(x % 2, y % 2) == if x % 2 == 1 && y % 2 == 1 then 1 else 0
  {
    assert And(0, 0) == 0;
  }

  lemma AndHalf(x: nat, y: nat)
    ensures And(x, y) == And(x % 2, y % 2) + 2 * And(x / 2, y / 2)
  {
    AndBit(x, y);
    if x != 0 && y != 0 {
    } else {
      assert And(x / 2, y / 2) == 0;
    }
  }

  lemma PartsOf4(x: nat)
    ensures x % 4 % 2 == x % 2 && x % 4 / 2 == x / 2 % 2 && x / 2 / 2 == x / 4
  {
  }

  lemma PartsOf16(x: nat)
    ensures x % 16 % 4 == x % 4 && x % 16 / 4 == x / 4 % 4 && x / 4 / 4 == x / 16
  {
  }

  lemma PartsOf256(x: nat)
    ensures x % 0x100 % 16 == x % 16 && x % 0x100 / 16 == x / 16 % 16 && x / 16 / 16 == x / 0x100
  {
  }

  lemma AndQuarter(x: nat, y: nat)
    ensures And(x, y) == And(x % 4, y % 4) + 4 * And(x / 4, y / 4)
  {
    PartsOf4(x);
    PartsOf4(y);
    AndHalf(x, y);
    AndHalf(x / 2, y / 2);
    AndHalf(x % 4, y % 4);
    hide And;
  }

  lemma AndNibble(x: nat, y: nat)
    ensures And(x, y) == And(x % 16, y % 16) + 16 * And(x / 16, y / 16)
  {
    PartsOf16(x);
    PartsOf16(y);
    AndQuarter(x, y);
    AndQuarter(x / 4, y / 4);
    AndQuarter(x % 16, y % 16);
    hide And;
  }

  /** A conjunction byte by byte. */
  lemma AndBytes(x: nat, y: nat)
    ensures And(x, y) == And(x % 0x100, y % 0x100) + 0x100 * And(x / 0x100, y / 0x100)
    ensures And(x % 0x100, y % 0x100) < 0x100
  {
    PartsOf256(x);
    PartsOf256(y);
    AndNibble(x, y);
    AndNibble(x / 16, y / 16);
    AndNibble(x % 0x100, y % 0x100);
    assert Pow2(8) == 0x100;
    TopBit(x % 0x100, y % 0x100, 7);
    hide And, Pow2;
  }

  /** 0x80, 0x01 in each of the lowest `k` bytes, and 256^k. */
  function Eighties(k: nat): nat {
    if k == 0 then 0 else 0x80 + 0x100 * Eighties(k - 1)
  }

  function Ones(k: nat): nat {
    if k == 0 then 0 else 1 + 0x100 * Ones(k - 1)
  }

  function Full(k: nat): (r: nat)
    ensures r > 0
  {
    if k == 0 then 1 else 0x100 * Full(k - 1)
  }

  /** One of the lowest `k` bytes has its highest bit set in both words. */
  predicate BothHigh(x: nat, y: nat, k: nat) {
    k > 0 && ((x % 0x100 >= 0x80 && y % 0x100 >= 0x80) || BothHigh(x / 0x100, y / 0x100, k - 1))
  }

  /** One of the lowest `k` bytes is zero. */
  predicate AnyZero(v: nat, k: nat) {
    k > 0 && (v % 0x100 == 0 || AnyZero(v / 0x100, k - 1))
  }

  lemma TopOfByte(z: nat)
    requires z < 0x100
    ensures And(z, 0x80) != 0 <==> z >= 0x80
  {
    assert Pow2(7) == 0x80 && Pow2(8) == 0x100;
    TopBit(z, 0x80, 7);
    if z < 0x80 {
      BelowBit(z, 7);
    }
    hide And, Pow2;
  }

  lemma TopOfBoth(x: nat, y: nat)
    requires x < 0x100 && y < 0x100
    ensures And(x, y) < 0x100 && (And(And(x, y), 0x80) != 0 <==> x >= 0x80 && y >= 0x80)
  {
    assert Pow2(7) == 0x80 && Pow2(8) == 0x100;
    TopBit(x, y, 7);
    TopOfByte(And(x, y));
    hide And, Pow2;
  }

  lemma Digits(v: nat, low: nat, high: nat)
    requires low < 0x100 && v == low + 0x100 * high
    ensures v % 0x100 == low && v / 0x100 == high
  {
  }

  /** The mask keeps a bit exactly of the bytes whose highest bit is set on both sides. */
  lemma {:induction false} MaskedLanes(x: nat, y: nat, k: nat)
    ensures And(And(x, y), Eighties(k)) != 0 <==> BothHigh(x, y, k)
  {
    if k == 0 {
    } else {
      var low, high := And(x % 0x100, y % 0x100), And(x / 0x100, y / 0x100);
      AndBytes(x, y);
      AndBytes(And(x, y), Eighties(k));
      TopOfBoth(x % 0x100, y % 0x100);
      Digits(And(x, y), low, high);
      Digits(Eighties(k), 0x80, Eighties(k - 1));
      MaskedLanes(x / 0x100, y / 0x100, k - 1);
    }
    hide And;
  }

  lemma OnesBelow(k: nat)
    ensures Ones(k) <= Full(k)
  {
  }

  /** `v` minus one in each of the lowest `k` bytes. */
  function Decremented(v: nat, k: nat): (d: nat)
    requires v < Full(k)
  {
    OnesBelow(k);
    if v < Ones(k) then v - Ones(k) + Full(k) else v - Ones(k)
  }

  lemma LowestByte(d: nat, q: int)
    requires d == 0xFF + 0x100 * q
    ensures d % 0x100 == 0xFF
  {
  }

  lemma DecrementedDigits(v: nat, k: nat)
    requires k > 0 && v < Full(k)
    ensures v / 0x100 < Full(k - 1)
    ensures v % 0x100 == 0 ==> Decremented(v, k) % 0x100 == 0xFF
    ensures v % 0x100 != 0 ==> Decremented(v, k) % 0x100 == v % 0x100 - 1 && Decremented(v, k) / 0x100 == Decremented(v / 0x100, k - 1)
    ensures (Full(k) - 1 - v) % 0x100 == 0xFF - v % 0x100 && (Full(k) - 1 - v) / 0x100 == Full(k - 1) - 1 - v / 0x100
  {
    var low, high, ones, full := v % 0x100, v / 0x100, Ones(k - 1), Full(k - 1);
    var d := Decremented(v, k);
    assert v == low + 0x100 * high && Ones(k) == 1 + 0x100 * ones && Full(k) == 0x100 * full;
    hide Ones, Full;
    Digits(Full(k) - 1 - v, 0xFF - low, full - 1 - high);
    if low == 0 {
      LowestByte(d, (if v < Ones(k) then full else 0) + high - ones - 1);
    } else {
      Digits(d, low - 1, Decremented(high, k - 1));
    }
  }

  /** Subtracting one from every byte gives, beside the complement, two high bits in some byte exactly
      if some byte is zero: below the lowest zero byte nothing is borrowed. */
  lemma {:induction false} BorrowedLanes(v: nat, k: nat)
    requires v < Full(k)
    ensures BothHigh(Decremented(v, k), Full(k) - 1 - v, k) <==> AnyZero(v, k)
  {
    if k == 0 {
    } else {
      DecrementedDigits(v, k);
      if v % 0x100 != 0 {
        BorrowedLanes(v / 0x100, k - 1);
      }
      hide Decremented, Full;
    }
  }

  lemma Constants(v: u32)
    ensures Eighties(4) == 0x8080_8080 && Full(4) == 0x1_0000_0000 && Decremented(v, 4) == Word(v - 0x0101_0101)
  {
    assert Eighties(2) == 0x8080 && Ones(2) == 0x101 && Full(2) == 0x1_0000;
    assert Ones(4) == 0x0101_0101;
  }

  lemma ZeroUnfold(v: nat, k: nat)
    requires k > 0
    ensures AnyZero(v, k) <==> v % 0x100 == 0 || (k > 1 && AnyZero(v / 0x100, k - 1))
  {
  }

  lemma FourZero(v: u32)
    ensures AnyZero(v, 4) <==>
            v % 0x100 == 0 || v / 0x100 % 0x100 == 0 || v / 0x100 / 0x100 % 0x100 == 0 || v / 0x100 / 0x100 / 0x100 % 0x100 == 0
  {
    ZeroUnfold(v, 4);
    ZeroUnfold(v / 0x100, 3);
    ZeroUnfold(v / 0x100 / 0x100, 2);
    ZeroUnfold(v / 0x100 / 0x100 / 0x100, 1);
    hide AnyZero;
  }

  lemma LaneUnfold(v: nat, k: nat)
    ensures Lane(v, 0) == v % 0x100 && Lane(v, k + 1) == Lane(v / 0x100, k)
  {
  }

  lemma FourLanes(v: u32)
    ensures Lane(v, 0) == v % 0x100 && Lane(v, 1) == v / 0x100 % 0x100
    ensures Lane(v, 2) == v / 0x100 / 0x100 % 0x100 && Lane(v, 3) == v / 0x100 / 0x100 / 0x100 % 0x100
  {
    LaneUnfold(v, 0);
    LaneUnfold(v, 1);
    LaneUnfold(v, 2);
    LaneUnfold(v / 0x100, 0);
    LaneUnfold(v / 0x100, 1);
    LaneUnfold(v / 0x100 / 0x100, 0);
    LaneUnfold(v / 0x100 / 0x100 / 0x100, 0);
    hide Lane;
  }

  lemma AnyZeroIs(v: u32)
    ensures AnyZero(v, 4) <==> HasZero(v)
  {
    FourLanes(v);
    FourZero(v);
    hide Lane, AnyZero;
    if HasZero(v) {
      var k :| 0 <= k < 4 && Lane(v, k) == 0;
      assert k == 0 || k == 1 || k == 2 || k == 3;
    }
  }

  /** The test is nonzero exactly if some byte of the word is zero. */
  lemma ZeroTestIs(v: u32)
    ensures ZeroTest(v) != 0 <==> HasZero(v)
  {
    Constants(v);
    MaskedLanes(Decremented(v, 4), Full(4) - 1 - v, 4);
    BorrowedLanes(v, 4);
    AnyZeroIs(v);
    hide And, Lane, Eighties, Ones, Full, BothHigh, AnyZero, HasZero, Word, Decremented, Pow2;
  }

  /** One of the pointers is not a multiple of 4. */
  predicate Unaligned(s1: u32, s2: u32) {
    AndWord(OrWord(s1, s2), 3) != 0
  }

  lemma OrHalf(x: nat, y: nat)
    ensures Or(x, y) / 2 == Or(x / 2, y / 2) && (Or(x, y) % 2 == 0 <==> x % 2 == 0 && y % 2 == 0)
  {
  }

  lemma Quarter(z: nat)
    ensures z % 4 == 0 <==> z % 2 == 0 && z / 2 % 2 == 0
  {
  }

  lemma AndThree(z: nat)
    ensures And(z, 3) == z % 4
  {
    assert PowerOfTwo(4) by {
      assert PowerOfTwo(2);
    }
    AndIsRem(z, 4);
    DivMod(z, 4);
    hide *;
  }

  lemma UnalignedIs(s1: u32, s2: u32)
    ensures Unaligned(s1, s2) <==> s1 % 4 != 0 || s2 % 4 != 0
  {
    AndThree(Or(s1, s2));
    OrHalf(s1, s2);
    OrHalf(s1 / 2, s2 / 2);
    Quarter(Or(s1, s2));
    Quarter(s1);
    Quarter(s2);
    hide Or, And, Pow2;
  }

  /** The strings agree in byte `k`, and do not end there. */
  predicate Same(m: Mem, s1: u32, s2: u32, k: nat) {
    m(Word(s1 + k)) == m(Word(s2 + k)) != 0
  }

  /** The strings agree in their first `n` bytes. */
  ghost predicate Passed(m: Mem, s1: u32, s2: u32, n: nat) {
    forall j: nat :: j < n ==> Same(m, s1, s2, j)
  }

  /** Byte `n` decides the comparison: it is the first that differs or ends the strings. */
  ghost predicate Decided(m: Mem, s1: u32, s2: u32, n: nat) {
    Passed(m, s1, s2, n) && !Same(m, s1, s2, n)
  }

  function Sign(c1: u8, c2: u8): int {
    if c1 < c2 then -1 else if c1 > c2 then 1 else 0
  }

  /** The result of comparing byte by byte. */
  ghost predicate IsComparison(m: Mem, s1: u32, s2: u32, r: int) {
    exists n: nat :: Decided(m, s1, s2, n) && r == Sign(m(Word(s1 + n)), m(Word(s2 + n)))
  }

  lemma PassedAt(m: Mem, s1: u32, s2: u32, n: nat, j: nat)
    requires Passed(m, s1, s2, n) && j < n
    ensures Same(m, s1, s2, j)
  {
  }

  lemma DecidedOnce(m: Mem, s1: u32, s2: u32, n: nat, n': nat)
    requires Decided(m, s1, s2, n) && Decided(m, s1, s2, n')
    ensures n == n'
  {
    hide Same, Passed;
    if n < n' {
      PassedAt(m, s1, s2, n', n);
    } else if n' < n {
      PassedAt(m, s1, s2, n, n');
    }
  }

  /** There is only one deciding byte, and so one result. */
  lemma ComparisonUnique(m: Mem, s1: u32, s2: u32, r: int, r': int)
    requires IsComparison(m, s1, s2, r) && IsComparison(m, s1, s2, r')
    ensures r == r'
  {
    hide Decided, Sign, Word;
    var n: nat :| Decided(m, s1, s2, n) && r == Sign(m(Word(s1 + n)), m(Word(s2 + n)));
    var n': nat :| Decided(m, s1, s2, n') && r' == Sign(m(Word(s1 + n')), m(Word(s2 + n')));
    DecidedOnce(m, s1, s2, n, n');
  }

  lemma SignZero(c1: u8, c2: u8)
    ensures Sign(c1, c2) == 0 <==> c1 == c2
  {
  }

  /** The result is 0 exactly for equal strings. */
  lemma EqualStrings(m: Mem, s1: u32, s2: u32, r: int)
    requires IsComparison(m, s1, s2, r)
    ensures r == 0 <==> exists n: nat :: Passed(m, s1, s2, n) && m(Word(s1 + n)) == 0 && m(Word(s2 + n)) == 0
  {
    hide Word, Sign, Passed;
    var d: nat :| Decided(m, s1, s2, d) && r == Sign(m(Word(s1 + d)), m(Word(s2 + d)));
    SignZero(m(Word(s1 + d)), m(Word(s2 + d)));
    forall n: nat | Passed(m, s1, s2, n) && m(Word(s1 + n)) == 0 && m(Word(s2 + n)) == 0
      ensures n == d
    {
      DecidedOnce(m, s1, s2, n, d);
    }
  }

  /** The comparison of the bytes of two different words, `left` of them: the last need not be
      tested for the end of the string. */
  function LaneResult(v1: nat, v2: nat, left: nat): int
    requires left > 0
  {
    var c1: u8, c2: u8 := v1 % 0x100, v2 % 0x100;
    if c1 != c2 then Sign(c1, c2)
    else if left == 1 || c1 == 0 then 0
    else LaneResult(v1 / 0x100, v2 / 0x100, left - 1)
  }

  /** The number of the first byte in which two words differ or that is zero in both. */
  function FirstLane(v1: nat, v2: nat, left: nat): nat
    requires left > 0
  {
    if left == 1 || v1 % 0x100 != v2 % 0x100 || v1 % 0x100 == 0 then 0 else 1 + FirstLane(v1 / 0x100, v2 / 0x100, left - 1)
  }

  lemma {:induction false} LanesDecide(v1: nat, v2: nat, left: nat)
    requires left > 0 && v1 < Full(left) && v2 < Full(left) && v1 != v2
    ensures var i := FirstLane(v1, v2, left);
            && i < left && !(Lane(v1, i) == Lane(v2, i) != 0) && LaneResult(v1, v2, left) == Sign(Lane(v1, i), Lane(v2, i))
            && forall j: nat :: j < i ==> Lane(v1, j) == Lane(v2, j) != 0
  {
    if v1 % 0x100 == v2 % 0x100 != 0 && left > 1 {
      LanesDecide(v1 / 0x100, v2 / 0x100, left - 1);
      var i := FirstLane(v1, v2, left);
      forall j: nat | j < i
        ensures Lane(v1, j) == Lane(v2, j) != 0
      {
        if j > 0 {
          LaneUnfold(v1, j - 1);
          LaneUnfold(v2, j - 1);
        }
      }
    }
  }

  lemma LanesOf(b0: u8, b1: u8, b2: u8, b3: u8)
    ensures var v := b0 + 0x100 * b1 + 0x1_0000 * b2 + 0x100_0000 * b3;
            Lane(v, 0) == b0 && Lane(v, 1) == b1 && Lane(v, 2) == b2 && Lane(v, 3) == b3
  {
    var v2 := b2 + 0x100 * b3;
    var v1 := b1 + 0x100 * v2;
    var v := b0 + 0x100 * v1;
    Digits(v, b0, v1);
    Digits(v1, b1, v2);
    Digits(v2, b2, b3);
    LaneUnfold(v, 0);
    LaneUnfold(v, 1);
    LaneUnfold(v, 2);
    LaneUnfold(v1, 0);
    LaneUnfold(v1, 1);
    LaneUnfold(v2, 0);
    LaneUnfold(b3, 0);
    hide Lane;
  }

  lemma WordZero(a: u32)
    ensures Word(a + 0) == a
  {
  }

  lemma LoadedLane(m: Mem, a: u32, k: nat)
    requires k < 4
    ensures Lane(Load32(m, a), k) == m(Word(a + k))
  {
    LanesOf(m(a), m(Word(a + 1)), m(Word(a + 2)), m(Word(a + 3)));
    WordZero(a);
    hide Lane, Word;
  }

  lemma WordSum(a: u32, k: nat, j: nat)
    ensures Word(Word(a + k) + j) == Word(a + (k + j))
  {
  }

  /** Byte `j` of the words loaded at offset `k` is byte `k + j` of the strings. */
  lemma WordByte(m: Mem, s1: u32, s2: u32, k: nat, j: nat)
    requires j < 4
    ensures Lane(Load32(m, Word(s1 + k)), j) == m(Word(s1 + (k + j))) && Lane(Load32(m, Word(s2 + k)), j) == m(Word(s2 + (k + j)))
  {
    LoadedLane(m, Word(s1 + k), j);
    LoadedLane(m, Word(s2 + k), j);
    WordSum(s1, k, j);
    WordSum(s2, k, j);
    hide *;
  }

  lemma PassedMore(m: Mem, s1: u32, s2: u32, k: nat, i: nat, v1: u32, v2: u32)
    requires Passed(m, s1, s2, k) && v1 == Load32(m, Word(s1 + k)) && v2 == Load32(m, Word(s2 + k))
    requires forall j: nat :: j < i ==> Lane(v1, j) == Lane(v2, j) != 0
    requires i <= 4
    ensures Passed(m, s1, s2, k + i)
  {
    forall j: nat | j < k + i
      ensures Same(m, s1, s2, j)
    {
      if j >= k {
        var l: nat := j - k;
        WordByte(m, s1, s2, k, l);
        assert Lane(v1, l) == Lane(v2, l) != 0;
      }
    }
    hide Lane, Load32, Word;
  }

  /** The lane that decides. */
  lemma LaneDecides(m: Mem, s1: u32, s2: u32, k: nat, i: nat, r: int)
    requires Passed(m, s1, s2, k + i) && i < 4
    requires var c1, c2 := Lane(Load32(m, Word(s1 + k)), i), Lane(Load32(m, Word(s2 + k)), i);
             !(c1 == c2 != 0) && r == Sign(c1, c2)
    ensures IsComparison(m, s1, s2, r)
  {
    WordByte(m, s1, s2, k, i);
    assert Decided(m, s1, s2, k + i);
    hide Lane, Load32, Word, Sign, Passed;
  }

  /** Words that differ decide the comparison. */
  lemma DifferentWords(m: Mem, s1: u32, s2: u32, k: nat)
    requires Passed(m, s1, s2, k) && Load32(m, Word(s1 + k)) != Load32(m, Word(s2 + k))
    ensures IsComparison(m, s1, s2, LaneResult(Load32(m, Word(s1 + k)), Load32(m, Word(s2 + k)), 4))
  {
    hide *;
    var v1, v2 := Load32(m, Word(s1 + k)), Load32(m, Word(s2 + k));
    Constants(v1);
    LanesDecide(v1, v2, 4);
    var i := FirstLane(v1, v2, 4);
    PassedMore(m, s1, s2, k, i, v1, v2);
    LaneDecides(m, s1, s2, k, i, LaneResult(v1, v2, 4));
  }

  lemma NoZero(v: u32)
    requires !HasZero(v)
    ensures forall k: nat :: k < 4 ==> Lane(v, k) != 0
  {
    hide Lane;
  }

  lemma FirstZero(v: u32) returns (i: nat)
    requires HasZero(v)
    ensures i < 4 && Lane(v, i) == 0 && forall j: nat :: j < i ==> Lane(v, j) != 0
  {
    hide Lane;
    var k :| 0 <= k < 4 && Lane(v, k) == 0;
    if Lane(v, 0) == 0 {
      i := 0;
    } else if Lane(v, 1) == 0 {
      i := 1;
    } else if Lane(v, 2) == 0 {
      i := 2;
    } else {
      assert k == 3;
      i := 3;
    }
  }

  /** In equal words without a zero byte all bytes agree. */
  lemma EqualWords(m: Mem, s1: u32, s2: u32, k: nat)
    requires Passed(m, s1, s2, k) && Load32(m, Word(s1 + k)) == Load32(m, Word(s2 + k))
    ensures if HasZero(Load32(m, Word(s1 + k))) then IsComparison(m, s1, s2, 0) else Passed(m, s1, s2, k + 4)
  {
    hide *;
    var v := Load32(m, Word(s1 + k));
    if HasZero(v) {
      var i := FirstZero(v);
      PassedMore(m, s1, s2, k, i, v, v);
      SignZero(0, 0);
      LaneDecides(m, s1, s2, k, i, 0);
    } else {
      NoZero(v);
      PassedMore(m, s1, s2, k, 4, v, v);
    }
  }

  /** A string ends before the bytes that agree do not. */
  lemma NotPast(m: Mem, s1: u32, s2: u32, k: nat, len: nat)
    requires Passed(m, s1, s2, k) && m(Word(s1 + len)) == 0
    ensures k <= len
  {
    hide Passed;
    if len < k {
      PassedAt(m, s1, s2, k, len);
    }
    hide Word;
  }

  lemma NextByte(m: Mem, s1: u32, s2: u32, k: nat)
    requires Passed(m, s1, s2, k)
    ensures var c1, c2 := m(Word(s1 + k)), m(Word(s2 + k));
            if c1 == c2 != 0 then Passed(m, s1, s2, k + 1)
            else IsComparison(m, s1, s2, if c1 < c2 then -1 else if c1 > c2 then 1 else 0)
  {
    hide Word;
    if !Same(m, s1, s2, k) {
      assert Decided(m, s1, s2, k);
    }
  }

  lemma NextWord(p: u32)
    requires p % 4 == 0
    ensures Word(p + 4) % 4 == 0
  {
  }

  lemma NonePassed(m: Mem, s1: u32, s2: u32)
    ensures Passed(m, s1, s2, 0) && Word(s1 + 0) == s1 && Word(s2 + 0) == s2
  {
  }

  /** strcmp returns the sign of the comparison byte by byte, wherever the strings are; words are
      loaded from multiples of 4 only. It needs only that the first string ends, at offset `len`. */
  method Strcmp(m: Mem, s1: u32, s2: u32, ghost len: nat) returns (r: int)
    requires m(Word(s1 + len)) == 0
    ensures IsComparison(m, s1, s2, r)
  {
    hide *;
    var p1: u32, p2: u32 := s1, s2;
    ghost var k: nat := 0;
    NonePassed(m, s1, s2);
    while Unaligned(p1, p2)
      invariant p1 == Word(s1 + k) && p2 == Word(s2 + k) && Passed(m, s1, s2, k) && k <= len
      decreases len - k
    {
      var c1, c2 := m(p1), m(p2);
      p1, p2 := Word(p1 + 1), Word(p2 + 1);
      NextByte(m, s1, s2, k);
      if c1 != c2 {
        return if c1 < c2 then -1 else 1;
      } else if c1 == 0 {
        return 0;
      }
      WordSum(s1, k, 1);
      WordSum(s2, k, 1);
      NotPast(m, s1, s2, k + 1, len);
      k := k + 1;
    }
    UnalignedIs(p1, p2);
    while true
      invariant p1 % 4 == 0 && p2 % 4 == 0
      invariant p1 == Word(s1 + k) && p2 == Word(s2 + k) && Passed(m, s1, s2, k) && k <= len
      decreases len - k
    {
      var v1, v2 := Load32(m, p1), Load32(m, p2);
      if v1 != v2 {
        DifferentWords(m, s1, s2, k);
        return LaneResult(v1, v2, 4);
      }
      ZeroTestIs(v1);
      EqualWords(m, s1, s2, k);
      if ZeroTest(v1) != 0 {
        return 0;
      }
      WordSum(s1, k, 4);
      WordSum(s2, k, 4);
      NotPast(m, s1, s2, k + 4, len);
      NextWord(p1);
      NextWord(p2);
      p1, p2 := Word(p1 + 4), Word(p2 + 4);
      k := k + 4;
    }
  }
}
