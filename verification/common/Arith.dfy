/** Arithmetic without products or quotients of variables, and bitwise operations on naturals. */
module Arith {
  predicate PowerOfTwo(n: nat) {
    n == 1 || (n > 0 && n % 2 == 0 && PowerOfTwo(n / 2))
  }

  /** `k * n` as repeated addition; TimesIsProduct says so. The solver then meets no
      product of two variables. */
  function Times(k: nat, n: nat): nat {
    if n == 0 then 0 else Times(k, n - 1) + k
  }

  lemma {:induction false} TimesIsProduct(k: nat, n: nat)
    ensures Times(k, n) == k * n
  {
    if n == 0 {
    } else {
      TimesIsProduct(k, n - 1);
      assert k * n == k * (n - 1) + k;
    }
  }

  lemma TimesCommutes(k: nat, n: nat)
    ensures Times(k, n) == n * k
  {
    TimesIsProduct(k, n);
  }

  lemma {:induction false} TimesStep(k: nat, a: nat, b: nat)
    requires a < b
    ensures Times(k, a) + k <= Times(k, b)
  {
    if a + 1 >= b {
    } else {
      TimesStep(k, a, b - 1);
    }
  }

  /** `n / k` and `n % k` by repeated subtraction; DivMod says they are the operators. */
  function Quot(n: nat, k: nat): nat
    requires k > 0
  {
    if n < k then 0 else Quot(n - k, k) + 1
  }

  function Rem(n: nat, k: nat): (r: nat)
    requires k > 0
    ensures r < k
  {
    if n < k then n else Rem(n - k, k)
  }

  lemma DivSmall(n: nat, k: nat)
    requires n < k
    ensures n / k == 0 && n % k == n
  {
  }

  lemma MulSign(k: int, d: int)
    requires k > 0
    ensures d >= 1 ==> k * d >= k
    ensures d <= -1 ==> k * d <= -k
  {
    assert k * d == k + k * (d - 1) == k * (d + 1) - k;
  }

  lemma DivUnique(n: nat, k: nat, q: nat, r: nat)
    requires k > 0 && n == k * q + r && r < k
    ensures n / k == q && n % k == r
  {
    var d := n / k - q;
    assert n == k * (n / k) + n % k;
    assert k * d == r - n % k;
    MulSign(k, d);
  }

  lemma DivStep(n: nat, k: nat)
    requires k > 0
    ensures (n + k) / k == n / k + 1 && (n + k) % k == n % k
  {
    var q, r := n / k, n % k;
    assert n + k == k * (q + 1) + r;
    DivUnique(n + k, k, q + 1, r);
  }

  lemma {:induction false} DivMod(n: nat, k: nat)
    requires k > 0
    ensures Times(k, Quot(n, k)) + Rem(n, k) == n
    ensures n / k == Quot(n, k) && n % k == Rem(n, k)
  {
    if n >= k {
      DivMod(n - k, k);
      assert n == (n - k) + k;
      DivStep(n - k, k);
    } else {
      DivSmall(n, k);
    }
  }

  /** Adding less than the rest of a block stays in the block. */
  lemma {:induction false} QuotAdd(n: nat, j: nat, k: nat)
    requires k > 0 && Rem(n, k) + j < k
    ensures Quot(n + j, k) == Quot(n, k) && Rem(n + j, k) == Rem(n, k) + j
  {
    if n < k {
    } else {
      QuotAdd(n - k, j, k);
    }
  }

  /** The step from the last number of a block to the next block. */
  lemma {:induction false} QuotNext(n: nat, k: nat)
    requires k > 0 && Rem(n, k) == k - 1
    ensures Quot(n + 1, k) == Quot(n, k) + 1 && Rem(n + 1, k) == 0
  {
    if n < k {
    } else {
      QuotNext(n - k, k);
    }
  }

  lemma {:induction false} QuotPrev(n: nat, k: nat)
    requires k > 0 && n > 0 && Rem(n, k) == 0
    ensures Quot(n, k) == Quot(n - 1, k) + 1
  {
    if n <= k {
    } else {
      QuotPrev(n - k, k);
    }
  }

  lemma {:induction false} QuotMono(a: nat, b: nat, k: nat)
    requires k > 0 && a <= b
    ensures Quot(a, k) <= Quot(b, k)
  {
    if a < k {
    } else {
      QuotMono(a - k, b - k, k);
    }
  }

  lemma {:induction false} QuotBound(n: nat, k: nat, m: nat)
    requires k > 0
    ensures Quot(n, k) < m <==> n < Times(k, m)
  {
    if m > 0 && n >= k {
      QuotBound(n - k, k, m - 1);
    } else if m > 0 {
      TimesStep(k, 0, m);
    }
  }

  lemma {:induction false} QuotTimes(k: nat, m: nat, r: nat)
    requires r < k
    ensures Quot(Times(k, m) + r, k) == m && Rem(Times(k, m) + r, k) == r
  {
    if m == 0 {
    } else {
      QuotTimes(k, m - 1, r);
    }
  }

  lemma {:induction false} RemPrev(n: nat, k: nat)
    requires k > 0 && Rem(n, k) != 0
    ensures n > 0 && Quot(n - 1, k) == Quot(n, k) && Rem(n - 1, k) == Rem(n, k) - 1
  {
    if n < k {
    } else {
      RemPrev(n - k, k);
    }
  }

  lemma RemPrevPositive(n: nat, k: nat)
    requires k > 0 && Rem(n, k) != 0
    ensures n > 0
  {
  }

  lemma RemSmall(n: nat, k: nat)
    requires k > 0
    ensures Rem(n, k) + 1 <= k
  {
  }

  /** A position in the same or a later block lies at or behind the start of the block. */
  lemma BlockStartBelow(a: nat, b: nat, k: nat)
    requires k > 0 && Quot(a, k) >= Quot(b, k)
    ensures b - Rem(b, k) <= a
  {
    DivMod(a, k);
    DivMod(b, k);
    if Quot(b, k) < Quot(a, k) {
      TimesStep(k, Quot(b, k), Quot(a, k));
    }
  }

  lemma PowerOfTwoDoubles(k: nat)
    requires PowerOfTwo(k)
    ensures PowerOfTwo(2 * k)
  {
    assert 2 * k / 2 == k;
  }

  /** A cluster of a power of two of sectors is a power of two of bytes. */
  lemma PowerOfTwoBytes(k: nat)
    requires PowerOfTwo(k)
    ensures PowerOfTwo(512 * k)
  {
    hide PowerOfTwo;
    PowerOfTwoDoubles(k);
    PowerOfTwoDoubles(2 * k);
    PowerOfTwoDoubles(4 * k);
    PowerOfTwoDoubles(8 * k);
    PowerOfTwoDoubles(16 * k);
    PowerOfTwoDoubles(32 * k);
    PowerOfTwoDoubles(64 * k);
    PowerOfTwoDoubles(128 * k);
    PowerOfTwoDoubles(256 * k);
  }

  lemma TimesSucc(k: nat, n: nat)
    ensures Times(k, 0) == 0 && Times(k, n + 1) == Times(k, n) + k
  {
  }

  function And(x: nat, y: nat): nat {
    if x == 0 || y == 0 then 0
    else (if x % 2 == 1 && y % 2 == 1 then 1 else 0) + 2 * And(x / 2, y / 2)
  }

  lemma {:induction false} RemOne(x: nat)
    ensures Rem(x, 1) == 0
  {
    if x < 1 {
    } else {
      RemOne(x - 1);
    }
  }

  lemma {:induction false} RemHalf(x: nat, j: nat)
    requires j > 0
    ensures Rem(x, 2 * j) == x % 2 + 2 * Rem(x / 2, j)
  {
    if x < 2 * j {
    } else {
      RemHalf(x - 2 * j, j);
      assert (x - 2 * j) / 2 == x / 2 - j;
    }
  }

  /** Masking with `k - 1` is the remainder. */
  lemma {:induction false} AndIsRem(x: nat, k: nat)
    requires PowerOfTwo(k)
    ensures And(x, k - 1) == Rem(x, k)
  {
    if k == 1 {
      RemOne(x);
    } else if x == 0 {
    } else {
      AndIsRem(x / 2, k / 2);
      RemHalf(x, k / 2);
    }
  }

  /** 2^w. */
  function Pow2(w: nat): (r: nat)
    ensures r >= 1
  {
    if w == 0 then 1 else 2 * Pow2(w - 1)
  }

  /** A word split by a mask and the complement of the mask. */
  lemma {:induction false} AndComplement(x: nat, y: nat, w: nat)
    requires x < Pow2(w) && y < Pow2(w)
    ensures And(x, Pow2(w) - 1 - y) + And(x, y) == x
  {
    if w == 0 {
    } else {
      AndComplement(x / 2, y / 2, w - 1);
      assert (Pow2(w) - 1 - y) / 2 == Pow2(w - 1) - 1 - y / 2;
      assert (Pow2(w) - 1 - y) % 2 == 1 - y % 2;
    }
  }

  lemma Pow2Of32()
    ensures Pow2(32) == 0x1_0000_0000
  {
    assert Pow2(8) == 0x100;
    assert Pow2(16) == 0x1_0000;
    assert Pow2(24) == 0x100_0000;
  }

  /** `x & ~(k - 1)` on 32-bit words rounds down to a multiple of `k`. */
  lemma AndNotMask(x: nat, k: nat)
    requires x < 0x1_0000_0000 && PowerOfTwo(k) && k <= 0x1_0000_0000
    ensures And(x, 0xFFFF_FFFF - (k - 1)) == x - Rem(x, k)
  {
    Pow2Of32();
    AndComplement(x, k - 1, 32);
    AndIsRem(x, k);
  }

  function Or(x: nat, y: nat): nat {
    if x == 0 then y
    else if y == 0 then x
    else (if x % 2 == 1 || y % 2 == 1 then 1 else 0) + 2 * Or(x / 2, y / 2)
  }

  /** `x << k`. */
  function Shl(x: nat, k: nat): nat {
    if k == 0 then x else 2 * Shl(x, k - 1)
  }

  /** `x >> k`. */
  function Shr(x: nat, k: nat): nat {
    if k == 0 then x else Shr(x / 2, k - 1)
  }

  lemma {:induction false} ShlPow2(k: nat)
    ensures Shl(1, k) == Pow2(k)
  {
    if k == 0 {
    } else {
      ShlPow2(k - 1);
    }
  }

  /** Setting a bit below all bits that are set adds it. */
  lemma {:induction false} OrBelow(h: nat, k: nat)
    ensures Or(Shl(h, k + 1), Pow2(k)) == Shl(h, k + 1) + Pow2(k)
  {
    if k == 0 {
    } else {
      OrBelow(h, k - 1);
    }
  }

  lemma {:induction false} ShrShl(x: nat, k: nat, n: nat)
    ensures Shr(Shl(x, k), k + n) == Shr(x, n)
  {
    if k == 0 {
    } else {
      ShrShl(x, k - 1, n);
    }
  }

  lemma {:induction false} TimesDouble(k: nat, n: nat)
    ensures Times(2 * k, n) == Times(k, 2 * n)
  {
    if n == 0 {
    } else {
      TimesDouble(k, n - 1);
      assert Times(k, 2 * n) == Times(k, 2 * n - 1) + k == Times(k, 2 * (n - 1)) + k + k;
    }
  }

  lemma {:induction false} TimesZero(n: nat)
    ensures Times(0, n) == 0
  {
    if n == 0 {
    } else {
      TimesZero(n - 1);
    }
  }

  /** A doubling inside a shift is a longer shift. */
  lemma {:induction false} ShlDouble(x: nat, k: nat)
    ensures Shl(2 * x, k) == Shl(x, k + 1) && Shl(2 * x + 1, k) == Shl(x, k + 1) + Pow2(k)
  {
    if k == 0 {
    } else {
      ShlDouble(x, k - 1);
    }
  }

  function Xor(x: nat, y: nat): nat {
    if x == 0 then y
    else if y == 0 then x
    else (x + y) % 2 + 2 * Xor(x / 2, y / 2)
  }

  lemma {:induction false} BitwiseFits(x: nat, y: nat, n: nat)
    requires x < Pow2(n) && y < Pow2(n)
    ensures And(x, y) < Pow2(n) && Or(x, y) < Pow2(n) && Xor(x, y) < Pow2(n)
  {
    if n == 0 {
    } else {
      BitwiseFits(x / 2, y / 2, n - 1);
    }
  }

  lemma Pow2Of31()
    ensures Pow2(31) == 0x8000_0000 && Pow2(0) == 1
  {
    assert Pow2(8) == 0x100;
    assert Pow2(16) == 0x1_0000;
    assert Pow2(24) == 0x100_0000;
  }

  lemma QuotientUnique(x: int, k: nat, q: int, r: nat)
    requires k > 0 && x == k * q + r && r < k
    ensures x / k == q && x % k == r
  {
    var d := x / k - q;
    assert x == k * (x / k) + x % k;
    assert k * d == r - x % k;
    MulSign(k, d);
  }

  /** Halving first does not change a quotient, rounded down also below 0. */
  lemma HalfQuotient(x: int, m: nat)
    requires m > 0
    ensures x / (2 * m) == x / 2 / m
  {
    var h := x / 2;
    var q, r := h / m, h % m;
    assert h == m * q + r;
    assert x == (2 * m) * q + (2 * r + x % 2);
    QuotientUnique(x, 2 * m, q, 2 * r + x % 2);
  }

  lemma ProductDoubles(x: nat, m: nat)
    ensures x * (2 * m) == 2 * (x * m)
  {
  }

  /** A shift to the right divides by a power of two, rounding down; a shift to the left multiplies. */
  lemma {:induction false} ShiftsAreProducts(x: nat, k: nat)
    ensures Shr(x, k) == x / Pow2(k) && Shl(x, k) == x * Pow2(k)
  {
    if k == 0 {
    } else {
      ShiftsAreProducts(x, k - 1);
      ShiftsAreProducts(x / 2, k - 1);
      HalfQuotient(x, Pow2(k - 1));
      ProductDoubles(x, Pow2(k - 1));
    }
  }

  /** Bit `k` of a number. */
  predicate BitAt(x: nat, k: nat) {
    x / Pow2(k) % 2 == 1
  }

  lemma BitUp(x: nat, k: nat)
    ensures BitAt(x, k + 1) == BitAt(x / 2, k) && BitAt(x, 0) == (x % 2 == 1)
  {
    HalfQuotient(x, Pow2(k));
  }

  lemma HalfOf(b: nat, h: nat)
    requires b < 2
    ensures (b + 2 * h) / 2 == h && (b + 2 * h) % 2 == b
  {
  }

  lemma AndHalves(x: nat, y: nat)
    ensures And(x, y) / 2 == And(x / 2, y / 2) && (And(x, y) % 2 == 1 <==> x % 2 == 1 && y % 2 == 1)
  {
    if x == 0 || y == 0 {
      assert And(x, y) == 0 && And(x / 2, y / 2) == 0;
    } else {
      HalfOf(if x % 2 == 1 && y % 2 == 1 then 1 else 0, And(x / 2, y / 2));
    }
  }

  lemma OrHalves(x: nat, y: nat)
    ensures Or(x, y) / 2 == Or(x / 2, y / 2) && (Or(x, y) % 2 == 1 <==> x % 2 == 1 || y % 2 == 1)
  {
    if x == 0 || y == 0 {
      assert Or(x, y) == x + y && Or(x / 2, y / 2) == x / 2 + y / 2;
    } else {
      HalfOf(if x % 2 == 1 || y % 2 == 1 then 1 else 0, Or(x / 2, y / 2));
    }
  }

  lemma ParityOfSum(x: nat, y: nat)
    ensures (x + y) % 2 == 1 <==> (x % 2 == 1) != (y % 2 == 1)
  {
  }

  lemma XorUnfolds(x: nat, y: nat)
    requires x != 0 && y != 0
    ensures Xor(x, y) == (x + y) % 2 + 2 * Xor(x / 2, y / 2)
  {
  }

  lemma XorHalves(x: nat, y: nat)
    ensures Xor(x, y) / 2 == Xor(x / 2, y / 2) && (Xor(x, y) % 2 == 1 <==> (x % 2 == 1) != (y % 2 == 1))
  {
    if x == 0 || y == 0 {
      assert Xor(x, y) == x + y && Xor(x / 2, y / 2) == x / 2 + y / 2;
    } else {
      ParityOfSum(x, y);
      HalfOf((x + y) % 2, Xor(x / 2, y / 2));
      hide *;
      assert Xor(x, y) == (x + y) % 2 + 2 * Xor(x / 2, y / 2) by {
        XorUnfolds(x, y);
      }
    }
  }

  /** And, or and exclusive or, bit by bit. */
  lemma {:induction false} BitwiseBits(x: nat, y: nat, k: nat)
    ensures BitAt(And(x, y), k) == (BitAt(x, k) && BitAt(y, k))
    ensures BitAt(Or(x, y), k) == (BitAt(x, k) || BitAt(y, k))
    ensures BitAt(Xor(x, y), k) == (BitAt(x, k) != BitAt(y, k))
  {
    hide *;
    AndHalves(x, y);
    OrHalves(x, y);
    XorHalves(x, y);
    var j: nat := if k == 0 then 0 else k - 1;
    BitUp(x, j);
    BitUp(y, j);
    BitUp(And(x, y), j);
    BitUp(Or(x, y), j);
    BitUp(Xor(x, y), j);
    if k == 0 {
    } else {
      BitwiseBits(x / 2, y / 2, k - 1);
    }
  }

  lemma Regroup(j: nat, k: nat, q: int, r: nat)
    ensures j * (k * q + r) == (j * k) * q + j * r
  {
  }

  lemma WithinBlocks(j: nat, k: nat, r: nat, m: nat)
    requires r < k && m < j
    ensures 0 <= j * r + m < j * k
  {
    assert j * k == j * r + j + j * (k - r - 1);
    assert j * (k - r - 1) >= 0;
  }

  /** Blocks of blocks. */
  lemma NestedQuotient(o: nat, j: nat, k: nat)
    requires j > 0 && k > 0
    ensures 0 < j * k && o / (j * k) == o / j / k
  {
    var n := o / j;
    var q, r := n / k, n % k;
    assert n == k * q + r && o == j * n + o % j;
    Regroup(j, k, q, r);
    WithinBlocks(j, k, r, o % j);
    QuotientUnique(o, j * k, q, j * r + o % j);
  }
}
