/** 32-bit words as numbers. */
module Words {
  import opened Arith

  const WORD: nat := 0x1_0000_0000

  type u32 = x: int | 0 <= x < 0x1_0000_0000

  /** Two's complement negation of a word. */
  function Negate(x: u32): u32 {
    if x == 0 then 0 else WORD - x
  }

  predicate Negative(x: u32) {
    x >= 0x8000_0000
  }

  /** A word read as a signed number. */
  function Signed(x: u32): int {
    if Negative(x) then x - WORD else x
  }

  /** The word that holds a number. */
  function Word(x: int): u32 {
    x % WORD
  }

  function Abs(x: int): nat {
    if x < 0 then -x else x
  }

  type u8 = x: int | 0 <= x < 0x100

  function AndWord(a: u32, b: u32): u32 {
    Pow2Of32();
    BitwiseFits(a, b, 32);
    And(a, b)
  }

  function OrWord(a: u32, b: u32): u32 {
    Pow2Of32();
    BitwiseFits(a, b, 32);
    Or(a, b)
  }

  function XorWord(a: u32, b: u32): u32 {
    Pow2Of32();
    BitwiseFits(a, b, 32);
    Xor(a, b)
  }
}
