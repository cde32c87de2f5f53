/** Memory and registers of the processor. */
module Machine {
  import opened Words

  /** Byte-addressed memory. */
  type Mem = u32 -> u8

  /** A register number. */
  type Reg = r: nat | r < 32

  /** The registers x0 to x31; x0 holds 0. */
  type Regs = s: seq<u32> | |s| == 32 witness seq(32, i => 0)

  /** Little-endian loads at any alignment; addresses wrap around. */
  function Load8(m: Mem, a: u32): u32 {
    m(a)
  }

  function Load16(m: Mem, a: u32): u32 {
    m(a) + 0x100 * m(Word(a + 1))
  }

  function Load32(m: Mem, a: u32): u32 {
    m(a) + 0x100 * m(Word(a + 1)) + 0x1_0000 * m(Word(a + 2)) + 0x100_0000 * m(Word(a + 3))
  }

  /** Byte `k` of a word. */
  function ByteOf(v: u32, k: nat): u8 {
    if k == 0 then v % 0x100
    else if k == 1 then v / 0x100 % 0x100
    else if k == 2 then v / 0x1_0000 % 0x100
    else v / 0x100_0000
  }

  /** Memory with the lowest `n` bytes of `v` stored at `a`. */
  function Store(m: Mem, a: u32, n: nat, v: u32): Mem {
    (x: u32) => if Word(x - a) < n then ByteOf(v, Word(x - a)) else m(x)
  }

  /** Registers with `v` in `rd`; x0 stays. */
  function SetReg(x: Regs, rd: Reg, v: u32): Regs {
    if rd == 0 then x else x[rd := v]
  }

  lemma SetRegKeepsZero(x: Regs, rd: Reg, v: u32)
    requires x[0] == 0
    ensures SetReg(x, rd, v)[0] == 0
  {
  }

  /** A word rounded down to a multiple of 4. */
  function Align(x: u32): u32 {
    x - x % 4
  }

  lemma StoredByte(m: Mem, a: u32, n: nat, v: u32, k: nat)
    requires k < 4
    ensures Store(m, a, n, v)(Word(a + k)) == if k < n then ByteOf(v, k) else m(Word(a + k))
  {
    assert Word(Word(a + k) - a) == k;
  }

  lemma BytesOfWord(v: u32)
    ensures ByteOf(v, 0) + 0x100 * ByteOf(v, 1) + 0x1_0000 * ByteOf(v, 2) + 0x100_0000 * ByteOf(v, 3) == v
    ensures ByteOf(v, 0) + 0x100 * ByteOf(v, 1) == v % 0x1_0000 && ByteOf(v, 0) == v % 0x100
  {
    assert v / 0x1_0000 == v / 0x100 / 0x100 && v / 0x100_0000 == v / 0x100 / 0x100 / 0x100;
  }

  /** A stored word, halfword or byte loads back. */
  lemma LoadStore(m: Mem, a: u32, v: u32)
    ensures Load32(Store(m, a, 4, v), a) == v
    ensures Load16(Store(m, a, 2, v), a) == v % 0x1_0000
    ensures Load8(Store(m, a, 1, v), a) == v % 0x100
  {
    assert Word(a + 0) == a;
    forall n: nat, k: nat | k < n <= 4
      ensures Store(m, a, n, v)(Word(a + k)) == ByteOf(v, k)
    {
      StoredByte(m, a, n, v, k);
    }
    StoredByte(m, a, 1, v, 0);
    StoredByte(m, a, 2, v, 0);
    StoredByte(m, a, 4, v, 0);
    hide Store, ByteOf;
    BytesOfWord(v);
  }
}
