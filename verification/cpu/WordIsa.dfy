/** The instruction set a second time, read off the instruction word with numbers only: the formats of
    chapter 2 of the RISC-V Unprivileged ISA, and the traps and status registers of the repository's
    README. Nothing here is shared with `Isa` or with the hardware but the types of words, memory and
    state. */
module WordIsa {
  import opened Words
  import opened Machine
  import opened Isa
  import opened Decoder
  import Alu
  import Arith
  import Divider
  import Multiplier

  /** A word in two's complement. */
  function Two(x: u32): int {
    if x < 0x8000_0000 then x else x - 0x1_0000_0000
  }

  /** The immediates of the formats. */
  function ImmI(w: u32): int {
    w / 0x10_0000 - if w >= 0x8000_0000 then 0x1000 else 0
  }

  function ImmS(w: u32): int {
    w / 0x200_0000 * 32 + w / 0x80 % 32 - if w >= 0x8000_0000 then 0x1000 else 0
  }

  function ImmB(w: u32): int {
    w / 0x80 % 2 * 0x800 + w / 0x200_0000 % 64 * 32 + w / 0x100 % 16 * 2 - if w >= 0x8000_0000 then 0x1000 else 0
  }

  function ImmU(w: u32): int {
    w - w % 0x1000
  }

  function ImmJ(w: u32): int {
    w / 0x1000 % 0x100 * 0x1000 + w / 0x10_0000 % 2 * 0x800 + w / 0x20_0000 % 0x400 * 2
    - if w >= 0x8000_0000 then 0x10_0000 else 0
  }

  /** The state goes on at `pc` with `v` in `rd`; x0 and everything else stay. */
  ghost predicate Wrote(s: State, rd: nat, v: int, pc: int, s': State) {
    && s'.pc == pc % 0x1_0000_0000
    && (forall r: nat :: r < 32 ==> s'.regs[r] == if r == rd && r != 0 then v % 0x1_0000_0000 else s.regs[r])
    && s'.mem == s.mem
    && s'.epc == s.epc && s'.evect == s.evect && s'.cause == s.cause && s'.meie == s.meie && s'.meiePrev == s.meiePrev
  }

  /** The quotient of a signed division, rounded toward zero, and its remainder. */
  predicate Division(x: int, y: int, q: int, r: int) {
    x == y * q + r && (if y < 0 then y < r < -y else -y < r < y) && (r == 0 || (r < 0 <==> x < 0))
  }

  /** DIV and REM. */
  ghost predicate Divided(a: u32, b: u32, quotient: bool, v: u32) {
    if b == 0 then v == if quotient then 0xFFFF_FFFF else a
    else exists q: int, r: int :: Division(Two(a), Two(b), q, r) && v == (if quotient then q else r) % 0x1_0000_0000
  }

  /** What OP computes for its function codes; OP-IMM computes it with the immediate. */
  ghost predicate Computed(f3: nat, f7: nat, a: u32, b: u32, v: u32) {
    if f7 == 1 then
      if f3 == 0 then v == a * b % 0x1_0000_0000
      else if f3 == 1 then v == Two(a) * Two(b) / 0x1_0000_0000 % 0x1_0000_0000
      else if f3 == 2 then v == Two(a) * b / 0x1_0000_0000 % 0x1_0000_0000
      else if f3 == 3 then v == a * b / 0x1_0000_0000 % 0x1_0000_0000
      else if f3 == 4 then Divided(a, b, true, v)
      else if f3 == 5 then v == if b == 0 then 0xFFFF_FFFF else a / b
      else if f3 == 6 then Divided(a, b, false, v)
      else v == if b == 0 then a else a % b
    else if f7 == 0x20 then
      if f3 == 0 then v == (a - b) % 0x1_0000_0000
      else f3 == 5 && v == Two(a) / Arith.Pow2(b % 32) % 0x1_0000_0000
    else
      && f7 == 0
      && if f3 == 0 then v == (a + b) % 0x1_0000_0000
         else if f3 == 1 then v == a * Arith.Pow2(b % 32) % 0x1_0000_0000
         else if f3 == 2 then v == if Two(a) < Two(b) then 1 else 0
         else if f3 == 3 then v == if a < b then 1 else 0
         else if f3 == 4 then forall k: nat :: Arith.BitAt(v, k) == (Arith.BitAt(a, k) != Arith.BitAt(b, k))
         else if f3 == 5 then v == a / Arith.Pow2(b % 32)
         else if f3 == 6 then forall k: nat :: Arith.BitAt(v, k) == (Arith.BitAt(a, k) || Arith.BitAt(b, k))
         else forall k: nat :: Arith.BitAt(v, k) == (Arith.BitAt(a, k) && Arith.BitAt(b, k))
  }

  /** The value that is put into a register. */
  ghost predicate Result(s: State, rd: nat, s': State, f3: nat, f7: nat, a: u32, b: u32) {
    exists v: u32 :: Computed(f3, f7, a, b, v) && Wrote(s, rd, v, s.pc + 4, s')
  }

  predicate Branches(f3: nat, a: u32, b: u32)
    requires f3 == 0 || f3 == 1 || f3 == 4 || f3 == 5 || f3 == 6 || f3 == 7
  {
    if f3 == 0 then a == b
    else if f3 == 1 then a != b
    else if f3 == 4 then Two(a) < Two(b)
    else if f3 == 5 then Two(a) >= Two(b)
    else if f3 == 6 then a < b
    else a >= b
  }

  /** The byte at an address, which wraps around. */
  function ByteAt(m: Mem, a: int): u8 {
    m(a % 0x1_0000_0000)
  }

  /** What the loads deliver. */
  function Loads(f3: nat, m: Mem, a: int): int {
    var b0, b1, b2, b3 := ByteAt(m, a), ByteAt(m, a + 1), ByteAt(m, a + 2), ByteAt(m, a + 3);
    if f3 == 0 then b0 - (if b0 >= 0x80 then 0x100 else 0)
    else if f3 == 1 then b0 + 0x100 * b1 - (if b1 >= 0x80 then 0x1_0000 else 0)
    else if f3 == 2 then b0 + 0x100 * b1 + 0x1_0000 * b2 + 0x100_0000 * b3
    else if f3 == 4 then b0
    else b0 + 0x100 * b1
  }

  /** The lowest `n` bytes of `v` are stored from `a` on, the least significant first. */
  ghost predicate Stored(m: Mem, a: int, n: nat, v: u32, m': Mem) {
    && (1 <= n ==> ByteAt(m', a) == v % 0x100)
    && (2 <= n ==> ByteAt(m', a + 1) == v / 0x100 % 0x100)
    && (3 <= n ==> ByteAt(m', a + 2) == v / 0x1_0000 % 0x100 && ByteAt(m', a + 3) == v / 0x100_0000)
    && forall x: u32 :: (x - a) % 0x1_0000_0000 >= n ==> m'(x) == m(x)
  }

  /** An exception or interrupt. */
  ghost predicate Trapped(s: State, cause: nat, s': State) {
    && s'.pc == s.evect && s'.epc == s.pc && s'.cause == cause && !s'.meie && s'.meiePrev == s.meie
    && s'.regs == s.regs && s'.mem == s.mem && s'.evect == s.evect
  }

  /** The status registers: by the two lowest bits of the number flags and interrupt line, cause, saved
      address and vector. */
  function Status(s: State, csr: nat, line: bool): int {
    if csr % 4 == 0 then (if s.meie then 1 else 0) + (if s.meiePrev then 2 else 0) + (if line then 4 else 0)
    else if csr % 4 == 1 then s.cause % 16 + s.cause / 16 % 2 * 0x8000_0000
    else if csr % 4 == 2 then s.epc
    else s.evect
  }

  /** CSRRW of register `csr`, read-only if bit 11 of its number is set. */
  ghost predicate Swapped(s: State, csr: nat, rd: nat, a: u32, line: bool, s': State) {
    var w := csr / 0x800 % 2 == 0;
    && s'.pc == (s.pc + 4) % 0x1_0000_0000 && s'.mem == s.mem
    && (forall r: nat :: r < 32 ==> s'.regs[r] == if r == rd && r != 0 then Status(s, csr, line) else s.regs[r])
    && s'.meie == (if w && csr % 4 == 0 then a % 2 == 1 else s.meie)
    && s'.meiePrev == (if w && csr % 4 == 0 then a / 2 % 2 == 1 else s.meiePrev)
    && s'.cause == (if w && csr % 4 == 1 then a % 16 + a / 0x8000_0000 * 16 else s.cause)
    && s'.epc == (if w && csr % 4 == 2 then a - a % 4 else s.epc)
    && s'.evect == (if w && csr % 4 == 3 then a - a % 4 else s.evect)
  }

  /** The system instructions. */
  ghost predicate SystemMeans(s: State, w: u32, line: bool, s': State) {
    if w / 0x1000 % 8 == 1 then Swapped(s, w / 0x10_0000, w / 0x80 % 32, s.regs[w / 0x8000 % 32], line, s')
    else if w == 0x0000_0073 then Trapped(s, 0xB, s')
    else if w == 0x0010_0073 then Trapped(s, 3, s')
    else
      && w == 0x3020_0073
      && s'.pc == s.epc && s'.meie == s.meiePrev && s'.meiePrev == s.meiePrev && s'.cause == 0
      && s'.regs == s.regs && s'.mem == s.mem && s'.epc == s.epc && s'.evect == s.evect
  }

  /** The effect of the instruction word `w`. */
  ghost predicate Means(s: State, w: u32, line: bool, s': State) {
    var rd: Reg, f3: nat, f7: nat := w / 0x80 % 32, w / 0x1000 % 8, w / 0x200_0000;
    var a, b := s.regs[w / 0x8000 % 32], s.regs[w / 0x10_0000 % 32];
    if w % 0x80 == 0x37 then Wrote(s, rd, ImmU(w), s.pc + 4, s')
    else if w % 0x80 == 0x17 then Wrote(s, rd, s.pc + ImmU(w), s.pc + 4, s')
    else if w % 0x80 == 0x6F then Wrote(s, rd, s.pc + 4, s.pc + ImmJ(w), s')
    else if w % 0x80 == 0x67 then f3 == 0 && Wrote(s, rd, s.pc + 4, (a + ImmI(w)) / 2 * 2, s')
    else if w % 0x80 == 0x63 then
      f3 != 2 && f3 != 3 && Wrote(s, 0, 0, s.pc + if Branches(f3, a, b) then ImmB(w) else 4, s')
    else if w % 0x80 == 0x03 then
      f3 != 3 && f3 < 6 && Wrote(s, rd, Loads(f3, s.mem, a + ImmI(w)), s.pc + 4, s')
    else if w % 0x80 == 0x23 then
      && f3 < 3 && Stored(s.mem, a + ImmS(w), if f3 == 0 then 1 else if f3 == 1 then 2 else 4, b, s'.mem)
      && Wrote(s, 0, 0, s.pc + 4, s'.(mem := s.mem))
    else if w % 0x80 == 0x13 then
      && (f3 == 1 || f3 == 5 ==> f7 != 1)
      && Result(s, rd, s', f3, if f3 == 1 || f3 == 5 then f7 else 0, a, ImmI(w) % 0x1_0000_0000)
    else if w % 0x80 == 0x33 then Result(s, rd, s', f3, f7, a, b)
    else if w % 0x80 == 0x0F then Wrote(s, 0, 0, s.pc + 4, s')
    else w % 0x80 == 0x73 && SystemMeans(s, w, line, s')
  }

  lemma HalfDigit(x: nat)
    ensures x == x / 2 * 2 + x % 2 && x % 32 == x / 2 % 16 * 2 + x % 2
  {
  }

  lemma Split(w: nat)
    ensures w / 0x80 % 32 == w / 0x100 % 16 * 2 + w / 0x80 % 2
    ensures w / 0x10_0000 == w / 0x200_0000 * 32 + w / 0x10_0000 % 32
    ensures w / 0x8000_0000 == w / 0x200_0000 / 64
  {
    HalfDigit(w / 0x80);
    assert w / 0x80 / 2 == w / 0x100;
  }

  lemma LowBits(f7: nat, rs2: Reg, rs1: Reg, f3: nat, rd: Reg, op: nat)
    requires op < 128
    ensures RType(f7, rs2, rs1, f3, rd, op) % 0x80 == op
  {
    assert RType(f7, rs2, rs1, f3, rd, op) == (f7 * 0x4_0000 + rs2 * 0x2000 + rs1 * 0x100 + f3 * 0x20 + rd) * 0x80 + op;
  }

  lemma SameFields(w: u32, f: Fields)
    requires FieldsOf(w) == f
    ensures w / 0x80 % 32 == f.rd && w / 0x1000 % 8 == f.funct3 && w / 0x8000 % 32 == f.rs1
    ensures w / 0x10_0000 % 32 == f.rs2 && w / 0x200_0000 == f.funct7
  {
  }

  /** The fields of a word that is put together from them. */
  lemma FieldsAre(f7: nat, rs2: Reg, rs1: Reg, f3: nat, rd: Reg, op: nat)
    requires f7 < 128 && f3 < 8 && op < 128
    ensures var w := RType(f7, rs2, rs1, f3, rd, op);
            && w < 0x1_0000_0000 && w % 0x80 == op && w / 0x80 % 32 == rd && w / 0x1000 % 8 == f3
            && w / 0x8000 % 32 == rs1 && w / 0x10_0000 % 32 == rs2 && w / 0x200_0000 == f7
            && (w >= 0x8000_0000 <==> f7 >= 64)
  {
    RFields(f7, rs2, rs1, f3, rd, op);
    LowBits(f7, rs2, rs1, f3, rd, op);
    var w := RType(f7, rs2, rs1, f3, rd, op);
    SameFields(w, Fields(f7, rs2, rs1, f3, rd, op / 4));
    hide *;
    Split(w);
  }

  /** Fields that cross those of the R format. */
  lemma CrossFields(w: u32, f7: nat, rs2: Reg, rd: Reg)
    requires w / 0x80 % 32 == rd && w / 0x10_0000 % 32 == rs2 && w / 0x200_0000 == f7
    ensures w / 0x10_0000 == f7 * 32 + rs2 && w / 0x80 % 2 == rd % 2 && w / 0x100 % 16 == rd / 2
  {
    Split(w);
  }

  lemma ImmediateFields(imm: nat, rs1: Reg, f3: nat, rd: Reg, op: nat)
    requires imm < 0x1000 && f3 < 8 && op < 128
    ensures var w := IType(imm, rs1, f3, rd, op);
            && w < 0x1_0000_0000 && w % 0x80 == op && w / 0x80 % 32 == rd && w / 0x1000 % 8 == f3
            && w / 0x8000 % 32 == rs1 && w / 0x10_0000 % 32 == imm % 32 && w / 0x200_0000 == imm / 32
            && w / 0x10_0000 == imm
            && ImmI(w) == imm - if imm >= 0x800 then 0x1000 else 0
  {
    assert IType(imm, rs1, f3, rd, op) == RType(imm / 32, imm % 32, rs1, f3, rd, op);
    FieldsAre(imm / 32, imm % 32, rs1, f3, rd, op);
    CrossFields(IType(imm, rs1, f3, rd, op), imm / 32, imm % 32, rd);
    hide IType, RType;
  }

  lemma UpperFields(imm: nat, rd: Reg, op: nat)
    requires imm < 0x10_0000 && op < 128
    ensures var w := UType(imm, rd, op);
            w < 0x1_0000_0000 && w % 0x80 == op && w / 0x80 % 32 == rd && w / 0x1000 == imm && ImmU(w) == imm * 0x1000
  {
    var w := UType(imm, rd, op);
    assert w == (imm * 32 + rd) * 0x80 + op && w == imm * 0x1000 + (rd * 0x80 + op);
  }

  /** The words that sign extension gives. */
  lemma Extends(v: nat, half: nat)
    ensures SignExtend(v, half) == (v - if v >= half then 2 * half else 0) % 0x1_0000_0000
  {
  }

  lemma WroteIs(s: State, rd: Reg, v: int, pc: int)
    ensures Wrote(s, rd, v, pc, s.(pc := Word(pc), regs := SetReg(s.regs, rd, Word(v))))
    ensures rd == 0 ==> Wrote(s, rd, v, pc, s.(pc := Word(pc)))
  {
  }

  lemma AddsModulo(x: int, y: int)
    ensures (x + y % 0x1_0000_0000) % 0x1_0000_0000 == (x + y) % 0x1_0000_0000
  {
  }

  /** The cases of `Means`, by the fields of the word. */
  lemma MeansOf(s: State, w: u32, line: bool, s': State, f7: nat, rs2: Reg, rs1: Reg, f3: nat, rd: Reg, op: nat)
    requires w % 0x80 == op && w / 0x80 % 32 == rd && w / 0x1000 % 8 == f3 && w / 0x8000 % 32 == rs1
    requires w / 0x10_0000 % 32 == rs2 && w / 0x200_0000 == f7
    ensures op == 0x67 ==>
      (Means(s, w, line, s') <==> f3 == 0 && Wrote(s, rd, s.pc + 4, (s.regs[rs1] + ImmI(w)) / 2 * 2, s'))
    ensures op == 0x63 ==>
      (Means(s, w, line, s') <==>
       f3 != 2 && f3 != 3 && Wrote(s, 0, 0, s.pc + if Branches(f3, s.regs[rs1], s.regs[rs2]) then ImmB(w) else 4, s'))
    ensures op == 0x03 ==>
      (Means(s, w, line, s') <==>
       f3 != 3 && f3 < 6 && Wrote(s, rd, Loads(f3, s.mem, s.regs[rs1] + ImmI(w)), s.pc + 4, s'))
    ensures op == 0x23 ==>
      (Means(s, w, line, s') <==>
       && f3 < 3
       && Stored(s.mem, s.regs[rs1] + ImmS(w), if f3 == 0 then 1 else if f3 == 1 then 2 else 4, s.regs[rs2], s'.mem)
       && Wrote(s, 0, 0, s.pc + 4, s'.(mem := s.mem)))
    ensures op == 0x13 ==>
      (Means(s, w, line, s') <==>
       && (f3 == 1 || f3 == 5 ==> f7 != 1)
       && Result(s, rd, s', f3, if f3 == 1 || f3 == 5 then f7 else 0, s.regs[rs1], ImmI(w) % 0x1_0000_0000))
    ensures op == 0x33 ==> (Means(s, w, line, s') <==> Result(s, rd, s', f3, f7, s.regs[rs1], s.regs[rs2]))
    ensures op == 0x73 ==> (Means(s, w, line, s') <==> SystemMeans(s, w, line, s'))
  {
    hide Wrote, Stored, Loads, Branches, ImmB, ImmI, ImmS, ImmJ, ImmU, Result, SystemMeans;
  }

  lemma MeansOfUpper(s: State, w: u32, line: bool, s': State, rd: Reg, op: nat)
    requires w % 0x80 == op && w / 0x80 % 32 == rd
    ensures op == 0x37 ==> (Means(s, w, line, s') <==> Wrote(s, rd, ImmU(w), s.pc + 4, s'))
    ensures op == 0x17 ==> (Means(s, w, line, s') <==> Wrote(s, rd, s.pc + ImmU(w), s.pc + 4, s'))
    ensures op == 0x6F ==> (Means(s, w, line, s') <==> Wrote(s, rd, s.pc + 4, s.pc + ImmJ(w), s'))
    ensures op == 0x0F ==> (Means(s, w, line, s') <==> Wrote(s, 0, 0, s.pc + 4, s'))
  {
    hide Wrote, Stored, Loads, Branches, ImmB, ImmI, ImmS, ImmJ, ImmU, Result, SystemMeans;
  }

  /** The address of a load, a store or an indirect jump. */
  lemma OffsetAddress(a: u32, imm: nat)
    ensures Word(a + Imm12(imm)) == Word(a + (imm - if imm >= 0x800 then 0x1000 else 0))
  {
    Extends(imm, 0x800);
    AddsModulo(a, imm - if imm >= 0x800 then 0x1000 else 0);
    hide SignExtend;
  }

  lemma UpperEffect(s: State, i: Instr, line: bool)
    requires Encodable(i) && (i.Lui? || i.Auipc?)
    ensures i.imm20 < 0x10_0000 && Encode(i) == UType(i.imm20, i.rd, if i.Lui? then 0x37 else 0x17)
    ensures Wrote(s, i.rd, (if i.Lui? then 0 else s.pc) + i.imm20 * 0x1000, s.pc + 4, Execute(s, i, line))
  {
    WroteIs(s, i.rd, i.imm20 * 0x1000, s.pc + 4);
    WroteIs(s, i.rd, s.pc + i.imm20 * 0x1000, s.pc + 4);
    hide UType, Wrote;
  }

  lemma MeansUpper(s: State, i: Instr, line: bool)
    requires Encodable(i) && (i.Lui? || i.Auipc?)
    ensures Encode(i) < 0x1_0000_0000 && Means(s, Encode(i), line, Execute(s, i, line))
  {
    hide *;
    UpperEffect(s, i, line);
    var op := if i.Lui? then 0x37 else 0x17;
    UpperFields(i.imm20, i.rd, op);
    MeansOfUpper(s, UType(i.imm20, i.rd, op), line, Execute(s, i, line), i.rd, op);
  }

  lemma JumpParse(w: u32, imm: nat)
    requires imm == w / 0x1000
    ensures imm < 0x10_0000
    ensures ImmJ(w) == imm % 0x100 * 0x1000 + imm / 0x100 % 2 * 0x800 + imm / 0x200 % 0x400 * 2
                       - if imm / 0x8_0000 == 1 then 0x10_0000 else 0
  {
    assert w / 0x10_0000 == imm / 0x100 && w / 0x20_0000 == imm / 0x200 && w / 0x8000_0000 == imm / 0x8_0000;
  }

  lemma JumpSign(h: nat)
    requires h < 0x10_0000
    ensures h / 0x8_0000 == if h >= 0x8_0000 then 1 else 0
  {
  }

  lemma JumpImmediate(w: u32, h: nat)
    requires h < 0x10_0000
    requires w / 0x1000 == h / 0x8_0000 * 0x8_0000 + h % 0x400 * 0x200 + h / 0x400 % 2 * 0x100 + h / 0x800 % 0x100
    ensures ImmJ(w) == 2 * h - if h >= 0x8_0000 then 0x20_0000 else 0
  {
    hide *;
    JumpBits(h);
    JumpSum(h);
    JumpParse(w, w / 0x1000);
    JumpSign(h);
  }

  lemma JumpTarget(pc: u32, h: nat)
    ensures Word(pc + JumpOffset(h)) == Word(pc + (2 * h - if h >= 0x8_0000 then 0x20_0000 else 0))
  {
    Extends(2 * h, 0x10_0000);
    AddsModulo(pc, 2 * h - if h >= 0x8_0000 then 0x20_0000 else 0);
    hide SignExtend;
  }

  lemma JumpEffect(s: State, i: Instr, line: bool)
    requires Encodable(i) && i.Jal?
    ensures var h := i.half20;
            && h < 0x10_0000
            && Encode(i) == UType(h / 0x8_0000 * 0x8_0000 + h % 0x400 * 0x200 + h / 0x400 % 2 * 0x100 + h / 0x800 % 0x100, i.rd, 0x6F)
            && Wrote(s, i.rd, s.pc + 4, s.pc + (2 * h - if h >= 0x8_0000 then 0x20_0000 else 0), Execute(s, i, line))
  {
    var o := 2 * i.half20 - if i.half20 >= 0x8_0000 then 0x20_0000 else 0;
    JumpTarget(s.pc, i.half20);
    WroteIs(s, i.rd, s.pc + 4, s.pc + o);
    hide UType, Wrote, JumpOffset, Word;
  }

  lemma MeansJump(s: State, i: Instr, line: bool)
    requires Encodable(i) && i.Jal?
    ensures Encode(i) < 0x1_0000_0000 && Means(s, Encode(i), line, Execute(s, i, line))
  {
    hide *;
    JumpEffect(s, i, line);
    var h := i.half20;
    var imm := h / 0x8_0000 * 0x8_0000 + h % 0x400 * 0x200 + h / 0x400 % 2 * 0x100 + h / 0x800 % 0x100;
    JumpBits(h);
    UpperFields(imm, i.rd, 0x6F);
    var w := UType(imm, i.rd, 0x6F);
    JumpImmediate(w, h);
    MeansOfUpper(s, w, line, Execute(s, i, line), i.rd, 0x6F);
  }

  lemma EvenPart(x: int)
    ensures x / 2 * 2 == x - x % 2
  {
  }

  lemma SameParity(x: int, q: int, r: int)
    requires x == 0x1_0000_0000 * q + r
    ensures x % 2 == r % 2
  {
    assert x == 2 * (0x8000_0000 * q) + r;
  }

  lemma SplitWord(x: int)
    ensures x == 0x1_0000_0000 * (x / 0x1_0000_0000) + x % 0x1_0000_0000
  {
  }

  lemma EvenModulo(x: int)
    ensures x / 2 * 2 % 0x1_0000_0000 == x % 0x1_0000_0000 - x % 0x1_0000_0000 % 2
  {
    var q, r := x / 0x1_0000_0000, x % 0x1_0000_0000;
    SplitWord(x);
    EvenPart(x);
    SameParity(x, q, r);
    Arith.QuotientUnique(x - x % 2, 0x1_0000_0000, q, r - r % 2);
  }

  lemma EvenWord(x: int)
    ensures Word(x / 2 * 2) == Word(x) - Word(x) % 2
  {
    EvenModulo(x);
  }

  lemma IndirectEffect(s: State, i: Instr, line: bool)
    requires Encodable(i) && i.Jalr?
    ensures i.imm12 < 0x1000 && i.imm12 / 32 < 128 && Encode(i) == IType(i.imm12, i.rs1, 0, i.rd, 0x67)
    ensures var x := s.regs[i.rs1] + (i.imm12 - if i.imm12 >= 0x800 then 0x1000 else 0);
            Wrote(s, i.rd, s.pc + 4, x / 2 * 2, Execute(s, i, line))
  {
    var x := s.regs[i.rs1] + (i.imm12 - if i.imm12 >= 0x800 then 0x1000 else 0);
    OffsetAddress(s.regs[i.rs1], i.imm12);
    EvenWord(x);
    WroteIs(s, i.rd, s.pc + 4, x / 2 * 2);
    hide IType, Wrote, Imm12, Word;
  }

  lemma MeansIndirect(s: State, i: Instr, line: bool)
    requires Encodable(i) && i.Jalr?
    ensures Encode(i) < 0x1_0000_0000 && Means(s, Encode(i), line, Execute(s, i, line))
  {
    hide *;
    IndirectEffect(s, i, line);
    ImmediateFields(i.imm12, i.rs1, 0, i.rd, 0x67);
    MeansOf(s, IType(i.imm12, i.rs1, 0, i.rd, 0x67), line, Execute(s, i, line), i.imm12 / 32, i.imm12 % 32, i.rs1, 0, i.rd, 0x67);
  }

  lemma BranchParts(h: nat)
    requires h < 0x1000
    ensures BranchHigh(h) < 128 && BranchLow(h) < 32
    ensures BranchHigh(h) / 64 == (if h >= 0x800 then 1 else 0) && (BranchHigh(h) >= 64 <==> h >= 0x800)
  {
    HighParts(h);
    LowParts(h / 2048, h / 16 % 64);
  }

  lemma BranchRange(h: nat)
    requires h < 0x1000
    ensures BranchHigh(h) < 128 && BranchLow(h) < 32
  {
    BranchParts(h);
  }

  lemma BranchParse(w: u32, f7: nat, low: nat)
    requires w / 0x200_0000 == f7 && w / 0x80 % 2 == low % 2 && w / 0x100 % 16 == low / 2
    ensures ImmB(w) == low % 2 * 0x800 + f7 % 64 * 32 + low / 2 * 2 - if w >= 0x8000_0000 then 0x1000 else 0
  {
  }

  lemma BranchImmediate(w: u32, h: nat)
    requires h < 0x1000 && w / 0x200_0000 == BranchHigh(h) && (w >= 0x8000_0000 <==> BranchHigh(h) >= 64)
    requires w / 0x80 % 2 == BranchLow(h) % 2 && w / 0x100 % 16 == BranchLow(h) / 2
    ensures ImmB(w) == 2 * h - if h >= 0x800 then 0x2000 else 0
  {
    hide *;
    BranchParse(w, BranchHigh(h), BranchLow(h));
    BranchParts(h);
    BranchBits(h);
  }

  lemma TakenIs(c: Cond, a: u32, b: u32)
    ensures CondBits(c) != 2 && CondBits(c) != 3 && (Taken(c, a, b) <==> Branches(CondBits(c), a, b))
  {
  }

  lemma BranchTarget(pc: u32, h: nat)
    ensures Word(pc + BranchOffset(h)) == Word(pc + (2 * h - if h >= 0x800 then 0x2000 else 0))
  {
    Extends(2 * h, 0x1000);
    AddsModulo(pc, 2 * h - if h >= 0x800 then 0x2000 else 0);
    hide SignExtend;
  }

  lemma BranchExecutes(s: State, i: Instr, line: bool)
    requires Encodable(i) && i.Branch?
    ensures i == Branch(i.cond, i.rs1, i.rs2, i.half12) && i.half12 < 0x1000
    ensures Execute(s, i, line) ==
            s.(pc := Word(s.pc + if Taken(i.cond, s.regs[i.rs1], s.regs[i.rs2]) then BranchOffset(i.half12) else 4))
  {
    hide BranchOffset, Word, Taken;
  }

  lemma BranchEffect(s: State, i: Instr, line: bool)
    requires Encodable(i) && i.Branch?
    ensures i.half12 < 0x1000
    ensures Encode(i) == RType(BranchHigh(i.half12), i.rs2, i.rs1, CondBits(i.cond), BranchLow(i.half12), 0x63)
    ensures var o := 2 * i.half12 - if i.half12 >= 0x800 then 0x2000 else 0;
            Wrote(s, 0, 0, s.pc + if Taken(i.cond, s.regs[i.rs1], s.regs[i.rs2]) then o else 4, Execute(s, i, line))
  {
    hide *;
    var o := 2 * i.half12 - if i.half12 >= 0x800 then 0x2000 else 0;
    BranchIs(i.cond, i.rs1, i.rs2, i.half12);
    BranchExecutes(s, i, line);
    BranchTarget(s.pc, i.half12);
    WroteIs(s, 0, 0, s.pc + o);
    WroteIs(s, 0, 0, s.pc + 4);
  }

  lemma MeansBranch(s: State, i: Instr, line: bool)
    requires Encodable(i) && i.Branch?
    ensures Encode(i) < 0x1_0000_0000 && Means(s, Encode(i), line, Execute(s, i, line))
  {
    var h := i.half12;
    var w := RType(BranchHigh(h), i.rs2, i.rs1, CondBits(i.cond), BranchLow(h), 0x63);
    hide *;
    BranchEffect(s, i, line);
    BranchRange(h);
    FieldsAre(BranchHigh(h), i.rs2, i.rs1, CondBits(i.cond), BranchLow(h), 0x63);
    CrossFields(w, BranchHigh(h), i.rs2, BranchLow(h));
    BranchImmediate(w, h);
    TakenIs(i.cond, s.regs[i.rs1], s.regs[i.rs2]);
    MeansOf(s, w, line, Execute(s, i, line), BranchHigh(h), i.rs2, i.rs1, CondBits(i.cond), BranchLow(h), 0x63);
  }

  lemma ByteAtIs(m: Mem, a: int, x: u32, k: nat)
    requires x == a % 0x1_0000_0000
    ensures ByteAt(m, a + k) == m(Word(x + k))
  {
  }

  lemma FirstByte(m: Mem, a: int)
    ensures m(Word(a)) == ByteAt(m, a)
  {
  }

  lemma LoadedBytes(m: Mem, a: int)
    ensures Load8(m, Word(a)) == ByteAt(m, a) && Load16(m, Word(a)) == ByteAt(m, a) + 0x100 * ByteAt(m, a + 1)
    ensures Load32(m, Word(a)) ==
            ByteAt(m, a) + 0x100 * ByteAt(m, a + 1) + 0x1_0000 * ByteAt(m, a + 2) + 0x100_0000 * ByteAt(m, a + 3)
  {
    ByteAtIs(m, a, Word(a), 1);
    ByteAtIs(m, a, Word(a), 2);
    ByteAtIs(m, a, Word(a), 3);
    ByteAtIs(m, a, Word(a), 0);
    hide ByteAt;
    FirstByte(m, a);
  }

  lemma LoadKinds(k: LoadKind, m: Mem, a: u32)
    ensures LoadBits(k) == match k case Lb => 0 case Lh => 1 case Lw => 2 case Lbu => 4 case Lhu => 5
    ensures LoadValue(k, m, a) ==
            match k case Lb => SignExtend(Load8(m, a), 0x80) case Lh => SignExtend(Load16(m, a), 0x8000)
                    case Lw => Load32(m, a) case Lbu => Load8(m, a) case Lhu => Load16(m, a)
  {
    hide SignExtend, Load8, Load16, Load32;
  }

  lemma LoadsOf(f3: nat, m: Mem, a: int)
    ensures var b0, b1, b2, b3 := ByteAt(m, a), ByteAt(m, a + 1), ByteAt(m, a + 2), ByteAt(m, a + 3);
            && (f3 == 0 ==> Loads(f3, m, a) == b0 - if b0 >= 0x80 then 0x100 else 0)
            && (f3 == 1 ==> Loads(f3, m, a) == b0 + 0x100 * b1 - if b0 + 0x100 * b1 >= 0x8000 then 0x1_0000 else 0)
            && (f3 == 2 ==> Loads(f3, m, a) == b0 + 0x100 * b1 + 0x1_0000 * b2 + 0x100_0000 * b3)
            && (f3 == 4 ==> Loads(f3, m, a) == b0)
            && (f3 == 5 ==> Loads(f3, m, a) == b0 + 0x100 * b1)
  {
    hide ByteAt;
  }

  lemma LoadsAre(k: LoadKind, m: Mem, a: int)
    ensures LoadBits(k) < 6 && LoadBits(k) != 3
    ensures LoadValue(k, m, Word(a)) == Loads(LoadBits(k), m, a) % 0x1_0000_0000
  {
    hide *;
    LoadedBytes(m, a);
    LoadKinds(k, m, Word(a));
    LoadsOf(LoadBits(k), m, a);
    Extends(Load8(m, Word(a)), 0x80);
    Extends(Load16(m, Word(a)), 0x8000);
  }

  lemma WordIs(x: int)
    ensures Word(x) == x % 0x1_0000_0000
  {
  }

  lemma LoadEffect(s: State, i: Instr, line: bool)
    requires Encodable(i) && i.Load?
    ensures i.imm12 < 0x1000 && i.imm12 / 32 < 128 && LoadBits(i.kind) < 6 && LoadBits(i.kind) != 3
    ensures Encode(i) == IType(i.imm12, i.rs1, LoadBits(i.kind), i.rd, 0x03)
    ensures var a := s.regs[i.rs1] + (i.imm12 - if i.imm12 >= 0x800 then 0x1000 else 0);
            Wrote(s, i.rd, Loads(LoadBits(i.kind), s.mem, a), s.pc + 4, Execute(s, i, line))
  {
    var a := s.regs[i.rs1] + (i.imm12 - if i.imm12 >= 0x800 then 0x1000 else 0);
    OffsetAddress(s.regs[i.rs1], i.imm12);
    LoadsAre(i.kind, s.mem, a);
    WroteIs(s, i.rd, Loads(LoadBits(i.kind), s.mem, a), s.pc + 4);
    WordIs(Loads(LoadBits(i.kind), s.mem, a));
    hide IType, Wrote, Imm12, Word, LoadBits, LoadValue, Loads;
  }

  lemma MeansLoad(s: State, i: Instr, line: bool)
    requires Encodable(i) && i.Load?
    ensures Encode(i) < 0x1_0000_0000 && Means(s, Encode(i), line, Execute(s, i, line))
  {
    hide *;
    LoadEffect(s, i, line);
    var f3 := LoadBits(i.kind);
    ImmediateFields(i.imm12, i.rs1, f3, i.rd, 0x03);
    MeansOf(s, IType(i.imm12, i.rs1, f3, i.rd, 0x03), line, Execute(s, i, line), i.imm12 / 32, i.imm12 % 32, i.rs1, f3, i.rd, 0x03);
  }

  lemma StoredByteAt(m: Mem, a: int, n: nat, v: u32, k: nat)
    requires k < 4
    ensures ByteAt(Store(m, Word(a), n, v), a + k) == if k < n then ByteOf(v, k) else ByteAt(m, a + k)
  {
    ByteAtIs(m, a, Word(a), k);
    ByteAtIs(Store(m, Word(a), n, v), a, Word(a), k);
    StoredByte(m, Word(a), n, v, k);
    hide ByteAt, Store, Word, ByteOf;
  }

  lemma SubtractsModulo(x: int, y: int)
    ensures (x - y % 0x1_0000_0000) % 0x1_0000_0000 == (x - y) % 0x1_0000_0000
  {
  }

  lemma StoredElsewhere(m: Mem, a: int, n: nat, v: u32, x: u32)
    requires (x - a) % 0x1_0000_0000 >= n
    ensures Store(m, Word(a), n, v)(x) == m(x)
  {
    SubtractsModulo(x, a);
    hide ByteOf;
  }

  lemma Digits(v: u32)
    ensures ByteOf(v, 0) == v % 0x100 && ByteOf(v, 1) == v / 0x100 % 0x100
    ensures ByteOf(v, 2) == v / 0x1_0000 % 0x100 && ByteOf(v, 3) == v / 0x100_0000
  {
  }

  lemma StoredIs(m: Mem, a: int, n: nat, v: u32)
    requires n == 1 || n == 2 || n == 4
    ensures Stored(m, a, n, v, Store(m, Word(a), n, v))
  {
    hide ByteAt, Store, Word, ByteOf;
    Digits(v);
    StoredByteAt(m, a, n, v, 0);
    StoredByteAt(m, a, n, v, 1);
    StoredByteAt(m, a, n, v, 2);
    StoredByteAt(m, a, n, v, 3);
    assert a + 0 == a;
    forall x: u32 | (x - a) % 0x1_0000_0000 >= n
      ensures Store(m, Word(a), n, v)(x) == m(x)
    {
      StoredElsewhere(m, a, n, v, x);
    }
  }

  lemma SaveImmediate(w: u32, imm: nat)
    requires imm < 0x1000 && w / 0x200_0000 == imm / 32 && w / 0x80 % 32 == imm % 32 && (w >= 0x8000_0000 <==> imm / 32 >= 64)
    ensures ImmS(w) == imm - if imm >= 0x800 then 0x1000 else 0
  {
  }

  lemma WidthIs(k: StoreKind)
    ensures StoreBits(k) < 3 && Width(k) == if StoreBits(k) == 0 then 1 else if StoreBits(k) == 1 then 2 else 4
  {
  }

  lemma SaveExecutes(s: State, i: Instr, line: bool)
    requires Encodable(i) && i.Save?
    ensures i.imm12 < 0x1000
    ensures Encode(i) == RType(i.imm12 / 32, i.rs2, i.rs1, StoreBits(i.width), i.imm12 % 32, 0x23)
    ensures Execute(s, i, line) ==
            s.(pc := Word(s.pc + 4), mem := Store(s.mem, Word(s.regs[i.rs1] + Imm12(i.imm12)), Width(i.width), s.regs[i.rs2]))
  {
    hide RType, Imm12, Word, Store, StoreBits, Width;
  }

  lemma SaveEffect(s: State, i: Instr, line: bool)
    requires Encodable(i) && i.Save?
    ensures i.imm12 < 0x1000
    ensures Encode(i) == RType(i.imm12 / 32, i.rs2, i.rs1, StoreBits(i.width), i.imm12 % 32, 0x23)
    ensures var a := s.regs[i.rs1] + (i.imm12 - if i.imm12 >= 0x800 then 0x1000 else 0);
            && Stored(s.mem, a, Width(i.width), s.regs[i.rs2], Execute(s, i, line).mem)
            && Wrote(s, 0, 0, s.pc + 4, Execute(s, i, line).(mem := s.mem))
  {
    hide *;
    var a := s.regs[i.rs1] + (i.imm12 - if i.imm12 >= 0x800 then 0x1000 else 0);
    SaveExecutes(s, i, line);
    OffsetAddress(s.regs[i.rs1], i.imm12);
    WidthIs(i.width);
    StoredIs(s.mem, a, Width(i.width), s.regs[i.rs2]);
    WroteIs(s, 0, 0, s.pc + 4);
  }

  lemma SaveParts(imm: nat)
    requires imm < 0x1000
    ensures imm / 32 < 128 && imm % 32 < 32
  {
  }

  lemma MeansSave(s: State, i: Instr, line: bool)
    requires Encodable(i) && i.Save?
    ensures Encode(i) < 0x1_0000_0000 && Means(s, Encode(i), line, Execute(s, i, line))
  {
    hide *;
    var hi, lo := i.imm12 / 32, i.imm12 % 32;
    var w := RType(hi, i.rs2, i.rs1, StoreBits(i.width), lo, 0x23);
    SaveEffect(s, i, line);
    SaveParts(i.imm12);
    WidthIs(i.width);
    FieldsAre(hi, i.rs2, i.rs1, StoreBits(i.width), lo, 0x23);
    SaveImmediate(w, i.imm12);
    MeansOf(s, w, line, Execute(s, i, line), hi, i.rs2, i.rs1, StoreBits(i.width), lo, 0x23);
  }

  lemma ComputesSums(op: AluOp, a: u32, b: u32)
    requires op == Add || op == Sub || op == Slt || op == Sltu
    ensures Computed(Funct3(op), Funct7(op), a, b, Compute(op, a, b))
  {
  }

  lemma {:induction false} ShiftedBelow(a: nat, k: nat)
    ensures Arith.Shr(a, k) <= a
  {
    if k == 0 {
    } else {
      ShiftedBelow(a / 2, k - 1);
    }
  }

  lemma ComputesShifts(op: AluOp, a: u32, b: u32)
    requires op == Sll || op == Srl || op == Sra
    ensures Computed(Funct3(op), Funct7(op), a, b, Compute(op, a, b))
  {
    Arith.ShiftsAreProducts(a, b % 32);
    Alu.ShrIntIsFloor(Signed(a), b % 32);
    ShiftedBelow(a, b % 32);
    hide Arith.Pow2, Arith.Shl, Arith.Shr, Alu.ShrInt;
  }

  lemma ComputesBits(op: AluOp, a: u32, b: u32)
    requires op == Xor || op == Or || op == And
    ensures Computed(Funct3(op), Funct7(op), a, b, Compute(op, a, b))
  {
    forall k: nat
      ensures Arith.BitAt(XorWord(a, b), k) == (Arith.BitAt(a, k) != Arith.BitAt(b, k))
      ensures Arith.BitAt(OrWord(a, b), k) == (Arith.BitAt(a, k) || Arith.BitAt(b, k))
      ensures Arith.BitAt(AndWord(a, b), k) == (Arith.BitAt(a, k) && Arith.BitAt(b, k))
    {
      Arith.BitwiseBits(a, b, k);
    }
    hide Arith.BitAt, XorWord, OrWord, AndWord;
  }

  lemma ComputesProducts(op: AluOp, a: u32, b: u32)
    requires op == Mul || op == Mulh || op == Mulhsu || op == Mulhu
    ensures Computed(Funct3(op), Funct7(op), a, b, Compute(op, a, b))
  {
  }

  lemma ComputesQuotients(op: AluOp, a: u32, b: u32)
    requires op == Div || op == Divu || op == Rem || op == Remu
    ensures Computed(Funct3(op), Funct7(op), a, b, Compute(op, a, b))
  {
    if b != 0 {
      var x, y := Signed(a), Signed(b);
      Divider.QuotientAndRemainder(x, y);
      var q, r := Divider.Truncated(x, y), Divider.Remainder(x, y);
      hide Divider.Truncated, Divider.Remainder;
      assert Division(Two(a), Two(b), q, r);
    }
  }

  /** Every operation computes what the function codes of its encoding ask for. */
  lemma Computes(op: AluOp, a: u32, b: u32)
    ensures Computed(Funct3(op), Funct7(op), a, b, Compute(op, a, b))
  {
    hide *;
    match op {
      case Add => ComputesSums(op, a, b);
      case Sub => ComputesSums(op, a, b);
      case Slt => ComputesSums(op, a, b);
      case Sltu => ComputesSums(op, a, b);
      case Sll => ComputesShifts(op, a, b);
      case Srl => ComputesShifts(op, a, b);
      case Sra => ComputesShifts(op, a, b);
      case Xor => ComputesBits(op, a, b);
      case Or => ComputesBits(op, a, b);
      case And => ComputesBits(op, a, b);
      case Mul => ComputesProducts(op, a, b);
      case Mulh => ComputesProducts(op, a, b);
      case Mulhsu => ComputesProducts(op, a, b);
      case Mulhu => ComputesProducts(op, a, b);
      case Div => ComputesQuotients(op, a, b);
      case Divu => ComputesQuotients(op, a, b);
      case Rem => ComputesQuotients(op, a, b);
      case Remu => ComputesQuotients(op, a, b);
    }
  }

  lemma ResultIs(s: State, rd: Reg, s': State, f3: nat, f7: nat, a: u32, b: u32, v: u32)
    requires Computed(f3, f7, a, b, v) && Wrote(s, rd, v, s.pc + 4, s')
    ensures Result(s, rd, s', f3, f7, a, b)
  {
    hide Computed, Wrote;
  }

  lemma RegisterEffect(s: State, i: Instr, line: bool)
    requires i.OpReg?
    ensures Encode(i) == RType(Funct7(i.op), i.rs2, i.rs1, Funct3(i.op), i.rd, 0x33)
    ensures Wrote(s, i.rd, Compute(i.op, s.regs[i.rs1], s.regs[i.rs2]), s.pc + 4, Execute(s, i, line))
  {
    WroteIs(s, i.rd, Compute(i.op, s.regs[i.rs1], s.regs[i.rs2]), s.pc + 4);
    hide RType, Wrote, Compute, Funct3, Funct7;
  }

  lemma MeansOpReg(s: State, i: Instr, line: bool)
    requires Encodable(i) && i.OpReg?
    ensures Encode(i) < 0x1_0000_0000 && Means(s, Encode(i), line, Execute(s, i, line))
  {
    hide *;
    var w := RType(Funct7(i.op), i.rs2, i.rs1, Funct3(i.op), i.rd, 0x33);
    var a, b := s.regs[i.rs1], s.regs[i.rs2];
    RegisterEffect(s, i, line);
    FieldsAre(Funct7(i.op), i.rs2, i.rs1, Funct3(i.op), i.rd, 0x33);
    Computes(i.op, a, b);
    ResultIs(s, i.rd, Execute(s, i, line), Funct3(i.op), Funct7(i.op), a, b, Compute(i.op, a, b));
    MeansOf(s, w, line, Execute(s, i, line), Funct7(i.op), i.rs2, i.rs1, Funct3(i.op), i.rd, 0x33);
  }

  lemma ImmediateEffect(s: State, i: Instr, line: bool)
    requires Encodable(i) && i.OpImm?
    ensures var imm := i.imm12 + Funct7(i.op) * 32;
            && imm < 0x1000 && imm / 32 < 128 && Encode(i) == IType(imm, i.rs1, Funct3(i.op), i.rd, 0x13)
            && Wrote(s, i.rd, Compute(i.op, s.regs[i.rs1], Imm12(i.imm12)), s.pc + 4, Execute(s, i, line))
  {
    WroteIs(s, i.rd, Compute(i.op, s.regs[i.rs1], Imm12(i.imm12)), s.pc + 4);
    hide IType, Wrote, Compute;
  }

  lemma ShiftCount(op: AluOp, imm12: nat)
    requires (op == Sll || op == Srl || op == Sra) && imm12 < 32
    ensures Imm12(imm12) % 32 == imm12 && (imm12 + Funct7(op) * 32) % 0x1_0000_0000 % 32 == imm12
    ensures imm12 + Funct7(op) * 32 < 0x800 && (imm12 + Funct7(op) * 32) / 32 == Funct7(op)
    ensures Funct3(op) == 1 || Funct3(op) == 5
    ensures Funct7(op) == 0x20 || Funct7(op) == 0
    ensures Funct7(op) == 0x20 ==> Funct3(op) == 5
  {
  }

  /** A shift sees the lowest five bits of its count only. */
  lemma SameCount(f3: nat, f7: nat, a: u32, b: u32, c: u32, v: u32)
    requires (f3 == 1 && f7 == 0) || (f3 == 5 && (f7 == 0 || f7 == 0x20))
    requires Computed(f3, f7, a, b, v) && b % 32 == c % 32
    ensures Computed(f3, f7, a, c, v)
  {
    hide Two, Arith.Pow2;
  }

  /** The operations of OP-IMM see their immediate, and shifts its lowest five bits. */
  lemma ImmediateOperand(op: AluOp, imm12: nat, a: u32, v: u32)
    requires Encodable(OpImm(op, 0, 0, imm12)) && Computed(Funct3(op), Funct7(op), a, Imm12(imm12), v)
    ensures var imm := imm12 + Funct7(op) * 32; var f3 := Funct3(op);
            && (f3 == 1 || f3 == 5 ==> imm / 32 != 1)
            && Computed(f3, if f3 == 1 || f3 == 5 then imm / 32 else 0, a, (imm - if imm >= 0x800 then 0x1000 else 0) % 0x1_0000_0000, v)
  {
    if op == Sll || op == Srl || op == Sra {
      ShiftCount(op, imm12);
      hide *;
      SameCount(Funct3(op), Funct7(op), a, Imm12(imm12), (imm12 + Funct7(op) * 32) % 0x1_0000_0000, v);
    } else {
      Extends(imm12, 0x800);
      hide Computed, SignExtend;
    }
  }

  lemma EncodableOp(i: Instr)
    requires Encodable(i) && i.OpImm?
    ensures Encodable(OpImm(i.op, 0, 0, i.imm12))
  {
  }

  lemma MeansOpImm(s: State, i: Instr, line: bool)
    requires Encodable(i) && i.OpImm?
    ensures Encode(i) < 0x1_0000_0000 && Means(s, Encode(i), line, Execute(s, i, line))
  {
    hide *;
    ImmediateEffect(s, i, line);
    var imm, f3 := i.imm12 + Funct7(i.op) * 32, Funct3(i.op);
    var w := IType(imm, i.rs1, f3, i.rd, 0x13);
    var a := s.regs[i.rs1];
    var v := Compute(i.op, a, Imm12(i.imm12));
    ImmediateFields(imm, i.rs1, f3, i.rd, 0x13);
    Computes(i.op, a, Imm12(i.imm12));
    EncodableOp(i);
    ImmediateOperand(i.op, i.imm12, a, v);
    ResultIs(s, i.rd, Execute(s, i, line), f3, if f3 == 1 || f3 == 5 then imm / 32 else 0, a, ImmI(w) % 0x1_0000_0000, v);
    MeansOf(s, w, line, Execute(s, i, line), imm / 32, imm % 32, i.rs1, f3, i.rd, 0x13);
  }

  lemma MeansFence(s: State, i: Instr, line: bool)
    requires Encodable(i) && i.Fence?
    ensures Encode(i) < 0x1_0000_0000 && Means(s, Encode(i), line, Execute(s, i, line))
  {
    var w := Encode(i);
    assert w % 0x80 == 0x0F;
    WroteIs(s, 0, 0, s.pc + 4);
    MeansOfUpper(s, w, line, Execute(s, i, line), w / 0x80 % 32, 0x0F);
    hide Wrote, Means;
  }

  lemma SwapIs(s: State, csr: nat, rd: Reg, a: u32, line: bool)
    requires csr < 0x1000
    ensures Swapped(s, csr, rd, a, line, WriteStatus(s.(pc := Word(s.pc + 4)), csr, a).(regs := SetReg(s.regs, rd, ReadStatus(s, csr, line))))
  {
  }

  lemma SwapEffect(s: State, i: Instr, line: bool)
    requires Encodable(i) && i.Csrrw?
    ensures i.csr < 0x1000 && i.csr / 32 < 128 && Encode(i) == IType(i.csr, i.rs1, 1, i.rd, 0x73)
    ensures Swapped(s, i.csr, i.rd, s.regs[i.rs1], line, Execute(s, i, line))
  {
    SwapIs(s, i.csr, i.rd, s.regs[i.rs1], line);
    hide IType, Swapped, WriteStatus, ReadStatus, SetReg, Word;
  }

  lemma SystemSwap(s: State, w: u32, line: bool, s': State, csr: nat, rd: Reg, rs1: Reg)
    requires w / 0x1000 % 8 == 1 && w / 0x10_0000 == csr && w / 0x80 % 32 == rd && w / 0x8000 % 32 == rs1
    ensures SystemMeans(s, w, line, s') <==> Swapped(s, csr, rd, s.regs[rs1], line, s')
  {
    hide Swapped;
  }

  lemma MeansSwap(s: State, i: Instr, line: bool)
    requires Encodable(i) && i.Csrrw?
    ensures Encode(i) < 0x1_0000_0000 && Means(s, Encode(i), line, Execute(s, i, line))
  {
    hide *;
    SwapEffect(s, i, line);
    ImmediateFields(i.csr, i.rs1, 1, i.rd, 0x73);
    var w := IType(i.csr, i.rs1, 1, i.rd, 0x73);
    MeansOf(s, w, line, Execute(s, i, line), i.csr / 32, i.csr % 32, i.rs1, 1, i.rd, 0x73);
    SystemSwap(s, w, line, Execute(s, i, line), i.csr, i.rd, i.rs1);
  }

  lemma MeansTrap(s: State, i: Instr, line: bool)
    requires i.Ecall? || i.Ebreak? || i.Mret?
    ensures Encode(i) < 0x1_0000_0000 && Means(s, Encode(i), line, Execute(s, i, line))
  {
    var w := Encode(i);
    MeansOf(s, w, line, Execute(s, i, line), w / 0x200_0000, w / 0x10_0000 % 32, 0, 0, 0, 0x73);
    hide Means, Swapped;
  }

  /** The specification of the processor says of every instruction what its word means. */
  lemma ExecuteMeans(s: State, i: Instr, line: bool)
    requires Encodable(i)
    ensures Encode(i) < 0x1_0000_0000 && Means(s, Encode(i), line, Execute(s, i, line))
  {
    hide *;
    match i {
      case Lui(_, _) => MeansUpper(s, i, line);
      case Auipc(_, _) => MeansUpper(s, i, line);
      case Jal(_, _) => MeansJump(s, i, line);
      case Jalr(_, _, _) => MeansIndirect(s, i, line);
      case Branch(_, _, _, _) => MeansBranch(s, i, line);
      case Load(_, _, _, _) => MeansLoad(s, i, line);
      case Save(_, _, _, _) => MeansSave(s, i, line);
      case OpImm(_, _, _, _) => MeansOpImm(s, i, line);
      case OpReg(_, _, _, _) => MeansOpReg(s, i, line);
      case Fence(_) => MeansFence(s, i, line);
      case Ecall => MeansTrap(s, i, line);
      case Ebreak => MeansTrap(s, i, line);
      case Mret => MeansTrap(s, i, line);
      case Csrrw(_, _, _) => MeansSwap(s, i, line);
    }
  }

  lemma TwoExtended(v: nat, half: nat)
    requires v < 2 * half && half <= 0x10_0000
    ensures Two(SignExtend(v, half)) == v - if v >= half then 2 * half else 0
  {
  }

  lemma SignOf(w: u32)
    ensures w >= 0x8000_0000 <==> w / 0x200_0000 >= 64
    ensures w / 0x200_0000 < 128 && w / 0x200_0000 / 64 == if w >= 0x8000_0000 then 1 else 0
  {
  }

  lemma HardwareI(w: u32)
    ensures Two(SignExtend(w / 0x200_0000 * 32 + w / 0x10_0000 % 32, 0x800)) == ImmI(w)
  {
    Split(w);
    SignOf(w);
    TwoExtended(w / 0x10_0000, 0x800);
    hide Two, SignExtend;
  }

  lemma HardwareS(w: u32)
    ensures Two(SignExtend(w / 0x200_0000 * 32 + w / 0x80 % 32, 0x800)) == ImmS(w)
  {
    SignOf(w);
    TwoExtended(w / 0x200_0000 * 32 + w / 0x80 % 32, 0x800);
    hide Two, SignExtend;
  }

  lemma HardwareB(w: u32, f7: nat, rd: Reg)
    requires f7 == w / 0x200_0000 && rd == w / 0x80 % 32
    ensures Two(SignExtend(f7 / 64 * 0x1000 + rd % 2 * 0x800 + f7 % 64 * 32 + rd / 2 * 2, 0x1000)) == ImmB(w)
  {
    SignOf(w);
    CrossFields(w, f7, w / 0x10_0000 % 32, rd);
    BranchParse(w, f7, rd);
    TwoExtended(f7 / 64 * 0x1000 + rd % 2 * 0x800 + f7 % 64 * 32 + rd / 2 * 2, 0x1000);
    hide Two, SignExtend, ImmB;
  }

  lemma LowTen(f7: nat, q: nat)
    requires q < 16
    ensures (f7 * 16 + q) % 0x400 == f7 % 64 * 16 + q
  {
    Low10(f7 * 16 + q);
  }

  lemma HalfOfFields(a: nat, f7: nat, rs2: Reg)
    requires a == f7 * 32 + rs2
    ensures a % 2 == rs2 % 2 && a / 2 % 0x400 == f7 % 64 * 16 + rs2 / 2
  {
    assert a / 2 == f7 * 16 + rs2 / 2;
    LowTen(f7, rs2 / 2);
  }

  lemma EightBits(b: nat)
    ensures b % 0x100 == b / 8 % 32 * 8 + b % 8
  {
  }

  lemma NextDigits(w: nat)
    ensures w / 0x20_0000 == w / 0x10_0000 / 2 && w / 0x8000 == w / 0x1000 / 8 && w / 0x10_0000 == w / 0x1000 / 0x100
  {
  }

  lemma JumpDigits(w: u32, f7: nat, rs2: Reg)
    requires f7 == w / 0x200_0000 && rs2 == w / 0x10_0000 % 32
    ensures w / 0x10_0000 % 2 == rs2 % 2 && w / 0x20_0000 % 0x400 == f7 % 64 * 16 + rs2 / 2
    ensures w / 0x1000 % 0x100 == w / 0x8000 % 32 * 8 + w / 0x1000 % 8
  {
    Split(w);
    NextDigits(w);
    HalfOfFields(w / 0x10_0000, f7, rs2);
    EightBits(w / 0x1000);
  }

  lemma HardwareJ(w: u32, f7: nat, rs2: Reg)
    requires f7 == w / 0x200_0000 && rs2 == w / 0x10_0000 % 32
    ensures Two(SignExtend(f7 / 64 * 0x10_0000 + w / 0x8000 % 32 * 0x8000 + w / 0x1000 % 8 * 0x1000 + rs2 % 2 * 0x800
                           + f7 % 64 * 32 + rs2 / 2 * 2, 0x10_0000)) == ImmJ(w)
  {
    SignOf(w);
    JumpDigits(w, f7, rs2);
    TwoExtended(f7 / 64 * 0x10_0000 + w / 0x8000 % 32 * 0x8000 + w / 0x1000 % 8 * 0x1000 + rs2 % 2 * 0x800
                + f7 % 64 * 32 + rs2 / 2 * 2, 0x10_0000);
    hide Two, SignExtend;
  }

  lemma UpperDigits(w: u32)
    ensures w - w % 0x1000 == w / 0x1000 / 0x100 * 0x10_0000 + w / 0x1000 % 0x100 * 0x1000
  {
    var b := w / 0x1000;
    assert w == b * 0x1000 + w % 0x1000;
    assert b == b / 0x100 * 0x100 + b % 0x100;
  }

  lemma HardwareU(w: u32)
    ensures Word(w / 0x200_0000 * 0x200_0000 + w / 0x10_0000 % 32 * 0x10_0000 + w / 0x8000 % 32 * 0x8000 + w / 0x1000 % 8 * 0x1000)
            == ImmU(w)
  {
    Split(w);
    NextDigits(w);
    JumpDigits(w, w / 0x200_0000, w / 0x10_0000 % 32);
    UpperDigits(w);
  }

  lemma ImmediateOf(f: Fields)
    ensures var imm := Decode(f).imm;
            && (f.opcode == 0x08 ==> imm == SignExtend(f.funct7 * 32 + f.rd, 0x800))
            && (f.opcode == 0x18 ==>
                imm == SignExtend(f.funct7 / 64 * 0x1000 + f.rd % 2 * 0x800 + f.funct7 % 64 * 32 + f.rd / 2 * 2, 0x1000))
            && (f.opcode == 0x1B ==>
                imm == SignExtend(f.funct7 / 64 * 0x10_0000 + f.rs1 * 0x8000 + f.funct3 * 0x1000 + f.rs2 % 2 * 0x800
                                  + f.funct7 % 64 * 32 + f.rs2 / 2 * 2, 0x10_0000))
            && (f.opcode == 0x0D || f.opcode == 0x05 ==>
                imm == Word(f.funct7 * 0x200_0000 + f.rs2 * 0x10_0000 + f.rs1 * 0x8000 + f.funct3 * 0x1000))
            && (f.opcode != 0x08 && f.opcode != 0x18 && f.opcode != 0x1B && f.opcode != 0x0D && f.opcode != 0x05 ==>
                imm == SignExtend(f.funct7 * 32 + f.rs2, 0x800))
  {
    hide SignExtend, Word, RegOp, ImmOp, MaskOf, BusOpOf;
  }

  lemma FieldValues(w: u32)
    ensures var f := FieldsOf(w);
            && f.funct7 == w / 0x200_0000 && f.rs2 == w / 0x10_0000 % 32 && f.rs1 == w / 0x8000 % 32
            && f.funct3 == w / 0x1000 % 8 && f.rd == w / 0x80 % 32 && f.opcode == w / 4 % 32
  {
  }

  /** The immediates of the hardware, as numbers of the instruction word. */
  lemma Immediates(w: u32)
    ensures var imm := Decode(FieldsOf(w)).imm; var op := w / 4 % 32;
            && (op == 0x08 ==> Two(imm) == ImmS(w))
            && (op == 0x18 ==> Two(imm) == ImmB(w))
            && (op == 0x1B ==> Two(imm) == ImmJ(w))
            && (op == 0x0D || op == 0x05 ==> imm == ImmU(w))
            && (op != 0x08 && op != 0x18 && op != 0x1B && op != 0x0D && op != 0x05 ==> Two(imm) == ImmI(w))
  {
    hide *;
    FieldValues(w);
    ImmediateOf(FieldsOf(w));
    HardwareI(w);
    HardwareS(w);
    HardwareB(w, w / 0x200_0000, w / 0x80 % 32);
    HardwareJ(w, w / 0x200_0000, w / 0x10_0000 % 32);
    HardwareU(w);
  }

  /** Equal states, memories byte by byte. */
  ghost predicate Alike(s: State, t: State) {
    && s.pc == t.pc && s.regs == t.regs && s.epc == t.epc && s.evect == t.evect && s.cause == t.cause
    && s.meie == t.meie && s.meiePrev == t.meiePrev && forall x: u32 :: s.mem(x) == t.mem(x)
  }

  /** Numbers with the same bits are equal. */
  lemma {:induction false} BitsDetermine(x: nat, y: nat)
    requires forall k: nat :: Arith.BitAt(x, k) == Arith.BitAt(y, k)
    ensures x == y
    decreases x + y
  {
    Arith.BitUp(x, 0);
    Arith.BitUp(y, 0);
    assert Arith.BitAt(x, 0) == Arith.BitAt(y, 0);
    if x < 2 && y < 2 {
    } else {
      forall k: nat
        ensures Arith.BitAt(x / 2, k) == Arith.BitAt(y / 2, k)
      {
        Arith.BitUp(x, k);
        Arith.BitUp(y, k);
        assert Arith.BitAt(x, k + 1) == Arith.BitAt(y, k + 1);
      }
      hide Arith.BitAt;
      BitsDetermine(x / 2, y / 2);
    }
  }

  lemma Differences(y: int, q: int, q': int)
    ensures y * q - y * q' == y * (q - q') == (-y) * (q' - q)
  {
  }

  lemma DivisionUnique(x: int, y: int, q: int, r: int, q': int, r': int)
    requires Division(x, y, q, r) && Division(x, y, q', r') && y != 0
    ensures q == q' && r == r'
  {
    Differences(y, q, q');
    if y < 0 {
      Arith.MulSign(-y, q' - q);
    } else {
      Arith.MulSign(y, q - q');
    }
  }

  lemma DividedUnique(a: u32, b: u32, quotient: bool, v: u32, v': u32)
    requires Divided(a, b, quotient, v) && Divided(a, b, quotient, v')
    ensures v == v'
  {
    if b != 0 {
      var q, r :| Division(Two(a), Two(b), q, r) && v == (if quotient then q else r) % 0x1_0000_0000;
      var q', r' :| Division(Two(a), Two(b), q', r') && v' == (if quotient then q' else r') % 0x1_0000_0000;
      DivisionUnique(Two(a), Two(b), q, r, q', r');
    }
  }

  lemma ComputedUnique(f3: nat, f7: nat, a: u32, b: u32, v: u32, v': u32)
    requires f3 < 8 && Computed(f3, f7, a, b, v) && Computed(f3, f7, a, b, v')
    ensures v == v'
  {
    if f7 == 1 && (f3 == 4 || f3 == 6) {
      DividedUnique(a, b, f3 == 4, v, v');
    } else if f7 == 0 && (f3 == 4 || f3 == 6 || f3 == 7) {
      BitsDetermine(v, v');
    }
    hide Divided, Two, Arith.BitAt, Arith.Pow2;
  }

  lemma WroteUnique(s: State, rd: nat, v: int, pc: int, t: State, t': State)
    requires Wrote(s, rd, v, pc, t) && Wrote(s, rd, v, pc, t')
    ensures Alike(t, t')
  {
    forall r: nat | r < 32
      ensures t.regs[r] == t'.regs[r]
    {
    }
    assert t.regs == t'.regs;
  }

  lemma ResultUnique(s: State, rd: nat, t: State, t': State, f3: nat, f7: nat, a: u32, b: u32)
    requires f3 < 8 && Result(s, rd, t, f3, f7, a, b) && Result(s, rd, t', f3, f7, a, b)
    ensures Alike(t, t')
  {
    var v: u32 :| Computed(f3, f7, a, b, v) && Wrote(s, rd, v, s.pc + 4, t);
    var v': u32 :| Computed(f3, f7, a, b, v') && Wrote(s, rd, v', s.pc + 4, t');
    hide *;
    ComputedUnique(f3, f7, a, b, v, v');
    WroteUnique(s, rd, v, s.pc + 4, t, t');
  }

  lemma Within(x: u32, a: int, k: nat)
    requires (x - a) % 0x1_0000_0000 == k
    ensures x == (a + k) % 0x1_0000_0000
  {
  }

  lemma StoredUnique(m: Mem, a: int, n: nat, v: u32, t: Mem, t': Mem)
    requires (n == 1 || n == 2 || n == 4) && Stored(m, a, n, v, t) && Stored(m, a, n, v, t')
    ensures forall x: u32 :: t(x) == t'(x)
  {
    forall x: u32
      ensures t(x) == t'(x)
    {
      var k := (x - a) % 0x1_0000_0000;
      if k < n {
        Within(x, a, k);
      }
    }
  }

  lemma SwappedUnique(s: State, csr: nat, rd: nat, a: u32, line: bool, t: State, t': State)
    requires Swapped(s, csr, rd, a, line, t) && Swapped(s, csr, rd, a, line, t')
    ensures Alike(t, t')
  {
    forall r: nat | r < 32
      ensures t.regs[r] == t'.regs[r]
    {
    }
    assert t.regs == t'.regs;
    hide Status;
  }

  lemma SystemUnique(s: State, w: u32, line: bool, t: State, t': State)
    requires SystemMeans(s, w, line, t) && SystemMeans(s, w, line, t')
    ensures Alike(t, t')
  {
    if w / 0x1000 % 8 == 1 {
      SwappedUnique(s, w / 0x10_0000, w / 0x80 % 32, s.regs[w / 0x8000 % 32], line, t, t');
    }
    hide Swapped;
  }

  lemma MeansKnown(s: State, w: u32, line: bool, s': State)
    requires Means(s, w, line, s')
    ensures w % 0x80 in {0x37, 0x17, 0x6F, 0x67, 0x63, 0x03, 0x23, 0x13, 0x33, 0x0F, 0x73}
  {
    hide Wrote, Stored, Loads, Branches, ImmB, ImmI, ImmS, ImmJ, ImmU, Result, SystemMeans;
  }

  lemma AlikeParts(t: State, t': State, m: Mem)
    requires Alike(t.(mem := m), t'.(mem := m)) && forall x: u32 :: t.mem(x) == t'.mem(x)
    ensures Alike(t, t')
  {
  }

  /** A word has one meaning. */
  lemma MeansUnique(s: State, w: u32, line: bool, t: State, t': State)
    requires Means(s, w, line, t) && Means(s, w, line, t')
    ensures Alike(t, t')
  {
    hide *;
    var rd, f3, f7 := w / 0x80 % 32, w / 0x1000 % 8, w / 0x200_0000;
    var rs1, rs2, op := w / 0x8000 % 32, w / 0x10_0000 % 32, w % 0x80;
    MeansOf(s, w, line, t, f7, rs2, rs1, f3, rd, op);
    MeansOf(s, w, line, t', f7, rs2, rs1, f3, rd, op);
    MeansOfUpper(s, w, line, t, rd, op);
    MeansOfUpper(s, w, line, t', rd, op);
    MeansKnown(s, w, line, t);
    var a, b := s.regs[rs1], s.regs[rs2];
    if op == 0x37 {
      WroteUnique(s, rd, ImmU(w), s.pc + 4, t, t');
    } else if op == 0x17 {
      WroteUnique(s, rd, s.pc + ImmU(w), s.pc + 4, t, t');
    } else if op == 0x6F {
      WroteUnique(s, rd, s.pc + 4, s.pc + ImmJ(w), t, t');
    } else if op == 0x67 {
      WroteUnique(s, rd, s.pc + 4, (a + ImmI(w)) / 2 * 2, t, t');
    } else if op == 0x63 {
      WroteUnique(s, 0, 0, s.pc + if Branches(f3, a, b) then ImmB(w) else 4, t, t');
    } else if op == 0x03 {
      WroteUnique(s, rd, Loads(f3, s.mem, a + ImmI(w)), s.pc + 4, t, t');
    } else if op == 0x23 {
      StoredUnique(s.mem, a + ImmS(w), if f3 == 0 then 1 else if f3 == 1 then 2 else 4, b, t.mem, t'.mem);
      WroteUnique(s, 0, 0, s.pc + 4, t.(mem := s.mem), t'.(mem := s.mem));
      AlikeParts(t, t', s.mem);
    } else if op == 0x13 {
      ResultUnique(s, rd, t, t', f3, if f3 == 1 || f3 == 5 then f7 else 0, a, ImmI(w) % 0x1_0000_0000);
    } else if op == 0x33 {
      ResultUnique(s, rd, t, t', f3, f7, a, b);
    } else if op == 0x0F {
      WroteUnique(s, 0, 0, s.pc + 4, t, t');
    } else {
      SystemUnique(s, w, line, t, t');
    }
  }

  lemma RTypeIs(f7: nat, rs2: nat, rs1: nat, f3: nat, rd: nat, op: nat)
    ensures RType(f7, rs2, rs1, f3, rd, op) ==
            f7 * 0x200_0000 + rs2 * 0x10_0000 + rs1 * 0x8000 + f3 * 0x1000 + rd * 0x80 + op
  {
  }

  /** A word is put together from its fields. */
  lemma Assemble(w: u32)
    ensures w == RType(w / 0x200_0000, w / 0x10_0000 % 32, w / 0x8000 % 32, w / 0x1000 % 8, w / 0x80 % 32, w % 0x80)
    ensures w / 0x200_0000 < 128
  {
    Nested(w);
    hide *;
    var a, b, c, d := w / 0x80, w / 0x1000, w / 0x8000, w / 0x10_0000;
    assert a == b * 32 + a % 32 && b == c * 8 + b % 8 && c == d * 32 + c % 32;
    RTypeIs(w / 0x200_0000, d % 32, c % 32, b % 8, a % 32, w % 0x80);
  }

  lemma AssembleImmediate(w: u32)
    ensures w / 0x10_0000 < 0x1000
    ensures w == IType(w / 0x10_0000, w / 0x8000 % 32, w / 0x1000 % 8, w / 0x80 % 32, w % 0x80)
  {
    Assemble(w);
    Split(w);
  }

  lemma AssembleUpper(w: u32)
    ensures w / 0x1000 < 0x10_0000 && w == UType(w / 0x1000, w / 0x80 % 32, w % 0x80)
  {
    assert w / 0x80 / 32 == w / 0x1000;
  }

  lemma AssembleStore(w: u32)
    ensures var imm := w / 0x200_0000 * 32 + w / 0x80 % 32;
            imm < 0x1000 && w == SType(imm, w / 0x10_0000 % 32, w / 0x8000 % 32, w / 0x1000 % 8, w % 0x80)
  {
    Assemble(w);
    hide RType;
  }

  /** The offset field of a branch with these fields. */
  function HalfOf(f7: nat, rd: nat): nat {
    f7 / 64 * 2048 + rd % 2 * 1024 + f7 % 64 * 16 + rd / 2
  }

  lemma HalfParts(f7: nat, rd: Reg)
    requires f7 < 128
    ensures HalfOf(f7, rd) < 0x1000 && BranchHigh(HalfOf(f7, rd)) == f7 && BranchLow(HalfOf(f7, rd)) == rd
  {
    var h := HalfOf(f7, rd);
    var a, b := f7 / 64 * 2 + rd % 2, f7 % 64;
    assert h == a * 1024 + b * 16 + rd / 2 && rd / 2 < 16 && b < 64;
    assert h / 1024 == a && h / 2048 == f7 / 64;
    assert h / 16 == a * 64 + b;
    LowParts(a, b);
  }

  /** The offset field of JAL. */
  function JumpHalf(imm: nat): nat {
    imm / 0x8_0000 * 0x8_0000 + imm % 0x100 * 0x800 + imm / 0x100 % 2 * 0x400 + imm / 0x200 % 0x400
  }

  lemma JumpDigitsOf(imm: nat)
    requires imm < 0x10_0000
    ensures imm == imm / 0x8_0000 * 0x8_0000 + imm / 0x200 % 0x400 * 0x200 + imm / 0x100 % 2 * 0x100 + imm % 0x100
  {
    var x := imm / 0x100;
    assert imm == x * 0x100 + imm % 0x100 && x == x / 2 * 2 + x % 2 && x / 2 == imm / 0x200;
    assert imm / 0x200 == imm / 0x200 / 0x400 * 0x400 + imm / 0x200 % 0x400 && imm / 0x200 / 0x400 == imm / 0x8_0000;
  }

  lemma JumpHalfDigits(a: nat, b: nat, c: nat, d: nat)
    requires a < 2 && b < 0x100 && c < 2 && d < 0x400
    ensures var h := a * 0x8_0000 + b * 0x800 + c * 0x400 + d;
            && h < 0x10_0000 && h / 0x8_0000 == a && h % 0x400 == d && h / 0x400 % 2 == c && h / 0x800 % 0x100 == b
  {
    var h := a * 0x8_0000 + b * 0x800 + c * 0x400 + d;
    assert h / 0x400 == a * 0x200 + b * 2 + c;
    assert h / 0x800 == a * 0x100 + b;
  }

  lemma JumpHalfParts(imm: nat)
    requires imm < 0x10_0000
    ensures var h := JumpHalf(imm);
            && h < 0x10_0000
            && h / 0x8_0000 * 0x8_0000 + h % 0x400 * 0x200 + h / 0x400 % 2 * 0x100 + h / 0x800 % 0x100 == imm
  {
    JumpDigitsOf(imm);
    JumpHalfDigits(imm / 0x8_0000, imm % 0x100, imm / 0x100 % 2, imm / 0x200 % 0x400);
  }

  /** The operation with these function codes. */
  function OpOf(f3: nat, f7: nat): AluOp {
    if f7 == 1 then
      if f3 == 0 then Mul else if f3 == 1 then Mulh else if f3 == 2 then Mulhsu else if f3 == 3 then Mulhu
      else if f3 == 4 then Div else if f3 == 5 then Divu else if f3 == 6 then Rem else Remu
    else if f7 == 0x20 then if f3 == 0 then Sub else Sra
    else if f3 == 0 then Add else if f3 == 1 then Sll else if f3 == 2 then Slt else if f3 == 3 then Sltu
    else if f3 == 4 then Xor else if f3 == 5 then Srl else if f3 == 6 then Or else And
  }

  lemma OpOfIs(f3: nat, f7: nat, a: u32, b: u32, v: u32)
    requires f3 < 8 && Computed(f3, f7, a, b, v)
    ensures Funct3(OpOf(f3, f7)) == f3 && Funct7(OpOf(f3, f7)) == f7
    ensures f7 != 1 && (f7 == 0 || f3 == 5) ==> var op := OpOf(f3, f7); op != Sub && (f3 == 1 || f3 == 5 <==> op == Sll || op == Srl || op == Sra)
    ensures f7 == 0 || f7 == 1 || (f7 == 0x20 && (f3 == 0 || f3 == 5))
  {
    hide Two, Divided, Arith.BitAt, Arith.Pow2;
  }

  lemma EncodesUpper(w: u32) returns (i: Instr)
    requires w % 0x80 == 0x37 || w % 0x80 == 0x17 || w % 0x80 == 0x0F
    ensures Encodable(i) && Encode(i) == w
  {
    AssembleUpper(w);
    hide UType;
    if w % 0x80 == 0x37 {
      i := Lui(w / 0x80 % 32, w / 0x1000);
    } else if w % 0x80 == 0x17 {
      i := Auipc(w / 0x80 % 32, w / 0x1000);
    } else {
      i := Fence(w / 0x80);
    }
  }

  lemma EncodesJump(w: u32) returns (i: Instr)
    requires w % 0x80 == 0x6F
    ensures Encodable(i) && Encode(i) == w
  {
    AssembleUpper(w);
    JumpHalfParts(w / 0x1000);
    i := Jal(w / 0x80 % 32, JumpHalf(w / 0x1000));
    hide UType, JumpHalf;
  }

  lemma EncodesBranch(w: u32) returns (i: Instr)
    requires w % 0x80 == 0x63 && w / 0x1000 % 8 != 2 && w / 0x1000 % 8 != 3
    ensures Encodable(i) && Encode(i) == w
  {
    Assemble(w);
    var f7, rd, f3 := w / 0x200_0000, w / 0x80 % 32, w / 0x1000 % 8;
    HalfParts(f7, rd);
    var c := if f3 == 0 then Beq else if f3 == 1 then Bne else if f3 == 4 then Blt else if f3 == 5 then Bge
             else if f3 == 6 then Bltu else Bgeu;
    i := Branch(c, w / 0x8000 % 32, w / 0x10_0000 % 32, HalfOf(f7, rd));
    hide RType, HalfOf, BranchHigh, BranchLow;
  }

  lemma EncodesLoad(w: u32) returns (i: Instr)
    requires w % 0x80 == 0x03 && w / 0x1000 % 8 != 3 && w / 0x1000 % 8 < 6
    ensures Encodable(i) && Encode(i) == w
  {
    AssembleImmediate(w);
    var f3 := w / 0x1000 % 8;
    var k := if f3 == 0 then Lb else if f3 == 1 then Lh else if f3 == 2 then Lw else if f3 == 4 then Lbu else Lhu;
    i := Load(k, w / 0x80 % 32, w / 0x8000 % 32, w / 0x10_0000);
    hide IType;
  }

  lemma EncodesSave(w: u32) returns (i: Instr)
    requires w % 0x80 == 0x23 && w / 0x1000 % 8 < 3
    ensures Encodable(i) && Encode(i) == w
  {
    AssembleStore(w);
    var f3 := w / 0x1000 % 8;
    var k := if f3 == 0 then Sb else if f3 == 1 then Sh else Sw;
    i := Save(k, w / 0x8000 % 32, w / 0x10_0000 % 32, w / 0x200_0000 * 32 + w / 0x80 % 32);
    hide SType;
  }

  lemma ShiftFields(w: u32)
    ensures w / 0x10_0000 == w / 0x10_0000 % 32 + w / 0x200_0000 * 32
  {
    Split(w);
  }

  lemma ImmediateEncodes(op: AluOp, rd: Reg, rs1: Reg, imm: nat)
    requires Funct7(op) != 1 && op != Sub && imm < 0x1000 && (op == Sll || op == Srl || op == Sra ==> imm < 32)
    ensures Encodable(OpImm(op, rd, rs1, imm))
    ensures Encode(OpImm(op, rd, rs1, imm)) == IType(imm + Funct7(op) * 32, rs1, Funct3(op), rd, 0x13)
  {
    hide IType;
  }

  lemma EncodesOpImm(w: u32, a: u32, b: u32, v: u32) returns (i: Instr)
    requires w % 0x80 == 0x13
    requires var f3 := w / 0x1000 % 8; var f7 := w / 0x200_0000;
             && (f3 == 1 || f3 == 5 ==> f7 != 1)
             && Computed(f3, if f3 == 1 || f3 == 5 then f7 else 0, a, b, v)
    ensures Encodable(i) && Encode(i) == w
  {
    hide *;
    var f3, f7: nat := w / 0x1000 % 8, if w / 0x1000 % 8 == 1 || w / 0x1000 % 8 == 5 then w / 0x200_0000 else 0;
    AssembleImmediate(w);
    ShiftFields(w);
    OpOfIs(f3, f7, a, b, v);
    var op := OpOf(f3, f7);
    i := OpImm(op, w / 0x80 % 32, w / 0x8000 % 32, if f3 == 1 || f3 == 5 then w / 0x10_0000 % 32 else w / 0x10_0000);
    ImmediateEncodes(op, i.rd, i.rs1, i.imm12);
  }

  lemma EncodesOpReg(w: u32, a: u32, b: u32, v: u32) returns (i: Instr)
    requires w % 0x80 == 0x33 && Computed(w / 0x1000 % 8, w / 0x200_0000, a, b, v)
    ensures Encodable(i) && Encode(i) == w
  {
    Assemble(w);
    OpOfIs(w / 0x1000 % 8, w / 0x200_0000, a, b, v);
    i := OpReg(OpOf(w / 0x1000 % 8, w / 0x200_0000), w / 0x80 % 32, w / 0x8000 % 32, w / 0x10_0000 % 32);
    hide RType, OpOf, Computed, Funct3, Funct7;
  }

  lemma EncodesSystem(w: u32) returns (i: Instr)
    requires w % 0x80 == 0x73 && (w / 0x1000 % 8 == 1 || w == 0x0000_0073 || w == 0x0010_0073 || w == 0x3020_0073)
    ensures Encodable(i) && Encode(i) == w
  {
    AssembleImmediate(w);
    hide IType;
    if w == 0x0000_0073 {
      i := Ecall;
    } else if w == 0x0010_0073 {
      i := Ebreak;
    } else if w == 0x3020_0073 {
      i := Mret;
    } else {
      i := Csrrw(w / 0x80 % 32, w / 0x8000 % 32, w / 0x10_0000);
    }
  }

  lemma SystemWords(s: State, w: u32, line: bool, s': State)
    requires SystemMeans(s, w, line, s')
    ensures w / 0x1000 % 8 == 1 || w == 0x0000_0073 || w == 0x0010_0073 || w == 0x3020_0073
  {
    hide Swapped;
  }

  lemma JumpFunction(s: State, w: u32, line: bool, s': State)
    requires Means(s, w, line, s') && w % 0x80 == 0x67
    ensures w / 0x1000 % 8 == 0
  {
    hide Wrote, Stored, Loads, Branches, ImmB, ImmI, ImmS, ImmJ, ImmU, Result, SystemMeans;
  }

  lemma EncodesIndirect(w: u32) returns (i: Instr)
    requires w % 0x80 == 0x67 && w / 0x1000 % 8 == 0
    ensures Encodable(i) && Encode(i) == w
  {
    AssembleImmediate(w);
    i := Jalr(w / 0x80 % 32, w / 0x8000 % 32, w / 0x10_0000);
    hide IType;
  }

  lemma ResultValue(s: State, rd: nat, s': State, f3: nat, f7: nat, a: u32, b: u32) returns (v: u32)
    requires Result(s, rd, s', f3, f7, a, b)
    ensures Computed(f3, f7, a, b, v)
  {
    v :| Computed(f3, f7, a, b, v) && Wrote(s, rd, v, s.pc + 4, s');
  }

  /** A word that means something is the encoding of an instruction: the specification leaves none out. */
  lemma MeaningEncodes(s: State, w: u32, line: bool, s': State) returns (i: Instr)
    requires Means(s, w, line, s')
    ensures Encodable(i) && Encode(i) == w
  {
    hide *;
    var rd, f3, f7 := w / 0x80 % 32, w / 0x1000 % 8, w / 0x200_0000;
    var rs1, rs2, op := w / 0x8000 % 32, w / 0x10_0000 % 32, w % 0x80;
    MeansOf(s, w, line, s', f7, rs2, rs1, f3, rd, op);
    MeansKnown(s, w, line, s');
    if op == 0x37 || op == 0x17 || op == 0x0F {
      i := EncodesUpper(w);
    } else if op == 0x6F {
      i := EncodesJump(w);
    } else if op == 0x67 {
      JumpFunction(s, w, line, s');
      i := EncodesIndirect(w);
    } else if op == 0x63 {
      i := EncodesBranch(w);
    } else if op == 0x03 {
      i := EncodesLoad(w);
    } else if op == 0x23 {
      i := EncodesSave(w);
    } else if op == 0x13 {
      var b := ImmI(w) % 0x1_0000_0000;
      var v := ResultValue(s, rd, s', f3, if f3 == 1 || f3 == 5 then f7 else 0, s.regs[rs1], b);
      i := EncodesOpImm(w, s.regs[rs1], b, v);
    } else if op == 0x33 {
      var v := ResultValue(s, rd, s', f3, f7, s.regs[rs1], s.regs[rs2]);
      i := EncodesOpReg(w, s.regs[rs1], s.regs[rs2], v);
    } else {
      SystemWords(s, w, line, s');
      i := EncodesSystem(w);
    }
  }
}
