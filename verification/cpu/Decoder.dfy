/** The instruction decoder (cpu/decoder.v). */
module Decoder {
  import opened Words
  import opened Machine
  import opened Isa

  /** Operations of the ALU. */
  datatype HwOp = OpAdd | OpSub | OpAnd | OpOr | OpXor | OpSlt | OpSltu | OpSll | OpSrl | OpSra
                | OpMul | OpMulh | OpDiv | OpRem

  /** Operations of the bus unit. */
  datatype BusOp = ReadB | ReadBU | ReadH | ReadHU | ReadW | WriteB | WriteH | WriteW

  /** What a register write takes its data from. */
  datatype Source = FromAlu | FromBus | FromBru | FromMsr

  /** The branch mask: which comparison outcomes take the branch. */
  datatype Mask = Mask(eq: bool, ne: bool, lt: bool, ge: bool, ltu: bool, geu: bool)

  /** The registered outputs. */
  datatype Decoded = Decoded(
    imm: u32,
    opcode: nat,
    writeback: bool,
    funct3: nat,
    mask: Mask,
    op: HwOp,
    signed1: bool,
    signed2: bool,
    rd: Reg,
    busop: BusOp,
    pcFirst: bool,      // first ALU operand is the program counter
    immSecond: bool,    // second ALU operand is the immediate
    source: Source)

  const OP: nat := 0x0C
  const JALR: nat := 0x19
  const LOAD: nat := 0x00
  const OPIMM: nat := 0x04
  const SYSTEM: nat := 0x1C
  const MISCMEM: nat := 0x03
  const STORE: nat := 0x08
  const BRANCH: nat := 0x18
  const LUI: nat := 0x0D
  const AUIPC: nat := 0x05
  const JAL: nat := 0x1B

  /** The fields of an instruction word. */
  datatype Fields = Fields(funct7: nat, rs2: Reg, rs1: Reg, funct3: nat, rd: Reg, opcode: nat)

  function FieldsOf(w: u32): Fields {
    Fields(w / 0x200_0000, w / 0x10_0000 % 32, w / 0x8000 % 32, w / 0x1000 % 8, w / 0x80 % 32, w / 4 % 32)
  }

  /** Source registers are decoded without a clock. LUI reads x0. */
  function Rs1Of(f: Fields): Reg {
    if f.opcode == LUI then 0 else f.rs1
  }

  function ImmOf(f: Fields): u32 {
    if f.opcode == STORE then SignExtend(f.funct7 * 32 + f.rd, 0x800)
    else if f.opcode == BRANCH then
      SignExtend(f.funct7 / 64 * 0x1000 + f.rd % 2 * 0x800 + f.funct7 % 64 * 32 + f.rd / 2 * 2, 0x1000)
    else if f.opcode == LUI || f.opcode == AUIPC then
      Word(f.funct7 * 0x200_0000 + f.rs2 * 0x10_0000 + f.rs1 * 0x8000 + f.funct3 * 0x1000)
    else if f.opcode == JAL then
      SignExtend(f.funct7 / 64 * 0x10_0000 + f.rs1 * 0x8000 + f.funct3 * 0x1000 + f.rs2 % 2 * 0x800
                 + f.funct7 % 64 * 32 + f.rs2 / 2 * 2, 0x10_0000)
    else SignExtend(f.funct7 * 32 + f.rs2, 0x800)
  }

  function MaskOf(f: Fields): Mask {
    var b := f.opcode == BRANCH;
    Mask(b && f.funct3 == 0, b && f.funct3 == 1, b && f.funct3 == 4, b && f.funct3 == 5, b && f.funct3 == 6, b && f.funct3 == 7)
  }

  /** Operation and operand signedness of an OP instruction. */
  function RegOp(funct3: nat, funct7: nat): (HwOp, bool, bool) {
    if funct7 % 2 == 0 then
      (if funct3 == 0 then (if funct7 / 32 % 2 == 1 then OpSub else OpAdd)
       else if funct3 == 1 then OpSll
       else if funct3 == 2 then OpSlt
       else if funct3 == 3 then OpSltu
       else if funct3 == 4 then OpXor
       else if funct3 == 5 then (if funct7 / 32 % 2 == 1 then OpSra else OpSrl)
       else if funct3 == 6 then OpOr
       else OpAnd, false, false)
    else if funct3 == 0 then (OpMul, false, false)
    else if funct3 == 1 then (OpMulh, true, true)
    else if funct3 == 2 then (OpMulh, true, false)
    else if funct3 == 3 then (OpMulh, false, false)
    else if funct3 == 4 then (OpDiv, true, true)
    else if funct3 == 5 then (OpDiv, false, false)
    else if funct3 == 6 then (OpRem, true, true)
    else (OpRem, false, false)
  }

  function ImmOp(funct3: nat, funct7: nat): HwOp {
    if funct3 == 0 then OpAdd
    else if funct3 == 1 then OpSll
    else if funct3 == 2 then OpSlt
    else if funct3 == 3 then OpSltu
    else if funct3 == 4 then OpXor
    else if funct3 == 5 then (if funct7 / 32 % 2 == 1 then OpSra else OpSrl)
    else if funct3 == 6 then OpOr
    else OpAnd
  }

  function BusOpOf(opcode: nat, funct3: nat): BusOp {
    if opcode == LOAD then
      if funct3 == 0 then ReadB else if funct3 == 1 then ReadH else if funct3 == 2 then ReadW
      else if funct3 == 4 then ReadBU else ReadHU
    else
      if funct3 == 0 then WriteB else if funct3 == 1 then WriteH else WriteW
  }

  /** The outputs registered for an instruction. */
  function Decode(f: Fields): Decoded {
    var op := f.opcode;
    Decoded(
      ImmOf(f),
      op,
      op == OP || op == OPIMM || op == LUI || op == AUIPC || op == LOAD || op == JAL || op == JALR,
      f.funct3,
      MaskOf(f),
      if op == OP then RegOp(f.funct3, f.funct7).0 else if op == OPIMM then ImmOp(f.funct3, f.funct7) else OpAdd,
      RegOp(f.funct3, f.funct7).1,
      RegOp(f.funct3, f.funct7).2,
      f.rd,
      BusOpOf(op, f.funct3),
      op == JAL || op == AUIPC,
      !(op == OP || op == BRANCH),
      if op == LOAD then FromBus
      else if op == JAL || op == JALR then FromBru
      else if op == SYSTEM then FromMsr
      else FromAlu)
  }

  lemma Low7(a: nat, b: nat)
    requires b < 128
    ensures (a * 128 + b) / 128 == a && (a * 128 + b) / 4 % 32 == b / 4
  {
  }

  lemma Low5(a: nat, b: nat)
    requires b < 32
    ensures (a * 32 + b) / 32 == a && (a * 32 + b) % 32 == b
  {
  }

  lemma Low3(a: nat, b: nat)
    requires b < 8
    ensures (a * 8 + b) / 8 == a && (a * 8 + b) % 8 == b
  {
  }

  lemma Nested(w: nat)
    ensures w / 0x80 / 32 == w / 0x1000 && w / 0x1000 / 8 == w / 0x8000
    ensures w / 0x8000 / 32 == w / 0x10_0000 && w / 0x10_0000 / 32 == w / 0x200_0000
  {
  }

  /** The fields of the formats. */
  lemma RFields(f7: nat, rs2: Reg, rs1: Reg, f3: nat, rd: Reg, op: nat)
    requires f7 < 128 && f3 < 8 && op < 128
    ensures RType(f7, rs2, rs1, f3, rd, op) < WORD
    ensures FieldsOf(RType(f7, rs2, rs1, f3, rd, op)) == Fields(f7, rs2, rs1, f3, rd, op / 4)
  {
    var w := RType(f7, rs2, rs1, f3, rd, op);
    var a := f7 * 32 + rs2;
    var b := a * 32 + rs1;
    var c := b * 8 + f3;
    var d := c * 32 + rd;
    assert w == d * 128 + op;
    Low7(d, op);
    Low5(c, rd);
    Low3(b, f3);
    Low5(a, rs1);
    Low5(f7, rs2);
    Nested(w);
  }

  lemma IFields(imm: nat, rs1: Reg, f3: nat, rd: Reg, op: nat)
    requires imm < 0x1000 && f3 < 8 && op < 128
    ensures IType(imm, rs1, f3, rd, op) < WORD && imm / 32 < 128 && imm / 32 * 32 + imm % 32 == imm
    ensures FieldsOf(IType(imm, rs1, f3, rd, op)) == Fields(imm / 32, imm % 32, rs1, f3, rd, op / 4)
  {
    assert IType(imm, rs1, f3, rd, op) == RType(imm / 32, imm % 32, rs1, f3, rd, op);
    RFields(imm / 32, imm % 32, rs1, f3, rd, op);
  }

  lemma UFields(imm: nat, rd: Reg, op: nat)
    requires imm < 0x10_0000 && op < 128
    ensures UType(imm, rd, op) < WORD
    ensures FieldsOf(UType(imm, rd, op)) == Fields(imm / 0x2000, imm / 0x100 % 32, imm / 8 % 32, imm % 8, rd, op / 4)
    ensures imm / 0x2000 * 0x2000 + imm / 0x100 % 32 * 0x100 + imm / 8 % 32 * 8 + imm % 8 == imm
  {
    var a, b := imm / 0x100, imm / 8;
    assert imm == b * 8 + imm % 8 && b == b / 32 * 32 + b % 32 && b / 32 == a && a / 32 == imm / 0x2000;
    RFields(imm / 0x2000, imm / 0x100 % 32, imm / 8 % 32, imm % 8, rd, op);
    assert UType(imm, rd, op) == RType(imm / 0x2000, imm / 0x100 % 32, imm / 8 % 32, imm % 8, rd, op);
  }

  lemma DecodeUpper(rd: Reg, imm: nat, op: nat)
    requires imm < 0x10_0000 && (op == 0x37 || op == 0x17)
    ensures UType(imm, rd, op) < WORD
    ensures var f := FieldsOf(UType(imm, rd, op)); var d := Decode(f);
            && (op == 0x37 ==> Rs1Of(f) == 0) && d.opcode == op / 4 && d.imm == Word(imm * 0x1000) && d.rd == rd && d.writeback
            && d.op == OpAdd && d.pcFirst == (op == 0x17) && d.immSecond && d.source == FromAlu
  {
    UFields(imm, rd, op);
    hide UType, FieldsOf, RegOp, ImmOp, MaskOf, BusOpOf, SignExtend;
  }

  /** The jump offset scattered over the J format comes together again. */
  lemma JumpBits(h: nat)
    requires h < 0x10_0000
    ensures var imm := h / 0x8_0000 * 0x8_0000 + h % 0x400 * 0x200 + h / 0x400 % 2 * 0x100 + h / 0x800 % 0x100;
            && imm < 0x10_0000 && imm % 0x100 == h / 0x800 % 0x100 && imm / 0x100 % 2 == h / 0x400 % 2
            && imm / 0x200 % 0x400 == h % 0x400 && imm / 0x8_0000 == h / 0x8_0000
  {
    var a, b, c := h / 0x8_0000, h % 0x400, h / 0x400 % 2;
    var imm := a * 0x8_0000 + b * 0x200 + c * 0x100 + h / 0x800 % 0x100;
    assert imm / 0x100 == a * 0x800 + b * 2 + c;
    assert imm / 0x200 == a * 0x400 + b;
    assert imm / 0x8_0000 == a;
  }

  lemma JumpSum(h: nat)
    requires h < 0x10_0000
    ensures h / 0x8_0000 * 0x10_0000 + h / 0x800 % 0x100 * 0x1000 + h / 0x400 % 2 * 0x800 + h % 0x400 * 2 == 2 * h
  {
    assert h == h / 0x800 * 0x800 + h / 0x400 % 2 * 0x400 + h % 0x400;
    assert h / 0x800 == h / 0x8_0000 * 0x100 + h / 0x800 % 0x100;
  }

  lemma HalfDigits(a: nat)
    ensures a % 32 / 2 == a / 2 % 16 && a / 32 == a / 2 / 16 && a % 32 % 2 == a % 2
  {
  }

  lemma Low10(b: nat)
    ensures b % 0x400 == b / 16 % 64 * 16 + b % 16
  {
  }

  lemma HalfFields(a: nat)
    ensures a / 32 % 64 * 32 + a % 32 / 2 * 2 == a / 2 % 0x400 * 2 && a % 32 % 2 == a % 2
  {
    HalfDigits(a);
    Low10(a / 2);
  }

  lemma LowFields(imm: nat)
    ensures imm / 8 % 32 * 0x8000 + imm % 8 * 0x1000 == imm % 0x100 * 0x1000
  {
    assert imm % 0x100 == imm / 8 % 32 * 8 + imm % 8;
  }

  lemma SplitJump(imm: nat)
    ensures imm / 0x2000 == imm / 0x100 / 32 && imm / 0x200 == imm / 0x100 / 2 && imm / 0x2000 / 64 == imm / 0x8_0000
  {
  }

  /** The same bits as the fields the decoder sees. */
  lemma JumpFields(h: nat, imm: nat)
    requires h < 0x10_0000
    requires imm == h / 0x8_0000 * 0x8_0000 + h % 0x400 * 0x200 + h / 0x400 % 2 * 0x100 + h / 0x800 % 0x100
    ensures var f7, rs2 := imm / 0x2000, imm / 0x100 % 32;
            f7 / 64 * 0x10_0000 + imm / 8 % 32 * 0x8000 + imm % 8 * 0x1000 + rs2 % 2 * 0x800 + f7 % 64 * 32 + rs2 / 2 * 2 == 2 * h
  {
    JumpBits(h);
    JumpSum(h);
    SplitJump(imm);
    HalfFields(imm / 0x100);
    LowFields(imm);
  }

  lemma JalOutputs(f: Fields)
    requires f.opcode == JAL
    ensures var d := Decode(f);
            && d.opcode == JAL && d.rd == f.rd && d.writeback && d.op == OpAdd && d.pcFirst && d.immSecond && d.source == FromBru
            && d.imm == SignExtend(f.funct7 / 64 * 0x10_0000 + f.rs1 * 0x8000 + f.funct3 * 0x1000 + f.rs2 % 2 * 0x800
                                   + f.funct7 % 64 * 32 + f.rs2 / 2 * 2, 0x10_0000)
  {
  }

  lemma DecodeJal(rd: Reg, h: nat)
    requires h < 0x10_0000
    ensures JType(h, rd, 0x6F) < WORD
    ensures var d := Decode(FieldsOf(JType(h, rd, 0x6F)));
            && d.opcode == JAL && d.imm == JumpOffset(h) && d.rd == rd && d.writeback
            && d.op == OpAdd && d.pcFirst && d.immSecond && d.source == FromBru
  {
    var imm := h / 0x8_0000 * 0x8_0000 + h % 0x400 * 0x200 + h / 0x400 % 2 * 0x100 + h / 0x800 % 0x100;
    assert JType(h, rd, 0x6F) == UType(imm, rd, 0x6F);
    assert JumpOffset(h) == SignExtend(2 * h, 0x10_0000);
    hide *;
    JumpBits(h);
    UFields(imm, rd, 0x6F);
    JumpFields(h, imm);
    JalOutputs(FieldsOf(UType(imm, rd, 0x6F)));
  }

  /** What the decoder makes of an I-type instruction of one of the opcodes. */
  lemma DecodeI(imm: nat, rs1: Reg, f3: nat, rd: Reg, op: nat)
    requires imm < 0x1000 && f3 < 8 && (op == 0x67 || op == 0x03 || op == 0x13 || op == 0x73)
    ensures IType(imm, rs1, f3, rd, op) < WORD
    ensures var f := FieldsOf(IType(imm, rs1, f3, rd, op)); var d := Decode(f);
            && Rs1Of(f) == rs1 && d.opcode == op / 4 && d.imm == Imm12(imm) && d.rd == rd && d.funct3 == f3
            && d.immSecond && !d.pcFirst
            && d.op == (if op == 0x13 then ImmOp(f3, imm / 32) else OpAdd)
            && d.writeback == (op != 0x73)
            && d.source == (if op == 0x03 then FromBus else if op == 0x67 then FromBru else if op == 0x73 then FromMsr else FromAlu)
            && d.busop == BusOpOf(op / 4, f3)
  {
    IFields(imm, rs1, f3, rd, op);
    hide IType, FieldsOf, RegOp, ImmOp, MaskOf, BusOpOf, SignExtend;
  }

  /** ALU operation, and signedness of its operands, that an ISA operation needs. */
  function HwOf(op: AluOp): (HwOp, bool, bool) {
    match op
    case Add => (OpAdd, false, false)
    case Sub => (OpSub, false, false)
    case Sll => (OpSll, false, false)
    case Slt => (OpSlt, false, false)
    case Sltu => (OpSltu, false, false)
    case Xor => (OpXor, false, false)
    case Srl => (OpSrl, false, false)
    case Sra => (OpSra, false, false)
    case Or => (OpOr, false, false)
    case And => (OpAnd, false, false)
    case Mul => (OpMul, false, false)
    case Mulh => (OpMulh, true, true)
    case Mulhsu => (OpMulh, true, false)
    case Mulhu => (OpMulh, false, false)
    case Div => (OpDiv, true, true)
    case Divu => (OpDiv, false, false)
    case Rem => (OpRem, true, true)
    case Remu => (OpRem, false, false)
  }

  /** The operations that run on the multiplier or divider. */
  predicate Slow(op: HwOp) {
    op == OpMul || op == OpMulh || op == OpDiv || op == OpRem
  }

  lemma OpOfFields(op: AluOp, imm: nat)
    ensures RegOp(Funct3(op), Funct7(op)) == HwOf(op)
    ensures Encodable(OpImm(op, 0, 0, imm)) ==>
      && imm + Funct7(op) * 32 < 0x1000 && !Slow(HwOf(op).0)
      && ImmOp(Funct3(op), (imm + Funct7(op) * 32) / 32) == HwOf(op).0
  {
  }

  lemma DecodeOpImm(op: AluOp, rd: Reg, rs1: Reg, imm: nat)
    requires Encodable(OpImm(op, rd, rs1, imm))
    ensures Encode(OpImm(op, rd, rs1, imm)) < WORD
    ensures var f := FieldsOf(Encode(OpImm(op, rd, rs1, imm))); var d := Decode(f);
            && Rs1Of(f) == rs1 && d.opcode == OPIMM && d.imm == Imm12(imm + Funct7(op) * 32) && d.rd == rd && d.writeback
            && d.op == HwOf(op).0 && !Slow(d.op) && d.immSecond && !d.pcFirst && d.source == FromAlu
  {
    OpOfFields(op, imm);
    hide IType, FieldsOf, Decode, Rs1Of, SignExtend, Funct3, Funct7, ImmOp, HwOf, Slow;
    DecodeI(imm + Funct7(op) * 32, rs1, Funct3(op), rd, 0x13);
  }

  lemma DecodeOpReg(op: AluOp, rd: Reg, rs1: Reg, rs2: Reg)
    ensures Encode(OpReg(op, rd, rs1, rs2)) < WORD
    ensures var f := FieldsOf(Encode(OpReg(op, rd, rs1, rs2))); var d := Decode(f);
            && Rs1Of(f) == rs1 && f.rs2 == rs2 && d.opcode == OP && d.rd == rd && d.writeback
            && (d.op, d.signed1, d.signed2) == HwOf(op)
            && !d.immSecond && !d.pcFirst && d.source == FromAlu
  {
    OpOfFields(op, 0);
    RFields(Funct7(op), rs2, rs1, Funct3(op), rd, 0x33);
    hide RType, FieldsOf, ImmOp, RegOp, MaskOf, BusOpOf, ImmOf, Funct3, Funct7, HwOf;
  }

  lemma HighParts(h: nat)
    ensures h / 16 == h / 1024 * 64 + h / 16 % 64 && h / 1024 == h / 2048 * 2 + h / 1024 % 2 && h == h / 16 * 16 + h % 16
  {
  }

  lemma LowParts(a: nat, b: nat)
    requires b < 64
    ensures (a * 64 + b) / 64 == a && (a * 64 + b) % 64 == b
  {
  }

  lemma BranchBits(h: nat)
    requires h < 0x1000
    ensures var (f7, rd) := (BranchHigh(h), BranchLow(h));
            && f7 < 128 && rd < 32
            && f7 / 64 * 0x1000 + rd % 2 * 0x800 + f7 % 64 * 32 + rd / 2 * 2 == 2 * h
  {
    HighParts(h);
    LowParts(h / 2048, h / 16 % 64);
  }

  lemma CondMask(c: Cond, f: Fields)
    requires f.opcode == BRANCH && f.funct3 == CondBits(c)
    ensures var d := Decode(f);
            && Rs1Of(f) == f.rs1 && d.opcode == BRANCH && !d.writeback && d.op == OpAdd && !d.immSecond && !d.pcFirst
            && d.mask == Mask(c == Beq, c == Bne, c == Blt, c == Bge, c == Bltu, c == Bgeu)
            && d.imm == SignExtend(f.funct7 / 64 * 0x1000 + f.rd % 2 * 0x800 + f.funct7 % 64 * 32 + f.rd / 2 * 2, 0x1000)
  {
  }

  lemma BranchIs(c: Cond, rs1: Reg, rs2: Reg, h: nat)
    ensures Encode(Branch(c, rs1, rs2, h)) == RType(BranchHigh(h), rs2, rs1, CondBits(c), BranchLow(h), 0x63)
    ensures BranchOffset(h) == SignExtend(2 * h, 0x1000)
  {
    hide BranchHigh, BranchLow, RType;
  }

  lemma DecodeBranch(c: Cond, rs1: Reg, rs2: Reg, h: nat)
    requires h < 0x1000
    ensures Encode(Branch(c, rs1, rs2, h)) < WORD
    ensures var f := FieldsOf(Encode(Branch(c, rs1, rs2, h))); var d := Decode(f);
            && Rs1Of(f) == rs1 && f.rs2 == rs2 && d.opcode == BRANCH && d.imm == BranchOffset(h) && !d.writeback
            && d.op == OpAdd && !d.immSecond && !d.pcFirst
            && d.mask == Mask(c == Beq, c == Bne, c == Blt, c == Bge, c == Bltu, c == Bgeu)
  {
    hide Encode, BType, RType, BranchHigh, BranchLow, CondBits, FieldsOf, Decode, Rs1Of, SignExtend, BranchOffset;
    BranchBits(h);
    BranchIs(c, rs1, rs2, h);
    RFields(BranchHigh(h), rs2, rs1, CondBits(c), BranchLow(h), 0x63);
    CondMask(c, FieldsOf(RType(BranchHigh(h), rs2, rs1, CondBits(c), BranchLow(h), 0x63)));
  }

  lemma DecodeLoad(k: LoadKind, rd: Reg, rs1: Reg, imm: nat)
    requires imm < 0x1000
    ensures Encode(Load(k, rd, rs1, imm)) < WORD
    ensures var f := FieldsOf(Encode(Load(k, rd, rs1, imm))); var d := Decode(f);
            && Rs1Of(f) == rs1 && d.opcode == LOAD && d.imm == Imm12(imm) && d.rd == rd && d.writeback
            && d.op == OpAdd && d.immSecond && !d.pcFirst && d.source == FromBus
            && d.busop == match k case Lb => ReadB case Lh => ReadH case Lw => ReadW case Lbu => ReadBU case Lhu => ReadHU
  {
    DecodeI(imm, rs1, LoadBits(k), rd, 0x03);
    hide IType, FieldsOf, Decode, Rs1Of, SignExtend;
  }

  lemma SaveOp(k: StoreKind)
    ensures BusOpOf(STORE, StoreBits(k)) == match k case Sb => WriteB case Sh => WriteH case Sw => WriteW
  {
  }

  lemma DecodeSave(k: StoreKind, rs1: Reg, rs2: Reg, imm: nat)
    requires imm < 0x1000
    ensures Encode(Save(k, rs1, rs2, imm)) < WORD
    ensures var f := FieldsOf(Encode(Save(k, rs1, rs2, imm))); var d := Decode(f);
            && Rs1Of(f) == rs1 && f.rs2 == rs2 && d.opcode == STORE && d.imm == Imm12(imm) && !d.writeback
            && d.op == OpAdd && d.immSecond && !d.pcFirst
            && d.busop == match k case Sb => WriteB case Sh => WriteH case Sw => WriteW
  {
    SaveOp(k);
    RFields(imm / 32, rs2, rs1, StoreBits(k), imm % 32, 0x23);
    assert imm / 32 * 32 + imm % 32 == imm;
    hide RType, FieldsOf, ImmOp, RegOp, MaskOf, SignExtend, StoreBits, BusOpOf;
  }

  lemma DecodeFence(bits: nat)
    requires bits < 0x200_0000
    ensures bits * 0x80 + 0x0F < WORD
    ensures var d := Decode(FieldsOf(bits * 0x80 + 0x0F));
            d.opcode == MISCMEM && !d.writeback && d.op == OpAdd
  {
    Low7(bits, 0x0F);
    hide ImmOp, RegOp, MaskOf, SignExtend, ImmOf, BusOpOf;
  }

  /** ECALL, EBREAK and MRET are I-type words with immediates 0, 1 and 0x302. */
  lemma DecodeSystem(imm: nat)
    requires imm < 0x1000
    ensures imm * 0x10_0000 + 0x73 < WORD
    ensures var d := Decode(FieldsOf(imm * 0x10_0000 + 0x73));
            d.opcode == SYSTEM && !d.writeback && d.funct3 == 0 && d.imm == Imm12(imm) && d.op == OpAdd
  {
    DecodeI(imm, 0, 0, 0, 0x73);
    hide Decode, Rs1Of, FieldsOf, SignExtend;
  }

  lemma DecodeCsrrw(rd: Reg, rs1: Reg, csr: nat)
    requires csr < 0x1000
    ensures Encode(Csrrw(rd, rs1, csr)) < WORD
    ensures var f := FieldsOf(Encode(Csrrw(rd, rs1, csr))); var d := Decode(f);
            && Rs1Of(f) == rs1 && d.opcode == SYSTEM && !d.writeback && d.rd == rd && d.imm == Imm12(csr) && d.funct3 == 1
            && d.op == OpAdd && d.source == FromMsr
  {
    DecodeI(csr, rs1, 1, rd, 0x73);
    hide Decode, Rs1Of, FieldsOf, SignExtend;
  }
}
