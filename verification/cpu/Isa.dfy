/** The instruction set the processor implements: RV32I and M of the RISC-V Unprivileged ISA,
    csrrw, ecall, ebreak and mret, and the traps of the repository's README. */
module Isa {
  import opened Words
  import opened Machine
  import Alu
  import Arith
  import Divider
  import Multiplier

  /** Operations on two words: those of OP and OP-IMM, and the M extension. */
  datatype AluOp = Add | Sub | Sll | Slt | Sltu | Xor | Srl | Sra | Or | And
                 | Mul | Mulh | Mulhsu | Mulhu | Div | Divu | Rem | Remu

  datatype Cond = Beq | Bne | Blt | Bge | Bltu | Bgeu

  datatype LoadKind = Lb | Lh | Lw | Lbu | Lhu

  datatype StoreKind = Sb | Sh | Sw

  /** Instructions. Offsets and immediates are the field values of the encoding: `imm12` for I and
      S, offsets divided by 2 for branches (12 bits) and JAL (20 bits), 20 bits for LUI and AUIPC. */
  datatype Instr =
    | Lui(rd: Reg, imm20: nat)
    | Auipc(rd: Reg, imm20: nat)
    | Jal(rd: Reg, half20: nat)
    | Jalr(rd: Reg, rs1: Reg, imm12: nat)
    | Branch(cond: Cond, rs1: Reg, rs2: Reg, half12: nat)
    | Load(kind: LoadKind, rd: Reg, rs1: Reg, imm12: nat)
    | Save(width: StoreKind, rs1: Reg, rs2: Reg, imm12: nat)
    | OpImm(op: AluOp, rd: Reg, rs1: Reg, imm12: nat)
    | OpReg(op: AluOp, rd: Reg, rs1: Reg, rs2: Reg)
    | Fence(bits: nat)
    | Ecall
    | Ebreak
    | Mret
    | Csrrw(rd: Reg, rs1: Reg, csr: nat)

  /** The operands fit their fields, and the operation has an immediate form. */
  predicate Encodable(i: Instr) {
    match i
    case Lui(_, imm) => imm < 0x10_0000
    case Auipc(_, imm) => imm < 0x10_0000
    case Jal(_, h) => h < 0x10_0000
    case Jalr(_, _, imm) => imm < 0x1000
    case Branch(_, _, _, h) => h < 0x1000
    case Load(_, _, _, imm) => imm < 0x1000
    case Save(_, _, _, imm) => imm < 0x1000
    case OpImm(op, _, _, imm) =>
      if op == Sll || op == Srl || op == Sra then imm < 32
      else imm < 0x1000 && (op == Add || op == Slt || op == Sltu || op == Xor || op == Or || op == And)
    case Fence(bits) => bits < 0x200_0000
    case Csrrw(_, _, csr) => csr < 0x1000
    case _ => true
  }

  function Funct3(op: AluOp): (r: nat)
    ensures r < 8
  {
    match op
    case Add => 0 case Sub => 0 case Sll => 1 case Slt => 2 case Sltu => 3 case Xor => 4
    case Srl => 5 case Sra => 5 case Or => 6 case And => 7
    case Mul => 0 case Mulh => 1 case Mulhsu => 2 case Mulhu => 3
    case Div => 4 case Divu => 5 case Rem => 6 case Remu => 7
  }

  function Funct7(op: AluOp): (r: nat)
    ensures r < 128
  {
    match op
    case Sub => 0x20
    case Sra => 0x20
    case Mul => 1 case Mulh => 1 case Mulhsu => 1 case Mulhu => 1
    case Div => 1 case Divu => 1 case Rem => 1 case Remu => 1
    case _ => 0
  }

  function CondBits(c: Cond): (r: nat)
    ensures r < 8
  {
    match c case Beq => 0 case Bne => 1 case Blt => 4 case Bge => 5 case Bltu => 6 case Bgeu => 7
  }

  function LoadBits(k: LoadKind): (r: nat)
    ensures r < 8
  {
    match k case Lb => 0 case Lh => 1 case Lw => 2 case Lbu => 4 case Lhu => 5
  }

  function StoreBits(k: StoreKind): (r: nat)
    ensures r < 8
  {
    match k case Sb => 0 case Sh => 1 case Sw => 2
  }

  /** The formats of sections 2.2 and 2.3: R, I, S, B, U and J, as sums of shifted fields. */
  function RType(f7: nat, rs2: nat, rs1: nat, f3: nat, rd: nat, opcode: nat): nat {
    f7 * 0x200_0000 + rs2 * 0x10_0000 + rs1 * 0x8000 + f3 * 0x1000 + rd * 0x80 + opcode
  }

  function IType(imm: nat, rs1: nat, f3: nat, rd: nat, opcode: nat): nat {
    imm * 0x10_0000 + rs1 * 0x8000 + f3 * 0x1000 + rd * 0x80 + opcode
  }

  function SType(imm: nat, rs2: nat, rs1: nat, f3: nat, opcode: nat): nat {
    RType(imm / 32, rs2, rs1, f3, imm % 32, opcode)
  }

  /** The bits of a branch offset `2 * h`: bit 12 and bits 10 to 5 above, bits 4 to 1 and bit 11
      below the registers. */
  function BranchHigh(h: nat): nat {
    h / 2048 * 64 + h / 16 % 64
  }

  function BranchLow(h: nat): nat {
    h % 16 * 2 + h / 1024 % 2
  }

  function BType(h: nat, rs2: nat, rs1: nat, f3: nat, opcode: nat): nat {
    RType(BranchHigh(h), rs2, rs1, f3, BranchLow(h), opcode)
  }

  function UType(imm: nat, rd: nat, opcode: nat): nat {
    imm * 0x1000 + rd * 0x80 + opcode
  }

  /** The offset is `2 * h`: bit 20, bits 10 to 1, bit 11 and bits 19 to 12. */
  function JType(h: nat, rd: nat, opcode: nat): nat {
    UType(h / 0x8_0000 * 0x8_0000 + h % 0x400 * 0x200 + h / 0x400 % 2 * 0x100 + h / 0x800 % 0x100, rd, opcode)
  }

  /** The encoding of an instruction. */
  function Encode(i: Instr): nat {
    match i
    case Lui(rd, imm) => UType(imm, rd, 0x37)
    case Auipc(rd, imm) => UType(imm, rd, 0x17)
    case Jal(rd, h) => JType(h, rd, 0x6F)
    case Jalr(rd, rs1, imm) => IType(imm, rs1, 0, rd, 0x67)
    case Branch(c, rs1, rs2, h) => BType(h, rs2, rs1, CondBits(c), 0x63)
    case Load(k, rd, rs1, imm) => IType(imm, rs1, LoadBits(k), rd, 0x03)
    case Save(k, rs1, rs2, imm) => SType(imm, rs2, rs1, StoreBits(k), 0x23)
    case OpImm(op, rd, rs1, imm) => IType(imm + Funct7(op) * 32, rs1, Funct3(op), rd, 0x13)
    case OpReg(op, rd, rs1, rs2) => RType(Funct7(op), rs2, rs1, Funct3(op), rd, 0x33)
    case Fence(bits) => bits * 0x80 + 0x0F
    case Ecall => 0x0000_0073
    case Ebreak => 0x0010_0073
    case Mret => 0x3020_0073
    case Csrrw(rd, rs1, csr) => IType(csr, rs1, 1, rd, 0x73)
  }

  function Bool(b: bool): u32 {
    if b then 1 else 0
  }

  /** Sections 2.4 and 7 of the ISA. */
  function Compute(op: AluOp, a: u32, b: u32): u32 {
    match op
    case Add => Word(a + b)
    case Sub => Word(a - b)
    case Sll => Word(Arith.Shl(a, b % 32))
    case Slt => Bool(Signed(a) < Signed(b))
    case Sltu => Bool(a < b)
    case Xor => XorWord(a, b)
    case Srl => Word(Arith.Shr(a, b % 32))
    case Sra => Word(Alu.ShrInt(Signed(a), b % 32))
    case Or => OrWord(a, b)
    case And => AndWord(a, b)
    case Mul => Multiplier.MultiplySpec(a, b, false, false, false)
    case Mulh => Multiplier.MultiplySpec(a, b, true, true, true)
    case Mulhsu => Multiplier.MultiplySpec(a, b, true, true, false)
    case Mulhu => Multiplier.MultiplySpec(a, b, true, false, false)
    case Div => Divider.DivideSpec(a, b, true, true)
    case Divu => Divider.DivideSpec(a, b, true, false)
    case Rem => Divider.DivideSpec(a, b, false, true)
    case Remu => Divider.DivideSpec(a, b, false, false)
  }

  predicate Taken(c: Cond, a: u32, b: u32) {
    match c
    case Beq => a == b
    case Bne => a != b
    case Blt => Signed(a) < Signed(b)
    case Bge => Signed(a) >= Signed(b)
    case Bltu => a < b
    case Bgeu => a >= b
  }

  /** The word that reads the same signed as the lowest bits `v`, of which `half` is the top one. */
  function SignExtend(v: nat, half: nat): u32 {
    Word(if v >= half then v - 2 * half else v)
  }

  function LoadValue(k: LoadKind, m: Mem, a: u32): u32 {
    match k
    case Lb => SignExtend(Load8(m, a), 0x80)
    case Lh => SignExtend(Load16(m, a), 0x8000)
    case Lw => Load32(m, a)
    case Lbu => Load8(m, a)
    case Lhu => Load16(m, a)
  }

  function Width(k: StoreKind): nat {
    match k case Sb => 1 case Sh => 2 case Sw => 4
  }

  function Imm12(imm: nat): u32 {
    SignExtend(imm, 0x800)
  }

  function BranchOffset(h: nat): u32 {
    SignExtend(2 * h, 0x1000)
  }

  function JumpOffset(h: nat): u32 {
    SignExtend(2 * h, 0x10_0000)
  }

  const CAUSE_INTERRUPT: nat := 0x1B
  const CAUSE_BREAK: nat := 3
  const CAUSE_ECALL: nat := 0xB

  /** The state of the machine between instructions. */
  datatype State = State(
    pc: u32,
    regs: Regs,
    mem: Mem,
    epc: u32,
    evect: u32,
    cause: nat,       // bit 4: interrupt, bits 3 to 0: code
    meie: bool,
    meiePrev: bool)

  /** What both interrupts and exceptions do. */
  function Trap(s: State, cause: nat): State {
    s.(cause := cause, meiePrev := s.meie, meie := false, epc := s.pc, pc := s.evect)
  }

  /** The status registers. `line` is the level of the interrupt line. */
  function ReadStatus(s: State, csr: nat, line: bool): u32 {
    if csr % 4 == 0 then 4 * Bool(line) + 2 * Bool(s.meiePrev) + Bool(s.meie)
    else if csr % 4 == 1 then s.cause / 16 % 2 * 0x8000_0000 + s.cause % 16
    else if csr % 4 == 2 then s.epc
    else s.evect
  }

  /** Status registers with bit 11 of their number set are read-only. */
  function WriteStatus(s: State, csr: nat, v: u32): State {
    if csr / 0x800 % 2 == 1 then s
    else if csr % 4 == 0 then s.(meie := v % 2 == 1, meiePrev := v / 2 % 2 == 1)
    else if csr % 4 == 1 then s.(cause := v / 0x8000_0000 * 16 + v % 16)
    else if csr % 4 == 2 then s.(epc := Align(v))
    else s.(evect := Align(v))
  }

  /** The effect of one instruction. */
  function Execute(s: State, i: Instr, line: bool): State {
    var next := s.(pc := Word(s.pc + 4));
    match i
    case Lui(rd, imm) => next.(regs := SetReg(s.regs, rd, Word(imm * 0x1000)))
    case Auipc(rd, imm) => next.(regs := SetReg(s.regs, rd, Word(s.pc + imm * 0x1000)))
    case Jal(rd, h) => s.(pc := Word(s.pc + JumpOffset(h)), regs := SetReg(s.regs, rd, Word(s.pc + 4)))
    case Jalr(rd, rs1, imm) =>
      var t := Word(s.regs[rs1] + Imm12(imm));
      s.(pc := t - t % 2, regs := SetReg(s.regs, rd, Word(s.pc + 4)))
    case Branch(c, rs1, rs2, h) =>
      if Taken(c, s.regs[rs1], s.regs[rs2]) then s.(pc := Word(s.pc + BranchOffset(h))) else next
    case Load(k, rd, rs1, imm) =>
      next.(regs := SetReg(s.regs, rd, LoadValue(k, s.mem, Word(s.regs[rs1] + Imm12(imm)))))
    case Save(k, rs1, rs2, imm) =>
      next.(mem := Store(s.mem, Word(s.regs[rs1] + Imm12(imm)), Width(k), s.regs[rs2]))
    case OpImm(op, rd, rs1, imm) => next.(regs := SetReg(s.regs, rd, Compute(op, s.regs[rs1], Imm12(imm))))
    case OpReg(op, rd, rs1, rs2) => next.(regs := SetReg(s.regs, rd, Compute(op, s.regs[rs1], s.regs[rs2])))
    case Fence(_) => next
    case Ecall => Trap(s, CAUSE_ECALL)
    case Ebreak => Trap(s, CAUSE_BREAK)
    case Mret => s.(meie := s.meiePrev, pc := s.epc, cause := 0)
    case Csrrw(rd, rs1, csr) =>
      WriteStatus(next, csr, s.regs[rs1]).(regs := SetReg(s.regs, rd, ReadStatus(s, csr, line)))
  }

  /** An external interrupt taken instead of the instruction at the program counter. */
  function Interrupt(s: State): State {
    Trap(s, CAUSE_INTERRUPT)
  }

  /** A jump to an address that is no multiple of 4 is not supported by the processor. */
  predicate Aligned(s: State) {
    s.pc % 4 == 0
  }
}
