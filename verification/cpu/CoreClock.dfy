/** The processor core clock by clock (cpu/cpu.v with cpu/alu.v, cpu/bus.v, cpu/branch.v and
    cpu/registers.v): the control registers change on the falling edge, all others on the rising. */
module CoreClock {
  import opened Words
  import opened Machine
  import opened Decoder
  import Isa
  import Alu
  import Divider
  import Multiplier

  const VECTOR_RESET: u32 := 0
  const VECTOR_EXCEPTION: u32 := 16

  datatype Stage = Reset | Fetch | Decoding | Exec | Trap1 | System | Csr

  /** The enable lines of the units, set for one clock each. */
  datatype Enables = Enables(alu: bool, bru: bool, branch: bool, bus: bool, dec: bool, read: bool, write: bool)

  const OFF := Enables(false, false, false, false, false, false, false)

  /** Registers changed on the falling edge. Addresses of instructions are multiples of 4. */
  datatype Ctl = Ctl(
    pc: u32, pcnext: u32, epc: u32, evect: u32,
    fromAlu: bool, fromBru: bool, writeback: bool,
    meie: bool, meiePrev: bool, mcause: nat,
    en: Enables, busOp: BusOp, addrPc: bool,
    prevstate: Stage, nextstate: Stage)

  /** Registers changed on the rising edge. */
  datatype Data = Data(
    pcAlu: u32,
    result: u32,                  // of the ALU
    mul: Multiplier.MulRegs,
    div: Divider.Regs,
    lastOp: BusOp,                // the bus operation whose data is arriving
    dec: Decoded,
    regfile: Regs,
    val1: u32, val2: u32,         // the registers read
    nextpc: u32)                  // of the branch unit

  datatype Core = Core(ctl: Ctl, data: Data)

  /** What is on the other side of the bus: memory, the wait line and the data lines. */
  datatype Bus = Bus(mem: Mem, waiting: bool, rdata: u32)

  /** What the surroundings choose in a clock: the interrupt line, whether a pending access ends,
      and data lines that carry no meaning. */
  datatype Stimulus = Stimulus(line: bool, done: bool, junk: u32)

  predicate Busy(d: Data, b: Bus) {
    b.waiting || d.mul.busy || d.div.state != 0
  }

  function StageOf(c: Core, b: Bus): Stage {
    if Busy(c.data, b) then c.ctl.prevstate else c.ctl.nextstate
  }

  /** The address the next fetch goes to. */
  function NewPc(c: Core): u32 {
    if c.ctl.fromBru then Align(c.data.nextpc)
    else if c.ctl.fromAlu then Align(c.data.result)
    else c.ctl.pcnext
  }

  const CAUSE_INVALID: nat := 2

  /** The stage for SYSTEM instructions. */
  function InSystem(k: Ctl, d: Decoded): Ctl {
    if d.funct3 == 0 then
      var f := d.imm % 0x1000;
      if f == 0 then k.(nextstate := Trap1, mcause := Isa.CAUSE_ECALL)
      else if f == 1 then k.(nextstate := Trap1, mcause := Isa.CAUSE_BREAK)
      else if f == 0x302 then k.(nextstate := Fetch, meie := k.meiePrev, pcnext := k.epc, mcause := 0)
      else k.(nextstate := Trap1, mcause := CAUSE_INVALID)
    else if d.funct3 == 1 then k.(nextstate := Csr, en := OFF.(write := true))
    else k.(nextstate := Trap1, mcause := CAUSE_INVALID)
  }

  /** The write to the status register `sel`, unless the number used for it is read-only. */
  function StatusWrite(k: Ctl, sel: nat, readOnly: bool, v: u32): Ctl {
    if readOnly then k
    else if sel == 0 then k.(meie := v % 2 == 1, meiePrev := v / 2 % 2 == 1)
    else if sel == 1 then k.(mcause := v / 0x8000_0000 * 16 + v % 16)
    else if sel == 2 then k.(epc := Align(v))
    else k.(evect := Align(v))
  }

  function InCsr(k: Ctl, d: Decoded, v: u32): Ctl {
    StatusWrite(k, d.imm % 4, d.imm / 0x800 % 2 == 1, v).(nextstate := Fetch)
  }

  /** The cases of the execution stage. */
  datatype Kind = Plain | Memory | Jump | Conditional | Special | Unknown

  function KindOf(opcode: nat): Kind {
    if opcode == OP || opcode == OPIMM || opcode == LUI || opcode == AUIPC || opcode == MISCMEM then Plain
    else if opcode == LOAD || opcode == STORE then Memory
    else if opcode == JAL || opcode == JALR then Jump
    else if opcode == BRANCH then Conditional
    else if opcode == SYSTEM then Special
    else Unknown
  }

  function InExec(k: Ctl, d: Decoded, nextpc: u32): Ctl {
    var n := k.(pcnext := Align(nextpc), en := OFF.(alu := true), writeback := d.writeback, nextstate := Fetch);
    match KindOf(d.opcode)
    case Plain => n
    case Memory => n.(en := OFF.(alu := true, bus := true), addrPc := false, busOp := d.busop)
    case Jump => n.(fromAlu := true)
    case Conditional => n.(en := OFF.(alu := true, bru := true, branch := true), fromBru := true)
    case Special => n.(nextstate := System)
    case Unknown => n.(nextstate := Trap1)
  }

  /** One falling edge. */
  function Falling(c: Core, b: Bus, line: bool): Ctl {
    var k := c.ctl.(en := OFF, prevstate := StageOf(c, b));
    match StageOf(c, b)
    case Reset =>
      k.(pcnext := VECTOR_RESET, evect := VECTOR_EXCEPTION, meie := false, nextstate := Fetch,
         fromAlu := false, fromBru := false, writeback := false)
    case Fetch =>
      k.(en := OFF.(write := k.writeback, bus := true), writeback := false, pc := NewPc(c), busOp := ReadW, addrPc := true,
         nextstate := Decoding)
    case Decoding =>
      var n := k.(fromAlu := false, fromBru := false, en := OFF.(dec := true, read := true, bru := true));
      if k.meie && line then n.(mcause := Isa.CAUSE_INTERRUPT, nextstate := Trap1) else n.(nextstate := Exec)
    case Exec => InExec(k, c.data.dec, c.data.nextpc)
    case Trap1 => k.(meiePrev := k.meie, meie := false, epc := k.pc, pcnext := k.evect, nextstate := Fetch)
    case System => InSystem(k, c.data.dec)
    case Csr => InCsr(k, c.data.dec, c.data.val1)
  }

  function First(d: Data): u32 {
    if d.dec.pcFirst then d.pcAlu else d.val1
  }

  function Second(d: Data): u32 {
    if d.dec.immSecond then d.dec.imm else d.val2
  }

  function Sum(d: Data): u32 {
    Word(First(d) + Second(d))
  }

  /** The branch decision of cpu/branch.v. */
  predicate Branching(m: Mask, a: u32, b: u32) {
    || (m.eq && a == b) || (m.ne && a != b)
    || (m.lt && Alu.Less(a, b)) || (m.ge && !Alu.Less(a, b))
    || (m.ltu && Alu.LessUnsigned(a, b)) || (m.geu && !Alu.LessUnsigned(a, b))
  }

  /** Incoming data extended as the last bus operation asks (cpu/bus.v). */
  function Extended(op: BusOp, r: u32): u32 {
    match op
    case ReadB => Isa.SignExtend(r % 0x100, 0x80)
    case ReadBU => r % 0x100
    case ReadH => Isa.SignExtend(r % 0x1_0000, 0x8000)
    case ReadHU => r % 0x1_0000
    case _ => r
  }

  function BusData(d: Data, b: Bus): u32 {
    Extended(d.lastOp, b.rdata)
  }

  function StatusData(k: Ctl, d: Decoded, line: bool): u32 {
    if d.imm % 4 == 0 then 4 * Isa.Bool(line) + 2 * Isa.Bool(k.meiePrev) + Isa.Bool(k.meie)
    else if d.imm % 4 == 1 then k.mcause / 16 % 2 * 0x8000_0000 + k.mcause % 16
    else if d.imm % 4 == 2 then k.epc
    else k.evect
  }

  /** What would be written to the register file. */
  function RegInput(k: Ctl, d: Data, b: Bus, line: bool): u32 {
    match d.dec.source
    case FromAlu => d.result
    case FromBus => BusData(d, b)
    case FromBru => d.nextpc
    case FromMsr => StatusData(k, d.dec, line)
  }

  function Shifted(op: HwOp, a: u32, shift: nat): u32 {
    Word(Alu.Value(Alu.Shifter(Alu.Bits(a, 32), shift, op == OpSll, op == OpSra)))
  }

  /** The product, from the iterative unit or at once. */
  function Product(dsp: bool, d: Data): Multiplier.u64 {
    if dsp then Multiplier.DspResult(First(d), Second(d), d.dec.signed1, d.dec.signed2) else d.mul.accumulator
  }

  /** The value the ALU's result register takes. */
  function AluOut(dsp: bool, d: Data): u32 {
    var a, b := First(d), Second(d);
    match d.dec.op
    case OpAdd => Sum(d)
    case OpSub => Alu.Difference(a, b) % WORD
    case OpAnd => AndWord(a, b)
    case OpOr => OrWord(a, b)
    case OpXor => XorWord(a, b)
    case OpSlt => Isa.Bool(Alu.Less(a, b))
    case OpSltu => Isa.Bool(Alu.LessUnsigned(a, b))
    case OpSll => Shifted(OpSll, a, b % 32)
    case OpSrl => Shifted(OpSrl, a, b % 32)
    case OpSra => Shifted(OpSra, a, b % 32)
    case OpMul => Multiplier.LowWord(Product(dsp, d))
    case OpMulh => Multiplier.HighWord(Product(dsp, d))
    case OpDiv => d.div.result
    case OpRem => d.div.result
  }

  function MulIn(k: Ctl, d: Data): Multiplier.MulInput {
    var p := if k.en.alu && d.dec.op == OpMul then Multiplier.Low
             else if k.en.alu && d.dec.op == OpMulh then Multiplier.High else Multiplier.Other;
    Multiplier.MulInput(p, d.dec.signed1, d.dec.signed2, First(d), Second(d), false)
  }

  function DivIn(k: Ctl, d: Data): Divider.Input {
    Divider.Input(k.en.alu && (d.dec.op == OpDiv || d.dec.op == OpRem), First(d), Second(d),
                  d.dec.op == OpDiv, d.dec.signed1 || d.dec.signed2, false)
  }

  /** One rising edge, after the falling edge set the controls. */
  function Rising(dsp: bool, k: Ctl, d: Data, b: Bus, line: bool): Data {
    var f := FieldsOf(BusData(d, b));
    Data(
      k.pc,
      if k.en.alu then AluOut(dsp, d) else d.result,
      if dsp then d.mul else Multiplier.MulNext(d.mul, MulIn(k, d)),
      Divider.Next(d.div, DivIn(k, d)),
      if k.en.bus then k.busOp else d.lastOp,
      if k.en.dec then Decode(f) else d.dec,
      if k.en.write then SetReg(d.regfile, d.dec.rd, RegInput(k, d, b, line)) else d.regfile,
      if k.en.read then d.regfile[Rs1Of(f)] else d.val1,
      if k.en.read then d.regfile[f.rs2] else d.val2,
      if k.en.bru then
        Word(k.pc + if k.en.branch && Branching(d.dec.mask, First(d), Second(d)) then d.dec.imm else 4)
      else d.nextpc)
  }

  /** The bus address. */
  function Address(k: Ctl, d: Data): u32 {
    if k.addrPc then k.pc else Sum(d)
  }

  function WriteWidth(op: BusOp): nat {
    match op
    case WriteB => 1
    case WriteH => 2
    case WriteW => 4
    case _ => 0
  }

  /** The data lines after a read: the bytes asked for, below bits without meaning. */
  function ReadData(op: BusOp, m: Mem, a: u32, junk: u32): u32 {
    match op
    case ReadB => junk - junk % 0x100 + Load8(m, a)
    case ReadBU => junk - junk % 0x100 + Load8(m, a)
    case ReadH => junk - junk % 0x1_0000 + Load16(m, a)
    case ReadHU => junk - junk % 0x1_0000 + Load16(m, a)
    case ReadW => Load32(m, a)
    case _ => junk
  }

  /** The surroundings at a rising edge. An access under way ends when they choose; data lines
      are steady while there is none. */
  function BusNext(b: Bus, strobe: bool, op: BusOp, a: u32, v: u32, s: Stimulus): Bus {
    if !strobe then b.(waiting := false)
    else if !s.done then b.(waiting := true, rdata := s.junk)
    else Bus(if WriteWidth(op) == 0 then b.mem else Store(b.mem, a, WriteWidth(op), v), false, ReadData(op, b.mem, a, s.junk))
  }

  /** A whole clock: the falling edge, then the rising edge of core and surroundings. */
  function Cycle(dsp: bool, c: Core, b: Bus, s: Stimulus): (Core, Bus) {
    var k := Falling(c, b, s.line);
    (Core(k, Rising(dsp, k, c.data, b, s.line)),
     BusNext(b, k.en.bus, k.busOp, Address(k, c.data), c.data.val2, s))
  }
}
