/** The core refines the instruction set: clock by clock its state stands for a state of the ISA,
    which changes exactly when an instruction or an interrupt is completed. */
module CoreProof {
  import opened Words
  import opened Machine
  import opened Decoder
  import opened CoreClock
  import opened Isa
  import Arith
  import Alu
  import Divider
  import Multiplier

  predicate Idle(d: Data) {
    !d.mul.busy && d.div.state == 0
  }

  /** Memory, trap registers and the alignment the core relies on. */
  ghost predicate Common(c: Core, b: Bus, s: State) {
    && b.mem == s.mem && c.ctl.epc == s.epc && c.ctl.evect == s.evect
    && c.ctl.meie == s.meie && c.ctl.meiePrev == s.meiePrev
    && s.regs[0] == 0 && s.pc % 4 == 0 && s.epc % 4 == 0 && s.evect % 4 == 0
  }

  /** The registers once a write that is still to come is done. */
  function Committed(c: Core, b: Bus): Regs {
    if c.ctl.writeback then SetReg(c.data.regfile, c.data.dec.rd, RegInput(c.ctl, c.data, b, false)) else c.data.regfile
  }

  /** Between two instructions: the next falling edge fetches. */
  ghost predicate Ready(c: Core, b: Bus, s: State) {
    && Common(c, b, s) && c.ctl.mcause == s.cause
    && !b.waiting && Idle(c.data) && c.ctl.nextstate == Fetch
    && NewPc(c) == s.pc && Committed(c, b) == s.regs && (c.ctl.writeback ==> c.data.dec.source != FromMsr)
  }

  /** The fetch waits for the bus. */
  ghost predicate Fetching(c: Core, b: Bus, s: State) {
    && Common(c, b, s) && c.ctl.mcause == s.cause
    && b.waiting && Idle(c.data) && c.ctl.prevstate == Fetch && c.ctl.nextstate == Decoding
    && NewPc(c) == s.pc && c.data.regfile == s.regs && !c.ctl.writeback
  }

  /** The instruction has arrived. */
  ghost predicate Fetched(c: Core, b: Bus, s: State) {
    && Common(c, b, s) && c.ctl.mcause == s.cause
    && !b.waiting && Idle(c.data) && c.ctl.nextstate == Decoding
    && c.ctl.pc == s.pc && c.data.pcAlu == s.pc && c.data.regfile == s.regs && !c.ctl.writeback
    && BusData(c.data, b) == Load32(s.mem, s.pc)
  }

  /** The instruction is decoded, its registers are read, and nothing has changed yet. */
  ghost predicate Holding(c: Core, b: Bus, s: State) {
    var f := FieldsOf(Load32(s.mem, s.pc));
    && Common(c, b, s) && c.ctl.mcause == s.cause
    && c.ctl.pc == s.pc && c.data.pcAlu == s.pc && c.data.regfile == s.regs
    && c.data.dec == Decode(f) && c.data.val1 == s.regs[Rs1Of(f)] && c.data.val2 == s.regs[f.rs2]
    && c.data.nextpc == Word(s.pc + 4) && !c.ctl.fromAlu && !c.ctl.fromBru
  }

  ghost predicate Decoded(c: Core, b: Bus, s: State) {
    Holding(c, b, s) && !b.waiting && Idle(c.data) && c.ctl.nextstate == Exec
  }

  /** A load or store waits for the bus. */
  ghost predicate Accessing(c: Core, b: Bus, s: State) {
    && Holding(c, b, s) && b.waiting && Idle(c.data) && c.ctl.prevstate == Exec && c.ctl.nextstate == Fetch
    && KindOf(c.data.dec.opcode) == Memory
  }

  lemma FetchStart(dsp: bool, c: Core, b: Bus, s: State, t: Stimulus)
    requires Ready(c, b, s) || Fetching(c, b, s)
    ensures var (c', b') := Cycle(dsp, c, b, t);
            if t.done then Fetched(c', b', s) else Fetching(c', b', s)
    ensures Falling(c, b, t.line).en.bus
  {
    hide Isa.SignExtend, Decode, FieldsOf, Load32, Load16, Load8, SetReg, Align, AluOut, Store, Branching, Word;
  }

  lemma DecodeStage(dsp: bool, c: Core, b: Bus, s: State, t: Stimulus)
    requires Fetched(c, b, s) && !(s.meie && t.line)
    ensures var (c', b') := Cycle(dsp, c, b, t); Decoded(c', b', s)
  {
    hide Isa.SignExtend, Decode, FieldsOf, Load32, Load16, Load8, SetReg, Align, AluOut, Store, Branching, Word;
  }

  /** The word at the program counter is the encoding of the instruction. */
  ghost predicate Fetches(s: State, i: Instr) {
    Encodable(i) && Encode(i) == Load32(s.mem, s.pc)
  }

  lemma ShiftAlu(a: u32, n: nat)
    requires n < 32
    ensures Shifted(OpSll, a, n) == Word(Arith.Shl(a, n))
    ensures Shifted(OpSrl, a, n) == Word(Arith.Shr(a, n))
    ensures Shifted(OpSra, a, n) == Word(Alu.ShrInt(Signed(a), n))
  {
    hide Alu.Value, Alu.Shifter, Alu.Bits, Alu.ShrInt, Arith.Shl, Arith.Shr;
    Alu.ShiftedValues(a, n);
  }

  /** The ALU computes the operations of the ISA that take one clock. */
  lemma FastAlu(dsp: bool, d: Data, op: AluOp)
    requires d.dec.op == HwOf(op).0 && !Slow(d.dec.op)
    ensures AluOut(dsp, d) == Compute(op, First(d), Second(d))
  {
    var a, b := First(d), Second(d);
    hide Alu.Less, Alu.LessUnsigned, Alu.Difference, Alu.Value, Alu.Shifter, Alu.Bits, Alu.ShrInt, Arith.Shl, Arith.Shr;
    hide First, Second, AndWord, OrWord, XorWord, Signed, Word, Shifted;
    match op {
      case Add =>
      case And =>
      case Or =>
      case Xor =>
      case Sub => Alu.Comparisons(a, b);
      case Slt => Alu.Comparisons(a, b);
      case Sltu => Alu.Comparisons(a, b);
      case Sll => ShiftAlu(a, b % 32);
      case Srl => ShiftAlu(a, b % 32);
      case Sra => ShiftAlu(a, b % 32);
      case _ =>
    }
  }

  /** The upper bits of a shift immediate do not matter. */
  lemma ShiftImmediate(op: AluOp, imm: nat, a: u32)
    requires Encodable(OpImm(op, 0, 0, imm))
    ensures Compute(op, a, Imm12(imm + Funct7(op) * 32)) == Compute(op, a, Imm12(imm))
  {
    assert op == Sll || op == Srl || op == Sra ==> Imm12(imm + Funct7(op) * 32) % 32 == imm % 32 == Imm12(imm) % 32;
    hide Imm12, Arith.Shl, Arith.Shr, Alu.ShrInt;
  }

  /** The controls after the falling edge of an execution stage. */
  function ExecCtl(c: Core): Ctl {
    InExec(c.ctl.(en := OFF, prevstate := Exec), c.data.dec, c.data.nextpc)
  }

  /** The falling edge of an execution stage. */
  lemma ExecEdge(c: Core, b: Bus, line: bool)
    requires StageOf(c, b) == Exec
    ensures Falling(c, b, line) == ExecCtl(c)
  {
    hide InExec;
  }

  predicate UsesBus(d: Decoder.Decoded) {
    KindOf(d.opcode) == Memory
  }

  lemma CycleIs(dsp: bool, c: Core, b: Bus, t: Stimulus)
    ensures var k := Falling(c, b, t.line);
            Cycle(dsp, c, b, t) == (Core(k, Rising(dsp, k, c.data, b, t.line)),
                                    BusNext(b, k.en.bus, k.busOp, Address(k, c.data), c.data.val2, t))
  {
  }

  lemma AddressIs(k: Ctl, d: Data)
    ensures Address(k, d) == if k.addrPc then k.pc else Sum(d)
  {
  }

  /** Without a strobe it does not matter what else is on the bus. */
  lemma BusSame(b: Bus, k: Ctl, d: Data, t: Stimulus)
    ensures !k.en.bus ==> BusNext(b, false, k.busOp, Address(k, d), d.val2, t) == BusNext(b, false, d.dec.busop, Sum(d), d.val2, t)
  {
  }

  /** The rising edge under the enables of an execution stage. */
  lemma ExecRising(dsp: bool, k: Ctl, d: Data, b: Bus, line: bool)
    requires var br := KindOf(d.dec.opcode) == Conditional; k.en == Enables(true, br, br, UsesBus(d.dec), false, false, false)
    ensures var d' := Rising(dsp, k, d, b, line);
            && d'.pcAlu == k.pc && d'.result == AluOut(dsp, d)
            && d'.dec == d.dec && d'.regfile == d.regfile && d'.val1 == d.val1 && d'.val2 == d.val2
            && d'.nextpc == (if KindOf(d.dec.opcode) == Conditional
                             then Word(k.pc + if Branching(d.dec.mask, First(d), Second(d)) then d.dec.imm else 4)
                             else d.nextpc)
            && d'.lastOp == (if UsesBus(d.dec) then k.busOp else d.lastOp)
            && d'.mul == (if dsp then d.mul else Multiplier.MulNext(d.mul, MulIn(k, d)))
            && d'.div == Divider.Next(d.div, DivIn(k, d))
  {
    hide AluOut, Branching, First, Second, MulIn, DivIn, Word, Multiplier.MulNext, Divider.Next, RegInput, BusData;
  }

  /** Which units an execution stage enables. */
  lemma ExecControls(c: Core)
    ensures var k := ExecCtl(c); var d := c.data.dec;
            && k.pc == c.ctl.pc && k.en == Enables(true, KindOf(d.opcode) == Conditional, KindOf(d.opcode) == Conditional, UsesBus(d), false, false, false)
            && (UsesBus(d) ==> !k.addrPc && k.busOp == d.busop)
  {
    hide Align, KindOf;
    match KindOf(c.data.dec.opcode) {
      case Plain =>
      case Memory =>
      case Jump =>
      case Conditional =>
      case Special =>
      case Unknown =>
    }
  }

  /** A clock of an execution stage. */
  lemma ExecCycle(dsp: bool, c: Core, b: Bus, t: Stimulus)
    requires StageOf(c, b) == Exec
    ensures Cycle(dsp, c, b, t) == (Core(ExecCtl(c), Rising(dsp, ExecCtl(c), c.data, b, t.line)),
                                    BusNext(b, UsesBus(c.data.dec), c.data.dec.busop, Sum(c.data), c.data.val2, t))
  {
    ExecEdge(c, b, t.line);
    ExecControls(c);
    hide *;
    CycleIs(dsp, c, b, t);
    AddressIs(ExecCtl(c), c.data);
    BusSame(b, ExecCtl(c), c.data, t);
  }

  /** Units that are idle stay idle unless the operation is theirs. */
  lemma StayIdle(dsp: bool, k: Ctl, d: Data)
    requires Idle(d) && !Slow(d.dec.op)
    ensures !d.mul.busy && !Multiplier.MulNext(d.mul, MulIn(k, d)).busy && Divider.Next(d.div, DivIn(k, d)).state == 0
  {
  }

  lemma IdleIs(d: Data)
    ensures Idle(d) <==> !d.mul.busy && d.div.state == 0
  {
  }

  lemma QuietBus(b: Bus, d: Data, t: Stimulus)
    requires !b.waiting
    ensures BusNext(b, false, d.dec.busop, Sum(d), d.val2, t) == b
  {
  }

  lemma NewPcIs(c: Core)
    ensures NewPc(c) == if c.ctl.fromBru then Align(c.data.nextpc)
                        else if c.ctl.fromAlu then Align(c.data.result) else c.ctl.pcnext
  {
  }

  lemma CommittedIs(c: Core, b: Bus)
    ensures !c.ctl.writeback ==> Committed(c, b) == c.data.regfile
    ensures c.ctl.writeback && c.data.dec.source == FromAlu ==>
      Committed(c, b) == SetReg(c.data.regfile, c.data.dec.rd, c.data.result)
    ensures c.ctl.writeback && c.data.dec.source == FromBru ==>
      Committed(c, b) == SetReg(c.data.regfile, c.data.dec.rd, c.data.nextpc)
    ensures c.ctl.writeback && c.data.dec.source == FromBus ==>
      Committed(c, b) == SetReg(c.data.regfile, c.data.dec.rd, BusData(c.data, b))
  {
  }

  lemma ReadyIs(c: Core, b: Bus, s: State)
    requires b.mem == s.mem && c.ctl.epc == s.epc && c.ctl.evect == s.evect
    requires c.ctl.meie == s.meie && c.ctl.meiePrev == s.meiePrev
    requires s.regs[0] == 0 && s.pc % 4 == 0 && s.epc % 4 == 0 && s.evect % 4 == 0
    requires c.ctl.mcause == s.cause && !b.waiting && !c.data.mul.busy && c.data.div.state == 0 && c.ctl.nextstate == Fetch
    requires NewPc(c) == s.pc && Committed(c, b) == s.regs && (c.ctl.writeback ==> c.data.dec.source != FromMsr)
    ensures Ready(c, b, s)
  {
  }

  /** What an execution stage leaves in the control registers. */
  lemma ExecKeeps(c: Core)
    ensures var (k, k') := (c.ctl, ExecCtl(c)); var o := KindOf(c.data.dec.opcode);
            && k'.mcause == k.mcause && k'.epc == k.epc && k'.evect == k.evect && k'.meie == k.meie
            && k'.meiePrev == k.meiePrev && k'.writeback == c.data.dec.writeback
            && k'.pcnext == Align(c.data.nextpc) && k'.prevstate == Exec
            && k'.fromBru == (k.fromBru || o == Conditional) && k'.fromAlu == (k.fromAlu || o == Jump)
            && k'.nextstate == (if o == Special then System else if o == Unknown then Trap1 else Fetch)
  {
    hide Align, KindOf;
    match KindOf(c.data.dec.opcode) {
      case Plain =>
      case Memory =>
      case Jump =>
      case Conditional =>
      case Special =>
      case Unknown =>
    }
  }

  lemma AlignNext(pc: u32)
    requires pc % 4 == 0
    ensures Align(Word(pc + 4)) == Word(pc + 4)
    ensures forall x: u32 :: x % 4 == 0 ==> Align(x) == x
  {
  }

  lemma Operands(d: Data)
    ensures First(d) == if d.dec.pcFirst then d.pcAlu else d.val1
    ensures Second(d) == if d.dec.immSecond then d.dec.imm else d.val2
    ensures UsesBus(d.dec) <==> KindOf(d.dec.opcode) == Memory
  {
  }

  lemma HoldingParts(c: Core, b: Bus, s: State)
    requires Holding(c, b, s)
    ensures c.ctl.mcause == s.cause && c.ctl.pc == s.pc && c.data.nextpc == Word(s.pc + 4)
    ensures c.data.regfile == s.regs && !c.ctl.fromAlu && !c.ctl.fromBru
    ensures b.mem == s.mem && c.ctl.epc == s.epc && c.ctl.evect == s.evect
    ensures c.ctl.meie == s.meie && c.ctl.meiePrev == s.meiePrev
    ensures s.regs[0] == 0 && s.pc % 4 == 0 && s.epc % 4 == 0 && s.evect % 4 == 0
  {
  }

  /** The end of an instruction that does not use the bus, with the units idle again. */
  lemma ExecDone(dsp: bool, c: Core, b: Bus, s: State, t: Stimulus, s': State)
    requires Holding(c, b, s) && StageOf(c, b) == Exec && !b.waiting && Idle(Rising(dsp, ExecCtl(c), c.data, b, t.line))
    requires KindOf(c.data.dec.opcode) == Plain || KindOf(c.data.dec.opcode) == Jump || KindOf(c.data.dec.opcode) == Conditional
    requires s' == s.(pc := s'.pc, regs := s'.regs) && s'.pc % 4 == 0
    requires s'.pc == if KindOf(c.data.dec.opcode) == Conditional
                      then Word(s.pc + if Branching(c.data.dec.mask, First(c.data), Second(c.data)) then c.data.dec.imm else 4)
                      else if KindOf(c.data.dec.opcode) == Jump then Align(AluOut(dsp, c.data))
                      else Word(s.pc + 4)
    requires c.data.dec.writeback ==>
      c.data.dec.source == FromAlu || (c.data.dec.source == FromBru && KindOf(c.data.dec.opcode) != Conditional)
    requires s'.regs == if !c.data.dec.writeback then s.regs
                        else SetReg(s.regs, c.data.dec.rd, if c.data.dec.source == FromAlu then AluOut(dsp, c.data) else Word(s.pc + 4))
    ensures Ready(Cycle(dsp, c, b, t).0, Cycle(dsp, c, b, t).1, s')
  {
    hide *;
    HoldingParts(c, b, s);
    ExecCycle(dsp, c, b, t);
    ExecControls(c);
    ExecKeeps(c);
    ExecRising(dsp, ExecCtl(c), c.data, b, t.line);
    Operands(c.data);
    AlignNext(s.pc);
    if c.data.dec.writeback {
      SetRegKeepsZero(s.regs, c.data.dec.rd, if c.data.dec.source == FromAlu then AluOut(dsp, c.data) else Word(s.pc + 4));
    }
    var c' := Core(ExecCtl(c), Rising(dsp, ExecCtl(c), c.data, b, t.line));
    QuietBus(b, c.data, t);
    IdleIs(c'.data);
    NewPcIs(c');
    CommittedIs(c', b);
    ReadyIs(c', b, s');
  }

  lemma DecodedParts(c: Core, b: Bus, s: State)
    requires Decoded(c, b, s)
    ensures StageOf(c, b) == Exec && !b.waiting && Idle(c.data)
    ensures c.ctl.mcause == s.cause && c.ctl.pc == s.pc && c.data.nextpc == Word(s.pc + 4)
    ensures c.data.regfile == s.regs && !c.ctl.fromAlu && !c.ctl.fromBru
    ensures b.mem == s.mem && c.ctl.epc == s.epc && c.ctl.evect == s.evect
    ensures c.ctl.meie == s.meie && c.ctl.meiePrev == s.meiePrev
    ensures s.regs[0] == 0 && s.pc % 4 == 0 && s.epc % 4 == 0 && s.evect % 4 == 0
  {
  }

  lemma Held(c: Core, b: Bus, s: State)
    requires Decoded(c, b, s)
    ensures Holding(c, b, s)
  {
  }

  /** The end of an instruction that uses neither bus nor slow units. */
  lemma ExecFast(dsp: bool, c: Core, b: Bus, s: State, t: Stimulus, s': State)
    requires Decoded(c, b, s) && !Slow(c.data.dec.op)
    requires KindOf(c.data.dec.opcode) == Plain || KindOf(c.data.dec.opcode) == Jump || KindOf(c.data.dec.opcode) == Conditional
    requires s' == s.(pc := s'.pc, regs := s'.regs) && s'.pc % 4 == 0
    requires s'.pc == if KindOf(c.data.dec.opcode) == Conditional
                      then Word(s.pc + if Branching(c.data.dec.mask, First(c.data), Second(c.data)) then c.data.dec.imm else 4)
                      else if KindOf(c.data.dec.opcode) == Jump then Align(AluOut(dsp, c.data))
                      else Word(s.pc + 4)
    requires c.data.dec.writeback ==>
      c.data.dec.source == FromAlu || (c.data.dec.source == FromBru && KindOf(c.data.dec.opcode) != Conditional)
    requires s'.regs == if !c.data.dec.writeback then s.regs
                        else SetReg(s.regs, c.data.dec.rd, if c.data.dec.source == FromAlu then AluOut(dsp, c.data) else Word(s.pc + 4))
    ensures Ready(Cycle(dsp, c, b, t).0, Cycle(dsp, c, b, t).1, s')
  {
    hide *;
    Held(c, b, s);
    DecodedParts(c, b, s);
    ExecControls(c);
    ExecRising(dsp, ExecCtl(c), c.data, b, t.line);
    StayIdle(dsp, ExecCtl(c), c.data);
    IdleIs(Rising(dsp, ExecCtl(c), c.data, b, t.line));
    ExecDone(dsp, c, b, s, t, s');
  }

  /** What a held core knows of its instruction. */
  lemma HeldInstr(c: Core, b: Bus, s: State, i: Instr)
    requires Holding(c, b, s) && Fetches(s, i)
    ensures Encode(i) < WORD && Encodable(i)
    ensures var f := FieldsOf(Encode(i));
            c.data.dec == Decode(f) && c.data.val1 == s.regs[Rs1Of(f)] && c.data.val2 == s.regs[f.rs2]
    ensures c.data.pcAlu == s.pc && s.regs[0] == 0 && c.data.nextpc == Word(s.pc + 4) && s.pc % 4 == 0
  {
  }

  lemma WordSums(a: u32, x: int)
    ensures Word(a + Word(x)) == Word(a + x) && Word(Word(x)) == Word(x) && Word(0 + Word(x)) == Word(x)
  {
  }

  lemma Kinds()
    ensures KindOf(OP) == KindOf(OPIMM) == KindOf(LUI) == KindOf(AUIPC) == KindOf(MISCMEM) == Plain
    ensures KindOf(LOAD) == KindOf(STORE) == Memory && KindOf(JAL) == KindOf(JALR) == Jump
    ensures KindOf(BRANCH) == Conditional && KindOf(SYSTEM) == Special
    ensures LUI == 0x37 / 4 && AUIPC == 0x17 / 4 && JALR == 0x67 / 4
    ensures !Slow(OpAdd)
  {
  }

  lemma ExecuteUpper(s: State, i: Instr, line: bool)
    requires i.Lui? || i.Auipc?
    ensures Encode(i) == UType(i.imm20, i.rd, if i.Lui? then 0x37 else 0x17) && (Encodable(i) ==> i.imm20 < 0x10_0000)
    ensures Execute(s, i, line) ==
            s.(pc := Word(s.pc + 4),
               regs := SetReg(s.regs, i.rd, if i.Lui? then Word(i.imm20 * 0x1000) else Word(s.pc + i.imm20 * 0x1000)))
  {
  }

  lemma AddAlu(dsp: bool, d: Data)
    requires d.dec.op == OpAdd
    ensures AluOut(dsp, d) == Word(First(d) + Second(d)) == Sum(d)
  {
  }

  lemma NextAligned(pc: u32)
    requires pc % 4 == 0
    ensures Word(pc + 4) % 4 == 0
  {
  }

  lemma StepUpper(dsp: bool, c: Core, b: Bus, s: State, t: Stimulus, i: Instr)
    requires Decoded(c, b, s) && Fetches(s, i) && (i.Lui? || i.Auipc?) && Aligned(Execute(s, i, t.line))
    ensures Ready(Cycle(dsp, c, b, t).0, Cycle(dsp, c, b, t).1, Execute(s, i, t.line))
  {
    hide *;
    Held(c, b, s);
    HeldInstr(c, b, s, i);
    ExecuteUpper(s, i, t.line);
    DecodeUpper(i.rd, i.imm20, if i.Lui? then 0x37 else 0x17);
    Kinds();
    Operands(c.data);
    AddAlu(dsp, c.data);
    WordSums(s.pc, i.imm20 * 0x1000);
    NextAligned(s.pc);
    ExecFast(dsp, c, b, s, t, Execute(s, i, t.line));
  }

  lemma ExecuteOp(s: State, i: Instr, line: bool)
    requires i.OpImm? || i.OpReg?
    ensures Execute(s, i, line) ==
            s.(pc := Word(s.pc + 4),
               regs := SetReg(s.regs, i.rd,
                              Compute(i.op, s.regs[i.rs1], if i.OpImm? then Imm12(i.imm12) else s.regs[i.rs2])))
  {
  }

  lemma ImmediateFits(op: AluOp, rd: Reg, rs1: Reg, imm: nat)
    ensures Encodable(OpImm(op, rd, rs1, imm)) ==> Encodable(OpImm(op, 0, 0, imm))
  {
  }

  lemma StepOpImm(dsp: bool, c: Core, b: Bus, s: State, t: Stimulus, i: Instr)
    requires Decoded(c, b, s) && Fetches(s, i) && i.OpImm? && Aligned(Execute(s, i, t.line))
    ensures Ready(Cycle(dsp, c, b, t).0, Cycle(dsp, c, b, t).1, Execute(s, i, t.line))
  {
    hide *;
    Held(c, b, s);
    HeldInstr(c, b, s, i);
    ExecuteOp(s, i, t.line);
    DecodeOpImm(i.op, i.rd, i.rs1, i.imm12);
    Kinds();
    Operands(c.data);
    FastAlu(dsp, c.data, i.op);
    ImmediateFits(i.op, i.rd, i.rs1, i.imm12);
    ShiftImmediate(i.op, i.imm12, s.regs[i.rs1]);
    NextAligned(s.pc);
    ExecFast(dsp, c, b, s, t, Execute(s, i, t.line));
  }

  lemma StepOpReg(dsp: bool, c: Core, b: Bus, s: State, t: Stimulus, i: Instr)
    requires Decoded(c, b, s) && Fetches(s, i) && i.OpReg? && !Slow(HwOf(i.op).0) && Aligned(Execute(s, i, t.line))
    ensures Ready(Cycle(dsp, c, b, t).0, Cycle(dsp, c, b, t).1, Execute(s, i, t.line))
  {
    hide *;
    Held(c, b, s);
    HeldInstr(c, b, s, i);
    ExecuteOp(s, i, t.line);
    DecodeOpReg(i.op, i.rd, i.rs1, i.rs2);
    Kinds();
    Operands(c.data);
    FastAlu(dsp, c.data, i.op);
    NextAligned(s.pc);
    ExecFast(dsp, c, b, s, t, Execute(s, i, t.line));
  }

  lemma ExecuteFence(s: State, i: Instr, line: bool)
    requires i.Fence?
    ensures Encode(i) == i.bits * 0x80 + 0x0F && (Encodable(i) ==> i.bits < 0x200_0000)
    ensures Execute(s, i, line) == s.(pc := Word(s.pc + 4), regs := s.regs)
  {
  }

  lemma StepFence(dsp: bool, c: Core, b: Bus, s: State, t: Stimulus, i: Instr)
    requires Decoded(c, b, s) && Fetches(s, i) && i.Fence? && Aligned(Execute(s, i, t.line))
    ensures Ready(Cycle(dsp, c, b, t).0, Cycle(dsp, c, b, t).1, Execute(s, i, t.line))
  {
    hide *;
    Held(c, b, s);
    HeldInstr(c, b, s, i);
    ExecuteFence(s, i, t.line);
    DecodeFence(i.bits);
    Kinds();
    Operands(c.data);
    NextAligned(s.pc);
    ExecFast(dsp, c, b, s, t, Execute(s, i, t.line));
  }

  lemma ExecuteJump(s: State, i: Instr, line: bool)
    requires i.Jal? || i.Jalr?
    ensures i.Jal? ==> Encode(i) == JType(i.half20, i.rd, 0x6F) && (Encodable(i) ==> i.half20 < 0x10_0000)
    ensures i.Jalr? ==> Encode(i) == IType(i.imm12, i.rs1, 0, i.rd, 0x67) && (Encodable(i) ==> i.imm12 < 0x1000)
    ensures Execute(s, i, line) ==
            var t := if i.Jal? then Word(s.pc + JumpOffset(i.half20)) else Word(s.regs[i.rs1] + Imm12(i.imm12));
            s.(pc := if i.Jal? then t else t - t % 2, regs := SetReg(s.regs, i.rd, Word(s.pc + 4)))
  {
  }

  lemma AlignedIs(s: State)
    ensures Aligned(s) <==> s.pc % 4 == 0
  {
  }

  lemma JumpTarget(t: u32)
    ensures t % 4 == 0 ==> Align(t) == t
    ensures (t - t % 2) % 4 == 0 ==> Align(t) == t - t % 2
  {
  }

  lemma StepJump(dsp: bool, c: Core, b: Bus, s: State, t: Stimulus, i: Instr)
    requires Decoded(c, b, s) && Fetches(s, i) && (i.Jal? || i.Jalr?) && Aligned(Execute(s, i, t.line))
    ensures Ready(Cycle(dsp, c, b, t).0, Cycle(dsp, c, b, t).1, Execute(s, i, t.line))
  {
    hide *;
    Held(c, b, s);
    HeldInstr(c, b, s, i);
    ExecuteJump(s, i, t.line);
    AlignedIs(Execute(s, i, t.line));
    if i.Jal? {
      DecodeJal(i.rd, i.half20);
      JumpTarget(Word(s.pc + JumpOffset(i.half20)));
    } else {
      DecodeI(i.imm12, i.rs1, 0, i.rd, 0x67);
      JumpTarget(Word(s.regs[i.rs1] + Imm12(i.imm12)));
    }
    Kinds();
    Operands(c.data);
    AddAlu(dsp, c.data);
    ExecFast(dsp, c, b, s, t, Execute(s, i, t.line));
  }

  lemma BranchDecision(k: Cond, a: u32, b: u32)
    ensures Branching(Mask(k == Beq, k == Bne, k == Blt, k == Bge, k == Bltu, k == Bgeu), a, b) <==> Taken(k, a, b)
  {
    Alu.Comparisons(a, b);
    hide Alu.Less, Alu.LessUnsigned, Alu.Difference, Signed;
  }

  lemma ExecuteBranch(s: State, i: Instr, line: bool)
    requires i.Branch?
    ensures Encodable(i) ==> i.half12 < 0x1000
    ensures Execute(s, i, line) ==
            s.(pc := Word(s.pc + if Taken(i.cond, s.regs[i.rs1], s.regs[i.rs2]) then BranchOffset(i.half12) else 4), regs := s.regs)
  {
  }

  lemma StepBranch(dsp: bool, c: Core, b: Bus, s: State, t: Stimulus, i: Instr)
    requires Decoded(c, b, s) && Fetches(s, i) && i.Branch? && Aligned(Execute(s, i, t.line))
    ensures Ready(Cycle(dsp, c, b, t).0, Cycle(dsp, c, b, t).1, Execute(s, i, t.line))
  {
    hide *;
    Held(c, b, s);
    HeldInstr(c, b, s, i);
    ExecuteBranch(s, i, t.line);
    AlignedIs(Execute(s, i, t.line));
    DecodeBranch(i.cond, i.rs1, i.rs2, i.half12);
    BranchDecision(i.cond, s.regs[i.rs1], s.regs[i.rs2]);
    Kinds();
    Operands(c.data);
    ExecFast(dsp, c, b, s, t, Execute(s, i, t.line));
  }

  /** A clock that changes none of what a core holds. */
  lemma HoldingSame(c: Core, b: Bus, c': Core, b': Bus, s: State)
    requires Holding(c, b, s) && b'.mem == b.mem
    requires c'.ctl.mcause == c.ctl.mcause && c'.ctl.pc == c.ctl.pc && c'.ctl.epc == c.ctl.epc && c'.ctl.evect == c.ctl.evect
    requires c'.ctl.meie == c.ctl.meie && c'.ctl.meiePrev == c.ctl.meiePrev
    requires !c'.ctl.fromAlu && !c'.ctl.fromBru
    requires c'.data.pcAlu == s.pc && c'.data.regfile == c.data.regfile && c'.data.dec == c.data.dec
    requires c'.data.val1 == c.data.val1 && c'.data.val2 == c.data.val2 && c'.data.nextpc == c.data.nextpc
    ensures Holding(c', b', s)
  {
  }

  lemma BusIs(b: Bus, op: BusOp, a: u32, v: u32, t: Stimulus)
    ensures var b' := BusNext(b, true, op, a, v, t);
            && b'.waiting == !t.done
            && (!t.done ==> b'.mem == b.mem)
            && (t.done ==> b'.rdata == ReadData(op, b.mem, a, t.junk)
                           && b'.mem == if WriteWidth(op) == 0 then b.mem else Store(b.mem, a, WriteWidth(op), v))
  {
    hide Store;
  }

  lemma ArrivingIs(d: Data, b: Bus)
    ensures BusData(d, b) == Extended(d.lastOp, b.rdata)
  {
  }

  lemma AccessingIs(c: Core, b: Bus, s: State)
    requires Holding(c, b, s) && b.waiting && !c.data.mul.busy && c.data.div.state == 0
    requires c.ctl.prevstate == Exec && c.ctl.nextstate == Fetch && KindOf(c.data.dec.opcode) == Memory
    ensures Accessing(c, b, s)
  {
  }

  /** A clock of a load or store: it goes on waiting, or it ends with the access. */
  lemma ExecMemory(dsp: bool, c: Core, b: Bus, s: State, t: Stimulus, s': State)
    requires Holding(c, b, s) && StageOf(c, b) == Exec && Idle(c.data)
    requires KindOf(c.data.dec.opcode) == Memory && !Slow(c.data.dec.op)
    requires s' == s.(pc := Word(s.pc + 4), regs := s'.regs, mem := s'.mem)
    requires s'.mem == if WriteWidth(c.data.dec.busop) == 0 then s.mem
                       else Store(s.mem, Sum(c.data), WriteWidth(c.data.dec.busop), c.data.val2)
    requires c.data.dec.writeback ==> c.data.dec.source == FromBus
    requires s'.regs == if !c.data.dec.writeback then s.regs
                        else SetReg(s.regs, c.data.dec.rd,
                                    Extended(c.data.dec.busop, ReadData(c.data.dec.busop, s.mem, Sum(c.data), t.junk)))
    ensures t.done ==> Ready(Cycle(dsp, c, b, t).0, Cycle(dsp, c, b, t).1, s')
    ensures !t.done ==> Accessing(Cycle(dsp, c, b, t).0, Cycle(dsp, c, b, t).1, s)
  {
    hide *;
    HoldingParts(c, b, s);
    ExecCycle(dsp, c, b, t);
    ExecControls(c);
    ExecKeeps(c);
    ExecRising(dsp, ExecCtl(c), c.data, b, t.line);
    StayIdle(dsp, ExecCtl(c), c.data);
    Operands(c.data);
    NextAligned(s.pc);
    AlignNext(s.pc);
    BusIs(b, c.data.dec.busop, Sum(c.data), c.data.val2, t);
    var c' := Core(ExecCtl(c), Rising(dsp, ExecCtl(c), c.data, b, t.line));
    var b' := BusNext(b, true, c.data.dec.busop, Sum(c.data), c.data.val2, t);
    if t.done {
      if c.data.dec.writeback {
        SetRegKeepsZero(s.regs, c.data.dec.rd,
                        Extended(c.data.dec.busop, ReadData(c.data.dec.busop, s.mem, Sum(c.data), t.junk)));
      }
      ArrivingIs(c'.data, b');
      NewPcIs(c');
      CommittedIs(c', b');
      ReadyIs(c', b', s');
    } else {
      HoldingSame(c, b, c', b', s);
      AccessingIs(c', b', s);
    }
  }

  function LoadOp(k: LoadKind): BusOp {
    match k case Lb => ReadB case Lh => ReadH case Lw => ReadW case Lbu => ReadBU case Lhu => ReadHU
  }

  function SaveOp(k: StoreKind): BusOp {
    match k case Sb => WriteB case Sh => WriteH case Sw => WriteW
  }

  lemma LowByte(junk: u32, x: u32)
    requires x < 0x100
    ensures (junk - junk % 0x100 + x) % 0x100 == x
  {
  }

  lemma LowHalf(junk: u32, x: u32)
    requires x < 0x1_0000
    ensures (junk - junk % 0x1_0000 + x) % 0x1_0000 == x
  {
  }

  /** What becomes of incoming data, as numbers. */
  lemma ExtendedValues(v: u32)
    ensures Signed(Extended(ReadB, v)) == v % 0x100 - if v % 0x100 >= 0x80 then 0x100 else 0
    ensures Signed(Extended(ReadH, v)) == v % 0x1_0000 - if v % 0x1_0000 >= 0x8000 then 0x1_0000 else 0
    ensures Extended(ReadBU, v) == v % 0x100 && Extended(ReadHU, v) == v % 0x1_0000 && Extended(ReadW, v) == v
  {
  }

  /** The bytes the memory puts on the bus, extended, are the loaded value. */
  lemma LoadedValue(k: LoadKind, m: Mem, a: u32, junk: u32)
    ensures Extended(LoadOp(k), ReadData(LoadOp(k), m, a, junk)) == LoadValue(k, m, a)
    ensures WriteWidth(LoadOp(k)) == 0
  {
    LowByte(junk, Load8(m, a));
    LowHalf(junk, Load16(m, a));
    hide Load8, Load16, Load32, Isa.SignExtend;
  }

  lemma ExecuteMemory(s: State, i: Instr, line: bool)
    requires i.Load? || i.Save?
    ensures Encodable(i) ==> i.imm12 < 0x1000
    ensures i.Load? ==>
      (Execute(s, i, line) ==
       s.(pc := Word(s.pc + 4), mem := s.mem,
          regs := SetReg(s.regs, i.rd, LoadValue(i.kind, s.mem, Word(s.regs[i.rs1] + Imm12(i.imm12))))))
    ensures i.Save? ==>
      (Execute(s, i, line) ==
       s.(pc := Word(s.pc + 4), regs := s.regs,
          mem := Store(s.mem, Word(s.regs[i.rs1] + Imm12(i.imm12)), Width(i.width), s.regs[i.rs2])))
    ensures i.Save? ==> WriteWidth(SaveOp(i.width)) == Width(i.width) != 0
  {
  }

  lemma InMemoryStage(c: Core, b: Bus, s: State)
    requires Decoded(c, b, s) || Accessing(c, b, s)
    ensures Holding(c, b, s) && StageOf(c, b) == Exec && Idle(c.data)
  {
  }

  lemma LoadOps(k: LoadKind)
    ensures LoadOp(k) == match k case Lb => ReadB case Lh => ReadH case Lw => ReadW case Lbu => ReadBU case Lhu => ReadHU
  {
  }

  lemma SaveOps(k: StoreKind)
    ensures SaveOp(k) == match k case Sb => WriteB case Sh => WriteH case Sw => WriteW
  {
  }

  lemma StepMemory(dsp: bool, c: Core, b: Bus, s: State, t: Stimulus, i: Instr)
    requires Decoded(c, b, s) || Accessing(c, b, s)
    requires Fetches(s, i) && (i.Load? || i.Save?)
    ensures t.done ==> Ready(Cycle(dsp, c, b, t).0, Cycle(dsp, c, b, t).1, Execute(s, i, t.line))
    ensures !t.done ==> Accessing(Cycle(dsp, c, b, t).0, Cycle(dsp, c, b, t).1, s)
    ensures Falling(c, b, t.line).en.bus
  {
    hide *;
    InMemoryStage(c, b, s);
    ExecEdge(c, b, t.line);
    ExecControls(c);
    HeldInstr(c, b, s, i);
    ExecuteMemory(s, i, t.line);
    if i.Load? {
      DecodeLoad(i.kind, i.rd, i.rs1, i.imm12);
      LoadOps(i.kind);
      LoadedValue(i.kind, s.mem, Word(s.regs[i.rs1] + Imm12(i.imm12)), t.junk);
    } else {
      DecodeSave(i.width, i.rs1, i.rs2, i.imm12);
      SaveOps(i.width);
    }
    Kinds();
    Operands(c.data);
    AddAlu(dsp, c.data);
    ExecMemory(dsp, c, b, s, t, Execute(s, i, t.line));
  }

  predicate OnMultiplier(op: HwOp) {
    op == OpMul || op == OpMulh
  }

  /** The product the multiplier is to add up. */
  function ProductOf(d: Data): Multiplier.u64 {
    Multiplier.Double(Multiplier.Operand(First(d), d.dec.signed1)
                      * Multiplier.Operand(Second(d), d.dec.signed2 && d.dec.op == OpMulh))
  }

  /** A multiplication is under way. */
  ghost predicate Multiplying(c: Core, b: Bus, s: State) {
    && Holding(c, b, s) && !b.waiting && c.ctl.prevstate == Exec && c.ctl.nextstate == Fetch
    && c.data.div.state == 0 && OnMultiplier(c.data.dec.op)
    && c.data.mul.busy && Multiplier.Total(c.data.mul) == ProductOf(c.data)
  }

  lemma MulInIs(k: Ctl, d: Data)
    requires k.en.alu && OnMultiplier(d.dec.op)
    ensures var i := MulIn(k, d);
            && i.op == (if d.dec.op == OpMul then Multiplier.Low else Multiplier.High) && i.op != Multiplier.Other && !i.reset
            && i.a == First(d) && i.b == Second(d) && i.signed1 == d.dec.signed1 && i.signed2 == d.dec.signed2
    ensures d.div.state == 0 ==> Divider.Next(d.div, DivIn(k, d)).state == 0
  {
  }

  lemma ProductIs(d: Data, i: Multiplier.MulInput)
    requires i.a == First(d) && i.b == Second(d) && i.signed1 == d.dec.signed1 && i.signed2 == d.dec.signed2
    requires OnMultiplier(d.dec.op) && i.op == if d.dec.op == OpMul then Multiplier.Low else Multiplier.High
    ensures ProductOf(d) == Multiplier.Double(Multiplier.Operand(i.a, i.signed1)
                                              * Multiplier.Operand(i.b, i.signed2 && i.op == Multiplier.High))
  {
  }

  lemma HeldPcAlu(c: Core, b: Bus, s: State)
    requires Holding(c, b, s)
    ensures c.data.pcAlu == s.pc
  {
  }

  lemma MultiplyParts(c: Core, b: Bus, s: State)
    requires (Decoded(c, b, s) && OnMultiplier(c.data.dec.op)) || Multiplying(c, b, s)
    ensures Holding(c, b, s) && StageOf(c, b) == Exec && !b.waiting && c.data.div.state == 0 && OnMultiplier(c.data.dec.op)
    ensures if c.data.mul.busy then Multiplying(c, b, s) && Multiplier.Total(c.data.mul) == ProductOf(c.data)
            else Decoded(c, b, s)
    ensures Decoded(c, b, s) ==> !c.data.mul.busy
  {
    hide ProductOf, Multiplier.Total;
  }

  lemma MultiplyingIs(c: Core, b: Bus, s: State)
    requires Holding(c, b, s) && !b.waiting && c.ctl.prevstate == Exec && c.ctl.nextstate == Fetch
    requires c.data.div.state == 0 && OnMultiplier(c.data.dec.op)
    requires c.data.mul.busy && Multiplier.Total(c.data.mul) == ProductOf(c.data)
    ensures Multiplying(c, b, s)
  {
  }

  /** A clock of a multiplication that is not its last. */
  lemma MultiplyGoesOn(c: Core, b: Bus, s: State, t: Stimulus)
    requires (Decoded(c, b, s) && OnMultiplier(c.data.dec.op)) || (Multiplying(c, b, s) && c.data.mul.s2 != 0)
    requires KindOf(c.data.dec.opcode) == Plain
    ensures Multiplying(Cycle(false, c, b, t).0, Cycle(false, c, b, t).1, s)
  {
    hide *;
    MultiplyParts(c, b, s);
    HoldingParts(c, b, s);
    ExecCycle(false, c, b, t);
    ExecControls(c);
    ExecKeeps(c);
    ExecRising(false, ExecCtl(c), c.data, b, t.line);
    Operands(c.data);
    QuietBus(b, c.data, t);
    MulInIs(ExecCtl(c), c.data);
    ProductIs(c.data, MulIn(ExecCtl(c), c.data));
    if c.data.mul.busy {
      Multiplier.MultiplyStep(c.data.mul, MulIn(ExecCtl(c), c.data));
    } else {
      Multiplier.MultiplyStart(c.data.mul, MulIn(ExecCtl(c), c.data));
    }
    var c' := Core(ExecCtl(c), Rising(false, ExecCtl(c), c.data, b, t.line));
    HeldPcAlu(c, b, s);
    HoldingSame(c, b, c', b, s);
    Operands(c'.data);
    ProductIs(c'.data, MulIn(ExecCtl(c), c.data));
    MultiplyingIs(c', b, s);
  }

  /** The operation the ISA asks of the multiplier. */
  predicate MulKind(op: AluOp) {
    op == Mul || op == Mulh || op == Mulhsu || op == Mulhu
  }

  predicate DivKind(op: AluOp) {
    op == AluOp.Div || op == Divu || op == AluOp.Rem || op == Remu
  }

  predicate OnDivider(op: HwOp) {
    op == OpDiv || op == OpRem
  }

  lemma SlowKinds(op: AluOp)
    ensures Slow(HwOf(op).0) <==> MulKind(op) || DivKind(op)
    ensures MulKind(op) <==> OnMultiplier(HwOf(op).0)
    ensures DivKind(op) <==> OnDivider(HwOf(op).0)
  {
  }

  /** The words of the product are what the ISA computes. */
  lemma ProductWord(dsp: bool, d: Data, op: AluOp)
    requires MulKind(op) && (d.dec.op, d.dec.signed1, d.dec.signed2) == HwOf(op)
    requires dsp || (d.mul.s2 == 0 && Multiplier.Total(d.mul) == ProductOf(d))
    ensures AluOut(dsp, d) == Compute(op, First(d), Second(d))
  {
    var i := Multiplier.MulInput(if d.dec.op == OpMul then Multiplier.Low else Multiplier.High,
                                 d.dec.signed1, d.dec.signed2, First(d), Second(d), false);
    ProductIs(d, i);
    if dsp {
      Multiplier.DspAgrees(First(d), Second(d), d.dec.signed1, d.dec.signed2);
    } else {
      Multiplier.MultiplyResult(d.mul, i);
    }
    hide Multiplier.Total, Multiplier.Operand, Multiplier.Double, Multiplier.MultiplySpec, Multiplier.LowWord, Multiplier.HighWord;
    hide ProductOf, First, Second, Multiplier.DspResult;
  }

  lemma MultiplyHeld(c: Core, b: Bus, s: State)
    requires Multiplying(c, b, s)
    ensures Holding(c, b, s) && c.data.mul.busy && Multiplier.Total(c.data.mul) == ProductOf(c.data) && OnMultiplier(c.data.dec.op)
  {
  }

  /** The last clock of a multiplication. */
  lemma MultiplyEnds(dsp: bool, c: Core, b: Bus, s: State, t: Stimulus, i: Instr)
    requires Fetches(s, i) && i.OpReg? && MulKind(i.op) && Aligned(Execute(s, i, t.line))
    requires if dsp then Decoded(c, b, s) else Multiplying(c, b, s) && c.data.mul.s2 == 0
    ensures Ready(Cycle(dsp, c, b, t).0, Cycle(dsp, c, b, t).1, Execute(s, i, t.line))
  {
    hide *;
    SlowKinds(i.op);
    if dsp {
      Held(c, b, s);
    } else {
      MultiplyHeld(c, b, s);
    }
    HeldInstr(c, b, s, i);
    ExecuteOp(s, i, t.line);
    DecodeOpReg(i.op, i.rd, i.rs1, i.rs2);
    Kinds();
    Operands(c.data);
    MultiplyParts(c, b, s);
    ProductWord(dsp, c.data, i.op);
    NextAligned(s.pc);
    ExecControls(c);
    ExecRising(dsp, ExecCtl(c), c.data, b, t.line);
    MulInIs(ExecCtl(c), c.data);
    if !dsp {
      Multiplier.MultiplyStep(c.data.mul, MulIn(ExecCtl(c), c.data));
    }
    IdleIs(Rising(dsp, ExecCtl(c), c.data, b, t.line));
    ExecDone(dsp, c, b, s, t, Execute(s, i, t.line));
  }

  predicate SignedDivision(d: Data) {
    d.dec.signed1 || d.dec.signed2
  }

  /** How far the divider is with dividing the operands. */
  ghost predicate DividerAt(d: Data, n: nat, h: nat) {
    Divider.Dividing(d.div, Divider.Magnitude(First(d), SignedDivision(d)), Divider.Magnitude(Second(d), SignedDivision(d)), n, h)
  }

  function QuotientOf(d: Data): u32 {
    Divider.DivideSpec(First(d), Second(d), d.dec.op == OpDiv, SignedDivision(d))
  }

  /** A division is under way, `n` of its steps done; after the last its result is latched. */
  ghost predicate InDivision(c: Core, b: Bus, s: State, n: nat) {
    && Holding(c, b, s) && !b.waiting && c.ctl.prevstate == Exec && c.ctl.nextstate == Fetch
    && !c.data.mul.busy && OnDivider(c.data.dec.op) && n <= 33
    && (n <= 32 ==> exists h: nat :: DividerAt(c.data, n, h))
    && (n == 33 ==> c.data.div.state == 2 && c.data.div.result == QuotientOf(c.data))
  }

  lemma DivInIs(k: Ctl, d: Data)
    requires k.en.alu && OnDivider(d.dec.op)
    ensures DivIn(k, d) == Divider.Input(true, First(d), Second(d), d.dec.op == OpDiv, SignedDivision(d), false)
    ensures !d.mul.busy ==> !Multiplier.MulNext(d.mul, MulIn(k, d)).busy
  {
  }

  lemma DivisionIs(c: Core, b: Bus, s: State, n: nat, h: nat)
    requires Holding(c, b, s) && !b.waiting && c.ctl.prevstate == Exec && c.ctl.nextstate == Fetch
    requires !c.data.mul.busy && OnDivider(c.data.dec.op) && n <= 33
    requires n <= 32 ==> DividerAt(c.data, n, h)
    requires n == 33 ==> c.data.div.state == 2 && c.data.div.result == QuotientOf(c.data)
    ensures InDivision(c, b, s, n)
  {
  }

  lemma DivisionParts(c: Core, b: Bus, s: State, n: nat) returns (h: nat)
    requires InDivision(c, b, s, n)
    ensures Holding(c, b, s) && StageOf(c, b) == Exec && !b.waiting && !c.data.mul.busy && OnDivider(c.data.dec.op) && n <= 33
    ensures n <= 32 ==> DividerAt(c.data, n, h)
    ensures n == 33 ==> c.data.div.state == 2 && c.data.div.result == QuotientOf(c.data)
  {
    h := 0;
    if n <= 32 {
      h :| DividerAt(c.data, n, h);
    }
  }

  /** The rising edge during a division, with what the divider needs to go on. */
  lemma DividerKeeps(d: Data, d': Data, n: nat, h: nat)
    requires d'.dec == d.dec && d'.val1 == d.val1 && d'.val2 == d.val2 && d'.pcAlu == d.pcAlu
    ensures First(d') == First(d) && Second(d') == Second(d) && SignedDivision(d') == SignedDivision(d)
    ensures QuotientOf(d') == QuotientOf(d)
    ensures DividerAt(d', n, h) <==>
      Divider.Dividing(d'.div, Divider.Magnitude(First(d), SignedDivision(d)), Divider.Magnitude(Second(d), SignedDivision(d)), n, h)
  {
  }

  lemma DivideBegins(dsp: bool, c: Core, b: Bus, s: State, t: Stimulus)
    requires Decoded(c, b, s) && OnDivider(c.data.dec.op) && KindOf(c.data.dec.opcode) == Plain
    ensures InDivision(Cycle(dsp, c, b, t).0, Cycle(dsp, c, b, t).1, s, 0)
  {
    hide *;
    Held(c, b, s);
    DecodedParts(c, b, s);
    IdleIs(c.data);
    HeldPcAlu(c, b, s);
    ExecCycle(dsp, c, b, t);
    ExecControls(c);
    ExecKeeps(c);
    ExecRising(dsp, ExecCtl(c), c.data, b, t.line);
    Operands(c.data);
    QuietBus(b, c.data, t);
    DivInIs(ExecCtl(c), c.data);
    Divider.DivideStart(c.data.div, DivIn(ExecCtl(c), c.data));
    var c' := Core(ExecCtl(c), Rising(dsp, ExecCtl(c), c.data, b, t.line));
    DividerKeeps(c.data, c'.data, 0, 0);
    HoldingSame(c, b, c', b, s);
    DivisionIs(c', b, s, 0, 0);
  }

  lemma DividerAtIs(d: Data, n: nat, h: nat)
    ensures DividerAt(d, n, h) <==>
      Divider.Dividing(d.div, Divider.Magnitude(First(d), SignedDivision(d)), Divider.Magnitude(Second(d), SignedDivision(d)), n, h)
  {
  }

  lemma QuotientIs(d: Data)
    ensures QuotientOf(d) == Divider.DivideSpec(First(d), Second(d), d.dec.op == OpDiv, SignedDivision(d))
  {
  }

  lemma DivideGoesOn(dsp: bool, c: Core, b: Bus, s: State, t: Stimulus, n: nat)
    requires InDivision(c, b, s, n) && n <= 32 && KindOf(c.data.dec.opcode) == Plain
    ensures InDivision(Cycle(dsp, c, b, t).0, Cycle(dsp, c, b, t).1, s, n + 1)
  {
    hide *;
    var h := DivisionParts(c, b, s, n);
    HoldingParts(c, b, s);
    HeldPcAlu(c, b, s);
    ExecCycle(dsp, c, b, t);
    ExecControls(c);
    ExecKeeps(c);
    ExecRising(dsp, ExecCtl(c), c.data, b, t.line);
    Operands(c.data);
    QuietBus(b, c.data, t);
    DivInIs(ExecCtl(c), c.data);
    DividerAtIs(c.data, n, h);
    QuotientIs(c.data);
    var i := DivIn(ExecCtl(c), c.data);
    var c' := Core(ExecCtl(c), Rising(dsp, ExecCtl(c), c.data, b, t.line));
    HoldingSame(c, b, c', b, s);
    if n < 32 {
      var h' := Divider.NextQuotient(c.data.div, h);
      Divider.DivideStep(c.data.div, i, Divider.Magnitude(First(c.data), SignedDivision(c.data)),
                         Divider.Magnitude(Second(c.data), SignedDivision(c.data)), n, h);
      DividerKeeps(c.data, c'.data, n + 1, h');
      DivisionIs(c', b, s, n + 1, h');
    } else {
      Divider.DivideEnd(c.data.div, i, h);
      DividerKeeps(c.data, c'.data, 0, 0);
      DivisionIs(c', b, s, 33, 0);
    }
  }

  lemma QuotientWord(dsp: bool, d: Data, op: AluOp)
    requires DivKind(op) && (d.dec.op, d.dec.signed1, d.dec.signed2) == HwOf(op) && d.div.result == QuotientOf(d)
    ensures AluOut(dsp, d) == Compute(op, First(d), Second(d))
  {
    hide First, Second, Divider.DivideSpec;
  }

  lemma DivideEnds(dsp: bool, c: Core, b: Bus, s: State, t: Stimulus, i: Instr)
    requires Fetches(s, i) && i.OpReg? && DivKind(i.op) && Aligned(Execute(s, i, t.line)) && InDivision(c, b, s, 33)
    ensures Ready(Cycle(dsp, c, b, t).0, Cycle(dsp, c, b, t).1, Execute(s, i, t.line))
  {
    hide *;
    SlowKinds(i.op);
    var h := DivisionParts(c, b, s, 33);
    HeldInstr(c, b, s, i);
    ExecuteOp(s, i, t.line);
    DecodeOpReg(i.op, i.rd, i.rs1, i.rs2);
    Kinds();
    Operands(c.data);
    QuotientWord(dsp, c.data, i.op);
    NextAligned(s.pc);
    ExecControls(c);
    ExecRising(dsp, ExecCtl(c), c.data, b, t.line);
    DivInIs(ExecCtl(c), c.data);
    Divider.DivideDone(c.data.div, DivIn(ExecCtl(c), c.data));
    IdleIs(Rising(dsp, ExecCtl(c), c.data, b, t.line));
    ExecDone(dsp, c, b, s, t, Execute(s, i, t.line));
  }

  /** The stage for SYSTEM instructions is next. */
  ghost predicate AtSystem(c: Core, b: Bus, s: State) {
    && Holding(c, b, s) && !b.waiting && Idle(c.data) && c.ctl.nextstate == System
    && c.ctl.pcnext == Word(s.pc + 4) && !c.ctl.writeback
  }

  lemma AtSystemIs(c: Core, b: Bus, s: State)
    requires Holding(c, b, s) && !b.waiting && Idle(c.data) && c.ctl.nextstate == System
    requires c.ctl.pcnext == Word(s.pc + 4) && !c.ctl.writeback
    ensures AtSystem(c, b, s)
  {
  }

  /** The execution stage of a SYSTEM instruction. */
  lemma ExecSystem(dsp: bool, c: Core, b: Bus, s: State, t: Stimulus)
    requires Decoded(c, b, s) && KindOf(c.data.dec.opcode) == Special && !Slow(c.data.dec.op) && !c.data.dec.writeback
    ensures AtSystem(Cycle(dsp, c, b, t).0, Cycle(dsp, c, b, t).1, s)
  {
    hide *;
    Held(c, b, s);
    DecodedParts(c, b, s);
    IdleIs(c.data);
    HeldPcAlu(c, b, s);
    ExecCycle(dsp, c, b, t);
    ExecControls(c);
    ExecKeeps(c);
    ExecRising(dsp, ExecCtl(c), c.data, b, t.line);
    Operands(c.data);
    AlignNext(s.pc);
    QuietBus(b, c.data, t);
    StayIdle(dsp, ExecCtl(c), c.data);
    var c' := Core(ExecCtl(c), Rising(dsp, ExecCtl(c), c.data, b, t.line));
    IdleIs(c'.data);
    HoldingSame(c, b, c', b, s);
    AtSystemIs(c', b, s);
  }

  /** A rising edge with no unit but perhaps the register write enabled. */
  lemma QuietRising(dsp: bool, k: Ctl, d: Data, b: Bus, line: bool)
    requires k.en == OFF.(write := k.en.write) && Idle(d)
    ensures var d' := Rising(dsp, k, d, b, line);
            && Idle(d') && d'.pcAlu == k.pc && d'.dec == d.dec && d'.val1 == d.val1 && d'.val2 == d.val2
            && d'.nextpc == d.nextpc && d'.result == d.result
            && d'.regfile == if k.en.write then SetReg(d.regfile, d.dec.rd, RegInput(k, d, b, line)) else d.regfile
  {
    hide AluOut, Branching, First, Second, Word, RegInput, BusData, SetReg;
  }

  lemma QuietCycle(b: Bus, k: Ctl, d: Data, t: Stimulus)
    requires !k.en.bus && !b.waiting
    ensures BusNext(b, k.en.bus, k.busOp, Address(k, d), d.val2, t) == b
  {
  }

  /** A trap with the given cause is about to be taken; nothing else has changed. */
  ghost predicate Trapping(c: Core, b: Bus, s: State, cause: nat) {
    && Common(c, b, s) && !b.waiting && Idle(c.data) && c.ctl.nextstate == Trap1 && c.ctl.mcause == cause
    && c.ctl.pc == s.pc && c.data.regfile == s.regs && !c.ctl.fromAlu && !c.ctl.fromBru && !c.ctl.writeback
  }

  /** An interrupt is taken where the instruction would be executed. */
  lemma InterruptTaken(dsp: bool, c: Core, b: Bus, s: State, t: Stimulus)
    requires Fetched(c, b, s) && s.meie && t.line
    ensures Trapping(Cycle(dsp, c, b, t).0, Cycle(dsp, c, b, t).1, s, CAUSE_INTERRUPT)
  {
    hide Isa.SignExtend, Decode, FieldsOf, Load32, Load16, Load8, SetReg, Align, AluOut, Store, Branching, Word;
  }

  /** The trap stage. */
  lemma TrapEnds(dsp: bool, c: Core, b: Bus, s: State, t: Stimulus, cause: nat)
    requires Trapping(c, b, s, cause)
    ensures Ready(Cycle(dsp, c, b, t).0, Cycle(dsp, c, b, t).1, Trap(s, cause))
  {
    var k := Falling(c, b, t.line);
    QuietRising(dsp, k, c.data, b, t.line);
    QuietCycle(b, k, c.data, t);
    CycleIs(dsp, c, b, t);
    hide Align, Rising, BusNext, Cycle, SetReg, RegInput;
  }

  lemma Imm12Bits(csr: nat)
    requires csr < 0x1000
    ensures Imm12(csr) % 0x1000 == csr && Imm12(csr) % 4 == csr % 4 && Imm12(csr) / 0x800 % 2 == csr / 0x800 % 2
  {
  }

  lemma ExecuteSystem(s: State, i: Instr, line: bool)
    requires i.Ecall? || i.Ebreak? || i.Mret?
    ensures Encode(i) == (if i.Ecall? then 0 else if i.Ebreak? then 1 else 0x302) * 0x10_0000 + 0x73
    ensures Execute(s, i, line) == if i.Ecall? then Trap(s, CAUSE_ECALL) else if i.Ebreak? then Trap(s, CAUSE_BREAK)
                                   else s.(meie := s.meiePrev, pc := s.epc, cause := 0)
  {
  }

  lemma SystemEdge(c: Core, b: Bus, line: bool)
    requires StageOf(c, b) == System
    ensures Falling(c, b, line) == InSystem(c.ctl.(en := OFF, prevstate := System), c.data.dec)
  {
    hide InSystem;
  }

  lemma AtSystemParts(c: Core, b: Bus, s: State)
    requires AtSystem(c, b, s)
    ensures Holding(c, b, s) && StageOf(c, b) == System && !b.waiting && Idle(c.data)
    ensures c.ctl.pcnext == Word(s.pc + 4) && !c.ctl.writeback
  {
  }

  lemma QuietEnables(k: Ctl)
    requires k.en == OFF
    ensures k.en == OFF.(write := k.en.write) && !k.en.bus && !k.en.write
  {
  }

  lemma TrappingIs(c: Core, b: Bus, s: State, cause: nat)
    requires b.mem == s.mem && c.ctl.epc == s.epc && c.ctl.evect == s.evect
    requires c.ctl.meie == s.meie && c.ctl.meiePrev == s.meiePrev
    requires s.regs[0] == 0 && s.pc % 4 == 0 && s.epc % 4 == 0 && s.evect % 4 == 0
    requires !b.waiting && Idle(c.data) && c.ctl.nextstate == Trap1 && c.ctl.mcause == cause
    requires c.ctl.pc == s.pc && c.data.regfile == s.regs && !c.ctl.fromAlu && !c.ctl.fromBru && !c.ctl.writeback
    ensures Trapping(c, b, s, cause)
  {
  }

  lemma SystemControls(k: Ctl, d: Decoder.Decoded, f: nat)
    requires d.funct3 == 0 && d.imm % 0x1000 == f && (f == 0 || f == 1 || f == 0x302) && k.en == OFF
    ensures InSystem(k, d) == if f == 0x302 then k.(nextstate := Fetch, meie := k.meiePrev, pcnext := k.epc, mcause := 0)
                              else k.(nextstate := Trap1, mcause := if f == 0 then CAUSE_ECALL else CAUSE_BREAK)
    ensures InSystem(k, d).en == OFF
  {
  }

  /** SYSTEM words that are none of these go to the trap stage with cause 2. */
  lemma OtherSystem(k: Ctl, d: Decoded)
    requires d.funct3 > 1 || (d.funct3 == 0 && d.imm % 0x1000 != 0 && d.imm % 0x1000 != 1 && d.imm % 0x1000 != 0x302)
    ensures InSystem(k, d) == k.(nextstate := Trap1, mcause := 2)
  {
  }

  /** ecall, ebreak and mret. */
  lemma SystemStage(dsp: bool, c: Core, b: Bus, s: State, t: Stimulus, i: Instr)
    requires AtSystem(c, b, s) && Fetches(s, i) && (i.Ecall? || i.Ebreak? || i.Mret?)
    ensures i.Ecall? ==> Trapping(Cycle(dsp, c, b, t).0, Cycle(dsp, c, b, t).1, s, CAUSE_ECALL)
    ensures i.Ebreak? ==> Trapping(Cycle(dsp, c, b, t).0, Cycle(dsp, c, b, t).1, s, CAUSE_BREAK)
    ensures i.Mret? ==> Ready(Cycle(dsp, c, b, t).0, Cycle(dsp, c, b, t).1, Execute(s, i, t.line))
  {
    hide *;
    AtSystemParts(c, b, s);
    HoldingParts(c, b, s);
    HeldInstr(c, b, s, i);
    ExecuteSystem(s, i, t.line);
    var f: nat := if i.Ecall? then 0 else if i.Ebreak? then 1 else 0x302;
    DecodeSystem(f);
    Imm12Bits(f);
    SystemEdge(c, b, t.line);
    SystemControls(c.ctl.(en := OFF, prevstate := System), c.data.dec, f);
    var k := Falling(c, b, t.line);
    QuietEnables(k);
    QuietRising(dsp, k, c.data, b, t.line);
    QuietCycle(b, k, c.data, t);
    CycleIs(dsp, c, b, t);
    var c' := Core(k, Rising(dsp, k, c.data, b, t.line));
    IdleIs(c'.data);
    if i.Mret? {
      NewPcIs(c');
      CommittedIs(c', b);
      ReadyIs(c', b, Execute(s, i, t.line));
    } else {
      TrappingIs(c', b, s, if i.Ecall? then CAUSE_ECALL else CAUSE_BREAK);
    }
  }

  /** The old value of the status register is written, the new one not yet. */
  ghost predicate AtCsr(c: Core, b: Bus, s: State, i: Instr, line: bool) {
    && i.Csrrw? && Common(c, b, s) && c.ctl.mcause == s.cause && !b.waiting && Idle(c.data) && c.ctl.nextstate == Csr
    && c.data.regfile == SetReg(s.regs, i.rd, ReadStatus(s, i.csr, line))
    && c.ctl.pcnext == Word(s.pc + 4) && c.data.val1 == s.regs[i.rs1] && c.data.dec.imm == Imm12(i.csr)
    && !c.ctl.fromAlu && !c.ctl.fromBru && !c.ctl.writeback
  }

  lemma AtCsrIs(c: Core, b: Bus, s: State, i: Instr, line: bool)
    requires b.mem == s.mem && c.ctl.epc == s.epc && c.ctl.evect == s.evect
    requires c.ctl.meie == s.meie && c.ctl.meiePrev == s.meiePrev
    requires s.regs[0] == 0 && s.pc % 4 == 0 && s.epc % 4 == 0 && s.evect % 4 == 0
    requires i.Csrrw? && c.ctl.mcause == s.cause && !b.waiting && Idle(c.data) && c.ctl.nextstate == Csr
    requires c.data.regfile == SetReg(s.regs, i.rd, ReadStatus(s, i.csr, line))
    requires c.ctl.pcnext == Word(s.pc + 4) && c.data.val1 == s.regs[i.rs1] && c.data.dec.imm == Imm12(i.csr)
    requires !c.ctl.fromAlu && !c.ctl.fromBru && !c.ctl.writeback
    ensures AtCsr(c, b, s, i, line)
  {
  }

  lemma CsrControls(k: Ctl, d: Decoder.Decoded)
    requires d.funct3 == 1
    ensures InSystem(k, d) == k.(nextstate := Csr, en := OFF.(write := true))
    ensures InSystem(k, d).en == OFF.(write := InSystem(k, d).en.write) && InSystem(k, d).en.write && !InSystem(k, d).en.bus
  {
  }

  lemma StatusIs(k: Ctl, d: Data, b: Bus, s: State, csr: nat, line: bool)
    requires d.dec.source == FromMsr && d.dec.imm % 4 == csr % 4
    requires k.mcause == s.cause && k.epc == s.epc && k.evect == s.evect && k.meie == s.meie && k.meiePrev == s.meiePrev
    ensures RegInput(k, d, b, line) == ReadStatus(s, csr, line)
  {
  }

  lemma ExecuteCsr(s: State, i: Instr, line: bool)
    requires i.Csrrw?
    ensures Encodable(i) ==> i.csr < 0x1000
    ensures Execute(s, i, line) ==
            WriteStatus(s.(pc := Word(s.pc + 4)), i.csr, s.regs[i.rs1]).(regs := SetReg(s.regs, i.rd, ReadStatus(s, i.csr, line)))
  {
  }

  /** csrrw, reading. */
  lemma CsrReads(dsp: bool, c: Core, b: Bus, s: State, t: Stimulus, i: Instr)
    requires AtSystem(c, b, s) && Fetches(s, i) && i.Csrrw?
    ensures AtCsr(Cycle(dsp, c, b, t).0, Cycle(dsp, c, b, t).1, s, i, t.line)
  {
    hide *;
    AtSystemParts(c, b, s);
    HoldingParts(c, b, s);
    HeldInstr(c, b, s, i);
    ExecuteCsr(s, i, t.line);
    DecodeCsrrw(i.rd, i.rs1, i.csr);
    Imm12Bits(i.csr);
    SystemEdge(c, b, t.line);
    CsrControls(c.ctl.(en := OFF, prevstate := System), c.data.dec);
    var k := Falling(c, b, t.line);
    StatusIs(k, c.data, b, s, i.csr, t.line);
    QuietRising(dsp, k, c.data, b, t.line);
    QuietCycle(b, k, c.data, t);
    CycleIs(dsp, c, b, t);
    var c' := Core(k, Rising(dsp, k, c.data, b, t.line));
    AtCsrIs(c', b, s, i, t.line);
  }

  lemma CsrEdge(c: Core, b: Bus, line: bool)
    requires StageOf(c, b) == Csr
    ensures Falling(c, b, line) == InCsr(c.ctl.(en := OFF, prevstate := Csr), c.data.dec, c.data.val1)
  {
    hide InCsr;
  }

  lemma AtCsrParts(c: Core, b: Bus, s: State, i: Instr, line: bool)
    requires AtCsr(c, b, s, i, line)
    ensures i.Csrrw? && StageOf(c, b) == Csr && !b.waiting && Idle(c.data) && c.ctl.mcause == s.cause
    ensures c.data.regfile == SetReg(s.regs, i.rd, ReadStatus(s, i.csr, line))
    ensures c.ctl.pcnext == Word(s.pc + 4) && c.data.val1 == s.regs[i.rs1] && c.data.dec.imm == Imm12(i.csr)
    ensures !c.ctl.fromAlu && !c.ctl.fromBru && !c.ctl.writeback
    ensures b.mem == s.mem && c.ctl.epc == s.epc && c.ctl.evect == s.evect
    ensures c.ctl.meie == s.meie && c.ctl.meiePrev == s.meiePrev
    ensures s.regs[0] == 0 && s.pc % 4 == 0 && s.epc % 4 == 0 && s.evect % 4 == 0
  {
  }

  lemma AlignMultiple(v: u32)
    ensures Align(v) % 4 == 0
  {
  }

  lemma StatusCase(s: State, csr: nat, v: u32)
    ensures csr / 0x800 % 2 == 1 ==> WriteStatus(s, csr, v) == s
    ensures csr / 0x800 % 2 != 1 ==>
      (WriteStatus(s, csr, v) ==
       if csr % 4 == 0 then s.(meie := v % 2 == 1, meiePrev := v / 2 % 2 == 1)
       else if csr % 4 == 1 then s.(cause := v / 0x8000_0000 * 16 + v % 16)
       else if csr % 4 == 2 then s.(epc := Align(v))
       else s.(evect := Align(v)))
  {
    hide Align;
  }

  /** The status registers after the write, in the core and in the ISA. */
  lemma CsrWrites(k: Ctl, d: Decoder.Decoded, s: State, csr: nat, v: u32)
    requires d.imm % 4 == csr % 4 && d.imm / 0x800 % 2 == csr / 0x800 % 2 && k.en == OFF
    requires k.mcause == s.cause && k.epc == s.epc && k.evect == s.evect && k.meie == s.meie && k.meiePrev == s.meiePrev
    requires s.epc % 4 == 0 && s.evect % 4 == 0
    ensures var (k', s') := (InCsr(k, d, v), WriteStatus(s, csr, v));
            && k'.mcause == s'.cause && k'.epc == s'.epc && k'.evect == s'.evect && k'.meie == s'.meie
            && k'.meiePrev == s'.meiePrev && s'.epc % 4 == 0 && s'.evect % 4 == 0
            && s'.pc == s.pc && s'.regs == s.regs && s'.mem == s.mem
            && k'.en == OFF && k'.nextstate == Fetch && k'.pcnext == k.pcnext
            && k'.fromAlu == k.fromAlu && k'.fromBru == k.fromBru && k'.writeback == k.writeback
  {
    var sel, ro := csr % 4, csr / 0x800 % 2 == 1;
    AlignMultiple(v);
    StatusCase(s, csr, v);
    hide Align, WriteStatus;
    if !ro {
      if sel == 0 {
      } else if sel == 1 {
      } else if sel == 2 {
      }
    }
  }

  /** csrrw, writing. */
  lemma CsrEnds(dsp: bool, c: Core, b: Bus, s: State, t: Stimulus, i: Instr, line: bool)
    requires AtCsr(c, b, s, i, line) && Encodable(i)
    ensures Ready(Cycle(dsp, c, b, t).0, Cycle(dsp, c, b, t).1, Execute(s, i, line))
  {
    hide *;
    AtCsrParts(c, b, s, i, line);
    ExecuteCsr(s, i, line);
    Imm12Bits(i.csr);
    NextAligned(s.pc);
    CsrEdge(c, b, t.line);
    CsrWrites(c.ctl.(en := OFF, prevstate := Csr), c.data.dec, s.(pc := Word(s.pc + 4)), i.csr, s.regs[i.rs1]);
    SetRegKeepsZero(s.regs, i.rd, ReadStatus(s, i.csr, line));
    var k := Falling(c, b, t.line);
    QuietEnables(k);
    QuietRising(dsp, k, c.data, b, t.line);
    QuietCycle(b, k, c.data, t);
    CycleIs(dsp, c, b, t);
    var c' := Core(k, Rising(dsp, k, c.data, b, t.line));
    IdleIs(c'.data);
    NewPcIs(c');
    CommittedIs(c', b);
    ReadyIs(c', b, Execute(s, i, line));
  }
}
