/** Whole runs of the core: under every pattern of bus waits and interrupts they are runs of the
    instruction set. */
module CoreRefines {
  import opened Words
  import opened Machine
  import opened Decoder
  import opened CoreClock
  import opened Isa
  import opened CoreProof
  import Arith
  import Multiplier

  /** Where the core is within an instruction. */
  datatype Point =
    | AtReady | AtFetching | AtFetched | AtDecoded | AtAccess
    | AtMultiply(left: nat)     // at most so many bits of the second factor are left
    | AtDivide(steps: nat)
    | AtSystemStage | AtCsrStage(line: bool) | AtTrap | AtInterrupt

  /** The core is at the point and stands for the ISA state, whose next instruction is `i`. */
  ghost predicate At(p: Point, dsp: bool, c: Core, b: Bus, s: State, i: Instr) {
    match p
    case AtReady => Ready(c, b, s)
    case AtFetching => Fetching(c, b, s)
    case AtFetched => Fetched(c, b, s)
    case AtDecoded => CoreProof.Decoded(c, b, s)
    case AtAccess => Accessing(c, b, s) && (i.Load? || i.Save?)
    case AtMultiply(left) =>
      && Multiplying(c, b, s) && !dsp && i.OpReg? && MulKind(i.op) && left <= 64 && c.data.mul.s2 < Arith.Pow2(left)
    case AtDivide(steps) => InDivision(c, b, s, steps) && i.OpReg? && DivKind(i.op)
    case AtSystemStage => AtSystem(c, b, s) && (i.Ecall? || i.Ebreak? || i.Mret? || i.Csrrw?)
    case AtCsrStage(line) => AtCsr(c, b, s, i, line)
    case AtTrap => (i.Ecall? && Trapping(c, b, s, CAUSE_ECALL)) || (i.Ebreak? && Trapping(c, b, s, CAUSE_BREAK))
    case AtInterrupt => Trapping(c, b, s, CAUSE_INTERRUPT) && s.meie
  }

  /** Clocks left to the end of the instruction, not counting those spent waiting for the bus. */
  function Rank(p: Point): nat {
    match p
    case AtReady => 70
    case AtFetching => 70
    case AtFetched => 69
    case AtDecoded => 68
    case AtAccess => 1
    case AtMultiply(left) => left + 1
    case AtDivide(steps) => if steps <= 33 then 34 - steps else 0
    case AtSystemStage => 2
    case AtCsrStage(_) => 1
    case AtTrap => 1
    case AtInterrupt => 1
  }

  /** What a clock completes. `line` is the interrupt line as the instruction read it, if it did. */
  datatype Completion = Nothing | Instruction(instr: Instr, line: bool) | Interrupted

  /** The decoding clock of the instruction is over. */
  predicate PastDecode(p: Point) {
    p != AtReady && p != AtFetching && p != AtFetched
  }

  /** What the interrupt line of a clock has to do with what the clock leads to: the decoding clock takes
      the interrupt if the line asks for it and interrupts are enabled, and no other clock does; csrrw reads
      the line in the stage for SYSTEM instructions. */
  predicate Heeds(p: Point, s: State, i: Instr, line: bool, p': Point, e: Completion) {
    && (e == Interrupted <==> p == AtInterrupt)
    && (p' == AtInterrupt <==> p == AtFetched && s.meie && line)
    && (e == Nothing ==> (PastDecode(p') <==> p == AtFetched || PastDecode(p)))
    && (e != Nothing ==> PastDecode(p) && p' == AtReady)
    && (e.Instruction? ==> e.instr == i && (i.Csrrw? ==> p.AtCsrStage? && e.line == p.line))
    && (p'.AtCsrStage? ==> p == AtSystemStage && p'.line == line)
  }

  lemma HeedsIs(p: Point, s: State, i: Instr, line: bool, p': Point, e: Completion)
    ensures Heeds(p, s, i, line, p', e) <==>
      && (e == Interrupted <==> p == AtInterrupt)
      && (p' == AtInterrupt <==> p == AtFetched && s.meie && line)
      && (e == Nothing ==> (PastDecode(p') <==> p == AtFetched || PastDecode(p)))
      && (e != Nothing ==> PastDecode(p) && p' == AtReady)
      && (e.Instruction? ==> e.instr == i && (i.Csrrw? ==> p.AtCsrStage? && e.line == p.line))
      && (p'.AtCsrStage? ==> p == AtSystemStage && p'.line == line)
    ensures PastDecode(p) <==> p != AtReady && p != AtFetching && p != AtFetched
    ensures PastDecode(p') <==> p' != AtReady && p' != AtFetching && p' != AtFetched
  {
  }

  /** The core asks for an access that does not end in this clock. */
  predicate WaitClock(c: Core, b: Bus, t: Stimulus) {
    Falling(c, b, t.line).en.bus && !t.done
  }

  /** What must be true after a clock. */
  ghost predicate Follows(p: Point, dsp: bool, c: Core, b: Bus, s: State, t: Stimulus, i: Instr, p': Point, e: Completion) {
    var (c', b') := Cycle(dsp, c, b, t);
    match e
    case Nothing => At(p', dsp, c', b', s, i) && (Rank(p') < Rank(p) || (WaitClock(c, b, t) && Rank(p') <= Rank(p)))
    case Instruction(_, line) => p' == AtReady && Ready(c', b', Execute(s, i, line))
    case Interrupted => p' == AtReady && s.meie && Ready(c', b', Interrupt(s))
  }

  lemma WaitIs(c: Core, b: Bus, t: Stimulus)
    ensures WaitClock(c, b, t) <==> Falling(c, b, t.line).en.bus && !t.done
  {
    hide Falling;
  }

  lemma AtFetchIs(p: Point, dsp: bool, c: Core, b: Bus, s: State, i: Instr)
    ensures p == AtReady ==> (At(p, dsp, c, b, s, i) <==> Ready(c, b, s))
    ensures p == AtFetching ==> (At(p, dsp, c, b, s, i) <==> Fetching(c, b, s))
    ensures p == AtFetched ==> (At(p, dsp, c, b, s, i) <==> Fetched(c, b, s))
    ensures p == AtDecoded ==> (At(p, dsp, c, b, s, i) <==> CoreProof.Decoded(c, b, s))
    ensures p == AtAccess ==> (At(p, dsp, c, b, s, i) <==> Accessing(c, b, s) && (i.Load? || i.Save?))
    ensures p == AtInterrupt ==> (At(p, dsp, c, b, s, i) <==> Trapping(c, b, s, CAUSE_INTERRUPT) && s.meie)
  {
    hide Ready, Fetching, Fetched, CoreProof.Decoded, Accessing, Trapping;
  }

  lemma FollowsCases(p: Point, dsp: bool, c: Core, b: Bus, s: State, t: Stimulus, i: Instr, p': Point, e: Completion, next: (Core, Bus))
    requires next == Cycle(dsp, c, b, t)
    ensures Follows(p, dsp, c, b, s, t, i, p', e) <==>
            match e
            case Nothing =>
              At(p', dsp, next.0, next.1, s, i) && (Rank(p') < Rank(p) || (WaitClock(c, b, t) && Rank(p') <= Rank(p)))
            case Instruction(_, line) => p' == AtReady && Ready(next.0, next.1, Execute(s, i, line))
            case Interrupted => p' == AtReady && s.meie && Ready(next.0, next.1, Interrupt(s))
  {
    hide Cycle, At, Ready, Execute, Interrupt, WaitClock, Rank;
  }

  lemma FollowsIs(p: Point, dsp: bool, c: Core, b: Bus, s: State, t: Stimulus, i: Instr, p': Point, e: Completion)
    ensures e == Nothing ==>
      (Follows(p, dsp, c, b, s, t, i, p', e) <==>
       At(p', dsp, Cycle(dsp, c, b, t).0, Cycle(dsp, c, b, t).1, s, i)
       && (Rank(p') < Rank(p) || (WaitClock(c, b, t) && Rank(p') <= Rank(p))))
    ensures e.Instruction? ==>
      (Follows(p, dsp, c, b, s, t, i, p', e) <==>
       p' == AtReady && Ready(Cycle(dsp, c, b, t).0, Cycle(dsp, c, b, t).1, Execute(s, i, e.line)))
    ensures e == Interrupted ==>
      (Follows(p, dsp, c, b, s, t, i, p', e) <==>
       p' == AtReady && s.meie && Ready(Cycle(dsp, c, b, t).0, Cycle(dsp, c, b, t).1, Interrupt(s)))
  {
    hide *;
    FollowsCases(p, dsp, c, b, s, t, i, p', e, Cycle(dsp, c, b, t));
  }

  lemma Ranks(p: Point)
    ensures Rank(AtDecoded) == 68 && Rank(AtFetched) == 69 && Rank(AtReady) == Rank(AtFetching) == 70
    ensures p.AtMultiply? ==> Rank(p) == p.left + 1
    ensures p.AtDivide? && p.steps <= 33 ==> Rank(p) == 34 - p.steps
    ensures p == AtSystemStage ==> Rank(p) == 2
    ensures p.AtCsrStage? || p == AtTrap || p == AtInterrupt || p == AtAccess ==> Rank(p) == 1
  {
  }

  lemma FromFetch(p: Point, dsp: bool, c: Core, b: Bus, s: State, t: Stimulus, i: Instr) returns (p': Point)
    requires (p == AtReady || p == AtFetching) && At(p, dsp, c, b, s, i)
    ensures Follows(p, dsp, c, b, s, t, i, p', Nothing)
    ensures Heeds(p, s, i, t.line, p', Nothing)
  {
    hide *;
    AtFetchIs(p, dsp, c, b, s, i);
    FetchStart(dsp, c, b, s, t);
    p' := if t.done then AtFetched else AtFetching;
    AtFetchIs(p', dsp, Cycle(dsp, c, b, t).0, Cycle(dsp, c, b, t).1, s, i);
    WaitIs(c, b, t);
    Ranks(p);
    Ranks(p');
    HeedsIs(p, s, i, t.line, p', Nothing);
    FollowsIs(p, dsp, c, b, s, t, i, p', Nothing);
  }

  lemma FromFetched(dsp: bool, c: Core, b: Bus, s: State, t: Stimulus, i: Instr) returns (p': Point)
    requires Fetched(c, b, s)
    ensures Follows(AtFetched, dsp, c, b, s, t, i, p', Nothing)
    ensures Heeds(AtFetched, s, i, t.line, p', Nothing)
  {
    hide *;
    if s.meie && t.line {
      InterruptTaken(dsp, c, b, s, t);
      p' := AtInterrupt;
    } else {
      DecodeStage(dsp, c, b, s, t);
      p' := AtDecoded;
    }
    AtFetchIs(p', dsp, Cycle(dsp, c, b, t).0, Cycle(dsp, c, b, t).1, s, i);
    Ranks(p');
    HeedsIs(AtFetched, s, i, t.line, p', Nothing);
    FollowsIs(AtFetched, dsp, c, b, s, t, i, p', Nothing);
  }

  /** The next pc of an instruction does not depend on the interrupt line. */
  lemma LineIrrelevant(s: State, i: Instr, line: bool)
    ensures Execute(s, i, line).pc == Execute(s, i, false).pc
    ensures !i.Csrrw? ==> Execute(s, i, line) == Execute(s, i, false)
  {
  }

  lemma FromMemory(p: Point, dsp: bool, c: Core, b: Bus, s: State, t: Stimulus, i: Instr) returns (p': Point, e: Completion)
    requires p == AtDecoded || p == AtAccess
    requires if p == AtDecoded then CoreProof.Decoded(c, b, s) else Accessing(c, b, s)
    requires Fetches(s, i) && (i.Load? || i.Save?)
    ensures Follows(p, dsp, c, b, s, t, i, p', e)
    ensures Heeds(p, s, i, t.line, p', e)
  {
    hide *;
    StepMemory(dsp, c, b, s, t, i);
    p', e := if t.done then AtReady else AtAccess, if t.done then Instruction(i, t.line) else Nothing;
    AtFetchIs(p', dsp, Cycle(dsp, c, b, t).0, Cycle(dsp, c, b, t).1, s, i);
    WaitIs(c, b, t);
    Ranks(p);
    Ranks(p');
    HeedsIs(p, s, i, t.line, p', e);
    FollowsIs(p, dsp, c, b, s, t, i, p', e);
  }

  lemma SlowFacts(c: Core, b: Bus, s: State, i: Instr)
    requires Holding(c, b, s) && Fetches(s, i) && i.OpReg?
    ensures c.data.dec.op == HwOf(i.op).0 && KindOf(c.data.dec.opcode) == Plain
  {
    hide *;
    HeldInstr(c, b, s, i);
    DecodeOpReg(i.op, i.rd, i.rs1, i.rs2);
    Kinds();
  }

  lemma FactorFits(x: Multiplier.u64)
    ensures x < Arith.Pow2(64)
  {
    Multiplier.Pow2Of64();
  }

  lemma AtIs(p: Point, dsp: bool, c: Core, b: Bus, s: State, i: Instr)
    ensures p.AtMultiply? ==>
      (At(p, dsp, c, b, s, i) <==>
       Multiplying(c, b, s) && !dsp && i.OpReg? && MulKind(i.op) && p.left <= 64 && c.data.mul.s2 < Arith.Pow2(p.left))
    ensures p.AtDivide? ==> (At(p, dsp, c, b, s, i) <==> InDivision(c, b, s, p.steps) && i.OpReg? && DivKind(i.op))
    ensures p == AtSystemStage ==>
      (At(p, dsp, c, b, s, i) <==> AtSystem(c, b, s) && (i.Ecall? || i.Ebreak? || i.Mret? || i.Csrrw?))
    ensures p.AtCsrStage? ==> (At(p, dsp, c, b, s, i) <==> AtCsr(c, b, s, i, p.line))
    ensures p == AtTrap ==>
      (At(p, dsp, c, b, s, i) <==>
       (i.Ecall? && Trapping(c, b, s, CAUSE_ECALL)) || (i.Ebreak? && Trapping(c, b, s, CAUSE_BREAK)))
  {
    hide Multiplying, InDivision, AtSystem, AtCsr, Trapping;
  }

  /** The first clock of a multiplication or division. */
  lemma FromSlow(dsp: bool, c: Core, b: Bus, s: State, t: Stimulus, i: Instr) returns (p': Point, e: Completion)
    requires CoreProof.Decoded(c, b, s) && Fetches(s, i) && i.OpReg? && (MulKind(i.op) || DivKind(i.op))
    requires Aligned(Execute(s, i, t.line))
    ensures Follows(AtDecoded, dsp, c, b, s, t, i, p', e)
    ensures Heeds(AtDecoded, s, i, t.line, p', e)
  {
    hide *;
    Held(c, b, s);
    SlowFacts(c, b, s, i);
    SlowKinds(i.op);
    if MulKind(i.op) {
      if dsp {
        MultiplyEnds(dsp, c, b, s, t, i);
        p', e := AtReady, Instruction(i, t.line);
      } else {
        MultiplyGoesOn(c, b, s, t);
        p', e := AtMultiply(64), Nothing;
        FactorFits(Cycle(false, c, b, t).0.data.mul.s2);
      }
    } else {
      DivideBegins(dsp, c, b, s, t);
      p', e := AtDivide(0), Nothing;
    }
    AtIs(p', dsp, Cycle(dsp, c, b, t).0, Cycle(dsp, c, b, t).1, s, i);
    Ranks(p');
    HeedsIs(AtDecoded, s, i, t.line, p', e);
    FollowsIs(AtDecoded, dsp, c, b, s, t, i, p', e);
  }

  lemma FromSystem(dsp: bool, c: Core, b: Bus, s: State, t: Stimulus, i: Instr) returns (p': Point, e: Completion)
    requires CoreProof.Decoded(c, b, s) && Fetches(s, i) && (i.Ecall? || i.Ebreak? || i.Mret? || i.Csrrw?)
    ensures Follows(AtDecoded, dsp, c, b, s, t, i, p', e)
    ensures Heeds(AtDecoded, s, i, t.line, p', e)
  {
    hide *;
    Held(c, b, s);
    HeldInstr(c, b, s, i);
    if i.Csrrw? {
      ExecuteCsr(s, i, t.line);
      DecodeCsrrw(i.rd, i.rs1, i.csr);
    } else {
      ExecuteSystem(s, i, t.line);
      DecodeSystem(if i.Ecall? then 0 else if i.Ebreak? then 1 else 0x302);
    }
    Kinds();
    ExecSystem(dsp, c, b, s, t);
    p', e := AtSystemStage, Nothing;
    AtIs(p', dsp, Cycle(dsp, c, b, t).0, Cycle(dsp, c, b, t).1, s, i);
    Ranks(p');
    HeedsIs(AtDecoded, s, i, t.line, p', e);
    FollowsIs(AtDecoded, dsp, c, b, s, t, i, p', e);
  }

  /** The first clock of the execution stage. */
  lemma FromDecoded(dsp: bool, c: Core, b: Bus, s: State, t: Stimulus, i: Instr) returns (p': Point, e: Completion)
    requires CoreProof.Decoded(c, b, s) && Fetches(s, i) && Aligned(Execute(s, i, false))
    ensures Follows(AtDecoded, dsp, c, b, s, t, i, p', e)
    ensures Heeds(AtDecoded, s, i, t.line, p', e)
  {
    p', e := AtReady, Instruction(i, t.line);
    hide *;
    LineIrrelevant(s, i, t.line);
    AlignedIs(Execute(s, i, t.line));
    AlignedIs(Execute(s, i, false));
    match i {
      case Lui(_, _) => StepUpper(dsp, c, b, s, t, i);
      case Auipc(_, _) => StepUpper(dsp, c, b, s, t, i);
      case Jal(_, _) => StepJump(dsp, c, b, s, t, i);
      case Jalr(_, _, _) => StepJump(dsp, c, b, s, t, i);
      case Branch(_, _, _, _) => StepBranch(dsp, c, b, s, t, i);
      case OpImm(_, _, _, _) => StepOpImm(dsp, c, b, s, t, i);
      case Fence(_) => StepFence(dsp, c, b, s, t, i);
      case Load(_, _, _, _) => p', e := FromMemory(AtDecoded, dsp, c, b, s, t, i);
      case Save(_, _, _, _) => p', e := FromMemory(AtDecoded, dsp, c, b, s, t, i);
      case OpReg(op, _, _, _) =>
        SlowKinds(op);
        if MulKind(op) || DivKind(op) {
          p', e := FromSlow(dsp, c, b, s, t, i);
        } else {
          StepOpReg(dsp, c, b, s, t, i);
        }
      case _ => p', e := FromSystem(dsp, c, b, s, t, i);
    }
    HeedsIs(AtDecoded, s, i, t.line, p', e);
    FollowsIs(AtDecoded, dsp, c, b, s, t, i, p', e);
  }

  lemma FromMultiply(left: nat, c: Core, b: Bus, s: State, t: Stimulus, i: Instr) returns (p': Point, e: Completion)
    requires At(AtMultiply(left), false, c, b, s, i) && Fetches(s, i) && Aligned(Execute(s, i, t.line))
    ensures Follows(AtMultiply(left), false, c, b, s, t, i, p', e)
    ensures Heeds(AtMultiply(left), s, i, t.line, p', e)
  {
    hide *;
    AtIs(AtMultiply(left), false, c, b, s, i);
    MultiplyHeld(c, b, s);
    SlowFacts(c, b, s, i);
    MultiplyParts(c, b, s);
    if c.data.mul.s2 == 0 {
      MultiplyEnds(false, c, b, s, t, i);
      p', e := AtReady, Instruction(i, t.line);
    } else {
      MultiplyGoesOn(c, b, s, t);
      Multiplier.HalfFits(c.data.mul.s2, left);
      p', e := AtMultiply(left - 1), Nothing;
      ExecCycle(false, c, b, t);
      ExecControls(c);
      ExecRising(false, ExecCtl(c), c.data, b, t.line);
      MulInIs(ExecCtl(c), c.data);
      Multiplier.MultiplyStep(c.data.mul, MulIn(ExecCtl(c), c.data));
      AtIs(p', false, Cycle(false, c, b, t).0, Cycle(false, c, b, t).1, s, i);
      Ranks(p');
    }
    Ranks(AtMultiply(left));
    HeedsIs(AtMultiply(left), s, i, t.line, p', e);
    FollowsIs(AtMultiply(left), false, c, b, s, t, i, p', e);
  }

  lemma FromDivide(steps: nat, dsp: bool, c: Core, b: Bus, s: State, t: Stimulus, i: Instr) returns (p': Point, e: Completion)
    requires At(AtDivide(steps), dsp, c, b, s, i) && Fetches(s, i) && Aligned(Execute(s, i, t.line))
    ensures Follows(AtDivide(steps), dsp, c, b, s, t, i, p', e)
    ensures Heeds(AtDivide(steps), s, i, t.line, p', e)
  {
    hide *;
    AtIs(AtDivide(steps), dsp, c, b, s, i);
    var h := DivisionParts(c, b, s, steps);
    SlowFacts(c, b, s, i);
    if steps == 33 {
      DivideEnds(dsp, c, b, s, t, i);
      p', e := AtReady, Instruction(i, t.line);
    } else {
      DivideGoesOn(dsp, c, b, s, t, steps);
      p', e := AtDivide(steps + 1), Nothing;
      AtIs(p', dsp, Cycle(dsp, c, b, t).0, Cycle(dsp, c, b, t).1, s, i);
      Ranks(p');
    }
    Ranks(AtDivide(steps));
    HeedsIs(AtDivide(steps), s, i, t.line, p', e);
    FollowsIs(AtDivide(steps), dsp, c, b, s, t, i, p', e);
  }

  lemma FromSystemStage(dsp: bool, c: Core, b: Bus, s: State, t: Stimulus, i: Instr) returns (p': Point, e: Completion)
    requires At(AtSystemStage, dsp, c, b, s, i) && Fetches(s, i)
    ensures Follows(AtSystemStage, dsp, c, b, s, t, i, p', e)
    ensures Heeds(AtSystemStage, s, i, t.line, p', e)
  {
    hide *;
    AtIs(AtSystemStage, dsp, c, b, s, i);
    if i.Csrrw? {
      CsrReads(dsp, c, b, s, t, i);
      p', e := AtCsrStage(t.line), Nothing;
    } else {
      SystemStage(dsp, c, b, s, t, i);
      p', e := if i.Mret? then AtReady else AtTrap, if i.Mret? then Instruction(i, t.line) else Nothing;
    }
    AtIs(p', dsp, Cycle(dsp, c, b, t).0, Cycle(dsp, c, b, t).1, s, i);
    Ranks(p');
    Ranks(AtSystemStage);
    HeedsIs(AtSystemStage, s, i, t.line, p', e);
    FollowsIs(AtSystemStage, dsp, c, b, s, t, i, p', e);
  }

  lemma EncodableIs(s: State, i: Instr)
    requires Fetches(s, i)
    ensures Encodable(i)
  {
  }

  lemma InterruptIs(s: State)
    ensures Interrupt(s) == Trap(s, CAUSE_INTERRUPT)
  {
  }

  lemma FromLast(p: Point, dsp: bool, c: Core, b: Bus, s: State, t: Stimulus, i: Instr) returns (p': Point, e: Completion)
    requires (p.AtCsrStage? || p == AtTrap || p == AtInterrupt) && At(p, dsp, c, b, s, i) && Fetches(s, i)
    ensures Follows(p, dsp, c, b, s, t, i, p', e) && e != Nothing
    ensures Heeds(p, s, i, t.line, p', e)
  {
    hide *;
    AtIs(p, dsp, c, b, s, i);
    AtFetchIs(p, dsp, c, b, s, i);
    EncodableIs(s, i);
    InterruptIs(s);
    p' := AtReady;
    if p.AtCsrStage? {
      CsrEnds(dsp, c, b, s, t, i, p.line);
      e := Instruction(i, p.line);
    } else if p == AtTrap {
      ExecuteSystem(s, i, t.line);
      TrapEnds(dsp, c, b, s, t, if i.Ecall? then CAUSE_ECALL else CAUSE_BREAK);
      e := Instruction(i, t.line);
    } else {
      TrapEnds(dsp, c, b, s, t, CAUSE_INTERRUPT);
      e := Interrupted;
    }
    HeedsIs(p, s, i, t.line, p', e);
    FollowsIs(p, dsp, c, b, s, t, i, p', e);
  }

  /** Every clock keeps the core in step with the ISA: it completes nothing, the instruction, or
      an interrupt in place of the instruction. */
  lemma Simulates(p: Point, dsp: bool, c: Core, b: Bus, s: State, t: Stimulus, i: Instr) returns (p': Point, e: Completion)
    requires At(p, dsp, c, b, s, i) && Fetches(s, i) && Aligned(Execute(s, i, false))
    ensures Follows(p, dsp, c, b, s, t, i, p', e) && Heeds(p, s, i, t.line, p', e)
  {
    hide *;
    LineIrrelevant(s, i, t.line);
    AlignedIs(Execute(s, i, t.line));
    AlignedIs(Execute(s, i, false));
    AtFetchIs(p, dsp, c, b, s, i);
    AtIs(p, dsp, c, b, s, i);
    e := Nothing;
    match p {
      case AtReady => p' := FromFetch(p, dsp, c, b, s, t, i);
      case AtFetching => p' := FromFetch(p, dsp, c, b, s, t, i);
      case AtFetched => p' := FromFetched(dsp, c, b, s, t, i);
      case AtDecoded => p', e := FromDecoded(dsp, c, b, s, t, i);
      case AtAccess => p', e := FromMemory(p, dsp, c, b, s, t, i);
      case AtMultiply(left) => p', e := FromMultiply(left, c, b, s, t, i);
      case AtDivide(steps) => p', e := FromDivide(steps, dsp, c, b, s, t, i);
      case AtSystemStage => p', e := FromSystemStage(dsp, c, b, s, t, i);
      case _ => p', e := FromLast(p, dsp, c, b, s, t, i);
    }
  }

  lemma DivisionBusy(c: Core, b: Bus, s: State, n: nat)
    requires InDivision(c, b, s, n)
    ensures c.data.div.state != 0 && c.ctl.prevstate == Exec
  {
    hide Holding, QuotientOf, OnDivider;
  }

  /** The stage of the next clock, as far as the interrupt line matters to it. */
  lemma StageAt(p: Point, dsp: bool, c: Core, b: Bus, s: State, i: Instr)
    requires At(p, dsp, c, b, s, i)
    ensures StageOf(c, b) == Decoding <==> p == AtFetched
    ensures StageOf(c, b) == System <==> p == AtSystemStage
  {
    hide Common, Holding, DividerAt, Arith.Pow2, NewPc, Committed, BusData, QuotientOf, ProductOf, Multiplier.Total, OnDivider;
    hide OnMultiplier, MulKind, DivKind, SetReg, ReadStatus, Imm12, Decode, FieldsOf;
    if p.AtDivide? {
      DivisionBusy(c, b, s, p.steps);
    }
  }
}
