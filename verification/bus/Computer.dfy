/** The core together with a bus adapter and a slave. The wait line and the data lines the core sees are
    now made by the adapter; the core model with its abstract bus covers them. */
module Computer {
  import opened Words
  import opened Machine
  import opened Decoder
  import opened CoreClock
  import opened Lanes
  import opened CoreRuns
  import CoreRefines
  import CoreProof
  import Isa
  import Divider
  import Multiplier
  import BusSide

  datatype Computer = Computer(core: Core, side: BusSide.Side)

  /** What the interrupt line and the slave do in a clock. */
  datatype Input = Input(line: bool, choice: Choice)

  /** The lines from the core to the adapter (cpu/bus.v). */
  function RequestOf(k: Ctl, d: Data): Request {
    Request(
      k.busOp == WriteB || k.busOp == WriteH || k.busOp == WriteW,
      k.busOp == ReadH || k.busOp == ReadHU || k.busOp == WriteH,
      k.busOp == ReadW || k.busOp == WriteW,
      Address(k, d), ToLanes(d.val2))
  }

  /** The lines from the adapter to the core. */
  function Lines(y: Computer): Bus {
    Bus(BusSide.Memory(y.side), BusSide.Waiting(y.side), ToWord(BusSide.Buffer(y.side)))
  }

  /** A clock of the whole system. */
  function Clock(dsp: bool, y: Computer, i: Input): Computer {
    var k := Falling(y.core, Lines(y), i.line);
    Computer(Core(k, Rising(dsp, k, y.core.data, Lines(y), i.line)),
             BusSide.Clock(y.side, k.en.bus, RequestOf(k, y.core.data), i.choice))
  }

  /** While it waits the core repeats its request. */
  predicate Repeating(c: Core) {
    && c.ctl.en.bus && c.data.pcAlu == c.ctl.pc
    && ((c.ctl.prevstate == Fetch && c.ctl.addrPc && c.ctl.busOp == ReadW && c.ctl.pc == NewPc(c))
        || (c.ctl.prevstate == Exec && KindOf(c.data.dec.opcode) == Memory && !c.ctl.addrPc && c.ctl.busOp == c.data.dec.busop))
  }

  /** The system stands for the core with the abstract bus `b`. */
  ghost predicate Stands(y: Computer, b: Bus) {
    && b.waiting == BusSide.Waiting(y.side) && b.rdata == ToWord(BusSide.Buffer(y.side))
    && y.core.data.pcAlu == y.core.ctl.pc
    && if b.waiting then Repeating(y.core) && BusSide.Accessing(y.side, b.mem, RequestOf(y.core.ctl, y.core.data))
       else BusSide.Idle(y.side) && forall x: u32 :: b.mem(x) == BusSide.Memory(y.side)(x)
  }

  /** The stimulus of the abstract bus that a clock of adapter and slave amounts to. */
  function StimulusOf(y': Computer, i: Input): Stimulus {
    Stimulus(i.line, !BusSide.Waiting(y'.side), ToWord(BusSide.Buffer(y'.side)))
  }

  /** The core sees no more of the bus than its lines. */
  lemma FallingOfLines(c: Core, b: Bus, b': Bus, line: bool)
    requires b.waiting == b'.waiting
    ensures Falling(c, b, line) == Falling(c, b', line)
  {
    hide InExec, InSystem, InCsr, NewPc;
  }

  lemma DataOfLines(k: Ctl, d: Data, b: Bus, b': Bus, line: bool)
    requires b.rdata == b'.rdata
    ensures BusData(d, b) == BusData(d, b') && RegInput(k, d, b, line) == RegInput(k, d, b', line)
  {
    hide Extended, StatusData;
  }

  lemma RisingOfLines(dsp: bool, k: Ctl, d: Data, b: Bus, b': Bus, line: bool)
    requires b.rdata == b'.rdata
    ensures Rising(dsp, k, d, b, line) == Rising(dsp, k, d, b', line)
  {
    DataOfLines(k, d, b, b', line);
    hide Decode, FieldsOf, AluOut, Branching, MulIn, DivIn, BusData, SetReg, Word, RegInput, Rs1Of;
    hide Multiplier.MulNext, Divider.Next, First, Second;
  }

  /** The request of a waiting core stays. */
  lemma RequestStays(c: Core, b: Bus, line: bool)
    requires Repeating(c) && b.waiting
    ensures var k := Falling(c, b, line);
            k.en.bus && RequestOf(k, c.data) == RequestOf(c.ctl, c.data)
  {
    hide NewPc, Align, Sum;
  }

  lemma SystemQuiet(k: Ctl, d: Decoded)
    ensures !k.en.bus ==> !InSystem(k, d).en.bus
  {
    var n := InSystem(k, d);
    var f := d.imm % 0x1000;
    if d.funct3 == 0 {
      if f == 0 {
      } else if f == 1 {
      } else if f == 0x302 {
      }
    } else if d.funct3 == 1 {
    }
  }

  lemma StatusQuiet(k: Ctl, sel: nat, readOnly: bool, v: u32)
    ensures StatusWrite(k, sel, readOnly, v).en == k.en
  {
    hide Align;
    var n := StatusWrite(k, sel, readOnly, v);
    if readOnly {
    } else if sel == 0 {
    } else if sel == 1 {
    } else if sel == 2 {
    }
  }

  lemma CsrQuiet(k: Ctl, d: Decoded, v: u32)
    ensures InCsr(k, d, v).en == k.en
  {
    StatusQuiet(k, d.imm % 4, d.imm / 0x800 % 2 == 1, v);
    hide StatusWrite;
  }

  lemma UsesBusIs(d: Decoded)
    ensures CoreProof.UsesBus(d) <==> KindOf(d.opcode) == Memory
  {
  }

  lemma ExecAsks(c: Core, b: Bus, line: bool)
    requires StageOf(c, b) == Exec && Falling(c, b, line).en.bus
    ensures var k := Falling(c, b, line);
            && !k.en.dec && !k.en.read && k.prevstate == Exec && KindOf(c.data.dec.opcode) == Memory && !k.addrPc
            && k.busOp == c.data.dec.busop && k.pc == c.ctl.pc
  {
    CoreProof.ExecEdge(c, b, line);
    CoreProof.ExecControls(c);
    CoreProof.ExecKeeps(c);
    hide *;
    UsesBusIs(c.data.dec);
  }

  /** The controls when a request is made: it is a fetch, or a load or store. */
  lemma AskingControls(c: Core, b: Bus, line: bool)
    requires Falling(c, b, line).en.bus
    ensures var k := Falling(c, b, line);
            && !k.en.dec && !k.en.read
            && ((k.prevstate == Fetch && k.addrPc && k.busOp == ReadW && k.pc == NewPc(c) && k.pcnext == c.ctl.pcnext
                 && k.fromBru == c.ctl.fromBru && k.fromAlu == c.ctl.fromAlu && !k.en.alu && !k.en.bru)
                || (k.prevstate == Exec && KindOf(c.data.dec.opcode) == Memory && !k.addrPc
                    && k.busOp == c.data.dec.busop && k.pc == c.ctl.pc))
  {
    var k := c.ctl.(en := OFF, prevstate := StageOf(c, b));
    hide NewPc, KindOf, InExec, InSystem, InCsr, StageOf;
    match StageOf(c, b) {
      case Fetch =>
      case Exec => ExecAsks(c, b, line);
      case System => SystemQuiet(k, c.data.dec);
      case Csr => CsrQuiet(k, c.data.dec, c.data.val1);
      case _ =>
    }
  }

  lemma RisingKeeps(dsp: bool, k: Ctl, d: Data, b: Bus, line: bool)
    requires !k.en.dec && !k.en.read
    ensures var d' := Rising(dsp, k, d, b, line);
            && d'.pcAlu == k.pc && d'.dec == d.dec && d'.val1 == d.val1 && d'.val2 == d.val2
            && (!k.en.alu ==> d'.result == d.result) && (!k.en.bru ==> d'.nextpc == d.nextpc)
  {
    hide Decode, FieldsOf, AluOut, Branching, MulIn, DivIn, BusData, SetReg, Word, RegInput, Rs1Of;
    hide Multiplier.MulNext, Divider.Next, First, Second;
  }

  lemma SameSum(d: Data, d': Data)
    requires d'.pcAlu == d.pcAlu && d'.dec == d.dec && d'.val1 == d.val1 && d'.val2 == d.val2
    ensures Sum(d') == Sum(d)
  {
  }

  lemma SameNewPc(c: Core, c': Core)
    requires c'.ctl.fromBru == c.ctl.fromBru && c'.ctl.fromAlu == c.ctl.fromAlu && c'.ctl.pcnext == c.ctl.pcnext
    requires c'.data.nextpc == c.data.nextpc && c'.data.result == c.data.result
    ensures NewPc(c') == NewPc(c)
  {
  }

  lemma SameRequest(k: Ctl, d: Data, d': Data)
    requires d'.val2 == d.val2 && Address(k, d') == Address(k, d)
    ensures RequestOf(k, d') == RequestOf(k, d)
  {
    hide Address;
  }

  /** A core that has a request on the bus will repeat it. */
  lemma WillRepeat(dsp: bool, c: Core, b: Bus, line: bool)
    requires c.data.pcAlu == c.ctl.pc && Falling(c, b, line).en.bus
    ensures var k := Falling(c, b, line);
            var c' := Core(k, Rising(dsp, k, c.data, b, line));
            Repeating(c') && RequestOf(k, c'.data) == RequestOf(k, c.data)
  {
    var k := Falling(c, b, line);
    var d' := Rising(dsp, k, c.data, b, line);
    AskingControls(c, b, line);
    RisingKeeps(dsp, k, c.data, b, line);
    hide Falling, Rising, NewPc, Sum, RequestOf, KindOf;
    if k.prevstate == Fetch {
      SameNewPc(c, Core(k, d'));
    } else {
      SameSum(c.data, d');
    }
    SameRequest(k, c.data, d');
  }

  lemma RequestProper(k: Ctl, d: Data)
    ensures Proper(RequestOf(k, d))
  {
    hide Address;
  }

  /** What a clock does to the abstract bus. */
  function BusAfter(y: Computer, b: Bus, y': Computer, i: Input): Bus {
    var k := y'.core.ctl;
    BusNext(b, k.en.bus, k.busOp, Address(k, y.core.data), y.core.data.val2, StimulusOf(y', i))
  }

  /** A finished access is the access of the abstract bus. */
  lemma FinishedIs(op: BusOp, m: Mem, m': Mem, r: Request, out: Lane4, v: u32)
    requires r.write <==> op == WriteB || op == WriteH || op == WriteW
    requires r.half <==> op == ReadH || op == ReadHU || op == WriteH
    requires r.full <==> op == ReadW || op == WriteW
    requires r.data == ToLanes(v) && Written(m, m', r) && (!r.write ==> Delivered(m, r, out))
    ensures var n: Mem := if WriteWidth(op) == 0 then m else Store(m, r.addr, WriteWidth(op), v);
            forall x: u32 :: n(x) == m'(x)
    ensures ReadData(op, m, r.addr, ToWord(out)) == ToWord(out)
  {
    if r.write {
      WrittenIsStore(m, m', r, v);
      hide Store, Written, ToLanes;
    } else {
      DeliveredIsLoad(m, r, out);
      hide Load8, Load16, Load32, ToWord, Delivered, Store;
    }
  }

  lemma StandsIs(y: Computer, b: Bus)
    ensures Stands(y, b) <==>
      (&& b.waiting == BusSide.Waiting(y.side) && b.rdata == ToWord(BusSide.Buffer(y.side))
       && y.core.data.pcAlu == y.core.ctl.pc
       && (b.waiting ==> Repeating(y.core) && BusSide.Accessing(y.side, b.mem, RequestOf(y.core.ctl, y.core.data)))
       && (!b.waiting ==> BusSide.Idle(y.side) && forall x: u32 :: b.mem(x) == BusSide.Memory(y.side)(x)))
  {
    hide Repeating, BusSide.Accessing, BusSide.Idle, BusSide.Waiting, BusSide.Buffer, BusSide.Memory, ToWord, RequestOf;
  }

  /** The request the core makes is the one under way, if there is one. */
  lemma Begins(y: Computer, b: Bus, line: bool)
    requires Stands(y, b)
    ensures var k := Falling(y.core, b, line);
            if k.en.bus then BusSide.Accessing(y.side, b.mem, RequestOf(k, y.core.data)) else !b.waiting
  {
    StandsIs(y, b);
    var k := Falling(y.core, b, line);
    if b.waiting {
      RequestStays(y.core, b, line);
    } else {
      RequestProper(k, y.core.data);
      BusSide.Starts(y.side, b.mem, RequestOf(k, y.core.data));
    }
    hide *;
  }

  lemma PcAluIs(dsp: bool, k: Ctl, d: Data, b: Bus, line: bool)
    ensures Rising(dsp, k, d, b, line).pcAlu == k.pc
  {
    hide Decode, FieldsOf, AluOut, Branching, MulIn, DivIn, BusData, SetReg, Word, RegInput, Rs1Of;
    hide Multiplier.MulNext, Divider.Next, First, Second;
  }

  lemma ClockIs(dsp: bool, y: Computer, b: Bus, i: Input)
    requires Stands(y, b)
    ensures var k := Falling(y.core, b, i.line);
            var y' := Clock(dsp, y, i);
            && y'.core == Core(k, Rising(dsp, k, y.core.data, b, i.line)) && y'.core.data.pcAlu == y'.core.ctl.pc
            && y'.side == BusSide.Clock(y.side, k.en.bus, RequestOf(k, y.core.data), i.choice)
            && Cycle(dsp, y.core, b, StimulusOf(y', i)) == (y'.core, BusAfter(y, b, y', i))
  {
    StandsIs(y, b);
    FallingOfLines(y.core, b, Lines(y), i.line);
    RisingOfLines(dsp, Falling(y.core, b, i.line), y.core.data, b, Lines(y), i.line);
    PcAluIs(dsp, Falling(y.core, b, i.line), y.core.data, b, i.line);
    CoreProof.CycleIs(dsp, y.core, b, StimulusOf(Clock(dsp, y, i), i));
    hide Stands, Falling, Rising, BusSide.Clock, BusSide.Waiting, BusSide.Buffer, BusSide.Memory, RequestOf, BusNext, Address, Cycle, ToWord;
  }

  lemma NoAccess(y: Computer, b: Bus, y': Computer, i: Input)
    requires !y'.core.ctl.en.bus
    ensures BusAfter(y, b, y', i) == b.(waiting := false)
  {
  }

  lemma WaitingAccess(y: Computer, b: Bus, y': Computer, i: Input)
    requires y'.core.ctl.en.bus && BusSide.Waiting(y'.side)
    ensures BusAfter(y, b, y', i) == b.(waiting := true, rdata := ToWord(BusSide.Buffer(y'.side)))
  {
    hide ToWord;
  }

  lemma EndedAccess(y: Computer, b: Bus, y': Computer, i: Input)
    requires y'.core.ctl.en.bus && !BusSide.Waiting(y'.side)
    requires var r := RequestOf(y'.core.ctl, y.core.data);
             Written(b.mem, BusSide.Memory(y'.side), r) && (!r.write ==> Delivered(b.mem, r, BusSide.Buffer(y'.side)))
    ensures var b' := BusAfter(y, b, y', i);
            && !b'.waiting && b'.rdata == ToWord(BusSide.Buffer(y'.side))
            && forall x: u32 :: b'.mem(x) == BusSide.Memory(y'.side)(x)
  {
    var k := y'.core.ctl;
    FinishedIs(k.busOp, b.mem, BusSide.Memory(y'.side), RequestOf(k, y.core.data), BusSide.Buffer(y'.side), y.core.data.val2);
    hide Store, ReadData, Written, Delivered, ToWord, Address, ToLanes, WriteWidth;
    hide BusSide.Waiting, BusSide.Buffer, BusSide.Memory;
  }

  /** A clock of an access. */
  lemma AccessClock(dsp: bool, y: Computer, b: Bus, i: Input)
    requires Stands(y, b) && Falling(y.core, b, i.line).en.bus
    ensures var y' := Clock(dsp, y, i); Stands(y', BusAfter(y, b, y', i))
  {
    hide *;
    StandsIs(y, b);
    var k := Falling(y.core, b, i.line);
    var r := RequestOf(k, y.core.data);
    var y' := Clock(dsp, y, i);
    ClockIs(dsp, y, b, i);
    Begins(y, b, i.line);
    RequestProper(k, y.core.data);
    BusSide.Steps(y.side, b.mem, r, i.choice);
    BusSide.GoesHas(y.side, b.mem, r, i.choice, y'.side);
    WillRepeat(dsp, y.core, b, i.line);
    if BusSide.Waiting(y'.side) {
      WaitingAccess(y, b, y', i);
    } else {
      EndedAccess(y, b, y', i);
    }
    StandsIs(y', BusAfter(y, b, y', i));
  }

  /** A clock of the system is a clock of the core with the abstract bus. */
  lemma ClockRefines(dsp: bool, y: Computer, b: Bus, i: Input)
    requires Stands(y, b)
    ensures var y' := Clock(dsp, y, i);
            Cycle(dsp, y.core, b, StimulusOf(y', i)) == (y'.core, BusAfter(y, b, y', i)) && Stands(y', BusAfter(y, b, y', i))
  {
    hide *;
    StandsIs(y, b);
    var k := Falling(y.core, b, i.line);
    var y' := Clock(dsp, y, i);
    ClockIs(dsp, y, b, i);
    Begins(y, b, i.line);
    if k.en.bus {
      AccessClock(dsp, y, b, i);
    } else {
      BusSide.IdleStays(y.side, RequestOf(k, y.core.data), i.choice);
      NoAccess(y, b, y', i);
      StandsIs(y', BusAfter(y, b, y', i));
    }
  }

  /** The system after some clocks. */
  function Clocks(dsp: bool, y: Computer, inputs: seq<Input>): Computer {
    if inputs == [] then y else Clock(dsp, Clocks(dsp, y, inputs[..|inputs| - 1]), inputs[|inputs| - 1])
  }

  /** The interrupt line as the instructions meet it: one sample for every decoding clock. */
  function SamplesOf(dsp: bool, y: Computer, inputs: seq<Input>): seq<Sample> {
    if inputs == [] then []
    else
      var y1 := Clocks(dsp, y, inputs[..|inputs| - 1]);
      SampleNext(SamplesOf(dsp, y, inputs[..|inputs| - 1]), StageOf(y1.core, Lines(y1)), inputs[|inputs| - 1].line)
  }

  /** Memory and registers are those of an ISA state between two instructions of the system. */
  ghost predicate Resting(y: Computer, s: Isa.State) {
    && !BusSide.Waiting(y.side) && BusSide.Idle(y.side) && y.core.data.pcAlu == y.core.ctl.pc
    && CoreProof.Ready(y.core, Bus(s.mem, false, ToWord(BusSide.Buffer(y.side))), s)
    && forall x: u32 :: s.mem(x) == BusSide.Memory(y.side)(x)
  }

  /** Clocks left to the end of an access, if the slave does not hinder it. */
  ghost function LeftOf(y: Computer): int {
    if BusSide.Waiting(y.side) then BusSide.Left(y.side, RequestOf(y.core.ctl, y.core.data)) else BusSide.Longest(y.side)
  }

  predicate Good(i: Input) {
    !i.choice.stall && i.choice.ack
  }

  /** Clocks in which the slave does not hinder the access. */
  function GoodClocks(inputs: seq<Input>): nat {
    if inputs == [] then 0 else GoodClocks(inputs[..|inputs| - 1]) + if Good(inputs[|inputs| - 1]) then 1 else 0
  }

  lemma GoodIs(i: Input)
    ensures Good(i) <==> !i.choice.stall && i.choice.ack
  {
  }

  lemma LeftIs(y: Computer)
    ensures LeftOf(y) == if BusSide.Waiting(y.side) then BusSide.Left(y.side, RequestOf(y.core.ctl, y.core.data))
                         else BusSide.Longest(y.side)
    ensures BusSide.Longest(y.side) == if y.side.Wide? then 6 else 12
  {
    hide BusSide.Left, RequestOf, BusSide.Waiting;
  }

  /** An access under way comes nearer to its end. */
  lemma LeftFalls(dsp: bool, y: Computer, b: Bus, i: Input)
    requires Stands(y, b)
    ensures 1 <= LeftOf(y) <= BusSide.Longest(y.side)
    ensures var y' := Clock(dsp, y, i);
            && (y'.side.Wide? <==> y.side.Wide?)
            && if BusSide.Waiting(y'.side) then LeftOf(y') <= LeftOf(y) && (Good(i) ==> LeftOf(y') < LeftOf(y))
               else LeftOf(y') == BusSide.Longest(y'.side)
  {
    hide *;
    StandsIs(y, b);
    var k := Falling(y.core, b, i.line);
    var r := RequestOf(k, y.core.data);
    var y' := Clock(dsp, y, i);
    ClockIs(dsp, y, b, i);
    LeftIs(y);
    LeftIs(y');
    Begins(y, b, i.line);
    GoodIs(i);
    RequestProper(k, y.core.data);
    if b.waiting {
      RequestStays(y.core, b, i.line);
      BusSide.LeftBounds(y.side, b.mem, r);
    }
    if k.en.bus {
      BusSide.LeftBounds(y.side, b.mem, r);
      BusSide.Steps(y.side, b.mem, r, i.choice);
      BusSide.GoesHas(y.side, b.mem, r, i.choice, y'.side);
      WillRepeat(dsp, y.core, b, i.line);
    } else {
      BusSide.IdleStays(y.side, r, i.choice);
    }
  }

  /** Unhindered clocks left to the next completion: an access in each clock of the instruction, plus
      what is left of the one under way. */
  ghost function Work(p: CoreRefines.Point, y: Computer): int {
    (if y.side.Wide? then 7 * CoreRefines.Rank(p) else 13 * CoreRefines.Rank(p)) + LeftOf(y)
  }

  /** Unhindered clocks for `n` completions. */
  function Budget(wide: bool, n: nat): nat {
    if wide then 496 * n else 922 * n
  }

  lemma WorkBounds(p: CoreRefines.Point, dsp: bool, y: Computer, b: Bus)
    requires Stands(y, b)
    ensures 1 <= Work(p, y) && (CoreRefines.Rank(p) <= 70 ==> Work(p, y) <= Budget(y.side.Wide?, 1))
  {
    LeftFalls(dsp, y, b, Input(false, Choice(false, false)));
    LeftIs(y);
    hide LeftOf, CoreRefines.Rank, Stands, Clock, BusSide.Waiting, BusSide.Longest, Good;
  }

  /** Less is left after an unhindered clock that completes nothing, and no more after any other. */
  lemma WorkFalls(p: CoreRefines.Point, p': CoreRefines.Point, dsp: bool, y: Computer, b: Bus, i: Input)
    requires Stands(y, b)
    requires var y' := Clock(dsp, y, i);
             || CoreRefines.Rank(p') < CoreRefines.Rank(p)
             || (CoreRefines.Rank(p') <= CoreRefines.Rank(p) && BusSide.Waiting(y'.side))
    ensures Work(p', Clock(dsp, y, i)) + (if Good(i) then 1 else 0) <= Work(p, y)
  {
    var y' := Clock(dsp, y, i);
    LeftFalls(dsp, y, b, i);
    LeftIs(y);
    LeftIs(y');
    hide LeftOf, CoreRefines.Rank, Stands, Clock, BusSide.Waiting, BusSide.Longest, BusSide.Left, Good, RequestOf;
  }

  lemma StimulusIs(y': Computer, j: Input)
    ensures StimulusOf(y', j).line == j.line && StimulusOf(y', j).done == !BusSide.Waiting(y'.side)
  {
    hide ToWord, BusSide.Waiting, BusSide.Buffer;
  }

  lemma SameStage(y: Computer, b: Bus)
    requires b.waiting == BusSide.Waiting(y.side)
    ensures StageOf(y.core, Lines(y)) == StageOf(y.core, b)
  {
    hide BusSide.Waiting, BusSide.Memory, BusSide.Buffer, ToWord;
  }

  /** The clock as the core sees it. */
  lemma ClockFollows(p: CoreRefines.Point, dsp: bool, y: Computer, b: Bus, s: Isa.State, j: Input, i: Isa.Instr)
      returns (p': CoreRefines.Point, e: CoreRefines.Completion, b': Bus)
    requires Stands(y, b) && InStep(p, dsp, y.core, b, s, i)
    ensures var y' := Clock(dsp, y, j);
            && Stands(y', b') && CoreRefines.Follows(p, dsp, y.core, b, s, StimulusOf(y', j), i, p', e)
            && Cycle(dsp, y.core, b, StimulusOf(y', j)) == (y'.core, b') && (y'.side.Wide? <==> y.side.Wide?)
    ensures CoreRefines.Heeds(p, s, i, j.line, p', e) && (e.Instruction? ==> e.instr == i)
    ensures StageOf(y.core, Lines(y)) == Decoding <==> p == CoreRefines.AtFetched
    ensures StageOf(y.core, Lines(y)) == System <==> p == CoreRefines.AtSystemStage
    ensures e == CoreRefines.Nothing ==> Work(p', Clock(dsp, y, j)) + (if Good(j) then 1 else 0) <= Work(p, y)
  {
    hide *;
    var y' := Clock(dsp, y, j);
    var t := StimulusOf(y', j);
    InStepIs(p, dsp, y.core, b, s, i);
    ClockRefines(dsp, y, b, j);
    b' := BusAfter(y, b, y', j);
    p', e := CoreRefines.Simulates(p, dsp, y.core, b, s, t, i);
    CoreRefines.FollowsIs(p, dsp, y.core, b, s, t, i, p', e);
    LeftFalls(dsp, y, b, j);
    ClockIs(dsp, y, b, j);
    CoreRefines.WaitIs(y.core, b, t);
    StimulusIs(y', j);
    CoreRefines.StageAt(p, dsp, y.core, b, s, i);
    StandsIs(y, b);
    SameStage(y, b);
    CoreRefines.HeedsIs(p, s, i, j.line, p', e);
    if e == CoreRefines.Nothing {
      WorkFalls(p, p', dsp, y, b, j);
    }
  }

  lemma ReadyBus(c: Core, b: Bus, s: Isa.State)
    requires CoreProof.Ready(c, b, s)
    ensures !b.waiting && b.mem == s.mem
  {
    hide NewPc, CoreProof.Idle, CoreProof.Committed;
  }

  /** Between two instructions the memory of the ISA state is the slave's. */
  lemma SlaveMemory(p: CoreRefines.Point, dsp: bool, y: Computer, b: Bus, s: Isa.State, i: Isa.Instr)
    requires InStep(p, dsp, y.core, b, s, i) && Stands(y, b)
    ensures p == CoreRefines.AtReady ==> forall x: u32 :: s.mem(x) == BusSide.Memory(y.side)(x)
  {
    hide *;
    if p == CoreRefines.AtReady {
      InStepIs(p, dsp, y.core, b, s, i);
      CoreRefines.AtFetchIs(p, dsp, y.core, b, s, i);
      ReadyBus(y.core, b, s);
      StandsIs(y, b);
    }
  }

  lemma Begun(dsp: bool, y: Computer, b: Bus, s: Isa.State, i: Isa.Instr)
    requires CoreProof.Ready(y.core, b, s) && CoreProof.Fetches(s, i) && Isa.Aligned(Isa.Execute(s, i, false)) && Stands(y, b)
    ensures InStep(CoreRefines.AtReady, dsp, y.core, b, s, i)
    ensures Work(CoreRefines.AtReady, y) <= Budget(y.side.Wide?, 1)
  {
    hide *;
    CoreRefines.AtFetchIs(CoreRefines.AtReady, dsp, y.core, b, s, i);
    InStepIs(CoreRefines.AtReady, dsp, y.core, b, s, i);
    CoreRefines.Ranks(CoreRefines.AtReady);
    WorkBounds(CoreRefines.AtReady, dsp, y, b);
  }

  lemma StillInStep(p: CoreRefines.Point, dsp: bool, y: Computer, b: Bus, s: Isa.State, j: Input, i: Isa.Instr,
                    p': CoreRefines.Point, b': Bus)
    requires InStep(p, dsp, y.core, b, s, i)
    requires var t := StimulusOf(Clock(dsp, y, j), j);
             && CoreRefines.Follows(p, dsp, y.core, b, s, t, i, p', CoreRefines.Nothing)
             && Cycle(dsp, y.core, b, t) == (Clock(dsp, y, j).core, b')
    ensures InStep(p', dsp, Clock(dsp, y, j).core, b', s, i)
  {
    hide *;
    CoreRefines.FollowsIs(p, dsp, y.core, b, s, StimulusOf(Clock(dsp, y, j), j), i, p', CoreRefines.Nothing);
    InStepIs(p, dsp, y.core, b, s, i);
    InStepIs(p', dsp, Clock(dsp, y, j).core, b', s, i);
  }

  lemma Completed(p: CoreRefines.Point, dsp: bool, y: Computer, b: Bus, s: Isa.State, j: Input, i: Isa.Instr,
                  p': CoreRefines.Point, e: CoreRefines.Completion, b': Bus) returns (s': Isa.State)
    requires InStep(p, dsp, y.core, b, s, i) && e != CoreRefines.Nothing && (e.Instruction? ==> e.instr == i)
    requires var t := StimulusOf(Clock(dsp, y, j), j);
             && CoreRefines.Follows(p, dsp, y.core, b, s, t, i, p', e)
             && Cycle(dsp, y.core, b, t) == (Clock(dsp, y, j).core, b')
    ensures IsaStep(s, e, s') && CoreProof.Ready(Clock(dsp, y, j).core, b', s') && p' == CoreRefines.AtReady
  {
    hide *;
    CoreRefines.FollowsIs(p, dsp, y.core, b, s, StimulusOf(Clock(dsp, y, j), j), i, p', e);
    InStepIs(p, dsp, y.core, b, s, i);
    StepOf(s, e, i);
    s' := if e == CoreRefines.Interrupted then Isa.Interrupt(s) else Isa.Execute(s, i, e.line);
  }

  lemma RestingStands(y: Computer, s: Isa.State)
    requires Resting(y, s)
    ensures var b := Bus(s.mem, false, ToWord(BusSide.Buffer(y.side)));
            Stands(y, b) && CoreProof.Ready(y.core, b, s)
  {
    hide CoreProof.Ready, ToWord, BusSide.Idle, BusSide.Memory, BusSide.Buffer, BusSide.Waiting;
  }

  /** Whatever the slave's stalls and delays and the interrupt line do, the core behind either adapter
      makes the steps of a run of the ISA on the slave's memory, with an interrupt wherever the line asked
      for one in a decoding clock and interrupts were enabled, and nowhere else. Between instructions the
      memory of the run is the slave's, and every 496 clocks (922 with the 8-bit adapter) in which the slave does not
      hinder an access complete at least one step. */
  lemma {:induction false} SystemRun(dsp: bool, y: Computer, s: Isa.State, inputs: seq<Input>)
      returns (run: seq<Isa.State>, events: seq<CoreRefines.Completion>, p: CoreRefines.Point, i: Isa.Instr, b: Bus)
    requires Resting(y, s) && SupportedFrom(s)
    ensures IsaRun(run, events) && run[0] == s && WordRun(run, events)
    ensures InStep(p, dsp, Clocks(dsp, y, inputs).core, b, run[|events|], i) && Stands(Clocks(dsp, y, inputs), b)
    ensures p == CoreRefines.AtReady ==>
            forall x: u32 :: run[|events|].mem(x) == BusSide.Memory(Clocks(dsp, y, inputs).side)(x)
    ensures Clocks(dsp, y, inputs).side.Wide? <==> y.side.Wide?
    ensures Accounted(run, events, SamplesOf(dsp, y, inputs), p)
    ensures GoodClocks(inputs) + Work(p, Clocks(dsp, y, inputs)) <= Budget(y.side.Wide?, 1 + |events|)
    decreases |inputs|
  {
    hide Clock, Cycle, Stands, CoreRefines.At, CoreProof.Ready, Isa.Execute, Isa.Interrupt, CoreRefines.Rank, CoreProof.Fetches;
    hide IsaStep, SupportedFrom, Isa.Aligned, Resting, Work, LeftOf, InStep, CoreRefines.Follows, Good, ToWord;
    hide BusSide.Memory, BusSide.Buffer, Accounted, SampleNext, StageOf, CoreRefines.Heeds, Lines, WordStep;
    if inputs == [] {
      NothingAccounted(s);
      RestingStands(y, s);
      run, events, p, b := [s], [], CoreRefines.AtReady, Bus(s.mem, false, ToWord(BusSide.Buffer(y.side)));
      i := NextInstr(run, events);
      Begun(dsp, y, b, s, i);
    } else {
      var n := |inputs| - 1;
      run, events, p, i, b := SystemRun(dsp, y, s, inputs[..n]);
      var y1 := Clocks(dsp, y, inputs[..n]);
      var s1 := run[|events|];
      var p', e, b' := ClockFollows(p, dsp, y1, b, s1, inputs[n], i);
      var y2 := Clock(dsp, y1, inputs[n]);
      ghost var sofar, stage := SamplesOf(dsp, y, inputs[..n]), StageOf(y1.core, Lines(y1));
      if e == CoreRefines.Nothing {
        AccountWaits(run, events, sofar, p, i, stage, inputs[n].line, p');
        StillInStep(p, dsp, y1, b, s1, inputs[n], i, p', b');
      } else {
        WorkBounds(p, dsp, y1, b);
        var s2 := Completed(p, dsp, y1, b, s1, inputs[n], i, p', e, b');
        RunGrows(run, events, e, s2);
        AccountEnds(run, events, sofar, p, i, stage, inputs[n].line, p', e, s2);
        run, events := run + [s2], events + [e];
        i := NextInstr(run, events);
        Begun(dsp, y2, b', s2, i);
      }
      p, b := p', b';
    }
    SlaveMemory(p, dsp, Clocks(dsp, y, inputs), b, run[|events|], i);
    RunMeans(run, events);
  }

  lemma ResetStrobes(c: Core, b: Bus, line: bool)
    requires c.ctl.nextstate == Reset && !Busy(c.data, b)
    ensures !Falling(c, b, line).en.bus
  {
    hide Busy;
  }

  lemma NotBusy(d: Data, b: Bus)
    requires CoreProof.Idle(d) && !b.waiting
    ensures !Busy(d, b)
  {
  }

  /** After reset the system rests before the first instruction of its memory. */
  lemma SystemFromReset(dsp: bool, y: Computer, i: Input)
    requires y.core.ctl.nextstate == Reset && CoreProof.Idle(y.core.data)
    requires y.core.data.regfile[0] == 0 && y.core.ctl.epc % 4 == 0
    requires BusSide.Idle(y.side) && !BusSide.Waiting(y.side)
    ensures Resting(Clock(dsp, y, i),
                    Isa.State(0, y.core.data.regfile, BusSide.Memory(y.side), y.core.ctl.epc, 16,
                              y.core.ctl.mcause, false, y.core.ctl.meiePrev))
  {
    var b := Lines(y);
    var y' := Clock(dsp, y, i);
    var t := StimulusOf(y', i);
    FromReset(dsp, y.core, b, t);
    NotBusy(y.core.data, b);
    ResetStrobes(y.core, b, i.line);
    PcAluIs(dsp, Falling(y.core, b, i.line), y.core.data, b, i.line);
    CoreProof.CycleIs(dsp, y.core, b, t);
    BusSide.IdleStays(y.side, RequestOf(Falling(y.core, b, i.line), y.core.data), i.choice);
    hide CoreProof.Ready, CoreProof.Idle, Falling, Rising, Cycle, RequestOf, ToWord, BusSide.Clock, BusSide.Idle;
    hide BusSide.Waiting, BusSide.Memory, BusSide.Buffer;
  }
}
