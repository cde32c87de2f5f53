/** The core as hardware: its two banks of registers, changed in place by the two edges of a clock. */
module CoreUnit {
  import opened Words
  import opened Machine
  import opened Decoder
  import opened CoreClock
  import CoreProof
  import CoreRefines
  import CoreRuns
  import Isa
  import Divider
  import Multiplier

  lemma SameNewPc(c: Core, c': Core)
    requires c'.data == c.data && c'.ctl == c.ctl.(en := c'.ctl.en, prevstate := c'.ctl.prevstate)
    ensures NewPc(c') == NewPc(c)
  {
  }

  class Spu32 {
    const dsp: bool     // ALU_MULDSP
    var ctl: Ctl        // registers of the falling edge
    var data: Data      // registers of the rising edge

    /** The core under reset. */
    constructor (dsp: bool, ctl: Ctl, data: Data)
      ensures this.dsp == dsp && this.data == data && this.ctl == ctl.(prevstate := Reset, nextstate := Reset)
    {
      this.dsp, this.ctl, this.data := dsp, ctl.(prevstate := Reset, nextstate := Reset), data;
    }

    /** The stage for SYSTEM instructions. */
    method SystemStage()
      modifies this`ctl
      ensures ctl == InSystem(old(ctl), data.dec)
    {
      ctl := ctl.(nextstate := Trap1);
      if data.dec.funct3 == 0 {
        var f := data.dec.imm % 0x1000;
        if f == 0 {
          ctl := ctl.(mcause := Isa.CAUSE_ECALL);
        } else if f == 1 {
          ctl := ctl.(mcause := Isa.CAUSE_BREAK);
        } else if f == 0x302 {
          ctl := ctl.(meie := ctl.meiePrev, pcnext := ctl.epc, mcause := 0, nextstate := Fetch);
        } else {
          ctl := ctl.(mcause := CAUSE_INVALID);
        }
      } else if data.dec.funct3 == 1 {
        ctl := ctl.(en := OFF.(write := true), nextstate := Csr);
      } else {
        ctl := ctl.(mcause := CAUSE_INVALID);
      }
    }

    /** The write to a status register. */
    method CsrStage()
      modifies this`ctl
      ensures ctl == InCsr(old(ctl), data.dec, data.val1)
    {
      hide Align;
      var v := data.val1;
      if data.dec.imm / 0x800 % 2 == 0 {
        var sel := data.dec.imm % 4;
        if sel == 0 {
          ctl := ctl.(meie := v % 2 == 1, meiePrev := v / 2 % 2 == 1);
        } else if sel == 1 {
          ctl := ctl.(mcause := v / 0x8000_0000 * 16 + v % 16);
        } else if sel == 2 {
          ctl := ctl.(epc := Align(v));
        } else {
          ctl := ctl.(evect := Align(v));
        }
      }
      ctl := ctl.(nextstate := Fetch);
    }

    method ExecStage()
      modifies this`ctl
      ensures ctl == InExec(old(ctl), data.dec, data.nextpc)
    {
      hide Align, KindOf;
      ctl := ctl.(pcnext := Align(data.nextpc), en := OFF.(alu := true), writeback := data.dec.writeback, nextstate := Fetch);
      match KindOf(data.dec.opcode) {
        case Plain =>
        case Memory => ctl := ctl.(en := OFF.(alu := true, bus := true), addrPc := false, busOp := data.dec.busop);
        case Jump => ctl := ctl.(fromAlu := true);
        case Conditional => ctl := ctl.(en := OFF.(alu := true, bru := true, branch := true), fromBru := true);
        case Special => ctl := ctl.(nextstate := System);
        case Unknown => ctl := ctl.(nextstate := Trap1);
      }
    }

    method FetchStage()
      modifies this`ctl
      ensures ctl == old(ctl).(en := OFF.(write := old(ctl).writeback, bus := true), writeback := false,
                               pc := NewPc(Core(old(ctl), data)), busOp := ReadW, addrPc := true, nextstate := Decoding)
    {
      hide Align;
      ctl := ctl.(en := OFF.(write := ctl.writeback), writeback := false);
      ctl := ctl.(pc := if ctl.fromAlu then Align(data.result) else ctl.pcnext);
      if ctl.fromBru {
        ctl := ctl.(pc := Align(data.nextpc));
      }
      ctl := ctl.(en := ctl.en.(bus := true), busOp := ReadW, addrPc := true, nextstate := Decoding);
    }

    method DecodeStage(line: bool)
      modifies this`ctl
      ensures ctl == var k := old(ctl).(fromAlu := false, fromBru := false, en := OFF.(dec := true, read := true, bru := true));
                     if k.meie && line then k.(mcause := Isa.CAUSE_INTERRUPT, nextstate := Trap1) else k.(nextstate := Exec)
    {
      ctl := ctl.(fromAlu := false, fromBru := false, en := OFF.(dec := true, read := true, bru := true), nextstate := Exec);
      if ctl.meie && line {
        ctl := ctl.(mcause := Isa.CAUSE_INTERRUPT, nextstate := Trap1);
      }
    }

    /** One falling edge. */
    method FallingEdge(b: Bus, line: bool)
      modifies this`ctl
      ensures ctl == Falling(Core(old(ctl), data), b, line)
    {
      hide InExec, InSystem, InCsr, NewPc, Busy;
      var state := if Busy(data, b) then ctl.prevstate else ctl.nextstate;
      ctl := ctl.(en := OFF, prevstate := state);
      SameNewPc(Core(old(ctl), data), Core(ctl, data));
      match state {
        case Reset =>
          ctl := ctl.(pcnext := VECTOR_RESET, evect := VECTOR_EXCEPTION, meie := false, nextstate := Fetch,
                      fromAlu := false, fromBru := false, writeback := false);
        case Fetch => FetchStage();
        case Decoding => DecodeStage(line);
        case Exec => ExecStage();
        case Trap1 => ctl := ctl.(meiePrev := ctl.meie, meie := false, epc := ctl.pc, pcnext := ctl.evect, nextstate := Fetch);
        case System => SystemStage();
        case Csr => CsrStage();
      }
    }

    /** The rising edge in registers.v. */
    method RegisterFile(b: Bus, line: bool) returns (regs: Regs, val1: u32, val2: u32)
      ensures regs == if ctl.en.write then SetReg(data.regfile, data.dec.rd, RegInput(ctl, data, b, line)) else data.regfile
      ensures var f := FieldsOf(BusData(data, b));
              (val1, val2) == if ctl.en.read then (data.regfile[Rs1Of(f)], data.regfile[f.rs2]) else (data.val1, data.val2)
    {
      hide RegInput, BusData, FieldsOf, Rs1Of;
      regs, val1, val2 := data.regfile, data.val1, data.val2;
      if ctl.en.write && data.dec.rd != 0 {
        regs := regs[data.dec.rd := RegInput(ctl, data, b, line)];
      }
      if ctl.en.read {
        var f := FieldsOf(BusData(data, b));
        val1, val2 := data.regfile[Rs1Of(f)], data.regfile[f.rs2];
      }
    }

    /** The rising edge in branch.v. */
    method BranchUnit() returns (nextpc: u32)
      ensures nextpc == if ctl.en.bru
                        then Word(ctl.pc + if ctl.en.branch && Branching(data.dec.mask, First(data), Second(data)) then data.dec.imm else 4)
                        else data.nextpc
    {
      hide Branching, First, Second;
      nextpc := data.nextpc;
      if ctl.en.bru {
        var dest := if ctl.en.branch && Branching(data.dec.mask, First(data), Second(data)) then data.dec.imm else 4;
        nextpc := Word(ctl.pc + dest);
      }
    }

    /** One rising edge: every unit takes its inputs from before the edge. */
    method RisingEdge(b: Bus, line: bool)
      modifies this`data
      ensures data == Rising(dsp, ctl, old(data), b, line)
    {
      hide AluOut, Branching, First, Second, MulIn, DivIn, Word, Multiplier.MulNext, Divider.Next, RegInput, BusData;
      hide Decode, FieldsOf, Rs1Of, SetReg;
      var regs, val1, val2 := RegisterFile(b, line);
      var nextpc := BranchUnit();
      data := Data(
        ctl.pc,
        if ctl.en.alu then AluOut(dsp, data) else data.result,
        if dsp then data.mul else Multiplier.MulNext(data.mul, MulIn(ctl, data)),
        Divider.Next(data.div, DivIn(ctl, data)),
        if ctl.en.bus then ctl.busOp else data.lastOp,
        if ctl.en.dec then Decode(FieldsOf(BusData(data, b))) else data.dec,
        regs, val1, val2, nextpc);
    }

    /** A whole clock of core and surroundings. */
    method Clock(b: Bus, t: Stimulus) returns (b': Bus)
      modifies this`ctl, this`data
      ensures (Core(ctl, data), b') == Cycle(dsp, Core(old(ctl), old(data)), b, t)
    {
      hide Falling, Rising, BusNext, Address;
      FallingEdge(b, t.line);
      b' := BusNext(b, ctl.en.bus, ctl.busOp, Address(ctl, data), data.val2, t);
      RisingEdge(b, t.line);
    }

    /** Any number of clocks: the unit makes the steps of a run of the ISA. */
    method Run(b: Bus, ts: seq<Stimulus>, ghost s: Isa.State)
        returns (b': Bus, ghost run: seq<Isa.State>, ghost events: seq<CoreRefines.Completion>,
                 ghost p: CoreRefines.Point, ghost i: Isa.Instr)
      requires CoreProof.Ready(Core(ctl, data), b, s) && CoreRuns.SupportedFrom(s)
      modifies this`ctl, this`data
      ensures (Core(ctl, data), b') == CoreRuns.Clocks(dsp, Core(old(ctl), old(data)), b, ts)
      ensures CoreRuns.IsaRun(run, events) && run[0] == s && CoreRuns.WordRun(run, events)
      ensures CoreRuns.InStep(p, dsp, Core(ctl, data), b', run[|events|], i)
      ensures CoreRuns.Accounted(run, events, CoreRuns.Samples(dsp, Core(old(ctl), old(data)), b, ts), p)
    {
      hide *;
      ghost var c := Core(ctl, data);
      run, events, p, i := CoreRuns.CoreRun(dsp, c, b, s, ts);
      b' := b;
      var k: nat := 0;
      CoreRuns.ClocksStep(dsp, c, b, ts, 0);
      while k < |ts|
        invariant k <= |ts| && (Core(ctl, data), b') == CoreRuns.Clocks(dsp, c, b, ts[..k])
      {
        b' := Clock(b', ts[k]);
        CoreRuns.ClocksStep(dsp, c, b, ts, k);
        k := k + 1;
      }
      assert ts[..k] == ts;
    }
  }
}
