/** Runs of the core as runs of the instruction set, and what that means for interrupts. */
module CoreRuns {
  import opened Words
  import opened Machine
  import opened Decoder
  import opened CoreClock
  import opened Isa
  import opened CoreProof
  import opened CoreRefines
  import WordIsa

  /** The word at the program counter is an instruction of the supported set whose target, if it
      jumps, is a multiple of 4. */
  ghost predicate Supported(s: State) {
    exists i: Instr :: Fetches(s, i) && Aligned(Execute(s, i, false))
  }

  /** One step of the ISA. */
  ghost predicate IsaStep(s: State, e: Completion, s': State) {
    match e
    case Nothing => false
    case Instruction(i, line) => Fetches(s, i) && s' == Execute(s, i, line)
    case Interrupted => s.meie && s' == Interrupt(s)
  }

  ghost predicate IsaRun(run: seq<State>, events: seq<Completion>) {
    && |run| == |events| + 1
    && forall k :: 0 <= k < |events| ==> IsaStep(run[k], events[k], run[k + 1])
  }

  /** The bytes at the program counter, put together. */
  function FetchedWord(s: State): u32 {
    WordIsa.ByteAt(s.mem, s.pc) + 0x100 * WordIsa.ByteAt(s.mem, s.pc + 1)
    + 0x1_0000 * WordIsa.ByteAt(s.mem, s.pc + 2) + 0x100_0000 * WordIsa.ByteAt(s.mem, s.pc + 3)
  }

  /** A step in terms of the instruction word in memory. */
  ghost predicate WordStep(s: State, e: Completion, s': State) {
    match e
    case Nothing => false
    case Instruction(_, line) => WordIsa.Means(s, FetchedWord(s), line, s')
    case Interrupted => s.meie && WordIsa.Trapped(s, 0x1B, s')
  }

  /** The run as one of the words in memory. */
  ghost predicate WordRun(run: seq<State>, events: seq<Completion>) {
    && |run| == |events| + 1
    && forall k :: 0 <= k < |events| ==> WordStep(run[k], events[k], run[k + 1])
  }

  lemma WordOf(x: u32)
    ensures Word(x) == x
  {
  }

  lemma FetchedIs(s: State, i: Instr)
    requires Fetches(s, i)
    ensures Encodable(i) && Encode(i) == FetchedWord(s)
  {
    hide Encode, Encodable, Load32, WordIsa.ByteAt, Word;
    WordIsa.LoadedBytes(s.mem, s.pc);
    assert Word(s.pc) == s.pc by {
      WordOf(s.pc);
    }
  }

  lemma InterruptMeans(s: State)
    ensures WordIsa.Trapped(s, 0x1B, Interrupt(s))
  {
  }

  /** Every run of the specification does what the instruction words in memory mean. */
  lemma RunMeans(run: seq<State>, events: seq<Completion>)
    requires IsaRun(run, events)
    ensures WordRun(run, events)
  {
    hide Execute, Interrupt, Fetches, WordIsa.Means, WordIsa.Trapped, FetchedWord;
    forall k | 0 <= k < |events|
      ensures WordStep(run[k], events[k], run[k + 1])
    {
      assert IsaStep(run[k], events[k], run[k + 1]);
      match events[k] {
        case Nothing =>
        case Interrupted => InterruptMeans(run[k]);
        case Instruction(i, line) =>
          FetchedIs(run[k], i);
          WordIsa.ExecuteMeans(run[k], i, line);
      }
    }
  }

  /** The program is supported wherever it goes. */
  ghost predicate SupportedFrom(s: State) {
    forall run: seq<State>, events: seq<Completion> :: IsaRun(run, events) && run[0] == s ==> Supported(run[|events|])
  }

  /** The core and its surroundings after some clocks. */
  function Clocks(dsp: bool, c: Core, b: Bus, ts: seq<Stimulus>): (Core, Bus) {
    if ts == [] then (c, b)
    else
      var (c1, b1) := Clocks(dsp, c, b, ts[..|ts| - 1]);
      Cycle(dsp, c1, b1, ts[|ts| - 1])
  }

  lemma ClocksStep(dsp: bool, c: Core, b: Bus, ts: seq<Stimulus>, k: nat)
    requires k <= |ts|
    ensures Clocks(dsp, c, b, ts[..0]) == (c, b)
    ensures k < |ts| ==> var (c1, b1) := Clocks(dsp, c, b, ts[..k]); Clocks(dsp, c, b, ts[..k + 1]) == Cycle(dsp, c1, b1, ts[k])
  {
    hide Cycle;
    if k < |ts| {
      assert ts[..k + 1][..k] == ts[..k];
    }
  }

  /** How many of the clocks were spent waiting for the bus. */
  function Waits(dsp: bool, c: Core, b: Bus, ts: seq<Stimulus>): nat {
    if ts == [] then 0
    else
      var (c1, b1) := Clocks(dsp, c, b, ts[..|ts| - 1]);
      Waits(dsp, c, b, ts[..|ts| - 1]) + if WaitClock(c1, b1, ts[|ts| - 1]) then 1 else 0
  }

  /** The interrupt line as an instruction meets it: in its decoding clock and, for SYSTEM instructions,
      in their own stage. */
  datatype Sample = Sample(decoded: bool, status: bool)

  function SampleNext(samples: seq<Sample>, stage: Stage, line: bool): seq<Sample> {
    if stage == Decoding then samples + [Sample(line, false)]
    else if stage == System && samples != [] then samples[|samples| - 1 := samples[|samples| - 1].(status := line)]
    else samples
  }

  /** One sample for every decoding clock, in order. */
  function Samples(dsp: bool, c: Core, b: Bus, ts: seq<Stimulus>): seq<Sample> {
    if ts == [] then []
    else
      var (c1, b1) := Clocks(dsp, c, b, ts[..|ts| - 1]);
      SampleNext(Samples(dsp, c, b, ts[..|ts| - 1]), StageOf(c1, b1), ts[|ts| - 1].line)
  }

  /** The interrupt is taken exactly if interrupts are enabled and the line asked for one in the decoding
      clock; csrrw reads the line of its own stage. */
  predicate Explains(s: State, e: Completion, m: Sample) {
    && (e == Interrupted <==> s.meie && m.decoded)
    && (e.Instruction? && e.instr.Csrrw? ==> e.line == m.status)
  }

  /** The events are the samples' doing, one for each; what is past its decoding clock has a sample too. */
  ghost predicate Accounted(run: seq<State>, events: seq<Completion>, samples: seq<Sample>, p: Point) {
    && |run| == |events| + 1
    && |samples| == |events| + (if PastDecode(p) then 1 else 0)
    && (forall k :: 0 <= k < |events| ==> Explains(run[k], events[k], samples[k]))
    && (PastDecode(p) ==>
        && (p == AtInterrupt <==> run[|events|].meie && samples[|events|].decoded)
        && (p.AtCsrStage? ==> p.line == samples[|events|].status))
  }

  lemma AccountWaits(run: seq<State>, events: seq<Completion>, samples: seq<Sample>, p: Point, i: Instr,
                     stage: Stage, line: bool, p': Point)
    requires Accounted(run, events, samples, p) && Heeds(p, run[|events|], i, line, p', Nothing)
    requires (stage == Decoding <==> p == AtFetched) && (stage == System <==> p == AtSystemStage)
    ensures Accounted(run, events, SampleNext(samples, stage, line), p')
  {
    hide Explains;
  }

  lemma AccountEnds(run: seq<State>, events: seq<Completion>, samples: seq<Sample>, p: Point, i: Instr,
                    stage: Stage, line: bool, p': Point, e: Completion, s: State)
    requires Accounted(run, events, samples, p) && Heeds(p, run[|events|], i, line, p', e) && e != Nothing
    requires (stage == Decoding <==> p == AtFetched) && (stage == System <==> p == AtSystemStage)
    ensures Accounted(run + [s], events + [e], SampleNext(samples, stage, line), p')
  {
    var samples' := SampleNext(samples, stage, line);
    forall k | 0 <= k < |events + [e]|
      ensures Explains((run + [s])[k], (events + [e])[k], samples'[k])
    {
      if k < |events| {
        assert Explains(run[k], events[k], samples[k]) && samples'[k] == samples[k];
      }
    }
  }

  /** The core stands for the last state of the run, of whose next instruction it has done some. */
  ghost predicate InStep(p: Point, dsp: bool, c: Core, b: Bus, s: State, i: Instr) {
    At(p, dsp, c, b, s, i) && Fetches(s, i) && Aligned(Execute(s, i, false))
  }

  lemma RankPositive(p: Point, dsp: bool, c: Core, b: Bus, s: State, i: Instr)
    requires At(p, dsp, c, b, s, i)
    ensures Rank(p) >= 1
  {
    if p.AtDivide? {
      assert InDivision(c, b, s, p.steps);
    }
  }

  lemma InStepIs(p: Point, dsp: bool, c: Core, b: Bus, s: State, i: Instr)
    ensures InStep(p, dsp, c, b, s, i) <==> At(p, dsp, c, b, s, i) && Fetches(s, i) && Aligned(Execute(s, i, false))
  {
  }

  lemma NextInstr(run: seq<State>, events: seq<Completion>) returns (i: Instr)
    requires IsaRun(run, events) && SupportedFrom(run[0])
    ensures Fetches(run[|events|], i) && Aligned(Execute(run[|events|], i, false))
  {
    assert Supported(run[|events|]);
    i :| Fetches(run[|events|], i) && Aligned(Execute(run[|events|], i, false));
  }

  lemma RunGrows(run: seq<State>, events: seq<Completion>, e: Completion, s: State)
    requires IsaRun(run, events) && IsaStep(run[|events|], e, s)
    ensures IsaRun(run + [s], events + [e]) && (run + [s])[0] == run[0] && (run + [s])[|events + [e]|] == s
  {
    hide IsaStep;
    var run', events' := run + [s], events + [e];
    forall k | 0 <= k < |events'|
      ensures IsaStep(run'[k], events'[k], run'[k + 1])
    {
      if k < |events| {
        assert run'[k] == run[k] && run'[k + 1] == run[k + 1] && events'[k] == events[k];
      }
    }
  }

  lemma NothingAccounted(s: State)
    ensures Accounted([s], [], [], AtReady)
  {
  }

  lemma StepOf(s: State, e: Completion, i: Instr)
    requires Fetches(s, i) && e != Nothing && (e == Interrupted ==> s.meie) && (e.Instruction? ==> e.instr == i)
    ensures IsaStep(s, e, if e == Interrupted then Interrupt(s) else Execute(s, i, e.line))
  {
    hide Fetches, Execute, Interrupt;
  }

  /** After any clocks, whatever the bus and the interrupt line did, the core has made exactly
      the steps of a run of the ISA, with an interrupt wherever the line asked for one in a decoding
      clock and interrupts were enabled, and nowhere else; and every 70 clocks that were not spent
      waiting for the bus complete at least one of them. */
  lemma {:induction false} CoreRun(dsp: bool, c: Core, b: Bus, s: State, ts: seq<Stimulus>)
      returns (run: seq<State>, events: seq<Completion>, p: Point, i: Instr)
    requires Ready(c, b, s) && SupportedFrom(s)
    ensures IsaRun(run, events) && run[0] == s && WordRun(run, events)
    ensures InStep(p, dsp, Clocks(dsp, c, b, ts).0, Clocks(dsp, c, b, ts).1, run[|events|], i)
    ensures |ts| - Waits(dsp, c, b, ts) + Rank(p) <= 70 + 70 * |events|
    ensures Accounted(run, events, Samples(dsp, c, b, ts), p)
    decreases |ts|
  {
    hide Cycle, At, Ready, Execute, Interrupt, WaitClock, Rank, Fetches, IsaStep, SupportedFrom, Aligned;
    hide Accounted, SampleNext, StageOf, Heeds, WordStep, FetchedWord;
    if ts == [] {
      run, events, p := [s], [], AtReady;
      i := NextInstr(run, events);
      AtFetchIs(p, dsp, c, b, s, i);
      Ranks(p);
      NothingAccounted(s);
    } else {
      var n := |ts| - 1;
      run, events, p, i := CoreRun(dsp, c, b, s, ts[..n]);
      var c1, b1 := Clocks(dsp, c, b, ts[..n]).0, Clocks(dsp, c, b, ts[..n]).1;
      var p', e := Simulates(p, dsp, c1, b1, run[|events|], ts[n], i);
      FollowsIs(p, dsp, c1, b1, run[|events|], ts[n], i, p', e);
      RankPositive(p, dsp, c1, b1, run[|events|], i);
      StageAt(p, dsp, c1, b1, run[|events|], i);
      HeedsIs(p, run[|events|], i, ts[n].line, p', e);
      if e == Nothing {
        AccountWaits(run, events, Samples(dsp, c, b, ts[..n]), p, i, StageOf(c1, b1), ts[n].line, p');
      } else {
        StepOf(run[|events|], e, i);
        var s' := if e == Interrupted then Interrupt(run[|events|]) else Execute(run[|events|], i, e.line);
        RunGrows(run, events, e, s');
        AccountEnds(run, events, Samples(dsp, c, b, ts[..n]), p, i, StageOf(c1, b1), ts[n].line, p', e, s');
        run, events := run + [s'], events + [e];
        i := NextInstr(run, events);
        AtFetchIs(p', dsp, Cycle(dsp, c1, b1, ts[n]).0, Cycle(dsp, c1, b1, ts[n]).1, s', i);
        Ranks(p');
      }
      p := p';
    }
    RunMeans(run, events);
  }

  /** The first clock after reset. */
  lemma FromReset(dsp: bool, c: Core, b: Bus, t: Stimulus)
    requires c.ctl.nextstate == Reset && !b.waiting && Idle(c.data) && c.data.regfile[0] == 0 && c.ctl.epc % 4 == 0
    ensures var (c', b') := Cycle(dsp, c, b, t);
            Ready(c', b', State(0, c.data.regfile, b.mem, c.ctl.epc, 16, c.ctl.mcause,
                                false, c.ctl.meiePrev))
  {
    hide Decode, FieldsOf, Load32, SetReg, Align, AluOut, Store, Branching, Word, Isa.SignExtend;
  }

  lemma InterruptFields(s: State)
    requires s.meie
    ensures Interrupt(s) == State(s.evect, s.regs, s.mem, s.pc, s.evect, 0x1B, false, true)
  {
  }

  /** In the hardware: if the line asks for an interrupt in the decoding clock and interrupts are enabled,
      the two clocks from there leave registers and memory as they were, save the address of the instruction
      that was decoded, and stand at the handler with further interrupts masked. */
  lemma InterruptIsPrecise(dsp: bool, c: Core, b: Bus, s: State, i: Instr, t1: Stimulus, t2: Stimulus)
    requires InStep(AtFetched, dsp, c, b, s, i) && s.meie && t1.line
    ensures var (c1, b1) := Cycle(dsp, c, b, t1);
            var (c2, b2) := Cycle(dsp, c1, b1, t2);
            Ready(c2, b2, State(s.evect, s.regs, s.mem, s.pc, s.evect, 0x1B, false, true))
  {
    hide *;
    var c1, b1 := Cycle(dsp, c, b, t1).0, Cycle(dsp, c, b, t1).1;
    InStepIs(AtFetched, dsp, c, b, s, i);
    var p1, e1 := Simulates(AtFetched, dsp, c, b, s, t1, i);
    HeedsIs(AtFetched, s, i, t1.line, p1, e1);
    FollowsIs(AtFetched, dsp, c, b, s, t1, i, p1, e1);
    var p2, e2 := Simulates(p1, dsp, c1, b1, s, t2, i);
    HeedsIs(p1, s, i, t2.line, p2, e2);
    FollowsIs(p1, dsp, c1, b1, s, t2, i, p2, e2);
    InterruptFields(s);
  }

  /** A return by mret to a state that has kept what the trap saved. */
  lemma TransparentHandler(s: State, h: State, line: bool)
    requires h.epc == s.pc && h.meiePrev == s.meie && h.regs == s.regs && h.mem == s.mem
    ensures var r := Execute(h, Mret, line);
            r == s.(epc := r.epc, evect := r.evect, cause := r.cause, meiePrev := r.meiePrev)
  {
  }

  /** An instruction of a handler before its mret: it raises no exception and writes neither the return
      address nor the status register. */
  predicate KeepsTrap(i: Instr) {
    && !i.Ecall? && !i.Ebreak? && !i.Mret?
    && (i.Csrrw? && i.csr / 0x800 % 2 == 0 ==> i.csr % 4 == 1 || i.csr % 4 == 3)
  }

  /** Step `j` is an interrupt and step `k` the mret of its handler. */
  ghost predicate Handles(run: seq<State>, events: seq<Completion>, j: nat, k: nat) {
    && j < k < |events| && events[j] == Interrupted && events[k].Instruction? && events[k].instr == Mret
    && forall m :: j < m < k && events[m].Instruction? ==> KeepsTrap(events[m].instr)
  }

  lemma StepKeepsTrap(s: State, e: Completion, s': State)
    requires IsaStep(s, e, s') && !s.meie && (e.Instruction? ==> KeepsTrap(e.instr))
    ensures s'.epc == s.epc && s'.meiePrev == s.meiePrev && !s'.meie && e.Instruction?
  {
    hide Fetches, SetReg, Store, LoadValue, Compute, Taken, Word, ReadStatus, JumpOffset, BranchOffset, Imm12, Align;
  }

  lemma EntersHandler(s: State, e: Completion, s': State)
    requires IsaStep(s, e, s') && e == Interrupted
    ensures s.meie && s'.epc == s.pc && s'.meiePrev && !s'.meie && s'.regs == s.regs && s'.mem == s.mem && s'.pc == s.evect
  {
  }

  /** What the trap saved survives the handler, and no interrupt is taken in it. */
  lemma {:induction false} Survives(run: seq<State>, events: seq<Completion>, j: nat, k: nat, m: nat)
    requires IsaRun(run, events) && Handles(run, events, j, k) && j < m <= k
    ensures run[m].epc == run[j].pc && run[m].meiePrev && !run[m].meie && run[j].meie
    ensures m < k ==> events[m] != Interrupted
  {
    if m == j + 1 {
      EntersHandler(run[j], events[j], run[j + 1]);
    } else {
      Survives(run, events, j, k, m - 1);
      StepKeepsTrap(run[m - 1], events[m - 1], run[m]);
    }
    if m < k {
      StepKeepsTrap(run[m], events[m], run[m + 1]);
    }
    hide IsaStep, KeepsTrap;
  }

  lemma MretStep(s: State, e: Completion, s': State)
    requires IsaStep(s, e, s') && e.Instruction? && e.instr == Mret
    ensures s' == Execute(s, Mret, e.line) && s'.pc == s.epc && s'.meie == s.meiePrev && s'.regs == s.regs && s'.mem == s.mem
  {
    hide Fetches;
  }

  lemma SameFetch(s: State, s': State, i: Instr)
    requires s.pc == s'.pc && s.mem == s'.mem
    ensures Fetches(s, i) <==> Fetches(s', i)
  {
    hide Load32, Encode, Encodable;
  }

  /** Over a whole handler, however long: its mret resumes at the displaced instruction with interrupts
      enabled again, and no interrupt came in between. If the handler restored registers and memory, the
      machine is in the state it was interrupted in, but for the registers of the trap itself: no
      instruction is lost and none is done twice. */
  lemma HandlerReturns(run: seq<State>, events: seq<Completion>, j: nat, k: nat)
    requires IsaRun(run, events) && Handles(run, events, j, k)
    ensures run[k + 1].pc == run[j].pc && run[k + 1].meie
    ensures forall m :: j < m <= k ==> events[m] != Interrupted
    ensures run[k].regs == run[j].regs && run[k].mem == run[j].mem ==>
      && run[k + 1] == run[j].(epc := run[k + 1].epc, evect := run[k + 1].evect, cause := run[k + 1].cause,
                               meiePrev := run[k + 1].meiePrev)
      && forall i: Instr :: Fetches(run[k + 1], i) <==> Fetches(run[j], i)
  {
    forall m | j < m <= k
      ensures events[m] != Interrupted
    {
      Survives(run, events, j, k, m);
    }
    Survives(run, events, j, k, k);
    MretStep(run[k], events[k], run[k + 1]);
    if run[k].regs == run[j].regs && run[k].mem == run[j].mem {
      TransparentHandler(run[j], run[k], events[k].line);
      forall i: Instr
        ensures Fetches(run[k + 1], i) <==> Fetches(run[j], i)
      {
        SameFetch(run[k + 1], run[j], i);
      }
    }
    hide IsaStep, KeepsTrap, Execute, Fetches;
  }

  /** A step sets the enable flag only by an instruction that writes MSR_STATUS or by mret. */
  lemma OnlyHandlerUnmasks(s: State, i: Instr, line: bool)
    requires !s.meie && Execute(s, i, line).meie
    ensures i.Mret? || (i.Csrrw? && i.csr % 4 == 0 && i.csr / 0x800 % 2 == 0 && s.regs[i.rs1] % 2 == 1)
  {
  }

  /** The m-th step is an instruction that sets the enable flag. */
  ghost predicate Unmasks(run: seq<State>, events: seq<Completion>, m: int) {
    0 <= m < |events| < |run| && events[m].Instruction? && !run[m].meie && run[m + 1].meie
  }

  lemma StepFlags(s: State, e: Completion, s': State)
    requires IsaStep(s, e, s')
    ensures e == Interrupted ==> s.meie && !s'.meie
    ensures e.Instruction? || e == Interrupted
  {
    hide Execute;
  }

  /** While the flag stays clear no interrupt is taken. */
  lemma {:induction false} MaskedRun(run: seq<State>, events: seq<Completion>, j: nat, k: nat)
    requires IsaRun(run, events) && j <= k < |events| && !run[j].meie && events[k] == Interrupted
    ensures exists m :: j <= m < k && Unmasks(run, events, m)
    decreases k - j
  {
    StepFlags(run[j], events[j], run[j + 1]);
    hide IsaStep;
    if !run[j + 1].meie && j < k {
      MaskedRun(run, events, j + 1, k);
      var m :| j + 1 <= m < k && Unmasks(run, events, m);
    } else {
      assert Unmasks(run, events, j);
    }
  }

  /** Between two interrupts the program has enabled interrupts again. */
  lemma InterruptsAreMasked(run: seq<State>, events: seq<Completion>, j: nat, k: nat)
    requires IsaRun(run, events) && j < k < |events| && events[j] == Interrupted && events[k] == Interrupted
    ensures exists m :: j < m < k && Unmasks(run, events, m)
  {
    StepFlags(run[j], events[j], run[j + 1]);
    hide IsaRun, Unmasks;
    MaskedRun(run, events, j + 1, k);
  }
}
