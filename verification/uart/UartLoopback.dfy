/** The UART connected to itself: what is written comes out again, in order, although the receiver's
    bit period is a clock longer than the transmitter's and it starts late by its filter. */
module UartLoopback {
  import opened Arith
  import opened Uart

  /** The bits on the line. */
  function Frame(b: Byte): (f: seq<bool>)
    ensures |f| == 10
  {
    [false] + b + [true]
  }

  /** What is left in the transmit buffer after `q` bits. */
  function Tail(b: Byte, q: nat): Byte
    requires q <= 9
  {
    (b + [true, true, true, true, true, true, true, true, true])[q..q + 8]
  }

  /** The receiver has shifted in the first `m` bits of the frame. */
  ghost predicate Shifted(b: Byte, m: nat, input: Byte) {
    forall k: nat :: k < 8 && 8 <= k + m < 18 ==> input[k] == Frame(b)[k + m - 8]
  }

  /** Clocks of the receiver's counter for a bit: it runs from 0 to `baud` inclusive, but has only
      ten bits. */
  function Period(baud: nat): nat {
    if baud >= 1024 then 1024 else baud + 1
  }

  /** How far the receiver's bit `p` starts after the transmitter's. */
  function Drift(baud: nat, p: nat): nat {
    if baud >= 1024 then 4 else 4 + p
  }

  /** How far the byte `b` has come. */
  datatype Phase =
    | Quiet
    | Loaded(b: Byte)           // in the buffer
    | Starting(b: Byte)         // start bit on the line, not yet recognised
    | Moving(b: Byte, p: nat)   // the receiver is in its bit `p`
    | Stopping                  // received, the transmitter still sends the stop bit
    | Last(b: Byte)             // sent, the receiver is just about to deliver it

  function InFlight(ph: Phase): seq<Byte> {
    match ph
    case Quiet => []
    case Loaded(b) => [b]
    case Starting(b) => [b]
    case Moving(b, p) => [b]
    case Stopping => []
    case Last(b) => [b]
  }

  /** The transmitter is in bit `t.bits` of the frame. */
  ghost predicate Sending(baud: nat, b: Byte, t: Transmitter) {
    t.writing && t.full && t.bits <= 9 && t.clocks < baud && t.line == Frame(b)[t.bits] && t.buf == Tail(b, t.bits)
  }

  /** The receiver is in its bit `p`. */
  ghost predicate Receiving(baud: nat, b: Byte, p: nat, r: Receiver) {
    && r.reading && r.filter == HIGH && p <= 9 && r.clocks < Period(baud)
    && r.bits == (if r.clocks <= baud / 2 then p else p + 1) && r.bits <= 9
    && Shifted(b, r.bits, r.input)
  }

  /** The clocks of both sides. */
  predicate InStep(baud: nat, t: Transmitter, p: nat, r: Receiver) {
    || (t.bits == p && t.clocks == r.clocks + Drift(baud, p))
    || (t.bits == p + 1 && t.clocks + baud == r.clocks + Drift(baud, p))
  }

  predicate Listening(r: Receiver) {
    !r.reading && r.filter == HIGH
  }

  function Samples(n: nat): Filter {
    if n == 0 then HIGH else if n == 1 then [true, true, false] else if n == 2 then [true, false, false] else LOW
  }

  ghost predicate At(ph: Phase, baud: nat, t: Transmitter, r: Receiver) {
    match ph
    case Quiet => Resting(t, r)
    case Loaded(b) => !t.writing && t.full && t.line && t.buf == b && Listening(r)
    case Starting(b) => Sending(baud, b, t) && t.bits == 0 && t.clocks <= 3 && !r.reading && r.filter == Samples(t.clocks)
    case Moving(b, p) => Sending(baud, b, t) && Receiving(baud, b, p, r) && InStep(baud, t, p, r)
    case Stopping => t.writing && t.full && t.bits == 9 && t.clocks < baud && t.line && t.buf[0] && Listening(r)
    case Last(b) => !t.writing && !t.full && t.line && Receiving(baud, b, 9, r) && r.clocks == baud / 2
  }

  /** The divisors for which the loop works. */
  predicate Suitable(baud: nat) {
    25 <= baud <= 1024
  }

  /** Software writes a byte only when the send status says that there is room. */
  predicate Polite(t: Transmitter, i: Access) {
    DataWrite(i) ==> !t.full
  }

  lemma TailShift(b: Byte, q: nat)
    requires q <= 9
    ensures Tail(b, 0) == b
    ensures q < 9 ==> Frame(b)[q + 1] == Tail(b, q)[0] && Tail(b, q + 1) == Tail(b, q)[1..] + [true]
    ensures Tail(b, 9)[0] && Frame(b)[9] && !Frame(b)[0]
  {
    if q < 9 {
      var l := b + [true, true, true, true, true, true, true, true, true];
      assert l[q..q + 8][1..] + [true] == l[q + 1..q + 9] by {
        assert l[q + 8];
      }
    }
  }

  lemma ShiftIn(b: Byte, m: nat, input: Byte)
    requires m <= 8 && Shifted(b, m, input)
    ensures Shifted(b, m + 1, input[1..] + [Frame(b)[m]])
  {
    var next: Byte := input[1..] + [Frame(b)[m]];
    forall k: nat | k < 8 && 8 <= k + (m + 1) < 18
      ensures next[k] == Frame(b)[k + (m + 1) - 8]
    {
      if k < 7 {
        assert next[k] == input[k + 1];
      }
    }
    hide Frame;
  }

  lemma ShiftedAll(b: Byte, input: Byte)
    requires Shifted(b, 9, input)
    ensures input == b
  {
    forall k: nat | k < 8
      ensures input[k] == b[k]
    {
      assert Frame(b)[k + 9 - 8] == b[k];
    }
  }

  lemma NothingShifted(b: Byte, input: Byte)
    ensures Shifted(b, 0, input)
  {
  }

  /** A clock of the transmitter in a frame. */
  lemma TxMoves(baud: nat, b: Byte, t: Transmitter)
    requires Sending(baud, b, t) && baud <= 1024
    ensures var t' := TxShift(baud, t);
            if t.clocks + 1 < baud then Sending(baud, b, t') && t'.bits == t.bits && t'.clocks == t.clocks + 1
            else if t.bits < 9 then Sending(baud, b, t') && t'.bits == t.bits + 1 && t'.clocks == 0
            else !t'.writing && !t'.full && t'.line
  {
    TailShift(b, t.bits);
    hide Frame, Tail;
  }

  /** A clock of the receiver in a frame, if the line has the bit it expects. */
  lemma RxMoves(baud: nat, b: Byte, p: nat, r: Receiver, line: bool)
    requires Receiving(baud, b, p, r) && !Delivers(baud, r) && (p == 9 ==> r.clocks <= baud / 2) && 1 <= baud <= 1024
    requires r.clocks == baud / 2 ==> line == Frame(b)[p]
    ensures var r' := RxShift(baud, r, line);
            if r.clocks + 1 < Period(baud) then Receiving(baud, b, p, r') && r'.clocks == r.clocks + 1
            else p < 9 && Receiving(baud, b, p + 1, r') && r'.clocks == 0
    ensures RxShift(baud, r, line).ready == r.ready
  {
    if r.clocks == baud / 2 {
      ShiftIn(b, r.bits, r.input);
    }
    hide Frame, Shifted;
  }

  lemma RxDelivers(baud: nat, b: Byte, r: Receiver, line: bool)
    requires Receiving(baud, b, 9, r) && r.clocks == baud / 2
    ensures Delivers(baud, r) && Listening(RxShift(baud, r, line)) && RxShift(baud, r, line).buf == b
  {
    ShiftedAll(b, r.input);
    hide Frame, Shifted;
  }

  /** With a suitable divisor the receiver samples within the bit it expects. */
  lemma SamplesInBit(baud: nat, t: Transmitter, p: nat, r: Receiver)
    requires Suitable(baud) && InStep(baud, t, p, r) && p <= 8 && r.clocks == baud / 2
    ensures t.bits == p
  {
  }

  function NextPhase(ph: Phase, baud: nat, t: Transmitter, r: Receiver, i: Access): Phase {
    var next :=
      match ph
      case Quiet => Quiet
      case Loaded(b) => Starting(b)
      case Starting(b) => if t.clocks < 3 then Starting(b) else Moving(b, 0)
      case Moving(b, p) =>
        var ends := t.bits == 9 && t.clocks == baud - 1;
        if Delivers(baud, r) then if ends then Quiet else Stopping
        else if ends then Last(b)
        else Moving(b, if r.clocks + 1 < Period(baud) then p else p + 1)
      case Stopping => if t.clocks == baud - 1 then Quiet else Stopping
      case Last(b) => Quiet;
    if DataWrite(i) then Loaded(i.dat) else next
  }

  lemma StartingStep(baud: nat, b: Byte, t: Transmitter, r: Receiver, i: Access)
    requires Suitable(baud) && At(Starting(b), baud, t, r) && Polite(t, i)
    ensures At(NextPhase(Starting(b), baud, t, r, i), baud, TxNext(baud, t, i), RxShift(baud, r, t.line))
    ensures !Delivers(baud, r) && !DataWrite(i)
  {
    TxMoves(baud, b, t);
    TailShift(b, 0);
    if t.clocks == 3 {
      NothingShifted(b, r.input);
    }
    hide Frame, Tail, Shifted, TxShift;
  }

  lemma QuietStep(ph: Phase, baud: nat, t: Transmitter, r: Receiver, i: Access)
    requires Suitable(baud) && At(ph, baud, t, r) && Polite(t, i) && (ph.Quiet? || ph.Loaded? || ph.Stopping?)
    ensures At(NextPhase(ph, baud, t, r, i), baud, TxNext(baud, t, i), RxShift(baud, r, t.line))
    ensures !Delivers(baud, r)
  {
    if ph.Loaded? {
      TailShift(ph.b, 0);
    }
    hide Frame, Tail, Shifted;
  }

  lemma LastStep(baud: nat, b: Byte, t: Transmitter, r: Receiver, i: Access)
    requires Suitable(baud) && At(Last(b), baud, t, r) && Polite(t, i)
    ensures At(NextPhase(Last(b), baud, t, r, i), baud, TxNext(baud, t, i), RxShift(baud, r, t.line))
    ensures Delivers(baud, r) && RxShift(baud, r, t.line).buf == b
  {
    RxDelivers(baud, b, r, t.line);
    hide Frame, Tail, Shifted, Receiving;
  }

  lemma MovingStep(baud: nat, b: Byte, p: nat, t: Transmitter, r: Receiver, i: Access)
    requires Suitable(baud) && At(Moving(b, p), baud, t, r) && Polite(t, i)
    ensures At(NextPhase(Moving(b, p), baud, t, r, i), baud, TxNext(baud, t, i), RxShift(baud, r, t.line))
    ensures Delivers(baud, r) ==> RxShift(baud, r, t.line).buf == b
    ensures !DataWrite(i)
  {
    var t', r' := TxShift(baud, t), RxShift(baud, r, t.line);
    TxMoves(baud, b, t);
    TailShift(b, 9);
    if Delivers(baud, r) {
      RxDelivers(baud, b, r, t.line);
      hide Frame, Tail, Shifted, TxShift, RxShift;
    } else {
      if r.clocks == baud / 2 {
        SamplesInBit(baud, t, p, r);
      }
      RxMoves(baud, b, p, r, t.line);
      hide Frame, Tail, Shifted, TxShift, RxShift;
    }
  }

  lemma ReadyIrrelevant(ph: Phase, baud: nat, t: Transmitter, r: Receiver, ready: bool)
    requires At(ph, baud, t, r)
    ensures At(ph, baud, t, r.(ready := ready))
  {
    hide Frame, Tail, Shifted;
  }

  /** Every clock: what is in flight or was just written is delivered or in flight after it. */
  lemma PhaseStep(ph: Phase, baud: nat, t: Transmitter, r: Receiver, i: Access)
    requires Suitable(baud) && At(ph, baud, t, r) && Polite(t, i)
    ensures var ph' := NextPhase(ph, baud, t, r, i);
            && At(ph', baud, TxNext(baud, t, i), RxNext(baud, r, t.line, i))
            && InFlight(ph) + (if DataWrite(i) then [i.dat] else [])
               == (if Delivers(baud, r) then [RxShift(baud, r, t.line).buf] else []) + InFlight(ph')
  {
    match ph {
      case Starting(b) => StartingStep(baud, b, t, r, i);
      case Moving(b, p) => MovingStep(baud, b, p, t, r, i);
      case Last(b) => LastStep(baud, b, t, r, i);
      case _ => QuietStep(ph, baud, t, r, i);
    }
    ReadyIrrelevant(NextPhase(ph, baud, t, r, i), baud, TxNext(baud, t, i), RxShift(baud, r, t.line), false);
    hide At, TxNext, RxShift;
  }

  /** The loop with what went through it: the bytes written to address 0, those the receiver delivered, and
      those that the data lines showed for reads of address 0. */
  datatype Loop = Loop(tx: Transmitter, rx: Receiver, written: seq<Byte>, delivered: seq<Byte>, read: seq<Byte>)

  function LoopNext(baud: nat, l: Loop, i: Access): Loop {
    Loop(TxNext(baud, l.tx, i), RxNext(baud, l.rx, l.tx.line, i),
         if i.stb && i.adr == 0 && i.we then l.written + [i.dat] else l.written,
         if Delivers(baud, l.rx) then l.delivered + [RxShift(baud, l.rx, l.tx.line).buf] else l.delivered,
         if i.stb && i.adr == 0 && !i.we then l.read + [BusOut(l.tx, l.rx, i, i.dat)] else l.read)
  }

  function Run(baud: nat, l: Loop, ins: seq<Access>): Loop {
    if ins == [] then l else LoopNext(baud, Run(baud, l, ins[..|ins| - 1]), ins[|ins| - 1])
  }

  /** Software writes only when there is room and reads only when a byte is ready. */
  predicate PoliteRun(baud: nat, l: Loop, ins: seq<Access>) {
    ins == [] ||
    (&& PoliteRun(baud, l, ins[..|ins| - 1])
     && var l' := Run(baud, l, ins[..|ins| - 1]);
        Polite(l'.tx, ins[|ins| - 1]) && (DataRead(ins[|ins| - 1]) ==> l'.rx.ready))
  }

  /** No byte arrives before the one before it was read. */
  predicate Drained(baud: nat, l: Loop, ins: seq<Access>) {
    ins == [] ||
    (&& Drained(baud, l, ins[..|ins| - 1])
     && var l' := Run(baud, l, ins[..|ins| - 1]);
        Delivers(baud, l'.rx) ==> !l'.rx.ready)
  }

  function Waiting(r: Receiver): seq<Byte> {
    if r.ready then [r.buf] else []
  }

  lemma WaitingNext(baud: nat, l: Loop, i: Access)
    requires l.delivered == l.read + Waiting(l.rx)
    requires (DataRead(i) ==> l.rx.ready) && (Delivers(baud, l.rx) ==> !l.rx.ready)
    ensures var l' := LoopNext(baud, l, i); l'.delivered == l'.read + Waiting(l'.rx)
  {
    assert !Delivers(baud, l.rx) ==> RxShift(baud, l.rx, l.tx.line).buf == l.rx.buf;
  }

  lemma Starts(baud: nat, l: Loop)
    requires Resting(l.tx, l.rx) && !l.rx.ready
    ensures At(Quiet, baud, l.tx, l.rx) && Waiting(l.rx) == []
  {
  }

  lemma LogsNext(baud: nat, l: Loop, i: Access, ph: Phase, ph': Phase)
    requires l.written == l.delivered + InFlight(ph)
    requires InFlight(ph) + (if DataWrite(i) then [i.dat] else [])
             == (if Delivers(baud, l.rx) then [RxShift(baud, l.rx, l.tx.line).buf] else []) + InFlight(ph')
    ensures var l' := LoopNext(baud, l, i);
            && l'.tx == TxNext(baud, l.tx, i) && l'.rx == RxNext(baud, l.rx, l.tx.line, i)
            && l'.written == l'.delivered + InFlight(ph')
  {
    hide TxNext, RxNext, RxShift, InFlight, Delivers, BusOut;
    var w := if DataWrite(i) then [i.dat] else [];
    var d := if Delivers(baud, l.rx) then [RxShift(baud, l.rx, l.tx.line).buf] else [];
    var l' := LoopNext(baud, l, i);
    assert l'.written == l.written + w && l'.delivered == l.delivered + d;
    assert l.delivered + InFlight(ph) + w == l.delivered + (InFlight(ph) + w);
    assert l.delivered + d + InFlight(ph') == l.delivered + (d + InFlight(ph'));
  }

  /** For every stream of bytes: the delivered bytes are the written ones, in order, but for the
      one on its way; and if each is read before the next arrives, so are the bytes read. */
  lemma {:induction false} Loopback(baud: nat, l: Loop, ins: seq<Access>) returns (ph: Phase)
    requires Suitable(baud) && Resting(l.tx, l.rx) && !l.rx.ready && l.written == l.delivered == l.read == []
    requires PoliteRun(baud, l, ins)
    ensures var l' := Run(baud, l, ins);
            && At(ph, baud, l'.tx, l'.rx) && l'.written == l'.delivered + InFlight(ph)
            && (Drained(baud, l, ins) ==> l'.delivered == l'.read + Waiting(l'.rx))
  {
    hide At, LoopNext, Waiting;
    ph := Quiet;
    if ins == [] {
      Starts(baud, l);
    } else {
      var n := |ins| - 1;
      var l1 := Run(baud, l, ins[..n]);
      var before := Loopback(baud, l, ins[..n]);
      PhaseStep(before, baud, l1.tx, l1.rx, ins[n]);
      ph := NextPhase(before, baud, l1.tx, l1.rx, ins[n]);
      LogsNext(baud, l1, ins[n], before, ph);
      if Drained(baud, l, ins) {
        WaitingNext(baud, l1, ins[n]);
      }
    }
  }

  lemma RunStep(baud: nat, l: Loop, ins: seq<Access>, k: nat)
    requires k <= |ins|
    ensures Run(baud, l, ins[..0]) == l
    ensures k < |ins| ==> Run(baud, l, ins[..k + 1]) == LoopNext(baud, Run(baud, l, ins[..k]), ins[k])
  {
    hide LoopNext;
    if k < |ins| {
      assert ins[..k + 1][..k] == ins[..k];
    }
  }

  /** The unit with its output wired to its input, over any accesses of polite software. */
  method Exchange(u: Unit, ins: seq<Access>)
      returns (written: seq<Byte>, delivered: seq<Byte>, read: seq<Byte>, ghost ph: Phase)
    requires Suitable(u.baud) && Resting(u.tx, u.rx) && !u.rx.ready && PoliteRun(u.baud, Loop(u.tx, u.rx, [], [], []), ins)
    modifies u
    ensures At(ph, u.baud, u.tx, u.rx) && written == delivered + InFlight(ph)
    ensures old(Drained(u.baud, Loop(u.tx, u.rx, [], [], []), ins)) ==> delivered == read + Waiting(u.rx)
  {
    hide At, InFlight, Waiting, TxNext, RxNext, RxShift, Resting, Delivers;
    ghost var l := Loop(u.tx, u.rx, [], [], []);
    ph := Loopback(u.baud, l, ins);
    written, delivered, read := [], [], [];
    var k: nat := 0;
    RunStep(u.baud, l, ins, 0);
    while k < |ins|
      invariant k <= |ins| && Loop(u.tx, u.rx, written, delivered, read) == Run(u.baud, l, ins[..k])
    {
      RunStep(u.baud, l, ins, k);
      var arrives, out := Delivers(u.baud, u.rx), RxShift(u.baud, u.rx, u.tx.line).buf;
      u.Clock(u.tx.line, ins[k]);
      if DataWrite(ins[k]) {
        written := written + [ins[k].dat];
      }
      if arrives {
        delivered := delivered + [out];
      }
      if DataRead(ins[k]) {
        read := read + [u.dat];
      }
      k := k + 1;
    }
    assert ins[..k] == ins;
  }
}
