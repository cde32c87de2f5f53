/** The adapter from the CPU bus to an 8-bit pipelined Wishbone bus (bus/wishbone8.v). */
module Wishbone8 {
  import opened Words
  import opened Machine
  import opened Lanes

  /** Bytes to be accessed. */
  function Target(r: Request): nat {
    if !r.half && r.full then 4 else if r.half && !r.full then 2 else 1
  }

  /** The registers of the adapter. */
  datatype Regs = Regs(
    busy: bool, buffer: Lane4, acks: nat, addrs: nat,
    adr: u32, dat: u8, cyc: bool, stb: bool, we: bool)

  function OutData(k: nat, c: Lane4): u8 {
    if k == 0 then c[0] else if k == 1 then c[1] else if k == 2 then c[2] else c[3]
  }

  function Fill(b: Lane4, k: nat, w: u8): Lane4 {
    if k == 0 then b[0 := w] else if k == 1 then b[1 := w] else if k == 2 then b[2 := w] else b[3 := w]
  }

  /** The next request, unless all are made or the slave stalls. */
  function Asked(a: Regs, r: Request, stall: bool): Regs {
    if a.addrs == Target(r) || stall then a
    else a.(stb := true, adr := Word(r.addr + a.addrs), dat := OutData(a.addrs, r.data), addrs := a.addrs + 1)
  }

  /** The acknowledgement with number `acks`. */
  function Answered(a: Regs, r: Request, dat: u8): Regs {
    var f := a.(buffer := Fill(a.buffer, a.acks, dat));
    if a.acks + 1 == Target(r) then f.(busy := false, acks := 0, addrs := 0) else f.(acks := a.acks + 1)
  }

  /** One rising clock edge; `strobe` and `r` come from the CPU, the rest from the bus. */
  function Next(a: Regs, strobe: bool, r: Request, ack: bool, stall: bool, dat: u8): Regs {
    var b := a.(busy := strobe, cyc := strobe, we := strobe && r.write,
                stb := strobe && (a.addrs != Target(r) || stall));
    if !strobe || a.acks == Target(r) then b
    else if ack then Answered(Asked(b, r, stall), r, dat)
    else Asked(b, r, stall)
  }

  /** A pipelined slave: memory, and the bytes of the requests it has accepted and not yet
      acknowledged. */
  datatype Slave = Slave(mem: Mem, pending: seq<u8>)

  function StoreByte(m: Mem, adr: u32, w: u8): Mem {
    (x: u32) => if x == adr then w else m(x)
  }

  /** The slave takes the request on the bus unless it stalls. */
  predicate Accepts(a: Regs, stall: bool) {
    a.cyc && a.stb && !stall
  }

  function Accept(s: Slave, a: Regs, stall: bool): Slave {
    if !Accepts(a, stall) then s
    else Slave(if a.we then StoreByte(s.mem, a.adr, a.dat) else s.mem, s.pending + [s.mem(a.adr)])
  }

  /** The slaves of this system stall only a request: they gate the stall line with the strobe. */
  predicate Lawful(a: Regs, c: Choice) {
    c.stall ==> a.stb
  }

  /** The choice with the stall line gated. */
  function Gated(a: Regs, c: Choice): Choice {
    c.(stall := c.stall && a.stb)
  }

  /** A clock of adapter and slave together. */
  function Step(a: Regs, s: Slave, strobe: bool, r: Request, c: Choice): (Regs, Slave) {
    var s1 := Accept(s, a, c.stall);
    if c.ack && s1.pending != [] then
      (Next(a, strobe, r, true, c.stall, s1.pending[0]), s1.(pending := s1.pending[1..]))
    else (Next(a, strobe, r, false, c.stall, 0), s1)
  }

  lemma TargetIs(r: Request)
    requires Proper(r)
    ensures Target(r) == Size(r) && 1 <= Target(r) <= 4
  {
  }

  /** The address of byte `k`. */
  function ByteNumber(r: Request, k: nat): u32 {
    Word(r.addr + k)
  }

  /** The first `n` bytes are stored. */
  ghost predicate StoredBytes(m: Mem, m': Mem, r: Request, n: int) {
    forall x: u32 :: m'(x) == if r.write && Word(x - r.addr) < n && Word(x - r.addr) < 4
                              then r.data[Word(x - r.addr)] else m(x)
  }

  /** The first `n` bytes are in the buffer. */
  ghost predicate FilledBytes(m: Mem, r: Request, buffer: Lane4, n: int) {
    forall i: nat :: i < n && i < 4 ==> buffer[i] == m(ByteNumber(r, i))
  }

  /** What is on its way back are the bytes from the first unacknowledged one on. */
  ghost predicate Returning(m: Mem, r: Request, pending: seq<u8>, acks: nat) {
    !r.write ==> forall j: nat :: j < |pending| ==> pending[j] == m(ByteNumber(r, acks + j))
  }

  lemma Offset(r: Request, x: u32, k: nat)
    requires k < 4
    ensures Word(x - r.addr) == k <==> x == ByteNumber(r, k)
  {
  }

  lemma ByteOut(r: Request, k: nat)
    requires k < 4
    ensures OutData(k, r.data) == r.data[k]
  {
  }

  lemma StoreNext(m: Mem, m1: Mem, r: Request, k: nat)
    requires r.write && k < 4 && StoredBytes(m, m1, r, k)
    ensures StoredBytes(m, StoreByte(m1, ByteNumber(r, k), OutData(k, r.data)), r, k + 1)
  {
    ByteOut(r, k);
    var m2 := StoreByte(m1, ByteNumber(r, k), OutData(k, r.data));
    forall x: u32
      ensures m2(x) == if Word(x - r.addr) < k + 1 && Word(x - r.addr) < 4 then r.data[Word(x - r.addr)] else m(x)
    {
      Offset(r, x, k);
    }
    hide ByteNumber, OutData, Word, StoreByte;
  }

  lemma FillNext(m: Mem, r: Request, b: Lane4, k: nat)
    requires k < 4 && FilledBytes(m, r, b, k)
    ensures FilledBytes(m, r, Fill(b, k, m(ByteNumber(r, k))), k + 1)
  {
    hide ByteNumber;
  }

  /** Requests the slave has accepted. */
  function Taken(a: Regs): int {
    if a.stb then a.addrs - 1 else a.addrs
  }

  /** Requests the slave has accepted after a clock. */
  function TakenNext(a: Regs, c: Choice): int {
    Taken(a) + if a.stb && !c.stall then 1 else 0
  }

  /** Between accesses. */
  predicate Idle(a: Regs, s: Slave) {
    a.addrs == 0 && a.acks == 0 && !a.stb && s.pending == []
  }

  /** The request on the bus is the one for the last byte addressed. */
  predicate Asking(a: Regs, r: Request) {
    a.stb ==>
      && a.addrs >= 1 && a.cyc && a.we == r.write && a.adr == ByteNumber(r, a.addrs - 1)
      && a.dat == OutData(a.addrs - 1, r.data)
  }

  /** An access is under way that found the memory `m`. */
  ghost predicate Accessing(a: Regs, s: Slave, m: Mem, r: Request) {
    && a.acks < Target(r) && a.addrs <= Target(r)
    && Asking(a, r) && (!a.stb ==> a.addrs == 0 || a.addrs == Target(r))
    && a.acks + |s.pending| == Taken(a)
    && Returning(m, r, s.pending, a.acks)
    && StoredBytes(m, s.mem, r, Taken(a))
    && (!r.write ==> FilledBytes(m, r, a.buffer, a.acks))
  }

  /** Clocks left, not counting those in which the slave stalls or lets the adapter wait. */
  function Left(a: Regs, r: Request): int {
    3 * Target(r) - a.addrs - Taken(a) - a.acks
  }

  lemma AccessStarts(a: Regs, s: Slave, m: Mem, r: Request)
    requires Idle(a, s) && Proper(r) && forall x: u32 :: m(x) == s.mem(x)
    ensures Accessing(a, s, m, r) && Left(a, r) == 3 * Target(r)
  {
    TargetIs(r);
    hide Target, ByteNumber;
  }

  /** The slave's side of a clock. */
  lemma Accepted(a: Regs, s: Slave, m: Mem, r: Request, c: Choice)
    requires Proper(r) && Accessing(a, s, m, r)
    ensures var s1 := Accept(s, a, c.stall); var n := TakenNext(a, c);
            && StoredBytes(m, s1.mem, r, n) && a.acks + |s1.pending| == n && Returning(m, r, s1.pending, a.acks)
            && n <= Target(r)
  {
    TargetIs(r);
    if a.stb && !c.stall {
      if r.write {
        StoreNext(m, s.mem, r, Taken(a));
      }
      hide OutData, Target, ByteNumber;
    } else {
      hide OutData, Target, ByteNumber;
    }
  }

  /** The requesting side of the adapter in a clock that does not end the access. */
  lemma Requests(a: Regs, s: Slave, m: Mem, r: Request, c: Choice, ack: bool, w: u8)
    requires Proper(r) && Accessing(a, s, m, r) && Lawful(a, c)
    requires ack ==> a.acks + 1 < Target(r)
    ensures var x := Next(a, true, r, ack, c.stall, w);
            && x.busy && Asking(x, r) && Taken(x) == TakenNext(a, c)
            && a.addrs <= x.addrs <= Target(r) && (!x.stb ==> x.addrs == 0 || x.addrs == Target(r))
            && (!c.stall && a.addrs < Target(r) ==> x.addrs == a.addrs + 1)
            && x.acks == a.acks + (if ack then 1 else 0)
            && x.buffer == (if ack then Fill(a.buffer, a.acks, w) else a.buffer)
  {
    hide OutData, StoredBytes, Returning, FilledBytes, Fill;
    TargetIs(r);
    hide Target, Word;
  }

  /** The clock that brings the last acknowledgement. */
  lemma LastAck(a: Regs, s: Slave, m: Mem, r: Request, c: Choice, w: u8)
    requires Accessing(a, s, m, r) && Lawful(a, c) && a.acks + 1 == Target(r) == TakenNext(a, c)
    ensures var x := Next(a, true, r, true, c.stall, w);
            && !x.busy && !x.stb && x.addrs == 0 && x.acks == 0 && x.buffer == Fill(a.buffer, a.acks, w)
  {
    hide OutData, StoredBytes, Returning, FilledBytes, Fill, Target, Word;
  }

  /** The access is over, with the effect and the result it should have. */
  ghost predicate Finished(a: Regs, s: Slave, m: Mem, r: Request) {
    Idle(a, s) && !a.busy && Written(m, s.mem, r) && (!r.write ==> Delivered(m, r, a.buffer))
  }

  lemma AllBytes(m: Mem, m': Mem, r: Request, buffer: Lane4)
    requires Proper(r)
    ensures StoredBytes(m, m', r, Target(r)) ==> Written(m, m', r)
    ensures FilledBytes(m, r, buffer, Target(r)) ==> Delivered(m, r, buffer)
  {
    TargetIs(r);
    hide Target, Size, Word;
  }

  /** What a clock of an access comes to. */
  ghost predicate Advances(a: Regs, s: Slave, m: Mem, r: Request, c: Choice, a': Regs, s': Slave) {
    || (Finished(a', s', m, r) && a.acks + 1 == Target(r) == TakenNext(a, c))
    || (&& Accessing(a', s', m, r) && a'.busy && Taken(a') == TakenNext(a, c)
        && Left(a', r) <= Left(a, r) && (!c.stall && c.ack ==> Left(a', r) < Left(a, r)))
  }

  lemma AccessingHas(a: Regs, s: Slave, m: Mem, r: Request)
    requires Accessing(a, s, m, r)
    ensures a.acks < Target(r) && (!r.write ==> FilledBytes(m, r, a.buffer, a.acks))
  {
    hide Asking, Returning, StoredBytes, FilledBytes, Target;
  }

  lemma AccessingIs(a: Regs, s: Slave, m: Mem, r: Request)
    requires a.acks < Target(r) && a.addrs <= Target(r) && Asking(a, r)
    requires a.stb || a.addrs == 0 || a.addrs == Target(r)
    requires a.acks + |s.pending| == Taken(a) && Returning(m, r, s.pending, a.acks)
    requires StoredBytes(m, s.mem, r, Taken(a)) && (!r.write ==> FilledBytes(m, r, a.buffer, a.acks))
    ensures Accessing(a, s, m, r)
  {
    hide Asking, Returning, StoredBytes, FilledBytes, Target, Taken;
  }

  /** The measure in a clock that does not end the access. */
  lemma Nearer(a: Regs, s: Slave, m: Mem, r: Request, c: Choice, a': Regs, s': Slave, ack: bool)
    requires Accessing(a, s, m, r) && Accessing(a', s', m, r)
    requires a'.busy && Taken(a') == TakenNext(a, c) && a'.addrs >= a.addrs && a'.acks == a.acks + if ack then 1 else 0
    requires !ack && !c.stall && c.ack ==> a.addrs < Target(r) && a'.addrs == a.addrs + 1
    ensures Advances(a, s, m, r, c, a', s')
  {
    hide Accessing, Target, Finished;
  }

  /** The first of the bytes on their way is the next for the buffer. */
  lemma ReturnedByte(m: Mem, r: Request, pending: seq<u8>, acks: nat, buffer: Lane4)
    requires Proper(r) && Returning(m, r, pending, acks) && pending != [] && acks < Target(r)
    requires !r.write ==> FilledBytes(m, r, buffer, acks)
    ensures Returning(m, r, pending[1..], acks + 1)
    ensures !r.write ==> FilledBytes(m, r, Fill(buffer, acks, pending[0]), acks + 1)
  {
    TargetIs(r);
    if !r.write {
      assert pending[0] == m(ByteNumber(r, acks + 0));
      FillNext(m, r, buffer, acks);
      forall j: nat | j < |pending[1..]|
        ensures pending[1..][j] == m(ByteNumber(r, acks + 1 + j))
      {
        var i := j + 1;
        assert pending[i] == m(ByteNumber(r, acks + i));
      }
    }
    hide *;
  }

  lemma StepIs(a: Regs, s: Slave, r: Request, c: Choice)
    ensures var s1 := Accept(s, a, c.stall);
            Step(a, s, true, r, c) ==
            if c.ack && s1.pending != [] then
              (Next(a, true, r, true, c.stall, s1.pending[0]), s1.(pending := s1.pending[1..]))
            else (Next(a, true, r, false, c.stall, 0), s1)
  {
    hide Accept, Next;
  }

  /** If nothing is on its way back, there is a request to make. */
  lemma MustAsk(a: Regs, s: Slave, m: Mem, r: Request, c: Choice)
    requires Accessing(a, s, m, r) && Accept(s, a, c.stall).pending == [] && !c.stall
    ensures a.addrs < Target(r)
  {
    hide Returning, StoredBytes, FilledBytes, Target, OutData, ByteNumber;
  }

  /** Nothing is acknowledged in this clock. */
  lemma Waits(a: Regs, s: Slave, m: Mem, r: Request, c: Choice)
    requires Proper(r) && Accessing(a, s, m, r) && Lawful(a, c)
    requires !(c.ack && Accept(s, a, c.stall).pending != [])
    ensures var (a', s') := Step(a, s, true, r, c); Advances(a, s, m, r, c, a', s')
  {
    hide *;
    Accepted(a, s, m, r, c);
    AccessingHas(a, s, m, r);
    var s1 := Accept(s, a, c.stall);
    var x := Next(a, true, r, false, c.stall, 0);
    Requests(a, s, m, r, c, false, 0);
    AccessingIs(x, s1, m, r);
    if c.ack && !c.stall {
      MustAsk(a, s, m, r, c);
    }
    Nearer(a, s, m, r, c, x, s1, false);
    StepIs(a, s, r, c);
  }

  /** A byte arrives that is not the last. */
  lemma Arrives(a: Regs, s: Slave, m: Mem, r: Request, c: Choice)
    requires Proper(r) && Accessing(a, s, m, r) && Lawful(a, c) && a.acks + 1 < Target(r)
    requires c.ack && Accept(s, a, c.stall).pending != []
    ensures var (a', s') := Step(a, s, true, r, c); Advances(a, s, m, r, c, a', s')
  {
    hide *;
    Accepted(a, s, m, r, c);
    AccessingHas(a, s, m, r);
    var s1 := Accept(s, a, c.stall);
    var p := s1.pending;
    var x := Next(a, true, r, true, c.stall, p[0]);
    Requests(a, s, m, r, c, true, p[0]);
    ReturnedByte(m, r, p, a.acks, a.buffer);
    AccessingIs(x, s1.(pending := p[1..]), m, r);
    Nearer(a, s, m, r, c, x, s1.(pending := p[1..]), true);
    StepIs(a, s, r, c);
  }

  lemma FinishedIs(a: Regs, s: Slave, m: Mem, r: Request)
    ensures Finished(a, s, m, r) <==>
            && a.addrs == 0 && a.acks == 0 && !a.stb && s.pending == [] && !a.busy && Written(m, s.mem, r)
            && (!r.write ==> Delivered(m, r, a.buffer))
  {
    hide Written, Delivered;
  }

  lemma AdvancesLast(a: Regs, s: Slave, m: Mem, r: Request, c: Choice, a': Regs, s': Slave)
    requires Finished(a', s', m, r) && a.acks + 1 == Target(r) == TakenNext(a, c)
    ensures Advances(a, s, m, r, c, a', s')
  {
    hide Finished, Accessing, Target, TakenNext;
  }

  /** The last byte arrives. */
  lemma Ends(a: Regs, s: Slave, m: Mem, r: Request, c: Choice)
    requires Proper(r) && Accessing(a, s, m, r) && Lawful(a, c) && a.acks + 1 == Target(r)
    requires c.ack && Accept(s, a, c.stall).pending != []
    ensures var (a', s') := Step(a, s, true, r, c); Advances(a, s, m, r, c, a', s')
  {
    hide *;
    Accepted(a, s, m, r, c);
    AccessingHas(a, s, m, r);
    var s1 := Accept(s, a, c.stall);
    var p := s1.pending;
    var x := Next(a, true, r, true, c.stall, p[0]);
    LastAck(a, s, m, r, c, p[0]);
    ReturnedByte(m, r, p, a.acks, a.buffer);
    AllBytes(m, s1.mem, r, x.buffer);
    FinishedIs(x, s1.(pending := p[1..]), m, r);
    AdvancesLast(a, s, m, r, c, x, s1.(pending := p[1..]));
    StepIs(a, s, r, c);
  }

  /** Every clock of an access either ends it with the effect it should have, or keeps it going; if
      the slave does not stall and acknowledges what it can, it comes nearer to its end. */
  lemma AccessStep(a: Regs, s: Slave, m: Mem, r: Request, c: Choice)
    requires Proper(r) && Accessing(a, s, m, r) && Lawful(a, c)
    ensures var (a', s') := Step(a, s, true, r, c); Advances(a, s, m, r, c, a', s')
  {
    hide *;
    AccessingHas(a, s, m, r);
    if !(c.ack && Accept(s, a, c.stall).pending != []) {
      Waits(a, s, m, r, c);
    } else if a.acks + 1 < Target(r) {
      Arrives(a, s, m, r, c);
    } else {
      Ends(a, s, m, r, c);
    }
  }

  lemma LeftPositive(a: Regs, s: Slave, m: Mem, r: Request)
    requires Proper(r) && Accessing(a, s, m, r)
    ensures 0 < Left(a, r) <= 3 * Target(r)
  {
    TargetIs(r);
    hide StoredBytes, Returning, FilledBytes, Target, OutData, ByteNumber;
  }

  /** The requests the slave has accepted are those for the bytes of the access, in order. */
  ghost predicate Requested(r: Request, log: seq<nat>, n: int) {
    |log| == n && forall k: nat :: k < |log| ==> log[k] == ByteNumber(r, k)
  }

  lemma RequestedNext(a: Regs, s: Slave, m: Mem, r: Request, c: Choice, log: seq<nat>)
    requires Accessing(a, s, m, r) && Requested(r, log, Taken(a))
    ensures Requested(r, if Accepts(a, c.stall) then log + [a.adr] else log, TakenNext(a, c))
  {
    hide StoredBytes, Returning, FilledBytes, Target, OutData, ByteNumber;
  }

  lemma GatedIsLawful(a: Regs, c: Choice)
    ensures Lawful(a, Gated(a, c)) && Gated(a, c).ack == c.ack && (!c.stall ==> !Gated(a, c).stall)
  {
  }

  lemma FinishedHas(a: Regs, s: Slave, m: Mem, r: Request)
    requires Finished(a, s, m, r)
    ensures Idle(a, s) && !a.busy && Written(m, s.mem, r) && (!r.write ==> Delivered(m, r, a.buffer))
  {
    hide Written, Delivered, Idle;
  }

  lemma AdvanceCases(a: Regs, s: Slave, m: Mem, r: Request, c: Choice, a': Regs, s': Slave)
    requires Advances(a, s, m, r, c, a', s')
    ensures !a'.busy ==> Finished(a', s', m, r) && TakenNext(a, c) == Target(r)
    ensures a'.busy ==> Accessing(a', s', m, r) && Taken(a') == TakenNext(a, c) && Left(a', r) <= Left(a, r)
    ensures a'.busy && !c.stall && c.ack ==> Left(a', r) < Left(a, r)
  {
    hide Target, Accessing, Written, Delivered, Idle, Left;
  }

  /** Adapter and slave in an access, the addresses the slave has accepted since it began, and whether
      the wait line has fallen. */
  datatype Track = Track(a: Regs, s: Slave, log: seq<nat>, done: bool)

  /** One clock. The CPU holds its strobe until the wait line falls. */
  function Clocked(t: Track, r: Request, c: Choice): Track {
    var (a, s) := Step(t.a, t.s, !t.done, r, c);
    Track(a, s, if Accepts(t.a, c.stall) then t.log + [t.a.adr] else t.log, t.done || !a.busy)
  }

  /** Clocks with the stall line gated. */
  function Run(t: Track, r: Request, cs: seq<Choice>): Track
    decreases |cs|
  {
    if cs == [] then t else Run(Clocked(t, r, Gated(t.a, cs[0])), r, cs[1..])
  }

  /** What an access that found the memory `m` should look like from outside, at any time: the slave has
      accepted no request but those for the bytes of the access; and once the wait line has fallen,
      it has accepted and answered them all, and the bytes are written or delivered. */
  ghost predicate Right(t: Track, m: Mem, r: Request) {
    && |t.log| <= Target(r) && Requested(r, t.log, |t.log|)
    && (t.done ==>
          && |t.log| == Target(r) && t.s.pending == [] && Written(m, t.s.mem, r)
          && (!r.write ==> Delivered(m, r, t.a.buffer)))
  }

  /** The clocks `cs` leave the access right, and end it if there are enough unhindered ones. */
  ghost predicate Serves(t: Track, m: Mem, r: Request, cs: seq<Choice>) {
    var t' := Run(t, r, cs);
    Right(t', m, r) && (GoodClocks(cs, |cs|) >= 3 * Target(r) ==> t'.done)
  }

  /** The access is under way or over, with the log that belongs to it. */
  ghost predicate Orderly(t: Track, m: Mem, r: Request) {
    if t.done then Finished(t.a, t.s, m, r) && Requested(r, t.log, Target(r))
    else Accessing(t.a, t.s, m, r) && Requested(r, t.log, Taken(t.a))
  }

  /** A slave that stalls only a request keeps the access in order. */
  lemma OrderlyClock(t: Track, m: Mem, r: Request, c: Choice)
    requires Proper(r) && Orderly(t, m, r) && Lawful(t.a, c)
    ensures var t' := Clocked(t, r, c);
            && Orderly(t', m, r) && (t.done ==> t'.done)
            && (!t'.done ==> Left(t'.a, r) <= Left(t.a, r) && (!c.stall && c.ack ==> Left(t'.a, r) < Left(t.a, r)))
  {
    if t.done {
      FinishedHas(t.a, t.s, m, r);
    } else {
      AccessStep(t.a, t.s, m, r, c);
      RequestedNext(t.a, t.s, m, r, c, t.log);
      var (a', s') := Step(t.a, t.s, true, r, c);
      AdvanceCases(t.a, t.s, m, r, c, a', s');
      hide Step, Finished;
    }
    hide Accessing, Requested, Written, Delivered, Taken, TakenNext, Target, Left, Advances;
  }

  lemma OrderlyLeft(t: Track, m: Mem, r: Request)
    requires Proper(r) && Orderly(t, m, r) && !t.done
    ensures 0 < Left(t.a, r) <= 3 * Target(r)
  {
    LeftPositive(t.a, t.s, m, r);
    hide Accessing, Left, Requested;
  }

  lemma OrderlyRun(t: Track, m: Mem, r: Request, cs: seq<Choice>)
    requires Proper(r) && Orderly(t, m, r)
    ensures var t' := Run(t, r, cs);
            Orderly(t', m, r) && (t.done || GoodClocks(cs, |cs|) >= Left(t.a, r) ==> t'.done)
    decreases |cs|
  {
    if cs == [] {
      if !t.done {
        OrderlyLeft(t, m, r);
      }
    } else {
      var c := Gated(t.a, cs[0]);
      GatedIsLawful(t.a, cs[0]);
      OrderlyClock(t, m, r, c);
      OrderlyRun(Clocked(t, r, c), m, r, cs[1..]);
      GoodFirst(cs, |cs|);
    }
    hide Orderly, Clocked, Left, Lawful, Gated;
  }

  lemma TakenBounded(a: Regs, s: Slave, m: Mem, r: Request)
    requires Accessing(a, s, m, r)
    ensures Taken(a) <= Target(r)
  {
    hide StoredBytes, Returning, FilledBytes, Asking, Target;
  }

  lemma OrderlyIsRight(t: Track, m: Mem, r: Request)
    requires Proper(r) && Orderly(t, m, r)
    ensures Right(t, m, r)
  {
    if t.done {
      FinishedHas(t.a, t.s, m, r);
    } else {
      TakenBounded(t.a, t.s, m, r);
    }
    hide Finished, Accessing, Written, Delivered, Taken, Target;
  }

  /** The slave owes an answer more than the access has bytes, or will once the adapter has made the
      requests it still counts on. */
  predicate Ahead(t: Track, r: Request) {
    && t.a.acks < Target(r) && t.a.addrs <= Target(r) && t.a.cyc && !t.done
    && (!t.a.stb ==> t.a.addrs == Target(r))
    && |t.log| == Taken(t.a) + 1 == t.a.acks + |t.s.pending|
  }

  /** The wait line has fallen, and the slave has accepted a request too many and not answered it. */
  predicate Overrun(t: Track, r: Request) {
    t.done && |t.log| == Target(r) + 1 && t.s.pending != []
  }

  lemma AheadClock(t: Track, r: Request)
    requires Ahead(t, r)
    ensures var t' := Clocked(t, r, Choice(false, !t.a.stb));
            if t'.done then Overrun(t', r)
            else
              && Ahead(t', r)
              && (t.a.stb ==> t'.a.acks == t.a.acks && t'.a.addrs == t.a.addrs + (if t'.a.stb then 1 else 0))
              && (!t.a.stb ==> t'.a.acks == t.a.acks + 1 && t'.a.addrs == t.a.addrs && !t'.a.stb)
  {
    hide Target, OutData, Fill, StoreByte;
  }

  /** Without further stalls, and with acknowledgements only after the last request, an adapter that is
      ahead ends in an overrun. */
  lemma AheadOverruns(t: Track, r: Request) returns (cs: seq<Choice>)
    requires Ahead(t, r)
    ensures Overrun(Run(t, r, cs), r)
    decreases 2 * Target(r) - t.a.addrs + (if t.a.stb then 1 else 0) - t.a.acks
  {
    var c := Choice(false, !t.a.stb);
    AheadClock(t, r);
    var t1 := Clocked(t, r, c);
    if t1.done {
      cs := [c];
      assert Run(t1, r, cs[1..]) == t1;
    } else {
      var rest := AheadOverruns(t1, r);
      cs := [c] + rest;
      assert cs[1..] == rest;
    }
    hide Ahead, Overrun, Clocked, Target;
  }

  /** A stall without a request: the adapter strobes with what its registers hold. */
  lemma StrobesAgain(a: Regs, s: Slave, m: Mem, r: Request, c: Choice, log: seq<nat>)
    requires Proper(r) && Accessing(a, s, m, r) && Requested(r, log, Taken(a)) && !Lawful(a, c)
    ensures var t := Clocked(Track(a, s, log, false), r, c);
            && t.a.stb && t.a.cyc && t.a.adr == a.adr
            && (if t.done then |t.log| == Target(r) && t.s.pending == [] else Ahead(t, r))
  {
    TargetIs(r);
    hide Target, StoredBytes, Returning, FilledBytes, OutData, Fill, ByteNumber;
  }

  /** The access is over, but the adapter still strobes. */
  lemma LateRequest(t: Track, r: Request)
    requires t.done && t.a.stb && t.a.cyc && |t.log| == Target(r)
    ensures Overrun(Clocked(t, r, Choice(false, false)), r)
  {
    hide Target, OutData, Fill, StoreByte;
  }

  /** After a stall without a request there is a way to go on, with no such stall any more, that ends
      with a request too many accepted and not answered. */
  lemma StallOverruns(a: Regs, s: Slave, m: Mem, r: Request, c: Choice, log: seq<nat>) returns (cs: seq<Choice>)
    requires Proper(r) && Accessing(a, s, m, r) && Requested(r, log, Taken(a)) && !Lawful(a, c)
    ensures Overrun(Run(Clocked(Track(a, s, log, false), r, c), r, cs), r)
  {
    var t := Clocked(Track(a, s, log, false), r, c);
    StrobesAgain(a, s, m, r, c, log);
    if t.done {
      var c1 := Choice(false, false);
      cs := [c1];
      assert Run(Clocked(t, r, c1), r, cs[1..]) == Clocked(t, r, c1);
      LateRequest(t, r);
    } else {
      cs := AheadOverruns(t, r);
    }
    hide Clocked, Accessing, Requested, Taken, Overrun, Ahead, Target;
  }

  lemma LawfulServes(a: Regs, s: Slave, m: Mem, r: Request, c: Choice, log: seq<nat>, cs: seq<Choice>)
    requires Proper(r) && Accessing(a, s, m, r) && Requested(r, log, Taken(a)) && Lawful(a, c)
    ensures Serves(Clocked(Track(a, s, log, false), r, c), m, r, cs)
  {
    var t := Clocked(Track(a, s, log, false), r, c);
    OrderlyClock(Track(a, s, log, false), m, r, c);
    OrderlyRun(t, m, r, cs);
    OrderlyIsRight(Run(t, r, cs), m, r);
    if !t.done {
      OrderlyLeft(t, m, r);
    }
    hide Clocked, Accessing, Requested, Run, Right, Lawful, Left, Target, Taken, Finished;
  }

  lemma OverrunNotRight(t: Track, m: Mem, r: Request)
    requires Overrun(t, r)
    ensures !Right(t, m, r)
  {
    hide Target;
  }

  /** An access is served right from here on, however the slave stalls its requests and delays its
      answers, exactly if it does not stall in this clock without a request. */
  lemma OnlyLawfulSteps(a: Regs, s: Slave, m: Mem, r: Request, c: Choice, log: seq<nat>)
    requires Proper(r) && Accessing(a, s, m, r) && Requested(r, log, Taken(a))
    ensures var t := Clocked(Track(a, s, log, false), r, c);
            Lawful(a, c) <==> forall cs: seq<Choice> :: Serves(t, m, r, cs)
  {
    var t := Clocked(Track(a, s, log, false), r, c);
    if Lawful(a, c) {
      forall cs: seq<Choice>
        ensures Serves(t, m, r, cs)
      {
        LawfulServes(a, s, m, r, c, log, cs);
      }
    } else {
      var cs := StallOverruns(a, s, m, r, c, log);
      OverrunNotRight(Run(t, r, cs), m, r);
      assert !Serves(t, m, r, cs);
    }
    hide Clocked, Accessing, Requested, Run, Right, Overrun, Lawful;
  }

  /** What a slave that is stalling when a write begins does once it stops: it stores the old data at
      the old address. */
  lemma StaleWrite(a: Regs, s: Slave, r: Request)
    requires Proper(r) && Idle(a, s) && r.write
    ensures var (a1, s1) := Step(a, s, true, r, Choice(true, false));
            var (a2, s2) := Step(a1, s1, true, r, Choice(false, false));
            forall x: u32 :: s2.mem(x) == StoreByte(s.mem, a.adr, a.dat)(x)
  {
    TargetIs(r);
    hide Target, OutData, Fill, StoreByte;
  }

  /** What the read of a byte leaves in the registers. */
  lemma ByteRead(a: Regs, s: Slave, r: Request)
    requires Idle(a, s) && !r.half && !r.full && !r.write
    ensures var t := Run(Track(a, s, [], false), r, [Choice(false, false), Choice(false, true)]);
            t.done && Idle(t.a, t.s) && t.s.mem == s.mem && t.a.adr == r.addr && t.a.dat == r.data[0]
  {
    var t0 := Track(a, s, [], false);
    var c0, c1 := Choice(false, false), Choice(false, true);
    var t1 := Clocked(t0, r, c0);
    var t2 := Clocked(t1, r, c1);
    assert [c0, c1][1..] == [c1] && [c1][1..] == [];
    assert Run(t2, r, []) == t2 && Run(t1, r, [c1]) == t2;
    hide Fill;
  }

  /** An example: after the read `r0` of a byte, the slave stalls when a write `r1` that does not touch
      this byte begins. The byte that was read is overwritten, with what was on the data lines then. */
  lemma ForeignWrite(a: Regs, s: Slave, r0: Request, r1: Request)
    requires Idle(a, s) && !r0.half && !r0.full && !r0.write
    requires Proper(r1) && r1.write && Word(r0.addr - r1.addr) >= Size(r1)
    ensures var t := Run(Track(a, s, [], false), r0, [Choice(false, false), Choice(false, true)]);
            var (a1, s1) := Step(t.a, t.s, true, r1, Choice(true, false));
            var (a2, s2) := Step(a1, s1, true, r1, Choice(false, false));
            t.done && Idle(t.a, t.s) && t.s.mem == s.mem && s2.mem(r0.addr) == r0.data[0]
  {
    ByteRead(a, s, r0);
    var t := Run(Track(a, s, [], false), r0, [Choice(false, false), Choice(false, true)]);
    StaleWrite(t.a, t.s, r1);
    hide Run, Step, Idle, Word, Size;
  }

  lemma NoneRequested(a: Regs, s: Slave, r: Request)
    requires Idle(a, s)
    ensures Requested(r, [], Taken(a)) && GoodClocks([], 0) == 0 && forall c: seq<Choice> :: GoodClocks(c, 0) == 0
  {
  }

  /** The adapter as hardware: its registers, changed by every clock. */
  class Adapter {
    var busy: bool
    var buffer: Lane4
    var acks: nat
    var addrs: nat
    var adr: u32
    var dat: u8
    var cyc: bool
    var stb: bool
    var we: bool

    /** The adapter after a first clock without a strobe; the address and data are not initialised. */
    constructor (adr: u32, dat: u8)
      ensures this.adr == adr && !busy && !stb && acks == 0 && addrs == 0
    {
      busy, buffer, acks, addrs, cyc, stb, we := false, [0, 0, 0, 0], 0, 0, false, false, false;
      this.adr, this.dat := adr, dat;
    }

    function Registers(): Regs
      reads this
    {
      Regs(busy, buffer, acks, addrs, adr, dat, cyc, stb, we)
    }

    /** The address phase of a clock. */
    method Ask(r: Request, stall: bool)
      modifies this`stb, this`adr, this`dat, this`addrs
      ensures Registers() == Asked(old(Registers()), r, stall)
    {
      hide OutData, Target, Word;
      if addrs != Target(r) && !stall {
        stb := true;
        adr := Word(r.addr + addrs);
        dat := OutData(addrs, r.data);
        addrs := addrs + 1;
      }
    }

    /** The data phase of a clock. */
    method Answer(r: Request, w: u8)
      modifies this`busy, this`buffer, this`acks, this`addrs
      ensures Registers() == Answered(old(Registers()), r, w)
    {
      hide Fill, Target;
      buffer := Fill(buffer, acks, w);
      acks := acks + 1;
      if acks == Target(r) {
        busy, acks, addrs := false, 0, 0;
      }
    }

    /** One rising clock edge. */
    method Clock(strobe: bool, r: Request, ack: bool, stall: bool, w: u8)
      modifies this
      ensures Registers() == Next(old(Registers()), strobe, r, ack, stall, w)
    {
      hide Asked, Answered, Target;
      busy, cyc, we, stb := strobe, strobe, strobe && r.write, strobe && (addrs != Target(r) || stall);
      if strobe && acks != Target(r) {
        Ask(r, stall);
        if ack {
          Answer(r, w);
        }
      }
    }

    /** A clock together with the slave. */
    method ClockWith(s: Slave, strobe: bool, r: Request, c: Choice) returns (s': Slave)
      modifies this
      ensures (Registers(), s') == Step(old(Registers()), s, strobe, r, c)
    {
      hide Next, Accept;
      s' := Accept(s, Registers(), c.stall);
      if c.ack && s'.pending != [] {
        Clock(strobe, r, true, c.stall, s'.pending[0]);
        s' := s'.(pending := s'.pending[1..]);
      } else {
        Clock(strobe, r, false, c.stall, 0);
      }
    }

    /** A whole access, over any schedule of stalls and acknowledgements: the wait line stays high
        until it is over, then exactly the addressed bytes are written or delivered, each byte
        has been requested once, and it is over after at most three unhindered clocks for each of
        them. */
    method Access(r: Request, s: Slave, schedule: seq<Choice>) returns (s': Slave, done: bool, used: nat, log: seq<nat>)
      requires Proper(r) && Idle(Registers(), s)
      modifies this
      ensures used <= |schedule| && (used == |schedule| || done)
      ensures done ==> Finished(Registers(), s', s.mem, r) && Requested(r, log, Target(r))
      ensures !done ==> Accessing(Registers(), s', s.mem, r) && (used > 0 ==> Registers().busy)
      ensures GoodClocks(schedule, |schedule|) >= 3 * Target(r) ==> done
    {
      hide *;
      AccessStarts(Registers(), s, s.mem, r);
      NoneRequested(Registers(), s, r);
      s', done, used, log := s, false, 0, [];
      while used < |schedule| && !done
        invariant used <= |schedule|
        invariant !done ==> Accessing(Registers(), s', s.mem, r) && Requested(r, log, Taken(Registers())) && (used > 0 ==> Registers().busy)
        invariant !done ==> GoodClocks(schedule, used) + Left(Registers(), r) <= 3 * Target(r)
        invariant done ==> Finished(Registers(), s', s.mem, r) && Requested(r, log, Target(r))
        decreases |schedule| - used
      {
        var a := Registers();
        var c := Gated(a, schedule[used]);
        GatedIsLawful(a, schedule[used]);
        AccessStep(a, s', s.mem, r, c);
        RequestedNext(a, s', s.mem, r, c, log);
        if Accepts(a, c.stall) {
          log := log + [a.adr];
        }
        ghost var before := s';
        s' := ClockWith(s', true, r, c);
        done := !Registers().busy;
        AdvanceCases(a, before, s.mem, r, c, Registers(), s');
        GoodNext(schedule, used);
        used := used + 1;
      }
      if !done {
        LeftPositive(Registers(), s', s.mem, r);
      }
    }
  }
}
