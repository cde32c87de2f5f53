/** Either bus adapter with its slave, seen from the processor: a memory that keeps the wait line high
    until an access is done. */
module BusSide {
  import opened Words
  import opened Machine
  import opened Lanes
  import W32 = Wishbone32
  import W8 = Wishbone8

  datatype Side =
    | Wide(regs32: W32.Regs, slave32: W32.Slave)
    | Narrow(regs8: W8.Regs, slave8: W8.Slave)

  /** The wait line. */
  predicate Waiting(x: Side) {
    match x
    case Wide(a, _) => a.busy
    case Narrow(a, _) => a.busy
  }

  /** The data lines. */
  function Buffer(x: Side): Lane4 {
    match x
    case Wide(a, _) => a.buffer
    case Narrow(a, _) => a.buffer
  }

  function Memory(x: Side): Mem {
    match x
    case Wide(_, s) => s.mem
    case Narrow(_, s) => s.mem
  }

  /** A clock. The slave stalls and acknowledges as it chooses, with the stall line gated. */
  function Clock(x: Side, strobe: bool, r: Request, c: Choice): Side {
    match x
    case Wide(a, s) =>
      var (a', s') := W32.Step(a, s, strobe, r, W32.Gated(a, c));
      Wide(a', s')
    case Narrow(a, s) =>
      var (a', s') := W8.Step(a, s, strobe, r, W8.Gated(a, c));
      Narrow(a', s')
  }

  predicate Idle(x: Side) {
    match x
    case Wide(a, s) => W32.Idle(a, s)
    case Narrow(a, s) => W8.Idle(a, s)
  }

  /** An access is under way that found the memory `m`. */
  ghost predicate Accessing(x: Side, m: Mem, r: Request) {
    match x
    case Wide(a, s) => W32.Accessing(a, s, m, r)
    case Narrow(a, s) => W8.Accessing(a, s, m, r)
  }

  /** Unhindered clocks left of an access. */
  function Left(x: Side, r: Request): int {
    match x
    case Wide(a, _) => W32.Left(a, r)
    case Narrow(a, _) => W8.Left(a, r)
  }

  /** Unhindered clocks that any access needs at most. */
  function Longest(x: Side): nat {
    if x.Wide? then 6 else 12
  }

  lemma Starts(x: Side, m: Mem, r: Request)
    requires Idle(x) && Proper(r) && forall a: u32 :: m(a) == Memory(x)(a)
    ensures Accessing(x, m, r)
  {
    hide W32.Idle, W32.Accessing, W8.Idle, W8.Accessing, W32.Left, W8.Left, W32.Target, W8.Target;
    match x {
      case Wide(a, s) => W32.AccessStarts(a, s, m, r);
      case Narrow(a, s) => W8.AccessStarts(a, s, m, r);
    }
  }

  lemma IdleStays32(a: W32.Regs, s: W32.Slave, r: Request, c: Choice)
    requires W32.Idle(a, s)
    ensures var (a', s') := W32.Step(a, s, false, r, c);
            W32.Idle(a', s') && s' == s && !a'.busy && a'.buffer == a.buffer
  {
    hide W32.Asked, W32.Answered, W32.Target;
  }

  lemma IdleStays8(a: W8.Regs, s: W8.Slave, r: Request, c: Choice)
    requires W8.Idle(a, s)
    ensures var (a', s') := W8.Step(a, s, false, r, c);
            W8.Idle(a', s') && s' == s && !a'.busy && a'.buffer == a.buffer
  {
    hide W8.Asked, W8.Answered, W8.Target;
  }

  /** Without a strobe nothing happens. */
  lemma IdleStays(x: Side, r: Request, c: Choice)
    requires Idle(x)
    ensures var x' := Clock(x, false, r, c);
            && Idle(x') && !Waiting(x') && Memory(x') == Memory(x) && Buffer(x') == Buffer(x) && (x'.Wide? <==> x.Wide?)
  {
    hide W32.Idle, W8.Idle, W32.Step, W8.Step, W32.Gated, W8.Gated;
    match x {
      case Wide(a, s) => IdleStays32(a, s, r, W32.Gated(a, c));
      case Narrow(a, s) => IdleStays8(a, s, r, W8.Gated(a, c));
    }
  }

  /** What a clock of an access comes to. */
  ghost predicate Goes(x: Side, m: Mem, r: Request, c: Choice, x': Side) {
    && (x'.Wide? <==> x.Wide?)
    && if Waiting(x') then
         && Accessing(x', m, r) && Left(x', r) <= Left(x, r)
         && (!c.stall && c.ack ==> Left(x', r) < Left(x, r))
       else Idle(x') && Written(m, Memory(x'), r) && (!r.write ==> Delivered(m, r, Buffer(x')))
  }

  lemma Goes32(a: W32.Regs, s: W32.Slave, m: Mem, r: Request, c: Choice)
    requires Proper(r) && W32.Accessing(a, s, m, r)
    ensures Goes(Wide(a, s), m, r, c, Clock(Wide(a, s), true, r, c))
  {
    W32.GatedIsLawful(a, c);
    var g := W32.Gated(a, c);
    W32.AccessStep(a, s, m, r, g);
    var (a', s') := W32.Step(a, s, true, r, g);
    W32.AdvanceCases(a, s, m, r, g, a', s');
    if !a'.busy {
      W32.FinishedHas(a', s', m, r);
    }
    hide W32.Step, W32.Accessing, W32.Idle, W32.Left, W32.Finished, W32.Gated, W32.Advances, Written, Delivered;
  }

  lemma Goes8(a: W8.Regs, s: W8.Slave, m: Mem, r: Request, c: Choice)
    requires Proper(r) && W8.Accessing(a, s, m, r)
    ensures Goes(Narrow(a, s), m, r, c, Clock(Narrow(a, s), true, r, c))
  {
    W8.GatedIsLawful(a, c);
    var g := W8.Gated(a, c);
    W8.AccessStep(a, s, m, r, g);
    var (a', s') := W8.Step(a, s, true, r, g);
    W8.AdvanceCases(a, s, m, r, g, a', s');
    if !a'.busy {
      W8.FinishedHas(a', s', m, r);
    }
    hide W8.Step, W8.Accessing, W8.Idle, W8.Left, W8.Finished, W8.Gated, W8.Advances, Written, Delivered;
  }

  /** A clock of an access ends it with its effect, or brings it nearer to its end unless the slave
      hinders it. */
  lemma Steps(x: Side, m: Mem, r: Request, c: Choice)
    requires Proper(r) && Accessing(x, m, r)
    ensures Goes(x, m, r, c, Clock(x, true, r, c))
  {
    hide Goes, Clock, W32.Accessing, W8.Accessing;
    match x {
      case Wide(a, s) => Goes32(a, s, m, r, c);
      case Narrow(a, s) => Goes8(a, s, m, r, c);
    }
  }

  lemma GoesHas(x: Side, m: Mem, r: Request, c: Choice, x': Side)
    requires Goes(x, m, r, c, x')
    ensures x'.Wide? <==> x.Wide?
    ensures Waiting(x') ==> Accessing(x', m, r) && Left(x', r) <= Left(x, r)
    ensures Waiting(x') && !c.stall && c.ack ==> Left(x', r) < Left(x, r)
    ensures !Waiting(x') ==> Idle(x') && Written(m, Memory(x'), r) && (!r.write ==> Delivered(m, r, Buffer(x')))
  {
    hide Waiting, Accessing, Left, Idle, Written, Delivered, Memory, Buffer;
  }

  lemma LeftBounds(x: Side, m: Mem, r: Request)
    requires Proper(r) && Accessing(x, m, r)
    ensures 1 <= Left(x, r) <= Longest(x)
  {
    hide W32.Accessing, W8.Accessing, W32.Left, W8.Left;
    match x {
      case Wide(a, s) => W32.LeftPositive(a, s, m, r);
      case Narrow(a, s) => W8.LeftPositive(a, s, m, r);
    }
  }
}
