/** The adapter from the CPU bus to a 32-bit pipelined Wishbone bus (bus/wishbone32.v). */
module Wishbone32 {
  import opened Words
  import opened Machine
  import opened Lanes

  const WORDS: nat := 0x4000_0000

  /** The number of a bus word. */
  type BusAddress = x: int | 0 <= x < 0x4000_0000

  /** The byte enables: those of the first bus word times 16, plus those of the second. */
  function ByteEnables(off: nat, half: bool, full: bool): nat {
    if !half && !full then
      if off == 0 then 0x10 else if off == 1 then 0x20 else if off == 2 then 0x40 else 0x80
    else if half && !full then
      if off == 0 then 0x30 else if off == 1 then 0x60 else if off == 2 then 0xC0 else 0x81
    else if !half && full then
      if off == 0 then 0xF0 else if off == 1 then 0xE1 else if off == 2 then 0xC3 else 0x87
    else 0
  }

  function EnablesOf(r: Request): nat {
    ByteEnables(r.addr % 4, r.half, r.full)
  }

  /** Bus words to be accessed: two for an access that crosses a word boundary. */
  function Target(r: Request): nat {
    if EnablesOf(r) % 16 != 0 then 2 else 1
  }

  /** The byte selects of the first or second bus word. */
  function Select(r: Request, second: bool): nat {
    if second then EnablesOf(r) % 16 else EnablesOf(r) / 16
  }

  predicate Selected(sel: nat, lane: nat) {
    if lane == 0 then sel % 2 == 1
    else if lane == 1 then sel / 2 % 2 == 1
    else if lane == 2 then sel / 4 % 2 == 1
    else sel / 8 % 2 == 1
  }

  /** The data put on the lanes. */
  function OutData(off: nat, second: bool, c: Lane4): Lane4 {
    if !second then
      if off == 0 then c
      else if off == 1 then [c[0], c[0], c[1], c[2]]
      else if off == 2 then [c[0], c[0], c[0], c[1]]
      else [c[0], c[0], c[0], c[0]]
    else
      if off <= 1 then [c[3], c[3], c[3], c[3]]
      else if off == 2 then [c[2], c[3], c[3], c[3]]
      else [c[1], c[2], c[3], c[3]]
  }

  /** The read buffer after a bus word arrived. */
  function Fill(b: Lane4, off: nat, second: bool, w: Lane4): Lane4 {
    if !second then
      if off == 0 then w
      else if off == 1 then [w[1], w[2], w[3], b[3]]
      else if off == 2 then [w[2], w[3], b[2], b[3]]
      else [w[3], b[1], b[2], b[3]]
    else
      if off <= 1 then [b[0], b[1], b[2], w[0]]
      else if off == 2 then [b[0], b[1], w[0], w[1]]
      else [b[0], w[0], w[1], w[2]]
  }

  /** The registers of the adapter. */
  datatype Regs = Regs(
    busy: bool, buffer: Lane4, acks: nat, addrs: nat,
    adr: BusAddress, dat: Lane4, cyc: bool, stb: bool, we: bool, sel: nat)

  /** The next request, unless all are made or the slave stalls. */
  function Asked(a: Regs, r: Request, stall: bool): Regs {
    if a.acks == Target(r) || a.addrs == Target(r) || stall then a
    else
      var second := a.addrs % 2 == 1;
      a.(stb := true, adr := (r.addr / 4 + a.addrs) % WORDS, sel := Select(r, second),
         dat := OutData(r.addr % 4, second, r.data), addrs := a.addrs + 1)
  }

  /** The acknowledgement with number `acks`. */
  function Answered(a: Regs, r: Request, dat: Lane4): Regs {
    var f := if r.write then a else a.(buffer := Fill(a.buffer, r.addr % 4, a.acks % 2 == 1, dat));
    if a.acks + 1 == Target(r) then f.(busy := false, acks := 0, addrs := 0) else f.(acks := a.acks + 1)
  }

  /** One rising clock edge; `strobe` and `r` come from the CPU, the rest from the bus. */
  function Next(a: Regs, strobe: bool, r: Request, ack: bool, stall: bool, dat: Lane4): Regs {
    var b := a.(busy := strobe, cyc := strobe, we := strobe && r.write,
                stb := strobe && (a.addrs != Target(r) || stall));
    if !strobe then b
    else if ack then Answered(Asked(b, r, stall), r, dat)
    else Asked(b, r, stall)
  }

  /** A pipelined slave: memory, and the words of the requests it has accepted and not yet
      acknowledged. */
  datatype Slave = Slave(mem: Mem, pending: seq<Lane4>)

  function WordAt(m: Mem, adr: BusAddress): Lane4 {
    [m(4 * adr), m(4 * adr + 1), m(4 * adr + 2), m(4 * adr + 3)]
  }

  /** The bytes of a word that are selected. */
  function StoreLanes(m: Mem, adr: BusAddress, sel: nat, w: Lane4): Mem {
    (x: u32) => if x / 4 == adr && Selected(sel, x % 4) then w[x % 4] else m(x)
  }

  /** The slave takes the request on the bus unless it stalls. */
  predicate Accepts(a: Regs, stall: bool) {
    a.cyc && a.stb && !stall
  }

  function Accept(s: Slave, a: Regs, stall: bool): Slave
  {
    if !Accepts(a, stall) then s
    else Slave(if a.we then StoreLanes(s.mem, a.adr, a.sel, a.dat) else s.mem, s.pending + [WordAt(s.mem, a.adr)])
  }

  /** The slaves of this system stall only a request: they gate the stall line with the strobe. */
  predicate Lawful(a: Regs, c: Choice) {
    c.stall ==> a.stb
  }

  /** The choice with the stall line gated. */
  function Gated(a: Regs, c: Choice): Choice {
    c.(stall := c.stall && a.stb)
  }

  /** A clock of adapter and slave together. */
  function Step(a: Regs, s: Slave, strobe: bool, r: Request, c: Choice): (Regs, Slave)
  {
    var s1 := Accept(s, a, c.stall);
    if c.ack && s1.pending != [] then
      (Next(a, strobe, r, true, c.stall, s1.pending[0]), s1.(pending := s1.pending[1..]))
    else (Next(a, strobe, r, false, c.stall, [0, 0, 0, 0]), s1)
  }

  /** Byte `i` of an access is on lane `(off + i) % 4` of bus word `(off + i) / 4`. */
  lemma Placement(r: Request, i: nat)
    requires Proper(r) && i < Size(r)
    ensures var p := r.addr % 4 + i;
            && p / 4 < Target(r) && Selected(Select(r, p / 4 == 1), p % 4)
            && OutData(r.addr % 4, p / 4 == 1, r.data)[p % 4] == r.data[i]
  {
  }

  /** No other lane is selected. */
  lemma OnlyPlaced(r: Request, second: bool, lane: nat)
    requires Proper(r) && lane < 4 && Selected(Select(r, second), lane)
    ensures var p := lane + if second then 4 else 0;
            r.addr % 4 <= p < r.addr % 4 + Size(r)
  {
  }

  /** The buffer takes the bytes of the access from the lanes. */
  lemma FillsPlaced(b: Lane4, r: Request, second: bool, w: Lane4, i: nat)
    requires Proper(r) && i < Size(r) && (second ==> Target(r) == 2)
    ensures var p := r.addr % 4 + i;
            Fill(b, r.addr % 4, second, w)[i] == if (p / 4 == 1) == second then w[p % 4] else b[i]
  {
  }

  /** The bus word with index `k` of an access. */
  function WordNumber(r: Request, k: nat): BusAddress {
    (r.addr / 4 + k) % WORDS
  }

  /** Which bytes an access has stored once `n` of its bus words are done. */
  ghost predicate StoredWords(m: Mem, m': Mem, r: Request, n: nat) {
    forall x: u32 :: m'(x) ==
      if r.write && Word(x - r.addr) < Size(r) && (r.addr % 4 + Word(x - r.addr)) / 4 < n
      then r.data[Word(x - r.addr)] else m(x)
  }

  /** The bytes of the first `n` bus words are in the buffer. */
  ghost predicate FilledWords(m: Mem, r: Request, buffer: Lane4, n: nat) {
    forall i: nat :: i < Size(r) && (r.addr % 4 + i) / 4 < n ==> buffer[i] == m(Word(r.addr + i))
  }

  lemma WordDifference(x: u32, a: u32)
    ensures Word(x - a) == if x >= a then x - a else x - a + WORD
  {
  }

  lemma WordNumberIs(r: Request, k: nat)
    requires k < 2
    ensures WordNumber(r, k) == r.addr / 4 + k || WordNumber(r, k) == r.addr / 4 + k - WORDS
  {
  }

  lemma Quarters(x: nat)
    ensures x == 4 * (x / 4) + x % 4
  {
  }

  lemma QuarterUnique(y: nat, l: nat)
    requires l < 4
    ensures (4 * y + l) / 4 == y && (4 * y + l) % 4 == l
  {
  }

  lemma LocatedIn(r: Request, x: u32, k: nat)
    requires k < 2 && Word(x - r.addr) < 4 && (r.addr % 4 + Word(x - r.addr)) / 4 == k
    ensures x / 4 == WordNumber(r, k) && x % 4 == (r.addr % 4 + Word(x - r.addr)) % 4
  {
    WordDifference(x, r.addr);
    WordNumberIs(r, k);
    Quarters(r.addr);
    var p := r.addr % 4 + Word(x - r.addr);
    Quarters(p);
    hide Word;
    var y := WordNumber(r, k);
    hide WordNumber;
    var z := r.addr / 4 + k;
    if x == 4 * z + p % 4 {
      QuarterUnique(z, p % 4);
    } else {
      assert x == 4 * (z - WORDS) + p % 4;
      QuarterUnique(z - WORDS, p % 4);
    }
  }

  /** Where an address lies relative to the access. */
  lemma Located(r: Request, x: u32, k: nat)
    requires k < 2
    ensures var i := Word(x - r.addr);
            x / 4 == WordNumber(r, k) && r.addr % 4 <= x % 4 + 4 * k < r.addr % 4 + 4 ==>
            i == x % 4 + 4 * k - r.addr % 4
    ensures var i := Word(x - r.addr);
            i < 4 && (r.addr % 4 + i) / 4 == k ==>
            x / 4 == WordNumber(r, k) && x % 4 == (r.addr % 4 + i) % 4
  {
    WordDifference(x, r.addr);
    WordNumberIs(r, k);
    Quarters(x);
    Quarters(r.addr);
    var i := Word(x - r.addr);
    if i < 4 && (r.addr % 4 + i) / 4 == k {
      LocatedIn(r, x, k);
    }
    hide Word, WordNumber;
  }

  /** A byte of memory under the store of one bus word. */
  lemma StoreByte(m1: Mem, r: Request, k: nat, x: u32)
    requires Proper(r) && k < Target(r)
    ensures var i := Word(x - r.addr);
            StoreLanes(m1, WordNumber(r, k), Select(r, k == 1), OutData(r.addr % 4, k == 1, r.data))(x)
            == if i < Size(r) && (r.addr % 4 + i) / 4 == k then r.data[i] else m1(x)
  {
    var i := Word(x - r.addr);
    Located(r, x, k);
    hide Word, WordNumber, Select, OutData, Selected, Target;
    if i < Size(r) && (r.addr % 4 + i) / 4 == k {
      Placement(r, i);
    } else if x / 4 == WordNumber(r, k) && Selected(Select(r, k == 1), x % 4) {
      OnlyPlaced(r, k == 1, x % 4);
    }
  }

  /** One more bus word stored. */
  lemma StoreWord(m: Mem, m1: Mem, r: Request, k: nat)
    requires Proper(r) && r.write && k < Target(r) && StoredWords(m, m1, r, k)
    ensures StoredWords(m, StoreLanes(m1, WordNumber(r, k), Select(r, k == 1), OutData(r.addr % 4, k == 1, r.data)), r, k + 1)
  {
    var m2 := StoreLanes(m1, WordNumber(r, k), Select(r, k == 1), OutData(r.addr % 4, k == 1, r.data));
    forall x: u32
      ensures m2(x) == if Word(x - r.addr) < Size(r) && (r.addr % 4 + Word(x - r.addr)) / 4 < k + 1
                       then r.data[Word(x - r.addr)] else m(x)
    {
      StoreByte(m1, r, k, x);
    }
  }

  lemma WordBack(a: u32, i: nat)
    requires i < 4
    ensures Word(Word(a + i) - a) == i
  {
  }

  lemma LaneAt(m: Mem, x: u32)
    ensures x / 4 < WORDS && WordAt(m, x / 4)[x % 4] == m(x)
  {
    var q := x / 4;
    assert x == 4 * q + x % 4;
    if x % 4 == 0 {
    } else if x % 4 == 1 {
    } else if x % 4 == 2 {
    }
  }

  lemma LaneOf(m: Mem, r: Request, i: nat, k: nat)
    requires i < 4 && k < 2 && (r.addr % 4 + i) / 4 == k
    ensures WordAt(m, WordNumber(r, k))[(r.addr % 4 + i) % 4] == m(Word(r.addr + i))
  {
    WordBack(r.addr, i);
    Located(r, Word(r.addr + i), k);
    LaneAt(m, Word(r.addr + i));
    hide WordNumber, Word, WordAt;
  }

  /** One more bus word read. */
  lemma FillWord(m: Mem, r: Request, b: Lane4, k: nat)
    requires Proper(r) && k < Target(r) && FilledWords(m, r, b, k)
    ensures FilledWords(m, r, Fill(b, r.addr % 4, k == 1, WordAt(m, WordNumber(r, k))), k + 1)
  {
    var b' := Fill(b, r.addr % 4, k == 1, WordAt(m, WordNumber(r, k)));
    forall i: nat | i < Size(r) && (r.addr % 4 + i) / 4 < k + 1
      ensures b'[i] == m(Word(r.addr + i))
    {
      FillsPlaced(b, r, k == 1, WordAt(m, WordNumber(r, k)), i);
      if (r.addr % 4 + i) / 4 == k {
        LaneOf(m, r, i, k);
      }
    }
  }

  /** Bus words the slave has accepted. */
  function Taken(a: Regs): int {
    if a.stb then a.addrs - 1 else a.addrs
  }

  /** Between accesses. */
  predicate Idle(a: Regs, s: Slave) {
    a.addrs == 0 && a.acks == 0 && !a.stb && s.pending == []
  }

  /** The request on the bus is the one for the last word addressed. */
  predicate Asking(a: Regs, r: Request) {
    a.stb ==>
      && a.addrs >= 1 && a.cyc && a.we == r.write && a.adr == WordNumber(r, a.addrs - 1)
      && a.sel == Select(r, a.addrs == 2) && a.dat == OutData(r.addr % 4, a.addrs == 2, r.data)
  }

  /** What is on its way back are the words from the first unacknowledged one on. */
  ghost predicate Returning(m: Mem, r: Request, pending: seq<Lane4>, acks: nat) {
    !r.write ==> forall j: nat :: j < |pending| ==> pending[j] == WordAt(m, WordNumber(r, acks + j))
  }

  /** An access is under way that found the memory `m`. */
  ghost predicate Accessing(a: Regs, s: Slave, m: Mem, r: Request) {
    && a.acks < Target(r) && a.addrs <= Target(r)
    && Asking(a, r) && (!a.stb ==> a.addrs == 0 || a.addrs == Target(r))
    && a.acks + |s.pending| == Taken(a)
    && Returning(m, r, s.pending, a.acks)
    && StoredWords(m, s.mem, r, Taken(a))
    && (!r.write ==> FilledWords(m, r, a.buffer, a.acks))
  }

  /** Clocks left, not counting those in which the slave stalls or lets the adapter wait. */
  function Left(a: Regs, r: Request): int {
    3 * Target(r) - a.addrs - Taken(a) - a.acks
  }

  lemma AccessStarts(a: Regs, s: Slave, m: Mem, r: Request)
    requires Idle(a, s) && Proper(r) && forall x: u32 :: m(x) == s.mem(x)
    ensures Accessing(a, s, m, r) && Left(a, r) == 3 * Target(r)
  {
  }

  /** Bus words the slave has accepted after a clock. */
  function TakenNext(a: Regs, c: Choice): int {
    Taken(a) + if a.stb && !c.stall then 1 else 0
  }

  /** The slave's side of a clock. */
  lemma Accepted(a: Regs, s: Slave, m: Mem, r: Request, c: Choice)
    requires Proper(r) && Accessing(a, s, m, r)
    ensures var s1 := Accept(s, a, c.stall); var n := TakenNext(a, c);
            && StoredWords(m, s1.mem, r, n) && a.acks + |s1.pending| == n && Returning(m, r, s1.pending, a.acks)
  {
    if a.stb && !c.stall {
      if r.write {
        StoreWord(m, s.mem, r, Taken(a));
      } else {
        hide Select, OutData, Target, Selected, WordNumber;
        assert WordAt(s.mem, a.adr) == WordAt(m, a.adr);
      }
    }
  }

  lemma TargetIs(r: Request)
    ensures 1 <= Target(r) <= 2
  {
  }

  /** The requesting side of the adapter in a clock that does not end the access. */
  lemma Requests(a: Regs, s: Slave, m: Mem, r: Request, c: Choice, ack: bool, w: Lane4)
    requires Proper(r) && Accessing(a, s, m, r) && Lawful(a, c)
    requires ack ==> a.acks + 1 < Target(r)
    ensures var x := Next(a, true, r, ack, c.stall, w);
            && x.busy && Asking(x, r) && Taken(x) == TakenNext(a, c)
            && a.addrs <= x.addrs <= Target(r) && (!x.stb ==> x.addrs == 0 || x.addrs == Target(r))
            && (!c.stall && a.addrs < Target(r) ==> x.addrs == a.addrs + 1)
            && x.acks == a.acks + (if ack then 1 else 0)
            && (!ack || r.write ==> x.buffer == a.buffer)
            && (ack && !r.write ==> x.buffer == Fill(a.buffer, r.addr % 4, a.acks == 1, w))
  {
    hide Select, OutData, StoredWords, Returning, FilledWords, Fill;
    TargetIs(r);
    hide Target;
  }

  /** The clock that brings the last acknowledgement. */
  lemma LastAck(a: Regs, s: Slave, m: Mem, r: Request, c: Choice, w: Lane4)
    requires Accessing(a, s, m, r) && Lawful(a, c) && a.acks + 1 == Target(r) == TakenNext(a, c)
    ensures var x := Next(a, true, r, true, c.stall, w);
            && !x.busy && !x.stb && x.addrs == 0 && x.acks == 0
            && x.buffer == if r.write then a.buffer else Fill(a.buffer, r.addr % 4, a.acks == 1, w)
  {
    hide Select, OutData, StoredWords, Returning, FilledWords, Fill;
    TargetIs(r);
    hide Target;
  }

  /** The access is over, with the effect and the result it should have. */
  ghost predicate Finished(a: Regs, s: Slave, m: Mem, r: Request) {
    Idle(a, s) && !a.busy && Written(m, s.mem, r) && (!r.write ==> Delivered(m, r, a.buffer))
  }

  lemma AllStored(m: Mem, m': Mem, r: Request)
    requires Proper(r) && StoredWords(m, m', r, Target(r))
    ensures Written(m, m', r)
  {
    forall x: u32
      ensures m'(x) == if r.write && Word(x - r.addr) < Size(r) then r.data[Word(x - r.addr)] else m(x)
    {
      if Word(x - r.addr) < Size(r) {
        Placement(r, Word(x - r.addr));
      }
    }
    hide *;
  }

  lemma AllFilled(m: Mem, r: Request, buffer: Lane4)
    requires Proper(r) && FilledWords(m, r, buffer, Target(r))
    ensures Delivered(m, r, buffer)
  {
    forall i: nat | i < Size(r)
      ensures buffer[i] == m(Word(r.addr + i))
    {
      Placement(r, i);
    }
    hide *;
  }

  /** What a clock of an access comes to. */
  ghost predicate Advances(a: Regs, s: Slave, m: Mem, r: Request, c: Choice, a': Regs, s': Slave) {
    || (Finished(a', s', m, r) && a.acks + 1 == Target(r) == TakenNext(a, c))
    || (&& Accessing(a', s', m, r) && a'.busy && Taken(a') == TakenNext(a, c)
        && Left(a', r) <= Left(a, r) && (!c.stall && c.ack ==> Left(a', r) < Left(a, r)))
  }

  /** The adapter waits: nothing is acknowledged in this clock. */
  lemma Waits(a: Regs, s: Slave, m: Mem, r: Request, c: Choice)
    requires Proper(r) && Accessing(a, s, m, r) && Lawful(a, c)
    requires !(c.ack && Accept(s, a, c.stall).pending != [])
    ensures var (a', s') := Step(a, s, true, r, c); Advances(a, s, m, r, c, a', s')
  {
    Accepted(a, s, m, r, c);
    Requests(a, s, m, r, c, false, [0, 0, 0, 0]);
    TargetIs(r);
    hide Next, Accept, Asking, Returning, StoredWords, FilledWords, Target, Finished, Accepts;
  }

  /** The measure in a clock with an acknowledgement. */
  lemma Nearer(a: Regs, s: Slave, m: Mem, r: Request, c: Choice, a': Regs, s': Slave)
    requires Accessing(a, s, m, r) && Accessing(a', s', m, r)
    requires a'.busy && Taken(a') == TakenNext(a, c) && a'.addrs >= a.addrs && a'.acks == a.acks + 1
    ensures Advances(a, s, m, r, c, a', s')
  {
    hide Accessing, Target, Finished;
  }

  lemma AccessingHas(a: Regs, s: Slave, m: Mem, r: Request)
    requires Accessing(a, s, m, r)
    ensures a.acks < Target(r) && (!r.write ==> FilledWords(m, r, a.buffer, a.acks))
  {
    hide Asking, Returning, StoredWords, FilledWords, Target;
  }

  lemma AccessingIs(a: Regs, s: Slave, m: Mem, r: Request)
    requires a.acks < Target(r) && a.addrs <= Target(r) && Asking(a, r)
    requires a.stb || a.addrs == 0 || a.addrs == Target(r)
    requires a.acks + |s.pending| == Taken(a) && Returning(m, r, s.pending, a.acks)
    requires StoredWords(m, s.mem, r, Taken(a)) && (!r.write ==> FilledWords(m, r, a.buffer, a.acks))
    ensures Accessing(a, s, m, r)
  {
    hide Asking, Returning, StoredWords, FilledWords, Target, Taken;
  }

  /** The first of the words on their way is the next for the buffer. */
  lemma ReturnedWord(m: Mem, r: Request, pending: seq<Lane4>, acks: nat, buffer: Lane4)
    requires Proper(r) && Returning(m, r, pending, acks) && pending != [] && acks < Target(r)
    requires !r.write ==> FilledWords(m, r, buffer, acks)
    ensures Returning(m, r, pending[1..], acks + 1)
    ensures !r.write ==> FilledWords(m, r, Fill(buffer, r.addr % 4, acks == 1, pending[0]), acks + 1)
  {
    if !r.write {
      assert pending[0] == WordAt(m, WordNumber(r, acks + 0));
      FillWord(m, r, buffer, acks);
      forall j: nat | j < |pending[1..]|
        ensures pending[1..][j] == WordAt(m, WordNumber(r, acks + 1 + j))
      {
        var i := j + 1;
        assert pending[i] == WordAt(m, WordNumber(r, acks + i));
      }
    }
    hide *;
  }

  lemma ArrivedWord(a: Regs, s: Slave, m: Mem, r: Request, c: Choice)
    requires Proper(r) && Accessing(a, s, m, r) && Lawful(a, c) && a.acks + 1 < Target(r)
    requires c.ack && Accept(s, a, c.stall).pending != []
    ensures var s1 := Accept(s, a, c.stall);
            var a' := Next(a, true, r, true, c.stall, s1.pending[0]);
            && Accessing(a', s1.(pending := s1.pending[1..]), m, r)
            && a'.busy && Taken(a') == TakenNext(a, c) && a'.addrs >= a.addrs && a'.acks == a.acks + 1
  {
    hide *;
    Accepted(a, s, m, r, c);
    AccessingHas(a, s, m, r);
    var s1 := Accept(s, a, c.stall);
    var p := s1.pending;
    Requests(a, s, m, r, c, true, p[0]);
    ReturnedWord(m, r, p, a.acks, a.buffer);
    AccessingIs(Next(a, true, r, true, c.stall, p[0]), s1.(pending := p[1..]), m, r);
  }

  /** A word arrives that is not the last. */
  lemma Arrives(a: Regs, s: Slave, m: Mem, r: Request, c: Choice)
    requires Proper(r) && Accessing(a, s, m, r) && Lawful(a, c) && a.acks + 1 < Target(r)
    requires c.ack && Accept(s, a, c.stall).pending != []
    ensures var (a', s') := Step(a, s, true, r, c); Advances(a, s, m, r, c, a', s')
  {
    ArrivedWord(a, s, m, r, c);
    var s1 := Accept(s, a, c.stall);
    Nearer(a, s, m, r, c, Next(a, true, r, true, c.stall, s1.pending[0]), s1.(pending := s1.pending[1..]));
    hide Next, Accept, Accessing, Advances, Lawful, Proper;
  }

  lemma TakenAtMost(a: Regs, s: Slave, m: Mem, r: Request, c: Choice)
    requires Accessing(a, s, m, r)
    ensures TakenNext(a, c) <= Target(r)
  {
    hide Target, StoredWords, Returning, FilledWords, Asking;
  }

  /** The last word arrives. */
  lemma Ends(a: Regs, s: Slave, m: Mem, r: Request, c: Choice)
    requires Proper(r) && Accessing(a, s, m, r) && Lawful(a, c) && a.acks + 1 == Target(r)
    requires c.ack && Accept(s, a, c.stall).pending != []
    ensures var (a', s') := Step(a, s, true, r, c); Advances(a, s, m, r, c, a', s')
  {
    Accepted(a, s, m, r, c);
    var p := Accept(s, a, c.stall).pending;
    TargetIs(r);
    TakenAtMost(a, s, m, r, c);
    LastAck(a, s, m, r, c, p[0]);
    ReturnedWord(m, r, p, a.acks, a.buffer);
    AllStored(m, Accept(s, a, c.stall).mem, r);
    if !r.write {
      AllFilled(m, r, Fill(a.buffer, r.addr % 4, a.acks == 1, p[0]));
    }
    hide Next, Accept, Asking, Returning, StoredWords, FilledWords, Target, Accepts, Fill, Written, Delivered, TakenNext;
  }

  /** Every clock of an access either ends it with the effect it should have, or keeps it going; if
      the slave does not stall and acknowledges what it can, it comes nearer to its end. */
  lemma AccessStep(a: Regs, s: Slave, m: Mem, r: Request, c: Choice)
    requires Proper(r) && Accessing(a, s, m, r) && Lawful(a, c)
    ensures var (a', s') := Step(a, s, true, r, c); Advances(a, s, m, r, c, a', s')
  {
    if !(c.ack && Accept(s, a, c.stall).pending != []) {
      Waits(a, s, m, r, c);
    } else if a.acks + 1 < Target(r) {
      Arrives(a, s, m, r, c);
    } else {
      assert a.acks < Target(r);
      Ends(a, s, m, r, c);
    }
    hide *;
  }

  lemma LeftPositive(a: Regs, s: Slave, m: Mem, r: Request)
    requires Accessing(a, s, m, r)
    ensures 0 < Left(a, r) <= 3 * Target(r)
  {
    TargetIs(r);
    hide StoredWords, Returning, FilledWords, Target, Select, OutData;
  }

  /** The requests the slave has accepted are those for the bus words of the access, in order. */
  ghost predicate Requested(r: Request, log: seq<nat>, n: int) {
    |log| == n && forall k: nat :: k < |log| ==> log[k] == WordNumber(r, k)
  }

  lemma RequestedNext(a: Regs, s: Slave, m: Mem, r: Request, c: Choice, log: seq<nat>)
    requires Accessing(a, s, m, r) && Requested(r, log, Taken(a))
    ensures Requested(r, if Accepts(a, c.stall) then log + [a.adr] else log, TakenNext(a, c))
  {
    hide StoredWords, Returning, FilledWords, Target, Select, OutData, WordNumber;
  }

  lemma GatedIsLawful(a: Regs, c: Choice)
    ensures Lawful(a, Gated(a, c)) && Gated(a, c).ack == c.ack && (!c.stall ==> !Gated(a, c).stall)
  {
  }

  lemma FinishedHas(a: Regs, s: Slave, m: Mem, r: Request)
    requires Finished(a, s, m, r)
    ensures Idle(a, s) && !a.busy && Written(m, s.mem, r) && (!r.write ==> Delivered(m, r, a.buffer))
  {
    hide Written, Delivered, Idle;
  }

  lemma AdvanceCases(a: Regs, s: Slave, m: Mem, r: Request, c: Choice, a': Regs, s': Slave)
    requires Advances(a, s, m, r, c, a', s')
    ensures !a'.busy ==> Finished(a', s', m, r) && TakenNext(a, c) == Target(r)
    ensures a'.busy ==> Accessing(a', s', m, r) && Taken(a') == TakenNext(a, c) && Left(a', r) <= Left(a, r)
    ensures a'.busy && !c.stall && c.ack ==> Left(a', r) < Left(a, r)
  {
    hide Target, Accessing, Written, Delivered, Idle, Left;
  }

  /** Adapter and slave in an access, the addresses the slave has accepted since it began, and whether
      the wait line has fallen. */
  datatype Track = Track(a: Regs, s: Slave, log: seq<nat>, done: bool)

  /** One clock. The CPU holds its strobe until the wait line falls. */
  function Clocked(t: Track, r: Request, c: Choice): Track {
    var (a, s) := Step(t.a, t.s, !t.done, r, c);
    Track(a, s, if Accepts(t.a, c.stall) then t.log + [t.a.adr] else t.log, t.done || !a.busy)
  }

  /** Clocks with the stall line gated. */
  function Run(t: Track, r: Request, cs: seq<Choice>): Track
    decreases |cs|
  {
    if cs == [] then t else Run(Clocked(t, r, Gated(t.a, cs[0])), r, cs[1..])
  }

  /** What an access that found the memory `m` should look like from outside, at any time: the slave has
      accepted no request but those for the bus words of the access; and once the wait line has fallen,
      it has accepted and answered them all, and the bytes are written or delivered. */
  ghost predicate Right(t: Track, m: Mem, r: Request) {
    && |t.log| <= Target(r) && Requested(r, t.log, |t.log|)
    && (t.done ==>
          && |t.log| == Target(r) && t.s.pending == [] && Written(m, t.s.mem, r)
          && (!r.write ==> Delivered(m, r, t.a.buffer)))
  }

  /** The clocks `cs` leave the access right, and end it if there are enough unhindered ones. */
  ghost predicate Serves(t: Track, m: Mem, r: Request, cs: seq<Choice>) {
    var t' := Run(t, r, cs);
    Right(t', m, r) && (GoodClocks(cs, |cs|) >= 3 * Target(r) ==> t'.done)
  }

  /** The access is under way or over, with the log that belongs to it. */
  ghost predicate Orderly(t: Track, m: Mem, r: Request) {
    if t.done then Finished(t.a, t.s, m, r) && Requested(r, t.log, Target(r))
    else Accessing(t.a, t.s, m, r) && Requested(r, t.log, Taken(t.a))
  }

  /** A slave that stalls only a request keeps the access in order. */
  lemma OrderlyClock(t: Track, m: Mem, r: Request, c: Choice)
    requires Proper(r) && Orderly(t, m, r) && Lawful(t.a, c)
    ensures var t' := Clocked(t, r, c);
            && Orderly(t', m, r) && (t.done ==> t'.done)
            && (!t'.done ==> Left(t'.a, r) <= Left(t.a, r) && (!c.stall && c.ack ==> Left(t'.a, r) < Left(t.a, r)))
  {
    if t.done {
      FinishedHas(t.a, t.s, m, r);
    } else {
      AccessStep(t.a, t.s, m, r, c);
      RequestedNext(t.a, t.s, m, r, c, t.log);
      var (a', s') := Step(t.a, t.s, true, r, c);
      AdvanceCases(t.a, t.s, m, r, c, a', s');
      hide Step, Finished;
    }
    hide Accessing, Requested, Written, Delivered, Taken, TakenNext, Target, Left, Advances;
  }

  lemma OrderlyLeft(t: Track, m: Mem, r: Request)
    requires Proper(r) && Orderly(t, m, r) && !t.done
    ensures 0 < Left(t.a, r) <= 3 * Target(r)
  {
    LeftPositive(t.a, t.s, m, r);
    hide Accessing, Left, Requested;
  }

  lemma OrderlyRun(t: Track, m: Mem, r: Request, cs: seq<Choice>)
    requires Proper(r) && Orderly(t, m, r)
    ensures var t' := Run(t, r, cs);
            Orderly(t', m, r) && (t.done || GoodClocks(cs, |cs|) >= Left(t.a, r) ==> t'.done)
    decreases |cs|
  {
    if cs == [] {
      if !t.done {
        OrderlyLeft(t, m, r);
      }
    } else {
      var c := Gated(t.a, cs[0]);
      GatedIsLawful(t.a, cs[0]);
      OrderlyClock(t, m, r, c);
      OrderlyRun(Clocked(t, r, c), m, r, cs[1..]);
      GoodFirst(cs, |cs|);
    }
    hide Orderly, Clocked, Left, Lawful, Gated;
  }

  lemma TakenBounded(a: Regs, s: Slave, m: Mem, r: Request)
    requires Accessing(a, s, m, r)
    ensures Taken(a) <= Target(r)
  {
    hide StoredWords, Returning, FilledWords, Asking, Target;
  }

  lemma OrderlyIsRight(t: Track, m: Mem, r: Request)
    requires Proper(r) && Orderly(t, m, r)
    ensures Right(t, m, r)
  {
    if t.done {
      FinishedHas(t.a, t.s, m, r);
    } else {
      TakenBounded(t.a, t.s, m, r);
    }
    hide Finished, Accessing, Written, Delivered, Taken, Target;
  }

  /** The slave owes an answer more than the access has bus words, or will once the adapter has made the
      requests it still counts on. */
  predicate Ahead(t: Track, r: Request) {
    && t.a.acks < Target(r) && t.a.addrs <= Target(r) && t.a.cyc && !t.done
    && (!t.a.stb ==> t.a.addrs == Target(r))
    && |t.log| == Taken(t.a) + 1 == t.a.acks + |t.s.pending|
  }

  /** The wait line has fallen, and the slave has accepted a request too many and not answered it. */
  predicate Overrun(t: Track, r: Request) {
    t.done && |t.log| == Target(r) + 1 && t.s.pending != []
  }

  lemma AheadClock(t: Track, r: Request)
    requires Ahead(t, r)
    ensures var t' := Clocked(t, r, Choice(false, !t.a.stb));
            if t'.done then Overrun(t', r)
            else
              && Ahead(t', r)
              && (t.a.stb ==> t'.a.acks == t.a.acks && t'.a.addrs == t.a.addrs + (if t'.a.stb then 1 else 0))
              && (!t.a.stb ==> t'.a.acks == t.a.acks + 1 && t'.a.addrs == t.a.addrs && !t'.a.stb)
  {
    hide Target, Select, OutData, Fill, StoreLanes;
  }

  /** Without further stalls, and with acknowledgements only after the last request, an adapter that is
      ahead ends in an overrun. */
  lemma AheadOverruns(t: Track, r: Request) returns (cs: seq<Choice>)
    requires Ahead(t, r)
    ensures Overrun(Run(t, r, cs), r)
    decreases 2 * Target(r) - t.a.addrs + (if t.a.stb then 1 else 0) - t.a.acks
  {
    var c := Choice(false, !t.a.stb);
    AheadClock(t, r);
    var t1 := Clocked(t, r, c);
    if t1.done {
      cs := [c];
      assert Run(t1, r, cs[1..]) == t1;
    } else {
      var rest := AheadOverruns(t1, r);
      cs := [c] + rest;
      assert cs[1..] == rest;
    }
    hide Ahead, Overrun, Clocked, Target;
  }

  /** A stall without a request: the adapter strobes with what its registers hold. */
  lemma StrobesAgain(a: Regs, s: Slave, m: Mem, r: Request, c: Choice, log: seq<nat>)
    requires Proper(r) && Accessing(a, s, m, r) && Requested(r, log, Taken(a)) && !Lawful(a, c)
    ensures var t := Clocked(Track(a, s, log, false), r, c);
            && t.a.stb && t.a.cyc && t.a.adr == a.adr
            && (if t.done then |t.log| == Target(r) && t.s.pending == [] else Ahead(t, r))
  {
    TargetIs(r);
    hide Target, StoredWords, Returning, FilledWords, Select, OutData, Fill, WordNumber;
  }

  /** The access is over, but the adapter still strobes. */
  lemma LateRequest(t: Track, r: Request)
    requires t.done && t.a.stb && t.a.cyc && |t.log| == Target(r)
    ensures Overrun(Clocked(t, r, Choice(false, false)), r)
  {
    hide Target, Select, OutData, Fill, StoreLanes;
  }

  /** After a stall without a request there is a way to go on, with no such stall any more, that ends
      with a request too many accepted and not answered. */
  lemma StallOverruns(a: Regs, s: Slave, m: Mem, r: Request, c: Choice, log: seq<nat>) returns (cs: seq<Choice>)
    requires Proper(r) && Accessing(a, s, m, r) && Requested(r, log, Taken(a)) && !Lawful(a, c)
    ensures Overrun(Run(Clocked(Track(a, s, log, false), r, c), r, cs), r)
  {
    var t := Clocked(Track(a, s, log, false), r, c);
    StrobesAgain(a, s, m, r, c, log);
    if t.done {
      var c1 := Choice(false, false);
      cs := [c1];
      assert Run(Clocked(t, r, c1), r, cs[1..]) == Clocked(t, r, c1);
      LateRequest(t, r);
    } else {
      cs := AheadOverruns(t, r);
    }
    hide Clocked, Accessing, Requested, Taken, Overrun, Ahead, Target;
  }

  lemma LawfulServes(a: Regs, s: Slave, m: Mem, r: Request, c: Choice, log: seq<nat>, cs: seq<Choice>)
    requires Proper(r) && Accessing(a, s, m, r) && Requested(r, log, Taken(a)) && Lawful(a, c)
    ensures Serves(Clocked(Track(a, s, log, false), r, c), m, r, cs)
  {
    var t := Clocked(Track(a, s, log, false), r, c);
    OrderlyClock(Track(a, s, log, false), m, r, c);
    OrderlyRun(t, m, r, cs);
    OrderlyIsRight(Run(t, r, cs), m, r);
    if !t.done {
      OrderlyLeft(t, m, r);
    }
    hide Clocked, Accessing, Requested, Run, Right, Lawful, Left, Target, Taken, Finished;
  }

  lemma OverrunNotRight(t: Track, m: Mem, r: Request)
    requires Overrun(t, r)
    ensures !Right(t, m, r)
  {
    hide Target;
  }

  /** An access is served right from here on, however the slave stalls its requests and delays its
      answers, exactly if it does not stall in this clock without a request. */
  lemma OnlyLawfulSteps(a: Regs, s: Slave, m: Mem, r: Request, c: Choice, log: seq<nat>)
    requires Proper(r) && Accessing(a, s, m, r) && Requested(r, log, Taken(a))
    ensures var t := Clocked(Track(a, s, log, false), r, c);
            Lawful(a, c) <==> forall cs: seq<Choice> :: Serves(t, m, r, cs)
  {
    var t := Clocked(Track(a, s, log, false), r, c);
    if Lawful(a, c) {
      forall cs: seq<Choice>
        ensures Serves(t, m, r, cs)
      {
        LawfulServes(a, s, m, r, c, log, cs);
      }
    } else {
      var cs := StallOverruns(a, s, m, r, c, log);
      OverrunNotRight(Run(t, r, cs), m, r);
      assert !Serves(t, m, r, cs);
    }
    hide Clocked, Accessing, Requested, Run, Right, Overrun, Lawful;
  }

  /** What a slave that is stalling when a write of one bus word begins does once it stops: it
      stores the old data at the old address, under the old byte selects. */
  lemma StaleWrite(a: Regs, s: Slave, r: Request)
    requires Idle(a, s) && r.write && Target(r) == 1
    ensures var (a1, s1) := Step(a, s, true, r, Choice(true, false));
            var (a2, s2) := Step(a1, s1, true, r, Choice(false, false));
            forall x: u32 :: s2.mem(x) == StoreLanes(s.mem, a.adr, a.sel, a.dat)(x)
  {
    hide Target, Select, OutData, Fill, StoreLanes;
  }

  /** An access to a whole bus word. */
  predicate Aligned(r: Request) {
    r.full && !r.half && r.addr % 4 == 0
  }

  /** What such a read leaves in the registers. */
  lemma AlignedRead(a: Regs, s: Slave, r: Request)
    requires Idle(a, s) && Aligned(r) && !r.write
    ensures var t := Run(Track(a, s, [], false), r, [Choice(false, false), Choice(false, true)]);
            && t.done && Idle(t.a, t.s) && t.s.mem == s.mem
            && t.a.adr == r.addr / 4 && t.a.sel == 15 && t.a.dat == r.data
  {
    var t0 := Track(a, s, [], false);
    var c0, c1 := Choice(false, false), Choice(false, true);
    var t1 := Clocked(t0, r, c0);
    var t2 := Clocked(t1, r, c1);
    assert [c0, c1][1..] == [c1] && [c1][1..] == [];
    assert Run(t2, r, []) == t2 && Run(t1, r, [c1]) == t2;
    hide Fill, WordAt;
  }

  /** An example: after the read `r0` of a word, the slave stalls when the write `r1` of another word
      begins. The bytes of the word that was read are overwritten, with what was on the data lines
      then. */
  lemma ForeignWrite(a: Regs, s: Slave, r0: Request, r1: Request, i: nat)
    requires Idle(a, s) && Aligned(r0) && !r0.write && Aligned(r1) && r1.write && r0.addr != r1.addr && i < 4
    ensures var t := Run(Track(a, s, [], false), r0, [Choice(false, false), Choice(false, true)]);
            var (a1, s1) := Step(t.a, t.s, true, r1, Choice(true, false));
            var (a2, s2) := Step(a1, s1, true, r1, Choice(false, false));
            && t.done && Idle(t.a, t.s) && t.s.mem == s.mem
            && s2.mem(r0.addr + i) == r0.data[i] && Word(r0.addr + i - r1.addr) >= Size(r1)
  {
    AlignedRead(a, s, r0);
    var t := Run(Track(a, s, [], false), r0, [Choice(false, false), Choice(false, true)]);
    StaleWrite(t.a, t.s, r1);
    Quarters(r0.addr);
    Quarters(r1.addr);
    QuarterUnique(r0.addr / 4, i);
    WordDifference(r0.addr + i, r1.addr);
    hide Run, Step, Idle, Word;
  }

  lemma NoneRequested(a: Regs, s: Slave, r: Request)
    requires Idle(a, s)
    ensures Requested(r, [], Taken(a)) && GoodClocks([], 0) == 0 && forall c: seq<Choice> :: GoodClocks(c, 0) == 0
  {
  }

  /** The adapter as hardware: its registers, changed by every clock. */
  class Adapter {
    var busy: bool
    var buffer: Lane4
    var acks: nat
    var addrs: nat
    var adr: BusAddress
    var dat: Lane4
    var cyc: bool
    var stb: bool
    var we: bool
    var sel: nat

    /** The adapter after a first clock without a strobe; the address, data and byte selects are
        not initialised. */
    constructor (adr: BusAddress, dat: Lane4, sel: nat)
      ensures this.adr == adr && !busy && !stb && acks == 0 && addrs == 0
    {
      busy, buffer, acks, addrs, cyc, stb, we := false, [0, 0, 0, 0], 0, 0, false, false, false;
      this.adr, this.dat, this.sel := adr, dat, sel;
    }

    function Registers(): Regs
      reads this
    {
      Regs(busy, buffer, acks, addrs, adr, dat, cyc, stb, we, sel)
    }

    /** The address phase of a clock. */
    method Ask(r: Request, stall: bool)
      modifies this`stb, this`adr, this`sel, this`dat, this`addrs
      ensures Registers() == Asked(old(Registers()), r, stall)
    {
      hide OutData, Select, Target;
      if acks != Target(r) && addrs != Target(r) && !stall {
        stb := true;
        adr := (r.addr / 4 + addrs) % WORDS;
        sel := Select(r, addrs % 2 == 1);
        dat := OutData(r.addr % 4, addrs % 2 == 1, r.data);
        addrs := addrs + 1;
      }
    }

    /** The data phase of a clock. */
    method Answer(r: Request, w: Lane4)
      modifies this`busy, this`buffer, this`acks, this`addrs
      ensures Registers() == Answered(old(Registers()), r, w)
    {
      hide Fill, Target;
      if !r.write {
        buffer := Fill(buffer, r.addr % 4, acks % 2 == 1, w);
      }
      acks := acks + 1;
      if acks == Target(r) {
        busy, acks, addrs := false, 0, 0;
      }
    }

    /** One rising clock edge. */
    method Clock(strobe: bool, r: Request, ack: bool, stall: bool, w: Lane4)
      modifies this
      ensures Registers() == Next(old(Registers()), strobe, r, ack, stall, w)
    {
      hide Asked, Answered, Target;
      busy, cyc, we, stb := strobe, strobe, strobe && r.write, strobe && (addrs != Target(r) || stall);
      if strobe {
        Ask(r, stall);
        if ack {
          Answer(r, w);
        }
      }
    }

    /** A clock together with the slave. */
    method ClockWith(s: Slave, strobe: bool, r: Request, c: Choice) returns (s': Slave)
      modifies this
      ensures (Registers(), s') == Step(old(Registers()), s, strobe, r, c)
    {
      hide Next, Accept;
      s' := Accept(s, Registers(), c.stall);
      if c.ack && s'.pending != [] {
        Clock(strobe, r, true, c.stall, s'.pending[0]);
        s' := s'.(pending := s'.pending[1..]);
      } else {
        Clock(strobe, r, false, c.stall, [0, 0, 0, 0]);
      }
    }

    /** A whole access, over any schedule of stalls and acknowledgements: the wait line stays high
        until it is over, then exactly the addressed bytes are written or delivered, each bus word
        has been requested once, and it is over after at most three unhindered clocks for each of
        them. */
    method Access(r: Request, s: Slave, schedule: seq<Choice>) returns (s': Slave, done: bool, used: nat, log: seq<nat>)
      requires Proper(r) && Idle(Registers(), s)
      modifies this
      ensures used <= |schedule| && (used == |schedule| || done)
      ensures done ==> Finished(Registers(), s', s.mem, r) && Requested(r, log, Target(r))
      ensures !done ==> Accessing(Registers(), s', s.mem, r) && (used > 0 ==> Registers().busy)
      ensures GoodClocks(schedule, |schedule|) >= 3 * Target(r) ==> done
    {
      hide *;
      AccessStarts(Registers(), s, s.mem, r);
      NoneRequested(Registers(), s, r);
      s', done, used, log := s, false, 0, [];
      while used < |schedule| && !done
        invariant used <= |schedule|
        invariant !done ==> Accessing(Registers(), s', s.mem, r) && Requested(r, log, Taken(Registers())) && (used > 0 ==> Registers().busy)
        invariant !done ==> GoodClocks(schedule, used) + Left(Registers(), r) <= 3 * Target(r)
        invariant done ==> Finished(Registers(), s', s.mem, r) && Requested(r, log, Target(r))
        decreases |schedule| - used
      {
        var a := Registers();
        var c := Gated(a, schedule[used]);
        GatedIsLawful(a, schedule[used]);
        AccessStep(a, s', s.mem, r, c);
        RequestedNext(a, s', s.mem, r, c, log);
        if Accepts(a, c.stall) {
          log := log + [a.adr];
        }
        ghost var before := s';
        s' := ClockWith(s', true, r, c);
        done := !Registers().busy;
        AdvanceCases(a, before, s.mem, r, c, Registers(), s');
        GoodNext(schedule, used);
        used := used + 1;
      }
      if !done {
        LeftPositive(Registers(), s', s.mem, r);
      }
    }
  }
}
