/** What both bus adapters share: words as four byte lanes, the accesses of the CPU bus and what
    they should do, and the choices of the slave. */
module Lanes {
  import opened Words
  import opened Machine

  /** Four bytes, the least significant first. */
  type Lane4 = s: seq<u8> | |s| == 4 witness [0, 0, 0, 0]

  /** An access of the CPU bus. */
  datatype Request = Request(write: bool, half: bool, full: bool, addr: u32, data: Lane4)

  /** The CPU never asks for a halfword and a word at once. */
  predicate Proper(r: Request) {
    !(r.half && r.full)
  }

  /** Number of bytes. */
  function Size(r: Request): nat {
    if r.full then 4 else if r.half then 2 else 1
  }

  function ToLanes(v: u32): Lane4 {
    [ByteOf(v, 0), ByteOf(v, 1), ByteOf(v, 2), ByteOf(v, 3)]
  }

  function ToWord(l: Lane4): u32 {
    (l[0] as int) + 0x100 * (l[1] as int) + 0x1_0000 * (l[2] as int) + 0x100_0000 * (l[3] as int)
  }

  /** The memory after the access. */
  ghost predicate Written(m: Mem, m': Mem, r: Request) {
    forall x: u32 :: m'(x) == if r.write && Word(x - r.addr) < Size(r) then r.data[Word(x - r.addr)] else m(x)
  }

  /** The bytes delivered by a read. */
  ghost predicate Delivered(m: Mem, r: Request, out: Lane4) {
    forall i: nat :: i < Size(r) ==> out[i] == m(Word(r.addr + i))
  }

  /** A finished write is the store of the instruction set. */
  lemma WrittenIsStore(m: Mem, m': Mem, r: Request, v: u32)
    requires Written(m, m', r) && r.write && r.data == ToLanes(v)
    ensures forall x: u32 :: m'(x) == Store(m, r.addr, Size(r), v)(x)
  {
  }

  lemma LowBytes(l: Lane4)
    ensures ToWord(l) % 0x100 == l[0] && ToWord(l) % 0x1_0000 == (l[0] as int) + 0x100 * (l[1] as int)
  {
  }

  /** A finished read has the loaded value in its lowest bytes. */
  lemma DeliveredIsLoad(m: Mem, r: Request, out: Lane4)
    requires Delivered(m, r, out)
    ensures !r.half && !r.full ==> ToWord(out) % 0x100 == Load8(m, r.addr)
    ensures r.half && !r.full ==> ToWord(out) % 0x1_0000 == Load16(m, r.addr)
    ensures r.full ==> ToWord(out) == Load32(m, r.addr)
  {
    assert Word(r.addr + 0) == r.addr && out[0] == m(Word(r.addr + 0));
    if r.half || r.full {
      assert out[1] == m(Word(r.addr + 1));
    }
    if r.full {
      assert out[2] == m(Word(r.addr + 2));
      assert out[3] == m(Word(r.addr + 3));
    }
    LowBytes(out);
  }

  /** What the slave chooses in a clock: whether to stall, and whether to acknowledge. It
      acknowledges only what it has accepted. */
  datatype Choice = Choice(stall: bool, ack: bool)

  /** Clocks among the first `n` in which the slave does not stall and acknowledges what it can. */
  function GoodClocks(schedule: seq<Choice>, n: nat): nat
    requires n <= |schedule|
  {
    if n == 0 then 0
    else GoodClocks(schedule, n - 1) + if !schedule[n - 1].stall && schedule[n - 1].ack then 1 else 0
  }

  lemma GoodNext(schedule: seq<Choice>, n: nat)
    requires n < |schedule|
    ensures GoodClocks(schedule, n + 1) ==
            GoodClocks(schedule, n) + if !schedule[n].stall && schedule[n].ack then 1 else 0
  {
  }

  /** The first clock counted apart. */
  lemma {:induction false} GoodFirst(schedule: seq<Choice>, n: nat)
    requires 0 < n <= |schedule|
    ensures GoodClocks(schedule, n) ==
            GoodClocks(schedule[1..], n - 1) + if !schedule[0].stall && schedule[0].ack then 1 else 0
  {
    if n == 1 {
      assert GoodClocks(schedule, 0) == 0;
    } else {
      GoodFirst(schedule, n - 1);
      assert schedule[1..][n - 2] == schedule[n - 1];
    }
  }
}
