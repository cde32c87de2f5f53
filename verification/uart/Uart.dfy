/** The UART, clock by clock (uart/uart_wb8.v). */
module Uart {
  /** Eight bits, the least significant first. */
  type Byte = s: seq<bool> | |s| == 8 witness [false, false, false, false, false, false, false, false]

  type Filter = s: seq<bool> | |s| == 3 witness [true, true, true]

  const HIGH: Filter := [true, true, true]
  const LOW: Filter := [false, false, false]

  datatype Transmitter = Transmitter(
    writing: bool, buf: Byte, bits: nat, clocks: nat,
    full: bool,                   // a byte is loaded or on its way (do_write)
    line: bool)

  datatype Receiver = Receiver(
    reading: bool,
    filter: Filter,               // the last three samples of the line, the oldest first
    input: Byte, bits: nat, clocks: nat,
    buf: Byte, ready: bool)

  /** The Wishbone side. */
  datatype Access = Access(stb: bool, adr: nat, we: bool, dat: Byte)

  predicate DataWrite(i: Access) {
    i.stb && i.adr == 0 && i.we
  }

  predicate DataRead(i: Access) {
    i.stb && i.adr == 0 && !i.we
  }

  /** A 10-bit counter. */
  function Count(c: nat): nat {
    (c + 1) % 1024
  }

  /** The shifter: one bit every `baud` clocks. */
  function TxShift(baud: nat, t: Transmitter): Transmitter {
    if !t.writing then
      if t.full then t.(writing := true, clocks := 0, bits := 0, line := false) else t.(line := true)
    else if t.clocks == baud - 1 then
      t.(clocks := 0, bits := (t.bits + 1) % 16, writing := t.bits != 9, full := t.full && t.bits != 9,
         line := t.buf[0], buf := t.buf[1..] + [true])
    else t.(clocks := Count(t.clocks))
  }

  function TxNext(baud: nat, t: Transmitter, i: Access): Transmitter {
    var t' := TxShift(baud, t);
    if DataWrite(i) then t'.(buf := i.dat, full := true) else t'
  }

  /** A byte comes out of the receiver in this clock. */
  predicate Delivers(baud: nat, r: Receiver) {
    r.reading && r.clocks == baud / 2 && r.bits == 9
  }

  /** The start bit filter and the sampling in the middle of the bits. */
  function RxShift(baud: nat, r: Receiver, line: bool): Receiver {
    if !r.reading then
      if !line && r.filter == LOW then r.(reading := true, clocks := 0, bits := 0, filter := HIGH)
      else r.(filter := r.filter[1..] + [line])
    else
      var r' := r.(clocks := if r.clocks == baud then 0 else Count(r.clocks));
      if r.clocks != baud / 2 then r'
      else if r.bits != 9 then r'.(input := r.input[1..] + [line], bits := (r.bits + 1) % 16)
      else r'.(buf := r.input, ready := true, reading := false, bits := 10)
  }

  function RxNext(baud: nat, r: Receiver, line: bool, i: Access): Receiver {
    var r' := RxShift(baud, r, line);
    if DataRead(i) then r'.(ready := false) else r'
  }

  /** A flag as a byte. */
  function Flag(b: bool): Byte {
    [b, false, false, false, false, false, false, false]
  }

  /** The data lines after an access: the received byte or one of the two status flags; a write and a
      clock without an access leave them. */
  function BusOut(t: Transmitter, r: Receiver, i: Access, dat: Byte): Byte {
    if DataRead(i) then r.buf
    else if !i.stb || i.adr == 0 then dat
    else Flag(if i.adr == 1 then r.ready else !t.full)
  }

  /** What software sees: at address 0 the byte received last, at address 1 in bit 0 whether a byte waits,
      at every other address in bit 0 whether the transmitter takes one. */
  lemma BusShows(t: Transmitter, r: Receiver, i: Access, dat: Byte)
    ensures var out := BusOut(t, r, i, dat);
            && (i.stb && i.adr == 0 && !i.we ==> out == r.buf)
            && (i.stb && i.adr == 1 ==> out[0] == r.ready)
            && (i.stb && i.adr > 1 ==> out[0] == !t.full)
            && (i.stb && i.adr > 0 ==> forall k :: 1 <= k < 8 ==> !out[k])
            && (!i.stb || (i.adr == 0 && i.we) ==> out == dat)
  {
  }

  /** The delivery clock raises the flag for the byte shifted in, which a read of address 0 clears; a write
      to address 0 fills the transmitter. */
  lemma FlagsMove(baud: nat, t: Transmitter, r: Receiver, line: bool, i: Access)
    ensures Delivers(baud, r) <==> RxShift(baud, r.(ready := false), line).ready
    ensures Delivers(baud, r) ==> RxShift(baud, r, line).buf == r.input
    ensures RxNext(baud, r, line, i).ready == ((Delivers(baud, r) || r.ready) && !(i.stb && i.adr == 0 && !i.we))
    ensures i.stb && i.adr == 0 && i.we ==> TxNext(baud, t, i).full && TxNext(baud, t, i).buf == i.dat
    ensures !(i.stb && i.adr == 0 && i.we) && !t.full ==> !TxNext(baud, t, i).full
  {
  }

  /** Nothing is on its way. */
  predicate Resting(t: Transmitter, r: Receiver) {
    !t.writing && !t.full && t.line && !r.reading && r.filter == HIGH
  }

  /** The UART as hardware. */
  class Unit {
    const baud: nat               // clocks per bit
    var tx: Transmitter
    var rx: Receiver
    var ack: bool
    var dat: Byte

    /** Nothing sent, nothing received; the line is high. */
    constructor (baud: nat)
      ensures this.baud == baud && Resting(tx, rx) && !rx.ready
    {
      var zero: Byte := [false, false, false, false, false, false, false, false];
      this.baud := baud;
      tx := Transmitter(false, zero, 0, 0, false, true);
      rx := Receiver(false, HIGH, zero, 0, 0, zero, false);
      ack, dat := false, zero;
    }

    /** The receiver's side of a clock. */
    method Receive(line: bool)
      modifies this`rx
      ensures rx == RxShift(baud, old(rx), line)
    {
      if !rx.reading {
        if !line && rx.filter == LOW {
          rx := rx.(reading := true, clocks := 0, bits := 0, filter := HIGH);
        } else {
          rx := rx.(filter := rx.filter[1..] + [line]);
        }
      } else {
        var clocks := rx.clocks;
        if clocks == baud / 2 {
          if rx.bits != 9 {
            rx := rx.(input := rx.input[1..] + [line], bits := (rx.bits + 1) % 16);
          } else {
            rx := rx.(buf := rx.input, ready := true, reading := false, bits := 10);
          }
        }
        rx := rx.(clocks := if clocks == baud then 0 else Count(clocks));
      }
    }

    /** The transmitter's side of a clock. */
    method Transmit()
      modifies this`tx
      ensures tx == TxShift(baud, old(tx))
    {
      if !tx.writing {
        tx := tx.(line := true);
        if tx.full {
          tx := tx.(writing := true, clocks := 0, bits := 0, line := false);
        }
      } else if tx.clocks == baud - 1 {
        var last := tx.bits == 9;
        tx := tx.(clocks := 0, bits := (tx.bits + 1) % 16, line := tx.buf[0], buf := tx.buf[1..] + [true]);
        if last {
          tx := tx.(writing := false, full := false);
        }
      } else {
        tx := tx.(clocks := Count(tx.clocks));
      }
    }

    /** One clock; the outputs show the state before it. */
    method Clock(line: bool, i: Access)
      modifies this
      ensures tx == TxNext(baud, old(tx), i) && rx == RxNext(baud, old(rx), line, i)
      ensures ack == i.stb && dat == BusOut(old(tx), old(rx), i, old(dat))
    {
      hide TxShift, RxShift;
      var ready, full, buf := rx.ready, tx.full, rx.buf;
      Receive(line);
      Transmit();
      if i.stb {
        if i.adr == 0 {
          if i.we {
            tx := tx.(buf := i.dat, full := true);
          } else {
            dat := buf;
            rx := rx.(ready := false);
          }
        } else if i.adr == 1 {
          dat := Flag(ready);
        } else {
          dat := Flag(!full);
        }
      }
      ack := i.stb;
    }
  }
}
