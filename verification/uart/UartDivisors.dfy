/** For which divisors the UART understands itself, and how long a byte takes. */
module UartDivisors {
  import opened Arith
  import opened Uart
  import opened UartLoopback

  const ZERO: Byte := [false, false, false, false, false, false, false, false]
  const HIGH_BIT: Byte := [false, false, false, false, false, false, false, true]
  const NONE: Access := Access(false, 0, false, ZERO)

  /** The loop after `n` clocks in which the bus is left alone. */
  function Idle(baud: nat, t: Transmitter, r: Receiver, n: nat): (Transmitter, Receiver) {
    if n == 0 then (t, r)
    else
      var (t1, r1) := Idle(baud, t, r, n - 1);
      (TxNext(baud, t1, NONE), RxNext(baud, r1, t1.line, NONE))
  }

  /** The first byte delivered comes after `n` clocks. */
  ghost predicate FirstDelivery(baud: nat, t: Transmitter, r: Receiver, n: nat) {
    Delivers(baud, Idle(baud, t, r, n).1) && forall m: nat :: m < n ==> !Delivers(baud, Idle(baud, t, r, m).1)
  }

  /** The first byte delivered is `b`. */
  ghost predicate Receives(baud: nat, t: Transmitter, r: Receiver, b: Byte) {
    exists n: nat :: FirstDelivery(baud, t, r, n) && Idle(baud, t, r, n).1.input == b
  }

  /** Clocks from the write to the delivery. */
  function Latency(baud: nat): nat {
    Times(Period(baud), 9) + baud / 2 + 5
  }

  lemma LatencyIs(baud: nat)
    ensures baud < 1024 ==> Latency(baud) == 9 * baud + baud / 2 + 14
  {
    TimesIsProduct(Period(baud), 9);
    hide Times;
  }

  /** The byte was written `m` clocks ago. */
  predicate Aged(ph: Phase, baud: nat, t: Transmitter, r: Receiver, b: Byte, m: nat) {
    match ph
    case Loaded(x) => x == b && m == 0
    case Starting(x) => x == b && m == t.clocks + 1
    case Moving(x, p) => x == b && m == Times(Period(baud), p) + r.clocks + 5
    case Last(x) => x == b && m == Times(Period(baud), 9) + r.clocks + 5
    case _ => false
  }

  lemma StartingAge(ph: Phase, baud: nat, t: Transmitter, r: Receiver, b: Byte, m: nat)
    requires Suitable(baud) && At(ph, baud, t, r) && Aged(ph, baud, t, r, b, m) && (ph.Loaded? || ph.Starting?)
    ensures !Delivers(baud, r)
    ensures Aged(NextPhase(ph, baud, t, r, NONE), baud, TxNext(baud, t, NONE), RxNext(baud, r, t.line, NONE), b, m + 1)
  {
    TimesSucc(Period(baud), 0);
    hide Frame, Tail, Shifted, Times, Period;
  }

  /** The receiver's counter. */
  lemma RxClock(baud: nat, r: Receiver, line: bool)
    requires r.reading && r.clocks < Period(baud)
    ensures RxShift(baud, r, line).clocks == if r.clocks + 1 < Period(baud) then r.clocks + 1 else 0
  {
  }

  lemma NotYet(b: Byte, p: nat, baud: nat, r: Receiver, m: nat)
    requires Receiving(baud, b, p, r) && m == Times(Period(baud), p) + r.clocks + 5 && m < Latency(baud)
    ensures !Delivers(baud, r)
  {
    hide Shifted, Times, Period;
  }

  lemma MovingAge(b: Byte, p: nat, baud: nat, t: Transmitter, r: Receiver, m: nat)
    requires Receiving(baud, b, p, r) && m == Times(Period(baud), p) + r.clocks + 5 && m < Latency(baud)
    ensures !Delivers(baud, r)
    ensures var p' := if r.clocks + 1 < Period(baud) then p else p + 1;
            m + 1 == Times(Period(baud), p') + RxShift(baud, r, t.line).clocks + 5
  {
    TimesSucc(Period(baud), p);
    RxClock(baud, r, t.line);
    NotYet(b, p, baud, r, m);
    hide Shifted, Times, Period, RxShift, Delivers;
  }

  /** The transmitter ends while the receiver is in its last bit. */
  lemma LastAge(b: Byte, p: nat, baud: nat, t: Transmitter, r: Receiver, m: nat)
    requires Suitable(baud) && At(Moving(b, p), baud, t, r) && t.bits == 9 && t.clocks == baud - 1
    ensures p == 9
  {
    hide Frame, Tail, Shifted;
  }

  lemma MovingAged(b: Byte, p: nat, baud: nat, t: Transmitter, r: Receiver, m: nat)
    requires Suitable(baud) && At(Moving(b, p), baud, t, r) && Aged(Moving(b, p), baud, t, r, b, m) && m < Latency(baud)
    ensures !Delivers(baud, r)
    ensures var (t', r') := (TxNext(baud, t, NONE), RxNext(baud, r, t.line, NONE));
            var ph' := NextPhase(Moving(b, p), baud, t, r, NONE);
            At(ph', baud, t', r') ==> Aged(ph', baud, t', r', b, m + 1)
  {
    MovingAge(b, p, baud, t, r, m);
    hide Frame, Tail, Shifted, Times, Period, RxShift, TxNext, InStep, Receiving, Sending;
    var ph' := NextPhase(Moving(b, p), baud, t, r, NONE);
    if ph'.Last? && At(ph', baud, TxNext(baud, t, NONE), RxNext(baud, r, t.line, NONE)) {
      LastAge(b, p, baud, t, r, m);
    }
  }

  lemma AgeStep(ph: Phase, baud: nat, t: Transmitter, r: Receiver, b: Byte, m: nat)
    requires Suitable(baud) && At(ph, baud, t, r) && Aged(ph, baud, t, r, b, m) && m < Latency(baud)
    ensures !Delivers(baud, r)
    ensures var ph' := NextPhase(ph, baud, t, r, NONE);
            var (t', r') := (TxNext(baud, t, NONE), RxNext(baud, r, t.line, NONE));
            At(ph', baud, t', r') && Aged(ph', baud, t', r', b, m + 1)
  {
    PhaseStep(ph, baud, t, r, NONE);
    match ph {
      case Moving(x, p) => MovingAged(b, p, baud, t, r, m);
      case Last(x) => assert false;
      case _ => StartingAge(ph, baud, t, r, b, m);
    }
    hide *;
  }

  lemma {:induction false} Ages(baud: nat, t: Transmitter, r: Receiver, b: Byte, m: nat) returns (ph: Phase)
    requires Suitable(baud) && At(Loaded(b), baud, t, r) && m <= Latency(baud)
    ensures var (t', r') := Idle(baud, t, r, m); At(ph, baud, t', r') && Aged(ph, baud, t', r', b, m)
    ensures m > 0 ==> !Delivers(baud, Idle(baud, t, r, m - 1).1)
  {
    ph := Loaded(b);
    if m == 0 {
    } else {
      var before := Ages(baud, t, r, b, m - 1);
      var (t1, r1) := Idle(baud, t, r, m - 1);
      AgeStep(before, baud, t1, r1, b, m - 1);
      ph := NextPhase(before, baud, t1, r1, NONE);
    }
    hide At, NextPhase, TxNext, RxNext, Latency, Delivers;
  }

  lemma AgedOut(ph: Phase, baud: nat, t: Transmitter, r: Receiver, b: Byte)
    requires Suitable(baud) && At(ph, baud, t, r) && Aged(ph, baud, t, r, b, Latency(baud))
    ensures Delivers(baud, r) && r.input == b
  {
    if ph.Moving? && ph.p < 9 {
      TimesStep(Period(baud), ph.p, 9);
    }
    if ph.Moving? || ph.Last? {
      RxDelivers(baud, b, r, t.line);
    }
    hide Frame, Tail, Shifted, Times;
  }

  /** With a suitable divisor every byte is received, after a fixed number of clocks. */
  lemma ReceivesAll(baud: nat, t: Transmitter, r: Receiver, b: Byte)
    requires Suitable(baud) && At(Loaded(b), baud, t, r)
    ensures FirstDelivery(baud, t, r, Latency(baud)) && Receives(baud, t, r, b)
    ensures baud < 1024 ==> Latency(baud) == 9 * baud + baud / 2 + 14
  {
    var n := Latency(baud);
    LatencyIs(baud);
    var ph := Ages(baud, t, r, b, n);
    AgedOut(ph, baud, Idle(baud, t, r, n).0, Idle(baud, t, r, n).1, b);
    forall m: nat | m < n
      ensures !Delivers(baud, Idle(baud, t, r, m).1)
    {
      var _ := Ages(baud, t, r, b, m + 1);
    }
    hide At, Latency, Delivers, Aged, Idle;
  }

  /** A transmitter that started to send the byte 0 `n` clocks ago. */
  predicate SendingZero(baud: nat, t: Transmitter, n: nat) {
    if t.writing then
      && t.full && t.bits <= 9 && t.clocks < baud && n == Times(baud, t.bits) + t.clocks
      && t.line == (t.bits == 9) && forall k :: 0 <= k < 8 ==> t.buf[k] == (k + t.bits >= 8)
    else !t.full && t.line && n >= Times(baud, 10)
  }

  /** The receiver beside it. */
  predicate HearingZero(baud: nat, r: Receiver, n: nat) {
    if n <= 3 then !r.reading && r.filter == Samples(n)
    else
      && r.reading && r.clocks <= baud && r.bits <= 9 && (r.bits == 9 ==> r.input[7])
      && (r.clocks > baud / 2 ==> r.bits > 0)
      && n == Times(baud + 1, if r.clocks <= baud / 2 then r.bits else r.bits - 1) + r.clocks + 4
  }

  lemma ZeroTx(baud: nat, t: Transmitter, n: nat)
    requires 1 <= baud < 25 && SendingZero(baud, t, n)
    ensures SendingZero(baud, TxNext(baud, t, NONE), n + 1)
  {
    if t.writing {
      TimesSucc(baud, t.bits);
    }
    hide Times;
  }

  /** With a divisor below 25 the ninth sample comes when the eighth data bit is over. */
  lemma TooLate(baud: nat, t: Transmitter, n: nat)
    requires 1 <= baud < 25 && SendingZero(baud, t, n) && n == Times(baud + 1, 8) + baud / 2 + 4
    ensures t.line
  {
    TimesIsProduct(baud + 1, 8);
    TimesIsProduct(baud, 9);
    TimesSucc(baud, t.bits);
    if t.writing && t.bits < 9 {
      if t.bits < 8 {
        TimesStep(baud, t.bits + 1, 9);
      }
    }
    hide Times;
  }

  lemma ZeroShift(baud: nat, line: bool, r: Receiver)
    requires 1 <= baud < 25 && r.reading && r.clocks <= baud && r.bits <= 9 && !Delivers(baud, r)
    ensures var r' := RxNext(baud, r, line, NONE);
            && r'.reading && r'.clocks == (if r.clocks == baud then 0 else r.clocks + 1)
            && r'.bits == (if r.clocks == baud / 2 then r.bits + 1 else r.bits)
            && r'.input[7] == (if r.clocks == baud / 2 then line else r.input[7])
  {
  }

  lemma ZeroSamples(baud: nat, line: bool, r: Receiver, n: nat)
    requires 1 <= baud < 25 && HearingZero(baud, r, n) && !Delivers(baud, r) && n > 3
    requires r.clocks == baud / 2 && r.bits == 8 ==> line
    ensures HearingZero(baud, RxNext(baud, r, line, NONE), n + 1)
  {
    var r' := RxNext(baud, r, line, NONE);
    ZeroShift(baud, line, r);
    TimesSucc(baud + 1, r.bits);
    if r.bits > 0 {
      TimesSucc(baud + 1, r.bits - 1);
    }
    hide Times, RxNext, Delivers;
  }

  lemma EarlyLow(baud: nat, t: Transmitter, n: nat)
    requires 1 <= baud < 25 && SendingZero(baud, t, n) && n <= 3
    ensures !t.line
  {
    TimesIsProduct(baud, t.bits);
    TimesIsProduct(baud, 10);
    hide Times;
  }

  lemma ZeroRx(baud: nat, t: Transmitter, r: Receiver, n: nat)
    requires 1 <= baud < 25 && SendingZero(baud, t, n) && HearingZero(baud, r, n) && !Delivers(baud, r)
    ensures HearingZero(baud, RxNext(baud, r, t.line, NONE), n + 1)
  {
    if n <= 3 {
      EarlyLow(baud, t, n);
      TimesSucc(baud + 1, 0);
      hide Times, SendingZero;
    } else {
      if r.clocks == baud / 2 && r.bits == 8 {
        TooLate(baud, t, n);
      }
      ZeroSamples(baud, t.line, r, n);
      hide *;
    }
  }

  lemma IdleOne(baud: nat, t: Transmitter, r: Receiver)
    ensures Idle(baud, t, r, 0) == (t, r)
    ensures Idle(baud, t, r, 1) == (TxNext(baud, t, NONE), RxNext(baud, r, t.line, NONE))
  {
    assert Idle(baud, t, r, 0) == (t, r);
    hide TxNext, RxNext;
  }

  lemma ZeroBegins(baud: nat, t: Transmitter, r: Receiver)
    requires 1 <= baud < 25 && At(Loaded(ZERO), baud, t, r)
    ensures !Delivers(baud, r)
    ensures SendingZero(baud, TxNext(baud, t, NONE), 0) && HearingZero(baud, RxNext(baud, r, t.line, NONE), 0)
  {
    TimesSucc(baud, 0);
  }

  lemma {:induction false} ZeroRun(baud: nat, t: Transmitter, r: Receiver, n: nat)
    requires 1 <= baud < 25 && At(Loaded(ZERO), baud, t, r)
    requires forall m: nat :: m <= n ==> !Delivers(baud, Idle(baud, t, r, m).1)
    ensures var (t', r') := Idle(baud, t, r, n + 1); SendingZero(baud, t', n) && HearingZero(baud, r', n)
  {
    if n > 0 {
      ZeroRun(baud, t, r, n - 1);
      var (t1, r1) := Idle(baud, t, r, n);
      ZeroTx(baud, t1, n - 1);
      ZeroRx(baud, t1, r1, n - 1);
      hide SendingZero, HearingZero, TxNext, RxNext, Delivers, At;
    } else {
      ZeroBegins(baud, t, r);
      IdleOne(baud, t, r);
      hide *;
    }
  }

  lemma NotBefore(baud: nat, t: Transmitter, r: Receiver, n: nat)
    requires FirstDelivery(baud, t, r, n)
    ensures Delivers(baud, Idle(baud, t, r, n).1) && forall m: nat :: m < n ==> !Delivers(baud, Idle(baud, t, r, m).1)
  {
  }

  /** What is delivered has its highest bit set. */
  lemma HeardOne(baud: nat, r: Receiver, n: nat)
    requires HearingZero(baud, r, n) && Delivers(baud, r)
    ensures r.input[7]
  {
    hide Times, Samples;
  }

  lemma NotZero(baud: nat, t: Transmitter, r: Receiver, n: nat)
    requires 1 <= baud < 25 && At(Loaded(ZERO), baud, t, r) && FirstDelivery(baud, t, r, n)
    ensures Idle(baud, t, r, n).1.input[7]
  {
    hide *;
    NotBefore(baud, t, r, n);
    ZeroBegins(baud, t, r);
    IdleOne(baud, t, r);
    assert n > 0;
    ZeroRun(baud, t, r, n - 1);
    HeardOne(baud, Idle(baud, t, r, n).1, n - 1);
  }

  /** With a smaller divisor the byte 0 is not received as 0. */
  lemma MissesZero(baud: nat, t: Transmitter, r: Receiver)
    requires 1 <= baud < 25 && At(Loaded(ZERO), baud, t, r)
    ensures !Receives(baud, t, r, ZERO)
  {
    forall n: nat | FirstDelivery(baud, t, r, n)
      ensures Idle(baud, t, r, n).1.input != ZERO
    {
      NotZero(baud, t, r, n);
      hide *;
      assert !ZERO[7];
    }
    hide FirstDelivery, Idle, At;
  }

  /** With a divisor that the ten-bit counter never reaches the start bit never ends. */
  lemma {:induction false} NeverEnds(baud: nat, t: Transmitter, r: Receiver, n: nat)
    requires (baud == 0 || baud > 1024) && !t.writing && t.full && n > 0
    ensures var (t', r') := Idle(baud, t, r, n); t'.writing && t'.full && !t'.line && t'.clocks < 1024
  {
    if n > 1 {
      NeverEnds(baud, t, r, n - 1);
    } else {
      IdleOne(baud, t, r);
    }
    hide RxNext;
  }

  /** What a receiver that hears a low line has shifted in so far. */
  predicate HearingLow(r: Receiver) {
    r.reading ==> r.bits <= 9 && forall k :: 0 <= k < 8 && k + r.bits >= 8 ==> !r.input[k]
  }

  lemma LowShift(baud: nat, r: Receiver)
    requires HearingLow(r) && !Delivers(baud, r)
    ensures HearingLow(RxNext(baud, r, false, NONE))
  {
    var input: Byte := r.input[1..] + [false];
    assert forall k :: 0 <= k < 7 ==> input[k] == r.input[k + 1];
  }

  lemma {:induction false} HearsLow(baud: nat, t: Transmitter, r: Receiver, b: Byte, n: nat)
    requires (baud == 0 || baud > 1024) && At(Loaded(b), baud, t, r) && n > 0
    requires forall m: nat :: m < n ==> !Delivers(baud, Idle(baud, t, r, m).1)
    ensures HearingLow(Idle(baud, t, r, n).1)
  {
    if n == 1 {
      IdleOne(baud, t, r);
    } else {
      HearsLow(baud, t, r, b, n - 1);
      NeverEnds(baud, t, r, n - 1);
      LowShift(baud, Idle(baud, t, r, n - 1).1);
      hide HearingLow, TxNext, RxNext, Delivers;
    }
  }

  lemma LowDelivers(baud: nat, r: Receiver)
    requires HearingLow(r) && Delivers(baud, r)
    ensures r.input == ZERO
  {
  }

  lemma QuietLoaded(baud: nat, t: Transmitter, r: Receiver, b: Byte)
    requires At(Loaded(b), baud, t, r)
    ensures !Delivers(baud, r)
  {
  }

  /** With such a divisor no byte but 0 is received. */
  lemma OnlyZero(baud: nat, t: Transmitter, r: Receiver, b: Byte)
    requires (baud == 0 || baud > 1024) && At(Loaded(b), baud, t, r) && b != ZERO
    ensures !Receives(baud, t, r, b)
  {
    forall n: nat | FirstDelivery(baud, t, r, n)
      ensures Idle(baud, t, r, n).1.input == ZERO
    {
      hide *;
      NotBefore(baud, t, r, n);
      QuietLoaded(baud, t, r, b);
      IdleOne(baud, t, r);
      assert n > 0;
      HearsLow(baud, t, r, b, n);
      LowDelivers(baud, Idle(baud, t, r, n).1);
    }
    hide FirstDelivery, Idle, At;
  }

  /** The divisors with which the UART understands itself are exactly those from 25 to 1024. */
  lemma ExactDivisors(baud: nat, t: Transmitter, r: Receiver)
    requires Resting(t, r)
    ensures 25 <= baud <= 1024 <==> forall b: Byte :: Receives(baud, t.(buf := b, full := true), r, b)
  {
    if 25 <= baud <= 1024 {
      forall b: Byte
        ensures Receives(baud, t.(buf := b, full := true), r, b)
      {
        ReceivesAll(baud, t.(buf := b, full := true), r, b);
      }
    } else if 1 <= baud < 25 {
      MissesZero(baud, t.(buf := ZERO, full := true), r);
    } else {
      OnlyZero(baud, t.(buf := HIGH_BIT, full := true), r, HIGH_BIT);
    }
    hide Receives;
  }
}
