/** An idle receiver on the ticks of `tickgen` decodes a frame sent at any bit period near sixteen ticks. */
module UartTiming {
  import opened Arith
  import opened Uart
  import T = TickGen

  /** The receiver `x` clocks after the edge at which, idle, it saw the line low. Tick number `a + x` of the generator's
    run is the one it sees at that clock; `pin(x)` is the line. */
  function Receiver(g: T.Params, a: nat, pin: nat -> bool, x: nat): RxState
    requires g.Valid()
  {
    if x == 0 then RxNext(Rx(false, 0, ZeroByte(), 0, false), false, false)
    else RxNext(Receiver(g, a, pin, x - 1), T.After(g, false, a + x).tick1Clk, pin(x))
  }

  /** The line carries a frame of `d` with a bit period of `period` clocks, from the clock that the receiver saw. */
  ghost predicate Carries(pin: nat -> bool, d: Byte, period: nat) {
    forall j: nat, x: nat | j < 10 && j * period <= x < (j + 1) * period :: pin(x) == Frame(d, j)
  }

  /** The period suits the tick rate: in units of one clock over DIVISOR, bit `j` lasts from before tick `16j + 8` until
    after tick `16j + 9`. */
  predicate Suits(g: T.Params, period: nat) {
    forall j: nat | j < 10 :: BitSuits(g.Modulus(), g.divisor, period, j)
  }

  predicate BitSuits(modulus: nat, divisor: nat, period: nat, j: nat) {
    && j * period * divisor <= (16 * j + 8) * modulus
    && (16 * j + 9) * modulus + divisor <= (j + 1) * period * divisor
  }

  /** Ticks that the receiver has counted after `x` clocks. */
  function Counted(g: T.Params, a: nat, x: nat): int
    requires g.Valid()
  {
    T.Ticks(g, a + x) - T.Ticks(g, a)
  }

  /** The receiver samples inside the bit: tick `16j + 9` falls strictly between the edges of bit `j`. */
  lemma SampleInsideBit(g: T.Params, a: nat, period: nat, j: nat, x: nat)
    requires g.Valid() && g.divisor <= g.half && Suits(g, period) && j < 10
    requires x >= 1 && Counted(g, a, x) == 16 * j + 9 && Counted(g, a, x - 1) == 16 * j + 8
    ensures j * period <= x < (j + 1) * period
  {
    assert BitSuits(g.Modulus(), g.divisor, period, j);
    var y := T.NextTicks(g, a, 16 * j + 9);
    SameTick(g, a, x, y);
    MulLess(j * period, x, g.divisor);
    MulLess(x, (j + 1) * period, g.divisor);
  }

  lemma SameTick(g: T.Params, a: nat, x: nat, y: nat)
    requires g.Valid() && x >= 1 && y >= 1
    requires Counted(g, a, x) == Counted(g, a, y) && Counted(g, a, x - 1) == Counted(g, a, y - 1) == Counted(g, a, x) - 1
    ensures x == y
  {
    if x < y { TicksMonotone(g, a + x, a + y - 1); }
    if y < x { TicksMonotone(g, a + y, a + x - 1); }
  }

  lemma {:induction false} TicksMonotone(g: T.Params, m: nat, n: nat)
    requires g.Valid() && m <= n
    ensures T.Ticks(g, m) <= T.Ticks(g, n)
  {
    if m < n {
      TicksMonotone(g, m, n - 1);
    }
  }

  lemma {:induction false} PinInBit(g: T.Params, a: nat, pin: nat -> bool, d: Byte, period: nat, x: nat, r: nat)
    requires g.Valid() && g.divisor <= g.half && Suits(g, period) && Carries(pin, d, period)
    requires x >= 1 && r < 153 && r % 16 == 8 && Counted(g, a, x - 1) == r && Counted(g, a, x) == r + 1
    ensures pin(x) == Frame(d, r / 16)
  {
    var j := r / 16;
    assert r == 16 * j + 8;
    SampleInsideBit(g, a, period, j, x);
  }

  /** The receiver's state is determined by the ticks it has counted. */
  lemma {:induction false} ReceiverProgress(g: T.Params, a: nat, pin: nat -> bool, d: Byte, period: nat, x: nat)
    requires g.Valid() && g.divisor <= g.half && Suits(g, period) && Carries(pin, d, period)
    requires x == 0 || Counted(g, a, x - 1) < 153
    ensures 0 <= Counted(g, a, x) <= 153
    ensures if Counted(g, a, x) < 153 then Receiving(Receiver(g, a, pin, x), d, Counted(g, a, x))
            else Delivering(Receiver(g, a, pin, x), d)
  {
    if x == 0 {
      assert Counted(g, a, 0) == 0;
    } else {
      var r := Counted(g, a, x - 1);
      if x > 1 { TicksMonotone(g, a + x - 2, a + x - 1); }
      ReceiverProgress(g, a, pin, d, period, x - 1);
      var s, sample := Receiver(g, a, pin, x - 1), T.After(g, false, a + x).tick1Clk;
      assert Counted(g, a, x) == r + if sample then 1 else 0;
      if sample && r % 16 == 8 {
        PinInBit(g, a, pin, d, period, x, r);
      }
      ReceiveStep(s, d, r, sample, pin(x));
      assert Receiver(g, a, pin, x) == RxNext(s, sample, pin(x));
    }
  }

  /** The byte is decoded whatever the phase of the ticks when the start edge arrives: there is a clock at which it is
    delivered, and at no earlier clock is anything delivered. */
  lemma {:induction false} FrameDecoded(g: T.Params, a: nat, pin: nat -> bool, d: Byte, period: nat) returns (x: nat)
    requires g.Valid() && g.divisor <= g.half && Suits(g, period) && Carries(pin, d, period)
    ensures Delivering(Receiver(g, a, pin, x), d) && 9 * period <= x < 10 * period
    ensures forall y: nat | y < x :: Receiver(g, a, pin, y).active && !Receiver(g, a, pin, y).enable
  {
    x := T.NextTicks(g, a, 153);
    ReceiverProgress(g, a, pin, d, period, x);
    SampleInsideBit(g, a, period, 9, x);
    forall y: nat | y < x ensures Receiver(g, a, pin, y).active && !Receiver(g, a, pin, y).enable {
      TicksMonotone(g, a + y, a + x - 1);
      if y > 0 { TicksMonotone(g, a + y - 1, a + x - 1); }
      ReceiverProgress(g, a, pin, d, period, y);
    }
  }

  // ----- exactly which bit periods -----

  /** The frame that began at the start edge is decoded: when the receiver has finished it, it delivers `d`. */
  ghost predicate Decoded(g: T.Params, a: nat, pin: nat -> bool, d: Byte)
    requires g.Valid()
  {
    exists x: nat :: Delivering(Receiver(g, a, pin, x), d) && forall y: nat | y < x :: Receiver(g, a, pin, y).active
  }

  /** The receiver in the middle of a frame, whatever the line does. */
  ghost predicate Timed(s: RxState, r: nat) {
    s.active && !s.enable && r < 153 && s.counter == r % 16 && s.nbits == (r + 7) / 16
  }

  lemma TimedStep(s: RxState, r: nat, sample: bool, pin: bool)
    requires Timed(s, r)
    ensures var s' := RxNext(s, sample, pin);
            if !sample then Timed(s', r) else if r < 152 then Timed(s', r + 1) else !s'.active && s'.enable == pin
  {
    Phase(r);
  }

  /** A frame takes 153 ticks, and is good exactly when the line is high at the last of them. */
  lemma {:induction false} TimedRun(g: T.Params, a: nat, pin: nat -> bool, x: nat)
    requires g.Valid() && (x == 0 || Counted(g, a, x - 1) < 153)
    ensures 0 <= Counted(g, a, x) <= 153
    ensures var s := Receiver(g, a, pin, x);
            if Counted(g, a, x) < 153 then Timed(s, Counted(g, a, x)) else !s.active && s.enable == pin(x)
  {
    if x == 0 {
      assert Counted(g, a, 0) == 0;
    } else {
      var r := Counted(g, a, x - 1);
      if x > 1 { TicksMonotone(g, a + x - 2, a + x - 1); }
      TimedRun(g, a, pin, x - 1);
      TimedStep(Receiver(g, a, pin, x - 1), r, T.After(g, false, a + x).tick1Clk, pin(x));
    }
  }

  lemma {:induction false} LowAtTheEnd(g: T.Params, a: nat, pin: nat -> bool, d: Byte, x: nat)
    requires g.Valid() && x >= 1 && Counted(g, a, x - 1) == 152 && Counted(g, a, x) == 153 && !pin(x)
    ensures !Decoded(g, a, pin, d)
  {
    TimedRun(g, a, pin, x);
    forall y: nat | Delivering(Receiver(g, a, pin, y), d) && forall z: nat | z < y :: Receiver(g, a, pin, z).active
      ensures false
    {
      if y < x {
        TicksMonotone(g, a + y, a + x - 1);
        if y > 0 { TicksMonotone(g, a + y - 1, a + x - 1); }
        TimedRun(g, a, pin, y);
      }
    }
  }

  /** A line with one frame of zeros, low after it. */
  function Zeros(period: nat): nat -> bool {
    x => 9 * period <= x < 10 * period
  }

  lemma {:induction false} ZerosCarried(period: nat)
    ensures Carries(Zeros(period), ZeroByte(), period)
  {
    forall j: nat, x: nat | j < 10 && j * period <= x < (j + 1) * period
      ensures Zeros(period)(x) == Frame(ZeroByte(), j)
    {
      if j < 9 {
        BeforeStop(j, period);
      }
    }
  }

  lemma BeforeStop(j: nat, period: nat)
    requires j < 9
    ensures (j + 1) * period <= 9 * period
  {
    var rest: nat := 8 - j;
    assert 9 * period == (j + 1) * period + rest * period;
  }

  lemma TicksAre(g: T.Params, n: nat, j: nat)
    requires g.Valid() && g.divisor <= g.half && n < T.TickClock(g, j + 1) && (j >= 1 ==> T.TickClock(g, j) <= n)
    ensures T.Ticks(g, n) == j
  {
    T.TickClockCorrect(g, j + 1, n);
    if j >= 1 { T.TickClockCorrect(g, j, n); }
  }

  /** The tick generator with the generics in the source, 16 and 1208. */
  const DEFAULT := T.Params(0x8000, 1208)

  /** Two phases of the ticks: the last sample of a frame can come 8300 clocks after the start edge, or 8247. */
  lemma LatestAndEarliest()
    ensures DEFAULT.Valid() && Counted(DEFAULT, 29, 8299) == 152 && Counted(DEFAULT, 29, 8300) == 153
    ensures Counted(DEFAULT, 28, 8246) == 152 && Counted(DEFAULT, 28, 8247) == 153
  {
    TicksAre(DEFAULT, 28, 0);
    TicksAre(DEFAULT, 29, 1);
    TicksAre(DEFAULT, 8328, 153);
    TicksAre(DEFAULT, 8329, 154);
    TicksAre(DEFAULT, 8274, 152);
    TicksAre(DEFAULT, 8275, 153);
  }

  /** With these generics the bit periods at which every frame is decoded, whatever its byte, whatever the phase of the
    ticks and whatever the line does after it, are exactly those from 831 to 916 clocks. At a 100 MHz clock, 115200 baud
    is 868. */
  lemma {:induction false} DefaultTolerance(period: nat)
    ensures DEFAULT.Valid()
    ensures (forall a: nat, pin: nat -> bool, d: Byte | Carries(pin, d, period) :: Decoded(DEFAULT, a, pin, d))
       <==> 831 <= period <= 916
  {
    if 831 <= period <= 916 {
      forall a: nat, pin: nat -> bool, d: Byte | Carries(pin, d, period) ensures Decoded(DEFAULT, a, pin, d) {
        DecodedWithin(period, a, pin, d);
      }
    } else {
      var a, pin, d := NotDecoded(period);
    }
  }

  lemma {:induction false} DecodedWithin(period: nat, a: nat, pin: nat -> bool, d: Byte)
    requires 831 <= period <= 916 && Carries(pin, d, period)
    ensures DEFAULT.Valid() && Decoded(DEFAULT, a, pin, d)
  {
    DefaultSuits(period);
    var x := FrameDecoded(DEFAULT, a, pin, d, period);
  }

  lemma {:induction false} NotDecoded(period: nat) returns (a: nat, pin: nat -> bool, d: Byte)
    requires period < 831 || period > 916
    ensures DEFAULT.Valid() && Carries(pin, d, period) && !Decoded(DEFAULT, a, pin, d)
  {
    LatestAndEarliest();
    ZerosCarried(period);
    a, pin, d := if period < 831 then 29 else 28, Zeros(period), ZeroByte();
    LowAtTheEnd(DEFAULT, a, pin, d, if period < 831 then 8300 else 8247);
  }

  /** The condition of the general theorem says the same. */
  lemma DefaultSuits(period: nat)
    ensures Suits(DEFAULT, period) <==> 831 <= period <= 916
  {
    assert DEFAULT.Modulus() == 0x1_0000;
    if Suits(DEFAULT, period) {
      assert BitSuits(DEFAULT.Modulus(), DEFAULT.divisor, period, 9);
      LastBitBounds(period);
    }
    if 831 <= period <= 916 {
      forall j: nat | j < 10 ensures BitSuits(0x1_0000, 1208, period, j) {
        BitOfPeriod(j, period);
      }
    }
  }

  lemma LastBitBounds(period: nat)
    requires BitSuits(0x1_0000, 1208, period, 9)
    ensures 831 <= period <= 916
  {
  }

  lemma BitOfPeriod(j: nat, period: nat)
    requires j < 10 && 831 <= period <= 916
    ensures BitSuits(0x1_0000, 1208, period, j)
  {
    var x, y := j * period, (j + 1) * period;
    PeriodBounds(j, period);
    assert x * 1208 <= j * 916 * 1208 && y * 1208 >= (j + 1) * 831 * 1208;
  }

  lemma PeriodBounds(j: nat, period: nat)
    requires 831 <= period <= 916
    ensures j * period <= j * 916
    ensures (j + 1) * 831 <= (j + 1) * period
  {
    assert j * 916 == j * period + j * (916 - period);
    assert (j + 1) * period == (j + 1) * 831 + (j + 1) * (period - 831);
  }
}
