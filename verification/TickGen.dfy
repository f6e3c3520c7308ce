/** The phase accumulator of src/tickgen.vhd.

  `half` is 2^(COUNTER_WIDTH-1), so the counter counts modulo `2 * half`, and `tick_i`, its top bit, is `half <= counter`.
 */
module TickGen {
  import opened Arith

  datatype Params = Params(half: nat, divisor: nat)
  {
    ghost predicate Valid() { half > 0 && divisor > 0 }
    function Modulus(): nat { 2 * half }
  }

  datatype State = State(counter: nat, tickPrev: bool, tick1Clk: bool)

  predicate TickI(g: Params, counter: nat) { g.half <= counter }

  function Step(g: Params, s: State): State
    requires g.Valid()
  {
    State((s.counter + g.divisor) % g.Modulus(), TickI(g, s.counter), !s.tickPrev && TickI(g, s.counter))
  }

  /** The state after `n` clocks. RESET clears the counter and `tick_prev`; it leaves `TICK1CLK` as it was. */
  function After(g: Params, stale: bool, n: nat): State
    requires g.Valid()
  {
    if n == 0 then State(0, false, stale) else Step(g, After(g, stale, n - 1))
  }

  class Generator {
    const g: Params
    var counter: nat
    var tickPrev: bool
    var tick1Clk: bool

    function Registers(): State
      reads this
    {
      State(counter, tickPrev, tick1Clk)
    }

    constructor Reset(g: Params, stale: bool)
      ensures this.g == g && Registers() == State(0, false, stale)
    {
      this.g := g;
      counter, tickPrev, tick1Clk := 0, false, stale;
    }

    method Clock()
      requires g.Valid()
      modifies this
      ensures Registers() == Step(g, old(Registers()))
    {
      var tick := counter >= g.half;
      counter := (counter + g.divisor) % (2 * g.half);
      tick1Clk := !tickPrev && tick;
      tickPrev := tick;
    }
  }

  // ----- how many ticks -----

  /** The clock pulses of `TICK1CLK` in the first `n` clocks. */
  function Ticks(g: Params, n: nat): nat
    requires g.Valid()
  {
    if n == 0 then 0 else Ticks(g, n - 1) + if After(g, false, n).tick1Clk then 1 else 0
  }

  /** The multiples of the ideal period `2 * half / divisor`, shifted by half a period, that `k` clocks have passed. */
  function Ideal(g: Params, k: nat): nat
    requires g.Valid()
  {
    (k * g.divisor + g.half) / g.Modulus()
  }

  /** The counter and the laps it has made. */
  lemma {:induction false} CounterLaps(g: Params, k: nat)
    requires g.Valid()
    ensures var c := After(g, false, k).counter;
            && c == k * g.divisor % g.Modulus()
            && Ideal(g, k) == k * g.divisor / g.Modulus() + if TickI(g, c) then 1 else 0
  {
    var m := g.Modulus();
    if k > 0 {
      CounterLaps(g, k - 1);
      assert k * g.divisor == (k - 1) * g.divisor + g.divisor;
      ModAdd((k - 1) * g.divisor, g.divisor, m);
    }
    HalfLap(k * g.divisor, g.half);
  }

  lemma HalfLap(x: nat, half: nat)
    requires half > 0
    ensures (x + half) / (2 * half) == x / (2 * half) + if half <= x % (2 * half) then 1 else 0
  {
    var m := 2 * half;
    var q, r := x / m, x % m;
    assert x == q * m + r;
    if half <= r {
      assert (q + 1) * m == q * m + m;
      DivUnique(x + half, q + 1, r - half, m);
    } else {
      DivUnique(x + half, q, r + half, m);
    }
  }

  lemma LapStep(x: nat, d: nat, half: nat)
    requires 0 < d <= half
    ensures var m := 2 * half;
            (x + d + half) / m == (x + half) / m + if x % m < half <= (x + d) % m then 1 else 0
  {
    var m := 2 * half;
    var q, c := x / m, x % m;
    assert x == q * m + c;
    if c + d < m {
      DivUnique(x + d, q, c + d, m);
    } else {
      assert (q + 1) * m == q * m + m;
      DivUnique(x + d, q + 1, c + d - m, m);
    }
    HalfLap(x, half);
    HalfLap(x + d, half);
  }

  /** One clock raises `Ideal` exactly when the counter's top bit rises, as long as the divisor is at most half the
    modulus. */
  lemma IdealStep(g: Params, k: nat)
    requires g.Valid() && g.divisor <= g.half
    ensures Ideal(g, k + 1) == Ideal(g, k) +
      if !TickI(g, After(g, false, k).counter) && TickI(g, After(g, false, k + 1).counter) then 1 else 0
  {
    CounterLaps(g, k);
    CounterLaps(g, k + 1);
    assert (k + 1) * g.divisor == k * g.divisor + g.divisor;
    LapStep(k * g.divisor, g.divisor, g.half);
  }

  /** The first clock sees the counter at zero. */
  lemma FirstClock(g: Params)
    requires g.Valid()
    ensures !After(g, false, 1).tick1Clk && Ticks(g, 1) == 0 == Ideal(g, 0)
  {
    var s0 := After(g, false, 0);
    assert s0 == State(0, false, false) && After(g, false, 1) == Step(g, s0);
    assert Ticks(g, 0) == 0;
    DivUnique(g.half, 0, g.half, g.Modulus());
  }

  /** The tick count: after every number of clocks it is the ideal count rounded to the nearest integer. */
  lemma {:induction false} TickCount(g: Params, n: nat)
    requires g.Valid() && g.divisor <= g.half && n >= 1
    ensures Ticks(g, n) == Ideal(g, n - 1)
  {
    if n == 1 {
      FirstClock(g);
    } else {
      TickCount(g, n - 1);
      IdealStep(g, n - 2);
    }
  }

  /** Two ticks are never on consecutive clocks, so at most every second clock has one. */
  lemma {:induction false} TicksAtMostHalf(g: Params, n: nat)
    requires g.Valid() && n >= 1
    ensures 2 * Ticks(g, n) <= n - 1 + if After(g, false, n).tick1Clk then 1 else 0
  {
    if n > 1 {
      TicksAtMostHalf(g, n - 1);
    } else {
      FirstClock(g);
    }
  }

  /** The frequency promised in the header comment is the one generated exactly when DIVISOR is at most
    2^(COUNTER_WIDTH-1). */
  lemma FrequencyCondition(g: Params)
    requires g.Valid()
    ensures (forall n: nat | n >= 1 :: Ticks(g, n) == Ideal(g, n - 1)) <==> g.divisor <= g.half
  {
    if g.divisor <= g.half {
      forall n: nat | n >= 1 ensures Ticks(g, n) == Ideal(g, n - 1) {
        TickCount(g, n);
      }
    } else {
      var m := g.Modulus();
      TicksAtMostHalf(g, 2 * m + 1);
      assert 2 * m * g.divisor == 2 * g.divisor * m;
      DivUnique(2 * m * g.divisor + g.half, 2 * g.divisor, g.half, m);
      assert Ticks(g, 2 * m + 1) != Ideal(g, 2 * m + 1 - 1);
    }
  }

  /** Jitter never accumulates: however long the run, the count is within half a period of the exact ratio. */
  lemma NoAccumulatedJitter(g: Params, n: nat)
    requires g.Valid() && g.divisor <= g.half && n >= 1
    ensures 0 <= (n - 1) * g.divisor + g.half - Ticks(g, n) * g.Modulus() < g.Modulus()
  {
    TickCount(g, n);
    DivRemainder((n - 1) * g.divisor + g.half, g.Modulus());
  }

  // ----- when the ticks come -----

  /** The clock on which the `j`-th tick comes. */
  function TickClock(g: Params, j: nat): nat
    requires g.Valid() && j >= 1
  {
    (j * g.Modulus() - g.half + g.divisor - 1) / g.divisor + 1
  }

  lemma TickClockBounds(g: Params, j: nat)
    requires g.Valid() && j >= 1
    ensures j * g.Modulus() - g.half <= (TickClock(g, j) - 1) * g.divisor < j * g.Modulus() - g.half + g.divisor
  {
    MulGrows(j, g.Modulus());
    var y := j * g.Modulus() - g.half + g.divisor - 1;
    assert y == y / g.divisor * g.divisor + y % g.divisor;
  }

  /** `TickClock` is where the ticks are: at least `j` of them have come exactly from that clock on. */
  lemma TickClockCorrect(g: Params, j: nat, n: nat)
    requires g.Valid() && g.divisor <= g.half && j >= 1
    ensures Ticks(g, n) >= j <==> n >= TickClock(g, j)
  {
    if n == 0 {
      assert Ticks(g, 0) == 0;
    } else {
      TickCount(g, n);
      TickClockBounds(g, j);
      IdealReaches(g, j, n - 1, TickClock(g, j) - 1);
    }
  }

  lemma IdealReaches(g: Params, j: nat, k: nat, t: nat)
    requires g.Valid()
    requires j * g.Modulus() - g.half <= t * g.divisor < j * g.Modulus() - g.half + g.divisor
    ensures Ideal(g, k) >= j <==> k >= t
  {
    var jm, kd := j * g.Modulus(), k * g.divisor;
    ThresholdUnique(g.divisor, jm - g.half, t, k);
    DivAtLeast(kd + g.half, j, g.Modulus());
  }

  /** `t` is the least multiplier of `d` that reaches `y`. */
  lemma ThresholdUnique(d: nat, y: int, t: int, k: int)
    requires d > 0 && y <= t * d < y + d
    ensures k * d >= y <==> k >= t
  {
    MulLess(t, k, d);
    MulLess(k, t - 1, d);
    assert (t - 1) * d == t * d - d;
  }

  /** Ticks that are `i` apart in number are `i` periods apart in time, to within one clock; in particular
    neighbouring ticks are the floor or the ceiling of the period apart. */
  lemma TickSpacing(g: Params, j: nat, i: nat)
    requires g.Valid() && j >= 1
    ensures i * g.Modulus() - g.divisor
              < (TickClock(g, j + i) - TickClock(g, j)) * g.divisor
              < i * g.Modulus() + g.divisor
  {
    TickClockBounds(g, j);
    TickClockBounds(g, j + i);
    assert (j + i) * g.Modulus() == j * g.Modulus() + i * g.Modulus();
    assert (TickClock(g, j + i) - TickClock(g, j)) * g.divisor
        == (TickClock(g, j + i) - 1) * g.divisor - (TickClock(g, j) - 1) * g.divisor;
  }

  /** Seen from any clock `a`, whatever the phase: the `i`-th tick after it comes `x` clocks later, with `x` more than
    `i - 1` periods and less than `i` periods and one clock. */
  lemma NextTicks(g: Params, a: nat, i: nat) returns (x: nat)
    requires g.Valid() && g.divisor <= g.half && i >= 1
    ensures x >= 1 && Ticks(g, a + x) == Ticks(g, a) + i && Ticks(g, a + x - 1) == Ticks(g, a) + i - 1
    ensures (i - 1) * g.Modulus() < x * g.divisor < i * g.Modulus() + g.divisor
  {
    var j := Ticks(g, a);
    var t := TickClock(g, j + i);
    TickClockCorrect(g, j + i, a);
    x := t - a;
    TickClockCorrect(g, j + i, t);
    TickClockCorrect(g, j + i, t - 1);
    TickMonotone(g, t - 1);
    NotTooEarly(g, a, i);
    NotTooLate(g, a, i);
  }

  lemma NotTooEarly(g: Params, a: nat, i: nat)
    requires g.Valid() && g.divisor <= g.half && i >= 1
    ensures (i - 1) * g.Modulus() < (TickClock(g, Ticks(g, a) + i) - a) * g.divisor
  {
    var j, d := Ticks(g, a), g.divisor;
    var t, t1 := TickClock(g, j + i), TickClock(g, j + 1);
    TickClockCorrect(g, j + 1, a);
    TickSpacing(g, j + 1, i - 1);
    assert (t - a) * d == (t - t1) * d + (t1 - a) * d;
    MulGrows(t1 - a, d);
  }

  lemma NotTooLate(g: Params, a: nat, i: nat)
    requires g.Valid() && g.divisor <= g.half && i >= 1
    ensures (TickClock(g, Ticks(g, a) + i) - a) * g.divisor < i * g.Modulus() + g.divisor
  {
    var j, d := Ticks(g, a), g.divisor;
    var t := TickClock(g, j + i);
    if j >= 1 {
      var t0 := TickClock(g, j);
      TickClockCorrect(g, j, a);
      TickSpacing(g, j, i);
      assert (t - a) * d == (t - t0) * d - (a - t0) * d;
      MulLess(0, a - t0, d);
    } else {
      TickClockBounds(g, i);
      assert (t - a) * d == (t - 1) * d + d - a * d;
      MulLess(0, a, d);
    }
  }

  /** A tick comes with each clock or not; none is lost. */
  lemma TickMonotone(g: Params, n: nat)
    requires g.Valid()
    ensures Ticks(g, n) <= Ticks(g, n + 1) <= Ticks(g, n) + 1
  {
  }
}
