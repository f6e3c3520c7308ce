/** The control interface and the packet streamer as src/top.vhd wires them: TX_START is bit 0 of PULSE_REG, TX_BYTES is
  configuration register 0, the memory port writes the packet RAM, and the transmit clock ticks twice for each control
  clock. Every tick sees the registers and the RAM as they are at that time.
 */
module Board {
  import opened Words
  import CT = CommandTheorems
  import opened TgeSend
  import S = CommandSystem
  import I = Interpreter
  import G = PacketGen

  /** One control clock: what the surroundings do, and TREADY at its two transmit clocks. */
  datatype Cycle = Cycle(control: S.Inputs, ready1: bool, ready2: bool)

  datatype State = State(machine: S.System, stream: G.Stream)

  predicate Start(m: S.System) { m.regs.pulseReg % 2 == 1 }

  /** What the streamer sees while the machine is in a state. */
  function Wires(m: S.System, ready: bool): G.Inputs {
    G.Inputs(Start(m), m.regs.configReg[0], ready)
  }

  function Clock(cap: nat, b: State, c: Cycle): State {
    var m := S.Clock(cap, b.machine, c.control);
    var ram := RamOf(m.mem);
    State(m, G.Clock(G.Clock(b.stream, ram, Wires(m, c.ready1)), ram, Wires(m, c.ready2)))
  }

  function Run(cap: nat, b: State, cs: seq<Cycle>): State {
    if cs == [] then b else Clock(cap, Run(cap, b, cs[..|cs|-1]), cs[|cs|-1])
  }

  function Controls(cs: seq<Cycle>): (ins: seq<S.Inputs>)
    ensures |ins| == |cs|
  {
    if cs == [] then [] else Controls(cs[..|cs|-1]) + [cs[|cs|-1].control]
  }

  lemma {:induction false} ControlsConcat(a: seq<Cycle>, b: seq<Cycle>)
    ensures Controls(a + b) == Controls(a) + Controls(b)
  {
    if b == [] {
      assert a + b == a;
    } else {
      var n := |b| - 1;
      ControlsConcat(a, b[..n]);
      assert (a + b)[..|a|+n] == a + b[..n];
    }
  }

  lemma {:induction false} ControlsPrefix(cs: seq<Cycle>, k: nat)
    requires k <= |cs|
    ensures Controls(cs[..k]) == Controls(cs)[..k]
  {
    ControlsConcat(cs[..k], cs[k..]);
    assert cs == cs[..k] + cs[k..];
  }

  /** The machine does not notice the streamer. */
  lemma {:induction false} MachineRuns(cap: nat, b: State, cs: seq<Cycle>)
    ensures Run(cap, b, cs).machine == S.Run(cap, b.machine, Controls(cs))
  {
    if cs != [] {
      var init := cs[..|cs|-1];
      MachineRuns(cap, b, init);
      S.RunAppend(cap, b.machine, Controls(init), cs[|cs|-1].control);
    }
  }

  // ----- a streamer that sees one start -----

  /** The states of the machine in a run show one start: it begins with clock `p` and lasts for three, and from then on the
    length is `n` and the memory `mem`. */
  ghost predicate OneStart(m: S.System, k: nat, p: nat, n: u16, mem: I.Memory) {
    if k < p then !Start(m) else (Start(m) <==> k < p + 3) && m.regs.configReg[0] == n && m.mem == mem
  }

  ghost predicate StartSeen(cap: nat, b: State, cs: seq<Cycle>, p: nat, n: u16, mem: I.Memory) {
    forall k | 1 <= k <= |cs| :: OneStart(Run(cap, b, cs[..k]).machine, k, p, n, mem)
  }

  lemma StartSeenEarlier(cap: nat, b: State, cs: seq<Cycle>, p: nat, n: u16, mem: I.Memory)
    requires cs != [] && StartSeen(cap, b, cs, p, n, mem)
    ensures StartSeen(cap, b, cs[..|cs|-1], p, n, mem) && OneStart(Run(cap, b, cs).machine, |cs|, p, n, mem)
  {
    var init := cs[..|cs|-1];
    assert cs[..|cs|] == cs;
    forall k | 1 <= k <= |init| ensures OneStart(Run(cap, b, init[..k]).machine, k, p, n, mem) {
      CT.PrefixOfFront(cs, k);
    }
  }

  /** What the transmit clocks see from clock `p` on. */
  function Ticks(cs: seq<Cycle>, p: nat, n: u16): seq<G.Inputs> {
    if |cs| < p || cs == [] then [] else
      var c, start := cs[|cs|-1], |cs| < p + 3;
      Ticks(cs[..|cs|-1], p, n) + [G.Inputs(start, n, c.ready1)] + [G.Inputs(start, n, c.ready2)]
  }

  lemma {:induction false} TicksHeld(cs: seq<Cycle>, p: nat, n: u16)
    requires p >= 1
    ensures var tx := Ticks(cs, p, n); |tx| == (if |cs| < p then 0 else 2 * (|cs| + 1 - p)) && G.Held(tx, 6, n)
  {
    if |cs| >= p {
      TicksHeld(cs[..|cs|-1], p, n);
    }
  }

  /** A streamer that waits as another one did: the same beats accepted, the same packets counted. */
  ghost predicate Waiting(g: G.Stream, g0: G.Stream) {
    g.gen.pktState == G.S0 && g.beats == g0.beats && g.gen.pktCtr == g0.gen.pktCtr
  }

  lemma {:induction false} WaitsOn(g: G.Stream, g0: G.Stream, ram: G.Ram, i1: G.Inputs, i2: G.Inputs)
    requires Waiting(g, g0) && !i1.txStart && !i2.txStart
    ensures Waiting(G.Clock(G.Clock(g, ram, i1), ram, i2), g0)
  {
    G.TooShort(g, ram, i1);
    G.TooShort(G.Clock(g, ram, i1), ram, i2);
  }

  /** Bit 0 of PULSE_REG never comes up. */
  ghost predicate NeverStarts(cap: nat, b: State, cs: seq<Cycle>) {
    forall k | 1 <= k <= |cs| :: !Start(Run(cap, b, cs[..k]).machine)
  }

  lemma NeverStartsEarlier(cap: nat, b: State, cs: seq<Cycle>)
    requires cs != [] && NeverStarts(cap, b, cs)
    ensures NeverStarts(cap, b, cs[..|cs|-1]) && !Start(Run(cap, b, cs).machine)
  {
    var init := cs[..|cs|-1];
    assert cs[..|cs|] == cs;
    forall k | 1 <= k <= |init| ensures !Start(Run(cap, b, init[..k]).machine) {
      CT.PrefixOfFront(cs, k);
      assert !Start(Run(cap, b, cs[..k]).machine);
    }
  }

  /** A streamer that never sees it sends nothing, whatever the other bits do. */
  lemma {:induction false} NoStartNoPacket(cap: nat, b: State, cs: seq<Cycle>)
    requires b.stream.gen.pktState == G.S0 && NeverStarts(cap, b, cs)
    ensures Waiting(Run(cap, b, cs).stream, b.stream)
  {
    if cs != [] {
      var init, c := cs[..|cs|-1], cs[|cs|-1];
      NeverStartsEarlier(cap, b, cs);
      NoStartNoPacket(cap, b, init);
      var m := Run(cap, b, cs).machine;
      WaitsOn(Run(cap, b, init).stream, b.stream, RamOf(m.mem), Wires(m, c.ready1), Wires(m, c.ready2));
    }
  }

  /** From RESET on, whatever the board does and whatever is written to its RAM: the streamer's counter is the number of
    packets that have ended, and every packet carries the number of those before it. */
  lemma {:induction false} BoardNumbers(cap: nat, b: State, cs: seq<Cycle>)
    requires G.IsReset(b.stream)
    ensures G.Counts(Run(cap, b, cs).stream) && G.NumbersIn(Run(cap, b, cs).stream.beats)
  {
    if cs != [] {
      var init, c := cs[..|cs|-1], cs[|cs|-1];
      var before, m := Run(cap, b, init).stream, Run(cap, b, cs).machine;
      BoardNumbers(cap, b, init);
      G.NumbersStep(before, RamOf(m.mem), Wires(m, c.ready1));
      G.NumbersStep(G.Clock(before, RamOf(m.mem), Wires(m, c.ready1)), RamOf(m.mem), Wires(m, c.ready2));
    }
  }

  /** Until the start the streamer waits; from then on it runs on one RAM, with one start of six of its clocks. */
  lemma {:induction false} StreamSeen(cap: nat, b: State, cs: seq<Cycle>, p: nat, n: u16, mem: I.Memory)
    requires b.stream.gen.pktState == G.S0 && p >= 1 && StartSeen(cap, b, cs, p, n, mem)
    ensures var g := Run(cap, b, cs).stream;
            if |cs| < p then Waiting(g, b.stream)
            else var g0 := Run(cap, b, cs[..p-1]).stream; Waiting(g0, b.stream) && g == G.Run(g0, RamOf(mem), Ticks(cs, p, n))
  {
    if cs != [] {
      var init, c := cs[..|cs|-1], cs[|cs|-1];
      var before, m := Run(cap, b, init).stream, Run(cap, b, cs).machine;
      StartSeenEarlier(cap, b, cs, p, n, mem);
      StreamSeen(cap, b, init, p, n, mem);
      if |cs| < p {
        WaitsOn(before, b.stream, RamOf(m.mem), Wires(m, c.ready1), Wires(m, c.ready2));
      } else {
        var tx, start := Ticks(init, p, n), |cs| < p + 3;
        var i1, i2 := G.Inputs(start, n, c.ready1), G.Inputs(start, n, c.ready2);
        assert Wires(m, c.ready1) == i1 && Wires(m, c.ready2) == i2 && m.mem == mem;
        FirstTick(cap, b, cs, p, n);
        G.RunAppend(Run(cap, b, cs[..p-1]).stream, RamOf(mem), tx, i1);
        G.RunAppend(Run(cap, b, cs[..p-1]).stream, RamOf(mem), tx + [i1], i2);
      }
    }
  }

  lemma FirstTick(cap: nat, b: State, cs: seq<Cycle>, p: nat, n: u16)
    requires 1 <= p <= |cs|
    ensures var init := cs[..|cs|-1];
            if |cs| == p then cs[..p-1] == init && Ticks(init, p, n) == [] else init[..p-1] == cs[..p-1]
  {
  }

  // ----- enough ready clocks -----

  function ReadyTicks(cs: seq<Cycle>): nat {
    if cs == [] then 0 else
      var c := cs[|cs|-1];
      ReadyTicks(cs[..|cs|-1]) + (if c.ready1 then 1 else 0) + (if c.ready2 then 1 else 0)
  }

  /** Before the last clock of `tail` TREADY is high often enough for a packet of `n` bytes. */
  predicate LetsThrough(tail: seq<Cycle>, n: u16) {
    tail != [] && ReadyTicks(tail[..|tail|-1]) >= G.BeatCount(n)
  }

  lemma {:induction false} TicksReady(front: seq<Cycle>, tail: seq<Cycle>, p: nat, n: u16)
    requires 1 <= p <= |front|
    ensures G.Readies(Ticks(front + tail, p, n)[1..]) >= ReadyTicks(tail)
  {
    TicksHeld(front + tail, p, n);
    if tail != [] {
      var k, c := |tail| - 1, tail[|tail|-1];
      var cs := front + tail;
      var start := |cs| < p + 3;
      TicksReady(front, tail[..k], p, n);
      TicksHeld(front + tail[..k], p, n);
      assert cs[..|cs|-1] == front + tail[..k];
      TwoMoreTicks(Ticks(front + tail[..k], p, n), G.Inputs(start, n, c.ready1), G.Inputs(start, n, c.ready2));
    }
  }

  lemma TwoMoreTicks(tx: seq<G.Inputs>, i1: G.Inputs, i2: G.Inputs)
    requires tx != []
    ensures G.Readies((tx + [i1] + [i2])[1..])
         == G.Readies(tx[1..]) + (if i1.tready then 1 else 0) + (if i2.tready then 1 else 0)
  {
    var t := tx[1..];
    assert (tx + [i1] + [i2])[1..] == t + [i1] + [i2];
    assert (t + [i1] + [i2])[..|t|+1] == t + [i1] && (t + [i1])[..|t|] == t;
  }

  lemma {:induction false} ReadiesMore(a: seq<G.Inputs>, b: seq<G.Inputs>)
    ensures G.Readies(a) <= G.Readies(a + b)
  {
    if b == [] {
      assert a + b == a;
    } else {
      ReadiesMore(a, b[..|b|-1]);
      assert (a + b)[..|a|+|b|-1] == a + b[..|b|-1];
    }
  }

  lemma {:induction false} TicksLetThrough(front: seq<Cycle>, tail: seq<Cycle>, p: nat, n: u16)
    requires 1 <= p <= |front| && LetsThrough(tail, n)
    ensures G.LetsThrough(Ticks(front + tail, p, n), n)
  {
    var k := |tail| - 1;
    var tx, early := Ticks(front + tail, p, n), Ticks(front + tail[..k], p, n);
    TicksHeld(front + tail, p, n);
    TicksHeld(front + tail[..k], p, n);
    TicksReady(front, tail[..k], p, n);
    assert (front + tail)[..|front|+k] == front + tail[..k];
    assert tx[1..|tx|-1] == early[1..] + tx[|early|..|tx|-1];
    ReadiesMore(early[1..], tx[|early|..|tx|-1]);
  }

  lemma {:induction false} TicksSend(g: G.Stream, ram: G.Ram, n: u16, tx: seq<G.Inputs>)
    requires g.gen.pktState == G.S0 && n >= 25 && G.Held(tx, 6, n) && G.LetsThrough(tx, n)
    ensures G.OnePacket(G.Run(g, ram, tx), g, ram, n)
  {
    G.HeldStart(g, ram, n, 6, tx);
  }

  lemma {:induction false} OnePacketSince(g: G.Stream, g0: G.Stream, b: G.Stream, ram: G.Ram, n: u16)
    requires G.OnePacket(g, g0, ram, n) && Waiting(g0, b)
    ensures G.OnePacket(g, b, ram, n)
  {
  }

  /** One start sends one packet, of the length and from the memory that stand there with the start. */
  lemma {:induction false} PacketSent(
      cap: nat, b: State, front: seq<Cycle>, tail: seq<Cycle>, p: nat, n: u16, mem: I.Memory)
    requires b.stream.gen.pktState == G.S0 && 1 <= p <= |front| && StartSeen(cap, b, front + tail, p, n, mem)
    requires n >= 25 && LetsThrough(tail, n)
    ensures G.OnePacket(Run(cap, b, front + tail).stream, b.stream, RamOf(mem), n)
  {
    var cs := front + tail;
    var tx, g0 := Ticks(cs, p, n), Run(cap, b, cs[..p-1]).stream;
    StreamSeen(cap, b, cs, p, n, mem);
    TicksHeld(cs, p, n);
    TicksLetThrough(front, tail, p, n);
    TicksSend(g0, RamOf(mem), n, tx);
    OnePacketSince(G.Run(g0, RamOf(mem), tx), g0, b.stream, RamOf(mem), n);
  }
}
