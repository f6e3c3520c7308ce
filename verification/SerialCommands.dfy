/** Command words sent over the serial line, and what they do in the machine. */
module SerialCommands {
  import opened Words
  import opened ControlInterface
  import opened Interpreter
  import opened CommandSystem
  import opened CommandRefinement
  import opened CommandTheorems
  import opened CommandProgress
  import B = Byte2Cmd
  import L = SerialLine
  import T = TickGen
  import U = Uart
  import UT = UartTiming

  /** The bit that the decoder leaves above the word is none that the interface looks at. */
  lemma ArrivesMeans(v: u32)
    ensures var w := B.Arrives(v);
            IsRead(w) == IsRead(v) && Address(w) == Address(v) && Data(w) == Data(v)
  {
    assert B.Arrives(v) == v + 0x8_0000_0000;
    assert B.Arrives(v) / 0x1_0000 == v / 0x1_0000 + 0x8_0000;
    assert B.Arrives(v) / 0x8000_0000 == v / 0x8000_0000 + 16;
  }

  /** The entries with the words as they were sent. */
  function AsSent(es: seq<Entry>, vals: seq<u32>): seq<Entry>
    requires |es| == |vals|
  {
    seq<Entry>(|es|, k requires 0 <= k < |es| => Entry(vals[k], es[k].status, es[k].moved))
  }

  lemma ExecSame(a: Machine, e: Entry, v: u32)
    requires e.word == B.Arrives(v)
    ensures Exec(a, e) == Exec(a, Entry(v, e.status, e.moved))
  {
    ArrivesMeans(v);
  }

  lemma {:induction false} ExecAsSent(a: Machine, es: seq<Entry>, vals: seq<u32>)
    requires CommandWords(es) == B.ArriveAll(vals)
    ensures |es| == |vals| && ExecAll(a, AsSent(es, vals)) == ExecAll(a, es)
  {
    assert |CommandWords(es)| == |es| && |B.ArriveAll(vals)| == |vals|;
    if es != [] {
      var n := |es| - 1;
      WordsInit(es, vals);
      ExecAsSent(a, es[..n], vals[..n]);
      assert AsSent(es, vals)[..n] == AsSent(es[..n], vals[..n]);
      ExecSame(ExecAll(a, es[..n]), es[n], vals[n]);
    }
  }

  lemma WordsInit(es: seq<Entry>, vals: seq<u32>)
    requires es != [] && |es| == |vals| && CommandWords(es) == B.ArriveAll(vals)
    ensures var n := |es| - 1; CommandWords(es[..n]) == B.ArriveAll(vals[..n]) && es[n].word == B.Arrives(vals[n])
  {
    var n := |es| - 1;
    assert CommandWords(es)[n] == B.ArriveAll(vals)[n];
    assert CommandWords(es[..n]) == CommandWords(es)[..n] && B.ArriveAll(vals[..n]) == B.ArriveAll(vals)[..n];
  }

  /** The clocked machine shows what the interpreter has done. */
  ghost predicate Shows(s: System, a: Machine) {
    && s.regs.configReg == a.config && s.regs.memioCnt == a.memCount && s.regs.addrA == a.addr && s.mem == a.mem
    && s.trace.issued == a.out && s.trace.pulseHigh == Triples(a.pulses)
  }

  /** Words from the serial FIFO do what the words that were sent say. */
  lemma WordsAsSent(
      cap: nat, s: System, before: seq<Inputs>, after: seq<Inputs>, mem: Memory, vals: seq<u32>)
    returns (es: seq<Entry>)
    requires IsReset(s, mem) && Served(cap, s, before, after, B.ArriveAll(vals))
    ensures CommandWords(es) == vals && Shows(Run(cap, s, before + after), ExecAll(Start(mem), es))
  {
    var ins := before + after;
    Completes(cap, s, before, after, B.ArriveAll(vals), mem);
    AtRestAgrees(cap, s, ins, mem);
    var done := Run(cap, s, ins).trace.entries;
    ExecAsSent(Start(mem), done, vals);
    es := AsSent(done, vals);
    assert CommandWords(es) == vals;
  }

  /** From `send32bit` to the effect: the words go out as bytes, over a line with any gaps and phases at a suitable bit
    period, through receiver, decoder and FIFO into the machine, at any times. When the machine has had the clocks the words
    cost, it shows what the interpreter does with exactly the words completed by all bytes but the latest, as they were
    sent. */
  lemma {:induction false} SerialEffect(
      g: T.Params, s0: U.RxState, pin: nat -> bool, fs: seq<L.Sent>, period: nat, end: nat, vals: seq<u32>, m: nat, n: nat,
      cap: nat, s: System, before: seq<Inputs>, after: seq<Inputs>, mem: Memory)
    returns (es: seq<Entry>)
    requires g.Valid() && g.divisor <= g.half && UT.Suits(g, period) && !s0.active && fs != []
    requires end >= 2 && L.Line(pin, fs, period, end - 2) && L.HighFrom(pin, end - 2, end)
    requires L.Numbers(L.Data(fs)) <= B.EncodedAll(vals) && |L.Numbers(L.Data(fs))| == 7 * m + n + 1 && n < 7
    requires IsReset(s, mem) && Served(cap, s, before, after, B.Run(L.Wires(g, s0, pin, end - 1)).fifo)
    ensures m <= |vals| && CommandWords(es) == vals[..m]
    ensures Shows(Run(cap, s, before + after), ExecAll(Start(mem), es))
  {
    L.WordsReceived(g, s0, pin, fs, period, end, vals, m, n);
    es := WordsAsSent(cap, s, before, after, mem, vals[..m]);
  }
}
