/** What stands in the registers and the memory at the clocks of a pulse. */
module CommandPulse {
  import opened Words
  import opened ControlInterface
  import opened Interpreter
  import opened CommandSystem
  import opened CommandRefinement
  import opened CommandTheorems
  import opened CommandProgress

  predicate IsPulse(w: CmdWord, mask: u16) { !IsRead(w) && Address(w) == 11 && Data(w) == mask }

  predicate LastIsPulse(es: seq<Entry>, mask: u16) { es != [] && IsPulse(es[|es|-1].word, mask) }

  /** PULSE_REG is high only for the pulse word that was interpreted last. */
  predicate PulseOfLast(s: System) {
    && (s.regs.pulseReg != 0 || s.regs.cmdState == PULSE_DELAY ==> LastIsPulse(s.trace.entries, s.regs.pulseReg))
    && (s.regs.pulseReg != 0 ==> s.regs.cmdState in {WAIT_CMD, PULSE_DELAY})
  }

  lemma PulseOfLastStep(cap: nat, s: System, i: Inputs, mem: Memory)
    requires Refines(s, mem) && PulseOfLast(s)
    ensures PulseOfLast(Clock(cap, s, i))
  {
    match s.regs.cmdState {
      case INIT =>
      case INTERPRET_CMD => PulseInterpreted(cap, s, i, ExecAll(Start(mem), s.trace.entries));
      case _ => PulseGoesOn(cap, s, i, ExecAll(Start(mem), s.trace.entries));
    }
  }

  lemma PulseInterpreted(cap: nat, s: System, i: Inputs, a: Machine)
    requires s.regs.cmdState == INTERPRET_CMD && Owes(s, a)
    ensures PulseOfLast(Clock(cap, s, i))
  {
    FrontOfAppend(s.trace.entries, Entry(s.cmdQ[0], i.status, []));
  }

  lemma PulseGoesOn(cap: nat, s: System, i: Inputs, a: Machine)
    requires s.regs.cmdState !in {INIT, INTERPRET_CMD} && Owes(s, a) && PulseOfLast(s)
    ensures PulseOfLast(Clock(cap, s, i))
  {
  }

  lemma {:induction false} PulseOfLastRun(cap: nat, s: System, ins: seq<Inputs>, mem: Memory)
    requires IsReset(s, mem) && RoomThroughout(cap, s, ins)
    ensures PulseOfLast(Run(cap, s, ins))
  {
    if ins != [] {
      PulseOfLastRun(cap, s, ins[..|ins|-1], mem);
      Refinement(cap, s, ins[..|ins|-1], mem);
      PulseOfLastStep(cap, Run(cap, s, ins[..|ins|-1]), ins[|ins|-1], mem);
    }
  }

  /** At every clock of a run at which PULSE_REG is not zero, the last word interpreted is the one that gave the pulse, and
    registers, address and memory are what the interpreter makes of the words up to it: everything sent before the pulse
    is in place, and nothing sent after it. */
  lemma PulseShows(cap: nat, s: System, ins: seq<Inputs>, mem: Memory)
    requires IsReset(s, mem) && RoomThroughout(cap, s, ins) && Run(cap, s, ins).regs.pulseReg != 0
    ensures var s' := Run(cap, s, ins); var a := ExecAll(Start(mem), s'.trace.entries);
            && LastIsPulse(s'.trace.entries, s'.regs.pulseReg)
            && s'.regs.configReg == a.config && s'.regs.memioCnt == a.memCount && s'.regs.addrA == a.addr && s'.mem == a.mem
  {
    PulseOfLastRun(cap, s, ins, mem);
    Refinement(cap, s, ins, mem);
    SettledAtPulse(Run(cap, s, ins), mem);
  }

  lemma SettledAtPulse(s: System, mem: Memory)
    requires Refines(s, mem) && s.regs.cmdState in {WAIT_CMD, PULSE_DELAY}
    ensures var a := ExecAll(Start(mem), s.trace.entries);
            s.regs.configReg == a.config && s.regs.memioCnt == a.memCount && s.regs.addrA == a.addr && s.mem == a.mem
  {
  }

  // ----- words in which one pulse comes last -----

  predicate NoPulse(ws: seq<CmdWord>) { forall w | w in ws :: IsRead(w) || Address(w) != 11 }

  /** A machine `j` clocks after it interpreted a pulse word that was the last of `words`. */
  ghost predicate AfterPulse(s: System, words: seq<CmdWord>, mask: u16, j: nat) {
    && CommandWords(s.trace.entries) == words && s.cmdQ == [] && !s.regs.rdreq && s.regs.select != SEL_FIFO
    && s.regs.pulseReg == (if j < 3 then mask else 0)
    && if j < 2 then s.regs.cmdState == PULSE_DELAY && s.regs.counterV == 2 - j else s.regs.cmdState == WAIT_CMD
  }

  lemma AfterPulseStep(cap: nat, s: System, i: Inputs, words: seq<CmdWord>, mask: u16, j: nat)
    requires AfterPulse(s, words, mask, j) && i.arrive == []
    ensures AfterPulse(Clock(cap, s, i), words, mask, j + 1)
  {
  }

  /** The clock that interprets the last word. */
  lemma PulseStarts(cap: nat, s: System, i: Inputs, init: seq<CmdWord>, w: CmdWord, mask: u16, mem: Memory)
    requires Refines(s, mem) && s.regs.cmdState == INTERPRET_CMD && IsPulse(w, mask) && i.arrive == []
    requires CommandWords(s.trace.entries) == init && s.cmdQ == [w]
    ensures AfterPulse(Clock(cap, s, i), init + [w], mask, 0)
  {
    WordsAppend(s.trace.entries, Entry(w, i.status, []));
  }

  /** Where a sequence of numbers first reaches `len`. */
  lemma {:induction false} FirstReach(f: seq<nat>, len: nat) returns (p: nat)
    requires f != [] && f[0] < len <= f[|f|-1]
    ensures 1 <= p < |f| && f[p] >= len && forall k | 0 <= k < p :: f[k] < len
  {
    var n := |f| - 1;
    if k :| 0 <= k < n && f[k] >= len {
      p := FirstReach(f[..k+1], len);
    } else {
      p := n;
    }
  }

  function Interpreted(cap: nat, s: System, ins: seq<Inputs>): nat { |Run(cap, s, ins).trace.entries| }

  /** The first clock after which `len` words have been interpreted. */
  lemma {:induction false} FirstWith(cap: nat, s: System, ins: seq<Inputs>, done: nat, len: nat) returns (p: nat)
    requires done <= |ins| && Interpreted(cap, s, ins[..0]) < len <= Interpreted(cap, s, ins[..done])
    ensures 1 <= p <= done && Interpreted(cap, s, ins[..p]) >= len
    ensures forall k | 0 <= k < p :: Interpreted(cap, s, ins[..k]) < len
  {
    var f := seq<nat>(done + 1, k requires 0 <= k <= done => Interpreted(cap, s, ins[..k]));
    p := FirstReach(f, len);
    forall k | 0 <= k < p ensures Interpreted(cap, s, ins[..k]) < len {
      assert f[k] == Interpreted(cap, s, ins[..k]);
    }
  }

  lemma EntriesStep(cap: nat, s: System, i: Inputs)
    ensures var n, n' := |s.trace.entries|, |Clock(cap, s, i).trace.entries|;
            n' == if s.regs.cmdState == INTERPRET_CMD then n + 1 else n
  {
  }

  /** Before the last word there is no pulse. */
  lemma NoPulseBefore(cap: nat, s: System, ins: seq<Inputs>, init: seq<CmdWord>, w: CmdWord, mem: Memory)
    requires IsReset(s, mem) && RoomThroughout(cap, s, ins) && NoPulse(init)
    requires Arrivals(ins) <= init + [w] && Interpreted(cap, s, ins) <= |init|
    ensures Run(cap, s, ins).regs.pulseReg == 0
  {
    PulseOfLastRun(cap, s, ins, mem);
    InterpretedOnceInOrder(cap, s, ins, mem);
    ArrivedIsArrivals(cap, s, ins, mem);
    LowWithout(Run(cap, s, ins), init, w);
  }

  lemma LowWithout(s: System, init: seq<CmdWord>, w: CmdWord)
    requires PulseOfLast(s) && NoPulse(init) && |s.trace.entries| <= |init|
    requires CommandWords(s.trace.entries) + s.cmdQ <= init + [w]
    ensures s.regs.pulseReg == 0
  {
    if s.regs.pulseReg != 0 {
      WordIsSent(s.trace.entries, s.cmdQ, init, w);
    }
  }

  lemma WordIsSent(es: seq<Entry>, q: seq<CmdWord>, init: seq<CmdWord>, w: CmdWord)
    requires CommandWords(es) + q <= init + [w] && 1 <= |es| <= |init|
    ensures es[|es|-1].word in init
  {
    var n := |es| - 1;
    assert CommandWords(es)[n] == (init + [w])[n] == init[n];
  }

  lemma WordAround<T>(init: seq<T>, w: T, rest: seq<T>, n: nat)
    requires n < |init| + 1 + |rest|
    ensures var x := (init + [w] + rest)[n]; n == |init| || x in init || x in rest
  {
    if n > |init| {
      assert (init + [w] + rest)[n] == rest[n - |init| - 1];
    }
  }

  /** When the words hold one pulse only, a pulse comes when the words up to it have been interpreted. */
  lemma OnlyPulse(s: System, init: seq<CmdWord>, w: CmdWord, rest: seq<CmdWord>)
    requires PulseOfLast(s) && NoPulse(init) && NoPulse(rest) && s.regs.pulseReg != 0
    requires CommandWords(s.trace.entries) + s.cmdQ <= init + [w] + rest
    ensures CommandWords(s.trace.entries) == init + [w]
  {
    var es, all := s.trace.entries, init + [w] + rest;
    var n := |es| - 1;
    assert CommandWords(es)[n] == es[n].word == all[n];
    WordAround(init, w, rest, n);
    assert CommandWords(es) == all[..|init|+1];
  }

  /** At a pulse all words have been interpreted. */
  lemma AllAtPulse(s: System, init: seq<CmdWord>, w: CmdWord)
    requires PulseOfLast(s) && NoPulse(init) && s.regs.pulseReg != 0
    requires CommandWords(s.trace.entries) + s.cmdQ <= init + [w]
    ensures CommandWords(s.trace.entries) == init + [w]
  {
    if |s.trace.entries| <= |init| {
      LowWithout(s, init, w);
    } else {
      assert |CommandWords(s.trace.entries)| == |s.trace.entries|;
    }
  }

  /** Where the pulse is in a run: it starts behind clock `p`, lasts for three clocks, and from it on all words have been
    executed. */
  ghost predicate PulseAt(cap: nat, s: System, ins: seq<Inputs>, p: nat, words: seq<CmdWord>, mask: u16) {
    forall k | 0 <= k <= |ins| :: PulsePlace(Run(cap, s, ins[..k]), k, p, words, mask)
  }

  ghost predicate PulsePlace(s: System, k: nat, p: nat, words: seq<CmdWord>, mask: u16) {
    if k < p then s.regs.pulseReg == 0 else AfterPulse(s, words, mask, k - p)
  }

  lemma QuietBehind(before: seq<Inputs>, i: Inputs, words: seq<CmdWord>)
    requires Arrivals(before + [i]) <= words && Arrivals(before) == words
    ensures i.arrive == [] && Arrivals(before + [i]) == words
  {
    FrontOfAppend(before, i);
  }

  lemma AfterPulseAppend(
      cap: nat, s: System, ins: seq<Inputs>, i: Inputs, words: seq<CmdWord>, mask: u16, j: nat)
    requires Arrivals(ins) == words && Arrivals(ins + [i]) <= words && AfterPulse(Run(cap, s, ins), words, mask, j)
    ensures Arrivals(ins + [i]) == words && AfterPulse(Run(cap, s, ins + [i]), words, mask, j + 1)
  {
    QuietBehind(ins, i, words);
    RunAppend(cap, s, ins, i);
    AfterPulseStep(cap, Run(cap, s, ins), i, words, mask, j);
  }

  lemma {:induction false} AfterPulseRun(
      cap: nat, s: System, a: seq<Inputs>, b: seq<Inputs>, words: seq<CmdWord>, mask: u16)
    requires Arrivals(a) == words && Arrivals(a + b) <= words && AfterPulse(Run(cap, s, a), words, mask, 0)
    ensures Arrivals(a + b) == words && AfterPulse(Run(cap, s, a + b), words, mask, |b|)
  {
    if b == [] {
      assert a + b == a;
    } else {
      var init, i := b[..|b|-1], b[|b|-1];
      FrontAndLast(b);
      LongerRun(a, init, i);
      ArrivalsPrefix(a + b, |a + init|);
      AfterPulseRun(cap, s, a, init, words, mask);
      AfterPulseAppend(cap, s, a + init, i, words, mask, |init|);
    }
  }

  lemma HighBehind(cap: nat, s: System, ins: seq<Inputs>, p: nat, k: nat, words: seq<CmdWord>, mask: u16)
    requires Arrivals(ins) == words && p <= k <= |ins|
    requires Arrivals(ins[..p]) == words && AfterPulse(Run(cap, s, ins[..p]), words, mask, 0)
    ensures AfterPulse(Run(cap, s, ins[..k]), words, mask, k - p)
  {
    Split(ins, p, k);
    ArrivalsPrefix(ins, k);
    AfterPulseRun(cap, s, ins[..p], ins[p..k], words, mask);
  }

  lemma Split<T>(q: seq<T>, p: nat, k: nat)
    requires p <= k <= |q|
    ensures q[..k] == q[..p] + q[p..k]
  {
  }

  lemma TakeOneMore<T>(q: seq<T>, k: nat)
    requires 1 <= k <= |q|
    ensures q[..k] == q[..k-1] + [q[k-1]]
  {
  }

  /** The clock `p` at which the last word of a run is interpreted. */
  lemma LastInterpreted(
      cap: nat, s: System, ins: seq<Inputs>, p: nat, init: seq<CmdWord>, w: CmdWord, mask: u16, mem: Memory)
    requires IsReset(s, mem) && RoomThroughout(cap, s, ins) && 1 <= p <= |ins| && IsPulse(w, mask)
    requires Arrivals(ins) == init + [w]
    requires Interpreted(cap, s, ins[..p]) > |init| >= Interpreted(cap, s, ins[..p-1])
    ensures Arrivals(ins[..p]) == init + [w] && AfterPulse(Run(cap, s, ins[..p]), init + [w], mask, 0)
  {
    var before, i := ins[..p-1], ins[p-1];
    var s0 := Run(cap, s, before);
    RoomForPrefix(cap, s, ins, p - 1);
    ArrivalsPrefix(ins, p - 1);
    ArrivalsPrefix(ins, p);
    TakeOneMore(ins, p);
    RunAppend(cap, s, before, i);
    EntriesStep(cap, s0, i);
    Refinement(cap, s, before, mem);
    ArrivedIsArrivals(cap, s, before, mem);
    AllButLast(s0, init, w, mem);
    QuietBehind(before, i, init + [w]);
    FrontOfAppend(before, i);
    PulseStarts(cap, s0, i, init, w, mask, mem);
  }

  lemma AllButLast(s: System, init: seq<CmdWord>, w: CmdWord, mem: Memory)
    requires Refines(s, mem) && s.trace.arrived <= init + [w]
    requires s.regs.cmdState == INTERPRET_CMD && |s.trace.entries| == |init|
    ensures CommandWords(s.trace.entries) == init && s.cmdQ == [w] && s.trace.arrived == init + [w]
  {
    var ws, all := CommandWords(s.trace.entries), init + [w];
    assert s.trace.arrived == ws + s.cmdQ && |ws| == |init|;
    assert ws == all[..|init|] == init;
    assert s.cmdQ[0] == all[|init|];
  }

  lemma PlaceOf(
      cap: nat, s: System, ins: seq<Inputs>, p: nat, k: nat, init: seq<CmdWord>, w: CmdWord, mask: u16, mem: Memory)
    requires IsReset(s, mem) && RoomThroughout(cap, s, ins) && NoPulse(init) && k <= |ins| && 1 <= p <= |ins|
    requires Arrivals(ins) == init + [w] && (k < p ==> Interpreted(cap, s, ins[..k]) <= |init|)
    requires Arrivals(ins[..p]) == init + [w] && AfterPulse(Run(cap, s, ins[..p]), init + [w], mask, 0)
    ensures PulsePlace(Run(cap, s, ins[..k]), k, p, init + [w], mask)
  {
    if k < p {
      RoomForPrefix(cap, s, ins, k);
      ArrivalsPrefix(ins, k);
      NoPulseBefore(cap, s, ins[..k], init, w, mem);
    } else {
      HighBehind(cap, s, ins, p, k, init + [w], mask);
    }
  }

  /** Words that end in their only pulse, all executed in a run: the pulse is at one place of the run. */
  lemma LastPulse(
      cap: nat, s: System, ins: seq<Inputs>, init: seq<CmdWord>, w: CmdWord, mask: u16, mem: Memory, done: nat)
    returns (p: nat)
    requires IsReset(s, mem) && RoomThroughout(cap, s, ins) && NoPulse(init) && IsPulse(w, mask)
    requires Arrivals(ins) == init + [w] && done <= |ins| && Interpreted(cap, s, ins[..done]) > |init|
    ensures 1 <= p <= done && PulseAt(cap, s, ins, p, init + [w], mask)
  {
    assert ins[..0] == [];
    p := FirstWith(cap, s, ins, done, |init| + 1);
    assert Interpreted(cap, s, ins[..p-1]) <= |init|;
    LastInterpreted(cap, s, ins, p, init, w, mask, mem);
    forall k | 0 <= k <= |ins| ensures PulsePlace(Run(cap, s, ins[..k]), k, p, init + [w], mask) {
      PlaceOf(cap, s, ins, p, k, init, w, mask, mem);
    }
  }
}
