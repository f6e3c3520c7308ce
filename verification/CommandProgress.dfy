/** The control interface gets its work done: what each command word costs, and when everything that was sent has been
  executed. */
module CommandProgress {
  import opened Words
  import opened ControlInterface
  import opened Interpreter
  import opened CommandSystem
  import opened CommandRefinement
  import opened CommandTheorems

  // ----- what a word costs -----

  /** The clocks after the one that interprets a word, stalls not counted; `mc` is the memory count register. */
  function Tail(w: CmdWord, mc: u16): nat {
    if IsRead(w) then if Address(w) == 20 then Count(mc) else 0
    else if Address(w) == 11 then 2
    else if Address(w) == 20 then 1
    else if Address(w) == 25 then Data(w) + 1
    else 0
  }

  /** One clock to pop a word, one to interpret it, and its tail. */
  function Cost(w: CmdWord, mc: u16): nat { 2 + Tail(w, mc) }

  function NextCount(w: CmdWord, mc: u16): u16 { if !IsRead(w) && Address(w) == 16 then Data(w) else mc }

  function CountAfter(ws: seq<CmdWord>, mc: u16): u16 {
    if ws == [] then mc else CountAfter(ws[1..], NextCount(ws[0], mc))
  }

  function Work(ws: seq<CmdWord>, mc: u16): nat {
    if ws == [] then 0 else Cost(ws[0], mc) + Work(ws[1..], NextCount(ws[0], mc))
  }

  lemma {:induction false} WorkConcat(a: seq<CmdWord>, b: seq<CmdWord>, mc: u16)
    ensures Work(a + b, mc) == Work(a, mc) + Work(b, CountAfter(a, mc))
    ensures CountAfter(a + b, mc) == CountAfter(b, CountAfter(a, mc))
  {
    if a == [] {
      assert a + b == b;
    } else {
      assert (a + b)[1..] == a[1..] + b;
      WorkConcat(a[1..], b, NextCount(a[0], mc));
    }
  }

  // ----- what is left to do -----

  /** The clocks that the word under way still takes. */
  function Busy(r: Registers): nat {
    match r.cmdState
    case INIT => 1
    case WAIT_CMD => 0
    case GET_CMD => 1
    case INTERPRET_CMD => 0
    case MEM_ADV => 1
    case MEM_RD_CNT => Count(r.counterV)
    case PULSE_DELAY => r.counterV
    case FIFO_ADV => r.counterFifo + 1
  }

  function CountNow(r: Registers): u16 { if r.cmdState == INIT then 1 else r.memioCnt }

  /** The memory count once the words that wait have been executed. */
  function CountThen(s: System): u16 { CountAfter(s.cmdQ, CountNow(s.regs)) }

  /** The word under way and the words that wait; while the first of them is interpreted one of its clocks is over. */
  function WorkLeft(s: System): nat {
    var w := Work(s.cmdQ, CountNow(s.regs));
    if s.regs.cmdState == INTERPRET_CMD && s.cmdQ != [] then w - 1 else Busy(s.regs) + w
  }

  /** The surroundings hold the machine up: a memory read has no room, or a transfer has no word or no room. */
  predicate Blocked(cap: nat, s: System) {
    match s.regs.cmdState
    case MEM_RD_CNT => Decrement(s.regs.counterV) != 0 && Full(cap, s)
    case FIFO_ADV => !Ready(cap, s)
    case _ => false
  }

  predicate Idle(s: System) { s.regs.cmdState == WAIT_CMD && s.cmdQ == [] }

  // ----- one clock -----

  /** The words behind the edge, before new ones arrive. */
  function QueueBehind(s: System): seq<CmdWord> { if s.regs.rdreq then Rest(s.cmdQ) else s.cmdQ }

  /** What an edge does to the word under way. */
  ghost predicate EdgeWorks(cap: nat, s: System, r': Registers) {
    var r, q := s.regs, s.cmdQ;
    match r.cmdState
    case INIT => r'.cmdState == WAIT_CMD && r'.memioCnt == 1 && !r.rdreq
    case WAIT_CMD =>
      !r.rdreq && r'.memioCnt == r.memioCnt && r'.cmdState == (if q == [] then WAIT_CMD else INTERPRET_CMD)
    case INTERPRET_CMD =>
      r.rdreq && q != [] && r'.memioCnt == NextCount(q[0], r.memioCnt) && Busy(r') == Tail(q[0], r.memioCnt)
      && r'.cmdState !in {INIT, INTERPRET_CMD}
    case _ =>
      !r.rdreq && r'.memioCnt == r.memioCnt && r'.cmdState !in {INIT, INTERPRET_CMD}
      && Busy(r') + (if Blocked(cap, s) then 0 else 1) == Busy(r)
  }

  lemma EdgeStep(cap: nat, s: System, i: Inputs, mem: Memory)
    requires Refines(s, mem) && RoomForMemoryRead(cap, s)
    ensures EdgeWorks(cap, s, Clock(cap, s, i).regs)
  {
    match s.regs.cmdState {
      case INIT =>
      case INTERPRET_CMD => InterpretWorks(cap, s, i, ExecAll(Start(mem), s.trace.entries));
      case _ => EdgeGoesOn(cap, s, i, ExecAll(Start(mem), s.trace.entries));
    }
  }

  lemma InterpretWorks(cap: nat, s: System, i: Inputs, a: Machine)
    requires s.regs.cmdState == INTERPRET_CMD && Owes(s, a) && RoomForMemoryRead(cap, s)
    ensures EdgeWorks(cap, s, Clock(cap, s, i).regs)
  {
  }

  lemma EdgeGoesOn(cap: nat, s: System, i: Inputs, a: Machine)
    requires s.regs.cmdState !in {INIT, INTERPRET_CMD} && Owes(s, a)
    ensures EdgeWorks(cap, s, Clock(cap, s, i).regs)
  {
  }

  /** Every clock that is not held up, and not idle, does one clock of the work; new words bring theirs. */
  lemma WorkStep(cap: nat, s: System, i: Inputs, mem: Memory)
    requires Refines(s, mem) && RoomForMemoryRead(cap, s)
    ensures var s' := Clock(cap, s, i);
            && WorkLeft(s') + (if Blocked(cap, s) || Idle(s) then 0 else 1) == WorkLeft(s) + Work(i.arrive, CountThen(s))
            && CountThen(s') == CountAfter(i.arrive, CountThen(s))
  {
    EdgeStep(cap, s, i, mem);
    WorkFrom(cap, s, Clock(cap, s, i).regs, i.arrive);
  }

  lemma WorkFrom(cap: nat, s: System, r': Registers, arrive: seq<CmdWord>)
    requires EdgeWorks(cap, s, r')
    ensures var q' := QueueBehind(s) + arrive;
            var w := Work(q', CountNow(r'));
            var left' := if r'.cmdState == INTERPRET_CMD && q' != [] then w - 1 else Busy(r') + w;
            && left' + (if Blocked(cap, s) || Idle(s) then 0 else 1) == WorkLeft(s) + Work(arrive, CountThen(s))
            && CountAfter(q', CountNow(r')) == CountAfter(arrive, CountThen(s))
  {
    WorkConcat(QueueBehind(s), arrive, CountNow(r'));
  }

  // ----- whole runs -----

  function Arrivals(ins: seq<Inputs>): seq<CmdWord> {
    if ins == [] then [] else Arrivals(ins[..|ins|-1]) + ins[|ins|-1].arrive
  }

  predicate Quiet(ins: seq<Inputs>) { forall k | 0 <= k < |ins| :: ins[k].arrive == [] }

  lemma {:induction false} ArrivedIsArrivals(cap: nat, s: System, ins: seq<Inputs>, mem: Memory)
    requires IsReset(s, mem)
    ensures Run(cap, s, ins).trace.arrived == Arrivals(ins)
  {
    if ins != [] {
      ArrivedIsArrivals(cap, s, ins[..|ins|-1], mem);
    }
  }

  lemma {:induction false} ArrivalsThenQuiet(before: seq<Inputs>, after: seq<Inputs>)
    requires Quiet(after)
    ensures Arrivals(before + after) == Arrivals(before)
  {
    if after == [] {
      assert before + after == before;
    } else {
      var n := |after| - 1;
      ArrivalsThenQuiet(before, after[..n]);
      assert (before + after)[..|before|+n] == before + after[..n];
    }
  }

  /** The work left is never more than the words that arrived cost, and one clock to start. */
  lemma {:induction false} WorkBound(cap: nat, s: System, ins: seq<Inputs>, mem: Memory)
    requires IsReset(s, mem) && RoomThroughout(cap, s, ins)
    ensures var s' := Run(cap, s, ins);
            WorkLeft(s') <= 1 + Work(Arrivals(ins), 1) && CountThen(s') == CountAfter(Arrivals(ins), 1)
  {
    if ins != [] {
      var init, i := ins[..|ins|-1], ins[|ins|-1];
      WorkBound(cap, s, init, mem);
      Refinement(cap, s, init, mem);
      WorkStep(cap, Run(cap, s, init), i, mem);
      WorkConcat(Arrivals(init), i.arrive, 1);
    }
  }

  /** What is left until rest: the work, and one clock in which the last word and the last pulse go out. */
  function UntilRest(s: System): nat { WorkLeft(s) + if Idle(s) && AtRest(s) then 0 else 1 }

  lemma NothingLeft(s: System, mem: Memory)
    requires Refines(s, mem) && WorkLeft(s) == 0
    ensures Idle(s)
  {
    assert s.cmdQ != [] ==> Work(s.cmdQ, CountNow(s.regs)) >= 2;
  }

  lemma RestStep(cap: nat, s: System, i: Inputs, mem: Memory)
    requires Refines(s, mem) && RoomForMemoryRead(cap, s) && i.arrive == []
    ensures UntilRest(Clock(cap, s, i)) <= UntilRest(s)
    ensures !Blocked(cap, s) && UntilRest(s) > 0 ==> UntilRest(Clock(cap, s, i)) < UntilRest(s)
  {
    WorkStep(cap, s, i, mem);
    if WorkLeft(s) == 0 {
      NothingLeft(s, mem);
      IdleStep(cap, s, i);
    }
  }

  lemma IdleStep(cap: nat, s: System, i: Inputs)
    requires Idle(s) && !s.regs.rdreq && i.arrive == []
    ensures var s' := Clock(cap, s, i); Idle(s') && AtRest(s')
  {
  }

  /** The clocks of `after`, behind those of `before`, at which the surroundings do not hold the machine up. */
  function FreeClocks(cap: nat, s: System, before: seq<Inputs>, after: seq<Inputs>): nat {
    if after == [] then 0 else
      var init := after[..|after|-1];
      FreeClocks(cap, s, before, init) + if Blocked(cap, Run(cap, s, before + init)) then 0 else 1
  }

  lemma {:induction false} Drains(cap: nat, s: System, before: seq<Inputs>, after: seq<Inputs>, mem: Memory)
    requires IsReset(s, mem) && RoomThroughout(cap, s, before + after) && Quiet(after)
    ensures var m, m' := UntilRest(Run(cap, s, before)), UntilRest(Run(cap, s, before + after));
            m' == 0 || m' + FreeClocks(cap, s, before, after) <= m
  {
    if after == [] {
      assert before + after == before;
    } else {
      var n := |after| - 1;
      var ins := before + after[..n];
      FrontAndLast(after);
      LongerRun(before, after[..n], after[n]);
      Drains(cap, s, before, after[..n], mem);
      Refinement(cap, s, ins, mem);
      RestStep(cap, Run(cap, s, ins), after[n], mem);
    }
  }

  lemma LongerRun<T>(a: seq<T>, b: seq<T>, x: T)
    ensures a + (b + [x]) == a + b + [x] && (a + (b + [x]))[..|a + b|] == a + b
  {
  }

  /** A host sends `words` in `before`, at any times, and nothing in `after`; every memory read finds room, and `after`
    has as many clocks without a stall as the words cost, one to start and one to come to rest. */
  predicate Served(cap: nat, s: System, before: seq<Inputs>, after: seq<Inputs>, words: seq<CmdWord>) {
    && Arrivals(before) == words && Quiet(after)
    && RoomThroughout(cap, s, before + after)
    && FreeClocks(cap, s, before, after) >= Work(words, 1) + 2
  }

  lemma NothingUntilRest(s: System)
    requires UntilRest(s) == 0
    ensures s.cmdQ == [] && AtRest(s)
  {
  }

  /** A machine that does as much before it rests as it has free clocks for is at rest. */
  lemma RestReached(s: System, left: nat, free: nat)
    requires UntilRest(s) == 0 || UntilRest(s) + free <= left
    requires left <= free
    ensures s.cmdQ == [] && AtRest(s)
  {
    NothingUntilRest(s);
  }

  lemma RestsInTime(cap: nat, s: System, before: seq<Inputs>, after: seq<Inputs>, words: seq<CmdWord>, mem: Memory)
    requires IsReset(s, mem) && Served(cap, s, before, after, words)
    ensures var s' := Run(cap, s, before + after); s'.cmdQ == [] && AtRest(s')
  {
    var ins := before + after;
    assert ins[..|before|] == before;
    RoomForPrefix(cap, s, ins, |before|);
    WorkBound(cap, s, before, mem);
    Drains(cap, s, before, after, mem);
    RestReached(Run(cap, s, ins), UntilRest(Run(cap, s, before)), FreeClocks(cap, s, before, after));
  }

  lemma NoneWaiting(s: System, words: seq<CmdWord>)
    requires s.trace.arrived == words == CommandWords(s.trace.entries) + s.cmdQ && s.cmdQ == []
    ensures CommandWords(s.trace.entries) == words
  {
  }

  /** Progress: then all words have been executed, and the machine is at rest. */
  lemma Completes(cap: nat, s: System, before: seq<Inputs>, after: seq<Inputs>, words: seq<CmdWord>, mem: Memory)
    requires IsReset(s, mem) && Served(cap, s, before, after, words)
    ensures var s' := Run(cap, s, before + after);
            s'.cmdQ == [] && AtRest(s') && s'.trace.arrived == words == CommandWords(s'.trace.entries)
  {
    var ins := before + after;
    RestsInTime(cap, s, before, after, words, mem);
    ArrivedIsArrivals(cap, s, ins, mem);
    ArrivalsThenQuiet(before, after);
    InterpretedOnceInOrder(cap, s, ins, mem);
    NoneWaiting(Run(cap, s, ins), words);
  }

  // ----- when the surroundings never hold the machine up -----

  /** The words a command returns, transfers left aside. */
  function Returned(w: CmdWord, mc: u16): nat {
    if !IsRead(w) then 0 else if Address(w) == 20 then Count(mc) else 1
  }

  function ReturnedBy(ws: seq<CmdWord>, mc: u16): nat {
    if ws == [] then 0 else Returned(ws[0], mc) + ReturnedBy(ws[1..], NextCount(ws[0], mc))
  }

  lemma {:induction false} ReturnedConcat(a: seq<CmdWord>, b: seq<CmdWord>, mc: u16)
    ensures ReturnedBy(a + b, mc) == ReturnedBy(a, mc) + ReturnedBy(b, CountAfter(a, mc))
  {
    if a == [] {
      assert a + b == b;
    } else {
      assert (a + b)[1..] == a[1..] + b;
      ReturnedConcat(a[1..], b, NextCount(a[0], mc));
    }
  }

  predicate NoTransfer(ws: seq<CmdWord>) { forall w | w in ws :: !IsTransfer(w) }

  lemma {:induction false} OutLength(mem: Memory, es: seq<Entry>)
    requires NoTransfer(CommandWords(es))
    ensures var a, ws := ExecAll(Start(mem), es), CommandWords(es);
            |a.out| == ReturnedBy(ws, 1) && a.memCount == CountAfter(ws, 1)
  {
    if es != [] {
      var init, e := es[..|es|-1], es[|es|-1];
      var ws := CommandWords(init);
      FrontAndLast(es);
      WordsAppend(init, e);
      assert NoTransfer(ws) && e.word in CommandWords(es);
      OutLength(mem, init);
      ReturnedConcat(ws, [e.word], 1);
      WorkConcat(ws, [e.word], 1);
      ExecOne(ExecAll(Start(mem), init), e);
    }
  }

  lemma ExecOne(a: Machine, e: Entry)
    requires !IsTransfer(e.word)
    ensures var b := Exec(a, e); |b.out| == |a.out| + Returned(e.word, a.memCount) && b.memCount == NextCount(e.word, a.memCount)
  {
  }

  /** With an output FIFO as deep as the words to come back, there is room whenever it is needed and no stall. */
  lemma DeepEnough(cap: nat, s: System, words: seq<CmdWord>, mem: Memory)
    requires Refines(s, mem) && s.trace.arrived <= words && NoTransfer(words) && ReturnedBy(words, 1) <= cap
    ensures RoomForWord(cap, s) && !Blocked(cap, s)
  {
    var es, t := s.trace.entries, s.trace;
    var ws := CommandWords(es);
    PrefixReturns(ws, s.cmdQ, words);
    OutLength(mem, es);
    NoTransferEntries(es);
    assert |s.outQ| <= |t.issued|;
  }

  lemma NoTransferEntries(es: seq<Entry>)
    requires NoTransfer(CommandWords(es))
    ensures forall k | 0 <= k < |es| :: !IsTransfer(es[k].word)
  {
    forall k | 0 <= k < |es| ensures !IsTransfer(es[k].word) {
      assert CommandWords(es)[k] == es[k].word;
    }
  }

  lemma PrefixReturns(ws: seq<CmdWord>, q: seq<CmdWord>, words: seq<CmdWord>)
    requires ws + q <= words && NoTransfer(words)
    ensures NoTransfer(ws) && ReturnedBy(ws, 1) <= ReturnedBy(words, 1)
    ensures q != [] && IsRead(q[0]) ==> ReturnedBy(ws, 1) + 1 <= ReturnedBy(words, 1)
  {
    var rest := words[|ws|..];
    assert words == ws + rest;
    forall w | w in ws ensures !IsTransfer(w) {
      assert w in words;
    }
    ReturnedConcat(ws, rest, 1);
    if q != [] {
      assert rest[0] == q[0];
    }
  }

  lemma {:induction false} ArrivalsPrefix(ins: seq<Inputs>, k: nat)
    requires k <= |ins|
    ensures Arrivals(ins[..k]) <= Arrivals(ins)
  {
    if k == |ins| {
      assert ins[..k] == ins;
    } else {
      ArrivalsPrefix(ins[..|ins|-1], k);
      assert ins[..|ins|-1][..k] == ins[..k];
    }
  }

  lemma {:induction false} RoomWhenDeep(cap: nat, s: System, ins: seq<Inputs>, words: seq<CmdWord>, mem: Memory)
    requires IsReset(s, mem) && Arrivals(ins) <= words && NoTransfer(words) && ReturnedBy(words, 1) <= cap
    ensures RoomForWords(cap, s, ins) && !Blocked(cap, Run(cap, s, ins))
  {
    if ins != [] {
      ArrivalsPrefix(ins, |ins| - 1);
      RoomWhenDeep(cap, s, ins[..|ins|-1], words, mem);
      RefinesWhenDeep(cap, s, ins[..|ins|-1], words, mem);
    }
    RoomForWordsSuffices(cap, s, ins);
    RefinesWhenDeep(cap, s, ins, words, mem);
  }

  lemma RefinesWhenDeep(cap: nat, s: System, ins: seq<Inputs>, words: seq<CmdWord>, mem: Memory)
    requires IsReset(s, mem) && Arrivals(ins) <= words && NoTransfer(words) && ReturnedBy(words, 1) <= cap
    requires RoomForWords(cap, s, ins)
    ensures RoomForWord(cap, Run(cap, s, ins)) && !Blocked(cap, Run(cap, s, ins))
  {
    RoomForWordsSuffices(cap, s, ins);
    Refinement(cap, s, ins, mem);
    ArrivedIsArrivals(cap, s, ins, mem);
    DeepEnough(cap, Run(cap, s, ins), words, mem);
  }

  lemma {:induction false} AllFree(cap: nat, s: System, before: seq<Inputs>, after: seq<Inputs>, words: seq<CmdWord>, mem: Memory)
    requires IsReset(s, mem) && Arrivals(before) == words && Quiet(after)
    requires NoTransfer(words) && ReturnedBy(words, 1) <= cap
    ensures FreeClocks(cap, s, before, after) == |after|
  {
    if after != [] {
      var init := after[..|after|-1];
      AllFree(cap, s, before, init, words, mem);
      ArrivalsThenQuiet(before, init);
      RoomWhenDeep(cap, s, before + init, words, mem);
    }
  }

  /** Words without a transfer, to a machine whose output FIFO is as deep as the words that come back, need nothing of the
    surroundings but time. Words that return nothing need no room at all. */
  lemma ServedWhenDeep(cap: nat, s: System, before: seq<Inputs>, after: seq<Inputs>, words: seq<CmdWord>, mem: Memory)
    requires IsReset(s, mem) && Arrivals(before) == words && Quiet(after)
    requires NoTransfer(words) && ReturnedBy(words, 1) <= cap && |after| >= Work(words, 1) + 2
    ensures Served(cap, s, before, after, words) && RoomForWords(cap, s, before + after)
  {
    AllFree(cap, s, before, after, words, mem);
    ArrivalsThenQuiet(before, after);
    RoomWhenDeep(cap, s, before + after, words, mem);
    RoomForWordsSuffices(cap, s, before + after);
  }

  // ----- a host that always reads -----

  predicate AlwaysReads(ins: seq<Inputs>) { forall k | 0 <= k < |ins| :: ins[k].hostRead }

  lemma {:induction false} AlmostEmpty(cap: nat, s: System, ins: seq<Inputs>, mem: Memory)
    requires IsReset(s, mem) && AlwaysReads(ins)
    ensures |Run(cap, s, ins).outQ| <= 1
  {
    if ins != [] {
      AlmostEmpty(cap, s, ins[..|ins|-1], mem);
    }
  }

  /** A host that reads at every clock leaves room for everything in an output FIFO of three places. */
  lemma {:induction false} RoomWhenRead(cap: nat, s: System, ins: seq<Inputs>, mem: Memory)
    requires IsReset(s, mem) && AlwaysReads(ins) && cap >= 3
    ensures RoomForWords(cap, s, ins)
  {
    if ins != [] {
      RoomWhenRead(cap, s, ins[..|ins|-1], mem);
      AlmostEmpty(cap, s, ins[..|ins|-1], mem);
    }
  }

  lemma FreeWhenRead(cap: nat, s: System, ins: seq<Inputs>, words: seq<CmdWord>, mem: Memory)
    requires IsReset(s, mem) && AlwaysReads(ins) && cap >= 3 && Arrivals(ins) <= words && NoTransfer(words)
    ensures !Blocked(cap, Run(cap, s, ins))
  {
    AlmostEmpty(cap, s, ins, mem);
    RoomWhenRead(cap, s, ins, mem);
    RoomForWordsSuffices(cap, s, ins);
    Refinement(cap, s, ins, mem);
    ArrivedIsArrivals(cap, s, ins, mem);
    NoTransferNow(Run(cap, s, ins), words, mem);
  }

  lemma NoTransferNow(s: System, words: seq<CmdWord>, mem: Memory)
    requires Refines(s, mem) && s.trace.arrived <= words && NoTransfer(words)
    ensures s.regs.cmdState != FIFO_ADV
  {
    PrefixReturns(CommandWords(s.trace.entries), s.cmdQ, words);
    NoTransferEntries(s.trace.entries);
  }

  lemma ReadsBefore(before: seq<Inputs>, after: seq<Inputs>)
    requires after != [] && AlwaysReads(before + after)
    ensures AlwaysReads(before + after[..|after|-1])
  {
    var n := |after| - 1;
    assert forall k | 0 <= k < |before| + n :: (before + after[..n])[k] == (before + after)[k];
  }

  lemma {:induction false} AllFreeWhenRead(
      cap: nat, s: System, before: seq<Inputs>, after: seq<Inputs>, words: seq<CmdWord>, mem: Memory)
    requires IsReset(s, mem) && AlwaysReads(before + after) && cap >= 3
    requires Arrivals(before) == words && Quiet(after) && NoTransfer(words)
    ensures FreeClocks(cap, s, before, after) == |after|
  {
    if after != [] {
      var n := |after| - 1;
      ReadsBefore(before, after);
      AllFreeWhenRead(cap, s, before, after[..n], words, mem);
      ArrivalsThenQuiet(before, after[..n]);
      FreeWhenRead(cap, s, before + after[..n], words, mem);
    }
  }

  /** To such a host words without a transfer need nothing but time. */
  lemma ServedWhenRead(cap: nat, s: System, before: seq<Inputs>, after: seq<Inputs>, words: seq<CmdWord>, mem: Memory)
    requires IsReset(s, mem) && AlwaysReads(before + after) && cap >= 3
    requires Arrivals(before) == words && Quiet(after) && NoTransfer(words) && |after| >= Work(words, 1) + 2
    ensures Served(cap, s, before, after, words) && RoomForWords(cap, s, before + after)
  {
    AllFreeWhenRead(cap, s, before, after, words, mem);
    RoomWhenRead(cap, s, before + after, mem);
    RoomForWordsSuffices(cap, s, before + after);
  }
}
