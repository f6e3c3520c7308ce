/** What the refinement gives a host that talks to the control interface. */
module CommandTheorems {
  import opened Words
  import opened ControlInterface
  import opened Interpreter
  import opened CommandSystem
  import opened CommandRefinement

  // ----- safety over whole runs -----

  /** Every word that arrived has been interpreted, exactly once and in order, or still waits; every word of the data
    FIFO likewise; and what the host has read is what the output FIFO took, in order. */
  lemma InterpretedOnceInOrder(cap: nat, s: System, ins: seq<Inputs>, mem: Memory)
    requires IsReset(s, mem) && RoomThroughout(cap, s, ins)
    ensures var s' := Run(cap, s, ins); var t := s'.trace;
            && t.arrived == CommandWords(t.entries) + s'.cmdQ
            && t.dataArrived == MovedWords(t.entries) + s'.dataQ
            && t.hostGot + s'.outQ == t.written
  {
    Refinement(cap, s, ins, mem);
  }

  /** At every clock the words sent to the output FIFO are a prefix of what the interpreter says the executed words
    return; those that the FIFO ignored are counted in `lost`. */
  lemma OutputIsPrefix(cap: nat, s: System, ins: seq<Inputs>, mem: Memory)
    requires IsReset(s, mem) && RoomThroughout(cap, s, ins)
    ensures var t := Run(cap, s, ins).trace;
            && t.issued <= ExecAll(Start(mem), t.entries).out
            && |t.issued| == |t.written| + t.lost
            && (t.lost == 0 ==> t.written == t.issued)
  {
    Refinement(cap, s, ins, mem);
    RequestedIsPrefix(Run(cap, s, ins), mem);
  }

  lemma RequestedIsPrefix(s: System, mem: Memory)
    requires Refines(s, mem)
    ensures s.trace.issued <= ExecAll(Start(mem), s.trace.entries).out
  {
    assert s.trace.issued <= Requested(s);
    if s.regs.cmdState == MEM_RD_CNT {
      assert Requested(s) <= ExecAll(Start(mem), s.trace.entries).out;
    }
  }

  /** The machine waits for a command and has nothing in flight. */
  predicate AtRest(s: System) {
    s.regs.cmdState == WAIT_CMD && !s.regs.wrreq && s.regs.pulseReg == 0
  }

  /** At rest the clocked machine agrees with the interpreter on everything: configuration registers, memory count,
    address and contents, the words sent, the pulses given (each nonzero mask high for three clocks), and every
    transfer has moved one word more than the number written. */
  lemma AtRestAgrees(cap: nat, s: System, ins: seq<Inputs>, mem: Memory)
    requires IsReset(s, mem) && RoomThroughout(cap, s, ins)
    requires AtRest(Run(cap, s, ins))
    ensures var s' := Run(cap, s, ins); var a := ExecAll(Start(mem), s'.trace.entries);
            && s'.regs.configReg == a.config && s'.regs.memioCnt == a.memCount
            && s'.regs.addrA == a.addr && s'.mem == a.mem
            && s'.trace.issued == a.out
            && s'.trace.pulseHigh == Triples(a.pulses)
            && forall e | e in s'.trace.entries :: Done(e)
  {
    Refinement(cap, s, ins, mem);
    var s' := Run(cap, s, ins);
    assert s'.trace.pulseHigh + [] == s'.trace.pulseHigh;
  }

  lemma OnePulse(mask: u16)
    requires mask != 0
    ensures Triples([mask]) == [mask, mask, mask]
  {
    assert [mask][..0] == [] && Triples([]) == [];
    assert Repeat(mask, 3) == [mask, mask, mask];
  }

  // ----- when no word is lost -----

  /** Room a host can see to: one place when a read is interpreted, two while a memory read streams. */
  predicate RoomForWord(cap: nat, s: System) {
    match s.regs.cmdState
    case INTERPRET_CMD => s.cmdQ != [] && IsRead(s.cmdQ[0]) ==> |s.outQ| + 1 <= cap
    case MEM_RD_CNT => s.regs.wrreq && Decrement(s.regs.counterV) != 0 ==> |s.outQ| + 2 <= cap
    case _ => true
  }

  predicate RoomForWords(cap: nat, s: System, ins: seq<Inputs>) {
    ins == [] || (RoomForWords(cap, s, ins[..|ins|-1]) && RoomForWord(cap, Run(cap, s, ins[..|ins|-1])))
  }

  lemma {:induction false} RoomForWordsSuffices(cap: nat, s: System, ins: seq<Inputs>)
    requires RoomForWords(cap, s, ins)
    ensures RoomThroughout(cap, s, ins)
  {
    if ins != [] {
      RoomForWordsSuffices(cap, s, ins[..|ins|-1]);
    }
  }

  /** With that room no word is ever ignored by the output FIFO. */
  lemma {:induction false} NothingLost(cap: nat, s: System, ins: seq<Inputs>, mem: Memory)
    requires IsReset(s, mem) && RoomForWords(cap, s, ins)
    ensures var s' := Run(cap, s, ins);
            s'.trace.lost == 0 && (s'.regs.wrreq ==> !Full(cap, s'))
  {
    if ins != [] {
      var init := ins[..|ins|-1];
      NothingLost(cap, s, init, mem);
      RoomForWordsSuffices(cap, s, init);
      Refinement(cap, s, init, mem);
      RequestHasRoom(cap, Run(cap, s, init), ins[|ins|-1], mem);
    }
  }

  lemma RequestHasRoom(cap: nat, s: System, i: Inputs, mem: Memory)
    requires Refines(s, mem) && RoomForWord(cap, s) && (s.regs.wrreq ==> !Full(cap, s))
    ensures var s' := Clock(cap, s, i);
            s'.trace.lost == s.trace.lost && (s'.regs.wrreq ==> !Full(cap, s'))
  {
  }

  /** What the output FIFO still holds behind this edge of what it held before it. */
  function Left(s: System, i: Inputs): nat {
    |s.outQ| - if i.hostRead && s.outQ != [] then 1 else 0
  }

  /** Room, exactly, for the word that this clock requests, if it requests one: a register read never looks at the full
    flag, and a memory read looks at one that does not show the word in flight. */
  predicate RoomForRequest(cap: nat, s: System, i: Inputs) {
    match s.regs.cmdState
    case INTERPRET_CMD => s.cmdQ != [] && IsRead(s.cmdQ[0]) && Address(s.cmdQ[0]) != 20 ==> Left(s, i) < cap
    case MEM_RD_CNT => s.regs.wrreq && Decrement(s.regs.counterV) != 0 && !Full(cap, s) ==> Left(s, i) + 1 < cap
    case _ => true
  }

  predicate RequestsFit(cap: nat, s: System, ins: seq<Inputs>) {
    ins == [] ||
    (RequestsFit(cap, s, ins[..|ins|-1]) && RoomForRequest(cap, Run(cap, s, ins[..|ins|-1]), ins[|ins|-1]))
  }

  predicate AboutToLose(cap: nat, s: System) { s.regs.wrreq && Full(cap, s) }

  function LostNext(cap: nat, s: System): nat { if AboutToLose(cap, s) then 1 else 0 }

  lemma LostStep(cap: nat, s: System, i: Inputs, mem: Memory)
    requires Refines(s, mem)
    ensures Clock(cap, s, i).trace.lost == s.trace.lost + LostNext(cap, s)
  {
  }

  lemma RequestStep(cap: nat, s: System, i: Inputs, mem: Memory)
    requires Refines(s, mem) && RoomForMemoryRead(cap, s) && !AboutToLose(cap, s)
    ensures AboutToLose(cap, Clock(cap, s, i)) <==> !RoomForRequest(cap, s, i)
  {
    match s.regs.cmdState {
      case INIT =>
      case INTERPRET_CMD => InterpretRequests(cap, s, i, ExecAll(Start(mem), s.trace.entries));
      case _ => OthersRequest(cap, s, i, ExecAll(Start(mem), s.trace.entries));
    }
  }

  lemma InterpretRequests(cap: nat, s: System, i: Inputs, a: Machine)
    requires s.regs.cmdState == INTERPRET_CMD && Owes(s, a) && RoomForMemoryRead(cap, s)
    ensures AboutToLose(cap, Clock(cap, s, i)) <==> !RoomForRequest(cap, s, i)
  {
  }

  lemma OthersRequest(cap: nat, s: System, i: Inputs, a: Machine)
    requires s.regs.cmdState !in {INIT, INTERPRET_CMD} && Owes(s, a) && !AboutToLose(cap, s)
    ensures AboutToLose(cap, Clock(cap, s, i)) <==> !RoomForRequest(cap, s, i)
  {
  }

  /** Exactly when nothing is lost, over whole runs: one clock after the run no word has been ignored if and only if each
    clock of the run had room for the word it requested. */
  lemma {:induction false} NothingLostExactly(cap: nat, s: System, ins: seq<Inputs>, j: Inputs, mem: Memory)
    requires IsReset(s, mem) && RoomThroughout(cap, s, ins)
    ensures Run(cap, s, ins + [j]).trace.lost == 0 <==> RequestsFit(cap, s, ins)
  {
    LostAppend(cap, s, ins, j, mem);
    if ins != [] {
      var init, i := ins[..|ins|-1], ins[|ins|-1];
      FrontAndLast(ins);
      NothingLostExactly(cap, s, init, i, mem);
      LostAppend(cap, s, init, i, mem);
      if !AboutToLose(cap, Run(cap, s, init)) {
        RequestAppend(cap, s, init, i, mem);
      }
    }
  }

  lemma LostAppend(cap: nat, s: System, ins: seq<Inputs>, j: Inputs, mem: Memory)
    requires IsReset(s, mem) && RoomThroughout(cap, s, ins)
    ensures Run(cap, s, ins + [j]).trace.lost == Run(cap, s, ins).trace.lost + LostNext(cap, Run(cap, s, ins))
  {
    RunAppend(cap, s, ins, j);
    Refinement(cap, s, ins, mem);
    LostStep(cap, Run(cap, s, ins), j, mem);
  }

  lemma RequestAppend(cap: nat, s: System, ins: seq<Inputs>, i: Inputs, mem: Memory)
    requires IsReset(s, mem) && RoomThroughout(cap, s, ins + [i]) && !AboutToLose(cap, Run(cap, s, ins))
    ensures AboutToLose(cap, Run(cap, s, ins + [i])) <==> !RoomForRequest(cap, Run(cap, s, ins), i)
  {
    RunAppend(cap, s, ins, i);
    FrontOfAppend(ins, i);
    Refinement(cap, s, ins, mem);
    RequestStep(cap, Run(cap, s, ins), i, mem);
  }

  /** The word of a register read is lost exactly when the output FIFO is still full behind the edge that interprets it:
    the read never looks at the full flag. */
  lemma RegisterReadLost(cap: nat, s: System, i: Inputs, j: Inputs, mem: Memory)
    requires Refines(s, mem) && s.regs.cmdState == INTERPRET_CMD
    requires IsRead(s.cmdQ[0]) && Address(s.cmdQ[0]) != 20
    ensures Clock(cap, Clock(cap, s, i), j).trace.lost == s.trace.lost + if Left(s, i) >= cap then 1 else 0
  {
    LostStep(cap, s, i, mem);
    RequestStep(cap, s, i, mem);
    RefinementStep(cap, s, i, mem);
    LostStep(cap, Clock(cap, s, i), j, mem);
  }

  /** Two places are needed: with one, the word requested next is lost, exactly when the host does not read at the
    same edge. The full flag that the machine looks at does not yet show the word in flight. */
  lemma LastPlaceLosesAWord(cap: nat, s: System, i: Inputs, j: Inputs)
    requires s.regs.cmdState == MEM_RD_CNT && s.regs.select == SEL_MEM && s.regs.wrreq
    requires Decrement(s.regs.counterV) != 0 && !Full(cap, s)
    ensures Clock(cap, Clock(cap, s, i), j).trace.lost ==
              s.trace.lost + if |s.outQ| + 1 == cap && !(i.hostRead && s.outQ != []) then 1 else 0
  {
    var s1 := Clock(cap, s, i);
    assert s1.regs.wrreq && s1.regs.select == SEL_MEM && s1.trace.lost == s.trace.lost;
  }

  /** A memory read interpreted while the output FIFO is full loses its own word and interprets the next one without
    popping it: the exactly-once property survives the next two clocks exactly when there was room. */
  lemma MemoryReadNeedsRoom(cap: nat, s: System, i: Inputs, j: Inputs, mem: Memory)
    requires Refines(s, mem) && s.regs.cmdState == INTERPRET_CMD
    requires IsRead(s.cmdQ[0]) && Address(s.cmdQ[0]) == 20
    ensures var s2 := Clock(cap, Clock(cap, s, i), j);
            CommandQueue(s2.trace, s2.cmdQ) <==> !Full(cap, s)
  {
    var s1 := Clock(cap, s, i);
    if Full(cap, s) {
      var s2 := Clock(cap, s1, j);
      assert s1.regs.cmdState == INTERPRET_CMD && !s1.regs.rdreq && s1.cmdQ == s.cmdQ[1..] + i.arrive;
      WordsAppend(s.trace.entries, Entry(s.cmdQ[0], i.status, []));
      WordsAppend(s1.trace.entries, Entry(PinsOf(cap, s1, j).cmdQ, j.status, []));
      assert |s2.trace.arrived| == |s.trace.entries| + |s.cmdQ| + |i.arrive| + |j.arrive|;
      assert |CommandWords(s2.trace.entries) + s2.cmdQ| == |s2.trace.arrived| + 1;
    } else {
      RefinementStep(cap, s, i, mem);
      RefinementStep(cap, s1, j, mem);
    }
  }

  lemma PrefixOfFront<T>(q: seq<T>, m: nat)
    requires m < |q|
    ensures q[..|q|-1][..m] == q[..m]
  {
  }

  lemma {:induction false} FirstWithoutRoom(cap: nat, s: System, ins: seq<Inputs>) returns (m: nat)
    requires !RoomThroughout(cap, s, ins)
    ensures m < |ins| && RoomThroughout(cap, s, ins[..m]) && !RoomForMemoryRead(cap, Run(cap, s, ins[..m]))
  {
    var init := ins[..|ins|-1];
    if RoomThroughout(cap, s, init) {
      m := |init|;
    } else {
      m := FirstWithoutRoom(cap, s, init);
      PrefixOfFront(ins, m);
    }
  }

  lemma {:induction false} RoomForPrefix(cap: nat, s: System, ins: seq<Inputs>, k: nat)
    requires RoomThroughout(cap, s, ins) && k <= |ins|
    ensures RoomThroughout(cap, s, ins[..k])
  {
    if k < |ins| {
      RoomForPrefix(cap, s, ins[..|ins|-1], k);
      PrefixOfFront(ins, k);
    } else {
      assert ins[..k] == ins;
    }
  }

  /** Over whole runs: the words that arrived are the words interpreted and the words waiting, at every clock up to one
    after the run, exactly when every memory read of the run found room. */
  lemma ExactlyOnceNeedsRoom(cap: nat, s: System, ins: seq<Inputs>, i: Inputs, mem: Memory)
    requires IsReset(s, mem)
    ensures RoomThroughout(cap, s, ins) <==>
              forall k | 0 <= k <= |ins| + 1 :: CommandQueueAfter(cap, s, (ins + [i])[..k])
  {
    var all := ins + [i];
    if RoomThroughout(cap, s, ins) {
      forall k | 0 <= k <= |ins| + 1 ensures CommandQueueAfter(cap, s, all[..k]) {
        PrefixOfAppend(ins, i, k);
        if k <= |ins| {
          QueueAfterPrefix(cap, s, ins, k, mem);
        } else {
          QueueAfterOneMore(cap, s, ins, i, mem);
        }
      }
    } else {
      var m := FirstWithoutRoom(cap, s, ins);
      TwoMore(ins, i, m);
      QueueBroken(cap, s, ins[..m], all[m], all[m+1], mem);
    }
  }

  lemma PrefixOfAppend<T>(q: seq<T>, x: T, k: nat)
    requires k <= |q| + 1
    ensures (q + [x])[..k] == if k <= |q| then q[..k] else q + [x]
  {
  }

  lemma TwoMore<T>(q: seq<T>, x: T, m: nat)
    requires m < |q|
    ensures var r := q + [x]; r[..m+2] == q[..m] + [r[m]] + [r[m+1]]
  {
  }

  lemma QueueAfterPrefix(cap: nat, s: System, ins: seq<Inputs>, k: nat, mem: Memory)
    requires IsReset(s, mem) && RoomThroughout(cap, s, ins) && k <= |ins|
    ensures CommandQueueAfter(cap, s, ins[..k])
  {
    RoomForPrefix(cap, s, ins, k);
    Refinement(cap, s, ins[..k], mem);
  }

  lemma QueueAfterOneMore(cap: nat, s: System, ins: seq<Inputs>, i: Inputs, mem: Memory)
    requires IsReset(s, mem) && RoomThroughout(cap, s, ins)
    ensures CommandQueueAfter(cap, s, ins + [i])
  {
    RunAppend(cap, s, ins, i);
    Refinement(cap, s, ins, mem);
    RefinesDisciplined(Run(cap, s, ins), mem);
    CommandQueueStep(cap, Run(cap, s, ins), i);
  }

  /** Two clocks after a memory read that found no room, a word has been interpreted without being popped. */
  lemma QueueBroken(cap: nat, s: System, ins: seq<Inputs>, i: Inputs, j: Inputs, mem: Memory)
    requires IsReset(s, mem) && RoomThroughout(cap, s, ins) && !RoomForMemoryRead(cap, Run(cap, s, ins))
    ensures !CommandQueueAfter(cap, s, ins + [i] + [j])
  {
    RunAppend(cap, s, ins, i);
    RunAppend(cap, s, ins + [i], j);
    Refinement(cap, s, ins, mem);
    MemoryReadNeedsRoom(cap, Run(cap, s, ins), i, j, mem);
  }

  ghost predicate CommandQueueAfter(cap: nat, s: System, ins: seq<Inputs>) {
    var s' := Run(cap, s, ins);
    CommandQueue(s'.trace, s'.cmdQ)
  }

  lemma RefinesDisciplined(s: System, mem: Memory)
    requires Refines(s, mem)
    ensures Disciplined(s)
  {
    if s.regs.cmdState != INIT {
      OwesDisciplined(s, ExecAll(Start(mem), s.trace.entries));
    }
  }

  // ----- one pulse, one transfer -----

  /** A pulse word raises its mask for exactly the three clocks after the edge that interprets it. */
  lemma PulseIsThreeClocks(cap: nat, s: System, i0: Inputs, i1: Inputs, i2: Inputs, i3: Inputs)
    requires s.regs.cmdState == INTERPRET_CMD && s.cmdQ != []
    requires !IsRead(s.cmdQ[0]) && Address(s.cmdQ[0]) == 11
    ensures var s1 := Clock(cap, s, i0); var s2 := Clock(cap, s1, i1); var s3 := Clock(cap, s2, i2);
            && s1.regs.pulseReg == s2.regs.pulseReg == s3.regs.pulseReg == Data(s.cmdQ[0])
            && Clock(cap, s3, i3).regs.pulseReg == 0
  {
    var s1 := Clock(cap, s, i0);
    assert s1.regs.cmdState == PULSE_DELAY && s1.regs.counterV == 2 && s1.regs.pulseReg == Data(s.cmdQ[0]);
    var s2 := Clock(cap, s1, i1);
    assert s2.regs.cmdState == PULSE_DELAY && s2.regs.counterV == 1 && s2.regs.pulseReg == Data(s.cmdQ[0]);
    var s3 := Clock(cap, s2, i2);
    assert s3.regs.cmdState == WAIT_CMD && s3.regs.pulseReg == Data(s.cmdQ[0]);
  }

  /** The source has a word and the output FIFO has room. */
  predicate Ready(cap: nat, s: System) { s.dataQ != [] && !Full(cap, s) }

  /** The clocks of the run at which both sides were ready. */
  function ReadyClocks(cap: nat, s: System, ins: seq<Inputs>): nat {
    if ins == [] then 0 else
      var init := ins[..|ins|-1];
      ReadyClocks(cap, s, init) + if Ready(cap, Run(cap, s, init)) then 1 else 0
  }

  predicate Transferring(s: System) {
    s.regs.cmdState == FIFO_ADV && s.regs.select == SEL_FIFO && !s.regs.wrreq
  }

  /** One clock of a transfer: a word moves from the head of the source to the output exactly when both are ready, and
    the transfer ends when the counter is used up. */
  ghost predicate TransferEffect(cap: nat, s: System, i: Inputs, s': System) {
    if !Ready(cap, s) then
      && Transferring(s') && s'.regs.counterFifo == s.regs.counterFifo
      && s'.trace.issued == s.trace.issued && s'.dataQ == s.dataQ + i.dataArrive
    else
      && s'.trace.issued == s.trace.issued + [s.dataQ[0]] && s'.dataQ == s.dataQ[1..] + i.dataArrive
      && if s.regs.counterFifo == 0 then s'.regs.cmdState == WAIT_CMD
         else Transferring(s') && s'.regs.counterFifo == s.regs.counterFifo - 1
  }

  lemma TransferClock(cap: nat, s: System, i: Inputs)
    requires Transferring(s)
    ensures TransferEffect(cap, s, i, Clock(cap, s, i))
  {
  }

  /** Exactly the first `k` words of the source have been moved, in order. */
  ghost predicate HasMoved(s: System, s': System, source: seq<u32>, k: nat) {
    k <= |source| && s'.trace.issued == s.trace.issued + source[..k] && s'.dataQ == source[k..]
  }

  lemma MoveOn(cap: nat, s: System, s1: System, i: Inputs, s': System, source: seq<u32>, k: nat)
    requires HasMoved(s, s1, source, k) && TransferEffect(cap, s1, i, s')
    ensures HasMoved(s, s', source + i.dataArrive, if Ready(cap, s1) then k + 1 else k)
  {
    var more := source + i.dataArrive;
    if Ready(cap, s1) {
      assert more[..k+1] == source[..k] + [source[k]];
      assert more[k+1..] == source[k..][1..] + i.dataArrive;
    } else {
      assert more[..k] == source[..k] && more[k..] == source[k..] + i.dataArrive;
    }
  }

  /** The words of the source: those waiting at the start and those that arrive. */
  function Source(q: seq<u32>, ins: seq<Inputs>): seq<u32> {
    if ins == [] then q else Source(q, ins[..|ins|-1]) + ins[|ins|-1].dataArrive
  }

  /** A transfer after `k` ready clocks: exactly the first `k` words of the source have moved, in order; up to the
    number written it goes on and its counter shows `k`; with the next one it is over. */
  ghost predicate TransferState(s: System, s': System, source: seq<u32>, k: nat) {
    && HasMoved(s, s', source, k)
    && if k <= s.regs.counterFifo then Transferring(s') && s'.regs.counterFifo == s.regs.counterFifo - k
       else s'.regs.cmdState == WAIT_CMD
  }

  lemma TransferStep(cap: nat, s: System, s1: System, i: Inputs, source: seq<u32>, k: nat)
    requires TransferState(s, s1, source, k) && k <= s.regs.counterFifo
    ensures TransferState(s, Clock(cap, s1, i), source + i.dataArrive, if Ready(cap, s1) then k + 1 else k)
  {
    TransferClock(cap, s1, i);
    MoveOn(cap, s, s1, i, Clock(cap, s1, i), source, k);
  }

  lemma TransferStart(s: System)
    requires Transferring(s)
    ensures TransferState(s, s, s.dataQ, 0)
  {
    assert s.trace.issued + [] == s.trace.issued;
  }

  /** A transfer under every pattern of stalls, up to and including the clock that ends it: when `n` was written, that
    is the ready clock `n + 1`. */
  lemma {:induction false} TransferProgress(cap: nat, s: System, ins: seq<Inputs>)
    requires Transferring(s)
    requires ins != [] ==> ReadyClocks(cap, s, ins[..|ins|-1]) <= s.regs.counterFifo
    ensures TransferState(s, Run(cap, s, ins), Source(s.dataQ, ins), ReadyClocks(cap, s, ins))
  {
    if ins == [] {
      TransferStart(s);
    } else {
      var init := ins[..|ins|-1];
      FewerBefore(cap, s, init);
      TransferProgress(cap, s, init);
      TransferNext(cap, s, Run(cap, s, init), ins[|ins|-1], Source(s.dataQ, init), ReadyClocks(cap, s, init),
                   Run(cap, s, ins), Source(s.dataQ, ins), ReadyClocks(cap, s, ins));
    }
  }

  lemma FewerBefore(cap: nat, s: System, ins: seq<Inputs>)
    ensures ins != [] ==> ReadyClocks(cap, s, ins[..|ins|-1]) <= ReadyClocks(cap, s, ins)
  {
  }

  lemma TransferNext(cap: nat, s: System, s1: System, i: Inputs, source: seq<u32>, k: nat, s2: System, more: seq<u32>, k2: nat)
    requires TransferState(s, s1, source, k) && k <= s.regs.counterFifo
    requires s2 == Clock(cap, s1, i) && more == source + i.dataArrive && k2 == if Ready(cap, s1) then k + 1 else k
    ensures TransferState(s, s2, more, k2)
  {
    TransferStep(cap, s, s1, i, source, k);
  }
}
