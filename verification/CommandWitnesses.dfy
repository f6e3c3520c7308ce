/** The ways in which the control interface can lose or repeat a word are reached from RESET, whatever the depth of the
  output FIFO. */
module CommandWitnesses {
  import opened Words
  import opened ControlInterface
  import opened Interpreter
  import opened CommandSystem
  import opened CommandRefinement
  import opened CommandTheorems
  import opened CommandProgress
  import opened Commands
  import opened HostMemory

  // ----- a run that leaves the output FIFO as full as wanted -----

  function Fresh(): System {
    System(Registers(INIT, false, Zeros(), 0, 0, 0, 0, false, 0, SEL_REG, false, 0, 0, 0),
           [], [], [], map[], 0, Trace([], [], [], [], 0, [], [], []))
  }

  /** A clock in which the host sends words and reads nothing. */
  function Sends(ws: seq<CmdWord>): Inputs { Inputs(ws, 0, [], false, Zeros()[..11]) }

  function Waits(n: nat): (ins: seq<Inputs>)
    ensures |ins| == n && Quiet(ins)
  {
    if n == 0 then [] else Waits(n - 1) + [Sends([])]
  }

  /** The memory count set to two, and `k` reads of a configuration register. */
  function CountAndReads(k: nat): seq<CmdWord> {
    if k == 0 then [Command(false, 16, 2)] else CountAndReads(k - 1) + [Command(true, 32, 0)]
  }

  lemma {:induction false} ReadsReturn(k: nat)
    ensures var ws := CountAndReads(k); ReturnedBy(ws, 1) == k && CountAfter(ws, 1) == 2 && NoTransfer(ws)
  {
    if k == 0 {
      CommandFields(false, 16, 2);
      OneWord(Command(false, 16, 2), 1);
    } else {
      CommandFields(true, 32, 0);
      ReadsReturn(k - 1);
      AppendWork(CountAndReads(k - 1), Command(true, 32, 0), 1);
    }
  }

  predicate NeverReads(ins: seq<Inputs>) { forall k | 0 <= k < |ins| :: !ins[k].hostRead }

  lemma {:induction false} NothingRead(cap: nat, s: System, ins: seq<Inputs>)
    requires IsReset(s, map[]) && NeverReads(ins)
    ensures Run(cap, s, ins).trace.hostGot == []
  {
    if ins != [] {
      NothingRead(cap, s, ins[..|ins|-1]);
    }
  }

  lemma {:induction false} WaitsNeverRead(n: nat)
    ensures NeverReads(Waits(n))
  {
    if n > 0 {
      WaitsNeverRead(n - 1);
    }
  }

  /** At rest with `k` words in the output FIFO and a memory count of two. */
  predicate Holding(s: System, k: nat) {
    && AtRest(s) && s.cmdQ == [] && !s.regs.rdreq && s.regs.select != SEL_FIFO
    && |s.outQ| == k && s.regs.memioCnt == 2 && s.trace.lost == 0
  }

  function FillingRun(k: nat): seq<Inputs> {
    [Sends(CountAndReads(k))] + Waits(Work(CountAndReads(k), 1) + 2)
  }

  lemma OneArrival(ws: seq<CmdWord>)
    ensures Arrivals([Sends(ws)]) == ws
  {
    assert [Sends(ws)][..0] == [] && Arrivals([]) == [] && [] + ws == ws;
  }

  lemma FilledAtRest(cap: nat, s: System, ins: seq<Inputs>, k: nat)
    requires IsReset(s, map[]) && RoomForWords(cap, s, ins) && RoomThroughout(cap, s, ins) && NeverReads(ins)
    requires var s' := Run(cap, s, ins); s'.cmdQ == [] && AtRest(s') && CommandWords(s'.trace.entries) == CountAndReads(k)
    ensures Holding(Run(cap, s, ins), k)
  {
    NothingRead(cap, s, ins);
    NothingLost(cap, s, ins, map[]);
    Refinement(cap, s, ins, map[]);
    HoldingAtRest(Run(cap, s, ins), k);
  }

  lemma HoldingAtRest(s: System, k: nat)
    requires Refines(s, map[]) && s.cmdQ == [] && AtRest(s) && CommandWords(s.trace.entries) == CountAndReads(k)
    requires s.trace.lost == 0 && s.trace.hostGot == []
    ensures Holding(s, k)
  {
    ReadsReturn(k);
    OutLength(map[], s.trace.entries);
    assert s.trace.written == [] + s.outQ == s.outQ;
  }

  lemma FillsInTime(cap: nat, s: System, before: seq<Inputs>, after: seq<Inputs>, k: nat)
    requires IsReset(s, map[])
    requires k <= cap && Arrivals(before) == CountAndReads(k) && Quiet(after) && NeverReads(before + after)
    requires |after| >= Work(CountAndReads(k), 1) + 2
    ensures RoomThroughout(cap, s, before + after) && Holding(Run(cap, s, before + after), k)
  {
    ReadsReturn(k);
    ServedWhenDeep(cap, s, before, after, CountAndReads(k), map[]);
    Completes(cap, s, before, after, CountAndReads(k), map[]);
    FilledAtRest(cap, s, before + after, k);
  }

  lemma FifoFills(cap: nat, s: System, k: nat)
    requires IsReset(s, map[]) && k <= cap
    ensures RoomThroughout(cap, s, FillingRun(k)) && Holding(Run(cap, s, FillingRun(k)), k)
  {
    var n := Work(CountAndReads(k), 1) + 2;
    OneArrival(CountAndReads(k));
    WaitsNeverRead(n);
    FillsInTime(cap, s, [Sends(CountAndReads(k))], Waits(n), k);
  }

  // ----- the failures -----

  function ReadMemory0(): CmdWord { Command(true, 20, 0) }
  function ReadRegister0(): CmdWord { Command(true, 32, 0) }

  /** A word that is about to be interpreted, with `k` words in the output FIFO. */
  predicate Poised(s: System, k: nat, w: CmdWord) {
    && s.regs.cmdState == INTERPRET_CMD && s.cmdQ == [w] && |s.outQ| == k
    && s.regs.memioCnt == 2 && !s.regs.wrreq && s.regs.select == SEL_REG && s.trace.lost == 0
  }

  lemma WordPoised(cap: nat, s: System, k: nat, w: CmdWord)
    requires Holding(s, k)
    ensures Clock(cap, s, Sends([w])).regs.cmdState == WAIT_CMD
    ensures Poised(Clock(cap, Clock(cap, s, Sends([w])), Sends([])), k, w)
  {
    var s1 := Clock(cap, s, Sends([w]));
    assert s1.regs.cmdState == WAIT_CMD && s1.regs.select == SEL_REG && !s1.regs.wrreq && !s1.regs.rdreq;
    assert s1.cmdQ == [w] && s1.outQ == s.outQ;
  }

  function PoisedRun(k: nat, w: CmdWord): seq<Inputs> { FillingRun(k) + [Sends([w])] + [Sends([])] }

  lemma RunPoised(cap: nat, s: System, k: nat, w: CmdWord)
    requires IsReset(s, map[]) && k <= cap
    ensures RoomThroughout(cap, s, PoisedRun(k, w)) && Poised(Run(cap, s, PoisedRun(k, w)), k, w)
  {
    FifoFills(cap, s, k);
    TwoMoreClocks(cap, s, FillingRun(k), k, w);
  }

  lemma TwoMoreClocks(cap: nat, s: System, ins: seq<Inputs>, k: nat, w: CmdWord)
    requires RoomThroughout(cap, s, ins) && Holding(Run(cap, s, ins), k)
    ensures var poised := ins + [Sends([w])] + [Sends([])];
            RoomThroughout(cap, s, poised) && Poised(Run(cap, s, poised), k, w)
  {
    var read, i := Sends([w]), Sends([]);
    WordPoised(cap, Run(cap, s, ins), k, w);
    RunAppend(cap, s, ins, read);
    RunAppend(cap, s, ins + [read], i);
    RoomAppend(cap, s, ins, read);
    RoomAppend(cap, s, ins + [read], i);
  }

  lemma RoomAppend(cap: nat, s: System, ins: seq<Inputs>, i: Inputs)
    requires RoomThroughout(cap, s, ins) && Run(cap, s, ins).regs.cmdState != INTERPRET_CMD
    ensures RoomThroughout(cap, s, ins + [i])
  {
    FrontOfAppend(ins, i);
  }

  /** With an output FIFO of any depth, a run from RESET breaks the exactly-once property: the FIFO fills with the words of
    register reads, and a memory read finds it full. */
  lemma MemoryReadCanFail(cap: nat)
    ensures IsReset(Fresh(), map[]) && RoomThroughout(cap, Fresh(), PoisedRun(cap, ReadMemory0()))
    ensures !CommandQueueAfter(cap, Fresh(), PoisedRun(cap, ReadMemory0()) + [Sends([])] + [Sends([])])
  {
    FullRead(cap, Fresh());
  }

  lemma FullRead(cap: nat, s: System)
    requires IsReset(s, map[])
    ensures RoomThroughout(cap, s, PoisedRun(cap, ReadMemory0()))
    ensures !CommandQueueAfter(cap, s, PoisedRun(cap, ReadMemory0()) + [Sends([])] + [Sends([])])
  {
    CommandFields(true, 20, 0);
    RunPoised(cap, s, cap, ReadMemory0());
    QueueBroken(cap, s, PoisedRun(cap, ReadMemory0()), Sends([]), Sends([]), map[]);
  }

  lemma ReadStreams(cap: nat, s: System)
    requires cap >= 1 && Poised(s, cap - 1, ReadMemory0())
    ensures Streaming(Clock(cap, s, Sends([])), cap - 1)
  {
    CommandFields(true, 20, 0);
  }

  /** The first of two words of a memory read is in flight. */
  predicate Streaming(s: System, k: nat) {
    && s.regs.cmdState == MEM_RD_CNT && s.regs.select == SEL_MEM && s.regs.wrreq && s.regs.counterV == 2
    && |s.outQ| == k && s.trace.lost == 0
  }

  /** With an output FIFO of any depth, a run from RESET without any memory read loses the word of a register read. */
  lemma RegisterReadCanLose(cap: nat)
    ensures var ins, i := PoisedRun(cap, ReadRegister0()), Sends([]);
            && IsReset(Fresh(), map[]) && RoomThroughout(cap, Fresh(), ins + [i])
            && Run(cap, Fresh(), ins).trace.lost == 0 && Run(cap, Fresh(), ins + [i] + [i]).trace.lost == 1
  {
    CommandFields(true, 32, 0);
    RunPoised(cap, Fresh(), cap, ReadRegister0());
    WordLost(cap, Fresh(), PoisedRun(cap, ReadRegister0()), ReadRegister0());
  }

  lemma WordLost(cap: nat, s: System, ins: seq<Inputs>, w: CmdWord)
    requires IsReset(s, map[]) && RoomThroughout(cap, s, ins) && Poised(Run(cap, s, ins), cap, w)
    requires IsRead(w) && Address(w) != 20
    ensures var i := Sends([]);
            RoomThroughout(cap, s, ins + [i]) && Run(cap, s, ins + [i] + [i]).trace.lost == 1
  {
    var i := Sends([]);
    RunAppend(cap, s, ins, i);
    RunAppend(cap, s, ins + [i], i);
    FrontOfAppend(ins, i);
    Refinement(cap, s, ins, map[]);
    RegisterReadLost(cap, Run(cap, s, ins), i, i, map[]);
  }

  /** With an output FIFO of any depth of at least one, a run from RESET in which every memory read finds room loses the
    second word of a memory read. */
  lemma StreamCanLose(cap: nat)
    requires cap >= 1
    ensures var ins, i := PoisedRun(cap - 1, ReadMemory0()) + [Sends([])], Sends([]);
            && IsReset(Fresh(), map[]) && RoomThroughout(cap, Fresh(), ins)
            && Run(cap, Fresh(), ins).trace.lost == 0 && Run(cap, Fresh(), ins + [i] + [i]).trace.lost == 1
  {
    RunPoised(cap, Fresh(), cap - 1, ReadMemory0());
    SecondWordLost(cap, Fresh(), PoisedRun(cap - 1, ReadMemory0()));
  }

  lemma SecondWordLost(cap: nat, s: System, ins: seq<Inputs>)
    requires cap >= 1 && RoomThroughout(cap, s, ins) && Poised(Run(cap, s, ins), cap - 1, ReadMemory0())
    ensures var i := Sends([]);
            && RoomThroughout(cap, s, ins + [i]) && Run(cap, s, ins + [i]).trace.lost == 0
            && Run(cap, s, ins + [i] + [i] + [i]).trace.lost == 1
  {
    var i := Sends([]);
    ReadStreams(cap, Run(cap, s, ins));
    RunAppend(cap, s, ins, i);
    RunAppend(cap, s, ins + [i], i);
    RunAppend(cap, s, ins + [i] + [i], i);
    FrontOfAppend(ins, i);
    LastPlaceLosesAWord(cap, Run(cap, s, ins + [i]), i, i);
  }
}
