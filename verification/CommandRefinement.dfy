/** The clocked machine refines the word-at-a-time interpreter. */
module CommandRefinement {
  import opened Words
  import opened ControlInterface
  import opened Interpreter
  import opened CommandSystem

  // ----- the invariant -----

  function Repeat(v: u16, n: nat): seq<u16> {
    if v == 0 then [] else seq(n, _ => v)
  }

  /** Every nonzero pulse, three clocks each. */
  function Triples(ps: seq<u16>): seq<u16> {
    if ps == [] then [] else Triples(ps[..|ps|-1]) + Repeat(ps[|ps|-1], 3)
  }

  /** The words presented to the output FIFO, and the one that the next edge will present. */
  function Requested(s: System): seq<u32> {
    if s.regs.wrreq then s.trace.issued + [FifoD(s.regs, s.memDout, s.dataQ)] else s.trace.issued
  }

  ghost predicate AllDone(es: seq<Entry>) {
    forall e | e in es :: Done(e)
  }

  // The queues lose and duplicate nothing.

  ghost predicate CommandQueue(t: Trace, cmdQ: seq<CmdWord>) {
    t.arrived == CommandWords(t.entries) + cmdQ
  }

  ghost predicate DataQueue(t: Trace, dataQ: seq<u32>) {
    t.dataArrived == MovedWords(t.entries) + dataQ
  }

  ghost predicate OutputQueue(t: Trace, outQ: seq<u32>) {
    && t.written == t.hostGot + outQ
    && |t.issued| == |t.written| + t.lost
    && (t.lost == 0 ==> t.written == t.issued)
  }

  ghost predicate Queues(s: System) {
    CommandQueue(s.trace, s.cmdQ) && DataQueue(s.trace, s.dataQ) && OutputQueue(s.trace, s.outQ)
  }

  /** The registers that only the interpretation of a word changes. */
  ghost predicate SameRegisters(r: Registers, a: Machine) {
    r.configReg == a.config && r.memioCnt == a.memCount && r.dinReg == a.dataLow
  }

  /** Memory and address as the interpreter has them, and no word owed but the one in flight. */
  ghost predicate Settled(s: System, a: Machine) {
    s.regs.addrA == a.addr && s.mem == a.mem && !s.regs.wea && Requested(s) == a.out
  }

  ghost predicate PulseOwed(s: System, a: Machine, clocks: nat) {
    s.trace.pulseHigh + Repeat(s.regs.pulseReg, clocks) == Triples(a.pulses)
  }

  /** What each state of the machine still owes to the interpretation of the words executed so far. */
  ghost predicate Owes(s: System, a: Machine) {
    var r, t := s.regs, s.trace;
    match r.cmdState
    case INIT => false
    case GET_CMD => false
    case WAIT_CMD =>
      Settled(s, a) && AllDone(t.entries) && PulseOwed(s, a, 1)
      && !r.rdreq && r.select != SEL_FIFO && (r.wrreq ==> r.select == SEL_REG)
    case INTERPRET_CMD =>
      Settled(s, a) && AllDone(t.entries) && PulseOwed(s, a, 0) && r.pulseReg == 0
      && r.rdreq && s.cmdQ != [] && r.select == SEL_REG && !r.wrreq
    case MEM_ADV =>
      a.addr == NextAddr(r.addrA) && r.wea && a.mem == s.mem[r.addrA := Join16(r.dinHigh, r.dinReg)]
      && t.issued == a.out && AllDone(t.entries) && PulseOwed(s, a, 0) && r.pulseReg == 0
      && !r.rdreq && r.select == SEL_REG && !r.wrreq
    case MEM_RD_CNT =>
      var left := Decrement(r.counterV);
      a.addr == Advance(r.addrA, left) && s.mem == a.mem && !r.wea
      && Requested(s) + ReadRange(s.mem, r.addrA, left) == a.out
      && AllDone(t.entries) && PulseOwed(s, a, 0) && r.pulseReg == 0
      && !r.rdreq && r.select == SEL_MEM
    case PULSE_DELAY =>
      Settled(s, a) && AllDone(t.entries) && 1 <= r.counterV <= 2 && PulseOwed(s, a, r.counterV + 1)
      && !r.rdreq && r.select == SEL_REG && !r.wrreq
    case FIFO_ADV =>
      Settled(s, a) && PulseOwed(s, a, 0) && r.pulseReg == 0
      && !r.rdreq && r.select == SEL_FIFO && !r.wrreq
      && t.entries != [] && AllDone(t.entries[..|t.entries|-1])
      && var e := t.entries[|t.entries|-1];
         IsTransfer(e.word) && |e.moved| + r.counterFifo == Data(e.word)
  }

  ghost predicate Refines(s: System, mem: Memory) {
    Queues(s) &&
    if s.regs.cmdState == INIT then
      var r, t := s.regs, s.trace;
      && r == AfterReset(r) && !r.wrreq && s.mem == mem
      && t.entries == [] && t.issued == [] && t.pulseHigh == []
    else
      var a := ExecAll(Start(mem), s.trace.entries);
      SameRegisters(s.regs, a) && Owes(s, a)
  }

  /** The one demand on the surroundings: a memory read is interpreted only while the output FIFO has room. */
  predicate RoomForMemoryRead(cap: nat, s: System) {
    (s.regs.cmdState == INTERPRET_CMD && s.cmdQ != [] && IsRead(s.cmdQ[0]) && Address(s.cmdQ[0]) == 20) ==>
      !Full(cap, s)
  }

  // ----- one step -----

  lemma ExecAllAppend(a: Machine, es: seq<Entry>, e: Entry)
    ensures ExecAll(a, es + [e]) == Exec(ExecAll(a, es), e)
  {
    assert (es + [e])[..|es|] == es;
  }

  lemma WordsAppend(es: seq<Entry>, e: Entry)
    ensures CommandWords(es + [e]) == CommandWords(es) + [e.word]
    ensures MovedWords(es + [e]) == MovedWords(es) + e.moved
  {
    assert (es + [e])[..|es|] == es;
  }

  /** A moved word is credited to the transfer that is running. */
  lemma WordsCredit(es: seq<Entry>, w: u32)
    requires es != []
    ensures CommandWords(Credit(es, w)) == CommandWords(es)
    ensures MovedWords(Credit(es, w)) == MovedWords(es) + [w]
  {
    var init, e := es[..|es|-1], es[|es|-1];
    WordsAppend(init, e.(moved := e.moved + [w]));
  }

  /** A machine that pops a command exactly when it interprets it, and data only for a running transfer. */
  ghost predicate Disciplined(s: System) {
    && (s.regs.rdreq <==> s.regs.cmdState == INTERPRET_CMD)
    && (s.regs.rdreq ==> s.cmdQ != [])
    && (s.regs.select == SEL_FIFO ==> s.regs.cmdState == FIFO_ADV && s.trace.entries != [])
  }

  lemma NextEntriesWords(cap: nat, s: System, i: Inputs)
    requires Disciplined(s)
    ensures CommandWords(NextEntries(cap, s, i)) == CommandWords(s.trace.entries) + if s.regs.rdreq then First(s.cmdQ) else []
    ensures MovedWords(NextEntries(cap, s, i)) == MovedWords(s.trace.entries) + if Moves(cap, s) then First(s.dataQ) else []
  {
    var es := s.trace.entries;
    if s.regs.rdreq {
      WordsAppend(es, Entry(s.cmdQ[0], i.status, []));
    } else if Moves(cap, s) {
      WordsCredit(es, s.dataQ[0]);
    }
  }

  lemma CommandQueueStep(cap: nat, s: System, i: Inputs)
    requires CommandQueue(s.trace, s.cmdQ) && Disciplined(s)
    ensures CommandQueue(NextTrace(cap, s, i), NextCmdQ(s, i))
  {
    NextEntriesWords(cap, s, i);
    QueueConserves(s.trace.arrived, CommandWords(s.trace.entries), s.cmdQ, s.regs.rdreq, i.arrive);
  }

  lemma DataQueueStep(cap: nat, s: System, i: Inputs)
    requires DataQueue(s.trace, s.dataQ) && Disciplined(s)
    ensures DataQueue(NextTrace(cap, s, i), NextDataQ(cap, s, i))
  {
    NextEntriesWords(cap, s, i);
    QueueConserves(s.trace.dataArrived, MovedWords(s.trace.entries), s.dataQ, ReadData(s.regs, Full(cap, s)), i.dataArrive);
  }

  lemma OutputQueueStep(cap: nat, s: System, i: Inputs)
    requires OutputQueue(s.trace, s.outQ)
    ensures OutputQueue(NextTrace(cap, s, i), NextOutQ(cap, s, i))
  {
    var d := if Accepts(cap, s) then [FifoD(s.regs, s.memDout, s.dataQ)] else [];
    QueueConserves(s.trace.written, s.trace.hostGot, s.outQ, i.hostRead, d);
    assert Accepts(cap, s) <==> Issues(cap, s) && !Full(cap, s);
  }

  lemma AdvanceNext(a: u32, n: nat)
    requires n > 0
    ensures Advance(NextAddr(a), n - 1) == Advance(a, n)
  {
  }

  /** The states in which no word is interpreted and no data word moves: what is owed to the interpreter shrinks. */
  lemma StepOwes(cap: nat, s: System, i: Inputs, a: Machine)
    requires s.regs.cmdState in {WAIT_CMD, MEM_ADV, PULSE_DELAY}
    requires SameRegisters(s.regs, a) && Owes(s, a)
    ensures var s' := Clock(cap, s, i);
            SameRegisters(s'.regs, a) && Owes(s', a) && s'.trace.entries == s.trace.entries
  {
  }

  /** A memory read in progress issues the word in flight and requests the next one unless the FIFO is full. */
  lemma StepMemRead(cap: nat, s: System, i: Inputs, a: Machine)
    requires s.regs.cmdState == MEM_RD_CNT
    requires SameRegisters(s.regs, a) && Owes(s, a)
    ensures var s' := Clock(cap, s, i);
            SameRegisters(s'.regs, a) && Owes(s', a) && s'.trace.entries == s.trace.entries
  {
    var r, s' := s.regs, Clock(cap, s, i);
    var left := Decrement(r.counterV);
    assert s'.trace.issued == Requested(s);
    assert s'.trace.entries == s.trace.entries;
    if left > 0 {
      AdvanceNext(r.addrA, left);
      var head, tail := ReadMem(s.mem, r.addrA), ReadRange(s.mem, NextAddr(r.addrA), left - 1);
      assert Requested(s) + ReadRange(s.mem, r.addrA, left) == Requested(s) + [head] + tail;
    }
  }

  lemma StepTransferStalled(cap: nat, s: System, i: Inputs, a: Machine)
    requires s.regs.cmdState == FIFO_ADV && !Moves(cap, s)
    requires SameRegisters(s.regs, a) && Owes(s, a)
    ensures var s' := Clock(cap, s, i);
            SameRegisters(s'.regs, a) && Owes(s', a) && s'.trace.entries == s.trace.entries
  {
  }

  lemma StepTransferMoves(cap: nat, s: System, i: Inputs, init: Machine, es: seq<Entry>, e: Entry)
    requires s.regs.cmdState == FIFO_ADV && Moves(cap, s)
    requires s.trace.entries == es + [e]
    requires SameRegisters(s.regs, Exec(init, e)) && Owes(s, Exec(init, e))
    ensures var s', e' := Clock(cap, s, i), e.(moved := e.moved + [s.dataQ[0]]);
            && SameRegisters(s'.regs, Exec(init, e')) && Owes(s', Exec(init, e'))
            && s'.trace.entries == es + [e']
  {
    var w := s.dataQ[0];
    var s', e' := Clock(cap, s, i), e.(moved := e.moved + [w]);
    FrontOfAppend(es, e);
    FrontOfAppend(es, e');
    ExecCredited(init, e, w);
    assert s'.trace.entries == es + [e'] && s'.mem == s.mem && s'.regs.addrA == s.regs.addrA;
    assert Requested(s') == Requested(s) + [w] && s'.trace.pulseHigh == s.trace.pulseHigh;
  }

  /** A transfer with one more word moved returns one more word. */
  lemma ExecCredited(a: Machine, e: Entry, w: u32)
    requires IsTransfer(e.word)
    ensures var b := Exec(a, e); Exec(a, e.(moved := e.moved + [w])) == b.(out := b.out + [w])
  {
    assert a.out + (e.moved + [w]) == a.out + e.moved + [w];
  }

  lemma StepWriteRegister(cap: nat, s: System, i: Inputs, a: Machine)
    requires s.regs.cmdState == INTERPRET_CMD && SameRegisters(s.regs, a) && Owes(s, a)
    requires !IsRead(s.cmdQ[0]) && Address(s.cmdQ[0]) !in {11, 20, 25}
    ensures var s', e := Clock(cap, s, i), Entry(s.cmdQ[0], i.status, []);
            && SameRegisters(s'.regs, Exec(a, e)) && Owes(s', Exec(a, e))
            && s'.trace.entries == s.trace.entries + [e]
  {
    var s', b := Clock(cap, s, i), Exec(a, Entry(s.cmdQ[0], i.status, []));
    SameAfterWrite(cap, s, i, a);
    assert s'.regs.cmdState == WAIT_CMD && s'.regs.select == SEL_REG && !s'.regs.wrreq && s'.regs.pulseReg == 0;
    assert s'.mem == s.mem == b.mem && s'.regs.addrA == b.addr;
    assert Requested(s') == Requested(s) == b.out;
    assert s'.trace.pulseHigh == s.trace.pulseHigh && b.pulses == a.pulses;
  }

  lemma SameAfterWrite(cap: nat, s: System, i: Inputs, a: Machine)
    requires s.regs.cmdState == INTERPRET_CMD && SameRegisters(s.regs, a)
    requires s.cmdQ != [] && !IsRead(s.cmdQ[0]) && Address(s.cmdQ[0]) !in {11, 20, 25}
    ensures SameRegisters(Clock(cap, s, i).regs, Exec(a, Entry(s.cmdQ[0], i.status, [])))
  {
  }

  lemma StepWriteAction(cap: nat, s: System, i: Inputs, a: Machine)
    requires s.regs.cmdState == INTERPRET_CMD && SameRegisters(s.regs, a) && Owes(s, a)
    requires !IsRead(s.cmdQ[0]) && Address(s.cmdQ[0]) in {11, 20, 25}
    ensures var s', e := Clock(cap, s, i), Entry(s.cmdQ[0], i.status, []);
            && SameRegisters(s'.regs, Exec(a, e)) && Owes(s', Exec(a, e))
            && s'.trace.entries == s.trace.entries + [e]
  {
  }

  lemma StepReadRegister(cap: nat, s: System, i: Inputs, a: Machine)
    requires s.regs.cmdState == INTERPRET_CMD && SameRegisters(s.regs, a) && Owes(s, a)
    requires IsRead(s.cmdQ[0]) && Address(s.cmdQ[0]) != 20
    ensures var s', e := Clock(cap, s, i), Entry(s.cmdQ[0], i.status, []);
            && SameRegisters(s'.regs, Exec(a, e)) && Owes(s', Exec(a, e))
            && s'.trace.entries == s.trace.entries + [e]
  {
  }

  lemma StepReadMemory(cap: nat, s: System, i: Inputs, a: Machine)
    requires s.regs.cmdState == INTERPRET_CMD && SameRegisters(s.regs, a) && Owes(s, a)
    requires IsRead(s.cmdQ[0]) && Address(s.cmdQ[0]) == 20 && !Full(cap, s)
    ensures var s', e := Clock(cap, s, i), Entry(s.cmdQ[0], i.status, []);
            && SameRegisters(s'.regs, Exec(a, e)) && Owes(s', Exec(a, e))
            && s'.trace.entries == s.trace.entries + [e]
  {
    var n, head := Count(a.memCount), ReadMem(a.mem, a.addr);
    AdvanceNext(a.addr, n);
    var tail := ReadRange(a.mem, NextAddr(a.addr), n - 1);
    assert a.out + ReadRange(a.mem, a.addr, n) == a.out + [head] + tail;
    var s', b := Clock(cap, s, i), Exec(a, Entry(s.cmdQ[0], i.status, []));
    assert b == a.(out := a.out + [head] + tail, addr := Advance(a.addr, n));
    assert s'.regs.cmdState == MEM_RD_CNT && s'.regs.addrA == NextAddr(a.addr) && Decrement(s'.regs.counterV) == n - 1;
    assert s'.mem == a.mem && s'.trace.pulseHigh == s.trace.pulseHigh && Requested(s') == a.out + [head];
  }

  // ----- every run -----

  lemma StepInit(cap: nat, s: System, i: Inputs, mem: Memory)
    requires Refines(s, mem) && s.regs.cmdState == INIT
    ensures Refines(Clock(cap, s, i), mem)
  {
    CommandQueueStep(cap, s, i);
    DataQueueStep(cap, s, i);
    OutputQueueStep(cap, s, i);
    assert Triples([]) == [];
  }

  lemma RefinementStep(cap: nat, s: System, i: Inputs, mem: Memory)
    requires Refines(s, mem) && RoomForMemoryRead(cap, s)
    ensures Refines(Clock(cap, s, i), mem)
  {
    if s.regs.cmdState == INIT {
      StepInit(cap, s, i, mem);
    } else {
      var es, s' := s.trace.entries, Clock(cap, s, i);
      var a := ExecAll(Start(mem), es);
      OwesDisciplined(s, a);
      CommandQueueStep(cap, s, i);
      DataQueueStep(cap, s, i);
      OutputQueueStep(cap, s, i);
      StepMachine(cap, s, i, mem);
    }
  }

  lemma OwesDisciplined(s: System, a: Machine)
    requires Owes(s, a)
    ensures Disciplined(s)
  {
  }

  lemma StepMachine(cap: nat, s: System, i: Inputs, mem: Memory)
    requires var a := ExecAll(Start(mem), s.trace.entries); SameRegisters(s.regs, a) && Owes(s, a)
    requires RoomForMemoryRead(cap, s)
    ensures var s' := Clock(cap, s, i);
            var a' := ExecAll(Start(mem), s'.trace.entries);
            SameRegisters(s'.regs, a') && Owes(s', a')
  {
    var es := s.trace.entries;
    var a := ExecAll(Start(mem), es);
    match s.regs.cmdState {
      case WAIT_CMD => StepOwes(cap, s, i, a);
      case MEM_ADV => StepOwes(cap, s, i, a);
      case PULSE_DELAY => StepOwes(cap, s, i, a);
      case MEM_RD_CNT => StepMemRead(cap, s, i, a);
      case FIFO_ADV =>
        if Moves(cap, s) {
          var init, e := es[..|es|-1], es[|es|-1];
          assert es == init + [e];
          ExecAllAppend(Start(mem), init, e);
          ExecAllAppend(Start(mem), init, e.(moved := e.moved + [s.dataQ[0]]));
          StepTransferMoves(cap, s, i, ExecAll(Start(mem), init), init, e);
        } else {
          StepTransferStalled(cap, s, i, a);
        }
      case INTERPRET_CMD =>
        ExecAllAppend(Start(mem), es, Entry(s.cmdQ[0], i.status, []));
        if !IsRead(s.cmdQ[0]) {
          if Address(s.cmdQ[0]) in {11, 20, 25} {
            StepWriteAction(cap, s, i, a);
          } else {
            StepWriteRegister(cap, s, i, a);
          }
        } else if Address(s.cmdQ[0]) == 20 {
          StepReadMemory(cap, s, i, a);
        } else {
          StepReadRegister(cap, s, i, a);
        }
    }
  }

  /** Every clock of the run that interprets a memory read finds room in the output FIFO. */
  predicate RoomThroughout(cap: nat, s: System, ins: seq<Inputs>) {
    ins == [] || (RoomThroughout(cap, s, ins[..|ins|-1]) && RoomForMemoryRead(cap, Run(cap, s, ins[..|ins|-1])))
  }

  lemma ResetRefines(s: System, mem: Memory)
    requires IsReset(s, mem)
    ensures Refines(s, mem)
  {
  }

  /** The refinement: for every queue of commands, every timing of their arrival, every back-pressure. */
  lemma {:induction false} Refinement(cap: nat, s: System, ins: seq<Inputs>, mem: Memory)
    requires IsReset(s, mem) && RoomThroughout(cap, s, ins)
    ensures Refines(Run(cap, s, ins), mem)
  {
    if ins == [] {
      ResetRefines(s, mem);
    } else {
      Refinement(cap, s, ins[..|ins|-1], mem);
      RefinementStep(cap, Run(cap, s, ins[..|ins|-1]), ins[|ins|-1], mem);
    }
  }
}
