/** The control interface between its FIFOs and its memory, one system clock at a time.

  The command and data FIFOs are first-word-fall-through queues that ignore a read when empty; the output FIFO has a
  capacity and ignores a write when full. The memory registers its output: one clock after an address is presented,
  `memDout` is what that cell held. `trace` records what happened and influences nothing.
 */
module CommandSystem {
  import opened Words
  import opened ControlInterface
  import opened Interpreter

  /** What the surroundings do around one rising edge. `idleQ` is the FIFO output while the command FIFO is empty. */
  datatype Inputs = Inputs(
    arrive: seq<CmdWord>, idleQ: CmdWord, dataArrive: seq<u32>, hostRead: bool, status: StatusRegs)

  /** `issued`: words the interface presented to the output FIFO; `lost` counts those ignored because it was full.
    `pulseHigh`: the nonzero values of PULSE_REG, one for each clock. */
  datatype Trace = Trace(
    arrived: seq<CmdWord>, entries: seq<Entry>,
    issued: seq<u32>, written: seq<u32>, lost: nat, hostGot: seq<u32>,
    dataArrived: seq<u32>, pulseHigh: seq<u16>)

  datatype System = System(
    regs: Registers, cmdQ: seq<CmdWord>, outQ: seq<u32>, dataQ: seq<u32>,
    mem: Memory, memDout: u32, trace: Trace)

  function First<T>(q: seq<T>): seq<T> { if q == [] then q else q[..1] }
  function Rest<T>(q: seq<T>): seq<T> { if q == [] then q else q[1..] }

  /** A queue conserves its contents: what went in is what came out and what is still in it. */
  lemma QueueConserves<T>(sent: seq<T>, got: seq<T>, q: seq<T>, pop: bool, push: seq<T>)
    requires sent == got + q
    ensures sent + push == (if pop then got + First(q) else got) + ((if pop then Rest(q) else q) + push)
  {
    if pop && q != [] {
      assert q == q[..1] + q[1..];
    }
  }

  /** `sFifoD`. */
  function FifoD(r: Registers, memDout: u32, dataQ: seq<u32>): u32 {
    match r.select
    case SEL_MEM => memDout
    case SEL_FIFO => if dataQ == [] then 0 else dataQ[0]
    case SEL_REG => r.regOut
  }

  predicate Full(cap: nat, s: System) { |s.outQ| >= cap }

  function PinsOf(cap: nat, s: System, i: Inputs): Pins {
    Pins(if s.cmdQ == [] then i.idleQ else s.cmdQ[0], s.cmdQ == [], Full(cap, s), i.status, s.dataQ == [])
  }

  /** A data-FIFO word is taken at this edge. */
  predicate Moves(cap: nat, s: System) { ReadData(s.regs, Full(cap, s)) && s.dataQ != [] }

  /** A word is presented to the output FIFO. While the FIFO is the source, a word that is not taken stays presented and
    counts when it is taken. */
  predicate Issues(cap: nat, s: System) {
    if s.regs.select == SEL_FIFO then Moves(cap, s) else s.regs.wrreq
  }

  function Credit(es: seq<Entry>, w: u32): seq<Entry> {
    if es == [] then es else es[..|es|-1] + [es[|es|-1].(moved := es[|es|-1].moved + [w])]
  }

  /** The output FIFO takes a word. */
  predicate Accepts(cap: nat, s: System) { WriteEnable(s.regs, s.dataQ == []) && !Full(cap, s) }

  function NextEntries(cap: nat, s: System, i: Inputs): seq<Entry> {
    if s.regs.cmdState == INTERPRET_CMD then s.trace.entries + [Entry(PinsOf(cap, s, i).cmdQ, i.status, [])]
    else if Moves(cap, s) then Credit(s.trace.entries, s.dataQ[0]) else s.trace.entries
  }

  function NextTrace(cap: nat, s: System, i: Inputs): Trace {
    var t, d := s.trace, FifoD(s.regs, s.memDout, s.dataQ);
    Trace(
      t.arrived + i.arrive,
      NextEntries(cap, s, i),
      if Issues(cap, s) then t.issued + [d] else t.issued,
      if Accepts(cap, s) then t.written + [d] else t.written,
      t.lost + (if Issues(cap, s) && Full(cap, s) then 1 else 0),
      if i.hostRead then t.hostGot + First(s.outQ) else t.hostGot,
      t.dataArrived + i.dataArrive,
      if s.regs.pulseReg != 0 then t.pulseHigh + [s.regs.pulseReg] else t.pulseHigh)
  }

  function NextCmdQ(s: System, i: Inputs): seq<CmdWord> {
    (if s.regs.rdreq then Rest(s.cmdQ) else s.cmdQ) + i.arrive
  }

  function NextOutQ(cap: nat, s: System, i: Inputs): seq<u32> {
    (if i.hostRead then Rest(s.outQ) else s.outQ)
      + if Accepts(cap, s) then [FifoD(s.regs, s.memDout, s.dataQ)] else []
  }

  function NextDataQ(cap: nat, s: System, i: Inputs): seq<u32> {
    (if ReadData(s.regs, Full(cap, s)) then Rest(s.dataQ) else s.dataQ) + i.dataArrive
  }

  function NextMem(s: System): Memory {
    if s.regs.wea then s.mem[s.regs.addrA := Join16(s.regs.dinHigh, s.regs.dinReg)] else s.mem
  }

  function Clock(cap: nat, s: System, i: Inputs): System {
    System(Edge(s.regs, PinsOf(cap, s, i)), NextCmdQ(s, i), NextOutQ(cap, s, i), NextDataQ(cap, s, i),
           NextMem(s), ReadMem(s.mem, s.regs.addrA), NextTrace(cap, s, i))
  }

  function Run(cap: nat, s: System, ins: seq<Inputs>): System {
    if ins == [] then s else Clock(cap, Run(cap, s, ins[..|ins|-1]), ins[|ins|-1])
  }

  lemma RunAppend(cap: nat, s: System, ins: seq<Inputs>, i: Inputs)
    ensures Run(cap, s, ins + [i]) == Clock(cap, Run(cap, s, ins), i)
  {
    FrontOfAppend(ins, i);
  }

  lemma FrontOfAppend<T>(q: seq<T>, x: T)
    ensures (q + [x])[..|q|] == q
  {
  }

  lemma FrontAndLast<T>(q: seq<T>)
    requires q != []
    ensures q == q[..|q|-1] + [q[|q|-1]]
  {
  }

  /** RESET empties the FIFOs. It does not clear the write request of a word that was on its way, so that is
    required to be low. */
  predicate IsReset(s: System, mem: Memory) {
    && s.regs == AfterReset(s.regs) && !s.regs.wrreq
    && s.cmdQ == [] && s.outQ == [] && s.dataQ == [] && s.mem == mem
    && s.trace == Trace([], [], [], [], 0, [], [], [])
  }
}
