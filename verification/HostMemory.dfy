/** What the encoders' words do: encoder, clocked machine and interpreter together. */
module HostMemory {
  import opened ControlInterface
  import opened Words
  import opened Commands
  import opened Interpreter
  import opened CommandSystem
  import opened CommandRefinement
  import opened CommandTheorems
  import opened CommandProgress
  import D = Deinterleave

  /** Executed words, as the interpreter sees them. */
  ghost predicate Executes(es: seq<Entry>, ws: seq<u32>) {
    CommandWords(es) == ws
  }

  // ----- the memory after a block write -----

  function Stored(m: Memory, addr: u32, vals: seq<u32>): Memory {
    if vals == [] then m else
      var n := |vals| - 1;
      Stored(m, addr, vals[..n])[Advance(addr, n) := vals[n]]
  }

  /** Cell by cell: consecutive addresses modulo 2^32 hold the values, and every other cell is as it was. */
  lemma {:induction false} StoredCells(m: Memory, addr: u32, vals: seq<u32>, a: u32)
    requires |vals| <= 0x1_0000_0000
    ensures var i := (a - addr) % 0x1_0000_0000;
            ReadMem(Stored(m, addr, vals), a) == if i < |vals| then vals[i] else ReadMem(m, a)
  {
    if vals != [] {
      var n := |vals| - 1;
      StoredCells(m, addr, vals[..n], a);
      AddressOffset(addr, a, n);
    }
  }

  lemma AddressOffset(addr: u32, a: u32, n: nat)
    requires n < 0x1_0000_0000
    ensures Advance(addr, n) == a <==> n == (a - addr) % 0x1_0000_0000
  {
  }

  lemma NextOfAdvance(addr: u32, k: nat)
    ensures NextAddr(Advance(addr, k)) == Advance(addr, k + 1)
  {
  }

  /** Reading the block back gives the values. */
  lemma {:induction false} ReadBack(m: Memory, addr: u32, vals: seq<u32>, k: nat)
    requires |vals| <= 0x1_0000_0000 && k <= |vals|
    ensures ReadRange(Stored(m, addr, vals), Advance(addr, k), |vals| - k) == vals[k..]
    decreases |vals| - k
  {
    if k < |vals| {
      ReadBack(m, addr, vals, k + 1);
      NextOfAdvance(addr, k);
      CellOf(m, addr, vals, k);
      assert vals[k..] == [vals[k]] + vals[k+1..];
    }
  }

  lemma ReadBackAll(m: Memory, addr: u32, vals: seq<u32>)
    requires |vals| <= 0x1_0000_0000
    ensures ReadRange(Stored(m, addr, vals), addr, |vals|) == vals
  {
    AdvanceNone(addr);
    ReadBack(m, addr, vals, 0);
    assert vals[0..] == vals;
  }

  lemma AdvanceNone(addr: u32)
    ensures Advance(addr, 0) == addr
  {
  }

  lemma {:induction false} CellOf(m: Memory, addr: u32, vals: seq<u32>, k: nat)
    requires |vals| <= 0x1_0000_0000 && k < |vals|
    ensures ReadMem(Stored(m, addr, vals), Advance(addr, k)) == vals[k]
  {
    var n := |vals| - 1;
    if k < n {
      CellOf(m, addr, vals[..n], k);
      AdvanceInjective(addr, k, n);
    }
  }

  lemma AdvanceInjective(addr: u32, j: nat, k: nat)
    requires j < k < 0x1_0000_0000
    ensures Advance(addr, j) != Advance(addr, k)
  {
  }

  // ----- executing the words -----

  lemma LastWord(es: seq<Entry>, ws: seq<u32>, w: u32)
    requires Executes(es, ws + [w])
    ensures es != [] && es[|es|-1].word == w && Executes(es[..|es|-1], ws)
  {
    var cw := CommandWords(es);
    assert |es| == |ws| + 1 && cw[|ws|] == w;
    assert CommandWords(es[..|es|-1]) == cw[..|ws|];
  }

  lemma ExecCommand(a: Machine, es: seq<Entry>, ws: seq<u32>, read: bool, address: nat, data: u16) returns (init: seq<Entry>)
    requires address < 0x1000 && Executes(es, ws + [Command(read, address, data)])
    ensures es != [] && init == es[..|es|-1] && Executes(init, ws)
    ensures var e := es[|es|-1];
            ExecAll(a, es) == Perform(ExecAll(a, init), read, address, data, e.status, e.moved)
  {
    LastWord(es, ws, Command(read, address, data));
    CommandFields(read, address, data);
    init := es[..|es|-1];
  }

  lemma ExecSetAddress(a: Machine, es: seq<Entry>, addr: u32)
    requires Executes(es, [Command(false, 17, Low16(addr)), Command(false, 18, High16(addr))])
    ensures ExecAll(a, es) == a.(addr := addr)
  {
    var w := Command(false, 17, Low16(addr));
    assert [w, Command(false, 18, High16(addr))] == [w] + [Command(false, 18, High16(addr))];
    var es1 := ExecCommand(a, es, [w], false, 18, High16(addr));
    assert [w] == [] + [w];
    var es0 := ExecCommand(a, es1, [], false, 17, Low16(addr));
  }

  lemma SplitWrite(addr: u32, vals: seq<u32>)
    requires vals != []
    ensures var n := |vals| - 1;
            WriteMemoryWords(addr, vals) ==
            WriteMemoryWords(addr, vals[..n]) + [Command(false, 19, Low16(vals[n]))] + [Command(false, 20, High16(vals[n]))]
  {
  }

  /** A pair of data words stores one value at the current address and steps the address. */
  lemma StoreOne(a: Machine, v: u32, s1: StatusRegs, m1: seq<u32>, s2: StatusRegs, m2: seq<u32>)
    ensures Perform(Perform(a, false, 19, Low16(v), s1, m1), false, 20, High16(v), s2, m2)
         == a.(dataLow := Low16(v), mem := a.mem[a.addr := v], addr := NextAddr(a.addr))
  {
    assert Join16(High16(v), Low16(v)) == v;
  }

  /** The machine after a block write. */
  function AfterWrite(a: Machine, addr: u32, vals: seq<u32>): Machine {
    a.(addr := Advance(addr, |vals|), mem := Stored(a.mem, addr, vals),
       dataLow := if vals == [] then a.dataLow else Low16(vals[|vals|-1]))
  }

  lemma AfterWriteStep(a: Machine, addr: u32, vals: seq<u32>)
    requires vals != []
    ensures var v, b := vals[|vals|-1], AfterWrite(a, addr, vals[..|vals|-1]);
            AfterWrite(a, addr, vals) == b.(dataLow := Low16(v), mem := b.mem[b.addr := v], addr := NextAddr(b.addr))
  {
    NextOfAdvance(addr, |vals| - 1);
  }

  /** The encoder's block write: memory holds the values at consecutive addresses, the address stands behind them, and
    registers, memory count, output and pulses are untouched. */
  lemma {:induction false} ExecWriteMemory(a: Machine, es: seq<Entry>, addr: u32, vals: seq<u32>)
    requires Executes(es, WriteMemoryWords(addr, vals))
    ensures ExecAll(a, es) == AfterWrite(a, addr, vals)
  {
    if vals == [] {
      assert WriteMemoryWords(addr, vals) == [Command(false, 17, Low16(addr)), Command(false, 18, High16(addr))];
      ExecSetAddress(a, es, addr);
    } else {
      var n := |vals| - 1;
      var init, v := WriteMemoryWords(addr, vals[..n]), vals[n];
      SplitWrite(addr, vals);
      var es1 := ExecCommand(a, es, init + [Command(false, 19, Low16(v))], false, 20, High16(v));
      var es0 := ExecCommand(a, es1, init, false, 19, Low16(v));
      ExecWriteMemory(a, es0, addr, vals[..n]);
      var e1, e2 := es1[|es1|-1], es[|es|-1];
      StoreOne(AfterWrite(a, addr, vals[..n]), v, e1.status, e1.moved, e2.status, e2.moved);
      AfterWriteStep(a, addr, vals);
    }
  }

  /** The encoder's block read returns the cells in order; a count of zero asks for 65536. */
  lemma ExecReadMemory(a: Machine, es: seq<Entry>, addr: u32, n: u32, c: nat)
    requires Executes(es, ReadMemoryWords(addr, n)) && c == Count(Low16(n))
    ensures ExecAll(a, es) ==
      a.(memCount := Low16(n), addr := Advance(addr, c), out := a.out + ReadRange(a.mem, addr, c))
  {
    var ws := ReadMemoryWords(addr, n);
    assert ws == ws[..3] + [Command(true, 20, 0)];
    var es3 := ExecCommand(a, es, ws[..3], true, 20, 0);
    assert ws[..3] == ws[..2] + [Command(false, 16, Low16(n))];
    var es2 := ExecCommand(a, es3, ws[..2], false, 16, Low16(n));
    assert ws[..2] == [Command(false, 17, Low16(addr)), Command(false, 18, High16(addr))];
    ExecSetAddress(a, es2, addr);
  }

  lemma {:induction false} ExecAllConcat(a: Machine, es: seq<Entry>, fs: seq<Entry>)
    ensures ExecAll(a, es + fs) == ExecAll(ExecAll(a, es), fs)
  {
    if fs == [] {
      assert es + fs == es;
    } else {
      var init, f := fs[..|fs|-1], fs[|fs|-1];
      ExecAllConcat(a, es, init);
      assert es + fs == es + init + [f];
      ExecAllAppend(a, es + init, f);
    }
  }

  /** Executing two runs of words is executing the second after the first. */
  lemma SplitExec(a: Machine, es: seq<Entry>, ws: seq<u32>, rs: seq<u32>) returns (fs: seq<Entry>, gs: seq<Entry>)
    requires Executes(es, ws + rs)
    ensures es == fs + gs && Executes(fs, ws) && Executes(gs, rs)
    ensures ExecAll(a, es) == ExecAll(ExecAll(a, fs), gs)
  {
    var cw := CommandWords(es);
    fs, gs := es[..|ws|], es[|ws|..];
    assert CommandWords(fs) == cw[..|ws|] == ws;
    assert CommandWords(gs) == cw[|ws|..] == rs;
    assert es == fs + gs;
    ExecAllConcat(a, fs, gs);
  }

  // ----- host, encoder, clocked machine and memory -----

  lemma {:induction false} DataWork(vals: seq<u32>, mc: u16)
    ensures var ws := DataWords(vals);
            Work(ws, mc) == 5 * |vals| && CountAfter(ws, mc) == mc && ReturnedBy(ws, mc) == 0 && NoTransfer(ws)
  {
    if vals != [] {
      var n := |vals| - 1;
      var init, pair := DataWords(vals[..n]), [Command(false, 19, Low16(vals[n])), Command(false, 20, High16(vals[n]))];
      DataWork(vals[..n], mc);
      WorkConcat(init, pair, mc);
      ReturnedConcat(init, pair, mc);
      PairWork(vals[n], mc);
      NoTransferConcat(init, pair);
    }
  }

  lemma NoTransferConcat(a: seq<CmdWord>, b: seq<CmdWord>)
    requires NoTransfer(a) && NoTransfer(b)
    ensures NoTransfer(a + b)
  {
  }

  lemma PairWork(v: u32, mc: u16)
    ensures var pair := [Command(false, 19, Low16(v)), Command(false, 20, High16(v))];
            Work(pair, mc) == 5 && CountAfter(pair, mc) == mc && ReturnedBy(pair, mc) == 0 && NoTransfer(pair)
  {
    var low, high := Command(false, 19, Low16(v)), Command(false, 20, High16(v));
    CommandFields(false, 19, Low16(v));
    CommandFields(false, 20, High16(v));
    OneWord(low, mc);
    OneWord(high, mc);
    assert [low, high] == [low] + [high];
    WorkConcat([low], [high], mc);
    ReturnedConcat([low], [high], mc);
  }

  lemma OneWord(w: CmdWord, mc: u16)
    ensures Work([w], mc) == Cost(w, mc) && CountAfter([w], mc) == NextCount(w, mc) && ReturnedBy([w], mc) == Returned(w, mc)
  {
    assert [w][1..] == [];
  }

  lemma AppendWork(ws: seq<CmdWord>, w: CmdWord, mc: u16)
    ensures var all, c := ws + [w], CountAfter(ws, mc);
            && Work(all, mc) == Work(ws, mc) + Cost(w, c) && CountAfter(all, mc) == NextCount(w, c)
            && ReturnedBy(all, mc) == ReturnedBy(ws, mc) + Returned(w, c)
            && (NoTransfer(ws) && !IsTransfer(w) ==> NoTransfer(all))
  {
    OneWord(w, CountAfter(ws, mc));
    WorkConcat(ws, [w], mc);
    ReturnedConcat(ws, [w], mc);
  }

  /** A block write costs four clocks for the address and five for each value. */
  lemma WriteWork(addr: u32, vals: seq<u32>, mc: u16)
    ensures var ws := WriteMemoryWords(addr, vals);
            && Work(ws, mc) == 5 * |vals| + 4 && CountAfter(ws, mc) == mc && ReturnedBy(ws, mc) == 0 && NoTransfer(ws)
  {
    var head := AddressWords(addr);
    AddressWork(addr, mc);
    DataWork(vals, mc);
    WorkConcat(head, DataWords(vals), mc);
    ReturnedConcat(head, DataWords(vals), mc);
    NoTransferConcat(head, DataWords(vals));
  }

  function AddressWords(addr: u32): seq<u32> { [Command(false, 17, Low16(addr)), Command(false, 18, High16(addr))] }

  lemma AddressWork(addr: u32, mc: u16)
    ensures var ws := AddressWords(addr);
            Work(ws, mc) == 4 && CountAfter(ws, mc) == mc && ReturnedBy(ws, mc) == 0 && NoTransfer(ws)
  {
    var low, high := Command(false, 17, Low16(addr)), Command(false, 18, High16(addr));
    CommandFields(false, 17, Low16(addr));
    CommandFields(false, 18, High16(addr));
    OneWord(low, mc);
    OneWord(high, mc);
    assert [low, high] == [low] + [high];
    WorkConcat([low], [high], mc);
    ReturnedConcat([low], [high], mc);
  }

  /** A block read costs eight clocks and one for each cell. */
  lemma ReadWork(addr: u32, n: u32, mc: u16)
    ensures var ws, c := ReadMemoryWords(addr, n), Count(Low16(n));
            Work(ws, mc) == c + 8 && ReturnedBy(ws, mc) == c && NoTransfer(ws)
  {
    var head, count, read := AddressWords(addr), Command(false, 16, Low16(n)), Command(true, 20, 0);
    CommandFields(false, 16, Low16(n));
    CommandFields(true, 20, 0);
    AddressWork(addr, mc);
    OneWord(count, mc);
    OneWord(read, Low16(n));
    WorkConcat([count], [read], mc);
    ReturnedConcat([count], [read], mc);
    var tail := [count] + [read];
    assert ReadMemoryWords(addr, n) == head + tail;
    WorkConcat(head, tail, mc);
    ReturnedConcat(head, tail, mc);
    NoTransferConcat(head, tail);
  }

  /** A host sends a block write, word by word at any times. With the clocks that the words cost, whatever else the
    surroundings do, the memory holds the values cell by cell, and nothing else has changed. */
  lemma WriteReachesMemory(
      cap: nat, s: System, before: seq<Inputs>, after: seq<Inputs>, mem: Memory, addr: u32, vals: seq<u32>)
    requires IsReset(s, mem) && 1 <= |vals| <= 0x1_0000_0000
    requires Arrivals(before) == WriteMemoryWords(addr, vals) && Quiet(after) && |after| >= 5 * |vals| + 6
    ensures var s' := Run(cap, s, before + after);
            && AtRest(s') && s'.cmdQ == []
            && (forall a: u32 :: var i := (a - addr) % 0x1_0000_0000;
                  ReadMem(s'.mem, a) == if i < |vals| then vals[i] else ReadMem(mem, a))
            && s'.regs.configReg == Zeros() && s'.trace.issued == [] && s'.trace.pulseHigh == []
  {
    var words := WriteMemoryWords(addr, vals);
    WriteWork(addr, vals, 1);
    ServedWhenDeep(cap, s, before, after, words, mem);
    Completes(cap, s, before, after, words, mem);
    WrittenAtRest(cap, s, before + after, mem, addr, vals);
  }

  /** When the machine has come to rest, the memory holds the values cell by cell, and nothing else has changed. */
  lemma WrittenAtRest(cap: nat, s: System, ins: seq<Inputs>, mem: Memory, addr: u32, vals: seq<u32>)
    requires IsReset(s, mem) && RoomThroughout(cap, s, ins)
    requires 1 <= |vals| <= 0x1_0000_0000
    requires var s' := Run(cap, s, ins); s'.trace.arrived == WriteMemoryWords(addr, vals) && s'.cmdQ == [] && AtRest(s')
    ensures var s' := Run(cap, s, ins);
            && (forall a: u32 :: var i := (a - addr) % 0x1_0000_0000;
                  ReadMem(s'.mem, a) == if i < |vals| then vals[i] else ReadMem(mem, a))
            && s'.regs.configReg == Zeros() && s'.trace.issued == [] && s'.trace.pulseHigh == []
  {
    var s' := Run(cap, s, ins);
    var es := s'.trace.entries;
    InterpretedOnceInOrder(cap, s, ins, mem);
    assert CommandWords(es) + [] == CommandWords(es);
    AtRestAgrees(cap, s, ins, mem);
    ExecWriteMemory(Start(mem), es, addr, vals);
    forall a: u32 ensures var i := (a - addr) % 0x1_0000_0000;
                          ReadMem(s'.mem, a) == if i < |vals| then vals[i] else ReadMem(mem, a)
    {
      StoredCells(mem, addr, vals, a);
    }
  }

  /** A block write followed by a block read of the same length, any that the interface can read: the host gets back what
    it wrote, under every back-pressure that leaves room, with the clocks the words cost. */
  lemma WriteThenRead(
      cap: nat, s: System, before: seq<Inputs>, after: seq<Inputs>, mem: Memory, addr: u32, vals: seq<u32>)
    requires IsReset(s, mem) && 1 <= |vals| <= 0x1_0000
    requires RoomForWords(cap, s, before + after)
    requires Arrivals(before) == WriteMemoryWords(addr, vals) + ReadMemoryWords(addr, |vals|) && Quiet(after)
    requires FreeClocks(cap, s, before, after) >= 6 * |vals| + 14
    ensures var s' := Run(cap, s, before + after); AtRest(s') && s'.cmdQ == [] && s'.trace.hostGot + s'.outQ == vals
  {
    RoomForWordsSuffices(cap, s, before + after);
    WriteReadWork(addr, vals);
    Completes(cap, s, before, after, WriteMemoryWords(addr, vals) + ReadMemoryWords(addr, |vals|), mem);
    ReadAtRest(cap, s, before + after, mem, addr, vals);
  }

  /** An output FIFO as deep as the block needs nothing but time. */
  lemma WriteThenReadDeep(
      cap: nat, s: System, before: seq<Inputs>, after: seq<Inputs>, mem: Memory, addr: u32, vals: seq<u32>)
    requires IsReset(s, mem) && 1 <= |vals| <= 0x1_0000 && |vals| <= cap
    requires Arrivals(before) == WriteMemoryWords(addr, vals) + ReadMemoryWords(addr, |vals|) && Quiet(after)
    requires |after| >= 6 * |vals| + 14
    ensures var s' := Run(cap, s, before + after); AtRest(s') && s'.cmdQ == [] && s'.trace.hostGot + s'.outQ == vals
  {
    var words := WriteMemoryWords(addr, vals) + ReadMemoryWords(addr, |vals|);
    WriteReadWork(addr, vals);
    ServedWhenDeep(cap, s, before, after, words, mem);
    Completes(cap, s, before, after, words, mem);
    ReadAtRest(cap, s, before + after, mem, addr, vals);
  }

  /** So does one of three places, to a host that reads at every clock. */
  lemma WriteThenReadDrained(
      cap: nat, s: System, before: seq<Inputs>, after: seq<Inputs>, mem: Memory, addr: u32, vals: seq<u32>)
    requires IsReset(s, mem) && 1 <= |vals| <= 0x1_0000 && cap >= 3 && AlwaysReads(before + after)
    requires Arrivals(before) == WriteMemoryWords(addr, vals) + ReadMemoryWords(addr, |vals|) && Quiet(after)
    requires |after| >= 6 * |vals| + 14
    ensures var s' := Run(cap, s, before + after); AtRest(s') && s'.cmdQ == [] && s'.trace.hostGot + s'.outQ == vals
  {
    var words := WriteMemoryWords(addr, vals) + ReadMemoryWords(addr, |vals|);
    WriteReadWork(addr, vals);
    ServedWhenRead(cap, s, before, after, words, mem);
    Completes(cap, s, before, after, words, mem);
    ReadAtRest(cap, s, before + after, mem, addr, vals);
  }

  lemma WriteReadWork(addr: u32, vals: seq<u32>)
    requires 1 <= |vals| <= 0x1_0000
    ensures var ws := WriteMemoryWords(addr, vals) + ReadMemoryWords(addr, |vals|);
            Work(ws, 1) == 6 * |vals| + 12 && ReturnedBy(ws, 1) == |vals| && NoTransfer(ws)
  {
    var w, r := WriteMemoryWords(addr, vals), ReadMemoryWords(addr, |vals|);
    CountOfLength(|vals|);
    WriteWork(addr, vals, 1);
    ReadWork(addr, |vals|, 1);
    WorkConcat(w, r, 1);
    ReturnedConcat(w, r, 1);
    NoTransferConcat(w, r);
  }

  lemma ReadAtRest(cap: nat, s: System, ins: seq<Inputs>, mem: Memory, addr: u32, vals: seq<u32>)
    requires IsReset(s, mem) && RoomForWords(cap, s, ins)
    requires 1 <= |vals| <= 0x1_0000
    requires var s' := Run(cap, s, ins);
             && s'.trace.arrived == WriteMemoryWords(addr, vals) + ReadMemoryWords(addr, |vals|)
             && s'.cmdQ == [] && AtRest(s')
    ensures var s' := Run(cap, s, ins); s'.trace.hostGot + s'.outQ == vals
  {
    var s' := Run(cap, s, ins);
    var es := s'.trace.entries;
    RoomForWordsSuffices(cap, s, ins);
    InterpretedOnceInOrder(cap, s, ins, mem);
    assert CommandWords(es) + [] == CommandWords(es);
    AtRestAgrees(cap, s, ins, mem);
    NothingLost(cap, s, ins, mem);
    OutputIsPrefix(cap, s, ins, mem);
    ExecWriteThenRead(mem, es, addr, vals);
  }

  lemma CountOfLength(n: nat)
    requires 1 <= n <= 0x1_0000
    ensures Count(Low16(n)) == n
  {
  }

  lemma ExecWriteThenRead(mem: Memory, es: seq<Entry>, addr: u32, vals: seq<u32>)
    requires 1 <= |vals| <= 0x1_0000
    requires Executes(es, WriteMemoryWords(addr, vals) + ReadMemoryWords(addr, |vals|))
    ensures ExecAll(Start(mem), es).out == vals
  {
    CountOfLength(|vals|);
    var ws, rs := SplitExec(Start(mem), es, WriteMemoryWords(addr, vals), ReadMemoryWords(addr, |vals|));
    ExecWriteMemory(Start(mem), ws, addr, vals);
    ExecReadMemory(AfterWrite(Start(mem), addr, vals), rs, addr, |vals|, |vals|);
    ReadBackAll(mem, addr, vals);
  }

  // ----- the data FIFO to the host -----

  /** Executing a transfer returns the words moved for it. */
  lemma ExecReadDataFifo(a: Machine, es: seq<Entry>, n: u32)
    requires Executes(es, ReadDataFifoWords(n))
    ensures |es| == 1 && IsTransfer(es[0].word) && Data(es[0].word) == Low16(n)
    ensures ExecAll(a, es) == a.(out := a.out + es[0].moved)
  {
    var w := Command(false, 25, Low16(n));
    CommandFields(false, 25, Low16(n));
    OneEntry(es, w);
    ExecTransfer(a, es[0]);
    assert es[..0] == [];
  }

  lemma OneEntry(es: seq<Entry>, w: CmdWord)
    requires CommandWords(es) == [w]
    ensures |es| == 1 && es[0].word == w
  {
    assert |CommandWords(es)| == |es| && CommandWords(es)[0] == es[0].word;
  }

  lemma ExecTransfer(a: Machine, e: Entry)
    requires IsTransfer(e.word)
    ensures Exec(a, e) == a.(out := a.out + e.moved)
  {
  }

  /** A transfer of `n` brings the host exactly the first `n + 1` words of the data FIFO, in order, under every stall of
    either side, once both have been ready often enough. */
  lemma TransferReachesHost(cap: nat, s: System, before: seq<Inputs>, after: seq<Inputs>, mem: Memory, n: u32)
    requires IsReset(s, mem) && RoomForWords(cap, s, before + after)
    requires Served(cap, s, before, after, ReadDataFifoWords(n))
    ensures var s' := Run(cap, s, before + after);
            && AtRest(s') && |s'.trace.dataArrived| >= Low16(n) + 1
            && s'.trace.hostGot + s'.outQ == s'.trace.dataArrived[..Low16(n) + 1]
  {
    var ins := before + after;
    Completes(cap, s, before, after, ReadDataFifoWords(n), mem);
    AtRestAgrees(cap, s, ins, mem);
    NothingLost(cap, s, ins, mem);
    OutputIsPrefix(cap, s, ins, mem);
    InterpretedOnceInOrder(cap, s, ins, mem);
    TransferDone(Run(cap, s, ins), mem, n);
  }

  lemma TransferDone(s: System, mem: Memory, n: u32)
    requires Executes(s.trace.entries, ReadDataFifoWords(n)) && forall e | e in s.trace.entries :: Done(e)
    requires s.trace.issued == ExecAll(Start(mem), s.trace.entries).out
    requires s.trace.dataArrived == MovedWords(s.trace.entries) + s.dataQ
    requires s.trace.hostGot + s.outQ == s.trace.written == s.trace.issued
    ensures |s.trace.dataArrived| >= Low16(n) + 1
    ensures s.trace.hostGot + s.outQ == s.trace.dataArrived[..Low16(n) + 1]
  {
    var es := s.trace.entries;
    ExecReadDataFifo(Start(mem), es, n);
    assert es[..0] == [] && MovedWords(es) == [] + es[0].moved == es[0].moved;
    assert es[0] in es && [] + es[0].moved == es[0].moved;
  }

  /** What the transfer costs: two clocks, and a ready clock for each of the words. */
  lemma TransferWork(n: u32)
    ensures Work(ReadDataFifoWords(n), 1) == 3 + Low16(n)
  {
    CommandFields(false, 25, Low16(n));
    OneWord(Command(false, 25, Low16(n)), 1);
  }

  /** The request that `fmc112_read_save` repeats brings one of its chunks. */
  lemma ChunkReachesHost(cap: nat, s: System, before: seq<Inputs>, after: seq<Inputs>, mem: Memory, n: u32)
    requires IsReset(s, mem) && RoomForWords(cap, s, before + after)
    requires n == D.NBASK / 4 - 1 && Served(cap, s, before, after, ReadDataFifoWords(n))
    ensures var s' := Run(cap, s, before + after); IsChunk(s'.trace.hostGot + s'.outQ, s'.trace.dataArrived)
  {
    ChunkWords(n);
    TransferReachesHost(cap, s, before, after, mem, n);
  }

  /** The first words of the data FIFO, with two samples in each, that make a chunk. */
  predicate IsChunk(ws: seq<u32>, source: seq<u32>) { 2 * |ws| == D.CHUNK && ws <= source }

  lemma ChunkWords(n: u32)
    requires n == D.NBASK / 4 - 1
    ensures 2 * (Low16(n) + 1) == D.CHUNK
  {
  }
}
