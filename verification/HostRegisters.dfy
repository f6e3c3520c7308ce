/** What the host reads back of the registers: encoder, clocked machine and interpreter together. */
module HostRegisters {
  import opened ControlInterface
  import opened Words
  import opened Commands
  import opened Interpreter
  import opened CommandSystem
  import opened CommandTheorems
  import opened CommandProgress
  import opened HostMemory

  // ----- what single words do -----

  lemma ExecOne(a: Machine, es: seq<Entry>, read: bool, address: nat, data: u16)
    requires address < 0x1000 && Executes(es, [Command(read, address, data)])
    ensures |es| == 1 && ExecAll(a, es) == Perform(a, read, address, data, es[0].status, es[0].moved)
  {
    assert [Command(read, address, data)] == [] + [Command(read, address, data)];
    var init := ExecCommand(a, es, [], read, address, data);
    assert |CommandWords(init)| == |init|;
  }

  /** A status read returns the status register with the number asked for, and nothing else happens. */
  lemma ExecReadStatus(a: Machine, es: seq<Entry>, k: u32)
    requires k <= 10 && Executes(es, ReadStatusWords(k))
    ensures |es| == 1 && ExecAll(a, es) == a.(out := a.out + [es[0].status[k]])
  {
    RegisterWords(k, 0);
    ExecOne(a, es, true, k, 0);
  }

  lemma ExecWriteRegister(a: Machine, es: seq<Entry>, k: u32, v: u32)
    requires k <= 31 && Executes(es, WriteRegisterWords(k, v))
    ensures ExecAll(a, es) == a.(config := a.config[k := Low16(v)])
  {
    RegisterWords(k, v);
    ExecOne(a, es, false, 32 + k, Low16(v));
  }

  lemma ExecReadRegister(a: Machine, es: seq<Entry>, k: u32)
    requires k <= 31 && Executes(es, ReadRegisterWords(k))
    ensures ExecAll(a, es) == a.(out := a.out + [a.config[k]])
  {
    RegisterWords(k, 0);
    ExecOne(a, es, true, 32 + k, 0);
  }

  /** A pulse word gives one pulse, of the low 16 bits of any mask. */
  lemma ExecSendPulse(a: Machine, es: seq<Entry>, mask: u32)
    requires Executes(es, SendPulseWords(mask))
    ensures ExecAll(a, es) == a.(pulses := a.pulses + [mask % 0x1_0000])
  {
    ExecOne(a, es, false, 11, Low16(mask));
  }

  /** Write a register, read one: the same gives the low half of the value, another one what it held. */
  lemma WriteThenReadRegister(a: Machine, es: seq<Entry>, k: u32, v: u32, j: u32)
    requires k <= 31 && j <= 31 && Executes(es, WriteRegisterWords(k, v) + ReadRegisterWords(j))
    ensures ExecAll(a, es) ==
      a.(config := a.config[k := v % 0x1_0000], out := a.out + [if j == k then v % 0x1_0000 else a.config[j]])
  {
    var fs, gs := SplitExec(a, es, WriteRegisterWords(k, v), ReadRegisterWords(j));
    ExecWriteRegister(a, fs, k, v);
    ExecReadRegister(ExecAll(a, fs), gs, j);
  }

  /** The address comes back in its two halves, low half first. */
  lemma AddressReadBack(a: Machine, es: seq<Entry>, addr: u32)
    requires Executes(es, AddressWords(addr) + [Command(true, 17, 0)] + [Command(true, 18, 0)])
    ensures var b, n := ExecAll(a, es), |a.out|;
            && b == a.(addr := addr, out := b.out) && |b.out| == n + 2 && b.out[..n] == a.out
            && b.out[n] == addr % 0x1_0000 && b.out[n + 1] == addr / 0x1_0000
  {
    var high := ExecCommand(a, es, AddressWords(addr) + [Command(true, 17, 0)], true, 18, 0);
    var low := ExecCommand(a, high, AddressWords(addr), true, 17, 0);
    ExecSetAddress(a, low, addr);
  }

  lemma CountReadBack(a: Machine, es: seq<Entry>, n: u16)
    requires Executes(es, [Command(false, 16, n)] + [Command(true, 16, 0)])
    ensures ExecAll(a, es) == a.(memCount := n, out := a.out + [n])
  {
    var fs := ExecCommand(a, es, [Command(false, 16, n)], true, 16, 0);
    ExecOne(a, fs, false, 16, n);
  }

  /** Addresses without a register: a read returns FFFF, a write does nothing. */
  lemma UnassignedRead(a: Machine, es: seq<Entry>, address: nat, data: u16)
    requires 11 <= address <= 15 || address == 19 || 21 <= address <= 31 || 64 <= address < 0x1000
    requires Executes(es, [Command(true, address, data)])
    ensures ExecAll(a, es) == a.(out := a.out + [0xFFFF])
  {
    ExecOne(a, es, true, address, data);
  }

  lemma UnassignedWrite(a: Machine, es: seq<Entry>, address: nat, data: u16)
    requires address <= 10 || 12 <= address <= 15 || 21 <= address <= 24 || 26 <= address <= 31 || 64 <= address < 0x1000
    requires Executes(es, [Command(false, address, data)])
    ensures ExecAll(a, es) == a
  {
    ExecOne(a, es, false, address, data);
  }

  // ----- registers as a history of writes -----

  /** What the latest write to `address` among the words wrote; `v` when there is none. */
  function Latest(ws: seq<CmdWord>, address: nat, v: u16): u16 {
    if ws == [] then v else
      var w := ws[|ws|-1];
      if !IsRead(w) && Address(w) == address then Data(w) else Latest(ws[..|ws|-1], address, v)
  }

  /** Whatever the words: each register and the memory count hold what was written to them last. */
  lemma {:induction false} LatestHeld(a: Machine, es: seq<Entry>, k: nat)
    requires k < 32
    ensures var b, ws := ExecAll(a, es), CommandWords(es);
            b.config[k] == Latest(ws, 32 + k, a.config[k]) && b.memCount == Latest(ws, 16, a.memCount)
  {
    if es != [] {
      var init, e := es[..|es|-1], es[|es|-1];
      LatestHeld(a, init, k);
      assert CommandWords(es)[..|es|-1] == CommandWords(init) && CommandWords(es)[|es|-1] == e.word;
      LatestStep(ExecAll(a, init), e, k);
    }
  }

  lemma LatestStep(b: Machine, e: Entry, k: nat)
    requires k < 32
    ensures Exec(b, e).config[k] == if !IsRead(e.word) && Address(e.word) == 32 + k then Data(e.word) else b.config[k]
    ensures Exec(b, e).memCount == if !IsRead(e.word) && Address(e.word) == 16 then Data(e.word) else b.memCount
  {
  }

  // ----- over the clocked machine -----

  /** The words that have reached the host or wait for it. */
  function Got(s: System): seq<u32> { s.trace.hostGot + s.outQ }

  /** The surroundings let the machine finish, and nothing is lost. */
  predicate Heard(cap: nat, s: System, before: seq<Inputs>, after: seq<Inputs>, words: seq<CmdWord>) {
    Served(cap, s, before, after, words) && RoomForWords(cap, s, before + after)
  }

  /** Then the host gets exactly what the interpreter sends. */
  lemma AllHeard(cap: nat, s: System, before: seq<Inputs>, after: seq<Inputs>, words: seq<CmdWord>, mem: Memory)
    requires IsReset(s, mem) && Heard(cap, s, before, after, words)
    ensures var s' := Run(cap, s, before + after);
            var es := s'.trace.entries;
            && AtRest(s') && CommandWords(es) == words && Got(s') == ExecAll(Start(mem), es).out
  {
    var ins := before + after;
    Completes(cap, s, before, after, words, mem);
    AtRestAgrees(cap, s, ins, mem);
    NothingLost(cap, s, ins, mem);
    OutputIsPrefix(cap, s, ins, mem);
    InterpretedOnceInOrder(cap, s, ins, mem);
  }

  lemma LastOfRead(mem: Memory, es: seq<Entry>, ws: seq<u32>, k: u32)
    requires k <= 31 && Executes(es, ws + ReadRegisterWords(k))
    ensures var out := ExecAll(Start(mem), es).out; out != [] && out[|out|-1] == Latest(ws, 32 + k, 0)
  {
    var fs, gs := SplitExec(Start(mem), es, ws, ReadRegisterWords(k));
    ExecReadRegister(ExecAll(Start(mem), fs), gs, k);
    LatestHeld(Start(mem), fs, k);
  }

  lemma LastOfCount(mem: Memory, es: seq<Entry>, ws: seq<u32>)
    requires Executes(es, ws + [Command(true, 16, 0)])
    ensures var out := ExecAll(Start(mem), es).out; out != [] && out[|out|-1] == Latest(ws, 16, 1)
  {
    var fs := ExecCommand(Start(mem), es, ws, true, 16, 0);
    LatestHeld(Start(mem), fs, 0);
  }

  lemma LastOfStatus(mem: Memory, es: seq<Entry>, ws: seq<u32>, k: u32) returns (e: Entry)
    requires k <= 10 && Executes(es, ws + ReadStatusWords(k))
    ensures e in es
    ensures var out := ExecAll(Start(mem), es).out; out != [] && out[|out|-1] == e.status[k]
  {
    var fs, gs := SplitExec(Start(mem), es, ws, ReadStatusWords(k));
    ExecReadStatus(ExecAll(Start(mem), fs), gs, k);
    e := gs[0];
    assert e in es;
  }

  /** Whatever words were sent before it, a register read brings the host what was written to that register last, or the
    zero that RESET left in it. */
  lemma RegisterReachesHost(
      cap: nat, s: System, before: seq<Inputs>, after: seq<Inputs>, mem: Memory, ws: seq<u32>, k: u32)
    requires IsReset(s, mem) && k <= 31 && Heard(cap, s, before, after, ws + ReadRegisterWords(k))
    ensures var got := Got(Run(cap, s, before + after)); got != [] && got[|got|-1] == Latest(ws, 32 + k, 0)
  {
    AllHeard(cap, s, before, after, ws + ReadRegisterWords(k), mem);
    LastOfRead(mem, Run(cap, s, before + after).trace.entries, ws, k);
  }

  /** So does a read of the memory count, which INIT sets to one. */
  lemma CountReachesHost(
      cap: nat, s: System, before: seq<Inputs>, after: seq<Inputs>, mem: Memory, ws: seq<u32>)
    requires IsReset(s, mem) && Heard(cap, s, before, after, ws + [Command(true, 16, 0)])
    ensures var got := Got(Run(cap, s, before + after)); got != [] && got[|got|-1] == Latest(ws, 16, 1)
  {
    AllHeard(cap, s, before, after, ws + [Command(true, 16, 0)], mem);
    LastOfCount(mem, Run(cap, s, before + after).trace.entries, ws);
  }

  /** Every word was interpreted with the status registers of some clock of the run. */
  lemma {:induction false} StatusSeen(cap: nat, s: System, ins: seq<Inputs>, e: Entry)
    requires s.trace.entries == [] && e in Run(cap, s, ins).trace.entries
    ensures exists i | i in ins :: e.status == i.status
  {
    if ins != [] {
      var init, i := ins[..|ins|-1], ins[|ins|-1];
      var before := Run(cap, s, init);
      var e' := EntryBefore(cap, before, i, e);
      if e.status != i.status {
        StatusSeen(cap, s, init, e');
        var j :| j in init && e'.status == j.status;
        assert j in ins;
      }
    }
  }

  lemma EntryBefore(cap: nat, s: System, i: Inputs, e: Entry) returns (e': Entry)
    requires e in Clock(cap, s, i).trace.entries
    ensures e.status == i.status || (e' in s.trace.entries && e.status == e'.status)
  {
    var es := s.trace.entries;
    e' := e;
    if e.status != i.status && e !in es {
      assert es != [];
      e' := es[|es|-1];
    }
  }

  /** The host reads a status register at any time, behind any other words: the last word it gets is what that register
    showed at some clock of the run. */
  lemma StatusReachesHost(
      cap: nat, s: System, before: seq<Inputs>, after: seq<Inputs>, mem: Memory, ws: seq<u32>, k: u32)
    returns (i: Inputs)
    requires IsReset(s, mem) && k <= 10 && Heard(cap, s, before, after, ws + ReadStatusWords(k))
    ensures i in before + after
    ensures var got := Got(Run(cap, s, before + after)); got != [] && got[|got|-1] == i.status[k]
  {
    AllHeard(cap, s, before, after, ws + ReadStatusWords(k), mem);
    var e := LastOfStatus(mem, Run(cap, s, before + after).trace.entries, ws, k);
    StatusSeen(cap, s, before + after, e);
    i :| i in before + after && e.status == i.status;
  }

  // ----- from the inputs alone -----

  lemma ReadCosts(k: u32, mc: u16)
    requires k <= 31
    ensures var ws := ReadRegisterWords(k); Work(ws, mc) == 2 && ReturnedBy(ws, mc) == 1 && NoTransfer(ws)
    ensures k <= 10 ==> var ws := ReadStatusWords(k); Work(ws, mc) == 2 && ReturnedBy(ws, mc) == 1 && NoTransfer(ws)
  {
    RegisterWords(k, 0);
    CommandFields(true, 32 + k, 0);
    OneWord(Command(true, 32 + k, 0), mc);
    if k <= 10 {
      CommandFields(true, k, 0);
      OneWord(Command(true, k, 0), mc);
    }
  }

  lemma WriteReadCosts(k: u32, v: u32, j: u32)
    requires k <= 31 && j <= 31
    ensures var ws := WriteRegisterWords(k, v) + ReadRegisterWords(j);
            Work(ws, 1) == 4 && ReturnedBy(ws, 1) == 1 && NoTransfer(ws)
  {
    var w, r := Command(false, 32 + k, Low16(v)), Command(true, 32 + j, 0);
    RegisterWords(k, v);
    RegisterWords(j, 0);
    CommandFields(false, 32 + k, Low16(v));
    CommandFields(true, 32 + j, 0);
    OneWord(w, 1);
    AppendWork([w], r, 1);
  }

  /** A host writes a register and reads one. With one place in the output FIFO and six clocks, whatever else the
    surroundings do: it gets one word, the value if it is the same register and otherwise zero. */
  lemma WriteThenReadOverMachine(
      cap: nat, s: System, before: seq<Inputs>, after: seq<Inputs>, mem: Memory, k: u32, v: u32, j: u32)
    requires IsReset(s, mem) && cap >= 1 && k <= 31 && j <= 31
    requires Arrivals(before) == WriteRegisterWords(k, v) + ReadRegisterWords(j) && Quiet(after) && |after| >= 6
    ensures var s' := Run(cap, s, before + after);
            && AtRest(s') && Got(s') == [if j == k then v % 0x1_0000 else 0]
            && (forall i | 0 <= i < 32 :: s'.regs.configReg[i] == if i == k then v % 0x1_0000 else 0)
  {
    var ws := WriteRegisterWords(k, v) + ReadRegisterWords(j);
    WriteReadCosts(k, v, j);
    ServedWhenDeep(cap, s, before, after, ws, mem);
    AllHeard(cap, s, before, after, ws, mem);
    AtRestAgrees(cap, s, before + after, mem);
    WriteThenReadRegister(Start(mem), Run(cap, s, before + after).trace.entries, k, v, j);
  }

  /** A host reads a status register that stands still: with one place and four clocks it gets its value. */
  lemma StatusOverMachine(
      cap: nat, s: System, before: seq<Inputs>, after: seq<Inputs>, mem: Memory, k: u32, v: u16)
    requires IsReset(s, mem) && cap >= 1 && k <= 10
    requires Arrivals(before) == ReadStatusWords(k) && Quiet(after) && |after| >= 4
    requires forall i | i in before + after :: i.status[k] == v
    ensures var s' := Run(cap, s, before + after); AtRest(s') && Got(s') == [v]
  {
    var words := ReadStatusWords(k);
    ReadCosts(k, 1);
    ServedWhenDeep(cap, s, before, after, words, mem);
    AllHeard(cap, s, before, after, words, mem);
    ExecReadStatus(Start(mem), Run(cap, s, before + after).trace.entries, k);
    assert [] + words == words;
    var i := StatusReachesHost(cap, s, before, after, mem, [], k);
  }
}
