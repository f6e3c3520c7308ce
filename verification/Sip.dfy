/** The 64-bit commands of util/sip.c. */
module Sip {
  import opened Arith
  import opened Words
  import opened Network
  import opened Commands
  import opened ControlInterface
  import opened Interpreter
  import opened CommandRefinement
  import opened CommandSystem
  import opened CommandTheorems
  import opened CommandProgress
  import opened CommandPulse
  import opened HostMemory

  // ----- the words -----

  /** `cmd >> (16 * i)` */
  function Shifted(cmd: u64, i: nat): u64 {
    if i == 0 then cmd else Shifted(cmd / 0x1_0000, i - 1)
  }

  function Slice(cmd: u64, i: nat): u16 { Low16(Shifted(cmd, i)) }

  /** The first `n` slices to configuration registers 4, 5, 6, 7. */
  function RegWords(cmd: u64, n: nat): (ws: seq<u32>)
    requires n <= 4
    ensures |ws| == n
  {
    if n == 0 then [] else RegWords(cmd, n - 1) + WriteRegisterWords(4 + n - 1, Slice(cmd, n - 1))
  }

  /** Reads of the first `n` of status registers 4, 5, 6, 7. */
  function StatusWords(n: nat): (ws: seq<u32>)
    requires n <= 4
    ensures |ws| == n
  {
    if n == 0 then [] else StatusWords(n - 1) + Commands.ReadStatusWords(4 + n - 1)
  }

  function SendWords(cmd: u64): seq<u32> { RegWords(cmd, 4) + SendPulseWords(2) }

  /** The slices a second time are there to give the reply time to arrive. */
  function SendRecvWords(cmd: u64): seq<u32> { SendWords(cmd) + RegWords(cmd, 4) + StatusWords(4) }

  // ----- the builders -----

  /** The loop that writes the slices, at a pointer that moves one word each time. */
  method PutRegs(htonl: u32 -> u32, cmdBuf: array<u32>, at: nat, cmd: u64)
    requires at + 4 <= cmdBuf.Length
    modifies cmdBuf
    ensures cmdBuf[at..at+4] == MapSeq(htonl, RegWords(cmd, 4))
    ensures cmdBuf[..at] == old(cmdBuf[..at])
  {
    for i := 0 to 4
      invariant cmdBuf[at..at+i] == MapSeq(htonl, RegWords(cmd, i))
      invariant cmdBuf[..at] == old(cmdBuf[..at])
    {
      ghost var before := cmdBuf[..at+i];
      var _, _ := WriteRegister(htonl, cmdBuf, at + i, 4 + i, Slice(cmd, i));
      assert cmdBuf[..at+i] == before;
      assert cmdBuf[at..at+i] == before[at..] && cmdBuf[..at] == before[..at];
      assert cmdBuf[at..at+i+1] == cmdBuf[at..at+i] + cmdBuf[at+i..at+i+1];
    }
  }

  method PutStatusReads(htonl: u32 -> u32, cmdBuf: array<u32>, at: nat)
    requires at + 4 <= cmdBuf.Length
    modifies cmdBuf
    ensures cmdBuf[at..at+4] == MapSeq(htonl, StatusWords(4))
    ensures cmdBuf[..at] == old(cmdBuf[..at])
  {
    for i := 0 to 4
      invariant cmdBuf[at..at+i] == MapSeq(htonl, StatusWords(i))
      invariant cmdBuf[..at] == old(cmdBuf[..at])
    {
      ghost var before := cmdBuf[..at+i];
      var _, _ := ReadStatus(htonl, cmdBuf, at + i, 4 + i);
      assert cmdBuf[..at+i] == before;
      assert cmdBuf[at..at+i] == before[at..] && cmdBuf[..at] == before[..at];
      assert cmdBuf[at..at+i+1] == cmdBuf[at..at+i] + cmdBuf[at+i..at+i+1];
    }
  }

  method FillSend(htonl: u32 -> u32, cmdBuf: array<u32>, cmd: u64)
    requires cmdBuf.Length >= 5
    modifies cmdBuf
    ensures cmdBuf[..5] == MapSeq(htonl, SendWords(cmd))
  {
    PutRegs(htonl, cmdBuf, 0, cmd);
    ghost var regs := cmdBuf[..4];
    var _, _ := SendPulse(htonl, cmdBuf, 4, 2);
    assert cmdBuf[..4] == regs && cmdBuf[..5] == cmdBuf[..4] + cmdBuf[4..5];
  }

  method SendCommand(htonl: u32 -> u32, bufio: array?<u32>, cmd: u64) returns (buf: array<u32>, n: nat)
    requires bufio != null ==> bufio.Length >= 5
    modifies bufio
    ensures Delivered(htonl, bufio, buf, 0, SendWords(cmd)) && n == 20
  {
    var cmdBuf := new u32[5](_ => 0);
    FillSend(htonl, cmdBuf, cmd);
    assert cmdBuf[..] == cmdBuf[..5];
    buf := HandOver(bufio, cmdBuf);
    n := 20;
  }

  method RecvCommand(htonl: u32 -> u32, bufio: array?<u32>) returns (buf: array<u32>, n: nat)
    requires bufio != null ==> bufio.Length >= 4
    modifies bufio
    ensures Delivered(htonl, bufio, buf, 0, StatusWords(4)) && n == 16
  {
    var cmdBuf := new u32[4](_ => 0);
    PutStatusReads(htonl, cmdBuf, 0);
    assert cmdBuf[..] == cmdBuf[0..4];
    buf := HandOver(bufio, cmdBuf);
    n := 16;
  }

  method FillSendRecv(htonl: u32 -> u32, cmdBuf: array<u32>, cmd: u64)
    requires cmdBuf.Length == 13
    modifies cmdBuf
    ensures cmdBuf[..] == MapSeq(htonl, SendRecvWords(cmd))
  {
    FillSend(htonl, cmdBuf, cmd);
    ghost var send := cmdBuf[..5];
    PutRegs(htonl, cmdBuf, 5, cmd);
    ghost var again := cmdBuf[..9];
    PutStatusReads(htonl, cmdBuf, 9);
    SentInParts(htonl, send, again, cmdBuf[..], cmd);
  }

  lemma SentInParts(htonl: u32 -> u32, send: seq<u32>, again: seq<u32>, c: seq<u32>, cmd: u64)
    requires |send| == 5 && |again| == 9 && |c| == 13 && c[..9] == again && again[..5] == send
    requires send == MapSeq(htonl, SendWords(cmd))
    requires again[5..9] == MapSeq(htonl, RegWords(cmd, 4)) && c[9..13] == MapSeq(htonl, StatusWords(4))
    ensures c == MapSeq(htonl, SendRecvWords(cmd))
  {
    assert c == send + again[5..9] + c[9..13];
    MapConcat(htonl, SendWords(cmd), RegWords(cmd, 4));
    MapConcat(htonl, SendWords(cmd) + RegWords(cmd, 4), StatusWords(4));
  }

  method SendRecvCommand(htonl: u32 -> u32, bufio: array?<u32>, cmd: u64) returns (buf: array<u32>, n: nat)
    requires bufio != null ==> bufio.Length >= 13
    modifies bufio
    ensures Delivered(htonl, bufio, buf, 0, SendRecvWords(cmd)) && n == 52
  {
    var cmdBuf := new u32[13](_ => 0);
    FillSendRecv(htonl, cmdBuf, cmd);
    buf := HandOver(bufio, cmdBuf);
    n := 52;
  }

  // ----- what the words do -----

  /** Configuration registers with the first `n` slices in registers 4 to 7. */
  function WithSlices(c: ConfigRegs, cmd: u64, n: nat): ConfigRegs
    requires n <= 4
  {
    if n == 0 then c else WithSlices(c, cmd, n - 1)[4 + n - 1 := Slice(cmd, n - 1)]
  }

  lemma {:induction false} ExecRegs(a: Machine, es: seq<Entry>, cmd: u64, n: nat)
    requires n <= 4 && Executes(es, RegWords(cmd, n))
    ensures ExecAll(a, es) == a.(config := WithSlices(a.config, cmd, n))
  {
    if n > 0 {
      var v := Slice(cmd, n - 1);
      RegisterWords(4 + n - 1, v);
      assert RegWords(cmd, n) == RegWords(cmd, n - 1) + [Command(false, 32 + (4 + n - 1), v)];
      var init := ExecCommand(a, es, RegWords(cmd, n - 1), false, 32 + (4 + n - 1), v);
      ExecRegs(a, init, cmd, n - 1);
    }
  }

  /** What the reads of `n` status registers return: each as it was when its word was interpreted. */
  function Replies(es: seq<Entry>): seq<u32>
    requires |es| <= 4
  {
    if es == [] then [] else Replies(es[..|es|-1]) + [es[|es|-1].status[4 + |es| - 1]]
  }

  lemma {:induction false} ExecStatus(a: Machine, es: seq<Entry>, n: nat)
    requires n <= 4 && Executes(es, StatusWords(n))
    ensures |es| == n && ExecAll(a, es) == a.(out := a.out + Replies(es))
  {
    assert |CommandWords(es)| == |es|;
    if n == 0 {
      assert a.out + [] == a.out;
    } else {
      RegisterWords(4 + n - 1, 0);
      assert StatusWords(n) == StatusWords(n - 1) + [Command(true, 4 + n - 1, 0)];
      var init := ExecCommand(a, es, StatusWords(n - 1), true, 4 + n - 1, 0);
      ExecStatus(a, init, n - 1);
      assert a.out + Replies(es) == a.out + Replies(init) + [es[|es|-1].status[4 + n - 1]];
    }
  }

  /** A sent command: the four slices stand in registers 4 to 7, and only then comes the one pulse on bit 1. */
  lemma ExecSendCommand(a: Machine, es: seq<Entry>, cmd: u64)
    requires Executes(es, SendWords(cmd))
    ensures var withSlices := a.(config := WithSlices(a.config, cmd, 4));
            && |es| == 5 && ExecAll(a, es[..4]) == withSlices
            && ExecAll(a, es) == withSlices.(pulses := a.pulses + [2])
  {
    assert |CommandWords(es)| == |es|;
    assert SendWords(cmd) == RegWords(cmd, 4) + [Command(false, 11, 2)];
    var init := ExecCommand(a, es, RegWords(cmd, 4), false, 11, 2);
    ExecRegs(a, init, cmd, 4);
  }

  /** Writing the slices again changes nothing. */
  lemma SlicesTwice(c: ConfigRegs, cmd: u64)
    ensures WithSlices(WithSlices(c, cmd, 4), cmd, 4) == WithSlices(c, cmd, 4)
    ensures forall i | 0 <= i < 4 :: WithSlices(c, cmd, 4)[4 + i] == Slice(cmd, i)
    ensures forall k | 0 <= k < 32 && !(4 <= k < 8) :: WithSlices(c, cmd, 4)[k] == c[k]
  {
    var d := c[4 := Slice(cmd, 0)][5 := Slice(cmd, 1)][6 := Slice(cmd, 2)][7 := Slice(cmd, 3)];
    SlicesInOrder(c, cmd);
    SlicesInOrder(d, cmd);
  }

  lemma SlicesInOrder(c: ConfigRegs, cmd: u64)
    ensures WithSlices(c, cmd, 4) == c[4 := Slice(cmd, 0)][5 := Slice(cmd, 1)][6 := Slice(cmd, 2)][7 := Slice(cmd, 3)]
  {
    assert WithSlices(c, cmd, 2) == WithSlices(c, cmd, 1)[5 := Slice(cmd, 1)];
  }

  /** A command with reply: the slices in place, one pulse, four replies, and nothing else touched. */
  lemma ExecSendRecv(a: Machine, es: seq<Entry>, cmd: u64) returns (status: seq<Entry>)
    requires Executes(es, SendRecvWords(cmd))
    ensures |es| == 13 && status == es[9..]
    ensures ExecAll(a, es) == a.(config := WithSlices(a.config, cmd, 4), pulses := a.pulses + [2], out := a.out + Replies(status))
  {
    var front, gs := SplitExec(a, es, SendWords(cmd) + RegWords(cmd, 4), StatusWords(4));
    var sent, again := SplitExec(a, front, SendWords(cmd), RegWords(cmd, 4));
    ExecSendCommand(a, sent, cmd);
    ExecRegs(ExecAll(a, sent), again, cmd, 4);
    assert |CommandWords(again)| == |again| == 4;
    SlicesTwice(a.config, cmd);
    ExecStatus(ExecAll(a, front), gs, 4);
    status := gs;
  }

  // ----- the reply as a number -----

  /** `sip_reg_ret2num`; `n` is what was received. */
  function RegRet2Num(buf: seq<u8>, n: nat): u64
    requires n <= |buf|
  {
    if n < 16 then 0
    else
      var p: seq<nat> := buf;
      p[14] * 0x100_0000_0000_0000 + p[15] * 0x1_0000_0000_0000 + p[10] * 0x100_0000_0000 + p[11] * 0x1_0000_0000
        + p[6] * 0x100_0000 + p[7] * 0x1_0000 + p[2] * 0x100 + p[3]
  }

  /** The value whose 16-bit slices, lowest first, are in four registers. */
  function Joined(r0: u16, r1: u16, r2: u16, r3: u16): u64 {
    r0 + 0x1_0000 * (r1 + 0x1_0000 * (r2 + 0x1_0000 * r3))
  }

  lemma JoinedSlices(r0: u16, r1: u16, r2: u16, r3: u16)
    ensures var v := Joined(r0, r1, r2, r3); Slice(v, 0) == r0 && Slice(v, 1) == r1 && Slice(v, 2) == r2 && Slice(v, 3) == r3
  {
    var z := r2 + 0x1_0000 * r3;
    var y := r1 + 0x1_0000 * z;
    assert Joined(r0, r1, r2, r3) / 0x1_0000 == y && y / 0x1_0000 == z && z / 0x1_0000 == r3;
    ShiftedUnrolled(Joined(r0, r1, r2, r3));
  }

  lemma ShiftedUnrolled(v: u64)
    ensures Shifted(v, 0) == v && Shifted(v, 1) == v / 0x1_0000 && Shifted(v, 2) == v / 0x1_0000 / 0x1_0000
    ensures Shifted(v, 3) == v / 0x1_0000 / 0x1_0000 / 0x1_0000
  {
    var y := v / 0x1_0000;
    var z := y / 0x1_0000;
    assert Shifted(y, 1) == Shifted(z, 0) && Shifted(y, 2) == Shifted(z, 1) == Shifted(z / 0x1_0000, 0);
  }

  lemma SlicesJoined(v: u64)
    ensures Joined(Slice(v, 0), Slice(v, 1), Slice(v, 2), Slice(v, 3)) == v
  {
    var y := v / 0x1_0000;
    var z := y / 0x1_0000;
    ShiftedUnrolled(v);
    assert z / 0x1_0000 < 0x1_0000;
  }

  /** A register value in a reply word. */
  lemma RegisterReply(r: u16)
    ensures InMemory(BigEndian, r) == [0, 0, r / 0x100, r % 0x100]
  {
  }

  lemma WireWord(ws: seq<u32>, x: u32)
    ensures WireBytes(BigEndian, ws + [x]) == WireBytes(BigEndian, ws) + InMemory(BigEndian, x)
  {
    assert (ws + [x])[..|ws|] == ws;
  }

  /** Four reply words on the wire, most significant bytes first, are decoded to the one value whose slices are in the four
    registers. */
  lemma ReplyRoundTrip(r0: u16, r1: u16, r2: u16, r3: u16)
    ensures var b := WireBytes(BigEndian, [r0, r1, r2, r3]); |b| == 16 && RegRet2Num(b, 16) == Joined(r0, r1, r2, r3)
    ensures var v := Joined(r0, r1, r2, r3); Slice(v, 0) == r0 && Slice(v, 1) == r1 && Slice(v, 2) == r2 && Slice(v, 3) == r3
  {
    JoinedSlices(r0, r1, r2, r3);
    assert [r0, r1, r2, r3] == [] + [r0] + [r1] + [r2] + [r3];
    WireWord([], r0);
    WireWord([] + [r0], r1);
    WireWord([] + [r0] + [r1], r2);
    WireWord([] + [r0] + [r1] + [r2], r3);
    RegisterReply(r0);
    RegisterReply(r1);
    RegisterReply(r2);
    RegisterReply(r3);
    var b := WireBytes(BigEndian, [r0, r1, r2, r3]);
    assert b == [] + [0, 0, r0 / 0x100, r0 % 0x100] + [0, 0, r1 / 0x100, r1 % 0x100]
                  + [0, 0, r2 / 0x100, r2 % 0x100] + [0, 0, r3 / 0x100, r3 % 0x100];
  }

  /** The 64-bit round trip: the command leaves the host in four slices; if the reply value stands still in the status
    registers while they are read, what the host decodes is that value. */
  lemma CommandReply(a: Machine, es: seq<Entry>, cmd: u64, reply: u64)
    requires Executes(es, SendRecvWords(cmd))
    requires |es| == 13 ==> forall k | 9 <= k < 13 :: forall i | 0 <= i < 4 :: es[k].status[4 + i] == Slice(reply, i)
    ensures var b := ExecAll(a, es);
            && (forall i | 0 <= i < 4 :: b.config[4 + i] == Slice(cmd, i))
            && b.pulses == a.pulses + [2]
            && |b.out| == |a.out| + 4 && b.out[..|a.out|] == a.out
            && var wire := WireBytes(BigEndian, b.out[|a.out|..]); |wire| == 16 && RegRet2Num(wire, 16) == reply
  {
    var status := ExecSendRecv(a, es, cmd);
    SlicesTwice(a.config, cmd);
    RepliesOfValue(status, reply);
    var b := ExecAll(a, es);
    assert b.out[|a.out|..] == Replies(status);
    ReplyRoundTrip(Slice(reply, 0), Slice(reply, 1), Slice(reply, 2), Slice(reply, 3));
    SlicesJoined(reply);
  }

  lemma RepliesOfValue(es: seq<Entry>, v: u64)
    requires |es| == 4 && forall k, i | 0 <= k < 4 && 0 <= i < 4 :: es[k].status[4 + i] == Slice(v, i)
    ensures Replies(es) == [Slice(v, 0), Slice(v, 1), Slice(v, 2), Slice(v, 3)]
  {
    assert es[..3][..2] == es[..2] && es[..2][..1] == es[..1];
    assert Replies(es[..1]) == [es[0].status[4]];
    assert Replies(es[..2]) == Replies(es[..1]) + [es[1].status[5]];
    assert Replies(es[..3]) == Replies(es[..2]) + [es[2].status[6]];
  }

  lemma {:induction false} RegWork(cmd: u64, n: nat)
    requires n <= 4
    ensures var ws := RegWords(cmd, n); Work(ws, 1) == 2 * n && CountAfter(ws, 1) == 1 && ReturnedBy(ws, 1) == 0 && NoTransfer(ws)
  {
    if n > 0 {
      var v := Slice(cmd, n - 1);
      var w := Command(false, 32 + (4 + n - 1), v);
      RegisterWords(4 + n - 1, v);
      CommandFields(false, 32 + (4 + n - 1), v);
      assert RegWords(cmd, n) == RegWords(cmd, n - 1) + [w];
      RegWork(cmd, n - 1);
      AppendWork(RegWords(cmd, n - 1), w, 1);
    }
  }

  lemma {:induction false} StatusWork(n: nat)
    requires n <= 4
    ensures var ws := StatusWords(n); Work(ws, 1) == 2 * n && CountAfter(ws, 1) == 1 && ReturnedBy(ws, 1) == n && NoTransfer(ws)
  {
    if n > 0 {
      var w := Command(true, 4 + n - 1, 0);
      RegisterWords(4 + n - 1, 0);
      CommandFields(true, 4 + n - 1, 0);
      assert StatusWords(n) == StatusWords(n - 1) + [w];
      StatusWork(n - 1);
      AppendWork(StatusWords(n - 1), w, 1);
    }
  }

  /** Two clocks for each of the twelve register words, four for the pulse. */
  lemma SendRecvWork(cmd: u64)
    ensures var ws := SendRecvWords(cmd); Work(ws, 1) == 28 && ReturnedBy(ws, 1) == 4 && NoTransfer(ws)
  {
    var regs, pulse, status := RegWords(cmd, 4), Command(false, 11, 2), StatusWords(4);
    CommandFields(false, 11, 2);
    RegWork(cmd, 4);
    StatusWork(4);
    AppendWork(regs, pulse, 1);
    WorkConcat(regs + [pulse], regs, 1);
    ReturnedConcat(regs + [pulse], regs, 1);
    NoTransferConcat(regs + [pulse], regs);
    WorkConcat(regs + [pulse] + regs, status, 1);
    ReturnedConcat(regs + [pulse] + regs, status, 1);
    NoTransferConcat(regs + [pulse] + regs, status);
  }

  /** The pulse comes with the command in place. */
  ghost predicate SlicesAtPulse(s: System, cmd: u64) {
    s.regs.pulseReg != 0 ==> s.regs.pulseReg == 2 && forall i | 0 <= i < 4 :: s.regs.configReg[4 + i] == Slice(cmd, i)
  }

  lemma {:induction false} RegNoPulse(cmd: u64, n: nat)
    requires n <= 4
    ensures NoPulse(RegWords(cmd, n))
  {
    if n > 0 {
      RegNoPulse(cmd, n - 1);
      RegisterWords(4 + n - 1, Slice(cmd, n - 1));
      CommandFields(false, 32 + (4 + n - 1), Slice(cmd, n - 1));
    }
  }

  lemma {:induction false} StatusNoPulse(n: nat)
    requires n <= 4
    ensures NoPulse(StatusWords(n))
  {
    if n > 0 {
      StatusNoPulse(n - 1);
      RegisterWords(4 + n - 1, 0);
      CommandFields(true, 4 + n - 1, 0);
    }
  }

  lemma OnePulseIn(cmd: u64)
    ensures var regs, pulse, rest := RegWords(cmd, 4), Command(false, 11, 2), RegWords(cmd, 4) + StatusWords(4);
            && SendWords(cmd) == regs + [pulse] && SendRecvWords(cmd) == regs + [pulse] + rest
            && NoPulse(regs) && NoPulse(rest) && IsPulse(pulse, 2)
  {
    CommandFields(false, 11, 2);
    RegNoPulse(cmd, 4);
    StatusNoPulse(4);
  }

  lemma SlicesThere(s: System, mem: Memory, cmd: u64)
    requires PulseOfLast(s) && s.regs.pulseReg != 0 && CommandWords(s.trace.entries) + s.cmdQ <= SendRecvWords(cmd)
    requires s.regs.configReg == ExecAll(Start(mem), s.trace.entries).config
    ensures SlicesAtPulse(s, cmd)
  {
    var regs, pulse, rest := RegWords(cmd, 4), Command(false, 11, 2), RegWords(cmd, 4) + StatusWords(4);
    OnePulseIn(cmd);
    OnlyPulse(s, regs, pulse, rest);
    ExecSendCommand(Start(mem), s.trace.entries, cmd);
    SlicesTwice(Start(mem).config, cmd);
    LastWord(s.trace.entries, regs, pulse);
  }

  /** At every clock of any run: no pulse before the slices are in place. */
  lemma SlicesBeforePulse(cap: nat, s: System, ins: seq<Inputs>, mem: Memory, cmd: u64)
    requires IsReset(s, mem) && RoomThroughout(cap, s, ins) && Arrivals(ins) <= SendRecvWords(cmd)
    ensures SlicesAtPulse(Run(cap, s, ins), cmd)
  {
    if Run(cap, s, ins).regs.pulseReg != 0 {
      PulseOfLastRun(cap, s, ins, mem);
      PulseShows(cap, s, ins, mem);
      InterpretedOnceInOrder(cap, s, ins, mem);
      ArrivedIsArrivals(cap, s, ins, mem);
      SlicesThere(Run(cap, s, ins), mem, cmd);
    }
  }

  lemma SlicesThroughout(cap: nat, s: System, before: seq<Inputs>, after: seq<Inputs>, mem: Memory, cmd: u64)
    requires IsReset(s, mem) && RoomThroughout(cap, s, before + after)
    requires Arrivals(before) == SendRecvWords(cmd) && Quiet(after)
    ensures forall k | 0 <= k <= |before + after| :: SlicesAtPulse(Run(cap, s, (before + after)[..k]), cmd)
  {
    var ins := before + after;
    ArrivalsThenQuiet(before, after);
    forall k | 0 <= k <= |ins| ensures SlicesAtPulse(Run(cap, s, ins[..k]), cmd) {
      RoomForPrefix(cap, s, ins, k);
      ArrivalsPrefix(ins, k);
      SlicesBeforePulse(cap, s, ins[..k], mem, cmd);
    }
  }

  /** The same over any clocking of the machine, under every back-pressure that leaves room, with the clocks the words
    cost; and at every clock of the pulse the slices are in place. The status registers may do anything except while they
    are read. */
  lemma CommandOverMachine(
      cap: nat, s: System, before: seq<Inputs>, after: seq<Inputs>, mem: Memory, cmd: u64, reply: u64)
    requires IsReset(s, mem) && RoomForWords(cap, s, before + after)
    requires Arrivals(before) == SendRecvWords(cmd) && Quiet(after) && FreeClocks(cap, s, before, after) >= 30
    requires ReplyStands(Run(cap, s, before + after).trace.entries, reply)
    ensures var s' := Run(cap, s, before + after); AtRest(s') && s'.cmdQ == [] && CommandDone(s', mem, cmd, reply)
    ensures forall k | 0 <= k <= |before + after| :: SlicesAtPulse(Run(cap, s, (before + after)[..k]), cmd)
  {
    RoomForWordsSuffices(cap, s, before + after);
    SlicesThroughout(cap, s, before, after, mem, cmd);
    SendRecvWork(cmd);
    Completes(cap, s, before, after, SendRecvWords(cmd), mem);
    CommandAtRest(cap, s, before + after, mem, cmd, reply);
  }

  /** With room for the four replies it takes nothing but thirty clocks. */
  lemma CommandOverDeepMachine(
      cap: nat, s: System, before: seq<Inputs>, after: seq<Inputs>, mem: Memory, cmd: u64, reply: u64)
    requires IsReset(s, mem) && cap >= 4
    requires Arrivals(before) == SendRecvWords(cmd) && Quiet(after) && |after| >= 30
    requires ReplyStands(Run(cap, s, before + after).trace.entries, reply)
    ensures var s' := Run(cap, s, before + after); AtRest(s') && s'.cmdQ == [] && CommandDone(s', mem, cmd, reply)
    ensures forall k | 0 <= k <= |before + after| :: SlicesAtPulse(Run(cap, s, (before + after)[..k]), cmd)
  {
    SendRecvWork(cmd);
    ServedWhenDeep(cap, s, before, after, SendRecvWords(cmd), mem);
    SlicesThroughout(cap, s, before, after, mem, cmd);
    Completes(cap, s, before, after, SendRecvWords(cmd), mem);
    CommandAtRest(cap, s, before + after, mem, cmd, reply);
  }

  /** The command stands in its registers, one pulse of three clocks has been given, the memory is untouched, and what the
    host receives decodes to the reply. */
  ghost predicate CommandDone(s: System, mem: Memory, cmd: u64, reply: u64) {
    && (forall i | 0 <= i < 4 :: s.regs.configReg[4 + i] == Slice(cmd, i))
    && s.trace.pulseHigh == [2, 2, 2] && s.mem == mem
    && var wire := WireBytes(BigEndian, s.trace.hostGot + s.outQ); |wire| == 16 && RegRet2Num(wire, 16) == reply
  }

  lemma CommandAtRest(cap: nat, s: System, ins: seq<Inputs>, mem: Memory, cmd: u64, reply: u64)
    requires IsReset(s, mem) && RoomForWords(cap, s, ins)
    requires var s' := Run(cap, s, ins); s'.trace.arrived == SendRecvWords(cmd) && s'.cmdQ == [] && AtRest(s')
    requires ReplyStands(Run(cap, s, ins).trace.entries, reply)
    ensures CommandDone(Run(cap, s, ins), mem, cmd, reply)
  {
    var s' := Run(cap, s, ins);
    var es := s'.trace.entries;
    RoomForWordsSuffices(cap, s, ins);
    InterpretedOnceInOrder(cap, s, ins, mem);
    assert CommandWords(es) + [] == CommandWords(es);
    AtRestAgrees(cap, s, ins, mem);
    NothingLost(cap, s, ins, mem);
    OutputIsPrefix(cap, s, ins, mem);
    FromReset(mem, es, cmd, reply);
    OnePulse(2);
  }

  /** The reads of the status registers see the slices of `reply`. */
  predicate ReplyStands(es: seq<Entry>, reply: u64) {
    forall e, i | e in es && IsRead(e.word) && 0 <= i < 4 :: e.status[4 + i] == Slice(reply, i)
  }

  lemma FromReset(mem: Memory, es: seq<Entry>, cmd: u64, reply: u64)
    requires Executes(es, SendRecvWords(cmd)) && ReplyStands(es, reply)
    ensures var b := ExecAll(Start(mem), es);
            && (forall i | 0 <= i < 4 :: b.config[4 + i] == Slice(cmd, i))
            && b.pulses == [2] && b.mem == mem
            && var wire := WireBytes(BigEndian, b.out); |wire| == 16 && RegRet2Num(wire, 16) == reply
  {
    var status := ExecSendRecv(Start(mem), es, cmd);
    forall k | 9 <= k < 13 ensures forall i | 0 <= i < 4 :: es[k].status[4 + i] == Slice(reply, i) {
      LastFourRead(es, cmd, k);
      assert es[k] in es;
    }
    CommandReply(Start(mem), es, cmd, reply);
    var b := ExecAll(Start(mem), es);
    assert b.out[0..] == b.out;
  }

  lemma LastFourRead(es: seq<Entry>, cmd: u64, k: nat)
    requires Executes(es, SendRecvWords(cmd)) && |es| == 13 && 9 <= k < 13
    ensures IsRead(es[k].word)
  {
    assert es[k].word == CommandWords(es)[k] == StatusWords(4)[k - 9];
    StatusWordRead(4, k - 9);
  }

  lemma {:induction false} StatusWordRead(n: nat, k: nat)
    requires k < n <= 4
    ensures IsRead(StatusWords(n)[k])
  {
    if k < n - 1 {
      StatusWordRead(n - 1, k);
      assert StatusWords(n)[k] == StatusWords(n - 1)[k];
    } else {
      RegisterWords(4 + k, 0);
      CommandFields(true, 4 + k, 0);
    }
  }

  // ----- register accesses -----

  /** Bitwise or. */
  function Or(a: nat, b: nat): nat {
    if a == 0 then b else if b == 0 then a else (if a % 2 == 1 || b % 2 == 1 then 1 else 0) + 2 * Or(a / 2, b / 2)
  }

  lemma {:induction false} ShlIs(x: nat, k: nat)
    ensures Shl(x, k) == x * Pow2(k)
  {
    if k > 0 {
      ShlIs(x, k - 1);
      assert x * Pow2(k) == 2 * (x * Pow2(k - 1));
    }
  }

  lemma {:induction false} ShlZero(x: nat, k: nat)
    ensures Shl(x, k) == 0 <==> x == 0
  {
    if k > 0 {
      ShlZero(x, k - 1);
    }
  }

  /** An or with nothing in its first operand below bit `k` keeps the lower bits of the second, and is an or above them. */
  lemma {:induction false} OrHigh(a: nat, b: nat, r: nat, k: nat)
    requires r < Pow2(k)
    ensures Or(Shl(a, k), Shl(b, k) + r) == Shl(Or(a, b), k) + r
  {
    if k > 0 {
      OrHigh(a, b, r / 2, k - 1);
      ShlZero(a, k);
      ShlZero(b, k);
      ShlZero(Or(a, b), k);
      assert Shl(a, k) / 2 == Shl(a, k - 1) && Shl(a, k) % 2 == 0;
      assert (Shl(b, k) + r) / 2 == Shl(b, k - 1) + r / 2 && (Shl(b, k) + r) % 2 == r % 2;
    }
  }

  lemma {:induction false} OrBound(a: nat, b: nat, k: nat)
    requires a < Pow2(k) && b < Pow2(k)
    ensures Or(a, b) < Pow2(k)
  {
    if k > 0 && a != 0 && b != 0 {
      OrBound(a / 2, b / 2, k - 1);
    }
  }

  const CMD_OPCODE_WRITE := 1
  const CMD_OPCODE_READ := 2

  type u28 = x: nat | x < 0x1000_0000

  /** The four bits of an address that meet the opcode, and the others. */
  function AddrHigh(addr: u32): u4 { addr / 0x1000_0000 }
  function AddrLow(addr: u32): u28 { addr % 0x1000_0000 }

  /** `(opcode << 60) | (addr << 32) | data` */
  function Packed(opcode: u4, addr: u32, data: u32): nat {
    Or(Or(Or(0, opcode * 0x1000_0000_0000_0000), addr * 0x1_0000_0000), data)
  }

  function Pack(opcode: u4, addr: u32, data: u32): u64 {
    PackedFields(opcode, addr, data);
    Packed(opcode, addr, data)
  }

  lemma FourMore(k: nat, m: nat)
    requires Pow2(k) == m
    ensures Pow2(k + 4) == 16 * m
  {
    assert Pow2(k + 1) == 2 * m && Pow2(k + 2) == 4 * m && Pow2(k + 3) == 8 * m;
  }

  lemma Powers()
    ensures Pow2(4) == 16 && Pow2(32) == 0x1_0000_0000 && Pow2(60) == 0x1000_0000_0000_0000
  {
    FourMore(0, 0x1);
    FourMore(4, 0x10);
    FourMore(8, 0x100);
    FourMore(12, 0x1000);
    FourMore(16, 0x1_0000);
    FourMore(20, 0x10_0000);
    FourMore(24, 0x100_0000);
    FourMore(28, 0x1000_0000);
    FourMore(32, 0x1_0000_0000);
    FourMore(36, 0x10_0000_0000);
    FourMore(40, 0x100_0000_0000);
    FourMore(44, 0x1000_0000_0000);
    FourMore(48, 0x1_0000_0000_0000);
    FourMore(52, 0x10_0000_0000_0000);
    FourMore(56, 0x100_0000_0000_0000);
  }

  lemma OpcodeAndAddress(opcode: u4, high: u4, low: nat)
    requires low < 0x1000_0000
    ensures var op: nat, h: nat, top := opcode, high, Or(opcode, high);
            top < 16
            && Or(op * 0x1000_0000_0000_0000, h * 0x1000_0000_0000_0000 + low * 0x1_0000_0000)
               == top * 0x1000_0000_0000_0000 + low * 0x1_0000_0000
  {
    Powers();
    OrBound(opcode, high, 4);
    OrHigh(opcode, high, low * 0x1_0000_0000, 60);
    ShlIs(opcode, 60);
    ShlIs(high, 60);
    ShlIs(Or(opcode, high), 60);
  }

  lemma AndData(upper: nat, data: nat)
    requires data < 0x1_0000_0000
    ensures Or(upper * 0x1_0000_0000, data) == upper * 0x1_0000_0000 + data
  {
    Powers();
    OrHigh(upper, 0, data, 32);
    ShlIs(upper, 32);
    ShlIs(0, 32);
  }

  /** What is in a packed command. */
  lemma PackedFields(opcode: u4, addr: u32, data: u32)
    ensures var top: nat, low: nat := Or(opcode, AddrHigh(addr)), AddrLow(addr);
            top < 16 && Packed(opcode, addr, data) == top * 0x1000_0000_0000_0000 + low * 0x1_0000_0000 + data
  {
    var top: nat, high: nat, low: nat := Or(opcode, AddrHigh(addr)), AddrHigh(addr), AddrLow(addr);
    assert addr == high * 0x1000_0000 + low;
    OpcodeAndAddress(opcode, high, low);
    AndData(top * 0x1000_0000 + low, data);
  }

  /** The three fields of a packed command: the data always come out of it again, the address exactly when it leaves the
    opcode's four bits alone, and the opcode exactly when the address adds no bit to it. */
  lemma PackRoundTrip(opcode: u4, addr: u32, data: u32)
    ensures var c: nat := Pack(opcode, addr, data);
            && c % 0x1_0000_0000 == data
            && (c / 0x1_0000_0000 % 0x1000_0000 == addr <==> addr < 0x1000_0000)
            && (c / 0x1000_0000_0000_0000 == opcode <==> Or(opcode, addr / 0x1000_0000) == opcode)
  {
    PackedFields(opcode, addr, data);
    FieldsOut(Or(opcode, AddrHigh(addr)), AddrLow(addr), data);
  }

  lemma FieldsOut(top: nat, low: nat, data: nat)
    requires low < 0x1000_0000 && data < 0x1_0000_0000
    ensures var c := top * 0x1000_0000_0000_0000 + low * 0x1_0000_0000 + data;
            c % 0x1_0000_0000 == data && c / 0x1_0000_0000 % 0x1000_0000 == low && c / 0x1000_0000_0000_0000 == top
  {
    var c := top * 0x1000_0000_0000_0000 + low * 0x1_0000_0000 + data;
    DivUnique(c, top * 0x1000_0000 + low, data, 0x1_0000_0000);
    DivUnique(top * 0x1000_0000 + low, top, low, 0x1000_0000);
    DivUnique(c, top, low * 0x1_0000_0000 + data, 0x1000_0000_0000_0000);
  }

  /** The registers that carry a packed command: 4 and 5 the data, 6 and 7 the address with the opcode above it. */
  lemma PackedSlices(opcode: u4, addr: u32, data: u32)
    ensures var c, top: nat, low: nat := Pack(opcode, addr, data), Or(opcode, AddrHigh(addr)), AddrLow(addr);
            && Slice(c, 0) == Low16(data) && Slice(c, 1) == High16(data)
            && Slice(c, 2) == Low16(addr) && Slice(c, 3) == top * 0x1000 + low / 0x1_0000
  {
    var top: nat, low: nat := Or(opcode, AddrHigh(addr)), AddrLow(addr);
    PackedFields(opcode, addr, data);
    SameLow(addr);
    SlicesOfFields(Pack(opcode, addr, data), top, low, data);
  }

  lemma SlicesOfFields(c: u64, top: nat, low: nat, data: u32)
    requires top < 16 && low < 0x1000_0000 && c == top * 0x1000_0000_0000_0000 + low * 0x1_0000_0000 + data
    ensures Slice(c, 0) == Low16(data) && Slice(c, 1) == High16(data)
    ensures Slice(c, 2) == Low16(low) && Slice(c, 3) == top * 0x1000 + low / 0x1_0000
  {
    FieldsJoined(top, low, data);
    JoinedSlices(Low16(data), High16(data), Low16(low), top * 0x1000 + low / 0x1_0000);
  }

  lemma SameLow(addr: u32)
    ensures Low16(AddrLow(addr)) == Low16(addr)
  {
    var h: nat, l: nat := addr / 0x1000_0000, addr % 0x1000_0000;
    AddMultiple(h * 0x1000, l, 0x1_0000);
    assert addr == h * 0x1000 * 0x1_0000 + l;
  }

  lemma FieldsJoined(top: nat, low: nat, data: u32)
    requires top < 16 && low < 0x1000_0000
    ensures top * 0x1000_0000_0000_0000 + low * 0x1_0000_0000 + data
         == Joined(Low16(data), High16(data), Low16(low), top * 0x1000 + low / 0x1_0000)
  {
    var h: nat, l: nat := low / 0x1_0000, low % 0x1_0000;
    var dh: nat, dl: nat := data / 0x1_0000, data % 0x1_0000;
    assert low == h * 0x1_0000 + l && data == dh * 0x1_0000 + dl;
  }

  /** `sip_write_reg` */
  method WriteReg(htonl: u32 -> u32, bufio: array?<u32>, addr: u32, data: u32) returns (buf: array<u32>, n: nat)
    requires bufio != null ==> bufio.Length >= 5
    modifies bufio
    ensures Delivered(htonl, bufio, buf, 0, SendWords(Pack(1, addr, data))) && n == 20
  {
    var cmd := 0;
    cmd := Or(cmd, CMD_OPCODE_WRITE * 0x1000_0000_0000_0000);
    cmd := Or(cmd, addr * 0x1_0000_0000);
    cmd := Or(cmd, data);
    PackedFields(CMD_OPCODE_WRITE, addr, data);
    buf, n := SendCommand(htonl, bufio, cmd);
  }

  /** `sip_read_reg` */
  method ReadReg(htonl: u32 -> u32, bufio: array?<u32>, addr: u32) returns (buf: array<u32>, n: nat)
    requires bufio != null ==> bufio.Length >= 13
    modifies bufio
    ensures Delivered(htonl, bufio, buf, 0, SendRecvWords(Pack(2, addr, 0))) && n == 52
  {
    var cmd := 0;
    cmd := Or(cmd, CMD_OPCODE_READ * 0x1000_0000_0000_0000);
    cmd := Or(cmd, addr * 0x1_0000_0000);
    OrZero(cmd);
    PackedFields(CMD_OPCODE_READ, addr, 0);
    buf, n := SendRecvCommand(htonl, bufio, cmd);
  }

  lemma OrZero(x: nat)
    ensures Or(x, 0) == x
  {
  }

  /** `or` bit by bit. */
  lemma {:induction false} OrBits(a: nat, b: nat, i: nat)
    ensures Shr(Or(a, b), i) % 2 == 1 <==> Shr(a, i) % 2 == 1 || Shr(b, i) % 2 == 1
  {
    if a == 0 || b == 0 {
      ShrOfZero(i);
    } else if i > 0 {
      OrBits(a / 2, b / 2, i - 1);
    }
  }

  lemma {:induction false} ShrOfZero(i: nat)
    ensures Shr(0, i) == 0
  {
    if i > 0 {
      ShrOfZero(i - 1);
    }
  }

  /** What a register access leaves in registers 4 to 7, with `op` in front of the address: the data, the low half of the
    address, and above it the operation. */
  ghost predicate Carries(c: ConfigRegs, op: u4, addr: u32, data: u32) {
    && c[4] == data % 0x1_0000 && c[5] == data / 0x1_0000 && c[6] == addr % 0x1_0000
    && c[7] == Or(op, addr / 0x1000_0000) * 0x1000 + addr % 0x1000_0000 / 0x1_0000
    && (addr < 0x1000_0000 ==> c[7] == op * 0x1000 + addr / 0x1_0000)
  }

  lemma SlicesCarry(c: ConfigRegs, op: u4, addr: u32, data: u32)
    requires forall i | 0 <= i < 4 :: c[4 + i] == Slice(Pack(op, addr, data), i)
    ensures Carries(c, op, addr, data)
  {
    PackedSlices(op, addr, data);
    assert c[4 + 0] == c[4] && c[4 + 1] == c[5] && c[4 + 2] == c[6] && c[4 + 3] == c[7];
    OrZero(op);
  }

  /** Executing a register write: the registers carry operation 1, its address and its data, one pulse is given on bit 1, and
    nothing else is touched. */
  lemma ExecWriteReg(a: Machine, es: seq<Entry>, addr: u32, data: u32)
    requires Executes(es, SendWords(Pack(1, addr, data)))
    ensures var b := ExecAll(a, es);
            && Carries(b.config, 1, addr, data) && (forall k | 0 <= k < 32 && !(4 <= k < 8) :: b.config[k] == a.config[k])
            && b == a.(config := b.config, pulses := a.pulses + [2])
  {
    var cmd := Pack(1, addr, data);
    ExecSendCommand(a, es, cmd);
    SlicesTwice(a.config, cmd);
    SlicesCarry(ExecAll(a, es).config, 1, addr, data);
  }

  /** Executing a register read: they carry operation 2, its address and zeros; four replies come back. */
  lemma ExecReadReg(a: Machine, es: seq<Entry>, addr: u32)
    requires Executes(es, SendRecvWords(Pack(2, addr, 0)))
    ensures var b := ExecAll(a, es);
            && Carries(b.config, 2, addr, 0) && (forall k | 0 <= k < 32 && !(4 <= k < 8) :: b.config[k] == a.config[k])
            && |b.out| == |a.out| + 4 && b.out[..|a.out|] == a.out
            && b == a.(config := b.config, pulses := a.pulses + [2], out := b.out)
  {
    var cmd := Pack(2, addr, 0);
    var status := ExecSendRecv(a, es, cmd);
    SlicesTwice(a.config, cmd);
    SlicesCarry(ExecAll(a, es).config, 2, addr, 0);
    FourReplies(status);
  }

  lemma FourReplies(es: seq<Entry>)
    requires |es| <= 4
    ensures |Replies(es)| == |es|
  {
  }

  lemma SendWork(cmd: u64)
    ensures var ws := SendWords(cmd); Work(ws, 1) == 12 && ReturnedBy(ws, 1) == 0 && NoTransfer(ws)
  {
    CommandFields(false, 11, 2);
    RegWork(cmd, 4);
    AppendWork(RegWords(cmd, 4), Command(false, 11, 2), 1);
  }

  lemma SendIsPrefix(cmd: u64)
    ensures SendWords(cmd) <= SendRecvWords(cmd)
  {
  }

  /** The host writes a register of the digitiser: fourteen clocks behind its words, whatever the surroundings do, the
    command stands in registers 4 to 7 and one pulse of three clocks has been given, at each of which it stood there. */
  lemma WriteRegOverMachine(
      cap: nat, s: System, before: seq<Inputs>, after: seq<Inputs>, mem: Memory, addr: u32, data: u32)
    requires IsReset(s, mem) && Arrivals(before) == SendWords(Pack(1, addr, data))
    requires Quiet(after) && |after| >= 14
    ensures var s' := Run(cap, s, before + after);
            && AtRest(s') && s'.cmdQ == [] && Carries(s'.regs.configReg, 1, addr, data)
            && s'.trace.pulseHigh == [2, 2, 2] && s'.trace.issued == [] && s'.mem == mem
    ensures forall k | 0 <= k <= |before + after| ::
              var r := Run(cap, s, (before + after)[..k]).regs;
              r.pulseReg != 0 ==> r.pulseReg == 2 && Carries(r.configReg, 1, addr, data)
  {
    var cmd, ins := Pack(1, addr, data), before + after;
    SendWork(cmd);
    ServedWhenDeep(cap, s, before, after, SendWords(cmd), mem);
    Completes(cap, s, before, after, SendWords(cmd), mem);
    AtRestAgrees(cap, s, ins, mem);
    ExecWriteReg(Start(mem), Run(cap, s, ins).trace.entries, addr, data);
    OnePulse(2);
    ArrivalsThenQuiet(before, after);
    SendIsPrefix(cmd);
    forall k | 0 <= k <= |ins|
      ensures var r := Run(cap, s, ins[..k]).regs; r.pulseReg != 0 ==> r.pulseReg == 2 && Carries(r.configReg, 1, addr, data)
    {
      RoomForPrefix(cap, s, ins, k);
      ArrivalsPrefix(ins, k);
      SlicesBeforePulse(cap, s, ins[..k], mem, cmd);
      CarriedAtPulse(Run(cap, s, ins[..k]), 1, addr, data);
    }
  }

  lemma CarriedAtPulse(s: System, op: u4, addr: u32, data: u32)
    requires SlicesAtPulse(s, Pack(op, addr, data))
    ensures s.regs.pulseReg != 0 ==> s.regs.pulseReg == 2 && Carries(s.regs.configReg, op, addr, data)
  {
    if s.regs.pulseReg != 0 {
      SlicesCarry(s.regs.configReg, op, addr, data);
    }
  }

  /** The host reads one: with room for the four replies and thirty clocks the board has been asked with operation 2, at each
    clock of the pulse, and the host decodes what the status registers held. */
  lemma ReadRegOverMachine(
      cap: nat, s: System, before: seq<Inputs>, after: seq<Inputs>, mem: Memory, addr: u32, reply: u64)
    requires IsReset(s, mem) && cap >= 4 && Arrivals(before) == SendRecvWords(Pack(2, addr, 0))
    requires Quiet(after) && |after| >= 30 && ReplyStands(Run(cap, s, before + after).trace.entries, reply)
    ensures var s' := Run(cap, s, before + after);
            && AtRest(s') && s'.cmdQ == [] && Carries(s'.regs.configReg, 2, addr, 0) && s'.trace.pulseHigh == [2, 2, 2]
            && var wire := WireBytes(BigEndian, s'.trace.hostGot + s'.outQ); |wire| == 16 && RegRet2Num(wire, 16) == reply
    ensures forall k | 0 <= k <= |before + after| ::
              var r := Run(cap, s, (before + after)[..k]).regs;
              r.pulseReg != 0 ==> r.pulseReg == 2 && Carries(r.configReg, 2, addr, 0)
  {
    var cmd, ins := Pack(2, addr, 0), before + after;
    CommandOverDeepMachine(cap, s, before, after, mem, cmd, reply);
    SlicesCarry(Run(cap, s, ins).regs.configReg, 2, addr, 0);
    forall k | 0 <= k <= |ins|
      ensures var r := Run(cap, s, ins[..k]).regs; r.pulseReg != 0 ==> r.pulseReg == 2 && Carries(r.configReg, 2, addr, 0)
    {
      CarriedAtPulse(Run(cap, s, ins[..k]), 2, addr, 0);
    }
  }
}
