/** The frames that the host asks for are the frames on the wire. */
module TgeEndToEnd {
  import opened Arith
  import opened Words
  import opened Network
  import opened Tge
  import opened TgeFrames
  import opened TgeSend
  import opened Commands
  import opened Interpreter
  import opened CommandSystem
  import opened CommandRefinement
  import opened CommandTheorems
  import opened CommandProgress
  import opened CommandPulse
  import opened HostMemory
  import B = Board
  import F = FrameParsing
  import G = PacketGen
  import P = RxParser
  import S = Sip

  /** What comes before the pulse of a send. */
  function BeforePulse(vals: seq<u32>, length: u32): seq<u32> {
    WriteMemoryWords(0, vals) + [Command(false, 32, Low16(length))]
  }

  /** The words of a send: first the frame goes to memory and its length to configuration register 0, and only after both
    comes one pulse on bit 0, which starts the streamer. */
  lemma ExecSend(a: Machine, es: seq<Entry>, vals: seq<u32>, length: u32)
    requires Executes(es, SendWords(vals, length))
    ensures es != []
    ensures var ready := AfterWrite(a, 0, vals).(config := a.config[0 := Low16(length)]);
            ExecAll(a, es[..|es|-1]) == ready && ExecAll(a, es) == ready.(pulses := a.pulses + [1])
  {
    SendSplit(vals, length);
    var w := WriteMemoryWords(0, vals);
    var es2 := ExecCommand(a, es, BeforePulse(vals, length), false, 11, 1);
    var es1 := ExecCommand(a, es2, w, false, 32, Low16(length));
    ExecWriteMemory(a, es1, 0, vals);
  }

  lemma SendSplit(vals: seq<u32>, length: u32)
    ensures SendWords(vals, length) == BeforePulse(vals, length) + [Command(false, 11, 1)]
    ensures NoPulse(BeforePulse(vals, length)) && IsPulse(Command(false, 11, 1), 1)
  {
    RegisterWords(0, length);
    CommandFields(false, 11, 1);
    CommandFields(false, 32, Low16(length));
    WriteNoPulse(0, vals);
  }

  lemma WriteNoPulse(addr: u32, vals: seq<u32>)
    ensures NoPulse(WriteMemoryWords(addr, vals))
  {
    CommandFields(false, 17, Low16(addr));
    CommandFields(false, 18, High16(addr));
    DataNoPulse(vals);
  }

  lemma {:induction false} DataNoPulse(vals: seq<u32>)
    ensures NoPulse(DataWords(vals))
  {
    if vals != [] {
      DataNoPulse(vals[..|vals|-1]);
      CommandFields(false, 19, Low16(vals[|vals|-1]));
      CommandFields(false, 20, High16(vals[|vals|-1]));
    }
  }

  /** At every clock of a run at which PULSE_REG is not zero the frame and its length are in place. */
  lemma FrameAtPulse(cap: nat, s: System, ins: seq<Inputs>, mem: Memory, vals: seq<u32>, length: u32)
    requires IsReset(s, mem) && RoomThroughout(cap, s, ins) && Arrivals(ins) <= SendWords(vals, length)
    requires Run(cap, s, ins).regs.pulseReg != 0
    ensures FrameReady(Run(cap, s, ins), mem, vals, length) && Run(cap, s, ins).regs.pulseReg == 1
  {
    SendSplit(vals, length);
    PulseOfLastRun(cap, s, ins, mem);
    PulseShows(cap, s, ins, mem);
    InterpretedOnceInOrder(cap, s, ins, mem);
    ArrivedIsArrivals(cap, s, ins, mem);
    ReadyAtPulse(Run(cap, s, ins), mem, vals, length);
  }

  ghost predicate FrameReady(s: System, mem: Memory, vals: seq<u32>, length: u32) {
    s.mem == Stored(mem, 0, vals) && s.regs.configReg[0] == Low16(length)
  }

  lemma ReadyAtPulse(s: System, mem: Memory, vals: seq<u32>, length: u32)
    requires PulseOfLast(s) && s.regs.pulseReg != 0 && CommandWords(s.trace.entries) + s.cmdQ <= SendWords(vals, length)
    requires var a := ExecAll(Start(mem), s.trace.entries); s.regs.configReg == a.config && s.mem == a.mem
    ensures FrameReady(s, mem, vals, length) && s.regs.pulseReg == 1
  {
    var es, w := s.trace.entries, Command(false, 11, 1);
    SendSplit(vals, length);
    AllAtPulse(s, BeforePulse(vals, length), w);
    SendFromReset(mem, es, vals, length);
    LastWord(es, BeforePulse(vals, length), w);
  }

  /** The same, over any clocking of the machine, with the clocks the words cost: in the end everything is in place, one
    pulse has been given, and at each of its clocks the frame and its length were already there. */
  lemma SendReachesRam(
      cap: nat, s: System, before: seq<Inputs>, after: seq<Inputs>, mem: Memory, vals: seq<u32>, length: u32)
    requires IsReset(s, mem) && Arrivals(before) == SendWords(vals, length)
    requires Quiet(after) && |after| >= 5 * |vals| + 12
    ensures var s' := Run(cap, s, before + after);
            && AtRest(s') && s'.cmdQ == [] && FrameReady(s', mem, vals, length)
            && s'.trace.pulseHigh == [1, 1, 1] && s'.trace.issued == []
    ensures forall k | 0 <= k <= |before + after| ::
              var s' := Run(cap, s, (before + after)[..k]); s'.regs.pulseReg != 0 ==> FrameReady(s', mem, vals, length)
  {
    var words, ins := SendWords(vals, length), before + after;
    SendWork(vals, length);
    ServedWhenDeep(cap, s, before, after, words, mem);
    Completes(cap, s, before, after, words, mem);
    AtRestAgrees(cap, s, ins, mem);
    SendFromReset(mem, Run(cap, s, ins).trace.entries, vals, length);
    OnePulse(1);
    ArrivalsThenQuiet(before, after);
    forall k | 0 <= k <= |ins|
      ensures var s' := Run(cap, s, ins[..k]); s'.regs.pulseReg != 0 ==> FrameReady(s', mem, vals, length)
    {
      if Run(cap, s, ins[..k]).regs.pulseReg != 0 {
        RoomForPrefix(cap, s, ins, k);
        ArrivalsPrefix(ins, k);
        FrameAtPulse(cap, s, ins[..k], mem, vals, length);
      }
    }
  }

  /** What a send costs: a block write, a register write and a pulse. */
  lemma SendWork(vals: seq<u32>, length: u32)
    ensures var ws := SendWords(vals, length);
            Work(ws, 1) == 5 * |vals| + 10 && ReturnedBy(ws, 1) == 0 && NoTransfer(ws)
  {
    var write, reg, pulse := WriteMemoryWords(0, vals), Command(false, 32, Low16(length)), Command(false, 11, 1);
    RegisterWords(0, length);
    CommandFields(false, 32, Low16(length));
    CommandFields(false, 11, 1);
    WriteWork(0, vals, 1);
    AppendWork(write, reg, 1);
    AppendWork(write + [reg], pulse, 1);
  }

  lemma SendFromReset(mem: Memory, es: seq<Entry>, vals: seq<u32>, length: u32)
    requires Executes(es, SendWords(vals, length))
    ensures var a := ExecAll(Start(mem), es);
            a.mem == Stored(mem, 0, vals) && a.config[0] == Low16(length) && a.pulses == [1] && a.out == []
  {
    ExecSend(Start(mem), es, vals, length);
  }

  /** The RAM after a frame buffer has been stored. */
  function FrameRam(host: Host, mem: Memory, ws: seq<u16>): G.Ram {
    RamOf(Stored(mem, 0, AsU32(host, MapSeq(Htons(host), ws))))
  }

  lemma {:induction false} LittleEndianSlice(mem: Memory, ws: seq<u16>, n: nat, len: nat, ctr: G.u48)
    requires |ws| == 2 * n && n <= 4096 && len <= 42 && len <= 4 * n
    ensures G.PacketSlice(FrameRam(LittleEndian, mem, ws), ctr, 0, len) == BytesOf(ws)[..len]
  {
    var ram, bytes := FrameRam(LittleEndian, mem, ws), BytesOf(ws);
    forall j | 0 <= j < len ensures G.PacketByte(ram, ctr, 0 + j) == bytes[j] {
      StoredFrameByte(LittleEndian, mem, ws, n, ctr, j);
    }
    assert G.PacketSlice(ram, ctr, 0, len) == bytes[..len];
  }

  lemma ArpPaddedBytes(srcMac: u64, srcIp: u32, dstMac: u64, dstIp: u32)
    ensures BytesOf(ArpPadded(srcMac, srcIp, dstMac, dstIp)) == ArpReplyBytes(srcMac, srcIp, dstMac, dstIp) + [0, 0]
    ensures |ArpReplyBytes(srcMac, srcIp, dstMac, dstIp)| == 42
  {
    ArpIsItsBytes(srcMac, srcIp, dstMac, dstIp);
    BytesConcat(ArpWords(srcMac, srcIp, dstMac, dstIp), [0]);
  }

  /** What the streamer emits for the ARP frame in the RAM, whatever its packet counter: on a little-endian host the 42
    bytes of the reply, none of them replaced by the counter; on a big-endian host never that. */
  lemma {:induction false} ArpBytesEmitted(host: Host, mem: Memory, srcMac: u64, srcIp: u32, dstMac: u64, dstIp: u32, ctr: G.u48)
    ensures var sent := G.PacketSlice(FrameRam(host, mem, ArpPadded(srcMac, srcIp, dstMac, dstIp)), ctr, 0, 42);
            sent == ArpReplyBytes(srcMac, srcIp, dstMac, dstIp) <==> host.LittleEndian?
  {
    var ws, reply := ArpPadded(srcMac, srcIp, dstMac, dstIp), ArpReplyBytes(srcMac, srcIp, dstMac, dstIp);
    ArpPaddedBytes(srcMac, srcIp, dstMac, dstIp);
    if host.LittleEndian? {
      LittleEndianSlice(mem, ws, 11, 42, ctr);
      assert BytesOf(ws)[..42] == reply;
    } else {
      // the first byte of the packet type, 8, would have to be the last byte of the hardware type, 1
      StoredFrameByte(host, mem, ws, 11, ctr, 12);
      assert G.PacketSlice(FrameRam(host, mem, ws), ctr, 0, 42)[12] == BytesOf(ws)[15] == 1;
      assert reply[12] == 8;
    }
  }

  /** The pulse lasts six clocks of the streamer. That is short enough for one packet exactly from 25 bytes on; a shorter
    one can be sent twice. */
  lemma {:induction false} OnePacketFrom25(g: G.Stream, ram: G.Ram, n: u16)
    requires g.gen.pktState == G.S0 && n >= 14
    ensures (forall tx | G.Held(tx, 6, n) && G.LetsThrough(tx, n) :: G.OnePacket(G.Run(g, ram, tx), g, ram, n)) <==> n >= 25
  {
    G.HeldOnce(g, ram, n, 6);
  }

  // ----- machine and streamer together -----

  /** The words of a send arrive at a board at any times in `before`; `after` has the clocks they cost, `tail` as many as one
    likes. */
  ghost predicate Sends(
      b: B.State, before: seq<B.Cycle>, after: seq<B.Cycle>, tail: seq<B.Cycle>, mem: Memory, vals: seq<u32>, length: u32)
  {
    && IsReset(b.machine, mem) && b.stream.gen.pktState == G.S0
    && Arrivals(B.Controls(before)) == SendWords(vals, length)
    && Quiet(B.Controls(after)) && Quiet(B.Controls(tail)) && |after| >= 5 * |vals| + 12
  }

  lemma AllInterpreted(
      cap: nat, s: System, before: seq<Inputs>, after: seq<Inputs>, mem: Memory, vals: seq<u32>, length: u32)
    requires IsReset(s, mem) && Arrivals(before) == SendWords(vals, length)
    requires Quiet(after) && |after| >= 5 * |vals| + 12
    ensures Interpreted(cap, s, before + after) == |SendWords(vals, length)|
  {
    SendWork(vals, length);
    ServedWhenDeep(cap, s, before, after, SendWords(vals, length), mem);
    Completes(cap, s, before, after, SendWords(vals, length), mem);
  }

  lemma RoomOnBoard(
      cap: nat, s: System, before: seq<Inputs>, after: seq<Inputs>, tail: seq<Inputs>, mem: Memory, vals: seq<u32>, length: u32)
    requires IsReset(s, mem) && Arrivals(before) == SendWords(vals, length)
    requires Quiet(after) && Quiet(tail) && |after| >= 5 * |vals| + 12
    ensures RoomThroughout(cap, s, before + after + tail) && Arrivals(before + after + tail) == SendWords(vals, length)
  {
    assert before + after + tail == before + (after + tail);
    SendWork(vals, length);
    ServedWhenDeep(cap, s, before, after + tail, SendWords(vals, length), mem);
    ArrivalsThenQuiet(before, after + tail);
  }

  lemma PulseOnBoard(
      cap: nat, s: System, before: seq<Inputs>, after: seq<Inputs>, tail: seq<Inputs>, mem: Memory, vals: seq<u32>, length: u32)
    returns (p: nat)
    requires IsReset(s, mem) && Arrivals(before) == SendWords(vals, length)
    requires Quiet(after) && Quiet(tail) && |after| >= 5 * |vals| + 12
    ensures RoomThroughout(cap, s, before + after + tail) && 1 <= p <= |before + after|
    ensures PulseAt(cap, s, before + after + tail, p, SendWords(vals, length), 1)
  {
    var ins := before + after + tail;
    SendSplit(vals, length);
    AllInterpreted(cap, s, before, after, mem, vals, length);
    RoomOnBoard(cap, s, before, after, tail, mem, vals, length);
    assert ins[..|before + after|] == before + after;
    p := LastPulse(cap, s, ins, BeforePulse(vals, length), Command(false, 11, 1), 1, mem, |before + after|);
  }

  /** Behind the pulse frame and length stay in place. */
  lemma PlaceIsStart(
      cap: nat, s: System, ins: seq<Inputs>, k: nat, p: nat, mem: Memory, vals: seq<u32>, length: u32)
    requires IsReset(s, mem) && RoomThroughout(cap, s, ins)
    requires PulsePlace(Run(cap, s, ins), k, p, SendWords(vals, length), 1)
    ensures B.OneStart(Run(cap, s, ins), k, p, Low16(length), Stored(mem, 0, vals))
  {
    if k >= p {
      Refinement(cap, s, ins, mem);
      PlaceInState(Run(cap, s, ins), k, p, mem, vals, length);
    }
  }

  lemma PlaceInState(s: System, k: nat, p: nat, mem: Memory, vals: seq<u32>, length: u32)
    requires Refines(s, mem) && k >= p && PulsePlace(s, k, p, SendWords(vals, length), 1)
    ensures B.OneStart(s, k, p, Low16(length), Stored(mem, 0, vals))
  {
    SettledAtPulse(s, mem);
    SendFromReset(mem, s.trace.entries, vals, length);
  }

  /** What the streamer of the board sees of a send: one start, with the frame in memory and its length in the register. */
  lemma SendSeen(
      cap: nat, b: B.State, before: seq<B.Cycle>, after: seq<B.Cycle>, tail: seq<B.Cycle>,
      mem: Memory, vals: seq<u32>, length: u32)
    returns (p: nat)
    requires Sends(b, before, after, tail, mem, vals, length)
    ensures 1 <= p <= |before + after|
    ensures B.StartSeen(cap, b, before + after + tail, p, Low16(length), Stored(mem, 0, vals))
  {
    var cs := before + after + tail;
    B.ControlsConcat(before + after, tail);
    B.ControlsConcat(before, after);
    p := PulseOnBoard(cap, b.machine, B.Controls(before), B.Controls(after), B.Controls(tail), mem, vals, length);
    forall k | 1 <= k <= |cs|
      ensures B.OneStart(B.Run(cap, b, cs[..k]).machine, k, p, Low16(length), Stored(mem, 0, vals))
    {
      B.MachineRuns(cap, b, cs[..k]);
      B.ControlsPrefix(cs, k);
      RoomForPrefix(cap, b.machine, B.Controls(cs), k);
      PlaceIsStart(cap, b.machine, B.Controls(cs)[..k], k, p, mem, vals, length);
    }
  }

  /** A send of at least 25 bytes puts one packet on the stream, from the memory that the words of the send have filled. */
  lemma {:induction false} SendStreamed(
      cap: nat, b: B.State, before: seq<B.Cycle>, after: seq<B.Cycle>, tail: seq<B.Cycle>,
      mem: Memory, vals: seq<u32>, n: u16)
    requires Sends(b, before, after, tail, mem, vals, n) && n >= 25 && B.LetsThrough(tail, n)
    ensures G.OnePacket(B.Run(cap, b, before + after + tail).stream, b.stream, RamOf(Stored(mem, 0, vals)), n)
  {
    Low16Same(n);
    var p := SendSeen(cap, b, before, after, tail, mem, vals, n);
    B.PacketSent(cap, b, before + after, tail, p, n, Stored(mem, 0, vals));
  }

  /** End to end: the words of `tge_cmd_send_arp_reply` arrive at a board at any times, whatever its output FIFO and its host
    do; its streamer is idle and meets any pattern of TREADY that lets a packet through in the end. Exactly the 42 bytes of
    the RFC 826 reply are accepted, as one packet. */
  lemma {:induction false} ArpReplySent(
      cap: nat, b: B.State, before: seq<B.Cycle>, after: seq<B.Cycle>, tail: seq<B.Cycle>, mem: Memory,
      srcMac: u64, srcIp: u32, dstMac: u64, dstIp: u32)
    returns (beats: seq<G.Beat>)
    requires IsReset(b.machine, mem) && b.stream.gen.pktState == G.S0
    requires Arrivals(B.Controls(before)) == SendArpWords(LittleEndian, srcMac, srcIp, dstMac, dstIp)
    requires Quiet(B.Controls(after)) && Quiet(B.Controls(tail)) && |after| >= 67 && B.LetsThrough(tail, 42)
    ensures B.Run(cap, b, before + after + tail).stream.beats == b.stream.beats + beats
    ensures G.KeptBytes(beats) == ArpReplyBytes(srcMac, srcIp, dstMac, dstIp)
    ensures forall k | 0 <= k < |beats| :: beats[k].last == (k == |beats| - 1)
  {
    var ws := ArpPadded(srcMac, srcIp, dstMac, dstIp);
    var ctr := b.stream.gen.pktCtr;
    SendStreamed(cap, b, before, after, tail, mem, AsU32(LittleEndian, MapSeq(Htons(LittleEndian), ws)), 42);
    var ram := FrameRam(LittleEndian, mem, ws);
    beats := G.Beats(ram, ctr, 42, G.BeatCount(42));
    G.PacketBytes(ram, ctr, 42);
    ArpBytesEmitted(LittleEndian, mem, srcMac, srcIp, dstMac, dstIp, ctr);
  }

  lemma PulseOfCommand(cap: nat, s: System, ins: seq<Inputs>, k: nat, mem: Memory, cmd: u64)
    requires IsReset(s, mem) && RoomThroughout(cap, s, ins) && Arrivals(ins) <= S.SendRecvWords(cmd) && k <= |ins|
    ensures !B.Start(Run(cap, s, ins[..k]))
  {
    RoomForPrefix(cap, s, ins, k);
    ArrivalsPrefix(ins, k);
    S.SlicesBeforePulse(cap, s, ins[..k], mem, cmd);
    OtherPulse(Run(cap, s, ins[..k]), cmd);
  }

  lemma OtherPulse(s: System, cmd: u64)
    requires S.SlicesAtPulse(s, cmd)
    ensures !B.Start(s)
  {
    var mask: nat := s.regs.pulseReg;
    assert mask == 0 || mask == 2;
  }

  lemma PulseOnBoardOf(cap: nat, b: B.State, cs: seq<B.Cycle>, k: nat, mem: Memory, cmd: u64)
    requires IsReset(b.machine, mem) && k <= |cs|
    requires RoomThroughout(cap, b.machine, B.Controls(cs)) && Arrivals(B.Controls(cs)) <= S.SendRecvWords(cmd)
    ensures !B.Start(B.Run(cap, b, cs[..k]).machine)
  {
    var ins := B.Controls(cs);
    B.MachineRuns(cap, b, cs[..k]);
    B.ControlsPrefix(cs, k);
    PulseOfCommand(cap, b.machine, ins, k, mem, cmd);
  }

  /** A 64-bit command to a board starts no packet: its pulse is another one. */
  lemma {:induction false} CommandStartsNothing(cap: nat, b: B.State, cs: seq<B.Cycle>, mem: Memory, cmd: u64)
    requires IsReset(b.machine, mem) && b.stream.gen.pktState == G.S0
    requires RoomThroughout(cap, b.machine, B.Controls(cs)) && Arrivals(B.Controls(cs)) <= S.SendRecvWords(cmd)
    ensures B.Waiting(B.Run(cap, b, cs).stream, b.stream)
  {
    forall k | 1 <= k <= |cs| ensures !B.Start(B.Run(cap, b, cs[..k]).machine) {
      PulseOnBoardOf(cap, b, cs, k, mem, cmd);
    }
    B.NoStartNoPacket(cap, b, cs);
  }

  // ----- a datagram from one board to the parser of another -----

  /** The data of the beats the streamer sends for a packet of `n` bytes. */
  function SentFrame(ram: G.Ram, ctr: G.u48, n: nat): F.Frame
    requires 8 <= n <= 0xFFFF
  {
    seq<Word64>(G.BeatCount(n), k requires 0 <= k < G.BeatCount(n) => G.TData(ram, k, ctr))
  }

  /** The low 32 bits of the packet counter, most significant byte first. */
  function CounterWord(ctr: G.u48): seq<u8> {
    var c := G.CtrBytes(ctr);
    [c[3], c[2], c[1], c[0]]
  }

  /** As a number it is the counter modulo 2^32; so behind a RESET it numbers the packets that the streamer has sent. */
  lemma CounterWordIsNumber(ctr: G.u48)
    ensures var w: seq<nat> := CounterWord(ctr);
            |w| == 4 && 0x100_0000 * w[0] + 0x1_0000 * w[1] + 0x100 * w[2] + w[3] == ctr % 0x1_0000_0000
  {
    var q1: nat := ctr / 0x100;
    var q2: nat := q1 / 0x100;
    var q3: nat := q2 / 0x100;
    G.Quotients(ctr);
    FourDigits(ctr, q1, q2, q3, q3 / 0x100);
  }

  lemma FourDigits(x: nat, q1: nat, q2: nat, q3: nat, q4: nat)
    requires q1 == x / 0x100 && q2 == q1 / 0x100 && q3 == q2 / 0x100 && q4 == q3 / 0x100
    ensures 0x100_0000 * (q3 % 0x100) + 0x1_0000 * (q2 % 0x100) + 0x100 * (q1 % 0x100) + x % 0x100 == x % 0x1_0000_0000
  {
    var low := 0x100_0000 * (q3 % 0x100) + 0x1_0000 * (q2 % 0x100) + 0x100 * (q1 % 0x100) + x % 0x100;
    assert x == q4 * 0x1_0000_0000 + low;
    DivUnique(x, q4, low, 0x1_0000_0000);
  }

  lemma {:induction false} CounterInFrame(ram: G.Ram, ctr: G.u48, n: nat)
    requires 48 <= n <= 0xFFFF
    ensures var f := SentFrame(ram, ctr, n); [f[5][5], f[5][4], f[5][3], f[5][2]] == CounterWord(ctr)
  {
  }

  lemma {:induction false} SentFrameByte(ram: G.Ram, ctr: G.u48, n: nat, j: nat)
    requires 48 <= n <= 0xFFFF && j < 42
    ensures SentFrame(ram, ctr, n)[j / 8][j % 8] == G.PacketByte(ram, ctr, j)
  {
    G.DataBytes(ram, ctr, j / 8);
    assert 8 * (j / 8) + j % 8 == j;
  }

  lemma {:induction false} SentFrameCarries(mem: Memory, ws: seq<u16>, ctr: G.u48, n: nat)
    requires |ws| == 24 && 48 <= n <= 0xFFFF
    ensures Carries(SentFrame(FrameRam(LittleEndian, mem, ws), ctr, n), BytesOf(ws))
  {
    forall j | 0 <= j < 42 ensures SentFrame(FrameRam(LittleEndian, mem, ws), ctr, n)[j / 8][j % 8] == BytesOf(ws)[j] {
      SentFrameByte(FrameRam(LittleEndian, mem, ws), ctr, n, j);
      StoredFrameByte(LittleEndian, mem, ws, 12, ctr, j);
    }
  }

  /** A datagram header in the RAM, streamed out: the counter replaces exactly the dummy words, so the frame calls for a
    record exactly when the datagram is addressed to the parser; the record names the sender, and its command is the
    streamer's packet counter. */
  lemma {:induction false} UdpFrame(
      mem: Memory, srcMac: u64, srcIp: u32, srcPort: u16, dstMac: u64, dstIp: u32, dstPort: u16, dataLen: nat,
      ctr: G.u48, cfg: P.Config, leftOver: seq<u8>)
    requires 48 + dataLen <= 0xFFFF
    ensures var ws := UdpWords(srcMac, srcIp, srcPort, dstMac, dstIp, dstPort, dataLen);
            var f := SentFrame(FrameRam(LittleEndian, mem, ws), ctr, 48 + dataLen);
            |f| >= 6 && F.Expected(f, cfg, leftOver) == UdpRecord(srcMac, srcIp, srcPort, dstMac, dstIp, dstPort, ctr, cfg)
  {
    var ws := UdpWords(srcMac, srcIp, srcPort, dstMac, dstIp, dstPort, dataLen);
    var ram := FrameRam(LittleEndian, mem, ws);
    SentFrameCarries(mem, ws, ctr, 48 + dataLen);
    UdpRecognised(srcMac, srcIp, srcPort, dstMac, dstIp, dstPort, dataLen, SentFrame(ram, ctr, 48 + dataLen), cfg, leftOver);
    CounterInFrame(ram, ctr, 48 + dataLen);
  }

  function UdpRecord(
      srcMac: u64, srcIp: u32, srcPort: u16, dstMac: u64, dstIp: u32, dstPort: u16, ctr: G.u48, cfg: P.Config): seq<P.Record>
  {
    if cfg.mac == MacBytes(dstMac) && cfg.ip == IpBytes(dstIp) && cfg.port == PortBytes(dstPort)
    then [P.Record(MacBytes(srcMac), IpBytes(srcIp), PortBytes(srcPort), CounterWord(ctr))]
    else []
  }

  /** The lengths in a streamed datagram are those of what is streamed: the IPv4 length all of it but the Ethernet header, the
    UDP length that but the IPv4 header. */
  lemma {:induction false} StreamedLengths(
      mem: Memory, srcMac: u64, srcIp: u32, srcPort: u16, dstMac: u64, dstIp: u32, dstPort: u16, dataLen: nat, ctr: G.u48)
    requires 48 + dataLen <= 0xFFFF
    ensures var ws, n := UdpWords(srcMac, srcIp, srcPort, dstMac, dstIp, dstPort, dataLen), 48 + dataLen;
            var sent := G.KeptBytes(G.Beats(FrameRam(LittleEndian, mem, ws), ctr, n, G.BeatCount(n)));
            |sent| == n && NumberAt(sent, 16) == |sent| - 14 && NumberAt(sent, 38) == |sent| - 14 - 20
  {
    var ws, n := UdpWords(srcMac, srcIp, srcPort, dstMac, dstIp, dstPort, dataLen), 48 + dataLen;
    var ram := FrameRam(LittleEndian, mem, ws);
    UdpLengths(srcMac, srcIp, srcPort, dstMac, dstIp, dstPort, dataLen);
    G.PacketBytes(ram, ctr, n);
    HeaderStreamed(mem, ws, ctr, n);
    SameNumbers(G.PacketSlice(ram, ctr, 0, n), BytesOf(ws));
  }

  lemma {:induction false} HeaderStreamed(mem: Memory, ws: seq<u16>, ctr: G.u48, n: nat)
    requires |ws| == 24 && n >= 48
    ensures forall j | 0 <= j < 42 :: G.PacketSlice(FrameRam(LittleEndian, mem, ws), ctr, 0, n)[j] == BytesOf(ws)[j]
  {
    var ram := FrameRam(LittleEndian, mem, ws);
    forall j | 0 <= j < 42 ensures G.PacketSlice(ram, ctr, 0, n)[j] == BytesOf(ws)[j] {
      StoredFrameByte(LittleEndian, mem, ws, 12, ctr, j);
      assert G.PacketSlice(ram, ctr, 0, n)[j] == G.PacketByte(ram, ctr, 0 + j);
    }
  }

  lemma SameNumbers(a: seq<u8>, b: seq<u8>)
    requires |a| >= 42 && |b| >= 42 && forall j | 0 <= j < 42 :: a[j] == b[j]
    ensures NumberAt(a, 16) == NumberAt(b, 16) && NumberAt(a, 38) == NumberAt(b, 38)
  {
  }

  /** The command in a datagram's record numbers the packets: it is how many the sending streamer has brought to their end
    since RESET, modulo 2^32. */
  lemma RecordNumber(g: G.Stream)
    requires G.Counts(g) && g.gen.pktState == G.S0
    ensures var w: seq<nat> := CounterWord(g.gen.pktCtr);
            |w| == 4 && 0x100_0000 * w[0] + 0x1_0000 * w[1] + 0x100 * w[2] + w[3] == G.Ended(g.beats) % 0x1_0000_0000
  {
    CounterWordIsNumber(g.gen.pktCtr);
    var k := G.Ended(g.beats);
    var q, r := k / 0x1_0000_0000_0000, k % 0x1_0000_0000_0000;
    assert k == q * 0x1_0000 * 0x1_0000_0000 + r;
    AddMultiple(q * 0x1_0000, r, 0x1_0000_0000);
  }

  /** The beats that the receiver of `g'` has accepted since `g`, as a frame. */
  function NewFrame(g: G.Stream, g': G.Stream): F.Frame {
    var bs := if g.beats <= g'.beats then g'.beats[|g.beats|..] else [];
    seq<Word64>(|bs|, k requires 0 <= k < |bs| => bs[k].data)
  }

  lemma {:induction false} BeatsAreFrame(g: G.Stream, g': G.Stream, ram: G.Ram, n: u16)
    requires n >= 14 && G.OnePacket(g', g, ram, n)
    ensures NewFrame(g, g') == SentFrame(ram, g.gen.pktCtr, n)
  {
    var bs := G.Beats(ram, g.gen.pktCtr, n, G.BeatCount(n));
    G.LastBeat(ram, g.gen.pktCtr, n, G.BeatCount(n));
    assert g'.beats[|g.beats|..] == bs;
  }

  /** A stream with that frame, through the parser. */
  lemma {:induction false} FrameReceived(
      mem: Memory, srcMac: u64, srcIp: u32, srcPort: u16, dstMac: u64, dstIp: u32, dstPort: u16, dataLen: nat, ctr: G.u48,
      p: F.System, cfg: P.Config, earlier: seq<P.Cycle>, frame: seq<P.Cycle>, c1: P.Cycle, c2: P.Cycle)
    requires 48 + dataLen <= 0xFFFF && F.IsReset(p) && F.Scanned(earlier).beats == []
    requires F.AllLegal(earlier + frame + [c1, c2]) && !c1.valid && !c2.valid
    requires var ws := UdpWords(srcMac, srcIp, srcPort, dstMac, dstIp, dstPort, dataLen);
             F.CarriesFrame(frame, SentFrame(FrameRam(LittleEndian, mem, ws), ctr, 48 + dataLen))
    ensures var fs := F.Scanned(earlier).frames;
            && F.AllWhole(fs)
            && F.Run(p, cfg, earlier + frame + [c1, c2]).written
               == F.ExpectedAll(fs, cfg) + UdpRecord(srcMac, srcIp, srcPort, dstMac, dstIp, dstPort, ctr, cfg)
  {
    var ws := UdpWords(srcMac, srcIp, srcPort, dstMac, dstIp, dstPort, dataLen);
    var f := SentFrame(FrameRam(LittleEndian, mem, ws), ctr, 48 + dataLen);
    F.FrameAdds(p, cfg, earlier, frame, f, c1, c2);
    UdpFrame(mem, srcMac, srcIp, srcPort, dstMac, dstIp, dstPort, dataLen, ctr, cfg,
             F.LeftOverPort(F.Scanned(earlier).frames));
  }

  lemma UdpLength(
      srcMac: u64, srcIp: u32, srcPort: u16, dstMac: u64, dstIp: u32, dstPort: u16, dataLen: nat, vals: seq<u32>)
    requires 48 + dataLen <= 0xFFFF
    requires var ws := UdpWords(srcMac, srcIp, srcPort, dstMac, dstIp, dstPort, dataLen);
             vals == AsU32(LittleEndian, MapSeq(Htons(LittleEndian), ws))
    ensures SendUdpWords(LittleEndian, srcMac, srcIp, srcPort, dstMac, dstIp, dstPort, dataLen) == SendWords(vals, 48 + dataLen)
    ensures |vals| == 12
  {
    assert Cast32(48 + dataLen) == 48 + dataLen;
  }

  /** End to end: the words of `tge_cmd_send_udp` arrive at one board at any times; its streamer is idle and meets any
    pattern of TREADY that lets a packet through in the end; and a stream, with gaps anywhere, carries the accepted beats as
    a frame to the parser of another board. The parser writes the sender's record exactly when the datagram is addressed to
    it, and nothing otherwise. */
  lemma {:induction false} UdpReceived(
      cap: nat, b: B.State, before: seq<B.Cycle>, after: seq<B.Cycle>, tail: seq<B.Cycle>, mem: Memory,
      srcMac: u64, srcIp: u32, srcPort: u16, dstMac: u64, dstIp: u32, dstPort: u16, dataLen: nat,
      p: F.System, cfg: P.Config, earlier: seq<P.Cycle>, frame: seq<P.Cycle>, c1: P.Cycle, c2: P.Cycle)
    requires IsReset(b.machine, mem) && b.stream.gen.pktState == G.S0 && 48 + dataLen <= 0xFFFF
    requires Arrivals(B.Controls(before))
          == SendUdpWords(LittleEndian, srcMac, srcIp, srcPort, dstMac, dstIp, dstPort, dataLen)
    requires Quiet(B.Controls(after)) && Quiet(B.Controls(tail)) && |after| >= 72 && B.LetsThrough(tail, 48 + dataLen)
    requires F.IsReset(p) && F.Scanned(earlier).beats == []
    requires F.AllLegal(earlier + frame + [c1, c2]) && !c1.valid && !c2.valid
    requires F.CarriesFrame(frame, NewFrame(b.stream, B.Run(cap, b, before + after + tail).stream))
    ensures var fs := F.Scanned(earlier).frames;
            && F.AllWhole(fs)
            && F.Run(p, cfg, earlier + frame + [c1, c2]).written
               == F.ExpectedAll(fs, cfg)
                  + UdpRecord(srcMac, srcIp, srcPort, dstMac, dstIp, dstPort, b.stream.gen.pktCtr, cfg)
  {
    var ws, n := UdpWords(srcMac, srcIp, srcPort, dstMac, dstIp, dstPort, dataLen), 48 + dataLen;
    var vals := AsU32(LittleEndian, MapSeq(Htons(LittleEndian), ws));
    var ctr := b.stream.gen.pktCtr;
    UdpLength(srcMac, srcIp, srcPort, dstMac, dstIp, dstPort, dataLen, vals);
    SendStreamed(cap, b, before, after, tail, mem, vals, n);
    BeatsAreFrame(b.stream, B.Run(cap, b, before + after + tail).stream, FrameRam(LittleEndian, mem, ws), n);
    FrameReceived(mem, srcMac, srcIp, srcPort, dstMac, dstIp, dstPort, dataLen, ctr, p, cfg, earlier, frame, c1, c2);
  }
}
