/** The packet streamer of src/ten_gig_eth_packet_gen_simple.vhd: bytes from a RAM as 64-bit stream beats. */
module PacketGen {

  import opened Arith
  import opened Words

  type u48 = x: nat | x < 0x1_0000_0000_0000

  /** TKEEP, bit 0 first. */
  type Keep = k: seq<bool> | |k| == 8 witness [false, false, false, false, false, false, false, false]

  /** The read port of the packet RAM, addressed with eleven bits. It answers before the next falling edge. */
  type Ram = nat -> Word64

  datatype PktState = S0 | S1 | S2

  datatype State = State(
    pktState: PktState, pktCtr: u48, addrCtr: u16, bytesLeft: u16, bytesLeftReg: u16,
    tdata: Word64, tvalid: bool, tlast: bool)

  /** One period of the transmit clock. TREADY changes after rising edges, so the falling edge and the rising edge that
    follows it see the same value. */
  datatype Inputs = Inputs(txStart: bool, txBytes: u16, tready: bool)

  function CtrBytes(c: u48): (b: seq<u8>)
    ensures |b| == 6
  {
    [c % 0x100, c / 0x100 % 0x100, c / 0x1_0000 % 0x100, c / 0x100_0000 % 0x100, c / 0x1_0000_0000 % 0x100, c / 0x100_0000_0000]
  }

  /** The data of RAM word `addrCtr`; in word 5 the packet counter, little endian, replaces the upper six bytes. */
  function TData(ram: Ram, addrCtr: u16, pktCtr: u48): Word64 {
    var doutb := ram(addrCtr % 2048);
    if addrCtr == 5 then doutb[..2] + CtrBytes(pktCtr) else doutb
  }

  function TKeep(bytesLeftReg: u16): Keep { seq(8, i => i < bytesLeftReg) }

  function Inc16(x: u16): u16 { (x + 1) % 0x1_0000 }
  function Less8(x: u16): u16 { (x + 0x1_0000 - 8) % 0x1_0000 }
  function Inc48(x: u48): u48 { (x + 1) % 0x1_0000_0000_0000 }

  /** The registers after a falling edge. */
  function Step(s: State, ram: Ram, i: Inputs): State {
    var d := s.(tdata := TData(ram, s.addrCtr, s.pktCtr), tvalid := false, tlast := false);
    match s.pktState
    case S0 =>
      if i.txStart then d.(addrCtr := 0, bytesLeft := i.txBytes, pktState := if i.txBytes < 14 then S0 else S1) else d
    case S1 =>
      var v := d.(tvalid := true);
      if !i.tready then v
      else
        var n := v.(addrCtr := Inc16(s.addrCtr), bytesLeftReg := s.bytesLeft,
                    bytesLeft := Less8(s.bytesLeft));
        if s.bytesLeft <= 8 then n.(pktState := S2, tlast := true) else n
    case S2 =>
      d.(pktState := S0, pktCtr := Inc48(s.pktCtr))
  }

  class Generator {
    var pktState: PktState
    var pktCtr: u48
    var addrCtr: u16
    var bytesLeft: u16
    var bytesLeftReg: u16
    var tdata: Word64
    var tvalid: bool
    var tlast: bool

    function Registers(): State
      reads this
    {
      State(pktState, pktCtr, addrCtr, bytesLeft, bytesLeftReg, tdata, tvalid, tlast)
    }

    /** RESET leaves the byte counts and TDATA as they were. */
    method Reset()
      modifies this
      ensures Registers() == old(Registers()).(pktState := S0, pktCtr := 0, addrCtr := 0, tvalid := false, tlast := false)
    {
      pktState, pktCtr, addrCtr, tvalid, tlast := S0, 0, 0, false, false;
    }

    method Clock(ram: Ram, i: Inputs)
      modifies this
      ensures Registers() == Step(old(Registers()), ram, i)
    {
      // the data process reads the counters before the state machine writes them
      tdata := ram(addrCtr % 2048);
      if addrCtr == 5 {
        tdata := ram(addrCtr % 2048)[..2] + CtrBytes(pktCtr);
      }
      tvalid, tlast := false, false;
      match pktState {
        case S0 =>
          if i.txStart {
            addrCtr := 0;
            bytesLeft := i.txBytes;
            if i.txBytes < 14 {
              pktState := S0;
            } else {
              pktState := S1;
            }
          }
        case S1 =>
          tvalid := true;
          if i.tready {
            addrCtr := Inc16(addrCtr);
            bytesLeftReg := bytesLeft;
            if bytesLeft <= 8 {
              pktState := S2;
              tlast := true;
            }
            bytesLeft := Less8(bytesLeft);
          }
        case S2 =>
          pktState := S0;
          pktCtr := Inc48(pktCtr);
      }
    }
  }

  // ----- accepted beats -----

  datatype Beat = Beat(data: Word64, keep: Keep, last: bool)

  /** The streamer and the beats its receiver has accepted, at rising edges with TVALID and TREADY. */
  datatype Stream = Stream(gen: State, beats: seq<Beat>)

  function Clock(s: Stream, ram: Ram, i: Inputs): Stream {
    var g := Step(s.gen, ram, i);
    Stream(g, if g.tvalid && i.tready then s.beats + [Beat(g.tdata, TKeep(g.bytesLeftReg), g.tlast)] else s.beats)
  }

  function Run(s: Stream, ram: Ram, ins: seq<Inputs>): Stream {
    if ins == [] then s else Clock(Run(s, ram, ins[..|ins|-1]), ram, ins[|ins|-1])
  }

  function Readies(ins: seq<Inputs>): nat {
    if ins == [] then 0 else Readies(ins[..|ins|-1]) + if ins[|ins|-1].tready then 1 else 0
  }

  /** How many beats `n` bytes take. */
  function BeatCount(n: nat): nat { (n + 7) / 8 }

  /** Beat `k` of a packet of `n` bytes. */
  function BeatAt(ram: Ram, ctr: u48, n: u16, k: nat): Beat
    requires k < BeatCount(n)
  {
    Beat(TData(ram, k, ctr), TKeep(n - 8 * k), k == BeatCount(n) - 1)
  }

  function Beats(ram: Ram, ctr: u48, n: u16, k: nat): (bs: seq<Beat>)
    requires k <= BeatCount(n)
    ensures |bs| == k
  {
    if k == 0 then [] else Beats(ram, ctr, n, k - 1) + [BeatAt(ram, ctr, n, k - 1)]
  }

  /** The streamer in the middle of a packet of `n` bytes, `k` beats of which have been accepted. */
  ghost predicate Streaming(s: Stream, s0: Stream, ram: Ram, n: u16, k: nat) {
    && k <= BeatCount(n) && s.gen.pktCtr == s0.gen.pktCtr
    && s.beats == s0.beats + Beats(ram, s0.gen.pktCtr, n, k)
    && if k < BeatCount(n) then s.gen.pktState == S1 && s.gen.addrCtr == k && s.gen.bytesLeft == n - 8 * k
       else s.gen.pktState == S2
  }

  lemma {:induction false} StreamStep(s: Stream, s0: Stream, ram: Ram, n: u16, k: nat, i: Inputs)
    requires Streaming(s, s0, ram, n, k) && k < BeatCount(n)
    ensures Streaming(Clock(s, ram, i), s0, ram, n, if i.tready then k + 1 else k)
  {
    assert s.gen.bytesLeft <= 8 <==> k == BeatCount(n) - 1;
  }

  lemma {:induction false} StartStep(s: Stream, ram: Ram, i: Inputs)
    requires s.gen.pktState == S0 && i.txStart && i.txBytes >= 14
    ensures Streaming(Clock(s, ram, i), s, ram, i.txBytes, 0)
  {
    assert s.beats + [] == s.beats;
  }

  /** Streaming under every TREADY pattern: after the start clock, and for as long as the packet lasts, exactly as many
    beats have been accepted as there were ready clocks, and they are the first beats of the packet. */
  lemma {:induction false} PacketProgress(s: Stream, ram: Ram, start: Inputs, ins: seq<Inputs>)
    requires s.gen.pktState == S0 && start.txStart && start.txBytes >= 14
    requires ins != [] ==> Readies(ins[..|ins|-1]) < BeatCount(start.txBytes)
    ensures Streaming(Run(Clock(s, ram, start), ram, ins), s, ram, start.txBytes, Readies(ins))
  {
    StartStep(s, ram, start);
    if ins != [] {
      var init := ins[..|ins|-1];
      PacketProgress(s, ram, start, init);
      StreamStep(Run(Clock(s, ram, start), ram, init), s, ram, start.txBytes, Readies(init), ins[|ins|-1]);
    }
  }

  /** A whole packet: with the ready clock that completes the beats, the accepted beats are exactly those of the packet;
    one more clock accepts nothing, counts the packet and waits for the next start. */
  lemma {:induction false} WholePacket(s: Stream, ram: Ram, start: Inputs, ins: seq<Inputs>, i: Inputs)
    requires s.gen.pktState == S0 && start.txStart && start.txBytes >= 14
    requires ins != [] && Readies(ins[..|ins|-1]) < BeatCount(start.txBytes) == Readies(ins)
    ensures var s', n := Clock(Run(Clock(s, ram, start), ram, ins), ram, i), start.txBytes;
            && s'.beats == s.beats + Beats(ram, s.gen.pktCtr, n, BeatCount(n))
            && s'.gen.pktState == S0 && s'.gen.pktCtr == (s.gen.pktCtr + 1) % 0x1_0000_0000_0000
  {
    PacketProgress(s, ram, start, ins);
  }

  /** Fewer than fourteen bytes start nothing. */
  lemma {:induction false} TooShort(s: Stream, ram: Ram, i: Inputs)
    requires s.gen.pktState == S0 && (i.txStart ==> i.txBytes < 14)
    ensures var s' := Clock(s, ram, i); s'.gen.pktState == S0 && s'.beats == s.beats && s'.gen.pktCtr == s.gen.pktCtr
  {
  }

  // ----- a start that is held -----

  /** TX_START is high for the first `h` clocks and low from then on; TX_BYTES stands still. */
  predicate Held(ins: seq<Inputs>, h: nat, n: u16) {
    forall k | 0 <= k < |ins| :: ins[k].txBytes == n && (ins[k].txStart <==> k < h)
  }

  /** After the start clock, and before the last clock, TREADY is high often enough for a packet of `n` bytes. */
  predicate LetsThrough(ins: seq<Inputs>, n: u16) {
    |ins| >= 2 && Readies(ins[1..|ins|-1]) >= BeatCount(n)
  }

  /** One packet of `n` bytes has been sent, and the streamer waits. */
  ghost predicate OnePacket(s: Stream, s0: Stream, ram: Ram, n: u16) {
    && s.beats == s0.beats + Beats(ram, s0.gen.pktCtr, n, BeatCount(n))
    && s.gen.pktState == S0 && s.gen.pktCtr == (s0.gen.pktCtr + 1) % 0x1_0000_0000_0000
  }

  lemma {:induction false} LastClock(s: Stream, s0: Stream, ram: Ram, n: u16, i: Inputs)
    requires Streaming(s, s0, ram, n, BeatCount(n))
    ensures OnePacket(Clock(s, ram, i), s0, ram, n)
  {
  }

  lemma {:induction false} StaysSent(s: Stream, s0: Stream, ram: Ram, n: u16, i: Inputs)
    requires OnePacket(s, s0, ram, n) && !i.txStart
    ensures OnePacket(Clock(s, ram, i), s0, ram, n)
  {
  }

  lemma {:induction false} HeldProgress(s: Stream, ram: Ram, n: u16, h: nat, ins: seq<Inputs>)
    requires s.gen.pktState == S0 && n >= 14 && 1 <= h <= BeatCount(n) + 2 && Held(ins, h, n) && ins != []
    ensures var s' := Run(s, ram, ins);
            || (|ins| >= BeatCount(n) + 2 && OnePacket(s', s, ram, n))
            || (Readies(ins[1..]) <= BeatCount(n) && Streaming(s', s, ram, n, Readies(ins[1..])))
  {
    var init, i := ins[..|ins|-1], ins[|ins|-1];
    var before := Run(s, ram, init);
    if init == [] {
      StartStep(s, ram, i);
    } else {
      HeldProgress(s, ram, n, h, init);
      ReadiesFromSecond(ins);
      ReadiesBound(init[1..]);
      HeldStep(before, s, ram, n, Readies(init[1..]), i);
    }
  }

  lemma {:induction false} HeldStep(s: Stream, s0: Stream, ram: Ram, n: u16, r: nat, i: Inputs)
    requires (OnePacket(s, s0, ram, n) && !i.txStart) || (r <= BeatCount(n) && Streaming(s, s0, ram, n, r))
    ensures var s' := Clock(s, ram, i);
            || OnePacket(s', s0, ram, n)
            || (r < BeatCount(n) && Streaming(s', s0, ram, n, if i.tready then r + 1 else r))
    ensures OnePacket(Clock(s, ram, i), s0, ram, n) ==> OnePacket(s, s0, ram, n) || r == BeatCount(n)
  {
    if OnePacket(s, s0, ram, n) && !i.txStart {
      StaysSent(s, s0, ram, n, i);
    } else if r < BeatCount(n) {
      StreamStep(s, s0, ram, n, r, i);
    } else {
      LastClock(s, s0, ram, n, i);
    }
  }

  lemma {:induction false} ReadiesFromSecond(ins: seq<Inputs>)
    requires |ins| >= 2
    ensures Readies(ins[1..]) == Readies(ins[..|ins|-1][1..]) + if ins[|ins|-1].tready then 1 else 0
  {
    assert ins[1..][..|ins|-2] == ins[..|ins|-1][1..] && ins[1..][|ins|-2] == ins[|ins|-1];
  }

  lemma {:induction false} ReadiesBound(ins: seq<Inputs>)
    ensures Readies(ins) <= |ins|
    ensures (forall k | 0 <= k < |ins| :: ins[k].tready) ==> Readies(ins) == |ins|
  {
    if ins != [] {
      ReadiesBound(ins[..|ins|-1]);
    }
  }

  /** A start held for no longer than the packet takes sends one packet, under every TREADY pattern that lets it end. */
  lemma {:induction false} HeldStart(s: Stream, ram: Ram, n: u16, h: nat, ins: seq<Inputs>)
    requires s.gen.pktState == S0 && n >= 14 && 1 <= h <= BeatCount(n) + 2 && Held(ins, h, n)
    requires LetsThrough(ins, n)
    ensures OnePacket(Run(s, ram, ins), s, ram, n)
  {
    var init, i := ins[..|ins|-1], ins[|ins|-1];
    HeldProgress(s, ram, n, h, init);
    assert init[1..] == ins[1..|ins|-1];
    var before := Run(s, ram, init);
    ReadiesBound(init[1..]);
    if |init| >= BeatCount(n) + 2 && OnePacket(before, s, ram, n) {
      StaysSent(before, s, ram, n, i);
    } else {
      LastClock(before, s, ram, n, i);
    }
  }

  /** Held one clock longer, it starts a second packet when the receiver is always ready. */
  lemma {:induction false} HeldTooLong(s: Stream, ram: Ram, n: u16, h: nat, ins: seq<Inputs>)
    requires s.gen.pktState == S0 && n >= 14 && h >= BeatCount(n) + 3 && Held(ins, h, n)
    requires |ins| == BeatCount(n) + 3 && forall k | 0 <= k < |ins| :: ins[k].tready
    ensures Run(s, ram, ins).gen.pktState == S1
  {
    var b := BeatCount(n);
    var start, beats := ins[0], ins[1..b+1];
    ReadiesBound(beats);
    ReadiesBound(beats[..b-1]);
    WholePacket(s, ram, start, beats, ins[b+1]);
    RunFromSecond(s, ram, ins[..b+1]);
    FrontAndTwo(ins);
    var sent := ins[..b+1];
    RunAppend(s, ram, sent, ins[b+1]);
    RunAppend(s, ram, sent + [ins[b+1]], ins[b+2]);
    assert sent[1..] == beats;
  }

  lemma FrontAndTwo<T>(q: seq<T>)
    requires |q| >= 2
    ensures q == q[..|q|-2] + [q[|q|-2]] + [q[|q|-1]]
  {
  }

  lemma {:induction false} RunAppend(s: Stream, ram: Ram, ins: seq<Inputs>, i: Inputs)
    ensures Run(s, ram, ins + [i]) == Clock(Run(s, ram, ins), ram, i)
  {
    assert (ins + [i])[..|ins|] == ins;
  }

  lemma {:induction false} RunFromSecond(s: Stream, ram: Ram, ins: seq<Inputs>)
    requires ins != []
    ensures Run(s, ram, ins) == Run(Clock(s, ram, ins[0]), ram, ins[1..])
  {
    if |ins| > 1 {
      var init := ins[..|ins|-1];
      RunFromSecond(s, ram, init);
      assert ins[1..][..|ins|-2] == init[1..];
    } else {
      assert ins[..0] == [];
    }
  }

  /** So one start sends one packet, whatever the receiver does, exactly when it is not held longer than two clocks more
    than the packet has beats. */
  lemma {:induction false} HeldOnce(s: Stream, ram: Ram, n: u16, h: nat)
    requires s.gen.pktState == S0 && n >= 14 && h >= 1
    ensures (forall ins | Held(ins, h, n) && LetsThrough(ins, n) :: OnePacket(Run(s, ram, ins), s, ram, n))
       <==> h <= BeatCount(n) + 2
  {
    if h <= BeatCount(n) + 2 {
      forall ins | Held(ins, h, n) && LetsThrough(ins, n) ensures OnePacket(Run(s, ram, ins), s, ram, n)
      {
        HeldStart(s, ram, n, h, ins);
      }
    } else {
      var ins := seq<Inputs>(BeatCount(n) + 3, k => Inputs(true, n, true));
      HeldTooLong(s, ram, n, h, ins);
      ReadiesBound(ins[1..|ins|-1]);
      assert Held(ins, h, n) && LetsThrough(ins, n) && !OnePacket(Run(s, ram, ins), s, ram, n);
    }
  }

  // ----- the bytes on the wire -----

  function Min(a: nat, b: nat): nat { if a < b then a else b }

  /** The bytes that TKEEP keeps. */
  function Kept(data: seq<u8>, keep: seq<bool>): seq<u8>
    requires |data| == |keep|
  {
    if data == [] then [] else (if keep[0] then [data[0]] else []) + Kept(data[1..], keep[1..])
  }

  function KeptBytes(bs: seq<Beat>): seq<u8> {
    if bs == [] then [] else KeptBytes(bs[..|bs|-1]) + Kept(bs[|bs|-1].data, bs[|bs|-1].keep)
  }

  /** Byte `j` of a packet: from the RAM in address order, but bytes 42 to 47 are the packet counter. */
  function PacketByte(ram: Ram, ctr: u48, j: nat): u8 {
    if 42 <= j < 48 then CtrBytes(ctr)[j - 42] else ram(j / 8 % 2048)[j % 8]
  }

  lemma {:induction false} KeptPrefix(data: seq<u8>, keep: seq<bool>, n: nat)
    requires |data| == |keep| && forall i | 0 <= i < |keep| :: keep[i] == (i < n)
    ensures Kept(data, keep) == data[..Min(n, |data|)]
  {
    if data != [] {
      KeptPrefix(data[1..], keep[1..], if n == 0 then 0 else n - 1);
      assert keep[0] == (0 < n);
      if n > 0 {
        assert data[..Min(n, |data|)] == [data[0]] + data[1..][..Min(n - 1, |data| - 1)];
      }
    }
  }

  /** Bytes `from` to `from + n - 1` of a packet. */
  function PacketSlice(ram: Ram, ctr: u48, from: nat, n: nat): seq<u8> {
    seq<u8>(n, i requires 0 <= i < n => PacketByte(ram, ctr, from + i))
  }

  lemma {:induction false} JoinSlices(ram: Ram, ctr: u48, m: nat, n: nat)
    ensures PacketSlice(ram, ctr, 0, m) + PacketSlice(ram, ctr, m, n) == PacketSlice(ram, ctr, 0, m + n)
  {
  }

  lemma KeptAppend(bs: seq<Beat>, b: Beat)
    ensures KeptBytes(bs + [b]) == KeptBytes(bs) + Kept(b.data, b.keep)
  {
    assert (bs + [b])[..|bs|] == bs;
  }

  lemma BytesSoFar(n: u16, k: nat)
    requires 1 <= k <= BeatCount(n)
    ensures var from := 8 * (k - 1); Min(from, n) == from && from + Min(8, n - from) == Min(8 * k, n)
  {
  }

  /** The first `k` beats carry the first bytes of the packet, eight to a beat until the bytes run out. */
  lemma {:induction false} BeatsCarry(ram: Ram, ctr: u48, n: u16, k: nat)
    requires k <= BeatCount(n)
    ensures KeptBytes(Beats(ram, ctr, n, k)) == PacketSlice(ram, ctr, 0, Min(8 * k, n))
  {
    if k > 0 {
      var bs, b, from := Beats(ram, ctr, n, k - 1), BeatAt(ram, ctr, n, k - 1), 8 * (k - 1);
      var m := Min(8, n - from);
      BytesSoFar(n, k);
      BeatsCarry(ram, ctr, n, k - 1);
      BeatBytes(ram, ctr, n, k - 1);
      OneMoreBeat(ram, ctr, bs, b, from, m);
    }
  }

  lemma {:induction false} OneMoreBeat(ram: Ram, ctr: u48, bs: seq<Beat>, b: Beat, from: nat, m: nat)
    requires KeptBytes(bs) == PacketSlice(ram, ctr, 0, from) && Kept(b.data, b.keep) == PacketSlice(ram, ctr, from, m)
    ensures KeptBytes(bs + [b]) == PacketSlice(ram, ctr, 0, from + m)
  {
    KeptAppend(bs, b);
    JoinSlices(ram, ctr, from, m);
  }

  lemma {:induction false} BeatBytes(ram: Ram, ctr: u48, n: u16, k: nat)
    requires k < BeatCount(n)
    ensures var b := BeatAt(ram, ctr, n, k);
            Kept(b.data, b.keep) == PacketSlice(ram, ctr, 8 * k, Min(8, n - 8 * k))
  {
    var b := BeatAt(ram, ctr, n, k);
    KeptPrefix(b.data, b.keep, n - 8 * k);
    DataBytes(ram, ctr, k);
  }

  lemma {:induction false} DataBytes(ram: Ram, ctr: u48, k: u16)
    ensures forall i | 0 <= i < 8 :: TData(ram, k, ctr)[i] == PacketByte(ram, ctr, 8 * k + i)
  {
    forall i | 0 <= i < 8 ensures TData(ram, k, ctr)[i] == PacketByte(ram, ctr, 8 * k + i) {
      assert (8 * k + i) / 8 == k && (8 * k + i) % 8 == i;
    }
  }

  /** A packet of `n` bytes: ceil(n / 8) beats, TLAST on the last one only, and the kept bytes are the `n` bytes. */
  lemma {:induction false} PacketBytes(ram: Ram, ctr: u48, n: u16)
    ensures var bs := Beats(ram, ctr, n, BeatCount(n));
            && |bs| == BeatCount(n)
            && (forall k | 0 <= k < |bs| :: bs[k].last == (k == |bs| - 1))
            && KeptBytes(bs) == PacketSlice(ram, ctr, 0, n)
  {
    BeatsCarry(ram, ctr, n, BeatCount(n));
    LastBeat(ram, ctr, n, BeatCount(n));
  }

  lemma {:induction false} LastBeat(ram: Ram, ctr: u48, n: u16, k: nat)
    requires k <= BeatCount(n)
    ensures forall j | 0 <= j < k :: Beats(ram, ctr, n, k)[j] == BeatAt(ram, ctr, n, j)
  {
    if k > 0 {
      LastBeat(ram, ctr, n, k - 1);
    }
  }

  // ----- numbered packets -----

  /** Bytes as a number, least significant first. */
  function Number(b: seq<u8>): nat {
    if b == [] then 0 else b[0] + 0x100 * Number(b[1..])
  }

  lemma {:induction false} NumberStep(x: nat, b: seq<u8>)
    requires Number(b) == x / 0x100
    ensures Number([x % 0x100] + b) == x
  {
    assert ([x % 0x100] + b)[1..] == b;
  }

  /** The six counter bytes of a packet, as a number, are the counter. */
  lemma {:induction false} CounterIsNumber(ctr: u48)
    ensures Number(CtrBytes(ctr)) == ctr
  {
    var c1: nat := ctr / 0x100;
    var c2: nat := c1 / 0x100;
    var c3: nat := c2 / 0x100;
    var c4: nat := c3 / 0x100;
    var c5: nat := c4 / 0x100;
    Quotients(ctr);
    assert c5 / 0x100 == 0 && c5 % 0x100 == c5 && Number([]) == 0;
    var b5: seq<u8> := [c5 % 0x100] + [];
    var b4: seq<u8> := [c4 % 0x100] + b5;
    var b3: seq<u8> := [c3 % 0x100] + b4;
    var b2: seq<u8> := [c2 % 0x100] + b3;
    var b1: seq<u8> := [c1 % 0x100] + b2;
    NumberStep(c5, []);
    NumberStep(c4, b5);
    NumberStep(c3, b4);
    NumberStep(c2, b3);
    NumberStep(c1, b2);
    NumberStep(ctr, b1);
    assert CtrBytes(ctr) == [ctr % 0x100] + b1;
  }

  lemma Quotients(x: nat)
    ensures x / 0x1_0000 == x / 0x100 / 0x100 && x / 0x100_0000 == x / 0x100 / 0x100 / 0x100
    ensures x / 0x1_0000_0000 == x / 0x100 / 0x100 / 0x100 / 0x100
    ensures x / 0x100_0000_0000 == x / 0x100 / 0x100 / 0x100 / 0x100 / 0x100
  {
  }

  /** How many packets have ended among the accepted beats, and how many beats of the next have been accepted. */
  function Ended(bs: seq<Beat>): nat {
    if bs == [] then 0 else Ended(bs[..|bs|-1]) + if bs[|bs|-1].last then 1 else 0
  }

  function Since(bs: seq<Beat>): nat {
    if bs == [] || bs[|bs|-1].last then 0 else Since(bs[..|bs|-1]) + 1
  }

  /** After RESET, before anything has been accepted. */
  predicate IsReset(s: Stream) {
    s.gen.pktState == S0 && s.gen.pktCtr == 0 && s.beats == []
  }

  /** The data of a beat behind the beats `bs`: from the RAM, but the sixth beat of a packet has the number of packets that
    came before it, modulo 2^48, in its upper six bytes. */
  predicate Numbered(ram: Ram, bs: seq<Beat>, data: Word64) {
    if Since(bs) == 5 then data[..2] == ram(5)[..2] && Number(data[2..]) == Ended(bs) % 0x1_0000_0000_0000
    else data == ram(Since(bs) % 2048)
  }

  ghost predicate AllNumbered(ram: Ram, bs: seq<Beat>) {
    forall m | 0 <= m < |bs| :: Numbered(ram, bs[..m], bs[m].data)
  }

  /** The counters follow the accepted beats. */
  predicate Counts(s: Stream) {
    var g := s.gen;
    match g.pktState
    case S0 => Since(s.beats) == 0 && g.pktCtr == Ended(s.beats) % 0x1_0000_0000_0000
    case S1 =>
      && Since(s.beats) == g.addrCtr && 8 * g.addrCtr + g.bytesLeft <= 0xFFFF
      && g.pktCtr == Ended(s.beats) % 0x1_0000_0000_0000
    case S2 => Since(s.beats) == 0 && Ended(s.beats) >= 1 && g.pktCtr == (Ended(s.beats) - 1) % 0x1_0000_0000_0000
  }

  lemma BeatsAppend(bs: seq<Beat>, b: Beat)
    ensures Ended(bs + [b]) == Ended(bs) + (if b.last then 1 else 0)
    ensures Since(bs + [b]) == if b.last then 0 else Since(bs) + 1
  {
    assert (bs + [b])[..|bs|] == bs;
  }

  lemma {:induction false} DataNumbered(s: Stream, ram: Ram)
    requires Counts(s) && s.gen.pktState == S1
    ensures Numbered(ram, s.beats, TData(ram, s.gen.addrCtr, s.gen.pktCtr))
  {
    if s.gen.addrCtr == 5 {
      CounterIsNumber(s.gen.pktCtr);
      assert TData(ram, 5, s.gen.pktCtr)[2..] == CtrBytes(s.gen.pktCtr);
    }
  }

  lemma {:induction false} AllNumberedAppend(ram: Ram, bs: seq<Beat>, b: Beat)
    requires AllNumbered(ram, bs) && Numbered(ram, bs, b.data)
    ensures AllNumbered(ram, bs + [b])
  {
    var all := bs + [b];
    forall m | 0 <= m < |all| ensures Numbered(ram, all[..m], all[m].data) {
      assert all[..m] == bs[..m];
      assert bs[..|bs|] == bs;
    }
  }

  lemma {:induction false} CountsStep(s: Stream, ram: Ram, i: Inputs)
    requires Counts(s)
    ensures Counts(Clock(s, ram, i))
    ensures var s' := Clock(s, ram, i);
            s'.beats == s.beats
            || (s.gen.pktState == S1 && |s'.beats| == |s.beats| + 1 && s'.beats[..|s.beats|] == s.beats
                && s'.beats[|s.beats|].data == TData(ram, s.gen.addrCtr, s.gen.pktCtr))
  {
    if s.gen.pktState == S1 && i.tready {
      CountsBeat(s, ram, i);
    } else if s.gen.pktState == S2 {
      ModAdd(Ended(s.beats) - 1, 1, 0x1_0000_0000_0000);
    }
  }

  lemma {:induction false} CountsBeat(s: Stream, ram: Ram, i: Inputs)
    requires Counts(s) && s.gen.pktState == S1 && i.tready
    ensures var s' := Clock(s, ram, i);
            && Counts(s') && |s'.beats| == |s.beats| + 1 && s'.beats[..|s.beats|] == s.beats
            && s'.beats[|s.beats|].data == TData(ram, s.gen.addrCtr, s.gen.pktCtr)
  {
    BeatsAppend(s.beats, Clock(s, ram, i).beats[|s.beats|]);
  }

  /** Every run from RESET, whatever the starts, lengths and TREADY: the counter is the number of packets that have ended,
    modulo 2^48, and every accepted beat carries the RAM's data or, as sixth of its packet, that packet's number. So a
    receiver sees from the numbers which packets it has missed. */
  lemma {:induction false} PacketsNumbered(s: Stream, ram: Ram, ins: seq<Inputs>)
    requires IsReset(s)
    ensures Counts(Run(s, ram, ins)) && AllNumbered(ram, Run(s, ram, ins).beats)
  {
    if ins != [] {
      var init, i := ins[..|ins|-1], ins[|ins|-1];
      var before, after := Run(s, ram, init), Run(s, ram, ins);
      PacketsNumbered(s, ram, init);
      CountsStep(before, ram, i);
      if after.beats != before.beats {
        DataNumbered(before, ram);
        AllNumberedAppend(ram, before.beats, after.beats[|before.beats|]);
        assert after.beats == before.beats + [after.beats[|before.beats|]];
      }
    }
  }

  /** The sixth beat of each packet carries the number of packets before it. */
  ghost predicate NumbersIn(bs: seq<Beat>) {
    forall m | 0 <= m < |bs| && Since(bs[..m]) == 5 ::
      Number(bs[m].data[2..]) == Ended(bs[..m]) % 0x1_0000_0000_0000
  }

  lemma {:induction false} NumbersAppend(ram: Ram, bs: seq<Beat>, b: Beat)
    requires NumbersIn(bs) && Numbered(ram, bs, b.data)
    ensures NumbersIn(bs + [b])
  {
    var all := bs + [b];
    forall m | 0 <= m < |all| && Since(all[..m]) == 5 ensures Number(all[m].data[2..]) == Ended(all[..m]) % 0x1_0000_0000_0000 {
      assert all[..m] == bs[..m];
      assert bs[..|bs|] == bs;
    }
  }

  /** That holds whatever the RAM does meanwhile. */
  lemma {:induction false} NumbersStep(s: Stream, ram: Ram, i: Inputs)
    requires Counts(s) && NumbersIn(s.beats)
    ensures Counts(Clock(s, ram, i)) && NumbersIn(Clock(s, ram, i).beats)
  {
    var s' := Clock(s, ram, i);
    CountsStep(s, ram, i);
    if s'.beats != s.beats {
      DataNumbered(s, ram);
      NumbersAppend(ram, s.beats, s'.beats[|s.beats|]);
      assert s'.beats == s.beats + [s'.beats[|s.beats|]];
    }
  }

  /** Beats that carry a packet of `n` bytes, with `k` in bytes 42 to 47. */
  predicate CarriesNumber(bs: seq<Beat>, n: nat, k: nat) {
    |KeptBytes(bs)| == n >= 48 && Number(KeptBytes(bs)[42..48]) == k
  }

  lemma {:induction false} PacketCarries(ram: Ram, ctr: u48, n: u16)
    requires n >= 48
    ensures CarriesNumber(Beats(ram, ctr, n, BeatCount(n)), n, ctr)
  {
    PacketBytes(ram, ctr, n);
    CounterInPacket(ram, ctr, n);
    CounterIsNumber(ctr);
  }

  lemma {:induction false} CounterInPacket(ram: Ram, ctr: u48, n: nat)
    requires n >= 48
    ensures PacketSlice(ram, ctr, 0, n)[42..48] == CtrBytes(ctr)
  {
    var sent := PacketSlice(ram, ctr, 0, n);
    forall i | 0 <= i < 6 ensures sent[42..48][i] == CtrBytes(ctr)[i] {
      assert sent[42 + i] == PacketByte(ram, ctr, 0 + (42 + i));
    }
  }

  /** The packet sent after any run from RESET that has brought `k` packets to their end carries `k`, modulo 2^48, and is
    then one more that has ended. */
  lemma {:induction false} NextNumber(s: Stream, ram: Ram, ins: seq<Inputs>, h: nat, n: u16, more: seq<Inputs>)
    returns (bs: seq<Beat>)
    requires IsReset(s) && Run(s, ram, ins).gen.pktState == S0
    requires n >= 48 && 1 <= h <= BeatCount(n) + 2 && Held(more, h, n) && LetsThrough(more, n)
    ensures var s1 := Run(s, ram, ins);
            var s2 := Run(s1, ram, more);
            && s2.beats == s1.beats + bs && CarriesNumber(bs, n, Ended(s1.beats) % 0x1_0000_0000_0000)
            && Ended(s2.beats) == Ended(s1.beats) + 1
  {
    var s1 := Run(s, ram, ins);
    bs := Beats(ram, s1.gen.pktCtr, n, BeatCount(n));
    PacketsNumbered(s, ram, ins);
    HeldStart(s1, ram, n, h, more);
    PacketCarries(ram, s1.gen.pktCtr, n);
    EndedOnce(s1.beats, ram, s1.gen.pktCtr, n, BeatCount(n));
  }

  lemma {:induction false} EndedOnce(bs: seq<Beat>, ram: Ram, ctr: u48, n: u16, k: nat)
    requires k <= BeatCount(n)
    ensures Ended(bs + Beats(ram, ctr, n, k)) == Ended(bs) + if 0 < k == BeatCount(n) then 1 else 0
  {
    if k == 0 {
      assert bs + [] == bs;
    } else {
      EndedOnce(bs, ram, ctr, n, k - 1);
      assert bs + Beats(ram, ctr, n, k) == bs + Beats(ram, ctr, n, k - 1) + [BeatAt(ram, ctr, n, k - 1)];
      BeatsAppend(bs + Beats(ram, ctr, n, k - 1), BeatAt(ram, ctr, n, k - 1));
    }
  }
}
