/** The whole serial path: bytes on a line, one frame after another, to command words in a FIFO, to what they do. */
module SerialLine {
  import opened Arith
  import opened Uart
  import opened UartTiming
  import T = TickGen
  import B = Byte2Cmd
  import opened Words

  // ----- frames on a line -----

  datatype Sent = Sent(start: nat, data: Byte)

  /** Before clock `end` the line carries the frames `fs`, each behind the one before it, and is high between them. */
  ghost predicate Line(pin: nat -> bool, fs: seq<Sent>, period: nat, end: nat) {
    if fs == [] then HighFrom(pin, 1, end)
    else
      var f := fs[|fs|-1];
      && f.start >= 1 && Line(pin, fs[..|fs|-1], period, f.start)
      && Carries(From(pin, f.start), f.data, period)
      && f.start + 10 * period <= end && HighFrom(pin, f.start + 10 * period, end)
  }

  ghost predicate HighFrom(pin: nat -> bool, from: nat, end: nat) {
    forall n: nat | from <= n < end :: pin(n)
  }

  function From(pin: nat -> bool, start: nat): nat -> bool { (x: nat) => pin(start + x) }

  function Data(fs: seq<Sent>): seq<Byte> {
    if fs == [] then [] else Data(fs[..|fs|-1]) + [fs[|fs|-1].data]
  }

  /** The receiver behind clock `n`. It starts idle, and its ticks start with it. */
  function At(g: T.Params, s0: RxState, pin: nat -> bool, n: nat): RxState
    requires g.Valid()
  {
    if n == 0 then s0 else RxNext(At(g, s0, pin, n - 1), T.After(g, false, n).tick1Clk, pin(n))
  }

  /** The bytes that RX_RDY has announced by then. */
  function Received(g: T.Params, s0: RxState, pin: nat -> bool, n: nat): seq<Byte>
    requires g.Valid()
  {
    if n == 0 then [] else
      var s := At(g, s0, pin, n);
      Received(g, s0, pin, n - 1) + if s.enable then [s.bits] else []
  }

  lemma IdleSeesStart(s: RxState, sample: bool)
    requires !s.active
    ensures RxNext(s, sample, false) == RxNext(Rx(false, 0, ZeroByte(), 0, false), false, false)
  {
  }

  /** From its start edge on an idle receiver is the one of the single frame. */
  lemma {:induction false} FrameSeen(g: T.Params, s0: RxState, pin: nat -> bool, start: nat, x: nat)
    requires g.Valid() && start >= 1 && !At(g, s0, pin, start - 1).active && !pin(start)
    ensures At(g, s0, pin, start + x) == Receiver(g, start, From(pin, start), x)
  {
    var n, line := start + x, From(pin, start);
    assert line(x) == pin(n);
    if x > 0 {
      FrameSeen(g, s0, pin, start, x - 1);
      assert At(g, s0, pin, n) == RxNext(At(g, s0, pin, n - 1), T.After(g, false, n).tick1Clk, pin(n));
      assert Receiver(g, start, line, x) == RxNext(Receiver(g, start, line, x - 1), T.After(g, false, n).tick1Clk, line(x));
    } else {
      IdleSeesStart(At(g, s0, pin, start - 1), T.After(g, false, start).tick1Clk);
    }
  }

  lemma {:induction false} NothingYet(g: T.Params, s0: RxState, pin: nat -> bool, start: nat, x: nat)
    requires g.Valid() && start >= 1
    requires forall n: nat | start <= n < start + x :: !At(g, s0, pin, n).enable
    ensures Received(g, s0, pin, start + x - 1) == Received(g, s0, pin, start - 1)
  {
    if x > 0 {
      NothingYet(g, s0, pin, start, x - 1);
    }
  }

  /** While the line is high an idle receiver stays idle and announces nothing. */
  lemma {:induction false} StaysIdle(g: T.Params, s0: RxState, pin: nat -> bool, from: nat, n: nat)
    requires g.Valid() && from <= n && !At(g, s0, pin, from).active && HighFrom(pin, from + 1, n + 1)
    ensures !At(g, s0, pin, n).active && Received(g, s0, pin, n) == Received(g, s0, pin, from)
    ensures n > from ==> !At(g, s0, pin, n).enable
  {
    if n > from {
      StaysIdle(g, s0, pin, from, n - 1);
      assert pin(n);
    }
  }

  /** The frame on the line is delivered in its stop bit, and nothing before. */
  lemma {:induction false} FrameDelivered(g: T.Params, s0: RxState, pin: nat -> bool, start: nat, d: Byte, period: nat)
    returns (x: nat)
    requires g.Valid() && g.divisor <= g.half && Suits(g, period)
    requires start >= 1 && !At(g, s0, pin, start - 1).active && Carries(From(pin, start), d, period)
    ensures 9 * period <= x < 10 * period && Delivering(At(g, s0, pin, start + x), d)
    ensures forall n: nat | start <= n < start + x :: !At(g, s0, pin, n).enable
  {
    var line := From(pin, start);
    x := FrameDecoded(g, start, line, d, period);
    assert line(0) == Frame(d, 0);
    FrameSeen(g, s0, pin, start, x);
    forall n: nat | start <= n < start + x ensures !At(g, s0, pin, n).enable {
      FrameSeen(g, s0, pin, start, n - start);
    }
  }

  /** From the middle of the stop bit on the line is high. */
  lemma StopBitHigh(pin: nat -> bool, start: nat, x: nat, d: Byte, period: nat, end: nat)
    requires Carries(From(pin, start), d, period) && 9 * period <= x
    requires HighFrom(pin, start + 10 * period, end)
    ensures HighFrom(pin, start + x, end)
  {
    forall n: nat | start + x <= n < end ensures pin(n) {
      if n < start + 10 * period {
        assert From(pin, start)(n - start) == Frame(d, 9);
      }
    }
  }

  lemma {:induction false} OneFrame(g: T.Params, s0: RxState, pin: nat -> bool, start: nat, d: Byte, period: nat, end: nat)
    requires g.Valid() && g.divisor <= g.half && Suits(g, period)
    requires start >= 1 && !At(g, s0, pin, start - 1).active && Carries(From(pin, start), d, period)
    requires start + 10 * period <= end && HighFrom(pin, start + 10 * period, end)
    ensures Received(g, s0, pin, end - 1) == Received(g, s0, pin, start - 1) + [d] && !At(g, s0, pin, end - 1).active
    ensures forall n: nat | start + 10 * period <= n < end :: !At(g, s0, pin, n).enable
  {
    var x := FrameDelivered(g, s0, pin, start, d, period);
    NothingYet(g, s0, pin, start, x);
    StopBitHigh(pin, start, x, d, period, end);
    StaysIdle(g, s0, pin, start + x, end - 1);
    forall n: nat | start + 10 * period <= n < end ensures !At(g, s0, pin, n).enable {
      StaysIdle(g, s0, pin, start + x, n);
    }
  }

  /** Every sequence of frames at a suitable bit period is decoded, in order and once each, whatever the gaps between them
    and the phase of the ticks in each. */
  lemma {:induction false} LineDecoded(g: T.Params, s0: RxState, pin: nat -> bool, fs: seq<Sent>, period: nat, end: nat)
    requires g.Valid() && g.divisor <= g.half && Suits(g, period) && !s0.active
    requires end >= 1 && Line(pin, fs, period, end)
    ensures Received(g, s0, pin, end - 1) == Data(fs) && !At(g, s0, pin, end - 1).active
  {
    if fs == [] {
      StaysIdle(g, s0, pin, 0, end - 1);
    } else {
      var f := fs[|fs|-1];
      LineDecoded(g, s0, pin, fs[..|fs|-1], period, f.start);
      OneFrame(g, s0, pin, f.start, f.data, period, end);
    }
  }

  // ----- the bytes to the decoder -----

  function Bit(b: bool): nat { if b then 1 else 0 }

  function Number(b: Byte): u8 {
    Bit(b[0]) + 2 * Bit(b[1]) + 4 * Bit(b[2]) + 8 * Bit(b[3]) + 16 * Bit(b[4]) + 32 * Bit(b[5]) + 64 * Bit(b[6]) + 128 * Bit(b[7])
  }

  /** Bits as a number, the least significant first. */
  function Binary(b: seq<bool>): nat {
    if b == [] then 0 else Bit(b[0]) + 2 * Binary(b[1..])
  }

  lemma NumberIsBinary(b: Byte)
    ensures Number(b) == Binary(b)
  {
    BinaryFrom(b, 7);
    BinaryFrom(b, 6);
    BinaryFrom(b, 5);
    BinaryFrom(b, 4);
    BinaryFrom(b, 3);
    BinaryFrom(b, 2);
    BinaryFrom(b, 1);
    assert b[8..] == [];
  }

  lemma BinaryFrom(b: seq<bool>, i: nat)
    requires i < |b|
    ensures Binary(b[i..]) == Bit(b[i]) + 2 * Binary(b[i + 1..])
  {
    assert b[i..][1..] == b[i + 1..];
  }

  lemma {:induction false} BinaryBits(b: seq<bool>, i: nat)
    requires i < |b|
    ensures Shr(Binary(b), i) % 2 == Bit(b[i])
  {
    var rest := Binary(b[1..]);
    BitAndRest(b[0], rest);
    if i > 0 {
      BinaryBits(b[1..], i - 1);
      assert Shr(Binary(b), i) == Shr(rest, i - 1);
    }
  }

  lemma BitAndRest(b: bool, rest: nat)
    ensures (Bit(b) + 2 * rest) % 2 == Bit(b) && (Bit(b) + 2 * rest) / 2 == rest
  {
  }

  /** Bit `i` of the number is the bit that the frame carries in place `i + 1`: the least significant goes first. */
  lemma NumberBits(b: Byte, i: nat)
    requires i < 8
    ensures Shr(Number(b), i) % 2 == Bit(Frame(b, i + 1))
  {
    NumberIsBinary(b);
    BinaryBits(b, i);
  }

  function Numbers(bs: seq<Byte>): seq<u8> {
    if bs == [] then [] else Numbers(bs[..|bs|-1]) + [Number(bs[|bs|-1])]
  }

  /** What the decoder sees at the falling edges of the first `n` clocks. */
  function Wires(g: T.Params, s0: RxState, pin: nat -> bool, n: nat): (ins: seq<B.Inputs>)
    requires g.Valid()
    ensures |ins| == n
  {
    if n == 0 then [] else
      var s := At(g, s0, pin, n);
      Wires(g, s0, pin, n - 1) + [if s.enable then B.Byte(Number(s.bits)) else B.Quiet]
  }

  lemma {:induction false} WiresCarry(g: T.Params, s0: RxState, pin: nat -> bool, n: nat)
    requires g.Valid()
    ensures B.BytesIn(Wires(g, s0, pin, n)) == Numbers(Received(g, s0, pin, n))
  {
    if n > 0 {
      WiresCarry(g, s0, pin, n - 1);
      WiresAppend(Wires(g, s0, pin, n - 1), Received(g, s0, pin, n - 1), At(g, s0, pin, n));
    }
  }

  lemma WiresAppend(ins: seq<B.Inputs>, r: seq<Byte>, s: RxState)
    requires B.BytesIn(ins) == Numbers(r)
    ensures B.BytesIn(ins + [if s.enable then B.Byte(Number(s.bits)) else B.Quiet])
         == Numbers(r + if s.enable then [s.bits] else [])
  {
    var i := if s.enable then B.Byte(Number(s.bits)) else B.Quiet;
    assert (ins + [i])[..|ins|] == ins;
    if s.enable {
      assert (r + [s.bits])[..|r|] == r;
    } else {
      assert r + [] == r;
    }
  }

  lemma {:induction false} ActiveIsSilent(g: T.Params, s0: RxState, pin: nat -> bool, n: nat)
    requires g.Valid() && !s0.active
    ensures At(g, s0, pin, n).active ==> !At(g, s0, pin, n).enable
  {
    if n > 0 {
      ActiveIsSilent(g, s0, pin, n - 1);
    }
  }

  /** RX_RDY is high for single clocks. */
  lemma {:induction false} WiresSpaced(g: T.Params, s0: RxState, pin: nat -> bool, n: nat)
    requires g.Valid() && !s0.active
    ensures B.Spaced(Wires(g, s0, pin, n))
  {
    if n > 0 {
      var init := Wires(g, s0, pin, n - 1);
      WiresSpaced(g, s0, pin, n - 1);
      ActiveIsSilent(g, s0, pin, n - 1);
      forall k | 0 < k < n && Wires(g, s0, pin, n)[k-1].Byte? ensures Wires(g, s0, pin, n)[k].Quiet? {
        if k < n - 1 {
          assert init[k-1].Byte? && init[k].Quiet?;
        }
      }
    }
  }

  lemma {:induction false} QuietAtTheEnd(g: T.Params, s0: RxState, pin: nat -> bool, n: nat)
    requires g.Valid() && !At(g, s0, pin, n + 1).enable && !At(g, s0, pin, n + 2).enable
    ensures B.IsQuiet(Wires(g, s0, pin, n + 2))
  {
    var ins := Wires(g, s0, pin, n);
    assert Wires(g, s0, pin, n + 2) == ins + [B.Quiet, B.Quiet];
    B.QuietAfterTwo(ins);
  }

  lemma {:induction false} DecoderSees(g: T.Params, s0: RxState, pin: nat -> bool, n: nat)
    requires g.Valid() && !s0.active && !At(g, s0, pin, n + 1).enable && !At(g, s0, pin, n + 2).enable
    ensures var ins := Wires(g, s0, pin, n + 2);
            B.Spaced(ins) && B.BytesIn(ins) == Numbers(Received(g, s0, pin, n + 2)) && B.IsQuiet(ins)
  {
    WiresCarry(g, s0, pin, n + 2);
    WiresSpaced(g, s0, pin, n + 2);
    QuietAtTheEnd(g, s0, pin, n);
  }

  /** Two clocks after the last frame the decoder has seen exactly the bytes of the frames, and is quiet. */
  lemma {:induction false} BytesSeen(
      g: T.Params, s0: RxState, pin: nat -> bool, fs: seq<Sent>, period: nat, end: nat)
    requires g.Valid() && g.divisor <= g.half && Suits(g, period) && !s0.active && fs != []
    requires end >= 2 && Line(pin, fs, period, end - 2) && HighFrom(pin, end - 2, end)
    ensures var ins := Wires(g, s0, pin, end - 1); B.Spaced(ins) && B.BytesIn(ins) == Numbers(Data(fs)) && B.IsQuiet(ins)
  {
    LineLonger(pin, fs, period, end - 2, end);
    LineDecoded(g, s0, pin, fs, period, end);
    SilentAtTheEnd(g, s0, pin, fs, period, end);
    DecoderSees(g, s0, pin, end - 3);
  }

  lemma {:induction false} SilentAtTheEnd(
      g: T.Params, s0: RxState, pin: nat -> bool, fs: seq<Sent>, period: nat, end: nat)
    requires g.Valid() && g.divisor <= g.half && Suits(g, period) && !s0.active && fs != []
    requires end >= 2 && Line(pin, fs, period, end - 2) && HighFrom(pin, end - 2, end)
    ensures end >= 3 && !At(g, s0, pin, end - 2).enable && !At(g, s0, pin, end - 1).enable
  {
    var f := fs[|fs|-1];
    LineDecoded(g, s0, pin, fs[..|fs|-1], period, f.start);
    OneFrame(g, s0, pin, f.start, f.data, period, end);
  }

  /** From `send32bit` over the line to the FIFO: when the frames carry part of the bytes of a list of words, the FIFO holds
    exactly the words completed by all bytes but the latest, in order and once each, two clocks after the last frame. */
  lemma {:induction false} WordsReceived(
      g: T.Params, s0: RxState, pin: nat -> bool, fs: seq<Sent>, period: nat, end: nat, vals: seq<nat>, m: nat, n: nat)
    requires g.Valid() && g.divisor <= g.half && Suits(g, period) && !s0.active && fs != []
    requires end >= 2 && Line(pin, fs, period, end - 2) && HighFrom(pin, end - 2, end)
    requires Numbers(Data(fs)) <= B.EncodedAll(vals) && |Numbers(Data(fs))| == 7 * m + n + 1 && n < 7
    ensures m <= |vals| && B.Run(Wires(g, s0, pin, end - 1)).fifo == B.ArriveAll(vals[..m])
  {
    BytesSeen(g, s0, pin, fs, period, end);
    B.SerialLink(vals, Wires(g, s0, pin, end - 1), m, n);
  }

  lemma LineLonger(pin: nat -> bool, fs: seq<Sent>, period: nat, end: nat, later: nat)
    requires fs != [] && end <= later && Line(pin, fs, period, end) && HighFrom(pin, end, later)
    ensures Line(pin, fs, period, later)
  {
  }
}
