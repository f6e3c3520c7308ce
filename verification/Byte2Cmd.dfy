/** Words over a byte stream: the decoder of src/byte2cmd.vhd and its partner `send32bit` in util/RS232Test.tcl.

  A byte carries a field number in its top three bits and five data bits. The decoder collects eight fields and pushes
  them to the FIFO when it has taken field 0. It works on the byte before the one that is arriving.
 */
module Byte2Cmd {
  import opened Arith
  import opened Words

  type u3 = x: nat | x < 8
  type u5 = x: nat | x < 32

  /** `sCmdFifoD`, as its eight five-bit fields, field 0 first. */
  type Fields = f: seq<u5> | |f| == 8 witness [0, 0, 0, 0, 0, 0, 0, 0]

  datatype CmdState = S0 | S1

  datatype State = State(inByte: u8, fields: Fields, wrreq: bool, cmdState: CmdState)

  const RESET := State(0xff, [0, 0, 0, 0, 0, 0, 0, 0], false, S0)

  function FieldOf(b: u8): u3 { b / 32 }
  function BitsOf(b: u8): u5 { b % 32 }

  function Step(s: State, rdy: bool, data: u8): State {
    match s.cmdState
    case S1 => s.(wrreq := true, cmdState := S0)
    case S0 =>
      if !rdy then s.(wrreq := false)
      else
        var addr := FieldOf(s.inByte);
        State(data, s.fields[addr := BitsOf(s.inByte)], false, if addr == 0 then S1 else S0)
  }

  class Decoder {
    var inByte: u8
    var fields: Fields
    var wrreq: bool
    var cmdState: CmdState

    function Registers(): State reads this { State(inByte, fields, wrreq, cmdState) }

    constructor Reset()
      ensures Registers() == RESET
    {
      inByte, fields, wrreq, cmdState := 0xff, [0, 0, 0, 0, 0, 0, 0, 0], false, S0;
    }

    /** One falling edge. `sInByte` is a signal: the field and its bits come from the byte taken before. */
    method Clock(rdy: bool, data: u8)
      modifies this
      ensures Registers() == Step(old(Registers()), rdy, data)
    {
      match cmdState {
        case S0 =>
          wrreq := false;
          if rdy {
            var previous := inByte;
            inByte := data;
            var addr := previous / 32;
            fields := fields[addr := previous % 32];
            if addr == 0 {
              cmdState := S1;
            }
          }
        case S1 =>
          wrreq := true;
          cmdState := S0;
      }
    }
  }

  // ----- the words in the FIFO -----

  /** One clock: RX_RDY with its byte, or nothing. */
  datatype Inputs = Byte(data: u8) | Quiet

  /** The decoder and what the FIFO has taken at the rising edges so far: the low 36 bits, that is fields 0 to 6 and one
    bit of field 7. */
  datatype System = System(dec: State, fifo: seq<u36>)

  function Clock(s: System, i: Inputs): System {
    System(Step(s.dec, i.Byte?, if i.Byte? then i.data else 0),
           if s.dec.wrreq then s.fifo + [FifoWord(s.dec.fields)] else s.fifo)
  }

  function Run(ins: seq<Inputs>): System {
    if ins == [] then System(RESET, []) else Clock(Run(ins[..|ins|-1]), ins[|ins|-1])
  }

  function FifoWord(f: Fields): u36 {
    ValueBound(f[..7]);
    Value(f[..7]) + if f[7] % 2 == 1 then 0x8_0000_0000 else 0
  }

  /** Five-bit digits, least significant first. */
  function Value(f: seq<u5>): nat {
    if f == [] then 0 else f[0] + 32 * Value(f[1..])
  }

  function Pow32(n: nat): nat { if n == 0 then 1 else 32 * Pow32(n - 1) }

  lemma {:induction false} ValueBound(f: seq<u5>)
    ensures Value(f) < Pow32(|f|) && (|f| == 7 ==> Value(f) < 0x8_0000_0000)
  {
    if f != [] {
      ValueBound(f[1..]);
    }
    assert Pow32(7) == 0x8_0000_0000;
  }

  // ----- what a byte stream means -----

  /** The fields after a stream of bytes has been taken, the reset byte first. */
  function FieldsAfter(bs: seq<u8>): Fields {
    if bs == [] then [0, 0, 0, 0, 0, 0, 0, 31] else
      var b := bs[|bs|-1];
      FieldsAfter(bs[..|bs|-1])[FieldOf(b) := BitsOf(b)]
  }

  /** The words a stream completes: one for each byte with field number 0. */
  function Completed(bs: seq<u8>): seq<u36> {
    if bs == [] then [] else
      var done := Completed(bs[..|bs|-1]);
      if FieldOf(bs[|bs|-1]) == 0 then done + [FifoWord(FieldsAfter(bs))] else done
  }

  function BytesIn(ins: seq<Inputs>): seq<u8> {
    if ins == [] then [] else
      var earlier, i := BytesIn(ins[..|ins|-1]), ins[|ins|-1];
      if i.Byte? then earlier + [i.data] else earlier
  }

  /** RX_RDY is never high on two clocks in a row. */
  predicate Spaced(ins: seq<Inputs>) {
    forall k | 0 < k < |ins| :: ins[k-1].Byte? ==> ins[k].Quiet?
  }

  /** The bytes before the latest. */
  function Earlier(bs: seq<u8>): seq<u8> { if bs == [] then [] else bs[..|bs|-1] }

  /** The decoder is one byte behind, and up to two clocks behind with the word that byte completes. */
  ghost predicate Decodes(s: System, bs: seq<u8>, lastWasByte: bool) {
    var taken := Earlier(bs);
    && s.dec.inByte == (if bs == [] then 0xff else bs[|bs|-1])
    && s.dec.fields == (if bs == [] then RESET.fields else FieldsAfter(taken))
    && (s.dec.cmdState == S1 ==> lastWasByte && !s.dec.wrreq)
    && (s.dec.cmdState == S1 || s.dec.wrreq ==>
          taken != [] && FieldOf(taken[|taken|-1]) == 0 && s.fifo == Completed(taken[..|taken|-1]))
    && (s.dec.cmdState == S0 && !s.dec.wrreq ==> s.fifo == Completed(taken))
  }

  lemma {:induction false} DecodesRun(ins: seq<Inputs>)
    requires Spaced(ins)
    ensures Decodes(Run(ins), BytesIn(ins), ins != [] && ins[|ins|-1].Byte?)
  {
    if ins != [] {
      var init, i := ins[..|ins|-1], ins[|ins|-1];
      assert Spaced(init);
      DecodesRun(init);
      DecodesStep(Run(init), BytesIn(init), init != [] && init[|init|-1].Byte?, i);
    }
  }

  lemma DecodesStep(s: System, bs: seq<u8>, lastWasByte: bool, i: Inputs)
    requires Decodes(s, bs, lastWasByte) && (lastWasByte ==> i.Quiet?)
    ensures Decodes(Clock(s, i), if i.Byte? then bs + [i.data] else bs, i.Byte?)
  {
    if i.Byte? {
      assert Earlier(bs + [i.data]) == bs;
    }
  }

  /** No byte is being worked on and no word is about to be written. */
  predicate IsQuiet(ins: seq<Inputs>) { Run(ins).dec.cmdState == S0 && !Run(ins).dec.wrreq }

  /** Whatever the bytes and the pauses between them: once the decoder is quiet the FIFO holds exactly the words
    completed by all bytes but the latest. */
  lemma QuietFifo(ins: seq<Inputs>)
    requires Spaced(ins) && IsQuiet(ins)
    ensures Run(ins).fifo == Completed(Earlier(BytesIn(ins)))
  {
    DecodesRun(ins);
  }

  /** Two clocks without a byte make it quiet. */
  lemma QuietAfterTwo(ins: seq<Inputs>)
    ensures IsQuiet(ins + [Quiet, Quiet])
  {
    assert ins + [Quiet, Quiet] == ins + [Quiet] + [Quiet];
    assert (ins + [Quiet] + [Quiet])[..|ins|+1] == ins + [Quiet];
    assert (ins + [Quiet])[..|ins|] == ins;
  }

  // ----- the sender -----

  /** `val >> (5 * k)` */
  function Shifted(val: nat, k: nat): nat {
    if k == 0 then val else Shifted(val / 32, k - 1)
  }

  function Digit(val: nat, k: nat): u5 { Shifted(val, k) % 32 }

  /** The first `n` bytes of a word: its fields from 6 downwards. */
  function Part(val: nat, n: nat): (bs: seq<u8>)
    requires n <= 7
    ensures |bs| == n
  {
    if n == 0 then [] else Part(val, n - 1) + [(7 - n) * 32 + Digit(val, 7 - n)]
  }

  function Encoded(val: nat): seq<u8> { Part(val, 7) }

  /** `send32bit` */
  method Send32Bit(val: nat) returns (sent: seq<u8>)
    ensures sent == Encoded(val)
  {
    sent := [];
    var i := 6;
    while i >= 0
      invariant -1 <= i <= 6
      invariant sent == Part(val, 6 - i)
    {
      var vts := Shifted(val, i) % 32 + i * 32 % 256;
      sent := sent + [vts];
      i := i - 1;
    }
  }

  function EncodedAll(vals: seq<nat>): (bs: seq<u8>)
    ensures |bs| == 7 * |vals|
  {
    if vals == [] then [] else EncodedAll(vals[..|vals|-1]) + Encoded(vals[|vals|-1])
  }

  // ----- the round trip -----

  /** What the FIFO holds for a word: its low 35 bits, and above them a one left over from the reset byte. */
  function Arrives(val: nat): u36 { val % 0x8_0000_0000 + 0x8_0000_0000 }

  function ArriveAll(vals: seq<nat>): seq<u36> {
    seq<u36>(|vals|, k requires 0 <= k < |vals| => Arrives(vals[k]))
  }

  /** One more byte of a word. */
  lemma NextByte(bs: seq<u8>, k: u3, d: u5)
    ensures FieldsAfter(bs + [k * 32 + d]) == FieldsAfter(bs)[k := d]
    ensures k != 0 ==> Completed(bs + [k * 32 + d]) == Completed(bs)
    ensures k == 0 ==> Completed(bs + [k * 32 + d]) == Completed(bs) + [FifoWord(FieldsAfter(bs)[0 := d])]
  {
    var b := k * 32 + d;
    assert FieldOf(b) == k && BitsOf(b) == d;
    assert (bs + [b])[..|bs|] == bs;
  }

  /** Fields `f` come from `f0` by taking the first `n` bytes of a word. */
  ghost predicate PartTaken(f: Fields, f0: Fields, val: nat, n: nat) {
    forall k | 0 <= k < 8 :: f[k] == if 7 - n <= k < 7 then Digit(val, k) else f0[k]
  }

  lemma TakeOne(f: Fields, f0: Fields, val: nat, n: nat)
    requires 1 <= n <= 7 && PartTaken(f, f0, val, n - 1)
    ensures PartTaken(f[7 - n := Digit(val, 7 - n)], f0, val, n)
  {
  }

  lemma PartStep(bs: seq<u8>, val: nat, n: nat)
    requires 1 <= n <= 7
    ensures bs + Part(val, n) == bs + Part(val, n - 1) + [(7 - n) * 32 + Digit(val, 7 - n)]
  {
  }

  /** Part of a word changes only its own fields and completes nothing. */
  lemma {:induction false} PartOfWord(bs: seq<u8>, val: nat, n: nat)
    requires n < 7
    ensures PartTaken(FieldsAfter(bs + Part(val, n)), FieldsAfter(bs), val, n)
    ensures Completed(bs + Part(val, n)) == Completed(bs)
  {
    if n == 0 {
      assert bs + Part(val, 0) == bs;
    } else {
      var before := bs + Part(val, n - 1);
      PartOfWord(bs, val, n - 1);
      PartStep(bs, val, n);
      NextByte(before, 7 - n, Digit(val, 7 - n));
      TakeOne(FieldsAfter(before), FieldsAfter(bs), val, n);
    }
  }

  lemma WholeWord(bs: seq<u8>, val: nat)
    requires FieldsAfter(bs)[7] == 31
    ensures Completed(bs + Encoded(val)) == Completed(bs) + [Arrives(val)]
    ensures FieldsAfter(bs + Encoded(val))[7] == 31
  {
    PartOfWord(bs, val, 6);
    var most, d := bs + Part(val, 6), Digit(val, 0);
    assert bs + Encoded(val) == most + [0 * 32 + d];
    NextByte(most, 0, d);
    var f := FieldsAfter(most)[0 := d];
    DigitsValue(val, f[..7]);
    DivUnique(val, Shifted(val, 7), Value(f[..7]), 0x8_0000_0000);
  }

  lemma {:induction false} PartIsPrefix(val: nat, m: nat, n: nat)
    requires m <= n <= 7
    ensures Part(val, n)[..m] == Part(val, m)
  {
    if m < n {
      PartIsPrefix(val, m, n - 1);
      assert Part(val, n)[..m] == Part(val, n - 1)[..m];
    }
  }

  lemma Regroup(x: nat, p: nat)
    ensures x * (32 * p) == 32 * (x * p)
  {
  }

  lemma {:induction false} DigitsValue(val: nat, f: seq<u5>)
    requires forall k | 0 <= k < |f| :: f[k] == Digit(val, k)
    ensures val == Shifted(val, |f|) * Pow32(|f|) + Value(f) && Value(f) < Pow32(|f|)
  {
    if f != [] {
      var g := f[1..];
      forall k | 0 <= k < |g| ensures g[k] == Digit(val / 32, k) {
        assert f[k+1] == Digit(val, k + 1);
      }
      DigitsValue(val / 32, g);
      assert f[0] == Digit(val, 0);
      Regroup(Shifted(val / 32, |g|), Pow32(|g|));
    }
  }

  lemma {:induction false} AllWords(vals: seq<nat>)
    ensures Completed(EncodedAll(vals)) == ArriveAll(vals) && FieldsAfter(EncodedAll(vals))[7] == 31
  {
    if vals != [] {
      var init := vals[..|vals|-1];
      AllWords(init);
      WholeWord(EncodedAll(init), vals[|vals|-1]);
    }
  }

  /** The first `7 * m + n` bytes of the encoding complete exactly the first `m` words. */
  lemma {:induction false} PrefixOfWords(vals: seq<nat>, m: nat, n: nat)
    requires n < 7 && 7 * m + n <= 7 * |vals|
    ensures Completed(EncodedAll(vals)[..7 * m + n]) == ArriveAll(vals[..m])
  {
    var bs := EncodedAll(vals);
    if vals == [] || m == |vals| {
      assert bs[..7 * m] == bs && vals[..m] == vals;
      AllWords(vals);
    } else {
      var init, last := vals[..|vals|-1], vals[|vals|-1];
      if m == |init| {
        PartIsPrefix(last, n, 7);
        assert bs[..7 * m + n] == EncodedAll(init) + Encoded(last)[..n];
        AllWords(init);
        PartOfWord(EncodedAll(init), last, n);
      } else {
        assert bs[..7 * m + n] == EncodedAll(init)[..7 * m + n];
        assert vals[..m] == init[..m];
        PrefixOfWords(init, m, n);
      }
    }
  }

  /** Sender and decoder: after any part of the bytes of any list of words, spaced by any pauses, a quiet decoder has put
    into the FIFO exactly the words completed by all bytes but the latest, in order and once each. The latest byte is
    still waiting for the next one: even the last word of a message needs one more byte after it. */
  lemma SerialLink(vals: seq<nat>, ins: seq<Inputs>, m: nat, n: nat)
    requires Spaced(ins) && BytesIn(ins) <= EncodedAll(vals) && |BytesIn(ins)| == 7 * m + n + 1 && n < 7
    requires IsQuiet(ins)
    ensures m <= |vals| && Run(ins).fifo == ArriveAll(vals[..m])
  {
    QuietFifo(ins);
    PrefixOfWords(vals, m, n);
    assert Earlier(BytesIn(ins)) == EncodedAll(vals)[..7 * m + n];
  }
}
