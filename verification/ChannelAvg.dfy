/** The block averages of src/channel_avg.vhd. */
module ChannelAvg {
  import opened Arith
  import opened Words

  const NCH := 16

  type i32 = x: int | -0x8000_0000 <= x < 0x8000_0000

  /** One sample, or one sum, for each channel. */
  type Samples = s: seq<i16> | |s| == NCH witness [0, 0, 0, 0, 0, 0, 0, 0, 0, 0, 0, 0, 0, 0, 0, 0]
  type Sums = s: seq<i32> | |s| == NCH witness [0, 0, 0, 0, 0, 0, 0, 0, 0, 0, 0, 0, 0, 0, 0, 0]

  /** CONFIG: a block has `2^n` samples, and a trigger restarts the count behind `offset` of them. */
  datatype Config = Config(n: u4, offset: u4)

  datatype State = State(
    inch: Samples, trigPrev: bool, trigPrev1: bool, trigPrev2: bool, j: u16, sums: Sums, outValid: bool)
  {
    /** `trig_synced`: a rising edge of TRIG has come through the synchroniser. */
    predicate Synced() { !trigPrev2 && trigPrev1 }
  }

  /** Bit `n` of a counter. */
  predicate Bit(x: nat, n: nat) { x / Pow2(n) % 2 == 1 }

  /** 32-bit two's complement. */
  function Wrap32(x: int): i32 {
    var m := x % 0x1_0000_0000;
    if m < 0x8000_0000 then m else m - 0x1_0000_0000
  }

  /** Bits `n + 15` to `n` of a sum, as a signed number: one channel of OUTDATA_Q. */
  function OutSlice(x: i32, n: nat): i16 {
    var m := x / Pow2(n) % 0x1_0000;
    if m < 0x8000 then m else m - 0x1_0000
  }

  /** The count that a clock works with: the trigger sets it first. */
  function Count(s: State, cfg: Config): u16 {
    if s.Synced() then cfg.offset + 1 else s.j
  }

  function NextSums(sums: Sums, inch: Samples, load: bool): Sums {
    seq<i32>(NCH, i requires 0 <= i < NCH => if load then inch[i] else Wrap32(sums[i] + inch[i]))
  }

  /** One clock: the samples are registered at the falling edge, and the rising edge adds them. */
  function Step(s: State, cfg: Config, indata: Samples, trig: bool): State {
    var j := Count(s, cfg);
    State(indata, trig, s.trigPrev, s.trigPrev1,
          if Bit(j, cfg.n) then 1 else (j + 1) % 0x1_0000, NextSums(s.sums, indata, j == 1), Bit(j, cfg.n))
  }

  class Averager {
    const inch: array<i16>
    const sums: array<i32>
    var trigPrev: bool
    var trigPrev1: bool
    var trigPrev2: bool
    var j: u16
    var outValid: bool

    ghost predicate Valid()
      reads this
    {
      inch.Length == NCH && sums.Length == NCH
    }

    function Registers(): State
      requires inch.Length == NCH && sums.Length == NCH
      reads this, inch, sums
    {
      State(inch[..], trigPrev, trigPrev1, trigPrev2, j, sums[..], outValid)
    }

    constructor Reset()
      ensures Valid() && fresh(inch) && fresh(sums)
      ensures var r := Registers(); !r.trigPrev && !r.trigPrev1 && !r.trigPrev2 && r.j == 0 && !r.outValid
      ensures forall i | 0 <= i < NCH :: sums[i] == 0
    {
      inch := new i16[NCH](_ => 0);
      sums := new i32[NCH](_ => 0);
      trigPrev, trigPrev1, trigPrev2, outValid := false, false, false, false;
      j := 0;
    }

    method FallingEdge(indata: Samples)
      requires Valid()
      modifies inch
      ensures inch[..] == indata
    {
      for i := 0 to NCH
        invariant inch[..i] == indata[..i]
      {
        inch[i] := indata[i];
      }
    }

    method Accumulate()
      requires Valid()
      modifies sums
      ensures sums[..] == NextSums(old(sums[..]), inch[..], j == 1)
    {
      for i := 0 to NCH
        invariant forall k | 0 <= k < i :: sums[k] == if j == 1 then inch[k] else Wrap32(old(sums[k]) + inch[k])
        invariant forall k | i <= k < NCH :: sums[k] == old(sums[k])
      {
        if j == 1 {
          sums[i] := inch[i];
        } else {
          sums[i] := Wrap32(sums[i] + inch[i]);
        }
      }
    }

    /** The synchroniser shifts at the same edge, so the pulse it gave before the edge counts. */
    method RisingEdge(cfg: Config, trig: bool)
      requires Valid()
      modifies this, sums
      ensures Registers() == Step(old(Registers()), cfg, old(inch[..]), trig)
    {
      var synced := !trigPrev2 && trigPrev1;
      trigPrev2 := trigPrev1;
      trigPrev1 := trigPrev;
      trigPrev := trig;
      if synced {
        j := cfg.offset + 1;
      }
      Accumulate();
      if Bit(j, cfg.n) {
        j := 1;
        outValid := true;
      } else {
        j := (j + 1) % 0x1_0000;
        outValid := false;
      }
    }
  }

  // ----- runs -----

  datatype Inputs = Inputs(data: Samples, trig: bool)

  function Run(s: State, cfg: Config, ins: seq<Inputs>): State {
    if ins == [] then s else Step(Run(s, cfg, ins[..|ins|-1]), cfg, ins[|ins|-1].data, ins[|ins|-1].trig)
  }

  /** The sum of a channel over samples `from` to `to - 1`. */
  function ChannelSum(ins: seq<Inputs>, i: nat, from: nat, to: nat): int
    requires i < NCH && from <= to <= |ins|
  {
    if from == to then 0 else ChannelSum(ins, i, from, to - 1) + ins[to-1].data[i]
  }

  lemma {:induction false} SumBounds(ins: seq<Inputs>, i: nat, from: nat, to: nat)
    requires i < NCH && from <= to <= |ins|
    ensures -0x8000 * (to - from) <= ChannelSum(ins, i, from, to) <= 0x7FFF * (to - from)
  {
    if from < to {
      SumBounds(ins, i, from, to - 1);
    }
  }

  lemma {:induction false} SumOfPrefix(ins: seq<Inputs>, more: seq<Inputs>, i: nat, from: nat, to: nat)
    requires i < NCH && from <= to <= |ins|
    ensures ChannelSum(ins + more, i, from, to) == ChannelSum(ins, i, from, to)
  {
    if from < to {
      SumOfPrefix(ins, more, i, from, to - 1);
    }
  }

  // ----- arithmetic of one block -----

  lemma {:induction false} Pow2Bound(n: nat)
    requires n <= 15
    ensures Pow2(n) <= 0x8000
    decreases 15 - n
  {
    if n < 15 {
      Pow2Bound(n + 1);
    } else {
      assert Pow2(15) == 0x8000;
    }
  }

  lemma BitInBlock(x: nat, n: nat)
    requires 1 <= x <= Pow2(n)
    ensures Bit(x, n) <==> x == Pow2(n)
  {
    if x == Pow2(n) {
      DivUnique(x, 1, 0, Pow2(n));
    } else {
      DivUnique(x, 0, x, Pow2(n));
    }
  }

  /** A sum of a whole block fits, and its slice is the average, rounded down. */
  lemma SliceIsAverage(x: i32, n: nat)
    requires -0x8000 * Pow2(n) <= x <= 0x7FFF * Pow2(n)
    ensures OutSlice(x, n) == x / Pow2(n)
  {
    DivAtLeast(x, -0x8000, Pow2(n));
    DivAtLeast(x, 0x8000, Pow2(n));
    assert 0x8000 * Pow2(n) > 0x7FFF * Pow2(n);
  }

  // ----- blocks -----

  /** No trigger comes through, except perhaps at the first clock. */
  ghost predicate Quiet(s: State, cfg: Config, ins: seq<Inputs>) {
    forall k | 0 < k < |ins| :: !Run(s, cfg, ins[..k]).Synced()
  }

  /** Where a run of blocks stands after `b` whole blocks and `k` samples of the next: the counter, and the sums of the
    samples since the latest load. */
  ghost predicate InBlock(s: State, cfg: Config, ins: seq<Inputs>, b: nat, k: nat) {
    var p := Pow2(cfg.n);
    var from := if k > 0 then b * p else b * p - p;
    && |ins| == b * p + k && k < p
    && (ins != [] ==>
         && s.j == k + 1 && s.outValid == (k == 0)
         && 0 <= from && forall i | 0 <= i < NCH :: s.sums[i] == ChannelSum(ins, i, from, |ins|))
  }

  lemma AddSample(ins: seq<Inputs>, c: Inputs, i: nat, from: nat)
    requires i < NCH && from <= |ins|
    ensures ChannelSum(ins + [c], i, from, |ins| + 1) == ChannelSum(ins, i, from, |ins|) + c.data[i]
  {
    SumOfPrefix(ins, [c], i, from, |ins|);
  }

  /** The sums of at most `2^15` samples do not overflow. */
  lemma NoOverflow(ins: seq<Inputs>, i: nat, from: nat)
    requires i < NCH && from <= |ins| && |ins| - from <= 0x8000
    ensures Wrap32(ChannelSum(ins, i, from, |ins|)) == ChannelSum(ins, i, from, |ins|)
  {
    SumBounds(ins, i, from, |ins|);
  }

  lemma BlockStep(s: State, cfg: Config, ins: seq<Inputs>, b: nat, k: nat, c: Inputs)
    requires InBlock(s, cfg, ins, b, k) && Count(s, cfg) == k + 1
    ensures var p, s' := Pow2(cfg.n), Step(s, cfg, c.data, c.trig);
            if k + 1 < p then InBlock(s', cfg, ins + [c], b, k + 1) else InBlock(s', cfg, ins + [c], b + 1, 0)
  {
    var p := Pow2(cfg.n);
    Pow2Bound(cfg.n);
    BitInBlock(k + 1, cfg.n);
    assert (b + 1) * p == b * p + p;
    forall i | 0 <= i < NCH
      ensures Step(s, cfg, c.data, c.trig).sums[i] == ChannelSum(ins + [c], i, b * p, |ins| + 1)
    {
      AddSample(ins, c, i, b * p);
      NoOverflow(ins + [c], i, b * p);
    }
  }

  lemma QuietPrefix(s: State, cfg: Config, ins: seq<Inputs>)
    requires Quiet(s, cfg, ins) && ins != []
    ensures Quiet(s, cfg, ins[..|ins|-1])
    ensures |ins| > 1 ==> !Run(s, cfg, ins[..|ins|-1]).Synced()
  {
    var init := ins[..|ins|-1];
    forall t | 0 < t < |init| ensures !Run(s, cfg, init[..t]).Synced() {
      assert init[..t] == ins[..t];
    }
  }

  lemma BlockBefore(b: nat, p: nat)
    requires b * p >= 1
    ensures b >= 1 && (b - 1) * p + (p - 1) == b * p - 1
  {
  }

  lemma {:induction false} Blocks(s: State, cfg: Config, ins: seq<Inputs>, b: nat, k: nat)
    requires Count(s, cfg) == 1 && Quiet(s, cfg, ins)
    requires |ins| == b * Pow2(cfg.n) + k && k < Pow2(cfg.n)
    ensures InBlock(Run(s, cfg, ins), cfg, ins, b, k)
  {
    if ins != [] {
      var init, c, p := ins[..|ins|-1], ins[|ins|-1], Pow2(cfg.n);
      QuietPrefix(s, cfg, ins);
      assert ins == init + [c];
      if k > 0 {
        Blocks(s, cfg, init, b, k - 1);
        BlockStep(Run(s, cfg, init), cfg, init, b, k - 1, c);
      } else {
        BlockBefore(b, p);
        Blocks(s, cfg, init, b - 1, p - 1);
        BlockStep(Run(s, cfg, init), cfg, init, b - 1, p - 1, c);
      }
    }
  }

  lemma WholeBlock(s: State, cfg: Config, ins: seq<Inputs>, b: nat, i: nat)
    requires InBlock(s, cfg, ins, b, 0) && ins != [] && i < NCH
    ensures var p := Pow2(cfg.n);
            |ins| >= p && OutSlice(s.sums[i], cfg.n) == ChannelSum(ins, i, |ins| - p, |ins|) / p
  {
    var p := Pow2(cfg.n);
    assert s.sums[i] == ChannelSum(ins, i, |ins| - p, |ins|);
    SumBounds(ins, i, |ins| - p, |ins|);
    SliceIsAverage(s.sums[i], cfg.n);
  }

  lemma WholeBlocks(s: State, cfg: Config, ins: seq<Inputs>, b: nat)
    requires InBlock(s, cfg, ins, b, 0) && ins != []
    ensures var p := Pow2(cfg.n);
            p <= |ins| && forall i | 0 <= i < NCH :: OutSlice(s.sums[i], cfg.n) == ChannelSum(ins, i, |ins| - p, |ins|) / p
  {
    var p := Pow2(cfg.n);
    WholeBlock(s, cfg, ins, b, 0);
    forall i | 0 <= i < NCH ensures OutSlice(s.sums[i], cfg.n) == ChannelSum(ins, i, |ins| - p, |ins|) / p {
      WholeBlock(s, cfg, ins, b, i);
    }
  }

  /** From a clock that loads, and until the next trigger: OUTVALID rises with every `2^n`-th sample and no other, and
    then each channel shows the average of the last `2^n` samples, rounded down; nothing overflows on the way. */
  lemma Averages(s: State, cfg: Config, ins: seq<Inputs>, b: nat, k: nat)
    requires Count(s, cfg) == 1 && Quiet(s, cfg, ins) && ins != []
    requires |ins| == b * Pow2(cfg.n) + k && k < Pow2(cfg.n)
    ensures var p, s' := Pow2(cfg.n), Run(s, cfg, ins);
            && (s'.outValid <==> k == 0)
            && (s'.outValid ==> p <= |ins| && forall i | 0 <= i < NCH ::
                  OutSlice(s'.sums[i], cfg.n) == ChannelSum(ins, i, |ins| - p, |ins|) / p)
  {
    Blocks(s, cfg, ins, b, k);
    if k == 0 {
      WholeBlocks(Run(s, cfg, ins), cfg, ins, b);
    }
  }

  /** The first clock after RESET counts from zero: its sample is dropped, and the next clock loads. */
  lemma FirstClockAfterReset(s: State, cfg: Config, i: Inputs)
    requires s.j == 0 && !s.trigPrev && !s.trigPrev1 && !s.trigPrev2
    ensures var s' := Step(s, cfg, i.data, i.trig); !s'.outValid && Count(s', cfg) == 1
  {
    DivUnique(0, 0, 0, Pow2(cfg.n));
  }

  // ----- triggers -----

  /** A trigger counts two clocks after TRIG has risen. */
  lemma SyncedTwoClocksLater(s: State, cfg: Config, i1: Inputs, i2: Inputs)
    ensures Step(Step(s, cfg, i1.data, i1.trig), cfg, i2.data, i2.trig).Synced() <==> i1.trig && !s.trigPrev
  {
  }

  lemma CountStep(s: State, cfg: Config, c: Inputs, x: nat)
    requires Count(s, cfg) == x < 0xFFFF
    ensures var s' := Step(s, cfg, c.data, c.trig); s'.outValid == Bit(x, cfg.n) && s'.j == if s'.outValid then 1 else x + 1
  {
  }

  /** After a trigger the count goes on from the offset until it reaches a number with bit `n` set: that clock, and none
    before, raises OUTVALID. */
  lemma {:induction false} CountsFromOffset(s: State, cfg: Config, ins: seq<Inputs>)
    requires s.Synced() && Quiet(s, cfg, ins) && ins != [] && cfg.offset + |ins| < 0xFFFF
    requires forall x | cfg.offset < x < cfg.offset + |ins| :: !Bit(x, cfg.n)
    ensures var s' := Run(s, cfg, ins);
            && s'.outValid == Bit(cfg.offset + |ins|, cfg.n)
            && s'.j == if s'.outValid then 1 else cfg.offset + |ins| + 1
  {
    var init := ins[..|ins|-1];
    if init != [] {
      QuietPrefix(s, cfg, ins);
      CountsFromOffset(s, cfg, init);
      assert !Bit(cfg.offset + |init|, cfg.n);
    }
    CountStep(Run(s, cfg, init), cfg, ins[|init|], cfg.offset + |ins|);
  }

  /** A sum from a trigger on: with an offset of zero it starts again, otherwise it goes on. */
  function Carried(offset: nat, earlier: int, since: int): i32 {
    if offset == 0 then Wrap32(since) else Wrap32(earlier + since)
  }

  /** What the sums hold then. The count starts behind the loading number when the offset is not zero, so no clock loads,
    and the sums go on from what they were. */
  lemma {:induction false} SumsFromOffset(s: State, cfg: Config, ins: seq<Inputs>, i: nat)
    requires s.Synced() && Quiet(s, cfg, ins) && ins != [] && cfg.offset + |ins| < 0xFFFF && i < NCH
    requires forall x | cfg.offset < x < cfg.offset + |ins| :: !Bit(x, cfg.n)
    ensures Run(s, cfg, ins).sums[i] == Carried(cfg.offset, s.sums[i], ChannelSum(ins, i, 0, |ins|))
  {
    var init, c := ins[..|ins|-1], ins[|ins|-1];
    LastSample(ins, i);
    SumStep(Run(s, cfg, init), cfg, c, i);
    if init == [] {
      Wrap32Same(c.data[i]);
    } else {
      GoesOn(s, cfg, ins);
      SumsFromOffset(s, cfg, init, i);
      CarriedOn(cfg.offset, s.sums[i], ChannelSum(init, i, 0, |init|), c.data[i]);
    }
  }

  lemma CarriedOn(offset: nat, earlier: int, since: int, x: int)
    ensures Wrap32(Carried(offset, earlier, since) + x) == Carried(offset, earlier, since + x)
  {
    Wrap32Add(if offset == 0 then since else earlier + since, x);
  }

  lemma LastSample(ins: seq<Inputs>, i: nat)
    requires ins != [] && i < NCH
    ensures var init := ins[..|ins|-1];
            ChannelSum(ins, i, 0, |ins|) == ChannelSum(init, i, 0, |init|) + ins[|ins|-1].data[i]
    ensures |ins| == 1 ==> ChannelSum(ins[..0], i, 0, 0) == 0
  {
    FrontLast(ins);
    AddSample(ins[..|ins|-1], ins[|ins|-1], i, 0);
  }

  lemma SumStep(s: State, cfg: Config, c: Inputs, i: nat)
    requires i < NCH
    ensures Step(s, cfg, c.data, c.trig).sums[i] ==
              if Count(s, cfg) == 1 then c.data[i] else Wrap32(s.sums[i] + c.data[i])
  {
  }

  /** Behind the first clock after a trigger none loads before OUTVALID. */
  lemma GoesOn(s: State, cfg: Config, ins: seq<Inputs>)
    requires s.Synced() && Quiet(s, cfg, ins) && |ins| >= 2 && cfg.offset + |ins| < 0xFFFF
    requires forall x | cfg.offset < x < cfg.offset + |ins| :: !Bit(x, cfg.n)
    ensures Quiet(s, cfg, ins[..|ins|-1]) && Count(Run(s, cfg, ins[..|ins|-1]), cfg) == cfg.offset + |ins| >= 2
  {
    var init := ins[..|ins|-1];
    QuietPrefix(s, cfg, ins);
    CountsFromOffset(s, cfg, init);
    assert !Bit(cfg.offset + |init|, cfg.n);
  }

  lemma FrontLast(ins: seq<Inputs>)
    requires ins != []
    ensures ins == ins[..|ins|-1] + [ins[|ins|-1]]
  {
  }

  lemma Wrap32Same(x: i32)
    ensures Wrap32(x) == x
  {
  }

  lemma Wrap32Add(x: int, y: int)
    ensures Wrap32(Wrap32(x) + y) == Wrap32(x + y)
  {
    var m := 0x1_0000_0000;
    AddMultiple(x / m, x % m + y, m);
    AddMultiple(-1, x % m + y, m);
  }

  /** Where the samples in the sums come from, when a trigger breaks into a run of blocks after `b` of them and `k` samples
    of the next: with an offset of zero they are those since the trigger; otherwise those before the trigger since the
    latest load are still among them. Nothing overflows. */
  lemma SumsAfterTrigger(s: State, cfg: Config, hist: seq<Inputs>, b: nat, k: nat, ins: seq<Inputs>, i: nat)
    requires hist != [] && InBlock(s, cfg, hist, b, k) && i < NCH
    requires s.Synced() && Quiet(s, cfg, ins) && cfg.offset < Pow2(cfg.n)
    requires 1 <= |ins| <= Pow2(cfg.n) - cfg.offset
    ensures var from := LatestLoad(cfg, b, k);
            0 <= from <= |hist| &&
            Run(s, cfg, ins).sums[i] ==
              if cfg.offset == 0 then ChannelSum(ins, i, 0, |ins|)
              else ChannelSum(hist, i, from, |hist|) + ChannelSum(ins, i, 0, |ins|)
  {
    Pow2Bound(cfg.n);
    BlockSum(s, cfg, hist, b, k, i);
    SumsGoOn(s, cfg, hist, LatestLoad(cfg, b, k), ins, i);
  }

  lemma SumsGoOn(s: State, cfg: Config, hist: seq<Inputs>, from: nat, ins: seq<Inputs>, i: nat)
    requires i < NCH && from <= |hist| <= from + 0x8000 && s.sums[i] == ChannelSum(hist, i, from, |hist|)
    requires s.Synced() && Quiet(s, cfg, ins) && cfg.offset < Pow2(cfg.n) <= 0x8000
    requires 1 <= |ins| <= Pow2(cfg.n) - cfg.offset
    ensures Run(s, cfg, ins).sums[i] ==
              if cfg.offset == 0 then ChannelSum(ins, i, 0, |ins|)
              else ChannelSum(hist, i, from, |hist|) + ChannelSum(ins, i, 0, |ins|)
  {
    NoBitYet(cfg, |ins|);
    SumsFromOffset(s, cfg, ins, i);
    SumsFit(hist, from, ins, i, s.sums[i], cfg.offset);
  }

  lemma SumsFit(hist: seq<Inputs>, from: nat, ins: seq<Inputs>, i: nat, x: int, offset: nat)
    requires i < NCH && from <= |hist| <= from + 0x8000 && |ins| <= 0x8000 && x == ChannelSum(hist, i, from, |hist|)
    ensures var y := ChannelSum(ins, i, 0, |ins|); Carried(offset, x, y) == if offset == 0 then y else x + y
  {
    SumBounds(ins, i, 0, |ins|);
    SumBounds(hist, i, from, |hist|);
    TwoSumsFit(x, |hist| - from, ChannelSum(ins, i, 0, |ins|), |ins|);
  }

  lemma NoBitYet(cfg: Config, len: nat)
    requires cfg.offset < Pow2(cfg.n) && len <= Pow2(cfg.n) - cfg.offset
    ensures forall x | cfg.offset < x < cfg.offset + len :: !Bit(x, cfg.n)
  {
    forall x | cfg.offset < x < cfg.offset + len ensures !Bit(x, cfg.n) {
      BitInBlock(x, cfg.n);
    }
  }

  lemma BlockSum(s: State, cfg: Config, hist: seq<Inputs>, b: nat, k: nat, i: nat)
    requires hist != [] && InBlock(s, cfg, hist, b, k) && i < NCH
    ensures var from := LatestLoad(cfg, b, k);
            0 <= from <= |hist| && |hist| - from <= Pow2(cfg.n) && s.sums[i] == ChannelSum(hist, i, from, |hist|)
  {
  }

  lemma TwoSumsFit(x: int, lenX: nat, y: int, lenY: nat)
    requires lenX <= 0x8000 && lenY <= 0x8000
    requires -0x8000 * lenX <= x <= 0x7FFF * lenX && -0x8000 * lenY <= y <= 0x7FFF * lenY
    ensures Wrap32(y) == y && Wrap32(x + y) == x + y
  {
    Wrap32Same(y);
    Wrap32Same(x + y);
  }

  /** The sample that the latest load took, `b` blocks and `k` samples into a run of blocks. */
  function LatestLoad(cfg: Config, b: nat, k: nat): int {
    if k > 0 then b * Pow2(cfg.n) else b * Pow2(cfg.n) - Pow2(cfg.n)
  }

  /** With an offset inside the block, the first OUTVALID after a trigger comes with clock `2^n - offset`, the trigger's
    own clock counted. */
  lemma FirstValidAfterTrigger(s: State, cfg: Config, ins: seq<Inputs>)
    requires s.Synced() && Quiet(s, cfg, ins) && cfg.offset < Pow2(cfg.n)
    requires 1 <= |ins| <= Pow2(cfg.n) - cfg.offset
    ensures Run(s, cfg, ins).outValid <==> |ins| == Pow2(cfg.n) - cfg.offset
  {
    Pow2Bound(cfg.n);
    forall x | cfg.offset < x <= cfg.offset + |ins| ensures Bit(x, cfg.n) <==> x == Pow2(cfg.n) {
      BitInBlock(x, cfg.n);
    }
    CountsFromOffset(s, cfg, ins);
  }
}
