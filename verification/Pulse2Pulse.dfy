/** The two-clock handshake of src/pulse2pulse.vhd.

  Eight flip-flops form a ring: `in_set`, the three-stage synchroniser of the output side, `outreset`,
  and the three-stage synchroniser of the input side. The two clocks tick in any order and may tick together.
 */
module Pulse2Pulse {

  /** A rising edge of `in_clk`, of `out_clk`, or of both at the same instant. `pulsein` belongs to `in_clk`. */
  datatype Edge = InEdge(pulsein: bool) | OutEdge | BothEdges(pulsein: bool)
  {
    predicate In() { !OutEdge? }
    predicate Out() { !InEdge? }
  }

  datatype State = State(
    inSet: bool,
    outSet: bool, outSetPrev: bool, outSetPrev2: bool,
    outReset: bool,
    inReset: bool, inResetPrev: bool, inResetPrev2: bool,
    pulseOut: bool)
  {
    predicate InBusy() { inSet || inResetPrev }
  }

  const RESET := State(false, false, false, false, false, false, false, false, false)

  // ----- next-state functions -----

  function InStep(s: State, pulsein: bool): State {
    s.(inSet := if s.inResetPrev && s.inResetPrev2 then false else s.inSet || pulsein,
       inReset := s.outReset, inResetPrev := s.inReset, inResetPrev2 := s.inResetPrev)
  }

  function OutStep(s: State): State {
    s.(pulseOut := s.outSetPrev && !s.outSetPrev2,
       outReset := if s.outSetPrev == s.outSetPrev2 then s.outSetPrev else s.outReset,
       outSet := s.inSet, outSetPrev := s.outSet, outSetPrev2 := s.outSetPrev)
  }

  /** Simultaneous edges: both processes read the flip-flops as they were before the instant. */
  function Step(s: State, e: Edge): State {
    match e
    case InEdge(p) => InStep(s, p)
    case OutEdge => OutStep(s)
    case BothEdges(p) =>
      var i, o := InStep(s, p), OutStep(s);
      o.(inSet := i.inSet, inReset := i.inReset, inResetPrev := i.inResetPrev, inResetPrev2 := i.inResetPrev2)
  }

  function Run(s: State, es: seq<Edge>): State {
    if es == [] then s else Step(Run(s, es[..|es|-1]), es[|es|-1])
  }

  // ----- the component -----

  class Synchronizer {
    var inSet: bool
    var outSet: bool
    var outSetPrev: bool
    var outSetPrev2: bool
    var outReset: bool
    var inReset: bool
    var inResetPrev: bool
    var inResetPrev2: bool
    var pulseOut: bool

    function Flops(): State
      reads this
    {
      State(inSet, outSet, outSetPrev, outSetPrev2, outReset, inReset, inResetPrev, inResetPrev2, pulseOut)
    }

    /** `rst` is asynchronous and reaches both processes. */
    constructor Reset()
      ensures Flops() == RESET
    {
      inSet, inReset, inResetPrev, inResetPrev2 := false, false, false, false;
      outSet, outSetPrev, outSetPrev2, outReset, pulseOut := false, false, false, false, false;
    }

    method InProc(pulsein: bool)
      modifies this`inSet, this`inReset, this`inResetPrev, this`inResetPrev2
      ensures Flops() == InStep(old(Flops()), pulsein)
    {
      if inResetPrev && inResetPrev2 {
        inSet := false;
      } else if pulsein {
        inSet := true;
      }
      inResetPrev2 := inResetPrev;
      inResetPrev := inReset;
      inReset := outReset;
    }

    method OutProc()
      modifies this`pulseOut, this`outSet, this`outSetPrev, this`outSetPrev2, this`outReset
      ensures Flops() == OutStep(old(Flops()))
    {
      if outSetPrev && !outSetPrev2 {
        pulseOut := true;
      } else {
        pulseOut := false;
      }
      if outSetPrev && outSetPrev2 {
        outReset := true;
      } else if !outSetPrev && !outSetPrev2 {
        outReset := false;
      }
      outSetPrev2 := outSetPrev;
      outSetPrev := outSet;
      outSet := inSet;
    }

    /** The two signals that cross the domains are read before either process writes them. */
    method BothProcs(pulsein: bool)
      modifies this
      ensures Flops() == Step(old(Flops()), BothEdges(pulsein))
    {
      var crossing := inSet;
      InProc(pulsein);
      OutProc();
      outSet := crossing;
    }
  }

  // ----- the ring -----

  /** The eight flip-flops in the order in which a change travels round them. */
  function Ring(s: State): seq<bool> {
    [s.inSet, s.outSet, s.outSetPrev, s.outSetPrev2, s.outReset, s.inReset, s.inResetPrev, s.inResetPrev2]
  }

  /** The ring at position `p` of its cycle of sixteen: ones have filled it from the front (`p <= 8`), or
    zeros have (`8 <= p`). */
  function RingAt(p: nat): seq<bool> {
    seq(8, i => if p <= 8 then i < p else p - 8 <= i)
  }

  ghost predicate AtPosition(s: State, p: nat) {
    p < 16 && Ring(s) == RingAt(p)
  }

  /** Which positions a rising edge of `in_clk` advances; the others are advanced by `out_clk`. */
  predicate InOwns(p: nat) {
    5 <= p <= 8 || 13 <= p
  }

  predicate Accepts(s: State, e: Edge) {
    e.In() && e.pulsein && !s.InBusy()
  }

  /** The boundary after one step. It advances by one when the clock that owns it ticks; an accepted pulse
    puts it at 1. Accepting at position 15 moves it by two, because the last zero leaves the ring at the same edge. */
  function NextPosition(p: nat, e: Edge): nat {
    if p in {0, 15} && e.In() && e.pulsein then 1
    else if p == 15 && e.In() then 0
    else if 0 < p < 15 && (if InOwns(p) then e.In() else e.Out()) then p + 1
    else p
  }

  lemma RingStep(s: State, e: Edge, p: nat)
    requires AtPosition(s, p)
    ensures AtPosition(Step(s, e), NextPosition(p, e))
    ensures s.InBusy() <==> p !in {0, 15}
    ensures Step(s, e).pulseOut == (if e.Out() then p == 3 else s.pulseOut)
  {
    var r, r' := Ring(s), Ring(Step(s, e));
    assert forall i | 0 <= i < 8 :: r[i] == RingAt(p)[i];
    assert r' == RingAt(NextPosition(p, e)) by {
      assert s.inSet == r[0] && s.outSet == r[1] && s.outSetPrev == r[2] && s.outSetPrev2 == r[3];
      assert s.outReset == r[4] && s.inReset == r[5] && s.inResetPrev == r[6] && s.inResetPrev2 == r[7];
    }
    assert s.inSet == r[0] && s.inResetPrev == r[6] && s.outSetPrev == r[2] && s.outSetPrev2 == r[3];
  }

  /** The position reached by a run from reset. */
  function PositionAfter(es: seq<Edge>): nat {
    if es == [] then 0 else NextPosition(PositionAfter(es[..|es|-1]), es[|es|-1])
  }

  /** The handshake invariant, over every interleaving of the clocks and every `pulsein`: the ring is a block
    of ones followed by zeros or of zeros followed by ones, and no other position describes it. */
  lemma {:induction false} RingInvariant(es: seq<Edge>)
    ensures AtPosition(Run(RESET, es), PositionAfter(es))
    ensures forall q | AtPosition(Run(RESET, es), q) :: q == PositionAfter(es)
  {
    if es == [] {
      assert Ring(RESET) == RingAt(0);
    } else {
      var init := es[..|es|-1];
      RingInvariant(init);
      RingStep(Run(RESET, init), es[|es|-1], PositionAfter(init));
    }
    forall q | AtPosition(Run(RESET, es), q) ensures q == PositionAfter(es) {
      PositionUnique(q, PositionAfter(es));
    }
  }

  lemma PositionUnique(p: nat, q: nat)
    requires p < 16 && q < 16 && RingAt(p) == RingAt(q)
    ensures p == q
  {
    assert forall i | 0 <= i < 8 :: RingAt(p)[i] == RingAt(q)[i];
    assert RingAt(p)[0] == RingAt(q)[0] && RingAt(p)[7] == RingAt(q)[7];
    var k := (if p < q then p else q) % 8;
    assert RingAt(p)[k] == RingAt(q)[k];
  }

  /** No step moves the boundary by more than one place, with one exception, stated exactly: a pulse accepted
    while `in_reset_prev2` is still up moves it by two. */
  lemma BoundaryMove(es: seq<Edge>, e: Edge)
    ensures var s, moved := Run(RESET, es), (PositionAfter(es + [e]) - PositionAfter(es)) % 16;
            && moved <= 2
            && (moved == 2 <==> Accepts(s, e) && s.inResetPrev2)
  {
    var s, p := Run(RESET, es), PositionAfter(es);
    assert (es + [e])[..|es|] == es;
    RingInvariant(es);
    RingStep(s, e, p);
    assert s.inResetPrev2 == Ring(s)[7] == RingAt(p)[7];
  }

  /** `n` simultaneous edges without a pulse. */
  function Together(n: nat): seq<Edge> { seq(n, _ => BothEdges(false)) }

  lemma {:induction false} OnePlaceEach(n: nat)
    requires n <= 14
    ensures PositionAfter([InEdge(true)] + Together(n)) == n + 1
  {
    var es := [InEdge(true)] + Together(n);
    if n == 0 {
      assert es == [InEdge(true)] && es[..0] == [] && PositionAfter([]) == 0;
    } else {
      OnePlaceEach(n - 1);
      assert es[..n] == [InEdge(true)] + Together(n - 1) && es[n] == BothEdges(false);
    }
  }

  /** The exception is reached from reset: a pulse, fourteen simultaneous edges, and the next pulse moves the boundary by
    two places. */
  lemma TwoPlacesReached()
    ensures var es := [InEdge(true)] + Together(14);
            (PositionAfter(es + [InEdge(true)]) - PositionAfter(es)) % 16 == 2
  {
    var es := [InEdge(true)] + Together(14);
    OnePlaceEach(14);
    assert (es + [InEdge(true)])[..|es|] == es;
  }

  // ----- pulses in, pulses out -----

  /** An input pulse sampled while `inbusy` is low is taken; one sampled while it is high changes nothing. */
  lemma AcceptedOrIgnored(es: seq<Edge>, e: Edge)
    requires e.In() && e.pulsein
    ensures var s := Run(RESET, es);
            var without := if e.InEdge? then InEdge(false) else BothEdges(false);
            if s.InBusy() then Step(s, e) == Step(s, without)
            else Step(s, e).inSet && !Step(s, without).inSet
  {
    var s, p := Run(RESET, es), PositionAfter(es);
    RingInvariant(es);
    BusyMeaning(s, p);
  }

  /** With the input side busy, `in_set` is up, or the acknowledge has been up for two edges. */
  lemma BusyMeaning(s: State, p: nat)
    requires AtPosition(s, p)
    ensures s.InBusy() <==> s.inSet || (s.inResetPrev && s.inResetPrev2)
  {
    var r := Ring(s);
    assert s.inSet == r[0] && s.inResetPrev == r[6] && s.inResetPrev2 == r[7];
    assert r[0] == RingAt(p)[0] && r[6] == RingAt(p)[6] && r[7] == RingAt(p)[7];
  }

  /** How many input pulses the run has accepted. */
  function Accepted(es: seq<Edge>): nat {
    if es == [] then 0 else
      var init := es[..|es|-1];
      Accepted(init) + if Accepts(Run(RESET, init), es[|es|-1]) then 1 else 0
  }

  /** How many times `pulseout` has risen. */
  function Risen(es: seq<Edge>): nat {
    if es == [] then 0 else
      var init := es[..|es|-1];
      Risen(init) + if !Run(RESET, init).pulseOut && Run(RESET, es).pulseOut then 1 else 0
  }

  /** How many edges of `out_clk` came after the latest accepted pulse, if there was one. An edge simultaneous
    with the accepting edge does not follow it. */
  function OutsSinceAccept(es: seq<Edge>): Option<nat> {
    if es == [] then None else
      var init, e := es[..|es|-1], es[|es|-1];
      if Accepts(Run(RESET, init), e) then Some(0)
      else match OutsSinceAccept(init)
        case None => None
        case Some(n) => Some(if e.Out() then n + 1 else n)
  }

  datatype Option<T> = None | Some(value: T)

  /** What the position says about the count of output edges since the last acceptance. */
  predicate OutsMatch(p: nat, outs: Option<nat>) {
    match outs
    case None => p == 0
    case Some(n) =>
      && (1 <= p <= 4 ==> n == p - 1)
      && (5 <= p <= 8 ==> n >= 4)
      && (9 <= p <= 12 ==> n >= p - 5)
      && (p >= 13 || p == 0 ==> n >= 8)
  }

  lemma {:induction false} OutsInvariant(es: seq<Edge>)
    ensures OutsMatch(PositionAfter(es), OutsSinceAccept(es))
    ensures Run(RESET, es).pulseOut <==> PositionAfter(es) == 4
  {
    if es != [] {
      var init, e := es[..|es|-1], es[|es|-1];
      OutsInvariant(init);
      RingInvariant(init);
      RingStep(Run(RESET, init), e, PositionAfter(init));
    }
  }

  /** The output pulse of an accepted input pulse is high exactly between the third and the fourth following edge
    of `out_clk`; and no further pulse is accepted before the eighth, so each one has its own. */
  lemma PulseTiming(es: seq<Edge>, e: Edge)
    ensures Run(RESET, es).pulseOut <==> OutsSinceAccept(es) == Some(3)
    ensures Accepts(Run(RESET, es), e) && OutsSinceAccept(es).Some? ==> OutsSinceAccept(es).value >= 8
  {
    OutsInvariant(es);
    RingInvariant(es);
    RingStep(Run(RESET, es), e, PositionAfter(es));
  }

  /** Conservation over whole runs: every accepted pulse has produced exactly one output pulse, except for the
    at most one that is still on its way, fewer than three edges of `out_clk` old. */
  lemma {:induction false} PulseConservation(es: seq<Edge>)
    ensures Accepted(es) == Risen(es) + if OutsSinceAccept(es) in {Some(0), Some(1), Some(2)} then 1 else 0
  {
    OutsInvariant(es);
    if es != [] {
      var init, e := es[..|es|-1], es[|es|-1];
      PulseConservation(init);
      OutsInvariant(init);
      RingInvariant(init);
      RingStep(Run(RESET, init), e, PositionAfter(init));
    }
  }

  // ----- the handshake completes -----

  predicate BothTick(round: seq<Edge>) {
    (exists i | 0 <= i < |round| :: round[i].In()) && (exists i | 0 <= i < |round| :: round[i].Out())
  }

  function Flatten(rounds: seq<seq<Edge>>): seq<Edge> {
    if rounds == [] then [] else rounds[0] + Flatten(rounds[1..])
  }

  /** What a busy handshake still has to travel. */
  function Rank(p: nat): nat {
    if 0 < p < 15 then 15 - p else 0
  }

  /** While busy, the rank never grows, and it falls at every tick of the clock that owns the boundary. */
  lemma RankStep(es: seq<Edge>, e: Edge)
    requires Rank(PositionAfter(es)) > 0
    ensures var p, p' := PositionAfter(es), PositionAfter(es + [e]);
            Rank(p') == Rank(p) - if (if InOwns(p) then e.In() else e.Out()) then 1 else 0
  {
    assert (es + [e])[..|es|] == es;
  }

  /** A round in which both clocks tick frees the input side or brings the boundary at least one place on. */
  lemma {:induction false} RoundProgress(es: seq<Edge>, round: seq<Edge>, k: nat)
    requires k <= |round| && BothTick(round)
    requires forall j | 0 <= j <= k :: Rank(PositionAfter(es + round[..j])) > 0
    ensures Rank(PositionAfter(es + round[..k])) <= Rank(PositionAfter(es))
    ensures k == |round| ==> Rank(PositionAfter(es + round[..k])) < Rank(PositionAfter(es))
    ensures Rank(PositionAfter(es + round[..k])) == Rank(PositionAfter(es)) ==>
              var p := PositionAfter(es); forall i | 0 <= i < k :: !(if InOwns(p) then round[i].In() else round[i].Out())
  {
    if k == 0 {
      assert es + round[..0] == es;
    } else {
      RoundProgress(es, round, k - 1);
      assert es + round[..k] == es + round[..k-1] + [round[k-1]];
      assert Rank(PositionAfter(es + round[..k-1])) > 0;
      RankStep(es + round[..k-1], round[k-1]);
    }
  }

  lemma BusyIffRank(es: seq<Edge>)
    ensures Run(RESET, es).InBusy() <==> Rank(PositionAfter(es)) > 0
  {
    RingInvariant(es);
    RingStep(Run(RESET, es), OutEdge, PositionAfter(es));
  }

  lemma JoinPrefix(es: seq<Edge>, a: seq<Edge>, b: seq<Edge>, k: nat)
    requires k <= |b|
    ensures es + a + b[..k] == es + (a + b)[..|a|+k]
  {
  }

  lemma FirstPrefix(a: seq<Edge>, b: seq<Edge>, j: nat)
    requires j <= |a|
    ensures (a + b)[..j] == a[..j]
  {
  }

  lemma {:induction false} RankReachesZero(es: seq<Edge>, rounds: seq<seq<Edge>>) returns (k: nat)
    requires forall r | r in rounds :: BothTick(r)
    requires |rounds| >= Rank(PositionAfter(es))
    ensures k <= |Flatten(rounds)| && Rank(PositionAfter(es + Flatten(rounds)[..k])) == 0
    decreases |rounds|
  {
    if Rank(PositionAfter(es)) == 0 {
      assert es + Flatten(rounds)[..0] == es;
      return 0;
    }
    var round, rest := rounds[0], Flatten(rounds[1..]);
    if j :| 0 <= j <= |round| && Rank(PositionAfter(es + round[..j])) == 0 {
      FirstPrefix(round, rest, j);
      return j;
    }
    assert round[..|round|] == round;
    RoundProgress(es, round, |round|);
    k := RankReachesZero(es + round, rounds[1..]);
    JoinPrefix(es, round, rest, k);
    k := |round| + k;
  }

  /** `inbusy` clears whenever both clocks keep ticking: from any reachable state, within at most fourteen rounds in
    each of which both clocks tick at least once, whatever else happens, there is a moment with `inbusy` low. */
  lemma BusyClears(es: seq<Edge>, rounds: seq<seq<Edge>>)
    requires forall r | r in rounds :: BothTick(r)
    requires |rounds| >= 14
    ensures exists k | 0 <= k <= |Flatten(rounds)| :: !Run(RESET, es + Flatten(rounds)[..k]).InBusy()
  {
    var k := RankReachesZero(es, rounds);
    BusyIffRank(es + Flatten(rounds)[..k]);
  }
}
