/** TX_PIN wired to RX_PIN: every byte accepted is delivered, once and in order. */
module UartLoopback {
  import opened Uart
  import opened Words

  /** One clock: whether the shared tick comes, and the client's side. */
  datatype Inputs = Inputs(sample: bool, txEn: bool, txData: Byte)

  /** `accepted` and `received` record what the two clients saw at the clock edges: bytes taken because TX_EN met
    TX_RDY, and RX_DATA wherever RX_RDY was high. */
  datatype Link = Link(rx: RxState, tx: TxState, accepted: seq<Byte>, received: seq<Byte>)

  function Clock(l: Link, i: Inputs): Link {
    Link(
      RxNext(l.rx, i.sample, l.tx.bits[0]),
      TxNext(l.tx, i.sample, i.txEn, i.txData),
      if l.tx.ready && i.txEn then l.accepted + [i.txData] else l.accepted,
      if l.rx.enable then l.received + [l.rx.bits] else l.received)
  }

  function Run(l: Link, ins: seq<Inputs>): Link {
    if ins == [] then l else Clock(Run(l, ins[..|ins|-1]), ins[|ins|-1])
  }

  function AfterReset(rxCounter: u4, txCounter: u4): Link {
    Link(Rx(false, rxCounter, ZeroByte(), 0, false), Tx(false, txCounter, Ones(), 0, true), [], [])
  }

  /** Where the link is: nothing under way; a start bit just put on the line; a frame on the line, the receiver at most
    one tick behind the transmitter; or a frame taken in while its stop bits still go out. */
  datatype Phase = Idle | Started(d: Byte) | Busy(d: Byte, t: nat, r: nat) | Stopping(d: Byte, t: nat)

  ghost predicate At(l: Link, p: Phase) {
    match p
    case Idle => !l.tx.active && l.tx.ready && l.tx.bits[0] && !l.rx.active && !l.rx.enable
    case Started(d) => Sending(l.tx, d, 0) && !l.rx.active && !l.rx.enable
    case Busy(d, t, r) => Sending(l.tx, d, t) && Receiving(l.rx, d, r) && r <= t <= r + 1
    case Stopping(d, t) =>
      Sending(l.tx, d, t) && 153 <= t && !l.rx.active && (l.rx.enable ==> l.rx.bits == d && t <= 154)
  }

  /** The bytes accepted but not yet seen by the receiving client. */
  ghost function Outstanding(l: Link, p: Phase): seq<Byte> {
    match p
    case Idle => []
    case Started(d) => [d]
    case Busy(d, _, _) => [d]
    case Stopping(d, _) => if l.rx.enable then [d] else []
  }

  ghost predicate Consistent(l: Link, p: Phase) {
    At(l, p) && l.accepted == l.received + Outstanding(l, p)
  }

  ghost function NextPhase(l: Link, p: Phase, i: Inputs): Phase {
    match p
    case Idle => if i.txEn then Started(i.txData) else Idle
    case Started(d) => Busy(d, if i.sample then 1 else 0, 0)
    case Busy(d, t, r) =>
      if !i.sample then p else if r < 152 then Busy(d, t + 1, r + 1) else Stopping(d, t + 1)
    case Stopping(d, t) =>
      if !i.sample then p else if t < 175 then Stopping(d, t + 1) else Idle
  }

  /** In the middle of the receiver's bit time the transmitter is in the same bit. */
  lemma MiddleOfBit(t: nat, r: nat)
    requires r <= t <= r + 1 && r % 16 == 8
    ensures t / 16 == r / 16
  {
  }

  lemma BusyStep(l: Link, d: Byte, t: nat, r: nat, i: Inputs)
    requires Consistent(l, Busy(d, t, r))
    ensures Consistent(Clock(l, i), NextPhase(l, Busy(d, t, r), i))
  {
    SendStep(l.tx, d, t, i.sample, i.txEn, i.txData);
    if r % 16 == 8 {
      MiddleOfBit(t, r);
    }
    ReceiveStep(l.rx, d, r, i.sample, l.tx.bits[0]);
  }

  lemma StoppingStep(l: Link, d: Byte, t: nat, i: Inputs)
    requires Consistent(l, Stopping(d, t))
    ensures Consistent(Clock(l, i), NextPhase(l, Stopping(d, t), i))
  {
    SendStep(l.tx, d, t, i.sample, i.txEn, i.txData);
    assert l.tx.bits[0];
  }

  lemma StartedStep(l: Link, d: Byte, i: Inputs)
    requires Consistent(l, Started(d))
    ensures Consistent(Clock(l, i), NextPhase(l, Started(d), i))
  {
    SendStep(l.tx, d, 0, i.sample, i.txEn, i.txData);
    assert Receiving(RxNext(l.rx, i.sample, l.tx.bits[0]), d, 0);
  }

  lemma IdleStep(l: Link, i: Inputs)
    requires Consistent(l, Idle)
    ensures Consistent(Clock(l, i), NextPhase(l, Idle, i))
  {
    if i.txEn {
      assert Sending(TxNext(l.tx, i.sample, i.txEn, i.txData), i.txData, 0);
    }
  }

  lemma LinkStep(l: Link, p: Phase, i: Inputs)
    requires Consistent(l, p)
    ensures Consistent(Clock(l, i), NextPhase(l, p, i))
  {
    match p
    case Idle => IdleStep(l, i);
    case Started(d) => StartedStep(l, d, i);
    case Busy(d, t, r) => BusyStep(l, d, t, r, i);
    case Stopping(d, t) => StoppingStep(l, d, t, i);
  }

  ghost function PhaseAfter(l: Link, ins: seq<Inputs>): Phase {
    if ins == [] then Idle else
      var init := ins[..|ins|-1];
      NextPhase(Run(l, init), PhaseAfter(l, init), ins[|ins|-1])
  }

  lemma {:induction false} RunConsistent(rc: u4, tc: u4, ins: seq<Inputs>)
    ensures var l := AfterReset(rc, tc); Consistent(Run(l, ins), PhaseAfter(l, ins))
  {
    if ins != [] {
      var l, init := AfterReset(rc, tc), ins[..|ins|-1];
      RunConsistent(rc, tc, init);
      LinkStep(Run(l, init), PhaseAfter(l, init), ins[|ins|-1]);
    }
  }

  /** The loopback law, for every placement of ticks, every idle gap and every behaviour of the client: what has been
    received is what has been accepted, in order and once each, except for at most the last byte, which is under way;
    and when the transmitter is ready for another byte, nothing is under way. */
  lemma Loopback(rc: u4, tc: u4, ins: seq<Inputs>)
    ensures var l := Run(AfterReset(rc, tc), ins);
            && l.received <= l.accepted && |l.accepted| <= |l.received| + 1
            && (l.tx.ready ==> l.received == l.accepted)
  {
    RunConsistent(rc, tc, ins);
  }

  // ----- a byte arrives -----

  function TickCount(ins: seq<Inputs>): nat {
    if ins == [] then 0 else TickCount(ins[..|ins|-1]) + if ins[|ins|-1].sample then 1 else 0
  }

  /** What a phase still has to go through, in ticks. */
  ghost function TicksLeft(p: Phase): nat {
    match p
    case Idle => 0
    case Started(_) => 176
    case Busy(_, t, _) => if t < 176 then 176 - t else 0
    case Stopping(_, t) => if t < 176 then 176 - t else 0
  }

  lemma PhaseProgress(l: Link, p: Phase, i: Inputs)
    requires Consistent(l, p) && p != Idle
    ensures var q := NextPhase(l, p, i);
            q != Idle ==> TicksLeft(q) + (if i.sample then 1 else 0) <= TicksLeft(p)
  {
  }

  lemma OneClock(l: Link, q: Phase, ins: seq<Inputs>, k: nat) returns (q': Phase)
    requires k < |ins| && Consistent(Run(l, ins[..k]), q) && q != Idle
    ensures Consistent(Run(l, ins[..k+1]), q')
    ensures q' != Idle ==> TicksLeft(q') + TickCount(ins[..k+1]) <= TicksLeft(q) + TickCount(ins[..k])
  {
    var l1 := Run(l, ins[..k]);
    assert ins[..k+1][..k] == ins[..k];
    LinkStep(l1, q, ins[k]);
    PhaseProgress(l1, q, ins[k]);
    q' := NextPhase(l1, q, ins[k]);
  }

  /** Every tick brings a frame on the line one step nearer its end, so 176 ticks after a byte was accepted, and one
    clock, the transmitter is ready again and the byte has been delivered. */
  lemma {:induction false} FrameEnds(l: Link, p: Phase, ins: seq<Inputs>) returns (k: nat)
    requires Consistent(l, p) && TickCount(ins) >= TicksLeft(p)
    ensures k <= |ins| && Run(l, ins[..k]).tx.ready && Run(l, ins[..k]).received == Run(l, ins[..k]).accepted
  {
    k := 0;
    var q := p;
    assert ins[..0] == [] && TicksLeft(q) + TickCount(ins[..0]) <= TickCount(ins);
    while k < |ins| && q != Idle
      invariant k <= |ins| && Consistent(Run(l, ins[..k]), q)
      invariant q != Idle ==> TicksLeft(q) + TickCount(ins[..k]) <= TickCount(ins)
    {
      q := OneClock(l, q, ins, k);
      k := k + 1;
    }
    assert ins[..|ins|] == ins;
  }
}
