/** The serial receiver and transmitter of src/uartio.vhd, and the two wired together. */
module Uart {
  import opened Words

  type Byte = b: seq<bool> | |b| == 8 witness [false, false, false, false, false, false, false, false]
  type Bits9 = b: seq<bool> | |b| == 9 witness [true, true, true, true, true, true, true, true, true]

  /** Bit vectors are sequences with bit 0 first. `active` is `fsm_state`. */
  datatype RxState = Rx(active: bool, counter: u4, bits: Byte, nbits: u4, enable: bool)
  datatype TxState = Tx(active: bool, counter: u4, bits: Bits9, nbits: u4, ready: bool)

  function ZeroByte(): Byte { [false, false, false, false, false, false, false, false] }
  function Ones(): Bits9 { [true, true, true, true, true, true, true, true, true] }

  function Inc(x: u4): u4 { (x + 1) % 16 }

  // ----- next-state functions -----

  function RxNext(s: RxState, sample: bool, pin: bool): RxState {
    if !s.active then Rx(!pin, 0, ZeroByte(), 0, false)
    else if !sample then s
    else if s.counter != 8 then s.(counter := Inc(s.counter))
    else if s.nbits == 9 then s.(active := false, enable := pin, counter := Inc(s.counter))
    else s.(bits := s.bits[1..] + [pin], nbits := Inc(s.nbits), counter := Inc(s.counter))
  }

  function TxNext(s: TxState, sample: bool, en: bool, data: Byte): TxState {
    if !s.active then
      if en then Tx(true, 0, [false] + data, 10, false)
      else Tx(false, 0, Ones(), 0, true)
    else if !sample then s
    else if s.counter != 15 then s.(counter := Inc(s.counter))
    else if s.nbits == 0 then Tx(false, Inc(s.counter), Ones(), 0, true)
    else s.(bits := s.bits[1..] + [true], nbits := s.nbits - 1, counter := Inc(s.counter))
  }

  class Port {
    var rx: RxState
    var tx: TxState

    /** RESET leaves the two counters as they were. */
    method Reset()
      modifies this
      ensures rx == Rx(false, old(rx.counter), ZeroByte(), 0, false)
      ensures tx == Tx(false, old(tx.counter), Ones(), 0, true)
    {
      rx := rx.(active := false, bits := ZeroByte(), nbits := 0, enable := false);
      tx := tx.(active := false, bits := Ones(), nbits := 0, ready := true);
    }

    /** `reg_process` at a rising edge, with what the two processes have prepared for it. */
    method Clock(sample: bool, rxPin: bool, txEn: bool, txData: Byte)
      modifies this
      ensures rx == RxNext(old(rx), sample, rxPin)
      ensures tx == TxNext(old(tx), sample, txEn, txData)
    {
      var rxNext := RxProcess(sample, rxPin);
      var txNext := TxProcess(sample, txEn, txData);
      rx, tx := rxNext, txNext;
    }

    method RxProcess(sample: bool, rxPin: bool) returns (next: RxState)
      ensures next == RxNext(rx, sample, rxPin)
    {
      next := rx;
      if !rx.active {
        next := next.(counter := 0, bits := ZeroByte(), nbits := 0, enable := false);
        if !rxPin {
          next := next.(active := true);
        } else {
          next := next.(active := false);
        }
      } else if sample {
        if rx.counter == 8 {
          if rx.nbits == 9 {
            next := next.(active := false);
            next := next.(enable := rxPin);
          } else {
            next := next.(bits := rx.bits[1..8] + [rxPin]);
            next := next.(nbits := (rx.nbits + 1) % 16);
          }
        }
        next := next.(counter := (rx.counter + 1) % 16);
      }
    }

    method TxProcess(sample: bool, txEn: bool, txData: Byte) returns (next: TxState)
      ensures next == TxNext(tx, sample, txEn, txData)
    {
      next := tx;
      if !tx.active {
        if txEn {
          next := next.(bits := [false] + txData, nbits := 10, counter := 0);
          next := next.(active := true, ready := false);
        } else {
          next := next.(bits := Ones(), nbits := 0, counter := 0);
          next := next.(active := false, ready := true);
        }
      } else if sample {
        if tx.counter == 15 {
          if tx.nbits == 0 {
            next := next.(bits := Ones(), nbits := 0, counter := 0);
            next := next.(active := false, ready := true);
          } else {
            next := next.(bits := tx.bits[1..9] + [true]);
            next := next.(nbits := tx.nbits - 1);
          }
        }
        next := next.(counter := (tx.counter + 1) % 16);
      }
    }
  }

  // ----- a frame on the line -----

  /** Bit `k` of a frame: the start bit, the data bits, then ones. */
  function Frame(d: Byte, k: nat): bool {
    if k == 0 then false else if k <= 8 then d[k - 1] else true
  }

  /** A transmitter that has counted `t` ticks since it took `d`. */
  ghost predicate Sending(s: TxState, d: Byte, t: nat) {
    && s.active && !s.ready && t < 176
    && s.counter == t % 16 && s.nbits == 10 - t / 16
    && forall i | 0 <= i < 9 :: s.bits[i] == Frame(d, t / 16 + i)
  }

  /** A receiver that has counted `r` ticks since it saw the start edge, and has sampled the line in the middle of each
    bit time so far; the samples are the bits of a frame carrying `d`. */
  ghost predicate Receiving(s: RxState, d: Byte, r: nat) {
    && s.active && !s.enable && r < 153
    && s.counter == r % 16 && s.nbits == (r + 7) / 16
    && forall i | 0 <= i < 8 :: s.bits[i] == (s.nbits + i >= 8 && Frame(d, s.nbits + i - 8))
  }

  /** `d` is delivered: RX_RDY is up and RX_DATA holds it. */
  ghost predicate Delivering(s: RxState, d: Byte) {
    !s.active && s.enable && s.bits == d
  }

  lemma SendStep(s: TxState, d: Byte, t: nat, sample: bool, en: bool, data: Byte)
    requires Sending(s, d, t)
    ensures var s' := TxNext(s, sample, en, data);
            if !sample then Sending(s', d, t)
            else if t < 175 then Sending(s', d, t + 1)
            else !s'.active && s'.ready && s'.bits == Ones()
  {
  }

  lemma ReceiveStep(s: RxState, d: Byte, r: nat, sample: bool, pin: bool)
    requires Receiving(s, d, r)
    requires sample && r % 16 == 8 ==> pin == Frame(d, r / 16)
    ensures var s' := RxNext(s, sample, pin);
            if !sample then Receiving(s', d, r)
            else if r < 152 then Receiving(s', d, r + 1)
            else Delivering(s', d)
  {
    Phase(r);
    if sample && r == 152 {
      LastSample(s, d, pin);
    } else if sample && r % 16 == 8 {
      BitSampled(s, d, r, pin);
    }
  }

  lemma BitSampled(s: RxState, d: Byte, r: nat, pin: bool)
    requires Receiving(s, d, r) && r < 152 && r % 16 == 8 && pin == Frame(d, r / 16)
    ensures Receiving(RxNext(s, true, pin), d, r + 1)
  {
    Phase(r);
  }

  /** Counter and bit number of the next tick. */
  lemma Phase(r: nat)
    ensures (r + 1) % 16 == if r % 16 == 15 then 0 else r % 16 + 1
    ensures (r + 8) / 16 == (r + 7) / 16 + if r % 16 == 8 then 1 else 0
    ensures r % 16 == 8 ==> (r + 7) / 16 == r / 16
  {
  }

  lemma LastSample(s: RxState, d: Byte, pin: bool)
    requires Receiving(s, d, 152) && pin
    ensures Delivering(RxNext(s, true, pin), d)
  {
    assert forall i | 0 <= i < 8 :: s.bits[i] == Frame(d, i + 1) == d[i];
  }
}
