/** The meaning of command words, one whole word at a time. */
module Interpreter {
  import opened Words
  import opened ControlInterface

  /** The memory behind the memory port; cells that were never written read as zero. */
  type Memory = map<u32, u32>

  function ReadMem(m: Memory, a: u32): u32 { if a in m then m[a] else 0 }

  /** An executed command word, with the status registers it could see and the data-FIFO words moved on its behalf. */
  datatype Entry = Entry(word: CmdWord, status: StatusRegs, moved: seq<u32>)

  /** What the commands act on: registers, memory, the words sent to the host and the pulses given. */
  datatype Machine = Machine(
    config: ConfigRegs, memCount: u16, addr: u32, dataLow: u16, mem: Memory, out: seq<u32>, pulses: seq<u16>)

  function Start(mem: Memory): Machine { Machine(Zeros(), 1, 0, 0, mem, [], []) }

  /** A memory count of zero wraps the 16-bit counter. */
  function Count(c: u16): nat { if c == 0 then 0x1_0000 else c }

  function Advance(a: u32, n: nat): u32 { (a + n) % 0x1_0000_0000 }

  function ReadRange(m: Memory, a: u32, n: nat): (ws: seq<u32>)
    ensures |ws| == n
    decreases n
  {
    if n == 0 then [] else [ReadMem(m, a)] + ReadRange(m, NextAddr(a), n - 1)
  }

  /** One command: its read bit, address and data, the status registers, and the words moved for it. */
  function Perform(a: Machine, read: bool, address: nat, data: u16, status: StatusRegs, moved: seq<u32>): Machine {
    if read then
      if address == 20 then
        var n := Count(a.memCount);
        a.(out := a.out + ReadRange(a.mem, a.addr, n), addr := Advance(a.addr, n))
      else
        a.(out := a.out + [ReadRegister(address, a.config, a.memCount, a.addr, status)])
    else if 32 <= address <= 63 then a.(config := a.config[address - 32 := data])
    else if address == 11 then a.(pulses := a.pulses + [data])
    else if address == 16 then a.(memCount := data)
    else if address == 17 then a.(addr := Join16(High16(a.addr), data))
    else if address == 18 then a.(addr := Join16(data, Low16(a.addr)))
    else if address == 19 then a.(dataLow := data)
    else if address == 20 then a.(mem := a.mem[a.addr := Join16(data, a.dataLow)], addr := NextAddr(a.addr))
    else if address == 25 then a.(out := a.out + moved)
    else a
  }

  function Exec(a: Machine, e: Entry): Machine {
    Perform(a, IsRead(e.word), Address(e.word), Data(e.word), e.status, e.moved)
  }

  function ExecAll(a: Machine, es: seq<Entry>): Machine {
    if es == [] then a else Exec(ExecAll(a, es[..|es|-1]), es[|es|-1])
  }

  predicate IsTransfer(w: CmdWord) { !IsRead(w) && Address(w) == 25 }

  /** The data-FIFO words of a finished command: one more than the number written for a transfer, none otherwise. */
  predicate Done(e: Entry) {
    |e.moved| == if IsTransfer(e.word) then Data(e.word) + 1 else 0
  }

  function CommandWords(es: seq<Entry>): seq<CmdWord> {
    seq(|es|, i requires 0 <= i < |es| => es[i].word)
  }

  function MovedWords(es: seq<Entry>): seq<u32> {
    if es == [] then [] else MovedWords(es[..|es|-1]) + es[|es|-1].moved
  }
}
