/** The clocked process of src/control_interface.vhd and the logic around its output FIFO. */
module ControlInterface {
  import opened Words

  /** A word of the 36-bit command FIFO; bits 35..32 and 30..28 are not used. */
  type CmdWord = u36

  predicate IsRead(w: CmdWord) { w / 0x8000_0000 % 2 == 1 }
  function Address(w: CmdWord): nat { w / 0x1_0000 % 0x1000 }
  function Data(w: CmdWord): u16 { w % 0x1_0000 }

  function Zeros(): (z: seq<u16>)
    ensures |z| == 32 && forall k | 0 <= k < 32 :: z[k] == 0
  {
    seq(32, _ => 0)
  }

  /** CONFIG_REG and STATUS_REG, cut into their 16-bit registers. */
  type ConfigRegs = c: seq<u16> | |c| == 32 witness Zeros()
  type StatusRegs = c: seq<u16> | |c| == 11 witness Zeros()[..11]

  datatype CmdState = INIT | WAIT_CMD | GET_CMD | INTERPRET_CMD | MEM_ADV | MEM_RD_CNT | PULSE_DELAY | FIFO_ADV

  /** `bMemNotReg`: the source of the words that go to the output FIFO. */
  datatype Select = SEL_REG | SEL_MEM | SEL_FIFO

  /** The registers of the entity. `dinReg` and `dinHigh` are the two halves of `sDinA`. */
  datatype Registers = Registers(
    cmdState: CmdState, rdreq: bool,
    configReg: ConfigRegs, pulseReg: u16,
    dinReg: u16, dinHigh: u16, memioCnt: u16, wea: bool, addrA: u32,
    select: Select, wrreq: bool, regOut: u16,
    counterV: u16, counterFifo: u16)

  /** What the process sees at a rising edge. */
  datatype Pins = Pins(cmdQ: CmdWord, cmdEmpty: bool, full: bool, status: StatusRegs, dataEmpty: bool)

  /** `counterV` is a 16-bit counter: the range 0 to 65535 leaves it no other value below zero. */
  function Decrement(v: u16): u16 { if v == 0 then 0xFFFF else v - 1 }
  function NextAddr(a: u32): u32 { (a + 1) % 0x1_0000_0000 }

  /** RESET is asynchronous; it leaves the registers it does not name as they were. */
  function AfterReset(r: Registers): Registers {
    r.(counterV := 0, cmdState := INIT, rdreq := false, configReg := Zeros(), pulseReg := 0, dinReg := 0,
       memioCnt := 0, wea := false, addrA := 0, select := SEL_REG)
  }

  /** The assignments before the case, and the register of the high half of the memory word. */
  function Defaults(r: Registers, p: Pins): Registers {
    r.(rdreq := false, wrreq := false, wea := false, regOut := 0, dinHigh := Low16(p.cmdQ))
  }

  /** The registers after a rising edge of CLK. */
  function Edge(r: Registers, p: Pins): Registers
  {
    var d := Defaults(r, p);
    match r.cmdState
    case INIT => EdgeInit(d)
    case WAIT_CMD => EdgeWait(d, p)
    case INTERPRET_CMD => EdgeInterpret(d, p)
    case MEM_ADV =>
      d.(addrA := NextAddr(r.addrA), cmdState := WAIT_CMD)
    case MEM_RD_CNT => EdgeMemRead(d, p)
    case PULSE_DELAY => EdgePulse(d)
    case FIFO_ADV => EdgeFifo(d, p)
    case GET_CMD =>
      d.(cmdState := WAIT_CMD)
  }

  function EdgeInit(d: Registers): Registers {
    d.(configReg := Zeros(), pulseReg := 0, addrA := 0, memioCnt := 1, cmdState := WAIT_CMD)
  }

  function EdgeWait(d: Registers, p: Pins): Registers {
    var w := d.(select := SEL_REG, pulseReg := 0);
    if p.cmdEmpty then w else w.(rdreq := true, cmdState := INTERPRET_CMD)
  }

  function EdgePulse(d: Registers): Registers {
    var v := Decrement(d.counterV);
    d.(counterV := v, cmdState := if v == 0 then WAIT_CMD else PULSE_DELAY)
  }

  /** What a read of a register address returns; `None` for the memory. Unassigned addresses return FFFF. */
  function ReadRegister(address: nat, configReg: ConfigRegs, memioCnt: u16, addrA: u32, status: StatusRegs): u16
  {
    if 32 <= address <= 63 then configReg[address - 32]
    else if address <= 10 then status[address]
    else if address == 16 then memioCnt
    else if address == 17 then Low16(addrA)
    else if address == 18 then High16(addrA)
    else 0xFFFF
  }

  function EdgeInterpret(d: Registers, p: Pins): Registers {
    if IsRead(p.cmdQ) then EdgeRead(d, p) else EdgeWrite(d, p)
  }

  function EdgeRead(d: Registers, p: Pins): Registers
  {
    if Address(p.cmdQ) == 20 then
      var m := d.(counterV := d.memioCnt, select := SEL_MEM);
      if p.full then m else m.(wrreq := true, addrA := NextAddr(d.addrA), cmdState := MEM_RD_CNT)
    else
      d.(regOut := ReadRegister(Address(p.cmdQ), d.configReg, d.memioCnt, d.addrA, p.status),
         wrreq := true, cmdState := WAIT_CMD)
  }

  function EdgeWrite(d: Registers, p: Pins): Registers
  {
    var address, data := Address(p.cmdQ), Data(p.cmdQ);
    if 32 <= address <= 63 then d.(configReg := d.configReg[address - 32 := data], cmdState := WAIT_CMD)
    else if address == 11 then d.(pulseReg := data, counterV := 2, cmdState := PULSE_DELAY)
    else if address == 16 then d.(memioCnt := data, cmdState := WAIT_CMD)
    else if address == 17 then d.(addrA := Join16(High16(d.addrA), data), cmdState := WAIT_CMD)
    else if address == 18 then d.(addrA := Join16(data, Low16(d.addrA)), cmdState := WAIT_CMD)
    else if address == 19 then d.(dinReg := data, cmdState := WAIT_CMD)
    else if address == 20 then d.(wea := true, cmdState := MEM_ADV)
    else if address == 25 then d.(counterFifo := data, select := SEL_FIFO, cmdState := FIFO_ADV)
    else d.(cmdState := WAIT_CMD)
  }

  function EdgeMemRead(d: Registers, p: Pins): Registers {
    var v := Decrement(d.counterV);
    if v == 0 then d.(counterV := v, cmdState := WAIT_CMD)
    else if !p.full then d.(counterV := v, wrreq := true, addrA := NextAddr(d.addrA))
    else d
  }

  function EdgeFifo(d: Registers, p: Pins): Registers {
    if p.dataEmpty || p.full then d.(select := SEL_FIFO)
    else if d.counterFifo == 0 then d.(select := SEL_REG, cmdState := WAIT_CMD)
    else d.(select := SEL_FIFO, counterFifo := d.counterFifo - 1)
  }

  // ----- the process, as the source writes it -----

  class Interface {
    var cmdState: CmdState
    var rdreq: bool
    var configReg: ConfigRegs
    var pulseReg: u16
    var dinReg: u16
    var dinHigh: u16
    var memioCnt: u16
    var wea: bool
    var addrA: u32
    var select: Select
    var wrreq: bool
    var regOut: u16
    var counterV: u16
    var counterFifo: u16

    function Regs(): Registers
      reads this
    {
      Registers(cmdState, rdreq, configReg, pulseReg, dinReg, dinHigh, memioCnt, wea, addrA,
                select, wrreq, regOut, counterV, counterFifo)
    }

    method Reset()
      modifies this
      ensures Regs() == AfterReset(old(Regs()))
    {
      counterV := 0;
      cmdState := INIT;
      rdreq := false;
      configReg := Zeros();
      pulseReg, dinReg, memioCnt := 0, 0, 0;
      wea := false;
      addrA := 0;
      select := SEL_REG;
    }

    /** One rising edge: the defaults, then the case on the state. A signal read here still has the value it had
      before the edge, because no branch reads a signal after assigning it. */
    method Clock(p: Pins)
      modifies this
      ensures Regs() == Edge(old(Regs()), p)
    {
      SetDefaults(p);
      match cmdState {
        case INIT => Initialize();
        case WAIT_CMD => WaitForCommand(p);
        case INTERPRET_CMD => Interpret(p);
        case MEM_ADV =>
          addrA := NextAddr(addrA);
          cmdState := WAIT_CMD;
        case MEM_RD_CNT => MemRead(p);
        case PULSE_DELAY => PulseDelay();
        case FIFO_ADV => FifoAdvance(p);
        case GET_CMD =>
          cmdState := WAIT_CMD;
      }
    }

    method SetDefaults(p: Pins)
      modifies this
      ensures Regs() == Defaults(old(Regs()), p)
    {
      dinHigh := p.cmdQ % 0x1_0000;
      rdreq, wrreq, wea, regOut := false, false, false, 0;
    }

    method Initialize()
      modifies this
      ensures Regs() == EdgeInit(old(Regs()))
    {
      configReg, pulseReg, addrA := Zeros(), 0, 0;
      memioCnt := 1;
      cmdState := WAIT_CMD;
    }

    method WaitForCommand(p: Pins)
      modifies this
      ensures Regs() == EdgeWait(old(Regs()), p)
    {
      select := SEL_REG;
      pulseReg := 0;
      if !p.cmdEmpty {
        rdreq := true;
        cmdState := INTERPRET_CMD;
      }
    }

    method PulseDelay()
      requires Regs().cmdState == PULSE_DELAY
      modifies this
      ensures Regs() == EdgePulse(old(Regs()))
    {
      counterV := Decrement(counterV);
      if counterV == 0 {
        cmdState := WAIT_CMD;
      }
    }

    method MemRead(p: Pins)
      requires Regs().cmdState == MEM_RD_CNT
      modifies this
      ensures Regs() == EdgeMemRead(old(Regs()), p)
    {
      counterV := Decrement(counterV);
      if counterV == 0 {
        cmdState := WAIT_CMD;
      } else if !p.full {
        wrreq := true;
        addrA := NextAddr(addrA);
        cmdState := MEM_RD_CNT;
      } else {
        counterV := if counterV == 0xFFFF then 0 else counterV + 1;
        cmdState := MEM_RD_CNT;
      }
    }

    method FifoAdvance(p: Pins)
      requires Regs().cmdState == FIFO_ADV
      modifies this
      ensures Regs() == EdgeFifo(old(Regs()), p)
    {
      select := SEL_FIFO;
      cmdState := FIFO_ADV;
      if !p.dataEmpty && !p.full {
        if counterFifo == 0 {
          select := SEL_REG;
          cmdState := WAIT_CMD;
        } else {
          counterFifo := counterFifo - 1;
        }
      }
    }

    method Interpret(p: Pins)
      modifies this
      ensures Regs() == EdgeInterpret(old(Regs()), p)
    {
      if p.cmdQ / 0x8000_0000 % 2 == 1 {
        InterpretRead(p);
      } else {
        InterpretWrite(p);
      }
    }

    /** Apart from the memory at 20, every address presents one word. */
    method InterpretRead(p: Pins)
      modifies this
      ensures Regs() == EdgeRead(old(Regs()), p)
      ensures var address := p.cmdQ / 0x1_0000 % 0x1000;
              && (address != 20 ==> wrreq && cmdState == WAIT_CMD)
              && (address <= 10 ==> regOut == p.status[address])
              && (address == 16 ==> regOut == old(memioCnt))
              && (address == 17 ==> regOut == old(addrA) % 0x1_0000)
              && (address == 18 ==> regOut == old(addrA) / 0x1_0000)
              && (32 <= address <= 63 ==> regOut == old(configReg)[address - 32])
              && (11 <= address <= 15 || address == 19 || 21 <= address <= 31 || address >= 64 ==> regOut == 0xFFFF)
    {
      var address := p.cmdQ / 0x1_0000 % 0x1000;
      if 32 <= address <= 63 {
        regOut := configReg[address - 32];
        wrreq, cmdState := true, WAIT_CMD;
      } else if 0 <= address <= 10 {
        regOut := p.status[address];
        wrreq, cmdState := true, WAIT_CMD;
      } else if address == 16 {
        regOut := memioCnt;
        wrreq, cmdState := true, WAIT_CMD;
      } else if address == 17 {
        regOut := addrA % 0x1_0000;
        wrreq, cmdState := true, WAIT_CMD;
      } else if address == 18 {
        regOut := addrA / 0x1_0000;
        wrreq, cmdState := true, WAIT_CMD;
      } else if address == 20 {
        counterV := memioCnt;
        select := SEL_MEM;
        if !p.full {
          wrreq := true;
          addrA := NextAddr(addrA);
          cmdState := MEM_RD_CNT;
        }
      } else {
        regOut := 0xFFFF;
        wrreq, cmdState := true, WAIT_CMD;
      }
    }

    method InterpretWrite(p: Pins)
      modifies this
      ensures Regs() == EdgeWrite(old(Regs()), p)
    {
      var address, data := p.cmdQ / 0x1_0000 % 0x1000, p.cmdQ % 0x1_0000;
      if 32 <= address <= 63 {
        configReg := configReg[address - 32 := data];
        cmdState := WAIT_CMD;
      } else if address == 11 {
        pulseReg, counterV := data, 2;
        cmdState := PULSE_DELAY;
      } else if address == 16 {
        memioCnt := data;
        cmdState := WAIT_CMD;
      } else if address == 17 {
        addrA := addrA / 0x1_0000 * 0x1_0000 + data;
        cmdState := WAIT_CMD;
      } else if address == 18 {
        addrA := data * 0x1_0000 + addrA % 0x1_0000;
        cmdState := WAIT_CMD;
      } else if address == 19 {
        dinReg := data;
        cmdState := WAIT_CMD;
      } else if address == 20 {
        wea := true;
        cmdState := MEM_ADV;
      } else if address == 25 {
        counterFifo := data;
        select := SEL_FIFO;
        cmdState := FIFO_ADV;
      } else {
        cmdState := WAIT_CMD;
      }
    }
  }

  // ----- the output FIFO's inputs -----

  function WriteEnable(r: Registers, dataEmpty: bool): bool {
    if r.select == SEL_FIFO then !dataEmpty else r.wrreq
  }

  function ReadData(r: Registers, full: bool): bool {
    r.select == SEL_FIFO && !full
  }
}
