/** The frame parser of src/ten_gig_eth_rx_parser.vhd. */
module RxParser {
  import opened Words

  /** Constants SRC_MAC, SRC_IP and SRC_PORT, most significant byte first, as all registers here. */
  datatype Config = Config(mac: seq<u8>, ip: seq<u8>, port: seq<u8>)

  /** An entry of the command FIFO. */
  datatype Record = Record(mac: seq<u8>, ip: seq<u8>, port: seq<u8>, cmd: seq<u8>)

  datatype ParserState = S0 | S1 | S2 | S3 | S4 | S5 | S6

  /** The captured fields; registers that are written in two parts appear as the parts. */
  datatype Fields = Fields(
    dstMac: seq<u8>, srcMacHigh: seq<u8>, srcMacLow: seq<u8>, pktType: seq<u8>, opcode: seq<u8>, protocol: u8,
    srcIp: seq<u8>, dstIpHigh: seq<u8>, dstIpLow: seq<u8>, srcPort: seq<u8>, dstPort: seq<u8>, udpCmd: seq<u8>)

  const PKT_ARP := [8, 6]
  const PKT_IP := [8, 0]
  const OPCODE_REQ := [0, 1]
  const PROTOCOL_UDP := 0x11

  /** What the stream presents in one clock period. */
  datatype Cycle = Cycle(valid: bool, data: Word64, last: bool)

  /** The parser proper, at a rising edge: the next state and the captured fields. */
  function Parse(st: ParserState, f: Fields, tstart: bool, c: Cycle): (ParserState, Fields) {
    var d := c.data;
    match st
    case S0 => if tstart then (S1, f.(dstMac := d[0..6], srcMacHigh := d[6..8])) else (S0, f)
    case S1 => if c.valid then (S2, f.(srcMacLow := d[0..4], pktType := d[4..6])) else (S1, f)
    case S2 => if c.valid then (S3, f.(opcode := d[4..6], protocol := d[7])) else (S2, f)
    case S3 =>
      if !c.valid then (S3, f)
      else if f.pktType == PKT_ARP then (S4, f.(srcIp := d[4..8]))
      else (S4, f.(srcIp := d[2..6], dstIpHigh := d[6..8]))
    case S4 =>
      if !c.valid then (S4, f)
      else if f.pktType == PKT_ARP then (S5, f.(dstIpHigh := d[6..8]))
      else (S5, f.(dstIpLow := d[0..2], srcPort := d[2..4], dstPort := d[4..6]))
    case S5 =>
      if !c.valid then (S5, f)
      else
        (if c.last then S0 else S6,
         if f.pktType == PKT_ARP then f.(dstIpLow := d[0..2]) else f.(udpCmd := [d[5], d[4], d[3], d[2]]))
    case S6 => (if c.last then S0 else S6, f)
  }

  /** The record that the check after a frame writes, if it writes one. */
  function Decide(f: Fields, cfg: Config): seq<Record> {
    if f.pktType == PKT_ARP then
      if f.dstIpHigh + f.dstIpLow == cfg.ip && f.opcode == OPCODE_REQ then
        [Record(f.srcMacHigh + f.srcMacLow, f.srcIp, f.srcPort, [0, 0, 0, 0])]
      else []
    else if f.pktType == PKT_IP && f.protocol == PROTOCOL_UDP && f.dstMac == cfg.mac
        && f.dstIpHigh + f.dstIpLow == cfg.ip && f.dstPort == cfg.port then
      [Record(f.srcMacHigh + f.srcMacLow, f.srcIp, f.srcPort, f.udpCmd)]
    else []
  }

  datatype State = State(
    tvalidPrev: bool, tstart: bool, tlast: bool, parser: ParserState, checking: bool, wren: bool, din: Record, fields: Fields)

  /** The falling edge: start detection and the command process. `checking` is its state S1. */
  function Falling(s: State, cfg: Config, c: Cycle): State {
    var out := Decide(s.fields, cfg);
    s.(tvalidPrev := c.valid, tstart := c.valid && !s.tvalidPrev,
       checking := !s.checking && s.tlast,
       wren := s.checking && out != [],
       din := if s.checking && out != [] then out[0] else s.din)
  }

  function Rising(s: State, c: Cycle): State {
    var (p, f) := Parse(s.parser, s.fields, s.tstart, c);
    s.(tlast := c.last, parser := p, fields := f)
  }

  class Parser {
    const cfg: Config
    var tvalidPrev: bool
    var tstart: bool
    var tlast: bool
    var parser: ParserState
    var checking: bool
    var wren: bool
    var din: Record
    var fields: Fields

    constructor (cfg: Config, fields: Fields, din: Record)
      ensures this.cfg == cfg
    {
      this.cfg, this.fields, this.din := cfg, fields, din;
    }

    function Registers(): State
      reads this
    {
      State(tvalidPrev, tstart, tlast, parser, checking, wren, din, fields)
    }

    /** RESET clears the fields and the two state machines. */
    method Reset()
      modifies this
      ensures Registers() == old(Registers()).(fields := Cleared(), parser := S0, checking := false)
    {
      fields := Cleared();
      parser, checking := S0, false;
    }

    method FallingEdge(c: Cycle)
      modifies this
      ensures Registers() == Falling(old(Registers()), cfg, c)
    {
      tstart := c.valid && !tvalidPrev;
      tvalidPrev := c.valid;
      wren := false;
      if checking {
        if fields.pktType == PKT_ARP {
          if fields.dstIpHigh + fields.dstIpLow == cfg.ip && fields.opcode == OPCODE_REQ {
            din := Record(fields.srcMacHigh + fields.srcMacLow, fields.srcIp, fields.srcPort, [0, 0, 0, 0]);
            wren := true;
          }
        } else if fields.pktType == PKT_IP && fields.protocol == PROTOCOL_UDP && fields.dstMac == cfg.mac
            && fields.dstIpHigh + fields.dstIpLow == cfg.ip && fields.dstPort == cfg.port {
          din := Record(fields.srcMacHigh + fields.srcMacLow, fields.srcIp, fields.srcPort, fields.udpCmd);
          wren := true;
        }
        checking := false;
      } else {
        checking := tlast;
      }
    }

    method RisingEdge(c: Cycle)
      modifies this
      ensures Registers() == Rising(old(Registers()), c)
    {
      tlast := c.last;
      var d := c.data;
      match parser {
        case S0 =>
          if tstart {
            fields := fields.(dstMac := d[0..6], srcMacHigh := d[6..8]);
            parser := S1;
          }
        case S1 =>
          if c.valid {
            fields := fields.(srcMacLow := d[0..4], pktType := d[4..6]);
            parser := S2;
          }
        case S2 =>
          if c.valid {
            fields := fields.(opcode := d[4..6], protocol := d[7]);
            parser := S3;
          }
        case S3 =>
          if c.valid {
            if fields.pktType == PKT_ARP {
              fields := fields.(srcIp := d[4..8]);
            } else {
              fields := fields.(srcIp := d[2..6], dstIpHigh := d[6..8]);
            }
            parser := S4;
          }
        case S4 =>
          if c.valid {
            if fields.pktType == PKT_ARP {
              fields := fields.(dstIpHigh := d[6..8]);
            } else {
              fields := fields.(dstIpLow := d[0..2], srcPort := d[2..4], dstPort := d[4..6]);
            }
            parser := S5;
          }
        case S5 =>
          if c.valid {
            if fields.pktType == PKT_ARP {
              fields := fields.(dstIpLow := d[0..2]);
            } else {
              fields := fields.(udpCmd := [d[5], d[4], d[3], d[2]]);
            }
            parser := if c.last then S0 else S6;
          }
        case S6 =>
          if c.last {
            parser := S0;
          }
      }
    }
  }

  function Cleared(): Fields {
    Fields([0, 0, 0, 0, 0, 0], [0, 0], [0, 0, 0, 0], [0, 0], [0, 0], 0, [0, 0, 0, 0], [0, 0], [0, 0], [0, 0], [0, 0], [0, 0, 0, 0])
  }
}
