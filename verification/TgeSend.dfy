/** From the host's frame buffer through commands, clocked machine, packet RAM and streamer to the wire. */
module TgeSend {
  import opened Words
  import opened Network
  import opened Tge
  import opened TgeFrames
  import opened Commands
  import opened Interpreter
  import opened HostMemory
  import G = PacketGen

  // ----- the frame buffer as 32-bit words -----

  /** Two 16-bit words in memory, read as one 32-bit word. */
  function Cast(host: Host, h0: u16, h1: u16): u32 {
    if host.LittleEndian? then Join16(h1, h0) else Join16(h0, h1)
  }

  /** A buffer of 16-bit words read as 32-bit words by the same host. */
  function AsU32(host: Host, h: seq<u16>): (ws: seq<u32>)
    ensures |ws| == |h| / 2
  {
    seq<u32>(|h| / 2, k requires 0 <= k < |h| / 2 => Cast(host, h[2 * k], h[2 * k + 1]))
  }

  /** Which byte of a group of four the host puts at position `m` of the word. */
  function Place(host: Host, m: nat): nat
    requires m < 4
  {
    if host.LittleEndian? then m else 3 - m
  }

  /** Byte `i` of a word, the least significant first. */
  function ByteOf(x: u32, i: nat): u8 {
    if i == 0 then x % 0x100 else ByteOf(x / 0x100, i - 1)
  }

  lemma BytesOfJoin(a: u8, b: u8, c: u8, d: u8)
    ensures var x := Join16(Join2(c, d), Join2(a, b));
            ByteOf(x, 0) == a && ByteOf(x, 1) == b && ByteOf(x, 2) == c && ByteOf(x, 3) == d
  {
    var z := c + 0x100 * d;
    var y := b + 0x100 * z;
    assert Join16(Join2(c, d), Join2(a, b)) == a + 0x100 * y;
    Digit(a, y);
    Digit(b, z);
    Digit(c, d);
    assert ByteOf(y, 2) == ByteOf(z, 1) == ByteOf(d, 0) && ByteOf(y, 1) == ByteOf(z, 0) && d % 0x100 == d;
  }

  /** The bytes of two words in wire order. */
  function WireOrder(w0: u16, w1: u16, p: nat): u8
    requires p < 4
  {
    if p == 0 then w0 / 0x100 else if p == 1 then w0 % 0x100 else if p == 2 then w1 / 0x100 else w1 % 0x100
  }

  lemma PairBytes(host: Host, w0: u16, w1: u16, m: nat)
    requires m < 4
    ensures ByteOf(Cast(host, Htons(host)(w0), Htons(host)(w1)), m) == WireOrder(w0, w1, Place(host, m))
  {
    var a, b, c, d := w0 / 0x100, w0 % 0x100, w1 / 0x100, w1 % 0x100;
    assert Swap16(w0) == Join2(a, b) && Swap16(w1) == Join2(c, d) && w0 == Join2(b, a) && w1 == Join2(d, c);
    BytesOfJoin(a, b, c, d);
    BytesOfJoin(d, c, b, a);
  }

  lemma {:induction false} CastWord(host: Host, htons: u16 -> u16, ws: seq<u16>, k: nat)
    requires 2 * k + 1 < |ws|
    ensures AsU32(host, MapSeq(htons, ws))[k] == Cast(host, htons(ws[2 * k]), htons(ws[2 * k + 1]))
  {
  }

  lemma BytesOfPair(ws: seq<u16>, k: nat, p: nat)
    requires 2 * k + 1 < |ws| && p < 4
    ensures BytesOf(ws)[4 * k + p] == WireOrder(ws[2 * k], ws[2 * k + 1], p)
  {
  }

  /** The words of a frame buffer in network order hold the frame's bytes, in wire order on a little-endian host and
    reversed in groups of four on a big-endian one. */
  lemma CastBytes(host: Host, ws: seq<u16>, k: nat, m: nat)
    requires 2 * k + 1 < |ws| && m < 4
    ensures ByteOf(AsU32(host, MapSeq(Htons(host), ws))[k], m) == BytesOf(ws)[4 * k + Place(host, m)]
  {
    CastWord(host, Htons(host), ws, k);
    PairBytes(host, ws[2 * k], ws[2 * k + 1], m);
    BytesOfPair(ws, k, Place(host, m));
  }

  // ----- the packet RAM -----

  /** The 64-bit read port of the packet RAM, whose write port takes the machine's memory writes. */
  function RamOf(mem: Memory): G.Ram {
    q => RamWord(mem, q % 2048)
  }

  function RamWord(mem: Memory, q: nat): Word64
    requires q < 2048
  {
    seq<u8>(8, i requires 0 <= i < 8 => ByteOf(ReadMem(mem, 2 * q + i / 4), i % 4))
  }

  /** What the streamer sends of a block stored at address zero: its words' bytes, except for the counter bytes. */
  lemma {:induction false} StoredByte(mem: Memory, vals: seq<u32>, ctr: G.u48, j: nat)
    requires |vals| <= 4096 && j < 4 * |vals| && !(42 <= j < 48)
    ensures G.PacketByte(RamOf(Stored(mem, 0, vals)), ctr, j) == ByteOf(vals[j / 4], j % 4)
  {
    EighthAndQuarter(j);
    StoredWord(mem, vals, j / 4);
    RamByte(Stored(mem, 0, vals), ctr, j);
  }

  lemma {:induction false} RamByte(mem: Memory, ctr: G.u48, j: nat)
    requires j < 16384 && !(42 <= j < 48)
    ensures G.PacketByte(RamOf(mem), ctr, j) == ByteOf(ReadMem(mem, 2 * (j / 8) + j % 8 / 4), j % 8 % 4)
  {
    assert j / 8 % 2048 == j / 8;
  }

  lemma EighthAndQuarter(j: nat)
    ensures j / 4 == 2 * (j / 8) + j % 8 / 4 && j % 4 == j % 8 % 4
  {
  }

  lemma StoredWord(mem: Memory, vals: seq<u32>, k: nat)
    requires |vals| <= 4096 && k < |vals|
    ensures ReadMem(Stored(mem, 0, vals), k) == vals[k]
  {
    CellOf(mem, 0, vals, k);
    assert Advance(0, k) == k;
  }

  /** Where byte `j` on the wire comes from. */
  function Source(host: Host, j: nat): nat {
    4 * (j / 4) + Place(host, j % 4)
  }

  /** A frame stored by the host comes out of the streamer byte for byte, except for the counter bytes, when the host is
    little-endian; on a big-endian host the bytes of each group of four come out reversed. */
  lemma StoredFrameByte(host: Host, mem: Memory, ws: seq<u16>, n: nat, ctr: G.u48, j: nat)
    requires |ws| == 2 * n && n <= 4096 && j < 4 * n && !(42 <= j < 48)
    ensures Source(host, j) < 4 * n
    ensures G.PacketByte(RamOf(Stored(mem, 0, AsU32(host, MapSeq(Htons(host), ws)))), ctr, j) == BytesOf(ws)[Source(host, j)]
  {
    StoredByte(mem, AsU32(host, MapSeq(Htons(host), ws)), ctr, j);
    CastBytes(host, ws, j / 4, j % 4);
  }

  // ----- the commands that store a frame and start the streamer -----

  function SendWords(vals: seq<u32>, length: u32): seq<u32> {
    WriteMemoryWords(0, vals) + WriteRegisterWords(0, length) + SendPulseWords(1)
  }

  /** The part that `tge_cmd_send_arp_reply` and `tge_cmd_send_udp` share. The frame buffer is read as `m` words; `cmdBuf`
    is allocated for all the command words, then handed over, or copied to a buffer that was given. */
  method SendFrame(host: Host, bufio: array?<u32>, frame: array<u16>, m: nat, length: u32)
    returns (buf: array<u32>, n: nat)
    requires frame.Length == 2 * m && m >= 1 && (bufio != null ==> bufio.Length >= 2 * m + 4)
    modifies bufio
    ensures Delivered(Htonl(host), bufio, buf, 0, SendWords(AsU32(host, frame[..]), length)) && n == 4 * (2 * m + 4)
  {
    var vals := AsU32(host, frame[..]);
    assert |vals| == m;
    buf, n := SendWordsOf(Htonl(host), bufio, vals, length);
  }

  method SendWordsOf(htonl: u32 -> u32, bufio: array?<u32>, vals: seq<u32>, length: u32)
    returns (buf: array<u32>, n: nat)
    requires |vals| >= 1 && (bufio != null ==> bufio.Length >= 2 * |vals| + 4)
    modifies bufio
    ensures Delivered(htonl, bufio, buf, 0, SendWords(vals, length)) && n == 4 * (2 * |vals| + 4)
  {
    var cmdBuf;
    cmdBuf, n := FillCommands(htonl, vals, length);
    buf := HandOver(bufio, cmdBuf);
    assert buf[0..0 + |SendWords(vals, length)|] == cmdBuf[..];
  }

  method FillCommands(htonl: u32 -> u32, vals: seq<u32>, length: u32) returns (cmdBuf: array<u32>, n: nat)
    requires |vals| >= 1
    ensures fresh(cmdBuf) && cmdBuf.Length == 2 * |vals| + 4
    ensures cmdBuf[..] == MapSeq(htonl, SendWords(vals, length)) && n == 4 * (2 * |vals| + 4)
  {
    var m := 2 * |vals| + 2;
    cmdBuf := new u32[m + 2](_ => 0);
    var _, n1 := WriteMemory(htonl, cmdBuf, 0, 0, vals);
    ghost var w1 := cmdBuf[..m];
    var _, n2 := WriteRegister(htonl, cmdBuf, m, 0, length);
    assert cmdBuf[..m] == w1;
    ghost var w2 := cmdBuf[m..m+1];
    var _, n3 := SendPulse(htonl, cmdBuf, m + 1, 1);
    assert cmdBuf[..m] == w1 && cmdBuf[m..m+1] == w2;
    n := n1 + n2 + n3;
    SentInParts(htonl, cmdBuf[..], vals, length);
  }

  lemma SentInParts(htonl: u32 -> u32, c: seq<u32>, vals: seq<u32>, length: u32)
    requires |c| == 2 * |vals| + 4
    requires c[..2 * |vals| + 2] == MapSeq(htonl, WriteMemoryWords(0, vals))
    requires c[2 * |vals| + 2..2 * |vals| + 3] == MapSeq(htonl, WriteRegisterWords(0, length))
    requires c[2 * |vals| + 3..] == MapSeq(htonl, SendPulseWords(1))
    ensures c == MapSeq(htonl, SendWords(vals, length))
  {
    assert c == c[..2 * |vals| + 2] + c[2 * |vals| + 2..2 * |vals| + 3] + c[2 * |vals| + 3..];
  }

  /** A frame buffer for 11 words holds the 21 words of the reply and a zero. */
  function ArpPadded(srcMac: u64, srcIp: u32, dstMac: u64, dstIp: u32): (ws: seq<u16>)
    ensures |ws| == 22
  {
    ArpWords(srcMac, srcIp, dstMac, dstIp) + [0]
  }

  function SendArpWords(host: Host, srcMac: u64, srcIp: u32, dstMac: u64, dstIp: u32): seq<u32> {
    SendWords(AsU32(host, MapSeq(Htons(host), ArpPadded(srcMac, srcIp, dstMac, dstIp))), 42)
  }

  method CmdSendArpReply(host: Host, bufio: array?<u32>, srcMac: u64, srcIp: u32, dstMac: u64, dstIp: u32)
    returns (buf: array<u32>, n: nat)
    requires bufio != null ==> bufio.Length >= 26
    modifies bufio
    ensures Delivered(Htonl(host), bufio, buf, 0, SendArpWords(host, srcMac, srcIp, dstMac, dstIp)) && n == 104
  {
    var arpBuf, arpnbytes := BuildPadded(Htons(host), srcMac, srcIp, dstMac, dstIp);
    buf, n := SendFrame(host, bufio, arpBuf, 11, arpnbytes);
  }

  method BuildPadded(htons: u16 -> u16, srcMac: u64, srcIp: u32, dstMac: u64, dstIp: u32)
    returns (arpBuf: array<u16>, arpnbytes: nat)
    requires htons(0) == 0
    ensures fresh(arpBuf) && arpBuf.Length == 22 && arpnbytes == 42
    ensures arpBuf[..] == MapSeq(htons, ArpPadded(srcMac, srcIp, dstMac, dstIp))
  {
    arpBuf := new u16[22](_ => 0);
    arpBuf, arpnbytes := BuildArpReply(htons, arpBuf, srcMac, srcIp, dstMac, dstIp);
    assert arpBuf[..] == arpBuf[..21] + arpBuf[21..];
  }

  function SendUdpWords(host: Host, srcMac: u64, srcIp: u32, srcPort: u16, dstMac: u64, dstIp: u32, dstPort: u16, dataLen: nat)
    : seq<u32>
  {
    SendWords(AsU32(host, MapSeq(Htons(host), UdpWords(srcMac, srcIp, srcPort, dstMac, dstIp, dstPort, dataLen))),
              Cast32(48 + dataLen))
  }

  method CmdSendUdp(host: Host, bufio: array?<u32>, srcMac: u64, srcIp: u32, srcPort: u16,
                    dstMac: u64, dstIp: u32, dstPort: u16, dataLen: nat)
    returns (buf: array<u32>, n: nat)
    requires bufio != null ==> bufio.Length >= 28
    modifies bufio
    ensures Delivered(Htonl(host), bufio, buf, 0, SendUdpWords(host, srcMac, srcIp, srcPort, dstMac, dstIp, dstPort, dataLen))
    ensures n == 112
  {
    var udpBuf, udpnbytes := BuildUdpAlone(Htons(host), srcMac, srcIp, srcPort, dstMac, dstIp, dstPort, dataLen);
    buf, n := SendFrame(host, bufio, udpBuf, 12, Cast32(udpnbytes + dataLen));
  }

  method BuildUdpAlone(htons: u16 -> u16, srcMac: u64, srcIp: u32, srcPort: u16,
                       dstMac: u64, dstIp: u32, dstPort: u16, dataLen: nat)
    returns (udpBuf: array<u16>, udpnbytes: nat)
    ensures fresh(udpBuf) && udpBuf.Length == 24 && udpnbytes == 48
    ensures udpBuf[..] == MapSeq(htons, UdpWords(srcMac, srcIp, srcPort, dstMac, dstIp, dstPort, dataLen))
  {
    udpBuf := new u16[24](_ => 0);
    udpBuf, udpnbytes := BuildUdp(htons, udpBuf, srcMac, srcIp, srcPort, dstMac, dstIp, dstPort, dataLen);
    assert udpBuf[..] == udpBuf[..24];
  }
}
