/** What the built frames are: their bytes, their checksum, and how the parser of the other end reads them. */
module TgeFrames {
  import opened Arith
  import opened Words
  import opened Network
  import opened Tge
  import F = FrameParsing
  import P = RxParser

  // ----- the IPv4 header checksum -----

  /** One's-complement addition of 16-bit words, carries folded back until none is left (section 1 of RFC 1071). */
  function OnesSum(x: nat): nat
    decreases x
  {
    if x < 0x1_0000 then x else OnesSum(x / 0x1_0000 + x % 0x1_0000)
  }

  /** For a sum of at most ten words: the checksum with its single fold is right, that is the header adds up to all ones,
    exactly when that fold does not carry. */
  lemma ChecksumOfSum(s: nat)
    requires s <= 10 * 0xFFFF
    ensures OnesSum(s + FoldedOnce(s)) == 0xFFFF <==> s / 0x1_0000 + s % 0x1_0000 < 0x1_0000
  {
    var h, l := s / 0x1_0000, s % 0x1_0000;
    var t := s + FoldedOnce(s);
    if h + l < 0x1_0000 {
      assert t == h * 0x1_0000 + (0xFFFF - h);
      assert t / 0x1_0000 == h && t % 0x1_0000 == 0xFFFF - h;
    } else {
      assert Low16(h + l) == h + l - 0x1_0000;
      assert t == (h + 1) * 0x1_0000 + (0xFFFF - h);
      assert t / 0x1_0000 == h + 1 && t % 0x1_0000 == 0xFFFF - h;
      assert OnesSum(0x1_0000) == 1;
    }
  }

  lemma SumAppend(ws: seq<u16>, x: u16)
    ensures Sum(ws + [x]) == Sum(ws) + x
  {
    assert (ws + [x])[..|ws|] == ws;
  }

  lemma SumOf5(a: u16, b: u16, c: u16, d: u16, e: u16, ws: seq<u16>)
    ensures Sum(ws + [a, b, c, d, e]) == Sum(ws) + a + b + c + d + e
  {
    assert ws + [a, b, c, d, e] == ws + [a] + [b] + [c] + [d] + [e];
    SumAppend(ws, a);
    SumAppend(ws + [a], b);
    SumAppend(ws + [a] + [b], c);
    SumAppend(ws + [a] + [b] + [c], d);
    SumAppend(ws + [a] + [b] + [c] + [d], e);
  }

  /** What the checksum field must cover. */
  function HeaderSum(srcIp: u32, dstIp: u32, dataLen: nat): nat {
    0x4500 + Low16(dataLen + 34) + 0x4011 + High16(srcIp) + Low16(srcIp) + High16(dstIp) + Low16(dstIp)
  }

  lemma SumOfHeader(srcIp: u32, dstIp: u32, dataLen: nat, csum: u16)
    ensures Sum(IpHeader(srcIp, dstIp, dataLen, csum)) == HeaderSum(srcIp, dstIp, dataLen) + csum
  {
    var front := [0x4500, Low16(dataLen + 34), 0x0000, 0x0000, 0x4011];
    var back := [csum, High16(srcIp), Low16(srcIp), High16(dstIp), Low16(dstIp)];
    assert IpHeader(srcIp, dstIp, dataLen, csum) == front + back && front == [] + front;
    SumOf5(0x4500, Low16(dataLen + 34), 0x0000, 0x0000, 0x4011, []);
    SumOf5(csum, High16(srcIp), Low16(srcIp), High16(dstIp), Low16(dstIp), front);
  }

  /** The header of a built datagram verifies exactly when folding the sum of its words once does not carry. */
  lemma HeaderVerifies(srcIp: u32, dstIp: u32, dataLen: nat)
    ensures var s, header := HeaderSum(srcIp, dstIp, dataLen), IpHeader(srcIp, dstIp, dataLen, HeaderChecksum(srcIp, dstIp, dataLen));
            OnesSum(Sum(header)) == 0xFFFF <==> s / 0x1_0000 + s % 0x1_0000 < 0x1_0000
  {
    SumOfHeader(srcIp, dstIp, dataLen, 0);
    SumOfHeader(srcIp, dstIp, dataLen, HeaderChecksum(srcIp, dstIp, dataLen));
    ChecksumOfSum(HeaderSum(srcIp, dstIp, dataLen));
  }

  /** There are addresses for which it does carry, and the header is rejected: 192.168.1.10 to 192.168.248.113. */
  lemma HeaderCanFail()
    ensures OnesSum(Sum(IpHeader(0xC0A8_010A, 0xC0A8_F871, 0, HeaderChecksum(0xC0A8_010A, 0xC0A8_F871, 0)))) != 0xFFFF
  {
    HeaderVerifies(0xC0A8_010A, 0xC0A8_F871, 0);
  }

  // ----- bytes on the wire -----

  /** Words in network order: the most significant byte first. */
  function BytesOf(ws: seq<u16>): (b: seq<u8>)
    ensures |b| == 2 * |ws|
  {
    seq<u8>(2 * |ws|, j requires 0 <= j < 2 * |ws| => if j % 2 == 0 then ws[j / 2] / 0x100 else ws[j / 2] % 0x100)
  }

  function PortBytes(p: u16): seq<u8> { [p / 0x100, p % 0x100] }
  function IpBytes(ip: u32): seq<u8> { [ip / 0x100_0000, ip / 0x1_0000 % 0x100, ip / 0x100 % 0x100, ip % 0x100] }

  /** The six bytes of a MAC address held in the low 48 bits. */
  function MacBytes(mac: u64): (b: seq<u8>)
    ensures |b| == 6
  {
    [mac / 0x1_0000_0000 / 0x100 % 0x100, mac / 0x1_0000_0000 % 0x100,
     mac / 0x1_0000 / 0x100 % 0x100, mac / 0x1_0000 % 0x100, mac / 0x100 % 0x100, mac % 0x100]
  }

  lemma BytesConcat(a: seq<u16>, b: seq<u16>)
    ensures BytesOf(a + b) == BytesOf(a) + BytesOf(b)
  {
  }

  lemma HighByte(y: nat)
    ensures Low16(y) / 0x100 == y / 0x100 % 0x100 && Low16(y) % 0x100 == y % 0x100
  {
  }

  lemma MacIsItsBytes(mac: u64)
    ensures BytesOf([MacWord(mac, 0), MacWord(mac, 1), MacWord(mac, 2)]) == MacBytes(mac)
  {
    HighByte(mac / 0x1_0000_0000);
    HighByte(mac / 0x1_0000);
    HighByte(mac);
  }

  lemma IpIsItsBytes(ip: u32)
    ensures BytesOf([High16(ip), Low16(ip)]) == IpBytes(ip)
  {
    HighByte(ip);
    assert ip / 0x1_0000 / 0x100 == ip / 0x100_0000;
  }

  /** An Ethernet header: destination, source, type. */
  function EthernetBytes(dstMac: u64, srcMac: u64, pktType: u16): seq<u8> {
    MacBytes(dstMac) + MacBytes(srcMac) + PortBytes(pktType)
  }

  /** The reply of RFC 826: hardware type 1, protocol type 0x800, address lengths 6 and 4, operation 2, then sender and
    target. */
  function ArpReplyBytes(srcMac: u64, srcIp: u32, dstMac: u64, dstIp: u32): seq<u8> {
    EthernetBytes(dstMac, srcMac, 0x0806) + [0, 1, 8, 0, 6, 4, 0, 2]
      + (MacBytes(srcMac) + IpBytes(srcIp)) + (MacBytes(dstMac) + IpBytes(dstIp))
  }

  lemma EthernetIsItsBytes(dstMac: u64, srcMac: u64, pktType: u16)
    ensures BytesOf(EthernetWords(dstMac, srcMac, pktType)) == EthernetBytes(dstMac, srcMac, pktType)
  {
    var d := [MacWord(dstMac, 0), MacWord(dstMac, 1), MacWord(dstMac, 2)];
    var s := [MacWord(srcMac, 0), MacWord(srcMac, 1), MacWord(srcMac, 2)];
    assert EthernetWords(dstMac, srcMac, pktType) == d + s + [pktType];
    BytesConcat(d + s, [pktType]);
    BytesConcat(d, s);
    MacIsItsBytes(dstMac);
    MacIsItsBytes(srcMac);
  }

  lemma HalfIsItsBytes(mac: u64, ip: u32)
    ensures BytesOf([MacWord(mac, 0), MacWord(mac, 1), MacWord(mac, 2)] + [High16(ip), Low16(ip)]) == MacBytes(mac) + IpBytes(ip)
  {
    BytesConcat([MacWord(mac, 0), MacWord(mac, 1), MacWord(mac, 2)], [High16(ip), Low16(ip)]);
    MacIsItsBytes(mac);
    IpIsItsBytes(ip);
  }

  /** The builder's words are the reply of RFC 826. */
  lemma ArpIsItsBytes(srcMac: u64, srcIp: u32, dstMac: u64, dstIp: u32)
    ensures BytesOf(ArpWords(srcMac, srcIp, dstMac, dstIp)) == ArpReplyBytes(srcMac, srcIp, dstMac, dstIp)
  {
    var head: seq<u16> := [0x0001, 0x0800, 0x0604, 0x0002];
    var src := [MacWord(srcMac, 0), MacWord(srcMac, 1), MacWord(srcMac, 2)] + [High16(srcIp), Low16(srcIp)];
    var dst := [MacWord(dstMac, 0), MacWord(dstMac, 1), MacWord(dstMac, 2)] + [High16(dstIp), Low16(dstIp)];
    var eth := EthernetWords(dstMac, srcMac, 0x0806);
    assert ArpBody(srcMac, srcIp, dstMac, dstIp) == head + src + dst;
    assert ArpWords(srcMac, srcIp, dstMac, dstIp) == eth + head + src + dst;
    BytesConcat(eth + head + src, dst);
    BytesConcat(eth + head, src);
    BytesConcat(eth, head);
    EthernetIsItsBytes(dstMac, srcMac, 0x0806);
    HalfIsItsBytes(srcMac, srcIp);
    HalfIsItsBytes(dstMac, dstIp);
    assert BytesOf(head) == [0, 1, 8, 0, 6, 4, 0, 2];
  }

  /** The header of a datagram: RFC 791 with no options, identification or fragment offset, time to live 64 and protocol 17,
    then RFC 768 without a checksum, and six dummy bytes. The lengths count the header and the dummy bytes. */
  function UdpBytes(
      srcMac: u64, srcIp: u32, srcPort: u16, dstMac: u64, dstIp: u32, dstPort: u16, dataLen: nat): seq<u8>
  {
    EthernetBytes(dstMac, srcMac, 0x0800)
      + ([0x45, 0] + PortBytes((dataLen + 34) % 0x1_0000) + [0, 0, 0, 0, 0x40, 17]
         + PortBytes(HeaderChecksum(srcIp, dstIp, dataLen)) + IpBytes(srcIp) + IpBytes(dstIp))
      + (PortBytes(srcPort) + PortBytes(dstPort) + PortBytes((dataLen + 14) % 0x1_0000)
         + [0, 0, 0x79, 0x4d, 0x65, 0x69, 0x49, 0x50])
  }

  lemma IpHeaderIsItsBytes(srcIp: u32, dstIp: u32, dataLen: nat, csum: u16)
    ensures BytesOf(IpHeader(srcIp, dstIp, dataLen, csum)) ==
            [0x45, 0] + PortBytes((dataLen + 34) % 0x1_0000) + [0, 0, 0, 0, 0x40, 17] + PortBytes(csum) + IpBytes(srcIp) + IpBytes(dstIp)
  {
    var front := [0x4500, Low16(dataLen + 34), 0x0000, 0x0000, 0x4011, csum];
    var src, dst := [High16(srcIp), Low16(srcIp)], [High16(dstIp), Low16(dstIp)];
    assert IpHeader(srcIp, dstIp, dataLen, csum) == front + src + dst;
    BytesConcat(front + src, dst);
    BytesConcat(front, src);
    IpIsItsBytes(srcIp);
    IpIsItsBytes(dstIp);
    FrontIsItsBytes(Low16(dataLen + 34), csum);
  }

  lemma FrontIsItsBytes(len: u16, csum: u16)
    ensures BytesOf([0x4500, len, 0x0000, 0x0000, 0x4011, csum]) ==
            [0x45, 0] + PortBytes(len) + [0, 0, 0, 0, 0x40, 17] + PortBytes(csum)
  {
  }

  lemma UdpHeaderIsItsBytes(srcPort: u16, dstPort: u16, dataLen: nat)
    ensures BytesOf(UdpHeader(srcPort, dstPort, dataLen)) ==
            PortBytes(srcPort) + PortBytes(dstPort) + PortBytes((dataLen + 14) % 0x1_0000)
              + [0, 0, 0x79, 0x4d, 0x65, 0x69, 0x49, 0x50]
  {
  }

  /** The builder's words are that header, all 48 bytes of it. */
  lemma UdpIsItsBytes(srcMac: u64, srcIp: u32, srcPort: u16, dstMac: u64, dstIp: u32, dstPort: u16, dataLen: nat)
    ensures BytesOf(UdpWords(srcMac, srcIp, srcPort, dstMac, dstIp, dstPort, dataLen))
         == UdpBytes(srcMac, srcIp, srcPort, dstMac, dstIp, dstPort, dataLen)
  {
    var eth, csum := EthernetWords(dstMac, srcMac, 0x0800), HeaderChecksum(srcIp, dstIp, dataLen);
    var ip, udp := IpHeader(srcIp, dstIp, dataLen, csum), UdpHeader(srcPort, dstPort, dataLen);
    BytesConcat(eth + ip, udp);
    BytesConcat(eth, ip);
    EthernetIsItsBytes(dstMac, srcMac, 0x0800);
    IpHeaderIsItsBytes(srcIp, dstIp, dataLen, csum);
    UdpHeaderIsItsBytes(srcPort, dstPort, dataLen);
  }

  /** Where its fields lie. */
  lemma UdpFields(srcMac: u64, srcIp: u32, srcPort: u16, dstMac: u64, dstIp: u32, dstPort: u16, dataLen: nat)
    ensures var b := UdpBytes(srcMac, srcIp, srcPort, dstMac, dstIp, dstPort, dataLen);
            && |b| == 48 && b[0..6] == MacBytes(dstMac) && b[6..12] == MacBytes(srcMac) && b[12..14] == [8, 0]
            && b[16..18] == PortBytes((dataLen + 34) % 0x1_0000) && b[22..24] == [0x40, 17]
            && b[24..26] == PortBytes(HeaderChecksum(srcIp, dstIp, dataLen))
            && b[26..30] == IpBytes(srcIp) && b[30..34] == IpBytes(dstIp)
            && b[34..36] == PortBytes(srcPort) && b[36..38] == PortBytes(dstPort)
            && b[38..40] == PortBytes((dataLen + 14) % 0x1_0000)
  {
    var e := EthernetBytes(dstMac, srcMac, 0x0800);
    assert e[0..6] == MacBytes(dstMac) && e[6..12] == MacBytes(srcMac) && e[12..14] == [8, 0];
    SlicesOfHeaders(e, PortBytes((dataLen + 34) % 0x1_0000), PortBytes(HeaderChecksum(srcIp, dstIp, dataLen)),
                    IpBytes(srcIp), IpBytes(dstIp), PortBytes(srcPort), PortBytes(dstPort), PortBytes((dataLen + 14) % 0x1_0000));
  }

  lemma SlicesOfHeaders(
      e: seq<u8>, len: seq<u8>, csum: seq<u8>, src: seq<u8>, dst: seq<u8>, sp: seq<u8>, dp: seq<u8>, udpLen: seq<u8>)
    requires |e| == 14 && |len| == |csum| == |sp| == |dp| == |udpLen| == 2 && |src| == |dst| == 4
    ensures var b := e + ([0x45, 0] + len + [0, 0, 0, 0, 0x40, 17] + csum + src + dst)
                       + (sp + dp + udpLen + [0, 0, 0x79, 0x4d, 0x65, 0x69, 0x49, 0x50]);
            && |b| == 48 && b[0..6] == e[0..6] && b[6..12] == e[6..12] && b[12..14] == e[12..14]
            && b[16..18] == len && b[22..24] == [0x40, 17] && b[24..26] == csum && b[26..30] == src && b[30..34] == dst
            && b[34..36] == sp && b[36..38] == dp && b[38..40] == udpLen
  {
    var ip := [0x45, 0] + len + [0, 0, 0, 0, 0x40, 17] + csum + src + dst;
    var udp := sp + dp + udpLen + [0, 0, 0x79, 0x4d, 0x65, 0x69, 0x49, 0x50];
    assert ip[2..4] == len && ip[8..10] == [0x40, 17] && ip[10..12] == csum && ip[12..16] == src && ip[16..20] == dst;
    assert udp[0..2] == sp && udp[2..4] == dp && udp[4..6] == udpLen;
    PartOfThree(e, ip, udp);
  }

  lemma PartOfThree(e: seq<u8>, ip: seq<u8>, udp: seq<u8>)
    requires |e| == 14 && |ip| == 20 && |udp| == 14
    ensures var b := e + ip + udp;
            && (forall i, j | 0 <= i <= j <= 14 :: b[i..j] == e[i..j])
            && (forall i, j | 14 <= i <= j <= 34 :: b[i..j] == ip[i - 14..j - 14])
            && (forall i, j | 34 <= i <= j <= 48 :: b[i..j] == udp[i - 34..j - 34])
  {
  }

  /** The 16-bit number at an offset, most significant byte first. */
  function NumberAt(b: seq<u8>, i: nat): nat
    requires i + 1 < |b|
  {
    var high: nat := b[i];
    0x100 * high + b[i + 1]
  }

  lemma NumberOfPort(b: seq<u8>, i: nat, p: u16)
    requires i + 2 <= |b| && b[i..i + 2] == PortBytes(p)
    ensures NumberAt(b, i) == p
  {
    assert b[i] == b[i..i + 2][0] && b[i + 1] == b[i..i + 2][1];
  }

  lemma LengthsFit(b: seq<u8>, dataLen: nat)
    requires 48 + dataLen <= 0xFFFF && |b| == 48
    requires b[16..18] == PortBytes((dataLen + 34) % 0x1_0000) && b[38..40] == PortBytes((dataLen + 14) % 0x1_0000)
    ensures NumberAt(b, 16) == dataLen + 34 && NumberAt(b, 38) == dataLen + 14
  {
    var total: u16, udp: u16 := dataLen + 34, dataLen + 14;
    Low16Same(total);
    Low16Same(udp);
    NumberOfPort(b, 16, total);
    NumberOfPort(b, 38, udp);
  }

  /** The lengths of a datagram that fits: the IPv4 length is the whole frame but the Ethernet header, the UDP length that
    but the IPv4 header. */
  lemma UdpLengths(srcMac: u64, srcIp: u32, srcPort: u16, dstMac: u64, dstIp: u32, dstPort: u16, dataLen: nat)
    requires 48 + dataLen <= 0xFFFF
    ensures var b := BytesOf(UdpWords(srcMac, srcIp, srcPort, dstMac, dstIp, dstPort, dataLen));
            |b| == 48 && NumberAt(b, 16) == 48 + dataLen - 14 && NumberAt(b, 38) == NumberAt(b, 16) - 20
  {
    UdpIsItsBytes(srcMac, srcIp, srcPort, dstMac, dstIp, dstPort, dataLen);
    UdpFields(srcMac, srcIp, srcPort, dstMac, dstIp, dstPort, dataLen);
    LengthsFit(UdpBytes(srcMac, srcIp, srcPort, dstMac, dstIp, dstPort, dataLen), dataLen);
  }

  // ----- how the parser reads a built datagram -----

  /** The first 42 bytes of a frame, six whole beats at least, are those of `b`. What follows is payload. */
  ghost predicate Carries(f: F.Frame, b: seq<u8>) {
    |f| >= 6 && |b| >= 42 && forall j | 0 <= j < 42 :: f[j / 8][j % 8] == b[j]
  }

  lemma FieldIsSlice(f: F.Frame, b: seq<u8>, from: nat, n: nat)
    requires Carries(f, b) && from % 8 + n <= 8 && from + n <= 42
    ensures from / 8 < |f| && F.Field(f, from, n) == b[from..from + n]
  {
    forall i | 0 <= i < n ensures F.Field(f, from, n)[i] == b[from + i] {
      assert (from + i) / 8 == from / 8 && (from + i) % 8 == from % 8 + i;
      assert f[(from + i) / 8][(from + i) % 8] == b[from + i];
    }
  }

  lemma TwoSlices(f: F.Frame, b: seq<u8>, from: nat, m: nat, n: nat)
    requires Carries(f, b) && from % 8 + m <= 8 && (from + m) % 8 + n <= 8 && from + m + n <= 42
    ensures from / 8 < |f| && (from + m) / 8 < |f|
    ensures F.Field(f, from, m) + F.Field(f, from + m, n) == b[from..from + m + n]
  {
    FieldIsSlice(f, b, from, m);
    FieldIsSlice(f, b, from + m, n);
  }

  /** The record called for, from the bytes in the order of the wire. */
  function Called(b: seq<u8>, cmd: seq<u8>, cfg: P.Config, leftOver: seq<u8>): seq<P.Record>
    requires |b| >= 42
  {
    if b[12..14] == [8, 6] then
      if b[20..22] == [0, 1] && b[38..42] == cfg.ip then [P.Record(b[6..12], b[28..32], leftOver, [0, 0, 0, 0])] else []
    else if b[12..14] == [8, 0] && b[23] == 17 && b[0..6] == cfg.mac && b[30..34] == cfg.ip && b[36..38] == cfg.port then
      [P.Record(b[6..12], b[26..30], b[34..36], cmd)]
    else []
  }

  lemma ExpectedIsCalled(f: F.Frame, b: seq<u8>, cfg: P.Config, leftOver: seq<u8>)
    requires Carries(f, b)
    ensures F.Expected(f, cfg, leftOver) == Called(b, [f[5][5], f[5][4], f[5][3], f[5][2]], cfg, leftOver)
  {
    FieldIsSlice(f, b, 12, 2);
    TwoSlices(f, b, 6, 2, 4);
    if F.IsArp(f) {
      ArpSlices(f, b);
    } else {
      IpSlices(f, b);
    }
  }

  lemma ArpSlices(f: F.Frame, b: seq<u8>)
    requires Carries(f, b)
    ensures F.Field(f, 20, 2) == b[20..22] && F.Field(f, 28, 4) == b[28..32]
    ensures F.Field(f, 38, 2) + F.Field(f, 40, 2) == b[38..42]
  {
    FieldIsSlice(f, b, 20, 2);
    FieldIsSlice(f, b, 28, 4);
    TwoSlices(f, b, 38, 2, 2);
  }

  lemma IpSlices(f: F.Frame, b: seq<u8>)
    requires Carries(f, b)
    ensures F.Field(f, 0, 6) == b[0..6] && F.Field(f, 23, 1) == [b[23]] && F.Field(f, 26, 4) == b[26..30]
    ensures F.Field(f, 30, 2) + F.Field(f, 32, 2) == b[30..34] && F.Field(f, 34, 2) == b[34..36] && F.Field(f, 36, 2) == b[36..38]
  {
    FieldIsSlice(f, b, 0, 6);
    FieldIsSlice(f, b, 23, 1);
    FieldIsSlice(f, b, 26, 4);
    TwoSlices(f, b, 30, 2, 2);
    FieldIsSlice(f, b, 34, 2);
    FieldIsSlice(f, b, 36, 2);
  }

  /** A parser takes the datagram exactly when it is addressed to it, and then recovers the sender's MAC, address and
    port, and the four bytes behind the UDP header, first byte last. */
  lemma UdpRecognised(srcMac: u64, srcIp: u32, srcPort: u16, dstMac: u64, dstIp: u32, dstPort: u16, dataLen: nat,
                      f: F.Frame, cfg: P.Config, leftOver: seq<u8>)
    requires Carries(f, BytesOf(UdpWords(srcMac, srcIp, srcPort, dstMac, dstIp, dstPort, dataLen)))
    ensures F.Expected(f, cfg, leftOver) ==
      if cfg.mac == MacBytes(dstMac) && cfg.ip == IpBytes(dstIp) && cfg.port == PortBytes(dstPort)
      then [P.Record(MacBytes(srcMac), IpBytes(srcIp), PortBytes(srcPort), [f[5][5], f[5][4], f[5][3], f[5][2]])]
      else []
  {
    var b := UdpBytes(srcMac, srcIp, srcPort, dstMac, dstIp, dstPort, dataLen);
    UdpIsItsBytes(srcMac, srcIp, srcPort, dstMac, dstIp, dstPort, dataLen);
    UdpFields(srcMac, srcIp, srcPort, dstMac, dstIp, dstPort, dataLen);
    ExpectedIsCalled(f, b, cfg, leftOver);
    assert b[23] == b[22..24][1];
  }

  // ----- how it reads ARP -----

  /** A request of RFC 826, sent to `toMac`: operation 1, the sender, and the target's address with its MAC, which is
    unknown, given as `blank`. */
  function ArpRequestBytes(toMac: u64, srcMac: u64, srcIp: u32, blank: u64, dstIp: u32): seq<u8> {
    EthernetBytes(toMac, srcMac, 0x0806) + [0, 1, 8, 0, 6, 4, 0, 1]
      + (MacBytes(srcMac) + IpBytes(srcIp)) + (MacBytes(blank) + IpBytes(dstIp))
  }

  /** Where the fields of an ARP frame lie. */
  lemma ArpFields(toMac: u64, srcMac: u64, operation: u8, srcIp: u32, dstMac: u64, dstIp: u32)
    ensures var b := EthernetBytes(toMac, srcMac, 0x0806) + [0, 1, 8, 0, 6, 4, 0, operation]
                       + (MacBytes(srcMac) + IpBytes(srcIp)) + (MacBytes(dstMac) + IpBytes(dstIp));
            && |b| == 42 && b[6..12] == MacBytes(srcMac) && b[12..14] == [8, 6] && b[20..22] == [0, operation]
            && b[28..32] == IpBytes(srcIp) && b[38..42] == IpBytes(dstIp)
  {
    var e, op: seq<u8> := EthernetBytes(toMac, srcMac, 0x0806), [0, 1, 8, 0, 6, 4, 0, operation];
    var src, dst := MacBytes(srcMac) + IpBytes(srcIp), MacBytes(dstMac) + IpBytes(dstIp);
    assert e[6..12] == MacBytes(srcMac) && e[12..14] == [8, 6] && op[6..8] == [0, operation];
    assert src[6..10] == IpBytes(srcIp) && dst[6..10] == IpBytes(dstIp);
    PartOfFour(e, op, src, dst);
  }

  lemma PartOfFour(e: seq<u8>, op: seq<u8>, src: seq<u8>, dst: seq<u8>)
    requires |e| == 14 && |op| == 8 && |src| == |dst| == 10
    ensures var b := e + op + src + dst;
            && |b| == 42 && b[6..12] == e[6..12] && b[12..14] == e[12..14] && b[20..22] == op[6..8]
            && b[28..32] == src[6..10] && b[38..42] == dst[6..10]
  {
  }

  /** A request is taken exactly when it asks for the parser's address, wherever it was sent to, and the record names who
    asked. */
  lemma ArpRequestRecognised(
      toMac: u64, srcMac: u64, srcIp: u32, blank: u64, dstIp: u32, f: F.Frame, cfg: P.Config, leftOver: seq<u8>)
    requires Carries(f, ArpRequestBytes(toMac, srcMac, srcIp, blank, dstIp))
    ensures F.Expected(f, cfg, leftOver) ==
      if cfg.ip == IpBytes(dstIp) then [P.Record(MacBytes(srcMac), IpBytes(srcIp), leftOver, [0, 0, 0, 0])] else []
  {
    ArpFields(toMac, srcMac, 1, srcIp, blank, dstIp);
    ExpectedIsCalled(f, ArpRequestBytes(toMac, srcMac, srcIp, blank, dstIp), cfg, leftOver);
  }

  /** A reply, even to the parser's own address, is never taken. */
  lemma ArpReplyIgnored(srcMac: u64, srcIp: u32, dstMac: u64, dstIp: u32, f: F.Frame, cfg: P.Config, leftOver: seq<u8>)
    requires Carries(f, ArpReplyBytes(srcMac, srcIp, dstMac, dstIp))
    ensures F.Expected(f, cfg, leftOver) == []
  {
    ArpFields(dstMac, srcMac, 2, srcIp, dstMac, dstIp);
    ExpectedIsCalled(f, ArpReplyBytes(srcMac, srcIp, dstMac, dstIp), cfg, leftOver);
  }

  /** A request on the stream to a clocked parser, with gaps anywhere, behind any legal stream: it writes the record of who
    asked exactly when its own address was asked for. */
  lemma ArpRequestReceived(
      toMac: u64, srcMac: u64, srcIp: u32, blank: u64, dstIp: u32, f: F.Frame,
      p: F.System, cfg: P.Config, earlier: seq<P.Cycle>, frame: seq<P.Cycle>, c1: P.Cycle, c2: P.Cycle)
    requires F.IsReset(p) && F.Scanned(earlier).beats == [] && F.CarriesFrame(frame, f)
    requires F.AllLegal(earlier + frame + [c1, c2]) && !c1.valid && !c2.valid
    requires Carries(f, ArpRequestBytes(toMac, srcMac, srcIp, blank, dstIp))
    ensures var fs := F.Scanned(earlier).frames;
            && F.AllWhole(fs)
            && F.Run(p, cfg, earlier + frame + [c1, c2]).written == F.ExpectedAll(fs, cfg) +
                 if cfg.ip == IpBytes(dstIp) then [P.Record(MacBytes(srcMac), IpBytes(srcIp), F.LeftOverPort(fs), [0, 0, 0, 0])]
                 else []
  {
    F.FrameAdds(p, cfg, earlier, frame, f, c1, c2);
    ArpRequestRecognised(toMac, srcMac, srcIp, blank, dstIp, f, cfg, F.LeftOverPort(F.Scanned(earlier).frames));
  }
}
