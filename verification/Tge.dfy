/** The frame builders of util/tge.c. */
module Tge {
  import opened Words
  import opened Network

  // ----- the headers as 16-bit words, most significant first -----

  /** Word `k` of a MAC address that sits in the low 48 bits of a 64-bit integer. */
  function MacWord(mac: u64, k: nat): u16 {
    Low16(if k == 0 then mac / 0x1_0000_0000 else if k == 1 then mac / 0x1_0000 else mac)
  }

  function EthernetWords(dstMac: u64, srcMac: u64, pktType: u16): (ws: seq<u16>)
    ensures |ws| == 7
  {
    [MacWord(dstMac, 0), MacWord(dstMac, 1), MacWord(dstMac, 2),
     MacWord(srcMac, 0), MacWord(srcMac, 1), MacWord(srcMac, 2), pktType]
  }

  function ArpBody(srcMac: u64, srcIp: u32, dstMac: u64, dstIp: u32): (ws: seq<u16>)
    ensures |ws| == 14
  {
    [0x0001, 0x0800, 0x0604, 0x0002,
     MacWord(srcMac, 0), MacWord(srcMac, 1), MacWord(srcMac, 2), High16(srcIp), Low16(srcIp),
     MacWord(dstMac, 0), MacWord(dstMac, 1), MacWord(dstMac, 2), High16(dstIp), Low16(dstIp)]
  }

  function ArpWords(srcMac: u64, srcIp: u32, dstMac: u64, dstIp: u32): seq<u16> {
    EthernetWords(dstMac, srcMac, 0x0806) + ArpBody(srcMac, srcIp, dstMac, dstIp)
  }

  /** The IPv4 header of a datagram that carries the UDP header, six dummy bytes and `dataLen` bytes. */
  function IpHeader(srcIp: u32, dstIp: u32, dataLen: nat, csum: u16): (ws: seq<u16>)
    ensures |ws| == 10
  {
    [0x4500, Low16(dataLen + 34), 0x0000, 0x0000, 0x4011, csum,
     High16(srcIp), Low16(srcIp), High16(dstIp), Low16(dstIp)]
  }

  /** The UDP header, and three dummy words that bring the payload to a 64-bit boundary. */
  function UdpHeader(srcPort: u16, dstPort: u16, dataLen: nat): (ws: seq<u16>)
    ensures |ws| == 7
  {
    [srcPort, dstPort, Low16(dataLen + 14), 0x0000, 0x794d, 0x6569, 0x4950]
  }

  function Sum(ws: seq<u16>): nat {
    if ws == [] then 0 else Sum(ws[..|ws|-1]) + ws[|ws|-1]
  }

  /** The checksum as computed: the sum folded once, its 16 low bits complemented. */
  function FoldedOnce(sum: nat): u16 { 0xFFFF - Low16(sum / 0x1_0000 + sum % 0x1_0000) }

  function HeaderChecksum(srcIp: u32, dstIp: u32, dataLen: nat): u16 {
    FoldedOnce(Sum(IpHeader(srcIp, dstIp, dataLen, 0)))
  }

  function UdpWords(srcMac: u64, srcIp: u32, srcPort: u16, dstMac: u64, dstIp: u32, dstPort: u16, dataLen: nat): seq<u16> {
    EthernetWords(dstMac, srcMac, 0x0800)
      + IpHeader(srcIp, dstIp, dataLen, HeaderChecksum(srcIp, dstIp, dataLen))
      + UdpHeader(srcPort, dstPort, dataLen)
  }

  // ----- the builders -----

  method Prepare16(bufio: array?<u16>, n: nat) returns (buf: array<u16>)
    ensures if bufio == null then fresh(buf) && buf.Length == n else buf == bufio
  {
    if bufio == null {
      buf := new u16[n](_ => 0);
    } else {
      buf := bufio;
    }
  }

  /** The words lie at the front in network order, and the rest of a given buffer is as it was. */
  twostate predicate Built(htons: u16 -> u16, bufio: array?<u16>, new buf: array<u16>, ws: seq<u16>)
    reads buf
  {
    && |ws| <= buf.Length && buf[..|ws|] == MapSeq(htons, ws)
    && (if bufio == null then fresh(buf) && buf.Length == |ws|
        else buf == bufio && bufio[|ws|..] == old(bufio[|ws|..]))
  }

  method PutEthernet(buf: array<u16>, dstMac: u64, srcMac: u64, pktType: u16)
    requires buf.Length >= 7
    modifies buf
    ensures buf[..7] == EthernetWords(dstMac, srcMac, pktType)
    ensures forall k | 7 <= k < buf.Length :: buf[k] == old(buf[k])
  {
    buf[0], buf[1], buf[2] := MacWord(dstMac, 0), MacWord(dstMac, 1), MacWord(dstMac, 2);
    buf[3], buf[4], buf[5] := MacWord(srcMac, 0), MacWord(srcMac, 1), MacWord(srcMac, 2);
    buf[6] := pktType;
  }

  method BuildArpReply(htons: u16 -> u16, bufio: array?<u16>, srcMac: u64, srcIp: u32, dstMac: u64, dstIp: u32)
    returns (buf: array<u16>, nbytes: nat)
    requires bufio != null ==> bufio.Length >= 21
    modifies bufio
    ensures Built(htons, bufio, buf, ArpWords(srcMac, srcIp, dstMac, dstIp)) && nbytes == 42
  {
    var n := 21;
    buf := Prepare16(bufio, n);
    PutEthernet(buf, dstMac, srcMac, 0x0806);
    PutArp(buf, srcMac, srcIp, dstMac, dstIp);
    assert buf[..n] == buf[..7] + buf[7..n];
    ConvertInPlace16(htons, buf, n);
    nbytes := n * 2;
  }

  method PutArp(buf: array<u16>, srcMac: u64, srcIp: u32, dstMac: u64, dstIp: u32)
    requires buf.Length >= 21
    modifies buf
    ensures buf[7..21] == ArpBody(srcMac, srcIp, dstMac, dstIp)
    ensures forall k | 0 <= k < 7 || 21 <= k < buf.Length :: buf[k] == old(buf[k])
  {
    buf[7] := 0x0001;   // hardware type Ethernet
    buf[8] := 0x0800;   // protocol type IP
    buf[9] := 0x0604;   // address lengths
    buf[10] := 0x0002;  // reply
    buf[11], buf[12], buf[13] := MacWord(srcMac, 0), MacWord(srcMac, 1), MacWord(srcMac, 2);
    buf[14], buf[15] := High16(srcIp), Low16(srcIp);
    buf[16], buf[17], buf[18] := MacWord(dstMac, 0), MacWord(dstMac, 1), MacWord(dstMac, 2);
    buf[19], buf[20] := High16(dstIp), Low16(dstIp);
  }

  method BuildUdp(htons: u16 -> u16, bufio: array?<u16>, srcMac: u64, srcIp: u32, srcPort: u16,
                  dstMac: u64, dstIp: u32, dstPort: u16, dataLen: nat)
    returns (buf: array<u16>, nbytes: nat)
    requires bufio != null ==> bufio.Length >= 24
    modifies bufio
    ensures Built(htons, bufio, buf, UdpWords(srcMac, srcIp, srcPort, dstMac, dstIp, dstPort, dataLen)) && nbytes == 48
  {
    var n := 24;
    buf := Prepare16(bufio, n);
    PutEthernet(buf, dstMac, srcMac, 0x0800);
    PutIpHeader(buf, srcIp, dstIp, dataLen);
    PutUdpHeader(buf, srcPort, dstPort, dataLen);
    PutChecksum(buf, srcIp, dstIp, dataLen);
    assert buf[..n] == buf[..7] + buf[7..17] + buf[17..n];
    ConvertInPlace16(htons, buf, n);
    nbytes := n * 2;
  }

  method PutIpHeader(buf: array<u16>, srcIp: u32, dstIp: u32, dataLen: nat)
    requires buf.Length >= 24
    modifies buf
    ensures buf[7..17] == IpHeader(srcIp, dstIp, dataLen, 0)
    ensures forall k | 0 <= k < 7 || 17 <= k < buf.Length :: buf[k] == old(buf[k])
  {
    buf[7] := 0x4500;                            // version 4, 20 bytes of header
    buf[8] := Low16(dataLen + 8 + 6 + 20);
    buf[9], buf[10] := 0x0000, 0x0000;           // identification, fragmentation
    buf[11] := 0x4011;                           // time to live, protocol
    buf[12] := 0x0000;                           // header checksum
    buf[13], buf[14] := High16(srcIp), Low16(srcIp);
    buf[15], buf[16] := High16(dstIp), Low16(dstIp);
  }

  method PutUdpHeader(buf: array<u16>, srcPort: u16, dstPort: u16, dataLen: nat)
    requires buf.Length >= 24
    modifies buf
    ensures buf[17..24] == UdpHeader(srcPort, dstPort, dataLen)
    ensures forall k | 0 <= k < 17 || 24 <= k < buf.Length :: buf[k] == old(buf[k])
  {
    buf[17], buf[18] := srcPort, dstPort;
    buf[19] := Low16(dataLen + 8 + 6);
    buf[20] := 0x0000;                           // checksum not used
    buf[21], buf[22], buf[23] := 0x794d, 0x6569, 0x4950;
  }

  method PutChecksum(buf: array<u16>, srcIp: u32, dstIp: u32, dataLen: nat)
    requires buf.Length >= 24 && buf[7..17] == IpHeader(srcIp, dstIp, dataLen, 0)
    modifies buf
    ensures buf[7..17] == IpHeader(srcIp, dstIp, dataLen, HeaderChecksum(srcIp, dstIp, dataLen))
    ensures forall k | 0 <= k < 7 || 17 <= k < buf.Length :: buf[k] == old(buf[k])
  {
    var checksum: nat := 0;
    for i := 7 to 17
      invariant checksum == Sum(buf[7..i]) <= (i - 7) * 0xFFFF
    {
      assert buf[7..i+1] == buf[7..i] + [buf[i]];
      checksum := checksum + buf[i];
    }
    buf[12] := Low16(checksum / 0x1_0000 + checksum % 0x1_0000);
    buf[12] := 0xFFFF - buf[12];
  }
}
