/** Byte order: util/command.c:39-55, and what the wire carries. */
module Network {
  import opened Words

  datatype Host = LittleEndian | BigEndian

  // ----- bytes of a word -----

  function Join2(b0: u8, b1: u8): u16 { b0 + 0x100 * b1 }
  function Join4(b0: u8, b1: u8, b2: u8, b3: u8): u32 { b0 + 0x100 * (b1 + 0x100 * (b2 + 0x100 * b3)) }

  /** The bytes of a word, least significant first. */
  function Bytes4(x: u32): (b: seq<u8>)
    ensures |b| == 4 && Join4(b[0], b[1], b[2], b[3]) == x
  {
    [x % 0x100, x / 0x100 % 0x100, x / 0x100 / 0x100 % 0x100, x / 0x100 / 0x100 / 0x100]
  }

  lemma Bytes4OfJoin(b0: u8, b1: u8, b2: u8, b3: u8)
    ensures Bytes4(Join4(b0, b1, b2, b3)) == [b0, b1, b2, b3]
  {
    var z := b2 + 0x100 * b3;
    var y := b1 + 0x100 * z;
    assert Join4(b0, b1, b2, b3) == b0 + 0x100 * y;
    Digit(b0, y);
    Digit(b1, z);
    Digit(b2, b3);
  }

  lemma Digit(b: u8, y: nat)
    ensures (b + 0x100 * y) % 0x100 == b && (b + 0x100 * y) / 0x100 == y
  {
  }

  function Swap16(x: u16): u16 { Join2(x / 0x100, x % 0x100) }

  function Swap32(x: u32): u32 {
    var b := Bytes4(x);
    Join4(b[3], b[2], b[1], b[0])
  }

  /** `htons` and `htonl` of the C library. */
  function Htons(host: Host): u16 -> u16 {
    x => if host.LittleEndian? then Swap16(x) else x
  }

  function Htonl(host: Host): u32 -> u32 {
    x => if host.LittleEndian? then Swap32(x) else x
  }

  // ----- conversion in place -----

  function MapSeq<A, B>(f: A -> B, ws: seq<A>): (n: seq<B>)
    ensures |n| == |ws| && forall k | 0 <= k < |ws| :: n[k] == f(ws[k])
  {
    seq(|ws|, i requires 0 <= i < |ws| => f(ws[i]))
  }

  lemma {:induction false} MapConcat<A, B>(f: A -> B, a: seq<A>, b: seq<A>)
    ensures MapSeq(f, a + b) == MapSeq(f, a) + MapSeq(f, b)
  {
  }

  /** `conv16network_endian` */
  method ConvertInPlace16(htons: u16 -> u16, buf: array<u16>, n: nat)
    requires n <= buf.Length
    modifies buf
    ensures buf[..] == MapSeq(htons, old(buf[..n])) + old(buf[n..])
  {
    for i := 0 to n
      invariant forall k | 0 <= k < buf.Length :: buf[k] == if k < i then htons(old(buf[k])) else old(buf[k])
    {
      buf[i] := htons(buf[i]);
    }
  }

  /** `conv32network_endian`, on the `n` words from `at` on. */
  method ConvertInPlace32(htonl: u32 -> u32, buf: array<u32>, at: nat, n: nat)
    requires at + n <= buf.Length
    modifies buf
    ensures buf[at..at+n] == MapSeq(htonl, old(buf[at..at+n]))
    ensures forall k | 0 <= k < at || at + n <= k < buf.Length :: buf[k] == old(buf[k])
  {
    for i := 0 to n
      invariant forall k | 0 <= k < buf.Length ::
        buf[k] == if at <= k < at + i then htonl(old(buf[k])) else old(buf[k])
    {
      buf[at + i] := htonl(buf[at + i]);
    }
  }

  // ----- memory, wire, and the words the other end puts together -----

  /** A word as it lies in the host's memory, lowest address first. */
  function InMemory(host: Host, x: u32): (b: seq<u8>)
    ensures |b| == 4
  {
    var b := Bytes4(x);
    if host.LittleEndian? then b else [b[3], b[2], b[1], b[0]]
  }

  function WireBytes(host: Host, ws: seq<u32>): (b: seq<u8>)
    ensures |b| == 4 * |ws|
  {
    if ws == [] then [] else WireBytes(host, ws[..|ws|-1]) + InMemory(host, ws[|ws|-1])
  }

  /** The receiver assembles words most significant byte first. */
  function Assemble(b: seq<u8>): seq<u32> {
    if |b| < 4 then [] else
      var k := |b| - 4;
      Assemble(b[..k]) + [Join4(b[k+3], b[k+2], b[k+1], b[k])]
  }

  lemma SentMostSignificantFirst(host: Host, x: u32)
    ensures var b := InMemory(host, Htonl(host)(x)); Join4(b[3], b[2], b[1], b[0]) == x
  {
    var b := Bytes4(x);
    Bytes4OfJoin(b[3], b[2], b[1], b[0]);
  }

  lemma AssembleWord(b: seq<u8>, c: seq<u8>)
    requires |c| == 4
    ensures Assemble(b + c) == Assemble(b) + [Join4(c[3], c[2], c[1], c[0])]
  {
    assert (b + c)[..|b|] == b;
  }

  lemma WireAppend(host: Host, ws: seq<u32>, x: u32)
    ensures Assemble(WireBytes(host, MapSeq(Htonl(host), ws + [x]))) == Assemble(WireBytes(host, MapSeq(Htonl(host), ws))) + [x]
  {
    var n := MapSeq(Htonl(host), ws + [x]);
    assert n[..|ws|] == MapSeq(Htonl(host), ws);
    AssembleWord(WireBytes(host, MapSeq(Htonl(host), ws)), InMemory(host, Htonl(host)(x)));
    SentMostSignificantFirst(host, x);
  }

  /** On either kind of host the receiver gets back the words that were built. */
  lemma {:induction false} WireRoundTrip(host: Host, ws: seq<u32>)
    ensures Assemble(WireBytes(host, MapSeq(Htonl(host), ws))) == ws
  {
    if ws != [] {
      var init, x := ws[..|ws|-1], ws[|ws|-1];
      assert ws == init + [x];
      WireRoundTrip(host, init);
      WireAppend(host, init, x);
    }
  }
}
