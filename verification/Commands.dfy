/** The command encoders of util/command.c. */
module Commands {
  import opened Arith
  import opened Words
  import opened Network
  import C = ControlInterface

  /** A command word, by its meaning. */
  function Command(read: bool, address: nat, data: u16): u32
    requires address < 0x1000
  {
    (if read then 0x8000_0000 else 0) + address * 0x1_0000 + data
  }

  lemma CommandFields(read: bool, address: nat, data: u16)
    requires address < 0x1000
    ensures var w := Command(read, address, data);
            C.IsRead(w) == read && C.Address(w) == address && C.Data(w) == data
  {
  }

  // ----- what each encoder sends -----

  /** `x << 16` on 32 bits, which is `x * 0x1_0000 % 0x1_0000_0000`. */
  function Shift16(x: nat): u32 { Low16(x) * 0x1_0000 }

  function ReadStatusWords(addr: u32): seq<u32> { [Shift16(0x8000 + addr)] }
  function SendPulseWords(mask: u32): seq<u32> { [Command(false, 11, Low16(mask))] }
  function WriteRegisterWords(addr: u32, val: u32): seq<u32> { [Shift16(0x0020 + addr) + Low16(val)] }
  function ReadRegisterWords(addr: u32): seq<u32> { [Shift16(0x8020 + addr)] }
  function ReadDataFifoWords(n: u32): seq<u32> { [Command(false, 25, Low16(n))] }

  function ReadMemoryWords(addr: u32, n: u32): seq<u32> {
    [Command(false, 17, Low16(addr)), Command(false, 18, High16(addr)), Command(false, 16, Low16(n)), Command(true, 20, 0)]
  }

  function DataWords(vals: seq<u32>): (ws: seq<u32>)
    ensures |ws| == 2 * |vals|
  {
    if vals == [] then [] else
      var v := vals[|vals|-1];
      DataWords(vals[..|vals|-1]) + [Command(false, 19, Low16(v)), Command(false, 20, High16(v))]
  }

  function WriteMemoryWords(addr: u32, vals: seq<u32>): seq<u32> {
    [Command(false, 17, Low16(addr)), Command(false, 18, High16(addr))] + DataWords(vals)
  }

  /** Any number beyond them is shifted out at the top of the 32 bits, as `<< 16` does. */
  lemma AnyRegister(addr: u32, val: u32)
    ensures ReadStatusWords(addr) == [(0x8000 + addr) * 0x1_0000 % 0x1_0000_0000]
    ensures WriteRegisterWords(addr, val) == [(0x20 + addr) * 0x1_0000 % 0x1_0000_0000 + val % 0x1_0000]
    ensures ReadRegisterWords(addr) == [(0x8020 + addr) * 0x1_0000 % 0x1_0000_0000]
  {
    ShiftedOut(0x8000 + addr);
    ShiftedOut(0x20 + addr);
    ShiftedOut(0x8020 + addr);
  }

  lemma ShiftedOut(x: nat)
    ensures Shift16(x) == x * 0x1_0000 % 0x1_0000_0000
  {
    var q: nat, r: nat := x / 0x1_0000, x % 0x1_0000;
    DivUnique(x * 0x1_0000, q, r * 0x1_0000, 0x1_0000_0000);
  }

  /** Within the register numbers the interface has, the addresses come out as meant. */
  lemma RegisterWords(addr: u32, val: u32)
    ensures addr <= 10 ==> ReadStatusWords(addr) == [Command(true, addr, 0)]
    ensures addr <= 31 ==> WriteRegisterWords(addr, val) == [Command(false, 32 + addr, Low16(val))]
    ensures addr <= 31 ==> ReadRegisterWords(addr) == [Command(true, 32 + addr, 0)]
  {
  }

  // ----- the encoders -----

  /** What every encoder does with `*bufio`: a null buffer is allocated at the size needed; another one is written at
    the place the pointer stands, and nowhere else. The words are left in network order. */
  twostate predicate Delivered(htonl: u32 -> u32, bufio: array?<u32>, new buf: array<u32>, at: nat, ws: seq<u32>)
    reads buf
  {
    && at + |ws| <= buf.Length
    && buf[at..at + |ws|] == MapSeq(htonl, ws)
    && (if bufio == null then fresh(buf) && buf.Length == |ws|
        else buf == bufio && forall k | 0 <= k < at || at + |ws| <= k < bufio.Length :: bufio[k] == old(bufio[k]))
  }

  predicate HasPlace(bufio: array?<u32>, at: nat, n: nat) {
    if bufio == null then at == 0 else at + n <= bufio.Length
  }

  method Prepare(bufio: array?<u32>, n: nat) returns (buf: array<u32>)
    ensures if bufio == null then fresh(buf) && buf.Length == n else buf == bufio
  {
    if bufio == null {
      buf := new u32[n](_ => 0);
    } else {
      buf := bufio;
    }
  }

  /** `*bufio = cmdBuf`, or `memcpy` into the buffer that was given; the builders of longer commands end with it. */
  method HandOver(bufio: array?<u32>, cmdBuf: array<u32>) returns (buf: array<u32>)
    requires bufio != null ==> bufio != cmdBuf && bufio.Length >= cmdBuf.Length
    modifies bufio
    ensures if bufio == null then buf == cmdBuf
            else buf == bufio && bufio[..cmdBuf.Length] == cmdBuf[..] && bufio[cmdBuf.Length..] == old(bufio[cmdBuf.Length..])
    ensures cmdBuf[..] == old(cmdBuf[..])
  {
    if bufio == null {
      return cmdBuf;
    }
    for i := 0 to cmdBuf.Length
      invariant forall k | 0 <= k < i :: bufio[k] == cmdBuf[k]
      invariant forall k | i <= k < bufio.Length :: bufio[k] == old(bufio[k])
      invariant cmdBuf[..] == old(cmdBuf[..])
    {
      bufio[i] := cmdBuf[i];
    }
    buf := bufio;
  }

  method ReadStatus(htonl: u32 -> u32, bufio: array?<u32>, at: nat, addr: u32) returns (buf: array<u32>, nbytes: nat)
    requires HasPlace(bufio, at, 1)
    modifies bufio
    ensures Delivered(htonl, bufio, buf, at, ReadStatusWords(addr)) && nbytes == 4
  {
    buf := Prepare(bufio, 1);
    buf[at] := Shift16(0x8000 + addr);
    assert buf[at..at+1] == ReadStatusWords(addr);
    ConvertInPlace32(htonl, buf, at, 1);
    nbytes := 4;
  }

  method SendPulse(htonl: u32 -> u32, bufio: array?<u32>, at: nat, mask: u32) returns (buf: array<u32>, nbytes: nat)
    requires HasPlace(bufio, at, 1)
    modifies bufio
    ensures Delivered(htonl, bufio, buf, at, SendPulseWords(mask)) && nbytes == 4
  {
    buf := Prepare(bufio, 1);
    buf[at] := 0x000b_0000 + Low16(mask);
    assert buf[at..at+1] == SendPulseWords(mask);
    ConvertInPlace32(htonl, buf, at, 1);
    nbytes := 4;
  }

  method WriteRegister(htonl: u32 -> u32, bufio: array?<u32>, at: nat, addr: u32, val: u32)
    returns (buf: array<u32>, nbytes: nat)
    requires HasPlace(bufio, at, 1)
    modifies bufio
    ensures Delivered(htonl, bufio, buf, at, WriteRegisterWords(addr, val)) && nbytes == 4
  {
    buf := Prepare(bufio, 1);
    buf[at] := Shift16(0x0020 + addr) + Low16(val);
    assert buf[at..at+1] == WriteRegisterWords(addr, val);
    ConvertInPlace32(htonl, buf, at, 1);
    nbytes := 4;
  }

  method ReadRegister(htonl: u32 -> u32, bufio: array?<u32>, at: nat, addr: u32) returns (buf: array<u32>, nbytes: nat)
    requires HasPlace(bufio, at, 1)
    modifies bufio
    ensures Delivered(htonl, bufio, buf, at, ReadRegisterWords(addr)) && nbytes == 4
  {
    buf := Prepare(bufio, 1);
    buf[at] := Shift16(0x8020 + addr);
    assert buf[at..at+1] == ReadRegisterWords(addr);
    ConvertInPlace32(htonl, buf, at, 1);
    nbytes := 4;
  }

  method ReadDataFifo(htonl: u32 -> u32, bufio: array?<u32>, at: nat, n: u32) returns (buf: array<u32>, nbytes: nat)
    requires HasPlace(bufio, at, 1)
    modifies bufio
    ensures Delivered(htonl, bufio, buf, at, ReadDataFifoWords(n)) && nbytes == 4
  {
    buf := Prepare(bufio, 1);
    buf[at] := 0x0019_0000 + Low16(n);
    assert buf[at..at+1] == ReadDataFifoWords(n);
    ConvertInPlace32(htonl, buf, at, 1);
    nbytes := 4;
  }

  method ReadMemory(htonl: u32 -> u32, bufio: array?<u32>, at: nat, addr: u32, n: u32)
    returns (buf: array<u32>, nbytes: nat)
    requires HasPlace(bufio, at, 4)
    modifies bufio
    ensures Delivered(htonl, bufio, buf, at, ReadMemoryWords(addr, n)) && nbytes == 16
  {
    buf := Prepare(bufio, 4);
    buf[at] := 0x0011_0000 + Low16(addr);
    buf[at + 1] := 0x0012_0000 + High16(addr);
    buf[at + 2] := 0x0010_0000 + Low16(n);
    buf[at + 3] := 0x8014_0000;
    assert buf[at..at+4] == ReadMemoryWords(addr, n) by {
      assert buf[at..at+4] == [buf[at], buf[at+1], buf[at+2], buf[at+3]];
    }
    ConvertInPlace32(htonl, buf, at, 4);
    nbytes := 16;
  }

  /** At least one value: the first is read before the count is looked at. */
  method WriteMemory(htonl: u32 -> u32, bufio: array?<u32>, at: nat, addr: u32, aval: seq<u32>)
    returns (buf: array<u32>, nbytes: nat)
    requires |aval| >= 1 && HasPlace(bufio, at, 2 * |aval| + 2)
    modifies bufio
    ensures Delivered(htonl, bufio, buf, at, WriteMemoryWords(addr, aval)) && nbytes == (2 * |aval| + 2) * 4
  {
    buf := Prepare(bufio, 2 * |aval| + 2);
    FillMemoryWords(buf, at, addr, aval);
    ConvertInPlace32(htonl, buf, at, 2 * |aval| + 2);
    nbytes := (2 * |aval| + 2) * 4;
  }

  method FillMemoryWords(buf: array<u32>, at: nat, addr: u32, aval: seq<u32>)
    requires |aval| >= 1 && at + 2 * |aval| + 2 <= buf.Length
    modifies buf
    ensures buf[at..at + 2 * |aval| + 2] == WriteMemoryWords(addr, aval)
    ensures forall k | 0 <= k < at || at + 2 * |aval| + 2 <= k < buf.Length :: buf[k] == old(buf[k])
  {
    var idx := at;
    buf[idx] := 0x0011_0000 + Low16(addr);
    idx := idx + 1;
    buf[idx] := 0x0012_0000 + High16(addr);
    idx := idx + 1;
    buf[idx] := 0x0013_0000 + Low16(aval[0]);
    idx := idx + 1;
    buf[idx] := 0x0014_0000 + High16(aval[0]);
    idx := idx + 1;
    assert buf[at..idx] == WriteMemoryWords(addr, aval[..1]) by {
      assert buf[at..idx] == [buf[at], buf[at+1], buf[at+2], buf[at+3]];
      FirstWords(addr, aval);
    }
    for i := 1 to |aval|
      invariant idx == at + 2 * i + 2
      invariant buf[at..idx] == WriteMemoryWords(addr, aval[..i])
      invariant forall k | 0 <= k < at || idx <= k < buf.Length :: buf[k] == old(buf[k])
    {
      ghost var before := buf[at..idx];
      buf[idx] := 0x0013_0000 + Low16(aval[i]);
      idx := idx + 1;
      buf[idx] := 0x0014_0000 + High16(aval[i]);
      idx := idx + 1;
      assert buf[at..idx] == WriteMemoryWords(addr, aval[..i+1]) by {
        TwoMore(buf[..], at, idx - 2);
        assert buf[at..idx-2] == before;
        PairAppended(addr, aval, i, before, buf[at..idx]);
      }
    }
    assert aval[..|aval|] == aval;
  }

  lemma TwoMore(b: seq<u32>, from: nat, to: nat)
    requires from <= to && to + 2 <= |b|
    ensures b[from..to+2] == b[from..to] + [b[to]] + [b[to+1]]
  {
  }

  lemma PairAppended(addr: u32, aval: seq<u32>, i: nat, before: seq<u32>, words: seq<u32>)
    requires i < |aval| && before == WriteMemoryWords(addr, aval[..i])
    requires words == before + [0x0013_0000 + Low16(aval[i])] + [0x0014_0000 + High16(aval[i])]
    ensures words == WriteMemoryWords(addr, aval[..i+1])
  {
    WriteMemoryWordsStep(addr, aval, i);
  }

  lemma FirstWords(addr: u32, aval: seq<u32>)
    requires |aval| >= 1
    ensures WriteMemoryWords(addr, aval[..1]) ==
      [0x0011_0000 + Low16(addr), 0x0012_0000 + High16(addr), 0x0013_0000 + Low16(aval[0]), 0x0014_0000 + High16(aval[0])]
  {
    WriteMemoryWordsStep(addr, aval, 0);
    assert DataWords(aval[..0]) == [];
  }

  lemma WriteMemoryWordsStep(addr: u32, aval: seq<u32>, i: nat)
    requires i < |aval|
    ensures WriteMemoryWords(addr, aval[..i+1]) ==
      WriteMemoryWords(addr, aval[..i]) + [Command(false, 19, Low16(aval[i])), Command(false, 20, High16(aval[i]))]
  {
    assert aval[..i+1][..i] == aval[..i];
  }
}
