/** The parser writes exactly the records that the frames on the stream call for. */
module FrameParsing {
  import opened Words
  import opened RxParser

  type Frame = seq<Word64>

  // ----- the reference: frames as bytes, fields at their offsets in RFC 826, RFC 791 and RFC 768 -----

  /** Bytes `from` to `from + n - 1` of a frame, when they lie in one beat. */
  function Field(f: Frame, from: nat, n: nat): seq<u8>
    requires from / 8 < |f| && from % 8 + n <= 8
  {
    f[from / 8][from % 8..from % 8 + n]
  }

  predicate IsArp(f: Frame)
    requires |f| >= 6
  {
    Field(f, 12, 2) == [8, 6]
  }

  function SenderMac(f: Frame): seq<u8>
    requires |f| >= 6
  {
    Field(f, 6, 2) + Field(f, 8, 4)
  }

  /** The record a frame calls for: an ARP request (type 0x806, operation 1) for our address, or a UDP datagram (type 0x800,
    protocol 17) to our MAC, address and port. The port in an ARP record is the one left over from earlier frames. */
  function Expected(f: Frame, cfg: Config, leftOver: seq<u8>): seq<Record>
    requires |f| >= 6
  {
    if IsArp(f) then
      if Field(f, 20, 2) == [0, 1] && Field(f, 38, 2) + Field(f, 40, 2) == cfg.ip then
        [Record(SenderMac(f), Field(f, 28, 4), leftOver, [0, 0, 0, 0])]
      else []
    else if Field(f, 12, 2) == [8, 0] && Field(f, 23, 1) == [17] && Field(f, 0, 6) == cfg.mac
        && Field(f, 30, 2) + Field(f, 32, 2) == cfg.ip && Field(f, 36, 2) == cfg.port then
      [Record(SenderMac(f), Field(f, 26, 4), Field(f, 34, 2), [f[5][5], f[5][4], f[5][3], f[5][2]])]
    else []
  }

  ghost predicate AllWhole(fs: seq<Frame>) {
    forall f | f in fs :: |f| >= 6
  }

  /** The source-port field of the latest frame that is not ARP; zero before there is one. */
  function LeftOverPort(fs: seq<Frame>): seq<u8>
    requires AllWhole(fs)
  {
    if fs == [] then [0, 0] else
      var f := fs[|fs|-1];
      if IsArp(f) then LeftOverPort(fs[..|fs|-1]) else Field(f, 34, 2)
  }

  function ExpectedAll(fs: seq<Frame>, cfg: Config): seq<Record>
    requires AllWhole(fs)
  {
    if fs == [] then [] else
      var init := fs[..|fs|-1];
      ExpectedAll(init, cfg) + Expected(fs[|fs|-1], cfg, LeftOverPort(init))
  }

  // ----- the stream -----

  /** What a stream has carried so far: the frames that have ended, the beats of the one under way, and whether the last
    clock carried a beat. */
  datatype Scan = Scan(frames: seq<Frame>, beats: seq<Word64>, busy: bool)

  /** The next clock is one a well-behaved source may give: TLAST only with TVALID, at least one idle clock before a frame,
    and at least six beats to a frame. Idle clocks inside a frame are allowed anywhere. */
  predicate Legal(sc: Scan, c: Cycle) {
    if !c.valid then !c.last
    else (sc.beats == [] ==> !sc.busy) && (c.last ==> |sc.beats| >= 5)
  }

  function Next(sc: Scan, c: Cycle): Scan {
    if !c.valid then sc.(busy := false)
    else if c.last then Scan(sc.frames + [sc.beats + [c.data]], [], true)
    else Scan(sc.frames, sc.beats + [c.data], true)
  }

  function Scanned(cs: seq<Cycle>): Scan {
    if cs == [] then Scan([], [], true) else Next(Scanned(cs[..|cs|-1]), cs[|cs|-1])
  }

  predicate AllLegal(cs: seq<Cycle>) {
    forall k | 0 <= k < |cs| :: Legal(Scanned(cs[..k]), cs[k])
  }

  /** The parser and what its FIFO has taken at the rising edges. */
  datatype System = System(regs: State, written: seq<Record>)

  function Clock(s: System, cfg: Config, c: Cycle): System {
    var f := Falling(s.regs, cfg, c);
    System(Rising(f, c), if f.wren then s.written + [f.din] else s.written)
  }

  function Run(s: System, cfg: Config, cs: seq<Cycle>): System {
    if cs == [] then s else Clock(Run(s, cfg, cs[..|cs|-1]), cfg, cs[|cs|-1])
  }

  /** After RESET. The start detector and the copy of TLAST are not reset and may hold anything. */
  predicate IsReset(s: System) {
    s.regs.fields == Cleared() && s.regs.parser == S0 && !s.regs.checking && s.written == []
  }

  // ----- the invariant -----

  function StateFor(n: nat): ParserState {
    match n
    case 0 => S0
    case 1 => S1
    case 2 => S2
    case 3 => S3
    case 4 => S4
    case 5 => S5
    case _ => S6
  }

  /** The fields captured from the beats so far; `port` is the source port left over from earlier frames. */
  ghost predicate Captured(f: Fields, b: seq<Word64>, port: seq<u8>) {
    var n := |b|;
    && (n >= 1 ==> f.dstMac == b[0][0..6] && f.srcMacHigh == b[0][6..8])
    && (n >= 2 ==> f.srcMacLow == b[1][0..4] && f.pktType == b[1][4..6])
    && (n >= 3 ==> f.opcode == b[2][4..6] && f.protocol == b[2][7])
    && (n >= 4 ==> if f.pktType == PKT_ARP then f.srcIp == b[3][4..8] else f.srcIp == b[3][2..6] && f.dstIpHigh == b[3][6..8])
    && (n >= 5 ==> if f.pktType == PKT_ARP then f.dstIpHigh == b[4][6..8]
                   else f.dstIpLow == b[4][0..2] && f.srcPort == b[4][2..4] && f.dstPort == b[4][4..6])
    && (n >= 6 ==> if f.pktType == PKT_ARP then f.dstIpLow == b[5][0..2] else f.udpCmd == [b[5][5], b[5][4], b[5][3], b[5][2]])
    && (n < 5 || f.pktType == PKT_ARP ==> f.srcPort == port)
  }

  /** The check of a frame that has ended is still to come. */
  predicate Pending(r: State) { r.tlast || r.checking }

  ghost predicate Follows(s: System, cfg: Config, sc: Scan) {
    var r := s.regs;
    && AllWhole(sc.frames)
    && (sc.busy || !r.tvalidPrev)
    && (r.checking ==> !r.tlast) && (r.tlast ==> sc.busy)
    && (Pending(r) ==> sc.beats == [])
    && r.parser == StateFor(|sc.beats|)
    && Captured(r.fields, sc.beats, LeftOverPort(sc.frames))
    && s.written + (if Pending(r) then Decide(r.fields, cfg) else []) == ExpectedAll(sc.frames, cfg)
  }

  lemma CaptureStep(f: Fields, b: seq<Word64>, port: seq<u8>, tstart: bool, c: Cycle)
    requires Captured(f, b, port) && c.valid && (b == [] ==> tstart) && (c.last ==> |b| >= 5)
    ensures var (p, f') := Parse(StateFor(|b|), f, tstart, c);
            && Captured(f', b + [c.data], port)
            && p == (if c.last then S0 else StateFor(|b| + 1))
  {
  }

  /** After the last beat the fields are those of the reference. */
  lemma DecideIsExpected(f: Fields, b: Frame, cfg: Config, port: seq<u8>)
    requires |b| >= 6 && Captured(f, b, port)
    ensures Decide(f, cfg) == Expected(b, cfg, port)
    ensures f.srcPort == if IsArp(b) then port else Field(b, 34, 2)
  {
    assert Field(b, 23, 1) == [b[2][7]];
  }

  lemma FramesAppend(fs: seq<Frame>, f: Frame, cfg: Config)
    requires AllWhole(fs) && |f| >= 6
    ensures AllWhole(fs + [f])
    ensures ExpectedAll(fs + [f], cfg) == ExpectedAll(fs, cfg) + Expected(f, cfg, LeftOverPort(fs))
    ensures LeftOverPort(fs + [f]) == if IsArp(f) then LeftOverPort(fs) else Field(f, 34, 2)
  {
    assert (fs + [f])[..|fs|] == fs;
  }

  /** A clock writes what was pending, and nothing else. */
  lemma WriteStep(s: System, cfg: Config, sc: Scan, c: Cycle)
    requires Follows(s, cfg, sc)
    ensures var s' := Clock(s, cfg, c);
            && s'.written == s.written + (if s.regs.checking then Decide(s.regs.fields, cfg) else [])
            && s'.regs.checking == s.regs.tlast && s'.regs.tlast == c.last && s'.regs.tvalidPrev == c.valid
  {
  }

  lemma IdleStep(s: System, cfg: Config, sc: Scan, c: Cycle)
    requires Follows(s, cfg, sc) && Legal(sc, c) && !c.valid
    ensures Follows(Clock(s, cfg, c), cfg, Next(sc, c))
  {
    WriteStep(s, cfg, sc, c);
    assert Clock(s, cfg, c).regs.fields == s.regs.fields;
    assert s.written + [] == s.written;
  }

  lemma BeatStep(s: System, cfg: Config, sc: Scan, c: Cycle)
    requires Follows(s, cfg, sc) && Legal(sc, c) && c.valid && !c.last
    ensures Follows(Clock(s, cfg, c), cfg, Next(sc, c))
  {
    WriteStep(s, cfg, sc, c);
    CaptureStep(s.regs.fields, sc.beats, LeftOverPort(sc.frames), !s.regs.tvalidPrev, c);
  }

  lemma LastStep(s: System, cfg: Config, sc: Scan, c: Cycle)
    requires Follows(s, cfg, sc) && Legal(sc, c) && c.valid && c.last
    ensures Follows(Clock(s, cfg, c), cfg, Next(sc, c))
  {
    var f, port := sc.beats + [c.data], LeftOverPort(sc.frames);
    WriteStep(s, cfg, sc, c);
    CaptureStep(s.regs.fields, sc.beats, port, !s.regs.tvalidPrev, c);
    DecideIsExpected(Clock(s, cfg, c).regs.fields, f, cfg, port);
    FramesAppend(sc.frames, f, cfg);
    assert s.written + [] == s.written;
  }

  lemma {:induction false} FollowsRun(s: System, cfg: Config, cs: seq<Cycle>)
    requires IsReset(s) && AllLegal(cs)
    ensures Follows(Run(s, cfg, cs), cfg, Scanned(cs))
  {
    if cs == [] {
      assert s.written + [] == [];
    } else {
      var init, c := cs[..|cs|-1], cs[|cs|-1];
      assert AllLegal(init) by {
        forall k | 0 <= k < |init| ensures Legal(Scanned(init[..k]), init[k]) {
          assert init[..k] == cs[..k];
        }
      }
      FollowsRun(s, cfg, init);
      if !c.valid {
        IdleStep(Run(s, cfg, init), cfg, Scanned(init), c);
      } else if c.last {
        LastStep(Run(s, cfg, init), cfg, Scanned(init), c);
      } else {
        BeatStep(Run(s, cfg, init), cfg, Scanned(init), c);
      }
    }
  }

  /** For every stream of whole frames, with any gaps inside them: the records written are exactly those the frames call
    for, in order; only the record of a frame that has just ended may still be missing. */
  lemma RecordsWritten(s: System, cfg: Config, cs: seq<Cycle>)
    requires IsReset(s) && AllLegal(cs)
    ensures var s', frames := Run(s, cfg, cs), Scanned(cs).frames;
            && AllWhole(frames) && s'.written <= ExpectedAll(frames, cfg)
            && (!Pending(s'.regs) ==> s'.written == ExpectedAll(frames, cfg))
  {
    FollowsRun(s, cfg, cs);
  }

  /** It is missing for no more than two clocks: after any two idle ones everything has been written. */
  lemma WrittenAfterTwo(s: System, cfg: Config, cs: seq<Cycle>, c1: Cycle, c2: Cycle)
    requires IsReset(s) && AllLegal(cs + [c1, c2]) && !c1.valid && !c2.valid
    ensures var frames := Scanned(cs).frames;
            AllWhole(frames) && Run(s, cfg, cs + [c1, c2]).written == ExpectedAll(frames, cfg)
  {
    var all, one := cs + [c1, c2], cs + [c1];
    assert all[..|all|-1] == one && one[..|cs|] == cs;
    assert all[..|cs|] == cs && all[..|cs|+1] == one;
    assert Legal(Scanned(cs), all[|cs|]) && Legal(Scanned(one), all[|cs|+1]);
    FollowsRun(s, cfg, all);
    assert Run(s, cfg, all) == Clock(Clock(Run(s, cfg, cs), cfg, c1), cfg, c2);
    RecordsWritten(s, cfg, all);
  }

  // ----- one more frame -----

  /** The beats that a stream carries, and where it marks the last of a frame. */
  function DataOf(cs: seq<Cycle>): seq<Word64> {
    if cs == [] then [] else
      var c := cs[|cs|-1];
      DataOf(cs[..|cs|-1]) + if c.valid then [c.data] else []
  }

  function LastsOf(cs: seq<Cycle>): (ls: seq<bool>)
    ensures |ls| == |DataOf(cs)|
  {
    if cs == [] then [] else
      var c := cs[|cs|-1];
      LastsOf(cs[..|cs|-1]) + if c.valid then [c.last] else []
  }

  /** The stream carries one frame, with gaps anywhere. */
  ghost predicate CarriesFrame(cs: seq<Cycle>, f: Frame) {
    f != [] && DataOf(cs) == f && forall k | 0 <= k < |f| :: LastsOf(cs)[k] == (k == |f| - 1)
  }

  ghost predicate CarriesPart(cs: seq<Cycle>, f: Frame) {
    && f != [] && DataOf(cs) <= f
    && forall k | 0 <= k < |DataOf(cs)| :: LastsOf(cs)[k] == (k == |f| - 1)
  }

  lemma {:induction false} PartScanned(cs: seq<Cycle>, more: seq<Cycle>, f: Frame)
    requires Scanned(cs).beats == [] && CarriesPart(more, f)
    ensures var sc, b := Scanned(cs + more), DataOf(more);
            if |b| < |f| then sc.frames == Scanned(cs).frames && sc.beats == b
            else sc.frames == Scanned(cs).frames + [f] && sc.beats == []
  {
    if more == [] {
      assert cs + more == cs;
    } else {
      var init, c := more[..|more|-1], more[|more|-1];
      assert (cs + more)[..|cs|+|init|] == cs + init;
      PartOfPart(more, f);
      PartScanned(cs, init, f);
      if c.valid {
        assert c.last == LastsOf(more)[|DataOf(init)|];
        assert DataOf(more) == DataOf(init) + [c.data];
        assert |DataOf(more)| == |f| ==> DataOf(more) == f;
      }
    }
  }

  lemma PartOfPart(more: seq<Cycle>, f: Frame)
    requires more != [] && CarriesPart(more, f)
    ensures CarriesPart(more[..|more|-1], f)
  {
    var init := more[..|more|-1];
    forall k | 0 <= k < |DataOf(init)| ensures LastsOf(init)[k] == (k == |f| - 1) {
      assert LastsOf(init)[k] == LastsOf(more)[k];
    }
  }

  /** A frame that follows a legal stream adds exactly the record it calls for. */
  lemma FrameAdds(s: System, cfg: Config, cs: seq<Cycle>, more: seq<Cycle>, f: Frame, c1: Cycle, c2: Cycle)
    requires IsReset(s) && Scanned(cs).beats == [] && CarriesFrame(more, f) && |f| >= 6
    requires AllLegal(cs + more + [c1, c2]) && !c1.valid && !c2.valid
    ensures var fs := Scanned(cs).frames;
            && AllWhole(fs)
            && Run(s, cfg, cs + more + [c1, c2]).written == ExpectedAll(fs, cfg) + Expected(f, cfg, LeftOverPort(fs))
  {
    var all := cs + more + [c1, c2];
    PartScanned(cs, more, f);
    LegalPrefix(all, |cs|);
    assert all[..|cs|] == cs;
    FollowsRun(s, cfg, cs);
    WrittenAfterTwo(s, cfg, cs + more, c1, c2);
    FramesAppend(Scanned(cs).frames, f, cfg);
  }

  lemma LegalPrefix(cs: seq<Cycle>, n: nat)
    requires AllLegal(cs) && n <= |cs|
    ensures AllLegal(cs[..n])
  {
    forall k | 0 <= k < n ensures Legal(Scanned(cs[..n][..k]), cs[..n][k]) {
      assert cs[..n][..k] == cs[..k];
    }
  }

  /** Six beats are needed: a frame whose last beat comes earlier leaves the parser inside it, so that it takes the
    beats of the next frame for the missing ones. */
  lemma FrameNeedsSixBeats(s: System, cfg: Config, sc: Scan, c: Cycle)
    requires Follows(s, cfg, sc) && c.valid && c.last && (sc.beats == [] ==> !sc.busy)
    ensures var p := Clock(s, cfg, c).regs.parser;
            if |sc.beats| < 5 then p == StateFor(|sc.beats| + 1) && p != S0 else p == S0
  {
    var f := Falling(s.regs, cfg, c);
    assert f.parser == StateFor(|sc.beats|) && (sc.beats == [] ==> f.tstart);
    LastBeatLeaves(|sc.beats|, f.fields, f.tstart, c);
  }

  lemma LastBeatLeaves(n: nat, f: Fields, tstart: bool, c: Cycle)
    requires c.valid && c.last && (n == 0 ==> tstart)
    ensures Parse(StateFor(n), f, tstart, c).0 == if n < 5 then StateFor(n + 1) else S0
  {
  }
}
