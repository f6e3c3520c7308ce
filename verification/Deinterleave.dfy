/** The chunk and de-interleaving loops of `fmc112_read_save`, and the channel count of `main`, in util/fmc112.c. */
module Deinterleave {
  import opened Arith
  import opened Words

  const SCOPE_NCH := 16
  const SCOPE_MEM_LENGTH_MAX := 33554432
  const NBASK := 131072
  /** 16-bit samples in a chunk. */
  const CHUNK := 65536

  // ----- masks -----

  /** `(mask >> i) & 1` */
  predicate Bit(mask: nat, i: nat) { Shr(mask, i) % 2 == 1 }

  /** How many of the channels before `i` the mask selects. */
  function Before(mask: nat, i: nat): nat {
    if i == 0 then 0 else Before(mask, i - 1) + if Bit(mask, i - 1) then 1 else 0
  }

  /** Bitwise and. */
  function And(a: nat, b: nat): nat {
    if a == 0 || b == 0 then 0 else (if a % 2 == 1 == b % 2 then 1 else 0) + 2 * And(a / 2, b / 2)
  }

  function Ones(v: nat): nat { if v == 0 then 0 else v % 2 + Ones(v / 2) }

  lemma {:induction false} AndSelf(v: nat)
    ensures And(v, v) == v
  {
    if v > 0 {
      AndSelf(v / 2);
    }
  }

  /** `and` bit by bit. */
  lemma {:induction false} AndBits(a: nat, b: nat, i: nat)
    ensures Bit(And(a, b), i) <==> Bit(a, i) && Bit(b, i)
  {
    if a == 0 || b == 0 {
      ShrZero(0, i);
    } else if i > 0 {
      AndBits(a / 2, b / 2, i - 1);
    }
  }

  /** `v & (v - 1)` has one bit less. */
  lemma {:induction false} ClearsOneBit(v: nat)
    requires v > 0
    ensures And(v, v - 1) < v && Ones(And(v, v - 1)) == Ones(v) - 1
  {
    var h := v / 2;
    if v % 2 == 1 {
      AndSelf(h);
      assert (v - 1) / 2 == h && (v - 1) % 2 == 0;
      assert And(v, v - 1) == 2 * h;
    } else {
      ClearsOneBit(h);
      assert (v - 1) / 2 == h - 1;
      var r := And(h, h - 1);
      assert And(v, v - 1) == 2 * r && 2 * r / 2 == r;
    }
  }

  /** Brian Kernighan's loop in `main`. */
  method CountChannels(chMask: nat) returns (c: nat)
    ensures c == Ones(chMask)
  {
    var v := chMask;
    c := 0;
    while v != 0
      invariant c + Ones(v) == Ones(chMask)
    {
      ClearsOneBit(v);
      v := And(v, v - 1);
      c := c + 1;
    }
  }

  lemma {:induction false} ShrNext(x: nat, i: nat)
    ensures Shr(x, i + 1) == Shr(x, i) / 2
  {
    if i > 0 {
      ShrNext(x / 2, i - 1);
    }
  }

  lemma {:induction false} OnesSplit(mask: nat, i: nat)
    ensures Ones(mask) == Before(mask, i) + Ones(Shr(mask, i))
  {
    if i > 0 {
      OnesSplit(mask, i - 1);
      ShrNext(mask, i - 1);
    }
  }

  /** The channels that the inner loop visits are as many as `main` counts exactly when no bit above the sixteen is set. */
  lemma ChannelsMatch(mask: nat)
    ensures Before(mask, SCOPE_NCH) == Ones(mask) <==> mask < 0x1_0000
  {
    OnesSplit(mask, 16);
    ShrZero(mask, 16);
    assert Pow2(4) == 16 && Pow2(8) == 16 * Pow2(4) && Pow2(12) == 16 * Pow2(8) && Pow2(16) == 16 * Pow2(12);
    if Shr(mask, 16) > 0 {
      OnesPositive(Shr(mask, 16));
    }
  }

  lemma {:induction false} ShrZero(x: nat, i: nat)
    ensures Shr(x, i) == 0 <==> x < Pow2(i)
  {
    if i > 0 {
      ShrZero(x / 2, i - 1);
    }
  }

  lemma {:induction false} OnesPositive(v: nat)
    requires v > 0
    ensures Ones(v) > 0
  {
    if v / 2 > 0 {
      OnesPositive(v / 2);
    }
  }

  // ----- one chunk -----

  /** Where point `t` of channel `ch` lies in `wavBuf`. */
  function Index(ch: nat, t: nat, nPt: nat): nat { ch * nPt + t }

  lemma IndexInBounds(ch: nat, t: nat, nPt: nat, m: nat)
    requires ch < m && t < nPt
    ensures Index(ch, t, nPt) < m * nPt
  {
    assert m * nPt == ch * nPt + (m - ch) * nPt;
    MulGrows(m - ch, nPt);
  }

  lemma IndexInjective(ch: nat, t: nat, ch': nat, t': nat, nPt: nat)
    requires t < nPt && t' < nPt && Index(ch, t, nPt) == Index(ch', t', nPt)
    ensures ch == ch' && t == t'
  {
    QuotientUnique(ch, t, ch', t', nPt);
  }

  /** Sample `ch` of point `p` in a chunk whose points have `m` samples. */
  function Sample(p: nat, ch: nat, m: nat): nat { p * m + ch }

  /** Cell by cell: the points from `from` to `cur - 1`, and the first `j` channels of point `cur`, hold the chunk's
    samples; all other cells are as in `was`. */
  ghost predicate Filled(buf: seq<i16>, was: seq<i16>, chunk: seq<i16>, m: nat, nPt: nat, from: nat, cur: nat, j: nat) {
    && |buf| == |was| == m * nPt && from <= cur && j <= m
    && forall ch: nat, t: nat | ch < m && t < nPt :: HoldsRight(buf, was, chunk, m, nPt, from, cur, j, ch, t)
  }

  ghost predicate HoldsRight(
      buf: seq<i16>, was: seq<i16>, chunk: seq<i16>, m: nat, nPt: nat, from: nat, cur: nat, j: nat, ch: nat, t: nat)
  {
    var x := Index(ch, t, nPt);
    && x < |buf| == |was|
    && if from <= t < cur || (from <= t == cur && ch < j) then
         Sample(t - from, ch, m) < |chunk| && buf[x] == chunk[Sample(t - from, ch, m)]
       else buf[x] == was[x]
  }

  lemma StoreOne(buf: seq<i16>, was: seq<i16>, chunk: seq<i16>, m: nat, nPt: nat, from: nat, cur: nat, j: nat)
    requires Filled(buf, was, chunk, m, nPt, from, cur, j) && j < m && cur < nPt
    requires Index(j, cur, nPt) < |buf| && Sample(cur - from, j, m) < |chunk|
    ensures Filled(buf[Index(j, cur, nPt) := chunk[Sample(cur - from, j, m)]], was, chunk, m, nPt, from, cur, j + 1)
  {
    var x := Index(j, cur, nPt);
    var buf', j' := buf[x := chunk[Sample(cur - from, j, m)]], j + 1;
    forall ch: nat, t: nat | ch < m && t < nPt ensures HoldsRight(buf', was, chunk, m, nPt, from, cur, j', ch, t) {
      assert HoldsRight(buf, was, chunk, m, nPt, from, cur, j, ch, t);
      if Index(ch, t, nPt) == x {
        IndexInjective(ch, t, j, cur, nPt);
      }
    }
  }

  lemma ColumnDone(buf: seq<i16>, was: seq<i16>, chunk: seq<i16>, m: nat, nPt: nat, from: nat, cur: nat)
    requires Filled(buf, was, chunk, m, nPt, from, cur, m)
    ensures Filled(buf, was, chunk, m, nPt, from, cur + 1, 0)
  {
    var cur' := cur + 1;
    forall ch: nat, t: nat | ch < m && t < nPt ensures HoldsRight(buf, was, chunk, m, nPt, from, cur', 0, ch, t) {
      assert HoldsRight(buf, was, chunk, m, nPt, from, cur, m, ch, t);
    }
  }

  lemma NothingFilled(buf: seq<i16>, chunk: seq<i16>, m: nat, nPt: nat, from: nat)
    requires |buf| == m * nPt
    ensures Filled(buf, buf, chunk, m, nPt, from, from, 0)
  {
    forall ch: nat, t: nat | ch < m && t < nPt ensures HoldsRight(buf, buf, chunk, m, nPt, from, from, 0, ch, t) {
      IndexInBounds(ch, t, nPt, m);
    }
  }

  lemma {:induction false} BeforeMonotone(mask: nat, i: nat, n: nat)
    requires i <= n
    ensures Before(mask, i) <= Before(mask, n)
  {
    if i < n {
      BeforeMonotone(mask, i, n - 1);
    }
  }

  /** The loop over one received chunk of `q` points. No store is out of bounds, and each goes to its own cell. */
  method FillChunk(wavBuf: array<i16>, chunk: seq<i16>, chMask: nat, nPt: nat, start: nat, ghost m: nat, ghost q: nat)
    returns (iP: nat)
    requires m == Before(chMask, SCOPE_NCH) && m >= 1
    requires wavBuf.Length == m * nPt && |chunk| == q * m && start + q <= nPt
    modifies wavBuf
    ensures iP == start + q
    ensures Filled(wavBuf[..], old(wavBuf[..]), chunk, m, nPt, start, start + q, 0)
  {
    ghost var was := wavBuf[..];
    var i := 0;
    iP := start;
    NothingFilled(was, chunk, m, nPt, start);
    while i < |chunk|
      invariant start <= iP <= start + q && i == (iP - start) * m
      invariant Filled(wavBuf[..], was, chunk, m, nPt, start, iP, 0)
    {
      PointInChunk(iP - start, q, m);
      var j := 0;
      for iCh := 0 to SCOPE_NCH
        invariant j == Before(chMask, iCh) && i == (iP - start) * m + j
        invariant Filled(wavBuf[..], was, chunk, m, nPt, start, iP, j)
      {
        if Bit(chMask, iCh) {
          BeforeMonotone(chMask, iCh + 1, SCOPE_NCH);
          IndexInBounds(j, iP, nPt, m);
          StoreOne(wavBuf[..], was, chunk, m, nPt, start, iP, j);
          wavBuf[j * nPt + iP] := chunk[i];
          j := j + 1;
          i := i + 1;
        }
      }
      ColumnDone(wavBuf[..], was, chunk, m, nPt, start, iP);
      iP := iP + 1;
      assert (iP - start) * m == (iP - 1 - start) * m + m;
    }
    if iP - start < q {
      PointInChunk(iP - start, q, m);
    }
  }

  /** A point that has begun inside a chunk ends inside it. */
  lemma PointInChunk(p: nat, q: nat, m: nat)
    requires m >= 1
    ensures p < q ==> p * m + m <= q * m
    ensures p >= q ==> p * m >= q * m
  {
    if p < q {
      assert q * m == p * m + (q - p) * m;
      MulGrows(q - p, m);
    } else {
      assert p * m == q * m + (p - q) * m;
    }
  }

  // ----- all chunks -----

  /** The channel counts that `main` lets through. */
  predicate Allowed(m: nat) { m in {1, 4, 8, 16} }

  function PointsPerChunk(m: nat): nat requires Allowed(m) { CHUNK / m }

  /** `waveformAttr.nPt` */
  function NPt(m: nat): nat requires Allowed(m) { SCOPE_MEM_LENGTH_MAX * (SCOPE_NCH / m) }

  /** How many chunks make an event. */
  const CHUNKS := SCOPE_NCH * SCOPE_MEM_LENGTH_MAX * 2 / NBASK

  lemma Sizes(m: nat)
    requires Allowed(m)
    ensures PointsPerChunk(m) * m == CHUNK && CHUNKS * PointsPerChunk(m) == NPt(m) && m * NPt(m) == CHUNKS * CHUNK
    ensures CHUNKS == 8192 && CHUNK == 0x1_0000
  {
  }

  /** Channel `ch` of point `t` after `c` chunks: the sample at its place in the stream. */
  ghost predicate Holds(buf: seq<i16>, chunks: seq<seq<i16>>, m: nat, c: nat, p: nat, ch: nat)
    requires Allowed(m)
  {
    var q := PointsPerChunk(m);
    var x := Index(ch, c * q + p, NPt(m));
    c < |chunks| && Sample(p, ch, m) < |chunks[c]| && x < |buf| && buf[x] == chunks[c][Sample(p, ch, m)]
  }

  ghost predicate Stored(buf: seq<i16>, chunks: seq<seq<i16>>, m: nat, done: nat)
    requires Allowed(m)
  {
    forall c: nat, p: nat, ch: nat | c < done && p < PointsPerChunk(m) && ch < m :: Holds(buf, chunks, m, c, p, ch)
  }

  lemma PointOfChunk(c: nat, p: nat, q: nat, n: nat)
    requires p < q && c < n
    ensures c * q + p < n * q && c * q + q <= n * q
  {
    assert n * q == c * q + (n - c) * q;
    MulGrows(n - c, q);
  }

  /** A chunk whose points go to `from` and on leaves a cell of an earlier chunk alone, and stores its own. */
  lemma CellAfterChunk(
      was: seq<i16>, buf: seq<i16>, chunk: seq<i16>, m: nat, nPt: nat, from: nat, q: nat, p: nat, ch: nat, t: nat)
    requires Filled(buf, was, chunk, m, nPt, from, from + q, 0) && ch < m && t < nPt
    ensures var x := Index(ch, t, nPt); x < |buf| == |was|
    ensures t < from ==> var x := Index(ch, t, nPt); buf[x] == was[x]
    ensures t == from + p && p < q ==>
              Sample(p, ch, m) < |chunk| && buf[Index(ch, t, nPt)] == chunk[Sample(p, ch, m)]
  {
    assert HoldsRight(buf, was, chunk, m, nPt, from, from + q, 0, ch, t);
  }

  /** One more chunk keeps what is stored and stores the chunk. */
  lemma ChunkStored(was: seq<i16>, buf: seq<i16>, chunks: seq<seq<i16>>, m: nat, done: nat)
    requires Allowed(m) && done < |chunks| == CHUNKS && |chunks[done]| == CHUNK
    requires Stored(was, chunks, m, done)
    requires var q := PointsPerChunk(m); Filled(buf, was, chunks[done], m, NPt(m), done * q, done * q + q, 0)
    ensures Stored(buf, chunks, m, done + 1)
  {
    var q, nPt, done' := PointsPerChunk(m), NPt(m), done + 1;
    Sizes(m);
    forall c: nat, p: nat, ch: nat | c < done' && p < q && ch < m ensures Holds(buf, chunks, m, c, p, ch) {
      PointOfChunk(c, p, q, CHUNKS);
      if c < done {
        PointOfChunk(c, p, q, done);
        assert Holds(was, chunks, m, c, p, ch);
      }
      CellStored(was, buf, chunks, m, q, nPt, done, done * q, c, p, ch, c * q + p);
    }
  }

  lemma CellStored(
      was: seq<i16>, buf: seq<i16>, chunks: seq<seq<i16>>, m: nat, q: nat, nPt: nat, done: nat, from: nat,
      c: nat, p: nat, ch: nat, t: nat)
    requires Allowed(m) && q == PointsPerChunk(m) && nPt == NPt(m) && t == c * q + p && t < nPt
    requires c <= done < |chunks| && p < q && ch < m && if c < done then t < from else t == from + p
    requires c < done ==> Holds(was, chunks, m, c, p, ch)
    requires Filled(buf, was, chunks[done], m, nPt, from, from + q, 0)
    ensures Holds(buf, chunks, m, c, p, ch)
  {
    CellAfterChunk(was, buf, chunks[done], m, nPt, from, q, p, ch, t);
  }

  /** The outer loop of `fmc112_read_save`, each chunk received completely, with the point count that `main` works out. The
    mask selects the channels that were counted: it has no bit above the sixteen. */
  method ReadSave(wavBuf: array<i16>, chunks: seq<seq<i16>>, chMask: nat)
    requires var m := Ones(chMask); Allowed(m) && wavBuf.Length == m * NPt(m)
    requires chMask < 0x1_0000
    requires |chunks| == CHUNKS && forall c | 0 <= c < |chunks| :: |chunks[c]| == CHUNK
    modifies wavBuf
    ensures Stored(wavBuf[..], chunks, Ones(chMask), CHUNKS)
  {
    var m := CountChannels(chMask);
    var nPt := NPt(m);
    ChannelsMatch(chMask);
    var iP, nb, c := 0, 0, 0;
    Sizes(m);
    while nb < SCOPE_NCH * SCOPE_MEM_LENGTH_MAX * 2
      invariant c <= CHUNKS && nb == c * NBASK && iP == c * PointsPerChunk(m)
      invariant Stored(wavBuf[..], chunks, m, c)
    {
      PointOfChunk(c, 0, PointsPerChunk(m), CHUNKS);
      ghost var was := wavBuf[..];
      nb := nb + NBASK;
      iP := FillChunk(wavBuf, chunks[c], chMask, nPt, iP, m, PointsPerChunk(m));
      ChunkStored(was, wavBuf[..], chunks, m, c);
      c := c + 1;
      assert c * PointsPerChunk(m) == (c - 1) * PointsPerChunk(m) + PointsPerChunk(m);
    }
  }

  /** What a bit above the sixteen channels does. The stream brings as many points to each channel it selects as `main`
    counted exactly when there is no such bit. With one, and with at least two channels selected, the first point too many
    goes to the first cell of the next channel. */
  lemma PointsMatch(chMask: nat)
    requires Allowed(Ones(chMask)) && Before(chMask, SCOPE_NCH) >= 1
    ensures var v, nPt := Before(chMask, SCOPE_NCH), NPt(Ones(chMask));
            && (CHUNKS * CHUNK / v == nPt <==> chMask < 0x1_0000)
            && (chMask >= 0x1_0000 ==> CHUNKS * CHUNK / v > nPt && Index(0, nPt, nPt) == Index(1, 0, nPt))
  {
    ChannelsMatch(chMask);
    SelectedAtMost(chMask, SCOPE_NCH);
    PointsOfCount(Before(chMask, SCOPE_NCH), Ones(chMask));
  }

  lemma SelectedAtMost(chMask: nat, i: nat)
    ensures Before(chMask, i) <= Ones(chMask)
  {
    OnesSplit(chMask, i);
  }

  lemma PointsOfCount(v: nat, m: nat)
    requires Allowed(m) && 1 <= v <= m
    ensures var nPt := NPt(m);
            if v == m then CHUNKS * CHUNK / v == nPt else CHUNKS * CHUNK / v > nPt && Index(0, nPt, nPt) == Index(1, 0, nPt)
  {
    Sizes(m);
    assert NPt(m) >= 16 >= m;
    PointsOfChannels(v, m, NPt(m), CHUNKS * CHUNK);
  }

  lemma PointsOfChannels(v: nat, m: nat, nPt: nat, total: nat)
    requires 1 <= v <= m && nPt >= 16 >= m && total == m * nPt
    ensures if v == m then total / v == nPt else total / v > nPt
    ensures Index(0, nPt, nPt) == Index(1, 0, nPt)
  {
    if v == m {
      DivUnique(total, nPt, 0, m);
    } else {
      assert m * nPt == v * nPt + (m - v) * nPt;
      MulGrows(m - v, nPt);
      assert (nPt + 1) * v == nPt * v + v;
      DivAtLeast(total, nPt + 1, v);
    }
  }

  // ----- the event buffer as a transposed stream -----

  /** The cell of stream sample `k`. */
  function CellOf(k: nat, m: nat, nPt: nat): nat
    requires m > 0
  {
    Index(k % m, k / m, nPt)
  }

  lemma Divided(t: nat, ch: nat, m: nat)
    requires ch < m
    ensures (t * m + ch) / m == t && (t * m + ch) % m == ch
  {
    DivUnique(t * m + ch, t, ch, m);
  }

  /** After every number of chunks: sample `k` of the stream so far, wherever the chunk boundaries fall, is point `k / m` of
    channel `k % m`. */
  lemma StreamOrder(buf: seq<i16>, chunks: seq<seq<i16>>, m: nat, done: nat, k: nat)
    requires Allowed(m) && done <= CHUNKS && Stored(buf, chunks, m, done) && k < done * CHUNK
    requires |chunks| == CHUNKS && forall c | 0 <= c < |chunks| :: |chunks[c]| == CHUNK
    ensures var x := CellOf(k, m, NPt(m)); x < |buf| && buf[x] == chunks[k / CHUNK][k % CHUNK]
  {
    var c, r, q := k / CHUNK, k % CHUNK, PointsPerChunk(m);
    Sizes(m);
    DivAtLeast(k, done, CHUNK);
    SplitSample(k, c, r, q, m);
    var p, ch := r / m, r % m;
    assert c < done && p < q && ch < m && r == Sample(p, ch, m);
    assert Holds(buf, chunks, m, c, p, ch);
    assert CellOf(k, m, NPt(m)) == Index(ch, c * q + p, NPt(m));
  }

  lemma SplitSample(k: nat, c: nat, r: nat, q: nat, m: nat)
    requires m > 0 && q * m == CHUNK && k == c * CHUNK + r && r < CHUNK
    ensures r / m < q && k / m == c * q + r / m && k % m == r % m && r == Sample(r / m, r % m, m)
  {
    var p, ch := r / m, r % m;
    assert r == p * m + ch;
    assert (c * q + p) * m == c * (q * m) + p * m;
    Divided(c * q + p, ch, m);
    DivAtLeast(r, q, m);
  }

  // Different samples have different cells, all in the buffer, and every cell of the buffer belongs to a sample: the
  // stream fills the buffer exactly once.

  lemma CellInBounds(k: nat, m: nat, nPt: nat)
    requires m > 0 && k < m * nPt
    ensures k / m < nPt && CellOf(k, m, nPt) < m * nPt
  {
    DivAtLeast(k, nPt, m);
    IndexInBounds(k % m, k / m, nPt, m);
  }

  lemma DivSplit(k: nat, m: nat)
    requires m > 0
    ensures k == Sample(k / m, k % m, m)
  {
  }

  lemma CellInjective(k: nat, k': nat, m: nat, nPt: nat)
    requires m > 0 && k < m * nPt && k' < m * nPt && CellOf(k, m, nPt) == CellOf(k', m, nPt)
    ensures k == k'
  {
    CellInBounds(k, m, nPt);
    CellInBounds(k', m, nPt);
    IndexInjective(k % m, k / m, k' % m, k' / m, nPt);
    DivSplit(k, m);
    DivSplit(k', m);
  }

  lemma CellOnto(x: nat, m: nat, nPt: nat)
    requires m > 0 && x < m * nPt
    ensures nPt > 0 && var k := Sample(x % nPt, x / nPt, m); k < m * nPt && CellOf(k, m, nPt) == x
  {
    assert nPt > 0;
    DivAtLeast(x, m, nPt);
    Divided(x % nPt, x / nPt, m);
    PointInChunk(x % nPt, nPt, m);
  }

  lemma {:induction false} Scaled(h: nat, i: nat)
    ensures Shr(Shl(h, i), i) == h && Ones(Shl(h, i)) == Ones(h)
  {
    if i > 0 {
      Scaled(h, i - 1);
      assert Shl(h, i) / 2 == Shl(h, i - 1);
    }
  }

  /** A mask whose bits all lie at `n` or above is counted in full by `main`, and may pass its checks, but selects none
    of the first `n` channels. With `n` the sixteen of `SCOPE_NCH`, the inner loop would never take a sample. */
  lemma HighMaskSelectsNothing(h: nat, n: nat)
    ensures Ones(Shl(h, n)) == Ones(h) && Before(Shl(h, n), n) == 0
  {
    Scaled(h, n);
    OnesSplit(Shl(h, n), n);
  }
}
