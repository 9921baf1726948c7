/**
 Entropy coding of one 8x8 block (`huffman_encode`) and its T.81 decoder.

 A block is its 64 quantised coefficients in zig-zag order: the DC coefficient, then 63 AC coefficients.
 */
module BlockCoding {
  import opened Bits
  import opened Wrappers
  import opened HuffmanTables
  import opened AcTables

  // ---------- variable-length integers ----------

  function Abs(v: int): nat {
    if v < 0 then -v else v
  }

  /** The number of significant bits of `x`. */
  function Size(x: nat): (m: nat)
    ensures x < Pow2(m)
    ensures m > 0 ==> Pow2(m - 1) <= x
  {
    if x == 0 then 0 else 1 + Size(x / 2)
  }

  /** `huffman_magnitude`. */
  function Magnitude(v: int): nat {
    Size(Abs(v))
  }

  /** `huffman_bits`: one's complement style amplitude, `value + (value >> 15)`. */
  function Amplitude(v: int): int {
    if v < 0 then v - 1 else v
  }

  function VliBits(v: int): seq<bool> {
    BitsOf(Amplitude(v), Magnitude(v))
  }

  /** RECEIVE of T.81 F.2.2.4: the next `n` bits as a number. */
  function Receive(bits: seq<bool>, n: nat): Option<(nat, seq<bool>)> {
    if |bits| < n then None else Some((Value(bits[..n]), bits[n..]))
  }

  /** EXTEND of T.81 figure F.12. */
  function Extend(v: nat, t: nat): int {
    if t > 0 && v < Pow2(t - 1) then v - Pow2(t) + 1 else v
  }

  function DecodeVli(bits: seq<bool>, t: nat): Option<(int, seq<bool>)> {
    var (v, rest) :- Receive(bits, t);
    Some((Extend(v, t), rest))
  }

  /** Size is the least width that holds the value. */
  lemma {:induction false} SizeAtMost(x: nat, m: nat)
    requires x < Pow2(m)
    ensures Size(x) <= m
  {
    if x != 0 && m != 0 {
      SizeAtMost(x / 2, m - 1);
    }
  }

  /** An amplitude read back with its own size is the original value. */
  lemma VliInverse(v: int, rest: seq<bool>)
    ensures DecodeVli(VliBits(v) + rest, Magnitude(v)) == Some((v, rest))
  {
    var m, a := Magnitude(v), Amplitude(v);
    var bits := VliBits(v) + rest;
    assert bits[..m] == VliBits(v) && bits[m..] == rest;
    ValueOfBits(a, m);
    if v < 0 {
      DivModUnique(a, Pow2(m), -1, a + Pow2(m));
    } else {
      DivModUnique(a, Pow2(m), 0, a);
    }
    if m > 0 {
      assert Pow2(m) == 2 * Pow2(m - 1);
    }
  }

  // ---------- encoding ----------

  type Block = q: seq<int> | |q| == 64 witness seq(64, _ => 0)

  /** The encoder's tables have a row for every run and a column for every size up to 11. */
  ghost predicate FullTables(ctx: HuffmanCtx) {
    && (forall size :: 0 <= size <= 11 ==> ctx.HasDc(size))
    && (forall run, size :: 0 <= run <= 15 && 0 <= size <= 11 ==> ctx.HasAc(run, size))
  }

  /** How many AC coefficients just before position `i` are zero: the encoder's `zerorun` there. */
  function ZeroRun(q: Block, i: nat): (z: nat)
    requires 1 <= i <= 64
    ensures z < i
    ensures forall k :: i - z <= k < i ==> q[k] == 0
  {
    if i == 1 || q[i - 1] != 0 then 0 else 1 + ZeroRun(q, i - 1)
  }

  function Zrl(ctx: HuffmanCtx, n: nat): seq<bool>
    requires ctx.HasAc(15, 0)
  {
    if n == 0 then [] else ctx.AcCode(15, 0) + Zrl(ctx, n - 1)
  }

  /** The bits for one non-zero coefficient after `z` zeros. */
  function CoefBits(ctx: HuffmanCtx, v: int, z: nat): seq<bool>
    requires FullTables(ctx) && Magnitude(v) <= 11
  {
    Zrl(ctx, z / 16) + (ctx.AcCode(z % 16, Magnitude(v)) + VliBits(v))
  }

  predicate AcSizesAtMost(q: Block, bound: nat) {
    forall i :: 1 <= i < 64 ==> Magnitude(q[i]) <= bound
  }

  /** What the loop of `huffman_encode` still appends at position `i`, EOB included. */
  function AcBits(ctx: HuffmanCtx, q: Block, i: nat): seq<bool>
    requires FullTables(ctx) && AcSizesAtMost(q, 11) && 1 <= i <= 64
    decreases 64 - i
  {
    if i == 64 then
      if ZeroRun(q, i) > 0 then ctx.AcCode(0, 0) else []
    else if q[i] == 0 then
      AcBits(ctx, q, i + 1)
    else
      CoefBits(ctx, q[i], ZeroRun(q, i)) + AcBits(ctx, q, i + 1)
  }

  function DcDiff(q: Block, pred: int): int {
    Int16(q[0] - pred)
  }

  predicate Encodable(q: Block, pred: int) {
    Magnitude(DcDiff(q, pred)) <= 11 && AcSizesAtMost(q, 11)
  }

  /** All bits `huffman_encode` appends for a block, given the previous DC value of its component. */
  function BlockBits(ctx: HuffmanCtx, q: Block, pred: int): seq<bool>
    requires FullTables(ctx) && Encodable(q, pred)
  {
    var diff := DcDiff(q, pred);
    ctx.DcCode(Magnitude(diff)) + VliBits(diff) + AcBits(ctx, q, 1)
  }

  // ---------- decoding: T.81 F.2.2.1 and F.2.2.2 ----------

  function Zeros(n: nat): (z: seq<int>)
    ensures |z| == n && forall i :: 0 <= i < n ==> z[i] == 0
  {
    seq(n, _ => 0)
  }

  /** Decode_AC_coefficients (figure F.13) from coefficient `k` on. */
  function DecodeAc(ac: SymbolDecoder, k: nat, bits: seq<bool>): (r: Option<(seq<int>, seq<bool>)>)
    requires 1 <= k <= 64
    ensures r.Some? ==> |r.value.0| == 64 - k
    decreases 64 - k
  {
    if k == 64 then
      Some(([], bits))
    else
      var (rs, rest) :- ac(bits);
      var run, size := rs / 16, rs % 16;
      if size == 0 && run != 15 then
        Some((Zeros(64 - k), rest))
      else if k + (if size == 0 then 16 else run) > 63 then
        None
      else if size == 0 then
        var (acs, rest) :- DecodeAc(ac, k + 16, rest);
        Some((Zeros(16) + acs, rest))
      else
        var (v, rest) :- DecodeVli(rest, size);
        var (acs, rest) :- DecodeAc(ac, k + run + 1, rest);
        Some((Zeros(run) + [v] + acs, rest))
  }

  function DecodeBlock(dc: SymbolDecoder, ac: SymbolDecoder, bits: seq<bool>, pred: int): Option<(Block, seq<bool>)> {
    var (t, rest) :- dc(bits);
    var (diff, rest) :- DecodeVli(rest, t);
    var (acs, rest) :- DecodeAc(ac, 1, rest);
    Some(([pred + diff] + acs, rest))
  }

  // ---------- round trip ----------

  /** Every entry means its symbol, except that with `collides` run 6 / size 9 means run 7 / size 3. */
  ghost predicate Faithful(ctx: HuffmanCtx, dc: SymbolDecoder, ac: SymbolDecoder, collides: bool) {
    && FullTables(ctx)
    && (forall size: nat :: size <= 11 ==> Codes(dc, ctx.DcCode(size), size))
    && (forall run: nat, size: nat :: HasAcCode(run, size) ==>
          Codes(ac, ctx.AcCode(run, size),
                   if collides && run == 6 && size == 9 then 16 * 7 + 3 else 16 * run + size))
  }

  /** The coefficient at `i` is written with the colliding entry. */
  predicate CollidesAt(q: Block, i: nat)
    requires 1 <= i < 64
  {
    q[i] != 0 && Magnitude(q[i]) == 9 && ZeroRun(q, i) % 16 == 6
  }

  predicate CollisionFree(q: Block) {
    forall i :: 1 <= i < 64 ==> !CollidesAt(q, i)
  }

  /** The result of a decoder that has already read the coefficients `front`. */
  function Prepend(front: seq<int>, r: Option<(seq<int>, seq<bool>)>): Option<(seq<int>, seq<bool>)> {
    if r.None? then None else Some((front + r.value.0, r.value.1))
  }

  lemma PrependTwice(a: seq<int>, b: seq<int>, r: Option<(seq<int>, seq<bool>)>)
    ensures Prepend(a, Prepend(b, r)) == Prepend(a + b, r)
  {
    if r.Some? {
      assert a + (b + r.value.0) == a + b + r.value.0;
    }
  }

  lemma ZrlStep(ac: SymbolDecoder, code: seq<bool>, k: nat, rest: seq<bool>)
    requires Codes(ac, code, 16 * 15) && 1 <= k && k + 16 <= 63
    ensures DecodeAc(ac, k, code + rest) == Prepend(Zeros(16), DecodeAc(ac, k + 16, rest))
  {
    assert ac(code + rest) == Some((16 * 15, rest));
  }

  lemma EobStep(ac: SymbolDecoder, code: seq<bool>, k: nat, rest: seq<bool>)
    requires Codes(ac, code, 0) && 1 <= k <= 63
    ensures DecodeAc(ac, k, code + rest) == Some((Zeros(64 - k), rest))
  {
    assert ac(code + rest) == Some((0, rest));
  }

  lemma CoefStep(ac: SymbolDecoder, code: seq<bool>, run: nat, size: nat, k: nat, b: seq<bool>, v: int, rest: seq<bool>)
    requires Codes(ac, code, 16 * run + size) && run <= 15 && 1 <= size <= 15
    requires 1 <= k && k + run <= 63 && DecodeVli(b, size) == Some((v, rest))
    ensures DecodeAc(ac, k, code + b) == Prepend(Zeros(run) + [v], DecodeAc(ac, k + run + 1, rest))
  {
    assert ac(code + b) == Some((16 * run + size, b));
  }

  lemma ZrlBitsStep(ctx: HuffmanCtx, n: nat, tail: seq<bool>)
    requires ctx.HasAc(15, 0)
    ensures Zrl(ctx, 0) + tail == tail
    ensures n > 0 ==> Zrl(ctx, n) + tail == ctx.AcCode(15, 0) + (Zrl(ctx, n - 1) + tail)
  {
  }

  lemma PrependNothing(r: Option<(seq<int>, seq<bool>)>)
    ensures Prepend(Zeros(0), r) == r
  {
    if r.Some? {
      assert Zeros(0) + r.value.0 == r.value.0;
    }
  }

  lemma PrependZeros(n: nat, first: Option<(seq<int>, seq<bool>)>, more: Option<(seq<int>, seq<bool>)>,
                     r: Option<(seq<int>, seq<bool>)>)
    requires n > 0 && first == Prepend(Zeros(16), more) && more == Prepend(Zeros(16 * (n - 1)), r)
    ensures first == Prepend(Zeros(16 * n), r)
  {
    PrependTwice(Zeros(16), Zeros(16 * (n - 1)), r);
    assert Zeros(16) + Zeros(16 * (n - 1)) == Zeros(16 * n);
  }

  lemma {:induction false} DecodeZrl(ctx: HuffmanCtx, ac: SymbolDecoder, n: nat, k: nat, k': nat, tail: seq<bool>)
    requires ctx.HasAc(15, 0) && Codes(ac, ctx.AcCode(15, 0), 16 * 15) && 1 <= k && k' == k + 16 * n <= 63
    ensures DecodeAc(ac, k, Zrl(ctx, n) + tail) == Prepend(Zeros(16 * n), DecodeAc(ac, k', tail))
    decreases n
  {
    hide Zrl, DecodeAc, Codes, Prepend, Zeros;
    ZrlBitsStep(ctx, n, tail);
    if n == 0 {
      PrependNothing(DecodeAc(ac, k', tail));
    } else {
      var more := Zrl(ctx, n - 1) + tail;
      ZrlStep(ac, ctx.AcCode(15, 0), k, more);
      DecodeZrl(ctx, ac, n - 1, k + 16, k', tail);
      PrependZeros(n, DecodeAc(ac, k, Zrl(ctx, n) + tail), DecodeAc(ac, k + 16, more), DecodeAc(ac, k', tail));
    }
  }

  lemma ZerosSplit(z: nat, v: int)
    ensures 16 * (z / 16) + z % 16 == z
    ensures Zeros(16 * (z / 16)) + (Zeros(z % 16) + [v]) == Zeros(z) + [v]
  {
  }

  /** Reading a coefficient whose entry means (run, size): 16 zeros for each of `n` ZRLs, then what the entry says. */
  lemma DecodeCoefAs(ctx: HuffmanCtx, ac: SymbolDecoder, code: seq<bool>, run: nat, size: nat,
                     n: nat, k: nat, k': nat, b: seq<bool>, v: int, tail: seq<bool>)
    requires ctx.HasAc(15, 0) && Codes(ac, ctx.AcCode(15, 0), 16 * 15)
    requires Codes(ac, code, 16 * run + size) && run <= 15 && 1 <= size <= 15
    requires 1 <= k && k' == k + 16 * n && k' + run <= 63 && DecodeVli(b, size) == Some((v, tail))
    ensures DecodeAc(ac, k, Zrl(ctx, n) + (code + b)) ==
            Prepend(Zeros(16 * n) + (Zeros(run) + [v]), DecodeAc(ac, k' + run + 1, tail))
  {
    var r := DecodeAc(ac, k' + run + 1, tail);
    CoefStep(ac, code, run, size, k', b, v, tail);
    DecodeZrl(ctx, ac, n, k, k', code + b);
    PrependTwice(Zeros(16 * n), Zeros(run) + [v], r);
  }

  /** Reading a coefficient written with a faithful entry gives its zeros, then its value. */
  lemma DecodeCoef(ctx: HuffmanCtx, dc: SymbolDecoder, ac: SymbolDecoder, collides: bool,
                   v: int, z: nat, k: nat, tail: seq<bool>)
    requires Faithful(ctx, dc, ac, collides) && 1 <= k && k + z <= 63
    requires v != 0 && Magnitude(v) <= 10
    requires collides ==> !(Magnitude(v) == 9 && z % 16 == 6)
    ensures DecodeAc(ac, k, CoefBits(ctx, v, z) + tail) ==
            Prepend(Zeros(z) + [v], DecodeAc(ac, k + z + 1, tail))
  {
    hide Magnitude, VliBits, DecodeAc, DecodeVli, CoefBits, Zrl, Zeros, Prepend, Codes;
    var m, run := Magnitude(v), z % 16;
    NonZeroSize(v);
    assert HasAcCode(run, m) && HasAcCode(15, 0);
    var code, b := ctx.AcCode(run, m), VliBits(v) + tail;
    CoefBitsSplit(ctx, v, z, tail);
    VliInverse(v, tail);
    DecodeCoefAs(ctx, ac, code, run, m, z / 16, k, k + 16 * (z / 16), b, v, tail);
    ZerosSplit(z, v);
  }

  lemma NonZeroSize(v: int)
    requires v != 0
    ensures Magnitude(v) >= 1
  {
  }

  lemma CoefBitsSplit(ctx: HuffmanCtx, v: int, z: nat, tail: seq<bool>)
    requires FullTables(ctx) && Magnitude(v) <= 11
    ensures CoefBits(ctx, v, z) + tail == Zrl(ctx, z / 16) + (ctx.AcCode(z % 16, Magnitude(v)) + (VliBits(v) + tail))
  {
  }

  lemma AcEnd(ctx: HuffmanCtx, dc: SymbolDecoder, ac: SymbolDecoder, collides: bool, q: Block, rest: seq<bool>)
    requires Faithful(ctx, dc, ac, collides) && AcSizesAtMost(q, 10)
    ensures var z := ZeroRun(q, 64);
            DecodeAc(ac, 64 - z, AcBits(ctx, q, 64) + rest) == Some((Zeros(z) + q[64..], rest))
  {
    var z := ZeroRun(q, 64);
    assert Zeros(z) + q[64..] == Zeros(z);
    if z > 0 {
      assert HasAcCode(0, 0);
      EobStep(ac, ctx.AcCode(0, 0), 64 - z, rest);
    } else {
      assert AcBits(ctx, q, 64) + rest == rest;
    }
  }

  /** At a faithfully written non-zero coefficient the decoder yields it and goes on with the next one. */
  lemma AcNonZero(ctx: HuffmanCtx, dc: SymbolDecoder, ac: SymbolDecoder, collides: bool, q: Block, i: nat, rest: seq<bool>)
    requires Faithful(ctx, dc, ac, collides) && AcSizesAtMost(q, 10)
    requires 1 <= i < 64 && q[i] != 0 && (collides ==> !CollidesAt(q, i))
    ensures var z := ZeroRun(q, i);
            DecodeAc(ac, i - z, AcBits(ctx, q, i) + rest) ==
            Prepend(Zeros(z) + [q[i]], DecodeAc(ac, i + 1, AcBits(ctx, q, i + 1) + rest))
  {
    hide DecodeAc, CoefBits, Magnitude, Codes, Zeros, Prepend;
    var z, tail := ZeroRun(q, i), AcBits(ctx, q, i + 1) + rest;
    assert AcBits(ctx, q, i) + rest == CoefBits(ctx, q[i], z) + tail;
    DecodeCoef(ctx, dc, ac, collides, q[i], z, i - z, tail);
  }

  lemma ZeroStep(q: Block, i: nat)
    requires 1 <= i < 64 && q[i] == 0
    ensures ZeroRun(q, i + 1) == ZeroRun(q, i) + 1
    ensures Zeros(ZeroRun(q, i) + 1) + q[i + 1..] == Zeros(ZeroRun(q, i)) + q[i..]
  {
  }

  lemma NonZeroStep(q: Block, i: nat)
    requires 1 <= i < 64 && q[i] != 0
    ensures ZeroRun(q, i + 1) == 0 && Zeros(0) + q[i + 1..] == q[i + 1..]
    ensures Zeros(ZeroRun(q, i)) + [q[i]] + q[i + 1..] == Zeros(ZeroRun(q, i)) + q[i..]
  {
  }

  /** What a correct decoder returns at position `i`: the pending zeros and all coefficients from `i` on. */
  function Expected(q: Block, i: nat): seq<int>
    requires 1 <= i <= 64
  {
    Zeros(ZeroRun(q, i)) + q[i..]
  }

  /** What the decoder returns at position `i`, the pending zeros still unread. */
  function Decoded(ctx: HuffmanCtx, ac: SymbolDecoder, q: Block, i: nat, rest: seq<bool>): Option<(seq<int>, seq<bool>)>
    requires FullTables(ctx) && AcSizesAtMost(q, 11) && 1 <= i <= 64
  {
    DecodeAc(ac, i - ZeroRun(q, i), AcBits(ctx, q, i) + rest)
  }

  lemma DecodedZero(ctx: HuffmanCtx, ac: SymbolDecoder, q: Block, i: nat, rest: seq<bool>)
    requires FullTables(ctx) && AcSizesAtMost(q, 11) && 1 <= i < 64 && q[i] == 0
    ensures Decoded(ctx, ac, q, i, rest) == Decoded(ctx, ac, q, i + 1, rest)
    ensures Expected(q, i) == Expected(q, i + 1)
  {
    ZeroStep(q, i);
  }

  lemma DecodedNonZero(ctx: HuffmanCtx, dc: SymbolDecoder, ac: SymbolDecoder, collides: bool,
                       q: Block, i: nat, rest: seq<bool>)
    requires Faithful(ctx, dc, ac, collides) && AcSizesAtMost(q, 10)
    requires 1 <= i < 64 && q[i] != 0 && (collides ==> !CollidesAt(q, i))
    ensures var front := Zeros(ZeroRun(q, i)) + [q[i]];
            && Decoded(ctx, ac, q, i, rest) == Prepend(front, Decoded(ctx, ac, q, i + 1, rest))
            && Expected(q, i) == front + Expected(q, i + 1)
  {
    AcNonZero(ctx, dc, ac, collides, q, i, rest);
    NonZeroStep(q, i);
  }

  lemma {:induction false} AcRoundTrip(ctx: HuffmanCtx, dc: SymbolDecoder, ac: SymbolDecoder, collides: bool,
                                       q: Block, i: nat, rest: seq<bool>)
    requires Faithful(ctx, dc, ac, collides) && 1 <= i <= 64 && AcSizesAtMost(q, 10)
    requires collides ==> forall j :: i <= j < 64 ==> !CollidesAt(q, j)
    ensures Decoded(ctx, ac, q, i, rest) == Some((Expected(q, i), rest))
    decreases 64 - i
  {
    if i == 64 {
      AcEnd(ctx, dc, ac, collides, q, rest);
    } else {
      AcRoundTrip(ctx, dc, ac, collides, q, i + 1, rest);
      if q[i] == 0 {
        DecodedZero(ctx, ac, q, i, rest);
      } else {
        DecodedNonZero(ctx, dc, ac, collides, q, i, rest);
      }
    }
  }

  lemma CollidingBits(ctx: HuffmanCtx, q: Block, i: nat, rest: seq<bool>)
    requires FullTables(ctx) && AcSizesAtMost(q, 11) && 1 <= i < 64 && CollidesAt(q, i)
    ensures AcBits(ctx, q, i) + rest ==
            Zrl(ctx, ZeroRun(q, i) / 16) + (ctx.AcCode(6, 9) + (VliBits(q[i]) + (AcBits(ctx, q, i + 1) + rest)))
  {
  }

  /** At a colliding coefficient the decoder either fails or reads a zero where the coefficient is. */
  lemma AcCollision(ctx: HuffmanCtx, dc: SymbolDecoder, ac: SymbolDecoder, q: Block, i: nat, rest: seq<bool>)
    requires Faithful(ctx, dc, ac, true) && AcSizesAtMost(q, 10)
    requires 1 <= i < 64 && CollidesAt(q, i)
    ensures var r := Decoded(ctx, ac, q, i, rest); r.Some? ==> r.value.0[ZeroRun(q, i)] == 0
  {
    var z := ZeroRun(q, i);
    var code, b := ctx.AcCode(6, 9), VliBits(q[i]) + (AcBits(ctx, q, i + 1) + rest);
    CollidingBits(ctx, q, i, rest);
    assert HasAcCode(6, 9) && HasAcCode(15, 0);
    ReadCollision(ctx, ac, code, z, i - z, b);
  }

  lemma ReadCollision(ctx: HuffmanCtx, ac: SymbolDecoder, code: seq<bool>, z: nat, k: nat, b: seq<bool>)
    requires ctx.HasAc(15, 0) && Codes(ac, ctx.AcCode(15, 0), 16 * 15)
    requires Codes(ac, code, 16 * 7 + 3) && 1 <= k && k + z <= 63 && z % 16 == 6 && |b| >= 9
    ensures var r := DecodeAc(ac, k, Zrl(ctx, z / 16) + (code + b)); r.Some? ==> r.value.0[z] == 0
  {
    if k + z == 63 {
      DecodeZrl(ctx, ac, z / 16, k, k + 16 * (z / 16), code + b);
      assert ac(code + b) == Some((16 * 7 + 3, b));
    } else {
      var v, after := Extend(Value(b[..3]), 3), b[3..];
      DecodeCoefAs(ctx, ac, code, 7, 3, z / 16, k, k + 16 * (z / 16), b, v, after);
      assert (Zeros(16 * (z / 16)) + (Zeros(7) + [v]))[z] == 0;
    }
  }

  /** If some coefficient from `i` on collides, the coefficients read back are not those written. */
  lemma {:induction false} AcBroken(ctx: HuffmanCtx, dc: SymbolDecoder, ac: SymbolDecoder,
                                    q: Block, i: nat, bad: nat, rest: seq<bool>)
    requires Faithful(ctx, dc, ac, true) && AcSizesAtMost(q, 10)
    requires 1 <= i <= bad < 64 && CollidesAt(q, bad)
    ensures var r := Decoded(ctx, ac, q, i, rest); r.Some? ==> r.value.0 != Expected(q, i)
    decreases 64 - i
  {
    hide Decoded, Magnitude, Expected, Codes;
    assert FullTables(ctx) && AcSizesAtMost(q, 11);
    if q[i] == 0 {
      AcBroken(ctx, dc, ac, q, i + 1, bad, rest);
      DecodedZero(ctx, ac, q, i, rest);
    } else if CollidesAt(q, i) {
      AcCollision(ctx, dc, ac, q, i, rest);
      ExpectedAt(q, i);
    } else {
      AcBroken(ctx, dc, ac, q, i + 1, bad, rest);
      DecodedNonZero(ctx, dc, ac, true, q, i, rest);
      SuffixDiffers(Zeros(ZeroRun(q, i)) + [q[i]], Decoded(ctx, ac, q, i + 1, rest), Expected(q, i + 1));
    }
  }

  lemma ExpectedAt(q: Block, i: nat)
    requires 1 <= i < 64
    ensures ZeroRun(q, i) < |Expected(q, i)| && Expected(q, i)[ZeroRun(q, i)] == q[i]
  {
  }

  lemma SuffixDiffers(front: seq<int>, r: Option<(seq<int>, seq<bool>)>, expected: seq<int>)
    requires r.Some? ==> r.value.0 != expected
    ensures var p := Prepend(front, r); p.Some? ==> p.value.0 != front + expected
  {
    if r.Some? {
      assert (front + r.value.0)[|front|..] == r.value.0;
      assert (front + expected)[|front|..] == expected;
    }
  }

  lemma DcStep(dc: SymbolDecoder, ac: SymbolDecoder, code: seq<bool>, size: nat, b: seq<bool>,
               diff: int, tail: seq<bool>, pred: int)
    requires Codes(dc, code, size) && DecodeVli(b, size) == Some((diff, tail))
    ensures DecodeBlock(dc, ac, code + b, pred) == Prepend([pred + diff], DecodeAc(ac, 1, tail))
  {
    assert dc(code + b) == Some((size, b));
  }

  lemma BlockBitsSplit(ctx: HuffmanCtx, q: Block, pred: int, rest: seq<bool>)
    requires FullTables(ctx) && Encodable(q, pred)
    ensures var diff := DcDiff(q, pred);
            BlockBits(ctx, q, pred) + rest ==
            ctx.DcCode(Magnitude(diff)) + (VliBits(diff) + (AcBits(ctx, q, 1) + rest))
  {
  }

  /** What the decoder does with a block: the DC value first, then the AC coefficients. */
  lemma DecodeBlockSteps(ctx: HuffmanCtx, dc: SymbolDecoder, ac: SymbolDecoder, collides: bool,
                         q: Block, pred: int, rest: seq<bool>)
    requires Faithful(ctx, dc, ac, collides) && Encodable(q, pred)
    ensures DecodeBlock(dc, ac, BlockBits(ctx, q, pred) + rest, pred) ==
            Prepend([pred + DcDiff(q, pred)], Decoded(ctx, ac, q, 1, rest))
  {
    hide Magnitude, VliBits, AcBits, DecodeAc, DecodeVli, Codes, Zeros;
    var diff, tail := DcDiff(q, pred), AcBits(ctx, q, 1) + rest;
    var m := Magnitude(diff);
    BlockBitsSplit(ctx, q, pred, rest);
    VliInverse(diff, tail);
    DcStep(dc, ac, ctx.DcCode(m), m, VliBits(diff) + tail, diff, tail, pred);
  }

  lemma ExpectedAll(q: Block)
    ensures Expected(q, 1) == q[1..] && [q[0]] + q[1..] == q
  {
  }

  lemma DiffRecovered(q: Block, pred: int)
    requires -0x8000 <= q[0] - pred < 0x8000
    ensures pred + DcDiff(q, pred) == q[0]
  {
  }

  lemma Reassembled(q: Block, pred: int, acs: Option<(seq<int>, seq<bool>)>, rest: seq<bool>)
    requires acs == Some((Expected(q, 1), rest)) && -0x8000 <= q[0] - pred < 0x8000
    ensures Prepend([pred + DcDiff(q, pred)], acs) == Some((q, rest))
  {
    DiffRecovered(q, pred);
    ExpectedAll(q);
  }

  lemma BlockDecodes(ctx: HuffmanCtx, dc: SymbolDecoder, ac: SymbolDecoder, collides: bool,
                     q: Block, pred: int, rest: seq<bool>)
    requires Faithful(ctx, dc, ac, collides) && Encodable(q, pred) && AcSizesAtMost(q, 10)
    requires -0x8000 <= q[0] - pred < 0x8000 && (collides ==> CollisionFree(q))
    ensures DecodeBlock(dc, ac, BlockBits(ctx, q, pred) + rest, pred) == Some((q, rest))
  {
    DecodeBlockSteps(ctx, dc, ac, collides, q, pred, rest);
    AcRoundTrip(ctx, dc, ac, collides, q, 1, rest);
    Reassembled(q, pred, Decoded(ctx, ac, q, 1, rest), rest);
  }

  lemma BlockBreaks(ctx: HuffmanCtx, dc: SymbolDecoder, ac: SymbolDecoder, q: Block, pred: int, rest: seq<bool>)
    requires Faithful(ctx, dc, ac, true) && Encodable(q, pred) && AcSizesAtMost(q, 10)
    requires -0x8000 <= q[0] - pred < 0x8000 && !CollisionFree(q)
    ensures DecodeBlock(dc, ac, BlockBits(ctx, q, pred) + rest, pred) != Some((q, rest))
  {
    var bad :| 1 <= bad < 64 && CollidesAt(q, bad);
    var r := Decoded(ctx, ac, q, 1, rest);
    AcBroken(ctx, dc, ac, q, 1, bad, rest);
    ExpectedAll(q);
    DiffRecovered(q, pred);
    SuffixDiffers([q[0]], r, q[1..]);
    DecodeBlockSteps(ctx, dc, ac, true, q, pred, rest);
  }

  /**
   Block round trip: decoding what `huffman_encode` appends reads exactly those bits and gives back the block,
   if and only if the tables are sound or no coefficient is written with the colliding entry.
   */
  lemma BlockRoundTrip(ctx: HuffmanCtx, dc: SymbolDecoder, ac: SymbolDecoder, collides: bool,
                       q: Block, pred: int, rest: seq<bool>)
    requires Faithful(ctx, dc, ac, collides) && Encodable(q, pred) && AcSizesAtMost(q, 10)
    requires -0x8000 <= q[0] - pred < 0x8000
    ensures DecodeBlock(dc, ac, BlockBits(ctx, q, pred) + rest, pred) == Some((q, rest)) <==>
            (collides ==> CollisionFree(q))
  {
    if collides && !CollisionFree(q) {
      BlockBreaks(ctx, dc, ac, q, pred, rest);
    } else {
      BlockDecodes(ctx, dc, ac, collides, q, pred, rest);
    }
  }

  // ---------- the tables of a whole image ----------

  /** The encoder's tables: luminance for Y, chrominance for Cb and Cr. */
  datatype Tables = Tables(luma: HuffmanCtx, chroma: HuffmanCtx) {
    function Ctx(c: Component): HuffmanCtx {
      if c.Luma? then luma else chroma
    }
  }

  /** The decoder's tables, as the DHT segment of the image header gives them. */
  datatype Decoders = Decoders(lumaDc: SymbolDecoder, lumaAc: SymbolDecoder, chromaDc: SymbolDecoder, chromaAc: SymbolDecoder) {
    function Dc(c: Component): SymbolDecoder {
      if c.Luma? then lumaDc else chromaDc
    }

    function Ac(c: Component): SymbolDecoder {
      if c.Luma? then lumaAc else chromaAc
    }
  }

  /** The decoder reads every code as the encoder means it, but for the chrominance collision. */
  ghost predicate Matches(tables: Tables, decoders: Decoders) {
    forall c :: Faithful(tables.Ctx(c), decoders.Dc(c), decoders.Ac(c), c == Chroma)
  }

  /** The tables of jpegenc.c. */
  function StandardTables(): Tables {
    Tables(StandardCtx(Luma), StandardCtx(Chroma))
  }

  /** Decoding with tables K.3 to K.6 of T.81. */
  function StandardDecoders(): Decoders {
    Decoders(DcSpec(Luma).Decoder(), AcSpec(Luma).Decoder(), DcSpec(Chroma).Decoder(), AcSpec(Chroma).Decoder())
  }

  lemma StandardTablesFull(c: Component)
    ensures FullTables(StandardCtx(c))
  {}

  lemma StandardFaithful(c: Component)
    ensures Faithful(StandardCtx(c), StandardDecoders().Dc(c), StandardDecoders().Ac(c), c == Chroma)
  {
    StandardTablesFull(c);
    forall size: nat | size <= 11
      ensures Codes(StandardDecoders().Dc(c), StandardCtx(c).DcCode(size), size)
    {
      DcCodeCodes(c, size);
    }
    forall run: nat, size: nat | HasAcCode(run, size)
      ensures Codes(StandardDecoders().Ac(c), StandardCtx(c).AcCode(run, size),
                    if c == Chroma && run == 6 && size == 9 then 16 * 7 + 3 else 16 * run + size)
    {
      AcCodeCodes(c, run, size);
    }
  }

  /** Six zeros, then the value 256, of size 9. */
  function CollidingBlock(): Block {
    Zeros(7) + [256] + Zeros(56)
  }

  lemma SizeOf256()
    ensures Size(256) == 9
  {
    assert Size(1) == 1 && Size(4) == 3;
    assert Size(16) == 5 && Size(64) == 7;
  }

  /** The colliding entry is reachable for some block, though for no block of 8-bit samples: here the decoder is misled. */
  lemma CollisionHappens(rest: seq<bool>)
    ensures var q := CollidingBlock();
            && FullTables(StandardCtx(Chroma)) && Encodable(q, 0) && AcSizesAtMost(q, 10) && !CollisionFree(q)
            && DecodeBlock(StandardDecoders().Dc(Chroma), StandardDecoders().Ac(Chroma),
                           BlockBits(StandardCtx(Chroma), q, 0) + rest, 0) != Some((q, rest))
  {
    hide StandardCtx, StandardDecoders, Faithful, DecodeBlock, BlockBits;
    var q := CollidingBlock();
    CollidingBlockCollides(q);
    StandardTablesFull(Chroma);
    StandardFaithful(Chroma);
    BlockBreaks(StandardCtx(Chroma), StandardDecoders().Dc(Chroma), StandardDecoders().Ac(Chroma), q, 0, rest);
  }

  lemma CollidingBlockCollides(q: Block)
    requires q == CollidingBlock()
    ensures Encodable(q, 0) && AcSizesAtMost(q, 10) && !CollisionFree(q)
  {
    SizeOf256();
    SixZeros(q, 7);
    assert CollidesAt(q, 7);
  }

  lemma {:induction false} SixZeros(q: Block, i: nat)
    requires 1 <= i <= 7 && forall k :: 0 <= k < 7 ==> q[k] == 0
    ensures ZeroRun(q, i) == i - 1
    decreases i
  {
    if i > 1 {
      SixZeros(q, i - 1);
    }
  }

  /** A T.81 decoder reads the tables of jpegenc.c as the encoder means them, but for chrominance run 6 / size 9. */
  lemma StandardTablesMatch()
    ensures Matches(StandardTables(), StandardDecoders())
  {
    StandardFaithful(Luma);
    StandardFaithful(Chroma);
  }
}
