/**
 A strip of 640 x 8 YUYV pixels and the 160 blocks `encode_line_yuv` makes of it: de-interleaving, watermark, DCT,
 quantisation, and what the ranges along that chain guarantee for the coding of the line.
 */
module Strip {
  import opened Bits
  import opened Wrappers
  import opened JpegTables
  import opened HuffmanTables
  import opened BlockCoding
  import opened LineCoding
  import opened Dct
  import opened Quantizer

  const STRIP_SIZE := 10240
  const BLOCKS_PER_LINE := 160

  type Strip = s: seq<byte> | |s| == STRIP_SIZE witness seq(STRIP_SIZE, _ => 0)

  // ---------- de-interleaving ----------

  /** A sample of the line: MCU `b` of 40, component 0, 1 (Y), 2 (Cb) or 3 (Cr), row and column in the 8x8 block. */
  datatype Place = Place(b: nat, comp: nat, row: nat, col: nat) {
    predicate Valid() {
      b < 40 && comp < 4 && row < 8 && col < 8
    }
  }

  /** The strip byte a sample is taken from. */
  function Source(p: Place): (n: nat)
    requires p.Valid()
    ensures n < STRIP_SIZE
  {
    if p.comp < 2 then 2 * (640 * p.row + 16 * p.b + 8 * p.comp + p.col)
    else 2 * (640 * p.row + 16 * p.b + 2 * p.col) + (if p.comp == 2 then 1 else 3)
  }

  /** The one sample a strip byte ends up in. */
  function Destination(n: nat): (p: Place)
    requires n < STRIP_SIZE
    ensures p.Valid()
  {
    var m := n % 1280;
    if m % 2 == 0 then
      Place(m / 32, m / 16 % 2, n / 1280, m / 2 % 8)
    else
      Place(m / 32, if m % 4 == 1 then 2 else 3, n / 1280, m / 4 % 8)
  }

  lemma EvenDigits(m: nat)
    requires m % 2 == 0
    ensures m == 32 * (m / 32) + 16 * (m / 16 % 2) + 2 * (m / 2 % 8)
  {
    DivDiv(m, 2, 8);
    DivDiv(m, 16, 2);
  }

  lemma OddDigits(m: nat)
    ensures m == 32 * (m / 32) + 4 * (m / 4 % 8) + m % 4
  {
    DivDiv(m, 4, 8);
  }

  lemma SourceOfDestination(n: nat)
    requires n < STRIP_SIZE
    ensures Source(Destination(n)) == n
  {
    var m := n % 1280;
    if m % 2 == 0 {
      EvenDigits(m);
    } else {
      OddDigits(m);
    }
  }

  lemma LumaDigits(m: nat, b: nat, comp: nat, col: nat)
    requires m == 32 * b + 16 * comp + 2 * col && comp < 2 && col < 8
    ensures m % 2 == 0 && m / 32 == b && m / 16 % 2 == comp && m / 2 % 8 == col
  {
    DivModUnique(m, 32, b, 16 * comp + 2 * col);
    DivModUnique(m, 16, 2 * b + comp, 2 * col);
    DivModUnique(2 * b + comp, 2, b, comp);
    DivModUnique(m, 2, 16 * b + 8 * comp + col, 0);
    DivModUnique(16 * b + 8 * comp + col, 8, 2 * b + comp, col);
  }

  lemma ChromaDigits(m: nat, b: nat, col: nat, odd: nat)
    requires m == 32 * b + 4 * col + odd && col < 8 && (odd == 1 || odd == 3)
    ensures m % 2 == 1 && m / 32 == b && m % 4 == odd && m / 4 % 8 == col
  {
    DivModUnique(m, 2, 16 * b + 2 * col + (if odd == 1 then 0 else 1), 1);
    DivModUnique(m, 32, b, 4 * col + odd);
    DivModUnique(m, 4, 8 * b + col, odd);
    DivModUnique(8 * b + col, 8, b, col);
  }

  lemma DestinationOfSource(p: Place)
    requires p.Valid()
    ensures Destination(Source(p)) == p
  {
    var m := Source(p) - 1280 * p.row;
    DivModUnique(Source(p), 1280, p.row, m);
    if p.comp < 2 {
      LumaDigits(m, p.b, p.comp, p.col);
    } else {
      ChromaDigits(m, p.b, p.col, if p.comp == 2 then 1 else 3);
    }
  }

  /** Each byte is read for exactly one sample and each sample comes from exactly one byte. */
  lemma DeinterleaveIsBijection(n: nat, p: Place)
    requires n < STRIP_SIZE && p.Valid()
    ensures Source(p) == n <==> Destination(n) == p
  {
    SourceOfDestination(n);
    DestinationOfSource(p);
  }

  /** `_line_buffer[n] - 128`. */
  function Sample(b: byte): int {
    b - 128
  }

  /** The samples of one block, as the inner loops of `encode_line_yuv` store them. */
  function RawBlock(s: Strip, b: nat, comp: nat): Samples
    requires b < 40 && comp < 4
  {
    seq(64, pos requires 0 <= pos < 64 => Sample(s[Source(Place(b, comp, pos / 8, pos % 8))]))
  }

  /** Without the watermark the strip can be rebuilt from the blocks. */
  lemma StripRecovered(s: Strip, n: nat)
    requires n < STRIP_SIZE
    ensures var p := Destination(n); RawBlock(s, p.b, p.comp)[8 * p.row + p.col] + 128 == s[n]
  {
    var p := Destination(n);
    SourceOfDestination(n);
    DivModUnique(8 * p.row + p.col, 8, p.row, p.col);
  }

  // The samples of pixel (x, y) of a strip: two pixels share a pair of chrominance bytes.
  function LumaOf(s: Strip, x: nat, y: nat): byte
    requires x < 640 && y < 8
  {
    s[1280 * y + 2 * x]
  }

  function CbOf(s: Strip, x: nat, y: nat): byte
    requires x < 640 && y < 8
  {
    s[1280 * y + 4 * (x / 2) + 1]
  }

  function CrOf(s: Strip, x: nat, y: nat): byte
    requires x < 640 && y < 8
  {
    s[1280 * y + 4 * (x / 2) + 3]
  }

  /**
   Every pixel is where a 4:2:2 image has it: its luminance in the left or right half of its 16-pixel MCU, its chrominance,
   shared with its neighbour, at half the horizontal resolution.
   */
  lemma PixelInBlocks(s: Strip, x: nat, y: nat)
    requires x < 640 && y < 8
    ensures RawBlock(s, x / 16, x / 8 % 2)[8 * y + x % 8] == LumaOf(s, x, y) - 128
    ensures RawBlock(s, x / 16, 2)[8 * y + x / 2 % 8] == CbOf(s, x, y) - 128
    ensures RawBlock(s, x / 16, 3)[8 * y + x / 2 % 8] == CrOf(s, x, y) - 128
  {
    hide RawBlock, LumaOf, CbOf, CrOf;
    PixelDigits(x);
    LumaPixel(s, x, y, x / 16, x / 8 % 2, x % 8);
    ChromaPixel(s, x, y, x / 16, x / 2 % 8);
  }

  lemma LumaPixel(s: Strip, x: nat, y: nat, b: nat, half: nat, col: nat)
    requires x < 640 && y < 8 && b < 40 && half < 2 && col < 8 && x == 16 * b + 8 * half + col
    ensures RawBlock(s, b, half)[8 * y + col] == LumaOf(s, x, y) - 128
  {
    hide RawBlock;
    RawAt(s, b, half, y, col);
    assert Source(Place(b, half, y, col)) == 1280 * y + 2 * x;
  }

  lemma ChromaPixel(s: Strip, x: nat, y: nat, b: nat, col: nat)
    requires x < 640 && y < 8 && b < 40 && col < 8 && x / 2 == 8 * b + col
    ensures RawBlock(s, b, 2)[8 * y + col] == CbOf(s, x, y) - 128 && RawBlock(s, b, 3)[8 * y + col] == CrOf(s, x, y) - 128
  {
    hide RawBlock;
    RawAt(s, b, 2, y, col);
    RawAt(s, b, 3, y, col);
    assert Source(Place(b, 2, y, col)) == 1280 * y + 4 * (x / 2) + 1;
    assert Source(Place(b, 3, y, col)) == 1280 * y + 4 * (x / 2) + 3;
  }

  lemma RawAt(s: Strip, b: nat, comp: nat, row: nat, col: nat)
    requires b < 40 && comp < 4 && row < 8 && col < 8
    ensures RawBlock(s, b, comp)[8 * row + col] == Sample(s[Source(Place(b, comp, row, col))])
  {
    DivModUnique(8 * row + col, 8, row, col);
  }

  lemma PixelDigits(x: nat)
    requires x < 640
    ensures x == 16 * (x / 16) + 8 * (x / 8 % 2) + x % 8 && x / 2 == 8 * (x / 16) + x / 2 % 8 && x / 16 < 40
  {
    DivDiv(x, 8, 2);
    DivDiv(x, 2, 8);
  }

  // ---------- watermark ----------

  const WATERMARK_LUMINANCE := 60
  const WATERMARK_LINE := 59

  // Raster positions set in the first and the second luminance block, in the order of `embed_vt_watermark`.
  const V_LEFT: seq<nat> := [0, 1, 8, 9, 17, 18, 25, 26, 34, 35, 42, 43, 51, 52, 59, 60]
  const V_RIGHT: seq<nat> := [44, 45, 36, 37, 29, 30, 21, 22, 14, 15, 6, 7]
  const T_TOP: seq<nat> := [0, 8, 1, 9, 2, 10, 3, 11, 4, 12, 5, 13, 6, 14, 7, 15]
  const T_ARM: seq<nat> := [11, 12, 18, 19, 26, 27, 33, 34, 41, 42, 48, 49, 56, 57]
  const WATERMARK_V := V_LEFT + V_RIGHT
  const WATERMARK_T := T_TOP + T_ARM

  function Marked(p: Samples, marks: seq<nat>): Samples {
    seq(64, t requires 0 <= t < 64 => if t in marks then WATERMARK_LUMINANCE else p[t])
  }

  lemma LeftOfV(r: nat, c: nat)
    requires r < 8 && c < 8
    ensures 8 * r + c in V_LEFT <==> c == r / 2 || c == r / 2 + 1
  {
  }

  lemma RightOfV(r: nat, c: nat)
    requires r < 8 && c < 8
    ensures 8 * r + c in V_RIGHT <==> r < 6 && (c + r / 2 == 6 || c + r / 2 == 7)
  {
  }

  lemma TopOfT(r: nat, c: nat)
    requires r < 8 && c < 8
    ensures 8 * r + c in T_TOP <==> r < 2
  {
  }

  lemma ArmOfT(r: nat, c: nat)
    requires 1 <= r < 8 && c < 8
    ensures 8 * r + c in T_ARM <==> c == 3 - r / 2 || c == 4 - r / 2
  {
  }

  /** The letters drawn: two strokes that meet in row 7, and a bar of two rows over a slanted arm. */
  lemma Letters(p: Samples, r: nat, c: nat)
    requires r < 8 && c < 8
    ensures Marked(p, WATERMARK_V)[8 * r + c] ==
            if c == r / 2 || c == r / 2 + 1 || (r < 6 && (c + r / 2 == 6 || c + r / 2 == 7)) then 60 else p[8 * r + c]
    ensures Marked(p, WATERMARK_T)[8 * r + c] ==
            if r < 2 || c == 3 - r / 2 || c == 4 - r / 2 then 60 else p[8 * r + c]
  {
    hide V_LEFT, V_RIGHT, T_TOP, T_ARM;
    LeftOfV(r, c);
    RightOfV(r, c);
    TopOfT(r, c);
    if r > 0 {
      ArmOfT(r, c);
    }
  }

  /** Block `t` of a line before the DCT. */
  function LineSamples(s: Strip, line: nat, t: nat): Samples
    requires t < BLOCKS_PER_LINE
  {
    var raw := RawBlock(s, t / 4, t % 4);
    if line == WATERMARK_LINE && t == 0 then Marked(raw, WATERMARK_V)
    else if line == WATERMARK_LINE && t == 1 then Marked(raw, WATERMARK_T)
    else raw
  }

  lemma LineSamplesRange(s: Strip, line: nat, t: nat)
    requires t < BLOCKS_PER_LINE
    ensures SamplesWithin(LineSamples(s, line, t), 128)
  {
  }

  // ---------- the quantised blocks of a line ----------

  /** No code is longer than the 16 bits `writebits` allows. */
  ghost predicate ShortCodes(ctx: HuffmanCtx) {
    && (forall size :: 0 <= size <= 11 ==> ctx.HasDc(size) && ctx.hdclen[size] <= 16)
    && (forall run, size :: 0 <= run <= 15 && 0 <= size <= 11 ==> ctx.HasAc(run, size) && ctx.haclen[run][size] <= 16)
  }

  /** All that is used of the tables from here on. */
  ghost predicate TablesOk(tables: Tables) {
    && ShortCodes(tables.luma) && ShortCodes(tables.chroma)
    && QTableOk(tables.luma, Luma) && QTableOk(tables.chroma, Chroma)
  }

  lemma TablesOkIsFull(tables: Tables)
    requires TablesOk(tables)
    ensures TablesFull(tables)
  {
  }

  function LineBlock(tables: Tables, s: Strip, line: nat, t: nat): Block
    requires TablesOk(tables) && t < BLOCKS_PER_LINE
  {
    var c := ComponentOf(t);
    Quantized(tables.Ctx(c), c, Transform(LineSamples(s, line, t)))
  }

  /** The 160 blocks `encode_line_yuv` codes for line number `line`. */
  function LineBlocks(tables: Tables, s: Strip, line: nat): (qs: seq<Block>)
    requires TablesOk(tables)
    ensures |qs| == BLOCKS_PER_LINE
  {
    seq(BLOCKS_PER_LINE, t requires 0 <= t < BLOCKS_PER_LINE => LineBlock(tables, s, line, t))
  }

  lemma LineBlockInRange(tables: Tables, s: Strip, line: nat, t: nat)
    requires TablesOk(tables) && t < BLOCKS_PER_LINE
    ensures InRange(LineBlock(tables, s, line, t), ComponentOf(t))
  {
    var c, p := ComponentOf(t), LineSamples(s, line, t);
    LineSamplesRange(s, line, t);
    TransformRange(p);
    QuantizedRange(tables.Ctx(c), c, Transform(p));
  }

  predicate AllInRange(qs: seq<Block>) {
    forall t :: 0 <= t < |qs| ==> InRange(qs[t], ComponentOf(t))
  }

  predicate SmallPredictors(preds: Predictors) {
    forall i :: 0 <= i < 3 ==> Abs(preds[i]) <= 128
  }

  lemma InRangeIsSound(q: Block, c: Component, pred: int)
    requires InRange(q, c) && Abs(pred) <= 128
    ensures Sound(q, c, pred)
  {
    InRangeSizes(q, c, pred);
  }

  lemma {:induction false} RangesAreSound(qs: seq<Block>, t: nat, preds: Predictors)
    requires AllInRange(qs) && SmallPredictors(preds)
    ensures LineSound(qs, t, preds)
    decreases |qs| - t
  {
    if t < |qs| {
      InRangeIsSound(qs[t], ComponentOf(t), preds[PredictorOf(t)]);
      RangesAreSound(qs, t + 1, preds[PredictorOf(t) := qs[t][0]]);
    }
  }

  /** Range chain: whatever the strip, every block of the line is one the tables code faithfully. */
  lemma LineBlocksSound(tables: Tables, s: Strip, line: nat)
    requires TablesOk(tables)
    ensures AllInRange(LineBlocks(tables, s, line)) && LineSound(LineBlocks(tables, s, line), 0, RESET)
    ensures LineEncodable(LineBlocks(tables, s, line), 0, RESET)
  {
    hide TablesOk, LineBlock, InRange, LineSound, LineEncodable;
    var qs := LineBlocks(tables, s, line);
    forall t | 0 <= t < |qs|
      ensures InRange(qs[t], ComponentOf(t))
    {
      LineBlockInRange(tables, s, line, t);
    }
    RangesAreSound(qs, 0, RESET);
    SoundIsEncodable(qs, 0, RESET);
  }

  /** What `encode_line_yuv` emits for a strip. */
  function EncodedLine(tables: Tables, s: Strip, line: nat): seq<byte>
    requires TablesOk(tables)
  {
    TablesOkIsFull(tables);
    LineBlocksSound(tables, s, line);
    LineBytes(tables, LineBlocks(tables, s, line), line % 8)
  }

  /**
   Line round trip for every strip: what follows the line does not matter, and no earlier line is needed,
   to decode the line's bytes to exactly its 160 quantised blocks.
   */
  lemma StripRoundTrip(tables: Tables, decoders: Decoders, s: Strip, line: nat, rest: seq<byte>)
    requires TablesOk(tables) && Matches(tables, decoders)
    ensures DecodeLine(decoders, EncodedLine(tables, s, line) + rest, BLOCKS_PER_LINE) == Some(LineBlocks(tables, s, line))
  {
    TablesOkIsFull(tables);
    LineBlocksSound(tables, s, line);
    LineRoundTrip(tables, decoders, LineBlocks(tables, s, line), line % 8, rest);
  }

  // ---------- the repository's tables ----------

  lemma StandardDcShort(c: Component, size: nat)
    requires size <= 11
    ensures StandardCtx(c).HasDc(size) && StandardCtx(c).hdclen[size] <= 16
  {
  }

  lemma LumaAcShort(run: nat, size: nat)
    requires run <= 15 && size <= 11
    ensures HYAC_LEN[run][size] <= 16
  {
  }

  lemma ChromaAcShort(run: nat, size: nat)
    requires run <= 15 && size <= 11
    ensures HCAC_LEN[run][size] <= 16
  {
  }

  lemma StandardAcShort(c: Component, run: nat, size: nat)
    requires run <= 15 && size <= 11
    ensures StandardCtx(c).HasAc(run, size) && StandardCtx(c).haclen[run][size] <= 16
  {
    StandardTablesFull(c);
    match c
    case Luma => LumaAcShort(run, size);
    case Chroma => ChromaAcShort(run, size);
  }

  lemma StandardShort(c: Component)
    ensures ShortCodes(StandardCtx(c))
  {
    forall size: nat | size <= 11
      ensures StandardCtx(c).HasDc(size) && StandardCtx(c).hdclen[size] <= 16
    {
      StandardDcShort(c, size);
    }
    forall run: nat, size: nat | run <= 15 && size <= 11
      ensures StandardCtx(c).HasAc(run, size) && StandardCtx(c).haclen[run][size] <= 16
    {
      StandardAcShort(c, run, size);
    }
  }

  /** The tables of jpegenc.c are all that the theorems about lines ask for. */
  lemma StandardTablesOk()
    ensures TablesOk(StandardTables())
  {
    StandardShort(Luma);
    StandardShort(Chroma);
    StandardQTableOk(Luma);
    StandardQTableOk(Chroma);
  }

  // ---------- what a decoder gets out of a block ----------

  lemma RasterDigits(k: nat, i: nat)
    requires k < 8 && i < 8
    ensures (8 * k + i) / 8 == k && (8 * k + i) % 8 == i
  {
    DivModUnique(8 * k + i, 8, k, i);
  }

  lemma ErrorsCombine(step: nat, q: int, d: int, exact: int)
    requires Abs(2048 * step * q - 2048 * d) <= 1024 * step + Abs(d) * step && Abs(d) <= 1026
    requires -5 * 0x2000_0000 < exact - 0x4000_0000 * d < 5 * 0x2000_0000
    ensures Abs(0x4000_0000 * (2048 * step * q) - 2048 * exact) < 0x4000_0000 * (2050 * step + 5120)
  {
    MulMono(Abs(d), 1026, step);
    var x := 2048 * step * q;
    assert Abs(x - 2048 * d) <= 2050 * step;
  }

  lemma BlockAccuracy(ctx: HuffmanCtx, c: Component, p: Samples, k: nat, i: nat, t: nat, step: nat, q: int)
    requires SamplesWithin(p, 128) && k < 8 && i < 8 && t == 8 * k + i
    requires QTableOk(ctx, c) && IsReciprocal(ctx.Q(t), step)
    requires Unzig(t) < 64 && q == Quantized(ctx, c, Transform(p))[Unzig(t)]
    ensures Abs(0x4000_0000 * (2048 * step * q) - 2048 * Exact(p, k, i)) < 0x4000_0000 * (2050 * step + 5120)
  {
    hide Transform, Exact, Quantized, Unzig, Quantize, IsReciprocal, Abs;
    DctError(p, k, i, t, Transform(p)[t]);
    CodedNearest(ctx, c, Transform(p), t);
    QuantisationError(Transform(p)[t], ctx.Q(t), step, q);
    ErrorsCombine(step, q, Transform(p)[t], Exact(p, k, i));
  }

  lemma DctError(p: Samples, k: nat, i: nat, t: nat, d: int)
    requires SamplesWithin(p, 128) && k < 8 && i < 8 && t == 8 * k + i && d == Transform(p)[t]
    ensures Abs(d) <= 1026 && IsInt16(d) && -5 * 0x2000_0000 < Exact(p, k, i) - 0x4000_0000 * d < 5 * 0x2000_0000
  {
    hide Transform, Exact;
    TransformRange(p);
    Accuracy(p, k, i);
  }

  lemma QuantisationError(d: int, qt: nat, step: nat, q: int)
    requires IsInt16(d) && IsReciprocal(qt, step) && q == Quantize(d, qt)
    ensures Abs(2048 * step * q - 2048 * d) <= 1024 * step + Abs(d) * step
  {
    QuantizeDivides(d, qt, step);
  }

  /**
   DCT, quantiser and tables together: for every block of 8-bit samples, the coded value times its quantisation step is
   within 5/2 + 1025/1024 * step of the exact (2^30 times scaled) DCT coefficient.
   */
  lemma DequantisedAccuracy(c: Component, p: Samples, k: nat, i: nat, t: nat)
    requires SamplesWithin(p, 128) && k < 8 && i < 8 && t == 8 * k + i
    ensures QTableOk(StandardCtx(c), c) && Unzig(t) < 64
    ensures |Steps(c)| == 8 && |Steps(c)[k]| == 8
    ensures var step, q := Steps(c)[k][i], Quantized(StandardCtx(c), c, Transform(p))[Unzig(t)];
            Abs(0x4000_0000 * (2048 * step * q) - 2048 * Exact(p, k, i)) < 0x4000_0000 * (2050 * step + 5120)
  {
    hide Transform, Exact, Quantized, StandardCtx, Steps, Unzig, QTableOk, IsReciprocal;
    StandardQTableOk(c);
    ReciprocalTable(c, t);
    RasterDigits(k, i);
    UnzigInverts(t);
    BlockAccuracy(StandardCtx(c), c, p, k, i, t, Steps(c)[k][i], Quantized(StandardCtx(c), c, Transform(p))[Unzig(t)]);
  }

  lemma CodedNearest(ctx: HuffmanCtx, c: Component, data: Samples, t: nat)
    requires QTableOk(ctx, c) && t < 64 && IsInt16(data[t])
    ensures Unzig(t) < 64 && Quantized(ctx, c, data)[Unzig(t)] == Quantize(data[t], ctx.Q(t))
  {
    CoefficientAt(ctx, c, data, t);
    QuantizeRounds(data[t], ctx.Q(t), Quantized(ctx, c, data)[Unzig(t)]);
  }

  // ---------- the length of a line ----------

  lemma {:induction false} ZrlLength(ctx: HuffmanCtx, n: nat)
    requires ShortCodes(ctx)
    ensures |Zrl(ctx, n)| <= 16 * n
  {
    if n > 0 {
      ZrlLength(ctx, n - 1);
    }
  }

  /** No coefficient position costs more than 24 bits: 16 for the code and 8 for the amplitude. */
  lemma {:induction false} AcLength(ctx: HuffmanCtx, q: Block, i: nat)
    requires ShortCodes(ctx) && FullTables(ctx) && AcSizesAtMost(q, 8) && 1 <= i <= 64
    ensures |AcBits(ctx, q, i)| <= 24 * (64 - i + ZeroRun(q, i))
    decreases 64 - i
  {
    if i < 64 {
      AcLength(ctx, q, i + 1);
      if q[i] != 0 {
        CoefLength(ctx, q[i], ZeroRun(q, i));
      }
    }
  }

  lemma CoefLength(ctx: HuffmanCtx, v: int, z: nat)
    requires ShortCodes(ctx) && FullTables(ctx) && Magnitude(v) <= 8
    ensures |CoefBits(ctx, v, z)| <= 24 * (z + 1)
  {
    ZrlLength(ctx, z / 16);
  }

  lemma BlockLength(ctx: HuffmanCtx, q: Block, pred: int)
    requires ShortCodes(ctx) && FullTables(ctx) && Encodable(q, pred)
    requires AcSizesAtMost(q, 8) && Magnitude(DcDiff(q, pred)) <= 9
    ensures |BlockBits(ctx, q, pred)| <= 25 + 24 * 63
  {
    AcLength(ctx, q, 1);
  }

  lemma {:induction false} LineBitsLength(tables: Tables, qs: seq<Block>, t: nat, preds: Predictors)
    requires TablesOk(tables) && TablesFull(tables) && AllInRange(qs) && SmallPredictors(preds)
    requires LineEncodable(qs, t, preds) && t <= |qs|
    ensures |LineBits(tables, qs, t, preds)| <= 1537 * (|qs| - t)
    decreases |qs| - t
  {
    if t < |qs| {
      var c, pred := ComponentOf(t), preds[PredictorOf(t)];
      InRangeSizes(qs[t], c, pred);
      BlockLength(tables.Ctx(c), qs[t], pred);
      LineBitsLength(tables, qs, t + 1, preds[PredictorOf(t) := qs[t][0]]);
    }
  }

  lemma {:induction false} StuffLength(data: seq<byte>)
    ensures |data| <= |Stuff(data)| <= 2 * |data|
  {
    if data != [] {
      StuffLength(data[1..]);
    }
  }

  lemma SegmentLength(bits: seq<bool>, rst: nat, n: nat)
    requires |bits| <= 8 * n
    ensures 2 <= |SegmentBytes(bits, rst)| <= 2 * n + 2
  {
    StuffLength(Pack(Padded(bits)));
  }

  lemma LineBytesLength(tables: Tables, qs: seq<Block>, rst: nat)
    requires TablesOk(tables) && TablesFull(tables) && AllInRange(qs) && |qs| == BLOCKS_PER_LINE
    requires LineEncodable(qs, 0, RESET)
    ensures 2 <= |LineBytes(tables, qs, rst)| <= 61482
  {
    LineBitsLength(tables, qs, 0, RESET);
    SegmentLength(LineBits(tables, qs, 0, RESET), rst, 30740);
  }

  /** Every encoded line is shorter than 65,536 bytes, so its length always fits the `uint16_t` result of the reader. */
  lemma LineLengthBound(tables: Tables, s: Strip, line: nat)
    requires TablesOk(tables)
    ensures 2 <= |EncodedLine(tables, s, line)| <= 61482
  {
    TablesOkIsFull(tables);
    LineBlocksSound(tables, s, line);
    LineBytesLength(tables, LineBlocks(tables, s, line), line % 8);
  }

  lemma SegmentHasData(bits: seq<bool>, rst: nat)
    requires bits != []
    ensures |SegmentBytes(bits, rst)| >= 3
  {
    StuffLength(Pack(Padded(bits)));
  }

  lemma FirstDcNotEmpty(size: nat)
    requires size <= 11
    ensures StandardCtx(Luma).HasDc(size) && |StandardCtx(Luma).DcCode(size)| >= 2
  {
  }

  lemma FirstBlockHasBits(tables: Tables, qs: seq<Block>)
    requires TablesFull(tables) && LineEncodable(qs, 0, RESET) && |qs| == BLOCKS_PER_LINE
    requires forall size: nat :: size <= 11 ==> tables.luma.HasDc(size) && |tables.luma.DcCode(size)| >= 2
    ensures LineBits(tables, qs, 0, RESET) != []
  {
    hide HuffmanCtx.DcCode, AcBits, VliBits, Magnitude;
    assert ComponentOf(0) == Luma;
    assert Encodable(qs[0], RESET[PredictorOf(0)]);
  }

  /** Every line holds at least one byte besides its marker. */
  lemma StandardLineLong(s: Strip, line: nat)
    ensures TablesOk(StandardTables()) && |EncodedLine(StandardTables(), s, line)| >= 3
  {
    StandardTablesOk();
    TablesOkIsFull(StandardTables());
    LineBlocksSound(StandardTables(), s, line);
    forall size: nat | size <= 11
      ensures StandardTables().luma.HasDc(size) && |StandardTables().luma.DcCode(size)| >= 2
    {
      FirstDcNotEmpty(size);
    }
    hide StandardTables, StandardCtx, TablesOk, FullTables, LineBlocks, LineBits, SegmentBytes, LineEncodable, HuffmanCtx.DcCode;
    FirstBlockHasBits(StandardTables(), LineBlocks(StandardTables(), s, line));
    SegmentHasData(LineBits(StandardTables(), LineBlocks(StandardTables(), s, line), 0, RESET), line % 8);
  }
}
