/**
 `huffman_encode` and `encode_line_yuv` of jpegenc.c as they run: global sample arrays, DC predictors and the bit buffer,
 updated in place, proved to emit exactly the bytes the specification of a line gives.
 */
module JpegEncoder {
  import opened Bits
  import opened HuffmanTables
  import opened BlockCoding
  import opened LineCoding
  import opened Dct
  import opened Quantizer
  import opened Strip
  import opened Mram
  import opened OutputStore
  import opened BitWriter

  lemma {:induction false} SizeAbove(x: nat, m: nat)
    requires Pow2(m) <= x
    ensures m < Size(x)
  {
    if Size(x) <= m {
      Pow2Mono(Size(x), m);
    }
  }

  lemma SizeUnique(x: nat, m: nat)
    requires x < Pow2(m) && m <= Size(x)
    ensures m == Size(x)
  {
    SizeAtMost(x, m);
  }

  lemma ShiftedOut(x: nat, m: nat)
    ensures x / Pow2(m) == 0 <==> x < Pow2(m)
  {
    if x < Pow2(m) {
      DivModUnique(x, Pow2(m), 0, x);
    } else {
      DivAtLeast(x, Pow2(m), 1);
    }
  }

  /** `huffman_magnitude`: counts up until nothing is left of the value. */
  method HuffmanMagnitude(value: int) returns (m: nat)
    ensures m == Magnitude(value)
  {
    var x: nat := if value < 0 then -value else value;
    m := 0;
    ShiftedOut(x, m);
    while x / Pow2(m) != 0
      invariant m <= BlockCoding.Size(x) && (x / Pow2(m) == 0 <==> x < Pow2(m))
      decreases BlockCoding.Size(x) - m
    {
      SizeAbove(x, m);
      m := m + 1;
      ShiftedOut(x, m);
    }
    SizeUnique(x, m);
  }

  class Encoder {
    const tables: Tables
    const bitbuf: BitBuffer
    // The `dc` fields of the three `huffman_ctx` entries.
    var dc: Predictors
    const y0: array<int>
    const y1: array<int>
    const cb: array<int>
    const cr: array<int>

    ghost predicate Separate() {
      && y0 != y1 && y0 != cb && y0 != cr && y1 != cb && y1 != cr && cb != cr
      && y0.Length == y1.Length == cb.Length == cr.Length == 64
    }

    ghost predicate Valid()
      reads this, bitbuf, bitbuf.out, bitbuf.out.jpgbuff, bitbuf.out.flash.cells
    {
      TablesOk(tables) && Separate() && bitbuf.Valid()
    }

    constructor (tables: Tables, bitbuf: BitBuffer)
      requires TablesOk(tables) && bitbuf.Valid()
      ensures Valid() && this.tables == tables && this.bitbuf == bitbuf && dc == RESET
      ensures fresh(y0) && fresh(y1) && fresh(cb) && fresh(cr)
    {
      this.tables, this.bitbuf, dc := tables, bitbuf, RESET;
      y0, y1, cb, cr := new int[64], new int[64], new int[64], new int[64];
    }

    /** `huffman_resetdc`. */
    method ResetDc()
      modifies this`dc
      ensures dc == RESET
    {
      dc := RESET;
    }

    method WriteDcCode(ctx: HuffmanCtx, size: nat)
      requires bitbuf.Valid() && ctx.HasDc(size) && ctx.hdclen[size] <= 16
      modifies bitbuf, bitbuf.out, bitbuf.out.jpgbuff, bitbuf.out.flash.cells
      ensures bitbuf.Valid() && bitbuf.base == old(bitbuf.base)
      ensures bitbuf.bits == old(bitbuf.bits) + ctx.DcCode(size)
    {
      bitbuf.WriteBits(ctx.hdcbit[size], ctx.hdclen[size]);
    }

    method WriteAcCode(ctx: HuffmanCtx, run: nat, size: nat)
      requires bitbuf.Valid() && ctx.HasAc(run, size) && ctx.haclen[run][size] <= 16
      modifies bitbuf, bitbuf.out, bitbuf.out.jpgbuff, bitbuf.out.flash.cells
      ensures bitbuf.Valid() && bitbuf.base == old(bitbuf.base)
      ensures bitbuf.bits == old(bitbuf.bits) + ctx.AcCode(run, size)
    {
      bitbuf.WriteBits(ctx.hacbit[run][size], ctx.haclen[run][size]);
    }

    method WriteVli(value: int, magn: nat)
      requires bitbuf.Valid() && magn == Magnitude(value) <= 16
      modifies bitbuf, bitbuf.out, bitbuf.out.jpgbuff, bitbuf.out.flash.cells
      ensures bitbuf.Valid() && bitbuf.base == old(bitbuf.base)
      ensures bitbuf.bits == old(bitbuf.bits) + VliBits(value)
    {
      bitbuf.WriteBits(Amplitude(value), magn);
    }

    /** The ZRL loop of `huffman_encode`. */
    method WriteZrls(ctx: HuffmanCtx, run: nat) returns (zerorun: nat)
      requires bitbuf.Valid() && ctx.HasAc(15, 0) && ctx.haclen[15][0] <= 16
      modifies bitbuf, bitbuf.out, bitbuf.out.jpgbuff, bitbuf.out.flash.cells
      ensures bitbuf.Valid() && bitbuf.base == old(bitbuf.base)
      ensures bitbuf.bits == old(bitbuf.bits) + Zrl(ctx, run / 16) && zerorun == run % 16
    {
      ghost var target := bitbuf.bits + Zrl(ctx, run / 16);
      zerorun := run;
      while zerorun >= 16
        invariant bitbuf.Valid() && bitbuf.base == old(bitbuf.base)
        invariant zerorun % 16 == run % 16
        invariant bitbuf.bits + Zrl(ctx, zerorun / 16) == target
      {
        ghost var bits := bitbuf.bits;
        zerorun := zerorun - 16;
        ZrlStepDown(ctx, bits, zerorun);
        WriteAcCode(ctx, 15, 0);
      }
      assert bitbuf.bits + [] == bitbuf.bits;
    }

    /** What the coefficient loop does with a non-zero coefficient. */
    method EncodeCoefficient(ctx: HuffmanCtx, ac: int, run: nat)
      requires bitbuf.Valid() && ShortCodes(ctx) && FullTables(ctx) && Magnitude(ac) <= 11
      modifies bitbuf, bitbuf.out, bitbuf.out.jpgbuff, bitbuf.out.flash.cells
      ensures bitbuf.Valid() && bitbuf.base == old(bitbuf.base)
      ensures bitbuf.bits == old(bitbuf.bits) + CoefBits(ctx, ac, run)
    {
      ghost var before := bitbuf.bits;
      assert ctx.HasAc(15, 0) && ctx.haclen[15][0] <= 16;
      var zerorun := WriteZrls(ctx, run);
      var magn := HuffmanMagnitude(ac);
      assert ctx.HasAc(zerorun, magn) && ctx.haclen[zerorun][magn] <= 16;
      WriteAcCode(ctx, zerorun, magn);
      WriteVli(ac, magn);
      Regroup(before, Zrl(ctx, run / 16), ctx.AcCode(zerorun, magn), VliBits(ac));
    }

    /** `huffman_encode`: quantises and codes a block of DCT coefficients, and remembers its DC value. */
    method HuffmanEncode(c: Component, i: nat, data: array<int>, ghost q: Block)
      requires Valid() && i < 3 && data.Length == 64
      requires q == Quantized(tables.Ctx(c), c, data[..]) && Encodable(q, dc[i])
      modifies this`dc, bitbuf, bitbuf.out, bitbuf.out.jpgbuff, bitbuf.out.flash.cells
      ensures Valid() && bitbuf.base == old(bitbuf.base) && dc == old(dc)[i := q[0]] && FullTables(tables.Ctx(c))
      ensures bitbuf.bits == old(bitbuf.bits) + BlockBits(tables.Ctx(c), q, old(dc[i]))
    {
      hide TablesOk, ShortCodes, FullTables, QTableOk, Quantized, VliBits, AcBits, Zig, AcSizesAtMost, Magnitude;
      var ctx := tables.Ctx(c);
      CtxOk(tables, c);
      ghost var pred, before := dc[i], bitbuf.bits;
      var value := QuantizeDc(ctx, c, data, q);
      var diff := Int16(value - dc[i]);
      dc := dc[i := value];
      assert diff == DcDiff(q, pred);
      var magn := HuffmanMagnitude(diff);
      DcIsShort(ctx, magn);
      WriteDcCode(ctx, magn);
      WriteVli(diff, magn);
      EncodeAc(ctx, c, data, q);
      Regroup(before, ctx.DcCode(magn), VliBits(diff), AcBits(ctx, q, 1));
      assert before + ctx.DcCode(magn) + VliBits(diff) + AcBits(ctx, q, 1) == before + BlockBits(ctx, q, pred);
    }

    method QuantizeDc(ctx: HuffmanCtx, c: Component, data: array<int>, ghost q: Block) returns (value: int)
      requires QTableOk(ctx, c) && data.Length == 64 && q == Quantized(ctx, c, data[..])
      ensures value == q[0]
    {
      ZigStartsAtDc();
      value := Quantize(data[0], ctx.Q(0));
    }

    method QuantizeAc(ctx: HuffmanCtx, c: Component, data: array<int>, i: nat, ghost q: Block) returns (value: int)
      requires QTableOk(ctx, c) && data.Length == 64 && q == Quantized(ctx, c, data[..]) && i < 64
      ensures value == q[i]
    {
      ZigZagIsPermutation(i);
      value := Quantize(data[Zig(i)], ctx.Q(Zig(i)));
    }

    /** The coefficient loop of `huffman_encode` and the EOB after it. */
    method EncodeAc(ctx: HuffmanCtx, c: Component, data: array<int>, ghost q: Block)
      requires bitbuf.Valid() && ShortCodes(ctx) && FullTables(ctx) && QTableOk(ctx, c)
      requires data.Length == 64 && q == Quantized(ctx, c, data[..]) && AcSizesAtMost(q, 11)
      modifies bitbuf, bitbuf.out, bitbuf.out.jpgbuff, bitbuf.out.flash.cells
      ensures bitbuf.Valid() && bitbuf.base == old(bitbuf.base)
      ensures bitbuf.bits == old(bitbuf.bits) + AcBits(ctx, q, 1)
    {
      hide ShortCodes, FullTables, QTableOk, Quantized, CoefBits, AcBits, ZeroRun, AcSizesAtMost;
      ghost var target, samples := bitbuf.bits + AcBits(ctx, q, 1), data[..];
      var zerorun, i: nat := 0, 1;
      while i < 64
        invariant 1 <= i <= 64 && zerorun == ZeroRun(q, i) && data[..] == samples
        invariant bitbuf.Valid() && bitbuf.base == old(bitbuf.base)
        invariant bitbuf.bits + AcBits(ctx, q, i) == target
      {
        var ac := QuantizeAc(ctx, c, data, i, q);
        AcSizeAt(q, i);
        AcBitsAt(ctx, q, i, bitbuf.bits);
        if ac != 0 {
          EncodeCoefficient(ctx, ac, zerorun);
          zerorun := 0;
        } else {
          zerorun := zerorun + 1;
        }
        i := i + 1;
      }
      AcBitsAt(ctx, q, 64, bitbuf.bits);
      if zerorun != 0 {
        EobIsShort(ctx);
        WriteAcCode(ctx, 0, 0);
      }
    }

    // ---------- encode_line_yuv ----------

    /** The body of the inner loop: the four bytes of one pair of pixels. */
    method LoadPair(s: Strip, b: nat, r: nat, c: nat)
      requires Separate() && b < 40 && r < 8 && c < 8
      modifies y0, y1, cb, cr
      ensures y0[..] == if c < 4 then LumaStored(old(y0[..]), s, b, 0, r, 2 * c) else old(y0[..])
      ensures y1[..] == if c < 4 then old(y1[..]) else LumaStored(old(y1[..]), s, b, 1, r, 2 * c - 8)
      ensures cb[..] == Stored(old(cb[..]), s, b, 2, r, c) && cr[..] == Stored(old(cr[..]), s, b, 3, r, c)
    {
      hide Source, Sample;
      var n := 2 * (640 * r + 16 * b + 2 * c);
      var column := 2 * c % 8;
      PairSources(b, r, c);
      if c < 4 {
        y0[8 * r + column] := Sample(s[n]);
        y0[8 * r + column + 1] := Sample(s[n + 2]);
      } else {
        y1[8 * r + column] := Sample(s[n]);
        y1[8 * r + column + 1] := Sample(s[n + 2]);
      }
      cb[8 * r + c] := Sample(s[n + 1]);
      cr[8 * r + c] := Sample(s[n + 3]);
    }

    /** One row of the de-interleaving loops: eight pairs of pixels. */
    method LoadRow(s: Strip, b: nat, r: nat)
      requires Separate() && b < 40 && r < 8
      modifies y0, y1, cb, cr
      ensures RowLoaded(y0[..], s, b, 0, r, 8) && RowLoaded(y1[..], s, b, 1, r, 8)
      ensures RowLoaded(cb[..], s, b, 2, r, 8) && RowLoaded(cr[..], s, b, 3, r, 8)
      ensures SameRowsBut(old(y0[..]), y0[..], r) && SameRowsBut(old(y1[..]), y1[..], r)
      ensures SameRowsBut(old(cb[..]), cb[..], r) && SameRowsBut(old(cr[..]), cr[..], r)
    {
      ghost var o0, o1, o2, o3 := y0[..], y1[..], cb[..], cr[..];
      var c: nat := 0;
      while c < 8
        invariant c <= 8
        invariant RowFrom(o0, y0[..], s, b, 0, r, if c < 4 then 2 * c else 8)
        invariant RowFrom(o1, y1[..], s, b, 1, r, if c < 4 then 0 else 2 * c - 8)
        invariant RowFrom(o2, cb[..], s, b, 2, r, c) && RowFrom(o3, cr[..], s, b, 3, r, c)
      {
        hide RowFrom, LumaStored, Stored;
        if c < 4 {
          LumaStep(o0, y0[..], s, b, 0, r, 2 * c);
        } else {
          LumaStep(o1, y1[..], s, b, 1, r, 2 * c - 8);
        }
        RowStep(o2, cb[..], s, b, 2, r, c);
        RowStep(o3, cr[..], s, b, 3, r, c);
        LoadPair(s, b, r, c);
        c := c + 1;
      }
    }

    /** The de-interleaving loops for one MCU. */
    method LoadMcu(s: Strip, b: nat)
      requires Separate() && b < 40
      modifies y0, y1, cb, cr
      ensures y0[..] == RawBlock(s, b, 0) && y1[..] == RawBlock(s, b, 1)
      ensures cb[..] == RawBlock(s, b, 2) && cr[..] == RawBlock(s, b, 3)
    {
      var r := 0;
      while r < 8
        invariant 0 <= r <= 8
        invariant forall k :: 0 <= k < r ==> RowLoaded(y0[..], s, b, 0, k, 8) && RowLoaded(y1[..], s, b, 1, k, 8)
        invariant forall k :: 0 <= k < r ==> RowLoaded(cb[..], s, b, 2, k, 8) && RowLoaded(cr[..], s, b, 3, k, 8)
      {
        ghost var a0, a1, a2, a3 := y0[..], y1[..], cb[..], cr[..];
        LoadRow(s, b, r);
        RowsStayLoaded(a0, y0[..], s, b, 0, r);
        RowsStayLoaded(a1, y1[..], s, b, 1, r);
        RowsStayLoaded(a2, cb[..], s, b, 2, r);
        RowsStayLoaded(a3, cr[..], s, b, 3, r);
        r := r + 1;
      }
      AllRowsLoaded(y0[..], s, b, 0);
      AllRowsLoaded(y1[..], s, b, 1);
      AllRowsLoaded(cb[..], s, b, 2);
      AllRowsLoaded(cr[..], s, b, 3);
    }

    /** `embed_vt_watermark`: draws the letters into the two luminance blocks, `n` being row `n / 8`, column `n % 8`. */
    method EmbedWatermark()
      requires Separate()
      modifies y0, y1
      ensures y0[..] == Marked(old(y0[..]), WATERMARK_V) && y1[..] == Marked(old(y1[..]), WATERMARK_T)
      ensures forall n :: 0 <= n < 64 ==>
                var r, c := n / 8, n % 8;
                y0[n] == if c == r / 2 || c == r / 2 + 1 || (r < 6 && (c + r / 2 == 6 || c + r / 2 == 7)) then 60 else old(y0[n])
      ensures forall n :: 0 <= n < 64 ==>
                var r, c := n / 8, n % 8;
                y1[n] == if r < 2 || c == 3 - r / 2 || c == 4 - r / 2 then 60 else old(y1[n])
    {
      MarksInBlock();
      Mark(y0, WATERMARK_V);
      Mark(y1, WATERMARK_T);
      hide Marked, WATERMARK_V, WATERMARK_T;
      DrawsV(old(y0[..]), y0[..]);
      DrawsT(old(y1[..]), y1[..]);
      assert forall n :: 0 <= n < 64 ==> y0[n] == y0[..][n] && y1[n] == y1[..][n];
    }

    /** The block coded at place `t` is the one these samples become. */
    ghost predicate IsBlock(qs: seq<Block>, t: nat, samples: seq<int>)
      requires TablesOk(tables)
    {
      |samples| == 64 && t < |qs| && qs[t] == Quantized(tables.Ctx(ComponentOf(t)), ComponentOf(t), Transform(samples))
    }

    /** How far the line is: `t` blocks coded, the rest of its bits still to come, up to `all`. */
    ghost predicate Progress(qs: seq<Block>, t: nat, all: seq<bool>)
      reads this, bitbuf
    {
      && TablesFull(tables) && LineEncodable(qs, t, dc)
      && bitbuf.bits + LineBits(tables, qs, t, dc) == all
    }

    /** `dct` in place. */
    method TransformBlock(data: array<int>, ghost freq: Samples)
      requires bitbuf.Valid() && data.Length == 64 && freq == Transform(data[..])
      modifies data
      ensures data[..] == freq && bitbuf.Valid() && bitbuf.base == old(bitbuf.base) && bitbuf.bits == old(bitbuf.bits)
    {
      Dct.Dct(data, data);
    }

    /** `dct` in place and `huffman_encode` for a block of the line. */
    method EncodeBlock(t: nat, data: array<int>, ghost freq: Samples, ghost q: Block)
      requires Valid() && data.Length == 64 && Encodable(q, dc[PredictorOf(t)])
      requires freq == Transform(data[..])
      requires q == Quantized(tables.Ctx(ComponentOf(t)), ComponentOf(t), freq)
      modifies this`dc, data, bitbuf, bitbuf.out, bitbuf.out.jpgbuff, bitbuf.out.flash.cells
      ensures Valid() && bitbuf.base == old(bitbuf.base) && FullTables(tables.Ctx(ComponentOf(t)))
      ensures dc == old(dc)[PredictorOf(t) := q[0]]
      ensures bitbuf.bits == old(bitbuf.bits) + BlockBits(tables.Ctx(ComponentOf(t)), q, old(dc[PredictorOf(t)]))
    {
      hide TablesOk, Quantized, Transform, BlockBits, Encodable;
      var c, i := ComponentOf(t), PredictorOf(t);
      TransformBlock(data, freq);
      HuffmanEncode(c, i, data, q);
    }

    /** Block `t` of the line, whose samples are in `data`, takes the line one step further. */
    method EncodeNext(t: nat, data: array<int>, ghost qs: seq<Block>, ghost all: seq<bool>)
      requires Valid() && Progress(qs, t, all) && data.Length == 64 && IsBlock(qs, t, data[..])
      modifies this`dc, data, bitbuf, bitbuf.out, bitbuf.out.jpgbuff, bitbuf.out.flash.cells
      ensures Valid() && bitbuf.base == old(bitbuf.base) && Progress(qs, t + 1, all)
    {
      hide TablesOk, Quantized, Transform, BlockBits, Encodable, FullTables, LineBits;
      LineBitsFront(tables, qs, t, dc, bitbuf.bits);
      EncodeBlock(t, data, Transform(data[..]), qs[t]);
    }

    /** The four blocks of an MCU, as Y, Y, Cb, Cr. */
    method EncodeFour(t: nat, ghost qs: seq<Block>, ghost all: seq<bool>)
      requires Valid() && Progress(qs, t, all)
      requires IsBlock(qs, t, y0[..]) && IsBlock(qs, t + 1, y1[..]) && IsBlock(qs, t + 2, cb[..]) && IsBlock(qs, t + 3, cr[..])
      modifies this`dc, y0, y1, cb, cr, bitbuf, bitbuf.out, bitbuf.out.jpgbuff, bitbuf.out.flash.cells
      ensures Valid() && bitbuf.base == old(bitbuf.base) && Progress(qs, t + 4, all)
    {
      hide TablesOk, IsBlock, Progress;
      EncodeNext(t, y0, qs, all);
      EncodeNext(t + 1, y1, qs, all);
      EncodeNext(t + 2, cb, qs, all);
      EncodeNext(t + 3, cr, qs, all);
    }

    /** Loading, and on the first MCU of the last line marking, gives the samples of the line. */
    method LoadSamples(s: Strip, line: nat, b: nat)
      requires Separate() && b < 40
      modifies y0, y1, cb, cr
      ensures y0[..] == LineSamples(s, line, 4 * b) && y1[..] == LineSamples(s, line, 4 * b + 1)
      ensures cb[..] == LineSamples(s, line, 4 * b + 2) && cr[..] == LineSamples(s, line, 4 * b + 3)
    {
      McuPlaces(b);
      LoadMcu(s, b);
      if line == WATERMARK_LINE && b == 0 {
        EmbedWatermark();
      }
    }

    /** One pass of the outer loop of `encode_line_yuv`: MCU `b`. */
    method EncodeMcu(s: Strip, line: nat, b: nat, ghost qs: seq<Block>, ghost all: seq<bool>)
      requires Valid() && b < 40 && Progress(qs, 4 * b, all) && qs == LineBlocks(tables, s, line)
      modifies this`dc, y0, y1, cb, cr, bitbuf, bitbuf.out, bitbuf.out.jpgbuff, bitbuf.out.flash.cells
      ensures Valid() && bitbuf.base == old(bitbuf.base) && Progress(qs, 4 * b + 4, all)
    {
      hide TablesOk, Progress, Quantized, Transform, LineSamples, LineBlocks;
      LoadSamples(s, line, b);
      LineBlockAt(tables, s, line, qs, 4 * b);
      LineBlockAt(tables, s, line, qs, 4 * b + 1);
      LineBlockAt(tables, s, line, qs, 4 * b + 2);
      LineBlockAt(tables, s, line, qs, 4 * b + 3);
      EncodeFour(4 * b, qs, all);
    }

    /**
     `encode_line_yuv`: from a line start, with nothing pending and all predictors at zero, puts exactly the bytes of the
     encoded line into the output, and is at a line start again.
     */
    method EncodeLineYuv(s: Strip, line: nat)
      requires Valid() && bitbuf.bits == [] && dc == RESET
      modifies this`dc, y0, y1, cb, cr, bitbuf, bitbuf.out, bitbuf.out.jpgbuff, bitbuf.out.flash.cells
      ensures Valid() && bitbuf.bits == [] && dc == RESET
      ensures bitbuf.base == PutLine(old(bitbuf.base), EncodedLine(tables, s, line), bitbuf.out.Size())
    {
      hide TablesOk, LineBits, LineEncodable, LineBlocks, FullTables, EncodedLine, SegmentBytes, PutLine;
      ghost var qs, all := LineStart(tables, s, line);
      assert bitbuf.bits + all == all;
      EncodeMcus(s, line, qs, all);
      bitbuf.WriteRsi(line % 8);
      ResetDc();
    }

    /** The outer loop of `encode_line_yuv`. */
    method EncodeMcus(s: Strip, line: nat, ghost qs: seq<Block>, ghost all: seq<bool>)
      requires Valid() && Progress(qs, 0, all) && qs == LineBlocks(tables, s, line)
      modifies this`dc, y0, y1, cb, cr, bitbuf, bitbuf.out, bitbuf.out.jpgbuff, bitbuf.out.flash.cells
      ensures Valid() && bitbuf.base == old(bitbuf.base) && bitbuf.bits == all
    {
      hide TablesOk, LineBits, LineEncodable, LineBlocks, FullTables;
      var b: nat := 0;
      while b < 40
        invariant b <= 40 && Valid() && bitbuf.base == old(bitbuf.base)
        invariant Progress(qs, 4 * b, all)
      {
        EncodeMcu(s, line, b, qs, all);
        b := b + 1;
      }
      NothingLeft(tables, qs, 4 * b, dc, bitbuf.bits);
    }

    /** `jpeg_close`: ends the image with the EOI marker. */
    method JpegClose()
      requires Valid() && bitbuf.bits == []
      modifies bitbuf, bitbuf.out, bitbuf.out.jpgbuff, bitbuf.out.flash.cells
      ensures Valid() && bitbuf.bits == []
      ensures bitbuf.base == PutLine(old(bitbuf.base), EOI, bitbuf.out.Size())
    {
      NothingPending();
      bitbuf.Stop();
    }
  }

  lemma LineBlockAt(tables: Tables, s: Strip, line: nat, qs: seq<Block>, t: nat)
    requires TablesOk(tables) && qs == LineBlocks(tables, s, line) && t < BLOCKS_PER_LINE
    ensures qs[t] == Quantized(tables.Ctx(ComponentOf(t)), ComponentOf(t), Transform(LineSamples(s, line, t)))
  {
    hide TablesOk, Quantized, Transform, LineSamples;
    assert qs[t] == LineBlock(tables, s, line, t);
  }

  /** The blocks of a line and all the bits they are coded with. */
  lemma LineStart(tables: Tables, s: Strip, line: nat) returns (qs: seq<Block>, all: seq<bool>)
    requires TablesOk(tables)
    ensures TablesFull(tables) && qs == LineBlocks(tables, s, line)
    ensures LineEncodable(qs, 0, RESET) && all == LineBits(tables, qs, 0, RESET)
    ensures EncodedLine(tables, s, line) == SegmentBytes(all, line % 8)
  {
    TablesOkIsFull(tables);
    LineBlocksSound(tables, s, line);
    qs := LineBlocks(tables, s, line);
    all := LineBits(tables, qs, 0, RESET);
  }

  method Mark(a: array<int>, marks: seq<nat>)
    requires a.Length == 64 && forall k :: 0 <= k < |marks| ==> marks[k] < 64
    modifies a
    ensures a[..] == Marked(old(a[..]), marks)
  {
    var k := 0;
    while k < |marks|
      invariant 0 <= k <= |marks|
      invariant forall t :: 0 <= t < 64 ==> a[t] == if t in marks[..k] then WATERMARK_LUMINANCE else old(a[t])
    {
      assert marks[..k + 1] == marks[..k] + [marks[k]];
      a[marks[k]] := WATERMARK_LUMINANCE;
      k := k + 1;
    }
    assert marks[..|marks|] == marks;
  }

  /** The first `n` samples of row `r` are those of the strip. */
  predicate RowLoaded(a: seq<int>, s: Strip, b: nat, comp: nat, r: nat, n: nat)
    requires |a| == 64 && b < 40 && comp < 4 && r < 8 && n <= 8
  {
    forall x :: 0 <= x < n ==> a[8 * r + x] == Sample(s[Source(Place(b, comp, r, x))])
  }

  predicate SameRowsBut(before: seq<int>, after: seq<int>, r: nat) {
    |before| == |after| == 64 && forall t :: 0 <= t < 64 && t / 8 != r ==> after[t] == before[t]
  }

  /** `a` with the sample of row `r`, column `col` stored. */
  function Stored(a: seq<int>, s: Strip, b: nat, comp: nat, r: nat, col: nat): seq<int>
    requires |a| == 64 && b < 40 && comp < 4 && r < 8 && col < 8
  {
    a[8 * r + col := Sample(s[Source(Place(b, comp, r, col))])]
  }

  /** `a` with two adjacent samples stored. */
  function LumaStored(a: seq<int>, s: Strip, b: nat, comp: nat, r: nat, col: nat): seq<int>
    requires |a| == 64 && b < 40 && comp < 4 && r < 8 && col < 7
  {
    Stored(Stored(a, s, b, comp, r, col), s, b, comp, r, col + 1)
  }

  /** `after` is `before` but for row `r`, whose first `n` samples are loaded. */
  predicate RowFrom(before: seq<int>, after: seq<int>, s: Strip, b: nat, comp: nat, r: nat, n: nat)
    requires b < 40 && comp < 4 && r < 8 && n <= 8
  {
    SameRowsBut(before, after, r) && RowLoaded(after, s, b, comp, r, n)
  }

  lemma RowStep(before: seq<int>, a: seq<int>, s: Strip, b: nat, comp: nat, r: nat, n: nat)
    requires b < 40 && comp < 4 && r < 8 && n < 8 && RowFrom(before, a, s, b, comp, r, n)
    ensures RowFrom(before, Stored(a, s, b, comp, r, n), s, b, comp, r, n + 1)
  {
    DivModUnique(8 * r + n, 8, r, n);
  }

  lemma LumaStep(before: seq<int>, a: seq<int>, s: Strip, b: nat, comp: nat, r: nat, n: nat)
    requires b < 40 && comp < 4 && r < 8 && n < 7 && RowFrom(before, a, s, b, comp, r, n)
    ensures RowFrom(before, LumaStored(a, s, b, comp, r, n), s, b, comp, r, n + 2)
  {
    RowStep(before, a, s, b, comp, r, n);
    RowStep(before, Stored(a, s, b, comp, r, n), s, b, comp, r, n + 1);
  }

  /** Where the four bytes of a pair of pixels belong. */
  lemma PairSources(b: nat, r: nat, c: nat)
    requires b < 40 && r < 8 && c < 8
    ensures var n := 2 * (640 * r + 16 * b + 2 * c);
            var comp, column := if c < 4 then 0 else 1, if c < 4 then 2 * c else 2 * c - 8;
            && column == 2 * c % 8
            && Source(Place(b, comp, r, column)) == n && Source(Place(b, comp, r, column + 1)) == n + 2
            && Source(Place(b, 2, r, c)) == n + 1 && Source(Place(b, 3, r, c)) == n + 3
  {
  }

  lemma RowsStayLoaded(before: seq<int>, after: seq<int>, s: Strip, b: nat, comp: nat, r: nat)
    requires SameRowsBut(before, after, r) && b < 40 && comp < 4 && r < 8
    requires forall k :: 0 <= k < r ==> RowLoaded(before, s, b, comp, k, 8)
    ensures forall k :: 0 <= k < r ==> RowLoaded(after, s, b, comp, k, 8)
  {
    forall k | 0 <= k < r
      ensures RowLoaded(after, s, b, comp, k, 8)
    {
      assert RowLoaded(before, s, b, comp, k, 8);
      forall x | 0 <= x < 8
        ensures after[8 * k + x] == Sample(s[Source(Place(b, comp, k, x))])
      {
        DivModUnique(8 * k + x, 8, k, x);
      }
    }
  }

  lemma AllRowsLoaded(a: seq<int>, s: Strip, b: nat, comp: nat)
    requires |a| == 64 && b < 40 && comp < 4 && forall k :: 0 <= k < 8 ==> RowLoaded(a, s, b, comp, k, 8)
    ensures a == RawBlock(s, b, comp)
  {
    forall t | 0 <= t < 64
      ensures a[t] == RawBlock(s, b, comp)[t]
    {
      assert RowLoaded(a, s, b, comp, t / 8, 8);
      assert t == 8 * (t / 8) + t % 8;
    }
  }

  lemma DrawsV(p: Samples, q: seq<int>)
    requires q == Marked(p, WATERMARK_V)
    ensures forall n :: 0 <= n < 64 ==>
              var r, c := n / 8, n % 8;
              q[n] == if c == r / 2 || c == r / 2 + 1 || (r < 6 && (c + r / 2 == 6 || c + r / 2 == 7)) then 60 else p[n]
  {
    hide Marked, WATERMARK_V, WATERMARK_T;
    forall n | 0 <= n < 64
      ensures var r, c := n / 8, n % 8;
              q[n] == if c == r / 2 || c == r / 2 + 1 || (r < 6 && (c + r / 2 == 6 || c + r / 2 == 7)) then 60 else p[n]
    {
      Letters(p, n / 8, n % 8);
    }
  }

  lemma DrawsT(p: Samples, q: seq<int>)
    requires q == Marked(p, WATERMARK_T)
    ensures forall n :: 0 <= n < 64 ==>
              var r, c := n / 8, n % 8; q[n] == if r < 2 || c == 3 - r / 2 || c == 4 - r / 2 then 60 else p[n]
  {
    hide Marked, WATERMARK_V, WATERMARK_T;
    forall n | 0 <= n < 64
      ensures var r, c := n / 8, n % 8; q[n] == if r < 2 || c == 3 - r / 2 || c == 4 - r / 2 then 60 else p[n]
    {
      Letters(p, n / 8, n % 8);
    }
  }

  lemma MarksInBlock()
    ensures forall k :: 0 <= k < |WATERMARK_V| ==> WATERMARK_V[k] < 64
    ensures forall k :: 0 <= k < |WATERMARK_T| ==> WATERMARK_T[k] < 64
  {
  }

  lemma McuPlaces(b: nat)
    ensures 4 * b / 4 == b && (4 * b + 1) / 4 == b && (4 * b + 2) / 4 == b && (4 * b + 3) / 4 == b
    ensures 4 * b % 4 == 0 && (4 * b + 1) % 4 == 1 && (4 * b + 2) % 4 == 2 && (4 * b + 3) % 4 == 3
  {
  }

  lemma NothingPending()
    ensures Stuff(Pack(Padded([]))) + EOI == EOI
  {
    assert Padded([]) == [];
  }

  lemma NothingLeft(tables: Tables, qs: seq<Block>, t: nat, preds: Predictors, bits: seq<bool>)
    requires TablesFull(tables) && LineEncodable(qs, t, preds) && t >= |qs|
    ensures bits + LineBits(tables, qs, t, preds) == bits
  {
  }

  lemma LineBitsFront(tables: Tables, qs: seq<Block>, t: nat, preds: Predictors, bits: seq<bool>)
    requires TablesFull(tables) && LineEncodable(qs, t, preds) && t < |qs|
    ensures var preds' := preds[PredictorOf(t) := qs[t][0]];
            bits + LineBits(tables, qs, t, preds) ==
            bits + BlockBits(tables.Ctx(ComponentOf(t)), qs[t], preds[PredictorOf(t)]) + LineBits(tables, qs, t + 1, preds')
  {
    hide BlockBits, Encodable, FullTables;
    var block := BlockBits(tables.Ctx(ComponentOf(t)), qs[t], preds[PredictorOf(t)]);
    var more := LineBits(tables, qs, t + 1, preds[PredictorOf(t) := qs[t][0]]);
    assert bits + (block + more) == bits + block + more;
  }

  lemma Regroup(a: seq<bool>, b: seq<bool>, c: seq<bool>, d: seq<bool>)
    ensures a + b + c + d == a + (b + (c + d)) && a + b + c + d == a + (b + c + d)
  {
  }

  /** What is still to be written at position `i`, after `bits`. */
  lemma AcBitsAt(ctx: HuffmanCtx, q: Block, i: nat, bits: seq<bool>)
    requires FullTables(ctx) && AcSizesAtMost(q, 11) && 1 <= i <= 64
    ensures i == 64 ==> bits + AcBits(ctx, q, i) == if ZeroRun(q, i) > 0 then bits + ctx.AcCode(0, 0) else bits
    ensures i < 64 && q[i] == 0 ==> AcBits(ctx, q, i) == AcBits(ctx, q, i + 1) && ZeroRun(q, i + 1) == ZeroRun(q, i) + 1
    ensures i < 64 && q[i] != 0 ==>
              && bits + AcBits(ctx, q, i) == bits + CoefBits(ctx, q[i], ZeroRun(q, i)) + AcBits(ctx, q, i + 1)
              && ZeroRun(q, i + 1) == 0
  {
    if i < 64 && q[i] != 0 {
      var a, b := CoefBits(ctx, q[i], ZeroRun(q, i)), AcBits(ctx, q, i + 1);
      assert bits + (a + b) == bits + a + b;
    }
  }

  lemma CtxOk(tables: Tables, c: Component)
    requires TablesOk(tables)
    ensures ShortCodes(tables.Ctx(c)) && FullTables(tables.Ctx(c)) && QTableOk(tables.Ctx(c), c)
  {
    TablesOkIsFull(tables);
  }

  lemma DcIsShort(ctx: HuffmanCtx, size: nat)
    requires ShortCodes(ctx) && size <= 11
    ensures ctx.HasDc(size) && ctx.hdclen[size] <= 16
  {
  }

  lemma EobIsShort(ctx: HuffmanCtx)
    requires ShortCodes(ctx)
    ensures ctx.HasAc(0, 0) && ctx.haclen[0][0] <= 16
  {
  }

  lemma AcSizeAt(q: Block, i: nat)
    requires AcSizesAtMost(q, 11) && 1 <= i < 64
    ensures Magnitude(q[i]) <= 11
  {
  }

  lemma ZrlStepDown(ctx: HuffmanCtx, bits: seq<bool>, zerorun: nat)
    requires ctx.HasAc(15, 0)
    ensures bits + Zrl(ctx, (zerorun + 16) / 16) == bits + ctx.AcCode(15, 0) + Zrl(ctx, zerorun / 16)
  {
    assert (zerorun + 16) / 16 == zerorun / 16 + 1;
    assert bits + (ctx.AcCode(15, 0) + Zrl(ctx, zerorun / 16)) == bits + ctx.AcCode(15, 0) + Zrl(ctx, zerorun / 16);
  }
}
