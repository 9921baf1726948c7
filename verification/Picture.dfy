/**
 What the line that is encoded, stored, served and decoded has to do with the picture: which pixel each coded sample is, what
 the watermark draws, and how near the decoded coefficients are to the DCT of the pixels.
 */
module Picture {
  import opened Bits
  import opened Wrappers
  import opened JpegTables
  import opened HuffmanTables
  import opened BlockCoding
  import opened LineCoding
  import opened Dct
  import opened Quantizer
  import opened Cosines
  import opened Strip
  import opened Mram
  import opened OutputStore
  import opened LineIndex
  import opened IndexCorrectness
  import opened EndToEnd

  // ---------- the samples of a line are the pixels of its strip ----------

  /** Pixel (x, y) of a strip is one of the letters drawn into its bottom left corner. */
  predicate InLetters(x: nat, y: nat) {
    if x < 8 then x == y / 2 || x == y / 2 + 1 || (y < 6 && (x + y / 2 == 6 || x + y / 2 == 7))
    else x < 16 && (y < 2 || x - 8 == 3 - y / 2 || x - 8 == 4 - y / 2)
  }

  lemma McuDigits(b: nat, comp: nat)
    requires comp < 4
    ensures (4 * b + comp) / 4 == b && (4 * b + comp) % 4 == comp
  {
  }

  /** Only the first two blocks of line 59 are marked. */
  lemma UnmarkedSamples(s: Strip, line: nat, b: nat, comp: nat)
    requires b < 40 && comp < 4 && (line == 59 ==> b > 0 || comp >= 2)
    ensures LineSamples(s, line, 4 * b + comp) == RawBlock(s, b, comp)
  {
    hide RawBlock, Marked, WATERMARK_V, WATERMARK_T;
    McuDigits(b, comp);
  }

  lemma MarkedSample(s: Strip, half: nat, r: nat, c: nat)
    requires half < 2 && r < 8 && c < 8
    ensures LineSamples(s, 59, half)[8 * r + c] == if InLetters(8 * half + c, r) then 60 else RawBlock(s, 0, half)[8 * r + c]
  {
    hide RawBlock, Marked, WATERMARK_V, WATERMARK_T;
    McuDigits(0, half);
    Letters(RawBlock(s, 0, half), r, c);
  }

  lemma LumaSample(s: Strip, line: nat, x: nat, y: nat)
    requires x < 640 && y < 8
    ensures LineSamples(s, line, 4 * (x / 16) + x / 8 % 2)[8 * y + x % 8] ==
            if line == 59 && InLetters(x, y) then 60 else LumaOf(s, x, y) - 128
  {
    hide RawBlock, LumaOf, CbOf, CrOf, LineSamples;
    PixelDigits(x);
    PixelInBlocks(s, x, y);
    if line == 59 && x / 16 == 0 {
      MarkedSample(s, x / 8 % 2, y, x % 8);
    } else {
      UnmarkedSamples(s, line, x / 16, x / 8 % 2);
    }
  }

  /**
   The coded luminance of every pixel of every strip, a strip being 640 x 8 pixels in bytes Y, Cb, Y, Cr: it is in the left or
   right half of its 16-pixel MCU. On line 59, and nowhere else, the letters V and T are drawn over it in luminance 60.
   */
  lemma PixelLuminance(s: Strip, line: nat, x: nat, y: nat)
    requires x < 640 && y < 8
    ensures LineSamples(s, line, 4 * (x / 16) + x / 8 % 2)[8 * y + x % 8] ==
            if line == 59 && x < 8 && (x == y / 2 || x == y / 2 + 1 || (y < 6 && (x + y / 2 == 6 || x + y / 2 == 7))) then 60
            else if line == 59 && 8 <= x < 16 && (y < 2 || x - 8 == 3 - y / 2 || x - 8 == 4 - y / 2) then 60
            else s[1280 * y + 2 * x] as int - 128
  {
    hide LineSamples;
    LumaSample(s, line, x, y);
  }

  /** The chrominance of every pixel, which it shares with its neighbour, in the two data units after the luminance. */
  lemma PixelChrominance(s: Strip, line: nat, x: nat, y: nat, pair: nat)
    requires x < 640 && y < 8 && pair == x / 2
    ensures LineSamples(s, line, 4 * (x / 16) + 2)[8 * y + pair % 8] == s[1280 * y + 4 * pair + 1] as int - 128
    ensures LineSamples(s, line, 4 * (x / 16) + 3)[8 * y + pair % 8] == s[1280 * y + 4 * pair + 3] as int - 128
  {
    hide RawBlock, LineSamples;
    PixelDigits(x);
    PixelInBlocks(s, x, y);
    UnmarkedSamples(s, line, x / 16, 2);
    UnmarkedSamples(s, line, x / 16, 3);
  }

  /** The luminance of a pixel, less 128, with the letters drawn. */
  function Luminance(s: Strip, line: nat, x: nat, y: nat): int
    requires x < 640 && y < 8
  {
    if line == 59 && InLetters(x, y) then 60 else LumaOf(s, x, y) - 128
  }

  /**
   The pixels of data unit `t` of line `line`, less 128: of every 16 columns first the left and the right half's luminance,
   then Cb and Cr of every other pixel.
   */
  function PixelBlock(s: Strip, line: nat, t: nat): Samples
    requires t < 160
  {
    seq(64, n requires 0 <= n < 64 => PixelAt(s, line, t, n / 8, n % 8))
  }

  function PixelAt(s: Strip, line: nat, t: nat, row: nat, col: nat): int
    requires t < 160 && row < 8 && col < 8
  {
    var left := 16 * (t / 4);
    match t % 4
    case 0 => Luminance(s, line, left + col, row)
    case 1 => Luminance(s, line, left + 8 + col, row)
    case 2 => CbOf(s, left + 2 * col, row) - 128
    case _ => CrOf(s, left + 2 * col, row) - 128
  }

  lemma LumaColumn(b: nat, half: nat, col: nat)
    requires half < 2 && col < 8
    ensures var x := 16 * b + 8 * half + col; x / 16 == b && x / 8 % 2 == half && x % 8 == col
  {
    DivModUnique(16 * b + 8 * half + col, 16, b, 8 * half + col);
    DivModUnique(16 * b + 8 * half + col, 8, 2 * b + half, col);
    DivModUnique(2 * b + half, 2, b, half);
  }

  lemma ChromaColumn(b: nat, col: nat)
    requires col < 8
    ensures var x := 16 * b + 2 * col; x / 16 == b && x / 2 % 8 == col
  {
    DivModUnique(16 * b + 2 * col, 16, b, 2 * col);
    DivModUnique(8 * b + col, 8, b, col);
  }

  lemma LumaIsPixel(s: Strip, line: nat, b: nat, half: nat, row: nat, col: nat)
    requires b < 40 && half < 2 && row < 8 && col < 8
    ensures LineSamples(s, line, 4 * b + half)[8 * row + col] == PixelAt(s, line, 4 * b + half, row, col)
  {
    hide LineSamples, InLetters, LumaOf;
    McuDigits(b, half);
    LumaColumn(b, half, col);
    LumaSample(s, line, 16 * b + 8 * half + col, row);
  }

  lemma ChromaIsPixel(s: Strip, line: nat, b: nat, comp: nat, row: nat, col: nat)
    requires b < 40 && 2 <= comp < 4 && row < 8 && col < 8
    ensures LineSamples(s, line, 4 * b + comp)[8 * row + col] == PixelAt(s, line, 4 * b + comp, row, col)
  {
    hide LineSamples, Luminance;
    McuDigits(b, comp);
    ChromaColumn(b, col);
    PixelChrominance(s, line, 16 * b + 2 * col, row, 8 * b + col);
  }

  lemma SampleIsPixel(s: Strip, line: nat, t: nat, row: nat, col: nat)
    requires t < 160 && row < 8 && col < 8
    ensures LineSamples(s, line, t)[8 * row + col] == PixelAt(s, line, t, row, col)
  {
    hide LineSamples, PixelAt;
    if t % 4 < 2 {
      LumaIsPixel(s, line, t / 4, t % 4, row, col);
    } else {
      ChromaIsPixel(s, line, t / 4, t % 4, row, col);
    }
  }

  /** What is coded in each of the 160 data units are the pixels there. */
  lemma BlocksArePixels(s: Strip, line: nat, t: nat)
    requires t < 160
    ensures LineSamples(s, line, t) == PixelBlock(s, line, t)
  {
    hide LineSamples, PixelAt;
    forall n | 0 <= n < 64
      ensures LineSamples(s, line, t)[n] == PixelBlock(s, line, t)[n]
    {
      SampleIsPixel(s, line, t, n / 8, n % 8);
      assert n == 8 * (n / 8) + n % 8;
    }
  }

  // ---------- the coded coefficients are those of the pixels ----------

  /**
   The first two data units of every four are coded with the luminance tables and steps, the others with those of the
   chrominance: each coded value times its step is within 43/16 + 1025/1024 * step of the DCT coefficient of the pixels.
   */
  lemma LineAccuracy(c: Cosines, s: Strip, line: nat, t: nat, k: nat, i: nat)
    requires c.HalfAngles() && t < 160 && k < 8 && i < 8
    ensures |StandardBlocks(s, line)| == 160 && Unzig(8 * k + i) < 64
    ensures var steps := Steps(if t % 4 == 0 || t % 4 == 1 then Luma else Chroma);
            && |steps| == 8 && |steps[k]| == 8
            && AbsR((steps[k][i] * StandardBlocks(s, line)[t][Unzig(8 * k + i)]) as real
                    - Coefficient(c, PixelBlock(s, line, t), k, i)) < 43.0 / 16.0 + 1025.0 / 1024.0 * steps[k][i] as real
  {
    hide Cosines.HalfAngles, Coefficient, Transform, Quantized, AbsR, Steps, Unzig, LineSamples, PixelBlock, StandardCtx,
         TablesOk;
    StandardTablesOk();
    LineSamplesRange(s, line, t);
    BlocksArePixels(s, line, t);
    assert StandardBlocks(s, line)[t] == LineBlock(StandardTables(), s, line, t);
    CodedAccuracy(c, ComponentOf(t), LineSamples(s, line, t), k, i, 8 * k + i);
  }

  /**
   The whole chain, with the tables of jpegenc.c: whatever the strips and the earlier memory, in a capture that fits and whose
   line lengths are not 1 modulo the buffer size, each line fetched by its number from the memory the index leaves decodes to
   160 blocks, and every coefficient of each is within the stated distance of the DCT coefficient of the pixels there.
   */
  lemma PictureServed(m0: Memory, size: nat, strips: seq<Strip>, line: nat, c: Cosines, t: nat, k: nat, i: nat)
    requires size >= 2 && line < |strips| <= 63 && Fits(StandardLines(strips))
    requires forall j :: 0 <= j < |strips| ==> !LosesMarker(StandardLines(strips)[j], size)
    requires c.HalfAngles() && t < 160 && k < 8 && i < 8
    ensures var m := Captured(m0, StandardLines(strips), size);
            var steps := Steps(if t % 4 == 0 || t % 4 == 1 then Luma else Chroma);
            && Scan(m, IMAGE_DATA_START, IMAGE_DATA_START, 0).Some? && LoopLeaves(m, Indexed(m))
            && Unzig(8 * k + i) < 64 && |steps| == 8 && |steps[k]| == 8
            && var decoded := DecodeLine(StandardDecoders(), LineRead(Indexed(m), line).0, 160);
               && decoded.Some? && |decoded.value| == 160
               && AbsR((steps[k][i] * decoded.value[t][Unzig(8 * k + i)]) as real
                       - Coefficient(c, PixelBlock(strips[line], line, t), k, i))
                  < 43.0 / 16.0 + 1025.0 / 1024.0 * steps[k][i] as real
  {
    hide Cosines.HalfAngles, Coefficient, AbsR, Steps, Unzig, PixelBlock, Scan, LoopLeaves, Indexed, LineRead, DecodeLine,
         Captured, StandardLines, StandardBlocks, StandardDecoders, Fits, LosesMarker;
    StandardLineServed(m0, size, strips, line);
    LineAccuracy(c, strips[line], line, t, k, i);
  }
}
