/**
 The encoder's ready-made codes against the T.81 tables: every entry it can index is the canonical code of
 its symbol, with one exception: chrominance run 6 / size 9 repeats the code of run 7 / size 3.
 */
module HuffmanTables {
  import opened Bits
  import opened Wrappers
  import opened CanonicalHuffman
  import opened JpegTables

  /** DECODE for some Huffman table: the next symbol and the bits after its code. */
  type SymbolDecoder = seq<bool> -> Option<(nat, seq<bool>)>

  /** Whatever follows, reading `code` gives `symbol`. */
  ghost predicate Codes(decode: SymbolDecoder, code: seq<bool>, symbol: nat) {
    forall rest :: decode(code + rest) == Some((symbol, rest))
  }

  /** A T.81 table: code counts by length, symbols in code order in rows of eight. */
  datatype TableSpec = TableSpec(counts: Counts, values: seq<seq<nat>>) {
    predicate HasSymbol(j: nat) {
      j / 8 < |values| && j % 8 < |values[j / 8]|
    }

    /** DECODE of T.81 F.2.2.3: the next symbol and the bits after its code. */
    function DecodeSymbol(bits: seq<bool>): Option<(nat, seq<bool>)> {
      var (j, rest) :- Decode(counts, bits);
      if HasSymbol(j) then Some((values[j / 8][j % 8], rest)) else None
    }

    function Decoder(): SymbolDecoder {
      bits => DecodeSymbol(bits)
    }
  }

  /** The constant part of the source's `huffman_t`. */
  datatype HuffmanCtx = HuffmanCtx(
      haclen: seq<seq<nat>>, hacbit: seq<seq<nat>>, hdclen: seq<nat>, hdcbit: seq<nat>, qtable: seq<seq<nat>>)
  {
    predicate HasDc(size: nat) {
      size < |hdclen| && size < |hdcbit|
    }

    predicate HasAc(run: nat, size: nat) {
      run < |haclen| && run < |hacbit| && size < |haclen[run]| && size < |hacbit[run]|
    }

    predicate HasQ(t: nat) {
      t / 8 < |qtable| && t % 8 < |qtable[t / 8]|
    }

    /** The reciprocal for raster position `t`. */
    function Q(t: nat): nat
      requires HasQ(t)
    {
      qtable[t / 8][t % 8]
    }

    /** The bits `writebits` appends for a DC size. */
    function DcCode(size: nat): seq<bool>
      requires HasDc(size)
    {
      BitsOf(hdcbit[size], hdclen[size])
    }

    /** The bits `writebits` appends for a zero run and an AC size. */
    function AcCode(run: nat, size: nat): seq<bool>
      requires HasAc(run, size)
    {
      BitsOf(hacbit[run][size], haclen[run][size])
    }
  }

  datatype Component = Luma | Chroma

  function StandardCtx(c: Component): HuffmanCtx {
    match c
    case Luma => HuffmanCtx(HYAC_LEN, HYAC_BITS, HYDC_LEN, HYDC_BITS, QTABLE_LUM)
    case Chroma => HuffmanCtx(HCAC_LEN, HCAC_BITS, HCDC_LEN, HCDC_BITS, QTABLE_CHROM)
  }

  function DcSpec(c: Component): TableSpec {
    match c
    case Luma => TableSpec(STD_DC_LUM_NRCODES, STD_DC_LUM_VALUES)
    case Chroma => TableSpec(STD_DC_CHROM_NRCODES, STD_DC_CHROM_VALUES)
  }

  function AcSpec(c: Component): TableSpec {
    match c
    case Luma => TableSpec(STD_AC_LUM_NRCODES, STD_AC_LUM_VALUES)
    case Chroma => TableSpec(STD_AC_CHROM_NRCODES, STD_AC_CHROM_VALUES)
  }

  // Per code length (index 0 unused): first code, one past the last code, and HUFFVAL position minus code.
  const DC_LUMA_FIRST: seq<int> := [0, 0, 0, 2, 14, 30, 62, 126, 254, 510, 1022, 2044, 4088, 8176, 16352, 32704, 65408]
  const DC_LUMA_END: seq<int> := [0, 0, 1, 7, 15, 31, 63, 127, 255, 511, 1022, 2044, 4088, 8176, 16352, 32704, 65408]
  const DC_LUMA_OFFSET: seq<int> := [0, 0, 0, -1, -8, -23, -54, -117, -244, -499, -1010, -2032, -4076, -8164, -16340, -32692, -65396]
  const DC_CHROMA_FIRST: seq<int> := [0, 0, 0, 6, 14, 30, 62, 126, 254, 510, 1022, 2046, 4094, 8188, 16376, 32752, 65504]
  const DC_CHROMA_END: seq<int> := [0, 0, 3, 7, 15, 31, 63, 127, 255, 511, 1023, 2047, 4094, 8188, 16376, 32752, 65504]
  const DC_CHROMA_OFFSET: seq<int> := [0, 0, 0, -3, -10, -25, -56, -119, -246, -501, -1012, -2035, -4082, -8176, -16364, -32740, -65492]
  const AC_LUMA_FIRST: seq<int> := [0, 0, 0, 4, 10, 26, 58, 120, 248, 502, 1014, 2038, 4084, 8176, 16352, 32704, 65410]
  const AC_LUMA_END: seq<int> := [0, 0, 2, 5, 13, 29, 60, 124, 251, 507, 1019, 2042, 4088, 8176, 16352, 32705, 65535]
  const AC_LUMA_OFFSET: seq<int> := [0, 0, 0, -2, -7, -20, -49, -109, -233, -484, -991, -2010, -4052, -8140, -16316, -32668, -65373]
  const AC_CHROMA_FIRST: seq<int> := [0, 0, 0, 4, 10, 24, 56, 120, 246, 500, 1014, 2038, 4084, 8176, 16352, 32706, 65416]
  const AC_CHROMA_END: seq<int> := [0, 0, 2, 5, 12, 28, 60, 123, 250, 507, 1019, 2042, 4088, 8176, 16353, 32708, 65535]
  const AC_CHROMA_OFFSET: seq<int> := [0, 0, 0, -2, -7, -19, -47, -107, -230, -480, -987, -2006, -4048, -8136, -16312, -32665, -65373]
  // What the stored value holds above the code itself; the encoder masks it off.
  const AC_LUMA_PAD: seq<int> := [65520, 65520, 65520, 65520, 65520, 65504, 65472, 65408, 65280, 65024, 64512, 63488, 61440, 57344, 49152, 32768, 0]
  const AC_CHROMA_PAD: seq<int> := [0, 0, 0, 0, 0, 0, 0, 0, 0, 0, 0, 0, 0, 0, 0, 0, 0]

  /** The per-length constants of a table are those annex C.2 gives. */
  predicate Start(counts: Counts, first: seq<int>, end: seq<int>, offset: seq<int>, l: nat)
    requires |first| == |end| == |offset| == 17 && 1 <= l <= MAX_LENGTH
  {
    && FirstCode(counts, l) == first[l]
    && first[l] + counts[l - 1] == end[l] <= Pow2(l)
    && FirstIndex(counts, l) - first[l] == offset[l]
  }

  /** A value `bits` that exceeds a code of length `len` by a multiple of 2^len is that code once masked. */
  lemma MaskedCodeCodes(spec: TableSpec, len: nat, code: nat, bits: nat)
    requires IsCode(spec.counts, len, code) && spec.HasSymbol(SymbolIndex(spec.counts, len, code))
    requires bits % Pow2(len) == code
    ensures var j := SymbolIndex(spec.counts, len, code);
            Codes(spec.Decoder(), BitsOf(bits, len), spec.values[j / 8][j % 8])
  {
    var j := SymbolIndex(spec.counts, len, code);
    BitsMod(bits, len, len);
    forall rest
      ensures spec.DecodeSymbol(BitsOf(bits, len) + rest) == Some((spec.values[j / 8][j % 8], rest))
    {
      DecodeInvertsCode(spec.counts, len, code, rest);
    }
  }

  lemma PaddedCodeCodes(spec: TableSpec, first: seq<int>, end: seq<int>, offset: seq<int>,
                        len: nat, bits: nat, pad: nat, symbol: nat)
    requires |first| == |end| == |offset| == 17 && 1 <= len <= MAX_LENGTH
    requires Start(spec.counts, first, end, offset, len)
    requires pad % Pow2(len) == 0 && first[len] <= bits - pad < end[len]
    requires var j := bits - pad + offset[len];
             0 <= j && spec.HasSymbol(j) && spec.values[j / 8][j % 8] == symbol
    ensures Codes(spec.Decoder(), BitsOf(bits, len), symbol)
  {
    hide Pow2, FirstCode, FirstIndex;
    var code, d := bits - pad, Pow2(len);
    assert IsCode(spec.counts, len, code);
    assert pad == d * (pad / d);
    DivAddMultiple(code, d, pad / d);
    DivModUnique(code, d, 0, code);
    MaskedCodeCodes(spec, len, code, bits);
  }

  lemma Pow2Values()
    ensures Pow2(1) == 2 && Pow2(2) == 4 && Pow2(3) == 8 && Pow2(4) == 16
    ensures Pow2(5) == 32 && Pow2(6) == 64 && Pow2(7) == 128 && Pow2(8) == 256
    ensures Pow2(9) == 512 && Pow2(10) == 1024 && Pow2(11) == 2048 && Pow2(12) == 4096
    ensures Pow2(13) == 8192 && Pow2(14) == 16384 && Pow2(15) == 32768 && Pow2(16) == 65536
  {}

  lemma PadIsMultiple(len: nat)
    requires 1 <= len <= 16
    ensures 0 <= AC_LUMA_PAD[len] && AC_LUMA_PAD[len] % Pow2(len) == 0
    ensures AC_CHROMA_PAD[len] == 0
  {
    Pow2Values();
  }

  const POWERS: seq<int> := [1, 2, 4, 8, 16, 32, 64, 128, 256, 512, 1024, 2048, 4096, 8192, 16384, 32768, 65536]

  /** One step of the recurrence that annex C.2 defines the per-length constants by. */
  predicate StepOk(counts: Counts, first: seq<int>, end: seq<int>, offset: seq<int>, l: nat)
    requires |first| == |end| == |offset| == 17 && 1 <= l <= MAX_LENGTH
  {
    && end[l] == first[l] + counts[l - 1] <= POWERS[l]
    && (l == 1 ==> first[l] == 0 && offset[l] == 0)
    && (l > 1 ==> first[l] == 2 * end[l - 1]
                  && offset[l] + first[l] == offset[l - 1] + first[l - 1] + counts[l - 2])
  }

  predicate StepsOk(counts: Counts, first: seq<int>, end: seq<int>, offset: seq<int>) {
    && |first| == |end| == |offset| == 17
    && forall l :: 1 <= l <= MAX_LENGTH ==> StepOk(counts, first, end, offset, l)
  }

  lemma {:induction false} StartAt(counts: Counts, first: seq<int>, end: seq<int>, offset: seq<int>, l: nat)
    requires StepsOk(counts, first, end, offset) && 1 <= l <= MAX_LENGTH
    ensures Start(counts, first, end, offset, l)
  {
    assert StepOk(counts, first, end, offset, l);
    assert POWERS[l] == Pow2(l) by {
      Pow2Values();
    }
    if l > 1 {
      StartAt(counts, first, end, offset, l - 1);
    }
  }

  lemma DcLumaStepsLow(l: nat)
    requires 1 <= l <= 8
    ensures StepOk(STD_DC_LUM_NRCODES, DC_LUMA_FIRST, DC_LUMA_END, DC_LUMA_OFFSET, l)
  {
    assert l == 1 || l == 2 || l == 3 || l == 4 || l == 5 || l == 6 || l == 7 || l == 8;
  }

  lemma DcLumaStepsHigh(l: nat)
    requires 9 <= l <= 16
    ensures StepOk(STD_DC_LUM_NRCODES, DC_LUMA_FIRST, DC_LUMA_END, DC_LUMA_OFFSET, l)
  {
    assert l == 9 || l == 10 || l == 11 || l == 12 || l == 13 || l == 14 || l == 15 || l == 16;
  }

  lemma DcLumaSteps()
    ensures StepsOk(STD_DC_LUM_NRCODES, DC_LUMA_FIRST, DC_LUMA_END, DC_LUMA_OFFSET)
  {
    forall l | 1 <= l <= MAX_LENGTH
      ensures StepOk(STD_DC_LUM_NRCODES, DC_LUMA_FIRST, DC_LUMA_END, DC_LUMA_OFFSET, l)
    {
      if l <= 8 {
        DcLumaStepsLow(l);
      } else {
        DcLumaStepsHigh(l);
      }
    }
  }

  lemma DcChromaStepsLow(l: nat)
    requires 1 <= l <= 8
    ensures StepOk(STD_DC_CHROM_NRCODES, DC_CHROMA_FIRST, DC_CHROMA_END, DC_CHROMA_OFFSET, l)
  {
    assert l == 1 || l == 2 || l == 3 || l == 4 || l == 5 || l == 6 || l == 7 || l == 8;
  }

  lemma DcChromaStepsHigh(l: nat)
    requires 9 <= l <= 16
    ensures StepOk(STD_DC_CHROM_NRCODES, DC_CHROMA_FIRST, DC_CHROMA_END, DC_CHROMA_OFFSET, l)
  {
    assert l == 9 || l == 10 || l == 11 || l == 12 || l == 13 || l == 14 || l == 15 || l == 16;
  }

  lemma DcChromaSteps()
    ensures StepsOk(STD_DC_CHROM_NRCODES, DC_CHROMA_FIRST, DC_CHROMA_END, DC_CHROMA_OFFSET)
  {
    forall l | 1 <= l <= MAX_LENGTH
      ensures StepOk(STD_DC_CHROM_NRCODES, DC_CHROMA_FIRST, DC_CHROMA_END, DC_CHROMA_OFFSET, l)
    {
      if l <= 8 {
        DcChromaStepsLow(l);
      } else {
        DcChromaStepsHigh(l);
      }
    }
  }

  lemma AcLumaStepsLow(l: nat)
    requires 1 <= l <= 8
    ensures StepOk(STD_AC_LUM_NRCODES, AC_LUMA_FIRST, AC_LUMA_END, AC_LUMA_OFFSET, l)
  {
    assert l == 1 || l == 2 || l == 3 || l == 4 || l == 5 || l == 6 || l == 7 || l == 8;
  }

  lemma AcLumaStepsHigh(l: nat)
    requires 9 <= l <= 16
    ensures StepOk(STD_AC_LUM_NRCODES, AC_LUMA_FIRST, AC_LUMA_END, AC_LUMA_OFFSET, l)
  {
    assert l == 9 || l == 10 || l == 11 || l == 12 || l == 13 || l == 14 || l == 15 || l == 16;
  }

  lemma AcLumaSteps()
    ensures StepsOk(STD_AC_LUM_NRCODES, AC_LUMA_FIRST, AC_LUMA_END, AC_LUMA_OFFSET)
  {
    forall l | 1 <= l <= MAX_LENGTH
      ensures StepOk(STD_AC_LUM_NRCODES, AC_LUMA_FIRST, AC_LUMA_END, AC_LUMA_OFFSET, l)
    {
      if l <= 8 {
        AcLumaStepsLow(l);
      } else {
        AcLumaStepsHigh(l);
      }
    }
  }

  lemma AcChromaStepsLow(l: nat)
    requires 1 <= l <= 8
    ensures StepOk(STD_AC_CHROM_NRCODES, AC_CHROMA_FIRST, AC_CHROMA_END, AC_CHROMA_OFFSET, l)
  {
    assert l == 1 || l == 2 || l == 3 || l == 4 || l == 5 || l == 6 || l == 7 || l == 8;
  }

  lemma AcChromaStepsHigh(l: nat)
    requires 9 <= l <= 16
    ensures StepOk(STD_AC_CHROM_NRCODES, AC_CHROMA_FIRST, AC_CHROMA_END, AC_CHROMA_OFFSET, l)
  {
    assert l == 9 || l == 10 || l == 11 || l == 12 || l == 13 || l == 14 || l == 15 || l == 16;
  }

  lemma AcChromaSteps()
    ensures StepsOk(STD_AC_CHROM_NRCODES, AC_CHROMA_FIRST, AC_CHROMA_END, AC_CHROMA_OFFSET)
  {
    forall l | 1 <= l <= MAX_LENGTH
      ensures StepOk(STD_AC_CHROM_NRCODES, AC_CHROMA_FIRST, AC_CHROMA_END, AC_CHROMA_OFFSET, l)
    {
      if l <= 8 {
        AcChromaStepsLow(l);
      } else {
        AcChromaStepsHigh(l);
      }
    }
  }

  lemma LumaDcEntry(size: nat)
    requires size <= 11
    ensures 1 <= HYDC_LEN[size] <= 16 && DC_LUMA_FIRST[HYDC_LEN[size]] <= HYDC_BITS[size] < DC_LUMA_END[HYDC_LEN[size]]
    ensures HYDC_BITS[size] + DC_LUMA_OFFSET[HYDC_LEN[size]] == size
  {}

  lemma ChromaDcEntry(size: nat)
    requires size <= 11
    ensures 1 <= HCDC_LEN[size] <= 16 && DC_CHROMA_FIRST[HCDC_LEN[size]] <= HCDC_BITS[size] < DC_CHROMA_END[HCDC_LEN[size]]
    ensures HCDC_BITS[size] + DC_CHROMA_OFFSET[HCDC_LEN[size]] == size
  {}

  lemma DcSymbol(c: Component, size: nat)
    requires size <= 11
    ensures DcSpec(c).HasSymbol(size) && DcSpec(c).values[size / 8][size % 8] == size
  {}

  lemma DcEntryCodes(ctx: HuffmanCtx, spec: TableSpec, first: seq<int>, end: seq<int>, offset: seq<int>, size: nat)
    requires ctx.HasDc(size) && StepsOk(spec.counts, first, end, offset)
    requires spec.HasSymbol(size) && spec.values[size / 8][size % 8] == size
    requires var len, bits := ctx.hdclen[size], ctx.hdcbit[size];
             1 <= len <= MAX_LENGTH && first[len] <= bits < end[len] && bits + offset[len] == size
    ensures Codes(spec.Decoder(), ctx.DcCode(size), size)
  {
    var len, bits := ctx.hdclen[size], ctx.hdcbit[size];
    StartAt(spec.counts, first, end, offset, len);
    DivModUnique(0, Pow2(len), 0, 0);
    PaddedCodeCodes(spec, first, end, offset, len, bits, 0, size);
  }

  lemma LumaDcCodes(size: nat)
    requires size <= 11
    ensures StandardCtx(Luma).HasDc(size) && Codes(DcSpec(Luma).Decoder(), StandardCtx(Luma).DcCode(size), size)
  {
    DcSymbol(Luma, size);
    LumaDcEntry(size);
    DcLumaSteps();
    DcEntryCodes(StandardCtx(Luma), DcSpec(Luma), DC_LUMA_FIRST, DC_LUMA_END, DC_LUMA_OFFSET, size);
  }

  lemma ChromaDcCodes(size: nat)
    requires size <= 11
    ensures StandardCtx(Chroma).HasDc(size) && Codes(DcSpec(Chroma).Decoder(), StandardCtx(Chroma).DcCode(size), size)
  {
    DcSymbol(Chroma, size);
    ChromaDcEntry(size);
    DcChromaSteps();
    DcEntryCodes(StandardCtx(Chroma), DcSpec(Chroma), DC_CHROMA_FIRST, DC_CHROMA_END, DC_CHROMA_OFFSET, size);
  }

  /** Every DC size of the 12-entry tables is coded canonically (T.81 tables K.3 and K.4). */
  lemma DcCodeCodes(c: Component, size: nat)
    requires size <= 11
    ensures StandardCtx(c).HasDc(size) && Codes(DcSpec(c).Decoder(), StandardCtx(c).DcCode(size), size)
  {
    match c
    case Luma => LumaDcCodes(size);
    case Chroma => ChromaDcCodes(size);
  }
}
