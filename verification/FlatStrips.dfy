/**
 Strips made of flat 8x8 blocks, for which the length of the encoded line can be worked out by hand: a strip whose line loses
 its marker byte with either buffer size, and what the reader then serves.
 */
module FlatStrips {
  import opened Bits
  import opened Wrappers
  import opened HuffmanTables
  import opened BlockCoding
  import opened LineCoding
  import opened Dct
  import opened Quantizer
  import opened Strip
  import opened Mram
  import opened OutputStore
  import opened LineIndex
  import opened IndexCorrectness
  import opened EndToEnd
  import opened LostMarkers
  import opened OneLostMarker

  // ---------- bit strings without long runs of ones ----------

  predicate FiveOnes(bits: seq<bool>, i: nat)
    requires i + 4 < |bits|
  {
    bits[i] && bits[i + 1] && bits[i + 2] && bits[i + 3] && bits[i + 4]
  }

  /** No five ones in a row, and a zero at the end. */
  ghost predicate Calm(bits: seq<bool>) {
    && (forall i: nat :: i < |bits| - 4 ==> !FiveOnes(bits, i))
    && (bits != [] ==> !bits[|bits| - 1])
  }

  lemma CalmAppend(a: seq<bool>, b: seq<bool>)
    requires Calm(a) && Calm(b)
    ensures Calm(a + b)
  {
    var c := a + b;
    forall i: nat | i < |c| - 4
      ensures !FiveOnes(c, i)
    {
      if i >= |a| {
        assert !FiveOnes(b, i - |a|);
      } else if i + 4 >= |a| {
        assert !c[|a| - 1];
      } else {
        assert !FiveOnes(a, i);
      }
    }
  }

  lemma OnesAreAllTrue(j: nat)
    requires j < 8
    ensures BitsOf(0xFF, 8)[j]
  {
    assert Pow2(0) == 1 && Pow2(1) == 2 && Pow2(2) == 4 && Pow2(3) == 8 && Pow2(4) == 16 && Pow2(5) == 32;
    assert Pow2(6) == 64 && Pow2(7) == 128;
  }

  /** A byte of eight bits of which one is a zero is not 0xFF. */
  lemma NotAllOnes(bits: seq<bool>, j: nat)
    requires |bits| == 8 && j < 8 && !bits[j]
    ensures Value(bits) != 0xFF
  {
    BitsOfValue(bits);
    OnesAreAllTrue(j);
  }

  predicate NoFF(data: seq<byte>) {
    forall k :: 0 <= k < |data| ==> data[k] != 0xFF
  }

  lemma {:induction false} NothingStuffed(data: seq<byte>)
    requires NoFF(data)
    ensures Stuff(data) == data
  {
    if data != [] {
      NothingStuffed(data[1..]);
      assert [data[0]] + data[1..] == data;
    }
  }

  lemma SliceOfRest(bits: seq<bool>, rest: seq<bool>, a: nat, b: nat)
    requires |bits| >= 8 && rest == bits[8..] && b == a + 8 && b + 8 <= |bits|
    ensures rest[a..a + 8] == bits[b..b + 8]
  {
    var x, y := rest[a..a + 8], bits[b..b + 8];
    forall i | 0 <= i < 8
      ensures x[i] == y[i]
    {
      assert rest[a + i] == bits[b + i];
    }
  }

  lemma {:induction false} PackedByte(bits: seq<bool>, k: nat)
    requires |bits| % 8 == 0 && k < |bits| / 8
    ensures Pack(bits)[k] == Value(bits[8 * k..8 * k + 8])
    decreases k
  {
    hide Value;
    if k > 0 {
      PackedByte(bits[8..], k - 1);
      SliceOfRest(bits, bits[8..], 8 * (k - 1), 8 * k);
    } else {
      assert bits[0..8] == bits[..8];
    }
  }

  ghost function FirstZero(bits: seq<bool>, i: nat): (j: nat)
    requires Calm(bits) && i + 4 < |bits|
    ensures j < 5 && !bits[i + j]
  {
    assert !FiveOnes(bits, i);
    if !bits[i] then 0 else if !bits[i + 1] then 1 else if !bits[i + 2] then 2 else if !bits[i + 3] then 3 else 4
  }

  lemma PaddedByteHasZero(bits: seq<bool>, p: seq<bool>, k: nat)
    requires Calm(bits) && bits != [] && p == Padded(bits) && k < |p| / 8
    ensures Value(p[8 * k..8 * k + 8]) != 0xFF
  {
    var b := p[8 * k..8 * k + 8];
    if 8 * k + 8 <= |bits| {
      var j := FirstZero(bits, 8 * k);
      NotAllOnes(b, j);
    } else {
      NotAllOnes(b, |bits| - 1 - 8 * k);
    }
  }

  /** Calm bits are packed without a 0xFF byte, so the segment is as long as its bits say. */
  lemma CalmSegment(bits: seq<bool>, rst: nat)
    requires Calm(bits) && bits != []
    ensures |SegmentBytes(bits, rst)| == (|bits| + 7) / 8 + 2
  {
    var p := Padded(bits);
    forall k | 0 <= k < |Pack(p)|
      ensures Pack(p)[k] != 0xFF
    {
      PackedByte(p, k);
      PaddedByteHasZero(bits, p, k);
    }
    NothingStuffed(Pack(p));
  }

  // ---------- flat blocks ----------

  function Flat(x: int): Samples {
    seq(64, _ => x)
  }

  /** A block with nothing but a DC value. */
  function DcBlock(v: int): Block {
    [v] + Zeros(63)
  }

  lemma FlatButterfly(v: Vec, x: int, d: nat)
    requires v == Vec(x, x, x, x, x, x, x, x) && -1024 <= x <= 1024 && (d == ROW_DIVISOR || d == COLUMN_DIVISOR)
    ensures Butterfly(v, d) == Vec(Int16(C4 * (8 * x) / d), 0, 0, 0, 0, 0, 0, 0)
  {
  }

  /** The first row pass, then the first column pass, of a flat block. */
  function FlatRow(x: int): int {
    C4 * (8 * x) / ROW_DIVISOR
  }

  function FlatDc(x: int): int {
    Int16(C4 * (8 * FlatRow(x)) / COLUMN_DIVISOR)
  }

  lemma FlatRows(x: int, t: nat)
    requires -128 <= x <= 128 && t < 64
    ensures RowPass(Flat(x))[t] == (if t % 8 == 0 then FlatRow(x) else 0) && -1024 <= FlatRow(x) <= 1024
  {
    FlatButterfly(Row(Flat(x), t / 8), x, ROW_DIVISOR);
  }

  /** Only the first entry of each row is not zero. */
  predicate FirstColumn(rows: Samples, r: int) {
    forall t: nat :: t < 64 ==> rows[t] == if t % 8 == 0 then r else 0
  }

  lemma FlatColumn(rows: Samples, r: int, i: nat)
    requires FirstColumn(rows, r) && i < 8
    ensures Column(rows, i) == (if i == 0 then Vec(r, r, r, r, r, r, r, r) else Vec(0, 0, 0, 0, 0, 0, 0, 0))
  {
    assert (8 + i) % 8 == i && (16 + i) % 8 == i && (24 + i) % 8 == i && (32 + i) % 8 == i;
    assert (40 + i) % 8 == i && (48 + i) % 8 == i && (56 + i) % 8 == i;
  }

  lemma FlatColumns(rows: Samples, r: int, t: nat)
    requires FirstColumn(rows, r) && -1024 <= r <= 1024 && t < 64
    ensures ColumnPass(rows)[t] == if t == 0 then Int16(C4 * (8 * r) / COLUMN_DIVISOR) else 0
  {
    hide Butterfly, FirstColumn, Column;
    FlatColumn(rows, r, t % 8);
    FlatButterfly(Column(rows, t % 8), if t % 8 == 0 then r else 0, COLUMN_DIVISOR);
  }

  /** The DC coefficient of a flat block is `FlatDc`, all others are zero. */
  lemma FlatTransform(x: int, t: nat)
    requires -128 <= x <= 128 && t < 64
    ensures Transform(Flat(x))[t] == if t == 0 then FlatDc(x) else 0
  {
    hide RowPass, ColumnPass, FlatRow;
    forall u: nat | u < 64
      ensures RowPass(Flat(x))[u] == if u % 8 == 0 then FlatRow(x) else 0
    {
      FlatRows(x, u);
    }
    FlatRows(x, 0);
    FlatColumns(RowPass(Flat(x)), FlatRow(x), t);
  }

  /** A flat block is coded as its DC value alone. */
  lemma FlatQuantized(ctx: HuffmanCtx, c: Component, x: int, v: int)
    requires QTableOk(ctx, c) && -128 <= x <= 128 && v == Quantize(FlatDc(x), ctx.Q(0))
    ensures Quantized(ctx, c, Transform(Flat(x))) == DcBlock(v)
  {
    hide Transform, Zig, Quantized, DcBlock, QTableOk, FlatDc, Flat, Quantize;
    forall i: nat | i < 64
      ensures Quantized(ctx, c, Transform(Flat(x)))[i] == DcBlock(v)[i]
    {
      FlatCoefficient(ctx, c, x, Transform(Flat(x)), i, Zig(i));
      DcBlockAt(v, i);
    }
  }

  lemma DcBlockAt(v: int, i: nat)
    requires i < 64
    ensures DcBlock(v)[i] == if i == 0 then v else 0
  {
  }

  lemma FlatCoefficient(ctx: HuffmanCtx, c: Component, x: int, data: Samples, i: nat, t: nat)
    requires QTableOk(ctx, c) && -128 <= x <= 128 && data == Transform(Flat(x)) && i < 64 && t == Zig(i)
    ensures Quantized(ctx, c, data)[i] == if i == 0 then Quantize(FlatDc(x), ctx.Q(0)) else 0
  {
    hide Transform, Flat, FlatDc, Unzig;
    ZigStartsAtDc();
    ZigZagIsPermutation(i);
    if i > 0 {
      ZigZagIsPermutation(0);
    }
    hide Zig;
    FlatTransform(x, t);
  }

  // ---------- the bits of a flat block ----------

  function FlatBits(ctx: HuffmanCtx, diff: int): seq<bool>
    requires FullTables(ctx) && Magnitude(diff) <= 11
  {
    ctx.DcCode(Magnitude(diff)) + VliBits(diff) + ctx.AcCode(0, 0)
  }

  lemma {:induction false} ZeroAcBits(ctx: HuffmanCtx, q: Block, i: nat)
    requires FullTables(ctx) && AcSizesAtMost(q, 11) && 1 <= i <= 64 && forall k :: 1 <= k < 64 ==> q[k] == 0
    ensures ZeroRun(q, i) == i - 1 && AcBits(ctx, q, i) == ctx.AcCode(0, 0)
    decreases 64 - i
  {
    ZeroRunIsAll(q, i);
    if i < 64 {
      ZeroAcBits(ctx, q, i + 1);
    }
  }

  lemma {:induction false} ZeroRunIsAll(q: Block, i: nat)
    requires 1 <= i <= 64 && forall k :: 1 <= k < 64 ==> q[k] == 0
    ensures ZeroRun(q, i) == i - 1
    decreases i
  {
    if i > 1 {
      ZeroRunIsAll(q, i - 1);
    }
  }

  lemma DcBlockSizes(v: int)
    ensures AcSizesAtMost(DcBlock(v), 11) && forall k :: 1 <= k < 64 ==> DcBlock(v)[k] == 0
  {
    assert Magnitude(0) == 0;
  }

  lemma FlatBlockBits(ctx: HuffmanCtx, v: int, pred: int)
    requires FullTables(ctx) && -0x8000 <= v - pred < 0x8000 && Magnitude(v - pred) <= 11
    ensures Encodable(DcBlock(v), pred) && BlockBits(ctx, DcBlock(v), pred) == FlatBits(ctx, v - pred)
  {
    DcBlockSizes(v);
    hide Magnitude, VliBits, AcBits, FullTables, DcBlock;
    DcBlockAt(v, 0);
    ZeroAcBits(ctx, DcBlock(v), 1);
  }

  // The DC values used below, and how far two neighbouring ones differ.
  const LUMA_LEVEL := 85
  const CHROMA_LEVEL := 10

  function Level(c: Component): int {
    if c.Luma? then LUMA_LEVEL else CHROMA_LEVEL
  }

  predicate DiffOk(c: Component, diff: int) {
    diff == 0 || diff == Level(c) || diff == -Level(c) || (c.Luma? && diff == WATERMARK_LUMINANCE)
  }

  /** The number of bits of a flat block with this DC difference. */
  function FlatLen(c: Component, diff: int): nat {
    if diff == 0 then (if c.Luma? then 6 else 4)
    else if c.Luma? then (if diff == WATERMARK_LUMINANCE then 14 else 16) else 10
  }

  /** What the tables make of those differences. */
  ghost predicate FlatCodes(ctx: HuffmanCtx, c: Component) {
    && FullTables(ctx)
    && forall diff :: DiffOk(c, diff) ==>
         Magnitude(diff) <= 11 && Calm(FlatBits(ctx, diff)) && |FlatBits(ctx, diff)| == FlatLen(c, diff)
  }

  lemma LevelSizes()
    ensures Magnitude(85) == 7 && Magnitude(-85) == 7 && Magnitude(10) == 4 && Magnitude(-10) == 4 && Magnitude(0) == 0
    ensures Magnitude(60) == 6
  {
    SizeOf10();
    SizeOf85();
    SizeOf60();
    assert Abs(85) == Abs(-85) == 85 && Abs(10) == Abs(-10) == 10 && Abs(60) == 60 && Size(0) == 0;
  }

  lemma SizeOf10()
    ensures Size(10) == 4
  {
    assert Size(2) == 2;
  }

  lemma SizeOf85()
    ensures Size(85) == 7
  {
    assert Size(5) == 3;
    assert Size(21) == 5;
  }

  lemma SizeOf60()
    ensures Size(60) == 6
  {
    assert Size(3) == 2;
    assert Size(15) == 4;
  }

  lemma PowersUpTo64()
    ensures Pow2(0) == 1 && Pow2(1) == 2 && Pow2(2) == 4 && Pow2(3) == 8 && Pow2(4) == 16 && Pow2(5) == 32 && Pow2(6) == 64
  {
  }

  lemma {:induction false} NextBit(v: int, n: nat, p: int)
    requires p == Pow2(n)
    ensures BitsOf(v, n + 1) == [v / p % 2 == 1] + BitsOf(v, n)
  {
  }

  lemma FourBitsOf(v: int)
    ensures BitsOf(v, 4) == [v / 8 % 2 == 1, v / 4 % 2 == 1, v / 2 % 2 == 1, v % 2 == 1]
  {
    hide BitsOf, Pow2;
    PowersUpTo64();
    NextBit(v, 3, 8);
    NextBit(v, 2, 4);
    NextBit(v, 1, 2);
    NextBit(v, 0, 1);
    NoBitsOf(v);
  }

  lemma SevenBitsOf(v: int)
    ensures BitsOf(v, 7) == [v / 64 % 2 == 1, v / 32 % 2 == 1, v / 16 % 2 == 1] + BitsOf(v, 4)
    ensures BitsOf(v, 6) == [v / 32 % 2 == 1, v / 16 % 2 == 1] + BitsOf(v, 4)
    ensures BitsOf(v, 4) == [v / 8 % 2 == 1, v / 4 % 2 == 1, v / 2 % 2 == 1, v % 2 == 1]
  {
    hide BitsOf, Pow2;
    PowersUpTo64();
    FourBitsOf(v);
    NextBit(v, 6, 64);
    NextBit(v, 5, 32);
    NextBit(v, 4, 16);
    InFront(v / 64 % 2 == 1, v / 32 % 2 == 1, v / 16 % 2 == 1, BitsOf(v, 4));
  }

  lemma InFront(a: bool, b: bool, c: bool, bits: seq<bool>)
    ensures [b] + ([c] + bits) == [b, c] + bits && [a] + ([b] + ([c] + bits)) == [a, b, c] + bits
  {
  }

  lemma LevelBits()
    ensures VliBits(85) == [true, false, true, false, true, false, true]
    ensures VliBits(-85) == [false, true, false, true, false, true, false]
    ensures VliBits(60) == [true, true, true, true, false, false]
    ensures VliBits(10) == [true, false, true, false] && VliBits(-10) == [false, true, false, true] && VliBits(0) == []
  {
    LevelSizes();
    hide BitsOf, Magnitude;
    SevenBitsOf(85);
    SevenBitsOf(60);
    SevenBitsOf(-86);
    SevenBitsOf(10);
    SevenBitsOf(-11);
    NoBitsOf(0);
  }

  lemma NoBitsOf(v: int)
    ensures BitsOf(v, 0) == []
  {
  }

  lemma LumaCodes()
    ensures var ctx := StandardCtx(Luma);
            && FullTables(ctx) && ctx.DcCode(0) == [false, false] && ctx.DcCode(7) == [true, true, true, true, false]
            && ctx.DcCode(6) == [true, true, true, false]
            && ctx.AcCode(0, 0) == [true, false, true, false]
  {
    StandardTablesFull(Luma);
    assert Pow2(0) == 1 && Pow2(1) == 2 && Pow2(2) == 4 && Pow2(3) == 8 && Pow2(4) == 16;
  }

  lemma ChromaCodes()
    ensures var ctx := StandardCtx(Chroma);
            && FullTables(ctx) && ctx.DcCode(0) == [false, false] && ctx.DcCode(4) == [true, true, true, false]
            && ctx.AcCode(0, 0) == [false, false]
  {
    StandardTablesFull(Chroma);
    assert Pow2(0) == 1 && Pow2(1) == 2 && Pow2(2) == 4 && Pow2(3) == 8;
  }

  lemma LumaFlatCodes()
    ensures FlatCodes(StandardCtx(Luma), Luma)
  {
    LumaCodes();
    LevelSizes();
    LevelBits();
    hide StandardCtx, Magnitude, VliBits, FullTables;
    var ctx := StandardCtx(Luma);
    assert FlatBits(ctx, 0) == [false, false, true, false, true, false];
    assert FlatBits(ctx, 85) == [true, true, true, true, false] + [true, false, true, false, true, false, true]
                                + [true, false, true, false];
    assert FlatBits(ctx, -85) == [true, true, true, true, false] + [false, true, false, true, false, true, false]
                                 + [true, false, true, false];
    assert FlatBits(ctx, 60) == [true, true, true, false, true, true, true, true, false, false, true, false, true, false];
    ThreeCalm([true, true, true, true, false], [true, false, true, false, true, false, true], [true, false, true, false]);
    ThreeCalm([true, true, true, true, false], [false, true, false, true, false, true, false], [true, false, true, false]);
  }

  lemma ChromaFlatCodes()
    ensures FlatCodes(StandardCtx(Chroma), Chroma)
  {
    ChromaCodes();
    LevelSizes();
    LevelBits();
    hide StandardCtx, Magnitude, VliBits, FullTables;
    var ctx := StandardCtx(Chroma);
    assert FlatBits(ctx, 0) == [false, false, false, false];
    assert FlatBits(ctx, 10) == [true, true, true, false] + [true, false, true, false] + [false, false];
    assert FlatBits(ctx, -10) == [true, true, true, false] + [false, true, false, true] + [false, false];
    ThreeCalm([true, true, true, false], [true, false, true, false], [false, false]);
    ThreeCalm([true, true, true, false], [false, true, false, true], [false, false]);
  }

  /** A code, an amplitude without two ones together, and a code whose second bit is a zero. */
  lemma ThreeCalm(a: seq<bool>, b: seq<bool>, c: seq<bool>)
    requires Calm(a) && a != [] && Calm(c) && |c| >= 2 && !c[1]
    requires forall i: nat :: i < |b| - 1 ==> !(b[i] && b[i + 1])
    ensures Calm(a + b + c)
  {
    CalmTail(b, c);
    CalmAppend(a, b + c);
    assert a + b + c == a + (b + c);
  }

  lemma CalmTail(b: seq<bool>, c: seq<bool>)
    requires Calm(c) && |c| >= 2 && !c[1]
    requires forall i: nat :: i < |b| - 1 ==> !(b[i] && b[i + 1])
    ensures Calm(b + c)
  {
    var x := b + c;
    forall i: nat | i < |x| - 4
      ensures !FiveOnes(x, i)
    {
      if i + 1 < |b| {
        assert x[i] == b[i] && x[i + 1] == b[i + 1];
      } else if i < |b| {
        assert x[i + 2] == c[1];
      } else {
        assert x[i..] == c[i - |b|..];
        assert !FiveOnes(c, i - |b|);
      }
    }
  }

  // ---------- a line of flat blocks ----------

  /**
   The lines used: one with DC values in every second luminance block and every second pair of chrominance blocks up to MCU
   38, one without any, and one with the luminance of the watermark throughout, which the watermark does not change.
   */
  datatype Kind = Busy | Quietest | Plain

  /** The DC value of block `t`. */
  function LevelAt(kind: Kind, t: nat): int {
    match kind
    case Quietest => 0
    case Plain => if t % 4 < 2 then WATERMARK_LUMINANCE else 0
    case Busy =>
      if t % 4 == 0 || t / 4 >= 39 then 0
      else if t % 4 == 1 then LUMA_LEVEL
      else if t / 4 % 2 == 1 then CHROMA_LEVEL else 0
  }

  /** The predictors when block `t` is coded. */
  function PredsAt(kind: Kind, t: nat): (p: Predictors)
    decreases t
  {
    if t == 0 then RESET else PredsAt(kind, t - 1)[PredictorOf(t - 1) := LevelAt(kind, t - 1)]
  }

  function DiffAt(kind: Kind, t: nat): int {
    LevelAt(kind, t) - PredsAt(kind, t)[PredictorOf(t)]
  }

  function LenAt(kind: Kind, t: nat): nat {
    FlatLen(ComponentOf(t), DiffAt(kind, t))
  }

  /** The number of bits of the blocks from `t` on. */
  function LenFrom(kind: Kind, t: nat): nat
    decreases 160 - t
  {
    if t >= 160 then 0 else LenAt(kind, t) + LenFrom(kind, t + 1)
  }

  /** The values the predictors have at the start of MCU `b`. */
  function McuPreds(kind: Kind, b: nat): Predictors {
    if b == 0 then RESET else [LevelAt(kind, 4 * b - 3), LevelAt(kind, 4 * b - 2), LevelAt(kind, 4 * b - 1)]
  }

  lemma LevelsOfMcu(kind: Kind, b: nat)
    ensures LevelAt(kind, 4 * b) == if kind.Plain? then WATERMARK_LUMINANCE else 0
    ensures LevelAt(kind, 4 * b + 1) ==
            if kind.Plain? then WATERMARK_LUMINANCE else if kind.Busy? && b < 39 then LUMA_LEVEL else 0
    ensures LevelAt(kind, 4 * b + 2) == (if kind.Busy? && b < 39 && b % 2 == 1 then CHROMA_LEVEL else 0)
    ensures LevelAt(kind, 4 * b + 3) == LevelAt(kind, 4 * b + 2)
    ensures PredictorOf(4 * b) == 0 && PredictorOf(4 * b + 1) == 0 && PredictorOf(4 * b + 2) == 1 && PredictorOf(4 * b + 3) == 2
    ensures ComponentOf(4 * b) == ComponentOf(4 * b + 1) == Luma && ComponentOf(4 * b + 2) == ComponentOf(4 * b + 3) == Chroma
  {
    assert (4 * b + 1) / 4 == b && (4 * b + 2) / 4 == b && (4 * b + 3) / 4 == b;
  }

  lemma PredsStep(kind: Kind, t: nat)
    ensures PredsAt(kind, t + 1) == PredsAt(kind, t)[PredictorOf(t) := LevelAt(kind, t)]
  {
  }

  lemma PredsInMcu(kind: Kind, b: nat, p: Predictors)
    requires PredsAt(kind, 4 * b) == p
    ensures PredsAt(kind, 4 * b + 1) == [LevelAt(kind, 4 * b), p[1], p[2]]
    ensures PredsAt(kind, 4 * b + 2) == [LevelAt(kind, 4 * b + 1), p[1], p[2]]
    ensures PredsAt(kind, 4 * b + 3) == [LevelAt(kind, 4 * b + 1), LevelAt(kind, 4 * b + 2), p[2]]
  {
    hide PredsAt, LevelAt, PredictorOf;
    LevelsOfMcu(kind, b);
    PredsStep(kind, 4 * b);
    PredsStep(kind, 4 * b + 1);
    PredsStep(kind, 4 * b + 2);
  }

  lemma {:induction false} PredsOfMcu(kind: Kind, b: nat)
    ensures PredsAt(kind, 4 * b) == McuPreds(kind, b)
    ensures var p := McuPreds(kind, b);
            && PredsAt(kind, 4 * b + 1) == [LevelAt(kind, 4 * b), p[1], p[2]]
            && PredsAt(kind, 4 * b + 2) == [LevelAt(kind, 4 * b + 1), p[1], p[2]]
            && PredsAt(kind, 4 * b + 3) == [LevelAt(kind, 4 * b + 1), LevelAt(kind, 4 * b + 2), p[2]]
    decreases b
  {
    hide LevelAt, PredictorOf;
    if b > 0 {
      PredsOfMcu(kind, b - 1);
      LevelsOfMcu(kind, b - 1);
      PredsStep(kind, 4 * (b - 1) + 3);
    }
    PredsInMcu(kind, b, McuPreds(kind, b));
  }

  /** The four differences of MCU `b`. */
  lemma DiffsOfMcu(kind: Kind, b: nat)
    ensures var y, c := if kind.Busy? && b < 39 then 85 else 0, if kind.Busy? && b < 39 && b % 2 == 1 then 10 else 0;
            var y', c' := if kind.Busy? && 0 < b < 40 then 85 else 0, if kind.Busy? && 0 < b < 40 && b % 2 == 0 then 10 else 0;
            && DiffAt(kind, 4 * b) == (if kind.Plain? && b == 0 then WATERMARK_LUMINANCE else -y') && DiffAt(kind, 4 * b + 1) == y
            && DiffAt(kind, 4 * b + 2) == DiffAt(kind, 4 * b + 3) == c - c'
  {
    hide PredsAt, LevelAt, PredictorOf, ComponentOf;
    PredsOfMcu(kind, b);
    LevelsOfMcu(kind, b);
    if b > 0 {
      LevelsOfMcu(kind, b - 1);
    }
  }

  /** Every difference is one of those the codes are known for. */
  lemma DiffsOk(kind: Kind, t: nat)
    requires t < 160
    ensures DiffOk(ComponentOf(t), DiffAt(kind, t))
  {
    var b, k := t / 4, t % 4;
    assert t == 4 * b + k;
    DiffsOfMcu(kind, b);
    LevelsOfMcu(kind, b);
    hide DiffAt;
  }

  /** The bits of MCU `b`: 52 in the middle of the busy line. */
  lemma LenOfMcu(kind: Kind, b: nat)
    requires b < 40
    ensures LenFrom(kind, 4 * b) ==
            (match kind
             case Quietest => 20
             case Plain => (if b == 0 then 28 else 20)
             case Busy => (if b == 0 || b == 39 then 30 else 52)) + LenFrom(kind, 4 * b + 4)
  {
    DiffsOfMcu(kind, b);
    LevelsOfMcu(kind, b);
    hide DiffAt, ComponentOf;
    assert LenFrom(kind, 4 * b + 2) == LenAt(kind, 4 * b + 2) + (LenAt(kind, 4 * b + 3) + LenFrom(kind, 4 * b + 4));
  }

  lemma {:induction false} LenOfLine(kind: Kind, b: nat)
    requires b <= 40
    ensures LenFrom(kind, 4 * b) ==
            match kind
            case Quietest => 20 * (40 - b)
            case Plain => 20 * (40 - b) + (if b == 0 then 8 else 0)
            case Busy => if b == 40 then 0 else if b == 0 then 2036 else 30 + 52 * (39 - b)
    decreases 40 - b
  {
    hide LenAt;
    if b < 40 {
      LenOfMcu(kind, b);
      LenOfLine(kind, b + 1);
      assert 4 * (b + 1) == 4 * b + 4;
    }
  }

  /** The blocks of a line are flat, with these DC values. */
  predicate FlatLine(qs: seq<Block>, kind: Kind) {
    |qs| == 160 && forall t: nat :: t < 160 ==> qs[t] == DcBlock(LevelAt(kind, t))
  }

  lemma FlatStep(tables: Tables, qs: seq<Block>, kind: Kind, t: nat, preds: Predictors, preds': Predictors)
    requires TablesFull(tables) && FlatCodes(tables.luma, Luma) && FlatCodes(tables.chroma, Chroma)
    requires FlatLine(qs, kind) && t < 160 && preds == PredsAt(kind, t) && preds' == PredsAt(kind, t + 1)
    requires LineEncodable(qs, t + 1, preds') && Calm(LineBits(tables, qs, t + 1, preds'))
    ensures LineEncodable(qs, t, preds) && Calm(LineBits(tables, qs, t, preds))
    ensures |LineBits(tables, qs, t, preds)| == LenAt(kind, t) + |LineBits(tables, qs, t + 1, preds')|
  {
    var c, v, pred := ComponentOf(t), LevelAt(kind, t), preds[PredictorOf(t)];
    hide LevelAt, Calm, FullTables, BlockBits, Encodable, DcBlock;
    assert preds' == preds[PredictorOf(t) := v];
    DiffsOk(kind, t);
    BlockStep(tables.Ctx(c), c, v, pred);
    assert DcBlock(v)[0] == v by {
      DcBlockAt(v, 0);
    }
    CalmAppend(BlockBits(tables.Ctx(c), qs[t], pred), LineBits(tables, qs, t + 1, preds'));
  }

  lemma BlockStep(ctx: HuffmanCtx, c: Component, v: int, pred: int)
    requires FlatCodes(ctx, c) && DiffOk(c, v - pred)
    ensures Encodable(DcBlock(v), pred) && Calm(BlockBits(ctx, DcBlock(v), pred))
    ensures |BlockBits(ctx, DcBlock(v), pred)| == FlatLen(c, v - pred)
  {
    hide Magnitude, Calm, FlatBits, BlockBits, Encodable, DcBlock, FullTables;
    FlatBlockBits(ctx, v, pred);
  }

  lemma {:induction false} FlatSuffix(tables: Tables, qs: seq<Block>, kind: Kind, t: nat)
    requires TablesFull(tables) && FlatCodes(tables.luma, Luma) && FlatCodes(tables.chroma, Chroma)
    requires FlatLine(qs, kind) && t <= 160
    ensures LineEncodable(qs, t, PredsAt(kind, t))
    ensures Calm(LineBits(tables, qs, t, PredsAt(kind, t))) && |LineBits(tables, qs, t, PredsAt(kind, t))| == LenFrom(kind, t)
    decreases 160 - t
  {
    hide FlatCodes, FullTables, FlatLine, PredsAt;
    if t < 160 {
      FlatSuffix(tables, qs, kind, t + 1);
      FlatStep(tables, qs, kind, t, PredsAt(kind, t), PredsAt(kind, t + 1));
    } else {
      assert |qs| == 160 by {
        FlatLineSize(qs, kind);
      }
    }
  }

  lemma FlatLineSize(qs: seq<Block>, kind: Kind)
    requires FlatLine(qs, kind)
    ensures |qs| == 160
  {
  }

  function ByteCount(kind: Kind): nat {
    match kind case Busy => 257 case Quietest => 102 case Plain => 103
  }

  /** The bytes of a line of flat blocks. */
  lemma FlatLineLength(tables: Tables, qs: seq<Block>, kind: Kind, rst: nat)
    requires TablesFull(tables) && FlatCodes(tables.luma, Luma) && FlatCodes(tables.chroma, Chroma) && FlatLine(qs, kind)
    ensures LineEncodable(qs, 0, RESET) && |LineBytes(tables, qs, rst)| == ByteCount(kind)
  {
    hide FlatCodes, FullTables, FlatLine, Calm, LineBits, SegmentBytes;
    FlatSuffix(tables, qs, kind, 0);
    LenOfLine(kind, 0);
    CalmSegment(LineBits(tables, qs, 0, RESET), rst);
  }

  // ---------- the strips ----------

  /** The sample value that gives a block its level. */
  function SampleAt(kind: Kind, t: nat): int {
    if LevelAt(kind, t) == CHROMA_LEVEL then 11 else LevelAt(kind, t)
  }

  /** The strip whose samples are constant on each block. */
  function FlatStrip(kind: Kind): Strip {
    seq(STRIP_SIZE, n requires 0 <= n < STRIP_SIZE =>
      (var p := Destination(n); ByteOf(SampleAt(kind, 4 * p.b + p.comp))))
  }

  function ByteOf(x: int): byte
    requires x == 0 || x == 11 || x == 60 || x == 85
  {
    x + 128
  }

  lemma SampleOfPlain(kind: Kind, t: nat)
    requires kind.Plain? && t < 2
    ensures SampleAt(kind, t) == WATERMARK_LUMINANCE
  {
  }

  lemma FlatRawSample(kind: Kind, t: nat, pos: nat)
    requires t < 160 && pos < 64
    ensures RawBlock(FlatStrip(kind), t / 4, t % 4)[pos] == SampleAt(kind, t)
  {
    hide LevelAt, SampleAt, Destination, Source;
    DestinationOfSource(Place(t / 4, t % 4, pos / 8, pos % 8));
    assert 4 * (t / 4) + t % 4 == t;
  }

  lemma MarkedFlat(marks: seq<nat>)
    ensures Marked(Flat(WATERMARK_LUMINANCE), marks) == Flat(WATERMARK_LUMINANCE)
  {
  }

  lemma FlatRawBlock(kind: Kind, t: nat)
    requires t < 160
    ensures RawBlock(FlatStrip(kind), t / 4, t % 4) == Flat(SampleAt(kind, t))
  {
    hide SampleAt, RawBlock, FlatStrip;
    var raw := RawBlock(FlatStrip(kind), t / 4, t % 4);
    forall pos | 0 <= pos < 64
      ensures raw[pos] == SampleAt(kind, t)
    {
      FlatRawSample(kind, t, pos);
    }
  }

  lemma FlatStripBlock(kind: Kind, line: nat, t: nat)
    requires t < 160 && (line != WATERMARK_LINE || kind.Plain?)
    ensures LineSamples(FlatStrip(kind), line, t) == Flat(SampleAt(kind, t))
  {
    hide SampleAt, RawBlock, FlatStrip, Marked, Flat;
    FlatRawBlock(kind, t);
    if kind.Plain? && t < 2 {
      SampleOfPlain(kind, t);
      MarkedFlat(WATERMARK_V);
      MarkedFlat(WATERMARK_T);
    }
  }

  lemma FirstReciprocals()
    ensures StandardCtx(Luma).HasQ(0) && StandardCtx(Luma).Q(0) == 128
    ensures StandardCtx(Chroma).HasQ(0) && StandardCtx(Chroma).Q(0) == 114
  {
  }

  lemma LevelOfSample(q: nat, x: int)
    requires (x == 0 && q <= 255) || ((x == 85 || x == 60) && q == 128) || (x == 11 && q == 114)
    ensures Quantize(FlatDc(x), q) == if x == 11 then CHROMA_LEVEL else x
  {
    if x == 0 {
      assert FlatDc(0) == 0 && FlatDc(0) * q == 0;
    }
  }

  lemma SampleOfComponent(kind: Kind, t: nat)
    ensures var x := SampleAt(kind, t);
            x == 0 || ((x == 85 || x == 60) && ComponentOf(t) == Luma) || (x == 11 && ComponentOf(t) == Chroma)
    ensures var x := SampleAt(kind, t); LevelAt(kind, t) == if x == 11 then CHROMA_LEVEL else x
  {
  }

  lemma FlatLineBlock(tables: Tables, kind: Kind, line: nat, t: nat)
    requires TablesOk(tables) && t < 160 && (line != WATERMARK_LINE || kind.Plain?)
    requires tables.luma.Q(0) == 128 && tables.chroma.Q(0) == 114
    ensures LineBlock(tables, FlatStrip(kind), line, t) == DcBlock(LevelAt(kind, t))
  {
    hide LevelAt, SampleAt, FlatStrip, LineSamples, Quantized, Transform, Flat, FlatDc, Quantize, DcBlock, ShortCodes;
    var c, x := ComponentOf(t), SampleAt(kind, t);
    FlatStripBlock(kind, line, t);
    SampleOfComponent(kind, t);
    LevelOfSample(tables.Ctx(c).Q(0), x);
    FlatQuantized(tables.Ctx(c), c, x, LevelAt(kind, t));
  }

  lemma FlatStripBlocks(tables: Tables, kind: Kind, line: nat)
    requires TablesOk(tables) && (line != WATERMARK_LINE || kind.Plain?)
    requires tables.luma.Q(0) == 128 && tables.chroma.Q(0) == 114
    ensures FlatLine(LineBlocks(tables, FlatStrip(kind), line), kind)
  {
    hide LevelAt, FlatStrip, LineBlock, TablesOk, DcBlock;
    forall t: nat | t < 160
      ensures LineBlock(tables, FlatStrip(kind), line, t) == DcBlock(LevelAt(kind, t))
    {
      FlatLineBlock(tables, kind, line, t);
    }
  }

  /** A busy line takes 257 bytes and the quietest one 102 under any number but that of the watermark, a plain one 103 under any. */
  lemma FlatEncodedLength(tables: Tables, kind: Kind, line: nat)
    requires TablesOk(tables) && tables.luma.Q(0) == 128 && tables.chroma.Q(0) == 114 && (line != WATERMARK_LINE || kind.Plain?)
    requires FlatCodes(tables.luma, Luma) && FlatCodes(tables.chroma, Chroma)
    ensures |EncodedLine(tables, FlatStrip(kind), line)| == ByteCount(kind)
  {
    hide TablesOk, FlatCodes, FlatLine, LineBlocks, LineBytes, LineEncodable, FullTables, FlatStrip;
    TablesOkIsFull(tables);
    LineBlocksSound(tables, FlatStrip(kind), line);
    FlatStripBlocks(tables, kind, line);
    FlatLineLength(tables, LineBlocks(tables, FlatStrip(kind), line), kind, line % 8);
  }

  // ---------- a capture that loses a marker byte ----------

  /** All that is used of the tables of jpegenc.c here. */
  ghost predicate FlatTables(tables: Tables) {
    && TablesOk(tables) && tables.luma.Q(0) == 128 && tables.chroma.Q(0) == 114
    && FlatCodes(tables.luma, Luma) && FlatCodes(tables.chroma, Chroma)
  }

  lemma StandardFlatTables()
    ensures FlatTables(StandardTables())
  {
    StandardTablesOk();
    FirstReciprocals();
    LumaFlatCodes();
    ChromaFlatCodes();
  }

  /** A busy strip, then the quietest ones; where there is a line with a watermark it is the plain one. */
  function LossyCapture(n: nat): (strips: seq<Strip>)
    ensures |strips| == n
  {
    seq(n, k requires 0 <= k < n => FlatStrip(KindAt(k)))
  }

  function KindAt(k: nat): Kind {
    if k == 0 then Busy else if k == WATERMARK_LINE then Plain else Quietest
  }

  lemma {:induction false} FlattenBound(lines: seq<seq<byte>>, b: nat)
    requires forall k :: 0 <= k < |lines| ==> |lines[k]| <= b
    ensures |Flatten(lines)| <= b * |lines|
    decreases |lines|
  {
    if lines != [] {
      FlattenBound(lines[1..], b);
      assert b * |lines| == b + b * |lines[1..]|;
    }
  }

  /** The lengths of its lines. */
  lemma LossyLengths(tables: Tables, n: nat, lines: seq<seq<byte>>, k: nat)
    requires FlatTables(tables) && lines == CaptureLines(tables, LossyCapture(n), InOrder(n)) && k < n
    ensures |lines[k]| == ByteCount(KindAt(k))
  {
    hide TablesOk, FlatCodes, FlatStrip, EncodedLine;
    FlatEncodedLength(tables, KindAt(k), k);
  }

  /** With either buffer size exactly the first line loses its marker byte: 257 is 1 modulo 128 and modulo 256. */
  lemma LossyCaptureLoses(tables: Tables, n: nat, size: nat, lines: seq<seq<byte>>)
    requires FlatTables(tables) && 2 <= n <= 60 && (size == 128 || size == 256)
    requires lines == CaptureLines(tables, LossyCapture(n), InOrder(n))
    ensures |lines[0]| == 257 && OnlyLoss(lines, size, 0) && Fits(lines) && MarkerAt(lines, 0) == 256
    ensures forall k :: 1 <= k < n ==> |lines[k]| == if k == 59 then 103 else 102
  {
    hide TablesOk, FlatTables, EncodedLine, CaptureLines;
    forall k | 0 <= k < n
      ensures |lines[k]| == ByteCount(KindAt(k))
    {
      LossyLengths(tables, n, lines, k);
    }
    FlattenBound(lines, 257);
  }

  /** The blocks of the first two lines differ. */
  lemma LossyLinesDiffer(tables: Tables)
    requires FlatTables(tables)
    ensures LineBlocks(tables, FlatStrip(Busy), 0) != LineBlocks(tables, FlatStrip(Quietest), 1)
  {
    hide TablesOk, FlatCodes, FlatStrip, LineBlocks, DcBlock;
    FlatStripBlocks(tables, Busy, 0);
    FlatStripBlocks(tables, Quietest, 1);
    DcBlockAt(LevelAt(Busy, 1), 0);
    DcBlockAt(LevelAt(Quietest, 1), 0);
  }

  lemma OneIsNoMarker(lines: seq<seq<byte>>, k: nat)
    requires k + 1 < |lines|
    ensures NoMarker(lines, k, 1)
  {
  }

  lemma {:induction false} NumberedFrom(nums: seq<nat>, line: nat, first: nat)
    requires forall i :: 0 <= i < |nums| ==> nums[i] == first + i
    requires line <= first < line + 8
    ensures Numbered(nums, line)
    decreases |nums|
  {
    if nums != [] {
      var rest := nums[1..];
      assert forall i :: 0 <= i < |rest| ==> rest[i] == nums[i + 1];
      NumberedFrom(rest, first + 1, first + 1);
    }
  }

  /**
   A lost marker byte with real consequences: for such a capture of 30 or of 60 lines, or of any number in between, the
   repository's tables and either buffer size, on a memory of ones the reader, asked for line 1, serves both lines, and the
   decoder finds line 0 in them.
   */
  lemma LossHappens(n: nat, size: nat, m0: Memory, lines: seq<seq<byte>>, m: Memory)
    requires 2 <= n <= 60 && (size == 128 || size == 256) && m0 == seq(MRAM_SIZE, _ => 1)
    requires lines == StandardLines(LossyCapture(n)) && m == Captured(m0, lines, size)
    ensures OnlyLoss(lines, size, 0) && lines[0] != []
    ensures Scan(m, IMAGE_DATA_START, IMAGE_DATA_START, 0).Some? && LoopLeaves(m, Indexed(m))
    ensures LineRead(Indexed(m), 1).0 == Joined(lines[0], 1, lines[1])
    ensures DecodeLine(StandardDecoders(), Joined(lines[0], 1, lines[1]), BLOCKS_PER_LINE) ==
            Some(StandardBlocks(LossyCapture(n)[0], 0))
    ensures StandardBlocks(LossyCapture(n)[0], 0) != StandardBlocks(LossyCapture(n)[1], 1)
  {
    StandardTablesOk();
    StandardTablesMatch();
    StandardFlatTables();
    hide TablesOk, Matches, FlatTables, LineBlocks, Scan, Indexed, Captured, LineRead, DecodeLine, Joined, StandardTables,
         StandardDecoders, CaptureLines, LossyCapture, OnlyLoss;
    LossInCapture(StandardTables(), StandardDecoders(), n, size, m0, lines);
  }

  lemma LossInCapture(tables: Tables, decoders: Decoders, n: nat, size: nat, m0: Memory, lines: seq<seq<byte>>)
    requires FlatTables(tables) && Matches(tables, decoders) && 2 <= n <= 60
    requires lines == CaptureLines(tables, LossyCapture(n), InOrder(n))
    requires (size == 128 || size == 256) && m0 == seq(MRAM_SIZE, _ => 1)
    ensures OnlyLoss(lines, size, 0) && lines[0] != []
    ensures var m := Captured(m0, lines, size);
            && Scan(m, IMAGE_DATA_START, IMAGE_DATA_START, 0).Some? && LoopLeaves(m, Indexed(m))
            && LineRead(Indexed(m), 1).0 == Joined(lines[0], 1, lines[1])
            && DecodeLine(decoders, Joined(lines[0], 1, lines[1]), BLOCKS_PER_LINE) ==
               Some(LineBlocks(tables, LossyCapture(n)[0], 0))
    ensures LineBlocks(tables, LossyCapture(n)[0], 0) != LineBlocks(tables, LossyCapture(n)[1], 1)
  {
    hide TablesOk, Matches, FlatCodes, FlatStrip, EncodedLine, LineBlocks, Indexed, Captured, LoopLeaves, LineRead, DecodeLine,
         Fits, NoMarker, Joined, Scan, Cell, CaptureLines, OnlyLoss;
    var nums := InOrder(n);
    LossyCaptureLoses(tables, n, size, lines);
    LossyLinesDiffer(tables);
    OneIsNoMarker(lines, 0);
    NumberedFrom(Without(nums, 0), 0, 1);
    LostMarkerServesWrongLine(m0, size, tables, decoders, LossyCapture(n), nums, 0, lines, 1, Captured(m0, lines, size));
  }

  lemma ResidueThree()
    ensures Fires(0xD3) && NextLine(0, 3) == 3
  {
  }

  /**
   The same capture on a memory of bytes 0xD3: every line but the first is served under its number plus eight, and the first
   under number 3 as the index leaves it.
   */
  lemma ShiftHappens(n: nat, size: nat, m0: Memory, lines: seq<seq<byte>>, j: nat, m: Memory)
    requires 2 <= n <= 60 && (size == 128 || size == 256) && m0 == seq(MRAM_SIZE, _ => 0xD3)
    requires lines == StandardLines(LossyCapture(n)) && m == Captured(m0, lines, size) && j < n
    ensures Scan(m, IMAGE_DATA_START, IMAGE_DATA_START, 0).Some? && LoopLeaves(m, Indexed(m)) && lines[0] != []
    ensures j > 0 ==> LineRead(Indexed(m), j + 8).0 == lines[j]
    ensures Serves(Indexed(m), 3, IMAGE_DATA_START, Spoilt(lines, 0, 0xD3), n + 8)
    ensures Read(Indexed(m), RecordAddr(0), RECORD_SIZE) == Read(m, RecordAddr(0), RECORD_SIZE)
  {
    StandardFlatTables();
    hide TablesOk, FlatTables, Scan, Indexed, Captured, LineRead, StandardTables, CaptureLines, LossyCapture, LoopLeaves, Read,
         OnlyLoss, Fits, AllQuiet, Cell, Spared, Serves, NextLine;
    CaptureLinesQuiet(StandardTables(), LossyCapture(n), InOrder(n));
    LossyCaptureLoses(StandardTables(), n, size, lines);
    ResidueThree();
    StaleMarkerShifts(m0, size, lines, 0, 0xD3, 3, 0, m);
    StaleMarkerShifts(m0, size, lines, 0, 0xD3, 3, j, m);
    if j > 0 {
      AboveRecords(lines, n, j);
    }
  }

  /** Only the first line lies where the records of numbers up to 68 can be. */
  lemma AboveRecords(lines: seq<seq<byte>>, n: nat, j: nat)
    requires n <= 60 && 0 < j < |lines| && |lines[0]| == 257
    ensures Spared(n + 8, IMAGE_DATA_START + Offset(lines, j))
  {
    assert Offset(lines, j) == |lines[0]| + Offset(lines[1..], j - 1);
  }

  // ---------- the first byte of the busy line ----------

  lemma SixtyFourHasBit()
    ensures BitsOf(64, 8)[1]
  {
    PowersUpTo64();
    assert Pow2(7) == 128;
  }

  /** A segment whose second bit is a zero does not begin with the byte 64. */
  lemma SecondBitZero(bits: seq<bool>, rst: nat)
    requires |bits| >= 8 && !bits[1]
    ensures |SegmentBytes(bits, rst)| > 0 && SegmentBytes(bits, rst)[0] != 64
  {
    var p := Padded(bits);
    var b := p[..8];
    BitsOfValue(b);
    SixtyFourHasBit();
    assert Pack(p)[0] == Value(b);
  }

  lemma LineBegins(tables: Tables, qs: seq<Block>)
    requires TablesFull(tables) && LineEncodable(qs, 0, RESET) && FlatLine(qs, Busy) && FlatCodes(tables.luma, Luma)
    requires tables.luma.DcCode(0) == [false, false] && |LineBits(tables, qs, 0, RESET)| >= 8
    ensures !LineBits(tables, qs, 0, RESET)[1]
  {
    hide FlatCodes, FullTables, DcBlock, VliBits, BlockBits, Encodable, HuffmanCtx.DcCode;
    assert LevelAt(Busy, 0) == 0 && ComponentOf(0) == Luma && RESET[PredictorOf(0)] == 0;
    LevelSizes();
    FlatBlockBits(tables.luma, 0, 0);
    FlatLineSize(qs, Busy);
  }

  lemma BusyBegins(tables: Tables, line: nat)
    requires FlatTables(tables) && tables.luma.DcCode(0) == [false, false] && line != WATERMARK_LINE
    ensures |EncodedLine(tables, FlatStrip(Busy), line)| > 0 && EncodedLine(tables, FlatStrip(Busy), line)[0] != 64
  {
    hide TablesOk, FlatCodes, FlatLine, LineBlocks, LineEncodable, FullTables, FlatStrip, LineBits, SegmentBytes, Calm;
    var qs := LineBlocks(tables, FlatStrip(Busy), line);
    TablesOkIsFull(tables);
    LineBlocksSound(tables, FlatStrip(Busy), line);
    FlatStripBlocks(tables, Busy, line);
    FlatSuffix(tables, qs, Busy, 0);
    LenOfLine(Busy, 0);
    LineBegins(tables, qs);
    SecondBitZero(LineBits(tables, qs, 0, RESET), line % 8);
  }

  /** What the memory holds at the start of the image before the index is written. */
  lemma FirstCell(m0: Memory, size: nat, lines: seq<seq<byte>>, nums: seq<nat>)
    requires size >= 2 && Fits(lines) && AllQuiet(lines, nums) && |lines| > 0
    ensures |lines[0]| >= 2 && Captured(m0, lines, size)[IMAGE_DATA_START] == lines[0][0]
  {
    hide AllStored, AsStored, Captured, Fits, HasBytes;
    var stored := AllStored(m0, IMAGE_DATA_START, lines, size);
    QuietIsWhole(lines, nums);
    StreamAsStored(m0, lines, size, stored);
    StoredAt(m0, IMAGE_DATA_START, lines, size, 0);
    StoredFirst(m0, IMAGE_DATA_START, lines[0], size);
    HasByteAt(Captured(m0, lines, size), IMAGE_DATA_START, Flatten(stored) + EOI, 0);
  }

  lemma StoredFirst(m0: Memory, pos: nat, line: seq<byte>, size: nat)
    requires size > 0 && |line| >= 2
    ensures AsStored(m0, pos, line, size)[0] == line[0]
  {
  }

  /** With 60 lines the index reaches number 68, and the first line is not whole any more: its first byte has become 64. */
  lemma OverwriteHappens(size: nat, m0: Memory, lines: seq<seq<byte>>, m: Memory)
    requires (size == 128 || size == 256) && m0 == seq(MRAM_SIZE, _ => 0xD3)
    requires lines == StandardLines(LossyCapture(60)) && m == Captured(m0, lines, size)
    ensures Scan(m, IMAGE_DATA_START, IMAGE_DATA_START, 0).Some?
    ensures IndexRun(m, IMAGE_DATA_START, IMAGE_DATA_START, 0, MRAM_SIZE) == Some((Indexed(m), 68))
    ensures Indexed(m)[IMAGE_DATA_START] == 64 && lines[0] != [] && m[IMAGE_DATA_START] == lines[0][0] != 64
  {
    StandardFlatTables();
    hide TablesOk, FlatTables, Scan, Indexed, Captured, StandardTables, CaptureLines, LossyCapture, IndexRun, OnlyLoss, Fits,
         AllQuiet, Cell;
    CaptureLinesQuiet(StandardTables(), LossyCapture(60), InOrder(60));
    LossyCaptureLoses(StandardTables(), 60, size, lines);
    ResidueThree();
    SixtyLines(m0, size, lines, 0, 0xD3, m);
    FirstCell(m0, size, lines, InOrder(60));
    BusyLineBegins(lines);
  }

  lemma BusyLineBegins(lines: seq<seq<byte>>)
    requires lines == StandardLines(LossyCapture(60))
    ensures lines[0] != [] && lines[0][0] != 64
  {
    StandardFlatTables();
    LumaCodes();
    hide TablesOk, FlatCodes, StandardCtx, EncodedLine, HuffmanCtx.DcCode, FlatStrip;
    BusyBegins(StandardTables(), 0);
  }
}
