/**
 The two-pass fixed-point DCT of STM32L1_Code/encoder/dct.c.

 Blocks are 64 numbers in row order. Every store into an `int16_t` is written `Int16`; `>>` is division
 rounding down. With arguments of type `int16_t` no 32-bit product or sum overflows.
 */
module Dct {
  import opened Bits

  const C1 := 16070
  const C2 := 15137
  const C3 := 13623
  const C4 := 11586
  const C5 := 9103
  const C6 := 6270
  const C7 := 3197

  datatype Vec = Vec(x0: int, x1: int, x2: int, x3: int, x4: int, x5: int, x6: int, x7: int) {
    function At(k: nat): int
      requires k < 8
    {
      match k
      case 0 => x0 case 1 => x1 case 2 => x2 case 3 => x3
      case 4 => x4 case 5 => x5 case 6 => x6 case 7 => x7
    }

    predicate Within(bound: int) {
      && -bound <= x0 <= bound && -bound <= x1 <= bound && -bound <= x2 <= bound && -bound <= x3 <= bound
      && -bound <= x4 <= bound && -bound <= x5 <= bound && -bound <= x6 <= bound && -bound <= x7 <= bound
    }
  }

  /** What one pass divides: sums and differences, each held in an `int16_t`, times the constants. */
  function Numerators16(v: Vec): Vec {
    var s07, d07 := Int16(v.x0 + v.x7), Int16(v.x0 - v.x7);
    var s16, d16 := Int16(v.x1 + v.x6), Int16(v.x1 - v.x6);
    var s25, d25 := Int16(v.x2 + v.x5), Int16(v.x2 - v.x5);
    var s34, d34 := Int16(v.x3 + v.x4), Int16(v.x3 - v.x4);
    var s0734, d0734 := Int16(s07 + s34), Int16(s07 - s34);
    var s1625, d1625 := Int16(s16 + s25), Int16(s16 - s25);
    Vec(C4 * (s0734 + s1625),
        C1 * d07 + C3 * d16 + C5 * d25 + C7 * d34,
        C2 * d0734 + C6 * d1625,
        C3 * d07 - C7 * d16 - C1 * d25 - C5 * d34,
        C4 * (s0734 - s1625),
        C5 * d07 - C1 * d16 + C7 * d25 + C3 * d34,
        C6 * d0734 - C2 * d1625,
        C7 * d07 - C5 * d16 + C3 * d25 - C1 * d34)
  }

  /** The shift at the end of a pass, given as its divisor, and the store into an `int16_t`. */
  function Quotients(n: Vec, d: nat): Vec
    requires d > 0
  {
    Vec(Int16(n.x0 / d), Int16(n.x1 / d), Int16(n.x2 / d), Int16(n.x3 / d),
        Int16(n.x4 / d), Int16(n.x5 / d), Int16(n.x6 / d), Int16(n.x7 / d))
  }

  /** One pass over eight values: the source's butterfly. */
  function Butterfly(v: Vec, d: nat): Vec
    requires d > 0
  {
    Quotients(Numerators16(v), d)
  }

  type Samples = p: seq<int> | |p| == 64 witness seq(64, _ => 0)

  function Row(p: Samples, i: nat): Vec
    requires i < 8
  {
    Vec(p[8 * i], p[8 * i + 1], p[8 * i + 2], p[8 * i + 3], p[8 * i + 4], p[8 * i + 5], p[8 * i + 6], p[8 * i + 7])
  }

  function Column(p: Samples, i: nat): Vec
    requires i < 8
  {
    Vec(p[i], p[8 + i], p[16 + i], p[24 + i], p[32 + i], p[40 + i], p[48 + i], p[56 + i])
  }

  const ROW_DIVISOR := 16384
  const COLUMN_DIVISOR := 65536

  /** The `rows` array after the first loop. */
  function RowPass(p: Samples): Samples {
    seq(64, t requires 0 <= t < 64 => Butterfly(Row(p, t / 8), ROW_DIVISOR).At(t % 8))
  }

  /** The `data` array after the second loop. */
  function ColumnPass(rows: Samples): Samples {
    seq(64, t requires 0 <= t < 64 => Butterfly(Column(rows, t % 8), COLUMN_DIVISOR).At(t / 8))
  }

  function Transform(p: Samples): Samples {
    ColumnPass(RowPass(p))
  }

  // ---------- the DCT matrix ----------

  /** Row `k` of the matrix M the butterfly factors: 2^15 times the DCT matrix of T.81 A.3.3, sizes rounded up. */
  function Matrix(k: nat): Vec
    requires k < 8
  {
    match k
    case 0 => Vec(C4, C4, C4, C4, C4, C4, C4, C4)
    case 1 => Vec(C1, C3, C5, C7, -C7, -C5, -C3, -C1)
    case 2 => Vec(C2, C6, -C6, -C2, -C2, -C6, C6, C2)
    case 3 => Vec(C3, -C7, -C1, -C5, C5, C1, C7, -C3)
    case 4 => Vec(C4, -C4, -C4, C4, C4, -C4, -C4, C4)
    case 5 => Vec(C5, -C1, C7, C3, -C3, -C7, C1, -C5)
    case 6 => Vec(C6, -C2, C2, -C6, -C6, C2, -C2, C6)
    case 7 => Vec(C7, -C5, C3, -C1, C1, -C3, C5, -C7)
  }

  function Dot(a: Vec, b: Vec): int {
    a.x0 * b.x0 + a.x1 * b.x1 + a.x2 * b.x2 + a.x3 * b.x3 + a.x4 * b.x4 + a.x5 * b.x5 + a.x6 * b.x6 + a.x7 * b.x7
  }

  /** What the butterfly divides, without the 16-bit stores. */
  function Numerators(v: Vec): Vec {
    var s07, d07, s16, d16 := v.x0 + v.x7, v.x0 - v.x7, v.x1 + v.x6, v.x1 - v.x6;
    var s25, d25, s34, d34 := v.x2 + v.x5, v.x2 - v.x5, v.x3 + v.x4, v.x3 - v.x4;
    var s0734, d0734, s1625, d1625 := s07 + s34, s07 - s34, s16 + s25, s16 - s25;
    Vec(C4 * (s0734 + s1625),
        C1 * d07 + C3 * d16 + C5 * d25 + C7 * d34,
        C2 * d0734 + C6 * d1625,
        C3 * d07 - C7 * d16 - C1 * d25 - C5 * d34,
        C4 * (s0734 - s1625),
        C5 * d07 - C1 * d16 + C7 * d25 + C3 * d34,
        C6 * d0734 - C2 * d1625,
        C7 * d07 - C5 * d16 + C3 * d25 - C1 * d34)
  }

  lemma QuotientAt(n: Vec, d: nat, k: nat)
    requires d > 0 && k < 8
    ensures Quotients(n, d).At(k) == Int16(n.At(k) / d)
  {
    hide Int16;
  }

  /** Up to 725 no sum or difference leaves 16 bits. */
  lemma SumsFit(v: Vec)
    requires v.Within(725)
    ensures Numerators16(v) == Numerators(v)
  {
  }

  lemma NoWrapInside(v: Vec, d: nat, k: nat)
    requires v.Within(725) && d > 0 && k < 8
    ensures Butterfly(v, d).At(k) == Int16(Numerators(v).At(k) / d)
  {
    hide Int16, Quotients, Numerators16, Numerators;
    SumsFit(v);
    QuotientAt(Numerators(v), d, k);
  }

  lemma Factorisation(v: Vec, k: nat)
    requires k < 8
    ensures Numerators(v).At(k) == Dot(Matrix(k), v)
  {
  }

  lemma DotBound(v: Vec, k: nat, b: int)
    requires b == 128 || b == 725
    requires v.Within(b) && k < 8
    ensures -92688 * b <= Dot(Matrix(k), v) <= 92688 * b
  {
    match k
    case 0 =>
    case 1 =>
    case 2 =>
    case 3 =>
    case 4 =>
    case 5 =>
    case 6 =>
    case 7 =>
  }

  /** On 16-bit sums and differences no product, partial sum or sum of the butterfly leaves 32 bits. */
  lemma ProductsFit(d07: int, d16: int, d25: int, d34: int)
    requires Int16(d07) == d07 && Int16(d16) == d16 && Int16(d25) == d25 && Int16(d34) == d34
    ensures Int32(C1 * d07) && Int32(C1 * d07 + C3 * d16) && Int32(C1 * d07 + C3 * d16 + C5 * d25)
            && Int32(C1 * d07 + C3 * d16 + C5 * d25 + C7 * d34)
    ensures Int32(C3 * d07 - C7 * d16) && Int32(C3 * d07 - C7 * d16 - C1 * d25) && Int32(C3 * d07 - C7 * d16 - C1 * d25 - C5 * d34)
    ensures Int32(C5 * d07 - C1 * d16) && Int32(C5 * d07 - C1 * d16 + C7 * d25) && Int32(C5 * d07 - C1 * d16 + C7 * d25 + C3 * d34)
    ensures Int32(C7 * d07 - C5 * d16) && Int32(C7 * d07 - C5 * d16 + C3 * d25) && Int32(C7 * d07 - C5 * d16 + C3 * d25 - C1 * d34)
    ensures Int32(C4 * (d07 + d16)) && Int32(C4 * (d07 - d16)) && Int32(C2 * d07 + C6 * d16) && Int32(C6 * d07 - C2 * d16)
  {
  }

  predicate Int32(x: int) {
    -0x8000_0000 <= x < 0x8000_0000
  }

  // ---------- ranges ----------

  predicate SamplesWithin(p: Samples, bound: int) {
    forall t :: 0 <= t < 64 ==> -bound <= p[t] <= bound
  }

  lemma RowIsProduct(v: Vec, k: nat)
    requires v.Within(128) && k < 8
    ensures Butterfly(v, ROW_DIVISOR).At(k) == Dot(Matrix(k), v) / ROW_DIVISOR
    ensures -725 <= Butterfly(v, ROW_DIVISOR).At(k) <= 725
  {
    NoWrapInside(v, ROW_DIVISOR, k);
    Factorisation(v, k);
    DotBound(v, k, 128);
  }

  lemma ColumnIsProduct(v: Vec, k: nat)
    requires v.Within(725) && k < 8
    ensures Butterfly(v, COLUMN_DIVISOR).At(k) == Dot(Matrix(k), v) / COLUMN_DIVISOR
    ensures -1026 <= Butterfly(v, COLUMN_DIVISOR).At(k) <= 1026
  {
    NoWrapInside(v, COLUMN_DIVISOR, k);
    Factorisation(v, k);
    DotBound(v, k, 725);
  }

  lemma RowPassRange(p: Samples)
    requires SamplesWithin(p, 128)
    ensures SamplesWithin(RowPass(p), 725)
  {
    forall t | 0 <= t < 64
      ensures -725 <= RowPass(p)[t] <= 725
    {
      RowIsProduct(Row(p, t / 8), t % 8);
    }
  }

  /** For 8-bit samples every row value is at most 725 and every output at most 1026 in size. */
  lemma TransformRange(p: Samples)
    requires SamplesWithin(p, 128)
    ensures SamplesWithin(RowPass(p), 725) && SamplesWithin(Transform(p), 1026)
  {
    RowPassRange(p);
    var rows := RowPass(p);
    forall t | 0 <= t < 64
      ensures -1026 <= Transform(p)[t] <= 1026
    {
      ColumnIsProduct(Column(rows, t % 8), t / 8);
    }
  }

  // ---------- accuracy ----------

  /** Row `i` of M times each row of the block: column `i` of P * transpose(M). */
  function RowProducts(p: Samples, i: nat): Vec
    requires i < 8
  {
    var m := Matrix(i);
    Vec(Dot(m, Row(p, 0)), Dot(m, Row(p, 1)), Dot(m, Row(p, 2)), Dot(m, Row(p, 3)),
        Dot(m, Row(p, 4)), Dot(m, Row(p, 5)), Dot(m, Row(p, 6)), Dot(m, Row(p, 7)))
  }

  /** Entry (k, i) of M * P * transpose(M), exactly: 2^30 times the coefficient. */
  function Exact(p: Samples, k: nat, i: nat): int
    requires k < 8 && i < 8
  {
    Dot(Matrix(k), RowProducts(p, i))
  }

  /** Rounding down the eight row products before the second product changes it by this much at most. */
  lemma RoundedRows(k: nat, exact: Vec, rounded: Vec)
    requires k < 8
    requires forall r | 0 <= r < 8 :: rounded.At(r) == exact.At(r) / ROW_DIVISOR
    ensures var e := Dot(Matrix(k), exact) - ROW_DIVISOR * Dot(Matrix(k), rounded);
            if k == 0 then 0 <= e <= 92688 * ROW_DIVISOR else -46344 * ROW_DIVISOR <= e <= 46344 * ROW_DIVISOR
  {
    assert forall r | 0 <= r < 8 :: 0 <= exact.At(r) - ROW_DIVISOR * rounded.At(r) < ROW_DIVISOR;
    assert exact.At(0) == exact.x0 && exact.At(1) == exact.x1 && exact.At(2) == exact.x2 && exact.At(3) == exact.x3;
    assert exact.At(4) == exact.x4 && exact.At(5) == exact.x5 && exact.At(6) == exact.x6 && exact.At(7) == exact.x7;
  }

  lemma ColumnAt(p: Samples, i: nat, r: nat)
    requires i < 8 && r < 8
    ensures Column(p, i).At(r) == p[8 * r + i]
  {
  }

  lemma RowProductsAt(p: Samples, i: nat, r: nat)
    requires i < 8 && r < 8
    ensures RowProducts(p, i).At(r) == Dot(Matrix(i), Row(p, r))
  {
  }

  lemma RowPassAt(p: Samples, i: nat, k: nat)
    requires i < 8 && k < 8
    ensures RowPass(p)[8 * i + k] == Butterfly(Row(p, i), ROW_DIVISOR).At(k)
  {
    assert (8 * i + k) / 8 == i && (8 * i + k) % 8 == k;
  }

  lemma ColumnPassAt(rows: Samples, k: nat, i: nat)
    requires i < 8 && k < 8
    ensures ColumnPass(rows)[8 * k + i] == Butterfly(Column(rows, i), COLUMN_DIVISOR).At(k)
  {
    assert (8 * k + i) / 8 == k && (8 * k + i) % 8 == i;
  }

  lemma ColumnOfRows(p: Samples, i: nat, r: nat)
    requires SamplesWithin(p, 128) && i < 8 && r < 8
    ensures Column(RowPass(p), i).At(r) == RowProducts(p, i).At(r) / ROW_DIVISOR
  {
    ColumnAt(RowPass(p), i, r);
    RowPassAt(p, r, i);
    RowProductsAt(p, i, r);
    RowIsProduct(Row(p, r), i);
  }

  lemma ErrorsAdd(k: nat, exact: int, rounded: int, out: int)
    requires out == rounded / COLUMN_DIVISOR
    requires var e := exact - ROW_DIVISOR * rounded;
             if k == 0 then 0 <= e <= 92688 * ROW_DIVISOR else -46344 * ROW_DIVISOR <= e <= 46344 * ROW_DIVISOR
    ensures -5 * 0x2000_0000 < exact - 0x4000_0000 * out < 5 * 0x2000_0000
    ensures k != 0 ==> -7 * 0x1000_0000 < exact - 0x4000_0000 * out < 7 * 0x1000_0000
  {
  }

  /**
   Accuracy: each output of the two truncating passes is within 5/2 of the exact product M * P * transpose(M) / 2^30;
   outside the first row it is within 7/4.
   */
  lemma Accuracy(p: Samples, k: nat, i: nat)
    requires SamplesWithin(p, 128) && k < 8 && i < 8
    ensures var error := Exact(p, k, i) - 0x4000_0000 * Transform(p)[8 * k + i];
            && -5 * 0x2000_0000 < error < 5 * 0x2000_0000
            && (k != 0 ==> -7 * 0x1000_0000 < error < 7 * 0x1000_0000)
  {
    RowPassRange(p);
    var exact, column := RowProducts(p, i), Column(RowPass(p), i);
    forall r | 0 <= r < 8
      ensures column.At(r) == exact.At(r) / ROW_DIVISOR
    {
      ColumnOfRows(p, i, r);
    }
    RoundedRows(k, exact, column);
    ColumnPassAt(RowPass(p), k, i);
    ColumnIsProduct(column, k);
    ErrorsAdd(k, Dot(Matrix(k), exact), Dot(Matrix(k), column), Transform(p)[8 * k + i]);
  }

  // ---------- the function of the source ----------

  method StoreRow(a: array<int>, i: nat, v: Vec)
    requires a.Length == 64 && i < 8
    modifies a
    ensures forall t :: 0 <= t < 64 ==> a[t] == if t / 8 == i then v.At(t % 8) else old(a[t])
  {
    a[8 * i], a[8 * i + 1], a[8 * i + 2], a[8 * i + 3] := v.x0, v.x1, v.x2, v.x3;
    a[8 * i + 4], a[8 * i + 5], a[8 * i + 6], a[8 * i + 7] := v.x4, v.x5, v.x6, v.x7;
  }

  method StoreColumn(a: array<int>, i: nat, v: Vec)
    requires a.Length == 64 && i < 8
    modifies a
    ensures forall t :: 0 <= t < 64 ==> a[t] == if t % 8 == i then v.At(t / 8) else old(a[t])
  {
    a[i], a[8 + i], a[16 + i], a[24 + i] := v.x0, v.x1, v.x2, v.x3;
    a[32 + i], a[40 + i], a[48 + i], a[56 + i] := v.x4, v.x5, v.x6, v.x7;
  }

  /** One iteration of either loop: the butterfly on eight values, each sum and difference held in an `int16_t`. */
  method Pass(v: Vec, d: nat) returns (r: Vec)
    requires d > 0
    ensures r == Butterfly(v, d)
  {
    hide Int16;
    var s07, d07 := Int16(v.x0 + v.x7), Int16(v.x0 - v.x7);
    var s16, d16 := Int16(v.x1 + v.x6), Int16(v.x1 - v.x6);
    var s25, d25 := Int16(v.x2 + v.x5), Int16(v.x2 - v.x5);
    var s34, d34 := Int16(v.x3 + v.x4), Int16(v.x3 - v.x4);
    var n1, n3 := C1 * d07 + C3 * d16 + C5 * d25 + C7 * d34, C3 * d07 - C7 * d16 - C1 * d25 - C5 * d34;
    var n5, n7 := C5 * d07 - C1 * d16 + C7 * d25 + C3 * d34, C7 * d07 - C5 * d16 + C3 * d25 - C1 * d34;
    var s0734, d0734 := Int16(s07 + s34), Int16(s07 - s34);
    var s1625, d1625 := Int16(s16 + s25), Int16(s16 - s25);
    var n0, n4 := C4 * (s0734 + s1625), C4 * (s0734 - s1625);
    var n2, n6 := C2 * d0734 + C6 * d1625, C6 * d0734 - C2 * d1625;
    assert Vec(n0, n1, n2, n3, n4, n5, n6, n7) == Numerators16(v);
    r := Vec(Int16(n0 / d), Int16(n1 / d), Int16(n2 / d), Int16(n3 / d),
             Int16(n4 / d), Int16(n5 / d), Int16(n6 / d), Int16(n7 / d));
  }

  /** `dct`: transforms in two loops; `pixels` and `data` may be the same array. */
  method Dct(pixels: array<int>, data: array<int>)
    requires pixels.Length == 64 && data.Length == 64
    modifies data
    ensures data[..] == Transform(old(pixels[..]))
  {
    hide Butterfly, ColumnPass;
    ghost var p: Samples := pixels[..];
    var rows := new int[64];
    var i := 0;
    while i < 8
      invariant 0 <= i <= 8
      invariant pixels[..] == p
      invariant forall t :: 0 <= t < 64 && t / 8 < i ==> rows[t] == RowPass(p)[t]
    {
      var v := Vec(pixels[8 * i], pixels[8 * i + 1], pixels[8 * i + 2], pixels[8 * i + 3],
                   pixels[8 * i + 4], pixels[8 * i + 5], pixels[8 * i + 6], pixels[8 * i + 7]);
      assert v == Row(p, i);
      var r := Pass(v, ROW_DIVISOR);
      StoreRow(rows, i, r);
      i := i + 1;
    }
    assert rows[..] == RowPass(p);
    ColumnLoop(rows, data);
  }

  /** The second loop of `dct`. */
  method ColumnLoop(rows: array<int>, data: array<int>)
    requires rows.Length == 64 && data.Length == 64 && rows != data
    modifies data
    ensures data[..] == ColumnPass(rows[..])
  {
    hide Butterfly;
    ghost var q: Samples := rows[..];
    var i := 0;
    while i < 8
      invariant 0 <= i <= 8
      invariant rows[..] == q
      invariant forall t :: 0 <= t < 64 && t % 8 < i ==> data[t] == ColumnPass(q)[t]
    {
      var v := Vec(rows[i], rows[8 + i], rows[16 + i], rows[24 + i],
                   rows[32 + i], rows[40 + i], rows[48 + i], rows[56 + i]);
      assert v == Column(q, i);
      var c := Pass(v, COLUMN_DIVISOR);
      StoreColumn(data, i, c);
      i := i + 1;
    }
  }
}
