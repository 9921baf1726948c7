/**
 The fixed-point DCT and the quantiser against the DCT of T.81 A.3.3 itself, over the real numbers.
 */
module Cosines {
  import opened HuffmanTables
  import opened BlockCoding
  import opened Dct
  import opened Quantizer
  import opened Strip

  /** 2^14 times the cosines of pi/16, 2*pi/16, ..., 7*pi/16. */
  datatype Cosines = Cosines(c1: real, c2: real, c3: real, c4: real, c5: real, c6: real, c7: real) {
    /** 2^14 times the cosine of `a` * pi/16, for angles up to pi/2. */
    function At(a: nat): real
      requires a <= 8
    {
      match a
      case 0 => 16384.0 case 1 => c1 case 2 => c2 case 3 => c3 case 4 => c4
      case 5 => c5 case 6 => c6 case 7 => c7 case 8 => 0.0
    }

    /** For any angle: the cosine has period 2*pi, is even, and changes sign at pi/2. */
    function Angle(n: nat): real {
      var m := n % 32;
      var a := if m > 16 then 32 - m else m;
      if a > 8 then -At(16 - a) else At(a)
    }

    /** The half-angle formulas, downwards from the cosine of pi/2; they determine all seven. */
    predicate HalfAngles() {
      && c1 >= 0.0 && c2 >= 0.0 && c3 >= 0.0 && c4 >= 0.0 && c5 >= 0.0 && c6 >= 0.0 && c7 >= 0.0
      && 2.0 * (c4 * c4) == 16384.0 * 16384.0
      && 2.0 * (c2 * c2) == 16384.0 * (16384.0 + c4) && 2.0 * (c6 * c6) == 16384.0 * (16384.0 - c4)
      && 2.0 * (c1 * c1) == 16384.0 * (16384.0 + c2) && 2.0 * (c7 * c7) == 16384.0 * (16384.0 - c2)
      && 2.0 * (c3 * c3) == 16384.0 * (16384.0 + c6) && 2.0 * (c5 * c5) == 16384.0 * (16384.0 - c6)
    }
  }

  function AbsR(x: real): real {
    if x < 0.0 then -x else x
  }

  // ---------- how near the constants are ----------

  lemma MulMonoR(a: real, b: real, d: real)
    requires a <= b && 0.0 <= d
    ensures a * d <= b * d
  {
    assert b * d - a * d == (b - a) * d;
  }

  lemma Positive(a: real, b: real)
    requires a > 0.0 && b > 0.0
    ensures a * b > 0.0
  {
  }

  lemma SquareGrows(x: real, y: real)
    requires 0.0 <= x < y
    ensures x * x < y * y
  {
    Positive(y - x, y + x);
    assert y * y - x * x == (y - x) * (y + x);
  }

  lemma Root(x: real, lo: real, hi: real)
    requires x >= 0.0 && 0.0 <= lo && 0.0 <= hi && lo * lo <= x * x <= hi * hi
    ensures lo <= x <= hi
  {
    if x < lo {
      SquareGrows(x, lo);
    } else if x > hi {
      SquareGrows(hi, x);
    }
  }

  lemma SameSquare(x: real, y: real)
    requires x >= 0.0 && y >= 0.0 && x * x == y * y
    ensures x == y
  {
    if x < y {
      SquareGrows(x, y);
    } else if y < x {
      SquareGrows(y, x);
    }
  }

  /** There are no other numbers with these formulas. */
  lemma HalfAnglesDetermine(c: Cosines, d: Cosines)
    requires c.HalfAngles() && d.HalfAngles()
    ensures c == d
  {
    SameSquare(c.c4, d.c4);
    SameSquare(c.c2, d.c2);
    SameSquare(c.c6, d.c6);
    SameSquare(c.c1, d.c1);
    SameSquare(c.c7, d.c7);
    SameSquare(c.c3, d.c3);
    SameSquare(c.c5, d.c5);
  }

  /** Where the cosines lie. */
  lemma CosineRanges(c: Cosines)
    requires c.HalfAngles()
    ensures 16069.1 <= c.c1 <= 16069.3 && 15136.8 <= c.c2 <= 15136.9 && 13622.7 <= c.c3 <= 13622.9
    ensures 11585.2 <= c.c4 <= 11585.3 && 9102.3 <= c.c5 <= 9102.6 && 6269.8 <= c.c6 <= 6270.0
    ensures 3196.2 <= c.c7 <= 3196.6
  {
    Root(c.c4, 11585.23, 11585.24);
    Root(c.c2, 15136.84, 15136.85);
    Root(c.c6, 6269.88, 6269.9);
    Root(c.c1, 16069.1, 16069.3);
    Root(c.c7, 3196.2, 3196.6);
    Root(c.c3, 13622.7, 13622.9);
    Root(c.c5, 9102.3, 9102.6);
  }

  /** Each constant of the source is its cosine rounded up. */
  lemma ConstantsRoundUp(c: Cosines)
    requires c.HalfAngles()
    ensures 0.0 <= C1 as real - c.c1 < 1.0 && 0.0 <= C2 as real - c.c2 < 1.0 && 0.0 <= C3 as real - c.c3 < 1.0
    ensures 0.0 <= C4 as real - c.c4 < 1.0 && 0.0 <= C5 as real - c.c5 < 1.0 && 0.0 <= C6 as real - c.c6 < 1.0
    ensures 0.0 <= C7 as real - c.c7 < 1.0
  {
    hide Cosines.HalfAngles;
    CosineRanges(c);
  }

  // ---------- the transform of T.81 ----------

  datatype RVec = RVec(x0: real, x1: real, x2: real, x3: real, x4: real, x5: real, x6: real, x7: real)

  function Times(x: real, y: real): real {
    x * y
  }

  function DotR(a: RVec, b: RVec): real {
    Times(a.x0, b.x0) + Times(a.x1, b.x1) + Times(a.x2, b.x2) + Times(a.x3, b.x3)
    + Times(a.x4, b.x4) + Times(a.x5, b.x5) + Times(a.x6, b.x6) + Times(a.x7, b.x7)
  }

  /** 2^15 times C(u) / 2 * cos((2 x + 1) u pi / 16), where C(0) is the cosine of pi/4 and C(u) is 1 otherwise. */
  function Entry(c: Cosines, u: nat, x: nat): real {
    if u == 0 then c.At(4) else c.Angle((2 * x + 1) * u)
  }

  function Basis(c: Cosines, u: nat): RVec {
    RVec(Entry(c, u, 0), Entry(c, u, 1), Entry(c, u, 2), Entry(c, u, 3),
         Entry(c, u, 4), Entry(c, u, 5), Entry(c, u, 6), Entry(c, u, 7))
  }

  function Reals(v: Vec): RVec {
    RVec(v.x0 as real, v.x1 as real, v.x2 as real, v.x3 as real, v.x4 as real, v.x5 as real, v.x6 as real, v.x7 as real)
  }

  /** The sums over each row of the block, for horizontal frequency `i`. */
  function RowSums(c: Cosines, p: Samples, i: nat): RVec {
    var b := Basis(c, i);
    RVec(DotR(b, Reals(Row(p, 0))), DotR(b, Reals(Row(p, 1))), DotR(b, Reals(Row(p, 2))), DotR(b, Reals(Row(p, 3))),
         DotR(b, Reals(Row(p, 4))), DotR(b, Reals(Row(p, 5))), DotR(b, Reals(Row(p, 6))), DotR(b, Reals(Row(p, 7))))
  }

  /** The DCT coefficient of T.81 A.3.3 with vertical frequency `k` and horizontal frequency `i`. */
  function Coefficient(c: Cosines, p: Samples, k: nat, i: nat): real {
    DotR(Basis(c, k), RowSums(c, p, i)) / 1073741824.0
  }

  // ---------- the integer matrix against the cosines ----------

  predicate Near(a: RVec, b: RVec, e: real) {
    && AbsR(a.x0 - b.x0) <= e && AbsR(a.x1 - b.x1) <= e && AbsR(a.x2 - b.x2) <= e && AbsR(a.x3 - b.x3) <= e
    && AbsR(a.x4 - b.x4) <= e && AbsR(a.x5 - b.x5) <= e && AbsR(a.x6 - b.x6) <= e && AbsR(a.x7 - b.x7) <= e
  }

  // The rows of the basis: every angle folded into the first quarter.

  lemma BasisRow0(c: Cosines)
    ensures Basis(c, 0) == RVec(c.c4, c.c4, c.c4, c.c4, c.c4, c.c4, c.c4, c.c4)
  {
  }

  lemma BasisRow1(c: Cosines)
    ensures Basis(c, 1) == RVec(c.c1, c.c3, c.c5, c.c7, -c.c7, -c.c5, -c.c3, -c.c1)
  {
    assert c.Angle(1) == c.c1 && c.Angle(3) == c.c3 && c.Angle(5) == c.c5 && c.Angle(7) == c.c7;
    assert c.Angle(9) == -c.c7 && c.Angle(11) == -c.c5 && c.Angle(13) == -c.c3 && c.Angle(15) == -c.c1;
  }

  lemma BasisRow2(c: Cosines)
    ensures Basis(c, 2) == RVec(c.c2, c.c6, -c.c6, -c.c2, -c.c2, -c.c6, c.c6, c.c2)
  {
    assert c.Angle(2) == c.c2 && c.Angle(6) == c.c6 && c.Angle(10) == -c.c6 && c.Angle(14) == -c.c2;
    assert c.Angle(18) == -c.c2 && c.Angle(22) == -c.c6 && c.Angle(26) == c.c6 && c.Angle(30) == c.c2;
  }

  lemma BasisRow3(c: Cosines)
    ensures Basis(c, 3) == RVec(c.c3, -c.c7, -c.c1, -c.c5, c.c5, c.c1, c.c7, -c.c3)
  {
    assert c.Angle(3) == c.c3 && c.Angle(9) == -c.c7 && c.Angle(15) == -c.c1 && c.Angle(21) == -c.c5;
    assert c.Angle(27) == c.c5 && c.Angle(33) == c.c1 && c.Angle(39) == c.c7 && c.Angle(45) == -c.c3;
  }

  lemma BasisRow4(c: Cosines)
    ensures Basis(c, 4) == RVec(c.c4, -c.c4, -c.c4, c.c4, c.c4, -c.c4, -c.c4, c.c4)
  {
    assert c.Angle(4) == c.c4 && c.Angle(12) == -c.c4 && c.Angle(20) == -c.c4 && c.Angle(28) == c.c4;
    assert c.Angle(36) == c.c4 && c.Angle(44) == -c.c4 && c.Angle(52) == -c.c4 && c.Angle(60) == c.c4;
  }

  lemma BasisRow5(c: Cosines)
    ensures Basis(c, 5) == RVec(c.c5, -c.c1, c.c7, c.c3, -c.c3, -c.c7, c.c1, -c.c5)
  {
    assert c.Angle(5) == c.c5 && c.Angle(15) == -c.c1 && c.Angle(25) == c.c7 && c.Angle(35) == c.c3;
    assert c.Angle(45) == -c.c3 && c.Angle(55) == -c.c7 && c.Angle(65) == c.c1 && c.Angle(75) == -c.c5;
  }

  lemma BasisRow6(c: Cosines)
    ensures Basis(c, 6) == RVec(c.c6, -c.c2, c.c2, -c.c6, -c.c6, c.c2, -c.c2, c.c6)
  {
    assert c.Angle(6) == c.c6 && c.Angle(18) == -c.c2 && c.Angle(30) == c.c2 && c.Angle(42) == -c.c6;
    assert c.Angle(54) == -c.c6 && c.Angle(66) == c.c2 && c.Angle(78) == -c.c2 && c.Angle(90) == c.c6;
  }

  lemma BasisRow7(c: Cosines)
    ensures Basis(c, 7) == RVec(c.c7, -c.c5, c.c3, -c.c1, c.c1, -c.c3, c.c5, -c.c7)
  {
    assert c.Angle(7) == c.c7 && c.Angle(21) == -c.c5 && c.Angle(35) == c.c3 && c.Angle(49) == -c.c1;
    assert c.Angle(63) == c.c1 && c.Angle(77) == -c.c3 && c.Angle(91) == c.c5 && c.Angle(105) == -c.c7;
  }

  /** Every entry of the matrix is within 1 of the cosine it stands for. */
  lemma BasisNear(c: Cosines, u: nat)
    requires c.HalfAngles() && u < 8
    ensures Near(Basis(c, u), Reals(Matrix(u)), 1.0)
  {
    hide Cosines.HalfAngles, Basis;
    ConstantsRoundUp(c);
    match u
    case 0 => BasisRow0(c);
    case 1 => BasisRow1(c);
    case 2 => BasisRow2(c);
    case 3 => BasisRow3(c);
    case 4 => BasisRow4(c);
    case 5 => BasisRow5(c);
    case 6 => BasisRow6(c);
    case 7 => BasisRow7(c);
  }

  function AbsSum(v: RVec): real {
    AbsR(v.x0) + AbsR(v.x1) + AbsR(v.x2) + AbsR(v.x3) + AbsR(v.x4) + AbsR(v.x5) + AbsR(v.x6) + AbsR(v.x7)
  }

  lemma MatrixAbsSum(k: nat)
    requires k < 8
    ensures AbsSum(Reals(Matrix(k))) <= 92688.0
  {
  }

  lemma AbsTimes(x: real, y: real, a: real, b: real)
    requires AbsR(x) <= a && AbsR(y) <= b
    ensures AbsR(Times(x, y)) <= Times(a, b)
  {
    var ax, ay := AbsR(x), AbsR(y);
    assert AbsR(x * y) == ax * ay;
    MulMonoR(ax, a, ay);
    MulMonoR(ay, b, a);
  }

  lemma SplitError(r: real, m: real, a: real, v: real)
    ensures Times(r, a) - Times(m, v) == Times(r, a - v) + Times(r - m, v)
  {
    assert r * a - m * v == r * (a - v) + (r - m) * v;
  }

  /** One product, with its first factor off by at most 1 and its second by at most `e`. */
  lemma TermNear(r: real, m: real, a: real, v: real, e: real, b: real)
    requires AbsR(r - m) <= 1.0 && AbsR(a - v) <= e && AbsR(v) <= b
    ensures AbsR(Times(r, a) - Times(m, v)) <= Times(AbsR(m), e) + (e + b)
  {
    hide Times;
    SplitError(r, m, a, v);
    AbsTimes(r, a - v, AbsR(m) + 1.0, e);
    AbsTimes(r - m, v, 1.0, b);
    DistributeTwo(AbsR(m), 1.0, e);
    TimesOne(e);
    TimesOne(b);
  }

  lemma TimesOne(x: real)
    ensures Times(1.0, x) == x
  {
  }

  lemma DistributeTwo(x: real, y: real, e: real)
    ensures Times(x + y, e) == Times(x, e) + Times(y, e)
  {
    assert (x + y) * e == x * e + y * e;
  }

  predicate Bounded(v: RVec, b: real) {
    && AbsR(v.x0) <= b && AbsR(v.x1) <= b && AbsR(v.x2) <= b && AbsR(v.x3) <= b
    && AbsR(v.x4) <= b && AbsR(v.x5) <= b && AbsR(v.x6) <= b && AbsR(v.x7) <= b
  }

  lemma EightTerms(d0: real, d1: real, d2: real, d3: real, d4: real, d5: real, d6: real, d7: real,
                   a0: real, a1: real, a2: real, a3: real, a4: real, a5: real, a6: real, a7: real, g: real)
    requires AbsR(d0) <= a0 + g && AbsR(d1) <= a1 + g && AbsR(d2) <= a2 + g && AbsR(d3) <= a3 + g
    requires AbsR(d4) <= a4 + g && AbsR(d5) <= a5 + g && AbsR(d6) <= a6 + g && AbsR(d7) <= a7 + g
    ensures AbsR(d0 + d1 + d2 + d3 + d4 + d5 + d6 + d7) <= a0 + a1 + a2 + a3 + a4 + a5 + a6 + a7 + 8.0 * g
  {
  }

  lemma Distribute(x0: real, x1: real, x2: real, x3: real, x4: real, x5: real, x6: real, x7: real, e: real)
    ensures Times(x0 + x1 + x2 + x3 + x4 + x5 + x6 + x7, e) ==
            Times(x0, e) + Times(x1, e) + Times(x2, e) + Times(x3, e)
            + Times(x4, e) + Times(x5, e) + Times(x6, e) + Times(x7, e)
  {
    hide Times;
    DistributeTwo(x0, x1, e);
    DistributeTwo(x0 + x1, x2, e);
    DistributeTwo(x0 + x1 + x2, x3, e);
    DistributeTwo(x0 + x1 + x2 + x3, x4, e);
    DistributeTwo(x0 + x1 + x2 + x3 + x4, x5, e);
    DistributeTwo(x0 + x1 + x2 + x3 + x4 + x5, x6, e);
    DistributeTwo(x0 + x1 + x2 + x3 + x4 + x5 + x6, x7, e);
  }

  lemma DotNear(r: RVec, m: RVec, a: RVec, v: RVec, e: real, b: real)
    requires Near(r, m, 1.0) && Near(a, v, e) && Bounded(v, b)
    ensures AbsR(DotR(r, a) - DotR(m, v)) <= Times(AbsSum(m), e) + 8.0 * (e + b)
  {
    hide AbsR, Times;
    TermNear(r.x0, m.x0, a.x0, v.x0, e, b);
    TermNear(r.x1, m.x1, a.x1, v.x1, e, b);
    TermNear(r.x2, m.x2, a.x2, v.x2, e, b);
    TermNear(r.x3, m.x3, a.x3, v.x3, e, b);
    TermNear(r.x4, m.x4, a.x4, v.x4, e, b);
    TermNear(r.x5, m.x5, a.x5, v.x5, e, b);
    TermNear(r.x6, m.x6, a.x6, v.x6, e, b);
    TermNear(r.x7, m.x7, a.x7, v.x7, e, b);
    EightTerms(Times(r.x0, a.x0) - Times(m.x0, v.x0), Times(r.x1, a.x1) - Times(m.x1, v.x1),
               Times(r.x2, a.x2) - Times(m.x2, v.x2), Times(r.x3, a.x3) - Times(m.x3, v.x3),
               Times(r.x4, a.x4) - Times(m.x4, v.x4), Times(r.x5, a.x5) - Times(m.x5, v.x5),
               Times(r.x6, a.x6) - Times(m.x6, v.x6), Times(r.x7, a.x7) - Times(m.x7, v.x7),
               Times(AbsR(m.x0), e), Times(AbsR(m.x1), e), Times(AbsR(m.x2), e), Times(AbsR(m.x3), e),
               Times(AbsR(m.x4), e), Times(AbsR(m.x5), e), Times(AbsR(m.x6), e), Times(AbsR(m.x7), e), e + b);
    Distribute(AbsR(m.x0), AbsR(m.x1), AbsR(m.x2), AbsR(m.x3), AbsR(m.x4), AbsR(m.x5), AbsR(m.x6), AbsR(m.x7), e);
  }

  lemma TimesReal(x: int, y: int)
    ensures Times(x as real, y as real) == (x * y) as real
  {
  }

  lemma DotReal(m: Vec, v: Vec)
    ensures DotR(Reals(m), Reals(v)) == Dot(m, v) as real
  {
    hide Times;
    TimesReal(m.x0, v.x0);
    TimesReal(m.x1, v.x1);
    TimesReal(m.x2, v.x2);
    TimesReal(m.x3, v.x3);
    TimesReal(m.x4, v.x4);
    TimesReal(m.x5, v.x5);
    TimesReal(m.x6, v.x6);
    TimesReal(m.x7, v.x7);
  }

  // ---------- how near the transform is ----------

  lemma NearItself(v: RVec)
    ensures Near(v, v, 0.0)
  {
  }

  lemma WithinIsBounded(v: Vec, b: nat)
    requires v.Within(b)
    ensures Bounded(Reals(v), b as real)
  {
  }

  /** One row of samples. */
  lemma RowSumNear(c: Cosines, i: nat, v: Vec)
    requires c.HalfAngles() && i < 8 && v.Within(128)
    ensures AbsR(DotR(Basis(c, i), Reals(v)) - Dot(Matrix(i), v) as real) <= 1024.0
  {
    hide Cosines.HalfAngles, Basis, Reals, Matrix, AbsR, AbsSum, Times;
    BasisNear(c, i);
    NearItself(Reals(v));
    WithinIsBounded(v, 128);
    DotNear(Basis(c, i), Reals(Matrix(i)), Reals(v), Reals(v), 0.0, 128.0);
    TimesZero(AbsSum(Reals(Matrix(i))));
    DotReal(Matrix(i), v);
  }

  lemma TimesZero(x: real)
    ensures Times(x, 0.0) == 0.0
  {
  }

  lemma RowsWithin(p: Samples, r: nat)
    requires SamplesWithin(p, 128) && r < 8
    ensures Row(p, r).Within(128)
  {
  }

  lemma RowSumsNear(c: Cosines, p: Samples, i: nat)
    requires c.HalfAngles() && SamplesWithin(p, 128) && i < 8
    ensures Near(RowSums(c, p, i), Reals(RowProducts(p, i)), 1024.0)
  {
    hide Cosines.HalfAngles, Basis, Matrix, AbsR, DotR, Dot, Row, SamplesWithin;
    forall r: nat | r < 8
      ensures AbsR(DotR(Basis(c, i), Reals(Row(p, r))) - Dot(Matrix(i), Row(p, r)) as real) <= 1024.0
    {
      RowsWithin(p, r);
      RowSumNear(c, i, Row(p, r));
    }
  }

  lemma RowProductsWithin(p: Samples, i: nat)
    requires SamplesWithin(p, 128) && i < 8
    ensures RowProducts(p, i).Within(11864064)
  {
    hide Matrix, Dot, Row, SamplesWithin;
    forall r: nat | r < 8
      ensures -11864064 <= Dot(Matrix(i), Row(p, r)) <= 11864064
    {
      RowsWithin(p, r);
      DotBound(Row(p, r), i, 128);
    }
  }

  lemma ScaledSum(k: nat)
    requires k < 8
    ensures Times(AbsSum(Reals(Matrix(k))), 1024.0) <= 94912512.0
  {
    hide Matrix, AbsSum, Reals;
    MatrixAbsSum(k);
  }

  /** The integer matrix product is within 3/16 of the DCT coefficient (2^30 times scaled). */
  lemma ExactIsNear(c: Cosines, p: Samples, k: nat, i: nat)
    requires c.HalfAngles() && SamplesWithin(p, 128) && k < 8 && i < 8
    ensures AbsR(DotR(Basis(c, k), RowSums(c, p, i)) - Exact(p, k, i) as real) < 201326592.0
  {
    hide Cosines.HalfAngles, Basis, Matrix, AbsSum, Times, RowSums, Reals, RowProducts, Dot, Near, Bounded;
    BasisNear(c, k);
    RowSumsNear(c, p, i);
    RowProductsWithin(p, i);
    WithinIsBounded(RowProducts(p, i), 11864064);
    DotNear(Basis(c, k), Reals(Matrix(k)), RowSums(c, p, i), Reals(RowProducts(p, i)), 1024.0, 11864064.0);
    ScaledSum(k);
    DotReal(Matrix(k), RowProducts(p, i));
  }

  lemma ScaledErrors(sum: real, exact: int, out: int)
    requires AbsR(sum - exact as real) < 201326592.0
    requires -5 * 0x2000_0000 < exact - 0x4000_0000 * out < 5 * 0x2000_0000
    ensures AbsR(out as real - sum / 1073741824.0) < 43.0 / 16.0
  {
  }

  /**
   The fixed-point transform against the DCT of T.81: for every block of 8-bit samples each output is within 43/16 of the
   coefficient, the rounding of the constants and of both passes included.
   */
  lemma TransformAccuracy(c: Cosines, p: Samples, k: nat, i: nat)
    requires c.HalfAngles() && SamplesWithin(p, 128) && k < 8 && i < 8
    ensures AbsR(Transform(p)[8 * k + i] as real - Coefficient(c, p, k, i)) < 43.0 / 16.0
  {
    hide Cosines.HalfAngles, Basis, RowSums, DotR, Exact, Transform, AbsR;
    ExactIsNear(c, p, k, i);
    Accuracy(p, k, i);
    ScaledErrors(DotR(Basis(c, k), RowSums(c, p, i)), Exact(p, k, i), Transform(p)[8 * k + i]);
  }

  lemma StepErrors(sum: real, exact: int, coded: int, step: nat)
    requires AbsR(sum - exact as real) < 201326592.0
    requires Abs(0x4000_0000 * (2048 * coded) - 2048 * exact) < 0x4000_0000 * (2050 * step + 5120)
    ensures AbsR(coded as real - sum / 1073741824.0) < 43.0 / 16.0 + 1025.0 / 1024.0 * step as real
  {
  }

  /**
   DCT, quantiser and tables together against T.81: the coded value times its quantisation step is within
   43/16 + 1025/1024 * step of the DCT coefficient.
   */
  lemma CodedAccuracy(c: Cosines, comp: Component, p: Samples, k: nat, i: nat, t: nat)
    requires c.HalfAngles() && SamplesWithin(p, 128) && k < 8 && i < 8 && t == 8 * k + i
    ensures QTableOk(StandardCtx(comp), comp) && Unzig(t) < 64
    ensures |Steps(comp)| == 8 && |Steps(comp)[k]| == 8
    ensures var step, q := Steps(comp)[k][i], Quantized(StandardCtx(comp), comp, Transform(p))[Unzig(t)];
            AbsR((step * q) as real - Coefficient(c, p, k, i)) < 43.0 / 16.0 + 1025.0 / 1024.0 * step as real
  {
    hide Cosines.HalfAngles, Basis, RowSums, DotR, Exact, Transform, AbsR, Quantized, StandardCtx, Steps, Unzig, QTableOk;
    ExactIsNear(c, p, k, i);
    DequantisedAccuracy(comp, p, k, i, t);
    var step, q := Steps(comp)[k][i], Quantized(StandardCtx(comp), comp, Transform(p))[Unzig(t)];
    assert 2048 * step * q == 2048 * (step * q);
    StepErrors(DotR(Basis(c, k), RowSums(c, p, i)), Exact(p, k, i), step * q, step);
  }
}
