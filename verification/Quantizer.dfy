/**
 Quantisation by reciprocal multiplication (`quantize`) and the zig-zag reordering of a block.
 */
module Quantizer {
  import opened Bits
  import opened JpegTables
  import opened HuffmanTables
  import opened BlockCoding
  import opened Dct

  /** `quantize`: `data >> 15` is -1 for negative data, else 0. */
  function Quantize(data: int, qt: nat): int {
    Int16((data * qt - (if data < 0 then -1 else 0) + 511) / 1024)
  }

  predicate IsInt16(x: int) {
    -0x8000 <= x < 0x8000
  }

  /** `r` is `x` / 1024 rounded to the nearest integer, a tie going toward zero. */
  predicate Nearest(x: int, r: int) {
    Abs(1024 * r - x) < 512 || (Abs(1024 * r - x) == 512 && Abs(1024 * r) < Abs(x))
  }

  lemma SignOfProduct(data: int, qt: nat)
    ensures data * qt < 0 ==> data < 0
    ensures data < 0 ==> data * qt <= 0
  {
    if data < 0 {
      MulMono(0, -data, qt);
      assert -data * qt == -(data * qt);
    } else {
      MulMono(0, data, qt);
    }
  }

  lemma ProductRange(data: int, qt: nat, bound: nat)
    requires IsInt16(data) && qt <= bound
    ensures -0x8000 * bound <= data * qt <= 0x7FFF * bound
  {
    if data < 0 {
      MulMono(-0x8000, data, qt);
      MulMono(qt, bound, 0x8000);
      SignOfProduct(data, qt);
      MulMono(0, bound, 0x7FFF);
    } else {
      MulMono(data, 0x7FFF, qt);
      MulMono(qt, bound, 0x7FFF);
      MulMono(0, data, qt);
    }
  }

  /** For a 16-bit reciprocal neither the product nor the sum before the shift leaves 32 bits. */
  lemma SumFits(data: int, qt: nat)
    requires IsInt16(data) && qt <= 0xFFFF
    ensures Int32(data * qt) && Int32(data * qt + 1) && Int32(data * qt - (if data < 0 then -1 else 0) + 511)
  {
    ProductRange(data, qt, 0xFFFF);
  }

  lemma RoundingRule(x: int, negative: bool, r: int)
    requires x < 0 ==> negative
    requires negative ==> x <= 0
    ensures r == (x + (if negative then 1 else 0) + 511) / 1024 <==> Nearest(x, r)
  {
  }

  /**
   Rounding: for every 16-bit reciprocal `quantize` is `data * qt / 1024` rounded to nearest, ties toward zero, stored in
   16 bits; up to 1024 it is that number and no other.
   */
  lemma QuantizeRounds(data: int, qt: nat, r: int)
    requires IsInt16(data) && qt <= 0xFFFF
    ensures Nearest(data * qt, r) ==> Quantize(data, qt) == Int16(r)
    ensures qt <= 1024 ==> (r == Quantize(data, qt) <==> Nearest(data * qt, r))
  {
    SignOfProduct(data, qt);
    RoundingRule(data * qt, data < 0, r);
    if qt <= 1024 {
      ProductRange(data, qt, 1024);
      RoundingRule(data * qt, data < 0, Quantize(data, qt));
    }
  }

  /** Beyond 1024 the largest data value no longer fits: the stored result is not the rounded one. */
  lemma QuantizeWraps(qt: nat)
    requires 1024 < qt <= 0xFFFF
    ensures !Nearest(0x7FFF * qt, Quantize(0x7FFF, qt))
  {
  }

  lemma QuantizeOdd(data: int, qt: nat)
    requires IsInt16(data) && IsInt16(-data) && qt <= 1024
    ensures Quantize(-data, qt) == -Quantize(data, qt)
  {
    var r := Quantize(data, qt);
    QuantizeRounds(data, qt, r);
    assert -data * qt == -(data * qt);
    assert Nearest(-data * qt, -r);
    QuantizeRounds(-data, qt, -r);
  }

  lemma QuantizeMonotone(a: int, b: int, qt: nat)
    requires IsInt16(a) && IsInt16(b) && a <= b && qt <= 1024
    ensures Quantize(a, qt) <= Quantize(b, qt)
  {
    MulMono(a, b, qt);
    QuantizeRounds(a, qt, Quantize(a, qt));
    QuantizeRounds(b, qt, Quantize(b, qt));
    NearestMonotone(a * qt, b * qt, Quantize(a, qt), Quantize(b, qt));
  }

  lemma NearestMonotone(x: int, y: int, r: int, s: int)
    requires x <= y && Nearest(x, r) && Nearest(y, s)
    ensures r <= s
  {
  }

  /** `qt` is the integer nearest to 1024 / `step`. */
  predicate IsReciprocal(qt: nat, step: nat) {
    step > 0 && 2 * Abs(qt * step - 1024) <= step
  }

  /**
   How far `quantize` is from dividing by the step: at most 1/2 + |data| / 2048
   (both sides multiplied by 2048 * step).
   */
  lemma QuantizeDivides(data: int, qt: nat, step: nat)
    requires IsInt16(data) && IsReciprocal(qt, step)
    ensures Abs(2048 * step * Quantize(data, qt) - 2048 * data) <= 1024 * step + Abs(data) * step
  {
    var r := Quantize(data, qt);
    ReciprocalSize(qt, step);
    QuantizeRounds(data, qt, r);
    ErrorsAdd(data, qt, step, r);
  }

  lemma ReciprocalSize(qt: nat, step: nat)
    requires IsReciprocal(qt, step)
    ensures qt <= 1024
  {
    if qt > 1024 {
      MulMono(1025, qt, step);
      assert false;
    }
  }

  lemma ErrorsAdd(data: int, qt: int, step: int, r: int)
    requires step > 0 && Abs(1024 * r - data * qt) <= 512 && 2 * Abs(qt * step - 1024) <= step
    ensures Abs(2048 * step * r - 2048 * data) <= 1024 * step + Abs(data) * step
  {
    var e, f := 1024 * r - data * qt, qt * step - 1024;
    DivisionIdentity(data, qt, step, r);
    AbsProduct(step, e, 512);
    AbsProduct(Abs(data), 2 * f, step);
    SignedProduct(data, f);
    TwoProducts(2048 * step * r - 2048 * data, step, e, data, f);
  }

  lemma SignedProduct(data: int, f: int)
    ensures Abs(Abs(data) * (2 * f)) == Abs(2 * (data * f))
  {
    if data < 0 {
      assert Abs(data) * (2 * f) == -(2 * (data * f));
    } else {
      assert Abs(data) * (2 * f) == 2 * (data * f);
    }
  }

  lemma TwoProducts(x: int, step: int, e: int, data: int, f: int)
    requires x == 2 * (step * e) + 2 * (data * f)
    ensures Abs(x) <= 2 * Abs(step * e) + Abs(2 * (data * f))
  {
  }

  lemma DivisionIdentity(data: int, qt: int, step: int, r: int)
    ensures 2048 * step * r - 2048 * data ==
            2 * (step * (1024 * r - data * qt)) + 2 * (data * (qt * step - 1024))
  {
  }

  lemma AbsProduct(a: int, b: int, bound: int)
    requires Abs(b) <= bound && 0 <= a
    ensures Abs(a * b) <= a * bound
  {
    MulMono(b, bound, a);
    MulMono(-bound, b, a);
    assert -bound * a == -(a * bound);
  }

  // ---------- dividing by the step ----------

  /** `r` is an integer nearest to `data` / `step`. */
  predicate NearestQuotient(data: int, step: nat, r: int) {
    2 * Abs(step * r - data) <= step
  }

  /** `quantize` is not division by the step, rounded: 976 / 50 is 19.52, and 50 is a step of the tables. */
  lemma QuantizeMissesQuotient()
    ensures IsReciprocal(20, 50) && Quantize(976, 20) == 19
    ensures NearestQuotient(976, 50, 20) && !NearestQuotient(976, 50, 19)
  {
  }

  lemma ExactError(data: int, qt: int, step: int, r: int)
    requires step > 0 && Abs(1024 * r - data * qt) <= 512 && qt * step == 1024
    ensures 2 * Abs(step * r - data) <= step
  {
    var e := 1024 * r - data * qt;
    DivisionIdentity(data, qt, step, r);
    AbsProduct(step, e, 512);
    assert data * (qt * step - 1024) == 0;
  }

  /** An exact reciprocal divides. */
  lemma ExactReciprocal(data: int, qt: nat, step: nat)
    requires IsInt16(data) && IsReciprocal(qt, step) && qt * step == 1024
    ensures NearestQuotient(data, step, Quantize(data, qt))
  {
    ReciprocalSize(qt, step);
    QuantizeRounds(data, qt, Quantize(data, qt));
    ExactError(data, qt, step, Quantize(data, qt));
  }

  /** A data value that an inexact reciprocal does not divide. */
  function Missed(qt: nat, step: nat): nat {
    if qt * step < 1024 then (qt / 2) * step + step / 2 + 1 else ((qt + 1) / 2) * step + (step - 1) / 2
  }

  lemma ScaledProduct(m: int, step: int, h: int, qt: int)
    ensures (m * step + h) * qt == m * (qt * step) + qt * h
  {
  }

  lemma TwiceProduct(qt: int, h: int, step: int, d: int)
    requires 2 * h == step + d
    ensures 2 * (qt * h) == qt * step + qt * d
  {
    assert 2 * (qt * h) == qt * (2 * h);
  }

  lemma EvenProduct(qt: int, step: int)
    requires step % 2 == 0
    ensures (qt * step) % 2 == 0
  {
    assert qt * step == 2 * (qt * (step / 2));
  }

  /** The product with `m * step + h`, twice, around its distance from the tie at `m`. */
  lemma AroundTie(qt: nat, step: nat, m: nat, h: nat, d: int, f: int)
    requires f == qt * step - 1024 && 2 * h == step + d
    ensures 2 * ((m * step + h) * qt) - 2 * (1024 * m + 512) == 2 * (m * f) + f + qt * d
  {
    ScaledProduct(m, step, h, qt);
    TwiceProduct(qt, h, step, d);
    assert m * (qt * step) == 1024 * m + m * f;
  }

  lemma QuotientTooLow(qt: nat, step: nat, m: nat, h: nat)
    requires 0 < step && qt * step < 1024 && m == qt / 2 && h == step / 2 + 1
    ensures (m * step + h) * qt <= 1024 * m + 512
  {
    var f := qt * step - 1024;
    if step % 2 == 1 {
      AroundTie(qt, step, m, h, 1, f);
      MulMono(f, -1, m);
    } else {
      AroundTie(qt, step, m, h, 2, f);
      EvenProduct(qt, step);
      MulMono(f, -2, m);
    }
  }

  lemma QuotientTooHigh(qt: nat, step: nat, m: nat, h: nat)
    requires 0 < step && qt * step > 1024 && m == (qt + 1) / 2 && h == (step - 1) / 2
    ensures (m * step + h) * qt > 1024 * m + 512
  {
    var f := qt * step - 1024;
    if step % 2 == 1 {
      AroundTie(qt, step, m, h, -1, f);
      MulMono(1, f, m);
    } else {
      AroundTie(qt, step, m, h, -2, f);
      EvenProduct(qt, step);
      MulMono(2, f, m);
    }
  }

  lemma MissedRange(qt: nat, step: nat)
    requires IsReciprocal(qt, step) && step < 256
    ensures Missed(qt, step) <= 1026
  {
    if qt * step < 1024 {
      assert 2 * ((qt / 2) * step) <= qt * step by { MulMono(2 * (qt / 2), qt, step); }
    } else {
      assert 2 * (((qt + 1) / 2) * step) <= qt * step + step by { MulMono(2 * ((qt + 1) / 2), qt + 1, step); }
    }
  }

  /** An inexact reciprocal misses the quotient of some value in the range of the DCT. */
  lemma InexactReciprocal(qt: nat, step: nat)
    requires IsReciprocal(qt, step) && step < 256 && qt * step != 1024
    ensures Missed(qt, step) <= 1026
    ensures !NearestQuotient(Missed(qt, step), step, Quantize(Missed(qt, step), qt))
  {
    var data := Missed(qt, step);
    var r := Quantize(data, qt);
    ReciprocalSize(qt, step);
    MissedRange(qt, step);
    QuantizeRounds(data, qt, r);
    if qt * step < 1024 {
      var m := qt / 2;
      QuotientTooLow(qt, step, m, step / 2 + 1);
      assert r <= m;
      MulMono(r, m, step);
      assert step * r == r * step;
    } else {
      var m := (qt + 1) / 2;
      QuotientTooHigh(qt, step, m, (step - 1) / 2);
      assert r >= m + 1;
      MulMono(m + 1, r, step);
      assert step * r == r * step && (m + 1) * step == m * step + step;
    }
  }

  /**
   When the comment above `quantize` is right: on all 16-bit data, and just as well on all outputs of the DCT, the result is
   the quotient by the step, rounded, if and only if the reciprocal is exact.
   */
  lemma DividesIff(qt: nat, step: nat, bound: nat)
    requires IsReciprocal(qt, step) && step < 256 && 1026 <= bound <= 0x7FFF
    ensures (forall data :: Abs(data) <= bound ==> NearestQuotient(data, step, Quantize(data, qt))) <==> qt * step == 1024
    ensures (forall data :: IsInt16(data) ==> NearestQuotient(data, step, Quantize(data, qt))) <==> qt * step == 1024
  {
    hide Quantize, NearestQuotient;
    if qt * step == 1024 {
      forall data | IsInt16(data)
        ensures NearestQuotient(data, step, Quantize(data, qt))
      {
        ExactReciprocal(data, qt, step);
      }
    } else {
      InexactReciprocal(qt, step);
      assert Abs(Missed(qt, step)) <= bound && IsInt16(Missed(qt, step));
    }
  }

  // ---------- the tables ----------

  predicate LumaEntry(t: nat)
    requires t < 64
  {
    QTABLE_LUM[t / 8][t % 8] <= 205 && IsReciprocal(QTABLE_LUM[t / 8][t % 8], QTABLE_0_LUM[t / 8][t % 8])
  }

  predicate LumaEntries(from: nat, to: nat)
    requires from <= to <= 64
    decreases 64 - from
  {
    from == to || (LumaEntry(from) && LumaEntries(from + 1, to))
  }

  predicate ChromaEntry(t: nat)
    requires t < 64
  {
    QTABLE_CHROM[t / 8][t % 8] <= 114 && IsReciprocal(QTABLE_CHROM[t / 8][t % 8], QTABLE_0_CHROM[t / 8][t % 8])
  }

  predicate ChromaEntries(from: nat, to: nat)
    requires from <= to <= 64
    decreases 64 - from
  {
    from == to || (ChromaEntry(from) && ChromaEntries(from + 1, to))
  }

  lemma LumaEntries0()
    ensures LumaEntries(0, 8)
  {
    assert IsReciprocal(33, 31) && IsReciprocal(39, 26) && IsReciprocal(51, 20) && IsReciprocal(85, 12);
    assert IsReciprocal(128, 8) && IsReciprocal(171, 6) && IsReciprocal(205, 5);
  }

  lemma LumaEntries8()
    ensures LumaEntries(8, 16)
  {
    assert IsReciprocal(34, 30) && IsReciprocal(35, 29) && IsReciprocal(37, 28) && IsReciprocal(79, 13);
    assert IsReciprocal(102, 10) && IsReciprocal(146, 7) && IsReciprocal(171, 6);
  }

  lemma LumaEntries16()
    ensures LumaEntries(16, 24)
  {
    assert IsReciprocal(29, 35) && IsReciprocal(35, 29) && IsReciprocal(37, 28) && IsReciprocal(51, 20);
    assert IsReciprocal(85, 12) && IsReciprocal(128, 8) && IsReciprocal(146, 7);
  }

  lemma LumaEntries24()
    ensures LumaEntries(24, 32)
  {
    assert IsReciprocal(23, 44) && IsReciprocal(26, 40) && IsReciprocal(33, 31) && IsReciprocal(39, 26);
    assert IsReciprocal(68, 15) && IsReciprocal(93, 11) && IsReciprocal(114, 9) && IsReciprocal(146, 7);
  }

  lemma LumaEntries32()
    ensures LumaEntries(32, 40)
  {
    assert IsReciprocal(19, 55) && IsReciprocal(20, 52) && IsReciprocal(26, 39) && IsReciprocal(30, 34);
    assert IsReciprocal(37, 28) && IsReciprocal(54, 19) && IsReciprocal(93, 11) && IsReciprocal(114, 9);
  }

  lemma LumaEntries40()
    ensures LumaEntries(40, 48)
  {
    assert IsReciprocal(18, 57) && IsReciprocal(20, 52) && IsReciprocal(22, 46) && IsReciprocal(25, 41);
    assert IsReciprocal(32, 32) && IsReciprocal(37, 28) && IsReciprocal(57, 18) && IsReciprocal(85, 12);
  }

  lemma LumaEntries48()
    ensures LumaEntries(48, 56)
  {
    assert IsReciprocal(17, 60) && IsReciprocal(17, 61) && IsReciprocal(20, 51) && IsReciprocal(20, 52);
    assert IsReciprocal(23, 44) && IsReciprocal(26, 39) && IsReciprocal(32, 32) && IsReciprocal(41, 25);
  }

  lemma LumaEntries56()
    ensures LumaEntries(56, 64)
  {
    assert IsReciprocal(18, 56) && IsReciprocal(20, 50) && IsReciprocal(20, 52) && IsReciprocal(21, 48);
    assert IsReciprocal(21, 49) && IsReciprocal(22, 46) && IsReciprocal(28, 36);
  }

  lemma ChromaEntries0()
    ensures ChromaEntries(0, 8)
  {
    assert IsReciprocal(20, 50) && IsReciprocal(43, 24) && IsReciprocal(85, 12) && IsReciprocal(114, 9);
  }

  lemma ChromaEntries8()
    ensures ChromaEntries(8, 16)
  {
    assert IsReciprocal(20, 50) && IsReciprocal(31, 33) && IsReciprocal(79, 13) && IsReciprocal(93, 11);
    assert IsReciprocal(114, 9);
  }

  lemma ChromaEntries16()
    ensures ChromaEntries(16, 24)
  {
    assert IsReciprocal(20, 50) && IsReciprocal(37, 28) && IsReciprocal(79, 13) && IsReciprocal(85, 12);
  }

  lemma ChromaEntries24()
    ensures ChromaEntries(24, 32)
  {
    assert IsReciprocal(20, 50) && IsReciprocal(31, 33) && IsReciprocal(43, 24);
  }

  lemma ChromaEntries32()
    ensures ChromaEntries(32, 40)
  {
    assert IsReciprocal(20, 50);
  }

  lemma ChromaEntries40()
    ensures ChromaEntries(40, 48)
  {
    assert IsReciprocal(20, 50);
  }

  lemma ChromaEntries48()
    ensures ChromaEntries(48, 56)
  {
    assert IsReciprocal(20, 50);
  }

  lemma ChromaEntries56()
    ensures ChromaEntries(56, 64)
  {
    assert IsReciprocal(20, 50);
  }

  lemma {:induction false} LumaEntryIn(from: nat, to: nat, t: nat)
    requires from <= t < to <= 64 && LumaEntries(from, to)
    ensures LumaEntry(t)
    decreases t - from
  {
    hide LumaEntry;
    if from < t {
      LumaEntryIn(from + 1, to, t);
    }
  }

  lemma {:induction false} ChromaEntryIn(from: nat, to: nat, t: nat)
    requires from <= t < to <= 64 && ChromaEntries(from, to)
    ensures ChromaEntry(t)
    decreases t - from
  {
    hide ChromaEntry;
    if from < t {
      ChromaEntryIn(from + 1, to, t);
    }
  }

  function Steps(c: Component): seq<seq<nat>> {
    if c.Luma? then QTABLE_0_LUM else QTABLE_0_CHROM
  }

  /** Half the entries of a row, rounded up. */
  predicate Halves(steps: seq<nat>, row: seq<nat>) {
    |steps| == |row| == 8 && forall i :: 0 <= i < 8 ==> steps[i] == (row[i] + 1) / 2
  }

  /** The steps: half the entries of T.81 tables K.1 and K.2, rounded up. */
  lemma StepsHalveTables()
    ensures |Steps(Luma)| == |Steps(Chroma)| == 8
    ensures Halves(Steps(Luma)[0], [16, 11, 10, 16, 24, 40, 51, 61]) && Halves(Steps(Luma)[1], [12, 12, 14, 19, 26, 58, 60, 55])
    ensures Halves(Steps(Luma)[2], [14, 13, 16, 24, 40, 57, 69, 56]) && Halves(Steps(Luma)[3], [14, 17, 22, 29, 51, 87, 80, 62])
    ensures Halves(Steps(Luma)[4], [18, 22, 37, 56, 68, 109, 103, 77])
    ensures Halves(Steps(Luma)[5], [24, 35, 55, 64, 81, 104, 113, 92])
    ensures Halves(Steps(Luma)[6], [49, 64, 78, 87, 103, 121, 120, 101])
    ensures Halves(Steps(Luma)[7], [72, 92, 95, 98, 112, 100, 103, 99])
    ensures Halves(Steps(Chroma)[0], [17, 18, 24, 47, 99, 99, 99, 99]) && Halves(Steps(Chroma)[1], [18, 21, 26, 66, 99, 99, 99, 99])
    ensures Halves(Steps(Chroma)[2], [24, 26, 56, 99, 99, 99, 99, 99]) && Halves(Steps(Chroma)[3], [47, 66, 99, 99, 99, 99, 99, 99])
    ensures forall r :: 4 <= r < 8 ==> Halves(Steps(Chroma)[r], [99, 99, 99, 99, 99, 99, 99, 99])
  {
  }

  function MaxReciprocal(c: Component): nat {
    if c.Luma? then 205 else 114
  }

  lemma LumaReciprocal(t: nat)
    requires t < 64
    ensures LumaEntry(t)
  {
    if t < 8 {
      LumaEntries0();
      LumaEntryIn(0, 8, t);
    } else if t < 16 {
      LumaEntries8();
      LumaEntryIn(8, 16, t);
    } else if t < 24 {
      LumaEntries16();
      LumaEntryIn(16, 24, t);
    } else if t < 32 {
      LumaEntries24();
      LumaEntryIn(24, 32, t);
    } else if t < 40 {
      LumaEntries32();
      LumaEntryIn(32, 40, t);
    } else if t < 48 {
      LumaEntries40();
      LumaEntryIn(40, 48, t);
    } else if t < 56 {
      LumaEntries48();
      LumaEntryIn(48, 56, t);
    } else {
      LumaEntries56();
      LumaEntryIn(56, 64, t);
    }
  }

  lemma ChromaReciprocal(t: nat)
    requires t < 64
    ensures ChromaEntry(t)
  {
    if t < 8 {
      ChromaEntries0();
      ChromaEntryIn(0, 8, t);
    } else if t < 16 {
      ChromaEntries8();
      ChromaEntryIn(8, 16, t);
    } else if t < 24 {
      ChromaEntries16();
      ChromaEntryIn(16, 24, t);
    } else if t < 32 {
      ChromaEntries24();
      ChromaEntryIn(24, 32, t);
    } else if t < 40 {
      ChromaEntries32();
      ChromaEntryIn(32, 40, t);
    } else if t < 48 {
      ChromaEntries40();
      ChromaEntryIn(40, 48, t);
    } else if t < 56 {
      ChromaEntries48();
      ChromaEntryIn(48, 56, t);
    } else {
      ChromaEntries56();
      ChromaEntryIn(56, 64, t);
    }
  }

  /** Every reciprocal the encoder uses is the integer nearest to 1024 / step. */
  lemma ReciprocalTable(c: Component, t: nat)
    requires t < 64
    ensures StandardCtx(c).HasQ(t) && StandardCtx(c).Q(t) <= MaxReciprocal(c)
    ensures |Steps(c)| == 8 && |Steps(c)[t / 8]| == 8 && IsReciprocal(StandardCtx(c).Q(t), Steps(c)[t / 8][t % 8])
  {
    match c
    case Luma => LumaReciprocal(t);
    case Chroma => ChromaReciprocal(t);
  }

  // ---------- zig-zag order ----------

  // Raster position to zig-zag position.
  const UNZIG: seq<seq<nat>> := [
    [0, 1, 5, 6, 14, 15, 27, 28],
    [2, 4, 7, 13, 16, 26, 29, 42],
    [3, 8, 12, 17, 25, 30, 41, 43],
    [9, 11, 18, 24, 31, 40, 44, 53],
    [10, 19, 23, 32, 39, 45, 52, 54],
    [20, 22, 33, 38, 46, 51, 55, 60],
    [21, 34, 37, 47, 50, 56, 59, 61],
    [35, 36, 48, 49, 57, 58, 62, 63]
  ]

  function Zig(i: nat): nat
    requires i < 64
  {
    ZIG[i / 8][i % 8]
  }

  function Unzig(t: nat): nat
    requires t < 64
  {
    UNZIG[t / 8][t % 8]
  }

  /** The next position of the diagonal walk of T.81 figure A.6, from raster position 8 * row + col. */
  function Walk(row: nat, col: nat): nat {
    if (row + col) % 2 == 0 then
      if col == 7 then 8 * (row + 1) + col else if row == 0 then col + 1 else 8 * (row - 1) + col + 1
    else
      if row == 7 then 8 * row + col + 1 else if col == 0 then 8 * (row + 1) else 8 * (row + 1) + col - 1
  }

  predicate ZigPair(i: nat)
    requires i < 64
  {
    && Zig(i) < 64 && Unzig(i) < 64 && Unzig(Zig(i)) == i && Zig(Unzig(i)) == i
    && (if i == 0 then Zig(i) == 0 else Zig(i) == Walk(Zig(i - 1) / 8, Zig(i - 1) % 8))
  }

  predicate ZigPairs(from: nat, to: nat)
    requires from <= to <= 64
    decreases 64 - from
  {
    from == to || (ZigPair(from) && ZigPairs(from + 1, to))
  }

  lemma ZigPairs0()
    ensures ZigPairs(0, 8)
  {}

  lemma ZigPairs8()
    ensures ZigPairs(8, 16)
  {}

  lemma ZigPairs16()
    ensures ZigPairs(16, 24)
  {}

  lemma ZigPairs24()
    ensures ZigPairs(24, 32)
  {}

  lemma ZigPairs32()
    ensures ZigPairs(32, 40)
  {}

  lemma ZigPairs40()
    ensures ZigPairs(40, 48)
  {}

  lemma ZigPairs48()
    ensures ZigPairs(48, 56)
  {}

  lemma ZigPairs56()
    ensures ZigPairs(56, 64)
  {}

  lemma {:induction false} ZigPairIn(from: nat, to: nat, i: nat)
    requires from <= i < to <= 64 && ZigPairs(from, to)
    ensures ZigPair(i)
    decreases i - from
  {
    hide ZigPair;
    if from < i {
      ZigPairIn(from + 1, to, i);
    }
  }

  /** The zig-zag table is a permutation of 0..63, and the walk of T.81 section A.3.6. */
  lemma ZigZagIsPermutation(i: nat)
    requires i < 64
    ensures ZigPair(i)
  {
    if i < 8 {
      ZigPairs0();
      ZigPairIn(0, 8, i);
    } else if i < 16 {
      ZigPairs8();
      ZigPairIn(8, 16, i);
    } else if i < 24 {
      ZigPairs16();
      ZigPairIn(16, 24, i);
    } else if i < 32 {
      ZigPairs24();
      ZigPairIn(24, 32, i);
    } else if i < 40 {
      ZigPairs32();
      ZigPairIn(32, 40, i);
    } else if i < 48 {
      ZigPairs40();
      ZigPairIn(40, 48, i);
    } else if i < 56 {
      ZigPairs48();
      ZigPairIn(48, 56, i);
    } else {
      ZigPairs56();
      ZigPairIn(56, 64, i);
    }
  }

  lemma UnzigInverts(t: nat)
    requires t < 64
    ensures Unzig(t) < 64 && Zig(Unzig(t)) == t
  {
    ZigZagIsPermutation(t);
  }

  // ---------- a quantised block ----------

  /** A component's reciprocals are all present and small enough for its AC sizes. */
  ghost predicate QTableOk(ctx: HuffmanCtx, c: Component) {
    && (forall t: nat :: t < 64 ==> ctx.HasQ(t) && ctx.Q(t) <= MaxReciprocal(c))
    && ctx.Q(0) <= 128
  }

  lemma StandardQTableOk(c: Component)
    ensures QTableOk(StandardCtx(c), c)
  {
    forall t: nat | t < 64
      ensures StandardCtx(c).HasQ(t) && StandardCtx(c).Q(t) <= MaxReciprocal(c)
    {
      ReciprocalTable(c, t);
    }
  }

  /** The value coded for raster position `t`. */
  function QuantizedAt(ctx: HuffmanCtx, data: Samples, t: nat): int
    requires t < 64 && ctx.HasQ(t)
  {
    Quantize(data[t], ctx.Q(t))
  }

  /** The 64 values `huffman_encode` codes for a block of DCT coefficients, in coding order. */
  function Quantized(ctx: HuffmanCtx, c: Component, data: Samples): Block
    requires QTableOk(ctx, c)
  {
    seq(64, i requires 0 <= i < 64 => (ZigZagIsPermutation(i); QuantizedAt(ctx, data, Zig(i))))
  }

  /** In raster terms: the coefficient of position `t` is coded at its zig-zag place, as the integer nearest to data * qt / 1024. */
  lemma CoefficientAt(ctx: HuffmanCtx, c: Component, data: Samples, t: nat)
    requires QTableOk(ctx, c) && t < 64 && IsInt16(data[t])
    ensures Unzig(t) < 64 && Nearest(data[t] * ctx.Q(t), Quantized(ctx, c, data)[Unzig(t)])
  {
    UnzigInverts(t);
    ZigZagIsPermutation(Unzig(t));
    QuantizeRounds(data[t], ctx.Q(t), Quantize(data[t], ctx.Q(t)));
  }

  lemma QuantizedAtRange(ctx: HuffmanCtx, c: Component, data: Samples, t: nat)
    requires SamplesWithin(data, 1026) && QTableOk(ctx, c) && t < 64
    ensures Abs(QuantizedAt(ctx, data, t)) <= MaxReciprocal(c)
    ensures t == 0 ==> Abs(QuantizedAt(ctx, data, t)) <= 128
  {
    var d, q := data[t], ctx.Q(t);
    AbsProduct(q, d, 1026);
    MulMono(q, MaxReciprocal(c), 1026);
    assert q * d == d * q;
    QuantizeRounds(d, q, Quantize(d, q));
  }

  lemma ZigStartsAtDc()
    ensures Zig(0) == 0
  {
  }

  /** Range chain, last link: for 8-bit samples DC values stay within 128 and AC values within the largest reciprocal. */
  lemma QuantizedRange(ctx: HuffmanCtx, c: Component, data: Samples)
    requires SamplesWithin(data, 1026) && QTableOk(ctx, c)
    ensures Abs(Quantized(ctx, c, data)[0]) <= 128
    ensures forall i :: 0 <= i < 64 ==> Abs(Quantized(ctx, c, data)[i]) <= MaxReciprocal(c)
  {
    ZigStartsAtDc();
    QuantizedAtRange(ctx, c, data, 0);
    forall i | 0 <= i < 64
      ensures Abs(Quantized(ctx, c, data)[i]) <= MaxReciprocal(c)
    {
      ZigZagIsPermutation(i);
      QuantizedAtRange(ctx, c, data, Zig(i));
    }
  }

  lemma MagnitudeAtMost(v: int, m: nat)
    requires Abs(v) < Pow2(m)
    ensures Magnitude(v) <= m
  {
    SizeAtMost(Abs(v), m);
  }

  /** The bits a component's AC sizes need. */
  function MaxAcSize(c: Component): nat {
    if c.Luma? then 8 else 7
  }

  /** A block whose values are in the range the DCT and quantiser can reach. */
  predicate InRange(q: Block, c: Component) {
    Abs(q[0]) <= 128 && forall i :: 0 <= i < 64 ==> Abs(q[i]) <= MaxReciprocal(c)
  }

  /** So AC sizes are at most 8 (luminance) or 7 (chrominance), DC differences at most 9, and nothing collides. */
  lemma InRangeSizes(q: Block, c: Component, pred: int)
    requires InRange(q, c) && Abs(pred) <= 128
    ensures AcSizesAtMost(q, MaxAcSize(c)) && CollisionFree(q)
    ensures -0x8000 <= q[0] - pred < 0x8000 && Magnitude(DcDiff(q, pred)) <= 9
  {
    Pow2Values();
    forall i | 1 <= i < 64
      ensures Magnitude(q[i]) <= MaxAcSize(c)
    {
      MagnitudeAtMost(q[i], MaxAcSize(c));
    }
    MagnitudeAtMost(DcDiff(q, pred), 9);
  }
}
