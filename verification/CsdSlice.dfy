/**
 Bit fields of an SD card's CSD register (mmcsd.c): fields that may straddle two 32-bit words, and the card capacity
 (SD Physical Layer Simplified Specification, sections 5.3.2 and 5.3.3).
 */
module CsdSlice {
  import opened Bits
  import opened Wrappers

  type UInt32 = w: nat | w < 0x1_0000_0000

  /** A words array read as one integer, the first word lowest. */
  function Number(data: seq<UInt32>): nat {
    if data == [] then 0 else data[0] + Pow2(32) * Number(data[1..])
  }

  /** Bits `start` to `end` of an integer. */
  function Field(v: nat, end: nat, start: nat): nat
    requires start <= end
  {
    v / Pow2(start) % Pow2(end - start + 1)
  }

  // ---------- mmcsd_get_slice ----------

  /** C's `>>`. */
  function Shr(x: nat, n: nat): (r: nat)
    ensures r == x / Pow2(n)
  {
    DivAtLeast(x, Pow2(n), 0);
    x / Pow2(n)
  }

  /** `(1 << (end + 1)) - 1`. */
  function Mask(end: nat): (m: nat)
    ensures m == Pow2(end + 1) - 1
  {
    Pow2(end + 1) - 1
  }

  /** One word: `(data & endmask) >> startoff`. */
  function OnePiece(w: UInt32, end: nat, start: nat): nat
    requires start <= end < 31
  {
    Shr(BitAnd(w, Mask(end), 32), start)
  }

  /** Two words: `(low >> startoff) | ((high & endmask) << (32 - startoff))`, in 32 bits. */
  function TwoPieces(low: UInt32, high: UInt32, end: nat, start: nat): nat
    requires end < 31 && start < 32
  {
    BitOr(Shr(low, start), Pow2(32 - start) * BitAnd(high, Mask(end), 32) % 0x1_0000_0000, 32)
  }

  /** `mmcsd_get_slice`; None where the mask would need the undefined shift `1 << 32`. */
  function Slice(data: seq<UInt32>, end: nat, start: nat): Option<nat>
    requires start <= end < start + 32 && end < 32 * |data|
  {
    if end % 32 == 31 then None
    else if start / 32 < end / 32 then Some(TwoPieces(data[start / 32], data[end / 32], end % 32, start % 32))
    else Some(OnePiece(data[start / 32], end % 32, start % 32))
  }

  /** Dropping the words below `i`. */
  lemma {:induction false} NumberFrom(data: seq<UInt32>, i: nat)
    requires i <= |data|
    ensures Number(data) / Pow2(32 * i) == Number(data[i..])
    decreases i
  {
    if i == 0 {
      assert data[0..] == data;
    } else {
      NumberFrom(data[1..], i - 1);
      assert data[1..][i - 1..] == data[i..];
      Width32();
      DivModUnique(Number(data), Pow2(32), Number(data[1..]), data[0]);
      DivDivPow2(Number(data), 32, 32 * (i - 1));
      assert 32 + 32 * (i - 1) == 32 * i;
    }
  }

  lemma FieldFrom(data: seq<UInt32>, end: nat, start: nat, i: nat)
    requires i <= |data| && 32 * i <= start <= end
    ensures Field(Number(data), end, start) == Field(Number(data[i..]), end - 32 * i, start - 32 * i)
  {
    NumberFrom(data, i);
    DivDivPow2(Number(data), 32 * i, start - 32 * i);
    assert 32 * i + (start - 32 * i) == start;
  }

  lemma Regrouped(a: nat, b: nat, c: nat)
    ensures a * b * c == a * (b * c)
  {
  }

  /** `(w + 2^n * m) >> s` for `s` at most `n`. */
  lemma ShiftedDown(w: nat, m: nat, s: nat, n: nat)
    requires s <= n
    ensures (w + Pow2(n) * m) / Pow2(s) == w / Pow2(s) + Pow2(n - s) * m
  {
    hide Pow2;
    Pow2Add(s, n - s);
    var t := Pow2(n - s) * m;
    Regrouped(Pow2(s), Pow2(n - s), m);
    DivAddMultiple(w, Pow2(s), t);
  }

  lemma LowBitsOnly(x: nat, m: nat, a: nat, b: nat)
    requires a <= b
    ensures (x + Pow2(b) * m) % Pow2(a) == x % Pow2(a)
  {
    hide Pow2;
    Pow2Add(a, b - a);
    var t := Pow2(b - a) * m;
    Regrouped(Pow2(a), Pow2(b - a), m);
    DivAddMultiple(x, Pow2(a), t);
  }

  lemma MaskedShift(w: nat, n: nat, s: nat)
    ensures w % Pow2(s + n) / Pow2(s) == w / Pow2(s) % Pow2(n)
  {
    hide Pow2;
    DivDivPow2(w, s, n);
    var r, q := w % Pow2(s), w / Pow2(s) % Pow2(n);
    DivModUnique(Pow2(s) * q + r, Pow2(s), q, r);
  }

  lemma OnePieceIsField(w: UInt32, m: nat, end: nat, start: nat, bits: nat)
    requires start <= end < 31 && bits == 32
    ensures OnePiece(w, end, start) == Field(w + Pow2(bits) * m, end, start)
  {
    hide Pow2, BitAnd;
    var n := end - start + 1;
    AndMask(w, Mask(end), end + 1, bits);
    MaskedShift(w, n, start);
    assert start + n == end + 1;
    ShiftedDown(w, m, start, bits);
    LowBitsOnly(Shr(w, start), m, n, bits - start);
  }

  lemma BelowShift(w: nat, s: nat, n: nat)
    requires s <= n && w < Pow2(n)
    ensures Shr(w, s) < Pow2(n - s)
  {
    hide Pow2;
    Pow2Add(s, n - s);
    assert Pow2(s) * Pow2(n - s) == Pow2(n - s) * Pow2(s);
    DivBelow(w, Pow2(s), Pow2(n - s));
  }

  lemma HighFits(h: nat, k: nat, e: nat, n: nat)
    requires e + k <= n && h < Pow2(e)
    ensures h < Pow2(n - k) && Pow2(k) * h < Pow2(n)
  {
    hide Pow2;
    Pow2Mono(e, n - k);
    Pow2Add(k, n - k);
    MulMono(h, Pow2(n - k) - 1, Pow2(k));
    assert (Pow2(n - k) - 1) * Pow2(k) == Pow2(k) * Pow2(n - k) - Pow2(k);
    assert h * Pow2(k) == Pow2(k) * h;
  }

  /** The field that straddles two words is the upper word's low bits above the lower word's high bits. */
  lemma StraddlingField(low: nat, high: nat, above: nat, m: nat, e: nat, s: nat, n: nat)
    requires s <= n && e <= n && Shr(low, s) < Pow2(n - s) && above == high + Pow2(n) * m
    ensures (low + Pow2(n) * above) / Pow2(s) % Pow2((n - s) + e) == Shr(low, s) + Pow2(n - s) * (high % Pow2(e))
  {
    hide Pow2;
    var k := n - s;
    var x := Shr(low, s) + Pow2(k) * above;
    ShiftedDown(low, above, s, n);
    DivModUnique(x, Pow2(k), above, Shr(low, s));
    DivDivPow2(x, k, e);
    LowBitsOnly(high, m, e, n);
  }

  lemma PiecesUnfold(low: UInt32, high: UInt32, end: nat, start: nat, shifted: nat)
    requires end < 31 && start < 32
    requires shifted == Pow2(32 - start) * BitAnd(high, Mask(end), 32) && shifted < 0x1_0000_0000
    ensures TwoPieces(low, high, end, start) == BitOr(Shr(low, start), shifted, 32)
  {
    hide Pow2, BitOr, BitAnd;
    DivModUnique(shifted, 0x1_0000_0000, 0, shifted);
  }

  lemma FieldUnfolds(v: nat, end: nat, start: nat, n: nat)
    requires start <= end && n == end - start + 1
    ensures Field(v, end, start) == v / Pow2(start) % Pow2(n)
  {
  }

  lemma TwoPiecesAreField(low: UInt32, high: UInt32, above: nat, m: nat, end: nat, start: nat, bits: nat)
    requires end < 31 && end < start < 32 && bits == 32 && above == high + Pow2(bits) * m
    ensures TwoPieces(low, high, end, start) == Field(low + Pow2(bits) * above, end + 32, start)
  {
    var k, e := bits - start, end + 1;
    Width32();
    hide Pow2, BitAnd, BitOr, TwoPieces, Field;
    AndMask(high, Mask(end), e, bits);
    var h := high % Pow2(e);
    BelowShift(low, start, bits);
    HighFits(h, k, e, bits);
    OrAdds(Shr(low, start), h, k, bits);
    PiecesUnfold(low, high, end, start, Pow2(k) * h);
    StraddlingField(low, high, above, m, e, start, bits);
    FieldUnfolds(low + Pow2(bits) * above, end + 32, start, k + e);
  }

  lemma FirstWord(data: seq<UInt32>)
    requires data != []
    ensures Number(data) == data[0] + Pow2(32) * Number(data[1..])
  {
  }

  lemma IndexParts(end: nat, start: nat, i: nat, j: nat)
    requires start <= end < start + 32 && i == start / 32 && j == end / 32
    ensures j == i || (j == i + 1 && start % 32 > end % 32)
    ensures start - 32 * i == start % 32 && end - 32 * j == end % 32
  {
  }

  /**
   The slice is the field of the whole array read as one integer, for every array and every range of at most 32 bits that
   does not end on the last bit of a word; there the shift in the source is undefined.
   */
  lemma SliceIsField(data: seq<UInt32>, end: nat, start: nat)
    requires start <= end < start + 32 && end < 32 * |data|
    ensures Slice(data, end, start) == if end % 32 == 31 then None else Some(Field(Number(data), end, start))
  {
    hide Number, Field, OnePiece, TwoPieces, Pow2;
    var i, j := start / 32, end / 32;
    IndexParts(end, start, i, j);
    if end % 32 != 31 {
      FieldFrom(data, end, start, i);
      FirstWord(data[i..]);
      if i == j {
        OnePieceIsField(data[i], Number(data[i..][1..]), end % 32, start % 32, 32);
      } else {
        FirstWord(data[i..][1..]);
        var above := Number(data[i..][1..]);
        TwoPiecesAreField(data[i], data[j], above, Number(data[i..][1..][1..]), end % 32, start % 32, 32);
      }
    }
  }

  // ---------- mmcsdGetCapacity ----------

  type Csd = c: seq<UInt32> | |c| == 4 witness [0, 0, 0, 0]

  /** `(a + 1) << (b + 2) << (c - 9)` in 32 bits; the last shift is undefined for `c` below 9. */
  function Capacity10(a: nat, b: nat, c: nat): Option<nat> {
    if c < 9 then None
    else Some((a + 1) * Pow2(b + 2) % 0x1_0000_0000 * Pow2(c - 9) % 0x1_0000_0000)
  }

  /** `mmcsdGetCapacity`: C_SIZE, C_SIZE_MULT and READ_BL_LEN of a CSD 1.0, C_SIZE of a CSD 2.0. */
  function Capacity(csd: Csd): Option<nat> {
    match csd[3] / 0x4000_0000
    case 0 =>
      var a :- Slice(csd, 73, 62);
      var b :- Slice(csd, 49, 47);
      var c :- Slice(csd, 83, 80);
      Capacity10(a, b, c)
    case 1 =>
      var size :- Slice(csd, 69, 48);
      Some(1024 * (size + 1) % 0x1_0000_0000)
    case _ =>
      Some(0)
  }

  lemma LastWord(csd: Csd)
    ensures Number(csd[3..]) == csd[3]
  {
    hide Pow2;
    FirstWord(csd[3..]);
    assert csd[3..][1..] == [];
    assert Number([]) == 0;
  }

  lemma Powers()
    ensures Pow2(2) == 4 && Pow2(30) == 0x4000_0000
  {
    assert Pow2(8) == 0x100;
    assert Pow2(16) == 0x1_0000;
    assert Pow2(24) == 0x100_0000;
  }

  /** CSD_STRUCTURE is bits 127 and 126 of the register. */
  lemma StructureField(csd: Csd)
    ensures csd[3] / 0x4000_0000 == Field(Number(csd), 127, 126)
  {
    Powers();
    hide Pow2, Number, Field;
    FieldFrom(csd, 127, 126, 3);
    LastWord(csd);
    FieldUnfolds(csd[3], 31, 30, 2);
    DivModUnique(csd[3] / 0x4000_0000, 4, 0, csd[3] / 0x4000_0000);
  }

  lemma CsdFields(csd: Csd)
    ensures Slice(csd, 73, 62) == Some(Field(Number(csd), 73, 62)) && Field(Number(csd), 73, 62) < 0x1000
    ensures Slice(csd, 49, 47) == Some(Field(Number(csd), 49, 47)) && Field(Number(csd), 49, 47) < 8
    ensures Slice(csd, 83, 80) == Some(Field(Number(csd), 83, 80)) && Field(Number(csd), 83, 80) < 16
    ensures Slice(csd, 69, 48) == Some(Field(Number(csd), 69, 48)) && Field(Number(csd), 69, 48) < 0x40_0000
  {
    SliceIsField(csd, 73, 62);
    SliceIsField(csd, 49, 47);
    SliceIsField(csd, 83, 80);
    SliceIsField(csd, 69, 48);
    FieldWidths();
    hide Slice, Number, Pow2;
  }

  lemma FieldWidths()
    ensures Pow2(3) == 8 && Pow2(4) == 16 && Pow2(12) == 0x1000 && Pow2(22) == 0x40_0000
  {
    assert Pow2(8) == 0x100;
    assert Pow2(16) == 0x1_0000;
  }

  lemma Unwrapped(x: nat, y: nat)
    requires x < 0x1_0000_0000 && y == x % 0x1_0000_0000
    ensures y == x
  {
  }

  lemma ProductFits(s: nat, p: nat, q: nat, x: nat, y: nat)
    requires s <= 0x1000 && p <= 0x200 && q <= 0x40
    requires x == s * p % 0x1_0000_0000 && y == x * q % 0x1_0000_0000
    ensures y == s * p * q
  {
    MulMono(s, 0x1000, p);
    Unwrapped(s * p, x);
    MulMono(x, 0x20_0000, q);
    Unwrapped(x * q, y);
  }

  lemma SmallPowers(b: nat, c: nat)
    requires b <= 9 && c <= 6
    ensures Pow2(b) <= 0x200 && Pow2(c) <= 0x40
  {
    Pow2Mono(b, 9);
    Pow2Mono(c, 6);
    assert Pow2(4) == 0x10;
  }

  /** No card overflows the 32 bits of a CSD 1.0 capacity. */
  lemma Capacity10Exact(a: nat, b: nat, c: nat)
    requires a < 0x1000 && b < 8 && 9 <= c < 16
    ensures Capacity10(a, b, c) == Some((a + 1) * Pow2(b + 2) * Pow2(c - 9))
  {
    hide Pow2;
    SmallPowers(b + 2, c - 9);
    var x := (a + 1) * Pow2(b + 2) % 0x1_0000_0000;
    ProductFits(a + 1, Pow2(b + 2), Pow2(c - 9), x, x * Pow2(c - 9) % 0x1_0000_0000);
  }

  /**
   CSD 1.0: the capacity in 512-byte blocks of a card of (C_SIZE + 1) * 2^(C_SIZE_MULT + 2) blocks of 2^READ_BL_LEN bytes;
   defined if and only if READ_BL_LEN is at least 9.
   */
  lemma CapacityCsd10(csd: Csd, a: nat, b: nat, c: nat)
    requires Field(Number(csd), 127, 126) == 0
    requires a == Field(Number(csd), 73, 62) && b == Field(Number(csd), 49, 47) && c == Field(Number(csd), 83, 80)
    ensures Capacity(csd).Some? <==> c >= 9
    ensures c >= 9 ==> 512 * Capacity(csd).value == (a + 1) * Pow2(b + 2) * Pow2(c)
  {
    hide Slice, Number, Field;
    StructureField(csd);
    CsdFields(csd);
    if c >= 9 {
      Capacity10Exact(a, b, c);
      Pow2Add(9, c - 9);
      assert Pow2(9) == 512;
      var x := (a + 1) * Pow2(b + 2);
      Regrouped(x, 512, Pow2(c - 9));
      Regrouped(512, x, Pow2(c - 9));
    }
  }

  /**
   CSD 2.0: 1024 blocks of 512 bytes per unit of C_SIZE + 1, if and only if C_SIZE is not at its maximum: for a card of
   exactly 2 TiB the product wraps to 0, the value that means a format error.
   */
  lemma CapacityCsd20(csd: Csd, size: nat)
    requires Field(Number(csd), 127, 126) == 1 && size == Field(Number(csd), 69, 48)
    ensures Capacity(csd) == Some(1024 * (size + 1)) <==> size != 0x3F_FFFF
    ensures size == 0x3F_FFFF ==> Capacity(csd) == Some(0)
  {
    hide Slice, Number, Field;
    StructureField(csd);
    CsdFields(csd);
  }

  /** The reserved structures 2 and 3 give 0, the value that means a format error. */
  lemma CapacityReserved(csd: Csd)
    requires Field(Number(csd), 127, 126) >= 2
    ensures Capacity(csd) == Some(0)
  {
    hide Slice, Number, Field;
    StructureField(csd);
  }
}
