/**
 Huffman tables as ITU-T T.81 specifies them: a table is the number of codes of each length 1..16
 (BITS) and the symbols in code order (HUFFVAL); annex C.2 turns it into codes, section F.2.2.3
 decodes one symbol. The repository holds both the T.81 tables and ready-made codes but no decoder:
 this module is the decoder's specification, for every table.
 */
module CanonicalHuffman {
  import opened Bits
  import opened Wrappers

  const MAX_LENGTH := 16

  type Counts = c: seq<nat> | |c| == MAX_LENGTH witness seq(MAX_LENGTH, _ => 0)

  /** The first code of length `l`: one more than the last shorter code, shifted up to length `l`. */
  function FirstCode(counts: Counts, l: nat): nat
    requires 1 <= l <= MAX_LENGTH
  {
    if l == 1 then 0 else 2 * (FirstCode(counts, l - 1) + counts[l - 2])
  }

  /** The number of codes shorter than `l` bits: where the codes of length `l` start in HUFFVAL. */
  function FirstIndex(counts: Counts, l: nat): nat
    requires 1 <= l <= MAX_LENGTH
  {
    if l == 1 then 0 else FirstIndex(counts, l - 1) + counts[l - 2]
  }

  /** `code`, written with `l` bits, is one of the table's codes. */
  predicate IsCode(counts: Counts, l: nat, code: nat) {
    && 1 <= l <= MAX_LENGTH
    && FirstCode(counts, l) <= code < FirstCode(counts, l) + counts[l - 1]
    && code < Pow2(l)
  }

  /** The position in HUFFVAL of the symbol `code` stands for. */
  function SymbolIndex(counts: Counts, l: nat, code: nat): nat
    requires IsCode(counts, l, code)
  {
    FirstIndex(counts, l) + (code - FirstCode(counts, l))
  }

  /** T.81 figure F.16 (DECODE): `code` holds the `l` bits read so far. */
  function DecodeFrom(counts: Counts, bits: seq<bool>, l: nat, code: nat): Option<(nat, seq<bool>)>
    requires 1 <= l <= MAX_LENGTH && FirstCode(counts, l) <= code
    decreases MAX_LENGTH - l
  {
    if code < FirstCode(counts, l) + counts[l - 1] then
      Some((FirstIndex(counts, l) + (code - FirstCode(counts, l)), bits))
    else if l == MAX_LENGTH || bits == [] then
      None
    else
      DecodeFrom(counts, bits[1..], l + 1, 2 * code + (if bits[0] then 1 else 0))
  }

  /** Reads one code; gives the symbol's position in HUFFVAL and the bits that follow it. */
  function Decode(counts: Counts, bits: seq<bool>): Option<(nat, seq<bool>)> {
    if bits == [] then None else DecodeFrom(counts, bits[1..], 1, if bits[0] then 1 else 0)
  }

  lemma Doubled(a: nat, d: nat)
    ensures a * (2 * d) == 2 * (a * d) == 2 * a * d
  {
  }

  /** Annex C.2, figure C.2: the next symbol's code is the last one plus 1, shifted left by the growth in length. */
  lemma {:induction false} NextCode(counts: Counts, l: nat, m: nat)
    requires 1 <= l < m <= MAX_LENGTH && counts[l - 1] > 0
    requires forall i :: l <= i < m - 1 ==> counts[i] == 0
    ensures FirstCode(counts, m) == (FirstCode(counts, l) + counts[l - 1] - 1 + 1) * Pow2(m - l)
    ensures FirstIndex(counts, m) == FirstIndex(counts, l) + counts[l - 1]
    decreases m
  {
    if m == l + 1 {
      assert Pow2(1) == 2;
    } else {
      NextCode(counts, l, m - 1);
      assert counts[m - 2] == 0;
      var code, p := FirstCode(counts, l) + counts[l - 1], Pow2(m - 1 - l);
      assert Pow2(m - l) == 2 * p;
      hide Pow2;
      Doubled(code, p);
    }
  }

  /** Every code of length `l` is beyond all extensions of every shorter code. */
  lemma {:induction false} ShorterCodesAreSmaller(counts: Counts, i: nat, l: nat)
    requires 1 <= i < l <= MAX_LENGTH
    ensures (FirstCode(counts, i) + counts[i - 1]) * Pow2(l - i) <= FirstCode(counts, l)
    decreases l - i
  {
    if i + 1 < l {
      ShorterCodesAreSmaller(counts, i + 1, l);
      var a, b := FirstCode(counts, i) + counts[i - 1], FirstCode(counts, i + 1) + counts[i];
      var d := Pow2(l - (i + 1));
      assert Pow2(l - i) == 2 * d && FirstCode(counts, i + 1) == 2 * a;
      hide Pow2, FirstCode;
      MulMono(2 * a, b, d);
      Doubled(a, d);
    } else {
      assert Pow2(1) == 2;
    }
  }

  /** The `i` leading bits of a longer code are not a code. */
  lemma PrefixIsNoCode(counts: Counts, l: nat, code: nat, i: nat)
    requires IsCode(counts, l, code) && 1 <= i < l
    ensures code / Pow2(l - i) >= FirstCode(counts, i) + counts[i - 1]
  {
    ShorterCodesAreSmaller(counts, i, l);
    DivAtLeast(code, Pow2(l - i), FirstCode(counts, i) + counts[i - 1]);
  }

  /** Beyond the codes of length `l` DECODE reads one more bit. */
  lemma DecodeStep(counts: Counts, bits: seq<bool>, l: nat, code: nat)
    requires 1 <= l < MAX_LENGTH && FirstCode(counts, l) + counts[l - 1] <= code && bits != []
    ensures var code' := 2 * code + (if bits[0] then 1 else 0);
            FirstCode(counts, l + 1) <= code' && DecodeFrom(counts, bits, l, code) == DecodeFrom(counts, bits[1..], l + 1, code')
  {
  }

  lemma PowZero()
    ensures Pow2(0) == 1
  {
  }

  /** A code that has been read whole is found. */
  lemma DecodeAtEnd(counts: Counts, l: nat, code: nat, bits: seq<bool>)
    requires IsCode(counts, l, code)
    ensures DecodeFrom(counts, bits, l, code) == Some((SymbolIndex(counts, l, code), bits))
  {
  }

  /** The bits of a code after the first `l - n` of them. */
  lemma SuffixBits(code: nat, n: nat, rest: seq<bool>, bits: seq<bool>)
    requires bits == BitsOf(code, n) + rest
    ensures n == 0 ==> bits == rest && code / Pow2(n) == code
    ensures n > 0 ==> bits[0] == (code / Pow2(n - 1) % 2 == 1) && bits[1..] == BitsOf(code, n - 1) + rest
  {
    PowZero();
  }

  lemma {:induction false} DecodeSuffix(counts: Counts, l: nat, code: nat, i: nat, rest: seq<bool>)
    requires IsCode(counts, l, code) && 1 <= i <= l
    requires code / Pow2(l - i) >= FirstCode(counts, i)
    ensures DecodeFrom(counts, BitsOf(code, l - i) + rest, i, code / Pow2(l - i)) ==
            Some((SymbolIndex(counts, l, code), rest))
    decreases l - i
  {
    hide FirstCode, FirstIndex, Pow2, DecodeFrom, BitsOf, SymbolIndex;
    var bits := BitsOf(code, l - i) + rest;
    SuffixBits(code, l - i, rest, bits);
    if i == l {
      DecodeAtEnd(counts, l, code, rest);
    } else {
      PrefixIsNoCode(counts, l, code, i);
      NextPrefix(code, l - i);
      DecodeStep(counts, bits, i, code / Pow2(l - i));
      DecodeSuffix(counts, l, code, i + 1, rest);
    }
  }

  lemma TopBit(code: nat, l: nat)
    requires 1 <= l && code < Pow2(l)
    ensures code / Pow2(l - 1) == if BitsOf(code, l)[0] then 1 else 0
  {
    DivAtLeast(code, Pow2(l - 1), 0);
    DivBelow(code, Pow2(l - 1), 2);
  }

  /** Decoding inverts coding: whatever follows a code, exactly its bits are read and its symbol found. */
  lemma DecodeInvertsCode(counts: Counts, l: nat, code: nat, rest: seq<bool>)
    requires IsCode(counts, l, code)
    ensures Decode(counts, BitsOf(code, l) + rest) == Some((SymbolIndex(counts, l, code), rest))
  {
    var bits := BitsOf(code, l);
    TopBit(code, l);
    assert (bits + rest)[1..] == BitsOf(code, l - 1) + rest;
    DecodeSuffix(counts, l, code, 1, rest);
  }

  /** Conversely, whatever decodes to a symbol begins with that symbol's code, so codes are prefix-free. */
  lemma {:induction false} DecodeFromReadsCode(counts: Counts, read: seq<bool>, bits: seq<bool>)
    requires 1 <= |read| <= MAX_LENGTH && FirstCode(counts, |read|) <= Value(read)
    requires DecodeFrom(counts, bits, |read|, Value(read)).Some?
    ensures var (j, rest) := DecodeFrom(counts, bits, |read|, Value(read)).value;
            exists l: nat, code: nat :: IsCode(counts, l, code) && j == SymbolIndex(counts, l, code)
                              && read + bits == BitsOf(code, l) + rest
    decreases MAX_LENGTH - |read|
  {
    var l, code := |read|, Value(read);
    if code < FirstCode(counts, l) + counts[l - 1] {
      BitsOfValue(read);
      assert IsCode(counts, l, code);
    } else {
      ValueAppend(read, bits[0]);
      assert read + bits == (read + [bits[0]]) + bits[1..];
      DecodeFromReadsCode(counts, read + [bits[0]], bits[1..]);
    }
  }

  lemma {:induction false} ValueAppend(read: seq<bool>, bit: bool)
    ensures Value(read + [bit]) == 2 * Value(read) + (if bit then 1 else 0)
  {
    if read == [] {
      assert [bit][1..] == [];
    } else {
      ValueAppend(read[1..], bit);
      assert (read + [bit])[1..] == read[1..] + [bit];
      assert Pow2(|read|) == 2 * Pow2(|read| - 1);
    }
  }

  lemma DecodeReadsCode(counts: Counts, bits: seq<bool>)
    requires Decode(counts, bits).Some?
    ensures var (j, rest) := Decode(counts, bits).value;
            exists l: nat, code: nat :: IsCode(counts, l, code) && j == SymbolIndex(counts, l, code)
                              && bits == BitsOf(code, l) + rest
  {
    assert Value([bits[0]]) == if bits[0] then 1 else 0 by {
      assert [bits[0]][1..] == [];
    }
    DecodeFromReadsCode(counts, [bits[0]], bits[1..]);
    assert [bits[0]] + bits[1..] == bits;
  }
}
