/**
 The 16 x 11 AC entries of each component, checked entry by entry against the T.81 tables.
 */
module AcTables {
  import opened Bits
  import opened Wrappers
  import opened CanonicalHuffman
  import opened JpegTables
  import opened HuffmanTables

  /** An entry, for any tables: its code lies in the range of its length and stands for its symbol. */
  predicate Entry(lens: seq<nat>, bits: seq<nat>, first: seq<int>, end: seq<int>, offset: seq<int>, pad: seq<int>,
                  values: seq<seq<nat>>, symbol: nat, size: nat)
    requires size < |lens| && size < |bits| && |first| == |end| == |offset| == |pad| == 17
  {
    var len := lens[size];
    && 1 <= len <= 16
    && var code := bits[size] - pad[len];
       && first[len] <= code < end[len]
       && var j := code + offset[len];
          && 0 <= j / 8 < |values| && j % 8 < |values[j / 8]|
          && values[j / 8][j % 8] == symbol
  }

  predicate LumaEntry(run: nat, size: nat)
    requires run <= 15 && size <= 10
  {
    Entry(HYAC_LEN[run], HYAC_BITS[run], AC_LUMA_FIRST, AC_LUMA_END, AC_LUMA_OFFSET, AC_LUMA_PAD,
          STD_AC_LUM_VALUES, 16 * run + size, size)
  }

  predicate LumaEntries(run: nat, from: nat, to: nat)
    requires run <= 15 && from <= to <= 11
    decreases 11 - from
  {
    from == to || (LumaEntry(run, from) && LumaEntries(run, from + 1, to))
  }

  predicate ChromaEntry(run: nat, size: nat)
    requires run <= 15 && size <= 10
  {
    Entry(HCAC_LEN[run], HCAC_BITS[run], AC_CHROMA_FIRST, AC_CHROMA_END, AC_CHROMA_OFFSET, AC_CHROMA_PAD,
          STD_AC_CHROM_VALUES, 16 * run + size, size)
  }

  predicate ChromaEntries(run: nat, from: nat, to: nat)
    requires run <= 15 && from <= to <= 11
    decreases 11 - from
  {
    from == to || (ChromaEntry(run, from) && ChromaEntries(run, from + 1, to))
  }

  /** An entry put together from what the tables hold: its length, its code, and where its symbol stands. */
  lemma EntryOf(lens: seq<nat>, bits: seq<nat>, first: seq<int>, end: seq<int>, offset: seq<int>, pad: seq<int>,
                values: seq<seq<nat>>, symbol: nat, size: nat, len: nat, code: int, row: nat, col: nat)
    requires size < |lens| && size < |bits| && |first| == |end| == |offset| == |pad| == 17 && 1 <= len <= 16 && col < 8
    requires lens[size] == len && bits[size] == code + pad[len] && first[len] <= code < end[len]
    requires code + offset[len] == 8 * row + col && row < |values| && col < |values[row]| && values[row][col] == symbol
    ensures Entry(lens, bits, first, end, offset, pad, values, symbol, size)
  {
    DivModUnique(8 * row + col, 8, row, col);
  }

  lemma LumaIs(run: nat, size: nat, len: nat, code: int, row: nat, col: nat)
    requires run <= 15 && size <= 10 && 1 <= len <= 16 && col < 8
    requires HYAC_LEN[run][size] == len && HYAC_BITS[run][size] == code + AC_LUMA_PAD[len]
    requires AC_LUMA_FIRST[len] <= code < AC_LUMA_END[len] && code + AC_LUMA_OFFSET[len] == 8 * row + col
    requires row < |STD_AC_LUM_VALUES| && col < |STD_AC_LUM_VALUES[row]| && STD_AC_LUM_VALUES[row][col] == 16 * run + size
    ensures LumaEntry(run, size)
  {
    EntryOf(HYAC_LEN[run], HYAC_BITS[run], AC_LUMA_FIRST, AC_LUMA_END, AC_LUMA_OFFSET, AC_LUMA_PAD,
            STD_AC_LUM_VALUES, 16 * run + size, size, len, code, row, col);
  }

  lemma LumaRow0Part0()
    ensures LumaEntry(0, 0) && LumaEntry(0, 1)
  {
    hide LumaEntry;
    LumaIs(0, 0, 4, 10, 0, 3);
    LumaIs(0, 1, 2, 0, 0, 0);
  }

  lemma LumaRow0Part1()
    ensures LumaEntry(0, 2) && LumaEntry(0, 3)
  {
    hide LumaEntry;
    LumaIs(0, 2, 2, 1, 0, 1);
    LumaIs(0, 3, 3, 4, 0, 2);
  }

  lemma LumaRow0Part2()
    ensures LumaEntry(0, 4) && LumaEntry(0, 5)
  {
    hide LumaEntry;
    LumaIs(0, 4, 4, 11, 0, 4);
    LumaIs(0, 5, 5, 26, 0, 6);
  }

  lemma LumaRow0Part3()
    ensures LumaEntry(0, 6) && LumaEntry(0, 7)
  {
    hide LumaEntry;
    LumaIs(0, 6, 7, 120, 1, 3);
    LumaIs(0, 7, 8, 248, 1, 7);
  }

  lemma LumaRow0Part4()
    ensures LumaEntry(0, 8) && LumaEntry(0, 9) && LumaEntry(0, 10)
  {
    hide LumaEntry;
    LumaIs(0, 8, 10, 1014, 2, 7);
    LumaIs(0, 9, 16, 65410, 4, 5);
    LumaIs(0, 10, 16, 65411, 4, 6);
  }

  lemma LumaRow0(size: nat)
    requires size <= 10
    ensures LumaEntry(0, size)
  {
    hide LumaEntry;
    LumaRow0Part0();
    LumaRow0Part1();
    LumaRow0Part2();
    LumaRow0Part3();
    LumaRow0Part4();
  }

  lemma LumaRow1Low()
    ensures LumaEntries(1, 1, 4)
  {}

  lemma LumaRow1Mid()
    ensures LumaEntries(1, 4, 6)
  {}

  lemma LumaRow1High()
    ensures LumaEntries(1, 6, 11)
  {}

  lemma LumaRow2Low()
    ensures LumaEntries(2, 1, 4)
  {}

  lemma LumaRow2Mid()
    ensures LumaEntries(2, 4, 6)
  {}

  lemma LumaRow2High()
    ensures LumaEntries(2, 6, 11)
  {}

  lemma LumaRow3Low()
    ensures LumaEntries(3, 1, 4)
  {}

  lemma LumaRow3Mid()
    ensures LumaEntries(3, 4, 6)
  {}

  lemma LumaRow3High()
    ensures LumaEntries(3, 6, 11)
  {}

  lemma LumaRow4Low()
    ensures LumaEntries(4, 1, 4)
  {}

  lemma LumaRow4Mid()
    ensures LumaEntries(4, 4, 6)
  {}

  lemma LumaRow4High()
    ensures LumaEntries(4, 6, 11)
  {}

  lemma LumaRow5Low()
    ensures LumaEntries(5, 1, 4)
  {}

  lemma LumaRow5Mid()
    ensures LumaEntries(5, 4, 6)
  {}

  lemma LumaRow5High()
    ensures LumaEntries(5, 6, 11)
  {}

  lemma LumaRow6Low()
    ensures LumaEntries(6, 1, 4)
  {}

  lemma LumaRow6Mid()
    ensures LumaEntries(6, 4, 6)
  {}

  lemma LumaRow6High()
    ensures LumaEntries(6, 6, 11)
  {}

  lemma LumaRow7Low()
    ensures LumaEntries(7, 1, 4)
  {}

  lemma LumaRow7Mid()
    ensures LumaEntries(7, 4, 6)
  {}

  lemma LumaRow7High()
    ensures LumaEntries(7, 6, 11)
  {}

  lemma LumaRow8Low()
    ensures LumaEntries(8, 1, 4)
  {}

  lemma LumaRow8Mid()
    ensures LumaEntries(8, 4, 6)
  {}

  lemma LumaRow8High()
    ensures LumaEntries(8, 6, 11)
  {}

  lemma LumaRow9Low()
    ensures LumaEntries(9, 1, 4)
  {}

  lemma LumaRow9Mid()
    ensures LumaEntries(9, 4, 6)
  {}

  lemma LumaRow9High()
    ensures LumaEntries(9, 6, 11)
  {}

  lemma LumaRow10Low()
    ensures LumaEntries(10, 1, 4)
  {}

  lemma LumaRow10Mid()
    ensures LumaEntries(10, 4, 6)
  {}

  lemma LumaRow10High()
    ensures LumaEntries(10, 6, 11)
  {}

  lemma LumaRow11Low()
    ensures LumaEntries(11, 1, 4)
  {}

  lemma LumaRow11Mid()
    ensures LumaEntries(11, 4, 6)
  {}

  lemma LumaRow11High()
    ensures LumaEntries(11, 6, 11)
  {}

  lemma LumaRow12Low()
    ensures LumaEntries(12, 1, 4)
  {}

  lemma LumaRow12Mid()
    ensures LumaEntries(12, 4, 6)
  {}

  lemma LumaRow12High()
    ensures LumaEntries(12, 6, 11)
  {}

  lemma LumaRow13Low()
    ensures LumaEntries(13, 1, 4)
  {}

  lemma LumaRow13Mid()
    ensures LumaEntries(13, 4, 6)
  {}

  lemma LumaRow13High()
    ensures LumaEntries(13, 6, 11)
  {}

  lemma LumaRow14Low()
    ensures LumaEntries(14, 1, 4)
  {}

  lemma LumaRow14Mid()
    ensures LumaEntries(14, 4, 6)
  {}

  lemma LumaRow14High()
    ensures LumaEntries(14, 6, 11)
  {}

  lemma LumaRow15Low()
    ensures LumaEntries(15, 0, 4)
  {}

  lemma LumaRow15Mid()
    ensures LumaEntries(15, 4, 6)
  {}

  lemma LumaRow15High()
    ensures LumaEntries(15, 6, 11)
  {}

  lemma ChromaRow0Low()
    ensures ChromaEntries(0, 0, 4)
  {}

  lemma ChromaRow0Mid()
    ensures ChromaEntries(0, 4, 6)
  {}

  lemma ChromaRow0High()
    ensures ChromaEntries(0, 6, 8)
  {}

  lemma ChromaRow0Eight()
    ensures ChromaEntries(0, 8, 9)
  {}

  lemma ChromaRow0Top()
    ensures ChromaEntries(0, 9, 11)
  {}

  lemma ChromaRow1Low()
    ensures ChromaEntries(1, 1, 4)
  {}

  lemma ChromaRow1Mid()
    ensures ChromaEntries(1, 4, 6)
  {}

  lemma ChromaRow1High()
    ensures ChromaEntries(1, 6, 11)
  {}

  lemma ChromaRow2Low()
    ensures ChromaEntries(2, 1, 4)
  {}

  lemma ChromaRow2Mid()
    ensures ChromaEntries(2, 4, 6)
  {}

  lemma ChromaRow2High()
    ensures ChromaEntries(2, 6, 11)
  {}

  lemma ChromaRow3Low()
    ensures ChromaEntries(3, 1, 4)
  {}

  lemma ChromaRow3Mid()
    ensures ChromaEntries(3, 4, 6)
  {}

  lemma ChromaRow3High()
    ensures ChromaEntries(3, 6, 11)
  {}

  lemma ChromaRow4Low()
    ensures ChromaEntries(4, 1, 4)
  {}

  lemma ChromaRow4Mid()
    ensures ChromaEntries(4, 4, 6)
  {}

  lemma ChromaRow4High()
    ensures ChromaEntries(4, 6, 11)
  {}

  lemma ChromaRow5Low()
    ensures ChromaEntries(5, 1, 4)
  {}

  lemma ChromaRow5Mid()
    ensures ChromaEntries(5, 4, 6)
  {}

  lemma ChromaRow5High()
    ensures ChromaEntries(5, 6, 11)
  {}

  lemma ChromaRow6Low()
    ensures ChromaEntries(6, 1, 4)
  {}

  lemma ChromaRow6Mid()
    ensures ChromaEntries(6, 4, 6)
  {}

  lemma ChromaRow6High()
    ensures ChromaEntries(6, 6, 9)
  {}

  lemma ChromaRow6Top()
    ensures ChromaEntry(6, 10)
  {}

  lemma ChromaRow7Low()
    ensures ChromaEntries(7, 1, 4)
  {}

  lemma ChromaRow7Mid()
    ensures ChromaEntries(7, 4, 6)
  {}

  lemma ChromaRow7High()
    ensures ChromaEntries(7, 6, 11)
  {}

  lemma ChromaRow8Low()
    ensures ChromaEntries(8, 1, 4)
  {}

  lemma ChromaRow8Mid()
    ensures ChromaEntries(8, 4, 6)
  {}

  lemma ChromaRow8High()
    ensures ChromaEntries(8, 6, 11)
  {}

  lemma ChromaRow9Low()
    ensures ChromaEntries(9, 1, 4)
  {}

  lemma ChromaRow9Mid()
    ensures ChromaEntries(9, 4, 6)
  {}

  lemma ChromaRow9High()
    ensures ChromaEntries(9, 6, 11)
  {}

  lemma ChromaRow10Low()
    ensures ChromaEntries(10, 1, 4)
  {}

  lemma ChromaRow10Mid()
    ensures ChromaEntries(10, 4, 6)
  {}

  lemma ChromaRow10High()
    ensures ChromaEntries(10, 6, 11)
  {}

  lemma ChromaRow11Low()
    ensures ChromaEntries(11, 1, 4)
  {}

  lemma ChromaRow11Mid()
    ensures ChromaEntries(11, 4, 6)
  {}

  lemma ChromaRow11High()
    ensures ChromaEntries(11, 6, 11)
  {}

  lemma ChromaRow12Low()
    ensures ChromaEntries(12, 1, 4)
  {}

  lemma ChromaRow12Mid()
    ensures ChromaEntries(12, 4, 6)
  {}

  lemma ChromaRow12High()
    ensures ChromaEntries(12, 6, 11)
  {}

  lemma ChromaRow13Low()
    ensures ChromaEntries(13, 1, 4)
  {}

  lemma ChromaRow13Mid()
    ensures ChromaEntries(13, 4, 6)
  {}

  lemma ChromaRow13High()
    ensures ChromaEntries(13, 6, 11)
  {}

  lemma ChromaRow14Low()
    ensures ChromaEntries(14, 1, 4)
  {}

  lemma ChromaRow14Mid()
    ensures ChromaEntries(14, 4, 6)
  {}

  lemma ChromaRow14High()
    ensures ChromaEntries(14, 6, 11)
  {}

  lemma ChromaRow15Low()
    ensures ChromaEntries(15, 0, 4)
  {}

  lemma ChromaRow15Mid()
    ensures ChromaEntries(15, 4, 6)
  {}

  lemma ChromaRow15High()
    ensures ChromaEntries(15, 6, 11)
  {}

  lemma {:induction false} LumaEntryIn(run: nat, from: nat, to: nat, size: nat)
    requires run <= 15 && from <= size < to <= 11 && LumaEntries(run, from, to)
    ensures LumaEntry(run, size)
    decreases size - from
  {
    hide LumaEntry;
    if from < size {
      LumaEntryIn(run, from + 1, to, size);
    }
  }

  lemma LumaLowPart(run: nat, size: nat)
    requires 1 <= run <= 14 && 1 <= size < 4
    ensures LumaEntry(run, size)
  {
    match run
    case 1 => LumaRow1Low(); LumaEntryIn(run, 1, 4, size);
    case 2 => LumaRow2Low(); LumaEntryIn(run, 1, 4, size);
    case 3 => LumaRow3Low(); LumaEntryIn(run, 1, 4, size);
    case 4 => LumaRow4Low(); LumaEntryIn(run, 1, 4, size);
    case 5 => LumaRow5Low(); LumaEntryIn(run, 1, 4, size);
    case 6 => LumaRow6Low(); LumaEntryIn(run, 1, 4, size);
    case 7 => LumaRow7Low(); LumaEntryIn(run, 1, 4, size);
    case 8 => LumaRow8Low(); LumaEntryIn(run, 1, 4, size);
    case 9 => LumaRow9Low(); LumaEntryIn(run, 1, 4, size);
    case 10 => LumaRow10Low(); LumaEntryIn(run, 1, 4, size);
    case 11 => LumaRow11Low(); LumaEntryIn(run, 1, 4, size);
    case 12 => LumaRow12Low(); LumaEntryIn(run, 1, 4, size);
    case 13 => LumaRow13Low(); LumaEntryIn(run, 1, 4, size);
    case 14 => LumaRow14Low(); LumaEntryIn(run, 1, 4, size);
  }

  lemma LumaMidPart(run: nat, size: nat)
    requires 1 <= run <= 14 && 4 <= size < 6
    ensures LumaEntry(run, size)
  {
    match run
    case 1 => LumaRow1Mid(); LumaEntryIn(run, 4, 6, size);
    case 2 => LumaRow2Mid(); LumaEntryIn(run, 4, 6, size);
    case 3 => LumaRow3Mid(); LumaEntryIn(run, 4, 6, size);
    case 4 => LumaRow4Mid(); LumaEntryIn(run, 4, 6, size);
    case 5 => LumaRow5Mid(); LumaEntryIn(run, 4, 6, size);
    case 6 => LumaRow6Mid(); LumaEntryIn(run, 4, 6, size);
    case 7 => LumaRow7Mid(); LumaEntryIn(run, 4, 6, size);
    case 8 => LumaRow8Mid(); LumaEntryIn(run, 4, 6, size);
    case 9 => LumaRow9Mid(); LumaEntryIn(run, 4, 6, size);
    case 10 => LumaRow10Mid(); LumaEntryIn(run, 4, 6, size);
    case 11 => LumaRow11Mid(); LumaEntryIn(run, 4, 6, size);
    case 12 => LumaRow12Mid(); LumaEntryIn(run, 4, 6, size);
    case 13 => LumaRow13Mid(); LumaEntryIn(run, 4, 6, size);
    case 14 => LumaRow14Mid(); LumaEntryIn(run, 4, 6, size);
  }

  lemma LumaHighPart(run: nat, size: nat)
    requires 1 <= run <= 15 && 6 <= size < 11
    ensures LumaEntry(run, size)
  {
    match run
    case 1 => LumaRow1High(); LumaEntryIn(run, 6, 11, size);
    case 2 => LumaRow2High(); LumaEntryIn(run, 6, 11, size);
    case 3 => LumaRow3High(); LumaEntryIn(run, 6, 11, size);
    case 4 => LumaRow4High(); LumaEntryIn(run, 6, 11, size);
    case 5 => LumaRow5High(); LumaEntryIn(run, 6, 11, size);
    case 6 => LumaRow6High(); LumaEntryIn(run, 6, 11, size);
    case 7 => LumaRow7High(); LumaEntryIn(run, 6, 11, size);
    case 8 => LumaRow8High(); LumaEntryIn(run, 6, 11, size);
    case 9 => LumaRow9High(); LumaEntryIn(run, 6, 11, size);
    case 10 => LumaRow10High(); LumaEntryIn(run, 6, 11, size);
    case 11 => LumaRow11High(); LumaEntryIn(run, 6, 11, size);
    case 12 => LumaRow12High(); LumaEntryIn(run, 6, 11, size);
    case 13 => LumaRow13High(); LumaEntryIn(run, 6, 11, size);
    case 14 => LumaRow14High(); LumaEntryIn(run, 6, 11, size);
    case 15 => LumaRow15High(); LumaEntryIn(run, 6, 11, size);
  }

  lemma {:induction false} ChromaEntryIn(run: nat, from: nat, to: nat, size: nat)
    requires run <= 15 && from <= size < to <= 11 && ChromaEntries(run, from, to)
    ensures ChromaEntry(run, size)
    decreases size - from
  {
    hide ChromaEntry;
    if from < size {
      ChromaEntryIn(run, from + 1, to, size);
    }
  }

  /** The first and the last row, which have an entry for size 0. */
  lemma ChromaEndRows(run: nat, size: nat)
    requires (run == 0 || run == 15) && size < 6
    ensures ChromaEntry(run, size)
  {
    if run == 0 {
      if size < 4 {
        ChromaRow0Low();
        ChromaEntryIn(0, 0, 4, size);
      } else {
        ChromaRow0Mid();
        ChromaEntryIn(0, 4, 6, size);
      }
    } else if size < 4 {
      ChromaRow15Low();
      ChromaEntryIn(15, 0, 4, size);
    } else {
      ChromaRow15Mid();
      ChromaEntryIn(15, 4, 6, size);
    }
  }

  lemma ChromaLowPart(run: nat, size: nat)
    requires 1 <= run <= 14 && 1 <= size < 4
    ensures ChromaEntry(run, size)
  {
    match run
    case 1 => ChromaRow1Low(); ChromaEntryIn(run, 1, 4, size);
    case 2 => ChromaRow2Low(); ChromaEntryIn(run, 1, 4, size);
    case 3 => ChromaRow3Low(); ChromaEntryIn(run, 1, 4, size);
    case 4 => ChromaRow4Low(); ChromaEntryIn(run, 1, 4, size);
    case 5 => ChromaRow5Low(); ChromaEntryIn(run, 1, 4, size);
    case 6 => ChromaRow6Low(); ChromaEntryIn(run, 1, 4, size);
    case 7 => ChromaRow7Low(); ChromaEntryIn(run, 1, 4, size);
    case 8 => ChromaRow8Low(); ChromaEntryIn(run, 1, 4, size);
    case 9 => ChromaRow9Low(); ChromaEntryIn(run, 1, 4, size);
    case 10 => ChromaRow10Low(); ChromaEntryIn(run, 1, 4, size);
    case 11 => ChromaRow11Low(); ChromaEntryIn(run, 1, 4, size);
    case 12 => ChromaRow12Low(); ChromaEntryIn(run, 1, 4, size);
    case 13 => ChromaRow13Low(); ChromaEntryIn(run, 1, 4, size);
    case 14 => ChromaRow14Low(); ChromaEntryIn(run, 1, 4, size);
  }

  lemma ChromaMidPart(run: nat, size: nat)
    requires 1 <= run <= 14 && 4 <= size < 6
    ensures ChromaEntry(run, size)
  {
    match run
    case 1 => ChromaRow1Mid(); ChromaEntryIn(run, 4, 6, size);
    case 2 => ChromaRow2Mid(); ChromaEntryIn(run, 4, 6, size);
    case 3 => ChromaRow3Mid(); ChromaEntryIn(run, 4, 6, size);
    case 4 => ChromaRow4Mid(); ChromaEntryIn(run, 4, 6, size);
    case 5 => ChromaRow5Mid(); ChromaEntryIn(run, 4, 6, size);
    case 6 => ChromaRow6Mid(); ChromaEntryIn(run, 4, 6, size);
    case 7 => ChromaRow7Mid(); ChromaEntryIn(run, 4, 6, size);
    case 8 => ChromaRow8Mid(); ChromaEntryIn(run, 4, 6, size);
    case 9 => ChromaRow9Mid(); ChromaEntryIn(run, 4, 6, size);
    case 10 => ChromaRow10Mid(); ChromaEntryIn(run, 4, 6, size);
    case 11 => ChromaRow11Mid(); ChromaEntryIn(run, 4, 6, size);
    case 12 => ChromaRow12Mid(); ChromaEntryIn(run, 4, 6, size);
    case 13 => ChromaRow13Mid(); ChromaEntryIn(run, 4, 6, size);
    case 14 => ChromaRow14Mid(); ChromaEntryIn(run, 4, 6, size);
  }

  lemma ChromaHighPart(run: nat, size: nat)
    requires run <= 15 && 6 <= size < 11 && !(run == 6 && size == 9)
    ensures ChromaEntry(run, size)
  {
    match run
    case 0 =>
      if size < 8 {
        ChromaRow0High();
        ChromaEntryIn(run, 6, 8, size);
      } else if size == 8 {
        ChromaRow0Eight();
        ChromaEntryIn(run, 8, 9, size);
      } else {
        ChromaRow0Top();
        ChromaEntryIn(run, 9, 11, size);
      }
    case 1 => ChromaRow1High(); ChromaEntryIn(run, 6, 11, size);
    case 2 => ChromaRow2High(); ChromaEntryIn(run, 6, 11, size);
    case 3 => ChromaRow3High(); ChromaEntryIn(run, 6, 11, size);
    case 4 => ChromaRow4High(); ChromaEntryIn(run, 6, 11, size);
    case 5 => ChromaRow5High(); ChromaEntryIn(run, 6, 11, size);
    case 6 =>
      if size < 9 {
        ChromaRow6High();
        ChromaEntryIn(run, 6, 9, size);
      } else {
        ChromaRow6Top();
      }
    case 7 => ChromaRow7High(); ChromaEntryIn(run, 6, 11, size);
    case 8 => ChromaRow8High(); ChromaEntryIn(run, 6, 11, size);
    case 9 => ChromaRow9High(); ChromaEntryIn(run, 6, 11, size);
    case 10 => ChromaRow10High(); ChromaEntryIn(run, 6, 11, size);
    case 11 => ChromaRow11High(); ChromaEntryIn(run, 6, 11, size);
    case 12 => ChromaRow12High(); ChromaEntryIn(run, 6, 11, size);
    case 13 => ChromaRow13High(); ChromaEntryIn(run, 6, 11, size);
    case 14 => ChromaRow14High(); ChromaEntryIn(run, 6, 11, size);
    case 15 => ChromaRow15High(); ChromaEntryIn(run, 6, 11, size);
  }

  /** The zero runs and sizes a baseline AC coefficient can have, EOB (0, 0) and ZRL (15, 0). */
  predicate HasAcCode(run: nat, size: nat) {
    run <= 15 && (1 <= size <= 10 || (size == 0 && (run == 0 || run == 15)))
  }

  predicate Collides(c: Component, run: nat, size: nat) {
    c == Chroma && run == 6 && size == 9
  }

  lemma LumaEntryHolds(run: nat, size: nat)
    requires HasAcCode(run, size)
    ensures LumaEntry(run, size)
  {
    if run == 0 {
      LumaRow0(size);
    } else if size >= 6 {
      LumaHighPart(run, size);
    } else if run == 15 {
      if size < 4 {
        LumaRow15Low();
        LumaEntryIn(15, 0, 4, size);
      } else {
        LumaRow15Mid();
        LumaEntryIn(15, 4, 6, size);
      }
    } else if size >= 4 {
      LumaMidPart(run, size);
    } else {
      LumaLowPart(run, size);
    }
  }

  lemma ChromaEntryHolds(run: nat, size: nat)
    requires HasAcCode(run, size) && !Collides(Chroma, run, size)
    ensures ChromaEntry(run, size)
  {
    if size >= 6 {
      ChromaHighPart(run, size);
    } else if run == 0 || run == 15 {
      ChromaEndRows(run, size);
    } else if size >= 4 {
      ChromaMidPart(run, size);
    } else {
      ChromaLowPart(run, size);
    }
  }

  predicate Pads(pad: seq<int>) {
    |pad| == 17 && forall len :: 1 <= len <= 16 ==> 0 <= pad[len] && pad[len] % Pow2(len) == 0
  }

  lemma EntryCodes(ctx: HuffmanCtx, spec: TableSpec, first: seq<int>, end: seq<int>, offset: seq<int>, pad: seq<int>,
                   run: nat, size: nat)
    requires ctx.HasAc(run, size) && StepsOk(spec.counts, first, end, offset) && Pads(pad)
    requires Entry(ctx.haclen[run], ctx.hacbit[run], first, end, offset, pad, spec.values, 16 * run + size, size)
    ensures Codes(spec.Decoder(), ctx.AcCode(run, size), 16 * run + size)
  {
    hide Pow2, FirstCode, FirstIndex, Start, Codes, StepOk;
    var len, bits := ctx.haclen[run][size], ctx.hacbit[run][size];
    StartAt(spec.counts, first, end, offset, len);
    PaddedCodeCodes(spec, first, end, offset, len, bits, pad[len], 16 * run + size);
  }

  lemma CtxHasAc(c: Component, run: nat, size: nat)
    requires HasAcCode(run, size)
    ensures StandardCtx(c).HasAc(run, size)
  {}

  lemma LumaCodes(run: nat, size: nat)
    requires HasAcCode(run, size)
    ensures StandardCtx(Luma).HasAc(run, size) && Codes(AcSpec(Luma).Decoder(), StandardCtx(Luma).AcCode(run, size), 16 * run + size)
  {
    CtxHasAc(Luma, run, size);
    LumaEntryHolds(run, size);
    AcLumaSteps();
    PadsAreMultiples();
    EntryCodes(StandardCtx(Luma), AcSpec(Luma), AC_LUMA_FIRST, AC_LUMA_END, AC_LUMA_OFFSET, AC_LUMA_PAD, run, size);
  }

  lemma ChromaCodes(run: nat, size: nat)
    requires HasAcCode(run, size) && !Collides(Chroma, run, size)
    ensures StandardCtx(Chroma).HasAc(run, size) && Codes(AcSpec(Chroma).Decoder(), StandardCtx(Chroma).AcCode(run, size), 16 * run + size)
  {
    CtxHasAc(Chroma, run, size);
    ChromaEntryHolds(run, size);
    AcChromaSteps();
    PadsAreMultiples();
    EntryCodes(StandardCtx(Chroma), AcSpec(Chroma), AC_CHROMA_FIRST, AC_CHROMA_END, AC_CHROMA_OFFSET, AC_CHROMA_PAD, run, size);
  }

  lemma PadsAreMultiples()
    ensures Pads(AC_LUMA_PAD) && Pads(AC_CHROMA_PAD)
  {
    forall len | 1 <= len <= 16
      ensures 0 <= AC_LUMA_PAD[len] && AC_LUMA_PAD[len] % Pow2(len) == 0
    {
      PadIsMultiple(len);
    }
    forall len | 1 <= len <= 16
      ensures 0 == AC_CHROMA_PAD[len] && AC_CHROMA_PAD[len] % Pow2(len) == 0
    {
      ZeroMod(Pow2(len));
    }
  }

  lemma ZeroMod(d: int)
    requires d > 0
    ensures 0 % d == 0
  {}

  /** The bad entry: run 6 / size 9 is written with the code of run 7 / size 3. */
  lemma CollidingEntry()
    ensures StandardCtx(Chroma).HasAc(6, 9) && StandardCtx(Chroma).HasAc(7, 3)
    ensures StandardCtx(Chroma).AcCode(6, 9) == StandardCtx(Chroma).AcCode(7, 3)
  {
    assert HCAC_LEN[6][9] == HCAC_LEN[7][3] && HCAC_BITS[6][9] == HCAC_BITS[7][3];
  }

  /** An AC entry means its own symbol exactly when it is not the colliding one; that one means run 7 / size 3. */
  lemma AcCodeCodes(c: Component, run: nat, size: nat)
    requires HasAcCode(run, size)
    ensures StandardCtx(c).HasAc(run, size)
    ensures Codes(AcSpec(c).Decoder(), StandardCtx(c).AcCode(run, size), 16 * run + size) <==> !Collides(c, run, size)
    ensures Collides(c, run, size) ==> Codes(AcSpec(c).Decoder(), StandardCtx(c).AcCode(run, size), 16 * 7 + 3)
  {
    if c == Luma {
      LumaCodes(run, size);
    } else if !Collides(c, run, size) {
      ChromaCodes(run, size);
    } else {
      CollidingEntry();
      ChromaCodes(7, 3);
      var code := StandardCtx(Chroma).AcCode(7, 3);
      assert AcSpec(Chroma).DecodeSymbol(code + []) == Some((16 * 7 + 3, []));
    }
  }
}
