/**
 The line index of spi_flash.c: `generateLineIndex` rescans the image for restart markers and writes one `line_data`
 record per line below the image; `readLineFromSPI` serves a line through its record.
 */
module LineIndex {
  import opened Bits
  import opened Wrappers
  import opened Mram

  const SYSTEM_DATA_ADDR := 0x100
  const IMAGE_DATA_START := 0x500
  const RECORD_SIZE := 16

  /** Addresses of image bytes end here: past the top of the memory the 256 cells below the records are still free. */
  const IMAGE_LIMIT := MRAM_SIZE + SYSTEM_DATA_ADDR

  // ---------- line_data records ----------

  datatype LineData = LineData(lineNum: nat, startAddr: nat, endAddr: nat, chksum: nat) {
    predicate Valid() {
      lineNum < UINT32 && startAddr < UINT32 && endAddr < UINT32 && chksum < UINT32
    }
  }

  /** A `uint32_t` in memory, least significant byte first. */
  function Word32(x: nat): (b: seq<byte>)
    ensures |b| == 4
  {
    [x % 0x100, x / 0x100 % 0x100, x / 0x1_0000 % 0x100, x / 0x100_0000 % 0x100]
  }

  function FromWord32(b: seq<byte>): nat
    requires |b| == 4
  {
    b[0] as int + 0x100 * (b[1] as int) + 0x1_0000 * (b[2] as int) + 0x100_0000 * (b[3] as int)
  }

  lemma Word32RoundTrip(x: nat)
    requires x < UINT32
    ensures FromWord32(Word32(x)) == x
  {
    DivDiv(x, 0x100, 0x100);
    DivDiv(x, 0x1_0000, 0x100);
    assert x / 0x100_0000 % 0x100 == x / 0x100_0000;
  }

  /** The struct as `flashWriteBytes` receives it. */
  function Record(d: LineData): (b: seq<byte>)
    ensures |b| == RECORD_SIZE
  {
    Word32(d.lineNum) + Word32(d.startAddr) + Word32(d.endAddr) + Word32(d.chksum)
  }

  function FromRecord(b: seq<byte>): LineData
    requires |b| == RECORD_SIZE
  {
    LineData(FromWord32(b[0..4]), FromWord32(b[4..8]), FromWord32(b[8..12]), FromWord32(b[12..16]))
  }

  lemma RecordRoundTrip(d: LineData)
    requires d.Valid()
    ensures FromRecord(Record(d)) == d
  {
    var b := Record(d);
    assert b[0..4] == Word32(d.lineNum) && b[4..8] == Word32(d.startAddr);
    assert b[8..12] == Word32(d.endAddr) && b[12..16] == Word32(d.chksum);
    Word32RoundTrip(d.lineNum);
    Word32RoundTrip(d.startAddr);
    Word32RoundTrip(d.endAddr);
    Word32RoundTrip(d.chksum);
  }

  function RecordAddr(line: nat): nat {
    SYSTEM_DATA_ADDR + RECORD_SIZE * line
  }

  // ---------- markers ----------

  const RST_MASK := 0xFFD8
  const RST_VALUE := 0xFFD0

  /** The words the scanner takes for restart markers: RST0 to RST7, and eight words that are none. */
  predicate LooksLikeRst(word: nat) {
    0xFFD0 <= word <= 0xFFD7 || 0xFFF0 <= word <= 0xFFF7
  }

  lemma MaskedLowByte(word: nat, q1: nat, q2: nat, q3: nat, q4: nat, q5: nat, q6: nat, q7: nat, q8: nat)
    requires q1 == word / 2 && q2 == q1 / 2 && q3 == q2 / 2 && q4 == q3 / 2
    requires q5 == q4 / 2 && q6 == q5 / 2 && q7 == q6 / 2 && q8 == q7 / 2
    ensures BitAnd(word, RST_MASK, 16) ==
            8 * (q3 % 2) + 16 * (q4 % 2) + 64 * (q6 % 2) + 128 * (q7 % 2) + 256 * BitAnd(q8, 0xFF, 8)
  {
    assert BitAnd(q7, 0x1FF, 9) == 2 * BitAnd(q8, 0xFF, 8) + q7 % 2;
    assert BitAnd(q6, 0x3FF, 10) == 2 * BitAnd(q7, 0x1FF, 9) + q6 % 2;
    assert BitAnd(q5, 0x7FE, 11) == 2 * BitAnd(q6, 0x3FF, 10);
    assert BitAnd(q4, 0xFFD, 12) == 2 * BitAnd(q5, 0x7FE, 11) + q4 % 2;
    assert BitAnd(q3, 0x1FFB, 13) == 2 * BitAnd(q4, 0xFFD, 12) + q3 % 2;
    assert BitAnd(q2, 0x3FF6, 14) == 2 * BitAnd(q3, 0x1FFB, 13);
    assert BitAnd(q1, 0x7FEC, 15) == 2 * BitAnd(q2, 0x3FF6, 14);
  }

  lemma MaskedBits(word: nat, q1: nat, q2: nat, q3: nat, q4: nat, q5: nat, q6: nat, q7: nat, q8: nat)
    requires q1 == word / 2 && q2 == q1 / 2 && q3 == q2 / 2 && q4 == q3 / 2
    requires q5 == q4 / 2 && q6 == q5 / 2 && q7 == q6 / 2 && q8 == q7 / 2 && word < 0x1_0000
    ensures 8 * (q3 % 2) + 16 * (q4 % 2) + 64 * (q6 % 2) + 128 * (q7 % 2) + 256 * q8 == RST_VALUE <==> LooksLikeRst(word)
  {
    MaskedSum(q8, q7 % 2, q6 % 2, q5 % 2, q4 % 2, q3 % 2, word % 8);
    assert q2 == 2 * q3 + q2 % 2 && q1 == 2 * q2 + q1 % 2 && word == 2 * q1 + word % 2;
    DivModUnique(word, 8, q3, 4 * (q2 % 2) + 2 * (q1 % 2) + word % 2);
  }

  lemma MaskedSum(high: nat, b7: nat, b6: nat, b5: nat, b4: nat, b3: nat, low: nat)
    requires b7 < 2 && b6 < 2 && b5 < 2 && b4 < 2 && b3 < 2 && low < 8
    ensures 8 * b3 + 16 * b4 + 64 * b6 + 128 * b7 + 256 * high == RST_VALUE <==>
            LooksLikeRst(256 * high + 128 * b7 + 64 * b6 + 32 * b5 + 16 * b4 + 8 * b3 + low)
  {
  }

  lemma HighByte(q: nat)
    requires q < 256
    ensures BitAnd(q, 0xFF, 8) == q
  {
    assert Pow2(8) == 256;
    BitAndOnes(q, 0xFF, 8);
  }

  lemma EightHalves(word: nat)
    requires word < 0x1_0000
    ensures word / 2 / 2 / 2 / 2 / 2 / 2 / 2 / 2 < 256
  {
  }

  /** `(word & 0xFFD8) == 0xFFD0` holds of exactly these words. */
  lemma MaskMeaning(word: nat, masked: nat)
    requires word < 0x1_0000 && masked == BitAnd(word, RST_MASK, 16)
    ensures masked == RST_VALUE <==> LooksLikeRst(word)
  {
    var q1 := word / 2;
    var q2 := q1 / 2;
    var q3 := q2 / 2;
    var q4 := q3 / 2;
    var q5 := q4 / 2;
    var q6 := q5 / 2;
    var q7 := q6 / 2;
    var q8 := q7 / 2;
    assert masked == 8 * (q3 % 2) + 16 * (q4 % 2) + 64 * (q6 % 2) + 128 * (q7 % 2) + 256 * q8 by {
      MaskedLowByte(word, q1, q2, q3, q4, q5, q6, q7, q8);
      EightHalves(word);
      HighByte(q8);
    }
    MaskedBits(word, q1, q2, q3, q4, q5, q6, q7, q8);
  }

  const EOI_WORD := 0xFFD9

  function Word(m: Memory, pos: nat): (w: nat)
    ensures w < 0x1_0000
  {
    0x100 * (m[Cell(pos)] as int) + m[Cell(pos + 1)] as int
  }

  // ---------- line numbers ----------

  /** The number given to a marker with low bits `rst` when `line` is the next number expected. */
  function NextLine(line: nat, rst: nat): nat {
    if line % 8 == rst then line
    else if line % 8 < rst then line - line % 8 + rst
    else line - line % 8 + rst + 8
  }

  /** It is the least number from `line` on that agrees with the marker modulo 8. */
  lemma NextLineIsLeast(line: nat, rst: nat, n: nat)
    requires rst < 8
    ensures n == NextLine(line, rst) <==> line <= n < line + 8 && n % 8 == rst
  {
  }

  /** So a line is numbered truly exactly when fewer than eight lines are missing before it. */
  lemma Resynchronises(line: nat, actual: nat)
    requires line <= actual
    ensures NextLine(line, actual % 8) == actual <==> actual < line + 8
  {
  }

  // ---------- the scan ----------

  /**
   The records `generateLineIndex` should produce from position `pos` on, for a line that began at `start`, with `line` the
   next number expected, on a memory that does not change; None if no EOI marker follows before the records are reached again.
   */
  function Scan(m: Memory, pos: nat, start: nat, line: nat): Option<seq<LineData>>
    decreases IMAGE_LIMIT - pos
  {
    if pos + 1 >= IMAGE_LIMIT then
      None
    else if Word(m, pos) == EOI_WORD then
      Some([LineData(line, start, pos + 1, 0)])
    else if LooksLikeRst(Word(m, pos)) then
      var n := NextLine(line, Word(m, pos) % 8);
      var rest :- Scan(m, pos + 1, pos + 2, n + 1);
      Some([LineData(n, start, pos + 1, 0)] + rest)
    else
      Scan(m, pos + 1, start, line)
  }

  /** An EOI marker ahead, before the records are reached again, ends the scan. */
  lemma {:induction false} ScanEnds(m: Memory, pos: nat, start: nat, line: nat, p: nat)
    requires pos <= p < IMAGE_LIMIT - 1 && Word(m, p) == EOI_WORD
    ensures Scan(m, pos, start, line).Some?
    decreases IMAGE_LIMIT - pos
  {
    if Word(m, pos) != EOI_WORD {
      if LooksLikeRst(Word(m, pos)) {
        ScanEnds(m, pos + 1, pos + 2, NextLine(line, Word(m, pos) % 8) + 1, p);
      } else {
        ScanEnds(m, pos + 1, start, line, p);
      }
    }
  }

  predicate Increasing(entries: seq<LineData>) {
    forall i, j :: 0 <= i < j < |entries| ==> entries[i].lineNum < entries[j].lineNum
  }

  lemma ConsIncreasing(e: LineData, es: seq<LineData>)
    requires Increasing(es) && forall i :: 0 <= i < |es| ==> e.lineNum < es[i].lineNum
    ensures Increasing([e] + es)
  {
  }

  /** Whatever the memory holds, the line numbers of the records strictly increase. */
  lemma {:induction false} ScanIncreases(m: Memory, pos: nat, start: nat, line: nat)
    requires Scan(m, pos, start, line).Some?
    ensures var es := Scan(m, pos, start, line).value;
            |es| > 0 && Increasing(es) && forall i :: 0 <= i < |es| ==> line <= es[i].lineNum
    decreases IMAGE_LIMIT - pos
  {
    var w := Word(m, pos);
    if w == EOI_WORD {
    } else if LooksLikeRst(w) {
      var n := NextLine(line, w % 8);
      NextLineIsLeast(line, w % 8, n);
      ScanIncreases(m, pos + 1, pos + 2, n + 1);
      ConsIncreasing(LineData(n, start, pos + 1, 0), Scan(m, pos + 1, pos + 2, n + 1).value);
    } else {
      ScanIncreases(m, pos + 1, start, line);
    }
  }

  /** Each record starts where the one before it ended. */
  predicate Contiguous(es: seq<LineData>) {
    && (forall i :: 0 <= i < |es| - 1 ==> es[i + 1].startAddr == es[i].endAddr + 1)
    && (forall i :: 0 <= i < |es| ==> es[i].startAddr <= es[i].endAddr + 1 <= IMAGE_LIMIT && es[i].chksum == 0)
  }

  lemma ConsContiguous(e: LineData, es: seq<LineData>)
    requires Contiguous(es) && |es| > 0 && es[0].startAddr == e.endAddr + 1
    requires e.startAddr <= e.endAddr + 1 <= IMAGE_LIMIT && e.chksum == 0
    ensures Contiguous([e] + es)
  {
    forall i | 0 <= i < |[e] + es| - 1
      ensures ([e] + es)[i + 1].startAddr == ([e] + es)[i].endAddr + 1
    {
      assert ([e] + es)[i + 1] == es[i];
    }
  }

  /** The records cover the scanned bytes without gap or overlap. */
  lemma {:induction false} ScanIsContiguous(m: Memory, pos: nat, start: nat, line: nat)
    requires Scan(m, pos, start, line).Some? && start <= pos + 1
    ensures var es := Scan(m, pos, start, line).value;
            |es| > 0 && es[0].startAddr == start && Contiguous(es)
    decreases IMAGE_LIMIT - pos
  {
    var w := Word(m, pos);
    if w == EOI_WORD {
    } else if LooksLikeRst(w) {
      var n := NextLine(line, w % 8);
      ScanIsContiguous(m, pos + 1, pos + 2, n + 1);
      ConsContiguous(LineData(n, start, pos + 1, 0), Scan(m, pos + 1, pos + 2, n + 1).value);
    } else {
      ScanIsContiguous(m, pos + 1, start, line);
    }
  }

  /** Storing records one after another. */
  function WriteRecords(m: Memory, entries: seq<LineData>): Memory
    decreases |entries|
  {
    if entries == [] then m
    else WriteRecords(Written(m, RecordAddr(entries[0].lineNum), Record(entries[0])), entries[1..])
  }

  lemma {:induction false} WriteRecordsAppend(m: Memory, entries: seq<LineData>, e: LineData)
    ensures WriteRecords(m, entries + [e]) == Written(WriteRecords(m, entries), RecordAddr(e.lineNum), Record(e))
    decreases |entries|
  {
    if entries == [] {
      assert [e][1..] == [];
      assert entries + [e] == [e];
    } else {
      var m' := Written(m, RecordAddr(entries[0].lineNum), Record(entries[0]));
      WriteRecordsAppend(m', entries[1..], e);
      assert (entries + [e])[1..] == entries[1..] + [e];
    }
  }

  /** All records fit below the image: 64 of them do. */
  predicate Fit(entries: seq<LineData>) {
    forall i :: 0 <= i < |entries| ==> entries[i].lineNum < 64
  }

  /** A record is written inside the reserved area exactly when its line number is below 64. */
  lemma RecordBelowImage(line: nat)
    ensures RecordAddr(line) + RECORD_SIZE <= IMAGE_DATA_START <==> line < 64
  {
  }

  /** The record of this line ends at or below the top of the memory. */
  predicate InMemory(line: nat) {
    RecordAddr(line) + RECORD_SIZE <= MRAM_SIZE
  }

  predicate AllInMemory(entries: seq<LineData>) {
    forall i :: 0 <= i < |entries| ==> InMemory(entries[i].lineNum)
  }

  /** The record lies behind the scanner when it is written: in the reserved area, or in the part of the image already read. */
  predicate Behind(d: LineData) {
    InMemory(d.lineNum) && (d.lineNum < 64 || RecordAddr(d.lineNum) + RECORD_SIZE <= d.endAddr)
  }

  /** All records but the last, after which nothing is read, lie behind the scanner. */
  predicate Trailing(entries: seq<LineData>) {
    AllInMemory(entries) && forall i :: 0 <= i < |entries| - 1 ==> Behind(entries[i])
  }

  lemma FitIsTrailing(entries: seq<LineData>)
    requires Fit(entries)
    ensures Trailing(entries)
  {
  }

  lemma RecordWritten(m: Memory, e: LineData, a: nat)
    requires InMemory(e.lineNum) && a < MRAM_SIZE
    ensures var at := RecordAddr(e.lineNum);
            Written(m, at, Record(e))[a] == if at <= a < at + RECORD_SIZE then Record(e)[a - at] else m[a]
  {
    OverlayInPlace(m, RecordAddr(e.lineNum), Record(e), a);
  }

  /** The cells that are not reserved for records. */
  predicate InImage(a: nat) {
    a < SYSTEM_DATA_ADDR || IMAGE_DATA_START <= a < MRAM_SIZE
  }

  /** The cells of the record of this line. */
  predicate InRecord(line: nat, a: nat) {
    RecordAddr(line) <= a < RecordAddr(line) + RECORD_SIZE
  }

  /** The index changes no cell outside its records. */
  lemma {:induction false} OutsideRecords(m: Memory, entries: seq<LineData>, a: nat)
    requires AllInMemory(entries) && a < MRAM_SIZE && forall i :: 0 <= i < |entries| ==> !InRecord(entries[i].lineNum, a)
    ensures WriteRecords(m, entries)[a] == m[a]
    decreases |entries|
  {
    if entries != [] {
      var e := entries[0];
      RecordWritten(m, e, a);
      assert !InRecord(e.lineNum, a);
      OutsideRecords(Written(m, RecordAddr(e.lineNum), Record(e)), entries[1..], a);
    }
  }

  /** With all line numbers below 64, writing the index changes no cell of the image. */
  lemma ImageUntouched(m: Memory, entries: seq<LineData>, a: nat)
    requires Fit(entries) && InImage(a)
    ensures WriteRecords(m, entries)[a] == m[a]
  {
    OutsideRecords(m, entries, a);
  }

  lemma RecordKept(m: Memory, entries: seq<LineData>, line: nat, a: nat)
    requires AllInMemory(entries) && InMemory(line) && (forall i :: 0 <= i < |entries| ==> entries[i].lineNum != line)
    requires InRecord(line, a)
    ensures WriteRecords(m, entries)[a] == m[a]
  {
    OutsideRecords(m, entries, a);
  }

  lemma ReadFrom(m: Memory, line: nat, b: seq<byte>)
    requires InMemory(line) && |b| == RECORD_SIZE
    requires forall i :: 0 <= i < RECORD_SIZE ==> m[RecordAddr(line) + i] == b[i]
    ensures Read(m, RecordAddr(line), RECORD_SIZE) == b
  {
    forall i | 0 <= i < RECORD_SIZE
      ensures Read(m, RecordAddr(line), RECORD_SIZE)[i] == b[i]
    {
      assert Cell(RecordAddr(line) + i) == RecordAddr(line) + i;
    }
  }

  lemma BytesSurvive(m: Memory, line: nat, b: seq<byte>, later: seq<LineData>)
    requires InMemory(line) && |b| == RECORD_SIZE && AllInMemory(later)
    requires forall i :: 0 <= i < RECORD_SIZE ==> m[RecordAddr(line) + i] == b[i]
    requires forall i :: 0 <= i < |later| ==> later[i].lineNum != line
    ensures Read(WriteRecords(m, later), RecordAddr(line), RECORD_SIZE) == b
  {
    forall i | 0 <= i < RECORD_SIZE
      ensures WriteRecords(m, later)[RecordAddr(line) + i] == b[i]
    {
      RecordKept(m, later, line, RecordAddr(line) + i);
    }
    ReadFrom(WriteRecords(m, later), line, b);
  }

  lemma RecordStored(m: Memory, e: LineData)
    requires InMemory(e.lineNum)
    ensures forall i :: 0 <= i < RECORD_SIZE ==>
              Written(m, RecordAddr(e.lineNum), Record(e))[RecordAddr(e.lineNum) + i] == Record(e)[i]
  {
    forall i | 0 <= i < RECORD_SIZE
      ensures Written(m, RecordAddr(e.lineNum), Record(e))[RecordAddr(e.lineNum) + i] == Record(e)[i]
    {
      RecordWritten(m, e, RecordAddr(e.lineNum) + i);
    }
  }

  /** The bytes of every record survive the records of other lines written after it. */
  lemma {:induction false} RecordBytes(m: Memory, entries: seq<LineData>, k: nat)
    requires AllInMemory(entries) && Increasing(entries) && k < |entries|
    ensures Read(WriteRecords(m, entries), RecordAddr(entries[k].lineNum), RECORD_SIZE) == Record(entries[k])
    decreases |entries|
  {
    hide Record;
    var e, later := entries[0], entries[1..];
    assert forall i :: 0 <= i < |later| ==> later[i] == entries[i + 1];
    if k == 0 {
      RecordStored(m, e);
      BytesSurvive(Written(m, RecordAddr(e.lineNum), Record(e)), e.lineNum, Record(e), later);
    } else {
      assert later[k - 1] == entries[k];
      RecordBytes(Written(m, RecordAddr(e.lineNum), Record(e)), later, k - 1);
    }
  }

  /** Every record can be read back under its own line number. */
  lemma RecordsReadBack(m: Memory, entries: seq<LineData>, k: nat)
    requires AllInMemory(entries) && Increasing(entries) && k < |entries| && entries[k].Valid()
    ensures FromRecord(Read(WriteRecords(m, entries), RecordAddr(entries[k].lineNum), RECORD_SIZE)) == entries[k]
  {
    RecordBytes(m, entries, k);
    RecordRoundTrip(entries[k]);
  }

  /** Exactly then does the index write into the image: some record has a number of 64 or more. */
  lemma WritesImageIff(entries: seq<LineData>)
    requires AllInMemory(entries)
    ensures (exists i, a :: 0 <= i < |entries| && InImage(a) && InRecord(entries[i].lineNum, a)) <==>
            (exists i :: 0 <= i < |entries| && entries[i].lineNum >= 64)
  {
    if i :| 0 <= i < |entries| && entries[i].lineNum >= 64 {
      assert InImage(RecordAddr(entries[i].lineNum)) && InRecord(entries[i].lineNum, RecordAddr(entries[i].lineNum));
    }
  }

  /** Where `readLineFromSPI` looks for the record of any `int`, in unsigned 32-bit arithmetic. */
  function AskedAddr(line: int): (a: nat)
    ensures 0 <= line < 0x1000_0000 - 16 ==> a == RecordAddr(line)
  {
    (SYSTEM_DATA_ADDR + RECORD_SIZE * line) % UINT32
  }

  /** The bytes `readLineFromSPI` copies to the caller, and the length it returns. */
  function LineRead(m: Memory, line: int): (r: (seq<byte>, nat)) {
    var d := FromRecord(Read(m, AskedAddr(line), RECORD_SIZE));
    var len := (d.endAddr - d.startAddr + 1) % UINT32;
    (Read(m, d.startAddr, len), len % 0x1_0000)
  }

  lemma Wrapped(x: int, modulus: nat)
    requires modulus > 0
    ensures (x - x % modulus) % modulus == 0 && x % modulus < modulus
  {
    DivModUnique(x - x % modulus, modulus, x / modulus, 0);
  }

  lemma ReadsCells(m: Memory, from: nat, n: nat)
    ensures forall i :: 0 <= i < n ==> Read(m, from, n)[i] == m[(from + i) % 0x2_0000]
  {
    forall i | 0 <= i < n
      ensures Read(m, from, n)[i] == m[(from + i) % 0x2_0000]
    {
      assert Cell(from + i) == (from + i) % 0x2_0000;
    }
  }

  /**
   The reader on any record, damaged ones included: it copies the bytes from the start address on, as many as there are up to
   the end address modulo 2^32, and returns their number modulo 2^16.
   */
  lemma RecordGoverns(m: Memory, line: int, d: LineData)
    requires d.Valid() && 0 <= line < 8192 && Read(m, 0x100 + 16 * line, 16) == Record(d)
    ensures var (bytes, len) := LineRead(m, line);
            && |bytes| < 0x1_0000_0000 && (d.endAddr + 1 - d.startAddr - |bytes|) % 0x1_0000_0000 == 0
            && len < 0x1_0000 && (|bytes| - len) % 0x1_0000 == 0
            && forall i :: 0 <= i < |bytes| ==> bytes[i] == m[(d.startAddr + i) % 0x2_0000]
  {
    hide Record, FromRecord, Read, Cell;
    RecordRoundTrip(d);
    var n := (d.endAddr - d.startAddr + 1) % UINT32;
    Wrapped(d.endAddr - d.startAddr + 1, UINT32);
    Wrapped(n, 0x1_0000);
    ReadsCells(m, d.startAddr, n);
  }

  /** Only 17 bits of the address are sent: numbers that differ by a multiple of 8192, negative ones included, serve alike. */
  lemma LinesAlias(m: Memory, line: int, k: int)
    ensures LineRead(m, line + 0x2000 * k) == LineRead(m, line)
  {
    AskedCell(line, k, AskedAddr(line), AskedAddr(line + 0x2000 * k));
    var a, b := AskedAddr(line), AskedAddr(line + 0x2000 * k);
    forall i | 0 <= i < RECORD_SIZE
      ensures Read(m, b, RECORD_SIZE)[i] == Read(m, a, RECORD_SIZE)[i]
    {
      SameCell(a, b, i);
    }
    assert Read(m, b, RECORD_SIZE) == Read(m, a, RECORD_SIZE);
  }

  lemma AskedCell(line: int, k: int, a: nat, b: nat)
    requires a == AskedAddr(line) && b == AskedAddr(line + 0x2000 * k)
    ensures Cell(a) == Cell(b)
  {
    var x := SYSTEM_DATA_ADDR + RECORD_SIZE * line;
    var y := SYSTEM_DATA_ADDR + RECORD_SIZE * (line + 0x2000 * k);
    assert y == x + MRAM_SIZE * k;
    CellOfWrapped(x);
    CellOfWrapped(y);
    MultipleOfSize(y, x / MRAM_SIZE + k, x % MRAM_SIZE);
  }

  lemma MultipleOfSize(y: int, q: int, r: nat)
    requires y == MRAM_SIZE * q + r && r < MRAM_SIZE
    ensures y % MRAM_SIZE == r
  {
  }

  lemma CellOfWrapped(x: int)
    ensures x % UINT32 % MRAM_SIZE == x % MRAM_SIZE
  {
  }

  lemma SameCell(a: nat, b: nat, i: nat)
    requires Cell(a) == Cell(b)
    ensures Cell(a + i) == Cell(b + i)
  {
  }

  // ---------- the loop itself ----------

  /** What storing a record does, wherever its line number puts it. */
  function Recorded(m: Memory, d: LineData): Memory {
    Written(m, RecordAddr(d.lineNum) % UINT32, Record(d))
  }

  /**
   The loop of `generateLineIndex`, in 32-bit arithmetic and on a memory it changes as it goes: the memory and the line
   number it ends with, or None if it has not ended after `steps` passes.
   */
  function IndexRun(m: Memory, lineend: nat, linestart: nat, line: nat, steps: nat): Option<(Memory, nat)>
    decreases steps
  {
    if steps == 0 then
      None
    else
      var word, next := Word(m, lineend), (lineend + 1) % UINT32;
      if word == EOI_WORD then
        Some((Recorded(m, LineData(line, linestart, next, 0)), line))
      else if LooksLikeRst(word) then
        var n := NextLine(line, word % 8) % UINT32;
        IndexRun(Recorded(m, LineData(n, linestart, next, 0)), next, (next + 1) % UINT32, (n + 1) % UINT32, steps - 1)
      else
        IndexRun(m, next, linestart, line, steps - 1)
  }

  /** The number of passes is only a bound: once the loop has ended, more of them change nothing. */
  lemma {:induction false} RunIsStable(m: Memory, lineend: nat, linestart: nat, line: nat, steps: nat, more: nat)
    requires IndexRun(m, lineend, linestart, line, steps).Some? && steps <= more
    ensures IndexRun(m, lineend, linestart, line, more) == IndexRun(m, lineend, linestart, line, steps)
    decreases steps
  {
    var word, next := Word(m, lineend), (lineend + 1) % UINT32;
    if word == EOI_WORD {
    } else if LooksLikeRst(word) {
      var n := NextLine(line, word % 8) % UINT32;
      var m' := Recorded(m, LineData(n, linestart, next, 0));
      RunIsStable(m', next, (next + 1) % UINT32, (n + 1) % UINT32, steps - 1, more - 1);
    } else {
      RunIsStable(m, next, linestart, line, steps - 1, more - 1);
    }
  }

  /** In a memory without EOI and restart markers, the wrap from its top to its bottom included, the loop never ends. */
  lemma {:induction false} NeverEnds(m: Memory, lineend: nat, linestart: nat, line: nat, steps: nat)
    requires forall p: nat :: Word(m, p) != EOI_WORD && !LooksLikeRst(Word(m, p))
    ensures IndexRun(m, lineend, linestart, line, steps).None?
    decreases steps
  {
    if steps > 0 {
      NeverEnds(m, (lineend + 1) % UINT32, linestart, line, steps - 1);
    }
  }

  /** A record behind the scanner covers nothing that is still to be read. */
  lemma BehindIsRead(d: LineData, p: nat)
    requires Behind(d) && IMAGE_DATA_START <= p < IMAGE_LIMIT && d.endAddr <= p
    ensures !InRecord(d.lineNum, Cell(p))
  {
  }

  lemma WordRead(m: Memory, pos: nat, b: seq<byte>)
    requires |b| == 2 && b == Read(m, pos, 2)
    ensures 0x100 * (b[0] as int) + b[1] as int == Word(m, pos)
  {
    assert b[0] == m[Cell(pos + 0)];
  }

  /** What is left of the index of `m0` when the scan stands at `pos`, the records `done` being written. */
  ghost predicate ScanRest(m0: Memory, all: seq<LineData>, done: seq<LineData>, pos: nat, start: nat, line: nat) {
    var rest := Scan(m0, pos, start, line);
    rest.Some? && all == done + rest.value
  }

  lemma ScanRestEoi(m0: Memory, all: seq<LineData>, done: seq<LineData>, pos: nat, start: nat, line: nat)
    requires ScanRest(m0, all, done, pos, start, line) && Word(m0, pos) == EOI_WORD
    ensures all == done + [LineData(line, start, pos + 1, 0)]
  {
  }

  lemma ScanRestMarker(m0: Memory, all: seq<LineData>, done: seq<LineData>, pos: nat, start: nat, line: nat, n: nat)
    requires ScanRest(m0, all, done, pos, start, line) && Word(m0, pos) != EOI_WORD && LooksLikeRst(Word(m0, pos))
    requires n == NextLine(line, Word(m0, pos) % 8)
    ensures ScanRest(m0, all, done + [LineData(n, start, pos + 1, 0)], pos + 1, pos + 2, n + 1)
  {
    var rest := Scan(m0, pos + 1, pos + 2, n + 1).value;
    assert done + ([LineData(n, start, pos + 1, 0)] + rest) == done + [LineData(n, start, pos + 1, 0)] + rest;
  }

  lemma ScanRestOther(m0: Memory, all: seq<LineData>, done: seq<LineData>, pos: nat, start: nat, line: nat)
    requires ScanRest(m0, all, done, pos, start, line) && Word(m0, pos) != EOI_WORD && !LooksLikeRst(Word(m0, pos))
    ensures ScanRest(m0, all, done, pos + 1, start, line)
  {
  }

  /** All records written so far lie behind the scanner. */
  predicate AllDone(done: seq<LineData>, pos: nat) {
    forall i :: 0 <= i < |done| ==> Behind(done[i]) && done[i].endAddr <= pos
  }

  lemma StillDone(done: seq<LineData>, pos: nat)
    requires AllDone(done, pos)
    ensures AllDone(done, pos + 1)
  {
  }

  lemma OneMoreDone(done: seq<LineData>, d: LineData, pos: nat)
    requires AllDone(done, pos) && Behind(d) && d.endAddr == pos + 1
    ensures AllDone(done + [d], pos + 1)
  {
  }

  /** Whatever records have been written so far, the scanner still reads the original image. */
  lemma ImageStillThere(m0: Memory, all: seq<LineData>, done: seq<LineData>, pos: nat, start: nat, line: nat)
    requires AllDone(done, pos) && ScanRest(m0, all, done, pos, start, line) && IMAGE_DATA_START <= pos
    ensures pos + 1 < IMAGE_LIMIT && Word(WriteRecords(m0, done), pos) == Word(m0, pos)
  {
    hide Behind, InRecord, WriteRecords, Cell;
    forall p | pos <= p <= pos + 1
      ensures WriteRecords(m0, done)[Cell(p)] == m0[Cell(p)]
    {
      DoneIsRead(done, pos, p);
      OutsideRecords(m0, done, Cell(p));
    }
  }

  lemma DoneIsRead(done: seq<LineData>, pos: nat, p: nat)
    requires AllDone(done, pos) && IMAGE_DATA_START <= pos <= p < IMAGE_LIMIT
    ensures AllInMemory(done) && forall i :: 0 <= i < |done| ==> !InRecord(done[i].lineNum, Cell(p))
  {
    forall i | 0 <= i < |done|
      ensures !InRecord(done[i].lineNum, Cell(p))
    {
      BehindIsRead(done[i], p);
    }
  }

  lemma NumberBound(m: Memory, done: seq<LineData>, all: seq<LineData>, pos: nat, start: nat, line: nat)
    requires Trailing(all) && ScanRest(m, all, done, pos, start, line)
    ensures InMemory(line)
  {
    ScanIncreases(m, pos, start, line);
    var rest := Scan(m, pos, start, line).value;
    assert all[|done|] == rest[0];
  }

  /** A record that is followed by others lies behind the scanner. */
  lemma NextBehind(m: Memory, done: seq<LineData>, all: seq<LineData>, d: LineData, pos: nat, start: nat, line: nat)
    requires Trailing(all) && ScanRest(m, all, done + [d], pos, start, line)
    ensures Behind(d)
  {
    ScanIncreases(m, pos, start, line);
    assert all[|done|] == d && |done| < |all| - 1;
  }

  lemma RecordAppended(m0: Memory, done: seq<LineData>, d: LineData)
    requires InMemory(d.lineNum)
    ensures Recorded(WriteRecords(m0, done), d) == WriteRecords(m0, done + [d])
  {
    WriteRecordsAppend(m0, done, d);
  }

  // One pass of the loop while no counter wraps.

  lemma PassAtEoi(m: Memory, pos: nat, start: nat, line: nat, steps: nat)
    requires pos + 2 < UINT32 && steps > 0 && Word(m, pos) == EOI_WORD
    ensures IndexRun(m, pos, start, line, steps) == Some((Recorded(m, LineData(line, start, pos + 1, 0)), line))
  {
    hide Word, Recorded, LooksLikeRst, NextLine;
    assert (pos + 1) % UINT32 == pos + 1;
  }

  lemma PassAtMarker(m: Memory, pos: nat, start: nat, line: nat, steps: nat, n: nat)
    requires pos + 2 < UINT32 && steps > 0 && Word(m, pos) != EOI_WORD && LooksLikeRst(Word(m, pos))
    requires n == NextLine(line, Word(m, pos) % 8) && n + 1 < UINT32
    ensures IndexRun(m, pos, start, line, steps) ==
            IndexRun(Recorded(m, LineData(n, start, pos + 1, 0)), pos + 1, pos + 2, n + 1, steps - 1)
  {
    hide NextLine, LooksLikeRst, Word, Recorded;
    assert (pos + 1) % UINT32 == pos + 1 && (pos + 1 + 1) % UINT32 == pos + 2;
    assert n % UINT32 == n && (n + 1) % UINT32 == n + 1;
  }

  lemma PassElsewhere(m: Memory, pos: nat, start: nat, line: nat, steps: nat)
    requires pos + 2 < UINT32 && steps > 0 && Word(m, pos) != EOI_WORD && !LooksLikeRst(Word(m, pos))
    ensures IndexRun(m, pos, start, line, steps) == IndexRun(m, pos + 1, start, line, steps - 1)
  {
    hide LooksLikeRst, Word;
  }

  /**
   The loop takes exactly the steps of the scan, as long as every record but the last lies behind the scanner: the records it
   has written do not disturb what it reads next.
   */
  lemma {:induction false} RunIsScan(m0: Memory, all: seq<LineData>, done: seq<LineData>, pos: nat, start: nat, line: nat,
                                     steps: nat)
    requires Trailing(all) && AllDone(done, pos) && ScanRest(m0, all, done, pos, start, line)
    requires IMAGE_DATA_START <= pos && start < UINT32 && steps >= IMAGE_LIMIT - pos
    ensures |all| > 0
    ensures IndexRun(WriteRecords(m0, done), pos, start, line, steps) == Some((WriteRecords(m0, all), all[|all| - 1].lineNum))
    decreases IMAGE_LIMIT - pos
  {
    hide ScanRest, Scan, Trailing, AllDone, Behind, LooksLikeRst, NextLine, WriteRecords, Word, Recorded, IndexRun;
    var m, w := WriteRecords(m0, done), Word(m0, pos);
    ImageStillThere(m0, all, done, pos, start, line);
    NumberBound(m0, done, all, pos, start, line);
    if w == EOI_WORD {
      ScanRestEoi(m0, all, done, pos, start, line);
      PassAtEoi(m, pos, start, line, steps);
      RecordAppended(m0, done, LineData(line, start, pos + 1, 0));
    } else if LooksLikeRst(w) {
      var n := NextLine(line, w % 8);
      var d := LineData(n, start, pos + 1, 0);
      NextLineIsLeast(line, w % 8, n);
      ScanRestMarker(m0, all, done, pos, start, line, n);
      NumberBound(m0, done + [d], all, pos + 1, pos + 2, n + 1);
      NextBehind(m0, done, all, d, pos + 1, pos + 2, n + 1);
      OneMoreDone(done, d, pos);
      RecordAppended(m0, done, d);
      PassAtMarker(m, pos, start, line, steps, n);
      RunIsScan(m0, all, done + [d], pos + 1, pos + 2, n + 1, steps - 1);
    } else {
      ScanRestOther(m0, all, done, pos, start, line);
      PassElsewhere(m, pos, start, line, steps);
      StillDone(done, pos);
      RunIsScan(m0, all, done, pos + 1, start, line, steps - 1);
    }
  }

  /** From the start of the image the loop ends within one pass per cell and writes exactly the records of the scan. */
  lemma RunFromStart(m: Memory, es: seq<LineData>)
    requires Scan(m, IMAGE_DATA_START, IMAGE_DATA_START, 0) == Some(es) && Trailing(es)
    ensures |es| > 0
    ensures IndexRun(m, IMAGE_DATA_START, IMAGE_DATA_START, 0, MRAM_SIZE) == Some((WriteRecords(m, es), es[|es| - 1].lineNum))
  {
    assert [] + es == es;
    RunIsScan(m, es, [], IMAGE_DATA_START, IMAGE_DATA_START, 0, MRAM_SIZE);
  }

  // ---------- the functions of the source ----------

  /** The two bytes at `pos` as the scanner's `word`. */
  method ReadWord(flash: Flash, pos: nat, spibuff: array<byte>) returns (word: nat)
    requires flash.Valid() && spibuff.Length == 2 && spibuff != flash.cells
    modifies spibuff
    ensures word == Word(flash.Contents(), pos)
  {
    flash.ReadBytes(pos, spibuff, 2);
    assert spibuff[..] == spibuff[..2];
    WordRead(flash.Contents(), pos, spibuff[..]);
    word := 0x100 * (spibuff[0] as int) + spibuff[1] as int;
  }

  method IsRestartMarker(word: nat) returns (yes: bool)
    requires word < 0x1_0000
    ensures yes <==> LooksLikeRst(word)
  {
    var masked := BitAnd(word, RST_MASK, 16);
    MaskMeaning(word, masked);
    yes := masked == RST_VALUE;
  }

  /** The line number a marker gets: `line` itself, or the next number that agrees with it. */
  method AssignLine(expected: nat, rst: nat) returns (line: nat)
    requires rst < 8 && expected < UINT32
    ensures line == NextLine(expected, rst) % UINT32
  {
    line := expected;
    if line % 8 != rst {
      if line % 8 < rst {
        line := (line - line % 8 + rst) % UINT32;
      } else {
        line := (line - line % 8 + rst + 8) % UINT32;
      }
    }
  }

  /**
   `generateLineIndex`, for every memory on which its loop ends at all: after some number of passes, `steps`, it has the
   memory and the line number of the specification.
   */
  method GenerateLineIndex(flash: Flash, ghost steps: nat) returns (line: nat)
    requires flash.Valid()
    requires IndexRun(flash.Contents(), IMAGE_DATA_START, IMAGE_DATA_START, 0, steps).Some?
    modifies flash.cells
    ensures IndexRun(old(flash.Contents()), IMAGE_DATA_START, IMAGE_DATA_START, 0, steps) == Some((flash.Contents(), line))
  {
    hide LooksLikeRst, NextLine, Word, Written, Record;
    ghost var goal, left := IndexRun(flash.Contents(), IMAGE_DATA_START, IMAGE_DATA_START, 0, steps), steps;
    var spibuff := new byte[2];
    var lineend: nat, linestart: nat := IMAGE_DATA_START, IMAGE_DATA_START;
    line := 0;
    while true
      invariant line < UINT32 && goal.Some? && IndexRun(flash.Contents(), lineend, linestart, line, left) == goal
      decreases left
    {
      var word := ReadWord(flash, lineend, spibuff);
      lineend := (lineend + 1) % UINT32;
      left := left - 1;
      if word == EOI_WORD {
        var ld := LineData(line, linestart, lineend, 0);
        flash.WriteBytes(RecordAddr(line) % UINT32, Record(ld));
        break;
      }
      var isMarker := IsRestartMarker(word);
      if isMarker {
        line := AssignLine(line, word % 8);
        var ld := LineData(line, linestart, lineend, 0);
        linestart := (lineend + 1) % UINT32;
        flash.WriteBytes(RecordAddr(line) % UINT32, Record(ld));
        line := (line + 1) % UINT32;
      }
    }
  }

  /** `readLineFromSPI`, for a caller's buffer that is large enough. */
  method ReadLineFromSpi(flash: Flash, line: int, data: array<byte>) returns (result: nat)
    requires flash.Valid() && data != flash.cells
    requires |LineRead(flash.Contents(), line).0| <= data.Length
    modifies data
    ensures var (bytes, len) := LineRead(flash.Contents(), line);
            result == len && data[..|bytes|] == bytes && data[|bytes|..] == old(data[|bytes|..])
  {
    var buffer := new byte[RECORD_SIZE];
    flash.ReadBytes((SYSTEM_DATA_ADDR + RECORD_SIZE * line) % UINT32, buffer, RECORD_SIZE);
    assert buffer[..] == buffer[..RECORD_SIZE];
    var ld := FromRecord(buffer[..]);
    var len := (ld.endAddr - ld.startAddr + 1) % UINT32;
    flash.ReadBytes(ld.startAddr, data, len);
    result := len % 0x1_0000;
  }
}
