/**
 From camera strips to the lines the ground asks for: encode, store, index, read back, decode.
 */
module EndToEnd {
  import opened Bits
  import opened Wrappers
  import opened BlockCoding
  import opened LineCoding
  import opened Strip
  import opened Mram
  import opened OutputStore
  import opened LineIndex
  import opened IndexCorrectness

  /** The bytes of the lines of a capture; `nums[k]` is the number under which strip `k` was encoded. */
  function CaptureLines(tables: Tables, strips: seq<Strip>, nums: seq<nat>): (lines: seq<seq<byte>>)
    requires TablesOk(tables) && |strips| == |nums|
    ensures |lines| == |strips|
  {
    seq(|strips|, k requires 0 <= k < |strips| => EncodedLine(tables, strips[k], nums[k]))
  }

  lemma EncodedLineIsQuiet(tables: Tables, s: Strip, line: nat)
    requires TablesOk(tables)
    ensures Quiet(EncodedLine(tables, s, line), line % 8)
  {
    hide Quiet, SegmentBytes, LineBits, LineBlocks, TablesOk, FullTables, LineEncodable, LineSound, AllInRange;
    TablesOkIsFull(tables);
    LineBlocksSound(tables, s, line);
    SegmentIsQuiet(LineBits(tables, LineBlocks(tables, s, line), 0, RESET), line % 8);
  }

  /** Every line is quiet up to its own marker, not empty, and short enough for the reader's 16-bit result. */
  lemma CaptureLinesQuiet(tables: Tables, strips: seq<Strip>, nums: seq<nat>)
    requires TablesOk(tables) && |strips| == |nums|
    ensures AllQuiet(CaptureLines(tables, strips, nums), nums)
    ensures forall k :: 0 <= k < |strips| ==> 2 <= |CaptureLines(tables, strips, nums)[k]| <= 61482
  {
    hide Quiet, TablesOk, EncodedLine;
    var lines := CaptureLines(tables, strips, nums);
    forall k | 0 <= k < |strips|
      ensures Quiet(lines[k], nums[k] % 8) && 2 <= |lines[k]| <= 61482
    {
      EncodedLineIsQuiet(tables, strips[k], nums[k]);
      LineLengthBound(tables, strips[k], nums[k]);
    }
  }

  /** Every byte that the store loses was already in memory. */
  ghost predicate LossHarmless(m0: Memory, lines: seq<seq<byte>>, size: nat)
    requires size > 0
  {
    forall i | i in Lost(lines, 0, size) ::
      i < |ImageStream(lines)| && m0[Cell(IMAGE_DATA_START + i)] == ImageStream(lines)[i]
  }

  /** The memory after a capture is encoded and closed, and after the index is built. */
  function Captured(m0: Memory, lines: seq<seq<byte>>, size: nat): Memory {
    PutImage(m0, IMAGE_DATA_START, lines, size).mram
  }

  /** An image may pass the top of the memory, as long as it stays clear of the records. */
  predicate Fits(lines: seq<seq<byte>>) {
    IMAGE_DATA_START + |ImageStream(lines)| <= IMAGE_LIMIT
  }

  /** For any lines that fit there is a memory to which the loss does no harm. */
  lemma HarmlessMemoryExists(lines: seq<seq<byte>>, size: nat) returns (m0: Memory)
    requires size > 0 && Fits(lines)
    ensures LossHarmless(m0, lines, size)
  {
    hide Lost, ImageStream, Ahead, Cell;
    var stream := ImageStream(lines);
    m0 := seq(MRAM_SIZE, a requires 0 <= a < MRAM_SIZE =>
                var i := Ahead(IMAGE_DATA_START, a); if i < |stream| then stream[i] else 0);
    forall i | i in Lost(lines, 0, size)
      ensures i < |stream| && m0[Cell(IMAGE_DATA_START + i)] == stream[i]
    {
      LostBelowEnd(lines, size, i);
      AheadOfCell(IMAGE_DATA_START, i);
    }
  }

  /** The loop of `generateLineIndex`, started on the memory `m`, ends and leaves `after`. */
  predicate LoopLeaves(m: Memory, after: Memory) {
    var r := IndexRun(m, IMAGE_DATA_START, IMAGE_DATA_START, 0, MRAM_SIZE);
    r.Some? && r.value.0 == after
  }

  lemma CaptureStored(m0: Memory, lines: seq<seq<byte>>, size: nat)
    requires size >= 2 && Fits(lines) && LossHarmless(m0, lines, size)
    requires forall k :: 0 <= k < |lines| ==> lines[k] != []
    ensures HasBytes(Captured(m0, lines, size), IMAGE_DATA_START, ImageStream(lines))
  {
    hide PutImage, ImageStream, Lost;
    StreamStoredIff(m0, IMAGE_DATA_START, lines, size);
  }

  /**
   Every line of a capture can be fetched by its number and decoded on its own to exactly its quantised blocks: for
   any strips, any numbers below 63 that start below 8 and skip at most seven, and any earlier memory, provided the image
   fits the memory and every byte the store loses was there already (which is so when no line's length is 1 modulo the
   buffer size).
   */
  lemma LineServed(m0: Memory, size: nat, tables: Tables, decoders: Decoders, strips: seq<Strip>, nums: seq<nat>, k: nat)
    requires TablesOk(tables) && Matches(tables, decoders) && size >= 2
    requires |strips| == |nums| && Numbered(nums, 0) && (forall j :: 0 <= j < |nums| ==> nums[j] < 63) && k < |strips|
    requires Fits(CaptureLines(tables, strips, nums)) && LossHarmless(m0, CaptureLines(tables, strips, nums), size)
    ensures var lines := CaptureLines(tables, strips, nums);
            var m := Captured(m0, lines, size);
            && Scan(m, IMAGE_DATA_START, IMAGE_DATA_START, 0).Some? && LoopLeaves(m, Indexed(m))
            && LineRead(Indexed(m), nums[k]) == (EncodedLine(tables, strips[k], nums[k]), |lines[k]|)
            && DecodeLine(decoders, LineRead(Indexed(m), nums[k]).0, BLOCKS_PER_LINE) ==
               Some(LineBlocks(tables, strips[k], nums[k]))
  {
    hide TablesOk, Matches, EncodedLine, LineBlocks, Scan, IndexRun, Indexed, LineRead, DecodeLine, Quiet, PutImage, Fits,
         LossHarmless, ImageStream, HasBytes;
    var lines := CaptureLines(tables, strips, nums);
    CaptureLinesQuiet(tables, strips, nums);
    CaptureStored(m0, lines, size);
    NoTail(lines);
    IndexIsCorrect(Captured(m0, lines, size), lines, nums, [], k);
    StripRoundTrip(tables, decoders, strips[k], nums[k], []);
    assert lines[k] + [] == lines[k];
  }

  /** The line numbers of an uninterrupted capture. */
  function InOrder(n: nat): (nums: seq<nat>)
    ensures |nums| == n
  {
    seq(n, k requires 0 <= k < n => k)
  }

  lemma {:induction false} InOrderIsNumbered(n: nat, from: nat)
    requires from <= n
    ensures Numbered(InOrder(n)[from..], from)
    decreases n - from
  {
    if from < n {
      InOrderIsNumbered(n, from + 1);
      assert InOrder(n)[from..][1..] == InOrder(n)[from + 1..];
    }
  }

  lemma ServedInOrder(m0: Memory, size: nat, tables: Tables, decoders: Decoders, strips: seq<Strip>, k: nat)
    requires size >= 2 && k < |strips| <= 63 && TablesOk(tables) && Matches(tables, decoders)
    requires var lines := CaptureLines(tables, strips, InOrder(|strips|));
             Fits(lines) && forall j :: 0 <= j < |lines| ==> !LosesMarker(lines[j], size)
    ensures var lines := CaptureLines(tables, strips, InOrder(|strips|));
            var m := Captured(m0, lines, size);
            && Scan(m, IMAGE_DATA_START, IMAGE_DATA_START, 0).Some? && LoopLeaves(m, Indexed(m))
            && LineRead(Indexed(m), k) == (lines[k], |lines[k]|)
            && DecodeLine(decoders, LineRead(Indexed(m), k).0, BLOCKS_PER_LINE) == Some(LineBlocks(tables, strips[k], k))
  {
    hide TablesOk, Matches, EncodedLine, LineBlocks, Scan, IndexRun, Indexed, LineRead, DecodeLine, PutImage, Captured;
    var nums := InOrder(|strips|);
    InOrderIsNumbered(|strips|, 0);
    assert nums[0..] == nums;
    NothingLostIff(CaptureLines(tables, strips, nums), size);
    LineServed(m0, size, tables, decoders, strips, nums, k);
  }

  /** The lines 0, 1, 2, ... of a capture, with the repository's tables. */
  function StandardLines(strips: seq<Strip>): (lines: seq<seq<byte>>)
    ensures |lines| == |strips|
  {
    StandardTablesOk();
    CaptureLines(StandardTables(), strips, InOrder(|strips|))
  }

  function StandardBlocks(s: Strip, line: nat): seq<Block> {
    StandardTablesOk();
    LineBlocks(StandardTables(), s, line)
  }

  /** With the repository's own tables and the decoder of T.81 annex K, for lines 0, 1, 2, ... */
  lemma StandardLineServed(m0: Memory, size: nat, strips: seq<Strip>, k: nat)
    requires size >= 2 && k < |strips| <= 63 && Fits(StandardLines(strips))
    requires forall j :: 0 <= j < |strips| ==> !LosesMarker(StandardLines(strips)[j], size)
    ensures var lines := StandardLines(strips);
            var m := Captured(m0, lines, size);
            && Scan(m, IMAGE_DATA_START, IMAGE_DATA_START, 0).Some? && LoopLeaves(m, Indexed(m))
            && LineRead(Indexed(m), k) == (lines[k], |lines[k]|)
            && DecodeLine(StandardDecoders(), LineRead(Indexed(m), k).0, BLOCKS_PER_LINE) == Some(StandardBlocks(strips[k], k))
  {
    StandardTablesOk();
    StandardTablesMatch();
    ServedInOrder(m0, size, StandardTables(), StandardDecoders(), strips, k);
  }

  // ---------- a second capture ----------

  /** The store after one more capture; the write address is not set back in between. */
  function Recaptured(s: Store, lines: seq<seq<byte>>, size: nat): Store {
    PutLines(s, lines + [EOI], size)
  }

  lemma FirstImageStays(m: Memory, addr: nat, lines: seq<seq<byte>>, size: nat, bytes: seq<byte>)
    requires size >= 2 && addr + |ImageStream(lines)| <= IMAGE_LIMIT && IMAGE_DATA_START + |bytes| <= addr
    requires HasBytes(m, IMAGE_DATA_START, bytes) && forall k :: 0 <= k < |lines| ==> lines[k] != []
    ensures HasBytes(Recaptured(Store(m, [], addr), lines, size).mram, IMAGE_DATA_START, bytes)
  {
    hide PutLines, ImageStream, Lost, Ahead, Cell;
    var m' := Recaptured(Store(m, [], addr), lines, size).mram;
    forall i | 0 <= i < |bytes|
      ensures m'[Cell(IMAGE_DATA_START + i)] == bytes[i]
    {
      HasByteAt(m, IMAGE_DATA_START, bytes, i);
      BehindStart(addr, |ImageStream(lines)|, IMAGE_DATA_START + i);
      FlashAgrees(m, addr, lines, size, Cell(IMAGE_DATA_START + i));
    }
    assert Read(m', IMAGE_DATA_START, |bytes|) == bytes;
  }

  /** A second image, even past the top, does not come round to the first. */
  lemma BehindStart(addr: nat, n: nat, pos: nat)
    requires IMAGE_DATA_START <= pos < addr && addr + n <= IMAGE_LIMIT
    ensures Ahead(addr, Cell(pos)) >= n
  {
  }

  lemma FirstStore(m0: Memory, lines: seq<seq<byte>>, size: nat)
    requires size >= 2 && Fits(lines) && forall k :: 0 <= k < |lines| ==> lines[k] != []
    ensures PutImage(m0, IMAGE_DATA_START, lines, size) ==
            Store(Captured(m0, lines, size), [], IMAGE_DATA_START + |ImageStream(lines)|)
  {
    hide PutImage, ImageStream, Lost;
    ImageHolds(m0, IMAGE_DATA_START, lines, size);
  }

  /**
   After a second capture that also fits, the index still ends at the first EOI marker: asked for line `k` the reader serves
   the line of the first capture.
   */
  lemma SecondCaptureServesFirst(m0: Memory, size: nat, tables: Tables, first: seq<Strip>, second: seq<Strip>, k: nat,
                                 lines: seq<seq<byte>>, more: seq<seq<byte>>, m: Memory)
    requires TablesOk(tables) && size >= 2 && k < |first| <= 63
    requires lines == CaptureLines(tables, first, InOrder(|first|)) && more == CaptureLines(tables, second, InOrder(|second|))
    requires IMAGE_DATA_START + |ImageStream(lines)| + |ImageStream(more)| <= IMAGE_LIMIT && LossHarmless(m0, lines, size)
    requires m == Recaptured(PutImage(m0, IMAGE_DATA_START, lines, size), more, size).mram
    ensures Scan(m, IMAGE_DATA_START, IMAGE_DATA_START, 0).Some? && LoopLeaves(m, Indexed(m))
    ensures LineRead(Indexed(m), k) == (EncodedLine(tables, first[k], k), |lines[k]|)
  {
    hide TablesOk, EncodedLine, Scan, IndexRun, Indexed, LineRead, Quiet, PutImage, LossHarmless, ImageStream, HasBytes,
         Recaptured, Captured;
    CaptureLinesQuiet(tables, first, InOrder(|first|));
    CaptureLinesQuiet(tables, second, InOrder(|second|));
    CaptureStored(m0, lines, size);
    FirstStore(m0, lines, size);
    FirstImageStays(Captured(m0, lines, size), IMAGE_DATA_START + |ImageStream(lines)|, more, size, ImageStream(lines));
    InOrderIsNumbered(|first|, 0);
    assert InOrder(|first|)[0..] == InOrder(|first|);
    NoTail(lines);
    IndexIsCorrect(m, lines, InOrder(|first|), [], k);
  }
}
