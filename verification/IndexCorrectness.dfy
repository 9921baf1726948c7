/**
 Why the index is right: byte stuffing keeps the scanner's loose mask from firing anywhere but at the real markers, so the
 records it writes partition the image into its lines.
 */
module IndexCorrectness {
  import opened Bits
  import opened Wrappers
  import opened Mram
  import opened OutputStore
  import opened LineIndex
  import opened LineCoding

  // ---------- quiet segments ----------

  /** Second bytes that, after 0xFF, the scanner reacts to. */
  predicate Fires(b: byte) {
    b == 0xD9 || 0xD0 <= b <= 0xD7 || 0xF0 <= b <= 0xF7
  }

  lemma WordFires(m: Memory, pos: nat)
    ensures Word(m, pos) == EOI_WORD || LooksLikeRst(Word(m, pos)) <==> m[Cell(pos)] == 0xFF && Fires(m[Cell(pos + 1)])
  {
  }

  /** The second bytes that the scanner takes for those of restart marker `rst`: the true one and its double. */
  predicate Marks(b: byte, rst: nat) {
    b as nat == 0xD0 + rst || b as nat == 0xF0 + rst
  }

  /** The scanner reacts to nothing in the segment but what looks like the restart marker `rst` at its end. */
  ghost predicate Quiet(seg: seq<byte>, rst: nat) {
    && |seg| >= 2 && rst < 8
    && seg[|seg| - 2] == 0xFF && Marks(seg[|seg| - 1], rst)
    && forall i :: 0 <= i < |seg| - 2 ==> !(seg[i] == 0xFF && Fires(seg[i + 1]))
  }

  lemma {:induction false} StuffedFFs(data: seq<byte>, i: nat)
    requires i < |Stuff(data)| && Stuff(data)[i] == 0xFF
    ensures i + 1 < |Stuff(data)| && Stuff(data)[i + 1] == 0
    decreases |data|
  {
    var first, more := StuffByte(data[0]), Stuff(data[1..]);
    assert Stuff(data) == first + more;
    if i >= |first| {
      StuffedFFs(data[1..], i - |first|);
    }
  }

  /** Marker soundness: whatever bits a line holds, its stuffed bytes are quiet up to their restart marker. */
  lemma SegmentIsQuiet(bits: seq<bool>, rst: nat)
    ensures Quiet(SegmentBytes(bits, rst), rst % 8)
    ensures var seg := SegmentBytes(bits, rst); seg[|seg| - 1] as nat == 0xD0 + rst % 8
  {
    var body, seg := Stuff(Pack(Padded(bits))), SegmentBytes(bits, rst);
    forall i | 0 <= i < |seg| - 2
      ensures !(seg[i] == 0xFF && Fires(seg[i + 1]))
    {
      assert seg[i] == body[i];
      if body[i] == 0xFF {
        StuffedFFs(Pack(Padded(bits)), i);
        assert seg[i + 1] == body[i + 1];
      }
    }
  }

  // ---------- scanning segments ----------

  /** The image holds `bytes` at `pos`; past the top of the memory it goes on in cell 0. */
  predicate HasBytes(m: Memory, pos: nat, bytes: seq<byte>) {
    pos + |bytes| <= IMAGE_LIMIT && Read(m, pos, |bytes|) == bytes
  }

  lemma HasByteAt(m: Memory, pos: nat, bytes: seq<byte>, i: nat)
    requires HasBytes(m, pos, bytes) && i < |bytes|
    ensures m[Cell(pos + i)] == bytes[i]
  {
    assert Read(m, pos, |bytes|)[i] == m[Cell(pos + i)];
  }

  lemma HasParts(m: Memory, pos: nat, a: seq<byte>, b: seq<byte>)
    requires HasBytes(m, pos, a + b)
    ensures HasBytes(m, pos, a) && HasBytes(m, pos + |a|, b)
  {
    hide Cell;
    var all := Read(m, pos, |a + b|);
    assert all[..|a|] == Read(m, pos, |a|);
    assert all[|a|..] == Read(m, pos + |a|, |b|);
  }

  /** One step of the scan where nothing fires. */
  lemma ScanStep(m: Memory, pos: nat, start: nat, line: nat)
    requires pos + 1 < IMAGE_LIMIT && !(m[Cell(pos)] == 0xFF && Fires(m[Cell(pos + 1)]))
    ensures Scan(m, pos, start, line) == Scan(m, pos + 1, start, line)
  {
    WordFires(m, pos);
  }

  /** The scan runs through a quiet segment to its marker. */
  lemma {:induction false} ScanToMarker(m: Memory, pos: nat, line: nat, seg: seq<byte>, rst: nat, i: nat)
    requires Quiet(seg, rst) && HasBytes(m, pos, seg) && i <= |seg| - 2
    ensures Scan(m, pos + i, pos, line) == Scan(m, pos + |seg| - 2, pos, line)
    decreases |seg| - i
  {
    if i < |seg| - 2 {
      HasByteAt(m, pos, seg, i);
      HasByteAt(m, pos, seg, i + 1);
      ScanStep(m, pos + i, pos, line);
      ScanToMarker(m, pos, line, seg, rst, i + 1);
    }
  }

  /** The record of a segment at `pos` with number `n`. */
  function SegmentRecord(pos: nat, seg: seq<byte>, n: nat): LineData
    requires |seg| >= 2
  {
    LineData(n, pos, pos + |seg| - 1, 0)
  }

  lemma ScanAtMarker(m: Memory, at: nat, start: nat, line: nat, rst: nat)
    requires at + 2 < IMAGE_LIMIT - 1 && rst < 8 && m[Cell(at)] == 0xFF && Marks(m[Cell(at + 1)], rst)
    ensures var n := NextLine(line, rst);
            var rest := Scan(m, at + 2, at + 2, n + 1);
            Scan(m, at, start, line) == if rest.None? then None else Some([LineData(n, start, at + 1, 0)] + rest.value)
  {
    var n := NextLine(line, rst);
    assert Word(m, at) == 0xFFD0 + rst || Word(m, at) == 0xFFF0 + rst;
    assert Word(m, at) % 8 == rst;
    ScanStep(m, at + 1, at + 2, n + 1);
  }

  lemma ScanSegment(m: Memory, pos: nat, line: nat, seg: seq<byte>, rst: nat)
    requires Quiet(seg, rst) && HasBytes(m, pos, seg) && pos + |seg| + 2 <= IMAGE_LIMIT
    ensures var n := NextLine(line, rst);
            var rest := Scan(m, pos + |seg|, pos + |seg|, n + 1);
            Scan(m, pos, pos, line) == if rest.None? then None else Some([SegmentRecord(pos, seg, n)] + rest.value)
  {
    hide Fires, Scan, NextLine, Word;
    var at := pos + |seg| - 2;
    ScanToMarker(m, pos, line, seg, rst, 0);
    HasByteAt(m, pos, seg, |seg| - 2);
    HasByteAt(m, pos, seg, |seg| - 1);
    ScanAtMarker(m, at, pos, line, rst);
  }

  /** Bytes in which the scanner reacts to nothing. */
  ghost predicate Still(tail: seq<byte>) {
    forall i: nat :: i < |tail| - 1 ==> !(tail[i] == 0xFF && Fires(tail[i + 1]))
  }

  /** The scan runs through the rest of the image to its EOI marker. */
  lemma {:induction false} ScanEoi(m: Memory, pos: nat, line: nat, tail: seq<byte>, i: nat)
    requires Still(tail) && HasBytes(m, pos, tail + EOI) && i <= |tail|
    ensures Scan(m, pos + i, pos, line) == Some([LineData(line, pos, pos + |tail| + 1, 0)])
    decreases |tail| - i
  {
    HasByteAt(m, pos, tail + EOI, i);
    HasByteAt(m, pos, tail + EOI, i + 1);
    if i < |tail| {
      ScanStep(m, pos + i, pos, line);
      ScanEoi(m, pos, line, tail, i + 1);
    } else {
      assert Word(m, pos + i) == EOI_WORD;
    }
  }

  /** The surviving lines carry their true numbers; between two of them fewer than eight are missing. */
  predicate Numbered(nums: seq<nat>, line: nat)
    decreases |nums|
  {
    nums == [] || (line <= nums[0] < line + 8 && Numbered(nums[1..], nums[0] + 1))
  }

  ghost predicate AllQuiet(segs: seq<seq<byte>>, nums: seq<nat>) {
    |segs| == |nums| && forall k :: 0 <= k < |segs| ==> Quiet(segs[k], nums[k] % 8)
  }

  /** Segments, then bytes that belong to none, then the EOI marker. */
  function StreamWith(segs: seq<seq<byte>>, tail: seq<byte>): seq<byte>
    decreases |segs|
  {
    if segs == [] then tail + EOI else segs[0] + StreamWith(segs[1..], tail)
  }

  lemma {:induction false} StreamIsFlat(segs: seq<seq<byte>>, tail: seq<byte>)
    ensures StreamWith(segs, tail) == Flatten(segs) + tail + EOI
    decreases |segs|
  {
    if segs != [] {
      StreamIsFlat(segs[1..], tail);
      assert segs[0] + (Flatten(segs[1..]) + tail + EOI) == segs[0] + Flatten(segs[1..]) + tail + EOI;
    }
  }

  lemma NoTail(segs: seq<seq<byte>>)
    ensures StreamWith(segs, []) == ImageStream(segs) && Still([])
  {
    StreamIsFlat(segs, []);
    assert Flatten(segs) + [] == Flatten(segs);
  }

  /** The records of consecutive segments from `pos` on, and the last record, for `tail` more bytes and the EOI marker. */
  ghost function Records(segs: seq<seq<byte>>, nums: seq<nat>, pos: nat, line: nat, tail: nat): (es: seq<LineData>)
    requires AllQuiet(segs, nums)
    ensures |es| == |segs| + 1
    decreases |segs|
  {
    if segs == [] then [LineData(line, pos, pos + tail + 1, 0)]
    else
      assert AllQuiet(segs[1..], nums[1..]);
      [SegmentRecord(pos, segs[0], nums[0])] + Records(segs[1..], nums[1..], pos + |segs[0]|, nums[0] + 1, tail)
  }

  /** The index of a stream of quiet segments is one record per segment, under its true number, and one for EOI. */
  lemma {:induction false} ScanFindsSegments(m: Memory, pos: nat, line: nat, segs: seq<seq<byte>>, nums: seq<nat>, tail: seq<byte>)
    requires AllQuiet(segs, nums) && Numbered(nums, line) && Still(tail) && HasBytes(m, pos, StreamWith(segs, tail))
    ensures Scan(m, pos, pos, line) == Some(Records(segs, nums, pos, line, |tail|))
    decreases |segs|
  {
    hide Quiet, Scan, HasBytes, Still, NextLine;
    if segs == [] {
      ScanEoi(m, pos, line, tail, 0);
    } else {
      var seg := segs[0];
      TailQuiet(segs, nums);
      HasParts(m, pos, seg, StreamWith(segs[1..], tail));
      Resynchronises(line, nums[0]);
      StreamRoom(m, pos, seg, segs[1..], tail);
      ScanSegment(m, pos, line, seg, nums[0] % 8);
      ScanFindsSegments(m, pos + |seg|, nums[0] + 1, segs[1..], nums[1..], tail);
    }
  }

  lemma {:induction false} StreamSize(segs: seq<seq<byte>>, tail: seq<byte>)
    ensures |StreamWith(segs, tail)| >= 2
    decreases |segs|
  {
    if segs != [] {
      StreamSize(segs[1..], tail);
    }
  }

  lemma StreamRoom(m: Memory, pos: nat, seg: seq<byte>, segs: seq<seq<byte>>, tail: seq<byte>)
    requires HasBytes(m, pos + |seg|, StreamWith(segs, tail))
    ensures pos + |seg| + 2 <= IMAGE_LIMIT
  {
    StreamSize(segs, tail);
  }

  function Offset(segs: seq<seq<byte>>, k: nat): nat
    requires k <= |segs|
    decreases k
  {
    if k == 0 then 0 else |segs[0]| + Offset(segs[1..], k - 1)
  }

  lemma TailQuiet(segs: seq<seq<byte>>, nums: seq<nat>)
    requires AllQuiet(segs, nums) && segs != []
    ensures Quiet(segs[0], nums[0] % 8) && AllQuiet(segs[1..], nums[1..])
  {
  }

  lemma RecordsStep(segs: seq<seq<byte>>, nums: seq<nat>, pos: nat, line: nat, tail: nat, k: nat)
    requires AllQuiet(segs, nums) && 0 < k < |segs| && AllQuiet(segs[1..], nums[1..])
    ensures Records(segs, nums, pos, line, tail)[k] ==
            Records(segs[1..], nums[1..], pos + |segs[0]|, nums[0] + 1, tail)[k - 1]
  {
  }

  /** Record `k` spans exactly segment `k`. */
  lemma {:induction false} RecordAt(segs: seq<seq<byte>>, nums: seq<nat>, pos: nat, line: nat, tail: nat, k: nat, at: nat)
    requires AllQuiet(segs, nums) && k < |segs| && at == pos + Offset(segs, k)
    ensures Quiet(segs[k], nums[k] % 8) && |segs[k]| >= 2
    ensures Records(segs, nums, pos, line, tail)[k] == SegmentRecord(at, segs[k], nums[k])
    decreases k
  {
    if k > 0 {
      TailQuiet(segs, nums);
      RecordsStep(segs, nums, pos, line, tail, k);
      RecordAt(segs[1..], nums[1..], pos + |segs[0]|, nums[0] + 1, tail, k - 1, at);
    }
  }

  lemma {:induction false} SegmentAt(m: Memory, segs: seq<seq<byte>>, tail: seq<byte>, pos: nat, k: nat, at: nat)
    requires HasBytes(m, pos, StreamWith(segs, tail)) && k < |segs| && at == pos + Offset(segs, k)
    ensures HasBytes(m, at, segs[k])
    decreases k
  {
    HasParts(m, pos, segs[0], StreamWith(segs[1..], tail));
    if k > 0 {
      SegmentAt(m, segs[1..], tail, pos + |segs[0]|, k - 1, at);
    }
  }

  lemma {:induction false} RecordsFit(segs: seq<seq<byte>>, nums: seq<nat>, pos: nat, line: nat, tail: nat)
    requires AllQuiet(segs, nums) && line < 64 && forall k :: 0 <= k < |nums| ==> nums[k] < 63
    ensures Fit(Records(segs, nums, pos, line, tail))
    decreases |segs|
  {
    if segs != [] {
      RecordsFit(segs[1..], nums[1..], pos + |segs[0]|, nums[0] + 1, tail);
    }
  }

  // ---------- the whole index ----------

  /** The line number of the last record. */
  function LastNumber(es: seq<LineData>): nat
    requires |es| > 0
  {
    es[|es| - 1].lineNum
  }

  /** The memory after `generateLineIndex`. */
  function Indexed(m: Memory): Memory
    requires Scan(m, IMAGE_DATA_START, IMAGE_DATA_START, 0).Some?
  {
    WriteRecords(m, Scan(m, IMAGE_DATA_START, IMAGE_DATA_START, 0).value)
  }

  // Records with numbers of 64 and more are written over the start of the image, so lines are served from the memory as the
  // index leaves it.

  /** Nothing is written at or above `at` if `end` is the highest number. */
  predicate Spared(end: nat, at: nat) {
    end < 64 || RecordAddr(end) + RECORD_SIZE <= at
  }

  lemma RecordBelow(line: nat, end: nat, at: nat, p: nat)
    requires line <= end && Spared(end, at) && IMAGE_DATA_START <= at <= p < IMAGE_LIMIT
    ensures !InRecord(line, Cell(p))
  {
  }

  lemma BytesSpared(m: Memory, es: seq<LineData>, at: nat, bytes: seq<byte>)
    requires AllInMemory(es) && Increasing(es) && |es| > 0 && Spared(LastNumber(es), at)
    requires HasBytes(m, at, bytes) && IMAGE_DATA_START <= at
    ensures Read(WriteRecords(m, es), at, |bytes|) == bytes
  {
    hide InRecord, Cell, Spared, InMemory, WriteRecords;
    forall i | 0 <= i < |bytes|
      ensures Read(WriteRecords(m, es), at, |bytes|)[i] == bytes[i]
    {
      HasByteAt(m, at, bytes, i);
      forall j | 0 <= j < |es|
        ensures !InRecord(es[j].lineNum, Cell(at + i))
      {
        RecordBelow(es[j].lineNum, LastNumber(es), at, at + i);
      }
      OutsideRecords(m, es, Cell(at + i));
    }
  }

  /** What a record has the reader fetch. */
  lemma RecordFetches(m: Memory, line: nat, pos: nat, seg: seq<byte>)
    requires InMemory(line) && 2 <= |seg| && pos + |seg| <= IMAGE_LIMIT
    requires FromRecord(Read(m, RecordAddr(line), RECORD_SIZE)) == SegmentRecord(pos, seg, line)
    ensures LineRead(m, line) == (Read(m, pos, |seg|), |seg| % 0x1_0000)
  {
    assert line < 0x1000_0000 - 16;
    hide FromRecord, Read, AskedAddr, RecordAddr;
    var d := FromRecord(Read(m, AskedAddr(line), RECORD_SIZE));
    assert d == SegmentRecord(pos, seg, line) && (d.endAddr - d.startAddr + 1) % UINT32 == |seg|;
  }

  /** A segment with a record of its own is served from where it is, and whole if the index has written nothing there. */
  lemma RecordServed(m: Memory, es: seq<LineData>, at: nat, seg: seq<byte>, n: nat, k: nat)
    requires AllInMemory(es) && Increasing(es) && k < |es| && |seg| >= 2 && HasBytes(m, at, seg) && IMAGE_DATA_START <= at
    requires es[k] == SegmentRecord(at, seg, n)
    ensures LineRead(WriteRecords(m, es), n) == (Read(WriteRecords(m, es), at, |seg|), |seg| % 0x1_0000)
    ensures Spared(LastNumber(es), at) ==> Read(WriteRecords(m, es), at, |seg|) == seg
  {
    hide WriteRecords, FromRecord, LineRead, Read, Spared;
    RecordsReadBack(m, es, k);
    RecordFetches(WriteRecords(m, es), n, at, seg);
    if Spared(LastNumber(es), at) {
      BytesSpared(m, es, at, seg);
    }
  }

  /** The number of the last record, which `EOI` gets. */
  function EndNumber(nums: seq<nat>, line: nat): nat {
    if nums == [] then line else nums[|nums| - 1] + 1
  }

  /** The last record spans the bytes that belong to no segment, and `EOI`. */
  lemma {:induction false} EndRecord(segs: seq<seq<byte>>, nums: seq<nat>, pos: nat, line: nat, tail: seq<byte>, at: nat)
    requires AllQuiet(segs, nums) && at == pos + Offset(segs, |segs|)
    ensures Records(segs, nums, pos, line, |tail|)[|segs|] == SegmentRecord(at, tail + EOI, EndNumber(nums, line))
    decreases |segs|
  {
    hide Quiet;
    if segs != [] {
      EndRecord(segs[1..], nums[1..], pos + |segs[0]|, nums[0] + 1, tail, at);
    }
  }

  lemma {:induction false} EndAt(m: Memory, segs: seq<seq<byte>>, tail: seq<byte>, pos: nat, at: nat)
    requires HasBytes(m, pos, StreamWith(segs, tail)) && at == pos + Offset(segs, |segs|)
    ensures HasBytes(m, at, tail + EOI)
    decreases |segs|
  {
    hide HasBytes;
    if segs != [] {
      HasParts(m, pos, segs[0], StreamWith(segs[1..], tail));
      EndAt(m, segs[1..], tail, pos + |segs[0]|, at);
    }
  }

  /** Record `k` of the index: that of segment `k`, or the last one. */
  function RecordFor(segs: seq<seq<byte>>, nums: seq<nat>, tail: seq<byte>, k: nat): LineData
    requires |segs| == |nums| && k <= |segs| && forall j :: 0 <= j < |segs| ==> |segs[j]| >= 2
  {
    var at := IMAGE_DATA_START + Offset(segs, k);
    if k < |segs| then SegmentRecord(at, segs[k], nums[k]) else SegmentRecord(at, tail + EOI, EndNumber(nums, 0))
  }

  lemma QuietIsLong(segs: seq<seq<byte>>, nums: seq<nat>)
    requires AllQuiet(segs, nums)
    ensures forall j :: 0 <= j < |segs| ==> |segs[j]| >= 2
  {
    hide Marks;
    forall j | 0 <= j < |segs|
      ensures |segs[j]| >= 2
    {
      assert Quiet(segs[j], nums[j] % 8);
    }
  }

  lemma RecordIs(segs: seq<seq<byte>>, nums: seq<nat>, tail: seq<byte>, k: nat)
    requires AllQuiet(segs, nums) && k <= |segs|
    ensures forall j :: 0 <= j < |segs| ==> |segs[j]| >= 2
    ensures Records(segs, nums, IMAGE_DATA_START, 0, |tail|)[k] == RecordFor(segs, nums, tail, k)
  {
    hide Quiet, Records;
    QuietIsLong(segs, nums);
    if k < |segs| {
      RecordAt(segs, nums, IMAGE_DATA_START, 0, |tail|, k, IMAGE_DATA_START + Offset(segs, k));
    } else {
      EndRecord(segs, nums, IMAGE_DATA_START, 0, tail, IMAGE_DATA_START + Offset(segs, k));
    }
  }

  /** The memory holds a stream of lines, and the index of it lies behind the scanner as it is written. */
  ghost predicate Indexable(m: Memory, segs: seq<seq<byte>>, nums: seq<nat>, tail: seq<byte>) {
    && AllQuiet(segs, nums) && Numbered(nums, 0) && Still(tail) && HasBytes(m, IMAGE_DATA_START, StreamWith(segs, tail))
    && Trailing(Records(segs, nums, IMAGE_DATA_START, 0, |tail|))
  }

  lemma SmallNumbers(segs: seq<seq<byte>>, nums: seq<nat>, tail: nat)
    requires AllQuiet(segs, nums) && forall j :: 0 <= j < |nums| ==> nums[j] < 63
    ensures Trailing(Records(segs, nums, IMAGE_DATA_START, 0, tail))
  {
    hide AllQuiet, Records;
    RecordsFit(segs, nums, IMAGE_DATA_START, 0, tail);
    FitIsTrailing(Records(segs, nums, IMAGE_DATA_START, 0, tail));
  }

  /** The loop ends within one pass per cell, with the records of the lines and that of EOI. */
  lemma LoopEnds(m: Memory, segs: seq<seq<byte>>, nums: seq<nat>, tail: seq<byte>)
    requires Indexable(m, segs, nums, tail)
    ensures Scan(m, IMAGE_DATA_START, IMAGE_DATA_START, 0) == Some(Records(segs, nums, IMAGE_DATA_START, 0, |tail|))
    ensures IndexRun(m, IMAGE_DATA_START, IMAGE_DATA_START, 0, MRAM_SIZE) == Some((Indexed(m), EndNumber(nums, 0)))
    ensures Increasing(Records(segs, nums, IMAGE_DATA_START, 0, |tail|))
    ensures LastNumber(Records(segs, nums, IMAGE_DATA_START, 0, |tail|)) == EndNumber(nums, 0)
  {
    hide Quiet, Scan, IndexRun, HasBytes, Still, Numbered, StreamWith, WriteRecords, Records, Trailing, EndNumber, Increasing;
    ScanFindsSegments(m, IMAGE_DATA_START, 0, segs, nums, tail);
    ScanIncreases(m, IMAGE_DATA_START, IMAGE_DATA_START, 0);
    RunFromStart(m, Records(segs, nums, IMAGE_DATA_START, 0, |tail|));
    RecordIs(segs, nums, tail, |segs|);
  }

  /** Every line is served under its number, from the memory as the index leaves it. */
  lemma SegmentServed(m: Memory, segs: seq<seq<byte>>, nums: seq<nat>, tail: seq<byte>, k: nat, at: nat)
    requires Indexable(m, segs, nums, tail) && k < |segs| && at == IMAGE_DATA_START + Offset(segs, k)
    ensures Scan(m, IMAGE_DATA_START, IMAGE_DATA_START, 0).Some?
    ensures LineRead(Indexed(m), nums[k]) == (Read(Indexed(m), at, |segs[k]|), |segs[k]| % 0x1_0000)
    ensures Spared(EndNumber(nums, 0), at) ==> Read(Indexed(m), at, |segs[k]|) == segs[k]
  {
    hide Quiet, Scan, IndexRun, HasBytes, Still, Numbered, StreamWith, LineRead, WriteRecords, Read, Records, EndNumber, Spared,
         InMemory;
    LoopEnds(m, segs, nums, tail);
    RecordIs(segs, nums, tail, k);
    SegmentAt(m, segs, tail, IMAGE_DATA_START, k, at);
    RecordServed(m, Records(segs, nums, IMAGE_DATA_START, 0, |tail|), at, segs[k], nums[k], k);
  }

  /** What belongs to no segment is served, with the EOI marker, under the number after the last. */
  lemma EndServed(m: Memory, segs: seq<seq<byte>>, nums: seq<nat>, tail: seq<byte>, at: nat)
    requires Indexable(m, segs, nums, tail) && at == IMAGE_DATA_START + Offset(segs, |segs|)
    ensures Scan(m, IMAGE_DATA_START, IMAGE_DATA_START, 0).Some?
    ensures LineRead(Indexed(m), EndNumber(nums, 0)) == (Read(Indexed(m), at, |tail + EOI|), |tail + EOI| % 0x1_0000)
    ensures Spared(EndNumber(nums, 0), at) ==> Read(Indexed(m), at, |tail + EOI|) == tail + EOI
  {
    hide Quiet, Scan, IndexRun, HasBytes, Still, Numbered, StreamWith, LineRead, WriteRecords, Read, Records, EndNumber, Spared,
         InMemory;
    LoopEnds(m, segs, nums, tail);
    RecordIs(segs, nums, tail, |segs|);
    EndAt(m, segs, tail, IMAGE_DATA_START, at);
    RecordServed(m, Records(segs, nums, IMAGE_DATA_START, 0, |tail|), at, tail + EOI, EndNumber(nums, 0), |segs|);
  }

  /** The sixteen cells of every record hold it, also where they are cells of the image. */
  lemma RecordInPlace(m: Memory, segs: seq<seq<byte>>, nums: seq<nat>, tail: seq<byte>, k: nat)
    requires Indexable(m, segs, nums, tail) && k <= |segs|
    ensures Scan(m, IMAGE_DATA_START, IMAGE_DATA_START, 0).Some? && forall j :: 0 <= j < |segs| ==> |segs[j]| >= 2
    ensures var d := RecordFor(segs, nums, tail, k);
            InMemory(d.lineNum) && Read(Indexed(m), RecordAddr(d.lineNum), RECORD_SIZE) == Record(d)
  {
    hide Quiet, Scan, IndexRun, HasBytes, Still, Numbered, StreamWith, WriteRecords, Read, Records, EndNumber, Record, InMemory;
    LoopEnds(m, segs, nums, tail);
    RecordIs(segs, nums, tail, k);
    RecordBytes(m, Records(segs, nums, IMAGE_DATA_START, 0, |tail|), k);
  }

  /** The sixteen cells of any other number hold what they held before. */
  lemma NoOtherRecord(m: Memory, segs: seq<seq<byte>>, nums: seq<nat>, tail: seq<byte>, n: nat)
    requires Indexable(m, segs, nums, tail) && InMemory(n) && n !in nums && n != EndNumber(nums, 0)
    ensures Scan(m, IMAGE_DATA_START, IMAGE_DATA_START, 0).Some?
    ensures Read(Indexed(m), RecordAddr(n), RECORD_SIZE) == Read(m, RecordAddr(n), RECORD_SIZE)
  {
    hide Quiet, Scan, IndexRun, HasBytes, Still, Numbered, StreamWith, WriteRecords, Records, EndNumber, InMemory;
    var es := Records(segs, nums, IMAGE_DATA_START, 0, |tail|);
    LoopEnds(m, segs, nums, tail);
    forall j | 0 <= j < |es|
      ensures es[j].lineNum != n
    {
      RecordIs(segs, nums, tail, j);
    }
    forall i | 0 <= i < RECORD_SIZE
      ensures Read(Indexed(m), RecordAddr(n), RECORD_SIZE)[i] == Read(m, RecordAddr(n), RECORD_SIZE)[i]
    {
      RecordCell(n, i);
      RecordKept(m, es, n, RecordAddr(n) + i);
    }
  }

  lemma RecordCell(n: nat, i: nat)
    requires InMemory(n) && i < RECORD_SIZE
    ensures Cell(RecordAddr(n) + i) == RecordAddr(n) + i
  {
  }

  /** Every other cell of the memory is left alone. */
  lemma CellLeftAlone(m: Memory, segs: seq<seq<byte>>, nums: seq<nat>, tail: seq<byte>, a: nat)
    requires Indexable(m, segs, nums, tail) && a < MRAM_SIZE && !InRecord(EndNumber(nums, 0), a)
    requires forall j :: 0 <= j < |nums| ==> !InRecord(nums[j], a)
    ensures Scan(m, IMAGE_DATA_START, IMAGE_DATA_START, 0).Some? && Indexed(m)[a] == m[a]
  {
    hide Quiet, Scan, IndexRun, HasBytes, Still, Numbered, StreamWith, WriteRecords, Records, EndNumber, InMemory, InRecord;
    var es := Records(segs, nums, IMAGE_DATA_START, 0, |tail|);
    LoopEnds(m, segs, nums, tail);
    forall j | 0 <= j < |es|
      ensures !InRecord(es[j].lineNum, a)
    {
      RecordIs(segs, nums, tail, j);
    }
    OutsideRecords(m, es, a);
  }

  /**
   Index correctness: when the memory holds a stream of lines whose numbers, counted from 0, skip at most seven at a time,
   the loop ends within one pass per cell, writes nothing into the image and numbers every surviving line truly, and the
   reader returns each line's bytes exactly, with their number modulo 2^16.
   */
  lemma IndexIsCorrect(m: Memory, segs: seq<seq<byte>>, nums: seq<nat>, tail: seq<byte>, k: nat)
    requires AllQuiet(segs, nums) && Numbered(nums, 0) && Still(tail) && HasBytes(m, IMAGE_DATA_START, StreamWith(segs, tail))
    requires forall j :: 0 <= j < |nums| ==> nums[j] < 63
    requires k < |segs|
    ensures Scan(m, IMAGE_DATA_START, IMAGE_DATA_START, 0) == Some(Records(segs, nums, IMAGE_DATA_START, 0, |tail|))
    ensures IndexRun(m, IMAGE_DATA_START, IMAGE_DATA_START, 0, MRAM_SIZE) == Some((Indexed(m), EndNumber(nums, 0)))
    ensures LineRead(Indexed(m), nums[k]) == (segs[k], |segs[k]| % 0x1_0000)
  {
    hide Quiet, Scan, IndexRun, HasBytes, Still, Numbered, StreamWith, LineRead, WriteRecords, Read, Records, Trailing;
    SmallNumbers(segs, nums, |tail|);
    LoopEnds(m, segs, nums, tail);
    SegmentServed(m, segs, nums, tail, k, IMAGE_DATA_START + Offset(segs, k));
  }
}
