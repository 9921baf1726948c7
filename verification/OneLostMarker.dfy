/**
 Captures in which exactly one line loses the second byte of its marker: the three things a stale byte can do.
 */
module OneLostMarker {
  import opened Bits
  import opened Wrappers
  import opened BlockCoding
  import opened LineCoding
  import opened Strip
  import opened Mram
  import opened OutputStore
  import opened LineIndex
  import opened IndexCorrectness
  import opened EndToEnd
  import opened LostMarkers

  /** Where the second marker byte of line `k` belongs in the stream. */
  function MarkerAt(lines: seq<seq<byte>>, k: nat): int
    requires k < |lines|
  {
    Offset(lines, k) + |lines[k]| - 1
  }

  /** The old byte there. */
  function StaleByte(m0: Memory, lines: seq<seq<byte>>, k: nat): byte
    requires k < |lines| && lines[k] != []
  {
    m0[Cell(IMAGE_DATA_START + MarkerAt(lines, k))]
  }

  /** Only line `k` has a length that is 1 modulo the buffer size. */
  predicate OnlyLoss(lines: seq<seq<byte>>, size: nat, k: nat)
    requires size > 0 && k < |lines|
  {
    LosesMarker(lines[k], size) && forall j :: 0 <= j < |lines| && j != k ==> !LosesMarker(lines[j], size)
  }

  /** Line `k` with `x` for the second byte of its marker. */
  function Spoilt(lines: seq<seq<byte>>, k: nat, x: byte): (s: seq<byte>)
    requires k < |lines| && lines[k] != []
    ensures |s| == |lines[k]|
  {
    lines[k][..|lines[k]| - 1] + [x]
  }

  function Without(nums: seq<nat>, k: nat): seq<nat>
    requires k < |nums|
  {
    nums[..k] + nums[k + 1..]
  }

  /** The lines as stored: all as they were sent but line `k`, which ends in `x`. */
  ghost predicate OneSpoilt(lines: seq<seq<byte>>, nums: seq<nat>, stored: seq<seq<byte>>, k: nat, x: byte) {
    && AllQuiet(lines, nums) && k < |lines| == |stored| && Whole(stored) && AllBodies(stored) && lines[k] != []
    && stored[k] == Spoilt(lines, k, x) && forall j :: 0 <= j < |lines| && j != k ==> stored[j] == lines[j]
  }

  lemma OneStored(m0: Memory, size: nat, lines: seq<seq<byte>>, nums: seq<nat>, stored: seq<seq<byte>>, k: nat)
    requires size >= 2 && AllQuiet(lines, nums) && k < |lines| && OnlyLoss(lines, size, k)
    requires stored == AllStored(m0, IMAGE_DATA_START, lines, size)
    ensures lines[k] != [] && OneSpoilt(lines, nums, stored, k, StaleByte(m0, lines, k))
  {
    hide AllStored, Quiet, Cell;
    StoredBodies(m0, IMAGE_DATA_START, lines, size, nums);
    forall j | 0 <= j < |lines|
      ensures stored[j] == AsStored(m0, IMAGE_DATA_START + Offset(lines, j), lines[j], size)
    {
      StoredAt(m0, IMAGE_DATA_START, lines, size, j);
    }
  }

  lemma SpoiltFate(lines: seq<seq<byte>>, nums: seq<nat>, stored: seq<seq<byte>>, k: nat, x: byte, j: nat)
    requires OneSpoilt(lines, nums, stored, k, x) && j < |lines|
    ensures if j == k then LastByte(stored[j]) == x
            else FateOf(stored[j]).Ends? && LastByte(stored[j]) as nat % 8 == nums[j] % 8 && LastByte(stored[j]) != 0xFF
  {
    if j != k {
      KeptEnds(lines, nums, j);
    }
  }

  lemma SpoiltApart(lines: seq<seq<byte>>, nums: seq<nat>, stored: seq<seq<byte>>, k: nat, x: byte)
    requires OneSpoilt(lines, nums, stored, k, x)
    requires x == 0xFF && k + 1 < |lines| ==> lines[k + 1] != [] && !Fires(lines[k + 1][0])
    ensures AllApart(stored)
  {
    hide AllQuiet, Fires;
    forall j | 0 <= j < |stored| - 1
      ensures Apart(stored[j], stored[j + 1])
    {
      SpoiltFate(lines, nums, stored, k, x, j);
    }
  }

  lemma {:induction false} AllAgree(stored: seq<seq<byte>>, nums: seq<nat>)
    requires Whole(stored) && |stored| == |nums|
    requires forall j :: 0 <= j < |stored| && FateOf(stored[j]).Ends? ==> LastByte(stored[j]) as nat % 8 == nums[j] % 8
    ensures Agree(stored, nums)
    decreases |stored|
  {
    hide FateOf;
    if stored != [] {
      var rest, ns := stored[1..], nums[1..];
      assert forall j :: 0 <= j < |rest| ==> rest[j] == stored[j + 1] && ns[j] == nums[j + 1];
      AllAgree(rest, ns);
    }
  }

  // ---------- a byte that makes no marker ----------

  lemma {:induction false} AllEndingNums(stored: seq<seq<byte>>, nums: seq<nat>)
    requires Whole(stored) && |stored| == |nums| && forall j :: 0 <= j < |stored| ==> FateOf(stored[j]).Ends?
    ensures EndingNums(stored, nums) == nums
    decreases |stored|
  {
    hide FateOf;
    if stored != [] {
      AllEndingNums(stored[1..], nums[1..]);
    }
  }

  /** If all lines but line `k` end, and that one runs on, the segments are numbered as if it were not there. */
  lemma {:induction false} EndingWithout(stored: seq<seq<byte>>, nums: seq<nat>, k: nat)
    requires Whole(stored) && |stored| == |nums| && k < |stored| && FateOf(stored[k]).RunsOn?
    requires forall j :: 0 <= j < |stored| && j != k ==> FateOf(stored[j]).Ends?
    ensures EndingNums(stored, nums) == Without(nums, k)
    decreases k
  {
    hide FateOf;
    if k == 0 {
      AllEndingNums(stored[1..], nums[1..]);
    } else {
      var rest := stored[1..];
      assert forall j :: 0 <= j < |rest| ==> rest[j] == stored[j + 1];
      EndingWithout(rest, nums[1..], k - 1);
      assert [nums[0]] + Without(nums[1..], k - 1) == Without(nums, k);
    }
  }

  /** The stale byte makes no marker, not even with the first byte of the line after it. */
  predicate NoMarker(lines: seq<seq<byte>>, k: nat, x: byte)
    requires k + 1 < |lines|
  {
    !Fires(x) && (x == 0xFF ==> lines[k + 1] != [] && !Fires(lines[k + 1][0]))
  }

  lemma RunOnNumbers(lines: seq<seq<byte>>, nums: seq<nat>, stored: seq<seq<byte>>, k: nat, x: byte)
    requires OneSpoilt(lines, nums, stored, k, x) && k + 1 < |lines| && NoMarker(lines, k, x)
    requires Numbered(Without(nums, k), 0)
    ensures AllApart(stored) && Numbers(stored) == Without(nums, k) == EndingNums(stored, nums)
    ensures FateOf(stored[k]).RunsOn? && forall j :: 0 <= j < |stored| && j != k ==> FateOf(stored[j]).Ends?
  {
    hide Quiet, Numbered, Fires, Agree, EndingNums, Numbering, Gather;
    forall j | 0 <= j < |stored|
      ensures if j == k then FateOf(stored[j]).RunsOn?
              else FateOf(stored[j]).Ends? && LastByte(stored[j]) as nat % 8 == nums[j] % 8
    {
      SpoiltFate(lines, nums, stored, k, x, j);
      FiresAtEoi();
    }
    SpoiltApart(lines, nums, stored, k, x);
    AllAgree(stored, nums);
    EndingWithout(stored, nums, k);
    NumbersTrueIff(stored, nums, [], 0);
  }

  lemma FiresAtEoi()
    ensures Fires(0xD9)
  {
  }

  /** What is served for each line when one line runs on into the next. */
  lemma RunOnServed(stored: seq<seq<byte>>, nums: seq<nat>, k: nat, j: nat)
    requires Whole(stored) && |stored| == |nums| && k + 1 < |stored| && j < |stored| && j != k
    requires FateOf(stored[k]).RunsOn? && forall i :: 0 <= i < |stored| && i != k ==> FateOf(stored[i]).Ends?
    ensures Reached(stored, j) && Rank(stored, j) < |EndingNums(stored, nums)|
    ensures EndingNums(stored, nums)[Rank(stored, j)] == nums[j]
    ensures Served(stored, [], j) == if j == k + 1 then stored[k] + stored[j] else stored[j]
  {
    hide FateOf, Served, Rank, EndingNums;
    EndingNumAt(stored, nums, j);
    ServedStep(stored, [], j);
    if j == k + 1 {
      ServedStep(stored, [], k);
    }
  }

  /**
   A stale byte that makes no marker: every line but line `k` is served truly, except that the line after it is served
   behind line `k`; and unless it is the number after all others, there is no record under the number of line `k`.
   */
  lemma LostMarkerRunsOn(m0: Memory, size: nat, lines: seq<seq<byte>>, nums: seq<nat>, k: nat, j: nat, m: Memory)
    requires size >= 2 && Fits(lines) && AllQuiet(lines, nums) && k + 1 < |lines| && OnlyLoss(lines, size, k)
    requires lines[k] != [] && NoMarker(lines, k, StaleByte(m0, lines, k)) && m == Captured(m0, lines, size)
    requires Numbered(Without(nums, k), 0) && (forall i :: 0 <= i < |nums| ==> nums[i] < 63) && j < |lines|
    ensures Scan(m, IMAGE_DATA_START, IMAGE_DATA_START, 0).Some? && LoopLeaves(m, Indexed(m))
    ensures j != k ==>
              var served := if j == k + 1 then Joined(lines[k], StaleByte(m0, lines, k), lines[j]) else lines[j];
              LineRead(Indexed(m), nums[j]) == (served, |served| % 0x1_0000)
    ensures j == k && Rising(nums) && nums[k] != EndNumber(Without(nums, k), 0) ==>
              Read(Indexed(m), RecordAddr(nums[k]), RECORD_SIZE) == Read(m, RecordAddr(nums[k]), RECORD_SIZE)
  {
    hide Quiet, AllStored, Numbered, Scan, IndexRun, Indexed, LineRead, Captured, Fits, Served, Rank, Gather, Numbering, FateOf,
         LoopLeaves, StaleByte, Joined, EndingNums, Read, OnlyLoss, EndNumber, AllApart, NoMarker, Followed, Serves, StartOf;
    var stored, x := AllStored(m0, IMAGE_DATA_START, lines, size), StaleByte(m0, lines, k);
    OneStored(m0, size, lines, nums, stored, k);
    RunOnNumbers(lines, nums, stored, k, x);
    SmallIsFollowed(stored);
    SmallEnd(Numbers(stored), 0);
    assert Lossy(m0, size, lines, nums, stored);
    if j == k {
      RunOnServed(stored, nums, k, k + 1);
      StoredLineServed(m0, size, lines, nums, stored, k + 1, m);
      if Rising(nums) {
        LostLineRecord(m0, size, lines, nums, stored, k, m);
      }
    } else {
      RunOnServed(stored, nums, k, j);
      StoredLineServed(m0, size, lines, nums, stored, j, m);
      ServedWhole(Indexed(m), nums[j], StartOf(stored, j), Served(stored, [], j), EndNumber(Numbers(stored), 0));
      JoinedIs(lines, k, x, lines[k + 1]);
    }
  }

  lemma JoinedIs(lines: seq<seq<byte>>, k: nat, x: byte, b: seq<byte>)
    requires k < |lines| && lines[k] != []
    ensures Joined(lines[k], x, b) == Spoilt(lines, k, x) + b
  {
  }

  /** In those bytes the decoder finds the blocks of line `k`, unless the stale byte is zero. */
  lemma LostMarkerServesWrongLine(m0: Memory, size: nat, tables: Tables, decoders: Decoders, strips: seq<Strip>, nums: seq<nat>,
                                  k: nat, lines: seq<seq<byte>>, x: byte, m: Memory)
    requires TablesOk(tables) && Matches(tables, decoders) && size >= 2 && |strips| == |nums| && k + 1 < |strips|
    requires lines == CaptureLines(tables, strips, nums) && Fits(lines) && OnlyLoss(lines, size, k) && lines[k] != []
    requires Numbered(Without(nums, k), 0) && forall j :: 0 <= j < |nums| ==> nums[j] < 63
    requires x == StaleByte(m0, lines, k) && NoMarker(lines, k, x) && m == Captured(m0, lines, size)
    ensures Scan(m, IMAGE_DATA_START, IMAGE_DATA_START, 0).Some? && LoopLeaves(m, Indexed(m))
    ensures LineRead(Indexed(m), nums[k + 1]).0 == Joined(lines[k], x, lines[k + 1])
    ensures x != 0 ==> DecodeLine(decoders, Joined(lines[k], x, lines[k + 1]), BLOCKS_PER_LINE) ==
                       Some(LineBlocks(tables, strips[k], nums[k]))
  {
    hide TablesOk, Matches, EncodedLine, LineBlocks, Scan, IndexRun, Indexed, LineRead, DecodeLine, Quiet, Captured, Fits,
         LoopLeaves, StaleByte, Joined, OnlyLoss, NoMarker, Numbered;
    CaptureLinesQuiet(tables, strips, nums);
    LostMarkerRunsOn(m0, size, lines, nums, k, k + 1, m);
    if x != 0 {
      JoinedDecodesFirst(tables, decoders, strips[k], nums[k], x, lines[k + 1]);
    }
  }

  // ---------- a byte that makes another marker ----------

  lemma {:induction false} AllSegments(stored: seq<seq<byte>>)
    requires Whole(stored) && forall j :: 0 <= j < |stored| ==> FateOf(stored[j]).Ends?
    ensures Gather(stored, []).segs == stored && Gather(stored, []).tail == []
    decreases |stored|
  {
    hide FateOf;
    if stored != [] {
      AllSegments(stored[1..]);
      assert [] + stored[0] == stored[0];
    }
  }

  lemma {:induction false} AllRanks(stored: seq<seq<byte>>, j: nat)
    requires Whole(stored) && j <= |stored| && forall i :: 0 <= i < |stored| ==> FateOf(stored[i]).Ends?
    ensures Rank(stored, j) == j
    decreases j
  {
    hide FateOf;
    if j > 0 {
      AllRanks(stored[1..], j - 1);
    }
  }

  lemma AddEights(from: nat, shift: nat)
    requires shift % 8 == 0
    ensures (from + shift) % 8 == from % 8
  {
  }

  /** Lines in order that begin `shift`, a multiple of eight, too early for the number expected. */
  lemma {:induction false} ShiftedNumbers(segs: seq<seq<byte>>, from: nat, expected: nat, shift: nat, j: nat)
    requires j < |segs| && (forall i :: 0 <= i < |segs| ==> segs[i] != [])
    requires forall i :: 0 <= i < |segs| ==> LastByte(segs[i]) as nat % 8 == (from + i) % 8
    requires shift % 8 == 0 && expected <= from + shift < expected + 8
    ensures Numbering(segs, expected)[j] == from + shift + j
    decreases j
  {
    hide LastByte, NextLine;
    var rst := LastByte(segs[0]) as nat % 8;
    assert rst == (from + 0) % 8;
    AddEights(from, shift);
    NextLineIsLeast(expected, rst, from + shift);
    if j > 0 {
      var rest := segs[1..];
      forall i | 0 <= i < |rest|
        ensures rest[i] != [] && LastByte(rest[i]) as nat % 8 == (from + 1 + i) % 8
      {
        assert rest[i] == segs[i + 1] && from + 1 + i == from + (i + 1);
      }
      ShiftedNumbers(rest, from + 1, from + shift + 1, shift, j - 1);
    }
  }

  lemma AnotherNumber(line: nat, rst: nat, n: nat)
    requires rst < 8 && rst != line % 8 && n == NextLine(line, rst)
    ensures line < n < line + 8
  {
  }

  /** One wrong residue: from there on the numbers are eight too high. */
  lemma {:induction false} StaleNumbers(segs: seq<seq<byte>>, line: nat, k: nat, rst: nat, j: nat)
    requires k < |segs| && j < |segs| && (forall i :: 0 <= i < |segs| ==> segs[i] != [])
    requires rst == LastByte(segs[k]) as nat % 8 && rst != (line + k) % 8
    requires forall i :: 0 <= i < |segs| && i != k ==> LastByte(segs[i]) as nat % 8 == (line + i) % 8
    ensures Numbering(segs, line)[j] == if j < k then line + j else if j == k then NextLine(line + k, rst) else line + j + 8
    decreases k
  {
    hide LastByte, NextLine;
    var rest := segs[1..];
    assert forall i :: 0 <= i < |rest| ==> rest[i] == segs[i + 1];
    if k > 0 {
      assert LastByte(segs[0]) as nat % 8 == (line + 0) % 8;
      NextLineIsLeast(line, line % 8, line);
      if j > 0 {
        StaleNumbers(rest, line + 1, k - 1, rst, j - 1);
      }
    } else if j > 0 {
      var n := NextLine(line, rst);
      AnotherNumber(line, rst, n);
      ShiftedNumbers(rest, line + 1, n + 1, 8, j - 1);
    }
  }

  lemma ServedAlone(stored: seq<seq<byte>>, j: nat)
    requires Whole(stored) && j < |stored| && (j > 0 ==> !FateOf(stored[j - 1]).RunsOn?)
    ensures Served(stored, [], j) == stored[j]
  {
    ServedStep(stored, [], j);
  }

  lemma StaleMarkerNumbers(lines: seq<seq<byte>>, stored: seq<seq<byte>>, k: nat, x: byte, rst: nat)
    requires OneSpoilt(lines, InOrder(|lines|), stored, k, x) && Fires(x) && x != 0xD9 && rst == x as nat % 8 && rst != k % 8
    ensures AllApart(stored) && (forall j :: 0 <= j < |stored| ==> FateOf(stored[j]).Ends?)
    ensures Gather(stored, []).segs == stored && Gather(stored, []).tail == []
    ensures |Numbers(stored)| == |lines|
    ensures forall j :: 0 <= j < |lines| ==>
              Numbers(stored)[j] == if j < k then j else if j == k then NextLine(k, rst) else j + 8
  {
    hide Quiet, NextLine, Gather, Numbering;
    var nums := InOrder(|lines|);
    forall j | 0 <= j < |stored|
      ensures FateOf(stored[j]).Ends? && (j != k ==> LastByte(stored[j]) as nat % 8 == (0 + j) % 8)
    {
      SpoiltFate(lines, nums, stored, k, x, j);
    }
    SpoiltApart(lines, nums, stored, k, x);
    AllSegments(stored);
    forall j | 0 <= j < |lines|
      ensures Numbers(stored)[j] == if j < k then j else if j == k then NextLine(k, rst) else j + 8
    {
      StaleNumbers(stored, 0, k, rst, j);
    }
  }

  /** The number line `j` gets when line `k` ends in the marker of residue `rst`. */
  function ShiftedNumber(k: nat, rst: nat, j: nat): nat {
    if j < k then j else if j == k then NextLine(k, rst) else j + 8
  }

  /** The number after all those of `count` lines. */
  function ShiftedEnd(count: nat, k: nat, rst: nat): nat {
    if k + 1 == count then NextLine(k, rst) + 1 else count + 8
  }

  lemma {:induction false} OffsetAtLeast(stored: seq<seq<byte>>, i: nat)
    requires Whole(stored) && i <= |stored|
    ensures Offset(stored, i) >= 2 * i
    decreases i
  {
    if i > 0 {
      OffsetAtLeast(stored[1..], i - 1);
    }
  }

  lemma ShiftedBehind(k: nat, rst: nat, i: nat, at: nat, end: nat)
    requires rst < 8 && rst != k % 8 && i <= 62 && at >= IMAGE_DATA_START + 2 * i && end >= at + 1
    ensures Behind(LineData(ShiftedNumber(k, rst, i), at, end, 0))
  {
    AnotherNumber(k, rst, NextLine(k, rst));
  }

  lemma ShiftedEndInMemory(count: nat, k: nat, rst: nat)
    requires rst < 8 && rst != k % 8 && k < count <= 63
    ensures InMemory(ShiftedEnd(count, k, rst))
  {
    AnotherNumber(k, rst, NextLine(k, rst));
  }

  lemma TrailingFrom(segs: seq<seq<byte>>, nums: seq<nat>)
    requires AllQuiet(segs, nums) && forall j :: 0 <= j < |segs| ==> |segs[j]| >= 2
    requires InMemory(EndNumber(nums, 0)) && forall i :: 0 <= i < |segs| ==> Behind(RecordFor(segs, nums, [], i))
    ensures Trailing(Records(segs, nums, IMAGE_DATA_START, 0, 0))
  {
    hide Quiet, Records, RecordFor, EndNumber, InMemory;
    var es := Records(segs, nums, IMAGE_DATA_START, 0, 0);
    forall i | 0 <= i < |es|
      ensures InMemory(es[i].lineNum) && (i < |es| - 1 ==> Behind(es[i]))
    {
      RecordIs(segs, nums, [], i);
      if i < |es| - 1 {
        BehindInMemory(es[i]);
      } else {
        EndIs(segs, nums);
      }
    }
  }

  lemma EndIs(segs: seq<seq<byte>>, nums: seq<nat>)
    requires |segs| == |nums| && forall j :: 0 <= j < |segs| ==> |segs[j]| >= 2
    ensures RecordFor(segs, nums, [], |segs|).lineNum == EndNumber(nums, 0)
  {
  }

  /** Up to 63 lines the records, shifted or not, stay behind the scanner. */
  lemma StaleMarkerFollowed(lines: seq<seq<byte>>, stored: seq<seq<byte>>, k: nat, x: byte, rst: nat)
    requires OneSpoilt(lines, InOrder(|lines|), stored, k, x) && Fires(x) && x != 0xD9 && rst == x as nat % 8 && rst != k % 8
    requires |lines| <= 63
    ensures Followed(stored) && EndNumber(Numbers(stored), 0) == ShiftedEnd(|lines|, k, rst)
  {
    hide Quiet, AllQuiet, NextLine, Gather, Numbering, AllBodies, AllApart, Behind, Records, InMemory, Fires;
    var nums := Numbers(stored);
    StaleMarkerNumbers(lines, stored, k, x, rst);
    GatheredQuiet(stored);
    ShiftedEndInMemory(|lines|, k, rst);
    forall i | 0 <= i < |stored|
      ensures Behind(RecordFor(stored, nums, [], i))
    {
      OffsetAtLeast(stored, i);
      var at := IMAGE_DATA_START + Offset(stored, i);
      ShiftedBehind(k, rst, i, at, at + |stored[i]| - 1);
    }
    TrailingFrom(stored, nums);
  }

  /** Every line ends, and all after line `k` are numbered eight too high. */
  ghost predicate Shifted(lines: seq<seq<byte>>, stored: seq<seq<byte>>, k: nat, rst: nat) {
    && |stored| == |lines| && Whole(stored)
    && (forall j :: 0 <= j < |stored| ==> |stored[j]| == |lines[j]| && FateOf(stored[j]).Ends?)
    && Gather(stored, []) == Gathered(stored, [])
    && |Numbers(stored)| == |lines| && EndNumber(Numbers(stored), 0) == ShiftedEnd(|lines|, k, rst)
    && forall j :: 0 <= j < |lines| ==> Numbers(stored)[j] == ShiftedNumber(k, rst, j)
  }

  /** The image, the numbers and the index of such a capture. */
  lemma StaleMarkerCapture(m0: Memory, size: nat, lines: seq<seq<byte>>, k: nat, x: byte, rst: nat, stored: seq<seq<byte>>)
    requires size >= 2 && Fits(lines) && AllQuiet(lines, InOrder(|lines|)) && k < |lines| <= 63 && OnlyLoss(lines, size, k)
    requires lines[k] != [] && x == StaleByte(m0, lines, k) && Fires(x) && x != 0xD9 && rst == x as nat % 8 && rst != k % 8
    requires stored == AllStored(m0, IMAGE_DATA_START, lines, size)
    ensures Lossy(m0, size, lines, InOrder(|lines|), stored) && OneSpoilt(lines, InOrder(|lines|), stored, k, x)
    ensures Shifted(lines, stored, k, rst)
  {
    hide Quiet, AllQuiet, AllStored, Fits, Gather, FateOf, StaleByte, OnlyLoss, AllApart, NextLine, Fires, Numbering, Followed,
         ShiftedEnd, EndNumber, AllBodies;
    OneStored(m0, size, lines, InOrder(|lines|), stored, k);
    StaleMarkerNumbers(lines, stored, k, x, rst);
    StaleMarkerFollowed(lines, stored, k, x, rst);
  }

  /**
   A stale byte that makes the marker of another residue, in an uninterrupted capture of up to 63 lines: line `k` gets a
   number that is not its own, and every line after it is served under its number plus eight, whole if it lies above the
   last record. Under the number of line `k` there is no record.
   */
  lemma StaleMarkerShifts(m0: Memory, size: nat, lines: seq<seq<byte>>, k: nat, x: byte, rst: nat, j: nat, m: Memory)
    requires size >= 2 && Fits(lines) && AllQuiet(lines, InOrder(|lines|)) && k < |lines| <= 63 && OnlyLoss(lines, size, k)
    requires lines[k] != [] && x == StaleByte(m0, lines, k) && Fires(x) && x != 0xD9 && rst == x as nat % 8 && rst != k % 8
    requires m == Captured(m0, lines, size) && j < |lines|
    ensures Scan(m, IMAGE_DATA_START, IMAGE_DATA_START, 0).Some? && LoopLeaves(m, Indexed(m))
    ensures k < NextLine(k, rst) < k + 8
    ensures var n, at, end := ShiftedNumber(k, rst, j), IMAGE_DATA_START + Offset(lines, j), ShiftedEnd(|lines|, k, rst);
            var bytes := if j == k then Spoilt(lines, k, x) else lines[j];
            Serves(Indexed(m), n, at, bytes, end) && (Spared(end, at) ==> LineRead(Indexed(m), n).0 == bytes)
    ensures Read(Indexed(m), RecordAddr(k), RECORD_SIZE) == Read(m, RecordAddr(k), RECORD_SIZE)
  {
    hide AllQuiet, AllStored, Scan, IndexRun, Indexed, LineRead, Captured, Fits, Served, Rank, Gather, FateOf, LoopLeaves,
         StaleByte, OnlyLoss, NextLine, Fires, Read, Numbers, Serves, ShiftedEnd, Spared, EndNumber, Offset, InMemory, Lossy,
         ShiftedNumber;
    var stored := AllStored(m0, IMAGE_DATA_START, lines, size);
    StaleMarkerCapture(m0, size, lines, k, x, rst, stored);
    AnotherNumber(k, rst, NextLine(k, rst));
    AllRanks(stored, j);
    ServedAlone(stored, j);
    AllReached(stored, j);
    StoredLineServed(m0, size, lines, InOrder(|lines|), stored, j, m);
    SameOffsets(lines, stored, j);
    AloneStart(stored, j);
    var end, at := ShiftedEnd(|lines|, k, rst), IMAGE_DATA_START + Offset(lines, j);
    if Spared(end, at) {
      ServedWhole(Indexed(m), ShiftedNumber(k, rst, j), at, stored[j], end);
    }
    NoNumberK(lines, k, rst, Numbers(stored));
    OtherNumbers(m0, size, lines, InOrder(|lines|), stored, k, m);
  }

  lemma AllReached(stored: seq<seq<byte>>, j: nat)
    requires Whole(stored) && j < |stored| && forall i :: 0 <= i < |stored| ==> FateOf(stored[i]).Ends?
    ensures Reached(stored, j)
  {
    hide FateOf;
  }

  lemma {:induction false} SameOffsets(a: seq<seq<byte>>, b: seq<seq<byte>>, i: nat)
    requires |a| == |b| && i <= |a| && forall j :: 0 <= j < |a| ==> |a[j]| == |b[j]|
    ensures Offset(a, i) == Offset(b, i)
    decreases i
  {
    if i > 0 {
      SameOffsets(a[1..], b[1..], i - 1);
    }
  }

  lemma AloneStart(stored: seq<seq<byte>>, j: nat)
    requires Whole(stored) && j < |stored| && forall i :: 0 <= i < |stored| ==> FateOf(stored[i]).Ends?
    ensures StartOf(stored, j) == IMAGE_DATA_START + Offset(stored, j)
  {
    hide FateOf;
  }

  lemma NoNumberK(lines: seq<seq<byte>>, k: nat, rst: nat, nums: seq<nat>)
    requires rst < 8 && rst != k % 8 && k < |lines| <= 63 && |nums| == |lines|
    requires forall j :: 0 <= j < |lines| ==> nums[j] == ShiftedNumber(k, rst, j)
    ensures k !in nums && k != ShiftedEnd(|lines|, k, rst) && InMemory(k)
  {
    AnotherNumber(k, rst, NextLine(k, rst));
  }

  /**
   Where the numbers reach 64 the index overwrites the start of the image: sixteen cells from 0x500 + 16 * (n - 64) on hold
   the record of line `j`, for its number `n`, and so for the last record, that of EOI.
   */
  lemma StaleMarkerOverwrites(m0: Memory, size: nat, lines: seq<seq<byte>>, k: nat, x: byte, rst: nat, j: nat, m: Memory)
    requires size >= 2 && Fits(lines) && AllQuiet(lines, InOrder(|lines|)) && k < |lines| <= 63 && OnlyLoss(lines, size, k)
    requires lines[k] != [] && x == StaleByte(m0, lines, k) && Fires(x) && x != 0xD9 && rst == x as nat % 8 && rst != k % 8
    requires m == Captured(m0, lines, size) && j <= |lines|
    ensures Scan(m, IMAGE_DATA_START, IMAGE_DATA_START, 0).Some?
    ensures IndexRun(m, IMAGE_DATA_START, IMAGE_DATA_START, 0, MRAM_SIZE) == Some((Indexed(m), ShiftedEnd(|lines|, k, rst)))
    ensures var n := if j < |lines| then ShiftedNumber(k, rst, j) else ShiftedEnd(|lines|, k, rst);
            var start := IMAGE_DATA_START + Offset(lines, j);
            Read(Indexed(m), RecordAddr(n), RECORD_SIZE) ==
            Record(LineData(n, start, start + (if j < |lines| then |lines[j]| else 2) - 1, 0))
  {
    hide AllQuiet, AllStored, Scan, IndexRun, Indexed, Captured, Fits, Gather, FateOf, StaleByte, OnlyLoss, NextLine, Fires,
         Read, Numbers, ShiftedEnd, EndNumber, InMemory, Record, Indexable, Lossy, ShiftedNumber, Offset;
    var stored := AllStored(m0, IMAGE_DATA_START, lines, size);
    StaleMarkerCapture(m0, size, lines, k, x, rst, stored);
    GatheredImage(m0, size, lines, InOrder(|lines|), stored, Gather(stored, []));
    LoopEnds(m, stored, Numbers(stored), []);
    RecordInPlace(m, stored, Numbers(stored), [], j);
    SameOffsets(lines, stored, j);
    assert [] + EOI == EOI;
  }

  /** A complete image with one such marker before its last lines: the first byte of the image becomes 64. */
  lemma SixtyLines(m0: Memory, size: nat, lines: seq<seq<byte>>, k: nat, x: byte, m: Memory)
    requires size >= 2 && Fits(lines) && |lines| == 60 && AllQuiet(lines, InOrder(60)) && k < 56 && OnlyLoss(lines, size, k)
    requires lines[k] != [] && x == StaleByte(m0, lines, k) && Fires(x) && x != 0xD9 && x as nat % 8 != k % 8
    requires m == Captured(m0, lines, size)
    ensures Scan(m, IMAGE_DATA_START, IMAGE_DATA_START, 0).Some?
    ensures IndexRun(m, IMAGE_DATA_START, IMAGE_DATA_START, 0, MRAM_SIZE) == Some((Indexed(m), 68))
    ensures Indexed(m)[IMAGE_DATA_START] == 64
  {
    hide Quiet, AllQuiet, Scan, IndexRun, Indexed, Captured, Fits, StaleByte, OnlyLoss, Fires, NextLine, Offset;
    var rst := x as nat % 8;
    StaleMarkerOverwrites(m0, size, lines, k, x, rst, 56, m);
    var d := LineData(64, IMAGE_DATA_START + Offset(lines, 56), IMAGE_DATA_START + Offset(lines, 56) + |lines[56]| - 1, 0);
    FirstOfRecord(Indexed(m), d);
  }

  lemma FirstOfRecord(m: Memory, d: LineData)
    requires d.lineNum == 64 && Read(m, RecordAddr(64), RECORD_SIZE) == Record(d)
    ensures m[IMAGE_DATA_START] == 64
  {
    assert Read(m, RecordAddr(64), RECORD_SIZE)[0] == m[Cell(RecordAddr(64) + 0)];
  }

  // ---------- a byte that makes an EOI marker ----------

  lemma {:induction false} EndingBefore(stored: seq<seq<byte>>, nums: seq<nat>, k: nat)
    requires Whole(stored) && |stored| == |nums| && k < |stored| && FateOf(stored[k]).Stops?
    requires forall j :: 0 <= j < k ==> FateOf(stored[j]).Ends?
    ensures EndingNums(stored, nums) == nums[..k]
    decreases k
  {
    hide FateOf;
    if k > 0 {
      EndingBefore(stored[1..], nums[1..], k - 1);
      assert [nums[0]] + nums[1..][..k - 1] == nums[..k];
    }
  }

  lemma StaleEoiNumbers(lines: seq<seq<byte>>, stored: seq<seq<byte>>, k: nat)
    requires OneSpoilt(lines, InOrder(|lines|), stored, k, 0xD9)
    ensures AllApart(stored) && FateOf(stored[k]).Stops? && (forall j :: 0 <= j < k ==> FateOf(stored[j]).Ends?)
    ensures Numbers(stored) == InOrder(k) == EndingNums(stored, InOrder(|lines|)) && EndNumber(Numbers(stored), 0) == k
  {
    hide Quiet, NextLine, Gather, Numbering, EndingNums, Agree, Numbered;
    var nums := InOrder(|lines|);
    forall j | 0 <= j < |stored|
      ensures if j == k then FateOf(stored[j]).Stops?
              else FateOf(stored[j]).Ends? && LastByte(stored[j]) as nat % 8 == nums[j] % 8
    {
      SpoiltFate(lines, nums, stored, k, 0xD9, j);
    }
    SpoiltApart(lines, nums, stored, k, 0xD9);
    AllAgree(stored, nums);
    EndingBefore(stored, nums, k);
    assert nums[..k] == InOrder(k) == InOrder(k)[0..];
    InOrderIsNumbered(k, 0);
    NumbersTrueIff(stored, nums, [], 0);
  }

  /**
   A stale byte that makes an EOI marker, in an uninterrupted capture: the index ends with line `k`, which is still served
   whole but for that byte, and the lines after it have no record.
   */
  lemma StaleEoiEndsIndex(m0: Memory, size: nat, lines: seq<seq<byte>>, k: nat, j: nat, m: Memory)
    requires size >= 2 && Fits(lines) && AllQuiet(lines, InOrder(|lines|)) && k < |lines| <= 63 && OnlyLoss(lines, size, k)
    requires lines[k] != [] && StaleByte(m0, lines, k) == 0xD9 && m == Captured(m0, lines, size) && j < |lines|
    ensures Scan(m, IMAGE_DATA_START, IMAGE_DATA_START, 0).Some? && LoopLeaves(m, Indexed(m))
    ensures if j > k then Read(Indexed(m), RecordAddr(j), RECORD_SIZE) == Read(m, RecordAddr(j), RECORD_SIZE)
            else LineRead(Indexed(m), j).0 == if j == k then Spoilt(lines, k, 0xD9) else lines[j]
  {
    hide Quiet, AllStored, Scan, IndexRun, Indexed, LineRead, Captured, Fits, Served, Rank, Gather, FateOf, LoopLeaves,
         StaleByte, OnlyLoss, AllApart, Read, Numbering, EndingNums, EndNumber, Followed, Serves, StartOf;
    var stored, nums := AllStored(m0, IMAGE_DATA_START, lines, size), InOrder(|lines|);
    OneStored(m0, size, lines, nums, stored, k);
    StaleEoiNumbers(lines, stored, k);
    SmallIsFollowed(stored);
    SmallEnd(Numbers(stored), 0);
    assert Lossy(m0, size, lines, nums, stored);
    if j > k {
      StoredLineServed(m0, size, lines, nums, stored, k, m);
      OtherNumbers(m0, size, lines, nums, stored, j, m);
    } else {
      ServedAlone(stored, j);
      StoredLineServed(m0, size, lines, nums, stored, j, m);
      if j < k {
        EndingNumAt(stored, nums, j);
      }
      ServedWhole(Indexed(m), j, StartOf(stored, j), Served(stored, [], j), EndNumber(Numbers(stored), 0));
    }
  }
}
