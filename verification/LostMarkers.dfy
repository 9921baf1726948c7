/**
 Captures in which any number of lines lose the second byte of their marker to whatever was in memory before: where the
 reader then finds each line, which lines it still serves truly, and what it serves instead of the others.
 */
module LostMarkers {
  import opened Bits
  import opened Wrappers
  import opened BlockCoding
  import opened LineCoding
  import opened Strip
  import opened Mram
  import opened OutputStore
  import opened LineIndex
  import opened IndexCorrectness
  import opened EndToEnd

  // ---------- the image as memory holds it ----------

  /** A line at `pos`: where its last byte is never stored the memory keeps its old one. */
  function AsStored(m0: Memory, pos: nat, line: seq<byte>, size: nat): (s: seq<byte>)
    requires size > 0
    ensures |s| == |line|
  {
    if LosesMarker(line, size) then line[..|line| - 1] + [m0[Cell(pos + |line| - 1)]] else line
  }

  function AllStored(m0: Memory, pos: nat, lines: seq<seq<byte>>, size: nat): (s: seq<seq<byte>>)
    requires size > 0
    ensures |s| == |lines| && |Flatten(s)| == |Flatten(lines)|
    decreases |lines|
  {
    if lines == [] then []
    else
      var rest := AllStored(m0, pos + |lines[0]|, lines[1..], size);
      var all := [AsStored(m0, pos, lines[0], size)] + rest;
      assert all[1..] == rest;
      all
  }

  lemma StoredCons(m0: Memory, pos: nat, lines: seq<seq<byte>>, size: nat)
    requires size > 0 && lines != []
    ensures AllStored(m0, pos, lines, size) ==
            [AsStored(m0, pos, lines[0], size)] + AllStored(m0, pos + |lines[0]|, lines[1..], size)
  {
  }

  lemma {:induction false} StoredAt(m0: Memory, pos: nat, lines: seq<seq<byte>>, size: nat, k: nat)
    requires size > 0 && k < |lines|
    ensures AllStored(m0, pos, lines, size)[k] == AsStored(m0, pos + Offset(lines, k), lines[k], size)
    decreases k
  {
    hide AsStored, AllStored;
    StoredCons(m0, pos, lines, size);
    if k > 0 {
      StoredAt(m0, pos + |lines[0]|, lines[1..], size, k - 1);
    }
  }

  lemma FirstLineByte(m0: Memory, pos: nat, line: seq<byte>, from: nat, size: nat, i: nat)
    requires size > 0 && i < |line|
    ensures AsStored(m0, pos, line, size)[i] == if from + i in LineLoss(line, from, size) then m0[Cell(pos + i)] else line[i]
  {
  }

  lemma {:induction false} StoredByte(m0: Memory, pos: nat, lines: seq<seq<byte>>, from: nat, size: nat, i: nat)
    requires size > 0 && i < |Flatten(lines)|
    ensures Flatten(AllStored(m0, pos, lines, size))[i] ==
            if from + i in Lost(lines, from, size) then m0[Cell(pos + i)] else Flatten(lines)[i]
    decreases |lines|
  {
    var line, rest := lines[0], AllStored(m0, pos + |lines[0]|, lines[1..], size);
    var all := AllStored(m0, pos, lines, size);
    assert all[1..] == rest;
    assert Flatten(all) == AsStored(m0, pos, line, size) + Flatten(rest);
    hide AllStored, LosesMarker, Cell;
    if i < |line| {
      if from + i in Lost(lines[1..], from + |line|, size) {
        LostBound(lines[1..], from + |line|, size, from + i);
      }
      FirstLineByte(m0, pos, line, from, size, i);
    } else {
      StoredByte(m0, pos + |line|, lines[1..], from + |line|, size, i - |line|);
      assert from + |line| + (i - |line|) == from + i && pos + |line| + (i - |line|) == pos + i;
    }
  }

  /** The whole image, as it is in memory after the capture, whatever was lost. */
  lemma StreamAsStored(m0: Memory, lines: seq<seq<byte>>, size: nat, stored: seq<seq<byte>>)
    requires size >= 2 && Fits(lines) && (forall k :: 0 <= k < |lines| ==> lines[k] != [])
    requires stored == AllStored(m0, IMAGE_DATA_START, lines, size)
    ensures HasBytes(Captured(m0, lines, size), IMAGE_DATA_START, Flatten(stored) + EOI)
  {
    hide PutImage, Lost, AllStored, Flatten, Cell;
    var m, stream := Captured(m0, lines, size), Flatten(stored) + EOI;
    forall i | 0 <= i < |stream|
      ensures m[Cell(IMAGE_DATA_START + i)] == stream[i]
    {
      StreamByte(m0, IMAGE_DATA_START, lines, size, i);
      if i < |Flatten(lines)| {
        assert ImageStream(lines)[i] == Flatten(lines)[i] && stream[i] == Flatten(stored)[i];
        StoredByte(m0, IMAGE_DATA_START, lines, 0, size, i);
      } else if i in Lost(lines, 0, size) {
        LostBound(lines, 0, size, i);
      }
    }
    assert Read(m, IMAGE_DATA_START, |stream|) == stream;
  }

  // ---------- what the scanner makes of a line ----------

  function LastByte(s: seq<byte>): byte
    requires s != []
  {
    s[|s| - 1]
  }

  /** A line ends where a marker, true or stale, stands at its end; it runs on into the next one, or it stops the scan. */
  datatype Fate = Ends | RunsOn | Stops

  function FateOf(s: seq<byte>): Fate
    requires s != []
  {
    if LastByte(s) == 0xD9 then Stops else if Fires(LastByte(s)) then Ends else RunsOn
  }

  /** The scanner reacts to nothing before the last two bytes, of which the first is 0xFF. */
  ghost predicate Body(s: seq<byte>) {
    |s| >= 2 && s[|s| - 2] == 0xFF && forall i :: 0 <= i < |s| - 2 ==> !(s[i] == 0xFF && Fires(s[i + 1]))
  }

  /** `a` and what comes after it make no marker between them. */
  predicate Apart(a: seq<byte>, b: seq<byte>) {
    a != [] && b != [] && LastByte(a) == 0xFF ==> !Fires(b[0])
  }

  predicate Whole(stored: seq<seq<byte>>) {
    forall k :: 0 <= k < |stored| ==> |stored[k]| >= 2
  }

  /** No stale byte 0xFF makes a marker with the first byte of the next line. */
  predicate AllApart(stored: seq<seq<byte>>) {
    forall k :: 0 <= k < |stored| - 1 ==> Apart(stored[k], stored[k + 1])
  }

  ghost predicate AllBodies(stored: seq<seq<byte>>) {
    forall k :: 0 <= k < |stored| ==> Body(stored[k])
  }

  /** Segments, each with the marker that ends it, and what is left before the EOI marker. */
  datatype Gathered = Gathered(segs: seq<seq<byte>>, tail: seq<byte>)

  /** `carry` is what has run on so far. */
  function Gather(stored: seq<seq<byte>>, carry: seq<byte>): (g: Gathered)
    requires Whole(stored)
    ensures forall j :: 0 <= j < |g.segs| ==> g.segs[j] != []
    decreases |stored|
  {
    if stored == [] then
      Gathered([], carry)
    else
      match FateOf(stored[0])
      case Ends => var g := Gather(stored[1..], []); Gathered([carry + stored[0]] + g.segs, g.tail)
      case RunsOn => Gather(stored[1..], carry + stored[0])
      case Stops => Gathered([], carry + stored[0][..|stored[0]| - 2])
  }

  /** The numbers the scanner gives to the segments, `line` being the next one it expects. */
  function Numbering(segs: seq<seq<byte>>, line: nat): (nums: seq<nat>)
    requires forall j :: 0 <= j < |segs| ==> segs[j] != []
    ensures |nums| == |segs|
    decreases |segs|
  {
    if segs == [] then []
    else
      var n := NextLine(line, LastByte(segs[0]) as nat % 8);
      [n] + Numbering(segs[1..], n + 1)
  }

  lemma {:induction false} NumberingIsNumbered(segs: seq<seq<byte>>, line: nat)
    requires forall j :: 0 <= j < |segs| ==> segs[j] != []
    ensures Numbered(Numbering(segs, line), line)
    decreases |segs|
  {
    if segs != [] {
      var rst := LastByte(segs[0]) as nat % 8;
      NextLineIsLeast(line, rst, NextLine(line, rst));
      NumberingIsNumbered(segs[1..], NextLine(line, rst) + 1);
    }
  }

  lemma PrefixAfter(a: seq<byte>, p: seq<byte>, q: seq<byte>)
    requires p <= q
    ensures a + p <= a + q
  {
    assert q == p + q[|p|..];
    assert a + q == a + p + q[|p|..];
  }

  lemma EoiAtStop(s: seq<byte>)
    requires Body(s) && FateOf(s).Stops?
    ensures s[..|s| - 2] + EOI == s
  {
  }

  /** What the scanner sees is a part of the image from its start on. */
  lemma {:induction false} GatherStream(stored: seq<seq<byte>>, carry: seq<byte>)
    requires Whole(stored) && AllBodies(stored)
    ensures var g := Gather(stored, carry); StreamWith(g.segs, g.tail) <= carry + (Flatten(stored) + EOI)
    decreases |stored|
  {
    hide Body;
    if stored == [] {
      assert Flatten(stored) + EOI == EOI;
    } else {
      var s, more := stored[0], Flatten(stored[1..]) + EOI;
      assert Flatten(stored) + EOI == s + more;
      assert carry + s + more == carry + (s + more);
      match FateOf(s)
      case Ends =>
        var g, rest := Gather(stored, carry), Gather(stored[1..], []);
        assert g.segs[1..] == rest.segs;
        GatherStream(stored[1..], []);
        assert [] + more == more;
        PrefixAfter(carry + s, StreamWith(rest.segs, rest.tail), more);
      case RunsOn =>
        GatherStream(stored[1..], carry + s);
      case Stops =>
        EoiAtStop(s);
        assert carry + s[..|s| - 2] + EOI == carry + (s[..|s| - 2] + EOI);
    }
  }

  lemma StillThenStill(a: seq<byte>, b: seq<byte>)
    requires Still(a) && Still(b) && Apart(a, b)
    ensures Still(a + b)
  {
    hide Fires;
    var c := a + b;
    forall i: nat | i < |c| - 1
      ensures !(c[i] == 0xFF && Fires(c[i + 1]))
    {
      if i >= |a| {
        assert c[i] == b[i - |a|] && c[i + 1] == b[i + 1 - |a|];
      }
    }
  }

  lemma StillThenQuiet(a: seq<byte>, b: seq<byte>, rst: nat)
    requires Still(a) && Quiet(b, rst) && Apart(a, b)
    ensures Quiet(a + b, rst)
  {
    hide Fires, Marks;
    var c := a + b;
    assert c[|c| - 2] == b[|b| - 2] && c[|c| - 1] == b[|b| - 1];
    forall i | 0 <= i < |c| - 2
      ensures !(c[i] == 0xFF && Fires(c[i + 1]))
    {
      if i >= |a| {
        assert c[i] == b[i - |a|] && c[i + 1] == b[i + 1 - |a|];
      }
    }
  }

  lemma EndsIsQuiet(s: seq<byte>)
    requires Body(s) && FateOf(s).Ends?
    ensures Quiet(s, LastByte(s) as nat % 8)
  {
  }

  lemma RunsOnIsStill(s: seq<byte>)
    requires Body(s) && FateOf(s).RunsOn?
    ensures Still(s)
  {
  }

  lemma FrontIsStill(s: seq<byte>)
    requires Body(s)
    ensures Still(s[..|s| - 2])
  {
  }

  lemma ApartFront(a: seq<byte>, s: seq<byte>)
    requires Apart(a, s) && |s| >= 2
    ensures Apart(a, s[..|s| - 2])
  {
  }

  lemma NothingIsStill()
    ensures Still([])
  {
  }

  lemma ConsQuiet(seg: seq<byte>, n: nat, segs: seq<seq<byte>>, nums: seq<nat>)
    requires Quiet(seg, n % 8) && AllQuiet(segs, nums)
    ensures AllQuiet([seg] + segs, [n] + nums)
  {
  }

  lemma NoSegments()
    ensures AllQuiet([], [])
  {
  }

  lemma StoredTail(stored: seq<seq<byte>>)
    requires Whole(stored) && AllBodies(stored) && AllApart(stored) && stored != []
    ensures Body(stored[0]) && Whole(stored[1..]) && AllBodies(stored[1..]) && AllApart(stored[1..])
    ensures |stored| > 1 ==> Apart(stored[0], stored[1])
  {
    hide Body, Apart;
    var rest := stored[1..];
    forall k | 0 <= k < |rest| - 1
      ensures Apart(rest[k], rest[k + 1])
    {
      assert rest[k] == stored[k + 1] && rest[k + 1] == stored[k + 2];
    }
  }

  lemma {:induction false} GatherQuiet(stored: seq<seq<byte>>, carry: seq<byte>, line: nat)
    requires Whole(stored) && AllBodies(stored) && AllApart(stored)
    requires Still(carry) && (stored != [] ==> Apart(carry, stored[0]))
    ensures var g := Gather(stored, carry); AllQuiet(g.segs, Numbering(g.segs, line)) && Still(g.tail)
    decreases |stored|
  {
    hide Quiet, Still, AllQuiet, Body, AllBodies, AllApart, NextLine;
    if stored == [] {
      NoSegments();
    } else {
      var s := stored[0];
      StoredTail(stored);
      match FateOf(s)
      case Ends =>
        var rst, rest := LastByte(s) as nat % 8, Gather(stored[1..], []);
        var n, segs := NextLine(line, rst), [carry + s] + rest.segs;
        assert LastByte(carry + s) == LastByte(s) && segs[1..] == rest.segs;
        NextLineIsLeast(line, rst, n);
        NothingIsStill();
        GatherQuiet(stored[1..], [], n + 1);
        EndsIsQuiet(s);
        StillThenQuiet(carry, s, rst);
        ConsQuiet(carry + s, n, rest.segs, Numbering(rest.segs, n + 1));
      case RunsOn =>
        RunsOnIsStill(s);
        StillThenStill(carry, s);
        assert LastByte(carry + s) == LastByte(s);
        GatherQuiet(stored[1..], carry + s, line);
      case Stops =>
        FrontIsStill(s);
        ApartFront(carry, s);
        StillThenStill(carry, s[..|s| - 2]);
        NoSegments();
    }
  }

  // ---------- where a line ends up ----------

  /** The scan comes as far as line `k`. */
  predicate Reached(stored: seq<seq<byte>>, k: nat)
    requires Whole(stored) && k < |stored|
  {
    forall j :: 0 <= j < k ==> !FateOf(stored[j]).Stops?
  }

  /** Line `k` with all lines before it that run on into it. */
  function Served(stored: seq<seq<byte>>, carry: seq<byte>, k: nat): seq<byte>
    requires Whole(stored) && k < |stored|
    decreases k
  {
    if k == 0 then carry + stored[0]
    else Served(stored[1..], if FateOf(stored[0]).RunsOn? then carry + stored[0] else [], k - 1)
  }

  /** The number of segments before line `k`. */
  function Rank(stored: seq<seq<byte>>, k: nat): nat
    requires Whole(stored) && k <= |stored|
    decreases k
  {
    if k == 0 then 0 else (if FateOf(stored[0]).Ends? then 1 else 0) + Rank(stored[1..], k - 1)
  }

  lemma ReachedTail(stored: seq<seq<byte>>, k: nat)
    requires Whole(stored) && 0 < k < |stored| && Reached(stored, k)
    ensures !FateOf(stored[0]).Stops? && Whole(stored[1..]) && Reached(stored[1..], k - 1)
  {
  }

  lemma {:induction false} GatherAt(stored: seq<seq<byte>>, carry: seq<byte>, k: nat)
    requires Whole(stored) && k < |stored| && Reached(stored, k) && FateOf(stored[k]).Ends?
    ensures var g, j := Gather(stored, carry), Rank(stored, k); j < |g.segs| && g.segs[j] == Served(stored, carry, k)
    decreases k
  {
    if k > 0 {
      ReachedTail(stored, k);
      GatherAt(stored[1..], if FateOf(stored[0]).RunsOn? then carry + stored[0] else [], k - 1);
    }
  }

  /** What is left for the last record: up to the line that stops the scan, or up to the last line. */
  lemma {:induction false} TailAt(stored: seq<seq<byte>>, carry: seq<byte>, k: nat)
    requires Whole(stored) && AllBodies(stored) && k < |stored| && Reached(stored, k)
    ensures FateOf(stored[k]).Stops? ==> Gather(stored, carry).tail + EOI == Served(stored, carry, k)
    ensures k == |stored| - 1 && FateOf(stored[k]).RunsOn? ==> Gather(stored, carry).tail == Served(stored, carry, k)
    decreases k
  {
    hide Body;
    if k > 0 {
      ReachedTail(stored, k);
      TailAt(stored[1..], if FateOf(stored[0]).RunsOn? then carry + stored[0] else [], k - 1);
    } else if FateOf(stored[0]).Stops? {
      var s := stored[0];
      EoiAtStop(s);
      assert carry + s[..|s| - 2] + EOI == carry + (s[..|s| - 2] + EOI);
    }
  }

  /** A line is served behind the line before it if that one runs on, and alone if it does not. */
  lemma {:induction false} ServedStep(stored: seq<seq<byte>>, carry: seq<byte>, k: nat)
    requires Whole(stored) && k < |stored| && (k == 0 ==> carry == [])
    ensures Served(stored, carry, k) ==
            if k > 0 && FateOf(stored[k - 1]).RunsOn? then Served(stored, carry, k - 1) + stored[k] else stored[k]
    decreases k
  {
    hide FateOf;
    if k == 0 {
      assert carry + stored[0] == stored[0];
    } else {
      var rest, run := stored[1..], if FateOf(stored[0]).RunsOn? then carry + stored[0] else [];
      assert Served(stored, carry, k) == Served(rest, run, k - 1);
      if k == 1 {
        assert [] + stored[1] == stored[1];
      } else {
        assert Served(stored, carry, k - 1) == Served(rest, run, k - 2);
        ServedStep(rest, run, k - 1);
      }
    }
  }

  /** The first line of the run that line `k` is in. */
  function RunStart(stored: seq<seq<byte>>, k: nat): (i: nat)
    requires Whole(stored) && k < |stored|
    ensures i <= k && (i == 0 || !FateOf(stored[i - 1]).RunsOn?) && forall j :: i <= j < k ==> FateOf(stored[j]).RunsOn?
  {
    if k == 0 || !FateOf(stored[k - 1]).RunsOn? then k else RunStart(stored, k - 1)
  }

  lemma {:induction false} RunComesFirst(stored: seq<seq<byte>>, k: nat)
    requires Whole(stored) && k < |stored|
    ensures stored[RunStart(stored, k)] <= Served(stored, [], k)
    decreases k
  {
    ServedStep(stored, [], k);
    if k > 0 && FateOf(stored[k - 1]).RunsOn? {
      RunComesFirst(stored, k - 1);
    }
  }

  lemma {:induction false} OffsetStep(stored: seq<seq<byte>>, k: nat)
    requires k < |stored|
    ensures Offset(stored, k + 1) == Offset(stored, k) + |stored[k]|
    decreases k
  {
    if k > 0 {
      OffsetStep(stored[1..], k - 1);
    }
  }

  lemma {:induction false} RunLength(stored: seq<seq<byte>>, k: nat)
    requires Whole(stored) && k < |stored|
    ensures Offset(stored, RunStart(stored, k)) + |Served(stored, [], k)| == Offset(stored, k + 1)
    decreases k
  {
    hide Served, FateOf;
    ServedStep(stored, [], k);
    OffsetStep(stored, k);
    if k > 0 && FateOf(stored[k - 1]).RunsOn? {
      RunLength(stored, k - 1);
    }
  }

  /** A segment ends where the line does that ends it. */
  lemma {:induction false} SegmentPlace(stored: seq<seq<byte>>, carry: seq<byte>, k: nat)
    requires Whole(stored) && k < |stored| && Reached(stored, k) && FateOf(stored[k]).Ends?
    ensures var g, j := Gather(stored, carry), Rank(stored, k);
            j < |g.segs| && Offset(g.segs, j) + |Served(stored, carry, k)| == |carry| + Offset(stored, k + 1)
    decreases k
  {
    hide FateOf;
    if k > 0 {
      ReachedTail(stored, k);
      SegmentPlace(stored[1..], if FateOf(stored[0]).RunsOn? then carry + stored[0] else [], k - 1);
      if FateOf(stored[0]).Ends? {
        var rest := Gather(stored[1..], []).segs;
        assert ([carry + stored[0]] + rest)[1..] == rest;
      }
    }
  }

  lemma {:induction false} TailPlace(stored: seq<seq<byte>>, carry: seq<byte>, k: nat)
    requires Whole(stored) && k < |stored| && Reached(stored, k)
    requires FateOf(stored[k]).Stops? || (k == |stored| - 1 && FateOf(stored[k]).RunsOn?)
    ensures var g := Gather(stored, carry);
            Offset(g.segs, |g.segs|) + |Served(stored, carry, k)| == |carry| + Offset(stored, k + 1)
    decreases k
  {
    hide FateOf;
    if k > 0 {
      ReachedTail(stored, k);
      TailPlace(stored[1..], if FateOf(stored[0]).RunsOn? then carry + stored[0] else [], k - 1);
      if FateOf(stored[0]).Ends? {
        var rest := Gather(stored[1..], []).segs;
        assert ([carry + stored[0]] + rest)[1..] == rest;
      }
    }
  }

  /** Where what is served with line `k` begins. */
  function StartOf(stored: seq<seq<byte>>, k: nat): nat
    requires Whole(stored) && k < |stored|
  {
    IMAGE_DATA_START + Offset(stored, RunStart(stored, k))
  }

  // ---------- the index of what is stored ----------

  /** The numbers of all segments of the image. */
  function Numbers(stored: seq<seq<byte>>): seq<nat>
    requires Whole(stored)
  {
    Numbering(Gather(stored, []).segs, 0)
  }

  /** Each record of the index of these lines lies behind the scanner when it is written. */
  ghost predicate Followed(stored: seq<seq<byte>>)
    requires Whole(stored)
  {
    var g := Gather(stored, []);
    AllQuiet(g.segs, Numbers(stored)) && Trailing(Records(g.segs, Numbers(stored), IMAGE_DATA_START, 0, |g.tail|))
  }

  /** All that is asked of a capture here: the lines as stored, or other pieces of the same bytes, make no marker between them. */
  ghost predicate Lossy(m0: Memory, size: nat, lines: seq<seq<byte>>, nums: seq<nat>, stored: seq<seq<byte>>) {
    && size >= 2 && Fits(lines) && AllQuiet(lines, nums) && |stored| == |lines|
    && Flatten(stored) == Flatten(AllStored(m0, IMAGE_DATA_START, lines, size))
    && Whole(stored) && AllBodies(stored) && AllApart(stored) && Followed(stored)
  }

  lemma QuietIsWhole(lines: seq<seq<byte>>, nums: seq<nat>)
    requires AllQuiet(lines, nums)
    ensures forall k :: 0 <= k < |lines| ==> |lines[k]| >= 2
  {
    hide Marks;
    forall k | 0 <= k < |lines|
      ensures |lines[k]| >= 2
    {
      assert Quiet(lines[k], nums[k] % 8);
    }
  }

  lemma StoredBody(m0: Memory, pos: nat, line: seq<byte>, size: nat, rst: nat)
    requires size > 0 && Quiet(line, rst)
    ensures Body(AsStored(m0, pos, line, size))
  {
    hide Fires, Marks;
    var s := AsStored(m0, pos, line, size);
    assert forall i :: 0 <= i < |s| - 1 ==> s[i] == line[i];
  }

  /** However much is lost, the lines as stored are whole up to their last byte. */
  lemma StoredBodies(m0: Memory, pos: nat, lines: seq<seq<byte>>, size: nat, nums: seq<nat>)
    requires size > 0 && AllQuiet(lines, nums)
    ensures Whole(AllStored(m0, pos, lines, size)) && AllBodies(AllStored(m0, pos, lines, size))
  {
    hide Body, Quiet, AllStored, AsStored;
    var stored := AllStored(m0, pos, lines, size);
    QuietIsWhole(lines, nums);
    forall k | 0 <= k < |stored|
      ensures |stored[k]| >= 2 && Body(stored[k])
    {
      StoredAt(m0, pos, lines, size, k);
      StoredBody(m0, pos + Offset(lines, k), lines[k], size, nums[k] % 8);
    }
  }

  /** The part of the image that the scanner sees is in memory. */
  lemma GatheredImage(m0: Memory, size: nat, lines: seq<seq<byte>>, nums: seq<nat>, stored: seq<seq<byte>>, g: Gathered)
    requires Lossy(m0, size, lines, nums, stored) && g == Gather(stored, [])
    ensures Indexable(Captured(m0, lines, size), g.segs, Numbers(stored), g.tail)
  {
    hide Records, Trailing, AllQuiet, AllStored, AllApart, Fits, Still, HasBytes, Flatten, StreamWith, Captured, Gather,
         Numbering, Numbered, AllBodies;
    QuietIsWhole(lines, nums);
    StreamAsStored(m0, lines, size, AllStored(m0, IMAGE_DATA_START, lines, size));
    NothingIsStill();
    GatherQuiet(stored, [], 0);
    GatherStream(stored, []);
    NumberingIsNumbered(g.segs, 0);
    var stream, seen := Flatten(stored) + EOI, StreamWith(g.segs, g.tail);
    assert [] + stream == stream;
    assert stream == seen + stream[|seen|..];
    HasParts(Captured(m0, lines, size), IMAGE_DATA_START, seen, stream[|seen|..]);
  }

  /**
   The reader, asked for `n` on the memory `m`, delivers `|bytes|` bytes from `at` on; they are `bytes` if the index, the
   highest number of which is `end`, has written nothing there.
   */
  ghost predicate Serves(m: Memory, n: nat, at: nat, bytes: seq<byte>, end: nat) {
    && LineRead(m, n) == (Read(m, at, |bytes|), |bytes| % 0x1_0000)
    && (Spared(end, at) ==> Read(m, at, |bytes|) == bytes)
  }

  /** With all numbers below 64 the image is as it was. */
  lemma ServedWhole(m: Memory, n: nat, at: nat, bytes: seq<byte>, end: nat)
    requires Serves(m, n, at, bytes, end) && Spared(end, at)
    ensures LineRead(m, n) == (bytes, |bytes| % 0x1_0000)
  {
    hide LineRead, Read, Spared;
  }

  lemma SmallEnd(nums: seq<nat>, at: nat)
    requires forall j :: 0 <= j < |nums| ==> nums[j] < 63
    ensures EndNumber(nums, 0) < 64 && Spared(EndNumber(nums, 0), at)
  {
  }

  /**
   The index of a capture that lost any markers: the loop ends, and every line the scan reaches is served, behind all lines
   that run on into it: a line that ends, under the number of its segment; the line that stops the scan, and the last line
   if it runs on, under the number after all others.
   */
  lemma StoredLineServed(m0: Memory, size: nat, lines: seq<seq<byte>>, nums: seq<nat>, stored: seq<seq<byte>>, k: nat,
                         m: Memory)
    requires Lossy(m0, size, lines, nums, stored) && m == Captured(m0, lines, size)
    requires k < |stored| && Reached(stored, k)
    ensures Scan(m, IMAGE_DATA_START, IMAGE_DATA_START, 0).Some? && LoopLeaves(m, Indexed(m))
    ensures Rank(stored, k) <= |Numbers(stored)|
    ensures var served, at, end := Served(stored, [], k), StartOf(stored, k), EndNumber(Numbers(stored), 0);
            match FateOf(stored[k])
            case Ends => Rank(stored, k) < |Numbers(stored)| &&
                         Serves(Indexed(m), Numbers(stored)[Rank(stored, k)], at, served, end)
            case Stops => Serves(Indexed(m), end, at, served, end)
            case RunsOn => k == |stored| - 1 ==> Serves(Indexed(m), end, at, served + EOI, end)
  {
    hide AllQuiet, AllStored, AllApart, AllBodies, Still, HasBytes, Scan, IndexRun, Indexed, LineRead, Gather, Numbering,
         Numbered, Served, Fits, Captured, Rank, Reached, Records, Trailing, Spared, Read, RunStart, Offset;
    var g := Gather(stored, []);
    GatheredImage(m0, size, lines, nums, stored, g);
    RankBound(stored, [], k);
    LoopEnds(m, g.segs, Numbers(stored), g.tail);
    RunLength(stored, k);
    if FateOf(stored[k]).Ends? {
      GatherAt(stored, [], k);
      SegmentPlace(stored, [], k);
      SegmentServed(m, g.segs, Numbers(stored), g.tail, Rank(stored, k), StartOf(stored, k));
    } else if FateOf(stored[k]).Stops? || k == |stored| - 1 {
      TailAt(stored, [], k);
      TailPlace(stored, [], k);
      EndServed(m, g.segs, Numbers(stored), g.tail, StartOf(stored, k));
    }
  }

  /** Where a stale 0xFF makes a marker with the first byte of the next line, that byte belongs to the line that ends there. */
  function Rechunked(stored: seq<seq<byte>>): (chunks: seq<seq<byte>>)
    requires Roomy(stored)
    ensures |chunks| == |stored|
    decreases |stored|
  {
    if |stored| < 2 then stored
    else if Apart(stored[0], stored[1]) then [stored[0]] + Rechunked(stored[1..])
    else [stored[0] + stored[1][..1]] + Rechunked([stored[1][1..]] + stored[2..])
  }

  /** Every line but the first can spare a byte. */
  predicate Roomy(stored: seq<seq<byte>>) {
    forall k :: 0 <= k < |stored| ==> |stored[k]| >= if k == 0 then 2 else 3
  }

  lemma BodyAndMarker(s: seq<byte>, b: byte)
    requires Body(s) && LastByte(s) == 0xFF
    ensures Body(s + [b])
  {
    var t := s + [b];
    forall i | 0 <= i < |t| - 2
      ensures !(t[i] == 0xFF && Fires(t[i + 1]))
    {
      assert t[i] == s[i] && t[i + 1] == s[i + 1];
    }
  }

  lemma BodyWithoutFirst(s: seq<byte>)
    requires Body(s) && |s| >= 3
    ensures Body(s[1..])
  {
  }

  lemma TwoChunks(stored: seq<seq<byte>>)
    requires |stored| >= 2 && stored[1] != []
    ensures Flatten(stored) == stored[0] + (stored[1] + Flatten(stored[2..]))
    ensures Flatten([stored[1][1..]] + stored[2..]) == stored[1][1..] + Flatten(stored[2..])
  {
    assert stored[1..][1..] == stored[2..];
    assert ([stored[1][1..]] + stored[2..])[1..] == stored[2..];
  }

  lemma TakenByte(a: seq<byte>, b: seq<byte>, more: seq<byte>)
    requires b != []
    ensures (a + b[..1]) + (b[1..] + more) == a + (b + more)
  {
    assert b == b[..1] + b[1..];
  }

  lemma MarkerIsNotFF(b: byte)
    requires Fires(b)
    ensures b != 0xFF
  {
  }

  lemma Left(stored: seq<seq<byte>>)
    requires Roomy(stored) && AllBodies(stored) && |stored| >= 2
    ensures Body(stored[0]) && Roomy(stored[1..]) && AllBodies(stored[1..]) && Flatten(stored) == stored[0] + Flatten(stored[1..])
  {
    hide Body;
  }

  lemma NextChunks(stored: seq<seq<byte>>, next: seq<seq<byte>>)
    requires Roomy(stored) && AllBodies(stored) && |stored| >= 2 && next == [stored[1][1..]] + stored[2..]
    ensures Roomy(next) && AllBodies(next)
  {
    hide Body;
    BodyWithoutFirst(stored[1]);
    assert forall k :: 1 <= k < |next| ==> next[k] == stored[k + 1];
  }

  /** Taking the byte that completes a marker changes nothing but the border between the two lines. */
  lemma Taken(stored: seq<seq<byte>>, s: seq<byte>, next: seq<seq<byte>>)
    requires Roomy(stored) && AllBodies(stored) && |stored| >= 2 && !Apart(stored[0], stored[1])
    requires s == stored[0] + stored[1][..1] && next == [stored[1][1..]] + stored[2..]
    ensures Roomy(next) && AllBodies(next) && |next| == |stored| - 1
    ensures Body(s) && s[0] == stored[0][0] && LastByte(s) != 0xFF && Flatten(stored) == s + Flatten(next)
  {
    hide Body, Fires, Flatten, AllBodies;
    NextChunks(stored, next);
    Left(stored);
    assert stored[1][..1] == [stored[1][0]];
    BodyAndMarker(stored[0], stored[1][0]);
    MarkerIsNotFF(stored[1][0]);
    TwoChunks(stored);
    TakenByte(stored[0], stored[1], Flatten(stored[2..]));
  }

  lemma ConsChunk(s: seq<byte>, rest: seq<seq<byte>>)
    requires Body(s) && Whole(rest) && AllBodies(rest) && AllApart(rest) && (rest != [] ==> Apart(s, rest[0]))
    ensures Whole([s] + rest) && AllBodies([s] + rest) && AllApart([s] + rest) && Flatten([s] + rest) == s + Flatten(rest)
  {
    hide Apart;
    var all := [s] + rest;
    assert all[1..] == rest;
    forall k | 0 <= k < |all| - 1
      ensures Apart(all[k], all[k + 1])
    {
      assert k > 0 ==> all[k] == rest[k - 1] && all[k + 1] == rest[k];
    }
  }

  lemma OneChunk(stored: seq<seq<byte>>)
    requires |stored| < 2
    ensures AllApart(stored)
  {
  }

  /** So every image, whatever was lost, is made of such pieces: the same bytes, and none that make a marker between them. */
  lemma {:induction false} RechunkedKeeps(stored: seq<seq<byte>>)
    requires Roomy(stored) && AllBodies(stored)
    ensures var chunks := Rechunked(stored);
            && Whole(chunks) && AllBodies(chunks) && AllApart(chunks) && Flatten(chunks) == Flatten(stored)
            && (stored != [] ==> chunks[0] != [] && chunks[0][0] == stored[0][0])
    decreases |stored|
  {
    hide Body, Fires, Flatten, AllBodies, AllApart;
    if |stored| < 2 {
      OneChunk(stored);
    } else if Apart(stored[0], stored[1]) {
      Left(stored);
      RechunkedKeeps(stored[1..]);
      ConsChunk(stored[0], Rechunked(stored[1..]));
    } else {
      var s, next := stored[0] + stored[1][..1], [stored[1][1..]] + stored[2..];
      Taken(stored, s, next);
      RechunkedKeeps(next);
      ConsChunk(s, Rechunked(next));
    }
  }

  /** For every capture of lines of three bytes and more there are such pieces. */
  lemma CapturePieces(m0: Memory, size: nat, lines: seq<seq<byte>>, nums: seq<nat>, stored: seq<seq<byte>>)
    requires size >= 2 && Fits(lines) && AllQuiet(lines, nums) && (forall k :: 0 <= k < |lines| ==> |lines[k]| >= 3)
    requires stored == AllStored(m0, IMAGE_DATA_START, lines, size)
    ensures Roomy(stored) && Whole(Rechunked(stored)) && AllBodies(Rechunked(stored)) && AllApart(Rechunked(stored))
    ensures Followed(Rechunked(stored)) ==> Lossy(m0, size, lines, nums, Rechunked(stored))
  {
    hide AllStored, AsStored, Quiet, AllBodies, AllApart, Rechunked, Followed, Fits, Flatten;
    forall k | 0 <= k < |stored|
      ensures |stored[k]| >= 3
    {
      StoredAt(m0, IMAGE_DATA_START, lines, size, k);
    }
    StoredBodies(m0, IMAGE_DATA_START, lines, size, nums);
    RechunkedKeeps(stored);
  }

  // ---------- why the records stay behind the scanner ----------

  predicate Rising(nums: seq<nat>) {
    forall i, j :: 0 <= i < j < |nums| ==> nums[i] < nums[j]
  }

  lemma {:induction false} RisingAtLeast(nums: seq<nat>, i: nat)
    requires Rising(nums) && i < |nums|
    ensures nums[i] >= i
  {
    if i > 0 {
      RisingAtLeast(nums, i - 1);
    }
  }

  /** A line that ends under a marker that is not its own is long: it has lost its own one to a full buffer. */
  predicate Paced(stored: seq<seq<byte>>, nums: seq<nat>)
    requires Whole(stored)
  {
    && |stored| == |nums|
    && forall k :: 0 <= k < |stored| && FateOf(stored[k]).Ends? && LastByte(stored[k]) as nat % 8 != nums[k] % 8 ==>
         |stored[k]| >= 128
  }

  lemma PacedTail(stored: seq<seq<byte>>, nums: seq<nat>)
    requires Whole(stored) && Paced(stored, nums) && Rising(nums) && stored != []
    ensures Whole(stored[1..]) && Paced(stored[1..], nums[1..]) && Rising(nums[1..])
    ensures FateOf(stored[0]).Ends? && LastByte(stored[0]) as nat % 8 != nums[0] % 8 ==> |stored[0]| >= 128
    ensures |stored| > 1 ==> nums[0] + 1 <= nums[1]
  {
    hide FateOf, LastByte;
  }

  lemma ConsTrailing(d: LineData, es: seq<LineData>)
    requires Behind(d) && Trailing(es)
    ensures Trailing([d] + es)
  {
    hide Behind;
    assert InMemory(d.lineNum) by {
      BehindInMemory(d);
    }
    var all := [d] + es;
    forall i | 0 <= i < |all|
      ensures InMemory(all[i].lineNum) && (i < |all| - 1 ==> Behind(all[i]))
    {
      assert i > 0 ==> all[i] == es[i - 1];
    }
  }

  lemma BehindInMemory(d: LineData)
    requires Behind(d)
    ensures InMemory(d.lineNum)
  {
  }

  /** Each wrong marker adds at most eight to the numbers, and so 128 bytes to the place of the records. */
  lemma NumberPace(line: nat, b: nat, w: nat, rst: nat, num: nat, n: nat)
    requires line <= b + 8 * w && b <= num && rst < 8 && n == NextLine(line, rst)
    ensures n <= line + 7 && (rst == num % 8 ==> n <= num + 8 * w)
  {
    NextLineIsLeast(line, rst, n);
  }

  lemma PacedBehind(pos: nat, n: nat, end: nat, w: nat, num: nat, long: bool)
    requires num <= 62 && w <= 64 && end + 1 >= IMAGE_DATA_START + 128 * w + (if long then 128 else 2)
    requires n <= num + 8 * w + (if long then 7 else 0)
    ensures Behind(LineData(n, pos, end, 0))
  {
  }

  lemma RecordsCons(seg: seq<byte>, n: nat, segs: seq<seq<byte>>, nums: seq<nat>, pos: nat, line: nat, tail: nat)
    requires AllQuiet([seg] + segs, [n] + nums) && |segs| == |nums|
    ensures |seg| >= 2 && AllQuiet(segs, nums)
    ensures Records([seg] + segs, [n] + nums, pos, line, tail) ==
            [SegmentRecord(pos, seg, n)] + Records(segs, nums, pos + |seg|, n + 1, tail)
  {
    hide Marks;
    TailQuiet([seg] + segs, [n] + nums);
    assert ([seg] + segs)[1..] == segs && ([n] + nums)[1..] == nums;
  }

  lemma OnlyEnd(pos: nat, line: nat, tail: nat)
    requires InMemory(line) && AllQuiet([], [])
    ensures Trailing(Records([], [], pos, line, tail))
  {
  }

  lemma NumberingCons(seg: seq<byte>, segs: seq<seq<byte>>, line: nat, n: nat)
    requires seg != [] && (forall j :: 0 <= j < |segs| ==> segs[j] != []) && n == NextLine(line, LastByte(seg) as nat % 8)
    ensures Numbering([seg] + segs, line) == [n] + Numbering(segs, n + 1)
  {
    NumberingStep([seg] + segs, line, seg, segs, n);
  }

  lemma NumberingStep(all: seq<seq<byte>>, line: nat, seg: seq<byte>, segs: seq<seq<byte>>, n: nat)
    requires |all| > 0 && all[0] == seg && all[1..] == segs && forall j :: 0 <= j < |all| ==> all[j] != []
    requires n == NextLine(line, LastByte(seg) as nat % 8)
    ensures Numbering(all, line) == [n] + Numbering(segs, n + 1)
  {
    hide NextLine, LastByte;
  }

  /** All records lie behind the scanner, for numbers that start at most `b + 8 * w` after `w` wrong markers. */
  lemma {:induction false} GatherTrails(stored: seq<seq<byte>>, nums: seq<nat>, carry: seq<byte>, pos: nat, line: nat,
                                        b: nat, w: nat)
    requires Whole(stored) && |stored| == |nums| && Paced(stored, nums)
    requires Rising(nums) && forall j :: 0 <= j < |nums| ==> nums[j] < 63
    requires line <= b + 8 * w && b <= 63 && (stored != [] ==> b <= nums[0]) && w + |stored| <= 64
    requires pos + |carry| >= IMAGE_DATA_START + 128 * w
    requires var g := Gather(stored, carry); AllQuiet(g.segs, Numbering(g.segs, line))
    ensures var g := Gather(stored, carry); Trailing(Records(g.segs, Numbering(g.segs, line), pos, line, |g.tail|))
    decreases |stored|
  {
    hide AllQuiet, NextLine, Paced, Rising, Behind, FateOf, LastByte, Records, Numbering, Trailing;
    if stored == [] {
      NoNumbers(line);
      OnlyEnd(pos, line, |carry|);
    } else {
      var s := stored[0];
      PacedTail(stored, nums);
      match FateOf(s)
      case Ends =>
        var rest, rst, wrong := Gather(stored[1..], []), LastByte(s) as nat % 8, LastByte(s) as nat % 8 != nums[0] % 8;
        var n, pos' := NextLine(line, rst), pos + |carry + s|;
        LastOfBoth(carry, s);
        NumberPace(line, b, w, rst, nums[0], n);
        NumberingCons(carry + s, rest.segs, line, n);
        RecordsCons(carry + s, n, rest.segs, Numbering(rest.segs, n + 1), pos, line, |rest.tail|);
        GatherTrails(stored[1..], nums[1..], [], pos', n + 1, if wrong then b else nums[0] + 1, if wrong then w + 1 else w);
        PacedBehind(pos, n, pos' - 1, w, nums[0], wrong);
        ConsTrailing(SegmentRecord(pos, carry + s, n), Records(rest.segs, Numbering(rest.segs, n + 1), pos', n + 1, |rest.tail|));
      case RunsOn =>
        GatherTrails(stored[1..], nums[1..], carry + s, pos, line, b, w);
      case Stops =>
        NoNumbers(line);
        OnlyEnd(pos, line, |carry + s[..|s| - 2]|);
    }
  }

  lemma NoNumbers(line: nat)
    ensures Numbering([], line) == []
  {
  }

  /**
   With true numbers that rise and stay below 63, and wrong markers only at the end of lines of 128 bytes and more, the
   scanner is never overtaken: whatever numbers the wrong markers lead to, their records lie in what has been read.
   */
  lemma PacedIsFollowed(stored: seq<seq<byte>>, nums: seq<nat>)
    requires Whole(stored) && AllBodies(stored) && AllApart(stored) && Paced(stored, nums)
    requires Rising(nums) && forall j :: 0 <= j < |nums| ==> nums[j] < 63
    ensures Followed(stored)
  {
    hide AllBodies, AllApart, Gather, Numbering, Records, Trailing, AllQuiet, Still;
    if |nums| > 0 {
      RisingAtLeast(nums, |nums| - 1);
    }
    GatheredQuiet(stored);
    GatherTrails(stored, nums, [], IMAGE_DATA_START, 0, 0, 0);
  }

  lemma GatheredQuiet(stored: seq<seq<byte>>)
    requires Whole(stored) && AllBodies(stored) && AllApart(stored)
    ensures AllQuiet(Gather(stored, []).segs, Numbers(stored))
  {
    hide AllBodies, AllApart, Gather, Numbering, AllQuiet, Still;
    NothingIsStill();
    GatherQuiet(stored, [], 0);
  }

  /** The same for numbers that all stay below 63, whatever the lines. */
  lemma SmallIsFollowed(stored: seq<seq<byte>>)
    requires Whole(stored) && AllBodies(stored) && AllApart(stored)
    requires forall j :: 0 <= j < |Numbers(stored)| ==> Numbers(stored)[j] < 63
    ensures Followed(stored)
  {
    hide AllBodies, AllApart, Gather, Numbering, Records, Trailing, AllQuiet, Still;
    GatheredQuiet(stored);
    SmallNumbers(Gather(stored, []).segs, Numbers(stored), |Gather(stored, []).tail|);
  }

  /** Each line ends under its own marker or is long, even if its first byte goes to the line before it. */
  predicate Wide(stored: seq<seq<byte>>, nums: seq<nat>)
    requires Roomy(stored) && |stored| == |nums|
  {
    forall k :: 0 <= k < |stored| ==>
      (FateOf(stored[k]).Ends? && LastByte(stored[k]) as nat % 8 == nums[k] % 8) || |stored[k]| >= (if k == 0 then 128 else 129)
  }

  lemma WideTaken(stored: seq<seq<byte>>, nums: seq<nat>, next: seq<seq<byte>>)
    requires Roomy(stored) && |stored| == |nums| && Wide(stored, nums) && |stored| >= 2
    requires next == [stored[1][1..]] + stored[2..]
    ensures Roomy(next) && Wide(next, nums[1..])
  {
    hide Fires;
    assert LastByte(stored[1][1..]) == LastByte(stored[1]);
    assert forall k :: 1 <= k < |next| ==> next[k] == stored[k + 1];
  }

  lemma WideLeft(stored: seq<seq<byte>>, nums: seq<nat>)
    requires Roomy(stored) && |stored| == |nums| && Wide(stored, nums) && stored != []
    ensures Roomy(stored[1..]) && Wide(stored[1..], nums[1..])
  {
    hide FateOf, LastByte;
  }

  lemma ConsPaced(s: seq<byte>, num: nat, rest: seq<seq<byte>>, nums: seq<nat>)
    requires |s| >= 2 && Whole(rest) && Paced(rest, nums)
    requires (FateOf(s).Ends? && LastByte(s) as nat % 8 == num % 8) || |s| >= 128
    ensures Whole([s] + rest) && Paced([s] + rest, [num] + nums)
  {
    hide FateOf, LastByte;
  }

  lemma FFRunsOn(s: seq<byte>)
    requires s != [] && LastByte(s) == 0xFF
    ensures !FateOf(s).Ends?
  {
  }

  lemma {:induction false} RechunkedPaced(stored: seq<seq<byte>>, nums: seq<nat>)
    requires Roomy(stored) && |stored| == |nums| && Wide(stored, nums)
    ensures Whole(Rechunked(stored)) && Paced(Rechunked(stored), nums)
    decreases |stored|
  {
    hide FateOf, LastByte, Paced, Fires;
    if |stored| < 2 {
      if |stored| == 1 {
        NothingPaced();
        ConsPaced(stored[0], nums[0], [], []);
        assert [stored[0]] + [] == stored && [nums[0]] + [] == nums;
      } else {
        NothingPaced();
      }
    } else if Apart(stored[0], stored[1]) {
      WideLeft(stored, nums);
      RechunkedPaced(stored[1..], nums[1..]);
      ConsPaced(stored[0], nums[0], Rechunked(stored[1..]), nums[1..]);
      assert [nums[0]] + nums[1..] == nums;
    } else {
      var next := [stored[1][1..]] + stored[2..];
      FFRunsOn(stored[0]);
      WideTaken(stored, nums, next);
      RechunkedPaced(next, nums[1..]);
      ConsPaced(stored[0] + stored[1][..1], nums[0], Rechunked(next), nums[1..]);
      assert [nums[0]] + nums[1..] == nums;
    }
  }

  lemma NothingPaced()
    ensures Whole([]) && Paced([], [])
  {
  }

  lemma LosingIsLong(line: seq<byte>, size: nat)
    requires size > 0 && LosesMarker(line, size) && |line| >= 2
    ensures |line| >= size + 1
  {
    if |line| <= size {
      if |line| < size {
        DivModUnique(|line|, size, 0, |line|);
      } else {
        DivModUnique(|line|, size, 1, 0);
      }
    }
  }

  /**
   Every capture is covered: any strips, any earlier memory, a buffer of 128 bytes or more, true numbers that rise and stay
   below 63 (a complete image has 60 lines).
   */
  lemma EveryCaptureLossy(m0: Memory, size: nat, lines: seq<seq<byte>>, nums: seq<nat>, stored: seq<seq<byte>>)
    requires size >= 128 && Fits(lines) && AllQuiet(lines, nums) && (forall k :: 0 <= k < |lines| ==> |lines[k]| >= 3)
    requires Rising(nums) && forall j :: 0 <= j < |nums| ==> nums[j] < 63
    requires stored == AllStored(m0, IMAGE_DATA_START, lines, size)
    ensures Roomy(stored) && Lossy(m0, size, lines, nums, Rechunked(stored))
  {
    hide AllStored, Quiet, AllBodies, AllApart, Rechunked, Followed, Fits, Lossy, FateOf, LastByte, LosesMarker, Rising;
    CapturePieces(m0, size, lines, nums, stored);
    forall k | 0 <= k < |stored|
      ensures (FateOf(stored[k]).Ends? && LastByte(stored[k]) as nat % 8 == nums[k] % 8) || |stored[k]| >= 129
    {
      StoredAt(m0, IMAGE_DATA_START, lines, size, k);
      if LosesMarker(lines[k], size) {
        LosingIsLong(lines[k], size);
      } else {
        KeptEnds(lines, nums, k);
      }
    }
    RechunkedPaced(stored, nums);
    PacedIsFollowed(Rechunked(stored), nums);
  }

  /** With the tables of jpegenc.c, for the lines 0, 1, 2, ... of any strips. */
  lemma StandardCaptureLossy(m0: Memory, size: nat, strips: seq<Strip>, lines: seq<seq<byte>>, stored: seq<seq<byte>>)
    requires size >= 128 && |strips| <= 63 && lines == StandardLines(strips) && Fits(lines)
    requires stored == AllStored(m0, IMAGE_DATA_START, lines, size)
    ensures Roomy(stored) && Lossy(m0, size, lines, InOrder(|strips|), Rechunked(stored))
  {
    hide AllStored, AllQuiet, Rechunked, Fits, Lossy, EncodedLine, TablesOk, StandardTables;
    StandardTablesOk();
    CaptureLinesQuiet(StandardTables(), strips, InOrder(|strips|));
    forall k | 0 <= k < |lines|
      ensures |lines[k]| >= 3
    {
      StandardLineLong(strips[k], k);
    }
    EveryCaptureLossy(m0, size, lines, InOrder(|strips|), stored);
  }

  lemma {:induction false} RankBound(stored: seq<seq<byte>>, carry: seq<byte>, k: nat)
    requires Whole(stored) && k < |stored| && Reached(stored, k)
    ensures Rank(stored, k) <= |Gather(stored, carry).segs|
    decreases k
  {
    if k > 0 {
      ReachedTail(stored, k);
      RankBound(stored[1..], if FateOf(stored[0]).RunsOn? then carry + stored[0] else [], k - 1);
    }
  }

  /** Under every other number, and in the cells of the image where its record would be, there is what was there before. */
  lemma OtherNumbers(m0: Memory, size: nat, lines: seq<seq<byte>>, nums: seq<nat>, stored: seq<seq<byte>>, n: nat, m: Memory)
    requires Lossy(m0, size, lines, nums, stored) && m == Captured(m0, lines, size)
    requires InMemory(n) && n !in Numbers(stored) && n != EndNumber(Numbers(stored), 0)
    ensures Scan(m, IMAGE_DATA_START, IMAGE_DATA_START, 0).Some?
    ensures Read(Indexed(m), RecordAddr(n), RECORD_SIZE) == Read(m, RecordAddr(n), RECORD_SIZE)
  {
    hide AllQuiet, AllStored, AllApart, AllBodies, Still, HasBytes, Scan, Indexed, Gather, Numbering, Numbered, Fits, Captured,
         Read, Records, Trailing;
    var g := Gather(stored, []);
    GatheredImage(m0, size, lines, nums, stored, g);
    NoOtherRecord(m, g.segs, Numbers(stored), g.tail, n);
  }

  /**
   So a line that is in memory as it was sent, and numbered truly, is served truly if and only if the line before it does
   not run on into it, as long as the index has written nothing over what is served.
   */
  lemma ServedTrulyIff(m0: Memory, size: nat, lines: seq<seq<byte>>, nums: seq<nat>, stored: seq<seq<byte>>, k: nat, m: Memory)
    requires Lossy(m0, size, lines, nums, stored) && m == Captured(m0, lines, size)
    requires k < |stored| && Reached(stored, k) && stored[k] == lines[k]
    requires Rank(stored, k) < |Numbers(stored)| && Numbers(stored)[Rank(stored, k)] == nums[k]
    ensures Scan(m, IMAGE_DATA_START, IMAGE_DATA_START, 0).Some? && LoopLeaves(m, Indexed(m))
    ensures Serves(Indexed(m), nums[k], StartOf(stored, k), Served(stored, [], k), EndNumber(Numbers(stored), 0))
    ensures Spared(EndNumber(Numbers(stored), 0), StartOf(stored, k)) ==>
              (LineRead(Indexed(m), nums[k]).0 == lines[k] <==> k == 0 || FateOf(stored[k - 1]).Ends?)
  {
    hide AllStored, AllApart, AllBodies, AllQuiet, Scan, IndexRun, Indexed, LineRead, Numbers, Served, Fits, Captured, Rank,
         LoopLeaves, FateOf, Reached, EndNumber, Followed, StartOf, Spared, Read;
    KeptEnds(lines, nums, k);
    StoredLineServed(m0, size, lines, nums, stored, k, m);
    ServedAloneIff(stored, k);
  }

  lemma ServedAloneIff(stored: seq<seq<byte>>, k: nat)
    requires Whole(stored) && k < |stored| && Reached(stored, k)
    ensures Served(stored, [], k) == stored[k] <==> k == 0 || FateOf(stored[k - 1]).Ends?
  {
    hide Served, FateOf;
    ServedStep(stored, [], k);
    if k > 0 {
      ServedIsLonger(stored, k - 1);
    }
  }

  lemma KeptEnds(lines: seq<seq<byte>>, nums: seq<nat>, k: nat)
    requires AllQuiet(lines, nums) && k < |lines|
    ensures lines[k] != [] && FateOf(lines[k]).Ends? && LastByte(lines[k]) as nat % 8 == nums[k] % 8
  {
    assert Quiet(lines[k], nums[k] % 8);
  }

  lemma ServedIsLonger(stored: seq<seq<byte>>, k: nat)
    requires Whole(stored) && k < |stored|
    ensures |Served(stored, [], k)| >= 2
  {
    ServedStep(stored, [], k);
  }

  // ---------- numbers ----------

  /** The true numbers of the lines that end. */
  function EndingNums(stored: seq<seq<byte>>, nums: seq<nat>): (ns: seq<nat>)
    requires Whole(stored) && |stored| == |nums|
    decreases |stored|
  {
    if stored == [] then []
    else
      match FateOf(stored[0])
      case Ends => [nums[0]] + EndingNums(stored[1..], nums[1..])
      case RunsOn => EndingNums(stored[1..], nums[1..])
      case Stops => []
  }

  /** Where a line ends, its marker, true or stale, agrees with its number. */
  predicate Agree(stored: seq<seq<byte>>, nums: seq<nat>)
    requires Whole(stored) && |stored| == |nums|
    decreases |stored|
  {
    if stored == [] then true
    else
      match FateOf(stored[0])
      case Ends => LastByte(stored[0]) as nat % 8 == nums[0] % 8 && Agree(stored[1..], nums[1..])
      case RunsOn => Agree(stored[1..], nums[1..])
      case Stops => true
  }

  lemma ConsEqual(a: nat, b: seq<nat>, c: nat, d: seq<nat>)
    ensures [a] + b == [c] + d <==> a == c && b == d
  {
    if [a] + b == [c] + d {
      assert ([a] + b)[0] == ([c] + d)[0] && ([a] + b)[1..] == b && ([c] + d)[1..] == d;
    }
  }

  lemma ConsNumbered(n: nat, ns: seq<nat>, line: nat)
    ensures Numbered([], line)
    ensures Numbered([n] + ns, line) <==> line <= n < line + 8 && Numbered(ns, n + 1)
  {
    assert ([n] + ns)[1..] == ns;
  }

  lemma LastOfBoth(a: seq<byte>, b: seq<byte>)
    requires b != []
    ensures LastByte(a + b) == LastByte(b)
  {
  }

  lemma FirstTrue(rest: seq<seq<byte>>, ns: seq<nat>, agree: bool, line: nat, rst: nat, num: nat)
    requires rst < 8 && forall j :: 0 <= j < |rest| ==> rest[j] != []
    requires Numbering(rest, num + 1) == ns <==> agree && Numbered(ns, num + 1)
    ensures var n := NextLine(line, rst);
            [n] + Numbering(rest, n + 1) == [num] + ns <==> rst == num % 8 && agree && Numbered([num] + ns, line)
  {
    hide NextLine, Numbered, Numbering;
    var n := NextLine(line, rst);
    ConsEqual(n, Numbering(rest, n + 1), num, ns);
    ConsNumbered(num, ns, line);
    NextLineIsLeast(line, rst, num);
    NextLineIsLeast(line, rst, n);
  }

  /** All segments are numbered truly if and only if every marker agrees and fewer than eight lines run on in a row. */
  lemma {:induction false} NumbersTrueIff(stored: seq<seq<byte>>, nums: seq<nat>, carry: seq<byte>, line: nat)
    requires Whole(stored) && |stored| == |nums|
    ensures Numbering(Gather(stored, carry).segs, line) == EndingNums(stored, nums) <==>
            Agree(stored, nums) && Numbered(EndingNums(stored, nums), line)
    decreases |stored|
  {
    hide NextLine, Numbered, FateOf, LastByte;
    ConsNumbered(0, [], line);
    if stored != [] {
      var s := stored[0];
      match FateOf(s)
      case Ends =>
        var rest := Gather(stored[1..], []).segs;
        var segs := [carry + s] + rest;
        LastOfBoth(carry, s);
        assert segs[1..] == rest;
        NumbersTrueIff(stored[1..], nums[1..], [], nums[0] + 1);
        FirstTrue(rest, EndingNums(stored[1..], nums[1..]), Agree(stored[1..], nums[1..]), line, LastByte(s) as nat % 8, nums[0]);
      case RunsOn => NumbersTrueIff(stored[1..], nums[1..], carry + s, line);
      case Stops =>
    }
  }

  lemma {:induction false} EndingNumAt(stored: seq<seq<byte>>, nums: seq<nat>, k: nat)
    requires Whole(stored) && |stored| == |nums| && k < |stored| && Reached(stored, k) && FateOf(stored[k]).Ends?
    ensures Rank(stored, k) < |EndingNums(stored, nums)| && EndingNums(stored, nums)[Rank(stored, k)] == nums[k]
    decreases k
  {
    if k > 0 {
      ReachedTail(stored, k);
      EndingNumAt(stored[1..], nums[1..], k - 1);
    }
  }

  lemma {:induction false} EndingNumsEnd(stored: seq<seq<byte>>, nums: seq<nat>, n: nat) returns (j: nat)
    requires Whole(stored) && |stored| == |nums| && n in EndingNums(stored, nums)
    ensures j < |stored| && nums[j] == n && FateOf(stored[j]).Ends?
    decreases |stored|
  {
    if FateOf(stored[0]).Ends? && n == nums[0] {
      j := 0;
    } else {
      j := EndingNumsEnd(stored[1..], nums[1..], n);
      j := j + 1;
    }
  }

  /**
   A line that runs on has no record under its own number, except that the last record may happen to have that number: the
   reader then serves what belongs to no segment.
   */
  lemma LostLineRecord(m0: Memory, size: nat, lines: seq<seq<byte>>, nums: seq<nat>, stored: seq<seq<byte>>, k: nat, m: Memory)
    requires Lossy(m0, size, lines, nums, stored) && m == Captured(m0, lines, size) && Rising(nums)
    requires Numbers(stored) == EndingNums(stored, nums) && k < |stored| && !FateOf(stored[k]).Ends? && InMemory(nums[k])
    ensures Scan(m, IMAGE_DATA_START, IMAGE_DATA_START, 0).Some?
    ensures if nums[k] == EndNumber(Numbers(stored), 0) then
              var g := Gather(stored, []);
              Serves(Indexed(m), nums[k], IMAGE_DATA_START + Offset(g.segs, |g.segs|), g.tail + EOI, nums[k])
            else
              Read(Indexed(m), RecordAddr(nums[k]), RECORD_SIZE) == Read(m, RecordAddr(nums[k]), RECORD_SIZE)
  {
    hide Quiet, AllStored, AllApart, AllBodies, Scan, Indexed, LineRead, Gather, Numbering, Fits, Captured, Read, EndingNums,
         HasBytes, Numbered, Still, EndNumber, FateOf, Records, Trailing, Spared, Offset;
    if nums[k] in EndingNums(stored, nums) {
      var j := EndingNumsEnd(stored, nums, nums[k]);
      assert false;
    }
    var g := Gather(stored, []);
    GatheredImage(m0, size, lines, nums, stored, g);
    if nums[k] == EndNumber(Numbers(stored), 0) {
      EndServed(m, g.segs, Numbers(stored), g.tail, IMAGE_DATA_START + Offset(g.segs, |g.segs|));
    } else {
      NoOtherRecord(m, g.segs, Numbers(stored), g.tail, nums[k]);
    }
  }

  // ---------- what a decoder makes of it ----------

  /** Line `a`, with `x` for the second byte of its marker, run together with `b`. */
  function Joined(a: seq<byte>, x: byte, b: seq<byte>): seq<byte>
    requires a != []
  {
    a[..|a| - 1] + [x] + b
  }

  /** Decoding stops at the end of the first line, whatever non-zero byte stands where its marker byte is missing. */
  lemma JoinedDecodesFirst(tables: Tables, decoders: Decoders, s: Strip, line: nat, x: byte, b: seq<byte>)
    requires TablesOk(tables) && Matches(tables, decoders) && x != 0
    ensures EncodedLine(tables, s, line) != []
    ensures DecodeLine(decoders, Joined(EncodedLine(tables, s, line), x, b), BLOCKS_PER_LINE) ==
            Some(LineBlocks(tables, s, line))
  {
    hide Matches, LineBlocks, BytesToBits, DecodeBlocks, Unstuff, Stuff, Pack, LineBits, TablesOk;
    LineLengthBound(tables, s, line);
    StripRoundTrip(tables, decoders, s, line, []);
    var a := EncodedLine(tables, s, line);
    assert a + [] == a;
    TablesOkIsFull(tables);
    LineBlocksSound(tables, s, line);
    var data := Pack(Padded(LineBits(tables, LineBlocks(tables, s, line), 0, RESET)));
    var marker: byte := 0xD0 + line % 8 % 8;
    assert a == Stuff(data) + [0xFF, marker];
    UnstuffInvertsStuff(data, marker, []);
    assert Stuff(data) + [0xFF, marker] + [] == a;
    UnstuffInvertsStuff(data, x, b);
    assert Stuff(data) + [0xFF, x] + b == Joined(a, x, b);
  }

  lemma StoredJoined(m0: Memory, pos: nat, line: seq<byte>, size: nat, rest: seq<byte>)
    requires size > 0 && line != []
    ensures var s := AsStored(m0, pos, line, size); s + rest == Joined(line, LastByte(s), rest)
  {
    var s := AsStored(m0, pos, line, size);
    assert s == line[..|line| - 1] + [LastByte(s)];
  }

  lemma BeginsWith(a: seq<byte>, b: seq<byte>, rest: seq<byte>)
    requires a <= b
    ensures b + rest == a + (b[|a|..] + rest)
  {
    assert b == a + b[|a|..];
  }

  lemma StoredDecodes(m0: Memory, pos: nat, tables: Tables, decoders: Decoders, s: Strip, n: nat, size: nat,
                      served: seq<byte>, rest: seq<byte>)
    requires TablesOk(tables) && Matches(tables, decoders) && size >= 2
    requires var a := AsStored(m0, pos, EncodedLine(tables, s, n), size); a != [] && a <= served && LastByte(a) != 0
    ensures DecodeLine(decoders, served + rest, BLOCKS_PER_LINE) == Some(LineBlocks(tables, s, n))
  {
    hide TablesOk, Matches, EncodedLine, LineBlocks, DecodeLine, Joined, AsStored, LastByte;
    var line := EncodedLine(tables, s, n);
    var a := AsStored(m0, pos, line, size);
    BeginsWith(a, served, rest);
    StoredJoined(m0, pos, line, size, served[|a|..] + rest);
    JoinedDecodesFirst(tables, decoders, s, n, LastByte(a), served[|a|..] + rest);
  }

  /**
   Whatever is served from line `k` on, a decoder finds the blocks of the first line of its run in it, unless the stale byte
   of that line is zero and so looks like stuffing.
   */
  lemma FirstOfRunDecoded(m0: Memory, size: nat, tables: Tables, decoders: Decoders, strips: seq<Strip>, nums: seq<nat>,
                          stored: seq<seq<byte>>, k: nat, i: nat, rest: seq<byte>)
    requires size >= 2 && Whole(stored) && k < |stored| && i == RunStart(stored, k) && LastByte(stored[i]) != 0
    requires TablesOk(tables) && Matches(tables, decoders) && |strips| == |nums| == |stored|
    requires stored == AllStored(m0, IMAGE_DATA_START, CaptureLines(tables, strips, nums), size)
    ensures DecodeLine(decoders, Served(stored, [], k) + rest, BLOCKS_PER_LINE) == Some(LineBlocks(tables, strips[i], nums[i]))
  {
    hide TablesOk, Matches, EncodedLine, LineBlocks, DecodeLine, AllStored, Served, AsStored, LastByte, RunStart;
    var lines := CaptureLines(tables, strips, nums);
    RunComesFirst(stored, k);
    StoredAt(m0, IMAGE_DATA_START, lines, size, i);
    StoredDecodes(m0, IMAGE_DATA_START + Offset(lines, i), tables, decoders, strips[i], nums[i], size, Served(stored, [], k), rest);
  }
}
