/**
 From the encoder's output bytes to MRAM: the `jpgbuff`/`jpgn` buffer of jpegenc.c and `write_jpeg` of encoder.c.

 `flashWriteBytes` ignores writes of fewer than two bytes, but `write_jpeg` advances the address all the same, so a
 line that leaves exactly one byte in the buffer loses that byte: the second byte of its restart marker.
 */
module OutputStore {
  import opened Bits
  import opened Mram

  /** The state between two bytes: the memory, the buffered bytes, and `file_addr_ptr`. */
  datatype Store = Store(mram: Memory, pending: seq<byte>, addr: nat)

  /** `write_jpeg(jpgbuff, jpgn); jpgn = 0;` */
  function Drain(s: Store): Store {
    Store(Written(s.mram, s.addr, s.pending), [], (s.addr + |s.pending|) % UINT32)
  }

  /** `writebyte`, for a buffer of `size` bytes. */
  function PutByte(s: Store, b: byte, size: nat): Store {
    var s' := s.(pending := s.pending + [b]);
    if |s'.pending| == size then Drain(s') else s'
  }

  function PutBytes(s: Store, bytes: seq<byte>, size: nat): Store
    decreases |bytes|
  {
    if bytes == [] then s else PutBytes(PutByte(s, bytes[0], size), bytes[1..], size)
  }

  /** A line, or the EOI marker: its bytes, then the drain that `write_RSI` and `huffman_stop` end with. */
  function PutLine(s: Store, line: seq<byte>, size: nat): Store {
    Drain(PutBytes(s, line, size))
  }

  function PutLines(s: Store, lines: seq<seq<byte>>, size: nat): Store
    decreases |lines|
  {
    if lines == [] then s else PutLines(PutLine(s, lines[0], size), lines[1..], size)
  }

  function Flatten(lines: seq<seq<byte>>): seq<byte>
    decreases |lines|
  {
    if lines == [] then [] else lines[0] + Flatten(lines[1..])
  }

  const EOI: seq<byte> := [0xFF, 0xD9]

  /** A line of this length leaves one byte in the buffer: the second byte of its marker. */
  predicate LosesMarker(line: seq<byte>, size: nat)
    requires size > 0
  {
    line != [] && |line| % size == 1
  }

  function LineLoss(line: seq<byte>, from: nat, size: nat): set<nat>
    requires size > 0
  {
    if LosesMarker(line, size) then {from + |line| - 1} else {}
  }

  /** Positions, counted from the start of the image, of the bytes that are never stored. */
  function Lost(lines: seq<seq<byte>>, from: nat, size: nat): set<nat>
    requires size > 0
    decreases |lines|
  {
    if lines == [] then {}
    else LineLoss(lines[0], from, size) + Lost(lines[1..], from + |lines[0]|, size)
  }

  /**
   The memory holds `stream` from `start` on as far as it has been drained, except at the `lost` positions, and is
   unchanged from `m0` everywhere else; the buffer holds the end of the stream.
   */
  ghost predicate Holds(s: Store, m0: Memory, start: nat, stream: seq<byte>, lost: set<nat>) {
    && |s.pending| <= |stream|
    && s.addr == start + |stream| - |s.pending|
    && s.pending == stream[|stream| - |s.pending|..]
    && start + |stream| <= FLASH_HIGH_ADDR && |stream| <= MRAM_SIZE
    && forall a :: 0 <= a < MRAM_SIZE ==> s.mram[a] == CellAfter(m0, start, stream[..|stream| - |s.pending|], lost, a)
  }

  /** Cell `a` after `stored` has been written from `start` on, wrapping at the top, except at the `lost` positions. */
  function CellAfter(m0: Memory, start: nat, stored: seq<byte>, lost: set<nat>, a: nat): byte
    requires a < MRAM_SIZE
  {
    var i := Ahead(start, a);
    if i < |stored| && i !in lost then stored[i] else m0[a]
  }

  lemma AheadLater(start: nat, k: nat, a: nat)
    requires k <= MRAM_SIZE && a < MRAM_SIZE
    ensures Ahead(start + k, a) == if k <= Ahead(start, a) then Ahead(start, a) - k else Ahead(start, a) - k + MRAM_SIZE
  {
  }

  lemma DrainedCell(m: Memory, m0: Memory, start: nat, stream: seq<byte>, k: nat, lost: set<nat>, a: nat)
    requires k <= |stream| <= MRAM_SIZE && a < MRAM_SIZE && m[a] == CellAfter(m0, start, stream[..k], lost, a)
    requires forall i :: i in lost ==> i < k
    ensures Overlay(m, start + k, stream[k..])[a] == CellAfter(m0, start, stream, lost, a)
  {
    hide Ahead, Overlay;
    OverlayWraps(m, start + k, stream[k..], a);
    AheadLater(start, k, a);
  }

  lemma DrainKeeps(s: Store, m0: Memory, start: nat, stream: seq<byte>, lost: set<nat>)
    requires Holds(s, m0, start, stream, lost) && |s.pending| != 1
    requires forall i :: i in lost ==> i < |stream| - |s.pending|
    ensures Holds(Drain(s), m0, start, stream, lost)
  {
    hide Ahead, Overlay, CellAfter;
    var s', n := Drain(s), |s.pending|;
    var k := |stream| - n;
    assert stream[..|stream|] == stream;
    forall a | 0 <= a < MRAM_SIZE
      ensures s'.mram[a] == CellAfter(m0, start, stream, lost, a)
    {
      assert s.mram[a] == CellAfter(m0, start, stream[..k], lost, a);
      if n >= 2 {
        assert !Refused(s.addr, n);
        DrainedCell(s.mram, m0, start, stream, k, lost, a);
      } else {
        assert s'.mram == s.mram;
      }
    }
  }

  lemma DrainLoses(s: Store, m0: Memory, start: nat, stream: seq<byte>, lost: set<nat>)
    requires Holds(s, m0, start, stream, lost) && |s.pending| == 1
    ensures Holds(Drain(s), m0, start, stream, lost + {|stream| - 1})
  {
    assert stream[..|stream|] == stream;
  }

  lemma PutByteKeeps(s: Store, b: byte, size: nat, m0: Memory, start: nat, stream: seq<byte>, lost: set<nat>)
    requires Holds(s, m0, start, stream, lost) && |s.pending| < size && size >= 2
    requires start + |stream| + 1 <= FLASH_HIGH_ADDR && |stream| + 1 <= MRAM_SIZE
    requires forall i :: i in lost ==> i < |stream| - |s.pending|
    ensures var s' := PutByte(s, b, size);
            && Holds(s', m0, start, stream + [b], lost) && |s'.pending| == (|s.pending| + 1) % size
            && |s'.pending| < size
            && forall i :: i in lost ==> i < |stream| + 1 - |s'.pending|
  {
    var s', k := s.(pending := s.pending + [b]), |stream| - |s.pending|;
    assert (stream + [b])[k..] == s'.pending;
    assert (stream + [b])[..k] == stream[..k];
    assert Holds(s', m0, start, stream + [b], lost);
    if |s'.pending| == size {
      DrainKeeps(s', m0, start, stream + [b], lost);
      DivModUnique(size, size, 1, 0);
    } else {
      DivModUnique(|s'.pending|, size, 0, |s'.pending|);
    }
  }

  lemma {:induction false} PutBytesKeeps(s: Store, bytes: seq<byte>, size: nat, m0: Memory, start: nat, stream: seq<byte>,
                                         lost: set<nat>)
    requires Holds(s, m0, start, stream, lost) && |s.pending| < size && size >= 2
    requires start + |stream| + |bytes| <= FLASH_HIGH_ADDR && |stream| + |bytes| <= MRAM_SIZE
    requires forall i :: i in lost ==> i < |stream| - |s.pending|
    ensures var s' := PutBytes(s, bytes, size);
            && Holds(s', m0, start, stream + bytes, lost) && |s'.pending| == (|s.pending| + |bytes|) % size
            && |s'.pending| < size
            && forall i :: i in lost ==> i < |stream| + |bytes| - |s'.pending|
    decreases |bytes|
  {
    if bytes == [] {
      assert stream + bytes == stream;
      DivModUnique(|s.pending|, size, 0, |s.pending|);
    } else {
      PutByteKeeps(s, bytes[0], size, m0, start, stream, lost);
      var s' := PutByte(s, bytes[0], size);
      PutBytesKeeps(s', bytes[1..], size, m0, start, stream + [bytes[0]], lost);
      assert stream + [bytes[0]] + bytes[1..] == stream + bytes;
      ModStep(|s.pending|, |bytes|, size);
    }
  }

  lemma ModStep(p: nat, n: nat, size: nat)
    requires size > 0 && n > 0
    ensures ((p + 1) % size + (n - 1)) % size == (p + n) % size
  {
    var q := (p + 1) / size;
    DivAddMultiple((p + 1) % size + (n - 1), size, q);
    assert (p + 1) % size + (n - 1) + size * q == p + n;
  }

  lemma PutLineKeeps(s: Store, line: seq<byte>, size: nat, m0: Memory, start: nat, stream: seq<byte>, lost: set<nat>)
    requires Holds(s, m0, start, stream, lost) && s.pending == [] && size >= 2
    requires start + |stream| + |line| <= FLASH_HIGH_ADDR && |stream| + |line| <= MRAM_SIZE && line != []
    requires forall i :: i in lost ==> i < |stream|
    ensures var lost' := lost + LineLoss(line, |stream|, size);
            && Holds(PutLine(s, line, size), m0, start, stream + line, lost')
            && PutLine(s, line, size).pending == []
  {
    PutBytesKeeps(s, line, size, m0, start, stream, lost);
    var s' := PutBytes(s, line, size);
    if |s'.pending| == 1 {
      DrainLoses(s', m0, start, stream + line, lost);
    } else {
      DrainKeeps(s', m0, start, stream + line, lost);
      assert lost + {} == lost;
    }
  }

  lemma {:induction false} PutLinesKeeps(s: Store, lines: seq<seq<byte>>, size: nat, m0: Memory, start: nat,
                                         stream: seq<byte>, lost: set<nat>)
    requires Holds(s, m0, start, stream, lost) && s.pending == [] && size >= 2
    requires start + |stream| + |Flatten(lines)| <= FLASH_HIGH_ADDR && |stream| + |Flatten(lines)| <= MRAM_SIZE
    requires forall i :: i in lost ==> i < |stream|
    requires forall k :: 0 <= k < |lines| ==> lines[k] != []
    ensures Holds(PutLines(s, lines, size), m0, start, stream + Flatten(lines), lost + Lost(lines, |stream|, size))
    ensures PutLines(s, lines, size).pending == []
    decreases |lines|
  {
    if lines == [] {
      assert stream + Flatten(lines) == stream && lost + Lost(lines, |stream|, size) == lost;
    } else {
      var line := lines[0];
      var lost' := lost + LineLoss(line, |stream|, size);
      PutLineKeeps(s, line, size, m0, start, stream, lost);
      PutLinesKeeps(PutLine(s, line, size), lines[1..], size, m0, start, stream + line, lost');
      assert stream + line + Flatten(lines[1..]) == stream + Flatten(lines);
      assert lost' + Lost(lines[1..], |stream| + |line|, size) == lost + Lost(lines, |stream|, size);
    }
  }

  /** All lines of an image and its EOI marker, put from a fresh buffer. */
  function PutImage(m0: Memory, start: nat, lines: seq<seq<byte>>, size: nat): Store {
    PutLines(Store(m0, [], start), lines + [EOI], size)
  }

  function ImageStream(lines: seq<seq<byte>>): seq<byte> {
    Flatten(lines) + EOI
  }

  /** The guard lets the whole image pass, and the image does not overtake itself. */
  predicate Accepted(start: nat, lines: seq<seq<byte>>) {
    start + |ImageStream(lines)| <= FLASH_HIGH_ADDR && |ImageStream(lines)| <= MRAM_SIZE
  }

  lemma {:induction false} FlattenAppend(a: seq<seq<byte>>, b: seq<seq<byte>>)
    ensures Flatten(a + b) == Flatten(a) + Flatten(b)
    decreases |a|
  {
    if a == [] {
      assert a + b == b;
    } else {
      assert (a + b)[1..] == a[1..] + b;
      FlattenAppend(a[1..], b);
    }
  }

  lemma {:induction false} LostAppend(a: seq<seq<byte>>, b: seq<seq<byte>>, from: nat, size: nat)
    requires size > 0
    ensures Lost(a + b, from, size) == Lost(a, from, size) + Lost(b, from + |Flatten(a)|, size)
    decreases |a|
  {
    if a == [] {
      assert a + b == b;
    } else {
      assert (a + b)[1..] == a[1..] + b;
      LostAppend(a[1..], b, from + |a[0]|, size);
    }
  }

  lemma EoiAlone(from: nat, size: nat)
    requires size >= 2
    ensures Flatten([EOI]) == EOI && Lost([EOI], from, size) == {}
  {
    assert [EOI][1..] == [];
    assert |EOI| == 2;
    if size == 2 {
      assert 2 % size == 0;
    } else {
      DivModUnique(2, size, 0, 2);
    }
  }

  /**
   Flash agrees with the stream: after any lines and `huffman_stop`, for an image no larger than the memory that the guard
   lets pass, every cell holds its stream byte except the last byte of the lines whose length is 1 modulo the buffer size;
   those cells, and all cells outside the image, are unchanged. An image that passes the top goes on in cell 0. The EOI
   marker is always stored.
   */
  lemma FlashAgrees(m0: Memory, start: nat, lines: seq<seq<byte>>, size: nat, a: nat)
    requires size >= 2 && a < MRAM_SIZE && Accepted(start, lines)
    requires forall k :: 0 <= k < |lines| ==> lines[k] != []
    ensures PutImage(m0, start, lines, size).mram[a] == CellAfter(m0, start, ImageStream(lines), Lost(lines, 0, size), a)
    ensures PutImage(m0, start, lines, size).addr == start + |ImageStream(lines)|
  {
    ImageHolds(m0, start, lines, size);
  }

  lemma EmptyHolds(m0: Memory, start: nat)
    requires start <= FLASH_HIGH_ADDR
    ensures Holds(Store(m0, [], start), m0, start, [], {})
  {
  }

  lemma ImageHolds(m0: Memory, start: nat, lines: seq<seq<byte>>, size: nat)
    requires size >= 2 && Accepted(start, lines)
    requires forall k :: 0 <= k < |lines| ==> lines[k] != []
    ensures Holds(PutImage(m0, start, lines, size), m0, start, ImageStream(lines), Lost(lines, 0, size))
    ensures PutImage(m0, start, lines, size).pending == []
  {
    var all := lines + [EOI];
    FlattenAppend(lines, [EOI]);
    LostAppend(lines, [EOI], 0, size);
    EoiAlone(|Flatten(lines)|, size);
    assert Flatten(all) == ImageStream(lines) && Lost(all, 0, size) == Lost(lines, 0, size);
    EmptyHolds(m0, start);
    PutLinesKeeps(Store(m0, [], start), all, size, m0, start, [], {});
    assert [] + Flatten(all) == Flatten(all) && {} + Lost(all, 0, size) == Lost(all, 0, size);
  }

  lemma {:induction false} LostBound(lines: seq<seq<byte>>, from: nat, size: nat, i: nat)
    requires size > 0 && i in Lost(lines, from, size)
    ensures from <= i < from + |Flatten(lines)|
    decreases |lines|
  {
    if i !in LineLoss(lines[0], from, size) {
      LostBound(lines[1..], from + |lines[0]|, size, i);
    }
  }

  /** The byte at each position of the stream, as a reader who wraps at the top finds it. */
  lemma StreamByte(m0: Memory, start: nat, lines: seq<seq<byte>>, size: nat, i: nat)
    requires size >= 2 && Accepted(start, lines) && i < |ImageStream(lines)|
    requires forall k :: 0 <= k < |lines| ==> lines[k] != []
    ensures PutImage(m0, start, lines, size).mram[Cell(start + i)] ==
            if i in Lost(lines, 0, size) then m0[Cell(start + i)] else ImageStream(lines)[i]
  {
    hide Ahead, Cell, PutImage, Lost, ImageStream;
    AheadOfCell(start, i);
    FlashAgrees(m0, start, lines, size, Cell(start + i));
  }

  /** The whole stream is in memory exactly when every lost byte happens to be there already. */
  lemma StreamStoredIff(m0: Memory, start: nat, lines: seq<seq<byte>>, size: nat)
    requires size >= 2 && Accepted(start, lines)
    requires forall k :: 0 <= k < |lines| ==> lines[k] != []
    ensures Read(PutImage(m0, start, lines, size).mram, start, |ImageStream(lines)|) == ImageStream(lines) <==>
            forall i | i in Lost(lines, 0, size) :: i < |ImageStream(lines)| && m0[Cell(start + i)] == ImageStream(lines)[i]
  {
    hide Cell, PutImage, Lost, ImageStream;
    var stream, lost := ImageStream(lines), Lost(lines, 0, size);
    var image := Read(PutImage(m0, start, lines, size).mram, start, |stream|);
    forall i | 0 <= i < |stream|
      ensures image[i] == if i in lost then m0[Cell(start + i)] else stream[i]
    {
      StreamByte(m0, start, lines, size, i);
    }
    forall i | i in lost
      ensures i < |stream|
    {
      LostBelowEnd(lines, size, i);
    }
  }

  lemma LostBelowEnd(lines: seq<seq<byte>>, size: nat, i: nat)
    requires size > 0 && i in Lost(lines, 0, size)
    ensures i < |ImageStream(lines)|
  {
    LostBound(lines, 0, size, i);
  }

  lemma {:induction false} NothingLost(lines: seq<seq<byte>>, from: nat, size: nat)
    requires size > 0 && forall k :: 0 <= k < |lines| ==> !LosesMarker(lines[k], size)
    ensures Lost(lines, from, size) == {}
    decreases |lines|
  {
    if lines != [] {
      assert !LosesMarker(lines[0], size);
      NothingLost(lines[1..], from + |lines[0]|, size);
    }
  }

  lemma {:induction false} MarkerLost(lines: seq<seq<byte>>, from: nat, size: nat, k: nat)
    requires size > 0 && k < |lines| && LosesMarker(lines[k], size)
    ensures Lost(lines, from, size) != {}
    decreases |lines|
  {
    if k == 0 {
      assert from + |lines[0]| - 1 in LineLoss(lines[0], from, size);
    } else {
      MarkerLost(lines[1..], from + |lines[0]|, size, k - 1);
    }
  }

  /** No byte is lost if and only if no line's length is 1 modulo the buffer size. */
  lemma NothingLostIff(lines: seq<seq<byte>>, size: nat)
    requires size > 0
    ensures Lost(lines, 0, size) == {} <==> forall k :: 0 <= k < |lines| ==> !LosesMarker(lines[k], size)
  {
    if k :| 0 <= k < |lines| && LosesMarker(lines[k], size) {
      MarkerLost(lines, 0, size, k);
    } else {
      NothingLost(lines, 0, size);
    }
  }
}
