/**
 A capture as the camera thread runs it: `jpeg_init`, one `encode_line_yuv` per strip in order, `jpeg_close`. The strips
 come from hardware, so they are a parameter.
 */
module Capture {
  import opened Bits
  import opened BlockCoding
  import opened LineCoding
  import opened Strip
  import opened Mram
  import opened OutputStore
  import opened LineIndex
  import opened IndexCorrectness
  import opened Wrappers
  import opened BitWriter
  import opened JpegEncoder
  import opened EndToEnd

  lemma {:induction false} PutLinesAppend(s: Store, lines: seq<seq<byte>>, line: seq<byte>, size: nat)
    ensures PutLines(s, lines + [line], size) == PutLine(PutLines(s, lines, size), line, size)
    decreases |lines|
  {
    if lines == [] {
      assert lines + [line] == [line] && [line][1..] == [];
    } else {
      assert (lines + [line])[1..] == lines[1..] + [line];
      PutLinesAppend(PutLine(s, lines[0], size), lines[1..], line, size);
    }
  }

  lemma OneMoreLine(tables: Tables, strips: seq<Strip>, line: nat, s: Store, size: nat)
    requires TablesOk(tables) && line < |strips|
    ensures var lines := CaptureLines(tables, strips, InOrder(|strips|));
            PutLines(s, lines[..line + 1], size) ==
            PutLine(PutLines(s, lines[..line], size), EncodedLine(tables, strips[line], line), size)
  {
    hide TablesOk, EncodedLine, PutLine, PutLines;
    var lines := CaptureLines(tables, strips, InOrder(|strips|));
    assert lines[..line + 1] == lines[..line] + [lines[line]];
    PutLinesAppend(s, lines[..line], lines[line], size);
  }

  /** At a line start the store is that of the last marker. */
  lemma AtLineStart(e: Encoder)
    requires e.Valid() && e.bitbuf.bits == []
    ensures e.bitbuf.out.State() == e.bitbuf.base
  {
    assert e.bitbuf.whole == [];
    assert Stuff(Pack([])) == [];
  }

  /** The capture loop: what ends up in the store is the image of all lines in order and the EOI marker. */
  method CaptureImage(e: Encoder, strips: seq<Strip>)
    requires e.Valid() && e.bitbuf.bits == []
    modifies e`dc, e.y0, e.y1, e.cb, e.cr, e.bitbuf, e.bitbuf.out, e.bitbuf.out.jpgbuff, e.bitbuf.out.flash.cells
    ensures e.Valid() && e.bitbuf.bits == [] && e.bitbuf.base == e.bitbuf.out.State()
    ensures e.bitbuf.base ==
            PutLines(old(e.bitbuf.base), CaptureLines(e.tables, strips, InOrder(|strips|)) + [EOI], e.bitbuf.out.Size())
  {
    hide TablesOk, EncodedLine, PutLine, PutLines, CaptureLines;
    e.ResetDc();
    ghost var base, lines, size := e.bitbuf.base, CaptureLines(e.tables, strips, InOrder(|strips|)), e.bitbuf.out.Size();
    NoLinesYet(base, lines, size);
    var line: nat := 0;
    while line < |strips|
      invariant line <= |strips| && e.Valid() && e.bitbuf.bits == [] && e.dc == RESET
      invariant e.bitbuf.base == PutLines(base, lines[..line], size)
    {
      OneMoreLine(e.tables, strips, line, base, size);
      e.EncodeLineYuv(strips[line], line);
      line := line + 1;
    }
    assert lines[..line] == lines;
    PutLinesAppend(base, lines, EOI, size);
    e.JpegClose();
    AtLineStart(e);
  }

  lemma NoLinesYet(s: Store, lines: seq<seq<byte>>, size: nat)
    ensures PutLines(s, lines[..0], size) == s
  {
  }

  lemma StoredImage(m0: Memory, lines: seq<seq<byte>>, size: nat, s: Store)
    requires s == PutLines(Store(m0, [], IMAGE_DATA_START), lines + [EOI], size)
    ensures s.mram == Captured(m0, lines, size)
  {
  }

  lemma ShortEnough(tables: Tables, s: Strip, line: nat)
    requires TablesOk(tables)
    ensures |EncodedLine(tables, s, line)| <= 61482
  {
    LineLengthBound(tables, s, line);
  }

  /**
   A capture, the index and the reader in one run on one memory: from a store at the start of the image, with an image that
   fits and loses nothing, the bytes served for line `k` decode to exactly its quantised blocks.
   */
  method CaptureAndServe(e: Encoder, strips: seq<Strip>, k: nat, data: array<byte>, ghost decoders: Decoders)
    returns (len: nat)
    requires e.Valid() && e.bitbuf.bits == [] && Matches(e.tables, decoders) && k < |strips| <= 63
    requires e.bitbuf.out.jpgn == 0 && e.bitbuf.out.fileAddr == IMAGE_DATA_START
    requires var lines := CaptureLines(e.tables, strips, InOrder(|strips|));
             Fits(lines) && LossHarmless(e.bitbuf.out.flash.Contents(), lines, e.bitbuf.out.Size())
    requires data.Length >= 61482 && data != e.bitbuf.out.flash.cells && data != e.bitbuf.out.jpgbuff
    modifies data
    modifies e`dc, e.y0, e.y1, e.cb, e.cr, e.bitbuf, e.bitbuf.out, e.bitbuf.out.jpgbuff, e.bitbuf.out.flash.cells
    ensures len <= data.Length && TablesOk(e.tables)
    ensures data[..len] == EncodedLine(e.tables, strips[k], k)
    ensures DecodeLine(decoders, data[..len], BLOCKS_PER_LINE) == Some(LineBlocks(e.tables, strips[k], k))
  {
    hide TablesOk, EncodedLine, PutLine, PutLines, CaptureLines, Matches, LineBlocks, Scan, IndexRun, Indexed, LineRead,
         DecodeLine, LossHarmless, Captured, Fits;
    ghost var flash, size, tables := e.bitbuf.out.flash, e.bitbuf.out.Size(), e.tables;
    ghost var m0, lines := flash.Contents(), CaptureLines(tables, strips, InOrder(|strips|));
    AtLineStart(e);
    assert e.bitbuf.out.State() == Store(m0, [], IMAGE_DATA_START);
    CaptureImage(e, strips);
    StoredImage(m0, lines, size, e.bitbuf.base);
    AllServed(m0, size, tables, decoders, strips, k, lines);
    ShortEnough(tables, strips[k], k);
    var _ := GenerateLineIndex(e.bitbuf.out.flash, MRAM_SIZE);
    len := ReadLineFromSpi(e.bitbuf.out.flash, k, data);
  }

  lemma AllServed(m0: Memory, size: nat, tables: Tables, decoders: Decoders, strips: seq<Strip>, k: nat, lines: seq<seq<byte>>)
    requires TablesOk(tables) && Matches(tables, decoders) && size >= 2 && k < |strips| <= 63
    requires lines == CaptureLines(tables, strips, InOrder(|strips|)) && Fits(lines) && LossHarmless(m0, lines, size)
    ensures var m, bytes := Captured(m0, lines, size), EncodedLine(tables, strips[k], k);
            && IndexRun(m, IMAGE_DATA_START, IMAGE_DATA_START, 0, MRAM_SIZE).Some?
            && LineRead(IndexRun(m, IMAGE_DATA_START, IMAGE_DATA_START, 0, MRAM_SIZE).value.0, k) == (bytes, |bytes|)
            && DecodeLine(decoders, bytes, BLOCKS_PER_LINE) == Some(LineBlocks(tables, strips[k], k))
  {
    hide TablesOk, EncodedLine, Matches, LineBlocks, Scan, IndexRun, Indexed, LineRead, DecodeLine, LossHarmless, Captured, Fits;
    InOrderIsNumbered(|strips|, 0);
    assert InOrder(|strips|)[0..] == InOrder(|strips|);
    LineServed(m0, size, tables, decoders, strips, InOrder(|strips|), k);
  }
}
