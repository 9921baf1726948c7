/**
 The output side of jpegenc.c: `writebyte` with its buffer, and the bit buffer of `writebits` and `flushbits`.
 */
module BitWriter {
  import opened Bits
  import opened Mram
  import opened OutputStore
  import opened LineCoding

  lemma {:induction false} PutBytesAppend(s: Store, a: seq<byte>, b: seq<byte>, size: nat)
    ensures PutBytes(s, a + b, size) == PutBytes(PutBytes(s, a, size), b, size)
    decreases |a|
  {
    if a == [] {
      assert a + b == b;
    } else {
      assert (a + b)[1..] == a[1..] + b;
      PutBytesAppend(PutByte(s, a[0], size), a[1..], b, size);
    }
  }

  lemma PutOne(s: Store, b: byte, size: nat)
    ensures PutBytes(s, [b], size) == PutByte(s, b, size)
  {
    assert [b][1..] == [];
  }

  /** `jpgbuff`, `jpgn`, `file_addr_ptr` and the memory they feed. */
  class ByteWriter {
    const flash: Flash
    const jpgbuff: array<byte>
    var jpgn: nat
    var fileAddr: nat

    ghost predicate Valid()
      reads this
    {
      && flash.Valid() && jpgbuff != flash.cells
      && 2 <= jpgbuff.Length < UINT32 && jpgn < jpgbuff.Length && fileAddr < UINT32
    }

    ghost function State(): Store
      reads this, jpgbuff, flash.cells
      requires Valid()
    {
      Store(flash.Contents(), jpgbuff[..jpgn], fileAddr)
    }

    ghost function Size(): nat {
      jpgbuff.Length
    }

    /** A buffer of `size` bytes (256 in a release build, else 128) in front of the memory from `start` on. */
    constructor (flash: Flash, size: nat, start: nat)
      requires flash.Valid() && 2 <= size < UINT32 && start < UINT32
      ensures Valid() && this.flash == flash && fresh(jpgbuff) && Size() == size
      ensures State() == Store(flash.Contents(), [], start)
    {
      this.flash := flash;
      jpgbuff := new byte[size](_ => 0);
      jpgn, fileAddr := 0, start;
    }

    /** `write_jpeg` on the first `n` bytes of the buffer. */
    method WriteJpeg(n: nat)
      requires Valid() && n <= jpgbuff.Length
      modifies this`fileAddr, flash.cells
      ensures Valid() && fileAddr == (old(fileAddr) + n) % UINT32
      ensures flash.Contents() == Written(old(flash.Contents()), old(fileAddr), jpgbuff[..n])
    {
      flash.WriteBytes(fileAddr, jpgbuff[..n]);
      fileAddr := (fileAddr + n) % UINT32;
    }

    /** `writebyte`. */
    method WriteByte(b: byte)
      requires Valid()
      modifies this, jpgbuff, flash.cells
      ensures Valid() && State() == PutByte(old(State()), b, Size())
    {
      ghost var s := State().(pending := State().pending + [b]);
      jpgbuff[jpgn] := b;
      assert jpgbuff[..jpgn + 1] == s.pending;
      if jpgn + 1 == jpgbuff.Length {
        jpgn := 0;
        WriteJpeg(jpgbuff.Length);
        assert jpgbuff[..0] == [];
      } else {
        jpgn := jpgn + 1;
      }
    }

    /** `write_jpeg(jpgbuff, jpgn); jpgn = 0;` as `write_RSI` and `huffman_stop` do. */
    method Drain()
      requires Valid()
      modifies this, flash.cells
      ensures Valid() && State() == OutputStore.Drain(old(State()))
    {
      WriteJpeg(jpgn);
      jpgn := 0;
      assert jpgbuff[..0] == [];
    }
  }

  // ---------- the bit buffer ----------

  /** `(buf << nbits) | (bits & ((1 << nbits) - 1))` in 32 bits: the low bits of the shifted value are zero, so `|` adds. */
  function Shifted(buf: nat, v: int, nbits: nat): nat {
    buf * Pow2(nbits) % UINT32 + v % Pow2(nbits)
  }

  lemma ShiftWraps(buf: nat, d: nat, e: nat)
    requires d > 0 && e > 0
    ensures buf * d % (d * e) == d * (buf % e)
  {
    var q, r := buf / e, buf % e;
    ScaledRemainder(r, d, e);
    assert buf * d == (d * e) * q + d * r by {
      assert buf == e * q + r;
      assert (e * q + r) * d == (e * q) * d + r * d;
      assert (e * q) * d == (d * e) * q;
    }
    DivModUnique(buf * d, d * e, q, d * r);
  }

  lemma ScaledRemainder(r: nat, d: nat, e: nat)
    requires r < e && d > 0
    ensures 0 <= d * r <= d * e - d
  {
    MulMono(r, e - 1, d);
    assert (e - 1) * d == d * e - d;
  }

  /** The two parts of a shifted buffer, for any width `w` that holds `n + nbits` bits. */
  lemma ShiftedParts(buf: nat, v: int, nbits: nat, w: nat, shifted: nat)
    requires nbits <= w && shifted == buf * Pow2(nbits) % Pow2(w) + v % Pow2(nbits)
    ensures shifted / Pow2(nbits) == buf % Pow2(w - nbits) && shifted % Pow2(nbits) == v % Pow2(nbits)
    ensures shifted < Pow2(w)
  {
    var d, e := Pow2(nbits), Pow2(w - nbits);
    Pow2Add(nbits, w - nbits);
    ShiftWraps(buf, d, e);
    ScaledRemainder(buf % e, d, e);
    DivModUnique(shifted, d, buf % e, v % d);
  }

  lemma ShiftedBits(buf: nat, n: nat, v: int, nbits: nat, w: nat, shifted: nat)
    requires n + nbits <= w && shifted == buf * Pow2(nbits) % Pow2(w) + v % Pow2(nbits)
    ensures BitsOf(shifted, n + nbits) == BitsOf(buf, n) + BitsOf(v, nbits)
  {
    ShiftedParts(buf, v, nbits, w, shifted);
    BitsSplit(shifted, n, nbits);
    BitsMod(shifted, nbits, nbits);
    BitsMod(v, nbits, nbits);
    BitsMod(buf, n, w - nbits);
  }

  /**
   Whatever stale bits `buf` holds above its low `n`, after the shift the low `n + nbits` bits are the old ones followed
   by the new ones: nothing is lost in 32 bits.
   */
  lemma ShiftKeepsBits(buf: nat, n: nat, v: int, nbits: nat)
    requires n < 8 && nbits <= 16
    ensures BitsOf(Shifted(buf, v, nbits), n + nbits) == BitsOf(buf, n) + BitsOf(v, nbits)
    ensures Shifted(buf, v, nbits) < UINT32
  {
    Width32();
    ShiftedBits(buf, n, v, nbits, 32, Shifted(buf, v, nbits));
    ShiftedParts(buf, v, nbits, 32, Shifted(buf, v, nbits));
  }

  /** The byte the loop of `writebits` takes off when `total + 8` bits are pending. */
  function TopByte(buf: nat, total: nat): byte {
    buf / Pow2(total) % 256
  }

  lemma TopByteBits(buf: nat, total: nat)
    ensures BitsOf(buf, total + 8) == BitsOf(TopByte(buf, total), 8) + BitsOf(buf, total)
  {
    BitsSplit(buf, 8, total);
    BitsMod(buf / Pow2(total), 8, 8);
    assert Pow2(8) == 256;
  }

  lemma TakeByte(bits: seq<bool>, whole: seq<bool>, buf: nat, total: nat, b: byte)
    requires bits == whole + BitsOf(buf, total + 8) && b == TopByte(buf, total)
    ensures bits == (whole + BitsOf(b, 8)) + BitsOf(buf, total)
  {
    TopByteBits(buf, total);
  }

  /** Packing whole bytes: one more byte of bits is one more, possibly stuffed, byte of output. */
  lemma StuffPackByte(bits: seq<bool>, b: byte)
    requires |bits| % 8 == 0
    ensures Stuff(Pack(bits + BitsOf(b, 8))) == Stuff(Pack(bits)) + StuffByte(b)
  {
    PackAppend(bits, BitsOf(b, 8));
    PackByte(b);
    StuffAppend(Pack(bits), [b]);
    assert Stuff([b]) == StuffByte(b) by {
      assert [b][1..] == [];
      assert StuffByte(b) + Stuff([]) == StuffByte(b);
    }
  }

  lemma PendingCount(whole: seq<bool>, left: seq<bool>)
    requires |whole| % 8 == 0 && |left| < 8
    ensures |whole + left| % 8 == |left| && PadLength(|whole + left|) == if left == [] then 0 else 8 - |left|
  {
  }

  /** `bitbuf` in front of the byte writer. */
  class BitBuffer {
    const out: ByteWriter
    var buf: nat
    var n: nat
    // The bits written since the last marker, those of them already in the output, and the output at that marker.
    ghost var bits: seq<bool>
    ghost var whole: seq<bool>
    ghost var base: Store

    /** All of `bits` but the `n` still in `buf` is in the output, packed and stuffed. */
    ghost predicate Valid()
      reads this, out, out.jpgbuff, out.flash.cells
    {
      && out.Valid() && buf < UINT32 && n < 8
      && bits == whole + BitsOf(buf, n)
      && Written(whole)
    }

    ghost predicate Written(done: seq<bool>)
      reads this, out, out.jpgbuff, out.flash.cells
      requires out.Valid()
    {
      |done| % 8 == 0 && out.State() == PutBytes(base, Stuff(Pack(done)), out.Size())
    }

    constructor (out: ByteWriter)
      requires out.Valid()
      ensures Valid() && this.out == out && bits == [] && base == out.State()
    {
      this.out := out;
      buf, n := 0, 0;
      bits, whole, base := [], [], out.State();
      new;
      assert [] + BitsOf(buf, n) == [];
    }

    /** Writes a byte of entropy-coded data, with the stuffed zero after 0xFF. */
    method WriteStuffed(b: byte, ghost done: seq<bool>)
      requires out.Valid() && Written(done)
      modifies out, out.jpgbuff, out.flash.cells
      ensures out.Valid() && Written(done + BitsOf(b, 8))
    {
      ghost var s0 := out.State();
      out.WriteByte(b);
      PutOne(s0, b, out.Size());
      if b == 0xFF {
        PutOne(out.State(), 0, out.Size());
        out.WriteByte(0);
        PutBytesAppend(s0, [0xFF], [0], out.Size());
        assert [0xFF] + [0] == [0xFF, 0];
      }
      StuffPackByte(done, b);
      PutBytesAppend(base, Stuff(Pack(done)), StuffByte(b), out.Size());
    }

    /** The loop of `writebits`: takes whole bytes off the `pending` low bits of `buf`. */
    method FlushWholeBytes(pending: nat)
      requires out.Valid() && buf < UINT32 && bits == whole + BitsOf(buf, pending) && Written(whole)
      modifies this`n, this`whole, out, out.jpgbuff, out.flash.cells
      ensures Valid()
    {
      hide Pow2, BitsOf, TopByte, Pack, Stuff, PutBytes;
      var nbits: nat := pending;
      while nbits >= 8
        invariant out.Valid() && bits == whole + BitsOf(buf, nbits) && Written(whole)
      {
        nbits := nbits - 8;
        var b := TopByte(buf, nbits);
        TakeByte(bits, whole, buf, nbits, b);
        WriteStuffed(b, whole);
        whole := whole + BitsOf(b, 8);
      }
      n := nbits;
    }

    /** `writebits`: appends the low `nbits` bits of `v`. */
    method WriteBits(v: int, nbits: nat)
      requires Valid() && nbits <= 16
      modifies this, out, out.jpgbuff, out.flash.cells
      ensures Valid() && bits == old(bits) + BitsOf(v, nbits) && base == old(base)
    {
      hide BitsOf, Shifted, Pack, Stuff, PutBytes;
      ShiftKeepsBits(buf, n, v, nbits);
      assert whole + BitsOf(buf, n) + BitsOf(v, nbits) == whole + (BitsOf(buf, n) + BitsOf(v, nbits));
      bits := bits + BitsOf(v, nbits);
      buf := Shifted(buf, v, nbits);
      FlushWholeBytes(n + nbits);
    }

    /** `flushbits`: ones up to the next byte boundary, leaving nothing pending. */
    method FlushBits()
      requires Valid()
      modifies this, out, out.jpgbuff, out.flash.cells
      ensures Valid() && bits == Padded(old(bits)) && base == old(base) && n == 0 && whole == bits
    {
      PendingCount(whole, BitsOf(buf, n));
      if n != 0 {
        OnesBits(8 - n);
        WriteBits(0xFF, 8 - n);
      } else {
        assert bits + Ones(0) == bits;
      }
      PendingCount(whole, BitsOf(buf, n));
      assert n == 0;
      assert whole + [] == whole;
    }

    /** The two bytes of a marker and the drain after it, which end a line or the image. */
    method EndSegment(marker: byte)
      requires Valid()
      modifies this, out, out.jpgbuff, out.flash.cells
      ensures Valid() && bits == [] && base == out.State()
      ensures base == PutLine(old(base), Stuff(Pack(Padded(old(bits)))) + [0xFF, marker], out.Size())
    {
      FlushBits();
      ghost var data, s := Stuff(Pack(bits)), out.State();
      out.WriteByte(0xFF);
      out.WriteByte(marker);
      PutOne(s, 0xFF, out.Size());
      PutOne(PutByte(s, 0xFF, out.Size()), marker, out.Size());
      PutBytesAppend(s, [0xFF], [marker], out.Size());
      assert [0xFF] + [marker] == [0xFF, marker];
      PutBytesAppend(base, data, [0xFF, marker], out.Size());
      out.Drain();
      bits, whole, base := [], [], out.State();
      assert [] + BitsOf(buf, n) == [];
    }

    /** `write_RSI`, but for the reset of the DC predictors. */
    method WriteRsi(rst: nat)
      requires Valid()
      modifies this, out, out.jpgbuff, out.flash.cells
      ensures Valid() && bits == [] && base == out.State()
      ensures base == PutLine(old(base), SegmentBytes(old(bits), rst), out.Size())
    {
      EndSegment(0xD0 + rst % 8);
    }

    /** `huffman_stop`. */
    method Stop()
      requires Valid()
      modifies this, out, out.jpgbuff, out.flash.cells
      ensures Valid() && bits == [] && base == out.State()
      ensures base == PutLine(old(base), Stuff(Pack(Padded(old(bits)))) + EOI, out.Size())
    {
      EndSegment(0xD9);
    }
  }

  lemma {:induction false} OnesBits(k: nat)
    requires k < 8
    ensures BitsOf(0xFF, k) == Ones(k)
  {
    if k > 0 {
      OnesBits(k - 1);
      OnesTop(k - 1);
      assert [true] + Ones(k - 1) == Ones(k);
    }
  }

  lemma OnesTop(k: nat)
    requires k < 7
    ensures 0xFF / Pow2(k) % 2 == 1
  {
    assert Pow2(0) == 1 && Pow2(1) == 2 && Pow2(2) == 4 && Pow2(3) == 8 && Pow2(4) == 16 && Pow2(5) == 32 && Pow2(6) == 64;
    match k
    case 0 =>
    case 1 =>
    case 2 =>
    case 3 =>
    case 4 =>
    case 5 =>
    case _ =>
  }
}
