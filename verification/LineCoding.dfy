/**
 One encoded line: 160 blocks of bits, padded with ones, packed into bytes, every 0xFF followed by a stuffed 0x00,
 and a restart marker at the end. The decoder undoes this per ITU-T T.81 sections F.1.2.3 and F.2.2.5.
 */
module LineCoding {
  import opened Bits
  import opened Wrappers
  import opened HuffmanTables
  import opened BlockCoding

  // ---------- bytes and bits ----------

  function BytesToBits(bytes: seq<byte>): seq<bool> {
    if bytes == [] then [] else BitsOf(bytes[0], 8) + BytesToBits(bytes[1..])
  }

  lemma ByteValue(bits: seq<bool>)
    requires |bits| == 8
    ensures 0 <= Value(bits) < 256
  {
    assert Pow2(8) == 256;
  }

  /** The bytes of a bit string; up to seven bits left over at the end are dropped. */
  function Pack(bits: seq<bool>): (bytes: seq<byte>)
    ensures |bytes| == |bits| / 8
  {
    if |bits| < 8 then [] else (ByteValue(bits[..8]); [Value(bits[..8])] + Pack(bits[8..]))
  }

  lemma {:induction false} PackInverse(bits: seq<bool>)
    requires |bits| % 8 == 0
    ensures BytesToBits(Pack(bits)) == bits
  {
    if |bits| >= 8 {
      PackInverse(bits[8..]);
      BitsOfValue(bits[..8]);
      assert Pack(bits)[1..] == Pack(bits[8..]);
      assert bits == bits[..8] + bits[8..];
    }
  }

  lemma PackNothing(a: seq<bool>)
    requires a == []
    ensures Pack(a) == []
  {
  }

  lemma PackFirst(bits: seq<bool>, rest: seq<bool>)
    requires |bits| >= 8 && rest == bits[8..]
    ensures 0 <= Value(bits[..8]) < 256 && Pack(bits) == [Value(bits[..8])] + Pack(rest)
  {
    ByteValue(bits[..8]);
  }

  lemma FirstEight(a: seq<bool>, b: seq<bool>, c: seq<bool>)
    requires |a| >= 8 && c == a + b
    ensures c[..8] == a[..8] && c[8..] == a[8..] + b
  {
  }

  lemma {:induction false} PackAppend(a: seq<bool>, b: seq<bool>)
    requires |a| % 8 == 0
    ensures Pack(a + b) == Pack(a) + Pack(b)
  {
    if a == [] {
      PackNothing(a);
      assert a + b == b;
    } else {
      hide Pack, Value;
      FirstEight(a, b, a + b);
      PackFirst(a, a[8..]);
      PackFirst(a + b, a[8..] + b);
      PackAppend(a[8..], b);
    }
  }

  lemma PackByte(b: byte)
    ensures Pack(BitsOf(b, 8)) == [b]
  {
    var bits := BitsOf(b, 8);
    assert bits[..8] == bits && bits[8..] == [];
    ValueOfBits(b, 8);
    assert Pow2(8) == 256;
  }

  function Ones(n: nat): (ones: seq<bool>)
    ensures |ones| == n && forall i :: 0 <= i < n ==> ones[i]
  {
    seq(n, _ => true)
  }

  function PadLength(n: nat): (k: nat)
    ensures k < 8 && (n + k) % 8 == 0
  {
    (8 - n % 8) % 8
  }

  /** `flushbits`: ones up to the next byte boundary. */
  function Padded(bits: seq<bool>): (p: seq<bool>)
    ensures |p| % 8 == 0
  {
    bits + Ones(PadLength(|bits|))
  }

  // ---------- byte stuffing ----------

  function StuffByte(b: byte): seq<byte> {
    if b == 0xFF then [0xFF, 0] else [b]
  }

  function Stuff(data: seq<byte>): seq<byte> {
    if data == [] then [] else StuffByte(data[0]) + Stuff(data[1..])
  }

  lemma {:induction false} StuffAppend(a: seq<byte>, b: seq<byte>)
    ensures Stuff(a + b) == Stuff(a) + Stuff(b)
  {
    if a == [] {
      assert a + b == b;
    } else {
      assert (a + b)[1..] == a[1..] + b;
      StuffAppend(a[1..], b);
    }
  }

  /** The data bytes before the first marker, and the marker's second byte. */
  function Unstuff(bytes: seq<byte>): Option<(seq<byte>, byte)> {
    if bytes == [] then
      None
    else if bytes[0] != 0xFF then
      var (data, marker) :- Unstuff(bytes[1..]);
      Some(([bytes[0]] + data, marker))
    else if |bytes| == 1 then
      None
    else if bytes[1] == 0 then
      var (data, marker) :- Unstuff(bytes[2..]);
      Some(([0xFF] + data, marker))
    else
      Some(([], bytes[1]))
  }

  lemma {:induction false} UnstuffInvertsStuff(data: seq<byte>, marker: byte, rest: seq<byte>)
    requires marker != 0
    ensures Unstuff(Stuff(data) + [0xFF, marker] + rest) == Some((data, marker))
  {
    var tail := [0xFF, marker] + rest;
    if data == [] {
      assert Stuff(data) + [0xFF, marker] + rest == tail;
    } else {
      UnstuffInvertsStuff(data[1..], marker, rest);
      var more := Stuff(data[1..]) + [0xFF, marker] + rest;
      assert Stuff(data) + [0xFF, marker] + rest == StuffByte(data[0]) + more;
      assert [data[0]] + data[1..] == data;
      if data[0] == 0xFF {
        assert ([0xFF, 0] + more)[2..] == more;
      } else {
        assert ([data[0]] + more)[1..] == more;
      }
    }
  }

  // ---------- the blocks of a line ----------

  /** Blocks come as Y, Y, Cb, Cr; the predictors are those of Y, Cb and Cr. */
  function ComponentOf(t: nat): Component {
    if t % 4 < 2 then Luma else Chroma
  }

  function PredictorOf(t: nat): (i: nat)
    ensures i < 3
  {
    if t % 4 < 2 then 0 else t % 4 - 1
  }

  type Predictors = p: seq<int> | |p| == 3 witness [0, 0, 0]

  const RESET: Predictors := [0, 0, 0]

  /** Each block from `t` on can be coded with its component's tables after the blocks before it. */
  predicate LineEncodable(qs: seq<Block>, t: nat, preds: Predictors)
    decreases |qs| - t
  {
    t < |qs| ==>
      && Encodable(qs[t], preds[PredictorOf(t)])
      && LineEncodable(qs, t + 1, preds[PredictorOf(t) := qs[t][0]])
  }

  ghost predicate TablesFull(tables: Tables) {
    FullTables(tables.luma) && FullTables(tables.chroma)
  }

  function LineBits(tables: Tables, qs: seq<Block>, t: nat, preds: Predictors): seq<bool>
    requires TablesFull(tables) && LineEncodable(qs, t, preds)
    decreases |qs| - t
  {
    if t >= |qs| then []
    else BlockBits(tables.Ctx(ComponentOf(t)), qs[t], preds[PredictorOf(t)])
         + LineBits(tables, qs, t + 1, preds[PredictorOf(t) := qs[t][0]])
  }

  /** The bytes of a line: stuffed data, then the restart marker of `rst` modulo 8. */
  function SegmentBytes(bits: seq<bool>, rst: nat): seq<byte> {
    Stuff(Pack(Padded(bits))) + [0xFF, 0xD0 + rst % 8]
  }

  function LineBytes(tables: Tables, qs: seq<Block>, rst: nat): seq<byte>
    requires TablesFull(tables) && LineEncodable(qs, 0, RESET)
  {
    SegmentBytes(LineBits(tables, qs, 0, RESET), rst)
  }

  // ---------- decoding a line ----------

  /** The component of a data unit in a scan with sampling factors 2, 1, 1 (ITU-T T.81 section A.2.3): Y, Y, Cb, Cr. */
  function ScanComponent(t: nat): (i: nat)
    ensures i < 3
  {
    match t % 4
    case 0 => 0
    case 1 => 0
    case 2 => 1
    case _ => 2
  }

  /** Cb and Cr share the chrominance tables. */
  function ScanTables(t: nat): Component {
    if ScanComponent(t) == 0 then Luma else Chroma
  }

  lemma ScanAgrees(t: nat)
    ensures PredictorOf(t) == ScanComponent(t) && ComponentOf(t) == ScanTables(t)
  {
  }

  /** Decoding one block: its place in the line, the bits, its predictor. */
  type BlockDecoder = (nat, seq<bool>, int) -> Option<(Block, seq<bool>)>

  /** Decodes the blocks `t` up to `n` of a line. */
  function DecodeBlocks(decode: BlockDecoder, n: nat, t: nat, bits: seq<bool>, preds: Predictors): Option<(seq<Block>, seq<bool>)>
    decreases n - t
  {
    if t >= n then
      Some(([], bits))
    else
      var (q, rest) :- decode(t, bits, preds[ScanComponent(t)]);
      var (qs, rest) :- DecodeBlocks(decode, n, t + 1, rest, preds[ScanComponent(t) := q[0]]);
      Some(([q] + qs, rest))
  }

  function LineBlockDecoder(decoders: Decoders): BlockDecoder {
    (t, bits, pred) => DecodeBlock(decoders.Dc(ScanTables(t)), decoders.Ac(ScanTables(t)), bits, pred)
  }

  /**
   Decodes one restart interval of `n` blocks, with all predictions at zero; what is left before the marker must be less
   than a byte of ones.
   */
  function DecodeLine(decoders: Decoders, bytes: seq<byte>, n: nat): Option<seq<Block>> {
    var (data, marker) :- Unstuff(bytes);
    var (qs, rest) :- DecodeBlocks(LineBlockDecoder(decoders), n, 0, BytesToBits(data), [0, 0, 0]);
    if |rest| < 8 && rest == Ones(|rest|) then Some(qs) else None
  }

  // ---------- round trip ----------

  /** What the encoder's ranges guarantee of a block: sizes the tables code faithfully and no 16-bit wrap. */
  predicate Sound(q: Block, c: Component, pred: int) {
    && Encodable(q, pred) && AcSizesAtMost(q, 10)
    && -0x8000 <= q[0] - pred < 0x8000
    && (c == Chroma ==> CollisionFree(q))
  }

  predicate LineSound(qs: seq<Block>, t: nat, preds: Predictors)
    decreases |qs| - t
  {
    t < |qs| ==>
      && Sound(qs[t], ComponentOf(t), preds[PredictorOf(t)])
      && LineSound(qs, t + 1, preds[PredictorOf(t) := qs[t][0]])
  }

  lemma {:induction false} SoundIsEncodable(qs: seq<Block>, t: nat, preds: Predictors)
    requires LineSound(qs, t, preds)
    ensures LineEncodable(qs, t, preds)
    decreases |qs| - t
  {
    if t < |qs| {
      SoundIsEncodable(qs, t + 1, preds[PredictorOf(t) := qs[t][0]]);
    }
  }

  lemma LineBitsStep(tables: Tables, qs: seq<Block>, t: nat, preds: Predictors, rest: seq<bool>)
    requires TablesFull(tables) && LineEncodable(qs, t, preds) && t < |qs|
    ensures var preds' := preds[PredictorOf(t) := qs[t][0]];
            LineBits(tables, qs, t, preds) + rest ==
            BlockBits(tables.Ctx(ComponentOf(t)), qs[t], preds[PredictorOf(t)]) + (LineBits(tables, qs, t + 1, preds') + rest)
  {
  }

  lemma DecodeBlocksStep(decode: BlockDecoder, n: nat, t: nat, bits: seq<bool>, preds: Predictors,
                         q: Block, after: seq<bool>, qs: seq<Block>, rest: seq<bool>)
    requires t < n
    requires decode(t, bits, preds[PredictorOf(t)]) == Some((q, after))
    requires DecodeBlocks(decode, n, t + 1, after, preds[PredictorOf(t) := q[0]]) == Some((qs, rest))
    ensures DecodeBlocks(decode, n, t, bits, preds) == Some(([q] + qs, rest))
  {
    ScanAgrees(t);
  }

  /** `decode` undoes the coding of every block that is sound. */
  ghost predicate Undoes(decode: BlockDecoder, tables: Tables)
    requires TablesFull(tables)
  {
    forall t: nat, q: Block, pred, rest | Sound(q, ComponentOf(t), pred) ::
      decode(t, BlockBits(tables.Ctx(ComponentOf(t)), q, pred) + rest, pred) == Some((q, rest))
  }

  lemma DecoderUndoes(tables: Tables, decoders: Decoders)
    requires TablesFull(tables) && Matches(tables, decoders)
    ensures Undoes(LineBlockDecoder(decoders), tables)
  {
    forall t: nat, q: Block, pred, rest | Sound(q, ComponentOf(t), pred)
      ensures LineBlockDecoder(decoders)(t, BlockBits(tables.Ctx(ComponentOf(t)), q, pred) + rest, pred) == Some((q, rest))
    {
      var c := ComponentOf(t);
      ScanAgrees(t);
      BlockDecodes(tables.Ctx(c), decoders.Dc(c), decoders.Ac(c), c == Chroma, q, pred, rest);
    }
  }

  lemma FirstBlockDecodes(tables: Tables, decode: BlockDecoder, qs: seq<Block>, t: nat, preds: Predictors,
                          preds': Predictors, rest: seq<bool>)
    requires TablesFull(tables) && Undoes(decode, tables) && t < |qs|
    requires LineEncodable(qs, t, preds) && LineSound(qs, t, preds) && preds' == preds[PredictorOf(t) := qs[t][0]]
    ensures decode(t, LineBits(tables, qs, t, preds) + rest, preds[PredictorOf(t)]) ==
            Some((qs[t], LineBits(tables, qs, t + 1, preds') + rest))
  {
    hide FullTables, BlockBits, Sound;
    LineBitsStep(tables, qs, t, preds, rest);
  }

  lemma {:induction false} BlocksRoundTrip(tables: Tables, decode: BlockDecoder, qs: seq<Block>, t: nat, preds: Predictors,
                                           bits: seq<bool>, rest: seq<bool>)
    requires TablesFull(tables) && Undoes(decode, tables) && t <= |qs|
    requires LineEncodable(qs, t, preds) && LineSound(qs, t, preds)
    requires bits == LineBits(tables, qs, t, preds) + rest
    ensures DecodeBlocks(decode, |qs|, t, bits, preds) == Some((qs[t..], rest))
    decreases |qs| - t
  {
    hide FullTables, Undoes, Sound, Encodable, BlockBits;
    if t == |qs| {
      assert bits == rest;
    } else {
      var preds' := preds[PredictorOf(t) := qs[t][0]];
      var after := LineBits(tables, qs, t + 1, preds') + rest;
      FirstBlockDecodes(tables, decode, qs, t, preds, preds', rest);
      BlocksRoundTrip(tables, decode, qs, t + 1, preds', after, rest);
      assert [qs[t]] + qs[t + 1..] == qs[t..];
      DecodeBlocksStep(decode, |qs|, t, bits, preds, qs[t], after, qs[t + 1..], rest);
    }
  }

  /** Line round trip: the bytes of a line, decoded alone with all predictors at zero, give back exactly its blocks. */
  lemma LineRoundTrip(tables: Tables, decoders: Decoders, qs: seq<Block>, rst: nat, rest: seq<byte>)
    requires TablesFull(tables) && Matches(tables, decoders) && LineSound(qs, 0, RESET)
    ensures LineEncodable(qs, 0, RESET)
    ensures DecodeLine(decoders, LineBytes(tables, qs, rst) + rest, |qs|) == Some(qs)
  {
    hide FullTables, Matches, LineSound, LineBits, Undoes, DecodeBlocks, Unstuff, Stuff, Pack, BytesToBits;
    SoundIsEncodable(qs, 0, RESET);
    var bits := LineBits(tables, qs, 0, RESET);
    var data := Pack(Padded(bits));
    assert LineBytes(tables, qs, rst) + rest == Stuff(data) + [0xFF, 0xD0 + rst % 8] + rest;
    UnstuffInvertsStuff(data, 0xD0 + rst % 8, rest);
    PackInverse(Padded(bits));
    DecoderUndoes(tables, decoders);
    BlocksRoundTrip(tables, LineBlockDecoder(decoders), qs, 0, RESET, Padded(bits), Ones(PadLength(|bits|)));
    assert qs[0..] == qs;
  }
}
