/**
 The Everspin MRAM behind spi_flash.c: 17 address bits, sequential access that wraps at the top, and the size guard of
 `flashWriteBytes`. The SPI transport itself is not modelled.
 */
module Mram {
  import opened Bits

  const MRAM_SIZE := 0x2_0000
  const FLASH_HIGH_ADDR := 0x10_0000
  const UINT32 := 0x1_0000_0000

  type Memory = m: seq<byte> | |m| == MRAM_SIZE witness seq(MRAM_SIZE, _ => 0)

  /** The three address bytes sent carry bits 16 to 0 of the address. */
  function Cell(addr: nat): (a: nat)
    ensures a < MRAM_SIZE
    ensures addr < MRAM_SIZE ==> a == addr
  {
    addr % MRAM_SIZE
  }

  /** Writing bytes one after another from `addr` on. */
  function Overlay(m: Memory, addr: nat, data: seq<byte>): Memory
    decreases |data|
  {
    if data == [] then m else Overlay(m[Cell(addr) := data[0]], addr + 1, data[1..])
  }

  /** `n > FLASH_HIGH_ADDR - addr` in unsigned 32-bit arithmetic, or fewer than two bytes. */
  predicate Refused(addr: nat, n: nat) {
    n > (FLASH_HIGH_ADDR - addr) % UINT32 || n < 2
  }

  /** The memory after `flashWriteBytes`. */
  function Written(m: Memory, addr: nat, data: seq<byte>): Memory {
    if Refused(addr, |data|) then m else Overlay(m, addr, data)
  }

  /** What `flashReadBytes` delivers. */
  function Read(m: Memory, addr: nat, n: nat): (data: seq<byte>)
    ensures |data| == n
  {
    seq(n, i requires 0 <= i < n => m[Cell(addr + i)])
  }

  lemma {:induction false} OverlayAppend(m: Memory, addr: nat, data: seq<byte>, b: byte)
    ensures Overlay(m, addr, data + [b]) == Overlay(m, addr, data)[Cell(addr + |data|) := b]
    decreases |data|
  {
    if data == [] {
      assert [b][1..] == [];
      assert data + [b] == [b];
    } else {
      OverlayAppend(m[Cell(addr) := data[0]], addr + 1, data[1..], b);
      assert (data + [b])[1..] == data[1..] + [b];
    }
  }

  /** How far cell `a` lies ahead of `addr`, wrapping at the top. */
  function Ahead(addr: nat, a: nat): (i: nat)
    ensures i < MRAM_SIZE
  {
    (a - addr) % MRAM_SIZE
  }

  lemma AheadOfCell(addr: nat, i: nat)
    requires i < MRAM_SIZE
    ensures Ahead(addr, Cell(addr + i)) == i
  {
  }

  lemma AheadStep(addr: nat, a: nat)
    requires a < MRAM_SIZE
    ensures Ahead(addr, a) == 0 <==> a == Cell(addr)
    ensures Ahead(addr + 1, a) == if Ahead(addr, a) == 0 then MRAM_SIZE - 1 else Ahead(addr, a) - 1
  {
  }

  lemma AheadBelowTop(addr: nat, a: nat, n: nat)
    requires addr + n <= MRAM_SIZE && a < MRAM_SIZE
    ensures Ahead(addr, a) < n <==> addr <= a < addr + n
    ensures addr <= a < addr + n ==> Ahead(addr, a) == a - addr
  {
  }

  /** Up to the size of the memory each byte lands in a cell of its own; all other cells keep their values. */
  lemma {:induction false} OverlayWraps(m: Memory, addr: nat, data: seq<byte>, a: nat)
    requires |data| <= MRAM_SIZE && a < MRAM_SIZE
    ensures Overlay(m, addr, data)[a] == if Ahead(addr, a) < |data| then data[Ahead(addr, a)] else m[a]
    decreases |data|
  {
    hide Ahead, Cell;
    if data != [] {
      AheadStep(addr, a);
      OverlayWraps(m[Cell(addr) := data[0]], addr + 1, data[1..], a);
    }
  }

  /** Below the top nothing wraps: the bytes land where they are addressed. */
  lemma OverlayInPlace(m: Memory, addr: nat, data: seq<byte>, a: nat)
    requires addr + |data| <= MRAM_SIZE && a < MRAM_SIZE
    ensures Overlay(m, addr, data)[a] == if addr <= a < addr + |data| then data[a - addr] else m[a]
  {
    hide Ahead;
    AheadBelowTop(addr, a, |data|);
    OverlayWraps(m, addr, data, a);
  }

  /** Reading back what an accepted write stored, across the top of the memory as well. */
  lemma ReadAfterWrite(m: Memory, addr: nat, data: seq<byte>)
    requires !Refused(addr, |data|) && |data| <= MRAM_SIZE
    ensures Read(Written(m, addr, data), addr, |data|) == data
  {
    hide Ahead, Cell;
    forall i | 0 <= i < |data|
      ensures Read(Written(m, addr, data), addr, |data|)[i] == data[i]
    {
      AheadOfCell(addr, i);
      OverlayWraps(m, addr, data, Cell(addr + i));
    }
  }

  /** What the guard compares with is eight times the size of the memory. */
  lemma GuardMeaning(addr: nat, n: nat)
    requires addr < UINT32 && n < UINT32
    ensures !Refused(addr, n) <==>
            n >= 2 && addr + n <= (if addr <= FLASH_HIGH_ADDR then FLASH_HIGH_ADDR else FLASH_HIGH_ADDR + UINT32)
  {
    if addr <= FLASH_HIGH_ADDR {
      assert (FLASH_HIGH_ADDR - addr) % UINT32 == FLASH_HIGH_ADDR - addr;
    } else {
      assert (FLASH_HIGH_ADDR - addr) % UINT32 == FLASH_HIGH_ADDR - addr + UINT32;
    }
  }

  /** It does not prevent overflow: two bytes at the top are accepted, and the second lands in cell 0. */
  lemma GuardPassesTop(m: Memory, b1: byte, b2: byte)
    ensures !Refused(0x1_FFFF, 2) && Written(m, 0x1_FFFF, [b1, b2])[0] == b2
  {
    OverlayWraps(m, 0x1_FFFF, [b1, b2], 0);
  }

  /** An accepted write stays where it is addressed if and only if it ends at or below the top of the memory. */
  lemma GuardIff(addr: nat, n: nat)
    requires addr < UINT32 && !Refused(addr, n)
    ensures (forall a: nat :: addr <= a < addr + n ==> Cell(a) == a) <==> addr + n <= MRAM_SIZE
  {
    if addr + n > MRAM_SIZE {
      assert Cell(addr + n - 1) != addr + n - 1;
    }
  }

  /** The device. */
  class Flash {
    const cells: array<byte>

    ghost predicate Valid() {
      cells.Length == MRAM_SIZE
    }

    ghost function Contents(): Memory
      reads cells
      requires Valid()
    {
      cells[..]
    }

    constructor (contents: Memory)
      ensures Valid() && fresh(cells) && Contents() == contents
    {
      cells := new byte[MRAM_SIZE](i requires 0 <= i < MRAM_SIZE => contents[i]);
      new;
      assert cells[..] == contents;
    }

    /** `flashWriteBytes`. */
    method WriteBytes(addr: nat, data: seq<byte>)
      requires Valid() && addr < UINT32
      modifies cells
      ensures Contents() == Written(old(Contents()), addr, data)
    {
      if |data| > (FLASH_HIGH_ADDR - addr) % UINT32 || |data| < 2 {
        return;
      }
      ghost var before := Contents();
      var i := 0;
      assert data[..0] == [];
      while i < |data|
        invariant 0 <= i <= |data|
        invariant Contents() == Overlay(before, addr, data[..i])
      {
        OverlayAppend(before, addr, data[..i], data[i]);
        assert data[..i + 1] == data[..i] + [data[i]];
        cells[(addr + i) % MRAM_SIZE] := data[i];
        i := i + 1;
      }
      assert data[..|data|] == data;
    }

    /** `flashReadBytes` into the first `n` bytes of a buffer. */
    method ReadBytes(addr: nat, buffer: array<byte>, n: nat)
      requires Valid() && n <= buffer.Length && buffer != cells
      modifies buffer
      ensures buffer[..n] == Read(Contents(), addr, n) && buffer[n..] == old(buffer[n..])
    {
      var i := 0;
      while i < n
        invariant 0 <= i <= n
        invariant forall k :: 0 <= k < i ==> buffer[k] == Read(Contents(), addr, n)[k]
        invariant forall k :: n <= k < buffer.Length ==> buffer[k] == old(buffer[k])
      {
        buffer[i] := cells[(addr + i) % MRAM_SIZE];
        i := i + 1;
      }
    }
  }
}
