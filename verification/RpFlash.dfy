/**
 The RP2040 flash adapter: a page-by-page read, modify, erase and program loop over
 NOR cells behaves like a plain write into the reserved region.
 */
module RpFlash {
  import opened Words
  import opened NorCells

  const REGION_OFFSET: nat := 0x001E_0000
  const REGION_SIZE: nat := 0x1_0000
  const ERASE_SIZE: nat := 4096
  const WRITE_CHUNK: nat := 256

  datatype BoundsError = OutOfRange | UnalignedErase
  datatype BoundsCheck = InBounds | Rejected(error: BoundsError)

  function ValidateRegionAccess(offset: nat, len: nat): (r: BoundsCheck)
    ensures r.InBounds? <==> offset + len <= REGION_SIZE
    ensures r.Rejected? ==> r.error == OutOfRange
  {
    if len > REGION_SIZE then Rejected(OutOfRange)
    else if offset > REGION_SIZE - len then Rejected(OutOfRange)
    else InBounds
  }

  /** An erase range is accepted exactly when it is ordered, inside the region and sector aligned. */
  function ValidateEraseRange(from: nat, to: nat): (r: BoundsCheck)
    ensures r.InBounds? <==>
              from <= to <= REGION_SIZE && from % ERASE_SIZE == 0 && to % ERASE_SIZE == 0
    ensures r == Rejected(UnalignedErase) <==>
              from <= to <= REGION_SIZE && (from % ERASE_SIZE != 0 || to % ERASE_SIZE != 0)
  {
    if to < from then Rejected(OutOfRange)
    else if ValidateRegionAccess(from, to - from).Rejected? then Rejected(OutOfRange)
    else if from % ERASE_SIZE != 0 || to % ERASE_SIZE != 0 then Rejected(UnalignedErase)
    else InBounds
  }

  /** How far an address lies into the region, as a 32-bit subtraction gives it. */
  function RegionOffset(addr: nat): nat
  {
    if addr >= REGION_OFFSET then addr - REGION_OFFSET else addr + 0x1_0000_0000 - REGION_OFFSET
  }

  /** A block of a 32-bit address is accepted exactly when it lies in the reserved region. */
  lemma BlockInRegionExactly(addr: nat, len: nat)
    requires addr < 0x1_0000_0000
    ensures ValidateRegionAccess(RegionOffset(addr), len).InBounds? <==> 0x001E_0000 <= addr && addr + len <= 0x001F_0000
  {}

  /** How many bytes an erase of the given length touches: whole sectors only. */
  function SectorBytes(len: nat): (n: nat)
    ensures n >= len
  {
    if len == 0 then 0 else ERASE_SIZE + SectorBytes(SaturatingSub(len, ERASE_SIZE))
  }

  /** An erase touches exactly the requested bytes if and only if the length is a whole number of sectors. */
  lemma {:induction false} SectorBytesExact(len: nat)
    ensures SectorBytes(len) == len <==> len % ERASE_SIZE == 0
  {
    if len >= ERASE_SIZE {
      SectorBytesExact(len - ERASE_SIZE);
    }
  }

  class Chip {
    const cells: array<Byte>

    ghost predicate Valid()
    {
      cells.Length >= REGION_OFFSET + REGION_SIZE
    }

    constructor (size: nat)
      requires size >= REGION_OFFSET + REGION_SIZE
      ensures Valid() && fresh(cells) && cells.Length == size
    {
      cells := new Byte[size];
    }

    /** The boot ROM's erase of one sector. */
    method RangeErase(addr: nat)
      requires addr + ERASE_SIZE <= cells.Length
      modifies cells
      ensures cells[..] == Splice(old(cells[..]), addr, Blank(ERASE_SIZE))
    {
      forall i | addr <= i < addr + ERASE_SIZE {
        cells[i] := ERASED;
      }
    }

    /** The boot ROM's program operation: bits can only be cleared. */
    method RangeProgram(addr: nat, data: array<Byte>, from: nat, to: nat)
      requires from <= to <= data.Length && addr + (to - from) <= cells.Length
      requires data != cells
      modifies cells
      ensures cells[..] == Programmed(old(cells[..]), addr, data[from..to])
    {
      forall i | addr <= i < addr + (to - from) {
        cells[i] := cells[i] & data[from + (i - addr)];
      }
    }

    /** Copies a block out of the region; one that is not inside it is refused. */
    method ReadBlock(addr: nat, out: array<Byte>) returns (r: BoundsCheck)
      requires Valid() && out != cells
      modifies out
      ensures r == ValidateRegionAccess(RegionOffset(addr), out.Length)
      ensures r.InBounds? ==> addr + out.Length <= cells.Length && out[..] == cells[addr..addr + out.Length]
      ensures r.Rejected? ==> out[..] == old(out[..])
    {
      r := ValidateRegionAccess(RegionOffset(addr), out.Length);
      if r.Rejected? { return; }
      var i := 0;
      while i < out.Length
        invariant 0 <= i <= out.Length
        invariant forall k :: 0 <= k < i ==> out[k] == cells[addr + k]
      {
        out[i] := cells[addr + i];
        i := i + 1;
      }
    }

    method Read(offset: nat, out: array<Byte>) returns (r: BoundsCheck)
      requires Valid() && out != cells
      modifies out
      ensures r == ValidateRegionAccess(offset, out.Length)
      ensures out[..] == if r.InBounds? then cells[REGION_OFFSET + offset..REGION_OFFSET + offset + out.Length]
                         else old(out[..])
    {
      r := ValidateRegionAccess(offset, out.Length);
      if r.InBounds? { r := ReadBlock(REGION_OFFSET + offset, out); }
    }

    /** Erases whole sectors until the requested length is covered. */
    method RomErase(addr: nat, len: nat)
      requires addr + SectorBytes(len) <= cells.Length
      modifies cells
      ensures cells[..] == Splice(old(cells[..]), addr, Blank(SectorBytes(len)))
    {
      var left, off := len, addr;
      while left > 0
        invariant left >= 0 && addr <= off
        invariant off + SectorBytes(left) == addr + SectorBytes(len)
        invariant cells[..] == Splice(old(cells[..]), addr, Blank(off - addr))
      {
        RangeErase(off);
        SpliceAppend(old(cells[..]), addr, Blank(off - addr), Blank(ERASE_SIZE));
        assert Blank(off - addr) + Blank(ERASE_SIZE) == Blank(off - addr + ERASE_SIZE);
        off := off + ERASE_SIZE;
        left := SaturatingSub(left, ERASE_SIZE);
      }
    }

    /** Programs a buffer in chunks, whatever the cells held before. */
    method RomProgram(addr: nat, data: array<Byte>)
      requires addr + data.Length <= cells.Length && data != cells
      modifies cells
      ensures cells[..] == Programmed(old(cells[..]), addr, data[..])
    {
      var off := 0;
      while off < data.Length
        invariant 0 <= off <= data.Length
        invariant cells[..] == Programmed(old(cells[..]), addr, data[..off])
      {
        var end := if off + WRITE_CHUNK < data.Length then off + WRITE_CHUNK else data.Length;
        RangeProgram(addr + off, data, off, end);
        ProgrammedAppend(old(cells[..]), addr, data[..off], data[off..end]);
        assert data[..off] + data[off..end] == data[..end];
        off := end;
      }
      assert data[..off] == data[..];
    }

    method Erase(from: nat, to: nat) returns (r: BoundsCheck)
      requires Valid()
      modifies cells
      ensures r == ValidateEraseRange(from, to)
      ensures cells[..] == if r.InBounds? then Splice(old(cells[..]), REGION_OFFSET + from, Blank(to - from))
                           else old(cells[..])
    {
      r := ValidateEraseRange(from, to);
      if r.InBounds? {
        SectorBytesExact(to - from);
        RomErase(REGION_OFFSET + from, to - from);
      }
    }

    /**
     A write of any in-range span is a plain splice into the region: nothing outside the
     span changes, although whole sectors are erased and reprogrammed on the way.
     */
    method Write(offset: nat, bytes: seq<Byte>) returns (r: BoundsCheck)
      requires Valid()
      modifies cells
      ensures r == ValidateRegionAccess(offset, |bytes|)
      ensures cells[..] == if r.InBounds? then Splice(old(cells[..]), REGION_OFFSET + offset, bytes)
                           else old(cells[..])
    {
      r := ValidateRegionAccess(offset, |bytes|);
      if r.Rejected? { return; }
      var remaining, srcOff := |bytes|, 0;
      while remaining > 0
        invariant 0 <= srcOff && 0 <= remaining && srcOff + remaining == |bytes|
        invariant cells[..] == Splice(old(cells[..]), REGION_OFFSET + offset, bytes[..srcOff])
      {
        var writeLen := WriteFront(offset + srcOff, bytes[srcOff..]);
        var chunk := bytes[srcOff..][..writeLen];
        SpliceAppend(old(cells[..]), REGION_OFFSET + offset, bytes[..srcOff], chunk);
        assert bytes[..srcOff] + chunk == bytes[..srcOff + writeLen];
        srcOff := srcOff + writeLen;
        remaining := remaining - writeLen;
      }
      assert bytes[..srcOff] == bytes;
    }

    /** Writes as much of the bytes as fits into the sector they start in. */
    method WriteFront(abs: nat, bytes: seq<Byte>) returns (len: nat)
      requires Valid() && bytes != [] && abs + |bytes| <= REGION_SIZE
      modifies cells
      ensures 0 < len <= |bytes| && cells[..] == Splice(old(cells[..]), REGION_OFFSET + abs, bytes[..len])
    {
      var pageStart := abs / ERASE_SIZE * ERASE_SIZE;
      var within := abs - pageStart;
      len := if |bytes| < ERASE_SIZE - within then |bytes| else ERASE_SIZE - within;
      WritePage(pageStart, within, bytes[..len]);
    }

    /** Loads a sector into a buffer and patches it. */
    method LoadPatched(addr: nat, within: nat, chunk: seq<Byte>) returns (page: array<Byte>)
      requires Valid() && within + |chunk| <= ERASE_SIZE
      requires REGION_OFFSET <= addr && addr + ERASE_SIZE <= REGION_OFFSET + REGION_SIZE
      ensures fresh(page) && page.Length == ERASE_SIZE
      ensures page[..] == Splice(cells[addr..addr + ERASE_SIZE], within, chunk)
    {
      page := new Byte[ERASE_SIZE];
      var _ := ReadBlock(addr, page);
      ghost var loaded := page[..];
      forall i | 0 <= i < |chunk| {
        page[within + i] := chunk[i];
      }
      assert page[..] == Splice(loaded, within, chunk);
    }

    /** Erases a sector and programs a buffer into it. */
    method ReplaceSector(addr: nat, page: array<Byte>)
      requires addr + ERASE_SIZE <= cells.Length && page != cells && page.Length == ERASE_SIZE
      modifies cells
      ensures cells[..] == Splice(old(cells[..]), addr, page[..])
    {
      SectorBytesExact(ERASE_SIZE);
      RomErase(addr, ERASE_SIZE);
      ProgrammedOverErased(cells[..], addr, page[..]);
      RomProgram(addr, page);
    }

    /** One round of the write loop: load a sector, patch it, erase it, program it back. */
    method WritePage(pageStart: nat, within: nat, chunk: seq<Byte>)
      requires Valid()
      requires pageStart + ERASE_SIZE <= REGION_SIZE && within + |chunk| <= ERASE_SIZE
      modifies cells
      ensures cells[..] == Splice(old(cells[..]), REGION_OFFSET + pageStart + within, chunk)
    {
      var addr := REGION_OFFSET + pageStart;
      ghost var was := cells[..];
      SpliceWithinPage(was, addr, ERASE_SIZE, within, chunk);
      var page := LoadPatched(addr, within, chunk);
      assert cells[addr..addr + ERASE_SIZE] == was[addr..addr + ERASE_SIZE];
      ReplaceSector(addr, page);
    }
  }
}
