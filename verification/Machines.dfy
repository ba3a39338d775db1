// The simulated MIPS machine: main memory seen through a page table (machine/translate.cc).
module Machines {
  import opened Disks

  const PAGE_SIZE := 256
  const NUM_PHYS_PAGES := 128
  const MEMORY_SIZE := NUM_PHYS_PAGES * PAGE_SIZE

  // A 32-bit pattern; addresses are used unsigned.
  type Word = x: nat | x < WRAP

  datatype Entry = Entry(virtualPage: int, physicalPage: int, valid: bool, readOnly: bool, use: bool, dirty: bool)

  datatype Exception = NoException | PageFault | ReadOnly | BusError | AddressError

  type Memory = m: seq<byte> | |m| == MEMORY_SIZE witness seq(MEMORY_SIZE, i => 0)

  // ---------------------------------------------------------------------
  // Virtual memory as the page table defines it, byte by byte

  predicate Mapped(pt: seq<Entry>, addr: Word, writing: bool) {
    var vpn := addr / PAGE_SIZE;
    vpn < |pt| && pt[vpn].valid && !(pt[vpn].readOnly && writing) && 0 <= pt[vpn].physicalPage < NUM_PHYS_PAGES
  }

  predicate Aligned(addr: Word, size: nat) {
    (size == 4 ==> addr % 4 == 0) && (size == 2 ==> addr % 2 == 0)
  }

  function Phys(pt: seq<Entry>, addr: Word): (p: nat)
    requires Mapped(pt, addr, false)
    ensures p < MEMORY_SIZE
  {
    pt[addr / PAGE_SIZE].physicalPage * PAGE_SIZE + addr % PAGE_SIZE
  }

  // The first check that fails.
  function FirstFault(pt: seq<Entry>, addr: Word, size: nat, writing: bool): Exception {
    var vpn := addr / PAGE_SIZE;
    if !Aligned(addr, size) || vpn >= |pt| then AddressError
    else if !pt[vpn].valid then PageFault
    else if pt[vpn].readOnly && writing then ReadOnly
    else if !(0 <= pt[vpn].physicalPage < NUM_PHYS_PAGES) then BusError
    else NoException
  }

  function VirtualByte(pt: seq<Entry>, mem: Memory, addr: Word): byte
    requires Mapped(pt, addr, false)
  {
    mem[Phys(pt, addr)]
  }

  // The use and dirty bits have no part in the translation.
  ghost predicate SameMap(pt: seq<Entry>, pt': seq<Entry>) {
    |pt| == |pt'| && forall v :: 0 <= v < |pt| ==> pt'[v].(use := pt[v].use, dirty := pt[v].dirty) == pt[v]
  }

  lemma SameMapSamePlace(pt: seq<Entry>, pt': seq<Entry>, addr: Word, writing: bool)
    requires SameMap(pt, pt')
    ensures Mapped(pt', addr, writing) == Mapped(pt, addr, writing)
    ensures Mapped(pt, addr, false) ==> Phys(pt', addr) == Phys(pt, addr)
  {
    var vpn := addr / PAGE_SIZE;
    if vpn < |pt| {
      assert pt'[vpn].(use := pt[vpn].use, dirty := pt[vpn].dirty) == pt[vpn];
    }
  }

  lemma SameMapTransitive(pt: seq<Entry>, pt': seq<Entry>, pt'': seq<Entry>)
    requires SameMap(pt, pt') && SameMap(pt', pt'')
    ensures SameMap(pt, pt'')
  {
    forall v | 0 <= v < |pt|
      ensures pt''[v].(use := pt[v].use, dirty := pt[v].dirty) == pt[v]
    {
      assert pt'[v].(use := pt[v].use, dirty := pt[v].dirty) == pt[v];
    }
  }

  // An aligned word never straddles a page: its bytes are neighbours in main memory, too.
  lemma AlignedWord(pt: seq<Entry>, w: Word, size: nat, i: nat, writing: bool)
    requires size in {1, 2, 4} && Aligned(w, size) && i < size && Mapped(pt, w, writing)
    ensures w + i < WRAP && Mapped(pt, w + i, writing) && Phys(pt, w + i) == Phys(pt, w) + i
  {
    WithinPage(w, size);
    assert w + i == PAGE_SIZE * (w / PAGE_SIZE) + (w % PAGE_SIZE + i);
    DivMod(w + i, w / PAGE_SIZE, w % PAGE_SIZE + i);
  }

  lemma DivMod(x: nat, q: nat, o: nat)
    requires x == PAGE_SIZE * q + o && o < PAGE_SIZE
    ensures x / PAGE_SIZE == q && x % PAGE_SIZE == o
  {
  }

  lemma WithinPage(w: Word, size: nat)
    requires size in {1, 2, 4} && Aligned(w, size)
    ensures w % PAGE_SIZE + size <= PAGE_SIZE
  {
    if size == 4 {
      assert w % PAGE_SIZE == 4 * (w / 4 - 64 * (w / PAGE_SIZE));
    } else if size == 2 {
      assert w % PAGE_SIZE == 2 * (w / 2 - 128 * (w / PAGE_SIZE));
    }
  }

  // size bytes of virtual memory from an aligned address on.
  function VirtualBytes(pt: seq<Entry>, mem: Memory, w: Word, size: nat): (b: seq<byte>)
    requires size in {1, 2, 4} && Aligned(w, size) && Mapped(pt, w, false)
    ensures |b| == size
  {
    seq(size, i requires 0 <= i < size => AlignedWord(pt, w, size, i, false); VirtualByte(pt, mem, w + i))
  }

  lemma VirtualBytesAreASlice(pt: seq<Entry>, mem: Memory, w: Word, size: nat)
    requires size in {1, 2, 4} && Aligned(w, size) && Mapped(pt, w, false)
    ensures Phys(pt, w) + size <= MEMORY_SIZE
    ensures VirtualBytes(pt, mem, w, size) == mem[Phys(pt, w)..Phys(pt, w) + size]
  {
    AlignedWord(pt, w, size, size - 1, false);
    forall i | 0 <= i < size
      ensures VirtualBytes(pt, mem, w, size)[i] == mem[Phys(pt, w)..Phys(pt, w) + size][i]
    {
      AlignedWord(pt, w, size, i, false);
    }
  }

  // What a load of 1, 2 or 4 bytes makes of them: a char is signed, a short is not.
  function Loaded(b: seq<byte>): Word
    requires |b| in {1, 2, 4}
  {
    BytesFit(b);
    FourBytes();
    if |b| == 1 && b[0] >= 128 then b[0] as int + (WRAP - 256) else LittleEndian(b)
  }

  function Stored(value: Word, size: nat): (b: seq<byte>)
    requires size in {1, 2, 4}
    ensures |b| == size
  {
    Digits(value, size)
  }

  // A store followed by a load of the same size gives the value back, up to its width; a byte is taken as signed.
  lemma StoredThenLoaded(value: Word, size: nat)
    requires size in {1, 2, 4}
    ensures Loaded(Stored(value, size)) ==
            if size == 1 && value % 256 >= 128 then value % 256 + (WRAP - 256) else Low(value, size)
    ensures size == 4 ==> Low(value, size) == value
  {
    ValueOfDigits(value, size);
    FourBytes();
    if size == 4 {
      LowIsAll(value, 4);
    }
    assert Digits(value, size)[0] as int == value % 256;
  }

  function Overlay(mem: Memory, p: nat, b: seq<byte>): Memory
    requires p + |b| <= MEMORY_SIZE
  {
    mem[..p] + b + mem[p + |b|..]
  }

  // ---------------------------------------------------------------------
  // Registers and the delayed-load slot (machine/mipssim.cc)

  const NUM_GP_REGS := 32
  const PC := 34
  const NEXT_PC := 35
  const PREV_PC := 36
  const LOAD := 37
  const LOAD_VALUE := 38
  const BAD_VADDR := 39
  const NUM_TOTAL_REGS := 40

  type Registers = r: seq<Word> | |r| == NUM_TOTAL_REGS && r[LOAD] < NUM_GP_REGS && r[0] == 0
    witness seq(NUM_TOTAL_REGS, i => 0)

  function DelayedLoadResult(r: Registers, nextReg: nat, nextValue: Word): Registers
    requires nextReg < NUM_GP_REGS
  {
    r[r[LOAD] := r[LOAD_VALUE]][LOAD := nextReg][LOAD_VALUE := nextValue][0 := 0]
  }

  // RaiseException, up to the call of the kernel's handler.
  function Trapped(r: Registers, addr: Word): Registers {
    DelayedLoadResult(r[BAD_VADDR := addr], 0, 0)
  }

  // The end of OneInstruction: the delayed load, then the program counters.
  function Executed(r: Registers, nextReg: nat, nextValue: Word): Registers
    requires nextReg < NUM_GP_REGS
  {
    var d := DelayedLoadResult(r, nextReg, nextValue);
    d[PREV_PC := d[PC]][PC := d[NEXT_PC]][NEXT_PC := (r[NEXT_PC] + 4) % WRAP]
  }

  class Machine {
    const registers: array<Word>
    const mainMemory: array<byte>
    var pageTable: array<Entry>

    ghost predicate Valid()
      reads this, registers
    {
      && mainMemory.Length == MEMORY_SIZE
      && registers.Length == NUM_TOTAL_REGS && registers[LOAD] < NUM_GP_REGS && registers[0] == 0
    }

    ghost function Regs(): Registers
      requires Valid()
      reads this, registers
    {
      registers[..]
    }

    ghost function Mem(): Memory
      requires Valid()
      reads this, registers, mainMemory
    {
      mainMemory[..]
    }

    method DelayedLoad(nextReg: nat, nextValue: Word)
      requires Valid() && nextReg < NUM_GP_REGS
      modifies registers
      ensures Valid() && Regs() == DelayedLoadResult(old(Regs()), nextReg, nextValue)
      ensures registers[LOAD] == nextReg && registers[LOAD_VALUE] == nextValue
      ensures forall g :: 0 < g < NUM_GP_REGS ==>
                registers[g] == if g == old(registers[LOAD]) then old(registers[LOAD_VALUE]) else old(registers[g])
      ensures forall g :: NUM_GP_REGS <= g < NUM_TOTAL_REGS && g != LOAD && g != LOAD_VALUE ==> registers[g] == old(registers[g])
    {
      registers[registers[LOAD]] := registers[LOAD_VALUE];
      registers[LOAD] := nextReg;
      registers[LOAD_VALUE] := nextValue;
      registers[0] := 0;
    }

    method RaiseException(addr: Word)
      requires Valid()
      modifies registers
      ensures Valid() && Regs() == Trapped(old(Regs()), addr)
      ensures registers[BAD_VADDR] == addr && registers[LOAD] == registers[LOAD_VALUE] == 0
      ensures forall g :: 0 < g < NUM_GP_REGS ==>
                registers[g] == if g == old(registers[LOAD]) then old(registers[LOAD_VALUE]) else old(registers[g])
      ensures registers[PC] == old(registers[PC]) && registers[NEXT_PC] == old(registers[NEXT_PC]) && registers[PREV_PC] == old(registers[PREV_PC])
    {
      registers[BAD_VADDR] := addr;
      assert registers[..] == old(Regs())[BAD_VADDR := addr];
      DelayedLoad(0, 0);
    }

    // Without a TLB. Each exception has its exact condition, the first check that fails; on success the frame is the
    // entry's and the offset stays, and then, and only then, the entry is marked as used, and as dirty when writing.
    method Translate(virtAddr: Word, size: nat, writing: bool) returns (e: Exception, physAddr: nat)
      requires Valid() && size in {1, 2, 4}
      modifies pageTable
      ensures e == FirstFault(old(pageTable[..]), virtAddr, size, writing)
      ensures e == NoException <==> Aligned(virtAddr, size) && Mapped(old(pageTable[..]), virtAddr, writing)
      ensures e == AddressError <==> virtAddr % size != 0 || virtAddr / PAGE_SIZE >= pageTable.Length
      ensures e == PageFault <==>
                virtAddr % size == 0 && virtAddr / PAGE_SIZE < pageTable.Length && !old(pageTable[..])[virtAddr / PAGE_SIZE].valid
      ensures e == ReadOnly <==>
                && virtAddr % size == 0 && virtAddr / PAGE_SIZE < pageTable.Length
                && var entry := old(pageTable[..])[virtAddr / PAGE_SIZE]; entry.valid && entry.readOnly && writing
      ensures e == BusError <==>
                && virtAddr % size == 0 && virtAddr / PAGE_SIZE < pageTable.Length
                && var entry := old(pageTable[..])[virtAddr / PAGE_SIZE];
                   entry.valid && !(entry.readOnly && writing) && !(0 <= entry.physicalPage < NUM_PHYS_PAGES)
      ensures e == NoException ==> physAddr == Phys(old(pageTable[..]), virtAddr) && physAddr + size <= MEMORY_SIZE
      ensures e == NoException ==>
                && physAddr / PAGE_SIZE == old(pageTable[..])[virtAddr / PAGE_SIZE].physicalPage
                && physAddr % PAGE_SIZE == virtAddr % PAGE_SIZE
      ensures e != NoException ==> pageTable[..] == old(pageTable[..])
      ensures e == NoException ==>
                var vpn := virtAddr / PAGE_SIZE;
                var entry := old(pageTable[..])[vpn];
                pageTable[..] == old(pageTable[..])[vpn := entry.(use := true, dirty := entry.dirty || writing)]
      ensures SameMap(old(pageTable[..]), pageTable[..])
    {
      physAddr := 0;
      if !Aligned(virtAddr, size) {
        return AddressError, physAddr;
      }
      var vpn, offset := virtAddr / PAGE_SIZE, virtAddr % PAGE_SIZE;
      if vpn >= pageTable.Length {
        return AddressError, physAddr;
      } else if !pageTable[vpn].valid {
        return PageFault, physAddr;
      }
      if pageTable[vpn].readOnly && writing {
        return ReadOnly, physAddr;
      }
      var pageFrame := pageTable[vpn].physicalPage;
      if pageFrame < 0 || pageFrame >= NUM_PHYS_PAGES {
        return BusError, physAddr;
      }
      pageTable[vpn] := pageTable[vpn].(use := true);
      if writing {
        pageTable[vpn] := pageTable[vpn].(dirty := true);
      }
      physAddr := pageFrame * PAGE_SIZE + offset;
      DivMod(physAddr, pageFrame, offset);
      AlignedWord(old(pageTable[..]), virtAddr, size, size - 1, writing);
      return NoException, physAddr;
    }

    method ReadMem(addr: Word, size: nat) returns (ok: bool, value: Word)
      requires Valid() && size in {1, 2, 4}
      modifies pageTable, registers
      ensures Valid() && SameMap(old(pageTable[..]), pageTable[..])
      ensures ok <==> Aligned(addr, size) && Mapped(old(pageTable[..]), addr, false)
      ensures ok ==> Regs() == old(Regs()) && value == Loaded(VirtualBytes(old(pageTable[..]), Mem(), addr, size))
      ensures !ok ==> Regs() == Trapped(old(Regs()), addr)
    {
      var e, p := Translate(addr, size, false);
      if e != NoException {
        RaiseException(addr);
        return false, 0;
      }
      VirtualBytesAreASlice(old(pageTable[..]), Mem(), addr, size);
      return true, Loaded(mainMemory[p..p + size]);
    }

    method WriteMem(addr: Word, size: nat, value: Word) returns (ok: bool)
      requires Valid() && size in {1, 2, 4}
      modifies pageTable, registers, mainMemory
      ensures Valid() && SameMap(old(pageTable[..]), pageTable[..])
      ensures ok <==> Aligned(addr, size) && Mapped(old(pageTable[..]), addr, true)
      ensures ok ==> Phys(old(pageTable[..]), addr) + size <= MEMORY_SIZE
      ensures ok ==> Regs() == old(Regs()) && Mem() == Overlay(old(Mem()), Phys(old(pageTable[..]), addr), Stored(value, size))
      ensures !ok ==> Regs() == Trapped(old(Regs()), addr) && Mem() == old(Mem())
    {
      var e, p := Translate(addr, size, true);
      if e != NoException {
        RaiseException(addr);
        return false;
      }
      var b := Stored(value, size);
      forall i | 0 <= i < size {
        mainMemory[p + i] := b[i];
      }
      return true;
    }
  }

  // ---------------------------------------------------------------------
  // A store is seen by exactly the loads that go through the bytes it wrote.

  lemma OverlayByte(mem: Memory, p: nat, b: seq<byte>, q: nat)
    requires p + |b| <= MEMORY_SIZE && q < MEMORY_SIZE
    ensures Overlay(mem, p, b)[q] == if p <= q < p + |b| then b[q - p] else mem[q]
  {
  }

  // Two translations that go to different frames do not see each other's stores.
  lemma OtherFrameUnchanged(pt: seq<Entry>, pt': seq<Entry>, mem: Memory, w: Word, size: nat, value: Word, addr: Word)
    requires size in {1, 2, 4} && Aligned(w, size) && Mapped(pt, w, true) && Mapped(pt', addr, false)
    requires pt[w / PAGE_SIZE].physicalPage != pt'[addr / PAGE_SIZE].physicalPage
    ensures Phys(pt, w) + size <= MEMORY_SIZE
    ensures VirtualByte(pt', Overlay(mem, Phys(pt, w), Stored(value, size)), addr) == VirtualByte(pt', mem, addr)
  {
    WithinFrame(pt, w, size);
    var p, q := Phys(pt, w), Phys(pt', addr);
    var f, g := pt[w / PAGE_SIZE].physicalPage, pt'[addr / PAGE_SIZE].physicalPage;
    assert g * PAGE_SIZE <= q < g * PAGE_SIZE + PAGE_SIZE;
    OverlayByte(mem, p, Stored(value, size), q);
  }

  lemma WithinFrame(pt: seq<Entry>, w: Word, size: nat)
    requires size in {1, 2, 4} && Aligned(w, size) && Mapped(pt, w, false)
    ensures var f := pt[w / PAGE_SIZE].physicalPage; f * PAGE_SIZE <= Phys(pt, w) <= f * PAGE_SIZE + PAGE_SIZE - size
  {
    WithinPage(w, size);
  }
}
