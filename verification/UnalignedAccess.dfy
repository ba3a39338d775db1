// The instructions LWL, LWR, SWL and SWR (machine/mipssim.cc), which reach words at any address.
module UnalignedAccess {
  import opened Disks
  import opened Machines

  // ---------------------------------------------------------------------
  // Masks and shifts by whole bytes, on 32-bit patterns. Low(x, n) masks all but the n lowest bytes.

  function High(x: nat, n: nat): nat {
    LowFits(x, n);
    x - Low(x, n)
  }

  function ShiftRight(x: nat, n: nat): nat
    decreases n, x
  {
    if n == 0 then x else ShiftRight(x / 256, n - 1)
  }

  // The n highest bytes fall off.
  function ShiftLeft(x: nat, n: nat): nat
    requires n <= 4
  {
    Up(Low(x, 4 - n), n)
  }

  // They are what the masks and the shift operators in the source compute.
  lemma MasksAndShifts1(x: Word)
    ensures Low(x, 1) == x % 0x100 && ShiftRight(x, 1) == x / 0x100 && ShiftLeft(x, 3) == (x * 0x100_0000) % WRAP
  {
    assert Low(x / 256, 0) == 0 && ShiftRight(x / 256, 0) == x / 256;
    var q, r := x / 0x100, x % 0x100;
    assert Up(Low(x, 1), 3) == 0x100_0000 * r by { Ups(r); }
    ModIs(x * 0x100_0000, q, 0x100_0000 * r);
  }

  lemma MasksAndShifts2(x: Word)
    ensures Low(x, 2) == x % 0x1_0000 && ShiftRight(x, 2) == x / 0x1_0000 && ShiftLeft(x, 2) == (x * 0x1_0000) % WRAP
  {
    MasksAndShifts1(x / 256);
    var q, r := x / 0x1_0000, x % 0x1_0000;
    assert x / 0x1_0000 == x / 0x100 / 0x100;
    assert Low(x, 2) == r;
    assert ShiftRight(x, 2) == ShiftRight(x / 256, 1);
    assert Up(Low(x, 2), 2) == 0x1_0000 * r by { Ups(r); }
    ModIs(x * 0x1_0000, q, 0x1_0000 * r);
  }

  lemma MasksAndShifts3(x: Word)
    ensures Low(x, 3) == x % 0x100_0000 && ShiftRight(x, 3) == x / 0x100_0000 && ShiftLeft(x, 1) == (x * 0x100) % WRAP
  {
    MasksAndShifts2(x / 256);
    var q, r := x / 0x100_0000, x % 0x100_0000;
    assert x / 0x100_0000 == x / 0x100 / 0x1_0000;
    assert Low(x, 3) == r;
    assert ShiftRight(x, 3) == ShiftRight(x / 256, 2);
    assert Up(Low(x, 3), 1) == 0x100 * r by { Ups(r); }
    ModIs(x * 0x100, q, 0x100 * r);
  }

  lemma Ups(r: nat)
    ensures Up(r, 1) == 0x100 * r && Up(r, 2) == 0x1_0000 * r && Up(r, 3) == 0x100_0000 * r
  {
    assert Up(r, 0) == r;
    assert Up(r, 1) == 0x100 * r;
    assert Up(r, 2) == 0x1_0000 * r;
  }

  lemma ModIs(x: nat, q: nat, r: nat)
    requires x == WRAP * q + r && r < WRAP
    ensures x % WRAP == r
  {
  }

  // ---------------------------------------------------------------------
  // The same on bytes

  lemma {:induction false} LowFits(x: nat, n: nat)
    ensures Low(x, n) <= x
    decreases n
  {
    if n > 0 { LowFits(x / 256, n - 1); }
  }

  lemma {:induction false} LowOfBytes(b: seq<byte>, n: nat)
    requires n <= |b|
    ensures Low(LittleEndian(b), n) == LittleEndian(b[..n])
    decreases n
  {
    if n > 0 {
      DivMod256(LittleEndian(b), LittleEndian(b[1..]), b[0] as nat);
      LowOfBytes(b[1..], n - 1);
      assert b[..n][1..] == b[1..][..n - 1];
    }
  }

  lemma {:induction false} ShiftRightOfBytes(b: seq<byte>, n: nat)
    requires n <= |b|
    ensures ShiftRight(LittleEndian(b), n) == LittleEndian(b[n..])
    decreases n
  {
    if n > 0 {
      DivMod256(LittleEndian(b), LittleEndian(b[1..]), b[0] as nat);
      ShiftRightOfBytes(b[1..], n - 1);
      assert b[1..][n - 1..] == b[n..];
    } else {
      assert b[0..] == b;
    }
  }

  lemma {:induction false} JoinBytes(a: seq<byte>, b: seq<byte>)
    ensures LittleEndian(a + b) == LittleEndian(a) + Up(LittleEndian(b), |a|)
  {
    if a == [] {
      assert a + b == b;
    } else {
      JoinBytes(a[1..], b);
      assert (a + b)[1..] == a[1..] + b;
    }
  }

  lemma HighOfBytes(b: seq<byte>, n: nat)
    requires n <= |b|
    ensures High(LittleEndian(b), n) == Up(LittleEndian(b[n..]), n)
  {
    assert b[..n] + b[n..] == b;
    HighOfJoined(b[..n], b[n..]);
  }

  lemma HighOfJoined(low: seq<byte>, high: seq<byte>)
    ensures High(LittleEndian(low + high), |low|) == Up(LittleEndian(high), |low|)
  {
    LowOfBytes(low + high, |low|);
    assert (low + high)[..|low|] == low;
    JoinBytes(low, high);
  }

  lemma BytesOf(v: Word) returns (b: seq<byte>)
    ensures |b| == 4 && LittleEndian(b) == v
  {
    b := Digits(v, 4);
    ValueOfDigits(v, 4);
    FourBytes();
    LowIsAll(v, 4);
  }

  // A value joined from n low bytes and 4 - n high ones is a word again.
  lemma FourFit(a: seq<byte>, b: seq<byte>)
    requires |a| + |b| == 4
    ensures LittleEndian(a) + Up(LittleEndian(b), |a|) < WRAP
  {
    JoinBytes(a, b);
    BytesFit(a + b);
    FourBytes();
  }

  // Each of the four switches over 3 - byte, all its cases at once: its cases 0 to 3 shift and mask by as many
  // bytes. The parts that a bitwise or joins have no bit in common, so that it is a sum.
  function LoadLeft(was: Word, value: Word, k: nat): Word
    requires k < 4
  {
    var n := 3 - k;
    LoadLeftFits(was, value, k);
    Low(was, n) + ShiftLeft(value, n)
  }

  lemma LoadLeftFits(was: Word, value: Word, k: nat)
    requires k < 4
    ensures Low(was, 3 - k) + ShiftLeft(value, 3 - k) < WRAP
  {
    var a := BytesOf(was);
    var b := BytesOf(value);
    LowOfBytes(a, 3 - k);
    LowOfBytes(b, k + 1);
    FourFit(a[..3 - k], b[..k + 1]);
  }

  function LoadRight(was: Word, value: Word, k: nat): Word
    requires k < 4
  {
    LoadRightFits(was, value, k);
    High(was, 4 - k) + ShiftRight(value, k)
  }

  lemma LoadRightFits(was: Word, value: Word, k: nat)
    requires k < 4
    ensures High(was, 4 - k) + ShiftRight(value, k) < WRAP
  {
    var a := BytesOf(was);
    var b := BytesOf(value);
    HighOfBytes(a, 4 - k);
    ShiftRightOfBytes(b, k);
    FourFit(b[k..], a[4 - k..]);
  }

  function StoreLeft(value: Word, reg: Word, k: nat): Word
    requires k < 4
  {
    var n := 3 - k;
    StoreLeftFits(value, reg, k);
    High(value, 4 - n) + ShiftRight(reg, n)
  }

  lemma StoreLeftFits(value: Word, reg: Word, k: nat)
    requires k < 4
    ensures High(value, k + 1) + ShiftRight(reg, 3 - k) < WRAP
  {
    var a := BytesOf(value);
    var b := BytesOf(reg);
    HighOfBytes(a, k + 1);
    ShiftRightOfBytes(b, 3 - k);
    FourFit(b[3 - k..], a[k + 1..]);
  }

  function StoreRight(value: Word, reg: Word, k: nat): Word
    requires k < 4
  {
    StoreRightFits(value, reg, k);
    Low(value, k) + ShiftLeft(reg, k)
  }

  lemma StoreRightFits(value: Word, reg: Word, k: nat)
    requires k < 4
    ensures Low(value, k) + ShiftLeft(reg, k) < WRAP
  {
    var a := BytesOf(value);
    var b := BytesOf(reg);
    LowOfBytes(a, k);
    LowOfBytes(b, 4 - k);
    FourFit(a[..k], b[..4 - k]);
  }

  // The four switches byte by byte: each keeps the bytes on one side and shifts in the others.
  lemma LoadLeftBytes(was: seq<byte>, value: seq<byte>, k: nat)
    requires |was| == |value| == 4 && k < 4
    ensures LoadLeft(DecodeUnsigned(was), DecodeUnsigned(value), k) == DecodeUnsigned(was[..3 - k] + value[..k + 1])
  {
    LowOfBytes(was, 3 - k);
    LowOfBytes(value, k + 1);
    JoinBytes(was[..3 - k], value[..k + 1]);
  }

  lemma LoadRightBytes(was: seq<byte>, value: seq<byte>, k: nat)
    requires |was| == |value| == 4 && k < 4
    ensures LoadRight(DecodeUnsigned(was), DecodeUnsigned(value), k) == DecodeUnsigned(value[k..] + was[4 - k..])
  {
    HighOfBytes(was, 4 - k);
    ShiftRightOfBytes(value, k);
    JoinBytes(value[k..], was[4 - k..]);
  }

  lemma StoreLeftBytes(value: seq<byte>, reg: seq<byte>, k: nat)
    requires |reg| == |value| == 4 && k < 4
    ensures StoreLeft(DecodeUnsigned(value), DecodeUnsigned(reg), k) == DecodeUnsigned(reg[3 - k..] + value[k + 1..])
  {
    HighOfBytes(value, k + 1);
    ShiftRightOfBytes(reg, 3 - k);
    JoinBytes(reg[3 - k..], value[k + 1..]);
  }

  lemma StoreRightBytes(value: seq<byte>, reg: seq<byte>, k: nat)
    requires |reg| == |value| == 4 && k < 4
    ensures StoreRight(DecodeUnsigned(value), DecodeUnsigned(reg), k) == DecodeUnsigned(value[..k] + reg[..4 - k])
  {
    LowOfBytes(value, k);
    LowOfBytes(reg, 4 - k);
    JoinBytes(value[..k], reg[..4 - k]);
  }

  // ---------------------------------------------------------------------
  // The instructions

  datatype LoadOp = LWL | LWR
  datatype StoreOp = SWL | SWR

  function LoadPart(op: LoadOp, was: Word, value: Word, k: nat): Word
    requires k < 4
  {
    if op == LWL then LoadLeft(was, value, k) else LoadRight(was, value, k)
  }

  function StorePart(op: StoreOp, value: Word, reg: Word, k: nat): Word
    requires k < 4
  {
    if op == SWL then StoreLeft(value, reg, k) else StoreRight(value, reg, k)
  }

  predicate IsGp(g: nat) {
    g < NUM_GP_REGS
  }

  // The displacement in an instruction: 16 bits, sign-extended.
  type Offset = e: int | -0x8000 <= e < 0x8000

  // 32-bit addition of a base register and a displacement (or one just beyond).
  function Address(r: Registers, rs: nat, extra: int): (a: Word)
    requires IsGp(rs) && -0x1_0000 < extra < 0x1_0000
    ensures a == (r[rs] + extra) % WRAP
  {
    Sum(r[rs], extra)
  }

  function Sum(base: Word, extra: int): (a: Word)
    requires -0x1_0000 < extra < 0x1_0000
    ensures a == (base + extra) % WRAP
  {
    var sum := base + extra;
    if sum < 0 then sum + WRAP else if sum < WRAP then sum else sum - WRAP
  }

  function Base(a: Word): (w: Word)
    ensures Aligned(w, 4) && w <= a < w + 4
  {
    a - a % 4
  }

  // A pending load of the same register is taken into account.
  function Forwarded(r: Registers, rt: nat): Word
    requires IsGp(rt)
  {
    if r[LOAD] == rt then r[LOAD_VALUE] else r[rt]
  }

  function LoadAt(op: LoadOp, r: Registers, pt: seq<Entry>, mem: Memory, a: Word, rt: nat): Registers
    requires IsGp(rt)
  {
    if !Mapped(pt, Base(a), false) then Trapped(r, Base(a))
    else
      var value := Loaded(VirtualBytes(pt, mem, Base(a), 4));
      Executed(r, rt, LoadPart(op, Forwarded(r, rt), value, a % 4))
  }

  function StoreAt(op: StoreOp, r: Registers, pt: seq<Entry>, mem: Memory, a: Word, rt: nat): (Registers, Memory)
    requires IsGp(rt)
  {
    if !Mapped(pt, Base(a), true) then (Trapped(r, Base(a)), mem)
    else
      var value := Loaded(VirtualBytes(pt, mem, Base(a), 4));
      VirtualBytesAreASlice(pt, mem, Base(a), 4);
      (Executed(r, 0, 0), Overlay(mem, Phys(pt, Base(a)), Stored(StorePart(op, value, r[rt], a % 4), 4)))
  }

  // Execution has gone on to the next instruction.
  ghost predicate Advanced(r: Registers, r': Registers) {
    r'[PREV_PC] == r[PC] && r'[PC] == r[NEXT_PC] && r'[NEXT_PC] == (r[NEXT_PC] + 4) % WRAP
  }

  // The instruction is to be executed again, once the kernel has dealt with the bad address.
  ghost predicate Stopped(r: Registers, r': Registers, addr: Word) {
    r'[PREV_PC] == r[PREV_PC] && r'[PC] == r[PC] && r'[NEXT_PC] == r[NEXT_PC] && r'[BAD_VADDR] == addr
  }

  method ExecuteLoad(m: Machine, op: LoadOp, rs: nat, rt: nat, extra: Offset)
    requires m.Valid() && IsGp(rs) && IsGp(rt)
    modifies m.registers, m.pageTable
    ensures m.Valid() && SameMap(old(m.pageTable[..]), m.pageTable[..])
    ensures m.Regs() == LoadAt(op, old(m.Regs()), old(m.pageTable[..]), m.Mem(), Address(old(m.Regs()), rs, extra), rt)
    ensures var w := Base(Address(old(m.Regs()), rs, extra));
            if Mapped(old(m.pageTable[..]), w, false) then Advanced(old(m.Regs()), m.Regs()) else Stopped(old(m.Regs()), m.Regs(), w)
  {
    var tmp := Sum(m.registers[rs], extra);
    var k := tmp % 4;
    var ok, value := m.ReadMem(tmp - k, 4);
    if !ok {
      return;
    }
    var nextLoadValue: Word;
    if m.registers[LOAD] == rt {
      nextLoadValue := m.registers[LOAD_VALUE];
    } else {
      nextLoadValue := m.registers[rt];
    }
    nextLoadValue := LoadPart(op, nextLoadValue, value, k);
    AdvanceAfter(m, rt, nextLoadValue);
  }

  method AdvanceAfter(m: Machine, nextLoadReg: nat, nextLoadValue: Word)
    requires m.Valid() && IsGp(nextLoadReg)
    modifies m.registers
    ensures m.Valid() && m.Regs() == Executed(old(m.Regs()), nextLoadReg, nextLoadValue)
    ensures Advanced(old(m.Regs()), m.Regs())
  {
    var pcAfter := (m.registers[NEXT_PC] + 4) % WRAP;
    m.DelayedLoad(nextLoadReg, nextLoadValue);
    m.registers[PREV_PC] := m.registers[PC];
    m.registers[PC] := m.registers[NEXT_PC];
    m.registers[NEXT_PC] := pcAfter;
  }

  method ExecuteStore(m: Machine, op: StoreOp, rs: nat, rt: nat, extra: Offset)
    requires m.Valid() && IsGp(rs) && IsGp(rt)
    modifies m.registers, m.pageTable, m.mainMemory
    ensures m.Valid() && SameMap(old(m.pageTable[..]), m.pageTable[..])
    ensures m.Regs() == StoreAt(op, old(m.Regs()), old(m.pageTable[..]), old(m.Mem()), Address(old(m.Regs()), rs, extra), rt).0
    ensures m.Mem() == StoreAt(op, old(m.Regs()), old(m.pageTable[..]), old(m.Mem()), Address(old(m.Regs()), rs, extra), rt).1
    ensures var w := Base(Address(old(m.Regs()), rs, extra));
            if Mapped(old(m.pageTable[..]), w, true) then Advanced(old(m.Regs()), m.Regs()) else Stopped(old(m.Regs()), m.Regs(), w)
  {
    var tmp := Sum(m.registers[rs], extra);
    var k := tmp % 4;
    assert tmp == Address(m.Regs(), rs, extra) && tmp - k == Base(tmp);
    var ok := RewriteWord(m, op, tmp - k, m.registers[rt], k);
    if !ok {
      return;
    }
    AdvanceAfter(m, 0, 0);
  }

  method RewriteWord(m: Machine, op: StoreOp, w: Word, reg: Word, k: nat) returns (ok: bool)
    requires m.Valid() && Aligned(w, 4) && k < 4
    modifies m.registers, m.pageTable, m.mainMemory
    ensures m.Valid() && SameMap(old(m.pageTable[..]), m.pageTable[..])
    ensures ok == Mapped(old(m.pageTable[..]), w, true)
    ensures !ok ==> m.Regs() == Trapped(old(m.Regs()), w) && m.Mem() == old(m.Mem())
    ensures ok ==>
      var pt, mem := old(m.pageTable[..]), old(m.Mem());
      var value := StorePart(op, Loaded(VirtualBytes(pt, mem, w, 4)), reg, k);
      m.Regs() == old(m.Regs()) && Phys(pt, w) + 4 <= MEMORY_SIZE && m.Mem() == Overlay(mem, Phys(pt, w), Stored(value, 4))
  {
    var value;
    ok, value := m.ReadMem(w, 4);
    if !ok {
      return;
    }
    ghost var pt := m.pageTable[..];
    SameMapSamePlace(old(m.pageTable[..]), pt, w, true);
    ok := m.WriteMem(w, 4, StorePart(op, value, reg, k));
    SameMapTransitive(old(m.pageTable[..]), pt, m.pageTable[..]);
  }

  // ---------------------------------------------------------------------
  // The word at an arbitrary address

  function Plus(a: Word, i: nat): (c: Word)
    requires i < 4
    ensures c == (a + i) % WRAP
  {
    if a + i < WRAP then a + i else a + i - WRAP
  }

  lemma AddressPlus(r: Registers, rs: nat, extra: Offset, i: nat)
    requires IsGp(rs) && i < 4
    ensures Address(r, rs, extra + i) == Plus(Address(r, rs, extra), i)
  {
  }

  // The word boundary below a + 3: that of a, or the next one.
  lemma PlusThree(a: Word)
    ensures a % 4 == 0 ==> Plus(a, 3) % 4 == 3 && Base(Plus(a, 3)) == Base(a)
    ensures a % 4 > 0 ==> Plus(a, 3) % 4 == a % 4 - 1 && Base(Plus(a, 3)) == if Base(a) + 4 < WRAP then Base(a) + 4 else 0
  {
    var m, k := a / 4, a % 4;
    if k == 0 {
      DivMod4(Plus(a, 3), m, 3);
    } else {
      DivMod4(Plus(a, 3), if a + 3 < WRAP then m + 1 else m + 1 - 0x4000_0000, k - 1);
    }
  }

  lemma DivMod4(x: nat, m: nat, k: nat)
    requires x == 4 * m + k && k < 4
    ensures x % 4 == k && x - x % 4 == 4 * m
  {
  }

  lemma PlusBase(a: Word, i: nat)
    requires i < 4
    ensures a % 4 + i < 4 ==> Plus(a, i) == Base(a) + (a % 4 + i)
    ensures a % 4 + i >= 4 ==> Plus(a, i) == Base(Plus(a, 3)) + (a % 4 + i - 4)
  {
    PlusThree(a);
  }

  predicate MappedAround(pt: seq<Entry>, a: Word, writing: bool) {
    Mapped(pt, Base(a), writing) && Mapped(pt, Base(Plus(a, 3)), writing)
  }

  // Each of its bytes lies in the aligned word that the left or the right access reads.
  lemma MappedBytes(pt: seq<Entry>, a: Word, i: nat, writing: bool)
    requires MappedAround(pt, a, writing) && i < 4
    ensures Mapped(pt, Plus(a, i), writing)
    ensures a % 4 + i < 4 ==> Phys(pt, Plus(a, i)) == Phys(pt, Base(a)) + a % 4 + i
    ensures a % 4 + i >= 4 ==> Phys(pt, Plus(a, i)) == Phys(pt, Base(Plus(a, 3))) + a % 4 + i - 4
  {
    PlusBase(a, i);
    if a % 4 + i < 4 {
      AlignedWord(pt, Base(a), 4, a % 4 + i, writing);
    } else {
      AlignedWord(pt, Base(Plus(a, 3)), 4, a % 4 + i - 4, writing);
    }
  }

  function UnalignedBytes(pt: seq<Entry>, mem: Memory, a: Word): (b: seq<byte>)
    requires MappedAround(pt, a, false)
    ensures |b| == 4
  {
    seq(4, i requires 0 <= i < 4 => MappedBytes(pt, a, i, false); VirtualByte(pt, mem, Plus(a, i)))
  }

  lemma RightPart(pt: seq<Entry>, mem: Memory, a: Word)
    requires MappedAround(pt, a, false)
    ensures VirtualBytes(pt, mem, Base(a), 4)[a % 4..] == UnalignedBytes(pt, mem, a)[..4 - a % 4]
  {
    var k, u, right := a % 4, UnalignedBytes(pt, mem, a), VirtualBytes(pt, mem, Base(a), 4);
    forall i | 0 <= i < 4 - k
      ensures right[k + i] == u[i]
    {
      RightByte(pt, mem, a, i);
    }
    assert right[k..] == u[..4 - k];
  }

  lemma RightByte(pt: seq<Entry>, mem: Memory, a: Word, i: nat)
    requires MappedAround(pt, a, false) && i < 4 - a % 4
    ensures VirtualBytes(pt, mem, Base(a), 4)[a % 4 + i] == UnalignedBytes(pt, mem, a)[i]
  {
    PlusBase(a, i);
    WordByte(pt, mem, Base(a), a % 4 + i);
    UnalignedByte(pt, mem, a, i);
  }

  lemma WordByte(pt: seq<Entry>, mem: Memory, w: Word, j: nat)
    requires Aligned(w, 4) && Mapped(pt, w, false) && j < 4
    ensures w + j < WRAP && Mapped(pt, w + j, false) && VirtualBytes(pt, mem, w, 4)[j] == VirtualByte(pt, mem, w + j)
  {
    AlignedWord(pt, w, 4, j, false);
  }

  lemma UnalignedByte(pt: seq<Entry>, mem: Memory, a: Word, i: nat)
    requires MappedAround(pt, a, false) && i < 4
    ensures Mapped(pt, Plus(a, i), false) && UnalignedBytes(pt, mem, a)[i] == VirtualByte(pt, mem, Plus(a, i))
  {
    MappedBytes(pt, a, i, false);
  }

  lemma LeftPart(pt: seq<Entry>, mem: Memory, a: Word)
    requires MappedAround(pt, a, false)
    ensures var l := Plus(a, 3) % 4;
            VirtualBytes(pt, mem, Base(Plus(a, 3)), 4)[..l + 1] == UnalignedBytes(pt, mem, a)[3 - l..]
  {
    var l, u, left := Plus(a, 3) % 4, UnalignedBytes(pt, mem, a), VirtualBytes(pt, mem, Base(Plus(a, 3)), 4);
    forall j | 0 <= j <= l
      ensures left[j] == u[3 - l + j]
    {
      LeftByte(pt, mem, a, j);
    }
    assert left[..l + 1] == u[3 - l..];
  }

  lemma LeftByte(pt: seq<Entry>, mem: Memory, a: Word, j: nat)
    requires MappedAround(pt, a, false) && j <= Plus(a, 3) % 4
    ensures VirtualBytes(pt, mem, Base(Plus(a, 3)), 4)[j] == UnalignedBytes(pt, mem, a)[3 - Plus(a, 3) % 4 + j]
  {
    PlusBack(a, j);
    WordByte(pt, mem, Base(Plus(a, 3)), j);
    UnalignedByte(pt, mem, a, 3 - Plus(a, 3) % 4 + j);
  }

  // The bytes below a + 3 in its aligned word, counted from a.
  lemma PlusBack(a: Word, j: nat)
    requires j <= Plus(a, 3) % 4
    ensures Plus(a, 3 - Plus(a, 3) % 4 + j) == Base(Plus(a, 3)) + j
  {
    PlusThree(a);
  }

  // LWL at a + 3, then LWR at a, then the instruction after them; an interrupt may come between
  // the two and complete the pending load.
  function LoadPair(r: Registers, pt: seq<Entry>, mem: Memory, rs: nat, rt: nat, extra: Offset, interrupted: bool): Registers
    requires IsGp(rs) && IsGp(rt)
  {
    var r1 := LoadAt(LWL, r, pt, mem, Address(r, rs, extra + 3), rt);
    var r2 := if interrupted then DelayedLoadResult(r1, 0, 0) else r1;
    DelayedLoadResult(LoadAt(LWR, r2, pt, mem, Address(r2, rs, extra), rt), 0, 0)
  }

  // Where the registers stand after an instruction or an interrupt: the older load is done.
  lemma OlderLoadDone(r: Registers, n: nat, v: Word)
    requires IsGp(n)
    ensures var d, e := DelayedLoadResult(r, n, v), Executed(r, n, v);
            && d[LOAD] == e[LOAD] == n && d[LOAD_VALUE] == e[LOAD_VALUE] == v
            && (forall g :: 0 < g < NUM_GP_REGS ==> d[g] == e[g] == Forwarded(r, g))
  {
  }

  lemma LoadAtMapped(op: LoadOp, r: Registers, pt: seq<Entry>, mem: Memory, a: Word, rt: nat, w: seq<byte>, was: Word)
    requires IsGp(rt) && Mapped(pt, Base(a), false) && w == VirtualBytes(pt, mem, Base(a), 4) && was == Forwarded(r, rt)
    ensures LoadAt(op, r, pt, mem, a, rt) == Executed(r, rt, LoadPart(op, was, DecodeUnsigned(w), a % 4))
  {
  }

  // The pending value after LWL: the bytes above the word boundary are those of the word at a.
  lemma AfterLeft(r: Registers, pt: seq<Entry>, mem: Memory, a: Word, rt: nat, was: seq<byte>)
    requires IsGp(rt) && MappedAround(pt, a, false) && |was| == 4 && Forwarded(r, rt) == DecodeUnsigned(was)
    ensures LoadAt(LWL, r, pt, mem, Plus(a, 3), rt) == Executed(r, rt, DecodeUnsigned(Upper(was, UnalignedBytes(pt, mem, a), a)))
  {
    var c := Plus(a, 3);
    var w := VirtualBytes(pt, mem, Base(c), 4);
    LoadAtMapped(LWL, r, pt, mem, c, rt, w, DecodeUnsigned(was));
    LoadLeftBytes(was, w, c % 4);
    LeftPart(pt, mem, a);
  }

  // LWR completes it when the register already holds the upper bytes.
  lemma AfterRight(r: Registers, pt: seq<Entry>, mem: Memory, a: Word, rt: nat, upper: seq<byte>)
    requires IsGp(rt) && |upper| == 4 && Forwarded(r, rt) == DecodeUnsigned(upper)
    requires MappedAround(pt, a, false) && upper[4 - a % 4..] == UnalignedBytes(pt, mem, a)[4 - a % 4..]
    ensures LoadAt(LWR, r, pt, mem, a, rt) == Executed(r, rt, DecodeUnsigned(UnalignedBytes(pt, mem, a)))
  {
    var u, w := UnalignedBytes(pt, mem, a), VirtualBytes(pt, mem, Base(a), 4);
    LoadAtMapped(LWR, r, pt, mem, a, rt, w, DecodeUnsigned(upper));
    LoadRightBytes(upper, w, a % 4);
    RightPart(pt, mem, a);
    assert u[..4 - a % 4] + u[4 - a % 4..] == u;
  }

  // What LWL leaves pending.
  function Upper(was: seq<byte>, u: seq<byte>, a: Word): (b: seq<byte>)
    requires |was| == |u| == 4
    ensures |b| == 4
  {
    var l := Plus(a, 3) % 4;
    was[..3 - l] + u[3 - l..]
  }

  // The base register when LWR reads it: an older load of it is done, and so is LWL's own when interrupted.
  function SecondBase(r: Registers, rs: nat, rt: nat, pending: Word, interrupted: bool): Word
    requires IsGp(rs) && IsGp(rt)
  {
    if rs == 0 then 0 else if interrupted && rs == rt then pending else Forwarded(r, rs)
  }

  // The registers between LWL and LWR.
  function Between(r: Registers, rt: nat, pending: Word, interrupted: bool): Registers
    requires IsGp(rt)
  {
    var r1 := Executed(r, rt, pending);
    if interrupted then DelayedLoadResult(r1, 0, 0) else r1
  }

  lemma BetweenHolds(r: Registers, rs: nat, rt: nat, pending: Word, interrupted: bool)
    requires IsGp(rs) && IsGp(rt) && rt != 0
    ensures var r2 := Between(r, rt, pending, interrupted);
            && r2[rs] == SecondBase(r, rs, rt, pending, interrupted)
            && Forwarded(r2, rt) == pending
            && forall g :: 0 < g < NUM_GP_REGS && g != rt ==> Forwarded(r2, g) == Forwarded(r, g)
  {
    OlderLoadDone(r, rt, pending);
    OlderLoadDone(Executed(r, rt, pending), 0, 0);
  }

  // The pair up to LWR, which may go anywhere.
  lemma FirstHalf(r: Registers, pt: seq<Entry>, mem: Memory, rs: nat, rt: nat, extra: Offset, interrupted: bool, a: Word, was: seq<byte>)
    requires IsGp(rs) && IsGp(rt) && rt != 0 && a == Address(r, rs, extra) && MappedAround(pt, a, false)
    requires |was| == 4 && DecodeUnsigned(was) == Forwarded(r, rt)
    ensures var pending := DecodeUnsigned(Upper(was, UnalignedBytes(pt, mem, a), a));
            var c := Sum(SecondBase(r, rs, rt, pending, interrupted), extra);
            LoadPair(r, pt, mem, rs, rt, extra, interrupted)
              == DelayedLoadResult(LoadAt(LWR, Between(r, rt, pending, interrupted), pt, mem, c, rt), 0, 0)
  {
    AfterLeft(r, pt, mem, a, rt, was);
    LoadPairSteps(r, pt, mem, rs, rt, extra, interrupted, a, DecodeUnsigned(Upper(was, UnalignedBytes(pt, mem, a), a)));
  }

  lemma LoadPairSteps(r: Registers, pt: seq<Entry>, mem: Memory, rs: nat, rt: nat, extra: Offset, interrupted: bool, a: Word, pending: Word)
    requires IsGp(rs) && IsGp(rt) && rt != 0 && a == Address(r, rs, extra)
    requires LoadAt(LWL, r, pt, mem, Plus(a, 3), rt) == Executed(r, rt, pending)
    ensures var c := Sum(SecondBase(r, rs, rt, pending, interrupted), extra);
            LoadPair(r, pt, mem, rs, rt, extra, interrupted)
              == DelayedLoadResult(LoadAt(LWR, Between(r, rt, pending, interrupted), pt, mem, c, rt), 0, 0)
  {
    AddressPlus(r, rs, extra, 3);
    BetweenHolds(r, rs, rt, pending, interrupted);
  }

  lemma SecondHalf(r: Registers, pt: seq<Entry>, mem: Memory, a: Word, rt: nat, upper: seq<byte>)
    requires IsGp(rt) && |upper| == 4 && Forwarded(r, rt) == DecodeUnsigned(upper) && rt != 0
    requires MappedAround(pt, a, false) && upper[4 - a % 4..] == UnalignedBytes(pt, mem, a)[4 - a % 4..]
    ensures var r' := DelayedLoadResult(LoadAt(LWR, r, pt, mem, a, rt), 0, 0);
            && r'[rt] == DecodeUnsigned(UnalignedBytes(pt, mem, a))
            && r'[LOAD] == 0
            && (forall g :: 0 < g < NUM_GP_REGS && g != rt ==> r'[g] == Forwarded(r, g))
  {
    AfterRight(r, pt, mem, a, rt, upper);
    var v := DecodeUnsigned(UnalignedBytes(pt, mem, a));
    OlderLoadDone(r, rt, v);
    OlderLoadDone(Executed(r, rt, v), 0, 0);
  }

  // LWR takes over every byte that LWL left alone.
  lemma UpperFits(a: Word, was: seq<byte>, u: seq<byte>)
    requires |was| == |u| == 4
    ensures Upper(was, u, a)[4 - a % 4..] == u[4 - a % 4..]
  {
    PlusThree(a);
  }

  // Two instructions further on.
  ghost predicate AdvancedTwice(r: Registers, r': Registers) {
    r'[PREV_PC] == r[NEXT_PC] && r'[PC] == (r[NEXT_PC] + 4) % WRAP && r'[NEXT_PC] == (r[NEXT_PC] + 8) % WRAP
  }

  // An interrupt or the next instruction's delayed load does not move the program counters.
  lemma Onward(r: Registers, r1: Registers, r2: Registers, r3: Registers)
    requires Advanced(r, r1) && (r2 == r1 || r2 == DelayedLoadResult(r1, 0, 0)) && Advanced(r2, r3)
    ensures AdvancedTwice(r, r3) && AdvancedTwice(r, DelayedLoadResult(r3, 0, 0))
  {
  }

  lemma GoesOn(r: Registers, n: nat, v: Word)
    requires IsGp(n)
    ensures Advanced(r, Executed(r, n, v))
  {
  }

  // What the registers must be like: the target can hold a value, an interrupt does not overwrite the base
  // register with the half of the word that LWL has loaded, and no older load is about to change it.
  predicate Sound(r: Registers, rs: nat, rt: nat, interrupted: bool)
    requires IsGp(rs) && IsGp(rt)
  {
    rt != 0 && !(interrupted && rs == rt) && Settled(r, rs)
  }

  lemma LoadGoesOn(op: LoadOp, r: Registers, pt: seq<Entry>, mem: Memory, a: Word, rt: nat)
    requires IsGp(rt) && Mapped(pt, Base(a), false)
    ensures Advanced(r, LoadAt(op, r, pt, mem, a, rt))
  {
    GoesOn(r, rt, LoadPart(op, Forwarded(r, rt), Loaded(VirtualBytes(pt, mem, Base(a), 4)), a % 4));
  }

  lemma LoadPairGoesOn(r: Registers, pt: seq<Entry>, mem: Memory, rs: nat, rt: nat, extra: Offset, interrupted: bool, a: Word)
    requires IsGp(rs) && IsGp(rt) && a == Address(r, rs, extra) && MappedAround(pt, a, false) && Sound(r, rs, rt, interrupted)
    ensures AdvancedTwice(r, LoadPair(r, pt, mem, rs, rt, extra, interrupted))
  {
    AddressPlus(r, rs, extra, 3);
    var r1 := LoadAt(LWL, r, pt, mem, Plus(a, 3), rt);
    var r2 := if interrupted then DelayedLoadResult(r1, 0, 0) else r1;
    var r3 := LoadAt(LWR, r2, pt, mem, a, rt);
    LoadGoesOn(LWL, r, pt, mem, Plus(a, 3), rt);
    BaseStays(r, pt, mem, rs, rt, extra, interrupted, a);
    LoadGoesOn(LWR, r2, pt, mem, a, rt);
    Onward(r, r1, r2, r3);
  }

  lemma BaseStays(r: Registers, pt: seq<Entry>, mem: Memory, rs: nat, rt: nat, extra: Offset, interrupted: bool, a: Word)
    requires IsGp(rs) && IsGp(rt) && a == Address(r, rs, extra) && Mapped(pt, Base(Plus(a, 3)), false) && Sound(r, rs, rt, interrupted)
    ensures var r1 := LoadAt(LWL, r, pt, mem, Plus(a, 3), rt);
            Address(if interrupted then DelayedLoadResult(r1, 0, 0) else r1, rs, extra) == a
  {
    var c := Plus(a, 3);
    var v := LoadPart(LWL, Forwarded(r, rt), Loaded(VirtualBytes(pt, mem, Base(c), 4)), c % 4);
    BetweenHolds(r, rs, rt, v, interrupted);
  }

  // The pair loads the little-endian word at an arbitrary address, interrupted or not, and the only
  // other register it changes is the target of an older load.
  lemma LoadPairLoads(r: Registers, pt: seq<Entry>, mem: Memory, rs: nat, rt: nat, extra: Offset, interrupted: bool)
    requires IsGp(rs) && IsGp(rt) && MappedAround(pt, Address(r, rs, extra), false) && Sound(r, rs, rt, interrupted)
    ensures var r' := LoadPair(r, pt, mem, rs, rt, extra, interrupted);
            && r'[rt] == DecodeUnsigned(UnalignedBytes(pt, mem, Address(r, rs, extra)))
            && r'[LOAD] == 0
            && (forall g :: 0 < g < NUM_GP_REGS && g != rt ==> r'[g] == Forwarded(r, g))
            && AdvancedTwice(r, r')
  {
    var a := Address(r, rs, extra);
    LoadPairGoesOn(r, pt, mem, rs, rt, extra, interrupted, a);
    var was := BytesOf(Forwarded(r, rt));
    var upper := Upper(was, UnalignedBytes(pt, mem, a), a);
    FirstHalf(r, pt, mem, rs, rt, extra, interrupted, a, was);
    BetweenHolds(r, rs, rt, DecodeUnsigned(upper), interrupted);
    UpperFits(a, was, UnalignedBytes(pt, mem, a));
    SecondHalf(Between(r, rt, DecodeUnsigned(upper), interrupted), pt, mem, a, rt, upper);
  }

  // ---------------------------------------------------------------------
  // Nothing less will do: in any other state of the registers the pair fails for some memory.

  ghost predicate LoadsAlways(r: Registers, rs: nat, rt: nat, extra: Offset, interrupted: bool)
    requires IsGp(rs) && IsGp(rt)
  {
    forall pt, mem: Memory :: MappedAround(pt, Address(r, rs, extra), false) ==>
      LoadPair(r, pt, mem, rs, rt, extra, interrupted)[rt] == DecodeUnsigned(UnalignedBytes(pt, mem, Address(r, rs, extra)))
  }

  lemma LoadPairExact(r: Registers, rs: nat, rt: nat, extra: Offset, interrupted: bool)
    requires IsGp(rs) && IsGp(rt)
    ensures LoadsAlways(r, rs, rt, extra, interrupted) <==> Sound(r, rs, rt, interrupted)
  {
    if Sound(r, rs, rt, interrupted) {
      forall pt, mem: Memory | MappedAround(pt, Address(r, rs, extra), false)
        ensures LoadPair(r, pt, mem, rs, rt, extra, interrupted)[rt] == DecodeUnsigned(UnalignedBytes(pt, mem, Address(r, rs, extra)))
      {
        LoadPairLoads(r, pt, mem, rs, rt, extra, interrupted);
      }
    } else {
      var pt, mem := LoadPairFails(r, rs, rt, extra, interrupted);
    }
  }

  ghost predicate LoadsWrong(r: Registers, pt: seq<Entry>, mem: Memory, rs: nat, rt: nat, extra: Offset, interrupted: bool)
    requires IsGp(rs) && IsGp(rt)
  {
    && MappedAround(pt, Address(r, rs, extra), false)
    && LoadPair(r, pt, mem, rs, rt, extra, interrupted)[rt] != DecodeUnsigned(UnalignedBytes(pt, mem, Address(r, rs, extra)))
  }

  // One page, in frame 0, and a memory of ones.
  ghost predicate PageOfOnes(pt: seq<Entry>, mem: Memory) {
    |pt| == 1 && pt[0].valid && pt[0].physicalPage == 0 && forall q :: 0 <= q < MEMORY_SIZE ==> mem[q] == 1
  }

  // The three ways to fail, each at an input with one page: register 0, an interrupted load over its own base,
  // and a base with a load of it still pending.
  lemma FailingInputs(pt: seq<Entry>, mem: Memory)
    requires PageOfOnes(pt, mem)
    ensures LoadsWrong(Pending(0, 0), pt, mem, 4, 0, 1, false)
    ensures LoadsWrong(Pending(0, 0), pt, mem, 4, 4, 1, true)
    ensures LoadsWrong(Pending(4, 0x1_0000), pt, mem, 4, 5, 1, false)
  {
    OnesAtOne(pt, mem, 1);
    LoadIntoZero(Pending(0, 0), pt, mem, 4, 1, false);
    SecondTraps(Pending(0, 0), pt, mem, 4, 4, 1, true);
    SecondTraps(Pending(4, 0x1_0000), pt, mem, 4, 5, 1, false);
  }

  lemma OnesAtOne(pt: seq<Entry>, mem: Memory, a: Word)
    requires PageOfOnes(pt, mem) && a == 1
    ensures MappedAround(pt, a, false)
    ensures var u := UnalignedBytes(pt, mem, a); u[0] == u[3] == 1 && DecodeUnsigned(u) % 256 == 1
  {
    FirstByte(UnalignedBytes(pt, mem, a));
  }

  lemma LoadIntoZero(r: Registers, pt: seq<Entry>, mem: Memory, rs: nat, extra: Offset, interrupted: bool)
    requires IsGp(rs) && PageOfOnes(pt, mem) && Address(r, rs, extra) == 1
    ensures LoadsWrong(r, pt, mem, rs, 0, extra, interrupted)
  {
    OnesAtOne(pt, mem, Address(r, rs, extra));
  }

  // LWR goes outside the page and traps: the register keeps the byte it had below the word boundary.
  lemma SecondTraps(r: Registers, pt: seq<Entry>, mem: Memory, rs: nat, rt: nat, extra: Offset, interrupted: bool)
    requires IsGp(rs) && 0 < rt < NUM_GP_REGS && PageOfOnes(pt, mem) && Address(r, rs, extra) == 1 == extra && Forwarded(r, rt) == 0
    requires (interrupted && rs == rt) || (rs != 0 && Forwarded(r, rs) == 0x1_0000)
    ensures LoadsWrong(r, pt, mem, rs, rt, extra, interrupted)
  {
    var a := Address(r, rs, extra);
    var was := BytesOf(Forwarded(r, rt));
    FirstByte(was);
    OnesAtOne(pt, mem, a);
    FirstHalf(r, pt, mem, rs, rt, extra, interrupted, a, was);
    var upper := Upper(was, UnalignedBytes(pt, mem, a), a);
    assert upper[0] == 0 && upper[3] == 1;
    FirstByte(upper);
    TopByte(upper);
    var pending := DecodeUnsigned(upper);
    var c := Sum(SecondBase(r, rs, rt, pending, interrupted), extra);
    assert c >= 0x1_0000 && Base(c) / PAGE_SIZE >= 1;
    BetweenHolds(r, rs, rt, pending, interrupted);
    TrapKeeps(Between(r, rt, pending, interrupted), Base(c), rt);
  }

  lemma TopByte(b: seq<byte>)
    requires |b| == 4 && b[3] == 1
    ensures LittleEndian(b) >= 0x100_0000 && LittleEndian(b) < 0x200_0000
  {
    assert LittleEndian(b[1..][1..][1..][1..]) == 0;
    assert LittleEndian(b[1..][1..][1..]) == 1;
    assert LittleEndian(b[1..][1..]) < 0x200 && LittleEndian(b[1..][1..]) >= 0x100;
    assert LittleEndian(b[1..]) < 0x2_0000 && LittleEndian(b[1..]) >= 0x1_0000;
  }

  lemma TrapKeeps(r: Registers, addr: Word, rt: nat)
    requires 0 < rt < NUM_GP_REGS
    ensures DelayedLoadResult(Trapped(r, addr), 0, 0)[rt] == Forwarded(r, rt)
  {
  }

  // All registers zero, and a load of value v into register t pending.
  function Pending(t: nat, v: Word): (r: Registers)
    requires IsGp(t)
    ensures r[LOAD] == t && r[LOAD_VALUE] == v && forall g :: 0 <= g < NUM_GP_REGS ==> r[g] == 0
  {
    var zero: seq<Word> := seq(NUM_TOTAL_REGS, i => 0);
    zero[LOAD := t][LOAD_VALUE := v]
  }

  // All addresses are mapped, the page of a to a frame of its own.
  function Pages(a: Word): seq<Entry> {
    seq(0x100_0000, i => Entry(i, if i == a / PAGE_SIZE then 0 else 1, true, false, false, false))
  }

  lemma PagesMap(a: Word, c: Word)
    ensures Mapped(Pages(a), c, true) && (Phys(Pages(a), c) == Phys(Pages(a), a) <==> c == a)
  {
    assert c / PAGE_SIZE < 0x100_0000;
  }

  // Only the byte at a is 1; x is the byte at a + 3.
  function Marked(a: Word, x: byte): Memory {
    PagesMap(a, a);
    PagesMap(a, Plus(a, 3));
    seq(MEMORY_SIZE, i => 0)[Phys(Pages(a), Plus(a, 3)) := x][Phys(Pages(a), a) := 1]
  }

  lemma MarkedBytes(a: Word, x: byte, c: Word)
    requires x != 1
    ensures Mapped(Pages(a), c, false) && (VirtualByte(Pages(a), Marked(a, x), c) == 1 <==> c == a)
    ensures Mapped(Pages(a), Plus(a, 3), false) && VirtualByte(Pages(a), Marked(a, x), Plus(a, 3)) == x
  {
    PagesMap(a, a);
    PagesMap(a, c);
    PagesMap(a, Plus(a, 3));
  }

  lemma LoadPairFails(r: Registers, rs: nat, rt: nat, extra: Offset, interrupted: bool) returns (pt: seq<Entry>, mem: Memory)
    requires IsGp(rs) && IsGp(rt) && !Sound(r, rs, rt, interrupted)
    ensures MappedAround(pt, Address(r, rs, extra), false)
    ensures LoadPair(r, pt, mem, rs, rt, extra, interrupted)[rt] != DecodeUnsigned(UnalignedBytes(pt, mem, Address(r, rs, extra)))
  {
    var a := Address(r, rs, extra);
    pt := Pages(a);
    if rt == 0 {
      mem := Marked(a, 0);
      WordStartsWithOne(a, 0);
    } else {
      var was := BytesOf(Forwarded(r, rt));
      var x := WrongBase(r, rs, rt, extra, interrupted, a, was);
      mem := Marked(a, x);
      WordStartsWithOne(a, x);
      FirstHalf(r, pt, mem, rs, rt, extra, interrupted, a, was);
      var pending := DecodeUnsigned(Upper(was, UnalignedBytes(pt, mem, a), a));
      var c := Sum(SecondBase(r, rs, rt, pending, interrupted), extra);
      MarkedBytes(a, x, c);
      RightElsewhere(Between(r, rt, pending, interrupted), pt, mem, c, rt);
    }
  }

  lemma WordStartsWithOne(a: Word, x: byte)
    requires x != 1
    ensures MappedAround(Pages(a), a, false)
    ensures var u := UnalignedBytes(Pages(a), Marked(a, x), a); u[0] == 1 && u[3] == x && DecodeUnsigned(u) % 256 == 1
  {
    PagesMap(a, Base(a));
    PagesMap(a, Base(Plus(a, 3)));
    MarkedBytes(a, x, a);
    FirstByte(UnalignedBytes(Pages(a), Marked(a, x), a));
  }

  lemma FirstByte(b: seq<byte>)
    requires |b| > 0
    ensures LittleEndian(b) % 256 == b[0] as nat
  {
    DivMod256(LittleEndian(b), LittleEndian(b[1..]), b[0] as nat);
  }

  // Some memory makes LWR use another base than LWL.
  lemma WrongBase(r: Registers, rs: nat, rt: nat, extra: Offset, interrupted: bool, a: Word, was: seq<byte>) returns (x: byte)
    requires IsGp(rs) && IsGp(rt) && !Sound(r, rs, rt, interrupted) && rt != 0 && a == Address(r, rs, extra) && |was| == 4
    ensures x != 1 && MappedAround(Pages(a), a, false)
    ensures var pending := DecodeUnsigned(Upper(was, UnalignedBytes(Pages(a), Marked(a, x), a), a));
            Sum(SecondBase(r, rs, rt, pending, interrupted), extra) != a
  {
    WordStartsWithOne(a, 0);
    WordStartsWithOne(a, 2);
    var b0, b2 := Upper(was, UnalignedBytes(Pages(a), Marked(a, 0), a), a), Upper(was, UnalignedBytes(Pages(a), Marked(a, 2), a), a);
    assert b0[3] == 0 && b2[3] == 2;
    SameValueSameBytes(b0, b2);
    x := if DecodeUnsigned(b0) != r[rs] then 0 else 2;
  }

  lemma SameValueSameBytes(b: seq<byte>, b': seq<byte>)
    requires |b| == |b'| == 4
    ensures DecodeUnsigned(b) == DecodeUnsigned(b') ==> b == b'
  {
    DigitsOfBytes(b);
    DigitsOfBytes(b');
  }

  // Wherever LWR goes, the lowest byte of the result is the byte there.
  lemma RightElsewhere(r: Registers, pt: seq<Entry>, mem: Memory, c: Word, rt: nat)
    requires IsGp(rt) && rt != 0 && Mapped(pt, Base(c), false) && Mapped(pt, c, false)
    ensures DelayedLoadResult(LoadAt(LWR, r, pt, mem, c, rt), 0, 0)[rt] % 256 == VirtualByte(pt, mem, c) as int
  {
    var upper := BytesOf(Forwarded(r, rt));
    var w, k := VirtualBytes(pt, mem, Base(c), 4), c % 4;
    var b := w[k..] + upper[4 - k..];
    LoadAtMapped(LWR, r, pt, mem, c, rt, w, DecodeUnsigned(upper));
    LoadRightBytes(upper, w, k);
    FirstByte(b);
    PlusBase(c, 0);
    assert b[0] == w[k] == VirtualByte(pt, mem, c);
    OlderLoadDone(r, rt, DecodeUnsigned(b));
    OlderLoadDone(Executed(r, rt, DecodeUnsigned(b)), 0, 0);
  }

  // ---------------------------------------------------------------------
  // SWL at a + 3, then SWR at a

  function StorePair(r: Registers, pt: seq<Entry>, mem: Memory, rs: nat, rt: nat, extra: Offset, interrupted: bool): (Registers, Memory)
    requires IsGp(rs) && IsGp(rt)
  {
    var (r1, mem1) := StoreAt(SWL, r, pt, mem, Address(r, rs, extra + 3), rt);
    var r2 := if interrupted then DelayedLoadResult(r1, 0, 0) else r1;
    StoreAt(SWR, r2, pt, mem1, Address(r2, rs, extra), rt)
  }

  lemma StoreAtMapped(op: StoreOp, r: Registers, pt: seq<Entry>, mem: Memory, a: Word, rt: nat, w: seq<byte>, b: seq<byte>)
    requires IsGp(rt) && Mapped(pt, Base(a), true) && w == VirtualBytes(pt, mem, Base(a), 4)
    requires |b| == 4 && StorePart(op, DecodeUnsigned(w), r[rt], a % 4) == DecodeUnsigned(b)
    ensures var p := Phys(pt, Base(a));
            && p + 4 <= MEMORY_SIZE && w == mem[p..p + 4]
            && StoreAt(op, r, pt, mem, a, rt) == (Executed(r, 0, 0), Overlay(mem, p, b))
  {
    VirtualBytesAreASlice(pt, mem, Base(a), 4);
    DigitsOfBytes(b);
  }

  // SWL writes the upper bytes of the register up to its address, SWR the lower ones from it on.
  ghost predicate LeftWritten(mem: Memory, mem': Memory, p: nat, l: nat, reg: seq<byte>)
    requires |reg| == 4 && l < 4
  {
    forall q :: 0 <= q < MEMORY_SIZE ==> mem'[q] == if p <= q <= p + l then reg[3 - l + q - p] else mem[q]
  }

  ghost predicate RightWritten(mem: Memory, mem': Memory, p: nat, k: nat, reg: seq<byte>)
    requires |reg| == 4 && k < 4
  {
    forall q :: 0 <= q < MEMORY_SIZE ==> mem'[q] == if p + k <= q < p + 4 then reg[q - p - k] else mem[q]
  }

  lemma AfterStoreLeft(r: Registers, pt: seq<Entry>, mem: Memory, a: Word, rt: nat, reg: seq<byte>)
    requires IsGp(rt) && Mapped(pt, Base(a), true) && |reg| == 4 && DecodeUnsigned(reg) == r[rt]
    ensures var p, l := Phys(pt, Base(a)), a % 4;
            && StoreAt(SWL, r, pt, mem, a, rt).0 == Executed(r, 0, 0)
            && LeftWritten(mem, StoreAt(SWL, r, pt, mem, a, rt).1, p, l, reg)
  {
    var w, l := VirtualBytes(pt, mem, Base(a), 4), a % 4;
    var b := reg[3 - l..] + w[l + 1..];
    StoreLeftBytes(w, reg, l);
    StoreAtMapped(SWL, r, pt, mem, a, rt, w, b);
  }

  lemma AfterStoreRight(r: Registers, pt: seq<Entry>, mem: Memory, a: Word, rt: nat, reg: seq<byte>)
    requires IsGp(rt) && Mapped(pt, Base(a), true) && |reg| == 4 && DecodeUnsigned(reg) == r[rt]
    ensures var p, k := Phys(pt, Base(a)), a % 4;
            && StoreAt(SWR, r, pt, mem, a, rt).0 == Executed(r, 0, 0)
            && RightWritten(mem, StoreAt(SWR, r, pt, mem, a, rt).1, p, k, reg)
  {
    var w, k := VirtualBytes(pt, mem, Base(a), 4), a % 4;
    var b := w[..k] + reg[..4 - k];
    StoreRightBytes(w, reg, k);
    StoreAtMapped(SWR, r, pt, mem, a, rt, w, b);
  }

  // No older load is about to change register g.
  predicate Settled(r: Registers, g: nat)
    requires IsGp(g)
  {
    g != 0 && r[LOAD] == g ==> r[LOAD_VALUE] == r[g]
  }

  // The four places in main memory, which differ even when both pages share one frame.
  function Places(pt: seq<Entry>, a: Word): (p: seq<nat>)
    requires MappedAround(pt, a, false)
    ensures |p| == 4
  {
    seq(4, i requires 0 <= i < 4 => MappedBytes(pt, a, i, false); Phys(pt, Plus(a, i)))
  }

  lemma PlaceOf(pt: seq<Entry>, a: Word, i: nat)
    requires MappedAround(pt, a, false) && i < 4
    ensures var k, l, p0, p1 := a % 4, Plus(a, 3) % 4, Phys(pt, Base(a)), Phys(pt, Base(Plus(a, 3)));
            && Places(pt, a)[i] == (if k + i < 4 then p0 + k + i else p1 + k + i - 4)
            && l == (if k == 0 then 3 else k - 1)
            && (k == 0 ==> p0 == p1)
            && (k > 0 ==> p0 + 4 <= p1 || p1 + 4 <= p0)
  {
    MappedBytes(pt, a, i, false);
    PlusThree(a);
    WordsApart(pt, a);
  }

  lemma WordsApart(pt: seq<Entry>, a: Word)
    requires MappedAround(pt, a, false)
    ensures a % 4 > 0 ==> var p0, p1 := Phys(pt, Base(a)), Phys(pt, Base(Plus(a, 3))); p0 + 4 <= p1 || p1 + 4 <= p0
  {
    if a % 4 > 0 {
      PlusThree(a);
      var w0, w1 := Base(a), Base(Plus(a, 3));
      NextOffset(w0, w1);
      var o0, o1 := w0 % PAGE_SIZE, w1 % PAGE_SIZE;
      var f0, f1 := pt[w0 / PAGE_SIZE].physicalPage, pt[w1 / PAGE_SIZE].physicalPage;
      assert f0 == f1 || f0 + 1 <= f1 || f1 + 1 <= f0;
    }
  }

  lemma NextOffset(w0: Word, w1: Word)
    requires w0 % 4 == 0 && w1 == if w0 + 4 < WRAP then w0 + 4 else 0
    ensures var o0, o1 := w0 % PAGE_SIZE, w1 % PAGE_SIZE; o0 <= 252 && o1 == if o0 == 252 then 0 else o0 + 4
  {
    WithinPage(w0, 4);
    var q, o := w0 / PAGE_SIZE, w0 % PAGE_SIZE;
    if o < 252 {
      DivMod(w0 + 4, q, o + 4);
    } else {
      DivMod(w0 + 4, q + 1, 0);
    }
  }

  // Exactly the four bytes at a change, to those of the register.
  ghost predicate Stores(r: Registers, pt: seq<Entry>, mem: Memory, mem': Memory, a: Word, rt: nat)
    requires IsGp(rt) && MappedAround(pt, a, true)
  {
    && DecodeUnsigned(UnalignedBytes(pt, mem', a)) == r[rt]
    && (forall q :: 0 <= q < MEMORY_SIZE && q !in Places(pt, a) ==> mem'[q] == mem[q])
  }

  lemma StorePairStores(r: Registers, pt: seq<Entry>, mem: Memory, rs: nat, rt: nat, extra: Offset, interrupted: bool)
    requires IsGp(rs) && IsGp(rt) && MappedAround(pt, Address(r, rs, extra), true) && Settled(r, rs) && Settled(r, rt)
    ensures Stores(r, pt, mem, StorePair(r, pt, mem, rs, rt, extra, interrupted).1, Address(r, rs, extra), rt)
    ensures AdvancedTwice(r, StorePair(r, pt, mem, rs, rt, extra, interrupted).0)
  {
    var a := Address(r, rs, extra);
    StorePairGoesOn(r, pt, mem, rs, rt, extra, interrupted, a);
    var reg := BytesOf(r[rt]);
    var mem1 := StoreHalves(r, pt, mem, rs, rt, extra, interrupted, a, reg, a, reg);
    BothStores(pt, mem, mem1, StorePair(r, pt, mem, rs, rt, extra, interrupted).1, a, reg);
  }

  lemma StoreGoesOn(op: StoreOp, r: Registers, pt: seq<Entry>, mem: Memory, a: Word, rt: nat)
    requires IsGp(rt) && Mapped(pt, Base(a), true)
    ensures Advanced(r, StoreAt(op, r, pt, mem, a, rt).0) && StoreAt(op, r, pt, mem, a, rt).0 == Executed(r, 0, 0)
  {
    GoesOn(r, 0, 0);
  }

  lemma StorePairGoesOn(r: Registers, pt: seq<Entry>, mem: Memory, rs: nat, rt: nat, extra: Offset, interrupted: bool, a: Word)
    requires IsGp(rs) && IsGp(rt) && a == Address(r, rs, extra) && MappedAround(pt, a, true) && Settled(r, rs)
    ensures AdvancedTwice(r, StorePair(r, pt, mem, rs, rt, extra, interrupted).0)
  {
    StoreGoesOn(SWL, r, pt, mem, Plus(a, 3), rt);
    var (r1, mem1) := StoreAt(SWL, r, pt, mem, Plus(a, 3), rt);
    StorePairSteps(r, pt, mem, rs, rt, extra, interrupted, a, mem1);
    var r2 := Between(r, 0, 0, interrupted);
    Meanwhile(r, interrupted);
    StoreGoesOn(SWR, r2, pt, mem1, a, rt);
    Onward(r, r1, r2, StoreAt(SWR, r2, pt, mem1, a, rt).0);
  }

  // SWL stores reg around a; SWR, with the older load done, stores reg' around c.
  lemma StoreHalves(r: Registers, pt: seq<Entry>, mem: Memory, rs: nat, rt: nat, extra: Offset, interrupted: bool,
                    a: Word, reg: seq<byte>, c: Word, reg': seq<byte>)
    returns (mem1: Memory)
    requires IsGp(rs) && IsGp(rt) && a == Address(r, rs, extra) && MappedAround(pt, a, true) && Mapped(pt, Base(c), true)
    requires |reg| == 4 && DecodeUnsigned(reg) == r[rt]
    requires c == Sum(if rs == 0 then 0 else Forwarded(r, rs), extra)
    requires |reg'| == 4 && DecodeUnsigned(reg') == if rt == 0 then 0 else Forwarded(r, rt)
    ensures LeftWritten(mem, mem1, Phys(pt, Base(Plus(a, 3))), Plus(a, 3) % 4, reg)
    ensures RightWritten(mem1, StorePair(r, pt, mem, rs, rt, extra, interrupted).1, Phys(pt, Base(c)), c % 4, reg')
  {
    AfterStoreLeft(r, pt, mem, Plus(a, 3), rt, reg);
    mem1 := StoreAt(SWL, r, pt, mem, Plus(a, 3), rt).1;
    StorePairSteps(r, pt, mem, rs, rt, extra, interrupted, a, mem1);
    var r2 := Between(r, 0, 0, interrupted);
    Meanwhile(r, interrupted);
    assert Address(r2, rs, extra) == c && r2[rt] == DecodeUnsigned(reg');
    SecondStore(r2, pt, mem1, c, rt, reg', StorePair(r, pt, mem, rs, rt, extra, interrupted).1);
  }

  lemma StorePairSteps(r: Registers, pt: seq<Entry>, mem: Memory, rs: nat, rt: nat, extra: Offset, interrupted: bool, a: Word, mem1: Memory)
    requires IsGp(rs) && IsGp(rt) && a == Address(r, rs, extra)
    requires StoreAt(SWL, r, pt, mem, Plus(a, 3), rt) == (Executed(r, 0, 0), mem1)
    ensures var r2 := Between(r, 0, 0, interrupted);
            StorePair(r, pt, mem, rs, rt, extra, interrupted) == StoreAt(SWR, r2, pt, mem1, Address(r2, rs, extra), rt)
  {
    AddressPlus(r, rs, extra, 3);
  }

  lemma SecondStore(r: Registers, pt: seq<Entry>, mem: Memory, c: Word, rt: nat, reg: seq<byte>, mem': Memory)
    requires IsGp(rt) && Mapped(pt, Base(c), true) && |reg| == 4 && DecodeUnsigned(reg) == r[rt]
    requires mem' == StoreAt(SWR, r, pt, mem, c, rt).1
    ensures RightWritten(mem, mem', Phys(pt, Base(c)), c % 4, reg)
  {
    AfterStoreRight(r, pt, mem, c, rt, reg);
  }

  lemma Meanwhile(r: Registers, interrupted: bool)
    ensures var r2 := Between(r, 0, 0, interrupted);
            r2[0] == 0 && forall g :: 0 < g < NUM_GP_REGS ==> r2[g] == Forwarded(r, g)
  {
    OlderLoadDone(r, 0, 0);
    OlderLoadDone(Executed(r, 0, 0), 0, 0);
  }

  lemma BothStores(pt: seq<Entry>, mem: Memory, mem1: Memory, mem2: Memory, a: Word, reg: seq<byte>)
    requires MappedAround(pt, a, false) && |reg| == 4
    requires LeftWritten(mem, mem1, Phys(pt, Base(Plus(a, 3))), Plus(a, 3) % 4, reg)
    requires RightWritten(mem1, mem2, Phys(pt, Base(a)), a % 4, reg)
    ensures UnalignedBytes(pt, mem2, a) == reg
    ensures forall q :: 0 <= q < MEMORY_SIZE && q !in Places(pt, a) ==> mem2[q] == mem[q]
  {
    forall i | 0 <= i < 4
      ensures UnalignedBytes(pt, mem2, a)[i] == reg[i]
    {
      PlaceOf(pt, a, i);
    }
    forall q | 0 <= q < MEMORY_SIZE && q !in Places(pt, a)
      ensures mem2[q] == mem[q]
    {
      OutsideBoth(pt, a, q);
    }
  }

  lemma OutsideBoth(pt: seq<Entry>, a: Word, q: nat)
    requires MappedAround(pt, a, false) && q !in Places(pt, a)
    ensures var p, l := Phys(pt, Base(Plus(a, 3))), Plus(a, 3) % 4; !(p <= q <= p + l)
    ensures var p, k := Phys(pt, Base(a)), a % 4; !(p + k <= q < p + 4)
  {
    PlaceOf(pt, a, 0);
    PlaceOf(pt, a, 1);
    PlaceOf(pt, a, 2);
    PlaceOf(pt, a, 3);
  }

  // ---------------------------------------------------------------------
  // Nothing less than the exact condition, in each state of the registers

  ghost predicate StoresAlways(r: Registers, rs: nat, rt: nat, extra: Offset, interrupted: bool)
    requires IsGp(rs) && IsGp(rt)
  {
    forall pt, mem: Memory :: MappedAround(pt, Address(r, rs, extra), true) ==>
      Stores(r, pt, mem, StorePair(r, pt, mem, rs, rt, extra, interrupted).1, Address(r, rs, extra), rt)
  }

  // A register when SWR reads it: an older load of it is done.
  function Later(r: Registers, g: nat): Word
    requires IsGp(g)
  {
    if g == 0 then 0 else Forwarded(r, g)
  }

  function WordBytes(v: Word): (b: seq<byte>)
    ensures |b| == 4
  {
    Digits(v, 4)
  }

  lemma WordBytesValue(v: Word)
    ensures DecodeUnsigned(WordBytes(v)) == v
  {
    var b := BytesOf(v);
    DigitsOfBytes(b);
  }

  // SWR goes to byte i of the word: to its first one, or to any one when SWL has stored the whole word already.
  predicate Lands(a: Word, c: Word, i: nat) {
    i < 4 && c == Plus(a, i) && (i == 0 || a % 4 == 0)
  }

  // From there up to the boundary it stores the bytes that belong there.
  predicate Fits(reg: seq<byte>, late: seq<byte>, c: Word, i: nat)
    requires |reg| == |late| == 4
  {
    forall j :: 0 <= j < 4 - c % 4 && i + j < 4 ==> late[j] == reg[i + j]
  }

  ghost predicate StoreSound(r: Registers, rs: nat, rt: nat, extra: Offset)
    requires IsGp(rs) && IsGp(rt)
  {
    exists i: nat :: Lands(Address(r, rs, extra), Sum(Later(r, rs), extra), i)
                     && Fits(WordBytes(r[rt]), WordBytes(Later(r, rt)), Sum(Later(r, rs), extra), i)
  }

  lemma StorePairExact(r: Registers, rs: nat, rt: nat, extra: Offset, interrupted: bool)
    requires IsGp(rs) && IsGp(rt)
    ensures StoresAlways(r, rs, rt, extra, interrupted) <==> StoreSound(r, rs, rt, extra)
  {
    var a, c := Address(r, rs, extra), Sum(Later(r, rs), extra);
    var reg, late := WordBytes(r[rt]), WordBytes(Later(r, rt));
    WordBytesValue(r[rt]);
    WordBytesValue(Later(r, rt));
    if i: nat :| Lands(a, c, i) && Fits(reg, late, c, i) {
      forall pt, mem: Memory | MappedAround(pt, a, true)
        ensures Stores(r, pt, mem, StorePair(r, pt, mem, rs, rt, extra, interrupted).1, a, rt)
      {
        SoundStores(r, pt, mem, rs, rt, extra, interrupted, a, c, reg, late, i);
      }
    } else {
      UnsoundFails(r, rs, rt, extra, interrupted, a, c, reg, late);
    }
  }

  lemma SoundStores(r: Registers, pt: seq<Entry>, mem: Memory, rs: nat, rt: nat, extra: Offset, interrupted: bool,
                    a: Word, c: Word, reg: seq<byte>, late: seq<byte>, i: nat)
    requires IsGp(rs) && IsGp(rt) && a == Address(r, rs, extra) && MappedAround(pt, a, true) && c == Sum(Later(r, rs), extra)
    requires |reg| == |late| == 4 && DecodeUnsigned(reg) == r[rt] && DecodeUnsigned(late) == Later(r, rt)
    requires Lands(a, c, i) && Fits(reg, late, c, i)
    ensures Stores(r, pt, mem, StorePair(r, pt, mem, rs, rt, extra, interrupted).1, a, rt)
  {
    SameWord(a, c, i);
    PlusThree(a);
    var mem1 := StoreHalves(r, pt, mem, rs, rt, extra, interrupted, a, reg, c, late);
    var mem' := StorePair(r, pt, mem, rs, rt, extra, interrupted).1;
    RightFits(mem, mem1, mem', Phys(pt, Base(a)), Phys(pt, Base(Plus(a, 3))), a, c, i, reg, late);
    BothStores(pt, mem, mem1, mem', a, reg);
  }

  lemma SameWord(a: Word, c: Word, i: nat)
    requires Lands(a, c, i)
    ensures Base(c) == Base(a) && c % 4 == a % 4 + i
  {
    DivMod4(c, a / 4, a % 4 + i);
  }

  lemma RightFits(mem: Memory, mem1: Memory, mem': Memory, p: nat, p3: nat, a: Word, c: Word, i: nat, reg: seq<byte>, late: seq<byte>)
    requires Lands(a, c, i) && |reg| == |late| == 4 && Fits(reg, late, c, i) && (a % 4 == 0 ==> p == p3)
    requires LeftWritten(mem, mem1, p3, Plus(a, 3) % 4, reg) && RightWritten(mem1, mem', p, c % 4, late)
    ensures RightWritten(mem1, mem', p, a % 4, reg)
  {
    SameWord(a, c, i);
    PlusThree(a);
    forall q | 0 <= q < MEMORY_SIZE
      ensures mem'[q] == if p + a % 4 <= q < p + 4 then reg[q - p - a % 4] else mem1[q]
    {
      if p + c % 4 <= q < p + 4 {
        var j := q - p - c % 4;
        assert late[j] == reg[i + j];
      }
    }
  }

  // All addresses are mapped; the pages of a and a + 3 have frames of their own.
  function TwoPages(a: Word): seq<Entry> {
    seq(0x100_0000, i => Entry(i, if i == a / PAGE_SIZE then 0 else if i == Plus(a, 3) / PAGE_SIZE then 1 else 2, true, false, false, false))
  }

  lemma TwoPagesMap(a: Word, c: Word)
    ensures Mapped(TwoPages(a), c, true)
    ensures var f := TwoPages(a)[c / PAGE_SIZE].physicalPage;
            f == (if c / PAGE_SIZE == a / PAGE_SIZE then 0 else if c / PAGE_SIZE == Plus(a, 3) / PAGE_SIZE then 1 else 2)
            && Phys(TwoPages(a), c) == f * PAGE_SIZE + c % PAGE_SIZE
  {
    assert c / PAGE_SIZE < 0x100_0000;
  }

  // No other address lies where a byte of the word does.
  lemma OwnPlace(a: Word, i: nat, c: Word)
    requires i < 4
    ensures Mapped(TwoPages(a), c, true) && Mapped(TwoPages(a), Plus(a, i), true)
    ensures Phys(TwoPages(a), c) == Phys(TwoPages(a), Plus(a, i)) ==> c == Plus(a, i)
  {
    TwoPagesMap(a, c);
    TwoPagesMap(a, Plus(a, i));
    PageOfByte(a, i);
  }

  lemma PageOfByte(a: Word, i: nat)
    requires i < 4
    ensures Plus(a, i) / PAGE_SIZE == a / PAGE_SIZE || Plus(a, i) / PAGE_SIZE == Plus(a, 3) / PAGE_SIZE
  {
    PlusBase(a, i);
    WithinPage(Base(a), 4);
    WithinPage(Base(Plus(a, 3)), 4);
    if a % 4 + i < 4 {
      SamePage(Base(a), a % 4);
      SamePage(Base(a), a % 4 + i);
    } else {
      SamePage(Base(Plus(a, 3)), Plus(a, 3) % 4);
      SamePage(Base(Plus(a, 3)), a % 4 + i - 4);
    }
  }

  lemma SamePage(w: Word, o: nat)
    requires w % PAGE_SIZE + o < PAGE_SIZE
    ensures (w + o) / PAGE_SIZE == w / PAGE_SIZE
  {
    DivMod(w + o, w / PAGE_SIZE, w % PAGE_SIZE + o);
  }

  lemma UnsoundFails(r: Registers, rs: nat, rt: nat, extra: Offset, interrupted: bool, a: Word, c: Word, reg: seq<byte>, late: seq<byte>)
    requires IsGp(rs) && IsGp(rt) && a == Address(r, rs, extra) && c == Sum(Later(r, rs), extra)
    requires |reg| == |late| == 4 && DecodeUnsigned(reg) == r[rt] && DecodeUnsigned(late) == Later(r, rt)
    requires forall i: nat :: Lands(a, c, i) ==> !Fits(reg, late, c, i)
    ensures !StoresAlways(r, rs, rt, extra, interrupted)
  {
    var z: byte := if reg[0] != 0 && late[0] != 0 then 0 else if reg[0] != 1 && late[0] != 1 then 1 else 2;
    var mem := seq(MEMORY_SIZE, i => z);
    TwoPagesMap(a, Base(a));
    TwoPagesMap(a, Base(Plus(a, 3)));
    TwoPagesMap(a, Base(c));
    FailsOn(r, TwoPages(a), mem, rs, rt, extra, interrupted, a, c, reg, late, z);
  }

  lemma FailsOn(r: Registers, pt: seq<Entry>, mem: Memory, rs: nat, rt: nat, extra: Offset, interrupted: bool,
                a: Word, c: Word, reg: seq<byte>, late: seq<byte>, z: byte)
    requires IsGp(rs) && IsGp(rt) && a == Address(r, rs, extra) && c == Sum(Later(r, rs), extra)
    requires |reg| == |late| == 4 && DecodeUnsigned(reg) == r[rt] && DecodeUnsigned(late) == Later(r, rt)
    requires forall i: nat :: Lands(a, c, i) ==> !Fits(reg, late, c, i)
    requires pt == TwoPages(a) && MappedAround(pt, a, true) && Mapped(pt, Base(c), true)
    requires reg[0] != z && late[0] != z && forall q :: 0 <= q < MEMORY_SIZE ==> mem[q] == z
    ensures !Stores(r, pt, mem, StorePair(r, pt, mem, rs, rt, extra, interrupted).1, a, rt)
  {
    var mem1 := StoreHalves(r, pt, mem, rs, rt, extra, interrupted, a, reg, c, late);
    var mem' := StorePair(r, pt, mem, rs, rt, extra, interrupted).1;
    if Stores(r, pt, mem, mem', a, rt) {
      SameValueSameBytes(UnalignedBytes(pt, mem', a), reg);
      var i := MustLand(pt, a, c, mem, mem1, mem', reg, late, z);
    }
  }

  // If memory ends up right, the second store went where it should and stored what it should.
  lemma MustLand(pt: seq<Entry>, a: Word, c: Word, mem: Memory, mem1: Memory, mem': Memory, reg: seq<byte>, late: seq<byte>, z: byte)
    returns (i: nat)
    requires pt == TwoPages(a) && MappedAround(pt, a, true) && Mapped(pt, Base(c), true)
    requires |reg| == |late| == 4 && reg[0] != z && late[0] != z && forall q :: 0 <= q < MEMORY_SIZE ==> mem[q] == z
    requires LeftWritten(mem, mem1, Phys(pt, Base(Plus(a, 3))), Plus(a, 3) % 4, reg)
    requires RightWritten(mem1, mem', Phys(pt, Base(c)), c % 4, late)
    requires UnalignedBytes(pt, mem', a) == reg
    requires forall q :: 0 <= q < MEMORY_SIZE && q !in Places(pt, a) ==> mem'[q] == mem[q]
    ensures Lands(a, c, i) && Fits(reg, late, c, i)
  {
    i := FirstLands(pt, a, c, mem, mem', mem1, late, z);
    OnlyWhenAligned(pt, a, c, i, mem, mem1, mem', reg, late, z);
    LateBytesFit(pt, a, c, i, mem1, mem', reg, late);
  }

  lemma LateBytesFit(pt: seq<Entry>, a: Word, c: Word, i: nat, mem1: Memory, mem': Memory, reg: seq<byte>, late: seq<byte>)
    requires MappedAround(pt, a, true) && Lands(a, c, i) && Mapped(pt, Base(c), true) && |reg| == |late| == 4
    requires RightWritten(mem1, mem', Phys(pt, Base(c)), c % 4, late) && UnalignedBytes(pt, mem', a) == reg
    ensures Fits(reg, late, c, i)
  {
    SameWord(a, c, i);
    forall j | 0 <= j < 4 - c % 4 && i + j < 4
      ensures late[j] == reg[i + j]
    {
      PlaceOf(pt, a, i + j);
      ByteAt(pt, mem', a, i + j);
    }
  }

  lemma ByteAt(pt: seq<Entry>, mem: Memory, a: Word, i: nat)
    requires MappedAround(pt, a, false) && i < 4
    ensures Places(pt, a)[i] < MEMORY_SIZE && UnalignedBytes(pt, mem, a)[i] == mem[Places(pt, a)[i]]
  {
    MappedBytes(pt, a, i, false);
  }

  lemma FirstLands(pt: seq<Entry>, a: Word, c: Word, mem: Memory, mem': Memory, mem1: Memory, late: seq<byte>, z: byte) returns (i: nat)
    requires pt == TwoPages(a) && MappedAround(pt, a, true) && Mapped(pt, Base(c), true)
    requires |late| == 4 && late[0] != z && forall q :: 0 <= q < MEMORY_SIZE ==> mem[q] == z
    requires RightWritten(mem1, mem', Phys(pt, Base(c)), c % 4, late)
    requires forall q :: 0 <= q < MEMORY_SIZE && q !in Places(pt, a) ==> mem'[q] == mem[q]
    ensures i < 4 && c == Plus(a, i)
  {
    FirstByteAt(pt, c, mem1, mem', late);
    var q := Phys(pt, c);
    assert q in Places(pt, a);
    i :| 0 <= i < 4 && Places(pt, a)[i] == q;
    OwnPlace(a, i, c);
  }

  lemma FirstByteAt(pt: seq<Entry>, c: Word, mem1: Memory, mem': Memory, late: seq<byte>)
    requires Mapped(pt, Base(c), true) && |late| == 4 && RightWritten(mem1, mem', Phys(pt, Base(c)), c % 4, late)
    ensures Mapped(pt, c, true) && mem'[Phys(pt, c)] == late[0]
  {
    AlignedWord(pt, Base(c), 4, c % 4, true);
  }

  // The byte at a is left to the second store, unless SWL has the whole word.
  lemma OnlyWhenAligned(pt: seq<Entry>, a: Word, c: Word, i: nat, mem: Memory, mem1: Memory, mem': Memory, reg: seq<byte>, late: seq<byte>, z: byte)
    requires MappedAround(pt, a, true) && i < 4 && c == Plus(a, i) && Mapped(pt, Base(c), true)
    requires |reg| == |late| == 4 && reg[0] != z && forall q :: 0 <= q < MEMORY_SIZE ==> mem[q] == z
    requires LeftWritten(mem, mem1, Phys(pt, Base(Plus(a, 3))), Plus(a, 3) % 4, reg)
    requires RightWritten(mem1, mem', Phys(pt, Base(c)), c % 4, late) && UnalignedBytes(pt, mem', a)[0] == reg[0]
    ensures Lands(a, c, i)
  {
    PlaceOf(pt, a, 0);
    PlaceOf(pt, a, i);
    ByteAt(pt, mem', a, 0);
    WordOf(a, i);
  }

  lemma WordOf(a: Word, i: nat)
    requires i < 4
    ensures a % 4 + i < 4 ==> Base(Plus(a, i)) == Base(a) && Plus(a, i) % 4 == a % 4 + i
    ensures a % 4 + i >= 4 ==> Base(Plus(a, i)) == Base(Plus(a, 3)) && Plus(a, i) % 4 == a % 4 + i - 4
  {
    PlusBase(a, i);
    if a % 4 + i < 4 {
      DivMod4(Plus(a, i), a / 4, a % 4 + i);
    } else {
      DivMod4(Plus(a, i), Plus(a, 3) / 4, a % 4 + i - 4);
    }
  }

  // While a load into register p is pending, the pair stores its word, whatever the registers and the memory
  // hold, exactly if p is neither its base nor its source.
  ghost predicate StoresWhilePending(p: nat, rs: nat, rt: nat, interrupted: bool)
    requires IsGp(rs) && IsGp(rt)
  {
    forall r: Registers, pt, mem: Memory, extra: Offset :: r[LOAD] == p && MappedAround(pt, Address(r, rs, extra), true) ==>
      Stores(r, pt, mem, StorePair(r, pt, mem, rs, rt, extra, interrupted).1, Address(r, rs, extra), rt)
  }

  lemma StorePendingExact(p: nat, rs: nat, rt: nat, interrupted: bool)
    requires IsGp(p) && IsGp(rs) && IsGp(rt)
    ensures StoresWhilePending(p, rs, rt, interrupted) <==> p == 0 || (p != rs && p != rt)
  {
    if p == 0 || (p != rs && p != rt) {
      forall r: Registers, pt, mem: Memory, extra: Offset | r[LOAD] == p && MappedAround(pt, Address(r, rs, extra), true)
        ensures Stores(r, pt, mem, StorePair(r, pt, mem, rs, rt, extra, interrupted).1, Address(r, rs, extra), rt)
      {
        StorePairStores(r, pt, mem, rs, rt, extra, interrupted);
      }
    } else {
      var r, pt, mem, extra := StorePairFails(p, rs, rt, interrupted);
    }
  }

  // One page, in frame 0, with a byte 1 at address 4.
  predicate OnePage(pt: seq<Entry>, mem: Memory) {
    |pt| == 1 && pt[0].valid && !pt[0].readOnly && pt[0].physicalPage == 0 && mem[4] == 1
  }

  // The late load moves the base by a word, or changes what is stored.
  lemma StorePairFails(p: nat, rs: nat, rt: nat, interrupted: bool) returns (r: Registers, pt: seq<Entry>, mem: Memory, extra: Offset)
    requires 0 < p < NUM_GP_REGS && IsGp(rs) && IsGp(rt) && (p == rs || p == rt)
    ensures r[LOAD] == p && MappedAround(pt, Address(r, rs, extra), true)
    ensures !Stores(r, pt, mem, StorePair(r, pt, mem, rs, rt, extra, interrupted).1, Address(r, rs, extra), rt)
  {
    r, pt, mem, extra := Pending(p, 4), [Entry(0, 0, true, false, false, false)], seq(MEMORY_SIZE, i => 1), 0;
    if p == rs {
      BaseMoves(r, pt, mem, rs, rt, extra, interrupted);
    } else {
      SourceChanges(r, pt, mem, rs, rt, extra, interrupted);
    }
  }

  lemma BaseMoves(r: Registers, pt: seq<Entry>, mem: Memory, rs: nat, rt: nat, extra: Offset, interrupted: bool)
    requires 0 < rs < NUM_GP_REGS && IsGp(rt) && OnePage(pt, mem) && extra == 0
    requires r[LOAD] == rs && r[LOAD_VALUE] == 4 && r[rs] == r[rt] == 0
    ensures MappedAround(pt, Address(r, rs, extra), true)
    ensures !Stores(r, pt, mem, StorePair(r, pt, mem, rs, rt, extra, interrupted).1, Address(r, rs, extra), rt)
  {
    ZeroAndFour();
    var zero, second := [0 as byte, 0, 0, 0], if rs == rt then [4 as byte, 0, 0, 0] else [0, 0, 0, 0];
    var mem1 := StoreHalves(r, pt, mem, rs, rt, extra, interrupted, 0, zero, 4, second);
    FifthByteChanges(pt, mem, mem1, StorePair(r, pt, mem, rs, rt, extra, interrupted).1, 0, 4, second);
  }

  lemma FifthByteChanges(pt: seq<Entry>, mem: Memory, mem1: Memory, mem': Memory, a: Word, c: Word, second: seq<byte>)
    requires OnePage(pt, mem) && a == 0 && c == 4 && MappedAround(pt, a, true) && |second| == 4 && second[0] != 1
    requires Mapped(pt, Base(c), true) && RightWritten(mem1, mem', Phys(pt, Base(c)), c % 4, second)
    ensures 4 !in Places(pt, a) && mem'[4] != mem[4]
  {
    FirstByteAt(pt, c, mem1, mem', second);
    FirstPlaces(pt, mem, a);
  }

  lemma FirstPlaces(pt: seq<Entry>, mem: Memory, a: Word)
    requires OnePage(pt, mem) && a == 0 && MappedAround(pt, a, true)
    ensures forall i :: 0 <= i < 4 ==> Places(pt, a)[i] == i
  {
    forall i | 0 <= i < 4
      ensures Places(pt, a)[i] == i
    {
      PlaceOf(pt, a, i);
    }
  }

  lemma SourceChanges(r: Registers, pt: seq<Entry>, mem: Memory, rs: nat, rt: nat, extra: Offset, interrupted: bool)
    requires IsGp(rs) && 0 < rt < NUM_GP_REGS && rs != rt && OnePage(pt, mem) && extra == 0
    requires r[LOAD] == rt && r[LOAD_VALUE] == 4 && r[rs] == r[rt] == 0
    ensures MappedAround(pt, Address(r, rs, extra), true)
    ensures !Stores(r, pt, mem, StorePair(r, pt, mem, rs, rt, extra, interrupted).1, Address(r, rs, extra), rt)
  {
    ZeroAndFour();
    var zero, four := [0 as byte, 0, 0, 0], [4 as byte, 0, 0, 0];
    var a := Address(r, rs, extra);
    var mem1 := StoreHalves(r, pt, mem, rs, rt, extra, interrupted, a, zero, a, four);
    FourAtZero(pt, mem, mem1, StorePair(r, pt, mem, rs, rt, extra, interrupted).1, a, four);
  }

  lemma FourAtZero(pt: seq<Entry>, mem: Memory, mem1: Memory, mem': Memory, a: Word, four: seq<byte>)
    requires OnePage(pt, mem) && MappedAround(pt, a, true) && a == 0 && |four| == 4 && four[0] == 4
    requires RightWritten(mem1, mem', Phys(pt, Base(a)), a % 4, four)
    ensures DecodeUnsigned(UnalignedBytes(pt, mem', a)) % 256 == 4
  {
    FirstByte(UnalignedBytes(pt, mem', a));
    MappedBytes(pt, a, 0, false);
    assert mem'[Phys(pt, a)] == four[0];
  }

  lemma ZeroAndFour()
    ensures LittleEndian([0, 0, 0, 0]) == 0 && LittleEndian([4, 0, 0, 0]) == 4
  {
    assert LittleEndian([]) == 0;
    assert [0 as byte][1..] == [] && LittleEndian([0]) == 0;
    assert [0 as byte, 0][1..] == [0] && LittleEndian([0, 0]) == 0;
    assert [0 as byte, 0, 0][1..] == [0, 0] && LittleEndian([0, 0, 0]) == 0;
    assert [0 as byte, 0, 0, 0][1..] == [0, 0, 0] && [4 as byte, 0, 0, 0][1..] == [0, 0, 0];
  }

  // A word stored at any address is loaded back from it, into any register that can hold it.
  lemma StoreThenLoad(r: Registers, r': Registers, pt: seq<Entry>, mem: Memory, rs: nat, rt: nat, extra: Offset, first: bool,
                      rs': nat, rt': nat, extra': Offset, second: bool)
    requires IsGp(rs) && IsGp(rt) && MappedAround(pt, Address(r, rs, extra), true) && Settled(r, rs) && Settled(r, rt)
    requires IsGp(rs') && IsGp(rt') && Sound(r', rs', rt', second)
    requires Address(r', rs', extra') == Address(r, rs, extra)
    ensures LoadPair(r', pt, StorePair(r, pt, mem, rs, rt, extra, first).1, rs', rt', extra', second)[rt'] == r[rt]
  {
    StorePairStores(r, pt, mem, rs, rt, extra, first);
    LoadPairLoads(r', pt, StorePair(r, pt, mem, rs, rt, extra, first).1, rs', rt', extra', second);
  }
}
