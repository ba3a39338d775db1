// Loading a program into page frames (userprog/addrspace.cc).
module AddressSpaces {
  import opened Collections
  import opened Disks
  import opened Bitmaps
  import Files
  import opened Machines

  const USER_STACK_SIZE := 1024

  datatype Segment = Segment(virtualAddr: int, inFileAddr: int, size: int)
  datatype NoffHeader = NoffHeader(code: Segment, initData: Segment, readonlyData: Segment, uninitData: Segment)

  // What the linker guarantees; nothing is asked of the sizes beyond their sign.
  predicate WellFormed(h: NoffHeader) {
    && h.code.virtualAddr == 0
    && h.code.inFileAddr >= 0 && h.initData.inFileAddr >= 0 && h.readonlyData.inFileAddr >= 0
    && h.code.size >= 0 && h.initData.size >= 0 && h.readonlyData.size >= 0 && h.uninitData.size >= 0
  }

  // The fewest pages that hold all segments and the stack.
  function PagesNeeded(h: NoffHeader): (n: nat)
    requires WellFormed(h)
    ensures var size := h.code.size + h.readonlyData.size + h.initData.size + h.uninitData.size + USER_STACK_SIZE;
            PAGE_SIZE * (n - 1) < size <= PAGE_SIZE * n
  {
    DivRoundUp(h.code.size + h.readonlyData.size + h.initData.size + h.uninitData.size + USER_STACK_SIZE, PAGE_SIZE)
  }

  // ---------------------------------------------------------------------
  // The flat image

  // n bytes of a file; what lies beyond its end counts as zero.
  function Piece(file: seq<byte>, position: nat, n: nat): (b: seq<byte>)
    ensures |b| == n
  {
    seq(n, k requires 0 <= k < n => if position + k < |file| then file[position + k] else 0)
  }

  lemma PiecesJoin(file: seq<byte>, position: nat, n: nat, n': nat)
    ensures Piece(file, position, n) + Piece(file, position + n, n') == Piece(file, position, n + n')
  {
  }

  function SegmentBytes(file: seq<byte>, seg: Segment): (b: seq<byte>)
    requires seg.inFileAddr >= 0 && seg.size >= 0
    ensures |b| == seg.size
  {
    Piece(file, seg.inFileAddr, seg.size)
  }

  function Payload(file: seq<byte>, h: NoffHeader): seq<byte>
    requires WellFormed(h)
  {
    SegmentBytes(file, h.code) + SegmentBytes(file, h.initData) + SegmentBytes(file, h.readonlyData)
  }

  function Zeros(n: nat): (b: seq<byte>)
    ensures |b| == n
  {
    seq(n, i => 0)
  }

  // img, then zeros up to length n.
  function Padded(img: seq<byte>, n: nat): (b: seq<byte>)
    requires |img| <= n
    ensures |b| == n
  {
    img + Zeros(n - |img|)
  }

  // ---------------------------------------------------------------------
  // Frames as a flat space

  ghost predicate InMemory(frames: seq<int>) {
    forall i :: 0 <= i < |frames| ==> 0 <= frames[i] < NUM_PHYS_PAGES
  }

  // Main memory as seen through a list of frames.
  ghost function View(mem: Memory, frames: seq<int>): (v: seq<byte>)
    requires InMemory(frames)
    ensures |v| == PAGE_SIZE * |frames|
  {
    seq(PAGE_SIZE * |frames|, v requires 0 <= v < PAGE_SIZE * |frames| => mem[frames[v / PAGE_SIZE] * PAGE_SIZE + v % PAGE_SIZE])
  }

  lemma PageArithmetic(i: nat, o: nat, v: nat)
    requires o < PAGE_SIZE && v == PAGE_SIZE * i + o
    ensures v / PAGE_SIZE == i && v % PAGE_SIZE == o
  {
  }

  // Writing within one page of the space splices the flat space and changes no other frame.
  lemma WriteInPage(mem: Memory, frames: seq<int>, i: nat, o: nat, data: seq<byte>)
    requires InMemory(frames) && NoDup(frames) && i < |frames| && o + |data| <= PAGE_SIZE
    ensures View(Overlay(mem, frames[i] * PAGE_SIZE + o, data), frames) == Files.Splice(View(mem, frames), PAGE_SIZE * i + o, data)
    ensures forall q :: 0 <= q < MEMORY_SIZE && q / PAGE_SIZE != frames[i] ==> Overlay(mem, frames[i] * PAGE_SIZE + o, data)[q] == mem[q]
  {
    var p := frames[i] * PAGE_SIZE + o;
    var v1, v2 := View(Overlay(mem, p, data), frames), Files.Splice(View(mem, frames), PAGE_SIZE * i + o, data);
    forall v | 0 <= v < |v1|
      ensures v1[v] == v2[v]
    {
      WriteInPageByte(mem, frames, i, o, data, v);
    }
    forall q | 0 <= q < MEMORY_SIZE && q / PAGE_SIZE != frames[i]
      ensures Overlay(mem, p, data)[q] == mem[q]
    {
      OtherFrame(frames[i], o, |data|, q);
    }
  }

  lemma OtherFrame(f: nat, o: nat, n: nat, q: nat)
    requires o + n <= PAGE_SIZE && q / PAGE_SIZE != f
    ensures !(f * PAGE_SIZE + o <= q < f * PAGE_SIZE + o + n)
  {
  }

  lemma WriteInPageByte(mem: Memory, frames: seq<int>, i: nat, o: nat, data: seq<byte>, v: nat)
    requires InMemory(frames) && NoDup(frames) && i < |frames| && o + |data| <= PAGE_SIZE && v < PAGE_SIZE * |frames|
    ensures View(Overlay(mem, frames[i] * PAGE_SIZE + o, data), frames)[v] == Files.Splice(View(mem, frames), PAGE_SIZE * i + o, data)[v]
  {
    var j, w := v / PAGE_SIZE, v % PAGE_SIZE;
    var q := frames[j] * PAGE_SIZE + w;
    OverlayByte(mem, frames[i] * PAGE_SIZE + o, data, q);
    if j != i {
      PageArithmetic(frames[j], w, q);
      OtherFrame(frames[i], o, |data|, q);
      OtherFrame(i, o, |data|, v);
    }
  }

  ghost predicate OthersSame(mem: Memory, mem': Memory, frames: seq<int>) {
    forall q :: 0 <= q < MEMORY_SIZE && q / PAGE_SIZE !in frames ==> mem'[q] == mem[q]
  }

  // ---------------------------------------------------------------------
  // Copying from the file, page by page

  // What ReadAt delivers of n bytes at a position.
  function Clipped(file: seq<byte>, n: nat, position: nat): (b: seq<byte>)
    ensures |b| <= n
  {
    if position >= |file| then [] else if position + n > |file| then file[position..] else file[position..position + n]
  }

  method ReadAt(m: Machine, p: nat, n: nat, file: seq<byte>, position: nat)
    requires m.Valid() && p + n <= MEMORY_SIZE
    modifies m.mainMemory
    ensures m.Mem() == Overlay(old(m.Mem()), p, Clipped(file, n, position))
  {
    var b := Clipped(file, n, position);
    forall i | 0 <= i < |b| {
      m.mainMemory[p + i] := b[i];
    }
  }

  lemma PadStep(img: seq<byte>, size: nat, file: seq<byte>, position: nat, n: nat)
    requires |img| + n <= size
    ensures Files.Splice(Padded(img, size), |img|, Clipped(file, n, position)) == Padded(img + Piece(file, position, n), size)
  {
  }

  // The space behind some frames holds img, then zeros.
  ghost predicate Holds(mem: Memory, frames: seq<int>, img: seq<byte>) {
    InMemory(frames) && NoDup(frames) && |img| <= PAGE_SIZE * |frames| && View(mem, frames) == Padded(img, PAGE_SIZE * |frames|)
  }

  // One ReadAt of the loader appends to what the space holds.
  method CopyPiece(m: Machine, ghost frames: seq<int>, frame: int, i: nat, o: nat, n: nat, file: seq<byte>, position: nat, ghost img: seq<byte>)
    requires m.Valid() && Holds(m.Mem(), frames, img)
    requires i < |frames| && frames[i] == frame && o + n <= PAGE_SIZE && |img| == PAGE_SIZE * i + o
    modifies m.mainMemory
    ensures Holds(m.Mem(), frames, img + Piece(file, position, n))
    ensures OthersSame(old(m.Mem()), m.Mem(), frames)
  {
    PieceHolds(m.Mem(), frames, i, o, n, file, position, img);
    ReadAt(m, frame * PAGE_SIZE + o, n, file, position);
  }

  lemma PieceHolds(mem: Memory, frames: seq<int>, i: nat, o: nat, n: nat, file: seq<byte>, position: nat, img: seq<byte>)
    requires Holds(mem, frames, img) && i < |frames| && o + n <= PAGE_SIZE && |img| == PAGE_SIZE * i + o
    ensures var mem' := Overlay(mem, frames[i] * PAGE_SIZE + o, Clipped(file, n, position));
            Holds(mem', frames, img + Piece(file, position, n)) && OthersSame(mem, mem', frames)
  {
    WriteInPage(mem, frames, i, o, Clipped(file, n, position));
    assert PAGE_SIZE * i + o + n <= PAGE_SIZE * |frames|;
    PadStep(img, PAGE_SIZE * |frames|, file, position, n);
  }

  ghost function FramesOf(pt: seq<Entry>): (frames: seq<int>)
    ensures |frames| == |pt|
  {
    seq(|pt|, i requires 0 <= i < |pt| => pt[i].physicalPage)
  }

  // C's remainder truncates, so that an empty segment has a last page of 0 bytes.
  function LastPageSize(size: int): nat
    requires size >= 0
  {
    if size == 0 then 0 else (size - 1) % PAGE_SIZE + 1
  }

  // The bytes that a loop over pages has copied after j pages.
  function CopiedAfter(size: nat, j: nat): nat {
    if j < DivRoundUp(size, PAGE_SIZE) then PAGE_SIZE * j else size
  }

  lemma NextPage(size: nat, j: nat)
    requires j < DivRoundUp(size, PAGE_SIZE)
    ensures var n := if j < DivRoundUp(size, PAGE_SIZE) - 1 then PAGE_SIZE else LastPageSize(size);
            n <= PAGE_SIZE && CopiedAfter(size, j) == PAGE_SIZE * j && CopiedAfter(size, j + 1) == PAGE_SIZE * j + n <= size
  {
  }

  // The loop that each segment ends in: the next pages of the space take the next bytes of the file.
  method CopyPages(m: Machine, pageTable: array<Entry>, ghost frames: seq<int>, i: nat, size: nat, file: seq<byte>, position: nat, ghost img: seq<byte>)
    returns (i': nat)
    requires m.Valid() && Holds(m.Mem(), frames, img) && FramesOf(pageTable[..]) == frames
    requires |img| + size <= PAGE_SIZE * |frames| && (size > 0 ==> |img| == PAGE_SIZE * i)
    modifies m.mainMemory
    ensures Holds(m.Mem(), frames, img + Piece(file, position, size))
    ensures OthersSame(old(m.Mem()), m.Mem(), frames)
    ensures i' == i + DivRoundUp(size, PAGE_SIZE)
  {
    var numPage := DivRoundUp(size, PAGE_SIZE);
    var j := 0;
    assert img + Piece(file, position, 0) == img;
    i' := i;
    while j < numPage
      invariant 0 <= j <= numPage && i' == i + j
      invariant Holds(m.Mem(), frames, img + Piece(file, position, CopiedAfter(size, j)))
      invariant OthersSame(old(m.Mem()), m.Mem(), frames)
    {
      CopyPage(m, pageTable, frames, i', j, size, file, position, img);
      j, i' := j + 1, i' + 1;
    }
  }

  method CopyPage(m: Machine, pageTable: array<Entry>, ghost frames: seq<int>, i: nat, j: nat, size: nat, file: seq<byte>, position: nat, ghost img: seq<byte>)
    requires m.Valid() && Holds(m.Mem(), frames, img + Piece(file, position, CopiedAfter(size, j))) && FramesOf(pageTable[..]) == frames
    requires j < DivRoundUp(size, PAGE_SIZE) && j <= i && |img| == PAGE_SIZE * (i - j) && |img| + size <= PAGE_SIZE * |frames|
    modifies m.mainMemory
    ensures Holds(m.Mem(), frames, img + Piece(file, position, CopiedAfter(size, j + 1)))
    ensures OthersSame(old(m.Mem()), m.Mem(), frames)
  {
    NextPage(size, j);
    InSpace(i - j, size, j, |frames|);
    var n := if j < DivRoundUp(size, PAGE_SIZE) - 1 then PAGE_SIZE else LastPageSize(size);
    Joined(img, file, position, PAGE_SIZE * j, n);
    CopyPiece(m, frames, pageTable[i].physicalPage, i, 0, n, file, position + j * PAGE_SIZE, img + Piece(file, position, PAGE_SIZE * j));
  }

  lemma Joined(img: seq<byte>, file: seq<byte>, position: nat, n: nat, n': nat)
    ensures img + Piece(file, position, n) + Piece(file, position + n, n') == img + Piece(file, position, n + n')
  {
    PiecesJoin(file, position, n, n');
    var a, b := Piece(file, position, n), Piece(file, position + n, n');
    assert img + a + b == img + (a + b);
  }

  lemma InSpace(i: nat, size: nat, j: nat, n: nat)
    requires PAGE_SIZE * i + size <= PAGE_SIZE * n && j < DivRoundUp(size, PAGE_SIZE)
    ensures i + j < n
  {
  }

  // How much of a segment that follows size0 bytes of other segments is not copied: its first piece is
  // meant for the page that is already open, and there is none when no page has been filled.
  function Skipped(i: nat, size0: nat, size: nat): nat {
    if i > 0 then 0 else FirstSize(size0, size)
  }

  // The initialised and the read-only data, behind size0 bytes in i pages.
  method AppendSegment(m: Machine, pageTable: array<Entry>, ghost frames: seq<int>, i: nat, size0: nat, file: seq<byte>, seg: Segment, ghost img: seq<byte>)
    returns (i': nat)
    requires m.Valid() && Holds(m.Mem(), frames, img) && FramesOf(pageTable[..]) == frames
    requires seg.inFileAddr >= 0 && seg.size >= 0 && |img| + seg.size <= PAGE_SIZE * |frames|
    requires i == DivRoundUp(|img|, PAGE_SIZE) && (i > 0 ==> size0 % PAGE_SIZE == |img| % PAGE_SIZE && size0 > 0)
    modifies m.mainMemory
    ensures var img' := img + SegmentBytes(file, seg)[Skipped(i, size0, seg.size)..];
            Holds(m.Mem(), frames, img') && i' == DivRoundUp(|img'|, PAGE_SIZE)
    ensures OthersSame(old(m.Mem()), m.Mem(), frames)
  {
    ghost var img' := img + SegmentBytes(file, seg)[Skipped(i, size0, seg.size)..];
    i' := i;
    if seg.size > 0 {
      AppendArithmetic(|img|, i, size0, seg.size);
      AppendBytes(img, i, size0, file, seg);
      i' := CopyFrom(m, pageTable, frames, i, LastPageSize(size0), FirstSize(size0, seg.size), seg.size, file, seg.inFileAddr, img, img');
    } else {
      assert img' == img;
    }
    AppendPages(|img|, i, size0, seg.size);
  }

  // The first piece behind offset bytes of page i - 1, if it is open, then whole pages from page i on.
  method CopyFrom(m: Machine, pageTable: array<Entry>, ghost frames: seq<int>, i: nat, offset: nat, firstSize: nat, size: nat,
                  file: seq<byte>, position: nat, ghost img: seq<byte>, ghost img': seq<byte>)
    returns (i': nat)
    requires m.Valid() && Holds(m.Mem(), frames, img) && FramesOf(pageTable[..]) == frames
    requires firstSize <= size && |img| + size <= PAGE_SIZE * |frames| && (offset == PAGE_SIZE ==> firstSize == 0)
    requires i > 0 ==> |img| == PAGE_SIZE * (i - 1) + offset && offset + firstSize <= PAGE_SIZE && i - 1 < |frames|
    requires size > firstSize ==> (if i > 0 then |img| + firstSize else |img|) == PAGE_SIZE * i
    requires var img1 := if offset != PAGE_SIZE && i > 0 then img + Piece(file, position, firstSize) else img;
             img' == img1 + Piece(file, position + firstSize, size - firstSize)
    modifies m.mainMemory
    ensures Holds(m.Mem(), frames, img')
    ensures i' == i + DivRoundUp(size - firstSize, PAGE_SIZE)
    ensures OthersSame(old(m.Mem()), m.Mem(), frames)
  {
    if offset != PAGE_SIZE && i > 0 {
      CopyPiece(m, frames, pageTable[i - 1].physicalPage, i - 1, offset, firstSize, file, position, img);
    }
    ghost var img1 := if offset != PAGE_SIZE && i > 0 then img + Piece(file, position, firstSize) else img;
    i' := CopyPages(m, pageTable, frames, i, size - firstSize, file, position + firstSize, img1);
  }

  function FirstSize(size0: nat, size: nat): nat {
    var room := PAGE_SIZE - LastPageSize(size0);
    if room < size then room else size
  }

  lemma AppendArithmetic(n: nat, i: nat, size0: nat, size: nat)
    requires i == DivRoundUp(n, PAGE_SIZE) && (i > 0 ==> size0 % PAGE_SIZE == n % PAGE_SIZE && size0 > 0)
    ensures var offset, first := LastPageSize(size0), FirstSize(size0, size);
            var n1 := if i > 0 then n + first else n;
            && (i > 0 ==> n == PAGE_SIZE * (i - 1) + offset && offset + first <= PAGE_SIZE && offset > 0)
            && (offset == PAGE_SIZE ==> first == 0)
            && (size > first ==> n1 == PAGE_SIZE * i)
  {
    if i > 0 {
      OpenPage(n, size0, i);
    }
  }

  lemma AppendPages(n: nat, i: nat, size0: nat, size: nat)
    requires i == DivRoundUp(n, PAGE_SIZE) && (i > 0 ==> size0 % PAGE_SIZE == n % PAGE_SIZE && size0 > 0)
    ensures i + DivRoundUp(size - FirstSize(size0, size), PAGE_SIZE) == DivRoundUp(n + size - Skipped(i, size0, size), PAGE_SIZE)
  {
    if i > 0 {
      OpenPage(n, size0, i);
    }
  }

  lemma AppendBytes(img: seq<byte>, i: nat, size0: nat, file: seq<byte>, seg: Segment)
    requires seg.inFileAddr >= 0 && seg.size >= 0
    ensures var offset, first := LastPageSize(size0), FirstSize(size0, seg.size);
            var img1 := if offset != PAGE_SIZE && i > 0 then img + Piece(file, seg.inFileAddr, first) else img;
            img1 + Piece(file, seg.inFileAddr + first, seg.size - first) == img + SegmentBytes(file, seg)[Skipped(i, size0, seg.size)..]
  {
    var first := FirstSize(size0, seg.size);
    var b := SegmentBytes(file, seg);
    PiecesJoin(file, seg.inFileAddr, first, seg.size - first);
    assert b[first..] == Piece(file, seg.inFileAddr + first, seg.size - first);
    assert b[..first] == Piece(file, seg.inFileAddr, first) && b[0..] == b;
  }

  // The page that is open for more.
  lemma OpenPage(n: nat, size0: nat, i: nat)
    requires i == DivRoundUp(n, PAGE_SIZE) && i > 0 && size0 % PAGE_SIZE == n % PAGE_SIZE && size0 > 0
    ensures n == PAGE_SIZE * (i - 1) + LastPageSize(size0)
  {
    LastPageIs(size0);
  }

  lemma LastPageIs(size: nat)
    requires size > 0
    ensures LastPageSize(size) == if size % PAGE_SIZE == 0 then PAGE_SIZE else size % PAGE_SIZE
  {
    var q, r := size / PAGE_SIZE, size % PAGE_SIZE;
    if r == 0 {
      DivMod(size - 1, q - 1, PAGE_SIZE - 1);
    } else {
      DivMod(size - 1, q, r - 1);
    }
  }

  // ---------------------------------------------------------------------
  // What reaches memory

  // The payload, if there is code; without any code its first page is lost.
  function LoadedImage(file: seq<byte>, h: NoffHeader): (img: seq<byte>)
    requires WellFormed(h)
    ensures |img| <= h.code.size + h.initData.size + h.readonlyData.size
  {
    var all := Payload(file, h);
    if h.code.size > 0 then all else all[if |all| < PAGE_SIZE then |all| else PAGE_SIZE..]
  }

  lemma ThreeSegments(file: seq<byte>, h: NoffHeader, img0: seq<byte>, img1: seq<byte>, img2: seq<byte>)
    requires WellFormed(h) && img0 == SegmentBytes(file, h.code)
    requires img1 == img0 + SegmentBytes(file, h.initData)[Skipped(DivRoundUp(|img0|, PAGE_SIZE), h.code.size, h.initData.size)..]
    requires img2 == img1 + SegmentBytes(file, h.readonlyData)[Skipped(DivRoundUp(|img1|, PAGE_SIZE), h.code.size + h.initData.size, h.readonlyData.size)..]
    ensures img2 == LoadedImage(file, h)
  {
  }

  lemma SecondSegment(c: nat, d: nat, n: nat)
    requires n == c + d - Skipped(DivRoundUp(c, PAGE_SIZE), c, d)
    ensures DivRoundUp(n, PAGE_SIZE) > 0 ==> (c + d) % PAGE_SIZE == n % PAGE_SIZE && c + d > 0
  {
  }

  // The layout is code, initialised data, read-only data and zeros for every file exactly if there is
  // code, or nothing to load at all.
  lemma LayoutExact(h: NoffHeader)
    requires WellFormed(h)
    ensures (forall file: seq<byte> :: SameLayout(file, h)) <==> h.code.size > 0 || h.initData.size + h.readonlyData.size == 0
  {
    if h.code.size == 0 && h.initData.size + h.readonlyData.size > 0 {
      LayoutBroken(h);
    } else {
      forall file: seq<byte>
        ensures SameLayout(file, h)
      {
      }
    }
  }

  ghost predicate SameLayout(file: seq<byte>, h: NoffHeader)
    requires WellFormed(h)
  {
    var n := h.code.size + h.initData.size + h.readonlyData.size;
    Padded(LoadedImage(file, h), n) == Padded(Payload(file, h), n)
  }

  lemma LayoutBroken(h: NoffHeader)
    requires WellFormed(h) && h.code.size == 0 && h.initData.size + h.readonlyData.size > 0
    ensures exists file: seq<byte> :: !SameLayout(file, h)
  {
    var n := h.initData.size + h.readonlyData.size;
    var file := seq(h.initData.inFileAddr + h.readonlyData.inFileAddr + n, i => 1 as byte);
    var all := Payload(file, h);
    assert all[n - 1] == 1;
    assert Padded(all, n)[n - 1] == 1 && Padded(LoadedImage(file, h), n)[n - 1] == 0;
    assert !SameLayout(file, h);
  }

  // ---------------------------------------------------------------------
  // Frames for a new space

  // The part of the frame map that stands for real memory.
  function RealFrames(bits: seq<bool>): seq<bool> {
    if |bits| <= NUM_PHYS_PAGES then bits else bits[..NUM_PHYS_PAGES]
  }

  lemma {:induction false} TakeClearPrefix(bits: seq<bool>, n: nat, i: nat)
    requires i <= n
    ensures |TakeClear(bits, n).0| == n && TakeClear(bits, n).0[..i] == TakeClear(bits, i).0
    decreases n
  {
    if i < n {
      TakeClearPrefix(bits, n - 1, i);
    } else if n > 0 {
      TakeClearPrefix(bits, n - 1, n - 1);
    }
  }

  lemma {:induction false} TakesRealFrames(bits: seq<bool>, n: nat)
    requires n <= CountClear(RealFrames(bits))
    ensures InMemory(TakeClear(bits, n).0)
    ensures CountClear(RealFrames(TakeClear(bits, n).1)) == CountClear(RealFrames(bits)) - n
    decreases n
  {
    if n > 0 {
      TakesRealFrames(bits, n - 1);
      var bits' := TakeClear(bits, n - 1).1;
      var low := RealFrames(bits');
      var r := FirstClear(bits');
      RealFirstClear(bits');
      CountAfterSet(low, r);
      assert RealFrames(bits'[r := true]) == low[r := true];
    }
  }

  // All the frames found lie in memory exactly if that many real ones were free; a map that is no
  // longer than the memory has only real ones.
  lemma FramesFit(bits: seq<bool>, n: nat)
    requires n <= CountClear(bits)
    ensures InMemory(TakeClear(bits, n).0) <==> n <= CountClear(RealFrames(bits))
  {
    if n <= CountClear(RealFrames(bits)) {
      TakesRealFrames(bits, n);
    } else {
      TakesUnrealFrame(bits, n);
    }
  }

  lemma TakesUnrealFrame(bits: seq<bool>, n: nat)
    requires CountClear(RealFrames(bits)) < n <= CountClear(bits)
    ensures !InMemory(TakeClear(bits, n).0)
  {
    var k := CountClear(RealFrames(bits));
    TakesRealFrames(bits, k);
    UnrealAt(bits, n, k);
  }

  lemma UnrealAt(bits: seq<bool>, n: nat, k: nat)
    requires k < n && CountClear(RealFrames(TakeClear(bits, k).1)) == 0
    ensures |TakeClear(bits, n).0| == n && !(0 <= TakeClear(bits, n).0[k] < NUM_PHYS_PAGES)
  {
    NoRealFrameLeft(TakeClear(bits, k).1);
    TakeClearPrefix(bits, n, k + 1);
    TakenNext(bits, k);
    assert TakeClear(bits, n).0[k] == TakeClear(bits, n).0[..k + 1][k];
  }

  lemma TakenNext(bits: seq<bool>, k: nat)
    ensures |TakeClear(bits, k + 1).0| == k + 1 && TakeClear(bits, k + 1).0[k] == FirstClear(TakeClear(bits, k).1)
  {
    TakeClearPrefix(bits, k, k);
  }

  lemma NoRealFrameLeft(bits: seq<bool>)
    requires CountClear(RealFrames(bits)) == 0
    ensures FirstClear(bits) == -1 || FirstClear(bits) >= |RealFrames(bits)|
    ensures FirstClear(bits) >= 0 ==> FirstClear(bits) >= NUM_PHYS_PAGES
  {
    var low := RealFrames(bits);
    CountZeroWhenFull(low);
    forall j | 0 <= j < |low|
      ensures bits[j]
    {
      assert low[j];
    }
  }

  lemma ZeroStep(mem: Memory, frames: seq<int>, f: int)
    requires Holds(mem, frames, []) && 0 <= f < NUM_PHYS_PAGES && f !in frames
    ensures var mem' := Overlay(mem, f * PAGE_SIZE, Zeros(PAGE_SIZE));
            && Holds(mem', frames + [f], [])
            && OthersSame(mem, mem', frames + [f])
  {
    var mem' := Overlay(mem, f * PAGE_SIZE, Zeros(PAGE_SIZE));
    var frames', size := frames + [f], PAGE_SIZE * |frames|;
    assert NoDup(frames');
    WriteInPage(mem, frames', |frames|, 0, Zeros(PAGE_SIZE));
    ViewGrows(mem, frames, f);
    assert View(mem', frames') == View(mem, frames) + Zeros(PAGE_SIZE);
    assert Padded([], size) + Zeros(PAGE_SIZE) == Padded([], size + PAGE_SIZE);
  }

  lemma ViewGrows(mem: Memory, frames: seq<int>, f: int)
    requires InMemory(frames) && 0 <= f < NUM_PHYS_PAGES
    ensures View(mem, frames + [f])[..PAGE_SIZE * |frames|] == View(mem, frames)
  {
  }

  // ---------------------------------------------------------------------

  // A page table as Load sets it up, whatever use has been made of it since.
  ghost predicate Open(pt: seq<Entry>) {
    forall i :: 0 <= i < |pt| ==> pt[i].valid && !pt[i].readOnly
  }

  // Translation through such a table is the flat view of its frames.
  lemma TranslationIsView(pt: seq<Entry>, mem: Memory, v: Word)
    requires Open(pt) && InMemory(FramesOf(pt)) && v < PAGE_SIZE * |pt|
    ensures Mapped(pt, v, true) && VirtualByte(pt, mem, v) == View(mem, FramesOf(pt))[v]
  {
    assert FramesOf(pt)[v / PAGE_SIZE] == pt[v / PAGE_SIZE].physicalPage;
  }

  // A page table under construction: the first clear frames, all zeroed, and nothing else touched.
  ghost predicate Allocated(pt: seq<Entry>, bits: seq<bool>, bits': seq<bool>, mem: Memory, mem': Memory) {
    Zeroed(pt, mem, mem') && Unused(pt) && FramesOf(pt) == TakeClear(bits, |pt|).0 && bits' == TakeClear(bits, |pt|).1
  }

  // Entry i is for page i, and nothing has been read or written through it.
  ghost predicate Unused(pt: seq<Entry>) {
    forall i :: 0 <= i < |pt| ==> pt[i].virtualPage == i && pt[i].valid && !pt[i].readOnly && !pt[i].use && !pt[i].dirty
  }

  ghost predicate Zeroed(pt: seq<Entry>, mem: Memory, mem': Memory) {
    Open(pt) && Holds(mem', FramesOf(pt), []) && OthersSame(mem, mem', FramesOf(pt))
  }

  lemma ZeroedStep(pt: seq<Entry>, e: Entry, mem: Memory, mem': Memory)
    requires Zeroed(pt, mem, mem') && e.valid && !e.readOnly && 0 <= e.physicalPage < NUM_PHYS_PAGES && e.physicalPage !in FramesOf(pt)
    ensures Zeroed(pt + [e], mem, Overlay(mem', e.physicalPage * PAGE_SIZE, Zeros(PAGE_SIZE)))
    ensures FramesOf(pt + [e]) == FramesOf(pt) + [e.physicalPage]
  {
    var r, frames := e.physicalPage, FramesOf(pt);
    ZeroStep(mem', frames, r);
    assert FramesOf(pt + [e]) == frames + [r];
    OthersSameGrows(mem, mem', Overlay(mem', r * PAGE_SIZE, Zeros(PAGE_SIZE)), frames, frames + [r]);
  }

  lemma NothingAllocated(pt: seq<Entry>, bits: seq<bool>, mem: Memory)
    requires pt == []
    ensures Allocated(pt, bits, bits, mem, mem)
  {
    assert FramesOf(pt) == [];
    assert View(mem, FramesOf(pt)) == Padded([], 0);
  }

  lemma AllocateStep(pt: seq<Entry>, n: nat, bits: seq<bool>, bits': seq<bool>, mem: Memory, mem': Memory)
    requires Allocated(pt, bits, bits', mem, mem') && |pt| < n <= CountClear(RealFrames(bits))
    ensures var r := FirstClear(bits');
            && 0 <= r < NUM_PHYS_PAGES && r < |bits'|
            && Allocated(pt + [Entry(|pt|, r, true, false, false, false)], bits, bits'[r := true], mem, Overlay(mem', r * PAGE_SIZE, Zeros(PAGE_SIZE)))
  {
    var e := Entry(|pt|, FirstClear(bits'), true, false, false, false);
    NextFrame(bits, n, |pt|);
    ZeroedStep(pt, e, mem, mem');
    UnusedStep(pt, e);
    assert |pt + [e]| == |pt| + 1;
  }

  lemma UnusedStep(pt: seq<Entry>, e: Entry)
    requires Unused(pt) && e.virtualPage == |pt| && e.valid && !e.readOnly && !e.use && !e.dirty
    ensures Unused(pt + [e])
  {
  }

  class AddrSpace {
    var numPages: nat
    var pageTable: array<Entry>

    constructor ()
      ensures numPages == 0
    {
      numPages := 0;
      pageTable := new Entry[0];
    }

    ghost predicate Valid()
      reads this, pageTable
    {
      numPages > 0 ==> pageTable.Length == numPages && Open(pageTable[..])
    }

    ghost function Frames(): seq<int>
      reads this, pageTable
    {
      if numPages == 0 then [] else FramesOf(pageTable[..])
    }

    method AllocateFrames(bitmap: Bitmap, m: Machine)
      requires bitmap.Valid() && m.Valid() && numPages <= CountClear(RealFrames(bitmap.Contents())) && numPages > 0
      modifies this`pageTable, bitmap.words, m.mainMemory
      ensures fresh(pageTable) && pageTable.Length == numPages
      ensures Allocated(pageTable[..], old(bitmap.Contents()), bitmap.Contents(), old(m.Mem()), m.Mem())
    {
      ghost var bits := bitmap.Contents();
      pageTable := new Entry[numPages](i => Entry(0, 0, false, false, false, false));
      var i := 0;
      NothingAllocated(pageTable[..0], bits, m.Mem());
      while i < numPages
        invariant 0 <= i <= numPages && fresh(pageTable) && pageTable.Length == numPages && bitmap.Valid() && m.Valid()
        invariant Allocated(pageTable[..i], bits, bitmap.Contents(), old(m.Mem()), m.Mem())
      {
        AllocateStep(pageTable[..i], numPages, bits, bitmap.Contents(), old(m.Mem()), m.Mem());
        AllocateOne(bitmap, m, i);
        i := i + 1;
      }
      assert pageTable[..i] == pageTable[..];
    }

    method Load(bitmap: Bitmap, m: Machine, file: seq<byte>, h: NoffHeader) returns (ok: bool)
      requires bitmap.Valid() && m.Valid() && WellFormed(h) && PagesNeeded(h) <= NUM_PHYS_PAGES
      requires PagesNeeded(h) <= CountClear(bitmap.Contents()) ==> PagesNeeded(h) <= CountClear(RealFrames(bitmap.Contents()))
      modifies this, bitmap.words, m.mainMemory
      ensures ok <==> PagesNeeded(h) <= CountClear(old(bitmap.Contents()))
      ensures !ok ==> Frames() == [] && bitmap.Contents() == old(bitmap.Contents()) && m.Mem() == old(m.Mem())
      ensures ok ==> Valid() && fresh(pageTable) && numPages == PagesNeeded(h) && Unused(pageTable[..])
      ensures ok ==> Frames() == TakeClear(old(bitmap.Contents()), numPages).0
      ensures ok ==> bitmap.Contents() == MarkAll(old(bitmap.Contents()), Frames())
      ensures ok ==> Holds(m.Mem(), Frames(), LoadedImage(file, h)) && OthersSame(old(m.Mem()), m.Mem(), Frames())
    {
      numPages := PagesNeeded(h);
      var free := bitmap.NumClear();
      if numPages > free {
        numPages := 0;
        return false;
      }
      AllocateFrames(bitmap, m);
      TakeClearWorks(old(bitmap.Contents()), numPages);
      CopySegments(m, file, h, old(m.Mem()));
      return true;
    }

    method CopySegments(m: Machine, file: seq<byte>, h: NoffHeader, ghost mem: Memory)
      requires m.Valid() && WellFormed(h) && pageTable.Length == PagesNeeded(h)
      requires Holds(m.Mem(), FramesOf(pageTable[..]), []) && OthersSame(mem, m.Mem(), FramesOf(pageTable[..]))
      modifies m.mainMemory
      ensures Holds(m.Mem(), FramesOf(pageTable[..]), LoadedImage(file, h)) && OthersSame(mem, m.Mem(), FramesOf(pageTable[..]))
    {
      ghost var frames := FramesOf(pageTable[..]);
      var i := 0;
      ghost var img0 := SegmentBytes(file, h.code);
      assert h.code.size == 0 ==> img0 == [];
      assert [] + img0 == img0;
      if h.code.size > 0 {
        i := CopyPages(m, pageTable, frames, 0, h.code.size, file, h.code.inFileAddr, []);
      }
      ghost var img1 := img0 + SegmentBytes(file, h.initData)[Skipped(i, h.code.size, h.initData.size)..];
      SecondSegment(h.code.size, h.initData.size, |img1|);
      i := AppendSegment(m, pageTable, frames, i, h.code.size, file, h.initData, img0);
      ghost var img2 := img1 + SegmentBytes(file, h.readonlyData)[Skipped(i, h.code.size + h.initData.size, h.readonlyData.size)..];
      i := AppendSegment(m, pageTable, frames, i, h.code.size + h.initData.size, file, h.readonlyData, img1);
      ThreeSegments(file, h, img0, img1, img2);
    }

    // The destructor.
    method Destroy(bitmap: Bitmap)
      requires bitmap.Valid() && Valid()
      requires forall i :: 0 <= i < |Frames()| ==> 0 <= Frames()[i] < bitmap.numBits
      modifies bitmap.words
      ensures bitmap.Contents() == ClearAll(old(bitmap.Contents()), Frames())
    {
      ghost var bits, frames := bitmap.Contents(), Frames();
      assert ClearAll(bits, []) == bits;
      var i := 0;
      while i < numPages
        invariant 0 <= i <= numPages
        invariant bitmap.Contents() == ClearAll(bits, frames[..i])
      {
        assert frames[i] == pageTable[i].physicalPage;
        assert frames[..i + 1] == frames[..i] + [frames[i]];
        bitmap.Clear(pageTable[i].physicalPage);
        assert ClearAll(bits, frames[..i + 1]) == ClearAll(bits, frames[..i])[frames[i] := false];
        i := i + 1;
      }
      assert frames[..i] == frames;
    }

    method AllocateOne(bitmap: Bitmap, m: Machine, i: nat)
      requires bitmap.Valid() && m.Valid() && i < pageTable.Length
      requires 0 <= FirstClear(bitmap.Contents()) < NUM_PHYS_PAGES
      modifies bitmap.words, m.mainMemory, pageTable
      ensures var r := FirstClear(old(bitmap.Contents()));
              && pageTable[..i + 1] == old(pageTable[..i]) + [Entry(i, r, true, false, false, false)]
              && bitmap.Contents() == old(bitmap.Contents())[r := true]
              && m.Mem() == Overlay(old(m.Mem()), r * PAGE_SIZE, Zeros(PAGE_SIZE))
    {
      var frame := bitmap.FindAndSet();
      pageTable[i] := Entry(i, frame, true, false, false, false);
      ZeroPage(m, frame);
    }

    method ZeroPage(m: Machine, frame: int)
      requires m.Valid() && 0 <= frame < NUM_PHYS_PAGES
      modifies m.mainMemory
      ensures m.Mem() == Overlay(old(m.Mem()), frame * PAGE_SIZE, Zeros(PAGE_SIZE))
    {
      forall i | 0 <= i < PAGE_SIZE {
        m.mainMemory[frame * PAGE_SIZE + i] := 0;
      }
    }
  }

  lemma NextFrame(bits: seq<bool>, n: nat, i: nat)
    requires i < n <= CountClear(RealFrames(bits))
    ensures var (found, bits') := TakeClear(bits, i);
            var r := FirstClear(bits');
            0 <= r < NUM_PHYS_PAGES && r !in found && r < |bits'| && TakeClear(bits, i + 1) == (found + [r], bits'[r := true])
  {
    TakesRealFrames(bits, i);
    RealClear(bits);
    TakeClearWorks(bits, i);
    var (found, bits') := TakeClear(bits, i);
    RealFirstClear(bits');
  }

  lemma RealFirstClear(bits: seq<bool>)
    requires CountClear(RealFrames(bits)) > 0
    ensures 0 <= FirstClear(bits) < |RealFrames(bits)|
  {
    var low := RealFrames(bits);
    CountZeroWhenFull(low);
    assert !bits[FirstClear(low)];
  }

  lemma OthersSameGrows(mem: Memory, mem': Memory, mem'': Memory, frames: seq<int>, frames': seq<int>)
    requires OthersSame(mem, mem', frames) && OthersSame(mem', mem'', frames') && frames <= frames'
    ensures OthersSame(mem, mem'', frames')
  {
  }

  lemma RealClear(bits: seq<bool>)
    ensures CountClear(RealFrames(bits)) <= CountClear(bits)
  {
    if |bits| > NUM_PHYS_PAGES {
      CountClearPrefix(bits, NUM_PHYS_PAGES);
    }
  }

  lemma {:induction false} CountClearPrefix(bits: seq<bool>, k: nat)
    requires k <= |bits|
    ensures CountClear(bits[..k]) <= CountClear(bits)
  {
    if k < |bits| {
      CountClearPrefix(bits[..|bits| - 1], k);
      assert bits[..|bits| - 1][..k] == bits[..k];
    } else {
      assert bits[..k] == bits;
    }
  }

  // After Load, the program sees its flat image at every virtual address: code, initialised data,
  // read-only data, then zeros.
  lemma LoadRefinesFlatImage(pt: seq<Entry>, mem: Memory, file: seq<byte>, h: NoffHeader, v: Word)
    requires WellFormed(h) && h.code.size > 0 && Open(pt) && |pt| == PagesNeeded(h)
    requires Holds(mem, FramesOf(pt), LoadedImage(file, h)) && v < PAGE_SIZE * |pt|
    ensures Mapped(pt, v, true)
    ensures VirtualByte(pt, mem, v) == Padded(Payload(file, h), PAGE_SIZE * |pt|)[v]
  {
    TranslationIsView(pt, mem, v);
  }

  // The byte at a position of the file, as if zeros followed its end.
  function FileByte(file: seq<byte>, position: nat): byte {
    if position < |file| then file[position] else 0
  }

  // The same, segment by segment: the code lies at address 0, the initialised data behind it, the read-only data
  // behind that, and the rest is zero.
  lemma EachSegmentInPlace(pt: seq<Entry>, mem: Memory, file: seq<byte>, h: NoffHeader, v: Word)
    requires WellFormed(h) && h.code.size > 0 && Open(pt) && |pt| == PagesNeeded(h)
    requires Holds(mem, FramesOf(pt), LoadedImage(file, h)) && v < PAGE_SIZE * |pt|
    ensures Mapped(pt, v, false)
    ensures var data := h.code.size; var readonly := data + h.initData.size; var end := readonly + h.readonlyData.size;
            VirtualByte(pt, mem, v) ==
              if v < data then FileByte(file, h.code.inFileAddr + v)
              else if v < readonly then FileByte(file, h.initData.inFileAddr + v - data)
              else if v < end then FileByte(file, h.readonlyData.inFileAddr + v - readonly)
              else 0
  {
    LoadRefinesFlatImage(pt, mem, file, h, v);
  }
}

// The frames of all address spaces, over any sequence of Loads and destructions.
module FramePartition {
  import opened Collections
  import opened Bitmaps
  import opened Machines
  import opened AddressSpaces

  // The frame map, and the frames of the live spaces.
  datatype State = State(bits: seq<bool>, spaces: seq<seq<int>>)

  datatype Action = Load(numPages: nat) | Destroy(which: nat)

  function Next(s: State, a: Action): State {
    match a
    case Load(n) =>
      if n > CountClear(s.bits) then s
      else var (found, bits) := TakeClear(s.bits, n); State(bits, s.spaces + [found])
    case Destroy(k) =>
      if k >= |s.spaces| then s
      else State(ClearAll(s.bits, s.spaces[k]), s.spaces[..k] + s.spaces[k + 1..])
  }

  function Run(s: State, acts: seq<Action>): State {
    if acts == [] then s else Next(Run(s, acts[..|acts| - 1]), acts[|acts| - 1])
  }

  function Booted(numFrames: nat): State {
    State(seq(numFrames, i => false), [])
  }

  // ---------------------------------------------------------------------

  function Total(spaces: seq<seq<int>>): nat {
    if spaces == [] then 0 else Total(spaces[..|spaces| - 1]) + |spaces[|spaces| - 1]|
  }

  ghost predicate Owns(s: State, k: int, f: int) {
    0 <= k < |s.spaces| && f in s.spaces[k]
  }

  // Every marked frame belongs to exactly one live space, once.
  ghost predicate Owned(s: State) {
    && (forall k :: 0 <= k < |s.spaces| ==> NoDup(s.spaces[k]))
    && (forall k, f :: Owns(s, k, f) ==> 0 <= f < |s.bits| && s.bits[f])
    && (forall k, l, f :: Owns(s, k, f) && Owns(s, l, f) ==> k == l)
    && (forall f :: 0 <= f < |s.bits| && s.bits[f] ==> exists k :: Owns(s, k, f))
  }

  ghost predicate Inv(s: State) {
    Owned(s) && CountClear(s.bits) + Total(s.spaces) == |s.bits|
  }

  lemma LoadKeepsInv(s: State, n: nat)
    requires Inv(s) && n <= CountClear(s.bits)
    ensures Inv(Next(s, Load(n)))
  {
    var s' := Next(s, Load(n));
    TakeClearWorks(s.bits, n);
    var found := TakeClear(s.bits, n).0;
    assert s'.spaces[..|s.spaces|] == s.spaces;
    forall k, f
      ensures Owns(s', k, f) <==> Owns(s, k, f) || (k == |s.spaces| && f in found)
    {
    }
    forall f | 0 <= f < |s'.bits| && s'.bits[f]
      ensures exists k :: Owns(s', k, f)
    {
      if s.bits[f] {
        var k :| Owns(s, k, f);
        assert Owns(s', k, f);
      } else {
        assert Owns(s', |s.spaces|, f);
      }
    }
  }

  lemma {:induction false} CountAfterClears(bits: seq<bool>, which: seq<int>)
    requires NoDup(which) && forall i :: 0 <= i < |which| ==> 0 <= which[i] < |bits| && bits[which[i]]
    ensures CountClear(ClearAll(bits, which)) == CountClear(bits) + |which|
  {
    if which == [] {
      assert ClearAll(bits, which) == bits;
    } else {
      var n := |which| - 1;
      var rest, f := which[..n], which[n];
      CountAfterClears(bits, rest);
      var bits', bits'' := ClearAll(bits, rest), ClearAll(bits, which);
      assert which == rest + [f];
      assert bits' == bits''[f := true];
      CountAfterSet(bits'', f);
    }
  }

  lemma {:induction false} TotalWithout(spaces: seq<seq<int>>, k: nat)
    requires k < |spaces|
    ensures Total(spaces) == Total(spaces[..k] + spaces[k + 1..]) + |spaces[k]|
  {
    var n := |spaces| - 1;
    if k == n {
      assert spaces[..k] + spaces[k + 1..] == spaces[..n];
    } else {
      TotalWithout(spaces[..n], k);
      var without := spaces[..k] + spaces[k + 1..];
      assert without[..n - 1] == spaces[..n][..k] + spaces[..n][k + 1..];
    }
  }

  lemma DestroyKeepsInv(s: State, k: nat)
    requires Inv(s) && k < |s.spaces|
    ensures Inv(Next(s, Destroy(k)))
  {
    DestroyKeepsOwned(s, k);
    forall i | 0 <= i < |s.spaces[k]|
      ensures 0 <= s.spaces[k][i] < |s.bits| && s.bits[s.spaces[k][i]]
    {
      assert Owns(s, k, s.spaces[k][i]);
    }
    CountAfterClears(s.bits, s.spaces[k]);
    TotalWithout(s.spaces, k);
  }

  lemma DestroyKeepsOwned(s: State, k: nat)
    requires Owned(s) && k < |s.spaces|
    ensures Owned(Next(s, Destroy(k)))
  {
    var s' := Next(s, Destroy(k));
    forall l, f | Owns(s', l, f)
      ensures 0 <= f < |s'.bits| && s'.bits[f]
    {
      OwnerAfterDestroy(s, k, l, f);
    }
    forall l, m, f | Owns(s', l, f) && Owns(s', m, f)
      ensures l == m
    {
      OwnerAfterDestroy(s, k, l, f);
      OwnerAfterDestroy(s, k, m, f);
    }
    forall f | 0 <= f < |s'.bits| && s'.bits[f]
      ensures exists l :: Owns(s', l, f)
    {
      StillOwned(s, k, f);
    }
  }

  lemma StillOwned(s: State, k: nat, f: nat)
    requires Owned(s) && k < |s.spaces| && f < |s.bits| && s.bits[f] && f !in s.spaces[k]
    ensures exists l :: Owns(Next(s, Destroy(k)), l, f)
  {
    var l :| Owns(s, l, f);
    assert Owns(Next(s, Destroy(k)), if l < k then l else l - 1, f);
  }

  lemma OwnerAfterDestroy(s: State, k: nat, l: int, f: int)
    requires Owned(s) && k < |s.spaces| && Owns(Next(s, Destroy(k)), l, f)
    ensures Owns(s, if l < k then l else l + 1, f) && f !in s.spaces[k]
  {
    var l' := if l < k then l else l + 1;
    assert Owns(s, l', f);
    assert f in s.spaces[k] ==> Owns(s, k, f);
  }

  lemma {:induction false} EveryRun(numFrames: nat, acts: seq<Action>)
    ensures Inv(Run(Booted(numFrames), acts)) && |Run(Booted(numFrames), acts).bits| == numFrames
  {
    if acts == [] {
      CountAllClear(numFrames);
    } else {
      var s, a := Run(Booted(numFrames), acts[..|acts| - 1]), acts[|acts| - 1];
      EveryRun(numFrames, acts[..|acts| - 1]);
      match a
      case Load(n) => if n <= CountClear(s.bits) { LoadKeepsInv(s, n); TakeClearWorks(s.bits, n); }
      case Destroy(k) => if k < |s.spaces| { DestroyKeepsInv(s, k); }
    }
  }

  // What one live space writes, no other live space ever sees.
  lemma Isolation(numFrames: nat, acts: seq<Action>, k: nat, l: nat, pt: seq<Entry>, pt': seq<Entry>,
                  mem: Memory, w: Word, size: nat, value: Word, addr: Word)
    requires var s := Run(Booted(numFrames), acts);
             k < |s.spaces| && l < |s.spaces| && k != l && FramesOf(pt) == s.spaces[k] && FramesOf(pt') == s.spaces[l]
    requires size in {1, 2, 4} && Aligned(w, size) && Mapped(pt, w, true) && Mapped(pt', addr, false)
    ensures Phys(pt, w) + size <= MEMORY_SIZE
    ensures VirtualByte(pt', Overlay(mem, Phys(pt, w), Stored(value, size)), addr) == VirtualByte(pt', mem, addr)
  {
    var s := Run(Booted(numFrames), acts);
    EveryRun(numFrames, acts);
    var f, g := FramesOf(pt)[w / PAGE_SIZE], FramesOf(pt')[addr / PAGE_SIZE];
    assert Owns(s, k, f) && Owns(s, l, g);
    OtherFrameUnchanged(pt, pt', mem, w, size, value, addr);
  }

  // Loading a program and destroying its space restores the frame map bit for bit.
  lemma LoadThenDestroy(s: State, n: nat)
    requires n <= CountClear(s.bits)
    ensures Next(Next(s, Load(n)), Destroy(|s.spaces|)) == s
  {
    TakeClearWorks(s.bits, n);
    ClearUndoesMark(s.bits, TakeClear(s.bits, n).0);
  }

  // On a fresh map, frames are found in their order.
  lemma {:induction false} FreshFrames(numFrames: nat, n: nat)
    requires n <= numFrames
    ensures var (found, bits) := TakeClear(seq(numFrames, i => false), n);
            && |found| == n && (forall i :: 0 <= i < n ==> found[i] == i)
            && |bits| == numFrames && (forall i :: 0 <= i < numFrames ==> (bits[i] <==> i < n))
    decreases n
  {
    if n > 0 {
      FreshFrames(numFrames, n - 1);
      var bits := TakeClear(seq(numFrames, i => false), n - 1).1;
      assert !bits[n - 1];
    }
  }

  // With a frame map longer than the memory, a program that fills the memory leaves the next one a frame beyond
  // it; with the kernel's map of 256 bits, two programs of 128 pages and 1 page do.
  lemma FrameBeyondMemory(numFrames: nat, n: nat, acts: seq<Action>)
    requires numFrames > n >= NUM_PHYS_PAGES && acts == [Load(n), Load(1)]
    ensures var s := Run(Booted(numFrames), acts); |s.spaces| == 2 && s.spaces[1] == [n] && !InMemory(s.spaces[1])
  {
    var s0 := Booted(numFrames);
    TwoSteps(s0, acts);
    FirstProgram(s0, numFrames, n);
    NextProgram(Next(s0, Load(n)), n);
    assert Run(s0, acts).spaces[1][0] == n;
  }

  lemma TwoSteps(s: State, acts: seq<Action>)
    requires |acts| == 2
    ensures Run(s, acts) == Next(Next(s, acts[0]), acts[1])
  {
    assert acts[..1][..0] == [];
    assert Run(s, acts[..1]) == Next(s, acts[0]);
  }

  lemma FirstProgram(s: State, numFrames: nat, n: nat)
    requires s == Booted(numFrames) && n < numFrames
    ensures var s' := Next(s, Load(n));
            |s'.bits| == numFrames && (forall i :: 0 <= i < numFrames ==> (s'.bits[i] <==> i < n)) && |s'.spaces| == 1
  {
    CountAllClear(numFrames);
    FreshFrames(numFrames, n);
  }

  lemma NextProgram(s: State, n: nat)
    requires n < |s.bits| && (forall i :: 0 <= i < |s.bits| ==> (s.bits[i] <==> i < n)) && |s.spaces| == 1
    ensures var s' := Next(s, Load(1)); |s'.spaces| == 2 && s'.spaces[1] == [n]
  {
    assert !s.bits[n];
    CountZeroWhenFull(s.bits);
    assert TakeClear(s.bits, 0) == ([], s.bits);
  }
}
