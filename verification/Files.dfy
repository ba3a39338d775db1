// File headers (filesys/filehdr.cc) and open files (filesys/openfile.cc).
module Files {
  import opened Collections
  import opened Disks
  import opened Bitmaps

  const NUM_DIRECT := 62
  const MAX_FILE_SIZE := NUM_DIRECT * SECTOR_SIZE

  // The in-memory image of a header; it fills exactly one sector.
  datatype Header = Header(numBytes: int, numSectors: int, dataSectors: seq<int>) {
    // The sectors in use; the rest of dataSectors is never looked at.
    function Data(): seq<int>
      requires 0 <= numSectors <= |dataSectors|
    {
      dataSectors[..numSectors]
    }
  }

  // A header that Allocate can have produced.
  ghost predicate HeaderOk(h: Header) {
    && 0 <= h.numBytes <= MAX_FILE_SIZE
    && h.numSectors == DivRoundUp(h.numBytes, SECTOR_SIZE)
    && |h.dataSectors| == NUM_DIRECT
    && (forall i :: 0 <= i < NUM_DIRECT ==> IsInt32(h.dataSectors[i]))
    && (forall i :: 0 <= i < h.numSectors ==> 0 <= h.dataSectors[i] < NUM_SECTORS)
    && NoDup(h.Data())
  }

  function EncodeHeader(h: Header): Block
    requires |h.dataSectors| == NUM_DIRECT
  {
    EncodeInts([h.numBytes, h.numSectors] + h.dataSectors)
  }

  function DecodeHeader(b: Block): (h: Header)
    ensures |h.dataSectors| == NUM_DIRECT
  {
    var ints := DecodeInts(b);
    Header(ints[0], ints[1], ints[2..])
  }

  // FetchFrom after WriteBack yields the header that was written.
  lemma HeaderRoundTrip(h: Header)
    requires HeaderOk(h)
    ensures DecodeHeader(EncodeHeader(h)) == h
  {
    IntsRoundTrip([h.numBytes, h.numSectors] + h.dataSectors);
  }

  // ---------------------------------------------------------------------
  // A file as a flat array of bytes

  function FileBytes(sectors: seq<Block>, h: Header): (f: seq<byte>)
    requires |sectors| == NUM_SECTORS && HeaderOk(h)
    ensures |f| == h.numBytes
  {
    seq(h.numBytes, k requires 0 <= k < h.numBytes =>
      assert k / SECTOR_SIZE < h.numSectors;
      sectors[h.dataSectors[k / SECTOR_SIZE]][k % SECTOR_SIZE])
  }

  // How many bytes a request transfers: as many as it asks for, up to the end of the file.
  function Clip(h: Header, numBytes: int, position: int): (n: int)
    ensures n >= 0 && (n > 0 ==> n <= numBytes && position + n <= h.numBytes)
    ensures numBytes > n ==> position + n >= h.numBytes
  {
    if numBytes <= 0 || position >= h.numBytes then 0
    else if position + numBytes > h.numBytes then h.numBytes - position
    else numBytes
  }

  function Splice(f: seq<byte>, position: nat, data: seq<byte>): seq<byte>
    requires position + |data| <= |f|
  {
    f[..position] + data + f[position + |data|..]
  }

  // Sectors a..b of a file, one after the other.
  function SectorRun(sectors: seq<Block>, h: Header, a: nat, b: nat): (r: seq<byte>)
    requires |sectors| == NUM_SECTORS && HeaderOk(h) && a <= b <= h.numSectors
    ensures |r| == (b - a) * SECTOR_SIZE
  {
    seq((b - a) * SECTOR_SIZE, k requires 0 <= k < (b - a) * SECTOR_SIZE =>
      sectors[h.dataSectors[a + k / SECTOR_SIZE]][k % SECTOR_SIZE])
  }

  lemma RunExtends(sectors: seq<Block>, h: Header, a: nat, b: nat)
    requires |sectors| == NUM_SECTORS && HeaderOk(h) && a <= b < h.numSectors
    ensures SectorRun(sectors, h, a, b + 1) == SectorRun(sectors, h, a, b) + sectors[h.dataSectors[b]]
  {
  }

  // The clipped slice of the file lies within the run of the sectors it touches.
  lemma SliceOfRun(sectors: seq<Block>, h: Header, p: nat, n: nat, a: nat, b: nat)
    requires |sectors| == NUM_SECTORS && HeaderOk(h) && 0 < n && p + n <= h.numBytes
    requires a == p / SECTOR_SIZE && b == (p + n - 1) / SECTOR_SIZE + 1
    ensures a < b <= h.numSectors && p % SECTOR_SIZE + n <= (b - a) * SECTOR_SIZE
    ensures SectorRun(sectors, h, a, b)[p % SECTOR_SIZE..p % SECTOR_SIZE + n] == FileBytes(sectors, h)[p..p + n]
  {
    RunCovers(h.numBytes, p, n);
    var o := p % SECTOR_SIZE;
    var run, f := SectorRun(sectors, h, a, b)[o..o + n], FileBytes(sectors, h)[p..p + n];
    forall k | 0 <= k < n
      ensures run[k] == f[k]
    {
      SectorArithmetic(p, k);
    }
  }

  lemma RunCovers(size: nat, p: nat, n: nat)
    requires 0 < n && p + n <= size
    ensures var a, b := p / SECTOR_SIZE, (p + n - 1) / SECTOR_SIZE + 1;
            a < b <= DivRoundUp(size, SECTOR_SIZE) && p % SECTOR_SIZE + n <= (b - a) * SECTOR_SIZE
  {
  }

  // Writing a buffer over sectors a..b of a file, one after the other.
  function StoreRun(sectors: seq<Block>, h: Header, a: nat, b: nat, data: seq<byte>): (r: seq<Block>)
    requires |sectors| == NUM_SECTORS && HeaderOk(h) && a <= b <= h.numSectors
    requires |data| >= (b - a) * SECTOR_SIZE
    ensures |r| == NUM_SECTORS
    decreases b
  {
    if a == b then sectors
    else StoreRun(sectors, h, a, b - 1, data)[h.dataSectors[b - 1] := data[(b - 1 - a) * SECTOR_SIZE..(b - a) * SECTOR_SIZE]]
  }

  // Exactly the named sectors change, each to its part of the buffer.
  lemma {:induction false} StoreRunEffect(sectors: seq<Block>, h: Header, a: nat, b: nat, data: seq<byte>)
    requires |sectors| == NUM_SECTORS && HeaderOk(h) && a <= b <= h.numSectors
    requires |data| >= (b - a) * SECTOR_SIZE
    ensures var r := StoreRun(sectors, h, a, b, data);
            && (forall j :: a <= j < b ==> r[h.dataSectors[j]] == data[(j - a) * SECTOR_SIZE..(j + 1 - a) * SECTOR_SIZE])
            && (forall s :: 0 <= s < NUM_SECTORS && s !in h.dataSectors[a..b] ==> r[s] == sectors[s])
    decreases b
  {
    if a < b {
      StoreRunEffect(sectors, h, a, b - 1, data);
      assert h.dataSectors[a..b] == h.dataSectors[a..b - 1] + [h.dataSectors[b - 1]];
      forall j | a <= j < b - 1
        ensures h.dataSectors[j] != h.dataSectors[b - 1]
      {
        assert h.Data()[j] != h.Data()[b - 1];
      }
    }
  }

  lemma StoreRunFrame(sectors: seq<Block>, h: Header, a: nat, b: nat, data: seq<byte>)
    requires |sectors| == NUM_SECTORS && HeaderOk(h) && a <= b <= h.numSectors
    requires |data| >= (b - a) * SECTOR_SIZE
    ensures forall s :: 0 <= s < NUM_SECTORS && s !in h.Data() ==> StoreRun(sectors, h, a, b, data)[s] == sectors[s]
  {
    StoreRunEffect(sectors, h, a, b, data);
    assert forall s :: s in h.dataSectors[a..b] ==> s in h.Data();
  }

  // A buffer that agrees with f on every byte of sectors a..b that belongs to the file.
  ghost predicate Agrees(buf: seq<byte>, f: seq<byte>, a: nat, b: nat) {
    forall k :: 0 <= k < |buf| && k < (b - a) * SECTOR_SIZE && a * SECTOR_SIZE + k < |f| ==> buf[k] == f[a * SECTOR_SIZE + k]
  }

  lemma StoreFile(sectors: seq<Block>, h: Header, a: nat, b: nat, buf: seq<byte>, f: seq<byte>)
    requires |sectors| == NUM_SECTORS && HeaderOk(h) && a <= b <= h.numSectors
    requires |buf| == (b - a) * SECTOR_SIZE && Agrees(buf, f, a, b) && |f| == h.numBytes
    requires forall k :: 0 <= k < |f| && !(a <= k / SECTOR_SIZE < b) ==> f[k] == FileBytes(sectors, h)[k]
    ensures FileBytes(StoreRun(sectors, h, a, b, buf), h) == f
  {
    var g := FileBytes(StoreRun(sectors, h, a, b, buf), h);
    forall k | 0 <= k < h.numBytes
      ensures g[k] == f[k]
    {
      StoreFileByte(sectors, h, a, b, buf, f, k);
    }
  }

  lemma StoreFileByte(sectors: seq<Block>, h: Header, a: nat, b: nat, buf: seq<byte>, f: seq<byte>, k: nat)
    requires |sectors| == NUM_SECTORS && HeaderOk(h) && a <= b <= h.numSectors && k < h.numBytes
    requires |buf| == (b - a) * SECTOR_SIZE && Agrees(buf, f, a, b) && |f| == h.numBytes
    requires !(a <= k / SECTOR_SIZE < b) ==> f[k] == FileBytes(sectors, h)[k]
    ensures FileBytes(StoreRun(sectors, h, a, b, buf), h)[k] == f[k]
  {
    var j, o := k / SECTOR_SIZE, k % SECTOR_SIZE;
    if a <= j < b {
      StoredByte(sectors, h, a, b, buf, j, o);
      assert (j - a) * SECTOR_SIZE + o == k - a * SECTOR_SIZE;
    } else {
      KeptSector(sectors, h, a, b, buf, j);
    }
  }

  lemma StoredByte(sectors: seq<Block>, h: Header, a: nat, b: nat, buf: seq<byte>, j: nat, o: nat)
    requires |sectors| == NUM_SECTORS && HeaderOk(h) && a <= j < b <= h.numSectors && |buf| == (b - a) * SECTOR_SIZE && o < SECTOR_SIZE
    ensures StoreRun(sectors, h, a, b, buf)[h.dataSectors[j]][o] == buf[(j - a) * SECTOR_SIZE + o]
  {
    StoreRunEffect(sectors, h, a, b, buf);
    SliceByte(buf, j - a, o);
  }

  lemma KeptSector(sectors: seq<Block>, h: Header, a: nat, b: nat, buf: seq<byte>, j: nat)
    requires |sectors| == NUM_SECTORS && HeaderOk(h) && a <= b <= h.numSectors && |buf| == (b - a) * SECTOR_SIZE
    requires j < h.numSectors && !(a <= j < b)
    ensures StoreRun(sectors, h, a, b, buf)[h.dataSectors[j]] == sectors[h.dataSectors[j]]
  {
    StoreRunEffect(sectors, h, a, b, buf);
    NotInRange(h, a, b, j);
  }

  // Storing a buffer that agrees with the spliced file splices the file, and touches no other sector.
  lemma StoredSplice(sectors: seq<Block>, h: Header, p: nat, data: seq<byte>, a: nat, b: nat, buf: seq<byte>)
    requires |sectors| == NUM_SECTORS && HeaderOk(h) && 0 < |data| && p + |data| <= h.numBytes
    requires a == p / SECTOR_SIZE && b == (p + |data| - 1) / SECTOR_SIZE + 1 && a <= b <= h.numSectors && |buf| == (b - a) * SECTOR_SIZE
    requires Agrees(buf, Splice(FileBytes(sectors, h), p, data), a, b)
    ensures FileBytes(StoreRun(sectors, h, a, b, buf), h) == Splice(FileBytes(sectors, h), p, data)
    ensures forall s :: 0 <= s < NUM_SECTORS && s !in h.Data() ==> StoreRun(sectors, h, a, b, buf)[s] == sectors[s]
  {
    OutsideSplice(FileBytes(sectors, h), p, data, a, b);
    StoreFile(sectors, h, a, b, buf, Splice(FileBytes(sectors, h), p, data));
    StoreRunFrame(sectors, h, a, b, buf);
  }

  lemma SliceByte(buf: seq<byte>, q: nat, o: nat)
    requires (q + 1) * SECTOR_SIZE <= |buf| && o < SECTOR_SIZE
    ensures buf[q * SECTOR_SIZE..(q + 1) * SECTOR_SIZE][o] == buf[q * SECTOR_SIZE + o]
  {
  }

  lemma NotInRange(h: Header, a: nat, b: nat, j: nat)
    requires HeaderOk(h) && a <= b <= h.numSectors && j < h.numSectors && !(a <= j < b)
    ensures h.dataSectors[j] !in h.dataSectors[a..b]
  {
    assert forall i :: 0 <= i < h.numSectors ==> h.dataSectors[i] == h.Data()[i];
  }

  // The read-modify-write buffer: what was read of the first and last sector where they are
  // only partly overwritten, with the new data copied over it.
  lemma Patched(buf: seq<byte>, f: seq<byte>, p: nat, data: seq<byte>, a: nat, b: nat)
    requires 0 < |data| && p + |data| <= |f| && a == p / SECTOR_SIZE && b == (p + |data| - 1) / SECTOR_SIZE + 1
    requires |buf| == (b - a) * SECTOR_SIZE && p - a * SECTOR_SIZE + |data| <= |buf|
    requires p != a * SECTOR_SIZE ==>
               forall k :: 0 <= k < SECTOR_SIZE && a * SECTOR_SIZE + k < |f| ==> buf[k] == f[a * SECTOR_SIZE + k]
    requires p + |data| != b * SECTOR_SIZE ==>
               forall k :: |buf| - SECTOR_SIZE <= k < |buf| && a * SECTOR_SIZE + k < |f| ==> buf[k] == f[a * SECTOR_SIZE + k]
    ensures var o := p - a * SECTOR_SIZE;
            Agrees(buf[..o] + data + buf[o + |data|..], Splice(f, p, data), a, b)
  {
  }

  class OpenFile {
    const disk: SynchDisk
    var hdr: Header
    var seekPosition: int

    ghost predicate Valid()
      reads this, disk
    {
      disk.Valid() && HeaderOk(hdr)
    }

    ghost function Bytes(): seq<byte>
      requires Valid()
      reads this, disk
    {
      FileBytes(disk.sectors, hdr)
    }

    constructor (disk: SynchDisk, sector: int)
      requires disk.Valid() && 0 <= sector < NUM_SECTORS
      ensures this.disk == disk && hdr == DecodeHeader(disk.sectors[sector]) && seekPosition == 0
    {
      this.disk := disk;
      var b := disk.ReadSector(sector);
      hdr := DecodeHeader(b);
      seekPosition := 0;
    }

    function ByteToSector(offset: int): int
      requires 0 <= offset / SECTOR_SIZE < |hdr.dataSectors|
      reads this
    {
      hdr.dataSectors[offset / SECTOR_SIZE]
    }

    // Read in sectors first..last, full or partial.
    method ReadSectors(first: nat, last: nat) returns (buf: array<byte>)
      requires Valid() && first <= last < hdr.numSectors
      ensures fresh(buf) && buf[..] == SectorRun(disk.sectors, hdr, first, last + 1)
    {
      buf := new byte[(1 + last - first) * SECTOR_SIZE];
      var i := first;
      while i <= last
        invariant first <= i <= last + 1
        invariant buf[..(i - first) * SECTOR_SIZE] == SectorRun(disk.sectors, hdr, first, i)
      {
        var b := disk.ReadSector(ByteToSector(i * SECTOR_SIZE));
        CopyInto(b, buf, (i - first) * SECTOR_SIZE);
        RunExtends(disk.sectors, hdr, first, i);
        i := i + 1;
      }
      assert buf[..] == buf[..(i - first) * SECTOR_SIZE];
    }

    // The body of ReadAt once the request has been clipped.
    method Fetch(into: array<byte>, start: nat, n: nat, position: nat)
      requires Valid() && 0 < n && position + n <= hdr.numBytes && start + n <= into.Length
      modifies into
      ensures into[..] == old(into[..start]) + Bytes()[position..position + n] + old(into[start + n..])
    {
      var firstSector := position / SECTOR_SIZE;
      var lastSector := (position + n - 1) / SECTOR_SIZE;
      SliceOfRun(disk.sectors, hdr, position, n, firstSector, lastSector + 1);
      var buf := ReadSectors(firstSector, lastSector);
      var o := position - firstSector * SECTOR_SIZE;
      assert o == position % SECTOR_SIZE;
      CopyInto(buf[o..o + n], into, start);
    }

    // Read into the buffer from `start` on: the clipped slice of the file, and nothing else.
    method ReadAt(into: array<byte>, start: nat, numBytes: int, position: int) returns (n: int)
      requires Valid() && position >= 0
      requires start + Clip(hdr, numBytes, position) <= into.Length
      modifies into
      ensures n == Clip(hdr, numBytes, position)
      ensures into[..] == old(into[..start]) + (if n == 0 then [] else Bytes()[position..position + n]) + old(into[start + n..])
    {
      if numBytes <= 0 || position >= hdr.numBytes {
        return 0;
      }
      n := numBytes;
      if position + n > hdr.numBytes {
        n := hdr.numBytes - position;
      }
      Fetch(into, start, n, position);
    }

    // ReadAt of one whole sector: as much of it as belongs to the file.
    method ReadOneSector(buf: array<byte>, start: nat, j: nat)
      requires Valid() && start + SECTOR_SIZE <= buf.Length && j < hdr.numSectors
      modifies buf
      ensures forall k :: start <= k < start + SECTOR_SIZE && j * SECTOR_SIZE + k - start < hdr.numBytes ==>
                buf[k] == Bytes()[j * SECTOR_SIZE + k - start]
      ensures forall k :: 0 <= k < start ==> buf[k] == old(buf[k])
    {
      ghost var was := buf[..];
      var n := ReadAt(buf, start, SECTOR_SIZE, j * SECTOR_SIZE);
      SameSlice(buf[..], was[..start], Bytes()[j * SECTOR_SIZE..j * SECTOR_SIZE + n], was[start + n..]);
    }

    // The old contents of a sector that the write covers only in part.
    method ReadEdges(buf: array<byte>, first: nat, last: nat, firstAligned: bool, lastAligned: bool)
      requires Valid() && first <= last < hdr.numSectors && buf.Length == (1 + last - first) * SECTOR_SIZE
      modifies buf
      ensures !firstAligned ==>
                forall k :: 0 <= k < SECTOR_SIZE && first * SECTOR_SIZE + k < hdr.numBytes ==> buf[k] == Bytes()[first * SECTOR_SIZE + k]
      ensures !lastAligned ==>
                forall k :: buf.Length - SECTOR_SIZE <= k < buf.Length && first * SECTOR_SIZE + k < hdr.numBytes ==>
                  buf[k] == Bytes()[first * SECTOR_SIZE + k]
    {
      if !firstAligned {
        ReadOneSector(buf, 0, first);
      }
      if !lastAligned && (first != last || firstAligned) {
        ReadOneSector(buf, (last - first) * SECTOR_SIZE, last);
      }
    }

    method WriteSectors(buf: array<byte>, first: nat, last: nat)
      requires Valid() && first <= last < hdr.numSectors && buf.Length == (1 + last - first) * SECTOR_SIZE
      modifies disk
      ensures Valid()
      ensures disk.sectors == StoreRun(old(disk.sectors), hdr, first, last + 1, buf[..])
    {
      var i := first;
      while i <= last
        invariant first <= i <= last + 1
        invariant Valid()
        invariant disk.sectors == StoreRun(old(disk.sectors), hdr, first, i, buf[..])
      {
        disk.WriteSector(ByteToSector(i * SECTOR_SIZE), buf[(i - first) * SECTOR_SIZE..(i + 1 - first) * SECTOR_SIZE]);
        i := i + 1;
      }
    }

    // The sectors to write back: the edges as they are on disk, the new data in between.
    method FillBuffer(data: seq<byte>, position: nat, first: nat, last: nat) returns (buf: array<byte>)
      requires Valid() && 0 < |data| && position + |data| <= hdr.numBytes
      requires first == position / SECTOR_SIZE && last == (position + |data| - 1) / SECTOR_SIZE
      requires first <= last < hdr.numSectors && position % SECTOR_SIZE + |data| <= (last + 1 - first) * SECTOR_SIZE
      ensures fresh(buf) && buf.Length == (1 + last - first) * SECTOR_SIZE
      ensures Agrees(buf[..], Splice(Bytes(), position, data), first, last + 1)
    {
      buf := new byte[(1 + last - first) * SECTOR_SIZE];
      assert first * SECTOR_SIZE + position % SECTOR_SIZE == position;
      var firstAligned := position == first * SECTOR_SIZE;
      var lastAligned := position + |data| == (last + 1) * SECTOR_SIZE;
      ReadEdges(buf, first, last, firstAligned, lastAligned);
      Patch(buf, Bytes(), position, data, first, last + 1);
    }

    // The body of WriteAt once the request has been clipped.
    method Transfer(data: seq<byte>, position: nat)
      requires Valid() && 0 < |data| && position + |data| <= hdr.numBytes
      modifies disk
      ensures Valid()
      ensures Bytes() == Splice(old(Bytes()), position, data)
      ensures forall s :: 0 <= s < NUM_SECTORS && s !in hdr.Data() ==> disk.sectors[s] == old(disk.sectors[s])
    {
      var firstSector := position / SECTOR_SIZE;
      var lastSector := (position + |data| - 1) / SECTOR_SIZE;
      RunCovers(hdr.numBytes, position, |data|);
      var buf := FillBuffer(data, position, firstSector, lastSector);
      StoredSplice(disk.sectors, hdr, position, data, firstSector, lastSector + 1, buf[..]);
      WriteSectors(buf, firstSector, lastSector);
    }

    // Replace exactly the clipped range of the file; leave the rest of it and every sector
    // of the disk that is not the file's alone.
    method WriteAt(from: seq<byte>, numBytes: int, position: int) returns (n: int)
      requires Valid() && position >= 0 && |from| >= Clip(hdr, numBytes, position)
      modifies disk
      ensures Valid()
      ensures n == Clip(hdr, numBytes, position)
      ensures Bytes() == if n == 0 then old(Bytes()) else Splice(old(Bytes()), position, from[..n])
      ensures forall s :: 0 <= s < NUM_SECTORS && s !in hdr.Data() ==> disk.sectors[s] == old(disk.sectors[s])
    {
      if numBytes <= 0 || position >= hdr.numBytes {
        return 0;
      }
      n := numBytes;
      if position + n > hdr.numBytes {
        n := hdr.numBytes - position;
      }
      Transfer(from[..n], position);
    }

    method Seek(position: int)
      modifies this`seekPosition
      ensures seekPosition == position
    {
      seekPosition := position;
    }

    // Read and Write work at the seek position and move it past what they transferred.
    method Read(into: array<byte>, numBytes: int) returns (n: int)
      requires Valid() && seekPosition >= 0 && Clip(hdr, numBytes, seekPosition) <= into.Length
      modifies into, this`seekPosition
      ensures Valid() && n == Clip(hdr, numBytes, old(seekPosition)) && seekPosition == old(seekPosition) + n
      ensures n > 0 ==> into[..n] == Bytes()[old(seekPosition)..seekPosition]
    {
      n := ReadAt(into, 0, numBytes, seekPosition);
      seekPosition := seekPosition + n;
    }

    method Write(from: seq<byte>, numBytes: int) returns (n: int)
      requires Valid() && seekPosition >= 0 && |from| >= Clip(hdr, numBytes, seekPosition)
      modifies disk, this`seekPosition
      ensures Valid() && n == Clip(hdr, numBytes, old(seekPosition)) && seekPosition == old(seekPosition) + n
      ensures Bytes() == if n == 0 then old(Bytes()) else Splice(old(Bytes()), old(seekPosition), from[..n])
      ensures forall s :: 0 <= s < NUM_SECTORS && s !in hdr.Data() ==> disk.sectors[s] == old(disk.sectors[s])
    {
      n := WriteAt(from, numBytes, seekPosition);
      seekPosition := seekPosition + n;
    }

    // ReadAt and WriteAt of a whole file, as the directory and the free map use them.
    method ReadRange(at: int, length: nat) returns (got: seq<byte>)
      requires Valid() && at >= 0
      ensures |got| == Clip(hdr, length, at)
      ensures got == if |got| == 0 then [] else Bytes()[at..at + |got|]
    {
      var buf := new byte[length];
      var m := ReadAt(buf, 0, length, at);
      got := buf[..m];
    }

    method ReadWhole() returns (f: seq<byte>)
      requires Valid()
      ensures f == Bytes()
    {
      f := ReadRange(0, hdr.numBytes);
    }

    method WriteWhole(f: seq<byte>)
      requires Valid() && |f| == hdr.numBytes
      modifies disk
      ensures Valid() && Bytes() == f
      ensures forall s :: 0 <= s < NUM_SECTORS && s !in hdr.Data() ==> disk.sectors[s] == old(disk.sectors[s])
    {
      SpliceAll(Bytes(), f);
      var n := WriteAt(f, |f|, 0);
    }
  }

  // A write to one file is invisible in every file that shares no data sector with it.
  lemma OtherFileUnchanged(sectors: seq<Block>, sectors': seq<Block>, written: seq<int>, h: Header)
    requires |sectors| == |sectors'| == NUM_SECTORS && HeaderOk(h)
    requires forall s :: 0 <= s < NUM_SECTORS && s !in written ==> sectors'[s] == sectors[s]
    requires forall s :: s in h.Data() ==> s !in written
    ensures FileBytes(sectors', h) == FileBytes(sectors, h)
  {
    forall k | 0 <= k < h.numBytes
      ensures FileBytes(sectors', h)[k] == FileBytes(sectors, h)[k]
    {
      assert h.Data()[k / SECTOR_SIZE] in h.Data();
    }
  }

  // A ReadAt after a WriteAt: what was written is read back, and any other byte is as it was before.
  method ReadBack(file: OpenFile, from: seq<byte>, position: int, at: int, length: nat) returns (n: int, got: seq<byte>)
    requires file.Valid() && position >= 0 && at >= 0
    modifies file.disk
    ensures file.Valid() && n == Clip(file.hdr, |from|, position) && |got| == Clip(file.hdr, length, at)
    ensures forall k :: 0 <= k < |got| ==> got[k] == if position <= at + k < position + n then from[at + k - position] else old(file.Bytes())[at + k]
  {
    ghost var was := file.Bytes();
    n := file.WriteAt(from, |from|, position);
    got := file.ReadRange(at, length);
    ReadsBack(was, file.Bytes(), from, n, position, at, got);
  }

  lemma ReadsBack(was: seq<byte>, now: seq<byte>, from: seq<byte>, n: nat, position: nat, at: nat, got: seq<byte>)
    requires n <= |from| && (n > 0 ==> position + n <= |was|) && now == if n == 0 then was else Splice(was, position, from[..n])
    requires (|got| > 0 ==> at + |got| <= |now|) && got == if |got| == 0 then [] else now[at..at + |got|]
    ensures forall k :: 0 <= k < |got| ==> at + k < |was| && got[k] == if position <= at + k < position + n then from[at + k - position] else was[at + k]
  {
    forall k | 0 <= k < |got|
      ensures at + k < |was| && got[k] == if position <= at + k < position + n then from[at + k - position] else was[at + k]
    {
      assert got[k] == now[at + k];
      if n > 0 {
        SpliceByte(was, position, from[..n], at + k);
      }
    }
  }

  lemma SpliceByte(f: seq<byte>, position: nat, data: seq<byte>, k: nat)
    requires position + |data| <= |f| && k < |f|
    ensures Splice(f, position, data)[k] == if position <= k < position + |data| then data[k - position] else f[k]
  {
  }

  lemma SpliceAll(f: seq<byte>, data: seq<byte>)
    requires |f| == |data|
    ensures Splice(f, 0, data) == data && data[..|data|] == data
  {
  }

  lemma OutsideSplice(f: seq<byte>, p: nat, data: seq<byte>, a: nat, b: nat)
    requires 0 < |data| && p + |data| <= |f| && a == p / SECTOR_SIZE && b == (p + |data| - 1) / SECTOR_SIZE + 1
    ensures forall k :: 0 <= k < |f| && !(a <= k / SECTOR_SIZE < b) ==> Splice(f, p, data)[k] == f[k]
  {
  }

  lemma SameSlice(buf: seq<byte>, a: seq<byte>, b: seq<byte>, c: seq<byte>)
    requires buf == a + b + c
    ensures forall k :: |a| <= k < |a| + |b| ==> buf[k] == b[k - |a|]
    ensures forall k :: 0 <= k < |a| ==> buf[k] == a[k]
  {
  }

  // The data into a buffer that holds what the write is not to change.
  method Patch(buf: array<byte>, ghost f: seq<byte>, p: nat, data: seq<byte>, a: nat, b: nat)
    requires 0 < |data| && p + |data| <= |f| && a == p / SECTOR_SIZE && b == (p + |data| - 1) / SECTOR_SIZE + 1
    requires buf.Length == (b - a) * SECTOR_SIZE && p - a * SECTOR_SIZE + |data| <= buf.Length
    requires p != a * SECTOR_SIZE ==>
               forall k :: 0 <= k < SECTOR_SIZE && a * SECTOR_SIZE + k < |f| ==> buf[k] == f[a * SECTOR_SIZE + k]
    requires p + |data| != b * SECTOR_SIZE ==>
               forall k :: buf.Length - SECTOR_SIZE <= k < buf.Length && a * SECTOR_SIZE + k < |f| ==> buf[k] == f[a * SECTOR_SIZE + k]
    modifies buf
    ensures Agrees(buf[..], Splice(f, p, data), a, b)
  {
    Patched(buf[..], f, p, data, a, b);
    CopyInto(data, buf, p - a * SECTOR_SIZE);
  }

  // bcopy into a buffer
  method CopyInto(b: seq<byte>, buf: array<byte>, start: nat)
    requires start + |b| <= buf.Length
    modifies buf
    ensures buf[..] == old(buf[..start]) + b + old(buf[start + |b|..])
  {
    forall j | 0 <= j < |b| {
      buf[start + j] := b[j];
    }
  }
}
