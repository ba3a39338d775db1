// Files held open across their removal: an OpenFile (filesys/openfile.cc) keeps the header it was opened with,
// and Remove (filesys/filesys.cc) does not look for open files.
module HeldFiles {
  import opened Disks
  import opened Bitmaps
  import opened Files
  import opened Directories
  import opened PersistentBitmaps
  import opened FileSystems

  // Every listed file has the header and the bytes it had.
  ghost predicate FilesKept(sectors: seq<Block>, sectors': seq<Block>, dh: Header)
    requires |sectors| == |sectors'| == NUM_SECTORS && HeaderOk(dh) && dh.numBytes == DIRECTORY_FILE_SIZE
    requires EntriesOk(sectors, Table(sectors, dh))
  {
    forall i :: 0 <= i < NUM_DIR_ENTRIES && Table(sectors, dh)[i].inUse ==> FileKept(sectors, sectors', Table(sectors, dh)[i])
  }

  ghost predicate FileKept(sectors: seq<Block>, sectors': seq<Block>, e: Entry)
    requires |sectors| == |sectors'| == NUM_SECTORS
  {
    && e.inUse && EntryOk(sectors, e)
    && var h := DecodeHeader(sectors[e.sector]);
       DecodeHeader(sectors'[e.sector]) == h && FileBytes(sectors', h) == FileBytes(sectors, h)
  }

  // No write through an open file with header h does any harm.
  ghost predicate NeverHarmful(sectors: seq<Block>, mh: Header, dh: Header, h: Header)
    requires Inv(sectors, mh, dh)
  {
    forall sectors', from, numBytes, position, n :: WrittenThrough(sectors, sectors', h, from, numBytes, position, n) ==>
      Inv(sectors', mh, dh) && FilesKept(sectors, sectors', dh)
  }

  ghost predicate Unmarked(sectors: seq<Block>, mh: Header, h: Header)
    requires |sectors| == NUM_SECTORS && HeaderOk(mh) && mh.numBytes == FREE_MAP_FILE_SIZE && HeaderOk(h)
  {
    forall j :: 0 <= j < h.numSectors ==> !Bits(sectors, mh)[h.dataSectors[j]]
  }

  // What may be written through a file held open, whatever is written and wherever, without damage to the file
  // system or to any listed file: exactly what is written to a file none of whose sectors is in use again.
  lemma HeldWriteExact(sectors: seq<Block>, mh: Header, dh: Header, h: Header)
    requires Inv(sectors, mh, dh) && HeaderOk(h)
    ensures NeverHarmful(sectors, mh, dh, h) <==> Unmarked(sectors, mh, h)
  {
    if Unmarked(sectors, mh, h) {
      forall sectors', from, numBytes, position, n | WrittenThrough(sectors, sectors', h, from, numBytes, position, n)
        ensures Inv(sectors', mh, dh) && FilesKept(sectors, sectors', dh)
      {
        UnmarkedIsHarmless(sectors, sectors', mh, dh, h);
      }
    } else {
      var j :| 0 <= j < h.numSectors && Bits(sectors, mh)[h.dataSectors[j]];
      var b := Harm(sectors, mh, dh, h.dataSectors[j]);
      var sectors', from, numBytes, position, n := OneSector(sectors, h, j, b);
    }
  }

  lemma UnmarkedIsHarmless(sectors: seq<Block>, sectors': seq<Block>, mh: Header, dh: Header, h: Header)
    requires Inv(sectors, mh, dh) && HeaderOk(h) && Unmarked(sectors, mh, h) && OnlyWritten(sectors, sectors', h.Data())
    ensures Inv(sectors', mh, dh) && Bits(sectors', mh) == Bits(sectors, mh) && Table(sectors', dh) == Table(sectors, dh)
    ensures FilesKept(sectors, sectors', dh)
  {
    var table := Table(sectors, dh);
    assert forall x :: x in h.Data() ==> 0 <= x < NUM_SECTORS && !Bits(sectors, mh)[x];
    SystemSectors(sectors, mh, dh);
    forall i | 0 <= i < NUM_DIR_ENTRIES && table[i].inUse
      ensures FileKept(sectors, sectors', table[i]) && table[i].sector !in h.Data()
    {
      FileSectors(sectors, mh, dh, i);
      OtherFilesStay(sectors, sectors', mh, dh, h.Data(), i);
    }
    DataOnlyKeepsInv(sectors, sectors', mh, dh, h.Data());
  }

  // Some block in a sector in use breaks the invariant or changes a listed file.
  lemma Harm(sectors: seq<Block>, mh: Header, dh: Header, x: int) returns (b: Block)
    requires Inv(sectors, mh, dh) && 0 <= x < NUM_SECTORS && Bits(sectors, mh)[x]
    ensures !Inv(sectors[x := b], mh, dh) || !FilesKept(sectors, sectors[x := b], dh)
  {
    if IsMeta(sectors, mh, dh, x) {
      b := Damage(sectors, mh, dh, x);
    } else {
      var i := DataOwner(sectors, mh, dh, x);
      var c: byte := if sectors[x][0] == 0 then 1 else 0;
      b := sectors[x][0 := c];
      FirstByteChanges(sectors, sectors[x := b], DecodeHeader(sectors[Table(sectors, dh)[i].sector]), x);
      assert !FileKept(sectors, sectors[x := b], Table(sectors, dh)[i]);
    }
  }

  // A sector in use that is not the file system's own is data of a listed file.
  lemma DataOwner(sectors: seq<Block>, mh: Header, dh: Header, x: int) returns (i: nat)
    requires Inv(sectors, mh, dh) && 0 <= x < NUM_SECTORS && Bits(sectors, mh)[x] && !IsMeta(sectors, mh, dh, x)
    ensures i < NUM_DIR_ENTRIES && Table(sectors, dh)[i].inUse && EntryOk(sectors, Table(sectors, dh)[i])
    ensures x in DecodeHeader(sectors[Table(sectors, dh)[i].sector]).Data()
  {
    var table := Table(sectors, dh);
    var claims := EntryClaims(sectors, table);
    InOneOf(SystemClaims(mh, dh), Sum(claims), x);
    assert x !in multiset(mh.Data()) && x !in multiset(dh.Data());
    i := SumHas(claims, x);
    assert EntryOk(sectors, table[i]) && x in EntryClaim(sectors, table[i]);
    assert x in multiset(DecodeHeader(sectors[table[i].sector]).Data());
  }

  lemma InOneOf(system: multiset<int>, listed: multiset<int>, x: int)
    requires (system + listed)[x] == 1
    ensures x in system || x in listed
  {
  }

  lemma {:induction false} SumHas(claims: seq<multiset<int>>, x: int) returns (i: nat)
    requires x in Sum(claims)
    ensures i < |claims| && x in claims[i]
  {
    var n := |claims| - 1;
    if x in claims[n] {
      i := n;
    } else {
      i := SumHas(claims[..n], x);
    }
  }

  // Every data sector holds at least one byte of its file.
  lemma FirstByteChanges(sectors: seq<Block>, sectors': seq<Block>, h: Header, x: int)
    requires |sectors| == |sectors'| == NUM_SECTORS && HeaderOk(h) && x in h.Data()
    requires sectors'[x][0] != sectors[x][0]
    ensures FileBytes(sectors', h) != FileBytes(sectors, h)
  {
    var j :| 0 <= j < h.numSectors && h.dataSectors[j] == x;
    SectorStart(h.numBytes, j);
    assert FileBytes(sectors', h)[j * SECTOR_SIZE] != FileBytes(sectors, h)[j * SECTOR_SIZE];
  }

  lemma SectorStart(size: nat, j: nat)
    requires j < DivRoundUp(size, SECTOR_SIZE)
    ensures j * SECTOR_SIZE < size && j * SECTOR_SIZE / SECTOR_SIZE == j && j * SECTOR_SIZE % SECTOR_SIZE == 0
  {
  }

  // A write that puts a block into one of the file's sectors.
  lemma OneSector(sectors: seq<Block>, h: Header, j: nat, b: Block)
    returns (sectors': seq<Block>, from: seq<byte>, numBytes: int, position: int, n: int)
    requires |sectors| == NUM_SECTORS && HeaderOk(h) && j < h.numSectors
    ensures sectors' == sectors[h.dataSectors[j] := b] && WrittenThrough(sectors, sectors', h, from, numBytes, position, n)
  {
    SectorStart(h.numBytes, j);
    sectors', from, numBytes, position := sectors[h.dataSectors[j] := b], b, SECTOR_SIZE, j * SECTOR_SIZE;
    n := Clip(h, numBytes, position);
    assert h.Data()[j] in h.Data();
    var f, f' := FileBytes(sectors, h), FileBytes(sectors', h);
    forall k | 0 <= k < h.numBytes
      ensures f'[k] == Splice(f, position, from[..n])[k]
    {
      OneSectorByte(sectors, h, j, b, k);
      SpliceByte(f, position, from[..n], k);
    }
  }

  lemma OneSectorByte(sectors: seq<Block>, h: Header, j: nat, b: Block, k: nat)
    requires |sectors| == NUM_SECTORS && HeaderOk(h) && j < h.numSectors && k < h.numBytes
    ensures FileBytes(sectors[h.dataSectors[j] := b], h)[k]
         == if j * SECTOR_SIZE <= k < (j + 1) * SECTOR_SIZE then b[k - j * SECTOR_SIZE] else FileBytes(sectors, h)[k]
  {
    var q := k / SECTOR_SIZE;
    assert q < h.numSectors && h.Data()[q] == h.dataSectors[q] && h.Data()[j] == h.dataSectors[j];
    assert j * SECTOR_SIZE <= k < (j + 1) * SECTOR_SIZE <==> q == j;
  }

  // WriteAt through an open file, listed or not.
  method WriteHeld(fs: FileSystem, file: OpenFile, from: seq<byte>, numBytes: int, position: int) returns (n: int)
    requires fs.Valid() && file.disk == fs.disk && HeaderOk(file.hdr) && position >= 0 && |from| >= Clip(file.hdr, numBytes, position)
    modifies fs.disk
    ensures n >= 0 && WrittenThrough(old(fs.disk.sectors), fs.disk.sectors, file.hdr, from, numBytes, position, n)
    ensures Unmarked(old(fs.disk.sectors), fs.freeMapFile.hdr, file.hdr) ==>
              && fs.Valid() && fs.FreeBits() == old(fs.FreeBits()) && fs.Listing() == old(fs.Listing())
              && FilesKept(old(fs.disk.sectors), fs.disk.sectors, fs.directoryFile.hdr)
  {
    ghost var sectors, mh, dh := fs.disk.sectors, fs.freeMapFile.hdr, fs.directoryFile.hdr;
    n := file.WriteAt(from, numBytes, position);
    if Unmarked(sectors, mh, file.hdr) {
      UnmarkedIsHarmless(sectors, fs.disk.sectors, mh, dh, file.hdr);
    }
  }

  // For the invariant alone less is needed: none of the sectors is the file system's own.
  lemma StructureExact(sectors: seq<Block>, mh: Header, dh: Header, written: seq<int>)
    requires Inv(sectors, mh, dh) && forall x :: x in written ==> 0 <= x < NUM_SECTORS
    ensures (forall sectors' :: OnlyWritten(sectors, sectors', written) ==> Inv(sectors', mh, dh)) <==> DataOnly(sectors, mh, dh, written)
  {
    if DataOnly(sectors, mh, dh, written) {
      forall sectors' | OnlyWritten(sectors, sectors', written)
        ensures Inv(sectors', mh, dh)
      {
        DataOnlyKeepsInv(sectors, sectors', mh, dh, written);
      }
    } else {
      var x :| x in written && IsMeta(sectors, mh, dh, x);
      var b := Damage(sectors, mh, dh, x);
      assert OnlyWritten(sectors, sectors[x := b], written);
    }
  }

  // A write through a file that is still listed, with the header it was opened with, is always of that kind.
  lemma HeldButListed(sectors: seq<Block>, mh: Header, dh: Header, h: Header, i: nat)
    requires Inv(sectors, mh, dh) && i < NUM_DIR_ENTRIES && Table(sectors, dh)[i].inUse
    requires EntryOk(sectors, Table(sectors, dh)[i]) && DecodeHeader(sectors[Table(sectors, dh)[i].sector]) == h
    ensures DataOnly(sectors, mh, dh, h.Data())
  {
    ListedDataOnly(sectors, mh, dh, i);
  }

  // Some block in a sector of the file system breaks the invariant.
  lemma Damage(sectors: seq<Block>, mh: Header, dh: Header, x: int) returns (b: Block)
    requires Inv(sectors, mh, dh) && 0 <= x < NUM_SECTORS && IsMeta(sectors, mh, dh, x)
    ensures !Inv(sectors[x := b], mh, dh)
  {
    if x in mh.Data() {
      b := seq(SECTOR_SIZE, k => 0);
      MapDamaged(sectors, sectors[x := b], mh, dh, x);
    } else {
      b := seq(SECTOR_SIZE, k => 255);
      BadHeader(b);
      if x in dh.Data() {
        DirectoryDamaged(sectors, sectors[x := b], mh, dh, x);
      } else if x != FREE_MAP_SECTOR && x != DIRECTORY_SECTOR {
        HeaderDamaged(sectors, sectors[x := b], mh, dh, x);
      }
    }
  }

  lemma AllOnes(b: seq<byte>)
    requires |b| == 4 && forall k :: 0 <= k < 4 ==> b[k] == 255
    ensures DecodeInt(b) == -1
  {
    assert LittleEndian(b[1..][1..][1..][1..]) == 0;
    assert LittleEndian(b[1..][1..][1..]) == 0xff;
    assert LittleEndian(b[1..][1..]) == 0xffff;
    assert LittleEndian(b[1..]) == 0xff_ffff;
  }

  lemma BadHeader(b: Block)
    requires forall k :: 0 <= k < SECTOR_SIZE ==> b[k] == 255
    ensures DecodeHeader(b).numBytes == -1
  {
    AllOnes(b[4 * 0..4 * 0 + 4]);
  }

  lemma HeaderDamaged(sectors: seq<Block>, sectors': seq<Block>, mh: Header, dh: Header, x: int)
    requires Inv(sectors, mh, dh) && 0 <= x < NUM_SECTORS && x !in mh.Data() && x !in dh.Data()
    requires IsMeta(sectors, mh, dh, x) && x != FREE_MAP_SECTOR && x != DIRECTORY_SECTOR
    requires |sectors'| == NUM_SECTORS && sectors' == sectors[x := sectors'[x]] && DecodeHeader(sectors'[x]).numBytes == -1
    ensures !Inv(sectors', mh, dh)
  {
    OtherFileUnchanged(sectors, sectors', [x], dh);
    var i :| 0 <= i < NUM_DIR_ENTRIES && Table(sectors, dh)[i].inUse && Table(sectors, dh)[i].sector == x;
    assert Table(sectors', dh)[i] == Table(sectors, dh)[i];
    assert !EntryOk(sectors', Table(sectors', dh)[i]);
  }

  // The directory and the free map fill one sector each.
  lemma OneSectorFile(sectors: seq<Block>, h: Header, x: int, c: byte)
    requires |sectors| == NUM_SECTORS && HeaderOk(h) && 0 < h.numBytes <= SECTOR_SIZE && x in h.Data()
    requires forall k :: 0 <= k < SECTOR_SIZE ==> sectors[x][k] == c
    ensures forall k :: 0 <= k < h.numBytes ==> FileBytes(sectors, h)[k] == c
  {
    assert h.numSectors == 1;
    assert x == h.Data()[0] == h.dataSectors[0];
    assert forall k :: 0 <= k < h.numBytes ==> k / SECTOR_SIZE == 0 && k % SECTOR_SIZE == k;
  }

  lemma DirectoryDamaged(sectors: seq<Block>, sectors': seq<Block>, mh: Header, dh: Header, x: int)
    requires Inv(sectors, mh, dh) && 0 <= x < NUM_SECTORS && x in dh.Data() && |sectors'| == NUM_SECTORS
    requires forall k :: 0 <= k < SECTOR_SIZE ==> sectors'[x][k] == 255
    ensures !Inv(sectors', mh, dh)
  {
    OneSectorFile(sectors', dh, x, 255);
    FirstEntryBad(FileBytes(sectors', dh));
    assert !EntryOk(sectors', Table(sectors', dh)[0]);
  }

  lemma FirstEntryBad(f: seq<byte>)
    requires |f| == DIRECTORY_FILE_SIZE && forall k :: 0 <= k < |f| ==> f[k] == 255
    ensures DecodeTable(f)[0].inUse && DecodeTable(f)[0].sector == -1
  {
    var e := f[ENTRY_SIZE * 0..ENTRY_SIZE * 0 + ENTRY_SIZE];
    AllOnes(e[4..8]);
    assert DecodeTable(f)[0] == DecodeEntry(e);
  }

  lemma MapDamaged(sectors: seq<Block>, sectors': seq<Block>, mh: Header, dh: Header, x: int)
    requires Inv(sectors, mh, dh) && 0 <= x < NUM_SECTORS && x in mh.Data() && |sectors'| == NUM_SECTORS
    requires forall k :: 0 <= k < SECTOR_SIZE ==> sectors'[x][k] == 0
    ensures !Inv(sectors', mh, dh)
  {
    OneSectorFile(sectors', mh, x, 0);
    FirstBitClear(FileBytes(sectors', mh));
    assert !Bits(sectors', mh)[FREE_MAP_SECTOR];
    if Inv(sectors', mh, dh) {
      SystemSectors(sectors', mh, dh);
    }
  }

  lemma FirstBitClear(f: seq<byte>)
    requires |f| == FREE_MAP_FILE_SIZE && forall k :: 0 <= k < |f| ==> f[k] == 0
    ensures !BitsIn(f, NUM_SECTORS)[0]
  {
    var b := f[4 * 0..4 * 0 + 4];
    assert LittleEndian(b[1..][1..][1..][1..]) == 0;
    assert LittleEndian(b[1..][1..][1..]) == 0;
    assert LittleEndian(b[1..][1..]) == 0;
    assert LittleEndian(b[1..]) == 0;
    assert DecodeWords(f)[0] == 0;
    DigitOfZero(0);
  }

  // ---------------------------------------------------------------------
  // Such a write is within reach

  // Slot i has the file with header h under the key.
  ghost predicate Entered(sectors: seq<Block>, table: seq<Entry>, i: nat, key: seq<byte>, s: int, h: Header) {
    && i < |table| && Matches(table[i], key) && table[i].sector == s
    && 0 <= s < |sectors| && DecodeHeader(sectors[s]) == h && HeaderOk(h)
  }

  method CreateListed(fs: FileSystem, name: Name, size: int, memory: Header) returns (ghost i: nat, ghost s: int, ghost h: Header)
    requires fs.Valid() && 0 <= size <= MAX_FILE_SIZE && Raw(memory) && CanCreate(fs.FreeBits(), fs.Listing(), Key(name), size)
    modifies fs.disk
    ensures fs.Valid() && Created(old(fs.disk.sectors), fs.disk.sectors, fs.freeMapFile.hdr, fs.directoryFile.hdr, Key(name), i, s, h)
    ensures h.numBytes == size && s == FirstClear(old(fs.FreeBits()))
    ensures h.Data() == TakeClear(old(fs.FreeBits())[s := true], h.numSectors).0
    ensures Entered(fs.disk.sectors, fs.Listing(), i, Key(name), s, h)
  {
    ghost var sectors, bits := fs.disk.sectors, fs.FreeBits();
    var ok := fs.Create(name, size, memory);
    i, s, h :| Created(sectors, fs.disk.sectors, fs.freeMapFile.hdr, fs.directoryFile.hdr, Key(name), i, s, h)
               && h.numBytes == size && s == FirstClear(bits) && h.Data() == TakeClear(bits[s := true], h.numSectors).0;
    CreatedIsEntered(sectors, fs.disk.sectors, fs.freeMapFile.hdr, fs.directoryFile.hdr, Key(name), i, s, h);
  }

  lemma CreatedIsEntered(sectors: seq<Block>, sectors': seq<Block>, mh: Header, dh: Header, key: seq<byte>, i: nat, s: int, h: Header)
    requires |sectors| == |sectors'| == NUM_SECTORS && SystemHeaders(mh, dh) && Created(sectors, sectors', mh, dh, key, i, s, h)
    ensures Entered(sectors', Table(sectors', dh), i, key, s, h)
  {
  }

  method OpenListed(fs: FileSystem, name: Name, ghost i: nat, ghost s: int, ghost h: Header) returns (file: OpenFile)
    requires fs.Valid() && Entered(fs.disk.sectors, fs.Listing(), i, Key(name), s, h)
    ensures fresh(file) && file.disk == fs.disk && file.hdr == h
  {
    var directory, sector, j := fs.Locate(name);
    file := new OpenFile(fs.disk, sector);
  }

  // The header of a file that has the sectors a Create would take next.
  ghost predicate NextInLine(bits: seq<bool>, h: Header) {
    && FirstClear(bits) >= 0 && HeaderOk(h)
    && h.Data() == TakeClear(bits[FirstClear(bits) := true], h.numSectors).0
  }

  ghost predicate AllFree(table: seq<Entry>) {
    forall k :: 0 <= k < |table| ==> !table[k].inUse
  }

  // Create a file, open it and remove it: the free map is as before, and so is the directory but for its free
  // entries, and the open file still has the sectors that are the next ones to be taken.
  method HoldRemoved(fs: FileSystem, name: Name, size: int, memory: Header) returns (file: OpenFile)
    requires fs.Valid() && 0 <= size <= MAX_FILE_SIZE && Raw(memory) && CanCreate(fs.FreeBits(), fs.Listing(), Key(name), size)
    modifies fs.disk
    ensures fs.Valid() && fs.FreeBits() == old(fs.FreeBits()) && Alike(old(fs.Listing()), fs.Listing())
    ensures fresh(file) && file.disk == fs.disk && file.hdr.numBytes == size && NextInLine(fs.FreeBits(), file.hdr)
  {
    ghost var sectors := fs.disk.sectors;
    ghost var i, s, h := CreateListed(fs, name, size, memory);
    file := OpenListed(fs, name, i, s, h);
    RemoveAgain(fs, name, memory, sectors, i, s, h);
  }

  // On a new disk, create a file of one sector, open it, remove it, and create two empty files: the second one's
  // header is where the removed file had its data, and a write through the open file breaks the file system.
  method HeldWriteDamages(disk: SynchDisk, memory: Header, table0: seq<Entry>, a: Name, b: Name, c: Name)
    returns (fs: FileSystem, n: int)
    requires disk.Valid() && Raw(memory) && |table0| == NUM_DIR_ENTRIES && TableOk(table0) && Key(b) != Key(c)
    modifies disk
    ensures fs.disk == disk && n == SECTOR_SIZE && !Inv(disk.sectors, fs.freeMapFile.hdr, fs.directoryFile.hdr)
  {
    var file;
    fs, file := HoldOnNewDisk(disk, memory, table0, a, SECTOR_SIZE);
    ghost var k := TwoEmptyFiles(fs, memory, b, c, file.hdr);
    n := Overwrite(fs, file, k);
  }

  // A new file system, with one file held open across its removal.
  method HoldOnNewDisk(disk: SynchDisk, memory: Header, table0: seq<Entry>, a: Name, size: int) returns (fs: FileSystem, file: OpenFile)
    requires disk.Valid() && Raw(memory) && |table0| == NUM_DIR_ENTRIES && TableOk(table0) && 0 <= size <= MAX_FILE_SIZE
    modifies disk
    ensures fs.disk == disk && fs.Valid() && AllFree(fs.Listing()) && CountClear(fs.FreeBits()) == NUM_SECTORS - 4
    ensures file.disk == disk && file.hdr.numBytes == size && NextInLine(fs.FreeBits(), file.hdr)
  {
    fs := new FileSystem.Format(disk, memory, memory, table0);
    ghost var table := fs.Listing();
    RoomForOne(fs.FreeBits(), table, Key(a), size);
    file := HoldRemoved(fs, a, size, memory);
    AlikeFree(table, fs.Listing());
  }

  lemma AlikeFree(table: seq<Entry>, table': seq<Entry>)
    requires Alike(table, table') && AllFree(table)
    ensures AllFree(table')
  {
  }

  // On an empty file system a file of any size can be created.
  lemma RoomForOne(bits: seq<bool>, table: seq<Entry>, key: seq<byte>, size: nat)
    requires CountClear(bits) == NUM_SECTORS - 4 && |table| == NUM_DIR_ENTRIES && AllFree(table) && size <= MAX_FILE_SIZE
    ensures CanCreate(bits, table, key, size)
  {
    assert !table[0].inUse;
  }

  method TwoEmptyFiles(fs: FileSystem, memory: Header, b: Name, c: Name, held: Header) returns (ghost k: nat)
    requires fs.Valid() && Raw(memory) && Key(b) != Key(c) && CountClear(fs.FreeBits()) == NUM_SECTORS - 4 && AllFree(fs.Listing())
    requires held.numBytes == SECTOR_SIZE && NextInLine(fs.FreeBits(), held)
    modifies fs.disk
    ensures fs.Valid() && k < NUM_DIR_ENTRIES && fs.Listing()[k].inUse && fs.Listing()[k].sector == held.dataSectors[0]
  {
    ghost var sectors := fs.disk.sectors;
    RoomForOne(fs.FreeBits(), fs.Listing(), Key(b), 0);
    ghost var i, s, h := CreateListed(fs, b, 0, memory);
    FirstEmptyFile(sectors, fs.disk.sectors, fs.freeMapFile.hdr, fs.directoryFile.hdr, Key(b), i, s, h, held, Key(c));
    ghost var s', h';
    k, s', h' := CreateListed(fs, c, 0, memory);
  }

  lemma FirstEmptyFile(sectors: seq<Block>, sectors': seq<Block>, mh: Header, dh: Header,
                       key: seq<byte>, i: nat, s: int, h: Header, held: Header, key': seq<byte>)
    requires |sectors| == |sectors'| == NUM_SECTORS && SystemHeaders(mh, dh) && Created(sectors, sectors', mh, dh, key, i, s, h)
    requires AllFree(Table(sectors, dh)) && CountClear(Bits(sectors, mh)) >= 2 && s == FirstClear(Bits(sectors, mh)) && h.numBytes == 0
    requires held.numBytes == SECTOR_SIZE && NextInLine(Bits(sectors, mh), held) && key != key'
    ensures CanCreate(Bits(sectors', mh), Table(sectors', dh), key', 0) && FirstClear(Bits(sectors', mh)) == held.dataSectors[0]
  {
    NextFree(Bits(sectors, mh), h, Bits(sectors', mh), held);
    StillRoom(Table(sectors, dh), Table(sectors', dh), i, key, s, key');
  }

  lemma StillRoom(table: seq<Entry>, table': seq<Entry>, i: nat, key: seq<byte>, s: int, key': seq<byte>)
    requires |table| == NUM_DIR_ENTRIES && AllFree(table) && Added(table, table', i, key, s) && key != key'
    ensures CanAdd(table', key')
  {
    assert !table'[if i == 0 then 1 else 0].inUse;
  }

  // A file without data takes one sector, and the next in line is then the held file's.
  lemma NextFree(bits: seq<bool>, h: Header, bits': seq<bool>, held: Header)
    requires |bits| == NUM_SECTORS && CountClear(bits) >= 2 && held.numBytes == SECTOR_SIZE && NextInLine(bits, held)
    requires HeaderOk(h) && h.numBytes == 0 && bits' == MarkAll(bits, [FirstClear(bits)] + h.Data())
    ensures CountClear(bits') == CountClear(bits) - 1 && FirstClear(bits') == held.dataSectors[0]
  {
    var s, one := FirstClear(bits), held.numSectors;
    assert h.Data() == [];
    assert bits' == bits[s := true];
    CountAfterSet(bits, s);
    assert one == 1 && TakeClear(bits', one - 1).0 == [];
    assert held.Data()[0] == held.dataSectors[0];
  }

  method Overwrite(fs: FileSystem, file: OpenFile, ghost k: nat) returns (n: int)
    requires fs.Valid() && file.disk == fs.disk && HeaderOk(file.hdr) && file.hdr.numBytes == SECTOR_SIZE
    requires k < NUM_DIR_ENTRIES && fs.Listing()[k].inUse && fs.Listing()[k].sector == file.hdr.dataSectors[0]
    modifies fs.disk
    ensures n == SECTOR_SIZE && !Inv(fs.disk.sectors, fs.freeMapFile.hdr, fs.directoryFile.hdr)
  {
    ghost var sectors := fs.disk.sectors;
    n := FillSector(file);
    HeaderOverwritten(sectors, fs.disk.sectors, fs.freeMapFile.hdr, fs.directoryFile.hdr, k, file.hdr);
  }

  ghost predicate Ones(f: seq<byte>) {
    forall j :: 0 <= j < |f| ==> f[j] == 255
  }

  method FillSector(file: OpenFile) returns (n: int)
    requires file.Valid() && file.hdr.numBytes == SECTOR_SIZE
    modifies file.disk
    ensures file.Valid() && n == SECTOR_SIZE && Ones(file.Bytes())
    ensures OnlyWritten(old(file.disk.sectors), file.disk.sectors, file.hdr.Data())
  {
    var ones := seq(SECTOR_SIZE, i => 255 as byte);
    SpliceAll(file.Bytes(), ones);
    n := file.WriteAt(ones, SECTOR_SIZE, 0);
    assert ones[..n] == ones;
  }

  lemma HeaderOverwritten(sectors: seq<Block>, sectors': seq<Block>, mh: Header, dh: Header, k: nat, h: Header)
    requires Inv(sectors, mh, dh) && HeaderOk(h) && h.numBytes == SECTOR_SIZE && OnlyWritten(sectors, sectors', h.Data())
    requires k < NUM_DIR_ENTRIES && Table(sectors, dh)[k].inUse && Table(sectors, dh)[k].sector == h.dataSectors[0]
    requires Ones(FileBytes(sectors', h))
    ensures !Inv(sectors', mh, dh)
  {
    var x := h.dataSectors[0];
    FileSectors(sectors, mh, dh, k);
    assert IsMeta(sectors, mh, dh, x);
    WholeSector(sectors', h, FileBytes(sectors', h));
    BadHeader(sectors'[x]);
    assert h.Data() == [x];
    assert sectors' == sectors[x := sectors'[x]];
    HeaderDamaged(sectors, sectors', mh, dh, x);
  }

  lemma WholeSector(sectors: seq<Block>, h: Header, f: seq<byte>)
    requires |sectors| == NUM_SECTORS && HeaderOk(h) && h.numBytes == SECTOR_SIZE && FileBytes(sectors, h) == f
    ensures sectors[h.dataSectors[0]] == f
  {
    assert forall k :: 0 <= k < SECTOR_SIZE ==> k / SECTOR_SIZE == 0 && k % SECTOR_SIZE == k;
    assert forall k :: 0 <= k < SECTOR_SIZE ==> sectors[h.dataSectors[0]][k] == f[k];
  }

  // When one file of the same size is created instead, it gets just the sectors of the removed one: the file system
  // stays whole, and the new file holds what is written through the open one.
  method HeldWriteReaches(disk: SynchDisk, memory: Header, table0: seq<Entry>, a: Name, b: Name, size: int, from: seq<byte>)
    returns (fs: FileSystem, ghost i: nat)
    requires disk.Valid() && Raw(memory) && |table0| == NUM_DIR_ENTRIES && TableOk(table0)
    requires 0 <= size <= MAX_FILE_SIZE && |from| == size
    modifies disk
    ensures fs.disk == disk && fs.Valid() && i < NUM_DIR_ENTRIES && Matches(fs.Listing()[i], Key(b))
    ensures EntryOk(disk.sectors, fs.Listing()[i]) && FileBytes(disk.sectors, DecodeHeader(disk.sectors[fs.Listing()[i].sector])) == from
  {
    var file;
    fs, file := HoldOnNewDisk(disk, memory, table0, a, size);
    RoomForOne(fs.FreeBits(), fs.Listing(), Key(b), size);
    i := Replace(fs, memory, b, size, file, from);
  }

  method Replace(fs: FileSystem, memory: Header, b: Name, size: int, file: OpenFile, from: seq<byte>) returns (ghost i: nat)
    requires fs.Valid() && Raw(memory) && 0 <= size <= MAX_FILE_SIZE && |from| == size
    requires CanCreate(fs.FreeBits(), fs.Listing(), Key(b), size)
    requires file.disk == fs.disk && file.hdr.numBytes == size && NextInLine(fs.FreeBits(), file.hdr)
    modifies fs.disk
    ensures fs.Valid() && i < NUM_DIR_ENTRIES && Matches(fs.Listing()[i], Key(b)) && EntryOk(fs.disk.sectors, fs.Listing()[i])
    ensures FileBytes(fs.disk.sectors, DecodeHeader(fs.disk.sectors[fs.Listing()[i].sector])) == from
  {
    ghost var s, h;
    i, s, h := CreateListed(fs, b, size, memory);
    assert h.numSectors == file.hdr.numSectors;
    ghost var sectors := fs.disk.sectors;
    FileSectors(sectors, fs.freeMapFile.hdr, fs.directoryFile.hdr, i);
    file.WriteWhole(from);
    SameBytes(fs.disk.sectors, h, file.hdr);
    DataWriteKeepsInv(sectors, fs.disk.sectors, fs.freeMapFile.hdr, fs.directoryFile.hdr, i);
  }

  // The entries past numSectors do not matter.
  lemma SameBytes(sectors: seq<Block>, h: Header, h': Header)
    requires |sectors| == NUM_SECTORS && HeaderOk(h) && HeaderOk(h') && h.numBytes == h'.numBytes && h.Data() == h'.Data()
    ensures FileBytes(sectors, h) == FileBytes(sectors, h')
  {
    forall k | 0 <= k < h.numBytes
      ensures FileBytes(sectors, h)[k] == FileBytes(sectors, h')[k]
    {
      assert h.Data()[k / SECTOR_SIZE] == h'.Data()[k / SECTOR_SIZE];
    }
  }
}
