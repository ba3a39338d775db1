// FileHeader of filesys/filehdr.cc: the in-memory header and its sector allocation.
module FileHeaders {
  import opened Disks
  import opened Bitmaps
  import opened Files

  // What Allocate makes of a header: the first clear bits of the free map, in order.
  ghost predicate Allocated(h: Header, bits: seq<bool>, bits': seq<bool>, fileSize: nat) {
    && HeaderOk(h) && h.numBytes == fileSize
    && (h.Data(), bits') == TakeClear(bits, h.numSectors)
  }

  lemma OneMoreSector(ds: seq<int>, i: nat, bits: seq<bool>, bits': seq<bool>)
    requires i < |ds| && (ds[..i], bits') == TakeClear(bits, i) && i < CountClear(bits)
    ensures var r := FirstClear(bits'); 0 <= r < |bits| && (ds[i := r][..i + 1], bits'[r := true]) == TakeClear(bits, i + 1)
  {
    var r := FirstClear(bits');
    TakeClearWorks(bits, i);
    CountZeroWhenFull(bits');
    assert ds[i := r][..i + 1] == ds[..i] + [r];
  }

  lemma AllocatedIsOk(h: Header, bits: seq<bool>, bits': seq<bool>)
    requires 0 <= h.numBytes <= MAX_FILE_SIZE && h.numSectors == DivRoundUp(h.numBytes, SECTOR_SIZE)
    requires |h.dataSectors| == NUM_DIRECT && forall i :: 0 <= i < NUM_DIRECT ==> IsInt32(h.dataSectors[i])
    requires |bits| == NUM_SECTORS && h.numSectors <= CountClear(bits)
    requires (h.dataSectors[..h.numSectors], bits') == TakeClear(bits, h.numSectors)
    ensures HeaderOk(h)
  {
    TakeClearWorks(bits, h.numSectors);
    assert forall i :: 0 <= i < h.numSectors ==> h.dataSectors[i] == h.Data()[i];
  }

  class FileHeader {
    var numBytes: int
    var numSectors: int
    var dataSectors: seq<int>

    ghost function Model(): Header
      reads this
    {
      Header(numBytes, numSectors, dataSectors)
    }

    // There is no constructor in the source: a new header holds whatever memory held.
    constructor (memory: Header)
      ensures Model() == memory
    {
      numBytes, numSectors, dataSectors := memory.numBytes, memory.numSectors, memory.dataSectors;
    }

    // Succeeds exactly when there are enough clear bits, and then every FindAndSet does.
    method Allocate(freeMap: Bitmap, fileSize: int) returns (ok: bool)
      requires freeMap.Valid() && freeMap.numBits == NUM_SECTORS && 0 <= fileSize <= MAX_FILE_SIZE
      requires |dataSectors| == NUM_DIRECT && forall i :: 0 <= i < NUM_DIRECT ==> IsInt32(dataSectors[i])
      modifies this, freeMap.words
      ensures ok <==> DivRoundUp(fileSize, SECTOR_SIZE) <= CountClear(old(freeMap.Contents()))
      ensures !ok ==> freeMap.Contents() == old(freeMap.Contents())
      ensures ok ==> Allocated(Model(), old(freeMap.Contents()), freeMap.Contents(), fileSize)
    {
      numBytes := fileSize;
      numSectors := DivRoundUp(fileSize, SECTOR_SIZE);
      var free := freeMap.NumClear();
      if free < numSectors {
        return false;
      }
      ghost var bits := freeMap.Contents();
      TakeSectors(freeMap);
      AllocatedIsOk(Model(), bits, freeMap.Contents());
      return true;
    }

    // The loop of Allocate.
    method TakeSectors(freeMap: Bitmap)
      requires freeMap.Valid() && freeMap.numBits == NUM_SECTORS && |dataSectors| == NUM_DIRECT
      requires 0 <= numSectors <= NUM_DIRECT && numSectors <= CountClear(freeMap.Contents())
      requires forall i :: 0 <= i < NUM_DIRECT ==> IsInt32(dataSectors[i])
      modifies this`dataSectors, freeMap.words
      ensures |dataSectors| == NUM_DIRECT && forall i :: 0 <= i < NUM_DIRECT ==> IsInt32(dataSectors[i])
      ensures (dataSectors[..numSectors], freeMap.Contents()) == TakeClear(old(freeMap.Contents()), numSectors)
    {
      ghost var bits := freeMap.Contents();
      var i := 0;
      while i < numSectors
        invariant 0 <= i <= numSectors
        invariant |dataSectors| == NUM_DIRECT && forall j :: 0 <= j < NUM_DIRECT ==> IsInt32(dataSectors[j])
        invariant (dataSectors[..i], freeMap.Contents()) == TakeClear(bits, i)
      {
        var r := TakeOne(freeMap, i, bits);
        i := i + 1;
      }
    }

    method TakeOne(freeMap: Bitmap, i: nat, ghost bits: seq<bool>) returns (r: int)
      requires freeMap.Valid() && freeMap.numBits == NUM_SECTORS == |bits| && i < |dataSectors| && i < CountClear(bits)
      requires (dataSectors[..i], freeMap.Contents()) == TakeClear(bits, i)
      modifies this`dataSectors, freeMap.words
      ensures 0 <= r < NUM_SECTORS && dataSectors == old(dataSectors)[i := r]
      ensures (dataSectors[..i + 1], freeMap.Contents()) == TakeClear(bits, i + 1)
    {
      OneMoreSector(dataSectors, i, bits, freeMap.Contents());
      r := freeMap.FindAndSet();
      assert r >= 0;  // the source's ASSERT
      dataSectors := dataSectors[i := r];
    }

    // Frees exactly the data sectors; each of them is found marked.
    method Deallocate(freeMap: Bitmap)
      requires freeMap.Valid() && freeMap.numBits == NUM_SECTORS && HeaderOk(Model())
      requires forall i :: 0 <= i < numSectors ==> freeMap.Contents()[dataSectors[i]]
      modifies freeMap.words
      ensures freeMap.Contents() == ClearAll(old(freeMap.Contents()), Model().Data())
    {
      ghost var bits := freeMap.Contents();
      var i := 0;
      while i < numSectors
        invariant 0 <= i <= numSectors
        invariant freeMap.Contents() == ClearAll(bits, dataSectors[..i])
      {
        var marked := freeMap.Test(dataSectors[i]);
        assert Model().Data()[i] == dataSectors[i];
        assert forall j :: 0 <= j < i ==> Model().Data()[j] == dataSectors[..i][j];
        assert marked;  // the source's ASSERT
        freeMap.Clear(dataSectors[i]);
        assert dataSectors[..i + 1] == dataSectors[..i] + [dataSectors[i]];
        i := i + 1;
      }
    }

    method FetchFrom(disk: SynchDisk, sector: int)
      requires disk.Valid() && 0 <= sector < NUM_SECTORS
      modifies this
      ensures Model() == DecodeHeader(disk.sectors[sector])
    {
      var b := disk.ReadSector(sector);
      var h := DecodeHeader(b);
      numBytes, numSectors, dataSectors := h.numBytes, h.numSectors, h.dataSectors;
    }

    method WriteBack(disk: SynchDisk, sector: int)
      requires disk.Valid() && 0 <= sector < NUM_SECTORS && HeaderOk(Model())
      modifies disk
      ensures disk.Valid() && disk.sectors == old(disk.sectors)[sector := EncodeHeader(Model())]
      ensures DecodeHeader(disk.sectors[sector]) == Model()
    {
      HeaderRoundTrip(Model());
      disk.WriteSector(sector, EncodeHeader(Header(numBytes, numSectors, dataSectors)));
    }
  }
}
