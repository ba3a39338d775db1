// filesys/filesys.cc: the free map and the directory are themselves files, whose headers
// lie in sectors 0 and 1.
module FileSystems {
  import opened Collections
  import opened Disks
  import opened Bitmaps
  import opened Files
  import opened FileHeaders
  import opened Directories
  import opened PersistentBitmaps

  const FREE_MAP_SECTOR := 0
  const DIRECTORY_SECTOR := 1
  const FREE_MAP_FILE_SIZE := NUM_SECTORS / 8
  const NUM_DIR_ENTRIES := 10
  const DIRECTORY_FILE_SIZE := ENTRY_SIZE * NUM_DIR_ENTRIES

  // ---------------------------------------------------------------------
  // What a disk holds, given the headers of its two system files

  ghost predicate SystemHeaders(mh: Header, dh: Header) {
    HeaderOk(mh) && HeaderOk(dh) && mh.numBytes == FREE_MAP_FILE_SIZE && dh.numBytes == DIRECTORY_FILE_SIZE
  }

  ghost function Bits(sectors: seq<Block>, mh: Header): (bits: seq<bool>)
    requires |sectors| == NUM_SECTORS && HeaderOk(mh) && mh.numBytes == FREE_MAP_FILE_SIZE
    ensures |bits| == NUM_SECTORS
  {
    BitsIn(FileBytes(sectors, mh), NUM_SECTORS)
  }

  ghost function Table(sectors: seq<Block>, dh: Header): (table: seq<Entry>)
    requires |sectors| == NUM_SECTORS && HeaderOk(dh) && dh.numBytes == DIRECTORY_FILE_SIZE
    ensures |table| == NUM_DIR_ENTRIES
  {
    DecodeTable(FileBytes(sectors, dh))
  }

  // ---------------------------------------------------------------------
  // Who owns which sector

  ghost predicate EntryOk(sectors: seq<Block>, e: Entry) {
    e.inUse ==> 0 <= e.sector < |sectors| && HeaderOk(DecodeHeader(sectors[e.sector]))
  }

  ghost predicate EntriesOk(sectors: seq<Block>, table: seq<Entry>) {
    forall i :: 0 <= i < |table| ==> EntryOk(sectors, table[i])
  }

  // The sectors of a listed file: its header's and its data's.
  ghost function EntryClaim(sectors: seq<Block>, e: Entry): multiset<int>
    requires EntryOk(sectors, e)
  {
    if e.inUse then multiset{e.sector} + multiset(DecodeHeader(sectors[e.sector]).Data()) else multiset{}
  }

  ghost function EntryClaims(sectors: seq<Block>, table: seq<Entry>): seq<multiset<int>>
    requires EntriesOk(sectors, table)
  {
    seq(|table|, i requires 0 <= i < |table| => EntryClaim(sectors, table[i]))
  }

  ghost function Sum(claims: seq<multiset<int>>): multiset<int> {
    if claims == [] then multiset{} else Sum(claims[..|claims| - 1]) + claims[|claims| - 1]
  }

  ghost function TableClaims(sectors: seq<Block>, table: seq<Entry>): multiset<int>
    requires EntriesOk(sectors, table)
  {
    Sum(EntryClaims(sectors, table))
  }

  ghost function SystemClaims(mh: Header, dh: Header): multiset<int>
    requires HeaderOk(mh) && HeaderOk(dh)
  {
    multiset{FREE_MAP_SECTOR, DIRECTORY_SECTOR} + multiset(mh.Data()) + multiset(dh.Data())
  }

  // Every marked sector is claimed once and no other sector is claimed: the marked sectors
  // are the disjoint union of all the claims.
  ghost predicate ExactlyOwned(bits: seq<bool>, claims: multiset<int>) {
    forall k :: claims[k] == if 0 <= k < |bits| && bits[k] then 1 else 0
  }

  ghost predicate Inv(sectors: seq<Block>, mh: Header, dh: Header) {
    && |sectors| == NUM_SECTORS && SystemHeaders(mh, dh)
    && DecodeHeader(sectors[FREE_MAP_SECTOR]) == mh && DecodeHeader(sectors[DIRECTORY_SECTOR]) == dh
    && EntriesOk(sectors, Table(sectors, dh))
    && UniqueNames(Table(sectors, dh))
    && ExactlyOwned(Bits(sectors, mh), SystemClaims(mh, dh) + TableClaims(sectors, Table(sectors, dh)))
  }

  // ---------------------------------------------------------------------
  // Claims under updates

  lemma {:induction false} SumUpdate(claims: seq<multiset<int>>, i: nat, c: multiset<int>)
    requires i < |claims|
    ensures Sum(claims[i := c]) + claims[i] == Sum(claims) + c
  {
    var n := |claims| - 1;
    if i == n {
      assert claims[i := c][..n] == claims[..n];
    } else {
      SumUpdate(claims[..n], i, c);
      assert claims[i := c][..n] == claims[..n][i := c];
      Shuffle(Sum(claims[..n][i := c]), claims[i], Sum(claims[..n]), c, claims[n]);
    }
  }

  lemma Shuffle(a: multiset<int>, x: multiset<int>, b: multiset<int>, y: multiset<int>, l: multiset<int>)
    requires a + x == b + y
    ensures (a + l) + x == (b + l) + y
  {
    assert (a + l) + x == (a + x) + l;
    assert (b + l) + y == (b + y) + l;
  }

  lemma {:induction false} SumContains(claims: seq<multiset<int>>, i: nat)
    requires i < |claims|
    ensures claims[i] <= Sum(claims)
  {
    var n := |claims| - 1;
    if i < n {
      SumContains(claims[..n], i);
    }
  }

  lemma SumContainsTwo(claims: seq<multiset<int>>, i: nat, j: nat)
    requires i < |claims| && j < |claims| && i != j
    ensures claims[i] + claims[j] <= Sum(claims)
  {
    SumUpdate(claims, j, multiset{});
    SumContains(claims[j := multiset{}], i);
    assert Sum(claims[j := multiset{}]) + claims[j] == Sum(claims);
  }

  // Only the headers of listed files matter.
  lemma ClaimsFrame(sectors: seq<Block>, sectors': seq<Block>, table: seq<Entry>)
    requires |sectors| == |sectors'| && EntriesOk(sectors, table)
    requires forall i :: 0 <= i < |table| && table[i].inUse ==> sectors'[table[i].sector] == sectors[table[i].sector]
    ensures EntriesOk(sectors', table) && TableClaims(sectors', table) == TableClaims(sectors, table)
  {
    assert EntriesOk(sectors', table);
    assert EntryClaims(sectors', table) == EntryClaims(sectors, table);
  }

  lemma ClaimsUpdate(sectors: seq<Block>, table: seq<Entry>, i: nat, e: Entry)
    requires i < |table| && EntriesOk(sectors, table) && EntryOk(sectors, e)
    ensures EntriesOk(sectors, table[i := e])
    ensures TableClaims(sectors, table[i := e]) + EntryClaim(sectors, table[i])
         == TableClaims(sectors, table) + EntryClaim(sectors, e)
  {
    SumUpdate(EntryClaims(sectors, table), i, EntryClaim(sectors, e));
    assert EntryClaims(sectors, table[i := e]) == EntryClaims(sectors, table)[i := EntryClaim(sectors, e)];
  }

  lemma EntryInClaims(sectors: seq<Block>, table: seq<Entry>, i: nat)
    requires i < |table| && EntriesOk(sectors, table)
    ensures EntryClaim(sectors, table[i]) <= TableClaims(sectors, table)
  {
    SumContains(EntryClaims(sectors, table), i);
  }

  lemma {:induction false} NoDupCount(s: seq<int>, k: int)
    requires NoDup(s)
    ensures multiset(s)[k] == if k in s then 1 else 0
  {
    if s != [] {
      var n := |s| - 1;
      NoDupCount(s[..n], k);
      assert s == s[..n] + [s[n]];
    }
  }

  // ---------------------------------------------------------------------
  // Consequences of the invariant

  // The system files' sectors are marked and belong to no listed file.
  lemma SystemSectors(sectors: seq<Block>, mh: Header, dh: Header)
    requires Inv(sectors, mh, dh)
    ensures var bits, claims := Bits(sectors, mh), TableClaims(sectors, Table(sectors, dh));
            && bits[FREE_MAP_SECTOR] && bits[DIRECTORY_SECTOR]
            && (forall x :: x in mh.Data() || x in dh.Data() ==> x != FREE_MAP_SECTOR && x != DIRECTORY_SECTOR && bits[x])
            && (forall x :: x in claims ==>
                  0 <= x < NUM_SECTORS && bits[x] && x != FREE_MAP_SECTOR && x != DIRECTORY_SECTOR && x !in mh.Data() && x !in dh.Data())
            && (forall x :: x in mh.Data() ==> x !in dh.Data())
  {
    var bits, table := Bits(sectors, mh), TableClaims(sectors, Table(sectors, dh));
    var system := SystemClaims(mh, dh);
    var all := system + table;
    assert system == multiset{FREE_MAP_SECTOR, DIRECTORY_SECTOR} + multiset(mh.Data()) + multiset(dh.Data());
    assert all[FREE_MAP_SECTOR] >= 1 && all[DIRECTORY_SECTOR] >= 1;
    forall x | x in mh.Data() || x in dh.Data()
      ensures x != FREE_MAP_SECTOR && x != DIRECTORY_SECTOR && bits[x] && (x in mh.Data() ==> x !in dh.Data())
    {
      assert x in multiset(mh.Data()) || x in multiset(dh.Data());
      assert all[x] <= 1;
    }
    forall x | x in table
      ensures 0 <= x < NUM_SECTORS && bits[x] && x != FREE_MAP_SECTOR && x != DIRECTORY_SECTOR && x !in mh.Data() && x !in dh.Data()
    {
      assert all[x] <= 1;
      assert multiset(mh.Data())[x] == 0 && multiset(dh.Data())[x] == 0;
    }
  }

  // The same for one listed file: its header and data sectors are marked, and no others'.
  lemma FileSectors(sectors: seq<Block>, mh: Header, dh: Header, i: nat)
    requires Inv(sectors, mh, dh) && i < NUM_DIR_ENTRIES && Table(sectors, dh)[i].inUse
    ensures var e, bits := Table(sectors, dh)[i], Bits(sectors, mh);
            && 0 <= e.sector < NUM_SECTORS && HeaderOk(DecodeHeader(sectors[e.sector]))
            && (forall x :: x == e.sector || x in DecodeHeader(sectors[e.sector]).Data() ==>
                  0 <= x < NUM_SECTORS && bits[x] && x != FREE_MAP_SECTOR && x != DIRECTORY_SECTOR && x !in mh.Data() && x !in dh.Data())
            && e.sector !in DecodeHeader(sectors[e.sector]).Data()
  {
    var table := Table(sectors, dh);
    var e := table[i];
    assert EntryOk(sectors, e);
    var d := DecodeHeader(sectors[e.sector]).Data();
    EntryInClaims(sectors, table, i);
    SystemSectors(sectors, mh, dh);
    var claim := EntryClaim(sectors, e);
    var all := SystemClaims(mh, dh) + TableClaims(sectors, table);
    assert all[e.sector] <= 1;
    assert claim[e.sector] == 1 + multiset(d)[e.sector];
    forall x | x == e.sector || x in d
      ensures x in TableClaims(sectors, table)
    {
      assert x in d ==> x in multiset(d);
      assert x in claim;
    }
  }

  // Two listed files share no sector.
  lemma FilesDisjoint(sectors: seq<Block>, mh: Header, dh: Header, i: nat, j: nat, x: int)
    requires Inv(sectors, mh, dh) && i < NUM_DIR_ENTRIES && j < NUM_DIR_ENTRIES && i != j
    requires Table(sectors, dh)[i].inUse && Table(sectors, dh)[j].inUse
    requires x in EntryClaim(sectors, Table(sectors, dh)[i])
    ensures x !in EntryClaim(sectors, Table(sectors, dh)[j])
  {
    var claims := EntryClaims(sectors, Table(sectors, dh));
    SumContainsTwo(claims, i, j);
    AtMostOnce(SystemClaims(mh, dh), Sum(claims), claims[i], claims[j], x);
  }

  lemma AtMostOnce(system: multiset<int>, listed: multiset<int>, a: multiset<int>, b: multiset<int>, x: int)
    requires (system + listed)[x] <= 1 && a + b <= listed && x in a
    ensures x !in b
  {
    assert (a + b)[x] <= listed[x];
  }

  // ---------------------------------------------------------------------
  // Create and Remove, as changes of what the disk holds

  ghost predicate OnlyWritten(sectors: seq<Block>, sectors': seq<Block>, written: seq<int>) {
    |sectors| == |sectors'| && forall x :: 0 <= x < |sectors| && x !in written ==> sectors'[x] == sectors[x]
  }

  // A file with header h in sector s was entered in slot i under the key.
  ghost predicate Created(sectors: seq<Block>, sectors': seq<Block>, mh: Header, dh: Header,
                          key: seq<byte>, i: nat, s: int, h: Header)
    requires |sectors| == |sectors'| == NUM_SECTORS && SystemHeaders(mh, dh)
  {
    var bits, table := Bits(sectors, mh), Table(sectors, dh);
    && 0 <= s < NUM_SECTORS && !bits[s] && HeaderOk(h) && DecodeHeader(sectors'[s]) == h
    && (forall x :: x in h.Data() ==> x != s && !bits[x])
    && CanAdd(table, key) && Added(table, Table(sectors', dh), i, key, s)
    && Bits(sectors', mh) == MarkAll(bits, [s] + h.Data())
    && OnlyWritten(sectors, sectors', [s] + mh.Data() + dh.Data())
  }

  // The file in slot i was taken out.
  ghost predicate Removed(sectors: seq<Block>, sectors': seq<Block>, mh: Header, dh: Header, key: seq<byte>, i: nat)
    requires Inv(sectors, mh, dh) && |sectors'| == NUM_SECTORS
  {
    var bits, table := Bits(sectors, mh), Table(sectors, dh);
    && Dropped(table, Table(sectors', dh), i, key)
    && EntryOk(sectors, table[i])
    && Bits(sectors', mh) == ClearAll(bits, [table[i].sector] + DecodeHeader(sectors[table[i].sector]).Data())
    && OnlyWritten(sectors, sectors', mh.Data() + dh.Data())
  }

  lemma ListedHeadersStay(sectors: seq<Block>, sectors': seq<Block>, mh: Header, dh: Header, written: seq<int>)
    requires Inv(sectors, mh, dh) && OnlyWritten(sectors, sectors', written)
    requires forall x :: x in written ==> x in mh.Data() || x in dh.Data() || (0 <= x < NUM_SECTORS && !Bits(sectors, mh)[x])
    ensures DecodeHeader(sectors'[FREE_MAP_SECTOR]) == mh && DecodeHeader(sectors'[DIRECTORY_SECTOR]) == dh
    ensures forall i :: 0 <= i < NUM_DIR_ENTRIES && Table(sectors, dh)[i].inUse ==>
              sectors'[Table(sectors, dh)[i].sector] == sectors[Table(sectors, dh)[i].sector]
  {
    SystemSectors(sectors, mh, dh);
    forall i | 0 <= i < NUM_DIR_ENTRIES && Table(sectors, dh)[i].inUse
      ensures sectors'[Table(sectors, dh)[i].sector] == sectors[Table(sectors, dh)[i].sector]
    {
      FileSectors(sectors, mh, dh, i);
    }
  }

  lemma MarkOwned(bits: seq<bool>, claims: multiset<int>, d: seq<int>)
    requires ExactlyOwned(bits, claims) && NoDup(d)
    requires forall x :: x in d ==> 0 <= x < |bits| && !bits[x]
    ensures ExactlyOwned(MarkAll(bits, d), claims + multiset(d))
  {
    forall k
      ensures (claims + multiset(d))[k] == if 0 <= k < |bits| && MarkAll(bits, d)[k] then 1 else 0
    {
      NoDupCount(d, k);
    }
  }

  lemma ClearOwned(bits: seq<bool>, claims: multiset<int>, s: int, d: seq<int>)
    requires ExactlyOwned(bits, claims + (multiset{s} + multiset(d)))
    ensures ExactlyOwned(ClearAll(bits, [s] + d), claims)
  {
    var all := claims + (multiset{s} + multiset(d));
    forall k
      ensures claims[k] == if 0 <= k < |bits| && ClearAll(bits, [s] + d)[k] then 1 else 0
    {
      assert k in d <==> k in multiset(d);
      assert all[k] == claims[k] + multiset{s}[k] + multiset(d)[k];
    }
  }

  lemma CreateClaims(sectors: seq<Block>, sectors': seq<Block>, table: seq<Entry>, i: nat, e: Entry, h: Header)
    requires |sectors| == |sectors'| && EntriesOk(sectors, table) && i < |table| && !table[i].inUse
    requires forall j :: 0 <= j < |table| && table[j].inUse ==> sectors'[table[j].sector] == sectors[table[j].sector]
    requires e.inUse && 0 <= e.sector < |sectors'| && DecodeHeader(sectors'[e.sector]) == h && HeaderOk(h)
    ensures EntriesOk(sectors', table[i := e])
    ensures TableClaims(sectors', table[i := e]) == TableClaims(sectors, table) + (multiset{e.sector} + multiset(h.Data()))
  {
    ClaimsFrame(sectors, sectors', table);
    ClaimsUpdate(sectors', table, i, e);
    assert EntryClaim(sectors', table[i]) == multiset{};
    assert EntryClaim(sectors', e) == multiset{e.sector} + multiset(h.Data());
  }

  lemma RemoveClaims(sectors: seq<Block>, sectors': seq<Block>, table: seq<Entry>, i: nat, e: Entry)
    requires |sectors| == |sectors'| && EntriesOk(sectors, table) && i < |table| && table[i].inUse && !e.inUse
    requires forall j :: 0 <= j < |table| && table[j].inUse ==> sectors'[table[j].sector] == sectors[table[j].sector]
    ensures EntriesOk(sectors', table[i := e]) && EntryOk(sectors, table[i])
    ensures TableClaims(sectors, table) == TableClaims(sectors', table[i := e])
              + (multiset{table[i].sector} + multiset(DecodeHeader(sectors[table[i].sector]).Data()))
  {
    ClaimsFrame(sectors, sectors', table);
    ClaimsUpdate(sectors', table, i, e);
    assert EntryOk(sectors, table[i]);
    assert EntryClaim(sectors', e) == multiset{};
    assert EntryClaim(sectors', table[i]) == multiset{table[i].sector} + multiset(DecodeHeader(sectors[table[i].sector]).Data());
  }

  lemma CreateKeepsInv(sectors: seq<Block>, sectors': seq<Block>, mh: Header, dh: Header,
                       key: seq<byte>, i: nat, s: int, h: Header)
    requires Inv(sectors, mh, dh) && |sectors'| == NUM_SECTORS && Created(sectors, sectors', mh, dh, key, i, s, h)
    ensures Inv(sectors', mh, dh)
  {
    var table, table' := Table(sectors, dh), Table(sectors', dh);
    ListedHeadersStay(sectors, sectors', mh, dh, [s] + mh.Data() + dh.Data());
    CreateClaims(sectors, sectors', table, i, table'[i], h);
    AddKeepsUnique(table, table', i, key, s);
    CreateOwned(Bits(sectors, mh), SystemClaims(mh, dh), TableClaims(sectors, table), s, h.Data());
  }

  lemma CreateOwned(bits: seq<bool>, system: multiset<int>, listed: multiset<int>, s: int, d: seq<int>)
    requires ExactlyOwned(bits, system + listed) && NoDup(d) && 0 <= s < |bits| && !bits[s]
    requires forall x :: x in d ==> x != s && 0 <= x < |bits| && !bits[x]
    ensures ExactlyOwned(MarkAll(bits, [s] + d), system + (listed + (multiset{s} + multiset(d))))
  {
    MarkOwned(bits, system + listed, [s] + d);
    assert multiset([s] + d) == multiset{s} + multiset(d);
    assert system + (listed + (multiset{s} + multiset(d))) == system + listed + (multiset{s} + multiset(d));
  }

  lemma RemoveKeepsInv(sectors: seq<Block>, sectors': seq<Block>, mh: Header, dh: Header, key: seq<byte>, i: nat)
    requires Inv(sectors, mh, dh) && |sectors'| == NUM_SECTORS && Removed(sectors, sectors', mh, dh, key, i)
    ensures Inv(sectors', mh, dh)
  {
    var table, table' := Table(sectors, dh), Table(sectors', dh);
    ListedHeadersStay(sectors, sectors', mh, dh, mh.Data() + dh.Data());
    RemoveClaims(sectors, sectors', table, i, table'[i]);
    DropKeepsUnique(table, table', i, key);
    var s, d := table[i].sector, DecodeHeader(sectors[table[i].sector]).Data();
    var system, listed, claim := SystemClaims(mh, dh), TableClaims(sectors', table'), multiset{s} + multiset(d);
    assert system + (listed + claim) == system + listed + claim;
    ClearOwned(Bits(sectors, mh), system + listed, s, d);
  }

  // Other files keep their headers and their bytes through Create and Remove.
  lemma OtherFilesStay(sectors: seq<Block>, sectors': seq<Block>, mh: Header, dh: Header, written: seq<int>, j: nat)
    requires Inv(sectors, mh, dh) && OnlyWritten(sectors, sectors', written)
    requires forall x :: x in written ==> x in mh.Data() || x in dh.Data() || (0 <= x < NUM_SECTORS && !Bits(sectors, mh)[x])
    requires j < NUM_DIR_ENTRIES && Table(sectors, dh)[j].inUse
    ensures var s := Table(sectors, dh)[j].sector;
            && 0 <= s < NUM_SECTORS && HeaderOk(DecodeHeader(sectors[s]))
            && DecodeHeader(sectors'[s]) == DecodeHeader(sectors[s])
            && FileBytes(sectors', DecodeHeader(sectors'[s])) == FileBytes(sectors, DecodeHeader(sectors[s]))
  {
    FileSectors(sectors, mh, dh, j);
    ListedHeadersStay(sectors, sectors', mh, dh, written);
    OtherFileUnchanged(sectors, sectors', written, DecodeHeader(sectors[Table(sectors, dh)[j].sector]));
  }

  // The same table but for what free entries hold.
  ghost predicate Alike(table: seq<Entry>, table': seq<Entry>) {
    |table| == |table'| && forall k :: 0 <= k < |table| ==> table'[k] == table[k] || (!table'[k].inUse && !table[k].inUse)
  }

  lemma CreateThenRemoveEntry(sectors: seq<Block>, sectors': seq<Block>, sectors'': seq<Block>, mh: Header, dh: Header,
                              key: seq<byte>, i: nat, s: int, h: Header, j: nat)
    requires |sectors| == |sectors'| == |sectors''| == NUM_SECTORS && Inv(sectors', mh, dh)
    requires Created(sectors, sectors', mh, dh, key, i, s, h) && Removed(sectors', sectors'', mh, dh, key, j)
    ensures i == j && Bits(sectors'', mh) == ClearAll(MarkAll(Bits(sectors, mh), [s] + h.Data()), [s] + h.Data())
    ensures Alike(Table(sectors, dh), Table(sectors'', dh))
    ensures forall k :: Lookup(Table(sectors'', dh), k) == Lookup(Table(sectors, dh), k)
  {
    AddThenDrop(Table(sectors, dh), Table(sectors', dh), Table(sectors'', dh), i, j, key, s);
    SameLookups(Table(sectors, dh), Table(sectors'', dh));
  }

  // Creating a file and removing it restores the free map bit for bit and every look-up.
  lemma CreateThenRemove(sectors: seq<Block>, sectors': seq<Block>, sectors'': seq<Block>, mh: Header, dh: Header,
                         key: seq<byte>, i: nat, s: int, h: Header, j: nat)
    requires |sectors| == |sectors'| == |sectors''| == NUM_SECTORS && Inv(sectors', mh, dh)
    requires Created(sectors, sectors', mh, dh, key, i, s, h) && Removed(sectors', sectors'', mh, dh, key, j)
    ensures i == j && Bits(sectors'', mh) == Bits(sectors, mh) && Alike(Table(sectors, dh), Table(sectors'', dh))
    ensures forall k :: Lookup(Table(sectors'', dh), k) == Lookup(Table(sectors, dh), k)
  {
    CreateThenRemoveEntry(sectors, sectors', sectors'', mh, dh, key, i, s, h, j);
    ClearAgain(Bits(sectors, mh), s, h);
  }

  lemma ClearAgain(bits: seq<bool>, s: int, h: Header)
    requires |bits| == NUM_SECTORS && 0 <= s < NUM_SECTORS && !bits[s] && HeaderOk(h) && forall x :: x in h.Data() ==> !bits[x]
    ensures ClearAll(MarkAll(bits, [s] + h.Data()), [s] + h.Data()) == bits
  {
    var which := [s] + h.Data();
    forall i | 0 <= i < |which|
      ensures 0 <= which[i] < |bits| && !bits[which[i]]
    {
      assert i > 0 ==> which[i] == h.Data()[i - 1];
    }
    ClearUndoesMark(bits, which);
  }

  lemma SameLookups(table: seq<Entry>, table': seq<Entry>)
    requires Alike(table, table')
    ensures forall k :: Lookup(table', k) == Lookup(table, k)
  {
    forall k
      ensures Lookup(table', k) == Lookup(table, k)
    {
      SameLookup(table, table', k);
    }
  }

  lemma AddThenDrop(table: seq<Entry>, table': seq<Entry>, table'': seq<Entry>, i: nat, j: nat, key: seq<byte>, s: int)
    requires CanAdd(table, key) && Added(table, table', i, key, s) && Dropped(table', table'', j, key)
    ensures i == j && Alike(table, table'')
  {
    assert Matches(table'[i], key);
  }

  lemma {:induction false} SameLookup(table: seq<Entry>, table': seq<Entry>, k: seq<byte>)
    requires Alike(table, table')
    ensures Lookup(table', k) == Lookup(table, k)
  {
    if table != [] {
      SameLookup(table[1..], table'[1..], k);
    }
  }

  // Writing to the data of a listed file keeps everything but that file's bytes.
  lemma DataWriteKeepsInv(sectors: seq<Block>, sectors': seq<Block>, mh: Header, dh: Header, i: nat)
    requires Inv(sectors, mh, dh) && i < NUM_DIR_ENTRIES && Table(sectors, dh)[i].inUse
    requires EntryOk(sectors, Table(sectors, dh)[i])
    requires OnlyWritten(sectors, sectors', DecodeHeader(sectors[Table(sectors, dh)[i].sector]).Data())
    ensures Inv(sectors', mh, dh) && Bits(sectors', mh) == Bits(sectors, mh) && Table(sectors', dh) == Table(sectors, dh)
  {
    ListedDataOnly(sectors, mh, dh, i);
    DataOnlyKeepsInv(sectors, sectors', mh, dh, DecodeHeader(sectors[Table(sectors, dh)[i].sector]).Data());
  }

  // The sectors that hold the file system itself: the two system files and the headers of all listed files.
  ghost predicate IsMeta(sectors: seq<Block>, mh: Header, dh: Header, x: int)
    requires |sectors| == NUM_SECTORS && SystemHeaders(mh, dh)
  {
    || x == FREE_MAP_SECTOR || x == DIRECTORY_SECTOR || x in mh.Data() || x in dh.Data()
    || exists i :: 0 <= i < NUM_DIR_ENTRIES && Table(sectors, dh)[i].inUse && Table(sectors, dh)[i].sector == x
  }

  ghost predicate DataOnly(sectors: seq<Block>, mh: Header, dh: Header, written: seq<int>)
    requires |sectors| == NUM_SECTORS && SystemHeaders(mh, dh)
  {
    forall x :: x in written ==> !IsMeta(sectors, mh, dh, x)
  }

  lemma ListedDataOnly(sectors: seq<Block>, mh: Header, dh: Header, i: nat)
    requires Inv(sectors, mh, dh) && i < NUM_DIR_ENTRIES && Table(sectors, dh)[i].inUse
    requires EntryOk(sectors, Table(sectors, dh)[i])
    ensures DataOnly(sectors, mh, dh, DecodeHeader(sectors[Table(sectors, dh)[i].sector]).Data())
  {
    var table := Table(sectors, dh);
    var d := DecodeHeader(sectors[table[i].sector]).Data();
    FileSectors(sectors, mh, dh, i);
    forall j | 0 <= j < NUM_DIR_ENTRIES && table[j].inUse
      ensures table[j].sector !in d
    {
      if j != i { DataDisjoint(sectors, mh, dh, i, j); }
    }
  }

  lemma DataOnlyKeepsInv(sectors: seq<Block>, sectors': seq<Block>, mh: Header, dh: Header, written: seq<int>)
    requires Inv(sectors, mh, dh) && OnlyWritten(sectors, sectors', written) && DataOnly(sectors, mh, dh, written)
    ensures Inv(sectors', mh, dh) && Bits(sectors', mh) == Bits(sectors, mh) && Table(sectors', dh) == Table(sectors, dh)
  {
    var table := Table(sectors, dh);
    SystemSectors(sectors, mh, dh);
    OtherFileUnchanged(sectors, sectors', written, mh);
    OtherFileUnchanged(sectors, sectors', written, dh);
    forall j | 0 <= j < NUM_DIR_ENTRIES && table[j].inUse
      ensures sectors'[table[j].sector] == sectors[table[j].sector]
    {
      FileSectors(sectors, mh, dh, j);
      assert IsMeta(sectors, mh, dh, table[j].sector);
    }
    ClaimsFrame(sectors, sectors', table);
  }

  // A write through an open file with header h: exactly the clipped range of its bytes changes, and no
  // sector but its own data sectors.
  ghost predicate WrittenThrough(sectors: seq<Block>, sectors': seq<Block>, h: Header, from: seq<byte>, numBytes: int, position: int, n: int) {
    && |sectors| == |sectors'| == NUM_SECTORS && HeaderOk(h) && OnlyWritten(sectors, sectors', h.Data())
    && position >= 0 && n == Clip(h, numBytes, position) && n <= |from|
    && FileBytes(sectors', h) == (if n <= 0 then FileBytes(sectors, h) else Splice(FileBytes(sectors, h), position, from[..n]))
  }

  // The same through the file whose header is in sector s, which the write leaves alone.
  ghost predicate Written(sectors: seq<Block>, sectors': seq<Block>, s: int, from: seq<byte>, numBytes: int, position: int, n: int) {
    && 0 <= s < NUM_SECTORS == |sectors| == |sectors'| && DecodeHeader(sectors'[s]) == DecodeHeader(sectors[s])
    && WrittenThrough(sectors, sectors', DecodeHeader(sectors[s]), from, numBytes, position, n)
  }

  // A write to one file changes no byte of any other.
  lemma WriteLeavesOthers(sectors: seq<Block>, sectors': seq<Block>, mh: Header, dh: Header, i: nat, j: nat,
                          from: seq<byte>, numBytes: int, position: int, n: int)
    requires Inv(sectors, mh, dh) && i < NUM_DIR_ENTRIES && j < NUM_DIR_ENTRIES && i != j
    requires Table(sectors, dh)[i].inUse && Table(sectors, dh)[j].inUse
    requires Written(sectors, sectors', Table(sectors, dh)[i].sector, from, numBytes, position, n)
    ensures var s := Table(sectors, dh)[j].sector;
            && 0 <= s < NUM_SECTORS && HeaderOk(DecodeHeader(sectors[s]))
            && DecodeHeader(sectors'[s]) == DecodeHeader(sectors[s])
            && FileBytes(sectors', DecodeHeader(sectors[s])) == FileBytes(sectors, DecodeHeader(sectors[s]))
  {
    FileSectors(sectors, mh, dh, j);
    DataDisjoint(sectors, mh, dh, i, j);
    var e, f := Table(sectors, dh)[i], Table(sectors, dh)[j];
    OtherFileUnchanged(sectors, sectors', DecodeHeader(sectors[e.sector]).Data(), DecodeHeader(sectors[f.sector]));
  }

  // The data of one file are neither the header nor the data of another.
  lemma DataDisjoint(sectors: seq<Block>, mh: Header, dh: Header, i: nat, j: nat)
    requires Inv(sectors, mh, dh) && i < NUM_DIR_ENTRIES && j < NUM_DIR_ENTRIES && i != j
    requires Table(sectors, dh)[i].inUse && Table(sectors, dh)[j].inUse
    ensures var e, f := Table(sectors, dh)[i], Table(sectors, dh)[j];
            && EntryOk(sectors, e) && EntryOk(sectors, f)
            && f.sector !in DecodeHeader(sectors[e.sector]).Data()
            && forall x :: x in DecodeHeader(sectors[f.sector]).Data() ==> x !in DecodeHeader(sectors[e.sector]).Data()
  {
    var e, f := Table(sectors, dh)[i], Table(sectors, dh)[j];
    assert EntryOk(sectors, e) && EntryOk(sectors, f);
    var d, d' := DecodeHeader(sectors[e.sector]).Data(), DecodeHeader(sectors[f.sector]).Data();
    forall x | x == f.sector || x in d'
      ensures x !in d
    {
      assert x in d' ==> x in multiset(d');
      FilesDisjoint(sectors, mh, dh, j, i, x);
      assert x in d ==> x in multiset(d);
    }
  }

  // Create succeeds exactly when the name is new, the directory has room, and there are
  // enough clear bits for the header and the data.
  ghost predicate CanCreate(bits: seq<bool>, table: seq<Entry>, key: seq<byte>, size: nat) {
    CanAdd(table, key) && CountClear(bits) >= 1 + DivRoundUp(size, SECTOR_SIZE)
  }

  // A header as it comes from the allocator.
  ghost predicate Raw(memory: Header) {
    |memory.dataSectors| == NUM_DIRECT && forall i :: 0 <= i < NUM_DIRECT ==> IsInt32(memory.dataSectors[i])
  }

  // What Create has in memory when it decides to write back.
  ghost predicate Planned(bits: seq<bool>, table: seq<Entry>, key: seq<byte>, size: nat,
                          bits': seq<bool>, table': seq<Entry>, s: int, h: Header) {
    && |bits| == NUM_SECTORS && CanCreate(bits, table, key, size)
    && 0 <= s < NUM_SECTORS && s == FirstClear(bits)
    && Allocated(h, bits[s := true], bits', size)
    && TableOk(table') && exists i :: 0 <= i < |table| && Added(table, table', i, key, s)
  }

  lemma PlanFacts(bits: seq<bool>, table: seq<Entry>, key: seq<byte>, size: nat,
                  bits': seq<bool>, table': seq<Entry>, s: int, h: Header)
    requires Planned(bits, table, key, size, bits', table', s, h)
    ensures !bits[s] && (forall x :: x in h.Data() ==> x != s && !bits[x]) && bits' == MarkAll(bits, [s] + h.Data())
  {
    CountAfterSet(bits, s);
    TakeClearWorks(bits[s := true], h.numSectors);
    assert bits' == MarkAll(bits[s := true], h.Data());
  }

  class FileSystem {
    const disk: SynchDisk
    const freeMapFile: OpenFile
    const directoryFile: OpenFile

    ghost predicate Valid()
      reads this, disk, freeMapFile, directoryFile
    {
      && freeMapFile.disk == disk && directoryFile.disk == disk
      && Inv(disk.sectors, freeMapFile.hdr, directoryFile.hdr)
    }

    // The format branch; the disk holds anything before.
    constructor Format(disk: SynchDisk, memory0: Header, memory1: Header, table0: seq<Entry>)
      requires disk.Valid() && Raw(memory0) && Raw(memory1) && |table0| == NUM_DIR_ENTRIES && TableOk(table0)
      modifies disk
      ensures this.disk == disk && Valid() && fresh(freeMapFile) && fresh(directoryFile)
      ensures forall i :: 0 <= i < NUM_DIR_ENTRIES ==> !Listing()[i].inUse
      ensures CountClear(FreeBits()) == NUM_SECTORS - 4
    {
      var mapFile, dirFile := FormatDisk(disk, memory0, memory1, table0);
      this.disk := disk;
      freeMapFile := mapFile;
      directoryFile := dirFile;
    }

    ghost function FreeBits(): seq<bool>
      requires Valid()
      reads this, disk, freeMapFile, directoryFile
    {
      Bits(disk.sectors, freeMapFile.hdr)
    }

    ghost function Listing(): seq<Entry>
      requires Valid()
      reads this, disk, freeMapFile, directoryFile
    {
      Table(disk.sectors, directoryFile.hdr)
    }

    method FetchDirectory() returns (directory: Directory)
      requires Valid()
      ensures fresh(directory) && directory.table == Listing() && TableOk(directory.table)
    {
      var blank := Entry(false, 0, seq(NAME_MAX + 1, i => 0));
      directory := new Directory(NUM_DIR_ENTRIES, seq(NUM_DIR_ENTRIES, i => blank));
      directory.FetchFrom(directoryFile);
      DecodedTableIsOk(directoryFile.Bytes());
    }

    // Write back what Create has planned: header, directory, free map.
    method Commit(directory: Directory, freeMap: Bitmap, hdr: FileHeader, sector: int)
      requires Valid() && TableOk(directory.table) && |directory.table| == NUM_DIR_ENTRIES
      requires freeMap.Valid() && freeMap.numBits == NUM_SECTORS && HeaderOk(hdr.Model())
      requires 0 <= sector < NUM_SECTORS && !FreeBits()[sector]
      modifies disk
      ensures disk.Valid() && hdr.Model() == old(hdr.Model())
      ensures Table(disk.sectors, directoryFile.hdr) == old(directory.table)
      ensures Bits(disk.sectors, freeMapFile.hdr) == old(freeMap.Contents())
      ensures DecodeHeader(disk.sectors[sector]) == hdr.Model()
      ensures OnlyWritten(old(disk.sectors), disk.sectors, [sector] + freeMapFile.hdr.Data() + directoryFile.hdr.Data())
    {
      SystemSectors(disk.sectors, freeMapFile.hdr, directoryFile.hdr);
      hdr.WriteBack(disk, sector);
      directory.WriteBack(directoryFile);
      ghost var sectors := disk.sectors;
      WriteBackBitmap(freeMap, freeMapFile);
      OtherFileUnchanged(sectors, disk.sectors, freeMapFile.hdr.Data(), directoryFile.hdr);
    }

    // Create a file.  A failed Create leaves the disk exactly as it was.
    method Create(name: Name, initialSize: int, memory: Header) returns (success: bool)
      requires Valid() && 0 <= initialSize <= MAX_FILE_SIZE && Raw(memory)
      modifies disk
      ensures Valid()
      ensures success <==> CanCreate(old(FreeBits()), old(Listing()), Key(name), initialSize)
      ensures !success ==> disk.sectors == old(disk.sectors)
      ensures success ==> exists i: nat, s, h ::
                && Created(old(disk.sectors), disk.sectors, freeMapFile.hdr, directoryFile.hdr, Key(name), i, s, h)
                && h.numBytes == initialSize && s == FirstClear(old(FreeBits()))
                && h.Data() == TakeClear(old(FreeBits())[s := true], h.numSectors).0
    {
      var directory := FetchDirectory();
      var freeMap := FetchBitmap(freeMapFile, NUM_SECTORS);
      var hdr := new FileHeader(memory);
      var sector;
      success, sector := Plan(directory, freeMap, hdr, name, initialSize);
      if success {
        ghost var i := CommitPlan(directory, freeMap, hdr, sector, Key(name), initialSize);
      }
    }

    method CommitPlan(directory: Directory, freeMap: Bitmap, hdr: FileHeader, sector: int, ghost key: seq<byte>, ghost size: nat)
      returns (ghost i: nat)
      requires Valid() && freeMap.Valid() && freeMap.numBits == NUM_SECTORS && |directory.table| == NUM_DIR_ENTRIES
      requires Planned(FreeBits(), Listing(), key, size, freeMap.Contents(), directory.table, sector, hdr.Model())
      modifies disk
      ensures Valid() && hdr.Model() == old(hdr.Model())
      ensures Created(old(disk.sectors), disk.sectors, freeMapFile.hdr, directoryFile.hdr, key, i, sector, hdr.Model())
    {
      ghost var sectors, bits, table := disk.sectors, FreeBits(), Listing();
      ghost var h, bits', table' := hdr.Model(), freeMap.Contents(), directory.table;
      PlanFacts(bits, table, key, size, bits', table', sector, h);
      Commit(directory, freeMap, hdr, sector);
      i :| 0 <= i < |table| && Added(table, table', i, key, sector);
      CreateKeepsInv(sectors, disk.sectors, freeMapFile.hdr, directoryFile.hdr, key, i, sector, h);
    }

    // Fetch the free map and free the header and the data of the file in slot i, in memory.
    // Deallocate finds every data sector marked.
    method FreeSectors(sector: int, memory: Header, ghost i: nat) returns (freeMap: Bitmap)
      requires Valid() && i < NUM_DIR_ENTRIES && Listing()[i].inUse && Listing()[i].sector == sector
      requires EntryOk(disk.sectors, Listing()[i])
      ensures freeMap.Valid() && freeMap.numBits == NUM_SECTORS && fresh(freeMap) && fresh(freeMap.words)
      ensures freeMap.Contents() == ClearAll(FreeBits(), [sector] + DecodeHeader(disk.sectors[sector]).Data())
    {
      FileSectors(disk.sectors, freeMapFile.hdr, directoryFile.hdr, i);
      var fileHdr := new FileHeader(memory);
      fileHdr.FetchFrom(disk, sector);
      freeMap := FetchBitmap(freeMapFile, NUM_SECTORS);
      FreeBoth(fileHdr, freeMap, sector);
    }

    // Look the name up in a fresh copy of the directory.
    method Locate(name: Name) returns (directory: Directory, sector: int, ghost i: int)
      requires Valid()
      ensures fresh(directory) && directory.table == Listing()
      ensures sector == -1 ==> forall j :: 0 <= j < NUM_DIR_ENTRIES ==> !Matches(Listing()[j], Key(name))
      ensures sector != -1 ==> 0 <= i < NUM_DIR_ENTRIES && Matches(Listing()[i], Key(name))
                               && Listing()[i].sector == sector && EntryOk(disk.sectors, Listing()[i])
    {
      directory := FetchDirectory();
      LookupIsTheFile(Listing(), Key(name));
      sector := directory.Find(name);
      i := -1;
      if sector != -1 {
        i :| 0 <= i < |Listing()| && Matches(Listing()[i], Key(name));
        assert EntryOk(disk.sectors, Listing()[i]);
      }
    }

    // Remove a file.
    method Remove(name: Name, memory: Header) returns (ok: bool)
      requires Valid()
      modifies disk
      ensures Valid()
      ensures ok <==> exists i :: 0 <= i < NUM_DIR_ENTRIES && Matches(old(Listing())[i], Key(name))
      ensures !ok ==> disk.sectors == old(disk.sectors)
      ensures ok ==> exists i: nat :: Removed(old(disk.sectors), disk.sectors, freeMapFile.hdr, directoryFile.hdr, Key(name), i)
    {
      var directory, sector, i := Locate(name);
      if sector == -1 {
        return false;
      }
      ghost var sectors := disk.sectors;
      RemoveListed(directory, sector, name, memory, i);
      assert Removed(sectors, disk.sectors, freeMapFile.hdr, directoryFile.hdr, Key(name), i);
      return true;
    }

    method RemoveListed(directory: Directory, sector: int, name: Name, memory: Header, ghost i: nat)
      requires Valid() && directory.table == Listing() && i < NUM_DIR_ENTRIES && Matches(Listing()[i], Key(name))
      requires Listing()[i].sector == sector && EntryOk(disk.sectors, Listing()[i])
      modifies disk, directory
      ensures Valid() && Removed(old(disk.sectors), disk.sectors, freeMapFile.hdr, directoryFile.hdr, Key(name), i)
    {
      var freeMap := FreeSectors(sector, memory, i);
      var found := directory.Remove(name);
      DropTheFile(Listing(), directory.table, i, Key(name));
      RemoveCommit(directory, freeMap, Key(name), i);
    }

    method RemoveCommit(directory: Directory, freeMap: Bitmap, ghost key: seq<byte>, ghost i: nat)
      requires Valid() && Dropped(Listing(), directory.table, i, key) && EntryOk(disk.sectors, Listing()[i])
      requires freeMap.Valid() && freeMap.numBits == NUM_SECTORS
      requires freeMap.Contents() == ClearAll(FreeBits(), [Listing()[i].sector] + DecodeHeader(disk.sectors[Listing()[i].sector]).Data())
      modifies disk
      ensures Valid() && Removed(old(disk.sectors), disk.sectors, freeMapFile.hdr, directoryFile.hdr, key, i)
    {
      ghost var sectors := disk.sectors;
      DecodedTableIsOk(directoryFile.Bytes());
      WriteBoth(directory, freeMap);
      RemoveKeepsInv(sectors, disk.sectors, freeMapFile.hdr, directoryFile.hdr, key, i);
    }

    // Open a listed file and write to it; returns -1 when there is no such file.
    method WriteFile(name: Name, from: seq<byte>, numBytes: int, position: int) returns (n: int)
      requires Valid() && position >= 0 && |from| >= numBytes
      modifies disk
      ensures Valid() && FreeBits() == old(FreeBits()) && Listing() == old(Listing())
      ensures n == -1 <==> forall i :: 0 <= i < NUM_DIR_ENTRIES ==> !Matches(old(Listing())[i], Key(name))
      ensures n == -1 ==> disk.sectors == old(disk.sectors)
      ensures n != -1 ==>
        exists i :: 0 <= i < NUM_DIR_ENTRIES && Matches(old(Listing())[i], Key(name)) &&
                    Written(old(disk.sectors), disk.sectors, old(Listing())[i].sector, from, numBytes, position, n)
    {
      var directory := FetchDirectory();
      var i := directory.FindIndex(name);
      if i == -1 {
        return -1;
      }
      n := WriteListed(i, directory.table[i].sector, from, numBytes, position);
    }

    method WriteListed(ghost i: nat, sector: int, from: seq<byte>, numBytes: int, position: int) returns (n: int)
      requires Valid() && position >= 0 && |from| >= numBytes
      requires i < NUM_DIR_ENTRIES && Listing()[i].inUse && Listing()[i].sector == sector
      modifies disk
      ensures Valid() && FreeBits() == old(FreeBits()) && Listing() == old(Listing())
      ensures n >= 0 && Written(old(disk.sectors), disk.sectors, sector, from, numBytes, position, n)
    {
      ghost var sectors := disk.sectors;
      FileSectors(sectors, freeMapFile.hdr, directoryFile.hdr, i);
      n := WriteAtSector(disk, sector, from, numBytes, position);
      assert EntryOk(sectors, Table(sectors, directoryFile.hdr)[i]);
      DataWriteKeepsInv(sectors, disk.sectors, freeMapFile.hdr, directoryFile.hdr, i);
    }

    method WriteBoth(directory: Directory, freeMap: Bitmap)
      requires Valid() && TableOk(directory.table) && |directory.table| == NUM_DIR_ENTRIES
      requires freeMap.Valid() && freeMap.numBits == NUM_SECTORS
      modifies disk
      ensures disk.Valid()
      ensures Table(disk.sectors, directoryFile.hdr) == old(directory.table)
      ensures Bits(disk.sectors, freeMapFile.hdr) == old(freeMap.Contents())
      ensures OnlyWritten(old(disk.sectors), disk.sectors, freeMapFile.hdr.Data() + directoryFile.hdr.Data())
    {
      SystemSectors(disk.sectors, freeMapFile.hdr, directoryFile.hdr);
      WriteBackBitmap(freeMap, freeMapFile);
      ghost var sectors := disk.sectors;
      directory.WriteBack(directoryFile);
      OtherFileUnchanged(sectors, disk.sectors, directoryFile.hdr.Data(), freeMapFile.hdr);
    }
  }

  method FreeBoth(fileHdr: FileHeader, freeMap: Bitmap, sector: int)
    requires freeMap.Valid() && freeMap.numBits == NUM_SECTORS && 0 <= sector < NUM_SECTORS && HeaderOk(fileHdr.Model())
    requires forall x :: x in fileHdr.Model().Data() ==> 0 <= x < NUM_SECTORS && freeMap.Contents()[x]
    modifies freeMap.words
    ensures freeMap.Contents() == ClearAll(old(freeMap.Contents()), [sector] + fileHdr.Model().Data())
  {
    ghost var bits, d := freeMap.Contents(), fileHdr.Model().Data();
    assert forall j :: 0 <= j < fileHdr.numSectors ==> fileHdr.dataSectors[j] == d[j] && d[j] in d;
    fileHdr.Deallocate(freeMap);
    freeMap.Clear(sector);
    ClearBoth(bits, sector, d);
  }

  // Open the file whose header is in a sector and write to it.
  method WriteAtSector(disk: SynchDisk, sector: int, from: seq<byte>, numBytes: int, position: int) returns (n: int)
    requires disk.Valid() && 0 <= sector < NUM_SECTORS && HeaderOk(DecodeHeader(disk.sectors[sector]))
    requires sector !in DecodeHeader(disk.sectors[sector]).Data() && position >= 0 && |from| >= numBytes
    modifies disk
    ensures disk.Valid() && n >= 0 && Written(old(disk.sectors), disk.sectors, sector, from, numBytes, position, n)
  {
    var file := new OpenFile(disk, sector);
    n := file.WriteAt(from, numBytes, position);
  }

  // With unique names, the entry that Remove gives up is the one that Find found.
  lemma DropTheFile(table: seq<Entry>, table': seq<Entry>, i: nat, key: seq<byte>)
    requires UniqueNames(table) && i < |table| && Matches(table[i], key)
    requires exists j :: 0 <= j < |table'| && Dropped(table, table', j, key)
    ensures Dropped(table, table', i, key)
  {
  }

  lemma ClearBoth(bits: seq<bool>, s: int, d: seq<int>)
    requires 0 <= s < |bits|
    ensures ClearAll(bits, d)[s := false] == ClearAll(bits, [s] + d)
  {
  }

  // The part of Create that works on copies in memory.
  method Plan(directory: Directory, freeMap: Bitmap, hdr: FileHeader, name: Name, initialSize: int)
    returns (success: bool, sector: int)
    requires freeMap.Valid() && freeMap.numBits == NUM_SECTORS && 0 <= initialSize <= MAX_FILE_SIZE && Raw(hdr.Model())
    requires TableOk(directory.table) && UniqueNames(directory.table)
    requires forall i :: 0 <= i < |directory.table| && directory.table[i].inUse ==> directory.table[i].sector >= 0
    modifies directory, freeMap.words, hdr
    ensures success <==> CanCreate(old(freeMap.Contents()), old(directory.table), Key(name), initialSize)
    ensures success ==> Planned(old(freeMap.Contents()), old(directory.table), Key(name), initialSize,
                                freeMap.Contents(), directory.table, sector, hdr.Model())
  {
    sector := -1;
    ghost var bits := freeMap.Contents();
    var found := directory.Find(name);
    LookupIsTheFile(directory.table, Key(name));
    if found != -1 {
      return false, sector;
    }
    CountZeroWhenFull(bits);
    sector := freeMap.FindAndSet();
    if sector == -1 {
      return false, sector;
    }
    CountAfterSet(bits, sector);
    var added := directory.Add(name, sector);
    if !added {
      return false, sector;
    }
    success := hdr.Allocate(freeMap, initialSize);
  }

  lemma {:induction false} SumOfNothing(claims: seq<multiset<int>>)
    requires forall i :: 0 <= i < |claims| ==> claims[i] == multiset{}
    ensures Sum(claims) == multiset{}
  {
    if claims != [] {
      SumOfNothing(claims[..|claims| - 1]);
    }
  }

  // A formatted disk: the bits of the two headers and of the two files' data, nothing listed.
  ghost predicate Formatted(sectors: seq<Block>, mh: Header, dh: Header) {
    && |sectors| == NUM_SECTORS && SystemHeaders(mh, dh)
    && DecodeHeader(sectors[FREE_MAP_SECTOR]) == mh && DecodeHeader(sectors[DIRECTORY_SECTOR]) == dh
    && (forall i :: 0 <= i < NUM_DIR_ENTRIES ==> !Table(sectors, dh)[i].inUse)
    && ExactlyOwned(Bits(sectors, mh), SystemClaims(mh, dh))
  }

  lemma FormattedIsOk(sectors: seq<Block>, mh: Header, dh: Header)
    requires Formatted(sectors, mh, dh)
    ensures Inv(sectors, mh, dh)
  {
    var table := Table(sectors, dh);
    assert EntriesOk(sectors, table);
    SumOfNothing(EntryClaims(sectors, table));
    assert SystemClaims(mh, dh) + multiset{} == SystemClaims(mh, dh);
  }

  // The bitmap that the format branch builds in memory.
  lemma FormatBits(bits: seq<bool>, m: Header, bits1: seq<bool>, d: Header, bits2: seq<bool>)
    requires bits == seq(NUM_SECTORS, i => false)[FREE_MAP_SECTOR := true][DIRECTORY_SECTOR := true]
    requires Allocated(m, bits, bits1, FREE_MAP_FILE_SIZE) && m.numSectors <= CountClear(bits)
    requires Allocated(d, bits1, bits2, DIRECTORY_FILE_SIZE) && d.numSectors <= CountClear(bits1)
    ensures ExactlyOwned(bits2, SystemClaims(m, d))
    ensures forall x :: x in m.Data() ==> x != FREE_MAP_SECTOR && x != DIRECTORY_SECTOR && x !in d.Data()
    ensures forall x :: x in d.Data() ==> x != FREE_MAP_SECTOR && x != DIRECTORY_SECTOR
  {
    var none := seq(NUM_SECTORS, i => false);
    var two := multiset{FREE_MAP_SECTOR, DIRECTORY_SECTOR};
    assert ExactlyOwned(bits, two);
    TakeClearWorks(bits, m.numSectors);
    MarkOwned(bits, two, m.Data());
    TakeClearWorks(bits1, d.numSectors);
    MarkOwned(bits1, two + multiset(m.Data()), d.Data());
  }

  lemma FormatCount(bits: seq<bool>)
    requires bits == seq(NUM_SECTORS, i => false)[FREE_MAP_SECTOR := true][DIRECTORY_SECTOR := true]
    ensures CountClear(bits) == NUM_SECTORS - 2
  {
    var none := seq(NUM_SECTORS, i => false);
    CountAllClear(NUM_SECTORS);
    CountAfterSet(none, FREE_MAP_SECTOR);
    CountAfterSet(none[FREE_MAP_SECTOR := true], DIRECTORY_SECTOR);
  }

  lemma AllocatedCount(h: Header, bits: seq<bool>, bits': seq<bool>, size: nat)
    requires Allocated(h, bits, bits', size) && h.numSectors <= CountClear(bits)
    ensures CountClear(bits') == CountClear(bits) - h.numSectors
  {
    TakeClearWorks(bits, h.numSectors);
  }

  // The first half of formatting: both headers allocated and on disk.
  method FormatHeaders(disk: SynchDisk, memory0: Header, memory1: Header) returns (freeMap: Bitmap, ghost mh: Header, ghost dh: Header)
    requires disk.Valid() && Raw(memory0) && Raw(memory1)
    modifies disk
    ensures disk.Valid() && freeMap.Valid() && freeMap.numBits == NUM_SECTORS && fresh(freeMap) && fresh(freeMap.words)
    ensures SystemHeaders(mh, dh) && DecodeHeader(disk.sectors[FREE_MAP_SECTOR]) == mh && DecodeHeader(disk.sectors[DIRECTORY_SECTOR]) == dh
    ensures ExactlyOwned(freeMap.Contents(), SystemClaims(mh, dh)) && CountClear(freeMap.Contents()) == NUM_SECTORS - 4
    ensures forall x :: x in mh.Data() ==> x != FREE_MAP_SECTOR && x != DIRECTORY_SECTOR && x !in dh.Data()
    ensures forall x :: x in dh.Data() ==> x != FREE_MAP_SECTOR && x != DIRECTORY_SECTOR
  {
    freeMap := new Bitmap(NUM_SECTORS);
    var mapHdr := new FileHeader(memory0);
    var dirHdr := new FileHeader(memory1);
    freeMap.Mark(FREE_MAP_SECTOR);
    freeMap.Mark(DIRECTORY_SECTOR);
    ghost var bits := freeMap.Contents();
    ghost var bits1 := AllocateBoth(freeMap, mapHdr, dirHdr);
    mh, dh := mapHdr.Model(), dirHdr.Model();
    FormatBits(bits, mh, bits1, dh, freeMap.Contents());
    mapHdr.WriteBack(disk, FREE_MAP_SECTOR);
    dirHdr.WriteBack(disk, DIRECTORY_SECTOR);
  }

  // Space for the data of the free map and of the directory.
  method AllocateBoth(freeMap: Bitmap, mapHdr: FileHeader, dirHdr: FileHeader) returns (ghost bits1: seq<bool>)
    requires freeMap.Valid() && freeMap.numBits == NUM_SECTORS && mapHdr != dirHdr && Raw(mapHdr.Model()) && Raw(dirHdr.Model())
    requires freeMap.Contents() == seq(NUM_SECTORS, i => false)[FREE_MAP_SECTOR := true][DIRECTORY_SECTOR := true]
    modifies freeMap.words, mapHdr, dirHdr
    ensures Allocated(mapHdr.Model(), old(freeMap.Contents()), bits1, FREE_MAP_FILE_SIZE)
    ensures mapHdr.Model().numSectors <= CountClear(old(freeMap.Contents()))
    ensures Allocated(dirHdr.Model(), bits1, freeMap.Contents(), DIRECTORY_FILE_SIZE)
    ensures dirHdr.Model().numSectors <= CountClear(bits1) && CountClear(freeMap.Contents()) == NUM_SECTORS - 4
  {
    FormatCount(freeMap.Contents());
    AllocateSystemFile(freeMap, mapHdr, FREE_MAP_FILE_SIZE);
    bits1 := freeMap.Contents();
    AllocateSystemFile(freeMap, dirHdr, DIRECTORY_FILE_SIZE);
  }

  method AllocateSystemFile(freeMap: Bitmap, hdr: FileHeader, size: int)
    requires freeMap.Valid() && freeMap.numBits == NUM_SECTORS && Raw(hdr.Model()) && 0 <= size <= MAX_FILE_SIZE
    requires DivRoundUp(size, SECTOR_SIZE) <= CountClear(freeMap.Contents())
    modifies freeMap.words, hdr
    ensures Allocated(hdr.Model(), old(freeMap.Contents()), freeMap.Contents(), size)
    ensures CountClear(freeMap.Contents()) == CountClear(old(freeMap.Contents())) - hdr.Model().numSectors
  {
    ghost var bits := freeMap.Contents();
    var ok := hdr.Allocate(freeMap, size);
    assert ok;  // the source's ASSERT
    AllocatedCount(hdr.Model(), bits, freeMap.Contents(), size);
  }

  method FormatDisk(disk: SynchDisk, memory0: Header, memory1: Header, table0: seq<Entry>)
    returns (mapFile: OpenFile, dirFile: OpenFile)
    requires disk.Valid() && Raw(memory0) && Raw(memory1) && |table0| == NUM_DIR_ENTRIES && TableOk(table0)
    modifies disk
    ensures fresh(mapFile) && fresh(dirFile) && mapFile.disk == disk && dirFile.disk == disk
    ensures Formatted(disk.sectors, mapFile.hdr, dirFile.hdr) && Inv(disk.sectors, mapFile.hdr, dirFile.hdr)
    ensures CountClear(Bits(disk.sectors, mapFile.hdr)) == NUM_SECTORS - 4
  {
    var freeMap, mh, dh := FormatHeaders(disk, memory0, memory1);
    var directory := new Directory(NUM_DIR_ENTRIES, table0);
    mapFile := new OpenFile(disk, FREE_MAP_SECTOR);
    dirFile := new OpenFile(disk, DIRECTORY_SECTOR);
    WriteBackBitmap(freeMap, mapFile);
    ghost var sectors := disk.sectors;
    directory.WriteBack(dirFile);
    OtherFileUnchanged(sectors, disk.sectors, dh.Data(), mh);
    FormattedIsOk(disk.sectors, mapFile.hdr, dirFile.hdr);
  }

  // ---------------------------------------------------------------------
  // Whole histories

  // Create and Remove on one disk, as CreateThenRemove has it.
  method CreateAndRemove(fs: FileSystem, name: Name, size: int, memory: Header) returns (created: bool)
    requires fs.Valid() && 0 <= size <= MAX_FILE_SIZE && Raw(memory)
    modifies fs.disk
    ensures fs.Valid() && created == CanCreate(old(fs.FreeBits()), old(fs.Listing()), Key(name), size)
    ensures fs.FreeBits() == old(fs.FreeBits()) && forall k :: Lookup(fs.Listing(), k) == Lookup(old(fs.Listing()), k)
  {
    ghost var sectors, mh, dh := fs.disk.sectors, fs.freeMapFile.hdr, fs.directoryFile.hdr;
    created := fs.Create(name, size, memory);
    if created {
      ghost var i: nat, s, h :| Created(sectors, fs.disk.sectors, mh, dh, Key(name), i, s, h);
      RemoveAgain(fs, name, memory, sectors, i, s, h);
    }
  }

  method RemoveAgain(fs: FileSystem, name: Name, memory: Header, ghost sectors: seq<Block>, ghost i: nat, ghost s: int, ghost h: Header)
    requires fs.Valid() && |sectors| == NUM_SECTORS
    requires Created(sectors, fs.disk.sectors, fs.freeMapFile.hdr, fs.directoryFile.hdr, Key(name), i, s, h)
    modifies fs.disk
    ensures fs.Valid() && fs.FreeBits() == Bits(sectors, fs.freeMapFile.hdr) && Alike(Table(sectors, fs.directoryFile.hdr), fs.Listing())
    ensures forall k :: Lookup(fs.Listing(), k) == Lookup(Table(sectors, fs.directoryFile.hdr), k)
  {
    ghost var sectors', mh, dh := fs.disk.sectors, fs.freeMapFile.hdr, fs.directoryFile.hdr;
    assert Matches(fs.Listing()[i], Key(name));
    var removed := fs.Remove(name, memory);
    ghost var j: nat :| Removed(sectors', fs.disk.sectors, mh, dh, Key(name), j);
    CreateThenRemove(sectors, sectors', fs.disk.sectors, mh, dh, Key(name), i, s, h, j);
  }

  datatype Op = DoCreate(name: Name, size: int) | DoRemove(name: Name) | DoWrite(name: Name, from: seq<byte>, numBytes: int, position: int)

  // Format a disk and apply any sequence of operations to it: the free map stays exactly the
  // disjoint union of the claims and names stay unique, so no ASSERT on the way fails.
  method History(disk: SynchDisk, memory: Header, table0: seq<Entry>, ops: seq<Op>) returns (fs: FileSystem)
    requires disk.Valid() && Raw(memory) && |table0| == NUM_DIR_ENTRIES && TableOk(table0)
    requires forall i :: 0 <= i < |ops| && ops[i].DoCreate? ==> 0 <= ops[i].size <= MAX_FILE_SIZE
    requires forall i :: 0 <= i < |ops| && ops[i].DoWrite? ==> ops[i].position >= 0 && |ops[i].from| >= ops[i].numBytes
    modifies disk
    ensures fs.Valid() && fs.disk == disk
  {
    fs := new FileSystem.Format(disk, memory, memory, table0);
    var i := 0;
    while i < |ops|
      invariant 0 <= i <= |ops|
      invariant fs.disk == disk && fs.Valid()
    {
      match ops[i] {
        case DoCreate(name, size) =>
          var ok := fs.Create(name, size, memory);
        case DoRemove(name) =>
          var ok := fs.Remove(name, memory);
        case DoWrite(name, from, numBytes, position) =>
          var n := fs.WriteFile(name, from, numBytes, position);
      }
      i := i + 1;
    }
  }
}
