// filesys/directory.cc: a table of file names and header sectors, kept in a file.
module Directories {
  import opened Disks
  import opened Files

  const NAME_MAX := 9
  const ENTRY_SIZE := 20

  type Name = seq<byte>  // a C string, with or without its terminating zero

  // The bytes of name[10]; only the first nine are ever written or compared.
  datatype Entry = Entry(inUse: bool, sector: int, name: seq<byte>)

  // ---------------------------------------------------------------------
  // strncmp and strncpy with length 9

  function CharAt(s: Name, i: nat): byte {
    if i < |s| then s[i] else 0
  }

  // strncmp(a + i, b + i, 9 - i) == 0
  predicate SamePrefix(a: Name, b: Name, i: nat)
    requires i <= NAME_MAX
    decreases NAME_MAX - i
  {
    i == NAME_MAX || (CharAt(a, i) == CharAt(b, i) && (CharAt(a, i) == 0 || SamePrefix(a, b, i + 1)))
  }

  // The characters by which a name is known: at most nine, up to the terminating zero.
  function Key(s: Name, i: nat := 0): (k: seq<byte>)
    requires i <= NAME_MAX
    ensures |k| <= NAME_MAX - i
    decreases NAME_MAX - i
  {
    if i == NAME_MAX || CharAt(s, i) == 0 then [] else [CharAt(s, i)] + Key(s, i + 1)
  }

  lemma {:induction false} SamePrefixIsSameKey(a: Name, b: Name, i: nat)
    requires i <= NAME_MAX
    ensures SamePrefix(a, b, i) <==> Key(a, i) == Key(b, i)
    decreases NAME_MAX - i
  {
    if i < NAME_MAX && CharAt(a, i) == CharAt(b, i) != 0 {
      SamePrefixIsSameKey(a, b, i + 1);
      assert Key(a, i)[1..] == Key(a, i + 1) && Key(b, i)[1..] == Key(b, i + 1);
    } else if i < NAME_MAX && CharAt(a, i) != 0 && CharAt(b, i) != 0 {
      assert Key(a, i)[0] != Key(b, i)[0];
    }
  }

  // strncpy: the characters of s, then zeros; the tenth byte stays.
  function CopyName(was: seq<byte>, s: Name): (r: seq<byte>)
    requires |was| == NAME_MAX + 1
    ensures |r| == NAME_MAX + 1
  {
    Key(s) + seq(NAME_MAX - |Key(s)|, i => 0) + [was[NAME_MAX]]
  }

  lemma {:induction false} KeyOfPadded(k: seq<byte>, rest: seq<byte>, i: nat)
    requires i <= |k| <= NAME_MAX && (forall j :: 0 <= j < |k| ==> k[j] != 0) && (|k| < NAME_MAX ==> rest != [] && rest[0] == 0)
    ensures Key(k + rest, i) == k[i..]
    decreases NAME_MAX - i
  {
    if i < |k| {
      KeyOfPadded(k, rest, i + 1);
      assert CharAt(k + rest, i) == k[i];
    }
  }

  // The key is the name up to its terminating zero, or up to nine characters.
  lemma {:induction false} KeyIsPrefix(s: Name, i: nat)
    requires i <= NAME_MAX
    ensures forall j :: i <= j < i + |Key(s, i)| ==> Key(s, i)[j - i] == CharAt(s, j) != 0
    ensures |Key(s, i)| < NAME_MAX - i ==> CharAt(s, i + |Key(s, i)|) == 0
    decreases NAME_MAX - i
  {
    if i < NAME_MAX && CharAt(s, i) != 0 {
      KeyIsPrefix(s, i + 1);
    }
  }

  // A stored name is padded with zeros, and its tenth byte stays.
  lemma StoredBytes(was: seq<byte>, s: Name, i: nat)
    requires |was| == NAME_MAX + 1 && i == 0
    ensures forall j :: 0 <= j < NAME_MAX ==> CopyName(was, s)[j] == if j < |Key(s, i)| then CharAt(s, j) else 0
    ensures CopyName(was, s)[NAME_MAX] == was[NAME_MAX]
  {
    KeyIsPrefix(s, i);
  }

  // A name is found again under the characters it was stored with.
  lemma StoredName(was: seq<byte>, s: Name)
    requires |was| == NAME_MAX + 1
    ensures Key(CopyName(was, s)) == Key(s)
  {
    var rest := seq(NAME_MAX - |Key(s)|, i => 0) + [was[NAME_MAX]];
    KeyIsPrefix(s, 0);
    KeyOfPadded(Key(s), rest, 0);
    assert CopyName(was, s) == Key(s) + rest;
  }

  // ---------------------------------------------------------------------
  // The table on disk: raw bytes of the entries, padding included

  function EncodeEntry(e: Entry): (b: seq<byte>)
    requires |e.name| == NAME_MAX + 1
    ensures |b| == ENTRY_SIZE
  {
    [if e.inUse then 1 else 0, 0, 0, 0] + EncodeInt(e.sector) + e.name + [0, 0]
  }

  function DecodeEntry(b: seq<byte>): (e: Entry)
    requires |b| == ENTRY_SIZE
    ensures |e.name| == NAME_MAX + 1
  {
    Entry(b[0] != 0, DecodeInt(b[4..8]), b[8..18])
  }

  lemma EntryRoundTrip(e: Entry)
    requires |e.name| == NAME_MAX + 1 && IsInt32(e.sector)
    ensures DecodeEntry(EncodeEntry(e)) == e
  {
    IntRoundTrip(e.sector);
    assert EncodeEntry(e)[4..8] == EncodeInt(e.sector);
    assert EncodeEntry(e)[8..18] == e.name;
  }

  ghost predicate TableOk(table: seq<Entry>) {
    forall i :: 0 <= i < |table| ==> |table[i].name| == NAME_MAX + 1 && IsInt32(table[i].sector)
  }

  function EncodeTable(table: seq<Entry>): (b: seq<byte>)
    requires TableOk(table)
    ensures |b| == ENTRY_SIZE * |table|
  {
    if table == [] then [] else EncodeTable(table[..|table| - 1]) + EncodeEntry(table[|table| - 1])
  }

  lemma {:induction false} EntryAt(table: seq<Entry>, i: nat)
    requires TableOk(table) && i < |table|
    ensures EncodeTable(table)[ENTRY_SIZE * i..ENTRY_SIZE * i + ENTRY_SIZE] == EncodeEntry(table[i])
  {
    var n := |table| - 1;
    var b, e := EncodeTable(table[..n]), EncodeEntry(table[n]);
    OneMoreEntry(b, e, n, i);
    if i < n {
      EntryAt(table[..n], i);
    }
  }

  lemma OneMoreEntry(b: seq<byte>, e: seq<byte>, n: nat, i: nat)
    requires |b| == ENTRY_SIZE * n && |e| == ENTRY_SIZE && i <= n
    ensures (b + e)[ENTRY_SIZE * i..ENTRY_SIZE * i + ENTRY_SIZE] == if i < n then b[ENTRY_SIZE * i..ENTRY_SIZE * i + ENTRY_SIZE] else e
  {
  }

  function DecodeTable(b: seq<byte>): (table: seq<Entry>)
    ensures |table| == |b| / ENTRY_SIZE
  {
    seq(|b| / ENTRY_SIZE, i requires 0 <= i < |b| / ENTRY_SIZE => DecodeEntry(b[ENTRY_SIZE * i..ENTRY_SIZE * i + ENTRY_SIZE]))
  }

  lemma DecodedTableIsOk(b: seq<byte>)
    ensures TableOk(DecodeTable(b))
  {
  }

  // FetchFrom after WriteBack yields the table that was written.
  lemma TableRoundTrip(table: seq<Entry>)
    requires TableOk(table)
    ensures DecodeTable(EncodeTable(table)) == table
  {
    var b := EncodeTable(table);
    forall i | 0 <= i < |table|
      ensures DecodeTable(b)[i] == table[i]
    {
      EntryAt(table, i);
      EntryRoundTrip(table[i]);
    }
  }

  // ---------------------------------------------------------------------
  // Look-up

  predicate Matches(e: Entry, key: seq<byte>) {
    e.inUse && Key(e.name) == key
  }

  ghost predicate UniqueNames(table: seq<Entry>) {
    forall i, j :: 0 <= i < j < |table| && table[i].inUse && table[j].inUse ==> Key(table[i].name) != Key(table[j].name)
  }

  class Directory {
    var table: seq<Entry>

    constructor (size: nat, memory: seq<Entry>)
      requires |memory| == size && TableOk(memory)
      ensures |table| == size && TableOk(table) && forall i :: 0 <= i < size ==> !table[i].inUse
    {
      table := memory;
      new;
      var i := 0;
      while i < size
        invariant 0 <= i <= size == |table| && TableOk(table)
        invariant forall j :: 0 <= j < i ==> !table[j].inUse
      {
        table := table[i := table[i].(inUse := false)];
        i := i + 1;
      }
    }

    method FetchFrom(file: OpenFile)
      requires file.Valid() && file.hdr.numBytes == ENTRY_SIZE * |table|
      modifies this
      ensures table == DecodeTable(file.Bytes()) && |table| == |old(table)|
    {
      var raw := file.ReadWhole();
      table := DecodeTable(raw);
    }

    method WriteBack(file: OpenFile)
      requires file.Valid() && TableOk(table) && file.hdr.numBytes == ENTRY_SIZE * |table|
      modifies file.disk
      ensures file.Valid() && DecodeTable(file.Bytes()) == table
      ensures forall s :: 0 <= s < NUM_SECTORS && s !in file.hdr.Data() ==> file.disk.sectors[s] == old(file.disk.sectors[s])
    {
      TableRoundTrip(table);
      file.WriteWhole(EncodeTable(table));
    }

    // The first entry in use whose name agrees in the first nine characters, or -1.
    method FindIndex(name: Name) returns (r: int)
      ensures -1 <= r < |table|
      ensures r >= 0 ==> Matches(table[r], Key(name)) && forall i :: 0 <= i < r ==> !Matches(table[i], Key(name))
      ensures r == -1 ==> forall i :: 0 <= i < |table| ==> !Matches(table[i], Key(name))
    {
      var i := 0;
      while i < |table|
        invariant 0 <= i <= |table|
        invariant forall j :: 0 <= j < i ==> !Matches(table[j], Key(name))
      {
        SamePrefixIsSameKey(table[i].name, name, 0);
        if table[i].inUse && SamePrefix(table[i].name, name, 0) {
          return i;
        }
        i := i + 1;
      }
      return -1;
    }

    method Find(name: Name) returns (sector: int)
      ensures sector == Lookup(table, Key(name))
    {
      var i := FindIndex(name);
      if i != -1 {
        LookupAt(table, Key(name), i);
        return table[i].sector;
      }
      LookupMisses(table, Key(name));
      return -1;
    }

    // Fails when the name is taken or the table full; otherwise fills the first free entry.
    method Add(name: Name, newSector: int) returns (ok: bool)
      requires TableOk(table) && IsInt32(newSector)
      modifies this
      ensures |table| == |old(table)| && TableOk(table)
      ensures ok <==> CanAdd(old(table), Key(name))
      ensures !ok ==> table == old(table)
      ensures ok ==> exists i :: 0 <= i < |table| && Added(old(table), table, i, Key(name), newSector)
    {
      var found := FindIndex(name);
      if found != -1 {
        return false;
      }
      var i := 0;
      while i < |table|
        invariant 0 <= i <= |table| && table == old(table)
        invariant forall j :: 0 <= j < i ==> table[j].inUse
      {
        if !table[i].inUse {
          StoredName(table[i].name, name);
          table := table[i := Entry(true, newSector, CopyName(table[i].name, name))];
          assert Added(old(table), table, i, Key(name), newSector);
          return true;
        }
        i := i + 1;
      }
      return false;
    }

    method Remove(name: Name) returns (ok: bool)
      modifies this
      ensures |table| == |old(table)|
      ensures ok <==> exists i :: 0 <= i < |old(table)| && Matches(old(table)[i], Key(name))
      ensures !ok ==> table == old(table)
      ensures ok ==> exists i :: 0 <= i < |table| && Dropped(old(table), table, i, Key(name))
    {
      var i := FindIndex(name);
      if i == -1 {
        return false;
      }
      table := table[i := table[i].(inUse := false)];
      assert Dropped(old(table), table, i, Key(name));
      return true;
    }
  }

  ghost predicate CanAdd(table: seq<Entry>, key: seq<byte>) {
    && (forall i :: 0 <= i < |table| ==> !Matches(table[i], key))
    && exists i :: 0 <= i < |table| && !table[i].inUse
  }

  // table' is table with the free entry i taken for the key.
  ghost predicate Added(table: seq<Entry>, table': seq<Entry>, i: nat, key: seq<byte>, sector: int) {
    && i < |table| == |table'| && !table[i].inUse && (forall j :: 0 <= j < i ==> table[j].inUse)
    && table' == table[i := table'[i]]
    && Matches(table'[i], key) && table'[i].sector == sector
  }

  // table' is table with the first entry of that key given up.
  ghost predicate Dropped(table: seq<Entry>, table': seq<Entry>, i: nat, key: seq<byte>) {
    && i < |table| == |table'| && Matches(table[i], key) && (forall j :: 0 <= j < i ==> !Matches(table[j], key))
    && table' == table[i := table[i].(inUse := false)]
  }

  // The header sector under a key, or -1.
  function Lookup(table: seq<Entry>, key: seq<byte>): int {
    if table == [] then -1
    else if Matches(table[0], key) then table[0].sector
    else Lookup(table[1..], key)
  }

  lemma {:induction false} LookupAt(table: seq<Entry>, key: seq<byte>, i: nat)
    requires i < |table| && Matches(table[i], key) && forall j :: 0 <= j < i ==> !Matches(table[j], key)
    ensures Lookup(table, key) == table[i].sector
  {
    if i > 0 {
      LookupAt(table[1..], key, i - 1);
    }
  }

  lemma {:induction false} LookupMisses(table: seq<Entry>, key: seq<byte>)
    requires forall j :: 0 <= j < |table| ==> !Matches(table[j], key)
    ensures Lookup(table, key) == -1
  {
    if table != [] {
      LookupMisses(table[1..], key);
    }
  }

  // While names are unique, a look-up finds exactly the live file with that prefix.
  lemma {:induction false} LookupIsTheFile(table: seq<Entry>, key: seq<byte>)
    requires UniqueNames(table) && forall i :: 0 <= i < |table| && table[i].inUse ==> table[i].sector >= 0
    ensures forall i :: 0 <= i < |table| && Matches(table[i], key) ==> Lookup(table, key) == table[i].sector
    ensures Lookup(table, key) == -1 <==> forall i :: 0 <= i < |table| ==> !Matches(table[i], key)
  {
    if i :| 0 <= i < |table| && Matches(table[i], key) {
      LookupAt(table, key, i);
    } else {
      LookupMisses(table, key);
    }
  }

  lemma AddKeepsUnique(table: seq<Entry>, table': seq<Entry>, i: nat, key: seq<byte>, sector: int)
    requires UniqueNames(table) && CanAdd(table, key) && Added(table, table', i, key, sector)
    ensures UniqueNames(table')
  {
  }

  lemma DropKeepsUnique(table: seq<Entry>, table': seq<Entry>, i: nat, key: seq<byte>)
    requires UniqueNames(table) && Dropped(table, table', i, key)
    ensures UniqueNames(table')
  {
  }
}
