// The self-resizing hash table (lib/hash.cc).
module HashTables {
  import opened Collections
  import opened Lists

  const INITIAL_BUCKETS := 4
  const RESIZE_RATIO := 3
  const INCREASE_SIZE_BY := 4

  // How items are keyed and hashed.
  datatype Scheme<!Key, !T> = Scheme(getKey: T -> Key, hash: Key -> nat)

  type Table<T> = seq<seq<T>>

  function Home<Key, T>(sch: Scheme<Key, T>, n: nat, k: Key): (b: nat)
    requires n > 0
    ensures b < n
  {
    sch.hash(k) % n
  }

  predicate Holds<Key(==), T(==)>(sch: Scheme<Key, T>, m: map<Key, T>, x: T) {
    var k := sch.getKey(x);
    k in m && m[k] == x
  }

  ghost predicate KeysAgree<Key(!new), T>(sch: Scheme<Key, T>, m: map<Key, T>) {
    forall k :: k in m ==> sch.getKey(m[k]) == k
  }

  // A table stands for a map: each item of the map sits once, in the bucket of its key, and nothing else
  // is there.
  ghost predicate Represents<Key(!new), T(!new)>(sch: Scheme<Key, T>, t: Table<T>, m: map<Key, T>) {
    && |t| > 0 && KeysAgree(sch, m)
    && (forall i :: 0 <= i < |t| ==> NoDup(t[i]))
    && (forall i, x :: 0 <= i < |t| ==> (x in t[i] <==> Holds(sch, m, x) && Home(sch, |t|, sch.getKey(x)) == i))
  }

  function Flat<T>(t: Table<T>): seq<T> {
    if t == [] then [] else Flat(t[..|t| - 1]) + t[|t| - 1]
  }

  lemma Added<Key(!new), T(!new)>(sch: Scheme<Key, T>, t: Table<T>, m: map<Key, T>, x: T)
    requires Represents(sch, t, m) && sch.getKey(x) !in m
    ensures var b := Home(sch, |t|, sch.getKey(x));
            Represents(sch, t[b := t[b] + [x]], m[sch.getKey(x) := x])
  {
    var b := Home(sch, |t|, sch.getKey(x));
    assert !Holds(sch, m, x);
    JoinQueue(t[b], x);
  }

  lemma Deleted<Key(!new), T(!new)>(sch: Scheme<Key, T>, t: Table<T>, m: map<Key, T>, k: Key)
    requires Represents(sch, t, m) && k in m
    ensures var b := Home(sch, |t|, k);
            Represents(sch, t[b := Delete(t[b], m[k])], m - {k})
  {
    var b, m' := Home(sch, |t|, k), m - {k};
    DeleteWorks(t[b], m[k]);
    forall x: T
      ensures Holds(sch, m', x) <==> Holds(sch, m, x) && x != m[k]
    {
      if Holds(sch, m, x) && sch.getKey(x) == k {
        assert x == m[k];
      }
    }
  }

  // ---------------------------------------------------------------------
  // The items of a table, counted and listed

  lemma {:induction false} FlatMembers<T(!new)>(t: Table<T>, x: T)
    ensures x in Flat(t) <==> exists i :: 0 <= i < |t| && x in t[i]
  {
    if t != [] {
      var rest := t[..|t| - 1];
      FlatMembers(rest, x);
      if i :| 0 <= i < |rest| && x in rest[i] {
        assert x in t[i];
      }
      if i :| 0 <= i < |t| && x in t[i] {
        assert i < |rest| ==> x in rest[i];
      }
    }
  }

  ghost predicate Separate<T(!new)>(t: Table<T>) {
    && (forall i :: 0 <= i < |t| ==> NoDup(t[i]))
    && (forall i, j, x :: 0 <= i < |t| && 0 <= j < |t| && x in t[i] && x in t[j] ==> i == j)
  }

  lemma {:induction false} FlatNoDup<T(!new)>(t: Table<T>)
    requires Separate(t)
    ensures NoDup(Flat(t))
  {
    if t != [] {
      var rest, last := t[..|t| - 1], t[|t| - 1];
      assert Separate(rest);
      FlatNoDup(rest);
      forall x | x in last
        ensures x !in Flat(rest)
      {
        FlatMembers(rest, x);
      }
      ConcatNoDup(Flat(rest), last);
    }
  }

  lemma ConcatNoDup<T(!new)>(a: seq<T>, b: seq<T>)
    requires NoDup(a) && NoDup(b) && forall x :: x in b ==> x !in a
    ensures NoDup(a + b)
  {
    var c := a + b;
    forall i, j | 0 <= i < j < |c|
      ensures c[i] != c[j]
    {
      if i < |a| <= j {
        assert c[j] in b && c[i] in a;
      }
    }
  }

  lemma {:induction false} NoDupSize<T>(s: seq<T>, items: set<T>)
    requires (forall i, j :: 0 <= i < j < |s| ==> s[i] != s[j]) && items == set x | x in s
    ensures |s| == |items|
  {
    if s != [] {
      var n := |s| - 1;
      var rest := s[..n];
      assert s == rest + [s[n]];
      assert items == (set x | x in rest) + {s[n]};
      NoDupSize(rest, set x | x in rest);
    }
  }

  lemma {:induction false} ValuesSize<Key(!new), T>(sch: Scheme<Key, T>, m: map<Key, T>)
    requires KeysAgree(sch, m)
    ensures |m.Values| == |m|
    decreases |m|
  {
    if |m| > 0 {
      var k :| k in m;
      var m' := m - {k};
      ValuesSize(sch, m');
      assert m'.Values == m.Values - {m[k]} by {
        forall x
          ensures x in m'.Values <==> x in m.Values && x != m[k]
        {
          if x in m'.Values {
            var j :| j in m' && m'[j] == x;
            assert sch.getKey(x) == j;
          }
          if x in m.Values && x != m[k] {
            var j :| j in m && m[j] == x;
            assert j in m' && m'[j] == x;
          }
        }
      }
    }
  }

  // Going through the buckets one after the other meets every item of the map exactly once.
  lemma FlatIsContents<Key(!new), T(!new)>(sch: Scheme<Key, T>, t: Table<T>, m: map<Key, T>)
    requires Represents(sch, t, m)
    ensures NoDup(Flat(t)) && (forall x :: x in Flat(t) <==> Holds(sch, m, x)) && |Flat(t)| == |m|
  {
    forall i, j, x | 0 <= i < |t| && 0 <= j < |t| && x in t[i] && x in t[j]
      ensures i == j
    {
      assert Home(sch, |t|, sch.getKey(x)) == i;
    }
    FlatNoDup(t);
    forall x
      ensures x in Flat(t) <==> Holds(sch, m, x)
    {
      FlatMembers(t, x);
      if Holds(sch, m, x) {
        assert x in t[Home(sch, |t|, sch.getKey(x))];
      }
    }
    forall x
      ensures x in m.Values <==> x in Flat(t)
    {
      if x in m.Values {
        var k :| k in m && m[k] == x;
        assert Holds(sch, m, x);
      }
    }
    assert m.Values == set x | x in Flat(t);
    NoDupSize(Flat(t), m.Values);
    ValuesSize(sch, m);
  }

  // ---------------------------------------------------------------------
  // Moving to a larger table

  // The old table holds what has not been moved yet.
  ghost predicate HoldsRest<Key(!new), T(!new)>(sch: Scheme<Key, T>, t: Table<T>, m: map<Key, T>, moved: map<Key, T>) {
    && |t| > 0
    && (forall k :: k in moved ==> k in m && m[k] == moved[k])
    && (forall i :: 0 <= i < |t| ==> NoDup(t[i]))
    && (forall i, x :: 0 <= i < |t| ==> (x in t[i] <==> Holds(sch, m, x) && !Holds(sch, moved, x) && Home(sch, |t|, sch.getKey(x)) == i))
  }

  lemma MoveFirst<Key(!new), T(!new)>(sch: Scheme<Key, T>, t: Table<T>, m: map<Key, T>, moved: map<Key, T>, i: nat)
    requires HoldsRest(sch, t, m, moved) && KeysAgree(sch, m) && i < |t| && t[i] != []
    ensures var x := t[i][0];
            var k := sch.getKey(x);
            k !in moved && HoldsRest(sch, t[i := t[i][1..]], m, moved[k := x])
  {
    var x := t[i][0];
    var k := sch.getKey(x);
    assert x in t[i];
    HeadOff(t[i]);
    forall y: T
      ensures Holds(sch, moved[k := x], y) <==> Holds(sch, moved, y) || y == x
    {
    }
  }

  lemma AllMoved<Key(!new), T(!new)>(sch: Scheme<Key, T>, t: Table<T>, m: map<Key, T>, moved: map<Key, T>)
    requires HoldsRest(sch, t, m, moved) && KeysAgree(sch, m) && forall i :: 0 <= i < |t| ==> t[i] == []
    ensures moved == m
  {
    forall k | k in m
      ensures k in moved && moved[k] == m[k]
    {
      var x := m[k];
      var i := Home(sch, |t|, k);
      assert x !in t[i];
      assert Holds(sch, m, x);
    }
  }

  lemma EmptyTable<Key(!new), T(!new)>(sch: Scheme<Key, T>, t: Table<T>)
    requires |t| > 0 && forall i :: 0 <= i < |t| ==> t[i] == []
    ensures Represents(sch, t, map[])
  {
  }

  class HashTable<Key(==,!new), T(==,!new)> {
    const sch: Scheme<Key, T>
    var numItems: nat
    var buckets: array<seq<T>>
    ghost var contents: map<Key, T>

    ghost predicate Valid()
      reads this, buckets
    {
      && Represents(sch, buckets[..], contents)
      && numItems == |contents| <= RESIZE_RATIO * buckets.Length
    }

    constructor (sch: Scheme<Key, T>)
      ensures Valid() && this.sch == sch && contents == map[] && buckets.Length == INITIAL_BUCKETS && fresh(buckets)
    {
      this.sch := sch;
      numItems, contents := 0, map[];
      buckets := new seq<T>[INITIAL_BUCKETS](i => []);
      new;
      EmptyTable(sch, buckets[..]);
    }

    function HashValue(key: Key): (b: nat)
      requires buckets.Length > 0
      reads this
      ensures b < buckets.Length
    {
      Home(sch, buckets.Length, key)
    }

    method ReHash()
      requires Represents(sch, buckets[..], contents)
      modifies this, buckets
      ensures Represents(sch, buckets[..], contents) && contents == old(contents) && numItems == old(numItems)
      ensures fresh(buckets) && buckets.Length == INCREASE_SIZE_BY * old(buckets.Length)
    {
      var oldTable, oldSize := buckets, buckets.Length;
      buckets := new seq<T>[oldSize * INCREASE_SIZE_BY](i => []);
      EmptyTable(sch, buckets[..]);
      ghost var moved: map<Key, T> := map[];
      var i := 0;
      while i < oldSize
        invariant 0 <= i <= oldSize == oldTable.Length && fresh(buckets) && buckets.Length == INCREASE_SIZE_BY * oldSize && buckets != oldTable
        invariant contents == old(contents) && numItems == old(numItems)
        invariant Represents(sch, buckets[..], moved) && HoldsRest(sch, oldTable[..], contents, moved)
        invariant forall j :: 0 <= j < i ==> oldTable[j] == []
      {
        while oldTable[i] != []
          invariant fresh(buckets) && buckets.Length == INCREASE_SIZE_BY * oldSize && buckets != oldTable
          invariant contents == old(contents) && numItems == old(numItems)
          invariant Represents(sch, buckets[..], moved) && HoldsRest(sch, oldTable[..], contents, moved)
          invariant forall j :: 0 <= j < i ==> oldTable[j] == []
          decreases |oldTable[i]|
        {
          moved := Move(oldTable, i, moved);
        }
        i := i + 1;
      }
      AllMoved(sch, oldTable[..], contents, moved);
    }

    method Move(oldTable: array<seq<T>>, i: nat, ghost moved: map<Key, T>) returns (ghost moved': map<Key, T>)
      requires i < oldTable.Length && oldTable[i] != [] && oldTable != buckets && KeysAgree(sch, contents)
      requires Represents(sch, buckets[..], moved) && HoldsRest(sch, oldTable[..], contents, moved)
      modifies oldTable, buckets
      ensures Represents(sch, buckets[..], moved') && HoldsRest(sch, oldTable[..], contents, moved')
      ensures oldTable[..] == old(oldTable[..])[i := old(oldTable[i])[1..]]
    {
      var item := oldTable[i][0];
      var b := HashValue(sch.getKey(item));
      MoveFirst(sch, oldTable[..], contents, moved, i);
      Added(sch, buckets[..], moved, item);
      ghost var t, t' := oldTable[..], buckets[..];
      oldTable[i] := oldTable[i][1..];
      buckets[b] := buckets[b] + [item];
      moved' := moved[sch.getKey(item) := item];
      assert oldTable[..] == t[i := t[i][1..]];
      assert buckets[..] == t'[b := t'[b] + [item]];
    }

    method Insert(item: T)
      requires Valid() && sch.getKey(item) !in contents
      modifies this, buckets
      ensures Valid() && (buckets == old(buckets) || fresh(buckets))
      ensures contents == old(contents)[sch.getKey(item) := item]
      ensures buckets.Length == old(buckets.Length) * if old(numItems) / old(buckets.Length) >= RESIZE_RATIO then INCREASE_SIZE_BY else 1
    {
      if numItems / buckets.Length >= RESIZE_RATIO {
        ReHash();
      }
      BelowRatio(numItems, buckets.Length);
      var b := HashValue(sch.getKey(item));
      Added(sch, buckets[..], contents, item);
      ghost var t := buckets[..];
      buckets[b] := buckets[b] + [item];
      assert buckets[..] == t[b := t[b] + [item]];
      contents := contents[sch.getKey(item) := item];
      numItems := numItems + 1;
    }

    method FindInBucket(bucket: nat, key: Key) returns (found: Option<T>)
      requires bucket < buckets.Length
      ensures found.Some? ==> found.value in buckets[bucket] && sch.getKey(found.value) == key
      ensures found.None? ==> forall x :: x in buckets[bucket] ==> sch.getKey(x) != key
    {
      var list := buckets[bucket];
      var i := 0;
      while i < |list|
        invariant 0 <= i <= |list|
        invariant forall j :: 0 <= j < i ==> sch.getKey(list[j]) != key
      {
        if key == sch.getKey(list[i]) {
          return Some(list[i]);
        }
        i := i + 1;
      }
      return None;
    }

    method Find(key: Key) returns (found: Option<T>)
      requires Valid()
      ensures found == if key in contents then Some(contents[key]) else None
    {
      found := FindInBucket(HashValue(key), key);
      if key in contents {
        assert Holds(sch, contents, contents[key]);
      }
    }

    method Remove(key: Key) returns (item: T)
      requires Valid() && key in contents
      modifies this, buckets
      ensures Valid() && buckets == old(buckets)
      ensures item == old(contents)[key] && contents == old(contents) - {key}
    {
      var bucket := HashValue(key);
      var found := FindInBucket(bucket, key);
      assert Holds(sch, contents, contents[key]);
      item := found.value;
      Deleted(sch, buckets[..], contents, key);
      ghost var t := buckets[..];
      buckets[bucket] := Delete(buckets[bucket], item);
      assert buckets[..] == t[bucket := Delete(t[bucket], item)];
      contents := contents - {key};
      numItems := numItems - 1;
    }
  }

  lemma BelowRatio(items: nat, n: nat)
    requires n > 0
    ensures items / n < RESIZE_RATIO ==> items < RESIZE_RATIO * n
  {
    if items >= RESIZE_RATIO * n {
      assert items - 3 * n >= 0;
      assert items / n >= 3;
    }
  }

  // ---------------------------------------------------------------------
  // The iterator

  // What is still to come from item pos of bucket b on.
  function Remaining<T>(t: Table<T>, b: nat, pos: nat): seq<T>
    requires b < |t| ==> pos <= |t[b]|
    decreases |t| - b
  {
    if b >= |t| then [] else t[b][pos..] + Remaining(t, b + 1, 0)
  }

  lemma {:induction false} RemainingIsFlat<T>(t: Table<T>, b: nat)
    requires b <= |t|
    ensures Flat(t[..b]) + Remaining(t, b, 0) == Flat(t)
    decreases |t| - b
  {
    if b == |t| {
      assert t[..b] == t;
    } else {
      RemainingIsFlat(t, b + 1);
      assert t[..b + 1][..b] == t[..b];
      assert t[b][0..] == t[b];
    }
  }

  class HashIterator<Key(==,!new), T(==,!new)> {
    const table: HashTable<Key, T>
    var bucket: nat
    var pos: nat

    // The iterator stands at an item, or behind the last bucket.
    ghost predicate Valid()
      reads this, table, table.buckets
    {
      bucket < table.buckets.Length ==> pos < |table.buckets[bucket]|
    }

    ghost function ToCome(): seq<T>
      requires Valid()
      reads this, table, table.buckets
    {
      Remaining(table.buckets[..], bucket, pos)
    }

    constructor (table: HashTable<Key, T>)
      ensures Valid() && this.table == table && ToCome() == Flat(table.buckets[..])
    {
      this.table := table;
      bucket, pos := 0, 0;
      new;
      RemainingIsFlat(table.buckets[..], 0);
      FindNextFullBucket();
    }

    method FindNextFullBucket()
      requires pos == 0
      modifies this
      ensures Valid() && pos == 0 && ToCome() == Remaining(table.buckets[..], old(bucket), 0)
    {
      while bucket < table.buckets.Length
        invariant pos == 0 && Remaining(table.buckets[..], bucket, 0) == Remaining(table.buckets[..], old(bucket), 0)
      {
        if table.buckets[bucket] != [] {
          break;
        }
        bucket := bucket + 1;
      }
    }

    predicate IsDone()
      reads this, table, table.buckets
    {
      bucket >= table.buckets.Length
    }

    method Item() returns (item: T)
      requires Valid() && !IsDone()
      ensures ToCome() != [] && item == ToCome()[0]
    {
      item := table.buckets[bucket][pos];
    }

    method Next()
      requires Valid() && !IsDone()
      modifies this
      ensures Valid() && old(ToCome()) != [] && ToCome() == old(ToCome())[1..]
    {
      pos := pos + 1;
      if pos >= |table.buckets[bucket]| {
        bucket, pos := bucket + 1, 0;
        FindNextFullBucket();
      }
    }
  }

  // A loop over the iterator visits every item of the table exactly once.
  method VisitAll<Key(==,!new), T(==,!new)>(table: HashTable<Key, T>) returns (visited: seq<T>)
    requires table.Valid()
    ensures NoDup(visited) && forall x :: x in visited <==> Holds(table.sch, table.contents, x)
    ensures |visited| == table.numItems
  {
    visited := Loop(table);
    FlatIsContents(table.sch, table.buckets[..], table.contents);
  }

  method Loop<Key(==,!new), T(==,!new)>(table: HashTable<Key, T>) returns (visited: seq<T>)
    ensures visited == Flat(table.buckets[..])
  {
    visited := [];
    var cursor := new HashIterator<Key, T>(table);
    ghost var all := cursor.ToCome();
    while !cursor.IsDone()
      invariant fresh(cursor) && cursor.Valid() && cursor.table == table
      invariant visited <= all && cursor.ToCome() == all[|visited|..]
      decreases |all| - |visited|
    {
      var item := cursor.Item();
      cursor.Next();
      visited := visited + [item];
    }
    assert cursor.ToCome() == [];
  }
}
