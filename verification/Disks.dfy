// The disk as the file system sees it (filesys/synchdisk.cc), and the way that
// integers lie in its sectors.
module Disks {
  const SECTOR_SIZE := 256
  const NUM_SECTORS := 1024

  newtype byte = x: int | 0 <= x < 256

  type Block = b: seq<byte> | |b| == SECTOR_SIZE witness seq(SECTOR_SIZE, i => 0)

  class SynchDisk {
    var sectors: seq<Block>

    ghost predicate Valid()
      reads this
    {
      |sectors| == NUM_SECTORS
    }

    method ReadSector(n: int) returns (data: Block)
      requires Valid() && 0 <= n < NUM_SECTORS
      ensures data == sectors[n]
    {
      data := sectors[n];
    }

    method WriteSector(n: int, data: Block)
      requires Valid() && 0 <= n < NUM_SECTORS
      modifies this
      ensures sectors == old(sectors)[n := data]
    {
      sectors := sectors[n := data];
    }
  }

  // ---------------------------------------------------------------------
  // Integers in memory: 32 bits, least significant byte first

  const WRAP := 0x1_0000_0000

  function LittleEndian(b: seq<byte>): nat {
    if b == [] then 0 else b[0] as nat + 256 * LittleEndian(b[1..])
  }

  // The n lowest bytes of a number.
  function Digits(u: nat, n: nat): (b: seq<byte>)
    ensures |b| == n
    decreases n, u
  {
    if n == 0 then [] else [(u % 256) as byte] + Digits(u / 256, n - 1)
  }

  // What they amount to: u modulo 256^n.
  function Low(u: nat, n: nat): nat
    decreases n, u
  {
    if n == 0 then 0 else u % 256 + 256 * Low(u / 256, n - 1)
  }

  // x times 256^n
  function Up(x: nat, n: nat): nat
    decreases n, x
  {
    if n == 0 then x else 256 * Up(x, n - 1)
  }

  lemma DivMod256(x: nat, q: nat, r: nat)
    requires x == 256 * q + r && r < 256
    ensures x / 256 == q && x % 256 == r
  {
  }

  lemma {:induction false} DigitsOfBytes(b: seq<byte>)
    ensures Digits(LittleEndian(b), |b|) == b
  {
    if b != [] {
      DivMod256(LittleEndian(b), LittleEndian(b[1..]), b[0] as nat);
      DigitsOfBytes(b[1..]);
    }
  }

  lemma {:induction false} ValueOfDigits(u: nat, n: nat)
    ensures LittleEndian(Digits(u, n)) == Low(u, n)
    decreases n
  {
    if n > 0 {
      ValueOfDigits(u / 256, n - 1);
      assert Digits(u, n)[1..] == Digits(u / 256, n - 1);
    }
  }

  lemma {:induction false} LowIsAll(u: nat, n: nat)
    requires u < Up(1, n)
    ensures Low(u, n) == u
    decreases n
  {
    if n > 0 { LowIsAll(u / 256, n - 1); }
  }

  lemma {:induction false} BytesFit(b: seq<byte>)
    ensures LittleEndian(b) < Up(1, |b|)
  {
    if b != [] { BytesFit(b[1..]); }
  }

  lemma FourBytes()
    ensures Up(1, 1) == 0x100 && Up(1, 2) == 0x1_0000 && Up(1, 3) == 0x100_0000 && Up(1, 4) == WRAP
  {
    assert Up(1, 1) == 0x100;
    assert Up(1, 2) == 0x1_0000;
    assert Up(1, 3) == 0x100_0000;
  }

  predicate IsInt32(n: int) {
    -0x8000_0000 <= n < 0x8000_0000
  }

  // The 32 bits of an integer.
  function ToWord(n: int): nat {
    n % WRAP
  }

  function EncodeInt(n: int): (b: seq<byte>)
    ensures |b| == 4
  {
    Digits(ToWord(n), 4)
  }

  function DecodeUnsigned(b: seq<byte>): (u: int)
    requires |b| == 4
    ensures 0 <= u < WRAP
  {
    BytesFit(b);
    FourBytes();
    LittleEndian(b)
  }

  function DecodeInt(b: seq<byte>): int
    requires |b| == 4
  {
    var u := DecodeUnsigned(b);
    if u < 0x8000_0000 then u else u - WRAP
  }

  lemma UnsignedRoundTrip(n: int)
    ensures DecodeUnsigned(EncodeInt(n)) == n % WRAP
  {
    ValueOfDigits(ToWord(n), 4);
    FourBytes();
    LowIsAll(ToWord(n), 4);
  }

  lemma IntRoundTrip(n: int)
    requires IsInt32(n)
    ensures DecodeInt(EncodeInt(n)) == n
  {
    UnsignedRoundTrip(n);
    assert ToWord(n) == if n < 0 then n + WRAP else n;
  }

  function EncodeInts(s: seq<int>): (b: seq<byte>)
    ensures |b| == 4 * |s|
  {
    if s == [] then [] else EncodeInts(s[..|s| - 1]) + EncodeInt(s[|s| - 1])
  }

  lemma {:induction false} EncodedAt(s: seq<int>, i: nat)
    requires i < |s|
    ensures EncodeInts(s)[4 * i..4 * i + 4] == EncodeInt(s[i])
  {
    var n := |s| - 1;
    OneMoreInt(EncodeInts(s[..n]), EncodeInt(s[n]), n, i);
    if i < n {
      EncodedAt(s[..n], i);
    }
  }

  lemma OneMoreInt(b: seq<byte>, e: seq<byte>, n: nat, i: nat)
    requires |b| == 4 * n && |e| == 4 && i <= n
    ensures (b + e)[4 * i..4 * i + 4] == if i < n then b[4 * i..4 * i + 4] else e
  {
  }

  function DecodeInts(b: seq<byte>): (s: seq<int>)
    ensures |s| == |b| / 4
  {
    seq(|b| / 4, i requires 0 <= i < |b| / 4 => DecodeInt(b[4 * i..4 * i + 4]))
  }

  lemma IntsRoundTrip(s: seq<int>)
    requires forall i :: 0 <= i < |s| ==> IsInt32(s[i])
    ensures DecodeInts(EncodeInts(s)) == s
  {
    var b := EncodeInts(s);
    var r := DecodeInts(b);
    assert |r| == |s|;
    forall i | 0 <= i < |s|
      ensures r[i] == s[i]
    {
      IntBack(s, b, i);
    }
  }

  lemma IntBack(s: seq<int>, b: seq<byte>, i: nat)
    requires b == EncodeInts(s) && i < |s| && IsInt32(s[i])
    ensures DecodeInts(b)[i] == s[i]
  {
    EncodedAt(s, i);
    IntAt(b, s[i], i);
  }

  lemma IntAt(b: seq<byte>, n: int, i: nat)
    requires 4 * i + 4 <= |b| && b[4 * i..4 * i + 4] == EncodeInt(n) && IsInt32(n)
    ensures DecodeInts(b)[i] == n
  {
    IntRoundTrip(n);
  }

  // Byte p + k of a file lies k bytes after byte p, also when counted in sectors.
  lemma SectorArithmetic(p: nat, k: nat)
    ensures (p + k) / SECTOR_SIZE == p / SECTOR_SIZE + (p % SECTOR_SIZE + k) / SECTOR_SIZE
    ensures (p + k) % SECTOR_SIZE == (p % SECTOR_SIZE + k) % SECTOR_SIZE
  {
  }
}
