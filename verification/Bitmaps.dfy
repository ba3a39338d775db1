// lib/bitmap.cc: an array of bits packed into 32-bit words.
module Bitmaps {
  import opened Collections
  import opened Integers

  const BITS_IN_WORD := 32

  function DivRoundUp(n: nat, s: nat): nat
    requires s > 0
  {
    n / s + if n % s > 0 then 1 else 0
  }

  // The bitwise operators on unsigned integers, by their binary digits.
  function Shl(k: nat): nat {  // 1 << k
    if k == 0 then 1 else 2 * Shl(k - 1)
  }

  predicate Digit(x: nat, k: nat)
    decreases k
  {
    if k == 0 then x % 2 == 1 else Digit(x / 2, k - 1)
  }

  function Or(x: nat, y: nat): nat {  // x | y
    if x == 0 && y == 0 then 0
    else (if x % 2 == 1 || y % 2 == 1 then 1 else 0) + 2 * Or(x / 2, y / 2)
  }

  function AndNot(x: nat, y: nat): nat {  // x & ~y
    if x == 0 then 0
    else (if x % 2 == 1 && y % 2 == 0 then 1 else 0) + 2 * AndNot(x / 2, y / 2)
  }

  lemma {:induction false} DigitOfZero(k: nat)
    ensures !Digit(0, k)
  {
    if k > 0 { DigitOfZero(k - 1); }
  }

  lemma {:induction false} DigitOfShl(i: nat, k: nat)
    ensures Digit(Shl(i), k) <==> i == k
    decreases k
  {
    if i == 0 {
      if k > 0 { DigitOfZero(k - 1); }
    } else if k > 0 {
      DigitOfShl(i - 1, k - 1);
    }
  }

  lemma Halved(b: nat, r: nat)
    requires b < 2
    ensures (b + 2 * r) / 2 == r && (b + 2 * r) % 2 == b
  {
  }

  lemma {:induction false} DigitOfOr(x: nat, y: nat, k: nat)
    ensures Digit(Or(x, y), k) <==> Digit(x, k) || Digit(y, k)
    decreases k
  {
    if x == 0 && y == 0 {
      DigitOfZero(k);
    } else {
      var b, r := if x % 2 == 1 || y % 2 == 1 then 1 else 0, Or(x / 2, y / 2);
      Halved(b, r);
      assert Or(x, y) == b + 2 * r;
      if k > 0 { DigitOfOr(x / 2, y / 2, k - 1); }
    }
  }

  lemma {:induction false} DigitOfAndNot(x: nat, y: nat, k: nat)
    ensures Digit(AndNot(x, y), k) <==> Digit(x, k) && !Digit(y, k)
    decreases k
  {
    if x == 0 {
      DigitOfZero(k);
    } else {
      var b, r := if x % 2 == 1 && y % 2 == 0 then 1 else 0, AndNot(x / 2, y / 2);
      Halved(b, r);
      assert AndNot(x, y) == b + 2 * r;
      if k > 0 { DigitOfAndNot(x / 2, y / 2, k - 1); }
    }
  }

  lemma {:induction false} OrFits(x: nat, y: nat, n: nat)
    requires x < Shl(n) && y < Shl(n)
    ensures Or(x, y) < Shl(n)
    decreases n
  {
    if n > 0 && !(x == 0 && y == 0) {
      OrFits(x / 2, y / 2, n - 1);
    }
  }

  lemma {:induction false} AndNotShrinks(x: nat, y: nat)
    ensures AndNot(x, y) <= x
  {
    if x > 0 { AndNotShrinks(x / 2, y / 2); }
  }

  lemma {:induction false} ShlGrows(k: nat, n: nat)
    requires k < n
    ensures Shl(k) < Shl(n)
    decreases n
  {
    if k < n - 1 { ShlGrows(k, n - 1); } else { ShlPositive(k); }
  }

  lemma {:induction false} ShlPositive(k: nat)
    ensures Shl(k) > 0
  {
    if k > 0 { ShlPositive(k - 1); }
  }

  lemma WordSize()
    ensures Shl(BITS_IN_WORD) == 0x1_0000_0000
  {
    assert Shl(8) == 256;
    assert Shl(16) == 0x1_0000;
    assert Shl(24) == 0x100_0000;
  }

  predicate WordBit(w: uint32, k: nat)
    requires k < BITS_IN_WORD
  {
    Digit(w as nat, k)
  }

  // w | (1 << i)
  function SetBit(w: uint32, i: nat): uint32
    requires i < BITS_IN_WORD
  {
    WordSize();
    ShlGrows(i, BITS_IN_WORD);
    OrFits(w as nat, Shl(i), BITS_IN_WORD);
    Or(w as nat, Shl(i)) as uint32
  }

  // w & ~(1 << i)
  function ResetBit(w: uint32, i: nat): uint32
    requires i < BITS_IN_WORD
  {
    AndNotShrinks(w as nat, Shl(i));
    AndNot(w as nat, Shl(i)) as uint32
  }

  // Setting or resetting one bit changes that bit of the word and no other.
  lemma OneBitChanges(w: uint32, i: nat, j: nat)
    requires i < BITS_IN_WORD && j < BITS_IN_WORD
    ensures WordBit(SetBit(w, i), j) <==> WordBit(w, j) || i == j
    ensures WordBit(ResetBit(w, i), j) <==> WordBit(w, j) && i != j
  {
    DigitOfShl(i, j);
    DigitOfOr(w as nat, Shl(i), j);
    DigitOfAndNot(w as nat, Shl(i), j);
  }

  // The bits that a word array stands for.
  function Unpack(words: seq<uint32>, n: nat): seq<bool>
    requires n <= BITS_IN_WORD * |words|
  {
    seq(n, i requires 0 <= i < n => WordBit(words[i / BITS_IN_WORD], i % BITS_IN_WORD))
  }

  lemma UnpackChange(words: seq<uint32>, n: nat, k: nat, b: bool)
    requires n <= BITS_IN_WORD * |words| && k < n
    ensures var q, r := k / BITS_IN_WORD, k % BITS_IN_WORD;
            Unpack(words[q := if b then SetBit(words[q], r) else ResetBit(words[q], r)], n) == Unpack(words, n)[k := b]
  {
    var q, r := k / BITS_IN_WORD, k % BITS_IN_WORD;
    var words' := words[q := if b then SetBit(words[q], r) else ResetBit(words[q], r)];
    forall i | 0 <= i < n
      ensures Unpack(words', n)[i] == Unpack(words, n)[k := b][i]
    {
      OneBitChanges(words[q], r, i % BITS_IN_WORD);
    }
  }

  lemma UnpackZeros(words: seq<uint32>, n: nat)
    requires n <= BITS_IN_WORD * |words|
    requires forall i :: 0 <= i < |words| ==> words[i] == 0
    ensures Unpack(words, n) == seq(n, i => false)
  {
    forall i | 0 <= i < n
      ensures !Unpack(words, n)[i]
    {
      DigitOfZero(i % BITS_IN_WORD);
    }
  }

  // ---------------------------------------------------------------------
  // What the operations compute, on plain bits

  function FirstClear(bits: seq<bool>): (r: int)
    ensures -1 <= r < |bits|
    ensures r == -1 ==> forall j :: 0 <= j < |bits| ==> bits[j]
    ensures r >= 0 ==> !bits[r] && forall j :: 0 <= j < r ==> bits[j]
  {
    if bits == [] then -1
    else
      var r := FirstClear(bits[..|bits| - 1]);
      if r >= 0 then r else if bits[|bits| - 1] then -1 else |bits| - 1
  }

  function CountClear(bits: seq<bool>): nat {
    if bits == [] then 0
    else CountClear(bits[..|bits| - 1]) + if bits[|bits| - 1] then 0 else 1
  }

  // n times FindAndSet: the bits found, and the bits afterwards.
  function TakeClear(bits: seq<bool>, n: nat): (seq<int>, seq<bool>)
    decreases n
  {
    if n == 0 then ([], bits)
    else
      var (found, bits') := TakeClear(bits, n - 1);
      var r := FirstClear(bits');
      (found + [r], if r >= 0 then bits'[r := true] else bits')
  }

  function MarkAll(bits: seq<bool>, which: seq<int>): seq<bool> {
    seq(|bits|, i requires 0 <= i < |bits| => bits[i] || i in which)
  }

  function ClearAll(bits: seq<bool>, which: seq<int>): seq<bool> {
    seq(|bits|, i requires 0 <= i < |bits| => bits[i] && i !in which)
  }

  lemma {:induction false} CountAfterSet(bits: seq<bool>, k: nat)
    requires k < |bits| && !bits[k]
    ensures CountClear(bits[k := true]) == CountClear(bits) - 1
  {
    var n := |bits| - 1;
    if k == n {
      assert bits[k := true][..n] == bits[..n];
    } else {
      CountAfterSet(bits[..n], k);
      assert bits[k := true][..n] == bits[..n][k := true];
    }
  }

  lemma {:induction false} CountZeroWhenFull(bits: seq<bool>)
    ensures CountClear(bits) == 0 <==> FirstClear(bits) == -1
  {
    if bits != [] {
      CountZeroWhenFull(bits[..|bits| - 1]);
    }
  }

  lemma {:induction false} CountAllClear(n: nat)
    ensures CountClear(seq(n, i => false)) == n
  {
    if n > 0 {
      CountAllClear(n - 1);
      assert seq(n, i => false)[..n - 1] == seq(n - 1, i => false);
    }
  }

  lemma OneMore(bits: seq<bool>, found: seq<int>, r: int)
    requires 0 <= r < |bits| && !MarkAll(bits, found)[r] && NoDup(found)
    ensures MarkAll(bits, found + [r]) == MarkAll(bits, found)[r := true]
    ensures NoDup(found + [r]) && !bits[r]
  {
  }

  // As many FindAndSets as there are clear bits succeed: they deliver distinct clear bits,
  // mark exactly those, and use up that much of the free count.
  lemma {:induction false} TakeClearWorks(bits: seq<bool>, n: nat)
    requires n <= CountClear(bits)
    ensures var (found, bits') := TakeClear(bits, n);
            && |found| == n && NoDup(found)
            && (forall i :: 0 <= i < n ==> 0 <= found[i] < |bits| && !bits[found[i]])
            && bits' == MarkAll(bits, found)
            && CountClear(bits') == CountClear(bits) - n
    decreases n
  {
    if n == 0 {
      assert MarkAll(bits, []) == bits;
    } else {
      TakeClearWorks(bits, n - 1);
      var (found, bits') := TakeClear(bits, n - 1);
      CountZeroWhenFull(bits');
      CountAfterSet(bits', FirstClear(bits'));
      OneMore(bits, found, FirstClear(bits'));
    }
  }

  // Allocating and freeing the same bits restores the map bit for bit.
  lemma ClearUndoesMark(bits: seq<bool>, which: seq<int>)
    requires forall i :: 0 <= i < |which| ==> 0 <= which[i] < |bits| && !bits[which[i]]
    ensures ClearAll(MarkAll(bits, which), which) == bits
  {
  }

  // ---------------------------------------------------------------------

  class Bitmap {
    const numBits: nat
    const words: array<uint32>

    ghost predicate Valid()
      reads this, words
    {
      numBits > 0 && words.Length == DivRoundUp(numBits, BITS_IN_WORD)
    }

    ghost function Contents(): seq<bool>
      requires Valid()
      reads this, words
    {
      Unpack(words[..], numBits)
    }

    constructor (numItems: nat)
      requires numItems > 0
      ensures Valid() && fresh(words)
      ensures numBits == numItems
      ensures Contents() == seq(numItems, i => false)
    {
      numBits := numItems;
      words := new uint32[DivRoundUp(numItems, BITS_IN_WORD)](i => 0);
      new;
      UnpackZeros(words[..], numBits);
      var i := 0;
      while i < numBits
        invariant 0 <= i <= numBits
        invariant Contents() == seq(numItems, i => false)
      {
        Clear(i);
        i := i + 1;
      }
    }

    method Mark(which: int)
      requires Valid() && 0 <= which < numBits
      modifies words
      ensures Contents() == old(Contents())[which := true]
    {
      ghost var was := words[..];
      words[which / BITS_IN_WORD] := SetBit(words[which / BITS_IN_WORD], which % BITS_IN_WORD);
      UnpackChange(was, numBits, which, true);
      assert words[..] == was[which / BITS_IN_WORD := words[which / BITS_IN_WORD]];
    }

    method Clear(which: int)
      requires Valid() && 0 <= which < numBits
      modifies words
      ensures Contents() == old(Contents())[which := false]
    {
      ghost var was := words[..];
      words[which / BITS_IN_WORD] := ResetBit(words[which / BITS_IN_WORD], which % BITS_IN_WORD);
      UnpackChange(was, numBits, which, false);
      assert words[..] == was[which / BITS_IN_WORD := words[which / BITS_IN_WORD]];
    }

    method Test(which: int) returns (marked: bool)
      requires Valid() && 0 <= which < numBits
      ensures marked == Contents()[which]
    {
      marked := WordBit(words[which / BITS_IN_WORD], which % BITS_IN_WORD);
    }

    method FindAndSet() returns (r: int)
      requires Valid()
      modifies words
      ensures r == FirstClear(old(Contents()))
      ensures Contents() == if r >= 0 then old(Contents())[r := true] else old(Contents())
    {
      var i := 0;
      while i < numBits
        invariant 0 <= i <= numBits
        invariant Contents() == old(Contents())
        invariant forall j :: 0 <= j < i ==> Contents()[j]
      {
        var marked := Test(i);
        if !marked {
          Mark(i);
          return i;
        }
        i := i + 1;
      }
      return -1;
    }

    method NumClear() returns (count: nat)
      requires Valid()
      ensures count == CountClear(Contents())
    {
      count := 0;
      var i := 0;
      while i < numBits
        invariant 0 <= i <= numBits
        invariant count == CountClear(Contents()[..i])
      {
        var marked := Test(i);
        assert Contents()[..i + 1][..i] == Contents()[..i];
        if !marked {
          count := count + 1;
        }
        i := i + 1;
      }
      assert Contents()[..numBits] == Contents();
    }
  }
}
