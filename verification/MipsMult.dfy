// Mult of machine/mipssim.cc: 32-bit shift-and-add multiplication.
module MipsMult {
  import opened Integers

  const WORD := 0x1_0000_0000
  const DOUBLE := 0x1_0000_0000_0000_0000

  // The cast between int and unsigned int keeps the 32 bits.
  function ToUnsigned(x: int32): (u: uint32)
    ensures u as int == x as int || u as int == x as int + WORD
  {
    if x < 0 then (x as int + WORD) as uint32 else x as uint32
  }

  function ToSigned(u: uint32): (x: int32)
    ensures ToUnsigned(x) == u
  {
    if u < 0x8000_0000 then u as int32 else (u as int - WORD) as int32
  }

  // Two's complement negation, which leaves the least integer as it is.
  function Negate(x: int32): int32 {
    if x == -0x8000_0000 then x else -x
  }

  function Wrap(x: int): uint32
    requires 0 <= x < 2 * WORD
  {
    if x < WORD then x as uint32 else (x - WORD) as uint32
  }

  function Add(x: uint32, y: uint32): uint32 {
    Wrap(x as int + y as int)
  }

  function Pair(hi: uint32, lo: uint32): int {
    hi as int * WORD + lo as int
  }

  // The bits of a register pair, as the instructions MFHI and MFLO deliver them.
  function Bits(hi: int32, lo: int32): int {
    Pair(ToUnsigned(hi), ToUnsigned(lo))
  }

  // 64-bit addition in two halves: the carry out of the low words is seen by comparing.
  function AddPair(hi: uint32, lo: uint32, bHi: uint32, bLo: uint32): (r: (uint32, uint32))
    ensures var sum := Pair(hi, lo) + Pair(bHi, bLo);
            Pair(r.0, r.1) == if sum < DOUBLE then sum else sum - DOUBLE
  {
    var lo' := Add(lo, bLo);
    var hi' := if lo' < bLo then Add(hi, 1) else hi;
    (Add(hi', bHi), lo')
  }

  function Double(hi: uint32, lo: uint32): (r: (uint32, uint32))
    ensures var twice := 2 * Pair(hi, lo);
            Pair(r.0, r.1) == if twice < DOUBLE then twice else twice - DOUBLE
  {
    var hi' := Wrap(2 * hi as int);
    var hi'' := if lo >= 0x8000_0000 then hi' + 1 else hi';
    (hi'', Wrap(2 * lo as int))
  }

  // 64-bit two's complement: complement both halves and add one.
  function NegatePair(hi: uint32, lo: uint32): (r: (uint32, uint32))
    ensures Pair(r.0, r.1) == if Pair(hi, lo) == 0 then 0 else DOUBLE - Pair(hi, lo)
  {
    var hi' := 0xffff_ffff - hi;
    var lo' := Add(0xffff_ffff - lo, 1);
    (if lo' == 0 then Add(hi', 1) else hi', lo')
  }

  // What remains to be done in n more rounds of the loop: use the low bit of a, stop early
  // if it was the last one set, double b, shift a.  The shift is arithmetic, so it is a
  // division that rounds down, and a keeps its sign.
  function Rounds(a: int32, bHi: uint32, bLo: uint32, hi: uint32, lo: uint32, n: nat): (uint32, uint32)
    decreases n
  {
    if n == 0 then (hi, lo) else
    var (hi', lo') := if a % 2 == 1 then AddPair(hi, lo, bHi, bLo) else (hi, lo);
    if a == 1 then (hi', lo') else
    var (bHi', bLo') := Double(bHi, bLo);
    Rounds(a / 2, bHi', bLo', hi', lo', n - 1)
  }

  // The same sum over unbounded integers, and its largest summand.
  ghost function Sum(a: int, b: nat, n: nat): nat
    decreases n
  {
    if n == 0 then 0 else (if a % 2 == 1 then b else 0) + Sum(a / 2, 2 * b, n - 1)
  }

  ghost function Shifted(b: nat, n: nat): nat
    decreases n
  {
    if n == 0 then b else Shifted(2 * b, n - 1)
  }

  lemma {:induction false} ShiftedGrows(b: nat, n: nat)
    ensures b <= Shifted(b, n)
    decreases n
  {
    if n > 0 { ShiftedGrows(2 * b, n - 1); }
  }

  lemma {:induction false} SumOfZero(b: nat, n: nat)
    ensures Sum(0, b, n) == 0
    decreases n
  {
    if n > 0 { SumOfZero(2 * b, n - 1); }
  }

  // In 64 bits nothing is lost: the loop, early exit included, adds up the shifted copies of b.
  lemma {:induction false} RoundsAddUp(a: int32, bHi: uint32, bLo: uint32, hi: uint32, lo: uint32, n: nat)
    requires Shifted(Pair(bHi, bLo), n) < DOUBLE
    requires Pair(hi, lo) + Shifted(Pair(bHi, bLo), n) - Pair(bHi, bLo) < DOUBLE
    ensures var (h, l) := Rounds(a, bHi, bLo, hi, lo, n);
            Pair(h, l) == Pair(hi, lo) + Sum(a as int, Pair(bHi, bLo), n)
    decreases n
  {
    if n > 0 {
      var b := Pair(bHi, bLo);
      ShiftedGrows(2 * b, n - 1);
      var (hi', lo') := if a % 2 == 1 then AddPair(hi, lo, bHi, bLo) else (hi, lo);
      var (bHi', bLo') := Double(bHi, bLo);
      if a == 1 {
        SumOfZero(2 * b, n - 1);
      } else {
        RoundsAddUp(a / 2, bHi', bLo', hi', lo', n - 1);
      }
    }
  }

  // Summing all n bits of a and then what is left of a, shifted, gives a * b.
  ghost function Rest(a: int, n: nat): int
    decreases n
  {
    if n == 0 then a else Rest(a / 2, n - 1)
  }

  lemma {:induction false} SumIsProduct(a: int, b: nat, n: nat)
    ensures Sum(a, b, n) == a * b - Rest(a, n) * Shifted(b, n)
    decreases n
  {
    if n > 0 {
      SumIsProduct(a / 2, 2 * b, n - 1);
      Halve(a, b);
    }
  }

  lemma Halve(a: int, b: int)
    ensures a * b == (if a % 2 == 1 then b else 0) + (a / 2) * (2 * b)
  {
    var h := a / 2;
    assert a == a % 2 + 2 * h;
    assert (2 * h) * b == h * (2 * b);
    assert (a % 2 + 2 * h) * b == (a % 2) * b + (2 * h) * b;
  }

  lemma Shifted8(b: nat, n: nat)
    requires n >= 8
    ensures Shifted(b, n) == Shifted(256 * b, n - 8)
  {
    assert Shifted(b, n) == Shifted(4 * b, n - 2);
    assert Shifted(4 * b, n - 2) == Shifted(16 * b, n - 4);
    assert Shifted(16 * b, n - 4) == Shifted(64 * b, n - 6);
  }

  lemma Shifted32(b: nat)
    ensures Shifted(b, 32) == WORD * b
  {
    Shifted8(b, 32);
    var b1 := 256 * b;
    Shifted8(b1, 24);
    var b2 := 256 * b1;
    Shifted8(b2, 16);
    var b3 := 256 * b2;
    Shifted8(b3, 8);
    assert Shifted(256 * b3, 0) == 256 * b3;
  }

  lemma Rest8(a: int, n: nat)
    requires n >= 8
    ensures Rest(a, n) == Rest(a / 256, n - 8)
  {
    assert Rest(a, n) == Rest(a / 4, n - 2);
    assert Rest(a / 4, n - 2) == Rest(a / 16, n - 4);
    assert Rest(a / 16, n - 4) == Rest(a / 64, n - 6);
  }

  // After 32 arithmetic shifts only the sign is left.
  lemma Rest32(a: int32)
    ensures Rest(a as int, 32) == if a < 0 then -1 else 0
  {
    Rest8(a as int, 32);
    Rest8(a as int / 256, 24);
    Rest8(a as int / 256 / 256, 16);
    Rest8(a as int / 256 / 256 / 256, 8);
  }

  lemma SumIsUnsignedProduct(a: int32, b: uint32)
    ensures Sum(a as int, b as int, 32) == ToUnsigned(a) as int * b as int
  {
    SumIsProduct(a as int, b as int, 32);
    Shifted32(b as int);
    Rest32(a);
    assert (a as int + WORD) * b as int == a as int * b as int + WORD * b as int;
  }

  lemma RoundsMultiply(a: int32, b: uint32)
    ensures var (h, l) := Rounds(a, 0, b, 0, 0, 32); Pair(h, l) == ToUnsigned(a) as int * b as int
  {
    Shifted32(b as int);
    RoundsAddUp(a, 0, b, 0, 0, 32);
    SumIsUnsignedProduct(a, b);
  }

  // The loop of Mult.
  method MultLoop(a0: int32, b: uint32) returns (hi: uint32, lo: uint32)
    ensures (hi, lo) == Rounds(a0, 0, b, 0, 0, 32)
  {
    var a := a0;
    var bLo, bHi: uint32 := b, 0;
    lo, hi := 0, 0;
    var i := 0;
    while i < 32
      invariant 0 <= i <= 32
      invariant Rounds(a, bHi, bLo, hi, lo, 32 - i) == Rounds(a0, 0, b, 0, 0, 32)
    {
      if a % 2 == 1 {
        var (h, l) := AddPair(hi, lo, bHi, bLo);
        hi, lo := h, l;
        if a == 1 { break; }
      }
      var (h, l) := Double(bHi, bLo);
      bHi, bLo := h, l;
      a := a / 2;
      i := i + 1;
    }
  }

  // The 64-bit product of two words, read as signed or as unsigned.
  function Product(a: int32, b: int32, signedArith: bool): int {
    if signedArith then (a as int * b as int) % DOUBLE
    else ToUnsigned(a) as int * ToUnsigned(b) as int
  }

  function Magnitude(x: int32): uint32 {
    ToUnsigned(if x < 0 then Negate(x) else x)
  }

  lemma SignedProduct(a: int32, b: int32, u: int)
    requires u == Magnitude(a) as int * Magnitude(b) as int && 0 <= u < DOUBLE
    ensures Product(a, b, true) == if (a < 0) == (b < 0) || u == 0 then u else DOUBLE - u
  {
    var x, y := a as int, b as int;
    assert x * y == (-x) * (-y);
    assert x * (-y) == -(x * y) == (-x) * y;
  }

  // MULT and MULTU: the register pair holds the product modulo 2^64; no operand is excluded.
  method Mult(a: int32, b: int32, signedArith: bool) returns (hi: int32, lo: int32)
    ensures Bits(hi, lo) == Product(a, b, signedArith)
  {
    if a == 0 || b == 0 {
      return 0, 0;
    }
    var negative := false;
    var x, y := a, b;
    if signedArith {
      if x < 0 {
        negative := !negative;
        x := Negate(x);
      }
      if y < 0 {
        negative := !negative;
        y := Negate(y);
      }
    }
    var h, l := MultLoop(x, ToUnsigned(y));
    RoundsMultiply(x, ToUnsigned(y));
    ghost var u := Pair(h, l);
    if signedArith {
      SignedProduct(a, b, u);
    }
    if negative {
      var (h', l') := NegatePair(h, l);
      h, l := h', l';
    }
    hi, lo := ToSigned(h), ToSigned(l);
  }
}
