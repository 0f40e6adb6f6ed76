/** Mult (code/machine/mipssim.cc): the R2000's MULT and MULTU by 32 rounds of shift and add
    on 32-bit words. C int and unsigned arithmetic is written out modulo 2 to the 32. */
module Multiplier {
  import Bits

  const W: nat := 0x1_0000_0000

  type uint = x: nat | x < W witness 0
  type sint = x: int | -0x8000_0000 <= x < 0x8000_0000

  /** The (unsigned) and (int) casts. */
  function Unsigned(x: sint): uint { if x < 0 then x + W else x }

  function Signed(x: uint): sint { if x >= 0x8000_0000 then x - W else x }

  /** -x on ints; -INT_MIN wraps to INT_MIN. */
  function Negate(x: sint): sint { if x == -0x8000_0000 then x else -x }

  /** Unsigned addition, with wrap-around. */
  function Add(a: uint, b: uint): uint { if a + b < W then a + b else a + b - W }

  /** The 64-bit number in a pair of words. */
  function Wide(hi: uint, lo: uint): nat { hi * W + lo }

  method Mult(a0: sint, b0: sint, signedArith: bool) returns (hi: sint, lo: sint)
    ensures signedArith ==> hi * W + Unsigned(lo) == a0 * b0
    ensures !signedArith ==> Wide(Unsigned(hi), Unsigned(lo)) == Unsigned(a0) * Unsigned(b0)
  {
    if a0 == 0 || b0 == 0 {
      return 0, 0;
    }
    var a, b := a0, b0;
    var negative := false;
    if signedArith {
      if a < 0 {
        negative := !negative;
        a := Negate(a);
      }
      if b < 0 {
        negative := !negative;
        b := Negate(b);
      }
    }
    var h, l := MultLoop(a, Unsigned(b));
    if negative {
      h, l := TwosComplement(h, l);
    }
    hi, lo := Signed(h), Signed(l);
    if signedArith {
      SignedResult(a0, b0, h, l);
    }
  }

  function Magnitude(x: int): nat { if x < 0 then -x else x }

  lemma ProductBound(x: nat, y: nat, m: nat)
    requires x <= m && y <= m
    ensures x * y <= m * m
  {
    assert x * y <= m * y <= m * m;
  }

  lemma SignedProduct(a: int, b: int)
    ensures a * b == if (a < 0) != (b < 0) then -(Magnitude(a) * Magnitude(b)) else Magnitude(a) * Magnitude(b)
  {}

  lemma SignedResult(a: sint, b: sint, h: uint, l: uint)
    requires a != 0 && b != 0
    requires var product := Magnitude(a) * Magnitude(b);
      Wide(h, l) == if (a < 0) != (b < 0) then W * W - product else product
    ensures Signed(h) * W + l == a * b
  {
    ProductBound(Magnitude(a), Magnitude(b), 0x8000_0000);
    SignedProduct(a, b);
  }

  /** hi = ~hi; lo = ~lo; lo++; if (lo == 0) hi++. */
  method TwosComplement(hi0: uint, lo0: uint) returns (hi: uint, lo: uint)
    requires Wide(hi0, lo0) > 0
    ensures Wide(hi, lo) == W * W - Wide(hi0, lo0)
  {
    hi, lo := W - 1 - hi0, W - 1 - lo0;
    lo := Add(lo, 1);
    if lo == 0 {
      hi := Add(hi, 1);
    }
  }

  /** lo += bLo, with the carry into hi, and hi += bHi. */
  method AddWide(hi0: uint, lo0: uint, bHi: uint, bLo: uint) returns (hi: uint, lo: uint)
    requires Wide(hi0, lo0) + Wide(bHi, bLo) < W * W
    ensures Wide(hi, lo) == Wide(hi0, lo0) + Wide(bHi, bLo)
  {
    hi, lo := hi0, Add(lo0, bLo);
    if lo < bLo {
      hi := Add(hi, 1);
    }
    hi := Add(hi, bHi);
  }

  /** bHi <<= 1; if (bLo & 0x80000000) bHi |= 1; bLo <<= 1. */
  method ShiftWide(bHi0: uint, bLo0: uint) returns (bHi: uint, bLo: uint)
    requires 2 * Wide(bHi0, bLo0) < W * W
    ensures Wide(bHi, bLo) == 2 * Wide(bHi0, bLo0)
  {
    bHi := Add(bHi0, bHi0);
    if bLo0 >= 0x8000_0000 {
      bHi := bHi + 1;
    }
    bLo := Add(bLo0, bLo0);
  }

  lemma Pow31()
    ensures Bits.Pow2(31) == 0x8000_0000
  {
    assert Bits.Pow2(8) == 256;
    assert Bits.Pow2(16) == 65536;
    assert Bits.Pow2(24) == 16777216;
  }

  lemma MoveFactor(x: nat, y: nat)
    ensures x * (2 * y) == (2 * x) * y
  {
    assert x * (2 * y) == 2 * (x * y);
  }

  lemma AtMostProduct(x: nat, y: nat)
    requires y > 0
    ensures x <= x * y
  {
    assert x * y == x + x * (y - 1);
  }

  lemma {:induction false} HalfRange(i: nat)
    requires i < 32
    ensures Bits.Pow2(i) * Bits.Pow2(31 - i) == 0x8000_0000
    ensures Bits.Pow2(i) <= 0x8000_0000
  {
    if i == 0 {
      Pow31();
    } else {
      HalfRange(i - 1);
      assert Bits.Pow2(32 - i) == 2 * Bits.Pow2(31 - i);
      MoveFactor(Bits.Pow2(i - 1), Bits.Pow2(31 - i));
      AtMostProduct(Bits.Pow2(i), Bits.Pow2(31 - i));
    }
  }

  /** An arithmetic shift right of twice `high` plus `rest`: the sign bit stays set. */
  lemma Halved(a: sint, high: nat, rest: nat)
    requires Unsigned(a) == 2 * high + rest
    ensures rest % 2 == a % 2
    ensures Unsigned(a / 2) == high + rest / 2 + if a < 0 then 0x8000_0000 else 0
  {
    if a < 0 {
      assert a == 2 * high + rest - W;
    }
  }

  lemma ThreeFactors(k: nat, m: nat)
    ensures k * (2 * m) == 2 * (k * m)
  {}

  lemma Distribute(k: nat, p: nat, m: nat)
    ensures (k + p) * m == k * m + p * m
  {}

  /** Shifting the multiplier right. Its low bits `rest` are what is still to be multiplied;
      above them, k multiples of 2m, are copies of the sign bit of the arithmetic shift. */
  lemma ShiftRight(a: sint, p: nat, m: nat, k: nat, rest: nat) returns (k': nat)
    requires p * m == 0x8000_0000 && rest < 2 * m && Unsigned(a) == k * (2 * m) + rest
    ensures rest % 2 == a % 2 && rest / 2 < m
    ensures Unsigned(a / 2) == k' * m + rest / 2
  {
    ThreeFactors(k, m);
    Halved(a, k * m, rest);
    k' := if a < 0 then k + p else k;
    Distribute(k, p, m);
  }

  /** Taking one bit off the multiplier adds it, times the shifted multiplicand. */
  lemma ProductStep(b: nat, rest: nat)
    ensures b * rest == (if rest % 2 == 1 then b else 0) + (2 * b) * (rest / 2)
    ensures (2 * b) * (rest / 2) >= 0
  {
    var r := rest / 2;
    assert rest == 2 * r + rest % 2;
    assert b * (2 * r) == (2 * b) * r;
  }

  /** One round of the loop. `done` is the early exit: the bit added was the last. */
  method Round(a0: sint, hi0: uint, lo0: uint, bHi0: uint, bLo0: uint,
               ghost p: nat, ghost m: nat, ghost k0: nat, ghost rest0: nat, ghost total: nat)
    returns (a: sint, hi: uint, lo: uint, bHi: uint, bLo: uint, done: bool, ghost k: nat, ghost rest: nat)
    requires p * m == 0x8000_0000 && p <= 0x8000_0000 && rest0 < 2 * m && Unsigned(a0) == k0 * (2 * m) + rest0
    requires Wide(bHi0, bLo0) <= (W - 1) * p && total < W * W
    requires Wide(hi0, lo0) + Wide(bHi0, bLo0) * rest0 == total
    ensures done ==> Wide(hi, lo) == total
    ensures !done ==>
      && rest < m && Unsigned(a) == k * m + rest
      && Wide(bHi, bLo) == 2 * Wide(bHi0, bLo0)
      && Wide(hi, lo) + Wide(bHi, bLo) * rest == total
  {
    a, hi, lo, bHi, bLo, done, rest := a0, hi0, lo0, bHi0, bLo0, false, rest0;
    k := ShiftRight(a0, p, m, k0, rest0);
    ProductStep(Wide(bHi0, bLo0), rest0);
    if a % 2 == 1 {
      hi, lo := AddWide(hi, lo, bHi, bLo);
      if Unsigned(a) / 2 == 0 {
        LastBit(k0, m, rest0);
        done := true;
        return;
      }
    }
    bHi, bLo := ShiftWide(bHi, bLo);
    a := a / 2;
    rest := rest0 / 2;
  }

  lemma LastBit(k: nat, m: nat, rest: nat)
    requires m > 0 && k * (2 * m) + rest == 1
    ensures rest / 2 == 0
  {
    assert k * (2 * m) >= 0;
  }

  /** After i rounds: the high part k of a is sign copies, `rest` are the bits still to be
      multiplied, b has been shifted i places, and what is added up so far misses the rest. */
  ghost predicate LoopInv(i: nat, a: sint, hi: uint, lo: uint, bHi: uint, bLo: uint, k: nat, rest: nat, total: nat) {
    && i <= 32 && rest < Bits.Pow2(32 - i) && Unsigned(a) == k * Bits.Pow2(32 - i) + rest
    && Wide(bHi, bLo) <= (W - 1) * Bits.Pow2(i)
    && Wide(hi, lo) + Wide(bHi, bLo) * rest == total < W * W
  }

  lemma NextRound(i: nat, a: sint, hi: uint, lo: uint, bHi: uint, bLo: uint, k: nat, rest: nat, total: nat,
                  a': sint, hi': uint, lo': uint, bHi': uint, bLo': uint, k': nat, rest': nat)
    requires i < 32 && LoopInv(i, a, hi, lo, bHi, bLo, k, rest, total)
    requires rest' < Bits.Pow2(31 - i) && Unsigned(a') == k' * Bits.Pow2(31 - i) + rest'
    requires Wide(bHi', bLo') == 2 * Wide(bHi, bLo) && Wide(hi', lo') + Wide(bHi', bLo') * rest' == total
    ensures LoopInv(i + 1, a', hi', lo', bHi', bLo', k', rest', total)
  {
    assert Bits.Pow2(i + 1) == 2 * Bits.Pow2(i);
  }

  /** Round number i. */
  method NumberedRound(ghost i: nat, a0: sint, hi0: uint, lo0: uint, bHi0: uint, bLo0: uint,
                       ghost k0: nat, ghost rest0: nat, ghost total: nat)
    returns (a: sint, hi: uint, lo: uint, bHi: uint, bLo: uint, done: bool, ghost k: nat, ghost rest: nat)
    requires i < 32 && LoopInv(i, a0, hi0, lo0, bHi0, bLo0, k0, rest0, total)
    ensures done ==> Wide(hi, lo) == total
    ensures !done ==> LoopInv(i + 1, a, hi, lo, bHi, bLo, k, rest, total)
  {
    HalfRange(i);
    assert Bits.Pow2(32 - i) == 2 * Bits.Pow2(31 - i);
    a, hi, lo, bHi, bLo, done, k, rest :=
      Round(a0, hi0, lo0, bHi0, bLo0, Bits.Pow2(i), Bits.Pow2(31 - i), k0, rest0, total);
    if !done {
      NextRound(i, a0, hi0, lo0, bHi0, bLo0, k0, rest0, total, a, hi, lo, bHi, bLo, k, rest);
    }
  }

  /** The main loop, including its early exit when no bits of a are left. */
  method MultLoop(a0: sint, b: uint) returns (hi: uint, lo: uint)
    requires a0 != 0
    ensures Wide(hi, lo) == Unsigned(a0) * b
  {
    var a, bLo, bHi := a0, b, 0;
    hi, lo := 0, 0;
    ghost var total: nat := Unsigned(a0) * b;
    ghost var rest: nat, k: nat := Unsigned(a0), 0;
    FirstRound(a0, b);
    for i := 0 to 32
      invariant LoopInv(i, a, hi, lo, bHi, bLo, k, rest, total)
    {
      var done;
      a, hi, lo, bHi, bLo, done, k, rest := NumberedRound(i, a, hi, lo, bHi, bLo, k, rest, total);
      if done {
        return;
      }
    }
    NoBitsLeft(Wide(bHi, bLo), rest);
  }

  lemma FirstRound(a0: sint, b: uint)
    ensures LoopInv(0, a0, 0, 0, 0, b, 0, Unsigned(a0), Unsigned(a0) * b)
  {
    HalfRange(0);
    ProductBound(Unsigned(a0), b, W - 1);
    assert Bits.Pow2(32) == 2 * Bits.Pow2(31);
    assert b * Unsigned(a0) == Unsigned(a0) * b;
  }

  lemma NoBitsLeft(b: nat, rest: nat)
    requires rest < Bits.Pow2(0)
    ensures b * rest == 0
  {}
}
