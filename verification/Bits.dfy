/** Bitwise operators on the naturals, for the word-packed structures of the kernel.
    A 32-bit word is a natural below WORD_RANGE. */
module Bits {

  const WORD_BITS: nat := 32
  const WORD_RANGE: nat := 0x1_0000_0000   // 2 to the 32

  type word = w: nat | w < WORD_RANGE witness 0

  function Pow2(n: nat): (r: nat)
    ensures r >= 1
  {
    if n == 0 then 1 else 2 * Pow2(n - 1)
  }

  /** Bit k of w. */
  predicate Bit(w: nat, k: nat) {
    if k == 0 then w % 2 == 1 else Bit(w / 2, k - 1)
  }

  /** The operator `|`. */
  function Or(a: nat, b: nat): nat
    decreases a + b
  {
    if a == 0 && b == 0 then 0
    else (if a % 2 == 1 || b % 2 == 1 then 1 else 0) + 2 * Or(a / 2, b / 2)
  }

  /** The operator `&`. */
  function And(a: nat, b: nat): nat {
    if a == 0 || b == 0 then 0
    else (if a % 2 == 1 && b % 2 == 1 then 1 else 0) + 2 * And(a / 2, b / 2)
  }

  /** The operator `^`. */
  function Xor(a: nat, b: nat): nat
    decreases a + b
  {
    if a == 0 && b == 0 then 0
    else (if a % 2 != b % 2 then 1 else 0) + 2 * Xor(a / 2, b / 2)
  }

  /** The operator `~` on an n-bit word. */
  function Not(n: nat, b: nat): nat
    requires b < Pow2(n)
  {
    Pow2(n) - 1 - b
  }

  lemma {:induction false} OrBits(a: nat, b: nat, k: nat)
    ensures Bit(Or(a, b), k) <==> Bit(a, k) || Bit(b, k)
    decreases k
  {
    if a == 0 && b == 0 {
      ZeroBits(k);
    } else if k > 0 {
      OrBits(a / 2, b / 2, k - 1);
    }
  }

  lemma {:induction false} AndBits(a: nat, b: nat, k: nat)
    ensures Bit(And(a, b), k) <==> Bit(a, k) && Bit(b, k)
    decreases k
  {
    if a == 0 || b == 0 {
      ZeroBits(k);
    } else if k > 0 {
      AndBits(a / 2, b / 2, k - 1);
    }
  }

  lemma {:induction false} NotBits(n: nat, b: nat, k: nat)
    requires b < Pow2(n) && k < n
    ensures Bit(Not(n, b), k) <==> !Bit(b, k)
  {
    if k > 0 {
      assert (Pow2(n) - 1 - b) / 2 == Pow2(n - 1) - 1 - b / 2;
      NotBits(n - 1, b / 2, k - 1);
    }
  }

  lemma {:induction false} Pow2Bits(j: nat, k: nat)
    ensures Bit(Pow2(j), k) <==> j == k
  {
    if j == 0 && k > 0 {
      ZeroBits(k - 1);
    } else if j > 0 && k > 0 {
      Pow2Bits(j - 1, k - 1);
    }
  }

  lemma {:induction false} ZeroBits(k: nat)
    ensures !Bit(0, k)
  {
    if k > 0 { ZeroBits(k - 1); }
  }

  /** Masking with a single bit is the bit test of the source, `w & (1 << k)`. */
  lemma {:induction false} MaskTest(w: nat, k: nat)
    ensures And(w, Pow2(k)) != 0 <==> Bit(w, k)
  {
    if w == 0 {
      ZeroBits(k);
    } else if k > 0 {
      MaskTest(w / 2, k - 1);
    } else {
      assert And(w / 2, 0) == 0;
    }
  }

  /** `|`, `&` and `^` keep words within n bits. */
  lemma {:induction false} WordBound(n: nat, a: nat, b: nat)
    requires a < Pow2(n) && b < Pow2(n)
    ensures Or(a, b) < Pow2(n) && And(a, b) < Pow2(n) && Xor(a, b) < Pow2(n)
  {
    if n > 0 { WordBound(n - 1, a / 2, b / 2); }
  }

  lemma {:induction false} Pow2Monotone(j: nat, n: nat)
    requires j < n
    ensures Pow2(j) < Pow2(n)
  {
    if j < n - 1 { Pow2Monotone(j, n - 1); }
  }

  lemma WordRange()
    ensures Pow2(WORD_BITS) == WORD_RANGE
  {
    assert Pow2(8) == 256;
    assert Pow2(16) == 65536;
    assert Pow2(24) == 16777216;
  }

  lemma WordOps(a: nat, b: nat)
    requires a < WORD_RANGE && b < WORD_RANGE
    ensures Or(a, b) < WORD_RANGE && And(a, b) < WORD_RANGE && Xor(a, b) < WORD_RANGE
  {
    WordRange();
    WordBound(WORD_BITS, a, b);
  }

  /** Setting bit k (`w |= 1 << k`) changes bit k and no other. */
  lemma SetBit(w: nat, k: nat)
    requires w < WORD_RANGE && k < WORD_BITS
    ensures Or(w, Pow2(k)) < WORD_RANGE
    ensures forall j: nat :: Bit(Or(w, Pow2(k)), j) <==> j == k || Bit(w, j)
  {
    WordRange();
    Pow2Monotone(k, WORD_BITS);
    WordBound(WORD_BITS, w, Pow2(k));
    forall j: nat
      ensures Bit(Or(w, Pow2(k)), j) <==> j == k || Bit(w, j)
    {
      OrBits(w, Pow2(k), j);
      Pow2Bits(k, j);
    }
  }

  /** Clearing bit k (`w &= ~(1 << k)`) changes bit k and no other. */
  lemma ClearBit(w: nat, k: nat)
    requires w < WORD_RANGE && k < WORD_BITS
    ensures Pow2(k) < Pow2(WORD_BITS)
    ensures And(w, Not(WORD_BITS, Pow2(k))) < WORD_RANGE
    ensures forall j: nat :: j < WORD_BITS ==>
      (Bit(And(w, Not(WORD_BITS, Pow2(k))), j) <==> j != k && Bit(w, j))
  {
    WordRange();
    Pow2Monotone(k, WORD_BITS);
    var m := Not(WORD_BITS, Pow2(k));
    WordBound(WORD_BITS, w, m);
    forall j: nat | j < WORD_BITS
      ensures Bit(And(w, m), j) <==> j != k && Bit(w, j)
    {
      AndBits(w, m, j);
      NotBits(WORD_BITS, Pow2(k), j);
      Pow2Bits(k, j);
    }
  }

  // ---- Algebra -------------------------------------------------------------

  lemma {:induction false} XorBits(a: nat, b: nat, k: nat)
    ensures Bit(Xor(a, b), k) <==> Bit(a, k) != Bit(b, k)
  {
    if a == 0 && b == 0 {
      ZeroBits(k);
    } else if k > 0 {
      assert Xor(a, b) / 2 == Xor(a / 2, b / 2);
      XorBits(a / 2, b / 2, k - 1);
    } else {
      assert Xor(a, b) % 2 == if a % 2 != b % 2 then 1 else 0;
    }
  }

  lemma {:induction false} TopBit(w: nat, k: nat)
    requires w < 2 * Pow2(k)
    ensures Bit(w, k) <==> w >= Pow2(k)
  {
    if k > 0 { TopBit(w / 2, k - 1); }
  }

  /** The sign of `a ^ b`. */
  lemma {:induction false} XorSign(a: word, b: word)
    ensures Xor(a, b) < WORD_RANGE
    ensures Xor(a, b) >= 0x8000_0000 <==> (a >= 0x8000_0000) != (b >= 0x8000_0000)
  {
    WordOps(a, b);
    XorBits(a, b, 31);
    HalfWord();
    TopBit(a, 31);
    TopBit(b, 31);
    TopBit(Xor(a, b), 31);
  }

  lemma {:induction false} HalfWord()
    ensures Pow2(31) == 0x8000_0000
  {
    assert Pow2(8) == 256;
    assert Pow2(16) == 65536;
    assert Pow2(24) == 16777216;
  }

  lemma {:induction false} XorSelf(a: nat)
    ensures Xor(a, a) == 0
  {
    if a > 0 { XorSelf(a / 2); }
  }

  lemma {:induction false} XorZero(a: nat)
    ensures Xor(a, 0) == a && Xor(0, a) == a
  {
    if a > 0 { XorZero(a / 2); }
  }

  lemma {:induction false} AndSelf(a: nat)
    ensures And(a, a) == a
  {
    if a > 0 { AndSelf(a / 2); }
  }

  lemma {:induction false} AndBelow(a: nat, b: nat)
    ensures And(a, b) <= a && And(a, b) <= b
  {
    if a > 0 && b > 0 { AndBelow(a / 2, b / 2); }
  }

  lemma {:induction false} OrSelf(a: nat)
    ensures Or(a, a) == a
  {
    if a > 0 { OrSelf(a / 2); }
  }

  lemma {:induction false} OrZero(a: nat)
    ensures Or(a, 0) == a && Or(0, a) == a
  {
    if a > 0 { OrZero(a / 2); }
  }

  lemma {:induction false} OrAbove(a: nat, b: nat)
    ensures Or(a, b) >= a && Or(a, b) >= b
  {
    if a > 0 || b > 0 { OrAbove(a / 2, b / 2); }
  }

  /** Bit k is the k-th binary digit. */
  lemma {:induction false} BitIsDigit(w: nat, k: nat)
    ensures Bit(w, k) <==> w / Pow2(k) % 2 == 1
  {
    if k > 0 {
      BitIsDigit(w / 2, k - 1);
      DivideTwice(w, Pow2(k - 1));
    }
  }

  lemma {:induction false} DivideTwice(w: nat, p: nat)
    requires p > 0
    ensures w / 2 / p == w / (2 * p)
  {
    DivideBoth(w, 2, p);
  }

  lemma {:induction false} DivideBoth(w: nat, a: nat, p: nat)
    requires a > 0 && p > 0
    ensures a * p > 0 && w / a / p == w / (a * p)
  {
    var q, r, s := w / a / p, w / a % p, w % a;
    assert w / a == q * p + r;
    assert w == a * (q * p + r) + s;
    Regroup(a, q, p, r);
    QuotientUnique(w, q, a * p, a * r + s);
  }

  lemma {:induction false} Regroup(a: nat, q: nat, p: nat, r: nat)
    requires r < p
    ensures a * (q * p + r) == q * (a * p) + a * r && a * r + a <= a * p
  {
    Distribute(a, q * p, r);
    MoveFactor(a, q, p);
    Distribute(a, r, p - r);
    Distribute(a, p - r - 1, 1);
  }

  lemma {:induction false} Distribute(a: nat, x: nat, y: nat)
    ensures a * (x + y) == a * x + a * y
  {}

  lemma {:induction false} MoveFactor(a: nat, q: nat, p: nat)
    ensures a * (q * p) == q * (a * p)
  {}

  lemma {:induction false} QuotientUnique(w: nat, q: nat, p: nat, r: nat)
    requires r < p && w == q * p + r
    ensures w / p == q && w % p == r
  {
    var d := w / p - q;
    assert d * p == r - w % p;
    assert d >= 1 ==> d * p >= p;
    assert d <= -1 ==> d * p + p <= 0;
  }

  /** The low n bits. */
  lemma {:induction false} ModBits(x: nat, n: nat, j: nat)
    ensures Bit(x % Pow2(n), j) <==> j < n && Bit(x, j)
  {
    if n == 0 {
      ZeroBits(j);
    } else {
      var p := Pow2(n - 1);
      var q, r := x / 2 / p, x / 2 % p;
      assert x == 2 * (q * p + r) + x % 2;
      assert q * (2 * p) == 2 * (q * p);
      QuotientUnique(x, q, 2 * p, 2 * r + x % 2);
      if j > 0 { ModBits(x / 2, n - 1, j - 1); }
    }
  }

  /** x without its low n bits, and h with n zero bits below. */
  function Down(x: nat, n: nat): nat { if n == 0 then x else Down(x / 2, n - 1) }

  function Up(h: nat, n: nat): nat { if n == 0 then h else 2 * Up(h, n - 1) }

  lemma {:induction false} DownIs(x: nat, n: nat)
    ensures Down(x, n) == x / Pow2(n)
  {
    if n > 0 {
      DownIs(x / 2, n - 1);
      DivideTwice(x, Pow2(n - 1));
    }
  }

  lemma {:induction false} UpIs(h: nat, n: nat)
    ensures Up(h, n) == h * Pow2(n)
  {
    if n > 0 {
      UpIs(h, n - 1);
      assert h * (2 * Pow2(n - 1)) == 2 * (h * Pow2(n - 1));
    }
  }

  /** Masking out the low n bits. */
  lemma {:induction false} AndHigh(x: nat, h: nat, n: nat)
    ensures And(x, Up(h, n)) == Up(And(Down(x, n), h), n)
  {
    if n > 0 {
      AndHigh(x / 2, h, n - 1);
      AndEven(x, Up(h, n - 1));
    }
  }

  lemma {:induction false} AndEven(x: nat, y: nat)
    ensures And(x, 2 * y) == 2 * And(x / 2, y)
  {}

  lemma {:induction false} AndOnes(x: nat, n: nat)
    requires x < Pow2(n)
    ensures And(x, Pow2(n) - 1) == x
  {
    if n > 0 && x > 0 {
      AndOnes(x / 2, n - 1);
      assert (Pow2(n) - 1) / 2 == Pow2(n - 1) - 1 && (Pow2(n) - 1) % 2 == 1;
    }
  }

  /** Numbers without a bit in common. */
  lemma {:induction false} OrDisjoint(h: nat, n: nat, l: nat)
    requires l < Pow2(n)
    ensures Or(Up(h, n), l) == Up(h, n) + l == Or(l, Up(h, n))
  {
    if n == 0 {
      OrZero(h);
    } else {
      OrDisjoint(h, n - 1, l / 2);
      OrEven(Up(h, n - 1), l);
    }
  }

  lemma {:induction false} OrEven(x: nat, y: nat)
    ensures Or(2 * x, y) == 2 * Or(x, y / 2) + y % 2
    ensures Or(y, 2 * x) == 2 * Or(y / 2, x) + y % 2
  {}
}
