/** code/userprog/bitmap.cc: a bitmap packed into 32-bit words. */
module BitMaps {
  import opened Bits

  /** Bit i of a packed word array. */
  ghost predicate TestBit(words: seq<word>, i: nat)
    requires i / WORD_BITS < |words|
  {
    Bit(words[i / WORD_BITS], i % WORD_BITS)
  }

  /** The set of marked items of a packed array of n bits. */
  ghost function MarkedIn(words: seq<word>, n: nat): (s: set<nat>)
    requires |words| == WordsFor(n)
  {
    set i: nat | i < n && TestBit(words, i)
  }

  /** Changing bit `which` alone, to b, changes that item alone. */
  lemma OneItem(words: seq<word>, n: nat, which: nat, x: word, b: bool)
    requires |words| == WordsFor(n) && which < n
    requires forall j :: 0 <= j < WORD_BITS ==>
      (Bit(x, j) <==> if j == which % WORD_BITS then b else Bit(words[which / WORD_BITS], j))
    ensures MarkedIn(words[which / WORD_BITS := x], n)
         == if b then MarkedIn(words, n) + {which} else MarkedIn(words, n) - {which}
  {
    var words' := words[which / WORD_BITS := x];
    forall i: nat | i < n ensures TestBit(words', i) <==> if i == which then b else TestBit(words, i) {
      if i / WORD_BITS == which / WORD_BITS && i % WORD_BITS == which % WORD_BITS {
        assert i == which;
      }
    }
  }

  /** The items below i that are clear. */
  ghost function ClearBelow(marked: set<nat>, i: nat): (s: set<nat>) {
    set j: nat | j < i && j !in marked
  }

  function WordsFor(n: nat): nat { (n + WORD_BITS - 1) / WORD_BITS }

  class BitMap {
    const numBits: nat
    const words: array<word>

    ghost predicate Valid() {
      words.Length == WordsFor(numBits)
    }

    /** The abstract value: which items are in use. */
    ghost function Marked(): set<nat>
      requires Valid()
      reads words
    {
      MarkedIn(words[..], numBits)
    }

    constructor (n: nat)
      ensures Valid() && fresh(words) && numBits == n
      ensures Marked() == {}
    {
      numBits := n;
      words := new word[WordsFor(n)];
      new;
      for i := 0 to n
        invariant forall j: nat :: j < i ==> !TestBit(words[..], j)
      {
        Clear(i);
        assert forall j: nat :: j < n ==> (TestBit(words[..], j) <==> j in Marked());
      }
    }

    method Mark(which: nat)
      requires Valid() && which < numBits
      modifies words
      ensures Marked() == old(Marked()) + {which}
    {
      var w, k := which / WORD_BITS, which % WORD_BITS;
      SetBit(words[w], k);
      OneItem(words[..], numBits, which, Or(words[w], Pow2(k)), true);
      words[w] := Or(words[w], Pow2(k));
    }

    method Clear(which: nat)
      requires Valid() && which < numBits
      modifies words
      ensures Marked() == old(Marked()) - {which}
    {
      var w, k := which / WORD_BITS, which % WORD_BITS;
      ClearBit(words[w], k);
      OneItem(words[..], numBits, which, And(words[w], Not(WORD_BITS, Pow2(k))), false);
      words[w] := And(words[w], Not(WORD_BITS, Pow2(k)));
    }

    method Test(which: nat) returns (b: bool)
      requires Valid() && which < numBits
      ensures b <==> which in Marked()
    {
      var w, k := which / WORD_BITS, which % WORD_BITS;
      MaskTest(words[w], k);
      b := And(words[w], Pow2(k)) != 0;
    }

    /** First fit: the least clear item, which is then marked; -1 if there is none. */
    method Find() returns (r: int)
      requires Valid()
      modifies words
      ensures r == -1 ==> (forall i: nat :: i < numBits ==> i in old(Marked())) && Marked() == old(Marked())
      ensures r != -1 ==> 0 <= r < numBits && r !in old(Marked()) && Marked() == old(Marked()) + {r}
      ensures r != -1 ==> forall i: nat :: i < r ==> i in old(Marked())
    {
      for i := 0 to numBits
        invariant forall j: nat :: j < i ==> j in Marked()
        invariant Marked() == old(Marked())
      {
        var b := Test(i);
        if !b {
          Mark(i);
          return i;
        }
      }
      return -1;
    }

    method NumClear() returns (count: nat)
      requires Valid()
      ensures count == |ClearBelow(Marked(), numBits)|
    {
      count := 0;
      assert ClearBelow(Marked(), 0) == {};
      for i := 0 to numBits
        invariant count == |ClearBelow(Marked(), i)|
      {
        var b := Test(i);
        if b {
          assert ClearBelow(Marked(), i + 1) == ClearBelow(Marked(), i);
        } else {
          assert ClearBelow(Marked(), i + 1) == ClearBelow(Marked(), i) + {i};
          count := count + 1;
        }
      }
    }
  }
}
