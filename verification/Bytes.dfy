/** Byte sequences: splicing, little-endian words, and division into equal blocks. */
module Bytes {

  type byte = b: int | 0 <= b < 256

  /** s with the run of elements starting at off replaced by data. */
  function Splice<T>(s: seq<T>, off: nat, data: seq<T>): (r: seq<T>)
    requires off + |data| <= |s|
    ensures |r| == |s|
    ensures forall i :: 0 <= i < |s| ==> r[i] == if off <= i < off + |data| then data[i - off] else s[i]
  {
    s[..off] + data + s[off + |data|..]
  }

  lemma SpliceWhole<T>(s: seq<T>, data: seq<T>)
    requires |data| == |s|
    ensures Splice(s, 0, data) == data
  {}

  function Zeros(n: nat): (r: seq<byte>)
    ensures |r| == n && forall i :: 0 <= i < n ==> r[i] == 0
  {
    seq(n, _ => 0)
  }

  /** The host's bcopy/bzero. */
  method CopyInto(dst: array<byte>, at: nat, src: seq<byte>)
    requires at + |src| <= dst.Length
    modifies dst
    ensures dst[..] == Splice(old(dst[..]), at, src)
  {
    for i := 0 to |src|
      invariant forall j :: 0 <= j < dst.Length ==>
        dst[j] == if at <= j < at + i then src[j - at] else old(dst[j])
    {
      dst[at + i] := src[i];
    }
  }

  // ---- Division into blocks of equal size -------------------------------

  lemma BlockBounds(i: nat, n: nat, size: nat)
    requires i < n
    ensures 0 <= i * size <= i * size + size <= n * size
  {
    assert (n - i - 1) * size >= 0;
    assert n * size == i * size + size + (n - i - 1) * size;
  }

  /** Block i of s. */
  function Block<T>(s: seq<T>, n: nat, size: nat, i: nat): (r: seq<T>)
    requires |s| == n * size && i < n
    ensures |r| == size
  {
    BlockBounds(i, n, size);
    s[i * size..i * size + size]
  }

  /** s cut into n blocks of the given size. */
  function Blocks<T>(s: seq<T>, n: nat, size: nat): (r: seq<seq<T>>)
    requires |s| == n * size
    ensures |r| == n && forall i :: 0 <= i < n ==> r[i] == Block(s, n, size, i) && |r[i]| == size
  {
    seq(n, i requires 0 <= i < n => Block(s, n, size, i))
  }

  lemma BlockSlice<T>(s: seq<T>, n: nat, size: nat, i: nat, off: nat, len: nat)
    requires |s| == n * size && i < n && off + len <= size
    ensures i * size + off + len <= |s|
    ensures Block(s, n, size, i)[off..off + len] == s[i * size + off..i * size + off + len]
  {
    BlockBounds(i, n, size);
    SliceOfSlice(s, i * size, i * size + size, off, len);
  }

  lemma SliceOfSlice<T>(s: seq<T>, i: nat, j: nat, off: nat, len: nat)
    requires i <= j <= |s| && off + len <= j - i
    ensures s[i..j][off..off + len] == s[i + off..i + off + len]
  {
    var a, b := s[i..j][off..off + len], s[i + off..i + off + len];
    assert |a| == |b| && forall k :: 0 <= k < |a| ==> a[k] == b[k];
  }

  /** A write inside block i is a write to that block and to no other. */
  lemma BlocksSplice<T>(s: seq<T>, n: nat, size: nat, i: nat, off: nat, data: seq<T>)
    requires |s| == n * size && i < n && off + |data| <= size
    ensures i * size + off + |data| <= |s|
    ensures Blocks(Splice(s, i * size + off, data), n, size)
         == Blocks(s, n, size)[i := Splice(Block(s, n, size, i), off, data)]
  {
    BlockBounds(i, n, size);
    var t := Splice(s, i * size + off, data);
    forall j | 0 <= j < n
      ensures Block(t, n, size, j) == if j == i then Splice(Block(s, n, size, i), off, data) else Block(s, n, size, j)
    {
      BlockBounds(j, n, size);
      if j < i {
        BlockBounds(j, i, size);
      } else if i < j {
        BlockBounds(i, j, size);
      }
    }
  }

  /** An address splits into a block number and an offset. */
  lemma AddressSplit(a: nat, n: nat, size: nat)
    requires 0 < size && a < n * size
    ensures a / size < n && a % size < size && a == (a / size) * size + a % size
  {
    var q := a / size;
    assert q * size <= a < n * size;
    assert (q - n) * size < 0;
  }

  lemma BlockAndOffset(a: nat, n: nat, size: nat) returns (p: nat, o: nat)
    requires 0 < size && a < n * size
    ensures p < n && o < size && a == p * size + o && o == a % size
  {
    AddressSplit(a, n, size);
    p, o := a / size, a % size;
  }

  /** A sequence is known when all its blocks are. */
  lemma {:induction false} BlocksDetermine<T>(s: seq<T>, t: seq<T>, n: nat, size: nat)
    requires |s| == n * size && |t| == n * size && size > 0
    requires forall i: nat :: i < n ==> Block(s, n, size, i) == Block(t, n, size, i)
    ensures s == t
  {
    forall a: nat | a < |s| ensures s[a] == t[a] {
      AddressSplit(a, n, size);
      AtBlock(s, n, size, a / size, a % size, a);
      AtBlock(t, n, size, a / size, a % size, a);
    }
  }

  lemma AtBlock<T>(s: seq<T>, n: nat, size: nat, i: nat, o: nat, a: nat)
    requires |s| == n * size && i < n && o < size && a == i * size + o
    ensures a < |s| && s[a] == Block(s, n, size, i)[o]
  {
    BlockBounds(i, n, size);
  }

  /** i * size, by repeated addition: the size of i blocks. */
  function Span(i: nat, size: nat): nat {
    if i == 0 then 0 else Span(i - 1, size) + size
  }

  lemma {:induction false} SpanIsProduct(i: nat, size: nat)
    ensures Span(i, size) == i * size
  {
    if i > 0 { SpanIsProduct(i - 1, size); }
  }

  lemma {:induction false} SpanAdd(i: nat, j: nat, size: nat)
    ensures Span(i + j, size) == Span(i, size) + Span(j, size)
    decreases j
  {
    if j > 0 { SpanAdd(i, j - 1, size); }
  }

  /** Larger block numbers start later. */
  lemma SpanMonotone(i: nat, j: nat, size: nat)
    requires i < j
    ensures Span(i, size) + size <= Span(j, size)
  {
    SpanAdd(i + 1, j - i - 1, size);
  }

  /** a / size, by repeated subtraction. */
  function BlockNumber(a: nat, size: nat): (q: nat)
    requires size > 0
    ensures Span(q, size) <= a < Span(q, size) + size
  {
    if a < size then 0 else 1 + BlockNumber(a - size, size)
  }

  lemma BlockNumberIsQuotient(a: nat, size: nat)
    requires size > 0
    ensures BlockNumber(a, size) == a / size
  {
    var q, d := BlockNumber(a, size), a / size;
    SpanIsProduct(q, size);
    SpanIsProduct(d, size);
    assert d * size <= a < d * size + size;
    if q < d {
      SpanMonotone(q, d, size);
    } else if d < q {
      SpanMonotone(d, q, size);
    }
  }

  ghost predicate AllOfSize<T>(blocks: seq<seq<T>>, size: nat) {
    forall i :: 0 <= i < |blocks| ==> |blocks[i]| == size
  }

  /** The blocks, one after the other. */
  function Concat<T>(blocks: seq<seq<T>>): seq<T> {
    if blocks == [] then [] else Concat(blocks[..|blocks| - 1]) + blocks[|blocks| - 1]
  }

  lemma {:induction false} ConcatLength<T>(blocks: seq<seq<T>>, size: nat)
    requires AllOfSize(blocks, size)
    ensures |Concat(blocks)| == Span(|blocks|, size)
  {
    if blocks != [] { ConcatLength(blocks[..|blocks| - 1], size); }
  }

  lemma {:induction false} ConcatAppend<T>(a: seq<seq<T>>, b: seq<seq<T>>)
    ensures Concat(a + b) == Concat(a) + Concat(b)
    decreases |b|
  {
    if b == [] {
      assert a + b == a;
    } else {
      var init := b[..|b| - 1];
      assert (a + b)[..|a + b| - 1] == a + init;
      ConcatAppend(a, init);
      assert Concat(a) + (Concat(init) + b[|b| - 1]) == Concat(a) + Concat(init) + b[|b| - 1];
    }
  }

  lemma ConcatCut<T>(blocks: seq<seq<T>>, size: nat, i: nat)
    requires AllOfSize(blocks, size) && i <= |blocks|
    ensures Concat(blocks) == Concat(blocks[..i]) + Concat(blocks[i..])
    ensures |Concat(blocks[..i])| == Span(i, size)
  {
    assert blocks == blocks[..i] + blocks[i..];
    ConcatAppend(blocks[..i], blocks[i..]);
    ConcatLength(blocks[..i], size);
  }

  /** Blocks i..j of a concatenation. */
  lemma ConcatSlice<T>(blocks: seq<seq<T>>, size: nat, i: nat, j: nat)
    requires AllOfSize(blocks, size) && i <= j <= |blocks|
    ensures Span(i, size) <= Span(j, size) <= |Concat(blocks)|
    ensures Concat(blocks)[Span(i, size)..Span(j, size)] == Concat(blocks[i..j])
    ensures Concat(blocks)[..Span(i, size)] == Concat(blocks[..i])
    ensures Concat(blocks)[Span(j, size)..] == Concat(blocks[j..])
  {
    ConcatCut(blocks, size, j);
    ConcatCut(blocks[..j], size, i);
    assert blocks[..j][..i] == blocks[..i] && blocks[..j][i..] == blocks[i..j];
  }

  /** Piece k of s, for pieces of the given size. */
  function Piece<T>(s: seq<T>, size: nat, n: nat, k: nat): (r: seq<T>)
    requires |s| == Span(n, size) && k < n
    ensures |r| == size
  {
    SpanMonotone(k, n, size);
    s[Span(k, size)..Span(k, size) + size]
  }

  /** The pieces of s, in order, concatenate to s. */
  lemma {:induction false} ConcatOfPieces<T>(blocks: seq<seq<T>>, s: seq<T>, size: nat)
    requires |s| == Span(|blocks|, size)
    requires forall k {:trigger blocks[k]} :: 0 <= k < |blocks| ==> blocks[k] == Piece(s, size, |blocks|, k)
    ensures Concat(blocks) == s
  {
    if blocks != [] {
      var n := |blocks| - 1;
      var init, s' := blocks[..n], s[..Span(n, size)];
      forall k | 0 <= k < |init|
        ensures init[k] == Piece(s', size, n, k)
      {
        assert init[k] == blocks[k];
        SpanMonotone(k, n, size);
      }
      ConcatOfPieces(init, s', size);
      assert blocks[n] == Piece(s, size, |blocks|, n);
    }
  }

  /** Replacing blocks i..j replaces that stretch of the concatenation. */
  lemma ConcatReplace<T>(b: seq<seq<T>>, b': seq<seq<T>>, size: nat, i: nat, j: nat)
    requires AllOfSize(b, size) && AllOfSize(b', size) && i <= j <= |b| == |b'|
    requires b'[..i] == b[..i] && b'[j..] == b[j..]
    ensures Span(i, size) <= Span(j, size) <= |Concat(b)|
    ensures Concat(b') == Concat(b)[..Span(i, size)] + Concat(b'[i..j]) + Concat(b)[Span(j, size)..]
  {
    ConcatSlice(b, size, i, j);
    ConcatSlice(b', size, i, j);
    CutTwice(Concat(b'), Span(i, size), Span(j, size));
  }

  lemma CutTwice<T>(s: seq<T>, x: nat, y: nat)
    requires x <= y <= |s|
    ensures s == s[..x] + s[x..y] + s[y..]
  {}

  /** Cutting a concatenation gives the blocks back. */
  lemma ConcatBlocks<T>(blocks: seq<seq<T>>, size: nat)
    requires AllOfSize(blocks, size)
    ensures |Concat(blocks)| == |blocks| * size
    ensures Blocks(Concat(blocks), |blocks|, size) == blocks
  {
    ConcatLength(blocks, size);
    SpanIsProduct(|blocks|, size);
    forall i | 0 <= i < |blocks|
      ensures Block(Concat(blocks), |blocks|, size, i) == blocks[i]
    {
      ConcatSlice(blocks, size, i, i + 1);
      SpanIsProduct(i, size);
      assert blocks[i..i + 1] == [blocks[i]];
      assert Concat([blocks[i]]) == blocks[i];
    }
  }

  // ---- Little-endian words ----------------------------------------------

  /** The unsigned value of a little-endian byte string. */
  function FromBytes(bs: seq<byte>): (v: nat) {
    if bs == [] then 0 else bs[0] + 256 * FromBytes(bs[1..])
  }

  /** The low n bytes of v, least significant first. */
  function ToBytes(v: nat, n: nat): (bs: seq<byte>)
    ensures |bs| == n
  {
    if n == 0 then [] else [v % 256] + ToBytes(v / 256, n - 1)
  }

  function Pow256(n: nat): (r: nat)
    ensures r > 0
  {
    if n == 0 then 1 else 256 * Pow256(n - 1)
  }

  lemma {:induction false} BytesRoundTrip(v: nat, n: nat)
    requires v < Pow256(n)
    ensures FromBytes(ToBytes(v, n)) == v
  {
    if n > 0 {
      assert v / 256 < Pow256(n - 1);
      BytesRoundTrip(v / 256, n - 1);
      assert ToBytes(v, n)[1..] == ToBytes(v / 256, n - 1);
    }
  }

  lemma {:induction false} FromBytesBound(bs: seq<byte>)
    ensures FromBytes(bs) < Pow256(|bs|)
  {
    if bs != [] { FromBytesBound(bs[1..]); }
  }

  lemma {:induction false} WordRoundTrip(bs: seq<byte>)
    ensures ToBytes(FromBytes(bs), |bs|) == bs
  {
    if bs != [] {
      var v := FromBytes(bs);
      WordRoundTrip(bs[1..]);
      assert v % 256 == bs[0] && v / 256 == FromBytes(bs[1..]);
      assert bs == [bs[0]] + bs[1..];
    }
  }
}
