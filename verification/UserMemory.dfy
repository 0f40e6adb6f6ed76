/** What a user program sees of memory: 1-, 2- and 4-byte accesses to one flat byte array.
    This is the reference that the paged machine of AddrSpace.dfy is proved to implement. */
module UserMemory {
  import opened Bytes
  import opened Paging

  /** The (unsigned) cast of a 32-bit int. */
  function U32(x: int): nat { x % 0x1_0000_0000 }

  /** Virtual page number and offset within the page. */
  function Vpn(addr: int): nat { U32(addr) / PageSize }

  function Off(addr: int): (r: nat)
    ensures r < PageSize
  {
    U32(addr) % PageSize
  }

  type AccessSize = n: nat | n == 1 || n == 2 || n == 4 witness 1

  /** Why a translation, or an instruction, does not simply go on (code/machine/machine.h). */
  datatype ExceptionType =
    | NoException
    | SyscallException
    | PageFaultException
    | ReadOnlyException
    | BusErrorException
    | AddressErrorException
    | OverflowException
    | IllegalInstrException

  datatype Access =
    | Load(addr: int, size: AccessSize)
    | Store(addr: int, size: AccessSize, value: int)

  datatype Outcome = Value(v: int) | Stored | AddressError

  /** Alignment and range check of Machine::Translate; negative addresses wrap to large ones. */
  predicate BadAddress(addr: int, size: AccessSize, numPages: nat) {
    || (size == 4 && U32(addr) % 4 != 0)
    || (size == 2 && U32(addr) % 2 != 0)
    || Vpn(addr) >= numPages
  }

  /** The int ReadMem delivers: a (signed) char, an unsigned short, or a word. */
  function Decode(bs: seq<byte>): (v: int)
    requires |bs| == 1 || |bs| == 2 || |bs| == 4
  {
    var u := FromBytes(bs);
    if |bs| == 1 && u >= 0x80 then u - 0x100
    else if |bs| == 4 && u >= 0x8000_0000 then u - 0x1_0000_0000
    else u
  }

  function Encode(value: int, size: AccessSize): (bs: seq<byte>)
    ensures |bs| == size
  {
    ToBytes(U32(value), size)
  }

  /** A value that is stored and loaded again comes back cut to the width of the access: bytes
      sign-extended, shorts zero-extended, words as they were. */
  lemma {:induction false} StoreLoad(value: int, size: AccessSize)
    ensures Decode(Encode(value, size)) ==
      match size
      case 1 => (if value % 0x100 >= 0x80 then value % 0x100 - 0x100 else value % 0x100)
      case 2 => value % 0x1_0000
      case _ => (if U32(value) >= 0x8000_0000 then U32(value) - 0x1_0000_0000 else U32(value))
    ensures size == 4 && -0x8000_0000 <= value < 0x8000_0000 ==> Decode(Encode(value, size)) == value
  {
    if size == 4 {
      assert Pow256(4) == 0x1_0000_0000;
      BytesRoundTrip(U32(value), 4);
    } else {
      LowBytes(U32(value));
      LowParts(value);
    }
  }

  lemma {:induction false} LowBytes(v: nat)
    ensures FromBytes(ToBytes(v, 1)) == v % 256
    ensures FromBytes(ToBytes(v, 2)) == v % 256 + 256 * ((v / 256) % 256)
  {
    var b := ToBytes(v / 256, 1);
    assert b == [(v / 256) % 256] && ToBytes(v, 1) == [v % 256] && ToBytes(v, 2) == [v % 256] + b;
    assert b[1..] == [] && ToBytes(v, 1)[1..] == [] && ToBytes(v, 2)[1..] == b;
    assert FromBytes(b) == (v / 256) % 256;
  }

  lemma {:induction false} LowParts(x: int)
    ensures U32(x) % 256 == x % 256
    ensures U32(x) % 256 + 256 * ((U32(x) / 256) % 256) == x % 0x1_0000
  {
    var q, u := x / 0x1_0000_0000, U32(x);
    var a, b, c := u % 256, (u / 256) % 256, (u / 256) / 256;
    Remainder256(x, q * 0x100_0000 + 256 * c + b, a);
    Remainder64K(x, q * 0x1_0000 + c, a + 256 * b);
  }

  lemma {:induction false} Remainder256(x: int, k: int, r: nat)
    requires x == 256 * k + r && r < 256
    ensures x % 256 == r
  {
  }

  lemma {:induction false} Remainder64K(x: int, k: int, r: nat)
    requires x == 0x1_0000 * k + r && r < 0x1_0000
    ensures x % 0x1_0000 == r
  {
  }

  /** An aligned access never crosses a page boundary. */
  lemma WithinPage(a: nat, size: AccessSize)
    requires a % size == 0
    ensures a % PageSize + size <= PageSize
  {
    var q, r, k := a / PageSize, a % PageSize, PageSize / 4;
    assert a == q * PageSize + r && PageSize == 4 * k;
    assert q * (4 * k) == 4 * (q * k);
    WithinWords(a, q * k, k, r, size);
  }

  lemma WithinWords(a: nat, x: nat, k: nat, r: nat, size: AccessSize)
    requires a == 4 * x + r && r < 4 * k && a % size == 0
    ensures r + size <= 4 * k
  {
  }

  lemma InRange(addr: int, size: AccessSize, numPages: nat)
    requires !BadAddress(addr, size, numPages)
    ensures Off(addr) + size <= PageSize
    ensures U32(addr) == Vpn(addr) * PageSize + Off(addr)
    ensures U32(addr) + size <= numPages * PageSize
  {
    WithinPage(U32(addr), size);
    BlockBounds(Vpn(addr), numPages, PageSize);
  }

  /** One access to the flat array. */
  function FlatStep(flat: seq<byte>, numPages: nat, op: Access): (r: (Outcome, seq<byte>))
    requires |flat| == numPages * PageSize
    ensures |r.1| == |flat|
  {
    if BadAddress(op.addr, op.size, numPages) then (AddressError, flat)
    else
      var a := U32(op.addr);
      InRange(op.addr, op.size, numPages);
      match op
      case Load(_, size) => (Value(Decode(flat[a..a + size])), flat)
      case Store(_, size, value) => (Stored, Splice(flat, a, Encode(value, size)))
  }

  /** A whole program; an address error kills it. */
  function FlatRun(flat: seq<byte>, numPages: nat, ops: seq<Access>): (outs: seq<Outcome>)
    requires |flat| == numPages * PageSize
    decreases |ops|
  {
    if ops == [] then []
    else
      var (out, flat') := FlatStep(flat, numPages, ops[0]);
      [out] + if out.AddressError? then [] else FlatRun(flat', numPages, ops[1..])
  }

  // ---- Accesses to a resident page ----------------------------------------

  /** What Translate leaves in the page table. */
  function Touch(s: VM, p: nat, writing: bool): VM
    requires p < |s.pt|
  {
    s.(pt := s.pt[p := s.pt[p].(use := true, dirty := s.pt[p].dirty || writing)])
  }

  /** Bytes written into the frame of resident page p. */
  function Poke(s: VM, p: nat, off: nat, data: seq<byte>): VM
    requires p < |s.pt| && 0 <= s.pt[p].physicalPage < |s.mem| && off + |data| <= PageSize
  {
    var f := s.pt[p].physicalPage;
    s.(mem := s.mem[f := Splice(s.mem[f], off, data)])
  }

  lemma TouchInv(s: VM, p: nat, writing: bool)
    requires Inv(s) && p < |s.pt| && s.pt[p].valid
    ensures Inv(Touch(s, p, writing))
    ensures forall q: nat :: q < |s.pt| ==>
      Contents(Touch(s, p, writing), q) == Contents(s, q) && Loaded(Touch(s, p, writing), q) == Loaded(s, q)
  {
    var s' := Touch(s, p, writing);
    forall q: nat, f: int
      ensures Owner(s'.pt, q, f) <==> Owner(s.pt, q, f)
    {}
  }

  lemma PokeInv(s: VM, p: nat, off: nat, data: seq<byte>)
    requires Inv(s) && p < |s.pt| && s.pt[p].valid && s.pt[p].dirty && off + |data| <= PageSize
    ensures Inv(Poke(s, p, off, data))
    ensures forall q: nat :: q < |s.pt| ==>
      Contents(Poke(s, p, off, data), q) ==
        if q == p then Splice(Contents(s, p), off, data) else Contents(s, q)
  {
    var s' := Poke(s, p, off, data);
    var f := s.pt[p].physicalPage;
    assert Owner(s.pt, p, f);
    forall q: nat | q < |s.pt| && q != p && s.pt[q].valid
      ensures s.pt[q].physicalPage != f
    {
      assert Owner(s.pt, q, s.pt[q].physicalPage);
    }
  }

  /** Reading the frame is reading the flat array. */
  lemma ReadAgrees(s: VM, exe: Executable, flat: seq<byte>, p: nat, off: nat, size: nat)
    requires Inv(s) && Agrees(s, exe, flat)
    requires p < |s.pt| && s.pt[p].valid && off + size <= PageSize
    ensures p * PageSize + off + size <= |flat|
    ensures flat[p * PageSize + off..p * PageSize + off + size] == Contents(s, p)[off..off + size]
  {
    BlockSlice(flat, |s.pt|, PageSize, p, off, size);
  }

  /** Putting the overwritten bytes back restores block p and moves no other block. */
  lemma RestoreBlock(after: seq<byte>, n: nat, p: nat, off: nat, data: seq<byte>, page: Page)
    requires |after| == n * PageSize && p < n && off + |data| <= PageSize
    requires Block(after, n, PageSize, p) == Splice(page, off, data)
    ensures p * PageSize + off + |data| <= |after|
    ensures var flat := Splice(after, p * PageSize + off, page[off..off + |data|]);
      && Splice(flat, p * PageSize + off, data) == after
      && forall q: nat :: q < n ==>
           Block(flat, n, PageSize, q) == if q == p then page else Block(after, n, PageSize, q)
  {
    var before := page[off..off + |data|];
    RewriteSame(after, n, p, off, data, before, page);
    RestoredBlocks(after, n, p, off, before);
    SpliceBack(page, off, data);
  }

  lemma RestoredBlocks(after: seq<byte>, n: nat, p: nat, off: nat, before: seq<byte>)
    requires |after| == n * PageSize && p < n && off + |before| <= PageSize
    ensures p * PageSize + off + |before| <= |after|
    ensures var flat := Splice(after, p * PageSize + off, before);
      forall q: nat :: q < n ==>
        Block(flat, n, PageSize, q)
        == (if q == p then Splice(Block(after, n, PageSize, p), off, before) else Block(after, n, PageSize, q))
  {
    BlocksSplice(after, n, PageSize, p, off, before);
    var flat := Splice(after, p * PageSize + off, before);
    forall q: nat | q < n
      ensures Block(flat, n, PageSize, q)
           == if q == p then Splice(Block(after, n, PageSize, p), off, before) else Block(after, n, PageSize, q)
    {
      assert Blocks(flat, n, PageSize)[q] == Block(flat, n, PageSize, q);
    }
  }

  lemma SpliceBack(page: Page, off: nat, data: seq<byte>)
    requires off + |data| <= PageSize
    ensures Splice(Splice(page, off, data), off, page[off..off + |data|]) == page
  {}

  lemma RewriteSame(after: seq<byte>, n: nat, p: nat, off: nat, data: seq<byte>, before: seq<byte>, page: Page)
    requires |after| == n * PageSize && p < n && off + |data| <= PageSize && |before| == |data|
    requires Block(after, n, PageSize, p) == Splice(page, off, data)
    ensures p * PageSize + off + |data| <= |after|
    ensures Splice(Splice(after, p * PageSize + off, before), p * PageSize + off, data) == after
  {
    BlockSlice(after, n, PageSize, p, off, |data|);
    assert Splice(page, off, data)[off..off + |data|] == data;
    SpliceTwice(after, p * PageSize + off, before, data);
  }

  lemma SpliceTwice(s: seq<byte>, at: nat, before: seq<byte>, data: seq<byte>)
    requires at + |data| <= |s| && |before| == |data| && s[at..at + |data|] == data
    ensures Splice(Splice(s, at, before), at, data) == s
  {
    var r := Splice(Splice(s, at, before), at, data);
    forall i | 0 <= i < |s| ensures r[i] == s[i] {
      if at <= i < at + |data| { assert s[at..at + |data|][i - at] == s[i]; }
    }
  }

  /** Writing the frame is writing the flat array: a description of the state after the
      write, with the overwritten bytes put back, describes the state before it. */
  lemma WriteAgrees(s: VM, exe: Executable, after: seq<byte>, p: nat, off: nat, at: nat, data: seq<byte>)
    requires Inv(s) && p < |s.pt| && off + |data| <= PageSize && at == p * PageSize + off
    requires s.pt[p].valid && s.pt[p].dirty
    requires Inv(Poke(s, p, off, data)) && Agrees(Poke(s, p, off, data), exe, after)
    ensures at + |data| <= |after|
    ensures var flat := Splice(after, at, Contents(s, p)[off..off + |data|]);
      Agrees(s, exe, flat) && Splice(flat, at, data) == after
  {
    PokeInv(s, p, off, data);
    RestoreBlock(after, |s.pt|, p, off, data, Contents(s, p));
    AgreesBefore(s, Poke(s, p, off, data), exe, after, Splice(after, at, Contents(s, p)[off..off + |data|]), p);
  }

  /** States that differ in the contents of page p only, and flat arrays likewise. */
  lemma AgreesBefore(s: VM, s': VM, exe: Executable, after: seq<byte>, flat: seq<byte>, p: nat)
    requires Inv(s) && Inv(s') && s'.pt == s.pt && Agrees(s', exe, after) && |flat| == |after| && p < |s.pt|
    requires s.pt[p].valid && Block(flat, |s.pt|, PageSize, p) == Contents(s, p)
    requires forall q: nat :: q < |s.pt| && q != p ==>
      Contents(s', q) == Contents(s, q) && Block(flat, |s.pt|, PageSize, q) == Block(after, |s.pt|, PageSize, q)
    ensures Agrees(s, exe, flat)
  {
  }

  /** A load, possibly after one page fault: s0 -> s1 (fault, or s1 = s0) -> s2 (access). */
  lemma LoadAgrees(s0: VM, s1: VM, s2: VM, exe: Executable, addr: int, size: AccessSize, value: int, flat: seq<byte>)
    requires !BadAddress(addr, size, |s0.pt|) && Off(addr) + size <= PageSize
    requires Inv(s0) && Inv(s1) && Inv(s2) && |s1.pt| == |s0.pt| && s1.pt[Vpn(addr)].valid
    requires PagedIn(s0, s1, exe, Vpn(addr)) || (s2 == Touch(s0, Vpn(addr), false) && s1 == s2)
    requires s2 == Touch(s1, Vpn(addr), false)
    requires value == Decode(Contents(s2, Vpn(addr))[Off(addr)..Off(addr) + size])
    requires Agrees(s2, exe, flat)
    ensures Agrees(s0, exe, flat)
    ensures FlatStep(flat, |s0.pt|, Load(addr, size)) == (Value(value), flat)
  {
    var p := Vpn(addr);
    InRange(addr, size, |s0.pt|);
    TouchInv(s1, p, false);
    ReadAgrees(s2, exe, flat, p, Off(addr), size);
    if PagedIn(s0, s1, exe, p) {
      PagedInAgrees(s0, s1, exe, p, flat);
    } else {
      TouchInv(s0, p, false);
    }
  }

  /** A store, possibly after one page fault: s0 -> s1 (fault, or s1 = s0) -> s2 (access). */
  lemma StoreAgrees(s0: VM, s1: VM, s2: VM, exe: Executable, addr: int, size: AccessSize, value: int, after: seq<byte>)
    requires !BadAddress(addr, size, |s0.pt|) && Off(addr) + size <= PageSize
    requires Inv(s0) && Inv(s1) && Inv(s2) && |s1.pt| == |s0.pt| && s1.pt[Vpn(addr)].valid
    requires PagedIn(s0, s1, exe, Vpn(addr)) || s1 == s0
    requires s2 == Poke(Touch(s1, Vpn(addr), true), Vpn(addr), Off(addr), Encode(value, size))
    requires Agrees(s2, exe, after)
    ensures U32(addr) + size <= |after|
    ensures var flat := Splice(after, U32(addr), Contents(s1, Vpn(addr))[Off(addr)..Off(addr) + size]);
      Agrees(s0, exe, flat) && FlatStep(flat, |s0.pt|, Store(addr, size, value)) == (Stored, after)
  {
    var p := Vpn(addr);
    InRange(addr, size, |s0.pt|);
    TouchInv(s1, p, true);
    WriteAgrees(Touch(s1, p, true), exe, after, p, Off(addr), U32(addr), Encode(value, size));
    var flat := Splice(after, U32(addr), Contents(s1, p)[Off(addr)..Off(addr) + size]);
    TouchAgrees(s1, exe, p, flat);
    if PagedIn(s0, s1, exe, p) {
      PagedInAgrees(s0, s1, exe, p, flat);
    }
  }

  /** Setting use and dirty bits does not change what the state stands for. */
  lemma TouchAgrees(s: VM, exe: Executable, p: nat, flat: seq<byte>)
    requires Inv(s) && p < |s.pt| && s.pt[p].valid && Inv(Touch(s, p, true)) && Agrees(Touch(s, p, true), exe, flat)
    ensures Agrees(s, exe, flat)
  {
    TouchInv(s, p, true);
  }

  /** Every paged state stands for some flat array. */
  lemma SomeFlat(s: VM, exe: Executable) returns (flat: seq<byte>)
    requires Inv(s)
    ensures Agrees(s, exe, flat)
  {
    var pages := seq(|s.pt|, p requires 0 <= p < |s.pt| => SomePage(s, exe, p));
    flat := Concat(pages);
    ConcatBlocks(pages, PageSize);
    forall p: nat | p < |s.pt|
      ensures Block(flat, |s.pt|, PageSize, p) == SomePage(s, exe, p)
    {
      assert Blocks(flat, |s.pt|, PageSize)[p] == pages[p];
    }
  }

  /** What a page may hold. */
  ghost function SomePage(s: VM, exe: Executable, p: nat): (page: Page)
    requires Inv(s) && p < |s.pt|
    ensures if Loaded(s, p) then page == Contents(s, p) else LoadBytes(exe, p) <= page
  {
    if Loaded(s, p) then Contents(s, p) else LoadBytes(exe, p) + Zeros(PageSize - |LoadBytes(exe, p)|)
  }

  /** Every page is in memory, in the store, or wholly supplied by the executable. */
  ghost predicate Determined(s: VM, exe: Executable) {
    forall p: nat :: p < |s.pt| ==> Loaded(s, p) || |LoadBytes(exe, p)| == PageSize
  }

  /** Then there is one flat array only: the memory the program sees is a function of the state. */
  lemma {:induction false} FlatUnique(s: VM, exe: Executable, flat: seq<byte>, flat': seq<byte>)
    requires Inv(s) && Determined(s, exe) && Agrees(s, exe, flat) && Agrees(s, exe, flat')
    ensures flat == flat'
  {
    forall p: nat | p < |s.pt| ensures Block(flat, |s.pt|, PageSize, p) == Block(flat', |s.pt|, PageSize, p) {
    }
    BlocksDetermine(flat, flat', |s.pt|, PageSize);
  }
}
