/** Demand paging: code/userprog/addrspace.cc, backingstore.cc, memmanage.cc and the
    translation of code/machine/translate.cc.

    Physical memory is a write-back cache of a backing file. The state is studied as a value
    (`VM`); the classes of `AddrSpaces` perform the source's steps in place and are proved to
    compute the functions on that value. */
module Paging {
  import opened Bytes

  /** Whole words, and less than the address space. */
  type PageBytes = n: nat | 0 < n <= 0x8000_0000 && n % 4 == 0 witness 4

  /** Symbolic; 128 in code/machine/machine.h. */
  const PageSize: PageBytes

  type Page = p: seq<byte> | |p| == PageSize witness Zeros(PageSize)

  datatype TranslationEntry = TranslationEntry(
    virtualPage: int, physicalPage: int, valid: bool, readOnly: bool, use: bool, dirty: bool)

  /** A segment of a NOFF object file. */
  datatype Segment = Segment(virtualAddr: nat, size: nat, inFileAddr: nat)

  datatype Executable = Executable(code: Segment, initData: Segment, bytes: seq<byte>)

  predicate Covers(seg: Segment, pageAddr: nat) {
    seg.virtualAddr <= pageAddr < seg.virtualAddr + seg.size
  }

  /** What OpenFile::ReadAt delivers for one page: the read stops at the end of the file. */
  function ReadPage(file: seq<byte>, position: nat): (r: seq<byte>)
    ensures |r| <= PageSize
  {
    if position >= |file| then []
    else if position + PageSize > |file| then file[position..]
    else file[position..position + PageSize]
  }

  /** The bytes a first load of page p takes from the executable, or zeros. */
  function LoadBytes(exe: Executable, p: nat): (r: seq<byte>)
    ensures |r| <= PageSize
  {
    LoadFrom(exe, p * PageSize)
  }

  function LoadFrom(exe: Executable, pageAddr: nat): (r: seq<byte>)
    ensures |r| <= PageSize
  {
    if Covers(exe.code, pageAddr) then
      ReadPage(exe.bytes, exe.code.inFileAddr + (pageAddr - exe.code.virtualAddr))
    else if Covers(exe.initData, pageAddr) then
      ReadPage(exe.bytes, exe.initData.inFileAddr + (pageAddr - exe.initData.virtualAddr))
    else Zeros(PageSize)
  }

  // ---- The image of a program ----------------------------------------------

  /** What the object file says about the byte at virtual address a, on the page starting at
      `start`: the segment that the start lies in supplies it, as far as the file reaches; on a
      page that starts in neither segment it is 0. */
  predicate ImageByte(exe: Executable, start: int, a: int, b: byte) {
    if exe.code.virtualAddr <= start < exe.code.virtualAddr + exe.code.size then
      FileByte(exe.bytes, exe.code.inFileAddr + (a - exe.code.virtualAddr), b)
    else if exe.initData.virtualAddr <= start < exe.initData.virtualAddr + exe.initData.size then
      FileByte(exe.bytes, exe.initData.inFileAddr + (a - exe.initData.virtualAddr), b)
    else b == 0
  }

  predicate FileByte(file: seq<byte>, position: int, b: byte) { 0 <= position < |file| ==> b == file[position] }

  /** A first load takes those bytes. */
  lemma {:induction false} LoadIsImage(exe: Executable, start: nat, o: nat, b: byte)
    requires o < PageSize
    ensures ImageByte(exe, start, start + o, b)
       <==> (o < |LoadFrom(exe, start)| ==> b == LoadFrom(exe, start)[o])
  {
    if Covers(exe.code, start) {
      ReadByte(exe.bytes, exe.code.inFileAddr + (start - exe.code.virtualAddr), o);
    } else if Covers(exe.initData, start) {
      ReadByte(exe.bytes, exe.initData.inFileAddr + (start - exe.initData.virtualAddr), o);
    }
  }

  lemma {:induction false} ReadByte(file: seq<byte>, position: nat, o: nat)
    requires o < PageSize
    ensures o < |ReadPage(file, position)| <==> position + o < |file|
    ensures position + o < |file| ==> ReadPage(file, position)[o] == file[position + o]
  {}

  /** The flat memory of a program of n pages before it runs. */
  ghost predicate IsImage(exe: Executable, n: nat, flat: seq<byte>) {
    && |flat| == n * PageSize
    && forall a :: 0 <= a < |flat| ==> ImageByte(exe, PageStart(a), a, flat[a])
  }

  function PageStart(a: nat): (start: nat)
    ensures start <= a < start + PageSize
  {
    a - a % PageSize
  }

  // ---- The paging state as a value ---------------------------------------

  datatype VM = VM(
    pt: seq<TranslationEntry>,  // the page table
    mem: seq<Page>,             // the physical frames
    store: seq<Page>,           // the pages of the backing file
    marked: set<nat>)           // the frames the memory manager has handed out

  ghost predicate Owner(pt: seq<TranslationEntry>, p: nat, f: int) {
    p < |pt| && pt[p].valid && pt[p].physicalPage == f
  }

  /** Entries that translate point at a real frame, and no two at the same one. */
  ghost predicate FramesDistinct(s: VM) {
    && (forall p: nat :: p < |s.pt| && s.pt[p].valid ==> 0 <= s.pt[p].physicalPage < |s.mem|)
    && (forall p: nat, q: nat, f: int :: Owner(s.pt, p, f) && Owner(s.pt, q, f) ==> p == q)
  }

  /** The marked frames are exactly the frames of valid entries. */
  ghost predicate FramesConserved(s: VM) {
    && (forall p: nat :: p < |s.pt| && s.pt[p].valid ==> s.pt[p].physicalPage in s.marked)
    && (forall f: nat :: f in s.marked ==> exists p: nat :: Owner(s.pt, p, f))
  }

  ghost predicate Inv(s: VM) {
    && |s.store| == |s.pt|
    && (forall p: nat :: p < |s.pt| ==> s.pt[p].virtualPage == p && !s.pt[p].readOnly)
    && FramesDistinct(s)
    && FramesConserved(s)
    // a clean resident page equals its copy in the store
    && (forall p: nat :: p < |s.pt| && s.pt[p].valid && !s.pt[p].dirty ==>
          s.mem[s.pt[p].physicalPage] == s.store[p])
  }

  lemma NothingResident(s: VM)
    requires |s.store| == |s.pt| && s.marked == {}
    requires forall p: nat :: p < |s.pt| ==> s.pt[p].virtualPage == p && !s.pt[p].readOnly && !s.pt[p].valid
    ensures Inv(s)
  {}

  /** The source's "loaded before" flag: physicalPage survives eviction. */
  predicate Loaded(s: VM, p: nat)
    requires p < |s.pt|
  {
    s.pt[p].valid || s.pt[p].physicalPage >= 0
  }

  /** Where the current contents of a loaded page live. */
  ghost function Contents(s: VM, p: nat): Page
    requires Inv(s) && p < |s.pt|
  {
    if s.pt[p].valid then s.mem[s.pt[p].physicalPage] else s.store[p]
  }

  /** The program's view: the flat byte array `flat` is what the paged state stands for.
      Bytes of a page not loaded yet are fixed as far as the executable supplies them. */
  ghost predicate Agrees(s: VM, exe: Executable, flat: seq<byte>)
    requires Inv(s)
  {
    && |flat| == |s.pt| * PageSize
    && forall p: nat :: p < |s.pt| ==>
         if Loaded(s, p) then Block(flat, |s.pt|, PageSize, p) == Contents(s, p)
         else LoadBytes(exe, p) <= Block(flat, |s.pt|, PageSize, p)
  }

  /** The page that starts at `start` holds what the image says. */
  ghost predicate PageImage(exe: Executable, start: int, content: Page) {
    forall o: nat :: o < PageSize ==> ImageByte(exe, start, start + o, content[o])
  }

  lemma {:induction false} StartIsImage(exe: Executable, start: nat, content: Page)
    ensures PageImage(exe, start, content) <==> LoadFrom(exe, start) <= content
  {
    forall o: nat | o < PageSize
      ensures ImageByte(exe, start, start + o, content[o])
         <==> (o < |LoadFrom(exe, start)| ==> content[o] == LoadFrom(exe, start)[o])
    {
      LoadIsImage(exe, start, o, content[o]);
    }
  }

  lemma {:induction false} PageIsImage(exe: Executable, p: nat, content: Page)
    ensures PageImage(exe, p * PageSize, content) <==> LoadBytes(exe, p) <= content
  {
    StartIsImage(exe, p * PageSize, content);
  }

  /** Page p of a flat memory holds what the image says. */
  ghost predicate HoldsPage(exe: Executable, n: nat, flat: seq<byte>, p: nat)
    requires |flat| == n * PageSize && p < n
  {
    PageImage(exe, p * PageSize, Block(flat, n, PageSize, p))
  }

  /** Before anything is loaded, the memory is the image of the program. */
  lemma {:induction false} FreshIsImage(s: VM, exe: Executable, flat: seq<byte>)
    requires Inv(s) && forall p: nat :: p < |s.pt| ==> !Loaded(s, p)
    ensures Agrees(s, exe, flat) <==> IsImage(exe, |s.pt|, flat)
  {
    var n := |s.pt|;
    if |flat| == n * PageSize {
      forall p: nat | p < n
        ensures HoldsPage(exe, n, flat, p) <==> LoadBytes(exe, p) <= Block(flat, n, PageSize, p)
      {
        PageIsImage(exe, p, Block(flat, n, PageSize, p));
      }
      ImageByPages(exe, n, flat);
    }
  }

  lemma {:induction false} ImageByPages(exe: Executable, n: nat, flat: seq<byte>)
    requires |flat| == n * PageSize
    ensures IsImage(exe, n, flat) <==> forall p: nat :: p < n ==> HoldsPage(exe, n, flat, p)
  {
    if forall p: nat :: p < n ==> HoldsPage(exe, n, flat, p) {
      forall a: nat | a < |flat| ensures ImageByte(exe, PageStart(a), a, flat[a]) { ImageOfByte(exe, n, flat, a); }
    }
    if IsImage(exe, n, flat) {
      forall p: nat | p < n ensures HoldsPage(exe, n, flat, p) { ImageOfPage(exe, n, flat, p); }
    }
  }

  lemma {:induction false} ImageOfByte(exe: Executable, n: nat, flat: seq<byte>, a: nat)
    requires |flat| == n * PageSize && a < |flat| && forall p: nat :: p < n ==> HoldsPage(exe, n, flat, p)
    ensures ImageByte(exe, PageStart(a), a, flat[a])
  {
    var p, o := PageAndOffset(a, n);
    InPage(exe, n, flat, p, o, a);
  }

  lemma {:induction false} PageAndOffset(a: nat, n: nat) returns (p: nat, o: nat)
    requires a < n * PageSize
    ensures p < n && o < PageSize && a == p * PageSize + o && PageStart(a) == a - o
  {
    p, o := BlockAndOffset(a, n, PageSize);
  }

  lemma {:induction false} InPage(exe: Executable, n: nat, flat: seq<byte>, p: nat, o: nat, a: nat)
    requires |flat| == n * PageSize && p < n && o < PageSize && a == p * PageSize + o && PageStart(a) == a - o
    requires HoldsPage(exe, n, flat, p)
    ensures a < |flat| && ImageByte(exe, PageStart(a), a, flat[a])
  {
    AtBlock(flat, n, PageSize, p, o, a);
  }

  lemma {:induction false} ImageOfPage(exe: Executable, n: nat, flat: seq<byte>, p: nat)
    requires IsImage(exe, n, flat) && p < n
    ensures HoldsPage(exe, n, flat, p)
  {
    forall o: nat | o < PageSize
      ensures ImageByte(exe, p * PageSize, p * PageSize + o, Block(flat, n, PageSize, p)[o])
    {
      ImageOfOffset(exe, n, flat, p, o);
    }
  }

  lemma {:induction false} ImageOfOffset(exe: Executable, n: nat, flat: seq<byte>, p: nat, o: nat)
    requires IsImage(exe, n, flat) && p < n && o < PageSize
    ensures ImageByte(exe, p * PageSize, p * PageSize + o, Block(flat, n, PageSize, p)[o])
  {
    AtBlock(flat, n, PageSize, p, o, p * PageSize + o);
    StartOf(p, o);
  }

  lemma {:induction false} StartOf(p: nat, o: nat)
    requires o < PageSize
    ensures PageStart(p * PageSize + o) == p * PageSize
  {
    var a := p * PageSize + o;
    var d := a / PageSize - p;
    assert d * PageSize == o - a % PageSize;
    assert d >= 1 ==> d * PageSize >= PageSize;
    assert d <= -1 ==> d * PageSize + PageSize <= 0;
  }

  /** A page just loaded for the first time. */
  lemma {:induction false} FirstLoadIsImage(s: VM, s': VM, exe: Executable, p: nat)
    requires PagedIn(s, s', exe, p) && !Loaded(s, p)
    ensures PageImage(exe, p * PageSize, Contents(s', p))
  {
    PageIsImage(exe, p, Contents(s', p));
  }

  // ---- Steps on the value -------------------------------------------------

  /** BackingStore::PageOut of virtual page v. */
  function Evict(s: VM, v: nat): VM
    requires v < |s.pt| && v < |s.store| && 0 <= s.pt[v].physicalPage < |s.mem|
  {
    var e := s.pt[v];
    VM(s.pt[v := e.(valid := false)], s.mem,
       if e.dirty then s.store[v := s.mem[e.physicalPage]] else s.store,
       s.marked - {e.physicalPage})
  }

  /** Page p comes to frame f, which was free. */
  function Install(s: VM, p: nat, f: nat, content: Page, dirty: bool): VM
    requires p < |s.pt| && f < |s.mem|
  {
    VM(s.pt[p := s.pt[p].(physicalPage := f, valid := true, dirty := dirty)],
       s.mem[f := content], s.store, s.marked + {f})
  }

  /** The page tables differ in use bits and in the frame number of an invalid entry only. */
  ghost predicate SameMapping(pt: seq<TranslationEntry>, pt': seq<TranslationEntry>) {
    && |pt'| == |pt|
    && forall p: nat :: p < |pt| ==>
         && pt'[p].virtualPage == pt[p].virtualPage && pt'[p].valid == pt[p].valid
         && pt'[p].readOnly == pt[p].readOnly && pt'[p].dirty == pt[p].dirty
         && (pt[p].valid ==> pt'[p].physicalPage == pt[p].physicalPage)
  }

  lemma SameMappingInv(s: VM, pt': seq<TranslationEntry>)
    requires Inv(s) && SameMapping(s.pt, pt')
    ensures Inv(s.(pt := pt'))
    ensures forall p: nat :: p < |s.pt| ==> Contents(s.(pt := pt'), p) == Contents(s, p)
  {
    forall p: nat, f: int
      ensures Owner(pt', p, f) <==> Owner(s.pt, p, f)
    {}
  }

  /** Eviction keeps the invariant and hides nothing: the store takes over a dirty page. */
  lemma EvictInv(s: VM, v: nat)
    requires Inv(s) && v < |s.pt| && s.pt[v].valid
    ensures Inv(Evict(s, v))
    ensures forall p: nat :: p < |s.pt| ==>
      Contents(Evict(s, v), p) == Contents(s, p) && Loaded(Evict(s, v), p) == Loaded(s, p)
  {
    var s' := Evict(s, v);
    var g := s.pt[v].physicalPage;
    assert Owner(s.pt, v, g);
    forall p: nat, f: int
      ensures Owner(s'.pt, p, f) <==> Owner(s.pt, p, f) && p != v
    {}
    forall p: nat | p < |s'.pt| && s'.pt[p].valid
      ensures s'.pt[p].physicalPage in s'.marked
    {
      assert Owner(s.pt, p, s.pt[p].physicalPage);
    }
    forall f: nat | f in s'.marked
      ensures exists p: nat :: Owner(s'.pt, p, f)
    {
      var p: nat :| Owner(s.pt, p, f);
      assert Owner(s'.pt, p, f);
    }
  }

  lemma InstallOwners(s: VM, p: nat, f: nat, content: Page, dirty: bool)
    requires Inv(s) && p < |s.pt| && !s.pt[p].valid && f < |s.mem| && f !in s.marked
    ensures FramesDistinct(Install(s, p, f, content, dirty))
    ensures FramesConserved(Install(s, p, f, content, dirty))
    ensures forall q: nat :: q < |s.pt| && s.pt[q].valid ==> s.pt[q].physicalPage != f
  {
    var s' := Install(s, p, f, content, dirty);
    forall q: nat, g: int
      ensures Owner(s'.pt, q, g) <==> if q == p then g == f else Owner(s.pt, q, g)
    {}
    forall q: nat, g: int | Owner(s.pt, q, g)
      ensures g in s.marked
    {}
    forall g: nat | g in s'.marked
      ensures exists q: nat :: Owner(s'.pt, q, g)
    {
      if g == f {
        assert Owner(s'.pt, p, g);
      } else {
        var q: nat :| Owner(s.pt, q, g);
        assert Owner(s'.pt, q, g);
      }
    }
  }

  /** Filling a free frame keeps the invariant and every other page, provided the new
      entry is dirty or equal to the store's copy. */
  lemma InstallInv(s: VM, p: nat, f: nat, content: Page, dirty: bool)
    requires Inv(s) && p < |s.pt| && !s.pt[p].valid && f < |s.mem| && f !in s.marked
    requires dirty || content == s.store[p]
    ensures Inv(Install(s, p, f, content, dirty))
    ensures Contents(Install(s, p, f, content, dirty), p) == content
    ensures forall q: nat :: q < |s.pt| && q != p ==>
      Contents(Install(s, p, f, content, dirty), q) == Contents(s, q)
  {
    InstallOwners(s, p, f, content, dirty);
  }

  /** The relation a page fault on p establishes between the states before and after it. */
  ghost predicate PagedIn(s: VM, s': VM, exe: Executable, p: nat) {
    && Inv(s) && Inv(s') && |s'.pt| == |s.pt| && p < |s.pt|
    && s'.pt[p].valid && |s'.mem| == |s.mem|
    && (forall q: nat :: q < |s.pt| && q != p ==>
          Loaded(s', q) == Loaded(s, q) && Contents(s', q) == Contents(s, q))
    && (if Loaded(s, p) then Contents(s', p) == Contents(s, p)
        else LoadBytes(exe, p) <= Contents(s', p))
  }

  /** The same pages hold the same bytes; only page p may have lost its "loaded" flag. */
  ghost predicate SamePages(s: VM, s': VM, p: nat) {
    && Inv(s) && Inv(s') && |s'.pt| == |s.pt| && |s'.mem| == |s.mem|
    && (forall q: nat :: q < |s.pt| ==> Contents(s', q) == Contents(s, q))
    && (forall q: nat :: q < |s.pt| && q != p ==> Loaded(s', q) == Loaded(s, q))
  }

  /** Clearing a page for p's benefit. */
  lemma EvictSamePages(s: VM, swept: seq<TranslationEntry>, v: nat, p: nat, base: VM)
    requires Inv(s) && p < |s.pt| && !s.pt[p].valid && v < |s.pt| && s.pt[v].valid
    requires SameMapping(s.pt, swept)
    requires forall q: nat :: q < |s.pt| && q != p ==> swept[q].physicalPage == s.pt[q].physicalPage
    requires base == Evict(s.(pt := swept), v)
    ensures SamePages(s, base, p) && !base.pt[p].valid
    ensures s.pt[v].physicalPage in s.marked && s.pt[v].physicalPage !in base.marked
  {
    SameMappingInv(s, swept);
    EvictInv(s.(pt := swept), v);
  }

  /** Filling the frame found for p completes the page fault. */
  lemma InstallPagedIn(s: VM, base: VM, p: nat, f: nat, content: Page, dirty: bool, exe: Executable)
    requires SamePages(s, base, p) && p < |s.pt| && !s.pt[p].valid && !base.pt[p].valid
    requires f < |base.mem| && f !in base.marked
    requires dirty || content == base.store[p]
    requires if Loaded(s, p) then content == s.store[p] else LoadBytes(exe, p) <= content
    ensures PagedIn(s, Install(base, p, f, content, dirty), exe, p)
  {
    InstallInv(base, p, f, content, dirty);
  }

  /** The state with frame f taken for page p but not filled yet. */
  ghost predicate FrameTaken(base: VM, s: VM, p: nat, f: int) {
    && p < |base.pt| && !base.pt[p].valid && 0 <= f < |base.mem| && f !in base.marked
    && s == base.(pt := base.pt[p := base.pt[p].(physicalPage := f)], marked := base.marked + {f})
  }

  /** Filling the frame from the store. */
  lemma ReloadPagedIn(s0: VM, base: VM, s1: VM, s2: VM, p: nat, exe: Executable)
    requires Inv(s0) && p < |s0.pt| && !s0.pt[p].valid && s0.pt[p].physicalPage >= 0
    requires SamePages(s0, base, p) && p < |s1.pt| && FrameTaken(base, s1, p, s1.pt[p].physicalPage)
    requires s2 == s1.(pt := s1.pt[p := s1.pt[p].(valid := true, dirty := false)],
                       mem := s1.mem[s1.pt[p].physicalPage := s1.store[p]])
    ensures PagedIn(s0, s2, exe, p)
  {
    var f := s1.pt[p].physicalPage;
    assert s2 == Install(base, p, f, base.store[p], false);
    assert Contents(s0, p) == s0.store[p] == base.store[p];
    InstallPagedIn(s0, base, p, f, base.store[p], false, exe);
  }

  /** Filling the frame from the executable. */
  lemma LoadPagedIn(s0: VM, base: VM, s1: VM, s2: VM, p: nat, exe: Executable)
    requires Inv(s0) && p < |s0.pt| && !s0.pt[p].valid && s0.pt[p].physicalPage < 0
    requires SamePages(s0, base, p) && p < |s1.pt| && FrameTaken(base, s1, p, s1.pt[p].physicalPage)
    requires var f := s1.pt[p].physicalPage;
      s2 == s1.(pt := s1.pt[p := s1.pt[p].(valid := true, dirty := true)],
                mem := s1.mem[f := FirstLoad(s1.mem[f], LoadBytes(exe, p))])
    ensures PagedIn(s0, s2, exe, p)
  {
    var f := s1.pt[p].physicalPage;
    var content := FirstLoad(s1.mem[f], LoadBytes(exe, p));
    assert s2 == Install(base, p, f, content, true);
    InstallPagedIn(s0, base, p, f, content, true, exe);
  }

  /** A page fault is invisible: whatever flat array describes the state after it also
      described the state before it. */
  lemma PagedInAgrees(s: VM, s': VM, exe: Executable, p: nat, flat: seq<byte>)
    requires PagedIn(s, s', exe, p) && Agrees(s', exe, flat)
    ensures Agrees(s, exe, flat)
  {}

  /** A first load overwrites the frame with the bytes it has and leaves the rest. */
  function FirstLoad(frame: Page, loaded: seq<byte>): Page
    requires |loaded| <= PageSize
  {
    Splice(frame, 0, loaded)
  }

  /** The contents of a freshly loaded page do not depend on the frame's previous user if
      and only if the executable supplies the whole page. */
  lemma FirstLoadDetermined(loaded: seq<byte>)
    requires |loaded| <= PageSize
    ensures (forall f: Page, g: Page :: FirstLoad(f, loaded) == FirstLoad(g, loaded))
       <==> |loaded| == PageSize
  {
    if |loaded| == PageSize {
      forall f: Page, g: Page
        ensures FirstLoad(f, loaded) == FirstLoad(g, loaded)
      {
        assert FirstLoad(f, loaded) == loaded == FirstLoad(g, loaded);
      }
    } else {
      var zero: Page := Zeros(PageSize);
      var one: Page := zero[|loaded| := 1];
      assert FirstLoad(zero, loaded)[|loaded|] == 0;
      assert FirstLoad(one, loaded)[|loaded|] == 1;
    }
  }

  /** The frames of the valid entries among the first n. */
  ghost function FramesBelow(pt: seq<TranslationEntry>, n: nat): (r: set<int>)
    requires n <= |pt|
  {
    if n == 0 then {}
    else if pt[n - 1].valid && pt[n - 1].physicalPage >= 0 then FramesBelow(pt, n - 1) + {pt[n - 1].physicalPage}
    else FramesBelow(pt, n - 1)
  }

  lemma {:induction false} InFramesBelow(pt: seq<TranslationEntry>, n: nat, p: nat)
    requires p < n <= |pt| && pt[p].valid && pt[p].physicalPage >= 0
    ensures pt[p].physicalPage in FramesBelow(pt, n)
  {
    if p < n - 1 { InFramesBelow(pt, n - 1, p); }
  }

  /** Frames are conserved, so freeing the frame of each valid entry frees them all. */
  lemma {:induction false} AllFrames(s: VM)
    requires Inv(s)
    ensures forall f :: f in s.marked ==> f in FramesBelow(s.pt, |s.pt|)
  {
    forall f | f in s.marked ensures f in FramesBelow(s.pt, |s.pt|) {
      var p: nat :| Owner(s.pt, p, f);
      InFramesBelow(s.pt, |s.pt|, p);
    }
  }

  /** With every frame handed out and at least one frame, some page can be evicted. */
  lemma FullMeansEvictable(s: VM)
    requires Inv(s) && |s.mem| > 0
    requires forall f: nat :: f < |s.mem| ==> f in s.marked
    ensures exists v: nat :: v < |s.pt| && s.pt[v].valid
  {
    assert 0 in s.marked;
    var v: nat :| Owner(s.pt, v, 0);
  }

  // ---- The clock ----------------------------------------------------------

  /** How many steps from `hand` until the clock is at p. */
  function Offset(hand: nat, p: nat, n: nat): nat
    requires hand < n && p < n
  {
    if p >= hand then p - hand else p + n - hand
  }

  /** The page table after `steps` entries have been passed over. */
  ghost predicate Swept(pt: seq<TranslationEntry>, pt': seq<TranslationEntry>, hand: nat, steps: nat)
    requires hand < |pt|
  {
    && |pt'| == |pt|
    && forall p: nat :: p < |pt| ==>
         pt'[p] == pt[p].(use := if Offset(hand, p, |pt|) < steps then false else pt[p].use)
  }

  /** Why each passed-over entry was no victim. */
  ghost predicate PassedOver(pt: seq<TranslationEntry>, hand: nat, steps: nat, fifo: bool)
    requires hand < |pt|
  {
    forall p: nat :: p < |pt| && pt[p].valid ==>
      && (Offset(hand, p, |pt|) < steps ==> pt[p].use && !fifo)
      && steps <= |pt| + Offset(hand, p, |pt|)
  }

  /** The victim is at the first position of the sweep that is valid and whose use bit is
      clear by then. */
  ghost predicate ClockChoice(pt: seq<TranslationEntry>, hand: nat, steps: nat, v: nat, fifo: bool)
    requires hand < |pt|
  {
    && v < |pt| && pt[v].valid
    && PassedOver(pt, hand, steps, fifo)
    && ((steps == Offset(hand, v, |pt|) && (!pt[v].use || fifo)) || steps == |pt| + Offset(hand, v, |pt|))
  }

  /** The clock's choice is unique: the sweep length and the victim are functions of the
      page table and the hand. */
  lemma ClockChoiceUnique(pt: seq<TranslationEntry>, hand: nat, s1: nat, v1: nat, s2: nat, v2: nat, fifo: bool)
    requires hand < |pt|
    requires ClockChoice(pt, hand, s1, v1, fifo) && ClockChoice(pt, hand, s2, v2, fifo)
    ensures s1 == s2 && v1 == v2
  {}

  /** The sweep is shorter than two laps, and after a full lap every valid page had been used. */
  lemma ClockBound(pt: seq<TranslationEntry>, hand: nat, steps: nat, v: nat, fifo: bool)
    requires hand < |pt| && ClockChoice(pt, hand, steps, v, fifo)
    ensures steps < 2 * |pt|
    ensures steps >= |pt| ==> !fifo && forall p: nat :: p < |pt| && pt[p].valid ==> pt[p].use
  {}

  /** Outside FIFO mode the victim's use bit is clear, and every valid page passed over had its
      bit set and has it clear now. */
  lemma ClockVictim(pt: seq<TranslationEntry>, pt': seq<TranslationEntry>, hand: nat, steps: nat, v: nat)
    requires hand < |pt| && ClockChoice(pt, hand, steps, v, false) && Swept(pt, pt', hand, steps)
    ensures pt'[v].valid && !pt'[v].use
    ensures forall p: nat :: p < |pt| && pt[p].valid && Offset(hand, p, |pt|) < steps ==> pt[p].use && !pt'[p].use
  {}

  /** Where the hand is after `steps` increments modulo n. */
  function HandAt(hand: nat, steps: nat, n: nat): nat
    requires hand < n && steps < 2 * n
  {
    if hand + steps < n then hand + steps
    else if hand + steps < 2 * n then hand + steps - n
    else hand + steps - 2 * n
  }

  lemma NextHand(h: nat, n: nat)
    requires h < n
    ensures (h + 1) % n == if h + 1 == n then 0 else h + 1
  {
    if h + 1 < n { SmallMod(h + 1, n); }
  }

  lemma SmallMod(x: nat, n: nat)
    requires x < n
    ensures x % n == x
  {}

  /** Passing over one more entry, when some page w is valid. */
  lemma SweepStep(pt0: seq<TranslationEntry>, pt: seq<TranslationEntry>, hand0: nat, steps: nat, w: nat, fifo: bool)
    requires hand0 < |pt0| && steps < 2 * |pt0|
    requires Swept(pt0, pt, hand0, steps) && PassedOver(pt0, hand0, steps, fifo)
    requires w < |pt0| && pt0[w].valid
    requires var e := pt[HandAt(hand0, steps, |pt0|)]; !(e.valid && (!e.use || fifo))
    ensures steps + 1 < 2 * |pt0|
    ensures var h := HandAt(hand0, steps, |pt0|);
      && HandAt(hand0, steps + 1, |pt0|) == (if h + 1 == |pt0| then 0 else h + 1)
      && Swept(pt0, pt[h := pt[h].(use := false)], hand0, steps + 1)
    ensures PassedOver(pt0, hand0, steps + 1, fifo)
  {
    assert steps < |pt0| + Offset(hand0, w, |pt0|);
  }

  /** Stopping at an entry that qualifies is the clock's choice. */
  lemma SweepStop(pt0: seq<TranslationEntry>, pt: seq<TranslationEntry>, hand0: nat, steps: nat, fifo: bool)
    requires hand0 < |pt0| && steps < 2 * |pt0|
    requires Swept(pt0, pt, hand0, steps) && PassedOver(pt0, hand0, steps, fifo)
    requires var e := pt[HandAt(hand0, steps, |pt0|)]; e.valid && (!e.use || fifo)
    ensures ClockChoice(pt0, hand0, steps, HandAt(hand0, steps, |pt0|), fifo)
    ensures SameMapping(pt0, pt)
  {}
}
