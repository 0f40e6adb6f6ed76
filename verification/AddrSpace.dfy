/** The paged machine: the classes of addrspace.cc, backingstore.cc, memmanage.cc and the
    memory half of machine.cc/translate.cc, updating page table, frames and store in place. */
module AddrSpaces {
  import opened Bytes
  import opened BitMaps
  import opened Paging
  import opened UserMemory

  class MemoryManager {
    const bmap: BitMap

    ghost predicate Valid() { bmap.Valid() }

    constructor (numPages: nat)
      ensures Valid() && fresh(bmap.words) && bmap.numBits == numPages && bmap.Marked() == {}
    {
      bmap := new BitMap(numPages);
    }

    method AllocPage() returns (r: int)
      requires Valid()
      modifies bmap.words
      ensures r == -1 ==>
        (forall f: nat :: f < bmap.numBits ==> f in old(bmap.Marked())) && bmap.Marked() == old(bmap.Marked())
      ensures r != -1 ==>
        0 <= r < bmap.numBits && r !in old(bmap.Marked()) && bmap.Marked() == old(bmap.Marked()) + {r}
    {
      for i := 0 to bmap.numBits
        invariant forall j: nat :: j < i ==> j in bmap.Marked()
        invariant bmap.Marked() == old(bmap.Marked())
      {
        var used := bmap.Test(i);
        if !used {
          bmap.Mark(i);
          return i;
        }
      }
      return -1;
    }

    method FreePage(physPageNum: nat)
      requires Valid() && physPageNum < bmap.numBits
      modifies bmap.words
      ensures bmap.Marked() == old(bmap.Marked()) - {physPageNum}
    {
      bmap.Clear(physPageNum);
    }
  }

  class Machine {
    const numPhysPages: nat
    const mainMemory: array<byte>
    const pageTable: array<TranslationEntry>  // shared with the address space (RestoreState)

    constructor (frames: nat, pageTable: array<TranslationEntry>)
      ensures numPhysPages == frames && this.pageTable == pageTable
      ensures fresh(mainMemory) && mainMemory.Length == frames * PageSize
    {
      numPhysPages := frames;
      this.pageTable := pageTable;
      mainMemory := new byte[frames * PageSize](_ => 0);
    }

    /** Machine::Translate with a linear page table. */
    method Translate(virtAddr: int, size: AccessSize, writing: bool)
      returns (exception: ExceptionType, physAddr: nat)
      modifies pageTable
      ensures exception == if BadAddress(virtAddr, size, pageTable.Length) then AddressErrorException
                           else EntryCheck(old(pageTable[Vpn(virtAddr)]), numPhysPages, writing)
      ensures exception.NoException? ==>
        var p := Vpn(virtAddr);
        && physAddr == old(pageTable[p].physicalPage) * PageSize + Off(virtAddr)
        && physAddr + size <= numPhysPages * PageSize
        && pageTable[..] == old(pageTable[..])[p := Accessed(old(pageTable[p]), writing)]
        && pageTable[p].use && (pageTable[p].dirty <==> writing || old(pageTable[p].dirty))
      ensures !exception.NoException? ==> pageTable[..] == old(pageTable[..])
    {
      physAddr := 0;
      if (size == 4 && U32(virtAddr) % 4 != 0) || (size == 2 && U32(virtAddr) % 2 != 0) {
        return AddressErrorException, 0;
      }
      var vpn, offset := Vpn(virtAddr), Off(virtAddr);
      if vpn >= pageTable.Length {
        return AddressErrorException, 0;
      } else if !pageTable[vpn].valid {
        return PageFaultException, 0;
      }
      exception, physAddr := Finish(pageTable, vpn, virtAddr, size, writing);
    }

    /** The end of Translate, for the entry at place k of the page table or the TLB. */
    method Finish(table: array<TranslationEntry>, k: nat, virtAddr: int, size: AccessSize, writing: bool)
      returns (exception: ExceptionType, physAddr: nat)
      requires k < table.Length && table[k].valid && U32(virtAddr) % size == 0
      modifies table
      ensures exception == EntryCheck(old(table[k]), numPhysPages, writing)
      ensures exception.NoException? ==>
        && physAddr == old(table[k].physicalPage) * PageSize + Off(virtAddr)
        && physAddr + size <= numPhysPages * PageSize
        && table[..] == old(table[..])[k := Accessed(old(table[k]), writing)]
      ensures !exception.NoException? ==> table[..] == old(table[..])
    {
      var entry := table[k];
      if entry.readOnly && writing {
        return ReadOnlyException, 0;
      }
      if entry.physicalPage < 0 || entry.physicalPage >= numPhysPages {  // compared as unsigned
        return BusErrorException, 0;
      }
      WithinPage(U32(virtAddr), size);
      BlockBounds(entry.physicalPage, numPhysPages, PageSize);
      table[k] := entry.(use := true, dirty := entry.dirty || writing);
      return NoException, entry.physicalPage * PageSize + Off(virtAddr);
    }

    /** Machine::Translate with a TLB: the first valid entry for the page, if there is one. A page
        number beyond the program's is a page fault here. */
    method TranslateByTlb(tlb: array<TranslationEntry>, virtAddr: int, size: AccessSize, writing: bool)
      returns (exception: ExceptionType, physAddr: nat, ghost at: int)
      modifies tlb
      ensures at == -1 || (0 <= at < tlb.Length && old(IsFor(tlb[at], Vpn(virtAddr))))
      ensures forall j :: 0 <= j < (if at == -1 then tlb.Length else at) ==> !old(IsFor(tlb[j], Vpn(virtAddr)))
      ensures exception == if U32(virtAddr) % size != 0 then AddressErrorException
                           else if at == -1 then PageFaultException
                           else EntryCheck(old(tlb[at]), numPhysPages, writing)
      ensures exception.NoException? ==>
        && physAddr == old(tlb[at].physicalPage) * PageSize + Off(virtAddr)
        && physAddr + size <= numPhysPages * PageSize
        && tlb[..] == old(tlb[..])[at := Accessed(old(tlb[at]), writing)]
      ensures !exception.NoException? ==> tlb[..] == old(tlb[..])
    {
      physAddr := 0;
      var found := FindEntry(tlb, Vpn(virtAddr));
      at := found;
      if (size == 4 && U32(virtAddr) % 4 != 0) || (size == 2 && U32(virtAddr) % 2 != 0) {
        return AddressErrorException, 0, at;
      }
      if found == -1 {
        return PageFaultException, 0, at;
      }
      exception, physAddr := Finish(tlb, found, virtAddr, size, writing);
    }

    method FindEntry(tlb: array<TranslationEntry>, vpn: nat) returns (at: int)
      ensures at == -1 || (0 <= at < tlb.Length && IsFor(tlb[at], vpn))
      ensures forall j :: 0 <= j < (if at == -1 then tlb.Length else at) ==> !IsFor(tlb[j], vpn)
    {
      for i := 0 to tlb.Length
        invariant forall j :: 0 <= j < i ==> !IsFor(tlb[j], vpn)
      {
        if tlb[i].valid && tlb[i].virtualPage == vpn {
          return i;
        }
      }
      return -1;
    }
  }

  predicate IsFor(e: TranslationEntry, vpn: nat) { e.valid && e.virtualPage == vpn }

  /** What Translate finds wrong with an entry. */
  function EntryCheck(e: TranslationEntry, frames: nat, writing: bool): ExceptionType {
    if !e.valid then PageFaultException
    else if e.readOnly && writing then ReadOnlyException
    else if 0 <= e.physicalPage < frames then NoException
    else BusErrorException
  }

  function Accessed(e: TranslationEntry, writing: bool): TranslationEntry {
    e.(use := true, dirty := e.dirty || writing)
  }

  class BackingStore {
    const file: array<byte>

    constructor (size: nat)
      ensures fresh(file) && file.Length == size
    {
      file := new byte[size](_ => 0);
    }
  }

  class AddrSpace {
    const numPages: nat
    const exe: Executable
    const pageTable: array<TranslationEntry>
    const backing: BackingStore
    const machine: Machine
    const memmanage: MemoryManager
    const useFifo: bool
    var clockHand: nat

    ghost predicate Shape() {
      && pageTable.Length == numPages && numPages > 0
      && machine.pageTable == pageTable
      && machine.numPhysPages > 0
      && machine.mainMemory.Length == machine.numPhysPages * PageSize
      && backing.file.Length == numPages * PageSize
      && backing.file != machine.mainMemory
      && memmanage.Valid() && memmanage.bmap.numBits == machine.numPhysPages
    }

    ghost function Frames(): seq<Page>
      requires Shape()
      reads machine.mainMemory
    {
      Blocks(machine.mainMemory[..], machine.numPhysPages, PageSize)
    }

    ghost function Stored(): seq<Page>
      requires Shape()
      reads backing.file
    {
      Blocks(backing.file[..], numPages, PageSize)
    }

    /** The value of Paging.VM this object graph holds. */
    ghost function State(): VM
      requires Shape()
      reads pageTable, machine.mainMemory, backing.file, memmanage.bmap.words
    {
      VM(pageTable[..], Frames(), Stored(), memmanage.bmap.Marked())
    }

    ghost predicate Valid()
      reads this, pageTable, machine.mainMemory, backing.file, memmanage.bmap.words
    {
      Shape() && clockHand < numPages && Inv(State())
    }

    /** AddrSpace::Initialize: nothing is resident, no frame is taken. The hand starts
        wherever it happens to be, as the source never sets it. */
    constructor (numPages: nat, exe: Executable, frames: nat, useFifo: bool, hand: nat)
      requires 0 < numPages && 0 < frames && hand < numPages
      ensures Valid()
      ensures this.exe == exe && this.numPages == numPages
      ensures forall p: nat :: p < numPages ==> !Loaded(State(), p)
      ensures forall flat :: Agrees(State(), exe, flat) <==> IsImage(exe, numPages, flat)
      ensures fresh(pageTable) && fresh(machine.mainMemory) && fresh(backing.file) && fresh(memmanage.bmap.words)
    {
      this.numPages := numPages;
      this.exe := exe;
      this.useFifo := useFifo;
      clockHand := hand;
      backing := new BackingStore(numPages * PageSize);
      var table := new TranslationEntry[numPages](i =>
        TranslationEntry(i, -1, false, false, false, false));
      pageTable := table;
      machine := new Machine(frames, table);
      memmanage := new MemoryManager(frames);
      new;
      NothingResident(State());
      forall flat ensures Agrees(State(), exe, flat) <==> IsImage(exe, numPages, flat) {
        FreshIsImage(State(), exe, flat);
      }
    }

    /** BackingStore::PageOut: only a dirty page is written to the file. */
    method PageOut(v: nat)
      requires Shape() && v < numPages
      requires pageTable[v].virtualPage == v && 0 <= pageTable[v].physicalPage < machine.numPhysPages
      modifies pageTable, backing.file, memmanage.bmap.words
      ensures State() == Evict(old(State()), v)
    {
      pageTable[v] := pageTable[v].(valid := false);
      var pte := pageTable[v];
      if pte.dirty {
        WriteStore(v, pte.physicalPage);
      }
      memmanage.FreePage(pte.physicalPage);
    }

    /** file->WriteAt(frame, PageSize, v * PageSize). */
    method WriteStore(v: nat, frame: nat)
      requires Shape() && v < numPages && frame < machine.numPhysPages
      modifies backing.file
      ensures Stored() == old(Stored())[v := Frames()[frame]]
    {
      var data := FrameBytes(frame);
      StorePage(v, data);
    }

    method FrameBytes(frame: nat) returns (data: Page)
      requires Shape() && frame < machine.numPhysPages
      ensures data == Frames()[frame]
    {
      BlockBounds(frame, machine.numPhysPages, PageSize);
      data := machine.mainMemory[frame * PageSize..frame * PageSize + PageSize];
    }

    method StorePage(v: nat, data: Page)
      requires Shape() && v < numPages
      modifies backing.file
      ensures Stored() == old(Stored())[v := data]
    {
      BlockBounds(v, numPages, PageSize);
      BlocksSplice(backing.file[..], numPages, PageSize, v, 0, data);
      SpliceWhole(Stored()[v], data);
      CopyInto(backing.file, v * PageSize, data);
    }

    /** Overwrite the start of frame f. */
    method FillFrame(f: nat, data: seq<byte>)
      requires Shape() && f < machine.numPhysPages && |data| <= PageSize
      modifies machine.mainMemory
      ensures Frames() == old(Frames())[f := Splice(old(Frames())[f], 0, data)]
    {
      BlockBounds(f, machine.numPhysPages, PageSize);
      BlocksSplice(machine.mainMemory[..], machine.numPhysPages, PageSize, f, 0, data);
      CopyInto(machine.mainMemory, f * PageSize, data);
    }

    /** One page of the backing file. */
    method ReadStore(p: nat) returns (data: Page)
      requires Shape() && p < numPages
      ensures data == Stored()[p]
    {
      BlockBounds(p, numPages, PageSize);
      data := backing.file[p * PageSize..p * PageSize + PageSize];
    }

    /** BackingStore::PageIn of page p, whose entry already names a frame. */
    method PageIn(p: nat)
      requires Shape() && p < numPages
      requires pageTable[p].virtualPage == p && 0 <= pageTable[p].physicalPage < machine.numPhysPages
      modifies pageTable, machine.mainMemory
      ensures var s := old(State()); State() == s.(pt := s.pt[p := s.pt[p].(valid := true, dirty := false)],
                                                   mem := s.mem[s.pt[p].physicalPage := s.store[p]])
    {
      pageTable[p] := pageTable[p].(valid := true);
      var data := ReadStore(pageTable[p].virtualPage);
      FillFrame(pageTable[p].physicalPage, data);
      assert Splice(old(Frames())[old(pageTable[p].physicalPage)], 0, data) == data;
      pageTable[p] := pageTable[p].(dirty := false);
    }

    /** The clock of AddrSpace::ClearPage: advance the hand to a victim. */
    method Sweep() returns (ghost steps: nat)
      requires pageTable.Length == numPages && clockHand < numPages
      requires forall p: nat :: p < numPages && pageTable[p].valid ==> pageTable[p].physicalPage >= 0
      requires exists v: nat :: v < numPages && pageTable[v].valid
      modifies this`clockHand, pageTable
      ensures clockHand < numPages
      ensures ClockChoice(old(pageTable[..]), old(clockHand), steps, clockHand, useFifo)
      ensures Swept(old(pageTable[..]), pageTable[..], old(clockHand), steps)
      ensures SameMapping(old(pageTable[..]), pageTable[..])
    {
      ghost var hand0, pt0 := clockHand, pageTable[..];
      ghost var w: nat :| w < numPages && pt0[w].valid;
      steps := 0;
      while !(pageTable[clockHand].valid && (!pageTable[clockHand].use || useFifo)
              && pageTable[clockHand].physicalPage >= 0)
        invariant clockHand < numPages && steps < 2 * numPages
        invariant clockHand == HandAt(hand0, steps, numPages)
        invariant Swept(pt0, pageTable[..], hand0, steps)
        invariant PassedOver(pt0, hand0, steps, useFifo)
        decreases 2 * numPages - steps
      {
        SweepStep(pt0, pageTable[..], hand0, steps, w, useFifo);
        NextHand(clockHand, numPages);
        pageTable[clockHand] := pageTable[clockHand].(use := false);
        clockHand := (clockHand + 1) % numPages;
        steps := steps + 1;
      }
      SweepStop(pt0, pageTable[..], hand0, steps, useFifo);
    }

    /** AddrSpace::ClearPage: the clock picks a page, which is paged out. */
    method ClearPage() returns (ghost steps: nat, ghost swept: seq<TranslationEntry>)
      requires Valid()
      requires exists v: nat :: v < numPages && pageTable[v].valid
      modifies this`clockHand, pageTable, backing.file, memmanage.bmap.words
      ensures clockHand < numPages
      ensures ClockChoice(old(pageTable[..]), old(clockHand), steps, clockHand, useFifo)
      ensures Swept(old(pageTable[..]), swept, old(clockHand), steps)
      ensures SameMapping(old(pageTable[..]), swept)
      ensures State() == Evict(old(State()).(pt := swept), clockHand)
    {
      steps := Sweep();
      swept := pageTable[..];
      PageOut(clockHand);
    }

    /** AddrSpace::ClearState: every frame goes back to the memory manager. */
    method ClearState()
      requires Valid()
      modifies memmanage.bmap.words
      ensures State() == old(State()).(marked := {})
    {
      ghost var s := State();
      for page := 0 to numPages
        invariant memmanage.bmap.Marked() == s.marked - FramesBelow(s.pt, page)
      {
        if pageTable[page].valid && pageTable[page].physicalPage >= 0 {
          memmanage.FreePage(pageTable[page].physicalPage);
        }
      }
      AllFrames(s);
    }

    /** pageTable[p].physicalPage = memmanage->AllocPage(). */
    method AllocFor(p: nat)
      requires Shape() && p < numPages && !pageTable[p].valid
      modifies pageTable, memmanage.bmap.words
      ensures pageTable[p].physicalPage >= 0 ==> FrameTaken(old(State()), State(), p, pageTable[p].physicalPage)
      ensures pageTable[p].physicalPage < 0 ==>
        && (forall f: nat :: f < machine.numPhysPages ==> f in old(memmanage.bmap.Marked()))
        && State() == old(State()).(pt := old(pageTable[..])[p := old(pageTable[p]).(physicalPage := -1)])
    {
      var frame := memmanage.AllocPage();
      pageTable[p] := pageTable[p].(physicalPage := frame);
    }

    /** Allocate a frame for page p, clearing a page if there is none; the allocation after
        ClearPage always succeeds. `base` is the state without the new frame. */
    method TakeFrame(p: nat) returns (ghost base: VM)
      requires Valid() && p < numPages && !pageTable[p].valid
      modifies this`clockHand, pageTable, backing.file, memmanage.bmap.words
      ensures clockHand < numPages
      ensures SamePages(old(State()), base, p)
      ensures FrameTaken(base, State(), p, pageTable[p].physicalPage)
    {
      base := State();
      AllocFor(p);
      if pageTable[p].physicalPage < 0 {
        FullMeansEvictable(base);
        SameMappingInv(base, pageTable[..]);
        base := ClearAndTake(p, base);
      }
    }

    /** The second try. s0 is the state before the first one. */
    method ClearAndTake(p: nat, ghost s0: VM) returns (ghost base: VM)
      requires Valid() && p < numPages && !pageTable[p].valid
      requires Inv(s0) && |s0.pt| == numPages && !s0.pt[p].valid && exists v: nat :: v < numPages && s0.pt[v].valid
      requires State() == s0.(pt := s0.pt[p := s0.pt[p].(physicalPage := -1)])
      modifies this`clockHand, pageTable, backing.file, memmanage.bmap.words
      ensures clockHand < numPages
      ensures SamePages(s0, base, p)
      ensures FrameTaken(base, State(), p, pageTable[p].physicalPage)
    {
      assert forall q: nat :: q < numPages ==> pageTable[q].valid == s0.pt[q].valid;
      ghost var steps, swept := ClearPage();
      EvictSamePages(s0, swept, clockHand, p, State());
      base := State();
      AllocFor(p);
    }

    /** demandpage, first arm: the page was loaded before and comes back from the store. */
    method ReloadPage(p: nat)
      requires Valid() && p < numPages && !pageTable[p].valid && pageTable[p].physicalPage >= 0
      modifies this`clockHand, pageTable, backing.file, memmanage.bmap.words, machine.mainMemory
      ensures Valid() && PagedIn(old(State()), State(), exe, p)
    {
      ghost var s0 := State();
      ghost var base := TakeFrame(p);
      ghost var s1 := State();
      PageIn(p);
      ReloadPagedIn(s0, base, s1, State(), p, exe);
    }

    /** demandpage, second arm: a first load from the executable, forced dirty. */
    method LoadPage(p: nat)
      requires Valid() && p < numPages && !pageTable[p].valid && pageTable[p].physicalPage < 0
      modifies this`clockHand, pageTable, backing.file, memmanage.bmap.words, machine.mainMemory
      ensures Valid() && PagedIn(old(State()), State(), exe, p)
    {
      ghost var s0 := State();
      ghost var base := TakeFrame(p);
      ghost var s1 := State();
      FillFrame(pageTable[p].physicalPage, LoadBytes(exe, p));
      pageTable[p] := pageTable[p].(dirty := true, valid := true);
      LoadPagedIn(s0, base, s1, State(), p, exe);
    }

    /** AddrSpace::demandpage on a page that faulted: it always succeeds. */
    method DemandPage(p: nat) returns (ok: bool)
      requires Valid() && p < numPages && !pageTable[p].valid
      modifies this`clockHand, pageTable, backing.file, memmanage.bmap.words, machine.mainMemory
      ensures ok && Valid()
      ensures PagedIn(old(State()), State(), exe, p)
      ensures old(pageTable[p].physicalPage) < 0 ==> PageImage(exe, p * PageSize, Contents(State(), p))
    {
      ghost var s0 := State();
      if pageTable[p].physicalPage >= 0 {
        ReloadPage(p);
      } else {
        LoadPage(p);
        FirstLoadIsImage(s0, State(), exe, p);
      }
      return true;
    }

    /** Machine::ReadMem, with the page-fault arm of ExceptionHandler. */
    method ReadMem(addr: int, size: AccessSize) returns (exception: ExceptionType, value: int)
      requires Valid()
      modifies this`clockHand, pageTable, backing.file, memmanage.bmap.words, machine.mainMemory
      ensures Valid()
      ensures exception.NoException? || exception.PageFaultException? || exception.AddressErrorException?
      ensures exception.AddressErrorException? <==> BadAddress(addr, size, numPages)
      ensures exception.AddressErrorException? ==> State() == old(State())
      ensures !exception.AddressErrorException? ==>
        Vpn(addr) < numPages && (exception.PageFaultException? <==> !old(pageTable[Vpn(addr)].valid))
      ensures exception.PageFaultException? ==> PagedIn(old(State()), State(), exe, Vpn(addr))
      ensures exception.NoException? ==>
        && Off(addr) + size <= PageSize
        && State() == Touch(old(State()), Vpn(addr), false)
        && pageTable[Vpn(addr)].use && pageTable[Vpn(addr)].dirty == old(pageTable[Vpn(addr)].dirty)
        && value == Decode(Contents(State(), Vpn(addr))[Off(addr)..Off(addr) + size])
    {
      value := 0;
      ghost var s0 := State();
      var physAddr;
      exception, physAddr := machine.Translate(addr, size, false);
      if exception.PageFaultException? {
        var _ := DemandPage(Vpn(addr));
      } else if exception.NoException? {
        TouchInv(s0, Vpn(addr), false);
        value := ReadFrame(addr, size, physAddr);
      }
    }

    method ReadFrame(addr: int, size: AccessSize, physAddr: nat) returns (value: int)
      requires Valid() && !BadAddress(addr, size, numPages) && pageTable[Vpn(addr)].valid
      requires physAddr == pageTable[Vpn(addr)].physicalPage * PageSize + Off(addr)
      ensures Off(addr) + size <= PageSize
      ensures value == Decode(Contents(State(), Vpn(addr))[Off(addr)..Off(addr) + size])
    {
      InRange(addr, size, numPages);
      BlockSlice(machine.mainMemory[..], machine.numPhysPages, PageSize, pageTable[Vpn(addr)].physicalPage,
                 Off(addr), size);
      value := Decode(machine.mainMemory[physAddr..physAddr + size]);
    }

    /** Machine::WriteMem, with the page-fault arm of ExceptionHandler. */
    method WriteMem(addr: int, size: AccessSize, value: int) returns (exception: ExceptionType)
      requires Valid()
      modifies this`clockHand, pageTable, backing.file, memmanage.bmap.words, machine.mainMemory
      ensures Valid()
      ensures exception.NoException? || exception.PageFaultException? || exception.AddressErrorException?
      ensures exception.AddressErrorException? <==> BadAddress(addr, size, numPages)
      ensures exception.AddressErrorException? ==> State() == old(State())
      ensures !exception.AddressErrorException? ==>
        Vpn(addr) < numPages && (exception.PageFaultException? <==> !old(pageTable[Vpn(addr)].valid))
      ensures exception.PageFaultException? ==> PagedIn(old(State()), State(), exe, Vpn(addr))
      ensures exception.NoException? ==>
        && Off(addr) + size <= PageSize
        && State() == Poke(Touch(old(State()), Vpn(addr), true), Vpn(addr), Off(addr), Encode(value, size))
        && pageTable[Vpn(addr)].use && pageTable[Vpn(addr)].dirty
    {
      ghost var s0 := State();
      var physAddr;
      exception, physAddr := machine.Translate(addr, size, true);
      if exception.PageFaultException? {
        var _ := DemandPage(Vpn(addr));
      } else if exception.NoException? {
        TouchInv(s0, Vpn(addr), true);
        WriteFrame(addr, size, physAddr, value);
      }
    }

    method WriteFrame(addr: int, size: AccessSize, physAddr: nat, value: int)
      requires Valid() && !BadAddress(addr, size, numPages)
      requires pageTable[Vpn(addr)].valid && pageTable[Vpn(addr)].dirty
      requires physAddr == pageTable[Vpn(addr)].physicalPage * PageSize + Off(addr)
      modifies machine.mainMemory
      ensures Valid() && Off(addr) + size <= PageSize
      ensures State() == Poke(old(State()), Vpn(addr), Off(addr), Encode(value, size))
    {
      InRange(addr, size, numPages);
      ghost var s0, f := State(), pageTable[Vpn(addr)].physicalPage;
      var data := Encode(value, size);
      BlocksSplice(machine.mainMemory[..], machine.numPhysPages, PageSize, f, Off(addr), data);
      PokeInv(s0, Vpn(addr), Off(addr), data);
      CopyInto(machine.mainMemory, physAddr, data);
    }

    /** A load instruction: after a page fault the instruction is restarted. One restart is
        always enough. The flat arrays describing the state are unchanged by it. */
    method LoadAccess(addr: int, size: AccessSize) returns (out: Outcome)
      requires Valid()
      modifies this`clockHand, pageTable, backing.file, memmanage.bmap.words, machine.mainMemory
      ensures Valid()
      ensures forall flat :: Agrees(State(), exe, flat) ==>
        old(Agrees(State(), exe, flat)) && FlatStep(flat, numPages, Load(addr, size)) == (out, flat)
    {
      ghost var s0 := State();
      var exception, value := ReadMem(addr, size);
      ghost var s1 := State();
      if exception.PageFaultException? {
        exception, value := ReadMem(addr, size);
      }
      if exception.AddressErrorException? {
        return AddressError;
      }
      out := Value(value);
      ghost var s2, p := State(), Vpn(addr);
      forall flat | Agrees(s2, exe, flat)
        ensures Agrees(s0, exe, flat) && FlatStep(flat, numPages, Load(addr, size)) == (out, flat)
      {
        LoadAgrees(s0, s1, s2, exe, addr, size, value, flat);
      }
    }

    /** A store instruction, restarted once after a page fault. `before` are the bytes it
        overwrites. */
    method StoreAccess(addr: int, size: AccessSize, value: int) returns (out: Outcome, ghost before: seq<byte>)
      requires Valid()
      modifies this`clockHand, pageTable, backing.file, memmanage.bmap.words, machine.mainMemory
      ensures Valid()
      ensures BadAddress(addr, size, numPages) <==> out == AddressError
      ensures out == AddressError ==> State() == old(State())
      ensures !BadAddress(addr, size, numPages) ==>
        && |before| == size
        && forall after :: Agrees(State(), exe, after) ==>
             && U32(addr) + size <= |after|
             && old(Agrees(State(), exe, Splice(after, U32(addr), before)))
             && FlatStep(Splice(after, U32(addr), before), numPages, Store(addr, size, value)) == (out, after)
    {
      ghost var s0 := State();
      before := [];
      var exception := WriteMem(addr, size, value);
      if exception.AddressErrorException? {
        return AddressError, [];
      }
      ghost var s1 := s0;
      if exception.PageFaultException? {
        s1 := State();
        exception := WriteMem(addr, size, value);
      }
      out := Outcome.Stored;
      ghost var s2 := State();
      before := Contents(s1, Vpn(addr))[Off(addr)..Off(addr) + size];
      forall after | Agrees(s2, exe, after)
        ensures U32(addr) + size <= |after|
        ensures Agrees(s0, exe, Splice(after, U32(addr), before))
        ensures FlatStep(Splice(after, U32(addr), before), numPages, Store(addr, size, value)) == (out, after)
      {
        StoreAgrees(s0, s1, s2, exe, addr, size, value, after);
      }
    }

    /** Paging is invisible over whole runs: some flat array described the memory at the
        start -- agreeing with it on every loaded page and with the executable on every
        other -- on which the program would have produced exactly these outcomes. */
    method Run(ops: seq<Access>) returns (outs: seq<Outcome>, ghost flat: seq<byte>)
      requires Valid()
      modifies this`clockHand, pageTable, backing.file, memmanage.bmap.words, machine.mainMemory
      ensures Valid()
      ensures old(Agrees(State(), exe, flat))
      ensures outs == FlatRun(flat, numPages, ops)
      decreases |ops|
    {
      if ops == [] {
        flat := SomeFlat(State(), exe);
        return [], flat;
      }
      match ops[0] {
        case Load(addr, size) =>
          var out := LoadAccess(addr, size);
          if out.AddressError? {
            flat := SomeFlat(State(), exe);
            return [out], flat;
          }
          outs, flat := Run(ops[1..]);
          outs := [out] + outs;
        case Store(addr, size, value) =>
          var out; ghost var before, after;
          out, before := StoreAccess(addr, size, value);
          if out.AddressError? {
            flat := SomeFlat(State(), exe);
            return [out], flat;
          }
          outs, after := Run(ops[1..]);
          flat := Splice(after, U32(addr), before);
          outs := [out] + outs;
      }
    }
  }
}
