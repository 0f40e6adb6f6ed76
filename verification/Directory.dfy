/** code/filesys/directory.cc, and block allocation of code/filesys/filehdr.cc. */
module Directories {
  import opened Wrappers
  import opened Bits
  import opened Bytes
  import opened BitMaps
  import opened OpenFiles
  import opened DiskFormat
  import opened Volumes

  /** The first entry in use under this name, or -1. */
  ghost predicate IsIndexOf(t: seq<DirectoryEntry>, name: seq<byte>, i: int) {
    if i == -1 then forall j :: 0 <= j < |t| && t[j].inUse ==> Key(t[j].name) != Key(name)
    else
      && 0 <= i < |t| && t[i].inUse && Key(t[i].name) == Key(name)
      && forall j :: 0 <= j < i && t[j].inUse ==> Key(t[j].name) != Key(name)
  }

  class Directory {
    const table: array<DirectoryEntry>

    constructor (size: nat)
      ensures fresh(table) && table.Length == size
      ensures forall i :: 0 <= i < size ==> !table[i].inUse
    {
      table := new DirectoryEntry[size](_ => DirectoryEntry(false, 0, Zeros(NAME_FIELD)));
    }

    method FindIndex(name: seq<byte>) returns (r: int)
      ensures IsIndexOf(table[..], name, r)
    {
      for i := 0 to table.Length
        invariant forall j :: 0 <= j < i && table[j].inUse ==> Key(table[j].name) != Key(name)
      {
        if table[i].inUse && Key(table[i].name) == Key(name) {
          return i;
        }
      }
      return -1;
    }

    method Find(name: seq<byte>) returns (sector: int, ghost at: int)
      ensures IsIndexOf(table[..], name, at)
      ensures sector == if at == -1 then -1 else table[at].sector
    {
      var i := FindIndex(name);
      return if i != -1 then table[i].sector else -1, i;
    }

    /** Put the name in the first free entry; fails on a known name or a full table. */
    method Add(name: seq<byte>, newSector: word) returns (ok: bool, ghost at: nat)
      modifies table
      ensures ok <==> old(IsIndexOf(table[..], name, -1)) && exists i :: 0 <= i < table.Length && !old(table[i].inUse)
      ensures !ok ==> table[..] == old(table[..])
      ensures ok ==>
        && at < table.Length && !old(table[at].inUse)
        && table[..] == old(table[..])[at := DirectoryEntry(true, newSector, Stored(name, old(table[at].name)))]
    {
      at := 0;
      var k := FindIndex(name);
      if k != -1 {
        assert table[k].inUse;
        return false, 0;
      }
      for i := 0 to table.Length
        invariant table[..] == old(table[..])
        invariant forall j :: 0 <= j < i ==> table[j].inUse
      {
        if !table[i].inUse {
          table[i] := DirectoryEntry(true, newSector, Stored(name, table[i].name));
          return true, i;
        }
      }
      return false, 0;
    }

    method Remove(name: seq<byte>) returns (ok: bool, ghost at: int)
      modifies table
      ensures old(IsIndexOf(table[..], name, at)) && (ok <==> at != -1)
      ensures table[..] == if at == -1 then old(table[..]) else old(table[..])[at := old(table[at]).(inUse := false)]
    {
      var i := FindIndex(name);
      if i == -1 {
        return false, i;
      }
      table[i] := table[i].(inUse := false);
      return true, i;
    }
  }

  /** The sectors of a list, as a set. */
  ghost function SetOf(s: seq<nat>): set<nat> { set x | x in s }

  /** FileHeader::Allocate: fails, changing nothing, exactly when there are too few clear
      sectors; otherwise the file gets that many distinct sectors, all clear before. `overrun`:
      there are enough, but more than the header has room for. The source does not look, and
      its loop stores past the end of dataSectors; nothing is said about what follows. */
  method Allocate(freeMap: BitMap, fileSize: nat) returns (ok: bool, overrun: bool, hdr: FileHeader)
    requires freeMap.Valid()
    modifies freeMap.words
    ensures overrun <==> NumDirect < SectorsFor(fileSize) <= |ClearBelow(old(freeMap.Marked()), freeMap.numBits)|
    ensures ok <==> !overrun && SectorsFor(fileSize) <= |ClearBelow(old(freeMap.Marked()), freeMap.numBits)|
    ensures !ok ==> freeMap.Marked() == old(freeMap.Marked())
    ensures ok ==>
      && hdr.numBytes == fileSize && |hdr.dataSectors| == NumDirect
      && WellFormed(hdr, freeMap.numBits)
      && DataSet(hdr) !! old(freeMap.Marked())
      && freeMap.Marked() == old(freeMap.Marked()) + DataSet(hdr)
      && (forall i :: hdr.numSectors <= i < NumDirect ==> hdr.dataSectors[i] == 0)
  {
    var n := SectorsFor(fileSize);
    hdr := FileHeader(fileSize, n, []);
    var clear := freeMap.NumClear();
    if clear < n {
      return false, false, hdr;
    }
    if NumDirect < n {
      return false, true, hdr;
    }
    var blocks: seq<nat> := [];
    ghost var marked0 := freeMap.Marked();
    for i := 0 to n
      invariant |blocks| == i && NoDup(blocks)
      invariant forall j :: 0 <= j < i ==> blocks[j] < freeMap.numBits && blocks[j] !in marked0
      invariant freeMap.Marked() == marked0 + SetOf(blocks)
      invariant |ClearBelow(freeMap.Marked(), freeMap.numBits)| >= n - i
    {
      ghost var before := freeMap.Marked();
      var s := freeMap.Find();
      SomeClear(before, freeMap.numBits);
      MarkOne(before, freeMap.numBits, s);
      assert SetOf(blocks + [s]) == SetOf(blocks) + {s};
      blocks := blocks + [s];
    }
    hdr := FileHeader(fileSize, n, blocks + seq(NumDirect - n, _ => 0));
    assert hdr.dataSectors[..n] == blocks;
    assert DataSet(hdr) == SetOf(blocks);
    return true, false, hdr;
  }

  lemma SomeClear(marked: set<nat>, n: nat)
    requires |ClearBelow(marked, n)| > 0
    ensures exists i: nat :: i < n && i !in marked
  {
    var i :| i in ClearBelow(marked, n);
  }

  lemma MarkOne(marked: set<nat>, n: nat, s: nat)
    requires s < n && s !in marked
    ensures |ClearBelow(marked + {s}, n)| == |ClearBelow(marked, n)| - 1
  {
    assert ClearBelow(marked + {s}, n) == ClearBelow(marked, n) - {s};
  }

  /** FileHeader::Deallocate: the ASSERT that each block is marked holds, and the blocks
      are clear afterwards. */
  method Deallocate(hdr: FileHeader, freeMap: BitMap)
    requires freeMap.Valid() && WellFormed(hdr, freeMap.numBits) && DataSet(hdr) <= freeMap.Marked()
    modifies freeMap.words
    ensures freeMap.Marked() == old(freeMap.Marked()) - DataSet(hdr)
  {
    for i := 0 to hdr.numSectors
      invariant freeMap.Marked() == old(freeMap.Marked()) - FirstBlocks(hdr, i)
    {
      assert hdr.dataSectors[i] in DataSet(hdr) && hdr.dataSectors[i] !in FirstBlocks(hdr, i);
      var used := freeMap.Test(hdr.dataSectors[i]);
      assert used;
      freeMap.Clear(hdr.dataSectors[i]);
      assert FirstBlocks(hdr, i + 1) == FirstBlocks(hdr, i) + {hdr.dataSectors[i]};
    }
    assert FirstBlocks(hdr, hdr.numSectors) == DataSet(hdr);
  }

  ghost function FirstBlocks(h: FileHeader, n: nat): set<nat>
    requires n <= |h.dataSectors|
  {
    set i | 0 <= i < n :: h.dataSectors[i]
  }
}
