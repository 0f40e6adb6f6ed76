/** Files as bytes over sectors: code/filesys/openfile.cc and the address map of
    code/filesys/filehdr.cc. */
module OpenFiles {
  import opened Bytes

  type SectorBytes = n: nat | n >= 8 && n % 4 == 0 witness 8

  /** Symbolic; 128 in code/machine/disk.h. */
  const SectorSize: SectorBytes

  type Sector = s: seq<byte> | |s| == SectorSize witness Zeros(SectorSize)

  /** The in-memory file header; only the first numSectors entries of dataSectors count. */
  datatype FileHeader = FileHeader(numBytes: nat, numSectors: nat, dataSectors: seq<nat>)

  /** divRoundUp(n, SectorSize) of code/threads/utility.h. */
  function SectorsFor(n: nat): (q: nat)
    ensures n <= Span(q, SectorSize)
  {
    BlockNumber(n + SectorSize - 1, SectorSize)
  }

  lemma SectorsForIsRoundUp(n: nat)
    ensures SectorsFor(n) == (n + SectorSize - 1) / SectorSize
  {
    BlockNumberIsQuotient(n + SectorSize - 1, SectorSize);
  }

  /** The header describes a file on a disk of n sectors: one distinct sector per block. */
  ghost predicate WellFormed(h: FileHeader, n: nat) {
    && h.numSectors <= |h.dataSectors|
    && h.numSectors == SectorsFor(h.numBytes)
    && (forall i :: 0 <= i < h.numSectors ==> h.dataSectors[i] < n)
    && (forall i, j :: 0 <= i < j < h.numSectors ==> h.dataSectors[i] != h.dataSectors[j])
  }

  /** The data sectors of a file, in file order. */
  ghost function FileBlocks(disk: seq<Sector>, h: FileHeader): (b: seq<Sector>)
    requires WellFormed(h, |disk|)
    ensures |b| == h.numSectors
    ensures forall i :: 0 <= i < h.numSectors ==> b[i] == disk[h.dataSectors[i]]
  {
    seq(h.numSectors, i requires 0 <= i < h.numSectors => disk[h.dataSectors[i]])
  }

  /** The contents of a file: its blocks without the slack at the end of the last one. */
  ghost function FileBytes(disk: seq<Sector>, h: FileHeader): (s: seq<byte>)
    requires WellFormed(h, |disk|)
    ensures |s| == h.numBytes
  {
    ConcatLength(FileBlocks(disk, h), SectorSize);
    Concat(FileBlocks(disk, h))[..h.numBytes]
  }

  class SynchDisk {
    const sectors: array<Sector>

    constructor (n: nat)
      ensures fresh(sectors) && sectors.Length == n
    {
      sectors := new Sector[n](_ => Zeros(SectorSize));
    }

    method ReadSector(n: nat) returns (data: Sector)
      requires n < sectors.Length
      ensures data == sectors[n]
    {
      data := sectors[n];
    }

    method WriteSector(n: nat, data: Sector)
      requires n < sectors.Length
      modifies sectors
      ensures sectors[..] == old(sectors[..])[n := data]
    {
      sectors[n] := data;
    }
  }

  /** How many of `count` bytes at `position` lie inside a file of the given length. */
  function Clip(count: int, position: nat, length: nat): nat {
    if count <= 0 || position >= length then 0
    else if position + count > length then length - position
    else count
  }

  class OpenFile {
    const disk: SynchDisk
    const hdr: FileHeader
    var seekPosition: nat

    ghost predicate Valid() {
      WellFormed(hdr, disk.sectors.Length)
    }

    ghost function Contents(): seq<byte>
      requires Valid()
      reads disk.sectors
    {
      FileBytes(disk.sectors[..], hdr)
    }

    constructor (disk: SynchDisk, hdr: FileHeader)
      ensures this.disk == disk && this.hdr == hdr && seekPosition == 0
    {
      this.disk := disk;
      this.hdr := hdr;
      seekPosition := 0;
    }

    method Seek(position: nat)
      modifies this`seekPosition
      ensures seekPosition == position
    {
      seekPosition := position;
    }

    /** Read blocks first..last of the file into a buffer. */
    method ReadBlocks(first: nat, last: nat) returns (buf: array<byte>)
      requires Valid() && first <= last < hdr.numSectors
      ensures fresh(buf)
      ensures buf[..] == Concat(FileBlocks(disk.sectors[..], hdr)[first..last + 1])
    {
      var n := 1 + last - first;
      ghost var blocks := FileBlocks(disk.sectors[..], hdr);
      buf := new byte[Span(n, SectorSize)];
      for i := 0 to n
        invariant FileBlocks(disk.sectors[..], hdr) == blocks && Filled(buf[..], blocks, first, i)
      {
        SpanMonotone(i, n, SectorSize);
        ReadBlock(buf, first, i, blocks);
      }
      assert buf[..] == buf[..][..Span(n, SectorSize)];
    }

    method ReadBlock(buf: array<byte>, first: nat, i: nat, ghost blocks: seq<Sector>)
      requires Valid() && first + i < hdr.numSectors && blocks == FileBlocks(disk.sectors[..], hdr)
      requires Span(i, SectorSize) + SectorSize <= buf.Length
      requires Filled(buf[..], blocks, first, i)
      modifies buf
      ensures blocks == FileBlocks(disk.sectors[..], hdr) && Filled(buf[..], blocks, first, i + 1)
    {
      var data := disk.ReadSector(hdr.dataSectors[first + i]);
      ghost var before := buf[..];
      CopyInto(buf, Span(i, SectorSize), data);
      OneMoreBlock(before, buf[..], blocks, first, i);
    }

    /** OpenFile::ReadAt: the requested slice of the file, clipped at its end. */
    method ReadAt(numBytes: int, position: nat) returns (into: seq<byte>)
      requires Valid()
      ensures into == Slice(Contents(), numBytes, position)
    {
      if numBytes <= 0 || position >= hdr.numBytes {
        return [];
      }
      var count := if position + numBytes > hdr.numBytes then hdr.numBytes - position else numBytes;
      into := ReadInside(count, position);
    }

    /** ... once the request is known to lie inside the file. */
    method ReadInside(count: nat, position: nat) returns (into: seq<byte>)
      requires Valid() && 0 < count && position + count <= hdr.numBytes
      ensures into == Contents()[position..position + count]
    {
      var first, last := BlockNumber(position, SectorSize), BlockNumber(position + count - 1, SectorSize);
      ReadCovers(disk.sectors[..], hdr, position, count, first, last);
      var buf := ReadBlocks(first, last);
      var off := position - Span(first, SectorSize);
      into := buf[off..off + count];
    }

    /** Write the pieces of buf to blocks first..last. */
    method WriteBlocks(first: nat, last: nat, buf: array<byte>)
      requires Valid() && first <= last < hdr.numSectors && buf.Length == Span(1 + last - first, SectorSize)
      modifies disk.sectors
      ensures BlocksWritten(old(disk.sectors[..]), disk.sectors[..], hdr, first, last, buf[..])
    {
      for i := first to last + 1
        invariant forall j {:trigger hdr.dataSectors[j]} :: first <= j < i ==>
          disk.sectors[hdr.dataSectors[j]] == Piece(buf[..], SectorSize, 1 + last - first, j - first)
        invariant forall x {:trigger disk.sectors[x]} ::
          0 <= x < disk.sectors.Length && x !in Touched(hdr, first, last) ==>
          disk.sectors[x] == old(disk.sectors[x])
      {
        disk.WriteSector(hdr.dataSectors[i], Piece(buf[..], SectorSize, 1 + last - first, i - first));
      }
    }

    /** Read the first and last block of a write of `count` bytes into a new buffer, if they
        are to be modified only in part. */
    method ReadEdges(position: nat, count: nat, base: nat, lastOff: nat) returns (buf: array<byte>, ghost b0: seq<byte>)
      requires Valid()
      ensures fresh(buf) && buf.Length == |b0| == lastOff + SectorSize
      ensures buf[..] == WithEdges(Contents(), b0, position, count, base, lastOff)
    {
      ghost var file := Contents();
      buf := new byte[lastOff + SectorSize];
      b0 := buf[..];
      var firstAligned := position == base;
      var lastAligned := position + count == base + lastOff + SectorSize;
      ReadPartial(!firstAligned, buf, 0, base, file);
      ReadPartial(!lastAligned && (lastOff != 0 || firstAligned), buf, lastOff, base + lastOff, file);
    }

    /** The buffer of WriteAt, for blocks starting at file offset `base`, the last of them at
        buffer offset `lastOff`. */
    method FillBuffer(from: seq<byte>, position: nat, base: nat, lastOff: nat) returns (buf: array<byte>)
      requires Valid() && from != [] && position + |from| <= hdr.numBytes
      requires base <= position < base + SectorSize && (lastOff == 0 || lastOff >= SectorSize)
      requires base + lastOff < position + |from| <= base + lastOff + SectorSize
      ensures fresh(buf) && buf.Length == lastOff + SectorSize
      ensures Prepared(Contents(), buf[..], base, position, from)
    {
      ghost var b0;
      buf, b0 := ReadEdges(position, |from|, base, lastOff);
      CopyInto(buf, position - base, from);
      BufferPrepared(Contents(), b0, buf[..], base, lastOff, position, from);
    }

    /** if (partial) ReadAt(&buf[at], SectorSize, position). */
    method ReadPartial(partial: bool, buf: array<byte>, at: nat, position: nat, ghost file: seq<byte>)
      requires Valid() && at + SectorSize <= buf.Length && file == Contents()
      modifies buf
      ensures file == Contents()
      ensures buf[..] == ReadOver(partial, old(buf[..]), at, SectorSlice(file, position))
    {
      if partial {
        var data := ReadAt(SectorSize, position);
        CopyInto(buf, at, data);
      }
    }

    /** OpenFile::WriteAt: splice the data into the file, clipped at its end. */
    method WriteAt(from: seq<byte>, position: nat) returns (count: nat)
      requires Valid()
      modifies disk.sectors
      ensures count == Clip(|from|, position, hdr.numBytes)
      ensures count > 0 ==> WroteAt(old(disk.sectors[..]), disk.sectors[..], hdr, position, from[..count])
      ensures count == 0 ==> disk.sectors[..] == old(disk.sectors[..])
    {
      if |from| <= 0 || position >= hdr.numBytes {
        return 0;
      }
      count := if position + |from| > hdr.numBytes then hdr.numBytes - position else |from|;
      var first, last := BlockNumber(position, SectorSize), BlockNumber(position + count - 1, SectorSize);
      BufferLayout(hdr, position, count, first, last);
      var buf := FillBuffer(from[..count], position, Span(first, SectorSize), Span(last - first, SectorSize));
      ghost var disk0 := disk.sectors[..];
      WriteBlocks(first, last, buf);
      WrittenFile(disk0, disk.sectors[..], hdr, first, last, buf[..], position, from[..count]);
    }

    /** OpenFile::Read and Write: sequential access through seekPosition. */
    method Read(numBytes: int) returns (into: seq<byte>)
      requires Valid()
      modifies this`seekPosition
      ensures into == Slice(Contents(), numBytes, old(seekPosition))
      ensures seekPosition == old(seekPosition) + |into|
    {
      into := ReadAt(numBytes, seekPosition);
      seekPosition := seekPosition + |into|;
    }

    method Write(from: seq<byte>) returns (count: nat)
      requires Valid()
      modifies this`seekPosition, disk.sectors
      ensures count == Clip(|from|, old(seekPosition), hdr.numBytes)
      ensures count > 0 ==>
        WroteAt(old(disk.sectors[..]), disk.sectors[..], hdr, old(seekPosition), from[..count])
      ensures count == 0 ==> disk.sectors[..] == old(disk.sectors[..])
      ensures seekPosition == old(seekPosition) + count
    {
      count := WriteAt(from, seekPosition);
      seekPosition := seekPosition + count;
    }
  }

  /** Sizes and offsets of the write buffer. */
  lemma BufferLayout(h: FileHeader, position: nat, count: nat, first: nat, last: nat)
    requires h.numSectors == SectorsFor(h.numBytes)
    requires 0 < count && position + count <= h.numBytes
    requires first == BlockNumber(position, SectorSize) && last == BlockNumber(position + count - 1, SectorSize)
    ensures first <= last < h.numSectors
    ensures Span(first, SectorSize) <= position < Span(first, SectorSize) + SectorSize
    ensures Span(last, SectorSize) == Span(first, SectorSize) + Span(last - first, SectorSize)
    ensures Span(last, SectorSize) < position + count <= Span(last, SectorSize) + SectorSize
    ensures Span(last + 1, SectorSize) == Span(last, SectorSize) + SectorSize
    ensures Span(1 + last - first, SectorSize) == Span(last - first, SectorSize) + SectorSize
    ensures if first == last then Span(last - first, SectorSize) == 0 else Span(last - first, SectorSize) >= SectorSize
  {
    TouchedBlocks(h, position, count, first, last);
    SpanAdd(first, last - first, SectorSize);
    if first < last { SpanMonotone(0, last - first, SectorSize); }
  }

  /** The buffer starts with i blocks of the file, from block `first` on. */
  ghost predicate Filled(buf: seq<byte>, blocks: seq<Sector>, first: nat, i: nat) {
    && first + i <= |blocks| && Span(i, SectorSize) <= |buf|
    && buf[..Span(i, SectorSize)] == Concat(blocks[first..first + i])
  }

  /** One more block in the buffer. */
  lemma {:induction false} OneMoreBlock(buf: seq<byte>, buf': seq<byte>, blocks: seq<Sector>, first: nat, i: nat)
    requires Filled(buf, blocks, first, i) && first + i < |blocks| && Span(i, SectorSize) + SectorSize <= |buf|
    requires buf' == Splice(buf, Span(i, SectorSize), blocks[first + i])
    ensures Filled(buf', blocks, first, i + 1)
  {
    var more := blocks[first..first + i + 1];
    assert more[..i] == blocks[first..first + i] && more[i] == blocks[first + i];
    assert Concat(more) == Concat(more[..i]) + more[i];
    assert Span(i + 1, SectorSize) == Span(i, SectorSize) + SectorSize;
    assert buf'[..Span(i, SectorSize) + SectorSize] == buf[..Span(i, SectorSize)] + blocks[first + i];
  }

  function ReadOver(partial: bool, buf: seq<byte>, at: nat, data: seq<byte>): (r: seq<byte>)
    requires at + SectorSize <= |buf| && |data| <= SectorSize
    ensures |r| == |buf|
  {
    if partial then Splice(buf, at, data) else buf
  }

  /** A write buffer with the first and the last block read in, if they are to be modified only in
      part. */
  function WithEdges(file: seq<byte>, b0: seq<byte>, position: nat, count: nat, base: nat,
                     lastOff: nat): (b2: seq<byte>)
    requires |b0| == lastOff + SectorSize
    ensures |b2| == |b0|
  {
    var b1 := ReadOver(position != base, b0, 0, SectorSlice(file, base));
    ReadOver(position + count != base + lastOff + SectorSize && (lastOff != 0 || position == base), b1, lastOff,
             SectorSlice(file, base + lastOff))
  }

  /** With the edges read in and the data copied, the write buffer is as it should be:
      also for unaligned ends, a single block, and a last block cut short by the file's end. */
  lemma BufferPrepared(file: seq<byte>, b0: seq<byte>, b3: seq<byte>, base: nat, lastOff: nat, position: nat,
                       data: seq<byte>)
    requires |b0| == lastOff + SectorSize && (lastOff == 0 || lastOff >= SectorSize)
    requires data != [] && position + |data| <= |file|
    requires base <= position < base + SectorSize
    requires base + lastOff < position + |data| <= base + lastOff + SectorSize
    requires b3 == Splice(WithEdges(file, b0, position, |data|, base, lastOff), position - base, data)
    ensures Prepared(file, b3, base, position, data)
  {
    var b2 := WithEdges(file, b0, position, |data|, base, lastOff);
    forall k | 0 <= k < |b3| && base + k < |file|
      ensures b3[k] == Splice(file, position, data)[base + k]
    {
      if k < position - base {
        BeforeData(file, b0, base, lastOff, position, |data|, k);
      } else if k >= position - base + |data| {
        AfterData(file, b0, base, lastOff, position, |data|, k);
      }
    }
  }

  lemma BeforeData(file: seq<byte>, b0: seq<byte>, base: nat, lastOff: nat, position: nat, count: nat, k: nat)
    requires |b0| == lastOff + SectorSize && (lastOff == 0 || lastOff >= SectorSize)
    requires base <= position < base + SectorSize && k < position - base && base + k < |file|
    ensures WithEdges(file, b0, position, count, base, lastOff)[k] == file[base + k]
  {
    var b1 := Splice(b0, 0, SectorSlice(file, base));
    Overlaid(file, b0, b1, 0, base, k);
  }

  lemma AfterData(file: seq<byte>, b0: seq<byte>, base: nat, lastOff: nat, position: nat, count: nat, k: nat)
    requires |b0| == lastOff + SectorSize && (lastOff == 0 || lastOff >= SectorSize)
    requires base <= position < base + SectorSize && base + lastOff < position + count
    requires position - base + count <= k < |b0| && base + k < |file|
    ensures WithEdges(file, b0, position, count, base, lastOff)[k] == file[base + k]
  {
    var b1 := ReadOver(position != base, b0, 0, SectorSlice(file, base));
    assert position + count != base + lastOff + SectorSize;
    if lastOff != 0 || position == base {
      LastEdge(file, b1, base, lastOff, k);
    } else {
      Overlaid(file, b0, b1, 0, base, k);
    }
  }

  lemma LastEdge(file: seq<byte>, b1: seq<byte>, base: nat, lastOff: nat, k: nat)
    requires |b1| == lastOff + SectorSize && lastOff <= k < |b1| && base + k < |file|
    ensures Splice(b1, lastOff, SectorSlice(file, base + lastOff))[k] == file[base + k]
  {
    Overlaid(file, b1, Splice(b1, lastOff, SectorSlice(file, base + lastOff)), lastOff, base + lastOff, k);
  }

  /** After one sector of the file at `from` is copied to offset `at`, the bytes there agree. */
  lemma Overlaid(file: seq<byte>, b: seq<byte>, b': seq<byte>, at: nat, from: nat, k: nat)
    requires at + SectorSize <= |b| && b' == Splice(b, at, SectorSlice(file, from))
    requires at <= k < at + SectorSize && from + (k - at) < |file|
    ensures b'[k] == file[from + (k - at)]
  {}

  /** One sector's worth of a file, or less at its end. */
  function SectorSlice(s: seq<byte>, position: nat): (r: seq<byte>)
    ensures |r| <= SectorSize
  {
    Slice(s, SectorSize, position)
  }

  /** Data sectors that a write to blocks first..last may change. */
  ghost function Touched(h: FileHeader, first: nat, last: nat): set<nat>
    requires first <= last + 1 <= |h.dataSectors|
  {
    set i | first <= i <= last :: h.dataSectors[i]
  }

  /** disk' is disk with blocks first..last of the file replaced by the pieces of buf. */
  ghost predicate BlocksWritten(disk: seq<Sector>, disk': seq<Sector>, h: FileHeader, first: nat, last: nat,
                                buf: seq<byte>)
    requires WellFormed(h, |disk|) && first <= last < h.numSectors
  {
    && |disk'| == |disk| && |buf| == Span(1 + last - first, SectorSize)
    && (forall j {:trigger h.dataSectors[j]} :: first <= j <= last ==>
          disk'[h.dataSectors[j]] == Piece(buf, SectorSize, 1 + last - first, j - first))
    && (forall x {:trigger disk'[x]} :: 0 <= x < |disk| && x !in Touched(h, first, last) ==> disk'[x] == disk[x])
  }

  lemma OtherBlocks(disk: seq<Sector>, disk': seq<Sector>, h: FileHeader, first: nat, last: nat, buf: seq<byte>)
    requires WellFormed(h, |disk|) && first <= last < h.numSectors
    requires BlocksWritten(disk, disk', h, first, last, buf)
    ensures var b, b' := FileBlocks(disk, h), FileBlocks(disk', h);
      b'[..first] == b[..first] && b'[last + 1..] == b[last + 1..]
  {}

  /** Writing blocks is writing that stretch of the file's bytes. */
  lemma WrittenBlocks(disk: seq<Sector>, disk': seq<Sector>, h: FileHeader, first: nat, last: nat, buf: seq<byte>)
    requires WellFormed(h, |disk|) && first <= last < h.numSectors
    requires BlocksWritten(disk, disk', h, first, last, buf)
    ensures var c := Concat(FileBlocks(disk, h));
      && Span(first, SectorSize) <= Span(last + 1, SectorSize) <= |c|
      && Concat(FileBlocks(disk', h)) == c[..Span(first, SectorSize)] + buf + c[Span(last + 1, SectorSize)..]
  {
    OtherBlocks(disk, disk', h, first, last, buf);
    NewBlocks(disk, disk', h, first, last, buf);
    ConcatReplace(FileBlocks(disk, h), FileBlocks(disk', h), SectorSize, first, last + 1);
  }

  lemma NewBlocks(disk: seq<Sector>, disk': seq<Sector>, h: FileHeader, first: nat, last: nat, buf: seq<byte>)
    requires WellFormed(h, |disk|) && first <= last < h.numSectors
    requires BlocksWritten(disk, disk', h, first, last, buf)
    ensures Concat(FileBlocks(disk', h)[first..last + 1]) == buf
  {
    var m := FileBlocks(disk', h)[first..last + 1];
    forall k | 0 <= k < |m|
      ensures m[k] == Piece(buf, SectorSize, |m|, k)
    {
      assert m[k] == disk'[h.dataSectors[first + k]];
    }
    ConcatOfPieces(m, buf, SectorSize);
  }

  /** buf holds what the file should contain from block `first` on. */
  ghost predicate Prepared(file: seq<byte>, buf: seq<byte>, base: nat, position: nat, data: seq<byte>)
    requires position + |data| <= |file|
  {
    forall k :: 0 <= k < |buf| && base + k < |file| ==> buf[k] == Splice(file, position, data)[base + k]
  }

  /** What a write of data at position leaves on the disk: the file is spliced, and every
      sector outside the blocks that the request touches is as before. */
  ghost predicate WroteAt(disk: seq<Sector>, disk': seq<Sector>, h: FileHeader, position: nat, data: seq<byte>) {
    && WellFormed(h, |disk|) && |disk'| == |disk| && data != [] && position + |data| <= h.numBytes
    && FileBytes(disk', h) == Splice(FileBytes(disk, h), position, data)
    && var first, last := BlockNumber(position, SectorSize), BlockNumber(position + |data| - 1, SectorSize);
       && first <= last < h.numSectors
       && forall x :: 0 <= x < |disk| && x !in Touched(h, first, last) ==> disk'[x] == disk[x]
  }

  lemma WrittenFile(disk: seq<Sector>, disk': seq<Sector>, h: FileHeader, first: nat, last: nat, buf: seq<byte>,
                    position: nat, data: seq<byte>)
    requires WellFormed(h, |disk|) && first <= last < h.numSectors
    requires BlocksWritten(disk, disk', h, first, last, buf)
    requires position + |data| <= h.numBytes && Span(first, SectorSize) <= position
    requires position + |data| <= Span(last + 1, SectorSize)
    requires Prepared(FileBytes(disk, h), buf, Span(first, SectorSize), position, data)
    requires data != [] && first == BlockNumber(position, SectorSize)
    requires last == BlockNumber(position + |data| - 1, SectorSize)
    ensures WroteAt(disk, disk', h, position, data)
  {
    WrittenBlocks(disk, disk', h, first, last, buf);
    SpanAdd(first, 1 + last - first, SectorSize);
    assert Span(last + 1, SectorSize) == Span(first, SectorSize) + |buf|;
    var c := Concat(FileBlocks(disk, h));
    ConcatLength(FileBlocks(disk, h), SectorSize);
    SplicedBuffer(c[..Span(first, SectorSize)], buf, c[Span(last + 1, SectorSize)..], c, h.numBytes, position, data);
  }

  lemma SplicedBuffer(pre: seq<byte>, buf: seq<byte>, post: seq<byte>, c: seq<byte>, n: nat, position: nat,
                      data: seq<byte>)
    requires |c| == |pre| + |buf| + |post| && n <= |c| && position + |data| <= n
    requires pre == c[..|pre|] && post == c[|pre| + |buf|..]
    requires |pre| <= position && position + |data| <= |pre| + |buf|
    requires Prepared(c[..n], buf, |pre|, position, data)
    ensures (pre + buf + post)[..n] == Splice(c[..n], position, data)
  {
    var now, want := (pre + buf + post)[..n], Splice(c[..n], position, data);
    forall j | 0 <= j < n
      ensures now[j] == want[j]
    {
      if |pre| <= j < |pre| + |buf| {
        assert now[j] == buf[j - |pre|];
        assert buf[j - |pre|] == want[|pre| + (j - |pre|)];
      }
    }
  }

  /** The part of a byte sequence that a read request covers. */
  function Slice(s: seq<byte>, count: int, position: nat): seq<byte> {
    if position >= |s| then [] else s[position..position + Clip(count, position, |s|)]
  }

  /** The blocks a request touches lie in the file and cover the request. */
  lemma TouchedBlocks(h: FileHeader, position: nat, count: nat, first: nat, last: nat)
    requires h.numSectors == SectorsFor(h.numBytes)
    requires 0 < count && position + count <= h.numBytes
    requires first == BlockNumber(position, SectorSize) && last == BlockNumber(position + count - 1, SectorSize)
    ensures first <= last < h.numSectors
    ensures Span(first, SectorSize) <= position < Span(first, SectorSize) + SectorSize
    ensures Span(last, SectorSize) < position + count <= Span(last + 1, SectorSize)
  {
    if last < first { SpanMonotone(last, first, SectorSize); }
    if h.numSectors <= last && h.numSectors < last { SpanMonotone(h.numSectors, last, SectorSize); }
  }

  /** A run of bytes within blocks first..last, seen from the file and from those blocks. */
  lemma SliceOfBlocks(blocks: seq<Sector>, first: nat, last: nat, position: nat, count: nat)
    requires first <= last < |blocks|
    requires Span(first, SectorSize) <= position && position + count <= Span(last + 1, SectorSize)
    ensures var off := position - Span(first, SectorSize);
      && off + count <= |Concat(blocks[first..last + 1])|
      && position + count <= |Concat(blocks)|
      && Concat(blocks[first..last + 1])[off..off + count] == Concat(blocks)[position..position + count]
  {
    ConcatSlice(blocks, SectorSize, first, last + 1);
    var base := Span(first, SectorSize);
    SliceOfSlice(Concat(blocks), base, Span(last + 1, SectorSize), position - base, count);
  }

  lemma ReadCovers(disk: seq<Sector>, h: FileHeader, position: nat, count: nat, first: nat, last: nat)
    requires WellFormed(h, |disk|) && 0 < count && position + count <= h.numBytes
    requires first == BlockNumber(position, SectorSize) && last == BlockNumber(position + count - 1, SectorSize)
    ensures first <= last < h.numSectors && Span(first, SectorSize) <= position
    ensures var off := position - Span(first, SectorSize);
      var buf := Concat(FileBlocks(disk, h)[first..last + 1]);
      off + count <= |buf| && buf[off..off + count] == FileBytes(disk, h)[position..position + count]
  {
    TouchedBlocks(h, position, count, first, last);
    ConcatLength(FileBlocks(disk, h), SectorSize);
    SliceOfBlocks(FileBlocks(disk, h), first, last, position, count);
    SliceOfSlice(Concat(FileBlocks(disk, h)), 0, h.numBytes, position, count);
  }
}
