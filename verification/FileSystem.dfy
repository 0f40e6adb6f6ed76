/** code/filesys/filesys.cc: an allocator whose own free map and directory are files on the
    disk it manages. */
module FileSystems {
  import opened Bits
  import opened Bytes
  import opened BitMaps
  import opened OpenFiles
  import opened DiskFormat
  import opened Volumes
  import opened Directories

  // ---- Reading a volume off the disk ---------------------------------------

  /** The two system files have the sizes the source gives them; sector numbers and file
      sizes fit C ints. */
  ghost predicate Formatted(disk: seq<Sector>, mapHdr: FileHeader, dirHdr: FileHeader, entries: nat) {
    && 2 <= |disk| < WORD_RANGE && 0 < entries && MaxFileSize < WORD_RANGE && NumDirect < WORD_RANGE
    && WellFormed(mapHdr, |disk|) && mapHdr.numBytes == WordsFor(|disk|) * 4
    && WellFormed(dirHdr, |disk|) && dirHdr.numBytes == entries * ENTRY_SIZE
  }

  ghost function DirOn(disk: seq<Sector>, dirHdr: FileHeader, entries: nat): (t: seq<DirectoryEntry>)
    requires WellFormed(dirHdr, |disk|) && dirHdr.numBytes == entries * ENTRY_SIZE
    ensures |t| == entries
  {
    DecodeTable(FileBytes(disk, dirHdr), entries)
  }

  ghost function MapOn(disk: seq<Sector>, mapHdr: FileHeader): set<nat>
    requires WellFormed(mapHdr, |disk|) && mapHdr.numBytes == WordsFor(|disk|) * 4
  {
    MarkedIn(DecodeWords(FileBytes(disk, mapHdr), WordsFor(|disk|)), |disk|)
  }

  /** The header a directory entry points to. */
  ghost function HeaderFor(disk: seq<Sector>, e: DirectoryEntry): FileHeader {
    if e.inUse && e.sector < |disk| then DecodeHeader(disk[e.sector]) else NoHeader
  }

  ghost function HeadersOn(disk: seq<Sector>, t: seq<DirectoryEntry>): (hs: seq<FileHeader>)
    ensures |hs| == |t| && forall i :: 0 <= i < |t| ==> hs[i] == HeaderFor(disk, t[i])
  {
    seq(|t|, i requires 0 <= i < |t| => HeaderFor(disk, t[i]))
  }

  /** The volume that the bytes on the disk denote. */
  ghost function Mount(disk: seq<Sector>, mapHdr: FileHeader, dirHdr: FileHeader, entries: nat): Volume
    requires Formatted(disk, mapHdr, dirHdr, entries)
  {
    var t := DirOn(disk, dirHdr, entries);
    Volume(|disk|, mapHdr, dirHdr, MapOn(disk, mapHdr), t, HeadersOn(disk, t))
  }

  ghost predicate FSInv(disk: seq<Sector>, mapHdr: FileHeader, dirHdr: FileHeader, entries: nat) {
    && Formatted(disk, mapHdr, dirHdr, entries)
    && DecodeHeader(disk[FreeMapSector]) == mapHdr && DecodeHeader(disk[DirectorySector]) == dirHdr
    && VInv(Mount(disk, mapHdr, dirHdr, entries))
  }

  // ---- What writes leave alone ---------------------------------------------

  ghost predicate SameOutside(disk: seq<Sector>, disk': seq<Sector>, s: set<nat>) {
    |disk'| == |disk| && forall x: nat {:trigger disk'[x]} :: x < |disk| && x !in s ==> disk'[x] == disk[x]
  }

  /** A file none of whose sectors changed has the same bytes. */
  lemma BytesFrame(disk: seq<Sector>, disk': seq<Sector>, h: FileHeader, s: set<nat>)
    requires WellFormed(h, |disk|) && SameOutside(disk, disk', s) && DataSet(h) !! s
    ensures FileBytes(disk', h) == FileBytes(disk, h)
  {
    forall i | 0 <= i < h.numSectors
      ensures disk'[h.dataSectors[i]] == disk[h.dataSectors[i]]
    {
      assert h.dataSectors[i] in DataSet(h);
    }
    assert FileBlocks(disk', h) == FileBlocks(disk, h);
  }

  /** Rewriting a whole file changes its own data sectors only. */
  lemma WholeFile(disk: seq<Sector>, disk': seq<Sector>, h: FileHeader, data: seq<byte>)
    requires WroteAt(disk, disk', h, 0, data) && |data| == h.numBytes
    ensures FileBytes(disk', h) == data && SameOutside(disk, disk', DataSet(h))
  {
    assert Splice(FileBytes(disk, h), 0, data) == data;
    var last := BlockNumber(|data| - 1, SectorSize);
    assert Touched(h, BlockNumber(0, SectorSize), last) <= DataSet(h);
  }

  /** Three writes: a header, the directory, the free map. */
  lemma ThreeWrites(d0: seq<Sector>, d1: seq<Sector>, d2: seq<Sector>, d3: seq<Sector>, a: set<nat>, b: set<nat>,
                    c: set<nat>)
    requires SameOutside(d0, d1, a) && SameOutside(d1, d2, b) && SameOutside(d2, d3, c)
    ensures SameOutside(d0, d3, a + b + c)
  {
    forall x: nat | x < |d0| && x !in a + b + c ensures d3[x] == d0[x] {
      assert d1[x] == d0[x] && d2[x] == d1[x];
    }
  }

  /** The sectors that system writes may change. */
  ghost function SystemData(v: Volume): set<nat> { DataSet(v.dirHdr) + DataSet(v.mapHdr) }

  /** Sectors owned by entity e are not owned by anything else. */
  lemma Exclusive(v: Volume, e: Entity, x: nat)
    requires VInv(v) && Owns(v, e, x)
    ensures (e != MapData && e != DirData) ==> x !in SystemData(v)
    ensures e != MapHeader ==> x != FreeMapSector
    ensures e != DirHeader ==> x != DirectorySector
    ensures x in v.marked && x < v.size
  {
    assert x in DataSet(v.dirHdr) ==> Owns(v, DirData, x);
    assert x in DataSet(v.mapHdr) ==> Owns(v, MapData, x);
    assert Owns(v, MapHeader, FreeMapSector) && Owns(v, DirHeader, DirectorySector);
  }

  /** A set of sectors that touches none of entity e's. */
  ghost predicate Avoids(v: Volume, s: set<nat>, e: Entity) {
    forall x: nat :: Owns(v, e, x) ==> x !in s
  }

  /** Files whose header and data sectors are avoided keep header and bytes. */
  ghost predicate FileUntouched(v: Volume, disk: seq<Sector>, disk': seq<Sector>, i: nat) {
    Live(v, i) && WellFormed(v.hdrs[i], |disk|) && |disk'| == |disk| && v.dir[i].sector < |disk| &&
    disk'[v.dir[i].sector] == disk[v.dir[i].sector] && FileBytes(disk', v.hdrs[i]) == FileBytes(disk, v.hdrs[i])
  }

  lemma UntouchedFile(v: Volume, disk: seq<Sector>, disk': seq<Sector>, s: set<nat>, i: nat)
    requires VInv(v) && v.size == |disk| && Live(v, i) && SameOutside(disk, disk', s)
    requires Avoids(v, s, HeaderOf(i)) && Avoids(v, s, DataOf(i))
    ensures FileUntouched(v, disk, disk', i)
  {
    assert Owns(v, HeaderOf(i), v.dir[i].sector);
    forall x | x in DataSet(v.hdrs[i]) ensures x !in s { assert Owns(v, DataOf(i), x); }
    BytesFrame(disk, disk', v.hdrs[i], s);
  }

  // ---- Create and Remove on the disk ---------------------------------------

  /** The directory file now holds table t, and the free-map file the words ws. */
  ghost predicate SystemWritten(d0: seq<Sector>, d3: seq<Sector>, v: Volume, extra: set<nat>, t: seq<DirectoryEntry>,
                                ws: seq<word>)
    requires GoodHeaders(v) && v.size == |d0|
  {
    && SameOutside(d0, d3, extra + SystemData(v))
    && FileBytes(d3, v.dirHdr) == EncodeTable(t) && FileBytes(d3, v.mapHdr) == EncodeWords(ws)
  }

  lemma SystemWrites(d0: seq<Sector>, d1: seq<Sector>, d2: seq<Sector>, d3: seq<Sector>, v: Volume, extra: set<nat>,
                     t: seq<DirectoryEntry>, ws: seq<word>)
    requires VInv(v) && v.size == |d0| && SameOutside(d0, d1, extra)
    requires v.dirHdr.numBytes == |t| * ENTRY_SIZE && v.mapHdr.numBytes == |ws| * 4
    requires WroteAt(d1, d2, v.dirHdr, 0, EncodeTable(t)) && WroteAt(d2, d3, v.mapHdr, 0, EncodeWords(ws))
    ensures SystemWritten(d0, d3, v, extra, t, ws)
  {
    WholeFile(d1, d2, v.dirHdr, EncodeTable(t));
    WholeFile(d2, d3, v.mapHdr, EncodeWords(ws));
    forall x | x in DataSet(v.dirHdr) ensures x !in DataSet(v.mapHdr) {
      assert Owns(v, DirData, x);
      assert x in DataSet(v.mapHdr) ==> Owns(v, MapData, x);
    }
    BytesFrame(d2, d3, v.dirHdr, DataSet(v.mapHdr));
    ThreeWrites(d0, d1, d2, d3, extra, DataSet(v.dirHdr), DataSet(v.mapHdr));
    assert extra + DataSet(v.dirHdr) + DataSet(v.mapHdr) == extra + SystemData(v);
  }

  /** The same two writes in the order of Remove: free map first. */
  lemma SystemWritesMapFirst(d0: seq<Sector>, d1: seq<Sector>, d2: seq<Sector>, v: Volume,
                             t: seq<DirectoryEntry>, ws: seq<word>)
    requires VInv(v) && v.size == |d0|
    requires v.dirHdr.numBytes == |t| * ENTRY_SIZE && v.mapHdr.numBytes == |ws| * 4
    requires WroteAt(d0, d1, v.mapHdr, 0, EncodeWords(ws)) && WroteAt(d1, d2, v.dirHdr, 0, EncodeTable(t))
    ensures SystemWritten(d0, d2, v, {}, t, ws)
  {
    WholeFile(d0, d1, v.mapHdr, EncodeWords(ws));
    WholeFile(d1, d2, v.dirHdr, EncodeTable(t));
    forall x | x in DataSet(v.mapHdr) ensures x !in DataSet(v.dirHdr) {
      assert Owns(v, MapData, x);
      assert x in DataSet(v.dirHdr) ==> Owns(v, DirData, x);
    }
    BytesFrame(d1, d2, v.mapHdr, DataSet(v.dirHdr));
    ThreeWrites(d0, d0, d1, d2, {}, DataSet(v.mapHdr), DataSet(v.dirHdr));
    assert {} + DataSet(v.mapHdr) + DataSet(v.dirHdr) == {} + SystemData(v);
  }

  /** What the disk denotes after the system files are rewritten. */
  lemma Remount(d0: seq<Sector>, d3: seq<Sector>, v: Volume, entries: nat,
                extra: set<nat>, t: seq<DirectoryEntry>, ws: seq<word>)
    requires Formatted(d0, v.mapHdr, v.dirHdr, entries) && |t| == entries && |ws| == WordsFor(|d0|)
    requires GoodHeaders(v) && v.size == |d0| && SystemWritten(d0, d3, v, extra, t, ws)
    ensures Formatted(d3, v.mapHdr, v.dirHdr, entries)
    ensures Mount(d3, v.mapHdr, v.dirHdr, entries)
         == Volume(|d0|, v.mapHdr, v.dirHdr, MarkedIn(ws, |d0|), t, HeadersOn(d3, t))
  {
    TableRoundTrip(t);
    WordsRoundTrip(ws);
  }

  /** System sectors 0 and 1 survive every write that avoids them. */
  lemma SystemHeaders(d0: seq<Sector>, d3: seq<Sector>, v: Volume, extra: set<nat>)
    requires VInv(v) && v.size == |d0| && SameOutside(d0, d3, extra + SystemData(v))
    requires FreeMapSector !in extra && DirectorySector !in extra
    ensures |d0| >= 2 && |d3| == |d0| && d3[FreeMapSector] == d0[FreeMapSector]
    ensures d3[DirectorySector] == d0[DirectorySector]
  {
    assert Owns(v, MapHeader, FreeMapSector) && Owns(v, DirHeader, DirectorySector);
    Exclusive(v, MapHeader, FreeMapSector);
    Exclusive(v, DirHeader, DirectorySector);
  }

  /** Every live file keeps its header and bytes when only free sectors and system data
      are written. */
  lemma OthersUntouched(d0: seq<Sector>, d3: seq<Sector>, v: Volume, extra: set<nat>)
    requires VInv(v) && v.size == |d0| && SameOutside(d0, d3, extra + SystemData(v)) && extra !! v.marked
    ensures forall j: nat :: Live(v, j) ==> FileUntouched(v, d0, d3, j)
  {
    forall j: nat | Live(v, j) ensures FileUntouched(v, d0, d3, j) {
      forall x: nat | Owns(v, HeaderOf(j), x) ensures x !in extra + SystemData(v) { Exclusive(v, HeaderOf(j), x); }
      forall x: nat | Owns(v, DataOf(j), x) ensures x !in extra + SystemData(v) { Exclusive(v, DataOf(j), x); }
      UntouchedFile(v, d0, d3, extra + SystemData(v), j);
    }
  }

  /** The disk after a successful Create. */
  lemma Created(d0: seq<Sector>, d3: seq<Sector>, mapHdr: FileHeader, dirHdr: FileHeader, entries: nat,
                i: nat, name: NameField, sector: word, h: FileHeader, ws: seq<word>)
    requires FSInv(d0, mapHdr, dirHdr, entries) && i < entries
    requires var v := Mount(d0, mapHdr, dirHdr, entries);
      && !v.dir[i].inUse && FreshSectors(v, sector, h) && Storable(h)
      && (forall j: nat :: Live(v, j) ==> Key(v.dir[j].name) != Key(name))
      && |ws| == WordsFor(|d0|) && MarkedIn(ws, |d0|) == v.marked + {sector} + DataSet(h)
      && SystemWritten(d0, d3, v, {sector}, v.dir[i := DirectoryEntry(true, sector, name)], ws)
      && d3[sector] == EncodeHeader(h)
    ensures FSInv(d3, mapHdr, dirHdr, entries)
    ensures var v := Mount(d0, mapHdr, dirHdr, entries);
      && Mount(d3, mapHdr, dirHdr, entries) == AddFile(v, i, name, sector, h)
      && forall j: nat :: Live(v, j) ==> FileUntouched(v, d0, d3, j)
  {
    var v := Mount(d0, mapHdr, dirHdr, entries);
    var t := v.dir[i := DirectoryEntry(true, sector, name)];
    Remount(d0, d3, v, entries, {sector}, t, ws);
    OthersUntouched(d0, d3, v, {sector});
    CreatedHeaders(d0, d3, v, i, name, sector, h);
    AddFileInv(v, i, name, sector, h);
    assert Owns(v, MapHeader, FreeMapSector) && Owns(v, DirHeader, DirectorySector);
    SystemHeaders(d0, d3, v, {sector});
  }

  lemma CreatedHeaders(d0: seq<Sector>, d3: seq<Sector>, v: Volume, i: nat, name: NameField, sector: word,
                       h: FileHeader)
    requires VInv(v) && v.size == |d0| == |d3| && v.hdrs == HeadersOn(d0, v.dir) && i < |v.dir|
    requires sector < |d0| && Storable(h) && d3[sector] == EncodeHeader(h)
    requires forall j: nat :: Live(v, j) ==> FileUntouched(v, d0, d3, j)
    ensures HeadersOn(d3, v.dir[i := DirectoryEntry(true, sector, name)]) == v.hdrs[i := h]
  {
    var t := v.dir[i := DirectoryEntry(true, sector, name)];
    HeaderRoundTrip(h);
    forall j | 0 <= j < |t|
      ensures HeaderFor(d3, t[j]) == v.hdrs[i := h][j]
    {
      if j != i {
        assert v.hdrs[j] == HeaderFor(d0, v.dir[j]);
        assert Live(v, j) ==> FileUntouched(v, d0, d3, j);
      }
    }
  }

  /** The disk after a successful Remove. */
  lemma Removed(d0: seq<Sector>, d3: seq<Sector>, mapHdr: FileHeader, dirHdr: FileHeader, entries: nat, i: nat,
                ws: seq<word>)
    requires FSInv(d0, mapHdr, dirHdr, entries)
    requires var v := Mount(d0, mapHdr, dirHdr, entries);
      && Live(v, i) && |ws| == WordsFor(|d0|)
      && MarkedIn(ws, |d0|) == v.marked - {v.dir[i].sector} - DataSet(v.hdrs[i])
      && SystemWritten(d0, d3, v, {}, v.dir[i := v.dir[i].(inUse := false)], ws)
    ensures FSInv(d3, mapHdr, dirHdr, entries)
    ensures var v := Mount(d0, mapHdr, dirHdr, entries);
      && Mount(d3, mapHdr, dirHdr, entries) == RemoveFile(v, i)
      && forall j: nat :: Live(v, j) ==> FileUntouched(v, d0, d3, j)
  {
    var v := Mount(d0, mapHdr, dirHdr, entries);
    var t := v.dir[i := v.dir[i].(inUse := false)];
    Remount(d0, d3, v, entries, {}, t, ws);
    OthersUntouched(d0, d3, v, {});
    RemovedHeaders(d0, d3, v, i);
    RemoveFileInv(v, i);
    SystemHeaders(d0, d3, v, {});
  }

  lemma RemovedHeaders(d0: seq<Sector>, d3: seq<Sector>, v: Volume, i: nat)
    requires VInv(v) && v.size == |d0| == |d3| && v.hdrs == HeadersOn(d0, v.dir) && i < |v.dir|
    requires forall j: nat :: Live(v, j) ==> FileUntouched(v, d0, d3, j)
    ensures HeadersOn(d3, v.dir[i := v.dir[i].(inUse := false)]) == v.hdrs[i := NoHeader]
  {
    var t := v.dir[i := v.dir[i].(inUse := false)];
    forall j | 0 <= j < |t|
      ensures HeaderFor(d3, t[j]) == v.hdrs[i := NoHeader][j]
    {
      assert j != i && Live(v, j) ==> FileUntouched(v, d0, d3, j);
    }
  }

  // ---- Writing to a file ---------------------------------------------------

  /** A write through an open file changes that file's bytes and nothing else in the file
      system: free map, directory, headers and every other file stay as they are. */
  lemma WriteKeepsVolume(d0: seq<Sector>, d1: seq<Sector>, mapHdr: FileHeader, dirHdr: FileHeader, entries: nat,
                         i: nat, position: nat, data: seq<byte>)
    requires FSInv(d0, mapHdr, dirHdr, entries) && Live(Mount(d0, mapHdr, dirHdr, entries), i)
    requires WroteAt(d0, d1, Mount(d0, mapHdr, dirHdr, entries).hdrs[i], position, data)
    ensures FSInv(d1, mapHdr, dirHdr, entries)
    ensures var v := Mount(d0, mapHdr, dirHdr, entries);
      && Mount(d1, mapHdr, dirHdr, entries) == v
      && FileBytes(d1, v.hdrs[i]) == Splice(FileBytes(d0, v.hdrs[i]), position, data)
      && forall j: nat :: Live(v, j) && j != i ==> FileUntouched(v, d0, d1, j)
  {
    var v := Mount(d0, mapHdr, dirHdr, entries);
    var s := DataSet(v.hdrs[i]);
    WriteStaysInside(d0, d1, v.hdrs[i], position, data);
    DataOfAvoids(v, i);
    MountKept(d0, d1, mapHdr, dirHdr, entries, s);
    forall j: nat | Live(v, j) && j != i ensures FileUntouched(v, d0, d1, j) { UntouchedFile(v, d0, d1, s, j); }
  }

  lemma WriteStaysInside(d0: seq<Sector>, d1: seq<Sector>, h: FileHeader, position: nat, data: seq<byte>)
    requires WroteAt(d0, d1, h, position, data)
    ensures SameOutside(d0, d1, DataSet(h))
  {
    var first, last := BlockNumber(position, SectorSize), BlockNumber(position + |data| - 1, SectorSize);
    assert Touched(h, first, last) <= DataSet(h);
  }

  /** Writes outside everything the volume is read from leave it as it is. */
  lemma MountKept(d0: seq<Sector>, d1: seq<Sector>, mapHdr: FileHeader, dirHdr: FileHeader, entries: nat, s: set<nat>)
    requires Formatted(d0, mapHdr, dirHdr, entries) && SameOutside(d0, d1, s)
    requires DataSet(mapHdr) !! s && DataSet(dirHdr) !! s
    requires forall j: nat :: Live(Mount(d0, mapHdr, dirHdr, entries), j) ==>
      Mount(d0, mapHdr, dirHdr, entries).dir[j].sector !in s
    ensures Formatted(d1, mapHdr, dirHdr, entries)
    ensures Mount(d1, mapHdr, dirHdr, entries) == Mount(d0, mapHdr, dirHdr, entries)
  {
    BytesFrame(d0, d1, mapHdr, s);
    BytesFrame(d0, d1, dirHdr, s);
    WrittenHeaders(d0, d1, Mount(d0, mapHdr, dirHdr, entries), s);
  }

  /** The data sectors of file i belong to nothing else. */
  lemma DataOfAvoids(v: Volume, i: nat)
    requires VInv(v) && Live(v, i)
    ensures var s := DataSet(v.hdrs[i]);
      && DataSet(v.mapHdr) !! s && DataSet(v.dirHdr) !! s && FreeMapSector !in s && DirectorySector !in s
      && (forall j: nat :: Live(v, j) ==> v.dir[j].sector !in s)
      && forall j: nat :: Live(v, j) && j != i ==> Avoids(v, s, HeaderOf(j)) && Avoids(v, s, DataOf(j))
  {
    var s := DataSet(v.hdrs[i]);
    forall x: nat | x in s ensures Owns(v, DataOf(i), x) {}
    forall x: nat | x in s
      ensures x !in DataSet(v.mapHdr) && x !in DataSet(v.dirHdr) && x != FreeMapSector && x != DirectorySector
    {
      Exclusive(v, DataOf(i), x);
    }
    forall j: nat | Live(v, j) ensures v.dir[j].sector !in s { assert Owns(v, HeaderOf(j), v.dir[j].sector); }
  }

  lemma WrittenHeaders(d0: seq<Sector>, d1: seq<Sector>, v: Volume, s: set<nat>)
    requires v.size == |d0| && SameOutside(d0, d1, s) && |v.hdrs| == |v.dir|
    requires forall j: nat :: Live(v, j) ==> v.dir[j].sector !in s
    ensures HeadersOn(d1, v.dir) == HeadersOn(d0, v.dir)
  {
    forall j | 0 <= j < |v.dir| ensures HeaderFor(d1, v.dir[j]) == HeaderFor(d0, v.dir[j]) {
      assert v.dir[j].inUse ==> Live(v, j);
    }
  }

  // ---- Formatting ----------------------------------------------------------

  /** A volume with the two system files and an empty directory. */
  ghost function EmptyVolume(n: nat, mapHdr: FileHeader, dirHdr: FileHeader, t: seq<DirectoryEntry>): Volume {
    Volume(n, mapHdr, dirHdr, {FreeMapSector, DirectorySector} + DataSet(mapHdr) + DataSet(dirHdr), t,
           seq(|t|, _ => NoHeader))
  }

  ghost predicate FreshSystem(n: nat, mapHdr: FileHeader, dirHdr: FileHeader) {
    && 2 <= n && WellFormed(mapHdr, n) && WellFormed(dirHdr, n) && Storable(mapHdr) && Storable(dirHdr)
    && DataSet(mapHdr) !! {FreeMapSector, DirectorySector}
    && DataSet(dirHdr) !! {FreeMapSector, DirectorySector} + DataSet(mapHdr)
  }

  lemma EmptyVolumeInv(n: nat, mapHdr: FileHeader, dirHdr: FileHeader, t: seq<DirectoryEntry>)
    requires FreshSystem(n, mapHdr, dirHdr) && forall i :: 0 <= i < |t| ==> !t[i].inUse
    ensures VInv(EmptyVolume(n, mapHdr, dirHdr, t))
  {
    var v := EmptyVolume(n, mapHdr, dirHdr, t);
    forall x: nat | x in v.marked
      ensures exists e :: Owns(v, e, x)
    {
      assert Owns(v, MapHeader, x) || Owns(v, DirHeader, x) || Owns(v, MapData, x) || Owns(v, DirData, x);
    }
  }

  /** The disk after formatting. */
  lemma FormattedDisk(d1: seq<Sector>, d2: seq<Sector>, d3: seq<Sector>, mapHdr: FileHeader, dirHdr: FileHeader,
                      t: seq<DirectoryEntry>, ws: seq<word>)
    requires Formatted(d1, mapHdr, dirHdr, |t|) && FreshSystem(|d1|, mapHdr, dirHdr)
    requires forall i :: 0 <= i < |t| ==> !t[i].inUse
    requires d1[FreeMapSector] == EncodeHeader(mapHdr) && d1[DirectorySector] == EncodeHeader(dirHdr)
    requires WroteAt(d1, d2, mapHdr, 0, EncodeWords(ws)) && WroteAt(d2, d3, dirHdr, 0, EncodeTable(t))
    requires |ws| == WordsFor(|d1|)
    requires MarkedIn(ws, |d1|) == {FreeMapSector, DirectorySector} + DataSet(mapHdr) + DataSet(dirHdr)
    ensures FSInv(d3, mapHdr, dirHdr, |t|)
    ensures Mount(d3, mapHdr, dirHdr, |t|) == EmptyVolume(|d1|, mapHdr, dirHdr, t)
  {
    var v := EmptyVolume(|d1|, mapHdr, dirHdr, t);
    EmptyVolumeInv(|d1|, mapHdr, dirHdr, t);
    SystemWritesMapFirst(d1, d2, d3, v, t, ws);
    EmptyMount(d1, d3, v, ws);
    SystemHeaders(d1, d3, v, {});
    HeaderRoundTrip(mapHdr);
    HeaderRoundTrip(dirHdr);
  }

  lemma EmptyMount(d1: seq<Sector>, d3: seq<Sector>, v: Volume, ws: seq<word>)
    requires Formatted(d1, v.mapHdr, v.dirHdr, |v.dir|) && |ws| == WordsFor(|d1|)
    requires v == EmptyVolume(|d1|, v.mapHdr, v.dirHdr, v.dir) && GoodHeaders(v) && MarkedIn(ws, |d1|) == v.marked
    requires forall i :: 0 <= i < |v.dir| ==> !v.dir[i].inUse
    requires SystemWritten(d1, d3, v, {}, v.dir, ws)
    ensures Formatted(d3, v.mapHdr, v.dirHdr, |v.dir|) && Mount(d3, v.mapHdr, v.dirHdr, |v.dir|) == v
  {
    Remount(d1, d3, v, |v.dir|, {}, v.dir, ws);
    assert HeadersOn(d3, v.dir) == v.hdrs;
  }

  /** The header written first is not overwritten by the two system files. */
  lemma HeaderLands(d0: seq<Sector>, d1: seq<Sector>, d2: seq<Sector>, d3: seq<Sector>, v: Volume, sector: nat,
                    h: FileHeader, t: seq<DirectoryEntry>, ws: seq<word>)
    requires VInv(v) && v.size == |d0| && FreshSectors(v, sector, h) && Storable(h)
    requires d1 == d0[sector := EncodeHeader(h)]
    requires v.dirHdr.numBytes == |t| * ENTRY_SIZE && v.mapHdr.numBytes == |ws| * 4
    requires WroteAt(d1, d2, v.dirHdr, 0, EncodeTable(t)) && WroteAt(d2, d3, v.mapHdr, 0, EncodeWords(ws))
    ensures |d3| == |d0| && d3[sector] == EncodeHeader(h)
  {
    WholeFile(d1, d2, v.dirHdr, EncodeTable(t));
    WholeFile(d2, d3, v.mapHdr, EncodeWords(ws));
    assert sector in DataSet(v.dirHdr) ==> Owns(v, DirData, sector);
    assert sector in DataSet(v.mapHdr) ==> Owns(v, MapData, sector);
    assert d2[sector] == d1[sector] && d3[sector] == d2[sector];
  }

  lemma FlushWrites(d0: seq<Sector>, d1: seq<Sector>, d2: seq<Sector>, d3: seq<Sector>, v: Volume, sector: nat,
                    h: FileHeader, t: seq<DirectoryEntry>, ws: seq<word>)
    requires VInv(v) && v.size == |d0| && FreshSectors(v, sector, h) && Storable(h)
    requires d1 == d0[sector := EncodeHeader(h)]
    requires v.dirHdr.numBytes == |t| * ENTRY_SIZE && v.mapHdr.numBytes == |ws| * 4
    requires WroteAt(d1, d2, v.dirHdr, 0, EncodeTable(t)) && WroteAt(d2, d3, v.mapHdr, 0, EncodeWords(ws))
    ensures SystemWritten(d0, d3, v, {sector}, t, ws) && d3[sector] == EncodeHeader(h)
  {
    SystemWrites(d0, d1, d2, d3, v, {sector}, t, ws);
    HeaderLands(d0, d1, d2, d3, v, sector, h, t, ws);
  }

  lemma KeyIsNew(v: Volume, name: seq<byte>, field: NameField)
    requires IsIndexOf(v.dir, name, -1) && Key(field) == Key(name)
    ensures forall j: nat :: Live(v, j) ==> Key(v.dir[j].name) != Key(field)
  {}

  /** The three writes of a successful Create. */
  lemma FlushedDisk(d0: seq<Sector>, d1: seq<Sector>, d2: seq<Sector>, d3: seq<Sector>, mapHdr: FileHeader,
                    dirHdr: FileHeader,
                    entries: nat, name: seq<byte>, i: nat, sector: word, h: FileHeader, ws: seq<word>)
    requires FSInv(d0, mapHdr, dirHdr, entries) && i < entries && |ws| == WordsFor(|d0|)
    requires var v := Mount(d0, mapHdr, dirHdr, entries);
      && !v.dir[i].inUse && IsIndexOf(v.dir, name, -1) && FreshSectors(v, sector, h) && Storable(h)
      && MarkedIn(ws, |d0|) == v.marked + {sector} + DataSet(h)
      && d1 == d0[sector := EncodeHeader(h)]
      && WroteAt(d1, d2, dirHdr, 0, EncodeTable(v.dir[i := DirectoryEntry(true, sector, Stored(name, v.dir[i].name))]))
      && WroteAt(d2, d3, mapHdr, 0, EncodeWords(ws))
    ensures FSInv(d3, mapHdr, dirHdr, entries)
    ensures var v := Mount(d0, mapHdr, dirHdr, entries);
      && Mount(d3, mapHdr, dirHdr, entries) == AddFile(v, i, Stored(name, v.dir[i].name), sector, h)
      && forall j: nat :: Live(v, j) ==> FileUntouched(v, d0, d3, j)
  {
    var v := Mount(d0, mapHdr, dirHdr, entries);
    var field := Stored(name, v.dir[i].name);
    var t := v.dir[i := DirectoryEntry(true, sector, field)];
    StoredKey(name, v.dir[i].name);
    FlushWrites(d0, d1, d2, d3, v, sector, h, t, ws);
    KeyIsNew(v, name, field);
    Created(d0, d3, mapHdr, dirHdr, entries, i, field, sector, h, ws);
  }

  // ---- Moving the structures to and from their files -----------------------

  /** BitMap::FetchFrom. */
  method FetchMap(map_: BitMap, file: OpenFile)
    requires map_.Valid() && file.Valid() && file.hdr.numBytes == map_.words.Length * 4
    modifies map_.words
    ensures map_.words[..] == DecodeWords(file.Contents(), map_.words.Length)
  {
    ghost var bytes := file.Contents();
    var data := file.ReadAt(map_.words.Length * 4, 0);
    assert data == bytes;
    for i := 0 to map_.words.Length
      invariant forall j :: 0 <= j < i ==> map_.words[j] == WordOf(Block(data, map_.words.Length, 4, j))
    {
      map_.words[i] := WordOf(Block(data, map_.words.Length, 4, i));
    }
  }

  /** BitMap::WriteBack. */
  method WriteMap(map_: BitMap, file: OpenFile)
    requires map_.Valid() && file.Valid() && 0 < file.hdr.numBytes == map_.words.Length * 4
    modifies file.disk.sectors
    ensures WroteAt(old(file.disk.sectors[..]), file.disk.sectors[..], file.hdr, 0, EncodeWords(map_.words[..]))
  {
    var bytes := EncodeWords(map_.words[..]);
    var count := file.WriteAt(bytes, 0);
    assert bytes[..count] == bytes;
  }

  /** Directory::FetchFrom. */
  method FetchDir(dir: Directory, file: OpenFile)
    requires file.Valid() && file.hdr.numBytes == dir.table.Length * ENTRY_SIZE
    modifies dir.table
    ensures dir.table[..] == DecodeTable(file.Contents(), dir.table.Length)
  {
    ghost var bytes := file.Contents();
    var data := file.ReadAt(dir.table.Length * ENTRY_SIZE, 0);
    assert data == bytes;
    for i := 0 to dir.table.Length
      invariant forall j :: 0 <= j < i ==> dir.table[j] == DecodeEntry(Block(data, dir.table.Length, ENTRY_SIZE, j))
    {
      dir.table[i] := DecodeEntry(Block(data, dir.table.Length, ENTRY_SIZE, i));
    }
  }

  /** Directory::WriteBack. */
  method WriteDir(dir: Directory, file: OpenFile)
    requires file.Valid() && 0 < file.hdr.numBytes == dir.table.Length * ENTRY_SIZE
    modifies file.disk.sectors
    ensures WroteAt(old(file.disk.sectors[..]), file.disk.sectors[..], file.hdr, 0, EncodeTable(dir.table[..]))
  {
    var bytes := EncodeTable(dir.table[..]);
    var count := file.WriteAt(bytes, 0);
    assert bytes[..count] == bytes;
  }

  lemma NoneClear(marked: set<nat>, n: nat)
    requires forall i: nat :: i < n ==> i in marked
    ensures |ClearBelow(marked, n)| == 0
  {
    assert ClearBelow(marked, n) == {};
  }

  /** The files whose blocks fit in a header are those of at most MaxFileSize bytes. */
  lemma FitsHeader(size: nat)
    ensures SectorsFor(size) <= NumDirect <==> size <= MaxFileSize
  {
    var q := SectorsFor(size);
    if NumDirect < q {
      SpanMonotone(NumDirect, q, SectorSize);
    } else if q < NumDirect {
      SpanMonotone(q, NumDirect, SectorSize);
    }
  }

  /** Names are unique, so both look-ups of a name find the same entry. */
  lemma SameIndex(v: Volume, name: seq<byte>, i: int, j: int)
    requires VInv(v) && IsIndexOf(v.dir, name, i) && IsIndexOf(v.dir, name, j) && i != -1
    ensures i == j
  {
    assert Live(v, i);
    if j != -1 { assert Live(v, j); }
  }

  /** A live file's header and data sectors are marked and apart. */
  lemma FileSectors(v: Volume, i: nat)
    requires VInv(v) && Live(v, i)
    ensures v.dir[i].sector < v.size && v.dir[i].sector in v.marked && v.dir[i].sector !in DataSet(v.hdrs[i])
    ensures DataSet(v.hdrs[i]) <= v.marked
  {
    assert Owns(v, HeaderOf(i), v.dir[i].sector);
    forall x | x in DataSet(v.hdrs[i]) ensures x in v.marked && x != v.dir[i].sector {
      assert Owns(v, DataOf(i), x);
    }
  }

  /** Reserve header sector, directory entry and data sectors in the in-memory copies. */
  method Reserve(directory: Directory, freeMap: BitMap, name: seq<byte>, initialSize: nat)
    returns (ok: bool, overrun: bool, ghost i: nat, s: word, h: FileHeader)
    requires freeMap.Valid() && MaxFileSize < WORD_RANGE
    requires freeMap.numBits < WORD_RANGE && NumDirect < WORD_RANGE
    modifies directory.table, freeMap.words
    ensures ok || overrun <==>
      && IsIndexOf(old(directory.table[..]), name, -1)
      && (exists k :: 0 <= k < directory.table.Length && !old(directory.table[k].inUse))
      && 1 + SectorsFor(initialSize) <= |ClearBelow(old(freeMap.Marked()), freeMap.numBits)|
    ensures (ok ==> initialSize <= MaxFileSize) && (overrun ==> MaxFileSize < initialSize)
    ensures ok ==>
      && i < directory.table.Length && !old(directory.table[i].inUse)
      && s < freeMap.numBits && s !in old(freeMap.Marked()) && WellFormed(h, freeMap.numBits)
      && s !in DataSet(h) && DataSet(h) !! old(freeMap.Marked())
      && h.numBytes == initialSize && Storable(h)
      && directory.table[..]
        == old(directory.table[..])[i := DirectoryEntry(true, s, Stored(name, old(directory.table[i].name)))]
      && freeMap.Marked() == old(freeMap.Marked()) + {s} + DataSet(h)
  {
    ok, overrun, i, s, h := false, false, 0, 0, NoHeader;
    ghost var marked := freeMap.Marked();
    var known; ghost var at;
    known, at := directory.Find(name);
    if known != -1 {
      assert !IsIndexOf(directory.table[..], name, -1);
      return;
    }
    var found := freeMap.Find();
    if found == -1 {
      NoneClear(marked, freeMap.numBits);
      return;
    }
    s := found;
    MarkOne(marked, freeMap.numBits, s);
    ok, i := directory.Add(name, s);
    if !ok {
      return;
    }
    FitsHeader(initialSize);
    ok, overrun, h := Allocate(freeMap, initialSize);
    assert ok ==> s !in DataSet(h);
  }

  class FileSystem {
    const disk: SynchDisk
    const entries: nat
    const freeMapFile: OpenFile
    const directoryFile: OpenFile

    ghost predicate Valid()
      reads disk.sectors
    {
      && freeMapFile.disk == disk && directoryFile.disk == disk
      && FSInv(disk.sectors[..], freeMapFile.hdr, directoryFile.hdr, entries)
    }

    ghost function State(): Volume
      requires Valid()
      reads disk.sectors
    {
      Mount(disk.sectors[..], freeMapFile.hdr, directoryFile.hdr, entries)
    }

    /** FileSystem::FileSystem(FALSE): open the system files of a formatted disk. */
    constructor Mounted(disk: SynchDisk, entries: nat)
      requires 2 <= disk.sectors.Length
      requires FSInv(disk.sectors[..], DecodeHeader(disk.sectors[FreeMapSector]),
                     DecodeHeader(disk.sectors[DirectorySector]), entries)
      ensures Valid() && this.disk == disk && this.entries == entries
      ensures freeMapFile.hdr == DecodeHeader(disk.sectors[FreeMapSector])
      ensures directoryFile.hdr == DecodeHeader(disk.sectors[DirectorySector])
    {
      this.disk := disk;
      this.entries := entries;
      var mapSector, dirSector := disk.sectors[FreeMapSector], disk.sectors[DirectorySector];
      freeMapFile := new OpenFile(disk, DecodeHeader(mapSector));
      directoryFile := new OpenFile(disk, DecodeHeader(dirSector));
    }

    /** FileSystem::Open: the header of the file with this name, if there is one. */
    method Open(name: seq<byte>) returns (file: OpenFile?, ghost at: int)
      requires Valid()
      ensures IsIndexOf(State().dir, name, at)
      ensures file == null <==> at == -1
      ensures file != null ==>
        file.disk == disk && Live(State(), at) && file.hdr == State().hdrs[at] && file.Valid()
    {
      var directory := new Directory(entries);
      FetchDir(directory, directoryFile);
      ghost var v := State();
      assert directory.table[..] == v.dir;
      var sector;
      sector, at := directory.Find(name);
      if sector == -1 {
        return null, at;
      }
      assert Live(v, at) && Owns(v, HeaderOf(at), v.dir[at].sector);
      var data := disk.ReadSector(sector);
      file := new OpenFile(disk, DecodeHeader(data));
    }

    /** The free map and the directory, read from their files. */
    method FetchBoth() returns (directory: Directory, freeMap: BitMap)
      requires Valid()
      ensures fresh(directory.table) && directory.table[..] == State().dir
      ensures freeMap.Valid() && fresh(freeMap.words) && freeMap.numBits == disk.sectors.Length
      ensures freeMap.Marked() == State().marked
    {
      directory := new Directory(entries);
      FetchDir(directory, directoryFile);
      freeMap := new BitMap(disk.sectors.Length);
      FetchMap(freeMap, freeMapFile);
    }

    /** Create's last step: write the header, the directory and the free map. */
    method Flush(directory: Directory, freeMap: BitMap, name: seq<byte>, ghost i: nat, sector: word, h: FileHeader)
      requires Valid() && i < entries && freeMap.Valid() && freeMap.numBits == disk.sectors.Length
      requires Storable(h) && IsIndexOf(State().dir, name, -1)
      requires !State().dir[i].inUse && FreshSectors(State(), sector, h)
      requires directory.table[..] == State().dir[i := DirectoryEntry(true, sector, Stored(name, State().dir[i].name))]
      requires freeMap.Marked() == State().marked + {sector} + DataSet(h)
      modifies disk.sectors
      ensures Valid()
      ensures State() == old(AddFile(State(), i, Stored(name, State().dir[i].name), sector, h))
      ensures forall j: nat :: old(Live(State(), j)) ==>
        FileUntouched(old(State()), old(disk.sectors[..]), disk.sectors[..], j)
    {
      ghost var v, d0 := State(), disk.sectors[..];
      disk.WriteSector(sector, EncodeHeader(h));
      ghost var d1 := disk.sectors[..];
      WriteDir(directory, directoryFile);
      ghost var d2 := disk.sectors[..];
      WriteMap(freeMap, freeMapFile);
      ghost var d3 := disk.sectors[..];
      FlushedDisk(d0, d1, d2, d3, freeMapFile.hdr, directoryFile.hdr, entries, name, i, sector, h, freeMap.words[..]);
    }

    /** FileSystem::Create. It fails, leaving the disk alone, exactly when the name is taken,
        the directory is full, or header and data do not fit on the disk; otherwise the volume
        gains the file and every other file is untouched. `overrun`: it would not have failed,
        but the file is larger than MaxFileSize and its header is written past its end. */
    method Create(name: seq<byte>, initialSize: nat)
      returns (success: bool, overrun: bool, ghost i: nat, ghost sector: word, ghost hdr: FileHeader)
      requires Valid()
      modifies disk.sectors
      ensures Valid()
      ensures success || overrun <==>
        && old(IsIndexOf(State().dir, name, -1))
        && (exists k :: 0 <= k < entries && !old(State().dir[k].inUse))
        && 1 + SectorsFor(initialSize) <= |ClearBelow(old(State().marked), disk.sectors.Length)|
      ensures (success ==> initialSize <= MaxFileSize) && (overrun ==> MaxFileSize < initialSize)
      ensures !success ==> disk.sectors[..] == old(disk.sectors[..])
      ensures success ==>
        && i < entries && !old(State().dir[i].inUse)
        && hdr.numBytes == initialSize && old(FreshSectors(State(), sector, hdr))
        && State() == old(AddFile(State(), i, Stored(name, State().dir[i].name), sector, hdr))
        && VolumeStep(old(State()), MakeFile(name, initialSize), State())
        && forall j: nat :: old(Live(State(), j)) ==>
          FileUntouched(old(State()), old(disk.sectors[..]), disk.sectors[..], j)
    {
      i, sector, hdr := 0, 0, NoHeader;
      ghost var v := State();
      var directory, freeMap := FetchBoth();
      var s, h;
      success, overrun, i, s, h := Reserve(directory, freeMap, name, initialSize);
      if success {
        sector, hdr := s, h;
        Flush(directory, freeMap, name, i, s, h);
        assert MadeFile(v, name, initialSize, i, s, h, State());
      }
    }

    /** Remove's work on the in-memory copies: the ASSERT in Deallocate holds. */
    method Release(directory: Directory, freeMap: BitMap, name: seq<byte>, ghost at: nat, sector: word)
      requires Valid() && Live(State(), at) && sector == State().dir[at].sector && IsIndexOf(State().dir, name, at)
      requires directory.table[..] == State().dir
      requires freeMap.Valid() && freeMap.numBits == disk.sectors.Length && freeMap.Marked() == State().marked
      modifies directory.table, freeMap.words
      ensures directory.table[..] == State().dir[at := State().dir[at].(inUse := false)]
      ensures freeMap.Marked() == State().marked - {sector} - DataSet(State().hdrs[at])
    {
      ghost var v := State();
      FileSectors(v, at);
      var data := disk.ReadSector(sector);
      var hdr := DecodeHeader(data);
      assert hdr == v.hdrs[at];
      Deallocate(hdr, freeMap);
      freeMap.Clear(sector);
      var ok; ghost var k;
      ok, k := directory.Remove(name);
      SameIndex(v, name, at, k);
    }

    /** FileSystem::Remove: fails only on an unknown name; otherwise the file's entry and
        sectors are given up and every other file is untouched. */
    method Remove(name: seq<byte>) returns (ok: bool, ghost at: int)
      requires Valid()
      modifies disk.sectors
      ensures Valid()
      ensures old(IsIndexOf(State().dir, name, at)) && (ok <==> at != -1)
      ensures !ok ==> disk.sectors[..] == old(disk.sectors[..])
      ensures ok ==>
        && old(Live(State(), at)) && State() == old(RemoveFile(State(), at))
        && VolumeStep(old(State()), DeleteFile(name), State())
        && forall j: nat :: old(Live(State(), j)) ==>
          FileUntouched(old(State()), old(disk.sectors[..]), disk.sectors[..], j)
    {
      var directory, freeMap := FetchBoth();
      var sector;
      sector, at := directory.Find(name);
      if sector == -1 {
        return false, at;
      }
      ghost var v := State();
      Release(directory, freeMap, name, at, sector);
      FlushRemoval(directory, freeMap, at);
      assert DeletedFile(v, name, at, State());
      ok := true;
    }

    /** Remove's last step: write the free map and the directory. */
    method FlushRemoval(directory: Directory, freeMap: BitMap, ghost at: nat)
      requires Valid() && Live(State(), at) && freeMap.Valid() && freeMap.numBits == disk.sectors.Length
      requires directory.table[..] == State().dir[at := State().dir[at].(inUse := false)]
      requires freeMap.Marked() == State().marked - {State().dir[at].sector} - DataSet(State().hdrs[at])
      modifies disk.sectors
      ensures Valid() && State() == old(RemoveFile(State(), at))
      ensures forall j: nat :: old(Live(State(), j)) ==>
        FileUntouched(old(State()), old(disk.sectors[..]), disk.sectors[..], j)
    {
      ghost var v, d0 := State(), disk.sectors[..];
      WriteMap(freeMap, freeMapFile);
      ghost var d1 := disk.sectors[..];
      WriteDir(directory, directoryFile);
      ghost var d2 := disk.sectors[..];
      SystemWritesMapFirst(d0, d1, d2, v, directory.table[..], freeMap.words[..]);
      Removed(d0, d2, freeMapFile.hdr, directoryFile.hdr, entries, at, freeMap.words[..]);
    }
  }

  /** Space for both system files, as the source's ASSERTs demand. */
  ghost predicate Fits(n: nat, entries: nat) {
    && n % 32 == 0 && 0 < entries && n < WORD_RANGE
    && MaxFileSize < WORD_RANGE && NumDirect < WORD_RANGE
    && n / 8 <= MaxFileSize && entries * ENTRY_SIZE <= MaxFileSize
    && 2 + SectorsFor(n / 8) + SectorsFor(entries * ENTRY_SIZE) <= n
  }

  lemma {:induction false} AllClear(n: nat)
    ensures |ClearBelow({}, n)| == n
  {
    if n == 0 {
      assert ClearBelow({}, 0) == {};
    } else {
      AllClear(n - 1);
      assert ClearBelow({}, n) == ClearBelow({}, n - 1) + {n - 1};
    }
  }

  /** Marking the sectors of s takes as many clear sectors away. */
  lemma {:induction false} ClearAfter(marked: set<nat>, s: set<nat>, n: nat)
    requires s !! marked && forall x :: x in s ==> x < n
    ensures |ClearBelow(marked + s, n)| == |ClearBelow(marked, n)| - |s|
    decreases |s|
  {
    if s == {} {
      assert marked + s == marked;
    } else {
      var x :| x in s;
      ClearAfter(marked, s - {x}, n);
      MarkOne(marked + (s - {x}), n, x);
      assert marked + (s - {x}) + {x} == marked + s;
    }
  }

  lemma {:induction false} BlocksCount(h: FileHeader, n: nat)
    requires n <= h.numSectors <= |h.dataSectors|
    requires forall i, j :: 0 <= i < j < h.numSectors ==> h.dataSectors[i] != h.dataSectors[j]
    ensures |FirstBlocks(h, n)| == n
  {
    if n > 0 {
      BlocksCount(h, n - 1);
      assert FirstBlocks(h, n) == FirstBlocks(h, n - 1) + {h.dataSectors[n - 1]};
      assert h.dataSectors[n - 1] !in FirstBlocks(h, n - 1);
    } else {
      assert FirstBlocks(h, 0) == {};
    }
  }

  /** ASSERT(hdr->Allocate(freeMap, size)) where there is room. */
  method AllocateSure(freeMap: BitMap, size: nat) returns (hdr: FileHeader)
    requires freeMap.Valid() && size <= MaxFileSize < WORD_RANGE
    requires freeMap.numBits < WORD_RANGE && NumDirect < WORD_RANGE
    requires SectorsFor(size) <= |ClearBelow(freeMap.Marked(), freeMap.numBits)|
    modifies freeMap.words
    ensures hdr.numBytes == size && WellFormed(hdr, freeMap.numBits) && Storable(hdr)
    ensures DataSet(hdr) !! old(freeMap.Marked()) && freeMap.Marked() == old(freeMap.Marked()) + DataSet(hdr)
    ensures |ClearBelow(freeMap.Marked(), freeMap.numBits)|
         == |ClearBelow(old(freeMap.Marked()), freeMap.numBits)| - SectorsFor(size)
  {
    ghost var marked := freeMap.Marked();
    FitsHeader(size);
    var ok;
    var overrun;
    ok, overrun, hdr := Allocate(freeMap, size);
    assert DataSet(hdr) == FirstBlocks(hdr, hdr.numSectors);
    BlocksCount(hdr, hdr.numSectors);
    ClearAfter(marked, DataSet(hdr), freeMap.numBits);
  }

  /** The system files' sectors in a fresh free map. */
  method AllocateSystem(freeMap: BitMap, entries: nat) returns (mapHdr: FileHeader, dirHdr: FileHeader)
    requires freeMap.Valid() && Fits(freeMap.numBits, entries) && freeMap.Marked() == {}
    modifies freeMap.words
    ensures FreshSystem(freeMap.numBits, mapHdr, dirHdr)
    ensures mapHdr.numBytes == freeMap.numBits / 8 && dirHdr.numBytes == entries * ENTRY_SIZE
    ensures freeMap.Marked() == {FreeMapSector, DirectorySector} + DataSet(mapHdr) + DataSet(dirHdr)
  {
    var n := freeMap.numBits;
    AllClear(n);
    MarkOne({}, n, FreeMapSector);
    MarkOne({} + {FreeMapSector}, n, DirectorySector);
    freeMap.Mark(FreeMapSector);
    freeMap.Mark(DirectorySector);
    mapHdr := AllocateSure(freeMap, n / 8);
    dirHdr := AllocateSure(freeMap, entries * ENTRY_SIZE);
  }

  /** NumSectors / BitsInByte bytes hold the words of the free map exactly. */
  lemma FitsFormatted(disk: seq<Sector>, mapHdr: FileHeader, dirHdr: FileHeader, entries: nat)
    requires Fits(|disk|, entries) && FreshSystem(|disk|, mapHdr, dirHdr)
    requires mapHdr.numBytes == |disk| / 8 && dirHdr.numBytes == entries * ENTRY_SIZE
    ensures Formatted(disk, mapHdr, dirHdr, entries)
  {
    MapBytes(|disk|);
  }

  lemma MapBytes(n: nat)
    requires n % 32 == 0
    ensures WordsFor(n) * 4 == n / 8
  {
    var q := n / 32;
    assert n == 32 * q && WordsFor(n) == q;
  }

  /** Flush the headers of the two system files. */
  method WriteHeaders(disk: SynchDisk, mapHdr: FileHeader, dirHdr: FileHeader)
    requires 2 <= disk.sectors.Length && Storable(mapHdr) && Storable(dirHdr)
    modifies disk.sectors
    ensures disk.sectors[FreeMapSector] == EncodeHeader(mapHdr) && disk.sectors[DirectorySector] == EncodeHeader(dirHdr)
  {
    disk.WriteSector(FreeMapSector, EncodeHeader(mapHdr));
    disk.WriteSector(DirectorySector, EncodeHeader(dirHdr));
  }

  /** Flush the headers, then the contents, of the two system files. */
  method WriteSystem(disk: SynchDisk, freeMap: BitMap, directory: Directory, mapHdr: FileHeader, dirHdr: FileHeader)
    requires FreshSystem(disk.sectors.Length, mapHdr, dirHdr) && freeMap.Valid()
    requires freeMap.numBits == disk.sectors.Length
    requires Formatted(disk.sectors[..], mapHdr, dirHdr, directory.table.Length)
    requires forall i :: 0 <= i < directory.table.Length ==> !directory.table[i].inUse
    requires freeMap.Marked() == {FreeMapSector, DirectorySector} + DataSet(mapHdr) + DataSet(dirHdr)
    modifies disk.sectors
    ensures FSInv(disk.sectors[..], mapHdr, dirHdr, directory.table.Length)
    ensures Mount(disk.sectors[..], mapHdr, dirHdr, directory.table.Length)
         == EmptyVolume(disk.sectors.Length, mapHdr, dirHdr, directory.table[..])
  {
    WriteHeaders(disk, mapHdr, dirHdr);
    var freeMapFile := new OpenFile(disk, mapHdr);
    var directoryFile := new OpenFile(disk, dirHdr);
    ghost var d1 := disk.sectors[..];
    WriteMap(freeMap, freeMapFile);
    ghost var d2 := disk.sectors[..];
    WriteDir(directory, directoryFile);
    FormattedDisk(d1, d2, disk.sectors[..], mapHdr, dirHdr, directory.table[..], freeMap.words[..]);
  }

  /** FileSystem::FileSystem(TRUE): lay out an empty file system, whatever the disk held. */
  method Format(disk: SynchDisk, entries: nat) returns (fs: FileSystem)
    requires Fits(disk.sectors.Length, entries)
    modifies disk.sectors
    ensures fs.Valid() && fs.disk == disk && fs.entries == entries
    ensures forall i :: 0 <= i < entries ==> !fs.State().dir[i].inUse
    ensures fs.State().marked
      == {FreeMapSector, DirectorySector} + DataSet(fs.freeMapFile.hdr) + DataSet(fs.directoryFile.hdr)
  {
    var freeMap := new BitMap(disk.sectors.Length);
    var directory := new Directory(entries);
    var mapHdr, dirHdr := AllocateSystem(freeMap, entries);
    FitsFormatted(disk.sectors[..], mapHdr, dirHdr, entries);
    WriteSystem(disk, freeMap, directory, mapHdr, dirHdr);
    ghost var t := directory.table[..];
    fs := new FileSystem.Mounted(disk, entries);
    assert fs.State() == EmptyVolume(disk.sectors.Length, mapHdr, dirHdr, t);
  }
}
