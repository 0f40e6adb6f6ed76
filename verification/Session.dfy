/** Whole sessions on a disk (code/filesys/filesys.cc, code/filesys/openfile.cc): any sequence of
    calls, failures included, against a map from names to bytes. */
module Sessions {
  import opened Bits
  import opened Bytes
  import opened BitMaps
  import opened OpenFiles
  import opened DiskFormat
  import opened Volumes
  import opened Directories
  import opened FileSystems

  /** The reference: the files by name, cut at 9 characters, and how many sectors and directory
      entries are free. */
  datatype Ref = Ref(files: map<seq<byte>, seq<byte>>, free: nat, slots: nat)

  datatype Call =
    | Make(name: seq<byte>, size: nat)
    | Delete(name: seq<byte>)
    | WriteTo(name: seq<byte>, position: nat, data: seq<byte>)   // Open, then WriteAt
    | ReadFrom(name: seq<byte>, position: nat, count: int)       // Open, then ReadAt

  datatype Answer =
    | Done(ok: bool)
    | Overrun                // Create writes past the end of the header
    | Count(n: nat)
    | Data(bytes: seq<byte>)
    | NoFile

  /** Create succeeds exactly if the name is new and there is room; what a new file holds is left
      open, since its sectors are not cleared. */
  ghost predicate RefStep(s: Ref, c: Call, a: Answer, s': Ref) {
    match c
    case Make(name, size) =>
      if Key(name) !in s.files && s.slots > 0 && 1 + SectorsFor(size) <= s.free then
        if size <= MaxFileSize then a == Done(true) && exists bytes :: RefMade(s, Key(name), bytes, size, s')
        else a == Overrun && s' == s
      else a == Done(false) && s' == s
    case Delete(name) =>
      if Key(name) in s.files then a == Done(true) && s' == RefDeleted(s, Key(name))
      else a == Done(false) && s' == s
    case WriteTo(name, position, data) =>
      if Key(name) in s.files then
        var n := Clip(|data|, position, |s.files[Key(name)]|);
        a == Count(n) && s' == if n == 0 then s else RefWritten(s, Key(name), position, data[..n])
      else a == NoFile && s' == s
    case ReadFrom(name, position, count) =>
      s' == s && a == if Key(name) in s.files then Data(Slice(s.files[Key(name)], count, position)) else NoFile
  }

  predicate RefMade(s: Ref, k: seq<byte>, bytes: seq<byte>, size: nat, s': Ref) {
    && |bytes| == size && s.slots > 0 && 1 + SectorsFor(size) <= s.free
    && s' == Ref(s.files[k := bytes], s.free - 1 - SectorsFor(size), s.slots - 1)
  }

  function RefDeleted(s: Ref, k: seq<byte>): (s': Ref)
    requires k in s.files
  {
    Ref(s.files - {k}, s.free + 1 + SectorsFor(|s.files[k]|), s.slots + 1)
  }

  function RefWritten(s: Ref, k: seq<byte>, position: nat, data: seq<byte>): (s': Ref)
    requires k in s.files && position + |data| <= |s.files[k]|
  {
    s.(files := s.files[k := Splice(s.files[k], position, data)])
  }

  /** The calls answered one after the other. After an overrun no more is known. */
  ghost predicate RefRun(s: Ref, cs: seq<Call>, answers: seq<Answer>, s': Ref)
    decreases |cs|
  {
    if cs == [] then answers == [] && s' == s
    else
      && answers != []
      && var c, a := cs[0], answers[0];
         if a == Overrun then answers == [a] && RefStep(s, c, a, s')
         else exists s1 :: RefStep(s, c, a, s1) && RefRun(s1, cs[1..], answers[1..], s')
  }

  /* ------------------------------ what the disk holds ------------------------------ */

  function FreeSlots(t: seq<DirectoryEntry>): (n: nat) {
    if t == [] then 0 else FreeSlots(t[..|t| - 1]) + if t[|t| - 1].inUse then 0 else 1
  }

  /** The volume v on the disk holds exactly the reference. */
  ghost predicate Holds(v: Volume, disk: seq<Sector>, s: Ref) {
    && VInv(v) && v.size == |disk| && FilesAre(v, disk, s)
    && s.free == |ClearBelow(v.marked, v.size)| && s.slots == FreeSlots(v.dir)
  }

  ghost predicate Named(v: Volume, i: nat, k: seq<byte>) { Live(v, i) && Key(v.dir[i].name) == k }

  ghost predicate FileIs(v: Volume, disk: seq<Sector>, s: Ref, i: nat) {
    && Live(v, i) && WellFormed(v.hdrs[i], |disk|)
    && Key(v.dir[i].name) in s.files && s.files[Key(v.dir[i].name)] == FileBytes(disk, v.hdrs[i])
  }

  /** A name is unknown to the directory exactly when it is to the reference. */
  lemma {:induction false} NameKnown(v: Volume, disk: seq<Sector>, s: Ref, name: seq<byte>, at: int)
    requires Holds(v, disk, s) && IsIndexOf(v.dir, name, at)
    ensures at == -1 <==> Key(name) !in s.files
    ensures at != -1 ==> at >= 0 && Named(v, at, Key(name))
  {
    assert at == -1 ==> forall i: nat :: !Named(v, i, Key(name));
    assert at != -1 ==> Live(v, at);
  }

  lemma {:induction false} SlotsUpdate(t: seq<DirectoryEntry>, i: nat, e: DirectoryEntry)
    requires i < |t|
    ensures FreeSlots(t[i := e]) == FreeSlots(t) + (if e.inUse then 0 else 1) - (if t[i].inUse then 0 else 1)
  {
    var n := |t| - 1;
    if i == n {
      assert t[i := e][..n] == t[..n];
    } else {
      SlotsUpdate(t[..n], i, e);
      assert t[i := e][..n] == t[..n][i := e];
    }
  }

  lemma {:induction false} SlotsFree(t: seq<DirectoryEntry>)
    ensures FreeSlots(t) > 0 <==> exists k :: 0 <= k < |t| && !t[k].inUse
  {
    if t != [] {
      SlotsFree(t[..|t| - 1]);
      if FreeSlots(t[..|t| - 1]) > 0 {
        var k :| 0 <= k < |t| - 1 && !t[..|t| - 1][k].inUse;
        assert !t[k].inUse;
      }
      if k :| 0 <= k < |t| && !t[k].inUse {
        assert k < |t| - 1 ==> !t[..|t| - 1][k].inUse;
      }
    }
  }

  /** The sectors of a file: its header and its data. */
  lemma {:induction false} SectorsTaken(marked: set<nat>, n: nat, sector: nat, h: FileHeader)
    requires WellFormed(h, n) && sector < n && sector !in marked && sector !in DataSet(h) && DataSet(h) !! marked
    ensures |ClearBelow(marked + {sector} + DataSet(h), n)| == |ClearBelow(marked, n)| - 1 - SectorsFor(h.numBytes)
  {
    assert DataSet(h) == FirstBlocks(h, h.numSectors);
    BlocksCount(h, h.numSectors);
    MarkOne(marked, n, sector);
    ClearAfter(marked + {sector}, DataSet(h), n);
  }

  /* ------------------------------ the calls ------------------------------ */

  /** The files of the reference are those of the volume. */
  ghost predicate FilesAre(v: Volume, disk: seq<Sector>, s: Ref) {
    && (forall i: nat :: Live(v, i) ==> FileIs(v, disk, s, i))
    && (forall k :: k in s.files ==> exists i: nat :: Named(v, i, k))
  }

  /** A file whose entry, header and bytes stay is still the same file. */
  lemma {:induction false} StillIs(v: Volume, d: seq<Sector>, s: Ref, v': Volume, d': seq<Sector>, s': Ref, j: nat)
    requires Live(v, j) && FileIs(v, d, s, j) && FileUntouched(v, d, d', j)
    requires Live(v', j) && v'.dir[j] == v.dir[j] && v'.hdrs[j] == v.hdrs[j]
    requires Key(v.dir[j].name) in s'.files && s'.files[Key(v.dir[j].name)] == s.files[Key(v.dir[j].name)]
    ensures FileIs(v', d', s', j)
  {}

  lemma {:induction false} MadeFiles(v: Volume, d: seq<Sector>, s: Ref, k: seq<byte>, i: nat, h: FileHeader,
                                     v': Volume, d': seq<Sector>, s': Ref)
    requires FilesAre(v, d, s) && |d'| == |d| && WellFormed(h, |d'|) && i < |v.dir| == |v.hdrs| && !Live(v, i)
    requires v'.hdrs == v.hdrs[i := h] && |v'.dir| == |v.dir| && v'.dir == v.dir[i := v'.dir[i]]
    requires v'.dir[i].inUse && Key(v'.dir[i].name) == k && k !in s.files
    requires forall j: nat :: Live(v, j) ==> FileUntouched(v, d, d', j)
    requires s'.files == s.files[k := FileBytes(d', h)]
    ensures FilesAre(v', d', s')
  {
    forall j: nat | Live(v', j) ensures FileIs(v', d', s', j) {
      if j != i { StillIs(v, d, s, v', d', s', j); }
    }
    MadeNames(v, s, k, i, v', s');
  }

  lemma {:induction false} MadeNames(v: Volume, s: Ref, k: seq<byte>, i: nat, v': Volume, s': Ref)
    requires forall key :: key in s.files ==> exists j: nat :: Named(v, j, key)
    requires i < |v.dir| == |v.hdrs| == |v'.hdrs| && !Live(v, i)
    requires |v'.dir| == |v.dir| && v'.dir == v.dir[i := v'.dir[i]] && v'.dir[i].inUse && Key(v'.dir[i].name) == k
    requires s'.files.Keys == s.files.Keys + {k}
    ensures forall key :: key in s'.files ==> exists j: nat :: Named(v', j, key)
  {
    assert Named(v', i, k);
    forall key | key in s'.files && key != k ensures exists j: nat :: Named(v', j, key) {
      var j: nat :| Named(v, j, key);
      assert Named(v', j, key);
    }
  }

  lemma {:induction false} MadeHolds(v: Volume, d: seq<Sector>, s: Ref, name: seq<byte>, i: nat, sector: word,
                                     h: FileHeader, v': Volume, d': seq<Sector>, s': Ref)
    requires Holds(v, d, s) && MadeFile(v, name, h.numBytes, i, sector, h, v') && |d'| == |d| && WellFormed(h, |d'|)
    requires forall j: nat :: Live(v, j) ==> FileUntouched(v, d, d', j)
    requires RefMade(s, Key(name), FileBytes(d', h), h.numBytes, s')
    ensures Holds(v', d', s')
  {
    StoredKey(name, v.dir[i].name);
    AddFileInv(v, i, Stored(name, v.dir[i].name), sector, h);
    SlotsUpdate(v.dir, i, v'.dir[i]);
    SectorsTaken(v.marked, v.size, sector, h);
    MakeSucceeds(v, d, s, name);
    MadeFiles(v, d, s, Key(name), i, h, v', d', s');
  }

  lemma {:induction false} DeletedFiles(v: Volume, d: seq<Sector>, s: Ref, k: seq<byte>, i: nat, v': Volume,
                                        d': seq<Sector>, s': Ref)
    requires FilesAre(v, d, s) && UniqueNames(v) && |d'| == |d| && Named(v, i, k) && |v.dir| == |v.hdrs|
    requires |v'.dir| == |v'.hdrs| == |v.dir| && v'.dir == v.dir[i := v.dir[i].(inUse := false)]
    requires v'.hdrs == v.hdrs[i := v'.hdrs[i]] && s'.files == s.files - {k}
    requires forall j: nat :: Live(v, j) ==> FileUntouched(v, d, d', j)
    ensures FilesAre(v', d', s')
  {
    forall j: nat | Live(v', j) ensures FileIs(v', d', s', j) {
      assert Live(v, j) && j != i;
      StillIs(v, d, s, v', d', s', j);
    }
    forall key | key in s'.files ensures exists j: nat :: Named(v', j, key) {
      var j: nat :| Named(v, j, key);
      assert Named(v', j, key);
    }
  }

  lemma {:induction false} DeletedHolds(v: Volume, d: seq<Sector>, s: Ref, name: seq<byte>, i: nat, v': Volume,
                                        d': seq<Sector>)
    requires Holds(v, d, s) && DeletedFile(v, name, i, v') && |d'| == |d| && Key(name) in s.files
    requires forall j: nat :: Live(v, j) ==> FileUntouched(v, d, d', j)
    ensures Holds(v', d', RefDeleted(s, Key(name)))
  {
    RemoveFileInv(v, i);
    SlotsUpdate(v.dir, i, v'.dir[i]);
    FileSectors(v, i);
    assert FileIs(v, d, s, i);
    var h, sector := v.hdrs[i], v.dir[i].sector;
    assert v.marked == v'.marked + {sector} + DataSet(h);
    SectorsTaken(v'.marked, v.size, sector, h);
    DeletedFiles(v, d, s, Key(name), i, v', d', RefDeleted(s, Key(name)));
  }

  lemma {:induction false} WrittenHolds(v: Volume, d: seq<Sector>, s: Ref, k: seq<byte>, i: nat, position: nat,
                                        data: seq<byte>, d': seq<Sector>)
    requires Holds(v, d, s) && Named(v, i, k) && |d'| == |d| && k in s.files
    requires WellFormed(v.hdrs[i], |d|) && position + |data| <= |s.files[k]|
    requires |FileBytes(d, v.hdrs[i])| == |s.files[k]|
    requires FileBytes(d', v.hdrs[i]) == Splice(FileBytes(d, v.hdrs[i]), position, data)
    requires forall j: nat :: Live(v, j) && j != i ==> FileUntouched(v, d, d', j)
    ensures Holds(v, d', RefWritten(s, k, position, data))
  {
    var s' := RefWritten(s, k, position, data);
    forall j: nat | Live(v, j) ensures FileIs(v, d', s', j) {
      assert FileIs(v, d, s, j);
      if j != i { assert FileUntouched(v, d, d', j); }
    }
  }

  lemma {:induction false} WroteHolds(d: seq<Sector>, d': seq<Sector>, mapHdr: FileHeader, dirHdr: FileHeader,
                                      entries: nat, s: Ref, k: seq<byte>, i: nat, position: nat, data: seq<byte>)
    requires FSInv(d, mapHdr, dirHdr, entries) && Holds(Mount(d, mapHdr, dirHdr, entries), d, s)
    requires Named(Mount(d, mapHdr, dirHdr, entries), i, k) && k in s.files && position + |data| <= |s.files[k]|
    requires WroteAt(d, d', Mount(d, mapHdr, dirHdr, entries).hdrs[i], position, data)
    ensures FSInv(d', mapHdr, dirHdr, entries)
    ensures Holds(Mount(d', mapHdr, dirHdr, entries), d', RefWritten(s, k, position, data))
  {
    var v := Mount(d, mapHdr, dirHdr, entries);
    assert FileIs(v, d, s, i);
    WriteKeepsVolume(d, d', mapHdr, dirHdr, entries, i, position, data);
    WrittenHolds(v, d, s, k, i, position, data, d');
  }

  ghost predicate Stands(fs: FileSystem, s: Ref)
    reads fs.disk.sectors
  {
    fs.Valid() && Holds(fs.State(), fs.disk.sectors[..], s)
  }

  /** Create's condition, in terms of the reference. */
  lemma {:induction false} MakeSucceeds(v: Volume, d: seq<Sector>, s: Ref, name: seq<byte>)
    requires Holds(v, d, s)
    ensures IsIndexOf(v.dir, name, -1) <==> Key(name) !in s.files
    ensures (exists k :: 0 <= k < |v.dir| && !v.dir[k].inUse) <==> s.slots > 0
  {
    SlotsFree(v.dir);
    if Key(name) !in s.files {
      forall j | 0 <= j < |v.dir| && v.dir[j].inUse ensures Key(v.dir[j].name) != Key(name) {
        assert Live(v, j) && FileIs(v, d, s, j);
      }
    } else {
      var i: nat :| Named(v, i, Key(name));
      assert v.dir[i].inUse;
    }
  }

  method MakeNow(fs: FileSystem, name: seq<byte>, size: nat, ghost s: Ref) returns (a: Answer, ghost s': Ref)
    requires Stands(fs, s)
    modifies fs.disk.sectors
    ensures Stands(fs, s') && RefStep(s, Make(name, size), a, s')
  {
    ghost var v, d := fs.State(), fs.disk.sectors[..];
    MakeSucceeds(v, d, s, name);
    var ok, overrun; ghost var i, sector, h;
    ok, overrun, i, sector, h := fs.Create(name, size);
    a := if overrun then Overrun else Done(ok);
    s' := s;
    if ok {
      ghost var v', d' := fs.State(), fs.disk.sectors[..];
      assert MadeFile(v, name, size, i, sector, h, v');
      s' := Ref(s.files[Key(name) := FileBytes(d', h)], s.free - 1 - SectorsFor(size), s.slots - 1);
      assert RefMade(s, Key(name), FileBytes(d', h), size, s');
      MadeHolds(v, d, s, name, i, sector, h, v', d', s');
    }
  }

  method DeleteNow(fs: FileSystem, name: seq<byte>, ghost s: Ref) returns (a: Answer, ghost s': Ref)
    requires Stands(fs, s)
    modifies fs.disk.sectors
    ensures Stands(fs, s') && RefStep(s, Delete(name), a, s')
  {
    ghost var v, d := fs.State(), fs.disk.sectors[..];
    var ok; ghost var at;
    ok, at := fs.Remove(name);
    NameKnown(v, d, s, name, at);
    a := Done(ok);
    s' := s;
    if ok {
      assert DeletedFile(v, name, at, fs.State());
      DeletedHolds(v, d, s, name, at, fs.State(), fs.disk.sectors[..]);
      s' := RefDeleted(s, Key(name));
    }
  }

  method WriteNow(fs: FileSystem, name: seq<byte>, position: nat, data: seq<byte>, ghost s: Ref)
    returns (a: Answer, ghost s': Ref)
    requires Stands(fs, s)
    modifies fs.disk.sectors
    ensures Stands(fs, s') && RefStep(s, WriteTo(name, position, data), a, s')
  {
    ghost var v, d := fs.State(), fs.disk.sectors[..];
    var file; ghost var at;
    file, at := fs.Open(name);
    NameKnown(v, d, s, name, at);
    s' := s;
    if file == null {
      return NoFile, s';
    }
    a, s' := WriteOpened(fs, file, at, Key(name), position, data, s);
  }

  method WriteOpened(fs: FileSystem, file: OpenFile, ghost at: nat, ghost k: seq<byte>, position: nat,
                     data: seq<byte>, ghost s: Ref)
    returns (a: Answer, ghost s': Ref)
    requires Stands(fs, s) && Named(fs.State(), at, k) && k in s.files
    requires file.disk == fs.disk && file.hdr == fs.State().hdrs[at] && file.Valid()
    modifies fs.disk.sectors
    ensures Stands(fs, s')
    ensures var n := Clip(|data|, position, |s.files[k]|);
      a == Count(n) && s' == if n == 0 then s else RefWritten(s, k, position, data[..n])
  {
    ghost var d := fs.disk.sectors[..];
    assert FileIs(fs.State(), d, s, at);
    var n := file.WriteAt(data, position);
    a, s' := Count(n), s;
    if n > 0 {
      WroteHolds(d, fs.disk.sectors[..], fs.freeMapFile.hdr, fs.directoryFile.hdr, fs.entries, s, k, at,
                 position, data[..n]);
      s' := RefWritten(s, k, position, data[..n]);
    }
  }

  method ReadNow(fs: FileSystem, name: seq<byte>, position: nat, count: int, ghost s: Ref) returns (a: Answer)
    requires Stands(fs, s)
    ensures RefStep(s, ReadFrom(name, position, count), a, s)
  {
    ghost var v, d := fs.State(), fs.disk.sectors[..];
    var file; ghost var at;
    file, at := fs.Open(name);
    NameKnown(v, d, s, name, at);
    if file == null {
      return NoFile;
    }
    assert FileIs(v, d, s, at);
    var bytes := file.ReadAt(count, position);
    a := Data(bytes);
  }

  method Perform(fs: FileSystem, c: Call, ghost s: Ref) returns (a: Answer, ghost s': Ref)
    requires Stands(fs, s)
    modifies fs.disk.sectors
    ensures Stands(fs, s') && RefStep(s, c, a, s')
  {
    match c {
      case Make(name, size) => a, s' := MakeNow(fs, name, size, s);
      case Delete(name) => a, s' := DeleteNow(fs, name, s);
      case WriteTo(name, position, data) => a, s' := WriteNow(fs, name, position, data, s);
      case ReadFrom(name, position, count) =>
        a := ReadNow(fs, name, position, count, s);
        s' := s;
    }
  }

  lemma {:induction false} RunMore(s: Ref, a: Answer, s1: Ref, cs: seq<Call>, rest: seq<Answer>, s': Ref)
    requires cs != [] && a != Overrun && RefStep(s, cs[0], a, s1) && RefRun(s1, cs[1..], rest, s')
    ensures RefRun(s, cs, [a] + rest, s')
  {
    assert ([a] + rest)[1..] == rest;
  }

  /** The file system is the reference map, over any session on the disk, up to the first
      overrun if there is one. */
  method Run(fs: FileSystem, cs: seq<Call>, ghost s: Ref) returns (answers: seq<Answer>, ghost s': Ref)
    requires Stands(fs, s)
    modifies fs.disk.sectors
    ensures Stands(fs, s') && RefRun(s, cs, answers, s')
    decreases |cs|
  {
    if cs == [] {
      return [], s;
    }
    var a; ghost var s1;
    a, s1 := Perform(fs, cs[0], s);
    if a == Overrun {
      return [a], s1;
    }
    var rest;
    rest, s' := Run(fs, cs[1..], s1);
    answers := [a] + rest;
    RunMore(s, a, s1, cs, rest, s');
  }

  lemma {:induction false} EmptyHolds(v: Volume, d: seq<Sector>)
    requires VInv(v) && v.size == |d| && forall i :: 0 <= i < |v.dir| ==> !v.dir[i].inUse
    ensures Holds(v, d, Ref(map[], |ClearBelow(v.marked, v.size)|, |v.dir|))
  {
    AllSlotsFree(v.dir);
  }

  lemma {:induction false} AllSlotsFree(t: seq<DirectoryEntry>)
    requires forall i :: 0 <= i < |t| ==> !t[i].inUse
    ensures FreeSlots(t) == |t|
  {
    if t != [] { AllSlotsFree(t[..|t| - 1]); }
  }

  /** What formatting takes: two headers, and the data of the two system files. */
  lemma {:induction false} SystemSectors(v: Volume)
    requires VInv(v) && 2 <= v.size
    requires v.marked == {FreeMapSector, DirectorySector} + DataSet(v.mapHdr) + DataSet(v.dirHdr)
    ensures |ClearBelow(v.marked, v.size)| + 2 + SectorsFor(v.mapHdr.numBytes) + SectorsFor(v.dirHdr.numBytes) == v.size
  {
    assert Owns(v, MapHeader, FreeMapSector) && Owns(v, DirHeader, DirectorySector);
    assert forall x: nat :: x in DataSet(v.mapHdr) ==> Owns(v, MapData, x);
    assert forall x: nat :: x in DataSet(v.dirHdr) ==> Owns(v, DirData, x);
    AllClear(v.size);
    SectorsTaken({}, v.size, FreeMapSector, v.mapHdr);
    var m := {} + {FreeMapSector} + DataSet(v.mapHdr);
    SectorsTaken(m, v.size, DirectorySector, v.dirHdr);
    assert v.marked == m + {DirectorySector} + DataSet(v.dirHdr);
  }

  lemma {:induction false} FreshVolume(v: Volume, d: seq<Sector>, entries: nat)
    requires VInv(v) && v.size == |d| && 2 <= |d| && |d| % 32 == 0 && |v.dir| == entries
    requires v.mapHdr.numBytes == WordsFor(|d|) * 4 && v.dirHdr.numBytes == entries * ENTRY_SIZE
    requires forall i :: 0 <= i < |v.dir| ==> !v.dir[i].inUse
    requires v.marked == {FreeMapSector, DirectorySector} + DataSet(v.mapHdr) + DataSet(v.dirHdr)
    ensures var free := |d| - 2 - SectorsFor(|d| / 8) - SectorsFor(entries * ENTRY_SIZE);
      free >= 0 && Holds(v, d, Ref(map[], free, entries))
  {
    EmptyHolds(v, d);
    SystemSectors(v);
    MapBytes(|d|);
  }

  /** A formatted disk: no files, and all sectors free but those of the system, whatever it held
      before. */
  method FormatFresh(disk: SynchDisk, entries: nat) returns (fs: FileSystem, ghost s: Ref)
    requires Fits(disk.sectors.Length, entries)
    modifies disk.sectors
    ensures fs.disk == disk && Stands(fs, s)
    ensures s.files == map[] && s.slots == entries
    ensures s.free + 2 + SectorsFor(disk.sectors.Length / 8) + SectorsFor(entries * ENTRY_SIZE) == disk.sectors.Length
  {
    fs := Format(disk, entries);
    FreshVolume(fs.State(), disk.sectors[..], entries);
    s := Ref(map[], disk.sectors.Length - 2 - SectorsFor(disk.sectors.Length / 8) - SectorsFor(entries * ENTRY_SIZE),
             entries);
  }

  /** Format a disk and use it. */
  method FormatAndRun(disk: SynchDisk, entries: nat, cs: seq<Call>)
    returns (fs: FileSystem, answers: seq<Answer>, ghost s: Ref, ghost s': Ref)
    requires Fits(disk.sectors.Length, entries)
    modifies disk.sectors
    ensures s.files == map[] && s.slots == entries
    ensures s.free + 2 + SectorsFor(disk.sectors.Length / 8) + SectorsFor(entries * ENTRY_SIZE) == disk.sectors.Length
    ensures fs.disk == disk && RefRun(s, cs, answers, s') && Stands(fs, s')
  {
    fs, s := FormatFresh(disk, entries);
    answers, s' := Run(fs, cs, s);
  }
}
