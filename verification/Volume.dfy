/** Who owns which sector of a formatted disk: the global invariant of the file system,
    stated on the value that the on-disk structures denote. */
module Volumes {
  import opened Bits
  import opened Bytes
  import opened OpenFiles
  import opened DiskFormat

  const FreeMapSector: nat := 0
  const DirectorySector: nat := 1
  const FileNameMaxLen: nat := 9

  // ---- File names ----------------------------------------------------------

  /** What strncmp(.., .., FileNameMaxLen) looks at: the bytes before the first NUL, at most 9. */
  function Key(s: seq<byte>): (k: seq<byte>)
    ensures |k| <= FileNameMaxLen
  {
    KeyFrom(s, 0)
  }

  function KeyFrom(s: seq<byte>, i: nat): (k: seq<byte>)
    requires i <= FileNameMaxLen
    ensures |k| <= FileNameMaxLen - i
    decreases FileNameMaxLen - i
  {
    if i == FileNameMaxLen || i >= |s| || s[i] == 0 then [] else [s[i]] + KeyFrom(s, i + 1)
  }

  /** strncpy(field, name, FileNameMaxLen): at most 9 bytes, padded with NULs; the last byte
      of the field is not touched. */
  function Stored(name: seq<byte>, field: NameField): NameField {
    Key(name) + Zeros(FileNameMaxLen - |Key(name)|) + field[FileNameMaxLen..]
  }

  lemma {:induction false} KeyAt(s: seq<byte>, i: nat, k: nat)
    requires i <= FileNameMaxLen && k < |KeyFrom(s, i)|
    ensures i + k < |s| && KeyFrom(s, i)[k] == s[i + k] != 0 && i + k < FileNameMaxLen
    decreases FileNameMaxLen - i
  {
    if k > 0 { KeyAt(s, i + 1, k - 1); }
  }

  lemma {:induction false} StoredKeyFrom(name: seq<byte>, field: NameField, i: nat)
    requires i <= |Key(name)|
    ensures KeyFrom(Stored(name, field), i) == Key(name)[i..]
    decreases FileNameMaxLen - i
  {
    if i < |Key(name)| {
      KeyAt(name, 0, i);
      StoredKeyFrom(name, field, i + 1);
      assert Key(name)[i..] == [Key(name)[i]] + Key(name)[i + 1..];
    }
  }

  /** A stored name is found under exactly the names with the same first 9 characters. */
  lemma StoredKey(name: seq<byte>, field: NameField)
    ensures Key(Stored(name, field)) == Key(name)
  {
    StoredKeyFrom(name, field, 0);
  }

  /** Character i of a C string, and what strncmp takes for equal: the first 9 characters agree, as
      far as the first NUL. */
  function CharAt(s: seq<byte>, i: nat): int { if i < |s| then s[i] else 0 }

  predicate SameUpTo(a: seq<byte>, b: seq<byte>, i: nat) {
    forall j: nat :: j < i ==> CharAt(a, j) == CharAt(b, j) && CharAt(a, j) != 0
  }

  predicate SameName(a: seq<byte>, b: seq<byte>) {
    forall i: nat :: i < 9 && SameUpTo(a, b, i) ==> CharAt(a, i) == CharAt(b, i)
  }

  /** From character i on. */
  predicate SameFrom(a: seq<byte>, b: seq<byte>, i: nat) {
    forall k: nat :: i <= k < 9 && SameUpTo(a, b, k) ==> CharAt(a, k) == CharAt(b, k)
  }

  lemma {:induction false} KeysFrom(a: seq<byte>, b: seq<byte>, i: nat)
    requires i <= FileNameMaxLen && SameUpTo(a, b, i)
    ensures KeyFrom(a, i) == KeyFrom(b, i) <==> SameFrom(a, b, i)
    decreases FileNameMaxLen - i
  {
    if i < FileNameMaxLen {
      var x, y := CharAt(a, i), CharAt(b, i);
      if x == y != 0 {
        KeysFrom(a, b, i + 1);
        assert SameFrom(a, b, i) <==> SameFrom(a, b, i + 1);
        assert KeyFrom(a, i) == [a[i]] + KeyFrom(a, i + 1) && KeyFrom(b, i) == [b[i]] + KeyFrom(b, i + 1);
        assert KeyFrom(a, i)[1..] == KeyFrom(a, i + 1) && KeyFrom(b, i)[1..] == KeyFrom(b, i + 1);
      } else {
        forall k: nat | i < k ensures !SameUpTo(a, b, k) {}
        assert SameFrom(a, b, i) <==> x == y;
        assert x != 0 ==> KeyFrom(a, i) != [] && KeyFrom(a, i)[0] == x;
        assert y != 0 ==> KeyFrom(b, i) != [] && KeyFrom(b, i)[0] == y;
      }
    }
  }

  /** The model's keys are equal exactly when the source's comparison says so. */
  lemma {:induction false} KeyIff(a: seq<byte>, b: seq<byte>)
    ensures Key(a) == Key(b) <==> SameName(a, b)
  {
    KeysFrom(a, b, 0);
  }

  // ---- Ownership -----------------------------------------------------------

  datatype Volume = Volume(
    size: nat,                      // sectors on the disk
    mapHdr: FileHeader,             // header of the free-map file
    dirHdr: FileHeader,             // header of the directory file
    marked: set<nat>,               // the free map
    dir: seq<DirectoryEntry>,       // the directory
    hdrs: seq<FileHeader>)          // hdrs[i]: the header in sector dir[i].sector

  /** Placeholder for directory slots that hold no file. */
  const NoHeader := FileHeader(0, 0, [])

  datatype Entity = MapHeader | DirHeader | MapData | DirData | HeaderOf(i: nat) | DataOf(i: nat)

  ghost function DataSet(h: FileHeader): set<nat> {
    set i | 0 <= i < h.numSectors && i < |h.dataSectors| :: h.dataSectors[i]
  }

  predicate Live(v: Volume, i: nat) { i < |v.dir| && i < |v.hdrs| && v.dir[i].inUse }

  ghost predicate Owns(v: Volume, e: Entity, x: nat) {
    match e
    case MapHeader => x == FreeMapSector
    case DirHeader => x == DirectorySector
    case MapData => x in DataSet(v.mapHdr)
    case DirData => x in DataSet(v.dirHdr)
    case HeaderOf(i) => Live(v, i) && x == v.dir[i].sector
    case DataOf(i) => Live(v, i) && x in DataSet(v.hdrs[i])
  }

  /** Every sector has at most one owner, and the free map marks exactly the owned ones. */
  ghost predicate Partition(v: Volume) {
    && (forall e, x: nat :: Owns(v, e, x) ==> x < v.size && x in v.marked)
    && (forall e1, e2, x: nat :: Owns(v, e1, x) && Owns(v, e2, x) ==> e1 == e2)
    && (forall x: nat :: x in v.marked ==> exists e :: Owns(v, e, x))
  }

  /** Files are found by name: no two live entries have the same key. */
  ghost predicate UniqueNames(v: Volume) {
    forall i: nat, j: nat :: Live(v, i) && Live(v, j) && Key(v.dir[i].name) == Key(v.dir[j].name) ==> i == j
  }

  ghost predicate GoodHeaders(v: Volume) {
    && WellFormed(v.mapHdr, v.size) && WellFormed(v.dirHdr, v.size)
    && forall i: nat :: Live(v, i) ==> WellFormed(v.hdrs[i], v.size)
  }

  ghost predicate VInv(v: Volume) {
    |v.hdrs| == |v.dir| && GoodHeaders(v) && Partition(v) && UniqueNames(v)
  }

  // ---- Create and Remove on the value --------------------------------------

  ghost function AddFile(v: Volume, i: nat, name: NameField, sector: word, h: FileHeader): Volume
    requires i < |v.dir| == |v.hdrs|
  {
    v.(dir := v.dir[i := DirectoryEntry(true, sector, name)], hdrs := v.hdrs[i := h],
       marked := v.marked + {sector} + DataSet(h))
  }

  ghost function RemoveFile(v: Volume, i: nat): Volume
    requires i < |v.dir| == |v.hdrs|
  {
    v.(dir := v.dir[i := v.dir[i].(inUse := false)], hdrs := v.hdrs[i := NoHeader],
       marked := v.marked - {v.dir[i].sector} - DataSet(v.hdrs[i]))
  }

  /** The sectors of a new file: free before, within the disk, header apart from data. */
  ghost predicate FreshSectors(v: Volume, sector: nat, h: FileHeader) {
    && sector < v.size && sector !in v.marked && WellFormed(h, v.size)
    && sector !in DataSet(h) && DataSet(h) !! v.marked
  }

  lemma AddOwners(v: Volume, i: nat, name: NameField, sector: word, h: FileHeader, e: Entity, x: nat)
    requires |v.hdrs| == |v.dir| && i < |v.dir| && !Live(v, i)
    ensures Owns(AddFile(v, i, name, sector, h), e, x) <==>
      || (e == HeaderOf(i) && x == sector) || (e == DataOf(i) && x in DataSet(h))
      || (e != HeaderOf(i) && e != DataOf(i) && Owns(v, e, x))
  {}

  lemma AddPartition(v: Volume, i: nat, name: NameField, sector: word, h: FileHeader)
    requires |v.hdrs| == |v.dir| && Partition(v) && i < |v.dir| && !Live(v, i) && FreshSectors(v, sector, h)
    ensures Partition(AddFile(v, i, name, sector, h))
  {
    var v' := AddFile(v, i, name, sector, h);
    forall e, x: nat ensures Owns(v', e, x) <==>
      || (e == HeaderOf(i) && x == sector) || (e == DataOf(i) && x in DataSet(h))
      || (e != HeaderOf(i) && e != DataOf(i) && Owns(v, e, x))
    {
      AddOwners(v, i, name, sector, h, e, x);
    }
    assert forall x :: x in DataSet(h) ==> x < v.size;
    forall x: nat | x in v'.marked
      ensures exists e :: Owns(v', e, x)
    {
      if x == sector {
        assert Owns(v', HeaderOf(i), x);
      } else if x in DataSet(h) {
        assert Owns(v', DataOf(i), x);
      } else {
        var e :| Owns(v, e, x);
        assert e != HeaderOf(i) && e != DataOf(i);
        assert Owns(v', e, x);
      }
    }
  }

  /** Create keeps the invariant. */
  lemma AddFileInv(v: Volume, i: nat, name: NameField, sector: word, h: FileHeader)
    requires VInv(v) && i < |v.dir| && !Live(v, i) && FreshSectors(v, sector, h)
    requires forall j: nat :: Live(v, j) ==> Key(v.dir[j].name) != Key(name)
    ensures VInv(AddFile(v, i, name, sector, h))
  {
    AddPartition(v, i, name, sector, h);
  }

  lemma RemoveOwners(v: Volume, i: nat, e: Entity, x: nat)
    requires |v.hdrs| == |v.dir| && Live(v, i)
    ensures Owns(RemoveFile(v, i), e, x) <==> e != HeaderOf(i) && e != DataOf(i) && Owns(v, e, x)
  {}

  lemma RemovePartition(v: Volume, i: nat)
    requires |v.hdrs| == |v.dir| && Partition(v) && Live(v, i)
    ensures Partition(RemoveFile(v, i))
  {
    var v' := RemoveFile(v, i);
    forall e, x: nat ensures Owns(v', e, x) <==> e != HeaderOf(i) && e != DataOf(i) && Owns(v, e, x) {
      RemoveOwners(v, i, e, x);
    }
    forall e, x: nat | Owns(v', e, x)
      ensures x in v'.marked && x < v.size
    {
      assert Owns(v, e, x);
      assert x == v.dir[i].sector ==> Owns(v, HeaderOf(i), x);
      assert x in DataSet(v.hdrs[i]) ==> Owns(v, DataOf(i), x);
    }
    forall x: nat | x in v'.marked
      ensures exists e :: Owns(v', e, x)
    {
      var e :| Owns(v, e, x);
      assert Owns(v', e, x);
    }
  }

  /** Remove keeps the invariant. */
  lemma RemoveFileInv(v: Volume, i: nat)
    requires VInv(v) && Live(v, i)
    ensures VInv(RemoveFile(v, i))
  {
    RemovePartition(v, i);
  }

  /** Removing the file just created gives the volume back, free sectors included. */
  lemma AddRemove(v: Volume, i: nat, name: NameField, sector: word, h: FileHeader)
    requires VInv(v) && i < |v.dir| && !Live(v, i) && FreshSectors(v, sector, h)
    ensures var v' := RemoveFile(AddFile(v, i, name, sector, h), i);
      v'.marked == v.marked && forall e, x: nat :: Owns(v', e, x) <==> Owns(v, e, x)
  {
    var v1 := AddFile(v, i, name, sector, h);
    var v' := RemoveFile(v1, i);
    forall e, x: nat ensures Owns(v', e, x) <==> Owns(v, e, x) {
      AddOwners(v, i, name, sector, h, e, x);
      RemoveOwners(v1, i, e, x);
    }
  }

  // ---- The name space ------------------------------------------------------

  /** As users see it: there is a file of this length under names with this key. */
  ghost predicate HasFile(v: Volume, key: seq<byte>, length: nat) {
    exists i: nat :: Live(v, i) && Key(v.dir[i].name) == key && v.hdrs[i].numBytes == length
  }

  /** Create adds exactly the new file to the name space. */
  lemma AddNames(v: Volume, i: nat, name: NameField, sector: word, h: FileHeader, key: seq<byte>, length: nat)
    requires VInv(v) && i < |v.dir| && !Live(v, i)
    ensures HasFile(AddFile(v, i, name, sector, h), key, length) <==>
      (key == Key(name) && length == h.numBytes) || HasFile(v, key, length)
  {
    var v' := AddFile(v, i, name, sector, h);
    assert Live(v', i);
    assert forall j: nat :: j != i ==> (Live(v', j) <==> Live(v, j));
    if HasFile(v, key, length) {
      var j: nat :| Live(v, j) && Key(v.dir[j].name) == key && v.hdrs[j].numBytes == length;
      assert Live(v', j);
    }
  }

  /** Remove takes exactly the named file out of it. */
  lemma RemoveNames(v: Volume, i: nat, key: seq<byte>, length: nat)
    requires VInv(v) && Live(v, i)
    ensures HasFile(RemoveFile(v, i), key, length) <==> key != Key(v.dir[i].name) && HasFile(v, key, length)
  {
    var v' := RemoveFile(v, i);
    assert forall j: nat :: Live(v', j) <==> j != i && Live(v, j);
    if HasFile(v, key, length) && key != Key(v.dir[i].name) {
      var j: nat :| Live(v, j) && Key(v.dir[j].name) == key && v.hdrs[j].numBytes == length;
      assert Live(v', j);
    }
  }

  // ---- Any sequence of Create and Remove -----------------------------------

  datatype FileOp = MakeFile(name: seq<byte>, length: nat) | DeleteFile(name: seq<byte>)

  /** One successful Create or Remove, whichever entry and sectors it picks. */
  ghost predicate VolumeStep(v: Volume, op: FileOp, v': Volume) {
    match op
    case MakeFile(name, length) =>
      exists i: nat, sector: word, h: FileHeader {:trigger MadeFile(v, name, length, i, sector, h, v')} ::
        MadeFile(v, name, length, i, sector, h, v')
    case DeleteFile(name) => exists i: nat :: DeletedFile(v, name, i, v')
  }

  ghost predicate MadeFile(v: Volume, name: seq<byte>, length: nat, i: nat, sector: word, h: FileHeader, v': Volume) {
    && i < |v.dir| == |v.hdrs| && !Live(v, i) && FreshSectors(v, sector, h) && h.numBytes == length
    && (forall j: nat :: Live(v, j) ==> Key(v.dir[j].name) != Key(name))
    && v' == AddFile(v, i, Stored(name, v.dir[i].name), sector, h)
  }

  ghost predicate DeletedFile(v: Volume, name: seq<byte>, i: nat, v': Volume) {
    |v.dir| == |v.hdrs| && Live(v, i) && Key(v.dir[i].name) == Key(name) && v' == RemoveFile(v, i)
  }

  ghost predicate VolumeRun(v0: Volume, ops: seq<FileOp>, v: Volume) {
    if ops == [] then v == v0
    else
      var last := ops[|ops| - 1];
      exists u :: VolumeRun(v0, ops[..|ops| - 1], u) && VolumeStep(u, last, v)
  }

  /** The reference: a map from names, cut at 9 characters, to lengths. */
  function Names(ops: seq<FileOp>): (m: map<seq<byte>, nat>) {
    if ops == [] then map[]
    else
      var m := Names(ops[..|ops| - 1]);
      match ops[|ops| - 1]
      case MakeFile(name, length) => m[Key(name) := length]
      case DeleteFile(name) => m - {Key(name)}
  }

  ghost predicate Denotes(v: Volume, m: map<seq<byte>, nat>) {
    forall key, length: nat :: HasFile(v, key, length) <==> key in m && m[key] == length
  }

  lemma {:induction false} MadeDenotes(v: Volume, m: map<seq<byte>, nat>, name: seq<byte>, length: nat,
                                       i: nat, sector: word, h: FileHeader, v': Volume)
    requires VInv(v) && Denotes(v, m) && MadeFile(v, name, length, i, sector, h, v')
    ensures VInv(v') && Denotes(v', m[Key(name) := length])
  {
    var field := Stored(name, v.dir[i].name);
    StoredKey(name, v.dir[i].name);
    AddFileInv(v, i, field, sector, h);
    forall key, len: nat
      ensures HasFile(v', key, len) <==> key in m[Key(name) := length] && m[Key(name) := length][key] == len
    {
      AddNames(v, i, field, sector, h, key, len);
      assert !HasFile(v, Key(name), len);
    }
  }

  lemma {:induction false} DeletedDenotes(v: Volume, m: map<seq<byte>, nat>, name: seq<byte>, i: nat, v': Volume)
    requires VInv(v) && Denotes(v, m) && DeletedFile(v, name, i, v')
    ensures VInv(v') && Denotes(v', m - {Key(name)})
  {
    RemoveFileInv(v, i);
    forall key, len: nat ensures HasFile(v', key, len) <==> key in m - {Key(name)} && (m - {Key(name)})[key] == len {
      RemoveNames(v, i, key, len);
    }
  }

  /** After any sequence of Create and Remove on an empty volume: every sector has one owner, the
      free map marks exactly the owned ones, and the directory is the reference map. */
  lemma {:induction false} RunIsMap(v0: Volume, ops: seq<FileOp>, v: Volume)
    requires VInv(v0) && (forall i: nat :: !Live(v0, i)) && VolumeRun(v0, ops, v)
    ensures VInv(v) && Denotes(v, Names(ops))
  {
    if ops != [] {
      var last, before := ops[|ops| - 1], ops[..|ops| - 1];
      var u :| VolumeRun(v0, before, u) && VolumeStep(u, last, v);
      RunIsMap(v0, before, u);
      match last
      case MakeFile(name, length) =>
        var i: nat, sector: word, h: FileHeader :| MadeFile(u, name, length, i, sector, h, v);
        MadeDenotes(u, Names(before), name, length, i, sector, h, v);
      case DeleteFile(name) =>
        var i: nat :| DeletedFile(u, name, i, v);
        DeletedDenotes(u, Names(before), name, i, v);
    }
  }
}
