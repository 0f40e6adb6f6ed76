/** The byte images that BitMap, FileHeader and Directory leave on the disk. The source
    casts the structures to char*; here each cast is an encoding with its decoding. */
module DiskFormat {
  import opened Bits
  import opened Bytes
  import opened OpenFiles

  // ---- Arrays of 32-bit words ----------------------------------------------

  lemma FourBytes()
    ensures Pow256(4) == WORD_RANGE
  {}

  function WordBlocks(ws: seq<word>): (b: seq<seq<byte>>)
    ensures |b| == |ws| && forall i :: 0 <= i < |ws| ==> b[i] == ToBytes(ws[i], 4)
  {
    seq(|ws|, i requires 0 <= i < |ws| => ToBytes(ws[i], 4))
  }

  function EncodeWords(ws: seq<word>): (bs: seq<byte>)
    ensures |bs| == 4 * |ws|
  {
    ConcatBlocks(WordBlocks(ws), 4);
    Concat(WordBlocks(ws))
  }

  function WordOf(bs: seq<byte>): word
    requires |bs| == 4
  {
    FromBytesBound(bs);
    FourBytes();
    FromBytes(bs)
  }

  function DecodeWords(bs: seq<byte>, n: nat): (ws: seq<word>)
    requires |bs| == n * 4
    ensures |ws| == n
  {
    seq(n, i requires 0 <= i < n => WordOf(Block(bs, n, 4, i)))
  }

  lemma WordsRoundTrip(ws: seq<word>)
    ensures DecodeWords(EncodeWords(ws), |ws|) == ws
  {
    ConcatBlocks(WordBlocks(ws), 4);
    forall i | 0 <= i < |ws|
      ensures DecodeWords(EncodeWords(ws), |ws|)[i] == ws[i]
    {
      assert Blocks(EncodeWords(ws), |ws|, 4)[i] == WordBlocks(ws)[i];
      FourBytes();
      BytesRoundTrip(ws[i], 4);
    }
  }

  // ---- File headers --------------------------------------------------------

  /** NumDirect of code/filesys/filehdr.h: what is left of a sector after the two counts. */
  const NumDirect: nat := (SectorSize - 8) / 4

  const MaxFileSize: nat := Span(NumDirect, SectorSize)

  /** A header whose fields are C ints and fill exactly one sector. */
  ghost predicate Storable(h: FileHeader) {
    && |h.dataSectors| == NumDirect
    && h.numBytes < WORD_RANGE && h.numSectors < WORD_RANGE
    && forall i :: 0 <= i < NumDirect ==> h.dataSectors[i] < WORD_RANGE
  }

  function HeaderWords(h: FileHeader): (ws: seq<word>)
    requires Storable(h)
    ensures |ws| == NumDirect + 2
  {
    var ds: seq<word> := seq(NumDirect, i requires 0 <= i < NumDirect => h.dataSectors[i] as word);
    [h.numBytes, h.numSectors] + ds
  }

  function EncodeHeader(h: FileHeader): Sector
    requires Storable(h)
  {
    EncodeWords(HeaderWords(h))
  }

  function DecodeHeader(s: Sector): (h: FileHeader)
    ensures |h.dataSectors| == NumDirect
  {
    var ws := DecodeWords(s, NumDirect + 2);
    FileHeader(ws[0], ws[1], ws[2..])
  }

  lemma HeaderRoundTrip(h: FileHeader)
    requires Storable(h)
    ensures DecodeHeader(EncodeHeader(h)) == h
  {
    WordsRoundTrip(HeaderWords(h));
    assert HeaderWords(h)[2..] == h.dataSectors;
  }

  // ---- Directory entries ---------------------------------------------------

  const NAME_FIELD: nat := 10   // FileNameMaxLen + 1
  const ENTRY_SIZE: nat := 20   // sizeof(DirectoryEntry), with its padding

  type NameField = s: seq<byte> | |s| == NAME_FIELD witness Zeros(NAME_FIELD)

  datatype DirectoryEntry = DirectoryEntry(inUse: bool, sector: word, name: NameField)

  function EncodeEntry(e: DirectoryEntry): (bs: seq<byte>)
    ensures |bs| == ENTRY_SIZE
  {
    [if e.inUse then 1 else 0, 0, 0, 0] + ToBytes(e.sector, 4) + e.name + [0, 0]
  }

  function DecodeEntry(bs: seq<byte>): DirectoryEntry
    requires |bs| == ENTRY_SIZE
  {
    DirectoryEntry(bs[0] != 0, WordOf(bs[4..8]), bs[8..18])
  }

  lemma EntryRoundTrip(e: DirectoryEntry)
    ensures DecodeEntry(EncodeEntry(e)) == e
  {
    var bs := EncodeEntry(e);
    assert bs[4..8] == ToBytes(e.sector, 4);
    assert bs[8..18] == e.name;
    FourBytes();
    BytesRoundTrip(e.sector, 4);
  }

  function EntryBlocks(t: seq<DirectoryEntry>): (b: seq<seq<byte>>)
    ensures |b| == |t| && forall i :: 0 <= i < |t| ==> b[i] == EncodeEntry(t[i])
  {
    seq(|t|, i requires 0 <= i < |t| => EncodeEntry(t[i]))
  }

  function EncodeTable(t: seq<DirectoryEntry>): (bs: seq<byte>)
    ensures |bs| == |t| * ENTRY_SIZE
  {
    ConcatBlocks(EntryBlocks(t), ENTRY_SIZE);
    Concat(EntryBlocks(t))
  }

  function DecodeTable(bs: seq<byte>, n: nat): (t: seq<DirectoryEntry>)
    requires |bs| == n * ENTRY_SIZE
    ensures |t| == n
  {
    seq(n, i requires 0 <= i < n => DecodeEntry(Block(bs, n, ENTRY_SIZE, i)))
  }

  lemma TableRoundTrip(t: seq<DirectoryEntry>)
    ensures DecodeTable(EncodeTable(t), |t|) == t
  {
    ConcatBlocks(EntryBlocks(t), ENTRY_SIZE);
    forall i | 0 <= i < |t|
      ensures DecodeTable(EncodeTable(t), |t|)[i] == t[i]
    {
      assert Blocks(EncodeTable(t), |t|, ENTRY_SIZE)[i] == EntryBlocks(t)[i];
      EntryRoundTrip(t[i]);
    }
  }
}
