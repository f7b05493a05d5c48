// WritePredefinedLumpWad: the predefined lumps written out as a PWAD. The
// file is a 12-byte header ("PWAD", lump count, directory offset 12), the
// directory of 16-byte entries whose positions start right after the
// directory and advance by each lump's size, then the lump bodies in order.

module WadExport {
  import opened WadTypes
  import opened Paths
  import opened WadFormat

  /** Predefined lumps carry their bytes in memory, at least `size` of them. */
  predicate InMemory(P: seq<Lump>) {
    forall i :: 0 <= i < |P| ==> P[i].data.Some? && P[i].size <= |P[i].data.value|
  }

  /** The bytes written for one lump. */
  function Body(l: Lump): (r: seq<byte>)
    requires l.data.Some? && l.size <= |l.data.value|
    ensures |r| == l.size
  {
    l.data.value[..l.size]
  }

  /** Total size of the first k lumps. */
  function SizeSum(P: seq<Lump>, k: nat): nat
    requires k <= |P|
  {
    if k == 0 then 0 else SizeSum(P, k - 1) + P[k - 1].size
  }

  /** Where lump i's body starts: after the header, the whole directory and the earlier bodies. */
  function LumpOffset(P: seq<Lump>, i: nat): nat
    requires i <= |P|
  {
    HEADER_SIZE + ENTRY_SIZE * |P| + SizeSum(P, i)
  }

  function HeaderBytes(P: seq<Lump>): (r: seq<byte>)
    ensures |r| == HEADER_SIZE
  {
    PWAD_ID + EncodeLE32(|P|) + EncodeLE32(HEADER_SIZE)
  }

  /** A 16-byte directory entry: position, size, name copied with strncpy. */
  function EntryBytes(filepos: nat, size: nat, name: seq<byte>): (r: seq<byte>)
    ensures |r| == ENTRY_SIZE
  {
    EncodeLE32(filepos) + EncodeLE32(size) + StrNCpy(name, 8)
  }

  /** The entries of the first k lumps. */
  function Directory(P: seq<Lump>, k: nat): seq<byte>
    requires k <= |P|
  {
    if k == 0 then [] else Directory(P, k - 1) + EntryBytes(LumpOffset(P, k - 1), P[k - 1].size, P[k - 1].name)
  }

  /** The bodies of the first k lumps, back to back. */
  function Payloads(P: seq<Lump>, k: nat): seq<byte>
    requires k <= |P| && InMemory(P)
  {
    if k == 0 then [] else Payloads(P, k - 1) + Body(P[k - 1])
  }

  /** The whole PWAD image of the predefined lumps. */
  function PwadImage(P: seq<Lump>): seq<byte>
    requires InMemory(P)
  {
    HeaderBytes(P) + Directory(P, |P|) + Payloads(P, |P|)
  }

  /**
   * The writes of WritePredefinedLumpWad in order: the header, one entry
   * per lump with the running file position, then every lump's bytes.
   */
  method BuildPredefinedLumpWad(P: seq<Lump>) returns (out: seq<byte>)
    requires InMemory(P)
    ensures out == PwadImage(P)
  {
    var header := PWAD_ID + EncodeLE32(|P|) + EncodeLE32(HEADER_SIZE);
    var directory := WriteDirectory(P);
    var lumps := WriteLumps(P);
    out := header + directory + lumps;
  }

  /** The directory loop: one entry per lump, positions advancing by each lump's size. */
  method WriteDirectory(P: seq<Lump>) returns (out: seq<byte>)
    ensures out == Directory(P, |P|)
  {
    out := [];
    var filepos := HEADER_SIZE + ENTRY_SIZE * |P|;
    var i := 0;
    while i < |P|
      invariant 0 <= i <= |P|
      invariant filepos == LumpOffset(P, i)
      invariant out == Directory(P, i)
    {
      out := out + EntryBytes(filepos, P[i].size, P[i].name);
      filepos := filepos + P[i].size;
      i := i + 1;
    }
  }

  /** The lump loop: every lump's bytes, back to back. */
  method WriteLumps(P: seq<Lump>) returns (out: seq<byte>)
    requires InMemory(P)
    ensures out == Payloads(P, |P|)
  {
    out := [];
    var i := 0;
    while i < |P|
      invariant 0 <= i <= |P|
      invariant out == Payloads(P, i)
    {
      out := out + Body(P[i]);
      i := i + 1;
    }
  }

  lemma {:induction false} DirectoryLayout(P: seq<Lump>, k: nat, i: nat)
    requires i < k <= |P|
    ensures |Directory(P, k)| == ENTRY_SIZE * k
    ensures Directory(P, k)[ENTRY_SIZE * i..ENTRY_SIZE * i + ENTRY_SIZE] ==
      EntryBytes(LumpOffset(P, i), P[i].size, P[i].name)
  {
    var prev := Directory(P, k - 1);
    var e := EntryBytes(LumpOffset(P, k - 1), P[k - 1].size, P[k - 1].name);
    assert Directory(P, k) == prev + e;
    DirectoryLength(P, k - 1);
    if i < k - 1 {
      DirectoryLayout(P, k - 1, i);
      assert (prev + e)[ENTRY_SIZE * i..ENTRY_SIZE * i + ENTRY_SIZE] == prev[ENTRY_SIZE * i..ENTRY_SIZE * i + ENTRY_SIZE];
    } else {
      assert (prev + e)[ENTRY_SIZE * i..ENTRY_SIZE * i + ENTRY_SIZE] == e;
    }
  }

  lemma {:induction false} DirectoryLength(P: seq<Lump>, k: nat)
    requires k <= |P|
    ensures |Directory(P, k)| == ENTRY_SIZE * k
  {
    if k > 0 {
      DirectoryLength(P, k - 1);
    }
  }

  lemma {:induction false} PayloadsLayout(P: seq<Lump>, k: nat, i: nat)
    requires i < k <= |P| && InMemory(P)
    ensures |Payloads(P, k)| == SizeSum(P, k)
    ensures SizeSum(P, i) + P[i].size <= SizeSum(P, k)
    ensures Payloads(P, k)[SizeSum(P, i)..SizeSum(P, i) + P[i].size] == Body(P[i])
  {
    var prev := Payloads(P, k - 1);
    var b := Body(P[k - 1]);
    assert Payloads(P, k) == prev + b;
    PayloadsLength(P, k - 1);
    var lo := SizeSum(P, i);
    if i < k - 1 {
      PayloadsLayout(P, k - 1, i);
      assert (prev + b)[lo..lo + P[i].size] == prev[lo..lo + P[i].size];
    } else {
      assert (prev + b)[lo..lo + P[i].size] == b;
    }
  }

  lemma {:induction false} PayloadsLength(P: seq<Lump>, k: nat)
    requires k <= |P| && InMemory(P)
    ensures |Payloads(P, k)| == SizeSum(P, k)
  {
    if k > 0 {
      PayloadsLength(P, k - 1);
    }
  }

  lemma {:induction false} SizeSumMonotone(P: seq<Lump>, i: nat, k: nat)
    requires i <= k <= |P|
    ensures SizeSum(P, i) <= SizeSum(P, k)
    decreases k - i
  {
    if i < k {
      SizeSumMonotone(P, i, k - 1);
    }
  }

  /** The image fits the 32-bit fields: every position, size and the count are below 2^32. */
  predicate Fits32(P: seq<Lump>) {
    LumpOffset(P, |P|) < 0x1_0000_0000
  }

  /** Names as strncpy leaves them. */
  ghost predicate NamesPadded(P: seq<Lump>) {
    forall i :: 0 <= i < |P| ==> Padded(P[i].name)
  }

  /** A slice of the middle part of a concatenation. */
  lemma SliceOfMiddle(a: seq<byte>, b: seq<byte>, c: seq<byte>, x: nat, n: nat)
    requires x + n <= |b|
    ensures |a| + x + n <= |a + b + c|
    ensures (a + b + c)[|a| + x..|a| + x + n] == b[x..x + n]
  {
    assert (a + b + c)[|a|..|a| + |b|] == b;
  }

  /** The header decodes to "PWAD", the count and offset 12, whatever follows it. */
  lemma HeaderRoundTrip(P: seq<Lump>, rest: seq<byte>)
    requires |P| < 0x1_0000_0000
    ensures ReadHeader(HeaderBytes(P) + rest) == WadHeader(PWAD_ID, |P|, HEADER_SIZE)
  {
    var hdr := HeaderBytes(P);
    assert (hdr + rest)[..HEADER_SIZE] == hdr;
    assert ReadAt(hdr + rest, 0, HEADER_SIZE) == hdr;
    LE32RoundTrip(|P|, PWAD_ID, EncodeLE32(HEADER_SIZE));
    LE32RoundTrip(HEADER_SIZE, PWAD_ID + EncodeLE32(|P|), []);
    assert (PWAD_ID + EncodeLE32(|P|)) + EncodeLE32(HEADER_SIZE) + [] == hdr;
    assert hdr[..4] == PWAD_ID;
  }

  /** An entry decodes to its position, size and (padded) name. */
  lemma EntryRoundTrip(filepos: nat, size: nat, name: Name)
    requires filepos < 0x1_0000_0000 && size < 0x1_0000_0000 && Padded(name)
    ensures var e := EntryBytes(filepos, size, name);
      LE32(e, 0) == filepos && LE32(e, 4) == size && e[8..16] == name
  {
    var e := EntryBytes(filepos, size, name);
    LE32RoundTrip(filepos, [], EncodeLE32(size) + StrNCpy(name, 8));
    assert [] + EncodeLE32(filepos) + (EncodeLE32(size) + StrNCpy(name, 8)) == e;
    LE32RoundTrip(size, EncodeLE32(filepos), StrNCpy(name, 8));
    StrNCpyOfPadded(name);
  }

  /** Entry i's 16 bytes sit right after the header and the i entries before it. */
  lemma EntryAt(P: seq<Lump>, tail: seq<byte>, i: nat)
    requires InMemory(P) && i < |P|
    ensures ReadAt(PwadImage(P) + tail, HEADER_SIZE + ENTRY_SIZE * i, ENTRY_SIZE)
      == EntryBytes(LumpOffset(P, i), P[i].size, P[i].name)
  {
    var dir := Directory(P, |P|);
    DirectoryLayout(P, |P|, i);
    var img := HeaderBytes(P) + dir + (Payloads(P, |P|) + tail);
    assert img == PwadImage(P) + tail;
    SliceOfMiddle(HeaderBytes(P), dir, Payloads(P, |P|) + tail, ENTRY_SIZE * i, ENTRY_SIZE);
  }

  /** A directory entry read from the bytes of an entry gives back its fields. */
  lemma ReadEntryOfBytes(file: File, ofs: nat, i: nat, filepos: nat, size: nat, name: Name)
    requires filepos < 0x1_0000_0000 && size < 0x1_0000_0000 && Padded(name)
    requires ReadAt(file, ofs + ENTRY_SIZE * i, ENTRY_SIZE) == EntryBytes(filepos, size, name)
    ensures ReadEntry(file, ofs, i) == FileLump(filepos, size, name)
  {
    EntryRoundTrip(filepos, size, name);
  }

  /** Entry i of the exported image, with whatever bytes follow it. */
  lemma ReadEntryRoundTrip(P: seq<Lump>, tail: seq<byte>, i: nat)
    requires InMemory(P) && Fits32(P) && NamesPadded(P) && i < |P|
    ensures ReadEntry(PwadImage(P) + tail, HEADER_SIZE, i) == FileLump(LumpOffset(P, i), P[i].size, P[i].name)
  {
    SizeSumMonotone(P, i + 1, |P|);
    EntryAt(P, tail, i);
    ReadEntryOfBytes(PwadImage(P) + tail, HEADER_SIZE, i, LumpOffset(P, i), P[i].size, P[i].name);
  }

  /** Lump i's bytes sit at its recorded position in the exported image. */
  lemma ReadBodyRoundTrip(P: seq<Lump>, tail: seq<byte>, i: nat)
    requires InMemory(P) && i < |P|
    ensures LumpOffset(P, i) + P[i].size <= |PwadImage(P) + tail|
    ensures ReadAt(PwadImage(P) + tail, LumpOffset(P, i), P[i].size) == Body(P[i])
  {
    var pay := Payloads(P, |P|);
    DirectoryLength(P, |P|);
    PayloadsLayout(P, |P|, i);
    var img := (HeaderBytes(P) + Directory(P, |P|)) + pay + tail;
    assert img == PwadImage(P) + tail;
    SliceOfMiddle(HeaderBytes(P) + Directory(P, |P|), pay, tail, SizeSum(P, i), P[i].size);
  }

  /**
   * Reading the exported image back, with whatever bytes follow it, gives
   * the header ("PWAD", the lump count, directory at 12), entry i with the
   * lump's position, size and name, and at that position the lump's bytes.
   */
  lemma ExportRoundTrip(P: seq<Lump>, tail: seq<byte>)
    requires InMemory(P) && Fits32(P) && NamesPadded(P)
    ensures var img := PwadImage(P) + tail;
      && ReadHeader(img) == WadHeader(PWAD_ID, |P|, HEADER_SIZE)
      && (forall i :: 0 <= i < |P| ==>
            ReadEntry(img, HEADER_SIZE, i) == FileLump(LumpOffset(P, i), P[i].size, P[i].name))
      && (forall i :: 0 <= i < |P| ==> ReadAt(img, LumpOffset(P, i), P[i].size) == Body(P[i]))
  {
    var img := PwadImage(P) + tail;
    assert img == HeaderBytes(P) + (Directory(P, |P|) + Payloads(P, |P|) + tail);
    HeaderRoundTrip(P, Directory(P, |P|) + Payloads(P, |P|) + tail);
    forall i | 0 <= i < |P|
      ensures ReadEntry(img, HEADER_SIZE, i) == FileLump(LumpOffset(P, i), P[i].size, P[i].name)
    {
      ReadEntryRoundTrip(P, tail, i);
    }
    forall i | 0 <= i < |P|
      ensures ReadAt(img, LumpOffset(P, i), P[i].size) == Body(P[i])
    {
      ReadBodyRoundTrip(P, tail, i);
    }
  }

  /** Where WritePredefinedLumpWad writes: the name with ".wad" added unless it has an extension. */
  function ExportPath(filename: seq<byte>): seq<byte> {
    AddDefaultExtension(filename, WAD_EXT)
  }

  /** A name without an extension is exported under a `.wad` name, which W_AddFile reads as a WAD. */
  lemma ExportPathIsWad(filename: seq<byte>)
    requires |filename| > 0 && !HasExtension(filename)
    ensures ExportPath(filename) == filename + WAD_EXT
    ensures IsWadName(ExportPath(filename))
  {
    var p := ExportPath(filename);
    assert p == filename + WAD_EXT;
    assert forall i :: 0 <= i < 4 ==> p[|p| - 4 + i] == WAD_EXT[i];
  }

  /**
   * open without O_TRUNC: the image overwrites the start of an existing
   * file and any longer tail of that file remains.
   */
  function Overwrite(previous: seq<byte>, image: seq<byte>): (r: seq<byte>)
    ensures |r| == if |previous| > |image| then |previous| else |image|
    ensures r[..|image|] == image
    ensures |previous| > |image| ==> r[|image|..] == previous[|image|..]
  {
    image + (if |previous| > |image| then previous[|image|..] else [])
  }

  /**
   * WritePredefinedLumpWad: an empty name does nothing; otherwise the image
   * is written over the file at ExportPath and the program ends with the
   * "written" message, or with "Cannot open" when the file cannot be opened
   * (`canOpen` stands for the result of open).
   */
  method WritePredefinedLumpWad(filename: seq<byte>, P: seq<Lump>, fs: map<seq<byte>, File>, canOpen: bool)
    returns (outcome: Option<Error>, files: map<seq<byte>, File>)
    requires InMemory(P)
    ensures |filename| == 0 ==> outcome == None && files == fs
    ensures |filename| > 0 && !canOpen ==> outcome == Some(ExportOpenFailed(filename)) && files == fs
    ensures |filename| > 0 && canOpen ==>
      && outcome == Some(ExportWritten(filename))
      && var path := ExportPath(filename);
         var previous := if path in fs then fs[path] else [];
         files == fs[path := Overwrite(previous, PwadImage(P))]
  {
    if |filename| == 0 {
      return None, fs;
    }
    var path := AddDefaultExtension(filename, WAD_EXT);
    if !canOpen {
      return Some(ExportOpenFailed(filename)), fs;
    }
    var image := BuildPredefinedLumpWad(P);
    var previous := if path in fs then fs[path] else [];
    files := fs[path := Overwrite(previous, image)];
    outcome := Some(ExportWritten(filename));
  }

  /**
   * Loading the exported file as a WAD gives back the predefined lumps: one
   * record per lump, with its name and size, whose bytes W_ReadLump reads
   * as the lump's bytes.
   */
  lemma ExportThenLoad(path: seq<byte>, P: seq<Lump>, tail: seq<byte>, files: seq<File>, handle: nat, source: Source)
    requires |path| > 0 && CString(path) && IsWadName(path)
    requires InMemory(P) && Fits32(P) && NamesPadded(P)
    requires handle < |files| && files[handle] == PwadImage(P) + tail
    ensures NewLumps(path, files[handle], handle, source).Ok?
    ensures var ls := NewLumps(path, files[handle], handle, source).value;
      && |ls| == |P|
      && forall i :: 0 <= i < |P| ==>
           && ls[i].name == P[i].name && ls[i].size == P[i].size
           && ReadLumpBytes(ls[i], files, i) == Ok(Body(P[i]))
  {
    var img := files[handle];
    ExportRoundTrip(P, tail);
    assert HasWadId(ReadHeader(img));
    var ls := NewLumps(path, img, handle, source).value;
    forall i | 0 <= i < |P|
      ensures ls[i].name == P[i].name && ls[i].size == P[i].size
      ensures ReadLumpBytes(ls[i], files, i) == Ok(Body(P[i]))
    {
      assert ls[i] == ToLump(ReadEntry(img, HEADER_SIZE, i), handle, source);
      LoadedLump(P, tail, files, handle, source, i);
    }
  }

  /** The record made from entry i of the exported image names lump i and reads back its bytes. */
  lemma LoadedLump(P: seq<Lump>, tail: seq<byte>, files: seq<File>, handle: nat, source: Source, i: nat)
    requires InMemory(P) && Fits32(P) && NamesPadded(P) && i < |P|
    requires handle < |files| && files[handle] == PwadImage(P) + tail
    ensures var l := ToLump(ReadEntry(files[handle], HEADER_SIZE, i), handle, source);
      && l.name == P[i].name && l.size == P[i].size
      && ReadLumpBytes(l, files, i) == Ok(Body(P[i]))
  {
    ReadEntryRoundTrip(P, tail, i);
    ReadBodyRoundTrip(P, tail, i);
  }
}
