// The Doom WAD container as W_AddFile and W_ReadLump read it: a 12-byte
// header (4-byte IWAD/PWAD tag, little-endian lump count, little-endian
// directory offset), a directory of 16-byte entries (position, size, 8-byte
// name), and the records a file contributes to the lump directory.

module WadFormat {
  import opened WadTypes
  import opened Paths

  /** A file's contents: the byte store behind one open handle. */
  type File = seq<byte>

  /**
   * read() of len bytes at pos into a buffer. The source does not check how
   * many bytes the header and directory reads return; bytes past the end of
   * the file are modelled as zero.
   */
  function ReadAt(file: File, pos: nat, len: nat): (r: seq<byte>)
    ensures |r| == len
    ensures pos + len <= |file| ==> r == file[pos..pos + len]
  {
    seq(len, j requires 0 <= j < len => if pos + j < |file| then file[pos + j] else NUL)
  }

  const IWAD_ID: seq<byte> := Ascii("IWAD")
  const PWAD_ID: seq<byte> := Ascii("PWAD")
  const HEADER_SIZE: nat := 12
  const ENTRY_SIZE: nat := 16

  /** wadinfo_t: identification, numlumps, infotableofs. */
  datatype WadHeader = WadHeader(identification: seq<byte>, numlumps: nat, infotableofs: nat)

  /** filelump_t: filepos, size, name. */
  datatype FileLump = FileLump(filepos: nat, size: nat, name: Name)

  function ReadHeader(file: File): (h: WadHeader)
    ensures |h.identification| == 4
    ensures h.numlumps < 0x1_0000_0000 && h.infotableofs < 0x1_0000_0000
    ensures HEADER_SIZE <= |file| ==> h.identification == file[..4]
  {
    var b := ReadAt(file, 0, HEADER_SIZE);
    WadHeader(b[..4], LE32(b, 4), LE32(b, 8))
  }

  /** strncmp of the tag against "IWAD" and "PWAD" over 4 bytes. */
  predicate HasWadId(h: WadHeader)
    ensures HasWadId(h) ==> |h.identification| == 4 && h.identification[1..] == Ascii("WAD")
  {
    h.identification == IWAD_ID || h.identification == PWAD_ID
  }

  /** Entry i of the directory table that starts at ofs. */
  function ReadEntry(file: File, ofs: nat, i: nat): (e: FileLump)
    ensures e.filepos < 0x1_0000_0000 && e.size < 0x1_0000_0000
    ensures ofs + ENTRY_SIZE * i + ENTRY_SIZE <= |file| ==>
      e.name == file[ofs + ENTRY_SIZE * i + 8..ofs + ENTRY_SIZE * i + ENTRY_SIZE]
  {
    var e := ReadAt(file, ofs + ENTRY_SIZE * i, ENTRY_SIZE);
    FileLump(LE32(e, 0), LE32(e, 4), e[8..16])
  }

  /** A file name with a `.wad` extension (case ignored) is a multi-lump archive. */
  predicate IsWadName(filename: seq<byte>) {
    EndsWithCI(filename, WAD_EXT)
  }

  /**
   * The directory entries W_AddFile reads from an opened file: a single
   * entry named after the file for anything but a `.wad`, otherwise the
   * header's numlumps entries from the table at infotableofs.
   */
  function FileDirectory(filename: seq<byte>, file: File): (r: Result<seq<FileLump>>)
    requires |filename| > 0 && CString(filename)
    ensures !IsWadName(filename) ==>
      && (r.Fatal? <==> ExtractFileBase(filename).Fatal?)
      && (r.Ok? ==> r.value == [FileLump(0, |file|, ExtractFileBase(filename).value)])
    ensures IsWadName(filename) ==>
      && (r.Fatal? <==> !HasWadId(ReadHeader(file)))
      && (r.Fatal? ==> r.error == NoWadId(filename))
      && (r.Ok? ==> |r.value| == ReadHeader(file).numlumps)
      && (r.Ok? ==> forall i :: 0 <= i < |r.value| ==> r.value[i] == ReadEntry(file, ReadHeader(file).infotableofs, i))
  {
    if !IsWadName(filename) then
      match ExtractFileBase(filename)
      case Fatal(e) => Fatal(e)
      case Ok(name) => Ok([FileLump(0, |file|, name)])
    else
      var h := ReadHeader(file);
      if !HasWadId(h) then Fatal(NoWadId(filename))
      else Ok(seq(h.numlumps, i requires 0 <= i < h.numlumps => ReadEntry(file, h.infotableofs, i)))
  }

  /** The directory record made from a file entry (the body of W_AddFile's fill-in loop). */
  function ToLump(e: FileLump, handle: nat, source: Source): (l: Lump)
    ensures GoodLump(l)
    ensures l.ns == Global && l.locks == 0 && l.source == source && l.handle == handle && l.data == None
    ensures l.position == e.filepos && l.size == e.size
    ensures Padded(e.name) ==> l.name == e.name
  {
    StrNCpyPadded(e.name);
    assert Padded(e.name) ==> StrNCpy(e.name, 8) == e.name by {
      if Padded(e.name) { StrNCpyOfPadded(e.name); }
    }
    Lump(StrNCpy(e.name, 8), e.size, e.filepos, handle, None, Global, source, 0)
  }

  /** The records made from directory entries, in order, all with one handle and source. */
  function ToLumps(entries: seq<FileLump>, handle: nat, source: Source): (r: seq<Lump>)
    ensures |r| == |entries| && AllGood(r)
    ensures forall i :: 0 <= i < |r| ==> r[i] == ToLump(entries[i], handle, source)
  {
    seq(|entries|, i requires 0 <= i < |entries| => ToLump(entries[i], handle, source))
  }

  /** The records one file appends to the directory. */
  function NewLumps(filename: seq<byte>, file: File, handle: nat, source: Source): (r: Result<seq<Lump>>)
    requires |filename| > 0 && CString(filename)
    ensures r.Fatal? <==> FileDirectory(filename, file).Fatal?
    ensures r.Fatal? ==> r == Fatal(FileDirectory(filename, file).error)
    ensures r.Ok? ==> |r.value| == |FileDirectory(filename, file).value|
    ensures r.Ok? ==> forall i :: 0 <= i < |r.value| ==>
      r.value[i] == ToLump(FileDirectory(filename, file).value[i], handle, source)
  {
    match FileDirectory(filename, file)
    case Fatal(e) => Fatal(e)
    case Ok(entries) => Ok(ToLumps(entries, handle, source))
  }

  /**
   * What W_AddFile appends for an opened file: one record per directory
   * entry (exactly numlumps for a `.wad`, one otherwise), all in the global
   * namespace, unlocked, stamped with the file's source and handle.
   */
  lemma NewLumpsShape(filename: seq<byte>, file: File, handle: nat, source: Source)
    requires |filename| > 0 && CString(filename)
    requires NewLumps(filename, file, handle, source).Ok?
    ensures var ls := NewLumps(filename, file, handle, source).value;
      && |ls| == (if IsWadName(filename) then ReadHeader(file).numlumps else 1)
      && forall i :: 0 <= i < |ls| ==>
           && GoodLump(ls[i]) && ls[i].ns == Global && ls[i].locks == 0
           && ls[i].source == source && ls[i].handle == handle
  {
  }

  /**
   * W_ReadLump: a predefined lump is copied from memory; otherwise `size`
   * bytes are read at `position` from the lump's file, and reading fewer
   * than `size` bytes (an invalid handle reads none) is fatal.
   */
  function ReadLumpBytes(l: Lump, files: seq<File>, lump: nat): (r: Result<seq<byte>>)
    requires DataCovers(l)
    ensures r.Ok? ==> |r.value| == l.size
    ensures r.Fatal? ==> r.error == ShortRead(lump)
    ensures l.data.Some? ==> r == Ok(l.data.value[..l.size])
    ensures l.data.None? ==>
      (r.Ok? <==> 0 <= l.handle < |files| && (l.size == 0 || l.position + l.size <= |files[l.handle]|))
    ensures l.data.None? && r.Ok? ==> r.value == ReadAt(files[l.handle], l.position, l.size)
  {
    if l.data.Some? then Ok(l.data.value[..l.size])
    else if !(0 <= l.handle < |files|) then Fatal(ShortRead(lump))
    else
      var file := files[l.handle];
      var got := if l.position >= |file| then 0
                 else if |file| - l.position < l.size then |file| - l.position
                 else l.size;
      if got < l.size then Fatal(ShortRead(lump))
      else Ok(ReadAt(file, l.position, l.size))
  }
}
