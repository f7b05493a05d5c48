// Shared vocabulary of the WAD resource directory: bytes, fixed 8-byte lump
// names, the C string routines the directory relies on (toupper/tolower,
// strncpy, strncasecmp), little-endian 32-bit fields, lump records and the
// fatal-error outcome that stands for I_Error.

module WadTypes {

  /** One byte of a file, a name field or a C string (read as unsigned). */
  type byte = x: int | 0 <= x < 256

  /** A lump name: the fixed 8-byte `name` field of a directory record. */
  type Name = s: seq<byte> | |s| == 8 witness [0, 0, 0, 0, 0, 0, 0, 0]

  const NUL: byte := 0
  const DOT: byte := 46         // '.'
  const SLASH: byte := 47       // '/'
  const BACKSLASH: byte := 92   // '\\'
  const COLON: byte := 58       // ':'

  /** The bytes of an ASCII literal. */
  function Ascii(s: string): (r: seq<byte>)
    requires forall i :: 0 <= i < |s| ==> s[i] as int < 256
    ensures |r| == |s|
    ensures forall i :: 0 <= i < |s| ==> r[i] == s[i] as int
  {
    seq(|s|, i requires 0 <= i < |s| => s[i] as int)
  }

  /** A C string's characters: no NUL before its terminator. */
  predicate CString(s: seq<byte>) {
    forall i :: 0 <= i < |s| ==> s[i] != NUL
  }

  /** Byte i of a C string or name field; positions past its end read as the terminator. */
  function At(s: seq<byte>, i: nat): byte {
    if i < |s| then s[i] else NUL
  }

  /** toupper and tolower in the C locale: only ASCII letters change. */
  function Upper(c: byte): byte {
    if 97 <= c <= 122 then c - 32 else c
  }

  function Lower(c: byte): byte {
    if 65 <= c <= 90 then c + 32 else c
  }

  lemma LowerEqSameUpper(x: byte, y: byte)
    requires Lower(x) == Lower(y)
    ensures Upper(x) == Upper(y)
    ensures x == NUL <==> y == NUL
  {
  }

  /** A name field as strncpy leaves it: once a NUL appears, every later byte is NUL. */
  ghost predicate Padded(name: Name) {
    forall i, j :: 0 <= i < j < 8 && name[i] == NUL ==> name[j] == NUL
  }

  function Zeros(n: nat): (r: seq<byte>)
    ensures |r| == n && forall i :: 0 <= i < n ==> r[i] == NUL
  {
    if n == 0 then [] else [NUL] + Zeros(n - 1)
  }

  /** No NUL among bytes 0..i of a C string or field. */
  predicate NoNulUpTo(s: seq<byte>, i: nat) {
    forall j :: 0 <= j <= i ==> At(s, j) != NUL
  }

  /**
   * strncpy(dest, src, n): the bytes of src up to its first NUL (or its end),
   * then NULs up to n bytes.
   */
  function StrNCpy(src: seq<byte>, n: nat): (r: seq<byte>)
    ensures |r| == n
    ensures forall i :: 0 <= i < n ==> r[i] == if NoNulUpTo(src, i) then At(src, i) else NUL
  {
    if n == 0 then []
    else if |src| == 0 || src[0] == NUL then
      assert forall i :: 0 <= i < n ==> !NoNulUpTo(src, i) by {
        forall i | 0 <= i < n ensures !NoNulUpTo(src, i) { assert At(src, 0) == NUL; }
      }
      Zeros(n)
    else
      var rest := StrNCpy(src[1..], n - 1);
      assert forall i :: 1 <= i < n ==> (NoNulUpTo(src, i) <==> NoNulUpTo(src[1..], i - 1)) by {
        forall i | 1 <= i < n ensures NoNulUpTo(src, i) <==> NoNulUpTo(src[1..], i - 1) {
          assert forall j :: 1 <= j <= i ==> At(src, j) == At(src[1..], j - 1);
          if NoNulUpTo(src[1..], i - 1) {
            forall j | 0 <= j <= i ensures At(src, j) != NUL {
              if j > 0 { assert At(src[1..], j - 1) != NUL; }
            }
          }
          if NoNulUpTo(src, i) {
            forall j | 0 <= j <= i - 1 ensures At(src[1..], j) != NUL {
              assert At(src, j + 1) != NUL;
            }
          }
        }
      }
      [src[0]] + rest
  }

  /** An 8-byte name copied with strncpy is padded. */
  lemma StrNCpyPadded(src: seq<byte>)
    ensures Padded(StrNCpy(src, 8))
  {
    var r := StrNCpy(src, 8);
    forall i, j | 0 <= i < j < 8 && r[i] == NUL ensures r[j] == NUL {
      assert exists k :: 0 <= k <= i && At(src, k) == NUL;
      assert !NoNulUpTo(src, j);
    }
  }

  /** strncpy leaves an already padded name as it is. */
  lemma StrNCpyOfPadded(name: Name)
    requires Padded(name)
    ensures StrNCpy(name, 8) == name
  {
    var r := StrNCpy(name, 8);
    forall i | 0 <= i < 8 ensures r[i] == name[i] {
      if name[i] != NUL {
        forall j | 0 <= j <= i ensures At(name, j) != NUL { }
      }
    }
  }

  /**
   * strncasecmp(a, b, n) == 0 from position i on: bytes are compared after
   * tolower, and the comparison stops with "equal" at a common NUL.
   */
  function CaseEqFrom(a: seq<byte>, b: seq<byte>, i: nat, n: nat): bool
    decreases n - i
  {
    i >= n || (Lower(At(a, i)) == Lower(At(b, i)) && (At(a, i) == NUL || CaseEqFrom(a, b, i + 1, n)))
  }

  /** strncasecmp(a, b, n) == 0 */
  predicate StrNCaseEq(a: seq<byte>, b: seq<byte>, n: nat)
    ensures a == b ==> StrNCaseEq(a, b, n)
    ensures n > 0 && StrNCaseEq(a, b, n) ==> Lower(At(a, 0)) == Lower(At(b, 0))
  {
    CaseEqReflexive(a, 0, n);
    CaseEqFrom(a, b, 0, n)
  }

  /** strncasecmp of a string with itself is 0. */
  lemma {:induction false} CaseEqReflexive(a: seq<byte>, i: nat, n: nat)
    ensures CaseEqFrom(a, a, i, n)
    decreases n - i
  {
    if i < n {
      CaseEqReflexive(a, i + 1, n);
    }
  }

  /** Two padded names that strncasecmp calls equal agree byte for byte after tolower. */
  lemma {:induction false} CaseEqPointwise(a: Name, b: Name, i: nat)
    requires Padded(a) && Padded(b) && i <= 8
    requires CaseEqFrom(a, b, i, 8)
    ensures forall k :: i <= k < 8 ==> Lower(a[k]) == Lower(b[k])
    decreases 8 - i
  {
    if i < 8 {
      if a[i] == NUL {
        LowerEqSameUpper(a[i], b[i]);
        assert forall k :: i <= k < 8 ==> a[k] == NUL && b[k] == NUL;
      } else {
        CaseEqPointwise(a, b, i + 1);
      }
    }
  }

  /** Little-endian 32-bit field at offset off. */
  function LE32(b: seq<byte>, off: nat): nat
    requires off + 4 <= |b|
  {
    b[off] as int + 256 * (b[off + 1] as int) + 65536 * (b[off + 2] as int) + 16777216 * (b[off + 3] as int)
  }

  /** A value stored into a 32-bit field: its low 32 bits, least significant byte first. */
  function EncodeLE32(x: nat): (r: seq<byte>)
    ensures |r| == 4
  {
    var v := x % 0x1_0000_0000;
    [v % 256, v / 256 % 256, v / 256 / 256 % 256, v / 256 / 256 / 256]
  }

  /** Reading back a stored 32-bit field gives the value stored, wherever it sits. */
  lemma LE32RoundTrip(x: nat, pre: seq<byte>, post: seq<byte>)
    requires x < 0x1_0000_0000
    ensures LE32(pre + EncodeLE32(x) + post, |pre|) == x
  {
    var b := pre + EncodeLE32(x) + post;
    var q1 := x / 256;
    var q2 := q1 / 256;
    var q3 := q2 / 256;
    assert b[|pre|] == x % 256 && b[|pre| + 1] == q1 % 256;
    assert b[|pre| + 2] == q2 % 256 && b[|pre| + 3] == q3;
    assert x == x % 256 + 256 * q1;
    assert q1 == q1 % 256 + 256 * q2;
    assert q2 == q2 % 256 + 256 * q3;
  }

  datatype Option<T> = None | Some(value: T)

  /** The conditions on which the source calls I_Error. */
  datatype Error =
    | CouldNotOpen(filename: seq<byte>)      // "couldn't open"
    | NoWadId(filename: seq<byte>)           // neither IWAD nor PWAD
    | BaseTooLong(path: seq<byte>)           // "Filename base of %s >8 chars"
    | NoFilesFound                           // empty directory after loading
    | NameNotFound(name: Name)               // W_GetNumForName
    | LumpOutOfRange(lump: nat)              // W_LumpLength
    | ShortRead(lump: nat)                   // W_ReadLump: fewer bytes than the size
    | ExportWritten(filename: seq<byte>)     // deliberate exit after the export
    | ExportOpenFailed(filename: seq<byte>)  // export file could not be opened

  datatype Result<T> = Ok(value: T) | Fatal(error: Error)

  /** Namespace tags of lumps (ns_global, ns_sprites, ns_flats, ns_colormaps). */
  datatype Namespace = Global | Sprites | Flats | Colormaps

  /** Where a lump came from (wad_source_t). */
  datatype Source = Predefined | Iwad | Pwad | Lmp | Net

  /**
   * One directory record (lumpinfo_t). `handle` indexes the table of open
   * files, `data` is set for a predefined lump held in memory. The hash
   * chain fields live in parallel arrays of the directory.
   */
  datatype Lump = Lump(
    name: Name,
    size: nat,
    position: nat,
    handle: int,
    data: Option<seq<byte>>,
    ns: Namespace,
    source: Source,
    locks: int)

  /** A predefined lump's in-memory bytes cover its declared size. */
  predicate DataCovers(l: Lump) {
    l.data.Some? ==> l.size <= |l.data.value|
  }

  /** A record in a consistent directory. */
  ghost predicate GoodLump(l: Lump) {
    Padded(l.name) && DataCovers(l)
  }

  /** Every record of a sequence is well formed. */
  ghost predicate AllGood(ls: seq<Lump>) {
    forall k :: 0 <= k < |ls| ==> GoodLump(ls[k])
  }

  /** Well-formedness is kept by appending well-formed records. */
  lemma AllGoodAppend(a: seq<Lump>, b: seq<Lump>)
    requires AllGood(a) && AllGood(b)
    ensures AllGood(a + b)
  {
    forall k | 0 <= k < |a + b| ensures GoodLump((a + b)[k]) {
      if k >= |a| {
        assert (a + b)[k] == b[k - |a|];
      }
    }
  }

  /**
   * No record is locked: the state every record starts in, whether it comes
   * from the zero-initialised predefined table or from a file.
   */
  ghost predicate Unlocked(ls: seq<Lump>) {
    forall k :: 0 <= k < |ls| ==> ls[k].locks == 0
  }
}
