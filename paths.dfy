// File-name helpers of the resource directory: the lump name a loose file
// gets from its path (ExtractFileBase), the default extension added to an
// export path (AddDefaultExtension), and the case-insensitive suffix test
// that tells `.wad` and `.lmp` files apart.

module Paths {
  import opened WadTypes

  /** Separators ExtractFileBase backs up to: a drive colon, '\\' or '/'. */
  predicate IsBaseSep(c: byte) {
    c == COLON || c == BACKSLASH || c == SLASH
  }

  /** Directory separators AddDefaultExtension stops at: '/' or '\\'. */
  predicate IsDirSep(c: byte) {
    c == SLASH || c == BACKSLASH
  }

  /**
   * Walking back from position k while the byte before is not a separator:
   * the start of the last path component that begins before k.
   */
  function BackUp(path: seq<byte>, k: nat): (r: nat)
    requires k <= |path|
    ensures r <= k
    ensures r == 0 || IsBaseSep(path[r - 1])
    ensures forall j :: r <= j < k ==> !IsBaseSep(path[j])
  {
    if k == 0 || IsBaseSep(path[k - 1]) then k else BackUp(path, k - 1)
  }

  /** Where the base name starts: after the last separator before the final byte. */
  function BaseStart(path: seq<byte>): nat
    requires |path| > 0
  {
    BackUp(path, |path| - 1)
  }

  /** Length of the run of bytes from s up to the first '.' or the end. */
  function SpanToDot(path: seq<byte>, s: nat): (n: nat)
    requires s <= |path|
    ensures s + n <= |path|
    ensures forall j :: s <= j < s + n ==> path[j] != DOT
    ensures s + n == |path| || path[s + n] == DOT
    decreases |path| - s
  {
    if s == |path| || path[s] == DOT then 0 else 1 + SpanToDot(path, s + 1)
  }

  /** The bytes of a base name, upper-cased and NUL-padded to 8 bytes. */
  function UpperPadded(base: seq<byte>): (r: Name)
    requires |base| <= 8
    ensures forall i :: 0 <= i < 8 ==> r[i] == if i < |base| then Upper(base[i]) else NUL
  {
    seq(8, i requires 0 <= i < 8 => if i < |base| then Upper(base[i]) else NUL)
  }

  /**
   * The lump name of a loose file: the path component after the last ':',
   * '\\' or '/' that precedes the final byte, up to the first '.', in upper
   * case and NUL-padded. A ninth byte is fatal.
   */
  function ExtractFileBase(path: seq<byte>): (r: Result<Name>)
    requires |path| > 0 && CString(path)
    ensures var s := BaseStart(path); var n := SpanToDot(path, s);
      && (r.Fatal? <==> n >= 9)
      && (r.Fatal? ==> r.error == BaseTooLong(path))
      && (r.Ok? ==> forall i :: 0 <= i < 8 ==> r.value[i] == if i < n then Upper(path[s + i]) else NUL)
  {
    var s := BaseStart(path);
    var n := SpanToDot(path, s);
    if n >= 9 then Fatal(BaseTooLong(path)) else Ok(UpperPadded(path[s..s + n]))
  }

  /**
   * The start and the length of the base name are fixed by the description
   * alone: any s, n with these properties give the result of ExtractFileBase.
   */
  lemma ExtractFileBaseUnique(path: seq<byte>, s: nat, n: nat)
    requires |path| > 0 && CString(path)
    requires s <= |path| - 1
    requires s == 0 || IsBaseSep(path[s - 1])
    requires forall j :: s <= j < |path| - 1 ==> !IsBaseSep(path[j])
    requires s + n <= |path|
    requires forall j :: s <= j < s + n ==> path[j] != DOT
    requires s + n == |path| || path[s + n] == DOT
    ensures n >= 9 ==> ExtractFileBase(path) == Fatal(BaseTooLong(path))
    ensures n <= 8 ==> ExtractFileBase(path) == Ok(UpperPadded(path[s..s + n]))
  {
  }

  /** The lump name of a loose file is padded and has no lower-case letters. */
  lemma ExtractFileBaseName(path: seq<byte>)
    requires |path| > 0 && CString(path)
    requires ExtractFileBase(path).Ok?
    ensures Padded(ExtractFileBase(path).value)
    ensures forall i :: 0 <= i < 8 ==> !(97 <= ExtractFileBase(path).value[i] <= 122)
  {
    var r := ExtractFileBase(path).value;
    var s := BaseStart(path);
    var n := SpanToDot(path, s);
    forall i | 0 <= i < 8 && i < n ensures r[i] != NUL {
      assert path[s + i] != NUL;
    }
  }

  /**
   * Scanning back from position k to the last '/' or '\\' before it: whether
   * a '.' comes first.
   */
  function DotAfterLastSep(path: seq<byte>, k: nat): (r: bool)
    requires k <= |path|
    ensures r <==> exists i :: 0 <= i < k && path[i] == DOT && forall j :: i < j < k ==> !IsDirSep(path[j])
  {
    if k == 0 then false
    else if IsDirSep(path[k - 1]) then
      assert forall i :: 0 <= i < k && path[i] == DOT ==> exists j :: i < j < k && IsDirSep(path[j]) by {
        forall i | 0 <= i < k && path[i] == DOT ensures exists j :: i < j < k && IsDirSep(path[j]) {
          assert IsDirSep(path[k - 1]);
        }
      }
      false
    else if path[k - 1] == DOT then true
    else DotAfterLastSep(path, k - 1)
  }

  /** The last component of the path already has an extension. */
  predicate HasExtension(path: seq<byte>) {
    DotAfterLastSep(path, |path|)
  }

  /**
   * A path with its last component given extension ext unless it already
   * has one; the '.' is inserted unless ext starts with it.
   */
  function AddDefaultExtension(path: seq<byte>, ext: seq<byte>): (r: seq<byte>)
    ensures HasExtension(path) ==> r == path
    ensures !HasExtension(path) ==>
      r == path + (if |ext| > 0 && ext[0] == DOT then [] else [DOT]) + ext
  {
    if HasExtension(path) then path
    else if |ext| > 0 && ext[0] == DOT then path + ext
    else path + [DOT] + ext
  }

  /** After AddDefaultExtension the path has an extension, so a second call changes nothing. */
  lemma {:induction false} AddDefaultExtensionIdempotent(path: seq<byte>, ext: seq<byte>)
    requires forall j :: 0 <= j < |ext| ==> !IsDirSep(ext[j])
    ensures HasExtension(AddDefaultExtension(path, ext))
    ensures AddDefaultExtension(AddDefaultExtension(path, ext), ext) == AddDefaultExtension(path, ext)
  {
    var r := AddDefaultExtension(path, ext);
    if !HasExtension(path) {
      var i := |path|;
      if |ext| > 0 && ext[0] == DOT {
        assert r == path + ext;
      } else {
        assert r == path + [DOT] + ext;
      }
      assert r[i] == DOT;
      assert forall j :: i < j < |r| ==> !IsDirSep(r[j]);
      assert DotAfterLastSep(r, |r|);
    }
  }

  /**
   * strlen(f) > 4 && !strcasecmp(f + strlen(f) - 4, ext) for a four-byte
   * extension: the name is longer than the extension and ends with it, case
   * ignored.
   */
  predicate EndsWithCI(f: seq<byte>, ext: seq<byte>)
    requires |ext| == 4
    ensures |f| > 4 && f[|f| - 4..] == ext ==> EndsWithCI(f, ext)
    ensures EndsWithCI(f, ext) ==> |f| > |ext|
  {
    |f| > 4 && forall i :: 0 <= i < 4 ==> Lower(f[|f| - 4 + i]) == Lower(ext[i])
  }

  const WAD_EXT: seq<byte> := Ascii(".wad")
  const LMP_EXT: seq<byte> := Ascii(".lmp")
}
