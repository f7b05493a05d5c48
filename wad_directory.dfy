// The lump directory of w_wad.c: the lumpinfo array that W_AddFile grows,
// W_CoalesceMarkedResource rearranges in place and W_InitLumpHash indexes,
// the table of open files the records point into, and the lump cache.
// Names are looked up through hash chains whose heads (`index`) and links
// (`next`) are the fields of the same name in the C records.

module Wad {
  import opened WadTypes
  import opened Paths
  import opened WadFormat
  import opened Markers
  import opened LumpHash
  import opened LockCache

  /** An entry of the wadfiles array: a file name and where it came from. */
  datatype WadFile = WadFile(name: seq<byte>, src: Source)

  /** The directory as values: the records and the contents of the open files (indexed by handle). */
  datatype Dir = Dir(lumps: seq<Lump>, files: seq<File>)

  /**
   * open(): the local file system first; when that fails, the network
   * fetch (D_NetGetWad) may supply the file. An empty name never opens.
   */
  function OpenFile(fs: map<seq<byte>, File>, net: map<seq<byte>, File>, filename: seq<byte>): (r: Option<File>)
    ensures r.Some? ==> |filename| > 0
    ensures r.Some? <==> |filename| > 0 && (filename in fs || filename in net)
  {
    if |filename| == 0 then None
    else if filename in fs then Some(fs[filename])
    else if filename in net then Some(net[filename])
    else None
  }

  /**
   * W_AddFile on values: a file that does not open is skipped when its name
   * ends in `.lmp` and fatal otherwise; an opened file appends its records
   * (with the next handle) or fails as FileDirectory does.
   */
  function AddFileSpec(d: Dir, filename: seq<byte>, source: Source,
                       fs: map<seq<byte>, File>, net: map<seq<byte>, File>): (r: Result<Dir>)
    requires CString(filename)
    ensures r.Ok? ==> d.lumps <= r.value.lumps && d.files <= r.value.files && |r.value.files| <= |d.files| + 1
    ensures r.Ok? && |r.value.files| == |d.files| ==> r.value == d
  {
    match OpenFile(fs, net, filename)
    case None => if EndsWithCI(filename, LMP_EXT) then Ok(d) else Fatal(CouldNotOpen(filename))
    case Some(f) =>
      match NewLumps(filename, f, |d.files|, source)
      case Fatal(e) => Fatal(e)
      case Ok(ls) => Ok(Dir(d.lumps + ls, d.files + [f]))
  }

  /**
   * What W_AddFile does to the directory: a missing `.lmp` leaves it as it
   * was, any other missing file is fatal, a `.wad` without an IWAD or PWAD
   * tag is fatal, and otherwise exactly numlumps records (one for a file
   * that is not a `.wad`) are appended after the old ones, each global,
   * unlocked, and stamped with the file's source and handle.
   */
  lemma AddFileAppends(d: Dir, filename: seq<byte>, source: Source,
                       fs: map<seq<byte>, File>, net: map<seq<byte>, File>)
    requires CString(filename)
    ensures var r := AddFileSpec(d, filename, source, fs, net);
      && (OpenFile(fs, net, filename).None? ==>
            r == if EndsWithCI(filename, LMP_EXT) then Ok(d) else Fatal(CouldNotOpen(filename)))
      && ((OpenFile(fs, net, filename).Some? && IsWadName(filename)
            && !HasWadId(ReadHeader(OpenFile(fs, net, filename).value))) ==> r == Fatal(NoWadId(filename)))
      && (r.Ok? && OpenFile(fs, net, filename).Some? ==>
            var f := OpenFile(fs, net, filename).value;
            var added := r.value.lumps[|d.lumps|..];
            && r.value.files == d.files + [f]
            && r.value.lumps[..|d.lumps|] == d.lumps
            && |added| == (if IsWadName(filename) then ReadHeader(f).numlumps else 1)
            && forall i :: 0 <= i < |added| ==>
                 && GoodLump(added[i]) && added[i].ns == Global && added[i].locks == 0
                 && added[i].source == source && added[i].handle == |d.files|)
  {
    var r := AddFileSpec(d, filename, source, fs, net);
    if r.Ok? && OpenFile(fs, net, filename).Some? {
      var f := OpenFile(fs, net, filename).value;
      NewLumpsShape(filename, f, |d.files|, source);
      var ls := NewLumps(filename, f, |d.files|, source).value;
      assert r.value.lumps == d.lumps + ls;
      assert r.value.lumps[|d.lumps|..] == ls;
    }
  }

  /** The predefined lumps as W_Init copies them in: marked as predefined. */
  function AsPredefined(predefined: seq<Lump>): (r: seq<Lump>)
    ensures |r| == |predefined|
    ensures forall i :: 0 <= i < |r| ==> r[i] == predefined[i].(source := Predefined)
  {
    seq(|predefined|, i requires 0 <= i < |predefined| => predefined[i].(source := Predefined))
  }

  /** The directory after adding the first k files in order. */
  function LoadFiles(d0: Dir, wadfiles: seq<WadFile>, k: nat,
                     fs: map<seq<byte>, File>, net: map<seq<byte>, File>): (r: Result<Dir>)
    requires k <= |wadfiles|
    requires forall i :: 0 <= i < |wadfiles| ==> CString(wadfiles[i].name)
    ensures r.Ok? ==> d0.lumps <= r.value.lumps && d0.files <= r.value.files
    ensures r.Ok? ==> |r.value.files| <= |d0.files| + k
  {
    if k == 0 then Ok(d0)
    else
      match LoadFiles(d0, wadfiles, k - 1, fs, net)
      case Fatal(e) => Fatal(e)
      case Ok(d) => AddFileSpec(d, wadfiles[k - 1].name, wadfiles[k - 1].src, fs, net)
  }

  /** The three coalescing passes of W_Init: sprites, flats, colormaps. */
  function CoalesceAll(s: seq<Lump>): (r: seq<Lump>)
    ensures |r| <= |s|
  {
    var sprites := Coalesced(s, S_START, S_END, Sprites);
    var flats := Coalesced(sprites, F_START, F_END, Flats);
    CoalescedCount(s, S_START, S_END, Sprites);
    CoalescedCount(sprites, F_START, F_END, Flats);
    CoalescedCount(flats, C_START, C_END, Colormaps);
    Coalesced(flats, C_START, C_END, Colormaps)
  }

  /** W_Init on values: predefined lumps, every file, the emptiness check, the three passes. */
  function InitSpec(predefined: seq<Lump>, wadfiles: seq<WadFile>,
                    fs: map<seq<byte>, File>, net: map<seq<byte>, File>): (r: Result<Dir>)
    requires forall i :: 0 <= i < |wadfiles| ==> CString(wadfiles[i].name)
    ensures r.Ok? ==> |r.value.files| <= |wadfiles|
  {
    match LoadFiles(Dir(AsPredefined(predefined), []), wadfiles, |wadfiles|, fs, net)
    case Fatal(e) => Fatal(e)
    case Ok(d) => if |d.lumps| == 0 then Fatal(NoFilesFound) else Ok(Dir(CoalesceAll(d.lumps), d.files))
  }

  /** The three passes never empty a non-empty directory, so the hash modulus is never zero. */
  lemma CoalesceAllNonEmpty(s: seq<Lump>)
    requires |s| > 0
    ensures |CoalesceAll(s)| > 0
  {
    var sprites := Coalesced(s, S_START, S_END, Sprites);
    var flats := Coalesced(sprites, F_START, F_END, Flats);
    CoalescedCount(s, S_START, S_END, Sprites);
    CoalescedCount(sprites, F_START, F_END, Flats);
    CoalescedCount(flats, C_START, C_END, Colormaps);
  }

  /** A successful W_Init leaves a non-empty directory. */
  lemma InitNonEmpty(predefined: seq<Lump>, wadfiles: seq<WadFile>,
                     fs: map<seq<byte>, File>, net: map<seq<byte>, File>)
    requires forall i :: 0 <= i < |wadfiles| ==> CString(wadfiles[i].name)
    requires InitSpec(predefined, wadfiles, fs, net).Ok?
    ensures |InitSpec(predefined, wadfiles, fs, net).value.lumps| > 0
  {
    var d := LoadFiles(Dir(AsPredefined(predefined), []), wadfiles, |wadfiles|, fs, net).value;
    CoalesceAllNonEmpty(d.lumps);
  }

  /** Loading files locks nothing: every record W_AddFile appends starts with a lock count of 0. */
  lemma {:induction false} LoadFilesUnlocked(d0: Dir, wadfiles: seq<WadFile>, k: nat,
                                             fs: map<seq<byte>, File>, net: map<seq<byte>, File>)
    requires forall i :: 0 <= i < |wadfiles| ==> CString(wadfiles[i].name)
    requires k <= |wadfiles| && Unlocked(d0.lumps)
    requires LoadFiles(d0, wadfiles, k, fs, net).Ok?
    ensures Unlocked(LoadFiles(d0, wadfiles, k, fs, net).value.lumps)
  {
    if k > 0 {
      LoadFilesUnlocked(d0, wadfiles, k - 1, fs, net);
      var d := LoadFiles(d0, wadfiles, k - 1, fs, net).value;
      var r := LoadFiles(d0, wadfiles, k, fs, net).value;
      AddFileAppends(d, wadfiles[k - 1].name, wadfiles[k - 1].src, fs, net);
      if OpenFile(fs, net, wadfiles[k - 1].name).Some? {
        forall j | 0 <= j < |r.lumps| ensures r.lumps[j].locks == 0 {
          if j < |d.lumps| {
            assert r.lumps[j] == r.lumps[..|d.lumps|][j];
          } else {
            assert r.lumps[j] == r.lumps[|d.lumps|..][j - |d.lumps|];
          }
        }
      }
    }
  }

  /** The three coalescing passes lock nothing. */
  lemma CoalesceAllUnlocked(s: seq<Lump>)
    requires Unlocked(s)
    ensures Unlocked(CoalesceAll(s))
  {
    var sprites := Coalesced(s, S_START, S_END, Sprites);
    var flats := Coalesced(sprites, F_START, F_END, Flats);
    CoalescedUnlocked(s, S_START, S_END, Sprites);
    CoalescedUnlocked(sprites, F_START, F_END, Flats);
    CoalescedUnlocked(flats, C_START, C_END, Colormaps);
  }

  /**
   * W_Init leaves every record unlocked when the predefined table is
   * unlocked, as the zero-initialised static table is.
   */
  lemma InitUnlocked(predefined: seq<Lump>, wadfiles: seq<WadFile>,
                     fs: map<seq<byte>, File>, net: map<seq<byte>, File>)
    requires forall i :: 0 <= i < |wadfiles| ==> CString(wadfiles[i].name)
    requires Unlocked(predefined)
    requires InitSpec(predefined, wadfiles, fs, net).Ok?
    ensures Unlocked(InitSpec(predefined, wadfiles, fs, net).value.lumps)
  {
    var d0 := Dir(AsPredefined(predefined), []);
    LoadFilesUnlocked(d0, wadfiles, |wadfiles|, fs, net);
    CoalesceAllUnlocked(LoadFiles(d0, wadfiles, |wadfiles|, fs, net).value.lumps);
  }

  /**
   * The hash index of directory s as W_InitLumpHash leaves it: chain b
   * starts at the last record of bucket b, and each record links to the
   * previous record of its bucket, so every chain runs through its records
   * from last to first and ends at -1.
   */
  ghost predicate Indexed(s: seq<Lump>, heads: seq<int>, links: seq<int>) {
    && 0 < |s| == |heads| == |links|
    && (forall b :: 0 <= b < |s| ==> heads[b] == LastInBucket(BucketsOf(s, |s|), b, |s|))
    && (forall k {:trigger links[k]} :: 0 <= k < |s| ==>
          links[k] == LastInBucket(BucketsOf(s, |s|), BucketsOf(s, |s|)[k], k))
  }

  /** One slot per record, and a resident slot holds what W_ReadLump reads for that record. */
  ghost predicate CacheHolds(ls: seq<Lump>, slots: seq<Slot>, files: seq<File>) {
    && |ls| == |slots|
    && forall k :: 0 <= k < |ls| && slots[k].Resident? ==>
         DataCovers(ls[k]) && ReadLumpBytes(ls[k], files, k) == Ok(slots[k].bytes)
  }

  /**
   * The lock discipline over a whole directory: each record's count with
   * its cache slot is healthy (never negative, and pinned while locked).
   */
  ghost predicate AllHealthy(ls: seq<Lump>, slots: seq<Slot>) {
    |ls| == |slots| && forall k :: 0 <= k < |ls| ==> Healthy(LockState(ls[k].locks, slots[k]))
  }

  /** An unlocked directory with an empty cache is healthy. */
  lemma UnlockedHealthy(ls: seq<Lump>, slots: seq<Slot>)
    requires Unlocked(ls) && |slots| == |ls|
    requires forall k :: 0 <= k < |slots| ==> slots[k] == Empty
    ensures AllHealthy(ls, slots)
  {
  }

  /**
   * Replacing one record by another with the same name, and its cache slot
   * by one consistent with it: the directory stays well formed and the
   * cache consistent, the hash index stays valid (the chains depend on the
   * names alone), and the lock discipline holds if it held before and the
   * new pair is healthy.
   */
  lemma RecordUpdateKeeps(s: seq<Lump>, slots: seq<Slot>, files: seq<File>, heads: seq<int>, links: seq<int>,
                          lump: nat, l: Lump, slot: Slot)
    requires lump < |s| && l.name == s[lump].name
    requires AllGood(s) && GoodLump(l)
    requires CacheHolds(s, slots, files)
    requires slot.Resident? ==> DataCovers(l) && ReadLumpBytes(l, files, lump) == Ok(slot.bytes)
    ensures AllGood(s[lump := l]) && CacheHolds(s[lump := l], slots[lump := slot], files)
    ensures Indexed(s, heads, links) ==> Indexed(s[lump := l], heads, links)
    ensures AllHealthy(s, slots) && Healthy(LockState(l.locks, slot)) ==>
      AllHealthy(s[lump := l], slots[lump := slot])
  {
    BucketsOfNames(s, s[lump := l], |s|);
  }

  class WadDirectory {
    var lumpinfo: array<Lump>
    var numlumps: nat
    /** The open files, indexed by the records' handles. */
    var files: seq<File>
    /** Chain heads: index[b] is the last record in bucket b, or -1. */
    var index: array<int>
    /** Chain links: next[k] is the previous record in k's bucket, or -1. */
    var next: array<int>
    var lumpcache: array<Slot>

    ghost predicate Valid()
      reads this, lumpinfo
    {
      numlumps <= lumpinfo.Length && AllGood(lumpinfo[..numlumps])
    }

    ghost function Contents(): seq<Lump>
      reads this, lumpinfo
      requires numlumps <= lumpinfo.Length
    {
      lumpinfo[..numlumps]
    }

    /** The chain heads and links, in two distinct arrays, index the current records as W_InitLumpHash does. */
    ghost predicate Hashed()
      reads this, lumpinfo, index, next
    {
      && numlumps <= lumpinfo.Length
      && index != next
      && Indexed(Contents(), index[..], next[..])
    }

    /** One cache slot per record, and a resident slot holds what W_ReadLump reads for that record. */
    ghost predicate Cached()
      reads this, lumpinfo, lumpcache
    {
      && numlumps <= lumpinfo.Length
      && CacheHolds(Contents(), lumpcache[..], files)
    }

    /**
     * The lock discipline of every record: a count that is never negative,
     * and a locked record is resident in a PU_STATIC block.
     */
    ghost predicate LocksHealthy()
      reads this, lumpinfo, lumpcache
    {
      && numlumps <= lumpinfo.Length
      && AllHealthy(Contents(), lumpcache[..])
    }

    /** W_Init's start: the predefined lumps copied in and marked as predefined. */
    constructor (predefined: seq<Lump>)
      requires forall i :: 0 <= i < |predefined| ==> GoodLump(predefined[i])
      ensures Valid() && Contents() == AsPredefined(predefined) && files == []
      ensures fresh(lumpinfo) && fresh(index) && fresh(next) && fresh(lumpcache)
    {
      var a := new Lump[|predefined|](i requires 0 <= i < |predefined| => predefined[i]);
      var i := 0;
      while i < a.Length
        invariant 0 <= i <= a.Length == |predefined|
        invariant forall k :: 0 <= k < i ==> a[k] == predefined[k].(source := Predefined)
        invariant forall k :: i <= k < a.Length ==> a[k] == predefined[k]
      {
        a[i] := a[i].(source := Predefined);
        i := i + 1;
      }
      lumpinfo := a;
      numlumps := a.Length;
      files := [];
      index := new int[0];
      next := new int[0];
      lumpcache := new Slot[0];
      new;
      assert Contents() == AsPredefined(predefined);
    }

    /**
     * W_Init's loop over the wad files: each is added in order, and the
     * first fatal error stops the loading with that error.
     */
    method AddFiles(wadfiles: seq<WadFile>, fs: map<seq<byte>, File>, net: map<seq<byte>, File>)
      returns (failed: Option<Error>)
      requires Valid()
      requires forall i :: 0 <= i < |wadfiles| ==> CString(wadfiles[i].name)
      modifies this
      ensures Valid() && (lumpinfo == old(lumpinfo) || fresh(lumpinfo))
      ensures var spec := LoadFiles(Dir(old(Contents()), old(files)), wadfiles, |wadfiles|, fs, net);
        && (failed.Some? <==> spec.Fatal?)
        && (failed.Some? ==> failed.value == spec.error)
        && (failed.None? ==> Dir(Contents(), files) == spec.value)
    {
      ghost var d0 := Dir(Contents(), files);
      var i := 0;
      while i < |wadfiles|
        invariant 0 <= i <= |wadfiles|
        invariant Valid() && (lumpinfo == old(lumpinfo) || fresh(lumpinfo))
        invariant LoadFiles(d0, wadfiles, i, fs, net) == Ok(Dir(Contents(), files))
      {
        ghost var before := Dir(Contents(), files);
        var added := AddFile(wadfiles[i].name, wadfiles[i].src, fs, net);
        LoadFilesNext(d0, wadfiles, i, before, fs, net);
        if added.Fatal? {
          LoadFilesStaysFatal(d0, wadfiles, i + 1, fs, net);
          return Some(added.error);
        }
        i := i + 1;
      }
      return None;
    }

    /** W_Init's three passes: sprites between S_START and S_END, then flats, then colormaps. */
    method CoalesceResources()
      requires Valid() && numlumps > 0
      modifies lumpinfo, this`numlumps
      ensures Valid() && numlumps > 0
      ensures Contents() == CoalesceAll(old(Contents()))
    {
      ghost var loaded := Contents();
      CoalesceMarkedResource(S_START, S_END, Sprites);
      CoalesceMarkedResource(F_START, F_END, Flats);
      CoalesceMarkedResource(C_START, C_END, Colormaps);
      CoalesceAllNonEmpty(loaded);
    }

    /**
     * The end of W_Init: a cache of one empty slot per record, and the hash
     * index over the records.
     */
    method SetUpCacheAndHash()
      requires Valid() && numlumps > 0
      modifies this
      ensures Valid() && Hashed() && Cached()
      ensures Contents() == old(Contents()) && files == old(files)
      ensures forall k :: 0 <= k < numlumps ==> lumpcache[k] == Empty
    {
      lumpcache := new Slot[numlumps](_ => Empty);
      index := new int[numlumps];
      next := new int[numlumps];
      InitLumpHash();
    }

    /**
     * W_AddFile: open the file (or fetch it), read its directory and append
     * its records to a grown lumpinfo. `Ok(false)` is a skipped `.lmp`.
     */
    method AddFile(filename: seq<byte>, source: Source, fs: map<seq<byte>, File>, net: map<seq<byte>, File>)
      returns (r: Result<bool>)
      requires Valid() && CString(filename)
      modifies this
      ensures Valid()
      ensures lumpinfo == old(lumpinfo) || fresh(lumpinfo)
      ensures index == old(index) && next == old(next) && lumpcache == old(lumpcache)
      ensures var spec := AddFileSpec(Dir(old(Contents()), old(files)), filename, source, fs, net);
        && (r.Fatal? ==> spec == Fatal(r.error))
        && (r.Ok? ==> spec == Ok(Dir(Contents(), files)))
        && (r.Ok? ==> (r.value <==> OpenFile(fs, net, filename).Some?))
    {
      var attempt := OpenFile(fs, net, filename);
      if attempt.None? {
        if EndsWithCI(filename, LMP_EXT) {
          return Ok(false);
        }
        return Fatal(CouldNotOpen(filename));
      }
      var file := attempt.value;
      var handle := |files|;
      var directory := FileDirectory(filename, file);
      if directory.Fatal? {
        return Fatal(directory.error);
      }
      var entries := directory.value;
      AppendRecords(entries, handle, source);
      files := files + [file];
      r := Ok(true);
    }

    /**
     * The realloc of W_AddFile followed by its fill loop: lumpinfo grows by
     * one record per directory entry after the old records, with the file's
     * handle and source.
     */
    method AppendRecords(entries: seq<FileLump>, handle: nat, source: Source)
      requires Valid()
      modifies this
      ensures Valid() && fresh(lumpinfo)
      ensures files == old(files) && index == old(index) && next == old(next) && lumpcache == old(lumpcache)
      ensures Contents() == old(Contents()) + ToLumps(entries, handle, source)
    {
      var startlump := numlumps;
      var total := numlumps + |entries|;
      // realloc: the old records are kept, the new slots are filled below
      var before := lumpinfo[..numlumps];
      var grown := new Lump[total](k requires 0 <= k < total =>
        if k < startlump then before[k] else ToLump(FileLump(0, 0, Zeros(8)), handle, source));
      assert grown[..startlump] == before;
      FillRecords(grown, startlump, entries, handle, source);
      lumpinfo := grown;
      numlumps := total;
      assert Contents() == grown[..];
      AllGoodAppend(before, ToLumps(entries, handle, source));
    }

    /**
     * One turn of W_CoalesceMarkedResource's loop on `lump`: a start marker
     * opens the side buffer with the start sentinel the first time, an end
     * marker asks for the end sentinel, a marked lump is appended to the
     * side buffer in namespace ns, and an outside lump is moved down to the
     * next free slot.
     */
    method ScanOne(lump: Lump, start: seq<byte>, end: seq<byte>, ns: Namespace, marked: array<Lump>,
                   numUnmarked: nat, numMarked: nat, isMarked: bool, markEnd: bool, ghost S: seq<Lump>, ghost i: nat)
      returns (unmarkedAfter: nat, markedAfter: nat, isMarkedAfter: bool, markEndAfter: bool)
      requires marked != lumpinfo && i < |S| <= lumpinfo.Length && |S| == marked.Length && lump == S[i]
      requires Scanned(S, i, start, end, ns, marked, numUnmarked, numMarked, isMarked, markEnd)
      modifies lumpinfo, marked
      ensures Scanned(S, i + 1, start, end, ns, marked, unmarkedAfter, markedAfter, isMarkedAfter, markEndAfter)
    {
      ghost var st := Scan(S, i, start, end, ns);
      assert Scan(S, i + 1, start, end, ns) == ScanLump(st, lump, start, end, ns);
      unmarkedAfter, markedAfter, isMarkedAfter, markEndAfter := numUnmarked, numMarked, isMarked, markEnd;
      if IsMarker(start, lump.name) {
        if numMarked == 0 {
          marked[0] := StartSentinel(start);
          markedAfter := 1;
        }
        isMarkedAfter := true;
      } else if IsMarker(end, lump.name) {
        markEndAfter := true;
        isMarkedAfter := false;
      } else if isMarked {
        marked[numMarked] := lump.(ns := ns);
        markedAfter := numMarked + 1;
      } else {
        lumpinfo[numUnmarked] := lump;
        unmarkedAfter := numUnmarked + 1;
      }
    }

    /**
     * The state of W_CoalesceMarkedResource's loop after the first i of the
     * original records S: the outside records moved down so far, the side
     * buffer, the two flags, and the records not yet overwritten.
     */
    ghost predicate Scanned(S: seq<Lump>, i: nat, start: seq<byte>, end: seq<byte>, ns: Namespace,
                            marked: array<Lump>, numUnmarked: nat, numMarked: nat, isMarked: bool, markEnd: bool)
      reads this, lumpinfo, marked
    {
      && i <= |S| <= lumpinfo.Length && |S| == marked.Length
      && var st := Scan(S, i, start, end, ns);
      && numUnmarked + numMarked + (if markEnd then 1 else 0) <= i
      && lumpinfo[..numUnmarked] == st.unmarked && marked[..numMarked] == st.marked
      && isMarked == st.isMarked && markEnd == st.markEnd
      && forall k :: numUnmarked <= k < |S| ==> lumpinfo[k] == S[k]
    }

    /**
     * The loop of W_CoalesceMarkedResource: one pass over the records that
     * moves the outside ones down in place and collects the marked ones
     * (behind a start sentinel) in a fresh side buffer of the directory's
     * size. The records from the first unused slot on are left as they were.
     */
    method ScanMarked(start: seq<byte>, end: seq<byte>, ns: Namespace)
      returns (marked: array<Lump>, numUnmarked: nat, numMarked: nat, markEnd: bool)
      requires numlumps <= lumpinfo.Length
      modifies lumpinfo
      ensures fresh(marked) && marked.Length == numlumps
      ensures var st := Scan(old(lumpinfo[..numlumps]), numlumps, start, end, ns);
        && numUnmarked + numMarked + (if markEnd then 1 else 0) <= numlumps
        && lumpinfo[..numUnmarked] == st.unmarked
        && marked[..numMarked] == st.marked
        && markEnd == st.markEnd
      ensures forall k :: numUnmarked <= k < numlumps ==> lumpinfo[k] == old(lumpinfo[..numlumps])[k]
    {
      ghost var S := lumpinfo[..numlumps];
      var n := numlumps;
      marked := new Lump[n](_ => StartSentinel(start));
      numMarked, numUnmarked := 0, 0;
      var isMarked := false;
      markEnd := false;
      var i := 0;
      while i < n
        invariant 0 <= i <= n == |S| && marked != lumpinfo
        invariant Scanned(S, i, start, end, ns, marked, numUnmarked, numMarked, isMarked, markEnd)
      {
        var lump := lumpinfo[i];
        numUnmarked, numMarked, isMarked, markEnd :=
          ScanOne(lump, start, end, ns, marked, numUnmarked, numMarked, isMarked, markEnd, S, i);
        i := i + 1;
      }
    }

    /**
     * W_CoalesceMarkedResource: the scan, then the side buffer copied
     * behind the outside records, then the end sentinel written over the
     * next record when an end marker was seen.
     */
    method CoalesceMarkedResource(start: seq<byte>, end: seq<byte>, ns: Namespace)
      requires Valid()
      modifies lumpinfo, this`numlumps
      ensures Valid()
      ensures Contents() == Coalesced(old(Contents()), start, end, ns)
    {
      ghost var S := Contents();
      var marked, numUnmarked, numMarked, markEnd := ScanMarked(start, end, ns);
      ghost var st := Scan(S, |S|, start, end, ns);
      ghost var head := st.unmarked + st.marked;
      // memcpy of the side buffer behind the outside lumps
      forall j | 0 <= j < numMarked {
        lumpinfo[numUnmarked + j] := marked[j];
      }
      assert forall k :: 0 <= k < numUnmarked + numMarked ==> lumpinfo[k] == head[k];
      numlumps := numUnmarked + numMarked;
      assert lumpinfo[..numlumps] == head;
      if markEnd {
        assert lumpinfo[numlumps] == S[numlumps];
        lumpinfo[numlumps] := lumpinfo[numlumps].(size := 0, ns := Global, name := StrNCpy(end, 8));
        numlumps := numlumps + 1;
        assert lumpinfo[..numlumps] == head + [EndSentinel(S[|head|], end)];
      }
      assert Contents() == ScanResult(S, start, end, ns);
      ScanResultCoalesced(S, start, end, ns);
    }

    /**
     * W_InitLumpHash: empty every chain, then prepend the records in
     * ascending order to the chain of their name's bucket.
     */
    method InitLumpHash()
      requires 0 < numlumps <= lumpinfo.Length && numlumps == index.Length == next.Length && index != next
      modifies index, next
      ensures Hashed()
    {
      ClearChains();
      LinkChains();
    }

    /** W_InitLumpHash's first loop: every chain starts empty. */
    method ClearChains()
      requires numlumps == index.Length
      modifies index
      ensures forall b :: 0 <= b < numlumps ==> index[b] == -1
    {
      var i := 0;
      while i < numlumps
        invariant 0 <= i <= numlumps
        invariant forall b :: 0 <= b < i ==> index[b] == -1
      {
        index[i] := -1;
        i := i + 1;
      }
    }

    /**
     * W_InitLumpHash's second loop: each record in ascending order is
     * prepended to the chain of its name's bucket, so the last record of a
     * name comes first in its chain.
     */
    method LinkChains()
      requires 0 < numlumps <= lumpinfo.Length && numlumps == index.Length == next.Length && index != next
      requires forall b :: 0 <= b < numlumps ==> index[b] == -1
      modifies index, next
      ensures Hashed()
    {
      ghost var bs := BucketsOf(Contents(), numlumps);
      var i := 0;
      while i < numlumps
        invariant 0 <= i <= numlumps
        invariant forall b :: 0 <= b < numlumps ==> index[b] == LastInBucket(bs, b, i)
        invariant forall k {:trigger next[k]} :: 0 <= k < i ==> next[k] == LastInBucket(bs, bs[k], k)
      {
        LinkOne(i, bs);
        i := i + 1;
      }
      assert forall b :: 0 <= b < numlumps ==> index[..][b] == LastInBucket(bs, b, numlumps);
      assert forall k :: 0 <= k < numlumps ==> next[..][k] == LastInBucket(bs, bs[k], k);
    }

    /** One pass of W_InitLumpHash's second loop: record i goes to the head of its bucket's chain. */
    method LinkOne(i: nat, ghost bs: seq<nat>)
      requires i < numlumps <= lumpinfo.Length && numlumps == index.Length == next.Length && index != next
      requires bs == BucketsOf(Contents(), numlumps)
      requires forall b :: 0 <= b < numlumps ==> index[b] == LastInBucket(bs, b, i)
      requires forall k {:trigger next[k]} :: 0 <= k < i ==> next[k] == LastInBucket(bs, bs[k], k)
      modifies index, next
      ensures forall b :: 0 <= b < numlumps ==> index[b] == LastInBucket(bs, b, i + 1)
      ensures forall k {:trigger next[k]} :: 0 <= k < i + 1 ==> next[k] == LastInBucket(bs, bs[k], k)
    {
      var j := Bucket(lumpinfo[i].name, numlumps);
      BucketsOfAt(Contents(), numlumps, i);
      next[i] := index[j];
      index[j] := i;
    }

    /**
     * W_CheckNumForName: walk the chain of the name's bucket from its head
     * until a record matches the name (case ignored) and the namespace.
     * The answer always matches; for a padded name it is the last matching
     * record of the whole directory, or -1 when there is none.
     */
    method CheckNumForName(name: Name, ns: Namespace) returns (r: int)
      requires Valid() && Hashed()
      ensures r == -1 || (0 <= r < numlumps && Matches(Contents()[r], name, ns))
      ensures Padded(name) ==> r == LastMatch(Contents(), name, ns)
    {
      ghost var s := Contents();
      ghost var bs := BucketsOf(s, numlumps);
      var b := Bucket(name, numlumps);
      var i := index[b];
      assert i == LastInBucket(bs, b, numlumps);
      ghost var hi := numlumps;
      if Padded(name) {
        OffChainNoMatch(s, numlumps, name, ns, i, numlumps);
      }
      while i >= 0 && !(StrNCaseEq(lumpinfo[i].name, name, 8) && lumpinfo[i].ns == ns)
        invariant -1 <= i < hi <= numlumps
        invariant i == LastInBucket(bs, b, hi)
        invariant Padded(name) ==> forall k :: i < k < numlumps ==> !Matches(s[k], name, ns)
        decreases i + 1
      {
        assert next[i] == LastInBucket(bs, bs[i], i);
        hi := i;
        i := next[i];
        if Padded(name) {
          OffChainNoMatch(s, numlumps, name, ns, i, hi);
        }
      }
      if Padded(name) {
        LastMatchUnique(s, name, ns, i);
      }
      r := i;
    }

    /** W_GetNumForName: the global-namespace lookup, fatal when the name is absent. */
    method GetNumForName(name: Name) returns (r: Result<nat>)
      requires Valid() && Hashed()
      ensures r.Ok? ==> r.value < numlumps && Matches(Contents()[r.value], name, Global)
      ensures Padded(name) ==> r == if LastMatch(Contents(), name, Global) < 0 then Fatal(NameNotFound(name))
                                   else Ok(LastMatch(Contents(), name, Global))
    {
      var i := CheckNumForName(name, Global);
      if i == -1 {
        return Fatal(NameNotFound(name));
      }
      return Ok(i);
    }

    /** W_LumpLength: the record's size, fatal past the end of the directory. */
    function LumpLength(lump: nat): (r: Result<nat>)
      reads this, lumpinfo
      requires Valid()
      ensures r.Fatal? <==> lump >= numlumps
      ensures r.Fatal? ==> r.error == LumpOutOfRange(lump)
      ensures r.Ok? ==> r.value == Contents()[lump].size
    {
      if lump >= numlumps then Fatal(LumpOutOfRange(lump)) else Ok(lumpinfo[lump].size)
    }

    /**
     * W_ReadLump: copy a predefined lump from memory, or read `size` bytes
     * at its position from its file; fewer bytes than that is fatal.
     */
    method ReadLump(lump: nat) returns (r: Result<seq<byte>>)
      requires Valid() && lump < numlumps
      ensures r == ReadLumpBytes(Contents()[lump], files, lump)
    {
      r := ReadLumpBytes(lumpinfo[lump], files, lump);
    }

    /** The lock count and cache slot of one record. */
    ghost function LockOf(lump: nat): LockState
      reads this, lumpinfo, lumpcache
      requires lump < numlumps <= lumpinfo.Length && lump < lumpcache.Length
    {
      LockState(lumpinfo[lump].locks, lumpcache[lump])
    }

    /**
     * W_CacheLumpNum's first step: an empty slot receives what W_ReadLump
     * reads, in a PU_CACHE block; a resident slot is left as it is. The
     * result is the slot's bytes, or the read's error.
     */
    method LoadSlot(lump: nat) returns (r: Result<seq<byte>>)
      requires Valid() && Cached() && lump < numlumps
      modifies lumpcache
      ensures Cached()
      ensures old(lumpcache[lump]).Resident? ==> r == Ok(old(lumpcache[lump]).bytes)
      ensures old(lumpcache[lump]).Empty? ==> r == ReadLumpBytes(Contents()[lump], files, lump)
      ensures lumpcache[..] ==
        if old(lumpcache[lump]).Empty? && r.Ok? then old(lumpcache[..])[lump := Resident(r.value, PuCache)]
        else old(lumpcache[..])
      ensures old(LocksHealthy()) ==> LocksHealthy()
    {
      if lumpcache[lump].Resident? {
        return Ok(lumpcache[lump].bytes);
      }
      r := ReadLump(lump);
      if r.Ok? {
        lumpcache[lump] := Resident(r.value, PuCache);
        assert Contents()[lump := lumpinfo[lump]] == Contents();
        RecordUpdateKeeps(Contents(), old(lumpcache[..]), files, index[..], next[..],
                          lump, lumpinfo[lump], lumpcache[lump]);
      }
    }

    /**
     * W_CacheLumpNum's second step, on a resident lump: add `locks` to the
     * count, and change the block to PU_STATIC when the count was 0.
     */
    method AddLocks(lump: nat, locks: ushort)
      requires Valid() && Cached() && lump < numlumps && lumpcache[lump].Resident?
      modifies lumpinfo, lumpcache
      ensures Valid() && Cached()
      ensures LockOf(lump) == Acquire(old(LockOf(lump)), locks, [])
      ensures Contents() == old(Contents())[lump := old(Contents())[lump].(locks := lumpinfo[lump].locks)]
      ensures forall k :: 0 <= k < numlumps && k != lump ==> lumpcache[k] == old(lumpcache[k])
      ensures old(Hashed()) ==> Hashed()
      ensures old(LocksHealthy()) ==> LocksHealthy()
    {
      lumpinfo[lump] := lumpinfo[lump].(locks := lumpinfo[lump].locks + locks);
      if lumpinfo[lump].locks == locks {
        lumpcache[lump] := lumpcache[lump].(tag := PuStatic);
      }
      assert Contents() == old(Contents())[lump := lumpinfo[lump]];
      assert lumpcache[..] == old(lumpcache[..])[lump := lumpcache[lump]];
      assert old(LocksHealthy()) ==> Healthy(LockOf(lump)) by {
        if old(LocksHealthy()) {
          AcquireKeepsHealthy(old(LockOf(lump)), locks, []);
        }
      }
      RecordUpdateKeeps(old(Contents()), old(lumpcache[..]), files, index[..], next[..],
                        lump, lumpinfo[lump], lumpcache[lump]);
    }

    /**
     * W_CacheLumpNum: read the lump into an empty slot, add `locks` to its
     * count (pinning it when the count was 0), and hand out the bytes
     * unless `locks` is 0.
     */
    method CacheLumpNum(lump: nat, locks: ushort) returns (r: Result<Option<seq<byte>>>)
      requires Valid() && Cached() && lump < numlumps
      modifies lumpinfo, lumpcache
      ensures Valid() && Cached()
      ensures r.Fatal? <==> old(lumpcache[lump]).Empty? && old(ReadLumpBytes(lumpinfo[lump], files, lump)).Fatal?
      ensures r.Fatal? ==> r.error == ShortRead(lump)
      ensures r.Ok? ==> LockOf(lump) == Acquire(old(LockOf(lump)), locks, old(ReadLumpBytes(lumpinfo[lump], files, lump)).value)
      ensures r.Ok? ==> (r.value.None? <==> locks == 0)
      ensures r.Ok? && r.value.Some? ==> ReadLumpBytes(lumpinfo[lump], files, lump) == Ok(r.value.value)
      ensures Contents() == old(Contents())[lump := old(Contents())[lump].(locks := lumpinfo[lump].locks)]
      ensures forall k :: 0 <= k < numlumps && k != lump ==> lumpcache[k] == old(lumpcache[k])
      ensures old(Hashed()) ==> Hashed()
      ensures old(LocksHealthy()) ==> LocksHealthy()
    {
      var got := LoadSlot(lump);
      if got.Fatal? {
        return Fatal(got.error);
      }
      AddLocks(lump, locks);
      if locks != 0 {
        return Ok(Some(lumpcache[lump].bytes));
      }
      return Ok(None);
    }

    /**
     * W_UnlockLumpNum: subtract `unlocks` from the count and make the block
     * purgable again when a non-zero unlock brings it to 0.
     */
    method UnlockLumpNum(lump: nat, unlocks: sshort)
      requires Valid() && Cached() && lump < numlumps
      modifies lumpinfo, lumpcache
      ensures Valid() && Cached()
      ensures LockOf(lump) == Release(old(LockOf(lump)), unlocks)
      ensures Contents() == old(Contents())[lump := old(Contents())[lump].(locks := lumpinfo[lump].locks)]
      ensures forall k :: 0 <= k < numlumps && k != lump ==> lumpcache[k] == old(lumpcache[k])
      ensures old(Hashed()) ==> Hashed()
      ensures old(LocksHealthy()) && 0 <= unlocks <= old(lumpinfo[lump].locks) ==> LocksHealthy()
    {
      lumpinfo[lump] := lumpinfo[lump].(locks := lumpinfo[lump].locks - unlocks);
      if unlocks != 0 && lumpinfo[lump].locks == 0 && lumpcache[lump].Resident? {
        lumpcache[lump] := lumpcache[lump].(tag := PuCache);
      }
      assert Contents() == old(Contents())[lump := lumpinfo[lump]];
      assert lumpcache[..] == old(lumpcache[..])[lump := lumpcache[lump]];
      assert old(LocksHealthy()) && 0 <= unlocks <= old(lumpinfo[lump].locks) ==> Healthy(LockOf(lump)) by {
        if old(LocksHealthy()) && 0 <= unlocks <= old(lumpinfo[lump].locks) {
          ReleaseKeepsHealthy(old(LockOf(lump)), unlocks);
        }
      }
      RecordUpdateKeeps(old(Contents()), old(lumpcache[..]), files, index[..], next[..],
                        lump, lumpinfo[lump], lumpcache[lump]);
    }

    /** The zone allocator reclaiming a purgable block: the slot becomes empty. */
    method Reclaim(lump: nat)
      requires Valid() && Cached() && lump < numlumps && CanPurge(LockOf(lump))
      modifies lumpcache
      ensures Valid() && Cached()
      ensures LockOf(lump) == Purge(old(LockOf(lump)))
      ensures forall k :: 0 <= k < numlumps && k != lump ==> lumpcache[k] == old(lumpcache[k])
      ensures old(Hashed()) ==> Hashed()
      ensures old(LocksHealthy()) ==> LocksHealthy()
    {
      lumpcache[lump] := Empty;
      assert lumpcache[..] == old(lumpcache[..])[lump := Empty];
      assert Contents()[lump := lumpinfo[lump]] == Contents();
      assert old(LocksHealthy()) ==> Healthy(LockOf(lump)) by {
        if old(LocksHealthy()) {
          PurgeKeepsHealthy(old(LockOf(lump)));
        }
      }
      RecordUpdateKeeps(Contents(), old(lumpcache[..]), files, index[..], next[..], lump, lumpinfo[lump], Empty);
    }
  }

  /** W_AddFile's fill loop: the slots from startlump on receive the records made from the entries. */
  method FillRecords(grown: array<Lump>, startlump: nat, entries: seq<FileLump>, handle: nat, source: Source)
    requires startlump + |entries| == grown.Length
    modifies grown
    ensures grown[..] == old(grown[..startlump]) + ToLumps(entries, handle, source)
  {
    var i := startlump;
    while i < grown.Length
      invariant startlump <= i <= grown.Length
      invariant grown[..startlump] == old(grown[..startlump])
      invariant forall k :: startlump <= k < i ==> grown[k] == ToLump(entries[k - startlump], handle, source)
    {
      grown[i] := ToLump(entries[i - startlump], handle, source);
      i := i + 1;
    }
    assert grown[startlump..] == ToLumps(entries, handle, source);
    assert grown[..] == grown[..startlump] + grown[startlump..];
  }

  /**
   * W_Init: the predefined lumps, then every file in order, fatal when
   * nothing was found, then the sprite, flat and colormap passes, an empty
   * cache and the hash index.
   */
  method Init(predefined: seq<Lump>, wadfiles: seq<WadFile>,
              fs: map<seq<byte>, File>, net: map<seq<byte>, File>) returns (r: Result<WadDirectory>)
    requires forall i :: 0 <= i < |predefined| ==> GoodLump(predefined[i])
    requires Unlocked(predefined)
    requires forall i :: 0 <= i < |wadfiles| ==> CString(wadfiles[i].name)
    ensures r.Fatal? <==> InitSpec(predefined, wadfiles, fs, net).Fatal?
    ensures r.Fatal? ==> r.error == InitSpec(predefined, wadfiles, fs, net).error
    ensures r.Ok? ==>
      && r.value.Valid() && r.value.Hashed() && r.value.Cached()
      && Dir(r.value.Contents(), r.value.files) == InitSpec(predefined, wadfiles, fs, net).value
      && (forall k :: 0 <= k < r.value.numlumps ==> r.value.lumpcache[k] == Empty)
      && Unlocked(r.value.Contents()) && r.value.LocksHealthy()
  {
    var d := new WadDirectory(predefined);
    var failed := d.AddFiles(wadfiles, fs, net);
    if failed.Some? {
      return Fatal(failed.value);
    }
    if d.numlumps == 0 {
      return Fatal(NoFilesFound);
    }
    d.CoalesceResources();
    d.SetUpCacheAndHash();
    InitUnlocked(predefined, wadfiles, fs, net);
    UnlockedHealthy(d.Contents(), d.lumpcache[..]);
    return Ok(d);
  }

  /** Loading one more file applies W_AddFile to the directory loaded so far. */
  lemma LoadFilesNext(d0: Dir, wadfiles: seq<WadFile>, i: nat, d: Dir,
                      fs: map<seq<byte>, File>, net: map<seq<byte>, File>)
    requires forall i :: 0 <= i < |wadfiles| ==> CString(wadfiles[i].name)
    requires i < |wadfiles| && LoadFiles(d0, wadfiles, i, fs, net) == Ok(d)
    ensures LoadFiles(d0, wadfiles, i + 1, fs, net) == AddFileSpec(d, wadfiles[i].name, wadfiles[i].src, fs, net)
  {
  }

  /** Once a file fails to load, loading more files stays fatal with the same error. */
  lemma {:induction false} LoadFilesStaysFatal(d0: Dir, wadfiles: seq<WadFile>, k: nat,
                                               fs: map<seq<byte>, File>, net: map<seq<byte>, File>)
    requires forall i :: 0 <= i < |wadfiles| ==> CString(wadfiles[i].name)
    requires k <= |wadfiles| && LoadFiles(d0, wadfiles, k, fs, net).Fatal?
    ensures LoadFiles(d0, wadfiles, |wadfiles|, fs, net) == LoadFiles(d0, wadfiles, k, fs, net)
    decreases |wadfiles| - k
  {
    if k < |wadfiles| {
      LoadFilesStaysFatal(d0, wadfiles, k + 1, fs, net);
    }
  }
}
