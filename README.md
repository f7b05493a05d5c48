# WAD resource directory (w_wad.c) in Dafny

This project models the lump directory of a Doom engine port: the module that
loads WAD archives and single-lump files into one directory of named
resources ("lumps"), and answers lookups and reads from it.

- **Loading** (`W_Init`, `W_AddFile`). The predefined lumps come first. Every
  file of the `wadfiles` array is then opened in order. A `.wad` file
  contributes the entries of its directory table. Any other file becomes one
  lump named after the file's base name (`ExtractFileBase`). A file that
  cannot be opened is skipped when its name ends in `.lmp`, and is fatal
  otherwise.
- **Namespace coalescing** (`W_CoalesceMarkedResource`). This runs three times,
  once each for sprites, flats and colormaps. It gathers the lumps between
  `X_START` and `X_END` markers into one block behind the other lumps, tags
  them with the namespace and drops the markers. A start sentinel and an end
  sentinel are added when such markers were seen.
- **Name lookup** (`W_LumpNameHash`, `W_InitLumpHash`, `W_CheckNumForName`,
  `W_GetNumForName`). These are hash chains over the directory. A lookup
  returns the last lump loaded with that name (case ignored) in that
  namespace.
- **Reading and caching** (`W_LumpLength`, `W_ReadLump`, `W_CacheLumpNum`,
  `W_UnlockLumpNum`). Reads come from the backing file or from a predefined
  lump's in-memory bytes. The cache is lock-counted: a locked lump is pinned
  in the zone allocator, and an unlocked one may be reclaimed.
- **Export** (`WritePredefinedLumpWad`). This writes the predefined lumps out
  as a PWAD.

Modules:

- `WadTypes` (wad_types.dfy): bytes, 8-byte names, the C string routines the
  source relies on, little-endian 32-bit fields, the `Lump` record, and
  `Result` with one `Error` per `I_Error` call.
- `Paths` (paths.dfy): `ExtractFileBase` and `AddDefaultExtension`.
- `WadFormat` (wad_format.dfy): the header and directory format, and the
  records one file adds.
- `Markers` (markers.dfy): `IsMarker`, plus a value-level specification of
  coalescing and its layout theorems.
- `LumpHash` (lump_hash.dfy): the hash function, buckets and the "last match"
  specification of lookup.
- `LockCache` (lock_cache.dfy): the per-lump lock and cache state machine.
- `Wad` (wad_directory.dfy): the directory as a class. It holds the
  `lumpinfo` array, `numlumps`, the open files, the hash chain arrays and the
  lump cache, and has methods for every operation of the source.
- `WadExport` (wad_export.dfy): the PWAD writer and its round trip through the
  loader.

The imperative parts of the source stay imperative: the in-place compaction,
the hash set-up loops, the fill loop after the realloc, and the cache and lock
updates. Each method is proved against a value-level function, and the
properties are proved about that function.

## Model

| member | source | states |
|---|---|---|
| Paths.BackUp | src/w_wad.c:84-91 | Backing up from the last character stops at the start of the path or just after a `:`, `/` or `\`, with no such separator in between |
| Paths.SpanToDot | src/w_wad.c:97 | The base runs from its start to the first `.` or to the end of the path, and contains no `.` |
| Paths.ExtractFileBase | src/w_wad.c:82-102 | Fatal (with the path) exactly when the base reaches 9 characters; otherwise byte i of the name is the upper-cased i-th base character and the rest are NUL |
| Paths.ExtractFileBaseUnique | src/w_wad.c:82-102 | For any start after the last separator and any span up to the first dot, the result is fatal when the span is 9 or more, else the upper-cased, zero-padded span |
| Paths.ExtractFileBaseName | src/w_wad.c:94-101 | A name made from a file name is NUL-padded and contains no lower-case letter |
| Paths.DotAfterLastSep | src/w_wad.c:112-115 | The backwards scan finds a `.` exactly when one occurs after the last `/` or `\` |
| Paths.AddDefaultExtension | src/w_wad.c:109-119 | A path whose last component has a `.` comes back unchanged; otherwise the result is the path, a `.` unless the extension starts with one, and the extension |
| Paths.AddDefaultExtensionIdempotent | src/w_wad.c:109-119 | For an extension without separators, the result has an extension, and adding the default extension twice equals adding it once |
| Paths.EndsWithCI | src/w_wad.c:159-160 | The `.lmp` and `.wad` tests: a name longer than four bytes whose last four bytes are the extension exactly is accepted, and an accepted name is longer than the extension (the comparison of those four bytes ignores case) |
| WadTypes.StrNCpy | src/w_wad.c:209 | `strncpy` to n bytes: byte i is the source byte while no NUL has been seen, and NUL from the first NUL on |
| WadTypes.StrNCpyPadded | src/w_wad.c:209 | A name copied with `strncpy` has only NULs after its first NUL |
| WadTypes.StrNCpyOfPadded | src/w_wad.c:209 | Copying a padded name with `strncpy` returns it unchanged |
| WadTypes.LE32RoundTrip | src/w_wad.c:186-187 | Reading a 32-bit little-endian field back from any position of a byte string yields the value encoded there |
| WadTypes.StrNCaseEq | src/w_wad.c:334 | `strncasecmp(a, b, n) == 0`: a string always equals itself, and equal strings agree in their first byte, case ignored |
| WadFormat.ReadAt | src/w_wad.c:188-191 | A read yields exactly the requested number of bytes, and the file's own bytes when they are all present |
| WadFormat.ReadHeader | src/w_wad.c:182-187 | The tag is the first four bytes of the file, and the lump count and table offset are 32-bit values |
| WadFormat.HasWadId | src/w_wad.c:183-185 | A tag that passes is four bytes ending in `WAD` (`IWAD` or `PWAD`) |
| WadFormat.ReadEntry | src/w_wad.c:188-191 | Entry i of the table holds 32-bit position and size fields, and its name is bytes 8 to 15 of the entry when the entry lies inside the file |
| WadFormat.FileDirectory | src/w_wad.c:170-193 | A non-`.wad` file gives one entry at position 0 with the whole file length, named by ExtractFileBase and fatal when that is; a `.wad` is fatal (NoWadId) exactly when its tag is neither IWAD nor PWAD, and otherwise gives `numlumps` entries read from the table at `infotableofs` |
| WadFormat.ToLump | src/w_wad.c:200-212 | A new record is global, unlocked, has no in-memory data, carries the file's handle and source and the entry's position and size, keeps a padded entry name, and is well formed |
| WadFormat.ToLumps | src/w_wad.c:200-212 | One well-formed record per entry, in the entries' order |
| WadFormat.NewLumps | src/w_wad.c:170-212 | A file's records fail exactly when its directory fails, with the same error; otherwise there is one record per directory entry, made from it |
| WadFormat.NewLumpsShape | src/w_wad.c:170-212 | A loaded file adds `numlumps` records (one for a non-`.wad`), each well formed, global, unlocked, with the file's source and handle |
| WadFormat.ReadLumpBytes | src/w_wad.c:477-501 | In-memory data yields its first `size` bytes; otherwise the read succeeds exactly when the handle is open and the file holds `size` bytes at the position (or `size` is 0), and yields those bytes; the failure is ShortRead |
| LumpHash.LumpNameHash | src/w_wad.c:287-300 | The hash never exceeds 81345, so the unsigned arithmetic cannot wrap |
| LumpHash.HashFrom | src/w_wad.c:290-298 | Folding in the bytes from k on never lowers the hash and keeps it at or below 81345 |
| LumpHash.HashIgnoresCase | src/w_wad.c:287-300 | Two padded names that are equal under an 8-byte case-insensitive comparison have the same hash |
| LumpHash.UnpaddedNamesHashApart | src/w_wad.c:290-298 | Without padding the previous property fails: a name that is NUL at position 0 and not at position 1 compares equal to the empty name but hashes differently |
| LumpHash.Bucket | src/w_wad.c:326 | A bucket index is below the number of lumps |
| LumpHash.LastInBucket | src/w_wad.c:358-363 | The head of a chain after the first i insertions is the greatest index below i in that bucket, or -1 when there is none |
| LumpHash.LastMatchBefore | src/w_wad.c:321-341 | The reference answer of a lookup: the greatest index below i whose record matches the name (case ignored) and namespace, or -1 |
| LumpHash.OffChainNoMatch | src/w_wad.c:326-336 | Records outside the query's bucket never match a padded query, so walking only its chain misses nothing |
| LumpHash.LastMatchUnique | src/w_wad.c:338-340 | A matching index with no match above it, or -1 when nothing matches, is the last match |
| Markers.MarkedBeforeMeans | src/w_wad.c:240-266 | The scan is inside a marked block at k exactly when some start marker precedes k with no start or end marker between |
| Markers.IsMarker | src/w_wad.c:224-228 | A name is the marker when strncasecmp over 8 bytes calls them equal, or when its first byte is exactly the marker's and its next 7 bytes match the marker, case ignored; every accepted name agrees with the marker in its first byte, case ignored |
| Markers.ScanLump | src/w_wad.c:241-265 | One lump goes to the outside list exactly when it is no marker and the scan is outside a marked block, the lists only grow at their ends, and the in-block and end-seen flags move as the start and end tests say |
| Markers.StartSentinel | src/w_wad.c:243-249 | The start sentinel is named with `strncpy` from the start marker, has size 0, is global and is well formed |
| Markers.EndSentinel | src/w_wad.c:274-279 | The end sentinel is named with `strncpy` from the end marker, has size 0, is global, and keeps every other field of the record it overwrites |
| Markers.SelectPartition | src/w_wad.c:240-266 | Every lump is exactly one of start marker, end marker, marked or outside; a marked lump implies an earlier start marker |
| Markers.ScanBound | src/w_wad.c:240-279 | Outside lumps plus the marked list plus the end sentinel never outnumber the lumps scanned, so the side buffer and the end-sentinel write stay in bounds |
| Markers.ScanStep | src/w_wad.c:240-266 | One lump updates the marking flag, the end flag, the outside list and the marked list as the loop body's four branches do |
| Markers.ScanMeansSelect | src/w_wad.c:240-266 | After k lumps the scan's state is the outside lumps, the marked list behind its sentinel, the marking flag and whether an end marker was seen |
| Markers.ScanResultCoalesced | src/w_wad.c:232-280 | The directory the scan, copy and end-sentinel write produce is the coalesced layout, fits the old size and keeps records well formed |
| Markers.CoalescedCount | src/w_wad.c:240-279 | The new count is the old count minus all markers plus one per sentinel kind; it never grows, and a non-empty directory stays non-empty |
| Markers.CoalescedLayout | src/w_wad.c:232-280 | The outside lumps come first in order, then (if a start marker was seen) the start sentinel and the marked lumps in order tagged with the namespace, then (if an end marker was seen) a size-0 global end sentinel |
| Markers.MarkersDropped | src/w_wad.c:241-257 | No start or end marker survives among the outside or marked lumps, and each of them is a lump of the input |
| Markers.CoalescedGood | src/w_wad.c:232-280 | Coalescing keeps every record well formed |
| Markers.SentinelNameIsMarker | src/w_wad.c:245 | A sentinel named from a marker without NULs is recognised as that marker again |
| Markers.DoubledFirstByteIsMarker | src/w_wad.c:224-228 | `SS_START` is recognised as the marker `S_START` |
| Markers.FirstByteIsCaseSensitive | src/w_wad.c:224-228 | `ss_start` is not a marker for `S_START`, although `s_start` is |
| LockCache.Acquire | src/w_wad.c:518-524 | A cache call adds `locks` to the count and leaves the slot resident with its old bytes or the bytes just read; the block is pinned exactly when the count was 0 before the call or it was already pinned |
| LockCache.Release | src/w_wad.c:552-556 | An unlock subtracts from the count, never fills or empties the slot and keeps its bytes; the block becomes purgable when a non-zero unlock brings the count to 0, and keeps its tag otherwise |
| LockCache.Purge | src/w_wad.c:518-519 | Reclaiming a purgable block empties the slot and leaves the count alone |
| LockCache.AcquireKeepsHealthy | src/w_wad.c:521-524 | A cache call keeps "a locked lump is resident and pinned" |
| LockCache.ReleaseKeepsHealthy | src/w_wad.c:553-556 | An unlock of no more than the count keeps "a locked lump is resident and pinned" |
| LockCache.PurgeKeepsHealthy | src/w_wad.c:518-519 | Only unlocked lumps can be reclaimed, and reclaiming keeps the invariant |
| LockCache.RunKeepsHealthy | src/w_wad.c:511-557 | Over any permitted sequence of cache calls, unlocks and reclaims, the count is the initial count plus the net locks, locked lumps stay resident and pinned, and the cache only ever holds the lump's bytes |
| LockCache.ZeroLockPins | src/w_wad.c:523-524 | A cache call with 0 locks on an unlocked lump pins its block although the count stays 0 |
| LockCache.LockThenUnlock | src/w_wad.c:511-557 | Locking once and unlocking once leaves the lump unlocked and purgable |
| LockCache.ExcessUnlockUnpins | src/w_wad.c:547-556 | After more unlocks than locks, a later lock leaves a locked lump in a purgable block |
| Wad.OpenFile | src/w_wad.c:152-157 | A file opens exactly when its name is non-empty and the file system or the network fetch has it |
| Wad.AddFileSpec | src/w_wad.c:138-215 | A successful add keeps the old records and files as a prefix and opens at most one file; when no file is added the directory is unchanged |
| Wad.AddFileAppends | src/w_wad.c:152-212 | A missing `.lmp` leaves the directory unchanged and any other missing file is fatal; a `.wad` with a wrong tag is fatal; otherwise exactly `numlumps` records (1 for a non-`.wad`) are appended behind the untouched old ones, each global, unlocked and with the file's source and handle |
| Wad.AsPredefined | src/w_wad.c:410-416 | Every predefined lump is copied in order, with its source set to predefined |
| Wad.LoadFiles | src/w_wad.c:423-428 | Adding the first k files in order keeps the starting records and files as a prefix and opens at most one file per listed name |
| Wad.CoalesceAll | src/w_wad.c:438-442 | The sprite, flat and colormap passes in that order never make the directory longer |
| Wad.InitSpec | src/w_wad.c:400-458 | Successful initialisation keeps at most one open file per listed name |
| Wad.CoalesceAllNonEmpty | src/w_wad.c:430-442 | The three passes keep a non-empty directory non-empty |
| Wad.InitNonEmpty | src/w_wad.c:430-451 | A successful initialisation leaves a non-empty directory, so the hash modulus is never 0 |
| Wad.LoadFilesStaysFatal | src/w_wad.c:426-427 | Once a file fails to load, loading the remaining files keeps that error |
| Wad.WadDirectory.constructor | src/w_wad.c:402-416 | The directory starts as the predefined lumps with source predefined, and no open files |
| Wad.WadDirectory.AddFiles | src/w_wad.c:423-428 | Adding every file in order yields the first fatal error, or the directory and open files that adding the files one by one specifies |
| Wad.WadDirectory.CoalesceResources | src/w_wad.c:438-442 | The directory becomes the sprite, flat and colormap passes applied in that order, and stays non-empty |
| Wad.WadDirectory.SetUpCacheAndHash | src/w_wad.c:444-451 | Every cache slot is empty, the hash index is built, and the records and files are unchanged |
| Wad.WadDirectory.AddFile | src/w_wad.c:138-215 | Fatal exactly as W_AddFile's specification is, with its error; otherwise the new records and open files are the specification's, and the result says whether a file was opened |
| Wad.WadDirectory.AppendRecords | src/w_wad.c:196-212 | The grown directory is the old records followed by one record per entry, with the file's handle and source |
| Wad.FillRecords | src/w_wad.c:198-212 | The slots from the first new one on receive the records made from the entries, and the earlier slots are kept |
| Wad.WadDirectory.ScanOne | src/w_wad.c:241-265 | One turn of the loop moves the scan from lump i to lump i+1: outside records compacted in place, marked records in the side buffer, flags updated, and the unscanned records untouched |
| Wad.WadDirectory.ScanMarked | src/w_wad.c:235-266 | The loop leaves the outside records at the front in order, the marked list in a fresh side buffer, and the end flag, as the scan specification says, within the old size |
| Wad.WadDirectory.CoalesceMarkedResource | src/w_wad.c:232-280 | The directory becomes the coalesced layout of the old directory for the given markers and namespace |
| Wad.WadDirectory.InitLumpHash | src/w_wad.c:347-364 | Every chain head is the last record of its bucket, and every record links to the previous record of its bucket, so chains run through strictly decreasing indices to -1 |
| Wad.WadDirectory.ClearChains | src/w_wad.c:351-352 | Every chain head is -1 |
| Wad.WadDirectory.LinkChains | src/w_wad.c:358-363 | Prepending the records in ascending order builds exactly the chains InitLumpHash promises |
| Wad.WadDirectory.CheckNumForName | src/w_wad.c:321-341 | The answer is -1 or a record matching the name (case ignored) and namespace; for a padded name it is the greatest matching index, or -1 when none matches |
| Wad.WadDirectory.GetNumForName | src/w_wad.c:373-379 | A global lookup: a non-fatal answer is a record matching the name; for a padded name it is fatal exactly when no record matches, and otherwise the last matching record |
| Wad.WadDirectory.LumpLength | src/w_wad.c:464-469 | Fatal exactly for an index past the directory, otherwise the record's size |
| Wad.WadDirectory.ReadLump | src/w_wad.c:477-501 | The bytes read are the record's bytes from memory or its file, and the read is fatal when fewer than `size` bytes are there |
| Wad.WadDirectory.LoadSlot | src/w_wad.c:518-519 | An empty slot receives the lump as W_ReadLump reads it, in a PU_CACHE block, or stays empty when that read fails; a resident slot and every other slot are untouched; the cache stays consistent and the lock discipline holds if it held |
| Wad.WadDirectory.AddLocks | src/w_wad.c:521-528 | The lock state of a resident lump moves as Acquire says, only this record's count and slot change, and the records stay well formed, the cache consistent, the hash index valid and the lock discipline kept |
| Wad.WadDirectory.CacheLumpNum | src/w_wad.c:511-538 | Fatal only when an empty slot's read fails; otherwise the lock state moves as Acquire says, the caller gets the lump's bytes unless `locks` is 0, no other record changes except this count, and no other slot changes; a valid hash index stays valid and the lock discipline is kept |
| Wad.WadDirectory.UnlockLumpNum | src/w_wad.c:545-557 | The lock state moves as Release says, and nothing else changes but this record's count; a valid hash index stays valid, and the lock discipline is kept when at most the current count is unlocked |
| Wad.WadDirectory.Reclaim | src/w_wad.c:518-519 | The zone allocator may empty a purgable slot; the cache invariant, a valid hash index and the lock discipline survive |
| Wad.Init | src/w_wad.c:400-458 | Fatal exactly when the value-level initialisation is, with its error; otherwise the directory is that specification's, hashed, with a consistent and empty cache, every record unlocked and the lock discipline in force |
| Wad.LoadFilesUnlocked | src/w_wad.c:198-212 | Adding files in order appends only unlocked records, so an unlocked directory stays unlocked |
| Wad.CoalesceAllUnlocked | src/w_wad.c:438-442 | The three coalescing passes leave an unlocked directory unlocked |
| Wad.InitUnlocked | src/w_wad.c:400-442 | With the zero-initialised predefined table, a successful initialisation leaves every record with a lock count of 0 |
| Wad.UnlockedHealthy | src/w_wad.c:444-445 | An unlocked directory with every cache slot empty satisfies the lock discipline |
| Wad.RecordUpdateKeeps | src/w_wad.c:511-557 | Changing one record (same name) and its slot consistently keeps the records well formed, the cache consistent and the hash index valid, and keeps the lock discipline when the changed pair is healthy |
| Wad.WadDirectory.LinkOne | src/w_wad.c:360-362 | One turn of the linking loop puts record i at the head of its bucket's chain, linked to the previous head, so the chains cover the first i+1 records |
| LumpHash.BucketsOfNames | src/w_wad.c:287-300 | The buckets of a directory depend on its names alone |
| Markers.CoalescedUnlocked | src/w_wad.c:232-280 | Coalescing an unlocked directory leaves it unlocked: the start sentinel is unlocked and the end sentinel keeps the count of the record it overwrites |
| LockCache.ZeroingUnlockFindsBlock | src/w_wad.c:554-556 | Under the lock discipline, an unlock that brings the count to 0 finds a resident, pinned block to retag |
| WadExport.BuildPredefinedLumpWad | src/w_wad.c:585-608 | The bytes written are the PWAD image: header, directory, payloads |
| WadExport.WriteDirectory | src/w_wad.c:586-604 | The directory loop writes one entry per lump, with the running file position |
| WadExport.WriteLumps | src/w_wad.c:607-608 | The lump loop writes every lump's bytes back to back |
| WadExport.DirectoryLayout | src/w_wad.c:586-604 | Entry i sits at 16·i in the directory and holds 12 + 16·n + the sizes of the earlier lumps, the size and the name |
| WadExport.PayloadsLayout | src/w_wad.c:603-608 | Lump i's bytes sit at the sum of the earlier sizes among the payloads |
| WadExport.HeaderRoundTrip | src/w_wad.c:585-593 | The header written parses back as PWAD, the lump count, and table offset 12 |
| WadExport.EntryRoundTrip | src/w_wad.c:598-602 | An entry written decodes to its position, size and padded name |
| WadExport.ReadEntryRoundTrip | src/w_wad.c:595-604 | Entry i parsed from the exported file is the lump's position, size and name |
| WadExport.ReadBodyRoundTrip | src/w_wad.c:603-608 | Reading lump i's size at its position in the exported file gives its bytes |
| WadExport.ExportRoundTrip | src/w_wad.c:571-614 | Parsing the exported file gives back the header, every directory entry and every payload |
| WadExport.ExportPathIsWad | src/w_wad.c:579 | A name without an extension is written as the name plus `.wad`, which the loader reads as a WAD |
| WadExport.Overwrite | src/w_wad.c:583 | Opening without truncation puts the image at the start of the file and keeps any longer old tail |
| WadExport.WritePredefinedLumpWad | src/w_wad.c:571-614 | An empty name does nothing; a file that cannot be opened is fatal with "cannot open"; otherwise the image is written at the given name, with `.wad` added when it has no extension, and the program ends with "written" |
| WadExport.ExportThenLoad | src/w_wad.c:571-614 | Loading the exported file gives one record per predefined lump, with its name and size, whose read gives its bytes |

## Left out

- Byte signedness: names and paths are unsigned bytes, and `toupper` is the C-locale ASCII mapping. A platform with signed `char` where `toupper` treats bytes above 127 differently is not modelled.
- 32-bit arithmetic: header counts, offsets, sizes and positions are unbounded naturals read as unsigned little-endian values. A negative `numlumps`, a negative `size`, and the `int` overflow of `header.numlumps*sizeof(filelump_t)` and of the export's `filepos` are not modelled. The export round trip assumes every offset and size fits in 32 bits.
- LONG() host byte swapping: fields are decoded as little-endian directly.
- Short reads of the header and of the directory table are unchecked in the source. They are modelled as reads that yield zeros past the end of the file.
- `fstat` failing in `filelength` ("Error fstating") is not modelled; the length is the backing store's length.
- The 256-byte `filenam` buffer of `WritePredefinedLumpWad`, and its overflow for long names, are not modelled.
- open(), read(), write() and close() become maps from names to byte sequences. File handles are indices into the directory's list of open files.
- `D_NetGetWad` becomes a second map of files the network fetch can provide.
- The export's open() outcome is the parameter `canOpen`.
- `I_Error` is the `Fatal` outcome of `Result`; the exits in `WritePredefinedLumpWad` are the `ExportWritten` and `ExportOpenFailed` outcomes.
- The calloc failure of `lumpcache` ("Couldn't allocate lumpcache") is not modelled; allocation always succeeds.
- Wad.WadDirectory.ReadLump: the `RANGECHECK` test is a precondition `lump < numlumps`, not a fatal outcome; the same holds for Wad.WadDirectory.CacheLumpNum.
- Paths.ExtractFileBase: requires a non-empty path, since the C code reads before the start of an empty string; only opened files, whose names are non-empty, reach it.
- Wad.WadDirectory.CheckNumForName: the "last match" answer is proved for padded query names only. For a name with bytes after a NUL, case-insensitive equality does not imply equal hashes (LumpHash.UnpaddedNamesHashApart). Every directory name is padded.
- Wad.WadDirectory.GetNumForName: the fatal-exactly-when-absent and last-match answers are stated for padded query names only, for the reason given for CheckNumForName. For any name, a non-fatal answer is still a matching record.
- `Z_Malloc` and `Z_ChangeTag` internals: a cache slot is empty or holds the lump's bytes with a PU_STATIC or PU_CACHE tag. Purging is the separate Reclaim action, allowed only on PU_CACHE blocks.
- Wad.WadDirectory.UnlockLumpNum: `Z_ChangeTag` on an empty slot is undefined in the source, and the model leaves the empty slot alone. Wad.Init establishes the lock discipline (Wad.WadDirectory.LocksHealthy), and the cache operations keep it. Under it, this case needs unlocks that break the discipline: more unlocks than locks, or a negative count (LockCache.ZeroingUnlockFindsBlock).
- The `SIMPLECHECKS` warnings (the high-lock and excess-unlock messages), `lprintf` logging and the `TIMEDIAG` lock timing are diagnostics only and are not modelled.
- The contents of the `predefined_lumps` table are not part of this model. They are a parameter of Wad.Init. It must hold well-formed records with lock counts of 0, as the zero-initialised static table does. The directory constructor alone copies whatever counts it is given.
- Sentinel fields the C code leaves uninitialised are fixed values in the model. The start sentinel has handle -1, position 0, empty in-memory data, source predefined and 0 locks. The end sentinel keeps the fields of the record it overwrites, as the in-place write does.
- `index` and `next` are fields of `lumpinfo_t` in C. They are two parallel arrays of the directory in the model.
- Locks stay in the records, as in C.
- The loops of `W_AddFile`, `W_CoalesceMarkedResource` and `W_InitLumpHash` are split into methods of their own: FillRecords, ScanOne and ScanMarked, and ClearChains and LinkChains. Behaviour is unchanged.
- w_wad.h is not part of this model. The one-argument `W_CheckNumForName` used by `W_GetNumForName` is taken to search the global namespace.
