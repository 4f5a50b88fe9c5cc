# evtx-extractor, modelled in Dafny

`evtx-extractor` copies the Windows event-log files (`*.evtx`) out of a disk
image. The image comes from a local file or block device, or from a cloud
snapshot that is read through a local disk cache. This project models the
decision-and-copy logic of the extractor's `main`, and of the two source
constructors `box_from_snapshot` and `box_from_file`, and proves properties
of that model:

- **Source dispatch.** A descriptor beginning with `snap` names a snapshot;
  any other descriptor names a local path. The source size is a `u64`, and
  its conversion to `i64` is checked.
- **Partition filter.** Every partition whose description contains `NTFS`
  is visited, in table order. The file system is opened at the partition's
  start offset, and the `/Windows/System32/winevt/Logs` directory is listed.
- **Entry filter.** An entry is used when it has a name and its lowercased
  name ends in `.evtx`.
- **Per-entry error isolation.** A failure to open an entry, or to get its
  default attribute, skips only that entry.
- **Lazy creation of the output folder.**
- **Chunked copy.** The copy reads 1024 bytes at a time until the declared
  size is reached, into a file named after the entry (truncated if it
  exists).

Files:

- `wrappers.dfy`: the `Option` datatype.
- `text.dfy` (module `Text`): prefix, suffix and substring tests, and
  lowercasing.
- `sources.dfy` (module `Sources`): dispatch, the `u64`→`i64` conversion, the
  two source constructors and the resolver. The network, the snapshot
  service and the file system are an `Environment` value: which snapshot
  identifiers resolve, and with what size; which paths open, and with what
  length.
- `image.dfy` (module `Image`): what The Sleuth Kit returns, as values. These
  are the partition table (description, start offset), the file systems by
  offset, the directory listings by path, the entries (optional name,
  inode), the files by inode with an optional default attribute, and the
  attribute's declared size and successive read results.
- `copy.dfy` (module `Copy`): the copy loop as a function (`CopyFrom`), what
  each of its outcomes means, a bound on what it writes, and a round trip.
- `extraction.dfy` (module `Extraction`): the per-entry state machine and the
  folds over the directory listing, over the partition table and over the
  whole run, on a `FolderState` value. Also lemmas about error isolation,
  lazy creation, the order of file-system opens, the effect on the folder,
  overwriting and idempotence.
- `extractor.dfy` (module `Extractor`): the class `OutputFolder`, holding
  whether the folder exists and its files by name. Its methods are the
  source's nested `for` loops and its `while` copy loop. `CopyAttribute`
  is proved equal to `Copy.CopyOf`; every other method is proved equal to
  the matching function of `Extraction`.

How a run can end early (`Extraction.Stop`):

- `Panic(reason)`: one of the source's `expect`/`panic!` aborts.
  - The source does not resolve.
  - No volume system is found.
  - The file system or the event-log directory of an NTFS partition does
    not open.
  - The output folder or an output file cannot be created.
  - A read returns an error.
- `Spins(name, offset)`: the reader is at end of stream while the offset is
  still below the declared size. Every further read returns zero bytes, the
  offset never moves, and the source's `while` loop never ends. The model
  stops and reports this instead of looping.

A zero-byte read is not an error: the copy loop has no check for it
(`src/bin/evtx-extractor.rs:221-234`), so a read of `Ok(0)` adds 0 to the
offset and the loop reads again. A zero-byte read in the middle of the
results is simply repeated (`Copy.ZeroByteReadIsIgnored`), and a reader
at end of stream below the declared size makes the loop spin forever
(`Stalled` / `Spins`).

## Model

| member | source | states |
|---|---|---|
| `Sources.Dispatch` | src/bin/evtx-extractor.rs:157-164 | Total and deterministic. The result is the snapshot kind exactly when the descriptor is "snap" followed by something; every other string is the local-file kind. |
| `Sources.TryIntoI64` | src/bin/evtx-extractor.rs:128-133 | The conversion succeeds exactly when the u64 value is at most the i64 maximum, and then it keeps the value. |
| `Sources.BoxFromSnapshot` | src/bin/evtx-extractor.rs:101-116 | Succeeds exactly when the snapshot resolves, its volume size fits in i64 and the cached handle is obtained. The source then has the snapshot kind and that size. The error is "size too large" exactly when the snapshot resolves with a size above the i64 maximum. |
| `Sources.BoxFromFile` | src/bin/evtx-extractor.rs:120-136 | Succeeds exactly when the path opens, its metadata is readable and its length fits in i64. The source then has the file kind and that length. The error is "size too large" exactly when the length exceeds the i64 maximum. |
| `Sources.Resolve` | src/bin/evtx-extractor.rs:157-164 | A resolved source has the kind that dispatch chose and carries the descriptor. |
| `Sources.ResolveNoFallback` | src/bin/evtx-extractor.rs:157-164 | No fallback between the two kinds. A snapshot descriptor's result depends only on the snapshot service, and a local descriptor's result only on the file system. |
| `Sources.ResolveSizeOverflow` | src/bin/evtx-extractor.rs:108-133 | For both kinds, resolution fails with the size error exactly when the reported u64 size exceeds the i64 maximum. Otherwise the resolved size is the reported one. |
| `Text.StartsWith` | src/bin/evtx-extractor.rs:157 | Definition of `str::starts_with`, the test that picks the snapshot kind; its meaning for dispatch is stated by `Sources.Dispatch`. |
| `Text.EndsWith` | src/bin/evtx-extractor.rs:190 | Definition of `str::ends_with`, the suffix test of the entry filter; its meaning is stated by `Extraction.IsEvtxNameMeaning`. |
| `Text.Contains` | src/bin/evtx-extractor.rs:180 | The scan holds exactly when the pattern occurs at some position of the string. |
| `Text.Lower` | src/bin/evtx-extractor.rs:190 | Lowercasing keeps the length and folds each character on its own. |
| `Extraction.IsNtfs` | src/bin/evtx-extractor.rs:180 | Definition of the partition filter: the description contains "NTFS". Its meaning is stated by `Extraction.IsNtfsMeaning`. |
| `Extraction.IsEvtxName` | src/bin/evtx-extractor.rs:189-190 | Definition of the entry filter: the lowercased name ends with ".evtx". Its meaning is stated by `Extraction.IsEvtxNameMeaning`. |
| `Extraction.EnsureStep` | src/bin/evtx-extractor.rs:199-202 | Definition of the lazy folder creation: nothing when the folder exists, otherwise create it or abort. Implemented by `Extractor.OutputFolder.CreateFolderIfMissing`; its effect across a listing is stated by `Extraction.NoMatchLeavesFolder` and `Extraction.EntriesCompleteMonotone`. |
| `Extraction.CopyStep` | src/bin/evtx-extractor.rs:218-234 | Definition of creating the output file and copying the attribute into it: abort when the file cannot be created, otherwise the file holds the copy's data and the copy's outcome decides whether the run goes on. |
| `Extraction.EntryStep` | src/bin/evtx-extractor.rs:189-235 | Definition of one entry: the filters, folder creation, the `get_attr` skip, then the copy. Its meaning is stated by `Extraction.EntryStepEffect`, `Extraction.SkippedEntryIsInert` and `Extraction.GetAttrFailureOnlyEnsures`. |
| `Extraction.EntriesFrom` | src/bin/evtx-extractor.rs:188-237 | Definition of the loop over a listing, stopping at the first abort. Its meaning is stated by `Extraction.EntriesEffect` and `Extraction.EntriesCompleteMonotone`. |
| `Extraction.PartitionStep` | src/bin/evtx-extractor.rs:180-238 | Definition of one partition: ignored unless NTFS; otherwise its file system and event-log directory are opened (abort on failure) and the listing is extracted. Its meaning is stated by `Extraction.PartitionStepEffect`. |
| `Extraction.PartitionsFrom` | src/bin/evtx-extractor.rs:179-239 | Definition of the loop over the partition table, with no early exit after a match. Its meaning is stated by `Extraction.PartitionsEffect`, `Extraction.OpenedFollowsNtfsOrder` and `Extraction.CompletedOpensAllNtfs`. |
| `Extraction.ExtractionRun` | src/bin/evtx-extractor.rs:157-239 | Definition of the whole run: resolve (fatal on error), require a volume system, traverse the partition table. Its meaning is stated by `Extraction.ExtractionIdempotent` and `Extraction.ExtractionExtends`. |
| `Extraction.IsNtfsMeaning` | src/bin/evtx-extractor.rs:180 | A partition passes the filter exactly when some suffix of its description begins with "NTFS". The match is case-sensitive. |
| `Extraction.IsEvtxNameMeaning` | src/bin/evtx-extractor.rs:189-190 | A name passes the filter exactly when it ends in '.', then e, v, t, x, each letter in either case. Nothing else in the name matters. |
| `Extraction.SkippedEntryIsInert` | src/bin/evtx-extractor.rs:189-197 | An entry with no name, with another suffix, or whose inode fails to open can be removed from anywhere in the listing without changing the outcome. It is skipped without error and the loop continues. |
| `Extraction.GetAttrFailureOnlyEnsures` | src/bin/evtx-extractor.rs:199-210 | An entry that opens but whose default attribute cannot be fetched does no more than ensure the folder: it is skipped without error. |
| `Extraction.GetAttrFailureContinues` | src/bin/evtx-extractor.rs:188-210 | An entry that opens but whose default attribute cannot be fetched never stops a listing by itself: the listing goes on from the folder-creation step. |
| `Extraction.GetAttrFailureSkipsEntry` | src/bin/evtx-extractor.rs:188-210 | Once the folder exists, such an entry can be removed from anywhere in the listing without changing the outcome. |
| `Extraction.NoMatchLeavesFolder` | src/bin/evtx-extractor.rs:199-202 | When no entry matches and opens, the listing leaves the folder untouched: it is not created and nothing is written. |
| `Extraction.EntryStepEffect` | src/bin/evtx-extractor.rs:191-234 | A completed entry step: the folder exists afterwards when it existed or the entry's inode opened, including when `get_attr` then fails. The files are the old ones with the entry's file replaced by its copied data. |
| `Extraction.EntriesEffect` | src/bin/evtx-extractor.rs:188-237 | A completed listing: the folder exists afterwards exactly when it existed or some entry matched and opened. The files are the old ones overwritten by the listing's writes, a later entry winning. |
| `Extraction.EntriesCompleteMonotone` | src/bin/evtx-extractor.rs:199-202 | Whether a listing completes depends on the folder only through whether it exists, and an existing folder never makes it fail. |
| `Extraction.OpenedFollowsNtfsOrder` | src/bin/evtx-extractor.rs:179-183 | File systems are opened only at NTFS partitions' start offsets, once each, in table order: the offsets a traversal adds form a prefix of the NTFS start offsets. |
| `Extraction.CompletedOpensAllNtfs` | src/bin/evtx-extractor.rs:179-186 | No early exit. A completed traversal has opened a file system at the start offset of every NTFS partition, in order. |
| `Extraction.PartitionStepEffect` | src/bin/evtx-extractor.rs:180-237 | A completed partition step leaves the folder existing exactly when it existed or one of the partition's entries opened. Its files are overwritten by that partition's writes. |
| `Extraction.PartitionsEffect` | src/bin/evtx-extractor.rs:179-239 | A completed traversal leaves the folder existing exactly when it existed or some entry opened. The files are the old ones overwritten by the writes of all partitions, a later partition winning. |
| `Extraction.PartitionsCompleteMonotone` | src/bin/evtx-extractor.rs:179-239 | Whether a traversal completes, and which file systems it opens, depend on the folder only through whether it exists. |
| `Extraction.ExtractionIdempotent` | src/bin/evtx-extractor.rs:212-234 | A completed run, repeated on the folder it produced, completes again, opens the same file systems and leaves the folder identical. Files are truncated and rewritten, never appended to. |
| `Extraction.ExtractionExtends` | src/bin/evtx-extractor.rs:188-219 | Every run, however it ends, never removes the folder or a file. Every file it adds is named by a name that passes the ".evtx" filter. A folder that does not exist never holds files. |
| `Extraction.LaterEntryOverwrites` | src/bin/evtx-extractor.rs:218-219 | Of two matching entries with the same name, the file holds what the second one copied. |
| `Copy.CopyFrom` | src/bin/evtx-extractor.rs:221-234 | Definition of the copy loop entered at an offset, over the reader's remaining results. Its meaning is stated by `Copy.CopiedMeaning`, `Copy.ReadFailedMeaning`, `Copy.StalledMeaning` and `Copy.CopiedLength`. |
| `Copy.CopyOf` | src/bin/evtx-extractor.rs:221-234 | Definition of the copy of one attribute: the loop entered at offset 0. `Extractor.OutputFolder.CopyAttribute` is proved equal to it; `Copy.CopyChunkedRoundTrip` gives its round trip. |
| `Copy.CopiedMeaning` | src/bin/evtx-extractor.rs:221-234 | A copy that finishes after n reads: those n reads all returned bytes, and the file is their concatenation. The offset reached the declared size with the n-th read and not before. |
| `Copy.ReadFailedMeaning` | src/bin/evtx-extractor.rs:222-229 | A read error happens at some read k below the declared size. Every earlier read returned bytes, and the file holds their concatenation. |
| `Copy.StalledMeaning` | src/bin/evtx-extractor.rs:222-234 | The loop stalls only when every read returned bytes and all of them together stay below the declared size. |
| `Copy.CopiedLength` | src/bin/evtx-extractor.rs:221-234 | A finished copy writes nothing when the declared size is not positive. Otherwise it writes at least the declared size and less than one 1024-byte buffer more. |
| `Copy.ChunkedCount` | src/bin/evtx-extractor.rs:223-224 | Content of n bytes read in full buffers takes n / 1024 reads, rounded up. |
| `Copy.CopyChunkedRoundTrip` | src/bin/evtx-extractor.rs:221-234 | When the reader delivers the content in full buffers and the declared size is its length, the file is exactly the content, written in one read per buffer. |
| `Copy.ZeroByteReadIsIgnored` | src/bin/evtx-extractor.rs:221-234 | Any run of zero-byte reads below the declared size leaves the offset where it was and writes nothing; the loop reads again once per such read and then goes on as without them. |
| `Extractor.OutputFolder.CreateFolderIfMissing` | src/bin/evtx-extractor.rs:199-202 | Creates the folder only if it does not exist. A failure to create it aborts. |
| `Extractor.OutputFolder.Write` | src/bin/evtx-extractor.rs:230-231 | Appends the slice to the named file; nothing else changes. |
| `Copy.CopyingAdvance` | src/bin/evtx-extractor.rs:221-234 | The loop invariant `Copying` holds across a read that returned bytes: the chunk is appended to the data written, the offset advances by its length, and the whole outcome is unchanged. |
| `Copy.CopyingExit` | src/bin/evtx-extractor.rs:221-234 | Under the invariant, the loop's outcome at each exit: finished when the offset reached the size, stalled when the reader is used up, a read failure when read k failed. |
| `Extractor.OutputFolder.CopyAttribute` | src/bin/evtx-extractor.rs:218-234 | Truncates the file, then runs the loop under `Copying`. Invariants: the offset is the total of the bytes read, the file is the concatenation of the chunks read, and nothing else in the folder changes. The outcome is `CopyOf(attr)` and the file holds its data. |
| `Extractor.OutputFolder.ExtractEntry` | src/bin/evtx-extractor.rs:189-235 | Does one entry as the per-entry state machine `EntryStep` says: skips, folder creation, `get_attr` skip, create and copy. |
| `Extractor.OutputFolder.ExtractEntries` | src/bin/evtx-extractor.rs:188-237 | Loops over the listing in order, continuing past skipped entries and stopping only at an abort. Equal to `EntriesFrom`. |
| `Extractor.OutputFolder.ExtractPartitions` | src/bin/evtx-extractor.rs:179-239 | Loops over the partition table in order, opening a file system at each NTFS partition, with no break. Returns the offsets it opened. Equal to `PartitionsFrom`. |
| `Extractor.OutputFolder.Run` | src/bin/evtx-extractor.rs:157-239 | The main procedure: resolve (fatal on error), find the volume system (fatal if none), traverse. Equal to `ExtractionRun`. |

## Left out

- Logging setup (fern, timestamps, per-target filters), clap argument parsing and the `eprintln!`/`error!` messages. These are output only.
- The AWS timeout and retry configuration, the `DiskCache` and the tokio runtime. The snapshot service is the `Environment` value, which says whether an identifier resolves, its volume size, and whether the cached handle is obtained. The `DiskCache::from_path` and `Runtime::new` failures, which abort before dispatch, are not modelled.
- The Sleuth Kit's volume and file-system parsing. `TskImgReadSeek::from_read_seek`, `get_vs_from_offset` and `get_partition_iter` all abort on failure; the model has one abort for all three (`NoVolumeSystem`, an absent partition table). The image does not depend on the resolved byte source's contents.
- `name.to_lowercase()` is modelled as folding ASCII letters only. No non-ASCII character lowercases to '.', 'e', 'v', 't' or 'x', so the ".evtx" suffix test is the same.
- Each `write` is modelled as writing the whole slice. The source calls `write` rather than `write_all` and ignores the count, so a short write is not modelled. Write errors, which abort, are not modelled.
- The output path is the folder joined with the entry's name, and the model keys files by that name. Names containing path separators, which the file system does not produce, are not modelled.
- Whether the output folder and its files can be created is one flag each for the whole run (`OutputTarget`), not a per-name condition.
- `Extractor.OutputFolder.CopyAttribute`: the offset is an unbounded integer. The i64 overflow of `offset += bytes_read` for a declared size within 1024 of the i64 maximum is not modelled.
- `Extractor.OutputFolder.CopyAttribute`: when the reader is at end of stream below the declared size, the source loops forever. The method returns `Stalled` instead of not terminating.
