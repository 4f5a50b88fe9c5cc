/** What one run of the extractor does, as functions of its inputs: the
    partition and entry filters, the per-entry state machine, the folds over
    the directory listing and over the partition table, and the whole run.
    The output folder is described by a `FolderState` value; the methods of
    module Extractor update a folder object and are proved against these
    functions. */
module Extraction {
  import opened Wrappers
  import opened Text
  import opened Image
  import opened Copy
  import Sources

  /** The marker a partition description must contain (case-sensitive). */
  const NTFS_MARKER: string := "NTFS"
  /** The suffix an entry's lowercased name must end with. */
  const EVTX_SUFFIX: string := ".evtx"
  /** The directory of each NTFS file system that is listed. */
  const LOGS_DIR: string := "/Windows/System32/winevt/Logs"

  // ---------------------------------------------------------------------
  // Filters

  /** Partition filter: the description contains "NTFS". */
  predicate IsNtfs(part: Partition)
  {
    Contains(part.desc, NTFS_MARKER)
  }

  /** Entry filter on a retrieved name: lowercased, it ends with ".evtx". */
  predicate IsEvtxName(name: string)
  {
    EndsWith(Lower(name), EVTX_SUFFIX)
  }

  /** The partition filter holds exactly when some suffix of the
      description begins with "NTFS", in that case. */
  lemma IsNtfsMeaning(part: Partition)
    ensures IsNtfs(part) <==> exists i :: 0 <= i <= |part.desc| && StartsWith(part.desc[i..], "NTFS")
  {
    var d := part.desc;
    forall i | 0 <= i <= |d| ensures StartsWith(d[i..], NTFS_MARKER) <==> OccursAt(d, NTFS_MARKER, i) {
      if i + 4 <= |d| {
        assert d[i..][..4] == d[i..i + 4];
      }
    }
  }

  /** The entry filter, character by character: the name ends in a dot
      followed by the letters e, v, t, x, each in either case. The rest of
      the name does not matter. */
  lemma IsEvtxNameMeaning(name: string)
    ensures IsEvtxName(name) <==>
      |name| >= 5 && name[|name| - 5] == '.'
      && (name[|name| - 4] == 'e' || name[|name| - 4] == 'E')
      && (name[|name| - 3] == 'v' || name[|name| - 3] == 'V')
      && (name[|name| - 2] == 't' || name[|name| - 2] == 'T')
      && (name[|name| - 1] == 'x' || name[|name| - 1] == 'X')
  {
    var lower := Lower(name);
    if |name| >= 5 {
      var tail := lower[|lower| - 5..];
      assert tail[0] == LowerChar(name[|name| - 5]);
      assert tail[1] == LowerChar(name[|name| - 4]);
      assert tail[2] == LowerChar(name[|name| - 3]);
      assert tail[3] == LowerChar(name[|name| - 2]);
      assert tail[4] == LowerChar(name[|name| - 1]);
      assert EVTX_SUFFIX == ['.', 'e', 'v', 't', 'x'];
    }
  }

  // ---------------------------------------------------------------------
  // States and outcomes

  /** The output folder: whether it exists, and its files by name. */
  datatype FolderState = FolderState(present: bool, files: map<string, seq<byte>>)

  /** A folder that does not exist holds no files. */
  predicate FolderWellFormed(st: FolderState)
  {
    !st.present ==> st.files == map[]
  }

  /** Whether the output location lets the folder and files in it be
      created. */
  datatype OutputTarget = OutputTarget(dirCreatable: bool, filesCreatable: bool)

  /** The conditions that end the run with a panic. */
  datatype Fatal =
    | SourceFailed(error: Sources.SourceError)
    | NoVolumeSystem
    | FilesystemOpenFailed(offset: int)
    | LogsDirOpenFailed(offset: int)
    | CreateDirFailed
    | CreateFileFailed(name: string)
    | ReadFailedAt(name: string, offset: int)

  /** Why a run stops early: a panic, or a copy loop that never ends because
      the reader is at end of stream below the declared size. */
  datatype Stop = Panic(reason: Fatal) | Spins(name: string, offset: int)

  /** The state of a run so far: still going, or stopped. */
  datatype Progress = Running(folder: FolderState) | Stopped(why: Stop, folder: FolderState)

  /** The progress a stop flag and a folder state stand for. */
  function AsProgress(stop: Option<Stop>, st: FolderState): Progress
  {
    match stop
    case None => Running(st)
    case Some(why) => Stopped(why, st)
  }

  // ---------------------------------------------------------------------
  // One entry

  /** The entry names a file to extract and that file opens by inode. */
  predicate Opens(fs: Filesystem, e: DirEntry)
  {
    e.name.Some? && IsEvtxName(e.name.value) && e.inode in fs.files
  }

  /** Create the output folder, with its ancestors, unless it exists. */
  function EnsureStep(target: OutputTarget, st: FolderState): Progress
  {
    if st.present then Running(st)
    else if target.dirCreatable then Running(st.(present := true))
    else Stopped(Panic(CreateDirFailed), st)
  }

  /** Create (truncating) the output file `name` and copy `attr` into it. */
  function CopyStep(target: OutputTarget, name: string, attr: Attribute, st: FolderState): Progress
  {
    if !target.filesCreatable then Stopped(Panic(CreateFileFailed(name)), st)
    else
      var o := CopyOf(attr);
      var st' := st.(files := st.files[name := o.data]);
      match o
      case Copied(_, _) => Running(st')
      case ReadFailed(_, at) => Stopped(Panic(ReadFailedAt(name, at)), st')
      case Stalled(_, at) => Stopped(Spins(name, at), st')
  }

  /** One directory entry: skipped without a name, without the suffix or
      when its inode does not open; otherwise the folder is ensured, then
      the default attribute is fetched (skipped on failure) and copied. */
  function EntryStep(target: OutputTarget, fs: Filesystem, e: DirEntry, st: FolderState): Progress
  {
    if !Opens(fs, e) then Running(st)
    else match EnsureStep(target, st)
      case Stopped(why, st1) => Stopped(why, st1)
      case Running(st1) =>
        match fs.files[e.inode].attr
        case None => Running(st1)
        case Some(attr) => CopyStep(target, e.name.value, attr, st1)
  }

  /** The file an entry writes when its step completes. */
  function WriteOf(fs: Filesystem, e: DirEntry): map<string, seq<byte>>
  {
    if Opens(fs, e) && fs.files[e.inode].attr.Some? then map[e.name.value := CopyOf(fs.files[e.inode].attr.value).data]
    else map[]
  }

  // ---------------------------------------------------------------------
  // The directory listing

  function ThenEntry(target: OutputTarget, fs: Filesystem, p: Progress, e: DirEntry): Progress
  {
    match p
    case Stopped(_, _) => p
    case Running(st) => EntryStep(target, fs, e, st)
  }

  /** The entries of a listing, in order, from progress `p`. */
  function EntriesFrom(target: OutputTarget, fs: Filesystem, entries: seq<DirEntry>, p: Progress): Progress
    decreases |entries|
  {
    if entries == [] then p
    else EntriesFrom(target, fs, entries[1..], ThenEntry(target, fs, p, entries[0]))
  }

  /** Some entry of the listing opens a file to extract. */
  predicate AnyOpens(fs: Filesystem, entries: seq<DirEntry>)
  {
    exists i :: 0 <= i < |entries| && Opens(fs, entries[i])
  }

  /** The files a listing writes, a later entry replacing an earlier one of
      the same name. */
  function Writes(fs: Filesystem, entries: seq<DirEntry>): map<string, seq<byte>>
    decreases |entries|
  {
    if entries == [] then map[] else WriteOf(fs, entries[0]) + Writes(fs, entries[1..])
  }

  lemma {:induction false} EntriesStoppedStays(target: OutputTarget, fs: Filesystem, entries: seq<DirEntry>, why: Stop, st: FolderState)
    ensures EntriesFrom(target, fs, entries, Stopped(why, st)) == Stopped(why, st)
    decreases |entries|
  {
    if entries != [] {
      EntriesStoppedStays(target, fs, entries[1..], why, st);
    }
  }

  /** Processing a listing in two parts is processing it whole. */
  lemma {:induction false} EntriesAppend(target: OutputTarget, fs: Filesystem, a: seq<DirEntry>, b: seq<DirEntry>, p: Progress)
    ensures EntriesFrom(target, fs, a + b, p) == EntriesFrom(target, fs, b, EntriesFrom(target, fs, a, p))
    decreases |a|
  {
    if a == [] {
      assert a + b == b;
    } else {
      assert (a + b)[0] == a[0];
      assert (a + b)[1..] == a[1..] + b;
      EntriesAppend(target, fs, a[1..], b, ThenEntry(target, fs, p, a[0]));
    }
  }

  /** Error isolation: an entry that does not lead to an opened file (no
      name, another suffix, or an inode that fails to open) can be removed
      from anywhere in the listing without changing anything. */
  lemma SkippedEntryIsInert(target: OutputTarget, fs: Filesystem, a: seq<DirEntry>, e: DirEntry, b: seq<DirEntry>, p: Progress)
    requires !Opens(fs, e)
    ensures EntriesFrom(target, fs, a + [e] + b, p) == EntriesFrom(target, fs, a + b, p)
  {
    EntriesAppend(target, fs, a + [e], b, p);
    EntriesAppend(target, fs, a, [e], p);
    EntriesAppend(target, fs, a, b, p);
    assert [e][1..] == [];
  }

  /** A failure to fetch the default attribute skips only that entry: the
      step does no more than ensure the folder, and the run goes on. */
  lemma GetAttrFailureOnlyEnsures(target: OutputTarget, fs: Filesystem, e: DirEntry, st: FolderState)
    requires Opens(fs, e) && fs.files[e.inode].attr.None?
    ensures EntryStep(target, fs, e, st) == EnsureStep(target, st)
  {
  }

  /** An entry whose attribute cannot be fetched never stops a listing by
      itself: the listing goes on from the folder-creation step. */
  lemma GetAttrFailureContinues(target: OutputTarget, fs: Filesystem, e: DirEntry, b: seq<DirEntry>, st: FolderState)
    requires Opens(fs, e) && fs.files[e.inode].attr.None?
    ensures EntriesFrom(target, fs, [e] + b, Running(st)) == EntriesFrom(target, fs, b, EnsureStep(target, st))
  {
    assert ([e] + b)[1..] == b;
  }

  /** Error isolation for the default attribute: once the folder exists, an
      entry whose attribute cannot be fetched can be removed from anywhere
      in the listing without changing anything. */
  lemma GetAttrFailureSkipsEntry(target: OutputTarget, fs: Filesystem, a: seq<DirEntry>, e: DirEntry, b: seq<DirEntry>, p: Progress)
    requires Opens(fs, e) && fs.files[e.inode].attr.None?
    ensures EntriesFrom(target, fs, a, p).Running? && EntriesFrom(target, fs, a, p).folder.present
            ==> EntriesFrom(target, fs, a + [e] + b, p) == EntriesFrom(target, fs, a + b, p)
  {
    EntriesAppend(target, fs, a + [e], b, p);
    EntriesAppend(target, fs, a, [e], p);
    EntriesAppend(target, fs, a, b, p);
    assert [e][1..] == [];
  }

  /** Lazy creation: when no entry of the listing matches and opens, the
      listing leaves the folder as it was: not created, nothing written. */
  lemma {:induction false} NoMatchLeavesFolder(target: OutputTarget, fs: Filesystem, entries: seq<DirEntry>, st: FolderState)
    requires !AnyOpens(fs, entries)
    ensures EntriesFrom(target, fs, entries, Running(st)) == Running(st)
    decreases |entries|
  {
    if entries != [] {
      assert !Opens(fs, entries[0]);
      assert forall i :: 0 <= i < |entries| - 1 ==> entries[1..][i] == entries[i + 1];
      NoMatchLeavesFolder(target, fs, entries[1..], st);
    }
  }

  /** A completed entry step: the folder exists afterwards when it existed
      or the entry opened a file, and the files are the old ones with the
      entry's file replaced. */
  lemma EntryStepEffect(target: OutputTarget, fs: Filesystem, e: DirEntry, st: FolderState)
    requires EntryStep(target, fs, e, st).Running?
    ensures EntryStep(target, fs, e, st).folder == FolderState(st.present || Opens(fs, e), st.files + WriteOf(fs, e))
  {
    if Opens(fs, e) && fs.files[e.inode].attr.Some? {
      var name := e.name.value;
      var data := CopyOf(fs.files[e.inode].attr.value).data;
      assert st.files[name := data] == st.files + map[name := data];
    } else {
      assert st.files + map[] == st.files;
    }
  }

  /** Map union, where the right operand wins, is associative. */
  lemma UnionAssoc<K, V>(a: map<K, V>, b: map<K, V>, c: map<K, V>)
    ensures (a + b) + c == a + (b + c)
  {
  }

  lemma AnyOpensCons(fs: Filesystem, entries: seq<DirEntry>)
    requires entries != []
    ensures AnyOpens(fs, entries) <==> Opens(fs, entries[0]) || AnyOpens(fs, entries[1..])
  {
    var rest := entries[1..];
    assert forall i :: 0 <= i < |rest| ==> rest[i] == entries[i + 1];
    if AnyOpens(fs, entries) && !Opens(fs, entries[0]) {
      var i :| 0 <= i < |entries| && Opens(fs, entries[i]);
      assert Opens(fs, rest[i - 1]);
    }
  }

  /** A listing that completes was running before each of its entries. */
  lemma EntriesRunningBefore(target: OutputTarget, fs: Filesystem, entries: seq<DirEntry>, p: Progress)
    requires EntriesFrom(target, fs, entries, p).Running?
    ensures p.Running?
  {
    if p.Stopped? {
      EntriesStoppedStays(target, fs, entries, p.why, p.folder);
    }
  }

  /** A completed listing: the folder exists afterwards exactly when it
      existed or some entry opened a file, and its files are the old ones
      overwritten by the listing's writes. */
  lemma {:induction false} EntriesEffect(target: OutputTarget, fs: Filesystem, entries: seq<DirEntry>, st: FolderState)
    requires EntriesFrom(target, fs, entries, Running(st)).Running?
    ensures EntriesFrom(target, fs, entries, Running(st)).folder
         == FolderState(st.present || AnyOpens(fs, entries), st.files + Writes(fs, entries))
    decreases |entries|
  {
    if entries == [] {
      assert st.files + map[] == st.files;
    } else {
      var e := entries[0];
      var rest := entries[1..];
      var p := EntryStep(target, fs, e, st);
      assert EntriesFrom(target, fs, entries, Running(st)) == EntriesFrom(target, fs, rest, p);
      EntriesRunningBefore(target, fs, rest, p);
      EntryStepEffect(target, fs, e, st);
      EntriesEffect(target, fs, rest, p.folder);
      UnionAssoc(st.files, WriteOf(fs, e), Writes(fs, rest));
      AnyOpensCons(fs, entries);
    }
  }

  /** Whether a listing completes depends on the folder only through its
      existence, and an existing folder can only help. */
  lemma {:induction false} EntriesCompleteMonotone(target: OutputTarget, fs: Filesystem, entries: seq<DirEntry>, s: FolderState, t: FolderState)
    requires EntriesFrom(target, fs, entries, Running(s)).Running?
    requires s.present ==> t.present
    ensures EntriesFrom(target, fs, entries, Running(t)).Running?
    decreases |entries|
  {
    if entries != [] {
      var e := entries[0];
      var rest := entries[1..];
      var ps := EntryStep(target, fs, e, s);
      EntriesRunningBefore(target, fs, rest, ps);
      var pt := EntryStep(target, fs, e, t);
      assert pt.Running?;
      EntryStepEffect(target, fs, e, s);
      EntryStepEffect(target, fs, e, t);
      EntriesCompleteMonotone(target, fs, rest, ps.folder, pt.folder);
    }
  }

  // ---------------------------------------------------------------------
  // The partition table

  /** The state of a traversal: its progress and the offsets at which a
      file system has been opened, in order. */
  datatype Traversal = Traversal(progress: Progress, fsOpens: seq<int>)

  /** One partition: ignored unless NTFS; otherwise a file system is opened
      at its start offset, its event-log directory is opened and listed. */
  function PartitionStep(target: OutputTarget, img: DiskImage, part: Partition, st: FolderState, fsOpens: seq<int>): Traversal
  {
    if !IsNtfs(part) then Traversal(Running(st), fsOpens)
    else
      var fsOpens' := fsOpens + [part.start];
      if part.start !in img.filesystems then Traversal(Stopped(Panic(FilesystemOpenFailed(part.start)), st), fsOpens')
      else
        var fs := img.filesystems[part.start];
        if LOGS_DIR !in fs.dirs then Traversal(Stopped(Panic(LogsDirOpenFailed(part.start)), st), fsOpens')
        else Traversal(EntriesFrom(target, fs, fs.dirs[LOGS_DIR], Running(st)), fsOpens')
  }

  function ThenPartition(target: OutputTarget, img: DiskImage, t: Traversal, part: Partition): Traversal
  {
    match t.progress
    case Stopped(_, _) => t
    case Running(st) => PartitionStep(target, img, part, st, t.fsOpens)
  }

  /** The partitions, in table order, from traversal state `t`. There is no
      early exit after a match. */
  function PartitionsFrom(target: OutputTarget, img: DiskImage, parts: seq<Partition>, t: Traversal): Traversal
    decreases |parts|
  {
    if parts == [] then t
    else PartitionsFrom(target, img, parts[1..], ThenPartition(target, img, t, parts[0]))
  }

  /** The offset at which visiting one partition opens a file system, if
      any. */
  function NtfsHead(part: Partition): seq<int>
  {
    if IsNtfs(part) then [part.start] else []
  }

  /** The start offsets of the NTFS partitions, in table order. */
  function NtfsStarts(parts: seq<Partition>): seq<int>
    decreases |parts|
  {
    if parts == [] then [] else NtfsHead(parts[0]) + NtfsStarts(parts[1..])
  }

  lemma {:induction false} PartitionsStoppedStays(target: OutputTarget, img: DiskImage, parts: seq<Partition>, t: Traversal)
    requires t.progress.Stopped?
    ensures PartitionsFrom(target, img, parts, t) == t
    decreases |parts|
  {
    if parts != [] {
      PartitionsStoppedStays(target, img, parts[1..], t);
    }
  }

  /** Processing a partition table in two parts is processing it whole. */
  lemma {:induction false} PartitionsAppend(target: OutputTarget, img: DiskImage, a: seq<Partition>, b: seq<Partition>, t: Traversal)
    ensures PartitionsFrom(target, img, a + b, t) == PartitionsFrom(target, img, b, PartitionsFrom(target, img, a, t))
    decreases |a|
  {
    if a == [] {
      assert a + b == b;
    } else {
      assert (a + b)[0] == a[0];
      assert (a + b)[1..] == a[1..] + b;
      PartitionsAppend(target, img, a[1..], b, ThenPartition(target, img, t, a[0]));
    }
  }

  /** A traversal that completes was running before each partition. */
  lemma PartitionsRunningBefore(target: OutputTarget, img: DiskImage, parts: seq<Partition>, t: Traversal)
    requires PartitionsFrom(target, img, parts, t).progress.Running?
    ensures t.progress.Running?
  {
    if t.progress.Stopped? {
      PartitionsStoppedStays(target, img, parts, t);
    }
  }

  /** The file systems opened while visiting one partition: its start
      offset if it is NTFS, nothing otherwise. */
  lemma PartitionStepOpens(target: OutputTarget, img: DiskImage, part: Partition, t: Traversal)
    requires t.progress.Running?
    ensures ThenPartition(target, img, t, part).fsOpens == t.fsOpens + NtfsHead(part)
  {
  }

  /** Prefix order across one step: what lies between `before + head`
      and `before + head + rest` lies between `before` and
      `before + (head + rest)`. */
  lemma PrefixBetweenStep(before: seq<int>, head: seq<int>, rest: seq<int>, r: seq<int>)
    requires before + head <= r <= (before + head) + rest
    ensures before <= r <= before + (head + rest)
  {
    assert (before + head) + rest == before + (head + rest);
    assert r[..|before|] == (before + head)[..|before|] == before;
  }

  /** File systems are opened only at NTFS partitions, at their start
      offsets, once each and in table order: the offsets a traversal adds
      are a prefix of the NTFS start offsets. */
  lemma {:induction false} OpenedFollowsNtfsOrder(target: OutputTarget, img: DiskImage, parts: seq<Partition>, t: Traversal)
    ensures t.fsOpens <= PartitionsFrom(target, img, parts, t).fsOpens <= t.fsOpens + NtfsStarts(parts)
    decreases |parts|
  {
    if parts == [] || t.progress.Stopped? {
      if parts != [] {
        PartitionsStoppedStays(target, img, parts, t);
      }
    } else {
      var t1 := ThenPartition(target, img, t, parts[0]);
      assert PartitionsFrom(target, img, parts, t) == PartitionsFrom(target, img, parts[1..], t1);
      PartitionStepOpens(target, img, parts[0], t);
      OpenedFollowsNtfsOrder(target, img, parts[1..], t1);
      assert NtfsStarts(parts) == NtfsHead(parts[0]) + NtfsStarts(parts[1..]);
      PrefixBetweenStep(t.fsOpens, NtfsHead(parts[0]), NtfsStarts(parts[1..]), PartitionsFrom(target, img, parts, t).fsOpens);
    }
  }

  /** No early exit: a traversal that completes has opened a file system at
      every NTFS partition, in table order, and nowhere else. */
  lemma {:induction false} CompletedOpensAllNtfs(target: OutputTarget, img: DiskImage, parts: seq<Partition>, t: Traversal)
    requires PartitionsFrom(target, img, parts, t).progress.Running?
    ensures PartitionsFrom(target, img, parts, t).fsOpens == t.fsOpens + NtfsStarts(parts)
    decreases |parts|
  {
    if parts == [] {
      assert t.fsOpens + [] == t.fsOpens;
    } else {
      PartitionsRunningBefore(target, img, parts, t);
      var t1 := ThenPartition(target, img, t, parts[0]);
      assert PartitionsFrom(target, img, parts, t) == PartitionsFrom(target, img, parts[1..], t1);
      PartitionStepOpens(target, img, parts[0], t);
      CompletedOpensAllNtfs(target, img, parts[1..], t1);
      var head, rest := NtfsHead(parts[0]), NtfsStarts(parts[1..]);
      assert NtfsStarts(parts) == head + rest;
      assert (t.fsOpens + head) + rest == t.fsOpens + (head + rest);
    }
  }

  /** The file system a partition's entries are drawn from, when it is an
      NTFS partition whose file system and event-log directory open. */
  predicate Listed(img: DiskImage, part: Partition)
  {
    IsNtfs(part) && part.start in img.filesystems && LOGS_DIR in img.filesystems[part.start].dirs
  }

  /** The files a partition table writes, a later partition replacing what
      an earlier one wrote under the same name. */
  function PartitionsWrites(img: DiskImage, parts: seq<Partition>): map<string, seq<byte>>
    decreases |parts|
  {
    if parts == [] then map[]
    else PartitionWrites(img, parts[0]) + PartitionsWrites(img, parts[1..])
  }

  /** Some listed partition has an entry that opens a file to extract. */
  predicate PartitionsOpen(img: DiskImage, parts: seq<Partition>)
  {
    exists i :: 0 <= i < |parts| && PartitionOpens(img, parts[i])
  }

  /** The files one partition writes. */
  function PartitionWrites(img: DiskImage, part: Partition): map<string, seq<byte>>
  {
    if Listed(img, part) then
      var fs := img.filesystems[part.start]; Writes(fs, fs.dirs[LOGS_DIR])
    else map[]
  }

  /** One partition has an entry that opens a file to extract. */
  predicate PartitionOpens(img: DiskImage, part: Partition)
  {
    Listed(img, part) && AnyOpens(img.filesystems[part.start], img.filesystems[part.start].dirs[LOGS_DIR])
  }

  lemma PartitionsOpenCons(img: DiskImage, parts: seq<Partition>)
    requires parts != []
    ensures PartitionsOpen(img, parts) <==> PartitionOpens(img, parts[0]) || PartitionsOpen(img, parts[1..])
  {
    var rest := parts[1..];
    assert forall i :: 0 <= i < |rest| ==> rest[i] == parts[i + 1];
    if PartitionsOpen(img, parts) && !PartitionOpens(img, parts[0]) {
      var i :| 0 <= i < |parts| && PartitionOpens(img, parts[i]);
      assert PartitionOpens(img, rest[i - 1]);
    }
  }

  /** A completed partition step: the folder exists afterwards exactly when
      it existed or one of the partition's entries opened a file, and its
      files are the old ones overwritten by the partition's writes. */
  lemma PartitionStepEffect(target: OutputTarget, img: DiskImage, part: Partition, st: FolderState, fsOpens: seq<int>)
    requires PartitionStep(target, img, part, st, fsOpens).progress.Running?
    ensures PartitionStep(target, img, part, st, fsOpens).progress.folder
         == FolderState(st.present || PartitionOpens(img, part), st.files + PartitionWrites(img, part))
  {
    if Listed(img, part) {
      var fs := img.filesystems[part.start];
      EntriesEffect(target, fs, fs.dirs[LOGS_DIR], st);
    } else {
      assert st.files + map[] == st.files;
    }
  }

  /** A completed traversal: the folder exists afterwards exactly when it
      existed or some entry opened a file, and its files are the old ones
      overwritten by the traversal's writes. */
  lemma {:induction false} PartitionsEffect(target: OutputTarget, img: DiskImage, parts: seq<Partition>, st: FolderState, fsOpens: seq<int>)
    requires PartitionsFrom(target, img, parts, Traversal(Running(st), fsOpens)).progress.Running?
    ensures PartitionsFrom(target, img, parts, Traversal(Running(st), fsOpens)).progress.folder
         == FolderState(st.present || PartitionsOpen(img, parts), st.files + PartitionsWrites(img, parts))
    decreases |parts|
  {
    if parts == [] {
      assert st.files + map[] == st.files;
    } else {
      var part := parts[0];
      var rest := parts[1..];
      var t1 := PartitionStep(target, img, part, st, fsOpens);
      PartitionsRunningBefore(target, img, rest, t1);
      PartitionStepEffect(target, img, part, st, fsOpens);
      PartitionsEffect(target, img, rest, t1.progress.folder, t1.fsOpens);
      UnionAssoc(st.files, PartitionWrites(img, part), PartitionsWrites(img, rest));
      PartitionsOpenCons(img, parts);
    }
  }

  /** Whether a traversal completes depends on the folder only through its
      existence, and an existing folder can only help. */
  lemma {:induction false} PartitionsCompleteMonotone(target: OutputTarget, img: DiskImage, parts: seq<Partition>,
                                                      s: FolderState, t: FolderState, fsOpens: seq<int>)
    requires PartitionsFrom(target, img, parts, Traversal(Running(s), fsOpens)).progress.Running?
    requires s.present ==> t.present
    ensures PartitionsFrom(target, img, parts, Traversal(Running(t), fsOpens)).progress.Running?
    ensures PartitionsFrom(target, img, parts, Traversal(Running(t), fsOpens)).fsOpens
         == PartitionsFrom(target, img, parts, Traversal(Running(s), fsOpens)).fsOpens
    decreases |parts|
  {
    if parts != [] {
      var part := parts[0];
      var ts := PartitionStep(target, img, part, s, fsOpens);
      var tt := PartitionStep(target, img, part, t, fsOpens);
      PartitionsRunningBefore(target, img, parts[1..], ts);
      if Listed(img, part) {
        var fs := img.filesystems[part.start];
        EntriesCompleteMonotone(target, fs, fs.dirs[LOGS_DIR], s, t);
      }
      PartitionStepEffect(target, img, part, s, fsOpens);
      PartitionStepEffect(target, img, part, t, fsOpens);
      PartitionsCompleteMonotone(target, img, parts[1..], ts.progress.folder, tt.progress.folder, ts.fsOpens);
    }
  }

  // ---------------------------------------------------------------------
  // The whole run

  /** A run: resolve the source (fatal on error), find the volume system
      at offset 0 (fatal if none), then traverse the partition table. */
  function ExtractionRun(target: OutputTarget, descriptor: string, env: Sources.Environment, img: DiskImage, st: FolderState): Traversal
  {
    match Sources.Resolve(descriptor, env)
    case Err(error) => Traversal(Stopped(Panic(SourceFailed(error)), st), [])
    case Ok(_) =>
      match img.partitions
      case None => Traversal(Stopped(Panic(NoVolumeSystem), st), [])
      case Some(parts) => PartitionsFrom(target, img, parts, Traversal(Running(st), []))
  }

  /** Idempotence: a run that completes, repeated on the folder it left,
      completes again, opens the same file systems and leaves the folder
      exactly as it was: files are overwritten, never appended to or
      duplicated. */
  lemma ExtractionIdempotent(target: OutputTarget, descriptor: string, env: Sources.Environment, img: DiskImage, st: FolderState)
    requires ExtractionRun(target, descriptor, env, img, st).progress.Running?
    ensures var first := ExtractionRun(target, descriptor, env, img, st);
      ExtractionRun(target, descriptor, env, img, first.progress.folder) == first
  {
    var parts := img.partitions.value;
    var first := ExtractionRun(target, descriptor, env, img, st);
    var st1 := first.progress.folder;
    PartitionsEffect(target, img, parts, st, []);
    PartitionsCompleteMonotone(target, img, parts, st, st1, []);
    PartitionsEffect(target, img, parts, st1, []);
    var w := PartitionsWrites(img, parts);
    assert (st.files + w) + w == st.files + w;
  }

  /** What any run, completed or stopped, does to the folder: it never
      removes the folder or a file, every file it adds has a name that
      passes the entry filter, and a well-formed folder stays well formed. */
  predicate Extends(before: FolderState, after: FolderState)
  {
    (before.present ==> after.present)
    && (FolderWellFormed(before) ==> FolderWellFormed(after))
    && before.files.Keys <= after.files.Keys
    && forall name :: name in after.files && name !in before.files ==> IsEvtxName(name)
  }

  lemma EntryStepExtends(target: OutputTarget, fs: Filesystem, e: DirEntry, st: FolderState)
    ensures Extends(st, EntryStep(target, fs, e, st).folder)
  {
  }

  lemma {:induction false} EntriesExtend(target: OutputTarget, fs: Filesystem, entries: seq<DirEntry>, p: Progress)
    ensures Extends(p.folder, EntriesFrom(target, fs, entries, p).folder)
    decreases |entries|
  {
    if entries != [] {
      var p1 := ThenEntry(target, fs, p, entries[0]);
      if p.Running? {
        EntryStepExtends(target, fs, entries[0], p.folder);
      }
      EntriesExtend(target, fs, entries[1..], p1);
    }
  }

  lemma {:induction false} PartitionsExtend(target: OutputTarget, img: DiskImage, parts: seq<Partition>, t: Traversal)
    ensures Extends(t.progress.folder, PartitionsFrom(target, img, parts, t).progress.folder)
    decreases |parts|
  {
    if parts != [] {
      var t1 := ThenPartition(target, img, t, parts[0]);
      if t.progress.Running? && Listed(img, parts[0]) {
        var fs := img.filesystems[parts[0].start];
        EntriesExtend(target, fs, fs.dirs[LOGS_DIR], t.progress);
      }
      PartitionsExtend(target, img, parts[1..], t1);
    }
  }

  /** Every run, however it ends, only adds to the folder, and only files
      whose names pass the entry filter. */
  lemma ExtractionExtends(target: OutputTarget, descriptor: string, env: Sources.Environment, img: DiskImage, st: FolderState)
    ensures Extends(st, ExtractionRun(target, descriptor, env, img, st).progress.folder)
  {
    if Sources.Resolve(descriptor, env).Ok? && img.partitions.Some? {
      PartitionsExtend(target, img, img.partitions.value, Traversal(Running(st), []));
    }
  }

  /** Truncation: of two matching entries with the same name, the second
      replaces what the first wrote. */
  lemma LaterEntryOverwrites(target: OutputTarget, fs: Filesystem, e1: DirEntry, e2: DirEntry, st: FolderState)
    requires Opens(fs, e1) && Opens(fs, e2) && e1.name == e2.name
    requires fs.files[e2.inode].attr.Some?
    requires EntriesFrom(target, fs, [e1, e2], Running(st)).Running?
    ensures var name := e2.name.value;
      var r := EntriesFrom(target, fs, [e1, e2], Running(st)).folder;
      name in r.files && r.files[name] == CopyOf(fs.files[e2.inode].attr.value).data
  {
    EntriesEffect(target, fs, [e1, e2], st);
    assert [e1, e2][1..] == [e2];
    assert [e2][1..] == [];
    assert Writes(fs, [e2]) == WriteOf(fs, e2) + map[];
    assert Writes(fs, [e1, e2]) == WriteOf(fs, e1) + Writes(fs, [e2]);
  }
}
