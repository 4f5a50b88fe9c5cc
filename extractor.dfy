/** The extractor's main procedure, over an output folder object that it
    updates in place: resolve the source, walk the partition table, list the
    event-log directory of every NTFS file system, and copy every matching
    entry into the folder. Each method is proved to do what the functions of
    module Extraction say. */
module Extractor {
  import opened Wrappers
  import opened Text
  import opened Image
  import opened Copy
  import opened Extraction
  import Sources

  /** The output folder: whether it exists on disk, and its files by name. */
  class OutputFolder {
    const target: OutputTarget
    var present: bool
    var files: map<string, seq<byte>>

    function State(): FolderState
      reads this
    {
      FolderState(present, files)
    }

    ghost predicate Valid()
      reads this
    {
      FolderWellFormed(State())
    }

    constructor (target: OutputTarget, initial: FolderState)
      requires FolderWellFormed(initial)
      ensures Valid() && this.target == target && State() == initial
    {
      this.target := target;
      present := initial.present;
      files := initial.files;
    }

    /** Create the folder, with its ancestors, unless it exists already. */
    method CreateFolderIfMissing() returns (stop: Option<Stop>)
      requires Valid()
      modifies this
      ensures Valid()
      ensures AsProgress(stop, State()) == EnsureStep(target, old(State()))
    {
      if !present {
        if !target.dirCreatable {
          return Some(Panic(CreateDirFailed));
        }
        present := true;
      }
      return None;
    }

    /** Append a slice to the file `name`. */
    method Write(name: string, chunk: seq<byte>)
      requires name in files
      modifies this
      ensures present == old(present)
      ensures files == old(files)[name := old(files)[name] + chunk]
    {
      files := files[name := files[name] + chunk];
    }

    /** Create (truncating) the file `name` and run the copy loop on `attr`:
        read into a 1024-byte buffer, write what was read, advance the
        offset by the bytes read, until the offset reaches the declared
        size. */
    method CopyAttribute(name: string, attr: Attribute) returns (outcome: CopyOutcome)
      requires present
      modifies this
      ensures outcome == CopyOf(attr)
      ensures present && files == old(files)[name := outcome.data]
    {
      files := files[name := []];
      var written: seq<byte> := [];
      var offset := 0;
      var k := 0;
      CopyingStart(attr);
      while offset < attr.size && k < |attr.results| && attr.results[k].Bytes?
        invariant Copying(attr, k, offset, written)
        invariant present && files == old(files)[name := written]
        decreases |attr.results| - k
      {
        var chunk := attr.results[k].chunk;
        CopyingAdvance(attr, k, offset, written);
        Write(name, chunk);
        written := written + chunk;
        offset := offset + |chunk|;
        k := k + 1;
      }
      CopyingExit(attr, k, offset, written);
      if offset >= attr.size {
        outcome := Copied(written, k);
      } else if k == |attr.results| {
        // End of stream: every further read returns zero bytes, so the
        // offset stays below the size and the source's loop never ends.
        outcome := Stalled(written, offset);
      } else {
        outcome := ReadFailed(written, offset);
      }
    }

    /** One directory entry: skip it when it has no name, when its
        lowercased name does not end in ".evtx", or when its inode does not
        open; otherwise ensure the folder, fetch the default attribute (skip
        on failure), create the output file under the entry's own name and
        copy the attribute into it. */
    method ExtractEntry(fs: Filesystem, e: DirEntry) returns (stop: Option<Stop>)
      requires Valid()
      modifies this
      ensures Valid()
      ensures AsProgress(stop, State()) == EntryStep(target, fs, e, old(State()))
    {
      if e.name.None? {
        return None;
      }
      var name := e.name.value;
      if !EndsWith(Lower(name), EVTX_SUFFIX) {
        return None;
      }
      if e.inode !in fs.files {
        return None;
      }
      var meta := fs.files[e.inode];
      stop := CreateFolderIfMissing();
      if stop.Some? {
        return;
      }
      if meta.attr.None? {
        return None;
      }
      if !target.filesCreatable {
        return Some(Panic(CreateFileFailed(name)));
      }
      var outcome := CopyAttribute(name, meta.attr.value);
      match outcome {
        case Copied(_, _) => stop := None;
        case ReadFailed(_, at) => stop := Some(Panic(ReadFailedAt(name, at)));
        case Stalled(_, at) => stop := Some(Spins(name, at));
      }
    }

    /** The entries of a directory listing, in order, until one stops the
        run. */
    method ExtractEntries(fs: Filesystem, entries: seq<DirEntry>) returns (stop: Option<Stop>)
      requires Valid()
      modifies this
      ensures Valid()
      ensures AsProgress(stop, State()) == EntriesFrom(target, fs, entries, Running(old(State())))
    {
      for i := 0 to |entries|
        invariant Valid()
        invariant Running(State()) == EntriesFrom(target, fs, entries[..i], Running(old(State())))
      {
        stop := ExtractEntry(fs, entries[i]);
        assert entries[..i + 1] == entries[..i] + [entries[i]];
        EntriesAppend(target, fs, entries[..i], [entries[i]], Running(old(State())));
        assert [entries[i]][1..] == [];
        if stop.Some? {
          assert entries == entries[..i + 1] + entries[i + 1..];
          EntriesAppend(target, fs, entries[..i + 1], entries[i + 1..], Running(old(State())));
          EntriesStoppedStays(target, fs, entries[i + 1..], stop.value, State());
          return;
        }
      }
      assert entries[..|entries|] == entries;
      return None;
    }

    /** The partition table, in order: at every NTFS partition open the
        file system at its start offset and extract its event-log
        directory; no early exit after a match. Returns the offsets at which
        file systems were opened. */
    method ExtractPartitions(img: DiskImage, parts: seq<Partition>) returns (stop: Option<Stop>, fsOpens: seq<int>)
      requires Valid()
      modifies this
      ensures Valid()
      ensures Traversal(AsProgress(stop, State()), fsOpens)
           == PartitionsFrom(target, img, parts, Traversal(Running(old(State())), []))
    {
      fsOpens := [];
      for i := 0 to |parts|
        invariant Valid()
        invariant Traversal(Running(State()), fsOpens)
               == PartitionsFrom(target, img, parts[..i], Traversal(Running(old(State())), []))
      {
        var part := parts[i];
        assert parts[..i + 1] == parts[..i] + [part];
        PartitionsAppend(target, img, parts[..i], [part], Traversal(Running(old(State())), []));
        assert [part][1..] == [];
        if Contains(part.desc, NTFS_MARKER) {
          fsOpens := fsOpens + [part.start];
          if part.start !in img.filesystems {
            stop := Some(Panic(FilesystemOpenFailed(part.start)));
          } else {
            var fs := img.filesystems[part.start];
            if LOGS_DIR !in fs.dirs {
              stop := Some(Panic(LogsDirOpenFailed(part.start)));
            } else {
              stop := ExtractEntries(fs, fs.dirs[LOGS_DIR]);
            }
          }
          if stop.Some? {
            assert parts == parts[..i + 1] + parts[i + 1..];
            PartitionsAppend(target, img, parts[..i + 1], parts[i + 1..], Traversal(Running(old(State())), []));
            PartitionsStoppedStays(target, img, parts[i + 1..], Traversal(AsProgress(stop, State()), fsOpens));
            return;
          }
        }
      }
      assert parts[..|parts|] == parts;
      stop := None;
    }

    /** The extractor's main procedure: resolve the source descriptor (a
        failure is fatal), find the volume system at offset 0 (fatal if
        none), then extract from the partition table. */
    method Run(descriptor: string, env: Sources.Environment, img: DiskImage) returns (stop: Option<Stop>, fsOpens: seq<int>)
      requires Valid()
      modifies this
      ensures Valid()
      ensures Traversal(AsProgress(stop, State()), fsOpens) == ExtractionRun(target, descriptor, env, img, old(State()))
    {
      var source := Sources.Resolve(descriptor, env);
      if source.Err? {
        return Some(Panic(SourceFailed(source.error))), [];
      }
      if img.partitions.None? {
        return Some(Panic(NoVolumeSystem)), [];
      }
      stop, fsOpens := ExtractPartitions(img, img.partitions.value);
    }
  }
}
