/** The source resolver: a source descriptor names either a cloud snapshot or
    a local file (or block device). Resolution yields the byte source and its
    total size as a signed 64-bit value, or a fatal error. The network
    handshake, the disk cache and the file system are abstracted into an
    `Environment` value that says what each lookup returns. */
module Sources {
  import opened Text
  import opened Wrappers

  const U64_LIMIT: int := 0x1_0000_0000_0000_0000
  const I64_MIN: int := -0x8000_0000_0000_0000
  const I64_MAX: int := 0x7FFF_FFFF_FFFF_FFFF

  type u64 = x: int | 0 <= x < U64_LIMIT
  type i64 = x: int | I64_MIN <= x <= I64_MAX

  /** The descriptor prefix that selects the snapshot path. */
  const SNAPSHOT_PREFIX: string := "snap"

  datatype SourceKind = SnapshotSource | FileSource

  datatype Result<T> = Ok(value: T) | Err(error: SourceError)

  datatype SourceError =
    | SnapshotUnresolved      // the snapshot lookup failed
    | VolumeSizeTooLarge      // the snapshot's u64 size does not fit in i64
    | SnapshotHandleFailed    // obtaining the cached handle failed (a panic in the source)
    | FileOpenFailed          // the local path could not be opened
    | MetadataFailed          // the local path's metadata could not be read
    | FileSizeTooLarge        // the file's u64 length does not fit in i64

  /** What the snapshot service reports for one snapshot identifier. */
  datatype Snapshot = Snapshot(volumeSize: u64, handleAvailable: bool)

  /** What the local file system reports for one path that can be opened. */
  datatype LocalFile = LocalFile(length: Option<u64>)

  /** The outside world as the resolver sees it: snapshot identifiers that
      resolve, and local paths that open. */
  datatype Environment = Environment(snapshots: map<string, Snapshot>, files: map<string, LocalFile>)

  /** The resolved byte source: which kind it is and its total size. */
  datatype ByteSource = ByteSource(kind: SourceKind, descriptor: string, size: i64)

  /** Source-kind dispatch: the "snap" prefix selects the snapshot path and
      every other descriptor the local-file path. */
  function Dispatch(descriptor: string): (k: SourceKind)
    ensures k == SnapshotSource <==> exists rest :: descriptor == SNAPSHOT_PREFIX + rest
  {
    if StartsWith(descriptor, SNAPSHOT_PREFIX) then
      assert descriptor == SNAPSHOT_PREFIX + descriptor[4..];
      SnapshotSource
    else
      forall rest ensures StartsWith(SNAPSHOT_PREFIX + rest, SNAPSHOT_PREFIX) {
        assert (SNAPSHOT_PREFIX + rest)[..4] == SNAPSHOT_PREFIX;
      }
      FileSource
  }

  /** Rust's checked conversion `u64::try_into::<i64>()`. */
  function TryIntoI64(n: u64): (r: Option<i64>)
    ensures r.Some? <==> n <= I64_MAX
    ensures r.Some? ==> r.value == n
  {
    if n <= I64_MAX then Some(n) else None
  }

  /** The snapshot constructor: look the identifier up, convert the volume
      size to i64, then obtain the cache-backed handle. */
  function BoxFromSnapshot(descriptor: string, env: Environment): (r: Result<ByteSource>)
    ensures r.Ok? <==> descriptor in env.snapshots && env.snapshots[descriptor].volumeSize <= I64_MAX
                       && env.snapshots[descriptor].handleAvailable
    ensures r.Ok? ==> r.value == ByteSource(SnapshotSource, descriptor, env.snapshots[descriptor].volumeSize)
    ensures r == Err(VolumeSizeTooLarge) <==> descriptor in env.snapshots && env.snapshots[descriptor].volumeSize > I64_MAX
  {
    if descriptor !in env.snapshots then Err(SnapshotUnresolved)
    else
      var snapshot := env.snapshots[descriptor];
      match TryIntoI64(snapshot.volumeSize)
      case None => Err(VolumeSizeTooLarge)
      case Some(size) =>
        if !snapshot.handleAvailable then Err(SnapshotHandleFailed)
        else Ok(ByteSource(SnapshotSource, descriptor, size))
  }

  /** The file constructor: open the path, read its length from the
      metadata, convert the length to i64. */
  function BoxFromFile(descriptor: string, env: Environment): (r: Result<ByteSource>)
    ensures r.Ok? <==> descriptor in env.files && env.files[descriptor].length.Some?
                       && env.files[descriptor].length.value <= I64_MAX
    ensures r.Ok? ==> r.value == ByteSource(FileSource, descriptor, env.files[descriptor].length.value)
    ensures r == Err(FileSizeTooLarge) <==> descriptor in env.files && env.files[descriptor].length.Some?
                                            && env.files[descriptor].length.value > I64_MAX
  {
    if descriptor !in env.files then Err(FileOpenFailed)
    else match env.files[descriptor].length
      case None => Err(MetadataFailed)
      case Some(length) =>
        match TryIntoI64(length)
        case None => Err(FileSizeTooLarge)
        case Some(size) => Ok(ByteSource(FileSource, descriptor, size))
  }

  /** The resolver: dispatch on the descriptor and run exactly one of the
      two constructors. An error from that constructor is final. */
  function Resolve(descriptor: string, env: Environment): (r: Result<ByteSource>)
    ensures r.Ok? ==> r.value.kind == Dispatch(descriptor) && r.value.descriptor == descriptor
  {
    match Dispatch(descriptor)
    case SnapshotSource => BoxFromSnapshot(descriptor, env)
    case FileSource => BoxFromFile(descriptor, env)
  }

  /** No fallback: a snapshot descriptor is resolved from the snapshot
      service alone, so whatever the local file system holds is irrelevant,
      and a local descriptor never consults the snapshot service. */
  lemma ResolveNoFallback(descriptor: string, env: Environment, other: Environment)
    ensures Dispatch(descriptor) == SnapshotSource && env.snapshots == other.snapshots
            ==> Resolve(descriptor, env) == Resolve(descriptor, other)
    ensures Dispatch(descriptor) == FileSource && env.files == other.files
            ==> Resolve(descriptor, env) == Resolve(descriptor, other)
  {
  }

  /** Both constructors fail on an oversized length in the same way, exactly
      when that length exceeds the i64 maximum. */
  lemma ResolveSizeOverflow(descriptor: string, env: Environment, size: u64)
    requires Dispatch(descriptor) == SnapshotSource ==> descriptor in env.snapshots && env.snapshots[descriptor].volumeSize == size
    requires Dispatch(descriptor) == FileSource ==> descriptor in env.files && env.files[descriptor].length == Some(size)
    ensures Resolve(descriptor, env).Err? && Resolve(descriptor, env).error in {VolumeSizeTooLarge, FileSizeTooLarge}
            <==> size > I64_MAX
    ensures Resolve(descriptor, env).Ok? ==> Resolve(descriptor, env).value.size == size
  {
  }
}
