/** The disk image as the extractor's collaborators (the volume and file
    system parser) present it. None of the on-disk formats is modelled: each
    parser call is represented by the value it would return, and a call that
    can fail by an absent value. */
module Image {
  import opened Wrappers

  type byte = b: int | 0 <= b < 256

  /** The size of the buffer handed to each read of an entry's content. */
  const BUFFER_SIZE: nat := 1024

  /** What one read fills: never more than the buffer holds. */
  type Chunk = s: seq<byte> | |s| <= BUFFER_SIZE

  /** The result of one read of a content stream. */
  datatype ReadResult = Bytes(chunk: Chunk) | ReadError

  /** The default data attribute of a file: its declared size and the
      results of its successive reads. Once `results` is used up, every further
      read returns zero bytes (end of stream). */
  datatype Attribute = Attribute(size: int, results: seq<ReadResult>)

  /** A file opened by inode. `attr` is absent when the default attribute
      cannot be obtained. */
  datatype FileMeta = FileMeta(attr: Option<Attribute>)

  /** One entry of a directory listing: a name, when one can be retrieved,
      and the inode it refers to. */
  datatype DirEntry = DirEntry(name: Option<string>, inode: nat)

  /** A mounted file system: the listings of the directories that open, by
      path, and the files that open, by inode. A path or inode that is
      absent fails to open. */
  datatype Filesystem = Filesystem(dirs: map<string, seq<DirEntry>>, files: map<nat, FileMeta>)

  /** One entry of the partition table. */
  datatype Partition = Partition(desc: string, start: int)

  /** The image: the partition table, absent when no volume system is found
      at offset 0, and the file systems that open, by byte offset. */
  datatype DiskImage = DiskImage(partitions: Option<seq<Partition>>, filesystems: map<int, Filesystem>)
}
