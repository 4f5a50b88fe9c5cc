/** The chunked copy of one entry's content stream. The loop starts at offset
    0, reads into a 1024-byte buffer, writes what was read, advances the
    offset by the bytes actually read, and stops as soon as the offset
    reaches the declared size. This module gives the loop's outcome as a
    function of the declared size and the reader's successive results, and
    proves what that outcome is. */
module Copy {
  import opened Image

  /** How the copy loop ends, with the bytes it wrote before that.
      - `Copied`: the offset reached the declared size after `readsUsed` reads.
      - `ReadFailed`: a read reported an error at `offset`; the source panics.
      - `Stalled`: the reader reached end of stream with the offset still
        below the declared size; every further read returns zero bytes, so
        the source's loop never ends. */
  datatype CopyOutcome =
    | Copied(data: seq<byte>, readsUsed: nat)
    | ReadFailed(data: seq<byte>, offset: int)
    | Stalled(data: seq<byte>, offset: int)

  /** The outcome `o` of the rest of the loop, after `k` earlier reads that
      wrote `written`. */
  function After(written: seq<byte>, k: nat, o: CopyOutcome): CopyOutcome
  {
    match o
    case Copied(data, n) => Copied(written + data, k + n)
    case ReadFailed(data, offset) => ReadFailed(written + data, offset)
    case Stalled(data, offset) => Stalled(written + data, offset)
  }

  /** The copy loop entered at `offset`, with `results` the reader's remaining
      results. */
  function CopyFrom(size: int, results: seq<ReadResult>, offset: int): CopyOutcome
    decreases |results|
  {
    if offset >= size then Copied([], 0)
    else if results == [] then Stalled([], offset)
    else match results[0]
      case ReadError => ReadFailed([], offset)
      case Bytes(chunk) => After(chunk, 1, CopyFrom(size, results[1..], offset + |chunk|))
  }

  /** The copy of one attribute: the loop entered at offset 0. */
  function CopyOf(attr: Attribute): CopyOutcome
  {
    CopyFrom(attr.size, attr.results, 0)
  }

  /** Every read in `results` returned bytes. */
  predicate AllBytes(results: seq<ReadResult>)
  {
    forall i :: 0 <= i < |results| ==> results[i].Bytes?
  }

  /** The concatenation of the chunks of `results`, in order. */
  function Flatten(results: seq<ReadResult>): seq<byte>
  {
    if results == [] then []
    else (if results[0].Bytes? then results[0].chunk else []) + Flatten(results[1..])
  }

  lemma {:induction false} FlattenSnoc(results: seq<ReadResult>, chunk: Chunk)
    ensures Flatten(results + [Bytes(chunk)]) == Flatten(results) + chunk
  {
    if results == [] {
      assert [Bytes(chunk)][1..] == [];
    } else {
      assert (results + [Bytes(chunk)])[1..] == results[1..] + [Bytes(chunk)];
      FlattenSnoc(results[1..], chunk);
    }
  }

  /** One step of the loop, seen from its k-th read: the chunk returned by
      that read is written, and the loop goes on from the next offset. */
  lemma CopyLoopStep(size: int, results: seq<ReadResult>, k: nat, offset: int, written: seq<byte>)
    requires k < |results| && results[k].Bytes? && offset < size
    ensures After(written, k, CopyFrom(size, results[k..], offset))
         == After(written + results[k].chunk, k + 1, CopyFrom(size, results[k + 1..], offset + |results[k].chunk|))
  {
    assert results[k..][1..] == results[k + 1..];
    var chunk := results[k].chunk;
    var o := CopyFrom(size, results[k + 1..], offset + |chunk|);
    match o
    case Copied(data, n) =>
      assert written + (chunk + data) == (written + chunk) + data;
    case ReadFailed(data, _) =>
      assert written + (chunk + data) == (written + chunk) + data;
    case Stalled(data, _) =>
      assert written + (chunk + data) == (written + chunk) + data;
  }

  /** The copy loop's invariant after `k` reads, all of which returned
      bytes: the data written is their concatenation, the offset is its
      length, and the whole outcome is that data followed by the outcome of
      the rest of the loop. */
  predicate Copying(attr: Attribute, k: nat, offset: int, written: seq<byte>)
  {
    k <= |attr.results| && written == Flatten(attr.results[..k]) && offset == |written|
    && CopyOf(attr) == After(written, k, CopyFrom(attr.size, attr.results[k..], offset))
  }

  /** The loop starts with nothing read and nothing written. */
  lemma CopyingStart(attr: Attribute)
    ensures Copying(attr, 0, 0, [])
  {
    assert attr.results[0..] == attr.results;
    match CopyOf(attr)
    case Copied(data, _) => assert [] + data == data;
    case ReadFailed(data, _) => assert [] + data == data;
    case Stalled(data, _) => assert [] + data == data;
  }

  /** A read that returned bytes below the declared size keeps the
      invariant: its chunk is written and the offset advances by its
      length. */
  lemma CopyingAdvance(attr: Attribute, k: nat, offset: int, written: seq<byte>)
    requires Copying(attr, k, offset, written)
    requires k < |attr.results| && attr.results[k].Bytes? && offset < attr.size
    ensures Copying(attr, k + 1, offset + |attr.results[k].chunk|, written + attr.results[k].chunk)
  {
    var results := attr.results;
    CopyLoopStep(attr.size, results, k, offset, written);
    assert results[..k + 1] == results[..k] + [Bytes(results[k].chunk)];
    FlattenSnoc(results[..k], results[k].chunk);
  }

  /** The loop's outcome at each of its exits: the offset reached the size,
      the reader is used up, or read k failed. */
  lemma CopyingExit(attr: Attribute, k: nat, offset: int, written: seq<byte>)
    requires Copying(attr, k, offset, written)
    ensures offset >= attr.size ==> CopyOf(attr) == Copied(written, k)
    ensures offset < attr.size && k == |attr.results| ==> CopyOf(attr) == Stalled(written, offset)
    ensures offset < attr.size && k < |attr.results| && attr.results[k].ReadError? ==> CopyOf(attr) == ReadFailed(written, offset)
  {
    assert written + [] == written;
  }

  /** Dropping the first read of a prefix is taking the prefix of the rest. */
  lemma PrefixTail(results: seq<ReadResult>, j: nat)
    requires j < |results|
    ensures results[..j + 1][1..] == results[1..][..j]
  {
  }

  /** A `Copied` outcome after n reads: the first n reads all returned
      bytes, the data written is their concatenation, and the offset reached
      the declared size with the n-th read and with none before it. */
  lemma {:induction false} CopiedMeaning(size: int, results: seq<ReadResult>, offset: int)
    requires CopyFrom(size, results, offset).Copied?
    ensures var o := CopyFrom(size, results, offset);
      o.readsUsed <= |results| && AllBytes(results[..o.readsUsed]) && o.data == Flatten(results[..o.readsUsed])
      && offset + |o.data| >= size
      && forall j :: 0 <= j < o.readsUsed ==> offset + |Flatten(results[..j])| < size
    decreases |results|
  {
    if offset < size {
      var chunk := results[0].chunk;
      var rest := results[1..];
      CopiedMeaning(size, rest, offset + |chunk|);
      var n := CopyFrom(size, rest, offset + |chunk|).readsUsed;
      PrefixTail(results, n);
      forall j | 0 <= j < n + 1 ensures offset + |Flatten(results[..j])| < size {
        if j > 0 {
          PrefixTail(results, j - 1);
        }
      }
    }
  }

  /** A `ReadFailed` outcome: some read k reported an error, every read
      before it returned bytes, the data written is their concatenation and
      the offset was still below the declared size. */
  lemma {:induction false} ReadFailedMeaning(size: int, results: seq<ReadResult>, offset: int)
    requires CopyFrom(size, results, offset).ReadFailed?
    ensures var o := CopyFrom(size, results, offset);
      o.offset == offset + |o.data| && o.offset < size
      && exists k :: 0 <= k < |results| && results[k] == ReadError && AllBytes(results[..k]) && o.data == Flatten(results[..k])
    decreases |results|
  {
    if results[0].ReadError? {
      assert results[..0] == [];
    } else {
      var chunk := results[0].chunk;
      var rest := results[1..];
      ReadFailedMeaning(size, rest, offset + |chunk|);
      var data := CopyFrom(size, rest, offset + |chunk|).data;
      var k :| 0 <= k < |rest| && rest[k] == ReadError && AllBytes(rest[..k]) && data == Flatten(rest[..k]);
      PrefixTail(results, k);
      var prefix := results[..k + 1];
      assert prefix[0] == results[0] && prefix[1..] == rest[..k];
      assert Flatten(prefix) == chunk + data;
      assert AllBytes(prefix) by {
        forall i | 0 <= i < |prefix| ensures prefix[i].Bytes? {
          if i > 0 {
            assert prefix[i] == rest[..k][i - 1];
          }
        }
      }
      assert results[k + 1] == ReadError;
    }
  }

  /** A `Stalled` outcome: every read returned bytes, the data written is
      all of them, and together they leave the offset below the declared
      size. */
  lemma {:induction false} StalledMeaning(size: int, results: seq<ReadResult>, offset: int)
    requires CopyFrom(size, results, offset).Stalled?
    ensures var o := CopyFrom(size, results, offset);
      AllBytes(results) && o.data == Flatten(results) && o.offset == offset + |o.data| && o.offset < size
    decreases |results|
  {
    if results != [] {
      StalledMeaning(size, results[1..], offset + |results[0].chunk|);
    }
  }

  /** The bound on the bytes copied: nothing when the declared size is not
      positive, otherwise at least the declared size and less than one
      buffer beyond it. */
  lemma {:induction false} CopiedLength(size: int, results: seq<ReadResult>, offset: int)
    requires CopyFrom(size, results, offset).Copied?
    ensures offset >= size ==> CopyFrom(size, results, offset).data == []
    ensures offset < size ==> size <= offset + |CopyFrom(size, results, offset).data| < size + BUFFER_SIZE
    decreases |results|
  {
    if offset < size {
      var chunk := results[0].chunk;
      CopiedLength(size, results[1..], offset + |chunk|);
    }
  }

  /** A reader that returns the content in full buffers (the last one
      possibly shorter). */
  function Chunked(content: seq<byte>): (r: seq<ReadResult>)
    ensures AllBytes(r)
    decreases |content|
  {
    if content == [] then []
    else if |content| <= BUFFER_SIZE then [Bytes(content)]
    else [Bytes(content[..BUFFER_SIZE])] + Chunked(content[BUFFER_SIZE..])
  }

  /** A content of n bytes is read in n / 1024 buffers, rounded up. */
  lemma {:induction false} ChunkedCount(content: seq<byte>)
    ensures |Chunked(content)| == (|content| + BUFFER_SIZE - 1) / BUFFER_SIZE
    decreases |content|
  {
    if |content| > BUFFER_SIZE {
      ChunkedCount(content[BUFFER_SIZE..]);
    }
  }

  /** Round trip: when the reader delivers the content in full buffers and
      the declared size is the content's length, the copy writes exactly the
      content, after one read per buffer. */
  lemma {:induction false} CopyChunkedRoundTrip(content: seq<byte>, offset: int)
    ensures CopyFrom(offset + |content|, Chunked(content), offset) == Copied(content, |Chunked(content)|)
    decreases |content|
  {
    if content == [] {
    } else if |content| <= BUFFER_SIZE {
      assert [Bytes(content)][1..] == [];
      assert content + [] == content;
    } else {
      var head: Chunk := content[..BUFFER_SIZE];
      var tail := content[BUFFER_SIZE..];
      assert Chunked(content)[1..] == Chunked(tail);
      CopyChunkedRoundTrip(tail, offset + BUFFER_SIZE);
      assert head + tail == content;
    }
  }

  /** Reads that return zero bytes before the size is reached leave the
      offset where it was: the loop simply reads again, once per such read,
      and writes nothing for them. */
  lemma {:induction false} ZeroByteReadIsIgnored(size: int, zeros: seq<ReadResult>, results: seq<ReadResult>, offset: int)
    requires offset < size
    requires forall i :: 0 <= i < |zeros| ==> zeros[i] == Bytes([])
    ensures CopyFrom(size, zeros + results, offset) == After([], |zeros|, CopyFrom(size, results, offset))
    decreases |zeros|
  {
    if zeros == [] {
      assert zeros + results == results;
      match CopyFrom(size, results, offset)
      case Copied(data, _) => assert [] + data == data;
      case ReadFailed(data, _) => assert [] + data == data;
      case Stalled(data, _) => assert [] + data == data;
    } else {
      assert (zeros + results)[0] == Bytes([]);
      assert (zeros + results)[1..] == zeros[1..] + results;
      ZeroByteReadIsIgnored(size, zeros[1..], results, offset);
      match CopyFrom(size, results, offset)
      case Copied(data, _) => assert [] + ([] + data) == [] + data;
      case ReadFailed(data, _) => assert [] + ([] + data) == [] + data;
      case Stalled(data, _) => assert [] + ([] + data) == [] + data;
    }
  }
}
