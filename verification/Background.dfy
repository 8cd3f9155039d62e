/** What the background worker writes while it compresses a file, and what undoing that gives. */
module Background {
  import opened Bytes
  import opened Codecs
  import Fsck
  import WriteEngine

  const BUF_SIZE: nat := 4096

  /** A codec's loop over the source file. After every buffer it looks for a request for cancellation; it finds
      one at the `cancelAt`-th look, if ever. It tells how many bytes it has read. */
  method CompressStream(codec: Codec, source: Data, cancelAt: Option<nat>)
    returns (size: nat, stream: Data, ghost chunks: seq<Data>)
    ensures stream == codec.emit(chunks) + codec.finish(chunks)
    ensures size <= |source| && Flatten(chunks) == source[..size]
    ensures size == if cancelAt.Some? then Min(|source|, (cancelAt.value + 1) * BUF_SIZE) else |source|
    ensures forall i :: 0 <= i < |chunks| ==> 0 < |chunks[i]| <= BUF_SIZE && (i + 1 < |chunks| ==> |chunks[i]| == BUF_SIZE)
  {
    size, chunks := 0, [];
    var history: seq<Data> := [];
    var looks := 0;
    while size < |source|
      invariant 0 <= size <= |source| && chunks == history && Flatten(history) == source[..size]
      invariant (cancelAt.Some? ==> looks <= cancelAt.value) && size == Min(|source|, looks * BUF_SIZE)
      invariant forall i :: 0 <= i < |chunks| ==> 0 < |chunks[i]| <= BUF_SIZE && (size < |source| ==> |chunks[i]| == BUF_SIZE)
      invariant forall i :: 0 <= i < |chunks| - 1 ==> |chunks[i]| == BUF_SIZE
    {
      var rd := Min(BUF_SIZE, |source| - size);
      var buf := source[size..size + rd];
      FlattenSnoc(history, buf);
      assert source[..size] + buf == source[..size + rd];
      history := history + [buf];
      chunks := history;
      size := size + rd;
      if cancelAt == Some(looks) {
        break;
      }
      looks := looks + 1;
    }
    stream := codec.emit(history) + codec.finish(history);
  }

  /** Compress a file into a temporary one: header, then the stream. It takes the file's place unless the whole file
      was not read or cancellation was asked for, at the latest when the lock is taken again. A file that is too small,
      that has a header already, or that looks as if it had one, is left alone. */
  method DoCompress(registry: Registry, id: Byte, source: Data, minSize: nat, cancelAt: Option<nat>, cancelled: bool)
    returns (disk: Data)
    requires id in registry && |source| < 0x8000_0000_0000_0000
    requires cancelAt.Some? ==> cancelled
    ensures WriteEngine.OnDisk(registry, disk) == WriteEngine.OnDisk(registry, source)
    ensures cancelled || |source| < minSize || ParseHeader(registry, source).Some? ==> disk == source
    ensures !cancelled && |source| >= minSize && ParseHeader(registry, source) == None ==>
      ParseHeader(registry, disk) == Some(Header(id, |source|)) && Fsck.Expected(registry, disk) == Fsck.Fine
  {
    hide HeaderBytes, ParseHeader;
    if |source| < minSize {
      return source;
    }
    if |source| >= HEADER_SIZE {
      var found := ParseHeader(registry, source);
      if found.Some? {
        return source;
      }
    } else {
      WriteEngine.TooShortForAHeader(registry, source);
    }
    var codec := registry[id];
    var header := HeaderBytes(Header(id, |source|));
    var size, stream, chunks := CompressStream(codec, source, cancelAt);
    if size != |source| || cancelled {
      return source;
    }
    assert source[..size] == source;
    WriteEngine.StoredReadsBack(registry, id, chunks);
    Fsck.FinishedStreamsAreFine(registry, id, chunks);
    disk := header + stream;
  }
}
