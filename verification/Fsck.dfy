/**
 The offline checker: it reads every compressed file to the end that its header announces, knowing only the
 header format and the codecs.
 */
module Fsck {
  import opened Bytes
  import opened Codecs
  import Lzo
  import WriteEngine

  const BUFSIZE: nat := 131072

  /** `NoCodec` is a file that begins like a compressed one and names no codec that was compiled in; the code
      then goes on with a codec that it does not have. */
  datatype Verdict = Uncompressed | NoCodec | Fine | ShortRead | FailedRead

  /** A file begins with the magic bytes of a compressed one. */
  predicate Marked(disk: Data) {
    |disk| >= 3 && disk[..3] == Magic
  }

  /** What the checker should find, in one look at what the stored stream decodes to. */
  function Expected(registry: Registry, disk: Data): Verdict {
    if !Marked(disk) then Uncompressed
    else match ParseHeader(registry, disk)
      case None => NoCodec
      case Some(h) =>
        var s := registry[h.id].decode(disk[HEADER_SIZE..]);
        if |s.plain| >= h.size then Fine else if s.clean then ShortRead else FailedRead
  }

  /** A file is reported if and only if what is found in it is less than the size that users are told; by the codec, if
      the stream is not in order, and by counting, if it is. */
  lemma ReportedIffShort(registry: Registry, disk: Data)
    ensures var found, verdict := WriteEngine.OnDisk(registry, disk), Expected(registry, disk);
      && (verdict in {ShortRead, FailedRead} <==> |found.stream.plain| < found.size)
      && (verdict == FailedRead ==> !found.stream.clean) && (verdict == ShortRead ==> found.stream.clean)
      && (verdict == Fine <==> ParseHeader(registry, disk).Some? && |found.stream.plain| >= found.size)
  {
  }

  /** Read as much as the header announces, a buffer at a time; it always comes to an end. */
  method CheckFile(registry: Registry, disk: Data) returns (verdict: Verdict)
    requires ParseHeader(registry, disk).Some? ==> ParseHeader(registry, disk).value.size < 0x8000_0000_0000_0000
    ensures verdict == Expected(registry, disk)
  {
    if !Marked(disk) {
      return Uncompressed;
    }
    var header := ParseHeader(registry, disk);
    if header == None {
      return NoCodec;
    }
    var stream, pos := registry[header.value.id].decode(disk[HEADER_SIZE..]), 0;
    var size := header.value.size;
    while size > 0
      invariant pos + size == header.value.size && pos <= |stream.plain|
      decreases size
    {
      var res, _ := ReadStream(stream, pos, Min(size, BUFSIZE));
      if res < 0 {
        return FailedRead;
      }
      if res == 0 {
        return ShortRead;
      }
      pos, size := pos + res, size - res;
    }
    verdict := Fine;
  }

  /** A header and a finished stream of as many bytes as it says, cut into chunks in any way: that is what both
      the direct writer and the background compressor leave behind. */
  lemma FinishedStreamsAreFine(registry: Registry, id: Byte, chunks: seq<Data>)
    requires id in registry && |Flatten(chunks)| < 0x1_0000_0000_0000_0000
    ensures Expected(registry, WriteEngine.StoredBytes(registry[id], chunks)) == Fine
  {
    hide Codec.Honest, HeaderBytes, ParseHeader, Flatten;
    var c := registry[id];
    WriteEngine.StoredReadsBack(registry, id, chunks);
    BeginsWithMagic(Header(id, |Flatten(chunks)|), c.emit(chunks) + c.finish(chunks));
  }

  /** A finished file that lost its end, at any byte: it is reported if and only if its header is whole and it had
      any data. A piece of a header is not known for one, and a file of no data has nothing to miss. */
  lemma CutFilesAreReported(registry: Registry, id: Byte, chunks: seq<Data>, k: nat)
    requires id in registry && ShowsDamage(registry[id]) && |Flatten(chunks)| < 0x1_0000_0000_0000_0000
    requires k < |WriteEngine.StoredBytes(registry[id], chunks)|
    ensures var verdict := Expected(registry, WriteEngine.StoredBytes(registry[id], chunks)[..k]);
      && (verdict in {ShortRead, FailedRead} <==> k >= HEADER_SIZE && Flatten(chunks) != [])
      && (verdict == Uncompressed <==> k < |Magic|)
      && (verdict == NoCodec <==> |Magic| <= k < HEADER_SIZE)
  {
    hide Codec.Honest, HeaderBytes, ParseHeader, ShowsDamage, Flatten;
    var c, h := registry[id], Header(id, |Flatten(chunks)|);
    var stream := c.emit(chunks) + c.finish(chunks);
    var disk := WriteEngine.StoredBytes(c, chunks);
    BeginsWithMagic(h, stream);
    if k < HEADER_SIZE {
      WriteEngine.TooShortForAHeader(registry, disk[..k]);
      assert k >= |Magic| ==> disk[..k][..3] == disk[..3];
    } else {
      var rest := stream[..k - HEADER_SIZE];
      assert disk[..k] == HeaderBytes(h) + rest;
      HeaderRoundTrip(registry, h, rest);
      BeginsWithMagic(h, rest);
      if Flatten(chunks) != [] {
        WriteEngine.DamageIsSeen(c, chunks, k - HEADER_SIZE);
      }
    }
  }

  lemma BeginsWithMagic(h: Header, rest: Data)
    ensures Marked(HeaderBytes(h) + rest)
  {
  }

  /** With the block codec, a cut between two frames is found by counting, and any other one by the codec. */
  lemma CutLzoFilesAreReported(registry: Registry, blocks: Lzo.BlockCodec, data: Data, mems: seq<Data>, k: nat)
    requires blocks.Honest() && 3 in registry && (forall s :: registry[3].decode(s) == LzoDecoded(blocks, s))
    requires data != [] && |data| < 0x1_0000_0000_0000_0000 && |mems| == |Lzo.Blocks(data)|
    requires k < |Lzo.Encode(blocks, Lzo.Blocks(data), mems)|
    ensures var b := Lzo.Blocks(data); var n := Lzo.WholeFrames(blocks, b, mems, k);
      Expected(registry, HeaderBytes(Header(3, |data|)) + Lzo.Encode(blocks, b, mems)[..k])
      == if k == |Lzo.Encode(blocks, b[..n], mems[..n])| then ShortRead else FailedRead
  {
    hide Codec.Honest, HeaderBytes, ParseHeader, Lzo.Encode, Lzo.Blocks, Lzo.Decode, Lzo.WholeFrames;
    var rest := Lzo.Encode(blocks, Lzo.Blocks(data), mems)[..k];
    Lzo.CutStream(blocks, false, data, mems, k);
    HeaderRoundTrip(registry, Header(3, |data|), rest);
    BeginsWithMagic(Header(3, |data|), rest);
  }

  /** Whatever the write path has left on disk with no writer at work is accepted: as fine if it is
      compressed, as uncompressed if it is plain and does not begin with the magic bytes. */
  lemma TheWritePathIsAccepted(f: WriteEngine.File)
    requires f.Valid() && f.writer == null && f.Unambiguous()
    ensures Expected(f.registry, f.disk)
         == if f.form.Some? then Fine else if Marked(f.content) then NoCodec else Uncompressed
  {
    if f.form.Some? {
      FinishedStreamsAreFine(f.registry, f.form.value, f.stored);
    }
  }
}
