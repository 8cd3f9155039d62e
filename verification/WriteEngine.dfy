/**
 The write path: `pwrite` on a file that is stored as a stream which can only be appended to.

 A fresh file written from its start by one user is compressed on the fly: the header is rewritten after
 every write through the descriptor's own offset. Anything else decompresses the file for good first.
 */
module WriteEngine {
  import opened Bytes
  import opened Codecs

  /** A codec handle: open for writing with the chunks it has accepted, or for reading. */
  datatype Handle = Closed | Sink(chunks: seq<Data>) | Source

  /** What is written at position `pos` of a file, which it may extend. */
  function WriteAt(disk: Data, pos: nat, bytes: Data): (r: Data)
    requires pos <= |disk|
    ensures pos == |disk| ==> r == disk + bytes
  {
    disk[..pos] + bytes + (if pos + |bytes| < |disk| then disk[pos + |bytes|..] else [])
  }

  /** A truncated or extended plain file. */
  function Resize(content: Data, size: nat): (r: Data)
    ensures |r| == size && forall i :: 0 <= i < size ==> r[i] == if i < |content| then content[i] else 0
  {
    if size <= |content| then content[..size] else content + Zeros(size - |content|)
  }

  /** A finished compressed file: header and stream. */
  function StoredBytes(c: Codec, chunks: seq<Data>): Data {
    HeaderBytes(Header(c.id, |Flatten(chunks)|)) + (c.emit(chunks) + c.finish(chunks))
  }

  /** What a user finds who comes to a file afresh: the size he is told, and what its bytes decode to. */
  datatype Found = Found(size: nat, stream: Stream)

  function OnDisk(registry: Registry, disk: Data): Found {
    match ParseHeader(registry, disk)
    case None => Found(|disk|, Stream(disk, true))
    case Some(h) => Found(h.size, registry[h.id].decode(disk[HEADER_SIZE..]))
  }

  /** What is found in a file that holds `content`. */
  function Holding(content: Data): Found {
    Found(|content|, Stream(content, true))
  }

  lemma StoredReadsBack(registry: Registry, id: Byte, chunks: seq<Data>)
    requires id in registry && |Flatten(chunks)| < 0x1_0000_0000_0000_0000
    ensures var disk, content := StoredBytes(registry[id], chunks), Flatten(chunks);
      && ParseHeader(registry, disk) == Some(Header(id, |content|))
      && registry[id].decode(disk[HEADER_SIZE..]) == Stream(content, true)
      && OnDisk(registry, disk) == Holding(content)
  {
    var c, h := registry[id], Header(id, |Flatten(chunks)|);
    HeaderRoundTrip(registry, h, c.emit(chunks) + c.finish(chunks));
  }

  lemma TooShortForAHeader(registry: Registry, disk: Data)
    requires |disk| < HEADER_SIZE
    ensures ParseHeader(registry, disk) == None
  {
  }

  class Descriptor {
    const file: File
    /** The offset that the file descriptor and its duplicate in the handle share. */
    var fdPos: nat
    var handle: Handle
    var offset: nat

    constructor (file: File)
      ensures this.file == file && fdPos == 0 && handle == Closed && offset == 0
    {
      this.file := file;
      fdPos, handle, offset := 0, Closed, 0;
    }
  }

  class File {
    const registry: Registry
    /** The codec that the file's name selects, if it is worth compressing at all. */
    const choice: Option<Byte>

    var disk: Data
    /** The codec whose stream is on disk, as it really is; `compressor` is what the program knows of it. */
    var form: Option<Byte>
    var compressor: Option<Byte>
    var size: int
    var accessType: AccessType
    var dontCompress: bool
    var accesses: nat
    var descriptors: seq<Descriptor>

    /** What the user has in the file, the chunks it was written in if its stream is finished, and the descriptor
        it is being streamed through, if any. */
    ghost var content: Data
    ghost var stored: seq<Data>
    ghost var writer: Descriptor?

    /** The bytes of a finished stream of `content` behind its header. */
    ghost predicate Stored(c: Codec)
      reads this`disk, this`content, this`stored
    {
      content == Flatten(stored) && disk == StoredBytes(c, stored)
    }

    /** The bytes so far of a stream that is still being written: header, then what the codec has emitted.
        The descriptor's offset, the size in the header and the number of accepted bytes agree, and the file
        offset is at the end. */
    ghost predicate Flowing(c: Codec)
      requires writer != null
      reads this`disk, this`content, this`writer, writer
    {
      && writer.handle.Sink?
      && content == Flatten(writer.handle.chunks)
      && writer.offset == |content|
      && disk == HeaderBytes(Header(c.id, |content|)) + c.emit(writer.handle.chunks)
      && writer.fdPos == |disk|
    }

    /** The handles: at most the writer's is open for writing, and none is open for reading beside it. */
    ghost predicate HandlesValid()
      reads this`descriptors, this`writer, this`accessType, this`compressor, descriptors
    {
      && (forall i, j :: 0 <= i < j < |descriptors| ==> descriptors[i] != descriptors[j])
      && (forall d :: d in descriptors ==> d.file == this)
      && (forall d :: d in descriptors && d.handle == Closed ==> d.offset == 0)
      && (forall d :: d in descriptors && d.handle.Sink? ==> d == writer)
      && (forall d :: d in descriptors && d.handle.Source? ==> accessType == Reading && compressor.Some?)
      && (writer != null ==> writer in descriptors && writer.handle.Sink? && accessType == Writing && compressor.Some?)
    }

    ghost predicate Settings()
      reads this`compressor, this`content, this`accesses, this`descriptors
    {
      && (choice.Some? ==> choice.value in registry)
      && (compressor.Some? ==> compressor.value in registry)
      && |content| < 0x8000_0000_0000_0000
      && |descriptors| <= accesses
    }

    /** The file is compressed, finished or not, and `size` is its plain size. */
    ghost predicate Packed()
      reads this`disk, this`content, this`form, this`compressor, this`size, this`stored, this`writer, writer
    {
      && form == compressor && compressor.Some? && compressor.value in registry && size == |content|
      && if writer != null then Flowing(registry[compressor.value]) && content != []
         else Stored(registry[compressor.value])
    }

    /** The file is compressed, nobody has it open, and the program has no memory of it: its entry was freed by a
        purge, or the mount is a new one. */
    ghost predicate Forgotten()
      reads this`disk, this`content, this`form, this`compressor, this`size, this`stored, this`writer, this`descriptors
    {
      && form.Some? && form.value in registry && Stored(registry[form.value])
      && compressor == None && size == -1 && descriptors == [] && writer == null
    }

    /** The file is plain. A remembered size of zero together with permission to compress means empty. */
    ghost predicate Raw()
      reads this`disk, this`content, this`form, this`compressor, this`size, this`dontCompress
    {
      && form == None && compressor == None && disk == content
      && size >= -1 && (size == 0 && !dontCompress ==> content == [])
    }

    /** A codec has just been chosen for an empty file and nothing has been written yet. */
    ghost predicate Chosen()
      reads this`disk, this`content, this`form, this`compressor, this`size, this`writer, this`descriptors, descriptors
    {
      && form == None && compressor.Some? && disk == [] && content == [] && size == 0 && writer == null
      && forall d :: d in descriptors ==> d.handle == Closed
    }

    ghost predicate Valid()
      reads this, descriptors, writer
    {
      Settings() && HandlesValid() && (Raw() || Packed() || Forgotten())
    }

    /** A new, empty file. */
    constructor (registry: Registry, choice: Option<Byte>)
      requires choice.Some? ==> choice.value in registry
      ensures Valid() && content == [] && descriptors == [] && accesses == 0
      ensures disk == [] && form == None && accessType == Unset && !dontCompress
      ensures this.registry == registry && this.choice == choice
    {
      this.registry, this.choice := registry, choice;
      disk, form, compressor, size, accessType := [], None, None, -1, Unset;
      dontCompress, accesses, descriptors := false, 0, [];
      content, stored, writer := [], [], null;
    }

    /** Not a plain file whose bytes begin like a compressed one. */
    predicate Unambiguous()
      reads this`disk, this`form
    {
      form == None ==> ParseHeader(registry, disk) == None
    }

    lemma HeaderOnDisk()
      requires Settings() && (Packed() || Forgotten())
      ensures form.Some? && ParseHeader(registry, disk) == Some(Header(form.value, |content|))
    {
      var h := Header(form.value, |content|);
      if writer == null {
        StoredReadsBack(registry, form.value, stored);
      } else {
        HeaderRoundTrip(registry, h, registry[form.value].emit(writer.handle.chunks));
      }
    }

    /** A write at the start of a compressed file that is empty, by its only user: it trips the assertion that such a
        file has no codec, or begins a stream on top of the one that is there. */
    predicate OverEmpty(d: Descriptor, offset: nat)
      reads this`form, this`size, this`accesses, this`dontCompress, this`accessType, d`offset
    {
      && form.Some? && size == 0 && accesses == 1 && offset == 0
      && (!dontCompress || (d.offset == 0 && accessType != Reading))
    }

    /** The program would go by a wrong idea of the file: it looks at a plain one that begins like a compressed one, it
        cuts or extends one that it does not know to be compressed, or it takes a compressed empty one for fresh. */
    predicate Misled(op: Op)
      reads this, descriptors
    {
      match op
      case OpOpen(_) => !Unambiguous()
      case OpStat => size == -1 && !Unambiguous()
      case OpPack(_, minSize) => compressor == None && |disk| >= minSize && !Unambiguous()
      case OpWrite(k, data, offset) => k < |descriptors| && data != [] && OverEmpty(descriptors[k], offset)
      case OpTruncate(n) => n > 0 && compressor == None && form.Some?
      case _ => false
    }

    // ----- Operations -----

    /** Learn codec and size from the file itself. They come out as they are, unless a plain file begins like a
        compressed one. */
    method Identify()
      requires Settings() && (Raw() || Packed() || Forgotten())
      modifies this`compressor, this`size
      ensures compressor == form && size == |content| <==> Unambiguous()
      ensures Raw() || Packed() <==> Unambiguous()
      ensures old(compressor).Some? ==> compressor == old(compressor)
      ensures var h := ParseHeader(registry, disk);
        if h.Some? then compressor == Some(h.value.id) && size == h.value.size else compressor == None && size == |disk|
    {
      if form.Some? {
        HeaderOnDisk();
      }
      var header := if |disk| >= HEADER_SIZE then ParseHeader(registry, disk) else None;
      if header.Some? {
        compressor, size := Some(header.value.id), header.value.size;
      } else {
        compressor, size := None, |disk|;
      }
    }

    /** Open the file once more. */
    method Open(shared: bool) returns (d: Descriptor)
      requires Valid()
      modifies this`dontCompress, this`compressor, this`size, this`accesses, this`descriptors
      ensures Valid() <==> Unambiguous()
      ensures Settings() && HandlesValid() && fresh(d) && descriptors == [d] + old(descriptors) && d.offset == 0
      ensures accesses == old(accesses) + 1 && dontCompress == (shared || old(dontCompress))
      ensures var h := ParseHeader(registry, disk);
        if h.Some? then compressor == Some(h.value.id) && size == h.value.size else compressor == None && size == |disk|
    {
      hide Codec.Honest, ParseHeader, File.Packed, File.Forgotten, File.Unambiguous;
      if shared {
        dontCompress := true;
      }
      Identify();
      d := new Descriptor(this);
      AddDescriptor(d);
      OpenIsKnown();
    }

    lemma OpenIsKnown()
      requires descriptors != []
      ensures !Forgotten()
    {
    }

    method AddDescriptor(d: Descriptor)
      requires Settings() && HandlesValid()
      requires d !in descriptors && d.file == this && d.handle == Closed && d.offset == 0
      modifies this`accesses, this`descriptors
      ensures Settings() && HandlesValid()
      ensures descriptors == [d] + old(descriptors) && accesses == old(accesses) + 1
    {
      descriptors, accesses := [d] + descriptors, accesses + 1;
    }

    /** Close the handle of one descriptor. What the codec still holds goes to the file. */
    method DirectClose(d: Descriptor)
      requires Settings() && HandlesValid() && Packed() && d in descriptors
      modifies this`disk, this`accessType, this`dontCompress, this`writer, this`stored, d
      ensures Settings() && HandlesValid() && Packed()
      ensures d.handle == Closed && d.offset == 0
      ensures writer == if old(writer) == d then null else old(writer)
      ensures accessType == if accesses == 1 then Unset else old(accessType)
      ensures dontCompress == (accesses != 1 && old(dontCompress))
    {
      hide Codec.Honest, StoredBytes, File.Flowing, HeaderBytes, Flatten;
      if d.handle != Closed {
        if d.handle.Sink? {
          FinishStream(d);
        }
        d.offset, d.handle := 0, Closed;
      }
      if accesses == 1 {
        OnlyOne(d);
        accessType, dontCompress := Unset, false;
      }
    }

    /** Closing a codec handle writes the end of its stream behind what was emitted before. */
    method FinishStream(d: Descriptor)
      requires Settings() && Packed() && writer == d
      modifies this`disk, this`writer, this`stored, d`fdPos
      ensures Packed() && writer == null
    {
      hide Codec.Honest, HeaderBytes, Flatten;
      var c, chunks := registry[compressor.value], d.handle.chunks;
      disk := WriteAt(disk, d.fdPos, c.finish(chunks));
      d.fdPos := |disk|;
      assert disk == HeaderBytes(Header(c.id, |content|)) + (c.emit(chunks) + c.finish(chunks));
      stored := chunks;
      writer := null;
    }

    /** With one user there is one descriptor. */
    lemma OnlyOne(d: Descriptor)
      requires |descriptors| <= accesses == 1 && d in descriptors
      ensures forall e :: e in descriptors ==> e == d
    {
      assert descriptors == [d];
    }

    /** Close every handle and every file descriptor, as before the file is replaced. */
    method CloseAll()
      requires Settings() && HandlesValid() && Packed()
      modifies this`disk, this`accessType, this`dontCompress, this`writer
      modifies this`stored, descriptors
      ensures HandlesValid() && Packed() && writer == null
      ensures forall d :: d in descriptors ==> d.handle == Closed
    {
      hide Codec.Honest, StoredBytes, File.Flowing, HeaderBytes, Flatten;
      var i := 0;
      while i < |descriptors|
        invariant 0 <= i <= |descriptors|
        invariant Settings() && HandlesValid() && Packed()
        invariant forall j :: 0 <= j < i ==> descriptors[j].handle == Closed
      {
        DirectClose(descriptors[i]);
        i := i + 1;
      }
      NoWriterLeft();
    }

    lemma NoWriterLeft()
      requires HandlesValid() && forall j :: 0 <= j < |descriptors| ==> descriptors[j].handle == Closed
      ensures writer == null && forall d :: d in descriptors ==> d.handle == Closed
    {
    }

    /** Replace the file by its plain contents for good. A file that has no header yet is plain already. */
    method DoDecompress() returns (ok: bool)
      requires Settings() && HandlesValid() && (Packed() || Chosen())
      modifies this`disk, this`form, this`compressor, this`size, this`accessType, this`dontCompress, this`writer, this`stored
      modifies descriptors
      ensures ok
      ensures Settings() && HandlesValid() && form == None && compressor == None && disk == content && size >= -1
      ensures size == -1 || size == |content|
    {
      hide Codec.Honest, StoredBytes, File.Flowing, HeaderBytes, ParseHeader, Flatten;
      var header := ParseHeader(registry, disk);
      if Packed() {
        HeaderOnDisk();
      } else {
        TooShortForAHeader(registry, disk);
      }
      if header == None {
        compressor, size := None, -1;
        return true;
      }
      CloseAll();
      StoredReadsBack(registry, compressor.value, stored);
      var decoded := registry[compressor.value].decode(disk[HEADER_SIZE..]);
      if !decoded.clean || |decoded.plain| != header.value.size {
        return false;
      }
      disk, form, compressor, size := decoded.plain, None, None, |decoded.plain|;
      return true;
    }

    /** A write as it arrives: decide whether to compress at all, then stream, fall back or write plainly. */
    method Write(d: Descriptor, data: Data, offset: nat)
      requires Valid() && d in descriptors && data != [] && !OverEmpty(d, offset)
      requires offset + |data| < 0x8000_0000_0000_0000
      modifies this`disk, this`form, this`compressor, this`size, this`accessType, this`dontCompress, this`writer
      modifies this`stored, this`content, descriptors
      ensures Valid() && content == Pwrite(old(content), data, offset) && content != [] && !Forgotten()
      ensures form == if old(accessType != Reading && accesses == 1 && d.offset == size) && offset == old(d.offset)
                      then old(if !dontCompress && size == 0 then choice else compressor) else None
      ensures (dontCompress || size == -1) && (form.Some? ==> writer == d)
    {
      hide Codec.Honest, StoredBytes, File.Flowing, Pwrite, HeaderBytes;
      PwriteAt(content, data, offset);
      if !dontCompress && size == 0 && accesses == 1 && offset == 0 {
        compressor := choice;
      }
      dontCompress := true;
      if compressor.Some? {
        DirectCompress(d, data, offset);
      } else {
        PlainWrite(data, offset);
      }
    }

    method DirectCompress(d: Descriptor, data: Data, offset: nat)
      requires Settings() && HandlesValid() && (Packed() || Chosen())
      requires form.Some? && size == 0 && accesses == 1 ==> offset != 0 || d.offset != 0 || accessType == Reading
      requires d in descriptors && data != [] && dontCompress
      requires offset + |data| < 0x8000_0000_0000_0000
      modifies this`disk, this`form, this`compressor, this`size, this`accessType, this`dontCompress, this`writer
      modifies this`stored, this`content, descriptors
      ensures Valid() && content == Pwrite(old(content), data, offset) && !Forgotten()
      ensures form == if old(d.offset == size && accessType != Reading && accesses == 1) && offset == old(d.offset)
                      then old(compressor) else None
      ensures (dontCompress || size == -1) && (form.Some? ==> writer == d)
    {
      hide Codec.Honest, StoredBytes, File.Flowing, Pwrite, HeaderBytes;
      MarkWriting();
      if d.offset != size || d.offset != offset || accessType != Writing || accesses > 1 {
        FallBack(data, offset);
      } else {
        StreamWrite(d, data);
        PwriteAtEnd(old(content), data);
      }
    }

    /** The first access decides what the file is used for. */
    method MarkWriting()
      requires HandlesValid()
      modifies this`accessType
      ensures HandlesValid() && accessType == if old(accessType) == Unset then Writing else old(accessType)
    {
      if accessType == Unset {
        accessType := Writing;
      }
    }

    /** A write that the stream cannot take: decompress for good and write plainly. */
    method FallBack(data: Data, offset: nat)
      requires Settings() && HandlesValid() && (Packed() || Chosen())
      requires data != [] && offset + |data| < 0x8000_0000_0000_0000
      modifies this`disk, this`form, this`compressor, this`size, this`accessType, this`dontCompress, this`writer
      modifies this`stored, this`content, descriptors
      ensures Valid() && content == Pwrite(old(content), data, offset) && form == None && size == -1
    {
      var _ := DoDecompress();
      size := -1;
      PlainWrite(data, offset);
    }

    /** `pwrite` on the plain file. */
    method PlainWrite(data: Data, offset: nat)
      requires Settings() && Raw() && (size == -1 || dontCompress)
      requires data != [] && offset + |data| < 0x8000_0000_0000_0000
      modifies this`disk, this`content
      ensures Settings() && Raw() && content == Pwrite(old(content), data, offset)
    {
      disk := Pwrite(disk, data, offset);
      PwriteAt(content, data, offset);
      content := Pwrite(content, data, offset);
    }

    /** A write at the end of the stream by its only user. */
    method StreamWrite(d: Descriptor, data: Data)
      requires Settings() && HandlesValid() && (Chosen() || (Packed() && content != []))
      requires d in descriptors && data != [] && accessType == Writing && d.offset == size
      requires |content| + |data| < 0x8000_0000_0000_0000
      modifies this`disk, this`form, this`size, this`writer, this`content, d
      ensures Settings() && HandlesValid() && Packed() && writer == d
      ensures content == old(content) + data
    {
      WriterStandsAtEnd(d);
      if d.handle == Closed {
        StartStream(d);
      }
      Append(d, data);
    }

    /** A file that is being written has its whole content in sight of one descriptor. */
    lemma WriterStandsAtEnd(d: Descriptor)
      requires Settings() && HandlesValid() && (Chosen() || (Packed() && content != []))
      requires d in descriptors && accessType == Writing && d.offset == size
      ensures if d.handle == Closed then Chosen() else writer == d && Packed()
    {
    }

    /** Write the header of an empty file at its start and open the codec behind it. */
    method StartStream(d: Descriptor)
      requires Settings() && HandlesValid() && Chosen()
      requires d in descriptors && accessType == Writing
      modifies this`disk, this`form, this`writer, d
      ensures Settings() && HandlesValid() && writer == d && form == compressor
      ensures Flowing(registry[compressor.value])
    {
      hide Codec.Honest, HeaderBytes;
      var c := registry[compressor.value];
      d.fdPos := 0;
      disk := WriteAt(disk, d.fdPos, HeaderBytes(Header(c.id, 0)));
      d.fdPos := HEADER_SIZE;
      d.handle := Sink([]);
      disk := WriteAt(disk, d.fdPos, c.emit([]));
      d.fdPos := |disk|;
      form, writer := compressor, d;
    }

    /** Hand a chunk to the codec, rewrite the header with the new size and go back to the end. */
    method Append(d: Descriptor, data: Data)
      requires Settings() && HandlesValid() && writer == d && data != []
      requires form == compressor && compressor.Some? && size == |content| && Flowing(registry[compressor.value])
      requires |content| + |data| < 0x8000_0000_0000_0000
      modifies this`disk, this`size, this`content, d
      ensures Settings() && HandlesValid() && Packed()
      ensures content == old(content) + data
    {
      var c, chunks := registry[compressor.value], d.handle.chunks;
      var emitted, now := c.emit(chunks), c.emit(chunks + [data]);
      assert emitted <= now;
      ghost var before := disk;
      disk := WriteAt(disk, d.fdPos, now[|emitted|..]);
      d.handle := Sink(chunks + [data]);
      d.offset := d.offset + |data|;
      size := d.offset;
      d.fdPos := 0;
      disk := WriteAt(disk, d.fdPos, HeaderBytes(Header(c.id, size)));
      d.fdPos := |disk|;
      content := content + data;
      HeaderRewritten(HeaderBytes(Header(c.id, |old(content)|)), HeaderBytes(Header(c.id, size)), emitted, now);
      FlattenSnoc(chunks, data);
    }

    /** A read as it arrives. While the file is being written it is decompressed for good first; otherwise
        the stored stream is read, which either gives up in the same way or leaves a handle somewhere. */
    method Read(d: Descriptor, want: nat, offset: nat, giveUp: bool, position: Option<nat>) returns (out: Data)
      requires Valid() && d in descriptors
      modifies this`disk, this`form, this`compressor, this`size, this`accessType, this`dontCompress, this`writer
      modifies this`stored, descriptors
      ensures Valid() && out == Pread(content, want, offset)
      ensures form == if old(accessType) == Writing || giveUp then None else old(form)
    {
      hide Codec.Honest, StoredBytes, HeaderBytes, ParseHeader, Flatten;
      if compressor.Some? {
        MarkReading();
        if accessType != Reading || giveUp {
          var _ := DoDecompress();
          size := -1;
          out := Pread(disk, want, offset);
        } else {
          StoredReadsBack(registry, compressor.value, stored);
          out := Pread(registry[compressor.value].decode(disk[HEADER_SIZE..]).plain, want, offset);
          if position.Some? {
            d.handle, d.offset := Source, position.value;
          }
        }
      } else {
        out := Pread(disk, want, offset);
      }
    }

    method MarkReading()
      requires HandlesValid()
      modifies this`accessType
      ensures HandlesValid() && accessType == if old(accessType) == Unset then Reading else old(accessType)
    {
      if accessType == Unset {
        accessType := Reading;
      }
    }

    /** Truncate or extend. Cutting to nothing does not bother to decompress. If the program has forgotten that
        the file is compressed, it is the stored bytes that are cut. */
    method Truncate(n: nat)
      requires Valid() && n < 0x8000_0000_0000_0000
      modifies this`disk, this`form, this`compressor, this`size, this`accessType, this`dontCompress, this`writer, this`stored
      modifies this`content, descriptors
      ensures content == Resize(old(content), n)
      ensures n == 0 || old(compressor.Some? || form == None) ==> Valid() && form == None && disk == content
      ensures n > 0 && old(compressor == None && form.Some?) ==> disk == Resize(old(disk), n)
      ensures size == n && compressor == None
    {
      if compressor.Some? {
        Unpack(n > 0);
      }
      disk := Resize(if n > 0 then disk else [], n);
      if n == 0 {
        form := None;
      }
      size, content := n, Resize(content, n);
    }

    /** Leave the compressed form, keeping the contents or not. */
    method Unpack(keep: bool)
      requires Settings() && HandlesValid() && Packed()
      modifies this`disk, this`form, this`compressor, this`size, this`accessType, this`dontCompress, this`writer
      modifies this`stored, descriptors
      ensures Settings() && HandlesValid() && compressor == None && (keep ==> disk == content && form == None)
      ensures writer == null
    {
      if keep {
        var _ := DoDecompress();
      } else {
        CloseAll();
        compressor := None;
      }
    }

    /** The size that the user is told. A plain file is looked up, a compressed one remembers it. What the program
        takes the file for is what it was, unless it had to look and was mistaken. */
    method GetSize() returns (r: int)
      requires Settings() && HandlesValid() && ((compressor.Some? && size != -1) || Raw() || Packed() || Forgotten())
      modifies this`compressor, this`size
      ensures old(compressor.Some? && size != -1) ==> r == old(size) && size == old(size) && compressor == old(compressor)
      ensures old(Valid()) ==> (Valid() && r == |content| <==> old(size) != -1 || Unambiguous())
      ensures old(Valid()) && ParseHeader(registry, disk) == None ==> Valid() && r == |content|
      ensures old(Valid()) && (old(size) != -1 || Unambiguous()) ==> compressor == form
    {
      if size == -1 {
        Identify();
        r := size;
      } else if compressor.Some? {
        r := size;
      } else {
        r := |disk|;
      }
    }

    /** The program frees its entry of a file that nobody has open, and makes a new one later. */
    method Forget()
      requires Valid() && accesses == 0
      modifies this`compressor, this`size, this`accessType, this`dontCompress
      ensures Valid() && compressor == None && size == -1 && !dontCompress && accessType == Unset
    {
      compressor, size, accessType, dontCompress := None, -1, Unset, false;
    }

    /** The worker compresses a file that nobody uses. It leaves one alone that it knows to be compressed, that is too
        small, or that begins with a header; from that it learns codec and size. */
    method Pack(id: Byte, minSize: nat)
      requires Valid() && accesses == 0 && id in registry
      modifies this`disk, this`form, this`compressor, this`size, this`stored
      ensures compressor == None && form.Some? ==> old(compressor == None && form.Some?)
      ensures old(compressor != None || |disk| < minSize || Unambiguous()) ==> Valid()
      ensures old(compressor == None && |disk| >= minSize && Unambiguous() && form == None) ==> form == Some(id)
      ensures old(compressor != None || |disk| < minSize) ==>
                form == old(form) && disk == old(disk) && compressor == old(compressor) && size == old(size)
      ensures old(compressor == None && |disk| >= minSize) ==> var h := ParseHeader(registry, old(disk));
        h.Some? ==> form == old(form) && disk == old(disk) && compressor == Some(h.value.id) && size == h.value.size
    {
      hide Codec.Honest, ParseHeader, StoredBytes, HeaderBytes, Flatten, File.Flowing;
      if compressor.Some? || |disk| < minSize {
        return;
      }
      if form.Some? {
        HeaderOnDisk();
      }
      TooShort();
      var header := if |disk| >= HEADER_SIZE then ParseHeader(registry, disk) else None;
      if header.Some? {
        compressor, size := Some(header.value.id), header.value.size;
        return;
      }
      PackNow(id);
    }

    lemma TooShort()
      ensures |disk| < HEADER_SIZE ==> ParseHeader(registry, disk) == None
    {
    }

    method PackNow(id: Byte)
      requires Settings() && Raw() && id in registry && writer == null
      modifies this`disk, this`form, this`compressor, this`size, this`stored
      ensures Packed() && compressor == Some(id)
    {
      hide Codec.Honest, ParseHeader, HeaderBytes, Flatten, File.HandlesValid;
      FlattenOne(disk);
      var chunks: seq<Data> :| Flatten(chunks) == disk;
      disk, form, compressor, size := StoredBytes(registry[id], chunks), Some(id), Some(id), |disk|;
      stored := chunks;
      IdOf(id);
    }

    lemma IdOf(id: Byte)
      requires id in registry
      ensures registry[id].id == id
    {
    }

    /** Release a descriptor; the last bytes of a stream reach the file now. */
    method Release(d: Descriptor)
      requires Valid() && d in descriptors
      modifies this`disk, this`accessType, this`dontCompress, this`writer, this`stored, this`accesses, this`descriptors, d
      ensures Valid() && accesses == old(accesses) - 1
      ensures |descriptors| == |old(descriptors)| - 1
      ensures forall e :: e in descriptors ==> e in old(descriptors) && e != d
      ensures descriptors == [] ==> writer == null
      ensures form == old(form) && compressor == old(compressor) && size == old(size)
      ensures accessType == if compressor.Some? && old(accesses) == 1 then Unset else old(accessType)
      ensures dontCompress == (old(dontCompress) && !(compressor.Some? && old(accesses) == 1))
    {
      hide Codec.Honest, StoredBytes, File.Flowing, HeaderBytes, ParseHeader, Flatten;
      if compressor.Some? {
        DirectClose(d);
      }
      RemoveDescriptor(d);
    }

    method RemoveDescriptor(d: Descriptor)
      requires Settings() && HandlesValid() && d in descriptors && d != writer
      modifies this`accesses, this`descriptors
      ensures Settings() && HandlesValid() && accesses == old(accesses) - 1
      ensures |descriptors| == |old(descriptors)| - 1
      ensures forall e :: e in descriptors ==> e in old(descriptors) && e != d
    {
      var i :| 0 <= i < |descriptors| && descriptors[i] == d;
      descriptors := descriptors[..i] + descriptors[i + 1..];
      accesses := accesses - 1;
    }
  }

  /** Appending what the codec emits and then rewriting the header in place leaves header and stream. */
  lemma HeaderRewritten(before: Data, after: Data, emitted: Data, now: Data)
    requires |before| == |after| && emitted <= now
    ensures var d := before + emitted; WriteAt(WriteAt(d, |d|, now[|emitted|..]), 0, after) == after + now
  {
    assert before + emitted + now[|emitted|..] == before + now;
  }

  /** Cutting or extending the stored bytes of a compressed file to `n > 0` bytes leaves what a plain file would
      hold in two cases only: nothing is changed at all, or the cut leaves nothing but a piece of the header and
      the contents begin with the same bytes. */
  lemma TruncatingStoredBytesIff(registry: Registry, id: Byte, chunks: seq<Data>, n: nat)
    requires id in registry && Flatten(chunks) != [] && n > 0 && |Flatten(chunks)| < 0x8000_0000_0000_0000
    requires ShowsDamage(registry[id])
    ensures var disk, content := StoredBytes(registry[id], chunks), Flatten(chunks);
      OnDisk(registry, Resize(disk, n)) == Holding(Resize(content, n)) <==>
      if n < HEADER_SIZE then HeaderBytes(Header(id, |content|))[..n] == Resize(content, n) else n == |content| == |disk|
  {
    hide Codec.Honest, HeaderBytes, ParseHeader, ShowsDamage, Flatten, Resize;
    var disk, content := StoredBytes(registry[id], chunks), Flatten(chunks);
    DamagedStreamBytes(registry, id, chunks, n);
    SizeOfResize(content, n);
    SizeOfResize(disk, n);
    if n < HEADER_SIZE {
      assert OnDisk(registry, Resize(disk, n)) == Holding(Resize(disk, n));
    } else if n == |content| {
      assert Resize(content, n) == content;
    }
  }

  lemma SizeOfResize(content: Data, n: nat)
    ensures |Resize(content, n)| == n
    ensures n == |content| ==> Resize(content, n) == content
  {
  }

  lemma DamagedStreamBytes(registry: Registry, id: Byte, chunks: seq<Data>, n: nat)
    requires id in registry && Flatten(chunks) != [] && n > 0 && |Flatten(chunks)| < 0x8000_0000_0000_0000
    requires ShowsDamage(registry[id])
    ensures var disk, content := StoredBytes(registry[id], chunks), Flatten(chunks);
      var found := OnDisk(registry, Resize(disk, n));
      && (n < HEADER_SIZE ==> Resize(disk, n) == HeaderBytes(Header(id, |content|))[..n])
      && (n < HEADER_SIZE ==> found == Holding(Resize(disk, n)))
      && (n >= HEADER_SIZE ==> found.size == |content| && (found.stream == Stream(content, true) <==> n == |disk|))
  {
    hide Codec.Honest, HeaderBytes, ParseHeader, ShowsDamage, Flatten;
    var c, h := registry[id], Header(id, |Flatten(chunks)|);
    var stream := c.emit(chunks) + c.finish(chunks);
    var disk := StoredBytes(c, chunks);
    StoredReadsBack(registry, id, chunks);
    if n < HEADER_SIZE {
      TooShortForAHeader(registry, Resize(disk, n));
    } else if n <= |disk| {
      assert Resize(disk, n) == HeaderBytes(h) + stream[..n - HEADER_SIZE];
      HeaderRoundTrip(registry, h, stream[..n - HEADER_SIZE]);
      DamageIsSeen(c, chunks, n - HEADER_SIZE);
      assert n == |disk| ==> Resize(disk, n) == disk;
    } else {
      assert Resize(disk, n) == HeaderBytes(h) + (stream + Zeros(n - |disk|));
      HeaderRoundTrip(registry, h, stream + Zeros(n - |disk|));
      DamageIsSeen(c, chunks, n - |disk|);
    }
  }

  lemma DamageIsSeen(c: Codec, chunks: seq<Data>, k: nat)
    requires ShowsDamage(c) && Flatten(chunks) != []
    ensures ShowsCut(c, chunks, k) && ShowsZeros(c, chunks, k)
  {
  }

  // ----- Runs of operations on one fresh file -----

  datatype Op =
    | OpOpen(shared: bool)
    | OpWrite(k: nat, data: Data, offset: nat)
    | OpRead(k: nat, want: nat, offset: nat, giveUp: bool, position: Option<nat>)
    | OpTruncate(size: nat)
    | OpStat
    | OpRelease(k: nat)
    | OpForget
    | OpPack(id: Byte, minSize: nat)
  {
    /** Offsets fit the file offset type. */
    predicate InRange() {
      match this
      case OpWrite(_, data, offset) => offset + |data| < 0x8000_0000_0000_0000
      case OpTruncate(size) => size < 0x8000_0000_0000_0000
      case _ => true
    }
  }

  datatype Answer = Bytes(bytes: Data) | Size(size: int)

  /** A plain file: its bytes, how many times it is open, and what its readers have been told. */
  datatype Plain = Plain(content: Data, open: nat, answers: seq<Answer>)

  function PlainStep(p: Plain, op: Op): Plain {
    match op
    case OpOpen(_) => p.(open := p.open + 1)
    case OpWrite(k, data, offset) => if k < p.open then p.(content := Pwrite(p.content, data, offset)) else p
    case OpRead(k, want, offset, _, _) =>
      if k < p.open then p.(answers := p.answers + [Bytes(Pread(p.content, want, offset))]) else p
    case OpTruncate(size) => p.(content := Resize(p.content, size))
    case OpStat => p.(answers := p.answers + [Size(|p.content|)])
    case OpRelease(k) => if k < p.open then p.(open := p.open - 1) else p
    case OpForget => p
    case OpPack(_, _) => p
  }

  function PlainRun(p: Plain, ops: seq<Op>): Plain {
    if ops == [] then p else PlainStep(PlainRun(p, ops[..|ops| - 1]), ops[|ops| - 1])
  }

  const Fresh: Plain := Plain([], 0, [])

  /** The program has looked at the file since it last freed its entry. */
  predicate Seen(ops: seq<Op>) {
    if ops == [] then true
    else
      match ops[|ops| - 1]
      case OpForget => false
      case OpOpen(_) => true
      case OpStat => true
      case _ => Seen(ops[..|ops| - 1])
  }

  predicate NonePacked(ops: seq<Op>) {
    forall i :: 0 <= i < |ops| ==> !ops[i].OpPack?
  }

  /** The contents do not begin like a compressed file whenever it is opened or looked at, no file is cut or extended
      that the program has not looked at, and no empty file is written that the worker may have compressed. */
  ghost predicate Calm(registry: Registry, ops: seq<Op>) {
    forall i :: 0 <= i < |ops| ==>
      && (ops[i].OpOpen? || ops[i].OpStat? || ops[i].OpPack? ==> ParseHeader(registry, PlainRun(Fresh, ops[..i]).content) == None)
      && (ops[i].OpTruncate? && ops[i].size > 0 ==> Seen(ops[..i]))
      && (ops[i].OpWrite? && PlainRun(Fresh, ops[..i]).content == [] ==> NonePacked(ops[..i]))
  }

  /** One operation on the file does what it does to a plain file. */
  method Step(f: File, op: Op, ghost p: Plain) returns (answer: Option<Answer>)
    requires f.Valid() && op.InRange() && !f.Misled(op)
    requires f.content == p.content && |f.descriptors| == p.open
    modifies f, f.descriptors
    ensures f.Valid()
    ensures f.content == PlainStep(p, op).content && |f.descriptors| == PlainStep(p, op).open
    ensures PlainStep(p, op).answers == if answer.Some? then p.answers + [answer.value] else p.answers
    ensures forall d :: d in f.descriptors ==> d in old(f.descriptors) || fresh(d)
    ensures f.form.Some? && f.compressor == None ==>
              op.OpForget? || (old(f.form.Some? && f.compressor == None) && !op.OpOpen? && !op.OpStat?)
    ensures f.form.Some? && f.content == [] ==> op.OpPack? || old(f.form.Some? && f.content == [])
  {
    hide Codec.Honest, ParseHeader, StoredBytes, File.Flowing, HeaderBytes, Flatten, Pread, Resize, File.Stored, File.HandlesValid,
      File.Settings;
    answer := None;
    match op
    case OpOpen(shared) =>
      var _ := f.Open(shared);
    case OpWrite(k, data, offset) =>
      if k < |f.descriptors| && data != [] {
        f.Write(f.descriptors[k], data, offset);
      }
    case OpRead(k, want, offset, giveUp, position) =>
      if k < |f.descriptors| {
        var out := f.Read(f.descriptors[k], want, offset, giveUp, position);
        answer := Some(Bytes(out));
      }
    case OpTruncate(size) =>
      f.Truncate(size);
    case OpStat =>
      var r := f.GetSize();
      answer := Some(Size(r));
    case OpRelease(k) =>
      if k < |f.descriptors| {
        f.Release(f.descriptors[k]);
      }
    case OpForget =>
      if f.accesses == 0 {
        f.Forget();
      }
    case OpPack(id, minSize) =>
      if f.accesses == 0 && id in f.registry {
        f.Pack(id, minSize);
      }
  }

  /** Any sequence of operations on a fresh file, through any number of descriptors, up to the first one that the
      program comes to with a wrong idea of the file: its users were told what a plain file would have told, and the
      file holds what a plain file would hold. On a calm sequence there is no such operation. */
  method Run(registry: Registry, choice: Option<Byte>, ops: seq<Op>)
    returns (f: File, done: nat, answers: seq<Answer>)
    requires choice.Some? ==> choice.value in registry
    requires forall i :: 0 <= i < |ops| ==> ops[i].InRange()
    ensures fresh(f) && (forall d :: d in f.descriptors ==> fresh(d)) && f.registry == registry && f.Valid() && done <= |ops|
    ensures answers == PlainRun(Fresh, ops[..done]).answers
    ensures f.content == PlainRun(Fresh, ops[..done]).content && |f.descriptors| == PlainRun(Fresh, ops[..done]).open
    ensures done < |ops| ==> f.Misled(ops[done])
    ensures Calm(registry, ops) ==> done == |ops|
  {
    hide Codec.Honest, ParseHeader, File.Valid, File.Stored, File.Flowing, Pread, Pwrite, Resize, PlainStep;
    f := new File(registry, choice);
    done, answers := 0, [];
    while done < |ops| && !f.Misled(ops[done])
      invariant done <= |ops|
      invariant fresh(f) && f.Valid() && f.registry == registry
      invariant forall j :: 0 <= j < |f.descriptors| ==> fresh(f.descriptors[j])
      invariant f.content == PlainRun(Fresh, ops[..done]).content
      invariant |f.descriptors| == PlainRun(Fresh, ops[..done]).open
      invariant answers == PlainRun(Fresh, ops[..done]).answers
      invariant Seen(ops[..done]) && f.form.Some? ==> f.compressor.Some?
      invariant NonePacked(ops[..done]) && f.form.Some? ==> f.content != []
    {
      ghost var p := PlainRun(Fresh, ops[..done]);
      assert ops[..done + 1][..done] == ops[..done] && ops[..done + 1][done] == ops[done];
      var answer := Step(f, ops[done], p);
      assert forall j :: 0 <= j < |f.descriptors| ==> f.descriptors[j] in f.descriptors;
      if answer.Some? {
        answers := answers + [answer.value];
      }
      done := done + 1;
    }
    if done < |ops| && Calm(registry, ops) {
      CalmIsNotMisled(f, ops, done);
    }
  }

  lemma CalmIsNotMisled(f: File, ops: seq<Op>, i: nat)
    requires f.Valid() && Calm(f.registry, ops) && i < |ops| && f.content == PlainRun(Fresh, ops[..i]).content
    requires Seen(ops[..i]) && f.form.Some? ==> f.compressor.Some?
    requires NonePacked(ops[..i]) && f.form.Some? ==> f.content != []
    ensures !f.Misled(ops[i])
  {
  }

  /** Release every descriptor. The file on disk, read back through its own header, then holds the contents,
      whatever they are if it is compressed. */
  method CloseFile(f: File) returns (disk: Data)
    requires f.Valid()
    modifies f, f.descriptors
    ensures f.form == old(f.form) && f.Valid() && disk == f.disk
    ensures f.form == None ==> disk == old(f.content)
    ensures f.form.Some? || ParseHeader(f.registry, old(f.content)) == None ==>
              OnDisk(f.registry, disk) == Holding(old(f.content))
  {
    while f.descriptors != []
      invariant f.Valid() && f.content == old(f.content) && f.form == old(f.form)
      invariant forall j :: 0 <= j < |f.descriptors| ==> f.descriptors[j] in old(f.descriptors)
      decreases |f.descriptors|
    {
      f.Release(f.descriptors[0]);
      assert forall j :: 0 <= j < |f.descriptors| ==> f.descriptors[j] in f.descriptors;
    }
    ClosedReadsBack(f);
    disk := f.disk;
  }

  /** A new file is opened, written from its start to its end, and released: it has been compressed on the way, and is
      read back. */
  method WriteInOrder(registry: Registry, choice: Option<Byte>, chunks: seq<Data>) returns (f: File)
    requires choice.Some? ==> choice.value in registry
    requires |Flatten(chunks)| < 0x8000_0000_0000_0000 && forall i :: 0 <= i < |chunks| ==> chunks[i] != []
    ensures fresh(f) && f.Valid() && f.registry == registry && f.descriptors == [] && f.accesses == 0
    ensures f.content == Flatten(chunks) && f.form == if chunks == [] then None else choice
    ensures f.form.Some? ==> OnDisk(registry, f.disk) == Holding(Flatten(chunks))
  {
    hide Codec.Honest, ParseHeader, HeaderBytes, Pwrite, Flatten, OnDisk, File.Valid, File.HandlesValid, File.Settings, File.Packed,
      File.Raw, File.Forgotten;
    f := new File(registry, choice);
    TooShortForAHeader(registry, []);
    var d := f.Open(false);
    FlattenNothing();
    var at := 0;
    for i := 0 to |chunks|
      invariant fresh(f) && fresh(d) && f.Valid() && f.registry == registry && f.choice == choice
      invariant f.descriptors == [d] && f.accesses == 1 && f.content == Flatten(chunks[..i]) && at == |f.content|
      invariant i == 0 ==> f.form == f.compressor == None && f.size == d.offset == 0 && !f.dontCompress && f.accessType == Unset
      invariant i > 0 ==>
                  f.form == choice && (f.form.Some? ==> f.writer == d) && (f.dontCompress || f.size == -1) && f.content != []
    {
      FlattenPrefix(chunks, i);
      FlattenFits(chunks, i + 1);
      FlowsOn(f, d);
      ghost var was := f.content;
      f.Write(d, chunks[i], at);
      PwriteAtEnd(was, chunks[i]);
      at := at + |chunks[i]|;
    }
    assert chunks[..|chunks|] == chunks;
    f.Release(d);
    ClosedReadsBack(f);
  }

  lemma ClosedReadsBack(f: File)
    requires f.Valid() && f.descriptors == []
    ensures f.form.Some? ==> OnDisk(f.registry, f.disk) == Holding(f.content)
    ensures f.form == None ==> f.disk == f.content
  {
    hide Codec.Honest, ParseHeader, StoredBytes, HeaderBytes, Flatten, OnDisk;
    if f.form.Some? {
      StoredReadsBack(f.registry, f.form.value, f.stored);
    }
  }

  /** Who writes a stream stands at its end. */
  lemma FlowsOn(f: File, d: Descriptor)
    requires f.Valid()
    ensures f.form.Some? && f.writer == d ==> f.accessType == Writing && d.offset == f.size == |f.content| && f.compressor == f.form
    ensures f.form == None ==> f.compressor == None
  {
  }

  lemma FlattenOne(data: Data)
    ensures Flatten([data]) == data
  {
    assert Flatten([data]) == data + Flatten([]);
  }

  lemma FlattenNothing()
    ensures Flatten([]) == []
  {
  }

  lemma FlattenFits(chunks: seq<Data>, i: nat)
    requires i <= |chunks|
    ensures |Flatten(chunks[..i])| <= |Flatten(chunks)|
  {
    assert chunks == chunks[..i] + chunks[i..];
    FlattenAppend(chunks[..i], chunks[i..]);
  }

  method WriteOnce(registry: Registry, choice: Option<Byte>, data: Data) returns (f: File)
    requires (choice.Some? ==> choice.value in registry) && 0 < |data| < 0x8000_0000_0000_0000
    ensures fresh(f) && f.Valid() && f.registry == registry && f.descriptors == [] && f.accesses == 0
    ensures f.content == data && f.form == choice
    ensures if choice == None then f.disk == data else HeaderBytes(Header(choice.value, |data|)) <= f.disk
  {
    hide Codec.Honest, ParseHeader, HeaderBytes, Pwrite, OnDisk, File.Valid;
    FlattenOne(data);
    f := WriteInOrder(registry, choice, [data]);
    HeaderInFront(f);
  }

  lemma HeaderInFront(f: File)
    requires f.Valid()
    ensures if f.form == None then f.disk == f.content else HeaderBytes(Header(f.form.value, |f.content|)) <= f.disk
  {
  }

  /** A run in which a plain file is taken for a compressed one: the twelve bytes of a header are written to a file
      that is not worth compressing, it is released, opened again, and its size is asked for. */
  method AHeaderIsTakenForOne(registry: Registry, id: Byte, size: nat) returns (f: File, told: int)
    requires id in registry && size < 0x8000_0000_0000_0000
    ensures f.content == f.disk == HeaderBytes(Header(id, size)) && f.form == None && f.compressor == Some(id)
    ensures told == size && |f.content| == HEADER_SIZE
  {
    hide Codec.Honest, ParseHeader, HeaderBytes, File.Valid, Flatten, OnDisk;
    var bytes := HeaderBytes(Header(id, size));
    f := WriteOnce(registry, None, bytes);
    HeaderRoundTrip(registry, Header(id, size), []);
    assert HeaderBytes(Header(id, size)) + [] == bytes;
    var _ := f.Open(false);
    told := f.GetSize();
  }

  /** A run in which a compressed file is destroyed: it is written, released and forgotten, and then cut. What is
      left of it are bytes of its header. */
  method ACutDestroysAForgottenFile(registry: Registry, id: Byte, data: Data, n: nat) returns (f: File)
    requires id in registry && 0 < n < HEADER_SIZE && n <= |data| < 0x8000_0000_0000_0000
    ensures f.registry == registry && f.content == data[..n]
    ensures f.disk == HeaderBytes(Header(id, |data|))[..n]
    ensures data[0] != Magic[0] ==> OnDisk(registry, f.disk) != Holding(f.content)
  {
    hide Codec.Honest, ParseHeader, File.Valid, Flatten;
    f := WriteOnce(registry, Some(id), data);
    f.Forget();
    f.Truncate(n);
    TooShortForAHeader(registry, f.disk);
  }

  /** A run that ends at the assertion in the write path, where small files are not spared: an empty file is compressed
      by the worker and opened, and is about to be written from its start. */
  method AnEmptyFileTripsTheAssertion(registry: Registry, choice: Option<Byte>, id: Byte)
    returns (f: File, d: Descriptor)
    requires id in registry && (choice.Some? ==> choice.value in registry)
    ensures f.Valid() && f.content == [] && f.descriptors == [d] && f.OverEmpty(d, 0)
    ensures !f.dontCompress && f.size == 0 && f.accesses == 1 && f.compressor == Some(id)
  {
    hide Codec.Honest, ParseHeader, StoredBytes, HeaderBytes, Flatten, File.Flowing;
    f := new File(registry, choice);
    TooShortForAHeader(registry, []);
    f.Pack(id, 0);
    f.HeaderOnDisk();
    d := f.Open(false);
  }
}
