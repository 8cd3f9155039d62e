/**
 The compressors as the rest of the program sees them, and the header that names one.

 A codec is driven through a handle that accepts chunks and writes to the file whenever it likes; it is
 described by what it has written after a history of chunks and by what closing adds.
 */
module Codecs {
  import opened Bytes
  import Lzo

  /** What decoding a stored stream gives: some bytes, and then a clean end or an error. */
  datatype Stream = Stream(plain: Data, clean: bool)

  datatype Codec = Codec(id: Byte, emit: seq<Data> -> Data, finish: seq<Data> -> Data, decode: Data -> Stream) {

    /** All that is assumed of a codec: written bytes are not taken back, and a closed stream decodes to
        everything that was accepted. */
    ghost predicate Honest() {
      && (forall h: seq<Data>, chunk: Data :: emit(h) <= emit(h + [chunk]))
      && (forall h: seq<Data> :: decode(emit(h) + finish(h)) == Stream(Flatten(h), true))
    }
  }

  /** One read on an open handle that stands at `pos`: the next `n` bytes, fewer at a clean end, or an error if the
      rest cannot be read. */
  method ReadStream(stream: Stream, pos: nat, n: nat) returns (len: int, data: Data)
    requires pos <= |stream.plain|
    ensures len == -1 <==> n > |stream.plain| - pos && !stream.clean
    ensures len != -1 ==> len == |data| == Min(n, |stream.plain| - pos) && data == stream.plain[pos..pos + len]
  {
    if n > |stream.plain| - pos && !stream.clean {
      return -1, [];
    }
    var k := Min(n, |stream.plain| - pos);
    return k, stream.plain[pos..pos + k];
  }

  /** What a file is being used for while it is compressed: nothing yet, reading, or writing a stream. */
  datatype AccessType = Unset | Reading | Writing

  // ----- Two instances -----

  /** The codec that stores bytes as they are. */
  const Null: Codec := Codec(0, h => Flatten(h), h => [], s => Stream(s, true))

  lemma NullIsHonest()
    ensures Null.Honest()
  {
    forall h: seq<Data>, chunk: Data ensures Null.emit(h) <= Null.emit(h + [chunk]) {
      FlattenSnoc(h, chunk);
    }
    forall h: seq<Data> ensures Null.decode(Null.emit(h) + Null.finish(h)) == Stream(Flatten(h), true) {
      assert Flatten(h) + [] == Flatten(h);
    }
  }

  /** The LZO block stream, where `mems(i)` is the work memory of block `i`: full blocks are written early, the
      last at close. */
  function LzoCodec(blocks: Lzo.BlockCodec, mems: nat -> Data): Codec {
    Codec(3,
          h => LzoEmitted(blocks, mems, Flatten(h)),
          h => LzoClosing(blocks, mems, Flatten(h)),
          s => LzoDecoded(blocks, s))
  }

  function LzoEmitted(blocks: Lzo.BlockCodec, mems: nat -> Data, data: Data): Data {
    var b := Lzo.Blocks(data);
    Lzo.Encode(blocks, b[..|b| - 1], Memories(mems, |b| - 1))
  }

  function LzoClosing(blocks: Lzo.BlockCodec, mems: nat -> Data, data: Data): Data {
    var b := Lzo.Blocks(data);
    Lzo.Frame(blocks, b[|b| - 1], mems(|b| - 1))
  }

  function LzoDecoded(blocks: Lzo.BlockCodec, s: Data): Stream {
    var d := Lzo.Decode(blocks, false, s);
    Stream(d.plain, !d.end.Fault?)
  }

  function Memories(mems: nat -> Data, n: nat): (m: seq<Data>)
    ensures |m| == n && forall i :: 0 <= i < n ==> m[i] == mems(i)
  {
    seq(n, i requires 0 <= i => mems(i))
  }

  lemma LzoStream(blocks: Lzo.BlockCodec, mems: nat -> Data, data: Data)
    ensures LzoEmitted(blocks, mems, data) + LzoClosing(blocks, mems, data)
         == Lzo.Encode(blocks, Lzo.Blocks(data), Memories(mems, |Lzo.Blocks(data)|))
  {
    hide Lzo.Encode, Lzo.Frame, Lzo.Blocks, Memories;
    var b := Lzo.Blocks(data);
    var m := Memories(mems, |b| - 1);
    Lzo.EncodeAppend(blocks, b[..|b| - 1], m, b[|b| - 1], mems(|b| - 1));
    assert b == b[..|b| - 1] + [b[|b| - 1]];
    assert Memories(mems, |b|) == m + [mems(|b| - 1)];
  }

  lemma EmittedGrows(blocks: Lzo.BlockCodec, mems: nat -> Data, data: Data, more: Data)
    ensures LzoEmitted(blocks, mems, data) <= LzoEmitted(blocks, mems, data + more)
  {
    hide Lzo.Encode, Lzo.Frame, Lzo.Blocks, Memories;
    var a, b := Lzo.Blocks(data), Lzo.Blocks(data + more);
    Lzo.FullBlocksStay(data, more);
    assert b[..|b| - 1][..|a| - 1] == a[..|a| - 1];
    assert Memories(mems, |b| - 1)[..|a| - 1] == Memories(mems, |a| - 1);
    Lzo.EncodePrefix(blocks, b[..|b| - 1], Memories(mems, |b| - 1), |a| - 1);
  }

  lemma LzoDecodes(blocks: Lzo.BlockCodec, mems: nat -> Data, data: Data)
    requires blocks.Honest()
    ensures LzoDecoded(blocks, LzoEmitted(blocks, mems, data) + LzoClosing(blocks, mems, data)) == Stream(data, true)
  {
    hide Lzo.Encode, Lzo.Frame, Lzo.Blocks, Lzo.Decode, Memories, LzoEmitted, LzoClosing;
    LzoStream(blocks, mems, data);
    Lzo.RoundTrip(blocks, data, Memories(mems, |Lzo.Blocks(data)|));
  }

  lemma LzoStep(blocks: Lzo.BlockCodec, mems: nat -> Data, h: seq<Data>, chunk: Data)
    requires blocks.Honest()
    ensures var c := LzoCodec(blocks, mems);
      && c.emit(h) <= c.emit(h + [chunk])
      && c.decode(c.emit(h) + c.finish(h)) == Stream(Flatten(h), true)
  {
    hide LzoEmitted, LzoClosing, LzoDecoded;
    FlattenSnoc(h, chunk);
    EmittedGrows(blocks, mems, Flatten(h), chunk);
    LzoDecodes(blocks, mems, Flatten(h));
  }

  /** The block stream is a codec in the sense assumed here, whatever the work memories hold, given only an honest
      block compressor. */
  lemma LzoIsHonest(blocks: Lzo.BlockCodec, mems: nat -> Data)
    requires blocks.Honest()
    ensures LzoCodec(blocks, mems).Honest()
  {
    hide LzoCodec;
    var c := LzoCodec(blocks, mems);
    forall h: seq<Data>, chunk: Data ensures c.emit(h) <= c.emit(h + [chunk]) {
      LzoStep(blocks, mems, h, chunk);
    }
    forall h: seq<Data> ensures c.decode(c.emit(h) + c.finish(h)) == Stream(Flatten(h), true) {
      LzoStep(blocks, mems, h, []);
    }
  }

  /** What a writer has put into its file before it is closed is what the codec emits for the accepted bytes. */
  lemma WriterEmits(w: Lzo.Writer, mems: nat -> Data, h: seq<Data>)
    requires w.Valid() && w.accepted == Flatten(h)
    requires forall i :: 0 <= i < |w.mems| ==> w.mems[i] == mems(i)
    ensures w.file == LzoCodec(w.codec, mems).emit(h)
  {
    hide Lzo.Encode, Lzo.Frame, Lzo.Blocks, Memories;
    Lzo.FullBlocksThenLast(w.full, w.buf[..w.psize]);
    assert (w.full + [w.buf[..w.psize]])[..|w.full|] == w.full;
    assert Memories(mems, |w.full|) == w.mems;
  }

  /** A codec that shows damage to the end of a stream: it gives less than everything if the end was cut off, unless
      there was nothing to give, and it does not swallow zeros that were added. */
  ghost predicate ShowsDamage(c: Codec) {
    forall h: seq<Data>, k: nat :: Flatten(h) != [] ==> ShowsCut(c, h, k) && ShowsZeros(c, h, k)
  }

  ghost predicate ShowsCut(c: Codec, h: seq<Data>, k: nat) {
    k < |c.emit(h) + c.finish(h)| ==> |c.decode((c.emit(h) + c.finish(h))[..k]).plain| < |Flatten(h)|
  }

  ghost predicate ShowsZeros(c: Codec, h: seq<Data>, k: nat) {
    k > 0 ==> c.decode(c.emit(h) + c.finish(h) + Zeros(k)) != Stream(Flatten(h), true)
  }

  lemma NullShowsDamage()
    ensures ShowsDamage(Null)
  {
    forall h: seq<Data>, k: nat ensures ShowsZeros(Null, h, k) {
      assert |Null.decode(Null.emit(h) + Null.finish(h) + Zeros(k)).plain| == |Flatten(h)| + k;
    }
  }

  lemma LzoShowsDamage(blocks: Lzo.BlockCodec, mems: nat -> Data)
    requires blocks.Honest()
    ensures ShowsDamage(LzoCodec(blocks, mems))
  {
    hide LzoEmitted, LzoClosing, LzoDecoded;
    var c := LzoCodec(blocks, mems);
    forall h: seq<Data>, k: nat | Flatten(h) != [] ensures ShowsCut(c, h, k) && ShowsZeros(c, h, k) {
      DamageShows(blocks, mems, Flatten(h), k);
    }
  }

  lemma DamageShows(blocks: Lzo.BlockCodec, mems: nat -> Data, data: Data, k: nat)
    requires blocks.Honest() && data != []
    ensures var stream := LzoEmitted(blocks, mems, data) + LzoClosing(blocks, mems, data);
      && (k < |stream| ==> |LzoDecoded(blocks, stream[..k]).plain| < |data|)
      && (k > 0 ==> !LzoDecoded(blocks, stream + Zeros(k)).clean)
  {
    hide Lzo.Encode, Lzo.Frame, Lzo.Blocks, Lzo.Decode, Memories, LzoEmitted, LzoClosing;
    LzoStream(blocks, mems, data);
    var m := Memories(mems, |Lzo.Blocks(data)|);
    if k < |Lzo.Encode(blocks, Lzo.Blocks(data), m)| {
      Lzo.CutStream(blocks, false, data, m, k);
    }
    if k > 0 {
      Lzo.ZerosAreFault(blocks, false, data, m, k);
    }
  }

  // ----- The header -----

  const HEADER_SIZE: nat := 12

  const Magic: Data := [31, 93, 137]

  /** The codec's number and the plain size of the file. */
  datatype Header = Header(id: Byte, size: nat)

  /** The codecs that were compiled in, by number. */
  type Registry = r: map<Byte, Codec> | forall id :: id in r ==> id <= 4 && r[id].id == id && r[id].Honest()
    witness map[]

  function HeaderBytes(h: Header): (b: Data)
    ensures |b| == HEADER_SIZE
  {
    Magic + [h.id] + LittleEndian(h.size, 8)
  }

  /** The header of a file, if it has one that names a known codec. */
  function ParseHeader(registry: Registry, disk: Data): (h: Option<Header>)
    ensures h.Some? ==> |disk| >= HEADER_SIZE && h.value.id in registry
  {
    if |disk| >= HEADER_SIZE && disk[..3] == Magic && disk[3] in registry
    then Some(Header(disk[3], FromLittleEndian(disk[4..12])))
    else None
  }

  /** What was written is read back, with the size in full, exactly when the codec is known. */
  lemma HeaderRoundTrip(registry: Registry, h: Header, rest: Data)
    requires h.size < 0x1_0000_0000_0000_0000
    ensures ParseHeader(registry, HeaderBytes(h) + rest) == if h.id in registry then Some(h) else None
    ensures (HeaderBytes(h) + rest)[HEADER_SIZE..] == rest
  {
    Pow256Values();
    LittleEndianRoundTrip(h.size, 8);
    var d := HeaderBytes(h) + rest;
    assert d[..3] == Magic;
    assert d[4..12] == LittleEndian(h.size, 8);
  }

  /** Where the fields are: the magic bytes 1F 5D 89, the number of the codec, and the size with its lowest byte
      first. */
  lemma HeaderLayout(h: Header)
    ensures HeaderBytes(h)[..4] == [0x1F, 0x5D, 0x89, h.id]
    ensures forall i :: 0 <= i < 8 ==> HeaderBytes(h)[4 + i] == h.size / Pow256(i) % 256
  {
    forall i | 0 <= i < 8 ensures HeaderBytes(h)[4 + i] == h.size / Pow256(i) % 256 {
      LittleEndianAt(h.size, 8, i);
    }
  }

  lemma HeaderIsRead(registry: Registry, disk: Data)
    ensures ParseHeader(registry, disk).Some?
      <==> |disk| >= 12 && disk[0] == 0x1F && disk[1] == 0x5D && disk[2] == 0x89 && disk[3] in registry
    ensures ParseHeader(registry, disk).Some? ==>
      var h := ParseHeader(registry, disk).value;
      && h.id == disk[3]
      && h.size == Word(disk[4], disk[5], disk[6], disk[7]) + 0x1_0000_0000 * Word(disk[8], disk[9], disk[10], disk[11])
  {
    if |disk| >= 12 {
      assert disk[..3] == [disk[0], disk[1], disk[2]];
      EightBytes(disk[4..12]);
    }
  }

  /** Nothing but the bytes of a header is taken for one. */
  lemma OnlyHeadersParse(registry: Registry, disk: Data)
    ensures ParseHeader(registry, disk).Some? <==>
            exists h: Header :: h.id in registry && h.size < 0x1_0000_0000_0000_0000 && HeaderBytes(h) <= disk
    ensures ParseHeader(registry, disk).Some? ==> HeaderBytes(ParseHeader(registry, disk).value) <= disk
  {
    Pow256Values();
    var p := ParseHeader(registry, disk);
    if p.Some? {
      LittleEndianOfValue(disk[4..12]);
      assert disk[..12] == disk[..3] + [disk[3]] + disk[4..12];
      assert HeaderBytes(p.value) <= disk;
    }
    forall h: Header | h.id in registry && h.size < 0x1_0000_0000_0000_0000 && HeaderBytes(h) <= disk
      ensures p == Some(h)
    {
      HeaderRoundTrip(registry, h, disk[HEADER_SIZE..]);
      assert HeaderBytes(h) + disk[HEADER_SIZE..] == disk;
    }
  }
}
