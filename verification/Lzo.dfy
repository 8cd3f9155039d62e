/**
 The LZO block stream: a buffered, block-framed format around an opaque block compressor.

 Every frame is a 16-byte head (plain size and stored size, little endian) and the stored bytes.
 The writer cuts its input into blocks of 524288 bytes; a block that does not shrink is stored raw.
 */
module Lzo {
  import opened Bytes

  const BLOCK: nat := 524288

  /** The block compressor. `compress` may depend on the contents of its work memory. */
  datatype BlockCodec = BlockCodec(compress: (Data, Data) -> Data, decompress: Data -> Option<Data>) {

    /** All that is assumed of the block compressor. */
    ghost predicate Honest() {
      forall x: Data, mem: Data :: decompress(compress(x, mem)) == Some(x)
    }
  }

  /** What the work memory holds when it has been cleared before the call. */
  const ClearedMemory: Data := []

  // ----- The format -----

  function Head(usize: nat, psize: nat): (h: Data)
    ensures |h| == 16
  {
    LittleEndian(usize, 8) + LittleEndian(psize, 8)
  }

  function HeadUsize(h: Data): nat
    requires |h| >= 16
  {
    FromLittleEndian(h[..8])
  }

  function HeadPsize(h: Data): nat
    requires |h| >= 16
  {
    FromLittleEndian(h[8..16])
  }

  /** Where the fields of a block's head are: the plain size in bytes 0 to 7 and the stored size in bytes 8 to 15, each
      with its lowest byte first. */
  lemma HeadLayout(usize: nat, psize: nat)
    ensures forall i :: 0 <= i < 8 ==> Head(usize, psize)[i] == usize / Pow256(i) % 256
    ensures forall i :: 0 <= i < 8 ==> Head(usize, psize)[8 + i] == psize / Pow256(i) % 256
  {
    forall i | 0 <= i < 8
      ensures Head(usize, psize)[i] == usize / Pow256(i) % 256 && Head(usize, psize)[8 + i] == psize / Pow256(i) % 256
    {
      LittleEndianAt(usize, 8, i);
      LittleEndianAt(psize, 8, i);
    }
  }

  lemma HeadIsRead(h: Data)
    requires |h| >= 16
    ensures HeadUsize(h) == Word(h[0], h[1], h[2], h[3]) + 0x1_0000_0000 * Word(h[4], h[5], h[6], h[7])
    ensures HeadPsize(h) == Word(h[8], h[9], h[10], h[11]) + 0x1_0000_0000 * Word(h[12], h[13], h[14], h[15])
  {
    EightBytes(h[..8]);
    EightBytes(h[8..16]);
  }

  lemma HeadRoundTrip(usize: nat, psize: nat, rest: Data)
    requires usize < 0x1_0000_0000_0000_0000 && psize < 0x1_0000_0000_0000_0000
    ensures HeadUsize(Head(usize, psize) + rest) == usize
    ensures HeadPsize(Head(usize, psize) + rest) == psize
  {
    Pow256Values();
    LittleEndianRoundTrip(usize, 8);
    LittleEndianRoundTrip(psize, 8);
    var s := Head(usize, psize) + rest;
    assert s[..8] == LittleEndian(usize, 8);
    assert s[8..16] == LittleEndian(psize, 8);
  }

  /** The bytes stored for one block: compressed only if that is a gain. */
  function Payload(codec: BlockCodec, block: Data, mem: Data): Data {
    var packed := codec.compress(block, mem);
    if |block| <= |packed| then block else packed
  }

  function Frame(codec: BlockCodec, block: Data, mem: Data): Data {
    var p := Payload(codec, block, mem);
    Head(|block|, |p|) + p
  }

  /** A stream is one frame per block; `mems[i]` is the work memory block `i` was compressed with. */
  function Encode(codec: BlockCodec, blocks: seq<Data>, mems: seq<Data>): Data
    requires |mems| == |blocks|
  {
    if blocks == [] then [] else Frame(codec, blocks[0], mems[0]) + Encode(codec, blocks[1..], mems[1..])
  }

  /** The one way the writer cuts `data` into blocks, whatever the sizes of the writes. */
  function Blocks(data: Data): (blocks: seq<Data>)
    ensures blocks != []
  {
    if |data| <= BLOCK then [data] else [data[..BLOCK]] + Blocks(data[BLOCK..])
  }

  /** How a stream can end, as its reader sees it: at the end of the file, at an empty block that finds no
      buffer (with the bytes that follow it), or at something that cannot be read. */
  datatype End = Eof | Stop(after: Data) | Fault

  datatype Decoded = Decoded(plain: Data, end: End)

  /** What `stream` still has to give. `hasBuffer` says whether a block buffer is allocated: an empty block
      shrinks an allocated buffer to nothing, which the reader takes for an allocation failure, while
      without a buffer it looks like the end of the stream. */
  function Decode(codec: BlockCodec, hasBuffer: bool, stream: Data): Decoded
    decreases |stream|
  {
    if stream == [] then Decoded([], Eof)
    else if |stream| < 16 then Decoded([], Fault)
    else
      match ReadPayload(codec, stream)
      case None => Decoded([], Fault)
      case Some(block) =>
        var after := stream[16 + HeadPsize(stream)..];
        if block == [] then
          if hasBuffer then Decoded([], Fault) else Decoded([], Stop(after))
        else
          var rest := Decode(codec, true, after);
          Decoded(block + rest.plain, rest.end)
  }

  /** The block of the frame at the start of `stream`, if the frame is whole and decompresses to its size. */
  function ReadPayload(codec: BlockCodec, stream: Data): (block: Option<Data>)
    requires |stream| >= 16
    ensures block.Some? ==> 16 + HeadPsize(stream) <= |stream| && |block.value| == HeadUsize(stream)
  {
    var usize, psize := HeadUsize(stream), HeadPsize(stream);
    if |stream| < 16 + psize then None
    else if usize == psize then Some(stream[16..16 + psize])
    else
      var plain := codec.decompress(stream[16..16 + psize]);
      if plain.Some? && |plain.value| == usize then plain else None
  }

  // ----- Properties of the format -----

  lemma FrameReadsBack(codec: BlockCodec, block: Data, mem: Data, rest: Data)
    requires codec.Honest()
    requires |block| <= BLOCK
    ensures var s := Frame(codec, block, mem) + rest;
            && |s| >= 16
            && ReadPayload(codec, s) == Some(block)
            && s[16 + HeadPsize(s)..] == rest
  {
    var p := Payload(codec, block, mem);
    var s := Frame(codec, block, mem) + rest;
    assert s == Head(|block|, |p|) + (p + rest);
    HeadRoundTrip(|block|, |p|, p + rest);
    assert s[16..16 + |p|] == p;
    assert s[16 + |p|..] == rest;
    assert codec.decompress(codec.compress(block, mem)) == Some(block);
  }

  /** Every block but the last is full, and the last is empty only in the stream of no data. */
  lemma {:induction false} BlockShape(data: Data)
    ensures Flatten(Blocks(data)) == data
    ensures forall i :: 0 <= i < |Blocks(data)| - 1 ==> |Blocks(data)[i]| == BLOCK
    ensures |Blocks(data)[|Blocks(data)| - 1]| <= BLOCK
    ensures Blocks(data)[|Blocks(data)| - 1] == [] <==> data == []
    ensures |Blocks(data)| == if data == [] then 1 else (|data| + BLOCK - 1) / BLOCK
    decreases |data|
  {
    if |data| <= BLOCK {
      assert Flatten([data]) == data + Flatten([]);
    } else {
      BlockShape(data[BLOCK..]);
      assert data == data[..BLOCK] + data[BLOCK..];
      assert Blocks(data)[1..] == Blocks(data[BLOCK..]);
      assert (|data| + BLOCK - 1) / BLOCK == (|data| - BLOCK + BLOCK - 1) / BLOCK + 1;
    }
  }

  /** Decoding takes the frames off one by one. */
  lemma DecodeFrame(codec: BlockCodec, hasBuffer: bool, block: Data, mem: Data, rest: Data)
    requires codec.Honest() && |block| <= BLOCK && block != []
    ensures var d := Decode(codec, true, rest);
            Decode(codec, hasBuffer, Frame(codec, block, mem) + rest) == Decoded(block + d.plain, d.end)
  {
    FrameReadsBack(codec, block, mem, rest);
  }

  lemma {:induction false} DecodeBlocks(codec: BlockCodec, hasBuffer: bool, data: Data, mems: seq<Data>)
    requires codec.Honest()
    requires |mems| == |Blocks(data)|
    requires data != []
    ensures Decode(codec, hasBuffer, Encode(codec, Blocks(data), mems)) == Decoded(data, Eof)
    decreases |data|
  {
    var blocks := Blocks(data);
    var rest := Encode(codec, blocks[1..], mems[1..]);
    DecodeFrame(codec, hasBuffer, blocks[0], mems[0], rest);
    if |data| <= BLOCK {
      assert rest == [];
      assert data + [] == data;
    } else {
      assert blocks[1..] == Blocks(data[BLOCK..]);
      DecodeBlocks(codec, true, data[BLOCK..], mems[1..]);
      assert data == data[..BLOCK] + data[BLOCK..];
    }
  }

  /** The stream of no data is one empty frame, which its reader takes for the end. */
  lemma DecodeEmpty(codec: BlockCodec, mem: Data)
    requires codec.Honest()
    ensures Decode(codec, false, Encode(codec, [[]], [mem])) == Decoded([], Stop([]))
  {
    FrameReadsBack(codec, [], mem, []);
    assert Encode(codec, [[]], [mem]) == Frame(codec, [], mem) + [];
  }

  /** Round trip: what was written is what a fresh reader of the stream has to give, with a clean end. */
  lemma RoundTrip(codec: BlockCodec, data: Data, mems: seq<Data>)
    requires codec.Honest()
    requires |mems| == |Blocks(data)|
    ensures Decode(codec, false, Encode(codec, Blocks(data), mems)).plain == data
    ensures Decode(codec, false, Encode(codec, Blocks(data), mems)).end in {Eof, Stop([])}
  {
    if data == [] {
      assert Blocks(data) == [[]] && mems == [mems[0]];
      DecodeEmpty(codec, mems[0]);
    } else {
      DecodeBlocks(codec, false, data, mems);
    }
  }

  lemma {:induction false} EncodeSize(codec: BlockCodec, blocks: seq<Data>, mems: seq<Data>)
    requires |mems| == |blocks|
    ensures |Encode(codec, blocks, mems)| <= |Flatten(blocks)| + 16 * |blocks|
    ensures |Encode(codec, blocks, mems)| >= 16 * |blocks|
  {
    if blocks != [] {
      EncodeSize(codec, blocks[1..], mems[1..]);
    }
  }

  /** A stream never outgrows its data by more than one head per started block of 512 KiB. */
  lemma SizeBound(codec: BlockCodec, data: Data, mems: seq<Data>)
    requires |mems| == |Blocks(data)|
    ensures |Encode(codec, Blocks(data), mems)|
         <= |data| + 16 * (if data == [] then 1 else (|data| + BLOCK - 1) / BLOCK)
  {
    BlockShape(data);
    EncodeSize(codec, Blocks(data), mems);
  }

  /** The head's two sizes agree exactly when the block was stored as it is. */
  lemma StoredRawIffSizesAgree(codec: BlockCodec, block: Data, mem: Data, rest: Data)
    requires codec.Honest() && |block| <= BLOCK
    ensures var s := Frame(codec, block, mem) + rest;
            HeadUsize(s) == HeadPsize(s) <==> |codec.compress(block, mem)| >= |block|
    ensures var s := Frame(codec, block, mem) + rest;
            HeadUsize(s) == HeadPsize(s) ==> |s| >= 16 + |block| && s[16..16 + |block|] == block
  {
    var p := Payload(codec, block, mem);
    assert Frame(codec, block, mem) + rest == Head(|block|, |p|) + (p + rest);
    HeadRoundTrip(|block|, |p|, p + rest);
    var s := Frame(codec, block, mem) + rest;
    assert s[16..16 + |p|] == p;
  }

  lemma {:induction false} EncodeAppend(codec: BlockCodec, blocks: seq<Data>, mems: seq<Data>, block: Data, mem: Data)
    requires |mems| == |blocks|
    ensures Encode(codec, blocks + [block], mems + [mem]) == Encode(codec, blocks, mems) + Frame(codec, block, mem)
  {
    if blocks == [] {
      assert Encode(codec, [block], [mem]) == Frame(codec, block, mem) + Encode(codec, [], []);
    } else {
      assert (blocks + [block])[1..] == blocks[1..] + [block];
      assert (mems + [mem])[1..] == mems[1..] + [mem];
      EncodeAppend(codec, blocks[1..], mems[1..], block, mem);
    }
  }

  lemma {:induction false} EncodePrefix(codec: BlockCodec, blocks: seq<Data>, mems: seq<Data>, n: nat)
    requires |mems| == |blocks| && n <= |blocks|
    ensures Encode(codec, blocks[..n], mems[..n]) <= Encode(codec, blocks, mems)
  {
    if n > 0 {
      EncodePrefix(codec, blocks[1..], mems[1..], n - 1);
      EncodeFirst(codec, blocks, mems, n);
    }
  }

  /** Blocks that were full stay as they are when more data follows. */
  lemma {:induction false} FullBlocksStay(data: Data, more: Data)
    ensures var a, b := Blocks(data), Blocks(data + more);
      |a| <= |b| && a[..|a| - 1] == b[..|a| - 1]
    decreases |data|
  {
    if |data| > BLOCK {
      assert (data + more)[..BLOCK] == data[..BLOCK] && (data + more)[BLOCK..] == data[BLOCK..] + more;
      FullBlocksStay(data[BLOCK..], more);
    }
  }

  /** Full blocks followed by one last block that is not empty are the canonical cut of their concatenation. */
  lemma {:induction false} FullBlocksThenLast(full: seq<Data>, last: Data)
    requires forall i :: 0 <= i < |full| ==> |full[i]| == BLOCK
    requires |last| <= BLOCK && (last == [] ==> full == [])
    ensures Blocks(Flatten(full) + last) == full + [last]
  {
    if full == [] {
      assert Flatten(full) + last == last;
    } else {
      var data := Flatten(full) + last;
      FullBlocksThenLast(full[1..], last);
      assert data == full[0] + (Flatten(full[1..]) + last);
      if full[1..] != [] {
        assert |full[1..][0]| == BLOCK;
      }
      assert |Flatten(full[1..]) + last| > 0;
      assert data[..BLOCK] == full[0] && data[BLOCK..] == Flatten(full[1..]) + last;
      assert full + [last] == [full[0]] + (full[1..] + [last]);
    }
  }

  /** A frame that is cut off cannot be read, unless nothing of it is left. */
  lemma CutFrameIsFault(codec: BlockCodec, hasBuffer: bool, block: Data, mem: Data, k: nat)
    requires |block| <= BLOCK && 0 < k < |Frame(codec, block, mem)|
    ensures Decode(codec, hasBuffer, Frame(codec, block, mem)[..k]) == Decoded([], Fault)
  {
    var p := Payload(codec, block, mem);
    var s := Frame(codec, block, mem)[..k];
    if k >= 16 {
      assert s == Head(|block|, |p|) + p[..k - 16];
      HeadRoundTrip(|block|, |p|, p[..k - 16]);
    }
  }

  /** How many whole frames lie in the first `k` bytes of a stream. */
  function WholeFrames(codec: BlockCodec, blocks: seq<Data>, mems: seq<Data>, k: nat): (n: nat)
    requires |mems| == |blocks|
    ensures n <= |blocks|
  {
    if blocks == [] || k < |Frame(codec, blocks[0], mems[0])| then 0
    else 1 + WholeFrames(codec, blocks[1..], mems[1..], k - |Frame(codec, blocks[0], mems[0])|)
  }

  /** These frames are no longer than `k` bytes, and with one more they would be. */
  lemma {:induction false} WholeFramesFit(codec: BlockCodec, blocks: seq<Data>, mems: seq<Data>, k: nat)
    requires |mems| == |blocks|
    ensures var n := WholeFrames(codec, blocks, mems, k);
      && |Encode(codec, blocks[..n], mems[..n])| <= k
      && (n < |blocks| ==> k < |Encode(codec, blocks[..n + 1], mems[..n + 1])|)
      && (n == |blocks| <==> |Encode(codec, blocks, mems)| <= k)
  {
    if blocks != [] {
      var frame := Frame(codec, blocks[0], mems[0]);
      EncodeFirst(codec, blocks, mems, 1);
      if k >= |frame| {
        var n := WholeFrames(codec, blocks[1..], mems[1..], k - |frame|);
        WholeFramesFit(codec, blocks[1..], mems[1..], k - |frame|);
        EncodeFirst(codec, blocks, mems, n + 1);
        if n + 1 < |blocks| {
          EncodeFirst(codec, blocks, mems, n + 2);
        }
      }
    }
  }

  lemma EncodeFirst(codec: BlockCodec, blocks: seq<Data>, mems: seq<Data>, n: nat)
    requires |mems| == |blocks| && 0 < n <= |blocks|
    ensures Encode(codec, blocks[..n], mems[..n])
         == Frame(codec, blocks[0], mems[0]) + Encode(codec, blocks[1..][..n - 1], mems[1..][..n - 1])
  {
    assert blocks[..n][1..] == blocks[1..][..n - 1] && mems[..n][1..] == mems[1..][..n - 1];
  }

  /** Of a stream that is cut off anywhere, exactly the whole frames in front of the cut are given, and then
      there is a clean end if the cut lies between two frames, and an error if not. */
  lemma {:induction false} CutStream(codec: BlockCodec, hasBuffer: bool, data: Data, mems: seq<Data>, k: nat)
    requires codec.Honest() && |mems| == |Blocks(data)| && data != []
    requires k < |Encode(codec, Blocks(data), mems)|
    ensures var blocks := Blocks(data); var n := WholeFrames(codec, blocks, mems, k);
      && n < |blocks| && BLOCK * n < |data|
      && Decode(codec, hasBuffer, Encode(codec, blocks, mems)[..k])
         == Decoded(data[..BLOCK * n], if k == |Encode(codec, blocks[..n], mems[..n])| then Eof else Fault)
    decreases |data|
  {
    hide *;
    var blocks := Blocks(data);
    var frame, rest := Frame(codec, blocks[0], mems[0]), Encode(codec, blocks[1..], mems[1..]);
    FirstBlock(codec, data, mems, k);
    var stream := Encode(codec, blocks, mems);
    if k < |frame| {
      assert stream[..k] == frame[..k];
      if k > 0 {
        CutFrameIsFault(codec, hasBuffer, blocks[0], mems[0], k);
      } else {
        DecodeNothing(codec, hasBuffer);
      }
    } else {
      var n := WholeFrames(codec, blocks[1..], mems[1..], k - |frame|);
      CutStream(codec, true, data[BLOCK..], mems[1..], k - |frame|);
      assert stream[..k] == frame + rest[..k - |frame|];
      DecodeFrame(codec, hasBuffer, blocks[0], mems[0], rest[..k - |frame|]);
      EncodeFirst(codec, blocks, mems, n + 1);
      assert data[..BLOCK] + data[BLOCK..][..BLOCK * n] == data[..BLOCK * (n + 1)];
    }
  }

  /** The first block of a stream, and what is left of it behind a cut. */
  lemma FirstBlock(codec: BlockCodec, data: Data, mems: seq<Data>, k: nat)
    requires |mems| == |Blocks(data)| && data != []
    ensures var blocks := Blocks(data); var first := Frame(codec, blocks[0], mems[0]);
      && blocks[0] != [] && blocks[0] == data[..Min(BLOCK, |data|)]
      && |first| > 0
      && Encode(codec, blocks, mems) == first + Encode(codec, blocks[1..], mems[1..])
      && Encode(codec, blocks[..0], mems[..0]) == []
      && (if |data| <= BLOCK then Encode(codec, blocks[1..], mems[1..]) == [] else blocks[1..] == Blocks(data[BLOCK..]))
      && WholeFrames(codec, blocks, mems, k)
         == if k < |first| then 0 else 1 + WholeFrames(codec, blocks[1..], mems[1..], k - |first|)
  {
  }

  lemma DecodeNothing(codec: BlockCodec, hasBuffer: bool)
    ensures Decode(codec, hasBuffer, []) == Decoded([], Eof)
  {
  }

  /** Zeros behind a stream of some data are read as an error, whether they make a head or not. */
  lemma {:induction false} ZerosAreFault(codec: BlockCodec, hasBuffer: bool, data: Data, mems: seq<Data>, k: nat)
    requires codec.Honest() && |mems| == |Blocks(data)| && data != [] && k > 0
    ensures Decode(codec, hasBuffer, Encode(codec, Blocks(data), mems) + Zeros(k)).end == Fault
    decreases |data|
  {
    hide *;
    var blocks := Blocks(data);
    var rest := Encode(codec, blocks[1..], mems[1..]);
    FirstBlock(codec, data, mems, 0);
    assert Encode(codec, blocks, mems) + Zeros(k) == Frame(codec, blocks[0], mems[0]) + (rest + Zeros(k));
    DecodeFrame(codec, hasBuffer, blocks[0], mems[0], rest + Zeros(k));
    if |data| <= BLOCK {
      assert rest + Zeros(k) == Zeros(k);
      NoHeadOfZeros(codec, k);
    } else {
      ZerosAreFault(codec, true, data[BLOCK..], mems[1..], k);
    }
  }

  lemma NoHeadOfZeros(codec: BlockCodec, k: nat)
    requires k > 0
    ensures Decode(codec, true, Zeros(k)).end == Fault
  {
    if k >= 16 {
      assert Zeros(k)[..8] == Zeros(8);
      ValueOfZeros(8);
      EmptyBlockIsFault(codec, Zeros(k));
    }
  }

  lemma EmptyBlockIsFault(codec: BlockCodec, stream: Data)
    requires |stream| >= 16 && HeadUsize(stream) == 0
    ensures Decode(codec, true, stream) == Decoded([], Fault)
  {
    var block := ReadPayload(codec, stream);
    assert block.Some? ==> block.value == [];
  }

  // ----- The writer -----

  /** A stream open for writing: `lzoFile` in mode LZO_WRITE. `file` is what the descriptor has been given. */
  class Writer {
    const codec: BlockCodec
    const dedupEnabled: bool
    const buf: array<Byte>
    var psize: nat
    var blockoff: nat
    var file: Data

    /** The full blocks already flushed, the work memory each was compressed with, and all input so far. */
    ghost var full: seq<Data>
    ghost var mems: seq<Data>
    ghost var accepted: Data

    /** The bytes in the file are the full blocks so far. */
    ghost predicate Flushed()
      reads this`full, this`mems, this`file
    {
      && |mems| == |full|
      && (forall i :: 0 <= i < |full| ==> |full[i]| == BLOCK)
      && file == Encode(codec, full, mems)
      && (dedupEnabled ==> forall m :: m in mems ==> m == ClearedMemory)
    }

    /** The bytes in the buffer are the rest. */
    ghost predicate Buffered()
      reads this`blockoff, this`psize, this`full, this`accepted, buf
    {
      && buf.Length == BLOCK
      && blockoff == psize <= BLOCK
      && accepted == Flatten(full) + buf[..psize]
    }

    /** Between calls the buffer is never empty once something was flushed. */
    ghost predicate Valid()
      reads this, buf
    {
      Flushed() && Buffered() && (psize == 0 ==> full == [])
    }

    constructor (codec: BlockCodec, dedupEnabled: bool)
      ensures Valid() && fresh(buf)
      ensures accepted == [] && file == []
      ensures this.codec == codec && this.dedupEnabled == dedupEnabled
    {
      this.codec, this.dedupEnabled := codec, dedupEnabled;
      buf := new Byte[BLOCK];
      psize, blockoff, file := 0, 0, [];
      full, mems, accepted := [], [], [];
    }

    /** Compress the buffered bytes and append their frame to the file. The work memory is uninitialised
        unless deduplication asks for reproducible output. */
    method WriteBlock() returns (ghost mem: Data)
      requires buf.Length == BLOCK && psize <= BLOCK
      modifies this`file
      ensures file == old(file) + Frame(codec, buf[..psize], mem)
      ensures dedupEnabled ==> mem == ClearedMemory
    {
      var wrkmem: Data := *;
      if dedupEnabled {
        wrkmem := ClearedMemory;
      }
      mem := wrkmem;
      var out := codec.compress(buf[..psize], wrkmem);
      if psize <= |out| {
        file := file + (Head(psize, psize) + buf[..psize]);
      } else {
        file := file + (Head(psize, |out|) + out);
      }
    }

    /** Append `data`. A full block goes to the file only once another byte arrives. */
    method Write(data: Data) returns (len: nat)
      requires Valid()
      modifies this, buf
      ensures Valid()
      ensures len == |data| && accepted == old(accepted) + data
      ensures old(file) <= file
    {
      var pos := 0;
      while pos < |data|
        invariant Flushed() && Buffered() && 0 <= pos <= |data|
        invariant pos == |data| ==> Valid()
        invariant accepted == old(accepted) + data[..pos]
        invariant old(file) <= file
        decreases |data| - pos, psize
      {
        pos := FillBlock(data, pos, old(accepted));
        if pos == |data| {
          break;
        }
        FlushFull();
      }
      assert data[..pos] == data;
      len := pos;
    }

    /** The inner loop of a write: copy bytes until the input or the room in the block runs out. */
    method FillBlock(data: Data, start: nat, ghost before: Data) returns (pos: nat)
      requires Buffered() && start < |data| && accepted == before + data[..start]
      modifies this`psize, this`blockoff, this`accepted, buf
      ensures Buffered() && psize > 0 && start <= pos <= |data|
      ensures accepted == before + data[..pos]
      ensures pos == |data| || psize == BLOCK
      ensures pos == start ==> psize == old(psize)
    {
      pos := start;
      while pos < |data| && blockoff < BLOCK
        invariant Buffered() && start <= pos <= |data|
        invariant psize == old(psize) + (pos - start)
        invariant accepted == before + data[..pos]
      {
        CopyByte(data[pos]);
        pos := pos + 1;
        assert data[..pos] == data[..pos - 1] + [data[pos - 1]];
      }
    }

    /** One byte into the buffer. */
    method CopyByte(b: Byte)
      requires Buffered() && psize < BLOCK
      modifies this`psize, this`blockoff, this`accepted, buf
      ensures Buffered() && psize == old(psize) + 1
      ensures accepted == old(accepted) + [b]
    {
      ghost var before := buf[..psize];
      buf[blockoff] := b;
      blockoff, psize := blockoff + 1, psize + 1;
      accepted := accepted + [b];
      assert buf[..psize] == before + [b];
      assert Flatten(full) + (before + [b]) == (Flatten(full) + before) + [b];
    }

    /** The block is full: write it and start the next one. */
    method FlushFull()
      requires Flushed() && Buffered() && psize == BLOCK
      modifies this`file, this`full, this`mems, this`psize, this`blockoff
      ensures Flushed() && Buffered() && psize == 0
      ensures old(file) <= file
    {
      ghost var block := buf[..psize];
      ghost var mem := WriteBlock();
      EncodeAppend(codec, full, mems, block, mem);
      FlattenSnoc(full, block);
      full, mems := full + [block], mems + [mem];
      blockoff, psize := 0, 0;
      assert buf[..psize] == [];
    }

    /** Flush the last block and close. The stream depends on the accepted bytes and the work memories only;
        with deduplication on, on the accepted bytes alone. */
    method Close() returns (stream: Data, ghost allMems: seq<Data>)
      requires Valid()
      modifies this`file
      ensures file == stream
      ensures |allMems| == |Blocks(accepted)|
      ensures stream == Encode(codec, Blocks(accepted), allMems)
      ensures dedupEnabled ==> stream == Canonical(codec, accepted)
    {
      ghost var last := buf[..psize];
      ghost var mem := WriteBlock();
      EncodeAppend(codec, full, mems, last, mem);
      FullBlocksThenLast(full, last);
      allMems := mems + [mem];
      stream := file;
      if dedupEnabled {
        AllCleared(allMems);
      }
    }
  }

  /** The stream of `data` when the work memory is cleared for every block. */
  function Canonical(codec: BlockCodec, data: Data): Data {
    Encode(codec, Blocks(data), seq(|Blocks(data)|, _ => ClearedMemory))
  }

  lemma AllCleared(mems: seq<Data>)
    requires forall m :: m in mems ==> m == ClearedMemory
    ensures mems == seq(|mems|, _ => ClearedMemory)
  {
    forall i | 0 <= i < |mems| ensures mems[i] == ClearedMemory {
      assert mems[i] in mems;
    }
  }

  /** What a stream of `data` promises, however it was produced. */
  ghost predicate GoodStream(codec: BlockCodec, dedupEnabled: bool, data: Data, stream: Data) {
    && Decode(codec, false, stream).plain == data
    && Decode(codec, false, stream).end in {Eof, Stop([])}
    && |stream| <= |data| + 16 * (if data == [] then 1 else (|data| + BLOCK - 1) / BLOCK)
    && (dedupEnabled ==> stream == Canonical(codec, data))
  }

  lemma EncodedIsGood(codec: BlockCodec, dedupEnabled: bool, data: Data, mems: seq<Data>)
    requires codec.Honest() && |mems| == |Blocks(data)|
    requires dedupEnabled ==> Encode(codec, Blocks(data), mems) == Canonical(codec, data)
    ensures GoodStream(codec, dedupEnabled, data, Encode(codec, Blocks(data), mems))
  {
    RoundTrip(codec, data, mems);
    SizeBound(codec, data, mems);
  }

  /** Write any sequence of pieces and close: the stream decodes to their concatenation, and with
      deduplication on it does not depend on where the pieces were cut. */
  method WriteAll(codec: BlockCodec, dedupEnabled: bool, pieces: seq<Data>) returns (stream: Data)
    requires codec.Honest()
    ensures GoodStream(codec, dedupEnabled, Flatten(pieces), stream)
  {
    var w := new Writer(codec, dedupEnabled);
    var i := 0;
    while i < |pieces|
      invariant 0 <= i <= |pieces|
      invariant w.Valid() && fresh(w) && fresh(w.buf)
      invariant w.accepted == Flatten(pieces[..i])
    {
      var _ := w.Write(pieces[i]);
      FlattenPrefix(pieces, i);
      i := i + 1;
    }
    assert pieces[..i] == pieces;
    ghost var mems;
    stream, mems := w.Close();
    EncodedIsGood(codec, dedupEnabled, Flatten(pieces), mems);
  }

  // ----- The reader -----

  /** A stream open for reading: `lzoFile` in mode LZO_READ. `file[pos..]` is what the descriptor has left. */
  class Reader {
    const codec: BlockCodec
    const file: Data
    var pos: nat
    var buf: array?<Byte>
    var usize: nat
    var blockoff: nat

    ghost predicate Valid()
      reads this, buf
    {
      && pos <= |file|
      && (buf == null ==> usize == 0 && blockoff == 0)
      && (buf != null ==> 0 < buf.Length == usize && blockoff <= usize)
    }

    /** What is left to deliver: the rest of the block in memory and the blocks still in the file. */
    ghost function Remaining(): Decoded
      requires Valid()
      reads this, buf
    {
      var d := Decode(codec, buf != null, file[pos..]);
      Decoded((if buf == null then [] else buf[blockoff..]) + d.plain, d.end)
    }

    constructor (codec: BlockCodec, file: Data)
      ensures Valid() && Remaining() == Decode(codec, false, file)
      ensures this.codec == codec && this.file == file && buf == null
    {
      this.codec, this.file := codec, file;
      pos, usize, blockoff, buf := 0, 0, 0, null;
      new;
      assert file[pos..] == file;
      assert [] + Decode(codec, false, file).plain == Decode(codec, false, file).plain;
    }

    /** Forget the block, as at the end of the stream and after an error. */
    method ClearBlock()
      modifies this`buf, this`usize, this`blockoff
      ensures buf == null && usize == 0 && blockoff == 0
    {
      buf, usize, blockoff := null, 0, 0;
    }

    /** Read the next block into the buffer; -1 is an error, an absent buffer the end. */
    method LoadBlock() returns (r: int)
      requires Valid() && blockoff == usize
      modifies this
      ensures Valid() && (buf != null ==> fresh(buf) || buf == old(buf))
      ensures r == -1 || r == 0
      ensures r == -1 ==> old(Remaining()) == Decoded([], Fault)
      ensures r == 0 && buf != null ==> Remaining() == old(Remaining()) && pos > old(pos)
      ensures r == 0 && buf == null ==> old(Remaining()).plain == [] && !old(Remaining()).end.Fault?
      ensures r == 0 && buf == null && old(Remaining()).end.Eof? ==> Remaining() == Decoded([], Eof)
      ensures r == 0 && buf == null && old(Remaining()).end.Stop? ==>
                Remaining() == Decode(codec, false, old(Remaining()).end.after)
      modifies buf
    {
      blockoff := 0;
      ghost var hasBuffer := buf != null;
      var tail := file[pos..];
      assert old(Remaining()) == Decode(codec, hasBuffer, tail) by {
        assert (if old(buf) == null then [] else old(buf[blockoff..])) == [];
      }
      if tail == [] {
        ClearBlock();
        return 0;
      }
      if |tail| < 16 {
        pos := |file|;
        ClearBlock();
        return -1;
      }
      var headUsize := HeadUsize(tail);
      if usize != headUsize && headUsize == 0 {
        // shrinking the buffer to nothing yields a null pointer, which counts as a failed allocation
        EmptyBlockIsFault(codec, tail);
        pos := pos + 16;
        ClearBlock();
        return -1;
      }
      var plain := FetchBlock();
      if plain.None? {
        ClearBlock();
        return -1;
      }
      if headUsize != 0 {
        // without a buffer, an empty block needs none either
        FillBuffer(plain.value);
      }
      return 0;
    }

    /** Read the head and the stored bytes of the next frame and recover its block. */
    method FetchBlock() returns (block: Option<Data>)
      requires pos <= |file| && |file[pos..]| >= 16
      modifies this`pos
      ensures old(pos) < pos <= |file|
      ensures block == ReadPayload(codec, old(file[pos..]))
      ensures block.Some? ==> file[pos..] == old(file[pos..])[16 + HeadPsize(old(file[pos..]))..]
    {
      var tail := file[pos..];
      var headUsize, headPsize := HeadUsize(tail), HeadPsize(tail);
      pos := pos + 16;
      if headPsize > |file| - pos {
        pos := |file|;
        return None;
      }
      var stored := file[pos..pos + headPsize];
      assert stored == tail[16..16 + headPsize];
      pos := pos + headPsize;
      if headUsize == headPsize {
        return Some(stored);
      }
      var out := codec.decompress(stored);
      return if out.Some? && |out.value| == headUsize then out else None;
    }

    /** Make the buffer as large as the block and copy the block into it. */
    method FillBuffer(plain: Data)
      requires plain != []
      requires buf != null ==> buf.Length == usize
      requires buf == null ==> usize == 0
      modifies this`buf, this`usize, buf
      ensures buf != null && buf.Length == usize == |plain| && buf[..] == plain
      ensures fresh(buf) || buf == old(buf)
    {
      if usize != |plain| {
        buf := new Byte[|plain|];
      }
      forall i | 0 <= i < |plain| {
        buf[i] := plain[i];
      }
      usize := |plain|;
    }

    /** Deliver up to `n` bytes. Fewer are delivered only at the end of the stream; an error is reported
        only when the request reaches beyond what can be read. */
    method Read(n: nat) returns (r: int, out: Data)
      requires Valid()
      modifies this, buf
      ensures Valid() && (buf != null ==> fresh(buf) || buf == old(buf))
      ensures r == -1 <==> n > |old(Remaining()).plain| && old(Remaining()).end.Fault?
      ensures r != -1 ==> r == |out| == Min(n, |old(Remaining()).plain|) && out == old(Remaining()).plain[..r]
      ensures r == n ==> Remaining() == Decoded(old(Remaining()).plain[n..], old(Remaining()).end)
      ensures 0 <= r < n && old(Remaining()).end.Eof? ==> Remaining() == Decoded([], Eof)
      ensures 0 <= r < n && old(Remaining()).end.Stop? ==>
                Remaining() == Decode(codec, false, old(Remaining()).end.after)
    {
      ghost var all := Remaining();
      out := [];
      assert out + Remaining().plain == all.plain;
      while |out| < n
        invariant Valid() && (buf != null ==> fresh(buf) || buf == old(buf)) && |out| <= n
        invariant out + Remaining().plain == all.plain
        invariant Remaining().end == all.end
        decreases |file| - pos, n - |out|
      {
        out := DrainBlock(n, out, all);
        if |out| == n {
          break;
        }
        r := LoadBlock();
        if r == -1 {
          assert |all.plain| == |out|;
          return -1, out;
        } else if buf == null {
          assert all.plain == out;
          return |out|, out;
        }
      }
      assert all.plain[..n] == out && all.plain[n..] == Remaining().plain;
      r := |out|;
    }

    /** The inner loop of a read: copy bytes out of the block until it or the request is used up. */
    method DrainBlock(n: nat, got: Data, ghost all: Decoded) returns (out: Data)
      requires Valid() && |got| < n
      requires got + Remaining().plain == all.plain && Remaining().end == all.end
      modifies this`blockoff
      ensures Valid() && |got| <= |out| <= n
      ensures out + Remaining().plain == all.plain && Remaining().end == all.end
      ensures |out| == n || blockoff == usize
    {
      out := got;
      while |out| < n && blockoff < usize
        invariant Valid() && |got| <= |out| <= n
        invariant out + Remaining().plain == all.plain && Remaining().end == all.end
      {
        var b := TakeByte();
        out := out + [b];
      }
    }

    /** One byte out of the buffer. */
    method TakeByte() returns (b: Byte)
      requires Valid() && blockoff < usize
      modifies this`blockoff
      ensures Valid()
      ensures old(Remaining()).plain == [b] + Remaining().plain
      ensures old(Remaining()).end == Remaining().end
    {
      b := buf[blockoff];
      assert buf[blockoff..] == [b] + buf[blockoff + 1..];
      blockoff := blockoff + 1;
    }
  }

  /** What reads of the given sizes return: consecutive slices, then nothing. */
  function Deliver(data: Data, sizes: seq<nat>): (slices: seq<Data>)
    ensures |slices| == |sizes|
  {
    if sizes == [] then []
    else
      var k := Min(sizes[0], |data|);
      [data[..k]] + Deliver(data[k..], sizes[1..])
  }

  /** The slices are a prefix of the data, as long as the sizes ask for; none are reordered or repeated. */
  lemma {:induction false} DeliverIsPrefix(data: Data, sizes: seq<nat>)
    ensures Flatten(Deliver(data, sizes)) <= data
    ensures |Flatten(Deliver(data, sizes))| == Min(Total(sizes), |data|)
    ensures forall i :: 0 <= i < |sizes| && |Deliver(data, sizes)[i]| < sizes[i]
              ==> forall j :: i < j < |sizes| ==> Deliver(data, sizes)[j] == []
    decreases |sizes|
  {
    if sizes != [] {
      var k := Min(sizes[0], |data|);
      var tail := Deliver(data[k..], sizes[1..]);
      DeliverIsPrefix(data[k..], sizes[1..]);
      var slices := Deliver(data, sizes);
      assert slices[1..] == tail;
      assert data == data[..k] + data[k..];
      forall i, j | 0 <= i < j < |sizes| && |slices[i]| < sizes[i] ensures slices[j] == [] {
        assert slices[j] == tail[j - 1];
        if i == 0 {
          assert data[k..] == [];
          DeliverNothing(sizes[1..]);
        } else {
          assert slices[i] == tail[i - 1];
        }
      }
    }
  }

  lemma {:induction false} DeliverNothing(sizes: seq<nat>)
    ensures forall j :: 0 <= j < |sizes| ==> Deliver([], sizes)[j] == []
  {
    if sizes != [] {
      DeliverNothing(sizes[1..]);
    }
  }

  function Total(sizes: seq<nat>): nat {
    if sizes == [] then 0 else sizes[0] + Total(sizes[1..])
  }

  lemma DeliverStep(rest: Data, sizes: seq<nat>, i: nat)
    requires i < |sizes|
    ensures var k := Min(sizes[i], |rest|);
            Deliver(rest, sizes[i..]) == [rest[..k]] + Deliver(rest[k..], sizes[i + 1..])
  {
    assert sizes[i..][1..] == sizes[i + 1..];
  }

  /** Any sequence of read sizes on a written stream returns consecutive slices of exactly the written
      bytes, and no read fails. */
  method ReadAll(codec: BlockCodec, dedupEnabled: bool, ghost data: Data, stream: Data, sizes: seq<nat>)
    returns (slices: seq<Data>)
    requires GoodStream(codec, dedupEnabled, data, stream)
    ensures slices == Deliver(data, sizes)
  {
    hide Decode, Encode, Canonical, Blocks;
    var r := new Reader(codec, stream);
    slices := [];
    var i := 0;
    ghost var rest := data;
    while i < |sizes|
      invariant 0 <= i <= |sizes|
      invariant r.Valid() && fresh(r) && (r.buf != null ==> fresh(r.buf))
      invariant r.Remaining().plain == rest && r.Remaining().end in {Eof, Stop([])}
      invariant Deliver(data, sizes) == slices + Deliver(rest, sizes[i..])
    {
      var len, out := r.Read(sizes[i]);
      ghost var k := Min(sizes[i], |rest|);
      DeliverStep(rest, sizes, i);
      DecodeNothing(codec, false);
      slices, rest, i := slices + [out], rest[k..], i + 1;
    }
  }

  /** The writer and the reader together: whatever the cuts on either side, every byte comes back. */
  method WriteThenRead(codec: BlockCodec, dedupEnabled: bool, pieces: seq<Data>, sizes: seq<nat>)
    returns (slices: seq<Data>)
    requires codec.Honest()
    ensures slices == Deliver(Flatten(pieces), sizes)
  {
    var stream := WriteAll(codec, dedupEnabled, pieces);
    slices := ReadAll(codec, dedupEnabled, Flatten(pieces), stream, sizes);
  }
}
