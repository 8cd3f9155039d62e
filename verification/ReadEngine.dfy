/**
 The read path: `pread` on a file that is stored as a stream which can only be read forwards.

 A read may be served from cached pages, may rewind the stream, may skip forwards (keeping the skipped
 pages while the mount-wide budget lasts), or may give up streaming and decompress the file for good.
 */
module ReadEngine {
  import opened Bytes
  import opened Codecs

  const PAGE: nat := 4096

  /** Files up to this size are never decompressed for good just because of skipping. */
  const SMALL_FILE: nat := 131072

  datatype Skip = Arrived | BeyondEnd | Failed

  /** The pages that are present in a cache. */
  function Live(pages: seq<Option<Data>>): (n: nat)
    ensures n <= |pages|
  {
    if pages == [] then 0 else (if pages[0].Some? then 1 else 0) + Live(pages[1..])
  }

  lemma {:induction false} LiveUpdate(pages: seq<Option<Data>>, i: nat, p: Option<Data>)
    requires i < |pages|
    ensures Live(pages[i := p]) ==
            Live(pages) - (if pages[i].Some? then 1 else 0) + (if p.Some? then 1 else 0)
  {
    if i == 0 {
      assert pages[0 := p][1..] == pages[1..];
    } else {
      assert pages[i := p][1..] == pages[1..][i - 1 := p];
      LiveUpdate(pages[1..], i - 1, p);
    }
  }

  lemma {:induction false} LiveNone(n: nat)
    ensures Live(seq(n, _ => None)) == 0
  {
    if n > 0 {
      var rest: seq<Option<Data>> := seq(n - 1, _ => None);
      assert seq(n, _ => None)[1..] == rest;
      LiveNone(n - 1);
    }
  }

  /** Whether a page filed under slot `i` holds the bytes of its own place. */
  ghost predicate GoodPage(plain: Data, i: nat, page: Data) {
    PAGE * (i + 1) <= |plain| && page == plain[PAGE * i..PAGE * (i + 1)]
  }

  /** A page of what is skipped from `now` on is the page of the slot it is filed under, for every file long
      enough, exactly when `now` is a page boundary. */
  lemma KeptPageIsGoodIffOnPage(now: nat)
    ensures (forall plain: Data :: |plain| >= now + PAGE ==> GoodPage(plain, now / PAGE, plain[now..now + PAGE]))
       <==> now % PAGE == 0
  {
    var start := PAGE * (now / PAGE);
    if now % PAGE == 0 {
      assert start == now;
    } else {
      var plain: Data := seq(now + PAGE, i => if i < now then 0 else 1);
      assert plain[now..now + PAGE][0] == 1 && plain[start..start + PAGE][0] == 0;
    }
  }

  /** Every page that is left is the page of its slot. */
  ghost predicate LeftPagesGood(plain: Data, pages: seq<Option<Data>>) {
    forall i :: 0 <= i < |pages| && pages[i].Some? ==> GoodPage(plain, i, pages[i].value)
  }

  /** For all contents of that size, if and only if no page is left. */
  lemma LeftPagesAreGoodIffNone(pages: seq<Option<Data>>, size: nat)
    ensures (forall plain: Data :: |plain| == size ==> LeftPagesGood(plain, pages))
       <==> forall i :: 0 <= i < |pages| ==> pages[i] == None
  {
    if i :| 0 <= i < |pages| && pages[i].Some? {
      var zeros, ones: Data := seq(size, _ => 0), seq(size, _ => 1);
      if LeftPagesGood(zeros, pages) {
        assert GoodPage(zeros, i, pages[i].value);
        assert pages[i].value[0] == 0 && ones[PAGE * i..PAGE * (i + 1)][0] == 1;
        assert !GoodPage(ones, i, pages[i].value);
      }
    }
  }

  /** How many bytes of the stream a read at `req` throws away when the handle stands at `now`. */
  function BytesToSkip(now: nat, req: nat): (n: nat)
    ensures n <= req
  {
    if req >= now then req - now else req
  }

  /** The limit is given in megabytes. */
  type CacheLimit = n: nat | n % PAGE == 0 witness 0

  /** The settings and the cache counter that all files share. */
  class Mount {
    const cacheDecompressed: bool
    const readOnly: bool
    const maxCacheSize: CacheLimit
    var cacheSize: nat

    /** Pages that were counted and then lost on an error path. */
    ghost var leaked: nat

    constructor (cacheDecompressed: bool, readOnly: bool, maxCacheSize: CacheLimit)
      ensures this.cacheDecompressed == cacheDecompressed && this.readOnly == readOnly
      ensures this.maxCacheSize == maxCacheSize && cacheSize == 0 && leaked == 0
    {
      this.cacheDecompressed, this.readOnly, this.maxCacheSize := cacheDecompressed, readOnly, maxCacheSize;
      cacheSize, leaked := 0, 0;
    }

    /** The counter counts pages, and not more than the limit allows. */
    ghost predicate InBudget()
      reads this
    {
      cacheSize % PAGE == 0 && cacheSize <= maxCacheSize
    }
  }

  /** An open file: `offset` is where the next byte of the decompression handle comes from. */
  class Descriptor {
    const file: File
    var fdOpen: bool
    var handle: Option<nat>
    var offset: nat

    constructor (file: File)
      ensures this.file == file && fdOpen && handle == None && offset == 0
    {
      this.file := file;
      fdOpen, handle, offset := true, None, 0;
    }

    /** One read on the handle: the next `n` bytes, fewer at the end, or an error if the rest is unreadable. */
    method ReadHandle(stream: Stream, n: nat) returns (len: int, data: Data)
      requires handle.Some? && handle.value <= |stream.plain|
      modifies this`handle
      ensures handle.Some?
      ensures len == -1 <==> n > |stream.plain| - old(handle).value && !stream.clean
      ensures len != -1 ==>
                && len == |data| == Min(n, |stream.plain| - old(handle).value)
                && data == stream.plain[old(handle).value..old(handle).value + len]
                && handle == Some(old(handle).value + len)
    {
      var pos := handle.value;
      len, data := ReadStream(stream, pos, n);
      handle := Some(if len == -1 then |stream.plain| else pos + len);
    }
  }

  /** A read request and its answer, if it got one. */
  datatype Served = Served(size: nat, offset: nat, answer: Option<Data>)

  class File {
    const mount: Mount

    /** What is on disk: the size in the header and what the stored stream decodes to. */
    const headerSize: nat
    const stream: Stream
    var descriptors: seq<Descriptor>
    var compressed: bool
    var raw: Data
    var size: int
    var skipped: nat
    var accessType: AccessType
    var cache: array?<Option<Data>>

    /** How many pages the cache holds. */
    ghost var live: nat

    /** The read requests so far and what they were answered. */
    ghost var history: seq<Served>

    constructor (mount: Mount, stream: Stream, headerSize: nat)
      ensures this.mount == mount && this.stream == stream && this.headerSize == headerSize && descriptors == []
      ensures compressed && size == headerSize && skipped == 0 && accessType == Unset && cache == null && live == 0 && history == []
    {
      this.mount, this.stream, this.headerSize := mount, stream, headerSize;
      descriptors, compressed, raw, size := [], true, [], headerSize;
      skipped, accessType, cache, live, history := 0, Unset, null, 0, [];
    }

    /** The entry of a file that was removed and made again, with as many bytes: nobody has thrown its pages away. */
    constructor Remade(was: File, stream: Stream)
      requires was.CacheShaped()
      ensures mount == was.mount && this.stream == stream && headerSize == was.headerSize && descriptors == []
      ensures compressed && size == headerSize && skipped == 0 && accessType == Unset && history == []
      ensures cache == was.cache && live == was.live && CacheShaped()
      ensures |stream.plain| <= headerSize ==> Valid()
      ensures CacheTrue() <==> LeftPagesGood(stream.plain, if cache == null then [] else cache[..])
    {
      this.mount, this.stream, this.headerSize := was.mount, stream, was.headerSize;
      descriptors, compressed, raw, size := [], true, [], was.headerSize;
      skipped, accessType, cache, live, history := 0, Unset, was.cache, was.live, [];
    }

    /** Open the file once more: the new descriptor joins the list and points back to the file. */
    method Open() returns (d: Descriptor)
      requires Valid()
      modifies this`descriptors
      ensures Valid() && fresh(d) && descriptors == [d] + old(descriptors) && d.offset == 0
      ensures old(Tidy()) ==> Tidy()
    {
      hide CacheShaped, CacheTrue;
      d := new Descriptor(this);
      descriptors := [d] + descriptors;
      forall e | e in descriptors && e != d ensures e in old(descriptors) {
      }
    }

    /** The cache covers the file in whole pages, and its last slot stays free: the sentinel that stops the
        serving loop. */
    ghost predicate CacheShaped()
      reads this`cache, this`live, cache
    {
      if cache == null then live == 0
      else
        && live == Live(cache[..])
        && cache.Length == headerSize / PAGE + 1
        && forall i :: 0 <= i < cache.Length && cache[i].Some? ==>
             PAGE * (i + 1) < headerSize && |cache[i].value| == PAGE
    }

    /** The cache holds no wrong page. */
    ghost predicate CacheTrue()
      reads this`cache, cache
    {
      cache != null ==>
        forall i :: 0 <= i < cache.Length && cache[i].Some? ==> GoodPage(stream.plain, i, cache[i].value)
    }

    /** The handle stands where the descriptor says. */
    ghost predicate DescriptorValid(d: Descriptor)
      reads d
    {
      && d.fdOpen
      && d.offset <= |stream.plain|
      && d.handle == (if d.handle == None && d.offset == 0 then None else Some(d.offset))
    }

    /** The descriptor stands at a page boundary, or at the end. */
    ghost predicate OnPage(d: Descriptor)
      reads d
    {
      d.offset % PAGE == 0 || d.offset == headerSize
    }

    ghost predicate DescriptorsValid()
      reads this`descriptors, descriptors
    {
      forall d :: d in descriptors ==> DescriptorValid(d)
    }

    ghost predicate Valid()
      reads this, cache, descriptors
    {
      && |stream.plain| <= headerSize
      && CacheShaped()
      && (forall d :: d in descriptors ==> d.file == this)
      && (compressed ==> size == headerSize && DescriptorsValid())
      && (!compressed ==> raw == stream.plain && |stream.plain| == headerSize && cache == null)
    }

    /** No wrong page is cached, and none is about to be. */
    ghost predicate Tidy()
      reads this, cache, descriptors
    {
      && CacheTrue()
      && (mount.cacheDecompressed && compressed ==> forall d :: d in descriptors ==> OnPage(d))
    }

    /** The stored stream is intact. */
    ghost predicate Honest() {
      stream.clean && |stream.plain| == headerSize
    }

    /** A file whose own objects did not change stays valid. */
    twostate lemma Framed()
      requires old(Valid()) && unchanged(this) && (cache != null ==> unchanged(cache))
      requires forall d: Descriptor :: d in descriptors ==>
                 (d.fdOpen, d.handle, d.offset) == old((d.fdOpen, d.handle, d.offset))
      ensures Valid() && (old(Tidy()) ==> Tidy())
    {
      assert cache != null ==> cache[..] == old(cache[..]);
      forall d | d in descriptors && compressed ensures DescriptorValid(d) {
        assert old(DescriptorValid(d));
      }
    }

    /** The requests that go through the cache: whole pages, if caching is on. */
    predicate Caches(size: nat, offset: nat) {
      mount.cacheDecompressed && size % PAGE == 0 && offset % PAGE == 0
    }

    /** What the kernel asks for: with caching on, a whole-page request lies inside the file. */
    ghost predicate InFile(size: nat, offset: nat) {
      Caches(size, offset) ==> offset < headerSize
    }

    /** Drop all cached pages and return them to the budget. */
    method FlushCache()
      requires CacheShaped() && PAGE * live <= mount.cacheSize
      modifies this`cache, this`live, mount`cacheSize
      ensures cache == null && live == 0
      ensures mount.cacheSize == old(mount.cacheSize) - PAGE * old(live)
    {
      if cache != null {
        var c := cache;
        var i := 0;
        assert c[0..] == c[..];
        while i < c.Length
          invariant 0 <= i <= c.Length && cache == c
          invariant mount.cacheSize == old(mount.cacheSize) - PAGE * Live(c[..]) + PAGE * Live(c[i..])
        {
          assert c[i..][1..] == c[i + 1..];
          if c[i].Some? {
            mount.cacheSize := mount.cacheSize - PAGE;
          }
          i := i + 1;
        }
        assert c[i..] == [];
        cache, live := null, 0;
      }
    }

    /** Take the page at offset `at` out of the cache and return its share of the budget. */
    method TakePage(at: nat) returns (page: Data)
      requires CacheShaped() && cache != null && at % PAGE == 0 && at < headerSize
      requires cache[at / PAGE].Some?
      requires PAGE * live <= mount.cacheSize
      modifies cache, this`live, mount`cacheSize
      ensures CacheShaped() && (old(CacheTrue()) ==> CacheTrue())
      ensures at + PAGE < headerSize && |page| == PAGE && page == old(cache[at / PAGE].value)
      ensures old(CacheTrue()) ==> at + PAGE <= |stream.plain| && page == stream.plain[at..at + PAGE]
      ensures mount.cacheSize == old(mount.cacheSize) - PAGE && live == old(live) - 1
    {
      var slot := at / PAGE;
      page := cache[slot].value;
      assert PAGE * slot == at;
      assert CacheTrue() ==> GoodPage(stream.plain, slot, page);
      ghost var before := cache[..];
      LiveUpdate(before, slot, None);
      cache[slot] := None;
      assert cache[..] == before[slot := None];
      mount.cacheSize, live := mount.cacheSize - PAGE, live - 1;
    }

    lemma HasSlot(at: nat)
      requires CacheShaped() && cache != null && at < headerSize
      ensures at / PAGE < cache.Length
      ensures CacheTrue() && at % PAGE == 0 && cache[at / PAGE].Some? ==> at + PAGE <= |stream.plain|
    {
      assert CacheTrue() && cache[at / PAGE].Some? ==> GoodPage(stream.plain, at / PAGE, cache[at / PAGE].value);
    }

    /** Serve whole pages from the cache, consuming them, until the request or the run of pages ends. The
        loop has no bound of its own: the free last slot is what stops it. */
    method ServeFromCache(size: nat, offset: nat) returns (served: nat, out: Data)
      requires CacheShaped() && cache != null && |stream.plain| <= headerSize
      requires size % PAGE == 0 && offset % PAGE == 0 && offset < headerSize
      requires cache[offset / PAGE].Some?
      requires PAGE * live <= mount.cacheSize
      modifies cache, this`live, mount`cacheSize
      ensures CacheShaped() && (old(CacheTrue()) ==> CacheTrue())
      ensures served == |out| <= size && served % PAGE == 0
      ensures old(CacheTrue()) ==> offset + served <= |stream.plain| && out == stream.plain[offset..offset + served]
      ensures offset + served < headerSize
      ensures size > 0 ==> served >= PAGE && out[..PAGE] == old(cache[offset / PAGE].value)
      ensures mount.cacheSize - PAGE * live == old(mount.cacheSize - PAGE * live)
      ensures mount.cacheSize <= old(mount.cacheSize)
    {
      hide CacheShaped, CacheTrue;
      served, out := 0, [];
      var at := offset;
      HasSlot(at);
      ghost var first := cache[offset / PAGE].value;
      while served < size && cache[at / PAGE].Some?
        invariant at == offset + served && at % PAGE == 0 && served <= size && at < headerSize
        invariant at / PAGE < cache.Length
        invariant CacheShaped() && |out| == served && (old(CacheTrue()) ==> CacheTrue())
        invariant old(CacheTrue()) ==> at <= |stream.plain| && out == stream.plain[offset..at]
        invariant if served == 0 then cache[at / PAGE] == Some(first) else served >= PAGE && out[..PAGE] == first
        invariant PAGE * live <= mount.cacheSize <= old(mount.cacheSize)
        invariant mount.cacheSize - PAGE * live == old(mount.cacheSize - PAGE * live)
        decreases size - served
      {
        var page := TakePage(at);
        out := out + page;
        served, at := served + PAGE, at + PAGE;
        HasSlot(at);
      }
    }

    /** Make the handle stand at or before `offset`: a stream that is already past it is closed and started
        again, and a handle is opened if there is none. */
    method Seat(d: Descriptor, offset: nat)
      requires d.handle == (if d.handle == None && d.offset == 0 then None else Some(d.offset))
      modifies d`handle, d`offset
      ensures d.handle == Some(d.offset)
      ensures d.offset == if offset < old(d.offset) then 0 else old(d.offset)
    {
      if offset < d.offset {
        d.offset, d.handle := 0, None;
      }
      if d.handle.None? {
        d.handle := Some(0);
      }
    }

    /** Skip forwards to `offset` by reading and dropping the bytes in between, or keeping them as pages. No
        wrong page is kept if the descriptor stands on a page boundary; otherwise the first page is a wrong one
        unless the bytes happen to agree. */
    method SkipTo(d: Descriptor, offset: nat, cacheThisRead: bool) returns (r: Skip)
      requires CacheShaped() && |stream.plain| <= headerSize && size == headerSize && mount.InBudget()
      requires d.handle == Some(d.offset) && d.offset <= |stream.plain| && d.offset < offset
      requires cacheThisRead ==> cache != null && offset % PAGE == 0 && offset < headerSize
      modifies this`skipped, this`live, cache, mount, d`handle, d`offset
      ensures CacheShaped() && d.fdOpen == old(d.fdOpen)
      ensures mount.InBudget() && mount.leaked >= old(mount.leaked) && Accounted()
      ensures !cacheThisRead ==> mount.cacheSize == old(mount.cacheSize) && (old(CacheTrue()) ==> CacheTrue())
      ensures old(d.offset) % PAGE == 0 && old(CacheTrue()) ==> CacheTrue()
      ensures cacheThisRead && r == Arrived && old(FreeSlot(d.offset / PAGE)) && old(d.offset) + PAGE <= offset ==>
                FirstPage(old(d.offset))
      ensures r == Arrived ==>
                d.handle == Some(offset) && d.offset == offset <= |stream.plain| && mount.leaked == old(mount.leaked)
      ensures r == BeyondEnd ==> d.handle == Some(d.offset) && d.offset == |stream.plain| == headerSize < offset
      ensures r == BeyondEnd ==> mount.leaked == old(mount.leaked)
      ensures Honest() ==> r != Failed
      ensures offset <= |stream.plain| ==> r == Arrived
      ensures old(skipped) <= skipped <= old(skipped) + (offset - old(d.offset))
      ensures r == Arrived ==> offset - old(d.offset) <= skipped - old(skipped) + PAGE * (live - old(live))
    {
      hide CacheShaped, CacheTrue, FreeSlot;
      r := SkipTurn(d, offset, cacheThisRead);
      if r == Arrived && d.offset < offset {
        r := SkipRest(d, old(d.offset), offset, cacheThisRead);
      }
    }

    /** The rest of the skipping loop, after its first turn. */
    method SkipRest(d: Descriptor, ghost start: nat, offset: nat, cacheThisRead: bool) returns (r: Skip)
      requires CacheShaped() && |stream.plain| <= headerSize && size == headerSize && mount.InBudget()
      requires d.handle == Some(d.offset) && d.offset <= |stream.plain| && start < d.offset <= offset
      requires cacheThisRead ==> cache != null && offset % PAGE == 0 && offset < headerSize
      requires cacheThisRead ==> start / PAGE < d.offset / PAGE && start / PAGE < cache.Length
      modifies this`skipped, this`live, cache, mount, d`handle, d`offset
      ensures CacheShaped() && d.fdOpen == old(d.fdOpen)
      ensures mount.InBudget() && mount.leaked >= old(mount.leaked) && Accounted()
      ensures !cacheThisRead ==> mount.cacheSize == old(mount.cacheSize)
      ensures (old(d.offset) % PAGE == 0 || !cacheThisRead) && old(CacheTrue()) ==> CacheTrue()
      ensures cacheThisRead ==> cache[start / PAGE] == old(cache[start / PAGE])
      ensures r == Arrived ==>
                d.handle == Some(offset) && d.offset == offset <= |stream.plain| && mount.leaked == old(mount.leaked)
      ensures r == BeyondEnd ==> d.handle == Some(d.offset) && d.offset == |stream.plain| == headerSize < offset
      ensures r == BeyondEnd ==> mount.leaked == old(mount.leaked)
      ensures Honest() ==> r != Failed
      ensures offset <= |stream.plain| ==> r == Arrived
      ensures old(skipped) <= skipped <= old(skipped) + (offset - old(d.offset))
      ensures r == Arrived ==> offset - old(d.offset) <= skipped - old(skipped) + PAGE * (live - old(live))
    {
      hide CacheShaped, CacheTrue;
      ghost var onPage := d.offset % PAGE == 0 || !cacheThisRead;
      while d.offset < offset
        invariant d.offset <= offset && d.offset <= |stream.plain| && start < d.offset
        invariant d.handle == Some(d.offset) && d.fdOpen == old(d.fdOpen)
        invariant CacheShaped() && cache == old(cache) && mount.InBudget() && mount.leaked == old(mount.leaked)
        invariant onPage && old(CacheTrue()) ==> CacheTrue()
        invariant cacheThisRead ==> cache[start / PAGE] == old(cache[start / PAGE]) && start / PAGE < d.offset / PAGE
        invariant cacheThisRead && onPage ==> d.offset % PAGE == 0
        invariant !cacheThisRead ==> mount.cacheSize == old(mount.cacheSize)
        invariant mount.cacheSize - PAGE * live == old(mount.cacheSize - PAGE * live)
        invariant old(skipped) <= skipped <= old(skipped) + (d.offset - old(d.offset))
        invariant d.offset - old(d.offset) <= skipped - old(skipped) + PAGE * (live - old(live))
        decreases offset - d.offset
      {
        r := SkipTurn(d, offset, cacheThisRead);
        if r != Arrived {
          return;
        }
      }
      r := Arrived;
    }

    /** One turn on the way to `offset`: a right page is kept if the descriptor stands on a page boundary. */
    method SkipTurn(d: Descriptor, offset: nat, cacheThisRead: bool) returns (r: Skip)
      requires CacheShaped() && |stream.plain| <= headerSize && size == headerSize && mount.InBudget()
      requires d.handle == Some(d.offset) && d.offset <= |stream.plain| && d.offset < offset
      requires cacheThisRead ==> cache != null && offset % PAGE == 0 && offset < headerSize
      modifies this`skipped, this`live, cache, mount, d`handle, d`offset
      ensures CacheShaped() && d.fdOpen == old(d.fdOpen) && mount.InBudget() && Accounted()
      ensures (old(d.offset) % PAGE == 0 || !cacheThisRead) && old(CacheTrue()) ==> CacheTrue()
      ensures cache != null ==> forall i :: 0 <= i < cache.Length && i != old(d.offset) / PAGE ==> cache[i] == old(cache[i])
      ensures !cacheThisRead ==> mount.cacheSize == old(mount.cacheSize)
      ensures cacheThisRead ==> old(d.offset) / PAGE < cache.Length
      ensures cacheThisRead && r == Arrived && old(FreeSlot(d.offset / PAGE)) && old(d.offset) + PAGE <= offset ==>
                FirstPage(old(d.offset))
      ensures r == Arrived ==>
                && d.handle == Some(d.offset) && old(d.offset) < d.offset <= offset
                && d.offset <= |stream.plain| && mount.leaked == old(mount.leaked)
                && (cacheThisRead ==> d.offset == old(d.offset) + Min(offset - old(d.offset), PAGE))
      ensures r == BeyondEnd ==>
                && d.handle == Some(d.offset) && d.offset == old(d.offset) == |stream.plain| == headerSize
                && mount.leaked == old(mount.leaked)
      ensures r == Failed ==> !Honest() && offset > |stream.plain| && mount.leaked >= old(mount.leaked)
      ensures old(skipped) <= skipped
      ensures if r == Arrived then skipped <= old(skipped) + (d.offset - old(d.offset)) else skipped == old(skipped)
      ensures r == Arrived ==> d.offset - old(d.offset) <= skipped - old(skipped) + PAGE * (live - old(live))
    {
      ghost var slot := d.offset / PAGE;
      ghost var pages := if cache == null then [] else cache[..];
      assert cacheThisRead ==> slot < cache.Length && PAGE * (slot + 1) < headerSize;
      hide CacheShaped, FreeSlot;
      var kept;
      r, kept := SkipChunk(d, Min(offset - d.offset, PAGE), cacheThisRead);
      if cache != null {
        forall i | 0 <= i < cache.Length && i != slot ensures cache[i] == old(cache[i]) {
          assert cache[i] == cache[..][i] && old(cache[i]) == pages[i];
        }
      }
      if kept && (old(d.offset) % PAGE == 0 || old(d.offset) + PAGE <= offset) {
        assert cache[slot].value[..PAGE] == cache[slot].value;
      }
      if !kept && cache != null {
        assert cache[..] == pages;
        assert forall i :: 0 <= i < cache.Length ==> cache[i] == pages[i];
      }
    }

    /** Slot `start / PAGE` holds the page of bytes from `start` on, which is its own page only if `start` is a
        page boundary. */
    ghost predicate FirstPage(start: nat)
      reads this`cache, cache
    {
      && cache != null && start / PAGE < cache.Length && start + PAGE <= |stream.plain|
      && cache[start / PAGE] == Some(stream.plain[start..start + PAGE])
    }

    /** A slot of the cache is free, and so is room in the budget. */
    predicate FreeSlot(slot: nat)
      requires cache != null ==> slot < cache.Length
      reads this`cache, cache, mount
    {
      cache != null && cache[slot].None? && mount.cacheSize < mount.maxCacheSize
    }

    /** One turn of the skipping loop. A page is counted before it is read; the two exits that give up do not
        take it back. It is filed under the slot in which the descriptor stands; behind the bytes that were
        read it holds whatever was in memory. The cache stays true exactly if these are the bytes of the slot. */
    method SkipChunk(d: Descriptor, readsize: nat, cacheThisRead: bool) returns (r: Skip, kept: bool)
      requires CacheShaped() && |stream.plain| <= headerSize && size == headerSize && mount.InBudget()
      requires d.handle == Some(d.offset) && d.offset <= |stream.plain| && 0 < readsize <= PAGE
      requires cacheThisRead ==> cache != null && PAGE * (d.offset / PAGE + 1) < headerSize && d.offset + readsize < headerSize
      modifies this`skipped, this`live, cache, mount, d`handle, d`offset
      ensures CacheShaped() && d.fdOpen == old(d.fdOpen) && mount.InBudget() && Accounted()
      ensures kept <==> r == Arrived && cacheThisRead && old(FreeSlot(d.offset / PAGE))
      ensures !kept && cache != null ==> cache[..] == old(cache[..])
      ensures kept ==>
        var i, start := old(d.offset) / PAGE, old(d.offset);
        && start + readsize <= |stream.plain|
        && cache[i].Some? && cache[..] == old(cache[..])[i := cache[i]]
        && |cache[i].value| == PAGE && stream.plain[start..start + readsize] == cache[i].value[..readsize]
        && (CacheTrue() <==> old(CacheTrue()) && GoodPage(stream.plain, i, cache[i].value))
      ensures !cacheThisRead ==> mount.cacheSize == old(mount.cacheSize)
      ensures r == Arrived ==>
                && d.handle == Some(d.offset) && old(d.offset) < d.offset <= old(d.offset) + readsize
                && d.offset <= |stream.plain| && mount.leaked == old(mount.leaked)
                && (cacheThisRead ==> d.offset == old(d.offset) + readsize)
      ensures r == BeyondEnd ==>
                && d.handle == Some(d.offset) && d.offset == old(d.offset) == |stream.plain| == headerSize
                && mount.leaked == old(mount.leaked) && mount.cacheSize == old(mount.cacheSize) && skipped == old(skipped)
      ensures mount.leaked == old(mount.leaked) || (r == Failed && mount.leaked == old(mount.leaked) + 1)
      ensures r == Failed ==> !Honest() && old(d.offset) + readsize > |stream.plain| && skipped == old(skipped)
      ensures skipped == old(skipped) + (if kept || r != Arrived then 0 else d.offset - old(d.offset))
      ensures live == old(live) + (if kept then 1 else 0)
    {
      hide CacheShaped, CacheTrue, GoodPage;
      SlotOf(d.offset);
      kept := false;
      var keep := false;
      if cacheThisRead && FreeSlot(d.offset / PAGE) {
        mount.cacheSize := mount.cacheSize + PAGE;
        keep := true;
      }
      var len, data := d.ReadHandle(stream, readsize);
      if len < 0 || (len < readsize && (size == -1 || d.offset + len < size)) {
        if keep {
          mount.leaked := mount.leaked + 1;
        }
        return Failed, false;
      }
      if len == 0 {
        return BeyondEnd, false;
      }
      if keep {
        FilePage(d.offset / PAGE, data);
        kept := true;
      } else {
        skipped := skipped + len;
      }
      d.offset := d.offset + len;
      r := Arrived;
    }

    lemma SlotOf(offset: nat)
      requires CacheShaped()
      ensures cache != null && offset < headerSize ==> offset / PAGE < cache.Length
    {
    }

    /** Put a page that begins with `data` into a free slot. */
    method FilePage(slot: nat, data: Data)
      requires CacheShaped() && cache != null && PAGE * (slot + 1) < headerSize && slot < cache.Length
      requires cache[slot] == None && |data| <= PAGE
      modifies cache, this`live
      ensures CacheShaped() && live == old(live) + 1
      ensures cache[slot].Some? && cache[..] == old(cache[..])[slot := cache[slot]]
      ensures |cache[slot].value| == PAGE && cache[slot].value[..|data|] == data
      ensures CacheTrue() <==> old(CacheTrue()) && GoodPage(stream.plain, slot, cache[slot].value)
    {
      assert |Zeros(PAGE - |data|)| == PAGE - |data|;
      var memory: Data :| |memory| == PAGE - |data|;
      ghost var pages := cache[..];
      LiveUpdate(pages, slot, Some(data + memory));
      cache[slot] := Some(data + memory);
      assert cache[..] == pages[slot := Some(data + memory)];
      live := live + 1;
      assert CacheTrue() ==> old(CacheTrue()) by {
        forall i | 0 <= i < cache.Length && pages[i].Some? ensures CacheTrue() ==> GoodPage(stream.plain, i, pages[i].value) {
          assert i != slot && cache[i] == pages[i];
        }
      }
    }

    /** Replace the stored stream by the plain file for good: drop the cache, close every descriptor, decode,
        check the length against the header, reopen every descriptor. A stream that does not decode leaves
        the descriptors closed. */
    method DoDecompress(enoughSpace: bool) returns (ok: bool)
      requires Valid() && compressed && PAGE * live <= mount.cacheSize
      modifies this`compressed, this`raw, this`size, this`skipped, this`accessType, this`cache, this`live
      modifies mount`cacheSize, descriptors
      ensures old(CacheTrue()) ==> CacheTrue()
      ensures ok <==> enoughSpace && Honest()
      ensures ok ==> !compressed && raw == stream.plain && cache == null
      ensures ok ==> forall d :: d in descriptors ==> d.fdOpen && d.handle == None
      ensures !ok ==> compressed && size == old(size)
      ensures skipped == old(skipped)
      ensures cache == null || cache == old(cache)
      ensures mount.cacheSize - PAGE * live == old(mount.cacheSize - PAGE * live)
      ensures mount.cacheSize <= old(mount.cacheSize)
      ensures CacheShaped()
    {
      if !enoughSpace {
        return false;
      }
      FlushCache();
      CloseAll();
      if !stream.clean || |stream.plain| != headerSize {
        return false;
      }
      raw := stream.plain;
      OpenAll();
      compressed, size := false, |stream.plain|;
      return true;
    }

    method CloseAll()
      modifies this`accessType, descriptors
      ensures forall d :: d in descriptors ==> !d.fdOpen && d.handle == None
    {
      var i := 0;
      while i < |descriptors|
        invariant 0 <= i <= |descriptors|
        invariant forall j :: 0 <= j < i ==> !descriptors[j].fdOpen && descriptors[j].handle == None
      {
        var d := descriptors[i];
        if d.handle.Some? {
          d.offset, d.handle := 0, None;
        }
        if |descriptors| == 1 {
          accessType := Unset;
        }
        d.fdOpen := false;
        i := i + 1;
      }
    }

    method OpenAll()
      requires forall d :: d in descriptors ==> d.handle == None
      modifies descriptors
      ensures forall d :: d in descriptors ==> d.fdOpen && d.handle == None
    {
      var i := 0;
      while i < |descriptors|
        invariant 0 <= i <= |descriptors|
        invariant forall d :: d in descriptors ==> d.handle == None
        invariant forall j :: 0 <= j < i ==> descriptors[j].fdOpen
      {
        descriptors[i].fdOpen := true;
        i := i + 1;
      }
    }

    /** Whether the engine gives up streaming: there is no room to cache the skip, the mount is writable, and
        more than one file length would have been thrown away; or the file was being written. */
    predicate FallsBack(d: Descriptor, offset: nat, cacheThisRead: bool)
      reads this, mount, d
    {
      var skip := BytesToSkip(d.offset, offset);
      || accessType == Writing
      || ( && (!cacheThisRead || mount.cacheSize >= mount.maxCacheSize || skip > mount.maxCacheSize - mount.cacheSize)
           && !mount.readOnly
           && skipped + skip > size && size > SMALL_FILE && offset != d.offset)
    }

    /** How far it is to an offset, from where the descriptor stands or else from the start of the file. */
    ghost function Distance(d: Descriptor, offset: nat): nat
      reads d
    {
      if d.offset <= offset then offset - d.offset else offset
    }

    /** The stream is good enough for a read at `offset`: the file was not being written, and there is room in the cache
        for what is in between, or nothing in between; or decompression is not allowed, not worth it, or too early,
        as no more than one length of the file will have been thrown away. */
    ghost predicate StreamsOn(d: Descriptor, offset: nat, caching: bool)
      reads this`accessType, this`skipped, mount, d
    {
      && accessType != Writing
      && ( || (caching && mount.cacheSize < mount.maxCacheSize && mount.cacheSize + Distance(d, offset) <= mount.maxCacheSize)
           || d.offset == offset
           || mount.readOnly
           || headerSize <= SMALL_FILE
           || skipped + Distance(d, offset) <= headerSize)
    }

    lemma NeverGivesUp(d: Descriptor, offset: nat)
      ensures accessType != Writing && (mount.readOnly || headerSize <= SMALL_FILE) ==> StreamsOn(d, offset, true)
    {
    }

    /** A file that is stored as a stream and has not been written. */
    ghost predicate Streaming()
      reads this`compressed, this`accessType
    {
      compressed && accessType != Writing
    }

    /** The page accounting of this file and the mount: counted pages are the live and the lost ones. */
    twostate predicate Accounted()
      reads mount, this, cache
    {
      mount.cacheSize - PAGE * live - PAGE * mount.leaked
      == old(mount.cacheSize - PAGE * live - PAGE * mount.leaked)
    }

    /** An answer to a read is an error, or exactly what a plain file of the header's size would give. */
    ghost predicate Answers(r: int, out: Data, size: nat, offset: nat) {
      || r == -1
      || ( && r == |out|
           && out == Pread(stream.plain, size, offset)
           && r == if offset >= headerSize then 0 else Min(size, headerSize - offset))
    }

    /** A prefix served from the cache and the answer for the rest make the answer. */
    lemma AnswersJoin(served: nat, head: Data, r: int, rest: Data, size: nat, offset: nat)
      requires served <= size && |stream.plain| <= headerSize
      requires if served == 0 then head == []
               else offset + served <= |stream.plain| && head == stream.plain[offset..offset + served]
      requires r != -1 && Answers(r, rest, size - served, offset + served)
      ensures Answers(served + r, head + rest, size, offset)
    {
    }

    /** Without a cache on a writable mount, at most one length of a large file is thrown away. */
    ghost predicate Frugal()
      reads this`skipped
    {
      !mount.cacheDecompressed && !mount.readOnly && headerSize > SMALL_FILE ==> skipped <= headerSize
    }

    /** What every read keeps, also a failing one: the shape of the cache, a budget that holds and is accounted
        for, and a bound on wasted work. */
    twostate predicate Kept()
      reads this, cache, mount
    {
      && CacheShaped() && (cache == null || cache == old(cache) || fresh(cache))
      && mount.InBudget() && mount.leaked >= old(mount.leaked) && Accounted()
      && (old(Frugal()) ==> Frugal())
    }

    /** There is room in the cache for the whole skip from `start` to `offset`, and it has no page yet. */
    ghost predicate Room(start: nat, offset: nat)
      reads this`cache, mount
    {
      cache == null && start + PAGE <= offset && offset - start <= mount.maxCacheSize - mount.cacheSize
    }

    /** The part of a read that the cache did not serve: fall back, or rewind and skip as needed and read. */
    method ReadOn(d: Descriptor, size: nat, offset: nat, cacheThisRead: bool, enoughSpace: bool)
      returns (r: int, out: Data)
      requires Valid() && compressed && d in descriptors
      requires cacheThisRead ==> Caches(size, offset) && offset < headerSize
      requires PAGE * live <= mount.cacheSize && mount.InBudget()
      requires accessType != Unset
      modifies this`compressed, this`raw, this`size, this`skipped, this`accessType, this`cache, this`live
      modifies cache, mount, descriptors
      ensures Answers(r, out, size, offset)
      ensures Honest() && enoughSpace ==> r >= 0
      ensures r >= 0 ==> Valid() && mount.leaked == old(mount.leaked)
      ensures Kept()
      ensures old(CacheTrue()) && (old(OnPage(d)) || !cacheThisRead) ==> CacheTrue()
      ensures r >= 0 && compressed ==> Moved(d, offset, r, old(d.offset))
      ensures r >= 0 && compressed ==> forall e :: e in descriptors && e != d ==> e.offset == old(e.offset)
      ensures r >= 0 && compressed && cacheThisRead ==> OnPage(d)
      ensures old(accessType) != Writing && headerSize <= SMALL_FILE ==> compressed && accessType == old(accessType)
      ensures old(accessType) != Writing && cacheThisRead && old(Room(d.offset, offset)) && r >= 0 ==> FirstPage(old(d.offset))
      ensures r >= 0 && compressed && !cacheThisRead ==> cache == old(cache) && mount.cacheSize == old(mount.cacheSize)
      ensures old(StreamsOn(d, offset, cacheThisRead)) ==> compressed && accessType == old(accessType) && (Honest() ==> r >= 0)
      ensures !old(StreamsOn(d, offset, cacheThisRead)) ==> (r >= 0 <==> Honest() && enoughSpace) && (r >= 0 ==> !compressed)
      ensures r >= 0 && compressed && !cacheThisRead && offset <= |stream.plain| ==> skipped == old(skipped + Distance(d, offset))
      ensures r >= 0 && !compressed ==> skipped == 0 && this.size == -1
    {
      assert DescriptorValid(d);
      if FallsBack(d, offset, cacheThisRead) {
        r, out := FallBack(size, offset, enoughSpace);
      } else {
        r, out := StreamRead(d, size, offset, cacheThisRead);
      }
    }

    /** Where a descriptor stands after a read that it answered: behind it, or at the end if that was too far. */
    ghost predicate Moved(d: Descriptor, offset: nat, r: int, was: nat)
      reads d
    {
      if offset <= |stream.plain| then d.offset == offset + r else d.offset == headerSize == |stream.plain|
    }

    /** Decompress the file for good and read it as the plain file it now is. */
    method FallBack(size: nat, offset: nat, enoughSpace: bool) returns (r: int, out: Data)
      requires Valid() && compressed && PAGE * live <= mount.cacheSize && mount.InBudget()
      modifies this`compressed, this`raw, this`size, this`skipped, this`accessType, this`cache, this`live
      modifies mount`cacheSize, descriptors
      ensures Answers(r, out, size, offset)
      ensures r >= 0 <==> Honest() && enoughSpace
      ensures r >= 0 ==> Valid() && !compressed
      ensures CacheShaped() && (cache == null || cache == old(cache)) && (old(CacheTrue()) ==> CacheTrue())
      ensures mount.InBudget() && Accounted()
      ensures if r >= 0 then skipped == 0 && this.size == -1 else skipped == old(skipped)
    {
      var ok := DoDecompress(enoughSpace);
      if !ok {
        return -1, [];
      }
      this.size, skipped := -1, 0;
      out := Pread(raw, size, offset);
      return |out|, out;
    }

    /** Rewind if the offset lies behind, open the handle, skip up to the offset, and read. */
    method StreamRead(d: Descriptor, size: nat, offset: nat, cacheThisRead: bool)
      returns (r: int, out: Data)
      requires CacheShaped() && |stream.plain| <= headerSize && this.size == headerSize
      requires DescriptorValid(d) && mount.InBudget()
      requires cacheThisRead ==> Caches(size, offset) && offset < headerSize
      modifies this`skipped, this`cache, this`live, cache, mount, d`handle, d`offset
      ensures Answers(r, out, size, offset)
      ensures Honest() ==> r >= 0
      ensures r >= 0 ==> DescriptorValid(d) && mount.leaked == old(mount.leaked) && Moved(d, offset, r, old(d.offset))
      ensures CacheShaped() && (cache == old(cache) || fresh(cache))
      ensures old(CacheTrue()) && (old(OnPage(d)) || !cacheThisRead) ==> CacheTrue()
      ensures cacheThisRead && old(Room(d.offset, offset)) && r >= 0 ==> FirstPage(old(d.offset))
      ensures !cacheThisRead ==> cache == old(cache) && mount.cacheSize == old(mount.cacheSize)
      ensures mount.InBudget() && mount.leaked >= old(mount.leaked) && Accounted()
      ensures skipped <= old(skipped) + BytesToSkip(old(d.offset), offset)
      ensures r >= 0 && offset <= |stream.plain| ==>
                old(Distance(d, offset)) <= skipped - old(skipped) + PAGE * (live - old(live))
    {
      hide CacheShaped, CacheTrue, FirstPage;
      Seat(d, offset);
      var skip := Position(d, offset, cacheThisRead);
      if skip == Failed {
        return -1, [];
      } else if skip == BeyondEnd {
        return 0, [];
      }
      r, out := FinalRead(d, size);
    }

    /** Allocate the cache if this skip is going to use it, and skip. */
    method Position(d: Descriptor, offset: nat, caching: bool) returns (r: Skip)
      requires CacheShaped() && |stream.plain| <= headerSize && size == headerSize && mount.InBudget()
      requires d.handle == Some(d.offset) && d.offset <= |stream.plain| && d.offset <= offset
      requires caching ==> offset % PAGE == 0 && offset < headerSize
      modifies this`skipped, this`cache, this`live, cache, mount, d`handle, d`offset
      ensures CacheShaped() && d.fdOpen == old(d.fdOpen)
      ensures cache == old(cache) || fresh(cache)
      ensures old(CacheTrue()) && (old(d.offset) % PAGE == 0 || !caching) ==> CacheTrue()
      ensures caching && old(Room(d.offset, offset)) && r == Arrived ==> FirstPage(old(d.offset))
      ensures !caching ==> cache == old(cache) && mount.cacheSize == old(mount.cacheSize)
      ensures mount.InBudget() && mount.leaked >= old(mount.leaked) && Accounted()
      ensures r == Arrived ==> d.handle == Some(offset) && d.offset == offset <= |stream.plain|
      ensures r == BeyondEnd ==> d.handle == Some(d.offset) && d.offset == |stream.plain| == headerSize < offset
      ensures r != Failed ==> mount.leaked == old(mount.leaked)
      ensures Honest() ==> r != Failed
      ensures skipped <= old(skipped) + (offset - old(d.offset))
      ensures r == Arrived ==> offset - old(d.offset) <= skipped - old(skipped) + PAGE * (live - old(live))
    {
      if offset == d.offset {
        return Arrived;
      }
      var cacheThisRead := caching;
      if offset - d.offset > mount.maxCacheSize - mount.cacheSize {
        cacheThisRead := false;
      }
      if cacheThisRead && cache == null {
        AllocateCache();
      }
      r := SkipTo(d, offset, cacheThisRead);
    }

    method AllocateCache()
      requires CacheShaped() && cache == null && size == headerSize
      modifies this`cache
      ensures fresh(cache) && cache != null && CacheShaped() && CacheTrue()
      ensures forall i :: 0 <= i < cache.Length ==> cache[i] == None
    {
      var length := size / PAGE + 1;
      cache := new Option<Data>[length](_ => None);
      LiveNone(length);
      assert cache[..] == seq(length, _ => None);
    }

    /** The read itself, cut at the size the header promises; anything short of that is corruption. */
    method FinalRead(d: Descriptor, want: nat) returns (r: int, out: Data)
      requires |stream.plain| <= headerSize && size == headerSize
      requires d.handle == Some(d.offset) && d.offset <= |stream.plain|
      modifies d`handle, d`offset
      ensures r == -1 || r == |out|
      ensures r >= 0 ==> out == Pread(stream.plain, want, old(d.offset))
      ensures r >= 0 ==> |out| == Min(want, headerSize - old(d.offset))
      ensures r >= 0 ==> d.handle == Some(d.offset) && d.offset == old(d.offset) + |out| <= |stream.plain|
      ensures d.fdOpen == old(d.fdOpen)
      ensures Honest() ==> r >= 0
    {
      var n := if size != -1 && d.offset + want > size then size - d.offset else want;
      var len, data := d.ReadHandle(stream, n);
      if len < n {
        return -1, [];
      }
      d.offset := d.offset + len;
      return len, data;
    }

    /** The cache has the page at `offset`, and the file has not been written. */
    predicate Hit(offset: nat)
      reads this`accessType, this`cache, cache
    {
      accessType == Reading && HasPage(offset)
    }

    predicate HasPage(offset: nat)
      reads this`cache, cache
    {
      cache != null && cache.Length > offset / PAGE && cache[offset / PAGE].Some?
    }

    lemma CachesRest(size: nat, offset: nat)
      ensures Caches(size, offset) ==> size % PAGE == 0 && offset % PAGE == 0
      ensures forall n: nat :: Caches(size, offset) && n <= size && n % PAGE == 0 ==> Caches(size - n, offset + n)
    {
    }

    /** A read that finds its first page in the cache: serve the pages that are there, and go on for the rest. */
    method ReadHit(d: Descriptor, size: nat, offset: nat, enoughSpace: bool)
      returns (r: int, out: Data)
      requires Valid() && compressed && d in descriptors
      requires Caches(size, offset) && offset < headerSize && Hit(offset)
      requires PAGE * live <= mount.cacheSize && mount.InBudget()
      modifies this`compressed, this`raw, this`size, this`skipped, this`accessType, this`cache, this`live
      modifies cache, mount, descriptors
      ensures old(CacheTrue()) ==> Answers(r, out, size, offset)
      ensures r == -1 || r == |out|
      ensures Honest() && enoughSpace ==> r >= 0
      ensures r >= 0 ==> Valid() && mount.leaked == old(mount.leaked)
      ensures Kept()
      ensures old(CacheTrue()) && old(OnPage(d)) ==> CacheTrue()
      ensures r >= 0 && compressed ==> (forall e :: e in descriptors && e != d ==> e.offset == old(e.offset))
      ensures r >= 0 && compressed && old(OnPage(d)) ==> OnPage(d)
      ensures headerSize <= SMALL_FILE ==> compressed && accessType == Reading
      ensures size == PAGE ==> r == PAGE && out == old(cache[offset / PAGE].value)
      ensures mount.readOnly || headerSize <= SMALL_FILE ==> compressed && accessType == Reading && (Honest() ==> r >= 0)
      ensures r >= 0 && !compressed ==> skipped == 0 && this.size == -1
    {
      hide CacheShaped, CacheTrue, DescriptorsValid, FirstPage, Room, StreamsOn, Distance, OnPage, Moved, Caches;
      CachesRest(size, offset);
      var served, head := ServeFromCache(size, offset);
      NeverGivesUp(d, offset + served);
      if served == size {
        return served, head;
      }
      r, out := ReadOn(d, size - served, offset + served, true, enoughSpace);
      if r != -1 {
        if old(CacheTrue()) {
          AnswersJoin(served, head, r, out, size, offset);
        }
        r, out := served + r, head + out;
      }
    }

    /** A read of a file that is still compressed. Whatever else it does, a page of the cache that it meets is
        what it answers with. */
    method DirectDecompress(d: Descriptor, size: nat, offset: nat, enoughSpace: bool)
      returns (r: int, out: Data)
      requires Valid() && compressed && d in descriptors
      requires InFile(size, offset)
      requires PAGE * live <= mount.cacheSize && mount.InBudget()
      modifies this`compressed, this`raw, this`size, this`skipped, this`accessType, this`cache, this`live
      modifies cache, mount, descriptors
      ensures old(CacheTrue()) ==> Answers(r, out, size, offset)
      ensures r == -1 || r == |out|
      ensures Honest() && enoughSpace ==> r >= 0
      ensures r >= 0 ==> Valid() && mount.leaked == old(mount.leaked)
      ensures Kept()
      ensures old(CacheTrue()) && (old(OnPage(d)) || !Caches(size, offset)) ==> CacheTrue()
      ensures r >= 0 && compressed ==> (forall e :: e in descriptors && e != d ==> e.offset == old(e.offset))
      ensures r >= 0 && compressed && Caches(size, offset) && old(OnPage(d)) ==> OnPage(d)
      ensures old(accessType) != Writing && headerSize <= SMALL_FILE ==> compressed && accessType == Reading
      ensures r >= 0 && compressed && old(cache) == null && offset <= |stream.plain| ==> d.offset == offset + r
      ensures old(accessType) != Writing && Caches(size, offset) && old(Room(d.offset, offset)) && r >= 0 ==>
                FirstPage(old(d.offset))
      ensures r >= 0 && compressed && !Caches(size, offset) ==> cache == old(cache) && mount.cacheSize == old(mount.cacheSize)
      ensures Caches(size, offset) && size == PAGE && old(accessType != Writing && HasPage(offset)) ==>
                r == PAGE && out == old(cache[offset / PAGE].value)
      ensures old(accessType != Writing && !(Caches(size, offset) && HasPage(offset))
              && StreamsOn(d, offset, Caches(size, offset))) ==>
                compressed && accessType == Reading && (Honest() ==> r >= 0)
      ensures !old((Caches(size, offset) && HasPage(offset) && accessType != Writing)
              || StreamsOn(d, offset, Caches(size, offset))) ==>
                (r >= 0 <==> Honest() && enoughSpace) && (r >= 0 ==> !compressed)
      ensures old(accessType) != Writing && mount.readOnly ==> compressed && accessType == Reading && (Honest() ==> r >= 0)
      ensures r >= 0 && compressed && !Caches(size, offset) && offset <= |stream.plain| ==>
                skipped == old(skipped + Distance(d, offset))
      ensures r >= 0 && !compressed ==> skipped == 0 && this.size == -1
    {
      hide CacheShaped, CacheTrue, DescriptorsValid, Answers, FirstPage, Room, Moved, Distance, OnPage;
      if accessType == Unset {
        accessType := Reading;
      }
      r, out := ReadPacked(d, size, offset, enoughSpace);
    }

    /** The same when it is settled what the file is used for. */
    method ReadPacked(d: Descriptor, size: nat, offset: nat, enoughSpace: bool)
      returns (r: int, out: Data)
      requires Valid() && compressed && d in descriptors
      requires InFile(size, offset) && accessType != Unset
      requires PAGE * live <= mount.cacheSize && mount.InBudget()
      modifies this`compressed, this`raw, this`size, this`skipped, this`accessType, this`cache, this`live
      modifies cache, mount, descriptors
      ensures old(CacheTrue()) ==> Answers(r, out, size, offset)
      ensures r == -1 || r == |out|
      ensures Honest() && enoughSpace ==> r >= 0
      ensures r >= 0 ==> Valid() && mount.leaked == old(mount.leaked)
      ensures Kept()
      ensures old(CacheTrue()) && (old(OnPage(d)) || !Caches(size, offset)) ==> CacheTrue()
      ensures r >= 0 && compressed ==> (forall e :: e in descriptors && e != d ==> e.offset == old(e.offset))
      ensures r >= 0 && compressed && Caches(size, offset) && old(OnPage(d)) ==> OnPage(d)
      ensures old(accessType) != Writing && headerSize <= SMALL_FILE ==> compressed && accessType == Reading
      ensures r >= 0 && compressed && old(cache) == null && offset <= |stream.plain| ==> d.offset == offset + r
      ensures old(accessType) != Writing && Caches(size, offset) && old(Room(d.offset, offset)) && r >= 0 ==>
                FirstPage(old(d.offset))
      ensures r >= 0 && compressed && !Caches(size, offset) ==> cache == old(cache) && mount.cacheSize == old(mount.cacheSize)
      ensures Caches(size, offset) && size == PAGE && old(accessType != Writing && HasPage(offset)) ==>
                r == PAGE && out == old(cache[offset / PAGE].value)
      ensures old(accessType != Writing && !(Caches(size, offset) && HasPage(offset))
              && StreamsOn(d, offset, Caches(size, offset))) ==>
                compressed && accessType == Reading && (Honest() ==> r >= 0)
      ensures !old((Caches(size, offset) && HasPage(offset) && accessType != Writing)
              || StreamsOn(d, offset, Caches(size, offset))) ==>
                (r >= 0 <==> Honest() && enoughSpace) && (r >= 0 ==> !compressed)
      ensures old(accessType) != Writing && mount.readOnly ==> compressed && accessType == Reading && (Honest() ==> r >= 0)
      ensures r >= 0 && compressed && !Caches(size, offset) && offset <= |stream.plain| ==>
                skipped == old(skipped + Distance(d, offset))
      ensures r >= 0 && !compressed ==> skipped == 0 && this.size == -1
    {
      hide CacheShaped, CacheTrue, DescriptorsValid, Answers, FirstPage;
      var cacheThisRead := mount.cacheDecompressed;
      if offset % PAGE != 0 || size % PAGE != 0 {
        cacheThisRead := false;
      }
      if cacheThisRead && Hit(offset) {
        r, out := ReadHit(d, size, offset, enoughSpace);
      } else {
        r, out := ReadOn(d, size, offset, cacheThisRead, enoughSpace);
      }
    }

    /** A read request as it arrives: through the engine while the file is compressed, else a plain read. */
    method Read(d: Descriptor, size: nat, offset: nat, enoughSpace: bool) returns (r: int, out: Data)
      requires Valid() && d in descriptors
      requires InFile(size, offset)
      requires PAGE * live <= mount.cacheSize && mount.InBudget()
      modifies this`compressed, this`raw, this`size, this`skipped, this`accessType, this`cache, this`live, this`history
      modifies cache, mount, descriptors
      ensures history == old(history) + [Served(size, offset, if r == -1 then None else Some(out))]
      ensures old(CacheTrue()) ==> Answers(r, out, size, offset)
      ensures r == -1 || r == |out|
      ensures Honest() && enoughSpace ==> r >= 0
      ensures r >= 0 ==> Valid() && mount.leaked == old(mount.leaked)
      ensures Kept() && (compressed ==> old(compressed))
      ensures old(CacheTrue()) && (old(OnPage(d)) || !Caches(size, offset)) ==> CacheTrue()
      ensures r >= 0 && compressed ==> (forall e :: e in descriptors && e != d ==> e.offset == old(e.offset))
      ensures r >= 0 && compressed && Caches(size, offset) && old(OnPage(d)) ==> OnPage(d)
      ensures old(compressed && accessType != Writing) && headerSize <= SMALL_FILE ==> compressed && accessType == Reading
      ensures r >= 0 && compressed && old(cache) == null && offset <= |stream.plain| ==> d.offset == offset + r
      ensures old(compressed && accessType != Writing) && Caches(size, offset) && old(Room(d.offset, offset)) && r >= 0 ==>
                FirstPage(old(d.offset))
      ensures r >= 0 && compressed && !Caches(size, offset) ==> cache == old(cache) && mount.cacheSize == old(mount.cacheSize)
      ensures Caches(size, offset) && size == PAGE && old(compressed && accessType != Writing && HasPage(offset)) ==>
                r == PAGE && out == old(cache[offset / PAGE].value)
      ensures old(compressed && !(Caches(size, offset) && HasPage(offset)) && StreamsOn(d, offset, Caches(size, offset))) ==>
                compressed && accessType == Reading && (Honest() ==> r >= 0)
      ensures old(compressed) && !old((Caches(size, offset) && HasPage(offset) && accessType != Writing)
              || StreamsOn(d, offset, Caches(size, offset))) ==>
                (r >= 0 <==> Honest() && enoughSpace) && (r >= 0 ==> !compressed)
      ensures old(compressed && accessType != Writing) && mount.readOnly ==>
                compressed && accessType == Reading && (Honest() ==> r >= 0)
      ensures r >= 0 && compressed && !Caches(size, offset) && offset <= |stream.plain| ==>
                skipped == old(skipped + Distance(d, offset))
      ensures old(!compressed) ==> accessType == old(accessType) && r >= 0 && skipped == old(skipped)
      ensures r == -1 ==> this.size == -1
    {
      hide CacheShaped, CacheTrue, DescriptorsValid;
      if compressed {
        r, out := DirectDecompress(d, size, offset, enoughSpace);
      } else {
        out := Pread(raw, size, offset);
        r := |out|;
      }
      if r == -1 {
        this.size := -1;
      }
      history := history + [Served(size, offset, if r == -1 then None else Some(out))];
    }

    /** Close a descriptor and take it off the list. */
    method Release(k: nat)
      requires Valid() && k < |descriptors|
      modifies this`descriptors, this`accessType, descriptors
      ensures Valid() && descriptors == old(descriptors)[..k] + old(descriptors)[k + 1..]
      ensures accessType == if compressed && |old(descriptors)| == 1 then Unset else old(accessType)
      ensures old(Tidy()) ==> Tidy()
    {
      hide CacheShaped, CacheTrue, DescriptorsValid, OnPage;
      if compressed {
        CloseStream(descriptors[k]);
      }
      descriptors := descriptors[..k] + descriptors[k + 1..];
      assert forall e :: e in descriptors ==> e in old(descriptors);
      if compressed {
        StillValid(old(descriptors));
      }
    }

    lemma StillValid(before: seq<Descriptor>)
      requires forall d :: d in before ==> DescriptorValid(d)
      requires forall d :: d in descriptors ==> d in before
      ensures DescriptorsValid()
    {
    }

    /** A stream starts again at the beginning once it is closed. */
    method CloseStream(d: Descriptor)
      requires Valid() && compressed && d in descriptors
      modifies this`accessType, d`offset, d`handle
      ensures Valid() && forall e :: e in descriptors ==> DescriptorValid(e)
      ensures accessType == if |descriptors| == 1 then Unset else old(accessType)
      ensures old(Tidy()) ==> Tidy()
    {
      hide CacheShaped, CacheTrue;
      if d.handle.Some? {
        d.offset, d.handle := 0, None;
      }
      if |descriptors| == 1 {
        accessType := Unset;
      }
    }

    method DropCache()
      requires Valid() && PAGE * live <= mount.cacheSize && mount.InBudget()
      modifies this`cache, this`live, mount`cacheSize
      ensures Valid() && Kept() && mount.leaked == old(mount.leaked) && (old(Tidy()) ==> Tidy())
    {
      FlushCache();
    }

    method TakeRead(d: Descriptor, size: nat, offset: nat, enoughSpace: bool) returns (ok: bool, answer: Option<Data>)
      requires Valid() && PAGE * live <= mount.cacheSize && mount.InBudget() && d in descriptors && InFile(size, offset)
      modifies this`compressed, this`raw, this`size, this`skipped, this`accessType, this`cache, this`live, this`history
      modifies cache, mount, descriptors
      ensures ok ==> Valid() && mount.leaked == old(mount.leaked)
      ensures Honest() && enoughSpace ==> ok
      ensures Kept() && (answer.Some? <==> ok)
      ensures old(CacheTrue()) && answer.Some? ==> answer.value == Pread(stream.plain, size, offset)
      ensures ok && old(Tidy()) && (mount.cacheDecompressed ==> Caches(size, offset)) ==> Tidy()
      ensures mount.readOnly && old(Streaming()) ==> Streaming() && (Honest() ==> ok)
      ensures old(!compressed) ==> !compressed && accessType == old(accessType) && ok
    {
      hide CacheShaped, DescriptorsValid;
      var r, out := Read(d, size, offset, enoughSpace);
      ok, answer := r != -1, if r == -1 then None else Some(out);
      hide CacheTrue;
      if ok && compressed && old(Tidy()) && mount.cacheDecompressed {
        assert forall e :: e in descriptors && e != d ==> old(OnPage(e)) && OnPage(e);
      }
    }

    /** Whatever happens to the file, as one event. */
    method Take(e: Event) returns (ok: bool, answer: Option<Data>)
      requires Valid() && PAGE * live <= mount.cacheSize && mount.InBudget()
      requires e.ReadAt? ==> InFile(e.size, e.offset)
      modifies this, cache, mount, descriptors
      ensures ok ==> Valid() && mount.leaked == old(mount.leaked)
      ensures Honest() && (e.ReadAt? ==> e.enoughSpace) ==> ok
      ensures Kept()
      ensures answer.Some? <==> ok && e.ReadAt? && e.descriptor < |old(descriptors)|
      ensures old(CacheTrue()) && answer.Some? ==> answer.value == Pread(stream.plain, e.size, e.offset)
      ensures ok && old(Tidy()) && (e.ReadAt? && mount.cacheDecompressed ==> Caches(e.size, e.offset)) ==> Tidy()
      ensures |descriptors| == Opened(|old(descriptors)|, e)
      ensures forall d :: d in descriptors ==> d in old(descriptors) || fresh(d)
      ensures mount.readOnly && old(Streaming()) ==> Streaming() && (Honest() ==> ok)
      ensures old(!compressed) ==> !compressed && ok
    {
      hide CacheShaped, CacheTrue, DescriptorsValid, Tidy;
      ok, answer := true, None;
      match e
      case ReadAt(_, k, size, offset, enoughSpace) =>
        if k < |descriptors| {
          ok, answer := TakeRead(descriptors[k], size, offset, enoughSpace);
        }
      case OpenOne(_) =>
        var d := Open();
      case ReleaseOne(_, k) =>
        if k < |descriptors| {
          Release(k);
        }
      case Drop(_) => DropCache();
    }
  }

  /** An intact file on a mount that caches, of which the first 100 bytes have just been read. */
  method ReadOddly(plain: Data) returns (f: File, d: Descriptor)
    requires PAGE <= |plain| <= SMALL_FILE
    ensures fresh(f) && fresh(f.mount) && fresh(d) && f.descriptors == [d] && f.Valid() && f.compressed
    ensures f.mount.cacheDecompressed && f.mount.cacheSize == 0 && f.mount.maxCacheSize == 1024 * 1024
    ensures f.stream == Stream(plain, true) && f.headerSize == |plain|
    ensures f.accessType == Reading && f.cache == null && f.live == 0 && d.offset == 100
    ensures f.history == [Served(100, 0, Some(Pread(plain, 100, 0)))]
  {
    var m := new Mount(true, false, 1024 * 1024);
    f := new File(m, Stream(plain, true), |plain|);
    d := f.Open();
    var r, out := f.Read(d, 100, 0, true);
  }

  /** A whole page is read at 8192: it is answered correctly, and page 0 of the cache is now the bytes from where the
      descriptor stood. */
  method SkipFrom(f: File, d: Descriptor)
    requires f.Valid() && f.compressed && f.descriptors == [d] && f.accessType != Writing && f.cache == null && f.live == 0
    requires f.mount.cacheDecompressed && f.mount.cacheSize == 0 && f.mount.maxCacheSize == 1024 * 1024
    requires f.Honest() && 8192 + PAGE <= f.headerSize <= SMALL_FILE && d.offset < PAGE
    modifies f, f.mount, d
    ensures f.Valid() && f.compressed && f.descriptors == [d] && f.accessType == Reading && fresh(f.cache)
    ensures PAGE * f.live <= f.mount.cacheSize && f.mount.InBudget()
    ensures f.cache != null && 0 < f.cache.Length && f.cache[0] == Some(f.stream.plain[old(d.offset)..old(d.offset) + PAGE])
    ensures f.history == old(f.history) + [Served(PAGE, 8192, Some(Pread(f.stream.plain, PAGE, 8192)))]
  {
    assert f.Room(d.offset, 8192);
    ghost var start := d.offset;
    var r, out := f.Read(d, PAGE, 8192, true);
    assert f.FirstPage(start);
  }

  /** Three reads: 100 bytes from the start, a page at 8192, and the first page. The third is answered with the
      bytes from 100 on. */
  method AnOddReadSpoilsTheCache() returns (f: File)
    ensures fresh(f) && f.mount.cacheDecompressed && f.Honest() && f.headerSize == 20000
    ensures |f.history| == 3
    ensures var a, b, c := f.history[0], f.history[1], f.history[2];
      && a == Served(100, 0, Some(Pread(f.stream.plain, 100, 0)))
      && b == Served(PAGE, 8192, Some(Pread(f.stream.plain, PAGE, 8192)))
      && c.size == PAGE && c.offset == 0 && c.answer.Some? && c.answer != Some(Pread(f.stream.plain, PAGE, 0))
  {
    var plain: Data := seq(20000, i => if i < 100 then 0 else 1);
    var d;
    f, d := ReadOddly(plain);
    SkipFrom(f, d);
    var r, out := f.Read(d, PAGE, 0, true);
    assert out[0] == 1 && Pread(plain, PAGE, 0)[0] == 0;
  }

  /** A page of a file is read, with others kept on the way; the file is removed and made again with other contents,
      which are compressed in the background; and its first page is read: it is that of the old file. */
  method AnOldPageIsServed() returns (was: File, f: File)
    ensures was.mount.cacheDecompressed && was.Honest() && f.Honest() && f.mount == was.mount
    ensures was.headerSize == f.headerSize == 20000 && was.stream != f.stream
    ensures was.history == [Served(PAGE, 8192, Some(Pread(was.stream.plain, PAGE, 8192)))]
    ensures f.history == [Served(PAGE, 0, Some(Pread(was.stream.plain, PAGE, 0)))]
    ensures Pread(f.stream.plain, PAGE, 0) != Pread(was.stream.plain, PAGE, 0)
  {
    hide File.CacheShaped, File.CacheTrue, File.DescriptorsValid, File.Kept, LeftPagesGood;
    var zeros, ones: Data := seq(20000, _ => 0), seq(20000, _ => 1);
    was := PagesKept(zeros);
    assert Pread(zeros, PAGE, 0) == zeros[0..PAGE];
    assert Pread(ones, PAGE, 0)[0] == 1 && Pread(zeros, PAGE, 0)[0] == 0;
    f := new File.Remade(was, Stream(ones, true));
    var e := f.Open();
    var r, out := f.Read(e, PAGE, 0, true);
  }

  /** A file of which a page has been read, and the first page is in the cache. */
  method PagesKept(plain: Data) returns (f: File)
    requires 8192 + PAGE <= |plain| <= SMALL_FILE
    ensures fresh(f) && fresh(f.mount) && fresh(f.cache) && f.Valid() && f.compressed
    ensures f.mount.cacheDecompressed && f.mount.InBudget() && PAGE * f.live <= f.mount.cacheSize
    ensures f.stream == Stream(plain, true) && f.headerSize == |plain|
    ensures f.cache != null && 0 < f.cache.Length && f.cache[0] == Some(plain[0..PAGE])
    ensures f.history == [Served(PAGE, 8192, Some(Pread(plain, PAGE, 8192)))]
  {
    var m := new Mount(true, false, 1024 * 1024);
    f := new File(m, Stream(plain, true), |plain|);
    var d := f.Open();
    SkipFrom(f, d);
  }

  // ----- Runs over any number of files and descriptors -----

  /** A read through the `descriptor`-th open descriptor of a file; an open; a release; and the dropping of a
      file's cache, which is all that writes, renames and trimming do to it. */
  datatype Event =
    | ReadAt(file: nat, descriptor: nat, size: nat, offset: nat, enoughSpace: bool)
    | OpenOne(file: nat)
    | ReleaseOne(file: nat, descriptor: nat)
    | Drop(file: nat)

  ghost function Sum(counts: seq<nat>): nat {
    if counts == [] then 0 else counts[0] + Sum(counts[1..])
  }

  lemma {:induction false} SumUpdate(counts: seq<nat>, k: nat, c: nat)
    requires k < |counts|
    ensures Sum(counts[k := c]) == Sum(counts) - counts[k] + c
    ensures Sum(counts) >= counts[k]
  {
    if k == 0 {
      assert counts[0 := c][1..] == counts[1..];
    } else {
      assert counts[k := c][1..] == counts[1..][k - 1 := c];
      SumUpdate(counts[1..], k - 1, c);
    }
  }

  /** The number of cached pages, file by file. */
  ghost function LiveCounts(files: seq<File>): seq<nat>
    reads files
  {
    seq(|files|, i requires 0 <= i < |files| reads files => files[i].live)
  }

  /** Files and caches are not shared; descriptors point back to their one file. */
  ghost predicate Separate(files: seq<File>)
    reads files
  {
    forall i, j :: 0 <= i < |files| && 0 <= j < |files| && i != j ==>
      files[i] != files[j] && (files[i].cache == null || files[i].cache != files[j].cache)
  }

  /** The counter of the mount is the number of live pages of all files, plus what was lost. */
  ghost predicate Budget(m: Mount, files: seq<File>)
    reads m, files
  {
    && m.cacheSize == PAGE * (Sum(LiveCounts(files)) + m.leaked)
    && m.cacheSize <= m.maxCacheSize
  }

  /** Everything a run may touch besides the mount. */
  ghost function Objects(files: seq<File>): (objects: set<object>)
    reads files
    ensures forall f :: f in files ==> f in objects && (f.cache != null ==> f.cache in objects)
    ensures forall f, d :: f in files && d in f.descriptors ==> d in objects
  {
    (set f | f in files) +
    (set f | f in files && f.cache != null :: f.cache as object) +
    (set f, d | f in files && d in f.descriptors :: d as object)
  }

  ghost predicate AllValid(m: Mount, files: seq<File>)
    reads m, files, Objects(files)
  {
    forall f :: f in files ==> f.mount == m && f.Valid()
  }

  /** If one file keeps its accounts with the mount and the others keep their pages, the budget stays exact. */
  lemma BudgetKept(before: seq<nat>, after: seq<nat>, k: nat, sizes: (nat, nat), leaks: (nat, nat))
    requires |before| == |after| && k < |before|
    requires forall j :: 0 <= j < |before| && j != k ==> after[j] == before[j]
    requires sizes.0 == PAGE * (Sum(before) + leaks.0)
    requires sizes.1 - PAGE * after[k] - PAGE * leaks.1 == sizes.0 - PAGE * before[k] - PAGE * leaks.0
    ensures sizes.1 == PAGE * (Sum(after) + leaks.1)
  {
    assert after == before[k := after[k]];
    SumUpdate(before, k, after[k]);
  }

  /** Within an exact budget, the pages of one file are counted. */
  lemma BudgetCoversFile(m: Mount, files: seq<File>, k: nat)
    requires k < |files| && Budget(m, files)
    ensures PAGE * files[k].live <= m.cacheSize <= m.maxCacheSize
  {
    SumUpdate(LiveCounts(files), k, 0);
  }

  /** How many descriptors of every file are open after a run, if there were `start` before. */
  function OpenAfter(start: seq<nat>, events: seq<Event>): (counts: seq<nat>)
    ensures |counts| == |start|
  {
    if events == [] then start else
      var counts, e := OpenAfter(start, events[..|events| - 1]), events[|events| - 1];
      if e.file < |start| then counts[e.file := Opened(counts[e.file], e)] else counts
  }

  function Opened(n: nat, e: Event): nat {
    if e.OpenOne? then n + 1 else if e.ReleaseOne? && e.descriptor < n then n - 1 else n
  }

  /** Whether an event is a read through a descriptor that is open by then. */
  predicate Answered(start: seq<nat>, events: seq<Event>, i: nat)
    requires i < |events|
  {
    && events[i].ReadAt? && events[i].file < |start|
    && events[i].descriptor < OpenAfter(start, events[..i])[events[i].file]
  }

  /** Reads lie inside their files as far as the kernel sees to it. */
  ghost predicate Possible(files: seq<File>, e: Event) {
    e.file < |files| && (e.ReadAt? ==> files[e.file].InFile(e.size, e.offset))
  }

  /** Where caching is on, reads are of whole pages. */
  ghost predicate WholePages(files: seq<File>, e: Event) {
    e.ReadAt? && e.file < |files| && files[e.file].mount.cacheDecompressed ==> files[e.file].Caches(e.size, e.offset)
  }

  /** The answer a plain file would give. */
  ghost predicate PlainAnswer(files: seq<File>, e: Event, out: Data) {
    e.ReadAt? && e.file < |files| && out == Pread(files[e.file].stream.plain, e.size, e.offset)
  }

  ghost predicate AllTidy(files: seq<File>)
    reads files, Objects(files)
  {
    forall f :: f in files ==> f.Tidy()
  }

  /** The caches, file by file. */
  ghost function CachesOf(files: seq<File>): (caches: seq<array?<Option<Data>>>)
    reads files
    ensures |caches| == |files| && forall i :: 0 <= i < |files| ==> caches[i] == files[i].cache
  {
    seq(|files|, i requires 0 <= i < |files| reads files => files[i].cache)
  }

  /** No descriptor belongs to two files. */
  lemma DescriptorsApart(m: Mount, files: seq<File>, f: File)
    requires AllValid(m, files) && f in files
    ensures forall g, d :: g in files && g != f && d in g.descriptors ==> d !in f.descriptors
  {
    assert f.Valid();
    forall g, d | g in files && g != f && d in g.descriptors ensures d !in f.descriptors {
      assert g.Valid() && d.file == g;
    }
  }

  lemma AreSeparate(files: seq<File>)
    requires Separate(files)
    ensures forall i, j :: 0 <= i < |files| && 0 <= j < |files| && i != j ==>
              files[i] != files[j] && (files[i].cache == null || files[i].cache != files[j].cache)
  {
  }

  lemma TidyIsTrue(f: File)
    requires f.Tidy()
    ensures f.CacheTrue()
  {
  }

  /** Files stay separate if one of them drops its cache or makes a new one. */
  lemma StillSeparate(files: seq<File>, caches: seq<array?<Option<Data>>>, k: nat)
    requires k < |files| == |caches|
    requires forall i, j :: 0 <= i < |files| && 0 <= j < |files| && i != j ==>
               files[i] != files[j] && (caches[i] == null || caches[i] != caches[j])
    requires forall j :: 0 <= j < |files| && j != k ==> files[j].cache == caches[j]
    requires files[k].cache == caches[k] || files[k].cache == null || files[k].cache !in caches
    ensures Separate(files)
  {
  }

  /** One event, with the accounts of its own file. */
  method TakeOne(m: Mount, files: seq<File>, e: Event) returns (ok: bool, answer: Option<Data>)
    requires Possible(files, e) && AllValid(m, files) && Separate(files)
    requires PAGE * files[e.file].live <= m.cacheSize && m.InBudget()
    modifies m, Objects(files)
    ensures ok ==> AllValid(m, files) && m.leaked == old(m.leaked)
    ensures files[e.file].Honest() && (e.ReadAt? ==> e.enoughSpace) ==> ok
    ensures m.InBudget() && Separate(files)
    ensures m.cacheSize - PAGE * files[e.file].live - PAGE * m.leaked
         == old(m.cacheSize - PAGE * files[e.file].live - PAGE * m.leaked)
    ensures answer.Some? <==> ok && e.ReadAt? && e.descriptor < |old(files[e.file].descriptors)|
    ensures old(AllTidy(files)) && answer.Some? ==> PlainAnswer(files, e, answer.value)
    ensures ok && old(AllTidy(files)) && WholePages(files, e) ==> AllTidy(files)
    ensures |files[e.file].descriptors| == Opened(|old(files[e.file].descriptors)|, e)
    ensures forall j :: 0 <= j < |files| && j != e.file ==>
              && files[j].live == old(files[j].live) && files[j].cache == old(files[j].cache)
              && files[j].descriptors == old(files[j].descriptors) && files[j].compressed == old(files[j].compressed)
              && files[j].accessType == old(files[j].accessType) && files[j].skipped == old(files[j].skipped)
    ensures files[e.file].cache == old(files[e.file].cache) || files[e.file].cache == null || fresh(files[e.file].cache)
    ensures forall d :: d in files[e.file].descriptors ==> d in old(files[e.file].descriptors) || fresh(d)
    ensures m.readOnly && old(files[e.file].Streaming()) ==> files[e.file].Streaming()
    ensures m.readOnly && files[e.file].Honest() && old(!files[e.file].compressed || files[e.file].Streaming()) ==> ok
    ensures old(!files[e.file].compressed) ==> !files[e.file].compressed
    ensures old(files[e.file].Frugal()) ==> files[e.file].Frugal()
  {
    hide File.Valid, File.Tidy, Separate, File.Honest, File.Frugal, Mount.InBudget, File.CacheShaped, File.CacheTrue,
      Opened;
    var f := files[e.file];
    assert f in files;
    ghost var caches, theirs, tidy := CachesOf(files), f.descriptors, AllTidy(files);
    DescriptorsApart(m, files, f);
    AreSeparate(files);
    if tidy {
      TidyIsTrue(f);
    }
    ok, answer := f.Take(e);
    StillSeparate(files, caches, e.file);
    if ok {
      forall g | g in files && g != f ensures g.Valid() && (tidy ==> g.Tidy()) {
        assert old(g.Valid());
        assert forall d :: d in g.descriptors ==> d !in theirs;
        g.Framed();
      }
    }
  }

  /** No file that is still compressed has been written. */
  ghost predicate OnlyRead(files: seq<File>)
    reads files
  {
    forall f :: f in files && f.compressed ==> f.Streaming()
  }

  /** One event, with the accounts of all files. */
  method ServeOne(m: Mount, files: seq<File>, e: Event) returns (ok: bool, answer: Option<Data>)
    requires Possible(files, e) && AllValid(m, files) && Separate(files) && Budget(m, files)
    modifies m, Objects(files)
    ensures ok ==> AllValid(m, files) && m.leaked == old(m.leaked)
    ensures files[e.file].Honest() && (e.ReadAt? ==> e.enoughSpace) ==> ok
    ensures Separate(files) && Budget(m, files)
    ensures answer.Some? <==> ok && e.ReadAt? && e.descriptor < old(Counts(files))[e.file]
    ensures old(AllTidy(files)) && answer.Some? ==> PlainAnswer(files, e, answer.value)
    ensures ok && old(AllTidy(files)) && WholePages(files, e) ==> AllTidy(files)
    ensures Counts(files) == old(Counts(files))[e.file := Opened(old(Counts(files))[e.file], e)]
    ensures forall f :: f in files ==> f.cache == null || f.cache == old(f.cache) || fresh(f.cache)
    ensures forall f, d :: f in files && d in f.descriptors ==> d in old(f.descriptors) || fresh(d)
    ensures m.readOnly && old(OnlyRead(files)) ==>
              && OnlyRead(files) && (forall f :: f in files ==> f.compressed == old(f.compressed))
              && (files[e.file].Honest() ==> ok)
    ensures forall f :: f in files && old(f.Frugal()) ==> f.Frugal()
  {
    hide File.Valid, File.Tidy, AllTidy, PlainAnswer, WholePages, File.Frugal, File.Honest, Counts, LiveCounts, Separate;
    BudgetCoversFile(m, files, e.file);
    ghost var before, open := LiveCounts(files), Counts(files);
    CountsAre(files);
    ok, answer := TakeOne(m, files, e);
    CountsAre(files);
    assert Counts(files) == open[e.file := Opened(open[e.file], e)];
    BudgetKept(before, LiveCounts(files), e.file, (old(m.cacheSize), m.cacheSize), (old(m.leaked), m.leaked));
  }

  lemma CountsAre(files: seq<File>)
    ensures |LiveCounts(files)| == |files| && |Counts(files)| == |files|
    ensures forall j :: 0 <= j < |files| ==> LiveCounts(files)[j] == files[j].live
    ensures forall j :: 0 <= j < |files| ==> Counts(files)[j] == |files[j].descriptors|
  {
  }

  ghost function Counts(files: seq<File>): (counts: seq<nat>)
    reads files
    ensures |counts| == |files|
  {
    seq(|files|, i requires 0 <= i < |files| reads files => |files[i].descriptors|)
  }

  /** Any run of events, over any number of files and descriptors and with any budget. The page counter is the
      number of cached pages throughout, plus what was lost on error paths, and within the limit. If caches were
      true and reads keep to whole pages where caching is on, every answer is what a plain file would give. The
      run stops at the first error; on intact streams with enough space there is none, and no page is lost. On a
      read-only mount no file is decompressed, and there is none without any space. */
  method Serve(m: Mount, files: seq<File>, events: seq<Event>) returns (answers: seq<Option<Data>>)
    requires AllValid(m, files) && Separate(files) && Budget(m, files)
    requires forall i :: 0 <= i < |events| ==> Possible(files, events[i])
    modifies m, Objects(files)
    ensures |answers| <= |events|
    ensures forall i :: 0 <= i < |answers| ==> (answers[i].Some? <==> Answered(old(Counts(files)), events, i))
    ensures old(AllTidy(files)) && (forall e :: e in events ==> WholePages(files, e)) ==>
              forall i :: 0 <= i < |answers| && answers[i].Some? ==> PlainAnswer(files, events[i], answers[i].value)
    ensures (forall f :: f in files ==> f.Honest()) && (forall e :: e in events && e.ReadAt? ==> e.enoughSpace) ==>
              |answers| == |events| && m.leaked == old(m.leaked)
    ensures Budget(m, files)
    ensures m.readOnly && old(OnlyRead(files)) ==>
              && (forall f :: f in files ==> f.compressed == old(f.compressed))
              && ((forall f :: f in files ==> f.Honest()) ==> |answers| == |events|)
    ensures forall f :: f in files && old(f.Frugal()) ==> f.Frugal()
  {
    hide Budget, AllValid, PlainAnswer, Separate, AllTidy, OpenAfter, WholePages, Counts, File.InFile, File.Honest,
      File.Frugal, OnlyRead, Answered, Opened;
    answers := [];
    ghost var start, tidy := Counts(files), AllTidy(files) && forall e :: e in events ==> WholePages(files, e);
    OpenAtFirst(start, events);
    while |answers| < |events|
      invariant |answers| <= |events|
      invariant AllValid(m, files) && Separate(files) && Budget(m, files) && m.leaked == old(m.leaked)
      invariant tidy ==> AllTidy(files)
      invariant Counts(files) == OpenAfter(start, events[..|answers|])
      invariant forall i :: 0 <= i < |answers| ==> (answers[i].Some? <==> Answered(start, events, i))
      invariant tidy ==> forall i :: 0 <= i < |answers| && answers[i].Some? ==> PlainAnswer(files, events[i], answers[i].value)
      invariant forall f :: f in files ==> f.cache == null || f.cache == old(f.cache) || fresh(f.cache)
      invariant forall f, d :: f in files && d in f.descriptors ==> d in old(f.descriptors) || fresh(d)
      invariant forall f :: f in files && old(f.Frugal()) ==> f.Frugal()
      invariant m.readOnly && old(OnlyRead(files)) ==>
                  OnlyRead(files) && forall f :: f in files ==> f.compressed == old(f.compressed)
    {
      var e := events[|answers|];
      OneMoreEvent(start, events, |answers|);
      var ok, answer := ServeOne(m, files, e);
      if !ok {
        return;
      }
      answers := answers + [answer];
    }
  }

  lemma OpenAtFirst(start: seq<nat>, events: seq<Event>)
    ensures OpenAfter(start, events[..0]) == start
  {
  }

  lemma OneMoreEvent(start: seq<nat>, events: seq<Event>, i: nat)
    requires i < |events| && events[i].file < |start|
    ensures var counts, e := OpenAfter(start, events[..i]), events[i];
      && OpenAfter(start, events[..i + 1]) == counts[e.file := Opened(counts[e.file], e)]
      && (Answered(start, events, i) <==> e.ReadAt? && e.descriptor < counts[e.file])
  {
    assert events[..i + 1][..i] == events[..i];
  }
}
