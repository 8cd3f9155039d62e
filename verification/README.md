# FuseCompress: a model and its proofs

FuseCompress is a file system in user space that keeps every file either plain or as a 12-byte header followed by
a codec's stream, and, if deduplication is on, as a hard link that identical files share. A background worker moves
files between these forms. Users must never be able to tell. This project models the parts of the program where that
is hard to see and proves it: whatever the program does behind the scenes, a file answers like a plain file with its
own contents and attributes.

| module | what it models | source |
|---|---|---|
| `Bytes` | byte strings, plain `pread` and `pwrite`, little-endian integers | |
| `Lzo` | the LZO block stream: writer and reader with their buffers, around any block compressor | `minilzo/lzo.c` |
| `Codecs` | what is assumed of a codec, two instances of it, and the header | `file.c`, `compress_null.c`, `compress_lzo.c` |
| `ReadEngine` | `pread` on a forward-only stream: cache, rewind, skip, fall back | `direct_compress.c`, `compress.c` |
| `PageCounter` | the counter of cached pages, which several threads change | `direct_compress.c` |
| `WriteEngine` | `pwrite` on an append-only stream, and the operations around it, background compression among them | `direct_compress.c`, `compress.c`, `fusecompress.c` |
| `Background` | the worker's compression of one file | `compress.c`, `compress_lzo.c` |
| `Fsck` | the offline checker | `tools/fsck.c` |
| `Protocol` | users and worker as a transition system, one step per critical section | `background_compress.c`, `direct_compress.c`, `dedup.c` |
| `Progress` | what the protocol brings about: nobody is refused, work comes to its end, entries name the right compressor | `background_compress.c`, `direct_compress.c`, `compress.c` |
| `Rings` | circular lists through embedded links, and arrays of them | `list.h` |
| `ListRace` | two deletions from one list at the same time, pointer by pointer | `list.h`, `dedup.c` |
| `DedupTable` | the two-index table of file names and MD5 sums | `dedup.c` |
| `DedupDb` | the table on disk | `dedup.c` |
| `Paths` | paths, attribute file names, temporary names | `dedup.c` |
| `Backing` | the backing file system: names, hard links, inodes, attribute files, and what users see of them | `dedup.c` |
| `AttrChanges` | changes of owner, mode and times: what is looked at, chosen and done | `dedup.c` |
| `DedupEntries` | when the table's entries tell the truth, also while renames are halfway | `dedup.c`, `fusecompress.c` |
| `PlainFiles` | independent plain files, the operations on them, and what can be done while others are under way | `fusecompress.c` |
| `DedupStore` | linking, copy-on-write, renaming, compressing and changing attributes, in the steps between which others can come | `dedup.c`, `compress.c`, `fusecompress.c` |
| `DedupTraps` | runs in which linked files go wrong | `dedup.c`, `fusecompress.c` |

## What is assumed

* A codec never takes back a byte that it has written, and a stream that was closed decodes to everything that was
  accepted (`Codecs.Codec.Honest`). For LZO this is proved from one assumption on the block compressor: decompressing
  what was compressed gives the block back (`Lzo.BlockCodec.Honest`).
* MD5 tells contents apart that occur in one run (`used` in `DedupStore.Store.Run`); nothing is assumed of others.
* The kernel does not unlink, or rename onto, a file that is open (FUSE renames such files first), and sends no
  empty writes.
* In `ReadEngine.Serve` requests come one after the other; what several threads do to the counter of cached pages is the
  subject of `PageCounter`. The calls on the table in `DedupTable` come one after the other too; what two deletions at
  the same time do to its lists is the subject of `ListRace`.
* In `DedupStore.Store.Run` no owner, mode or time of a file is changed while the worker is just making it a link
  (`dedup.c:132-169`), and no file is decompressed; a change made meanwhile is lost in the same way as in
  `DedupTraps.AChangeOfModeIsLost`.
* `Protocol` takes it that a link goes to a file with the bytes that were hashed. That the table sees to this, and when it
  does not, is the subject of `DedupStore`.
* `mkstemp` finds a name that is not in use, and user names do not begin with `._fC`. At the start of a run of
  `DedupStore.Store.Run` no temporary file is left over (`Backing.Clean`); then there is none afterwards.

A function that is passed as an argument or is a field (`decode`, `hash`, a `BlockCodec`) stands for library code that
is not part of this model; the parameters of events and operations that choose an outcome (whether there is enough
space, whether a hash could be read, when cancellation is noticed) stand for the environment.

## Where the code does not keep its promises

The guarantees below fail in the code, and the model keeps the code as it is. Each has an exact condition and a run, or
an input, that ends wrong.

Users and worker:

* A worker whose hash fails leaves without looking at the status: sleepers are abandoned if and only if the hash fails
  (`Protocol.SleepersAreAbandonedIffTheHashFails`, `Protocol.AFailedHashAbandonsASleeper`).
* A sleeper is not counted among the users of a file. A purge can free the file under him, but only if he has been woken
  already or the hash of the file has failed (`Protocol.FreedUnderASleeperOnlyIf`,
  `Protocol.APurgeFreesAWokenSleepersFile`).
* The assertion that ends `direct_rename` holds if and only if at most one of the worker and the other renames of the
  same file holds on to it (`Protocol.RenameAssertionHoldsIff`, `Protocol.ThreeRenamesTripTheAssertion`). Its comment
  mentions the worker only. The run needs a kernel that sends renames of one name while another is on its way; one that
  locks the parent directories during a rename does not.

Reading:

* With caching on, a read that is not of whole pages leaves the descriptor inside a page, and the next skip files wrong
  pages; the comment at `direct_compress.c:385-388` thinks only of performance. A kept page is right for every file if
  and only if the descriptor stands on a page boundary (`ReadEngine.File.SkipChunk`,
  `ReadEngine.KeptPageIsGoodIffOnPage`, `ReadEngine.AnOddReadSpoilsTheCache`).
* The entry of a file that is removed and made again keeps the pages of the old one. They are right for every contents of
  that size if and only if there are none (`ReadEngine.LeftPagesAreGoodIffNone`, `ReadEngine.AnOldPageIsServed`).
* The counter of cached pages is shared by threads without a lock of its own. It counts the pages if and only if no
  change is written back on a value that has changed since it was read. If so, it exceeds its limit by up to one page for
  every other thread; if not, any number of pages can be cached (`PageCounter.ExactIffFresh`,
  `PageCounter.OneAtATimeIsBounded`, `PageCounter.TheBoundIsReached`, `PageCounter.PagesGrowWithoutBound`).

Writing:

* A plain file whose bytes parse as a header is taken for a compressed one when it is opened or when its size has to be
  looked up. What the program takes a file for is right if and only if it is compressed or does not begin so
  (`WriteEngine.File.Identify`, `WriteEngine.AHeaderIsTakenForOne`).
* `truncate` trusts the database entry, which does not know the codec after a purge or a new mount. Cutting the stored
  bytes of a compressed file to a size other than 0 gives what a plain file would hold only if nothing is cut at all or
  if the contents begin like the header (`WriteEngine.File.Truncate`, `WriteEngine.TruncatingStoredBytesIff`,
  `WriteEngine.ACutDestroysAForgottenFile`).
* Where the background compressor does not spare small files, it compresses empty ones, and a write to the start of such
  a file by its only user trips an assertion (`WriteEngine.File.OverEmpty`, `WriteEngine.AnEmptyFileTripsTheAssertion`).

Deduplication:

* A rename moves the file first and its entry in the table later. In between, the table tells the truth if and only if the
  new name had no entry or one with the hash of the moved file, and a link made then keeps all contents if and only if
  it does not go to the new name or the bytes agree (`DedupEntries.BetweenTheHalvesIff`,
  `DedupEntries.ALinkBetweenTheHalvesIff`, `DedupTraps.ALinkBetweenTheHalvesLosesAFile`).
* A file that is in the table and open for writing can become the target of a link. Writes through an open descriptor
  then stay in their own file if and only if no link has been made to that file (`DedupStore.Store.HardlinkFile`,
  `Backing.AfterALinkWritesStayIff`, `DedupTraps.AnOpenTargetIsWrittenThrough`).
* Two deletions from one list of the table can run at the same time, because `dedup_discard` takes no lock of the table.
  However their steps fall, they leave a ring if and only if the entries are not neighbours (`ListRace.ListDelsRaceIff`,
  `ListRace.NeighboursBreak`).
* A change of owner, mode or times looks first and acts later, without a lock. Only the named file changes, and as it
  should, if and only if what was chosen is still right; for the inode, that nobody else shows its attributes
  (`AttrChanges.ActedIsRightIff`, `DedupStore.Store.ActNow`, `DedupTraps.AChangeReachesAnotherFile`). If the file is
  gone by then, an attribute file without a file is left if and only if one was to be made
  (`AttrChanges.ActedIsSoundIff`).
* The worker puts back the attributes that it read before it let go of the lock. A change of owner, mode or time that
  is made meanwhile survives if and only if it went to an attribute file (`DedupStore.Store.AttributesSurviveIff`,
  `DedupTraps.AChangeOfModeIsLost`); other changes do no harm (`DedupStore.Store.CompressWhile`). Copying a shared file
  to open it for writing puts back what it showed before, whatever has changed
  (`DedupStore.Store.CopyKeepsIff`, `DedupTraps.ACopyPutsBackTheOldMode`).
* A rename carries the attributes over unless the source has no attribute file and the target has kept one that differs
  (`Backing.RenameKeepsAttributesIff`, `DedupTraps.ARenameKeepsTheWrongOwner`).
* A write does not change the modification time that users see if the file has an attribute file
  (`DedupStore.Store.Write`, `DedupTraps.AWriteLeavesTheTime`).

The checker goes on without a codec if a plain file begins with the magic bytes (`Fsck.TheWritePathIsAccepted`).

## Model

| member | source | states |
|---|---|---|
| Lzo.RoundTrip | minilzo/lzo.c:81-256 | decoding the block stream of any bytes gives them back and ends cleanly, whatever the compressor's work memory held |
| Lzo.BlockShape | minilzo/lzo.c:264-299 | every block but the last is full, and only the sole block of an empty stream is empty |
| Lzo.SizeBound | minilzo/lzo.c:238-256 | n bytes take at most n + 16 * max(1, ceil(n / 524288)) bytes |
| Lzo.HeadLayout | minilzo/lzo.c:176-184 | a block head is the plain size in bytes 0 to 7 and the stored size in bytes 8 to 15, each with its lowest byte first |
| Lzo.HeadIsRead | minilzo/lzo.c:165-172 | and any sixteen bytes are read so |
| Lzo.StoredRawIffSizesAgree | minilzo/lzo.c:94-136 | a block is stored as it is exactly when the two sizes in its head agree, so the reader can tell |
| Lzo.EmptyBlockIsFault | minilzo/lzo.c:87-92 | the reader refuses an empty block once it owns a buffer, which is why the writer flushes lazily |
| Lzo.Writer.Write | minilzo/lzo.c:264-299 | everything handed over is in the full blocks on disk or in the buffer, and a block is flushed only when more is to come |
| Lzo.Writer.Close | minilzo/lzo.c:337-353 | the file is the block stream of exactly the bytes that were written |
| Lzo.WriteAll | minilzo/lzo.c:264-353 | what is on disk depends only on the concatenation of the pieces that were written |
| Lzo.Reader.Read | minilzo/lzo.c:301-335 | a read takes the next bytes of the decoded stream and leaves the rest |
| Lzo.DeliverIsPrefix | minilzo/lzo.c:301-335 | any sequence of read sizes gives consecutive slices of the data, and nothing after its end |
| Lzo.ReadAll | minilzo/lzo.c:301-335 | reading a good stream in any sizes delivers those slices, then 0 for ever |
| Lzo.WriteThenRead | minilzo/lzo.c:264-353 | writing in any pieces and reading in any sizes gives slices of what was written |
| Lzo.CutStream | minilzo/lzo.c:81-172 | of a stream that is cut off anywhere, exactly the blocks whose frames are whole are read; then the end is clean between two frames, and an error inside one |
| Lzo.WholeFramesFit | minilzo/lzo.c:81-172 | those frames are as many as fit in front of the cut |
| Lzo.ZerosAreFault | minilzo/lzo.c:81-172 | zeros behind the stream of a file that is not empty are read as an error |
| Codecs.NullIsHonest | compress_null.c:36-96 | storing bytes as they are is a codec |
| Codecs.LzoIsHonest | compress_lzo.c:50-150 | the LZO block stream is a codec whatever its work memories hold, given an honest block compressor |
| Codecs.WriterEmits | minilzo/lzo.c:264-299 | what the writer has in its file before it is closed is what the codec emits for the bytes it has accepted, with the work memories it has used |
| Codecs.LzoShowsDamage | compress_lzo.c:50-150 | an LZO stream that lost its end gives less than everything, and zeros behind it are not swallowed |
| Codecs.HeaderRoundTrip | file.c:63-115 | a header is read back with its full size exactly when its codec is known, and what follows it is untouched |
| Codecs.HeaderLayout | file.c:63-79 | which byte of the file is which: 1F 5D 89, the codec's number, and the size in bytes 4 to 11, the lowest first |
| Codecs.HeaderIsRead | file.c:93-115 | any bytes are taken for a header exactly if they begin with those three and the number of a known codec and are twelve at least; the size is then the number in bytes 4 to 11, the lowest first |
| Codecs.OnlyHeadersParse | file.c:93-115 | nothing but the bytes of a header of a known codec is taken for one |
| ReadEngine.KeptPageIsGoodIffOnPage | direct_compress.c:538-571 | the page that skipping keeps for a descriptor is the page of its slot, for every file long enough, if and only if the descriptor stands on a page boundary |
| ReadEngine.AnOddReadSpoilsTheCache | direct_compress.c:385-391 | a run of three reads of one file, 100 bytes at 0, a page at 8192 and a page at 0: the first two are answered right, the third with the bytes from 100 on |
| ReadEngine.LeftPagesAreGoodIffNone | direct_compress.c:755-761 | the pages that an entry keeps when its file is removed are those of every new contents of that size if and only if there are none |
| ReadEngine.AnOldPageIsServed | direct_compress.c:411-429 | a run: a page is read with others kept, the file is made anew with other contents, and its first page is read: it is the old one |
| ReadEngine.File.ServeFromCache | direct_compress.c:412-429 | what is served from a cache without wrong pages is the file's bytes there, the first page is what its slot holds in any case, and the loop, which has no bound of its own, ends before the cache does |
| ReadEngine.File.FlushCache | direct_compress.c:53-72 | dropping a cache returns exactly its live pages to the budget |
| ReadEngine.File.SkipTo | direct_compress.c:513-578 | skipping ends at the wanted offset with every kept page counted, or tells why not; from a page boundary it keeps no wrong page, and from elsewhere the first page it keeps is the one that begins there |
| ReadEngine.File.SkipChunk | direct_compress.c:536-576 | one turn of skipping keeps the accounts, the two exits that give up lose exactly one page, and the cache has no wrong page afterwards if and only if it had none and the one kept is that of its slot |
| ReadEngine.File.DoDecompress | compress.c:107-290 | the plain file that replaces the stream is what the stream decodes to, and only if that has the size of the header |
| ReadEngine.File.DirectDecompress | direct_compress.c:375-603 | as long as no wrong page is cached, a read through cache, rewind, skip or fallback gives exactly what `pread` gives, or an error, and on an intact stream with space no error; reads of whole pages cache no wrong page; on a read-only mount a file that was not written stays compressed and an intact one is answered without any space |
| ReadEngine.File.ReadOn | direct_compress.c:431-603 | for the part of a read that no cached page serves: the file stays a stream, and an intact one is answered without any space, if it was not written and what must be skipped fits into the cache, or is nothing, or the mount is read-only, the file is small, or no more than its size will have been thrown away; in all other cases it is decompressed for good, and answered if and only if it is intact and there is space; what is thrown away is counted exactly |
| ReadEngine.File.Read | fusecompress.c:739-782 | a read request gives what `pread` gives, compressed or not, and gives up streaming under exactly the same conditions |
| ReadEngine.BudgetKept | direct_compress.c:53-72 | if one file keeps its accounts and the others their pages, the mount's counter stays the sum over all files |
| PageCounter.ExactIffFresh | direct_compress.c:421 | over any steps of any threads the counter counts the pages throughout, if and only if every change is written back on the value that it was read from |
| PageCounter.OneAtATimeIsBounded | direct_compress.c:538-540 | if changes, but not the test before them, exclude each other, the counter is exact and exceeds its limit by at most a page for every other thread |
| PageCounter.TheBoundIsReached | direct_compress.c:538-540 | for any number of threads a run that reaches this bound |
| PageCounter.PagesGrowWithoutBound | direct_compress.c:538-540 | if changes overlap, two threads can cache any number of pages while the counter is as it was |
| ReadEngine.Serve | direct_compress.c:375-603 | over any run of reads, opens, releases and dropped caches (by writes, renames and trimming) on any files, one request at a time: an exact page counter that never exceeds the budget, at most one file length thrown away, and plain answers where caching is off or reads are of whole pages; intact streams with space give no error, and on a read-only mount no file is ever decompressed and intact streams give none without any space |
| WriteEngine.HeaderRewritten | direct_compress.c:675-750 | rewriting the header in place and appending leaves the header of the new size and the stream so far, with the shared offset at the end |
| WriteEngine.File.Write | fusecompress.c:784-853 | a write is `pwrite` on the contents, in whatever form the file is, and keeps every handle usable; the one exception is a compressed empty file that is taken for a fresh one; the file is compressed afterwards exactly if its only user, who has not read it, writes on where he stands at its end, and it was compressed or it is empty and a codec was chosen for it |
| WriteEngine.WriteInOrder | fusecompress.c:784-853 | a new file that is written from its start to its end in any pieces is compressed with the chosen codec, and is read back |
| WriteEngine.File.Read | fusecompress.c:739-782 | a read between writes gives what `pread` gives; the file is plain afterwards exactly if it was plain, was being written, or the reader gave up |
| WriteEngine.File.DirectCompress | direct_compress.c:609-751 | a write to a compressed file is `pwrite`: streamed if it continues the stream, else on the decompressed file |
| WriteEngine.File.Append | direct_compress.c:675-750 | in streaming mode the disk is header and codec output, and size, offset and accepted bytes agree |
| WriteEngine.File.DirectClose | direct_compress.c:323-367 | closing the writer finishes the stream; the contents stay, and what a single user has set for the file is set back |
| WriteEngine.File.DoDecompress | compress.c:107-290 | decompressing keeps the contents, also of a stream that is still being written |
| WriteEngine.File.Identify | fusecompress.c:124-152 | the program learns codec and size of a file as they are if and only if the file is compressed or does not begin like a compressed one |
| WriteEngine.File.Open | fusecompress.c:677-731 | an open learns codec and size from the bytes, and leaves a valid file under the same condition |
| WriteEngine.File.Forget | direct_compress.c:141-151 | a file whose entry is freed and made again is as good as before for everything but truncation |
| WriteEngine.File.Pack | compress.c:318-463 | the worker's compression keeps the contents of a file that nobody uses and leaves it compressed, changes nothing about small ones and those known to be compressed, and learns codec and size from the header of one that it did not know |
| WriteEngine.AnEmptyFileTripsTheAssertion | fusecompress.c:813-818 | a run: an empty file is compressed in the background and opened, and the next write at its start finds a codec where the code asserts that there is none |
| WriteEngine.StoredReadsBack | file.c:63-115 | a finished file names its codec and its size and decodes to its contents |
| WriteEngine.AHeaderIsTakenForOne | fusecompress.c:124-152 | a run: twelve bytes that make a header are written to a plain file, which is released and opened again; its size is then told as the one in the header |
| WriteEngine.File.Truncate | fusecompress.c:502-565 | truncation resizes the contents with zeros if the new size is 0, the codec is known or the file is plain; else it cuts the stored bytes |
| WriteEngine.TruncatingStoredBytesIff | fusecompress.c:519-560 | stored bytes that were cut or extended are what a plain file would hold if and only if nothing was cut at all, or only a piece of the header is left and the contents begin with it |
| WriteEngine.ACutDestroysAForgottenFile | fusecompress.c:519-560 | a run: a file is written in compressed form, released, forgotten and truncated; bytes of its header are left |
| WriteEngine.File.GetSize | fusecompress.c:66-171 | the size that users see is the size of the contents and the file stays valid, if and only if the size was known or the file is not taken for another kind |
| WriteEngine.File.Release | fusecompress.c:855-893 | releasing a descriptor keeps contents, form and size; a compressed file that is released by its only user is open to any use again |
| WriteEngine.Step | fusecompress.c:613-893 | each operation that the program does not come to with a wrong idea of the file answers like a plain file and changes it in the same way |
| WriteEngine.Run | fusecompress.c:613-893 | any sequence of operations on a fresh file, purges and background compression included, gives the answers and the contents of a plain file up to the first one to which the program comes with a wrong idea of the file; on a calm sequence there is none |
| WriteEngine.CloseFile | fusecompress.c:855-893 | after the last release the disk holds the contents: size and bytes are found by whoever comes to the file afresh, whatever the contents are if it is compressed |
| Background.CompressStream | compress_lzo.c:50-107 | the loop hands the file to the codec from its start without gaps, in buffers of 4096 bytes, and stops after exactly the buffer at which cancellation is noticed, else at the end |
| Background.DoCompress | compress.c:296-470 | whoever comes to the file afresh finds what was found before; without cancellation a plain file that is not too small becomes a compressed one that the checker accepts, any other is left as it was |
| Fsck.CheckFile | tools/fsck.c:127-219 | the checking loop ends, and reports exactly what the decoded stream and the header size imply |
| Fsck.ReportedIffShort | tools/fsck.c:160-219 | a file is reported if and only if its stream gives less than the size that users are told, as a failed read only if the stream is not in order and as a short one only if it is |
| Fsck.CutFilesAreReported | tools/fsck.c:160-219 | a finished compressed file that lost its end, at any byte, is reported if and only if its header is whole and it had data; with less of the header it passes for plain or for a file without codec |
| Fsck.CutLzoFilesAreReported | tools/fsck.c:184-197 | with LZO, a cut between two frames is reported as a short read and any other as a failed read |
| Fsck.FinishedStreamsAreFine | tools/fsck.c:167-203 | a header and a finished stream of as many bytes, cut in any way, are accepted |
| Fsck.TheWritePathIsAccepted | tools/fsck.c:160-219 | whatever the write path leaves is accepted, compressed files with any contents and plain ones that do not begin with the magic bytes |
| Protocol.StepKept | background_compress.c:83-171 | every step of a user, a purge or the worker keeps the invariant: counts, isolation of busy files, stable sources, no lost wakeup |
| Protocol.RunKept | background_compress.c:83-171 | every interleaving keeps it |
| Protocol.CountsAreConserved | direct_compress.c:94-179 | in every reachable state `accesses` is descriptors + queue entries + worker + renames; it is 0 exactly when nobody uses the file, and positive for the worker's file |
| Protocol.UnusedIffNotCounted | direct_compress.c:110-151 | an unforced purge frees only files without descriptor, queue entry, worker or rename |
| Protocol.WorkerKeepsContents | compress.c:386-463 | no step of the worker changes the bytes under any name, whether it succeeds, is cancelled or fails |
| Protocol.CompressedIsStored | compress.c:386-463 | a compression that succeeds and was not cancelled stores the packed form of the bytes that were there and marks the entry; any other stores nothing and marks nothing |
| Protocol.HashedIsLinked | dedup.c:308-359 | a hash that succeeds and was not cancelled stores the link to the twin, if there is one, and nothing else does; the entry is marked unless the hash was cancelled, also if it failed |
| Protocol.WorkerIsInvisible | compress.c:386-463 | over any interleaving, contents are those of a plain file system after the users' changes alone |
| Protocol.WorkersFileIsStable | background_compress.c:132-171 | between letting go of the lock and taking it again, the worker's file has no descriptor and keeps its name and its bytes, whatever users do |
| Protocol.SleepersAreAwaited | direct_compress.c:283-298 | after any run from an empty mount, cancellation is asked for only of busy files, and whoever sleeps on a file waits for a worker that has been told |
| Protocol.EndOfWorkWakesAll | compress.c:391-418 | when work ends, but for a failed hash, everyone asleep on the file is awake, the file is free and no request is left |
| Protocol.SleepersAreAbandonedIffTheHashFails | dedup.c:313-358 | a sleeper is left asleep on a file that stays busy if and only if the hash failed |
| Protocol.AFailedHashAbandonsASleeper | dedup.c:323-332 | a run from an empty mount that ends so |
| Protocol.FreedUnderASleeperOnlyIf | direct_compress.c:110-151 | a file is freed under a thread that sleeps on it only by a purge, and only if the thread has been woken or the file's hash has failed |
| Protocol.APurgeFreesAWokenSleepersFile | direct_compress.c:110-151 | a run from an empty mount in which it is |
| Protocol.DoneWorkIsNotQueuedAgain | compress.c:386-463 | over any run in which nobody asks for the file or changes it, a file that was compressed or hashed is not queued for the same again, however often it is looked up and purged; and a compressed one is, as long as it has an entry, stored in packed form with its bytes |
| Protocol.RenamePassesEverythingOn | direct_compress.c:769-830 | a rename leaves the old entry without descriptors and queue entries, counted only by the worker and other renames; the new one has them, with the old one's compressor and mark |
| Protocol.RenameAssertionHoldsIff | direct_compress.c:819-825 | the assertion holds if and only if at most one of those is left; so it does if no other rename of the file is in progress |
| Protocol.ThreeRenamesTripTheAssertion | fusecompress.c:394-424 | a run of three renames of one file in which it does not |
| Progress.AnyoneMayAsk | direct_compress.c:247-321 | a thread that rests may ask for anything about any name |
| Progress.EveryoneCanGoOn | background_compress.c:93-171 | in every reachable state holders may write, read and release, renames go on, sleepers wake if their file is still there, unused files are purged, and the worker, whatever it is at, has a next step |
| Progress.OpenTakesHold | fusecompress.c:613-735 | opening a file that is not busy puts the descriptor on its entry, exactly if it exists, and the entry then names the form that it is stored in |
| Progress.RemovedIsMarked | fusecompress.c:325-363 | removing a file that is not busy removes its name, and marks the entry exactly if there was something to remove |
| Progress.LookFinds | fusecompress.c:66-171 | a lookup stores nothing and takes the file for existing; only of a stale entry it reads the form from the disk |
| Progress.WorkIsTakenUpIff | background_compress.c:122-171 | the worker goes to work on what it has fetched if and only if nobody else holds the file and there is something to do, and remembers the bytes that are there; else it stores nothing and lets go |
| Progress.APlainFileIsPacked | background_compress.c:83-171 | a plain file that nobody uses, purged with an idle worker: it is queued, taken up and packed, with its bytes, and nobody holds it in the end |
| Progress.AFileIsDeduplicated | background_compress.c:83-171 | likewise a file that is to be hashed becomes its twin, if there is one, and is marked |
| Progress.WhoWaitsGetsTheFile | direct_compress.c:283-298 | who opens a file that is being compressed sleeps, the worker gives up whatever has come of it, and he gets the file as it was; unless a hash of the file has failed before |
| Progress.PurgeFreesIff | direct_compress.c:94-179 | a purge frees an unused file if and only if there is nothing left to do for it; else it queues it, for compression first |
| Progress.ChangesClearTheMark | fusecompress.c:502-565 | whoever changes the bytes of an existing file clears the mark that it has been hashed; a rename brings the other file's mark |
| Progress.CompressionClearsTheMark | background_compress.c:132-160 | so does the worker with a file that it was to compress, whatever came of it |
| Progress.OpenFilesAreKnown | compress.c:440-463 | after any run in which no open file loses its name, the entry of every open file says `compressed` exactly if the file is stored so |
| Rings.ListAddTail | list.h:39-73 | the ring is the old one with the link at its end |
| Rings.ListDel | list.h:82-98 | the ring is the old one without the link, in the same order, and the link points nowhere |
| Rings.Index.AddTail | dedup.c:49-50 | adding to one ring of an array leaves all others well-formed and disjoint |
| Rings.Index.Del | dedup.c:502-503 | so does deleting |
| ListRace.ListDelsRaceIff | list.h:82-98 | two deletions at the same time leave the ring of the other nodes for all orders of their steps if and only if the two nodes are not neighbours |
| ListRace.NeighboursBreak | list.h:82-98 | an order of the steps, for every ring and every two neighbours, that leaves a node pointing to one that is deleted |
| ListRace.SerialIsFine | list.h:82-98 | one deletion after the other leaves the ring, neighbours or not |
| DedupTable.ComputeHash | utils.h:17-30 | the loop computes the 32-bit polynomial in 31 over signed characters |
| DedupTable.HashIsPolynomial | utils.h:17-30 | it is the sum of the characters, each times 31 to the power of the number of those behind it, modulo 2^32 |
| DedupTable.Table.Add | dedup.c:42-52 | the entry is at the end of both its rings, nothing else moves, and the counter counts it |
| DedupTable.Table.FindName | dedup.c:499-503 | a search by name finds an entry exactly if a scan of all would |
| DedupTable.Table.FindMd5 | dedup.c:209-218 | a search by MD5 sum likewise |
| DedupTable.Table.HasFilehash | dedup.c:223-232 | a search by name hash likewise |
| DedupTable.Table.FindOrEnter | dedup.c:98-204 | the table's part of linking: the entry with the MD5 sum if there is one and nothing else changes, or a new one for the file |
| DedupTable.Table.Discard | dedup.c:484-510 | the table without the name, if no other call runs at the same time; a cleared flag means that it is not there, which justifies the early return |
| DedupTable.Table.Rename | dedup.c:683-723 | the target's entry goes; the source's, with its MD5 sum, is found under the target's name and nothing under its own; all others stay as they are; and the flag that the target gets is that of the source and tells the truth |
| DedupTable.Table.InExactlyOnePlace | dedup.c:42-52 | an entry hangs in each index, in exactly one place, in the bucket that its own hash selects |
| DedupTable.Table.CountedByName | dedup.c:42-52 | the counter is the number of names in the table |
| DedupDb.EntryReadsBack | dedup.c:629-645 | a written entry is read back, and what follows it is untouched |
| DedupDb.HeaderLayout | dedup.c:619-627 | the file begins with the bytes of "DEDUP" and 2 and 0 |
| DedupDb.EntryLayout | dedup.c:629-645 | an entry is four bytes of length, the lowest first, the name, and the sum |
| DedupDb.EntryIsRead | dedup.c:571-606 | and any bytes are read so; they are broken exactly if they are too few |
| DedupDb.TruncationKeepsWholeEntries | dedup.c:571-617 | a truncation behind the header loads exactly the entries wholly within it, and is found broken exactly if it ends inside an entry behind the length |
| DedupDb.SaveThenLoad | dedup.c:530-677 | saving and loading keeps each name bucket, in order, but for excluded names |
| DedupDb.Save | dedup.c:648-677 | the file is the header and the entries, bucket by bucket in ring order |
| DedupDb.Load | dedup.c:530-617 | the table's rings hold the entries of the file that are not excluded, in its order, each under what stands in front of the first zero byte of its name |
| DedupDb.Remount | dedup.c:530-677 | a saved and loaded table has the buckets it had, in order, but for excluded names |
| DedupDb.FirstOfBuckets | dedup.c:571-606 | the first entries of a saved file, sorted into buckets again, are the first few of every bucket |
| DedupDb.RemountCut | dedup.c:530-677 | after the saved file has lost its end, every bucket has the first entries it had, those that lie wholly within the rest, in order and but for excluded names |
| DedupDb.IsExcluded | file.c:273-283 | a name is excluded exactly if one of the user's prefixes starts it |
| Paths.AttrNameIsInjective | dedup.c:57-70 | no two paths share an attribute file |
| Paths.AttrNameIsHidden | dedup.c:57-70 | an attribute file is never a name that users see |
| Paths.AttrBase | dedup.c:57-70 | an attribute file is in the directory of its file, and its name there is the prefix and the name |
| Paths.LinkTempIsHidden | dedup.c:123-128 | the temporary name of a link is hidden and no attribute file |
| Paths.LinkTempBase | dedup.c:123-128 | the link is made in the directory of the file |
| Paths.TempNameIsHidden | file.c:157-190 | the name of a temporary file is hidden, and neither an attribute file nor the temporary name of a link |
| Backing.TempNameIsScratch | file.c:157-190 | so no user's file depends on it |
| DedupStore.Store.GetAttr | dedup.c:729-754 | users see the attribute file's attributes if there is one, else the inode's |
| DedupStore.Store.Chown | dedup.c:761-811 | only the owner of the named file changes, even when others share its inode, if nothing comes between the look and the act |
| AttrChanges.ActedIsRightIff | dedup.c:761-933 | whatever has been seen before, only the named file changes, and as it should, if and only if the choice is still right |
| AttrChanges.FreshIsRight | dedup.c:761-933 | it is, if it was made on what is there now |
| AttrChanges.HasAttrFileIff | dedup.c:761-933 | if a change is made at once, there is an attribute file afterwards if and only if there was one or the inode is shared, and the inode does not show what is wanted; an owner or group to be left as it is counts as not shown |
| AttrChanges.ActedIsSoundIff | dedup.c:79-92 | an attribute file without a file is left behind if and only if one was to be made and the file is gone |
| DedupStore.Store.LookFirst | fusecompress.c:462-500 | the first half of a change: nothing changes but what the thread has in mind |
| DedupStore.Store.ActNow | fusecompress.c:462-500 | the second half, after anything: no bytes and no links change, and the rest is as it should be under the same condition |
| DedupTraps.AChangeReachesAnotherFile | fusecompress.c:462-480 | a run: a change of mode has looked at a file with one link, the worker links that to another, and the other's mode is changed |
| DedupStore.Store.Chmod | dedup.c:818-868 | only the mode of the named file changes, likewise |
| DedupStore.Store.Utime | dedup.c:875-933 | only the modification time of the named file changes, likewise |
| DedupStore.Store.SysUnlink | dedup.c:938-944 | the file and its attribute file go, all others stay |
| DedupStore.Store.SysRename | dedup.c:951-1001 | the name moves with its attribute file, also between two links of one inode |
| Backing.RenameMovesContents | dedup.c:951-1001 | the target has the source's bytes, and no other file changes |
| Backing.RenameKeepsAttributesIff | dedup.c:980-1000 | the attributes move too if and only if the source has an attribute file or the target keeps none that differs |
| DedupTraps.ARenameKeepsTheWrongOwner | dedup.c:990-1000 | a run: a file is renamed onto a linked one whose owner was changed, and shows that owner |
| DedupStore.Store.HardlinkFile | dedup.c:98-204 | the file gets the bytes of the entry's file and keeps its attributes, in an attribute file exactly if the inode shows others; no other name's bytes or attributes change, every entry stays as true as it was, and every writer is alone with its inode if and only if the target is not open for writing; an entry whose file has been renamed away is no target |
| DedupStore.Store.DoDedup | dedup.c:308-359 | a pass over a file links it to an equal one or enters it, and the recorded compressor is that of the new stored form |
| DedupStore.Store.DoUndedup | dedup.c:364-478 | the file keeps its bytes, owner, mode and time to the second, is the only name of its inode, and is out of the table, if nothing comes between the halves |
| DedupStore.Store.BeginCopy | dedup.c:364-398 | the first half reads what the file shows and takes it out of the table |
| DedupStore.Store.EndCopy | dedup.c:399-471 | the second half, after anything: only this file changes; it has its bytes on an inode of its own, and shows what was read at first |
| DedupStore.Store.CopyKeepsIff | dedup.c:440-469 | copying leaves owner, mode and seconds as users see them if and only if they are those that were read at first |
| DedupTraps.ACopyPutsBackTheOldMode | fusecompress.c:654-668 | a run: a linked file is being copied, its mode is changed, and the copy has the old one |
| DedupStore.Store.CopyOf | dedup.c:416-438 | the copying loop copies the file |
| DedupStore.Store.OpenWrite | fusecompress.c:654-668 | a file that is opened for writing is alone on its inode |
| DedupStore.Store.Write | fusecompress.c:800-806 | a write changes the inode behind the descriptor; in a valid store that is only the file's own bytes, and its time unless it has an attribute file; and the file is out of the table |
| DedupTraps.AWriteLeavesTheTime | fusecompress.c:784-853 | a run: a file that had been linked is open for writing with an attribute file, and a write does not change the time that users see |
| DedupStore.Store.BeginCompress | compress.c:318-393 | the worker takes up a file that nobody has open for writing; from then on `Valid` asks every operation to keep the bytes that it has read |
| DedupStore.Store.EndCompress | compress.c:394-463 | whatever has happened meanwhile, only this file changes: it has its bytes, under a new inode, the attributes that were read at first unless it has an attribute file, and is out of the table |
| DedupStore.Store.AttributesSurviveIff | compress.c:421-463 | compression leaves owner, mode and seconds as users see them if and only if no change of them reached the inode meanwhile, or an attribute file has them |
| DedupStore.Store.CompressWhile | compress.c:318-463 | over any run between the two, in which users change whatever they like but owner, mode and times of that file, compression comes to its end, has no effect that users see, and the file is stored in its new form |
| DedupTraps.AChangeOfModeIsLost | fusecompress.c:462-480 | a run: a file is written, taken up, given another mode, and compressed; it has its old mode again |
| DedupStore.Store.Remove | fusecompress.c:325-363 | removing a file changes no other, also if they share its inode |
| DedupStore.Store.RenameFile | fusecompress.c:381-435 | a rename takes entry, flag and open descriptors along: what the source had in the table the target has, the source has nothing, others are as they were; and every entry stays true, if nothing comes between the halves |
| DedupStore.Store.DedupAfterRename | fusecompress.c:381-435 | a file is renamed, and an equal one deduplicated afterwards: it becomes a link to the new name |
| DedupStore.Store.BeginRename | fusecompress.c:404-411 | the first half moves the file and whoever has it open; the entries of the two names are loose from then on, and all others stay true |
| DedupStore.Store.EndRename | fusecompress.c:413-424 | the second half, after anything that others may do meanwhile: the new name has the entry and the flag of the old one, other entries are as they were, and the entries of both names are true again |
| DedupEntries.BetweenTheHalvesIff | fusecompress.c:408-424 | in between the table tells the truth about every file if and only if the new name had no entry, or one with the hash of the moved file |
| DedupEntries.ALinkBetweenTheHalvesIff | dedup.c:98-132 | a link that the worker makes in between keeps all contents if and only if it does not go to the new name, or the bytes agree |
| DedupTraps.ALinkBetweenTheHalvesLosesAFile | dedup.c:98-132 | a run: a file is renamed onto one that is in the table, the worker deduplicates another with the old contents, and these are lost |
| Backing.AfterALinkWritesStayIff | dedup.c:98-204 | after a file has been made a link to another, whatever an open descriptor writes stays in its own file if and only if that is not the target |
| DedupTraps.AnOpenTargetIsWrittenThrough | dedup.c:373-399 | a run: a singly linked file that is in the table is opened for writing, another file that nobody has open is linked to it, and a write through the one descriptor changes the other |
| DedupStore.Store.AllowedIff | fusecompress.c:325-853 | an operation is let through if and only if a plain file system would take it, nothing under way holds it up, and it does no harm: users see afterwards what was asked for, and nobody is left writing to another's file |
| DedupStore.Store.Step | fusecompress.c:325-853 | each operation, whole or half, is done if and only if it can be, in terms of what users see, what is under way and what would come of it; if done it does what it does to independent files; what has been begun can be ended at once; a rename moves the entry, other entries go only if their file is changed, copied or removed, and after a pass of the worker the file has the entry of its hash or is a link to the one that has |
| DedupStore.Store.Run | fusecompress.c:325-853 | over whole runs of linking, compressing, copying, writing, renaming, removing and changing attributes, with the halves of renames, copies, compressions and changes of attributes in any order: files are independent, every settled entry gives the hash of its file, no two entries share a hash, and writers write alone; all that users do is done, if a plain file system would take it and their file is not being compressed, copied or renamed, but for renames onto existing files |

## Left out

- PageCounter.OneAtATimeIsBounded: says nothing of which file a page belongs to; that is `ReadEngine.BudgetKept`.
- ListRace.ListDelsRaceIff: of one ring and two deletions; an insertion or a search beside a deletion is not modelled.
- ReadEngine.Serve: contents do not change in a run; what a new file under an old entry is told is stated beside it. A whole-page request with caching on lies inside the file, as the kernel sees to it; and a run ends at its first error. After an error the code goes on with an unknown size, with which a new cache would have one slot only; intact streams give no error while there is space.
- ReadEngine.File.SkipChunk: the page that the two failing exits count and lose is kept apart in the accounts, because the code never gives it back.
- WriteEngine.Run: goes on up to the first operation to which the program comes with a wrong idea of the file; what the wrong idea does is stated for that operation only.
- WriteEngine.File.Truncate: the page cache is not flushed and shared inodes are not copied, so truncation by path is modelled for files without both.
- Protocol.CountsAreConserved: a thread asleep on a file is not counted; what follows is stated by `Protocol.FreedUnderASleeperOnlyIf`.
- Protocol.WorkersFileIsStable: a hash reads the file while other threads take steps; it is modelled by the contents at its start, which this lemma shows to stay.
- Protocol.WorkerIsInvisible: concerns contents; attributes and hard links are the subject of `DedupStore`.
- DedupTable.Table.Add: memory is not modelled, so entries are not freed and allocation does not fail.
- DedupDb.Load: no name in the file is empty or begins with a zero byte, as in every file that was saved; the hash loop would read past the end of such a name.
- DedupStore.Store.Run: the steps with which the code goes wrong are not let through, by the guards in `Store.Allowed`, and the run for each is in `DedupTraps`; `Store.AllowedIff` says that these are the only ones; whether a rename onto an existing file is done depends on attribute files and is said by `Store.Step`; decompression by a reader is no operation of it; it also forgets times: what each operation does to the modification time is stated by the operation itself, and access times are not kept exactly by the code.
- DedupStore.Store.SysRename: not onto the same path, and only for regular files.
- Fsck.CutFilesAreReported: assumes of the codec what is proved of LZO and of plain copies; corrupt streams other than cut ones decode to whatever the codec makes of them.
- Fsck.CheckFile: header sizes from 2^63 on are excluded; the C type is signed and the loop would ask for a negative number of bytes.
- A failed `rename`, `close`, `chown` or allocation and a full disk in the middle of an operation: the code does not restore its state there.
- Compressor type 5: the lookup's bound admits it although the table ends at 4; types are restricted to 0 to 4.
- Reads and writes of plain files happen after the lock is released; they are modelled as one step with the request.
- Forced purge at unmount and the termination of the unmount loop.
- User-made hard links (`fusecompress_link`), symbolic links, directories, `statfs` and extended attributes.
- Mounting, option parsing, signals, logging, statistics and switching of user identity.
- zlib, bzip2, liblzma, LZO and MD5 themselves, and big-endian machines.
- `list_splice`, `tools/offline.c`, the Python tools and the build scripts: they would only add easy members.
