/**
 The protocol between the user's operations and the background worker, one atomic step per critical section.

 A file entry is shared by open descriptors, queue entries, the worker and renames in progress, and counts
 them in `accesses`. The worker compresses or hashes a file without holding its lock; a user operation that
 needs the file stable asks for cancellation and sleeps until the worker says it is done.
 */
module Protocol {
  import opened Bytes

  type FileId = nat
  type ThreadId = nat
  type DescriptorId = nat
  datatype Name = Name(path: string)

  /** The two forms in which a file can be stored. */
  datatype Repr = Plain(bytes: Data) | Packed(bytes: Data)

  /** An entry of the file database. `compressed` says that a compressor is assigned. */
  datatype Entry = Entry(
    name: Name, deleted: bool, accesses: int, compressed: bool, deduped: bool,
    compressing: bool, deduping: bool, cancel: bool, descriptors: set<DescriptorId>)
  {
    predicate Busy() {
      compressing || deduping
    }
  }

  datatype Job = Job(file: FileId, dedup: bool)

  /** The worker, with the contents it saw when it let go of the lock. */
  datatype Worker = Idle | Fetched(job: Job) | Compressing(file: FileId, source: Data) | Hashing(file: FileId, seen: Option<Data>)

  /** What a user thread wants of a file that must be stable. */
  datatype Request =
    | Open(d: DescriptorId)
    | Unlink
    | Create
    | Truncate(bytes: Data)
    | RenameFrom(to: Name)
    | RenameTo(from: FileId)

  /** Between two steps a thread rests, sleeps on a file (perhaps already woken), or is inside a rename. */
  datatype Thread =
    | Resting
    | Sleeping(file: FileId, request: Request, woken: bool)
    | Pinned(from: FileId, to: Name)
    | BothPinned(from: FileId, target: FileId)

  datatype State = State(
    files: map<FileId, Entry>, next: FileId, queue: seq<Job>, worker: Worker,
    threads: map<ThreadId, Thread>, disk: map<Name, Repr>,
    failed: set<FileId>)  // history: files whose hash has failed

  datatype Event =
    | Ask(t: ThreadId, name: Name, request: Request, found: Option<FileId>)
    | Look(name: Name, found: Option<FileId>, stale: bool)
    | Wake(t: ThreadId)
    | Write(d: DescriptorId, file: FileId, stored: Repr)
    | ReadFallback(d: DescriptorId, file: FileId)
    | Release(d: DescriptorId, file: FileId)
    | RenameEnd(t: ThreadId, ok: bool)
    | Purge(file: FileId, compressible: bool, dedupable: bool)
    | Fetch
    | Begin(admitted: bool, big: bool, chosen: bool)
    | EndCompress(ok: bool)
    | EndHash(ok: bool, twin: Option<Repr>)

  // ----- Small reads of a state -----

  function ThreadOf(s: State, t: ThreadId): Thread {
    if t in s.threads then s.threads[t] else Resting
  }

  /** Whether a thread keeps `f` from being freed although it holds no lock on it. */
  predicate Pins(th: Thread, f: FileId) {
    match th
    case Resting => false
    case Sleeping(_, RenameTo(from), _) => from == f
    case Sleeping(_, _, _) => false
    case Pinned(from, _) => from == f
    case BothPinned(from, target) => from == f || target == f
  }

  function Pinners(threads: map<ThreadId, Thread>, f: FileId): set<ThreadId> {
    set t | t in threads && Pins(threads[t], f)
  }

  function PinCount(threads: map<ThreadId, Thread>, f: FileId): nat {
    |Pinners(threads, f)|
  }

  function QueueCount(queue: seq<Job>, f: FileId): nat {
    if queue == [] then 0 else (if queue[0].file == f then 1 else 0) + QueueCount(queue[1..], f)
  }

  function InFlight(w: Worker, f: FileId): nat {
    match w
    case Idle => 0
    case Fetched(job) => if job.file == f then 1 else 0
    case Compressing(g, _) => if g == f then 1 else 0
    case Hashing(g, _) => if g == f then 1 else 0
  }

  /** The worker is at work on `f` without its lock. */
  predicate WorksOn(w: Worker, f: FileId) {
    (w.Compressing? || w.Hashing?) && w.file == f
  }

  function Visible(disk: map<Name, Repr>, name: Name): Option<Data> {
    if name in disk then Some(disk[name].bytes) else None
  }

  // ----- Steps -----

  function SetThread(s: State, t: ThreadId, th: Thread): State {
    s.(threads := s.threads[t := th])
  }

  function SetFile(s: State, f: FileId, x: Entry): State {
    s.(files := s.files[f := x])
  }

  function Store(s: State, f: FileId, disk: map<Name, Repr>, y: Entry): State {
    SetFile(s.(disk := disk), f, y)
  }

  function WithoutDescriptor(x: Entry, d: DescriptorId): Entry {
    x.(descriptors := x.descriptors - {d}, accesses := x.accesses - 1)
  }

  function WithDescriptor(x: Entry, d: DescriptorId): Entry {
    x.(descriptors := x.descriptors + {d}, accesses := x.accesses + 1)
  }

  /** A thread inside a rename takes hold of a file. */
  function Pin(s: State, t: ThreadId, th: Thread, f: FileId): State
    requires f in s.files
  {
    SetFile(SetThread(s, t, th), f, s.files[f].(accesses := s.files[f].accesses + 1))
  }

  /** Carry out a request on a file that is not busy; its lock is held throughout. */
  function Perform(s: State, t: ThreadId, f: FileId, r: Request): State
    requires f in s.files && !s.files[f].Busy()
  {
    var x := s.files[f];
    var rested := SetThread(s, t, Resting);
    match r
    case Open(d) =>
      if x.name !in s.disk then rested
      else SetFile(rested, f, WithDescriptor(x, d).(compressed := s.disk[x.name].Packed?))
    case Unlink =>
      Store(rested, f, s.disk - {x.name}, x.(deduped := false, deleted := x.deleted || x.name in s.disk))
    case Create =>
      Store(rested, f, if x.name in s.disk then s.disk else s.disk[x.name := Plain([])], x)
    case Truncate(bytes) =>
      if x.name !in s.disk then Store(rested, f, s.disk, x.(deduped := false))
      else Store(rested, f, s.disk[x.name := Plain(bytes)], x.(deduped := false, compressed := false))
    case RenameFrom(to) => Pin(s, t, Pinned(f, to), f)
    case RenameTo(from) => Pin(s, t, BothPinned(from, f), f)
  }

  /** The end of looking a file up: wait while it is busy, else go ahead. */
  function PerformOrSleep(s: State, t: ThreadId, f: FileId, r: Request): State
    requires f in s.files
  {
    var x := s.files[f];
    if x.Busy() then SetThread(SetFile(s, f, x.(cancel := true)), t, Sleeping(f, r, false))
    else Perform(s, t, f, r)
  }

  function NewEntry(name: Name): Entry {
    Entry(name, false, 0, false, true, false, false, false, {})
  }

  /** Wake everyone who sleeps on `f`. */
  function Broadcast(threads: map<ThreadId, Thread>, f: FileId): map<ThreadId, Thread> {
    map t | t in threads ::
      if threads[t].Sleeping? && threads[t].file == f then threads[t].(woken := true) else threads[t]
  }

  function MoveJobs(queue: seq<Job>, from: FileId, to: FileId): (r: seq<Job>)
    ensures |r| == |queue|
  {
    if queue == [] then []
    else [if queue[0].file == from then queue[0].(file := to) else queue[0]] + MoveJobs(queue[1..], from, to)
  }

  /** The renamed file's entry takes over everything from the old one. */
  function MoveEntry(s: State, from: FileId, to: FileId): State
    requires from in s.files && to in s.files
  {
    var x, y := s.files[from], s.files[to];
    var moved := |x.descriptors| + QueueCount(s.queue, from);
    var y' := y.(compressed := x.compressed, deduped := x.deduped,
                 compressing := x.compressing, deduping := x.deduping, cancel := x.cancel,
                 descriptors := y.descriptors + x.descriptors, accesses := y.accesses + moved);
    var x' := x.(descriptors := {}, accesses := x.accesses - moved, deleted := true);
    s.(files := s.files[to := y'][from := x'], queue := MoveJobs(s.queue, from, to))
  }

  /** A thread inside a rename lets go of both files. */
  function Unpin(s: State, t: ThreadId): State
    requires ThreadOf(s, t).BothPinned?
    requires ThreadOf(s, t).from in s.files && ThreadOf(s, t).target in s.files
  {
    var BothPinned(from, to) := ThreadOf(s, t);
    var a := SetFile(s, from, s.files[from].(accesses := s.files[from].accesses - 1));
    SetThread(SetFile(a, to, a.files[to].(accesses := a.files[to].accesses - 1)), t, Resting)
  }

  /** The last critical section of a rename, which holds both locks. */
  function EndRename(s: State, t: ThreadId, ok: bool): State
    requires ThreadOf(s, t).BothPinned?
    requires ThreadOf(s, t).from in s.files && ThreadOf(s, t).target in s.files
  {
    var BothPinned(from, to) := ThreadOf(s, t);
    var unpinned := Unpin(s, t);
    if ok && s.files[from].name in s.disk then
      MoveEntry(unpinned.(disk := MoveName(s.disk, s.files[from].name, s.files[to].name)), from, to)
    else unpinned
  }

  function MoveName(disk: map<Name, Repr>, from: Name, to: Name): map<Name, Repr>
    requires from in disk
  {
    disk[to := disk[from]] - {from}
  }

  /** Purging an unused file queues it for the worker if there is something to do, else frees it. */
  function PurgeFile(s: State, f: FileId, compressible: bool, dedupable: bool): State
    requires f in s.files
  {
    var x := s.files[f];
    var counted := x.(accesses := x.accesses + 1);
    if !x.deleted && !x.compressed && compressible then
      SetFile(s, f, counted).(queue := s.queue + [Job(f, false)])
    else if !x.deleted && !x.deduped && dedupable then
      SetFile(s, f, counted).(queue := s.queue + [Job(f, true)])
    else s.(files := s.files - {f})
  }

  /** The worker is done with `f`: give up its access. */
  function Finish(s: State, f: FileId, x: Entry): State {
    SetFile(s, f, x.(accesses := x.accesses - 1)).(worker := Idle)
  }

  /** What the worker decides about the file it has fetched: to leave it, with these flags, or to go to work. */
  function Verdict(s: State, admitted: bool, big: bool, chosen: bool): Option<Entry>
    requires s.worker.Fetched? && s.worker.job.file in s.files
  {
    var x := s.files[s.worker.job.file];
    var discarded := x.(deduped := false);
    if s.worker.job.dedup then
      if x.accesses == 1 && !x.deleted then None else Some(x)
    else if x.accesses != 1 || x.deleted || x.compressed || !admitted then Some(discarded)
    else if x.name !in s.disk then Some(discarded.(deleted := true))
    else if !big then Some(discarded)
    else if s.disk[x.name].Packed? then Some(discarded.(compressed := true))
    else if !chosen then Some(discarded)
    else None
  }

  /** The worker takes the lock of the file it has fetched and decides. */
  function BeginJob(s: State, admitted: bool, big: bool, chosen: bool): State
    requires s.worker.Fetched? && s.worker.job.file in s.files
  {
    var f, x := s.worker.job.file, s.files[s.worker.job.file];
    match Verdict(s, admitted, big, chosen)
    case Some(y) => Finish(s, f, y)
    case None =>
      if s.worker.job.dedup then
        SetFile(s, f, x.(deduping := true)).(worker := Hashing(f, Visible(s.disk, x.name)))
      else SetFile(s, f, x.(compressing := true)).(worker := Compressing(f, s.disk[x.name].bytes))
  }

  function FinishCompress(s: State, ok: bool): State
    requires s.worker.Compressing? && s.worker.file in s.files
  {
    var f, source, x := s.worker.file, s.worker.source, s.files[s.worker.file];
    var y := x.(compressing := false, deduped := false);
    if x.cancel then Finish(s.(threads := Broadcast(s.threads, f)), f, y.(cancel := false))
    else if !ok then Finish(s, f, y)
    else Finish(s.(disk := s.disk[x.name := Packed(source)]), f, y.(compressed := true))
  }

  /** A file whose contents were seen is replaced by a link to its twin, if there is one. A failed hash
      leaves at once, without looking at the status. */
  function FinishHash(s: State, ok: bool, twin: Option<Repr>): State
    requires s.worker.Hashing? && s.worker.file in s.files
  {
    var f, x := s.worker.file, s.files[s.worker.file];
    if !ok then Finish(s.(failed := s.failed + {f}), f, x.(deduped := true))
    else if x.cancel then
      Finish(s.(threads := Broadcast(s.threads, f)), f, x.(cancel := false, deduping := false))
    else
      var y := x.(deduped := true, deduping := false);
      match twin
      case None => Finish(s, f, y)
      case Some(r) => Finish(s.(disk := s.disk[x.name := r]), f, y.(compressed := r.Packed?))
  }

  /** The search of the file database. */
  predicate Finds(s: State, name: Name, found: Option<FileId>) {
    match found
    case Some(f) => f in s.files && s.files[f].name == name
    case None => forall f :: f in s.files ==> s.files[f].name != name
  }

  function AddEntry(s: State, name: Name): State {
    s.(files := s.files[s.next := NewEntry(name)], next := s.next + 1)
  }

  /** A lookup that does not need the file stable; a stale entry learns its compressor from the disk. */
  function LookUp(s: State, f: FileId, stale: bool): State
    requires f in s.files
  {
    var x := s.files[f].(deleted := false);
    SetFile(s, f, if stale && x.name in s.disk then x.(compressed := s.disk[x.name].Packed?) else x)
  }

  predicate UnusedDescriptor(s: State, d: DescriptorId) {
    forall f :: f in s.files ==> d !in s.files[f].descriptors
  }

  predicate RequestFits(s: State, t: ThreadId, name: Name, r: Request) {
    match r
    case Open(d) => ThreadOf(s, t) == Resting && UnusedDescriptor(s, d)
    case RenameFrom(to) => ThreadOf(s, t) == Resting && to != name
    case RenameTo(from) => ThreadOf(s, t) == Pinned(from, name)
    case _ => ThreadOf(s, t) == Resting
  }

  /** When a step can be taken. A thread may be woken without cause. */
  predicate Enabled(s: State, e: Event) {
    match e
    case Ask(t, name, r, found) =>
      && RequestFits(s, t, name, r)
      && Finds(s, name, found)
    case Look(name, found, _) => Finds(s, name, found)
    case Wake(t) =>
      && ThreadOf(s, t).Sleeping? && ThreadOf(s, t).file in s.files
      && (ThreadOf(s, t).request.Open? ==> UnusedDescriptor(s, ThreadOf(s, t).request.d))
    case Write(d, f, _) => f in s.files && d in s.files[f].descriptors
    case ReadFallback(d, f) => f in s.files && d in s.files[f].descriptors
    case Release(d, f) => f in s.files && d in s.files[f].descriptors
    case RenameEnd(t, _) =>
      ThreadOf(s, t).BothPinned? && ThreadOf(s, t).from in s.files && ThreadOf(s, t).target in s.files
    case Purge(f, _, _) => f in s.files && s.files[f].accesses == 0
    case Fetch => s.worker == Idle && s.queue != []
    case Begin(_, _, _) => s.worker.Fetched? && s.worker.job.file in s.files
    case EndCompress(_) => s.worker.Compressing? && s.worker.file in s.files
    case EndHash(ok, twin) =>
      && s.worker.Hashing? && s.worker.file in s.files
      && (ok ==> s.worker.seen.Some?)
      && (twin.Some? ==> s.worker.seen == Some(twin.value.bytes))
  }

  function Apply(s: State, e: Event): State
    requires Enabled(s, e)
  {
    match e
    case Ask(t, name, r, found) =>
      (match found
       case Some(f) => PerformOrSleep(SetFile(s, f, s.files[f].(deleted := false)), t, f, r)
       case None => Perform(AddEntry(s, name), t, s.next, r))
    case Look(name, found, stale) =>
      (match found
       case Some(f) => LookUp(s, f, stale)
       case None => LookUp(AddEntry(s, name), s.next, stale))
    case Wake(t) => PerformOrSleep(s, t, ThreadOf(s, t).file, ThreadOf(s, t).request)
    case Write(_, f, stored) =>
      var x := s.files[f];
      SetFile(if x.name in s.disk then s.(disk := s.disk[x.name := stored]) else s, f,
              x.(deduped := false, compressed := stored.Packed?))
    case ReadFallback(_, f) =>
      var x := s.files[f];
      SetFile(if x.name in s.disk then s.(disk := s.disk[x.name := Plain(s.disk[x.name].bytes)]) else s, f,
              x.(compressed := false))
    case Release(d, f) =>
      var x := s.files[f];
      SetFile(s, f, WithoutDescriptor(x, d))
    case RenameEnd(t, ok) => EndRename(s, t, ok)
    case Purge(f, compressible, dedupable) => PurgeFile(s, f, compressible, dedupable)
    case Fetch => s.(worker := Fetched(s.queue[0]), queue := s.queue[1..])
    case Begin(admitted, big, chosen) => BeginJob(s, admitted, big, chosen)
    case EndCompress(ok) => FinishCompress(s, ok)
    case EndHash(ok, twin) => FinishHash(s, ok, twin)
  }

  /** A mounted filesystem on which nothing has happened yet. */
  predicate Initial(s: State) {
    s.files == map[] && s.queue == [] && s.worker == Idle && s.threads == map[] && s.failed == {}
  }

  // ----- The invariant -----

  /** `accesses` counts descriptors, queue entries, the worker and renames in progress, and nothing else. */
  ghost predicate Counted(s: State, f: FileId)
    requires f in s.files
  {
    s.files[f].accesses
    == |s.files[f].descriptors| + QueueCount(s.queue, f) + InFlight(s.worker, f) + PinCount(s.threads, f)
  }

  /** A busy file is in nobody's hands but the worker's; the only way to be busy without the worker is a
      hash that failed. Cancellation is asked for only of busy files. */
  ghost predicate Isolated(s: State, f: FileId)
    requires f in s.files
  {
    var x := s.files[f];
    && (x.Busy() ==> x.descriptors == {} && PinCount(s.threads, f) == 0)
    && (WorksOn(s.worker, f) ==> x.Busy() && x.accesses == 1)
    && (x.compressing ==> s.worker.Compressing? && s.worker.file == f)
    && (x.deduping ==> (s.worker.Hashing? && s.worker.file == f) || f in s.failed)
    && (s.worker.Compressing? && s.worker.file == f ==> x.compressing)
    && (s.worker.Hashing? && s.worker.file == f ==> x.deduping)
    && (x.cancel ==> x.Busy())
  }

  /** Names and descriptors are not shared. */
  ghost predicate Apart(s: State) {
    && (forall f, g {:trigger s.files[f].name, s.files[g].name} ::
          f in s.files && g in s.files && s.files[f].name == s.files[g].name ==> f == g)
    && (forall f, g, d {:trigger d in s.files[f].descriptors, d in s.files[g].descriptors} ::
          f in s.files && g in s.files && d in s.files[f].descriptors && d in s.files[g].descriptors ==>
          f == g)
  }

  /** The worker's file is in the database, and what the worker saw when it let go of the lock is still
      what is there. */
  ghost predicate Stable(s: State) {
    match s.worker
    case Idle => true
    case Fetched(job) => job.file in s.files
    case Compressing(f, source) => f in s.files && Visible(s.disk, s.files[f].name) == Some(source)
    case Hashing(f, seen) => f in s.files && Visible(s.disk, s.files[f].name) == seen
  }

  /** Files that a thread holds on to are in the database; the two files of a rename differ. */
  ghost predicate Grounded(s: State, th: Thread) {
    && (forall f :: Pins(th, f) ==> f in s.files)
    && match th
       case BothPinned(from, target) => from != target
       case Pinned(from, to) => from in s.files && s.files[from].name != to
       case Sleeping(f, RenameTo(from), _) => f != from
       case Sleeping(f, RenameFrom(to), _) => f in s.files ==> s.files[f].name != to
       case _ => true
  }

  /** No wakeup is lost: a thread asleep and not woken has asked for cancellation of a file that the worker
      holds, so the worker will see the request and wake it. */
  ghost predicate WillBeWoken(s: State, th: Thread) {
    th.Sleeping? && !th.woken && th.file !in s.failed ==>
      th.file in s.files && s.files[th.file].cancel && WorksOn(s.worker, th.file)
  }

  ghost predicate Entries(s: State) {
    forall f :: f in s.files ==> f < s.next && Counted(s, f) && Isolated(s, f)
  }

  ghost predicate Queued(s: State) {
    forall j :: j in s.queue ==> j.file in s.files
  }

  ghost predicate Threads(s: State) {
    forall t :: t in s.threads ==>
      && Grounded(s, s.threads[t]) && WillBeWoken(s, s.threads[t])
      && (s.threads[t].Sleeping? ==> s.threads[t].file < s.next)
  }

  ghost predicate Inv(s: State) {
    Entries(s) && Apart(s) && Stable(s) && Queued(s) && Threads(s) && (forall f :: f in s.failed ==> f < s.next)
  }

  // ----- Counting lemmas -----

  lemma PinnersUpdate(threads: map<ThreadId, Thread>, t: ThreadId, th: Thread, f: FileId)
    ensures Pinners(threads[t := th], f) - {t} == Pinners(threads, f) - {t}
    ensures t in Pinners(threads, f) <==> t in threads && Pins(threads[t], f)
    ensures t in Pinners(threads[t := th], f) <==> Pins(th, f)
  {
    var before, after := Pinners(threads, f), Pinners(threads[t := th], f);
    forall u | u != t ensures u in after <==> u in before {
    }
  }

  lemma PinUpdate(threads: map<ThreadId, Thread>, t: ThreadId, th: Thread, f: FileId)
    ensures PinCount(threads[t := th], f) + (if t in threads && Pins(threads[t], f) then 1 else 0)
         == PinCount(threads, f) + (if Pins(th, f) then 1 else 0)
  {
    hide Pinners;
    PinnersUpdate(threads, t, th, f);
    SizeWithout(Pinners(threads, f), t);
    SizeWithout(Pinners(threads[t := th], f), t);
  }

  lemma SizeWithout(a: set<ThreadId>, t: ThreadId)
    ensures |a| == |a - {t}| + (if t in a then 1 else 0)
  {
    if t in a {
      assert a == (a - {t}) + {t};
    } else {
      assert a - {t} == a;
    }
  }

  lemma BroadcastPins(threads: map<ThreadId, Thread>, f: FileId, g: FileId)
    ensures PinCount(Broadcast(threads, f), g) == PinCount(threads, g)
  {
    var after := Broadcast(threads, f);
    forall u ensures u in Pinners(after, g) <==> u in Pinners(threads, g) {
      if u in threads {
        assert Pins(after[u], g) == Pins(threads[u], g);
      }
    }
    assert Pinners(after, g) == Pinners(threads, g);
  }

  lemma NoPins(threads: map<ThreadId, Thread>, f: FileId)
    ensures PinCount(threads, f) == 0 <==> forall t :: t in threads ==> !Pins(threads[t], f)
  {
    var pins := Pinners(threads, f);
    assert forall t :: t in threads && Pins(threads[t], f) ==> t in pins;
    assert pins == {} <==> |pins| == 0;
  }

  lemma {:induction false} QueueAppend(queue: seq<Job>, j: Job, f: FileId)
    ensures QueueCount(queue + [j], f) == QueueCount(queue, f) + (if j.file == f then 1 else 0)
  {
    if queue == [] {
      assert queue + [j] == [j];
    } else {
      assert (queue + [j])[1..] == queue[1..] + [j];
      QueueAppend(queue[1..], j, f);
    }
  }

  lemma {:induction false} NotQueued(queue: seq<Job>, f: FileId)
    ensures QueueCount(queue, f) == 0 <==> forall j :: j in queue ==> j.file != f
  {
    if queue != [] {
      NotQueued(queue[1..], f);
      assert queue == [queue[0]] + queue[1..];
    }
  }

  lemma {:induction false} MovedJobs(queue: seq<Job>, from: FileId, to: FileId, f: FileId)
    requires from != to
    ensures QueueCount(MoveJobs(queue, from, to), f)
         == if f == from then 0
            else if f == to then QueueCount(queue, from) + QueueCount(queue, to)
            else QueueCount(queue, f)
  {
    if queue != [] {
      MovedJobs(queue[1..], from, to, f);
      assert MoveJobs(queue, from, to)[1..] == MoveJobs(queue[1..], from, to);
    }
  }

  lemma {:induction false} MovedJobsStay(queue: seq<Job>, from: FileId, to: FileId, j: Job)
    requires j in MoveJobs(queue, from, to)
    ensures j.file == to || exists k :: k in queue && k.file == j.file
  {
    var moved := MoveJobs(queue[1..], from, to);
    if j in moved {
      MovedJobsStay(queue[1..], from, to, j);
    } else {
      assert queue[0] in queue;
    }
  }

  // ----- Small changes that keep the invariant -----

  /** What the invariant says of one file, of one thread, and of the worker. */
  lemma EntryOf(s: State, f: FileId)
    requires Inv(s) && f in s.files
    ensures f < s.next && Counted(s, f) && Isolated(s, f)
  {
  }

  lemma NamesApart(s: State, f: FileId, g: FileId)
    requires Inv(s) && f in s.files && g in s.files && s.files[f].name == s.files[g].name
    ensures f == g
  {
  }

  lemma ThreadIs(s: State, t: ThreadId)
    requires Inv(s)
    ensures Grounded(s, ThreadOf(s, t)) && WillBeWoken(s, ThreadOf(s, t))
    ensures ThreadOf(s, t).Sleeping? ==> ThreadOf(s, t).file < s.next
  {
  }

  /** Nothing but the entry of `f` differs, and it keeps its name and any request for cancellation. */
  ghost predicate OnlyEntry(s: State, s': State, f: FileId) {
    && f in s.files && f in s'.files
    && s' == SetFile(s, f, s'.files[f])
    && s'.files[f].name == s.files[f].name
    && (s.files[f].cancel ==> s'.files[f].cancel)
  }

  lemma OnlyEntryThreads(s: State, s': State, f: FileId)
    requires Threads(s) && OnlyEntry(s, s', f)
    ensures Threads(s')
  {
    assert forall g :: g in s.files ==> g in s'.files && s'.files[g].name == s.files[g].name;
    forall t | t in s.threads ensures Grounded(s', s.threads[t]) && WillBeWoken(s', s.threads[t]) {
      assert Grounded(s, s.threads[t]) && WillBeWoken(s, s.threads[t]);
    }
  }

  lemma OnlyEntryEntries(s: State, s': State, f: FileId)
    requires Entries(s) && OnlyEntry(s, s', f) && Counted(s', f) && Isolated(s', f)
    ensures Entries(s')
  {
    forall g | g in s'.files && g != f ensures Counted(s', g) && Isolated(s', g) {
      assert Counted(s, g) && Isolated(s, g) && s'.files[g] == s.files[g];
    }
  }

  /** An entry may change if it stays counted and isolated and takes no descriptor from another. */
  lemma EntryKept(s: State, s': State, f: FileId)
    requires Inv(s) && OnlyEntry(s, s', f) && Counted(s', f) && Isolated(s', f)
    requires forall g, d :: g in s.files && d in s.files[g].descriptors && d in s'.files[f].descriptors ==> g == f
    ensures Inv(s')
  {
    OnlyEntryThreads(s, s', f);
    OnlyEntryEntries(s, s', f);
  }

  /** The three flags that the protocol does not depend on. */
  predicate SameButFlags(x: Entry, y: Entry) {
    y == x.(deleted := y.deleted, compressed := y.compressed, deduped := y.deduped)
  }

  lemma FlagsKept(s: State, f: FileId, y: Entry)
    requires Inv(s) && f in s.files && SameButFlags(s.files[f], y)
    ensures Inv(SetFile(s, f, y))
  {
    EntryKept(s, SetFile(s, f, y), f);
  }

  /** Contents may change under any name but that of a file the worker is working on. */
  lemma DiskKept(s: State, disk: map<Name, Repr>, names: set<Name>)
    requires Inv(s)
    requires forall n :: n !in names ==> Visible(disk, n) == Visible(s.disk, n)
    requires forall f :: f in s.files && WorksOn(s.worker, f) ==> s.files[f].name !in names
    ensures Inv(s.(disk := disk))
  {
  }

  lemma AddEntryEntries(s: State, name: Name)
    requires Inv(s)
    ensures Entries(AddEntry(s, name))
  {
    var s', f := AddEntry(s, name), s.next;
    assert forall t :: t in s.threads ==> !Pins(s.threads[t], f) by {
      forall t | t in s.threads ensures !Pins(s.threads[t], f) {
        ThreadIs(s, t);
      }
    }
    NoPins(s.threads, f);
    NotQueued(s.queue, f);
    forall g | g in s'.files ensures g < s'.next && Counted(s', g) && Isolated(s', g) {
      if g != f {
        EntryOf(s, g);
      }
    }
  }

  lemma AddEntryThreads(s: State, name: Name)
    requires Threads(s) && s.next !in s.files
    ensures Threads(AddEntry(s, name))
  {
    var s' := AddEntry(s, name);
    forall t | t in s.threads ensures Grounded(s', s.threads[t]) && WillBeWoken(s', s.threads[t]) {
      assert Grounded(s, s.threads[t]) && WillBeWoken(s, s.threads[t]);
    }
  }

  lemma AddEntryRest(s: State, name: Name)
    requires Apart(s) && Stable(s) && Queued(s) && Finds(s, name, None) && s.next !in s.files
    ensures var s' := AddEntry(s, name); Apart(s') && Stable(s') && Queued(s')
  {
  }

  lemma AddEntryKept(s: State, name: Name)
    requires Inv(s) && Finds(s, name, None)
    ensures Inv(AddEntry(s, name))
  {
    hide Apart, Stable, Queued, Threads;
    AddEntryEntries(s, name);
    AddEntryThreads(s, name);
    AddEntryRest(s, name);
  }

  lemma ReleaseKept(s: State, f: FileId, d: DescriptorId)
    requires Inv(s) && f in s.files && d in s.files[f].descriptors
    ensures Inv(SetFile(s, f, WithoutDescriptor(s.files[f], d)))
  {
    var s' := SetFile(s, f, WithoutDescriptor(s.files[f], d));
    assert Counted(s', f) && Isolated(s', f) by {
      assert Counted(s, f) && Isolated(s, f);
    }
    EntryKept(s, s', f);
  }

  lemma OpenKept(s: State, f: FileId, d: DescriptorId, packed: bool)
    requires Inv(s) && f in s.files && !s.files[f].Busy() && UnusedDescriptor(s, d)
    ensures Inv(SetFile(s, f, WithDescriptor(s.files[f], d).(compressed := packed)))
  {
    var s' := SetFile(s, f, WithDescriptor(s.files[f], d).(compressed := packed));
    assert Counted(s', f) && Isolated(s', f) by {
      assert Counted(s, f) && Isolated(s, f);
    }
    EntryKept(s, s', f);
  }

  lemma FetchKept(s: State)
    requires Inv(s) && s.worker == Idle && s.queue != []
    ensures Inv(s.(worker := Fetched(s.queue[0]), queue := s.queue[1..]))
  {
    var s' := s.(worker := Fetched(s.queue[0]), queue := s.queue[1..]);
    assert Entries(s') by {
      forall g | g in s'.files ensures Counted(s', g) && Isolated(s', g) {
        assert Counted(s, g) && Isolated(s, g);
      }
    }
    assert Threads(s') by {
      forall u | u in s.threads ensures Grounded(s', s.threads[u]) && WillBeWoken(s', s.threads[u]) {
        assert Grounded(s, s.threads[u]) && WillBeWoken(s, s.threads[u]);
      }
    }
    assert s.queue[0] in s.queue;
  }

  /** A thread may change if it holds on to the same files, and to sleep it needs a reason to be woken. */
  lemma ThreadKept(s: State, t: ThreadId, th: Thread)
    requires Inv(s)
    requires forall f :: Pins(th, f) <==> Pins(ThreadOf(s, t), f)
    requires Grounded(s, th) && WillBeWoken(s, th) && (th.Sleeping? ==> th.file < s.next)
    ensures Inv(SetThread(s, t, th))
  {
    var s' := SetThread(s, t, th);
    forall f | f in s'.files ensures Counted(s', f) && Isolated(s', f) {
      assert Counted(s, f) && Isolated(s, f);
      PinUpdate(s.threads, t, th, f);
    }
    forall u | u in s'.threads ensures Grounded(s', s'.threads[u]) && WillBeWoken(s', s'.threads[u]) {
      assert s'.threads[u] == th || (u in s.threads && s'.threads[u] == s.threads[u]);
    }
  }

  lemma SetThreadThreads(s: State, t: ThreadId, th: Thread)
    requires Threads(s)
    requires Grounded(s, th) && WillBeWoken(s, th) && (th.Sleeping? ==> th.file < s.next)
    ensures Threads(SetThread(s, t, th))
  {
    var s' := SetThread(s, t, th);
    forall u | u in s'.threads ensures Grounded(s', s'.threads[u]) && WillBeWoken(s', s'.threads[u]) {
      assert s'.threads[u] == th || (u in s.threads && s'.threads[u] == s.threads[u]);
    }
  }

  /** How the count of one file follows a change of one thread. */
  lemma CountFollows(s: State, t: ThreadId, th: Thread, g: FileId, y: Entry)
    requires g in s.files && Counted(s, g) && Isolated(s, g)
    requires SameButAccesses(s.files[g], y)
    requires y.accesses - s.files[g].accesses
          == (if Pins(th, g) then 1 else 0) - (if Pins(ThreadOf(s, t), g) then 1 else 0)
    requires s.files[g].Busy() ==> !Pins(th, g)
    ensures Counted(SetFile(SetThread(s, t, th), g, y), g) && Isolated(SetFile(SetThread(s, t, th), g, y), g)
  {
    PinUpdate(s.threads, t, th, g);
  }

  predicate SameButAccesses(x: Entry, y: Entry) {
    y == x.(accesses := y.accesses)
  }

  /** One thread changes, and the counts of the files follow what it holds on to. */
  lemma HoldKept(s: State, t: ThreadId, th: Thread, files: map<FileId, Entry>)
    requires Inv(s) && files.Keys == s.files.Keys
    requires Grounded(s, th) && !th.Sleeping?
    requires forall g :: g in files ==> SameButAccesses(s.files[g], files[g])
    requires forall g :: g in files ==>
      files[g].accesses - s.files[g].accesses
      == (if Pins(th, g) then 1 else 0) - (if Pins(ThreadOf(s, t), g) then 1 else 0)
    requires forall g :: g in files && s.files[g].Busy() ==> !Pins(th, g)
    ensures Inv(SetThread(s, t, th).(files := files))
  {
    var s' := SetThread(s, t, th).(files := files);
    assert Entries(s') by {
      forall g | g in s'.files ensures Counted(s', g) && Isolated(s', g) {
        CountFollows(s, t, th, g, files[g]);
      }
    }
    assert Threads(s') by {
      SetThreadThreads(s, t, th);
      SameThreads(SetThread(s, t, th), s');
    }
  }

  lemma SameThreads(s: State, s': State)
    requires Threads(s) && s' == s.(files := s'.files) && s'.files.Keys == s.files.Keys
    requires forall g :: g in s.files ==> SameButAccesses(s.files[g], s'.files[g])
    ensures Threads(s')
  {
    forall t | t in s.threads ensures Grounded(s', s.threads[t]) && WillBeWoken(s', s.threads[t]) {
      assert Grounded(s, s.threads[t]) && WillBeWoken(s, s.threads[t]);
      assert forall g :: g in s.files ==> SameButAccesses(s.files[g], s'.files[g]);
    }
  }

  /** A thread takes hold of one more file. */
  lemma PinKept(s: State, t: ThreadId, th: Thread, f: FileId)
    requires Inv(s) && f in s.files && !s.files[f].Busy()
    requires !Pins(ThreadOf(s, t), f) && !th.Sleeping? && Grounded(s, th)
    requires forall g :: Pins(th, g) <==> g == f || Pins(ThreadOf(s, t), g)
    ensures Inv(Pin(s, t, th, f))
  {
    hide Entries, Apart, Stable, Queued, Threads;
    var files := s.files[f := s.files[f].(accesses := s.files[f].accesses + 1)];
    forall g | g in files && Pins(th, g) ensures !s.files[g].Busy() {
      if g != f {
        HeldIsNotBusy(s, t, g);
      }
    }
    HoldKept(s, t, th, files);
    assert Pin(s, t, th, f) == SetThread(s, t, th).(files := files);
  }

  /** A file that a thread holds on to is not busy. */
  lemma HeldIsNotBusy(s: State, t: ThreadId, f: FileId)
    requires Inv(s) && f in s.files && Pins(ThreadOf(s, t), f)
    ensures !s.files[f].Busy()
  {
    NoPins(s.threads, f);
    assert Isolated(s, f);
  }

  lemma UnpinKept(s: State, t: ThreadId)
    requires Inv(s) && ThreadOf(s, t).BothPinned?
    requires ThreadOf(s, t).from in s.files && ThreadOf(s, t).target in s.files
    ensures Inv(Unpin(s, t))
    ensures !s.files[ThreadOf(s, t).from].Busy() && !s.files[ThreadOf(s, t).target].Busy()
  {
    hide Entries, Apart, Stable, Queued, Threads;
    var BothPinned(from, to) := ThreadOf(s, t);
    assert from != to by {
      ThreadIs(s, t);
    }
    HeldIsNotBusy(s, t, from);
    HeldIsNotBusy(s, t, to);
    HoldKept(s, t, Resting, Unpin(s, t).files);
  }

  lemma BroadcastKept(s: State, f: FileId)
    requires Inv(s)
    ensures Inv(s.(threads := Broadcast(s.threads, f)))
  {
    var s' := s.(threads := Broadcast(s.threads, f));
    forall g | g in s'.files ensures Counted(s', g) && Isolated(s', g) {
      assert Counted(s, g) && Isolated(s, g);
      BroadcastPins(s.threads, f, g);
    }
    forall u | u in s'.threads ensures Grounded(s', s'.threads[u]) && WillBeWoken(s', s'.threads[u]) {
      assert Grounded(s, s.threads[u]) && WillBeWoken(s, s.threads[u]);
    }
  }

  lemma FailedKept(s: State, f: FileId)
    requires Inv(s) && f in s.files
    ensures Inv(s.(failed := s.failed + {f}))
  {
    var s' := s.(failed := s.failed + {f});
    forall g | g in s'.files ensures Counted(s', g) && Isolated(s', g) {
      assert Counted(s, g) && Isolated(s, g);
    }
    forall u | u in s'.threads ensures Grounded(s', s'.threads[u]) && WillBeWoken(s', s'.threads[u]) {
      assert Grounded(s, s.threads[u]) && WillBeWoken(s, s.threads[u]);
    }
  }

  /** Nothing of the worker's file but its status and flags changes when the worker lets go of it. */
  ghost predicate GivesUp(s: State, f: FileId, y: Entry) {
    && f in s.files && InFlight(s.worker, f) == 1
    && y.name == s.files[f].name && y.descriptors == s.files[f].descriptors && y.accesses == s.files[f].accesses
    && !y.compressing && (y.deduping ==> f in s.failed && s.files[f].Busy()) && (y.cancel ==> y.deduping)
  }

  lemma FinishEntries(s: State, f: FileId, y: Entry)
    requires Entries(s) && GivesUp(s, f, y)
    ensures Entries(Finish(s, f, y))
  {
    var s' := Finish(s, f, y);
    forall g | g in s'.files ensures Counted(s', g) && Isolated(s', g) {
      assert Counted(s, g) && Isolated(s, g);
    }
  }

  lemma FinishThreads(s: State, f: FileId, y: Entry)
    requires Threads(s) && GivesUp(s, f, y)
    requires forall t :: t in s.threads && s.threads[t].Sleeping? && s.threads[t].file == f && !s.threads[t].woken ==>
               f in s.failed
    ensures Threads(Finish(s, f, y))
  {
    var s' := Finish(s, f, y);
    forall u | u in s'.threads ensures Grounded(s', s'.threads[u]) && WillBeWoken(s', s'.threads[u]) {
      assert Grounded(s, s.threads[u]) && WillBeWoken(s, s.threads[u]);
    }
  }

  lemma FinishRest(s: State, f: FileId, y: Entry)
    requires Apart(s) && Queued(s) && GivesUp(s, f, y)
    ensures Apart(Finish(s, f, y)) && Stable(Finish(s, f, y)) && Queued(Finish(s, f, y))
  {
  }

  /** The worker lets go of a file: nobody sleeps on it unwoken any more, or its hash has failed. */
  lemma FinishKept(s: State, f: FileId, y: Entry)
    requires Inv(s) && GivesUp(s, f, y)
    requires forall t :: t in s.threads && s.threads[t].Sleeping? && s.threads[t].file == f && !s.threads[t].woken ==>
               f in s.failed
    ensures Inv(Finish(s, f, y))
  {
    hide Entries, Apart, Stable, Queued, Threads;
    FinishEntries(s, f, y);
    FinishThreads(s, f, y);
    FinishRest(s, f, y);
  }

  /** The worker goes to work on the file it has fetched, which it alone uses. */
  ghost predicate GoesToWork(s: State, f: FileId, y: Entry, w: Worker) {
    && s.worker.Fetched? && s.worker.job.file == f && f in s.files && s.files[f].accesses == 1
    && y == (if w.Compressing? then s.files[f].(compressing := true) else s.files[f].(deduping := true))
    && WorksOn(w, f)
    && Visible(s.disk, y.name) == if w.Compressing? then Some(w.source) else w.seen
  }

  lemma StartEntries(s: State, f: FileId, y: Entry, w: Worker)
    requires Entries(s) && GoesToWork(s, f, y, w)
    ensures Entries(SetFile(s, f, y).(worker := w))
  {
    var s' := SetFile(s, f, y).(worker := w);
    forall g | g in s'.files ensures Counted(s', g) && Isolated(s', g) {
      assert Counted(s, g) && Isolated(s, g);
    }
  }

  lemma StartThreads(s: State, f: FileId, y: Entry, w: Worker)
    requires Threads(s) && GoesToWork(s, f, y, w)
    ensures Threads(SetFile(s, f, y).(worker := w))
  {
    var s' := SetFile(s, f, y).(worker := w);
    forall u | u in s'.threads ensures Grounded(s', s'.threads[u]) && WillBeWoken(s', s'.threads[u]) {
      assert Grounded(s, s.threads[u]) && WillBeWoken(s, s.threads[u]);
    }
  }

  lemma StartRest(s: State, f: FileId, y: Entry, w: Worker)
    requires Apart(s) && Queued(s) && GoesToWork(s, f, y, w)
    ensures var s' := SetFile(s, f, y).(worker := w); Apart(s') && Stable(s') && Queued(s')
  {
  }

  lemma StartKept(s: State, f: FileId, y: Entry, w: Worker)
    requires Inv(s) && GoesToWork(s, f, y, w)
    ensures Inv(SetFile(s, f, y).(worker := w))
  {
    hide Entries, Apart, Stable, Queued, Threads;
    StartEntries(s, f, y, w);
    StartThreads(s, f, y, w);
    StartRest(s, f, y, w);
  }

  function Enqueue(s: State, f: FileId, dedup: bool): State
    requires f in s.files
  {
    SetFile(s, f, s.files[f].(accesses := s.files[f].accesses + 1)).(queue := s.queue + [Job(f, dedup)])
  }

  lemma EnqueueEntries(s: State, f: FileId, dedup: bool)
    requires Entries(s) && f in s.files && s.files[f].accesses == 0
    ensures Entries(Enqueue(s, f, dedup))
  {
    var s' := Enqueue(s, f, dedup);
    forall g | g in s'.files ensures Counted(s', g) && Isolated(s', g) {
      assert Counted(s, g) && Isolated(s, g);
      QueueAppend(s.queue, Job(f, dedup), g);
    }
  }

  lemma EnqueueThreads(s: State, f: FileId, dedup: bool)
    requires Threads(s) && f in s.files
    ensures Threads(Enqueue(s, f, dedup))
  {
    var s' := Enqueue(s, f, dedup);
    SameThreads(s, s.(files := s'.files));
    forall t | t in s.threads ensures Grounded(s', s.threads[t]) && WillBeWoken(s', s.threads[t]) {
      assert Grounded(s.(files := s'.files), s.threads[t]) && WillBeWoken(s.(files := s'.files), s.threads[t]);
    }
  }

  lemma EnqueueRest(s: State, f: FileId, dedup: bool)
    requires Apart(s) && Stable(s) && Queued(s) && f in s.files
    ensures var s' := Enqueue(s, f, dedup); Apart(s') && Stable(s') && Queued(s')
  {
  }

  lemma EnqueueKept(s: State, f: FileId, dedup: bool)
    requires Inv(s) && f in s.files && s.files[f].accesses == 0
    ensures Inv(Enqueue(s, f, dedup))
  {
    hide Entries, Apart, Stable, Queued, Threads;
    EnqueueEntries(s, f, dedup);
    EnqueueThreads(s, f, dedup);
    EnqueueRest(s, f, dedup);
  }

  /** A file that is not counted is in nobody's hands. */
  lemma UnusedIffNotCounted(s: State, f: FileId)
    requires Inv(s) && f in s.files
    ensures s.files[f].accesses == 0 <==>
      && s.files[f].descriptors == {} && (forall j :: j in s.queue ==> j.file != f)
      && InFlight(s.worker, f) == 0 && (forall t :: t in s.threads ==> !Pins(s.threads[t], f))
  {
    assert Counted(s, f);
    NoPins(s.threads, f);
    NotQueued(s.queue, f);
  }

  lemma FreeKept(s: State, f: FileId)
    requires Inv(s) && f in s.files && s.files[f].accesses == 0
    ensures Inv(s.(files := s.files - {f}))
  {
    var s' := s.(files := s.files - {f});
    UnusedIffNotCounted(s, f);
    assert Entries(s') by {
      forall g | g in s'.files ensures Counted(s', g) && Isolated(s', g) {
        assert Counted(s, g) && Isolated(s, g);
      }
    }
    assert Threads(s') by {
      assert Isolated(s, f);
      forall u | u in s'.threads ensures Grounded(s', s'.threads[u]) && WillBeWoken(s', s'.threads[u]) {
        assert Grounded(s, s.threads[u]) && WillBeWoken(s, s.threads[u]);
      }
    }
  }

  lemma PurgeKept(s: State, f: FileId, compressible: bool, dedupable: bool)
    requires Inv(s) && f in s.files && s.files[f].accesses == 0
    ensures Inv(PurgeFile(s, f, compressible, dedupable))
  {
    hide Entries, Apart, Stable, Queued, Threads;
    var x := s.files[f];
    if !x.deleted && !x.compressed && compressible {
      EnqueueKept(s, f, false);
    } else if !x.deleted && !x.deduped && dedupable {
      EnqueueKept(s, f, true);
    } else {
      FreeKept(s, f);
    }
  }

  // ----- Every step keeps the invariant -----

  /** What a thread holds on to when it comes to carry out a request. */
  ghost predicate Ready(s: State, t: ThreadId, f: FileId, r: Request) {
    && f in s.files
    && (forall g :: Pins(ThreadOf(s, t), g) <==> r == RenameTo(g))
    && match r
       case Open(d) => UnusedDescriptor(s, d)
       case RenameFrom(to) => s.files[f].name != to
       case RenameTo(from) => from != f
       case _ => true
  }

  /** Contents change under the name of a file that is not busy. */
  lemma ContentsKept(s: State, f: FileId, disk: map<Name, Repr>)
    requires Inv(s) && f in s.files && !WorksOn(s.worker, f)
    requires forall n :: n != s.files[f].name ==> Visible(disk, n) == Visible(s.disk, n)
    ensures Inv(s.(disk := disk))
  {
    DiskKept(s, disk, {s.files[f].name});
  }

  lemma RenameFromKept(s: State, t: ThreadId, f: FileId, to: Name)
    requires Inv(s) && Ready(s, t, f, RenameFrom(to)) && !s.files[f].Busy()
    ensures Inv(Perform(s, t, f, RenameFrom(to)))
  {
    hide Entries, Apart, Stable, Queued, Threads;
    assert !Pins(ThreadOf(s, t), f);
    PinKept(s, t, Pinned(f, to), f);
    assert Perform(s, t, f, RenameFrom(to)) == Pin(s, t, Pinned(f, to), f);
  }

  lemma RenameToKept(s: State, t: ThreadId, f: FileId, from: FileId)
    requires Inv(s) && Ready(s, t, f, RenameTo(from)) && !s.files[f].Busy()
    ensures Inv(Perform(s, t, f, RenameTo(from)))
  {
    hide Entries, Apart, Stable, Queued, Threads;
    assert Pins(ThreadOf(s, t), from) && !Pins(ThreadOf(s, t), f);
    assert from in s.files by {
      ThreadIs(s, t);
    }
    PinKept(s, t, BothPinned(from, f), f);
    assert Perform(s, t, f, RenameTo(from)) == Pin(s, t, BothPinned(from, f), f);
  }

  lemma OpenRequestKept(s: State, t: ThreadId, f: FileId, r: Request)
    requires Inv(s) && Ready(s, t, f, r) && !s.files[f].Busy() && r.Open?
    ensures Inv(Perform(s, t, f, r))
  {
    hide Entries, Apart, Stable, Queued, Threads;
    ThreadKept(s, t, Resting);
    if s.files[f].name in s.disk {
      OpenKept(SetThread(s, t, Resting), f, r.d, s.disk[s.files[f].name].Packed?);
    }
  }

  lemma StoreRequestKept(s: State, t: ThreadId, f: FileId, r: Request)
    requires Inv(s) && Ready(s, t, f, r) && !s.files[f].Busy() && (r.Unlink? || r.Create? || r.Truncate?)
    ensures Inv(Perform(s, t, f, r))
  {
    hide Entries, Apart, Stable, Queued, Threads;
    var x := s.files[f];
    assert !WorksOn(s.worker, f) by {
      EntryOf(s, f);
    }
    match r
    case Unlink =>
      RestThenChange(s, t, f, s.disk - {x.name}, x.(deduped := false, deleted := x.deleted || x.name in s.disk));
    case Create =>
      RestThenChange(s, t, f, if x.name in s.disk then s.disk else s.disk[x.name := Plain([])], x);
    case Truncate(bytes) =>
      if x.name in s.disk {
        RestThenChange(s, t, f, s.disk[x.name := Plain(bytes)], x.(deduped := false, compressed := false));
      } else {
        RestThenChange(s, t, f, s.disk, x.(deduped := false));
      }
  }

  lemma PerformKept(s: State, t: ThreadId, f: FileId, r: Request)
    requires Inv(s) && Ready(s, t, f, r) && !s.files[f].Busy()
    ensures Inv(Perform(s, t, f, r))
  {
    hide Entries, Apart, Stable, Queued, Threads;
    if r.Open? {
      OpenRequestKept(s, t, f, r);
    } else if r.RenameFrom? {
      RenameFromKept(s, t, f, r.to);
    } else if r.RenameTo? {
      RenameToKept(s, t, f, r.from);
    } else {
      StoreRequestKept(s, t, f, r);
    }
  }

  lemma RestThenChange(s: State, t: ThreadId, f: FileId, disk: map<Name, Repr>, y: Entry)
    requires Inv(s) && f in s.files && !WorksOn(s.worker, f)
    requires forall g :: !Pins(ThreadOf(s, t), g)
    requires forall n :: n != s.files[f].name ==> Visible(disk, n) == Visible(s.disk, n)
    requires SameButFlags(s.files[f], y)
    ensures Inv(Store(SetThread(s, t, Resting), f, disk, y))
  {
    hide Entries, Apart, Stable, Queued, Threads;
    ThreadKept(s, t, Resting);
    ContentsKept(SetThread(s, t, Resting), f, disk);
    FlagsKept(SetThread(s, t, Resting).(disk := disk), f, y);
  }

  lemma SleepKept(s: State, t: ThreadId, f: FileId, r: Request)
    requires Inv(s) && Ready(s, t, f, r) && s.files[f].Busy()
    ensures Inv(SetThread(SetFile(s, f, s.files[f].(cancel := true)), t, Sleeping(f, r, false)))
  {
    hide Entries, Apart, Stable, Queued, Threads;
    var asked := SetFile(s, f, s.files[f].(cancel := true));
    EntryOf(s, f);
    EntryKept(s, asked, f);
    ThreadIs(s, t);
    ThreadKept(asked, t, Sleeping(f, r, false));
  }

  lemma PerformOrSleepKept(s: State, t: ThreadId, f: FileId, r: Request)
    requires Inv(s) && Ready(s, t, f, r)
    ensures Inv(PerformOrSleep(s, t, f, r))
  {
    hide Entries, Apart, Stable, Queued, Threads;
    if s.files[f].Busy() {
      SleepKept(s, t, f, r);
    } else {
      PerformKept(s, t, f, r);
    }
  }

  lemma MoveEntryCounts(s: State, from: FileId, to: FileId, g: FileId)
    requires Inv(s) && from in s.files && to in s.files && from != to && g in s.files
    requires !s.files[from].Busy() && !s.files[to].Busy()
    ensures Counted(MoveEntry(s, from, to), g) && Isolated(MoveEntry(s, from, to), g)
  {
    assert Counted(s, g) && Isolated(s, g);
    MovedJobs(s.queue, from, to, g);
    if g == to {
      assert Isolated(s, from);
      assert s.files[to].descriptors * s.files[from].descriptors == {};
    }
  }

  lemma MoveEntryThreads(s: State, from: FileId, to: FileId)
    requires Threads(s) && from in s.files && to in s.files && !WorksOn(s.worker, from) && !WorksOn(s.worker, to)
    ensures Threads(MoveEntry(s, from, to))
  {
    var s' := MoveEntry(s, from, to);
    forall u | u in s.threads ensures Grounded(s', s.threads[u]) && WillBeWoken(s', s.threads[u]) {
      assert Grounded(s, s.threads[u]) && WillBeWoken(s, s.threads[u]);
    }
  }

  lemma MoveEntryQueued(s: State, from: FileId, to: FileId)
    requires Queued(s) && from in s.files && to in s.files
    ensures Queued(MoveEntry(s, from, to))
  {
    var s' := MoveEntry(s, from, to);
    forall j | j in s'.queue ensures j.file in s'.files {
      MovedJobsStay(s.queue, from, to, j);
    }
  }

  lemma MoveEntryApart(s: State, from: FileId, to: FileId)
    requires Apart(s) && Stable(s) && from in s.files && to in s.files && from != to
    ensures Apart(MoveEntry(s, from, to)) && Stable(MoveEntry(s, from, to))
  {
  }

  lemma MoveEntryEntries(s: State, from: FileId, to: FileId)
    requires Inv(s) && from in s.files && to in s.files && from != to
    requires !s.files[from].Busy() && !s.files[to].Busy()
    ensures Entries(MoveEntry(s, from, to))
  {
    var s' := MoveEntry(s, from, to);
    forall g | g in s'.files ensures g < s'.next && Counted(s', g) && Isolated(s', g) {
      EntryOf(s, g);
      MoveEntryCounts(s, from, to, g);
    }
  }

  lemma MoveEntryKept(s: State, from: FileId, to: FileId)
    requires Inv(s) && from in s.files && to in s.files && from != to
    requires !s.files[from].Busy() && !s.files[to].Busy()
    ensures Inv(MoveEntry(s, from, to))
  {
    hide Entries, Apart, Stable, Queued, Threads;
    EntryOf(s, from);
    EntryOf(s, to);
    MoveEntryEntries(s, from, to);
    MoveEntryApart(s, from, to);
    MoveEntryThreads(s, from, to);
    MoveEntryQueued(s, from, to);
  }

  lemma RenameEndKept(s: State, t: ThreadId, ok: bool)
    requires Inv(s) && Enabled(s, RenameEnd(t, ok))
    ensures Inv(EndRename(s, t, ok))
  {
    hide Entries, Apart, Stable, Queued, Threads;
    var BothPinned(from, to) := ThreadOf(s, t);
    ThreadIs(s, t);
    UnpinKept(s, t);
    if ok && s.files[from].name in s.disk {
      var a := Unpin(s, t);
      var disk := MoveName(s.disk, s.files[from].name, s.files[to].name);
      EntryOf(s, from);
      EntryOf(s, to);
      forall f | f in a.files && WorksOn(a.worker, f)
        ensures a.files[f].name != s.files[from].name && a.files[f].name != s.files[to].name
      {
        if a.files[f].name == a.files[from].name {
          NamesApart(a, f, from);
        } else if a.files[f].name == a.files[to].name {
          NamesApart(a, f, to);
        }
      }
      DiskKept(a, disk, {s.files[from].name, s.files[to].name});
      MoveEntryKept(a.(disk := disk), from, to);
    }
  }

  /** The worker gives up a file, having changed none of its status. */
  lemma DropKept(s: State, f: FileId, y: Entry)
    requires Inv(s) && f in s.files && s.worker.Fetched? && s.worker.job.file == f
    requires SameButFlags(s.files[f], y)
    ensures Inv(Finish(s, f, y))
  {
    hide Entries, Apart, Stable, Queued, Threads;
    EntryOf(s, f);
    forall t | t in s.threads && s.threads[t].Sleeping? && s.threads[t].file == f && !s.threads[t].woken
      ensures f in s.failed
    {
      ThreadIs(s, t);
    }
    FinishKept(s, f, y);
  }

  lemma VerdictShape(s: State, admitted: bool, big: bool, chosen: bool)
    requires s.worker.Fetched? && s.worker.job.file in s.files
    ensures var x := s.files[s.worker.job.file];
      match Verdict(s, admitted, big, chosen)
      case Some(y) => SameButFlags(x, y)
      case None => x.accesses == 1 && !x.deleted && (!s.worker.job.dedup ==> x.name in s.disk)
  {
  }

  lemma BeginKept(s: State, admitted: bool, big: bool, chosen: bool)
    requires Inv(s) && Enabled(s, Begin(admitted, big, chosen))
    ensures Inv(BeginJob(s, admitted, big, chosen))
  {
    hide Entries, Apart, Stable, Queued, Threads;
    var f, x := s.worker.job.file, s.files[s.worker.job.file];
    VerdictShape(s, admitted, big, chosen);
    match Verdict(s, admitted, big, chosen)
    case Some(y) => DropKept(s, f, y);
    case None =>
      if s.worker.job.dedup {
        StartKept(s, f, x.(deduping := true), Hashing(f, Visible(s.disk, x.name)));
      } else {
        StartKept(s, f, x.(compressing := true), Compressing(f, s.disk[x.name].bytes));
      }
  }

  /** The worker ends its work on a file: it wakes everyone if someone asked for cancellation. */
  lemma WorkEndKept(s: State, f: FileId, y: Entry)
    requires Inv(s) && f in s.files && WorksOn(s.worker, f)
    requires y.name == s.files[f].name && y.descriptors == s.files[f].descriptors && y.accesses == s.files[f].accesses
    requires !y.compressing && !y.cancel && (y.deduping ==> s.files[f].deduping && f in s.failed)
    ensures s.files[f].cancel ==> Inv(Finish(s.(threads := Broadcast(s.threads, f)), f, y))
    ensures !s.files[f].cancel ==> Inv(Finish(s, f, y))
  {
    hide Entries, Apart, Stable, Queued, Threads;
    if s.files[f].cancel {
      BroadcastKept(s, f);
      FinishKept(s.(threads := Broadcast(s.threads, f)), f, y);
    } else {
      forall t | t in s.threads && s.threads[t].Sleeping? && s.threads[t].file == f && !s.threads[t].woken
        ensures f in s.failed
      {
        ThreadIs(s, t);
      }
      FinishKept(s, f, y);
    }
  }

  lemma EndCompressKept(s: State, ok: bool)
    requires Inv(s) && Enabled(s, EndCompress(ok))
    ensures Inv(FinishCompress(s, ok))
  {
    hide Entries, Apart, Stable, Queued, Threads;
    var f, source, x := s.worker.file, s.worker.source, s.files[s.worker.file];
    EntryOf(s, f);
    var y := x.(compressing := false, deduped := false, cancel := false);
    WorkEndKept(s, f, y);
    if !x.cancel {
      assert y == x.(compressing := false, deduped := false);
      if ok {
        WorkEndKept(s, f, y.(compressed := true));
        ContentsKept(Finish(s, f, y.(compressed := true)), f, s.disk[x.name := Packed(source)]);
      }
    }
  }

  lemma EndHashKept(s: State, ok: bool, twin: Option<Repr>)
    requires Inv(s) && Enabled(s, EndHash(ok, twin))
    ensures Inv(FinishHash(s, ok, twin))
  {
    hide Entries, Apart, Stable, Queued, Threads;
    var f, x := s.worker.file, s.files[s.worker.file];
    EntryOf(s, f);
    if !ok {
      FailedKept(s, f);
      FinishKept(s.(failed := s.failed + {f}), f, x.(deduped := true));
    } else if x.cancel {
      WorkEndKept(s, f, x.(cancel := false, deduping := false));
    } else {
      var y := x.(deduped := true, deduping := false);
      WorkEndKept(s, f, y);
      if twin.Some? {
        WorkEndKept(s, f, y.(compressed := twin.value.Packed?));
        ContentsKept(Finish(s, f, y.(compressed := twin.value.Packed?)), f, s.disk[x.name := twin.value]);
      }
    }
  }

  /** A descriptor's holder changes what is stored. */
  lemma StoreKept(s: State, f: FileId, d: DescriptorId, disk: map<Name, Repr>, y: Entry)
    requires Inv(s) && f in s.files && d in s.files[f].descriptors
    requires forall n :: n != s.files[f].name ==> Visible(disk, n) == Visible(s.disk, n)
    requires SameButFlags(s.files[f], y)
    ensures Inv(SetFile(s.(disk := disk), f, y))
  {
    hide Entries, Apart, Stable, Queued, Threads;
    assert !WorksOn(s.worker, f) by {
      EntryOf(s, f);
    }
    ContentsKept(s, f, disk);
    FlagsKept(s.(disk := disk), f, y);
  }

  lemma LookUpKept(s: State, f: FileId, stale: bool)
    requires Inv(s) && f in s.files
    ensures Inv(LookUp(s, f, stale))
  {
    hide Entries, Apart, Stable, Queued, Threads;
    var x := s.files[f].(deleted := false);
    FlagsKept(s, f, if stale && x.name in s.disk then x.(compressed := s.disk[x.name].Packed?) else x);
  }

  lemma AskKept(s: State, t: ThreadId, name: Name, r: Request, found: Option<FileId>)
    requires Inv(s) && Enabled(s, Ask(t, name, r, found))
    ensures Inv(Apply(s, Ask(t, name, r, found)))
  {
    hide Entries, Apart, Stable, Queued, Threads;
    ThreadIs(s, t);
    match found
    case Some(f) =>
      FlagsKept(s, f, s.files[f].(deleted := false));
      PerformOrSleepKept(SetFile(s, f, s.files[f].(deleted := false)), t, f, r);
    case None =>
      AddEntryKept(s, name);
      if r.RenameTo? {
        EntryOf(s, r.from);
      }
      PerformKept(AddEntry(s, name), t, s.next, r);
  }

  lemma WakeKept(s: State, t: ThreadId)
    requires Inv(s) && Enabled(s, Wake(t))
    ensures Inv(Apply(s, Wake(t)))
  {
    hide Entries, Apart, Stable, Queued, Threads;
    var th := ThreadOf(s, t);
    ThreadIs(s, t);
    PerformOrSleepKept(s, t, th.file, th.request);
  }

  /** Whatever happens next keeps the invariant. */
  lemma StepKept(s: State, e: Event)
    requires Inv(s) && Enabled(s, e)
    ensures Inv(Apply(s, e))
  {
    hide Entries, Apart, Stable, Queued, Threads;
    match e
    case Ask(t, name, r, found) => AskKept(s, t, name, r, found);
    case Look(name, found, stale) =>
      if found.Some? {
        LookUpKept(s, found.value, stale);
      } else {
        AddEntryKept(s, name);
        LookUpKept(AddEntry(s, name), s.next, stale);
      }
    case Wake(t) => WakeKept(s, t);
    case Write(d, f, stored) =>
      var x := s.files[f];
      StoreKept(s, f, d, if x.name in s.disk then s.disk[x.name := stored] else s.disk,
                x.(deduped := false, compressed := stored.Packed?));
    case ReadFallback(d, f) =>
      var x := s.files[f];
      StoreKept(s, f, d, if x.name in s.disk then s.disk[x.name := Plain(s.disk[x.name].bytes)] else s.disk,
                x.(compressed := false));
    case Release(d, f) => ReleaseKept(s, f, d);
    case RenameEnd(t, ok) => RenameEndKept(s, t, ok);
    case Purge(f, compressible, dedupable) => PurgeKept(s, f, compressible, dedupable);
    case Fetch => FetchKept(s);
    case Begin(admitted, big, chosen) => BeginKept(s, admitted, big, chosen);
    case EndCompress(ok) => EndCompressKept(s, ok);
    case EndHash(ok, twin) => EndHashKept(s, ok, twin);
  }

  // ----- Runs -----

  /** Every step of a run can be taken when its turn comes. */
  predicate Legal(s: State, events: seq<Event>)
    decreases |events|
  {
    events == [] || (Enabled(s, events[0]) && Legal(Apply(s, events[0]), events[1..]))
  }

  function After(s: State, events: seq<Event>): State
    requires Legal(s, events)
    decreases |events|
  {
    if events == [] then s else After(Apply(s, events[0]), events[1..])
  }

  lemma InitialIsFine(s: State)
    requires Initial(s)
    ensures Inv(s)
  {
  }

  /** Any interleaving of user steps and worker steps keeps the invariant. */
  lemma {:induction false} RunKept(s: State, events: seq<Event>)
    requires Inv(s) && Legal(s, events)
    ensures Inv(After(s, events))
    decreases |events|
  {
    hide Entries, Apart, Stable, Queued, Threads;
    if events != [] {
      StepKept(s, events[0]);
      RunKept(Apply(s, events[0]), events[1..]);
    }
  }

  /** In every state that can be reached, the count of a file is the number of its open descriptors, its
      queue entries, the worker and the renames that hold on to it; a purge therefore frees only files that
      nobody uses, and the worker finds the file that it fetched counted. */
  lemma CountsAreConserved(start: State, events: seq<Event>, f: FileId)
    requires Initial(start) && Legal(start, events) && f in After(start, events).files
    ensures var s := After(start, events);
      && Counted(s, f)
      && (s.worker.Fetched? && s.worker.job.file == f ==> s.files[f].accesses > 0)
      && (s.files[f].accesses == 0 <==>
            && s.files[f].descriptors == {} && (forall j :: j in s.queue ==> j.file != f)
            && InFlight(s.worker, f) == 0 && (forall t :: t in s.threads ==> !Pins(s.threads[t], f)))
  {
    hide Entries, Apart, Stable, Queued, Threads;
    InitialIsFine(start);
    RunKept(start, events);
    EntryOf(After(start, events), f);
    UnusedIffNotCounted(After(start, events), f);
  }

  // ----- The worker is invisible -----

  predicate WorkerStep(e: Event) {
    e.Fetch? || e.Begin? || e.EndCompress? || e.EndHash? || e.Purge?
  }

  function Contents(disk: map<Name, Repr>): map<Name, Data> {
    map n | n in disk :: disk[n].bytes
  }

  /** Whatever way the worker's steps go (success, cancellation, failure), every name keeps its bytes. */
  lemma WorkerKeepsContents(s: State, e: Event)
    requires Inv(s) && Enabled(s, e) && WorkerStep(e)
    ensures Contents(Apply(s, e).disk) == Contents(s.disk)
  {
    hide Entries, Apart, Queued, Threads;
    match e
    case EndCompress(ok) =>
      var x := s.files[s.worker.file];
      assert Visible(s.disk, x.name) == Some(s.worker.source);
      StoreSame(s.disk, x.name, Packed(s.worker.source));
    case EndHash(ok, twin) =>
      var x := s.files[s.worker.file];
      if ok && twin.Some? {
        assert Visible(s.disk, x.name) == s.worker.seen;
        StoreSame(s.disk, x.name, twin.value);
      }
    case Purge(f, c, d) =>
    case Fetch =>
    case Begin(a, b, c) =>
  }

  lemma StoreSame(disk: map<Name, Repr>, name: Name, stored: Repr)
    requires Visible(disk, name) == Some(stored.bytes)
    ensures Contents(disk[name := stored]) == Contents(disk)
  {
  }

  /** What a step means for a plain file system, if anything. */
  datatype Change = Nothing | Put(name: Name, bytes: Data) | Remove(name: Name) | Move(from: Name, to: Name)

  function Changed(plain: map<Name, Data>, c: Change): map<Name, Data> {
    match c
    case Nothing => plain
    case Put(name, bytes) => plain[name := bytes]
    case Remove(name) => plain - {name}
    case Move(from, to) => if from in plain then plain[to := plain[from]] - {from} else plain
  }

  /** The change a user asks for when a request on `name` is carried out. */
  function Wanted(plain: map<Name, Data>, name: Name, r: Request): Change {
    match r
    case Unlink => Remove(name)
    case Create => if name in plain then Nothing else Put(name, [])
    case Truncate(bytes) => if name in plain then Put(name, bytes) else Nothing
    case _ => Nothing
  }

  /** The change a user makes with a step; the worker's steps and the waiting ones make none. */
  function ChangeOf(s: State, e: Event): Change
    requires Enabled(s, e)
  {
    match e
    case Ask(t, name, r, found) =>
      if found.Some? && s.files[found.value].Busy() then Nothing else Wanted(Contents(s.disk), name, r)
    case Wake(t) =>
      var x := s.files[ThreadOf(s, t).file];
      if x.Busy() then Nothing else Wanted(Contents(s.disk), x.name, ThreadOf(s, t).request)
    case Write(_, f, stored) =>
      if s.files[f].name in s.disk then Put(s.files[f].name, stored.bytes) else Nothing
    case RenameEnd(t, ok) =>
      if ok then Move(s.files[ThreadOf(s, t).from].name, s.files[ThreadOf(s, t).target].name) else Nothing
    case _ => Nothing
  }

  function Replayed(s: State, events: seq<Event>, plain: map<Name, Data>): map<Name, Data>
    requires Legal(s, events)
    decreases |events|
  {
    if events == [] then plain
    else Replayed(Apply(s, events[0]), events[1..], Changed(plain, ChangeOf(s, events[0])))
  }

  lemma PerformMakesTheChange(s: State, t: ThreadId, f: FileId, r: Request)
    requires f in s.files && !s.files[f].Busy()
    ensures Contents(Perform(s, t, f, r).disk)
         == Changed(Contents(s.disk), Wanted(Contents(s.disk), s.files[f].name, r))
  {
  }

  lemma StepMakesTheChange(s: State, e: Event)
    requires Inv(s) && Enabled(s, e)
    ensures Contents(Apply(s, e).disk) == Changed(Contents(s.disk), ChangeOf(s, e))
  {
    hide Entries, Apart, Stable, Queued, Threads;
    if WorkerStep(e) {
      WorkerKeepsContents(s, e);
    } else {
      match e
      case Ask(t, name, r, found) =>
        if found.None? {
          PerformMakesTheChange(AddEntry(s, name), t, s.next, r);
        } else if !s.files[found.value].Busy() {
          PerformMakesTheChange(SetFile(s, found.value, s.files[found.value].(deleted := false)), t, found.value, r);
        }
      case Wake(t) =>
        if !s.files[ThreadOf(s, t).file].Busy() {
          PerformMakesTheChange(s, t, ThreadOf(s, t).file, ThreadOf(s, t).request);
        }
      case ReadFallback(d, f) =>
        if s.files[f].name in s.disk {
          StoreSame(s.disk, s.files[f].name, Plain(s.disk[s.files[f].name].bytes));
        }
      case RenameEnd(t, ok) => ThreadIs(s, t);
      case _ =>
    }
  }

  /** Over any interleaving, every name has exactly the bytes that a plain file system would give it after
      the users' changes alone: nobody can tell the background worker is there. */
  lemma {:induction false} WorkerIsInvisible(s: State, events: seq<Event>)
    requires Inv(s) && Legal(s, events)
    ensures Contents(After(s, events).disk) == Replayed(s, events, Contents(s.disk))
    decreases |events|
  {
    hide Entries, Apart, Stable, Queued, Threads;
    if events != [] {
      StepKept(s, events[0]);
      StepMakesTheChange(s, events[0]);
      WorkerIsInvisible(Apply(s, events[0]), events[1..]);
    }
  }

  // ----- The worker works alone -----

  predicate WorkEnds(e: Event) {
    e.EndCompress? || e.EndHash?
  }

  /** Until the worker says it has finished, no step touches the file it works on: its contents stay what
      the worker saw, nobody has it open, and it stays in the database. */
  lemma {:induction false} WorkersFileIsStable(s: State, events: seq<Event>, f: FileId)
    requires Inv(s) && Legal(s, events) && WorksOn(s.worker, f)
    requires forall e :: e in events ==> !WorkEnds(e)
    ensures var s' := After(s, events);
      && s'.worker == s.worker
      && f in s'.files && s'.files[f].descriptors == {} && s'.files[f].Busy()
      && s'.files[f].name == s.files[f].name
      && Visible(s'.disk, s'.files[f].name) == Visible(s.disk, s.files[f].name)
      && (forall t :: t in s'.threads ==> !Pins(s'.threads[t], f))
    decreases |events|
  {
    hide Apart, Queued, Threads;
    WorkersFile(s, f);
    if events != [] {
      assert events[0] in events;
      StepKept(s, events[0]);
      StepKeepsWork(s, events[0], f);
      WorkersFileIsStable(Apply(s, events[0]), events[1..], f);
    }
  }

  lemma WorkersFile(s: State, f: FileId)
    requires Inv(s) && WorksOn(s.worker, f)
    ensures f in s.files && s.files[f].descriptors == {} && s.files[f].Busy() && s.files[f].accesses == 1
    ensures forall t :: t in s.threads ==> !Pins(s.threads[t], f)
    ensures Visible(s.disk, s.files[f].name) == if s.worker.Compressing? then Some(s.worker.source) else s.worker.seen
  {
    EntryOf(s, f);
    NoPins(s.threads, f);
  }

  lemma PerformKeepsWork(s: State, t: ThreadId, f: FileId, r: Request, g: FileId)
    requires f in s.files && g in s.files
    ensures var s' := PerformOrSleep(s, t, f, r);
      s'.worker == s.worker && g in s'.files && s'.files[g].name == s.files[g].name
  {
  }

  /** A step that does not end the worker's work leaves it at work on the same file. */
  lemma StepKeepsWork(s: State, e: Event, f: FileId)
    requires Inv(s) && Enabled(s, e) && WorksOn(s.worker, f) && !WorkEnds(e) && f in s.files
    ensures Apply(s, e).worker == s.worker
    ensures f in Apply(s, e).files && Apply(s, e).files[f].name == s.files[f].name
  {
    hide Entries, Apart, Stable, Queued, Threads;
    EntryOf(s, f);
    match e
    case Ask(t, name, r, found) =>
      if found.Some? {
        PerformKeepsWork(SetFile(s, found.value, s.files[found.value].(deleted := false)), t, found.value, r, f);
      } else {
        EntryOf(s, f);
        PerformKeepsWork(AddEntry(s, name), t, s.next, r, f);
      }
    case Wake(t) => PerformKeepsWork(s, t, ThreadOf(s, t).file, ThreadOf(s, t).request, f);
    case _ =>
  }

  // ----- No wakeup is lost -----

  predicate AsleepOn(s: State, t: ThreadId, f: FileId) {
    ThreadOf(s, t).Sleeping? && ThreadOf(s, t).file == f && !ThreadOf(s, t).woken
  }

  /** After any run: a request for cancellation stands only on a busy file, and whoever sleeps on a file is waiting
      for the worker, who has been told. */
  lemma SleepersAreAwaited(start: State, events: seq<Event>, t: ThreadId, f: FileId)
    requires Initial(start) && Legal(start, events)
    ensures var s := After(start, events);
      && (f in s.files && s.files[f].cancel ==> s.files[f].Busy())
      && (AsleepOn(s, t, f) && f !in s.failed ==> f in s.files && s.files[f].cancel && WorksOn(s.worker, f))
  {
    hide Apart, Stable, Queued;
    InitialIsFine(start);
    RunKept(start, events);
    var s := After(start, events);
    ThreadIs(s, t);
    if f in s.files {
      EntryOf(s, f);
    }
  }

  /** When the work on a file ends, by success, failure or cancellation but not by a failed hash, everyone who
      slept on it is awake, the file is free, and no request for cancellation is left behind. */
  lemma EndOfWorkWakesAll(s: State, e: Event, t: ThreadId)
    requires Inv(s) && Enabled(s, e) && WorkEnds(e) && s.worker.file !in s.failed
    requires e.EndHash? ==> e.ok
    ensures var f, s' := s.worker.file, Apply(s, e);
      && !AsleepOn(s', t, f) && !s'.files[f].Busy() && !s'.files[f].cancel
      && (AsleepOn(s, t, f) ==> ThreadOf(s', t) == ThreadOf(s, t).(woken := true))
  {
    hide Apart, Stable, Queued;
    EntryOf(s, s.worker.file);
    ThreadIs(s, t);
  }

  /** The one way out that forgets: after a hash that failed, the sleepers sleep on and the file stays busy.
      Every other way out wakes them, so a sleeper is abandoned if and only if the hash failed. */
  lemma SleepersAreAbandonedIffTheHashFails(s: State, ok: bool, twin: Option<Repr>, t: ThreadId)
    requires Inv(s) && Enabled(s, EndHash(ok, twin)) && s.worker.file !in s.failed
    requires AsleepOn(s, t, s.worker.file)
    ensures var f, s' := s.worker.file, Apply(s, EndHash(ok, twin));
      && (AsleepOn(s', t, f) <==> !ok)
      && (s'.files[f].Busy() <==> !ok)
      && s'.worker == Idle
  {
    hide Apart, Stable, Queued;
    EntryOf(s, s.worker.file);
    ThreadIs(s, t);
  }

  /** The mark that keeps a file from being queued for deduplication, or for compression. */
  predicate Marked(x: Entry, dedup: bool) {
    if dedup then x.deduped else x.compressed
  }

  /** The file is marked, or its entry is gone, and it is not in the queue. */
  ghost predicate Done(s: State, f: FileId, dedup: bool) {
    f < s.next && (f in s.files ==> Marked(s.files[f], dedup)) && Job(f, dedup) !in s.queue
  }

  /** A step by which nobody asks for the file, changes or renames it, and the worker does no work of the other kind
      on it. Looking it up, closing it, purging it and fetching it from the queue are among these steps. */
  predicate LeavesAlone(s: State, e: Event, f: FileId, dedup: bool) {
    match e
    case Ask(_, _, _, found) => found != Some(f)
    case Look(_, found, stale) => found != Some(f) || !stale
    case Wake(t) => ThreadOf(s, t).Sleeping? && ThreadOf(s, t).file != f
    case Write(_, g, _) => g != f
    case ReadFallback(_, g) => g != f
    case RenameEnd(t, _) => ThreadOf(s, t).BothPinned? && ThreadOf(s, t).from != f && ThreadOf(s, t).target != f
    case Begin(_, _, _) => !dedup || !s.worker.Fetched? || s.worker.job != Job(f, false)
    case EndCompress(_) => !dedup || !s.worker.Compressing? || s.worker.file != f
    case EndHash(_, twin) => dedup || !s.worker.Hashing? || s.worker.file != f || twin == None
    case _ => true
  }

  predicate AllLeaveAlone(s: State, events: seq<Event>, f: FileId, dedup: bool)
    requires Legal(s, events)
    decreases |events|
  {
    events == [] || (LeavesAlone(s, events[0], f, dedup) && AllLeaveAlone(Apply(s, events[0]), events[1..], f, dedup))
  }

  lemma {:induction false} MovedJobsAreOthers(queue: seq<Job>, from: FileId, to: FileId, job: Job)
    requires job.file != to && job !in queue
    ensures job !in MoveJobs(queue, from, to)
  {
    if queue != [] {
      MovedJobsAreOthers(queue[1..], from, to, job);
    }
  }

  lemma UsersLeaveDone(s: State, e: Event, f: FileId, dedup: bool)
    requires Enabled(s, e) && Done(s, f, dedup) && LeavesAlone(s, e, f, dedup) && (e.Ask? || e.Look? || e.Wake?)
    ensures Done(Apply(s, e), f, dedup)
  {
    hide PerformOrSleep, Perform, RequestFits, Finds;
    match e
    case Ask(t, name, r, found) =>
      if found.Some? {
        FoundIsThere(s, name, found);
        RequestIsForOne(SetFile(s, found.value, s.files[found.value].(deleted := false)), t, found.value, r, f);
      } else {
        RequestIsForOne(AddEntry(s, name), t, s.next, r, f);
        NewIsFree(s, t, name, r);
      }
    case Look(name, found, stale) => FoundIsThere(s, name, found);
    case Wake(t) => RequestIsForOne(s, t, ThreadOf(s, t).file, ThreadOf(s, t).request, f);
  }

  lemma FoundIsThere(s: State, name: Name, found: Option<FileId>)
    requires Finds(s, name, found)
    ensures found.Some? ==> found.value in s.files
  {
  }

  lemma NewIsFree(s: State, t: ThreadId, name: Name, r: Request)
    ensures PerformOrSleep(AddEntry(s, name), t, s.next, r) == Perform(AddEntry(s, name), t, s.next, r)
  {
  }

  /** A request changes one file and no queue. */
  lemma RequestIsForOne(s: State, t: ThreadId, g: FileId, r: Request, f: FileId)
    requires g in s.files && g != f
    ensures var s' := PerformOrSleep(s, t, g, r);
      && s'.queue == s.queue && s'.next == s.next
      && (f in s'.files <==> f in s.files) && (f in s.files ==> s'.files[f] == s.files[f])
  {
  }

  lemma BeginLeavesDone(s: State, e: Event, f: FileId, dedup: bool)
    requires Enabled(s, e) && Done(s, f, dedup) && LeavesAlone(s, e, f, dedup) && e.Begin?
    ensures Done(Apply(s, e), f, dedup)
  {
  }

  lemma CompressLeavesDone(s: State, e: Event, f: FileId, dedup: bool)
    requires Enabled(s, e) && Done(s, f, dedup) && LeavesAlone(s, e, f, dedup) && e.EndCompress?
    ensures Done(Apply(s, e), f, dedup)
  {
  }

  lemma HashLeavesDone(s: State, e: Event, f: FileId, dedup: bool)
    requires Enabled(s, e) && Done(s, f, dedup) && LeavesAlone(s, e, f, dedup) && e.EndHash?
    ensures Done(Apply(s, e), f, dedup)
  {
  }

  lemma QueueLeavesDone(s: State, e: Event, f: FileId, dedup: bool)
    requires Enabled(s, e) && Done(s, f, dedup) && LeavesAlone(s, e, f, dedup) && (e.Purge? || e.Fetch?)
    ensures Done(Apply(s, e), f, dedup)
  {
  }

  lemma StepLeavesDone(s: State, e: Event, f: FileId, dedup: bool)
    requires Enabled(s, e) && Done(s, f, dedup) && LeavesAlone(s, e, f, dedup)
    ensures Done(Apply(s, e), f, dedup)
  {
    hide Done, LeavesAlone, Apply, Enabled;
    if e.Ask? || e.Look? || e.Wake? {
      UsersLeaveDone(s, e, f, dedup);
    } else if e.Purge? || e.Fetch? {
      QueueLeavesDone(s, e, f, dedup);
    } else if e.Begin? {
      BeginLeavesDone(s, e, f, dedup);
    } else if e.EndCompress? {
      CompressLeavesDone(s, e, f, dedup);
    } else if e.EndHash? {
      HashLeavesDone(s, e, f, dedup);
    } else {
      FilesLeaveDone(s, e, f, dedup);
    }
  }

  lemma FilesLeaveDone(s: State, e: Event, f: FileId, dedup: bool)
    requires Enabled(s, e) && Done(s, f, dedup) && LeavesAlone(s, e, f, dedup)
    requires e.Write? || e.ReadFallback? || e.Release? || e.RenameEnd?
    ensures Done(Apply(s, e), f, dedup)
  {
    if e.RenameEnd? {
      MovedJobsAreOthers(s.queue, ThreadOf(s, e.t).from, ThreadOf(s, e.t).target, Job(f, dedup));
    }
  }

  lemma {:induction false} RunLeavesDone(s: State, events: seq<Event>, f: FileId, dedup: bool)
    requires Legal(s, events) && Done(s, f, dedup) && AllLeaveAlone(s, events, f, dedup)
    ensures Done(After(s, events), f, dedup)
    decreases |events|
  {
    hide Done, LeavesAlone, Apply, Enabled;
    if events != [] {
      StepLeavesDone(s, events[0], f, dedup);
      RunLeavesDone(Apply(s, events[0]), events[1..], f, dedup);
    }
  }

  /** Under its name, the file is stored in this form, as long as it has an entry. */
  ghost predicate StoredAs(s: State, f: FileId, n: Name, r: Repr) {
    f < s.next && (f in s.files ==> s.files[f].name == n && n in s.disk && s.disk[n] == r)
  }

  /** What the end of a compression stores: the packed form of the bytes that were there, and with it the mark, if it was
      successful and nobody has asked for the file; else nothing. */
  lemma CompressedIsStored(s: State, ok: bool)
    requires Inv(s) && Enabled(s, EndCompress(ok))
    ensures var f, n, s' := s.worker.file, s.files[s.worker.file].name, Apply(s, EndCompress(ok));
      var done := ok && !s.files[f].cancel;
      && n in s.disk && f in s'.files && s'.files[f].name == n
      && s'.disk == (if done then s.disk[n := Packed(s.disk[n].bytes)] else s.disk)
      && s'.files[f].compressed == (done || s.files[f].compressed)
  {
    hide Entries, Apart, Queued, Threads;
  }

  /** What the end of a hash stores: the link to the twin, if there is one, the hash was successful, and nobody has asked
      for the file. Unless somebody has, the entry is marked, also if the hash has failed. */
  lemma HashedIsLinked(s: State, ok: bool, twin: Option<Repr>)
    requires Inv(s) && Enabled(s, EndHash(ok, twin))
    ensures var f, n, s' := s.worker.file, s.files[s.worker.file].name, Apply(s, EndHash(ok, twin));
      var linked := ok && !s.files[f].cancel && twin.Some?;
      && f in s'.files && s'.files[f].name == n
      && s'.disk == (if linked then s.disk[n := twin.value] else s.disk)
      && s'.files[f].compressed == (if linked then twin.value.Packed? else s.files[f].compressed)
      && s'.files[f].deduped == (s.files[f].deduped || !ok || !s.files[f].cancel)
  {
    hide Entries, Apart, Queued, Threads;
  }

  /** A request on one file leaves what is stored under other names. */
  lemma RequestKeepsForm(s: State, t: ThreadId, g: FileId, r: Request, f: FileId, n: Name, p: Repr)
    requires g in s.files && g != f && s.files[g].name != n && StoredAs(s, f, n, p)
    ensures StoredAs(PerformOrSleep(s, t, g, r), f, n, p)
  {
  }

  lemma UsersKeepForm(s: State, e: Event, f: FileId, n: Name, p: Repr)
    requires Inv(s) && Enabled(s, e) && StoredAs(s, f, n, p) && LeavesAlone(s, e, f, false) && (e.Ask? || e.Wake?)
    requires f in s.files
    ensures StoredAs(Apply(s, e), f, n, p)
  {
    hide PerformOrSleep, Perform, RequestFits, Entries, Stable, Queued, Threads, Apart;
    match e
    case Ask(t, name, r, found) =>
      if found.Some? {
        if s.files[found.value].name == n {
          NamesApart(s, f, found.value);
        }
        RequestKeepsForm(SetFile(s, found.value, s.files[found.value].(deleted := false)), t, found.value, r, f, n, p);
      } else {
        EntryOf(s, f);
        NewIsFree(s, t, name, r);
        RequestKeepsForm(AddEntry(s, name), t, s.next, r, f, n, p);
      }
    case Wake(t) =>
      if s.files[ThreadOf(s, t).file].name == n {
        NamesApart(s, f, ThreadOf(s, t).file);
      }
      RequestKeepsForm(s, t, ThreadOf(s, t).file, ThreadOf(s, t).request, f, n, p);
  }

  lemma OthersKeepForm(s: State, e: Event, f: FileId, n: Name, p: Repr)
    requires Inv(s) && Enabled(s, e) && StoredAs(s, f, n, p) && LeavesAlone(s, e, f, false) && !e.Ask? && !e.Wake?
    requires f in s.files && p.Packed? && !WorkEnds(e) && !e.RenameEnd? && !e.Begin?
    ensures StoredAs(Apply(s, e), f, n, p)
  {
    hide Entries, Stable, Queued, Threads, Apart;
    EntryOf(s, f);
    match e
    case Write(_, g, _) =>
      if s.files[g].name == n {
        NamesApart(s, f, g);
      }
    case ReadFallback(_, g) =>
      if s.files[g].name == n {
        NamesApart(s, f, g);
      }
    case _ =>
  }

  lemma RenameKeepsForm(s: State, e: Event, f: FileId, n: Name, p: Repr)
    requires Inv(s) && Enabled(s, e) && StoredAs(s, f, n, p) && LeavesAlone(s, e, f, false) && e.RenameEnd? && f in s.files
    ensures StoredAs(Apply(s, e), f, n, p)
  {
    hide Entries, Stable, Queued, Threads, Apart;
    var BothPinned(from, to) := ThreadOf(s, e.t);
    if s.files[from].name == n {
      NamesApart(s, f, from);
    }
    if s.files[to].name == n {
      NamesApart(s, f, to);
    }
  }

  lemma BeginKeepsForm(s: State, e: Event, f: FileId, n: Name, p: Repr)
    requires Enabled(s, e) && StoredAs(s, f, n, p) && e.Begin? && f in s.files
    ensures StoredAs(Apply(s, e), f, n, p)
  {
  }

  lemma WorkKeepsForm(s: State, e: Event, f: FileId, n: Name, p: Repr)
    requires Inv(s) && Enabled(s, e) && StoredAs(s, f, n, p) && LeavesAlone(s, e, f, false)
    requires f in s.files && p.Packed? && WorkEnds(e)
    ensures StoredAs(Apply(s, e), f, n, p)
  {
    hide Entries, Queued, Threads, Apart;
    if s.worker.file != f && s.files[s.worker.file].name == n {
      NamesApart(s, f, s.worker.file);
    }
  }

  lemma StepKeepsForm(s: State, e: Event, f: FileId, n: Name, p: Repr)
    requires Inv(s) && Enabled(s, e) && StoredAs(s, f, n, p) && LeavesAlone(s, e, f, false) && p.Packed?
    ensures StoredAs(Apply(s, e), f, n, p)
  {
    hide Entries, Stable, Queued, Threads, Apart, LeavesAlone, Apply, Enabled;
    if f !in s.files {
      OldIdsStay(s, e, f);
    } else if e.Ask? || e.Wake? {
      UsersKeepForm(s, e, f, n, p);
    } else if WorkEnds(e) {
      WorkKeepsForm(s, e, f, n, p);
    } else if e.RenameEnd? {
      RenameKeepsForm(s, e, f, n, p);
    } else if e.Begin? {
      BeginKeepsForm(s, e, f, n, p);
    } else {
      OthersKeepForm(s, e, f, n, p);
    }
  }

  /** An entry that has been freed does not come back. */
  lemma OldIdsStay(s: State, e: Event, f: FileId)
    requires Inv(s) && Enabled(s, e) && f !in s.files && f < s.next
    ensures f !in Apply(s, e).files && f < Apply(s, e).next
  {
    hide Entries, Apart, Queued, Threads, PerformOrSleep;
    match e
    case Ask(t, name, r, found) =>
      if found.Some? {
        RequestKeepsIds(SetFile(s, found.value, s.files[found.value].(deleted := false)), t, found.value, r);
      } else {
        NewIsFree(s, t, name, r);
        RequestKeepsIds(AddEntry(s, name), t, s.next, r);
      }
    case Wake(t) => RequestKeepsIds(s, t, ThreadOf(s, t).file, ThreadOf(s, t).request);
    case _ =>
  }

  lemma RequestKeepsIds(s: State, t: ThreadId, g: FileId, r: Request)
    requires g in s.files
    ensures PerformOrSleep(s, t, g, r).files.Keys == s.files.Keys && PerformOrSleep(s, t, g, r).next == s.next
  {
  }

  lemma {:induction false} RunKeepsForm(s: State, events: seq<Event>, f: FileId, n: Name, p: Repr)
    requires Inv(s) && Legal(s, events) && StoredAs(s, f, n, p) && AllLeaveAlone(s, events, f, false) && p.Packed?
    ensures StoredAs(After(s, events), f, n, p)
    decreases |events|
  {
    hide Entries, Stable, Queued, Threads, Apart, LeavesAlone, Apply, Enabled, StoredAs;
    if events != [] {
      StepKept(s, events[0]);
      StepKeepsForm(s, events[0], f, n, p);
      RunKeepsForm(Apply(s, events[0]), events[1..], f, n, p);
    }
  }

  /** A file that has been compressed, or hashed with or without success, is not queued for the same again, however
      often it is looked up and purged, until somebody asks for it or changes it: an endless loop on unmounting is
      what the flags are there to prevent. And a compressed file rightly so: as long as it has an entry, it is stored
      in packed form with the bytes that it had. */
  lemma DoneWorkIsNotQueuedAgain(s: State, e: Event, events: seq<Event>)
    requires Inv(s) && Enabled(s, e) && WorkEnds(e) && Legal(Apply(s, e), events)
    requires AllLeaveAlone(Apply(s, e), events, s.worker.file, e.EndHash?)
    requires !(e.ok && s.files[s.worker.file].cancel) && (e.EndCompress? ==> e.ok)
    ensures Job(s.worker.file, e.EndHash?) !in After(Apply(s, e), events).queue
    ensures e.EndCompress? ==> var n := s.files[s.worker.file].name;
      n in s.disk && StoredAs(After(Apply(s, e), events), s.worker.file, n, Packed(s.disk[n].bytes))
  {
    hide Apart, Stable, Queued, Threads, Entries;
    EntryOf(s, s.worker.file);
    NotInQueue(s.queue, Job(s.worker.file, e.EndHash?));
    RunLeavesDone(Apply(s, e), events, s.worker.file, e.EndHash?);
    if e.EndCompress? {
      CompressedIsStored(s, true);
      StepKept(s, e);
      var n := s.files[s.worker.file].name;
      RunKeepsForm(Apply(s, e), events, s.worker.file, n, Packed(s.disk[n].bytes));
    }
  }

  lemma {:induction false} NotInQueue(queue: seq<Job>, job: Job)
    requires QueueCount(queue, job.file) == 0
    ensures job !in queue
  {
    if queue != [] {
      NotInQueue(queue[1..], job);
    }
  }

  /** A sleeper is not counted, so the file can be freed under him: by a purge, and only if he has been woken already
      or the hash of the file has failed. */
  lemma FreedUnderASleeperOnlyIf(s: State, e: Event, t: ThreadId)
    requires Inv(s) && Enabled(s, e) && ThreadOf(s, t).Sleeping? && ThreadOf(s, t).file in s.files
    requires ThreadOf(s, t).file !in Apply(s, e).files
    ensures e.Purge? && e.file == ThreadOf(s, t).file
    ensures ThreadOf(s, t).woken || ThreadOf(s, t).file in s.failed
  {
    hide Apart, Stable, Queued, Threads, Apply, Enabled;
    OnlyPurgesFree(s, e, ThreadOf(s, t).file);
    ThreadIs(s, t);
    EntryOf(s, ThreadOf(s, t).file);
  }

  lemma OnlyPurgesFree(s: State, e: Event, f: FileId)
    requires Enabled(s, e) && f in s.files && f !in Apply(s, e).files
    ensures e.Purge? && e.file == f && s.files[f].accesses == 0
  {
    hide PerformOrSleep, RequestFits, Finds, FinishCompress, FinishHash, BeginJob;
    match e
    case Ask(t, name, r, found) =>
      FoundIsThere(s, name, found);
      if found.Some? {
        RequestKeepsFiles(SetFile(s, found.value, s.files[found.value].(deleted := false)), t, found.value, r, f);
      } else {
        RequestKeepsFiles(AddEntry(s, name), t, s.next, r, f);
        NewIsFree(s, t, name, r);
      }
    case Wake(t) => RequestKeepsFiles(s, t, ThreadOf(s, t).file, ThreadOf(s, t).request, f);
    case Look(name, found, _) => FoundIsThere(s, name, found);
    case Begin(admitted, big, chosen) => WorkKeepsFiles(s, e, f);
    case EndCompress(_) => WorkKeepsFiles(s, e, f);
    case EndHash(_, _) => WorkKeepsFiles(s, e, f);
    case _ =>
  }

  lemma RequestKeepsFiles(s: State, t: ThreadId, g: FileId, r: Request, f: FileId)
    requires g in s.files && f in s.files
    ensures f in PerformOrSleep(s, t, g, r).files
  {
  }

  lemma WorkKeepsFiles(s: State, e: Event, f: FileId)
    requires Enabled(s, e) && f in s.files && (e.Begin? || e.EndCompress? || e.EndHash?)
    ensures f in Apply(s, e).files
  {
  }

  // ----- Renames -----

  /** How many other renames and workers hold on to the old name's file when a rename ends. */
  ghost function OthersOn(s: State, t: ThreadId, f: FileId): nat {
    InFlight(s.worker, f) + |Pinners(s.threads, f) - {t}|
  }

  /** After a rename the old entry has passed everything on: it keeps no descriptor and no queue entry, and
      what is still counted is the worker and other renames. */
  lemma RenamePassesEverythingOn(s: State, t: ThreadId)
    requires Inv(s) && Enabled(s, RenameEnd(t, true))
    requires s.files[ThreadOf(s, t).from].name in s.disk
    ensures var BothPinned(from, to) := ThreadOf(s, t);
      var s' := Apply(s, RenameEnd(t, true));
      && s'.files[from].descriptors == {} && QueueCount(s'.queue, from) == 0 && s'.files[from].deleted
      && s'.files[to].descriptors == s.files[to].descriptors + s.files[from].descriptors
      && s'.files[to].compressed == s.files[from].compressed && s'.files[to].deduped == s.files[from].deduped
      && s'.files[from].accesses == OthersOn(s, t, from)
  {
    hide Apart, Stable, Queued;
    var BothPinned(from, to) := ThreadOf(s, t);
    ThreadIs(s, t);
    EntryOf(s, from);
    NotQueued(s.queue, from);
    MovedJobs(s.queue, from, to, from);
    SizeWithout(Pinners(s.threads, from), t);
  }

  /** The assertion at the end of `direct_rename` holds exactly when at most one of the worker and the other
      renames still holds on to the old entry; so it holds whenever no other rename of the same file is in
      progress. */
  lemma RenameAssertionHoldsIff(s: State, t: ThreadId)
    requires Inv(s) && Enabled(s, RenameEnd(t, true))
    requires s.files[ThreadOf(s, t).from].name in s.disk
    ensures var from := ThreadOf(s, t).from;
      && (Apply(s, RenameEnd(t, true)).files[from].accesses <= 1 <==> OthersOn(s, t, from) <= 1)
      && ((forall u :: u in s.threads && u != t ==> !Pins(s.threads[u], from)) ==> OthersOn(s, t, from) <= 1)
  {
    hide Entries, Apart, Stable, Queued, Threads;
    var from := ThreadOf(s, t).from;
    RenamePassesEverythingOn(s, t);
    if forall u :: u in s.threads && u != t ==> !Pins(s.threads[u], from) {
      assert Pinners(s.threads, from) - {t} == {};
    }
  }

  // ----- Runs that show where the guarantees end -----

  /** `events` lead from `start` to `s`. */
  predicate Leads(start: State, events: seq<Event>, s: State) {
    Legal(start, events) && After(start, events) == s
  }

  lemma {:induction false} OneMore(start: State, events: seq<Event>, s: State, e: Event)
    requires Leads(start, events, s) && Enabled(s, e)
    ensures Leads(start, events + [e], Apply(s, e))
    decreases |events|
  {
    if events == [] {
      assert events + [e] == [e];
      assert Legal(Apply(start, e), []);
    } else {
      OneMore(Apply(start, events[0]), events[1..], s, e);
      assert (events + [e])[1..] == events[1..] + [e];
    }
  }

  function Fresh(disk: map<Name, Repr>): (s: State)
    ensures Initial(s)
  {
    State(map[], 0, [], Idle, map[], disk, {})
  }

  /** A file `a` that the first `k` of three threads have begun to rename. */
  function Asked(a: Name, b: Name, k: nat): State {
    var s := Fresh(map[a := Plain([])]);
    var th := map[1 := Pinned(0, b)];
    s.(files := map[0 := NewEntry(a).(accesses := k)], next := 1,
       threads := if k == 1 then th else if k == 2 then th[2 := Pinned(0, b)] else th[2 := Pinned(0, b)][3 := Pinned(0, b)])
  }

  lemma FirstAsk(a: Name, b: Name)
    requires a != b
    ensures var s, e := Fresh(map[a := Plain([])]), Ask(1, a, RenameFrom(b), None);
      Enabled(s, e) && Apply(s, e) == Asked(a, b, 1)
  {
  }

  lemma NextAsk(a: Name, b: Name, t: ThreadId)
    requires a != b && 2 <= t <= 3
    ensures var s, e := Asked(a, b, t - 1), Ask(t, a, RenameFrom(b), Some(0));
      Enabled(s, e) && Apply(s, e) == Asked(a, b, t)
  {
  }

  /** Thread 1 renames `a` to `b` while threads 2 and 3 are about to rename `a` too. */
  lemma ThreeRenamesTripTheAssertion(a: Name, b: Name)
    returns (start: State, events: seq<Event>, s: State)
    requires a != b
    ensures Initial(start) && Leads(start, events, s) && Enabled(s, RenameEnd(1, true))
    ensures ThreadOf(s, 1) == BothPinned(0, 1) && Apply(s, RenameEnd(1, true)).files[0].accesses == 2
  {
    hide Leads;
    start := Fresh(map[a := Plain([])]);
    FirstAsk(a, b);
    NextAsk(a, b, 2);
    NextAsk(a, b, 3);
    var (e1, e2, e3) := (Ask(1, a, RenameFrom(b), None), Ask(2, a, RenameFrom(b), Some(0)), Ask(3, a, RenameFrom(b), Some(0)));
    LeadsNowhere(start);
    OneMore(start, [], start, e1);
    var s1 := Apply(start, e1);
    OneMore(start, [] + [e1], s1, e2);
    var s2 := Apply(s1, e2);
    OneMore(start, [] + [e1] + [e2], s2, e3);
    var s3 := Apply(s2, e3);
    var e4 := Ask(1, b, RenameTo(0), None);
    OneMore(start, [] + [e1] + [e2] + [e3], s3, e4);
    events, s := [] + [e1] + [e2] + [e3] + [e4], Apply(s3, e4);
    ThirdRenameEnds(s3, a, b);
  }

  lemma LeadsNowhere(start: State)
    ensures Leads(start, [], start)
  {
  }

  lemma ThirdRenameEnds(s3: State, a: Name, b: Name)
    requires a != b && s3.next == 1 && s3.queue == [] && a in s3.disk && s3.files == map[0 := NewEntry(a).(accesses := 3)]
    requires ThreadOf(s3, 1) == Pinned(0, b)
    ensures var s := Apply(s3, Ask(1, b, RenameTo(0), None));
      && Enabled(s, RenameEnd(1, true)) && ThreadOf(s, 1) == BothPinned(0, 1)
      && Apply(s, RenameEnd(1, true)).files[0].accesses == 2
  {
    var s := Apply(s3, Ask(1, b, RenameTo(0), None));
    assert s.files[0] == NewEntry(a).(accesses := 3) && s.files[1] == NewEntry(b).(accesses := 1);
  }

  /** A file is hashed while thread 1 wants to open it; the hash fails, and thread 1 sleeps on for a worker
      that has gone. */
  lemma AFailedHashAbandonsASleeper(a: Name)
    returns (start: State, events: seq<Event>, s: State)
    ensures Initial(start) && Leads(start, events, s)
    ensures AsleepOn(s, 1, 0) && s.worker == Idle && 0 in s.files && s.files[0].Busy()
  {
    hide Leads;
    start := Fresh(map[a := Plain([])]);
    LeadsNowhere(start);
    var e1, e2, e4 := Ask(1, a, Truncate([]), None), Purge(0, false, true), Begin(true, true, true);
    QueuedForHashing(a);
    OneMore(start, [], start, e1);
    var s1 := Apply(start, e1);
    OneMore(start, [] + [e1], s1, e2);
    var s2 := Apply(s1, e2);
    OneMore(start, [] + [e1] + [e2], s2, Fetch);
    var s3 := Apply(s2, Fetch);
    OneMore(start, [] + [e1] + [e2] + [Fetch], s3, e4);
    var s4 := Apply(s3, e4);
    var e5 := Ask(1, a, Open(7), Some(0));
    AskedWhileHashing(s4, a);
    OneMore(start, [] + [e1] + [e2] + [Fetch] + [e4], s4, e5);
    var s5 := Apply(s4, e5);
    OneMore(start, [] + [e1] + [e2] + [Fetch] + [e4] + [e5], s5, EndHash(false, None));
    events := [] + [e1] + [e2] + [Fetch] + [e4] + [e5] + [EndHash(false, None)];
    s := Apply(s5, EndHash(false, None));
  }

  lemma QueuedForHashing(a: Name)
    ensures var s := Fresh(map[a := Plain([])]); var x := NewEntry(a).(deduped := false);
      var s1 := s.(files := map[0 := x], next := 1, threads := map[1 := Resting]);
      var s2 := s1.(files := map[0 := x.(accesses := 1)], queue := [Job(0, true)]);
      var s3 := s2.(queue := [], worker := Fetched(Job(0, true)));
      var s4 := s3.(files := map[0 := x.(accesses := 1, deduping := true)], worker := Hashing(0, Some([])));
      && Enabled(s, Ask(1, a, Truncate([]), None)) && Apply(s, Ask(1, a, Truncate([]), None)) == s1
      && Enabled(s1, Purge(0, false, true)) && Apply(s1, Purge(0, false, true)) == s2
      && Enabled(s2, Fetch) && Apply(s2, Fetch) == s3
      && Enabled(s3, Begin(true, true, true)) && Apply(s3, Begin(true, true, true)) == s4
  {
    var s := Fresh(map[a := Plain([])]);
    var s1 := Apply(s, Ask(1, a, Truncate([]), None));
    assert s1.disk == s.disk;
    assert s1.files == map[0 := NewEntry(a).(deduped := false)];
  }

  lemma AskedWhileHashing(s: State, a: Name)
    requires s.files.Keys == {0} && s.files[0].name == a && s.files[0].deduping && !s.files[0].cancel
    requires s.files[0].descriptors == {} && s.worker == Hashing(0, Some([])) && ThreadOf(s, 1) == Resting
    ensures Enabled(s, Ask(1, a, Open(7), Some(0)))
    ensures var s' := Apply(s, Ask(1, a, Open(7), Some(0)));
      && Enabled(s', EndHash(false, None))
      && var s'' := Apply(s', EndHash(false, None));
         AsleepOn(s'', 1, 0) && s''.worker == Idle && 0 in s''.files && s''.files[0].Busy()
  {
  }

  /** A file is hashed while thread 1 wants to open it. The worker gives up and wakes thread 1, and before that gets
      the lock, a purge frees the file. */
  lemma APurgeFreesAWokenSleepersFile(a: Name)
    returns (start: State, events: seq<Event>, s: State)
    ensures Initial(start) && Leads(start, events, s)
    ensures ThreadOf(s, 1) == Sleeping(0, Open(7), true) && 0 !in s.files && s.failed == {}
  {
    hide Leads;
    start := Fresh(map[a := Plain([])]);
    LeadsNowhere(start);
    var e1, e2, e4 := Ask(1, a, Truncate([]), None), Purge(0, false, true), Begin(true, true, true);
    QueuedForHashing(a);
    OneMore(start, [], start, e1);
    var s1 := Apply(start, e1);
    OneMore(start, [] + [e1], s1, e2);
    var s2 := Apply(s1, e2);
    OneMore(start, [] + [e1] + [e2], s2, Fetch);
    var s3 := Apply(s2, Fetch);
    OneMore(start, [] + [e1] + [e2] + [Fetch], s3, e4);
    var s4 := Apply(s3, e4);
    var e5 := Ask(1, a, Open(7), Some(0));
    CancelledWhileHashing(s4, a);
    OneMore(start, [] + [e1] + [e2] + [Fetch] + [e4], s4, e5);
    var s5 := Apply(s4, e5);
    OneMore(start, [] + [e1] + [e2] + [Fetch] + [e4] + [e5], s5, EndHash(true, None));
    var s6 := Apply(s5, EndHash(true, None));
    OneMore(start, [] + [e1] + [e2] + [Fetch] + [e4] + [e5] + [EndHash(true, None)], s6, Purge(0, false, false));
    events := [] + [e1] + [e2] + [Fetch] + [e4] + [e5] + [EndHash(true, None)] + [Purge(0, false, false)];
    s := Apply(s6, Purge(0, false, false));
  }

  lemma CancelledWhileHashing(s: State, a: Name)
    requires s.files.Keys == {0} && s.files[0].name == a && s.files[0].deduping && !s.files[0].cancel
    requires s.files[0].accesses == 1 && s.failed == {}
    requires s.files[0].descriptors == {} && s.worker == Hashing(0, Some([])) && ThreadOf(s, 1) == Resting
    ensures Enabled(s, Ask(1, a, Open(7), Some(0)))
    ensures var s' := Apply(s, Ask(1, a, Open(7), Some(0)));
      && Enabled(s', EndHash(true, None))
      && var s'' := Apply(s', EndHash(true, None));
         && Enabled(s'', Purge(0, false, false)) && ThreadOf(s'', 1) == Sleeping(0, Open(7), true)
         && var s3 := Apply(s'', Purge(0, false, false));
            ThreadOf(s3, 1) == Sleeping(0, Open(7), true) && 0 !in s3.files && s3.failed == {}
  {
    var s' := Apply(s, Ask(1, a, Open(7), Some(0)));
    assert ThreadOf(s', 1) == Sleeping(0, Open(7), false) && s'.files[0].cancel;
    var s'' := Apply(s', EndHash(true, None));
    assert s''.files[0].accesses == 0;
  }
}
