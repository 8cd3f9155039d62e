/**
 What the protocol brings about: nobody is refused, work that is begun comes to an end and leaves the file in its new
 form, who waits for it gets the file, and the compressor that an open file's entry names is that of the stored file.
 */
module Progress {
  import opened Bytes
  import opened Protocol

  // ----- Nobody is refused -----

  /** Whoever rests may ask for anything, about any name; the entry is found, or there is none. */
  lemma AnyoneMayAsk(s: State, t: ThreadId, name: Name, r: Request)
    requires ThreadOf(s, t) == Resting && !r.RenameTo?
    requires r.Open? ==> forall f :: f in s.files ==> r.d !in s.files[f].descriptors
    requires r.RenameFrom? ==> r.to != name
    ensures exists found :: Enabled(s, Ask(t, name, r, found))
    ensures exists found :: Enabled(s, Look(name, found, true)) && Enabled(s, Look(name, found, false))
  {
    if f :| f in s.files && s.files[f].name == name {
      assert Enabled(s, Ask(t, name, r, Some(f))) && Enabled(s, Look(name, Some(f), true));
    } else {
      assert Enabled(s, Ask(t, name, r, None)) && Enabled(s, Look(name, None, true));
    }
  }

  /** Who holds a descriptor may write, read and release; a rename goes on to its second file and ends; unused files are
      purged; and the worker, whatever it is at, can go on. */
  lemma EveryoneCanGoOn(s: State, t: ThreadId, f: FileId, d: DescriptorId)
    requires Inv(s)
    ensures f in s.files && d in s.files[f].descriptors ==>
              Enabled(s, Release(d, f)) && Enabled(s, ReadFallback(d, f)) && forall r :: Enabled(s, Write(d, f, r))
    ensures ThreadOf(s, t).Pinned? ==>
              exists found :: Enabled(s, Ask(t, ThreadOf(s, t).to, RenameTo(ThreadOf(s, t).from), found))
    ensures ThreadOf(s, t).BothPinned? ==> Enabled(s, RenameEnd(t, true)) && Enabled(s, RenameEnd(t, false))
    ensures var th := ThreadOf(s, t);
      th.Sleeping? && th.file in s.files && (th.request.Open? ==> UnusedDescriptor(s, th.request.d)) ==> Enabled(s, Wake(t))
    ensures f in s.files && s.files[f].accesses == 0 ==> forall c, h :: Enabled(s, Purge(f, c, h))
    ensures match s.worker
            case Idle => s.queue != [] ==> Enabled(s, Fetch)
            case Fetched(_) => forall a, b, c :: Enabled(s, Begin(a, b, c))
            case Compressing(_, _) => Enabled(s, EndCompress(true)) && Enabled(s, EndCompress(false))
            case Hashing(_, seen) => Enabled(s, EndHash(false, None)) && (seen.Some? ==> Enabled(s, EndHash(true, None)))
  {
    hide Entries, Apart, Queued, Threads;
    ThreadIs(s, t);
    if ThreadOf(s, t).Pinned? {
      var name, r := ThreadOf(s, t).to, RenameTo(ThreadOf(s, t).from);
      if g :| g in s.files && s.files[g].name == name {
        assert Enabled(s, Ask(t, name, r, Some(g)));
      } else {
        assert Enabled(s, Ask(t, name, r, None));
      }
    }
  }

  /** Opening a file that the worker does not hold takes hold of it, if it exists: the new descriptor is on its entry, and
      the entry says which form it is stored in. */
  lemma OpenTakesHold(s: State, t: ThreadId, name: Name, d: DescriptorId, found: Option<FileId>)
    requires Enabled(s, Ask(t, name, Open(d), found)) && (found.Some? ==> !s.files[found.value].Busy())
    ensures var s', f := Apply(s, Ask(t, name, Open(d), found)), if found.Some? then found.value else s.next;
      && f in s'.files && s'.files[f].name == name && !s'.files[f].deleted && s'.disk == s.disk && ThreadOf(s', t) == Resting
      && (d in s'.files[f].descriptors <==> name in s.disk)
      && (name in s.disk ==> (s'.files[f].compressed <==> s.disk[name].Packed?))
  {
  }

  /** Removing a file that the worker does not hold removes the name, and the entry is marked exactly if there was
      something to remove. */
  lemma RemovedIsMarked(s: State, t: ThreadId, name: Name, found: Option<FileId>)
    requires Enabled(s, Ask(t, name, Unlink, found)) && (found.Some? ==> !s.files[found.value].Busy())
    ensures var s', f := Apply(s, Ask(t, name, Unlink, found)), if found.Some? then found.value else s.next;
      && s'.disk == s.disk - {name} && f in s'.files && s'.files[f].name == name && !s'.files[f].deduped
      && (s'.files[f].deleted <==> name in s.disk)
  {
  }

  /** A lookup makes an entry or finds it, and stores nothing; only of a stale one the form is read from the disk. */
  lemma LookFinds(s: State, name: Name, found: Option<FileId>, stale: bool)
    requires Enabled(s, Look(name, found, stale))
    ensures var s', f := Apply(s, Look(name, found, stale)), if found.Some? then found.value else s.next;
      && s'.disk == s.disk && f in s'.files && s'.files[f].name == name && !s'.files[f].deleted
      && (stale && name in s.disk ==> (s'.files[f].compressed <==> s.disk[name].Packed?))
      && (found.Some? && !stale ==> s'.files[f].compressed == s.files[f].compressed)
  {
  }

  // ----- Work comes to its end -----

  /** A file that nobody uses, and a worker with nothing to do. */
  ghost predicate Unused(s: State, f: FileId) {
    && s.worker == Idle && s.queue == []
    && f in s.files && s.files[f].accesses == 0 && !s.files[f].deleted && !s.files[f].Busy() && !s.files[f].cancel
    && s.files[f].name in s.disk
  }

  /** The state in which the worker has a job for the file. */
  function Given(s: State, f: FileId, w: Worker): State
    requires f in s.files
  {
    var x := s.files[f].(accesses := 1, compressing := w.Compressing?, deduping := w.Hashing?);
    SetFile(s, f, x).(worker := w)
  }

  lemma JobIsTaken(s: State, f: FileId, c: bool, h: bool, dedup: bool)
    requires Unused(s, f)
    requires if dedup then !s.files[f].deduped && h && !(c && !s.files[f].compressed) else !s.files[f].compressed && c
    ensures Enabled(s, Purge(f, c, h)) && Enabled(Apply(s, Purge(f, c, h)), Fetch)
    ensures Apply(Apply(s, Purge(f, c, h)), Fetch) == Given(s, f, Fetched(Job(f, dedup)))
  {
    var s1 := Apply(s, Purge(f, c, h));
    assert s1.queue == [Job(f, dedup)];
    assert s1.queue[1..] == [];
  }

  /** Nobody but the worker holds the file. */
  ghost predicate Alone(s: State, f: FileId)
    requires f in s.files
  {
    && s.files[f].descriptors == {} && (forall j :: j in s.queue ==> j.file != f)
    && forall t :: t in s.threads ==> !Pins(s.threads[t], f)
  }

  lemma AloneIff(s: State, f: FileId)
    requires Inv(s) && s.worker.Fetched? && s.worker.job.file == f && f in s.files
    ensures Alone(s, f) <==> s.files[f].accesses == 1
  {
    hide Apart, Queued, Threads;
    EntryOf(s, f);
    NotQueued(s.queue, f);
    NoPins(s.threads, f);
  }

  /** The worker goes to work on the file that it has fetched if and only if it has it for itself and there is something
      to do: it remembers the bytes that are there. Otherwise it lets go of the file, and nothing is stored; of one that
      is packed already it takes note. */
  lemma WorkIsTakenUpIff(s: State, admitted: bool, big: bool, chosen: bool)
    requires Inv(s) && s.worker.Fetched?
    ensures s.worker.job.file in s.files
    ensures var job, f := s.worker.job, s.worker.job.file;
      var x, s' := s.files[f], Apply(s, Begin(admitted, big, chosen));
      var open := Alone(s, f) && !x.deleted;
      var fit := open && !job.dedup && !x.compressed && admitted && big && x.name in s.disk;
      && s'.disk == s.disk && f in s'.files
      && (if job.dedup && open then s'.worker == Hashing(f, Visible(s.disk, x.name))
          else if fit && chosen && s.disk[x.name].Plain? then s'.worker == Compressing(f, s.disk[x.name].bytes)
          else s'.worker == Idle && s'.files[f].accesses == x.accesses - 1 && s'.files[f].Busy() == x.Busy())
      && (s'.files[f].compressed <==> x.compressed || (fit && s.disk[x.name].Packed?))
  {
    hide Apart, Queued, Threads, Alone;
    assert s.worker.job.file in s.files;
    AloneIff(s, s.worker.job.file);
  }

  /** A plain file that nobody uses is queued when it is purged. If it is big enough and fit to be compressed, and nobody
      asks for it meanwhile, it is packed in the end, with its bytes, and nobody holds it. */
  lemma APlainFileIsPacked(s: State, f: FileId, h: bool)
    requires Unused(s, f) && s.disk[s.files[f].name].Plain? && !s.files[f].compressed
    ensures var events, n := [Purge(f, true, h), Fetch, Begin(true, true, true), EndCompress(true)], s.files[f].name;
      Legal(s, events) &&
      var s' := After(s, events);
      && s'.disk == s.disk[n := Packed(s.disk[n].bytes)] && s'.worker == Idle && s'.queue == []
      && f in s'.files && s'.files[f].name == n && s'.files[f].compressed && !s'.files[f].Busy() && s'.files[f].accesses == 0
  {
    JobIsTaken(s, f, true, h, false);
    var n := s.files[f].name;
    var s2, s3 := Given(s, f, Fetched(Job(f, false))), Given(s, f, Compressing(f, s.disk[n].bytes));
    assert Enabled(s2, Begin(true, true, true)) && Apply(s2, Begin(true, true, true)) == s3;
    assert Enabled(s3, EndCompress(true));
    FourSteps(s, Purge(f, true, h), Fetch, Begin(true, true, true), EndCompress(true));
  }

  /** A file that has its final form is hashed, and replaced by a link to its twin, if there is one. */
  lemma AFileIsDeduplicated(s: State, f: FileId, c: bool, b: Event, twin: Option<Repr>)
    requires Unused(s, f) && !s.files[f].deduped && (c ==> s.files[f].compressed) && b.Begin?
    requires twin.Some? ==> twin.value.bytes == s.disk[s.files[f].name].bytes
    ensures var events, n := [Purge(f, c, true), Fetch, b, EndHash(true, twin)], s.files[f].name;
      Legal(s, events) &&
      var s' := After(s, events);
      && s'.disk == (if twin.Some? then s.disk[n := twin.value] else s.disk) && s'.worker == Idle && s'.queue == []
      && f in s'.files && s'.files[f].name == n && s'.files[f].deduped && !s'.files[f].Busy() && s'.files[f].accesses == 0
  {
    JobIsTaken(s, f, c, true, true);
    var s2, s3 := Given(s, f, Fetched(Job(f, true))), Given(s, f, Hashing(f, Visible(s.disk, s.files[f].name)));
    assert Enabled(s2, b) && Apply(s2, b) == s3;
    assert Enabled(s3, EndHash(true, twin));
    FourSteps(s, Purge(f, c, true), Fetch, b, EndHash(true, twin));
  }

  lemma FourSteps(s: State, a: Event, b: Event, c: Event, d: Event)
    requires Enabled(s, a) && Enabled(Apply(s, a), b) && Enabled(Apply(Apply(s, a), b), c)
    requires Enabled(Apply(Apply(Apply(s, a), b), c), d)
    ensures Legal(s, [a, b, c, d]) && After(s, [a, b, c, d]) == Apply(Apply(Apply(Apply(s, a), b), c), d)
  {
    hide Enabled, Apply;
    assert [a, b, c, d][1..] == [b, c, d];
    ThreeSteps(Apply(s, a), b, c, d);
  }

  lemma ThreeSteps(s: State, a: Event, b: Event, c: Event)
    requires Enabled(s, a) && Enabled(Apply(s, a), b) && Enabled(Apply(Apply(s, a), b), c)
    ensures Legal(s, [a, b, c]) && After(s, [a, b, c]) == Apply(Apply(Apply(s, a), b), c)
  {
    hide Enabled, Apply;
    assert [a, b, c][1..] == [b, c] && [b, c][1..] == [c] && [c][1..] == [];
    var s1, s2 := Apply(s, a), Apply(Apply(s, a), b);
    assert Legal(s2, [c]) && After(s2, [c]) == Apply(s2, c);
    assert Legal(s1, [b, c]) && After(s1, [b, c]) == After(s2, [c]);
  }

  /** A user who opens the file that is being compressed waits until the worker has given up, whatever has come of it, and
      gets the file as it was; unless a hash of that file has failed before. */
  lemma WhoWaitsGetsTheFile(s: State, t: ThreadId, f: FileId, d: DescriptorId, ok: bool)
    requires Inv(s) && s.worker.Compressing? && s.worker.file == f && f !in s.failed && ThreadOf(s, t) == Resting
    requires f in s.files && forall g :: g in s.files ==> d !in s.files[g].descriptors
    ensures var events, n := [Ask(t, s.files[f].name, Open(d), Some(f)), EndCompress(ok), Wake(t)], s.files[f].name;
      Legal(s, events) &&
      var s' := After(s, events);
      && s'.disk == s.disk && s'.worker == Idle && ThreadOf(s', t) == Resting && n in s.disk
      && f in s'.files && s'.files[f].name == n && s'.files[f].descriptors == {d} && !s'.files[f].Busy()
      && (s'.files[f].compressed <==> s.disk[n].Packed?)
  {
    hide Entries, Apart, Queued, Threads;
    EntryOf(s, f);
    var a := Ask(t, s.files[f].name, Open(d), Some(f));
    assert Enabled(s, a) && Visible(s.disk, s.files[f].name) == Some(s.worker.source);
    var s1 := Apply(s, a);
    assert s1.worker == s.worker && f in s1.files && s1.files[f] == s.files[f].(deleted := false, cancel := true);
    assert ThreadOf(s1, t) == Sleeping(f, Open(d), false) && s1.disk == s.disk;
    AfterCancelling(s1, t, f, d, ok);
    ThreeSteps(s, a, EndCompress(ok), Wake(t));
  }

  lemma AfterCancelling(s: State, t: ThreadId, f: FileId, d: DescriptorId, ok: bool)
    requires s.worker.Compressing? && s.worker.file == f && f in s.files && s.files[f].cancel && !s.files[f].deduping
    requires ThreadOf(s, t).Sleeping? && ThreadOf(s, t).file == f && ThreadOf(s, t).request == Open(d)
    requires s.files[f].name in s.disk && s.files[f].descriptors == {}
    requires forall g :: g in s.files ==> d !in s.files[g].descriptors
    ensures Enabled(s, EndCompress(ok)) && Enabled(Apply(s, EndCompress(ok)), Wake(t))
    ensures var s' := Apply(Apply(s, EndCompress(ok)), Wake(t));
      && s'.disk == s.disk && s'.worker == Idle && ThreadOf(s', t) == Resting
      && f in s'.files && s'.files[f].name == s.files[f].name && s'.files[f].descriptors == {d} && !s'.files[f].Busy()
      && (s'.files[f].compressed <==> s.disk[s.files[f].name].Packed?)
  {
    var s2 := Apply(s, EndCompress(ok));
    assert s2.disk == s.disk && s2.worker == Idle && !s2.files[f].Busy() && s2.files[f].descriptors == {};
    assert ThreadOf(s2, t) == Sleeping(f, Open(d), true);
  }

  /** A purge frees the file if and only if nothing is left to do for it; else it is counted and queued for that, for
      compression first. */
  lemma PurgeFreesIff(s: State, f: FileId, compressible: bool, dedupable: bool)
    requires Enabled(s, Purge(f, compressible, dedupable))
    ensures var x, s' := s.files[f], Apply(s, Purge(f, compressible, dedupable));
      var toPack, toHash := !x.deleted && compressible && !x.compressed, !x.deleted && dedupable && !x.deduped;
      && (f !in s'.files <==> !toPack && !toHash)
      && (f in s'.files ==> s'.queue == s.queue + [Job(f, !toPack)] && s'.files[f] == x.(accesses := 1))
      && (f !in s'.files ==> s'.queue == s.queue)
      && forall g :: g in s.files && g != f ==> g in s'.files && s'.files[g] == s.files[g]
  {
  }

  // ----- What has changed is hashed again -----

  /** Whoever changes the bytes of an existing file clears its mark, so that it will be hashed again; only a rename, which
      brings another file, brings that one's mark with it. */
  lemma ChangesClearTheMark(s: State, e: Event, f: FileId)
    requires Inv(s) && Enabled(s, e) && f in s.files && f in Apply(s, e).files && !e.RenameEnd?
    requires var n := s.files[f].name; n in s.disk && Visible(Apply(s, e).disk, n) != Visible(s.disk, n)
    ensures !Apply(s, e).files[f].deduped
  {
    hide Entries, Stable, Queued, Threads, Apart, Apply;
    if e.Ask? || e.Wake? {
      RequestStepClears(s, e, f);
    } else if WorkerStep(e) {
      NothingChanges(s, e, s.files[f].name);
    } else {
      HolderStepClears(s, e, f);
    }
  }

  lemma RequestStepClears(s: State, e: Event, f: FileId)
    requires Inv(s) && Enabled(s, e) && f in s.files && (e.Ask? || e.Wake?)
    ensures var s', n := Apply(s, e), s.files[f].name;
      f in s'.files && (n in s.disk && Visible(s'.disk, n) != Visible(s.disk, n) ==> !s'.files[f].deduped)
  {
    hide PerformOrSleep, Perform, RequestFits, Entries, Stable, Queued, Threads, Apart;
    match e
    case Ask(t, name, r, found) =>
      if found.Some? {
        if s.files[f].name == s.files[found.value].name {
          NamesApart(s, f, found.value);
        }
        RequestClears(SetFile(s, found.value, s.files[found.value].(deleted := false)), t, found.value, r, f);
      } else {
        EntryOf(s, f);
        NewIsFree(s, t, name, r);
        RequestClears(AddEntry(s, name), t, s.next, r, f);
      }
    case Wake(t) =>
      if s.files[f].name == s.files[ThreadOf(s, t).file].name {
        NamesApart(s, f, ThreadOf(s, t).file);
      }
      RequestClears(s, t, ThreadOf(s, t).file, ThreadOf(s, t).request, f);
  }

  lemma HolderStepClears(s: State, e: Event, f: FileId)
    requires Inv(s) && Enabled(s, e) && f in s.files && (e.Look? || e.Write? || e.ReadFallback? || e.Release?)
    ensures var s', n := Apply(s, e), s.files[f].name;
      f in s'.files && (n in s.disk && Visible(s'.disk, n) != Visible(s.disk, n) ==> !s'.files[f].deduped)
  {
    hide Entries, Stable, Queued, Threads, Apart;
    if e.Write? && s.files[e.file].name == s.files[f].name {
      NamesApart(s, f, e.file);
    }
  }

  lemma RequestClears(s: State, t: ThreadId, g: FileId, r: Request, f: FileId)
    requires g in s.files && f in s.files && (s.files[g].name == s.files[f].name ==> f == g)
    ensures var s', n := PerformOrSleep(s, t, g, r), s.files[f].name;
      f in s'.files && (n in s.disk && Visible(s'.disk, n) != Visible(s.disk, n) ==> !s'.files[f].deduped)
  {
  }

  lemma NothingChanges(s: State, e: Event, n: Name)
    requires Inv(s) && Enabled(s, e) && WorkerStep(e)
    ensures Visible(Apply(s, e).disk, n) == Visible(s.disk, n)
  {
    hide Entries, Stable, Queued, Threads, Apart, Apply, Enabled;
    WorkerKeepsContents(s, e);
    var was, now := s.disk, Apply(s, e).disk;
    assert n in Contents(now) <==> n in Contents(was);
    assert n in now ==> Contents(now)[n] == now[n].bytes;
    assert n in was ==> Contents(was)[n] == was[n].bytes;
  }

  /** The worker itself clears the mark of a file that it was to compress, whatever came of it: its entry in the table is
      given up. */
  lemma CompressionClearsTheMark(s: State, e: Event)
    requires Inv(s) && Enabled(s, e)
    requires e.EndCompress? || (e.Begin? && !s.worker.job.dedup && !Apply(s, e).worker.Compressing?)
    ensures var f := if e.EndCompress? then s.worker.file else s.worker.job.file;
      f in Apply(s, e).files && !Apply(s, e).files[f].deduped
  {
  }

  // ----- The compressor that the entry names -----

  /** Whoever has the file open finds it stored in the form that the entry says. */
  ghost predicate FormKnown(s: State, f: FileId) {
    f in s.files && s.files[f].descriptors != {} ==>
      s.files[f].name in s.disk && (s.files[f].compressed <==> s.disk[s.files[f].name].Packed?)
  }

  ghost predicate FormsKnown(s: State) {
    forall f :: FormKnown(s, f)
  }

  /** A step that does not take the name of an open file away: nobody removes it, and no rename goes onto it. The kernel
      sees to that by giving the open file another name first. */
  predicate SparesOpen(s: State, e: Event) {
    match e
    case Ask(_, _, r, Some(f)) => r.Unlink? && f in s.files ==> s.files[f].descriptors == {}
    case Wake(t) =>
      ThreadOf(s, t).Sleeping? && ThreadOf(s, t).request.Unlink? && ThreadOf(s, t).file in s.files ==>
        s.files[ThreadOf(s, t).file].descriptors == {}
    case RenameEnd(t, _) =>
      ThreadOf(s, t).BothPinned? && ThreadOf(s, t).target in s.files ==> s.files[ThreadOf(s, t).target].descriptors == {}
    case _ => true
  }

  predicate AllSpareOpen(s: State, events: seq<Event>)
    requires Legal(s, events)
    decreases |events|
  {
    events == [] || (SparesOpen(s, events[0]) && AllSpareOpen(Apply(s, events[0]), events[1..]))
  }

  lemma RequestKnows(s: State, t: ThreadId, g: FileId, r: Request, f: FileId)
    requires g in s.files && FormKnown(s, f) && (r.Unlink? ==> s.files[g].descriptors == {})
    requires f in s.files && s.files[f].name == s.files[g].name ==> f == g
    ensures FormKnown(PerformOrSleep(s, t, g, r), f)
  {
  }

  lemma RequestStepKnows(s: State, e: Event, f: FileId)
    requires Inv(s) && Enabled(s, e) && FormKnown(s, f) && SparesOpen(s, e) && (e.Ask? || e.Wake?)
    ensures FormKnown(Apply(s, e), f)
  {
    hide PerformOrSleep, Perform, RequestFits, Entries, Stable, Queued, Threads, Apart;
    match e
    case Ask(t, name, r, found) =>
      if found.Some? {
        if f in s.files && s.files[f].name == s.files[found.value].name {
          NamesApart(s, f, found.value);
        }
        RequestKnows(SetFile(s, found.value, s.files[found.value].(deleted := false)), t, found.value, r, f);
      } else {
        NewIsFree(s, t, name, r);
        RequestKnows(AddEntry(s, name), t, s.next, r, f);
      }
    case Wake(t) =>
      var g := ThreadOf(s, t).file;
      if f in s.files && s.files[f].name == s.files[g].name {
        NamesApart(s, f, g);
      }
      RequestKnows(s, t, g, ThreadOf(s, t).request, f);
  }

  lemma HolderStepKnows(s: State, e: Event, f: FileId)
    requires Inv(s) && Enabled(s, e) && FormKnown(s, f) && (e.Look? || e.Write? || e.ReadFallback? || e.Release?)
    ensures FormKnown(Apply(s, e), f)
  {
    hide Entries, Stable, Queued, Threads, Apart;
    var g := match e
      case Look(_, found, _) => if found.Some? then found.value else s.next
      case Write(_, g, _) => g
      case ReadFallback(_, g) => g
      case Release(_, g) => g;
    if f in s.files && g in s.files && s.files[f].name == s.files[g].name {
      NamesApart(s, f, g);
    }
  }

  lemma RenameStepKnows(s: State, t: ThreadId, ok: bool, f: FileId)
    requires Inv(s) && FormsKnown(s) && Enabled(s, RenameEnd(t, ok)) && SparesOpen(s, RenameEnd(t, ok))
    ensures FormKnown(Apply(s, RenameEnd(t, ok)), f)
  {
    hide Entries, Stable, Queued, Apart;
    ThreadIs(s, t);
    var BothPinned(from, to) := ThreadOf(s, t);
    assert FormKnown(s, f) && FormKnown(s, from);
    if f in s.files && s.files[f].name == s.files[from].name {
      NamesApart(s, f, from);
    }
    if f in s.files && s.files[f].name == s.files[to].name {
      NamesApart(s, f, to);
    }
    if s.files[from].name == s.files[to].name {
      NamesApart(s, from, to);
    }
  }

  lemma QueueStepKnows(s: State, e: Event, f: FileId)
    requires Enabled(s, e) && FormKnown(s, f) && (e.Purge? || e.Fetch?)
    ensures FormKnown(Apply(s, e), f)
  {
  }

  lemma BeginStepKnows(s: State, admitted: bool, big: bool, chosen: bool, f: FileId)
    requires Enabled(s, Begin(admitted, big, chosen)) && FormKnown(s, f)
    ensures FormKnown(BeginJob(s, admitted, big, chosen), f)
  {
  }

  lemma CompressStepKnows(s: State, ok: bool, f: FileId)
    requires Inv(s) && Enabled(s, EndCompress(ok)) && FormKnown(s, f)
    ensures FormKnown(FinishCompress(s, ok), f)
  {
    hide Entries, Queued, Threads, Apart;
    if f in s.files && s.files[f].name == s.files[s.worker.file].name {
      NamesApart(s, f, s.worker.file);
    }
  }

  lemma HashStepKnows(s: State, ok: bool, twin: Option<Repr>, f: FileId)
    requires Inv(s) && Enabled(s, EndHash(ok, twin)) && FormKnown(s, f)
    ensures FormKnown(FinishHash(s, ok, twin), f)
  {
    hide Entries, Queued, Threads, Apart;
    if f in s.files && s.files[f].name == s.files[s.worker.file].name {
      NamesApart(s, f, s.worker.file);
    }
  }

  lemma WorkerStepKnows(s: State, e: Event, f: FileId)
    requires Inv(s) && Enabled(s, e) && FormKnown(s, f) && WorkerStep(e)
    ensures FormKnown(Apply(s, e), f)
  {
    hide Entries, Queued, Threads, Apart, Stable, FormKnown, BeginJob, FinishCompress, FinishHash, PurgeFile;
    match e
    case Begin(admitted, big, chosen) => BeginStepKnows(s, admitted, big, chosen, f);
    case EndCompress(ok) => CompressStepKnows(s, ok, f);
    case EndHash(ok, twin) => HashStepKnows(s, ok, twin, f);
    case Purge(_, _, _) => QueueStepKnows(s, e, f);
    case Fetch => QueueStepKnows(s, e, f);
  }

  lemma StepKnows(s: State, e: Event)
    requires Inv(s) && Enabled(s, e) && FormsKnown(s) && SparesOpen(s, e)
    ensures FormsKnown(Apply(s, e))
  {
    hide Entries, Stable, Queued, Threads, Apart, Apply, Enabled, SparesOpen, FormKnown;
    forall f ensures FormKnown(Apply(s, e), f) {
      assert FormKnown(s, f);
      if e.Ask? || e.Wake? {
        RequestStepKnows(s, e, f);
      } else if e.RenameEnd? {
        RenameStepKnows(s, e.t, e.ok, f);
      } else if WorkerStep(e) {
        WorkerStepKnows(s, e, f);
      } else {
        HolderStepKnows(s, e, f);
      }
    }
  }

  /** After any run from an empty mount that leaves open files their names, the entry of every open file says which form
      the file is stored in: reads and writes choose their way by it. */
  lemma {:induction false} OpenFilesAreKnown(s: State, events: seq<Event>)
    requires Inv(s) && FormsKnown(s) && Legal(s, events) && AllSpareOpen(s, events)
    ensures FormsKnown(After(s, events))
    decreases |events|
  {
    hide Entries, Stable, Queued, Threads, Apart, Apply, Enabled, SparesOpen, FormsKnown;
    if events != [] {
      StepKept(s, events[0]);
      StepKnows(s, events[0]);
      OpenFilesAreKnown(Apply(s, events[0]), events[1..]);
    }
  }

  lemma MountKnows(s: State)
    requires Initial(s)
    ensures Inv(s) && FormsKnown(s)
  {
  }
}
