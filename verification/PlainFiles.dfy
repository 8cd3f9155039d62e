/**
 Independent plain files, the operations of users and of the worker on them, and which of these can be done when others
 are under way.
 */
module PlainFiles {
  import opened Bytes
  import opened Paths
  import opened Backing
  import opened AttrChanges

  datatype Op =
    | OpCreate(name: Name, attrs: Attrs)
    | OpOpen(d: nat, name: Name, temp: Name)
    | OpCopyBegin(name: Name)
    | OpCopyEnd(name: Name, temp: Name)
    | OpWrite(d: nat, raw: Data, now: Time)
    | OpClose(d: nat)
    | OpLook(k: nat, name: Name, change: Change)
    | OpAct(k: nat, name: Name, change: Change)
    | OpChange(name: Name, change: Change)
    | OpRenameBegin(from: Name, to: Name)
    | OpRenameEnd(from: Name)
    | OpRename(from: Name, to: Name)
    | OpRemove(name: Name)
    | OpDedup(name: Name, readable: bool, pid: Name)
    | OpCompressBegin(name: Name)
    | OpCompressCancel
    | OpCompressEnd(raw: Data, temp: Name)

  /** Operations name what users can see, temporary names are hidden, and contents are among those in use. */
  ghost predicate Proper(op: Op, decode: Data -> Data, used: set<Data>) {
    match op
    case OpCreate(n, _) => UserName(n) && decode([]) in used
    case OpOpen(_, n, temp) => UserName(n) && Scratch(temp)
    case OpCopyBegin(n) => UserName(n)
    case OpCopyEnd(n, temp) => UserName(n) && Scratch(temp)
    case OpWrite(_, raw, _) => decode(raw) in used
    case OpLook(_, n, _) => UserName(n)
    case OpAct(_, n, _) => UserName(n)
    case OpChange(n, _) => UserName(n)
    case OpRenameBegin(from, to) => UserName(from) && UserName(to)
    case OpRename(from, to) => UserName(from) && UserName(to)
    case OpRemove(n) => UserName(n)
    case OpDedup(n, _, pid) => UserName(n) && SLASH !in pid
    case OpCompressBegin(n) => UserName(n)
    case OpCompressEnd(_, temp) => Scratch(temp)
    case _ => true
  }

  /** The operation ends the compression of a file or changes its owner, mode or times. */
  predicate Disturbs(op: Op, n: Name) {
    op.OpCompressCancel? || op.OpCompressEnd? || ((op.OpAct? || op.OpChange?) && op.name == n)
  }

  datatype Core = Core(uid: nat, gid: nat, mode: nat, bytes: Data)

  /** Independent files, and who has which of them open for writing. */
  datatype Plain = Plain(files: map<Name, Core>, open: map<nat, Name>)

  function CoreOf(x: Looks): Core {
    Core(x.uid, x.gid, x.mode, x.bytes)
  }

  function Cores(files: map<Name, Looks>): map<Name, Core> {
    map n | n in files :: CoreOf(files[n])
  }

  lemma CoresPut(files: map<Name, Looks>, n: Name, x: Looks)
    ensures Cores(files[n := x]) == Cores(files)[n := CoreOf(x)]
    ensures n in files && CoreOf(x) == CoreOf(files[n]) ==> Cores(files[n := x]) == Cores(files)
  {
  }

  lemma CoresDrop(files: map<Name, Looks>, n: Name)
    ensures Cores(files - {n}) == Cores(files) - {n}
  {
  }

  function WriterNames(writers: map<nat, Writer>): map<nat, Name> {
    map d | d in writers :: writers[d].name
  }

  lemma NewWriter(writers: map<nat, Writer>, d: nat, w: Writer)
    ensures WriterNames(writers[d := w]) == WriterNames(writers)[d := w.name]
  {
  }

  /** An operation on independent files. The worker's passes, changes of times, and the halves of operations that only
      look or tidy up are none. */
  function PlainStep(p: Plain, op: Op, decode: Data -> Data, done: bool): Plain {
    if !done then p else
    match op
    case OpCreate(n, a) => p.(files := p.files[n := Core(a.uid, a.gid, a.mode, decode([]))])
    case OpOpen(d, n, _) => p.(open := p.open[d := n])
    case OpWrite(d, raw, _) =>
      if d in p.open && p.open[d] in p.files then
        p.(files := p.files[p.open[d] := p.files[p.open[d]].(bytes := decode(raw))])
      else p
    case OpClose(d) => p.(open := p.open - {d})
    case OpAct(_, n, c) => PlainChange(p, n, c)
    case OpChange(n, c) => PlainChange(p, n, c)
    case OpRenameBegin(from, to) => PlainRename(p, from, to)
    case OpRename(from, to) => PlainRename(p, from, to)
    case OpRemove(n) => p.(files := p.files - {n})
    case _ => p
  }

  function PlainChange(p: Plain, n: Name, c: Change): Plain {
    if n in p.files then p.(files := p.files[n := ChangedCore(p.files[n], c)]) else p
  }

  function PlainRename(p: Plain, from: Name, to: Name): Plain {
    if from in p.files then
      Plain((p.files - {from})[to := p.files[from]], map d | d in p.open :: if p.open[d] == from then to else p.open[d])
    else p
  }

  function ChangedCore(x: Core, c: Change): Core {
    match c
    case Owner(uid, gid) => x.(uid := Update(x.uid, uid), gid := Update(x.gid, gid))
    case Mode(mode) => x.(mode := mode)
    case Times(_, _) => x
  }

  lemma CoreChanged(files: map<Name, Looks>, n: Name, c: Change)
    requires n in files
    ensures CoreOf(ChangedLooks(files[n], c)) == ChangedCore(CoreOf(files[n]), c)
    ensures n in Cores(files) && Cores(files)[n] == CoreOf(files[n])
  {
  }

  function PlainRun(p: Plain, ops: seq<Op>, decode: Data -> Data, done: seq<bool>): Plain
    requires |done| == |ops|
    decreases |ops|
  {
    if ops == [] then p else PlainRun(PlainStep(p, ops[0], decode, done[0]), ops[1..], decode, done[1..])
  }

  lemma {:induction false} PlainRunSnoc(p: Plain, ops: seq<Op>, decode: Data -> Data, done: seq<bool>, op: Op, d: bool)
    requires |done| == |ops|
    ensures PlainRun(p, ops + [op], decode, done + [d]) == PlainStep(PlainRun(p, ops, decode, done), op, decode, d)
    decreases |ops|
  {
    hide PlainStep;
    if ops == [] {
      assert ops + [op] == [op] && done + [d] == [d];
      assert PlainRun(PlainStep(p, op, decode, d), [], decode, []) == PlainStep(p, op, decode, d);
    } else {
      PlainRunSnoc(PlainStep(p, ops[0], decode, done[0]), ops[1..], decode, done[1..], op, d);
      assert (ops + [op])[1..] == ops[1..] + [op] && (done + [d])[1..] == done[1..] + [d];
    }
  }

  lemma StepStaysInUse(p: Plain, op: Op, decode: Data -> Data, done: bool, used: set<Data>)
    requires Proper(op, decode, used) && forall n :: n in p.files ==> p.files[n].bytes in used
    ensures var q := PlainStep(p, op, decode, done); forall n :: n in q.files ==> q.files[n].bytes in used
  {
    hide UserName, Scratch;
  }

  // ----- What is under way -----

  /** The file that is being compressed, those that are being copied, the renames that are halfway, and the changes of
      attributes that have been looked at. */
  datatype Under = Under(job: Option<Name>, copies: set<Name>, renames: map<Name, Name>, looks: map<nat, (Name, Change)>)

  function UnderStep(u: Under, op: Op, done: bool): Under {
    if !done then u else
    match op
    case OpCopyBegin(n) => u.(copies := u.copies + {n})
    case OpCopyEnd(n, _) => u.(copies := u.copies - {n})
    case OpLook(k, n, c) => u.(looks := u.looks[k := (n, c)])
    case OpAct(k, _, _) => u.(looks := u.looks - {k})
    case OpRenameBegin(from, to) => u.(renames := u.renames[from := to])
    case OpRenameEnd(from) => u.(renames := u.renames - {from})
    case OpCompressBegin(n) => u.(job := Some(n))
    case OpCompressCancel => u.(job := None)
    case OpCompressEnd(_, _) => u.(job := None)
    case _ => u
  }

  function UnderRun(u: Under, ops: seq<Op>, done: seq<bool>): Under
    requires |done| == |ops|
    decreases |ops|
  {
    if ops == [] then u else UnderRun(UnderStep(u, ops[0], done[0]), ops[1..], done[1..])
  }

  lemma {:induction false} UnderRunSnoc(u: Under, ops: seq<Op>, done: seq<bool>, op: Op, d: bool)
    requires |done| == |ops|
    ensures UnderRun(u, ops + [op], done + [d]) == UnderStep(UnderRun(u, ops, done), op, d)
    decreases |ops|
  {
    hide UnderStep;
    if ops == [] {
      assert ops + [op] == [op] && done + [d] == [d];
      assert UnderRun(UnderStep(u, op, d), [], []) == UnderStep(u, op, d);
    } else {
      UnderRunSnoc(UnderStep(u, ops[0], done[0]), ops[1..], done[1..], op, d);
      assert (ops + [op])[1..] == ops[1..] + [op] && (done + [d])[1..] == done[1..] + [d];
    }
  }

  /** Nothing is under way that holds the file. */
  predicate Free(u: Under, n: Name) {
    u.job != Some(n) && n !in u.copies && Settled(u, n)
  }

  predicate Settled(u: Under, n: Name) {
    n !in u.renames && n !in u.renames.Values
  }

  /** What a plain file system takes and nothing that is under way holds up. */
  predicate Takes(p: Plain, u: Under, op: Op) {
    match op
    case OpCreate(n, _) => n !in p.files && Settled(u, n)
    case OpOpen(d, n, _) => n in p.files && d !in p.open && Free(u, n)
    case OpCopyBegin(n) => n in p.files && Free(u, n)
    case OpCopyEnd(n, _) => n in p.files && n in u.copies && Settled(u, n)
    case OpWrite(d, _, _) => d in p.open && Settled(u, p.open[d])
    case OpClose(_) => true
    case OpLook(_, n, _) => n in p.files
    case OpAct(k, n, c) => n in p.files && k in u.looks && u.looks[k] == (n, c)
    case OpChange(n, _) => n in p.files
    case OpRenameBegin(from, to) => TakesRename(p, u, from, to)
    case OpRenameEnd(from) => from in u.renames
    case OpRename(from, to) => TakesRename(p, u, from, to)
    case OpRemove(n) => n !in p.open.Values && Free(u, n)
    case OpDedup(n, _, _) => TakesPass(p, u, n)
    case OpCompressBegin(n) => TakesPass(p, u, n)
    case OpCompressCancel => true
    case OpCompressEnd(_, _) => u.job.Some?
  }

  predicate TakesRename(p: Plain, u: Under, from: Name, to: Name) {
    from != to && from in p.files && to !in p.open.Values && Free(u, from) && Free(u, to)
  }

  predicate TakesPass(p: Plain, u: Under, n: Name) {
    n in p.files && n !in p.open.Values && u.job == None && Free(u, n)
  }

  /** Nothing else decides whether the operation is done. For the others it also depends on links, entries and
      attribute files. */
  predicate Decided(p: Plain, op: Op) {
    match op
    case OpCopyBegin(_) => false
    case OpCopyEnd(_, _) => false
    case OpAct(_, _, _) => false
    case OpRenameBegin(_, to) => to !in p.files
    case OpRename(_, to) => to !in p.files
    case OpDedup(_, _, _) => false
    case OpCompressEnd(_, _) => false
    case _ => true
  }

  /** The `i`-th operation of a run was done only if a plain file system would take it and nothing held it up, and if
      nothing else decides, just then. */
  predicate DoneAsPlain(p: Plain, u: Under, ops: seq<Op>, decode: Data -> Data, done: seq<bool>, i: nat)
    requires i < |done| <= |ops|
  {
    var now, under := PlainRun(p, ops[..i], decode, done[..i]), UnderRun(u, ops[..i], done[..i]);
    && (done[i] ==> Takes(now, under, ops[i]))
    && (Decided(now, ops[i]) && Takes(now, under, ops[i]) ==> done[i])
  }

  lemma OneMoreDone(p: Plain, u: Under, ops: seq<Op>, decode: Data -> Data, done: seq<bool>, d: bool)
    requires |done| < |ops| && forall i :: 0 <= i < |done| ==> DoneAsPlain(p, u, ops, decode, done, i)
    requires var now, under := PlainRun(p, ops[..|done|], decode, done), UnderRun(u, ops[..|done|], done);
      && (d ==> Takes(now, under, ops[|done|]))
      && (Decided(now, ops[|done|]) && Takes(now, under, ops[|done|]) ==> d)
    ensures forall i :: 0 <= i <= |done| ==> DoneAsPlain(p, u, ops, decode, done + [d], i)
  {
    hide PlainRun, UnderRun, Takes, Decided;
    forall i | 0 <= i <= |done| ensures DoneAsPlain(p, u, ops, decode, done + [d], i) {
      assert (done + [d])[..i] == done[..i];
      if i < |done| {
        assert DoneAsPlain(p, u, ops, decode, done, i);
      } else {
        assert done[..i] == done;
      }
    }
  }
}
