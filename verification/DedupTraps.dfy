/** Runs in which the code does not keep its promises about linked files, each from an empty store. */
module DedupTraps {
  import opened Bytes
  import opened Paths
  import opened DedupTable
  import opened Backing
  import opened AttrChanges
  import opened DedupEntries
  import opened DedupStore

  /** The library functions that a store works with. */
  datatype World = World(decode: Data -> Data, hash: Data -> Md5, compressorOf: Data -> nat)

  const A: Name := [97]
  const B: Name := [98]
  const C: Name := [99]

  lemma ShortNames()
    ensures UserName(A) && UserName(B) && UserName(C)
    ensures forall tmp: Name :: Scratch(tmp) ==> !UserName(tmp) && forall n: Name :: UserName(n) ==> tmp != AttrName(n)
    ensures forall n: Name, m: Name :: n != m ==> AttrName(n) != AttrName(m)
    ensures forall n: Name :: !UserName(AttrName(n))
  {
    assert UserName(A) && UserName(B) && UserName(C);
    hide UserName, AttrName, Base;
    forall n: Name ensures !UserName(AttrName(n)) {
      AttrNameIsHidden(n);
    }
    forall n: Name, m: Name | n != m ensures AttrName(n) != AttrName(m) {
      OtherAttr(n, m);
    }
  }

  /** A valid store of this world in which nobody has a file open and no operation is under way. */
  ghost predicate Quiet(store: Store, w: World)
    reads store
  {
    Of(store, w) && store.writers == map[] && store.acts == map[]
  }

  ghost predicate Of(store: Store, w: World)
    reads store
  {
    && store.Valid() && store.decode == w.decode && store.hash == w.hash
    && store.job == None && store.copies == map[] && store.renames == map[]
  }

  /** Two empty files. */
  function Pair(st: Attrs): Fs {
    Fs(map[A := 0, B := 1], map[0 := Inode(st, []), 1 := Inode(st, [])], 2)
  }

  lemma PairLooks(st: Attrs, decode: Data -> Data)
    ensures Pair(st).Sound() && Files(Pair(st), decode) == map[A := Shown(st, decode([])), B := Shown(st, decode([]))]
    ensures Pair(st).Links(0) == 1 == Pair(st).Links(1) && !Shared(Pair(st), A) && !Shared(Pair(st), B)
    ensures AttrName(A) !in Pair(st).names && AttrName(B) !in Pair(st).names
    ensures Contents(Pair(st), decode, A) == decode([]) == Contents(Pair(st), decode, B)
  {
    ShortNames();
    hide UserName, AttrName, Base, Scratch;
    var fs := Pair(st);
    forall n: Name | UserName(n) && AttrName(n) in fs.names ensures false {
      AttrNameIsHidden(n);
    }
    SoleIffOneLink(fs, A);
    SoleIffOneLink(fs, B);
  }

  method TwoFiles(w: World, st: Attrs) returns (store: Store)
    ensures fresh(store) && Quiet(store, w) && store.fs == Pair(st) && store.db == map[]
  {
    hide AttrName, UserName, Base, DbTrue, JobTrue, WritesAlone, Fs.Sound, Files;
    ShortNames();
    store := new Store(w.decode, w.hash, w.compressorOf);
    var ok := store.Create(A, st);
    ok := store.Create(B, st);
    assert store.fs.names == Pair(st).names && store.fs.inodes == Pair(st).inodes;
  }

  /** The first of them is entered into the table. */
  method TwoFilesOneEntry(w: World, st: Attrs, pid: Name) returns (store: Store)
    requires SLASH !in pid
    ensures fresh(store) && Quiet(store, w) && store.fs == Pair(st) && store.db == map[A := w.hash(w.decode([]))]
  {
    hide AttrName, UserName, Base, DbTrue, JobTrue, WritesAlone, Scratch, Files, Fs.Sound, LinkTemp, Contents;
    ShortNames();
    store := TwoFiles(w, st);
    PairLooks(st, w.decode);
    TempIsScratch(A, pid);
    var target := store.DoDedup(A, true, pid);
    assert target.None?;
    store.EntryIsTrue(A);
  }

  /** The worker makes the second a link to the first. */
  method LinkThem(store: Store, w: World, st: Attrs, pid: Name)
    requires Of(store, w) && SLASH !in pid && store.writers == map[]
    requires store.fs == Pair(st) && store.db == map[A := w.hash(w.decode([]))]
    modifies store`fs, store`db, store`dirty, store`compressor
    ensures Of(store, w) && LinkedTo(Pair(st), store.fs, A, B)
    ensures Files(store.fs, w.decode) == map[A := Shown(st, w.decode([])), B := Shown(st, w.decode([]))]
    ensures store.db == old(store.db)
  {
    hide AttrName, UserName, Base, DbTrue, JobTrue, WritesAlone, Scratch, Files, Fs.Sound, LinkTemp, LinkedTo, Contents, SameInode;
    ShortNames();
    PairLooks(st, w.decode);
    TempIsScratch(B, pid);
    var target := store.DoDedup(B, true, pid);
    assert target == Some(A);
    LinkedFacts(Pair(st), store.fs, A, B);
  }

  /** What is known of the names then. */
  lemma LinkedPair(st: Attrs, fs: Fs)
    requires LinkedTo(Pair(st), fs, A, B)
    ensures fs.names.Keys <= {A, B, AttrName(B)} && A in fs.names && B in fs.names
    ensures fs.names[A] == 0 == fs.names[B] && Shared(fs, A) && Shared(fs, B) && AttrName(A) !in fs.names
  {
    ShortNames();
    hide UserName, AttrName, Base, Scratch;
    SoleIffOneLink(fs, A);
    SoleIffOneLink(fs, B);
  }

  // ----- Links -----

  /** The first file is in the table and has one link when it is opened for writing; the second has the same contents
      and is open to nobody; the worker makes it a link to the first; and the next write, through the one descriptor
      there is, that of the first, changes the second. */
  method AnOpenTargetIsWrittenThrough(w: World, raw: Data, st: Attrs, now: Time, temp: Name, pid: Name)
    returns (store: Store, table: map<Name, Md5>, linked: Fs)
    requires w.decode(raw) != w.decode([]) && Scratch(temp) && SLASH !in pid
    ensures table == map[A := w.hash(w.decode([]))] && store.decode == w.decode
    ensures store.writers == map[1 := Writer(A, 0)]
    ensures LinkedTo(Pair(st), linked, A, B) && Contents(linked, w.decode, B) == w.decode([])
    ensures 0 in linked.inodes && store.fs == linked.SetRaw(0, raw, now)
    ensures Contents(store.fs, w.decode, B) == w.decode(raw)
  {
    hide AttrName, UserName, Base, DbTrue, JobTrue, WritesAlone, Scratch, Files, Fs.Sound, LinkTemp, LinkedTo;
    store := TwoFilesOneEntry(w, st, pid);
    PairLooks(st, w.decode);
    ShortNames();
    table := store.db;
    var ok := store.OpenWrite(1, A, temp);
    TempIsScratch(B, pid);
    IsShown(store.fs, w.decode, B);
    var target := store.HardlinkFile(w.hash(w.decode([])), B, pid);
    linked := store.fs;
    IsShown(linked, w.decode, B);
    InodeExists(linked, A);
    LinkedFacts(Pair(st), linked, A, B);
    store.Write(1, raw, now);
  }

  /** Two files hold the same, and the first is in the table. A third is renamed onto the first. Before the table
      learns of that, the worker deduplicates the second: it becomes a link to the file that has just been moved, and
      nothing is left of what it held. */
  method ALinkBetweenTheHalvesLosesAFile(w: World, raw: Data, st: Attrs, now: Time, temp: Name, pid: Name)
    returns (store: Store, before: Fs, table: map<Name, Md5>, between: Fs)
    requires w.decode(raw) != w.decode([]) && Scratch(temp) && SLASH !in pid
    ensures before.Sound() && table == map[A := w.hash(w.decode([]))]
    ensures Contents(before, w.decode, A) == w.decode([]) == Contents(before, w.decode, B)
    ensures C in before.names && Contents(before, w.decode, C) == w.decode(raw)
    ensures between == Moved(before, C, A) && LinkedTo(between, store.fs, A, B)
    ensures Quiet(store, w) && store.fs.Sound() && Files(store.fs, w.decode).Keys == {A, B}
    ensures forall n :: n in Files(store.fs, w.decode) ==> Files(store.fs, w.decode)[n].bytes == w.decode(raw)
  {
    hide AttrName, UserName, Base, DbTrue, JobTrue, WritesAlone, Scratch, Files, Fs.Sound, LinkTemp, LinkedTo, Moved, Contents,
      MovedEntry, MovedWriters, SameInode;
    ShortNames();
    store, before := RenamedHalfway(w, raw, st, now, temp, pid);
    table, between := store.db, store.fs;
    IsShown(between, w.decode, A);
    IsShown(between, w.decode, B);
    TempIsScratch(B, pid);
    var target := store.DoDedup(B, true, pid);
    assert A in table && table[A] == w.hash(Contents(between, w.decode, B));
    assert LinkTemp(B, pid) !in between.names && A !in store.renames;
    assert target == Some(A);
    store.EndRename(C);
  }

  /** The third file has been renamed onto the first, and the table does not know. */
  method RenamedHalfway(w: World, raw: Data, st: Attrs, now: Time, temp: Name, pid: Name)
    returns (store: Store, before: Fs)
    requires Scratch(temp) && SLASH !in pid
    ensures before.Sound() && Contents(before, w.decode, A) == w.decode([]) == Contents(before, w.decode, B)
    ensures C in before.names && Contents(before, w.decode, C) == w.decode(raw)
    ensures fresh(store) && store.Valid() && store.decode == w.decode && store.hash == w.hash
    ensures store.fs == Moved(before, C, A) && store.fs.names.Keys == {A, B}
    ensures store.db == map[A := w.hash(w.decode([]))] && store.renames == map[C := A]
    ensures store.writers == map[] && store.acts == map[] && store.copies == map[] && store.job == None
    ensures Files(store.fs, w.decode).Keys == {A, B}
    ensures Files(store.fs, w.decode)[A].bytes == w.decode(raw) && Files(store.fs, w.decode)[B].bytes == w.decode([])
  {
    hide AttrName, UserName, Base, DbTrue, JobTrue, WritesAlone, Scratch, Files, Fs.Sound, Moved, Contents, MovedWriters;
    ShortNames();
    store := ThirdFile(w, raw, st, now, temp, pid);
    before := store.fs;
    TripleLooks(st, Inode(st.(mtime := now), raw), w.decode);
    IsShown(before, w.decode, A);
    IsShown(before, w.decode, B);
    IsShown(before, w.decode, C);
    RenameMovesContents(before, w.decode, C, A);
    MovedNames(before, C, A);
    var ok := store.BeginRename(C, A);
  }

  lemma MovedNames(fs: Fs, from: Name, to: Name)
    requires fs.Sound() && from in fs.names && UserName(from) && UserName(to) && from != to
    requires AttrName(from) !in fs.names
    ensures Moved(fs, from, to).names.Keys == fs.names.Keys - {from} + {to}
    ensures MovedWriters(map[], from, to) == map[]
  {
    hide AttrName, UserName, Base;
  }

  /** And a third file. */
  function Triple(st: Attrs, third: Inode): Fs {
    Fs(map[A := 0, B := 1, C := 2], map[0 := Inode(st, []), 1 := Inode(st, []), 2 := third], 3)
  }

  lemma TripleLooks(st: Attrs, third: Inode, decode: Data -> Data)
    ensures Triple(st, third).Sound() && AttrName(C) !in Triple(st, third).names && !Shared(Triple(st, third), C)
    ensures Files(Triple(st, third), decode)
         == map[A := Shown(st, decode([])), B := Shown(st, decode([])), C := Shown(third.attrs, decode(third.raw))]
  {
    ShortNames();
    hide UserName, AttrName, Base, Scratch;
    var fs := Triple(st, third);
    forall n: Name | UserName(n) && AttrName(n) in fs.names ensures false {
      AttrNameIsHidden(n);
    }
    SoleIffOneLink(fs, C);
  }

  /** A third file with other contents. */
  method ThirdFile(w: World, raw: Data, st: Attrs, now: Time, temp: Name, pid: Name) returns (store: Store)
    requires Scratch(temp) && SLASH !in pid
    ensures fresh(store) && Quiet(store, w) && store.db == map[A := w.hash(w.decode([]))]
    ensures store.fs == Triple(st, Inode(st.(mtime := now), raw))
  {
    hide AttrName, UserName, Base, DbTrue, JobTrue, WritesAlone, Scratch, Files, Fs.Sound, Shared, Triple;
    ShortNames();
    store := ThirdIsEmpty(w, st, pid);
    TripleLooks(st, Inode(st, []), w.decode);
    TripleWritten(st, raw, now);
    var ok := store.OpenWrite(1, C, temp);
    store.Write(1, raw, now);
    store.Release(1);
  }

  lemma TripleWritten(st: Attrs, raw: Data, now: Time)
    ensures var fs := Triple(st, Inode(st, []));
      && fs.names.Keys == {A, B, C} && fs.names[C] == 2 && 2 in fs.inodes
      && fs.SetRaw(2, raw, now) == Triple(st, Inode(st.(mtime := now), raw))
  {
  }

  method ThirdIsEmpty(w: World, st: Attrs, pid: Name) returns (store: Store)
    requires SLASH !in pid
    ensures fresh(store) && Quiet(store, w) && store.db == map[A := w.hash(w.decode([]))]
    ensures store.fs == Triple(st, Inode(st, []))
  {
    hide AttrName, UserName, Base, DbTrue, JobTrue, WritesAlone, Files, Fs.Sound;
    ShortNames();
    store := TwoFilesOneEntry(w, st, pid);
    var ok := store.Create(C, st);
    assert store.fs == Triple(st, Inode(st, []));
  }

  lemma OwnInode(fs: Fs, n: Name, i: InodeId)
    requires n in fs.names && fs.names[n] == i && forall m :: m in fs.names && m != n ==> fs.names[m] != i
    ensures !Shared(fs, n)
  {
    SoleIffOneLink(fs, n);
  }

  // ----- Attributes -----

  /** A change of the second file's mode has looked at a file with one link. The worker makes it a link to the first,
      and the change goes on: the first file has another mode. */
  method AChangeReachesAnotherFile(w: World, st: Attrs, mode: nat, pid: Name)
    returns (store: Store, looked: Pending, linked: Fs)
    requires SLASH !in pid
    ensures looked == Pending(B, Mode(mode), WriteInode) && looked.choice == Choose(LookAt(Pair(st), B), Mode(mode))
    ensures linked.Sound() && LinkedTo(Pair(st), linked, A, B) && Files(linked, w.decode) == Files(Pair(st), w.decode)
    ensures store.fs == Acted(linked, B, WriteInode, Mode(mode))
    ensures Of(store, w) && store.fs.Sound()
    ensures A in Files(linked, w.decode) && Files(linked, w.decode)[A].mode == st.mode
    ensures A in Files(store.fs, w.decode) && Files(store.fs, w.decode)[A].mode == mode
  {
    hide AttrName, UserName, Base, DbTrue, JobTrue, WritesAlone, Scratch, Files, Fs.Sound, LinkedTo, ChangedLooks, Right;
    ShortNames();
    store := TwoFilesOneEntry(w, st, pid);
    PairLooks(st, w.decode);
    store.LookFirst(7, B, Mode(mode));
    looked := store.acts[7];
    LinkThem(store, w, st, pid);
    linked := store.fs;
    LinkedPair(st, linked);
    InodeWrittenTo(linked, w.decode, B, Mode(mode), A);
    store.ActNow(7);
  }

  lemma InodeWrittenTo(fs: Fs, decode: Data -> Data, n: Name, c: Change, m: Name)
    requires fs.Sound() && n in fs.names && UserName(n) && ShowsInode(fs, m, fs.names[n])
    ensures var fs' := Acted(fs, n, WriteInode, c);
      && fs'.Sound() && fs.names[n] in fs.inodes && m in Files(fs', decode)
      && Files(fs', decode)[m] == Shown(Changed(fs.Stat(n), c), decode(Raw(fs, m)))
  {
    hide AttrName, UserName, Base;
    InodeWritten(fs, decode, n, Changed(fs.Stat(n), c));
    ShownBy(fs, decode, m);
  }

  method CopyBegun(w: World, st: Attrs, pid: Name) returns (store: Store)
    requires SLASH !in pid
    ensures fresh(store) && store.Valid() && store.decode == w.decode && store.hash == w.hash && store.job == None
    ensures store.writers == map[] && store.acts == map[] && store.renames == map[] && store.copies.Keys == {B}
    ensures Shown(store.copies[B], []) == Shown(st, [])
    ensures Shared(store.fs, B) && store.fs.names.Keys <= {A, B, AttrName(B)} && B in store.fs.names
    ensures Files(store.fs, w.decode) == map[A := Shown(st, w.decode([])), B := Shown(st, w.decode([]))]
  {
    hide AttrName, UserName, Base, DbTrue, JobTrue, WritesAlone, Files, Fs.Sound, LinkedTo, Shared;
    ShortNames();
    store := TwoFilesOneEntry(w, st, pid);
    LinkThem(store, w, st, pid);
    LinkedPair(st, store.fs);
    ShownBy(store.fs, w.decode, B);
    store.BeginCopy(B);
  }

  /** A linked file is being copied, to be opened for writing. Its mode is changed meanwhile, and the copy puts the old
      mode back. */
  method ACopyPutsBackTheOldMode(w: World, st: Attrs, mode: nat, temp: Name, pid: Name)
    returns (store: Store, begun: Fs, changed: Fs)
    requires Scratch(temp) && SLASH !in pid
    ensures begun.Sound() && Shared(begun, B) && changed.Sound() && Of(store, w) && store.fs.Sound()
    ensures Files(begun, w.decode) == map[A := Shown(st, w.decode([])), B := Shown(st, w.decode([]))]
    ensures Files(changed, w.decode) == Files(begun, w.decode)[B := Shown(st.(mode := mode), w.decode([]))]
    ensures Files(store.fs, w.decode) == Files(begun, w.decode)[B := Shown(st.(mtime := Time(st.mtime.sec, 0)), w.decode([]))]
  {
    hide AttrName, UserName, Base, DbTrue, JobTrue, WritesAlone, Scratch, Files, Fs.Sound, LinkedTo;
    ShortNames();
    store := CopyBegun(w, st, pid);
    begun := store.fs;
    var ok := store.ChangeFile(B, Mode(mode));
    changed := store.fs;
    store.EndCopy(B, temp);
  }

  /** A linked file is given another owner, and so gets an attribute file. */
  method LinkedWithOwner(w: World, st: Attrs, uid: nat, pid: Name) returns (store: Store)
    requires SLASH !in pid && uid != st.uid
    ensures fresh(store) && Quiet(store, w) && store.fs.Sound()
    ensures store.fs.names.Keys == {A, B, AttrName(B)}
    ensures store.db == map[A := w.hash(w.decode([]))]
    ensures Files(store.fs, w.decode) == map[A := Shown(st, w.decode([])), B := Shown(st.(uid := uid), w.decode([]))]
  {
    hide AttrName, UserName, Base, DbTrue, JobTrue, WritesAlone, Scratch, Files, Fs.Sound, LinkedTo;
    ShortNames();
    store := TwoFilesOneEntry(w, st, pid);
    LinkThem(store, w, st, pid);
    LinkedPair(st, store.fs);
    ghost var linked := store.fs;
    ShownBy(linked, w.decode, B);
    OwnerNeedsFile(linked, B, uid);
    var ok := store.ChangeFile(B, Owner(Some(uid), None));
  }

  /** The owner of a shared file is in its attribute file. */
  lemma OwnerNeedsFile(fs: Fs, n: Name, uid: nat)
    requires fs.Sound() && n in fs.names && UserName(n) && Shared(fs, n) && Attr(fs, n).uid != uid
    ensures var c := Owner(Some(uid), None);
      var fs' := Acted(fs, n, Choose(LookAt(fs, n), c), c);
      fs'.names.Keys == fs.names.Keys + {AttrName(n)} && forall m :: m in fs.names ==> fs'.names[m] == fs.names[m]
  {
    hide AttrName, UserName, Base;
  }

  lemma AttrIsElsewhere(fs: Fs, n: Name)
    requires fs.Sound() && n in fs.names && UserName(n) && AttrName(n) in fs.names
    ensures fs.names[AttrName(n)] != fs.names[n]
  {
    hide AttrName, UserName, Base;
    AttrNameIsHidden(n);
  }

  /** A file with an attribute file is alone on its inode again and is opened for writing; what is written does not
      change the modification time that users see. */
  method AWriteLeavesTheTime(w: World, st: Attrs, uid: nat, raw: Data, now: Time, temp: Name, pid: Name)
    returns (store: Store, before: Fs)
    requires Scratch(temp) && SLASH !in pid && uid != st.uid
    ensures Of(store, w) && before.Sound() && store.fs.Sound() && store.writers.Keys == {1}
    ensures B in before.names && store.writers[1] == Writer(B, before.names[B])
    ensures before.names[B] in before.inodes && store.fs == before.SetRaw(before.names[B], raw, now)
    ensures Files(before, w.decode) == map[B := Shown(st.(uid := uid), w.decode([]))]
    ensures Files(store.fs, w.decode) == map[B := Shown(st.(uid := uid), w.decode(raw))]
  {
    hide AttrName, UserName, Base, DbTrue, JobTrue, WritesAlone, Scratch, Files, Fs.Sound;
    ShortNames();
    store := LinkedWithOwner(w, st, uid, pid);
    var ok := store.Remove(A);
    AttrIsElsewhere(store.fs, B);
    OwnInode(store.fs, B, store.fs.names[B]);
    ok := store.OpenWrite(1, B, temp);
    before := store.fs;
    store.InodeIsThere(1);
    store.Write(1, raw, now);
  }

  /** A file is renamed onto a linked one that has an attribute file, and shows the owner of that. */
  method ARenameKeepsTheWrongOwner(w: World, st: Attrs, uid: nat, pid: Name) returns (store: Store, before: Fs)
    requires SLASH !in pid && uid != st.uid
    ensures before.Sound() && C in before.names && store.fs == Moved(before, C, B) && Quiet(store, w) && store.fs.Sound()
    ensures C in Files(before, w.decode) && Files(before, w.decode)[C].uid == st.uid
    ensures B in Files(store.fs, w.decode) && Files(store.fs, w.decode)[B].uid == uid
  {
    hide AttrName, UserName, Base, DbTrue, JobTrue, WritesAlone, Scratch, Files, Fs.Sound, Moved, MovedWriters;
    ShortNames();
    store := LinkedWithOwner(w, st, uid, pid);
    var ok := store.Create(C, st);
    before := store.fs;
    MovedNames(before, C, B);
    LeftOverIsShown(before, w.decode, C, B);
    ok := store.RenameFile(C, B);
  }

  /** A new file is opened, written and released, and the worker takes it up. */
  method WrittenAndTakenUp(w: World, st: Attrs, plain: Data, now: Time, temp: Name) returns (store: Store)
    requires Scratch(temp)
    ensures fresh(store) && store.Valid() && store.decode == w.decode
    ensures store.fs.names == map[A := 0] && store.fs.inodes == map[0 := Inode(st.(mtime := now), plain)]
    ensures store.job == Some(Job(A, st.(mtime := now), w.decode(plain)))
  {
    hide AttrName, UserName, Base, DbTrue, JobTrue, WritesAlone, Scratch, Files, Fs.Sound;
    ShortNames();
    store := new Store(w.decode, w.hash, w.compressorOf);
    var ok := store.Create(A, st);
    OneFile(store.fs, w.decode, Inode(st, []));
    ok := store.OpenWrite(1, A, temp);
    store.Write(1, plain, now);
    store.Release(1);
    OneFile(store.fs, w.decode, Inode(st.(mtime := now), plain));
    store.BeginCompress(A);
  }

  lemma OneFile(fs: Fs, decode: Data -> Data, inode: Inode)
    requires fs.Sound() && fs.names == map[A := 0] && fs.inodes == map[0 := inode]
    ensures AttrName(A) !in fs.names && fs.Links(0) == 1 && !Shared(fs, A)
    ensures Files(fs, decode) == map[A := Shown(inode.attrs, decode(inode.raw))]
  {
    ShortNames();
    hide AttrName, UserName, Base, Scratch;
    SoleIffOneLink(fs, A);
  }

  /** A file has been written and closed, the worker takes it up, its mode is changed, and the worker puts the old mode
      back. */
  method AChangeOfModeIsLost(w: World, st: Attrs, mode: nat, plain: Data, packed: Data, now: Time, temp: Name)
    returns (store: Store, begun: Fs, changed: Fs)
    requires w.decode(packed) == w.decode(plain) && Scratch(temp)
    ensures store.Valid() && store.decode == w.decode && begun.Sound() && changed.Sound()
    ensures Files(begun, w.decode) == map[A := Shown(st.(mtime := now), w.decode(plain))]
    ensures Files(changed, w.decode) == map[A := Shown(st.(mode := mode, mtime := now), w.decode(plain))]
    ensures Files(store.fs, w.decode) == map[A := Shown(st.(mtime := Time(now.sec, 0)), w.decode(plain))]
  {
    hide AttrName, UserName, Base, DbTrue, JobTrue, WritesAlone, Scratch, Files, Fs.Sound, Acted, Choose, LookAt, ActedOn;
    ShortNames();
    store := WrittenAndTakenUp(w, st, plain, now, temp);
    begun := store.fs;
    OneFile(begun, w.decode, Inode(st.(mtime := now), plain));
    var ok := store.ChangeFile(A, Mode(mode));
    changed := store.fs;
    store.EndCompress(packed, temp);
  }
}
