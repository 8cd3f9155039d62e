/**
 The backing file system: names, hard links and inodes, hidden attribute files, and what users see of them. The
 lemmas say what single steps do to the files that users see.
 */
module Backing {
  import opened Bytes
  import opened Paths

  type InodeId = nat

  datatype Time = Time(sec: int, nsec: nat)

  datatype Attrs = Attrs(uid: nat, gid: nat, mode: nat, mtime: Time, atime: Time)

  datatype Inode = Inode(attrs: Attrs, raw: Data)

  /** The backing file system. Inodes outlive their names, for those who have them open. */
  datatype Fs = Fs(names: map<Name, InodeId>, inodes: map<InodeId, Inode>, next: InodeId)
  {
    /** Names lead to inodes, and an attribute file belongs to one existing file and is linked nowhere else. */
    ghost predicate Sound() {
      && (forall n :: n in names ==> names[n] in inodes)
      && (forall i :: i in inodes ==> i < next)
      && (forall n: Name :: UserName(n) && AttrName(n) in names ==> n in names && Sole(AttrName(n)))
    }

    /** No other name leads to the same inode. */
    ghost predicate Sole(n: Name)
      requires n in names
    {
      forall m :: m in names && names[m] == names[n] ==> m == n
    }

    function NamesOf(i: InodeId): set<Name> {
      set n | n in names && names[n] == i
    }

    function Links(i: InodeId): nat {
      |NamesOf(i)|
    }


    function Stat(n: Name): Attrs
      requires n in names && names[n] in inodes
    {
      inodes[names[n]].attrs
    }

    function SetAttrs(n: Name, a: Attrs): Fs
      requires n in names && names[n] in inodes
    {
      this.(inodes := inodes[names[n] := inodes[names[n]].(attrs := a)])
    }

    function SetRaw(i: InodeId, raw: Data, mtime: Time): Fs
      requires i in inodes
    {
      this.(inodes := inodes[i := Inode(inodes[i].attrs.(mtime := mtime), raw)])
    }

    function Link(from: Name, to: Name): Fs
      requires from in names && to !in names
    {
      this.(names := names[to := names[from]])
    }

    function Unlink(n: Name): Fs {
      this.(names := names - {n})
    }

    /** Two names of one inode stay as they are. */
    function Rename(from: Name, to: Name): Fs
      requires from in names
    {
      if to in names && names[to] == names[from] then this
      else this.(names := names[to := names[from]] - {from})
    }

    function Spare(inode: Inode): Fs {
      this.(inodes := inodes[next := inode], next := next + 1)
    }

    function Create(n: Name, inode: Inode): Fs {
      Fs(names[n := next], inodes[next := inode], next + 1)
    }
  }

  /** What users see of a file; access times are not kept exactly. */
  datatype Looks = Looks(uid: nat, gid: nat, mode: nat, mtime: Time, bytes: Data)

  function Shown(a: Attrs, bytes: Data): Looks {
    Looks(a.uid, a.gid, a.mode, a.mtime, bytes)
  }

  /** An owner of -1 is left as it is. */
  function Update(current: nat, wanted: Option<nat>): nat {
    match wanted
    case None => current
    case Some(id) => id
  }

  /** The attributes that a user sees: those of the attribute file if there is one. */
  function Attr(fs: Fs, n: Name): Attrs
    requires fs.Sound() && n in fs.names && UserName(n)
  {
    if AttrName(n) in fs.names then fs.Stat(AttrName(n)) else fs.Stat(n)
  }

  function Raw(fs: Fs, n: Name): Data
    requires n in fs.names && fs.names[n] in fs.inodes
  {
    fs.inodes[fs.names[n]].raw
  }

  /** What a file decompresses to; a missing file is empty. */
  function Contents(fs: Fs, decode: Data -> Data, n: Name): Data {
    if n in fs.names && fs.names[n] in fs.inodes then decode(Raw(fs, n)) else []
  }

  /** The file system as users see it. `decode` gives the bytes that a stored form decompresses to. */
  ghost function Files(fs: Fs, decode: Data -> Data): map<Name, Looks>
    requires fs.Sound()
  {
    map n | n in fs.names && UserName(n) :: Shown(Attr(fs, n), decode(Raw(fs, n)))
  }

  lemma SoleIffOneLink(fs: Fs, n: Name)
    requires n in fs.names
    ensures fs.Sole(n) <==> fs.Links(fs.names[n]) == 1
    ensures fs.Links(fs.names[n]) >= 1
  {
    var all := fs.NamesOf(fs.names[n]);
    assert n in all;
    if fs.Sole(n) {
      assert all == {n};
    } else {
      var m :| m in fs.names && fs.names[m] == fs.names[n] && m != n;
      assert {n, m} <= all;
      assert |all| >= |{n, m}| by {
        assert all == {n, m} + (all - {n, m});
      }
    }
  }

  /** An attribute file is written: only its owner's attributes change. */
  lemma AttrWritten(fs: Fs, decode: Data -> Data, full: Name, a: Attrs)
    requires fs.Sound() && full in fs.names && UserName(full) && AttrName(full) in fs.names
    ensures var fs' := fs.SetAttrs(AttrName(full), a);
      fs'.Sound() && Files(fs', decode) == Files(fs, decode)[full := Shown(a, decode(Raw(fs, full)))]
  {
    hide AttrName, UserName, Base;
    var fs' := fs.SetAttrs(AttrName(full), a);
    AttrNameIsHidden(full);
    assert fs'.Sound();
    forall n | n in fs.names && UserName(n) && n != full
      ensures Attr(fs', n) == Attr(fs, n) && Raw(fs', n) == Raw(fs, n)
    {
      OtherAttr(n, full);
    }
  }

  lemma OtherAttr(n: Name, m: Name)
    requires n != m
    ensures AttrName(n) != AttrName(m)
  {
    if AttrName(n) == AttrName(m) {
      AttrNameIsInjective(n, m);
    }
  }

  lemma AttrCreated(fs: Fs, decode: Data -> Data, full: Name, a: Attrs)
    requires fs.Sound() && full in fs.names && UserName(full) && AttrName(full) !in fs.names
    ensures var fs' := fs.Create(AttrName(full), Inode(a, []));
      fs'.Sound() && Files(fs', decode) == Files(fs, decode)[full := Shown(a, decode(Raw(fs, full)))]
  {
    hide AttrName, UserName, Base;
    var fs' := fs.Create(AttrName(full), Inode(a, []));
    AttrNameIsHidden(full);
    forall n: Name | UserName(n) && AttrName(n) in fs'.names ensures n in fs'.names && fs'.Sole(AttrName(n)) {
      if n != full {
        OtherAttr(n, full);
        assert fs.Sole(AttrName(n));
      }
    }
    forall n | n in fs.names && UserName(n) && n != full
      ensures Attr(fs', n) == Attr(fs, n) && Raw(fs', n) == Raw(fs, n)
    {
      OtherAttr(n, full);
    }
  }

  /** Without its attribute file, a file shows the attributes of its inode. */
  lemma AttrDropped(fs: Fs, decode: Data -> Data, full: Name)
    requires fs.Sound() && full in fs.names && UserName(full)
    ensures var fs' := fs.Unlink(AttrName(full));
      fs'.Sound() && Files(fs', decode) == Files(fs, decode)[full := Shown(fs.Stat(full), decode(Raw(fs, full)))]
  {
    hide AttrName, UserName, Base;
    var fs' := fs.Unlink(AttrName(full));
    AttrNameIsHidden(full);
    forall n: Name | UserName(n) && AttrName(n) in fs'.names ensures n in fs'.names && fs'.Sole(AttrName(n)) {
      assert fs.Sole(AttrName(n));
    }
    forall n | n in fs.names && UserName(n) && n != full
      ensures n in fs'.names && Attr(fs', n) == Attr(fs, n) && Raw(fs', n) == Raw(fs, n)
    {
      OtherAttr(n, full);
    }
  }

  /** The inode of a file that shares it with nobody is written. */
  lemma OwnWritten(fs: Fs, decode: Data -> Data, full: Name, a: Attrs, raw: Data)
    requires fs.Sound() && full in fs.names && UserName(full) && fs.Sole(full)
    ensures var fs' := fs.(inodes := fs.inodes[fs.names[full] := Inode(a, raw)]);
      && fs'.Sound()
      && Files(fs', decode) == Files(fs, decode)[full :=
           Shown(if AttrName(full) in fs.names then Attr(fs, full) else a, decode(raw))]
  {
    hide AttrName, UserName, Base;
    var fs' := fs.(inodes := fs.inodes[fs.names[full] := Inode(a, raw)]);
    AttrNameIsHidden(full);
    assert fs'.Sound();
    forall n | n in fs.names && UserName(n) && n != full
      ensures Attr(fs', n) == Attr(fs, n) && Raw(fs', n) == Raw(fs, n)
    {
      AttrNameIsHidden(n);
    }
  }

  lemma NameDropped(fs: Fs, decode: Data -> Data, full: Name)
    requires fs.Sound() && UserName(full) && AttrName(full) !in fs.names
    ensures fs.Unlink(full).Sound() && Files(fs.Unlink(full), decode) == Files(fs, decode) - {full}
  {
    hide AttrName, UserName, Base;
    var fs' := fs.Unlink(full);
    forall n: Name | UserName(n) && AttrName(n) in fs'.names ensures n in fs'.names && fs'.Sole(AttrName(n)) {
      assert fs.Sole(AttrName(n));
    }
    forall n | n in fs'.names && UserName(n) ensures Attr(fs', n) == Attr(fs, n) && Raw(fs', n) == Raw(fs, n) {
      AttrNameIsHidden(n);
    }
  }

  /** A hidden name that is not an attribute file: nothing that users see depends on it. */
  ghost predicate Scratch(tmp: Name) {
    !UserName(tmp) && forall n: Name :: UserName(n) ==> AttrName(n) != tmp
  }

  lemma ScratchAppears(fs: Fs, decode: Data -> Data, tmp: Name, i: InodeId)
    requires fs.Sound() && Scratch(tmp) && tmp !in fs.names && i in fs.inodes
    requires forall n: Name :: UserName(n) && AttrName(n) in fs.names ==> fs.names[AttrName(n)] != i
    ensures var fs' := fs.(names := fs.names[tmp := i]); fs'.Sound() && Files(fs', decode) == Files(fs, decode)
  {
    hide AttrName, UserName, Base;
    var fs' := fs.(names := fs.names[tmp := i]);
    forall n: Name | UserName(n) && AttrName(n) in fs'.names ensures n in fs'.names && fs'.Sole(AttrName(n)) {
      assert fs.Sole(AttrName(n));
    }
    forall n | n in fs.names && UserName(n) ensures Attr(fs', n) == Attr(fs, n) && Raw(fs', n) == Raw(fs, n) {
    }
  }

  lemma ScratchGoes(fs: Fs, decode: Data -> Data, tmp: Name)
    requires fs.Sound() && Scratch(tmp)
    ensures fs.Unlink(tmp).Sound() && Files(fs.Unlink(tmp), decode) == Files(fs, decode)
  {
    hide AttrName, UserName, Base;
    var fs' := fs.Unlink(tmp);
    forall n: Name | UserName(n) && AttrName(n) in fs'.names ensures n in fs'.names && fs'.Sole(AttrName(n)) {
      assert fs.Sole(AttrName(n));
    }
    forall n | n in fs'.names && UserName(n) ensures Attr(fs', n) == Attr(fs, n) && Raw(fs', n) == Raw(fs, n) {
    }
  }

  /** A file's name is made to lead to another inode. */
  lemma NameMoved(fs: Fs, decode: Data -> Data, full: Name, i: InodeId)
    requires fs.Sound() && UserName(full) && i in fs.inodes
    requires forall n: Name :: UserName(n) && AttrName(n) in fs.names ==> fs.names[AttrName(n)] != i
    ensures var fs' := fs.(names := fs.names[full := i]);
      && fs'.Sound()
      && Files(fs', decode) == Files(fs, decode)[full :=
           Shown(if AttrName(full) in fs.names then fs.Stat(AttrName(full)) else fs.inodes[i].attrs, decode(fs.inodes[i].raw))]
  {
    hide AttrName, UserName, Base;
    var fs' := fs.(names := fs.names[full := i]);
    AttrNameIsHidden(full);
    forall n: Name | UserName(n) && AttrName(n) in fs'.names ensures n in fs'.names && fs'.Sole(AttrName(n)) {
      AttrNameIsHidden(n);
      assert fs.Sole(AttrName(n));
    }
    forall n | n in fs.names && UserName(n) && n != full
      ensures Attr(fs', n) == Attr(fs, n) && Raw(fs', n) == Raw(fs, n)
    {
      AttrNameIsHidden(n);
    }
  }

  lemma ShownBy(fs: Fs, decode: Data -> Data, n: Name)
    requires fs.Sound() && n in fs.names && UserName(n)
    ensures n in Files(fs, decode) && Files(fs, decode)[n] == Shown(Attr(fs, n), decode(Raw(fs, n)))
    ensures Files(fs, decode)[n].bytes == decode(Raw(fs, n))
  {
  }

  /** Only hidden names differ, and those that are new lead to new inodes. */
  ghost predicate SameLinks(fs: Fs, fs': Fs) {
    && (forall n :: UserName(n) ==> (n in fs'.names <==> n in fs.names))
    && (forall n :: n in fs'.names ==>
          (n in fs.names && fs'.names[n] == fs.names[n]) || (!UserName(n) && fs'.names[n] !in fs.inodes))
  }

  /** A file open for writing: its name in the file database and the inode behind the descriptor. */
  datatype Writer = Writer(name: Name, inode: InodeId)

  /** Nobody but the writers of a name leads to the inode they write to. */
  ghost predicate WritesAlone(fs: Fs, w: Writer) {
    && UserName(w.name) && w.name in fs.names && fs.names[w.name] == w.inode && fs.Sole(w.name)
  }

  /** A file's contents are the bytes that users see. */
  lemma IsShown(fs: Fs, decode: Data -> Data, n: Name)
    requires fs.Sound() && UserName(n)
    ensures n in Files(fs, decode) <==> n in fs.names
    ensures n in fs.names ==> Files(fs, decode)[n].bytes == Contents(fs, decode, n)
  {
  }

  lemma LinkedFacts(fs: Fs, fs': Fs, t: Name, f: Name)
    requires LinkedTo(fs, fs', t, f) && UserName(t) && t != f
    ensures SameInode(fs', f, t) && t in fs.names && fs'.names[t] == fs.names[t]
    ensures forall n :: UserName(n) && n in fs.names && n != f ==> n in fs'.names && fs'.names[n] == fs.names[n]
    ensures forall n :: UserName(n) && n in fs'.names && n != f ==> n in fs.names
  {
    hide UserName, AttrName;
  }

  lemma InodeExists(fs: Fs, n: Name)
    requires fs.Sound() && n in fs.names
    ensures fs.names[n] in fs.inodes
  {
  }

  lemma NotScratch(n: Name)
    requires UserName(n)
    ensures !Scratch(n)
  {
  }

  /** No temporary file is left. */
  ghost predicate Clean(fs: Fs) {
    forall m :: m in fs.names ==> !Scratch(m)
  }

  /** No name is new but that of a file and of its attribute file. */
  ghost predicate AddsOnly(fs: Fs, fs': Fs, n: Name) {
    forall m :: m in fs'.names ==> m in fs.names || m == n || m == AttrName(n)
  }

  lemma StaysClean(fs: Fs, fs': Fs, n: Name)
    requires Clean(fs) && UserName(n) && AddsOnly(fs, fs', n)
    ensures Clean(fs')
  {
    hide UserName, AttrName;
  }

  lemma MovedAddsOnly(fs: Fs, from: Name, to: Name)
    requires from in fs.names
    ensures AddsOnly(fs, Moved(fs, from, to), to)
  {
    hide UserName, AttrName;
  }

  lemma LinkAddsOnly(fs: Fs, fs': Fs, t: Name, f: Name)
    requires LinkedTo(fs, fs', t, f)
    ensures AddsOnly(fs, fs', f)
  {
    hide UserName, AttrName;
  }

  lemma SharedIff(fs: Fs, n: Name)
    ensures Shared(fs, n) <==> exists m :: m != n && SameInode(fs, m, n)
    ensures Shared(fs, n) ==> n in fs.names
  {
    if n in fs.names {
      SoleIffOneLink(fs, n);
      if Shared(fs, n) {
        var m :| m in fs.names && fs.names[m] == fs.names[n] && m != n;
        assert SameInode(fs, m, n);
      }
    }
  }

  /** The attribute file moves along, or the target has none, or the one that it has shows the same. */
  predicate Follows(fs: Fs, from: Name, to: Name)
    requires fs.Sound() && from in fs.names && UserName(from) && UserName(to)
  {
    || AttrName(from) in fs.names || AttrName(to) !in fs.names
    || Shown(fs.Stat(AttrName(to)), []) == Shown(fs.Stat(from), [])
  }

  lemma RenameMovesFiles(fs: Fs, decode: Data -> Data, from: Name, to: Name)
    requires fs.Sound() && from in fs.names && UserName(from) && UserName(to) && from != to
    requires Follows(fs, from, to)
    ensures Moved(fs, from, to).Sound() && from in Files(fs, decode)
    ensures Files(Moved(fs, from, to), decode) == (Files(fs, decode) - {from})[to := Files(fs, decode)[from]]
  {
    hide AttrName, UserName, Base;
    RenameMovesContents(fs, decode, from, to);
    RenameKeepsAttributesIff(fs, decode, from, to);
    assert from in Files(fs, decode);
    hide Files, Moved;
  }

  function MovedWriters(writers: map<nat, Writer>, from: Name, to: Name): map<nat, Writer> {
    map d | d in writers :: if writers[d].name == from then writers[d].(name := to) else writers[d]
  }

  lemma WriterMoves(fs: Fs, from: Name, to: Name, w: Writer)
    requires fs.Sound() && UserName(from) && UserName(to) && from != to && from in fs.names
    requires WritesAlone(fs, w) && w.name != to
    ensures WritesAlone(Moved(fs, from, to), if w.name == from then w.(name := to) else w)
  {
    hide AttrName, UserName, Base;
    AttrNameIsHidden(from);
    AttrNameIsHidden(to);
    OtherAttr(from, to);
  }

  /** What a write through a descriptor can do to somebody else's file: it changes its bytes if and only if
      that file has come to share the inode and the bytes differ. */
  lemma AWriteChangesAnotherFileIff(fs: Fs, decode: Data -> Data, t: Name, f: Name, raw: Data, now: Time)
    requires fs.Sound() && t in fs.names && f in fs.names && t != f
    ensures Contents(fs.SetRaw(fs.names[t], raw, now), decode, f) != Contents(fs, decode, f)
      <==> fs.names[f] == fs.names[t] && decode(raw) != Contents(fs, decode, t)
  {
  }

  /** Whatever is written through a descriptor, the bytes of no other file change. */
  ghost predicate WritesStay(fs: Fs, decode: Data -> Data, w: Writer)
    requires w.inode in fs.inodes
  {
    forall f: Name, raw: Data, now: Time :: UserName(f) && f in fs.names && f != w.name ==>
      Contents(fs.SetRaw(w.inode, raw, now), decode, f) == Contents(fs, decode, f)
  }

  /** A writer that had its inode to itself still writes to its own file only, after some file `f` has been made a
      link to `t`, if and only if it does not write to `t`; unless all stored forms mean the same. */
  lemma AfterALinkWritesStayIff(fs: Fs, fs': Fs, decode: Data -> Data, t: Name, f: Name, w: Writer, x: Data, y: Data)
    requires fs.Sound() && fs'.Sound() && UserName(t) && UserName(f) && t != f && LinkedTo(fs, fs', t, f)
    requires WritesAlone(fs, w) && w.name != f && decode(x) != decode(y)
    ensures w.inode in fs'.inodes
    ensures WritesStay(fs', decode, w) <==> w.name != t
  {
    hide AttrName, UserName, Base;
    WriterAfterLink(fs, fs', t, f, w);
    if w.name == t {
      var raw := if decode(x) == Contents(fs', decode, t) then y else x;
      AWriteChangesAnotherFileIff(fs', decode, t, f, raw, Time(0, 0));
    } else {
      forall g: Name, raw: Data, now: Time | UserName(g) && g in fs'.names && g != w.name
        ensures Contents(fs'.SetRaw(w.inode, raw, now), decode, g) == Contents(fs', decode, g)
      {
        AWriteChangesAnotherFileIff(fs', decode, w.name, g, raw, now);
      }
    }
  }

  lemma NewInode(fs: Fs, decode: Data -> Data, full: Name, inode: Inode)
    requires fs.Sound() && UserName(full)
    ensures var fs' := fs.Create(full, inode);
      && fs'.Sound()
      && Files(fs', decode) == Files(fs, decode)[full :=
           Shown(if AttrName(full) in fs.names then fs.Stat(AttrName(full)) else inode.attrs, decode(inode.raw))]
  {
    hide AttrName, UserName, Base;
    SpareInode(fs, decode, inode);
    var more := fs.Spare(inode);
    hide Files;
    NameMoved(more, decode, full, fs.next);
    assert fs.Create(full, inode) == more.(names := more.names[full := fs.next]);
  }

  /** An inode that no name leads to yet. */
  lemma SpareInode(fs: Fs, decode: Data -> Data, inode: Inode)
    requires fs.Sound()
    ensures fs.Spare(inode).Sound() && Files(fs.Spare(inode), decode) == Files(fs, decode)
    ensures forall n: Name :: UserName(n) && AttrName(n) in fs.names ==> fs.names[AttrName(n)] != fs.next
  {
    hide AttrName, UserName, Base;
    var more := fs.Spare(inode);
    forall n: Name | UserName(n) && AttrName(n) in fs.names ensures n in more.names && more.Sole(AttrName(n)) {
      assert fs.Sole(AttrName(n));
    }
    forall n | n in fs.names && UserName(n) ensures Attr(more, n) == Attr(fs, n) && Raw(more, n) == Raw(fs, n) {
    }
  }

  lemma NewInodeWriters(fs: Fs, full: Name, inode: Inode)
    requires fs.Sound() && UserName(full)
    ensures forall w :: WritesAlone(fs, w) && w.name != full ==> WritesAlone(fs.Create(full, inode), w)
  {
    hide AttrName, UserName, Base;
  }

  lemma WriterAfterLink(fs: Fs, fs': Fs, t: Name, f: Name, w: Writer)
    requires fs.Sound() && fs'.Sound() && LinkedTo(fs, fs', t, f) && t != f && w.name != f && WritesAlone(fs, w)
    requires UserName(t) && UserName(f)
    ensures WritesAlone(fs', w) <==> w.name != t
  {
    hide UserName, AttrName, Base;
  }

  lemma TempIsScratch(n: Name, pid: Name)
    requires SLASH !in pid
    ensures Scratch(LinkTemp(n, pid))
  {
    hide UserName, AttrName, Base, LinkTemp;
    LinkTempIsHidden(n, pid, n);
    forall m: Name | UserName(m) ensures AttrName(m) != LinkTemp(n, pid) {
      LinkTempIsHidden(n, pid, m);
    }
  }

  /** The names that `mkstemp` finds are good temporary names. */
  lemma TempNameIsScratch(rest: Name)
    requires SLASH !in rest
    ensures Scratch(TEMP + rest)
  {
    hide UserName, AttrName, Base, LinkTemp;
    TempNameIsHidden(rest, rest, rest, rest);
    forall n: Name | UserName(n) ensures AttrName(n) != TEMP + rest {
      TempNameIsHidden(rest, n, rest, rest);
    }
  }

  function Stored(fs: Fs, n: Name): Data {
    if n in fs.names && fs.names[n] in fs.inodes then Raw(fs, n) else []
  }

  predicate Shared(fs: Fs, n: Name) {
    n in fs.names && fs.Links(fs.names[n]) >= 2
  }

  /** The file has an inode of its own and no attribute file. */
  function Copied(fs: Fs, full: Name, a: Attrs, raw: Data): Fs {
    Fs((fs.names - {AttrName(full)})[full := fs.next], fs.inodes[fs.next := Inode(a, raw)], fs.next + 1)
  }

  lemma CopiedIsPrivate(fs: Fs, decode: Data -> Data, full: Name, a: Attrs, raw: Data)
    requires fs.Sound() && UserName(full) && full in fs.names
    ensures var fs' := Copied(fs, full, a, raw);
      && fs'.Sound() && full in fs'.names && fs'.Sole(full)
      && Files(fs', decode) == Files(fs, decode)[full := Shown(a, decode(raw))]
  {
    hide AttrName, UserName, Base;
    var dropped := fs.Unlink(AttrName(full));
    AttrNameIsHidden(full);
    AttrDropped(fs, decode, full);
    SpareInode(dropped, decode, Inode(a, raw));
    var more := dropped.Spare(Inode(a, raw));
    hide Files;
    NameMoved(more, decode, full, fs.next);
    assert Copied(fs, full, a, raw) == more.(names := more.names[full := fs.next]);
  }

  predicate SameInode(fs: Fs, n: Name, m: Name) {
    n in fs.names && m in fs.names && fs.names[n] == fs.names[m]
  }

  lemma SameStored(fs: Fs, n: Name, m: Name)
    requires SameInode(fs, n, m)
    ensures Stored(fs, n) == Stored(fs, m)
  {
  }

  lemma PutInto(was: map<Name, Looks>, now: map<Name, Looks>, n: Name, x: Looks)
    requires now - {n} == was - {n} && n in was
    ensures now[n := x] == was[n := x]
  {
    forall m | m != n ensures m in now <==> m in was {
      assert m in now - {n} <==> m in was - {n};
    }
    forall m | m != n && m in was ensures now[m] == was[m] {
      assert (now - {n})[m] == (was - {n})[m];
    }
  }

  lemma LinkMade(fs: Fs, decode: Data -> Data, t: Name, tmp: Name)
    requires fs.Sound() && UserName(t) && t in fs.names && Scratch(tmp) && tmp !in fs.names
    ensures fs.Link(t, tmp).Sound() && Files(fs.Link(t, tmp), decode) == Files(fs, decode)
  {
    hide AttrName, UserName, Base;
    forall n: Name | UserName(n) && AttrName(n) in fs.names ensures fs.names[AttrName(n)] != fs.names[t] {
      AttrNameIsHidden(n);
      assert fs.Sole(AttrName(n));
    }
    ScratchAppears(fs, decode, tmp, fs.names[t]);
  }

  lemma TempMoved(fs: Fs, decode: Data -> Data, full: Name, tmp: Name)
    requires fs.Sound() && UserName(full) && Scratch(tmp) && tmp in fs.names
    ensures var fs' := fs.(names := fs.names[full := fs.names[tmp]] - {tmp});
      && fs'.Sound()
      && Files(fs', decode) == Files(fs, decode)[full :=
           Shown(if AttrName(full) in fs.names then fs.Stat(AttrName(full)) else fs.Stat(tmp), decode(Raw(fs, tmp)))]
  {
    hide AttrName, UserName, Base;
    forall n: Name | UserName(n) && AttrName(n) in fs.names ensures fs.names[AttrName(n)] != fs.names[tmp] {
      assert fs.Sole(AttrName(n));
    }
    NameMoved(fs, decode, full, fs.names[tmp]);
    ScratchGoes(fs.(names := fs.names[full := fs.names[tmp]]), decode, tmp);
  }

  /** `tmp` is a link to the inode of `t`; what else is new is the attribute file of `f`, with an inode of its own. */
  ghost predicate Prepared(fs: Fs, fs': Fs, t: Name, f: Name, tmp: Name) {
    && t in fs.names && tmp in fs'.names && fs'.names[tmp] == fs.names[t]
    && (forall n :: UserName(n) && n in fs.names ==> n in fs'.names && fs'.names[n] == fs.names[n])
    && (forall n :: n in fs'.names && n != tmp ==>
          (n in fs.names && fs'.names[n] == fs.names[n]) || (n == AttrName(f) && !UserName(n) && fs'.names[n] !in fs.inodes))
  }

  /** After linking, `f` shares the inode of `t`, no other user's name has moved, and the only name that may be new is
      the attribute file of `f`, with an inode of its own. */
  ghost predicate LinkedTo(fs: Fs, fs': Fs, t: Name, f: Name) {
    && t in fs.names && t in fs'.names && f in fs'.names && fs'.names[f] == fs.names[t]
    && (forall n :: UserName(n) && n in fs.names && n != f ==> n in fs'.names && fs'.names[n] == fs.names[n])
    && (forall n :: n in fs'.names && n != f ==>
          (n in fs.names && fs'.names[n] == fs.names[n]) || (n == AttrName(f) && !UserName(n) && fs'.names[n] !in fs.inodes))
  }

  lemma PreparedLinks(fs: Fs, between: Fs, t: Name, f: Name, tmp: Name)
    requires Prepared(fs, between, t, f, tmp) && UserName(t) && UserName(f) && t != f && Scratch(tmp)
    ensures LinkedTo(fs, between.(names := between.names[f := between.names[tmp]] - {tmp}), t, f)
  {
    hide AttrName, UserName;
  }

  /** A rename as it should be on the names: the file moves, and its attribute file if it has one. */
  function Moved(fs: Fs, from: Name, to: Name): Fs
    requires from in fs.names
  {
    var names := fs.names[to := fs.names[from]] - {from};
    fs.(names := if AttrName(from) in fs.names then names[AttrName(to) := fs.names[AttrName(from)]] - {AttrName(from)} else names)
  }

  lemma MovedKeeps(fs: Fs, from: Name, to: Name, m: Name)
    requires from in fs.names && m in fs.names && m != from && m != AttrName(from)
    ensures m in Moved(fs, from, to).names
  {
  }

  lemma MovedIsSound(fs: Fs, from: Name, to: Name)
    requires fs.Sound() && from in fs.names && UserName(from) && UserName(to) && from != to
    ensures Moved(fs, from, to).Sound()
    ensures AttrName(from) in fs.names && AttrName(to) in fs.names ==> fs.names[AttrName(from)] != fs.names[AttrName(to)]
  {
    hide AttrName, UserName, Base;
    var fs' := Moved(fs, from, to);
    AttrNameIsHidden(from);
    AttrNameIsHidden(to);
    OtherAttr(from, to);
    forall n: Name | UserName(n) && AttrName(n) in fs'.names ensures n in fs'.names && fs'.Sole(AttrName(n)) {
      AttrNameIsHidden(n);
      if n != from {
        OtherAttr(n, from);
      }
      if n != to {
        OtherAttr(n, to);
      }
      if AttrName(n) in fs.names {
        assert fs.Sole(AttrName(n));
      }
      if AttrName(from) in fs.names {
        assert fs.Sole(AttrName(from));
      }
    }
  }

  /** A rename keeps the contents, and the attributes of every other file. */
  lemma RenameMovesContents(fs: Fs, decode: Data -> Data, from: Name, to: Name)
    requires fs.Sound() && from in fs.names && UserName(from) && UserName(to) && from != to
    ensures Moved(fs, from, to).Sound()
    ensures var was, now := Files(fs, decode), Files(Moved(fs, from, to), decode);
      && now.Keys == was.Keys - {from} + {to} && now[to].bytes == was[from].bytes
      && forall n :: n in was && n != from && n != to ==> now[n] == was[n]
  {
    hide AttrName, UserName, Base;
    MovedIsSound(fs, from, to);
    var fs' := Moved(fs, from, to);
    forall n | n in fs.names && UserName(n) && n != from && n != to
      ensures n in fs'.names && Attr(fs', n) == Attr(fs, n) && Raw(fs', n) == Raw(fs, n)
    {
      OthersStay(fs, from, to, n);
    }
    assert Files(fs', decode).Keys == Files(fs, decode).Keys - {from} + {to} by {
      AttrNameIsHidden(from);
      AttrNameIsHidden(to);
    }
    assert fs'.names[to] == fs.names[from] by {
      AttrNameIsHidden(from);
      AttrNameIsHidden(to);
    }
  }

  lemma OthersStay(fs: Fs, from: Name, to: Name, n: Name)
    requires fs.Sound() && from in fs.names && UserName(from) && UserName(to) && from != to
    requires n in fs.names && UserName(n) && n != from && n != to
    ensures var fs' := Moved(fs, from, to);
      fs'.Sound() && n in fs'.names && Attr(fs', n) == Attr(fs, n) && Raw(fs', n) == Raw(fs, n)
  {
    hide AttrName, UserName, Base;
    MovedIsSound(fs, from, to);
    AttrNameIsHidden(from);
    AttrNameIsHidden(to);
    AttrNameIsHidden(n);
    OtherAttr(n, from);
    OtherAttr(n, to);
  }

  /** A rename carries the attributes over if and only if the source has an attribute file, or the target has
      none, or the one that the target has kept from its former file happens to show the same. */
  lemma RenameKeepsAttributesIff(fs: Fs, decode: Data -> Data, from: Name, to: Name)
    requires fs.Sound() && from in fs.names && UserName(from) && UserName(to) && from != to
    ensures Moved(fs, from, to).Sound()
    ensures to in Files(Moved(fs, from, to), decode)
    ensures Files(Moved(fs, from, to), decode)[to] == Files(fs, decode)[from]
      <==> Follows(fs, from, to)
  {
    hide AttrName, UserName, Base;
    MovedIsSound(fs, from, to);
    AttrNameIsHidden(from);
    AttrNameIsHidden(to);
    OtherAttr(from, to);
  }

  lemma FileDropped(fs: Fs, decode: Data -> Data, full: Name)
    requires fs.Sound() && UserName(full)
    ensures var fs' := fs.Unlink(AttrName(full)).Unlink(full);
      fs'.Sound() && Files(fs', decode) == Files(fs, decode) - {full}
    ensures full in fs.Unlink(AttrName(full)).names <==> full in fs.names
  {
    hide AttrName, UserName, Base;
    AttrNameIsHidden(full);
    if full in fs.names {
      AttrDropped(fs, decode, full);
      NameDropped(fs.Unlink(AttrName(full)), decode, full);
    } else {
      assert AttrName(full) !in fs.names;
      assert fs.Unlink(AttrName(full)).Unlink(full).names == fs.names;
      assert fs.Unlink(AttrName(full)).Unlink(full) == fs;
    }
  }

  /** An attribute file that the target of a rename has kept is what users see of the renamed file. */
  lemma LeftOverIsShown(fs: Fs, decode: Data -> Data, from: Name, to: Name)
    requires fs.Sound() && from in fs.names && UserName(from) && UserName(to) && from != to
    requires AttrName(from) !in fs.names && AttrName(to) in fs.names
    ensures Moved(fs, from, to).Sound() && to in Files(fs, decode)
    ensures to in Files(Moved(fs, from, to), decode) && from in Files(fs, decode)
    ensures Files(Moved(fs, from, to), decode)[to] == Files(fs, decode)[to].(bytes := Files(fs, decode)[from].bytes)
  {
    hide AttrName, UserName, Base;
    MovedIsSound(fs, from, to);
    AttrNameIsHidden(from);
    AttrNameIsHidden(to);
    OtherAttr(from, to);
  }
}
