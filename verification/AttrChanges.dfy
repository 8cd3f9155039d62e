/**
 Changes of owner, mode and times on a file that may share its inode: what is looked at, what is chosen, what is
 done, and when that is still right.
 */
module AttrChanges {
  import opened Bytes
  import opened Paths
  import opened Backing

  datatype Change = Owner(uid: Option<nat>, gid: Option<nat>) | Mode(mode: nat) | Times(atime: (int, nat), mtime: (int, nat))

  function Changed(a: Attrs, c: Change): Attrs {
    match c
    case Owner(uid, gid) => a.(uid := Update(a.uid, uid), gid := Update(a.gid, gid))
    case Mode(mode) => a.(mode := mode)
    case Times(atime, mtime) => a.(atime := Time(atime.0, atime.1 * 1000), mtime := Time(mtime.0, mtime.1 * 1000))
  }

  /** The change that a user has asked for. */
  function ChangedLooks(x: Looks, c: Change): Looks {
    match c
    case Owner(uid, gid) => x.(uid := Update(x.uid, uid), gid := Update(x.gid, gid))
    case Mode(mode) => x.(mode := mode)
    case Times(_, mtime) => x.(mtime := Time(mtime.0, mtime.1 * 1000))
  }

  /** What is looked at before a change: the file, the number of its links, and the attribute file. */
  datatype Look = Look(file: Attrs, links: nat, attr: Option<Attrs>)

  function LookAt(fs: Fs, n: Name): Look
    requires fs.Sound() && n in fs.names && UserName(n)
  {
    Look(fs.Stat(n), fs.Links(fs.names[n]), if AttrName(n) in fs.names then Some(fs.Stat(AttrName(n))) else None)
  }

  /** What is done then: drop the attribute file, as no longer necessary; write to it; make one out of what was seen
      of the file; or write to the inode. */
  datatype Choice = DropAttr | WriteAttr | MakeAttr(st: Attrs) | WriteInode

  function Choose(l: Look, c: Change): Choice {
    match l.attr
    case Some(attr) => if Unnecessary(l.file, attr, c) then DropAttr else WriteAttr
    case None => if l.links > 1 && Differs(l.file, c) then MakeAttr(l.file) else WriteInode
  }

  /** The attribute file would show what the inode shows. */
  predicate Unnecessary(file: Attrs, attr: Attrs, c: Change) {
    match c
    case Owner(uid, gid) =>
      Some(file.uid) == uid && Some(file.gid) == gid && file.mtime == attr.mtime && file.mode == attr.mode
    case Mode(mode) => file.uid == attr.uid && file.gid == attr.gid && file.mtime == attr.mtime && file.mode == mode
    case Times(_, mtime) =>
      && file.uid == attr.uid && file.gid == attr.gid && file.mtime == Time(mtime.0, mtime.1 * 1000)
      && file.mode == attr.mode
  }

  predicate Differs(file: Attrs, c: Change) {
    match c
    case Owner(uid, gid) => Some(file.uid) != uid || Some(file.gid) != gid
    case Mode(mode) => file.mode != mode
    case Times(_, mtime) => file.mtime != Time(mtime.0, mtime.1 * 1000)
  }

  /** The file system after that; a system call on a name that is not there does nothing. */
  function Acted(fs: Fs, n: Name, choice: Choice, c: Change): Fs
    requires fs.Sound()
  {
    match choice
    case DropAttr => fs.Unlink(AttrName(n))
    case WriteAttr => if AttrName(n) in fs.names then fs.SetAttrs(AttrName(n), Changed(fs.Stat(AttrName(n)), c)) else fs
    case MakeAttr(st) =>
      if AttrName(n) in fs.names then fs.SetAttrs(AttrName(n), Changed(st, c))
      else fs.Create(AttrName(n), Inode(Changed(st, c), []))
    case WriteInode => if n in fs.names then fs.SetAttrs(n, Changed(fs.Stat(n), c)) else fs
  }

  /** The choice is still right: for an inode, that nobody else shows its attributes. */
  predicate Right(fs: Fs, n: Name, choice: Choice, c: Change)
    requires fs.Sound() && n in fs.names && UserName(n)
  {
    var wanted := Changed(Attr(fs, n), c);
    match choice
    case DropAttr => Alike(fs.Stat(n), wanted)
    case WriteAttr => AttrName(n) in fs.names || Alike(fs.Stat(n), wanted)
    case MakeAttr(st) => Alike(Changed(st, c), wanted)
    case WriteInode =>
      && (AttrName(n) in fs.names ==> Alike(Attr(fs, n), wanted))
      && (Alike(Changed(fs.Stat(n), c), fs.Stat(n)) || forall m :: m in fs.names && ShowsInode(fs, m, fs.names[n]) ==> m == n)
  }

  /** Users cannot tell the attributes apart. */
  predicate Alike(a: Attrs, b: Attrs) {
    Shown(a, []) == Shown(b, [])
  }

  /** A file that users see with the attributes of this inode. */
  predicate ShowsInode(fs: Fs, m: Name, i: InodeId) {
    m in fs.names && UserName(m) && fs.names[m] == i && AttrName(m) !in fs.names
  }

  /** Names stay but for one attribute file, no link is added, and no bytes change. */
  ghost predicate ActedOn(fs: Fs, fs': Fs, n: Name) {
    && SameLinks(fs, fs')
    && (forall m :: m in fs.names && m != AttrName(n) ==> m in fs'.names)
    && (forall m :: m in fs'.names && m != AttrName(n) ==> m in fs.names)
    && (forall i :: i in fs.inodes ==> i in fs'.inodes && fs'.inodes[i].raw == fs.inodes[i].raw)
  }

  lemma ActedKeepsLinks(fs: Fs, n: Name, choice: Choice, c: Change)
    requires fs.Sound() && n in fs.names && UserName(n)
    ensures ActedOn(fs, Acted(fs, n, choice, c), n)
  {
    hide AttrName, UserName, Base;
    AttrNameIsHidden(n);
  }

  lemma ActedKeepsBytes(fs: Fs, decode: Data -> Data, n: Name, choice: Choice, c: Change)
    requires fs.Sound() && n in fs.names && UserName(n)
    ensures var fs' := Acted(fs, n, choice, c);
      && fs'.Sound() && SameLinks(fs, fs') && Files(fs', decode).Keys == Files(fs, decode).Keys
      && forall m :: m in Files(fs, decode) ==> Files(fs', decode)[m].bytes == Files(fs, decode)[m].bytes
  {
    hide AttrName, UserName, Base, Acted;
    ActedIsRightIff(fs, decode, n, choice, c);
    ActedKeepsLinks(fs, n, choice, c);
    var fs' := Acted(fs, n, choice, c);
    forall m | m in fs.names && UserName(m) ensures m in fs'.names && Raw(fs', m) == Raw(fs, m) {
      AttrNameIsHidden(n);
    }
  }

  lemma FreshIsRight(fs: Fs, n: Name, c: Change)
    requires fs.Sound() && n in fs.names && UserName(n)
    ensures Right(fs, n, Choose(LookAt(fs, n), c), c)
  {
    hide AttrName, UserName, Base;
    SoleIffOneLink(fs, n);
  }

  /** A file without other links and without an attribute file gets none. */
  lemma OwnNeedsNoFile(fs: Fs, n: Name, c: Change)
    requires fs.Sound() && n in fs.names && UserName(n)
    ensures AttrName(n) !in fs.names && fs.Links(fs.names[n]) <= 1 ==>
              Acted(fs, n, Choose(LookAt(fs, n), c), c).names == fs.names
  {
    hide AttrName, UserName, Base;
  }

  /** A change that keeps both owner and group, or names them as they are, is no change. */
  predicate NoNews(a: Attrs, b: Attrs, c: Change) {
    Alike(a, Changed(b, c)) && (c.Owner? ==> c.uid.Some? && c.gid.Some?)
  }

  /** When a change is made at once, the file has an attribute file afterwards if and only if it had one, or shares its
      inode, and the inode does not show already what is wanted; where owner or group are left as they are, that is
      never noticed. */
  lemma HasAttrFileIff(fs: Fs, n: Name, c: Change)
    requires fs.Sound() && n in fs.names && UserName(n)
    ensures AttrName(n) in Acted(fs, n, Choose(LookAt(fs, n), c), c).names
      <==> (AttrName(n) in fs.names || Shared(fs, n)) && !NoNews(fs.Stat(n), Attr(fs, n), c)
  {
    hide AttrName, UserName, Base;
  }

  /** What users see when an inode's attributes are written: everyone who shows them shows the new ones. */
  lemma InodeWritten(fs: Fs, decode: Data -> Data, n: Name, a: Attrs)
    requires fs.Sound() && n in fs.names && UserName(n)
    ensures var fs' := fs.SetAttrs(n, a);
      && fs'.Sound() && Files(fs', decode).Keys == Files(fs, decode).Keys
      && forall m :: m in Files(fs, decode) ==>
           Files(fs', decode)[m]
           == if ShowsInode(fs, m, fs.names[n]) then Shown(a, Files(fs, decode)[m].bytes) else Files(fs, decode)[m]
  {
    hide AttrName, UserName, Base;
    var fs' := fs.SetAttrs(n, a);
    assert fs'.Sound();
    forall m | m in fs.names && UserName(m)
      ensures Attr(fs', m) == if ShowsInode(fs, m, fs.names[n]) then a else Attr(fs, m)
    {
      AttrNameIsHidden(m);
    }
  }

  lemma ShownChanged(a: Attrs, b: Attrs, c: Change, bytes: Data)
    ensures ChangedLooks(Shown(a, bytes), c) == Shown(Changed(a, c), bytes)
    ensures Alike(a, b) <==> Shown(a, bytes) == Shown(b, bytes)
  {
  }

  /** Whatever was seen before, only the named file changes, and as it should, if and only if the choice is still
      right. */
  lemma ActedIsRightIff(fs: Fs, decode: Data -> Data, n: Name, choice: Choice, c: Change)
    requires fs.Sound() && n in fs.names && UserName(n)
    ensures Acted(fs, n, choice, c).Sound() && n in Files(fs, decode)
    ensures Files(Acted(fs, n, choice, c), decode) == Files(fs, decode)[n := ChangedLooks(Files(fs, decode)[n], c)]
      <==> Right(fs, n, choice, c)
  {
    hide AttrName, UserName, Base;
    InodeExists(fs, n);
    var was, wanted := Files(fs, decode), Changed(Attr(fs, n), c);
    IsShown(fs, decode, n);
    ShownBy(fs, decode, n);
    ShownChanged(Attr(fs, n), wanted, c, was[n].bytes);
    hide Fs.Sound, Files, ChangedLooks, Changed, Shown;
    match choice
    case DropAttr =>
      AttrDropped(fs, decode, n);
      ShownChanged(fs.Stat(n), wanted, c, was[n].bytes);
      SameUpdate(was, n, Shown(fs.Stat(n), was[n].bytes), Shown(wanted, was[n].bytes));
    case WriteAttr =>
      if AttrName(n) in fs.names {
        AttrWritten(fs, decode, n, wanted);
      } else {
        NoChange(was, n, Shown(wanted, was[n].bytes));
        ShownChanged(fs.Stat(n), wanted, c, was[n].bytes);
      }
    case MakeAttr(st) =>
      ShownChanged(Changed(st, c), wanted, c, was[n].bytes);
      SameUpdate(was, n, Shown(Changed(st, c), was[n].bytes), Shown(wanted, was[n].bytes));
      if AttrName(n) in fs.names {
        AttrWritten(fs, decode, n, Changed(st, c));
      } else {
        AttrCreated(fs, decode, n, Changed(st, c));
      }
    case WriteInode => InodeIsRightIff(fs, decode, n, c);
  }

  lemma SameUpdate(files: map<Name, Looks>, n: Name, x: Looks, y: Looks)
    ensures files[n := x] == files[n := y] <==> x == y
  {
    assert files[n := x][n] == x && files[n := y][n] == y;
  }

  lemma NoChange(files: map<Name, Looks>, n: Name, x: Looks)
    requires n in files
    ensures files == files[n := x] <==> files[n] == x
  {
  }

  lemma InodeIsRightIff(fs: Fs, decode: Data -> Data, n: Name, c: Change)
    requires fs.Sound() && n in fs.names && UserName(n)
    ensures Acted(fs, n, WriteInode, c).Sound() && n in Files(fs, decode)
    ensures Files(Acted(fs, n, WriteInode, c), decode) == Files(fs, decode)[n := ChangedLooks(Files(fs, decode)[n], c)]
      <==> Right(fs, n, WriteInode, c)
  {
    hide AttrName, UserName, Base;
    InodeExists(fs, n);
    var was, a := Files(fs, decode), Changed(fs.Stat(n), c);
    var now := Files(fs.SetAttrs(n, a), decode);
    InodeWritten(fs, decode, n, a);
    ShownBy(fs, decode, n);
    ShownChanged(Attr(fs, n), Changed(Attr(fs, n), c), c, was[n].bytes);
    var wanted := was[n := ChangedLooks(was[n], c)];
    forall m | m in fs.names && ShowsInode(fs, m, fs.names[n]) && m != n
      ensures now[m] == wanted[m] <==> Alike(a, fs.Stat(n))
    {
      ShownBy(fs, decode, m);
      ShownChanged(a, fs.Stat(n), c, was[m].bytes);
    }
    assert now == wanted <==> forall m :: m in was ==> now[m] == wanted[m];
  }

  /** If the file is gone when the change is made, an attribute file without a file is left behind if and only if one
      was to be made; what a later file of that name shows is then not its own. */
  lemma ActedIsSoundIff(fs: Fs, n: Name, choice: Choice, c: Change)
    requires fs.Sound() && UserName(n)
    ensures Acted(fs, n, choice, c).Sound() <==> n in fs.names || !choice.MakeAttr?
  {
    hide AttrName, UserName, Base, Changed;
    var fs' := Acted(fs, n, choice, c);
    AttrNameIsHidden(n);
    if n in fs.names {
      ActedIsRightIff(fs, x => x, n, choice, c);
    } else if choice.MakeAttr? {
      assert AttrName(n) in fs'.names && n !in fs'.names;
    } else {
      assert AttrName(n) !in fs.names;
      assert fs'.names == fs.names;
      assert fs' == fs;
    }
  }
}
