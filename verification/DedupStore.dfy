/**
 Deduplication on the backing file system: identical files become hard links to one inode, and hidden
 attribute files give each name back its own owner, mode and times.

 What users see is a plain map from names to contents and attributes; the operations below change the
 backing files step by step and are proved to change that map as they would for independent files.
 */
module DedupStore {
  import opened Bytes
  import opened Paths
  import opened DedupTable
  import opened Backing
  import opened AttrChanges
  import opened DedupEntries
  import opened PlainFiles

  /** What the worker has read of the file that it is compressing: its attributes, and its bytes. */
  datatype Job = Job(name: Name, st: Attrs, bytes: Data)

  datatype Pending = Pending(name: Name, change: Change, choice: Choice)

  function LooksOf(acts: map<nat, Pending>): map<nat, (Name, Change)> {
    map k | k in acts :: (acts[k].name, acts[k].change)
  }

  lemma LooksChange(acts: map<nat, Pending>, k: nat, p: Pending)
    ensures LooksOf(acts[k := p]) == LooksOf(acts)[k := (p.name, p.change)]
    ensures LooksOf(acts - {k}) == LooksOf(acts) - {k}
  {
  }

  /** A file that is being compressed keeps its bytes meanwhile. */
  ghost predicate JobTrue(files: map<Name, Looks>, job: Option<Job>) {
    job.Some? ==> job.value.name in files && files[job.value.name].bytes == job.value.bytes
  }

  lemma JobKept(files: map<Name, Looks>, n: Name, x: Looks, job: Option<Job>)
    requires JobTrue(files, job) && n in files && files[n].bytes == x.bytes
    ensures JobTrue(files[n := x], job)
  {
  }

  class Store {
    /** The bytes that a stored form decompresses to, their MD5 sum, and the compressor that a stored form names. */
    const decode: Data -> Data
    const hash: Data -> Md5
    const compressorOf: Data -> nat
    var fs: Fs
    var db: map<Name, Md5>
    /** The files whose `deduped` flag is cleared, and what the file database says about compressors. */
    var dirty: set<Name>
    var compressor: map<Name, nat>
    var writers: map<nat, Writer>
    /** The compression that is under way, for which the worker has let go of the lock. */
    var job: Option<Job>
    /** The files that are being copied to be opened for writing, with the attributes that were read at first. */
    var copies: map<Name, Attrs>
    /** The changes of attributes for which a thread has looked and chosen. */
    var acts: map<nat, Pending>
    var renames: Halfway

    ghost predicate Valid()
      reads this
    {
      && fs.Sound()
      && DbTrue(Files(fs, decode), db, hash, renames)
      && dirty !! db.Keys
      && (forall d :: d in writers ==> WritesAlone(fs, writers[d]))
      && JobTrue(Files(fs, decode), job)
      && (forall d :: d in writers ==> !Busy(writers[d].name))
      && (job.Some? ==> !Moving(job.value.name) && job.value.name !in copies)
    }

    /** The worker is compressing the file, or it is being copied. */
    predicate Busy(n: Name)
      reads this`job, this`copies
    {
      (job.Some? && job.value.name == n) || n in copies
    }

    predicate IsJob(n: Name)
      reads this`job
    {
      job.Some? && job.value.name == n
    }

    /** A rename holds the locks of the old and of the new name. */
    predicate Moving(n: Name)
      reads this`renames
    {
      n in renames || n in renames.Values
    }

    constructor (decode: Data -> Data, hash: Data -> Md5, compressorOf: Data -> nat)
      ensures this.decode == decode && this.hash == hash && this.compressorOf == compressorOf
      ensures Valid() && fs == Fs(map[], map[], 0) && db == map[] && writers == map[]
      ensures job == None && copies == map[] && acts == map[] && renames == map[]
    {
      this.decode, this.hash, this.compressorOf := decode, hash, compressorOf;
      fs := Fs(map[], map[], 0);
      db, dirty, compressor, writers, job := map[], {}, map[], map[], None;
      copies, acts, renames := map[], map[], map[];
    }

    /** What a user's `stat` says. */
    method GetAttr(full: Name) returns (r: Option<Attrs>)
      requires fs.Sound() && UserName(full)
      ensures r.Some? <==> full in Files(fs, decode)
      ensures r.Some? ==> Files(fs, decode)[full] == Shown(r.value, decode(Raw(fs, full)))
    {
      if full !in fs.names {
        return None;
      }
      var st := fs.Stat(full);
      if AttrName(full) in fs.names {
        var stAttr := fs.Stat(AttrName(full));
        st := st.(uid := stAttr.uid, gid := stAttr.gid, mode := stAttr.mode, mtime := stAttr.mtime, atime := stAttr.atime);
      }
      r := Some(st);
    }

    /** An attribute file with the given attributes, new or overwritten. */
    method CreateAttr(full: Name, st: Attrs)
      requires fs.Sound() && full in fs.names && UserName(full)
      modifies this`fs
      ensures fs.Sound() && AttrName(full) in fs.names && SameLinks(old(fs), fs) && fs.Stat(AttrName(full)) == st
      ensures forall n :: n in old(fs.names) ==> n in fs.names && fs.names[n] == old(fs.names[n])
      ensures fs.names.Keys == old(fs.names).Keys + {AttrName(full)}
      ensures forall i :: i in old(fs.inodes) ==> i in fs.inodes && fs.inodes[i].raw == old(fs.inodes[i].raw)
      ensures Files(fs, decode) == old(Files(fs, decode))[full := Shown(st, old(decode(Raw(fs, full))))]
    {
      hide AttrName, UserName, Base;
      AttrNameIsHidden(full);
      if AttrName(full) in fs.names {
        AttrWritten(fs, decode, full, st);
        fs := fs.SetAttrs(AttrName(full), st);
      } else {
        AttrCreated(fs, decode, full, st);
        fs := fs.Create(AttrName(full), Inode(st, []));
      }
    }

    /** `chown`, `chmod` or `utimes`: look at the file and its attribute file, choose what to write, and write it.
        With nothing in between, only the named file changes, even when others share its inode. */
    method ChangeAttrs(full: Name, c: Change) returns (ok: bool)
      requires fs.Sound() && UserName(full)
      modifies this`fs
      ensures fs.Sound() && ActedOn(old(fs), fs, full)
      ensures ok <==> full in old(fs.names)
      ensures fs == if ok then Acted(old(fs), full, Choose(LookAt(old(fs), full), c), c) else old(fs)
      ensures old(full in fs.names && AttrName(full) !in fs.names && fs.Links(fs.names[full]) <= 1) ==> fs.names == old(fs.names)
      ensures Files(fs, decode) == var was := old(Files(fs, decode)); if ok then was[full := ChangedLooks(was[full], c)] else was
    {
      hide AttrName, UserName, Base, Choose, Acted, Right, Files, Fs.Sound;
      if full !in fs.names {
        return false;
      }
      FreshIsRight(fs, full, c);
      var choice := Choose(LookAt(fs, full), c);
      ActedIsRightIff(fs, decode, full, choice, c);
      ActedKeepsLinks(fs, full, choice, c);
      OwnNeedsNoFile(fs, full, c);
      fs := Acted(fs, full, choice, c);
      ok := true;
    }

    /** `chown`: only the owner of the named file changes. */
    method Chown(full: Name, uid: Option<nat>, gid: Option<nat>) returns (ok: bool)
      requires fs.Sound() && UserName(full)
      modifies this`fs
      ensures fs.Sound() && (ok <==> full in old(fs.names))
      ensures Files(fs, decode) == var was := old(Files(fs, decode));
        if ok then was[full := was[full].(uid := Update(was[full].uid, uid), gid := Update(was[full].gid, gid))] else was
    {
      hide AttrName, UserName, Base, Files, Fs.Sound;
      ok := ChangeAttrs(full, Owner(uid, gid));
    }

    /** `chmod`: only the mode of the named file changes. */
    method Chmod(full: Name, mode: nat) returns (ok: bool)
      requires fs.Sound() && UserName(full)
      modifies this`fs
      ensures fs.Sound() && (ok <==> full in old(fs.names))
      ensures Files(fs, decode) == var was := old(Files(fs, decode));
        if ok then was[full := was[full].(mode := mode)] else was
    {
      hide AttrName, UserName, Base, Files, Fs.Sound;
      ok := ChangeAttrs(full, Mode(mode));
    }

    /** `utimes`: only the modification time of the named file changes; times come in microseconds. */
    method Utime(full: Name, atime: (int, nat), mtime: (int, nat)) returns (ok: bool)
      requires fs.Sound() && UserName(full)
      modifies this`fs
      ensures fs.Sound() && (ok <==> full in old(fs.names))
      ensures Files(fs, decode) == var was := old(Files(fs, decode));
        if ok then was[full := was[full].(mtime := Time(mtime.0, mtime.1 * 1000))] else was
    {
      hide AttrName, UserName, Base, Files, Fs.Sound;
      ok := ChangeAttrs(full, Times(atime, mtime));
    }

    /** `unlink`, and the attribute file with it. */
    method SysUnlink(full: Name) returns (ok: bool)
      requires fs.Sound() && UserName(full)
      modifies this`fs
      ensures fs.Sound()
      ensures ok <==> full in old(fs.names)
      ensures fs == old(fs).Unlink(AttrName(full)).Unlink(full)
      ensures Files(fs, decode) == old(Files(fs, decode)) - {full}
    {
      hide Files, Fs.Sound, AttrName, UserName, Base;
      AttrNameIsHidden(full);
      FileDropped(fs, decode, full);
      fs := fs.Unlink(AttrName(full));
      ok := full in fs.names;
      fs := fs.Unlink(full);
    }

    /** `rename` of one file onto another name. Two links of one inode are a case of their own, because the
        system call would leave both; attribute files follow. */
    method SysRename(from: Name, to: Name) returns (ok: bool)
      requires fs.Sound() && UserName(from) && UserName(to) && from != to
      modifies this`fs
      ensures fs.Sound()
      ensures ok <==> from in old(fs.names)
      ensures !ok ==> fs == old(fs)
      ensures ok ==> fs == Moved(old(fs), from, to)
    {
      hide AttrName, UserName, Base;
      AttrNameIsHidden(from);
      AttrNameIsHidden(to);
      OtherAttr(from, to);
      if from !in fs.names {
        return false;
      }
      MovedIsSound(fs, from, to);
      if fs.Links(fs.names[from]) > 1 && to in fs.names && fs.names[from] == fs.names[to] {
        fs := fs.Unlink(from);
      } else {
        if to in fs.names && fs.names[from] == fs.names[to] {
          SoleIffOneLink(fs, from);
        }
        fs := fs.Rename(from, to);
      }
      if AttrName(from) in fs.names {
        fs := fs.Rename(AttrName(from), AttrName(to));
      }
      assert fs.names == Moved(old(fs), from, to).names;
      ok := true;
    }

    /** The file's contents change: its entry is no longer true. */
    method Discard(full: Name)
      modifies this`db, this`dirty
      requires dirty !! db.Keys
      ensures db == old(db) - {full} && dirty == old(dirty) + {full}
    {
      if full in dirty {
        assert db - {full} == db;
        return;
      }
      dirty := dirty + {full};
      db := db - {full};
    }

    /** Replace a file by a link to the one that the table gives for its hash, or enter it into the table.

        The file's bytes become those of the link's target, and no other name's bytes or attributes change. Whoever
        has a file open for writing still writes alone, unless that file has just become the target of the link. */
    method HardlinkFile(md5: Md5, filename: Name, pid: Name) returns (target: Option<Name>)
      requires Valid() && UserName(filename) && filename in fs.names && SLASH !in pid && !Moving(filename) && !Busy(filename)
      requires md5 == hash(Contents(fs, decode, filename))
      requires forall d :: d in writers ==> writers[d].name != filename
      modifies this`fs, this`db
      ensures fs.Sound() && filename in old(Files(fs, decode))
      ensures Files(fs, decode) == var was := old(Files(fs, decode));
        if target.None? then was else was[filename := was[filename].(bytes := Contents(old(fs), decode, target.value))]
      ensures DbTrue(Files(fs, decode), db, hash, renames) && JobTrue(Files(fs, decode), job)
      ensures db == old(db) || (target.None? && db == old(db)[filename := md5])
      ensures target.Some? ==>
        && target.value in db && db[target.value] == md5 && target.value != filename
        && SameInode(fs, filename, target.value) && LinkedTo(old(fs), fs, target.value, filename)
        && UserName(target.value)
        && (AttrName(filename) in fs.names <==> !Alike(Attr(old(fs), filename), old(fs).Stat(target.value)))
      ensures target.None? ==> fs == old(fs)
      ensures target.None? ==>
        filename in db || LinkTemp(filename, pid) in fs.names || exists t :: t in db && db[t] == md5 && t in renames
      ensures target.None? ==>
        filename in old(db) || LinkTemp(filename, pid) in fs.names || forall t :: t in old(db) && old(db)[t] == md5 ==> t in renames
      ensures forall n :: UserName(n) && n in old(fs.names) && n != filename ==>
        n in fs.names && fs.names[n] == old(fs.names[n])
      ensures (forall d :: d in writers ==> WritesAlone(fs, writers[d]))
        <==> (target.Some? ==> forall d :: d in writers ==> writers[d].name != target.value)
    {
      hide AttrName, UserName, Base, Fs.Sound, Files, DbTrue, JobTrue, LinkedTo;
      IsShown(fs, decode, filename);
      if t :| t in db && db[t] == md5 {
        OnlyOneEntry(t);
        EntryOrHalfway(t);
        if t == filename || t !in fs.names {
          return None;
        }
        TempIsScratch(filename, pid);
        WritersAfterLink(t, filename);
        LinkIsTrue(t, filename, Files(fs, decode)[filename].(bytes := Contents(fs, decode, t)));
        var linked := LinkTo(t, filename, LinkTemp(filename, pid));
        if linked {
          LinkedFacts(old(fs), fs, t, filename);
        }
        return if linked then Some(t) else None;
      }
      EnterTrue(filename);
      db := db[filename := md5];
      target := None;
    }

    /** A file whose hash is not in the table is not in it at all, and its entry is true. */
    lemma EnterTrue(n: Name)
      requires Valid() && UserName(n) && n in fs.names && !Moving(n)
      requires forall t :: t in db ==> db[t] != hash(Contents(fs, decode, n))
      ensures n !in db && DbTrue(Files(fs, decode), db[n := hash(Contents(fs, decode, n))], hash, renames)
    {
      hide UserName, AttrName, Base;
      assert n in Files(fs, decode) && Files(fs, decode)[n].bytes == Contents(fs, decode, n);
    }

    lemma EntryIsTrue(n: Name)
      requires Valid() && n in db && !Moving(n)
      ensures db[n] == hash(Contents(fs, decode, n))
    {
    }

    lemma OnlyOneEntry(t: Name)
      requires Valid() && t in db
      ensures forall u :: u in db && db[u] == db[t] ==> u == t
    {
    }

    /** An entry names a file, or the old name of a rename that is halfway. */
    lemma EntryOrHalfway(t: Name)
      requires Valid() && t in db
      ensures UserName(t) && (t in fs.names <==> t !in renames)
    {
      hide AttrName, Base;
      if t in renames.Values {
        var f :| f in renames && renames[f] == t;
      }
    }

    /** After a link to `t` the table is as true as before, and what is being compressed keeps its bytes. */
    lemma LinkIsTrue(t: Name, f: Name, x: Looks)
      requires Valid() && t in db && db[t] == hash(Contents(fs, decode, f)) && f != t && f in fs.names && UserName(f)
      requires !Moving(f) && !Busy(f)
      ensures f in Files(fs, decode)
      ensures DbTrue(Files(fs, decode)[f := x], db, hash, renames) && JobTrue(Files(fs, decode)[f := x], job)
    {
      hide UserName, AttrName, Base;
      assert f in Files(fs, decode) && Files(fs, decode)[f].bytes == Contents(fs, decode, f);
    }

    /** After a link to `t`, everyone still writes alone if and only if nobody writes to `t`. */
    lemma WritersAfterLink(t: Name, f: Name)
      requires Valid() && UserName(f) && UserName(t) && t != f && t in fs.names
      requires forall d :: d in writers ==> writers[d].name != f
      ensures forall fs': Fs {:trigger LinkedTo(fs, fs', t, f)} :: fs'.Sound() && LinkedTo(fs, fs', t, f) ==>
        ((forall d :: d in writers ==> WritesAlone(fs', writers[d])) <==> forall d :: d in writers ==> writers[d].name != t)
    {
      hide UserName, AttrName, Base;
      forall fs': Fs | fs'.Sound() && LinkedTo(fs, fs', t, f)
        ensures (forall d :: d in writers ==> WritesAlone(fs', writers[d])) <==> forall d :: d in writers ==> writers[d].name != t
      {
        forall d | d in writers ensures WritesAlone(fs', writers[d]) <==> writers[d].name != t {
          WriterAfterLink(fs, fs', t, f, writers[d]);
        }
      }
    }

    /** The worker's pass over a file: hash it, link or enter it, and take note of its new compressor. */
    method DoDedup(filename: Name, readable: bool, pid: Name) returns (target: Option<Name>)
      requires Valid() && UserName(filename) && filename in fs.names && SLASH !in pid && !Moving(filename) && !Busy(filename)
      requires forall t :: t in db && db[t] == hash(Contents(fs, decode, filename)) ==>
                 forall d :: d in writers ==> writers[d].name != t
      requires forall d :: d in writers ==> writers[d].name != filename
      modifies this`fs, this`db, this`dirty, this`compressor
      ensures Valid() && dirty == old(dirty) - {filename} && filename in old(Files(fs, decode))
      ensures Files(fs, decode) == var was := old(Files(fs, decode));
        if target.None? then was else was[filename := was[filename].(bytes := Contents(old(fs), decode, target.value))]
      ensures readable && target.None? ==>
        || filename in db || LinkTemp(filename, pid) in fs.names
        || exists t :: t in db && db[t] == hash(Contents(fs, decode, filename)) && t in renames
      ensures readable && target.None? ==>
        || filename in old(db) || LinkTemp(filename, pid) in fs.names
        || forall t :: t in old(db) && old(db)[t] == hash(Contents(old(fs), decode, filename)) ==> t in renames
      ensures db == old(db) || (target.None? && db == old(db)[filename := hash(Contents(old(fs), decode, filename))])
      ensures target.None? ==> fs == old(fs)
      ensures target.Some? ==>
        && target.value in old(db) && old(db)[target.value] == hash(Contents(old(fs), decode, filename)) && target.value != filename
        && SameInode(fs, filename, target.value) && LinkedTo(old(fs), fs, target.value, filename)
      ensures compressor
           == if target.Some? then old(compressor)[filename := compressorOf(Stored(fs, filename))] else old(compressor)
    {
      hide AttrName, UserName, Base, Fs.Sound, Files, DbTrue, JobTrue, WritesAlone, LinkedTo, LinkTemp, Contents, Stored, SameInode;
      if !readable {
        dirty := dirty - {filename};
        IsShown(fs, decode, filename);
        return None;
      }
      target := HardlinkFile(hash(Contents(fs, decode, filename)), filename, pid);
      if target.Some? {
        SameStored(fs, filename, target.value);
        compressor := compressor[filename := compressorOf(Stored(fs, target.value))];
      }
      dirty := dirty - {filename};
    }

    /** Before a file is opened for writing, a shared inode is copied for it.

        `temp` is a name that nothing has, as `mkstemp` finds one. */
    method DoUndedup(full: Name, temp: Name)
      requires Valid() && UserName(full) && Scratch(temp) && temp !in fs.names && !Busy(full) && !Moving(full)
      modifies this`fs, this`db, this`dirty, this`copies
      ensures forall m :: m in old(fs.names) && m != AttrName(full) ==> m in fs.names
      ensures Valid() && copies == old(copies) && AddsOnly(old(fs), fs, full)
      ensures full in fs.names <==> full in old(fs.names)
      ensures full in fs.names ==> fs.Sole(full)
      ensures Files(fs, decode).Keys == old(Files(fs, decode)).Keys
      ensures if old(Shared(fs, full)) then Undeduped(old(fs), old(db), full)
              else fs == old(fs) && db == old(db) && dirty == old(dirty)
    {
      if full !in fs.names {
        return;
      }
      SoleIffOneLink(fs, full);
      if fs.Links(fs.names[full]) < 2 {
        return;
      }
      Undedup(full, temp);
    }

    /** The file keeps its bytes, its owner, its mode and its modification time to the second; it is private
        now, and not in the table. */
    ghost predicate Undeduped(was: Fs, entries: map<Name, Md5>, full: Name)
      reads this`fs, this`db, this`dirty
    {
      && was.Sound() && full in was.names && UserName(full)
      && fs.Sound() && full in fs.names && fs.Sole(full) && AttrName(full) !in fs.names
      && Stored(fs, full) == Stored(was, full)
      && Files(fs, decode) == Files(was, decode)[full :=
           Shown(Attr(was, full), decode(Raw(was, full))).(mtime := Time(Attr(was, full).mtime.sec, 0))]
      && full in dirty && full !in db && db == entries - {full}
    }

    lemma UndedupedLooks(was: Fs, entries: map<Name, Md5>, full: Name)
      requires Undeduped(was, entries, full)
      ensures was.Sound() && fs.Sound() && full in Files(was, decode)
      ensures var x := Files(was, decode)[full];
        Files(fs, decode) == Files(was, decode)[full := x.(mtime := Time(x.mtime.sec, 0))]
    {
      hide AttrName, UserName, Base;
    }

    method Undedup(full: Name, temp: Name)
      requires Valid() && UserName(full) && Scratch(temp) && temp !in fs.names && full in fs.names && !fs.Sole(full)
      requires !Busy(full) && !Moving(full)
      modifies this`fs, this`db, this`dirty, this`copies
      ensures forall m :: m in old(fs.names) && m != AttrName(full) ==> m in fs.names
      ensures Valid() && Undeduped(old(fs), old(db), full) && copies == old(copies) && AddsOnly(old(fs), fs, full)
    {
      hide AttrName, UserName, Base, Files, DbTrue, WritesAlone, JobTrue;
      ShownBy(fs, decode, full);
      NobodyWrites(full);
      BeginCopy(full);
      EndCopy(full, temp);
    }

    lemma NobodyWrites(full: Name)
      requires Valid() && full in fs.names && !fs.Sole(full)
      ensures forall d :: d in writers ==> writers[d].name != full
    {
    }

    /** The first half: read the attributes that the file shows, and take it out of the table. */
    method BeginCopy(full: Name)
      requires Valid() && UserName(full) && full in fs.names && !Busy(full) && !Moving(full)
      requires forall d :: d in writers ==> writers[d].name != full
      modifies this`db, this`dirty, this`copies
      ensures Valid() && copies == old(copies)[full := Attr(fs, full)]
      ensures db == old(db) - {full} && dirty == old(dirty) + {full}
    {
      hide AttrName, UserName, Base, Files, DbTrue, WritesAlone, JobTrue;
      DbDiscard(Files(fs, decode), full, db, hash, renames);
      var st := if AttrName(full) in fs.names then fs.Stat(AttrName(full)) else fs.Stat(full);
      Discard(full);
      copies := copies[full := st];
    }

    /** The second half: the copy takes the file's place, with the attributes that were read at first. */
    method EndCopy(full: Name, temp: Name)
      requires Valid() && UserName(full) && full in copies && full in fs.names && !Moving(full)
      requires Scratch(temp) && temp !in fs.names
      modifies this`fs, this`copies
      ensures forall m :: m in old(fs.names) && m != AttrName(full) ==> m in fs.names
      ensures Valid() && copies == old(copies) - {full} && AddsOnly(old(fs), fs, full)
      ensures fs.Sole(full) && full in fs.names && AttrName(full) !in fs.names && Stored(fs, full) == old(Stored(fs, full))
      ensures full in old(Files(fs, decode))
      ensures Files(fs, decode) == var was := old(Files(fs, decode)); was[full := CopyShows(old(copies)[full], was[full].bytes)]
    {
      hide AttrName, UserName, Base, Files, DbTrue, WritesAlone, JobTrue, Fs.Sound;
      var st := copies[full];
      ShownBy(fs, decode, full);
      InodeExists(fs, full);
      CopiedIsValid(full, st.(mtime := Time(st.mtime.sec, 0)), Raw(fs, full));
      JobKept(Files(fs, decode), full, CopyShows(st, decode(Raw(fs, full))), job);
      var copy := CopyOf(Raw(fs, full));
      PutCopy(full, temp, st, copy);
      copies := copies - {full};
    }

    /** What users see of a file after the copy: what was read at first, to the second. */
    function CopyShows(st: Attrs, bytes: Data): Looks {
      Shown(st.(mtime := Time(st.mtime.sec, 0)), bytes)
    }

    /** Owner and mode that the file shows are those that were read, or have been changed to them. */
    predicate CopyKeepsOwnerAndMode(full: Name)
      requires fs.Sound() && full in fs.names && full in copies && UserName(full)
      reads this`fs, this`copies
    {
      var now, st := Attr(fs, full), copies[full];
      now.uid == st.uid && now.gid == st.gid && now.mode == st.mode
    }

    /** Copying leaves owner, mode and seconds as users see them if and only if they have not been changed since they
        were read, neither in the inode nor in an attribute file. */
    lemma CopyKeepsIff(full: Name)
      requires Valid() && UserName(full) && full in copies && full in fs.names
      ensures full in Files(fs, decode)
      ensures var was := Files(fs, decode)[full];
        var now := CopyShows(copies[full], was.bytes);
        && (CoreOf(now) == CoreOf(was) <==> CopyKeepsOwnerAndMode(full))
        && (now.mtime.sec == was.mtime.sec <==> Attr(fs, full).mtime.sec == copies[full].mtime.sec)
    {
      hide AttrName, UserName, Base;
    }

    /** Read a file to its end, 4096 bytes at a time. */
    method CopyOf(source: Data) returns (copy: Data)
      ensures copy == source
    {
      copy := [];
      var count := Min(4096, |source|);
      while count > 0
        invariant |copy| <= |source| && 0 <= count == Min(4096, |source| - |copy|)
        invariant copy == source[..|copy|]
        decreases |source| - |copy|
      {
        copy := copy + source[|copy|..|copy| + count];
        count := Min(4096, |source| - |copy|);
      }
      assert source[..|copy|] == source;
    }

    lemma CopiedIsValid(full: Name, a: Attrs, raw: Data)
      requires Valid() && UserName(full) && full in fs.names && raw == Raw(fs, full)
      requires forall d :: d in writers ==> writers[d].name != full
      ensures full in Files(fs, decode)
      ensures var fs' := Copied(fs, full, a, raw);
        && fs'.Sound() && full in fs'.names && fs'.Sole(full) && AttrName(full) !in fs'.names && Stored(fs', full) == raw
        && Files(fs', decode) == Files(fs, decode)[full := Shown(a, decode(raw))]
        && DbTrue(Files(fs', decode), db, hash, renames)
        && forall d :: d in writers ==> WritesAlone(fs', writers[d])
    {
      hide AttrName, UserName, Base, DbTrue;
      AttrNameIsHidden(full);
      ShownBy(fs, decode, full);
      CopiedIsPrivate(fs, decode, full, a, raw);
      DbPut(Files(fs, decode), full, Shown(a, decode(raw)), db, hash, renames);
      hide Files;
      forall d | d in writers ensures WritesAlone(Copied(fs, full, a, raw), writers[d]) {
        AttrNameIsHidden(full);
        assert WritesAlone(fs, writers[d]);
      }
    }

    /** The copy takes the file's place, with the attributes that the file has shown. */
    method PutCopy(full: Name, temp: Name, st: Attrs, copy: Data)
      requires fs.Sound() && UserName(full) && full in fs.names && Scratch(temp) && temp !in fs.names
      modifies this`fs
      ensures fs == Copied(old(fs), full, st.(mtime := Time(st.mtime.sec, 0)), copy)
    {
      hide AttrName, UserName, Base;
      AttrNameIsHidden(full);
      fs := fs.Create(temp, Inode(st, copy));
      fs := fs.Unlink(full);
      fs := fs.Rename(temp, full);
      fs := fs.SetAttrs(full, st.(mtime := Time(st.mtime.sec, 0)));
      fs := fs.Unlink(AttrName(full));
      assert fs.names == Copied(old(fs), full, st.(mtime := Time(st.mtime.sec, 0)), copy).names;
    }

    /** Make a link to `t` under a name of its own and move it over `filename`. */
    method LinkTo(t: Name, filename: Name, tmp: Name) returns (linked: bool)
      requires fs.Sound() && UserName(filename) && filename in fs.names && UserName(t) && t in fs.names && t != filename
      requires Scratch(tmp)
      modifies this`fs
      ensures fs.Sound() && filename in old(Files(fs, decode))
      ensures Files(fs, decode) == var was := old(Files(fs, decode));
        if linked then was[filename := was[filename].(bytes := old(Contents(fs, decode, t)))] else was
      ensures if linked then LinkedTo(old(fs), fs, t, filename) else fs == old(fs) && tmp in fs.names
      ensures linked ==> (AttrName(filename) in fs.names <==> !old(Alike(Attr(fs, filename), fs.Stat(t))))
    {
      hide AttrName, UserName, Base, Fs.Sound, Files, Contents, Shown, LinkedTo;
      IsShown(fs, decode, filename);
      if tmp in fs.names {
        return false;
      }
      ghost var was, before := Files(fs, decode), fs;
      PrepareLink(t, filename, tmp);
      ghost var now, between := Files(fs, decode), fs;
      TakePlace(filename, tmp);
      PutInto(was, now, filename, was[filename].(bytes := old(Contents(fs, decode, t))));
      PreparedLinks(before, between, t, filename, tmp);
      linked := true;
    }

    /** Make the link, and an attribute file if the inode of `t` has other attributes. */
    method PrepareLink(t: Name, filename: Name, tmp: Name)
      requires fs.Sound() && UserName(filename) && filename in fs.names && UserName(t) && t in fs.names && t != filename
      requires Scratch(tmp) && tmp !in fs.names
      modifies this`fs
      ensures fs.Sound() && Prepared(old(fs), fs, t, filename, tmp) && filename in fs.names
      ensures Files(fs, decode) - {filename} == old(Files(fs, decode)) - {filename} && filename in old(Files(fs, decode))
      ensures Shown(if AttrName(filename) in fs.names then fs.Stat(AttrName(filename)) else fs.Stat(tmp), decode(Raw(fs, tmp)))
           == old(Files(fs, decode))[filename].(bytes := old(Contents(fs, decode, t)))
      ensures AttrName(filename) in fs.names <==> !old(Alike(Attr(fs, filename), fs.Stat(t)))
    {
      hide AttrName, UserName, Base;
      LinkMade(fs, decode, t, tmp);
      fs := fs.Link(t, tmp);
      AttrNameIsHidden(filename);
      assert tmp != AttrName(filename);
      CopyAttrs(filename, tmp);
    }

    /** Before `filename` becomes the inode of `tmp`, see to it that it will show the attributes it has now. */
    method CopyAttrs(filename: Name, tmp: Name)
      requires fs.Sound() && UserName(filename) && filename in fs.names && Scratch(tmp) && tmp in fs.names
      modifies this`fs
      ensures fs.Sound() && SameLinks(old(fs), fs)
      ensures forall n :: n in old(fs.names) && n != AttrName(filename) ==> n in fs.names && fs.names[n] == old(fs.names[n])
      ensures forall n :: n in fs.names ==> n in old(fs.names) || n == AttrName(filename)
      ensures forall i :: i in old(fs.inodes) ==> i in fs.inodes && fs.inodes[i].raw == old(fs.inodes[i].raw)
      ensures Files(fs, decode) - {filename} == old(Files(fs, decode)) - {filename}
      ensures Shown(if AttrName(filename) in fs.names then fs.Stat(AttrName(filename)) else fs.Stat(tmp), [])
           == old(Shown(Attr(fs, filename), []))
      ensures AttrName(filename) in fs.names <==> !old(Alike(Attr(fs, filename), fs.Stat(tmp)))
    {
      hide AttrName, UserName, Base;
      var src := if AttrName(filename) in fs.names then fs.Stat(AttrName(filename)) else fs.Stat(filename);
      var target := fs.Stat(tmp);
      if src.uid != target.uid || src.gid != target.gid || src.mode != target.mode || src.mtime != target.mtime {
        CreateAttr(filename, src);
      } else {
        AttrDropped(fs, decode, filename);
        AttrNameIsHidden(filename);
        fs := fs.Unlink(AttrName(filename));
      }
    }

    /** Move a link over a file; if both were links of one inode, `rename` leaves the link to be removed. */
    method TakePlace(filename: Name, tmp: Name)
      requires fs.Sound() && UserName(filename) && filename in fs.names && Scratch(tmp) && tmp in fs.names
      modifies this`fs
      ensures fs.Sound() && fs == old(fs).(names := old(fs).names[filename := old(fs).names[tmp]] - {tmp})
      ensures Files(fs, decode) == old(Files(fs, decode))[filename := old(
        Shown(if AttrName(filename) in fs.names then fs.Stat(AttrName(filename)) else fs.Stat(tmp), decode(Raw(fs, tmp))))]
    {
      hide AttrName, UserName, Base;
      TempMoved(fs, decode, filename, tmp);
      fs := fs.Rename(tmp, filename);
      fs := fs.Unlink(tmp);
      assert fs.names == old(fs).names[filename := old(fs).names[tmp]] - {tmp};
    }


    /** Operations that change no link and no contents keep the table true and the writers alone. */
    lemma AttrsKept(was: Fs)
      requires was.Sound() && fs.Sound() && SameLinks(was, fs)
      requires DbTrue(Files(was, decode), db, hash, renames) && dirty !! db.Keys
      requires forall d :: d in writers ==> WritesAlone(was, writers[d]) && !Busy(writers[d].name)
      requires JobTrue(Files(was, decode), job)
      requires Files(fs, decode).Keys == Files(was, decode).Keys
      requires forall n :: n in Files(was, decode) ==> Files(fs, decode)[n].bytes == Files(was, decode)[n].bytes
      requires job.Some? ==> !Moving(job.value.name) && job.value.name !in copies
      ensures Valid()
    {
      hide AttrName, UserName, Base, Files, DbTrue;
      DbSame(Files(was, decode), Files(fs, decode), db, hash, renames);
      forall d | d in writers ensures WritesAlone(fs, writers[d]) {
        assert WritesAlone(was, writers[d]);
      }
    }

    lemma NotTheJob(n: Name, x: Looks)
      requires Valid() && (n !in Files(fs, decode) || !Busy(n))
      ensures JobTrue(Files(fs, decode)[n := x], job)
    {
    }

    /** A new, empty file. */
    method Create(full: Name, a: Attrs) returns (ok: bool)
      requires Valid() && UserName(full) && !Moving(full)
      modifies this`fs
      ensures Valid() && (ok <==> full !in old(fs.names)) && fs == if ok then old(fs).Create(full, Inode(a, [])) else old(fs)
      ensures Files(fs, decode) == if ok then old(Files(fs, decode))[full := Shown(a, decode([]))] else old(Files(fs, decode))
    {
      hide AttrName, UserName, Base, DbTrue, JobTrue;
      if full in fs.names {
        return false;
      }
      IsShown(fs, decode, full);
      NewInode(fs, decode, full, Inode(a, []));
      NewInodeWriters(fs, full, Inode(a, []));
      DbChange(Files(fs, decode), full, Shown(a, decode([])), db, hash, renames);
      assert db - {full} == db;
      assert fs.Sound();
      NotTheJob(full, Shown(a, decode([])));
      assert AttrName(full) !in fs.names;
      hide Fs.Sound, Files, WritesAlone;
      fs := fs.Create(full, Inode(a, []));
      ok := true;
    }

    /** Open a file for writing: from here on its inode is its own. */
    method OpenWrite(d: nat, full: Name, temp: Name) returns (ok: bool)
      requires Valid() && UserName(full) && Scratch(temp) && temp !in fs.names && d !in writers && !Busy(full) && !Moving(full)
      modifies this`fs, this`db, this`dirty, this`writers, this`copies
      ensures forall m :: m in old(fs.names) && m != AttrName(full) ==> m in fs.names
      ensures Valid() && (ok <==> full in old(fs.names)) && AddsOnly(old(fs), fs, full)
      ensures Files(fs, decode).Keys == old(Files(fs, decode)).Keys
      ensures if old(Shared(fs, full)) then Undeduped(old(fs), old(db), full)
              else fs == old(fs) && db == old(db) && dirty == old(dirty)
      ensures ok ==> full in fs.names && writers == old(writers)[d := Writer(full, fs.names[full])]
      ensures !ok ==> writers == old(writers)
      ensures copies == old(copies)
    {
      hide AttrName, UserName, Base, DbTrue, JobTrue, Files, Fs.Sound, Fs.Sole, Shared, Undeduped;
      DoUndedup(full, temp);
      ok := full in fs.names;
      if ok {
        OpenOwn(d, full);
      }
    }

    /** The descriptor of a file that has its inode to itself. */
    method OpenOwn(d: nat, full: Name)
      requires Valid() && UserName(full) && full in fs.names && fs.Sole(full) && d !in writers && !Busy(full)
      modifies this`writers
      ensures Valid() && writers == old(writers)[d := Writer(full, fs.names[full])]
    {
      hide AttrName, UserName, Base, DbTrue, JobTrue, Files, Fs.Sound, Fs.Sole;
      writers := writers[d := Writer(full, fs.names[full])];
    }

    /** Write through a descriptor: the inode behind it changes in place. In a valid store only the file's own
        bytes change. */
    method Write(d: nat, raw: Data, now: Time)
      requires d in writers && writers[d].inode in fs.inodes && dirty !! db.Keys
      modifies this`fs, this`db, this`dirty
      ensures fs == old(fs).SetRaw(writers[d].inode, raw, now) && db == old(db) - {writers[d].name}
      ensures dirty == old(dirty) + {writers[d].name}
      ensures old(Valid() && !Moving(writers[d].name)) ==> Valid() && writers[d].name in old(Files(fs, decode))
      ensures old(Valid() && !Moving(writers[d].name)) ==> var n, was := writers[d].name, old(Files(fs, decode));
        Files(fs, decode) == was[n :=
          was[n].(bytes := decode(raw), mtime := if AttrName(n) in old(fs.names) then was[n].mtime else now)]
    {
      hide AttrName, UserName, Base, Files, Fs.Sound, DbTrue, WritesAlone;
      var w := writers[d];
      if Valid() && !Moving(w.name) {
        WrittenIsValid(w, raw, now);
      }
      Discard(w.name);
      fs := fs.SetRaw(w.inode, raw, now);
    }

    lemma InodeIsThere(d: nat)
      requires Valid() && d in writers
      ensures writers[d].inode in fs.inodes
    {
    }

    lemma WrittenIsValid(w: Writer, raw: Data, now: Time)
      requires Valid() && WritesAlone(fs, w) && !Moving(w.name)
      ensures w.inode in fs.inodes && w.name in Files(fs, decode)
      ensures var fs', was := fs.SetRaw(w.inode, raw, now), Files(fs, decode);
        && fs'.Sound()
        && Files(fs', decode) == was[w.name :=
             was[w.name].(bytes := decode(raw), mtime := if AttrName(w.name) in fs.names then was[w.name].mtime else now)]
        && DbTrue(Files(fs', decode), db - {w.name}, hash, renames)
        && forall d :: d in writers ==> WritesAlone(fs', writers[d])
    {
      hide AttrName, UserName, Base, DbTrue;
      OwnWritten(fs, decode, w.name, fs.Stat(w.name).(mtime := now), raw);
      ShownBy(fs, decode, w.name);
      var x := Files(fs, decode)[w.name];
      DbChange(Files(fs, decode), w.name,
               x.(bytes := decode(raw), mtime := if AttrName(w.name) in fs.names then x.mtime else now), db, hash, renames);
      hide Files;
    }

    method Release(d: nat)
      requires Valid()
      modifies this`writers
      ensures Valid() && writers == old(writers) - {d}
    {
      hide AttrName, UserName, Base, Files, Fs.Sound;
      writers := writers - {d};
    }

    /** The worker takes up a file that nobody has open for writing: it reads the attributes, and then goes on
        without the lock. */
    method BeginCompress(full: Name)
      requires Valid() && UserName(full) && full in fs.names && job == None && !Moving(full) && !Busy(full)
      requires forall d :: d in writers ==> writers[d].name != full
      modifies this`job
      ensures Valid() && full in Files(fs, decode)
      ensures job == Some(Job(full, fs.Stat(full), Files(fs, decode)[full].bytes))
    {
      job := Some(Job(full, fs.Stat(full), decode(Raw(fs, full))));
    }

    /** Somebody needs the file: the worker gives up. */
    method CancelCompress()
      requires Valid()
      modifies this`job
      ensures Valid() && job == None
    {
      job := None;
    }

    /** No change of owner, mode or seconds has reached the inode since its attributes were read, or an attribute
        file stands in for it. */
    predicate OwnerAndModeKept(j: Job)
      requires j.name in fs.names && fs.names[j.name] in fs.inodes
      reads this`fs
    {
      var now := fs.Stat(j.name);
      AttrName(j.name) in fs.names || (now.uid == j.st.uid && now.gid == j.st.gid && now.mode == j.st.mode)
    }

    predicate SecondsKept(j: Job)
      requires j.name in fs.names && fs.names[j.name] in fs.inodes
      reads this`fs
    {
      AttrName(j.name) in fs.names || fs.Stat(j.name).mtime.sec == j.st.mtime.sec
    }

    /** The file is stored in this form. */
    ghost predicate Holds(n: Name, raw: Data)
      reads this`fs
    {
      n in fs.names && fs.names[n] in fs.inodes && Raw(fs, n) == raw
    }

    /** What users see of a file after it was compressed: the attributes that were read at first, to the second, unless
        there is an attribute file. */
    ghost function ShownAfter(j: Job): Looks
      requires fs.Sound() && j.name in fs.names && j.name in Files(fs, decode)
      reads this`fs
    {
      if AttrName(j.name) in fs.names then Files(fs, decode)[j.name]
      else Shown(j.st.(mtime := Time(j.st.mtime.sec, 0)), Files(fs, decode)[j.name].bytes)
    }

    /** The worker is done: a new inode with the compressed form takes the file's place. */
    method EndCompress(raw: Data, temp: Name)
      requires Valid() && job.Some? && Scratch(temp) && temp !in fs.names
      requires decode(raw) == job.value.bytes
      modifies this`fs, this`db, this`dirty, this`job
      ensures Valid() && job == None && AddsOnly(old(fs), fs, old(job).value.name)
      ensures db == old(db) - {old(job).value.name} && dirty == old(dirty) + {old(job).value.name}
      ensures old(job.value.name in Files(fs, decode) && job.value.name in fs.names)
      ensures Files(fs, decode) == old(Files(fs, decode))[old(job).value.name := old(ShownAfter(job.value))]
      ensures Holds(old(job).value.name, raw)
    {
      hide AttrName, UserName, Base, Files, Fs.Sound, WritesAlone, DbTrue, ShownAfter;
      var j := job.value;
      CompressedIsValid(j, raw, temp);
      Replace(j.name, temp, Inode(j.st.(mtime := Time(j.st.mtime.sec, 0)), raw));
      Discard(j.name);
      job := None;
    }

    /** Compression leaves owner, mode and seconds as users see them if and only if no change of them has reached the
        inode meanwhile, or an attribute file has them. */
    lemma AttributesSurviveIff(j: Job)
      requires Valid() && job == Some(j)
      ensures j.name in fs.names && fs.names[j.name] in fs.inodes && UserName(j.name) && j.name in Files(fs, decode)
      ensures CoreOf(ShownAfter(j)) == CoreOf(Files(fs, decode)[j.name]) <==> OwnerAndModeKept(j)
      ensures ShownAfter(j).mtime.sec == Files(fs, decode)[j.name].mtime.sec <==> SecondsKept(j)
    {
      hide AttrName, UserName, Base;
    }

    /** A new inode takes the place of a file by way of a name of its own. */
    method Replace(full: Name, temp: Name, inode: Inode)
      requires full in fs.names && temp !in fs.names && temp != full && fs.names[full] != fs.next
      modifies this`fs
      ensures fs == old(fs).Create(full, inode)
    {
      fs := fs.Create(temp, inode);
      fs := fs.Rename(temp, full);
      assert fs.names == old(fs).Create(full, inode).names;
    }

    lemma CompressedIsValid(j: Job, raw: Data, temp: Name)
      requires Valid() && job == Some(j) && decode(raw) == j.bytes && Scratch(temp)
      ensures UserName(j.name) && j.name in fs.names && fs.names[j.name] != fs.next && j.name in Files(fs, decode)
      ensures temp != j.name
      ensures var fs' := fs.Create(j.name, Inode(j.st.(mtime := Time(j.st.mtime.sec, 0)), raw));
        && fs'.Sound()
        && Files(fs', decode) == Files(fs, decode)[j.name := ShownAfter(j)]
        && DbTrue(Files(fs', decode), db - {j.name}, hash, renames)
        && forall d :: d in writers ==> WritesAlone(fs', writers[d])
    {
      hide AttrName, UserName, Base, DbTrue;
      NewInode(fs, decode, j.name, Inode(j.st.(mtime := Time(j.st.mtime.sec, 0)), raw));
      NewInodeWriters(fs, j.name, Inode(j.st.(mtime := Time(j.st.mtime.sec, 0)), raw));
      DbPut(Files(fs, decode), j.name, ShownAfter(j), db, hash, renames);
      DbDiscard(Files(fs, decode)[j.name := ShownAfter(j)], j.name, db, hash, renames);
    }

    /** `unlink` of a file that nobody has open for writing. */
    method Remove(full: Name) returns (ok: bool)
      requires Valid() && UserName(full) && !Busy(full) && !Moving(full)
      requires forall d :: d in writers ==> writers[d].name != full
      modifies this`fs, this`db, this`dirty
      ensures fs == old(fs).Unlink(AttrName(full)).Unlink(full)
      ensures Valid() && (ok <==> full in old(fs.names))
      ensures forall m :: m in old(fs.names) && m != AttrName(full) && m != full ==> m in fs.names
      ensures db == old(db) - {full} && dirty == old(dirty) + {full}
      ensures Files(fs, decode) == old(Files(fs, decode)) - {full}
    {
      hide AttrName, UserName, Base, Files, Fs.Sound, DbTrue, WritesAlone;
      RemovedIsValid(full);
      Discard(full);
      ok := SysUnlink(full);
    }

    lemma RemovedIsValid(full: Name)
      requires Valid() && UserName(full) && !Moving(full) && !Busy(full)
      requires forall d :: d in writers ==> writers[d].name != full
      ensures var fs' := fs.Unlink(AttrName(full)).Unlink(full);
        && fs'.Sound()
        && DbTrue(Files(fs', decode), db - {full}, hash, renames)
        && forall d :: d in writers ==> WritesAlone(fs', writers[d])
    {
      hide AttrName, UserName, Base, DbTrue;
      FileDropped(fs, decode, full);
      DbDrop(Files(fs, decode), full, db, hash, renames);
      hide Files;
      AttrNameIsHidden(full);
      forall d | d in writers ensures WritesAlone(fs.Unlink(AttrName(full)).Unlink(full), writers[d]) {
        assert WritesAlone(fs, writers[d]);
      }
    }

    /** `rename` onto a name that nobody has open for writing: the file, its entry, its flag and its writers move. */
    method RenameFile(from: Name, to: Name) returns (ok: bool)
      requires Valid() && UserName(from) && UserName(to) && from != to
      requires !Busy(from) && !Busy(to) && !Moving(from) && !Moving(to)
      requires forall d :: d in writers ==> writers[d].name != to
      modifies this`fs, this`db, this`dirty, this`writers, this`renames
      ensures Valid() && (ok <==> from in old(fs.names)) && renames == old(renames)
      ensures if ok then
          && fs == Moved(old(fs), from, to) && db == MovedEntry(old(db), from, to)
          && writers == MovedWriters(old(writers), from, to)
          && TakesOver(old(db), db, from, to)
        else fs == old(fs) && db == old(db) && writers == old(writers)
      ensures ok ==> (to in dirty <==> from in old(dirty)) && forall n :: n != to ==> (n in dirty <==> n in old(dirty))
    {
      hide TakesOver, AttrName, UserName, Base, Files, Fs.Sound, WritesAlone, DbTrue, JobTrue, Moved, MovedEntry, MovedWriters;
      ok := BeginRename(from, to);
      if ok {
        EndRename(from);
      }
    }

    /** A file is renamed, and its entry with it: a file with the same bytes that the worker comes to afterwards is made a
        link to the new name. */
    method DedupAfterRename(from: Name, to: Name, twin: Name, pid: Name) returns (target: Option<Name>)
      requires Valid() && UserName(from) && UserName(to) && UserName(twin) && SLASH !in pid
      requires from != to && twin != from && twin != to && from in db && twin in fs.names
      requires Contents(fs, decode, twin) == Contents(fs, decode, from) && LinkTemp(twin, pid) !in fs.names
      requires forall n :: n in [from, to, twin] ==> !Busy(n) && !Moving(n) && !OpenForWriting(n)
      modifies this`fs, this`db, this`dirty, this`writers, this`renames, this`compressor
      ensures Valid() && target == Some(to) && SameInode(fs, twin, to) && from !in fs.names
      ensures to in db && db[to] == old(db)[from]
    {
      hide AttrName, UserName, Base, Files, Fs.Sound, WritesAlone, DbTrue, JobTrue, Moved, MovedEntry, MovedWriters, LinkedTo,
        Contents, LinkTemp, SameInode;
      assert forall n :: n in [from, to, twin] ==> n == from || n == to || n == twin;
      assert from in [from, to, twin] && to in [from, to, twin] && twin in [from, to, twin];
      TwinHasNoEntry(from, twin);
      LinkTempStaysFree(from, to, twin, pid);
      MovedKeepsInodes(fs, decode, from, to, twin);
      GoneIs(fs, from, to);
      WritersElsewhere(from, to, twin);
      var ok := RenameFile(from, to);
      OnlyOneEntry(to);
      target := DoDedup(twin, true, pid);
      LinkedFacts(Moved(old(fs), from, to), fs, to, twin);
    }

    lemma TwinHasNoEntry(n: Name, twin: Name)
      requires Valid() && n in db && twin != n && !Moving(n) && !Moving(twin)
      requires Contents(fs, decode, twin) == Contents(fs, decode, n)
      ensures n in fs.names && twin !in db && db[n] == hash(Contents(fs, decode, twin))
    {
      EntryIsTrue(n);
      EntryOrHalfway(n);
      if twin in db {
        EntryIsTrue(twin);
        OnlyOneEntry(n);
      }
    }

    lemma WritersElsewhere(from: Name, to: Name, n: Name)
      requires !OpenForWriting(from) && !OpenForWriting(to) && !OpenForWriting(n)
      ensures forall d :: d in writers ==> writers[d].name != to
      ensures var moved := MovedWriters(writers, from, to);
        forall d :: d in moved ==> moved[d].name != to && moved[d].name != n
    {
      assert forall d :: d in writers ==> OpenForWriting(writers[d].name);
    }

    lemma LinkTempStaysFree(from: Name, to: Name, n: Name, pid: Name)
      requires UserName(to) && from in fs.names && SLASH !in pid && LinkTemp(n, pid) !in fs.names
      ensures LinkTemp(n, pid) !in Moved(fs, from, to).names
    {
      LinkTempIsHidden(n, pid, to);
    }

    /** The first half: the file moves, and whoever has it open. Its entry, and that of the file that it replaces, are
        as they were. */
    method BeginRename(from: Name, to: Name) returns (ok: bool)
      requires Valid() && UserName(from) && UserName(to) && from != to
      requires !Busy(from) && !Busy(to) && !Moving(from) && !Moving(to)
      requires forall d :: d in writers ==> writers[d].name != to
      modifies this`fs, this`writers, this`renames
      ensures Valid() && (ok <==> from in old(fs.names))
      ensures if ok then
          && fs == Moved(old(fs), from, to) && writers == MovedWriters(old(writers), from, to)
          && renames == old(renames)[from := to]
        else fs == old(fs) && writers == old(writers) && renames == old(renames)
    {
      hide AttrName, UserName, Base, Files, Fs.Sound, WritesAlone, DbTrue, JobTrue, Moved, MovedWriters;
      if from in fs.names {
        RenamedIsValid(from, to);
      }
      ok := SysRename(from, to);
      if ok {
        writers := MovedWriters(writers, from, to);
        renames := renames[from := to];
      }
    }

    /** The second half: the replaced file's entry goes, and the moved file's entry and flag become the new name's. */
    method EndRename(from: Name)
      requires Valid() && from in renames
      modifies this`db, this`dirty, this`renames
      ensures Valid() && db == MovedEntry(old(db), from, old(renames)[from]) && renames == old(renames) - {from}
      ensures from != old(renames)[from] && TakesOver(old(db), db, from, old(renames)[from])
      ensures old(renames)[from] in dirty <==> from in old(dirty)
      ensures forall n :: n != old(renames)[from] ==> (n in dirty <==> n in old(dirty))
    {
      hide TakesOver, AttrName, UserName, Base, Files, Fs.Sound, WritesAlone, DbTrue, JobTrue, MovedEntry;
      EntryMovesTrue(from);
      RenameEntry(from, renames[from]);
      renames := renames - {from};
    }

    lemma EntryMovesTrue(from: Name)
      requires Valid() && from in renames
      ensures from != renames[from]
      ensures DbTrue(Files(fs, decode), MovedEntry(db, from, renames[from]), hash, renames - {from})
      ensures job.Some? ==> job.value.name !in (renames - {from}) && job.value.name !in (renames - {from}).Values
    {
      hide AttrName, UserName, Base, DbTrue, MovedEntry;
      HalfwayEnds(Files(fs, decode), db, hash, renames, from);
    }

    /** The table's part of a rename. */
    method RenameEntry(from: Name, to: Name)
      requires dirty !! db.Keys && from != to
      modifies this`db, this`dirty
      ensures db == MovedEntry(old(db), from, to) && TakesOver(old(db), db, from, to) && dirty !! db.Keys
      ensures to in dirty <==> from in old(dirty)
      ensures forall n :: n != to ==> (n in dirty <==> n in old(dirty))
    {
      MovedEntryMeans(db, from, to);
      Discard(to);
      if from !in dirty {
        dirty := dirty - {to};
      }
      if from in db {
        var md5 := db[from];
        db := db - {from};
        db := db[to := md5];
      }
    }

    lemma RenamedIsValid(from: Name, to: Name)
      requires Valid() && UserName(from) && UserName(to) && from != to && from in fs.names
      requires !Busy(from) && !Busy(to) && !Moving(from) && !Moving(to)
      requires forall d :: d in writers ==> writers[d].name != to
      ensures var fs' := Moved(fs, from, to);
        && fs'.Sound() && JobTrue(Files(fs', decode), job)
        && DbTrue(Files(fs', decode), db, hash, renames[from := to])
        && (forall d :: d in MovedWriters(writers, from, to) ==>
             var w := MovedWriters(writers, from, to)[d]; WritesAlone(fs', w) && !Busy(w.name))
      ensures job.Some? ==> job.value.name !in renames[from := to] && job.value.name !in renames[from := to].Values
    {
      hide AttrName, UserName, Base, DbTrue;
      RenameMovesContents(fs, decode, from, to);
      IsShown(fs, decode, from);
      HalfwayNames(renames, from, to);
      hide Files, Moved;
      HalfwayIsTrue(Files(fs, decode), Files(Moved(fs, from, to), decode), db, hash, renames, from, to);
      forall d | d in writers ensures WritesAlone(Moved(fs, from, to), MovedWriters(writers, from, to)[d]) {
        WriterMoves(fs, from, to, writers[d]);
      }
    }

    method ChangeFile(full: Name, c: Change) returns (ok: bool)
      requires Valid() && UserName(full)
      modifies this`fs
      ensures Valid() && (ok <==> full in old(Files(fs, decode))) && ActedOn(old(fs), fs, full)
      ensures ok <==> full in old(fs.names)
      ensures fs == if ok then Acted(old(fs), full, Choose(LookAt(old(fs), full), c), c) else old(fs)
      ensures Files(fs, decode) == var was := old(Files(fs, decode)); if ok then was[full := ChangedLooks(was[full], c)] else was
      ensures old(full in fs.names && AttrName(full) !in fs.names && fs.Links(fs.names[full]) <= 1) ==> fs.names == old(fs.names)
    {
      hide AttrName, UserName, Base, ChangedLooks, Acted, Choose, LookAt;
      LooksKeepBytes(Files(fs, decode), full, c);
      ok := ChangeAttrs(full, c);
      AttrsKept(old(fs));
    }

    /** The two halves of a change of attributes: a thread looks and chooses, without any lock, and acts later. */
    method LookFirst(k: nat, full: Name, c: Change)
      requires Valid() && UserName(full) && full in fs.names
      modifies this`acts
      ensures Valid() && acts == old(acts)[k := Pending(full, c, Choose(LookAt(fs, full), c))]
    {
      hide AttrName, UserName, Base, Files, Fs.Sound, DbTrue, WritesAlone, JobTrue, LookAt, Choose;
      acts := acts[k := Pending(full, c, Choose(LookAt(fs, full), c))];
    }

    /** Whatever has happened in between, as long as the file exists no bytes and no links change; and only the named
        file changes, and as it should, if and only if the choice is still right. */
    method ActNow(k: nat)
      requires Valid() && k in acts && acts[k].name in fs.names && UserName(acts[k].name)
      modifies this`fs, this`acts
      ensures Valid() && acts == old(acts) - {k} && ActedOn(old(fs), fs, old(acts)[k].name)
      ensures fs == Acted(old(fs), old(acts)[k].name, old(acts)[k].choice, old(acts)[k].change)
      ensures old(acts)[k].name in old(Files(fs, decode))
      ensures var p, was := old(acts)[k], old(Files(fs, decode));
        && Files(fs, decode).Keys == was.Keys
        && (Files(fs, decode) == was[p.name := ChangedLooks(was[p.name], p.change)]
            <==> old(Right(fs, acts[k].name, acts[k].choice, acts[k].change)))
    {
      hide AttrName, UserName, Base, Acted, Right, Files, ChangedLooks, ActedOn;
      var Pending(full, c, choice) := acts[k];
      ActedIsRightIff(fs, decode, full, choice, c);
      ActedKeepsLinks(fs, full, choice, c);
      ActedKeepsBytes(fs, decode, full, choice, c);
      fs := Acted(fs, full, choice, c);
      acts := acts - {k};
      AttrsKept(old(fs));
    }

    lemma LooksKeepBytes(files: map<Name, Looks>, n: Name, c: Change)
      ensures n in files ==> ChangedLooks(files[n], c).bytes == files[n].bytes
    {
    }


    /** Owner and mode of the file that is being compressed are safe: they are those that the worker has read, or an
        attribute file has them. */
    ghost predicate AttrsUntouched()
      reads this`fs, this`job
    {
      job.Some? ==>
        job.value.name in fs.names && fs.names[job.value.name] in fs.inodes && OwnerAndModeKept(job.value)
    }

    /** If that file had an attribute file, it has it still. */
    twostate predicate AttrFileStays()
      reads this
    {
      job == old(job) && (job.Some? && AttrName(job.value.name) in old(fs.names) ==> AttrName(job.value.name) in fs.names)
    }

    /** What is left of the store when times are forgotten. */
    ghost function View(): Plain
      requires fs.Sound()
      reads this
    {
      Plain(Cores(Files(fs, decode)), WriterNames(writers))
    }

    predicate OpenForWriting(n: Name)
      reads this
    {
      exists d :: d in writers && writers[d].name == n
    }

    /** What is under way. */
    function UnderWay(): Under
      reads this
    {
      Under(if job.Some? then Some(job.value.name) else None, copies.Keys, renames, LooksOf(acts))
    }

    /** The guards on the target of a rename and of an `unlink` are the kernel's part, and whoever needs a file that is
        being compressed, copied or renamed waits. Where the code has no guard and would go wrong, it is put here: a
        rename must not meet a left-over attribute file that shows something else; the worker links to no file that is
        open for writing, nor to one that a rename has just replaced; a change of attributes must still be the right one
        when it is made; and owner and mode must be those that were read when a copy or the compressed form takes a
        file's place. */
    predicate Allowed(op: Op)
      requires fs.Sound()
      reads this
    {
      match op
      case OpCreate(n, _) => n !in fs.names && !Moving(n)
      case OpOpen(d, n, _) => n in fs.names && d !in writers && !Busy(n) && !Moving(n)
      case OpCopyBegin(n) => Shared(fs, n) && !Busy(n) && !Moving(n)
      case OpCopyEnd(n, _) => n in copies && n in fs.names && UserName(n) && !Moving(n) && CopyKeepsOwnerAndMode(n)
      case OpWrite(d, _, _) => d in writers && !Moving(writers[d].name)
      case OpClose(_) => true
      case OpLook(_, n, _) => n in fs.names
      case OpAct(k, n, c) =>
        && k in acts && acts[k].name == n && acts[k].change == c
        && n in fs.names && UserName(n) && Right(fs, n, acts[k].choice, c)
      case OpChange(n, _) => n in fs.names
      case OpRenameBegin(from, to) => MayRename(from, to)
      case OpRenameEnd(from) => from in renames
      case OpRename(from, to) => MayRename(from, to)
      case OpRemove(n) => !OpenForWriting(n) && !Busy(n) && !Moving(n)
      case OpDedup(n, _, _) =>
        && n in fs.names && !OpenForWriting(n) && job == None && !Busy(n) && !Moving(n) && MayLink(Contents(fs, decode, n))
      case OpCompressBegin(n) => n in fs.names && !OpenForWriting(n) && job == None && !Busy(n) && !Moving(n)
      case OpCompressCancel => true
      case OpCompressEnd(raw, _) =>
        && job.Some? && decode(raw) == job.value.bytes
        && job.value.name in fs.names && fs.names[job.value.name] in fs.inodes && OwnerAndModeKept(job.value)
    }

    predicate MayLink(bytes: Data)
      reads this
    {
      forall t :: t in db && db[t] == hash(bytes) ==>
        !OpenForWriting(t) && (t in renames.Values ==> Contents(fs, decode, t) == bytes)
    }

    predicate MayRename(from: Name, to: Name)
      requires fs.Sound()
      reads this
    {
      && from != to && from in fs.names && !OpenForWriting(to)
      && !Busy(from) && !Busy(to) && !Moving(from) && !Moving(to)
      && UserName(from) && UserName(to) && Follows(fs, from, to)
    }

    /** What users see afterwards is what they have asked for, and nobody is left writing to another's file. */
    ghost predicate Harmless(op: Op)
      requires fs.Sound()
      reads this
    {
      match op
      case OpCopyBegin(n) => exists m :: m != n && SameInode(fs, m, n)
      case OpCopyEnd(n, _) => CopiesWell(n)
      case OpAct(k, n, c) => ActsWell(k, n, c)
      case OpRenameBegin(from, to) => RenamesWell(from, to)
      case OpRename(from, to) => RenamesWell(from, to)
      case OpDedup(n, _, _) => LinksWell(n)
      case OpCompressEnd(raw, _) => PacksWell(raw)
      case _ => true
    }

    /** The copy shows the owner and the mode that the file has now. */
    ghost predicate CopiesWell(n: Name)
      requires fs.Sound()
      reads this
    {
      && n in copies && n in Files(fs, decode)
      && CoreOf(CopyShows(copies[n], Files(fs, decode)[n].bytes)) == CoreOf(Files(fs, decode)[n])
    }

    /** Only the named file changes, and as it should. */
    ghost predicate ActsWell(k: nat, n: Name, c: Change)
      requires fs.Sound()
      reads this
    {
      k in acts && n in Files(fs, decode) &&
      var later := Acted(fs, n, acts[k].choice, c);
      later.Sound() && Files(later, decode) == Files(fs, decode)[n := ChangedLooks(Files(fs, decode)[n], c)]
    }

    /** Nobody writes to a file that has the entry for these bytes, and where a rename has put another file in its place,
        that one has these bytes too. */
    ghost predicate LinksWell(n: Name)
      requires fs.Sound()
      reads this
    {
      n in Files(fs, decode) &&
      forall t :: t in db && db[t] == hash(Files(fs, decode)[n].bytes) ==>
        && t !in WriterNames(writers).Values
        && (t in renames.Values ==> t in Files(fs, decode) && Files(fs, decode)[t].bytes == Files(fs, decode)[n].bytes)
    }

    /** The compressed form decompresses to the file's bytes, and owner and mode stay. */
    ghost predicate PacksWell(raw: Data)
      requires fs.Sound()
      reads this
    {
      && job.Some? && job.value.name in Files(fs, decode) && decode(raw) == job.value.bytes
      && CoreOf(ShownAfter(job.value)) == CoreOf(Files(fs, decode)[job.value.name])
    }

    /** The renamed file shows what it has shown. */
    ghost predicate RenamesWell(from: Name, to: Name)
      requires fs.Sound()
      reads this
    {
      from in Files(fs, decode) &&
      var later := Moved(fs, from, to);
      later.Sound() && to in Files(later, decode) && Files(later, decode)[to] == Files(fs, decode)[from]
    }

    ghost predicate CanBeDone(op: Op)
      requires fs.Sound()
      reads this
    {
      Takes(View(), UnderWay(), op) && Harmless(op)
    }

    /** The guards let through exactly what can be done: nothing holds it up, and it does no harm. */
    lemma AllowedIff(op: Op, used: set<Data>)
      requires Valid() && Proper(op, decode, used)
      ensures Allowed(op) <==> CanBeDone(op)
    {
      hide AttrName, UserName, Base, Scratch, Files, DbTrue, JobTrue, WritesAlone, Right, Follows, Acted, Moved, Shared, SameInode,
        CopyKeepsOwnerAndMode, OwnerAndModeKept, ShownAfter, CopyShows, CoreOf, Cores, WriterNames, Contents, ChangedLooks,
        OpenForWriting, Busy, Moving, Free, Settled, UnderWay, RenamesWell, ActsWell, LinksWell, PacksWell, CopiesWell, MayLink,
        Fs.Sound;
      ViewMeans();
      match op
      case OpCopyBegin(n) => SharedIff(fs, n);
      case OpCopyEnd(n, _) => CopyEndIff(n);
      case OpAct(k, n, c) => ActIff(k, n, c);
      case OpRenameBegin(from, to) => RenameIff(from, to);
      case OpRename(from, to) => RenameIff(from, to);
      case OpDedup(n, _, _) => DedupIff(n);
      case OpCompressEnd(raw, _) => CompressEndIff(raw);
      case _ =>
    }

    /** What the state of the store says about what users see and what is under way. */
    lemma ViewMeans()
      requires Valid()
      ensures forall n :: UserName(n) ==> (n in View().files <==> n in fs.names)
      ensures forall d :: d in writers <==> d in View().open
      ensures forall d :: d in writers ==> View().open[d] == writers[d].name
      ensures forall n :: OpenForWriting(n) <==> n in View().open.Values
      ensures forall n :: Settled(UnderWay(), n) <==> !Moving(n)
      ensures forall n :: Free(UnderWay(), n) <==> !Busy(n) && !Moving(n)
      ensures forall n :: n in UnderWay().copies <==> n in copies
      ensures UnderWay().job == None <==> job == None
      ensures UnderWay().renames == renames
      ensures forall k :: k in UnderWay().looks <==> k in acts
      ensures forall k :: k in acts ==> UnderWay().looks[k] == (acts[k].name, acts[k].change)
    {
      hide AttrName, UserName, Base, DbTrue, JobTrue, WritesAlone;
      var open := View().open;
      forall n ensures OpenForWriting(n) <==> n in open.Values {
        if OpenForWriting(n) {
          var d :| d in writers && writers[d].name == n;
          assert open[d] == n;
        }
        if n in open.Values {
          var d :| d in open && open[d] == n;
          assert d in writers && writers[d].name == n;
        }
      }
    }

    lemma CopyEndIff(n: Name)
      requires Valid() && UserName(n)
      ensures n in copies && n in fs.names ==> (CopyKeepsOwnerAndMode(n) <==> CopiesWell(n))
    {
      hide AttrName, UserName, Base, DbTrue, JobTrue, WritesAlone, CopyKeepsOwnerAndMode, CopyShows, Files;
      if n in copies && n in fs.names {
        CopyKeepsIff(n);
      }
    }

    lemma ActIff(k: nat, n: Name, c: Change)
      requires Valid() && UserName(n)
      ensures n in fs.names && k in acts ==> (Right(fs, n, acts[k].choice, c) <==> ActsWell(k, n, c))
    {
      hide AttrName, UserName, Base, DbTrue, JobTrue, WritesAlone, Acted, Right, Files, ChangedLooks;
      if n in fs.names && k in acts {
        ActedIsRightIff(fs, decode, n, acts[k].choice, c);
      }
    }

    lemma RenameIff(from: Name, to: Name)
      requires Valid() && UserName(from) && UserName(to)
      ensures from in fs.names && from != to ==> (Follows(fs, from, to) <==> RenamesWell(from, to))
    {
      hide AttrName, UserName, Base, DbTrue, JobTrue, WritesAlone, Moved, Follows;
      if from in fs.names && from != to {
        RenameKeepsAttributesIff(fs, decode, from, to);
        IsShown(fs, decode, from);
      }
    }

    lemma DedupIff(n: Name)
      requires Valid() && UserName(n)
      ensures n in fs.names ==> (MayLink(Contents(fs, decode, n)) <==> LinksWell(n))
    {
      hide AttrName, UserName, Base, Contents, OpenForWriting, Cores, WriterNames, Files, WritesAlone;
      ViewMeans();
      if n in fs.names {
        IsShown(fs, decode, n);
        forall t | t in db && t in renames.Values
          ensures t in Files(fs, decode) && Files(fs, decode)[t].bytes == Contents(fs, decode, t)
        {
          var f :| f in renames && renames[f] == t;
          EntryOrHalfway(t);
          IsShown(fs, decode, t);
        }
      }
    }

    lemma BytesAre(n: Name)
      requires Valid() && UserName(n) && n in fs.names
      ensures n in View().files && View().files[n].bytes == Contents(fs, decode, n)
    {
      hide AttrName, UserName, Base, DbTrue, JobTrue, WritesAlone;
      IsShown(fs, decode, n);
    }

    lemma CompressEndIff(raw: Data)
      requires Valid()
      ensures job.Some? ==> var n := job.value.name;
        && n in fs.names && fs.names[n] in fs.inodes
        && (decode(raw) == job.value.bytes && OwnerAndModeKept(job.value) <==> PacksWell(raw))
      ensures job == None ==> !PacksWell(raw)
    {
      hide AttrName, UserName, Base, DbTrue, WritesAlone, OwnerAndModeKept, ShownAfter, Files;
      if job.Some? {
        AttributesSurviveIff(job.value);
      }
    }

    /** Onto a new name, a rename always goes well: no attribute file is left there. */
    lemma DecidedIsHarmless(op: Op, used: set<Data>)
      requires Valid() && Proper(op, decode, used) && Decided(View(), op) && Takes(View(), UnderWay(), op)
      ensures Harmless(op)
    {
      hide AttrName, UserName, Base, Scratch, Files, DbTrue, JobTrue, WritesAlone, Follows, Moved,
        WriterNames, Free, Settled, UnderWay, RenamesWell;
      ViewMeans();
      match op
      case OpRenameBegin(from, to) => RenamesToNew(from, to);
      case OpRename(from, to) => RenamesToNew(from, to);
      case _ =>
    }

    lemma RenamesToNew(from: Name, to: Name)
      requires Valid() && UserName(from) && UserName(to) && from != to && from in fs.names && to !in fs.names
      ensures RenamesWell(from, to)
    {
      hide UserName, Base, AttrName, RenamesWell, DbTrue, JobTrue, WritesAlone;
      RenameIff(from, to);
    }

    /** The entry of a file goes: its bytes change, or it is copied, replaced or removed. */
    predicate Discards(op: Op, n: Name)
      reads this
    {
      match op
      case OpOpen(_, m, _) => n == m && Shared(fs, m)
      case OpCopyBegin(m) => n == m
      case OpWrite(d, _, _) => d in writers && n == writers[d].name
      case OpRemove(m) => n == m
      case OpCompressEnd(_, _) => IsJob(n)
      case _ => false
    }

    /** What an operation does to the table: a rename moves an entry, some operations drop that of their file, the worker's
        pass may enter its file, and all other entries stay. */
    twostate predicate TableFollows(op: Op, done: bool)
      reads this
    {
      if done && op.OpRename? then TakesOver(old(db), db, op.from, op.to)
      else if done && op.OpRenameEnd? then op.from in old(renames) && TakesOver(old(db), db, op.from, old(renames)[op.from])
      else
        && (forall n :: n in old(db) ==> (n in db <==> !(done && old(Discards(op, n)))) && (n in db ==> db[n] == old(db)[n]))
        && (forall n :: n in db && !(done && op.OpDedup? && n == op.name) ==> n in old(db))
    }

    /** After the worker's pass over a file that it can read, the file has the entry of its hash or is a link to the file
        that has, unless that one is being renamed. */
    ghost predicate Deduped(op: Op)
      requires fs.Sound()
      reads this
    {
      op.OpDedup? && op.readable ==>
        op.name in View().files &&
        exists t :: t in db && db[t] == hash(View().files[op.name].bytes) && (SameInode(fs, op.name, t) || t in renames)
    }

    /** What has been begun can be ended at once. */
    ghost predicate CanEnd(op: Op)
      requires fs.Sound()
      reads this
    {
      match op
      case OpCopyBegin(n) => forall temp: Name :: Scratch(temp) ==> CanBeDone(OpCopyEnd(n, temp))
      case OpLook(k, n, c) => CanBeDone(OpAct(k, n, c))
      case OpCompressBegin(n) =>
        n in View().files &&
        forall raw: Data, temp: Name :: Scratch(temp) && decode(raw) == View().files[n].bytes ==>
          CanBeDone(OpCompressEnd(raw, temp))
      case _ => true
    }

    ghost predicate MayEnd(op: Op)
      requires fs.Sound()
      reads this
    {
      match op
      case OpCopyBegin(n) => forall temp: Name :: Scratch(temp) ==> Allowed(OpCopyEnd(n, temp))
      case OpLook(k, n, c) => Allowed(OpAct(k, n, c))
      case OpCompressBegin(n) =>
        n in View().files &&
        forall raw: Data, temp: Name :: Scratch(temp) && decode(raw) == View().files[n].bytes ==>
          Allowed(OpCompressEnd(raw, temp))
      case _ => true
    }

    lemma EndIff(op: Op, used: set<Data>)
      requires Valid() && Proper(op, decode, used) && MayEnd(op)
      ensures CanEnd(op)
    {
      hide AttrName, UserName, Base, Scratch, Files, DbTrue, JobTrue, WritesAlone, Allowed, CanBeDone, Fs.Sound;
      match op
      case OpCopyBegin(n) =>
        forall temp: Name | Scratch(temp) ensures CanBeDone(OpCopyEnd(n, temp)) {
          AllowedIff(OpCopyEnd(n, temp), used);
        }
      case OpLook(k, n, c) => AllowedIff(OpAct(k, n, c), used);
      case OpCompressBegin(n) =>
        forall raw: Data, temp: Name | Scratch(temp) && decode(raw) == View().files[n].bytes
          ensures CanBeDone(OpCompressEnd(raw, temp))
        {
          AllowedIff(OpCompressEnd(raw, temp), used);
        }
      case _ =>
    }

    /** One operation, if its guard lets it through, which is if nothing holds it up and it does no harm. */
    method Step(op: Op, ghost used: set<Data>) returns (done: bool)
      requires Valid() && Clean(fs) && Proper(op, decode, used)
      requires forall x, y :: x in used && y in used && hash(x) == hash(y) ==> x == y
      requires forall n :: n in View().files ==> View().files[n].bytes in used
      modifies this
      ensures done <==> old(CanBeDone(op))
      ensures old(Decided(View(), op)) ==> (done <==> old(Takes(View(), UnderWay(), op)))
      ensures Valid() && Clean(fs) && View() == PlainStep(old(View()), op, decode, done)
      ensures UnderWay() == UnderStep(old(UnderWay()), op, done)
      ensures TableFollows(op, done) && (done ==> Deduped(op) && CanEnd(op))
      ensures old(job.Some?) && !Disturbs(op, old(job.value.name)) ==>
                job == old(job) && (old(AttrsUntouched()) ==> AttrsUntouched())
    {
      hide AttrName, UserName, Base, Fs.Sound, Files, DbTrue, WritesAlone, JobTrue, Scratch, Attr, Proper, PlainStep, UnderStep,
        Allowed, Takes, Decided, Harmless, UnderWay, Deduped, CanEnd, MayEnd, Clean, Discards;
      done := Allowed(op);
      AllowedIff(op, used);
      if Takes(View(), UnderWay(), op) && Decided(View(), op) {
        DecidedIsHarmless(op, used);
      }
      if !done {
        NotDone(op);
        return;
      }
      ghost var safe := job.Some? && !Disturbs(op, job.value.name);
      if safe {
        OtherFilesStay(op);
      }
      hide TableFollows;
      Dispatch(op, used);
      EndIff(op, used);
      if safe && old(AttrsUntouched()) {
        StillUntouched();
      }
    }

    lemma NotDone(op: Op)
      requires Valid()
      ensures View() == PlainStep(View(), op, decode, false) && UnderWay() == UnderStep(UnderWay(), op, false)
    {
    }

    method Dispatch(op: Op, ghost used: set<Data>)
      requires Valid() && Clean(fs) && Proper(op, decode, used) && Allowed(op)
      requires forall x, y :: x in used && y in used && hash(x) == hash(y) ==> x == y
      requires forall n :: n in View().files ==> View().files[n].bytes in used
      modifies this
      ensures Valid() && Clean(fs) && Stepped(op) && Deduped(op) && MayEnd(op)
      ensures old(job.Some?) && !Disturbs(op, old(job.value.name)) ==> AttrFileStays()
    {
      hide AttrName, UserName, Base, Fs.Sound, Files, DbTrue, WritesAlone, JobTrue, Scratch, Attr, Allowed, Choose, LookAt,
        MovedEntry, Cores, WriterNames, Clean, Stepped, Deduped, MayEnd, MayRename, AttrFileStays,
        PlainStep, UnderWay, Moving, Busy, OpenForWriting, TableFollows;
      if job.Some? && !Disturbs(op, job.value.name) {
        OtherFilesStay(op);
      }
      GuardOf(op);
      match op {
      case OpCreate(n, attrs) => StepCreate(n, attrs);
      case OpOpen(d, n, temp) => StepOpen(d, n, temp);
      case OpCopyBegin(n) => StepCopyBegin(n);
      case OpCopyEnd(n, temp) => StepCopyEnd(n, temp);
      case OpWrite(d, raw, now) => StepWrite(d, raw, now);
      case OpClose(d) => StepClose(d);
      case OpLook(k, n, c) => StepLook(k, n, c);
      case OpAct(k, n, c) => StepAct(k, n, c);
      case OpChange(n, c) => StepChange(n, c);
      case OpRenameBegin(from, to) => StepRename(from, to);
      case OpRenameEnd(from) => StepRenameEnd(from);
      case OpRename(from, to) => StepWholeRename(from, to);
      case OpRemove(n) => StepRemove(n);
      case OpDedup(n, readable, pid) => StepDedup(n, readable, pid, used);
      case OpCompressBegin(n) => StepBegin(n);
      case OpCompressCancel => StepCancel();
      case OpCompressEnd(raw, temp) => StepEnd(raw, temp);
      }
      NothingToEnd(op);
    }

    lemma NothingToEnd(op: Op)
      requires fs.Sound()
      ensures !op.OpDedup? ==> Deduped(op)
      ensures !op.OpCopyBegin? && !op.OpLook? && !op.OpCompressBegin? ==> MayEnd(op)
    {
    }

    /** What the methods below ask for in their own terms. */
    lemma GuardOf(op: Op)
      requires Valid() && Allowed(op)
      ensures op.OpLook? ==> op.name in fs.names
      ensures op.OpRenameEnd? ==> op.from in renames
      ensures op.OpAct? ==> op.name in fs.names
      ensures op.OpRename? || op.OpRenameBegin? ==> MayRename(op.from, op.to)
      ensures op.OpCopyBegin? ==> op.name in fs.names && !fs.Sole(op.name) && !Busy(op.name) && !Moving(op.name)
      ensures op.OpRemove? ==> !OpenForWriting(op.name) && !Busy(op.name) && !Moving(op.name)
      ensures op.OpCompressBegin? ==>
                op.name in fs.names && job == None && !Busy(op.name) && !Moving(op.name) && !OpenForWriting(op.name)
    {
      if op.OpCopyBegin? {
        SoleIffOneLink(fs, op.name);
      }
    }

    lemma CopyMayEnd(n: Name)
      requires Valid() && UserName(n) && n in fs.names && n in copies && copies[n] == Attr(fs, n) && !Moving(n)
      ensures MayEnd(OpCopyBegin(n))
    {
    }

    lemma LookMayEnd(k: nat, n: Name, c: Change)
      requires Valid() && UserName(n) && n in fs.names && k in acts && acts[k].name == n && acts[k].change == c
      requires Right(fs, n, acts[k].choice, c)
      ensures MayEnd(OpLook(k, n, c))
    {
    }

    lemma PassMayEnd(n: Name)
      requires Valid() && UserName(n) && n in fs.names && fs.names[n] in fs.inodes && n in Files(fs, decode)
      requires job == Some(Job(n, fs.Stat(n), Files(fs, decode)[n].bytes))
      ensures MayEnd(OpCompressBegin(n))
    {
      hide AttrName, UserName, Base, DbTrue, WritesAlone, Scratch;
    }

    /** A step of each kind. */
    twostate predicate Stepped(op: Op)
      requires old(fs.Sound()) && fs.Sound()
      reads this
    {
      && View() == PlainStep(old(View()), op, decode, true) && UnderWay() == UnderStep(old(UnderWay()), op, true)
      && TableFollows(op, true)
    }

    /** A step that leaves the core of the job's file and its attribute file leaves its owner and mode safe. */
    twostate lemma StillUntouched()
      requires old(Valid()) && Valid() && AttrFileStays() && old(AttrsUntouched())
      requires old(job.Some?) ==> job.value.name in old(View()).files && job.value.name in View().files
      requires old(job.Some?) ==> View().files[job.value.name] == old(View()).files[job.value.name]
      ensures AttrsUntouched()
    {
      hide AttrName, UserName, Base;
    }

    /** What the guards let through while a file is being compressed does not change the core of that file, unless it
        changes its owner or mode. */
    lemma OtherFilesStay(op: Op)
      requires Valid() && job.Some? && Allowed(op) && !Disturbs(op, job.value.name)
      ensures !op.OpDedup? && !op.OpCompressBegin? && job.value.name in View().files
      ensures var q := PlainStep(View(), op, decode, true);
        job.value.name in q.files && q.files[job.value.name] == View().files[job.value.name]
    {
      hide AttrName, UserName, Base, DbTrue, WritesAlone, Right, Shared, CopyKeepsOwnerAndMode, OwnerAndModeKept, Attr,
        OpenForWriting;
    }

    method StepCreate(n: Name, attrs: Attrs)
      requires Valid() && Clean(fs) && UserName(n) && Allowed(OpCreate(n, attrs))
      modifies this`fs
      ensures Valid() && Clean(fs) && Stepped(OpCreate(n, attrs)) && AttrFileStays()
    {
      hide Clean, AttrName, UserName, Base, Fs.Sound, DbTrue, WritesAlone, JobTrue, Cores, LooksOf, WriterNames;
      ghost var was := Files(fs, decode);
      var ok := Create(n, attrs);
      CoresPut(was, n, Shown(attrs, decode([])));
      StaysClean(old(fs), fs, n);
    }

    method StepOpen(d: nat, n: Name, temp: Name)
      requires Valid() && Clean(fs) && UserName(n) && Scratch(temp) && Allowed(OpOpen(d, n, temp))
      modifies this`fs, this`db, this`dirty, this`writers, this`copies
      ensures Valid() && Clean(fs) && Stepped(OpOpen(d, n, temp)) && AttrFileStays()
    {
      hide AttrName, UserName, Base, DbTrue, WritesAlone, JobTrue, Files, Shared, Fs.Sound, Fs.Sole, WriterNames, Cores, CoreOf,
        Undeduped, Scratch;
      if job.Some? {
        OtherAttr(job.value.name, n);
      }
      ghost var was := Files(fs, decode);
      IsFile(n);
      CoresPut(was, n, was[n].(mtime := Time(was[n].mtime.sec, 0)));
      SameCore(was[n], Time(was[n].mtime.sec, 0));
      var ok := OpenWrite(d, n, temp);
      OpenedLooks(old(fs), old(db), n);
      NewWriter(old(writers), d, writers[d]);
      StaysClean(old(fs), fs, n);
    }

    lemma SameCore(x: Looks, time: Time)
      ensures CoreOf(x.(mtime := time)) == CoreOf(x)
    {
    }

    lemma OpenedLooks(was: Fs, entries: map<Name, Md5>, n: Name)
      ensures Undeduped(was, entries, n) ==> was.Sound() && fs.Sound() && n in Files(was, decode) && db == entries - {n}
      ensures Undeduped(was, entries, n) ==> var x := Files(was, decode)[n];
        Files(fs, decode) == Files(was, decode)[n := x.(mtime := Time(x.mtime.sec, 0))]
    {
      if Undeduped(was, entries, n) {
        UndedupedLooks(was, entries, n);
      }
    }

    method StepClose(d: nat)
      requires Valid()
      modifies this`writers
      ensures Valid() && Stepped(OpClose(d)) && AttrFileStays()
    {
      hide AttrName, UserName, Base, DbTrue, WritesAlone, JobTrue, Files, Fs.Sound, Cores;
      Release(d);
    }

    method StepCopyBegin(n: Name)
      requires Valid() && UserName(n) && n in fs.names && !fs.Sole(n) && !Busy(n) && !Moving(n)
      modifies this`db, this`dirty, this`copies
      ensures Valid() && Stepped(OpCopyBegin(n)) && AttrFileStays() && MayEnd(OpCopyBegin(n))
    {
      hide AttrName, UserName, Base, DbTrue, WritesAlone, JobTrue, Files, Fs.Sound, Fs.Sole, MayEnd, Allowed, Attr, Scratch, Shared,
        Cores, WriterNames, LooksOf;
      NobodyWrites(n);
      BeginCopy(n);
      CopyMayEnd(n);
    }

    method StepCopyEnd(n: Name, temp: Name)
      requires Valid() && Clean(fs) && UserName(n) && Scratch(temp) && Allowed(OpCopyEnd(n, temp))
      modifies this`fs, this`copies
      ensures Valid() && Clean(fs) && Stepped(OpCopyEnd(n, temp)) && AttrFileStays()
    {
      hide AttrName, UserName, Base, DbTrue, WritesAlone, JobTrue, Scratch, Files, Fs.Sound, Cores, CoreOf;
      if job.Some? && !IsJob(n) {
        OtherAttr(job.value.name, n);
      }
      ghost var was := Files(fs, decode);
      CopyKeepsIff(n);
      EndCopy(n, temp);
      CoresPut(was, n, CopyShows(old(copies)[n], was[n].bytes));
      StaysClean(old(fs), fs, n);
    }

    method StepWrite(d: nat, raw: Data, now: Time)
      requires Valid() && Allowed(OpWrite(d, raw, now))
      modifies this`fs, this`db, this`dirty
      ensures Valid() && (old(Clean(fs)) ==> Clean(fs)) && Stepped(OpWrite(d, raw, now)) && AttrFileStays()
    {
      hide AttrName, UserName, Base, Files, Fs.Sound, DbTrue, WritesAlone;
      ghost var was, n := Files(fs, decode), writers[d].name;
      ghost var keeps := AttrName(n) in fs.names;
      InodeIsThere(d);
      Write(d, raw, now);
      CoresPut(was, n, was[n].(bytes := decode(raw), mtime := if keeps then was[n].mtime else now));
    }

    /** A name that leads to an inode is a file that users see. */
    lemma IsFile(n: Name)
      requires Valid() && UserName(n)
      ensures n in Files(fs, decode) <==> n in fs.names
    {
    }

    method StepLook(k: nat, n: Name, c: Change)
      requires Valid() && UserName(n) && n in fs.names
      modifies this`acts
      ensures Valid() && Stepped(OpLook(k, n, c)) && AttrFileStays() && MayEnd(OpLook(k, n, c))
    {
      hide AttrName, UserName, Base, Files, Fs.Sound, DbTrue, WritesAlone, JobTrue, Right, LookAt, Choose, Cores, MayEnd;
      LooksChange(acts, k, Pending(n, c, Choose(LookAt(fs, n), c)));
      FreshIsRight(fs, n, c);
      LookFirst(k, n, c);
      LookMayEnd(k, n, c);
    }

    method StepChange(n: Name, c: Change)
      requires Valid() && Clean(fs) && UserName(n) && Allowed(OpChange(n, c))
      modifies this`fs
      ensures Valid() && Clean(fs) && Stepped(OpChange(n, c))
      ensures !IsJob(n) ==> AttrFileStays()
    {
      hide AttrName, UserName, Base, Files, Fs.Sound, DbTrue, WritesAlone, JobTrue, ChangedLooks, Acted, Choose, LookAt,
        Cores, CoreOf;
      if job.Some? && !IsJob(n) {
        OtherAttr(job.value.name, n);
      }
      ghost var was := Files(fs, decode);
      IsFile(n);
      var ok := ChangeFile(n, c);
      CoresPut(was, n, ChangedLooks(was[n], c));
      CoreChanged(was, n, c);
      StaysClean(old(fs), fs, n);
    }

    method StepAct(k: nat, n: Name, c: Change)
      requires Valid() && Clean(fs) && UserName(n) && Allowed(OpAct(k, n, c))
      modifies this`fs, this`acts
      ensures Valid() && Clean(fs) && Stepped(OpAct(k, n, c))
      ensures !IsJob(n) ==> AttrFileStays()
    {
      hide AttrName, UserName, Base, Files, Fs.Sound, DbTrue, WritesAlone, JobTrue, ChangedLooks, Right, Acted, Cores, CoreOf;
      if job.Some? && !IsJob(n) {
        OtherAttr(job.value.name, n);
      }
      ghost var was := Files(fs, decode);
      IsFile(n);
      LooksChange(acts, k, acts[k]);
      ActNow(k);
      CoresPut(was, n, ChangedLooks(was[n], c));
      CoreChanged(was, n, c);
      StaysClean(old(fs), fs, n);
    }

    method StepRemove(n: Name)
      requires Valid() && UserName(n) && !OpenForWriting(n) && !Busy(n) && !Moving(n)
      modifies this`fs, this`db, this`dirty
      ensures Valid() && (old(Clean(fs)) ==> Clean(fs)) && Stepped(OpRemove(n)) && AttrFileStays()
    {
      hide AttrName, UserName, Base, Files, Fs.Sound, DbTrue, WritesAlone, Cores, WriterNames, LooksOf, JobTrue, Clean;
      WritersAvoid(n);
      if job.Some? && !IsJob(n) {
        OtherAttr(job.value.name, n);
      }
      if job.Some? {
        AttrNameIsHidden(job.value.name);
      }
      ghost var was := Files(fs, decode);
      var ok := Remove(n);
      CoresDrop(was, n);
      if old(Clean(fs)) {
        StaysClean(old(fs), fs, n);
      }
    }

    lemma WritersAvoid(n: Name)
      requires !OpenForWriting(n)
      ensures forall d :: d in writers ==> writers[d].name != n
    {
      assert forall d :: d in writers ==> OpenForWriting(writers[d].name);
    }

    method StepBegin(n: Name)
      requires Valid() && UserName(n) && n in fs.names && job == None && !Busy(n) && !Moving(n) && !OpenForWriting(n)
      modifies this`job
      ensures Valid() && Stepped(OpCompressBegin(n)) && MayEnd(OpCompressBegin(n))
    {
      hide AttrName, UserName, Base, Files, Fs.Sound, DbTrue, WritesAlone, Scratch, MayEnd, Cores, WriterNames, LooksOf, JobTrue;
      WritersAvoid(n);
      InodeExists(fs, n);
      BeginCompress(n);
      PassMayEnd(n);
    }

    method StepCancel()
      requires Valid()
      modifies this`job
      ensures Valid() && Stepped(OpCompressCancel)
    {
      hide AttrName, UserName, Base, Files, Fs.Sound, DbTrue, WritesAlone;
      CancelCompress();
    }

    method StepEnd(raw: Data, temp: Name)
      requires Valid() && Clean(fs) && Scratch(temp) && Allowed(OpCompressEnd(raw, temp))
      modifies this`fs, this`db, this`dirty, this`job
      ensures Valid() && Clean(fs) && Stepped(OpCompressEnd(raw, temp)) && View() == old(View())
      ensures job == None && Holds(old(job.value.name), raw)
    {
      hide AttrName, UserName, Base, Files, Fs.Sound, DbTrue, WritesAlone, Scratch;
      ghost var was, n := Files(fs, decode), job.value.name;
      AttributesSurviveIff(job.value);
      EndCompress(raw, temp);
      CoresPut(was, n, Files(fs, decode)[n]);
      StaysClean(old(fs), fs, n);
    }

    method StepDedup(n: Name, readable: bool, pid: Name, ghost used: set<Data>)
      requires Valid() && Clean(fs) && UserName(n) && SLASH !in pid && Allowed(OpDedup(n, readable, pid))
      requires forall x, y :: x in used && y in used && hash(x) == hash(y) ==> x == y
      requires forall n :: n in View().files ==> View().files[n].bytes in used
      modifies this`fs, this`db, this`dirty, this`compressor
      ensures Valid() && Clean(fs) && Stepped(OpDedup(n, readable, pid)) && Deduped(OpDedup(n, readable, pid))
    {
      hide AttrName, UserName, Base, WritesAlone, Files, Fs.Sound, DbTrue, JobTrue, LinkedTo, Cores, WriterNames, Contents,
        SameInode, Allowed, Moving, OpenForWriting, Clean, LinkTemp, Deduped, LooksOf;
      DedupGuard(n, readable, pid, used);
      IsShown(fs, decode, n);
      var target := Pass(n, readable, pid);
      IsShown(fs, decode, n);
      IsDeduped(n, readable, pid, target);
    }

    /** The worker's pass over a file, when nothing stands against it. */
    method Pass(n: Name, readable: bool, pid: Name) returns (target: Option<Name>)
      requires Valid() && Clean(fs) && UserName(n) && SLASH !in pid && n in fs.names && !Moving(n) && !Busy(n)
      requires forall d :: d in writers ==> writers[d].name != n
      requires forall t :: t in db && db[t] == hash(Contents(fs, decode, n)) ==>
                 UserName(t) && forall d :: d in writers ==> writers[d].name != t
      requires forall t :: t in db && db[t] == hash(Contents(fs, decode, n)) && t in fs.names ==>
                 Contents(fs, decode, t) == Contents(fs, decode, n)
      modifies this`fs, this`db, this`dirty, this`compressor
      ensures Valid() && Clean(fs) && Files(fs, decode) == old(Files(fs, decode)) && n in fs.names
      ensures forall m :: m in old(db) ==> m in db && db[m] == old(db)[m]
      ensures forall m :: m in db && m != n ==> m in old(db)
      ensures target.Some? ==>
        target.value in db && db[target.value] == hash(old(Contents(fs, decode, n))) && SameInode(fs, n, target.value)
      ensures readable && target.None? ==>
        n in db || exists t :: t in db && db[t] == hash(old(Contents(fs, decode, n))) && t in renames
    {
      hide AttrName, UserName, Base, WritesAlone, Files, Fs.Sound, DbTrue, JobTrue, LinkedTo, Contents, SameInode, Moving, Clean,
        LinkTemp;
      if n in db {
        EntryIsTrue(n);
      }
      IsShown(fs, decode, n);
      TempIsFree(n, pid);
      ghost var was := Files(fs, decode);
      target := DoDedup(n, readable, pid);
      if target.Some? {
        LinkedFacts(old(fs), fs, target.value, n);
        NoChange(was, n, was[n].(bytes := Contents(old(fs), decode, target.value)));
        LinkAddsOnly(old(fs), fs, target.value, n);
        StaysClean(old(fs), fs, n);
      }
      IsShown(fs, decode, n);
    }

    lemma TempIsFree(n: Name, pid: Name)
      requires Clean(fs) && SLASH !in pid
      ensures LinkTemp(n, pid) !in fs.names
    {
      hide LinkTemp, UserName, AttrName;
      TempIsScratch(n, pid);
    }

    lemma IsDeduped(n: Name, readable: bool, pid: Name, target: Option<Name>)
      requires Valid() && UserName(n) && n in fs.names && !Moving(n)
      requires target.Some? ==>
        target.value in db && db[target.value] == hash(Contents(fs, decode, n)) && SameInode(fs, n, target.value)
      requires readable && target.None? ==>
        n in db || exists t :: t in db && db[t] == hash(Contents(fs, decode, n)) && t in renames
      ensures Deduped(OpDedup(n, readable, pid))
    {
      hide UserName, AttrName, Base, Files, DbTrue, WritesAlone, JobTrue, Contents;
      BytesAre(n);
      if n in db {
        EntryIsTrue(n);
        assert SameInode(fs, n, n);
      }
    }

    lemma DedupGuard(n: Name, readable: bool, pid: Name, used: set<Data>)
      requires Valid() && UserName(n) && Allowed(OpDedup(n, readable, pid))
      requires forall x, y :: x in used && y in used && hash(x) == hash(y) ==> x == y
      requires forall n :: n in View().files ==> View().files[n].bytes in used
      ensures n in fs.names && job == None && !Moving(n) && !Busy(n)
      ensures forall d :: d in writers ==> writers[d].name != n
      ensures forall t :: t in db && db[t] == hash(Contents(fs, decode, n)) ==>
                UserName(t) && forall d :: d in writers ==> writers[d].name != t
      ensures forall t :: t in db && db[t] == hash(Contents(fs, decode, n)) && t in fs.names ==>
                Contents(fs, decode, t) == Contents(fs, decode, n)
    {
      hide AttrName, UserName, Base, Contents, DbTrue, Files;
      NoCollision(n, used);
      forall t | t in db && db[t] == hash(Contents(fs, decode, n))
        ensures UserName(t) && forall d :: d in writers ==> writers[d].name != t
        ensures t in fs.names ==> Contents(fs, decode, t) == Contents(fs, decode, n)
      {
        EntryOrHalfway(t);
        assert !OpenForWriting(t);
      }
    }

    lemma NoCollision(n: Name, used: set<Data>)
      requires Valid() && UserName(n) && n in fs.names
      requires forall x, y :: x in used && y in used && hash(x) == hash(y) ==> x == y
      requires forall n :: n in View().files ==> View().files[n].bytes in used
      ensures forall t :: t in db && db[t] == hash(Contents(fs, decode, n)) && !Moving(t) ==>
                Contents(fs, decode, t) == Contents(fs, decode, n)
    {
      hide AttrName, UserName, Base, WritesAlone;
      assert forall m :: m in Files(fs, decode) ==> m in View().files && View().files[m].bytes == Contents(fs, decode, m);
      assert n in Files(fs, decode);
    }

    lemma RenameGuard(from: Name, to: Name)
      requires Valid() && MayRename(from, to)
      ensures from != to && from in fs.names && (forall d :: d in writers ==> writers[d].name != to)
      ensures !Busy(from) && !Busy(to) && !Moving(from) && !Moving(to) && Follows(fs, from, to)
      ensures job.Some? ==> job.value.name != from
    {
      hide AttrName, UserName, Base;
      forall d | d in writers ensures writers[d].name != to {
        assert !OpenForWriting(to);
      }
    }

    /** What a rename does to the files that users see, to the attribute file of the job, and to the names. */
    lemma RenameSeen(from: Name, to: Name)
      requires Valid() && UserName(from) && UserName(to) && from != to && from in fs.names && Follows(fs, from, to)
      requires job.Some? ==> job.value.name != from
      ensures Moved(fs, from, to).Sound() && AddsOnly(fs, Moved(fs, from, to), to)
      ensures job.Some? && AttrName(job.value.name) in fs.names ==> AttrName(job.value.name) in Moved(fs, from, to).names
      ensures from in Cores(Files(fs, decode))
      ensures Cores(Files(Moved(fs, from, to), decode))
           == (Cores(Files(fs, decode)) - {from})[to := Cores(Files(fs, decode))[from]]
    {
      hide AttrName, UserName, Base, DbTrue, WritesAlone, JobTrue, Files, Moved, Fs.Sound, AddsOnly;
      if job.Some? && AttrName(job.value.name) in fs.names {
        AttrNameIsHidden(job.value.name);
        OtherAttr(job.value.name, from);
        MovedKeeps(fs, from, to, AttrName(job.value.name));
      }
      MovedAddsOnly(fs, from, to);
      var was: map<Name, Looks> := Files(fs, decode);
      RenameMovesFiles(fs, decode, from, to);
      CoresDrop(was, from);
      CoresPut(was - {from}, to, was[from]);
    }

    lemma WritersMove(from: Name, to: Name)
      ensures WriterNames(MovedWriters(writers, from, to))
           == map d | d in WriterNames(writers) :: if WriterNames(writers)[d] == from then to else WriterNames(writers)[d]
    {
    }

    method StepRename(from: Name, to: Name)
      requires Valid() && Clean(fs) && UserName(from) && UserName(to) && MayRename(from, to)
      modifies this`fs, this`writers, this`renames
      ensures Valid() && Clean(fs) && Stepped(OpRenameBegin(from, to)) && AttrFileStays()
    {
      hide AttrName, UserName, Base, DbTrue, WritesAlone, JobTrue, Files, Moved, Fs.Sound, MayRename, Moving, Busy, OpenForWriting,
        MovedWriters, WriterNames, Cores, AddsOnly, Clean;
      RenameGuard(from, to);
      RenameSeen(from, to);
      WritersMove(from, to);
      var ok := BeginRename(from, to);
      StaysClean(old(fs), fs, to);
    }

    method StepWholeRename(from: Name, to: Name)
      requires Valid() && Clean(fs) && UserName(from) && UserName(to) && MayRename(from, to)
      modifies this`fs, this`db, this`dirty, this`writers, this`renames
      ensures Valid() && Clean(fs) && Stepped(OpRename(from, to)) && AttrFileStays()
    {
      hide AttrName, UserName, Base, DbTrue, WritesAlone, JobTrue, Files, Moved, Fs.Sound, MayRename, Moving, Busy, OpenForWriting,
        MovedWriters, WriterNames, Cores, AddsOnly, Clean, TakesOver;
      RenameGuard(from, to);
      RenameSeen(from, to);
      WritersMove(from, to);
      var ok := RenameFile(from, to);
      StaysClean(old(fs), fs, to);
    }

    method StepRenameEnd(from: Name)
      requires Valid() && from in renames
      modifies this`db, this`dirty, this`renames
      ensures Valid() && Stepped(OpRenameEnd(from)) && AttrFileStays()
    {
      hide AttrName, UserName, Base, DbTrue, WritesAlone, JobTrue, Files, Fs.Sound, TakesOver, MovedEntry;
      EndRename(from);
    }

    /** Over a whole run of user operations and worker passes, owners, modes and contents are those of
        independent plain files, whatever has been linked to what; every entry of the table stays true, and
        whoever has a file open for writing writes to it alone. Nothing is done that a plain file system would not take
        or that has to wait; and whatever is decided by that alone is done: all that users do, but for renames onto
        existing files, unless it has to wait for a compression, a copy or a rename of the file. */
    method Run(ops: seq<Op>, ghost used: set<Data>) returns (done: seq<bool>)
      requires Valid() && Clean(fs) && forall i :: 0 <= i < |ops| ==> Proper(ops[i], decode, used)
      requires forall x, y :: x in used && y in used && hash(x) == hash(y) ==> x == y
      requires forall n :: n in View().files ==> View().files[n].bytes in used
      modifies this
      ensures Valid() && Clean(fs) && |done| == |ops|
      ensures View() == PlainRun(old(View()), ops, decode, done) && UnderWay() == UnderRun(old(UnderWay()), ops, done)
      ensures forall i :: 0 <= i < |ops| ==> DoneAsPlain(old(View()), old(UnderWay()), ops, decode, done, i)
      ensures old(job.Some?) && (forall op :: op in ops ==> !Disturbs(op, old(job.value.name))) ==>
                job == old(job) && (old(AttrsUntouched()) ==> AttrsUntouched())
    {
      hide AttrName, UserName, Base, Fs.Sound, Files, DbTrue, WritesAlone, JobTrue, Scratch, Proper, PlainStep, AttrsUntouched,
        Disturbs, UnderStep, UnderWay, Takes, Decided, Harmless, DoneAsPlain, TableFollows, Deduped, CanEnd, Clean;
      done := [];
      ghost var start, under := View(), UnderWay();
      ghost var left := job.Some? && forall op :: op in ops ==> !Disturbs(op, job.value.name);
      assert ops[..0] == [];
      while |done| < |ops|
        invariant |done| <= |ops| && Valid() && Clean(fs)
        invariant View() == PlainRun(start, ops[..|done|], decode, done)
        invariant UnderWay() == UnderRun(under, ops[..|done|], done)
        invariant forall i :: 0 <= i < |done| ==> DoneAsPlain(start, under, ops, decode, done, i)
        invariant forall n :: n in View().files ==> View().files[n].bytes in used
        invariant left ==> job == old(job) && (old(AttrsUntouched()) ==> AttrsUntouched())
      {
        var k := |done|;
        ghost var now := View();
        var d := Step(ops[k], used);
        StepStaysInUse(now, ops[k], decode, d, used);
        PlainRunSnoc(start, ops[..k], decode, done, ops[k], d);
        UnderRunSnoc(under, ops[..k], done, ops[k], d);
        assert ops[..k + 1] == ops[..k] + [ops[k]];
        OneMoreDone(start, under, ops, decode, done, d);
        done := done + [d];
      }
      assert ops[..|done|] == ops;
    }

    /** The worker compresses a file while users go on with anything but the owner, mode and times of that file, and
        nobody makes it give up: it ends, the compressed form is stored, and the file system is as if it had done
        nothing. */
    method CompressWhile(n: Name, ops: seq<Op>, ghost used: set<Data>, raw: Data, temp: Name) returns (done: seq<bool>)
      requires Valid() && Clean(fs) && UserName(n) && n in fs.names && job == None && !OpenForWriting(n) && !Busy(n) && !Moving(n)
      requires decode(raw) == Contents(fs, decode, n) && Scratch(temp)
      requires forall i :: 0 <= i < |ops| ==> Proper(ops[i], decode, used) && !Disturbs(ops[i], n)
      requires forall x, y :: x in used && y in used && hash(x) == hash(y) ==> x == y
      requires forall n :: n in View().files ==> View().files[n].bytes in used
      modifies this
      ensures Valid() && Clean(fs) && |done| == |ops| && View() == PlainRun(old(View()), ops, decode, done)
      ensures job == None && Holds(n, raw)
    {
      hide AttrName, UserName, Base, Fs.Sound, Files, DbTrue, WritesAlone, JobTrue, Scratch, Proper, PlainStep, Disturbs, UnderStep,
        UnderWay, Takes, Decided, DoneAsPlain, TableFollows, Clean;
      IsShown(fs, decode, n);
      InodeExists(fs, n);
      BeginCompress(n);
      assert View() == old(View()) && AttrsUntouched();
      done := Run(ops, used);
      StepEnd(raw, temp);
    }
  }
}
