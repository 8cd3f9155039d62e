/** When the entries of the deduplication table tell the truth about the files, also while renames are halfway. */
module DedupEntries {
  import opened Bytes
  import opened Paths
  import opened Backing
  import opened DedupTable

  /** Renames that have moved the file but not yet its entry, from the old name to the new one. */
  type Halfway = map<Name, Name>

  /** Every entry gives the hash of its file's current contents, but for the names of a rename that is halfway: the
      old name's entry gives the hash of the file that has been moved, and the new name's may give any. No two entries
      have the same hash. */
  ghost predicate DbTrue(files: map<Name, Looks>, db: map<Name, Md5>, hash: Data -> Md5, renames: Halfway) {
    EntriesTrue(files, db, hash, renames) && NoDoubles(db) && HalfwayTrue(files, db, hash, renames)
  }

  ghost predicate EntriesTrue(files: map<Name, Looks>, db: map<Name, Md5>, hash: Data -> Md5, renames: Halfway) {
    forall n :: n in db && n !in renames && n !in renames.Values ==> n in files && db[n] == hash(files[n].bytes)
  }

  ghost predicate NoDoubles(db: map<Name, Md5>) {
    forall n, m :: n in db && m in db && db[n] == db[m] ==> n == m
  }

  ghost predicate HalfwayTrue(files: map<Name, Looks>, db: map<Name, Md5>, hash: Data -> Md5, renames: Halfway) {
    && (forall f :: f in renames ==>
          && UserName(f) && f !in files && renames[f] in files && renames[f] !in renames
          && (f in db ==> db[f] == hash(files[renames[f]].bytes)))
    && (forall f, g :: f in renames && g in renames && renames[f] == renames[g] ==> f == g)
  }

  lemma DbPut(files: map<Name, Looks>, n: Name, x: Looks, db: map<Name, Md5>, hash: Data -> Md5, renames: Halfway)
    requires DbTrue(files, db, hash, renames) && n in files && x.bytes == files[n].bytes
    ensures DbTrue(files[n := x], db, hash, renames)
  {
    hide UserName;
  }

  lemma DbDiscard(files: map<Name, Looks>, n: Name, db: map<Name, Md5>, hash: Data -> Md5, renames: Halfway)
    requires DbTrue(files, db, hash, renames)
    ensures DbTrue(files, db - {n}, hash, renames)
  {
    hide UserName;
  }

  lemma DbChange(files: map<Name, Looks>, n: Name, x: Looks, db: map<Name, Md5>, hash: Data -> Md5, renames: Halfway)
    requires DbTrue(files, db, hash, renames) && n !in renames && n !in renames.Values
    ensures DbTrue(files[n := x], db - {n}, hash, renames)
    ensures n !in files ==> n !in db
  {
    hide UserName;
  }

  lemma DbDrop(files: map<Name, Looks>, n: Name, db: map<Name, Md5>, hash: Data -> Md5, renames: Halfway)
    requires DbTrue(files, db, hash, renames) && n !in renames && n !in renames.Values
    ensures DbTrue(files - {n}, db - {n}, hash, renames)
  {
    hide UserName;
  }

  lemma DbSame(files: map<Name, Looks>, now: map<Name, Looks>, db: map<Name, Md5>, hash: Data -> Md5, renames: Halfway)
    requires DbTrue(files, db, hash, renames) && now.Keys == files.Keys
    requires forall n :: n in files ==> now[n].bytes == files[n].bytes
    ensures DbTrue(now, db, hash, renames)
  {
    hide UserName;
  }

  /** A rename halfway, on the names. */
  lemma HalfwayNames(renames: Halfway, from: Name, to: Name)
    requires from !in renames
    ensures renames[from := to].Values == renames.Values + {to}
  {
    var more := renames[from := to];
    assert more[from] == to;
    forall n | n in renames.Values ensures n in more.Values {
      var f :| f in renames && renames[f] == n;
      assert more[f] == n;
    }
  }

  lemma DoneNames(renames: Halfway, from: Name)
    requires from in renames && forall f, g :: f in renames && g in renames && renames[f] == renames[g] ==> f == g
    ensures (renames - {from}).Values == renames.Values - {renames[from]}
  {
    var rest := renames - {from};
    forall n | n in renames.Values && n != renames[from] ensures n in rest.Values {
      var f :| f in renames && renames[f] == n;
      assert rest[f] == n;
    }
    forall n | n in rest.Values ensures n != renames[from] {
      var f :| f in rest && rest[f] == n;
      assert f in renames && renames[f] == n;
    }
  }

  lemma HalfwayIsTrue(was: map<Name, Looks>, now: map<Name, Looks>, db: map<Name, Md5>, hash: Data -> Md5,
                      renames: Halfway, from: Name, to: Name)
    requires DbTrue(was, db, hash, renames) && from in was && from != to && UserName(from)
    requires from !in renames && from !in renames.Values && to !in renames && to !in renames.Values
    requires now.Keys == was.Keys - {from} + {to} && now[to].bytes == was[from].bytes
    requires forall n :: n in was && n != from && n != to ==> now[n] == was[n]
    ensures DbTrue(now, db, hash, renames[from := to])
  {
    hide UserName, EntriesTrue, NoDoubles;
    HalfwayNames(renames, from, to);
    EntriesHalfway(was, now, db, hash, renames, from, to);
    var more := renames[from := to];
    FromIsTrue(was, db, hash, renames, from);
    forall f | f in more
      ensures UserName(f) && f !in now && more[f] in now && more[f] !in more
      ensures f in db ==> db[f] == hash(now[more[f]].bytes)
    {
      if f != from {
        assert f in renames && renames[f] in renames.Values;
      }
    }
    forall f, g | f in more && g in more && more[f] == more[g] ensures f == g {
      assert f in renames ==> renames[f] in renames.Values;
      assert g in renames ==> renames[g] in renames.Values;
    }
  }

  lemma FromIsTrue(was: map<Name, Looks>, db: map<Name, Md5>, hash: Data -> Md5, renames: Halfway, from: Name)
    requires EntriesTrue(was, db, hash, renames) && from in was && from !in renames && from !in renames.Values
    ensures from in db ==> db[from] == hash(was[from].bytes)
  {
  }

  lemma EntriesHalfway(was: map<Name, Looks>, now: map<Name, Looks>, db: map<Name, Md5>, hash: Data -> Md5,
                       renames: Halfway, from: Name, to: Name)
    requires EntriesTrue(was, db, hash, renames)
    requires renames[from := to].Values == renames.Values + {to}
    requires now.Keys == was.Keys - {from} + {to}
    requires forall n :: n in was && n != from && n != to ==> now[n] == was[n]
    ensures EntriesTrue(now, db, hash, renames[from := to])
  {
  }

  lemma MovedHasNoDoubles(db: map<Name, Md5>, from: Name, to: Name)
    requires NoDoubles(db) && from != to
    ensures NoDoubles(MovedEntry(db, from, to))
  {
  }

  lemma HalfwayEnds(files: map<Name, Looks>, db: map<Name, Md5>, hash: Data -> Md5, renames: Halfway, from: Name)
    requires DbTrue(files, db, hash, renames) && from in renames
    ensures from != renames[from] && (renames - {from}).Values == renames.Values - {renames[from]}
    ensures DbTrue(files, MovedEntry(db, from, renames[from]), hash, renames - {from})
  {
    hide UserName, MovedEntry, EntriesTrue, NoDoubles;
    DoneNames(renames, from);
    var to, rest := renames[from], renames - {from};
    var moved := MovedEntry(db, from, to);
    MovedEntryIs(db, from, to);
    MovedHasNoDoubles(db, from, to);
    MovedIsTrue(files, db, hash, renames, from);
    forall f | f in rest
      ensures UserName(f) && f !in files && rest[f] in files && rest[f] !in rest
      ensures f in moved ==> moved[f] == hash(files[rest[f]].bytes)
    {
      assert f in renames && f != to;
    }
  }

  lemma MovedEntryIs(db: map<Name, Md5>, from: Name, to: Name)
    requires from != to
    ensures var moved := MovedEntry(db, from, to);
      forall n :: n in moved ==> if n == to then from in db && moved[n] == db[from] else n in db && n != from && moved[n] == db[n]
  {
  }

  lemma MovedIsTrue(files: map<Name, Looks>, db: map<Name, Md5>, hash: Data -> Md5, renames: Halfway, from: Name)
    requires EntriesTrue(files, db, hash, renames) && from in renames && from != renames[from]
    requires renames[from] in files && (from in db ==> db[from] == hash(files[renames[from]].bytes))
    requires (renames - {from}).Values == renames.Values - {renames[from]}
    ensures EntriesTrue(files, MovedEntry(db, from, renames[from]), hash, renames - {from})
  {
    hide UserName, MovedEntry;
    MovedEntryIs(db, from, renames[from]);
  }

  // ----- Between the halves of a rename -----

  /** No entry of an existing file gives another hash than that of its contents. */
  ghost predicate NoLies(files: map<Name, Looks>, db: map<Name, Md5>, hash: Data -> Md5) {
    forall n :: n in db && n in files ==> db[n] == hash(files[n].bytes)
  }

  /** When the file has moved and its entry has not, the table tells no lies if and only if the new name had no entry,
      or one that gives the hash of the moved file. */
  lemma BetweenTheHalvesIff(fs: Fs, decode: Data -> Data, db: map<Name, Md5>, hash: Data -> Md5, from: Name, to: Name)
    requires fs.Sound() && from in fs.names && UserName(from) && UserName(to) && from != to
    requires DbTrue(Files(fs, decode), db, hash, map[])
    ensures Moved(fs, from, to).Sound()
    ensures NoLies(Files(Moved(fs, from, to), decode), db, hash)
      <==> to !in db || db[to] == hash(Contents(fs, decode, from))
  {
    hide AttrName, UserName, Base, Moved;
    RenameMovesContents(fs, decode, from, to);
    IsShown(fs, decode, from);
    var was, now := Files(fs, decode), Files(Moved(fs, from, to), decode);
    hide Files, Contents;
    forall n | n in db && n in now && n != to ensures db[n] == hash(now[n].bytes) {
      assert n in was && n != from;
    }
  }

  /** The bytes of every file that users see are those of before. */
  ghost predicate ContentsKept(fs: Fs, fs': Fs, decode: Data -> Data) {
    forall n :: UserName(n) && n in fs.names ==> Contents(fs', decode, n) == Contents(fs, decode, n)
  }

  /** A link that the worker makes in between, to the entry `t` with the hash of `f`, keeps all contents if and only if
      it does not go to the file that the rename has put there, or the bytes agree. */
  lemma ALinkBetweenTheHalvesIff(fs: Fs, decode: Data -> Data, db: map<Name, Md5>, hash: Data -> Md5, from: Name, to: Name,
                                 t: Name, f: Name, linked: Fs)
    requires fs.Sound() && from in fs.names && UserName(from) && UserName(to) && from != to
    requires DbTrue(Files(fs, decode), db, hash, map[])
    requires UserName(f) && f in fs.names && f != from && f != to && f != t
    requires t in db && t in Moved(fs, from, to).names && db[t] == hash(Contents(fs, decode, f))
    requires forall n :: n in fs.names && hash(Contents(fs, decode, n)) == hash(Contents(fs, decode, f)) ==>
               Contents(fs, decode, n) == Contents(fs, decode, f)
    requires LinkedTo(Moved(fs, from, to), linked, t, f)
    requires forall i :: i in fs.inodes ==> i in linked.inodes && linked.inodes[i].raw == fs.inodes[i].raw
    ensures ContentsKept(Moved(fs, from, to), linked, decode)
      <==> t != to || Contents(fs, decode, from) == Contents(fs, decode, f)
  {
    hide AttrName, UserName, Base, LinkedTo, Files, Moved, Fs.Sound, Contents, ContentsKept, DbTrue;
    MovedKeepsInodes(fs, decode, from, to, f);
    EntryIsUsers(fs, decode, db, hash, t);
    GoneIs(fs, from, to);
    MovedKeepsInodes(fs, decode, from, to, t);
    LinkKeepsContentsIff(Moved(fs, from, to), linked, decode, t, f);
  }

  lemma GoneIs(fs: Fs, from: Name, to: Name)
    requires fs.Sound() && from in fs.names && UserName(from) && UserName(to) && from != to
    ensures from !in Moved(fs, from, to).names
  {
    hide AttrName, UserName, Base;
    AttrNameIsHidden(from);
    AttrNameIsHidden(to);
  }

  lemma LinkKeepsContentsIff(fs: Fs, linked: Fs, decode: Data -> Data, t: Name, f: Name)
    requires fs.Sound() && LinkedTo(fs, linked, t, f) && UserName(t) && UserName(f) && t != f && f in fs.names
    requires forall i :: i in fs.inodes ==> i in linked.inodes && linked.inodes[i].raw == fs.inodes[i].raw
    ensures ContentsKept(fs, linked, decode) <==> Contents(fs, decode, t) == Contents(fs, decode, f)
  {
    hide AttrName, UserName, Base;
    forall n | UserName(n) && n in fs.names && n != f ensures Contents(linked, decode, n) == Contents(fs, decode, n) {
      assert linked.names[n] == fs.names[n];
    }
    assert Contents(linked, decode, f) == Contents(fs, decode, t);
  }

  lemma EntryIsUsers(fs: Fs, decode: Data -> Data, db: map<Name, Md5>, hash: Data -> Md5, t: Name)
    requires fs.Sound() && DbTrue(Files(fs, decode), db, hash, map[]) && t in db
    ensures UserName(t) && t in fs.names && db[t] == hash(Contents(fs, decode, t))
  {
    hide UserName, AttrName;
  }

  lemma MovedKeepsInodes(fs: Fs, decode: Data -> Data, from: Name, to: Name, n: Name)
    requires fs.Sound() && from in fs.names && UserName(from) && UserName(to) && from != to && UserName(n) && n != from
    ensures Moved(fs, from, to).inodes == fs.inodes && Moved(fs, from, to).Sound()
    ensures n in Moved(fs, from, to).names <==> n in fs.names || n == to
    ensures n in fs.names || n == to ==>
              Contents(Moved(fs, from, to), decode, n) == Contents(fs, decode, if n == to then from else n)
  {
    hide AttrName, UserName, Base;
    MovedIsSound(fs, from, to);
    AttrNameIsHidden(from);
    AttrNameIsHidden(to);
  }
}
