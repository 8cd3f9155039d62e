/**
 The in-memory deduplication database: every entry sits in two arrays of rings at once, one indexed by the
 hash of its file name and one by its MD5 sum, so that it can be found by either.
 */
module DedupTable {
  import opened Bytes
  import opened Paths
  import opened Rings

  type Md5 = d: Data | |d| == 16 witness Zeros(16)

  const HASH_SIZE: nat := 65536

  /** A `char` of the C code is signed. */
  function SignedChar(b: Byte): (c: int)
    ensures -128 <= c <= 127 && (b - c) % 256 == 0
  {
    if b < 128 then b else b - 256
  }

  /** The hash of a path, as the 32-bit polynomial it is. */
  function GetHash(name: Data): (h: nat)
    ensures h < 0x1_0000_0000
  {
    if name == [] then 0 else (31 * GetHash(name[..|name| - 1]) + SignedChar(name[|name| - 1])) % 0x1_0000_0000
  }

  function Pow31(k: nat): nat {
    if k == 0 then 1 else 31 * Pow31(k - 1)
  }

  /** The polynomial in 31 whose coefficients are the characters, the first one in front of the highest power. */
  function Polynomial(name: Data): int {
    if name == [] then 0 else SignedChar(name[0]) * Pow31(|name| - 1) + Polynomial(name[1..])
  }

  lemma {:induction false} PolynomialSnoc(name: Data, b: Byte)
    ensures Polynomial(name + [b]) == 31 * Polynomial(name) + SignedChar(b)
  {
    if name == [] {
      assert ([] + [b])[1..] == [];
    } else {
      assert (name + [b])[1..] == name[1..] + [b];
      PolynomialSnoc(name[1..], b);
      var c, p := SignedChar(name[0]), Pow31(|name| - 1);
      assert c * (31 * p) == 31 * (c * p);
    }
  }

  /** The hash is that polynomial in 32 bits. */
  lemma {:induction false} HashIsPolynomial(name: Data)
    ensures GetHash(name) == Polynomial(name) % 0x1_0000_0000
    decreases |name|
  {
    if name != [] {
      var front, last := name[..|name| - 1], name[|name| - 1];
      HashIsPolynomial(front);
      PolynomialSnoc(front, last);
      assert name == front + [last];
      var p, m := Polynomial(front), 0x1_0000_0000;
      assert 31 * p + SignedChar(last) == 31 * (p % m) + SignedChar(last) + m * (31 * (p / m));
      ModPlus(31 * (p % m) + SignedChar(last), 31 * (p / m));
    }
  }

  lemma ModPlus(a: int, k: int)
    ensures (a + 0x1_0000_0000 * k) % 0x1_0000_0000 == a % 0x1_0000_0000
  {
  }

  method ComputeHash(name: Name) returns (hash: nat)
    ensures hash == GetHash(name)
  {
    hash := (31 * 0 + SignedChar(name[0])) % 0x1_0000_0000;
    var i := 1;
    assert name[..1][..0] == [];
    while i < |name|
      invariant 1 <= i <= |name| && hash == GetHash(name[..i])
    {
      assert name[..i + 1][..i] == name[..i];
      hash := (31 * hash + SignedChar(name[i])) % 0x1_0000_0000;
      i := i + 1;
    }
    assert name[..i] == name;
  }

  /** The low 16 bits of a hash. */
  function NameBucket(hash: nat): (b: nat)
    ensures b < HASH_SIZE
  {
    hash % HASH_SIZE
  }

  /** The first two bytes of an MD5 sum as a little-endian integer. */
  function Md5Bucket(md5: Md5): (b: nat)
    ensures b < HASH_SIZE
  {
    var low: int, high: int := md5[0], md5[1];
    low + 256 * high
  }

  lemma Md5BucketIs(md5: Md5)
    ensures Md5Bucket(md5) == FromLittleEndian(md5[..2])
  {
    TwoBytes(md5[..2]);
  }

  /** What a rename does to the table as a map: the target's entry goes, the source's moves. */
  function MovedEntry<V>(db: map<Name, V>, from: Name, to: Name): map<Name, V> {
    var rest := db - {to};
    if from in rest then (rest - {from})[to := rest[from]] else rest
  }

  /** The new name has what the old one had, the old one has nothing, and all others have what they had. */
  ghost predicate TakesOver<V>(db: map<Name, V>, now: map<Name, V>, from: Name, to: Name) {
    && (to in now <==> from in db) && (from in db ==> now[to] == db[from])
    && from !in now
    && forall n :: n != from && n != to ==> (n in now <==> n in db) && (n in db ==> now[n] == db[n])
  }

  lemma MovedEntryMeans<V>(db: map<Name, V>, from: Name, to: Name)
    requires from != to
    ensures TakesOver(db, MovedEntry(db, from, to), from, to)
  {
  }

  lemma MovedInSteps<V>(db: map<Name, V>, from: Name, to: Name)
    requires from != to
    ensures var rest := db - {to};
      && (from in rest <==> from in db)
      && (from !in db ==> to !in MovedEntry(db, from, to))
      && MovedEntry(db, from, to) == if from in rest then (rest - {from})[to := rest[from]] else rest
  {
  }

  class Entry {
    var filename: Name
    var hash: nat
    const md5: Md5
    var nameLink: Link?<Entry>
    var md5Link: Link?<Entry>

    constructor (filename: Name, md5: Md5)
      ensures this.filename == filename && this.md5 == md5 && hash == GetHash(filename)
      ensures fresh(nameLink) && fresh(md5Link) && nameLink != md5Link
      ensures nameLink != null && nameLink.owner == Some(this) && md5Link != null && md5Link.owner == Some(this)
    {
      this.filename := filename;
      this.md5 := md5;
      nameLink, md5Link := null, null;
      new;
      hash := ComputeHash(filename);
      nameLink := new Link<Entry>(Some(this));
      md5Link := new Link<Entry>(Some(this));
    }
  }

  class Table {
    const names: Index<Entry>
    const md5s: Index<Entry>
    var entries: int
    /** The entries of the table, as a set. */
    ghost var all: set<Entry>

    /** An entry hangs in the ring that its name selects and in the ring that its MD5 sum selects. */
    ghost predicate Hangs(e: Entry)
      reads e, names, md5s
    {
      && e.hash == GetHash(e.filename)
      && e.nameLink != null && e.nameLink.owner == Some(e)
      && e.md5Link != null && e.md5Link.owner == Some(e)
      && e.nameLink in names.home && names.home[e.nameLink] == NameBucket(e.hash)
      && e.md5Link in md5s.home && md5s.home[e.md5Link] == Md5Bucket(e.md5)
    }

    ghost predicate AllHang(es: set<Entry>)
      reads names, md5s, es
    {
      forall e :: e in es ==> Hangs(e)
    }

    /** Every link that is not a head leads back to an entry. */
    ghost predicate NamesLeadBack(es: set<Entry>)
      reads names, es
    {
      forall l :: l in names.home && l.owner.Some? ==> l.owner.value in es && l.owner.value.nameLink == l
    }

    ghost predicate Md5sLeadBack(es: set<Entry>)
      reads md5s, es
    {
      forall l :: l in md5s.home && l.owner.Some? ==> l.owner.value in es && l.owner.value.md5Link == l
    }

    /** Exactly the entries `es` hang in the rings. */
    ghost predicate Indexed(es: set<Entry>)
      reads names, md5s, es
    {
      names.home.Keys !! md5s.home.Keys && AllHang(es) && NamesLeadBack(es) && Md5sLeadBack(es)
    }

    ghost predicate Sound()
      reads names, md5s, names.home.Keys, md5s.home.Keys
    {
      && names != md5s
      && names.Valid() && |names.heads| == HASH_SIZE
      && md5s.Valid() && |md5s.heads| == HASH_SIZE
    }

    ghost predicate Valid()
      reads this, names, md5s, all, names.home.Keys, md5s.home.Keys
    {
      Sound() && Indexed(all) && entries == |all|
    }

    constructor ()
      ensures Valid() && all == {} && fresh(names) && fresh(md5s)
      ensures fresh(names.home.Keys) && fresh(md5s.home.Keys)
    {
      names := new Index<Entry>(HASH_SIZE);
      md5s := new Index<Entry>(HASH_SIZE);
      entries := 0;
      all := {};
    }

    /** Hang an entry that is in no ring into both. */
    method Hang(e: Entry, ghost es: set<Entry>)
      requires Sound() && Indexed(es) && e !in es && e.hash == GetHash(e.filename)
      requires e.nameLink != null && e.nameLink.owner == Some(e) && e.nameLink !in names.home && e.nameLink !in md5s.home
      requires e.md5Link != null && e.md5Link.owner == Some(e) && e.md5Link !in names.home && e.md5Link !in md5s.home
      requires e.nameLink != e.md5Link
      modifies names`rings, names`home, md5s`rings, md5s`home, names.home.Keys, md5s.home.Keys, e.nameLink, e.md5Link
      ensures Sound() && Indexed(es + {e})
      ensures names.rings == Appended(old(names.rings), NameBucket(e.hash), e.nameLink)
      ensures md5s.rings == Appended(old(md5s.rings), Md5Bucket(e.md5), e.md5Link)
      ensures names.home.Keys == old(names.home).Keys + {e.nameLink} && md5s.home.Keys == old(md5s.home).Keys + {e.md5Link}
    {
      hide Located, IsRing, Index.Valid;
      HangBoth(e);
      forall x | x in es + {e} ensures Hangs(x) {
        if x != e {
          assert old(Hangs(x));
        }
      }
      assert NamesLeadBack(es + {e}) by {
        assert old(NamesLeadBack(es));
      }
      assert Md5sLeadBack(es + {e}) by {
        assert old(Md5sLeadBack(es));
      }
    }

    method HangBoth(e: Entry)
      requires Sound() && names.home.Keys !! md5s.home.Keys
      requires e.nameLink != null && e.nameLink.owner.Some? && e.nameLink !in names.home && e.nameLink !in md5s.home
      requires e.md5Link != null && e.md5Link.owner.Some? && e.md5Link !in names.home && e.md5Link !in md5s.home
      requires e.nameLink != e.md5Link
      modifies names`rings, names`home, md5s`rings, md5s`home, names.home.Keys, md5s.home.Keys, e.nameLink, e.md5Link
      ensures Sound()
      ensures names.rings == Appended(old(names.rings), NameBucket(e.hash), e.nameLink)
      ensures md5s.rings == Appended(old(md5s.rings), Md5Bucket(e.md5), e.md5Link)
      ensures names.home == old(names.home)[e.nameLink := NameBucket(e.hash)]
      ensures md5s.home == old(md5s.home)[e.md5Link := Md5Bucket(e.md5)]
      ensures names.home.Keys !! md5s.home.Keys
    {
      hide Located, IsRing, Index.Valid;
      names.AddTail(NameBucket(e.hash), e.nameLink);
      md5s.AddTail(Md5Bucket(e.md5), e.md5Link);
      assert names.home.Keys == old(names.home).Keys + {e.nameLink};
      assert md5s.home.Keys == old(md5s.home).Keys + {e.md5Link};
    }

    /** Where an entry's links are. */
    lemma Positions(e: Entry) returns (k: nat, j: nat)
      requires Sound() && Hangs(e)
      ensures k < |names.rings[NameBucket(e.hash)]| && names.rings[NameBucket(e.hash)][k] == e.nameLink
      ensures j < |md5s.rings[Md5Bucket(e.md5)]| && md5s.rings[Md5Bucket(e.md5)][j] == e.md5Link
    {
      assert e.nameLink in names.rings[NameBucket(e.hash)] && e.md5Link in md5s.rings[Md5Bucket(e.md5)];
      k :| 0 <= k < |names.rings[NameBucket(e.hash)]| && names.rings[NameBucket(e.hash)][k] == e.nameLink;
      j :| 0 <= j < |md5s.rings[Md5Bucket(e.md5)]| && md5s.rings[Md5Bucket(e.md5)][j] == e.md5Link;
    }

    method UnhangBoth(e: Entry) returns (ghost k: nat, ghost j: nat)
      requires Sound() && names.home.Keys !! md5s.home.Keys && Hangs(e)
      modifies names`rings, names`home, md5s`rings, md5s`home, names.home.Keys, md5s.home.Keys
      ensures Sound()
      ensures names.rings == Removed(old(names.rings), NameBucket(e.hash), k)
      ensures md5s.rings == Removed(old(md5s.rings), Md5Bucket(e.md5), j)
      ensures names.home == old(names.home) - {e.nameLink}
      ensures md5s.home == old(md5s.home) - {e.md5Link}
    {
      hide Located, IsRing, Index.Valid;
      k, j := Positions(e);
      names.Del(e.nameLink, NameBucket(e.hash), k);
      md5s.Del(e.md5Link, Md5Bucket(e.md5), j);
    }

    /** Take an entry out of both rings. */
    method Unhang(e: Entry, ghost es: set<Entry>) returns (ghost k: nat, ghost j: nat)
      requires Sound() && Indexed(es) && e in es
      modifies names`rings, names`home, md5s`rings, md5s`home, names.home.Keys, md5s.home.Keys
      ensures Sound() && Indexed(es - {e})
      ensures names.rings == Removed(old(names.rings), NameBucket(e.hash), k)
      ensures md5s.rings == Removed(old(md5s.rings), Md5Bucket(e.md5), j)
      ensures names.home == old(names.home) - {e.nameLink}
      ensures md5s.home == old(md5s.home) - {e.md5Link}
    {
      assert Hangs(e);
      k, j := UnhangBoth(e);
      forall x | x in es - {e} ensures Hangs(x) {
        assert old(Hangs(x));
      }
      assert NamesLeadBack(es - {e}) by {
        assert old(NamesLeadBack(es));
      }
      assert Md5sLeadBack(es - {e}) by {
        assert old(Md5sLeadBack(es));
      }
    }

    /** Hang an entry and count it. */
    method Insert(e: Entry)
      requires Valid() && e !in all && e.hash == GetHash(e.filename)
      requires e.nameLink != null && e.nameLink.owner == Some(e) && e.nameLink !in names.home && e.nameLink !in md5s.home
      requires e.md5Link != null && e.md5Link.owner == Some(e) && e.md5Link !in names.home && e.md5Link !in md5s.home
      requires e.nameLink != e.md5Link
      modifies this, names, md5s, names.home.Keys, md5s.home.Keys, e.nameLink, e.md5Link
      ensures Valid() && all == old(all) + {e}
      ensures names.rings == Appended(old(names.rings), NameBucket(e.hash), e.nameLink)
      ensures md5s.rings == Appended(old(md5s.rings), Md5Bucket(e.md5), e.md5Link)
      ensures names.home.Keys == old(names.home).Keys + {e.nameLink} && md5s.home.Keys == old(md5s.home).Keys + {e.md5Link}
    {
      hide AllHang, NamesLeadBack, Md5sLeadBack, Index.Valid;
      Hang(e, all);
      all := all + {e};
      entries := entries + 1;
    }

    /** A new entry goes to the end of both its rings. */
    method Add(md5: Md5, filename: Name) returns (e: Entry)
      requires Valid()
      modifies this, names, md5s, names.home.Keys, md5s.home.Keys
      ensures Valid() && fresh(e) && all == old(all) + {e} && e.filename == filename && e.md5 == md5
      ensures e.nameLink != null && names.rings == Appended(old(names.rings), NameBucket(GetHash(filename)), e.nameLink)
      ensures e.md5Link != null && md5s.rings == Appended(old(md5s.rings), Md5Bucket(md5), e.md5Link)
      ensures fresh(names.home.Keys - old(names.home.Keys)) && fresh(md5s.home.Keys - old(md5s.home.Keys))
    {
      hide AllHang, NamesLeadBack, Md5sLeadBack, Index.Valid;
      e := new Entry(filename, md5);
      assert Sound() && Indexed(all);
      Insert(e);
    }

    /** Take an entry that has been found out of the table. */
    method Remove(e: Entry)
      requires Valid() && e in all
      modifies this, names, md5s, names.home.Keys, md5s.home.Keys
      ensures Valid() && all == old(all) - {e}
      ensures exists k, j ::
        && names.rings == Removed(old(names.rings), NameBucket(e.hash), k)
        && md5s.rings == Removed(old(md5s.rings), Md5Bucket(e.md5), j)
      ensures names.home.Keys == old(names.home).Keys - {e.nameLink} && md5s.home.Keys == old(md5s.home).Keys - {e.md5Link}
    {
      hide AllHang, NamesLeadBack, Md5sLeadBack, Index.Valid;
      ghost var k, j := Unhang(e, all);
      all := all - {e};
      entries := entries - 1;
    }

    lemma Rings()
      requires Valid()
      ensures |names.heads| == HASH_SIZE == |names.rings| && |md5s.heads| == HASH_SIZE == |md5s.rings|
    {
    }

    /** The way round a ring: from its `k`-th link to the next one, which an entry owns unless it is the head. */
    lemma OnwardName(b: nat, k: nat)
      requires Valid() && b < |names.heads| == |names.rings| && k <= |names.rings[b]|
      ensures var h, s := names.heads[b], names.rings[b];
        && Item(h, s, k).next == Item(h, s, k + 1)
        && (k < |s| ==>
              && s[k] != h && s[k].owner.Some? && s[k].owner.value in all
              && s[k].owner.value.nameLink == s[k] && s[k].owner.value.hash == GetHash(s[k].owner.value.filename))
    {
      var h, s := names.heads[b], names.rings[b];
      assert IsRing(h, s);
      if k < |s| {
        assert s[k] in s;
        assert Hangs(s[k].owner.value);
      }
    }

    lemma OnwardMd5(b: nat, k: nat)
      requires Valid() && b < |md5s.heads| == |md5s.rings| && k <= |md5s.rings[b]|
      ensures var h, s := md5s.heads[b], md5s.rings[b];
        && Item(h, s, k).next == Item(h, s, k + 1)
        && (k < |s| ==>
              && s[k] != h && s[k].owner.Some? && s[k].owner.value in all && s[k].owner.value.md5Link == s[k])
    {
      var h, s := md5s.heads[b], md5s.rings[b];
      assert IsRing(h, s);
      if k < |s| {
        assert s[k] in s;
      }
    }

    lemma InNameRing(x: Entry)
      requires Valid() && x in all
      ensures |names.rings| == HASH_SIZE && x.hash == GetHash(x.filename)
      ensures x.nameLink in names.rings[NameBucket(x.hash)] && x.nameLink.owner == Some(x)
    {
      assert Hangs(x);
    }

    lemma InMd5Ring(x: Entry)
      requires Valid() && x in all
      ensures |md5s.rings| == HASH_SIZE
      ensures x.md5Link in md5s.rings[Md5Bucket(x.md5)] && x.md5Link.owner == Some(x)
    {
      assert Hangs(x);
    }

    /** Look an entry up by its name. */
    method FindName(filename: Name) returns (e: Entry?)
      requires Valid()
      ensures e != null ==> e in all && e.filename == filename
      ensures e == null ==> forall x :: x in all ==> x.filename != filename
    {
      hide Sound, Indexed;
      var hash := ComputeHash(filename);
      var b := NameBucket(hash);
      Rings();
      var head := names.heads[b];
      ghost var s, k := names.rings[b], 0;
      OnwardName(b, 0);
      var l := head.next;
      while l != head
        invariant k <= |s| && l == Item(head, s, k + 1) && (l != head <==> k < |s|)
        invariant forall i :: 0 <= i < k ==> s[i].owner.Some? && !(s[i].owner.value.filename == filename)
        decreases |s| - k
      {
        OnwardName(b, k);
        OnwardName(b, k + 1);
        var x := l.owner.value;
        if x.hash == hash && x.filename == filename {
          return x;
        }
        l := l.next;
        k := k + 1;
      }
      forall x | x in all ensures !(x.filename == filename) {
        InNameRing(x);
      }
      e := null;
    }

    /** Look an entry up by its MD5 sum. */
    method FindMd5(md5: Md5) returns (e: Entry?)
      requires Valid()
      ensures e != null ==> e in all && e.md5 == md5
      ensures e == null ==> forall x :: x in all ==> x.md5 != md5
    {
      hide Sound, Indexed;
      var b := Md5Bucket(md5);
      Rings();
      var head := md5s.heads[b];
      ghost var s, k := md5s.rings[b], 0;
      OnwardMd5(b, 0);
      var l := head.next;
      while l != head
        invariant k <= |s| && l == Item(head, s, k + 1) && (l != head <==> k < |s|)
        invariant forall i :: 0 <= i < k ==> s[i].owner.Some? && !(s[i].owner.value.md5 == md5)
        decreases |s| - k
      {
        OnwardMd5(b, k);
        OnwardMd5(b, k + 1);
        var x := l.owner.value;
        if x.md5 == md5 {
          return x;
        }
        l := l.next;
        k := k + 1;
      }
      forall x | x in all ensures !(x.md5 == md5) {
        InMd5Ring(x);
      }
      e := null;
    }

    /** Whether some entry's name has this hash. */
    method HasFilehash(hash: nat) returns (found: bool)
      requires Valid()
      ensures found <==> exists x :: x in all && x.hash == hash
    {
      hide Sound, Indexed;
      var b := NameBucket(hash);
      Rings();
      var head := names.heads[b];
      ghost var s, k := names.rings[b], 0;
      OnwardName(b, 0);
      var l := head.next;
      while l != head
        invariant k <= |s| && l == Item(head, s, k + 1) && (l != head <==> k < |s|)
        invariant forall i :: 0 <= i < k ==> s[i].owner.Some? && !(s[i].owner.value.hash == hash)
        decreases |s| - k
      {
        OnwardName(b, k);
        OnwardName(b, k + 1);
        var x := l.owner.value;
        if x.hash == hash {
          return true;
        }
        l := l.next;
        k := k + 1;
      }
      forall x | x in all ensures !(x.hash == hash) {
        InNameRing(x);
      }
      found := false;
    }

    /** The table is the map `db` from names to entries. */
    ghost predicate Shows(db: map<Name, Entry>)
      reads this, all
    {
      && (forall n :: n in db ==> db[n] in all && db[n].filename == n)
      && (forall e :: e in all ==> e.filename in db && db[e.filename] == e)
    }

    /** Discarding a file whose flag says that it may be in the table; without the flag it is not there. */
    method Discard(filename: Name, deduped: bool, ghost db: map<Name, Entry>)
      requires Valid() && Shows(db) && (!deduped ==> filename !in db)
      modifies this, names, md5s, names.home.Keys, md5s.home.Keys
      ensures Valid() && Shows(db - {filename}) && all <= old(all)
      ensures names.home.Keys <= old(names.home).Keys && md5s.home.Keys <= old(md5s.home).Keys
    {
      hide Indexed, Sound;
      if !deduped {
        assert db - {filename} == db;
        return;
      }
      var e := FindName(filename);
      if e != null {
        RemoveShown(e, db);
      } else {
        assert filename !in db;
        assert db - {filename} == db;
      }
    }

    method RemoveShown(e: Entry, ghost db: map<Name, Entry>)
      requires Valid() && e in all && Shows(db)
      modifies this, names, md5s, names.home.Keys, md5s.home.Keys
      ensures Valid() && all == old(all) - {e} && Shows(db - {e.filename})
      ensures names.home.Keys <= old(names.home).Keys && md5s.home.Keys <= old(md5s.home).Keys
    {
      hide Indexed, Sound;
      Remove(e);
    }

    method AddShown(md5: Md5, filename: Name, ghost db: map<Name, Entry>) returns (e: Entry)
      requires Valid() && Shows(db) && filename !in db
      modifies this, names, md5s, names.home.Keys, md5s.home.Keys
      ensures Valid() && Shows(db[filename := e]) && fresh(e) && e.md5 == md5 && all == old(all) + {e}
    {
      hide Indexed, Sound;
      e := Add(md5, filename);
      assert forall n :: n in db ==> db[n] in all && db[n].filename == n;
    }

    /** The table's part of linking a file to its double: the entry that has its MD5 sum, or else a new one for it. */
    method FindOrEnter(md5: Md5, filename: Name, ghost db: map<Name, Entry>) returns (e: Entry, found: bool)
      requires Valid() && Shows(db)
      requires (forall x :: x in all ==> x.md5 != md5) ==> filename !in db
      modifies this, names, md5s, names.home.Keys, md5s.home.Keys
      ensures Valid() && e in all && e.md5 == md5
      ensures found <==> exists x :: x in old(all) && x.md5 == md5
      ensures if found then Shows(db) && all == old(all) else Shows(db[filename := e]) && fresh(e) && all == old(all) + {e}
    {
      hide Indexed, Sound, Shows;
      var x := FindMd5(md5);
      if x != null {
        return x, true;
      }
      e := AddShown(md5, filename, db);
      found := false;
    }

    lemma LinksApart(e: Entry)
      requires Valid() && e in all
      ensures e.nameLink in names.home && e.nameLink !in md5s.home
      ensures e.md5Link in md5s.home && e.md5Link !in names.home
    {
      assert Hangs(e);
    }

    /** The name of an entry that hangs nowhere may change. */
    method SetName(e: Entry, filename: Name, ghost others: set<Entry>)
      requires Sound() && Indexed(others) && e !in others
      modifies e`filename, e`hash
      ensures Sound() && Indexed(others) && e.filename == filename && e.hash == GetHash(filename)
    {
      hide NamesLeadBack, Md5sLeadBack, AllHang, Index.Valid;
      var hash := ComputeHash(filename);
      e.filename := filename;
      e.hash := hash;
    }

    /** Give an entry another name: out of both rings, and back at their ends under the new name. */
    method Relabel(e: Entry, filename: Name)
      requires Valid() && e in all
      modifies names, md5s, names.home.Keys, md5s.home.Keys, e`filename, e`hash
      ensures Valid() && e.filename == filename
      ensures names.home.Keys == old(names.home).Keys && md5s.home.Keys == old(md5s.home).Keys
      ensures exists k, j ::
        && names.rings == Appended(Removed(old(names.rings), NameBucket(old(e.hash)), k), NameBucket(GetHash(filename)), e.nameLink)
        && md5s.rings == Appended(Removed(old(md5s.rings), Md5Bucket(e.md5), j), Md5Bucket(e.md5), e.md5Link)
    {
      hide NamesLeadBack, Md5sLeadBack, AllHang, Index.Valid;
      InNameRing(e);
      InMd5Ring(e);
      LinksApart(e);
      ghost var k, j := Unhang(e, all);
      SetName(e, filename, all - {e});
      Hang(e, all - {e});
      assert all - {e} + {e} == all;
    }

    method RelabelShown(e: Entry, filename: Name, ghost db: map<Name, Entry>)
      requires Valid() && Shows(db) && e in all && filename !in db
      modifies names, md5s, names.home.Keys, md5s.home.Keys, e`filename, e`hash
      ensures Valid() && Shows((db - {old(e.filename)})[filename := e])
    {
      hide Indexed, Sound;
      ghost var from := e.filename;
      assert forall x :: x in all && x != e ==> x.filename != from;
      Relabel(e, filename);
    }

    /** Discarding leaves the table without the name, so what a search finds is in the rest of the map. */
    lemma Found(db: map<Name, Entry>, name: Name, e: Entry?)
      requires Valid() && Shows(db)
      requires if e == null then forall x :: x in all ==> x.filename != name else e in all && e.filename == name
      ensures if e == null then name !in db else name in db && db[name] == e
    {
    }

    /** A rename: the target's entry goes, the source's entry and flag become the target's. */
    method Rename(from: Name, to: Name, fromDeduped: bool, toDeduped: bool, ghost db: map<Name, Entry>)
      returns (deduped: bool)
      requires Valid() && Shows(db) && from != to
      requires (!fromDeduped ==> from !in db) && (!toDeduped ==> to !in db)
      modifies this, names, md5s, names.home.Keys, md5s.home.Keys, all
      ensures Valid() && Shows(MovedEntry(db, from, to)) && deduped == fromDeduped
      ensures !deduped ==> to !in MovedEntry(db, from, to)
      ensures from in db ==> db[from] in all && db[from].filename == to
      ensures forall n :: n in db && n != from && n != to ==> db[n] in all && db[n].filename == n
      ensures forall e :: e in all ==> exists n :: n in db && n != to && db[n] == e
      ensures forall e :: e in all ==> e.filename != from
    {
      hide Indexed, Sound, Shows, MovedEntry, Polynomial;
      MovedInSteps(db, from, to);
      Discard(to, toDeduped, db);
      deduped := fromDeduped;
      ghost var rest := db - {to};
      var e := FindName(from);
      Found(rest, from, e);
      if e != null {
        RelabelShown(e, to, rest);
      }
      RenameMeans(db, from, to);
    }

    /** What a search finds after a rename: the source's entry under the new name, nothing under the old one, and all
        others but the target's old entry where they were. */
    lemma RenameMeans(db: map<Name, Entry>, from: Name, to: Name)
      requires Shows(MovedEntry(db, from, to)) && from != to
      ensures from in db ==> db[from] in all && db[from].filename == to
      ensures forall n :: n in db && n != from && n != to ==> db[n] in all && db[n].filename == n
      ensures forall e :: e in all ==> exists n :: n in db && n != to && db[n] == e
      ensures forall e :: e in all ==> e.filename != from
    {
      hide MovedEntry;
      MovedEntryMeans(db, from, to);
      var now := MovedEntry(db, from, to);
      forall e | e in all ensures exists n :: n in db && n != to && db[n] == e {
        var n := if e.filename == to then from else e.filename;
        assert n in db && db[n] == e;
      }
    }

    /** An entry is in exactly one place of each index, in the buckets that its name and its MD5 sum select. */
    lemma InExactlyOnePlace(e: Entry, b: nat, k: nat, c: nat, j: nat)
      requires Valid() && e in all
      requires b < HASH_SIZE && b < |names.rings| && k < |names.rings[b]|
      requires c < HASH_SIZE && c < |md5s.rings| && j < |md5s.rings[c]|
      ensures NameBucket(GetHash(e.filename)) < |names.rings| && e.nameLink in names.rings[NameBucket(GetHash(e.filename))]
      ensures Md5Bucket(e.md5) < |md5s.rings| && e.md5Link in md5s.rings[Md5Bucket(e.md5)]
      ensures names.rings[b][k] == e.nameLink ==>
                b == NameBucket(GetHash(e.filename))
                && forall i :: 0 <= i < |names.rings[b]| && names.rings[b][i] == e.nameLink ==> i == k
      ensures md5s.rings[c][j] == e.md5Link ==>
                c == Md5Bucket(e.md5)
                && forall i :: 0 <= i < |md5s.rings[c]| && md5s.rings[c][i] == e.md5Link ==> i == j
    {
      InNameRing(e);
      InMd5Ring(e);
      assert Hangs(e);
      assert names.rings[b][k] in names.rings[b] && md5s.rings[c][j] in md5s.rings[c];
      assert IsRing(names.heads[b], names.rings[b]) && IsRing(md5s.heads[c], md5s.rings[c]);
    }

    /** The counter is the size of the map. */
    lemma CountedByName(db: map<Name, Entry>)
      requires Valid() && Shows(db)
      ensures entries == |db|
    {
      hide Indexed, Sound;
      SameSize(db, all);
    }
  }

  /** A map whose values are the elements of a set, each once, is as large as the set. */
  lemma {:induction false} SameSize(db: map<Name, Entry>, es: set<Entry>)
    requires forall n :: n in db ==> db[n] in es
    requires forall n, m :: n in db && m in db && db[n] == db[m] ==> n == m
    requires forall e :: e in es ==> exists n :: n in db && db[n] == e
    ensures |db| == |es|
    decreases |db|
  {
    if db == map[] {
      assert es == {};
    } else {
      var n :| n in db;
      var rest := db - {n};
      assert rest.Keys == db.Keys - {n};
      forall e | e in es - {db[n]} ensures exists m :: m in rest && rest[m] == e {
        var m :| m in db && db[m] == e;
        assert m in rest;
      }
      SameSize(rest, es - {db[n]});
    }
  }
}
