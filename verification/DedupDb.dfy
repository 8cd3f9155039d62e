/**
 The deduplication database on disk: a header, then for every entry the length of its name, the name and the
 MD5 sum. It is written when the file system is unmounted and read when it is mounted.
 */
module DedupDb {
  import opened Bytes
  import opened Paths
  import opened Rings
  import opened DedupTable

  /** "DEDUP" and version 2. */
  const MAGIC: Data := [68, 69, 68, 85, 80]
  const VERSION: nat := 2

  /** A name as it is in the file, and its MD5 sum. */
  type Pair = (Data, Md5)

  predicate Proper(e: Pair) {
    e.0 != [] && 0 !in e.0 && |e.0| < 0x1_0000_0000
  }

  function HeaderBytes(): (h: Data)
    ensures |h| == 7
  {
    MAGIC + LittleEndian(VERSION, 2)
  }

  function EntryBytes(e: Pair): (r: Data)
    ensures |r| == 20 + |e.0|
  {
    LittleEndian(|e.0|, 4) + e.0 + e.1
  }

  function EntriesBytes(es: seq<Pair>): Data {
    if es == [] then [] else EntryBytes(es[0]) + EntriesBytes(es[1..])
  }

  /** What is found in a file, and whether it ended where an entry could begin. */
  datatype Loaded = Loaded(entries: seq<Pair>, ok: bool)

  /** A name as the code takes it from the file: what stands in front of the first zero byte. */
  function Terminated(d: Data): (r: Data)
    ensures 0 !in r && r <= d && (0 !in d ==> r == d)
  {
    if d == [] || d[0] == 0 then [] else [d[0]] + Terminated(d[1..])
  }

  /** The next entry at the start of `d`: none if not even its length is there, broken if the rest is not. */
  datatype Next = End | Broken | Entry(e: Pair, rest: Data)

  function NextEntry(d: Data): (r: Next)
    ensures r.Entry? ==> |r.rest| < |d| && 0 !in r.e.0
  {
    if |d| < 4 then End else
      var len := FromLittleEndian(d[..4]);
      if |d| < 4 + len + 16 then Broken
      else Next.Entry((Terminated(d[4..4 + len]), d[4 + len..4 + len + 16]), d[4 + len + 16..])
  }

  function ParseEntries(d: Data): Loaded
    decreases |d|
  {
    match NextEntry(d)
    case End => Loaded([], true)
    case Broken => Loaded([], false)
    case Entry(e, rest) => var more := ParseEntries(rest); Loaded([e] + more.entries, more.ok)
  }

  /** A file without the right header gives nothing. */
  function ParseFile(d: Data): Loaded {
    if |d| < 7 || d[..5] != MAGIC || FromLittleEndian(d[5..7]) != VERSION then Loaded([], false)
    else ParseEntries(d[7..])
  }

  /** The file begins with "DEDUP" and the version in two bytes. */
  lemma HeaderLayout()
    ensures HeaderBytes() == [68, 69, 68, 85, 80, 2, 0]
  {
    LittleEndianAt(VERSION, 2, 0);
    LittleEndianAt(VERSION, 2, 1);
    assert Pow256(1) == 256 * Pow256(0);
  }

  /** An entry is the length of its name in four bytes, the lowest first, the name, and the sixteen bytes of the sum. */
  lemma EntryLayout(e: Pair)
    ensures forall i :: 0 <= i < 4 ==> EntryBytes(e)[i] == |e.0| / Pow256(i) % 256
    ensures EntryBytes(e)[4..4 + |e.0|] == e.0 && EntryBytes(e)[4 + |e.0|..] == e.1
  {
    forall i | 0 <= i < 4 ensures EntryBytes(e)[i] == |e.0| / Pow256(i) % 256 {
      LittleEndianAt(|e.0|, 4, i);
    }
  }

  lemma EntryIsRead(d: Data)
    requires |d| >= 4
    ensures var len := Word(d[0], d[1], d[2], d[3]);
      len >= 0 &&
      NextEntry(d) == if |d| < 4 + len + 16 then Broken
        else Next.Entry((Terminated(d[4..4 + len]), d[4 + len..4 + len + 16]), d[4 + len + 16..])
  {
    FourBytes(d[..4]);
  }

  lemma EntryReadsBack(e: Pair, rest: Data)
    requires Proper(e)
    ensures NextEntry(EntryBytes(e) + rest) == Next.Entry(e, rest)
  {
    var d, len := EntryBytes(e) + rest, |e.0|;
    Pow256Values();
    LittleEndianRoundTrip(len, 4);
    assert d[..4] == LittleEndian(len, 4);
    assert d[4..4 + len] == e.0;
    assert d[4 + len..4 + len + 16] == e.1;
    assert d[4 + len + 16..] == rest;
  }

  lemma HeaderReadsBack(rest: Data)
    ensures ParseFile(HeaderBytes() + rest) == ParseEntries(rest)
  {
    var d := HeaderBytes() + rest;
    assert d[..5] == MAGIC && d[5..7] == LittleEndian(VERSION, 2) && d[7..] == rest;
    assert Pow256(2) == 256 * Pow256(1);
    LittleEndianRoundTrip(VERSION, 2);
  }

  /** How many of the entries lie wholly within the first `n` bytes, and how many bytes they take. */
  function Whole(es: seq<Pair>, n: nat): (k: nat)
    ensures k <= |es|
  {
    if es == [] || n < |EntryBytes(es[0])| then 0 else 1 + Whole(es[1..], n - |EntryBytes(es[0])|)
  }

  function WholeBytes(es: seq<Pair>, n: nat): (m: nat)
    ensures m <= n
  {
    if es == [] || n < |EntryBytes(es[0])| then 0
    else |EntryBytes(es[0])| + WholeBytes(es[1..], n - |EntryBytes(es[0])|)
  }

  /** A cut-off first entry is broken, unless the cut is within the length of its name. */
  lemma CutEntry(e: Pair, d: Data, n: nat)
    requires Proper(e) && n < |EntryBytes(e)| && |d| >= |EntryBytes(e)| && d[..|EntryBytes(e)|] == EntryBytes(e)
    ensures NextEntry(d[..n]) == if n < 4 then End else Broken
  {
    if n >= 4 {
      Pow256Values();
      LittleEndianRoundTrip(|e.0|, 4);
      assert d[..n][..4] == EntryBytes(e)[..4] == LittleEndian(|e.0|, 4);
    }
  }

  /** Any truncation loads exactly the entries that lie wholly within it, and is found to be broken if and
      only if it ends inside an entry but behind the length of its name. */
  lemma {:induction false} TruncationKeepsWholeEntries(es: seq<Pair>, n: nat)
    requires forall e :: e in es ==> Proper(e)
    requires n <= |EntriesBytes(es)|
    ensures ParseEntries(EntriesBytes(es)[..n]) == Loaded(es[..Whole(es, n)], n - WholeBytes(es, n) < 4)
    decreases |es|
  {
    hide NextEntry, EntryBytes, Proper;
    var d := EntriesBytes(es);
    if es == [] {
      assert d[..n] == [];
      NothingLoads();
    } else {
      var e, more := es[0], EntriesBytes(es[1..]);
      var size := |EntryBytes(e)|;
      assert d == EntryBytes(e) + more && d[..size] == EntryBytes(e);
      if n < size {
        CutEntry(e, d, n);
      } else {
        assert d[..n] == EntryBytes(e) + more[..n - size];
        EntryReadsBack(e, more[..n - size]);
        TruncationKeepsWholeEntries(es[1..], n - size);
        FirstAndMore(es, Whole(es[1..], n - size));
      }
    }
  }

  lemma NothingLoads()
    ensures ParseEntries([]) == Loaded([], true)
  {
  }

  lemma FirstAndMore(es: seq<Pair>, k: nat)
    requires k < |es|
    ensures es[..k + 1] == [es[0]] + es[1..][..k]
  {
  }

  lemma {:induction false} AllAreWhole(es: seq<Pair>)
    ensures Whole(es, |EntriesBytes(es)|) == |es| && WholeBytes(es, |EntriesBytes(es)|) == |EntriesBytes(es)|
  {
    if es != [] {
      AllAreWhole(es[1..]);
    }
  }

  /** What was saved is loaded. */
  lemma SavedIsLoaded(es: seq<Pair>)
    requires forall e :: e in es ==> Proper(e)
    ensures ParseFile(HeaderBytes() + EntriesBytes(es)) == Loaded(es, true)
  {
    HeaderReadsBack(EntriesBytes(es));
    AllAreWhole(es);
    TruncationKeepsWholeEntries(es, |EntriesBytes(es)|);
    assert EntriesBytes(es)[..|EntriesBytes(es)|] == EntriesBytes(es) && es[..|es|] == es;
  }

  /** A path is excluded if one of the user's prefixes starts it. */
  predicate Excluded(name: Data, prefixes: seq<Data>) {
    exists i :: 0 <= i < |prefixes| && prefixes[i] <= name
  }

  method IsExcluded(name: Data, prefixes: seq<Data>) returns (r: bool)
    ensures r <==> Excluded(name, prefixes)
  {
    var i := 0;
    while i < |prefixes|
      invariant 0 <= i <= |prefixes| && forall j :: 0 <= j < i ==> !(prefixes[j] <= name)
    {
      if prefixes[i] <= name {
        return true;
      }
      i := i + 1;
    }
    r := false;
  }

  /** The entries that loading keeps, in their order. */
  function Kept(es: seq<Pair>, prefixes: seq<Data>): seq<Pair> {
    if es == [] then []
    else (if Excluded(es[0].0, prefixes) then [] else [es[0]]) + Kept(es[1..], prefixes)
  }

  /** The entries that belong into a name bucket, in their order. */
  function InBucket(es: seq<Pair>, b: nat): seq<Pair> {
    if es == [] then []
    else (if NameBucket(GetHash(es[0].0)) == b then [es[0]] else []) + InBucket(es[1..], b)
  }

  function Concat(buckets: seq<seq<Pair>>): seq<Pair> {
    if buckets == [] then [] else buckets[0] + Concat(buckets[1..])
  }

  lemma {:induction false} KeptAppend(a: seq<Pair>, b: seq<Pair>, prefixes: seq<Data>)
    ensures Kept(a + b, prefixes) == Kept(a, prefixes) + Kept(b, prefixes)
  {
    if a == [] {
      assert a + b == b;
    } else {
      assert (a + b)[1..] == a[1..] + b;
      KeptAppend(a[1..], b, prefixes);
    }
  }

  lemma {:induction false} InBucketAppend(a: seq<Pair>, b: seq<Pair>, i: nat)
    ensures InBucket(a + b, i) == InBucket(a, i) + InBucket(b, i)
  {
    if a == [] {
      assert a + b == b;
    } else {
      assert (a + b)[1..] == a[1..] + b;
      InBucketAppend(a[1..], b, i);
    }
  }

  lemma {:induction false} ConcatSnoc(buckets: seq<seq<Pair>>, last: seq<Pair>)
    ensures Concat(buckets + [last]) == Concat(buckets) + last
  {
    if buckets == [] {
      assert buckets + [last] == [last];
    } else {
      assert (buckets + [last])[1..] == buckets[1..] + [last];
      ConcatSnoc(buckets[1..], last);
    }
  }

  lemma {:induction false} EntriesBytesAppend(a: seq<Pair>, b: seq<Pair>)
    ensures EntriesBytes(a + b) == EntriesBytes(a) + EntriesBytes(b)
  {
    if a == [] {
      assert a + b == b;
    } else {
      assert (a + b)[1..] == a[1..] + b;
      EntriesBytesAppend(a[1..], b);
    }
  }

  /** Each bucket holds the entries whose names hash to it. */
  predicate Sorted(buckets: seq<seq<Pair>>, from: nat) {
    forall i, e :: 0 <= i < |buckets| && e in buckets[i] ==> NameBucket(GetHash(e.0)) == from + i
  }

  lemma {:induction false} AllInOne(es: seq<Pair>, b: nat, i: nat)
    requires forall e :: e in es ==> NameBucket(GetHash(e.0)) == b
    ensures InBucket(es, i) == if i == b then es else []
  {
    if es != [] {
      AllInOne(es[1..], b, i);
      assert es == [es[0]] + es[1..];
    }
  }

  lemma SortedTail(buckets: seq<seq<Pair>>, from: nat)
    requires Sorted(buckets, from) && buckets != []
    ensures Sorted(buckets[1..], from + 1) && forall e :: e in buckets[0] ==> NameBucket(GetHash(e.0)) == from
  {
    hide NameBucket, GetHash;
    forall j, e | 0 <= j < |buckets[1..]| && e in buckets[1..][j] ensures NameBucket(GetHash(e.0)) == from + 1 + j {
      assert buckets[1..][j] == buckets[j + 1];
    }
  }

  /** Written one after the other and sorted into buckets again, the entries are where they were, in order. */
  lemma {:induction false} BucketsComeBack(buckets: seq<seq<Pair>>, from: nat, i: nat)
    requires Sorted(buckets, from)
    ensures InBucket(Concat(buckets), i) == if from <= i < from + |buckets| then buckets[i - from] else []
    decreases |buckets|
  {
    hide NameBucket, GetHash, Sorted;
    if buckets != [] {
      SortedTail(buckets, from);
      BucketsComeBack(buckets[1..], from + 1, i);
      AllInOne(buckets[0], from, i);
      InBucketAppend(buckets[0], Concat(buckets[1..]), i);
    }
  }

  lemma {:induction false} KeptInBucket(es: seq<Pair>, prefixes: seq<Data>, b: nat)
    ensures InBucket(Kept(es, prefixes), b) == Kept(InBucket(es, b), prefixes)
  {
    if es != [] {
      KeptInBucket(es[1..], prefixes, b);
      InBucketAppend(if Excluded(es[0].0, prefixes) then [] else [es[0]], Kept(es[1..], prefixes), b);
      KeptAppend(if NameBucket(GetHash(es[0].0)) == b then [es[0]] else [], InBucket(es[1..], b), prefixes);
    }
  }

  function Saved(buckets: seq<seq<Pair>>): Data {
    HeaderBytes() + EntriesBytes(Concat(buckets))
  }

  /** Saving and loading keeps, bucket by bucket and in order, exactly the entries that are not excluded. */
  lemma SaveThenLoad(buckets: seq<seq<Pair>>, prefixes: seq<Data>, b: nat)
    requires Sorted(buckets, 0) && b < |buckets| && forall i, e :: 0 <= i < |buckets| && e in buckets[i] ==> Proper(e)
    ensures ParseFile(Saved(buckets)).ok
    ensures InBucket(Kept(ParseFile(Saved(buckets)).entries, prefixes), b) == Kept(buckets[b], prefixes)
  {
    ConcatHas(buckets);
    SavedIsLoaded(Concat(buckets));
    KeptInBucket(Concat(buckets), prefixes, b);
    BucketsComeBack(buckets, 0, b);
  }

  lemma {:induction false} ConcatHas(buckets: seq<seq<Pair>>)
    ensures forall e :: e in Concat(buckets) ==> exists i :: 0 <= i < |buckets| && e in buckets[i]
    decreases |buckets|
  {
    if buckets != [] {
      ConcatHas(buckets[1..]);
      forall e | e in Concat(buckets) ensures exists i :: 0 <= i < |buckets| && e in buckets[i] {
        if e !in buckets[0] {
          assert e in Concat(buckets[1..]);
          var j :| 0 <= j < |buckets[1..]| && e in buckets[1..][j];
          assert e in buckets[j + 1];
        }
      }
    }
  }

  // ----- The table in memory and the file -----

  ghost function PairOf(l: Link<Entry>): Pair
    requires l.owner.Some?
    reads l.owner.value
  {
    (l.owner.value.filename, l.owner.value.md5)
  }

  ghost predicate Owned(s: seq<Link<Entry>>) {
    forall l :: l in s ==> l.owner.Some?
  }

  ghost function PairsOf(s: seq<Link<Entry>>): (r: seq<Pair>)
    requires Owned(s)
    reads set l | l in s && l.owner.Some? :: l.owner.value
    ensures |r| == |s| && forall k :: 0 <= k < |s| ==> r[k] == PairOf(s[k])
  {
    if s == [] then [] else [PairOf(s[0])] + PairsOf(s[1..])
  }

  lemma {:induction false} PairsOfAppend(s: seq<Link<Entry>>, l: Link<Entry>)
    requires Owned(s) && l.owner.Some?
    ensures PairsOf(s + [l]) == PairsOf(s) + [PairOf(l)]
  {
    assert forall k :: 0 <= k < |s| ==> PairsOf(s + [l])[k] == PairsOf(s)[k];
  }

  /** Ring `b` of the table as the pairs of its entries. */
  lemma RingOwned(t: Table, b: nat)
    requires t.Valid() && b < HASH_SIZE
    ensures |t.names.rings| == HASH_SIZE && Owned(t.names.rings[b])
    ensures forall l :: l in t.names.rings[b] ==>
      l.owner.value in t.all && NameBucket(GetHash(l.owner.value.filename)) == b
  {
    t.Rings();
    forall l | l in t.names.rings[b]
      ensures l.owner.Some? && l.owner.value in t.all && NameBucket(GetHash(l.owner.value.filename)) == b
    {
      assert t.Hangs(l.owner.value);
    }
  }

  /** Bucket `b` of a table: the pairs of its ring, in order. */
  ghost function Bucket(t: Table, b: nat): seq<Pair>
    requires t.Valid() && b < HASH_SIZE
    reads t, t.names, t.md5s, t.all, t.names.home.Keys, t.md5s.home.Keys
  {
    RingOwned(t, b);
    PairsOf(t.names.rings[b])
  }

  ghost predicate BucketsAre(t: Table, buckets: seq<seq<Pair>>)
    requires t.Valid()
    reads t, t.names, t.md5s, t.all, t.names.home.Keys, t.md5s.home.Keys
  {
    |buckets| == HASH_SIZE && forall b :: 0 <= b < HASH_SIZE ==> buckets[b] == Bucket(t, b)
  }

  /** The saved form of the first `n` buckets. */
  ghost function BucketsBytes(t: Table, n: nat): Data
    requires t.Valid() && n <= HASH_SIZE
    reads t, t.names, t.md5s, t.all, t.names.home.Keys, t.md5s.home.Keys
  {
    if n == 0 then [] else BucketsBytes(t, n - 1) + EntriesBytes(Bucket(t, n - 1))
  }

  function FirstBuckets(buckets: seq<seq<Pair>>, n: nat): Data
    requires n <= |buckets|
  {
    EntriesBytes(Concat(buckets[..n]))
  }

  lemma NextBucket(buckets: seq<seq<Pair>>, n: nat)
    requires n < |buckets|
    ensures FirstBuckets(buckets, n + 1) == FirstBuckets(buckets, n) + EntriesBytes(buckets[n])
  {
    EntriesBytesAppend(Concat(buckets[..n]), buckets[n]);
    ConcatSnoc(buckets[..n], buckets[n]);
    assert buckets[..n + 1] == buckets[..n] + [buckets[n]];
  }

  lemma NoBucketAndAll(buckets: seq<seq<Pair>>)
    ensures FirstBuckets(buckets, 0) == []
    ensures HeaderBytes() + FirstBuckets(buckets, |buckets|) == Saved(buckets)
  {
    assert buckets[..0] == [] && buckets[..|buckets|] == buckets;
  }

  lemma {:induction false} BucketsBytesAre(t: Table, buckets: seq<seq<Pair>>, n: nat)
    requires t.Valid() && BucketsAre(t, buckets) && n <= HASH_SIZE
    ensures BucketsBytes(t, n) == FirstBuckets(buckets, n)
  {
    hide Table.Valid, EntriesBytes, Bucket, FirstBuckets;
    NoBucketAndAll(buckets);
    if n > 0 {
      BucketsBytesAre(t, buckets, n - 1);
      NextBucket(buckets, n - 1);
    }
  }

  /** The buckets of a table are sorted and its pairs can be saved. */
  lemma TableIsSorted(t: Table, buckets: seq<seq<Pair>>)
    requires t.Valid() && BucketsAre(t, buckets)
    requires forall e :: e in t.all ==> |e.filename| < 0x1_0000_0000
    ensures Sorted(buckets, 0) && forall i, e :: 0 <= i < |buckets| && e in buckets[i] ==> Proper(e)
  {
    forall i, e | 0 <= i < |buckets| && e in buckets[i] ensures NameBucket(GetHash(e.0)) == i && Proper(e) {
      RingOwned(t, i);
      var k :| 0 <= k < |buckets[i]| && buckets[i][k] == e;
      var l := t.names.rings[i][k];
      assert e == PairOf(l) && l in t.names.rings[i];
    }
  }

  /** What a table is saved as, in terms of its buckets. */
  lemma SavedForm(t: Table, buckets: seq<seq<Pair>>)
    requires t.Valid() && BucketsAre(t, buckets)
    ensures HeaderBytes() + BucketsBytes(t, HASH_SIZE) == Saved(buckets)
  {
    BucketsBytesAre(t, buckets, HASH_SIZE);
    NoBucketAndAll(buckets);
  }

  lemma NoBytes(t: Table)
    requires t.Valid()
    ensures BucketsBytes(t, 0) == []
  {
  }

  lemma MoreBytes(t: Table, b: nat)
    requires t.Valid() && b < HASH_SIZE
    ensures BucketsBytes(t, b + 1) == BucketsBytes(t, b) + EntriesBytes(Bucket(t, b))
  {
    hide Table.Valid, EntriesBytes, Bucket;
  }

  /** Write the header, and bucket by bucket every entry. */
  method Save(t: Table) returns (out: Data)
    requires t.Valid()
    requires forall e :: e in t.all ==> |e.filename| < 0x1_0000_0000
    ensures out == HeaderBytes() + BucketsBytes(t, HASH_SIZE)
  {
    hide Table.Valid, HeaderBytes, EntriesBytes, BucketsBytes, Bucket;
    NoBytes(t);
    out := HeaderBytes();
    var b := 0;
    while b < HASH_SIZE
      invariant 0 <= b <= HASH_SIZE && out == HeaderBytes() + BucketsBytes(t, b)
    {
      var more := SaveBucket(t, b);
      MoreBytes(t, b);
      out := out + more;
      b := b + 1;
    }
  }

  /** The saved form of a ring from its `k`-th entry on. */
  ghost function RestOfRing(t: Table, b: nat, k: nat): Data
    requires t.Valid() && b < HASH_SIZE
    reads t, t.names, t.md5s, t.all, t.names.home.Keys, t.md5s.home.Keys
  {
    if k <= |Bucket(t, b)| then EntriesBytes(Bucket(t, b)[k..]) else []
  }

  lemma RestStep(t: Table, b: nat, k: nat)
    requires t.Valid() && b < HASH_SIZE
    ensures |t.names.rings| == HASH_SIZE
    ensures RestOfRing(t, b, 0) == EntriesBytes(Bucket(t, b)) && RestOfRing(t, b, |t.names.rings[b]|) == []
    ensures k < |t.names.rings[b]| ==>
      var l := t.names.rings[b][k];
      l.owner.Some? && RestOfRing(t, b, k) == EntryBytes((l.owner.value.filename, l.owner.value.md5)) + RestOfRing(t, b, k + 1)
  {
    RingOwned(t, b);
    var pairs := Bucket(t, b);
    assert pairs[0..] == pairs && pairs[|pairs|..] == [];
    if k < |pairs| {
      assert pairs[k..][0] == pairs[k] && pairs[k..][1..] == pairs[k + 1..];
    }
  }

  /** The entries of one ring, in its order. */
  method SaveBucket(t: Table, b: nat) returns (out: Data)
    requires t.Valid() && b < HASH_SIZE
    ensures out == EntriesBytes(Bucket(t, b))
  {
    hide Table.Valid, EntryBytes, EntriesBytes, Bucket, RestOfRing;
    t.Rings();
    RestStep(t, b, 0);
    out := [];
    var head := t.names.heads[b];
    ghost var s, k := t.names.rings[b], 0;
    t.OnwardName(b, 0);
    var l := head.next;
    while l != head
      invariant k <= |s| && l == Item(head, s, k + 1) && (l != head <==> k < |s|)
      invariant out + RestOfRing(t, b, k) == EntriesBytes(Bucket(t, b))
      decreases |s| - k
    {
      t.OnwardName(b, k);
      t.OnwardName(b, k + 1);
      RestStep(t, b, k);
      var e := l.owner.value;
      out := out + EntryBytes((e.filename, e.md5));
      l := l.next;
      k := k + 1;
    }
    RestStep(t, b, k);
  }

  /** Read the file: entries that the user excludes are skipped, and what comes before a defect is kept. */
  method Load(d: Data, prefixes: seq<Data>) returns (t: Table, ok: bool)
    requires forall e :: e in ParseFile(d).entries ==> e.0 != []
    ensures t.Valid() && ok == ParseFile(d).ok
    ensures forall b :: 0 <= b < HASH_SIZE ==> Bucket(t, b) == InBucket(Kept(ParseFile(d).entries, prefixes), b)
  {
    hide Table.Valid, Holds, Kept, NextEntry, Excluded;
    t := new Table();
    EmptyTable(t);
    if |d| < 7 || d[..5] != MAGIC || FromLittleEndian(d[5..7]) != VERSION {
      HoldsKept(t, [], prefixes);
      return t, false;
    }
    var rest := d[7..];
    StillToRead(d);
    HoldsKept(t, [], prefixes);
    ghost var done: seq<Pair> := [];
    hide ParseFile, Pending;
    var next := NextEntry(rest);
    while next.Entry?
      invariant t.Valid() && next == NextEntry(rest)
      invariant fresh(t) && fresh(t.names) && fresh(t.md5s) && fresh(t.names.home.Keys) && fresh(t.md5s.home.Keys)
      invariant Pending(d, rest, done) && Holds(t, Kept(done, prefixes))
      decreases |rest|
    {
      PendingStep(d, rest, done, prefixes);
      var (name, md5) := next.e;
      var excluded := IsExcluded(name, prefixes);
      if !excluded {
        AddPair(t, name, md5, Kept(done, prefixes));
      }
      done := done + [next.e];
      rest := next.rest;
      next := NextEntry(rest);
    }
    PendingEnd(d, rest, done);
    HoldsKept(t, done, prefixes);
    ok := next.End?;
  }

  /** What has been read and what is still to come make up the file. */
  predicate Pending(d: Data, rest: Data, done: seq<Pair>) {
    done + ParseEntries(rest).entries == ParseFile(d).entries && ParseEntries(rest).ok == ParseFile(d).ok
  }

  lemma StillToRead(d: Data)
    requires |d| >= 7 && d[..5] == MAGIC && FromLittleEndian(d[5..7]) == VERSION
    ensures Pending(d, d[7..], [])
  {
  }

  lemma PendingStep(d: Data, rest: Data, done: seq<Pair>, prefixes: seq<Data>)
    requires Pending(d, rest, done) && NextEntry(rest).Entry?
    ensures var Entry(e, more) := NextEntry(rest);
      && Pending(d, more, done + [e]) && e in ParseFile(d).entries && |more| < |rest|
      && Kept(done + [e], prefixes) == if Excluded(e.0, prefixes) then Kept(done, prefixes) else Kept(done, prefixes) + [e]
  {
    var Entry(e, more) := NextEntry(rest);
    assert ParseEntries(rest).entries == [e] + ParseEntries(more).entries;
    assert (done + [e]) + ParseEntries(more).entries == done + ([e] + ParseEntries(more).entries);
    assert (done + ParseEntries(rest).entries)[|done|] == e;
    KeptAppend(done, [e], prefixes);
  }

  lemma PendingEnd(d: Data, rest: Data, done: seq<Pair>)
    requires Pending(d, rest, done) && !NextEntry(rest).Entry?
    ensures done == ParseFile(d).entries && ParseFile(d).ok == NextEntry(rest).End?
  {
  }

  lemma HoldsKept(t: Table, es: seq<Pair>, prefixes: seq<Data>)
    requires t.Valid()
    ensures Holds(t, Kept(es, prefixes)) <==>
      forall b :: 0 <= b < HASH_SIZE ==> Bucket(t, b) == InBucket(Kept(es, prefixes), b)
    ensures Kept([], prefixes) == []
  {
  }

  /** The buckets of a table hold these entries, each bucket its own in their order. */
  ghost predicate Holds(t: Table, es: seq<Pair>)
    requires t.Valid()
    reads t, t.names, t.md5s, t.all, t.names.home.Keys, t.md5s.home.Keys
  {
    forall b :: 0 <= b < HASH_SIZE ==> Bucket(t, b) == InBucket(es, b)
  }

  lemma EmptyTable(t: Table)
    requires t.Valid() && t.all == {}
    ensures Holds(t, [])
  {
    forall b | 0 <= b < HASH_SIZE ensures Bucket(t, b) == [] {
      t.Rings();
      var ring := t.names.rings[b];
      if ring != [] {
        var l := ring[0];
        assert l in ring;
        RingOwned(t, b);
        assert false;
      }
    }
  }

  method AddPair(t: Table, name: Data, md5: Md5, ghost es: seq<Pair>)
    requires t.Valid() && Holds(t, es) && name != [] && 0 !in name
    modifies t, t.names, t.md5s, t.names.home.Keys, t.md5s.home.Keys
    ensures t.Valid() && Holds(t, es + [(name, md5)])
    ensures fresh(t.names.home.Keys - old(t.names.home.Keys)) && fresh(t.md5s.home.Keys - old(t.md5s.home.Keys))
  {
    hide Table.Valid, InBucket;
    ghost var was := t.names.rings;
    OwnedRings(t);
    assert forall b :: 0 <= b < HASH_SIZE ==> PairsOf(was[b]) == InBucket(es, b);
    var e := t.Add(md5, name);
    t.InNameRing(e);
    PairsAfterAdd(t, was, es, e);
  }

  lemma OwnedRings(t: Table)
    requires t.Valid()
    ensures |t.names.rings| == HASH_SIZE && forall b :: 0 <= b < HASH_SIZE ==> Owned(t.names.rings[b])
  {
    t.Rings();
    forall b | 0 <= b < HASH_SIZE ensures Owned(t.names.rings[b]) {
      RingOwned(t, b);
    }
  }

  lemma PairsAfterAdd(t: Table, was: seq<seq<Link<Entry>>>, es: seq<Pair>, e: Entry)
    requires t.Valid() && |was| == HASH_SIZE && e.nameLink != null && e.nameLink.owner == Some(e)
    requires forall b :: 0 <= b < HASH_SIZE ==> Owned(was[b]) && PairsOf(was[b]) == InBucket(es, b)
    requires t.names.rings == Appended(was, NameBucket(GetHash(e.filename)), e.nameLink)
    ensures Holds(t, es + [(e.filename, e.md5)])
  {
    hide Table.Valid;
    forall b | 0 <= b < HASH_SIZE ensures Bucket(t, b) == InBucket(es + [(e.filename, e.md5)], b) {
      InBucketAppend(es, [(e.filename, e.md5)], b);
      if b == NameBucket(GetHash(e.filename)) {
        PairsOfAppend(was[b], e.nameLink);
      }
    }
  }

  /** Unmounting and mounting again: every bucket holds what it held, in order, without what the user excludes. */
  method Remount(t: Table, ghost buckets: seq<seq<Pair>>, prefixes: seq<Data>) returns (u: Table, ok: bool)
    requires t.Valid() && BucketsAre(t, buckets)
    requires forall e :: e in t.all ==> |e.filename| < 0x1_0000_0000
    ensures u.Valid() && ok
    ensures forall b :: 0 <= b < HASH_SIZE ==> Bucket(u, b) == Kept(buckets[b], prefixes)
  {
    hide Table.Valid, Bucket, HeaderBytes, EntriesBytes, Concat, ParseFile, Proper;
    SavedForm(t, buckets);
    TableIsSorted(t, buckets);
    SavedPairsAreProper(buckets);
    var out := Save(t);
    u, ok := Load(out, prefixes);
    forall b | 0 <= b < HASH_SIZE ensures Bucket(u, b) == Kept(buckets[b], prefixes) {
      SaveThenLoad(buckets, prefixes, b);
    }
  }

  lemma SavedPairsAreProper(buckets: seq<seq<Pair>>)
    requires forall i, e :: 0 <= i < |buckets| && e in buckets[i] ==> Proper(e)
    ensures ParseFile(Saved(buckets)).ok && forall e :: e in ParseFile(Saved(buckets)).entries ==> Proper(e) && e.0 != []
  {
    ConcatHas(buckets);
    SavedIsLoaded(Concat(buckets));
  }

  // ----- A file that lost its end -----

  /** How many entries of bucket `i` are among the first `k` of all. */
  function Share(buckets: seq<seq<Pair>>, i: nat, k: nat): (n: nat)
    requires i < |buckets|
    ensures n <= |buckets[i]|
  {
    if i == 0 then Min(k, |buckets[0]|)
    else if k <= |buckets[0]| then 0
    else Share(buckets[1..], i - 1, k - |buckets[0]|)
  }

  /** The first `k` entries, sorted into buckets again, are the first few of every bucket. */
  lemma {:induction false} FirstOfBuckets(buckets: seq<seq<Pair>>, from: nat, k: nat, i: nat)
    requires Sorted(buckets, from) && i < |buckets| && k <= |Concat(buckets)|
    ensures InBucket(Concat(buckets)[..k], from + i) == buckets[i][..Share(buckets, i, k)]
    decreases |buckets|
  {
    hide NameBucket, GetHash, Sorted, InBucket;
    SortedTail(buckets, from);
    var first, rest := buckets[0], Concat(buckets[1..]);
    if k <= |first| {
      assert Concat(buckets)[..k] == first[..k];
      AllInOne(first[..k], from, from + i);
    } else {
      assert Concat(buckets)[..k] == first + rest[..k - |first|];
      AllInOne(first, from, from + i);
      InBucketAppend(first, rest[..k - |first|], from + i);
      if i > 0 {
        FirstOfBuckets(buckets[1..], from + 1, k - |first|, i - 1);
      } else {
        NoneOfTheFirst(buckets[1..], from + 1, k - |first|, from);
        assert first + [] == first == first[..|first|];
      }
    }
  }

  lemma {:induction false} NoneOfTheFirst(buckets: seq<seq<Pair>>, from: nat, k: nat, b: nat)
    requires Sorted(buckets, from) && k <= |Concat(buckets)| && b < from
    ensures InBucket(Concat(buckets)[..k], b) == []
    decreases |buckets|
  {
    hide NameBucket, GetHash, Sorted;
    if buckets == [] {
      assert Concat(buckets)[..k] == [];
    } else {
      SortedTail(buckets, from);
      var first, rest := buckets[0], Concat(buckets[1..]);
      if k <= |first| {
        assert Concat(buckets)[..k] == first[..k];
        AllInOne(first[..k], from, b);
      } else {
        assert Concat(buckets)[..k] == first + rest[..k - |first|];
        AllInOne(first, from, b);
        InBucketAppend(first, rest[..k - |first|], b);
        NoneOfTheFirst(buckets[1..], from + 1, k - |first|, b);
      }
    }
  }

  /** What is found in a saved file that was cut behind its header. */
  lemma CutFile(buckets: seq<seq<Pair>>, n: nat)
    requires forall i, e :: 0 <= i < |buckets| && e in buckets[i] ==> Proper(e)
    requires 7 <= n <= |Saved(buckets)|
    ensures var es := Concat(buckets);
      ParseFile(Saved(buckets)[..n]) == Loaded(es[..Whole(es, n - 7)], n - 7 - WholeBytes(es, n - 7) < 4)
    ensures forall e :: e in Concat(buckets) ==> Proper(e)
  {
    var es := Concat(buckets);
    ConcatHas(buckets);
    assert Saved(buckets)[..n] == HeaderBytes() + EntriesBytes(es)[..n - 7];
    HeaderReadsBack(EntriesBytes(es)[..n - 7]);
    TruncationKeepsWholeEntries(es, n - 7);
  }

  /** Mounting after the file has lost its end: every bucket holds the first entries that it held, in order and
      without what the user excludes; those are the ones that lie wholly within the rest of the file. */
  method RemountCut(t: Table, ghost buckets: seq<seq<Pair>>, prefixes: seq<Data>, n: nat) returns (u: Table, ok: bool)
    requires t.Valid() && BucketsAre(t, buckets)
    requires forall e :: e in t.all ==> |e.filename| < 0x1_0000_0000
    requires n <= |Saved(buckets)|
    ensures u.Valid()
    ensures n < 7 ==> !ok && forall b :: 0 <= b < HASH_SIZE ==> Bucket(u, b) == []
    ensures n >= 7 ==> (ok <==> n - 7 - WholeBytes(Concat(buckets), n - 7) < 4)
    ensures n >= 7 ==> forall b :: 0 <= b < HASH_SIZE ==>
              Bucket(u, b) == Kept(buckets[b][..Share(buckets, b, Whole(Concat(buckets), n - 7))], prefixes)
  {
    hide Table.Valid, Bucket, EntriesBytes, Concat, Proper, Saved, Whole, WholeBytes, Share, Kept, InBucket;
    SavedForm(t, buckets);
    TableIsSorted(t, buckets);
    var out := Save(t);
    if n >= 7 {
      CutFile(buckets, n);
      CutPairsHaveNames(Concat(buckets), Whole(Concat(buckets), n - 7));
    }
    u, ok := Load(out[..n], prefixes);
    ghost var es := Concat(buckets);
    forall b | 0 <= b < HASH_SIZE && n >= 7
      ensures Bucket(u, b) == Kept(buckets[b][..Share(buckets, b, Whole(es, n - 7))], prefixes)
    {
      KeptInBucket(es[..Whole(es, n - 7)], prefixes, b);
      FirstOfBuckets(buckets, 0, Whole(es, n - 7), b);
    }
    NothingKept(prefixes);
  }

  lemma CutPairsHaveNames(es: seq<Pair>, k: nat)
    requires k <= |es| && forall e :: e in es ==> Proper(e)
    ensures forall e :: e in es[..k] ==> e.0 != []
  {
    forall e | e in es[..k] ensures e.0 != [] {
      assert e in es;
    }
  }

  lemma NothingKept(prefixes: seq<Data>)
    ensures Kept([], prefixes) == [] && forall b :: InBucket([], b) == []
  {
  }
}
