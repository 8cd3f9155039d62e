/**
 Circular doubly linked lists that run through links embedded in their owners, and an array of such lists.

 A ring is a head and the sequence of links after it. The operations rewrite only the pointers of the
 neighbours, so they need not know which ring they work on; the proofs do.
 */
module Rings {
  import opened Bytes

  class Link<T> {
    /** The structure the link is embedded in; heads are embedded in none. */
    const owner: Option<T>
    var next: Link?<T>
    var prev: Link?<T>

    constructor (owner: Option<T>)
      ensures this.owner == owner && next == this && prev == this
    {
      this.owner := owner;
      next, prev := this, this;
    }
  }

  /** The `k`-th link on the way round the ring, which begins and ends at the head. */
  function Item<T>(h: Link<T>, s: seq<Link<T>>, k: nat): Link<T>
    requires k <= |s| + 1
  {
    if k == 0 || k == |s| + 1 then h else s[k - 1]
  }

  function Links<T>(h: Link<T>, s: seq<Link<T>>): set<Link<T>> {
    {h} + set l | l in s
  }

  ghost predicate IsRing<T>(h: Link<T>, s: seq<Link<T>>)
    reads Links(h, s)
  {
    && h !in s
    && (forall i, j :: 0 <= i < j < |s| ==> s[i] != s[j])
    && (forall k :: 0 <= k <= |s| ==> Item(h, s, k).next == Item(h, s, k + 1))
    && (forall k :: 0 <= k <= |s| ==> Item(h, s, k + 1).prev == Item(h, s, k))
  }

  /** Insert between two neighbours. */
  method ListInsert<T>(l: Link<T>, prev: Link<T>, next: Link<T>)
    requires l != prev && l != next
    modifies l`next, l`prev, next`prev, prev`next
    ensures next.prev == l && l.next == next && l.prev == prev && prev.next == l
  {
    next.prev := l;
    l.next := next;
    l.prev := prev;
    prev.next := l;
  }

  method ListAddTail<T>(l: Link<T>, h: Link<T>, ghost s: seq<Link<T>>)
    requires IsRing(h, s) && l != h && l !in s
    modifies l`next, l`prev, h`prev, Item(h, s, |s|)`next
    ensures IsRing(h, s + [l])
  {
    assert Item(h, s, |s| + 1).prev == Item(h, s, |s|);
    ListInsert(l, h.prev, h);
    ghost var s' := s + [l];
    assert forall k :: 0 <= k <= |s| ==> Item(h, s', k) == Item(h, s, k);
    assert Item(h, s', |s| + 1) == l;
  }

  /** The ring without its `k`-th link. */
  function Without<X>(s: seq<X>, k: nat): (r: seq<X>)
    requires k < |s|
    ensures |r| == |s| - 1
    ensures forall i :: 0 <= i < |r| ==> r[i] == if i < k then s[i] else s[i + 1]
  {
    s[..k] + s[k + 1..]
  }

  /** The rings after ring `b` has gained a link at its end, or lost its `k`-th. */
  function Appended<X>(rings: seq<seq<X>>, b: nat, x: X): seq<seq<X>> {
    if b < |rings| then rings[b := rings[b] + [x]] else rings
  }

  function Removed<X>(rings: seq<seq<X>>, b: nat, k: nat): seq<seq<X>> {
    if b < |rings| && k < |rings[b]| then rings[b := Without(rings[b], k)] else rings
  }

  /** Make the neighbours of a link point to each other. */
  method ListDel<T>(l: Link<T>, ghost h: Link<T>, ghost s: seq<Link<T>>, ghost k: nat)
    requires IsRing(h, s) && k < |s| && s[k] == l
    modifies l`next, l`prev, Item(h, s, k)`next, Item(h, s, k + 2)`prev
    ensures IsRing(h, Without(s, k))
    ensures l.next == null && l.prev == null
  {
    assert Item(h, s, k + 1) == l;
    assert Item(h, s, k).next == l && Item(h, s, k + 1).next == Item(h, s, k + 2);
    assert Item(h, s, k + 2).prev == l && Item(h, s, k + 1).prev == Item(h, s, k);
    var prev, next := l.prev, l.next;
    next.prev := prev;
    prev.next := next;
    l.next := null;
    l.prev := null;
    ghost var s' := Without(s, k);
    assert forall i :: 0 <= i <= |s'| + 1 ==> Item(h, s', i) == Item(h, s, if i <= k then i else i + 1);
  }

  /** `home` says in which ring a link is, and nothing else is in any ring. */
  ghost predicate Located<T>(heads: seq<Link<T>>, rings: seq<seq<Link<T>>>, home: map<Link<T>, nat>) {
    && |rings| == |heads|
    && (forall i :: 0 <= i < |heads| ==> heads[i] in home && home[heads[i]] == i && heads[i].owner == None)
    && (forall i, l :: 0 <= i < |heads| && l in rings[i] ==> l in home && home[l] == i && l.owner.Some?)
    && (forall l :: l in home ==> home[l] < |heads| && (l == heads[home[l]] || l in rings[home[l]]))
  }

  lemma AddLocated<T>(heads: seq<Link<T>>, rings: seq<seq<Link<T>>>, home: map<Link<T>, nat>, b: nat, l: Link<T>)
    requires Located(heads, rings, home) && b < |heads| && l !in home && l.owner.Some?
    ensures Located(heads, rings[b := rings[b] + [l]], home[l := b])
  {
  }

  lemma DelLocated<T>(heads: seq<Link<T>>, rings: seq<seq<Link<T>>>, home: map<Link<T>, nat>, b: nat, k: nat)
    requires Located(heads, rings, home) && b < |heads| && k < |rings[b]|
    requires forall i, j :: 0 <= i < j < |rings[b]| ==> rings[b][i] != rings[b][j]
    ensures var rings' := rings[b := Without(rings[b], k)];
      && Located(heads, rings', home - {rings[b][k]})
      && forall i :: 0 <= i < |heads| ==> Links(heads[i], rings'[i]) <= home.Keys - {rings[b][k]}
  {
    var l, s := rings[b][k], Without(rings[b], k);
    assert l.owner.Some?;
    assert forall x :: x in s ==> x in rings[b] && x != l;
    forall x | x in rings[b] && x != l ensures x in s {
      var i :| 0 <= i < |rings[b]| && rings[b][i] == x;
      assert s[if i < k then i else i - 1] == x;
    }
  }

  lemma RingsApart<T>(heads: seq<Link<T>>, rings: seq<seq<Link<T>>>, home: map<Link<T>, nat>, i: nat, j: nat)
    requires Located(heads, rings, home) && i < |heads| && j < |heads| && i != j
    ensures Links(heads[i], rings[i]) !! Links(heads[j], rings[j])
    ensures Links(heads[i], rings[i]) <= home.Keys
  {
    assert forall l :: l in Links(heads[i], rings[i]) ==> l in home && home[l] == i;
    assert forall l :: l in Links(heads[j], rings[j]) ==> l in home && home[l] == j;
  }

  /** An array of rings. */
  class Index<T> {
    const heads: seq<Link<T>>
    ghost var rings: seq<seq<Link<T>>>
    ghost var home: map<Link<T>, nat>

    ghost predicate Valid()
      reads this, home.Keys
    {
      && |rings| == |heads|
      && Located(heads, rings, home)
      && (forall i :: 0 <= i < |heads| ==> Links(heads[i], rings[i]) <= home.Keys && IsRing(heads[i], rings[i]))
    }

    constructor (size: nat)
      ensures Valid() && |heads| == size && fresh(home.Keys)
      ensures forall i :: 0 <= i < size ==> rings[i] == []
    {
      var hs: seq<Link<T>> := [];
      ghost var m: map<Link<T>, nat> := map[];
      var i := 0;
      while i < size
        invariant 0 <= i == |hs| <= size
        invariant fresh(m.Keys)
        invariant forall j :: 0 <= j < i ==> hs[j] in m && m[hs[j]] == j && hs[j].owner == None && IsRing(hs[j], [])
        invariant forall l :: l in m ==> m[l] < i && l == hs[m[l]]
      {
        var h := new Link<T>(None);
        hs := hs + [h];
        m := m[h := i];
        i := i + 1;
      }
      heads := hs;
      rings := seq(size, _ => []);
      home := m;
    }

    /** The link becomes the last of ring `b`. */
    method AddTail(b: nat, l: Link<T>)
      requires Valid() && b < |heads| && l !in home && l.owner.Some?
      modifies this`rings, this`home, l, home.Keys
      ensures Valid()
      ensures rings == Appended(old(rings), b, l) && home == old(home)[l := b]
    {
      ghost var was, at := rings, home;
      RingsLinked(b);
      ListAddTail(l, heads[b], was[b]);
      rings := rings[b := was[b] + [l]];
      home := home[l := b];
      AddLocated(heads, was, at, b, l);
      forall j | 0 <= j < |heads| ensures Links(heads[j], rings[j]) <= home.Keys && IsRing(heads[j], rings[j]) {
        if j != b {
          RingsApart(heads, was, at, j, b);
          assert old(IsRing(heads[j], rings[j]));
        }
      }
    }

    lemma RingsLinked(b: nat)
      requires Valid() && b < |heads|
      ensures Links(heads[b], rings[b]) <= home.Keys && IsRing(heads[b], rings[b])
    {
    }

    /** Rewrite the pointers around the `k`-th link of ring `b`. */
    method Unlink(l: Link<T>, ghost b: nat, ghost k: nat)
      requires Valid() && b < |heads| && k < |rings[b]| && rings[b][k] == l
      modifies home.Keys
      ensures IsRing(heads[b], Without(rings[b], k))
      ensures forall j :: 0 <= j < |heads| && j != b ==> IsRing(heads[j], rings[j])
    {
      RingsLinked(b);
      ghost var before, after := Item(heads[b], rings[b], k), Item(heads[b], rings[b], k + 2);
      assert {l, before, after} <= Links(heads[b], rings[b]);
      ListDel(l, heads[b], rings[b], k);
      forall j | 0 <= j < |heads| && j != b ensures IsRing(heads[j], rings[j]) {
        RingsApart(heads, rings, home, j, b);
        assert old(IsRing(heads[j], rings[j]));
      }
    }

    lemma DelFits(b: nat, k: nat)
      requires Valid() && b < |heads| && k < |rings[b]|
      ensures |rings| == |heads|
      ensures var rings' := rings[b := Without(rings[b], k)];
        && Located(heads, rings', home - {rings[b][k]})
        && forall i :: 0 <= i < |heads| ==> Links(heads[i], rings'[i]) <= home.Keys - {rings[b][k]}
    {
      RingsLinked(b);
      DelLocated(heads, rings, home, b, k);
    }

    /** The `k`-th link of ring `b` leaves it. */
    method Del(l: Link<T>, ghost b: nat, ghost k: nat)
      requires Valid() && b < |heads| && k < |rings[b]| && rings[b][k] == l
      modifies this`rings, this`home, home.Keys
      ensures Valid()
      ensures rings == Removed(old(rings), b, k) && home == old(home) - {l}
    {
      hide Located, IsRing;
      DelFits(b, k);
      Unlink(l, b, k);
      rings := rings[b := Without(rings[b], k)];
      home := home - {l};
    }
  }
}
