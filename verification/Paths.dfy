/** Paths of the backing file system, and the hidden names that the program derives from them. */
module Paths {
  import opened Bytes

  /** A path: not empty and without zero bytes, which the code takes for the end of a string. */
  type Name = d: Data | d != [] && forall i :: 0 <= i < |d| ==> d[i] != 0 witness [1]

  const SLASH: Byte := 47

  /** "._fC", with which every hidden name begins. */
  const PREFIX: Data := [46, 95, 102, 67]

  /** "._fCat_", for attribute files. */
  const ATTR: Data := [46, 95, 102, 67, 97, 116, 95]

  /** "._fCt_", for links that will take the place of a file. */
  const LINK_TEMP: Data := [46, 95, 102, 67, 116, 95]

  /** "._fCtmp", with which the names of temporary files begin; `mkstemp` chooses the rest. */
  const TEMP: Data := [46, 95, 102, 67, 116, 109, 112]

  /** Where the last component of a path begins. */
  function Base(n: Data): (k: nat)
    ensures k <= |n| && (k > 0 ==> n[k - 1] == SLASH)
    ensures forall i :: k <= i < |n| ==> n[i] != SLASH
  {
    if n == [] || n[|n| - 1] == SLASH then |n| else Base(n[..|n| - 1])
  }

  /** A name that users see: its last component is not a hidden one. */
  predicate UserName(n: Data) {
    !(PREFIX <= n[Base(n)..])
  }

  /** The attribute file of a path: a hidden name in the same directory. */
  function AttrName(n: Name): Name {
    n[..Base(n)] + ATTR + n[Base(n)..]
  }

  /** The name of a link made in the directory of a file before it takes the file's place. */
  function LinkTemp(n: Name, pid: Name): Name {
    (if Base(n) == 0 then [46, SLASH] else n[..Base(n)]) + LINK_TEMP + n[Base(n)..] + [46] + pid
  }

  lemma BaseIs(n: Data, k: nat)
    requires k <= |n| && (k > 0 ==> n[k - 1] == SLASH) && forall i :: k <= i < |n| ==> n[i] != SLASH
    ensures Base(n) == k
  {
  }

  /** An attribute file is in the directory of its file. */
  lemma AttrBase(n: Name)
    ensures Base(AttrName(n)) == Base(n)
    ensures AttrName(n)[..Base(n)] == n[..Base(n)] && AttrName(n)[Base(n)..] == ATTR + n[Base(n)..]
  {
    var r := AttrName(n);
    assert r == n[..Base(n)] + (ATTR + n[Base(n)..]);
    BaseIs(r, Base(n));
  }

  /** No two paths share an attribute file, and users never see one. */
  lemma AttrNameIsInjective(n: Name, m: Name)
    requires AttrName(n) == AttrName(m)
    ensures n == m
  {
    AttrBase(n);
    AttrBase(m);
    assert n[Base(n)..] == (ATTR + n[Base(n)..])[|ATTR|..];
    assert m[Base(m)..] == (ATTR + m[Base(m)..])[|ATTR|..];
    assert n == n[..Base(n)] + n[Base(n)..] && m == m[..Base(m)] + m[Base(m)..];
  }

  lemma AttrNameIsHidden(n: Name)
    ensures !UserName(AttrName(n))
  {
    AttrBase(n);
    assert ATTR[..4] == PREFIX;
  }

  /** A link on its way to a file's place is in the directory of that file. */
  lemma LinkTempBase(n: Name, pid: Name)
    requires SLASH !in pid
    ensures var t := LinkTemp(n, pid);
      && t[Base(t)..] == LINK_TEMP + (n[Base(n)..] + [46] + pid)
      && t[..Base(t)] == if Base(n) == 0 then [46, SLASH] else n[..Base(n)]
  {
    var t, head := LinkTemp(n, pid), if Base(n) == 0 then [46, SLASH] else n[..Base(n)];
    var tail := LINK_TEMP + (n[Base(n)..] + [46] + pid);
    assert t == head + tail;
    assert forall i :: |head| <= i < |t| ==> t[i] == tail[i - |head|];
    BaseIs(t, |head|);
  }

  lemma LinkTempIsHidden(n: Name, pid: Name, m: Name)
    requires SLASH !in pid
    ensures !UserName(LinkTemp(n, pid)) && LinkTemp(n, pid) != AttrName(m)
  {
    var t := LinkTemp(n, pid);
    LinkTempBase(n, pid);
    assert LINK_TEMP[..4] == PREFIX;
    assert t[Base(t)..][4] == LINK_TEMP[4];
    AttrBase(m);
    var a := AttrName(m);
    assert a[Base(a)..][4] == ATTR[4];
  }

  /** A temporary file is hidden, and neither an attribute file nor a link on its way to a file's place. */
  lemma TempNameIsHidden(rest: Name, n: Name, m: Name, pid: Name)
    requires SLASH !in rest && SLASH !in pid
    ensures !UserName(TEMP + rest) && TEMP + rest != AttrName(n) && TEMP + rest != LinkTemp(m, pid)
  {
    var t := TEMP + rest;
    BaseIs(t, 0);
    assert t[Base(t)..] == t && TEMP[..4] == PREFIX && t[..4] == PREFIX;
    AttrBase(n);
    var a := AttrName(n);
    assert a[Base(a)..][4] == ATTR[4];
    LinkTempBase(m, pid);
    var l := LinkTemp(m, pid);
    assert l[Base(l)..][5] == LINK_TEMP[5];
  }
}
