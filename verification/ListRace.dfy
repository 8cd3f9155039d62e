/**
 Two threads that delete from one list at the same time, pointer by pointer. `dedup_discard` deletes without the lock
 of the table, so this can happen to the entries of two files.
 */
module ListRace {
  import opened Bytes

  type Node = nat

  /** The two pointers of every node. */
  datatype Heap = Heap(next: map<Node, Option<Node>>, prev: map<Node, Option<Node>>)

  function Get(field: map<Node, Option<Node>>, i: Node): Option<Node> {
    if i in field then field[i] else None
  }

  /** A call of `list_del`: how many of its six steps are done, and the neighbours that it has read. */
  datatype Call = Call(node: Node, done: nat, p: Option<Node>, n: Option<Node>)

  const STEPS: nat := 6

  function Begin(node: Node): Call {
    Call(node, 0, None, None)
  }

  /** Read the two neighbours, join them, and clear the node. */
  function Step(h: Heap, c: Call): (Heap, Call) {
    var c' := c.(done := c.done + 1);
    if c.done == 0 then (h, c'.(p := Get(h.prev, c.node)))
    else if c.done == 1 then (h, c'.(n := Get(h.next, c.node)))
    else if c.done == 2 then (if c.n.Some? then h.(prev := h.prev[c.n.value := c.p]) else h, c')
    else if c.done == 3 then (if c.p.Some? then h.(next := h.next[c.p.value := c.n]) else h, c')
    else if c.done == 4 then (h.(next := h.next[c.node := None]), c')
    else if c.done == 5 then (h.(prev := h.prev[c.node := None]), c')
    else (h, c)
  }

  datatype Two = Two(h: Heap, a: Call, b: Call)

  function One(s: Two, first: bool): Two {
    if first then var (h, c) := Step(s.h, s.a); Two(h, c, s.b) else var (h, c) := Step(s.h, s.b); Two(h, s.a, c)
  }

  /** The threads take turns as the schedule says. */
  function Run(s: Two, schedule: seq<bool>): Two
    decreases |schedule|
  {
    if schedule == [] then s else Run(One(s, schedule[0]), schedule[1..])
  }

  // ----- The ring -----

  function Succ(m: nat, i: Node): Node {
    if i + 1 == m then 0 else i + 1
  }

  function Pred(m: nat, i: Node): (r: Node)
    requires i < m
    ensures r < m && Succ(m, r) == i
  {
    if i == 0 then m - 1 else i - 1
  }

  /** A ring of `m` nodes, one of which is the head. */
  function Ring(m: nat): Heap {
    Heap(map i | 0 <= i < m :: Some(Succ(m, i)), map i | 0 <= i < m :: Some(Pred(m, i)))
  }

  predicate Neighbours(m: nat, a: Node, b: Node) {
    Succ(m, a) == b || Succ(m, b) == a
  }

  /** The next node that is left. */
  function NextLeft(m: nat, a: Node, b: Node, i: Node): Node {
    var j := Succ(m, i);
    if j != a && j != b then j
    else
      var k := Succ(m, j);
      if k != a && k != b then k else Succ(m, k)
  }

  /** What the two calls should leave: the others in a ring, in the same order, and the two nodes cleared. */
  predicate RingWithout(h: Heap, m: nat, a: Node, b: Node) {
    && (forall i :: 0 <= i < m && i != a && i != b ==>
          Get(h.next, i) == Some(NextLeft(m, a, b, i)) && Get(h.prev, NextLeft(m, a, b, i)) == Some(i))
    && Get(h.next, a) == None && Get(h.prev, a) == None && Get(h.next, b) == None && Get(h.prev, b) == None
  }

  function Start(m: nat, a: Node, b: Node): Two {
    Two(Ring(m), Begin(a), Begin(b))
  }

  predicate Finished(s: Two) {
    s.a.done == STEPS && s.b.done == STEPS
  }

  predicate Nodes(m: nat, a: Node, b: Node) {
    m >= 3 && a < m && b < m && a != b
  }

  // ----- Nodes that are not neighbours -----

  /** How far a call has come shows in what it has read and written. */
  predicate Progress(m: nat, c: Call)
    requires c.node < m
  {
    && c.done <= STEPS
    && c.p == (if c.done >= 1 then Some(Pred(m, c.node)) else None)
    && c.n == (if c.done >= 2 then Some(Succ(m, c.node)) else None)
  }

  function NextNow(m: nat, a: Call, b: Call, i: Node): Option<Node>
    requires i < m && a.node < m && b.node < m
  {
    if i == Pred(m, a.node) && a.done >= 4 then Some(Succ(m, a.node))
    else if i == Pred(m, b.node) && b.done >= 4 then Some(Succ(m, b.node))
    else if (i == a.node && a.done >= 5) || (i == b.node && b.done >= 5) then None
    else Some(Succ(m, i))
  }

  function PrevNow(m: nat, a: Call, b: Call, i: Node): Option<Node>
    requires i < m && a.node < m && b.node < m
  {
    if i == Succ(m, a.node) && a.done >= 3 then Some(Pred(m, a.node))
    else if i == Succ(m, b.node) && b.done >= 3 then Some(Pred(m, b.node))
    else if (i == a.node && a.done >= 6) || (i == b.node && b.done >= 6) then None
    else Some(Pred(m, i))
  }

  ghost predicate Inv(m: nat, s: Two) {
    && Nodes(m, s.a.node, s.b.node) && !Neighbours(m, s.a.node, s.b.node)
    && Progress(m, s.a) && Progress(m, s.b)
    && forall i :: 0 <= i < m ==>
         Get(s.h.next, i) == NextNow(m, s.a, s.b, i) && Get(s.h.prev, i) == PrevNow(m, s.a, s.b, i)
  }

  /** The pointers that two calls on nodes that are not neighbours write to are all different. */
  lemma Apart(m: nat, a: Node, b: Node)
    requires Nodes(m, a, b) && !Neighbours(m, a, b)
    ensures Pred(m, a) != a && Pred(m, a) != b && Pred(m, a) != Pred(m, b) && Pred(m, b) != b && Pred(m, b) != a
    ensures Succ(m, a) != a && Succ(m, a) != b && Succ(m, a) != Succ(m, b) && Succ(m, b) != b && Succ(m, b) != a
    ensures Succ(m, a) < m && Succ(m, b) < m
  {
  }

  /** Neither call reads a pointer that the other writes. */
  lemma StepKeepsInv(m: nat, s: Two, first: bool)
    requires Inv(m, s)
    ensures Inv(m, One(s, first)) && One(s, first).a.node == s.a.node && One(s, first).b.node == s.b.node
  {
    Apart(m, s.a.node, s.b.node);
    if first {
      FirstKeepsInv(m, s);
    } else {
      InvSwaps(m, s);
      FirstKeepsInv(m, Two(s.h, s.b, s.a));
      InvSwaps(m, Two(One(s, false).h, One(s, false).b, One(s, false).a));
    }
  }

  lemma InvSwaps(m: nat, s: Two)
    requires Inv(m, s)
    ensures Inv(m, Two(s.h, s.b, s.a))
  {
    Apart(m, s.a.node, s.b.node);
    hide Succ, Pred;
  }

  lemma FirstKeepsInv(m: nat, s: Two)
    requires Inv(m, s)
    ensures Inv(m, One(s, true)) && One(s, true).a.node == s.a.node && One(s, true).b == s.b
  {
    hide Succ, Pred, Progress;
    Apart(m, s.a.node, s.b.node);
    var s' := One(s, true);
    assert Progress(m, s'.a) by {
      FirstReads(m, s);
    }
    forall i | 0 <= i < m
      ensures Get(s'.h.next, i) == NextNow(m, s'.a, s'.b, i) && Get(s'.h.prev, i) == PrevNow(m, s'.a, s'.b, i)
    {
      FirstReads(m, s);
      assert Get(s.h.next, i) == NextNow(m, s.a, s.b, i) && Get(s.h.prev, i) == PrevNow(m, s.a, s.b, i);
    }
  }

  lemma FirstReads(m: nat, s: Two)
    requires Inv(m, s)
    ensures Progress(m, One(s, true).a) && Pred(m, s.a.node) < m
    ensures s.a.done >= 1 ==> s.a.p == Some(Pred(m, s.a.node))
    ensures s.a.done >= 2 ==> s.a.n == Some(Succ(m, s.a.node))
  {
    hide Succ, Pred;
    Apart(m, s.a.node, s.b.node);
  }

  lemma {:induction false} RunKeepsInv(m: nat, s: Two, schedule: seq<bool>)
    requires Inv(m, s)
    ensures Inv(m, Run(s, schedule))
    ensures Run(s, schedule).a.node == s.a.node && Run(s, schedule).b.node == s.b.node
    decreases |schedule|
  {
    hide Inv, One;
    if schedule != [] {
      StepKeepsInv(m, s, schedule[0]);
      RunKeepsInv(m, One(s, schedule[0]), schedule[1..]);
    }
  }

  lemma InvAtEnd(m: nat, s: Two)
    requires Inv(m, s) && Finished(s)
    ensures RingWithout(s.h, m, s.a.node, s.b.node)
  {
    hide Inv;
    var a, b := s.a.node, s.b.node;
    InvSays(m, s);
    forall i | 0 <= i < m && i != a && i != b
      ensures Get(s.h.next, i) == Some(NextLeft(m, a, b, i)) && Get(s.h.prev, NextLeft(m, a, b, i)) == Some(i)
    {
      LeftIs(m, s, i);
    }
  }

  lemma InvSays(m: nat, s: Two)
    requires Inv(m, s) && Finished(s)
    ensures Nodes(m, s.a.node, s.b.node)
    ensures forall c :: c in {s.a.node, s.b.node} ==> Get(s.h.next, c) == None && Get(s.h.prev, c) == None
  {
    Apart(m, s.a.node, s.b.node);
  }

  lemma LeftIs(m: nat, s: Two, i: Node)
    requires Inv(m, s) && Finished(s) && i < m && i != s.a.node && i != s.b.node
    ensures var j := NextLeft(m, s.a.node, s.b.node, i); Get(s.h.next, i) == Some(j) && Get(s.h.prev, j) == Some(i)
  {
    var a, b := s.a.node, s.b.node;
    var j := NextLeft(m, a, b, i);
    assert j < m && NextNow(m, s.a, s.b, i) == Some(j) && PrevNow(m, s.a, s.b, j) == Some(i);
  }

  // ----- Neighbours -----

  /** The same thread takes `n` turns. */
  function Turns(first: bool, n: nat): (r: seq<bool>)
    ensures |r| == n
  {
    if n == 0 then [] else [first] + Turns(first, n - 1)
  }

  /** Both read their neighbours first; then the first call finishes, and then the second. */
  function BothReadFirst(): seq<bool> {
    ((Turns(true, 2) + Turns(false, 2)) + Turns(true, 4)) + Turns(false, 4)
  }

  /** One call after the other. */
  function OneByOne(): seq<bool> {
    ((Turns(true, 2) + Turns(true, 4)) + Turns(false, 2)) + Turns(false, 4)
  }

  lemma {:induction false} RunAppend(s: Two, x: seq<bool>, y: seq<bool>)
    ensures Run(s, x + y) == Run(Run(s, x), y)
    decreases |x|
  {
    hide One;
    if x == [] {
      assert x + y == y;
    } else {
      assert (x + y)[1..] == x[1..] + y;
      RunAppend(One(s, x[0]), x[1..], y);
    }
  }

  lemma RunTurn(s: Two, first: bool, n: nat)
    ensures Run(s, Turns(first, n)) == if n == 0 then s else Run(One(s, first), Turns(first, n - 1))
  {
    hide One;
    if n > 0 {
      assert Turns(first, n)[1..] == Turns(first, n - 1);
    }
  }

  /** The node in front of the first is left pointing to the second, which is no longer in the list. */
  lemma NeighboursBreak(m: nat, a: Node, b: Node)
    requires Nodes(m, a, b) && Succ(m, a) == b
    ensures var s := Run(Start(m, a, b), BothReadFirst());
      && Finished(s) && Pred(m, a) != a && Pred(m, a) != b
      && Get(s.h.next, Pred(m, a)) == Some(b) && Get(s.h.next, b) == None
      && !RingWithout(s.h, m, a, b)
  {
    hide Run, Turns;
    var h, pa, nb := Ring(m), Pred(m, a), Succ(m, b);
    var s0 := Start(m, a, b);
    var a2, b2 := Call(a, 2, Some(pa), Some(b)), Call(b, 2, Some(a), Some(nb));
    ReadsBoth(s0, true);
    ReadsBoth(Two(h, a2, s0.b), false);
    JoinsAndClears(Two(h, a2, b2), true);
    JoinsAndClears(Two(Joined(h, a2), a2.(done := 6), b2), false);
    var x, y := Turns(true, 2), Turns(false, 2);
    RunAppend(s0, x, y);
    RunAppend(s0, x + y, Turns(true, 4));
    RunAppend(s0, (x + y) + Turns(true, 4), Turns(false, 4));
    BrokenHeap(m, a, b);
  }

  /** What the last four steps of a call make of the pointers. */
  function Joined(h: Heap, c: Call): Heap
    requires c.p.Some? && c.n.Some?
  {
    Heap(h.next[c.p.value := c.n][c.node := None], h.prev[c.n.value := c.p][c.node := None])
  }

  lemma BrokenHeap(m: nat, a: Node, b: Node)
    requires Nodes(m, a, b) && Succ(m, a) == b
    ensures var pa := Pred(m, a);
      var h := Joined(Joined(Ring(m), Call(a, 2, Some(pa), Some(b))), Call(b, 2, Some(a), Some(Succ(m, b))));
      && pa != a && pa != b && Get(h.next, pa) == Some(b) && Get(h.next, b) == None && !RingWithout(h, m, a, b)
  {
    var pa := Pred(m, a);
    assert NextLeft(m, a, b, pa) != b;
  }

  lemma ReadsBoth(s: Two, first: bool)
    requires (if first then s.a else s.b).done == 0
    ensures var c := if first then s.a else s.b;
      var c' := Call(c.node, 2, Get(s.h.prev, c.node), Get(s.h.next, c.node));
      Run(s, Turns(first, 2)) == if first then Two(s.h, c', s.b) else Two(s.h, s.a, c')
  {
    hide Run, Turns;
    RunTurn(s, first, 2);
    RunTurn(One(s, first), first, 1);
    RunTurn(One(One(s, first), first), first, 0);
  }

  lemma JoinsAndClears(s: Two, first: bool)
    requires var c := if first then s.a else s.b; c.done == 2 && c.p.Some? && c.n.Some?
    ensures var c := if first then s.a else s.b;
      Run(s, Turns(first, 4))
      == if first then Two(Joined(s.h, c), c.(done := 6), s.b) else Two(Joined(s.h, c), s.a, c.(done := 6))
  {
    hide Run, Turns;
    RunTurn(s, first, 4);
    RunTurn(One(s, first), first, 3);
    RunTurn(One(One(s, first), first), first, 2);
    RunTurn(One(One(One(s, first), first), first), first, 1);
    RunTurn(One(One(One(One(s, first), first), first), first), first, 0);
  }

  /** A schedule for the same two calls under each other's names. */
  function Swapped(schedule: seq<bool>): seq<bool> {
    if schedule == [] then [] else [!schedule[0]] + Swapped(schedule[1..])
  }

  lemma {:induction false} RunSwapped(s: Two, schedule: seq<bool>)
    ensures var r := Run(s, schedule); Run(Two(s.h, s.b, s.a), Swapped(schedule)) == Two(r.h, r.b, r.a)
    decreases |schedule|
  {
    if schedule != [] {
      var t := One(s, schedule[0]);
      RunSwapped(t, schedule[1..]);
      assert Swapped(schedule)[0] == !schedule[0] && Swapped(schedule)[1..] == Swapped(schedule[1..]);
      assert One(Two(s.h, s.b, s.a), !schedule[0]) == Two(t.h, t.b, t.a);
    }
  }

  /** Two deletions at the same time leave a ring, however their steps fall, if and only if the nodes are not
      neighbours. */
  lemma ListDelsRaceIff(m: nat, a: Node, b: Node)
    requires Nodes(m, a, b)
    ensures (forall schedule :: Finished(Run(Start(m, a, b), schedule)) ==> RingWithout(Run(Start(m, a, b), schedule).h, m, a, b))
      <==> !Neighbours(m, a, b)
  {
    if !Neighbours(m, a, b) {
      forall schedule | Finished(Run(Start(m, a, b), schedule))
        ensures RingWithout(Run(Start(m, a, b), schedule).h, m, a, b)
      {
        RunKeepsInv(m, Start(m, a, b), schedule);
        InvAtEnd(m, Run(Start(m, a, b), schedule));
      }
    } else if Succ(m, a) == b {
      NeighboursBreak(m, a, b);
    } else {
      NeighboursBreak(m, b, a);
      RunSwapped(Start(m, b, a), BothReadFirst());
      RingWithoutSwapped(Run(Start(m, b, a), BothReadFirst()).h, m, a, b);
      assert Finished(Run(Start(m, a, b), Swapped(BothReadFirst())));
    }
  }

  lemma RingWithoutSwapped(h: Heap, m: nat, a: Node, b: Node)
    ensures RingWithout(h, m, a, b) <==> RingWithout(h, m, b, a)
  {
    forall i ensures NextLeft(m, a, b, i) == NextLeft(m, b, a, i) {
    }
  }

  // ----- One after the other -----

  /** With the calls one after the other there is a ring in any case. */
  lemma SerialIsFine(m: nat, a: Node, b: Node)
    requires Nodes(m, a, b)
    ensures var s := Run(Start(m, a, b), OneByOne()); Finished(s) && RingWithout(s.h, m, a, b)
  {
    hide Run, Turns, RingWithout, Joined;
    var h, s0 := Ring(m), Start(m, a, b);
    var a2 := Call(a, 2, Some(Pred(m, a)), Some(Succ(m, a)));
    ReadsBoth(s0, true);
    JoinsAndClears(Two(h, a2, s0.b), true);
    var ha := Joined(h, a2);
    var s6 := Two(ha, a2.(done := 6), s0.b);
    ReadsBoth(s6, false);
    SerialHeap(m, a, b);
    var b2 := Call(b, 2, Get(ha.prev, b), Get(ha.next, b));
    JoinsAndClears(Two(ha, s6.a, b2), false);
    var x, y := Turns(true, 2), Turns(true, 4);
    RunAppend(s0, x, y);
    RunAppend(s0, x + y, Turns(false, 2));
    RunAppend(s0, (x + y) + Turns(false, 2), Turns(false, 4));
  }

  lemma SerialHeap(m: nat, a: Node, b: Node)
    requires Nodes(m, a, b)
    ensures var ha := Joined(Ring(m), Call(a, 2, Some(Pred(m, a)), Some(Succ(m, a))));
      var b2 := Call(b, 2, Get(ha.prev, b), Get(ha.next, b));
      b2.p.Some? && b2.n.Some? && RingWithout(Joined(ha, b2), m, a, b)
  {
    hide Ring, Joined;
    var a2 := Call(a, 2, Some(Pred(m, a)), Some(Succ(m, a)));
    var ha := Joined(Ring(m), a2);
    AfterFirst(m, a, b);
    AfterFirst(m, a, a);
    var b2 := Call(b, 2, Get(ha.prev, b), Get(ha.next, b));
    AfterJoin(ha, b2, b);
    AfterJoin(ha, b2, a);
    forall i | 0 <= i < m && i != a && i != b
      ensures var hb := Joined(ha, b2);
        Get(hb.next, i) == Some(NextLeft(m, a, b, i)) && Get(hb.prev, NextLeft(m, a, b, i)) == Some(i)
    {
      AfterFirst(m, a, i);
      AfterFirst(m, a, NextLeft(m, a, b, i));
      AfterJoin(ha, b2, i);
      AfterJoin(ha, b2, NextLeft(m, a, b, i));
    }
  }

  /** What the pointers of a node are after the last four steps of a call. */
  lemma AfterJoin(h: Heap, c: Call, i: Node)
    requires c.p.Some? && c.n.Some?
    ensures Get(Joined(h, c).next, i) == if i == c.node then None else if i == c.p.value then c.n else Get(h.next, i)
    ensures Get(Joined(h, c).prev, i) == if i == c.node then None else if i == c.n.value then c.p else Get(h.prev, i)
  {
  }

  /** What they are after the first of the two calls. */
  lemma AfterFirst(m: nat, a: Node, i: Node)
    requires m >= 3 && a < m && i < m
    ensures var ha := Joined(Ring(m), Call(a, 2, Some(Pred(m, a)), Some(Succ(m, a))));
      && Get(ha.next, i) == (if i == a then None else Some(if Succ(m, i) == a then Succ(m, a) else Succ(m, i)))
      && Get(ha.prev, i) == (if i == a then None else Some(if Pred(m, i) == a then Pred(m, a) else Pred(m, i)))
  {
    hide Joined;
    AfterJoin(Ring(m), Call(a, 2, Some(Pred(m, a)), Some(Succ(m, a))), i);
  }
}
