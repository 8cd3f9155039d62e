/**
 The counter of cached bytes is one integer for the whole mount. It is tested, read and written under the lock of one
 file only, so threads that read different files take these steps in any order.
 */
module PageCounter {
  import ReadEngine

  const PAGE: int := ReadEngine.PAGE

  /** What a thread has done of its next change: nothing, the test that there is room, or the reading of the value that
      it is going to write back changed. */
  datatype Thread = Idle | Passed | Loaded(value: int, change: int)

  /** `pages` is how many pages really are in caches or lost. */
  datatype State = State(counter: int, pages: int, limit: nat, threads: seq<Thread>)

  /** A thread tests for room and then counts a page, or takes a page out of a cache. */
  datatype Event = Test(t: nat) | Add(t: nat) | Take(t: nat) | Store(t: nat)

  predicate Enabled(s: State, e: Event) {
    && e.t < |s.threads|
    && match e
       case Test(t) => s.threads[t].Idle?
       case Add(t) => s.threads[t].Passed?
       case Take(t) => s.threads[t].Idle? && Takers(s.threads) < s.pages
       case Store(t) => s.threads[t].Loaded?
  }

  /** How many threads are taking a page out of a cache; no page is taken twice. */
  function Takers(threads: seq<Thread>): nat {
    if threads == [] then 0
    else (if threads[0].Loaded? && threads[0].change < 0 then 1 else 0) + Takers(threads[1..])
  }

  /** How many threads have found room and have not yet counted their page. */
  function Adders(threads: seq<Thread>): (n: nat)
    ensures n <= |threads|
  {
    if threads == [] then 0
    else (if threads[0].Passed? || (threads[0].Loaded? && threads[0].change > 0) then 1 else 0) + Adders(threads[1..])
  }

  function Apply(s: State, e: Event): State
    requires Enabled(s, e)
  {
    match e
    case Test(t) => if s.counter < s.limit then s.(threads := s.threads[t := Passed]) else s
    case Add(t) => s.(threads := s.threads[t := Loaded(s.counter, PAGE)])
    case Take(t) => s.(threads := s.threads[t := Loaded(s.counter, -PAGE)])
    case Store(t) =>
      var Loaded(value, change) := s.threads[t];
      State(value + change, s.pages + (if change > 0 then 1 else -1), s.limit, s.threads[t := Idle])
  }

  predicate Legal(s: State, events: seq<Event>)
    decreases |events|
  {
    events == [] || (Enabled(s, events[0]) && Legal(Apply(s, events[0]), events[1..]))
  }

  function After(s: State, events: seq<Event>): State
    requires Legal(s, events)
    decreases |events|
  {
    if events == [] then s else After(Apply(s, events[0]), events[1..])
  }

  /** All threads rest, and the counter counts the pages. */
  predicate Start(s: State) {
    && s.limit % PAGE == 0 && |s.threads| >= 1 && (forall t :: 0 <= t < |s.threads| ==> s.threads[t] == Idle)
    && Exact(s) && 0 <= s.counter <= s.limit
  }

  predicate Exact(s: State) {
    s.counter == PAGE * s.pages
  }

  lemma {:induction false} Replaced(threads: seq<Thread>, t: nat, x: Thread)
    requires t < |threads|
    ensures Takers(threads[t := x]) == Takers(threads)
      - (if threads[t].Loaded? && threads[t].change < 0 then 1 else 0) + (if x.Loaded? && x.change < 0 then 1 else 0)
    ensures Adders(threads[t := x]) == Adders(threads)
      - (if threads[t].Passed? || (threads[t].Loaded? && threads[t].change > 0) then 1 else 0)
      + (if x.Passed? || (x.Loaded? && x.change > 0) then 1 else 0)
  {
    if t == 0 {
      assert threads[0 := x][1..] == threads[1..];
    } else {
      assert threads[t := x][1..] == threads[1..][t - 1 := x];
      Replaced(threads[1..], t - 1, x);
    }
  }

  lemma {:induction false} AllIdle(threads: seq<Thread>)
    requires forall t :: 0 <= t < |threads| ==> threads[t] == Idle
    ensures Takers(threads) == 0 == Adders(threads)
  {
    if threads != [] {
      assert threads[0] == Idle;
      forall t | 0 <= t < |threads[1..]| ensures threads[1..][t] == Idle {
        assert threads[1..][t] == threads[t + 1];
      }
      AllIdle(threads[1..]);
    }
  }

  // ----- When the counter is right -----

  /** A change is written back on the value that it was read from. */
  predicate Fresh(s: State, e: Event) {
    e.Store? ==> e.t < |s.threads| && s.threads[e.t].Loaded? && s.threads[e.t].value == s.counter
  }

  predicate AllFresh(s: State, events: seq<Event>)
    requires Legal(s, events)
    decreases |events|
  {
    events == [] || (Fresh(s, events[0]) && AllFresh(Apply(s, events[0]), events[1..]))
  }

  predicate AllExact(s: State, events: seq<Event>)
    requires Legal(s, events)
    decreases |events|
  {
    Exact(s) && (events == [] || AllExact(Apply(s, events[0]), events[1..]))
  }

  /** Changes are of one page. */
  predicate OnePage(s: State) {
    forall t :: 0 <= t < |s.threads| && s.threads[t].Loaded? ==> s.threads[t].change == PAGE || s.threads[t].change == -PAGE
  }

  /** The counter counts the pages throughout a run if and only if no change is written back on a value that another
      thread has changed since it was read. */
  lemma {:induction false} ExactIffFresh(s: State, events: seq<Event>)
    requires Legal(s, events) && Exact(s) && OnePage(s)
    ensures AllExact(s, events) <==> AllFresh(s, events)
    decreases |events|
  {
    if events != [] {
      var s' := Apply(s, events[0]);
      assert Exact(s') <==> Fresh(s, events[0]);
      if Exact(s') {
        ExactIffFresh(s', events[1..]);
      }
    }
  }

  /** No thread starts a change while another one is in the middle of one, as if a lock were held around each. */
  predicate OneAtATime(s: State, events: seq<Event>)
    requires Legal(s, events)
    decreases |events|
  {
    events == [] ||
    ( && (events[0].Add? || events[0].Take? ==> NoneLoaded(s))
      && OneAtATime(Apply(s, events[0]), events[1..]))
  }

  predicate NoneLoaded(s: State) {
    forall t :: 0 <= t < |s.threads| ==> !s.threads[t].Loaded?
  }

  /** At most one thread is in the middle of a change, and its value is that of the counter. The test is not part of
      the change: whoever has found room has it still to come. */
  ghost predicate Inv(s: State) {
    && s.limit % PAGE == 0 && |s.threads| >= 1 && Exact(s) && OnePage(s)
    && (forall t :: 0 <= t < |s.threads| && s.threads[t].Loaded? ==> s.threads[t].value == s.counter)
    && (forall t, u :: 0 <= t < |s.threads| && 0 <= u < |s.threads| && s.threads[t].Loaded? && s.threads[u].Loaded? ==> t == u)
    && Takers(s.threads) <= s.pages
    && s.counter + PAGE * Adders(s.threads) <= s.limit + PAGE * (|s.threads| - 1)
  }

  lemma StartIsFine(s: State)
    requires Start(s)
    ensures Inv(s)
  {
    AllIdle(s.threads);
    assert s.pages >= 0;
  }

  lemma StepKeepsInv(s: State, e: Event)
    requires Inv(s) && Enabled(s, e) && (e.Add? || e.Take? ==> NoneLoaded(s))
    ensures Inv(Apply(s, e)) && Apply(s, e).limit == s.limit && |Apply(s, e).threads| == |s.threads|
  {
    hide Takers, Adders;
    var x := match e
      case Test(t) => if s.counter < s.limit then Passed else s.threads[t]
      case Add(t) => Loaded(s.counter, PAGE)
      case Take(t) => Loaded(s.counter, -PAGE)
      case Store(t) => Idle;
    assert Apply(s, e).threads == s.threads[e.t := x];
    Replaced(s.threads, e.t, x);
    if e.Test? && s.counter < s.limit {
      assert s.counter <= s.limit - PAGE;
    }
  }

  /** If changes are made one at a time, the counter counts the pages, and it exceeds the limit by at most one page for
      every other thread: so many can have passed the test before the first of them counts its page. */
  lemma {:induction false} OneAtATimeIsBounded(s: State, events: seq<Event>)
    requires Inv(s) && Legal(s, events) && OneAtATime(s, events)
    ensures var s' := After(s, events);
      Inv(s') && s'.limit == s.limit && |s'.threads| == |s.threads|
      && Exact(s') && 0 <= s'.counter <= s.limit + PAGE * (|s.threads| - 1)
    decreases |events|
  {
    hide Inv;
    if events == [] {
      InvBounds(s);
    } else {
      StepKeepsInv(s, events[0]);
      OneAtATimeIsBounded(Apply(s, events[0]), events[1..]);
    }
  }

  lemma InvBounds(s: State)
    requires Inv(s)
    ensures Exact(s) && 0 <= s.counter <= s.limit + PAGE * (|s.threads| - 1)
  {
  }

  // ----- Runs -----

  lemma {:induction false} RunAppend(s: State, x: seq<Event>, y: seq<Event>)
    requires Legal(s, x) && Legal(After(s, x), y)
    ensures Legal(s, x + y) && After(s, x + y) == After(After(s, x), y)
    ensures OneAtATime(s, x) && OneAtATime(After(s, x), y) ==> OneAtATime(s, x + y)
    decreases |x|
  {
    if x == [] {
      assert x + y == y;
    } else {
      assert (x + y)[1..] == x[1..] + y;
      RunAppend(Apply(s, x[0]), x[1..], y);
    }
  }

  /** Threads `k` and up test for room. */
  function Tests(k: nat, n: nat): seq<Event>
    requires k <= n
    decreases n - k
  {
    if k == n then [] else [Test(k)] + Tests(k + 1, n)
  }

  /** Threads `k` and up count their pages, one after the other. */
  function Adds(k: nat, n: nat): seq<Event>
    requires k <= n
    decreases n - k
  {
    if k == n then [] else [Add(k), Store(k)] + Adds(k + 1, n)
  }

  lemma {:induction false} TestsPass(s: State, k: nat)
    requires k <= |s.threads| && s.counter < s.limit
    requires forall t :: 0 <= t < |s.threads| ==> s.threads[t] == if t < k then Passed else Idle
    ensures Legal(s, Tests(k, |s.threads|)) && OneAtATime(s, Tests(k, |s.threads|))
    ensures var s' := After(s, Tests(k, |s.threads|));
      && s' == s.(threads := s'.threads) && |s'.threads| == |s.threads|
      && forall t :: 0 <= t < |s.threads| ==> s'.threads[t] == Passed
    decreases |s.threads| - k
  {
    if k < |s.threads| {
      var s' := Apply(s, Test(k));
      TestsPass(s', k + 1);
      assert Tests(k, |s.threads|)[1..] == Tests(k + 1, |s.threads|);
    }
  }

  lemma {:induction false} AddsCount(s: State, k: nat)
    requires k <= |s.threads| && forall t :: 0 <= t < |s.threads| ==> s.threads[t] == if t < k then Idle else Passed
    ensures Legal(s, Adds(k, |s.threads|)) && OneAtATime(s, Adds(k, |s.threads|))
    ensures After(s, Adds(k, |s.threads|)).counter == s.counter + PAGE * (|s.threads| - k)
    decreases |s.threads| - k
  {
    if k < |s.threads| {
      var s' := Apply(s, Add(k));
      var s'' := Apply(s', Store(k));
      AddsCount(s'', k + 1);
      var rest := Adds(k + 1, |s.threads|);
      RunTwo(s, Add(k), Store(k), rest);
      assert PAGE + PAGE * (|s.threads| - (k + 1)) == PAGE * (|s.threads| - k);
    }
  }

  lemma RunTwo(s: State, x: Event, y: Event, rest: seq<Event>)
    requires Enabled(s, x) && Enabled(Apply(s, x), y) && Legal(Apply(Apply(s, x), y), rest)
    requires x.Add? ==> NoneLoaded(s)
    requires !x.Take? && y.Store? && OneAtATime(Apply(Apply(s, x), y), rest)
    ensures Legal(s, [x, y] + rest) && OneAtATime(s, [x, y] + rest)
    ensures After(s, [x, y] + rest) == After(Apply(Apply(s, x), y), rest)
  {
    assert ([x, y] + rest)[1..] == [y] + rest;
    assert ([y] + rest)[1..] == rest;
  }

  /** The bound is reached: with room for one page, all threads find room, and then count one after the other. */
  lemma TheBoundIsReached(s: State) returns (events: seq<Event>)
    requires Start(s) && s.counter == s.limit - PAGE
    ensures Legal(s, events) && OneAtATime(s, events)
    ensures After(s, events).counter == s.limit + PAGE * (|s.threads| - 1)
  {
    var n := |s.threads|;
    TestsPass(s, 0);
    var passed := After(s, Tests(0, n));
    AddsCount(passed, 0);
    RunAppend(s, Tests(0, n), Adds(0, n));
    events := Tests(0, n) + Adds(0, n);
    assert s.limit - PAGE + PAGE * n == s.limit + PAGE * (n - 1);
  }

  lemma First(s: State, e: Event, rest: seq<Event>)
    requires Enabled(s, e) && Legal(Apply(s, e), rest)
    ensures Legal(s, [e] + rest) && After(s, [e] + rest) == After(Apply(s, e), rest)
  {
    hide Apply, Enabled;
    assert ([e] + rest)[1..] == rest;
  }

  lemma Nothing(s: State)
    ensures Legal(s, []) && After(s, []) == s
  {
  }

  /** Two threads find room, and both read the counter before either writes. */
  lemma BothAdd(s: State) returns (events: seq<Event>)
    requires |s.threads| == 2 && s.threads == [Idle, Idle] && s.counter < s.limit
    ensures Legal(s, events) && After(s, events) == s.(counter := s.counter + PAGE, pages := s.pages + 2)
  {
    hide Legal, After;
    var x := Loaded(s.counter, PAGE);
    var s1, s2 := s.(threads := [Passed, Idle]), s.(threads := [Passed, Passed]);
    var s3, s4 := s.(threads := [x, Passed]), s.(threads := [x, x]);
    var s5 := State(s.counter + PAGE, s.pages + 1, s.limit, [Idle, x]);
    var s6 := State(s.counter + PAGE, s.pages + 2, s.limit, [Idle, Idle]);
    assert Apply(s, Test(0)) == s1 && Apply(s1, Test(1)) == s2 && Apply(s2, Add(0)) == s3 && Apply(s3, Add(1)) == s4;
    assert Apply(s4, Store(0)) == s5 && Apply(s5, Store(1)) == s6;
    hide Apply;
    Nothing(s6);
    First(s5, Store(1), []);
    First(s4, Store(0), [Store(1)] + []);
    First(s3, Add(1), [Store(0)] + ([Store(1)] + []));
    First(s2, Add(0), [Add(1)] + ([Store(0)] + ([Store(1)] + [])));
    First(s1, Test(1), [Add(0)] + ([Add(1)] + ([Store(0)] + ([Store(1)] + []))));
    events := [Test(1)] + ([Add(0)] + ([Add(1)] + ([Store(0)] + ([Store(1)] + []))));
    First(s, Test(0), events);
    events := [Test(0)] + events;
  }

  lemma OneTakes(s: State) returns (events: seq<Event>)
    requires |s.threads| == 2 && s.threads == [Idle, Idle] && s.pages > 0
    ensures Legal(s, events) && After(s, events) == s.(counter := s.counter - PAGE, pages := s.pages - 1)
  {
    hide Legal, After;
    var s1 := s.(threads := [Loaded(s.counter, -PAGE), Idle]);
    var s2 := State(s.counter - PAGE, s.pages - 1, s.limit, [Idle, Idle]);
    AllIdle(s.threads);
    assert Apply(s, Take(0)) == s1 && Apply(s1, Store(0)) == s2;
    Nothing(s2);
    First(s1, Store(0), []);
    First(s, Take(0), [Store(0)] + []);
    events := [Take(0)] + ([Store(0)] + []);
  }

  /** When changes overlap there is no bound: two threads can cache any number of pages while the counter never shows
      more than one page over its first value. */
  lemma {:induction false} PagesGrowWithoutBound(s: State, k: nat) returns (events: seq<Event>)
    requires |s.threads| == 2 && s.threads == [Idle, Idle] && s.counter < s.limit && s.pages >= 0
    ensures Legal(s, events) && After(s, events) == s.(pages := s.pages + k)
    decreases k
  {
    if k == 0 {
      events := [];
    } else {
      var add := BothAdd(s);
      var take := OneTakes(After(s, add));
      RunAppend(s, add, take);
      var more := PagesGrowWithoutBound(After(s, add + take), k - 1);
      RunAppend(s, add + take, more);
      events := (add + take) + more;
    }
  }
}
