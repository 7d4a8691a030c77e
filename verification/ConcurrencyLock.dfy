/** The concurrency counter of the task consumers.  Acquiring reads the counter and then
    increments it, in two Redis commands, so that other acquirers can pass the test in between. */
module ConcurrencyLock {

  const MAX_CONCURRENCY: int := 20

  /** `passed` holds the acquirers that have seen a small enough count and are about to
      increment; `acquires` and `releases` count what has happened since the counter was set
      to zero. */
  datatype State = State(counter: int, passed: set<nat>, acquires: nat, releases: nat)

  const INITIAL := State(0, {}, 0, 0)

  datatype Event =
    | Test(acquirer: nat)
    | Increment(acquirer: nat)
    | Release

  /** An acquirer does one thing at a time, and only what was acquired is released. */
  predicate Enabled(s: State, e: Event, n: nat) {
    match e
    case Test(p) => p < n && p !in s.passed
    case Increment(p) => p in s.passed
    case Release => s.releases < s.acquires
  }

  function Next(s: State, e: Event): State {
    match e
    case Test(p) => if s.counter >= MAX_CONCURRENCY then s else s.(passed := s.passed + {p})
    case Increment(p) => s.(counter := s.counter + 1, passed := s.passed - {p}, acquires := s.acquires + 1)
    case Release => s.(counter := s.counter - 1, releases := s.releases + 1)
  }

  predicate IsRun(s: State, es: seq<Event>, n: nat)
    decreases |es|
  {
    es == [] || (Enabled(s, es[0], n) && IsRun(Next(s, es[0]), es[1..], n))
  }

  function Run(s: State, es: seq<Event>): State
    decreases |es|
  {
    if es == [] then s else Run(Next(s, es[0]), es[1..])
  }

  /** The acquirers 0 to n-1. */
  function Acquirers(n: nat): (all: set<nat>)
    ensures forall p: nat :: p in all <==> p < n
    ensures |all| == n
  {
    if n == 0 then {} else Acquirers(n - 1) + {n - 1}
  }

  lemma {:induction false} SubsetSize(a: set<nat>, b: set<nat>)
    requires a <= b
    ensures |a| <= |b|
    decreases |a|
  {
    if a != {} {
      var x :| x in a;
      SubsetSize(a - {x}, b - {x});
    }
  }

  /** The increments under way are already accounted for. */
  ghost predicate Inv(s: State, n: nat) {
    && s.passed <= Acquirers(n)
    && s.counter == s.acquires - s.releases >= 0
    && s.counter + |s.passed| <= MAX_CONCURRENCY + n - 1
  }

  lemma StepKeepsInv(s: State, e: Event, n: nat)
    requires Inv(s, n) && Enabled(s, e, n)
    ensures Inv(Next(s, e), n)
  {
    SubsetSize(Next(s, e).passed, Acquirers(n));
    SubsetSize(s.passed, Acquirers(n));
  }

  lemma {:induction false} RunKeepsInv(s: State, es: seq<Event>, n: nat)
    requires Inv(s, n) && IsRun(s, es, n)
    ensures Inv(Run(s, es), n)
    decreases |es|
  {
    if es != [] {
      StepKeepsInv(s, es[0], n);
      RunKeepsInv(Next(s, es[0]), es[1..], n);
    }
  }

  /** With `n` acquirers the counter never exceeds the maximum by more than n-1, and it is what
      has been acquired and not released. */
  lemma CounterBound(es: seq<Event>, n: nat)
    requires n >= 1 && IsRun(INITIAL, es, n)
    ensures var s := Run(INITIAL, es);
            0 <= s.counter <= MAX_CONCURRENCY + n - 1 && s.counter == s.acquires - s.releases
  {
    RunKeepsInv(INITIAL, es, n);
  }

  // ---------------------------------------------------------------------------
  // The bound is reached
  // ---------------------------------------------------------------------------

  lemma {:induction false} RunConcat(s: State, a: seq<Event>, b: seq<Event>, n: nat)
    ensures Run(s, a + b) == Run(Run(s, a), b)
    ensures IsRun(s, a + b, n) <==> IsRun(s, a, n) && IsRun(Run(s, a), b, n)
    decreases |a|
  {
    if a == [] {
      assert a + b == b;
    } else {
      assert (a + b)[1..] == a[1..] + b;
      RunConcat(Next(s, a[0]), a[1..], b, n);
    }
  }

  lemma RunOne(s: State, e: Event, n: nat)
    ensures Run(s, [e]) == Next(s, e)
    ensures IsRun(s, [e], n) <==> Enabled(s, e, n)
  {
    assert [e][1..] == [];
  }

  /** `k` uncontended acquisitions, one after the other. */
  function Acquisitions(k: nat): seq<Event> {
    if k == 0 then [] else Acquisitions(k - 1) + [Test(0)] + [Increment(0)]
  }

  lemma {:induction false} AcquisitionsRun(k: nat, n: nat)
    requires k <= MAX_CONCURRENCY && n >= 1
    ensures IsRun(INITIAL, Acquisitions(k), n)
    ensures Run(INITIAL, Acquisitions(k)) == State(k, {}, k, 0)
  {
    if k > 0 {
      AcquisitionsRun(k - 1, n);
      var s := State(k - 1, {}, k - 1, 0);
      RunConcat(INITIAL, Acquisitions(k - 1), [Test(0)], n);
      RunOne(s, Test(0), n);
      RunConcat(INITIAL, Acquisitions(k - 1) + [Test(0)], [Increment(0)], n);
      RunOne(Next(s, Test(0)), Increment(0), n);
    }
  }

  /** The first `k` acquirers, all at the same point. */
  function Tests(k: nat): seq<Event> {
    if k == 0 then [] else Tests(k - 1) + [Test(k - 1)]
  }

  function Increments(k: nat): seq<Event> {
    if k == 0 then [] else [Increment(k - 1)] + Increments(k - 1)
  }

  lemma {:induction false} TestsRun(c: nat, k: nat, n: nat)
    requires c < MAX_CONCURRENCY && k <= n
    ensures IsRun(State(c, {}, c, 0), Tests(k), n)
    ensures Run(State(c, {}, c, 0), Tests(k)) == State(c, Acquirers(k), c, 0)
    decreases k
  {
    if k == 0 {
      assert Tests(k) == [] && Acquirers(k) == {};
    } else {
      TestsRun(c, k - 1, n);
      var s, s' := State(c, {}, c, 0), State(c, Acquirers(k - 1), c, 0);
      RunConcat(s, Tests(k - 1), [Test(k - 1)], n);
      RunOne(s', Test(k - 1), n);
      assert Next(s', Test(k - 1)) == State(c, Acquirers(k), c, 0);
      assert Tests(k) == Tests(k - 1) + [Test(k - 1)];
      assert Run(s, Tests(k)) == Next(s', Test(k - 1));
    }
  }

  lemma IncrementLast(c: nat, k: nat)
    requires k > 0
    ensures Next(State(c, Acquirers(k), c, 0), Increment(k - 1)) == State(c + 1, Acquirers(k - 1), c + 1, 0)
  {
    assert Acquirers(k) - {k - 1} == Acquirers(k - 1);
  }

  lemma {:induction false} IncrementsRun(c: nat, k: nat, n: nat, s: State)
    requires s == State(c, Acquirers(k), c, 0)
    ensures IsRun(s, Increments(k), n)
    ensures Run(s, Increments(k)) == State(c + k, {}, c + k, 0)
    decreases k
  {
    if k > 0 {
      var e := Increment(k - 1);
      IncrementLast(c, k);
      IncrementsRun(c + 1, k - 1, n, Next(s, e));
      RunOne(s, e, n);
      RunConcat(s, [e], Increments(k - 1), n);
    }
  }

  /** For every number of acquirers some run reaches the bound. */
  lemma CounterBoundIsTight(n: nat)
    requires n >= 1
    ensures exists es :: IsRun(INITIAL, es, n) && Run(INITIAL, es).counter == MAX_CONCURRENCY + n - 1
  {
    var c := MAX_CONCURRENCY - 1;
    AcquisitionsRun(c, n);
    TestsRun(c, n, n);
    IncrementsRun(c, n, n, State(c, Acquirers(n), c, 0));
    RunConcat(INITIAL, Acquisitions(c), Tests(n), n);
    RunConcat(INITIAL, Acquisitions(c) + Tests(n), Increments(n), n);
    assert IsRun(INITIAL, Acquisitions(c) + Tests(n) + Increments(n), n);
  }

  /** The counter itself, with acquisitions that nobody interrupts. */
  class Counter {
    var count: int

    constructor ()
      ensures count == 0
    {
      count := 0;
    }

    method Acquire() returns (acquired: bool)
      modifies this
      ensures acquired <==> old(count) < MAX_CONCURRENCY
      ensures count == if acquired then old(count) + 1 else old(count)
      ensures old(count) <= MAX_CONCURRENCY ==> count <= MAX_CONCURRENCY
    {
      if count >= MAX_CONCURRENCY {
        return false;
      }
      count := count + 1;
      return true;
    }

    method ReleaseOne()
      modifies this
      ensures count == old(count) - 1
    {
      count := count - 1;
    }
  }
}
