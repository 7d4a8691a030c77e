/** The namespace lock in Redis: acquisition is a watched transaction, release is a read followed
    by a plain write. Every command is a step of its own. */
module NamespaceLock {
  /** The hash of the namespace; a missing field reads as zero or empty. */
  datatype Lock = Lock(endTime: int, owner: string)

  /** A client between two commands of one call. */
  datatype Call =
    | Watching(trace: string, until: int, now: int, version: nat)
    | HalfRead(trace: string, until: int, now: int, version: nat, endTime: int)
    | Ready(trace: string, until: int, now: int, version: nat, seen: Lock)
    | Releasing(trace: string)

  /** `grants` is what the callers were told: who was granted the lock and until when, less the
      releases that came back without error. `version` counts the writes to the key. */
  datatype State = State(lock: Lock, version: nat, clock: int, calls: map<int, Call>, grants: map<string, int>)

  const INITIAL := State(Lock(0, ""), 0, 0, map[], map[])

  datatype Step =
    | Tick(seconds: nat)
    | Watch(client: int, trace: string, until: int, now: int)
    | GetEndTime(client: int)
    | GetOwner(client: int)
    | Commit(client: int)
    | CheckOwner(client: int, trace: string)
    | Free(client: int, releasedAt: int)

  /** The commands come in the order of the call they belong to, and clocks do not run ahead. */
  predicate Enabled(s: State, step: Step) {
    match step
    case Tick(_) => true
    case Watch(c, _, _, now) => c !in s.calls && now <= s.clock
    case GetEndTime(c) => c in s.calls && s.calls[c].Watching?
    case GetOwner(c) => c in s.calls && s.calls[c].HalfRead?
    case Commit(c) => c in s.calls && s.calls[c].Ready?
    case CheckOwner(c, _) => c !in s.calls
    case Free(c, _) => c in s.calls && s.calls[c].Releasing?
  }

  /** The transaction body decides to write. */
  predicate Passes(call: Call)
    requires call.Ready?
  {
    !(call.seen.owner != "" && call.seen.owner != call.trace && call.now < call.seen.endTime)
  }

  /** ...and nothing was written to the key since it was watched. */
  predicate Succeeds(s: State, call: Call) {
    call.Ready? && Passes(call) && call.version == s.version
  }

  function Next(s: State, step: Step): State
    requires Enabled(s, step)
  {
    match step
    case Tick(d) => s.(clock := s.clock + d)
    case Watch(c, trace, until, now) => s.(calls := s.calls[c := Watching(trace, until, now, s.version)])
    case GetEndTime(c) =>
      var call := s.calls[c];
      s.(calls := s.calls[c := HalfRead(call.trace, call.until, call.now, call.version, s.lock.endTime)])
    case GetOwner(c) =>
      var call := s.calls[c];
      s.(calls := s.calls[c := Ready(call.trace, call.until, call.now, call.version, Lock(call.endTime, s.lock.owner))])
    case Commit(c) =>
      var call := s.calls[c];
      var s' := s.(calls := s.calls - {c});
      if Succeeds(s, call)
      then s'.(lock := Lock(call.until, call.trace), version := s.version + 1, grants := s.grants[call.trace := call.until])
      else s'
    case CheckOwner(c, trace) =>
      if s.lock.owner == trace || s.lock.owner == "" then s.(calls := s.calls[c := Releasing(trace)]) else s
    case Free(c, releasedAt) =>
      State(Lock(releasedAt, ""), s.version + 1, s.clock, s.calls - {c}, s.grants - {s.calls[c].trace})
  }

  predicate IsRun(s: State, steps: seq<Step>)
    decreases |steps|
  {
    steps == [] || (Enabled(s, steps[0]) && IsRun(Next(s, steps[0]), steps[1..]))
  }

  function Run(s: State, steps: seq<Step>): State
    requires IsRun(s, steps)
    decreases |steps|
  {
    if steps == [] then s else Run(Next(s, steps[0]), steps[1..])
  }

  /** The trace was granted the lock, has not released it, and its time is not up. */
  predicate Holds(s: State, trace: string) {
    trace in s.grants && s.clock < s.grants[trace]
  }

  ghost predicate MutualExclusion(s: State) {
    forall t, u :: Holds(s, t) && Holds(s, u) ==> t == u
  }

  // --- The invariant

  /** What a call knows is still true as long as the key was not written. */
  predicate Current(s: State, call: Call) {
    !call.Releasing? ==>
      && call.now <= s.clock && call.version <= s.version
      && (call.version == s.version && call.HalfRead? ==> call.endTime == s.lock.endTime)
      && (call.version == s.version && call.Ready? ==> call.seen == s.lock)
  }

  ghost predicate Inv(s: State) {
    && (forall t :: Holds(s, t) ==> t != "" && s.lock == Lock(s.grants[t], t))
    && (s.lock.owner != "" ==> s.lock.owner in s.grants && s.grants[s.lock.owner] == s.lock.endTime)
    && (forall c :: c in s.calls ==> Current(s, s.calls[c]))
  }

  /** What the code leaves to its callers: traces have names, and a release that has passed its
      check writes before anybody else is granted the lock. */
  predicate Safe(s: State, step: Step)
    requires Enabled(s, step)
  {
    match step
    case Commit(c) => Succeeds(s, s.calls[c]) && s.clock < s.calls[c].until ==> s.calls[c].trace != ""
    case Free(c, _) => s.lock.owner == "" || s.lock.owner == s.calls[c].trace || s.lock.endTime <= s.clock
    case _ => true
  }

  lemma CommitKeepsInv(s: State, c: int)
    requires Inv(s) && Enabled(s, Commit(c))
    ensures Inv(Next(s, Commit(c))) <==> Safe(s, Commit(c))
  {
    var call, s' := s.calls[c], Next(s, Commit(c));
    assert Current(s, call);
    if Succeeds(s, call) {
      assert Holds(s', call.trace) <==> s.clock < call.until;
      forall t | Holds(s', t) && t != call.trace ensures false {
        assert Holds(s, t);
      }
    } else {
      assert forall t :: Holds(s', t) <==> Holds(s, t);
    }
  }

  lemma FreeKeepsInv(s: State, c: int, releasedAt: int)
    requires Inv(s) && Enabled(s, Free(c, releasedAt))
    ensures Inv(Next(s, Free(c, releasedAt))) <==> Safe(s, Free(c, releasedAt))
  {
    var trace, s' := s.calls[c].trace, Next(s, Free(c, releasedAt));
    assert forall t :: Holds(s', t) <==> t != trace && Holds(s, t);
    if !Safe(s, Free(c, releasedAt)) {
      assert Holds(s', s.lock.owner);
    }
  }

  /** Each step keeps the invariant exactly if it is safe. */
  lemma StepKeepsInv(s: State, step: Step)
    requires Inv(s) && Enabled(s, step)
    ensures Inv(Next(s, step)) <==> Safe(s, step)
  {
    match step {
      case Commit(c) => CommitKeepsInv(s, c);
      case Free(c, releasedAt) => FreeKeepsInv(s, c, releasedAt);
      case _ => assert forall t :: Holds(Next(s, step), t) ==> Holds(s, t);
    }
  }

  predicate SafeRun(s: State, steps: seq<Step>)
    requires IsRun(s, steps)
    decreases |steps|
  {
    steps == [] || (Safe(s, steps[0]) && SafeRun(Next(s, steps[0]), steps[1..]))
  }

  /** Over every safe run, at most one trace holds the namespace. */
  lemma {:induction false} SafeRunsExclude(s: State, steps: seq<Step>)
    requires Inv(s) && IsRun(s, steps) && SafeRun(s, steps)
    ensures Inv(Run(s, steps)) && MutualExclusion(Run(s, steps))
    decreases |steps|
  {
    if steps != [] {
      StepKeepsInv(s, steps[0]);
      SafeRunsExclude(Next(s, steps[0]), steps[1..]);
    }
  }

  // --- Acquiring without interference

  function Acquisition(c: int, trace: string, until: int, now: int): seq<Step> {
    [Watch(c, trace, until, now), GetEndTime(c), GetOwner(c), Commit(c)]
  }

  /** Undisturbed, the lock is granted exactly if it is free, one's own, or expired. */
  lemma UndisturbedAcquisition(s: State, c: int, trace: string, until: int, now: int)
    requires c !in s.calls && now <= s.clock
    ensures IsRun(s, Acquisition(c, trace, until, now))
    ensures var s' := Run(s, Acquisition(c, trace, until, now));
      if s.lock.owner == "" || s.lock.owner == trace || s.lock.endTime <= now
      then s' == s.(lock := Lock(until, trace), version := s.version + 1, grants := s.grants[trace := until])
      else s' == s
  {
    var s1 := Next(s, Watch(c, trace, until, now));
    var s2 := Next(s1, GetEndTime(c));
    var s3 := Next(s2, GetOwner(c));
    assert s3.calls == s.calls[c := Ready(trace, until, now, s.version, s.lock)];
    assert s3.calls - {c} == s.calls;
    RunOfFour(s, Watch(c, trace, until, now), GetEndTime(c), GetOwner(c), Commit(c));
  }

  lemma RunOfFour(s: State, a: Step, b: Step, c: Step, d: Step)
    requires Enabled(s, a) && Enabled(Next(s, a), b) && Enabled(Next(Next(s, a), b), c)
    requires Enabled(Next(Next(Next(s, a), b), c), d)
    ensures IsRun(s, [a, b, c, d]) && Run(s, [a, b, c, d]) == Next(Next(Next(Next(s, a), b), c), d)
  {
    assert [a, b, c, d][1..] == [b, c, d] && [b, c, d][1..] == [c, d] && [c, d][1..] == [d];
    var s1 := Next(s, a);
    var s2 := Next(s1, b);
    var s3 := Next(s2, c);
    assert IsRun(s3, [d]) && Run(s3, [d]) == Next(s3, d);
    assert IsRun(s2, [c, d]) && Run(s2, [c, d]) == Next(s3, d);
    assert IsRun(s1, [b, c, d]) && Run(s1, [b, c, d]) == Next(s3, d);
  }

  // --- The release race

  /** An unsafe release opens the lock to anybody while its holder still believes in it. */
  lemma UnsafeReleaseAdmitsASecondHolder(s: State, c: int, at: int, d: int, trace: string, until: int)
    requires Inv(s) && Enabled(s, Free(c, at)) && !Safe(s, Free(c, at))
    requires d !in s.calls && trace != s.lock.owner && s.clock < until
    ensures var s' := Next(s, Free(c, at));
      && IsRun(s', Acquisition(d, trace, until, s.clock))
      && Holds(Run(s', Acquisition(d, trace, until, s.clock)), trace)
      && Holds(Run(s', Acquisition(d, trace, until, s.clock)), s.lock.owner)
      && !MutualExclusion(Run(s', Acquisition(d, trace, until, s.clock)))
  {
    var s' := Next(s, Free(c, at));
    UndisturbedAcquisition(s', d, trace, until, s.clock);
    var end := Run(s', Acquisition(d, trace, until, s.clock));
    assert Holds(end, trace) && Holds(end, s.lock.owner);
  }

  /** Such a state is reachable: the releaser's own lock expires between its check and its write. */
  lemma UnsafeReleaseIsReachable(t: string, u: string) returns (steps: seq<Step>)
    requires t != "" && u != "" && t != u
    ensures IsRun(INITIAL, steps) && SafeRun(INITIAL, steps)
    ensures var s := Run(INITIAL, steps); Inv(s) && Enabled(s, Free(1, 5)) && !Safe(s, Free(1, 5))
  {
    var first, second := Acquisition(0, t, 5, 0), Acquisition(2, u, 9, 5);
    UndisturbedAcquisition(INITIAL, 0, t, 5, 0);
    var s1 := Run(INITIAL, first);
    var s2 := Next(s1, CheckOwner(1, t));
    var s3 := Next(s2, Tick(5));
    UndisturbedAcquisition(s3, 2, u, 9, 5);
    AcquisitionIsSafe(INITIAL, 0, t, 5, 0);
    AcquisitionIsSafe(s3, 2, u, 9, 5);
    var middle := [CheckOwner(1, t), Tick(5)];
    assert middle[1..] == [Tick(5)];
    assert IsRun(s2, [Tick(5)]) && Run(s2, [Tick(5)]) == s3;
    Joined(INITIAL, first, middle);
    Joined(INITIAL, first + middle, second);
    steps := first + middle + second;
    SafeRunsExclude(INITIAL, steps);
  }

  lemma AcquisitionIsSafe(s: State, c: int, trace: string, until: int, now: int)
    requires c !in s.calls && now <= s.clock && trace != ""
    ensures IsRun(s, Acquisition(c, trace, until, now)) && SafeRun(s, Acquisition(c, trace, until, now))
  {
    UndisturbedAcquisition(s, c, trace, until, now);
    var steps := Acquisition(c, trace, until, now);
    var s1 := Next(s, steps[0]);
    var s2 := Next(s1, steps[1]);
    var s3 := Next(s2, steps[2]);
    assert steps[1..][1..][1..] == [steps[3]];
    assert s3.calls[c].trace == trace;
    assert SafeRun(s3, [steps[3]]);
  }

  lemma {:induction false} Joined(s: State, a: seq<Step>, b: seq<Step>)
    requires IsRun(s, a) && SafeRun(s, a) && IsRun(Run(s, a), b) && SafeRun(Run(s, a), b)
    ensures IsRun(s, a + b) && SafeRun(s, a + b) && Run(s, a + b) == Run(Run(s, a), b)
    decreases |a|
  {
    if a == [] {
      assert a + b == b;
    } else {
      Joined(Next(s, a[0]), a[1..], b);
      assert (a + b)[1..] == a[1..] + b;
    }
  }

  /** Undisturbed, a release frees the lock exactly if the lock is one's own or nobody's, and is
      refused without a trace otherwise. */
  lemma UndisturbedRelease(s: State, c: int, trace: string, at: int)
    requires c !in s.calls
    ensures var s1 := Next(s, CheckOwner(c, trace));
      if s.lock.owner == trace || s.lock.owner == ""
      then Enabled(s1, Free(c, at)) && Next(s1, Free(c, at)) == s.(lock := Lock(at, ""), version := s.version + 1, grants := s.grants - {trace})
      else s1 == s
  {
    assert s.calls[c := Releasing(trace)] - {c} == s.calls;
  }
}
