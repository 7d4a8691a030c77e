/** Chains and callbacks per experiment: how many callbacks an experiment can get, and that merging
    leaves none without an answer. */
module CrdAnswers {
  import opened CrdController
  import opened JobInformer
  import opened Wrappers

  predicate IsCheckFor(item: Item, x: Target) {
    item.CheckRecovery? && item.target == x
  }

  function WaitsFor(pending: seq<Item>, x: Target): nat {
    if pending == [] then 0 else One(IsCheckFor(pending[0], x)) + WaitsFor(pending[1..], x)
  }

  lemma {:induction false} WaitsForConcat(a: seq<Item>, b: seq<Item>, x: Target)
    ensures WaitsFor(a + b, x) == WaitsFor(a, x) + WaitsFor(b, x)
    decreases |a|
  {
    if a == [] {
      assert a + b == b;
    } else {
      assert (a + b)[1..] == a[1..] + b;
      WaitsForConcat(a[1..], b, x);
    }
  }

  /** The chains of the experiment that wait or have ended. */
  function Chains(s: State, x: Target): nat {
    WaitsFor(s.pending, x) + Count(s.log, EndsOn(x))
  }

  lemma LogChains(s: State, e: Entry, x: Target)
    ensures Chains(Log(s, e), x) == Chains(s, x) + One(Fits(e, EndsOn(x)))
  {
    CountNext(s.log, e, EndsOn(x));
  }

  lemma EnqueueChains(s: State, item: Item, merge: bool, x: Target)
    ensures Chains(Enqueue(s, item, merge), x) == Chains(s, x) + One(IsCheckFor(item, x))
  {
    WaitsForConcat(s.pending, [item], x);
    if item.CheckRecovery? {
      LogChains(s, Ended(item.target, item.chain, Merged), x);
    }
  }

  lemma ConcludeChains(s: State, e: Entry, debugging: bool, merge: bool, x: Target)
    requires Concerns(e).Some?
    ensures Chains(Conclude(s, e, debugging, merge), x) == Chains(s, x) + One(Fits(e, EndsOn(x)))
  {
    LogChains(s, e, x);
    EnqueueChains(Log(s, e), Delete(Concerns(e).value), merge, x);
  }

  lemma TakeChains(s: State, i: nat, x: Target)
    requires i < |s.pending|
    ensures Chains(s, x) == Chains(Take(s, i), x) + One(IsCheckFor(s.pending[i], x))
  {
    var a, item, b := s.pending[..i], s.pending[i], s.pending[i + 1..];
    assert s.pending == (a + [item]) + b;
    WaitsForConcat(a + [item], b, x);
    WaitsForConcat(a, [item], x);
    WaitsForConcat(a, b, x);
  }

  lemma WorkChains(s: State, item: Item, answer: Answer, debugging: bool, merge: bool, x: Target)
    ensures Chains(Process(s, item, answer, debugging, merge), x) == Chains(s, x) + One(IsCheckFor(item, x))
  {
    if item.CheckRecovery? && !answer.ApiError? {
      var s' := Log(s, Checked(item.target, item.chain, answer));
      LogChains(s, Checked(item.target, item.chain, answer), x);
      if answer.NotFound? {
        LogChains(s', Ended(item.target, item.chain, Gone), x);
      } else if !answer.recovered && item.retryCount < item.maxRetries {
        EnqueueChains(s', item.(retryCount := item.retryCount + 1), merge, x);
      } else {
        ConcludeChains(s', Ended(item.target, item.chain, if answer.hasTimeRange then Success else NoTimeRange), debugging, merge, x);
      }
    } else {
      EnqueueChains(s, item, merge, x);
      if item.Delete? {
        LogChains(s, Deleted(item.resource), x);
      }
    }
  }

  lemma StartChains(s: State, target: Target, minutes: nat, merge: bool, x: Target)
    ensures Chains(Start(s, target, minutes, merge), x) == Chains(s, x) + One(target == x)
  {
    var s' := Log(s, Started(target, s.next, minutes)).(next := s.next + 1);
    LogChains(s, Started(target, s.next, minutes), x);
    assert Chains(s', x) == Chains(s, x);
    EnqueueChains(s', CheckRecovery(target, minutes, 0, MAX_RETRIES, s.next), merge, x);
  }

  lemma UpdateChains(s: State, e: Event, debugging: bool, x: Target)
    requires e.Update?
    ensures Chains(Next(s, e, debugging), x) == Chains(s, x) + One(Starts(e, x))
  {
    ConditionsDecide(e.before, e.after);
    if Starts(e, e.target) {
      StartChains(s, e.target, e.after.duration.count, e.merge, x);
    } else if Rejects(e, e.target) {
      ConcludeChains(s, Rejected(e.target), debugging, e.merge, x);
    }
  }

  lemma StepChains(s: State, e: Event, debugging: bool, x: Target)
    requires Possible(s, e)
    ensures Chains(Next(s, e, debugging), x) == Chains(s, x) + One(Starts(e, x))
  {
    match e {
      case Update(target, before, after, active, merge) =>
        UpdateChains(s, e, debugging, x);
      case JobUpdate(namespace, before, after, merge) =>
        var failed := JobFailed(namespace, after.name);
        LogChains(s, failed, x);
        var s' := if ReportsFailure(before, after) then Log(s, failed) else s;
        ConcludeChains(s', JobSucceeded(namespace, after.name), debugging, merge, x);
      case PodUpdate(pod, _, merge) =>
        if IsStuck(pod) {
          ConcludeChains(s, PodReported(pod.namespace, JobOwner(pod.owners).value), debugging, merge, x);
        }
      case Work(i, answer, merge) =>
        TakeChains(s, i, x);
        WorkChains(Take(s, i), s.pending[i], answer, debugging, merge, x);
    }
  }

  lemma {:induction false} RunChains(s: State, es: seq<Event>, debugging: bool, x: Target)
    requires IsRun(s, es, debugging)
    ensures Chains(Run(s, es, debugging), x) == Chains(s, x) + Asked(es, StartsOf(x))
    decreases |es|
  {
    if es != [] {
      StepChains(s, es[0], debugging, x);
      RunChains(Next(s, es[0], debugging), es[1..], debugging, x);
    }
  }

  lemma {:induction false} CallbacksAreEndsOrRejections(log: seq<Entry>, x: Target)
    ensures Count(log, CallbacksOn(x)) <= Count(log, EndsOn(x)) + Count(log, RejectionsOf(x))
    decreases |log|
  {
    if log == [] {
      CountNone(CallbacksOn(x));
    } else {
      CallbacksAreEndsOrRejections(log[..|log| - 1], x);
      CountLast(log, CallbacksOn(x));
      CountLast(log, EndsOn(x));
      CountLast(log, RejectionsOf(x));
    }
  }

  /** In every run an experiment gets no more final callbacks than it had rising edges with a
      duration and updates that fail it; each such edge is waiting or has ended. */
  lemma CallbacksPerExperiment(es: seq<Event>, debugging: bool, x: Target)
    requires IsRun(INITIAL, es, debugging)
    ensures var s := Run(INITIAL, es, debugging);
      && WaitsFor(s.pending, x) + Count(s.log, EndsOn(x)) == Asked(es, StartsOf(x))
      && Count(s.log, CallbacksOn(x)) <= Asked(es, StartsOf(x)) + Asked(es, RejectionsOf(x))
  {
    var s := Run(INITIAL, es, debugging);
    CountNone(EndsOn(x));
    CountNone(RejectionsOf(x));
    RunChains(INITIAL, es, debugging, x);
    CallbacksOutsideChains(INITIAL, es, debugging, RejectionsOf(x));
    CallbacksAreEndsOrRejections(s.log, x);
  }

  // --- Merging

  ghost predicate IsAwaited(pending: seq<Item>, x: Target) {
    exists i :: 0 <= i < |pending| && IsCheckFor(pending[i], x)
  }

  /** A chain of the experiment came to an end of its own after entry `m`. */
  ghost predicate SettledAfter(log: seq<Entry>, m: nat, x: Target) {
    exists n :: m < n < |log| && IsSettlement(log[n], x)
  }

  predicate IsSettlement(e: Entry, x: Target) {
    e.Ended? && e.target == x && e.end != Merged
  }

  /** The entry leaves the experiment waiting for an answer. */
  predicate LeavesOpen(e: Entry) {
    e.Started? || (e.Ended? && e.end == Merged)
  }

  ghost predicate IsAnswered(s: State, m: nat)
    requires m < |s.log|
  {
    LeavesOpen(s.log[m]) ==> IsAwaited(s.pending, s.log[m].target) || SettledAfter(s.log, m, s.log[m].target)
  }

  /** So it is for all entries, but for those of the experiment in hand. */
  ghost predicate AllAnswered(s: State, inHand: Option<Target>) {
    forall m :: 0 <= m < |s.log| && !(inHand.Some? && LeavesOpen(s.log[m]) && s.log[m].target == inHand.value) ==> IsAnswered(s, m)
  }

  lemma StillSettled(log: seq<Entry>, e: Entry, m: nat, x: Target)
    requires SettledAfter(log, m, x)
    ensures SettledAfter(log + [e], m, x)
  {
    var n :| m < n < |log| && IsSettlement(log[n], x);
    assert (log + [e])[n] == log[n];
  }

  lemma LogAnswered(s: State, e: Entry, inHand: Option<Target>)
    requires AllAnswered(s, inHand)
    requires LeavesOpen(e) ==> IsAwaited(s.pending, e.target) || inHand == Some(e.target)
    ensures AllAnswered(Log(s, e), inHand)
  {
    var s' := Log(s, e);
    forall m | 0 <= m < |s'.log| && !(inHand.Some? && LeavesOpen(s'.log[m]) && s'.log[m].target == inHand.value)
      ensures IsAnswered(s', m)
    {
      if m < |s.log| {
        assert IsAnswered(s, m);
        if LeavesOpen(s.log[m]) && SettledAfter(s.log, m, s.log[m].target) {
          StillSettled(s.log, e, m, s.log[m].target);
        }
      }
    }
  }

  lemma StillAwaited(pending: seq<Item>, item: Item, x: Target)
    requires IsAwaited(pending, x)
    ensures IsAwaited(pending + [item], x)
  {
    var i :| 0 <= i < |pending| && IsCheckFor(pending[i], x);
    assert (pending + [item])[i] == pending[i];
  }

  lemma PushAnswered(s: State, item: Item, inHand: Option<Target>)
    requires AllAnswered(s, inHand)
    ensures AllAnswered(s.(pending := s.pending + [item]), inHand)
  {
    var s' := s.(pending := s.pending + [item]);
    forall m | 0 <= m < |s'.log| && !(inHand.Some? && LeavesOpen(s'.log[m]) && s'.log[m].target == inHand.value)
      ensures IsAnswered(s', m)
    {
      assert IsAnswered(s, m);
      if LeavesOpen(s.log[m]) && IsAwaited(s.pending, s.log[m].target) {
        StillAwaited(s.pending, item, s.log[m].target);
      }
    }
  }

  /** A check that is put on the queue, or merged into an equal one, answers for the experiment in
      hand. */
  lemma CheckAnswers(s: State, item: Item, merge: bool)
    requires item.CheckRecovery? && AllAnswered(s, Some(item.target))
    ensures AllAnswered(Enqueue(s, item, merge), None)
  {
    var s', x := Enqueue(s, item, merge), item.target;
    if merge && IsWaiting(s.pending, item) {
      LogAnswered(s, Ended(x, item.chain, Merged), Some(x));
    } else {
      PushAnswered(s, item, Some(x));
      assert s'.pending[|s.pending|] == item;
    }
    assert IsAwaited(s'.pending, x);
  }

  lemma OtherAnswers(s: State, item: Item, merge: bool, inHand: Option<Target>)
    requires !item.CheckRecovery? && AllAnswered(s, inHand)
    ensures AllAnswered(Enqueue(s, item, merge), inHand)
  {
    PushAnswered(s, item, inHand);
  }

  /** An end of its own answers for the experiment in hand. */
  lemma EndAnswers(s: State, e: Entry)
    requires e.Ended? && e.end != Merged && AllAnswered(s, Some(e.target))
    ensures AllAnswered(Log(s, e), None)
  {
    var s' := Log(s, e);
    LogAnswered(s, e, Some(e.target));
    forall m | 0 <= m < |s'.log| ensures IsAnswered(s', m) {
      assert s'.log[|s.log|] == e && IsSettlement(e, e.target);
    }
  }

  /** What is in hand when an item has been taken. */
  function Held(item: Item): Option<Target> {
    if item.CheckRecovery? then Some(item.target) else None
  }

  lemma TakeAnswered(s: State, i: nat)
    requires i < |s.pending| && AllAnswered(s, None)
    ensures AllAnswered(Take(s, i), Held(s.pending[i]))
  {
    var s', held := Take(s, i), Held(s.pending[i]);
    forall m | 0 <= m < |s'.log| && !(held.Some? && LeavesOpen(s'.log[m]) && s'.log[m].target == held.value)
      ensures IsAnswered(s', m)
    {
      assert IsAnswered(s, m);
      if LeavesOpen(s.log[m]) && IsAwaited(s.pending, s.log[m].target) {
        OthersStayAwaited(s.pending, i, s.log[m].target);
      }
    }
  }

  lemma OthersStayAwaited(pending: seq<Item>, i: nat, x: Target)
    requires i < |pending| && !IsCheckFor(pending[i], x) && IsAwaited(pending, x)
    ensures IsAwaited(Without(pending, i), x)
  {
    var j :| 0 <= j < |pending| && IsCheckFor(pending[j], x);
    assert Without(pending, i)[if j < i then j else j - 1] == pending[j];
  }

  lemma WorkAnswered(s: State, item: Item, answer: Answer, debugging: bool, merge: bool)
    requires AllAnswered(s, Held(item))
    ensures AllAnswered(Process(s, item, answer, debugging, merge), None)
  {
    if item.CheckRecovery? {
      CheckAnswers(s, item, merge);
      if !answer.ApiError? {
        var s' := Log(s, Checked(item.target, item.chain, answer));
        LogAnswered(s, Checked(item.target, item.chain, answer), Held(item));
        if answer.NotFound? {
          EndAnswers(s', Ended(item.target, item.chain, Gone));
        } else {
          var e := Ended(item.target, item.chain, if answer.hasTimeRange then Success else NoTimeRange);
          CheckAnswers(s', item.(retryCount := item.retryCount + 1), merge);
          EndAnswers(s', e);
          OtherAnswers(Log(s', e), Delete(Concerns(e).value), merge, None);
        }
      }
    } else {
      OtherAnswers(s, item, merge, None);
      if item.Delete? {
        LogAnswered(s, Deleted(item.resource), None);
      }
    }
  }

  lemma ConcludeAnswered(s: State, e: Entry, debugging: bool, merge: bool)
    requires AllAnswered(s, None) && Concerns(e).Some?
    ensures AllAnswered(Conclude(s, e, debugging, merge), None)
  {
    LogAnswered(s, e, None);
    OtherAnswers(Log(s, e), Delete(Concerns(e).value), merge, None);
  }

  lemma StartAnswered(s: State, target: Target, minutes: nat, merge: bool)
    requires AllAnswered(s, None)
    ensures AllAnswered(Start(s, target, minutes, merge), None)
  {
    var logged := Log(s, Started(target, s.next, minutes));
    var s' := logged.(next := s.next + 1);
    assert AllAnswered(s, Some(target));
    LogAnswered(s, Started(target, s.next, minutes), Some(target));
    forall m | 0 <= m < |s'.log| && !(LeavesOpen(s'.log[m]) && s'.log[m].target == target) ensures IsAnswered(s', m) {
      assert IsAnswered(logged, m);
    }
    CheckAnswers(s', CheckRecovery(target, minutes, 0, MAX_RETRIES, s.next), merge);
  }

  lemma StepAnswered(s: State, e: Event, debugging: bool)
    requires Possible(s, e) && AllAnswered(s, None)
    ensures AllAnswered(Next(s, e, debugging), None)
  {
    match e {
      case Update(target, before, after, active, merge) =>
        ConditionsDecide(before, after);
        ConcludeAnswered(s, Rejected(target), debugging, merge);
        if Starts(e, target) {
          StartAnswered(s, target, after.duration.count, merge);
        }
      case JobUpdate(namespace, before, after, merge) =>
        var failed := JobFailed(namespace, after.name);
        LogAnswered(s, failed, None);
        var s' := if ReportsFailure(before, after) then Log(s, failed) else s;
        ConcludeAnswered(s', JobSucceeded(namespace, after.name), debugging, merge);
      case PodUpdate(pod, _, merge) =>
        if IsStuck(pod) {
          ConcludeAnswered(s, PodReported(pod.namespace, JobOwner(pod.owners).value), debugging, merge);
        }
      case Work(i, answer, merge) =>
        TakeAnswered(s, i);
        WorkAnswered(Take(s, i), s.pending[i], answer, debugging, merge);
    }
  }

  /** In every run, whatever is merged: after each start of a chain, and after each chain that was
      merged away, some chain of the same experiment waits, or has since ended in a callback or
      because the object was gone. */
  lemma {:induction false} MergingLeavesNothingUnanswered(s: State, es: seq<Event>, debugging: bool)
    requires IsRun(s, es, debugging) && AllAnswered(s, None)
    ensures AllAnswered(Run(s, es, debugging), None)
    decreases |es|
  {
    if es != [] {
      StepAnswered(s, es[0], debugging);
      MergingLeavesNothingUnanswered(Next(s, es[0], debugging), es[1..], debugging);
    }
  }
}
