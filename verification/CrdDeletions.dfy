/** What the controller deletes: every object after its final callback, and nothing else. */
module CrdDeletions {
  import opened CrdController
  import opened JobInformer
  import opened Wrappers

  /** The deletion went through after entry `m`. */
  ghost predicate DeletedAfter(log: seq<Entry>, m: nat, r: Resource) {
    exists n :: m < n < |log| && log[n] == Deleted(r)
  }

  /** The final callback at `m` has been, or is going to be, followed by the deletion. */
  ghost predicate IsFollowed(s: State, m: nat)
    requires m < |s.log|
  {
    Concerns(s.log[m]).Some? ==>
      Delete(Concerns(s.log[m]).value) in s.pending || DeletedAfter(s.log, m, Concerns(s.log[m]).value)
  }

  /** So it is for all of them, but for those of the resource in hand. */
  ghost predicate AllFollowed(s: State, inHand: Option<Resource>) {
    forall m :: 0 <= m < |s.log| && (inHand.Some? ==> Concerns(s.log[m]) != inHand) ==> IsFollowed(s, m)
  }

  lemma StillDeleted(log: seq<Entry>, e: Entry, m: nat, r: Resource)
    requires DeletedAfter(log, m, r)
    ensures DeletedAfter(log + [e], m, r)
  {
    var n :| m < n < |log| && log[n] == Deleted(r);
    assert (log + [e])[n] == Deleted(r);
  }

  /** A callback stays followed when something is added to the log and nothing leaves the queue. */
  lemma StaysFollowed(s: State, s': State, e: Entry, m: nat)
    requires m < |s.log| && IsFollowed(s, m) && s'.log == s.log + [e]
    requires forall r :: Delete(r) in s.pending ==> Delete(r) in s'.pending
    ensures IsFollowed(s', m)
  {
    if Concerns(s.log[m]).Some? && DeletedAfter(s.log, m, Concerns(s.log[m]).value) {
      StillDeleted(s.log, e, m, Concerns(s.log[m]).value);
    }
  }

  lemma LogFollowed(s: State, e: Entry, inHand: Option<Resource>)
    requires AllFollowed(s, inHand) && (Concerns(e).None? || inHand == Concerns(e))
    ensures AllFollowed(Log(s, e), inHand)
  {
    var s' := Log(s, e);
    forall m | 0 <= m < |s'.log| && (inHand.Some? ==> Concerns(s'.log[m]) != inHand) ensures IsFollowed(s', m) {
      if m < |s.log| {
        StaysFollowed(s, s', e, m);
      }
    }
  }

  lemma PushFollowed(s: State, item: Item, inHand: Option<Resource>)
    requires AllFollowed(s, inHand)
    ensures AllFollowed(s.(pending := s.pending + [item]), inHand)
  {
    var s' := s.(pending := s.pending + [item]);
    forall m | 0 <= m < |s'.log| && (inHand.Some? ==> Concerns(s'.log[m]) != inHand) ensures IsFollowed(s', m) {
      assert IsFollowed(s, m);
    }
  }

  lemma EnqueueFollowed(s: State, item: Item, merge: bool, inHand: Option<Resource>)
    requires AllFollowed(s, inHand)
    ensures AllFollowed(Enqueue(s, item, merge), inHand)
  {
    PushFollowed(s, item, inHand);
    if item.CheckRecovery? {
      LogFollowed(s, Ended(item.target, item.chain, Merged), inHand);
    }
  }

  lemma EnqueueDeletes(s: State, r: Resource, merge: bool)
    requires AllFollowed(s, Some(r))
    ensures AllFollowed(Enqueue(s, Delete(r), merge), None)
  {
    var s' := Enqueue(s, Delete(r), merge);
    EnqueueFollowed(s, Delete(r), merge, Some(r));
    assert Delete(r) in s'.pending;
    forall m | 0 <= m < |s'.log| ensures IsFollowed(s', m) {
    }
  }

  lemma ConcludeFollowed(s: State, e: Entry, merge: bool)
    requires AllFollowed(s, None) && Concerns(e).Some?
    ensures AllFollowed(Conclude(s, e, false, merge), None)
  {
    LogFollowed(s, e, Concerns(e));
    EnqueueDeletes(Log(s, e), Concerns(e).value, merge);
  }

  lemma DeletedFollowed(s: State, r: Resource)
    requires AllFollowed(s, Some(r))
    ensures AllFollowed(Log(s, Deleted(r)), None)
  {
    var s' := Log(s, Deleted(r));
    LogFollowed(s, Deleted(r), Some(r));
    forall m | 0 <= m < |s'.log| ensures IsFollowed(s', m) {
      assert s'.log[|s.log|] == Deleted(r);
    }
  }

  /** What is in hand when an item has been taken. */
  function Held(item: Item): Option<Resource> {
    if item.Delete? then Some(item.resource) else None
  }

  lemma TakeFollowed(s: State, i: nat)
    requires i < |s.pending| && AllFollowed(s, None)
    ensures AllFollowed(Take(s, i), Held(s.pending[i]))
  {
    var s', held := Take(s, i), Held(s.pending[i]);
    forall m | 0 <= m < |s'.log| && (held.Some? ==> Concerns(s'.log[m]) != held) ensures IsFollowed(s', m) {
      assert IsFollowed(s, m);
      if Concerns(s.log[m]).Some? {
        OthersStay(s.pending, i, Delete(Concerns(s.log[m]).value));
      }
    }
  }

  lemma OthersStay(pending: seq<Item>, i: nat, item: Item)
    requires i < |pending| && item != pending[i]
    ensures item in Without(pending, i) <==> item in pending
  {
    assert pending == pending[..i] + [pending[i]] + pending[i + 1..];
  }

  lemma WorkFollowed(s: State, item: Item, answer: Answer, merge: bool)
    requires AllFollowed(s, Held(item))
    ensures AllFollowed(Process(s, item, answer, false, merge), None)
  {
    if item.Delete? {
      EnqueueDeletes(s, item.resource, merge);
      DeletedFollowed(s, item.resource);
    } else if item.CheckRecovery? {
      EnqueueFollowed(s, item, merge, None);
      if !answer.ApiError? {
        var s' := Log(s, Checked(item.target, item.chain, answer));
        LogFollowed(s, Checked(item.target, item.chain, answer), None);
        if answer.NotFound? {
          LogFollowed(s', Ended(item.target, item.chain, Gone), None);
        } else {
          EnqueueFollowed(s', item.(retryCount := item.retryCount + 1), merge, None);
          ConcludeFollowed(s', Ended(item.target, item.chain, if answer.hasTimeRange then Success else NoTimeRange), merge);
        }
      }
    }
  }

  lemma StartFollowed(s: State, target: Target, minutes: nat, merge: bool)
    requires AllFollowed(s, None)
    ensures AllFollowed(Start(s, target, minutes, merge), None)
  {
    var logged := Log(s, Started(target, s.next, minutes));
    var s' := logged.(next := s.next + 1);
    LogFollowed(s, Started(target, s.next, minutes), None);
    forall m | 0 <= m < |s'.log| ensures IsFollowed(s', m) {
      assert IsFollowed(logged, m);
    }
    EnqueueFollowed(s', CheckRecovery(target, minutes, 0, MAX_RETRIES, s.next), merge, None);
  }

  lemma StepFollowed(s: State, e: Event)
    requires Possible(s, e) && AllFollowed(s, None)
    ensures AllFollowed(Next(s, e, false), None)
  {
    match e {
      case Update(target, before, after, active, merge) =>
        ConditionsDecide(before, after);
        ConcludeFollowed(s, Rejected(target), merge);
        if Starts(e, target) {
          StartFollowed(s, target, after.duration.count, merge);
        }
      case JobUpdate(namespace, before, after, merge) =>
        var failed := JobFailed(namespace, after.name);
        LogFollowed(s, failed, None);
        var s' := if ReportsFailure(before, after) then Log(s, failed) else s;
        ConcludeFollowed(s', JobSucceeded(namespace, after.name), merge);
      case PodUpdate(pod, _, merge) =>
        if IsStuck(pod) {
          ConcludeFollowed(s, PodReported(pod.namespace, JobOwner(pod.owners).value), merge);
        }
      case Work(i, answer, merge) =>
        TakeFollowed(s, i);
        WorkFollowed(Take(s, i), s.pending[i], answer, merge);
    }
  }

  /** In every run without debugging, each final callback is followed by the deletion of its
      object: the deletion has gone through since, or it is waiting on the queue, however often
      items are merged and the API fails. */
  lemma {:induction false} CallbacksAreFollowedByDeletion(s: State, es: seq<Event>)
    requires IsRun(s, es, false) && AllFollowed(s, None)
    ensures AllFollowed(Run(s, es, false), None)
    decreases |es|
  {
    if es != [] {
      StepFollowed(s, es[0]);
      CallbacksAreFollowedByDeletion(Next(s, es[0], false), es[1..]);
    }
  }

  // --- Nothing else is deleted

  /** A final callback about the resource came before entry `n`. */
  ghost predicate CallbackBefore(log: seq<Entry>, n: nat, r: Resource) {
    exists m :: 0 <= m < n && m < |log| && Concerns(log[m]) == Some(r)
  }

  ghost predicate Justified(s: State, debugging: bool) {
    && (forall r :: Delete(r) in s.pending ==> !debugging && CallbackBefore(s.log, |s.log|, r))
    && (forall n :: 0 <= n < |s.log| && s.log[n].Deleted? ==> !debugging && CallbackBefore(s.log, n, s.log[n].resource))
  }

  lemma StillBefore(log: seq<Entry>, e: Entry, n: nat, r: Resource)
    requires n <= |log| && CallbackBefore(log, n, r)
    ensures CallbackBefore(log + [e], n, r) && CallbackBefore(log + [e], |log| + 1, r)
  {
    var m :| 0 <= m < n && Concerns(log[m]) == Some(r);
    assert (log + [e])[m] == log[m];
  }

  lemma LogJustified(s: State, e: Entry, debugging: bool)
    requires Justified(s, debugging) && (e.Deleted? ==> !debugging && CallbackBefore(s.log, |s.log|, e.resource))
    ensures Justified(Log(s, e), debugging)
  {
    var s' := Log(s, e);
    forall r | Delete(r) in s'.pending ensures !debugging && CallbackBefore(s'.log, |s'.log|, r) {
      StillBefore(s.log, e, |s.log|, r);
    }
    forall n | 0 <= n < |s'.log| && s'.log[n].Deleted? ensures !debugging && CallbackBefore(s'.log, n, s'.log[n].resource) {
      StillBefore(s.log, e, n, s'.log[n].resource);
    }
  }

  lemma EnqueueJustified(s: State, item: Item, merge: bool, debugging: bool)
    requires Justified(s, debugging)
    requires item.Delete? ==> !debugging && CallbackBefore(s.log, |s.log|, item.resource)
    ensures Justified(Enqueue(s, item, merge), debugging)
  {
    if item.CheckRecovery? {
      LogJustified(s, Ended(item.target, item.chain, Merged), debugging);
    }
  }

  lemma ConcludeJustified(s: State, e: Entry, debugging: bool, merge: bool)
    requires Justified(s, debugging) && Concerns(e).Some?
    ensures Justified(Conclude(s, e, debugging, merge), debugging)
  {
    var s' := Log(s, e);
    LogJustified(s, e, debugging);
    assert s'.log[|s.log|] == e;
    if !debugging {
      EnqueueJustified(s', Delete(Concerns(e).value), merge, debugging);
    }
  }

  lemma WorkJustified(s: State, item: Item, answer: Answer, debugging: bool, merge: bool)
    requires Justified(s, debugging) && (item.Delete? ==> !debugging && CallbackBefore(s.log, |s.log|, item.resource))
    ensures Justified(Process(s, item, answer, debugging, merge), debugging)
  {
    EnqueueJustified(s, item, merge, debugging);
    if item.Delete? {
      LogJustified(s, Deleted(item.resource), debugging);
    } else if item.CheckRecovery? && !answer.ApiError? {
      var s' := Log(s, Checked(item.target, item.chain, answer));
      LogJustified(s, Checked(item.target, item.chain, answer), debugging);
      if answer.NotFound? {
        LogJustified(s', Ended(item.target, item.chain, Gone), debugging);
      } else {
        EnqueueJustified(s', item.(retryCount := item.retryCount + 1), merge, debugging);
        ConcludeJustified(s', Ended(item.target, item.chain, if answer.hasTimeRange then Success else NoTimeRange), debugging, merge);
      }
    }
  }

  lemma StepJustified(s: State, e: Event, debugging: bool)
    requires Possible(s, e) && Justified(s, debugging)
    ensures Justified(Next(s, e, debugging), debugging)
  {
    match e {
      case Update(target, before, after, active, merge) =>
        ConditionsDecide(before, after);
        ConcludeJustified(s, Rejected(target), debugging, merge);
        if Starts(e, target) {
          var started := Started(target, s.next, after.duration.count);
          var s' := Log(s, started).(next := s.next + 1);
          LogJustified(s, started, debugging);
          EnqueueJustified(s', CheckRecovery(target, after.duration.count, 0, MAX_RETRIES, s.next), merge, debugging);
        }
      case JobUpdate(namespace, before, after, merge) =>
        var failed := JobFailed(namespace, after.name);
        LogJustified(s, failed, debugging);
        var s' := if ReportsFailure(before, after) then Log(s, failed) else s;
        ConcludeJustified(s', JobSucceeded(namespace, after.name), debugging, merge);
      case PodUpdate(pod, _, merge) =>
        if IsStuck(pod) {
          ConcludeJustified(s, PodReported(pod.namespace, JobOwner(pod.owners).value), debugging, merge);
        }
      case Work(i, answer, merge) =>
        TakeJustified(s, i, debugging);
        WorkJustified(Take(s, i), s.pending[i], answer, debugging, merge);
    }
  }

  lemma TakeJustified(s: State, i: nat, debugging: bool)
    requires i < |s.pending| && Justified(s, debugging)
    ensures Justified(Take(s, i), debugging)
    ensures s.pending[i].Delete? ==> !debugging && CallbackBefore(s.log, |s.log|, s.pending[i].resource)
  {
    assert forall item :: item in Without(s.pending, i) ==> item in s.pending;
    assert s.pending[i] in s.pending;
  }

  /** In every run, whatever is deleted or waiting to be deleted had its final callback before;
      while debugging nothing is. */
  lemma {:induction false} OnlyFinishedObjectsAreDeleted(s: State, es: seq<Event>, debugging: bool)
    requires IsRun(s, es, debugging) && Justified(s, debugging)
    ensures Justified(Run(s, es, debugging), debugging)
    decreases |es|
  {
    if es != [] {
      StepJustified(s, es[0], debugging);
      OnlyFinishedObjectsAreDeleted(Next(s, es[0], debugging), es[1..], debugging);
    }
  }
}
