/** No started experiment is forgotten, even where the queue merges its checks with others. */
module CrdProgress {
  import opened CrdController
  import opened CrdLaws
  import opened JobInformer
  import opened Wrappers

  ghost predicate CheckWaits(pending: seq<Item>, x: Target) {
    exists i :: 0 <= i < |pending| && pending[i].CheckRecovery? && pending[i].target == x
  }

  ghost predicate EndsAfter(log: seq<Entry>, m: int, x: Target) {
    exists n :: 0 <= n < |log| && m < n && IsOwnEnd(log[n]) && log[n].target == x
  }

  /** Every started experiment has a check waiting, or an end of a chain of its own since. */
  ghost predicate NothingForgotten(s: State) {
    forall m :: 0 <= m < |s.log| && s.log[m].Started? ==> CheckWaits(s.pending, s.log[m].target) || EndsAfter(s.log, m, s.log[m].target)
  }

  lemma EndStays(log: seq<Entry>, more: seq<Entry>, m: int, x: Target)
    requires EndsAfter(log, m, x)
    ensures EndsAfter(log + more, m, x)
  {
    var n :| 0 <= n < |log| && m < n && IsOwnEnd(log[n]) && log[n].target == x;
    assert (log + more)[n] == log[n];
  }

  lemma EndIsAfter(log: seq<Entry>, more: seq<Entry>, m: int, x: Target)
    requires m < |log| && EndsAfter(more, -1, x)
    ensures EndsAfter(log + more, m, x)
  {
    var n :| 0 <= n < |more| && IsOwnEnd(more[n]) && more[n].target == x;
    assert (log + more)[|log| + n] == more[n];
  }

  /** A step forgets nothing if each check it takes away is still waiting or has ended, and each
      start it logs has a check waiting. */
  lemma StepForgetsNothing(s: State, s': State, more: seq<Entry>)
    requires NothingForgotten(s) && s'.log == s.log + more
    requires forall x :: CheckWaits(s.pending, x) ==> CheckWaits(s'.pending, x) || EndsAfter(more, -1, x)
    requires forall j :: 0 <= j < |more| && more[j].Started? ==> CheckWaits(s'.pending, more[j].target)
    ensures NothingForgotten(s')
  {
    forall m | 0 <= m < |s'.log| && s'.log[m].Started?
      ensures CheckWaits(s'.pending, s'.log[m].target) || EndsAfter(s'.log, m, s'.log[m].target)
    {
      var x := s'.log[m].target;
      if m >= |s.log| {
        assert s'.log[m] == more[m - |s.log|];
      } else if EndsAfter(s.log, m, x) {
        EndStays(s.log, more, m, x);
      } else if EndsAfter(more, -1, x) {
        EndIsAfter(s.log, more, m, x);
      }
    }
  }

  lemma StillWaits(pending: seq<Item>, more: seq<Item>, x: Target)
    requires CheckWaits(pending, x)
    ensures CheckWaits(pending + more, x)
  {
    var i :| 0 <= i < |pending| && pending[i].CheckRecovery? && pending[i].target == x;
    assert (pending + more)[i] == pending[i];
  }

  /** Queued or merged, a check for its target waits afterwards. */
  lemma QueuedWaits(s: State, s': State, entries: seq<Entry>, item: Item, merge: bool, x: Target)
    requires Queued(s, s', entries, item, merge) && item.CheckRecovery? && (x == item.target || CheckWaits(s.pending, x))
    ensures CheckWaits(s'.pending, x)
  {
    if merge && exists i :: 0 <= i < |s.pending| && IsAlike(s.pending[i], item) {
      var i :| 0 <= i < |s.pending| && IsAlike(s.pending[i], item);
      assert s.pending[i].CheckRecovery? && s.pending[i].target == item.target;
    } else if x == item.target {
      assert s'.pending[|s.pending|] == item;
    } else {
      StillWaits(s.pending, [item], x);
    }
  }

  /** All checks but the taken one are still there. */
  lemma OthersWait(s: State, i: nat, x: Target)
    requires i < |s.pending| && CheckWaits(s.pending, x)
    ensures CheckWaits(Take(s, i).pending, x) || (s.pending[i].CheckRecovery? && s.pending[i].target == x)
  {
    var j :| 0 <= j < |s.pending| && s.pending[j].CheckRecovery? && s.pending[j].target == x;
    var rest := Take(s, i).pending;
    if j < i {
      assert rest[j] == s.pending[j];
    } else if j > i {
      assert rest[j - 1] == s.pending[j];
    }
  }

  /** What the work on an item logs, and that no check is lost by it. */
  lemma WorkKeepsChecks(s: State, s': State, item: Item, answer: Answer, debugging: bool, merge: bool) returns (more: seq<Entry>)
    requires WorkEffect(s, s', item, answer, debugging, merge)
    ensures s'.log == s.log + more && forall j :: 0 <= j < |more| ==> !more[j].Started?
    ensures forall x :: CheckWaits(s.pending, x) || (item.CheckRecovery? && item.target == x) ==> CheckWaits(s'.pending, x) || EndsAfter(more, -1, x)
  {
    more := s'.log[|s.log|..];
    forall x | CheckWaits(s.pending, x) || (item.CheckRecovery? && item.target == x) ensures CheckWaits(s'.pending, x) || EndsAfter(more, -1, x) {
      WorkKeepsCheck(s, s', item, answer, debugging, merge, more, x);
    }
  }

  lemma WorkKeepsCheck(s: State, s': State, item: Item, answer: Answer, debugging: bool, merge: bool, more: seq<Entry>, x: Target)
    requires WorkEffect(s, s', item, answer, debugging, merge) && s'.log == s.log + more
    requires CheckWaits(s.pending, x) || (item.CheckRecovery? && item.target == x)
    ensures CheckWaits(s'.pending, x) || EndsAfter(more, -1, x)
  {
    if item.CheckRecovery? && answer.ApiError? {
      QueuedWaits(s, s', [], item, merge, x);
    } else if item.CheckRecovery? && answer.Found? && !answer.recovered && item.retryCount < item.maxRetries {
      QueuedWaits(s, s', [Checked(item.target, item.chain, answer)],
        CheckRecovery(item.target, item.minutes, item.retryCount + 1, item.maxRetries, item.chain), merge, x);
    } else if item.CheckRecovery? && x == item.target {
      assert more == s'.log[|s.log|..];
      assert IsOwnEnd(more[1]) && more[1].target == x;
    } else {
      assert s.pending <= s'.pending;
      assert s'.pending == s.pending + s'.pending[|s.pending|..];
      StillWaits(s.pending, s'.pending[|s.pending|..], x);
    }
  }

  lemma UpdateForgetsNothing(s: State, s': State, e: Event, debugging: bool)
    requires NothingForgotten(s) && e.Update? && UpdateEffect(s, s', e, debugging)
    ensures NothingForgotten(s')
  {
    var more := s'.log[|s.log|..];
    if Starts(e, e.target) && !Rejects(e, e.target) {
      var started := Started(e.target, s.next, e.after.duration.count);
      var item := CheckRecovery(e.target, e.after.duration.count, 0, 2, s.next);
      forall x | x == e.target || CheckWaits(s.pending, x) ensures CheckWaits(s'.pending, x) {
        QueuedWaits(s, s', [started], item, e.merge, x);
      }
      assert more == [started] || more == [started, Ended(e.target, s.next, Merged)];
    } else {
      AppendedKeepsChecks(s.pending, s'.pending);
    }
    StepForgetsNothing(s, s', more);
  }

  lemma AppendedKeepsChecks(pending: seq<Item>, pending': seq<Item>)
    requires pending <= pending'
    ensures forall x :: CheckWaits(pending, x) ==> CheckWaits(pending', x)
  {
    assert pending' == pending + pending'[|pending|..];
    forall x | CheckWaits(pending, x) ensures CheckWaits(pending', x) {
      StillWaits(pending, pending'[|pending|..], x);
    }
  }

  lemma WorkForgetsNothing(s: State, s': State, i: nat, answer: Answer, debugging: bool, merge: bool)
    requires NothingForgotten(s) && i < |s.pending| && WorkEffect(Take(s, i), s', s.pending[i], answer, debugging, merge)
    ensures NothingForgotten(s')
  {
    var more := WorkKeepsChecks(Take(s, i), s', s.pending[i], answer, debugging, merge);
    forall x | CheckWaits(s.pending, x) ensures CheckWaits(s'.pending, x) || EndsAfter(more, -1, x) {
      OthersWait(s, i, x);
    }
    StepForgetsNothing(s, s', more);
  }

  lemma NextForgetsNothing(s: State, e: Event, debugging: bool)
    requires Possible(s, e) && NothingForgotten(s)
    ensures NothingForgotten(Next(s, e, debugging))
  {
    var s' := Next(s, e, debugging);
    match e {
      case Update(_, _, _, _, _) =>
        UpdateMeans(s, e, debugging);
        UpdateForgetsNothing(s, s', e, debugging);
      case JobUpdate(namespace, before, after, merge) =>
        JobUpdateMeans(s, namespace, before, after, debugging, merge);
        AppendedKeepsChecks(s.pending, s'.pending);
        StepForgetsNothing(s, s', s'.log[|s.log|..]);
      case PodUpdate(pod, found, merge) =>
        PodUpdateMeans(s, pod, found, debugging, merge);
        AppendedKeepsChecks(s.pending, s'.pending);
        StepForgetsNothing(s, s', s'.log[|s.log|..]);
      case Work(i, answer, merge) =>
        WorkMeans(Take(s, i), s.pending[i], answer, debugging, merge);
        WorkForgetsNothing(s, s', i, answer, debugging, merge);
    }
  }

  /** In every run: a started experiment has a check waiting, or has ended since in a callback or
      because it is gone. */
  lemma {:induction false} NoStartIsForgotten(s: State, es: seq<Event>, debugging: bool)
    requires IsRun(s, es, debugging) && NothingForgotten(s)
    ensures NothingForgotten(Run(s, es, debugging))
    decreases |es|
  {
    if es != [] {
      NextForgetsNothing(s, es[0], debugging);
      NoStartIsForgotten(Next(s, es[0], debugging), es[1..], debugging);
    }
  }

  /** So once the queue is empty, every experiment that was started has ended since. */
  lemma QuiescenceMeansEnded(es: seq<Event>, debugging: bool, m: nat)
    requires IsRun(INITIAL, es, debugging) && Run(INITIAL, es, debugging).pending == []
    requires m < |Run(INITIAL, es, debugging).log| && Run(INITIAL, es, debugging).log[m].Started?
    ensures var log := Run(INITIAL, es, debugging).log;
      exists n :: m < n < |log| && log[n].Ended? && log[n].end != Merged && log[n].target == log[m].target
  {
    NoStartIsForgotten(INITIAL, es, debugging);
    var log := Run(INITIAL, es, debugging).log;
    var n :| 0 <= n < |log| && m < n && IsOwnEnd(log[n]) && log[n].target == log[m].target;
  }
}
