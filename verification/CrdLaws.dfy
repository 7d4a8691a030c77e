/** Which answer leads to which end of a chain, over every run. */
module CrdLaws {
  import opened CrdController
  import opened JobInformer
  import opened Wrappers

  /** The entry ends its chain in a callback, or because the object is gone. */
  predicate IsOwnEnd(e: Entry) {
    e.Ended? && e.end != Merged
  }

  /** The number of answers the chain has had up to entry `m`. */
  function AnswersUpTo(log: seq<Entry>, m: nat, k: nat): nat
    requires m < |log|
  {
    Count(log[..m + 1], ChecksOf(k))
  }

  /** The end that the answer at `m` calls for, if it calls for one: the object is gone; or it has
      recovered, or this is the third answer, and then there is a time range or not. */
  function Verdict(log: seq<Entry>, m: nat): Option<End>
    requires m < |log| && log[m].Checked?
  {
    match log[m].answer
    case ApiError => None
    case NotFound => Some(Gone)
    case Found(recovered, hasTimeRange) =>
      if recovered || AnswersUpTo(log, m, log[m].chain) == 3 then Some(if hasTimeRange then Success else NoTimeRange) else None
  }

  /** An answer is followed at once by the end it calls for, and by no end of the chain's own if it
      calls for none; and such an end only follows an answer. */
  ghost predicate LawAt(log: seq<Entry>, m: nat)
    requires m < |log|
  {
    && (log[m].Checked? && Verdict(log, m).Some? ==>
          m + 1 < |log| && log[m + 1] == Ended(log[m].target, log[m].chain, Verdict(log, m).value))
    && (log[m].Checked? && Verdict(log, m).None? ==> m + 1 < |log| ==> !IsOwnEnd(log[m + 1]))
    && (IsOwnEnd(log[m]) ==> m > 0 && log[m - 1].Checked? && log[m - 1].chain == log[m].chain)
  }

  ghost predicate IsLawful(log: seq<Entry>) {
    forall m :: 0 <= m < |log| ==> LawAt(log, m)
  }

  /** Law at an entry depends on the log up to the next entry only. */
  lemma LawStays(log: seq<Entry>, more: seq<Entry>, m: nat)
    requires m < |log| && LawAt(log, m)
    requires m + 1 < |log| || more == [] || !IsOwnEnd(more[0])
    ensures LawAt(log + more, m)
  {
    assert (log + more)[..m + 1] == log[..m + 1];
  }

  /** Entries that are neither answers nor ends of a chain's own. */
  lemma LawfulNext(log: seq<Entry>, e: Entry)
    requires IsLawful(log) && !e.Checked? && !IsOwnEnd(e)
    ensures IsLawful(log + [e])
  {
    forall m | 0 <= m < |log + [e]| ensures LawAt(log + [e], m) {
      if m < |log| {
        LawStays(log, [e], m);
      }
    }
  }

  /** An answer that calls for no end. */
  lemma LawfulAnswer(log: seq<Entry>, e: Entry)
    requires IsLawful(log) && e.Checked? && Verdict(log + [e], |log|).None?
    ensures IsLawful(log + [e])
  {
    forall m | 0 <= m < |log + [e]| ensures LawAt(log + [e], m) {
      if m < |log| {
        LawStays(log, [e], m);
      }
    }
  }

  /** An answer together with the end it calls for. */
  lemma LawfulEnd(log: seq<Entry>, e: Entry, end: Entry)
    requires IsLawful(log) && e.Checked? && Verdict(log + [e], |log|).Some?
    requires end == Ended(e.target, e.chain, Verdict(log + [e], |log|).value)
    ensures IsLawful(log + [e, end])
  {
    var all := log + [e, end];
    assert all[..|log| + 1] == (log + [e])[..|log| + 1];
    forall m | 0 <= m < |all| ensures LawAt(all, m) {
      if m < |log| {
        LawStays(log, [e, end], m);
      }
    }
  }

  /** The answer to a taken check is the one after `retryCount` others. */
  lemma AnswerNumber(s: State, item: Item, answer: Answer)
    requires item.CheckRecovery? && Balanced(s, item.chain, 1) && FitsChain(item, item.chain, Count(s.log, ChecksOf(item.chain)))
    ensures AnswersUpTo(s.log + [Checked(item.target, item.chain, answer)], |s.log|, item.chain) == item.retryCount + 1
    ensures item.retryCount <= item.maxRetries == 2
  {
    var e := Checked(item.target, item.chain, answer);
    assert (s.log + [e])[..|s.log| + 1] == s.log + [e];
    CountNext(s.log, e, ChecksOf(item.chain));
  }

  lemma QueuedLawful(s: State, s': State, item: Item, merge: bool)
    requires IsLawful(s.log) && Queued(s, s', [], item, merge)
    ensures IsLawful(s'.log)
  {
    assert s.log + [] == s.log;
    if item.CheckRecovery? {
      LawfulNext(s.log, Ended(item.target, item.chain, Merged));
    }
  }

  lemma QueuedAfterAnswer(s: State, s': State, e: Entry, item: Item, merge: bool)
    requires IsLawful(s.log + [e]) && Queued(s, s', [e], item, merge)
    ensures IsLawful(s'.log)
  {
    if item.CheckRecovery? {
      LawfulNext(s.log + [e], Ended(item.target, item.chain, Merged));
    }
    assert s.log + [e] + [] == s.log + [e];
  }

  lemma AnsweredLawful(s: State, s': State, item: Item, answer: Answer, debugging: bool, merge: bool)
    requires IsLawful(s.log) && item.CheckRecovery? && !answer.ApiError? && WorkEffect(s, s', item, answer, debugging, merge)
    requires Balanced(s, item.chain, 1) && FitsChain(item, item.chain, Count(s.log, ChecksOf(item.chain)))
    ensures IsLawful(s'.log)
  {
    var x, k, e := item.target, item.chain, Checked(item.target, item.chain, answer);
    AnswerNumber(s, item, answer);
    assert (s.log + [e])[|s.log|] == e;
    if answer.NotFound? {
      LawfulEnd(s.log, e, Ended(x, k, Gone));
    } else if answer.recovered || item.retryCount == 2 {
      LawfulEnd(s.log, e, Ended(x, k, if answer.hasTimeRange then Success else NoTimeRange));
    } else {
      LawfulAnswer(s.log, e);
      QueuedAfterAnswer(s, s', e, CheckRecovery(x, item.minutes, item.retryCount + 1, item.maxRetries, k), merge);
    }
  }

  lemma WorkLawful(s: State, s': State, item: Item, answer: Answer, debugging: bool, merge: bool)
    requires IsLawful(s.log) && WorkEffect(s, s', item, answer, debugging, merge)
    requires item.CheckRecovery? ==> Balanced(s, item.chain, 1) && FitsChain(item, item.chain, Count(s.log, ChecksOf(item.chain)))
    ensures IsLawful(s'.log)
  {
    if item.CheckRecovery? && answer.ApiError? {
      QueuedLawful(s, s', item, merge);
    } else if item.CheckRecovery? {
      AnsweredLawful(s, s', item, answer, debugging, merge);
    } else if item.Delete? {
      LawfulNext(s.log, Deleted(item.resource));
    }
  }

  lemma UpdateLawful(s: State, s': State, e: Event, debugging: bool)
    requires IsLawful(s.log) && e.Update? && UpdateEffect(s, s', e, debugging)
    ensures IsLawful(s'.log)
  {
    LawfulNext(s.log, Rejected(e.target));
    if Starts(e, e.target) {
      var started := Started(e.target, s.next, e.after.duration.count);
      LawfulNext(s.log, started);
      QueuedAfterAnswer(s, s', started, CheckRecovery(e.target, e.after.duration.count, 0, 2, s.next), e.merge);
    }
  }

  lemma JobUpdateLawful(s: State, s': State, namespace: string, before: Job, after: Job, debugging: bool)
    requires IsLawful(s.log) && JobUpdateEffect(s, s', namespace, before, after, debugging)
    ensures IsLawful(s'.log)
  {
    var failed, succeeded := JobFailed(namespace, after.name), JobSucceeded(namespace, after.name);
    LawfulNext(s.log, failed);
    LawfulNext(s.log, succeeded);
    LawfulNext(s.log + [failed], succeeded);
    assert s.log + [] == s.log && s.log + ([] + [succeeded]) == s.log + [succeeded];
    assert s.log + ([failed] + [succeeded]) == s.log + [failed] + [succeeded];
  }

  lemma StepLawful(s: State, e: Event, debugging: bool)
    requires Possible(s, e) && IsLawful(s.log) && forall k: nat :: Balanced(s, k, 0)
    ensures IsLawful(Next(s, e, debugging).log)
  {
    var s' := Next(s, e, debugging);
    match e {
      case Update(_, _, _, _, _) =>
        UpdateMeans(s, e, debugging);
        UpdateLawful(s, s', e, debugging);
      case JobUpdate(namespace, before, after, merge) =>
        JobUpdateMeans(s, namespace, before, after, debugging, merge);
        JobUpdateLawful(s, s', namespace, before, after, debugging);
      case PodUpdate(pod, found, merge) =>
        PodUpdateMeans(s, pod, found, debugging, merge);
        if name :| IsFirstJob(pod.owners, name) && s'.log == s.log + [PodReported(pod.namespace, name)] {
          LawfulNext(s.log, PodReported(pod.namespace, name));
        }
      case Work(i, answer, merge) =>
        var item := s.pending[i];
        WorkMeans(Take(s, i), item, answer, debugging, merge);
        if item.CheckRecovery? {
          TakeBalanced(s, i, item.chain);
        }
        WorkLawful(Take(s, i), s', item, answer, debugging, merge);
    }
  }

  /** In every run the answers decide: a chain ends in a callback exactly at a found answer that says
      recovered or is its third, successfully exactly if there is a time range; it ends as gone
      exactly at an answer that says so; and any other answer is followed by no such end. */
  lemma {:induction false} AnswersDecide(s: State, es: seq<Event>, debugging: bool)
    requires IsRun(s, es, debugging) && IsLawful(s.log) && forall k: nat :: Balanced(s, k, 0)
    ensures IsLawful(Run(s, es, debugging).log)
    decreases |es|
  {
    if es != [] {
      StepLawful(s, es[0], debugging);
      forall k: nat ensures Balanced(Next(s, es[0], debugging), k, 0) {
        StepBalanced(s, es[0], debugging, k);
      }
      AnswersDecide(Next(s, es[0], debugging), es[1..], debugging);
    }
  }

  /** The initial state meets all of this. */
  lemma InitiallyBalanced(k: nat)
    ensures Balanced(INITIAL, k, 0) && IsLawful(INITIAL.log)
  {
    CountNone(EndsOf(k));
    CountNone(ChecksOf(k));
  }

  // --- Nothing happens to a chain after its end

  predicate IsOf(e: Entry, k: nat) {
    (e.Checked? || e.Ended?) && e.chain == k
  }

  ghost predicate IsClosed(log: seq<Entry>) {
    forall n, m :: 0 <= n < m < |log| && log[n].Ended? ==> !IsOf(log[m], log[n].chain)
  }

  lemma NoEndsYet(log: seq<Entry>, k: nat, n: nat)
    requires Count(log, EndsOf(k)) == 0 && n < |log|
    ensures !(log[n].Ended? && log[n].chain == k)
  {
    assert n !in Positions(log, EndsOf(k));
  }

  lemma ClosedNext(log: seq<Entry>, e: Entry)
    requires IsClosed(log) && (e.Checked? || e.Ended? ==> Count(log, EndsOf(e.chain)) == 0)
    ensures IsClosed(log + [e])
  {
    var all := log + [e];
    forall n, m | 0 <= n < m < |all| && all[n].Ended? ensures !IsOf(all[m], all[n].chain) {
      if m == |log| && (e.Checked? || e.Ended?) {
        NoEndsYet(log, e.chain, n);
      }
    }
  }

  lemma ClosedPair(log: seq<Entry>, a: Entry, b: Entry)
    requires IsClosed(log) && a.Checked? && Count(log, EndsOf(a.chain)) == 0 && (b.Checked? || b.Ended? ==> b.chain == a.chain)
    ensures IsClosed(log + [a, b])
  {
    ClosedNext(log, a);
    CountNext(log, a, EndsOf(a.chain));
    ClosedNext(log + [a], b);
    assert log + [a] + [b] == log + [a, b];
  }

  lemma ClosedQueued(s: State, s': State, item: Item, merge: bool)
    requires IsClosed(s.log) && Queued(s, s', [], item, merge) && (item.CheckRecovery? ==> Count(s.log, EndsOf(item.chain)) == 0)
    ensures IsClosed(s'.log)
  {
    assert s.log + [] == s.log;
    if item.CheckRecovery? {
      ClosedNext(s.log, Ended(item.target, item.chain, Merged));
    }
  }

  lemma ClosedQueuedAfter(s: State, s': State, e: Entry, item: Item, merge: bool)
    requires IsClosed(s.log) && Queued(s, s', [e], item, merge) && item.CheckRecovery?
    requires Count(s.log, EndsOf(item.chain)) == 0 && (e.Started? || (e.Checked? && e.chain == item.chain))
    ensures IsClosed(s'.log)
  {
    ClosedNext(s.log, e);
    CountNext(s.log, e, EndsOf(item.chain));
    ClosedNext(s.log + [e], Ended(item.target, item.chain, Merged));
    assert s.log + [e] + [] == s.log + [e];
  }

  lemma WorkClosed(s: State, s': State, item: Item, answer: Answer, debugging: bool, merge: bool)
    requires IsClosed(s.log) && WorkEffect(s, s', item, answer, debugging, merge)
    requires item.CheckRecovery? ==> Count(s.log, EndsOf(item.chain)) == 0
    ensures IsClosed(s'.log)
  {
    if item.CheckRecovery? {
      var x, k, e := item.target, item.chain, Checked(item.target, item.chain, answer);
      match answer
      case ApiError => ClosedQueued(s, s', item, merge);
      case NotFound => ClosedPair(s.log, e, Ended(x, k, Gone));
      case Found(recovered, hasTimeRange) =>
        if !recovered && item.retryCount < item.maxRetries {
          ClosedQueuedAfter(s, s', e, CheckRecovery(x, item.minutes, item.retryCount + 1, item.maxRetries, k), merge);
        } else {
          ClosedPair(s.log, e, Ended(x, k, if hasTimeRange then Success else NoTimeRange));
        }
    } else if item.Delete? {
      ClosedNext(s.log, Deleted(item.resource));
    }
  }

  lemma UpdateClosed(s: State, s': State, e: Event, debugging: bool)
    requires IsClosed(s.log) && e.Update? && UpdateEffect(s, s', e, debugging) && Count(s.log, EndsOf(s.next)) == 0
    ensures IsClosed(s'.log)
  {
    ClosedNext(s.log, Rejected(e.target));
    if Starts(e, e.target) && !Rejects(e, e.target) {
      var minutes := e.after.duration.count;
      ClosedQueuedAfter(s, s', Started(e.target, s.next, minutes), CheckRecovery(e.target, minutes, 0, 2, s.next), e.merge);
    }
  }

  lemma JobUpdateClosed(s: State, s': State, namespace: string, before: Job, after: Job, debugging: bool)
    requires IsClosed(s.log) && JobUpdateEffect(s, s', namespace, before, after, debugging)
    ensures IsClosed(s'.log)
  {
    var failed, succeeded := JobFailed(namespace, after.name), JobSucceeded(namespace, after.name);
    ClosedNext(s.log, failed);
    ClosedNext(s.log, succeeded);
    ClosedNext(s.log + [failed], succeeded);
    assert s.log + [] == s.log && s.log + ([] + [succeeded]) == s.log + [succeeded];
    assert s.log + ([failed] + [succeeded]) == s.log + [failed] + [succeeded];
  }

  lemma StepClosed(s: State, e: Event, debugging: bool)
    requires Possible(s, e) && IsClosed(s.log) && forall k: nat :: Balanced(s, k, 0)
    ensures IsClosed(Next(s, e, debugging).log)
  {
    var s' := Next(s, e, debugging);
    match e {
      case Update(_, _, _, _, _) =>
        UpdateMeans(s, e, debugging);
        assert Balanced(s, s.next, 0);
        UpdateClosed(s, s', e, debugging);
      case JobUpdate(namespace, before, after, merge) =>
        JobUpdateMeans(s, namespace, before, after, debugging, merge);
        JobUpdateClosed(s, s', namespace, before, after, debugging);
      case PodUpdate(pod, found, merge) =>
        PodUpdateMeans(s, pod, found, debugging, merge);
        if name :| IsFirstJob(pod.owners, name) && s'.log == s.log + [PodReported(pod.namespace, name)] {
          ClosedNext(s.log, PodReported(pod.namespace, name));
        }
      case Work(i, answer, merge) =>
        var item := s.pending[i];
        WorkMeans(Take(s, i), item, answer, debugging, merge);
        if item.CheckRecovery? {
          TakeBalanced(s, i, item.chain);
        }
        WorkClosed(Take(s, i), s', item, answer, debugging, merge);
    }
  }

  lemma {:induction false} RunsStayClosed(s: State, es: seq<Event>, debugging: bool)
    requires IsRun(s, es, debugging) && IsClosed(s.log) && forall k: nat :: Balanced(s, k, 0)
    ensures IsClosed(Run(s, es, debugging).log)
    decreases |es|
  {
    if es != [] {
      StepClosed(s, es[0], debugging);
      forall k: nat ensures Balanced(Next(s, es[0], debugging), k, 0) {
        StepBalanced(s, es[0], debugging, k);
      }
      RunsStayClosed(Next(s, es[0], debugging), es[1..], debugging);
    }
  }

  /** In every run nothing happens to a chain after its end, and a chain whose answer calls for no end
      goes on: it is waiting, or it ended later. */
  lemma UnfinishedChainsGoOn(es: seq<Event>, debugging: bool, m: nat)
    requires IsRun(INITIAL, es, debugging) && m < |Run(INITIAL, es, debugging).log|
    ensures var s := Run(INITIAL, es, debugging);
      && IsLawful(s.log) && IsClosed(s.log)
      && (s.log[m].Checked? && Verdict(s.log, m).None? ==>
            Waits(s.pending, s.log[m].chain) == 1 || exists n :: m < n < |s.log| && s.log[n].Ended? && s.log[n].chain == s.log[m].chain)
  {
    var s := Run(INITIAL, es, debugging);
    forall k: nat ensures Balanced(INITIAL, k, 0) && IsLawful(INITIAL.log) {
      InitiallyBalanced(k);
    }
    AnswersDecide(INITIAL, es, debugging);
    RunsStayClosed(INITIAL, es, debugging);
    if s.log[m].Checked? {
      var k := s.log[m].chain;
      RunBalanced(INITIAL, es, debugging, k);
      assert m in Positions(s.log, ChecksOf(k));
      if Waits(s.pending, k) == 0 {
        var n :| n in Positions(s.log, EndsOf(k));
      }
    }
  }
}
