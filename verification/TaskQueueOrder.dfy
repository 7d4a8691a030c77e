/** Order and promotion: the ready list is a FIFO queue, and a promotion moves exactly the due
    tasks, in the order of their execute times. */
module TaskQueueOrder {
  import opened TaskQueue

  /** The ready tasks, next to be popped first. */
  function Fifo(s: State): seq<Task> {
    Reverse(s.ready)
  }

  function PushedBy(c: Command): seq<Task> {
    match c
    case PushReady(t) => [t]
    case Promote(_, batch) => batch
    case _ => []
  }

  function PoppedBy(s: State, c: Command): seq<Task> {
    if c.Pop? && s.ready != [] then [s.ready[|s.ready| - 1]] else []
  }

  /** All the tasks pushed, and all the tasks popped, in the course of a run. */
  function Pushes(cs: seq<Command>): seq<Task> {
    if cs == [] then [] else PushedBy(cs[0]) + Pushes(cs[1..])
  }

  function Pops(s: State, cs: seq<Command>): seq<Task>
    decreases |cs|
  {
    if cs == [] then [] else PoppedBy(s, cs[0]) + Pops(Exec(s, cs[0]), cs[1..])
  }

  /** The tasks whose ID is not in `ids`. */
  function Drop(tasks: seq<Task>, ids: set<string>): seq<Task> {
    if tasks == [] then []
    else if tasks[0].id in ids then Drop(tasks[1..], ids)
    else [tasks[0]] + Drop(tasks[1..], ids)
  }

  lemma {:induction false} DropConcat(a: seq<Task>, b: seq<Task>, ids: set<string>)
    ensures Drop(a + b, ids) == Drop(a, ids) + Drop(b, ids)
    decreases |a|
  {
    if a == [] {
      assert a + b == b;
    } else {
      assert (a + b)[1..] == a[1..] + b;
      DropConcat(a[1..], b, ids);
    }
  }

  lemma {:induction false} DropNothing(a: seq<Task>)
    ensures Drop(a, {}) == a
    decreases |a|
  {
    if a != [] {
      DropNothing(a[1..]);
    }
  }

  lemma ReverseConcat(a: seq<Task>, b: seq<Task>)
    ensures Reverse(a + b) == Reverse(b) + Reverse(a)
    ensures Reverse(Reverse(a)) == a
  {
  }

  lemma ReverseLast(a: seq<Task>)
    requires a != []
    ensures Reverse(a) == [a[|a| - 1]] + Reverse(a[..|a| - 1])
  {
  }

  lemma ReverseFirst(a: seq<Task>)
    requires a != []
    ensures Reverse(a) == Reverse(a[1..]) + [a[0]]
  {
  }

  lemma {:induction false} DropReverse(a: seq<Task>, ids: set<string>)
    ensures Drop(Reverse(a), ids) == Reverse(Drop(a, ids))
    decreases |a|
  {
    if a != [] {
      var x, rest := [a[0]], a[1..];
      assert a == x + rest;
      DropReverse(rest, ids);
      DropConcat(Reverse(rest), x, ids);
      ReverseConcat(x, rest);
      ReverseConcat(Drop(x, ids), Drop(rest, ids));
      assert Reverse(x) == x && Drop(x, ids) == if a[0].id in ids then [] else x;
    }
  }

  lemma {:induction false} FilterThenDrop(a: seq<Task>, id: string, ids: set<string>)
    requires id in ids
    ensures Drop(Filter(a, id), ids) == Drop(a, ids)
    decreases |a|
  {
    if a != [] {
      FilterThenDrop(a[1..], id, ids);
    }
  }

  ghost predicate RemovesOnly(c: Command, ids: set<string>) {
    c.RemoveReady? ==> c.id in ids
  }

  lemma NothingAdded(a: seq<Task>)
    ensures a + [] == a && [] + a == a
  {
  }

  /** Pushing to the front of the list is appending to the queue. */
  lemma ReversePush(batch: seq<Task>, ready: seq<Task>)
    ensures Reverse(Reverse(batch) + ready) == Reverse(ready) + batch
    ensures |batch| == 1 ==> Reverse(batch) == batch
  {
    ReverseConcat(Reverse(batch), ready);
    ReverseConcat(batch, []);
  }

  lemma PopStep(s: State)
    ensures Fifo(s) == PoppedBy(s, Pop) + Fifo(Exec(s, Pop))
  {
    if s.ready == [] {
      NothingAdded(Fifo(s));
    } else {
      ReverseLast(s.ready);
    }
  }

  lemma OtherStep(s: State, c: Command)
    requires !c.RemoveReady? && !c.Pop? && PushedBy(c) == []
    ensures Fifo(Exec(s, c)) == Fifo(s)
  {
    if c.Promote? {
      assert Reverse(c.batch) == [];
      NothingAdded(s.ready);
    }
  }

  lemma PushStep(s: State, c: Command)
    requires PushedBy(c) != []
    ensures Fifo(s) + PushedBy(c) == Fifo(Exec(s, c))
  {
    ReversePush(PushedBy(c), s.ready);
  }

  /** Any command but a removal is a step of a FIFO queue. */
  lemma QueueStep(s: State, c: Command)
    requires !c.RemoveReady?
    ensures Fifo(s) + PushedBy(c) == PoppedBy(s, c) + Fifo(Exec(s, c))
  {
    NothingAdded(Fifo(s));
    NothingAdded(Fifo(Exec(s, c)));
    if c.Pop? {
      PopStep(s);
    } else if PushedBy(c) == [] {
      OtherStep(s, c);
    } else {
      PushStep(s, c);
    }
  }

  lemma FifoStep(s: State, c: Command, ids: set<string>)
    requires RemovesOnly(c, ids)
    ensures Drop(Fifo(s) + PushedBy(c), ids) == Drop(PoppedBy(s, c) + Fifo(Exec(s, c)), ids)
  {
    if c.RemoveReady? {
      var s' := Exec(s, c);
      FilterThenDrop(s.ready, c.id, ids);
      DropReverse(s.ready, ids);
      DropReverse(s'.ready, ids);
      assert Fifo(s) + [] == Fifo(s) && [] + Fifo(s') == Fifo(s');
    } else {
      QueueStep(s, c);
    }
  }

  /** Two stretches of a run, one after the other. */
  lemma Glue(before: seq<Task>, pushed: seq<Task>, popped: seq<Task>, between: seq<Task>,
             pushed': seq<Task>, popped': seq<Task>, after: seq<Task>, ids: set<string>)
    requires Drop(before + pushed, ids) == Drop(popped + between, ids)
    requires Drop(between + pushed', ids) == Drop(popped' + after, ids)
    ensures Drop(before + (pushed + pushed'), ids) == Drop((popped + popped') + after, ids)
  {
    DropConcat(before, pushed, ids);
    DropConcat(popped, between, ids);
    DropConcat(between, pushed', ids);
    DropConcat(popped', after, ids);
    DropConcat(pushed, pushed', ids);
    DropConcat(before, pushed + pushed', ids);
    DropConcat(popped, popped', ids);
    DropConcat(popped + popped', after, ids);
    GlueSeqs(Drop(before, ids), Drop(pushed, ids), Drop(popped, ids), Drop(between, ids),
             Drop(pushed', ids), Drop(popped', ids), Drop(after, ids));
  }

  lemma GlueSeqs(b: seq<Task>, p: seq<Task>, q: seq<Task>, m: seq<Task>, p': seq<Task>, q': seq<Task>, a: seq<Task>)
    requires b + p == q + m && m + p' == q' + a
    ensures b + (p + p') == (q + q') + a
  {
    calc {
      b + (p + p');
      (b + p) + p';
      (q + m) + p';
      q + (m + p');
      q + (q' + a);
      (q + q') + a;
    }
  }

  /** First in, first out: leaving aside the IDs that are ever removed, what was there and what
      is pushed comes out, or is still waiting, in the same order. */
  lemma {:induction false} ReadyListIsFifo(s: State, cs: seq<Command>, ids: set<string>)
    requires forall k :: 0 <= k < |cs| ==> RemovesOnly(cs[k], ids)
    ensures Drop(Fifo(s) + Pushes(cs), ids) == Drop(Pops(s, cs) + Fifo(Run(s, cs)), ids)
    decreases |cs|
  {
    if cs == [] {
      assert Fifo(s) + [] == [] + Fifo(s);
    } else {
      var c, rest, s' := cs[0], cs[1..], Exec(s, cs[0]);
      FifoStep(s, c, ids);
      ReadyListIsFifo(s', rest, ids);
      Glue(Fifo(s), PushedBy(c), PoppedBy(s, c), Fifo(s'), Pushes(rest), Pops(s', rest), Fifo(Run(s', rest)), ids);
    }
  }

  /** When nothing is removed, the popped tasks are a prefix of the tasks pushed. */
  lemma PopsArePrefixOfPushes(cs: seq<Command>)
    requires forall k :: 0 <= k < |cs| ==> !cs[k].RemoveReady?
    ensures Pops(EMPTY, cs) <= Pushes(cs)
    ensures Pushes(cs) == Pops(EMPTY, cs) + Fifo(Run(EMPTY, cs))
  {
    ReadyListIsFifo(EMPTY, cs, {});
    assert Fifo(EMPTY) + Pushes(cs) == Pushes(cs);
    DropNothing(Pushes(cs));
    DropNothing(Pops(EMPTY, cs) + Fifo(Run(EMPTY, cs)));
  }

  // ---------------------------------------------------------------------------
  // Promotion
  // ---------------------------------------------------------------------------

  ghost function Contents(s: State): multiset<Task> {
    multiset(s.ready) + multiset(s.delayed.Keys) + multiset(s.dead.Keys)
  }

  lemma SplitMultiset(a: seq<Task>, r: seq<Task>)
    requires a != [] && multiset(r) == multiset(a[1..])
    ensures multiset(r + [a[0]]) == multiset(a)
  {
    assert a == [a[0]] + a[1..];
  }

  lemma {:induction false} ReverseMultiset(a: seq<Task>)
    ensures multiset(Reverse(a)) == multiset(a)
    decreases |a|
  {
    if a != [] {
      ReverseMultiset(a[1..]);
      ReverseFirst(a);
      SplitMultiset(a, Reverse(a[1..]));
    }
  }

  lemma {:induction false} DistinctListMultiset(a: seq<Task>, members: set<Task>)
    requires forall t :: t in a <==> t in members
    requires forall i, j :: 0 <= i < j < |a| ==> a[i] != a[j]
    ensures multiset(a) == multiset(members)
    decreases |a|
  {
    if a == [] {
      assert members == {};
    } else {
      var rest := members - {a[0]};
      assert a == [a[0]] + a[1..];
      forall t ensures t in a[1..] <==> t in rest {
        assert t in a <==> t == a[0] || t in a[1..];
      }
      DistinctListMultiset(a[1..], rest);
      assert members == rest + {a[0]};
    }
  }

  lemma SubsetMultiset(members: set<Task>, part: set<Task>)
    requires part <= members
    ensures multiset(members) == multiset(members - part) + multiset(part)
  {
  }

  lemma PromotionConserves(s: State, now: int, batch: seq<Task>)
    requires Possible(s, Promote(now, batch))
    ensures Contents(Exec(s, Promote(now, batch))) == Contents(s)
  {
    var due := Due(s.delayed, now).Keys;
    assert multiset(Reverse(batch)) == multiset(due) by {
      ReverseMultiset(batch);
      DistinctListMultiset(batch, due);
    }
    SubsetMultiset(s.delayed.Keys, due);
    assert (s.delayed - due).Keys == s.delayed.Keys - due;
  }

  /** A promotion moves exactly the tasks scored from 0 to `now`, to the end of the FIFO queue
      and by non-decreasing score, and neither loses nor adds a task. */
  lemma PromotionIsExact(s: State, now: int, batch: seq<Task>)
    requires Possible(s, Promote(now, batch))
    ensures var s' := Exec(s, Promote(now, batch));
            && (forall t :: t in s'.delayed <==> t in s.delayed && !(0 <= s.delayed[t] <= now))
            && (forall t :: t in s'.delayed ==> s'.delayed[t] == s.delayed[t])
            && (forall t :: t in batch <==> t in s.delayed && 0 <= s.delayed[t] <= now)
            && (forall i, j :: 0 <= i < j < |batch| ==> s.delayed[batch[i]] <= s.delayed[batch[j]])
            && Fifo(s') == Fifo(s) + batch
            && Contents(s') == Contents(s)
  {
    PromotionConserves(s, now, batch);
    ReverseConcat(Reverse(batch), s.ready);
    ReverseConcat(batch, []);
  }
}
