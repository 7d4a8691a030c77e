/** The gateway's methods on the Redis keys, updated in place, proved against the operations of
    `TaskQueueOperations`.  Replies of range queries are parameters that meet Redis's contract. */
module TaskQueueStore {
  import opened TaskQueue
  import opened TaskQueueOperations
  import opened Wrappers

  /** A list element: the JSON of a task, or text that is not. */
  datatype Item = Encoded(task: Task) | Raw(text: string)

  datatype Reply = Removed(count: nat) | ScriptError

  /** What the removal script writes over the elements it is going to remove. */
  const DELETED: Item := Raw("__DELETED__")

  predicate AllEncoded(items: seq<Item>) {
    forall i :: 0 <= i < |items| ==> items[i].Encoded?
  }

  function Tasks(items: seq<Item>): (tasks: seq<Task>)
    requires AllEncoded(items)
    ensures |tasks| == |items|
    ensures forall i :: 0 <= i < |items| ==> tasks[i] == items[i].task
  {
    seq(|items|, i requires 0 <= i < |items| => items[i].task)
  }

  function EncodeAll(tasks: seq<Task>): (items: seq<Item>)
    ensures |items| == |tasks|
    ensures forall i :: 0 <= i < |tasks| ==> items[i] == Encoded(tasks[i])
  {
    seq(|tasks|, i requires 0 <= i < |tasks| => Encoded(tasks[i]))
  }

  predicate Matches(item: Item, id: string) {
    item.Encoded? && item.task.id == id
  }

  function Count(items: seq<Item>, id: string): nat {
    if items == [] then 0 else (if Matches(items[0], id) then 1 else 0) + Count(items[1..], id)
  }

  /** The elements that do not match, in their order. */
  function Without(items: seq<Item>, id: string): seq<Item> {
    if items == [] then []
    else if Matches(items[0], id) then Without(items[1..], id)
    else [items[0]] + Without(items[1..], id)
  }

  /** The number of matches is the number of elements that go. */
  lemma {:induction false} MatchesAreCounted(items: seq<Item>, id: string)
    ensures |Without(items, id)| + Count(items, id) == |items|
    decreases |items|
  {
    if items != [] {
      MatchesAreCounted(items[1..], id);
    }
  }

  /** The elements with the marker over those that match. */
  function Marked(items: seq<Item>, id: string): (r: seq<Item>)
    ensures |r| == |items|
    ensures forall i :: 0 <= i < |items| ==> r[i] == if Matches(items[i], id) then DELETED else items[i]
  {
    seq(|items|, i requires 0 <= i < |items| => if Matches(items[i], id) then DELETED else items[i])
  }

  /** LREM with a positive count: the first `n` elements equal to `x` are removed. */
  function RemoveFirst(items: seq<Item>, n: nat, x: Item): seq<Item> {
    if items == [] || n == 0 then items
    else if items[0] == x then RemoveFirst(items[1..], n - 1, x)
    else [items[0]] + RemoveFirst(items[1..], n, x)
  }

  /** Marking and then removing as many markers as were set is filtering. */
  lemma {:induction false} MarkThenRemove(items: seq<Item>, id: string)
    requires AllEncoded(items)
    ensures RemoveFirst(Marked(items, id), Count(items, id), DELETED) == Without(items, id)
    ensures Count(items, id) == 0 ==> Without(items, id) == items
    decreases |items|
  {
    if items != [] {
      var rest := items[1..];
      MarkThenRemove(rest, id);
      MarkedNext(items, id);
      assert items == [items[0]] + rest;
      if Matches(items[0], id) {
        assert Count(items, id) == 1 + Count(rest, id);
      } else if Count(rest, id) == 0 {
        assert Marked(items, id) == [items[0]] + Marked(rest, id);
      }
    }
  }

  lemma MarkedNext(items: seq<Item>, id: string)
    requires items != []
    ensures Marked(items, id)[1..] == Marked(items[1..], id)
    ensures Marked(items, id)[0] == if Matches(items[0], id) then DELETED else items[0]
  {
  }

  lemma {:induction false} WithoutIsFilter(items: seq<Item>, id: string)
    requires AllEncoded(items)
    ensures AllEncoded(Without(items, id)) && Tasks(Without(items, id)) == Filter(Tasks(items), id)
    decreases |items|
  {
    if items != [] {
      WithoutIsFilter(items[1..], id);
      assert Tasks(items)[1..] == Tasks(items[1..]);
    }
  }

  /** The list while the script has looked at the first `k` elements. */
  function MarkedUpTo(items: seq<Item>, id: string, k: nat): seq<Item>
    requires k <= |items|
  {
    Marked(items[..k], id) + items[k..]
  }

  lemma MarkedUpToNone(items: seq<Item>, id: string)
    ensures MarkedUpTo(items, id, 0) == items
  {
  }

  /** Looking at one more element sees the original, never a marker. */
  lemma MarkNext(items: seq<Item>, id: string, k: nat)
    requires k < |items|
    ensures MarkedUpTo(items, id, k)[k] == items[k]
    ensures MarkedUpTo(items, id, k + 1)
         == if Matches(items[k], id) then MarkedUpTo(items, id, k)[k := DELETED] else MarkedUpTo(items, id, k)
  {
    var a, b := MarkedUpTo(items, id, k), MarkedUpTo(items, id, k + 1);
    assert forall i :: 0 <= i < |items| ==> b[i] == if i == k && Matches(items[k], id) then DELETED else a[i];
  }

  lemma AllMarked(items: seq<Item>, id: string)
    requires AllEncoded(items)
    ensures items[..|items|] == items
    ensures var list := MarkedUpTo(items, id, |items|);
            Without(items, id) == if Count(items, id) > 0 then RemoveFirst(list, Count(items, id), DELETED) else list
    ensures AllEncoded(Without(items, id)) && Tasks(Without(items, id)) == Filter(Tasks(items), id)
  {
    assert items[..|items|] == items;
    assert MarkedUpTo(items, id, |items|) == Marked(items, id);
    MarkThenRemove(items, id);
    WithoutIsFilter(items, id);
    if Count(items, id) == 0 {
      NoMatchNoMark(items, id);
    }
  }

  lemma {:induction false} CountNext(items: seq<Item>, id: string, i: nat)
    requires i < |items|
    ensures Count(items[..i + 1], id) == Count(items[..i], id) + if Matches(items[i], id) then 1 else 0
    decreases i
  {
    if i > 0 {
      assert items[..i + 1][1..] == items[1..][..i] && items[..i][1..] == items[1..][..i - 1];
      CountNext(items[1..], id, i - 1);
    }
  }

  /** The marking loop after `seen` elements, all of them tasks, of which `count` match. */
  ghost predicate IsMarking(before: seq<Item>, id: string, list: seq<Item>, seen: nat, count: nat) {
    && seen <= |list| == |before| && list == MarkedUpTo(before, id, seen) && count == Count(before[..seen], id)
    && forall j :: 0 <= j < seen ==> before[j].Encoded?
  }

  lemma MarkingNext(before: seq<Item>, id: string, list: seq<Item>, seen: nat, count: nat)
    requires IsMarking(before, id, list, seen, count) && seen < |list|
    ensures list[seen] == before[seen]
    ensures list[seen].Encoded? && list[seen].task.id == id ==> IsMarking(before, id, list[seen := DELETED], seen + 1, count + 1)
    ensures list[seen].Encoded? && list[seen].task.id != id ==> IsMarking(before, id, list, seen + 1, count)
  {
    CountNext(before, id, seen);
    MarkNext(before, id, seen);
  }

  class Gateway {
    var ready: seq<Item>
    var delayed: map<Task, int>
    var dead: map<Task, int>
    var unreadable: map<string, int> // the dead letters that are not tasks
    var index: map<string, Queue>

    /** Everything on the ready list is a task. */
    ghost predicate Clean()
      reads this
    {
      AllEncoded(ready)
    }

    ghost function View(): State
      requires Clean()
      reads this
    {
      State(Tasks(ready), delayed, dead, index)
    }

    method SubmitImmediateTask(task: Task)
      requires Clean()
      modifies this
      ensures Clean() && View() == Apply(old(View()), SubmitImmediate(task))
      ensures ready == [Encoded(task)] + old(ready) && index == old(index)[task.id := Ready]
      ensures delayed == old(delayed) && dead == old(dead) && unreadable == old(unreadable)
    {
      ready := [Encoded(task)] + ready;
      index := index[task.id := Ready];
    }

    method SubmitDelayedTask(task: Task)
      requires Clean()
      modifies this
      ensures Clean() && View() == Apply(old(View()), SubmitDelayed(task))
      ensures delayed == old(delayed)[task := task.executeTime] && index == old(index)[task.id := Delayed]
      ensures ready == old(ready) && dead == old(dead) && unreadable == old(unreadable)
    {
      delayed := delayed[task := task.executeTime];
      index := index[task.id := Delayed];
    }

    /** Failed data goes to the dead letters; unless it decodes as a task with an ID, it is not
        indexed, and no queue operation finds it. */
    method HandleFailedTask(data: Item, score: int)
      requires Clean()
      modifies this
      ensures Clean()
      ensures data.Encoded? && data.task.id != "" ==>
        View() == Apply(old(View()), HandleFailed(data.task, score)) && unreadable == old(unreadable)
      ensures data.Encoded? && data.task.id == "" ==>
        View() == Exec(old(View()), AddDead(data.task, score)) && unreadable == old(unreadable)
      ensures data.Raw? ==> View() == old(View()) && unreadable == old(unreadable)[data.text := score]
      ensures data.Encoded? ==> dead == old(dead)[data.task := score]
      ensures index == if data.Encoded? && data.task.id != "" then old(index)[data.task.id := Dead] else old(index)
      ensures ready == old(ready) && delayed == old(delayed)
    {
      if data.Encoded? {
        dead := dead[data.task := score];
      } else {
        unreadable := unreadable[data.text := score];
      }
      if data.Encoded? && data.task.id != "" {
        index := index[data.task.id := Dead];
      }
    }

    /** The oldest element, or nothing when the wait times out. */
    method PopTask() returns (r: Option<Item>)
      modifies this
      ensures r.None? <==> old(ready) == []
      ensures r.Some? ==> old(ready) == ready + [r.value]
      ensures r.None? ==> ready == old(ready)
      ensures delayed == old(delayed) && dead == old(dead) && index == old(index)
      ensures old(Clean()) ==> Clean() && View() == Apply(old(View()), GetTask)
    {
      if ready == [] {
        return None;
      }
      r := Some(ready[|ready| - 1]);
      ready := ready[..|ready| - 1];
      assert old(ready) == ready + [r.value];
      assert old(Clean()) ==> Tasks(ready) == Tasks(old(ready))[..|ready|];
    }

    /** Rescore the first member with the ID; `members` is the reply of the scan. */
    method ExpediteDelayedTask(id: string, time: int, members: seq<Task>) returns (found: bool, ghost member: Task)
      requires Clean() && IsRange(delayed, members)
      modifies this
      ensures Clean() && (found <==> id in Ids(old(delayed).Keys))
      ensures !found ==> View() == old(View())
      ensures found ==>
                member in old(delayed) && member.id == id &&
                (forall t :: t in old(delayed) && t.id == id ==> old(delayed)[member] <= old(delayed)[t]) &&
                View() == Apply(old(View()), Expedite(member, time))
      ensures found ==> delayed == (old(delayed) - {member})[Task(id, time, member.payload) := time]
      ensures found ==> index == old(index)[id := Delayed]
      ensures ready == old(ready) && dead == old(dead) && unreadable == old(unreadable)
    {
      member := Task(id, time, "");
      for i := 0 to |members|
        invariant unchanged(this)
        invariant forall j :: 0 <= j < i ==> members[j].id != id
      {
        if members[i].id == id {
          member := members[i];
          assert member in delayed;
          delayed := (delayed - {members[i]})[Updated(members[i], time) := time];
          index := index[id := Delayed];
          return true, member;
        }
      }
      found := false;
    }

    /** Move the due tasks to the ready list; `batch` is the reply of the script's range query. */
    method ProcessDelayedTasks(now: int, batch: seq<Task>) returns (result: seq<Task>)
      requires Clean() && IsRange(Due(delayed, now), batch)
      modifies this
      ensures Clean() && result == batch && View() == Apply(old(View()), ProcessDelayed(now, batch))
      ensures delayed == map t | t in old(delayed) && !(0 <= old(delayed)[t] <= now) :: old(delayed)[t]
      ensures ready == EncodeAll(Reverse(batch)) + old(ready) && dead == old(dead) && unreadable == old(unreadable)
      ensures forall id :: (id in index <==> id in old(index) || exists t :: t in batch && t.id == id)
      ensures forall id :: id in index ==> index[id] == if exists t :: t in batch && t.id == id then Ready else old(index)[id]
    {
      result := batch;
      if |batch| > 0 {
        delayed := delayed - Due(delayed, now).Keys;
        ready := EncodeAll(Reverse(batch)) + ready;
        for i := 0 to |batch|
          invariant index == IndexReady(old(index), batch[..i])
          invariant ready == EncodeAll(Reverse(batch)) + old(ready)
          invariant delayed == old(delayed) - Due(old(delayed), now).Keys && dead == old(dead) && unreadable == old(unreadable)
        {
          index := index[batch[i].id := Ready];
          IndexReadyNext(old(index), batch, i);
        }
        assert batch[..|batch|] == batch;
        TasksPushed(Reverse(batch), old(ready));
      } else {
        NothingDue(View(), now, batch);
      }
    }

    /** The script's loop: mark the matches in place, up to the first element that is not a
        task; `seen` elements were looked at. */
    method MarkMatches(id: string) returns (seen: nat, count: nat)
      modifies this`ready
      ensures seen <= |old(ready)| && ready == MarkedUpTo(old(ready), id, seen)
      ensures count == Count(old(ready)[..seen], id)
      ensures forall j :: 0 <= j < seen ==> old(ready)[j].Encoded?
      ensures seen < |old(ready)| ==> old(ready)[seen].Raw?
    {
      ghost var before := ready;
      MarkedUpToNone(before, id);
      seen, count := 0, 0;
      while seen < |ready|
        invariant IsMarking(before, id, ready, seen, count)
      {
        MarkingNext(before, id, ready, seen, count);
        if ready[seen].Raw? {
          return;
        }
        if ready[seen].task.id == id {
          ready := ready[seen := DELETED];
          count := count + 1;
        }
        seen := seen + 1;
      }
    }

    /** Remove every element with the ID: mark the matches, then remove the markers.  The script
        fails at the first element that is not a task, with the marks before it already set. */
    method RemoveFromList(id: string) returns (r: Reply)
      modifies this`ready
      ensures r.Removed? <==> AllEncoded(old(ready))
      ensures r.Removed? ==> ready == Without(old(ready), id) && r.count == Count(old(ready), id) == |old(ready)| - |ready|
      ensures r.Removed? ==> Clean() && View() == Apply(old(View()), TaskQueueOperations.RemoveFromList(id))
      ensures r.ScriptError? ==>
                exists k :: 0 <= k < |old(ready)| && old(ready)[k].Raw? && AllEncoded(old(ready)[..k]) &&
                            ready == MarkedUpTo(old(ready), id, k)
    {
      ghost var before := ready;
      MatchesAreCounted(before, id);
      var seen, count := MarkMatches(id);
      if seen < |ready| {
        assert AllEncoded(before[..seen]) && ready == MarkedUpTo(before, id, seen);
        return ScriptError;
      }
      AllMarked(before, id);
      if count > 0 {
        ready := RemoveFirst(ready, count, DELETED);
      }
      return Removed(count);
    }

    /** Remove the first member with the ID; `members` is the reply of the scan. */
    method RemoveFromZSet(queue: Queue, id: string, members: seq<Task>) returns (removed: bool, ghost member: Task)
      requires Clean() && queue != Ready && IsRange(if queue == Delayed then delayed else dead, members)
      modifies this
      ensures Clean()
      ensures removed <==> id in Ids((if queue == Delayed then old(delayed) else old(dead)).Keys)
      ensures !removed ==> View() == old(View())
      ensures removed ==>
                member.id == id && Allowed(old(View()), TaskQueueOperations.RemoveFromZSet(queue, member)) &&
                View() == Apply(old(View()), TaskQueueOperations.RemoveFromZSet(queue, member))
      ensures removed ==> delayed == (if queue == Delayed then old(delayed) - {member} else old(delayed))
      ensures removed ==> dead == (if queue == Dead then old(dead) - {member} else old(dead))
      ensures ready == old(ready) && index == old(index) && unreadable == old(unreadable)
    {
      member := Task(id, 0, "");
      for i := 0 to |members|
        invariant unchanged(this)
        invariant forall j :: 0 <= j < i ==> members[j].id != id
      {
        if members[i].id == id {
          member := members[i];
          assert members[i] in (if queue == Delayed then delayed else dead);
          if queue == Delayed {
            delayed := delayed - {members[i]};
          } else {
            dead := dead - {members[i]};
          }
          return true, member;
        }
      }
      removed := false;
    }

    method DeleteTaskIndex(id: string)
      requires Clean()
      modifies this
      ensures Clean() && View() == Apply(old(View()), DeleteIndex(id))
    {
      index := index - {id};
    }
  }

  lemma NothingDue(s: State, now: int, batch: seq<Task>)
    requires IsRange(Due(s.delayed, now), batch) && batch == []
    ensures Exec(s, Promote(now, batch)) == s
  {
    assert forall t :: t in Due(s.delayed, now) ==> t in batch;
    assert s.delayed - Due(s.delayed, now).Keys == s.delayed;
    assert Reverse(batch) + s.ready == s.ready;
    assert IndexReady(s.index, batch) == s.index;
  }

  lemma IndexReadyNext(index: map<string, Queue>, batch: seq<Task>, i: nat)
    requires i < |batch|
    ensures IndexReady(index, batch[..i + 1]) == IndexReady(index, batch[..i])[batch[i].id := Ready]
  {
    assert ListIds(batch[..i + 1]) == ListIds(batch[..i]) + {batch[i].id} by {
      assert batch[..i + 1] == batch[..i] + [batch[i]];
    }
  }

  lemma TasksPushed(tasks: seq<Task>, items: seq<Item>)
    requires AllEncoded(items)
    ensures AllEncoded(EncodeAll(tasks) + items)
    ensures Tasks(EncodeAll(tasks) + items) == tasks + Tasks(items)
  {
  }

  lemma {:induction false} NoMatchNoMark(items: seq<Item>, id: string)
    requires Count(items, id) == 0
    ensures Marked(items, id) == items
    decreases |items|
  {
    if items != [] {
      NoMatchNoMark(items[1..], id);
      assert Marked(items, id) == [items[0]] + Marked(items[1..], id);
    }
  }
}
