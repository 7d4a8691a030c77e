/** The Redis task queue: a ready list, a delayed and a dead-letter sorted set, and an index
    from task ID to queue.

    A state is changed by Redis commands, each atomic (a Lua script and a MULTI transaction
    count as one command).  A gateway method issues one or more of them, so that other
    clients' commands may fall in between. */
module TaskQueue {

  /** The decoded form of a queue entry. */
  datatype Task = Task(id: string, executeTime: int, payload: string)

  datatype Queue = Ready | Delayed | Dead

  /** Element 0 of `ready` is the head of the Redis list; a sorted set maps members to scores. */
  datatype State = State(
    ready: seq<Task>,
    delayed: map<Task, int>,
    dead: map<Task, int>,
    index: map<string, Queue>)

  const EMPTY := State([], map[], map[], map[])

  // ---------------------------------------------------------------------------
  // Commands
  // ---------------------------------------------------------------------------

  datatype Command =
    | PushReady(task: Task)                    // LPUSH
    | AddDelayed(task: Task)                   // ZADD, scored by the execute time
    | AddDead(task: Task, score: int)          // ZADD
    | SetIndex(id: string, queue: Queue)       // HSET
    | DropIndex(id: string)                    // HDEL
    | Pop                                      // BRPOP
    | Rescore(member: Task, time: int)         // the transaction of ExpediteDelayedTask
    | Promote(now: int, batch: seq<Task>)      // the script of ProcessDelayedTasks
    | RemoveReady(id: string)                  // the script of RemoveFromList
    | RemoveMember(queue: Queue, member: Task) // ZREM

  function Reverse<T>(s: seq<T>): (r: seq<T>)
    ensures |r| == |s|
    ensures forall i :: 0 <= i < |s| ==> r[i] == s[|s| - 1 - i]
  {
    seq(|s|, i requires 0 <= i < |s| => s[|s| - 1 - i])
  }

  function Filter(s: seq<Task>, id: string): seq<Task> {
    if s == [] then []
    else if s[0].id == id then Filter(s[1..], id)
    else [s[0]] + Filter(s[1..], id)
  }

  /** The members with a score from 0 to `now`. */
  function Due(z: map<Task, int>, now: int): map<Task, int> {
    map t | t in z && 0 <= z[t] <= now :: z[t]
  }

  /** `batch` lists the members of `z`, each once, by non-decreasing score. */
  ghost predicate IsRange(z: map<Task, int>, batch: seq<Task>) {
    && (forall t :: t in batch <==> t in z)
    && (forall i, j :: 0 <= i < j < |batch| ==> batch[i] != batch[j])
    && forall i, j :: 0 <= i < j < |batch| ==> z[batch[i]] <= z[batch[j]]
  }

  /** The index with every task of the batch moved to the ready queue. */
  function IndexReady(index: map<string, Queue>, batch: seq<Task>): map<string, Queue> {
    var moved := ListIds(batch);
    map id | id in index.Keys + moved :: if id in moved then Ready else index[id]
  }

  function Updated(member: Task, time: int): Task {
    member.(executeTime := time)
  }

  function Exec(s: State, c: Command): State {
    match c
    case PushReady(t) => s.(ready := [t] + s.ready)
    case AddDelayed(t) => s.(delayed := s.delayed[t := t.executeTime])
    case AddDead(t, score) => s.(dead := s.dead[t := score])
    case SetIndex(id, queue) => s.(index := s.index[id := queue])
    case DropIndex(id) => s.(index := s.index - {id})
    case Pop => if s.ready == [] then s else s.(ready := s.ready[..|s.ready| - 1])
    case Rescore(member, time) =>
      s.(delayed := (s.delayed - {member})[Updated(member, time) := time],
         index := s.index[member.id := Delayed])
    case Promote(now, batch) =>
      s.(delayed := s.delayed - Due(s.delayed, now).Keys,
         ready := Reverse(batch) + s.ready,
         index := IndexReady(s.index, batch))
    case RemoveReady(id) => s.(ready := Filter(s.ready, id))
    case RemoveMember(queue, member) =>
      match queue
      case Ready => s
      case Delayed => s.(delayed := s.delayed - {member})
      case Dead => s.(dead := s.dead - {member})
  }

  /** The batch of a promotion is what the script's ZRANGEBYSCORE returns. */
  ghost predicate Possible(s: State, c: Command) {
    c.Promote? ==> IsRange(Due(s.delayed, c.now), c.batch)
  }

  ghost predicate IsRun(s: State, cs: seq<Command>)
    decreases |cs|
  {
    cs == [] || (Possible(s, cs[0]) && IsRun(Exec(s, cs[0]), cs[1..]))
  }

  function Run(s: State, cs: seq<Command>): State
    decreases |cs|
  {
    if cs == [] then s else Run(Exec(s, cs[0]), cs[1..])
  }

  lemma RunOfThree(s: State, a: Command, b: Command, c: Command)
    ensures Run(s, [a, b, c]) == Exec(Exec(Exec(s, a), b), c)
    ensures IsRun(s, [a, b, c]) <==>
            Possible(s, a) && Possible(Exec(s, a), b) && Possible(Exec(Exec(s, a), b), c)
  {
    var s1, s2 := Exec(s, a), Exec(Exec(s, a), b);
    assert [a, b, c][1..] == [b, c] && [b, c][1..] == [c] && [c][1..] == [];
    var s3 := Exec(s2, c);
    assert Run(s3, []) == s3 && IsRun(s3, []);
    assert Run(s2, [c]) == Exec(s2, c) && (IsRun(s2, [c]) <==> Possible(s2, c));
    assert Run(s1, [b, c]) == Run(s2, [c]) && (IsRun(s1, [b, c]) <==> Possible(s1, b) && IsRun(s2, [c]));
  }

  // ---------------------------------------------------------------------------
  // Where a task is
  // ---------------------------------------------------------------------------

  function Ids(tasks: set<Task>): set<string> {
    set t | t in tasks :: t.id
  }

  function ListIds(tasks: seq<Task>): set<string> {
    set t | t in tasks :: t.id
  }

  /** The queued task IDs. */
  function Live(s: State): set<string> {
    var p := PlacesOf(s);
    p.ready + p.delayed + p.dead
  }

  lemma {:induction false} FilterKeepsOthers(s: seq<Task>, id: string)
    ensures forall t :: t in Filter(s, id) <==> t in s && t.id != id
    decreases |s|
  {
    if s != [] {
      FilterKeepsOthers(s[1..], id);
      assert s == [s[0]] + s[1..];
    }
  }

  lemma {:induction false} FilterKeepsDistinct(s: seq<Task>, id: string)
    requires DistinctIds(s)
    ensures DistinctIds(Filter(s, id))
    decreases |s|
  {
    if s != [] {
      FilterKeepsDistinct(s[1..], id);
      FilterKeepsOthers(s[1..], id);
    }
  }

  lemma IdsWith(z: map<Task, int>, t: Task, score: int)
    requires DistinctMembers(z)
    ensures Ids(z[t := score].Keys) == Ids(z.Keys) + {t.id}
    ensures DistinctMembers(z[t := score]) <==> t in z || t.id !in Ids(z.Keys)
  {
    if t.id in Ids(z.Keys) && t !in z {
      var u :| u in z && u.id == t.id;
      assert u in z[t := score] && t in z[t := score];
    }
  }

  lemma IdsWithout(z: map<Task, int>, t: Task)
    requires DistinctMembers(z)
    ensures Ids((z - {t}).Keys) == if t in z then Ids(z.Keys) - {t.id} else Ids(z.Keys)
    ensures DistinctMembers(z - {t})
  {
    if t !in z {
      assert z - {t} == z;
    }
  }

  lemma ListIdsConcat(a: seq<Task>, b: seq<Task>)
    ensures ListIds(a + b) == ListIds(a) + ListIds(b)
    ensures DistinctIds(a) && DistinctIds(b) && ListIds(a) !! ListIds(b) ==> DistinctIds(a + b)
    ensures DistinctIds(a + b) ==> DistinctIds(a) && ListIds(a) !! ListIds(b)
  {
    var c := a + b;
    forall i, j | 0 <= i < |a| && 0 <= j < |b|
      ensures DistinctIds(c) ==> a[i].id != b[j].id
      ensures ListIds(a) !! ListIds(b) ==> a[i].id != b[j].id
    {
      assert c[i] == a[i] && c[|a| + j] == b[j];
      assert a[i].id in ListIds(a) && b[j].id in ListIds(b);
    }
    forall i, j | 0 <= i < j < |a| ensures DistinctIds(c) ==> a[i].id != a[j].id {
      assert c[i] == a[i] && c[j] == a[j];
    }
  }

  lemma ListIdsReverse(a: seq<Task>)
    ensures ListIds(Reverse(a)) == ListIds(a)
    ensures DistinctIds(Reverse(a)) <==> DistinctIds(a)
  {
    var r := Reverse(a);
    forall t | t in a ensures t in r {
      var i :| 0 <= i < |a| && a[i] == t;
      assert r[|a| - 1 - i] == t;
    }
    if DistinctIds(r) {
      forall i, j | 0 <= i < j < |a| ensures a[i].id != a[j].id {
        assert a[i] == r[|a| - 1 - i] && a[j] == r[|a| - 1 - j];
      }
    }
  }

  // ---------------------------------------------------------------------------
  // The invariant of uninterrupted operations
  // ---------------------------------------------------------------------------

  ghost predicate DistinctIds(s: seq<Task>) {
    forall i, j :: 0 <= i < j < |s| ==> s[i].id != s[j].id
  }

  ghost predicate DistinctMembers(z: map<Task, int>) {
    forall t, u :: t in z && u in z && t.id == u.id ==> t == u
  }

  /** The IDs in each queue. */
  datatype Places = Places(ready: set<string>, delayed: set<string>, dead: set<string>)

  function PlacesOf(s: State): Places {
    Places(ListIds(s.ready), Ids(s.delayed.Keys), Ids(s.dead.Keys))
  }

  /** No ID is in two queues. */
  ghost predicate Apart(p: Places) {
    p.ready !! p.delayed !! p.dead
  }

  /** The index names the queue of every queued task; entries of other tasks may be stale. */
  ghost predicate Names(index: map<string, Queue>, p: Places) {
    forall id ::
      && (id in p.ready ==> id in index && index[id] == Ready)
      && (id in p.delayed ==> id in index && index[id] == Delayed)
      && (id in p.dead ==> id in index && index[id] == Dead)
  }

  /** Every task ID is in at most one queue, once. */
  ghost predicate Unique(s: State) {
    DistinctIds(s.ready) && DistinctMembers(s.delayed) && DistinctMembers(s.dead) && Apart(PlacesOf(s))
  }

  // ---------------------------------------------------------------------------
  // Single commands, from any client
  // ---------------------------------------------------------------------------

  /** The IDs in each queue after a command. */
  function Moved(s: State, c: Command): Places {
    var p := PlacesOf(s);
    match c
    case PushReady(t) => p.(ready := {t.id} + p.ready)
    case AddDelayed(t) => p.(delayed := p.delayed + {t.id})
    case AddDead(t, _) => p.(dead := p.dead + {t.id})
    case SetIndex(_, _) => p
    case DropIndex(_) => p
    case Pop => if s.ready == [] then p else p.(ready := p.ready - {s.ready[|s.ready| - 1].id})
    case Rescore(member, _) => p.(delayed := p.delayed + {member.id})
    case Promote(_, batch) => p.(ready := ListIds(batch) + p.ready, delayed := p.delayed - ListIds(batch))
    case RemoveReady(id) => p.(ready := p.ready - {id})
    case RemoveMember(queue, member) =>
      if queue == Delayed && member in s.delayed then p.(delayed := p.delayed - {member.id})
      else if queue == Dead && member in s.dead then p.(dead := p.dead - {member.id})
      else p
  }

  /** What a command must find so that no ID ends up queued twice. */
  ghost predicate Safe(s: State, c: Command) {
    match c
    case PushReady(t) => t.id !in Live(s)
    case AddDelayed(t) => t in s.delayed || t.id !in Live(s)
    case AddDead(t, _) => t in s.dead || t.id !in Live(s)
    case Rescore(member, time) =>
      member in s.delayed || Updated(member, time) in s.delayed || member.id !in Live(s)
    case _ => true
  }

  lemma PopPlaces(s: State)
    requires Unique(s)
    ensures PlacesOf(Exec(s, Pop)) == Moved(s, Pop) && DistinctIds(Exec(s, Pop).ready)
  {
    if s.ready != [] {
      var rest, last := s.ready[..|s.ready| - 1], s.ready[|s.ready| - 1];
      assert s.ready == rest + [last];
      ListIdsConcat(rest, [last]);
      assert ListIds([last]) == {last.id};
    }
  }

  /** The due members and the others. */
  lemma DueSplits(z: map<Task, int>, now: int, batch: seq<Task>)
    requires DistinctMembers(z) && IsRange(Due(z, now), batch)
    ensures var later := z - Due(z, now).Keys;
            Ids(later.Keys) == Ids(z.Keys) - ListIds(batch) && ListIds(batch) <= Ids(z.Keys) &&
            DistinctMembers(later) && DistinctIds(batch)
  {
  }

  lemma PromotePlaces(s: State, now: int, batch: seq<Task>)
    requires Unique(s) && IsRange(Due(s.delayed, now), batch)
    ensures PlacesOf(Exec(s, Promote(now, batch))) == Moved(s, Promote(now, batch))
    ensures Unique(Exec(s, Promote(now, batch)))
  {
    DueSplits(s.delayed, now, batch);
    ListIdsReverse(batch);
    ListIdsConcat(Reverse(batch), s.ready);
  }

  lemma RemoveReadyPlaces(s: State, id: string)
    requires Unique(s)
    ensures PlacesOf(Exec(s, RemoveReady(id))) == Moved(s, RemoveReady(id))
    ensures DistinctIds(Exec(s, RemoveReady(id)).ready)
  {
    FilterKeepsOthers(s.ready, id);
    FilterKeepsDistinct(s.ready, id);
    assert ListIds(Filter(s.ready, id)) == ListIds(s.ready) - {id};
  }

  lemma RemoveMemberPlaces(s: State, queue: Queue, member: Task)
    requires Unique(s)
    ensures PlacesOf(Exec(s, RemoveMember(queue, member))) == Moved(s, RemoveMember(queue, member))
    ensures Unique(Exec(s, RemoveMember(queue, member)))
  {
    if queue == Delayed {
      IdsWithout(s.delayed, member);
    } else if queue == Dead {
      IdsWithout(s.dead, member);
    }
  }

  lemma PushPlaces(s: State, t: Task)
    requires Unique(s)
    ensures PlacesOf(Exec(s, PushReady(t))) == Moved(s, PushReady(t))
    ensures Unique(Exec(s, PushReady(t))) <==> Safe(s, PushReady(t))
  {
    ListIdsConcat([t], s.ready);
    assert ListIds([t]) == {t.id};
  }

  lemma AddPlaces(s: State, t: Task, score: int)
    requires Unique(s)
    ensures PlacesOf(Exec(s, AddDelayed(t))) == Moved(s, AddDelayed(t))
    ensures Unique(Exec(s, AddDelayed(t))) <==> Safe(s, AddDelayed(t))
    ensures PlacesOf(Exec(s, AddDead(t, score))) == Moved(s, AddDead(t, score))
    ensures Unique(Exec(s, AddDead(t, score))) <==> Safe(s, AddDead(t, score))
  {
    IdsWith(s.delayed, t, t.executeTime);
    IdsWith(s.dead, t, score);
  }

  lemma RescorePlaces(s: State, member: Task, time: int)
    requires Unique(s)
    ensures PlacesOf(Exec(s, Rescore(member, time))) == Moved(s, Rescore(member, time))
    ensures Unique(Exec(s, Rescore(member, time))) <==> Safe(s, Rescore(member, time))
  {
    IdsWithout(s.delayed, member);
    IdsWith(s.delayed - {member}, Updated(member, time), time);
  }

  /** Exactly the safe commands keep every ID in at most one queue. */
  lemma UniqueExactlyIfSafe(s: State, c: Command)
    requires Unique(s) && Possible(s, c)
    ensures PlacesOf(Exec(s, c)) == Moved(s, c)
    ensures Unique(Exec(s, c)) <==> Safe(s, c)
  {
    match c
    case PushReady(t) => PushPlaces(s, t);
    case AddDelayed(t) => AddPlaces(s, t, 0);
    case AddDead(t, score) => AddPlaces(s, t, score);
    case SetIndex(_, _) =>
    case DropIndex(_) =>
    case Pop => PopPlaces(s);
    case Rescore(member, time) => RescorePlaces(s, member, time);
    case Promote(now, batch) => PromotePlaces(s, now, batch);
    case RemoveReady(id) => RemoveReadyPlaces(s, id);
    case RemoveMember(queue, member) => RemoveMemberPlaces(s, queue, member);
  }

  /** Any interleaving of safe commands keeps every ID in at most one queue. */
  lemma {:induction false} SafeRunsStayUnique(s: State, cs: seq<Command>)
    requires Unique(s) && IsRun(s, cs)
    requires forall k :: 0 <= k < |cs| ==> Safe(Run(s, cs[..k]), cs[k])
    ensures Unique(Run(s, cs))
    decreases |cs|
  {
    if cs != [] {
      assert cs[..0] == [];
      assert Safe(Run(s, cs[..0]), cs[0]);
      UniqueExactlyIfSafe(s, cs[0]);
      forall k | 0 <= k < |cs[1..]| ensures Safe(Run(Exec(s, cs[0]), cs[1..][..k]), cs[1..][k]) {
        assert Safe(Run(s, cs[..k + 1]), cs[k + 1]);
        assert cs[..k + 1][1..] == cs[1..][..k];
      }
      SafeRunsStayUnique(Exec(s, cs[0]), cs[1..]);
    }
  }

  /** The command takes a task with this ID away. */
  ghost predicate Loses(s: State, c: Command, id: string) {
    match c
    case Pop => s.ready != [] && s.ready[|s.ready| - 1].id == id
    case RemoveReady(x) => x == id
    case RemoveMember(_, member) => member.id == id
    case _ => false
  }

  lemma ReadyTaskStays(s: State, c: Command, t: Task)
    requires t in s.ready && !Loses(s, c, t.id)
    ensures t in Exec(s, c).ready
  {
    match c
    case Pop => assert s.ready == s.ready[..|s.ready| - 1] + [s.ready[|s.ready| - 1]];
    case RemoveReady(x) => FilterKeepsOthers(s.ready, x);
    case _ =>
  }

  lemma DelayedTaskStays(s: State, c: Command, t: Task)
    requires t in s.delayed && Possible(s, c) && !Loses(s, c, t.id)
    ensures t in Exec(s, c).delayed || t in Exec(s, c).ready ||
            (c.Rescore? && c.member == t && Updated(t, c.time) in Exec(s, c).delayed)
  {
    if c.Promote? && t in c.batch {
      var i :| 0 <= i < |c.batch| && c.batch[i] == t;
      assert Exec(s, c).ready[|c.batch| - 1 - i] == t;
    }
  }

  lemma OnlyLosersLose(s: State, c: Command, id: string)
    requires id in Live(s) && Possible(s, c) && !Loses(s, c, id)
    ensures id in Live(Exec(s, c))
  {
    if t :| t in s.ready && t.id == id {
      ReadyTaskStays(s, c, t);
    } else if t :| t in s.delayed && t.id == id {
      DelayedTaskStays(s, c, t);
    } else {
      var t :| t in s.dead && t.id == id;
      assert t in Exec(s, c).dead;
    }
  }

  /** However the clients interleave, a queued task disappears only by being popped or removed. */
  lemma {:induction false} NoTaskIsLost(s: State, cs: seq<Command>, id: string)
    requires id in Live(s) && IsRun(s, cs)
    ensures id in Live(Run(s, cs)) || exists k :: 0 <= k < |cs| && Loses(Run(s, cs[..k]), cs[k], id)
    decreases |cs|
  {
    if cs != [] {
      assert cs[..0] == [];
      if Loses(s, cs[0], id) {
        assert Loses(Run(s, cs[..0]), cs[0], id);
      } else {
        OnlyLosersLose(s, cs[0], id);
        NoTaskIsLost(Exec(s, cs[0]), cs[1..], id);
        if k :| 0 <= k < |cs[1..]| && Loses(Run(Exec(s, cs[0]), cs[1..][..k]), cs[1..][k], id) {
          assert cs[..k + 1][1..] == cs[1..][..k];
          assert Loses(Run(s, cs[..k + 1]), cs[k + 1], id);
        }
      }
    }
  }

  // --- Bodies: everything of a task but its execute time

  predicate HasBody(t: Task, id: string, payload: string) {
    t.id == id && t.payload == payload
  }

  /** Some queued task has the ID and the payload. */
  ghost predicate Holds(s: State, id: string, payload: string) {
    || (exists t :: t in s.ready && HasBody(t, id, payload))
    || (exists t :: t in s.delayed && HasBody(t, id, payload))
    || (exists t :: t in s.dead && HasBody(t, id, payload))
  }

  /** The command takes a task with this body away: a pop, or an explicit removal. */
  ghost predicate LosesBody(s: State, c: Command, id: string, payload: string) {
    match c
    case Pop => s.ready != [] && HasBody(s.ready[|s.ready| - 1], id, payload)
    case RemoveReady(x) => x == id
    case RemoveMember(_, member) => HasBody(member, id, payload)
    case _ => false
  }

  /** The command names a task with this body: a submission, or the member that an expedite read. */
  predicate BringsBody(c: Command, id: string, payload: string) {
    match c
    case PushReady(t) => HasBody(t, id, payload)
    case AddDelayed(t) => HasBody(t, id, payload)
    case AddDead(t, _) => HasBody(t, id, payload)
    case Rescore(member, _) => HasBody(member, id, payload)
    case _ => false
  }

  lemma ReadyBodyStays(s: State, c: Command, t: Task)
    requires t in s.ready && !LosesBody(s, c, t.id, t.payload)
    ensures t in Exec(s, c).ready
  {
    match c
    case Pop => assert s.ready == s.ready[..|s.ready| - 1] + [s.ready[|s.ready| - 1]];
    case RemoveReady(x) => FilterKeepsOthers(s.ready, x);
    case _ =>
  }

  lemma DelayedBodyStays(s: State, c: Command, t: Task)
    requires t in s.delayed && Possible(s, c) && !LosesBody(s, c, t.id, t.payload)
    ensures Holds(Exec(s, c), t.id, t.payload)
  {
    var s' := Exec(s, c);
    if c.Promote? && t in c.batch {
      var i :| 0 <= i < |c.batch| && c.batch[i] == t;
      assert s'.ready[|c.batch| - 1 - i] == t;
      assert t in s'.ready && HasBody(t, t.id, t.payload);
    } else if c.Rescore? && c.member == t {
      assert Updated(t, c.time) in s'.delayed && HasBody(Updated(t, c.time), t.id, t.payload);
    } else {
      assert t in s'.delayed;
    }
  }

  lemma BodyStays(s: State, c: Command, id: string, payload: string)
    requires Holds(s, id, payload) && Possible(s, c) && !LosesBody(s, c, id, payload)
    ensures Holds(Exec(s, c), id, payload)
  {
    if t :| t in s.ready && HasBody(t, id, payload) {
      ReadyBodyStays(s, c, t);
    } else if t :| t in s.delayed && HasBody(t, id, payload) {
      DelayedBodyStays(s, c, t);
    } else {
      var t :| t in s.dead && HasBody(t, id, payload);
      assert t in Exec(s, c).dead;
    }
  }

  lemma ReadyBodyWasThere(s: State, c: Command, t: Task)
    requires Possible(s, c) && t in Exec(s, c).ready && !BringsBody(c, t.id, t.payload)
    ensures Holds(s, t.id, t.payload)
  {
    match c {
      case Pop => assert forall u :: u in s.ready[..|s.ready| - 1] ==> u in s.ready;
      case RemoveReady(x) => FilterKeepsOthers(s.ready, x);
      case Promote(now, batch) =>
        if t !in s.ready {
          assert t in Reverse(batch);
          assert t in batch && t in Due(s.delayed, now);
        }
      case _ =>
    }
    assert t in s.ready || t in s.delayed;
  }

  lemma BodyWasThere(s: State, c: Command, id: string, payload: string)
    requires Possible(s, c) && Holds(Exec(s, c), id, payload) && !BringsBody(c, id, payload)
    ensures Holds(s, id, payload)
  {
    var s' := Exec(s, c);
    if t :| t in s'.ready && HasBody(t, id, payload) {
      ReadyBodyWasThere(s, c, t);
    } else if t :| t in s'.delayed && HasBody(t, id, payload) {
      assert t in s.delayed;
    } else {
      var t :| t in s'.dead && HasBody(t, id, payload);
      assert t in s.dead;
    }
  }

  /** However the clients interleave: an ID and its payload disappear only by a pop or an explicit
      removal, and appear only by a command that names them. */
  lemma {:induction false} BodiesAreKept(s: State, cs: seq<Command>, id: string, payload: string)
    requires IsRun(s, cs)
    ensures Holds(s, id, payload) && !Holds(Run(s, cs), id, payload) ==>
      exists k :: 0 <= k < |cs| && LosesBody(Run(s, cs[..k]), cs[k], id, payload)
    ensures !Holds(s, id, payload) && Holds(Run(s, cs), id, payload) ==>
      exists k :: 0 <= k < |cs| && BringsBody(cs[k], id, payload)
    decreases |cs|
  {
    if cs != [] {
      var s1, rest := Exec(s, cs[0]), cs[1..];
      BodiesAreKept(s1, rest, id, payload);
      assert Run(s, cs[..0]) == s;
      if Holds(s, id, payload) && !LosesBody(s, cs[0], id, payload) {
        BodyStays(s, cs[0], id, payload);
      }
      if Holds(s1, id, payload) && !BringsBody(cs[0], id, payload) {
        BodyWasThere(s, cs[0], id, payload);
      }
      if k :| 0 <= k < |rest| && LosesBody(Run(s1, rest[..k]), rest[k], id, payload) {
        assert cs[..k + 1][1..] == rest[..k];
        assert LosesBody(Run(s, cs[..k + 1]), cs[k + 1], id, payload);
      }
      if k :| 0 <= k < |rest| && BringsBody(rest[k], id, payload) {
        assert cs[k + 1] == rest[k];
      }
    }
  }
}
