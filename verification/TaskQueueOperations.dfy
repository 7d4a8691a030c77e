/** Whole gateway operations on the task queue: the index invariant they keep when their
    commands run back to back, and the races that break it when they do not. */
module TaskQueueOperations {
  import opened TaskQueue

  ghost predicate IndexAccurate(s: State) {
    Names(s.index, PlacesOf(s))
  }

  ghost predicate ScoredByTime(s: State) {
    forall t :: t in s.delayed ==> s.delayed[t] == t.executeTime
  }

  ghost predicate Inv(s: State) {
    Unique(s) && IndexAccurate(s) && ScoredByTime(s)
  }

  /** A gateway operation whose commands run back to back. */
  datatype Operation =
    | SubmitImmediate(task: Task)
    | SubmitDelayed(task: Task)
    | HandleFailed(task: Task, score: int)
    | GetTask
    | Expedite(member: Task, time: int)
    | ProcessDelayed(now: int, batch: seq<Task>)
    | RemoveFromList(id: string)
    | RemoveFromZSet(queue: Queue, member: Task)
    | DeleteIndex(id: string)

  function Apply(s: State, op: Operation): State {
    match op
    case SubmitImmediate(t) => Exec(Exec(s, PushReady(t)), SetIndex(t.id, Ready))
    case SubmitDelayed(t) => Exec(Exec(s, AddDelayed(t)), SetIndex(t.id, Delayed))
    case HandleFailed(t, score) => Exec(Exec(s, AddDead(t, score)), SetIndex(t.id, Dead))
    case GetTask => Exec(s, Pop)
    case Expedite(member, time) => Exec(s, Rescore(member, time))
    case ProcessDelayed(now, batch) => Exec(s, Promote(now, batch))
    case RemoveFromList(id) => Exec(s, RemoveReady(id))
    case RemoveFromZSet(queue, member) => Exec(s, RemoveMember(queue, member))
    case DeleteIndex(id) => Exec(s, DropIndex(id))
  }

  /** A scan finds the member that the next command acts on, and the batch is what the script's
      range query returns. */
  ghost predicate Feasible(s: State, op: Operation) {
    match op
    case Expedite(member, _) => member in s.delayed
    case ProcessDelayed(now, batch) => Possible(s, Promote(now, batch))
    case RemoveFromZSet(queue, member) =>
      (queue == Delayed && member in s.delayed) || (queue == Dead && member in s.dead)
    case _ => true
  }

  /** A task is added only while its ID is not queued, or to a set that already holds it, and
      an index entry is deleted only while its ID is not queued. */
  ghost predicate Allowed(s: State, op: Operation) {
    Feasible(s, op) &&
    match op
    case SubmitImmediate(t) => t.id !in Live(s)
    case SubmitDelayed(t) => t in s.delayed || t.id !in Live(s)
    case HandleFailed(t, _) => t in s.dead || t.id !in Live(s)
    case DeleteIndex(id) => id !in Live(s)
    case _ => true
  }

  /** The IDs an operation adds to the queued ones, and those it takes away. */
  function Added(s: State, op: Operation): set<string> {
    if (op.SubmitImmediate? || op.SubmitDelayed? || op.HandleFailed?) && op.task.id !in Live(s) then {op.task.id} else {}
  }

  function Taken(s: State, op: Operation): set<string> {
    match op
    case GetTask => if s.ready == [] then {} else {s.ready[|s.ready| - 1].id}
    case RemoveFromList(id) => {id} * PlacesOf(s).ready
    case RemoveFromZSet(_, member) => {member.id}
    case _ => {}
  }

  lemma IndexReadyNames(index: map<string, Queue>, batch: seq<Task>, p: Places)
    requires Names(index, p) && Apart(p) && ListIds(batch) <= p.delayed
    ensures Names(IndexReady(index, batch),
                  p.(ready := ListIds(batch) + p.ready, delayed := p.delayed - ListIds(batch)))
  {
  }

  /** The operation keeps the invariant, and changes the queued IDs by exactly what it adds
      and takes. */
  ghost predicate Kept(s: State, op: Operation) {
    Inv(Apply(s, op)) && Live(Apply(s, op)) == Live(s) + Added(s, op) - Taken(s, op)
  }

  lemma NamesAdded(index: map<string, Queue>, p: Places, id: string)
    requires Names(index, p) && id !in p.ready + p.delayed + p.dead
    ensures Names(index[id := Ready], p.(ready := {id} + p.ready))
    ensures Names(index[id := Delayed], p.(delayed := p.delayed + {id}))
    ensures Names(index[id := Dead], p.(dead := p.dead + {id}))
  {
  }

  lemma SubmitImmediateKeeps(s: State, t: Task)
    requires Inv(s) && t.id !in Live(s)
    ensures Kept(s, SubmitImmediate(t))
  {
    NamesAdded(s.index, PlacesOf(s), t.id);
    PushPlaces(s, t);
  }

  lemma SubmitDelayedKeeps(s: State, t: Task)
    requires Inv(s) && t.id !in Live(s)
    ensures Kept(s, SubmitDelayed(t))
  {
    NamesAdded(s.index, PlacesOf(s), t.id);
    AddPlaces(s, t, 0);
  }

  lemma HandleFailedKeeps(s: State, t: Task, score: int)
    requires Inv(s) && t.id !in Live(s)
    ensures Kept(s, HandleFailed(t, score))
  {
    NamesAdded(s.index, PlacesOf(s), t.id);
    AddPlaces(s, t, score);
  }

  lemma SubmitDelayedAgainKeeps(s: State, t: Task)
    requires Inv(s) && t in s.delayed
    ensures Kept(s, SubmitDelayed(t))
  {
    AddPlaces(s, t, 0);
    assert t.id in PlacesOf(s).delayed;
    AlreadyThere(s.index, PlacesOf(s), t.id);
    assert PlacesOf(Apply(s, SubmitDelayed(t))) == PlacesOf(s);
  }

  lemma HandleFailedAgainKeeps(s: State, t: Task, score: int)
    requires Inv(s) && t in s.dead
    ensures Kept(s, HandleFailed(t, score))
  {
    AddPlaces(s, t, score);
    assert t.id in PlacesOf(s).dead;
    AlreadyThere(s.index, PlacesOf(s), t.id);
    assert PlacesOf(Apply(s, HandleFailed(t, score))) == PlacesOf(s);
  }

  lemma AlreadyThere(index: map<string, Queue>, p: Places, id: string)
    requires Names(index, p) && Apart(p)
    ensures id in p.delayed ==> p.delayed + {id} == p.delayed && Names(index[id := Delayed], p)
    ensures id in p.dead ==> p.dead + {id} == p.dead && Names(index[id := Dead], p)
  {
  }

  lemma ExpediteKeeps(s: State, member: Task, time: int)
    requires Inv(s) && member in s.delayed
    ensures Kept(s, Expedite(member, time))
  {
    var p, s' := PlacesOf(s), Apply(s, Expedite(member, time));
    assert member.id in p.delayed;
    RescorePlaces(s, member, time);
    assert PlacesOf(s') == p by {
      assert p.delayed + {member.id} == p.delayed;
    }
    assert Names(s'.index, p);
  }

  lemma ProcessDelayedKeeps(s: State, now: int, batch: seq<Task>)
    requires Inv(s) && Possible(s, Promote(now, batch))
    ensures Kept(s, ProcessDelayed(now, batch))
  {
    DueSplits(s.delayed, now, batch);
    PromotePlaces(s, now, batch);
    IndexReadyNames(s.index, batch, PlacesOf(s));
  }

  lemma GetTaskKeeps(s: State)
    requires Inv(s)
    ensures Kept(s, GetTask)
  {
    PopPlaces(s);
    if s.ready != [] {
      assert s.ready[|s.ready| - 1].id in PlacesOf(s).ready;
    }
  }

  lemma RemoveFromListKeeps(s: State, id: string)
    requires Inv(s)
    ensures Kept(s, RemoveFromList(id))
  {
    RemoveReadyPlaces(s, id);
  }

  lemma RemoveFromZSetKeeps(s: State, queue: Queue, member: Task)
    requires Inv(s) && Allowed(s, RemoveFromZSet(queue, member))
    ensures Kept(s, RemoveFromZSet(queue, member))
  {
    RemoveMemberPlaces(s, queue, member);
    if queue == Delayed {
      assert member.id in PlacesOf(s).delayed;
    } else {
      assert member.id in PlacesOf(s).dead;
    }
  }

  lemma DeleteIndexKeeps(s: State, id: string)
    requires Inv(s) && id !in Live(s)
    ensures Kept(s, DeleteIndex(id))
  {
    assert PlacesOf(Apply(s, DeleteIndex(id))) == PlacesOf(s);
  }

  /** Every allowed operation keeps the invariant and accounts for every queued ID. */
  lemma OperationKeeps(s: State, op: Operation)
    requires Inv(s) && Allowed(s, op)
    ensures Kept(s, op)
  {
    match op
    case SubmitImmediate(t) => SubmitImmediateKeeps(s, t);
    case SubmitDelayed(t) =>
      if t in s.delayed {
        SubmitDelayedAgainKeeps(s, t);
      } else {
        SubmitDelayedKeeps(s, t);
      }
    case HandleFailed(t, score) =>
      if t in s.dead {
        HandleFailedAgainKeeps(s, t, score);
      } else {
        HandleFailedKeeps(s, t, score);
      }
    case GetTask => GetTaskKeeps(s);
    case Expedite(member, time) => ExpediteKeeps(s, member, time);
    case ProcessDelayed(now, batch) => ProcessDelayedKeeps(s, now, batch);
    case RemoveFromList(id) => RemoveFromListKeeps(s, id);
    case RemoveFromZSet(queue, member) => RemoveFromZSetKeeps(s, queue, member);
    case DeleteIndex(id) => DeleteIndexKeeps(s, id);
  }

  lemma IndexDoesNotMatter(s: State, id: string, queue: Queue)
    ensures Unique(Exec(s, SetIndex(id, queue))) <==> Unique(s)
  {
    assert PlacesOf(Exec(s, SetIndex(id, queue))) == PlacesOf(s);
  }

  lemma DoubleSubmissionBreaksInv(s: State, op: Operation)
    requires Inv(s) && !Allowed(s, op) && (op.SubmitImmediate? || op.SubmitDelayed? || op.HandleFailed?)
    ensures !Unique(Apply(s, op))
  {
    var t := op.task;
    match op
    case SubmitImmediate(_) =>
      PushPlaces(s, t);
      IndexDoesNotMatter(Exec(s, PushReady(t)), t.id, Ready);
    case SubmitDelayed(_) =>
      AddPlaces(s, t, 0);
      IndexDoesNotMatter(Exec(s, AddDelayed(t)), t.id, Delayed);
    case HandleFailed(_, score) =>
      AddPlaces(s, t, score);
      IndexDoesNotMatter(Exec(s, AddDead(t, score)), t.id, Dead);
  }

  lemma DeletedEntryBreaksInv(s: State, id: string)
    requires id in Live(s)
    ensures !IndexAccurate(Apply(s, DeleteIndex(id)))
  {
    assert PlacesOf(Apply(s, DeleteIndex(id))) == PlacesOf(s);
  }

  /** A feasible operation keeps the invariant exactly if it is allowed. */
  lemma InvExactlyIfAllowed(s: State, op: Operation)
    requires Inv(s) && Feasible(s, op)
    ensures Inv(Apply(s, op)) <==> Allowed(s, op)
  {
    if Allowed(s, op) {
      OperationKeeps(s, op);
    } else if op.DeleteIndex? {
      DeletedEntryBreaksInv(s, op.id);
    } else {
      DoubleSubmissionBreaksInv(s, op);
    }
  }

  ghost predicate IsFeasibleRun(s: State, ops: seq<Operation>)
    decreases |ops|
  {
    ops == [] || (Feasible(s, ops[0]) && IsFeasibleRun(Apply(s, ops[0]), ops[1..]))
  }

  /** Every operation of the run is allowed where it happens. */
  ghost predicate IsAllowedRun(s: State, ops: seq<Operation>)
    decreases |ops|
  {
    ops == [] || (Allowed(s, ops[0]) && IsAllowedRun(Apply(s, ops[0]), ops[1..]))
  }

  function ApplyAll(s: State, ops: seq<Operation>): State
    decreases |ops|
  {
    if ops == [] then s else ApplyAll(Apply(s, ops[0]), ops[1..])
  }

  /** The invariant holds all along the run. */
  ghost predicate InvThroughout(s: State, ops: seq<Operation>)
    decreases |ops|
  {
    Inv(s) && (ops != [] ==> InvThroughout(Apply(s, ops[0]), ops[1..]))
  }

  /** All along a run each ID is in at most one queue, once, and the index names that queue,
      exactly if every operation of the run is allowed. */
  lemma {:induction false} RunsKeepInv(s: State, ops: seq<Operation>)
    requires Inv(s) && IsFeasibleRun(s, ops)
    ensures InvThroughout(s, ops) <==> IsAllowedRun(s, ops)
    ensures IsAllowedRun(s, ops) ==> Inv(ApplyAll(s, ops))
    decreases |ops|
  {
    if ops != [] {
      InvExactlyIfAllowed(s, ops[0]);
      if Inv(Apply(s, ops[0])) {
        RunsKeepInv(Apply(s, ops[0]), ops[1..]);
      }
    }
  }

  // ---------------------------------------------------------------------------
  // Conservation
  // ---------------------------------------------------------------------------

  function One(b: bool): nat {
    if b then 1 else 0
  }

  function ListCopies(s: seq<Task>, id: string): nat {
    if s == [] then 0 else One(s[0].id == id) + ListCopies(s[1..], id)
  }

  /** The members with the ID. */
  function With(members: set<Task>, id: string): set<Task> {
    set t | t in members && t.id == id
  }

  /** How many queued elements carry the ID. */
  function Copies(s: State, id: string): nat {
    ListCopies(s.ready, id) + |With(s.delayed.Keys, id)| + |With(s.dead.Keys, id)|
  }

  lemma {:induction false} ListCopiesConcat(a: seq<Task>, b: seq<Task>, id: string)
    ensures ListCopies(a + b, id) == ListCopies(a, id) + ListCopies(b, id)
    decreases |a|
  {
    if a == [] {
      assert a + b == b;
    } else {
      assert (a + b)[1..] == a[1..] + b;
      ListCopiesConcat(a[1..], b, id);
    }
  }

  lemma {:induction false} ListCopiesReverse(a: seq<Task>, id: string)
    ensures ListCopies(Reverse(a), id) == ListCopies(a, id)
    decreases |a|
  {
    if a != [] {
      assert Reverse(a) == Reverse(a[1..]) + [a[0]];
      ListCopiesConcat(Reverse(a[1..]), [a[0]], id);
      ListCopiesReverse(a[1..], id);
    }
  }

  lemma {:induction false} ListCopiesFilter(a: seq<Task>, removed: string, id: string)
    ensures ListCopies(Filter(a, removed), id) == if id == removed then 0 else ListCopies(a, id)
    decreases |a|
  {
    if a != [] {
      ListCopiesFilter(a[1..], removed, id);
    }
  }

  lemma WithAdded(members: set<Task>, t: Task, id: string)
    ensures |With(members + {t}, id)| == |With(members, id)| + One(t !in members && t.id == id)
  {
    assert t in members ==> members + {t} == members;
    assert With(members + {t}, id) == if t.id == id then With(members, id) + {t} else With(members, id);
  }

  lemma WithRemoved(members: set<Task>, t: Task, id: string)
    ensures |With(members, id)| == |With(members - {t}, id)| + One(t in members && t.id == id)
  {
    assert With(members, id) == if t in members && t.id == id then With(members - {t}, id) + {t} else With(members - {t}, id);
  }

  lemma {:induction false} WithListed(members: set<Task>, batch: seq<Task>, id: string)
    requires forall t :: t in batch ==> t in members
    requires forall i, j :: 0 <= i < j < |batch| ==> batch[i] != batch[j]
    ensures |With(members, id)| == |With(members - (set t | t in batch), id)| + ListCopies(batch, id)
    decreases |batch|
  {
    if batch == [] {
      assert members - (set t | t in batch) == members;
    } else {
      var t, rest := batch[0], members - {batch[0]};
      WithRemoved(members, t, id);
      WithListed(rest, batch[1..], id);
      assert batch == [t] + batch[1..];
      assert members - (set u | u in batch) == rest - (set u | u in batch[1..]);
    }
  }

  /** How many copies of the ID an operation brings, and how many it takes away. */
  function Arrivals(s: State, op: Operation, id: string): nat {
    match op
    case SubmitImmediate(t) => One(t.id == id)
    case SubmitDelayed(t) => One(t.id == id && t !in s.delayed)
    case HandleFailed(t, _) => One(t.id == id && t !in s.dead)
    case _ => 0
  }

  function Departures(s: State, op: Operation, id: string): nat {
    match op
    case GetTask => One(s.ready != [] && s.ready[|s.ready| - 1].id == id)
    case RemoveFromList(removed) => if removed == id then ListCopies(s.ready, id) else 0
    case RemoveFromZSet(_, member) => One(member.id == id)
    case Expedite(member, time) => One(member.id == id && member != Updated(member, time) && Updated(member, time) in s.delayed)
    case _ => 0
  }

  lemma ExpediteConserves(s: State, member: Task, time: int, id: string)
    requires member in s.delayed
    ensures Copies(Apply(s, Expedite(member, time)), id) + Departures(s, Expedite(member, time), id) == Copies(s, id)
  {
    var s', members := Apply(s, Expedite(member, time)), s.delayed.Keys;
    assert s'.delayed.Keys == members - {member} + {Updated(member, time)};
    WithRemoved(members, member, id);
    WithAdded(members - {member}, Updated(member, time), id);
  }

  lemma ProcessDelayedConserves(s: State, now: int, batch: seq<Task>, id: string)
    requires Possible(s, Promote(now, batch))
    ensures Copies(Apply(s, ProcessDelayed(now, batch)), id) == Copies(s, id)
  {
    var s' := Apply(s, ProcessDelayed(now, batch));
    assert (set t | t in batch) == Due(s.delayed, now).Keys;
    assert s'.delayed.Keys == s.delayed.Keys - (set t | t in batch);
    WithListed(s.delayed.Keys, batch, id);
    ListCopiesReverse(batch, id);
    ListCopiesConcat(Reverse(batch), s.ready, id);
  }

  lemma GetTaskConserves(s: State, id: string)
    ensures Copies(Apply(s, GetTask), id) + Departures(s, GetTask, id) == Copies(s, id)
  {
    if s.ready != [] {
      var rest, last := s.ready[..|s.ready| - 1], s.ready[|s.ready| - 1];
      assert s.ready == rest + [last];
      ListCopiesConcat(rest, [last], id);
    }
  }

  lemma RemoveFromZSetConserves(s: State, queue: Queue, member: Task, id: string)
    requires Feasible(s, RemoveFromZSet(queue, member))
    ensures Copies(Apply(s, RemoveFromZSet(queue, member)), id) + One(member.id == id) == Copies(s, id)
  {
    var s' := Apply(s, RemoveFromZSet(queue, member));
    if queue == Delayed {
      assert s'.delayed.Keys == s.delayed.Keys - {member};
      WithRemoved(s.delayed.Keys, member, id);
    } else {
      assert s'.dead.Keys == s.dead.Keys - {member};
      WithRemoved(s.dead.Keys, member, id);
    }
  }

  lemma SubmissionConserves(s: State, op: Operation, id: string)
    requires op.SubmitImmediate? || op.SubmitDelayed? || op.HandleFailed?
    ensures Copies(Apply(s, op), id) == Copies(s, id) + Arrivals(s, op, id)
  {
    var s', t := Apply(s, op), op.task;
    if op.SubmitImmediate? {
      ListCopiesConcat([t], s.ready, id);
    } else if op.SubmitDelayed? {
      assert s'.delayed.Keys == s.delayed.Keys + {t};
      WithAdded(s.delayed.Keys, t, id);
    } else {
      assert s'.dead.Keys == s.dead.Keys + {t};
      WithAdded(s.dead.Keys, t, id);
    }
  }

  lemma OperationConserves(s: State, op: Operation, id: string)
    requires Feasible(s, op)
    ensures Copies(Apply(s, op), id) + Departures(s, op, id) == Copies(s, id) + Arrivals(s, op, id)
  {
    match op
    case SubmitImmediate(_) => SubmissionConserves(s, op, id);
    case SubmitDelayed(_) => SubmissionConserves(s, op, id);
    case HandleFailed(_, _) => SubmissionConserves(s, op, id);
    case GetTask => GetTaskConserves(s, id);
    case Expedite(member, time) => ExpediteConserves(s, member, time, id);
    case ProcessDelayed(now, batch) => ProcessDelayedConserves(s, now, batch, id);
    case RemoveFromList(removed) => ListCopiesFilter(s.ready, removed, id);
    case RemoveFromZSet(queue, member) => RemoveFromZSetConserves(s, queue, member, id);
    case DeleteIndex(_) =>
  }

  function AllArrivals(s: State, ops: seq<Operation>, id: string): nat
    decreases |ops|
  {
    if ops == [] then 0 else Arrivals(s, ops[0], id) + AllArrivals(Apply(s, ops[0]), ops[1..], id)
  }

  function AllDepartures(s: State, ops: seq<Operation>, id: string): nat
    decreases |ops|
  {
    if ops == [] then 0 else Departures(s, ops[0], id) + AllDepartures(Apply(s, ops[0]), ops[1..], id)
  }

  /** Conservation over every run, recurring tasks included: the copies of an ID that are queued
      are those that were there and those that came, less those that left. */
  lemma {:induction false} RunsConserveTasks(s: State, ops: seq<Operation>, id: string)
    requires IsFeasibleRun(s, ops)
    ensures Copies(ApplyAll(s, ops), id) + AllDepartures(s, ops, id) == Copies(s, id) + AllArrivals(s, ops, id)
    decreases |ops|
  {
    if ops != [] {
      OperationConserves(s, ops[0], id);
      RunsConserveTasks(Apply(s, ops[0]), ops[1..], id);
    }
  }

  // ---------------------------------------------------------------------------
  // Cancellation by index
  // ---------------------------------------------------------------------------

  /** The member of `z` with this ID, as the scan of RemoveFromZSet finds it. */
  ghost predicate FoundIn(z: map<Task, int>, id: string, member: Task) {
    member in z && member.id == id
  }

  /** The removal step of `CancelTask`: look the queue up in the index and remove from that
      queue.  `member` is what a scan for the ID finds, if anything. */
  ghost function RemoveIndexed(s: State, id: string, member: Task): State {
    if id !in s.index then s
    else match s.index[id]
         case Ready => Exec(s, RemoveReady(id))
         case Delayed => if FoundIn(s.delayed, id, member) then Exec(s, RemoveMember(Delayed, member)) else s
         case Dead => if FoundIn(s.dead, id, member) then Exec(s, RemoveMember(Dead, member)) else s
  }

  /** `CancelTask`: the removal, then the index entry is deleted. */
  ghost function Cancel(s: State, id: string, member: Task): State {
    Exec(RemoveIndexed(s, id, member), DropIndex(id))
  }

  /** What the scan of the indexed set for the ID finds. */
  ghost predicate ScanFinds(s: State, id: string, member: Task) {
    id in s.index ==>
      && (s.index[id] == Delayed && With(s.delayed.Keys, id) != {} ==> FoundIn(s.delayed, id, member))
      && (s.index[id] == Dead && With(s.dead.Keys, id) != {} ==> FoundIn(s.dead, id, member))
  }

  /** How many copies go: all the ready ones, or one member of a set, as the index says. */
  function RemovedCopies(s: State, id: string): nat {
    if id !in s.index then 0
    else match s.index[id]
         case Ready => ListCopies(s.ready, id)
         case Delayed => One(With(s.delayed.Keys, id) != {})
         case Dead => One(With(s.dead.Keys, id) != {})
  }

  lemma RemovedMember(members: set<Task>, id: string, member: Task, x: string)
    requires member in members && member.id == id
    ensures |With(members - {member}, x)| + One(x == id) == |With(members, x)| && With(members, id) != {}
  {
    WithRemoved(members, member, x);
    assert member in With(members, id);
  }

  lemma RemoveIndexedCopies(s: State, id: string, member: Task, x: string)
    requires ScanFinds(s, id, member)
    ensures Copies(RemoveIndexed(s, id, member), x) + (if x == id then RemovedCopies(s, id) else 0) == Copies(s, x)
  {
    if id in s.index {
      match s.index[id]
      case Ready => ListCopiesFilter(s.ready, id, x);
      case Delayed =>
        if FoundIn(s.delayed, id, member) {
          RemovedMember(s.delayed.Keys, id, member, x);
          assert (s.delayed - {member}).Keys == s.delayed.Keys - {member};
        }
      case Dead =>
        if FoundIn(s.dead, id, member) {
          RemovedMember(s.dead.Keys, id, member, x);
          assert (s.dead - {member}).Keys == s.dead.Keys - {member};
        }
    }
  }

  lemma {:induction false} ListCopiesPositive(a: seq<Task>, id: string)
    ensures ListCopies(a, id) > 0 <==> id in ListIds(a)
    decreases |a|
  {
    if a != [] {
      ListCopiesPositive(a[1..], id);
      assert a == [a[0]] + a[1..];
    }
  }

  lemma WithPositive(members: set<Task>, id: string)
    ensures |With(members, id)| > 0 <==> id in Ids(members)
  {
    if |With(members, id)| > 0 {
      var t :| t in With(members, id);
    }
    if id in Ids(members) {
      var t :| t in members && t.id == id;
      assert t in With(members, id);
    }
  }

  lemma LiveMeansCopies(s: State, id: string)
    ensures id in Live(s) <==> Copies(s, id) > 0
  {
    ListCopiesPositive(s.ready, id);
    WithPositive(s.delayed.Keys, id);
    WithPositive(s.dead.Keys, id);
  }

  /** Cancelling drops the index entry and takes away exactly the copies that the index leads to,
      in any state: of other IDs none, of this one all ready copies or one member of a set.  The
      ID is gone afterwards exactly if these were all its copies. */
  lemma CancelRemovesExactly(s: State, id: string, member: Task, x: string)
    requires ScanFinds(s, id, member)
    ensures var s' := Cancel(s, id, member);
      && s'.index == s.index - {id}
      && Copies(s', x) + (if x == id then RemovedCopies(s, id) else 0) == Copies(s, x)
      && (id !in Live(s') <==> Copies(s, id) == RemovedCopies(s, id))
  {
    var s1, s' := RemoveIndexed(s, id, member), Cancel(s, id, member);
    RemoveIndexedCopies(s, id, member, x);
    RemoveIndexedCopies(s, id, member, id);
    assert s1.index == s.index && Copies(s', x) == Copies(s1, x) && Copies(s', id) == Copies(s1, id);
    LiveMeansCopies(s', id);
  }

  lemma RemoveIndexedUnique(s: State, id: string, member: Task)
    requires Unique(s) && id in s.index
    ensures Unique(RemoveIndexed(s, id, member))
  {
    match s.index[id]
    case Ready => RemoveReadyPlaces(s, id);
    case Delayed => RemoveMemberPlaces(s, Delayed, member);
    case Dead => RemoveMemberPlaces(s, Dead, member);
  }

  /** Cancelling brings no ID into a second queue. */
  lemma CancelKeepsUnique(s: State, id: string, member: Task)
    requires Unique(s)
    ensures Unique(Cancel(s, id, member))
  {
    var s1 := RemoveIndexed(s, id, member);
    if id in s.index {
      RemoveIndexedUnique(s, id, member);
    }
    assert PlacesOf(Cancel(s, id, member)) == PlacesOf(s1);
  }

  /** The index names the queue that the ID is in. */
  ghost predicate IndexFinds(s: State, id: string) {
    id in s.index && RemovedCopies(s, id) > 0
  }

  /** A task that is queued once is gone after cancelling exactly if the index names its queue. */
  lemma CancelOfSingleTask(s: State, id: string, member: Task)
    requires ScanFinds(s, id, member) && Copies(s, id) == 1
    ensures id !in Live(Cancel(s, id, member)) <==> IndexFinds(s, id)
  {
    CancelRemovesExactly(s, id, member, id);
    RemoveIndexedCopies(s, id, member, id);
  }

  // ---------------------------------------------------------------------------
  // Races
  // ---------------------------------------------------------------------------

  /** The index is accurate for all IDs but one. */
  ghost predicate AccurateExcept(s: State, id: string) {
    var p := PlacesOf(s);
    Names(s.index, Places(p.ready - {id}, p.delayed - {id}, p.dead - {id}))
  }

  /** The second command of a submission makes the index accurate exactly when the task has
      not meanwhile been moved to another queue. */
  lemma LateIndexIsAccurate(s: State, id: string, queue: Queue)
    requires AccurateExcept(s, id)
    ensures IndexAccurate(Exec(s, SetIndex(id, queue))) <==>
            (id in PlacesOf(s).ready ==> queue == Ready) &&
            (id in PlacesOf(s).delayed ==> queue == Delayed) &&
            (id in PlacesOf(s).dead ==> queue == Dead)
  {
    var p := PlacesOf(s);
    assert PlacesOf(Exec(s, SetIndex(id, queue))) == p;
  }

  /** A task can be promoted between the two commands of its own submission: the index then
      names the delayed queue while the task is ready. */
  lemma SubmitRacesWithPromotion(t: Task, now: int)
    requires 0 <= t.executeTime <= now
    ensures var cs := [AddDelayed(t), Promote(now, [t]), SetIndex(t.id, Delayed)];
            IsRun(EMPTY, cs) &&
            Run(EMPTY, cs).ready == [t] && Run(EMPTY, cs).index == map[t.id := Delayed] &&
            !IndexAccurate(Run(EMPTY, cs))
  {
    var cs := [AddDelayed(t), Promote(now, [t]), SetIndex(t.id, Delayed)];
    var s1 := Exec(EMPTY, cs[0]);
    var s2 := Exec(s1, cs[1]);
    var s3 := Exec(s2, cs[2]);
    assert Due(s1.delayed, now).Keys == {t};
    RunOfThree(EMPTY, cs[0], cs[1], cs[2]);
    assert s3.ready == [t];
    assert t.id in PlacesOf(s3).ready;
  }

  /** A task can be promoted between the scan and the transaction of an expedite: it is then
      queued twice. */
  lemma ExpediteRacesWithPromotion(t: Task, now: int)
    requires 0 <= t.executeTime <= now
    ensures var cs := [AddDelayed(t), Promote(now, [t]), Rescore(t, now)];
            IsRun(EMPTY, cs) && !Unique(Run(EMPTY, cs)) &&
            t in Run(EMPTY, cs).ready && Updated(t, now) in Run(EMPTY, cs).delayed
  {
    var cs := [AddDelayed(t), Promote(now, [t]), Rescore(t, now)];
    var s1 := Exec(EMPTY, cs[0]);
    var s2 := Exec(s1, cs[1]);
    var s3 := Exec(s2, cs[2]);
    assert Due(s1.delayed, now).Keys == {t};
    RunOfThree(EMPTY, cs[0], cs[1], cs[2]);
    assert s3.ready == [t];
    assert t.id in PlacesOf(s3).ready && Updated(t, now).id in PlacesOf(s3).delayed;
  }

  /** The scheduler submits a recurring task again as soon as it has promoted it: until the
      promoted copy is popped, the ID is queued twice, the index names only the second copy, and
      cancelling leaves the first. */
  lemma RecurringTaskIsQueuedTwice(t: Task, now: int, time: int)
    requires 0 <= t.executeTime <= now
    ensures var ops := [SubmitDelayed(t), ProcessDelayed(now, [t]), SubmitDelayed(Updated(t, time))];
      && IsFeasibleRun(EMPTY, ops)
      && var s := ApplyAll(EMPTY, ops);
         && Copies(s, t.id) == 2 && RemovedCopies(s, t.id) == 1 && !Unique(s) && !IndexAccurate(s)
         && t in Cancel(s, t.id, Updated(t, time)).ready
  {
    var ops := [SubmitDelayed(t), ProcessDelayed(now, [t]), SubmitDelayed(Updated(t, time))];
    var s1 := Apply(EMPTY, ops[0]);
    var s2 := Apply(s1, ops[1]);
    var s3 := Apply(s2, ops[2]);
    assert Due(s1.delayed, now).Keys == {t};
    assert ops[1..] == [ops[1], ops[2]] && [ops[1], ops[2]][1..] == [ops[2]] && [ops[2]][1..] == [];
    assert ApplyAll(s3, []) == s3 && ApplyAll(s2, [ops[2]]) == s3 && ApplyAll(s1, [ops[1], ops[2]]) == s3;
    assert IsFeasibleRun(s3, []) && IsFeasibleRun(s2, [ops[2]]) && IsFeasibleRun(s1, [ops[1], ops[2]]);
    assert s3.ready == [t] && s3.delayed == map[Updated(t, time) := time];
    QueuedTwice(s3, t, time);
  }

  lemma QueuedTwice(s: State, t: Task, time: int)
    requires s.ready == [t] && s.delayed == map[Updated(t, time) := time] && s.dead == map[]
    requires t.id in s.index && s.index[t.id] == Delayed
    ensures Copies(s, t.id) == 2 && RemovedCopies(s, t.id) == 1 && !Unique(s) && !IndexAccurate(s) && t in Cancel(s, t.id, Updated(t, time)).ready
  {
    var t' := Updated(t, time);
    assert With(s.delayed.Keys, t.id) == {t'} && With(s.dead.Keys, t.id) == {};
    assert ListCopies([t], t.id) == 1;
    assert t.id in PlacesOf(s).ready && t'.id in PlacesOf(s).delayed;
  }
}
