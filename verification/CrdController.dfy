/** The chaos-experiment controller: update handlers that react to edges between two snapshots of
    an object, and a work queue that checks for recovery with a bounded number of retries.
    Answers of the Kubernetes API are parameters. */
module CrdController {
  import opened JobInformer
  import opened Wrappers

  const MAX_RETRIES: nat := 2

  /** One experiment object. */
  datatype Target = Target(resource: string, namespace: string, name: string)

  /** What the controller deletes in the end. */
  datatype Resource =
    | Experiment(target: Target)
    | BatchJob(namespace: string, name: string)

  datatype Condition = Condition(kind: string, status: string)

  /** The minutes in `spec.duration`: no match, a number too large, or a number. */
  datatype Minutes = NoMatch | TooLarge | Minutes(count: nat)

  /** What the handler reads from a snapshot. */
  datatype Snapshot = Snapshot(name: string, phase: string, conditions: seq<Condition>, duration: Minutes)

  /** A queue item.  `chain` numbers the rising edge that a check goes back to; the controller
      itself does not look at it. */
  datatype Item =
    | CheckRecovery(target: Target, minutes: nat, retryCount: nat, maxRetries: nat, chain: nat)
    | Delete(resource: Resource)
    | Other(kind: string)

  /** How a chain of checks ends: in `HandleCRDSucceeded`, in `HandleCRDFailed` for want of a time
      range, silently because the object is gone, or in an equal item that was already waiting. */
  datatype End = Success | NoTimeRange | Gone | Merged

  /** What the API says when a queue item is processed. */
  datatype Answer =
    | ApiError
    | NotFound
    | Found(recovered: bool, hasTimeRange: bool)

  datatype Entry =
    | Started(target: Target, chain: nat, minutes: nat)
    | Checked(target: Target, chain: nat, answer: Answer) // a recovery check got an answer
    | Ended(target: Target, chain: nat, end: End)
    | Rejected(target: Target)                        // HandleCRDFailed, directly from an update
    | JobFailed(namespace: string, name: string)      // HandleJobFailed, from an update of the job
    | PodReported(namespace: string, name: string)    // HandleJobFailed, from an update of a pod
    | JobSucceeded(namespace: string, name: string)
    | Deleted(resource: Resource)                         // a deletion went through

  /** The work queue, what has happened so far, and the number of chains started. */
  datatype State = State(pending: seq<Item>, log: seq<Entry>, next: nat)

  const INITIAL := State([], [], 0)

  /** The status of the first condition of the given kind. */
  function IsTrue(conditions: seq<Condition>, kind: string): bool {
    if conditions == [] then false
    else if conditions[0].kind == kind then conditions[0].status == "True"
    else IsTrue(conditions[1..], kind)
  }

  /** The first condition of the kind there is has the status "True". */
  predicate Holds(conditions: seq<Condition>, kind: string) {
    exists i :: 0 <= i < |conditions| && conditions[i] == Condition(kind, "True") && forall j :: 0 <= j < i ==> conditions[j].kind != kind
  }

  lemma {:induction false} IsTrueMeansHolds(conditions: seq<Condition>, kind: string)
    ensures IsTrue(conditions, kind) <==> Holds(conditions, kind)
    decreases |conditions|
  {
    if conditions != [] {
      var rest := conditions[1..];
      IsTrueMeansHolds(rest, kind);
      if conditions[0].kind == kind {
        assert conditions[0].status == "True" ==> conditions[0] == Condition(kind, "True");
      } else {
        if i :| 0 <= i < |rest| && rest[i] == Condition(kind, "True") && forall j :: 0 <= j < i ==> rest[j].kind != kind {
          assert conditions[i + 1] == Condition(kind, "True");
          assert forall j :: 0 <= j < i + 1 ==> conditions[j].kind != kind;
        }
        if i :| 0 <= i < |conditions| && conditions[i] == Condition(kind, "True") && forall j :: 0 <= j < i ==> conditions[j].kind != kind {
          assert rest[i - 1] == Condition(kind, "True");
          assert forall j :: 0 <= j < i - 1 ==> rest[j] == conditions[j + 1];
        }
      }
    }
  }

  function Log(s: State, e: Entry): State {
    s.(log := s.log + [e])
  }

  /** The controller sees no difference between the items. */
  predicate Same(a: Item, b: Item) {
    if a.CheckRecovery? && b.CheckRecovery? then a.(chain := 0) == b.(chain := 0) else a == b
  }

  predicate IsWaiting(pending: seq<Item>, item: Item) {
    exists i :: 0 <= i < |pending| && Same(pending[i], item)
  }

  /** The queue drops an item that is already waiting in it; whether two equal items count as the
      same is the environment's choice (`merge`), because items hold pointers. */
  function Enqueue(s: State, item: Item, merge: bool): State {
    if !(merge && IsWaiting(s.pending, item)) then s.(pending := s.pending + [item])
    else if item.CheckRecovery? then Log(s, Ended(item.target, item.chain, Merged))
    else s
  }

  /** The callbacks that are final for an object, and that object. */
  function Concerns(e: Entry): Option<Resource> {
    match e
    case Ended(target, _, end) => if end == Success || end == NoTimeRange then Some(Experiment(target)) else None
    case Rejected(target) => Some(Experiment(target))
    case JobSucceeded(namespace, name) => Some(BatchJob(namespace, name))
    case PodReported(namespace, name) => Some(BatchJob(namespace, name))
    case _ => None
  }

  /** A final callback, followed by the deletion of the object unless debugging. */
  function Conclude(s: State, e: Entry, debugging: bool, merge: bool): State
    requires Concerns(e).Some?
  {
    if debugging then Log(s, e) else Enqueue(Log(s, e), Delete(Concerns(e).value), merge)
  }

  predicate StoppedBadly(before: Snapshot, after: Snapshot) {
    before.phase == "Run" && after.phase == "Stop" &&
    (!IsTrue(after.conditions, "Selected") || !IsTrue(after.conditions, "AllInjected"))
  }

  predicate RisingEdge(before: Snapshot, after: Snapshot) {
    !IsTrue(before.conditions, "AllInjected") && IsTrue(after.conditions, "AllInjected")
  }

  /** A new chain of checks. */
  function Start(s: State, target: Target, minutes: nat, merge: bool): State {
    Enqueue(Log(s, Started(target, s.next, minutes)).(next := s.next + 1), CheckRecovery(target, minutes, 0, MAX_RETRIES, s.next), merge)
  }

  /** The update handler of the experiments. */
  function OnUpdate(s: State, target: Target, before: Snapshot, after: Snapshot, active: bool, debugging: bool, merge: bool): State {
    if !active || before.name != after.name then s
    else if StoppedBadly(before, after) then Conclude(s, Rejected(target), debugging, merge)
    else if !RisingEdge(before, after) then s
    else match after.duration
         case NoMatch => Conclude(s, Rejected(target), debugging, merge)
         case TooLarge => Conclude(s, Rejected(target), debugging, merge)
         case Minutes(n) => if n == 0 then s else Start(s, target, n, merge)
  }

  /** The update handler of the jobs. */
  function OnJobUpdate(s: State, namespace: string, before: Job, after: Job, debugging: bool, merge: bool): State {
    var s' := if ReportsFailure(before, after) then Log(s, JobFailed(namespace, after.name)) else s;
    if ReportsSuccess(before, after) then Conclude(s', JobSucceeded(namespace, after.name), debugging, merge) else s'
  }

  datatype OwnerReference = OwnerReference(kind: string, name: string)

  /** What the handler reads from a pod; `reasons` are those of its waiting and terminated
      containers. */
  datatype Pod = Pod(namespace: string, isPending: bool, owners: seq<OwnerReference>, reasons: seq<string>)

  /** The name is that of the first owner that is a job. */
  predicate IsFirstJob(owners: seq<OwnerReference>, name: string) {
    exists i :: 0 <= i < |owners| && owners[i] == OwnerReference("Job", name) && forall j :: 0 <= j < i ==> owners[j].kind != "Job"
  }

  lemma FirstJobBelow(owners: seq<OwnerReference>, name: string)
    requires owners != [] && owners[0].kind != "Job" && IsFirstJob(owners[1..], name)
    ensures IsFirstJob(owners, name)
  {
    var rest := owners[1..];
    var i :| 0 <= i < |rest| && rest[i] == OwnerReference("Job", name) && forall j :: 0 <= j < i ==> rest[j].kind != "Job";
    assert owners[i + 1] == OwnerReference("Job", name);
    assert forall j :: 0 < j < i + 1 ==> owners[j] == rest[j - 1];
  }

  lemma FirstJobIsUnique(owners: seq<OwnerReference>, name: string)
    ensures IsFirstJob(owners, name) <==> JobOwner(owners) == Some(name)
  {
  }

  /** The first owner that is a job. */
  function JobOwner(owners: seq<OwnerReference>): (r: Option<string>)
    ensures r.None? <==> forall i :: 0 <= i < |owners| ==> owners[i].kind != "Job"
    ensures r.Some? ==> IsFirstJob(owners, r.value)
  {
    if owners == [] then None
    else if owners[0].kind == "Job" then
      assert owners[0] == OwnerReference("Job", owners[0].name);
      Some(owners[0].name)
    else
      var r := JobOwner(owners[1..]);
      if r.Some? then FirstJobBelow(owners, r.value); r else r
  }

  /** The pod belongs to a job and cannot get its image. */
  predicate IsStuck(pod: Pod) {
    pod.isPending && JobOwner(pod.owners).Some? && "ImagePullBackOff" in pod.reasons
  }

  /** The update handler of the pods; `found` tells whether the API returns the job. */
  function OnPodUpdate(s: State, pod: Pod, found: bool, debugging: bool, merge: bool): State {
    if IsStuck(pod) && found
    then Conclude(s, PodReported(pod.namespace, JobOwner(pod.owners).value), debugging, merge)
    else s
  }

  /** A recovery check that got an answer. */
  function OnChecked(s: State, item: Item, answer: Answer, debugging: bool, merge: bool): State
    requires item.CheckRecovery? && !answer.ApiError?
  {
    var s' := Log(s, Checked(item.target, item.chain, answer));
    if answer.NotFound? then Log(s', Ended(item.target, item.chain, Gone))
    else if !answer.recovered && item.retryCount < item.maxRetries
    then Enqueue(s', item.(retryCount := item.retryCount + 1), merge)
    else Conclude(s', Ended(item.target, item.chain, if answer.hasTimeRange then Success else NoTimeRange), debugging, merge)
  }

  /** Processing one item that has been taken from the queue. */
  function Process(s: State, item: Item, answer: Answer, debugging: bool, merge: bool): State {
    match item
    case CheckRecovery(_, _, _, _, _) =>
      if answer.ApiError? then Enqueue(s, item, merge) else OnChecked(s, item, answer, debugging, merge)
    case Delete(resource) =>
      if resource.BatchJob? && debugging then s
      else if answer.ApiError? then Enqueue(s, item, merge)
      else Log(s, Deleted(resource))
    case Other(_) => s
  }

  function Without<T>(s: seq<T>, i: nat): seq<T>
    requires i < |s|
  {
    s[..i] + s[i + 1..]
  }

  function Take(s: State, i: nat): State
    requires i < |s.pending|
  {
    s.(pending := Without(s.pending, i))
  }

  datatype Event =
    | Update(target: Target, before: Snapshot, after: Snapshot, active: bool, merge: bool)
    | JobUpdate(namespace: string, old': Job, new': Job, merge: bool)
    | PodUpdate(pod: Pod, found: bool, merge: bool)
    | Work(index: nat, answer: Answer, merge: bool)

  predicate Possible(s: State, e: Event) {
    e.Work? ==> e.index < |s.pending|
  }

  function Next(s: State, e: Event, debugging: bool): State
    requires Possible(s, e)
  {
    match e
    case Update(target, before, after, active, merge) => OnUpdate(s, target, before, after, active, debugging, merge)
    case JobUpdate(namespace, before, after, merge) => OnJobUpdate(s, namespace, before, after, debugging, merge)
    case PodUpdate(pod, found, merge) => OnPodUpdate(s, pod, found, debugging, merge)
    case Work(i, answer, merge) => Process(Take(s, i), s.pending[i], answer, debugging, merge)
  }

  ghost predicate IsRun(s: State, es: seq<Event>, debugging: bool)
    decreases |es|
  {
    es == [] || (Possible(s, es[0]) && IsRun(Next(s, es[0], debugging), es[1..], debugging))
  }

  function Run(s: State, es: seq<Event>, debugging: bool): State
    requires IsRun(s, es, debugging)
    decreases |es|
  {
    if es == [] then s else Run(Next(s, es[0], debugging), es[1..], debugging)
  }

  // ---------------------------------------------------------------------------
  // Counting
  // ---------------------------------------------------------------------------

  /** A kind of entry. */
  datatype Query =
    | ChecksOf(chain: nat)
    | EndsOf(chain: nat)
    | EndsAs(chain: nat, end: End)
    | StartsOf(target: Target)
    | RejectionsOf(target: Target)
    | EndsOn(target: Target)
    | CallbacksOn(target: Target)
    | FailuresOf(namespace: string, name: string)
    | SuccessesOf(namespace: string, name: string)

  predicate Fits(e: Entry, q: Query) {
    match q
    case ChecksOf(k) => e.Checked? && e.chain == k
    case EndsOf(k) => e.Ended? && e.chain == k
    case EndsAs(k, end) => e.Ended? && e.chain == k && e.end == end
    case StartsOf(x) => e.Started? && e.target == x
    case RejectionsOf(x) => e == Rejected(x)
    case EndsOn(x) => e.Ended? && e.target == x
    case CallbacksOn(x) => Concerns(e) == Some(Experiment(x))
    case FailuresOf(namespace, name) => e == JobFailed(namespace, name) || e == PodReported(namespace, name)
    case SuccessesOf(namespace, name) => e == JobSucceeded(namespace, name)
  }

  function One(b: bool): nat {
    if b then 1 else 0
  }

  /** Where the entries of the kind are. */
  function Positions(log: seq<Entry>, q: Query): set<nat> {
    set i: nat | i < |log| && Fits(log[i], q)
  }

  function Count(log: seq<Entry>, q: Query): nat {
    |Positions(log, q)|
  }

  lemma PositionsNext(log: seq<Entry>, e: Entry, q: Query, i: nat)
    ensures i in Positions(log + [e], q) <==> i in Positions(log, q) || (i == |log| && Fits(e, q))
  {
    if i < |log| {
      assert (log + [e])[i] == log[i];
    }
  }

  lemma CountNext(log: seq<Entry>, e: Entry, q: Query)
    ensures Count(log + [e], q) == Count(log, q) + One(Fits(e, q))
  {
    var a, b, n: nat := Positions(log, q), Positions(log + [e], q), |log|;
    forall i: nat ensures i in b <==> i in a || (i == n && Fits(e, q)) {
      PositionsNext(log, e, q, i);
    }
    Grown(a, b, n, Fits(e, q));
  }

  lemma Grown(a: set<nat>, b: set<nat>, n: nat, grows: bool)
    requires n !in a && forall i: nat :: i in b <==> i in a || (i == n && grows)
    ensures |b| == |a| + One(grows)
  {
    assert b == if grows then a + {n} else a;
  }

  lemma CountNone(q: Query)
    ensures Count([], q) == 0
  {
    assert Positions([], q) == {};
  }

  lemma CountLast(log: seq<Entry>, q: Query)
    requires log != []
    ensures Count(log, q) == Count(log[..|log| - 1], q) + One(Fits(log[|log| - 1], q))
  {
    assert log == log[..|log| - 1] + [log[|log| - 1]];
    CountNext(log[..|log| - 1], log[|log| - 1], q);
  }

  lemma {:induction false} EndsAddUp(log: seq<Entry>, k: nat)
    ensures Count(log, EndsOf(k))
         == Count(log, EndsAs(k, Success)) + Count(log, EndsAs(k, NoTimeRange)) + Count(log, EndsAs(k, Gone)) + Count(log, EndsAs(k, Merged))
  {
    if log == [] {
      CountNone(EndsOf(k));
      CountNone(EndsAs(k, Success));
      CountNone(EndsAs(k, NoTimeRange));
      CountNone(EndsAs(k, Gone));
      CountNone(EndsAs(k, Merged));
    } else {
      EndsAddUp(log[..|log| - 1], k);
      CountLast(log, EndsOf(k));
      CountLast(log, EndsAs(k, Success));
      CountLast(log, EndsAs(k, NoTimeRange));
      CountLast(log, EndsAs(k, Gone));
      CountLast(log, EndsAs(k, Merged));
    }
  }

  predicate IsCheckOf(item: Item, k: nat) {
    item.CheckRecovery? && item.chain == k
  }

  /** The checks of the chain that are waiting. */
  function Waits(pending: seq<Item>, k: nat): nat {
    if pending == [] then 0 else One(IsCheckOf(pending[0], k)) + Waits(pending[1..], k)
  }

  lemma {:induction false} WaitsConcat(a: seq<Item>, b: seq<Item>, k: nat)
    ensures Waits(a + b, k) == Waits(a, k) + Waits(b, k)
    decreases |a|
  {
    if a == [] {
      assert a + b == b;
    } else {
      assert (a + b)[1..] == a[1..] + b;
      WaitsConcat(a[1..], b, k);
    }
  }

  lemma WaitsNext(pending: seq<Item>, item: Item, k: nat)
    ensures Waits(pending + [item], k) == Waits(pending, k) + One(IsCheckOf(item, k))
  {
    WaitsConcat(pending, [item], k);
  }

  lemma WaitsWithout(pending: seq<Item>, i: nat, k: nat)
    requires i < |pending|
    ensures Waits(pending, k) == Waits(Without(pending, i), k) + One(IsCheckOf(pending[i], k))
  {
    var a, b := pending[..i], pending[i + 1..];
    assert pending == (a + [pending[i]]) + b;
    WaitsConcat(a + [pending[i]], b, k);
    WaitsNext(a, pending[i], k);
    WaitsConcat(a, b, k);
  }

  lemma {:induction false} NoneIfZero(pending: seq<Item>, k: nat)
    requires Waits(pending, k) == 0
    ensures forall i :: 0 <= i < |pending| ==> !IsCheckOf(pending[i], k)
    decreases |pending|
  {
    if pending != [] {
      NoneIfZero(pending[1..], k);
    }
  }

  // ---------------------------------------------------------------------------
  // One chain
  // ---------------------------------------------------------------------------

  /** A waiting check of chain `k` is the retry after as many answered checks. */
  ghost predicate FitsChain(item: Item, k: nat, checks: nat) {
    IsCheckOf(item, k) ==> item.retryCount == checks <= item.maxRetries == MAX_RETRIES
  }

  ghost predicate AllFit(pending: seq<Item>, k: nat, checks: nat) {
    forall i :: 0 <= i < |pending| ==> FitsChain(pending[i], k, checks)
  }

  /** `waiting` more checks of the chain wait, or it has ended; it has had no more answers than
      it may. */
  ghost predicate Balanced(s: State, k: nat, waiting: nat) {
    && Waits(s.pending, k) + waiting + Count(s.log, EndsOf(k)) == One(k < s.next)
    && Count(s.log, ChecksOf(k)) <= (if k < s.next then MAX_RETRIES + 1 else 0)
    && AllFit(s.pending, k, Count(s.log, ChecksOf(k)))
  }

  lemma LogBalanced(s: State, e: Entry, k: nat, waiting: nat)
    requires Balanced(s, k, waiting) && !Fits(e, EndsOf(k)) && !Fits(e, ChecksOf(k))
    ensures Balanced(Log(s, e), k, waiting)
  {
    CountNext(s.log, e, EndsOf(k));
    CountNext(s.log, e, ChecksOf(k));
    var s' := Log(s, e);
    assert s'.pending == s.pending && s'.next == s.next;
    assert Count(s'.log, EndsOf(k)) == Count(s.log, EndsOf(k)) && Count(s'.log, ChecksOf(k)) == Count(s.log, ChecksOf(k));
  }

  /** Putting the next check of the chain, or something else, on the queue. */
  lemma EnqueueBalanced(s: State, item: Item, merge: bool, k: nat)
    requires Balanced(s, k, One(IsCheckOf(item, k))) && FitsChain(item, k, Count(s.log, ChecksOf(k)))
    ensures Balanced(Enqueue(s, item, merge), k, 0)
  {
    WaitsNext(s.pending, item, k);
    if merge && IsWaiting(s.pending, item) && item.CheckRecovery? {
      CountNext(s.log, Ended(item.target, item.chain, Merged), EndsOf(k));
      CountNext(s.log, Ended(item.target, item.chain, Merged), ChecksOf(k));
    }
  }

  lemma EndBalanced(s: State, target: Target, chain: nat, end: End, k: nat)
    requires Balanced(s, k, One(chain == k))
    ensures Balanced(Log(s, Ended(target, chain, end)), k, 0)
  {
    CountNext(s.log, Ended(target, chain, end), EndsOf(k));
    CountNext(s.log, Ended(target, chain, end), ChecksOf(k));
  }

  lemma ConcludeBalanced(s: State, e: Entry, debugging: bool, merge: bool, k: nat)
    requires Concerns(e).Some? && Balanced(s, k, One(Fits(e, EndsOf(k))))
    ensures Balanced(Conclude(s, e, debugging, merge), k, 0)
  {
    if e.Ended? {
      EndBalanced(s, e.target, e.chain, e.end, k);
    } else {
      LogBalanced(s, e, k, 0);
    }
    if !debugging {
      EnqueueBalanced(Log(s, e), Delete(Concerns(e).value), merge, k);
    }
  }

  lemma StartBalanced(s: State, target: Target, minutes: nat, merge: bool, k: nat)
    requires Balanced(s, k, 0)
    ensures Balanced(Start(s, target, minutes, merge), k, 0)
  {
    var e, s' := Started(target, s.next, minutes), Log(s, Started(target, s.next, minutes)).(next := s.next + 1);
    CountNext(s.log, e, EndsOf(k));
    CountNext(s.log, e, ChecksOf(k));
    EnqueueBalanced(s', CheckRecovery(target, minutes, 0, MAX_RETRIES, s.next), merge, k);
  }

  lemma CheckedBalanced(s: State, item: Item, answer: Answer, debugging: bool, merge: bool, k: nat)
    requires item.CheckRecovery? && !answer.ApiError?
    requires Balanced(s, k, One(item.chain == k)) && FitsChain(item, k, Count(s.log, ChecksOf(k)))
    ensures Balanced(OnChecked(s, item, answer, debugging, merge), k, 0)
  {
    var e := Checked(item.target, item.chain, answer);
    var s' := Log(s, e);
    CountNext(s.log, e, EndsOf(k));
    CountNext(s.log, e, ChecksOf(k));
    if item.chain == k {
      NoneIfZero(s.pending, k);
    }
    assert Balanced(s', k, One(item.chain == k));
    if answer.NotFound? {
      EndBalanced(s', item.target, item.chain, Gone, k);
    } else if !answer.recovered && item.retryCount < item.maxRetries {
      EnqueueBalanced(s', item.(retryCount := item.retryCount + 1), merge, k);
    } else {
      ConcludeBalanced(s', Ended(item.target, item.chain, if answer.hasTimeRange then Success else NoTimeRange), debugging, merge, k);
    }
  }

  lemma TakeBalanced(s: State, i: nat, k: nat)
    requires i < |s.pending| && Balanced(s, k, 0)
    ensures Balanced(Take(s, i), k, One(IsCheckOf(s.pending[i], k)))
    ensures FitsChain(s.pending[i], k, Count(s.log, ChecksOf(k)))
  {
    WaitsWithout(s.pending, i, k);
    var rest := Without(s.pending, i);
    assert forall j :: 0 <= j < |rest| ==> rest[j] == s.pending[if j < i then j else j + 1];
  }

  lemma WorkBalanced(s: State, i: nat, answer: Answer, debugging: bool, merge: bool, k: nat)
    requires i < |s.pending| && Balanced(s, k, 0)
    ensures Balanced(Process(Take(s, i), s.pending[i], answer, debugging, merge), k, 0)
  {
    var taken, item := Take(s, i), s.pending[i];
    TakeBalanced(s, i, k);
    if item.CheckRecovery? && !answer.ApiError? {
      CheckedBalanced(taken, item, answer, debugging, merge, k);
    } else {
      EnqueueBalanced(taken, item, merge, k);
      if item.Delete? {
        LogBalanced(taken, Deleted(item.resource), k, 0);
      }
    }
  }

  lemma UpdateBalanced(s: State, target: Target, before: Snapshot, after: Snapshot, active: bool, debugging: bool, merge: bool, k: nat)
    requires Balanced(s, k, 0)
    ensures Balanced(OnUpdate(s, target, before, after, active, debugging, merge), k, 0)
  {
    ConcludeBalanced(s, Rejected(target), debugging, merge, k);
    if after.duration.Minutes? {
      StartBalanced(s, target, after.duration.count, merge, k);
    }
  }

  lemma JobUpdateBalanced(s: State, namespace: string, before: Job, after: Job, debugging: bool, merge: bool, k: nat)
    requires Balanced(s, k, 0)
    ensures Balanced(OnJobUpdate(s, namespace, before, after, debugging, merge), k, 0)
  {
    var failed := JobFailed(namespace, after.name);
    LogBalanced(s, failed, k, 0);
    var s' := if ReportsFailure(before, after) then Log(s, failed) else s;
    ConcludeBalanced(s', JobSucceeded(namespace, after.name), debugging, merge, k);
  }

  lemma StepBalanced(s: State, e: Event, debugging: bool, k: nat)
    requires Possible(s, e) && Balanced(s, k, 0)
    ensures Balanced(Next(s, e, debugging), k, 0)
  {
    match e
    case Update(target, before, after, active, merge) =>
      UpdateBalanced(s, target, before, after, active, debugging, merge, k);
    case JobUpdate(namespace, before, after, merge) =>
      JobUpdateBalanced(s, namespace, before, after, debugging, merge, k);
    case PodUpdate(pod, _, merge) =>
      if IsStuck(pod) {
        ConcludeBalanced(s, PodReported(pod.namespace, JobOwner(pod.owners).value), debugging, merge, k);
      }
    case Work(i, answer, merge) => WorkBalanced(s, i, answer, debugging, merge, k);
  }

  lemma {:induction false} RunBalanced(s: State, es: seq<Event>, debugging: bool, k: nat)
    requires IsRun(s, es, debugging) && Balanced(s, k, 0)
    ensures Balanced(Run(s, es, debugging), k, 0)
    decreases |es|
  {
    if es != [] {
      StepBalanced(s, es[0], debugging, k);
      RunBalanced(Next(s, es[0], debugging), es[1..], debugging, k);
    }
  }

  /** In every run each chain, one per rising edge, gets at most one callback and at most
      MAX_RETRIES + 1 answered checks, however often the API fails; and it is either waiting or
      has ended, exactly once, in one of the four ways. */
  lemma OneCallbackPerChain(es: seq<Event>, debugging: bool, k: nat)
    requires IsRun(INITIAL, es, debugging)
    ensures var s := Run(INITIAL, es, debugging);
      && Count(s.log, EndsAs(k, Success)) + Count(s.log, EndsAs(k, NoTimeRange)) <= 1
      && Count(s.log, ChecksOf(k)) <= MAX_RETRIES + 1
      && Waits(s.pending, k) + Count(s.log, EndsAs(k, Success)) + Count(s.log, EndsAs(k, NoTimeRange)) +
         Count(s.log, EndsAs(k, Gone)) + Count(s.log, EndsAs(k, Merged)) == One(k < s.next)
  {
    RunBalanced(INITIAL, es, debugging, k);
    EndsAddUp(Run(INITIAL, es, debugging).log, k);
  }

  /** Without merging, a chain that is not waiting has had exactly one callback, unless the object
      was gone. */
  lemma EveryChainIsAnswered(es: seq<Event>, debugging: bool, k: nat)
    requires IsRun(INITIAL, es, debugging) && forall i :: 0 <= i < |es| ==> !es[i].merge
    requires k < Run(INITIAL, es, debugging).next && Waits(Run(INITIAL, es, debugging).pending, k) == 0
    ensures var log := Run(INITIAL, es, debugging).log;
      Count(log, EndsAs(k, Success)) + Count(log, EndsAs(k, NoTimeRange)) + Count(log, EndsAs(k, Gone)) == 1
  {
    OneCallbackPerChain(es, debugging, k);
    NothingMerged(INITIAL, es, debugging, k);
  }

  // --- What a step adds to the log

  /** Entries that only updates make, or that only a merge makes. */
  predicate IsQuiet(q: Query, merge: bool) {
    q.RejectionsOf? || q.StartsOf? || q.FailuresOf? || q.SuccessesOf? || (q.EndsAs? && q.end == Merged && !merge)
  }

  lemma LogCount(s: State, e: Entry, q: Query)
    ensures Count(Log(s, e).log, q) == Count(s.log, q) + One(Fits(e, q))
  {
    CountNext(s.log, e, q);
  }

  lemma EnqueueCount(s: State, item: Item, merge: bool, q: Query)
    requires !item.CheckRecovery? || IsQuiet(q, merge)
    ensures Count(Enqueue(s, item, merge).log, q) == Count(s.log, q)
  {
    if item.CheckRecovery? {
      LogCount(s, Ended(item.target, item.chain, Merged), q);
    }
  }

  lemma ConcludeCount(s: State, e: Entry, debugging: bool, merge: bool, q: Query)
    requires Concerns(e).Some?
    ensures Count(Conclude(s, e, debugging, merge).log, q) == Count(s.log, q) + One(Fits(e, q))
  {
    LogCount(s, e, q);
    EnqueueCount(Log(s, e), Delete(Concerns(e).value), merge, q);
  }

  lemma CheckedCount(s: State, item: Item, answer: Answer, debugging: bool, merge: bool, q: Query)
    requires item.CheckRecovery? && !answer.ApiError? && IsQuiet(q, merge)
    ensures Count(OnChecked(s, item, answer, debugging, merge).log, q) == Count(s.log, q)
  {
    var s' := Log(s, Checked(item.target, item.chain, answer));
    LogCount(s, Checked(item.target, item.chain, answer), q);
    if answer.NotFound? {
      LogCount(s', Ended(item.target, item.chain, Gone), q);
    } else if !answer.recovered && item.retryCount < item.maxRetries {
      EnqueueCount(s', item.(retryCount := item.retryCount + 1), merge, q);
    } else {
      ConcludeCount(s', Ended(item.target, item.chain, if answer.hasTimeRange then Success else NoTimeRange), debugging, merge, q);
    }
  }

  lemma WorkCount(s: State, item: Item, answer: Answer, debugging: bool, merge: bool, q: Query)
    requires IsQuiet(q, merge)
    ensures Count(Process(s, item, answer, debugging, merge).log, q) == Count(s.log, q)
  {
    if item.CheckRecovery? && !answer.ApiError? {
      CheckedCount(s, item, answer, debugging, merge, q);
    } else {
      EnqueueCount(s, item, merge, q);
      if item.Delete? {
        LogCount(s, Deleted(item.resource), q);
      }
    }
  }

  lemma StartCount(s: State, target: Target, minutes: nat, merge: bool, q: Query)
    requires IsQuiet(q, merge)
    ensures Count(Start(s, target, minutes, merge).log, q) == Count(s.log, q) + One(q == StartsOf(target))
  {
    var s' := Log(s, Started(target, s.next, minutes)).(next := s.next + 1);
    LogCount(s, Started(target, s.next, minutes), q);
    EnqueueCount(s', CheckRecovery(target, minutes, 0, MAX_RETRIES, s.next), merge, q);
  }

  /** An update of the active object between two snapshots of the same name. */
  predicate Concerned(e: Event, x: Target) {
    e.Update? && e.target == x && e.active && e.before.name == e.after.name
  }

  /** The experiment was told to stop while its targets were not selected or not all injected. */
  predicate StopsBadly(before: Snapshot, after: Snapshot) {
    before.phase == "Run" && after.phase == "Stop" && !(Holds(after.conditions, "Selected") && Holds(after.conditions, "AllInjected"))
  }

  predicate BecomesInjected(before: Snapshot, after: Snapshot) {
    !Holds(before.conditions, "AllInjected") && Holds(after.conditions, "AllInjected")
  }

  /** The update starts a chain. */
  predicate Starts(e: Event, x: Target) {
    && Concerned(e, x) && !StopsBadly(e.before, e.after) && BecomesInjected(e.before, e.after)
    && e.after.duration.Minutes? && e.after.duration.count > 0
  }

  /** The update fails the experiment on the spot: it stopped without being injected, or it was
      injected without a readable duration. */
  predicate Rejects(e: Event, x: Target) {
    && Concerned(e, x)
    && (StopsBadly(e.before, e.after) || (BecomesInjected(e.before, e.after) && !e.after.duration.Minutes?))
  }

  lemma ConditionsDecide(before: Snapshot, after: Snapshot)
    ensures StoppedBadly(before, after) <==> StopsBadly(before, after)
    ensures RisingEdge(before, after) <==> BecomesInjected(before, after)
  {
    IsTrueMeansHolds(before.conditions, "AllInjected");
    IsTrueMeansHolds(after.conditions, "AllInjected");
    IsTrueMeansHolds(after.conditions, "Selected");
  }

  /** An update of the job, or of a stuck pod, that reports the failure of the job. */
  predicate ReportsFailureOf(e: Event, namespace: string, name: string) {
    || (e.JobUpdate? && e.namespace == namespace && e.new'.name == name && ReportsFailure(e.old', e.new'))
    || (e.PodUpdate? && e.found && e.pod.namespace == namespace && e.pod.isPending &&
        "ImagePullBackOff" in e.pod.reasons && IsFirstJob(e.pod.owners, name))
  }

  predicate ReportsSuccessOf(e: Event, namespace: string, name: string) {
    e.JobUpdate? && e.namespace == namespace && e.new'.name == name && ReportsSuccess(e.old', e.new')
  }

  /** The event asks for an entry of the kind. */
  predicate AsksFor(e: Event, q: Query) {
    match q
    case RejectionsOf(x) => Rejects(e, x)
    case StartsOf(x) => Starts(e, x)
    case FailuresOf(namespace, name) => ReportsFailureOf(e, namespace, name)
    case SuccessesOf(namespace, name) => ReportsSuccessOf(e, namespace, name)
    case _ => false
  }

  lemma JobUpdateCount(s: State, e: Event, debugging: bool, q: Query)
    requires e.JobUpdate? && IsQuiet(q, e.merge)
    ensures Count(Next(s, e, debugging).log, q) == Count(s.log, q) + One(AsksFor(e, q))
  {
    var failed := JobFailed(e.namespace, e.new'.name);
    LogCount(s, failed, q);
    var s' := if ReportsFailure(e.old', e.new') then Log(s, failed) else s;
    ConcludeCount(s', JobSucceeded(e.namespace, e.new'.name), debugging, e.merge, q);
  }

  lemma PodUpdateCount(s: State, e: Event, debugging: bool, q: Query)
    requires e.PodUpdate? && IsQuiet(q, e.merge)
    ensures Count(Next(s, e, debugging).log, q) == Count(s.log, q) + One(AsksFor(e, q))
  {
    if q.FailuresOf? {
      FirstJobIsUnique(e.pod.owners, q.name);
    }
    if IsStuck(e.pod) {
      ConcludeCount(s, PodReported(e.pod.namespace, JobOwner(e.pod.owners).value), debugging, e.merge, q);
    }
  }

  lemma UpdateCount(s: State, e: Event, debugging: bool, q: Query)
    requires e.Update? && IsQuiet(q, e.merge)
    ensures Count(Next(s, e, debugging).log, q) == Count(s.log, q) + One(AsksFor(e, q))
  {
    ConditionsDecide(e.before, e.after);
    if Starts(e, e.target) {
      StartCount(s, e.target, e.after.duration.count, e.merge, q);
    } else if Rejects(e, e.target) {
      ConcludeCount(s, Rejected(e.target), debugging, e.merge, q);
    }
  }

  lemma StepCount(s: State, e: Event, debugging: bool, q: Query)
    requires Possible(s, e) && IsQuiet(q, e.merge)
    ensures Count(Next(s, e, debugging).log, q) == Count(s.log, q) + One(AsksFor(e, q))
  {
    match e {
      case Update(_, _, _, _, _) => UpdateCount(s, e, debugging, q);
      case JobUpdate(_, _, _, _) => JobUpdateCount(s, e, debugging, q);
      case PodUpdate(_, _, _) => PodUpdateCount(s, e, debugging, q);
      case Work(i, answer, merge) =>
        WorkCount(Take(s, i), s.pending[i], answer, debugging, merge, q);
        assert Count(Take(s, i).log, q) == Count(s.log, q);
    }
  }

  lemma {:induction false} NothingMerged(s: State, es: seq<Event>, debugging: bool, k: nat)
    requires IsRun(s, es, debugging) && forall i :: 0 <= i < |es| ==> !es[i].merge
    ensures Count(Run(s, es, debugging).log, EndsAs(k, Merged)) == Count(s.log, EndsAs(k, Merged))
    decreases |es|
  {
    if es != [] {
      StepCount(s, es[0], debugging, EndsAs(k, Merged));
      NothingMerged(Next(s, es[0], debugging), es[1..], debugging, k);
    }
  }

  /** How many events of a run ask for an entry of the kind. */
  function Asked(es: seq<Event>, q: Query): nat {
    if es == [] then 0 else One(AsksFor(es[0], q)) + Asked(es[1..], q)
  }

  /** The chains, the callbacks outside the chains and the callbacks about jobs are exactly as many
      as the updates that ask for them. */
  lemma {:induction false} CallbacksOutsideChains(s: State, es: seq<Event>, debugging: bool, q: Query)
    requires IsRun(s, es, debugging) && (q.StartsOf? || q.RejectionsOf? || q.FailuresOf? || q.SuccessesOf?)
    ensures Count(Run(s, es, debugging).log, q) == Count(s.log, q) + Asked(es, q)
    decreases |es|
  {
    if es != [] {
      StepCount(s, es[0], debugging, q);
      CallbacksOutsideChains(Next(s, es[0], debugging), es[1..], debugging, q);
    }
  }

  // --- Whose chain it is

  /** The experiment and the duration a chain is started with. */
  datatype Beginning = Beginning(target: Target, minutes: nat)

  /** `owners` tells what every chain was started with. */
  ghost predicate Owned(s: State, owners: seq<Beginning>) {
    && |owners| == s.next
    && (forall i :: 0 <= i < |s.pending| ==> ItemOwned(s.pending[i], owners))
    && (forall m :: 0 <= m < |s.log| ==> EntryOwned(s.log[m], owners))
  }

  ghost predicate ItemOwned(item: Item, owners: seq<Beginning>) {
    item.CheckRecovery? ==> item.chain < |owners| && Beginning(item.target, item.minutes) == owners[item.chain]
  }

  ghost predicate EntryOwned(e: Entry, owners: seq<Beginning>) {
    && (e.Started? || e.Checked? || e.Ended? ==> e.chain < |owners| && e.target == owners[e.chain].target)
    && (e.Started? ==> e.minutes == owners[e.chain].minutes)
  }

  lemma EnqueueOwned(s: State, item: Item, merge: bool, owners: seq<Beginning>)
    requires Owned(s, owners) && ItemOwned(item, owners)
    ensures Owned(Enqueue(s, item, merge), owners)
  {
  }

  lemma LogOwned(s: State, e: Entry, owners: seq<Beginning>)
    requires Owned(s, owners) && EntryOwned(e, owners)
    ensures Owned(Log(s, e), owners)
  {
  }

  lemma ConcludeOwned(s: State, e: Entry, debugging: bool, merge: bool, owners: seq<Beginning>)
    requires Owned(s, owners) && EntryOwned(e, owners) && Concerns(e).Some?
    ensures Owned(Conclude(s, e, debugging, merge), owners)
  {
    LogOwned(s, e, owners);
    EnqueueOwned(Log(s, e), Delete(Concerns(e).value), merge, owners);
  }

  lemma WorkOwned(s: State, item: Item, answer: Answer, debugging: bool, merge: bool, owners: seq<Beginning>)
    requires Owned(s, owners) && ItemOwned(item, owners)
    ensures Owned(Process(s, item, answer, debugging, merge), owners)
  {
    EnqueueOwned(s, item, merge, owners);
    if item.CheckRecovery? && !answer.ApiError? {
      var s' := Log(s, Checked(item.target, item.chain, answer));
      LogOwned(s, Checked(item.target, item.chain, answer), owners);
      if answer.NotFound? {
        LogOwned(s', Ended(item.target, item.chain, Gone), owners);
      } else {
        EnqueueOwned(s', item.(retryCount := item.retryCount + 1), merge, owners);
        ConcludeOwned(s', Ended(item.target, item.chain, if answer.hasTimeRange then Success else NoTimeRange), debugging, merge, owners);
      }
    } else if item.Delete? {
      LogOwned(s, Deleted(item.resource), owners);
    }
  }

  lemma StartOwned(s: State, target: Target, minutes: nat, merge: bool, owners: seq<Beginning>)
    requires Owned(s, owners)
    ensures Owned(Start(s, target, minutes, merge), owners + [Beginning(target, minutes)])
  {
    var s' := Log(s, Started(target, s.next, minutes)).(next := s.next + 1);
    assert Owned(s', owners + [Beginning(target, minutes)]);
    EnqueueOwned(s', CheckRecovery(target, minutes, 0, MAX_RETRIES, s.next), merge, owners + [Beginning(target, minutes)]);
  }

  lemma StepOwned(s: State, e: Event, debugging: bool, owners: seq<Beginning>) returns (owners': seq<Beginning>)
    requires Possible(s, e) && Owned(s, owners)
    ensures Owned(Next(s, e, debugging), owners') && owners <= owners'
  {
    owners' := owners;
    match e {
      case Update(target, before, after, active, merge) =>
        ConditionsDecide(before, after);
        ConcludeOwned(s, Rejected(target), debugging, merge, owners);
        if Starts(e, target) {
          owners' := owners + [Beginning(target, after.duration.count)];
          StartOwned(s, target, after.duration.count, merge, owners);
        }
      case JobUpdate(namespace, before, after, merge) =>
        var failed := JobFailed(namespace, after.name);
        LogOwned(s, failed, owners);
        var s' := if ReportsFailure(before, after) then Log(s, failed) else s;
        ConcludeOwned(s', JobSucceeded(namespace, after.name), debugging, merge, owners);
      case PodUpdate(pod, _, merge) =>
        if IsStuck(pod) {
          ConcludeOwned(s, PodReported(pod.namespace, JobOwner(pod.owners).value), debugging, merge, owners);
        }
      case Work(i, answer, merge) =>
        WorkOwned(Take(s, i), s.pending[i], answer, debugging, merge, owners);
    }
  }

  /** Everything that happens to a chain happens to the target it was started for, and its checks
      keep the duration it was started with. */
  lemma {:induction false} ChainsKeepTheirTarget(s: State, es: seq<Event>, debugging: bool, owners: seq<Beginning>) returns (owners': seq<Beginning>)
    requires IsRun(s, es, debugging) && Owned(s, owners)
    ensures Owned(Run(s, es, debugging), owners') && owners <= owners'
    decreases |es|
  {
    owners' := owners;
    if es != [] {
      owners' := StepOwned(s, es[0], debugging, owners);
      owners' := ChainsKeepTheirTarget(Next(s, es[0], debugging), es[1..], debugging, owners');
    }
  }

  // --- Both callbacks for one object

  lemma RunOfThree(s: State, a: Event, b: Event, c: Event, debugging: bool)
    requires Possible(s, a) && Possible(Next(s, a, debugging), b)
    requires Possible(Next(Next(s, a, debugging), b, debugging), c)
    ensures IsRun(s, [a, b, c], debugging)
    ensures Run(s, [a, b, c], debugging) == Next(Next(Next(s, a, debugging), b, debugging), c, debugging)
  {
    var s1 := Next(s, a, debugging);
    var s2 := Next(s1, b, debugging);
    assert [a, b, c][1..] == [b, c] && [b, c][1..] == [c] && [c][1..] == [];
    var s3 := Next(s2, c, debugging);
    assert IsRun(s3, [], debugging) && Run(s3, [], debugging) == s3;
    assert IsRun(s2, [c], debugging) && Run(s2, [c], debugging) == s3;
    assert IsRun(s1, [b, c], debugging) && Run(s1, [b, c], debugging) == Next(s2, c, debugging);
  }

  /** The snapshots of an experiment that is injected and then stops. */
  function Seen(x: Target, phase: string, isInjected: bool): Snapshot {
    Snapshot(x.name, phase, if isInjected then [Condition("AllInjected", "True")] else [], Minutes(1))
  }

  lemma InjectionStarts(x: Target, debugging: bool, a: Event)
    requires a == Update(x, Seen(x, "Run", false), Seen(x, "Run", true), true, false)
    ensures Starts(a, x) && !Rejects(a, x)
    ensures Next(INITIAL, a, debugging) == State([CheckRecovery(x, 1, 0, MAX_RETRIES, 0)], [Started(x, 0, 1)], 1)
  {
    ConditionsDecide(a.before, a.after);
  }

  lemma StopRejects(s: State, x: Target, debugging: bool, b: Event)
    requires b == Update(x, Seen(x, "Run", true), Seen(x, "Stop", false), true, false)
    ensures Rejects(b, x) && !Starts(b, x)
    ensures Next(s, b, debugging).log == s.log + [Rejected(x)] && s.pending <= Next(s, b, debugging).pending
  {
    ConditionsDecide(b.before, b.after);
  }

  /** An experiment that is injected and then stops without being injected any more is failed on
      the spot, while its chain goes on to a success: two callbacks for one rising edge. */
  lemma StopAfterInjectionGetsTwoCallbacks(x: Target, debugging: bool) returns (es: seq<Event>)
    ensures IsRun(INITIAL, es, debugging) && Asked(es, StartsOf(x)) == 1 && Asked(es, RejectionsOf(x)) == 1
    ensures Ended(x, 0, Success) in Run(INITIAL, es, debugging).log && Rejected(x) in Run(INITIAL, es, debugging).log
  {
    var a := Update(x, Seen(x, "Run", false), Seen(x, "Run", true), true, false);
    var b := Update(x, Seen(x, "Run", true), Seen(x, "Stop", false), true, false);
    var c := Work(0, Found(true, true), false);
    es := [a, b, c];
    assert es[1..] == [b, c] && [b, c][1..] == [c] && [c][1..] == [];
    InjectionStarts(x, debugging, a);
    var s1 := Next(INITIAL, a, debugging);
    StopRejects(s1, x, debugging, b);
    var s2 := Next(s1, b, debugging);
    assert Asked([], StartsOf(x)) == 0 && Asked([], RejectionsOf(x)) == 0;
    assert Asked([c], StartsOf(x)) == 0 && Asked([c], RejectionsOf(x)) == 0;
    RunOfThree(INITIAL, a, b, c, debugging);
    var s3 := Next(s2, c, debugging);
    assert s3.log == s2.log + [Checked(x, 0, Found(true, true))] + [Ended(x, 0, Success)];
    assert s3.log[1] == Rejected(x) && s3.log[3] == Ended(x, 0, Success);
  }

  /** A stuck pod reports the failure of its job with every update. */
  lemma StuckPodReportsTwice(pod: Pod, debugging: bool, merge: bool) returns (es: seq<Event>)
    requires IsStuck(pod)
    ensures |es| == 2 && IsRun(INITIAL, es, debugging)
    ensures var name := JobOwner(pod.owners).value; Count(Run(INITIAL, es, debugging).log, FailuresOf(pod.namespace, name)) == 2
  {
    var e, q := PodUpdate(pod, true, merge), FailuresOf(pod.namespace, JobOwner(pod.owners).value);
    es := [e, e];
    FirstJobIsUnique(pod.owners, q.name);
    assert es[1..] == [e] && [e][1..] == [];
    var s1 := Next(INITIAL, e, debugging);
    assert IsRun(s1, [e], debugging);
    assert Asked([], q) == 0 && Asked([e], q) == 1;
    CallbacksOutsideChains(INITIAL, es, debugging, q);
  }

  lemma ConcludeWaits(s: State, e: Entry, debugging: bool, merge: bool, k: nat)
    requires Concerns(e).Some?
    ensures Waits(Conclude(s, e, debugging, merge).pending, k) == Waits(s.pending, k)
  {
    WaitsNext(s.pending, Delete(Concerns(e).value), k);
  }

  /** An answered check with no retries left ends its chain: one more end, and no other check. */
  lemma LastCheckEnds(s: State, item: Item, answer: Answer, debugging: bool, merge: bool, s': State)
    requires item.CheckRecovery? && item.retryCount >= item.maxRetries && !answer.ApiError?
    requires s' == OnChecked(s, item, answer, debugging, merge)
    ensures Count(s'.log, EndsOf(item.chain)) == Count(s.log, EndsOf(item.chain)) + 1
    ensures Waits(s'.pending, item.chain) == Waits(s.pending, item.chain)
  {
    var q, s1 := EndsOf(item.chain), Log(s, Checked(item.target, item.chain, answer));
    LogCount(s, Checked(item.target, item.chain, answer), q);
    if answer.NotFound? {
      LogCount(s1, Ended(item.target, item.chain, Gone), q);
    } else {
      var e := Ended(item.target, item.chain, if answer.hasTimeRange then Success else NoTimeRange);
      assert s' == Conclude(s1, e, debugging, merge);
      ConcludeCount(s1, e, debugging, merge, q);
      ConcludeWaits(s1, e, debugging, merge, item.chain);
    }
  }

  // ---------------------------------------------------------------------------
  // What each event does, in so many words
  // ---------------------------------------------------------------------------

  /** The items agree in all the controller sees of them: which chain a check continues it does not. */
  ghost predicate IsAlike(a: Item, b: Item) {
    || a == b
    || (&& a.CheckRecovery? && b.CheckRecovery? && a.target == b.target && a.minutes == b.minutes
        && a.retryCount == b.retryCount && a.maxRetries == b.maxRetries)
  }

  /** The entries are logged and the item is put on the queue, unless an equal one is waiting there:
      then nothing is queued, and a chain that this ends is logged as merged. */
  ghost predicate Queued(s: State, s': State, entries: seq<Entry>, item: Item, merge: bool) {
    if merge && exists i :: 0 <= i < |s.pending| && IsAlike(s.pending[i], item) then
      && s'.pending == s.pending
      && s'.log == s.log + entries + if item.CheckRecovery? then [Ended(item.target, item.chain, Merged)] else []
    else
      s'.pending == s.pending + [item] && s'.log == s.log + entries
  }

  /** The entries are logged, and unless debugging the deletion is on the queue. */
  ghost predicate Finished(s: State, s': State, entries: seq<Entry>, r: Resource, debugging: bool) {
    && s'.log == s.log + entries
    && if debugging then s'.pending == s.pending else Delete(r) in s'.pending && s.pending <= s'.pending
  }

  ghost predicate UpdateEffect(s: State, s': State, e: Event, debugging: bool)
    requires e.Update?
  {
    if Rejects(e, e.target) then
      s'.next == s.next && Finished(s, s', [Rejected(e.target)], Experiment(e.target), debugging)
    else if Starts(e, e.target) then
      var minutes := e.after.duration.count;
      s'.next == s.next + 1 && Queued(s, s', [Started(e.target, s.next, minutes)], CheckRecovery(e.target, minutes, 0, 2, s.next), e.merge)
    else
      s' == s
  }

  ghost predicate JobUpdateEffect(s: State, s': State, namespace: string, before: Job, after: Job, debugging: bool) {
    var fails := before.name == after.name && before.failed == before.backoffLimit && after.failed == after.backoffLimit + 1;
    var succeeds := before.name == after.name && before.succeeded == 0 && after.succeeded > 0;
    var failure := if fails then [JobFailed(namespace, after.name)] else [];
    if succeeds
    then Finished(s, s', failure + [JobSucceeded(namespace, after.name)], BatchJob(namespace, after.name), debugging)
    else s'.log == s.log + failure && s'.pending == s.pending
  }

  ghost predicate PodUpdateEffect(s: State, s': State, pod: Pod, found: bool, debugging: bool) {
    if found && pod.isPending && "ImagePullBackOff" in pod.reasons && exists name :: IsFirstJob(pod.owners, name) then
      exists name :: IsFirstJob(pod.owners, name) &&
        Finished(s, s', [PodReported(pod.namespace, name)], BatchJob(pod.namespace, name), debugging)
    else s' == s
  }

  /** `s` is the state without the item. */
  ghost predicate WorkEffect(s: State, s': State, item: Item, answer: Answer, debugging: bool, merge: bool) {
    match item
    case Other(_) => s' == s
    case Delete(r) =>
      if r.BatchJob? && debugging then s' == s
      else if answer.ApiError? then s'.log == s.log && item in s'.pending && s.pending <= s'.pending
      else s'.log == s.log + [Deleted(r)] && s'.pending == s.pending
    case CheckRecovery(x, minutes, retryCount, maxRetries, k) =>
      match answer
      case ApiError => Queued(s, s', [], item, merge)
      case NotFound => s'.pending == s.pending && s'.log == s.log + [Checked(x, k, answer), Ended(x, k, Gone)]
      case Found(false, hasTimeRange) =>
        if retryCount < maxRetries
        then Queued(s, s', [Checked(x, k, answer)], CheckRecovery(x, minutes, retryCount + 1, maxRetries, k), merge)
        else Finished(s, s', [Checked(x, k, answer), Ended(x, k, if hasTimeRange then Success else NoTimeRange)], Experiment(x), debugging)
      case Found(true, hasTimeRange) =>
        Finished(s, s', [Checked(x, k, answer), Ended(x, k, if hasTimeRange then Success else NoTimeRange)], Experiment(x), debugging)
  }

  lemma EnqueueMeans(s: State, item: Item, merge: bool)
    ensures Queued(s, Enqueue(s, item, merge), [], item, merge) && Enqueue(s, item, merge).next == s.next
    ensures item.Delete? ==> item in Enqueue(s, item, merge).pending && s.pending <= Enqueue(s, item, merge).pending && Enqueue(s, item, merge).log == s.log
  {
    assert s.log + [] == s.log;
  }

  lemma ConcludeMeans(s: State, e: Entry, debugging: bool, merge: bool)
    requires Concerns(e).Some?
    ensures Finished(s, Conclude(s, e, debugging, merge), [e], Concerns(e).value, debugging)
    ensures Conclude(s, e, debugging, merge).next == s.next
  {
    EnqueueMeans(Log(s, e), Delete(Concerns(e).value), merge);
  }

  lemma LoggedThenFinished(s: State, a: Entry, s': State, b: Entry, r: Resource, debugging: bool)
    requires Finished(Log(s, a), s', [b], r, debugging)
    ensures Finished(s, s', [a, b], r, debugging)
  {
    assert s.log + [a] + [b] == s.log + [a, b];
  }

  lemma LoggedThenQueued(s: State, s1: State, s': State, a: Entry, item: Item, merge: bool)
    requires s1.log == s.log + [a] && s1.pending == s.pending && Queued(s1, s', [], item, merge)
    ensures Queued(s, s', [a], item, merge)
  {
    assert s1.log + [] == s1.log;
  }

  lemma UpdateMeans(s: State, e: Event, debugging: bool)
    requires e.Update?
    ensures UpdateEffect(s, Next(s, e, debugging), e, debugging)
  {
    var x := e.target;
    ConditionsDecide(e.before, e.after);
    ConcludeMeans(s, Rejected(x), debugging, e.merge);
    if Starts(e, x) {
      var started := Started(x, s.next, e.after.duration.count);
      var s1 := Log(s, started).(next := s.next + 1);
      var item := CheckRecovery(x, e.after.duration.count, 0, MAX_RETRIES, s.next);
      EnqueueMeans(s1, item, e.merge);
      LoggedThenQueued(s, s1, Enqueue(s1, item, e.merge), started, item, e.merge);
    }
  }

  lemma JobUpdateMeans(s: State, namespace: string, before: Job, after: Job, debugging: bool, merge: bool)
    ensures JobUpdateEffect(s, OnJobUpdate(s, namespace, before, after, debugging, merge), namespace, before, after, debugging)
  {
    var failed, succeeded := JobFailed(namespace, after.name), JobSucceeded(namespace, after.name);
    assert s.log + [] == s.log && [] + [succeeded] == [succeeded] && [failed] + [succeeded] == [failed, succeeded];
    ConcludeMeans(s, succeeded, debugging, merge);
    ConcludeMeans(Log(s, failed), succeeded, debugging, merge);
    LoggedThenFinished(s, failed, Conclude(Log(s, failed), succeeded, debugging, merge), succeeded, BatchJob(namespace, after.name), debugging);
  }

  lemma PodUpdateMeans(s: State, pod: Pod, found: bool, debugging: bool, merge: bool)
    ensures PodUpdateEffect(s, OnPodUpdate(s, pod, found, debugging, merge), pod, found, debugging)
  {
    var owner := JobOwner(pod.owners);
    if owner.Some? {
      assert IsFirstJob(pod.owners, owner.value);
      ConcludeMeans(s, PodReported(pod.namespace, owner.value), debugging, merge);
    } else {
      forall name: string ensures !IsFirstJob(pod.owners, name) {
        FirstJobIsUnique(pod.owners, name);
      }
    }
  }

  lemma CheckedMeans(s: State, item: Item, answer: Answer, debugging: bool, merge: bool)
    requires item.CheckRecovery? && !answer.ApiError?
    ensures WorkEffect(s, OnChecked(s, item, answer, debugging, merge), item, answer, debugging, merge)
  {
    var x, k, checked := item.target, item.chain, Checked(item.target, item.chain, answer);
    var s1 := Log(s, checked);
    if answer.NotFound? {
      assert s.log + [checked] + [Ended(x, k, Gone)] == s.log + [checked, Ended(x, k, Gone)];
    } else if !answer.recovered && item.retryCount < item.maxRetries {
      var retry := CheckRecovery(x, item.minutes, item.retryCount + 1, item.maxRetries, k);
      EnqueueMeans(s1, retry, merge);
      LoggedThenQueued(s, s1, Enqueue(s1, retry, merge), checked, retry, merge);
    } else {
      var e := Ended(x, k, if answer.hasTimeRange then Success else NoTimeRange);
      ConcludeMeans(s1, e, debugging, merge);
      LoggedThenFinished(s, checked, Conclude(s1, e, debugging, merge), e, Experiment(x), debugging);
    }
  }

  lemma WorkMeans(s: State, item: Item, answer: Answer, debugging: bool, merge: bool)
    ensures WorkEffect(s, Process(s, item, answer, debugging, merge), item, answer, debugging, merge)
  {
    if item.CheckRecovery? && !answer.ApiError? {
      CheckedMeans(s, item, answer, debugging, merge);
    } else {
      EnqueueMeans(s, item, merge);
    }
  }

  // ---------------------------------------------------------------------------
  // The controller
  // ---------------------------------------------------------------------------

  /** `getCRDConditionStatus`: the first condition of the kind decides. */
  method ConditionStatus(conditions: seq<Condition>, kind: string) returns (status: bool)
    ensures status == IsTrue(conditions, kind)
    ensures status <==> Holds(conditions, kind)
  {
    IsTrueMeansHolds(conditions, kind);
    for i := 0 to |conditions|
      invariant IsTrue(conditions, kind) == IsTrue(conditions[i..], kind)
    {
      if conditions[i].kind == kind {
        return conditions[i].status == "True";
      }
      assert conditions[i..][1..] == conditions[i + 1..];
    }
    return false;
  }

  method FindJobOwner(owners: seq<OwnerReference>) returns (r: Option<string>)
    ensures r == JobOwner(owners)
  {
    for i := 0 to |owners|
      invariant JobOwner(owners) == JobOwner(owners[i..])
    {
      if owners[i].kind == "Job" {
        return Some(owners[i].name);
      }
      assert owners[i..][1..] == owners[i + 1..];
    }
    return None;
  }

  /** `checkPodReason`. */
  method HasReason(reasons: seq<string>, reason: string) returns (found: bool)
    ensures found <==> reason in reasons
  {
    for i := 0 to |reasons|
      invariant reason !in reasons[..i]
    {
      if reasons[i] == reason {
        return true;
      }
    }
    return false;
  }

  class Controller {
    var pending: seq<Item>
    var log: seq<Entry>
    var next: nat
    var activeNamespaces: map<string, bool>
    const debugging: bool

    constructor (debugging: bool)
      ensures View() == INITIAL && activeNamespaces == map[] && this.debugging == debugging
    {
      this.debugging := debugging;
      pending, log, next, activeNamespaces := [], [], 0, map[];
    }

    function View(): State
      reads this
    {
      State(pending, log, next)
    }

    predicate IsActive(namespace: string)
      reads this
    {
      namespace in activeNamespaces && activeNamespaces[namespace]
    }

    method Add(item: Item, merge: bool)
      modifies this`pending, this`log
      ensures View() == Enqueue(old(View()), item, merge)
    {
      if !(merge && IsWaiting(pending, item)) {
        pending := pending + [item];
      } else if item.CheckRecovery? {
        log := log + [Ended(item.target, item.chain, Merged)];
      }
    }

    /** `handleCRDFailed`, the end of `handleCRDSuccess`, and the end of a job. */
    method Finish(e: Entry, merge: bool)
      requires Concerns(e).Some?
      modifies this`pending, this`log
      ensures View() == Conclude(old(View()), e, debugging, merge)
    {
      log := log + [e];
      if !debugging {
        Add(Delete(Concerns(e).value), merge);
      }
    }

    /** The update handler of one resource type. */
    method HandleUpdate(target: Target, before: Snapshot, after: Snapshot, merge: bool)
      modifies this`pending, this`log, this`next
      ensures View() == OnUpdate(old(View()), target, before, after, IsActive(target.namespace), debugging, merge)
      ensures UpdateEffect(old(View()), View(), Update(target, before, after, IsActive(target.namespace), merge), debugging)
    {
      UpdateMeans(View(), Update(target, before, after, IsActive(target.namespace), merge), debugging);
      React(target, before, after, merge);
    }

    method React(target: Target, before: Snapshot, after: Snapshot, merge: bool)
      modifies this`pending, this`log, this`next
      ensures View() == OnUpdate(old(View()), target, before, after, IsActive(target.namespace), debugging, merge)
    {
      if !IsActive(target.namespace) || before.name != after.name {
        return;
      }
      if before.phase == "Run" && after.phase == "Stop" {
        var selected := ConditionStatus(after.conditions, "Selected");
        if !selected {
          Finish(Rejected(target), merge);
          return;
        }
        var allInjected := ConditionStatus(after.conditions, "AllInjected");
        if !allInjected {
          Finish(Rejected(target), merge);
          return;
        }
      }
      var wasInjected := ConditionStatus(before.conditions, "AllInjected");
      var isInjected := ConditionStatus(after.conditions, "AllInjected");
      if !wasInjected && isInjected {
        if !after.duration.Minutes? {
          Finish(Rejected(target), merge);
          return;
        }
        if after.duration.count > 0 {
          var chain := next;
          log, next := log + [Started(target, chain, after.duration.count)], next + 1;
          Add(CheckRecovery(target, after.duration.count, 0, MAX_RETRIES, chain), merge);
        }
      }
    }

    /** The update handler of the jobs. */
    method HandleJobUpdate(namespace: string, before: Job, after: Job, merge: bool)
      modifies this`pending, this`log
      ensures View() == OnJobUpdate(old(View()), namespace, before, after, debugging, merge)
      ensures JobUpdateEffect(old(View()), View(), namespace, before, after, debugging)
    {
      JobUpdateMeans(View(), namespace, before, after, debugging, merge);
      if before.name != after.name {
        return;
      }
      if before.failed == before.backoffLimit && after.failed == after.backoffLimit + 1 {
        log := log + [JobFailed(namespace, after.name)];
      }
      if before.succeeded == 0 && after.succeeded > 0 {
        Finish(JobSucceeded(namespace, after.name), merge);
      }
    }

    /** The update handler of the pods. */
    method HandlePodUpdate(pod: Pod, found: bool, merge: bool)
      modifies this`pending, this`log
      ensures View() == OnPodUpdate(old(View()), pod, found, debugging, merge)
      ensures PodUpdateEffect(old(View()), View(), pod, found, debugging)
    {
      PodUpdateMeans(View(), pod, found, debugging, merge);
      if !pod.isPending {
        return;
      }
      var owner := FindJobOwner(pod.owners);
      if owner.None? {
        return;
      }
      var isStuck := HasReason(pod.reasons, "ImagePullBackOff");
      if isStuck && found {
        Finish(PodReported(pod.namespace, owner.value), merge);
      }
    }

    /** One round of the queue worker, on the item at position `i`. */
    method ProcessQueueItem(i: nat, answer: Answer, merge: bool)
      requires i < |pending|
      modifies this`pending, this`log
      ensures View() == Next(old(View()), Work(i, answer, merge), debugging)
      ensures WorkEffect(State(old(pending)[..i] + old(pending)[i + 1..], old(log), old(next)), View(), old(pending)[i], answer, debugging, merge)
    {
      WorkMeans(Take(View(), i), pending[i], answer, debugging, merge);
      var item := pending[i];
      pending := Without(pending, i);
      if item.Other? || (item.Delete? && item.resource.BatchJob? && debugging) {
        return;
      }
      if answer.ApiError? {
        Add(item, merge);
      } else if item.Delete? {
        log := log + [Deleted(item.resource)];
      } else {
        CheckRecoveryStatus(item, answer, merge);
      }
    }

    /** `checkRecoveryStatus`, once the API has answered. */
    method CheckRecoveryStatus(item: Item, answer: Answer, merge: bool)
      requires item.CheckRecovery? && !answer.ApiError?
      modifies this`pending, this`log
      ensures View() == OnChecked(old(View()), item, answer, debugging, merge)
    {
      log := log + [Checked(item.target, item.chain, answer)];
      if answer.NotFound? {
        log := log + [Ended(item.target, item.chain, Gone)];
      } else if !answer.recovered && item.retryCount < item.maxRetries {
        Add(item.(retryCount := item.retryCount + 1), merge);
      } else {
        Finish(Ended(item.target, item.chain, if answer.hasTimeRange then Success else NoTimeRange), merge);
      }
    }
  }
}
