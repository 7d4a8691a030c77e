/** The job informer: callbacks on edges between successive snapshots of one job. */
module JobInformer {

  /** The status counters of a job, with its back-off limit. */
  datatype Job = Job(name: string, failed: int, succeeded: int, backoffLimit: int)

  /** The update handler reports a failure when the failures pass the limit. */
  predicate ReportsFailure(before: Job, after: Job) {
    before.name == after.name && before.failed == before.backoffLimit && after.failed == after.backoffLimit + 1
  }

  predicate ReportsSuccess(before: Job, after: Job) {
    before.name == after.name && before.succeeded == 0 && after.succeeded > 0
  }

  /** One job as the informer sees it: counters never go down. */
  ghost predicate IsHistory(jobs: seq<Job>) {
    forall i, j :: 0 <= i < j < |jobs| ==>
      && jobs[i].name == jobs[j].name && jobs[i].backoffLimit == jobs[j].backoffLimit
      && jobs[i].failed <= jobs[j].failed && jobs[i].succeeded <= jobs[j].succeeded
  }

  function Failures(jobs: seq<Job>): nat {
    if |jobs| < 2 then 0
    else (if ReportsFailure(jobs[0], jobs[1]) then 1 else 0) + Failures(jobs[1..])
  }

  function Successes(jobs: seq<Job>): nat {
    if |jobs| < 2 then 0
    else (if ReportsSuccess(jobs[0], jobs[1]) then 1 else 0) + Successes(jobs[1..])
  }

  /** The snapshots include one with this failure count. */
  ghost predicate Sees(jobs: seq<Job>, failed: int) {
    exists i :: 0 <= i < |jobs| && jobs[i].failed == failed
  }

  lemma {:induction false} NoReportPastLimit(jobs: seq<Job>)
    requires IsHistory(jobs) && (jobs != [] ==> jobs[0].failed > jobs[0].backoffLimit)
    ensures Failures(jobs) == 0
    decreases |jobs|
  {
    if |jobs| >= 2 {
      NoReportPastLimit(jobs[1..]);
    }
  }

  lemma {:induction false} NoSuccessAfterSuccess(jobs: seq<Job>)
    requires IsHistory(jobs) && (jobs != [] ==> jobs[0].succeeded > 0)
    ensures Successes(jobs) == 0
    decreases |jobs|
  {
    if |jobs| >= 2 {
      NoSuccessAfterSuccess(jobs[1..]);
    }
  }

  /** A failure is reported at most once, and exactly when both the limit and the next count
      are seen; a job whose failures jump over either is never reported. */
  lemma {:induction false} FailureReportedOnce(jobs: seq<Job>)
    requires jobs != [] && IsHistory(jobs)
    ensures Failures(jobs) == if Sees(jobs, jobs[0].backoffLimit) && Sees(jobs, jobs[0].backoffLimit + 1) then 1 else 0
    decreases |jobs|
  {
    var limit := jobs[0].backoffLimit;
    if |jobs| >= 2 {
      var rest := jobs[1..];
      FailureReportedOnce(rest);
      SeesSplits(jobs, limit);
      SeesSplits(jobs, limit + 1);
      if jobs[0].failed == limit {
        if rest[0].failed > limit {
          NoReportPastLimit(rest);
          if rest[0].failed == limit + 1 {
            assert Sees(rest, limit + 1);
          } else {
            assert forall i :: 0 <= i < |rest| ==> rest[i].failed >= rest[0].failed;
          }
        } else {
          assert Sees(rest, limit);
        }
      } else if jobs[0].failed == limit + 1 {
        NoReportPastLimit(jobs);
        assert forall i :: 0 <= i < |jobs| ==> jobs[i].failed > limit;
      }
    }
  }

  lemma SeesSplits(jobs: seq<Job>, failed: int)
    requires jobs != []
    ensures Sees(jobs, failed) <==> jobs[0].failed == failed || Sees(jobs[1..], failed)
  {
    if Sees(jobs, failed) && jobs[0].failed != failed {
      var i :| 0 <= i < |jobs| && jobs[i].failed == failed;
      assert jobs[1..][i - 1].failed == failed;
    }
    if Sees(jobs[1..], failed) {
      var i :| 0 <= i < |jobs[1..]| && jobs[1..][i].failed == failed;
      assert jobs[i + 1].failed == failed;
    }
  }

  /** A success is reported exactly once when the job starts with none and ends with some. */
  lemma {:induction false} SuccessReportedOnce(jobs: seq<Job>)
    requires jobs != [] && IsHistory(jobs) && jobs[0].succeeded >= 0
    ensures Successes(jobs) == if jobs[0].succeeded == 0 && jobs[|jobs| - 1].succeeded > 0 then 1 else 0
    decreases |jobs|
  {
    if |jobs| >= 2 {
      SuccessReportedOnce(jobs[1..]);
      if jobs[0].succeeded > 0 {
        NoSuccessAfterSuccess(jobs);
      } else if jobs[1].succeeded > 0 {
        NoSuccessAfterSuccess(jobs[1..]);
      }
    }
  }

  /** An informer that misses an intermediate state sees the failures jump; this job has failed
      for good, and nobody is told. */
  lemma FailureJumpIsNeverReported(name: string)
    ensures var jobs := [Job(name, 1, 0, 2), Job(name, 3, 0, 2)];
      IsHistory(jobs) && jobs[1].failed > jobs[1].backoffLimit && Failures(jobs) == 0
  {
    var jobs := [Job(name, 1, 0, 2), Job(name, 3, 0, 2)];
    FailureReportedOnce(jobs);
    assert !Sees(jobs, 2);
  }
}
