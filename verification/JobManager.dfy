/** The master's job table: what each operation does to it, and what no sequence of operations can undo. */
module JobTable {
  import opened Common
  import opened ResourceSpecs

  datatype JobStatus =
    | Unspecified | Submitted | Queued | Assigned | Running
    | Completed | Failed | Cancelled | Preempted

  datatype JobSpec = JobSpec(resources: Resources, priority: int, command: string)

  datatype JobInfo = JobInfo(
    id: JobId, user: UserId, username: string, spec: JobSpec,
    status: JobStatus, node: NodeId, error: string,
    submittedAt: int, startedAt: int, completedAt: int)

  type Table = map<JobId, JobInfo>

  predicate Final(status: JobStatus) {
    status == Completed || status == Failed
  }

  predicate Finished(status: JobStatus) {
    Final(status) || status == Cancelled
  }

  function NewJob(id: JobId, spec: JobSpec, user: UserId, username: string, now: int): JobInfo {
    JobInfo(id, user, username, spec, Queued, "", "", now, 0, 0)
  }

  /** A status write. There is no guard: any status may replace any other. */
  function WriteStatus(info: JobInfo, status: JobStatus, node: NodeId, now: int): JobInfo {
    var marked := info.(status := status);
    if status == Assigned || status == Running then
      var placed := if node != "" then marked.(node := node) else marked;
      if status == Running && placed.startedAt == 0 then placed.(startedAt := now) else placed
    else if Finished(status) then marked.(completedAt := now)
    else marked
  }

  function Submit(jobs: Table, id: JobId, spec: JobSpec, user: UserId, username: string, now: int): Table {
    jobs[id := NewJob(id, spec, user, username, now)]
  }

  function UpdateStatus(jobs: Table, id: JobId, status: JobStatus, node: NodeId, now: int): Table {
    if id in jobs then jobs[id := WriteStatus(jobs[id], status, node, now)] else jobs
  }

  predicate Cancellable(jobs: Table, id: JobId) {
    id in jobs && !Finished(jobs[id].status)
  }

  function Cancel(jobs: Table, id: JobId, now: int): Table {
    if Cancellable(jobs, id) then jobs[id := jobs[id].(status := Cancelled, completedAt := now)] else jobs
  }

  predicate BusyOn(info: JobInfo, node: NodeId) {
    (info.status == Assigned || info.status == Running) && info.node == node
  }

  function FailOnNode(jobs: Table, node: NodeId, now: int): Table {
    map id | id in jobs ::
      if BusyOn(jobs[id], node) then jobs[id].(status := Failed, error := "Node went offline", completedAt := now)
      else jobs[id]
  }

  // ---- Listings -----------------------------------------------------------------------------------

  predicate Matches(filter: JobStatus, info: JobInfo) {
    filter == Unspecified || info.status == filter
  }

  predicate KeysAreIds(jobs: Table) {
    forall id :: id in jobs ==> jobs[id].id == id
  }

  /** `r` holds each table entry that passes the filter exactly once, in whatever order the hash map or a
      later sort produces. */
  ghost predicate IsListing(jobs: Table, filter: JobStatus, r: seq<JobInfo>) {
    && (forall k :: 0 <= k < |r| ==> r[k].id in jobs && jobs[r[k].id] == r[k] && Matches(filter, r[k]))
    && (forall id :: id in jobs && Matches(filter, jobs[id]) ==> jobs[id] in r)
    && (forall i, j :: 0 <= i < j < |r| ==> r[i].id != r[j].id)
  }

  function JobIds(r: seq<JobInfo>): (ids: seq<JobId>)
    ensures |ids| == |r|
  {
    seq(|r|, k requires 0 <= k < |r| => r[k].id)
  }

  /** Whose ids a listing holds: with no status given every job's, and otherwise those of exactly the jobs that
      have the status; each once, and with the job's own entry. */
  lemma ListingIsComplete(jobs: Table, filter: JobStatus, r: seq<JobInfo>)
    requires KeysAreIds(jobs) && IsListing(jobs, filter, r)
    ensures NoDuplicates(JobIds(r)) && forall k :: 0 <= k < |r| ==> r[k].id in jobs && r[k] == jobs[r[k].id]
    ensures filter == Unspecified ==> |r| == |jobs| && forall id :: id in jobs <==> id in JobIds(r)
    ensures filter != Unspecified ==>
              forall id :: id in jobs && jobs[id].status == filter <==> id in JobIds(r)
  {
    forall id | id in jobs && (filter == Unspecified || jobs[id].status == filter) ensures id in JobIds(r) {
      assert jobs[id] in r;
      var k :| 0 <= k < |r| && r[k] == jobs[id];
      assert JobIds(r)[k] == id;
    }
    forall id | id in JobIds(r) ensures id in jobs && (filter == Unspecified || jobs[id].status == filter) {
      var k :| 0 <= k < |r| && JobIds(r)[k] == id;
    }
    if filter == Unspecified {
      DistinctCount(JobIds(r), jobs.Keys);
    }
  }

  /** Sorting a listing gives a listing. */
  lemma ListingInAnyOrder(jobs: Table, filter: JobStatus, r: seq<JobInfo>, r': seq<JobInfo>)
    requires IsListing(jobs, filter, r) && multiset(r) == multiset(r')
    ensures IsListing(jobs, filter, r')
  {
    forall x: JobInfo ensures x in r <==> x in r' {
      assert x in multiset(r) <==> x in multiset(r');
    }
    forall k | 0 <= k < |r'| ensures r'[k].id in jobs && jobs[r'[k].id] == r'[k] && Matches(filter, r'[k]) {
      assert r'[k] in r;
    }
    forall i, j | 0 <= i < j < |r'| ensures r'[i].id != r'[j].id {
      if r'[i].id == r'[j].id {
        assert r'[i] in r && r'[j] in r;
        assert r'[i] == r'[j];
        SeenTwice(r', i, j);
        SeenOnce(r, r'[i]);
        assert false;
      }
    }
  }

  lemma SeenTwice(r: seq<JobInfo>, i: int, j: int)
    requires 0 <= i < j < |r| && r[i] == r[j]
    ensures multiset(r)[r[i]] >= 2
  {
    assert r == r[..j] + r[j..];
    assert multiset(r) == multiset(r[..j]) + multiset(r[j..]);
    assert r[i] == r[..j][i] && r[..j][i] in multiset(r[..j]);
    assert r[j] == r[j..][0] && r[j..][0] in multiset(r[j..]);
  }

  lemma {:induction false} SeenOnce(r: seq<JobInfo>, x: JobInfo)
    requires forall i, j :: 0 <= i < j < |r| ==> r[i].id != r[j].id
    ensures multiset(r)[x] <= 1
  {
    if r != [] {
      var n := |r| - 1;
      assert r == r[..n] + [r[n]];
      SeenOnce(r[..n], x);
      if x == r[n] {
        assert x !in r[..n];
        assert x !in multiset(r[..n]);
      }
    }
  }

  // ---- Histories of the table ---------------------------------------------------------------------

  datatype Op =
    | DoSubmit(id: JobId, spec: JobSpec, user: UserId, username: string, now: int)
    | DoUpdate(id: JobId, status: JobStatus, node: NodeId, now: int)
    | DoCancel(id: JobId, now: int)
    | DoFailOnNode(node: NodeId, now: int)

  function Apply(jobs: Table, op: Op): Table {
    match op
    case DoSubmit(id, spec, user, username, now) => Submit(jobs, id, spec, user, username, now)
    case DoUpdate(id, status, node, now) => UpdateStatus(jobs, id, status, node, now)
    case DoCancel(id, now) => Cancel(jobs, id, now)
    case DoFailOnNode(node, now) => FailOnNode(jobs, node, now)
  }

  /** Fresh ids and a clock past the epoch; nothing is asked of the status written. */
  predicate Ordinary(jobs: Table, op: Op) {
    op.now != 0 && (op.DoSubmit? ==> op.id !in jobs)
  }

  ghost predicate OrdinaryRun(jobs: Table, ops: seq<Op>)
    decreases ops
  {
    ops == [] || (Ordinary(jobs, ops[0]) && OrdinaryRun(Apply(jobs, ops[0]), ops[1..]))
  }

  function ApplyAll(jobs: Table, ops: seq<Op>): Table
    decreases ops
  {
    if ops == [] then jobs else ApplyAll(Apply(jobs, ops[0]), ops[1..])
  }

  ghost predicate TableInvariant(jobs: Table) {
    && KeysAreIds(jobs)
    && (forall id :: id in jobs && jobs[id].status == Running ==> jobs[id].startedAt != 0)
    && (forall id :: id in jobs && Finished(jobs[id].status) ==> jobs[id].completedAt != 0)
  }

  /** What survives from one table to a later one: no job disappears, its description never changes, and
      a start time once recorded is never rewritten. */
  ghost predicate Evolves(before: Table, after: Table) {
    forall id :: id in before ==>
      && id in after
      && after[id].user == before[id].user && after[id].username == before[id].username
      && after[id].spec == before[id].spec && after[id].submittedAt == before[id].submittedAt
      && (before[id].startedAt != 0 ==> after[id].startedAt == before[id].startedAt)
  }

  lemma OperationKeepsTable(jobs: Table, op: Op)
    requires TableInvariant(jobs) && Ordinary(jobs, op)
    ensures TableInvariant(Apply(jobs, op)) && Evolves(jobs, Apply(jobs, op))
  {
    match op
    case DoSubmit(id, spec, user, username, now) =>
    case DoUpdate(id, status, node, now) =>
      if id in jobs {
        ReplaceKeepsTable(jobs, id, WriteStatus(jobs[id], status, node, now));
      }
    case DoCancel(id, now) =>
      if Cancellable(jobs, id) {
        ReplaceKeepsTable(jobs, id, jobs[id].(status := Cancelled, completedAt := now));
      }
    case DoFailOnNode(node, now) => FailKeepsTable(jobs, node, now);
  }

  lemma ReplaceKeepsTable(jobs: Table, id: JobId, info: JobInfo)
    requires TableInvariant(jobs) && id in jobs
    requires info.id == id && info.user == jobs[id].user && info.username == jobs[id].username
    requires info.spec == jobs[id].spec && info.submittedAt == jobs[id].submittedAt
    requires jobs[id].startedAt != 0 ==> info.startedAt == jobs[id].startedAt
    requires info.status == Running ==> info.startedAt != 0
    requires Finished(info.status) ==> info.completedAt != 0
    ensures TableInvariant(jobs[id := info]) && Evolves(jobs, jobs[id := info])
  {
  }

  lemma FailKeepsTable(jobs: Table, node: NodeId, now: int)
    requires TableInvariant(jobs) && now != 0
    ensures TableInvariant(FailOnNode(jobs, node, now)) && Evolves(jobs, FailOnNode(jobs, node, now))
  {
  }

  lemma {:induction false} HistoryKeepsTable(jobs: Table, ops: seq<Op>)
    requires TableInvariant(jobs) && OrdinaryRun(jobs, ops)
    ensures TableInvariant(ApplyAll(jobs, ops)) && Evolves(jobs, ApplyAll(jobs, ops))
    decreases ops
  {
    if ops != [] {
      var next := Apply(jobs, ops[0]);
      OperationKeepsTable(jobs, ops[0]);
      HistoryKeepsTable(next, ops[1..]);
      var end := ApplyAll(next, ops[1..]);
      forall id | id in jobs ensures id in end && id in next {
      }
    }
  }

  /** Taking a node out of service fails exactly what was assigned to it or running on it, at that time and with
      that reason, and changes nothing else. */
  lemma FailOnNodeIsExact(jobs: Table, node: NodeId, now: int)
    ensures var after := FailOnNode(jobs, node, now);
            && after.Keys == jobs.Keys
            && (forall id :: id in jobs && after[id].node == node ==> after[id].status !in {Assigned, Running})
            && (forall id :: id in jobs ==>
                  (after[id] != jobs[id] <==> jobs[id].node == node && jobs[id].status in {Assigned, Running}))
            && (forall id :: id in jobs && after[id] != jobs[id] ==>
                  && after[id].status == Failed && after[id].completedAt == now
                  && after[id].error == "Node went offline"
                  && SameButOutcome(jobs[id], after[id]))
  {
  }

  /** Two states of a job that differ at most in its status, node, error, start and end. */
  predicate SameDescription(a: JobInfo, b: JobInfo) {
    && a.id == b.id && a.user == b.user && a.username == b.username && a.spec == b.spec
    && a.submittedAt == b.submittedAt
  }

  /** Two states of a job that differ at most in how it ended. */
  predicate SameButOutcome(a: JobInfo, b: JobInfo) {
    SameDescription(a, b) && a.node == b.node && a.startedAt == b.startedAt
  }

  /** A submitted job is entered just as it was submitted, queued, on no node, with no other time, and every other
      job is left as it was. */
  lemma SubmissionEntersExactly(jobs: Table, id: JobId, spec: JobSpec, user: UserId, username: string, now: int)
    ensures var after := Submit(jobs, id, spec, user, username, now);
            && after.Keys == jobs.Keys + {id}
            && (forall other :: other in jobs && other != id ==> after[other] == jobs[other])
            && after[id].id == id && after[id].spec == spec
            && after[id].user == user && after[id].username == username
            && after[id].status == Queued && after[id].node == "" && after[id].error == ""
            && after[id].submittedAt == now && after[id].startedAt == 0 && after[id].completedAt == 0
  {
  }

  /** And it keeps that description through every further sequence of operations. */
  lemma SubmittedStaysAsSubmitted(jobs: Table, id: JobId, spec: JobSpec, user: UserId, username: string, now: int,
      ops: seq<Op>)
    requires TableInvariant(jobs) && id !in jobs && now != 0
    requires OrdinaryRun(Submit(jobs, id, spec, user, username, now), ops)
    ensures var end := ApplyAll(Submit(jobs, id, spec, user, username, now), ops);
            && id in end && end[id].spec == spec && end[id].user == user && end[id].username == username
            && end[id].submittedAt == now
  {
    OperationKeepsTable(jobs, DoSubmit(id, spec, user, username, now));
    SubmissionEntersExactly(jobs, id, spec, user, username, now);
    HistoryKeepsTable(Submit(jobs, id, spec, user, username, now), ops);
  }

  /** What a status write does, field by field. The node is only ever replaced, by a node that is named, and only
      together with `Assigned` or `Running`; the start time is written once, and the end time with every end. */
  lemma StatusWriteIsExact(jobs: Table, id: JobId, status: JobStatus, node: NodeId, now: int)
    ensures var after := UpdateStatus(jobs, id, status, node, now);
            && after.Keys == jobs.Keys
            && (forall other :: other in jobs && other != id ==> after[other] == jobs[other])
            && (id in jobs ==>
                  && after[id].status == status && after[id].error == jobs[id].error
                  && SameDescription(jobs[id], after[id])
                  && (after[id].node == node <==>
                        jobs[id].node == node || (node != "" && status in {Assigned, Running}))
                  && after[id].node in {node, jobs[id].node}
                  && (after[id].startedAt != jobs[id].startedAt <==>
                        status == Running && jobs[id].startedAt == 0 && now != 0)
                  && after[id].startedAt in {jobs[id].startedAt, now}
                  && after[id].completedAt ==
                       if status in {Completed, Failed, Cancelled} then now else jobs[id].completedAt)
  {
  }

  /** Only cancelled jobs are announced, and a job that leaves that status is announced no longer. */
  lemma OnlyCancelledIsAnnounced(info: JobInfo, node: NodeId, now: int)
    ensures ToCancel(info, node, now) ==> info.status == Cancelled && info.node == node
  {
  }

  predicate ToCancel(info: JobInfo, node: NodeId, now: int) {
    info.status == Cancelled && info.node == node && now - info.completedAt < 60
  }

  /** Every cancellation of a job that sits on a node reaches that node's heartbeats for sixty seconds; it is
      refused, without effect, exactly for jobs that are unknown or over. */
  lemma CancelReachesTheNode(jobs: Table, id: JobId, at: int, now: int)
    ensures var after := Cancel(jobs, id, at);
            && (id in jobs && jobs[id].status !in {Completed, Failed, Cancelled} ==>
                  && id in after && after[id].status == Cancelled && after[id].completedAt == at
                  && after[id].error == jobs[id].error && SameButOutcome(jobs[id], after[id])
                  && forall node :: ToCancel(after[id], node, now) <==> node == jobs[id].node && now < at + 60)
            && (id !in jobs || jobs[id].status in {Completed, Failed, Cancelled} <==> after == jobs)
            && !Cancellable(after, id)
            && after.Keys == jobs.Keys
            && (forall other :: other in jobs && other != id ==> after[other] == jobs[other])
  {
    if Cancellable(jobs, id) {
      assert Cancel(jobs, id, at)[id].status == Cancelled;
    }
  }
}

module JobManagers {
  import opened Common
  import opened JobTable

  class JobManager {
    var jobs: Table

    ghost predicate Valid()
      reads this
    {
      KeysAreIds(jobs)
    }

    constructor ()
      ensures Valid() && jobs == map[]
    {
      jobs := map[];
    }

    /** `digits` stands for the eight hexadecimal digits drawn at random. */
    method SubmitJob(spec: JobSpec, user: UserId, username: string, digits: string, now: int) returns (id: JobId)
      requires Valid()
      modifies this
      ensures Valid()
      ensures id == "job-" + digits
      ensures jobs == Submit(old(jobs), id, spec, user, username, now)
    {
      id := "job-" + digits;
      var info := JobInfo(id, user, username, spec, Queued, "", "", now, 0, 0);
      jobs := jobs[id := info];
    }

    method UpdateJobStatus(id: JobId, status: JobStatus, node: NodeId, now: int) returns (ok: bool)
      requires Valid()
      modifies this
      ensures Valid()
      ensures ok == (id in old(jobs))
      ensures jobs == UpdateStatus(old(jobs), id, status, node, now)
    {
      if id !in jobs {
        return false;
      }
      var info := jobs[id];
      info := info.(status := status);
      if status == Assigned || status == Running {
        if node != "" {
          info := info.(node := node);
        }
        if status == Running && info.startedAt == 0 {
          info := info.(startedAt := now);
        }
      } else if status == Completed || status == Failed || status == Cancelled {
        info := info.(completedAt := now);
      }
      jobs := jobs[id := info];
      return true;
    }

    method ListJobs(filter: JobStatus) returns (result: seq<JobInfo>)
      requires Valid()
      ensures IsListing(jobs, filter, result)
    {
      result := [];
      var todo := jobs.Keys;
      while todo != {}
        invariant todo <= jobs.Keys
        invariant forall k :: 0 <= k < |result| ==>
                  result[k].id in jobs && result[k].id !in todo &&
                  jobs[result[k].id] == result[k] && Matches(filter, result[k])
        invariant forall id :: id in jobs && id !in todo && Matches(filter, jobs[id]) ==> jobs[id] in result
        invariant forall i, j :: 0 <= i < j < |result| ==> result[i].id != result[j].id
        decreases todo
      {
        var id :| id in todo;
        todo := todo - {id};
        if filter == Unspecified || jobs[id].status == filter {
          result := result + [jobs[id]];
        }
      }
    }

    method GetPendingJobs() returns (result: seq<JobInfo>)
      requires Valid()
      ensures IsListing(jobs, Queued, result)
    {
      result := ListJobs(Queued);
    }

    method FailJobsOnNode(node: NodeId, now: int)
      requires Valid()
      modifies this
      ensures Valid()
      ensures jobs == FailOnNode(old(jobs), node, now)
    {
      ghost var target := FailOnNode(jobs, node, now);
      var todo := jobs.Keys;
      while todo != {}
        invariant todo <= jobs.Keys == target.Keys
        invariant forall id :: id in jobs ==> jobs[id] == if id in todo then old(jobs)[id] else target[id]
        decreases todo
      {
        var id :| id in todo;
        var info := jobs[id];
        if (info.status == Assigned || info.status == Running) && info.node == node {
          info := info.(status := Failed);
          info := info.(error := "Node went offline");
          info := info.(completedAt := now);
          jobs := jobs[id := info];
        }
        todo := todo - {id};
      }
    }

    method CancelJob(id: JobId, now: int) returns (ok: bool)
      requires Valid()
      modifies this
      ensures Valid()
      ensures ok == Cancellable(old(jobs), id)
      ensures jobs == Cancel(old(jobs), id, now)
    {
      if id !in jobs {
        return false;
      }
      var current := jobs[id].status;
      if current == Completed || current == Failed || current == Cancelled {
        return false;
      }
      jobs := jobs[id := jobs[id].(status := Cancelled, completedAt := now)];
      return true;
    }

    method GetJobsToCancelForNode(node: NodeId, now: int) returns (ids: seq<JobId>)
      requires Valid()
      ensures NoDuplicates(ids)
      ensures forall id :: id in ids <==> id in jobs && ToCancel(jobs[id], node, now)
    {
      ids := [];
      var todo := jobs.Keys;
      while todo != {}
        invariant todo <= jobs.Keys
        invariant NoDuplicates(ids)
        invariant forall id :: id in ids <==> id in jobs && id !in todo && ToCancel(jobs[id], node, now)
        decreases todo
      {
        var id :| id in todo;
        todo := todo - {id};
        var info := jobs[id];
        if info.status == Cancelled && info.node == node {
          if now - info.completedAt < 60 {
            ids := ids + [info.id];
          }
        }
      }
    }
  }
}
