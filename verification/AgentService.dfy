/** The master's handlers for the calls that agents make. */
module AgentServices {
  import opened Common
  import opened ResourceSpecs
  import opened JobTable
  import opened NodeTable
  import JobManagers
  import NodeRegistries

  /** `job` may be handed to an agent of `node`: assigned there and not reported as started. */
  predicate Offerable(jobs: Table, job: JobId, node: NodeId) {
    job in jobs && jobs[job].status == Assigned && jobs[job].node == node
  }

  class AgentService {
    const jobMgr: JobManagers.JobManager
    const registry: NodeRegistries.NodeRegistry

    constructor (jobMgr: JobManagers.JobManager, registry: NodeRegistries.NodeRegistry)
      ensures this.jobMgr == jobMgr && this.registry == registry
    {
      this.jobMgr := jobMgr;
      this.registry := registry;
    }

    /** Offers some job assigned to the node, if there is one; the job is not marked. */
    method FetchJob(node: NodeId) returns (offer: Option<(JobId, JobSpec)>)
      requires jobMgr.Valid()
      ensures offer.Some? ==> Offerable(jobMgr.jobs, offer.value.0, node)
      ensures offer.Some? ==> offer.value.1 == jobMgr.jobs[offer.value.0].spec
      ensures offer.None? ==> forall job :: !Offerable(jobMgr.jobs, job, node)
    {
      var jobs := jobMgr.ListJobs(Assigned);
      for k := 0 to |jobs|
        invariant forall j :: 0 <= j < k ==> jobs[j].node != node
      {
        if jobs[k].node == node {
          return Some((jobs[k].id, jobs[k].spec));
        }
      }
      assert forall job :: Offerable(jobMgr.jobs, job, node) ==> jobMgr.jobs[job] in jobs;
      return None;
    }

    method SendHeartbeat(node: NodeId, available: Resources, runningJobs: nat, now: int)
        returns (acknowledged: bool, toCancel: seq<JobId>)
      requires jobMgr.Valid() && registry.Valid()
      modifies registry
      ensures registry.Valid()
      ensures acknowledged == (node in old(registry.nodes))
      ensures registry.nodes == Beat(old(registry.nodes), node, available, runningJobs, now)
      ensures NoDuplicates(toCancel)
      ensures forall job :: job in toCancel <==>
                acknowledged && job in jobMgr.jobs && ToCancel(jobMgr.jobs[job], node, now)
    {
      toCancel := [];
      acknowledged := registry.UpdateHeartbeat(node, available, runningJobs, now);
      if acknowledged {
        toCancel := jobMgr.GetJobsToCancelForNode(node, now);
      }
    }

    method ReportJobStarted(job: JobId, node: NodeId, now: int) returns (ok: bool)
      requires jobMgr.Valid()
      modifies jobMgr
      ensures jobMgr.Valid()
      ensures ok == (job in old(jobMgr.jobs))
      ensures jobMgr.jobs == UpdateStatus(old(jobMgr.jobs), job, Running, node, now)
    {
      ok := jobMgr.UpdateJobStatus(job, Running, node, now);
    }

    method ReportJobCompleted(job: JobId, node: NodeId, now: int) returns (ok: bool)
      requires jobMgr.Valid()
      modifies jobMgr
      ensures jobMgr.Valid()
      ensures ok == (job in old(jobMgr.jobs))
      ensures jobMgr.jobs == UpdateStatus(old(jobMgr.jobs), job, Completed, node, now)
    {
      ok := jobMgr.UpdateJobStatus(job, Completed, node, now);
    }

    method ReportJobFailed(job: JobId, node: NodeId, now: int) returns (ok: bool)
      requires jobMgr.Valid()
      modifies jobMgr
      ensures jobMgr.Valid()
      ensures ok == (job in old(jobMgr.jobs))
      ensures jobMgr.jobs == UpdateStatus(old(jobMgr.jobs), job, Failed, node, now)
    {
      ok := jobMgr.UpdateJobStatus(job, Failed, node, now);
    }
  }

  /** Reporting a start withdraws the offer; until then the same job is offered again and again. */
  lemma StartWithdrawsOffer(jobs: Table, job: JobId, node: NodeId, now: int)
    requires Offerable(jobs, job, node) && node != ""
    ensures !Offerable(UpdateStatus(jobs, job, Running, node, now), job, node)
    ensures forall other, n :: other != job ==>
              (Offerable(UpdateStatus(jobs, job, Running, node, now), other, n) <==> Offerable(jobs, other, n))
  {
  }
}
