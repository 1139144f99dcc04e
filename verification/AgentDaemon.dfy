/** What an agent's threads do, one iteration or one job at a time, on the objects they share. */
module AgentDaemons {
  import opened Common
  import opened ResourceSpecs
  import opened JobTable
  import opened NodeTable
  import opened Execution
  import opened AgentServices

  /** The master's table after the callbacks of one job thread; `fork` is empty when no process was made. */
  function AfterThread(jobs: Table, job: JobId, node: NodeId, fork: Option<nat>, w: WaitStatus, begun: int,
      ended: int): Table
  {
    if fork.None? then UpdateStatus(jobs, job, Reported(NEVER_STARTED), node, ended)
    else UpdateStatus(UpdateStatus(jobs, job, JobStatus.Running, node, begun), job, Reported(ResultOf(w)), node, ended)
  }

  class AgentDaemon {
    const node: NodeId
    const service: AgentService
    const executor: JobExecutor

    constructor (node: NodeId, service: AgentService)
      ensures this.node == node && this.service == service
      ensures fresh(executor) && executor.running == map[]
    {
      this.node := node;
      this.service := service;
      this.executor := new JobExecutor();
    }

    /** One iteration of the polling loop. */
    method PollOnce() returns (offer: Option<JobId>, launched: bool)
      requires service.jobMgr.Valid()
      modifies executor
      ensures offer.None? ==> forall job :: !Offerable(service.jobMgr.jobs, job, node)
      ensures offer.Some? ==> Offerable(service.jobMgr.jobs, offer.value, node)
      ensures launched == (offer.Some? && offer.value !in old(executor.running))
      ensures executor.running ==
              if launched then Entered(old(executor.running), offer.value) else old(executor.running)
    {
      offer, launched := None, false;
      var reply := service.FetchJob(node);
      if reply.Some? {
        offer := Some(reply.value.0);
        launched := executor.ExecuteAsync(reply.value.0);
      }
    }

    /** One iteration of the heartbeat loop; `killed` are the processes signalled, in the order of the reply. */
    method HeartbeatOnce(available: Resources, now: int) returns (acknowledged: bool, killed: seq<nat>)
      requires service.jobMgr.Valid() && service.registry.Valid()
      modifies service.registry
      ensures service.registry.Valid()
      ensures service.registry.nodes == Beat(old(service.registry.nodes), node, available, |executor.running|, now)
      ensures acknowledged == (node in old(service.registry.nodes))
      ensures forall pid :: pid in killed <==>
              exists job :: acknowledged && job in service.jobMgr.jobs && ToCancel(service.jobMgr.jobs[job], node, now)
                             && pid > 0 && (job, pid) in executor.running.Items
    {
      killed := [];
      var count := executor.GetRunningCount();
      var toCancel;
      acknowledged, toCancel := service.SendHeartbeat(node, available, count, now);
      if acknowledged {
        for k := 0 to |toCancel|
          modifies {}
          invariant forall pid :: pid in killed <==>
                    exists j :: 0 <= j < k && pid > 0 && (toCancel[j], pid) in executor.running.Items
        {
          var pid := executor.CancelRunning(toCancel[k]);
          if pid.Some? {
            killed := killed + [pid.value];
          }
        }
      }
    }

    /** The thread of one job, from the fork to the last callback. A failed fork leaves the table entry behind. */
    method RunThread(job: JobId, fork: Option<nat>, buffers: seq<string>, w: WaitStatus, begun: int, ended: int)
        returns (output: string)
      requires service.jobMgr.Valid()
      modifies executor, service.jobMgr
      ensures service.jobMgr.Valid()
      ensures service.jobMgr.jobs == AfterThread(old(service.jobMgr.jobs), job, node, fork, w, begun, ended)
      ensures executor.running == if fork.Some? then Removed(old(executor.running), job) else old(executor.running)
      ensures output == if fork.Some? then Kept(buffers) else ""
    {
      output := "";
      var result := NEVER_STARTED;
      if fork.Some? {
        executor.RegisterPid(job, fork.value);
        var _ := service.ReportJobStarted(job, node, begun);
        output := CollectOutput(buffers);
        result := ResultOf(w);
        executor.Forget(job);
      }
      if result.success || result.exitCode != -1 {
        var _ := service.ReportJobCompleted(job, node, ended);
      } else {
        var _ := service.ReportJobFailed(job, node, ended);
      }
    }
  }
}

/** The agent's steps of the protocol, run without interference, do what the methods of the daemon promise. */
module AgentSteps {
  import opened Common
  import opened JobTable
  import opened Execution
  import opened AgentServices
  import opened AgentDaemons
  import opened ClusterProtocol
  import opened ClusterInvariant

  /** The steps of one poll that is offered `job`. */
  ghost function PollSteps(s: State, agent: AgentId, job: JobId): seq<Action>
    requires agent in s.agents
  {
    [Fetch(agent, job), Spawn(agent)] + if job in s.agents[agent].running then [] else [Enter(agent)]
  }

  lemma UninterruptedPoll(s: State, agent: AgentId, job: JobId)
    requires agent in s.agents && s.agents[agent].poll.Asking? && Offerable(s.jobs, job, s.agents[agent].node)
    ensures IsRun(s, PollSteps(s, agent, job))
    ensures var running := s.agents[agent].running;
            var launched := job !in running;
            var running' := if launched then Entered(running, job) else running;
            After(s, PollSteps(s, agent, job)) == s.(
              agents := s.agents[agent := s.agents[agent].(running := running')],
              launches := if launched then s.launches + [Launch(agent, job, 0, Spawned)] else s.launches)
  {
    var s1 := Next(s, Fetch(agent, job));
    var s2 := Next(s1, Spawn(agent));
    var entering: seq<Action> := if job in s.agents[agent].running then [] else [Enter(agent)];
    if job !in s.agents[agent].running {
      var _ := OneStep(s2, Enter(agent));
    }
    StepThenRun(s1, Spawn(agent), entering);
    StepThenRun(s, Fetch(agent, job), [Spawn(agent)] + entering);
    assert PollSteps(s, agent, job) == [Fetch(agent, job)] + ([Spawn(agent)] + entering);
  }

  /** The steps of a job's thread. */
  ghost function ThreadSteps(t: nat, fork: Option<nat>, w: WaitStatus, begun: int, ended: int): seq<Action> {
    if fork.None? then [FailEarly(t, ended)]
    else [RegisterPid(t, fork.value), ReportStart(t, begun), Reap(t, w), Forget(t), ReportEnd(t, ended)]
  }

  lemma UninterruptedThread(s: State, t: nat, fork: Option<nat>, w: WaitStatus, begun: int, ended: int)
    requires InPhase(s, t, Spawned) && MutexFree(s, t) && begun > 0 && ended > 0
    requires fork.Some? ==> fork.value > 0
    ensures IsRun(s, ThreadSteps(t, fork, w, begun, ended))
    ensures var s' := After(s, ThreadSteps(t, fork, w, begun, ended));
            var l := s.launches[t];
            var running := if fork.Some? then Removed(s.agents[l.agent].running, l.job) else s.agents[l.agent].running;
            && s'.jobs == AfterThread(s.jobs, l.job, s.agents[l.agent].node, fork, w, begun, ended)
            && s'.agents == s.agents[l.agent := s.agents[l.agent].(running := running)]
            && s'.launches == s.launches[t := if fork.Some? then l.(pid := fork.value, phase := Done)
                                              else l.(phase := Abandoned)]
            && s'.sched == s.sched && s'.placed == s.placed
  {
    if fork.None? {
      var _ := OneStep(s, FailEarly(t, ended));
    } else {
      var agent, l := s.agents[s.launches[t].agent], s.launches[t];
      var start := [RegisterPid(t, fork.value)] + [ReportStart(t, begun)];
      var end := [Reap(t, w)] + ([Forget(t)] + [ReportEnd(t, ended)]);
      RegisteredAndReported(s, t, fork.value, begun);
      ReapedAndReported(After(s, start), t, w, ended);
      RunsJoin(s, start, end);
      assert ThreadSteps(t, fork, w, begun, ended) == start + end;
      assert Removed(WithPid(agent.running, l.job, fork.value), l.job) == Removed(agent.running, l.job);
    }
  }

  lemma RegisteredAndReported(s: State, t: nat, pid: nat, at: int)
    requires InPhase(s, t, Spawned) && MutexFree(s, t) && pid > 0 && at > 0
    ensures IsRun(s, [RegisterPid(t, pid)] + [ReportStart(t, at)])
    ensures var s' := After(s, [RegisterPid(t, pid)] + [ReportStart(t, at)]);
            var l := s.launches[t];
            var agent := s.agents[l.agent];
            && s'.jobs == UpdateStatus(s.jobs, l.job, JobStatus.Running, agent.node, at)
            && s'.agents == s.agents[l.agent := agent.(running := WithPid(agent.running, l.job, pid))]
            && s'.launches == s.launches[t := l.(pid := pid, phase := Started)]
            && s'.sched == s.sched && s'.placed == s.placed
  {
    var s1 := Next(s, RegisterPid(t, pid));
    var _ := OneStep(s1, ReportStart(t, at));
    StepThenRun(s, RegisterPid(t, pid), [ReportStart(t, at)]);
    assert s1.jobs == s.jobs;
  }

  lemma ReapedAndReported(s: State, t: nat, w: WaitStatus, at: int)
    requires InPhase(s, t, Started) && MutexFree(s, t) && at > 0
    ensures IsRun(s, [Reap(t, w)] + ([Forget(t)] + [ReportEnd(t, at)]))
    ensures var s' := After(s, [Reap(t, w)] + ([Forget(t)] + [ReportEnd(t, at)]));
            var l := s.launches[t];
            var agent := s.agents[l.agent];
            && s'.jobs == UpdateStatus(s.jobs, l.job, Reported(ResultOf(w)), agent.node, at)
            && s'.agents == s.agents[l.agent := agent.(running := Removed(agent.running, l.job))]
            && s'.launches == s.launches[t := l.(phase := Done)]
            && s'.sched == s.sched && s'.placed == s.placed
  {
    var s1 := Next(s, Reap(t, w));
    ForgottenAndReported(s1, t, at);
    StepThenRun(s, Reap(t, w), [Forget(t)] + [ReportEnd(t, at)]);
  }

  lemma ForgottenAndReported(s: State, t: nat, at: int)
    requires Enabled(s, Forget(t)) && at > 0
    ensures IsRun(s, [Forget(t)] + [ReportEnd(t, at)])
    ensures var s' := After(s, [Forget(t)] + [ReportEnd(t, at)]);
            var l := s.launches[t];
            var agent := s.agents[l.agent];
            && s'.jobs == UpdateStatus(s.jobs, l.job, Reported(ResultOf(l.phase.w)), agent.node, at)
            && s'.agents == s.agents[l.agent := agent.(running := Removed(agent.running, l.job))]
            && s'.launches == s.launches[t := l.(phase := Done)]
            && s'.sched == s.sched && s'.placed == s.placed
  {
    var s1 := Next(s, Forget(t));
    var _ := OneStep(s1, ReportEnd(t, at));
    StepThenRun(s, Forget(t), [ReportEnd(t, at)]);
    assert s1.jobs == s.jobs;
  }

  /** A job polled, run and reported without interference leaves the agent's table as it was and ends on its
      node with the reported status; it was started and ended at the times of its two reports. */
  lemma UninterruptedJob(s: State, agent: AgentId, job: JobId, pid: nat, w: WaitStatus, begun: int, ended: int)
    returns (acts: seq<Action>)
    requires Invariant(s) && agent in s.agents && s.agents[agent].poll.Asking?
    requires Offerable(s.jobs, job, s.agents[agent].node) && job !in s.agents[agent].running
    requires pid > 0 && begun > 0 && ended > 0
    ensures IsRun(s, acts)
    ensures After(s, acts) == s.(
              jobs := s.jobs[job := s.jobs[job].(
                status := Reported(ResultOf(w)), startedAt := begun, completedAt := ended)],
              launches := s.launches + [Launch(agent, job, pid, Done)])
  {
    var poll, thread := PollSteps(s, agent, job), ThreadSteps(|s.launches|, Some(pid), w, begun, ended);
    UninterruptedPoll(s, agent, job);
    var s1 := After(s, poll);
    UninterruptedThread(s1, |s.launches|, Some(pid), w, begun, ended);
    RunsJoin(s, poll, thread);
    acts := poll + thread;
    BackAsBefore(s.agents, agent, job);
    ReportedTwice(s.jobs, job, s.agents[agent].node, pid, w, begun, ended);
  }

  lemma BackAsBefore(agents: map<AgentId, Agent>, agent: AgentId, job: JobId)
    requires agent in agents && job !in agents[agent].running
    ensures var entered := agents[agent := agents[agent].(running := Entered(agents[agent].running, job))];
            entered[agent := entered[agent].(running := Removed(entered[agent].running, job))] == agents
  {
    assert Removed(Entered(agents[agent].running, job), job) == agents[agent].running;
  }

  lemma ReportedTwice(jobs: Table, job: JobId, node: NodeId, pid: nat, w: WaitStatus, begun: int, ended: int)
    requires Offerable(jobs, job, node) && jobs[job].startedAt == 0
    ensures AfterThread(jobs, job, node, Some(pid), w, begun, ended) ==
            jobs[job := jobs[job].(status := Reported(ResultOf(w)), startedAt := begun, completedAt := ended)]
  {
  }
}
