/** The cluster as a step system. One step is one lock section or one remote call of the C++ programs, so that
    everything between two of them can interleave: clients submit and cancel, the single scheduler thread runs
    its pass job by job, each agent's polling thread fetches and launches, and each launched job has a thread
    of its own. */
module ClusterProtocol {
  import opened Common
  import opened ResourceSpecs
  import opened JobTable
  import opened FirstFit
  import opened Execution
  import opened AgentServices

  type AgentId = string

  /** Which node id each agent process was given at registration. */
  type Cluster = map<AgentId, NodeId>

  /** Where a job thread is. */
  datatype Phase =
    | Spawned                  // started inside ExecuteAsync, nothing done yet
    | Registered               // forked, pid entered in the agent's table
    | Started                  // start reported to the master
    | Reaped(w: WaitStatus)    // process waited for, entry with its pid still in the table
    | Forgotten(w: WaitStatus) // entry removed from the table
    | Done                     // end reported to the master
    | Abandoned                // pipe or fork failed and was reported; the entry stays in the table

  /** `pid` is 0 until the thread has forked. */
  datatype Launch = Launch(agent: AgentId, job: JobId, pid: nat, phase: Phase)

  /** Where an agent's polling thread is: about to ask, holding a reply, or inside ExecuteAsync with the mutex
      held, the job's thread spawned and its entry not yet made. */
  datatype Poll = Asking | Fetched(job: JobId) | Entering(job: JobId)

  datatype Agent = Agent(node: NodeId, running: Running, poll: Poll)

  /** Where the scheduler thread is. */
  datatype Scheduler =
    | Idle
    | Picked(queue: seq<JobInfo>)
    | Placing(queue: seq<JobInfo>, ids: seq<NodeId>, snapshot: seq<Resources>, where: seq<nat>, avail: seq<Resources>)

  /** `launches` and `placed` are histories: every thread ever spawned and every assignment ever written. */
  datatype State = State(
    jobs: Table, sched: Scheduler, agents: map<AgentId, Agent>, launches: seq<Launch>, placed: seq<JobId>)

  datatype Action =
    | SubmitJob(id: JobId, spec: JobSpec, user: UserId, username: string, at: int)
    | CancelJob(id: JobId, at: int)
    | PickQueue(queue: seq<JobInfo>)
    | PickNodes(ids: seq<NodeId>, avail: seq<Resources>)
    | Place(at: int)
    | EndPass
    | Fetch(agent: AgentId, job: JobId)
    | Spawn(agent: AgentId)
    | Enter(agent: AgentId)
    | FailEarly(t: nat, at: int)
    | RegisterPid(t: nat, pid: nat)
    | ReportStart(t: nat, at: int)
    | Reap(t: nat, w: WaitStatus)
    | Forget(t: nat)
    | ReportEnd(t: nat, at: int)

  ghost predicate InPhase(s: State, t: nat, phase: Phase) {
    t < |s.launches| && s.launches[t].agent in s.agents && s.launches[t].phase == phase
  }

  ghost predicate MutexFree(s: State, t: nat)
    requires t < |s.launches| && s.launches[t].agent in s.agents
  {
    !s.agents[s.launches[t].agent].poll.Entering?
  }

  /** Job ids are fresh and clocks are past the epoch. The queue is any listing of the queued jobs, hence any
      result of the sort; the nodes are any node list. */
  ghost predicate Enabled(s: State, a: Action) {
    match a
    case SubmitJob(id, _, _, _, at) => id !in s.jobs && at > 0
    case CancelJob(_, at) => at > 0
    case PickQueue(queue) => s.sched.Idle? && queue != [] && IsListing(s.jobs, Queued, queue)
    case PickNodes(ids, avail) => s.sched.Picked? && |ids| == |avail| && forall i :: 0 <= i < |ids| ==> ids[i] != ""
    case Place(at) => s.sched.Placing? && |s.sched.where| < |s.sched.queue| && at > 0
    case EndPass => s.sched.Placing? && |s.sched.where| == |s.sched.queue|
    case Fetch(agent, job) =>
      agent in s.agents && s.agents[agent].poll.Asking? && Offerable(s.jobs, job, s.agents[agent].node)
    case Spawn(agent) => agent in s.agents && s.agents[agent].poll.Fetched?
    case Enter(agent) => agent in s.agents && s.agents[agent].poll.Entering?
    case FailEarly(t, at) => InPhase(s, t, Spawned) && at > 0
    case RegisterPid(t, pid) => InPhase(s, t, Spawned) && MutexFree(s, t) && pid > 0
    case ReportStart(t, at) => InPhase(s, t, Registered) && at > 0
    case Reap(t, _) => InPhase(s, t, Started)
    case Forget(t) =>
      t < |s.launches| && s.launches[t].agent in s.agents && s.launches[t].phase.Reaped? && MutexFree(s, t)
    case ReportEnd(t, at) =>
      t < |s.launches| && s.launches[t].agent in s.agents && s.launches[t].phase.Forgotten? && at > 0
  }

  ghost function WithAgent(s: State, agent: AgentId, a: Agent): State {
    s.(agents := s.agents[agent := a])
  }

  ghost function WithPhase(s: State, t: nat, phase: Phase): State
    requires t < |s.launches|
  {
    s.(launches := s.launches[t := s.launches[t].(phase := phase)])
  }

  ghost function WithPidTaken(s: State, t: nat, pid: nat): State
    requires t < |s.launches|
  {
    s.(launches := s.launches[t := s.launches[t].(pid := pid)])
  }

  ghost function WithReport(s: State, t: nat, status: JobStatus, at: int): State
    requires t < |s.launches| && s.launches[t].agent in s.agents
  {
    s.(jobs := UpdateStatus(s.jobs, s.launches[t].job, status, s.agents[s.launches[t].agent].node, at))
  }

  ghost function WithRunning(s: State, t: nat, running: Running): State
    requires t < |s.launches| && s.launches[t].agent in s.agents
  {
    WithAgent(s, s.launches[t].agent, s.agents[s.launches[t].agent].(running := running))
  }

  ghost function RunningOf(s: State, t: nat): Running
    requires t < |s.launches| && s.launches[t].agent in s.agents
  {
    s.agents[s.launches[t].agent].running
  }

  ghost function PlaceStep(s: State, at: int): State
    requires s.sched.Placing? && |s.sched.where| < |s.sched.queue|
  {
    var p := s.sched;
    var job := p.queue[|p.where|];
    var i := FitIndex(p.avail, job.spec.resources);
    var sched := p.(where := p.where + [i], avail := Deduct(p.avail, i, job.spec.resources));
    if i < |p.ids| then
      s.(jobs := UpdateStatus(s.jobs, job.id, Assigned, p.ids[i], at), sched := sched, placed := s.placed + [job.id])
    else s.(sched := sched)
  }

  ghost function SpawnStep(s: State, agent: AgentId): State
    requires agent in s.agents && s.agents[agent].poll.Fetched?
  {
    var a := s.agents[agent];
    if a.poll.job in a.running then WithAgent(s, agent, a.(poll := Asking))
    else WithAgent(s, agent, a.(poll := Entering(a.poll.job))).(
      launches := s.launches + [Launch(agent, a.poll.job, 0, Spawned)])
  }

  ghost function Next(s: State, a: Action): State
    requires Enabled(s, a)
  {
    match a
    case SubmitJob(id, spec, user, username, at) => s.(jobs := Submit(s.jobs, id, spec, user, username, at))
    case CancelJob(id, at) => s.(jobs := Cancel(s.jobs, id, at))
    case PickQueue(queue) => s.(sched := Picked(queue))
    case PickNodes(ids, avail) => s.(sched := if ids == [] then Idle else Placing(s.sched.queue, ids, avail, [], avail))
    case Place(at) => PlaceStep(s, at)
    case EndPass => s.(sched := Idle)
    case Fetch(agent, job) => WithAgent(s, agent, s.agents[agent].(poll := Fetched(job)))
    case Spawn(agent) => SpawnStep(s, agent)
    case Enter(agent) =>
      var a := s.agents[agent];
      WithAgent(s, agent, a.(running := Entered(a.running, a.poll.job), poll := Asking))
    case FailEarly(t, at) => WithPhase(WithReport(s, t, Reported(NEVER_STARTED), at), t, Abandoned)
    case RegisterPid(t, pid) =>
      var running := WithPid(RunningOf(s, t), s.launches[t].job, pid);
      WithPhase(WithPidTaken(WithRunning(s, t, running), t, pid), t, Registered)
    case ReportStart(t, at) => WithPhase(WithReport(s, t, JobStatus.Running, at), t, Started)
    case Reap(t, w) => WithPhase(s, t, Reaped(w))
    case Forget(t) =>
      WithPhase(WithRunning(s, t, Removed(RunningOf(s, t), s.launches[t].job)), t, Forgotten(s.launches[t].phase.w))
    case ReportEnd(t, at) => WithPhase(WithReport(s, t, Reported(ResultOf(s.launches[t].phase.w)), at), t, Done)
  }

  ghost function Init(c: Cluster): State {
    State(map[], Idle, map a | a in c :: Agent(c[a], map[], Asking), [], [])
  }

  ghost predicate IsRun(s: State, acts: seq<Action>)
    decreases acts
  {
    acts == [] || (Enabled(s, acts[0]) && IsRun(Next(s, acts[0]), acts[1..]))
  }

  ghost function After(s: State, acts: seq<Action>): State
    requires IsRun(s, acts)
    decreases acts
  {
    if acts == [] then s else After(Next(s, acts[0]), acts[1..])
  }

  lemma {:induction false} RunThenStep(s: State, acts: seq<Action>, a: Action)
    requires IsRun(s, acts) && Enabled(After(s, acts), a)
    ensures IsRun(s, acts + [a]) && After(s, acts + [a]) == Next(After(s, acts), a)
    decreases acts
  {
    if acts == [] {
      assert (acts + [a])[1..] == [];
    } else {
      RunThenStep(Next(s, acts[0]), acts[1..], a);
      assert (acts + [a])[1..] == acts[1..] + [a];
    }
  }

  lemma OneStep(s: State, a: Action) returns (acts: seq<Action>)
    requires Enabled(s, a)
    ensures acts == [a] && IsRun(s, acts) && After(s, acts) == Next(s, a)
  {
    acts := [a];
    assert acts[1..] == [];
  }

  lemma {:induction false} RunsJoin(s: State, acts: seq<Action>, more: seq<Action>)
    requires IsRun(s, acts) && IsRun(After(s, acts), more)
    ensures IsRun(s, acts + more) && After(s, acts + more) == After(After(s, acts), more)
    decreases |more|
  {
    if more == [] {
      assert acts + more == acts;
    } else {
      RunThenStep(s, acts, more[0]);
      RunsJoin(s, acts + [more[0]], more[1..]);
      assert acts + more == (acts + [more[0]]) + more[1..];
    }
  }

  lemma StepThenRun(s: State, a: Action, more: seq<Action>)
    requires Enabled(s, a) && IsRun(Next(s, a), more)
    ensures IsRun(s, [a] + more) && After(s, [a] + more) == After(Next(s, a), more)
  {
    assert ([a] + more)[1..] == more;
  }
}

/** What holds in every state of every run, whatever the interleaving and however agents share node ids. */
module ClusterInvariant {
  import opened Common
  import opened JobTable
  import opened FirstFit
  import opened Execution
  import opened ClusterProtocol
  import opened Scheduling

  /** The thread's entry is in the agent's table, or about to be. */
  predicate HasEntry(p: Phase) {
    p.Spawned? || p.Registered? || p.Started? || p.Reaped? || p.Abandoned?
  }

  /** The thread has forked and registered the pid. */
  predicate HasPid(p: Phase) {
    !p.Spawned? && !p.Abandoned?
  }

  /** The master has been told that the job started. */
  predicate StartTold(p: Phase) {
    p.Started? || p.Reaped? || p.Forgotten? || p.Done?
  }

  predicate Ended(p: Phase) {
    p.Done? || p.Abandoned?
  }

  /** The part of the scheduler's snapshot not yet tried. */
  ghost function Untried(sched: Scheduler): seq<JobInfo> {
    match sched
    case Idle => []
    case Picked(queue) => queue
    case Placing(queue, _, _, where, _) => if |where| <= |queue| then queue[|where|..] else []
  }

  predicate NotYetPlaced(status: JobStatus) {
    status == Queued || status == Cancelled
  }

  /** The scheduler's part: jobs never assigned are still queued or cancelled and have not started, jobs once
      assigned are not queued and are assigned once only, and what the scheduler has yet to try has never been
      assigned. */
  ghost predicate SchedInvariant(jobs: Table, rest: seq<JobInfo>, placed: seq<JobId>) {
    && KeysAreIds(jobs)
    && (forall id :: id in placed ==> id in jobs && jobs[id].status != Queued)
    && NoDuplicates(placed)
    && (forall id :: id in jobs && id !in placed ==> NotYetPlaced(jobs[id].status) && jobs[id].startedAt == 0)
    && (forall id :: id in jobs && jobs[id].status == Assigned ==> jobs[id].startedAt == 0)
    && UntriedInvariant(jobs, rest, placed)
  }

  ghost predicate UntriedInvariant(jobs: Table, rest: seq<JobInfo>, placed: seq<JobId>) {
    && (forall k :: 0 <= k < |rest| ==>
          rest[k].id in jobs && rest[k].id !in placed && rest[k].spec == jobs[rest[k].id].spec)
    && (forall i, j :: 0 <= i < j < |rest| ==> rest[i].id != rest[j].id)
  }

  /** The pass in progress is a first fit of its own snapshot, no matter what has happened since it was taken. */
  ghost predicate PassInvariant(s: State) {
    s.sched.Placing? ==>
      && |s.sched.ids| == |s.sched.snapshot|
      && (forall i :: 0 <= i < |s.sched.ids| ==> s.sched.ids[i] != "")
      && PassSoFar(s.sched.snapshot, Requests(s.sched.queue), s.sched.where, s.sched.avail)
      && (forall k :: 0 <= k < |s.sched.where| && s.sched.where[k] < |s.sched.ids| ==> s.sched.queue[k].id in s.placed)
  }

  /** Offers and launches go to agents of the node the job was placed on; the master knows of a start exactly
      when a thread has told it, and of an end only when a thread has ended; after that the job is not offered. */
  ghost predicate LinkInvariant(s: State) {
    OffersPlaced(s) && LaunchesPlaced(s) && StartsTold(s.jobs, s.launches) && EndsTold(s.jobs, s.launches)
  }

  ghost predicate OffersPlaced(s: State) {
    forall a :: a in s.agents && s.agents[a].poll.Fetched? ==>
      var job := s.agents[a].poll.job;
      job in s.placed && job in s.jobs && s.jobs[job].node == s.agents[a].node
  }

  ghost predicate LaunchesPlaced(s: State) {
    forall t :: 0 <= t < |s.launches| ==> LaunchPlaced(s, s.launches[t])
  }

  ghost predicate LaunchPlaced(s: State, l: Launch) {
    && l.agent in s.agents && l.job in s.placed && l.job in s.jobs && s.jobs[l.job].node == s.agents[l.agent].node
    && (StartTold(l.phase) ==> s.jobs[l.job].startedAt != 0)
    && (Ended(l.phase) ==> s.jobs[l.job].status != Assigned)
  }

  ghost predicate StartsTold(jobs: Table, launches: seq<Launch>) {
    forall id :: id in jobs && jobs[id].startedAt != 0 ==>
      exists t :: 0 <= t < |launches| && launches[t].job == id && StartTold(launches[t].phase)
  }

  ghost predicate EndsTold(jobs: Table, launches: seq<Launch>) {
    forall id :: id in jobs && Final(jobs[id].status) ==>
      exists t :: 0 <= t < |launches| && launches[t].job == id && Ended(launches[t].phase)
  }

  ghost predicate Holds(launches: seq<Launch>, t: nat, a: AgentId, job: JobId) {
    t < |launches| && launches[t].agent == a && launches[t].job == job && HasEntry(launches[t].phase)
  }

  /** Each agent's table lists exactly the jobs of its threads that have not removed their entry, one thread each,
      with that thread's pid from registration to removal; while the polling thread is inside ExecuteAsync the
      table does not yet have the job, and its thread is still before registration. */
  ghost predicate ExecutorInvariant(agents: map<AgentId, Agent>, launches: seq<Launch>) {
    && (forall t: nat, a, job :: Holds(launches, t, a, job) ==>
      a in agents && EntryMatches(agents[a], launches[t]))
    && (forall t: nat, u: nat, a, job :: Holds(launches, t, a, job) && Holds(launches, u, a, job) ==> t == u)
    && (forall a, job :: a in agents && job in agents[a].running ==> exists t: nat :: Holds(launches, t, a, job))
    && (forall a :: a in agents && agents[a].poll.Entering? ==>
          && agents[a].poll.job !in agents[a].running
          && exists t: nat :: Holds(launches, t, a, agents[a].poll.job))
  }

  predicate EntryMatches(agent: Agent, l: Launch) {
    && (l.pid > 0 <==> HasPid(l.phase))
    && if l.job in agent.running then agent.running[l.job] == l.pid
       else agent.poll == Entering(l.job) && !HasPid(l.phase)
  }

  ghost predicate Invariant(s: State) {
    && SchedInvariant(s.jobs, Untried(s.sched), s.placed)
    && PassInvariant(s)
    && LinkInvariant(s)
    && ExecutorInvariant(s.agents, s.launches)
  }

  lemma InitInvariant(c: Cluster)
    ensures Invariant(Init(c))
  {
  }

  // ---- Every step keeps it ------------------------------------------------------------------------

  lemma KeepsSched(s: State, a: Action)
    requires SchedInvariant(s.jobs, Untried(s.sched), s.placed) && LinkInvariant(s) && Enabled(s, a)
    ensures SchedInvariant(Next(s, a).jobs, Untried(Next(s, a).sched), Next(s, a).placed)
  {
    match a
    case SubmitJob(id, spec, user, username, at) =>
      SubmitKeepsSched(s.jobs, Untried(s.sched), s.placed, id, spec, user, username, at);
    case CancelJob(id, at) => CancelKeepsSched(s.jobs, Untried(s.sched), s.placed, id, at);
    case PickQueue(queue) => PickKeepsSched(s.jobs, Untried(s.sched), s.placed, queue);
    case PickNodes(ids, avail) => assert s.sched.queue[0..] == s.sched.queue;
    case Place(at) => PlaceKeepsSched(s, at);
    case EndPass =>
    case Fetch(agent, job) =>
    case Spawn(agent) =>
    case Enter(agent) =>
    case FailEarly(t, at) => ReportKeepsSched(s, t, Failed, at);
    case RegisterPid(t, pid) =>
    case ReportStart(t, at) => ReportKeepsSched(s, t, JobStatus.Running, at);
    case Reap(t, w) =>
    case Forget(t) =>
    case ReportEnd(t, at) => ReportKeepsSched(s, t, Reported(ResultOf(s.launches[t].phase.w)), at);
  }

  lemma SubmitKeepsSched(jobs: Table, rest: seq<JobInfo>, placed: seq<JobId>, id: JobId, spec: JobSpec, user: UserId,
      username: string, at: int)
    requires SchedInvariant(jobs, rest, placed) && id !in jobs
    ensures SchedInvariant(Submit(jobs, id, spec, user, username, at), rest, placed)
  {
  }

  lemma CancelKeepsSched(jobs: Table, rest: seq<JobInfo>, placed: seq<JobId>, id: JobId, at: int)
    requires SchedInvariant(jobs, rest, placed)
    ensures SchedInvariant(Cancel(jobs, id, at), rest, placed)
  {
  }

  lemma PickKeepsSched(jobs: Table, rest: seq<JobInfo>, placed: seq<JobId>, queue: seq<JobInfo>)
    requires SchedInvariant(jobs, rest, placed) && IsListing(jobs, Queued, queue)
    ensures SchedInvariant(jobs, queue, placed)
  {
  }

  lemma ReportKeepsSched(s: State, t: nat, status: JobStatus, at: int)
    requires SchedInvariant(s.jobs, Untried(s.sched), s.placed) && LinkInvariant(s)
    requires t < |s.launches| && s.launches[t].agent in s.agents
    requires status == JobStatus.Running || Final(status)
    ensures SchedInvariant(WithReport(s, t, status, at).jobs, Untried(s.sched), s.placed)
  {
    assert s.launches[t].job in s.placed;
    StatusKeepsSched(s.jobs, Untried(s.sched), s.placed, s.launches[t].job, status,
      s.agents[s.launches[t].agent].node, at);
  }

  lemma StatusKeepsSched(jobs: Table, rest: seq<JobInfo>, placed: seq<JobId>, id: JobId, status: JobStatus,
      node: NodeId, at: int)
    requires SchedInvariant(jobs, rest, placed) && id in placed
    requires status == JobStatus.Running || Final(status)
    ensures SchedInvariant(UpdateStatus(jobs, id, status, node, at), rest, placed)
  {
  }

  lemma PlaceKeepsSched(s: State, at: int)
    requires SchedInvariant(s.jobs, Untried(s.sched), s.placed) && Enabled(s, Place(at))
    ensures SchedInvariant(Next(s, Place(at)).jobs, Untried(Next(s, Place(at)).sched), Next(s, Place(at)).placed)
  {
    var s' := Next(s, Place(at));
    var rest := Untried(s.sched);
    assert Untried(s'.sched) == rest[1..];
    var job := s.sched.queue[|s.sched.where|];
    assert job == rest[0];
    var i := FitIndex(s.sched.avail, job.spec.resources);
    if i < |s.sched.ids| {
      AssignKeepsSched(s.jobs, rest, s.placed, s.sched.ids[i], at);
    } else {
      TailUntried(s.jobs, rest, s.placed);
    }
  }

  lemma TailUntried(jobs: Table, rest: seq<JobInfo>, placed: seq<JobId>)
    requires UntriedInvariant(jobs, rest, placed) && rest != []
    ensures UntriedInvariant(jobs, rest[1..], placed)
  {
  }

  lemma AssignKeepsSched(jobs: Table, rest: seq<JobInfo>, placed: seq<JobId>, node: NodeId, at: int)
    requires SchedInvariant(jobs, rest, placed) && rest != []
    ensures SchedInvariant(UpdateStatus(jobs, rest[0].id, Assigned, node, at), rest[1..], placed + [rest[0].id])
  {
  }

  lemma KeepsPass(s: State, a: Action)
    requires PassInvariant(s) && Enabled(s, a)
    ensures PassInvariant(Next(s, a))
  {
    if a.Place? {
      PlaceKeepsPass(s, a.at);
    } else if a.PickNodes? {
      PassStarts(a.avail, Requests(s.sched.queue));
    }
  }

  lemma PlaceKeepsPass(s: State, at: int)
    requires PassInvariant(s) && Enabled(s, Place(at))
    ensures PassInvariant(Next(s, Place(at)))
  {
    var p := s.sched;
    PlaceNext(p.snapshot, Requests(p.queue), p.where, p.avail);
  }

  // ---- The link between master and agents ---------------------------------------------------------

  lemma KeepsLink(s: State, a: Action)
    requires SchedInvariant(s.jobs, Untried(s.sched), s.placed) && LinkInvariant(s) && Enabled(s, a)
    ensures LinkInvariant(Next(s, a))
  {
    if IsReport(a) {
      ReportStepKeepsLink(s, a);
    } else if IsThreadStep(a) {
      ThreadStepKeepsLink(s, a);
    } else if IsPollStep(a) {
      PollStepKeepsLink(s, a);
    } else {
      MasterStepKeepsLink(s, a);
    }
  }

  predicate IsReport(a: Action) {
    a.FailEarly? || a.ReportStart? || a.ReportEnd?
  }

  predicate IsPollStep(a: Action) {
    a.Fetch? || a.Spawn? || a.Enter?
  }

  predicate IsThreadStep(a: Action) {
    a.RegisterPid? || a.Reap? || a.Forget?
  }

  lemma MasterStepKeepsLink(s: State, a: Action)
    requires SchedInvariant(s.jobs, Untried(s.sched), s.placed) && LinkInvariant(s) && Enabled(s, a)
    requires !IsReport(a) && !IsThreadStep(a) && !IsPollStep(a)
    ensures LinkInvariant(Next(s, a))
  {
    if a.Place? {
      PlaceKeepsLink(s, a.at);
    } else {
      TableOnlyKeepsLink(s, Next(s, a));
    }
  }

  lemma PollStepKeepsLink(s: State, a: Action)
    requires SchedInvariant(s.jobs, Untried(s.sched), s.placed) && LinkInvariant(s) && Enabled(s, a) && IsPollStep(a)
    ensures LinkInvariant(Next(s, a))
  {
    match a
    case Fetch(agent, job) => FetchKeepsLink(s, agent, job);
    case Spawn(agent) => SpawnKeepsLink(s, agent);
    case Enter(agent) =>
  }

  lemma ThreadStepKeepsLink(s: State, a: Action)
    requires LinkInvariant(s) && Enabled(s, a) && IsThreadStep(a)
    ensures LinkInvariant(Next(s, a))
  {
    match a
    case RegisterPid(t, pid) => RegisterKeepsLink(s, t, pid);
    case Reap(t, w) => ReapKeepsLink(s, t, w);
    case Forget(t) => ForgetKeepsLink(s, t);
  }

  lemma RegisterKeepsLink(s: State, t: nat, pid: nat)
    requires LinkInvariant(s) && Enabled(s, RegisterPid(t, pid))
    ensures LinkInvariant(Next(s, RegisterPid(t, pid)))
  {
    PhaseKeepsLink(s, Next(s, RegisterPid(t, pid)), t);
  }

  lemma ReapKeepsLink(s: State, t: nat, w: WaitStatus)
    requires LinkInvariant(s) && Enabled(s, Reap(t, w))
    ensures LinkInvariant(Next(s, Reap(t, w)))
  {
    PhaseKeepsLink(s, Next(s, Reap(t, w)), t);
  }

  lemma ForgetKeepsLink(s: State, t: nat)
    requires LinkInvariant(s) && Enabled(s, Forget(t))
    ensures LinkInvariant(Next(s, Forget(t)))
  {
    PhaseKeepsLink(s, Next(s, Forget(t)), t);
  }

  lemma ReportStepKeepsLink(s: State, a: Action)
    requires LinkInvariant(s) && Enabled(s, a) && IsReport(a)
    ensures LinkInvariant(Next(s, a))
  {
    match a
    case FailEarly(t, at) => ReportKeepsLink(s, t, Failed, at, Abandoned);
    case ReportStart(t, at) => ReportKeepsLink(s, t, JobStatus.Running, at, Started);
    case ReportEnd(t, at) => ReportKeepsLink(s, t, Reported(ResultOf(s.launches[t].phase.w)), at, Done);
  }

  /** A change of the table that touches no start time, makes nothing final, and neither moves nor assigns a job
      that has been assigned before. */
  lemma TableOnlyKeepsLink(s: State, s': State)
    requires LinkInvariant(s) && s'.agents == s.agents && s'.launches == s.launches && s.jobs.Keys <= s'.jobs.Keys
    requires forall id :: id in s.placed ==> id in s'.placed
    requires forall id :: id in s.jobs ==> s'.jobs[id].startedAt == s.jobs[id].startedAt
    requires forall id :: id in s'.jobs && id !in s.jobs ==> s'.jobs[id].startedAt == 0
    requires forall id :: id in s'.jobs && Final(s'.jobs[id].status) ==> id in s.jobs && Final(s.jobs[id].status)
    requires forall id :: id in s.jobs && id in s.placed ==>
             s'.jobs[id].node == s.jobs[id].node && (s'.jobs[id].status == Assigned ==> s.jobs[id].status == Assigned)
    ensures LinkInvariant(s')
  {
  }

  lemma PlaceKeepsLink(s: State, at: int)
    requires SchedInvariant(s.jobs, Untried(s.sched), s.placed) && LinkInvariant(s) && Enabled(s, Place(at))
    ensures LinkInvariant(Next(s, Place(at)))
  {
    PlaceTouchesOne(s, at);
    TableOnlyKeepsLink(s, PlaceStep(s, at));
  }

  /** An assignment leaves alone every job assigned before, and of the one it assigns it changes only status and
      node. */
  lemma PlaceTouchesOne(s: State, at: int)
    requires SchedInvariant(s.jobs, Untried(s.sched), s.placed) && Enabled(s, Place(at))
    ensures var s' := PlaceStep(s, at);
            && s'.jobs.Keys == s.jobs.Keys && s'.agents == s.agents && s'.launches == s.launches
            && (forall id :: id in s.placed ==> id in s'.placed && s'.jobs[id] == s.jobs[id])
            && (forall id :: id in s.jobs ==> s'.jobs[id].startedAt == s.jobs[id].startedAt)
            && (forall id :: id in s.jobs && Final(s'.jobs[id].status) ==> Final(s.jobs[id].status))
  {
    assert s.sched.queue[|s.sched.where|] == Untried(s.sched)[0];
  }

  lemma FetchKeepsLink(s: State, agent: AgentId, job: JobId)
    requires SchedInvariant(s.jobs, Untried(s.sched), s.placed) && LinkInvariant(s) && Enabled(s, Fetch(agent, job))
    ensures LinkInvariant(Next(s, Fetch(agent, job)))
  {
  }

  lemma SpawnKeepsLink(s: State, agent: AgentId)
    requires LinkInvariant(s) && Enabled(s, Spawn(agent))
    ensures LinkInvariant(Next(s, Spawn(agent)))
  {
    var s' := Next(s, Spawn(agent));
    forall id | id in s'.jobs && s'.jobs[id].startedAt != 0
      ensures exists t :: 0 <= t < |s'.launches| && s'.launches[t].job == id && StartTold(s'.launches[t].phase)
    {
      var t :| 0 <= t < |s.launches| && s.launches[t].job == id && StartTold(s.launches[t].phase);
      assert s'.launches[t] == s.launches[t];
    }
    forall id | id in s'.jobs && Final(s'.jobs[id].status)
      ensures exists t :: 0 <= t < |s'.launches| && s'.launches[t].job == id && Ended(s'.launches[t].phase)
    {
      var t :| 0 <= t < |s.launches| && s.launches[t].job == id && Ended(s.launches[t].phase);
      assert s'.launches[t] == s.launches[t];
    }
  }

  /** The agents are where they were; only their tables may differ. */
  ghost predicate SamePolls(agents: map<AgentId, Agent>, agents': map<AgentId, Agent>) {
    && agents'.Keys == agents.Keys
    && (forall a :: a in agents ==> agents'[a].node == agents[a].node && agents'[a].poll == agents[a].poll)
  }

  /** A thread moves on inside its agent, without telling the master. */
  lemma PhaseKeepsLink(s: State, s': State, t: nat)
    requires LinkInvariant(s) && s'.jobs == s.jobs && s'.placed == s.placed && SamePolls(s.agents, s'.agents)
    requires |s'.launches| == |s.launches| && t < |s.launches|
    requires forall u :: 0 <= u < |s.launches| && u != t ==> s'.launches[u] == s.launches[u]
    requires s'.launches[t].agent == s.launches[t].agent && s'.launches[t].job == s.launches[t].job
    requires !Ended(s.launches[t].phase) && !Ended(s'.launches[t].phase)
    requires StartTold(s'.launches[t].phase) <==> StartTold(s.launches[t].phase)
    ensures LinkInvariant(s')
  {
    forall id | id in s'.jobs && s'.jobs[id].startedAt != 0
      ensures exists u :: 0 <= u < |s'.launches| && s'.launches[u].job == id && StartTold(s'.launches[u].phase)
    {
      var u :| 0 <= u < |s.launches| && s.launches[u].job == id && StartTold(s.launches[u].phase);
      assert s'.launches[u].job == id && StartTold(s'.launches[u].phase);
    }
    forall id | id in s'.jobs && Final(s'.jobs[id].status)
      ensures exists u :: 0 <= u < |s'.launches| && s'.launches[u].job == id && Ended(s'.launches[u].phase)
    {
      var u :| 0 <= u < |s.launches| && s.launches[u].job == id && Ended(s.launches[u].phase);
      assert s'.launches[u] == s.launches[u];
    }
  }

  /** A thread reports to the master: a start makes it a thread that has told, an end one that has ended. */
  lemma ReportKeepsLink(s: State, t: nat, status: JobStatus, at: int, phase: Phase)
    requires LinkInvariant(s) && t < |s.launches| && s.launches[t].agent in s.agents && at > 0
    requires Reports(s.launches[t].phase, status, phase)
    ensures LinkInvariant(WithPhase(WithReport(s, t, status, at), t, phase))
  {
    ReportKeepsPlaced(s, t, status, at, phase);
    ReportKeepsStarts(s.jobs, s.launches, t, status, s.agents[s.launches[t].agent].node, at, phase);
    ReportKeepsEnds(s.jobs, s.launches, t, status, s.agents[s.launches[t].agent].node, at, phase);
  }

  lemma ReportKeepsPlaced(s: State, t: nat, status: JobStatus, at: int, phase: Phase)
    requires OffersPlaced(s) && LaunchesPlaced(s) && t < |s.launches| && s.launches[t].agent in s.agents && at > 0
    requires Reports(s.launches[t].phase, status, phase)
    ensures var s' := WithPhase(WithReport(s, t, status, at), t, phase); OffersPlaced(s') && LaunchesPlaced(s')
  {
    var s' := WithPhase(WithReport(s, t, status, at), t, phase);
    var job := s.launches[t].job;
    assert LaunchPlaced(s, s.launches[t]);
    assert forall id :: id in s.jobs && id != job ==> s'.jobs[id] == s.jobs[id];
    assert s'.jobs[job].node == s.jobs[job].node;
  }

  /** The thread's report of `status` takes it from phase `p` to `p'`. */
  predicate Reports(p: Phase, status: JobStatus, p': Phase) {
    && !Ended(p)
    && ((status == JobStatus.Running && p' == Started) || (Final(status) && Ended(p')))
    && (StartTold(p) ==> StartTold(p'))
    && (p' == Done ==> StartTold(p))
  }

  lemma ReportKeepsStarts(jobs: Table, launches: seq<Launch>, t: nat, status: JobStatus, node: NodeId, at: int,
      phase: Phase)
    requires StartsTold(jobs, launches) && t < |launches| && Reports(launches[t].phase, status, phase)
    ensures var launches' := launches[t := launches[t].(phase := phase)];
            StartsTold(UpdateStatus(jobs, launches[t].job, status, node, at), launches')
  {
    var jobs' := UpdateStatus(jobs, launches[t].job, status, node, at);
    var launches' := launches[t := launches[t].(phase := phase)];
    forall id | id in jobs' && jobs'[id].startedAt != 0
      ensures exists u :: 0 <= u < |launches'| && launches'[u].job == id && StartTold(launches'[u].phase)
    {
      if jobs[id].startedAt == 0 {
        assert launches'[t].job == id && StartTold(launches'[t].phase);
      } else {
        var u :| 0 <= u < |launches| && launches[u].job == id && StartTold(launches[u].phase);
        assert launches'[u].job == id && StartTold(launches'[u].phase);
      }
    }
  }

  lemma ReportKeepsEnds(jobs: Table, launches: seq<Launch>, t: nat, status: JobStatus, node: NodeId, at: int,
      phase: Phase)
    requires EndsTold(jobs, launches) && t < |launches| && Reports(launches[t].phase, status, phase)
    ensures var launches' := launches[t := launches[t].(phase := phase)];
            EndsTold(UpdateStatus(jobs, launches[t].job, status, node, at), launches')
  {
    var jobs' := UpdateStatus(jobs, launches[t].job, status, node, at);
    var launches' := launches[t := launches[t].(phase := phase)];
    forall id | id in jobs' && Final(jobs'[id].status)
      ensures exists u :: 0 <= u < |launches'| && launches'[u].job == id && Ended(launches'[u].phase)
    {
      if id == launches[t].job {
        assert launches'[t].job == id && Ended(launches'[t].phase);
      } else {
        var u :| 0 <= u < |launches| && launches[u].job == id && Ended(launches[u].phase);
        assert launches'[u] == launches[u];
      }
    }
  }

  // ---- The agents' tables -------------------------------------------------------------------------

  lemma KeepsExecutor(s: State, a: Action)
    requires ExecutorInvariant(s.agents, s.launches) && Enabled(s, a)
    ensures ExecutorInvariant(Next(s, a).agents, Next(s, a).launches)
  {
    match a
    case SubmitJob(id, spec, user, username, at) =>
    case CancelJob(id, at) =>
    case PickQueue(queue) =>
    case PickNodes(ids, avail) =>
    case Place(at) =>
    case EndPass =>
    case Fetch(agent, job) =>
    case Spawn(agent) => SpawnKeepsExecutor(s, agent);
    case Enter(agent) => EnterKeepsExecutor(s, agent);
    case FailEarly(t, at) => PhaseKeepsExecutor(s.agents, s.launches, t, Abandoned);
    case RegisterPid(t, pid) => RegisterKeepsExecutor(s, t, pid);
    case ReportStart(t, at) => PhaseKeepsExecutor(s.agents, s.launches, t, Started);
    case Reap(t, w) => PhaseKeepsExecutor(s.agents, s.launches, t, Reaped(w));
    case Forget(t) => ForgetKeepsExecutor(s, t);
    case ReportEnd(t, at) => PhaseKeepsExecutor(s.agents, s.launches, t, Done);
  }

  /** Carries the entry witnesses over to a later list of launches. */
  lemma WitnessesSurvive(launches: seq<Launch>, launches': seq<Launch>, a: AgentId, job: JobId)
    requires exists t: nat :: Holds(launches, t, a, job)
    requires forall t: nat :: Holds(launches, t, a, job) ==> Holds(launches', t, a, job)
    ensures exists t: nat :: Holds(launches', t, a, job)
  {
  }

  lemma SpawnKeepsExecutor(s: State, agent: AgentId)
    requires ExecutorInvariant(s.agents, s.launches) && Enabled(s, Spawn(agent))
    ensures ExecutorInvariant(Next(s, Spawn(agent)).agents, Next(s, Spawn(agent)).launches)
  {
    var s' := Next(s, Spawn(agent));
    var job := s.agents[agent].poll.job;
    if job !in s.agents[agent].running {
      assert forall t: nat :: !Holds(s.launches, t, agent, job);
      forall t: nat, a, j | Holds(s'.launches, t, a, j)
        ensures Holds(s.launches, t, a, j) || (t == |s.launches| && a == agent && j == job)
      {
      }
      forall a, j | a in s'.agents && j in s'.agents[a].running ensures exists t: nat :: Holds(s'.launches, t, a, j) {
        WitnessesSurvive(s.launches, s'.launches, a, j);
      }
      forall a | a in s'.agents && s'.agents[a].poll.Entering?
        ensures exists t: nat :: Holds(s'.launches, t, a, s'.agents[a].poll.job)
      {
        if a == agent {
          assert Holds(s'.launches, |s.launches|, agent, job);
        } else {
          WitnessesSurvive(s.launches, s'.launches, a, s.agents[a].poll.job);
        }
      }
    }
  }

  lemma EnterKeepsExecutor(s: State, agent: AgentId)
    requires ExecutorInvariant(s.agents, s.launches) && Enabled(s, Enter(agent))
    ensures ExecutorInvariant(Next(s, Enter(agent)).agents, Next(s, Enter(agent)).launches)
  {
  }

  /** A change of phase that leaves both the entry and its pid as they should be. */
  lemma PhaseKeepsExecutor(agents: map<AgentId, Agent>, launches: seq<Launch>, t: nat, phase: Phase)
    requires ExecutorInvariant(agents, launches) && t < |launches|
    requires (launches[t].phase == Spawned && phase == Abandoned)
          || (launches[t].phase == Registered && phase == Started)
          || (launches[t].phase == Started && phase.Reaped?)
          || (launches[t].phase.Forgotten? && phase == Done)
    ensures ExecutorInvariant(agents, launches[t := launches[t].(phase := phase)])
  {
    var launches' := launches[t := launches[t].(phase := phase)];
    forall u: nat, a, j ensures Holds(launches', u, a, j) <==> Holds(launches, u, a, j) {
    }
    forall a, j | a in agents && j in agents[a].running ensures exists u: nat :: Holds(launches', u, a, j) {
      WitnessesSurvive(launches, launches', a, j);
    }
    forall a | a in agents && agents[a].poll.Entering?
      ensures exists u: nat :: Holds(launches', u, a, agents[a].poll.job)
    {
      WitnessesSurvive(launches, launches', a, agents[a].poll.job);
    }
  }

  lemma RegisterKeepsExecutor(s: State, t: nat, pid: nat)
    requires ExecutorInvariant(s.agents, s.launches) && Enabled(s, RegisterPid(t, pid))
    ensures ExecutorInvariant(Next(s, RegisterPid(t, pid)).agents, Next(s, RegisterPid(t, pid)).launches)
  {
    var s' := Next(s, RegisterPid(t, pid));
    var agent, job := s.launches[t].agent, s.launches[t].job;
    assert Holds(s.launches, t, agent, job);
    forall u: nat, a, j ensures Holds(s'.launches, u, a, j) <==> Holds(s.launches, u, a, j) {
    }
    forall u: nat, a, j | Holds(s'.launches, u, a, j)
      ensures a in s'.agents && EntryMatches(s'.agents[a], s'.launches[u])
    {
      assert Holds(s.launches, u, a, j) && EntryMatches(s.agents[a], s.launches[u]);
    }
    forall a, j | a in s'.agents && j in s'.agents[a].running ensures exists u: nat :: Holds(s'.launches, u, a, j) {
      WitnessesSurvive(s.launches, s'.launches, a, j);
    }
    forall a | a in s'.agents && s'.agents[a].poll.Entering?
      ensures exists u: nat :: Holds(s'.launches, u, a, s'.agents[a].poll.job)
    {
      WitnessesSurvive(s.launches, s'.launches, a, s.agents[a].poll.job);
    }
  }

  lemma ForgetKeepsExecutor(s: State, t: nat)
    requires ExecutorInvariant(s.agents, s.launches) && Enabled(s, Forget(t))
    ensures ExecutorInvariant(Next(s, Forget(t)).agents, Next(s, Forget(t)).launches)
  {
    var s' := Next(s, Forget(t));
    var agent, job := s.launches[t].agent, s.launches[t].job;
    assert Holds(s.launches, t, agent, job);
    forall u: nat, a, j ensures Holds(s'.launches, u, a, j) <==> Holds(s.launches, u, a, j) && u != t {
    }
    forall u: nat, a, j | Holds(s'.launches, u, a, j)
      ensures a in s'.agents && EntryMatches(s'.agents[a], s'.launches[u])
    {
      assert Holds(s.launches, u, a, j) && EntryMatches(s.agents[a], s.launches[u]);
      assert a != agent || j != job;
    }
    forall a, j | a in s'.agents && j in s'.agents[a].running ensures exists u: nat :: Holds(s'.launches, u, a, j) {
      assert a != agent || j != job;
      WitnessesSurvive(s.launches, s'.launches, a, j);
    }
    forall a | a in s'.agents && s'.agents[a].poll.Entering?
      ensures exists u: nat :: Holds(s'.launches, u, a, s'.agents[a].poll.job)
    {
      assert a != agent;
      WitnessesSurvive(s.launches, s'.launches, a, s.agents[a].poll.job);
    }
  }

  lemma StepKeepsInvariant(s: State, a: Action)
    requires Invariant(s) && Enabled(s, a)
    ensures Invariant(Next(s, a))
  {
    KeepsSched(s, a);
    KeepsPass(s, a);
    KeepsLink(s, a);
    KeepsExecutor(s, a);
  }

  lemma {:induction false} RunKeepsInvariant(s: State, acts: seq<Action>)
    requires Invariant(s) && IsRun(s, acts)
    ensures Invariant(After(s, acts))
    decreases acts
  {
    if acts != [] {
      StepKeepsInvariant(s, acts[0]);
      RunKeepsInvariant(Next(s, acts[0]), acts[1..]);
    }
  }
}
