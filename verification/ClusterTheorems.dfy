/** What the cluster guarantees over whole runs, and exactly where the guarantees end. */
module ClusterTheorems {
  import opened Common
  import opened ResourceSpecs
  import opened JobTable
  import opened FirstFit
  import opened Execution
  import opened ClusterProtocol
  import opened ClusterInvariant
  import opened Scheduling
  import opened NodeTable

  /** A state some run of the cluster `c` leads to. */
  ghost predicate Reachable(c: Cluster, s: State) {
    exists acts :: IsRun(Init(c), acts) && After(Init(c), acts) == s
  }

  lemma ReachableInvariant(c: Cluster, s: State)
    requires Reachable(c, s)
    ensures Invariant(s)
  {
    var acts :| IsRun(Init(c), acts) && After(Init(c), acts) == s;
    InitInvariant(c);
    RunKeepsInvariant(Init(c), acts);
  }

  lemma ReachableStep(c: Cluster, s: State, a: Action)
    requires Reachable(c, s) && Enabled(s, a)
    ensures Reachable(c, Next(s, a))
  {
    var acts :| IsRun(Init(c), acts) && After(Init(c), acts) == s;
    RunThenStep(Init(c), acts, a);
  }

  lemma ReachableRun(c: Cluster, s: State, acts: seq<Action>)
    requires Reachable(c, s) && IsRun(s, acts)
    ensures Reachable(c, After(s, acts))
  {
    var before :| IsRun(Init(c), before) && After(Init(c), before) == s;
    RunsJoin(Init(c), before, acts);
  }

  /** The jobs launched so far, one entry per launch. */
  ghost function Launched(s: State): seq<JobId> {
    seq(|s.launches|, t requires 0 <= t < |s.launches| => s.launches[t].job)
  }

  ghost predicate LaunchedTwice(s: State, job: JobId) {
    exists t, u :: 0 <= t < u < |Launched(s)| && Launched(s)[t] == job && Launched(s)[u] == job
  }

  ghost predicate AtMostOnce(s: State) {
    NoDuplicates(Launched(s))
  }

  // ---- The scheduler ------------------------------------------------------------------------------

  /** Although the pass works from a snapshot that may be stale by the time it writes, what it assigns is at
      that moment queued or cancelled, has never been assigned and has never been launched. */
  lemma SchedulerWritesSafely(c: Cluster, s: State, at: int)
    requires Reachable(c, s) && Enabled(s, Place(at))
    ensures var job := s.sched.queue[|s.sched.where|];
            var s' := Next(s, Place(at));
            && job.id in s.jobs && job.spec == s.jobs[job.id].spec
            && NoDuplicates(s'.placed)
            && (s'.placed != s.placed ==>
                  && NotYetPlaced(s.jobs[job.id].status)
                  && job.id !in s.placed && job.id !in Launched(s)
                  && s'.jobs[job.id].status == Assigned
                  && s'.jobs[job.id].node in s.sched.ids)
  {
    ReachableInvariant(c, s);
    NextJobIsUnplaced(s);
    PlaceWrites(s, at);
  }

  lemma PlaceWrites(s: State, at: int)
    requires SchedInvariant(s.jobs, Untried(s.sched), s.placed) && PassInvariant(s) && Enabled(s, Place(at))
    ensures var job, s' := s.sched.queue[|s.sched.where|], PlaceStep(s, at);
            && NoDuplicates(s'.placed)
            && (s'.placed != s.placed ==>
                  job.id in s'.jobs && s'.jobs[job.id].status == Assigned && s'.jobs[job.id].node in s.sched.ids)
  {
    PlaceKeepsSched(s, at);
    assert s.sched.queue[|s.sched.where|] == Untried(s.sched)[0];
  }

  lemma NextJobIsUnplaced(s: State)
    requires SchedInvariant(s.jobs, Untried(s.sched), s.placed) && LinkInvariant(s)
    requires s.sched.Placing? && |s.sched.where| < |s.sched.queue|
    ensures var job := s.sched.queue[|s.sched.where|];
            && job.id in s.jobs && job.spec == s.jobs[job.id].spec && NotYetPlaced(s.jobs[job.id].status)
            && job.id !in s.placed && job.id !in Launched(s)
  {
  }

  /** A pass that ends has made the first-fit placement of the snapshot it started from, however many other
      steps came in between; so it has not overcommitted any node against that snapshot. */
  lemma InterleavedPassIsFirstFit(c: Cluster, s: State)
    requires Reachable(c, s) && Enabled(s, EndPass)
    ensures IsFirstFit(s.sched.snapshot, Requests(s.sched.queue), s.sched.where)
    ensures |s.sched.avail| == |s.sched.snapshot|
    ensures forall i: nat :: i < |s.sched.snapshot| ==>
              && s.sched.avail[i] == Left(s.sched.snapshot, Requests(s.sched.queue), s.sched.where, i, |s.sched.queue|)
              && Fits(Load(Requests(s.sched.queue), s.sched.where, i, |s.sched.queue|), s.sched.snapshot[i])
  {
    ReachableInvariant(c, s);
    var p := s.sched;
    PassEnds(p.snapshot, Requests(p.queue), p.where, p.avail);
    forall i: nat | i < |p.snapshot| ensures Fits(Load(Requests(p.queue), p.where, i, |p.queue|), p.snapshot[i]) {
      NeverOvercommitted(p.snapshot, Requests(p.queue), p.where, i, |p.queue|);
    }
  }

  lemma StepNeverRequeues(s: State, a: Action, id: JobId)
    requires Enabled(s, a) && id in s.jobs
    ensures id in Next(s, a).jobs
    ensures s.jobs[id].status != Queued ==> Next(s, a).jobs[id].status != Queued
  {
  }

  /** No step of the protocol puts a job back into the queue. */
  lemma {:induction false} NeverRequeued(s: State, acts: seq<Action>, id: JobId)
    requires IsRun(s, acts) && id in s.jobs
    ensures id in After(s, acts).jobs
    ensures s.jobs[id].status != Queued ==> After(s, acts).jobs[id].status != Queued
    decreases acts
  {
    if acts != [] {
      StepNeverRequeues(s, acts[0], id);
      NeverRequeued(Next(s, acts[0]), acts[1..], id);
    }
  }

  /** A job keeps what it was submitted with through every run; so what a pass in progress tries for it, what it
      is placed by and what is handed to an agent is what was submitted. */
  lemma SubmittedIsWhatRuns(c: Cluster, s: State, id: JobId, spec: JobSpec, user: UserId, username: string, at: int,
      acts: seq<Action>)
    requires Reachable(c, s) && Enabled(s, Action.SubmitJob(id, spec, user, username, at))
    requires IsRun(Next(s, Action.SubmitJob(id, spec, user, username, at)), acts)
    ensures var s' := After(Next(s, Action.SubmitJob(id, spec, user, username, at)), acts);
            && id in s'.jobs && s'.jobs[id].spec == spec
            && s'.jobs[id].user == user && s'.jobs[id].username == username && s'.jobs[id].submittedAt == at
            && forall k :: 0 <= k < |Untried(s'.sched)| && Untried(s'.sched)[k].id == id ==>
                 Untried(s'.sched)[k].spec == spec
  {
    var s1 := Next(s, Action.SubmitJob(id, spec, user, username, at));
    SubmissionEntersExactly(s.jobs, id, spec, user, username, at);
    DescriptionStays(s1, acts, id);
    ReachableStep(c, s, Action.SubmitJob(id, spec, user, username, at));
    ReachableRun(c, s1, acts);
    SnapshotAgrees(c, After(s1, acts), id);
  }

  /** The copy of a job that a pass has yet to try asks for what the table's entry asks for. */
  lemma SnapshotAgrees(c: Cluster, s: State, id: JobId)
    requires Reachable(c, s) && id in s.jobs
    ensures forall k :: 0 <= k < |Untried(s.sched)| && Untried(s.sched)[k].id == id ==>
              Untried(s.sched)[k].spec == s.jobs[id].spec
  {
    ReachableInvariant(c, s);
  }

  lemma {:induction false} DescriptionStays(s: State, acts: seq<Action>, id: JobId)
    requires IsRun(s, acts) && id in s.jobs
    ensures id in After(s, acts).jobs && SameDescription(s.jobs[id], After(s, acts).jobs[id])
    decreases acts
  {
    if acts != [] {
      StepKeepsDescription(s, acts[0], id);
      DescriptionStays(Next(s, acts[0]), acts[1..], id);
    }
  }

  lemma StepKeepsDescription(s: State, a: Action, id: JobId)
    requires Enabled(s, a) && id in s.jobs
    ensures id in Next(s, a).jobs && SameDescription(s.jobs[id], Next(s, a).jobs[id])
  {
    if a.Place? {
      PlaceKeepsDescription(s, a.at, id);
    } else if IsReport(a) {
      ReportKeepsDescription(s, a, id);
    }
  }

  lemma PlaceKeepsDescription(s: State, at: int, id: JobId)
    requires Enabled(s, Place(at)) && id in s.jobs
    ensures id in PlaceStep(s, at).jobs && SameDescription(s.jobs[id], PlaceStep(s, at).jobs[id])
  {
  }

  lemma ReportKeepsDescription(s: State, a: Action, id: JobId)
    requires Enabled(s, a) && IsReport(a) && id in s.jobs
    ensures id in Next(s, a).jobs && SameDescription(s.jobs[id], Next(s, a).jobs[id])
  {
  }

  /** With nothing in between, the steps of a pass do to the job table exactly what the scheduler's own method
      `SchedulePass` promises for the same queue and nodes. */
  lemma UninterruptedPass(s: State, order: seq<JobInfo>, online: seq<NodeInfo>, where: seq<nat>, at: int)
      returns (acts: seq<Action>)
    requires Invariant(s) && s.sched.Idle? && at > 0
    requires order != [] && IsListing(s.jobs, Queued, order)
    requires online != [] && forall i :: 0 <= i < |online| ==> online[i].id != ""
    requires IsFirstFit(Availabilities(online), Requests(order), where)
    ensures IsRun(s, acts) && After(s, acts).sched == Idle
    ensures PassWrites(s.jobs, After(s, acts).jobs, order, online, where)
    ensures After(s, acts).agents == s.agents && After(s, acts).launches == s.launches
  {
    var pick, nodes := PickQueue(order), PickNodes(Ids(online), Availabilities(online));
    var s1 := Next(s, pick);
    var s2 := Next(s1, nodes);
    StepKeepsInvariant(s, pick);
    StepKeepsInvariant(s1, nodes);
    var places := PlacesWrite(s2, s.jobs, online, at);
    RunKeepsInvariant(s2, places);
    var s3 := After(s2, places);
    PassEnds(s3.sched.snapshot, Requests(s3.sched.queue), s3.sched.where, s3.sched.avail);
    FirstFitUnique(Availabilities(online), Requests(order), where, s3.sched.where);
    RunThenStep(s2, places, EndPass);
    var tail := places + [EndPass];
    assert ([nodes] + tail)[1..] == tail;
    acts := [pick] + ([nodes] + tail);
    assert acts[1..] == [nodes] + tail;
  }

  lemma {:induction false} PlacesWrite(s: State, before: Table, online: seq<NodeInfo>, at: int)
      returns (acts: seq<Action>)
    requires s.sched.Placing? && s.sched.ids == Ids(online) && |s.sched.avail| == |online|
    requires |s.sched.where| <= |s.sched.queue| && at > 0
    requires forall i :: 0 <= i < |online| ==> online[i].id != ""
    requires forall i :: 0 <= i < |s.sched.queue| ==> s.sched.queue[i].id in before
    requires forall i, j :: 0 <= i < j < |s.sched.queue| ==> s.sched.queue[i].id != s.sched.queue[j].id
    requires PassWrites(before, s.jobs, s.sched.queue, online, s.sched.where)
    ensures IsRun(s, acts)
    ensures var s' := After(s, acts);
            && s'.sched.Placing? && s'.sched.queue == s.sched.queue && s'.sched.snapshot == s.sched.snapshot
            && |s'.sched.where| == |s.sched.queue|
            && PassWrites(before, s'.jobs, s.sched.queue, online, s'.sched.where)
            && s'.agents == s.agents && s'.launches == s.launches
    decreases |s.sched.queue| - |s.sched.where|
  {
    if |s.sched.where| == |s.sched.queue| {
      acts := [];
    } else {
      var s' := Next(s, Place(at));
      var i := FitIndex(s.sched.avail, s.sched.queue[|s.sched.where|].spec.resources);
      OneMoreWrite(before, s.jobs, s'.jobs, s.sched.queue, online, s.sched.where, i, at);
      var rest := PlacesWrite(s', before, online, at);
      acts := [Place(at)] + rest;
      assert acts[1..] == rest;
    }
  }

  // ---- Launching at most once ---------------------------------------------------------------------

  ghost predicate OneAgentPerNode(s: State) {
    forall a, b :: a in s.agents && b in s.agents && s.agents[a].node == s.agents[b].node ==> a == b
  }

  /** This step spawns a thread for `job`. */
  ghost predicate Launches(s: State, a: Action, job: JobId) {
    && a.Spawn? && a.agent in s.agents && s.agents[a.agent].poll == Fetched(job)
    && job !in s.agents[a.agent].running
  }

  /** The job has left a trace: the master has recorded its start, or some agent has it in its table or is
      about to. */
  ghost predicate Traced(s: State, job: JobId) {
    || (job in s.jobs && s.jobs[job].startedAt != 0)
    || (exists a :: a in s.agents && InTable(s.agents[a], job))
  }

  predicate InTable(agent: Agent, job: JobId) {
    job in agent.running || agent.poll == Entering(job)
  }

  /** At every moment the jobs launched so far are exactly those that have left a trace. */
  lemma LaunchedIffTraced(s: State, job: JobId)
    requires Invariant(s)
    ensures job in Launched(s) <==> Traced(s, job)
  {
    if job in Launched(s) {
      var t :| 0 <= t < |Launched(s)| && Launched(s)[t] == job;
      var agent := s.launches[t].agent;
      assert Holds(s.launches, t, agent, job) ==> EntryMatches(s.agents[agent], s.launches[t]);
      assert HasEntry(s.launches[t].phase) ==> InTable(s.agents[agent], job);
    }
    if job in s.jobs && s.jobs[job].startedAt != 0 {
      var t :| 0 <= t < |s.launches| && s.launches[t].job == job && StartTold(s.launches[t].phase);
      assert Launched(s)[t] == job;
    }
    if a :| a in s.agents && InTable(s.agents[a], job) {
      var t: nat :| Holds(s.launches, t, a, job);
      assert Launched(s)[t] == job;
    }
  }

  /** With one agent per node, a launch is a second launch exactly when the master has already recorded the
      job's start: the reply it answers was overtaken by the job itself. */
  lemma RelaunchIffStartRecorded(s: State, a: Action, job: JobId)
    requires Invariant(s) && OneAgentPerNode(s) && Enabled(s, a) && Launches(s, a, job)
    ensures job in s.jobs
    ensures job in Launched(s) <==> s.jobs[job].startedAt != 0
  {
    LaunchedIffTraced(s, job);
    TablesHoldOwnJobs(s);
  }

  /** An agent has in its table only jobs placed on its own node. */
  lemma TablesHoldOwnJobs(s: State)
    requires Invariant(s)
    ensures forall b, job :: b in s.agents && InTable(s.agents[b], job) ==>
            job in s.jobs && s.jobs[job].node == s.agents[b].node
  {
    forall b, job | b in s.agents && InTable(s.agents[b], job)
      ensures job in s.jobs && s.jobs[job].node == s.agents[b].node
    {
      var t: nat :| Holds(s.launches, t, b, job);
      assert s.launches[t].job == job;
    }
  }

  /** Every launch in the run is of a job that has left no trace. */
  ghost predicate FreshRun(s: State, acts: seq<Action>)
    requires IsRun(s, acts)
    decreases acts
  {
    acts == [] || (FreshStep(s, acts[0]) && FreshRun(Next(s, acts[0]), acts[1..]))
  }

  ghost predicate FreshStep(s: State, a: Action) {
    forall job :: Launches(s, a, job) ==> !Traced(s, job)
  }

  lemma StepKeepsAgents(s: State, a: Action)
    requires Enabled(s, a)
    ensures Next(s, a).agents.Keys == s.agents.Keys
    ensures forall b :: b in s.agents ==> Next(s, a).agents[b].node == s.agents[b].node
  {
    match a
    case Fetch(agent, job) =>
    case Spawn(agent) =>
    case Enter(agent) =>
    case RegisterPid(t, pid) =>
    case Forget(t) =>
    case _ => assert Next(s, a).agents == s.agents;
  }

  lemma StepExtendsHistory(s: State, a: Action)
    requires Enabled(s, a)
    ensures (exists job :: Launches(s, a, job) && Launched(Next(s, a)) == Launched(s) + [job])
         || ((forall job :: !Launches(s, a, job)) && Launched(Next(s, a)) == Launched(s))
  {
    var s' := Next(s, a);
    if job :| Launches(s, a, job) {
      assert Launched(s') == Launched(s) + [job];
    } else {
      assert a.Spawn? ==> !Launches(s, a, s.agents[a.agent].poll.job);
      assert |s'.launches| == |s.launches|;
      assert forall t :: 0 <= t < |s.launches| ==> s'.launches[t].job == s.launches[t].job;
      assert Launched(s') == Launched(s);
    }
  }

  /** Launches are never taken back. */
  lemma {:induction false} HistoryGrows(s: State, acts: seq<Action>)
    requires IsRun(s, acts)
    ensures Launched(s) <= Launched(After(s, acts))
    decreases acts
  {
    if acts != [] {
      StepExtendsHistory(s, acts[0]);
      HistoryGrows(Next(s, acts[0]), acts[1..]);
    }
  }

  lemma StepKeepsAtMostOnceIffFresh(s: State, a: Action)
    requires Invariant(s) && Enabled(s, a) && AtMostOnce(s)
    ensures AtMostOnce(Next(s, a)) <==> FreshStep(s, a)
  {
    StepExtendsHistory(s, a);
    if job :| Launches(s, a, job) {
      LaunchedIffTraced(s, job);
      AppendKeepsDistinct(Launched(s), job);
    }
  }

  lemma AppendKeepsDistinct(h: seq<JobId>, job: JobId)
    requires NoDuplicates(h)
    ensures NoDuplicates(h + [job]) <==> job !in h
  {
    if job in h {
      var t :| 0 <= t < |h| && h[t] == job;
      assert (h + [job])[t] == (h + [job])[|h|];
    }
  }

  lemma {:induction false} FreshFromHere(s: State, acts: seq<Action>)
    requires Invariant(s) && AtMostOnce(s) && IsRun(s, acts)
    ensures AtMostOnce(After(s, acts)) <==> FreshRun(s, acts)
    decreases acts
  {
    if acts != [] {
      var s' := Next(s, acts[0]);
      StepKeepsInvariant(s, acts[0]);
      StepKeepsAtMostOnceIffFresh(s, acts[0]);
      if FreshStep(s, acts[0]) {
        FreshFromHere(s', acts[1..]);
      } else {
        HistoryGrows(s', acts[1..]);
      }
    }
  }

  /** In every cluster, a run launches every job at most once if and only if each launch in it is of a job that
      has left no trace with the master or in any agent's table. */
  lemma AtMostOnceIffFresh(c: Cluster, acts: seq<Action>)
    requires IsRun(Init(c), acts)
    ensures AtMostOnce(After(Init(c), acts)) <==> FreshRun(Init(c), acts)
  {
    InitInvariant(c);
    FreshFromHere(Init(c), acts);
  }

  ghost predicate Injective(c: Cluster) {
    forall a, b :: a in c && b in c && c[a] == c[b] ==> a == b
  }

  /** Every reply is acted on before anything else happens. */
  ghost predicate PromptRun(acts: seq<Action>) {
    (acts != [] ==> !acts[0].Spawn?) && PromptFromSecond(acts)
  }

  ghost predicate PromptFromSecond(acts: seq<Action>) {
    forall k :: 1 <= k < |acts| && acts[k].Spawn? ==> acts[k - 1].Fetch? && acts[k - 1].agent == acts[k].agent
  }

  /** A reply acted on at once finds the job still assigned, hence not yet started. */
  lemma FetchThenSpawnIsFresh(s: State, fetch: Action, spawn: Action)
    requires Invariant(s) && OneAgentPerNode(s) && Enabled(s, fetch) && Enabled(Next(s, fetch), spawn)
    requires fetch.Fetch? && spawn.Spawn? && fetch.agent == spawn.agent
    ensures FreshStep(Next(s, fetch), spawn)
  {
    var s' := Next(s, fetch);
    StepKeepsInvariant(s, fetch);
    StepKeepsAgents(s, fetch);
    if job :| Launches(s', spawn, job) {
      assert job == fetch.job && s'.jobs[job].startedAt == 0;
      RelaunchIffStartRecorded(s', spawn, job);
      LaunchedIffTraced(s', job);
    }
  }

  lemma {:induction false} PromptIsFresh(s: State, acts: seq<Action>)
    requires Invariant(s) && OneAgentPerNode(s) && IsRun(s, acts)
    requires PromptFromSecond(acts) && (acts != [] ==> FreshStep(s, acts[0]))
    ensures FreshRun(s, acts)
    decreases acts
  {
    if acts != [] {
      var s' := Next(s, acts[0]);
      StepKeepsInvariant(s, acts[0]);
      StepKeepsAgents(s, acts[0]);
      assert OneAgentPerNode(s');
      if |acts| > 1 {
        assert acts[1..][0] == acts[1];
        if acts[1].Spawn? {
          FetchThenSpawnIsFresh(s, acts[0], acts[1]);
        }
      }
      assert forall k :: 0 <= k < |acts[1..]| ==> acts[1..][k] == acts[k + 1];
      PromptIsFresh(s', acts[1..]);
    }
  }

  /** So with one agent per node, polling that is never overtaken launches at most once. */
  lemma PromptRunsLaunchOnce(c: Cluster, acts: seq<Action>)
    requires Injective(c) && IsRun(Init(c), acts) && PromptRun(acts)
    ensures AtMostOnce(After(Init(c), acts))
  {
    InitInvariant(c);
    PromptIsFresh(Init(c), acts);
    AtMostOnceIffFresh(c, acts);
  }

  // ---- Completed and failed are final -------------------------------------------------------------

  /** The table accepts any write, yet a step can change a completed or failed job only if that job has been
      launched twice. */
  lemma OnlyRelaunchLeavesFinal(s: State, a: Action, id: JobId)
    requires Invariant(s) && Enabled(s, a) && id in s.jobs && Final(s.jobs[id].status)
    requires !LaunchedTwice(s, id)
    ensures id in Next(s, a).jobs && Next(s, a).jobs[id].status == s.jobs[id].status
  {
    OnlyLaunchHasEnded(s, id);
    if a.Place? {
      assert s.sched.queue[|s.sched.where|] == Untried(s.sched)[0];
    }
    NoThreadNoWrite(s, a, id);
  }

  lemma OnlyLaunchHasEnded(s: State, id: JobId)
    requires LinkInvariant(s) && id in s.jobs && Final(s.jobs[id].status) && !LaunchedTwice(s, id)
    ensures forall u :: 0 <= u < |s.launches| && s.launches[u].job == id ==> Ended(s.launches[u].phase)
    ensures id in s.placed
  {
    var t :| 0 <= t < |s.launches| && s.launches[t].job == id && Ended(s.launches[t].phase);
    forall u | 0 <= u < |s.launches| && s.launches[u].job == id ensures Ended(s.launches[u].phase) {
      assert Launched(s)[t] == id && Launched(s)[u] == id;
    }
  }

  /** A finished job that no live thread and no pending assignment refers to is not written. */
  lemma NoThreadNoWrite(s: State, a: Action, id: JobId)
    requires Enabled(s, a) && id in s.jobs && Final(s.jobs[id].status)
    requires forall u :: 0 <= u < |s.launches| && s.launches[u].job == id ==> Ended(s.launches[u].phase)
    requires a.Place? ==> s.sched.queue[|s.sched.where|].id != id
    ensures id in Next(s, a).jobs && Next(s, a).jobs[id].status == s.jobs[id].status
  {
  }

  /** So over any further run a completed or failed job that is not launched twice keeps its status. */
  lemma {:induction false} FinalStays(s: State, acts: seq<Action>, id: JobId)
    requires Invariant(s) && IsRun(s, acts) && id in s.jobs && Final(s.jobs[id].status)
    requires !LaunchedTwice(After(s, acts), id)
    ensures id in After(s, acts).jobs && After(s, acts).jobs[id].status == s.jobs[id].status
    decreases acts
  {
    if acts != [] {
      HistoryGrows(s, acts);
      StepKeepsInvariant(s, acts[0]);
      OnlyRelaunchLeavesFinal(s, acts[0], id);
      FinalStays(Next(s, acts[0]), acts[1..], id);
    }
  }

  // ---- The agents' tables -------------------------------------------------------------------------

  /** The registration of a pid always finds the entry made by ExecuteAsync, because both need the mutex. */
  lemma RegistrationFindsEntry(c: Cluster, s: State, t: nat, pid: nat)
    requires Reachable(c, s) && Enabled(s, RegisterPid(t, pid))
    ensures var job := s.launches[t].job;
            && job in RunningOf(s, t) && RunningOf(s, t)[job] == 0
            && RunningOf(Next(s, RegisterPid(t, pid)), t)[job] == pid
  {
    ReachableInvariant(c, s);
    assert Holds(s.launches, t, s.launches[t].agent, s.launches[t].job);
  }

  /** The thread's process exists: forked, and not yet waited for. */
  predicate ProcessAlive(p: Phase) {
    p.Registered? || p.Started?
  }

  /** An entry belongs to exactly one thread. Cancelling finds a pid there exactly once that thread has registered,
      and it is that thread's own; its process is still there exactly if the thread has not passed the wait. */
  lemma CancelFindsOwnPid(c: Cluster, s: State, a: AgentId, job: JobId)
    requires Reachable(c, s) && a in s.agents && job in s.agents[a].running
    ensures exists t: nat :: Holds(s.launches, t, a, job)
    ensures forall t: nat, u: nat :: Holds(s.launches, t, a, job) && Holds(s.launches, u, a, job) ==> t == u
    ensures forall t: nat :: Holds(s.launches, t, a, job) ==>
              var l := s.launches[t];
              && s.agents[a].running[job] == l.pid
              && (l.pid > 0 <==> ProcessAlive(l.phase) || l.phase.Reaped?)
  {
    ReachableInvariant(c, s);
    assert forall t: nat :: Holds(s.launches, t, a, job) ==> EntryMatches(s.agents[a], s.launches[t]);
  }

  /** Between the wait and the removal of the entry a cancellation finds the pid of a process that is gone. */
  lemma ReapedPidIsFound(c: Cluster, a: AgentId) returns (acts: seq<Action>)
    requires a in c && c[a] != ""
    ensures IsRun(Init(c), acts)
    ensures var s := After(Init(c), acts);
            && s.launches == [Launch(a, JOB, 7, Reaped(Exited(0)))]
            && a in s.agents && JOB in s.agents[a].running && s.agents[a].running[JOB] == 7
  {
    var s: State;
    acts, s := OfferedTwice(c, a);
    acts, s := Play(c, acts, s, RegisterPid(0, 7));
    acts, s := Play(c, acts, s, ReportStart(0, 2));
    acts, s := Play(c, acts, s, Reap(0, Exited(0)));
  }

  ghost function Threads(s: State, a: AgentId): set<nat> {
    set t: nat | t < |s.launches| && Holds(s.launches, t, a, s.launches[t].job)
  }

  /** The running count an agent reports is the number of its threads that have been spawned and have not
      removed their entry. */
  lemma RunningCountIsThreadCount(c: Cluster, s: State, a: AgentId)
    requires Reachable(c, s) && a in s.agents && !s.agents[a].poll.Entering?
    ensures |s.agents[a].running| == |Threads(s, a)|
  {
    ReachableInvariant(c, s);
    CountEntries(s.agents, s.launches, a);
  }

  /** So that is what the node table shows after the agent's heartbeat, and still after the next sweep. */
  lemma ShownCountIsThreadCount(c: Cluster, s: State, a: AgentId, nodes: Nodes, available: Resources, beatAt: int,
      timeout: nat, now: int)
    requires Reachable(c, s) && a in s.agents && !s.agents[a].poll.Entering? && s.agents[a].node in nodes
    ensures var n := s.agents[a].node;
            var after := TimeOut(Beat(nodes, n, available, |s.agents[a].running|, beatAt), timeout, now);
            n in after && after[n].runningJobs == |Threads(s, a)|
  {
    RunningCountIsThreadCount(c, s, a);
    HeartbeatLastsForTimeout(nodes, s.agents[a].node, available, |s.agents[a].running|, beatAt, timeout, now);
  }

  lemma CountEntries(agents: map<AgentId, Agent>, launches: seq<Launch>, a: AgentId)
    requires ExecutorInvariant(agents, launches) && a in agents && !agents[a].poll.Entering?
    ensures |agents[a].running| == |set t: nat | t < |launches| && Holds(launches, t, a, launches[t].job)|
  {
    var running := agents[a].running;
    var threads := set t: nat | t < |launches| && Holds(launches, t, a, launches[t].job);
    var f := map t | t in threads :: launches[t].job;
    forall t | t in threads ensures f[t] in running.Keys {
      assert EntryMatches(agents[a], launches[t]);
    }
    forall job | job in running.Keys ensures job in f.Values {
      var t: nat :| Holds(launches, t, a, job);
      assert t in f && f[t] == job;
    }
    assert f.Values == running.Keys;
    SameSize(threads, running.Keys, f);
  }

  // ---- Where the guarantees end -------------------------------------------------------------------

  const JOB: JobId := "job-00000001"
  const SPEC := JobSpec(NOTHING, 0, "true")

  /** Appends a step to a run from the start. */
  lemma Play(c: Cluster, acts: seq<Action>, s: State, a: Action) returns (acts': seq<Action>, s': State)
    requires IsRun(Init(c), acts) && After(Init(c), acts) == s && Enabled(s, a)
    ensures acts' == acts + [a] && s' == Next(s, a)
    ensures IsRun(Init(c), acts') && After(Init(c), acts') == s'
  {
    RunThenStep(Init(c), acts, a);
    acts', s' := acts + [a], Next(s, a);
  }

  /** One job submitted and picked up by a pass. */
  lemma OneJobPicked(c: Cluster) returns (acts: seq<Action>, s: State)
    ensures IsRun(Init(c), acts) && After(Init(c), acts) == s
    ensures PromptRun(acts)
    ensures s.jobs == map[JOB := NewJob(JOB, SPEC, "user1", "user1", 1)] && s.sched == Picked([s.jobs[JOB]])
    ensures s.agents == Init(c).agents && s.launches == []
  {
    acts, s := Play(c, [], Init(c), Action.SubmitJob(JOB, SPEC, "user1", "user1", 1));
    assert s.jobs == map[JOB := NewJob(JOB, SPEC, "user1", "user1", 1)];
    acts, s := Play(c, acts, s, PickQueue([s.jobs[JOB]]));
  }

  /** One job submitted and assigned to node `n`, no agent involved yet. */
  lemma OneJobAssigned(c: Cluster, n: NodeId) returns (acts: seq<Action>, s: State)
    requires n != ""
    ensures IsRun(Init(c), acts) && After(Init(c), acts) == s
    ensures PromptRun(acts)
    ensures s.jobs.Keys == {JOB} && s.jobs[JOB].status == Assigned && s.jobs[JOB].node == n
    ensures s.agents == Init(c).agents && s.launches == []
  {
    acts, s := OneJobPicked(c);
    acts, s := Play(c, acts, s, PickNodes([n], [NOTHING]));
    acts, s := Play(c, acts, s, Place(1));
  }

  /** Two agent processes under one node id both fetch and both launch the same job, however promptly. */
  lemma SharedNodeLaunchesTwice(c: Cluster, a: AgentId, b: AgentId) returns (acts: seq<Action>)
    requires a in c && b in c && a != b && c[a] == c[b] && c[a] != ""
    ensures IsRun(Init(c), acts) && PromptRun(acts) && !AtMostOnce(After(Init(c), acts))
    ensures JOB in After(Init(c), acts).jobs && {a, b} <= After(Init(c), acts).agents.Keys
    ensures After(Init(c), acts).launches == [Launch(a, JOB, 0, Spawned), Launch(b, JOB, 0, Spawned)]
  {
    var first, s := OneJobAssigned(c, c[a]);
    acts, s := Play(c, first, s, Fetch(a, JOB));
    acts, s := Play(c, acts, s, Spawn(a));
    PromptPair(first, a, JOB);
    var second := acts;
    assert s.launches == [Launch(a, JOB, 0, Spawned)];
    acts, s := Play(c, second, s, Fetch(b, JOB));
    acts, s := Play(c, acts, s, Spawn(b));
    PromptPair(second, b, JOB);
    assert Launched(s) == [JOB, JOB];
    assert Launched(s)[0] == Launched(s)[1];
  }

  lemma PromptPair(acts: seq<Action>, a: AgentId, job: JobId)
    requires PromptRun(acts)
    ensures PromptRun(acts + [Fetch(a, job)] + [Spawn(a)])
  {
  }

  /** With prompt polling, at-most-once launching is a property of the clusters in which no two agent processes
      share a node id, and of no others. */
  lemma AtMostOnceIffOneAgentPerNode(c: Cluster)
    requires forall a :: a in c ==> c[a] != ""
    ensures Injective(c) <==>
            forall acts :: IsRun(Init(c), acts) && PromptRun(acts) ==> AtMostOnce(After(Init(c), acts))
  {
    if Injective(c) {
      forall acts | IsRun(Init(c), acts) && PromptRun(acts) ensures AtMostOnce(After(Init(c), acts)) {
        PromptRunsLaunchOnce(c, acts);
      }
    } else {
      var a, b :| a in c && b in c && c[a] == c[b] && a != b;
      var acts := SharedNodeLaunchesTwice(c, a, b);
    }
  }

  /** A second reply fetched before the start report and acted on after the job is over launches the job again
      and takes it from completed back to running; one agent on its own is enough. */
  lemma OvertakenReplyRelaunches(c: Cluster, a: AgentId) returns (acts: seq<Action>, more: seq<Action>)
    requires a in c && c[a] != ""
    ensures IsRun(Init(c), acts) && IsRun(After(Init(c), acts), more)
    ensures var s, s' := After(Init(c), acts), After(After(Init(c), acts), more);
            && JOB in s.jobs && s.jobs[JOB].status == Completed && AtMostOnce(s)
            && JOB in s'.jobs && s'.jobs[JOB].status == JobStatus.Running && LaunchedTwice(s', JOB)
  {
    var s: State;
    acts, s := OfferedTwice(c, a);
    acts, s := RunToTheEnd(c, acts, s, a);
    more := RelaunchFrom(s, a);
  }

  /** The thread runs to its end while the second offer is still on its way. */
  lemma RunToTheEnd(c: Cluster, acts: seq<Action>, s: State, a: AgentId) returns (acts': seq<Action>, s': State)
    requires IsRun(Init(c), acts) && After(Init(c), acts) == s
    requires JOB in s.jobs && a in s.agents && s.agents[a].poll == Fetched(JOB) &&
             s.launches == [Launch(a, JOB, 0, Spawned)]
    ensures IsRun(Init(c), acts') && After(Init(c), acts') == s'
    ensures JOB in s'.jobs && s'.jobs[JOB].status == Completed && a in s'.agents && s'.agents[a].poll == Fetched(JOB)
    ensures JOB !in s'.agents[a].running && s'.launches == [Launch(a, JOB, 7, Done)]
  {
    acts', s' := Play(c, acts, s, RegisterPid(0, 7));
    acts', s' := Play(c, acts', s', ReportStart(0, 2));
    assert JOB in s'.jobs && a in s'.agents && s'.agents[a].poll == Fetched(JOB) &&
           s'.launches == [Launch(a, JOB, 7, Started)];
    acts', s' := EndAfterStart(c, acts', s', a);
  }

  lemma EndAfterStart(c: Cluster, acts: seq<Action>, s: State, a: AgentId) returns (acts': seq<Action>, s': State)
    requires IsRun(Init(c), acts) && After(Init(c), acts) == s
    requires JOB in s.jobs && a in s.agents && s.agents[a].poll == Fetched(JOB) &&
             s.launches == [Launch(a, JOB, 7, Started)]
    ensures IsRun(Init(c), acts') && After(Init(c), acts') == s'
    ensures JOB in s'.jobs && s'.jobs[JOB].status == Completed && a in s'.agents && s'.agents[a].poll == Fetched(JOB)
    ensures JOB !in s'.agents[a].running && s'.launches == [Launch(a, JOB, 7, Done)]
  {
    acts', s' := Play(c, acts, s, Reap(0, Exited(0)));
    assert s'.launches == [Launch(a, JOB, 7, Reaped(Exited(0)))];
    acts', s' := EndAfterWait(c, acts', s', a);
  }

  lemma EndAfterWait(c: Cluster, acts: seq<Action>, s: State, a: AgentId) returns (acts': seq<Action>, s': State)
    requires IsRun(Init(c), acts) && After(Init(c), acts) == s
    requires JOB in s.jobs && a in s.agents && s.agents[a].poll == Fetched(JOB) &&
             s.launches == [Launch(a, JOB, 7, Reaped(Exited(0)))]
    ensures IsRun(Init(c), acts') && After(Init(c), acts') == s'
    ensures JOB in s'.jobs && s'.jobs[JOB].status == Completed && a in s'.agents && s'.agents[a].poll == Fetched(JOB)
    ensures JOB !in s'.agents[a].running && s'.launches == [Launch(a, JOB, 7, Done)]
  {
    acts', s' := Play(c, acts, s, Forget(0));
    acts', s' := Play(c, acts', s', ReportEnd(0, 3));
  }

  /** The job is launched and, its start not yet reported, offered again. */
  lemma OfferedTwice(c: Cluster, a: AgentId) returns (acts: seq<Action>, s: State)
    requires a in c && c[a] != ""
    ensures IsRun(Init(c), acts) && After(Init(c), acts) == s
    ensures JOB in s.jobs && a in s.agents && s.agents[a].poll == Fetched(JOB) && JOB in s.agents[a].running
    ensures s.launches == [Launch(a, JOB, 0, Spawned)]
  {
    acts, s := OneJobAssigned(c, c[a]);
    acts, s := Play(c, acts, s, Fetch(a, JOB));
    acts, s := Play(c, acts, s, Spawn(a));
    acts, s := Play(c, acts, s, Enter(a));
    acts, s := Play(c, acts, s, Fetch(a, JOB));
  }

  lemma RelaunchFrom(s: State, a: AgentId) returns (more: seq<Action>)
    requires a in s.agents && s.agents[a].poll == Fetched(JOB) && JOB !in s.agents[a].running
    requires JOB in s.jobs && |s.launches| == 1 && s.launches[0].job == JOB
    ensures IsRun(s, more)
    ensures JOB in After(s, more).jobs && After(s, more).jobs[JOB].status == JobStatus.Running &&
            LaunchedTwice(After(s, more), JOB)
  {
    var s1 := Next(s, Spawn(a));
    var s2 := Next(s1, Enter(a));
    var rest := StartReported(s2, a);
    assert ([Enter(a)] + rest)[1..] == rest;
    more := [Spawn(a)] + ([Enter(a)] + rest);
    assert more[1..] == [Enter(a)] + rest;
    HistoryGrows(s2, rest);
    assert Launched(s2)[0] == JOB && Launched(s2)[1] == JOB;
  }

  lemma StartReported(s: State, a: AgentId) returns (more: seq<Action>)
    requires a in s.agents && !s.agents[a].poll.Entering? && JOB in s.jobs
    requires |s.launches| == 2 && s.launches[1] == Launch(a, JOB, 0, Spawned)
    ensures IsRun(s, more) && JOB in After(s, more).jobs && After(s, more).jobs[JOB].status == JobStatus.Running
  {
    var s1 := Next(s, RegisterPid(1, 8));
    var report := OneStep(s1, ReportStart(1, 4));
    StepThenRun(s, RegisterPid(1, 8), report);
    more := [RegisterPid(1, 8)] + report;
  }

  /** Cancellation is not final: a pass that took its snapshot before the cancellation assigns the job after. */
  lemma CancelledJobIsAssigned(c: Cluster, n: NodeId) returns (acts: seq<Action>, s: State)
    requires n != ""
    ensures IsRun(Init(c), acts) && After(Init(c), acts) == s && |acts| >= 2 &&
            acts[|acts| - 2] == Action.CancelJob(JOB, 2)
    ensures JOB in s.jobs && s.jobs[JOB].status == Assigned
  {
    acts, s := OneJobPicked(c);
    acts, s := Play(c, acts, s, PickNodes([n], [NOTHING]));
    acts, s := Play(c, acts, s, Action.CancelJob(JOB, 2));
    acts, s := Play(c, acts, s, Place(3));
  }
}
