/** Exactly when a job that has been launched will not be launched again. */
module ClusterRelaunch {
  import opened Common
  import opened JobTable
  import opened AgentServices
  import opened ClusterProtocol
  import opened ClusterInvariant
  import opened ClusterTheorems
  import opened ClusterFinality

  /** No further run has another launch of the job. */
  ghost predicate NeverLaunchedAgain(s: State, id: JobId) {
    forall acts, a :: IsRun(s, acts) && Enabled(After(s, acts), a) ==> !Launches(After(s, acts), a, id)
  }

  /** Thread `t` gave up before it had forked, and has left agent `a` an entry for the job. */
  ghost predicate Blocks(s: State, t: nat, a: AgentId, id: JobId) {
    Holds(s.launches, t, a, id) && s.launches[t].phase.Abandoned?
  }

  /** The job is not on offer, and every offer of it on its way meets an entry that stays for good. */
  ghost predicate Spent(s: State, id: JobId) {
    && id in s.jobs && s.jobs[id].status != Assigned
    && (forall a :: a in s.agents && s.agents[a].poll == Fetched(id) ==> exists t: nat :: Blocks(s, t, a, id))
  }

  // ---- Spent jobs stay spent ----------------------------------------------------------------------

  lemma StepKeepsSpent(s: State, a: Action, id: JobId)
    requires Invariant(s) && Enabled(s, a) && Spent(s, id) && id in s.placed
    ensures Spent(Next(s, a), id) && id in Next(s, a).placed
  {
    StaysUnassigned(s, a, id);
    var s' := Next(s, a);
    forall b | b in s'.agents && s'.agents[b].poll == Fetched(id) ensures exists t: nat :: Blocks(s', t, b, id) {
      OfferIsOld(s, a, b, id);
      var t: nat :| Blocks(s, t, b, id);
      BlockStays(s, a, t, b, id);
    }
  }

  lemma StaysUnassigned(s: State, a: Action, id: JobId)
    requires SchedInvariant(s.jobs, Untried(s.sched), s.placed) && Enabled(s, a)
    requires id in s.placed && id in s.jobs && s.jobs[id].status != Assigned
    ensures id in Next(s, a).placed && id in Next(s, a).jobs && Next(s, a).jobs[id].status != Assigned
  {
    if a.Place? {
      PlaceTouchesOne(s, a.at);
    } else if IsReport(a) {
      ReportLeavesUnassigned(s, a, id);
    }
  }

  lemma ReportLeavesUnassigned(s: State, a: Action, id: JobId)
    requires Enabled(s, a) && IsReport(a) && id in s.jobs && s.jobs[id].status != Assigned
    ensures id in Next(s, a).jobs && Next(s, a).jobs[id].status != Assigned
  {
  }

  lemma BlockStays(s: State, a: Action, t: nat, b: AgentId, id: JobId)
    requires Enabled(s, a) && Blocks(s, t, b, id)
    ensures Blocks(Next(s, a), t, b, id)
  {
  }

  lemma {:induction false} RunKeepsSpent(s: State, acts: seq<Action>, id: JobId)
    requires Invariant(s) && IsRun(s, acts) && Spent(s, id) && id in s.placed
    ensures Invariant(After(s, acts)) && Spent(After(s, acts), id)
    decreases acts
  {
    if acts != [] {
      StepKeepsInvariant(s, acts[0]);
      StepKeepsSpent(s, acts[0], id);
      RunKeepsSpent(Next(s, acts[0]), acts[1..], id);
    }
  }

  lemma SpentIsNotLaunched(s: State, a: Action, id: JobId)
    requires ExecutorInvariant(s.agents, s.launches) && Spent(s, id) && Enabled(s, a)
    ensures !Launches(s, a, id)
  {
    if a.Spawn? && s.agents[a.agent].poll == Fetched(id) {
      var t: nat :| Blocks(s, t, a.agent, id);
      assert EntryMatches(s.agents[a.agent], s.launches[t]);
    }
  }

  // ---- Any other launched job can be launched again -----------------------------------------------

  /** An agent that holds an offer which nothing blocks for good can come to launch it. */
  lemma OfferCanLaunch(s: State, a: AgentId, id: JobId) returns (acts: seq<Action>)
    requires ExecutorInvariant(s.agents, s.launches) && a in s.agents && s.agents[a].poll == Fetched(id) && id in s.jobs
    requires forall t: nat :: !Blocks(s, t, a, id)
    ensures IsRun(s, acts) && Enabled(After(s, acts), Spawn(a)) && Launches(After(s, acts), Spawn(a), id)
  {
    if id in s.agents[a].running {
      var t: nat :| Holds(s.launches, t, a, id);
      assert !Blocks(s, t, a, id);
      acts := EntryCanGo(s, t);
    } else {
      acts := [];
    }
  }

  /** An agent comes back to asking, without touching the job table or any thread there is. */
  lemma CanAsk(s: State, a: AgentId) returns (acts: seq<Action>)
    requires a in s.agents
    ensures IsRun(s, acts) && After(s, acts).jobs == s.jobs && s.launches <= After(s, acts).launches
    ensures a in After(s, acts).agents && After(s, acts).agents[a].poll.Asking?
    ensures After(s, acts).agents[a].node == s.agents[a].node
    ensures forall t :: |s.launches| <= t < |After(s, acts).launches| ==>
              s.agents[a].poll == Fetched(After(s, acts).launches[t].job)
  {
    match s.agents[a].poll
    case Asking => acts := [];
    case Entering(job) => acts := OneStep(s, Enter(a));
    case Fetched(job) =>
      var s1 := Next(s, Spawn(a));
      if s1.agents[a].poll.Entering? {
        var rest := OneStep(s1, Enter(a));
        StepThenRun(s, Spawn(a), rest);
        acts := [Spawn(a)] + rest;
      } else {
        acts := OneStep(s, Spawn(a));
      }
  }

  /** While the job is on offer, an agent of its node can come to hold an offer of it. */
  lemma CanFetch(s: State, a: AgentId, id: JobId) returns (acts: seq<Action>)
    requires a in s.agents && Offerable(s.jobs, id, s.agents[a].node)
    ensures IsRun(s, acts) && After(s, acts).jobs == s.jobs
    ensures a in After(s, acts).agents && After(s, acts).agents[a].poll == Fetched(id)
    ensures s.launches <= After(s, acts).launches
    ensures forall t :: |s.launches| <= t < |After(s, acts).launches| ==> After(s, acts).launches[t].job != id
  {
    if s.agents[a].poll == Fetched(id) {
      acts := [];
    } else {
      var ask := CanAsk(s, a);
      var s1 := After(s, ask);
      var fetch := OneStep(s1, Fetch(a, id));
      RunsJoin(s, ask, fetch);
      acts := ask + fetch;
    }
  }

  /** A job that is assigned after it was launched is still on offer, and its threads have all yet to end. */
  lemma AssignedCanLaunch(s: State, t: nat) returns (acts: seq<Action>, a: AgentId)
    requires Invariant(s) && t < |s.launches|
    requires s.launches[t].job in s.jobs && s.jobs[s.launches[t].job].status == Assigned
    ensures IsRun(s, acts) && Enabled(After(s, acts), Spawn(a))
    ensures Launches(After(s, acts), Spawn(a), s.launches[t].job)
  {
    var id := s.launches[t].job;
    a := s.launches[t].agent;
    var fetch := CanFetch(s, a, id);
    var s1 := After(s, fetch);
    RunKeepsInvariant(s, fetch);
    forall u: nat ensures !Blocks(s1, u, a, id) {
      if Blocks(s1, u, a, id) {
        assert s1.jobs[id].status == Assigned && Ended(s1.launches[u].phase);
      }
    }
    var launch := OfferCanLaunch(s1, a, id);
    RunsJoin(s, fetch, launch);
    acts := fetch + launch;
  }

  // ---- The condition ------------------------------------------------------------------------------

  /** In every cluster, however agents share node ids: a job that has been launched is never launched again
      exactly if the master no longer has it as assigned and each agent that holds an offer of it has an entry
      left behind by a thread of the job that gave up. */
  lemma NeverLaunchedAgainIffSpent(c: Cluster, s: State, id: JobId)
    requires Reachable(c, s) && id in Launched(s)
    ensures NeverLaunchedAgain(s, id) <==> Spent(s, id)
  {
    ReachableInvariant(c, s);
    var t :| 0 <= t < |Launched(s)| && Launched(s)[t] == id;
    assert s.launches[t].job == id && id in s.placed && id in s.jobs;
    if Spent(s, id) {
      forall acts, a | IsRun(s, acts) && Enabled(After(s, acts), a) ensures !Launches(After(s, acts), a, id) {
        RunKeepsSpent(s, acts, id);
        SpentIsNotLaunched(After(s, acts), a, id);
      }
    } else if s.jobs[id].status == Assigned {
      var acts, a := AssignedCanLaunch(s, t);
    } else {
      var a :| a in s.agents && s.agents[a].poll == Fetched(id) && forall u: nat :: !Blocks(s, u, a, id);
      var acts := OfferCanLaunch(s, a, id);
    }
  }
}
