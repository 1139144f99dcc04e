/** Exactly when a completed, failed or cancelled job keeps its status for good. */
module ClusterFinality {
  import opened Common
  import opened ResourceSpecs
  import opened JobTable
  import opened FirstFit
  import opened Execution
  import opened ClusterProtocol
  import opened ClusterInvariant
  import opened ClusterTheorems

  /** No wait of the run fails to tell how the process ended, except where `waitsFail` admits that. */
  ghost predicate WaitsTell(acts: seq<Action>, waitsFail: bool) {
    waitsFail || forall k :: 0 <= k < |acts| ==> WaitTells(acts[k])
  }

  predicate WaitTells(a: Action) {
    a.Reap? ==> !a.w.Neither?
  }

  /** No further run changes the job's status. */
  ghost predicate KeptForever(s: State, id: JobId, waitsFail: bool)
    requires id in s.jobs
  {
    forall acts :: IsRun(s, acts) && WaitsTell(acts, waitsFail) ==>
      id in After(s, acts).jobs && After(s, acts).jobs[id].status == s.jobs[id].status
  }

  /** Trying `rest` one by one on what is left on the nodes does not place `id`. */
  ghost predicate NeverPlaces(rest: seq<JobInfo>, avail: seq<Resources>, id: JobId)
    decreases rest
  {
    rest == [] ||
    (var i := FitIndex(avail, rest[0].spec.resources);
     (rest[0].id == id ==> i == |avail|) && NeverPlaces(rest[1..], Deduct(avail, i, rest[0].spec.resources), id))
  }

  ghost predicate NotQueuedUp(rest: seq<JobInfo>, id: JobId) {
    forall k :: 0 <= k < |rest| ==> rest[k].id != id
  }

  /** The pass in progress has no copy of the job that it will place. */
  ghost predicate PassedOver(sched: Scheduler, id: JobId) {
    match sched
    case Idle => true
    case Picked(queue) => NotQueuedUp(queue, id)
    case Placing(_, _, _, _, avail) => NeverPlaces(Untried(sched), avail, id)
  }

  /** An agent that holds an offer of the job will turn it away, because it has the job in its table without a
      pid; an entry with a pid may be gone by the time the offer is acted on. */
  ghost predicate OffersRefused(s: State, id: JobId) {
    forall a :: a in s.agents && s.agents[a].poll == Fetched(id) ==>
      id in s.agents[a].running && s.agents[a].running[id] == 0
  }

  /** The thread is over, or has only a report to send that says what the master has already. Unless waits may
      fail, a process that has started can only be reported as completed. */
  predicate Harmless(phase: Phase, status: JobStatus, waitsFail: bool) {
    || Ended(phase)
    || ((phase.Reaped? || phase.Forgotten?) && Reported(ResultOf(phase.w)) == status)
    || (!waitsFail && phase.Started? && status == Completed)
  }

  ghost predicate ThreadsHarmless(s: State, id: JobId, waitsFail: bool)
    requires id in s.jobs
  {
    forall t :: 0 <= t < |s.launches| && s.launches[t].job == id ==>
      Harmless(s.launches[t].phase, s.jobs[id].status, waitsFail)
  }

  ghost predicate Settled(s: State, id: JobId, waitsFail: bool) {
    id in s.jobs && OffersRefused(s, id) && ThreadsHarmless(s, id, waitsFail)
  }

  // ---- Settled jobs stay as they are --------------------------------------------------------------

  ghost predicate Frozen(s: State, id: JobId, waitsFail: bool) {
    Settled(s, id, waitsFail) && Finished(s.jobs[id].status) && PassedOver(s.sched, id)
  }

  lemma StepKeepsFrozen(s: State, a: Action, id: JobId, waitsFail: bool)
    requires Invariant(s) && Enabled(s, a) && (waitsFail || WaitTells(a)) && Frozen(s, id, waitsFail)
    ensures Frozen(Next(s, a), id, waitsFail) && Next(s, a).jobs[id].status == s.jobs[id].status
  {
    FrozenStatus(s, a, id, waitsFail);
    FrozenPass(s, a, id, waitsFail);
    FrozenOffers(s, a, id, waitsFail);
    FrozenThreads(s, a, id, waitsFail);
  }

  lemma FrozenStatus(s: State, a: Action, id: JobId, waitsFail: bool)
    requires PassInvariant(s) && Enabled(s, a) && Frozen(s, id, waitsFail)
    ensures id in Next(s, a).jobs && Next(s, a).jobs[id].status == s.jobs[id].status
  {
    if a.Place? {
      assert s.sched.queue[|s.sched.where|] == Untried(s.sched)[0];
    }
  }

  lemma FrozenPass(s: State, a: Action, id: JobId, waitsFail: bool)
    requires Enabled(s, a) && Frozen(s, id, waitsFail)
    ensures PassedOver(Next(s, a).sched, id)
  {
    if a.PickQueue? {
      forall k | 0 <= k < |a.queue| ensures a.queue[k].id != id {
        assert s.jobs[a.queue[k].id].status == Queued;
      }
    } else if a.PickNodes? {
      AbsentIsNeverPlaced(s.sched.queue, a.avail, id);
      assert s.sched.queue[0..] == s.sched.queue;
    } else if a.Place? {
      assert s.sched.queue[|s.sched.where|] == Untried(s.sched)[0];
      assert Untried(Next(s, a).sched) == Untried(s.sched)[1..];
    }
  }

  lemma {:induction false} AbsentIsNeverPlaced(rest: seq<JobInfo>, avail: seq<Resources>, id: JobId)
    requires NotQueuedUp(rest, id)
    ensures NeverPlaces(rest, avail, id)
    decreases rest
  {
    if rest != [] {
      var req := rest[0].spec.resources;
      assert forall k :: 0 <= k < |rest| - 1 ==> rest[1..][k] == rest[k + 1];
      AbsentIsNeverPlaced(rest[1..], Deduct(avail, FitIndex(avail, req), req), id);
    }
  }

  lemma FrozenOffers(s: State, a: Action, id: JobId, waitsFail: bool)
    requires ExecutorInvariant(s.agents, s.launches) && Enabled(s, a) && Frozen(s, id, waitsFail)
    ensures OffersRefused(Next(s, a), id)
  {
    forall b | b in Next(s, a).agents && Next(s, a).agents[b].poll == Fetched(id)
      ensures id in Next(s, a).agents[b].running && Next(s, a).agents[b].running[id] == 0
    {
      OfferIsOld(s, a, b, id);
      RefusalStays(s, a, b, id);
    }
  }

  /** A job that is not assigned is not offered anew. */
  lemma OfferIsOld(s: State, a: Action, b: AgentId, id: JobId)
    requires Enabled(s, a) && id in s.jobs && s.jobs[id].status != Assigned
    requires b in Next(s, a).agents && Next(s, a).agents[b].poll == Fetched(id)
    ensures b in s.agents && s.agents[b].poll == Fetched(id)
  {
    match a
    case Fetch(agent, job) =>
    case Spawn(agent) =>
    case Enter(agent) =>
    case RegisterPid(t, pid) =>
    case Forget(t) =>
    case _ => assert Next(s, a).agents == s.agents;
  }

  lemma RefusalStays(s: State, a: Action, b: AgentId, id: JobId)
    requires ExecutorInvariant(s.agents, s.launches) && Enabled(s, a) && b in s.agents && b in Next(s, a).agents
    requires s.agents[b].poll == Fetched(id) && id in s.agents[b].running && s.agents[b].running[id] == 0
    requires a.RegisterPid? ==> s.launches[a.t].job != id
    ensures Next(s, a).agents[b].poll == Fetched(id) ==>
              id in Next(s, a).agents[b].running && Next(s, a).agents[b].running[id] == 0
  {
    match a
    case Forget(t) => ForgetKeepsRefusal(s, t, b, id);
    case RegisterPid(t, pid) =>
    case Fetch(agent, job) =>
    case Spawn(agent) =>
    case Enter(agent) =>
    case _ => assert Next(s, a).agents == s.agents;
  }

  /** The entry that is removed has a pid. */
  lemma ForgetKeepsRefusal(s: State, t: nat, b: AgentId, id: JobId)
    requires ExecutorInvariant(s.agents, s.launches) && Enabled(s, Forget(t)) && b in s.agents
    requires id in s.agents[b].running && s.agents[b].running[id] == 0
    ensures b in Next(s, Forget(t)).agents
    ensures var running := Next(s, Forget(t)).agents[b].running; id in running && running[id] == 0
  {
    var l := s.launches[t];
    assert Holds(s.launches, t, l.agent, l.job);
    assert EntryMatches(s.agents[l.agent], l);
  }

  lemma FrozenThreads(s: State, a: Action, id: JobId, waitsFail: bool)
    requires Enabled(s, a) && (waitsFail || WaitTells(a)) && Frozen(s, id, waitsFail)
    requires id in Next(s, a).jobs && Next(s, a).jobs[id].status == s.jobs[id].status
    ensures ThreadsHarmless(Next(s, a), id, waitsFail)
  {
    var s' := Next(s, a);
    forall t | 0 <= t < |s'.launches| && s'.launches[t].job == id
      ensures Harmless(s'.launches[t].phase, s.jobs[id].status, waitsFail)
    {
      ThreadStaysHarmless(s, a, t, id, waitsFail);
    }
  }

  lemma ThreadStaysHarmless(s: State, a: Action, t: nat, id: JobId, waitsFail: bool)
    requires Enabled(s, a) && (waitsFail || WaitTells(a)) && Frozen(s, id, waitsFail)
    requires t < |Next(s, a).launches| && Next(s, a).launches[t].job == id
    ensures Harmless(Next(s, a).launches[t].phase, s.jobs[id].status, waitsFail)
  {
    match a
    case Spawn(agent) =>
    case FailEarly(u, at) =>
    case RegisterPid(u, pid) =>
    case ReportStart(u, at) =>
    case Reap(u, w) =>
    case Forget(u) =>
    case ReportEnd(u, at) =>
    case _ =>
  }

  lemma {:induction false} FrozenIsKept(s: State, acts: seq<Action>, id: JobId, waitsFail: bool)
    requires Invariant(s) && IsRun(s, acts) && WaitsTell(acts, waitsFail) && Frozen(s, id, waitsFail)
    ensures id in After(s, acts).jobs && After(s, acts).jobs[id].status == s.jobs[id].status
    decreases acts
  {
    if acts != [] {
      StepKeepsInvariant(s, acts[0]);
      StepKeepsFrozen(s, acts[0], id, waitsFail);
      assert forall k :: 0 <= k < |acts| - 1 ==> acts[1..][k] == acts[k + 1];
      FrozenIsKept(Next(s, acts[0]), acts[1..], id, waitsFail);
    }
  }

  // ---- Any other finished job can leave its status ------------------------------------------------

  /** A run that launches nothing and in which no wait fails. */
  ghost predicate Plain(acts: seq<Action>) {
    forall k :: 0 <= k < |acts| ==> !acts[k].Spawn? && WaitTells(acts[k])
  }

  /** Lets the polling thread out of ExecuteAsync if it is inside, so that the job's thread can take the mutex. */
  lemma FreeMutex(s: State, t: nat, phase: Phase) returns (acts: seq<Action>)
    requires InPhase(s, t, phase)
    ensures IsRun(s, acts) && Plain(acts)
    ensures InPhase(After(s, acts), t, phase) && MutexFree(After(s, acts), t)
    ensures After(s, acts).jobs == s.jobs && After(s, acts).launches == s.launches
    ensures After(s, acts).agents.Keys == s.agents.Keys
  {
    var agent := s.launches[t].agent;
    if s.agents[agent].poll.Entering? {
      acts := OneStep(s, Enter(agent));
    } else {
      acts := [];
    }
  }

  /** A spawned thread can go on to report its start. */
  lemma SpawnedCanStart(s: State, t: nat) returns (acts: seq<Action>)
    requires InPhase(s, t, Spawned) && s.launches[t].job in s.jobs
    ensures IsRun(s, acts) && Plain(acts)
    ensures var id := s.launches[t].job;
            id in After(s, acts).jobs && After(s, acts).jobs[id].status == JobStatus.Running
    ensures After(s, acts).launches == s.launches[t := s.launches[t].(pid := 1, phase := Started)]
    ensures After(s, acts).agents.Keys == s.agents.Keys
  {
    var free := FreeMutex(s, t, Spawned);
    var s1 := After(s, free);
    var s2 := Next(s1, RegisterPid(t, 1));
    var report := OneStep(s2, ReportStart(t, 1));
    StepThenRun(s1, RegisterPid(t, 1), report);
    var rest := [RegisterPid(t, 1)] + report;
    RunsJoin(s, free, rest);
    acts := free + rest;
  }

  /** A thread whose process is gone can go on to report how it ended. */
  lemma ReapedCanEnd(s: State, t: nat, w: WaitStatus) returns (acts: seq<Action>)
    requires InPhase(s, t, Reaped(w)) && s.launches[t].job in s.jobs
    ensures IsRun(s, acts) && Plain(acts)
    ensures var id := s.launches[t].job;
            id in After(s, acts).jobs && After(s, acts).jobs[id].status == Reported(ResultOf(w))
    ensures After(s, acts).launches == s.launches[t := s.launches[t].(phase := Done)]
    ensures After(s, acts).agents.Keys == s.agents.Keys
  {
    var free := FreeMutex(s, t, Reaped(w));
    var s1 := After(s, free);
    var s2 := Next(s1, Forget(t));
    var report := OneStep(s2, ReportEnd(t, 1));
    StepThenRun(s1, Forget(t), report);
    var rest := [Forget(t)] + report;
    RunsJoin(s, free, rest);
    acts := free + rest;
  }

  /** A started thread can end with any outcome. */
  lemma StartedCanEnd(s: State, t: nat, w: WaitStatus) returns (acts: seq<Action>)
    requires InPhase(s, t, Started) && s.launches[t].job in s.jobs
    ensures IsRun(s, acts) && WaitsTell(acts, w.Neither?) && (!w.Neither? ==> Plain(acts))
    ensures var id := s.launches[t].job;
            id in After(s, acts).jobs && After(s, acts).jobs[id].status == Reported(ResultOf(w))
    ensures After(s, acts).launches == s.launches[t := s.launches[t].(phase := Done)]
    ensures After(s, acts).agents.Keys == s.agents.Keys
  {
    var s1 := Next(s, Reap(t, w));
    var rest := ReapedCanEnd(s1, t, w);
    StepThenRun(s, Reap(t, w), rest);
    acts := [Reap(t, w)] + rest;
  }

  /** A thread that is not harmless can take its job out of the status it has. */
  lemma ThreadCanChange(s: State, t: nat, waitsFail: bool) returns (acts: seq<Action>)
    requires t < |s.launches| && s.launches[t].agent in s.agents && s.launches[t].job in s.jobs
    requires var status := s.jobs[s.launches[t].job].status;
             Finished(status) && !Harmless(s.launches[t].phase, status, waitsFail)
    ensures IsRun(s, acts) && WaitsTell(acts, waitsFail)
    ensures var id := s.launches[t].job;
            id in After(s, acts).jobs && After(s, acts).jobs[id].status != s.jobs[id].status
  {
    match s.launches[t].phase
    case Spawned => acts := SpawnedCanStart(s, t);
    case Registered => acts := OneStep(s, ReportStart(t, 1));
    case Started =>
      acts := StartedCanEnd(s, t, if s.jobs[s.launches[t].job].status == Completed then Neither else Exited(0));
    case Reaped(w) => acts := ReapedCanEnd(s, t, w);
    case Forgotten(w) => acts := OneStep(s, ReportEnd(t, 1));
  }

  /** An offer of a job that is not in the table can be launched and started. */
  lemma OfferCanStart(s: State, a: AgentId, id: JobId) returns (acts: seq<Action>)
    requires a in s.agents && s.agents[a].poll == Fetched(id) && id !in s.agents[a].running && id in s.jobs
    ensures IsRun(s, acts) && WaitsTell(acts, false)
    ensures id in After(s, acts).jobs && After(s, acts).jobs[id].status == JobStatus.Running
  {
    var s1 := Next(s, Spawn(a));
    assert InPhase(s1, |s.launches|, Spawned);
    var rest := SpawnedCanStart(s1, |s.launches|);
    StepThenRun(s, Spawn(a), rest);
    acts := [Spawn(a)] + rest;
  }

  /** What a thread does next until it has removed its entry. */
  function NextMove(t: nat, phase: Phase): (a: Action)
    requires HasEntry(phase) && !phase.Abandoned?
    ensures WaitTells(a) && !a.Spawn?
  {
    match phase
    case Spawned => RegisterPid(t, 1)
    case Registered => ReportStart(t, 1)
    case Started => Reap(t, Exited(0))
    case Reaped(_) => Forget(t)
  }

  function MovesLeft(phase: Phase): nat {
    if phase.Spawned? then 3 else if phase.Registered? then 2 else if phase.Started? then 1 else 0
  }

  /** An agent that holds an offer can have a thread of the same job run to the removal of its entry before it
      acts on the offer, unless that thread has given up. */
  lemma {:induction false} EntryCanGo(s: State, t: nat) returns (acts: seq<Action>)
    requires t < |s.launches| && HasEntry(s.launches[t].phase) && !s.launches[t].phase.Abandoned?
    requires var l := s.launches[t]; l.agent in s.agents && l.job in s.jobs && s.agents[l.agent].poll == Fetched(l.job)
    ensures IsRun(s, acts) && Plain(acts)
    ensures var l := s.launches[t];
            && l.job in After(s, acts).jobs && l.agent in After(s, acts).agents
            && After(s, acts).agents[l.agent].poll == Fetched(l.job)
            && l.job !in After(s, acts).agents[l.agent].running
    decreases MovesLeft(s.launches[t].phase)
  {
    var move := NextMove(t, s.launches[t].phase);
    if move.Forget? {
      acts := OneStep(s, move);
    } else {
      var rest := EntryCanGo(Next(s, move), t);
      StepThenRun(s, move, rest);
      acts := [move] + rest;
    }
  }

  /** So can any offer that will not be turned away for good. */
  lemma UnrefusedCanStart(s: State, a: AgentId, id: JobId) returns (acts: seq<Action>)
    requires ExecutorInvariant(s.agents, s.launches) && a in s.agents && s.agents[a].poll == Fetched(id) && id in s.jobs
    requires id in s.agents[a].running ==> s.agents[a].running[id] > 0
    ensures IsRun(s, acts) && WaitsTell(acts, false)
    ensures id in After(s, acts).jobs && After(s, acts).jobs[id].status == JobStatus.Running
  {
    if id in s.agents[a].running {
      var t: nat :| Holds(s.launches, t, a, id);
      var free := EntryCanGo(s, t);
      var rest := OfferCanStart(After(s, free), a, id);
      RunsJoin(s, free, rest);
      acts := free + rest;
    } else {
      acts := OfferCanStart(s, a, id);
    }
  }

  /** A pass that has a place for the job gets to it. */
  lemma {:induction false} PassCanPlace(s: State, id: JobId) returns (acts: seq<Action>)
    requires s.sched.Placing? && |s.sched.where| <= |s.sched.queue| && |s.sched.ids| == |s.sched.avail|
    requires id in s.jobs && !NeverPlaces(Untried(s.sched), s.sched.avail, id)
    ensures IsRun(s, acts) && WaitsTell(acts, false)
    ensures id in After(s, acts).jobs && After(s, acts).jobs[id].status == Assigned
    decreases |Untried(s.sched)|
  {
    var rest := Untried(s.sched);
    assert rest[0] == s.sched.queue[|s.sched.where|];
    var i := FitIndex(s.sched.avail, rest[0].spec.resources);
    var s1 := Next(s, Place(1));
    assert Untried(s1.sched) == rest[1..];
    if rest[0].id == id && i < |s.sched.avail| {
      acts := OneStep(s, Place(1));
    } else {
      var more := PassCanPlace(s1, id);
      StepThenRun(s, Place(1), more);
      acts := [Place(1)] + more;
    }
  }

  const WHOLE_NODE: Resources := Amount(TWO_32 - 1, TWO_64 - 1, TWO_32 - 1)

  /** With as many untouched nodes of maximal size as there are jobs to try, every job is placed. */
  lemma {:induction false} EnoughNodesPlaceAll(rest: seq<JobInfo>, avail: seq<Resources>, id: JobId, k: nat)
    requires k < |rest| <= |avail| && rest[k].id == id
    requires forall j :: |avail| - |rest| <= j < |avail| ==> avail[j] == WHOLE_NODE
    ensures !NeverPlaces(rest, avail, id)
    decreases rest
  {
    var req := rest[0].spec.resources;
    var i := FitIndex(avail, req);
    assert Fits(req, avail[|avail| - |rest|]);
    if k > 0 {
      assert rest[1..][k - 1] == rest[k];
      EnoughNodesPlaceAll(rest[1..], Deduct(avail, i, req), id, k - 1);
    }
  }

  /** A pass that has picked the job up can be offered nodes on which it fits. */
  lemma PickedCanPlace(s: State, id: JobId) returns (acts: seq<Action>)
    requires s.sched.Picked? && id in s.jobs && !NotQueuedUp(s.sched.queue, id)
    ensures IsRun(s, acts) && WaitsTell(acts, false)
    ensures id in After(s, acts).jobs && After(s, acts).jobs[id].status == Assigned
  {
    var queue := s.sched.queue;
    var k :| 0 <= k < |queue| && queue[k].id == id;
    var nodes := PickNodes(seq(|queue|, _ => "node"), seq(|queue|, _ => WHOLE_NODE));
    EnoughNodesPlaceAll(queue, nodes.avail, id, k);
    var s1 := Next(s, nodes);
    assert Untried(s1.sched) == queue;
    var more := PassCanPlace(s1, id);
    StepThenRun(s, nodes, more);
    acts := [nodes] + more;
  }

  lemma UnfrozenCanChange(s: State, id: JobId, waitsFail: bool) returns (acts: seq<Action>)
    requires Invariant(s) && id in s.jobs && Finished(s.jobs[id].status) && !Frozen(s, id, waitsFail)
    ensures IsRun(s, acts) && WaitsTell(acts, waitsFail)
    ensures id in After(s, acts).jobs && After(s, acts).jobs[id].status != s.jobs[id].status
  {
    if !ThreadsHarmless(s, id, waitsFail) {
      var t :| 0 <= t < |s.launches| && s.launches[t].job == id &&
               !Harmless(s.launches[t].phase, s.jobs[id].status, waitsFail);
      acts := ThreadCanChange(s, t, waitsFail);
    } else if !OffersRefused(s, id) {
      var a :| a in s.agents && s.agents[a].poll == Fetched(id) &&
               (id in s.agents[a].running ==> s.agents[a].running[id] > 0);
      acts := UnrefusedCanStart(s, a, id);
    } else if s.sched.Picked? {
      acts := PickedCanPlace(s, id);
    } else {
      acts := PassCanPlace(s, id);
    }
  }

  // ---- The conditions -----------------------------------------------------------------------------

  /** A finished job keeps its status over every further run exactly when no agent will launch an offer of it
      that is on its way, none of its threads has anything new to tell, and the pass in progress, computed to
      its end, does not place a copy of it. */
  lemma KeptForeverIffFrozen(c: Cluster, s: State, id: JobId, waitsFail: bool)
    requires Reachable(c, s) && id in s.jobs && Finished(s.jobs[id].status)
    ensures KeptForever(s, id, waitsFail) <==> Settled(s, id, waitsFail) && PassedOver(s.sched, id)
  {
    ReachableInvariant(c, s);
    if Frozen(s, id, waitsFail) {
      forall acts | IsRun(s, acts) && WaitsTell(acts, waitsFail)
        ensures id in After(s, acts).jobs && After(s, acts).jobs[id].status == s.jobs[id].status
      {
        FrozenIsKept(s, acts, id, waitsFail);
      }
    } else {
      var acts := UnfrozenCanChange(s, id, waitsFail);
    }
  }

  /** For a completed or failed job the scheduler does not come into it. */
  lemma FinalForeverIffSettled(c: Cluster, s: State, id: JobId, waitsFail: bool)
    requires Reachable(c, s) && id in s.jobs && Final(s.jobs[id].status)
    ensures KeptForever(s, id, waitsFail) <==> Settled(s, id, waitsFail)
  {
    ReachableInvariant(c, s);
    KeptForeverIffFrozen(c, s, id, waitsFail);
    assert id in s.placed;
    assert NotQueuedUp(Untried(s.sched), id);
    if s.sched.Placing? {
      AbsentIsNeverPlaced(Untried(s.sched), s.sched.avail, id);
    }
  }

  /** A cancelled job stays cancelled exactly when all its threads are over, every offer of it on its way will
      be turned away, and the pass in progress does not place it. */
  lemma CancelledForeverIff(c: Cluster, s: State, id: JobId, waitsFail: bool)
    requires Reachable(c, s) && id in s.jobs && s.jobs[id].status == Cancelled
    ensures KeptForever(s, id, waitsFail) <==>
            && (forall t :: 0 <= t < |s.launches| && s.launches[t].job == id ==> Ended(s.launches[t].phase))
            && OffersRefused(s, id)
            && PassedOver(s.sched, id)
  {
    KeptForeverIffFrozen(c, s, id, waitsFail);
    assert forall t :: 0 <= t < |s.launches| ==>
           (Harmless(s.launches[t].phase, Cancelled, waitsFail) <==> Ended(s.launches[t].phase));
  }

  /** So a job that is cancelled in the queue, with no pass in progress that will place it, stays cancelled and
      is never launched. */
  lemma CancelledInTimeNeverRuns(c: Cluster, s: State, id: JobId, at: int, acts: seq<Action>)
    requires Reachable(c, s) && id in s.jobs && s.jobs[id].status == Queued && PassedOver(s.sched, id)
    requires at > 0 && IsRun(Next(s, Action.CancelJob(id, at)), acts)
    ensures var s' := After(Next(s, Action.CancelJob(id, at)), acts);
            id in s'.jobs && s'.jobs[id].status == Cancelled && id !in Launched(s')
  {
    var s1 := Next(s, Action.CancelJob(id, at));
    CancelFreezes(c, s, id, at);
    ReachableStep(c, s, Action.CancelJob(id, at));
    ReachableInvariant(c, s1);
    FrozenIsKept(s1, acts, id, true);
    UnlaunchedStaysSo(s1, acts, id);
  }

  /** A job still in the queue has no thread and is on no agent's way. */
  lemma CancelFreezes(c: Cluster, s: State, id: JobId, at: int)
    requires Reachable(c, s) && id in s.jobs && s.jobs[id].status == Queued && PassedOver(s.sched, id) && at > 0
    ensures var s' := Next(s, Action.CancelJob(id, at));
            Frozen(s', id, true) && id !in Launched(s') && s'.jobs[id].status == Cancelled
  {
    ReachableInvariant(c, s);
    assert id !in s.placed;
  }

  lemma {:induction false} UnlaunchedStaysSo(s: State, acts: seq<Action>, id: JobId)
    requires Invariant(s) && IsRun(s, acts) && Frozen(s, id, true) && id !in Launched(s)
    ensures id !in Launched(After(s, acts))
    decreases acts
  {
    if acts != [] {
      StepKeepsInvariant(s, acts[0]);
      StepKeepsFrozen(s, acts[0], id, true);
      RefusedIsNotLaunched(s, acts[0], id);
      StepExtendsHistory(s, acts[0]);
      UnlaunchedStaysSo(Next(s, acts[0]), acts[1..], id);
    }
  }

  lemma RefusedIsNotLaunched(s: State, a: Action, id: JobId)
    requires OffersRefused(s, id)
    ensures !Launches(s, a, id)
  {
  }

  // ---- With prompt replies ------------------------------------------------------------------------

  /** In every run of the cluster with prompt replies, a job that is completed or failed at some moment has that
      status ever after. */
  ghost predicate FinalWhenPrompt(c: Cluster) {
    forall acts, more, id ::
      IsRun(Init(c), acts) && IsRun(After(Init(c), acts), more) && PromptRun(acts + more)
      ==> KeepsIfFinal(After(Init(c), acts), more, id)
  }

  ghost predicate KeepsIfFinal(s: State, more: seq<Action>, id: JobId)
    requires IsRun(s, more)
  {
    id in s.jobs && Final(s.jobs[id].status) ==>
      id in After(s, more).jobs && After(s, more).jobs[id].status == s.jobs[id].status
  }

  /** With prompt replies, completed and failed are final in exactly the clusters in which no two agent processes
      share a node id. */
  lemma FinalWhenPromptIffOneAgentPerNode(c: Cluster)
    requires forall a :: a in c ==> c[a] != ""
    ensures Injective(c) <==> FinalWhenPrompt(c)
  {
    if Injective(c) {
      forall acts, more, id | IsRun(Init(c), acts) && IsRun(After(Init(c), acts), more) && PromptRun(acts + more)
        ensures KeepsIfFinal(After(Init(c), acts), more, id)
      {
        PromptKeepsFinal(c, acts, more, id);
      }
    } else {
      var a, b :| a in c && b in c && c[a] == c[b] && a != b;
      var acts, more := SharedNodeLeavesFinal(c, a, b);
      assert !KeepsIfFinal(After(Init(c), acts), more, JOB);
    }
  }

  lemma PromptKeepsFinal(c: Cluster, acts: seq<Action>, more: seq<Action>, id: JobId)
    requires Injective(c) && IsRun(Init(c), acts) && IsRun(After(Init(c), acts), more) && PromptRun(acts + more)
    ensures KeepsIfFinal(After(Init(c), acts), more, id)
  {
    var s := After(Init(c), acts);
    if id in s.jobs && Final(s.jobs[id].status) {
      RunsJoin(Init(c), acts, more);
      PromptRunsLaunchOnce(c, acts + more);
      InitInvariant(c);
      RunKeepsInvariant(Init(c), acts);
      FinalStays(s, more, id);
    }
  }

  /** Both agents launch the job; the first thread runs to its end, and then the second reports its start. */
  lemma SharedNodeLeavesFinal(c: Cluster, a: AgentId, b: AgentId) returns (acts: seq<Action>, more: seq<Action>)
    requires a in c && b in c && a != b && c[a] == c[b] && c[a] != ""
    ensures IsRun(Init(c), acts) && IsRun(After(Init(c), acts), more) && PromptRun(acts + more)
    ensures JOB in After(Init(c), acts).jobs && After(Init(c), acts).jobs[JOB].status == Completed
    ensures JOB in After(After(Init(c), acts), more).jobs
    ensures After(After(Init(c), acts), more).jobs[JOB].status == JobStatus.Running
  {
    var both := SharedNodeLaunchesTwice(c, a, b);
    var s := After(Init(c), both);
    var start := SpawnedCanStart(s, 0);
    var end := StartedCanEnd(After(s, start), 0, Exited(0));
    RunsJoin(Init(c), both, start);
    RunsJoin(Init(c), both + start, end);
    acts := both + start + end;
    more := SpawnedCanStart(After(Init(c), acts), 1);
    StillPrompt(both, start);
    StillPrompt(both + start, end);
    StillPrompt(acts, more);
  }

  lemma StillPrompt(acts: seq<Action>, more: seq<Action>)
    requires PromptRun(acts) && Plain(more)
    ensures PromptRun(acts + more)
  {
  }
}
