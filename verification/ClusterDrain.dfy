/** How fast the queue drains when nothing new is submitted and the nodes keep reporting the same amounts,
    whatever else happens between and during the passes. */
module ClusterDrain {
  import opened Common
  import opened ResourceSpecs
  import opened JobTable
  import opened FirstFit
  import opened Execution
  import opened ClusterProtocol
  import opened ClusterInvariant
  import opened ClusterTheorems
  import opened Scheduling

  /** The queued jobs that would fit an empty-handed node of one of the given sizes. */
  ghost function Waiting(jobs: Table, sizes: set<Resources>): set<JobId> {
    set id | id in jobs && jobs[id].status == Queued && FitsSome(jobs[id].spec.resources, sizes)
  }

  ghost predicate FitsSome(req: Resources, sizes: set<Resources>) {
    exists a :: a in sizes && Fits(req, a)
  }

  ghost predicate SameSizes(avail: seq<Resources>, sizes: set<Resources>) {
    forall a: Resources :: a in sizes <==> a in avail
  }

  /** Nothing is submitted and every pass is offered nodes of the same sizes, in any order and number. */
  ghost predicate Steady(acts: seq<Action>, sizes: set<Resources>) {
    forall k :: 0 <= k < |acts| ==> SteadyStep(acts[k], sizes)
  }

  ghost predicate SteadyStep(a: Action, sizes: set<Resources>) {
    !a.SubmitJob? && (a.PickNodes? ==> SameSizes(a.avail, sizes))
  }

  function PassesEnded(acts: seq<Action>): nat {
    if acts == [] then 0 else (if acts[0].EndPass? then 1 else 0) + PassesEnded(acts[1..])
  }

  /** `first` bounds what is waiting; while a pass is on, it is exactly the part of the pass's queue that fits
      some node. */
  ghost predicate Marked(s: State, sizes: set<Resources>, first: set<JobId>) {
    && Waiting(s.jobs, sizes) <= first
    && (s.sched.Picked? ==> IsFittingPart(s.sched.queue, sizes, first))
    && (s.sched.Placing? ==> IsFittingPart(s.sched.queue, sizes, first) && SameSizes(s.sched.snapshot, sizes))
  }

  ghost predicate IsFittingPart(queue: seq<JobInfo>, sizes: set<Resources>, first: set<JobId>) {
    && (forall id :: id in first ==>
      exists k :: 0 <= k < |queue| && queue[k].id == id && FitsSome(queue[k].spec.resources, sizes))
    && (forall k :: 0 <= k < |queue| && FitsSome(queue[k].spec.resources, sizes) ==> queue[k].id in first)
  }

  /** Without submissions nobody starts waiting. */
  lemma WaitingShrinks(s: State, a: Action, sizes: set<Resources>)
    requires Enabled(s, a) && SteadyStep(a, sizes)
    ensures Waiting(Next(s, a).jobs, sizes) <= Waiting(s.jobs, sizes)
  {
    TableMovesOn(s, a);
  }

  /** Whatever is queued now was queued before, as the same job. */
  ghost predicate MovesOn(before: Table, after: Table) {
    after.Keys == before.Keys &&
    forall id :: id in before && after[id].status == Queued ==>
      before[id].status == Queued && after[id].spec == before[id].spec
  }

  lemma TableMovesOn(s: State, a: Action)
    requires Enabled(s, a) && !a.SubmitJob?
    ensures MovesOn(s.jobs, Next(s, a).jobs)
  {
    match a
    case CancelJob(id, at) =>
    case Place(at) => PlaceMovesOn(s, at);
    case FailEarly(t, at) => ReportMovesOn(s, t, Failed, at);
    case ReportStart(t, at) => ReportMovesOn(s, t, JobStatus.Running, at);
    case ReportEnd(t, at) => ReportMovesOn(s, t, Reported(ResultOf(s.launches[t].phase.w)), at);
    case _ =>
  }

  lemma PlaceMovesOn(s: State, at: int)
    requires Enabled(s, Place(at))
    ensures MovesOn(s.jobs, PlaceStep(s, at).jobs)
  {
  }

  lemma ReportMovesOn(s: State, t: nat, status: JobStatus, at: int)
    requires t < |s.launches| && s.launches[t].agent in s.agents && status != Queued
    ensures MovesOn(s.jobs, WithReport(s, t, status, at).jobs)
  {
  }

  lemma PickMarks(s: State, queue: seq<JobInfo>, sizes: set<Resources>)
    requires KeysAreIds(s.jobs) && IsListing(s.jobs, Queued, queue)
    ensures IsFittingPart(queue, sizes, Waiting(s.jobs, sizes))
  {
    forall id | id in Waiting(s.jobs, sizes)
      ensures exists k :: 0 <= k < |queue| && queue[k].id == id && FitsSome(queue[k].spec.resources, sizes)
    {
      assert s.jobs[id] in queue;
      var k :| 0 <= k < |queue| && queue[k] == s.jobs[id];
    }
  }

  /** A pass that ends, and had something it could place when it began, has placed some of it. */
  lemma PassTakesOne(s: State, sizes: set<Resources>, first: set<JobId>) returns (taken: JobId)
    requires PassInvariant(s) && Enabled(s, EndPass) && Marked(s, sizes, first) && first != {}
    ensures taken in first && taken in s.placed
  {
    var p := s.sched;
    var snapshot, reqs := p.snapshot, Requests(p.queue);
    PassEnds(snapshot, reqs, p.where, p.avail);
    var id :| id in first;
    var k :| 0 <= k < |p.queue| && p.queue[k].id == id && FitsSome(p.queue[k].spec.resources, sizes);
    var a :| a in sizes && Fits(reqs[k], a);
    var i :| 0 <= i < |snapshot| && snapshot[i] == a;
    assert Placeable(snapshot, reqs[k]);
    var j := PassMakesProgress(snapshot, reqs, p.where, k);
    var i': nat :| i' < |snapshot| && Fits(reqs[j], snapshot[i']);
    assert snapshot[i'] in sizes;
    taken := p.queue[j].id;
  }

  /** The mark for the next state: what is waiting when a pass begins or has ended, and the same as before in
      all other steps. */
  ghost function NextMark(s: State, a: Action, sizes: set<Resources>, first: set<JobId>): set<JobId> {
    if a.PickQueue? || a.EndPass? then Waiting(s.jobs, sizes) else first
  }

  lemma StepKeepsMark(s: State, a: Action, sizes: set<Resources>, first: set<JobId>)
    requires Invariant(s) && Enabled(s, a) && SteadyStep(a, sizes) && Marked(s, sizes, first)
    ensures Marked(Next(s, a), sizes, NextMark(s, a, sizes, first))
    ensures NextMark(s, a, sizes, first) <= first
    ensures a.EndPass? && first != {} ==> NextMark(s, a, sizes, first) != first
  {
    WaitingShrinks(s, a, sizes);
    if a.PickQueue? {
      PickMarks(s, a.queue, sizes);
    } else if a.EndPass? && first != {} {
      var taken := PassTakesOne(s, sizes, first);
      assert taken !in Waiting(s.jobs, sizes);
    }
  }

  lemma StepCounts(c: Cluster, s: State, a: Action, sizes: set<Resources>, first: set<JobId>)
    requires Reachable(c, s) && Enabled(s, a) && SteadyStep(a, sizes) && Marked(s, sizes, first)
    ensures Reachable(c, Next(s, a)) && Marked(Next(s, a), sizes, NextMark(s, a, sizes, first))
    ensures |NextMark(s, a, sizes, first)| <= Max(0, |first| - if a.EndPass? then 1 else 0)
  {
    ReachableInvariant(c, s);
    ReachableStep(c, s, a);
    StepKeepsMark(s, a, sizes, first);
    Smaller(NextMark(s, a, sizes, first), first);
  }

  lemma {:induction false} DrainsFrom(c: Cluster, s: State, acts: seq<Action>, sizes: set<Resources>, first: set<JobId>)
    requires Reachable(c, s) && IsRun(s, acts) && Steady(acts, sizes) && Marked(s, sizes, first)
    ensures |Waiting(After(s, acts).jobs, sizes)| <= Max(0, |first| - PassesEnded(acts))
    decreases acts
  {
    if acts == [] {
      Smaller(Waiting(s.jobs, sizes), first);
    } else {
      RestIsSteady(s, acts, sizes);
      StepCounts(c, s, acts[0], sizes, first);
      DrainsFrom(c, Next(s, acts[0]), acts[1..], sizes, NextMark(s, acts[0], sizes, first));
    }
  }

  lemma RestIsSteady(s: State, acts: seq<Action>, sizes: set<Resources>)
    requires acts != [] && IsRun(s, acts) && Steady(acts, sizes)
    ensures Enabled(s, acts[0]) && IsRun(Next(s, acts[0]), acts[1..])
    ensures After(s, acts) == After(Next(s, acts[0]), acts[1..])
    ensures SteadyStep(acts[0], sizes) && Steady(acts[1..], sizes)
    ensures PassesEnded(acts) == (if acts[0].EndPass? then 1 else 0) + PassesEnded(acts[1..])
  {
    assert forall k :: 0 <= k < |acts| - 1 ==> acts[1..][k] == acts[k + 1];
  }

  /** From any idle moment on, and whatever is cancelled, launched or reported in the meantime, also in the
      middle of a pass: after `n` passes at most `m - n` are still queued of the `m` jobs that fit some node. */
  lemma BoundedDrain(c: Cluster, s: State, acts: seq<Action>, sizes: set<Resources>)
    requires Reachable(c, s) && s.sched.Idle? && IsRun(s, acts) && Steady(acts, sizes)
    ensures |Waiting(After(s, acts).jobs, sizes)| <= Max(0, |Waiting(s.jobs, sizes)| - PassesEnded(acts))
  {
    DrainsFrom(c, s, acts, sizes, Waiting(s.jobs, sizes));
  }

  lemma Smaller(a: set<JobId>, b: set<JobId>)
    requires a <= b
    ensures |a| <= |b|
    ensures a != b ==> |a| < |b|
  {
    assert b == a + (b - a);
  }
}
