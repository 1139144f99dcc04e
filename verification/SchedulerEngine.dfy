/** One scheduling pass, start to finish, on the managers it works with. */
module Scheduling {
  import opened Common
  import opened ResourceSpecs
  import opened JobTable
  import opened NodeTable
  import opened FairShare
  import opened SchedulingOrder
  import opened FirstFit
  import JobManagers
  import NodeRegistries

  function Requests(order: seq<JobInfo>): (r: seq<Resources>)
    ensures |r| == |order|
  {
    seq(|order|, k requires 0 <= k < |order| => order[k].spec.resources)
  }

  function Availabilities(nodes: seq<NodeInfo>): (r: seq<Resources>)
    ensures |r| == |nodes|
  {
    seq(|nodes|, i requires 0 <= i < |nodes| => nodes[i].available)
  }

  function Ids(nodes: seq<NodeInfo>): (r: seq<NodeId>)
    ensures |r| == |nodes|
  {
    seq(|nodes|, i requires 0 <= i < |nodes| => nodes[i].id)
  }

  /** Effective priority and age of a queued job. */
  function RankOf(log: Log1p, usage: Usage, job: JobInfo): Key {
    Key(job.spec.priority as real * Factor(log, UsageOf(usage, job.user)), job.submittedAt)
  }

  /** `online` is exactly the online part of the registry, each node once. */
  ghost predicate OnlineNodes(nodes: Nodes, online: seq<NodeInfo>) {
    && (forall k :: 0 <= k < |online| ==>
      online[k].id in nodes && nodes[online[k].id] == online[k] && online[k].status == Online)
    && (forall id :: id in nodes && nodes[id].status == Online ==> nodes[id] in online)
    && (forall i, j :: 0 <= i < j < |online| ==> online[i].id != online[j].id)
  }

  /** `after` is `before` with the first `|where|` jobs of `order` assigned as `where` says, and nothing else
      changed. */
  ghost predicate PassWrites(before: Table, after: Table, order: seq<JobInfo>, online: seq<NodeInfo>, where: seq<nat>)
    requires |where| <= |order|
  {
    && after.Keys == before.Keys
    && (forall k :: 0 <= k < |where| && order[k].id in before ==>
          after[order[k].id] ==
            if where[k] < |online| then before[order[k].id].(status := Assigned, node := online[where[k]].id)
            else before[order[k].id])
    && (forall id :: id in before && (forall k :: 0 <= k < |where| ==> order[k].id != id) ==> after[id] == before[id])
  }

  class SchedulerEngine {
    const jobMgr: JobManagers.JobManager
    const registry: NodeRegistries.NodeRegistry
    const fairShare: FairShareManager

    constructor (jobMgr: JobManagers.JobManager, registry: NodeRegistries.NodeRegistry, fairShare: FairShareManager)
      ensures this.jobMgr == jobMgr && this.registry == registry && this.fairShare == fairShare
    {
      this.jobMgr := jobMgr;
      this.registry := registry;
      this.fairShare := fairShare;
    }

    /** The ghost results name the order in which the queue was tried, the online nodes and the placement. */
    method SchedulePass(log: Log1p, now: int)
      returns (ghost order: seq<JobInfo>, ghost online: seq<NodeInfo>, ghost where: seq<nat>)
      requires jobMgr.Valid() && registry.Valid() && fairShare.Valid()
      modifies jobMgr, fairShare
      ensures jobMgr.Valid()
      ensures IsListing(old(jobMgr.jobs), Queued, order)
      ensures fairShare.Books() ==
              if order == [] then old(fairShare.Books()) else DecayTo(fairShare.rate, old(fairShare.Books()), now)
      ensures var usage := old(DecayTo(fairShare.rate, fairShare.Books(), now)).usage;
              var rank := (job: JobInfo) => RankOf(log, usage, job);
              StrictWeakOrder(Keys(order, rank)) ==> InOrder(order, rank)
      ensures order != [] ==> OnlineNodes(registry.nodes, online)
      ensures order == [] || online == [] ==> jobMgr.jobs == old(jobMgr.jobs)
      ensures order != [] && online != [] ==>
              && IsFirstFit(Availabilities(online), Requests(order), where)
              && PassWrites(old(jobMgr.jobs), jobMgr.jobs, order, online, where)
    {
      order, online, where := [], [], [];
      var pending := jobMgr.GetPendingJobs();
      if |pending| == 0 {
        return;
      }
      fairShare.ApplyDecay(now);
      var usage := fairShare.usage;
      var rank := (job: JobInfo) => RankOf(log, usage, job);
      var queue := SortQueue(pending, rank);
      ListingInAnyOrder(jobMgr.jobs, Queued, pending, queue);
      SameKeys(pending, queue, rank);
      order := queue;
      assert |queue| > 0 by {
        assert pending[0] in multiset(pending);
        assert pending[0] in multiset(queue);
      }
      var nodes := GetOnlineNodes();
      online := nodes;
      if |nodes| == 0 {
        return;
      }
      where := PlaceAll(queue, nodes, now);
    }

    lemma SameKeys(pending: seq<JobInfo>, queue: seq<JobInfo>, rank: JobInfo -> Key)
      requires multiset(pending) == multiset(queue)
      ensures Keys(pending, rank) == Keys(queue, rank)
    {
      forall x: JobInfo ensures x in pending <==> x in queue {
        assert x in multiset(pending) <==> x in multiset(queue);
      }
    }

    method GetOnlineNodes() returns (online: seq<NodeInfo>)
      requires registry.Valid()
      ensures OnlineNodes(registry.nodes, online)
    {
      var nodes := registry.GetAllNodes();
      online := [];
      for k := 0 to |nodes|
        invariant forall i :: 0 <= i < |online| ==>
                  online[i].status == Online && online[i] in nodes[..k]
        invariant forall i :: 0 <= i < k && nodes[i].status == Online ==> nodes[i] in online
        invariant forall i, j :: 0 <= i < j < |online| ==> online[i].id != online[j].id
      {
        if nodes[k].status == Online {
          online := online + [nodes[k]];
        }
      }
    }

    /** The loop over the queue. */
    method PlaceAll(queue: seq<JobInfo>, nodes: seq<NodeInfo>, now: int) returns (ghost where: seq<nat>)
      requires jobMgr.Valid() && registry.Valid() && OnlineNodes(registry.nodes, nodes)
      requires IsListing(jobMgr.jobs, Queued, queue)
      modifies jobMgr
      ensures jobMgr.Valid()
      ensures IsFirstFit(Availabilities(nodes), Requests(queue), where)
      ensures PassWrites(old(jobMgr.jobs), jobMgr.jobs, queue, nodes, where)
    {
      where := [];
      var online := nodes;
      ghost var snapshot, reqs := Availabilities(nodes), Requests(queue);
      PassStarts(snapshot, reqs);
      for k := 0 to |queue|
        invariant jobMgr.Valid()
        invariant |where| == k && SameIds(online, nodes)
        invariant PassSoFar(snapshot, reqs, where, Availabilities(online))
        invariant PassWrites(old(jobMgr.jobs), jobMgr.jobs, queue, nodes, where)
      {
        PlaceNext(snapshot, reqs, where, Availabilities(online));
        ghost var table := jobMgr.jobs;
        var at: nat;
        at, online := PlaceJob(queue[k], online, now);
        assert at < |nodes| ==> nodes[at].id in registry.nodes;
        OneMoreWrite(old(jobMgr.jobs), table, jobMgr.jobs, queue, nodes, where, at, now);
        where := where + [at];
      }
      PassEnds(snapshot, reqs, where, Availabilities(online));
    }

    /** The loop over the nodes: the job goes to the first one with room, and the request is deducted from
        the local copy of that node. */
    method PlaceJob(job: JobInfo, online: seq<NodeInfo>, now: int) returns (at: nat, left: seq<NodeInfo>)
      requires jobMgr.Valid()
      modifies jobMgr
      ensures jobMgr.Valid()
      ensures at == FitIndex(Availabilities(online), job.spec.resources)
      ensures SameIds(left, online)
      ensures Availabilities(left) == Deduct(Availabilities(online), at, job.spec.resources)
      ensures jobMgr.jobs ==
        if at < |online| then UpdateStatus(old(jobMgr.jobs), job.id, Assigned, online[at].id, now) else old(jobMgr.jobs)
    {
      var req := job.spec.resources;
      left := online;
      for i := 0 to |online|
        invariant left == online && jobMgr.jobs == old(jobMgr.jobs)
        invariant forall j: nat :: j < i ==> !Fits(req, Availabilities(online)[j])
      {
        var avail := left[i].available;
        if req.cpu <= avail.cpu && req.ram <= avail.ram && req.gpu <= avail.gpu {
          var _ := jobMgr.UpdateJobStatus(job.id, Assigned, left[i].id, now);
          left := left[i := left[i].(available := WrapMinus(avail, req))];
          assert Fits(req, Availabilities(online)[i]);
          assert i == FitIndex(Availabilities(online), req);
          return i, left;
        }
      }
      at := |online|;
    }
  }

  ghost predicate SameIds(a: seq<NodeInfo>, b: seq<NodeInfo>) {
    |a| == |b| && forall i :: 0 <= i < |a| ==> a[i].id == b[i].id
  }

  lemma OneMoreWrite(before: Table, mid: Table, after: Table, order: seq<JobInfo>, online: seq<NodeInfo>,
      where: seq<nat>, at: nat, now: int)
    requires |where| < |order| && PassWrites(before, mid, order, online, where) && at <= |online|
    requires order[|where|].id in before
    requires forall i, j :: 0 <= i < j < |order| ==> order[i].id != order[j].id
    requires at < |online| ==> online[at].id != ""
    requires after == if at < |online| then UpdateStatus(mid, order[|where|].id, Assigned, online[at].id, now) else mid
    ensures PassWrites(before, after, order, online, where + [at])
  {
  }

  /** As long as no usage has been booked for the users in the queue, the comparator is a strict weak order on
      it, and a queue in that order goes by priority and then by age. */
  lemma WithoutUsagePriorityThenAge(log: Log1p, usage: Usage, order: seq<JobInfo>)
    requires forall job :: job in order ==> UsageOf(usage, job.user) <= 0.0
    ensures var rank := (job: JobInfo) => RankOf(log, usage, job);
            && StrictWeakOrder(Keys(order, rank))
            && (InOrder(order, rank) <==> forall i, j :: 0 <= i < j < |order| ==>
                  || order[i].spec.priority > order[j].spec.priority
                  || (order[i].spec.priority == order[j].spec.priority && order[i].submittedAt <= order[j].submittedAt))
  {
    var rank := (job: JobInfo) => RankOf(log, usage, job);
    forall job | job in order ensures rank(job).prio == job.spec.priority as real {
      FactorInUnit(log, UsageOf(usage, job.user));
    }
    forall a | a in Keys(order, rank) ensures a.prio == a.prio.Floor as real {
      var job :| job in order && rank(job) == a;
    }
    WholeMeansSeparated(Keys(order, rank));
    SeparatedMeansOrdered(Keys(order, rank));
    forall i, j | 0 <= i < j < |order|
      ensures !Before(rank(order[j]), rank(order[i])) <==>
              || order[i].spec.priority > order[j].spec.priority
              || (order[i].spec.priority == order[j].spec.priority && order[i].submittedAt <= order[j].submittedAt)
    {
      assert order[i] in order && order[j] in order;
      assert rank(order[i]) in Keys(order, rank) && rank(order[j]) in Keys(order, rank);
    }
  }

  /** The effective priority of a job: its own while its user has used nothing, and otherwise what times
      `1 + log1p(hours used)` makes its own. */
  lemma RankClosedForm(log: Log1p, usage: Usage, job: JobInfo)
    ensures RankOf(log, usage, job).submitted == job.submittedAt
    ensures var used, prio := UsageOf(usage, job.user), RankOf(log, usage, job).prio;
            && (used <= 0.0 ==> prio == job.spec.priority as real)
            && (used > 0.0 ==> prio * (1.0 + log(used / 3600.0)) == job.spec.priority as real)
  {
    var used := UsageOf(usage, job.user);
    if used > 0.0 {
      FactorPerHour(log, used / 3600.0);
      Cancels(job.spec.priority as real, Factor(log, used), 1.0 + log(used / 3600.0));
    }
  }

  lemma Cancels(p: real, f: real, g: real)
    requires f * g == 1.0
    ensures (p * f) * g == p
  {
    assert (p * f) * g == p * (f * g);
  }

  /** Of two jobs of equal priority, that of the user with more usage ranks strictly lower exactly if the priority
      is positive; below zero the penalty turns into a reward. */
  lemma HeavierUserRanksLowerIff(log: Log1p, usage: Usage, a: JobInfo, b: JobInfo)
    requires a.spec.priority == b.spec.priority
    requires UsageOf(usage, a.user) > UsageOf(usage, b.user) && UsageOf(usage, a.user) > 0.0
    ensures RankOf(log, usage, a).prio < RankOf(log, usage, b).prio <==> a.spec.priority > 0
    ensures RankOf(log, usage, a).prio > RankOf(log, usage, b).prio <==> a.spec.priority < 0
    ensures a.spec.priority > 0 ==>
              0.0 < RankOf(log, usage, a).prio < RankOf(log, usage, b).prio <= a.spec.priority as real
  {
    var f, g := Factor(log, UsageOf(usage, a.user)), Factor(log, UsageOf(usage, b.user));
    FactorReversesUsage(log, UsageOf(usage, a.user), UsageOf(usage, b.user));
    FactorInUnit(log, UsageOf(usage, a.user));
    FactorInUnit(log, UsageOf(usage, b.user));
    ProductFollows(a.spec.priority as real, f, g);
  }

  lemma ProductFollows(p: real, f: real, g: real)
    requires 0.0 < f < g <= 1.0
    ensures p * f < p * g <==> p > 0.0
    ensures p * f > p * g <==> p < 0.0
    ensures p > 0.0 ==> 0.0 < p * f && p * g <= p
  {
    assert p * g - p * f == p * (g - f);
    assert p - p * g == p * (1.0 - g);
    if p > 0.0 {
      assert p * (g - f) > 0.0 && p * f > 0.0 && p * (1.0 - g) >= 0.0;
    } else if p < 0.0 {
      assert p * (g - f) < 0.0;
    }
  }

  /** In the order in which a pass tries an ordered queue, a job stands before another only if its effective
      priority is at most a tenth lower, and within a tenth only if it is not younger. So no job of a heavier user
      stands before one of equal positive priority of a lighter user, unless they are that close. */
  lemma HeavierUserWaits(log: Log1p, usage: Usage, order: seq<JobInfo>, i: nat, j: nat)
    requires InOrder(order, (job: JobInfo) => RankOf(log, usage, job)) && i < j < |order|
    ensures var p, q := RankOf(log, usage, order[i]).prio, RankOf(log, usage, order[j]).prio;
            && q <= p + 0.1
            && (p <= q + 0.1 ==> order[i].submittedAt <= order[j].submittedAt)
            && (order[i].spec.priority == order[j].spec.priority > 0
                && UsageOf(usage, order[i].user) > UsageOf(usage, order[j].user)
                && UsageOf(usage, order[i].user) > 0.0
                ==> p < q <= p + 0.1 && order[i].submittedAt <= order[j].submittedAt)
  {
    var rank := (job: JobInfo) => RankOf(log, usage, job);
    assert !Before(rank(order[j]), rank(order[i]));
    if order[i].spec.priority == order[j].spec.priority > 0
       && UsageOf(usage, order[i].user) > UsageOf(usage, order[j].user) && UsageOf(usage, order[i].user) > 0.0 {
      HeavierUserRanksLowerIff(log, usage, order[i], order[j]);
    }
  }

  /** Two jobs on their own are always tried in that order, since two keys never drift. */
  lemma TwoJobsAreInOrder(log: Log1p, usage: Usage, order: seq<JobInfo>)
    requires |order| == 2
    ensures StrictWeakOrder(Keys(order, (job: JobInfo) => RankOf(log, usage, job)))
  {
    var rank := (job: JobInfo) => RankOf(log, usage, job);
    TwoKeys(order, rank);
    AlwaysAsymmetric(rank(order[0]), rank(order[1]));
  }

  lemma TwoKeys<T(!new)>(s: seq<T>, key: T -> Key)
    requires |s| == 2
    ensures Keys(s, key) == iset{key(s[0]), key(s[1])}
  {
  }

  /** Which nodes a pass works with: exactly those that are online, each once. */
  lemma OnlineNodesAreAll(nodes: Nodes, online: seq<NodeInfo>)
    requires NodeIdentity(nodes) && OnlineNodes(nodes, online)
    ensures NoDuplicates(Ids(online))
    ensures forall k :: 0 <= k < |online| ==> online[k].id in nodes && online[k] == nodes[online[k].id]
    ensures forall id :: id in nodes && nodes[id].status == Online <==> id in Ids(online)
  {
    forall id | id in nodes && nodes[id].status == Online ensures id in Ids(online) {
      assert nodes[id] in online;
      var k :| 0 <= k < |online| && online[k] == nodes[id];
      assert Ids(online)[k] == id;
    }
    forall id | id in Ids(online) ensures id in nodes && nodes[id].status == Online {
      var k :| 0 <= k < |online| && Ids(online)[k] == id;
    }
  }

  /** A machine that has just registered takes part in the next pass, with all it has registered. */
  lemma RegisteredNodeIsUsed(nodes: Nodes, info: NodeInfo, newId: NodeId, now: int, online: seq<NodeInfo>)
    requires NodeIdentity(nodes) && newId !in nodes && newId != ""
    requires OnlineNodes(Register(nodes, info, newId, now), online)
    ensures exists k :: 0 <= k < |online| && online[k].id == RegisteredAs(nodes, info, newId)
                        && Availabilities(online)[k] == info.total
  {
    RegistrationIsExact(nodes, info, newId, now);
    var id := RegisteredAs(nodes, info, newId);
    assert Register(nodes, info, newId, now)[id] in online;
  }

  /** What a pass promises about the job table, in terms of requests and availabilities alone: the jobs it has
      put on a node together fit what the node reported, and a job it left queued fits no node's remainder. */
  lemma PassNeverOvercommits(before: Table, after: Table, order: seq<JobInfo>, online: seq<NodeInfo>, where: seq<nat>)
    requires IsListing(before, Queued, order)
    requires IsFirstFit(Availabilities(online), Requests(order), where)
    requires PassWrites(before, after, order, online, where)
    ensures forall i: nat :: i < |online| ==> Fits(Load(Requests(order), where, i, |order|), online[i].available)
    ensures forall k, i: nat :: 0 <= k < |order| && i < |online| && after[order[k].id].status == Queued ==>
              !Fits(order[k].spec.resources, Left(Availabilities(online), Requests(order), where, i, |order|))
    ensures forall id :: id in before && after[id] != before[id] ==>
            before[id].status == Queued && after[id].status == Assigned
  {
    var snapshot, reqs := Availabilities(online), Requests(order);
    forall i: nat | i < |online| ensures Fits(Load(reqs, where, i, |order|), online[i].available) {
      NeverOvercommitted(snapshot, reqs, where, i, |order|);
    }
    forall k: nat, i: nat | k < |order| && i < |online| && after[order[k].id].status == Queued
      ensures !Fits(order[k].spec.resources, Left(snapshot, reqs, where, i, |order|))
    {
      assert PlacedFirst(snapshot, reqs, where, k);
      PassIsMaximal(snapshot, reqs, where, k, i);
    }
  }
}
