/** Per-node capacities with machine arithmetic. */
module ResourceManagement {
  import opened Common
  import opened ResourceSpecs

  datatype Capacity = Capacity(total: Resources, inUse: Resources)

  /** Unsigned difference, as the code computes it: it wraps when more is allocated than there is. */
  function Available(c: Capacity): Resources {
    WrapMinus(c.total, c.inUse)
  }

  predicate Accepts(c: Capacity, req: Resources) {
    Fits(req, Available(c))
  }

  function Grant(c: Capacity, req: Resources): Capacity {
    if Accepts(c, req) then c.(inUse := WrapPlus(c.inUse, req)) else c
  }

  function Lower(x: int, y: int): int {
    if x > y then x - y else 0
  }

  function Return(c: Capacity, req: Resources): Capacity {
    c.(inUse := Amount(Lower(c.inUse.cpu, req.cpu), Lower(c.inUse.ram, req.ram), Lower(c.inUse.gpu, req.gpu)))
  }

  predicate Sound(c: Capacity) {
    Fits(c.inUse, c.total)
  }

  /** The wrapped acceptance test means "the sum still fits" for every request exactly when the node is not
      already overallocated. */
  lemma TestIsRightIffSound(c: Capacity)
    ensures Sound(c) <==> forall req: Resources :: Accepts(c, req) <==> Fits(Plus(c.inUse, req), c.total)
  {
    if Sound(c) {
      WrapMinusExact(c.total, c.inUse);
    } else {
      assert Accepts(c, NOTHING) && !Fits(Plus(c.inUse, NOTHING), c.total);
    }
  }

  /** Returning what was just granted restores the books exactly when the grant did not wrap around. */
  lemma ReturnUndoesGrantIffNoWrap(c: Capacity, req: Resources)
    requires Accepts(c, req)
    ensures Return(Grant(c, req), req) == c <==> InRange(Plus(c.inUse, req))
    ensures Sound(c) ==> Return(Grant(c, req), req) == c
  {
    WrapOnce(c.inUse.cpu, req.cpu, TWO_32);
    WrapOnce(c.inUse.ram, req.ram, TWO_64);
    WrapOnce(c.inUse.gpu, req.gpu, TWO_32);
    if Sound(c) {
      WrapMinusExact(c.total, c.inUse);
    }
  }

  /** An unsigned sum wraps at most once, and lowering it again finds its way back unless it did. */
  lemma WrapOnce(x: int, y: int, m: int)
    requires 0 <= x < m && 0 <= y < m
    ensures (x + y) % m == if x + y < m then x + y else x + y - m
    ensures Lower((x + y) % m, y) == x <==> x + y < m
  {
    if x + y >= m {
      RemainderOnce(x + y, m);
    }
  }

  lemma RemainderOnce(z: int, m: int)
    requires 0 < m <= z < m + m
    ensures z % m == z - m
  {
    assert z / m == 1;
  }

  // ---- Runs on one node ---------------------------------------------------------------------------

  /** A node's capacity together with the grants that have not been returned. */
  datatype Account = Account(cap: Capacity, grants: seq<Resources>)

  datatype Request = SetTotal(total: Resources) | Allocate(req: Resources) | Release(i: nat)

  /** Callers return what they were granted, and do not shrink a node below what is allocated on it. */
  predicate Allowed(a: Account, r: Request) {
    match r
    case SetTotal(total) => Fits(a.cap.inUse, total)
    case Allocate(_) => true
    case Release(i) => i < |a.grants|
  }

  function Serve(a: Account, r: Request): Account
    requires Allowed(a, r)
  {
    match r
    case SetTotal(total) => a.(cap := a.cap.(total := total))
    case Allocate(req) => if Accepts(a.cap, req) then Account(Grant(a.cap, req), a.grants + [req]) else a
    case Release(i) => Account(Return(a.cap, a.grants[i]), a.grants[..i] + a.grants[i + 1..])
  }

  ghost predicate AllowedRun(a: Account, rs: seq<Request>)
    decreases rs
  {
    rs == [] || (Allowed(a, rs[0]) && AllowedRun(Serve(a, rs[0]), rs[1..]))
  }

  function ServeAll(a: Account, rs: seq<Request>): Account
    requires AllowedRun(a, rs)
    decreases rs
  {
    if rs == [] then a else ServeAll(Serve(a, rs[0]), rs[1..])
  }

  ghost function Sum(grants: seq<Resources>): Amount {
    if grants == [] then NOTHING else Plus(Sum(grants[..|grants| - 1]), grants[|grants| - 1])
  }

  /** The books say exactly what is out, as an integer, and it is no more than the node has. */
  ghost predicate Balanced(a: Account) {
    a.cap.inUse == Sum(a.grants) && Sound(a.cap)
  }

  lemma {:induction false} SumWithout(grants: seq<Resources>, i: nat)
    requires i < |grants|
    ensures Sum(grants) == Plus(Sum(grants[..i] + grants[i + 1..]), grants[i])
    ensures Fits(NOTHING, Sum(grants[..i] + grants[i + 1..]))
    decreases |grants|
  {
    var n := |grants| - 1;
    var rest := grants[..i] + grants[i + 1..];
    if i == n {
      assert rest == grants[..n];
      SumIsNatural(rest);
    } else {
      var front := grants[..n];
      SumWithout(front, i);
      SumOfAppended(front[..i] + front[i + 1..], grants[n]);
      assert rest == (front[..i] + front[i + 1..]) + [grants[n]];
    }
  }

  lemma SumOfAppended(grants: seq<Resources>, req: Resources)
    ensures Sum(grants + [req]) == Plus(Sum(grants), req)
  {
    assert (grants + [req])[..|grants|] == grants;
  }

  lemma {:induction false} SumIsNatural(grants: seq<Resources>)
    ensures Fits(NOTHING, Sum(grants))
  {
    if grants != [] {
      SumIsNatural(grants[..|grants| - 1]);
    }
  }

  lemma RequestKeepsBalance(a: Account, r: Request)
    requires Balanced(a) && Allowed(a, r)
    ensures Balanced(Serve(a, r))
  {
    match r
    case SetTotal(total) =>
    case Allocate(req) =>
      if Accepts(a.cap, req) {
        GrantAdds(a.cap, req);
        SumOfAppended(a.grants, req);
      }
    case Release(i) =>
      SumWithout(a.grants, i);
  }

  /** On a sound node a grant adds without wrapping. */
  lemma GrantAdds(c: Capacity, req: Resources)
    requires Sound(c) && Accepts(c, req)
    ensures Grant(c, req).inUse == Plus(c.inUse, req) && Sound(Grant(c, req))
  {
    WrapMinusExact(c.total, c.inUse);
    WrapOnce(c.inUse.cpu, req.cpu, TWO_32);
    WrapOnce(c.inUse.ram, req.ram, TWO_64);
    WrapOnce(c.inUse.gpu, req.gpu, TWO_32);
  }

  /** Conservation over every run of allocations, returns and capacity changes. */
  lemma {:induction false} RunKeepsBalance(a: Account, rs: seq<Request>)
    requires Balanced(a) && AllowedRun(a, rs)
    ensures Balanced(ServeAll(a, rs))
    decreases rs
  {
    if rs != [] {
      RequestKeepsBalance(a, rs[0]);
      RunKeepsBalance(Serve(a, rs[0]), rs[1..]);
    }
  }

  // ---- The manager --------------------------------------------------------------------------------

  type Capacities = map<NodeId, Capacity>

  class ResourceManager {
    var capacities: Capacities

    constructor ()
      ensures capacities == map[]
    {
      capacities := map[];
    }

    method SetNodeCapacity(node: NodeId, total: Resources)
      modifies this
      ensures capacities == old(capacities)[node :=
        Capacity(total, if node in old(capacities) then old(capacities)[node].inUse else NOTHING)]
    {
      if node !in capacities {
        capacities := capacities[node := Capacity(NOTHING, NOTHING)];
      }
      capacities := capacities[node := capacities[node].(total := total)];
    }

    method AllocateOn(node: NodeId, req: Resources) returns (ok: bool)
      modifies this
      ensures ok == (node in old(capacities) && Accepts(old(capacities)[node], req))
      ensures capacities ==
              if node !in old(capacities) then old(capacities)
              else old(capacities)[node := Grant(old(capacities)[node], req)]
    {
      if node !in capacities {
        return false;
      }
      var cap := capacities[node];
      var avail := WrapMinus(cap.total, cap.inUse);
      if req.cpu <= avail.cpu && req.ram <= avail.ram && req.gpu <= avail.gpu {
        capacities := capacities[node := cap.(inUse := WrapPlus(cap.inUse, req))];
        return true;
      }
      return false;
    }

    method Deallocate(node: NodeId, req: Resources)
      modifies this
      ensures capacities ==
              if node !in old(capacities) then old(capacities)
              else old(capacities)[node := Return(old(capacities)[node], req)]
    {
      if node !in capacities {
        return;
      }
      var cap := capacities[node];
      var cpu := if cap.inUse.cpu > req.cpu then cap.inUse.cpu - req.cpu else 0;
      var ram := if cap.inUse.ram > req.ram then cap.inUse.ram - req.ram else 0;
      var gpu := if cap.inUse.gpu > req.gpu then cap.inUse.gpu - req.gpu else 0;
      capacities := capacities[node := cap.(inUse := Amount(cpu, ram, gpu))];
    }

    method GetAvailable(node: NodeId) returns (avail: Resources)
      ensures avail == if node in capacities then Available(capacities[node]) else NOTHING
    {
      avail := NOTHING;
      if node in capacities {
        var cap := capacities[node];
        avail := WrapMinus(cap.total, cap.inUse);
      }
    }

    method CanAccommodate(node: NodeId, req: Resources) returns (ok: bool)
      ensures ok == (node in capacities && Accepts(capacities[node], req))
    {
      if node !in capacities {
        return false;
      }
      var cap := capacities[node];
      var avail := WrapMinus(cap.total, cap.inUse);
      return req.cpu <= avail.cpu && req.ram <= avail.ram && req.gpu <= avail.gpu;
    }
  }
}

/** The pass, which keeps its own residuals, and the resource manager, which keeps capacities, decide alike. */
module PassReplay {
  import opened Common
  import opened ResourceSpecs
  import opened FirstFit
  import opened ResourceManagement

  /** First node, in pass order, that the resource manager says can take the request. */
  function Accommodating(caps: Capacities, ids: seq<NodeId>, req: Resources): (i: nat)
    ensures i <= |ids|
    ensures i < |ids| ==> ids[i] in caps && Accepts(caps[ids[i]], req)
    ensures forall j: nat :: j < i ==> !(ids[j] in caps && Accepts(caps[ids[j]], req))
  {
    if ids == [] || (ids[0] in caps && Accepts(caps[ids[0]], req)) then 0
    else 1 + Accommodating(caps, ids[1..], req)
  }

  /** Capacities after the first `k` jobs have each been allocated on the first node that can take them. */
  function Replay(caps: Capacities, ids: seq<NodeId>, reqs: seq<Resources>, k: nat): Capacities
    requires k <= |reqs|
  {
    if k == 0 then caps else ReplayOne(Replay(caps, ids, reqs, k - 1), ids, reqs[k - 1])
  }

  function ReplayOne(now: Capacities, ids: seq<NodeId>, req: Resources): Capacities {
    var i := Accommodating(now, ids, req);
    if i < |ids| then now[ids[i] := Grant(now[ids[i]], req)] else now
  }

  ghost predicate Mirrors(caps: Capacities, ids: seq<NodeId>, snapshot: seq<Resources>) {
    && NoDuplicates(ids) && |ids| == |snapshot|
    && (forall i :: 0 <= i < |ids| ==> ids[i] in caps && Sound(caps[ids[i]]) && Available(caps[ids[i]]) == snapshot[i])
  }

  /** The capacities account for exactly what the pass has left after `k` jobs. */
  ghost predicate Agrees(now: Capacities, ids: seq<NodeId>, snapshot: seq<Resources>, reqs: seq<Resources>,
      where: seq<nat>, k: nat)
    requires |ids| == |snapshot| && k <= |where| <= |reqs|
  {
    forall i: nat :: i < |ids| ==>
      ids[i] in now && Sound(now[ids[i]]) && Available(now[ids[i]]) == Left(snapshot, reqs, where, i, k)
  }

  /** Starting from capacities that agree with the snapshot, the replay picks the same node for every job and
      reports, after every job, exactly what the pass has left. */
  lemma ReplayAgrees(caps: Capacities, ids: seq<NodeId>, snapshot: seq<Resources>, reqs: seq<Resources>,
      where: seq<nat>)
    requires Mirrors(caps, ids, snapshot) && IsFirstFit(snapshot, reqs, where)
    ensures forall k: nat :: k <= |reqs| ==> Agrees(Replay(caps, ids, reqs, k), ids, snapshot, reqs, where, k)
    ensures forall k: nat :: k < |reqs| ==> Accommodating(Replay(caps, ids, reqs, k), ids, reqs[k]) == where[k]
  {
    MirrorsAgree(caps, ids, snapshot, reqs, where);
    forall k: nat | k <= |reqs| ensures Agrees(Replay(caps, ids, reqs, k), ids, snapshot, reqs, where, k) {
      ReplayTracks(caps, ids, snapshot, reqs, where, k);
    }
    forall k: nat | k < |reqs| ensures Accommodating(Replay(caps, ids, reqs, k), ids, reqs[k]) == where[k] {
      SameChoice(Replay(caps, ids, reqs, k), ids, snapshot, reqs, where, k);
    }
  }

  lemma {:induction false} ReplayTracks(caps: Capacities, ids: seq<NodeId>, snapshot: seq<Resources>,
      reqs: seq<Resources>, where: seq<nat>, k: nat)
    requires NoDuplicates(ids) && |ids| == |snapshot| && IsFirstFit(snapshot, reqs, where) && k <= |reqs|
    requires Agrees(caps, ids, snapshot, reqs, where, 0)
    ensures Agrees(Replay(caps, ids, reqs, k), ids, snapshot, reqs, where, k)
  {
    if k > 0 {
      ReplayTracks(caps, ids, snapshot, reqs, where, k - 1);
      OneMoreReplayed(Replay(caps, ids, reqs, k - 1), ids, snapshot, reqs, where, k);
    }
  }

  lemma MirrorsAgree(caps: Capacities, ids: seq<NodeId>, snapshot: seq<Resources>, reqs: seq<Resources>,
      where: seq<nat>)
    requires Mirrors(caps, ids, snapshot) && |where| == |reqs|
    ensures Agrees(caps, ids, snapshot, reqs, where, 0)
  {
  }

  lemma OneMoreReplayed(now: Capacities, ids: seq<NodeId>, snapshot: seq<Resources>, reqs: seq<Resources>,
      where: seq<nat>, k: nat)
    requires NoDuplicates(ids) && |ids| == |snapshot| && IsFirstFit(snapshot, reqs, where) && 0 < k <= |reqs|
    requires Agrees(now, ids, snapshot, reqs, where, k - 1)
    ensures Agrees(ReplayOne(now, ids, reqs[k - 1]), ids, snapshot, reqs, where, k)
  {
    SameChoice(now, ids, snapshot, reqs, where, k - 1);
    SameResidual(now, ids, snapshot, reqs, where, k - 1);
  }

  lemma SameChoice(now: Capacities, ids: seq<NodeId>, snapshot: seq<Resources>, reqs: seq<Resources>, where: seq<nat>,
      k: nat)
    requires |ids| == |snapshot| && IsFirstFit(snapshot, reqs, where) && k < |reqs|
    requires Agrees(now, ids, snapshot, reqs, where, k)
    ensures Accommodating(now, ids, reqs[k]) == where[k]
  {
    assert PlacedFirst(snapshot, reqs, where, k);
  }

  lemma SameResidual(now: Capacities, ids: seq<NodeId>, snapshot: seq<Resources>, reqs: seq<Resources>,
      where: seq<nat>, k: nat)
    requires NoDuplicates(ids) && |ids| == |snapshot| && IsFirstFit(snapshot, reqs, where) && k < |reqs|
    requires Agrees(now, ids, snapshot, reqs, where, k) && Accommodating(now, ids, reqs[k]) == where[k]
    ensures var at := where[k];
            var next := if at < |ids| then now[ids[at] := Grant(now[ids[at]], reqs[k])] else now;
            Agrees(next, ids, snapshot, reqs, where, k + 1)
  {
    var at := where[k];
    if at < |ids| {
      GrantLowersAvailable(now[ids[at]], reqs[k]);
      var next := now[ids[at] := Grant(now[ids[at]], reqs[k])];
      forall i: nat | i < |ids|
        ensures ids[i] in next && Sound(next[ids[i]]) &&
                Available(next[ids[i]]) == Left(snapshot, reqs, where, i, k + 1)
      {
        if i != at {
          assert ids[i] != ids[at];
          assert next[ids[i]] == now[ids[i]];
          assert Load(reqs, where, i, k + 1) == Load(reqs, where, i, k);
        } else {
          assert Load(reqs, where, i, k + 1) == Plus(Load(reqs, where, i, k), reqs[k]);
        }
      }
    } else {
      forall i: nat | i < |ids| ensures Left(snapshot, reqs, where, i, k + 1) == Left(snapshot, reqs, where, i, k) {
      }
    }
  }

  lemma GrantLowersAvailable(c: Capacity, req: Resources)
    requires Sound(c) && Accepts(c, req)
    ensures Sound(Grant(c, req)) && Available(Grant(c, req)) == Minus(Available(c), req)
  {
    GrantAdds(c, req);
    WrapMinusExact(c.total, c.inUse);
    WrapMinusExact(c.total, Grant(c, req).inUse);
  }
}
