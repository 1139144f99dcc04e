/** The placement rule of a scheduling pass, specified without reference to how the pass computes it.

    A pass sees the availabilities `snapshot` of the online nodes and the requests `reqs` of the queued
    jobs, in the order in which it will try them. `where[k]` is the index of the node that job `k` goes
    to, or `|snapshot|` if the job stays queued. */
module FirstFit {
  import opened ResourceSpecs

  /** Sum of the requests of those among the first `k` jobs that went to node `i`. */
  ghost function Load(reqs: seq<Resources>, where: seq<nat>, i: nat, k: nat): Amount
    requires k <= |where| <= |reqs|
  {
    if k == 0 then NOTHING
    else if where[k - 1] == i then Plus(Load(reqs, where, i, k - 1), reqs[k - 1])
    else Load(reqs, where, i, k - 1)
  }

  /** What node `i` has left when job `k` is tried. */
  ghost function Left(snapshot: seq<Resources>, reqs: seq<Resources>, where: seq<nat>, i: nat, k: nat): Amount
    requires k <= |where| <= |reqs| && i < |snapshot|
  {
    Minus(snapshot[i], Load(reqs, where, i, k))
  }

  /** Job `k` sits on the lowest-numbered node with room for it, given where the earlier jobs went. */
  ghost predicate PlacedFirst(snapshot: seq<Resources>, reqs: seq<Resources>, where: seq<nat>, k: nat)
    requires k < |where| <= |reqs|
  {
    && where[k] <= |snapshot|
    && (where[k] < |snapshot| ==> Fits(reqs[k], Left(snapshot, reqs, where, where[k], k)))
    && (forall i: nat :: i < where[k] ==> !Fits(reqs[k], Left(snapshot, reqs, where, i, k)))
  }

  ghost predicate IsFirstFit(snapshot: seq<Resources>, reqs: seq<Resources>, where: seq<nat>) {
    && |where| == |reqs|
    && (forall k: nat :: k < |reqs| ==> PlacedFirst(snapshot, reqs, where, k))
  }

  /** Lowest index whose entry has room for `req`, or `|avail|`. */
  function FitIndex(avail: seq<Resources>, req: Resources): (i: nat)
    ensures i <= |avail|
    ensures i < |avail| ==> Fits(req, avail[i])
    ensures forall j: nat :: j < i ==> !Fits(req, avail[j])
  {
    if |avail| == 0 || Fits(req, avail[0]) then 0 else 1 + FitIndex(avail[1..], req)
  }

  /** The entries left after `req` has been deducted, by machine subtraction, from entry `i`. */
  function Deduct(avail: seq<Resources>, i: nat, req: Resources): (r: seq<Resources>)
    requires i <= |avail|
    ensures |r| == |avail|
  {
    if i == |avail| then avail else avail[i := WrapMinus(avail[i], req)]
  }

  /** `Load` looks only at the first `k` jobs. */
  lemma {:induction false} LoadOfPrefix(reqs: seq<Resources>, where: seq<nat>, reqs': seq<Resources>,
      where': seq<nat>, i: nat, k: nat)
    requires k <= |where| <= |reqs| && k <= |where'| <= |reqs'|
    requires reqs[..k] == reqs'[..k] && where[..k] == where'[..k]
    ensures Load(reqs, where, i, k) == Load(reqs', where', i, k)
  {
    if k > 0 {
      assert reqs[k - 1] == reqs[..k][k - 1] == reqs'[..k][k - 1] == reqs'[k - 1];
      assert where[k - 1] == where[..k][k - 1] == where'[..k][k - 1] == where'[k - 1];
      assert reqs[..k - 1] == reqs[..k][..k - 1] == reqs'[..k][..k - 1] == reqs'[..k - 1];
      assert where[..k - 1] == where[..k][..k - 1] == where'[..k][..k - 1] == where'[..k - 1];
      LoadOfPrefix(reqs, where, reqs', where', i, k - 1);
    }
  }

  /** Loads only grow. */
  lemma {:induction false} LoadMonotone(reqs: seq<Resources>, where: seq<nat>, i: nat, j: nat, k: nat)
    requires j <= k <= |where| <= |reqs|
    ensures Fits(Load(reqs, where, i, j), Load(reqs, where, i, k))
    ensures j < k && where[j] == i ==> Fits(Plus(Load(reqs, where, i, j), reqs[j]), Load(reqs, where, i, k))
    decreases k
  {
    if j < k {
      LoadMonotone(reqs, where, i, j, k - 1);
    }
  }

  /** The rule has exactly one solution: a pass has no freedom once the queue is ordered. */
  lemma FirstFitUnique(snapshot: seq<Resources>, reqs: seq<Resources>, where: seq<nat>, where': seq<nat>)
    requires IsFirstFit(snapshot, reqs, where) && IsFirstFit(snapshot, reqs, where')
    ensures where == where'
  {
    forall k: nat | k <= |reqs| ensures where[..k] == where'[..k] {
      AgreeUpTo(snapshot, reqs, where, where', k);
    }
    assert where == where[..|reqs|] && where' == where'[..|reqs|];
  }

  lemma {:induction false} AgreeUpTo(snapshot: seq<Resources>, reqs: seq<Resources>, where: seq<nat>,
      where': seq<nat>, k: nat)
    requires IsFirstFit(snapshot, reqs, where) && IsFirstFit(snapshot, reqs, where') && k <= |reqs|
    ensures where[..k] == where'[..k]
  {
    if k > 0 {
      AgreeUpTo(snapshot, reqs, where, where', k - 1);
      var j := k - 1;
      forall i: nat | i < |snapshot| ensures Left(snapshot, reqs, where, i, j) == Left(snapshot, reqs, where', i, j) {
        LoadOfPrefix(reqs, where, reqs, where', i, j);
      }
      assert PlacedFirst(snapshot, reqs, where, j) && PlacedFirst(snapshot, reqs, where', j);
      assert where[j] == where'[j];
      assert where[..k] == where[..j] + [where[j]] && where'[..k] == where'[..j] + [where'[j]];
    }
  }

  /** Jobs further back in the queue have no influence on the placement of those in front. */
  lemma PrefixIndependence(snapshot: seq<Resources>, reqs: seq<Resources>, more: seq<Resources>, where: seq<nat>,
      where': seq<nat>)
    requires IsFirstFit(snapshot, reqs, where) && IsFirstFit(snapshot, reqs + more, where')
    ensures where'[..|reqs|] == where
  {
    var cut := where'[..|reqs|];
    forall k: nat | k < |reqs| ensures PlacedFirst(snapshot, reqs, cut, k) {
      assert PlacedFirst(snapshot, reqs + more, where', k);
      forall i: nat | i < |snapshot|
        ensures Left(snapshot, reqs, cut, i, k) == Left(snapshot, reqs + more, where', i, k)
      {
        assert reqs[..k] == (reqs + more)[..k] && cut[..k] == where'[..k];
        LoadOfPrefix(reqs, cut, reqs + more, where', i, k);
      }
    }
    FirstFitUnique(snapshot, reqs, cut, where);
  }

  /** The first `|where|` jobs have been placed first-fit, and `avail`, kept by machine subtraction, is snapshot
      minus load on every node. */
  ghost predicate PassSoFar(snapshot: seq<Resources>, reqs: seq<Resources>, where: seq<nat>, avail: seq<Resources>) {
    && |where| <= |reqs| && |avail| == |snapshot|
    && (forall k: nat :: k < |where| ==> PlacedFirst(snapshot, reqs, where, k))
    && (forall i: nat :: i < |avail| ==> avail[i] == Left(snapshot, reqs, where, i, |where|))
  }

  lemma PassStarts(snapshot: seq<Resources>, reqs: seq<Resources>)
    ensures PassSoFar(snapshot, reqs, [], snapshot)
  {
  }

  lemma PassEnds(snapshot: seq<Resources>, reqs: seq<Resources>, where: seq<nat>, avail: seq<Resources>)
    requires PassSoFar(snapshot, reqs, where, avail) && |where| == |reqs|
    ensures IsFirstFit(snapshot, reqs, where)
  {
  }

  /** Placing the next job by `FitIndex` on the current residual continues a first fit, and the unsigned
      subtraction does not wrap. */
  lemma PlaceNext(snapshot: seq<Resources>, reqs: seq<Resources>, where: seq<nat>, avail: seq<Resources>)
    requires PassSoFar(snapshot, reqs, where, avail) && |where| < |reqs|
    ensures var at := FitIndex(avail, reqs[|where|]);
            PassSoFar(snapshot, reqs, where + [at], Deduct(avail, at, reqs[|where|]))
  {
    var n := |where|;
    var at := FitIndex(avail, reqs[n]);
    var where' := where + [at];
    forall k: nat, i: nat | k <= n ensures Load(reqs, where', i, k) == Load(reqs, where, i, k) {
      assert where'[..k] == where[..k];
      LoadOfPrefix(reqs, where', reqs, where, i, k);
    }
    forall k: nat | k < |where'| ensures PlacedFirst(snapshot, reqs, where', k) {
      if k < n {
        SamePlacement(snapshot, reqs, where, where', k);
      } else {
        forall i: nat | i < |avail| ensures Left(snapshot, reqs, where', i, k) == avail[i] {
        }
      }
    }
    forall i: nat | i < |avail| ensures Deduct(avail, at, reqs[n])[i] == Left(snapshot, reqs, where', i, n + 1) {
      if i == at {
        WrapMinusExact(avail[at], reqs[n]);
      }
    }
  }

  lemma SamePlacement(snapshot: seq<Resources>, reqs: seq<Resources>, where: seq<nat>, where': seq<nat>, k: nat)
    requires k < |where| <= |reqs| && |where'| <= |reqs| && where <= where' && PlacedFirst(snapshot, reqs, where, k)
    ensures PlacedFirst(snapshot, reqs, where', k)
  {
    assert where'[..k] == where[..k];
    forall i: nat ensures Load(reqs, where', i, k) == Load(reqs, where, i, k) {
      LoadOfPrefix(reqs, where', reqs, where, i, k);
    }
    forall i: nat | i < where'[k] ensures !Fits(reqs[k], Left(snapshot, reqs, where', i, k)) {
      assert !Fits(reqs[k], Left(snapshot, reqs, where, i, k));
    }
  }

  /** Conservation and no overcommitment: at every moment of the pass a node's load is covered by what the
      snapshot said it had. */
  lemma {:induction false} NeverOvercommitted(snapshot: seq<Resources>, reqs: seq<Resources>, where: seq<nat>, i: nat,
      k: nat)
    requires IsFirstFit(snapshot, reqs, where) && i < |snapshot| && k <= |reqs|
    ensures Fits(NOTHING, Load(reqs, where, i, k))
    ensures Fits(Load(reqs, where, i, k), snapshot[i])
    ensures InRange(Left(snapshot, reqs, where, i, k))
  {
    if k > 0 {
      NeverOvercommitted(snapshot, reqs, where, i, k - 1);
      assert PlacedFirst(snapshot, reqs, where, k - 1);
    }
  }

  /** A queue that asks for exactly what the nodes have, node by node, empties them one after the other. */
  lemma {:induction false} NodesFillUp(snapshot: seq<Resources>, m: nat, n: nat)
    returns (where: seq<nat>, avail: seq<Resources>)
    requires n <= m <= |snapshot|
    ensures |where| == n && PassSoFar(snapshot, snapshot[..m], where, avail)
    ensures IsEmptied(snapshot, n, avail)
  {
    if n == 0 {
      where, avail := [], snapshot;
    } else {
      var where', avail' := NodesFillUp(snapshot, m, n - 1);
      PlaceNext(snapshot, snapshot[..m], where', avail');
      assert snapshot[..m][n - 1] == snapshot[n - 1];
      NextNodeFills(snapshot, n - 1, avail');
      var at := FitIndex(avail', snapshot[n - 1]);
      where, avail := where' + [at], Deduct(avail', at, snapshot[n - 1]);
    }
  }

  /** The first `n` nodes have nothing left, the others all they had. */
  ghost predicate IsEmptied(snapshot: seq<Resources>, n: nat, avail: seq<Resources>) {
    && |avail| == |snapshot|
    && (forall j :: 0 <= j < |snapshot| ==> avail[j] == if j < n then NOTHING else snapshot[j])
  }

  lemma NextNodeFills(snapshot: seq<Resources>, n: nat, avail: seq<Resources>)
    requires n < |snapshot| && IsEmptied(snapshot, n, avail)
    ensures IsEmptied(snapshot, n + 1, Deduct(avail, FitIndex(avail, snapshot[n]), snapshot[n]))
  {
    var at := FitIndex(avail, snapshot[n]);
    assert Fits(snapshot[n], avail[n]);
    assert at <= n;
    WrapMinusExact(avail[at], snapshot[n]);
  }

  /** A pass looks at what is offered and not at what earlier passes have put on a node. With `busy` on node `i`
      already, no queue takes the node over `total` exactly if what is offered on top of `busy` does not. */
  lemma CapacityAcrossPassesIff(snapshot: seq<Resources>, i: nat, busy: Amount, total: Amount)
    requires i < |snapshot|
    ensures Fits(Plus(busy, snapshot[i]), total) <==>
            forall reqs, where :: IsFirstFit(snapshot, reqs, where) ==>
              Fits(Plus(busy, Load(reqs, where, i, |reqs|)), total)
  {
    if Fits(Plus(busy, snapshot[i]), total) {
      forall reqs, where | IsFirstFit(snapshot, reqs, where)
        ensures Fits(Plus(busy, Load(reqs, where, i, |reqs|)), total)
      {
        NeverOvercommitted(snapshot, reqs, where, i, |reqs|);
      }
    } else {
      var where, avail := NodesFillUp(snapshot, i + 1, i + 1);
      PassEnds(snapshot, snapshot[..i + 1], where, avail);
      assert Load(snapshot[..i + 1], where, i, i + 1) == snapshot[i];
    }
  }

  /** A job the pass leaves queued does not fit even what is left on any node when the pass is over. */
  lemma PassIsMaximal(snapshot: seq<Resources>, reqs: seq<Resources>, where: seq<nat>, k: nat, i: nat)
    requires IsFirstFit(snapshot, reqs, where) && k < |reqs| && i < |snapshot|
    requires where[k] == |snapshot|
    ensures !Fits(reqs[k], Left(snapshot, reqs, where, i, |reqs|))
  {
    assert PlacedFirst(snapshot, reqs, where, k);
    assert !Fits(reqs[k], Left(snapshot, reqs, where, i, k));
    LoadMonotone(reqs, where, i, k, |reqs|);
  }

  /** `req` fits some node of the snapshot. */
  ghost predicate Placeable(snapshot: seq<Resources>, req: Resources) {
    exists i: nat :: i < |snapshot| && Fits(req, snapshot[i])
  }

  lemma {:induction false} SomebodyWasPlaced(reqs: seq<Resources>, where: seq<nat>, i: nat, k: nat) returns (j: nat)
    requires k <= |where| <= |reqs| && Load(reqs, where, i, k) != NOTHING
    ensures j < k && where[j] == i
  {
    if where[k - 1] == i {
      j := k - 1;
    } else {
      j := SomebodyWasPlaced(reqs, where, i, k - 1);
    }
  }

  /** Progress: if any queued job fits some node, the pass places at least one job. */
  lemma PassMakesProgress(snapshot: seq<Resources>, reqs: seq<Resources>, where: seq<nat>, k: nat) returns (j: nat)
    requires IsFirstFit(snapshot, reqs, where) && k < |reqs| && Placeable(snapshot, reqs[k])
    ensures j < |reqs| && where[j] < |snapshot| && Placeable(snapshot, reqs[j])
  {
    assert PlacedFirst(snapshot, reqs, where, k);
    if where[k] < |snapshot| {
      j := k;
    } else {
      var i: nat :| i < |snapshot| && Fits(reqs[k], snapshot[i]);
      assert !Fits(reqs[k], Left(snapshot, reqs, where, i, k));
      j := SomebodyWasPlaced(reqs, where, i, k);
      assert PlacedFirst(snapshot, reqs, where, j);
      NeverOvercommitted(snapshot, reqs, where, i, j);
      assert Fits(reqs[j], snapshot[i]);
    }
  }
}
