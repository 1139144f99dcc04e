/** Fair-share accounting: usage that decays with time and the priority factor computed from it. Reals stand
    for doubles. */
module FairShare {
  import opened Common

  // ---- Decay --------------------------------------------------------------------------------------

  /** Multiplication under a name, so that proofs can refer to a product without reopening it. */
  function Times(x: real, y: real): real {
    x * y
  }

  function Pow(r: real, n: nat): real {
    if n == 0 then 1.0 else Times(r, Pow(r, n - 1))
  }

  lemma {:induction false} PowAdds(r: real, m: nat, n: nat)
    ensures Pow(r, m + n) == Times(Pow(r, m), Pow(r, n))
  {
    if m > 0 {
      PowAdds(r, m - 1, n);
      Associate(r, Pow(r, m - 1), Pow(r, n));
    }
  }

  lemma Associate(x: real, y: real, z: real)
    ensures Times(x, Times(y, z)) == Times(Times(x, y), z)
  {
  }

  predicate DecayRate(r: real) {
    0.0 < r < 1.0
  }

  lemma {:induction false} PowInUnit(r: real, n: nat)
    requires DecayRate(r)
    ensures 0.0 < Pow(r, n) <= 1.0
    ensures n > 0 ==> Pow(r, n) < 1.0
  {
    if n > 0 {
      PowInUnit(r, n - 1);
      Shrink(r, Pow(r, n - 1));
    }
  }

  lemma Shrink(r: real, x: real)
    requires 0.0 < r < 1.0 && 0.0 < x <= 1.0
    ensures 0.0 < Times(r, x) < 1.0
  {
    assert r * x <= r * 1.0;
  }

  lemma {:induction false} PowOfPow(r: real, m: nat, n: nat)
    ensures Pow(Pow(r, m), n) == Pow(r, m * n)
  {
    if n > 0 {
      PowOfPow(r, m, n - 1);
      PowAdds(r, m, m * (n - 1));
      assert m + m * (n - 1) == m * n;
    }
  }

  lemma {:induction false} PowGrows(x: real, y: real, n: nat)
    requires 0.0 < x < y && n > 0
    ensures 0.0 < Pow(x, n) < Pow(y, n)
  {
    if n > 1 {
      PowGrows(x, y, n - 1);
      ProductGrows(x, y, Pow(x, n - 1), Pow(y, n - 1));
    }
  }

  lemma ProductGrows(x: real, y: real, u: real, v: real)
    requires 0.0 < x < y && 0.0 < u < v
    ensures 0.0 < Times(x, u) < Times(y, v)
  {
    assert x * u < y * u;
    assert y * u < y * v;
  }

  // ---- Half-lives ---------------------------------------------------------------------------------

  function SecondsIn(hours: nat): nat {
    3600 * hours
  }

  /** `p` whole hours make up `q` half-lives. */
  predicate Makes(halfLife: real, p: nat, q: nat) {
    p > 0 && halfLife * (q as real) == p as real
  }

  /** Applied once a second, `r` halves a quantity in each half-life. */
  ghost predicate Halves(r: real, halfLife: real) {
    forall p: nat, q: nat :: Makes(halfLife, p, q) ==> Pow(r, SecondsIn(p)) == Pow(0.5, q)
  }

  /** `d` is 0.5 to the power of `elapsed` seconds divided by the half-life, said without fractional powers. */
  ghost predicate IsHalfToThe(d: real, elapsed: nat, halfLife: real) {
    0.0 < d && forall p: nat, q: nat :: Makes(halfLife, p, q) ==> Pow(d, SecondsIn(p)) == Pow(0.5, elapsed * q)
  }

  /** The per-second rate raised to the seconds elapsed is that power of 0.5. */
  lemma RateGivesPowerOfHalf(r: real, elapsed: nat, halfLife: real)
    requires DecayRate(r) && Halves(r, halfLife)
    ensures IsHalfToThe(Pow(r, elapsed), elapsed, halfLife)
  {
    PowInUnit(r, elapsed);
    forall p: nat, q: nat | Makes(halfLife, p, q) ensures Pow(Pow(r, elapsed), SecondsIn(p)) == Pow(0.5, elapsed * q) {
      PowOfPow(r, elapsed, SecondsIn(p));
      PowOfPow(r, SecondsIn(p), elapsed);
      PowOfPow(0.5, q, elapsed);
      assert elapsed * SecondsIn(p) == SecondsIn(p) * elapsed && q * elapsed == elapsed * q;
    }
  }

  /** There is only one such power, for every half-life that is a fraction of whole numbers, as all doubles are;
      and after `q` whole half-lives it is 0.5 to the `q`. */
  lemma PowerOfHalfIsUnique(d: real, e: real, elapsed: nat, halfLife: real, p: nat, q: nat)
    requires IsHalfToThe(d, elapsed, halfLife) && Makes(halfLife, p, q)
    ensures IsHalfToThe(e, elapsed, halfLife) ==> d == e
    ensures elapsed == SecondsIn(p) ==> d == Pow(0.5, q)
  {
    var n := SecondsIn(p);
    if IsHalfToThe(e, elapsed, halfLife) && d != e {
      PowGrows(if d < e then d else e, if d < e then e else d, n);
    }
    if elapsed == n && d != Pow(0.5, q) {
      var h := Pow(0.5, q);
      PowInUnit(0.5, q);
      PowOfPow(0.5, q, n);
      assert q * n == n * q;
      PowGrows(if d < h then d else h, if d < h then h else d, n);
    }
  }

  /** A half-life of a day halves in 86400 seconds, and quarters in twice that. */
  lemma ADayHalves(d: real, e: real)
    requires IsHalfToThe(d, 86400, 24.0) && IsHalfToThe(e, 172800, 24.0)
    ensures d == 0.5 && e == 0.25
  {
    assert Makes(24.0, 24, 1) && Makes(24.0, 48, 2);
    PowerOfHalfIsUnique(d, d, 86400, 24.0, 24, 1);
    PowerOfHalfIsUnique(e, e, 172800, 24.0, 48, 2);
    assert Pow(0.5, 1) == 0.5 && Pow(0.5, 2) == 0.25;
  }

  type Usage = map<UserId, real>

  /** A user without an entry has used nothing. */
  function UsageOf(usage: Usage, user: UserId): real {
    if user in usage then usage[user] else 0.0
  }

  datatype Ledger = Ledger(usage: Usage, last: int)

  function AddTo(l: Ledger, user: UserId, amount: real): Ledger {
    l.(usage := l.usage[user := UsageOf(l.usage, user) + amount])
  }

  /** `now - last` seconds of decay, or nothing when the clock has not advanced past the last decay. */
  function DecayTo(r: real, l: Ledger, now: int): Ledger {
    if now <= l.last then l
    else Ledger(Scaled(l.usage, Pow(r, now - l.last)), now)
  }

  function Scaled(usage: Usage, d: real): Usage {
    map u | u in usage :: Times(usage[u], d)
  }

  datatype Event = Deposit(user: UserId, amount: real) | Tick(now: int)

  function Step(r: real, l: Ledger, e: Event): Ledger {
    match e
    case Deposit(user, amount) => AddTo(l, user, amount)
    case Tick(now) => DecayTo(r, l, now)
  }

  /** The ledger after the first `n` events, starting empty at time `start`. */
  function LedgerAt(r: real, start: int, es: seq<Event>, n: nat): Ledger
    requires n <= |es|
  {
    if n == 0 then Ledger(map[], start) else Step(r, LedgerAt(r, start, es, n - 1), es[n - 1])
  }

  /** The latest clock reading among the first `n` events, or `start`. */
  ghost function LatestTick(start: int, es: seq<Event>, n: nat): int
    requires n <= |es|
  {
    if n == 0 then start
    else if es[n - 1].Tick? then Max(LatestTick(start, es, n - 1), es[n - 1].now)
    else LatestTick(start, es, n - 1)
  }

  lemma {:induction false} LatestTickIsMaximum(start: int, es: seq<Event>, n: nat)
    requires n <= |es|
    ensures LatestTick(start, es, n) >= start
    ensures forall i :: 0 <= i < n && es[i].Tick? ==> LatestTick(start, es, n) >= es[i].now
    ensures LatestTick(start, es, n) == start ||
            exists i :: 0 <= i < n && es[i].Tick? && LatestTick(start, es, n) == es[i].now
  {
    if n > 0 {
      LatestTickIsMaximum(start, es, n - 1);
    }
  }

  lemma {:induction false} LatestTickGrows(start: int, es: seq<Event>, m: nat, n: nat)
    requires m <= n <= |es|
    ensures LatestTick(start, es, m) <= LatestTick(start, es, n)
    decreases n
  {
    if m < n {
      LatestTickGrows(start, es, m, n - 1);
    }
  }

  function Paid(e: Event, user: UserId): real {
    if e.Deposit? && e.user == user then e.amount else 0.0
  }

  /** What the first `k` deposits of `user` are worth after `n` events: each one times the decay over the
      time since it was made. */
  ghost function Worth(r: real, start: int, es: seq<Event>, user: UserId, k: nat, n: nat): real
    requires k <= n <= |es|
  {
    if k == 0 then 0.0
    else
      LatestTickGrows(start, es, k - 1, n);
      Worth(r, start, es, user, k - 1, n)
      + Times(Paid(es[k - 1], user), Pow(r, LatestTick(start, es, n) - LatestTick(start, es, k - 1)))
  }

  /** One more event multiplies the worth of everything paid so far by the decay it brings. */
  lemma {:induction false} WorthRescales(r: real, start: int, es: seq<Event>, user: UserId, k: nat, n: nat)
    requires k <= n < |es|
    ensures LatestTick(start, es, n) <= LatestTick(start, es, n + 1)
    ensures Worth(r, start, es, user, k, n + 1)
         == Times(Worth(r, start, es, user, k, n), Pow(r, LatestTick(start, es, n + 1) - LatestTick(start, es, n)))
  {
    LatestTickGrows(start, es, n, n + 1);
    var extra := LatestTick(start, es, n + 1) - LatestTick(start, es, n);
    if k == 0 {
      Distribute(0.0, 0.0, Pow(r, extra));
    } else {
      WorthRescales(r, start, es, user, k - 1, n);
      LatestTickGrows(start, es, k - 1, n);
      var since := LatestTick(start, es, n) - LatestTick(start, es, k - 1);
      PowAdds(r, since, extra);
      assert LatestTick(start, es, n + 1) - LatestTick(start, es, k - 1) == since + extra;
      Regroup(Worth(r, start, es, user, k - 1, n), Paid(es[k - 1], user), Pow(r, since), Pow(r, extra),
              Worth(r, start, es, user, k - 1, n + 1), Pow(r, since + extra));
    }
  }

  lemma Regroup(w: real, p: real, s: real, e: real, w': real, se: real)
    requires w' == Times(w, e) && se == Times(s, e)
    ensures w' + Times(p, se) == Times(w + Times(p, s), e)
  {
    Associate(p, s, e);
    Distribute(w, Times(p, s), e);
  }

  lemma Distribute(x: real, y: real, z: real)
    ensures Times(x + y, z) == Times(x, z) + Times(y, z)
  {
  }

  /** Closed form, under any clock, even one that steps back: the decay time is the largest reading so far
      and each user's usage is the sum of that user's deposits, each decayed since it was made. */
  lemma {:induction false} UsageClosedForm(r: real, start: int, es: seq<Event>, user: UserId, n: nat)
    requires n <= |es|
    ensures LedgerAt(r, start, es, n).last == LatestTick(start, es, n)
    ensures UsageOf(LedgerAt(r, start, es, n).usage, user) == Worth(r, start, es, user, n, n)
  {
    if n > 0 {
      UsageClosedForm(r, start, es, user, n - 1);
      WorthRescales(r, start, es, user, n - 1, n - 1);
      var before := LedgerAt(r, start, es, n - 1);
      var extra := LatestTick(start, es, n) - LatestTick(start, es, n - 1);
      match es[n - 1]
      case Deposit(_, amount) =>
        assert Pow(r, extra) == 1.0;
      case Tick(now) =>
        assert Times(Paid(es[n - 1], user), Pow(r, extra)) == 0.0;
    }
  }

  // ---- Priority factor ----------------------------------------------------------------------------

  /** All that is used of `log1p`: zero at zero and strictly increasing from there. */
  ghost predicate LogLike(log: real -> real) {
    log(0.0) == 0.0 && forall x, y :: 0.0 <= x < y ==> log(x) < log(y)
  }

  type Log1p = log: real -> real | LogLike(log) ghost witness (x: real) => x

  function Factor(log: Log1p, used: real): real
  {
    if used <= 0.0 then 1.0
    else
      assert log(0.0) < log(used / 3600.0);
      1.0 / (1.0 + log(used / 3600.0))
  }

  /** Factors lie in (0, 1], and 1 is for those who have used nothing. */
  lemma FactorInUnit(log: Log1p, used: real)
    ensures 0.0 < Factor(log, used) <= 1.0
    ensures Factor(log, used) == 1.0 <==> used <= 0.0
  {
    if used > 0.0 {
      assert log(0.0) < log(used / 3600.0);
      InvertsOrder(1.0, 1.0 + log(used / 3600.0));
    }
  }

  /** Usage counts by the hour: with `h` hours of it, the factor is what times `1 + log1p(h)` makes 1. */
  lemma FactorPerHour(log: Log1p, h: real)
    requires h > 0.0
    ensures 1.0 + log(h) > 1.0 && Factor(log, h * 3600.0) * (1.0 + log(h)) == 1.0
  {
    assert h * 3600.0 / 3600.0 == h;
    assert log(0.0) < log(h);
  }

  lemma InvertsOrder(x: real, y: real)
    requires 0.0 < x < y
    ensures 0.0 < 1.0 / y < 1.0 / x
  {
    assert 1.0 / x - 1.0 / y == (y - x) / (x * y);
  }

  /** The user with strictly more (positive) usage, and only that one, has the strictly smaller factor. */
  lemma FactorReversesUsage(log: Log1p, x: real, y: real)
    ensures Factor(log, x) < Factor(log, y) <==> x > y && x > 0.0
  {
    FactorInUnit(log, x);
    FactorInUnit(log, y);
    if x > y && y > 0.0 {
      StrictlySmaller(log, x, y);
    } else if y > x && x > 0.0 {
      StrictlySmaller(log, y, x);
    }
  }

  lemma StrictlySmaller(log: Log1p, x: real, y: real)
    requires x > y > 0.0
    ensures Factor(log, x) < Factor(log, y)
  {
    assert log(0.0) < log(y / 3600.0) < log(x / 3600.0);
    InvertsOrder(1.0 + log(y / 3600.0), 1.0 + log(x / 3600.0));
  }

  /** Decay never reorders two users, never lowers a factor, and raises the factor of everyone who has used
      something whenever time has passed. */
  lemma DecayKeepsRanking(log: Log1p, r: real, l: Ledger, now: int, a: UserId, b: UserId)
    requires DecayRate(r)
    ensures var l' := DecayTo(r, l, now);
            var fa, fb := Factor(log, UsageOf(l.usage, a)), Factor(log, UsageOf(l.usage, b));
            var fa', fb' := Factor(log, UsageOf(l'.usage, a)), Factor(log, UsageOf(l'.usage, b));
            && (fa < fb <==> fa' < fb')
            && fa <= fa'
            && (fa < fa' <==> UsageOf(l.usage, a) > 0.0 && now > l.last)
  {
    if now > l.last {
      var d := Pow(r, now - l.last);
      PowInUnit(r, now - l.last);
      var x, y := UsageOf(l.usage, a), UsageOf(l.usage, b);
      var x', y' := UsageOf(Scaled(l.usage, d), a), UsageOf(Scaled(l.usage, d), b);
      ScaledUsage(l.usage, d, a, b);
      RankingKept(log, x, y, x', y');
    }
  }

  lemma ScaledUsage(usage: Usage, d: real, a: UserId, b: UserId)
    requires 0.0 < d < 1.0
    ensures var x, y := UsageOf(usage, a), UsageOf(usage, b);
            var x', y' := UsageOf(Scaled(usage, d), a), UsageOf(Scaled(usage, d), b);
            (x > y <==> x' > y') && (x > 0.0 <==> x' > 0.0) && (x > 0.0 ==> x' < x)
  {
    ScaleKeepsOrder(UsageOf(usage, b), UsageOf(usage, a), d);
    ScaleKeepsSign(UsageOf(usage, a), d);
    ScaleKeepsSign(UsageOf(usage, b), d);
  }

  lemma RankingKept(log: Log1p, x: real, y: real, x': real, y': real)
    requires (x > y <==> x' > y') && (x > 0.0 <==> x' > 0.0) && (x > 0.0 ==> x' < x)
    ensures Factor(log, x) < Factor(log, y) <==> Factor(log, x') < Factor(log, y')
    ensures Factor(log, x) <= Factor(log, x')
    ensures Factor(log, x) < Factor(log, x') <==> x > 0.0
  {
    FactorReversesUsage(log, x, y);
    FactorReversesUsage(log, x', y');
    FactorReversesUsage(log, x, x');
    FactorReversesUsage(log, x', x);
  }

  lemma ScaleKeepsOrder(x: real, y: real, d: real)
    requires d > 0.0
    ensures x < y <==> Times(x, d) < Times(y, d)
  {
    if x < y {
      assert (y - x) * d > 0.0;
    } else {
      assert (x - y) * d >= 0.0;
    }
  }

  lemma ScaleKeepsSign(x: real, d: real)
    requires 0.0 < d < 1.0
    ensures x > 0.0 <==> Times(x, d) > 0.0
    ensures x > 0.0 ==> Times(x, d) < x
  {
    if x > 0.0 {
      ScaleKeepsOrder(d, 1.0, x);
      assert Times(d, x) == Times(x, d) && Times(1.0, x) == x;
    }
  }

  // ---- The manager --------------------------------------------------------------------------------

  class FairShareManager {
    const halfLife: real
    const rate: real
    var usage: Usage
    var lastDecay: int

    ghost predicate Valid() {
      halfLife > 0.0 && DecayRate(rate) && Halves(rate, halfLife)
    }

    ghost function Books(): Ledger
      reads this
    {
      Ledger(usage, lastDecay)
    }

    /** `perSecond(h)` is the factor that, applied once a second, halves a quantity in `h` hours. */
    constructor (halfLifeHours: real, perSecond: real -> real, now: int)
      requires forall h :: h > 0.0 ==> DecayRate(perSecond(h)) && Halves(perSecond(h), h)
      ensures Valid() && halfLife == if halfLifeHours > 0.0 then halfLifeHours else 24.0
      ensures Books() == Ledger(map[], now)
    {
      halfLife := if halfLifeHours > 0.0 then halfLifeHours else 24.0;
      rate := perSecond(if halfLifeHours > 0.0 then halfLifeHours else 24.0);
      usage := map[];
      lastDecay := now;
    }

    method AddUsage(user: UserId, amount: real)
      modifies this
      ensures Books() == AddTo(old(Books()), user, amount)
    {
      if user !in usage {
        usage := usage[user := 0.0];
      }
      usage := usage[user := usage[user] + amount];
    }

    method ApplyDecay(now: int)
      requires Valid()
      modifies this
      ensures Books() == DecayTo(rate, old(Books()), now)
      ensures now > old(lastDecay) ==>
              exists d :: IsHalfToThe(d, now - old(lastDecay), halfLife) && usage == Scaled(old(usage), d)
    {
      var elapsed := now - lastDecay;
      if elapsed <= 0 {
        return;
      }
      RateGivesPowerOfHalf(rate, elapsed, halfLife);
      var decayFactor := Pow(rate, elapsed);
      ghost var before := usage;
      ghost var target := Scaled(usage, decayFactor);
      var todo := usage.Keys;
      while todo != {}
        invariant todo <= usage.Keys == target.Keys == before.Keys
        invariant forall u :: u in usage ==> usage[u] == if u in todo then before[u] else target[u]
        invariant lastDecay == old(lastDecay)
        decreases todo
      {
        var u :| u in todo;
        usage := usage[u := Times(usage[u], decayFactor)];
        todo := todo - {u};
      }
      lastDecay := now;
      assert usage == target;
    }

    method GetPriorityFactor(log: Log1p, user: UserId) returns (factor: real)
      ensures factor == Factor(log, UsageOf(usage, user))
    {
      if user !in usage || usage[user] <= 0.0 {
        return 1.0;
      }
      var used := usage[user];
      assert log(0.0) < log(used / 3600.0);
      factor := 1.0 / (1.0 + log(used / 3600.0));
    }
  }
}
