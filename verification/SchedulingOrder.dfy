/** The order in which a pass tries the queue: effective priority with a tolerance of 0.1, then age. */
module SchedulingOrder {

  datatype Key = Key(prio: real, submitted: int)

  const TOLERANCE: real := 0.1

  predicate Close(a: Key, b: Key) {
    -TOLERANCE <= a.prio - b.prio <= TOLERANCE
  }

  /** The comparator handed to the sort. */
  predicate Before(a: Key, b: Key) {
    if !Close(a, b) then a.prio > b.prio else a.submitted < b.submitted
  }

  /** Up to a tenth apart age decides, and beyond that priority. */
  lemma AgeDecidesWithinATenth(p: real, d: real, s: int, t: int)
    requires d >= 0.0
    ensures Before(Key(p + d, s), Key(p, t)) <==> d > 0.1 || s < t
    ensures Before(Key(p, t), Key(p + d, s)) <==> d <= 0.1 && t < s
  {
  }

  /** What a comparison sort needs of its comparator on the elements it is given. */
  ghost predicate StrictWeakOrder(keys: iset<Key>) {
    && (forall a :: a in keys ==> !Before(a, a))
    && (forall a, b :: a in keys && b in keys && Before(a, b) ==> !Before(b, a))
    && (forall a, b, c :: a in keys && b in keys && c in keys && Before(a, b) && Before(b, c) ==> Before(a, c))
    && (forall a, b, c :: a in keys && b in keys && c in keys && Tied(a, b) && Tied(b, c) ==> Tied(a, c))
  }

  predicate Tied(a: Key, b: Key) {
    !Before(a, b) && !Before(b, a)
  }

  /** Two steps inside the tolerance add up to a step outside it, while the jobs do not get younger in the
      same direction. */
  predicate Drift(a: Key, b: Key, c: Key) {
    && Close(a, b) && Close(b, c)
    && a.prio - c.prio > TOLERANCE
    && c.submitted <= b.submitted <= a.submitted
  }

  /** Exactly when the comparator is a strict weak order: no three keys drift. */
  lemma OrderedIffNoDrift(keys: iset<Key>)
    ensures StrictWeakOrder(keys) <==> !exists a, b, c :: a in keys && b in keys && c in keys && Drift(a, b, c)
  {
  }

  /** Irreflexivity and asymmetry never fail, so two queued jobs alone are always in order. */
  lemma AlwaysAsymmetric(a: Key, b: Key)
    ensures !Before(a, a) && !(Before(a, b) && Before(b, a))
    ensures StrictWeakOrder(iset{a, b})
  {
  }

  /** Three jobs going round in a circle. */
  lemma ThreeJobCycle()
    ensures var a, b, c := Key(0.16, 3), Key(0.08, 2), Key(0.0, 1);
            Before(a, c) && Before(c, b) && Before(b, a) && !StrictWeakOrder(iset{a, b, c})
  {
  }

  /** Priorities that are equal or clearly apart, as they are when nobody has used anything and every factor
      is 1, so that the priorities are integers. */
  ghost predicate Separated(keys: iset<Key>) {
    forall a, b :: a in keys && b in keys ==> a.prio == b.prio || !Close(a, b)
  }

  ghost predicate WholePriorities(keys: iset<Key>) {
    forall a :: a in keys ==> a.prio == a.prio.Floor as real
  }

  lemma WholeMeansSeparated(keys: iset<Key>)
    requires WholePriorities(keys)
    ensures Separated(keys)
  {
    forall a, b | a in keys && b in keys ensures a.prio == b.prio || !Close(a, b) {
      var p, q := a.prio.Floor, b.prio.Floor;
      assert p == q || p - q >= 1 || q - p >= 1;
    }
  }

  lemma SeparatedMeansOrdered(keys: iset<Key>)
    requires Separated(keys)
    ensures StrictWeakOrder(keys)
  {
  }

  // ---- Sorting ------------------------------------------------------------------------------------

  ghost function Keys<T(!new)>(s: seq<T>, key: T -> Key): iset<Key> {
    iset x: T | x in s :: key(x)
  }

  /** No element should come before one that stands in front of it. */
  ghost predicate InOrder<T>(s: seq<T>, key: T -> Key) {
    forall i, j :: 0 <= i < j < |s| ==> !Before(key(s[j]), key(s[i]))
  }

  /** Whatever the comparator does, the result is a rearrangement of the queue; if the comparator is a strict
      weak order on it, the result is in order. */
  method SortQueue<T(!new)>(queue: seq<T>, key: T -> Key) returns (sorted: seq<T>)
    ensures multiset(sorted) == multiset(queue)
    ensures StrictWeakOrder(Keys(queue, key)) ==> InOrder(sorted, key)
  {
    sorted := [];
    var n := 0;
    while n < |queue|
      invariant 0 <= n <= |queue|
      invariant multiset(sorted) == multiset(queue[..n])
      invariant StrictWeakOrder(Keys(queue, key)) ==> InOrder(sorted, key)
    {
      var x := queue[n];
      var p := |sorted|;
      while p > 0 && Before(key(x), key(sorted[p - 1]))
        invariant 0 <= p <= |sorted|
        invariant forall j :: p <= j < |sorted| ==> Before(key(x), key(sorted[j]))
      {
        p := p - 1;
      }
      assert queue[..n + 1] == queue[..n] + [x];
      InsertIsRearrangement(sorted, x, p);
      if StrictWeakOrder(Keys(queue, key)) {
        InsertKeepsOrder(queue, key, sorted, x, p, n);
      }
      sorted := sorted[..p] + [x] + sorted[p..];
      n := n + 1;
    }
    assert queue[..n] == queue;
  }

  lemma InsertIsRearrangement<T>(s: seq<T>, x: T, p: nat)
    requires p <= |s|
    ensures multiset(s[..p] + [x] + s[p..]) == multiset(s) + multiset{x}
  {
    assert s == s[..p] + s[p..];
  }

  lemma InsertKeepsOrder<T(!new)>(queue: seq<T>, key: T -> Key, s: seq<T>, x: T, p: nat, n: nat)
    requires n < |queue| && x == queue[n] && multiset(s) == multiset(queue[..n]) && p <= |s|
    requires StrictWeakOrder(Keys(queue, key)) && InOrder(s, key)
    requires p > 0 ==> !Before(key(x), key(s[p - 1]))
    requires forall j :: p <= j < |s| ==> Before(key(x), key(s[j]))
    ensures InOrder(s[..p] + [x] + s[p..], key)
  {
    var keys := Keys(queue, key);
    assert x in queue && key(x) in keys;
    forall j | 0 <= j < |s| ensures key(s[j]) in keys {
      assert s[j] in multiset(s);
      assert s[j] in queue[..n];
      assert s[j] in queue;
    }
    forall j | 0 <= j < p ensures !Before(key(x), key(s[j])) {
      if j < p - 1 && Before(key(x), key(s[j])) {
        NegativelyTransitive(keys, key(x), key(s[p - 1]), key(s[j]));
      }
    }
    forall j | p <= j < |s| ensures !Before(key(s[j]), key(x)) {
      assert Before(key(x), key(s[j]));
    }
  }

  /** The usual other face of a strict weak order: what comes before `c` comes before `b`, or `b` before `c`. */
  lemma NegativelyTransitive(keys: iset<Key>, a: Key, b: Key, c: Key)
    requires StrictWeakOrder(keys) && a in keys && b in keys && c in keys
    requires Before(a, c)
    ensures Before(a, b) || Before(b, c)
  {
  }

  /** On a separated queue the sorted order is by priority, and first come first served among equals. */
  lemma SeparatedOrderIsPriorityThenAge<T(!new)>(s: seq<T>, key: T -> Key, i: nat, j: nat)
    requires Separated(Keys(s, key)) && InOrder(s, key) && i < j < |s|
    ensures key(s[i]).prio >= key(s[j]).prio
    ensures key(s[i]).prio == key(s[j]).prio ==> key(s[i]).submitted <= key(s[j]).submitted
  {
  }
}
