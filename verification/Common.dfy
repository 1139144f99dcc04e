/** Names shared by every part of the model. */
module Common {

  datatype Option<+T> = None | Some(value: T)

  type JobId = string
  type NodeId = string
  type UserId = string

  /** No two positions of `s` hold the same value. */
  ghost predicate NoDuplicates<T>(s: seq<T>) {
    forall i, j :: 0 <= i < j < |s| ==> s[i] != s[j]
  }

  function Max(x: int, y: int): int {
    if x < y then y else x
  }

  /** A sequence without duplicates is as long as the set of what is in it. */
  lemma {:induction false} DistinctCount<T>(s: seq<T>, a: set<T>)
    requires NoDuplicates(s) && forall x :: x in a <==> x in s
    ensures |s| == |a|
  {
    if s == [] {
      assert a == {};
    } else {
      var n := |s| - 1;
      var rest := a - {s[n]};
      forall x ensures x in rest <==> x in s[..n] {
        if x in s[..n] {
          var k :| 0 <= k < n && s[k] == x;
        }
      }
      DistinctCount(s[..n], rest);
      assert a == rest + {s[n]};
    }
  }

  /** Two sets related by an injection have the same size; used to count threads and placed jobs. */
  lemma {:induction false} SameSize<A, B>(a: set<A>, b: set<B>, f: map<A, B>)
    requires f.Keys == a && f.Values == b
    requires forall x, y :: x in a && y in a && x != y ==> f[x] != f[y]
    ensures |a| == |b|
    decreases a
  {
    if a == {} {
      assert b == {};
    } else {
      var x :| x in a;
      var g := map z | z in a && z != x :: f[z];
      assert b == g.Values + {f[x]} by {
        forall y | y in b ensures y in g.Values + {f[x]} {
          var z :| z in f && f[z] == y;
          if z != x {
            assert z in g && g[z] == y;
          }
        }
        forall y | y in g.Values + {f[x]} ensures y in b {
          if y != f[x] {
            var z :| z in g && g[z] == y;
            assert f[z] == y;
          }
        }
      }
      SameSize(a - {x}, g.Values, g);
    }
  }
}
