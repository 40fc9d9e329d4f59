/** Paths and reachability under a step relation, the yardstick for every worklist below. */
module Reachability {

  ghost predicate IsPath<T>(step: (T, T) -> bool, p: seq<T>) {
    |p| > 0 && forall i :: 0 < i < |p| ==> step(p[i-1], p[i])
  }

  ghost predicate Joins<T>(step: (T, T) -> bool, p: seq<T>, a: T, b: T) {
    IsPath(step, p) && p[0] == a && p[|p|-1] == b
  }

  ghost predicate Reaches<T(!new)>(step: (T, T) -> bool, a: T, b: T) {
    exists p :: Joins(step, p, a, b)
  }

  ghost predicate ClosedUnder<T(!new)>(step: (T, T) -> bool, s: set<T>) {
    forall a, b :: a in s && step(a, b) ==> b in s
  }

  lemma ReachesSelf<T(!new)>(step: (T, T) -> bool, a: T)
    ensures Reaches(step, a, a)
  {
    assert Joins(step, [a], a, a);
  }

  lemma ReachesThenStep<T(!new)>(step: (T, T) -> bool, a: T, b: T, c: T)
    requires Reaches(step, a, b) && step(b, c)
    ensures Reaches(step, a, c)
  {
    var p :| Joins(step, p, a, b);
    assert Joins(step, p + [c], a, c);
  }

  lemma ReachesTransitive<T(!new)>(step: (T, T) -> bool, a: T, b: T, c: T)
    requires Reaches(step, a, b) && Reaches(step, b, c)
    ensures Reaches(step, a, c)
  {
    var p :| Joins(step, p, a, b);
    var q :| Joins(step, q, b, c);
    var r := p + q[1..];
    forall i | 0 < i < |r| ensures step(r[i-1], r[i]) {
      if i >= |p| {
        assert r[i] == q[i - |p| + 1];
        assert r[i-1] == q[i - |p|];
      }
    }
    assert Joins(step, r, a, c);
  }

  lemma PrefixJoins<T>(step: (T, T) -> bool, p: seq<T>, n: nat)
    requires IsPath(step, p) && n < |p|
    ensures Joins(step, p[..n+1], p[0], p[n])
  {
    var q := p[..n+1];
    forall i | 0 < i < |q| ensures step(q[i-1], q[i]) {
      assert q[i] == p[i];
      assert step(p[i-1], p[i]);
    }
  }

  /** Reachability is preserved when every step of one relation is a step of another. */
  lemma ReachesMonotone<T(!new)>(step: (T, T) -> bool, other: (T, T) -> bool, a: T, b: T)
    requires Reaches(step, a, b)
    requires forall x, y :: step(x, y) ==> other(x, y)
    ensures Reaches(other, a, b)
  {
    var p :| Joins(step, p, a, b);
    assert Joins(other, p, a, b);
  }

  /** What is reached is the least closed set that holds the start. */
  lemma {:induction false} PathStaysInside<T(!new)>(step: (T, T) -> bool, p: seq<T>, s: set<T>, n: nat)
    requires IsPath(step, p) && p[0] in s && ClosedUnder(step, s)
    requires n < |p|
    ensures p[n] in s
    decreases n
  {
    if n > 0 {
      PathStaysInside(step, p, s, n - 1);
      assert step(p[n-1], p[n]);
    }
  }

  lemma ReachesStaysInside<T(!new)>(step: (T, T) -> bool, a: T, b: T, s: set<T>)
    requires Reaches(step, a, b) && a in s && ClosedUnder(step, s)
    ensures b in s
  {
    var p :| Joins(step, p, a, b);
    PathStaysInside(step, p, s, |p| - 1);
  }

  function Reversed<T>(p: seq<T>): (r: seq<T>)
    ensures |r| == |p| && forall i :: 0 <= i < |p| ==> r[i] == p[|p| - 1 - i]
  {
    if p == [] then [] else Reversed(p[1..]) + [p[0]]
  }

  // ---- Depth ----

  /** `b` is `n` steps away from `a` along some path. */
  ghost predicate ReachesIn<T(!new)>(step: (T, T) -> bool, a: T, b: T, n: nat) {
    exists p :: Joins(step, p, a, b) && |p| == n + 1
  }

  /** `n` is the least number of steps from `a` to `b`. */
  ghost predicate IsDepth<T(!new)>(step: (T, T) -> bool, a: T, b: T, n: nat) {
    ReachesIn(step, a, b, n) && forall m :: 0 <= m < n ==> !ReachesIn(step, a, b, m)
  }

  lemma ReachesInZero<T(!new)>(step: (T, T) -> bool, a: T)
    ensures ReachesIn(step, a, a, 0)
  {
    assert Joins(step, [a], a, a);
  }

  lemma ReachesInNext<T(!new)>(step: (T, T) -> bool, a: T, b: T, c: T, n: nat)
    requires ReachesIn(step, a, b, n) && step(b, c)
    ensures ReachesIn(step, a, c, n + 1)
  {
    var p :| Joins(step, p, a, b) && |p| == n + 1;
    assert Joins(step, p + [c], a, c);
  }

  lemma ReachesInLast<T(!new)>(step: (T, T) -> bool, a: T, c: T, n: nat) returns (b: T)
    requires ReachesIn(step, a, c, n + 1)
    ensures ReachesIn(step, a, b, n) && step(b, c)
  {
    var p :| Joins(step, p, a, c) && |p| == n + 2;
    PrefixJoins(step, p, n);
    b := p[n];
    assert step(p[n], p[n+1]);
    assert |p[..n+1]| == n + 1;
  }
}
