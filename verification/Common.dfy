/** Option and Result values, and the order Python gives to strings. */
module Common {

  datatype Option<+T> = None | Some(value: T)

  datatype Result<+T, +E> = Ok(value: T) | Err(error: E)

  /** Nothing but white space. */
  predicate IsBlank(s: string) {
    forall c :: c in s ==> c in {' ', '\t', '\n', '\r'}
  }

  function Elements<T>(xs: seq<T>): set<T> {
    set x | x in xs
  }

  lemma ElementsAppend<T>(xs: seq<T>, x: T)
    ensures Elements(xs + [x]) == Elements(xs) + {x}
    ensures NoDuplicates(xs) && x !in Elements(xs) ==> NoDuplicates(xs + [x])
  {
  }

  lemma ConcatAssociates<T>(xs: seq<T>, ys: seq<T>, zs: seq<T>)
    ensures xs + ys + zs == xs + (ys + zs)
  {
  }

  lemma NoDuplicatesAppend<T>(xs: seq<T>, x: T)
    ensures NoDuplicates(xs + [x]) <==> NoDuplicates(xs) && x !in xs
  {
    var all := xs + [x];
    if NoDuplicates(all) {
      assert forall i :: 0 <= i < |xs| ==> all[i] == xs[i] && all[i] != all[|xs|];
    }
  }

  lemma ElementsDropLast<T>(xs: seq<T>)
    requires xs != []
    ensures Elements(xs) == Elements(xs[..|xs|-1]) + {xs[|xs|-1]}
  {
    assert xs == xs[..|xs|-1] + [xs[|xs|-1]];
  }

  ghost predicate NoDuplicates<T>(xs: seq<T>) {
    forall i, j :: 0 <= i < j < |xs| ==> xs[i] != xs[j]
  }

  lemma {:induction false} ElementsCount<T>(xs: seq<T>)
    requires NoDuplicates(xs)
    ensures |Elements(xs)| == |xs|
  {
    if xs != [] {
      ElementsDropLast(xs);
      ElementsCount(xs[..|xs| - 1]);
    }
  }

  lemma NoDuplicatesConcat<T>(xs: seq<T>, ys: seq<T>)
    ensures NoDuplicates(xs + ys) <==> NoDuplicates(xs) && NoDuplicates(ys) && Elements(xs) !! Elements(ys)
  {
    var all := xs + ys;
    if NoDuplicates(all) {
      forall i, j | 0 <= i < j < |xs| ensures xs[i] != xs[j] { assert all[i] != all[j]; }
      forall i, j | 0 <= i < j < |ys| ensures ys[i] != ys[j] { assert all[|xs| + i] != all[|xs| + j]; }
      forall i, j | 0 <= i < |xs| && 0 <= j < |ys| ensures xs[i] != ys[j] { assert all[i] != all[|xs| + j]; }
    }
    if NoDuplicates(xs) && NoDuplicates(ys) && Elements(xs) !! Elements(ys) {
      forall i, j | 0 <= i < j < |all| ensures all[i] != all[j] {
        if i < |xs| <= j { assert all[i] in Elements(xs) && all[j] in Elements(ys); }
      }
    }
  }

  /** `picks` lists in order exactly the indices below `n` that are chosen. */
  ghost predicate Picks(picks: seq<nat>, n: nat, chosen: nat -> bool) {
    && (forall k :: 0 <= k < |picks| ==> picks[k] < n && chosen(picks[k]))
    && (forall j, k :: 0 <= j < k < |picks| ==> picks[j] < picks[k])
    && (forall i: nat :: i < n && chosen(i) ==> i in picks)
  }

  /** The same choice over one index more. */
  lemma PicksOneMore(picks: seq<nat>, n: nat, before: nat -> bool, chosen: nat -> bool) returns (more: seq<nat>)
    requires Picks(picks, n, before) && forall i: nat :: i < n ==> before(i) == chosen(i)
    ensures Picks(more, n + 1, chosen) && more == picks + if chosen(n) then [n] else []
  {
    more := picks + if chosen(n) then [n] else [];
    forall i: nat | i < n + 1 && chosen(i) ensures i in more {
      if i < n { assert before(i) && i in picks; }
    }
  }

  lemma PicksCount(picks: seq<nat>, n: nat, chosen: nat -> bool)
    requires Picks(picks, n, chosen)
    ensures |picks| == |set i: nat | i < n && chosen(i)|
  {
    assert Elements(picks) == set i: nat | i < n && chosen(i);
    assert NoDuplicates(picks);
    ElementsCount(picks);
  }

  /** The elements in the order they first occur. */
  function FirstOccurrences<T(==, !new)>(xs: seq<T>): (r: seq<T>)
    ensures NoDuplicates(r)
    ensures Elements(r) == Elements(xs)
  {
    if xs == [] then []
    else
      var front, last := xs[..|xs|-1], xs[|xs|-1];
      assert xs == front + [last];
      var prior := FirstOccurrences(front);
      assert forall x :: x in prior <==> x in Elements(prior);
      if last in prior then prior else prior + [last]
  }

  lemma FirstOccurrencesPush<T(!new)>(xs: seq<T>, y: T)
    ensures FirstOccurrences(xs + [y]) == if y in xs then FirstOccurrences(xs) else FirstOccurrences(xs) + [y]
  {
    assert (xs + [y])[..|xs|] == xs;
    assert y in xs <==> y in Elements(FirstOccurrences(xs));
  }

  /** What comes first in the result occurs first in the list. */
  lemma {:induction false} FirstOccurrencesInOrder<T(!new)>(xs: seq<T>, i: nat, j: nat)
    requires i < j < |FirstOccurrences(xs)|
    ensures exists m :: 0 <= m < |xs| && xs[m] == FirstOccurrences(xs)[i] && FirstOccurrences(xs)[j] !in xs[..m + 1]
  {
    var front, last := xs[..|xs|-1], xs[|xs|-1];
    var prior, r := FirstOccurrences(front), FirstOccurrences(xs);
    if j < |prior| {
      FirstOccurrencesInOrder(front, i, j);
      var m :| 0 <= m < |front| && front[m] == prior[i] && prior[j] !in front[..m + 1];
      assert xs[m] == r[i] && xs[..m + 1] == front[..m + 1];
    } else {
      assert prior[i] in Elements(prior) && prior[i] in front;
      var m :| 0 <= m < |front| && front[m] == prior[i];
      assert forall x :: x in prior <==> x in Elements(prior);
      assert last !in front;
      assert xs[m] == r[i] && xs[..m + 1] == front[..m + 1];
    }
  }

  lemma {:induction false} FirstOccurrencesGrow<T(!new)>(xs: seq<T>, ys: seq<T>)
    ensures FirstOccurrences(xs) <= FirstOccurrences(xs + ys)
  {
    if ys == [] {
      assert xs + ys == xs;
    } else {
      hide FirstOccurrences;
      var front, last := ys[..|ys|-1], ys[|ys|-1];
      FirstOccurrencesGrow(xs, front);
      assert xs + ys == xs + front + [last];
      FirstOccurrencesPush(xs + front, last);
    }
  }

  /** Lexicographic order by code point: `a < b` on two Python strings. */
  predicate Below(a: string, b: string) {
    b != [] && (a == [] || a[0] < b[0] || (a[0] == b[0] && Below(a[1..], b[1..])))
  }

  /** The first difference decides, and a proper prefix comes first. */
  lemma {:induction false} BelowExactly(a: string, b: string)
    ensures Below(a, b) <==>
      exists k: nat :: k <= |a| && k < |b| && a[..k] == b[..k] && (k == |a| || a[k] < b[k])
  {
    if b != [] && a != [] && a[0] == b[0] {
      BelowExactly(a[1..], b[1..]);
      if k: nat :| k <= |a[1..]| && k < |b[1..]| && a[1..][..k] == b[1..][..k] &&
                   (k == |a[1..]| || a[1..][k] < b[1..][k]) {
        assert a[..k + 1] == [a[0]] + a[1..][..k] && b[..k + 1] == [b[0]] + b[1..][..k];
      }
      if k: nat :| k <= |a| && k < |b| && a[..k] == b[..k] && (k == |a| || a[k] < b[k]) {
        assert k > 0 && a[1..][..k - 1] == a[..k][1..] == b[..k][1..] == b[1..][..k - 1];
      }
    } else if b != [] {
      assert a[..0] == b[..0];
      if k: nat :| k <= |a| && k < |b| && a[..k] == b[..k] && (k == |a| || a[k] < b[k]) {
        if k > 0 { assert a[..k][0] == b[..k][0]; }
      }
    }
  }

  lemma {:induction false} BelowIsTotal(a: string, b: string)
    ensures a != b ==> Below(a, b) || Below(b, a)
    ensures !(Below(a, b) && Below(b, a))
    ensures !Below(a, a)
  {
    if a != [] && b != [] {
      BelowIsTotal(a[1..], b[1..]);
      BelowIsTotal(a[1..], a[1..]);
      if a[0] == b[0] && a[1..] == b[1..] {
        assert a == [a[0]] + a[1..];
        assert b == [b[0]] + b[1..];
      }
    } else if a != [] {
      BelowIsTotal(a[1..], a[1..]);
    }
  }

  lemma {:induction false} BelowIsTransitive(a: string, b: string, c: string)
    requires Below(a, b) && Below(b, c)
    ensures Below(a, c)
  {
    if a != [] && a[0] == b[0] && b[0] == c[0] {
      BelowIsTransitive(a[1..], b[1..], c[1..]);
    }
  }

  ghost predicate StrictlySorted(xs: seq<string>) {
    forall i, j :: 0 <= i < j < |xs| ==> Below(xs[i], xs[j])
  }

  ghost predicate IsLeast(x: string, s: set<string>) {
    x in s && forall y :: y in s && y != x ==> Below(x, y)
  }

  lemma {:induction false} LeastExists(s: set<string>)
    requires s != {}
    ensures exists x :: IsLeast(x, s)
  {
    var y :| y in s;
    if s == {y} {
      assert IsLeast(y, s);
    } else {
      var rest := s - {y};
      LeastExists(rest);
      var x :| IsLeast(x, rest);
      BelowIsTotal(x, y);
      if Below(x, y) {
        assert IsLeast(x, s);
      } else {
        forall z | z in s && z != y ensures Below(y, z) {
          if z != x { BelowIsTransitive(y, x, z); }
        }
        assert IsLeast(y, s);
      }
    }
  }

  function Least(s: set<string>): (x: string)
    requires s != {}
    ensures IsLeast(x, s)
  {
    LeastExists(s);
    assert forall x, y | x in s && y in s && IsLeast(x, s) && IsLeast(y, s) :: x == y by {
      forall x, y | x in s && y in s && IsLeast(x, s) && IsLeast(y, s) ensures x == y {
        BelowIsTotal(x, y);
      }
    }
    var x :| x in s && forall y :: y in s && y != x ==> Below(x, y);
    x
  }

  /** Python's `sorted` on a set of strings. */
  function Sorted(s: set<string>): (xs: seq<string>)
    ensures StrictlySorted(xs)
    ensures Elements(xs) == s
    ensures NoDuplicates(xs)
  {
    if s == {} then []
    else
      var x := Least(s);
      var rest := Sorted(s - {x});
      assert forall y :: y in rest ==> y in s - {x} by {
        assert forall y :: y in rest ==> y in Elements(rest);
      }
      assert forall y :: y in s ==> y == x || y in Elements(rest);
      BelowIsTotal(x, x);
      [x] + rest
  }
}
