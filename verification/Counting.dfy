/** How many elements sequences and sets have. */
module Counting {
  function Elements<T(!new)>(xs: seq<T>): (r: set<T>)
    ensures forall x :: x in r <==> x in xs
  {
    set x | x in xs
  }

  lemma {:induction false} CountAtMost<T(!new)>(xs: seq<T>)
    ensures |Elements(xs)| <= |xs|
  {
    if xs != [] {
      var ys := xs[..|xs| - 1];
      CountAtMost(ys);
      assert Elements(xs) == Elements(ys) + {xs[|xs| - 1]};
    }
  }

  lemma {:induction false} DistinctCount<T(!new)>(xs: seq<T>)
    requires forall i, j :: 0 <= i < j < |xs| ==> xs[i] != xs[j]
    ensures |Elements(xs)| == |xs|
  {
    if xs != [] {
      var ys := xs[..|xs| - 1];
      DistinctCount(ys);
      assert Elements(xs) == Elements(ys) + {xs[|xs| - 1]};
    }
  }

  lemma CardSubset<T>(a: set<T>, b: set<T>)
    requires a <= b
    ensures |a| <= |b|
  {
    assert b == a + (b - a);
  }

  lemma {:induction false} FewBelow(s: set<nat>, n: nat)
    requires forall x :: x in s ==> x < n
    ensures |s| <= n
  {
    if n > 0 { FewBelow(s - {n - 1}, n - 1); }
  }
}
