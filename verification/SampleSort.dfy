/** tsort.c without its threads: ranges, bounds, and why the sorted ranges side by side are
    the sorted array. Values are an ordered non-negative domain. */
module SampleSort {
  type Floats = seq<real>

  /** An entry of `medians`; the last one is INFINITY. */
  datatype Bound = Fin(x: real) | Infinity

  predicate AtLeast(x: real, b: Bound) { b.Fin? && x >= b.x }
  predicate Below(x: real, b: Bound) { b.Infinity? || x < b.x }
  predicate Leq(b: Bound, c: Bound) { c.Infinity? || (b.Fin? && b.x <= c.x) }

  predicate Sorted(s: Floats) { forall i, j :: 0 <= i < j < |s| ==> s[i] <= s[j] }

  predicate NonNegative(s: Floats) { forall i :: 0 <= i < |s| ==> s[i] >= 0.0 }

  /** What qsort leaves behind. Equal values are indistinguishable, so every sort agrees. */
  function Sort(s: Floats): (r: Floats)
    ensures |r| == |s|
  {
    if s == [] then [] else Insert(Sort(s[1..]), s[0])
  }

  function Insert(s: Floats, x: real): (r: Floats)
    ensures |r| == |s| + 1
  {
    if s == [] || x <= s[0] then [x] + s else [s[0]] + Insert(s[1..], x)
  }

  lemma SortedJoin(s: Floats, t: Floats)
    requires Sorted(s) && Sorted(t) && forall i, j :: 0 <= i < |s| && 0 <= j < |t| ==> s[i] <= t[j]
    ensures Sorted(s + t)
  {
  }

  lemma SortedTail(s: Floats)
    requires Sorted(s) && s != []
    ensures Sorted(s[1..]) && Sorted([s[0]]) && (forall k :: 0 <= k < |s| ==> s[0] <= s[k])
    ensures s == [s[0]] + s[1..]
  {
  }

  lemma MultisetJoin(s: Floats, t: Floats)
    ensures multiset(s + t) == multiset(s) + multiset(t)
  {
  }

  lemma {:induction false} InsertSorts(s: Floats, x: real)
    requires Sorted(s)
    ensures Sorted(Insert(s, x)) && multiset(Insert(s, x)) == multiset(s) + multiset{x}
  {
    assert Sorted([x]);
    hide Sorted;
    if s != [] {
      SortedTail(s);
      if x <= s[0] {
        SortedJoin([x], s);
      } else {
        InsertSorts(s[1..], x);
        var r := Insert(s[1..], x);
        MultisetJoin([s[0]], s[1..]);
        MultisetJoin([s[0]], r);
        forall k | 0 <= k < |r|
          ensures s[0] <= r[k]
        {
          assert r[k] in multiset(r);
          assert r[k] == x || r[k] in s[1..];
        }
        SortedJoin([s[0]], r);
      }
    }
  }

  lemma {:induction false} SortSorts(s: Floats)
    ensures Sorted(Sort(s)) && multiset(Sort(s)) == multiset(s)
  {
    if s != [] {
      SortSorts(s[1..]);
      InsertSorts(Sort(s[1..]), s[0]);
      assert s == [s[0]] + s[1..];
    }
  }

  /** The elements of [lo, hi), in order. */
  function Ranged(s: Floats, lo: Bound, hi: Bound): (r: Floats)
    ensures |r| <= |s|
    ensures forall k :: 0 <= k < |r| ==> AtLeast(r[k], lo) && Below(r[k], hi)
  {
    if s == [] then []
    else
      var x := s[|s| - 1];
      Ranged(s[..|s| - 1], lo, hi) + (if AtLeast(x, lo) && Below(x, hi) then [x] else [])
  }

  method InRange(fs: Floats, lo: Bound, hi: Bound) returns (range: Floats)
    ensures range == Ranged(fs, lo, hi)
  {
    range := [];
    for i := 0 to |fs|
      invariant range == Ranged(fs[..i], lo, hi)
    {
      assert fs[..i + 1][..i] == fs[..i];
      var test := fs[i];
      if AtLeast(test, lo) && Below(test, hi) {
        range := range + [test];
      }
    }
    assert fs[..|fs|] == fs;
  }

  lemma {:induction false} RangedAll(s: Floats)
    requires NonNegative(s)
    ensures Ranged(s, Fin(0.0), Infinity) == s
  {
    if s != [] {
      RangedAll(s[..|s| - 1]);
      assert s == s[..|s| - 1] + [s[|s| - 1]];
    }
  }

  lemma {:induction false} RangedNone(s: Floats, b: Bound)
    ensures Ranged(s, b, b) == []
  {
    if s != [] { RangedNone(s[..|s| - 1], b); }
  }

  /** Neighbouring ranges share nothing and miss nothing. */
  lemma {:induction false} RangedSplit(s: Floats, lo: Bound, mid: Bound, hi: Bound)
    requires Leq(lo, mid) && Leq(mid, hi)
    ensures multiset(Ranged(s, lo, mid)) + multiset(Ranged(s, mid, hi)) == multiset(Ranged(s, lo, hi))
  {
    if s != [] { RangedSplit(s[..|s| - 1], lo, mid, hi); }
  }

  // ----- the bounds

  /** T + 1 bounds in order, from 0 to INFINITY. */
  predicate Bounds(med: seq<Bound>, T: nat) {
    && |med| == T + 1 && T >= 1
    && med[0] == Fin(0.0) && med[T] == Infinity
    && (forall i :: 0 <= i < T ==> med[i].Fin?)
    && (forall i, j :: 0 <= i <= j <= T ==> Leq(med[i], med[j]))
  }

  method Sampled(fs: Floats, random: seq<nat>) returns (samples: Floats)
    requires fs != []
    ensures |samples| == |random| && forall k :: 0 <= k < |samples| ==> samples[k] in fs && samples[k] == fs[random[k] % |fs|]
  {
    samples := [];
    for i := 0 to |random|
      invariant |samples| == i && forall k :: 0 <= k < i ==> samples[k] in fs && samples[k] == fs[random[k] % |fs|]
    {
      var loc := random[i] % |fs|;
      samples := samples + [fs[loc]];
    }
  }

  /** The first half of sample_sort. `random` is the stream of results of random(). */
  method PickBounds(fs: Floats, T: nat, random: seq<nat>) returns (med: seq<Bound>, ghost sampled: Floats)
    requires T >= 1 && fs != [] && NonNegative(fs) && |random| == 3 * (T - 1)
    ensures Bounds(med, T)
    ensures |sampled| == 3 * (T - 1) && Sorted(sampled) && forall k :: 0 <= k < |sampled| ==> sampled[k] in fs
    ensures multiset(sampled) == multiset(seq(|random|, k requires 0 <= k < |random| => fs[random[k] % |fs|]))
    ensures forall t :: 0 < t < T ==> med[t] == Fin(sampled[3 * t - 2])
  {
    hide Sort;
    var n := 3 * (T - 1);
    var samples := Sampled(fs, random);
    var sorted := Sort(samples);
    sampled := sorted;
    assert samples == seq(|random|, k requires 0 <= k < |random| => fs[random[k] % |fs|]);
    SortKeeps(fs, samples);
    med := [Fin(0.0)];
    var i := 1;
    while i < n
      invariant i == 3 * |med| - 2 && |med| <= T && med[0] == Fin(0.0)
      invariant forall t :: 0 < t < |med| ==> med[t] == Fin(sorted[3 * t - 2])
    {
      med := med + [Fin(sorted[i])];
      i := i + 3;
    }
    med := med + [Infinity];
    BoundsHold(med, T, sorted);
  }

  lemma SortKeeps(fs: Floats, samples: Floats)
    requires NonNegative(fs) && forall k :: 0 <= k < |samples| ==> samples[k] in fs
    ensures Sorted(Sort(samples)) && multiset(Sort(samples)) == multiset(samples)
    ensures forall k :: 0 <= k < |samples| ==> Sort(samples)[k] in fs
    ensures NonNegative(Sort(samples))
  {
    SortSorts(samples);
    var sorted := Sort(samples);
    hide Sort;
    forall k | 0 <= k < |samples|
      ensures sorted[k] in fs && sorted[k] >= 0.0
    {
      assert sorted[k] in multiset(sorted);
      assert sorted[k] in samples;
    }
  }

  lemma BoundsHold(med: seq<Bound>, T: nat, sorted: Floats)
    requires T >= 1 && |med| == T + 1 && |sorted| == 3 * (T - 1) && Sorted(sorted) && NonNegative(sorted)
    requires med[0] == Fin(0.0) && med[T] == Infinity && forall t :: 0 < t < T ==> med[t] == Fin(sorted[3 * t - 2])
    ensures Bounds(med, T)
  {
  }

  // ----- what the threads put side by side

  /** Thread t's sorted range. */
  function Part(a: Floats, med: seq<Bound>, t: nat): Floats
    requires t + 1 < |med|
  {
    Sort(Ranged(a, med[t], med[t + 1]))
  }

  /** Where thread t's output starts: the sum of the sizes before it. */
  function Offset(a: Floats, med: seq<Bound>, t: nat): nat
    requires t < |med|
  {
    if t == 0 then 0 else Offset(a, med, t - 1) + |Part(a, med, t - 1)|
  }

  function Joined(a: Floats, med: seq<Bound>, t: nat): (r: Floats)
    requires t < |med|
    ensures |r| == Offset(a, med, t)
  {
    if t == 0 then [] else Joined(a, med, t - 1) + Part(a, med, t - 1)
  }

  lemma {:induction false} JoinedPermutes(a: Floats, med: seq<Bound>, T: nat, t: nat)
    requires Bounds(med, T) && t <= T
    ensures multiset(Joined(a, med, t)) == multiset(Ranged(a, med[0], med[t]))
  {
    hide Ranged, Part, Sorted;
    if t == 0 {
      RangedNone(a, med[0]);
    } else {
      JoinedPermutes(a, med, T, t - 1);
      RangedSplit(a, med[0], med[t - 1], med[t]);
      PartRange(a, med, t - 1);
      MultisetJoin(Joined(a, med, t - 1), Part(a, med, t - 1));
    }
  }

  predicate AllBelow(s: Floats, b: Bound) { forall k :: 0 <= k < |s| ==> Below(s[k], b) }

  lemma {:induction false} JoinedInOrder(a: Floats, med: seq<Bound>, T: nat, t: nat)
    requires Bounds(med, T) && t <= T
    ensures Sorted(Joined(a, med, t)) && AllBelow(Joined(a, med, t), med[t])
  {
    hide Ranged, Part;
    if t > 0 {
      JoinedInOrder(a, med, T, t - 1);
      PartRange(a, med, t - 1);
      assert Leq(med[t - 1], med[t]);
      SortedJoin(Joined(a, med, t - 1), Part(a, med, t - 1));
    }
  }

  lemma PartRange(a: Floats, med: seq<Bound>, t: nat)
    requires t + 1 < |med|
    ensures Sorted(Part(a, med, t)) && multiset(Part(a, med, t)) == multiset(Ranged(a, med[t], med[t + 1]))
    ensures forall k :: 0 <= k < |Part(a, med, t)| ==>
              AtLeast(Part(a, med, t)[k], med[t]) && Below(Part(a, med, t)[k], med[t + 1])
  {
    SortSorts(Ranged(a, med[t], med[t + 1]));
    var p, r := Part(a, med, t), Ranged(a, med[t], med[t + 1]);
    forall k | 0 <= k < |p|
      ensures AtLeast(p[k], med[t]) && Below(p[k], med[t + 1])
    {
      assert p[k] in multiset(p);
      assert p[k] in r;
    }
  }

  /** The outputs fit the array exactly. */
  lemma JoinedSorts(a: Floats, med: seq<Bound>, T: nat)
    requires Bounds(med, T) && NonNegative(a)
    ensures Sorted(Joined(a, med, T)) && multiset(Joined(a, med, T)) == multiset(a)
    ensures Offset(a, med, T) == |a|
  {
    JoinedPermutes(a, med, T, T);
    JoinedInOrder(a, med, T, T);
    RangedAll(a);
    assert |multiset(Joined(a, med, T))| == |Joined(a, med, T)|;
    assert |multiset(a)| == |a|;
  }

  /** Outputs of different threads do not overlap. */
  lemma {:induction false} OffsetsApart(a: Floats, med: seq<Bound>, t: nat, u: nat)
    requires t < u < |med|
    ensures Offset(a, med, t) + |Part(a, med, t)| <= Offset(a, med, u)
  {
    hide Part;
    if t + 1 < u { OffsetsApart(a, med, t, u - 1); }
  }

  /** data holds element j of thread t's output at its place. */
  predicate PlacedAt(a: Floats, med: seq<Bound>, data: Floats, t: nat, j: nat)
    requires t + 1 < |med|
  {
    var k := Offset(a, med, t) + j;
    j < |Part(a, med, t)| && k < |data| && data[k] == Part(a, med, t)[j]
  }

  /** An array that holds every thread's output at its place is the sorted input. */
  lemma {:induction false} PlacedIsJoined(a: Floats, med: seq<Bound>, data: Floats, t: nat)
    requires t < |med| && Offset(a, med, t) <= |data|
    requires forall u, j :: 0 <= u < t && 0 <= j < |Part(a, med, u)| ==> PlacedAt(a, med, data, u, j)
    ensures data[..Offset(a, med, t)] == Joined(a, med, t)
  {
    hide Part;
    if t > 0 {
      PlacedIsJoined(a, med, data, t - 1);
      var m, n := Offset(a, med, t - 1), Offset(a, med, t);
      assert data[..n] == data[..m] + data[m..n];
      var p := Part(a, med, t - 1);
      forall j | 0 <= j < |p|
        ensures data[m..n][j] == p[j]
      {
        assert PlacedAt(a, med, data, t - 1, j);
      }
      assert data[m..n] == p;
    }
  }
}
