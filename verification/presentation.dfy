/** Chart decimation and cursor lookup over telemetry samples. */
module Presentation {
  import opened Support

  datatype Sample = Null | Num(number: real) | Flag(flag: bool)

  /** JavaScript's Number() on the samples a chart holds. */
  function Number(sample: Sample): real
    requires !sample.Null?
  {
    if sample.Num? then sample.number else if sample.flag then 1.0 else 0.0
  }

  /** Numbers count as themselves, true as one and false as none. */
  lemma NumbersAre(x: real)
    ensures Number(Num(x)) == x && Number(Flag(true)) == 1.0 && Number(Flag(false)) == 0.0
  {
  }

  predicate Indices(kept: seq<int>, n: nat) {
    Ascending(kept) && forall m :: 0 <= m < |kept| ==> 0 <= kept[m] < n
  }

  predicate KeepsEnds(kept: seq<int>, n: nat) {
    n > 0 ==> 0 in kept && n - 1 in kept
  }

  /** The step function drawn from the kept samples is the original one. */
  ghost predicate Lossless(values: seq<Sample>, kept: seq<int>)
    requires Indices(kept, |values|)
  {
    forall m, i :: 0 <= m < |kept| && kept[m] <= i < (if m + 1 < |kept| then kept[m + 1] else |values|) ==>
      values[kept[m]] == values[i]
  }

  predicate BesideNull(values: seq<Sample>, i: nat)
    requires i < |values|
  {
    values[i].Null? || (i > 0 && values[i - 1].Null?)
  }

  predicate KeepsNulls(values: seq<Sample>, kept: set<int>, upTo: nat)
    requires upTo <= |values|
  {
    forall i :: 0 <= i < upTo && BesideNull(values, i) ==> i in kept
  }

  /** Position lo holds the least value of values[from..to], if there is any value at all. */
  predicate IsLeast(values: seq<Sample>, from: nat, to: nat, lo: int)
    requires from <= to <= |values|
  {
    from <= lo < to &&
    (values[lo].Null? ==> lo == from) &&
    (forall i :: from <= i < lo && !values[i].Null? ==> Number(values[lo]) < Number(values[i])) &&
    forall i :: from <= i < to && !values[i].Null? ==> !values[lo].Null? && Number(values[lo]) <= Number(values[i])
  }

  predicate IsGreatest(values: seq<Sample>, from: nat, to: nat, hi: int)
    requires from <= to <= |values|
  {
    from <= hi < to &&
    (values[hi].Null? ==> hi == from) &&
    (forall i :: from <= i < hi && !values[i].Null? ==> Number(values[i]) < Number(values[hi])) &&
    forall i :: from <= i < to && !values[i].Null? ==> !values[hi].Null? && Number(values[hi]) >= Number(values[i])
  }

  function Min(a: int, b: int): int {
    if a < b then a else b
  }

  function Stride(n: nat, budget: nat): nat {
    if budget == 0 then n else (4 * n + budget - 1) / budget
  }

  /** The bucket width: the least one at which a budget of four points a bucket covers the trace. */
  lemma StrideIsLeast(n: nat, budget: nat, width: nat)
    requires n > 0
    ensures budget > 0 ==> Stride(n, budget) > 0 && budget * Stride(n, budget) >= 4 * n
    ensures budget > 0 && budget * width >= 4 * n ==> width >= Stride(n, budget)
    ensures budget == 0 ==> Stride(n, budget) == n
  {
    if budget > 0 {
      var stride, total := Stride(n, budget), 4 * n + budget - 1;
      assert budget * stride == total - total % budget;
      if width < stride {
        assert budget * width <= budget * (stride - 1) by { Grows(budget, width, stride - 1); }
        assert budget * (stride - 1) == budget * stride - budget;
      }
    }
  }

  lemma Grows(factor: nat, a: int, b: int)
    requires a <= b
    ensures factor * a <= factor * b
  {
    assert factor * (b - a) >= 0;
  }

  function BucketStart(b: nat, stride: nat): nat {
    b * stride
  }

  /** Both extremes of bucket b are kept. */
  ghost predicate BucketKept(values: seq<Sample>, kept: set<int>, b: nat, stride: nat) {
    var from := BucketStart(b, stride);
    from < |values| && stride > 0 ==>
      exists lo, hi :: lo in kept && hi in kept &&
        IsLeast(values, from, Min(|values|, from + stride), lo) && IsGreatest(values, from, Min(|values|, from + stride), hi)
  }

  function CeilQuarter(budget: nat): nat {
    (budget + 3) / 4
  }

  lemma FewBuckets(n: nat, budget: nat, b: nat)
    requires 0 < budget < n && b > 0 && BucketStart(b - 1, Stride(n, budget)) < n
    ensures b <= CeilQuarter(budget)
  {
    var stride := Stride(n, budget);
    assert budget * stride >= 4 * n by {
      assert budget * stride == (4 * n + budget - 1) - (4 * n + budget - 1) % budget;
    }
    var before := BucketStart(b - 1, stride);
    assert 4 * before == (4 * (b - 1)) * stride;
    CancelFactor(4 * (b - 1), budget, stride);
  }

  lemma CancelFactor(x: int, y: int, factor: nat)
    requires x * factor < y * factor
    ensures x < y
  {
    assert (y - x) * factor > 0;
  }

  /** The inner loop: extremes and null neighbours of one bucket. */
  method ScanBucket(values: seq<Sample>, start: nat, end: nat, kept: set<int>)
    returns (min: nat, max: nat, after: set<int>)
    requires start < end <= |values| && KeepsNulls(values, kept, start)
    ensures IsLeast(values, start, end, min) && IsGreatest(values, start, end, max)
    ensures KeepsNulls(values, after, end) && kept <= after
    ensures forall i :: i in after && i !in kept ==> start <= i < end && BesideNull(values, i)
  {
    min, max, after := start, start, kept;
    var i := start;
    while i < end
      invariant start <= i <= end && start <= min < end && start <= max < end
      invariant i == start ==> min == max == start
      invariant i > start ==> IsLeast(values, start, i, min) && IsGreatest(values, start, i, max)
      invariant KeepsNulls(values, after, i) && kept <= after
      invariant forall j :: j in after && j !in kept ==> start <= j < end && BesideNull(values, j)
    {
      if values[i].Null? || (i > 0 && values[i - 1].Null?) {
        after := after + {i};
      }
      if !values[i].Null? && (values[min].Null? || Number(values[i]) < Number(values[min])) {
        min := i;
      }
      if !values[i].Null? && (values[max].Null? || Number(values[i]) > Number(values[max])) {
        max := i;
      }
      i := i + 1;
    }
  }

  lemma GrowBucketKept(values: seq<Sample>, kept: set<int>, more: set<int>, b: nat, stride: nat)
    requires BucketKept(values, kept, b, stride) && kept <= more
    ensures BucketKept(values, more, b, stride)
  {
  }

  /** One pass of the outer loop: four corners and the null neighbours of one bucket. */
  method KeepBucket(values: seq<Sample>, b: nat, stride: nat, kept: set<int>)
    returns (after: set<int>, ghost corners: set<int>)
    requires stride > 0 && BucketStart(b, stride) < |values| && KeepsNulls(values, kept, BucketStart(b, stride))
    ensures kept <= after && corners <= after && |corners| <= 4
    ensures BucketStart(b, stride) in corners && Min(|values| - 1, BucketStart(b, stride) + stride - 1) in corners
    ensures forall i :: i in after && i !in kept ==> 0 <= i < |values| && (i in corners || BesideNull(values, i))
    ensures forall i :: i in corners ==> 0 <= i < |values|
    ensures KeepsNulls(values, after, Min(|values|, BucketStart(b, stride) + stride))
    ensures BucketKept(values, after, b, stride)
  {
    var start := BucketStart(b, stride);
    var end := Min(|values|, start + stride);
    var last := Min(|values| - 1, start + stride - 1);
    var min, max, scanned := ScanBucket(values, start, end, kept);
    FourMore({}, start, min, max, last);
    corners := {} + {start, min, max, last};
    after := scanned + {start} + {min} + {max} + {last};
  }

  /** Everything kept after the first `buckets` buckets. */
  ghost predicate KeptSoFar(values: seq<Sample>, stride: nat, buckets: nat, kept: set<int>, corners: set<int>) {
    && corners <= kept && |corners| <= 4 * buckets
    && |values| > 0 && 0 in kept && |values| - 1 in kept
    && (forall i :: i in kept ==> 0 <= i < |values| && (i in corners || i == 0 || i == |values| - 1 || BesideNull(values, i)))
    && KeepsNulls(values, kept, Min(|values|, BucketStart(buckets, stride)))
    && (forall b :: 0 <= b < buckets ==> BucketKept(values, kept, b, stride))
    && (buckets > 0 ==> 0 in corners && BucketStart(buckets - 1, stride) < |values|)
    && (BucketStart(buckets, stride) >= |values| ==> |values| - 1 in corners)
  }

  lemma UnionSize(s: set<int>, t: set<int>)
    ensures |s + t| <= |s| + |t|
  {
    assert s + t == s + (t - s);
    assert |t - s| <= |t| by {
      assert t == (t - s) + (t * s);
    }
  }

  lemma BucketAdded(values: seq<Sample>, stride: nat, b: nat, kept: set<int>, corners: set<int>,
                    after: set<int>, found: set<int>)
    requires stride > 0 && KeptSoFar(values, stride, b, kept, corners) && BucketStart(b, stride) < |values|
    requires kept <= after && found <= after && |found| <= 4
    requires BucketStart(b, stride) in found && Min(|values| - 1, BucketStart(b, stride) + stride - 1) in found
    requires forall i :: i in after && i !in kept ==> 0 <= i < |values| && (i in found || BesideNull(values, i))
    requires KeepsNulls(values, after, Min(|values|, BucketStart(b, stride) + stride))
    requires BucketKept(values, after, b, stride)
    ensures KeptSoFar(values, stride, b + 1, after, corners + found)
  {
    hide BucketKept, IsLeast, IsGreatest;
    UnionSize(corners, found);
    NextStart(b, stride);
    FirstStart(stride);
    hide BucketStart;
    forall c | 0 <= c < b
      ensures BucketKept(values, after, c, stride)
    {
      GrowBucketKept(values, kept, after, c, stride);
    }
  }

  /** The bucketing loop of the numeric branch, as the set it accumulates. */
  method KeepBuckets(values: seq<Sample>, stride: nat) returns (kept: set<int>, buckets: nat)
    requires |values| > 0 && stride > 0
    ensures 0 in kept && |values| - 1 in kept && forall i :: i in kept ==> 0 <= i < |values|
    ensures KeepsNulls(values, kept, |values|)
    ensures forall b :: BucketKept(values, kept, b, stride)
    ensures buckets > 0 && BucketStart(buckets - 1, stride) < |values|
    ensures |NotBesideNull(values, kept)| <= 4 * buckets
  {
    kept := {0, |values| - 1};
    buckets := 0;
    ghost var corners: set<int> := {};
    var start := 0;
    while start < |values|
      invariant start == BucketStart(buckets, stride)
      invariant KeptSoFar(values, stride, buckets, kept, corners)
      decreases |values| - start
    {
      var after, found := KeepBucket(values, buckets, stride, kept);
      BucketAdded(values, stride, buckets, kept, corners, after, found);
      NextStart(buckets, stride);
      kept, corners := after, corners + found;
      start := start + stride;
      buckets := buckets + 1;
    }
    assert BucketStart(0, stride) == 0 && buckets > 0;
    forall b: nat
      ensures BucketKept(values, kept, b, stride)
    {
      if b >= buckets {
        StartsGrow(buckets, b, stride);
      }
    }
    SubsetSize(NotBesideNull(values, kept), corners);
  }

  /** The kept indices that are neither a null's nor follow one. */
  function NotBesideNull(values: seq<Sample>, kept: set<int>): (besides: set<int>) {
    set i | i in kept && !(0 <= i < |values| && BesideNull(values, i))
  }

  lemma FirstStart(stride: nat)
    ensures BucketStart(0, stride) == 0
  {
  }

  lemma NextStart(b: nat, stride: nat)
    ensures BucketStart(b + 1, stride) == BucketStart(b, stride) + stride
  {
  }

  lemma StartsGrow(a: nat, b: nat, stride: nat)
    requires a <= b
    ensures BucketStart(a, stride) <= BucketStart(b, stride)
  {
    assert b * stride == a * stride + (b - a) * stride;
  }

  lemma FourMore(s: set<int>, a: int, b: int, c: int, d: int)
    ensures |s + {a, b, c, d}| <= |s| + 4
  {
    assert s + {a, b, c, d} == s + {a} + {b} + {c} + {d};
  }

  /** The first and last index, and both sides of every change. */
  predicate EndOrChange(values: seq<Sample>, i: int)
    requires 0 <= i < |values|
  {
    i == 0 || i == |values| - 1 || values[i] != values[i - 1] || values[i + 1] != values[i]
  }

  /** The categorical branch: both sides of every change, and nothing else but the ends. */
  method KeepChanges(values: seq<Sample>) returns (kept: set<int>)
    requires |values| > 0
    ensures forall i :: i in kept ==> 0 <= i < |values| && EndOrChange(values, i)
    ensures 0 in kept && |values| - 1 in kept && forall i :: i in kept ==> 0 <= i < |values|
    ensures forall i :: 1 <= i < |values| && values[i] != values[i - 1] ==> i - 1 in kept && i in kept
  {
    kept := {0, |values| - 1};
    for i := 1 to |values|
      invariant 0 in kept && |values| - 1 in kept && forall j :: j in kept ==> 0 <= j < |values|
      invariant forall j :: 1 <= j < i && values[j] != values[j - 1] ==> j - 1 in kept && j in kept
      invariant forall j :: j in kept ==> EndOrChange(values, j)
    {
      if values[i] != values[i - 1] {
        kept := kept + {i - 1} + {i};
      }
    }
  }

  lemma {:induction false} ConstantBetween(values: seq<Sample>, from: nat, to: nat)
    requires from <= to < |values|
    requires forall i :: from < i <= to ==> values[i] == values[i - 1]
    ensures values[from] == values[to]
  {
    if from < to {
      ConstantBetween(values, from, to - 1);
    }
  }

  lemma ChangesKeptIsLossless(values: seq<Sample>, kept: seq<int>)
    requires Indices(kept, |values|)
    requires forall i :: 1 <= i < |values| && values[i] != values[i - 1] ==> i in kept
    ensures Lossless(values, kept)
  {
    forall m, i | 0 <= m < |kept| && kept[m] <= i < (if m + 1 < |kept| then kept[m + 1] else |values|)
      ensures values[kept[m]] == values[i]
    {
      forall j | kept[m] < j <= i
        ensures values[j] == values[j - 1]
      {
        assert forall k :: 0 <= k < |kept| ==> kept[k] <= kept[m] || kept[k] > i;
      }
      ConstantBetween(values, kept[m], i);
    }
  }

  function MembersOf(kept: seq<int>): set<int> {
    set m | 0 <= m < |kept| :: kept[m]
  }

  method CategoricalIndices(values: seq<Sample>) returns (kept: seq<int>)
    requires |values| > 0
    ensures Indices(kept, |values|) && KeepsEnds(kept, |values|) && Lossless(values, kept)
    ensures forall m :: 0 <= m < |kept| ==> EndOrChange(values, kept[m])
  {
    var members := KeepChanges(values);
    kept := SortedMembers(members);
    ChangesKeptIsLossless(values, kept);
  }

  /** Keeps null neighbours and every bucket's extremes. */
  ghost predicate Faithful(values: seq<Sample>, kept: set<int>, stride: nat) {
    KeepsNulls(values, kept, |values|) && forall b: nat :: BucketKept(values, kept, b, stride)
  }

  method NumericIndices(values: seq<Sample>, budget: nat) returns (kept: seq<int>)
    requires |values| > budget
    ensures Indices(kept, |values|) && KeepsEnds(kept, |values|)
    ensures Faithful(values, MembersOf(kept), Stride(|values|, budget))
    ensures budget > 0 ==> |NotBesideNull(values, MembersOf(kept))| <= 4 * ((budget + 3) / 4)
    ensures budget > 0 && (forall i :: 0 <= i < |values| ==> !values[i].Null?) ==> |kept| <= 4 * ((budget + 3) / 4)
  {
    var stride := Stride(|values|, budget);
    assert stride >= 1;
    var members, buckets := KeepBuckets(values, stride);
    kept := SortedMembers(members);
    forall i
      ensures i in MembersOf(kept) <==> i in members
    {
      assert i in members <==> i in kept;
    }
    assert MembersOf(kept) == members;
    if budget > 0 {
      FewBuckets(|values|, budget, buckets);
    }
    if forall i :: 0 <= i < |values| ==> !values[i].Null? {
      assert NotBesideNull(values, members) == members;
    }
  }

  lemma NullsKept(values: seq<Sample>, kept: seq<int>)
    requires KeepsNulls(values, MembersOf(kept), |values|)
    ensures forall i :: 0 <= i < |values| && values[i].Null? ==> i in kept && (i + 1 < |values| ==> i + 1 in kept)
  {
    forall i | 0 <= i < |values| && values[i].Null?
      ensures i in kept && (i + 1 < |values| ==> i + 1 in kept)
    {
      assert BesideNull(values, i) && i in MembersOf(kept);
      if i + 1 < |values| {
        assert BesideNull(values, i + 1) && i + 1 in MembersOf(kept);
      }
    }
  }

  /** Among the kept indices of a window are one of its least value and one of its greatest. */
  ghost predicate ExtremesKept(values: seq<Sample>, kept: seq<int>, from: int, to: int)
    requires 0 <= from <= to <= |values|
  {
    (exists i :: from <= i < to && !values[i].Null?) ==>
      exists lo, hi :: lo in kept && hi in kept && from <= lo < to && from <= hi < to &&
        !values[lo].Null? && !values[hi].Null? &&
        forall i :: from <= i < to && !values[i].Null? ==> Number(values[lo]) <= Number(values[i]) <= Number(values[hi])
  }

  /** Among the kept indices of the window of this width, cut at the end, are its extremes. */
  ghost predicate WindowKept(values: seq<Sample>, kept: seq<int>, from: nat, width: nat)
    requires from < |values|
  {
    ExtremesKept(values, kept, from, if from + width < |values| then from + width else |values|)
  }

  lemma KeptExtremes(values: seq<Sample>, kept: set<int>, b: nat, width: nat) returns (lo: int, hi: int)
    requires BucketKept(values, kept, b, width) && width > 0 && BucketStart(b, width) < |values|
    ensures var from := BucketStart(b, width); var to := Min(|values|, from + width);
            lo in kept && hi in kept && IsLeast(values, from, to, lo) && IsGreatest(values, from, to, hi)
  {
    hide BucketStart, IsLeast, IsGreatest;
    var from := BucketStart(b, width);
    var to := Min(|values|, from + width);
    lo, hi :| lo in kept && hi in kept && IsLeast(values, from, to, lo) && IsGreatest(values, from, to, hi);
  }

  lemma WindowExtremes(values: seq<Sample>, kept: seq<int>, width: nat, b: nat)
    requires Faithful(values, MembersOf(kept), width) && width > 0 && BucketStart(b, width) < |values|
    ensures WindowKept(values, kept, BucketStart(b, width), width)
  {
    hide BucketStart, IsLeast, IsGreatest, KeepsNulls, ExtremesKept, MembersOf;
    var from := BucketStart(b, width);
    var lo, hi := KeptExtremes(values, MembersOf(kept), b, width);
    ExtremesAt(values, kept, from, Min(|values|, from + width), lo, hi);
  }

  /** Bucket b begins b widths into the trace. */
  lemma BucketsFollowOn(b: nat, width: nat)
    ensures BucketStart(b, width) == b * width && BucketStart(0, width) == 0
  {
  }

  lemma ExtremesAt(values: seq<Sample>, kept: seq<int>, from: nat, to: nat, lo: int, hi: int)
    requires from <= to <= |values| && lo in MembersOf(kept) && hi in MembersOf(kept)
    requires IsLeast(values, from, to, lo) && IsGreatest(values, from, to, hi)
    ensures ExtremesKept(values, kept, from, to)
  {
    if i :| from <= i < to && !values[i].Null? {
      assert lo in kept && hi in kept;
    }
  }

  method PresentationIndices(values: seq<Sample>, budget: nat, categorical: bool) returns (kept: seq<int>)
    ensures Indices(kept, |values|) && KeepsEnds(kept, |values|)
    ensures |values| <= budget ==> |kept| == |values|
    ensures categorical ==> Lossless(values, kept)
    ensures |values| <= budget ==> forall i :: 0 <= i < |values| ==> kept[i] == i
    ensures categorical && |values| > budget ==> forall m :: 0 <= m < |kept| ==> EndOrChange(values, kept[m])
    ensures !categorical && |values| > budget ==> Faithful(values, MembersOf(kept), Stride(|values|, budget))
    ensures !categorical && |values| > budget ==>
              forall b: nat, width :: width == Stride(|values|, budget) && BucketStart(b, width) < |values| ==>
                WindowKept(values, kept, BucketStart(b, width), width)
    ensures !categorical && |values| > budget ==>
              forall i :: 0 <= i < |values| && values[i].Null? ==> i in kept && (i + 1 < |values| ==> i + 1 in kept)
    ensures !categorical && |values| > budget > 0 ==> |NotBesideNull(values, MembersOf(kept))| <= 4 * ((budget + 3) / 4)
    ensures !categorical && |values| > budget > 0 && (forall i :: 0 <= i < |values| ==> !values[i].Null?) ==>
              |kept| <= 4 * ((budget + 3) / 4)
  {
    if |values| <= budget {
      kept := seq(|values|, i => i);
      assert |values| > 0 ==> kept[0] == 0 && kept[|values| - 1] == |values| - 1;
    } else if categorical {
      kept := CategoricalIndices(values);
    } else {
      kept := NumericIndices(values, budget);
      assert KeepsNulls(values, MembersOf(kept), |values|);
      hide BucketStart, Stride, Faithful, WindowKept, NotBesideNull, KeepsNulls;
      forall b: nat, width | width == Stride(|values|, budget) && BucketStart(b, width) < |values|
        ensures WindowKept(values, kept, BucketStart(b, width), width)
      {
        StrideIsLeast(|values|, budget, 0);
        WindowExtremes(values, kept, width, b);
      }
      NullsKept(values, kept);
    }
  }

  // ----- Consequences -----

  /** Every null survives, so no drawn segment bridges a gap. */
  lemma NoSegmentBridgesGap(values: seq<Sample>, kept: seq<int>, m: nat, i: nat)
    requires Indices(kept, |values|) && KeepsNulls(values, MembersOf(kept), |values|)
    requires m + 1 < |kept| && kept[m] < i < kept[m + 1]
    ensures !values[i].Null?
  {
    assert forall k :: 0 <= k < |kept| ==> kept[k] <= kept[m] || kept[k] >= kept[m + 1];
    assert i !in MembersOf(kept) && !BesideNull(values, i);
  }

  /** Keeping every bucket's extremes keeps the extremes of the whole trace. */
  lemma GlobalExtremesKept(values: seq<Sample>, kept: set<int>, stride: nat, i: nat)
    requires stride > 0 && i < |values| && !values[i].Null?
    requires forall b: nat :: BucketKept(values, kept, b, stride)
    ensures exists lo :: lo in kept && 0 <= lo < |values| && !values[lo].Null? && Number(values[lo]) <= Number(values[i])
    ensures exists hi :: hi in kept && 0 <= hi < |values| && !values[hi].Null? && Number(values[hi]) >= Number(values[i])
  {
    var b := i / stride;
    assert BucketStart(b, stride) <= i < BucketStart(b, stride) + stride by {
      assert i == b * stride + i % stride;
    }
    assert BucketKept(values, kept, b, stride);
  }

  // ----- Cursor lookup -----

  predicate Nondecreasing(distance: seq<real>) {
    forall i, j :: 0 <= i < j < |distance| ==> distance[i] <= distance[j]
  }

  function Gap(a: real, b: real): real {
    if a < b then b - a else a - b
  }

  /** Binary search for the sample nearest to the cursor. */
  method NearestIndex(distance: seq<real>, target: real) returns (index: nat)
    ensures distance == [] ==> index == 0
    ensures distance != [] ==> index < |distance|
    ensures distance != [] && Nondecreasing(distance) ==>
              forall j :: 0 <= j < |distance| ==> Gap(distance[index], target) <= Gap(distance[j], target)
    ensures distance != [] && Nondecreasing(distance) && distance[index] < target ==>
              forall j :: 0 <= j < |distance| && distance[j] >= target ==>
                Gap(distance[index], target) < Gap(distance[j], target)
  {
    var lo, hi := 0, |distance| - 1;
    while lo < hi
      invariant 0 <= lo && (distance == [] ==> lo == 0) && (distance != [] ==> lo <= hi < |distance|)
      invariant Nondecreasing(distance) ==> forall j :: 0 <= j < lo ==> distance[j] < target
      invariant Nondecreasing(distance) ==> forall j :: 0 <= hi < j < |distance| ==> distance[j] >= distance[hi] >= target
      decreases hi - lo
    {
      var mid := (lo + hi) / 2;
      if distance[mid] < target {
        lo := mid + 1;
      } else {
        hi := mid;
      }
    }
    if lo > 0 && Gap(distance[lo - 1], target) < Gap(distance[lo], target) {
      index := lo - 1;
    } else {
      index := lo;
    }
  }
}
