/** The median and the weighted mean, over exact reals; None stands for NaN or an infinite result. */
module OrderStatistics {
  import opened Options

  function Insert(x: real, s: seq<real>): seq<real> {
    if s == [] || x <= s[0] then [x] + s else [s[0]] + Insert(x, s[1..])
  }

  function Sort(s: seq<real>): seq<real> {
    if s == [] then [] else Insert(s[0], Sort(s[1..]))
  }

  ghost predicate Sorted(s: seq<real>) {
    forall i, j :: 0 <= i < j < |s| ==> s[i] <= s[j]
  }

  /** The middle of a sorted list. */
  function Middle(nums: seq<real>): real
    requires nums != []
  {
    var mid := |nums| / 2;
    if |nums| % 2 != 0 then nums[mid] else (nums[mid - 1] + nums[mid]) / 2.0
  }

  /** Sorts a copy of the list and takes its middle. */
  function Median(values: seq<real>): Option<real> {
    if values == [] then None
    else
      SortedLength(values);
      Some(Middle(Sort(values)))
  }

  lemma {:induction false} SortedLength(s: seq<real>)
    ensures |Sort(s)| == |s|
  {
    if s != [] {
      SortedLength(s[1..]);
      InsertKeeps(s[0], Sort(s[1..]));
    }
  }

  lemma {:induction false} InsertKeeps(x: real, s: seq<real>)
    ensures |Insert(x, s)| == |s| + 1
    ensures multiset(Insert(x, s)) == multiset(s) + multiset{x}
  {
    if s == [] || x <= s[0] {
    } else {
      assert s == [s[0]] + s[1..];
      InsertKeeps(x, s[1..]);
    }
  }

  lemma {:induction false} InsertMembers(x: real, s: seq<real>, y: real)
    ensures y in Insert(x, s) ==> y == x || y in s
  {
    if s == [] || x <= s[0] {
    } else {
      InsertMembers(x, s[1..], y);
    }
  }

  lemma {:induction false} InsertSorts(x: real, s: seq<real>)
    requires Sorted(s)
    ensures Sorted(Insert(x, s))
  {
    if s == [] || x <= s[0] {
    } else {
      InsertSorts(x, s[1..]);
      var rest := Insert(x, s[1..]);
      forall i | 0 <= i < |rest| ensures s[0] <= rest[i] {
        InsertMembers(x, s[1..], rest[i]);
      }
    }
  }

  lemma {:induction false} SortSorts(s: seq<real>)
    ensures Sorted(Sort(s)) && multiset(Sort(s)) == multiset(s)
  {
    if s != [] {
      assert s == [s[0]] + s[1..];
      SortSorts(s[1..]);
      InsertKeeps(s[0], Sort(s[1..]));
      InsertSorts(s[0], Sort(s[1..]));
    }
  }

  /** Whatever sorting algorithm is used, the sorted list is the same. */
  lemma {:induction false} SortedIsUnique(a: seq<real>, b: seq<real>)
    requires Sorted(a) && Sorted(b) && multiset(a) == multiset(b)
    ensures a == b
    decreases |a|
  {
    assert |multiset(a)| == |a| && |multiset(b)| == |b|;
    if a != [] {
      assert a[0] in multiset(b) && b[0] in multiset(a);
      assert a[0] == b[0];
      assert a == [a[0]] + a[1..] && b == [b[0]] + b[1..];
      assert multiset(a[1..]) == multiset(a) - multiset{a[0]};
      assert multiset(b[1..]) == multiset(b) - multiset{b[0]};
      SortedIsUnique(a[1..], b[1..]);
    }
  }

  /** The median does not depend on the order of the list. */
  lemma MedianOfPermutation(xs: seq<real>, ys: seq<real>)
    requires multiset(xs) == multiset(ys)
    ensures Median(xs) == Median(ys)
  {
    SortSorts(xs);
    SortSorts(ys);
    SortedIsUnique(Sort(xs), Sort(ys));
    SortedLength(xs);
    SortedLength(ys);
  }

  /** Exactly the empty list has no median. */
  lemma MedianExistsIff(values: seq<real>)
    ensures Median(values).Some? <==> values != []
  {
  }

  function CountAtMost(s: seq<real>, m: real): nat {
    if s == [] then 0 else (if s[0] <= m then 1 else 0) + CountAtMost(s[1..], m)
  }

  function CountAtLeast(s: seq<real>, m: real): nat {
    if s == [] then 0 else (if s[0] >= m then 1 else 0) + CountAtLeast(s[1..], m)
  }

  lemma {:induction false} InsertCounts(x: real, s: seq<real>, m: real)
    ensures CountAtMost(Insert(x, s), m) == CountAtMost(s, m) + if x <= m then 1 else 0
    ensures CountAtLeast(Insert(x, s), m) == CountAtLeast(s, m) + if x >= m then 1 else 0
  {
    if s == [] || x <= s[0] {
      assert ([x] + s)[1..] == s;
    } else {
      InsertCounts(x, s[1..], m);
      assert ([s[0]] + Insert(x, s[1..]))[1..] == Insert(x, s[1..]);
    }
  }

  lemma {:induction false} SortCounts(s: seq<real>, m: real)
    ensures CountAtMost(Sort(s), m) == CountAtMost(s, m)
    ensures CountAtLeast(Sort(s), m) == CountAtLeast(s, m)
  {
    if s != [] {
      SortCounts(s[1..], m);
      InsertCounts(s[0], Sort(s[1..]), m);
    }
  }

  lemma {:induction false} CountsOfParts(s: seq<real>, m: real, k: nat)
    requires k <= |s|
    ensures (forall i :: 0 <= i < k ==> s[i] <= m) ==> CountAtMost(s, m) >= k
    ensures (forall i :: k <= i < |s| ==> s[i] >= m) ==> CountAtLeast(s, m) >= |s| - k
  {
    if s != [] {
      if k > 0 {
        CountsOfParts(s[1..], m, k - 1);
      } else {
        CountsOfParts(s[1..], m, 0);
      }
    }
  }

  /** A bound between two parts of a list has each part on its side. */
  lemma HalvesAround(nums: seq<real>, m: real, low: nat, high: nat)
    requires high <= low <= |nums|
    requires forall i :: 0 <= i < low ==> nums[i] <= m
    requires forall i :: high <= i < |nums| ==> m <= nums[i]
    ensures CountAtMost(nums, m) >= low && CountAtLeast(nums, m) >= |nums| - high
  {
    CountsOfParts(nums, m, low);
    CountsOfParts(nums, m, high);
  }

  lemma MiddleSplitsInHalf(nums: seq<real>)
    requires nums != [] && Sorted(nums)
    ensures 2 * CountAtMost(nums, Middle(nums)) >= |nums|
    ensures 2 * CountAtLeast(nums, Middle(nums)) >= |nums|
  {
    var mid, m := |nums| / 2, Middle(nums);
    if |nums| % 2 != 0 {
      HalvesAround(nums, m, mid + 1, mid);
    } else {
      assert nums[mid - 1] <= nums[mid];
      assert nums[mid - 1] <= m <= nums[mid];
      HalvesAround(nums, m, mid, mid);
    }
  }

  /** At least half of the entries are on each side of the median, ties counted on both. */
  lemma MedianSplitsInHalf(values: seq<real>)
    requires values != []
    ensures Median(values).Some?
    ensures 2 * CountAtMost(values, Median(values).value) >= |values|
    ensures 2 * CountAtLeast(values, Median(values).value) >= |values|
  {
    SortSorts(values);
    SortedLength(values);
    MiddleSplitsInHalf(Sort(values));
    SortCounts(values, Middle(Sort(values)));
  }

  function Negate(s: seq<real>): seq<real> {
    if s == [] then [] else [-s[0]] + Negate(s[1..])
  }

  lemma {:induction false} NegateAt(s: seq<real>, i: nat)
    ensures |Negate(s)| == |s|
    ensures i < |s| ==> Negate(s)[i] == -s[i]
  {
    if s != [] {
      NegateAt(s[1..], if i == 0 then 0 else i - 1);
    }
  }

  lemma ConsCount(y: real, s: seq<real>, x: real)
    ensures multiset([y] + s)[x] == multiset(s)[x] + if y == x then 1 else 0
  {
  }

  lemma {:induction false} NegateCounts(s: seq<real>, x: real)
    ensures multiset(Negate(s))[x] == multiset(s)[-x]
  {
    if s != [] {
      NegateCounts(s[1..], x);
      ConsCount(s[0], s[1..], -x);
      ConsCount(-s[0], Negate(s[1..]), x);
      assert s == [s[0]] + s[1..];
    }
  }

  function Reverse(s: seq<real>): seq<real> {
    seq(|s|, i requires 0 <= i < |s| => s[|s| - 1 - i])
  }

  lemma {:induction false} ReverseCounts(s: seq<real>, x: real)
    ensures multiset(Reverse(s))[x] == multiset(s)[x]
  {
    if s != [] {
      var last := |s| - 1;
      ReverseCounts(s[..last], x);
      assert Reverse(s) == [s[last]] + Reverse(s[..last]);
      assert s == s[..last] + [s[last]];
    }
  }

  lemma MirrorAt(s: seq<real>)
    ensures |Reverse(Negate(s))| == |s|
    ensures forall i :: 0 <= i < |s| ==> Reverse(Negate(s))[i] == -s[|s| - 1 - i]
  {
    NegateAt(s, 0);
    forall i | 0 <= i < |s| ensures Reverse(Negate(s))[i] == -s[|s| - 1 - i] {
      NegateAt(s, |s| - 1 - i);
    }
  }

  lemma MirrorIsSorted(nums: seq<real>)
    requires Sorted(nums)
    ensures Sorted(Reverse(Negate(nums)))
  {
    MirrorAt(nums);
  }

  lemma MirrorCounts(nums: seq<real>, x: real)
    ensures multiset(Reverse(Negate(nums)))[x] == multiset(nums)[-x]
  {
    ReverseCounts(Negate(nums), x);
    NegateCounts(nums, x);
  }

  /** The sorted negated list is the sorted list, negated and read backwards. */
  lemma SortOfNegated(s: seq<real>)
    ensures Sort(Negate(s)) == Reverse(Negate(Sort(s)))
  {
    var a, b := Sort(Negate(s)), Reverse(Negate(Sort(s)));
    SortSorts(Negate(s));
    SortSorts(s);
    MirrorIsSorted(Sort(s));
    forall x ensures multiset(a)[x] == multiset(b)[x] {
      NegateCounts(s, x);
      MirrorCounts(Sort(s), x);
    }
    SortedIsUnique(a, b);
  }

  /** The middle of a list read backwards and negated. */
  lemma MiddleOfMirror(nums: seq<real>)
    requires nums != []
    ensures Reverse(Negate(nums)) != [] && Middle(Reverse(Negate(nums))) == -Middle(nums)
  {
    var mirror, mid := Reverse(Negate(nums)), |nums| / 2;
    MirrorAt(nums);
    if |nums| % 2 != 0 {
      assert mirror[mid] == -nums[mid];
    } else {
      assert mirror[mid - 1] == -nums[mid] && mirror[mid] == -nums[mid - 1];
    }
  }

  lemma MedianIsMiddle(values: seq<real>, nums: seq<real>)
    requires values != [] && nums != [] && Sort(values) == nums
    ensures Median(values) == Some(Middle(nums))
  {
  }

  lemma MirroredMedians(xs: seq<real>, ys: seq<real>)
    requires xs != [] && ys != [] && Sort(ys) == Reverse(Negate(Sort(xs)))
    ensures Median(ys) == Some(-Median(xs).value)
  {
    SortedLength(xs);
    MiddleOfMirror(Sort(xs));
    MedianIsMiddle(xs, Sort(xs));
    MedianIsMiddle(ys, Sort(ys));
  }

  /** The median favours neither side: negating the list negates it. */
  lemma MedianOfNegated(values: seq<real>)
    requires values != []
    ensures Median(Negate(values)) == Some(-Median(values).value)
  {
    NegateAt(values, 0);
    SortOfNegated(values);
    MirroredMedians(values, Negate(values));
  }

  function WeightedSum(values: seq<real>, weights: seq<real>): real
    requires |values| <= |weights|
  {
    if values == [] then 0.0 else values[0] * weights[0] + WeightedSum(values[1..], weights[1..])
  }

  function TotalWeight(values: seq<real>, weights: seq<real>): real
    requires |values| <= |weights|
  {
    if values == [] then 0.0 else weights[0] + TotalWeight(values[1..], weights[1..])
  }

  /** Weights beyond the values are not used; a missing weight makes the result NaN. */
  function WeightedMean(values: seq<real>, weights: seq<real>): Option<real> {
    if |weights| < |values| || TotalWeight(values, weights) == 0.0 then None
    else Some(WeightedSum(values, weights) / TotalWeight(values, weights))
  }

  lemma {:induction false} SumsWithinBounds(values: seq<real>, weights: seq<real>, least: real, greatest: real)
    requires |values| <= |weights|
    requires forall i :: 0 <= i < |values| ==> least <= values[i] <= greatest && weights[i] > 0.0
    ensures least * TotalWeight(values, weights) <= WeightedSum(values, weights) <= greatest * TotalWeight(values, weights)
    ensures TotalWeight(values, weights) >= 0.0
    ensures values != [] ==> TotalWeight(values, weights) > 0.0
  {
    if values != [] {
      var v, w, rest := values[0], weights[0], TotalWeight(values[1..], weights[1..]);
      SumsWithinBounds(values[1..], weights[1..], least, greatest);
      AddWithinBounds(v, w, rest, WeightedSum(values[1..], weights[1..]), least, greatest);
    }
  }

  lemma AddWithinBounds(v: real, w: real, rest: real, sum: real, least: real, greatest: real)
    requires least <= v <= greatest && w > 0.0 && least * rest <= sum <= greatest * rest
    ensures least * (w + rest) <= v * w + sum <= greatest * (w + rest)
  {
    ScaleBounds(v, w, least, greatest);
    assert least * (w + rest) == least * w + least * rest;
    assert greatest * (w + rest) == greatest * w + greatest * rest;
  }

  lemma ScaleBounds(v: real, w: real, least: real, greatest: real)
    requires least <= v <= greatest && w > 0.0
    ensures least * w <= v * w <= greatest * w
  {
  }

  function Shift(values: seq<real>, delta: real): seq<real> {
    if values == [] then [] else [values[0] - delta] + Shift(values[1..], delta)
  }

  lemma {:induction false} ShiftedSum(values: seq<real>, weights: seq<real>, delta: real)
    requires |values| <= |weights|
    ensures |Shift(values, delta)| == |values|
    ensures WeightedSum(Shift(values, delta), weights)
         == WeightedSum(values, weights) - delta * TotalWeight(values, weights)
  {
    if values != [] {
      ShiftedSum(values[1..], weights[1..], delta);
      assert Shift(values, delta)[1..] == Shift(values[1..], delta);
      Distribute(values[0], delta, weights[0], TotalWeight(values[1..], weights[1..]));
    }
  }

  lemma Distribute(v: real, delta: real, w: real, rest: real)
    ensures (v - delta) * w == v * w - delta * w
    ensures delta * (w + rest) == delta * w + delta * rest
  {
  }

  /** The mean, when there is one, is the balance point: the weighted distances from it cancel. */
  lemma MeanBalances(values: seq<real>, weights: seq<real>)
    requires WeightedMean(values, weights).Some?
    ensures |Shift(values, WeightedMean(values, weights).value)| <= |weights|
    ensures WeightedSum(Shift(values, WeightedMean(values, weights).value), weights) == 0.0
  {
    var m := WeightedMean(values, weights).value;
    ShiftedSum(values, weights, m);
    assert m * TotalWeight(values, weights) == WeightedSum(values, weights);
  }

  /** With positive weights the mean of a non-empty list exists and lies between its least and greatest value. */
  lemma MeanWithinBounds(values: seq<real>, weights: seq<real>, least: real, greatest: real)
    requires values != [] && |values| <= |weights|
    requires forall i :: 0 <= i < |values| ==> least <= values[i] <= greatest && weights[i] > 0.0
    ensures WeightedMean(values, weights).Some?
    ensures least <= WeightedMean(values, weights).value <= greatest
  {
    SumsWithinBounds(values, weights, least, greatest);
    DivideBounds(WeightedSum(values, weights), TotalWeight(values, weights), least, greatest);
  }

  /** There is a mean if and only if every value has a weight and the weights used do not cancel out. */
  lemma MeanExistsIff(values: seq<real>, weights: seq<real>, more: seq<real>)
    ensures WeightedMean(values, weights).Some? <==> |values| <= |weights| && TotalWeight(values, weights) != 0.0
    ensures |values| <= |weights| ==> WeightedMean(values, weights + more) == WeightedMean(values, weights)
  {
    if |values| <= |weights| {
      UnusedWeights(values, weights, more);
    }
  }

  lemma {:induction false} UnusedWeights(values: seq<real>, weights: seq<real>, more: seq<real>)
    requires |values| <= |weights|
    ensures TotalWeight(values, weights + more) == TotalWeight(values, weights)
    ensures WeightedSum(values, weights + more) == WeightedSum(values, weights)
  {
    if values != [] {
      assert (weights + more)[1..] == weights[1..] + more;
      UnusedWeights(values[1..], weights[1..], more);
    }
  }

  lemma DivideBounds(s: real, w: real, least: real, greatest: real)
    requires w > 0.0 && least * w <= s <= greatest * w
    ensures least <= s / w <= greatest
  {
  }
}
