/** Consensus of several scoring passes and its signal of uncertainty (`scoring/ensemble.py`). Scores are
    integers; means and ratios are exact rationals. */
module Ensemble {
  import opened Keys
  import opened Options
  import opened Rounding

  // ---- The median -------------------------------------------------------------------------------------

  function Insert(x: int, s: seq<int>): seq<int> {
    if s == [] || x <= s[0] then [x] + s else [s[0]] + Insert(x, s[1..])
  }

  function Sorted(v: seq<int>): seq<int> {
    if v == [] then [] else Insert(v[0], Sorted(v[1..]))
  }

  ghost predicate IsSorted(s: seq<int>) {
    forall i, j | 0 <= i < j < |s| :: s[i] <= s[j]
  }

  /** The middle of a sorted list, or the mean of its two middles, rounded. */
  function Middle(s: seq<int>): int
    requires s != []
  {
    var n := |s|;
    if n % 2 == 1 then s[n / 2] else Round((s[n / 2 - 1] + s[n / 2]) as real / 2.0)
  }

  function RoundedMedian(v: seq<int>): int
    requires v != []
  {
    SortedIsSort(v);
    Middle(Sorted(v))
  }

  ghost predicate AtLeast(s: seq<int>, x: int) {
    forall i | 0 <= i < |s| :: x <= s[i]
  }

  lemma {:induction false} InsertSorts(x: int, s: seq<int>)
    requires IsSorted(s)
    ensures IsSorted(Insert(x, s)) && |Insert(x, s)| == |s| + 1
    ensures forall y | AtLeast(s, y) && y <= x :: AtLeast(Insert(x, s), y)
  {
    if s != [] && x > s[0] {
      InsertSorts(x, s[1..]);
      assert AtLeast(s[1..], s[0]);
      forall y | AtLeast(s, y) && y <= x
        ensures AtLeast(Insert(x, s), y)
      {
        assert AtLeast(s[1..], y) && y <= s[0];
      }
    }
  }

  lemma {:induction false} InsertKeeps(x: int, s: seq<int>)
    ensures multiset(Insert(x, s)) == multiset(s) + multiset{x}
  {
    if s != [] && x > s[0] {
      InsertKeeps(x, s[1..]);
      assert s == [s[0]] + s[1..];
    }
  }

  lemma {:induction false} SortedIsSort(v: seq<int>)
    ensures IsSorted(Sorted(v)) && multiset(Sorted(v)) == multiset(v) && |Sorted(v)| == |v|
  {
    if v != [] {
      SortedIsSort(v[1..]);
      InsertSorts(v[0], Sorted(v[1..]));
      InsertKeeps(v[0], Sorted(v[1..]));
      assert v == [v[0]] + v[1..];
    }
  }

  lemma LeastFirst(s: seq<int>, t: seq<int>)
    requires IsSorted(s) && s != [] && t != [] && t[0] in multiset(s)
    ensures s[0] <= t[0]
  {
    assert t[0] in s;
  }

  lemma FirstApart(s: seq<int>)
    requires s != []
    ensures s == [s[0]] + s[1..] && s[0] in multiset(s) && multiset(s[1..]) == multiset(s) - multiset{s[0]}
  {
    assert s == [s[0]] + s[1..];
  }

  lemma {:induction false} SortedUnique(s: seq<int>, t: seq<int>)
    requires IsSorted(s) && IsSorted(t) && multiset(s) == multiset(t)
    ensures s == t
  {
    assert |multiset(s)| == |s| && |multiset(t)| == |t|;
    if s != [] {
      FirstApart(s);
      FirstApart(t);
      LeastFirst(s, t);
      LeastFirst(t, s);
      SortedUnique(s[1..], t[1..]);
    }
  }

  /** The order of the passes does not matter. */
  lemma MedianIgnoresOrder(v: seq<int>, w: seq<int>)
    requires v != [] && w != [] && multiset(v) == multiset(w)
    ensures RoundedMedian(v) == RoundedMedian(w)
  {
    SortedIsSort(v);
    SortedIsSort(w);
    SortedUnique(Sorted(v), Sorted(w));
  }

  /** How many elements of `v` lie in `[lo, hi]`. */
  function Inside(v: seq<int>, lo: int, hi: int): nat {
    if v == [] then 0 else (if lo <= v[0] <= hi then 1 else 0) + Inside(v[1..], lo, hi)
  }

  lemma {:induction false} InsideInsert(x: int, s: seq<int>, lo: int, hi: int)
    ensures Inside(Insert(x, s), lo, hi) == Inside(s, lo, hi) + if lo <= x <= hi then 1 else 0
  {
    if s == [] || x <= s[0] {
      assert ([x] + s)[1..] == s;
    } else {
      InsideInsert(x, s[1..], lo, hi);
      assert ([s[0]] + Insert(x, s[1..]))[1..] == Insert(x, s[1..]);
    }
  }

  lemma {:induction false} InsideSorted(v: seq<int>, lo: int, hi: int)
    ensures Inside(Sorted(v), lo, hi) == Inside(v, lo, hi)
  {
    if v != [] {
      InsideSorted(v[1..], lo, hi);
      InsideInsert(v[0], Sorted(v[1..]), lo, hi);
    }
  }

  /** If the first `a` or the last `b` elements are outside, at most the others are inside. */
  lemma {:induction false} InsideAtMost(s: seq<int>, lo: int, hi: int, a: nat, b: nat)
    requires a + b <= |s|
    requires forall i | 0 <= i < |s| && (i < a || i >= |s| - b) :: s[i] < lo || s[i] > hi
    ensures Inside(s, lo, hi) <= |s| - a - b
    decreases |s|
  {
    if s != [] {
      var t := s[1..];
      assert forall i | 0 <= i < |t| :: t[i] == s[i + 1];
      if a > 0 {
        InsideAtMost(t, lo, hi, a - 1, b);
      } else if b < |s| {
        InsideAtMost(t, lo, hi, 0, b);
      } else {
        InsideAtMost(t, lo, hi, 0, b - 1);
      }
    }
  }

  /** The middle elements lie in any interval holding a strict majority. */
  lemma MiddlesInMajority(s: seq<int>, lo: int, hi: int)
    requires s != [] && IsSorted(s) && 2 * Inside(s, lo, hi) > |s|
    ensures lo <= s[|s| / 2] <= hi
    ensures |s| % 2 == 0 ==> |s| >= 2 && lo <= s[|s| / 2 - 1] <= hi
  {
    var n := |s|;
    var low := if n % 2 == 0 then n / 2 - 1 else n / 2;
    if s[low] < lo {
      InsideAtMost(s, lo, hi, low + 1, 0);
    }
    if s[n / 2] > hi {
      InsideAtMost(s, lo, hi, 0, n - n / 2);
    }
  }

  /** One aberrant pass cannot move the score: if a strict majority of the passes lie in an interval, so does
      the rounded median. */
  lemma MedianFollowsMajority(v: seq<int>, lo: int, hi: int)
    requires v != [] && 2 * Inside(v, lo, hi) > |v|
    ensures lo <= RoundedMedian(v) <= hi
  {
    SortedIsSort(v);
    InsideSorted(v, lo, hi);
    MiddleInMajority(Sorted(v), lo, hi);
  }

  lemma MiddleInMajority(s: seq<int>, lo: int, hi: int)
    requires s != [] && IsSorted(s) && 2 * Inside(s, lo, hi) > |s|
    ensures lo <= Middle(s) <= hi
  {
    var n := |s|;
    MiddlesInMajority(s, lo, hi);
  }

  /** The median itself: with an odd number of scores one of them, with as many on either side; with an even number the
      integer nearest to the mean of the two middle ones, halves going to the even neighbour. */
  lemma MedianIs(v: seq<int>)
    requires v != []
    ensures |v| % 2 == 1 ==> RoundedMedian(v) in v
    ensures |v| % 2 == 1 ==> exists s :: multiset(s) == multiset(v) && IsSorted(s) && RoundedMedian(v) == s[|s| / 2]
    ensures |v| % 2 == 0 ==> exists s :: multiset(s) == multiset(v) && IsSorted(s) && |s| == |v|
                                         && IsNearest((s[|s| / 2 - 1] + s[|s| / 2]) as real / 2.0, RoundedMedian(v))
  {
    var s := Sorted(v);
    SortedIsSort(v);
    if |v| % 2 == 1 {
      assert s[|s| / 2] in multiset(s);
      assert s[|s| / 2] in multiset(v);
    } else {
      RoundIsNearest((s[|s| / 2 - 1] + s[|s| / 2]) as real / 2.0, RoundedMedian(v));
    }
  }

  /** Two passes: half their sum, a half going to the even neighbour. */
  lemma MedianOfTwo(a: int, b: int)
    ensures IsNearest((a + b) as real / 2.0, RoundedMedian([a, b]))
  {
    assert [a, b][1..] == [b] && [b][1..] == [] && Sorted([]) == [];
    assert Sorted([b]) == [b];
    assert Sorted([a, b]) == Insert(a, [b]) == if a <= b then [a, b] else [b, a];
    RoundIsNearest((a + b) as real / 2.0, RoundedMedian([a, b]));
  }

  // ---- The consensus ------------------------------------------------------------------------------------

  datatype Thresholds = Thresholds(ratio: real, tolerance: Option<real>, minConfidence: real, maxUncertain: int)

  const DEFAULT_THRESHOLDS := Thresholds(0.2, None, 0.6, 0)

  datatype Consensus = Consensus(
    axes: map<string, int>,
    spread: map<string, int>,
    meanSpread: real,
    uncertain: seq<string>,
    confidence: real,
    needsReview: bool)

  datatype Outcome = Agreed(value: Consensus) | Invalid

  predicate ValidThresholds(t: Thresholds) {
    0.0 <= t.ratio <= 1.0 && (t.tolerance.Some? ==> t.tolerance.value >= 0.0) && 0.0 <= t.minConfidence <= 1.0
  }

  function ToleranceOf(t: Thresholds, scaleMax: int): real {
    if t.tolerance.Some? then t.tolerance.value else scaleMax as real * t.ratio
  }

  /** Every pass scores the axis within the scale. */
  predicate Covered(passes: seq<map<string, int>>, key: string, scaleMax: int) {
    forall i | 0 <= i < |passes| :: key in passes[i] && 0 <= passes[i][key] <= scaleMax
  }

  function ValueIn(pass: map<string, int>, key: string): int {
    if key in pass then pass[key] else 0
  }

  /** The scores given to one axis, one for each pass. */
  function ValuesOf(passes: seq<map<string, int>>, key: string): (v: seq<int>)
    ensures |v| == |passes|
  {
    seq(|passes|, i requires 0 <= i < |passes| => ValueIn(passes[i], key))
  }

  function Highest(v: seq<int>): int
    requires v != []
  {
    if |v| == 1 then v[0] else var m := Highest(v[1..]); if v[0] > m then v[0] else m
  }

  function Lowest(v: seq<int>): int
    requires v != []
  {
    if |v| == 1 then v[0] else var m := Lowest(v[1..]); if v[0] < m then v[0] else m
  }

  function SpreadOf(v: seq<int>): int
    requires v != []
  {
    Highest(v) - Lowest(v)
  }

  function ConfidenceFromSpread(meanSpread: real, scaleMax: int): real
    requires scaleMax > 0
  {
    var c := 1.0 - meanSpread / (scaleMax as real * 0.5);
    RoundTo(if c < 0.0 then 0.0 else if c > 1.0 then 1.0 else c, 1000)
  }

  function SumOf(m: map<string, int>, keys: seq<string>): int
    requires forall k | k in keys :: k in m
  {
    if keys == [] then 0 else SumOf(m, keys[..|keys| - 1]) + m[keys[|keys| - 1]]
  }

  predicate IsUncertain(passes: seq<map<string, int>>, key: string, tolerance: real)
    requires passes != []
  {
    SpreadOf(ValuesOf(passes, key)) as real > tolerance
  }

  /** Axes whose spread exceeds the tolerance, in the order of the grid. */
  ghost function UncertainAxes(passes: seq<map<string, int>>, keys: seq<string>, tolerance: real): seq<string>
    requires passes != []
  {
    if keys == [] then []
    else
      var k := keys[|keys| - 1];
      UncertainAxes(passes, keys[..|keys| - 1], tolerance) + if IsUncertain(passes, k, tolerance) then [k] else []
  }

  function MeanSpread(spread: map<string, int>, keys: seq<string>): real
    requires forall k | k in keys :: k in spread
  {
    if keys == [] then 0.0 else RoundTo(SumOf(spread, keys) as real / |keys| as real, 100)
  }

  /** The dictionary of medians, one entry for each axis. */
  ghost function MediansOf(passes: seq<map<string, int>>, keys: seq<string>): map<string, int>
    requires passes != []
  {
    if keys == [] then map[]
    else
      var k := keys[|keys| - 1];
      MediansOf(passes, keys[..|keys| - 1])[k := RoundedMedian(ValuesOf(passes, k))]
  }

  /** The dictionary of spreads. */
  ghost function SpreadsOf(passes: seq<map<string, int>>, keys: seq<string>): map<string, int>
    requires passes != []
  {
    if keys == [] then map[]
    else
      var k := keys[|keys| - 1];
      SpreadsOf(passes, keys[..|keys| - 1])[k := SpreadOf(ValuesOf(passes, k))]
  }

  lemma {:induction false} ScoresAt(passes: seq<map<string, int>>, keys: seq<string>)
    requires passes != []
    ensures forall k :: k in MediansOf(passes, keys) <==> k in keys
    ensures forall k :: k in SpreadsOf(passes, keys) <==> k in keys
    ensures forall k | k in keys :: SpreadsOf(passes, keys)[k] == SpreadOf(ValuesOf(passes, k))
    ensures forall k | k in keys :: MediansOf(passes, keys)[k] == RoundedMedian(ValuesOf(passes, k))
  {
    if keys != [] {
      ScoresAt(passes, keys[..|keys| - 1]);
      assert keys == keys[..|keys| - 1] + [keys[|keys| - 1]];
    }
  }

  /** `c` is the consensus of the passes. */
  ghost predicate IsConsensus(passes: seq<map<string, int>>, keys: seq<string>, t: Thresholds, scaleMax: int,
                              c: Consensus)
    requires passes != [] && scaleMax > 0
  {
    && c.axes == MediansOf(passes, keys) && c.spread == SpreadsOf(passes, keys)
    && (forall k | k in Distinct(keys) :: k in c.spread)
    && c.uncertain == UncertainAxes(passes, keys, ToleranceOf(t, scaleMax))
    && c.meanSpread == MeanSpread(c.spread, Distinct(keys))
    && c.confidence == ConfidenceFromSpread(c.meanSpread, scaleMax)
    && (c.needsReview <==> |c.uncertain| > t.maxUncertain || c.confidence < t.minConfidence || |passes| < 3)
  }

  lemma Snoc(passes: seq<map<string, int>>, keys: seq<string>, k: string, tolerance: real)
    requires passes != []
    ensures var v := ValuesOf(passes, k);
            && MediansOf(passes, keys + [k]) == MediansOf(passes, keys)[k := RoundedMedian(v)]
            && SpreadsOf(passes, keys + [k]) == SpreadsOf(passes, keys)[k := SpreadOf(v)]
            && Distinct(keys + [k]) == (if k in keys then Distinct(keys) else Distinct(keys) + [k])
            && UncertainAxes(passes, keys + [k], tolerance)
               == UncertainAxes(passes, keys, tolerance) + if SpreadOf(v) as real > tolerance then [k] else []
  {
    assert (keys + [k])[..|keys|] == keys;
  }

  lemma NextAxis(passes: seq<map<string, int>>, keys: seq<string>, n: nat, tolerance: real)
    requires passes != [] && n < |keys|
    ensures var k, v := keys[n], ValuesOf(passes, keys[n]);
            && MediansOf(passes, keys[..n + 1]) == MediansOf(passes, keys[..n])[k := RoundedMedian(v)]
            && SpreadsOf(passes, keys[..n + 1]) == SpreadsOf(passes, keys[..n])[k := SpreadOf(v)]
            && Distinct(keys[..n + 1]) == (if k in SpreadsOf(passes, keys[..n]) then Distinct(keys[..n])
                                           else Distinct(keys[..n]) + [k])
            && UncertainAxes(passes, keys[..n + 1], tolerance)
               == UncertainAxes(passes, keys[..n], tolerance) + if SpreadOf(v) as real > tolerance then [k] else []
  {
    assert keys[..n + 1] == keys[..n] + [keys[n]];
    Snoc(passes, keys[..n], keys[n], tolerance);
    SpreadKeys(passes, keys[..n], keys[n]);
  }

  lemma {:induction false} SpreadKeys(passes: seq<map<string, int>>, keys: seq<string>, k: string)
    requires passes != []
    ensures k in SpreadsOf(passes, keys) <==> k in keys
  {
    if keys != [] {
      SpreadKeys(passes, keys[..|keys| - 1], k);
      assert keys == keys[..|keys| - 1] + [keys[|keys| - 1]];
    }
  }

  /** The first `n` axes are covered. */
  ghost predicate AllCovered(passes: seq<map<string, int>>, keys: seq<string>, n: nat, scaleMax: int)
    requires n <= |keys|
  {
    n == 0 || (AllCovered(passes, keys, n - 1, scaleMax) && Covered(passes, keys[n - 1], scaleMax))
  }

  lemma {:induction false} AllCoveredAt(passes: seq<map<string, int>>, keys: seq<string>, n: nat, scaleMax: int)
    requires n <= |keys|
    ensures AllCovered(passes, keys, n, scaleMax) <==> forall i | 0 <= i < n :: Covered(passes, keys[i], scaleMax)
  {
    if n > 0 {
      AllCoveredAt(passes, keys, n - 1, scaleMax);
    }
  }

  lemma {:induction false} NotAllCovered(passes: seq<map<string, int>>, keys: seq<string>, i: nat, n: nat,
                                         scaleMax: int)
    requires i < n <= |keys| && !Covered(passes, keys[i], scaleMax)
    ensures !AllCovered(passes, keys, n, scaleMax)
  {
    if i < n - 1 {
      NotAllCovered(passes, keys, i, n - 1, scaleMax);
    }
  }

  lemma CoveredMeans(passes: seq<map<string, int>>, keys: seq<string>, scaleMax: int)
    ensures (forall i | 0 <= i < |keys| :: Covered(passes, keys[i], scaleMax))
            <==> forall k, p | k in keys && p in passes :: k in p && 0 <= p[k] <= scaleMax
  {
    if forall k, p | k in keys && p in passes :: k in p && 0 <= p[k] <= scaleMax {
      forall i, j | 0 <= i < |keys| && 0 <= j < |passes|
        ensures keys[i] in passes[j] && 0 <= passes[j][keys[i]] <= scaleMax
      {
        assert keys[i] in keys && passes[j] in passes;
      }
    }
    if forall i | 0 <= i < |keys| :: Covered(passes, keys[i], scaleMax) {
      forall k, p | k in keys && p in passes
        ensures k in p && 0 <= p[k] <= scaleMax
      {
        var i :| 0 <= i < |keys| && keys[i] == k;
        var j :| 0 <= j < |passes| && passes[j] == p;
        assert Covered(passes, keys[i], scaleMax);
      }
    }
  }

  /** One axis: its scores are read from every pass, checked against the scale and reduced. */
  method ScoreAxis(passes: seq<map<string, int>>, key: string, scaleMax: int) returns (ok: bool, score: int, rng: int)
    requires passes != []
    ensures ok <==> Covered(passes, key, scaleMax)
    ensures ok ==> score == RoundedMedian(ValuesOf(passes, key)) && rng == SpreadOf(ValuesOf(passes, key))
  {
    var values := [];
    for i := 0 to |passes|
      invariant |values| == i
      invariant forall j | 0 <= j < i :: key in passes[j] && values[j] == passes[j][key]
    {
      if key !in passes[i] {
        return false, 0, 0;
      }
      values := values + [passes[i][key]];
    }
    if exists i | 0 <= i < |values| :: values[i] < 0 || values[i] > scaleMax {
      return false, 0, 0;
    }
    assert values == ValuesOf(passes, key);
    return true, RoundedMedian(values), Highest(values) - Lowest(values);
  }

  /** The loop over the axes; `order` lists the keys as the dictionaries hold them. */
  method ScoreAxes(passes: seq<map<string, int>>, keys: seq<string>, tolerance: real, scaleMax: int)
    returns (ok: bool, axes: map<string, int>, spread: map<string, int>, order: seq<string>, uncertain: seq<string>)
    requires passes != []
    ensures ok <==> AllCovered(passes, keys, |keys|, scaleMax)
    ensures ok ==> axes == MediansOf(passes, keys) && spread == SpreadsOf(passes, keys)
    ensures ok ==> order == Distinct(keys) && uncertain == UncertainAxes(passes, keys, tolerance)
  {
    ok, axes, spread, order, uncertain := true, map[], map[], [], [];
    for n := 0 to |keys|
      invariant ok && AllCovered(passes, keys, n, scaleMax)
      invariant axes == MediansOf(passes, keys[..n]) && spread == SpreadsOf(passes, keys[..n])
      invariant order == Distinct(keys[..n]) && uncertain == UncertainAxes(passes, keys[..n], tolerance)
    {
      var key := keys[n];
      var fine, score, rng := ScoreAxis(passes, key, scaleMax);
      if !fine {
        NotAllCovered(passes, keys, n, |keys|, scaleMax);
        ok := false;
        return;
      }
      NextAxis(passes, keys, n, tolerance);
      if key !in spread {
        order := order + [key];
      }
      axes := axes[key := score];
      spread := spread[key := rng];
      if rng as real > tolerance {
        uncertain := uncertain + [key];
      }
    }
    assert keys[..|keys|] == keys;
  }

  method ComputeConsensus(passes: seq<map<string, int>>, keys: seq<string>, t: Thresholds, scaleMax: int)
    returns (o: Outcome)
    ensures o.Agreed? <==> passes != [] && scaleMax > 0 && ValidThresholds(t)
                           && forall i | 0 <= i < |keys| :: Covered(passes, keys[i], scaleMax)
    ensures o.Agreed? ==> IsConsensus(passes, keys, t, scaleMax, o.value)
    ensures o.Agreed?
            <==> passes != [] && scaleMax > 0 && 0.0 <= t.ratio <= 1.0 && 0.0 <= t.minConfidence <= 1.0
                 && (t.tolerance == None || t.tolerance.value >= 0.0)
                 && forall k, p | k in keys && p in passes :: k in p && 0 <= p[k] <= scaleMax
  {
    if passes == [] || scaleMax <= 0 || !ValidThresholds(t) {
      return Invalid;
    }
    AllCoveredAt(passes, keys, |keys|, scaleMax);
    CoveredMeans(passes, keys, scaleMax);
    var ok, axes, spread, order, uncertain := ScoreAxes(passes, keys, ToleranceOf(t, scaleMax), scaleMax);
    if !ok {
      return Invalid;
    }
    DistinctKeys(keys);
    ScoresAt(passes, keys);
    var mean := MeanSpread(spread, order);
    var confidence := ConfidenceFromSpread(mean, scaleMax);
    var review := |uncertain| > t.maxUncertain || confidence < t.minConfidence || |passes| < 3;
    return Agreed(Consensus(axes, spread, mean, uncertain, confidence, review));
  }

  // ---- What the figures are ---------------------------------------------------------------------------------

  lemma {:induction false} SumOfConcat(m: map<string, int>, a: seq<string>, b: seq<string>)
    requires forall k | k in a + b :: k in m
    ensures (forall k | k in a :: k in m) && (forall k | k in b :: k in m)
    ensures SumOf(m, a + b) == SumOf(m, a) + SumOf(m, b)
    ensures forall k | k in m :: SumOf(m, [k]) == m[k]
  {
    assert forall k | k in a :: k in a + b;
    assert forall k | k in b :: k in a + b;
    forall k | k in m
      ensures SumOf(m, [k]) == m[k]
    {
      assert [k][..0] == [];
    }
    if b == [] {
      assert a + b == a;
    } else {
      var n := |b| - 1;
      assert (a + b)[..|a| + n] == a + b[..n];
      assert forall k | k in a + b[..n] :: k in a + b;
      SumOfConcat(m, a, b[..n]);
    }
  }

  /** The mean spread is the sum of the spreads over their number, to the nearest hundredth; with no axis it is 0. */
  lemma MeanSpreadIsMean(spread: map<string, int>, keys: seq<string>)
    requires forall k | k in keys :: k in spread
    ensures keys == [] ==> MeanSpread(spread, keys) == 0.0
    ensures keys != [] ==>
              var mean := SumOf(spread, keys) as real / |keys| as real;
              mean * 100.0 - 0.5 <= MeanSpread(spread, keys) * 100.0 <= mean * 100.0 + 0.5
  {
    if keys != [] {
      RoundToIsNear(SumOf(spread, keys) as real / |keys| as real, 100);
    }
  }

  /** The spread of an axis is the distance between two of its scores, and no two are further apart. */
  lemma SpreadIsWidest(v: seq<int>)
    requires v != []
    ensures exists i, j :: 0 <= i < |v| && 0 <= j < |v| && v[i] - v[j] == SpreadOf(v)
    ensures forall i, j | 0 <= i < |v| && 0 <= j < |v| :: v[i] - v[j] <= SpreadOf(v)
  {
    Extremes(v);
    assert Highest(v) in v && Lowest(v) in v;
    var i :| 0 <= i < |v| && v[i] == Highest(v);
    var j :| 0 <= j < |v| && v[j] == Lowest(v);
    assert v[i] - v[j] == SpreadOf(v);
    forall a | 0 <= a < |v|
      ensures Lowest(v) <= v[a] <= Highest(v)
    {
      assert v[a] in multiset(v);
    }
  }

  /** What a consensus holds for one axis, in the scores of the passes. */
  lemma ConsensusAt(passes: seq<map<string, int>>, keys: seq<string>, t: Thresholds, scaleMax: int, c: Consensus,
                    k: string)
    requires passes != [] && scaleMax > 0 && IsConsensus(passes, keys, t, scaleMax, c)
    ensures (k in c.axes <==> k in keys) && (k in c.spread <==> k in keys)
    ensures k in keys ==> c.axes[k] == RoundedMedian(ValuesOf(passes, k)) && IsSpread(passes, k, c.spread[k])
    ensures k in c.uncertain <==> k in keys && c.spread[k] as real > ToleranceOf(t, scaleMax)
  {
    EntryAt(passes, keys, ToleranceOf(t, scaleMax), k);
  }

  lemma EntryAt(passes: seq<map<string, int>>, keys: seq<string>, tolerance: real, k: string)
    requires passes != []
    ensures var axes, spread := MediansOf(passes, keys), SpreadsOf(passes, keys);
            && (k in axes <==> k in keys) && (k in spread <==> k in keys)
            && (k in keys ==> axes[k] == RoundedMedian(ValuesOf(passes, k)) && IsSpread(passes, k, spread[k]))
            && (k in UncertainAxes(passes, keys, tolerance) <==> k in keys && spread[k] as real > tolerance)
  {
    ScoresAt(passes, keys);
    UncertainAre(passes, keys, tolerance);
    SpreadCovers(passes, k);
  }

  /** No two passes that score the axis differ by more than `d`. */
  ghost predicate IsSpread(passes: seq<map<string, int>>, k: string, d: int) {
    forall i, j | 0 <= i < |passes| && 0 <= j < |passes| && k in passes[i] && k in passes[j] ::
      passes[i][k] - passes[j][k] <= d
  }

  lemma SpreadCovers(passes: seq<map<string, int>>, k: string)
    requires passes != []
    ensures IsSpread(passes, k, SpreadOf(ValuesOf(passes, k)))
  {
    var v := ValuesOf(passes, k);
    SpreadIsWidest(v);
    forall i, j | 0 <= i < |passes| && 0 <= j < |passes| && k in passes[i] && k in passes[j]
      ensures passes[i][k] - passes[j][k] <= SpreadOf(v)
    {
      assert v[i] - v[j] <= SpreadOf(v);
    }
  }

  lemma {:induction false} UncertainAre(passes: seq<map<string, int>>, keys: seq<string>, tolerance: real)
    requires passes != []
    ensures forall k :: k in UncertainAxes(passes, keys, tolerance)
                        <==> k in keys && SpreadOf(ValuesOf(passes, k)) as real > tolerance
  {
    if keys != [] {
      UncertainAre(passes, keys[..|keys| - 1], tolerance);
      assert keys == keys[..|keys| - 1] + [keys[|keys| - 1]];
    }
  }

  // ---- When a human is called -----------------------------------------------------------------------------

  lemma {:induction false} SumBound(m: map<string, int>, keys: seq<string>, bound: real)
    requires forall k | k in keys :: k in m && m[k] as real <= bound
    ensures SumOf(m, keys) as real <= |keys| as real * bound
  {
    if keys != [] {
      var r := keys[..|keys| - 1];
      assert forall k | k in r :: k in keys;
      assert keys[|keys| - 1] in keys;
      SumBound(m, r, bound);
    }
  }

  /** Rounding the mean to two decimals cannot take it past a fifth of an integer scale. */
  lemma RoundedMeanAtMost(mean: real, scaleMax: int)
    requires mean <= scaleMax as real * 0.2
    ensures RoundTo(mean, 100) <= scaleMax as real * 0.2
  {
    RoundMonotone(mean * 100.0, (20 * scaleMax) as real);
  }

  lemma ConfidenceAtLeast(mean: real, scaleMax: int)
    requires scaleMax > 0 && mean <= scaleMax as real * 0.2
    ensures ConfidenceFromSpread(mean, scaleMax) >= 0.6
  {
    var h := scaleMax as real * 0.5;
    var q := mean / h;
    assert q * h == mean;
    assert (0.4 - q) * h >= 0.0;
    assert q <= 0.4;
    var c := 1.0 - q;
    var d := if c < 0.0 then 0.0 else if c > 1.0 then 1.0 else c;
    RoundMonotone(600.0, d * 1000.0);
  }

  lemma {:induction false} NoneUncertain(passes: seq<map<string, int>>, keys: seq<string>, tolerance: real)
    requires passes != []
    ensures UncertainAxes(passes, keys, tolerance) == [] <==> forall k | k in keys :: !IsUncertain(passes, k, tolerance)
  {
    if keys != [] {
      var r := keys[..|keys| - 1];
      assert keys == r + [keys[|keys| - 1]];
      NoneUncertain(passes, r, tolerance);
    }
  }

  lemma RoundToMonotone(x: real, y: real)
    requires x <= y
    ensures RoundTo(x, 1000) <= RoundTo(y, 1000)
  {
    RoundMonotone(x * 1000.0, y * 1000.0);
  }

  /** Confidence is 1 when the passes agree, 0 from a mean spread of half the scale on, and never rises with the
      spread. */
  lemma ConfidenceFalls(m: real, n: real, scaleMax: int)
    requires scaleMax > 0 && 0.0 <= m <= n
    ensures 0.0 <= ConfidenceFromSpread(n, scaleMax) <= ConfidenceFromSpread(m, scaleMax) <= 1.0
    ensures m == 0.0 ==> ConfidenceFromSpread(m, scaleMax) == 1.0
    ensures n >= scaleMax as real * 0.5 ==> ConfidenceFromSpread(n, scaleMax) == 0.0
  {
    var h := scaleMax as real * 0.5;
    DivideMonotone(0.0, m, h);
    DivideMonotone(m, n, h);
    assert 0.0 / h == 0.0 && h / h == 1.0;
    if n >= h {
      DivideMonotone(h, n, h);
    }
    var c, d := 1.0 - m / h, 1.0 - n / h;
    var cc := if c < 0.0 then 0.0 else if c > 1.0 then 1.0 else c;
    var dd := if d < 0.0 then 0.0 else if d > 1.0 then 1.0 else d;
    RoundToMonotone(0.0, dd);
    RoundToMonotone(dd, cc);
    RoundToMonotone(cc, 1.0);
  }

  /** In between it is one less the share of half the scale that the passes spread over, to the nearest thousandth. */
  lemma ConfidenceIs(m: real, scaleMax: int)
    requires scaleMax > 0 && 0.0 <= m <= scaleMax as real * 0.5
    ensures var c := 1.0 - m / (scaleMax as real * 0.5);
            c * 1000.0 - 0.5 <= ConfidenceFromSpread(m, scaleMax) * 1000.0 <= c * 1000.0 + 0.5
  {
    var h := scaleMax as real * 0.5;
    DivideMonotone(0.0, m, h);
    DivideMonotone(m, h, h);
    assert 0.0 / h == 0.0 && h / h == 1.0;
    RoundToIsNear(1.0 - m / h, 1000);
  }

  /** If no axis spreads over more than a fifth of the scale, confidence stays at 0.6 or more. */
  lemma ConfidenceWithoutSpread(spread: map<string, int>, keys: seq<string>, scaleMax: int)
    requires scaleMax > 0 && forall k | k in keys :: k in spread && spread[k] as real <= scaleMax as real * 0.2
    ensures ConfidenceFromSpread(MeanSpread(spread, keys), scaleMax) >= 0.6
  {
    var bound := scaleMax as real * 0.2;
    SumBound(spread, keys, bound);
    if keys != [] {
      RoundedMeanAtMost(SumOf(spread, keys) as real / |keys| as real, scaleMax);
    }
    ConfidenceAtLeast(MeanSpread(spread, keys), scaleMax);
  }

  /** With the default thresholds, a human is called exactly when some axis spreads over more than a fifth of
      the scale or fewer than three passes are left: low confidence never decides alone. */
  lemma ReviewIff(passes: seq<map<string, int>>, keys: seq<string>, scaleMax: int, c: Consensus)
    requires passes != [] && scaleMax > 0 && IsConsensus(passes, keys, DEFAULT_THRESHOLDS, scaleMax, c)
    ensures c.needsReview
            <==> (exists k :: k in keys && IsUncertain(passes, k, scaleMax as real * 0.2)) || |passes| < 3
  {
    var tolerance := ToleranceOf(DEFAULT_THRESHOLDS, scaleMax);
    NoneUncertain(passes, keys, tolerance);
    if c.uncertain == [] {
      DistinctKeys(keys);
      ScoresAt(passes, keys);
      forall k | k in Distinct(keys)
        ensures c.spread[k] as real <= tolerance
      {
        assert !IsUncertain(passes, k, tolerance);
      }
      ConfidenceWithoutSpread(c.spread, Distinct(keys), scaleMax);
    } else {
      assert |c.uncertain| > 0;
    }
  }

  // ---- The order of the passes -----------------------------------------------------------------------------

  lemma {:induction false} Extremes(v: seq<int>)
    requires v != []
    ensures Highest(v) in multiset(v) && forall x | x in multiset(v) :: x <= Highest(v)
    ensures Lowest(v) in multiset(v) && forall x | x in multiset(v) :: x >= Lowest(v)
  {
    if |v| > 1 {
      Extremes(v[1..]);
      assert v == [v[0]] + v[1..];
    }
  }

  lemma {:induction false} AllInside(v: seq<int>, lo: int, hi: int)
    requires forall x | x in multiset(v) :: lo <= x <= hi
    ensures Inside(v, lo, hi) == |v|
  {
    if v != [] {
      assert v == [v[0]] + v[1..];
      assert v[0] in multiset(v);
      forall x | x in multiset(v[1..])
        ensures lo <= x <= hi
      {
        assert x in multiset(v);
      }
      AllInside(v[1..], lo, hi);
    }
  }

  /** The score kept never leaves the range of the passes. */
  lemma MedianWithinPasses(v: seq<int>)
    requires v != []
    ensures Lowest(v) <= RoundedMedian(v) <= Highest(v)
  {
    Extremes(v);
    AllInside(v, Lowest(v), Highest(v));
    MedianFollowsMajority(v, Lowest(v), Highest(v));
  }

  lemma RemoveAt<T>(q: seq<T>, j: nat)
    requires j < |q|
    ensures multiset(q[..j] + q[j + 1..]) == multiset(q) - multiset{q[j]}
  {
    assert q == q[..j] + [q[j]] + q[j + 1..];
  }

  lemma ValuesWithout(q: seq<map<string, int>>, j: nat, key: string)
    requires j < |q|
    ensures multiset(ValuesOf(q[..j] + q[j + 1..], key)) == multiset(ValuesOf(q, key)) - multiset{ValueIn(q[j], key)}
  {
    var v := ValuesOf(q, key);
    assert ValuesOf(q[..j] + q[j + 1..], key) == v[..j] + v[j + 1..];
    RemoveAt(v, j);
  }

  lemma {:induction false} ValuesPermute(p: seq<map<string, int>>, q: seq<map<string, int>>, key: string)
    requires multiset(p) == multiset(q)
    ensures multiset(ValuesOf(p, key)) == multiset(ValuesOf(q, key))
    decreases |p|
  {
    assert |multiset(p)| == |p| && |multiset(q)| == |q|;
    if p != [] {
      assert p[0] in multiset(q);
      var j :| 0 <= j < |q| && q[j] == p[0];
      RemoveAt(p, 0);
      RemoveAt(q, j);
      ValuesPermute(p[..0] + p[1..], q[..j] + q[j + 1..], key);
      ValuesRestored(p, 0, q, j, key);
    }
  }

  lemma ValuesRestored(p: seq<map<string, int>>, i: nat, q: seq<map<string, int>>, j: nat, key: string)
    requires i < |p| && j < |q| && p[i] == q[j]
    requires multiset(ValuesOf(p[..i] + p[i + 1..], key)) == multiset(ValuesOf(q[..j] + q[j + 1..], key))
    ensures multiset(ValuesOf(p, key)) == multiset(ValuesOf(q, key))
  {
    ValuesWithout(p, i, key);
    ValuesWithout(q, j, key);
    Cancel(ValuesOf(p, key), i, ValuesOf(q, key), j);
  }

  lemma Cancel(v: seq<int>, i: nat, w: seq<int>, j: nat)
    requires i < |v| && j < |w| && v[i] == w[j]
    requires multiset(v) - multiset{v[i]} == multiset(w) - multiset{w[j]}
    ensures multiset(v) == multiset(w)
  {
    assert v[i] in multiset(v) && w[j] in multiset(w);
    assert multiset(v) == (multiset(v) - multiset{v[i]}) + multiset{v[i]};
    assert multiset(w) == (multiset(w) - multiset{w[j]}) + multiset{w[j]};
  }

  lemma AxisIgnoresOrder(p: seq<map<string, int>>, q: seq<map<string, int>>, key: string)
    requires p != [] && q != [] && multiset(p) == multiset(q)
    ensures RoundedMedian(ValuesOf(p, key)) == RoundedMedian(ValuesOf(q, key))
    ensures SpreadOf(ValuesOf(p, key)) == SpreadOf(ValuesOf(q, key))
  {
    ValuesPermute(p, q, key);
    MedianIgnoresOrder(ValuesOf(p, key), ValuesOf(q, key));
    Extremes(ValuesOf(p, key));
    Extremes(ValuesOf(q, key));
  }

  lemma {:induction false} UncertainIgnoresOrder(p: seq<map<string, int>>, q: seq<map<string, int>>,
                                                 keys: seq<string>, tolerance: real)
    requires p != [] && q != [] && multiset(p) == multiset(q)
    ensures UncertainAxes(p, keys, tolerance) == UncertainAxes(q, keys, tolerance)
  {
    if keys != [] {
      UncertainIgnoresOrder(p, q, keys[..|keys| - 1], tolerance);
      AxisIgnoresOrder(p, q, keys[|keys| - 1]);
    }
  }

  lemma {:induction false} ScoresIgnoreOrder(p: seq<map<string, int>>, q: seq<map<string, int>>, keys: seq<string>)
    requires p != [] && q != [] && multiset(p) == multiset(q)
    ensures MediansOf(p, keys) == MediansOf(q, keys) && SpreadsOf(p, keys) == SpreadsOf(q, keys)
  {
    if keys != [] {
      ScoresIgnoreOrder(p, q, keys[..|keys| - 1]);
      AxisIgnoresOrder(p, q, keys[|keys| - 1]);
    }
  }

  /** The consensus is the same, field by field, in whatever order the passes come back. */
  lemma ConsensusIgnoresOrder(p: seq<map<string, int>>, q: seq<map<string, int>>, keys: seq<string>, t: Thresholds,
                              scaleMax: int, c: Consensus, d: Consensus)
    requires p != [] && q != [] && scaleMax > 0 && multiset(p) == multiset(q)
    requires IsConsensus(p, keys, t, scaleMax, c) && IsConsensus(q, keys, t, scaleMax, d)
    ensures c == d
  {
    assert |multiset(p)| == |p| && |multiset(q)| == |q|;
    ScoresIgnoreOrder(p, q, keys);
    UncertainIgnoresOrder(p, q, keys, ToleranceOf(t, scaleMax));
  }
}
