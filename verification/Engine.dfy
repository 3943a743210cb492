/** Scoring engine: integrity of a grid, validation of a score against it and weighted mean
    (`scoring/engine.py`). Weights are exact rationals. */
module Engine {
  import opened Keys
  import opened Options
  import opened Rounding

  /** A band of scores sharing one anchor: `[lo, hi)`, the highest band being closed. */
  datatype Band = Band(lo: int, hi: int, anchor: string)

  datatype Axis = Axis(key: string, anchors: seq<Band>)

  // ---- The anchor of a value -----------------------------------------------------------------------------

  predicate IsTop(bands: seq<Band>, top: int) {
    (forall b | b in bands :: b.hi <= top) && exists b :: b in bands && b.hi == top
  }

  /** `band` holds `value`. */
  predicate Holds(band: Band, value: int, top: int) {
    band.lo <= value < band.hi || (value == top && band.hi == top)
  }

  method TopOf(bands: seq<Band>) returns (top: int)
    requires bands != []
    ensures IsTop(bands, top)
  {
    top := bands[0].hi;
    for i := 1 to |bands|
      invariant forall j | 0 <= j < i :: bands[j].hi <= top
      invariant exists j :: 0 <= j < i && bands[j].hi == top
    {
      if bands[i].hi > top {
        top := bands[i].hi;
      }
    }
  }

  /** The first band, in the order of the grid, that holds the value. */
  ghost predicate IsAnchor(bands: seq<Band>, value: int, r: Option<Band>) {
    match r
    case None => bands == [] || forall top, b | IsTop(bands, top) && b in bands :: !Holds(b, value, top)
    case Some(band) =>
      exists i, top :: IsFirst(bands, value, i, top) && bands[i] == band
  }

  ghost predicate IsFirst(bands: seq<Band>, value: int, i: int, top: int) {
    0 <= i < |bands| && IsTop(bands, top) && Holds(bands[i], value, top)
    && forall j | 0 <= j < i :: !Holds(bands[j], value, top)
  }

  method FindAnchor(bands: seq<Band>, value: int) returns (r: Option<Band>)
    ensures IsAnchor(bands, value, r)
    ensures r.Some? ==> r.value in bands
                        && (r.value.lo <= value < r.value.hi
                            || (value == r.value.hi && forall b | b in bands :: b.hi <= value))
    ensures r.None? ==> forall b | b in bands ::
              !(b.lo <= value < b.hi) && !(value == b.hi && forall c | c in bands :: c.hi <= value)
  {
    if bands == [] {
      return None;
    }
    var top := TopOf(bands);
    for i := 0 to |bands|
      invariant forall j | 0 <= j < i :: !Holds(bands[j], value, top)
    {
      var band := bands[i];
      if band.lo <= value < band.hi {
        assert IsFirst(bands, value, i, top);
        return Some(band);
      }
      if value == top && band.hi == top {
        assert IsFirst(bands, value, i, top);
        return Some(band);
      }
    }
    forall u, b | IsTop(bands, u) && b in bands
      ensures !Holds(b, value, u)
    {
    }
    forall b | b in bands
      ensures !(b.lo <= value < b.hi) && !(value == b.hi && forall c | c in bands :: c.hi <= value)
    {
      assert !Holds(b, value, top);
    }
    return None;
  }

  /** Some band holds the value. */
  ghost predicate Anchored(bands: seq<Band>, value: int) {
    exists top, b :: IsTop(bands, top) && b in bands && Holds(b, value, top)
  }

  // ---- Contiguous cover -----------------------------------------------------------------------------------

  /** Stable insertion by lower bound, as the library sort behaves. */
  function InsertBand(b: Band, s: seq<Band>): seq<Band> {
    if s == [] || b.lo <= s[0].lo then [b] + s else [s[0]] + InsertBand(b, s[1..])
  }

  function SortedBands(bands: seq<Band>): seq<Band> {
    if bands == [] then [] else InsertBand(bands[0], SortedBands(bands[1..]))
  }

  /** The bands follow one another from 0 to the top of the scale. */
  predicate Chained(s: seq<Band>, scaleMax: int) {
    && s != [] && s[0].lo == 0 && s[|s| - 1].hi == scaleMax
    && forall i | 0 <= i < |s| - 1 :: s[i].hi == s[i + 1].lo
  }

  predicate AnchorsCoverRange(bands: seq<Band>, scaleMax: int) {
    Chained(SortedBands(bands), scaleMax)
  }

  ghost predicate ByLower(s: seq<Band>) {
    forall i, j | 0 <= i < j < |s| :: s[i].lo <= s[j].lo
  }

  lemma {:induction false} InsertBandKeeps(b: Band, s: seq<Band>)
    ensures multiset(InsertBand(b, s)) == multiset(s) + multiset{b}
  {
    if s != [] && b.lo > s[0].lo {
      InsertBandKeeps(b, s[1..]);
      assert s == [s[0]] + s[1..];
    }
  }

  lemma ByLowerCons(b: Band, s: seq<Band>)
    requires ByLower(s) && forall c | c in multiset(s) :: b.lo <= c.lo
    ensures ByLower([b] + s)
  {
    forall i | 0 <= i < |s|
      ensures b.lo <= s[i].lo
    {
      assert s[i] in multiset(s);
    }
  }

  lemma {:induction false} InsertBandSorts(b: Band, s: seq<Band>)
    requires ByLower(s)
    ensures ByLower(InsertBand(b, s))
  {
    if s == [] || b.lo <= s[0].lo {
      ByLowerCons(b, s);
    } else {
      InsertBandSorts(b, s[1..]);
      InsertBandKeeps(b, s[1..]);
      ByLowerCons(s[0], InsertBand(b, s[1..]));
    }
  }

  lemma {:induction false} SortedBandsIsSort(bands: seq<Band>)
    ensures ByLower(SortedBands(bands)) && multiset(SortedBands(bands)) == multiset(bands)
  {
    if bands != [] {
      SortedBandsIsSort(bands[1..]);
      InsertBandSorts(bands[0], SortedBands(bands[1..]));
      InsertBandKeeps(bands[0], SortedBands(bands[1..]));
      assert bands == [bands[0]] + bands[1..];
    }
  }

  /** A value below the lower bound of band `n` falls in a band before it. */
  lemma {:induction false} ChainHolds(s: seq<Band>, scaleMax: int, value: int, n: nat) returns (i: nat)
    requires Chained(s, scaleMax) && n < |s| && 0 <= value < s[n].lo
    ensures i < n && s[i].lo <= value < s[i].hi
  {
    if s[n - 1].lo > value {
      i := ChainHolds(s, scaleMax, value, n - 1);
    } else {
      i := n - 1;
    }
  }

  lemma ChainOrder(s: seq<Band>, scaleMax: int, i: nat, j: nat)
    requires Chained(s, scaleMax) && ByLower(s) && i < j < |s|
    ensures s[i].lo <= s[i].hi <= s[j].lo && (j == i + 1 ==> s[i].hi == s[j].lo)
  {
    assert s[i].hi == s[i + 1].lo;
  }

  /** Only the last band can end past the top of the scale, by being inverted. */
  lemma ChainTop(s: seq<Band>, scaleMax: int)
    requires Chained(s, scaleMax) && ByLower(s) && scaleMax >= 0
    ensures var last := s[|s| - 1]; IsTop(s, if last.lo > scaleMax then last.lo else scaleMax)
  {
    var n := |s|;
    var last := s[n - 1];
    assert last in s;
    forall b | b in s
      ensures b.hi <= scaleMax || b.hi <= last.lo
    {
      var i :| 0 <= i < n && s[i] == b;
      if i < n - 1 {
        ChainOrder(s, scaleMax, i, n - 1);
      }
    }
    if last.lo > scaleMax && n > 1 {
      ChainOrder(s, scaleMax, n - 2, n - 1);
      assert s[n - 2] in s && s[n - 2].hi == last.lo;
    }
  }

  lemma TopOfPermutation(s: seq<Band>, t: seq<Band>, top: int)
    requires multiset(s) == multiset(t) && IsTop(s, top)
    ensures IsTop(t, top)
  {
    assert forall b :: b in t <==> b in multiset(t);
    assert forall b :: b in s <==> b in multiset(s);
  }

  /** A cover checked on the sorted bands anchors every score of the scale, in whatever order the grid lists
      them and even when bands are empty or the last one is inverted. */
  lemma CoverAnchors(bands: seq<Band>, scaleMax: int, value: int)
    requires AnchorsCoverRange(bands, scaleMax) && 0 <= value <= scaleMax
    ensures Anchored(bands, value)
  {
    var s := SortedBands(bands);
    SortedBandsIsSort(bands);
    ChainTop(s, scaleMax);
    var last := s[|s| - 1];
    var top := if last.lo > scaleMax then last.lo else scaleMax;
    TopOfPermutation(s, bands, top);
    var i := |s| - 1;
    if value < last.lo {
      i := ChainHolds(s, scaleMax, value, |s| - 1);
    }
    assert Holds(s[i], value, top) && s[i] in multiset(bands);
    assert s[i] in bands;
  }

  /** Two different places of a covering chain never hold the same value, except at the top. */
  lemma HeldOnce(s: seq<Band>, scaleMax: int, value: int, i: nat, j: nat, top: int)
    requires Chained(s, scaleMax) && ByLower(s) && value != top
    requires i < j < |s| && Holds(s[i], value, top)
    ensures !Holds(s[j], value, top)
  {
    ChainOrder(s, scaleMax, i, j);
  }

  lemma AnchorInSorted(bands: seq<Band>, value: int, r: Option<Band>) returns (i: nat, top: int)
    requires IsAnchor(bands, value, r) && r.Some?
    ensures var s := SortedBands(bands); i < |s| && s[i] == r.value && IsTop(s, top) && Holds(s[i], value, top)
  {
    var k, t :| IsFirst(bands, value, k, t) && bands[k] == r.value;
    var s := SortedBands(bands);
    SortedBandsIsSort(bands);
    top := t;
    TopOfPermutation(bands, s, top);
    assert bands[k] in multiset(s);
    i :| 0 <= i < |s| && s[i] == bands[k];
  }

  lemma SortedCommutes(s: seq<Band>, t: seq<Band>, i: nat)
    requires multiset(s) == multiset(t) && i < |s|
    ensures s[i] in t
  {
    assert s[i] in multiset(t);
  }

  /** Two different bands end at the top of the scale and none passes it: the last one is empty. */
  ghost predicate Contested(bands: seq<Band>, scaleMax: int) {
    IsTop(bands, scaleMax) && exists b, c :: b in bands && c in bands && b.hi == c.hi == scaleMax && b != c
  }

  /** On a grid that covers the scale, the anchor found does not depend on the order in which the bands are
      listed, except for the highest score of a contested grid. */
  lemma AnchorIgnoresOrder(bands: seq<Band>, other: seq<Band>, scaleMax: int, value: int, r: Option<Band>,
                           q: Option<Band>)
    requires multiset(bands) == multiset(other) && AnchorsCoverRange(bands, scaleMax) && 0 <= value <= scaleMax
    requires value < scaleMax || !Contested(bands, scaleMax)
    requires IsAnchor(bands, value, r) && IsAnchor(other, value, q)
    ensures r == q && r.Some?
  {
    SortedBandsIsSort(bands);
    SortedBandsIsSort(other);
    CoverAnchors(bands, scaleMax, value);
    AnchoredOfPermutation(bands, other, value);
    var s := SortedBands(bands);
    var i, t := AnchorInSorted(bands, value, r);
    var j0, u := AnchorInSorted(other, value, q);
    SortedCommutes(SortedBands(other), s, j0);
    var j :| 0 <= j < |s| && s[j] == q.value;
    TopOfPermutation(SortedBands(other), s, u);
    TopOfPermutation(s, bands, t);
    SortedCommutes(s, bands, i);
    SortedCommutes(s, bands, j);
    OneHolder(bands, s, scaleMax, value, i, j, t);
  }

  lemma OneHolder(bands: seq<Band>, s: seq<Band>, scaleMax: int, value: int, i: nat, j: nat, top: int)
    requires Chained(s, scaleMax) && ByLower(s) && value <= scaleMax && IsTop(s, top) && IsTop(bands, top)
    requires value < scaleMax || !Contested(bands, scaleMax)
    requires i < |s| && j < |s| && s[i] in bands && s[j] in bands && Holds(s[i], value, top) && Holds(s[j], value, top)
    ensures s[i] == s[j]
  {
    assert s[|s| - 1] in s;
    if value != top {
      if i < j {
        HeldOnce(s, scaleMax, value, i, j, top);
      } else if j < i {
        HeldOnce(s, scaleMax, value, j, i, top);
      }
    }
  }

  lemma AnchoredOfPermutation(s: seq<Band>, t: seq<Band>, value: int)
    requires multiset(s) == multiset(t) && Anchored(s, value)
    ensures Anchored(t, value)
  {
    var top, b :| IsTop(s, top) && b in s && Holds(b, value, top);
    TopOfPermutation(s, t, top);
    assert b in multiset(t);
    assert b in t;
  }

  lemma MoveFirst(bands: seq<Band>, b: Band) returns (order: seq<Band>)
    requires b in bands
    ensures order != [] && order[0] == b && multiset(order) == multiset(bands)
  {
    var i :| 0 <= i < |bands| && bands[i] == b;
    order := [b] + bands[..i] + bands[i + 1..];
    assert bands == bands[..i] + [b] + bands[i + 1..];
  }

  /** On a contested grid it does: two orders of the same bands give the highest score two anchors. */
  lemma ContestedTop(bands: seq<Band>, scaleMax: int) returns (first: seq<Band>, second: seq<Band>)
    requires Contested(bands, scaleMax)
    ensures multiset(first) == multiset(second) == multiset(bands)
    ensures forall r, q | IsAnchor(first, scaleMax, r) && IsAnchor(second, scaleMax, q) :: r != q
  {
    var b, c :| b in bands && c in bands && b.hi == c.hi == scaleMax && b != c;
    first := MoveFirst(bands, b);
    second := MoveFirst(bands, c);
    TopOfPermutation(bands, first, scaleMax);
    TopOfPermutation(bands, second, scaleMax);
    forall r, q | IsAnchor(first, scaleMax, r) && IsAnchor(second, scaleMax, q)
      ensures r != q
    {
    }
  }

  /** Any listing of bands that follow one another from 0 to the top of the scale, with different lower bounds,
      passes. */
  lemma ChainPasses(chain: seq<Band>, bands: seq<Band>, scaleMax: int)
    requires multiset(chain) == multiset(bands) && chain != []
    requires chain[0].lo == 0 && chain[|chain| - 1].hi == scaleMax
    requires forall i | 0 <= i < |chain| - 1 :: chain[i].hi == chain[i + 1].lo
    requires Rising(chain)
    ensures AnchorsCoverRange(bands, scaleMax)
  {
    SortedBandsIsSort(bands);
    ChainIsSorted(chain, SortedBands(bands));
  }

  ghost predicate Rising(chain: seq<Band>) {
    forall i, j | 0 <= i < j < |chain| :: chain[i].lo < chain[j].lo
  }

  lemma LowestFirst(chain: seq<Band>, s: seq<Band>)
    requires multiset(chain) == multiset(s) && ByLower(s) && Rising(chain) && s != [] && chain != []
    ensures s[0] == chain[0]
  {
    assert chain[0] in multiset(s) && s[0] in multiset(chain);
    var i :| 0 <= i < |s| && s[i] == chain[0];
    var j :| 0 <= j < |chain| && chain[j] == s[0];
    assert s[0].lo <= s[i].lo;
  }

  lemma Apart(s: seq<Band>)
    requires s != []
    ensures s == [s[0]] + s[1..] && multiset(s[1..]) == multiset(s) - multiset{s[0]}
  {
    assert s == [s[0]] + s[1..];
  }

  lemma {:induction false} ChainIsSorted(chain: seq<Band>, s: seq<Band>)
    requires multiset(chain) == multiset(s) && ByLower(s) && Rising(chain)
    ensures s == chain
  {
    assert |multiset(s)| == |s| && |multiset(chain)| == |chain|;
    if s != [] {
      LowestFirst(chain, s);
      Apart(s);
      Apart(chain);
      ChainIsSorted(chain[1..], s[1..]);
    }
  }

  // ---- Grids and scores -------------------------------------------------------------------------------------

  ghost predicate ValidGrid(grid: seq<Axis>, scaleMax: int) {
    grid != [] && forall a | a in grid :: AnchorsCoverRange(a.anchors, scaleMax)
  }

  method ValidateGrid(grid: seq<Axis>, scaleMax: int) returns (ok: bool)
    ensures ok <==> ValidGrid(grid, scaleMax)
  {
    if grid == [] {
      return false;
    }
    for i := 0 to |grid|
      invariant forall j | 0 <= j < i :: AnchorsCoverRange(grid[j].anchors, scaleMax)
    {
      if !AnchorsCoverRange(grid[i].anchors, scaleMax) {
        return false;
      }
    }
    return true;
  }

  predicate HasKey(grid: seq<Axis>, key: string) {
    exists i :: 0 <= i < |grid| && grid[i].key == key
  }

  /** The axis a dictionary keyed by name keeps: the last one listed under that name. */
  function ByKey(grid: seq<Axis>, key: string): (a: Axis)
    requires HasKey(grid, key)
    ensures a in grid && a.key == key
  {
    if grid[|grid| - 1].key == key then grid[|grid| - 1] else ByKey(grid[..|grid| - 1], key)
  }

  lemma {:induction false} ByKeyIsLast(grid: seq<Axis>, i: nat)
    requires i < |grid| && forall j | i < j < |grid| :: grid[j].key != grid[i].key
    ensures HasKey(grid, grid[i].key) && ByKey(grid, grid[i].key) == grid[i]
  {
    assert HasKey(grid, grid[i].key);
    if i < |grid| - 1 {
      ByKeyIsLast(grid[..|grid| - 1], i);
    }
  }

  datatype Verdict = Accepted | WrongAxes | OutOfScale(key: string) | Unanchored(key: string)

  ghost predicate SameAxes(grid: seq<Axis>, axes: map<string, int>) {
    forall k :: k in axes <==> HasKey(grid, k)
  }

  ghost predicate InScale(axes: map<string, int>, k: string, scaleMax: int)
    requires k in axes
  {
    0 <= axes[k] <= scaleMax
  }

  /** `v` is what the validation of the score may answer: which faulty axis is named depends on the order of the
      dictionary. */
  ghost predicate IsVerdict(grid: seq<Axis>, axes: map<string, int>, scaleMax: int, v: Verdict) {
    && (v.WrongAxes? <==> !SameAxes(grid, axes))
    && match v
       case WrongAxes => true
       case OutOfScale(k) => k in axes && !InScale(axes, k, scaleMax)
       case Unanchored(k) => HasKey(grid, k) && k in axes && InScale(axes, k, scaleMax) && !AnchoredAt(grid, axes, k)
       case Accepted =>
         forall k | k in axes :: InScale(axes, k, scaleMax) && HasKey(grid, k) && AnchoredAt(grid, axes, k)
  }

  ghost predicate AnchoredAt(grid: seq<Axis>, axes: map<string, int>, k: string)
    requires HasKey(grid, k) && k in axes
  {
    Anchored(ByKey(grid, k).anchors, axes[k])
  }

  method ValidateAxes(grid: seq<Axis>, axes: map<string, int>, scaleMax: int) returns (v: Verdict)
    ensures IsVerdict(grid, axes, scaleMax, v)
    ensures v.WrongAxes? <==> axes.Keys != set i | 0 <= i < |grid| :: grid[i].key
    ensures v.OutOfScale? ==> v.key in axes && (axes[v.key] < 0 || axes[v.key] > scaleMax)
    ensures v.Accepted? ==> forall k | k in axes :: 0 <= axes[k] <= scaleMax
  {
    var expected := set i | 0 <= i < |grid| :: grid[i].key;
    assert forall k :: k in expected <==> HasKey(grid, k);
    if expected != axes.Keys {
      return WrongAxes;
    }
    var rest := axes.Keys;
    while rest != {}
      invariant rest <= axes.Keys
      invariant forall k | k in axes && k !in rest ::
        InScale(axes, k, scaleMax) && HasKey(grid, k) && AnchoredAt(grid, axes, k)
      decreases |rest|
    {
      var key :| key in rest;
      rest := rest - {key};
      if !(0 <= axes[key] <= scaleMax) {
        return OutOfScale(key);
      }
      var band := FindAnchor(ByKey(grid, key).anchors, axes[key]);
      if band.None? {
        return Unanchored(key);
      }
    }
    return Accepted;
  }

  /** Against a grid that passed its integrity check, validation accepts exactly the scores that name the axes of
      the grid and stay within the scale: the anchor check can no longer fail. */
  lemma AcceptedIff(grid: seq<Axis>, axes: map<string, int>, scaleMax: int, v: Verdict)
    requires ValidGrid(grid, scaleMax) && IsVerdict(grid, axes, scaleMax, v)
    ensures v.Accepted? <==> axes.Keys == (set i | 0 <= i < |grid| :: grid[i].key)
                             && forall k | k in axes :: 0 <= axes[k] <= scaleMax
    ensures !v.Unanchored?
  {
    var expected := set i | 0 <= i < |grid| :: grid[i].key;
    assert forall k :: k in expected <==> HasKey(grid, k);
    assert SameAxes(grid, axes) <==> axes.Keys == expected;
    if v.Unanchored? {
      CoverAnchors(ByKey(grid, v.key).anchors, scaleMax, axes[v.key]);
    }
  }

  // ---- The weighted mean --------------------------------------------------------------------------------------

  const DEFAULT_WEIGHT := 1.0

  function AxisKeys(grid: seq<Axis>): seq<string> {
    seq(|grid|, i requires 0 <= i < |grid| => grid[i].key)
  }

  function WeightOf(overrides: map<string, real>, key: string): real {
    if key in overrides then overrides[key] else DEFAULT_WEIGHT
  }

  function ScoreOf(axes: map<string, int>, key: string): int {
    if key in axes then axes[key] else 0
  }

  function TotalWeight(keys: seq<string>, overrides: map<string, real>): real {
    if keys == [] then 0.0 else TotalWeight(keys[..|keys| - 1], overrides) + WeightOf(overrides, keys[|keys| - 1])
  }

  function Contribution(overrides: map<string, real>, axes: map<string, int>, key: string): real {
    Times(ScoreOf(axes, key) as real, WeightOf(overrides, key))
  }

  function WeightedSum(keys: seq<string>, overrides: map<string, real>, axes: map<string, int>): real {
    if keys == [] then 0.0
    else
      WeightedSum(keys[..|keys| - 1], overrides, axes) + Contribution(overrides, axes, keys[|keys| - 1])
  }

  function Mean(sum: real, total: real): int {
    if total == 0.0 then 0 else Round(sum / total)
  }

  /** Weighted mean of the axes; `overrides` are the weights of the category of the project. */
  function WeightedOverall(grid: seq<Axis>, overrides: map<string, real>, axes: map<string, int>): int {
    var keys := Distinct(AxisKeys(grid));
    Mean(WeightedSum(keys, overrides, axes), TotalWeight(keys, overrides))
  }

  lemma {:induction false} SumsConcat(a: seq<string>, b: seq<string>, overrides: map<string, real>,
                                      axes: map<string, int>)
    ensures TotalWeight(a + b, overrides) == TotalWeight(a, overrides) + TotalWeight(b, overrides)
    ensures WeightedSum(a + b, overrides, axes) == WeightedSum(a, overrides, axes) + WeightedSum(b, overrides, axes)
  {
    if b == [] {
      assert a + b == a;
    } else {
      var n := |b| - 1;
      SumsConcat(a, b[..n], overrides, axes);
      assert (a + b)[..|a| + n] == a + b[..n];
    }
  }

  /** One axis weighs what its category says, or 1; an axis without a score counts for 0. */
  lemma SumsOfOne(k: string, overrides: map<string, real>, axes: map<string, int>)
    ensures var w := if k in overrides then overrides[k] else 1.0;
            && TotalWeight([k], overrides) == w
            && WeightedSum([k], overrides, axes) == (if k in axes then axes[k] else 0) as real * w
    ensures TotalWeight([], overrides) == 0.0 && WeightedSum([], overrides, axes) == 0.0
  {
    assert [k][..0] == [];
  }

  /** The overall score is the integer nearest to the weighted sum over the total weight, halves going to the even
      neighbour, and 0 when nothing weighs anything. */
  lemma OverallIsMean(grid: seq<Axis>, overrides: map<string, real>, axes: map<string, int>)
    ensures var keys := Distinct(AxisKeys(grid));
            var t := TotalWeight(keys, overrides);
            if t == 0.0 then WeightedOverall(grid, overrides, axes) == 0
            else IsNearest(WeightedSum(keys, overrides, axes) / t, WeightedOverall(grid, overrides, axes))
  {
    var keys := Distinct(AxisKeys(grid));
    var t := TotalWeight(keys, overrides);
    if t != 0.0 {
      RoundIsNearest(WeightedSum(keys, overrides, axes) / t, WeightedOverall(grid, overrides, axes));
    }
  }

  ghost predicate NoNegative(keys: seq<string>, overrides: map<string, real>) {
    forall k | k in keys :: WeightOf(overrides, k) >= 0.0
  }

  lemma ContributionMonotone(overrides: map<string, real>, axes: map<string, int>, other: map<string, int>, k: string)
    requires WeightOf(overrides, k) >= 0.0
    requires WeightOf(overrides, k) == 0.0 || ScoreOf(axes, k) <= ScoreOf(other, k)
    ensures Contribution(overrides, axes, k) <= Contribution(overrides, other, k)
  {
    var x, y, w := ScoreOf(axes, k) as real, ScoreOf(other, k) as real, WeightOf(overrides, k);
    if w != 0.0 {
      assert (y - x) * w >= 0.0;
    }
  }

  lemma {:induction false} TotalIsNonNegative(keys: seq<string>, overrides: map<string, real>)
    requires NoNegative(keys, overrides)
    ensures TotalWeight(keys, overrides) >= 0.0
  {
    if keys != [] {
      var r, k := keys[..|keys| - 1], keys[|keys| - 1];
      assert keys == r + [k];
      TotalIsNonNegative(r, overrides);
    }
  }

  /** Raising scores never lowers the sum. */
  lemma {:induction false} SumMonotone(keys: seq<string>, overrides: map<string, real>,
                                       axes: map<string, int>, other: map<string, int>)
    requires forall k | k in keys :: Contribution(overrides, axes, k) <= Contribution(overrides, other, k)
    ensures WeightedSum(keys, overrides, axes) <= WeightedSum(keys, overrides, other)
  {
    if keys != [] {
      var r, k := keys[..|keys| - 1], keys[|keys| - 1];
      assert keys == r + [k];
      SumMonotone(r, overrides, axes, other);
      assert k in keys;
    }
  }

  function Times(c: real, w: real): real {
    c * w
  }

  lemma TimesAdd(c: real, t: real, w: real)
    ensures Times(c, t + w) == Times(c, t) + Times(c, w) && Times(c, 0.0) == 0.0
  {
  }

  /** The same score on every axis. */
  lemma {:induction false} SumOfConstant(keys: seq<string>, overrides: map<string, real>, axes: map<string, int>,
                                         c: real)
    requires forall k | k in keys :: Contribution(overrides, axes, k) == Times(c, WeightOf(overrides, k))
    ensures WeightedSum(keys, overrides, axes) == Times(c, TotalWeight(keys, overrides))
  {
    if keys == [] {
      TimesAdd(c, 0.0, 0.0);
    } else {
      var r, k := keys[..|keys| - 1], keys[|keys| - 1];
      assert keys == r + [k];
      SumOfConstant(r, overrides, axes, c);
      TimesAdd(c, TotalWeight(r, overrides), WeightOf(overrides, k));
      assert k in keys;
    }
  }

  lemma MeanMonotone(x: real, y: real, t: real)
    requires x <= y && t >= 0.0
    ensures Mean(x, t) <= Mean(y, t)
  {
    if t > 0.0 {
      DivideMonotone(x, y, t);
      RoundMonotone(x / t, y / t);
    }
  }

  /** With non-negative weights, raising the axes that weigh something never lowers the overall score. */
  lemma OverallMonotone(grid: seq<Axis>, overrides: map<string, real>, axes: map<string, int>, other: map<string, int>)
    requires NoNegative(AxisKeys(grid), overrides)
    requires forall k | k in AxisKeys(grid) :: WeightOf(overrides, k) == 0.0 || ScoreOf(axes, k) <= ScoreOf(other, k)
    ensures WeightedOverall(grid, overrides, axes) <= WeightedOverall(grid, overrides, other)
  {
    var keys := Distinct(AxisKeys(grid));
    DistinctKeys(AxisKeys(grid));
    TotalIsNonNegative(keys, overrides);
    forall k | k in keys
      ensures Contribution(overrides, axes, k) <= Contribution(overrides, other, k)
    {
      ContributionMonotone(overrides, axes, other, k);
    }
    SumMonotone(keys, overrides, axes, other);
    MeanMonotone(WeightedSum(keys, overrides, axes), WeightedSum(keys, overrides, other), TotalWeight(keys, overrides));
  }

  lemma CancelFactor(c: real, t: real)
    requires t != 0.0
    ensures Times(c, t) / t == c
  {
    var q := Times(c, t) / t;
    assert q * t == Times(c, t);
    assert (q - c) * t == 0.0;
  }

  lemma MeanOfConstant(c: int, t: real)
    requires t != 0.0
    ensures Mean(Times(c as real, t), t) == c
  {
    CancelFactor(c as real, t);
  }

  lemma OverallOfConstant(grid: seq<Axis>, overrides: map<string, real>, axes: map<string, int>, c: int)
    requires TotalWeight(Distinct(AxisKeys(grid)), overrides) != 0.0
    requires forall k | k in AxisKeys(grid) :: ScoreOf(axes, k) == c
    ensures WeightedOverall(grid, overrides, axes) == c
  {
    var keys := Distinct(AxisKeys(grid));
    DistinctKeys(AxisKeys(grid));
    SumOfConstant(keys, overrides, axes, c as real);
    MeanOfConstant(c, TotalWeight(keys, overrides));
  }

  /** With non-negative weights of positive sum, the overall score lies between the lowest and the highest score
      of the axes that weigh something. */
  lemma OverallBetween(grid: seq<Axis>, overrides: map<string, real>, axes: map<string, int>, lo: int, hi: int)
    requires NoNegative(AxisKeys(grid), overrides) && TotalWeight(Distinct(AxisKeys(grid)), overrides) > 0.0
    requires forall k | k in AxisKeys(grid) :: WeightOf(overrides, k) == 0.0 || lo <= ScoreOf(axes, k) <= hi
    ensures lo <= WeightedOverall(grid, overrides, axes) <= hi
  {
    var low: map<string, int> := map k | k in AxisKeys(grid) :: lo;
    var high: map<string, int> := map k | k in AxisKeys(grid) :: hi;
    OverallOfConstant(grid, overrides, low, lo);
    OverallOfConstant(grid, overrides, high, hi);
    OverallMonotone(grid, overrides, low, axes);
    OverallMonotone(grid, overrides, axes, high);
  }

  // ---- When the overall score stays in the scale --------------------------------------------------------------

  /** The sum of the weights that are not negative. */
  function PositiveWeight(keys: seq<string>, overrides: map<string, real>): real {
    if keys == [] then 0.0
    else
      var w := WeightOf(overrides, keys[|keys| - 1]);
      PositiveWeight(keys[..|keys| - 1], overrides) + if w >= 0.0 then w else 0.0
  }

  ghost predicate ScoresInScale(grid: seq<Axis>, axes: map<string, int>, scaleMax: int) {
    forall k | k in AxisKeys(grid) :: 0 <= ScoreOf(axes, k) <= scaleMax
  }

  /** `axes` gives the top of the scale to the axes whose weight is not negative, or to the others, and 0 elsewhere. */
  ghost predicate Extreme(keys: seq<string>, overrides: map<string, real>, axes: map<string, int>, top: int,
                          positive: bool)
  {
    forall k | k in keys :: ScoreOf(axes, k) == if (WeightOf(overrides, k) >= 0.0) == positive then top else 0
  }

  lemma {:induction false} SumOfExtreme(keys: seq<string>, overrides: map<string, real>, axes: map<string, int>,
                                        top: int, positive: bool)
    requires Extreme(keys, overrides, axes, top, positive)
    ensures var p := PositiveWeight(keys, overrides);
            WeightedSum(keys, overrides, axes)
                == Times(top as real, if positive then p else TotalWeight(keys, overrides) - p)
  {
    if keys == [] {
      TimesAdd(top as real, 0.0, 0.0);
    } else {
      var r, k := keys[..|keys| - 1], keys[|keys| - 1];
      assert keys == r + [k];
      SumOfExtreme(r, overrides, axes, top, positive);
      ExtremeStep(PositiveWeight(r, overrides), TotalWeight(r, overrides), WeightOf(overrides, k), top as real,
                  positive);
      assert k in keys;
    }
  }

  lemma ExtremeStep(p: real, t: real, w: real, top: real, positive: bool)
    ensures var q := p + if w >= 0.0 then w else 0.0;
            Times(top, if positive then q else t + w - q)
            == Times(top, if positive then p else t - p) + Times(if (w >= 0.0) == positive then top else 0.0, w)
  {
    TimesAdd(top, p, w);
    TimesAdd(top, t - p, w);
    assert t + w - p == (t - p) + w;
  }

  /** Any other score of the scale contributes between the two extremes. */
  lemma ContributionBetween(overrides: map<string, real>, k: string, low: map<string, int>, axes: map<string, int>,
                            high: map<string, int>, top: int)
    requires Extreme([k], overrides, high, top, true) && Extreme([k], overrides, low, top, false)
    requires 0 <= ScoreOf(axes, k) <= top
    ensures Contribution(overrides, low, k) <= Contribution(overrides, axes, k) <= Contribution(overrides, high, k)
  {
    assert k in [k];
    var x, w := ScoreOf(axes, k) as real, WeightOf(overrides, k);
    if w >= 0.0 {
      TimesMonotone(0.0, x, w);
      TimesMonotone(x, top as real, w);
    } else {
      TimesMonotone(0.0, x, -w);
      TimesMonotone(x, top as real, -w);
    }
  }

  lemma TimesMonotone(x: real, y: real, w: real)
    requires x <= y && w >= 0.0
    ensures Times(x, w) <= Times(y, w) && Times(y, -w) <= Times(x, -w)
  {
    assert (y - x) * w >= 0.0;
  }

  /** Dividing by a negative total turns the order around. */
  lemma MeanBetween(x: real, y: real, z: real, t: real, lo: int, hi: int)
    requires x <= y <= z && lo <= 0 <= hi
    requires lo <= Mean(x, t) <= hi && lo <= Mean(z, t) <= hi
    ensures lo <= Mean(y, t) <= hi
  {
    if t > 0.0 {
      MeanMonotone(x, y, t);
      MeanMonotone(y, z, t);
    } else if t < 0.0 {
      MeanAntitone(x, y, t);
      MeanAntitone(y, z, t);
    }
  }

  lemma MeanAntitone(x: real, y: real, t: real)
    requires x <= y && t < 0.0
    ensures Mean(y, t) <= Mean(x, t)
  {
    DivideMonotone(x, y, -t);
    RoundMonotone(y / t, x / t);
  }

  /** What a caller checks on the weights alone: the two extreme sums, all the top of the scale on the non-negative
      weights or all of it on the negative ones, have a mean in the scale. */
  predicate WeightsStayInScale(grid: seq<Axis>, overrides: map<string, real>, scaleMax: int) {
    var keys := Distinct(AxisKeys(grid));
    var t, p := TotalWeight(keys, overrides), PositiveWeight(keys, overrides);
    && 0 <= Mean(Times(scaleMax as real, p), t) <= scaleMax
    && 0 <= Mean(Times(scaleMax as real, t - p), t) <= scaleMax
  }

  lemma ExtremesExist(grid: seq<Axis>, overrides: map<string, real>, scaleMax: nat)
    returns (low: map<string, int>, high: map<string, int>)
    ensures ScoresInScale(grid, low, scaleMax) && ScoresInScale(grid, high, scaleMax)
    ensures Extreme(AxisKeys(grid), overrides, low, scaleMax, false)
            && Extreme(AxisKeys(grid), overrides, high, scaleMax, true)
  {
    low := map k | k in AxisKeys(grid) :: if WeightOf(overrides, k) >= 0.0 then 0 else scaleMax;
    high := map k | k in AxisKeys(grid) :: if WeightOf(overrides, k) >= 0.0 then scaleMax else 0;
  }

  lemma WeightsKeepInScale(grid: seq<Axis>, overrides: map<string, real>, scaleMax: nat, axes: map<string, int>)
    requires WeightsStayInScale(grid, overrides, scaleMax) && ScoresInScale(grid, axes, scaleMax)
    ensures 0 <= WeightedOverall(grid, overrides, axes) <= scaleMax
  {
    var keys := Distinct(AxisKeys(grid));
    DistinctKeys(AxisKeys(grid));
    var low, high := ExtremesExist(grid, overrides, scaleMax);
    forall k | k in keys
      ensures Contribution(overrides, low, k) <= Contribution(overrides, axes, k) <= Contribution(overrides, high, k)
    {
      ContributionBetween(overrides, k, low, axes, high, scaleMax);
    }
    SumMonotone(keys, overrides, low, axes);
    SumMonotone(keys, overrides, axes, high);
    SumOfExtreme(keys, overrides, low, scaleMax, false);
    SumOfExtreme(keys, overrides, high, scaleMax, true);
    MeanBetween(WeightedSum(keys, overrides, low), WeightedSum(keys, overrides, axes),
                WeightedSum(keys, overrides, high), TotalWeight(keys, overrides), 0, scaleMax);
  }

  /** The overall score of every score sheet in the scale is in the scale, if and only if those two sums are. A negative
      weight is harmless when rounding absorbs it, and a zero or negative total is covered too. */
  lemma OverallInScaleIff(grid: seq<Axis>, overrides: map<string, real>, scaleMax: nat)
    ensures (forall axes | ScoresInScale(grid, axes, scaleMax) ::
               0 <= WeightedOverall(grid, overrides, axes) <= scaleMax)
            <==> WeightsStayInScale(grid, overrides, scaleMax)
  {
    if WeightsStayInScale(grid, overrides, scaleMax) {
      forall axes | ScoresInScale(grid, axes, scaleMax)
        ensures 0 <= WeightedOverall(grid, overrides, axes) <= scaleMax
      {
        WeightsKeepInScale(grid, overrides, scaleMax, axes);
      }
    } else {
      var low, high := ExtremesExist(grid, overrides, scaleMax);
      var keys := Distinct(AxisKeys(grid));
      DistinctKeys(AxisKeys(grid));
      SumOfExtreme(keys, overrides, low, scaleMax, false);
      SumOfExtreme(keys, overrides, high, scaleMax, true);
    }
  }

  lemma TwoKeys(a: string, b: string, w: map<string, real>, axes: map<string, int>)
    requires a != b
    ensures Distinct([a, b]) == [a, b] && TotalWeight([a, b], w) == WeightOf(w, a) + WeightOf(w, b)
    ensures WeightedSum([a, b], w, axes) == Contribution(w, axes, a) + Contribution(w, axes, b)
  {
    assert [a, b][..1] == [a] && [a][..0] == [];
    assert Distinct([a]) == [a];
    assert TotalWeight([a], w) == WeightOf(w, a);
    assert WeightedSum([a], w, axes) == Contribution(w, axes, a);
  }

  /** Nothing in the code refuses a negative weight, and one is enough to leave the scale of a grid that passed its
      integrity check. */
  lemma NegativeWeightLeavesTheScale(equipe: string, marche: string)
    requires equipe != marche
    ensures var band := Band(0, 10, "unique");
            var grid, axes := [Axis(equipe, [band]), Axis(marche, [band])], map[equipe := 10, marche := 0];
            ValidGrid(grid, 10) && ScoresInScale(grid, axes, 10)
            && WeightedOverall(grid, map[equipe := 2.0, marche := -1.0], axes) == 20
  {
    var band := Band(0, 10, "unique");
    assert [band][1..] == [];
    assert SortedBands([band]) == [band];
    var grid, axes := [Axis(equipe, [band]), Axis(marche, [band])], map[equipe := 10, marche := 0];
    assert AxisKeys(grid) == [equipe, marche];
    TwoKeys(equipe, marche, map[equipe := 2.0, marche := -1.0], axes);
  }
}
