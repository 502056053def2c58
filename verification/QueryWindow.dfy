/** The query-window search of benchmark/readbench/src/params.rs: `window_for_target`,
    which looks for a window that a wanted fraction of the row boxes intersects.
    Coordinates are reals. */
module QueryWindow {
  import opened Numbers
  import opened Sorting

  /** `[minx, miny, minz, maxx, maxy, maxz]`. */
  type Box = b: seq<real> | |b| == 6 witness [0.0, 0.0, 0.0, 0.0, 0.0, 0.0]

  const BBOX_TOLERANCE: real := 0.1
  const BBOX_SEARCH_STEPS: nat := 60

  predicate Overlaps(row: Box, window: Box, axis: nat)
    requires axis < 3
  {
    !(row[axis + 3] < window[axis] || row[axis] > window[axis + 3])
  }

  predicate Intersects(row: Box, window: Box) {
    Overlaps(row, window, 0) && Overlaps(row, window, 1) && Overlaps(row, window, 2)
  }

  function Count(boxes: seq<Box>, window: Box): (n: nat)
    ensures n <= |boxes|
  {
    if boxes == [] then 0
    else Count(boxes[1..], window) + if Intersects(boxes[0], window) then 1 else 0
  }

  /** The rows that the window selects: on each axis such a row ends no earlier than the window
      starts, and starts no later than the window ends. */
  ghost function Selected(boxes: seq<Box>, w: Box): set<nat> {
    set i: nat | i < |boxes|
      && w[0] <= boxes[i][3] && boxes[i][0] <= w[3]
      && w[1] <= boxes[i][4] && boxes[i][1] <= w[4]
      && w[2] <= boxes[i][5] && boxes[i][2] <= w[5]
  }

  lemma {:induction false} CountIsSelected(boxes: seq<Box>, w: Box)
    ensures Count(boxes, w) == |Selected(boxes, w)|
  {
    if boxes != [] {
      CountIsSelected(boxes[1..], w);
      FirstSelected(boxes, w);
      SelectedSplits(boxes, w);
      hide Selected, Intersects;
      SizeOfSplit(Selected(boxes, w), Selected(boxes[1..], w));
    }
  }

  lemma FirstSelected(boxes: seq<Box>, w: Box)
    requires boxes != []
    ensures Intersects(boxes[0], w) <==> 0 in Selected(boxes, w)
  {
  }

  lemma SizeOfSplit(all: set<nat>, rest: set<nat>)
    requires forall i | i in all :: i == 0 || i in Shifted(rest)
    requires forall i | i in Shifted(rest) :: i in all
    ensures |all| == |rest| + if 0 in all then 1 else 0
  {
    ShiftedCount(rest);
    var first := if 0 in all then {0 as nat} else {};
    assert first !! Shifted(rest) && all == first + Shifted(rest);
  }

  ghost function Shifted(a: set<nat>): set<nat> {
    set i | i in a :: i + 1
  }

  lemma {:induction false} ShiftedCount(a: set<nat>)
    ensures |Shifted(a)| == |a|
  {
    if a != {} {
      var i :| i in a;
      ShiftedCount(a - {i});
      ShiftedMore(a, i);
    }
  }

  lemma ShiftedMore(a: set<nat>, i: nat)
    requires i in a
    ensures Shifted(a) == Shifted(a - {i}) + {i + 1} && i + 1 !in Shifted(a - {i})
  {
    forall x | x in Shifted(a) ensures x in Shifted(a - {i}) + {i + 1} {
      var j :| j in a && x == j + 1;
      assert j == i || j in a - {i};
    }
    assert i + 1 in Shifted(a);
  }

  lemma SelectedSplits(boxes: seq<Box>, w: Box)
    requires boxes != []
    ensures forall i: nat :: i + 1 in Selected(boxes, w) <==> i in Selected(boxes[1..], w)
    ensures forall i | i in Selected(boxes, w) :: i == 0 || i in Shifted(Selected(boxes[1..], w))
    ensures forall i | i in Shifted(Selected(boxes[1..], w)) :: i in Selected(boxes, w)
  {
    forall i: nat ensures i + 1 in Selected(boxes, w) <==> i in Selected(boxes[1..], w) {
      if i + 1 < |boxes| { assert boxes[1..][i] == boxes[i + 1]; }
    }
    forall i | i in Selected(boxes, w) ensures i == 0 || i in Shifted(Selected(boxes[1..], w)) {
      if i > 0 {
        var j: nat := i - 1;
        assert j + 1 in Selected(boxes, w);
        assert j in Selected(boxes[1..], w);
      }
    }
  }

  function Itself(r: real): real { r }

  function Median(values: seq<real>): real
    requires values != []
  {
    SortPermutes(values, Itself);
    var sorted := Sort(values, Itself);
    var mid := |sorted| / 2;
    if |sorted| % 2 == 0 then (sorted[mid - 1] + sorted[mid]) / 2.0 else sorted[mid]
  }

  /** The centres of the boxes on one axis. */
  function Centres(boxes: seq<Box>, axis: nat): (c: seq<real>)
    requires axis < 3
    ensures |c| == |boxes| && forall i | 0 <= i < |c| :: c[i] + c[i] == boxes[i][axis] + boxes[i][axis + 3]
  {
    seq(|boxes|, i requires 0 <= i < |boxes| => (boxes[i][axis] + boxes[i][axis + 3]) / 2.0)
  }

  function WindowAt(cx: real, cy: real, half: real, dataset: Box): Box {
    var spanX, spanY := dataset[3] - dataset[0], dataset[4] - dataset[1];
    [cx - half * spanX, cy - half * spanY, dataset[2], cx + half * spanX, cy + half * spanY, dataset[5]]
  }

  function Fraction(count: nat, total: nat): real
    requires total > 0
  {
    count as real / total as real
  }

  datatype BboxWindow = BboxWindow(
    tag: string, target: real, achieved: real, window: Box, approx: bool, objects: nat, features: nat)

  // ----- boxes within an extent

  predicate Within(b: Box, dataset: Box) {
    && dataset[0] <= b[0] <= b[3] <= dataset[3]
    && dataset[1] <= b[1] <= b[4] <= dataset[4]
    && dataset[2] <= b[2] <= b[5] <= dataset[5]
  }

  predicate AllWithin(boxes: seq<Box>, dataset: Box) {
    forall i | 0 <= i < |boxes| :: Within(boxes[i], dataset)
  }

  /** The union of the boxes, as `scan_row_bboxes` folds it. */
  function Extent(boxes: seq<Box>): Box
    requires boxes != []
  {
    if |boxes| == 1 then boxes[0]
    else
      var acc, row := Extent(boxes[..|boxes| - 1]), boxes[|boxes| - 1];
      [Min(acc[0], row[0]), Min(acc[1], row[1]), Min(acc[2], row[2]),
       Max(acc[3], row[3]), Max(acc[4], row[4]), Max(acc[5], row[5])]
  }

  /** Well-formed boxes lie within the extent that is folded from them. */
  lemma {:induction false} ExtentHoldsAll(boxes: seq<Box>)
    requires boxes != [] && forall i | 0 <= i < |boxes| :: Within(boxes[i], boxes[i])
    ensures AllWithin(boxes, Extent(boxes))
  {
    if |boxes| > 1 {
      var n := |boxes| - 1;
      ExtentHoldsAll(boxes[..n]);
      forall i | 0 <= i < |boxes| ensures Within(boxes[i], Extent(boxes)) {
        if i < n {
          assert Within(boxes[..n][i], Extent(boxes[..n]));
        } else {
          assert Within(boxes[n], boxes[n]);
        }
      }
    }
  }

  /** The extent is no larger than it must be: each of its coordinates is that of some box, the
      least or the greatest of all. */
  lemma {:induction false} ExtentIsTight(boxes: seq<Box>, axis: nat)
    requires boxes != [] && axis < 3
    ensures var e := Extent(boxes);
      && (forall i | 0 <= i < |boxes| :: e[axis] <= boxes[i][axis] && boxes[i][axis + 3] <= e[axis + 3])
      && (exists i | 0 <= i < |boxes| :: boxes[i][axis] == e[axis])
      && (exists i | 0 <= i < |boxes| :: boxes[i][axis + 3] == e[axis + 3])
  {
    if |boxes| > 1 {
      var n := |boxes| - 1;
      var front := boxes[..n];
      ExtentIsTight(front, axis);
      var i :| 0 <= i < n && front[i][axis] == Extent(front)[axis];
      var j :| 0 <= j < n && front[j][axis + 3] == Extent(front)[axis + 3];
      assert boxes[i][axis] == front[i][axis] && boxes[j][axis + 3] == front[j][axis + 3];
      assert forall k | 0 <= k < n :: boxes[k] == front[k];
    }
  }

  // ----- the count grows with the window

  predicate Covers(outer: Box, inner: Box) {
    && outer[0] <= inner[0] && inner[3] <= outer[3]
    && outer[1] <= inner[1] && inner[4] <= outer[4]
    && outer[2] <= inner[2] && inner[5] <= outer[5]
  }

  lemma CoverIntersects(row: Box, inner: Box, outer: Box)
    requires Covers(outer, inner) && Intersects(row, inner)
    ensures Intersects(row, outer)
  {
  }

  lemma {:induction false} CountGrows(boxes: seq<Box>, inner: Box, outer: Box)
    requires Covers(outer, inner)
    ensures Count(boxes, inner) <= Count(boxes, outer)
  {
    if boxes != [] {
      CountGrows(boxes[1..], inner, outer);
      if Intersects(boxes[0], inner) { CoverIntersects(boxes[0], inner, outer); }
    }
  }

  lemma {:induction false} CountAll(boxes: seq<Box>, window: Box)
    requires AllWithin(boxes, window)
    ensures Count(boxes, window) == |boxes|
  {
    if boxes != [] {
      assert AllWithin(boxes[1..], window);
      CountAll(boxes[1..], window);
      assert Within(boxes[0], window);
    }
  }

  lemma ProductGrows(a: real, b: real, span: real)
    requires a <= b && span >= 0.0
    ensures a * span <= b * span
  {
  }

  /** The row count never falls as the half-extent grows. */
  lemma CountIsMonotone(boxes: seq<Box>, cx: real, cy: real, small: real, large: real, dataset: Box)
    requires small <= large && dataset[0] <= dataset[3] && dataset[1] <= dataset[4]
    ensures Count(boxes, WindowAt(cx, cy, small, dataset)) <= Count(boxes, WindowAt(cx, cy, large, dataset))
  {
    ProductGrows(small, large, dataset[3] - dataset[0]);
    ProductGrows(small, large, dataset[4] - dataset[1]);
    CountGrows(boxes, WindowAt(cx, cy, small, dataset), WindowAt(cx, cy, large, dataset));
  }

  /** The median is the middle of the values in ascending order, or half-way between the two middle ones. */
  lemma MedianIsMiddle(values: seq<real>, ascending: seq<real>)
    requires values != [] && multiset(values) == multiset(ascending)
    requires forall i, j | 0 <= i < j < |ascending| :: ascending[i] <= ascending[j]
    ensures |ascending| == |values|
    ensures var n, m := |values|, Median(values);
      if n % 2 == 1 then m == ascending[(n - 1) / 2] else m + m == ascending[n / 2 - 1] + ascending[n / 2]
  {
    SortPermutes(values, Itself);
    SortSorts(values, Itself);
    SortedIsUnique(Sort(values, Itself), ascending, Itself);
  }

  /** The median lies between any bounds of the values. */
  lemma MedianIsBetween(values: seq<real>, lo: real, hi: real)
    requires values != [] && forall v | v in values :: lo <= v <= hi
    ensures lo <= Median(values) <= hi
  {
    SortPermutes(values, Itself);
    var sorted := Sort(values, Itself);
    SameMembers(sorted, values);
    assert forall i | 0 <= i < |sorted| :: sorted[i] in values;
  }

  lemma CentreIsInside(boxes: seq<Box>, axis: nat, dataset: Box)
    requires boxes != [] && axis < 3 && AllWithin(boxes, dataset)
    ensures dataset[axis] <= Median(Centres(boxes, axis)) <= dataset[axis + 3]
  {
    var c := Centres(boxes, axis);
    forall v | v in c ensures dataset[axis] <= v <= dataset[axis + 3] {
      var i :| 0 <= i < |c| && c[i] == v;
      assert Within(boxes[i], dataset);
    }
    MedianIsBetween(c, dataset[axis], dataset[axis + 3]);
  }

  /** A half-extent of 1 around a centre inside the extent selects every row. */
  lemma FullWindowSelectsAll(boxes: seq<Box>, cx: real, cy: real, dataset: Box)
    requires AllWithin(boxes, dataset)
    requires dataset[0] <= cx <= dataset[3] && dataset[1] <= cy <= dataset[4]
    ensures Count(boxes, WindowAt(cx, cy, 1.0, dataset)) == |boxes|
  {
    var w := WindowAt(cx, cy, 1.0, dataset);
    forall i | 0 <= i < |boxes| ensures Within(boxes[i], w) {
      assert Within(boxes[i], dataset);
    }
    CountAll(boxes, w);
  }

  // ----- the search

  /** How many rows the window of half-extent `half` selects. */
  function CountAt(boxes: seq<Box>, centre: (real, real), dataset: Box, half: real): (n: nat)
    ensures n <= |boxes|
  {
    Count(boxes, WindowAt(centre.0, centre.1, half, dataset))
  }

  function Halved(k: nat): real {
    if k == 0 then 1.0 else Halved(k - 1) / 2.0
  }

  lemma FractionGrows(a: nat, b: nat, total: nat)
    requires total > 0 && a <= b
    ensures Fraction(a, total) <= Fraction(b, total)
  {
    var x, y, t := a as real, b as real, total as real;
    assert (y - x) / t >= 0.0;
    assert y / t == x / t + (y - x) / t;
  }

  lemma FractionReaches(count: nat, total: nat, target: real)
    requires total > 0
    ensures count as real >= target * total as real <==> Fraction(count, total) >= target
  {
    var c, t := count as real, total as real;
    var f := c / t;
    assert f * t == c;
    if f >= target { ProductGrows(target, f, t); }
    if c >= target * t && f < target {
      assert (target - f) * t > 0.0;
      assert (target - f) * t == target * t - f * t;
    }
  }

  /** What the bisection leaves: `hi` reaches the wanted count, and `lo` falls short of it
      or was never moved. */
  predicate Bracket(boxes: seq<Box>, centre: (real, real), dataset: Box, target: real, lo: real, hi: real)
    requires boxes != []
  {
    && 0.0 <= lo < hi <= 1.0
    && Fraction(CountAt(boxes, centre, dataset, hi), |boxes|) >= target
    && (lo == 0.0 || Fraction(CountAt(boxes, centre, dataset, lo), |boxes|) < target)
  }

  /** No non-empty window whose half-extent lies outside the bracket comes closer to the target than `f`. */
  ghost predicate NothingIsCloser(boxes: seq<Box>, centre: (real, real), dataset: Box, target: real,
                                  lo: real, hi: real, f: real)
    requires boxes != []
  {
    forall half: real | (0.0 <= half <= lo || hi <= half) && CountAt(boxes, centre, dataset, half) > 0 ::
      Abs(f - target) <= Abs(Fraction(CountAt(boxes, centre, dataset, half), |boxes|) - target)
  }

  /** The closer non-empty end of the bracket is the closest window outside it. */
  lemma EndsAreClosest(boxes: seq<Box>, centre: (real, real), dataset: Box, target: real, lo: real, hi: real, f: real)
    requires boxes != [] && Bracket(boxes, centre, dataset, target, lo, hi)
    requires dataset[0] <= dataset[3] && dataset[1] <= dataset[4]
    requires Abs(f - target) <= Abs(Fraction(CountAt(boxes, centre, dataset, hi), |boxes|) - target)
    requires CountAt(boxes, centre, dataset, lo) > 0 ==>
      Abs(f - target) <= Abs(Fraction(CountAt(boxes, centre, dataset, lo), |boxes|) - target)
    ensures NothingIsCloser(boxes, centre, dataset, target, lo, hi, f)
  {
    forall half: real | (0.0 <= half <= lo || hi <= half) && CountAt(boxes, centre, dataset, half) > 0
      ensures Abs(f - target) <= Abs(Fraction(CountAt(boxes, centre, dataset, half), |boxes|) - target)
    {
      hide Fraction, Count;
      var n := CountAt(boxes, centre, dataset, half);
      if hi <= half {
        CountIsMonotone(boxes, centre.0, centre.1, hi, half, dataset);
        FractionGrows(CountAt(boxes, centre, dataset, hi), n, |boxes|);
      } else {
        CountIsMonotone(boxes, centre.0, centre.1, half, lo, dataset);
        FractionGrows(n, CountAt(boxes, centre, dataset, lo), |boxes|);
      }
    }
  }

  /** `w` has its middle at `centre`, `half` of the extent's width to each side of it, and all of its height. */
  ghost predicate IsAround(w: Box, centre: (real, real), half: real, dataset: Box) {
    && w[0] + w[3] == centre.0 + centre.0 && w[3] - centre.0 == half * (dataset[3] - dataset[0])
    && w[1] + w[4] == centre.1 + centre.1 && w[4] - centre.1 == half * (dataset[4] - dataset[1])
    && w[2] == dataset[2] && w[5] == dataset[5]
  }

  lemma WindowIsAround(cx: real, cy: real, half: real, dataset: Box)
    ensures IsAround(WindowAt(cx, cy, half, dataset), (cx, cy), half, dataset)
  {
  }

  lemma FractionIs(count: nat, total: nat)
    requires total > 0
    ensures Fraction(count, total) * total as real == count as real
  {
  }

  /** The bisection of `window_for_target`. */
  method Bisect(boxes: seq<Box>, centre: (real, real), dataset: Box, target: real) returns (low: real, high: real)
    requires boxes != [] && target <= 1.0 && CountAt(boxes, centre, dataset, 1.0) == |boxes|
    ensures Bracket(boxes, centre, dataset, target, low, high)
    ensures high - low == Halved(BBOX_SEARCH_STEPS)
  {
    hide CountAt, Fraction;
    var total := |boxes|;
    var wanted := target * total as real;
    low, high := 0.0, 1.0;
    WholeFraction(total);
    var step := 0;
    while step < BBOX_SEARCH_STEPS
      invariant 0 <= step <= BBOX_SEARCH_STEPS
      invariant Bracket(boxes, centre, dataset, target, low, high)
      invariant high - low == Halved(step)
    {
      var mid := (low + high) / 2.0;
      FractionReaches(CountAt(boxes, centre, dataset, mid), total, target);
      if CountAt(boxes, centre, dataset, mid) as real < wanted {
        low := mid;
      } else {
        high := mid;
      }
      step := step + 1;
    }
  }

  /** `window_for_target`. For well-formed rows and a target in (0, 1] it returns a window
      that is never empty, reports exactly the fraction it selects, and is the closest to
      the target of all non-empty windows around the median centre, but for those whose
      half-extent lies strictly inside an interval of length 2^-60 (`lo` to `hi`). */
  method WindowForTarget(boxes: seq<Box>, dataset: Box, target: real, tag: string)
    returns (r: BboxWindow, ghost centre: (real, real), ghost lo: real, ghost hi: real)
    requires boxes != [] && AllWithin(boxes, dataset) && 0.0 < target <= 1.0
    ensures centre == (Median(Centres(boxes, 0)), Median(Centres(boxes, 1)))
    ensures Bracket(boxes, centre, dataset, target, lo, hi) && hi - lo == Halved(BBOX_SEARCH_STEPS)
    ensures exists half | half == lo || half == hi :: IsAround(r.window, centre, half, dataset)
    ensures r.objects == |Selected(boxes, r.window)| > 0
    ensures r.achieved == Fraction(r.objects, |boxes|) && r.achieved * |boxes| as real == r.objects as real
    ensures NothingIsCloser(boxes, centre, dataset, target, lo, hi, r.achieved)
    ensures r.approx <==> r.achieved < 0.9 * target || r.achieved > 1.1 * target
    ensures r.tag == tag && r.target == target && r.features == 0
  {
    hide Median, Count, Fraction, Selected, WindowAt, IsAround, Halved, AllWithin, Abs, NothingIsCloser;
    var c := (Median(Centres(boxes, 0)), Median(Centres(boxes, 1)));
    CentreIsInside(boxes, 0, dataset);
    CentreIsInside(boxes, 1, dataset);
    FullWindowSelectsAll(boxes, c.0, c.1, dataset);
    var total := |boxes|;
    assert CountAt(boxes, c, dataset, 1.0) == total;
    var low, high := Bisect(boxes, c, dataset, target);
    var best, bestCount := high, CountAt(boxes, c, dataset, high);
    var lowCount := CountAt(boxes, c, dataset, low);
    NothingIsZero(bestCount, total, target);
    if lowCount > 0 && Abs(Fraction(lowCount, total) - target) < Abs(Fraction(bestCount, total) - target) {
      best, bestCount := low, lowCount;
    }
    var achieved := Fraction(bestCount, total);
    ReportsIt(boxes, c, best, dataset, bestCount);
    EndsAreClosest(boxes, c, dataset, target, low, high, achieved);
    ApproxIs(achieved, target);
    r := BboxWindow(tag, target, achieved, WindowAt(c.0, c.1, best, dataset),
                    Abs(achieved - target) > BBOX_TOLERANCE * target, bestCount, 0);
    centre, lo, hi := c, low, high;
  }

  /** What the method reports of the window it has chosen. */
  lemma ReportsIt(boxes: seq<Box>, centre: (real, real), half: real, dataset: Box, count: nat)
    requires boxes != [] && count == CountAt(boxes, centre, dataset, half)
    ensures var w := WindowAt(centre.0, centre.1, half, dataset);
      IsAround(w, centre, half, dataset) && count == |Selected(boxes, w)|
    ensures Fraction(count, |boxes|) * |boxes| as real == count as real
  {
    hide Fraction, Selected, WindowAt, Count;
    FractionIs(count, |boxes|);
    CountIsSelected(boxes, WindowAt(centre.0, centre.1, half, dataset));
    WindowIsAround(centre.0, centre.1, half, dataset);
  }

  lemma ApproxIs(achieved: real, target: real)
    ensures Abs(achieved - target) > BBOX_TOLERANCE * target <==> achieved < 0.9 * target || achieved > 1.1 * target
  {
  }

  lemma WholeFraction(total: nat)
    requires total > 0
    ensures Fraction(total, total) == 1.0
  {
  }

  lemma NothingIsZero(count: nat, total: nat, target: real)
    requires total > 0 && Fraction(count, total) >= target > 0.0
    ensures count > 0
  {
  }
}
