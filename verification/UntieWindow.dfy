/** `untie_window` and `edge_in_gap` of benchmark/readbench/src/params.rs: moving the
    edges of a query window off the edges of the objects it selects. */
module UntieWindow {
  import opened Options
  import opened Numbers
  import opened Sorting
  import opened QueryWindow

  datatype Edge = Lower | Upper

  predicate StrictlyAscending(s: seq<real>) {
    forall i, j | 0 <= i < j < |s| :: s[i] < s[j]
  }

  lemma AscendingByItself(s: seq<real>)
    requires StrictlyBy(s, Itself)
    ensures StrictlyAscending(s)
  {
    forall i, j | 0 <= i < j < |s| ensures s[i] < s[j] { assert Itself(s[i]) < Itself(s[j]); }
  }

  /** The competing edges, as `edge_in_gap` prepares them. */
  function Edges(values: seq<real>): seq<real> {
    Dedup(Sort(values, Itself))
  }

  lemma EdgesAscend(values: seq<real>)
    ensures StrictlyAscending(Edges(values)) && (forall v :: v in Edges(values) <==> v in values)
    ensures values != [] ==> Edges(values) != []
  {
    SortSorts(values, Itself);
    SortPermutes(values, Itself);
    DedupAscends(Sort(values, Itself), Itself);
    DedupKeepsMembers(Sort(values, Itself));
    AscendingByItself(Edges(values));
    SameMembers(Sort(values, Itself), values);
  }

  predicate Before(v: real, edge: real, side: Edge) {
    match side
    case Lower => v < edge
    case Upper => v <= edge
  }

  /** `partition_point`: how many of the ascending values come before the edge. */
  function Own(values: seq<real>, edge: real, side: Edge): (n: nat)
    ensures n <= |values|
  {
    if values == [] || !Before(values[0], edge, side) then 0 else 1 + Own(values[1..], edge, side)
  }

  lemma {:induction false} OwnSplits(values: seq<real>, edge: real, side: Edge, k: nat)
    requires StrictlyAscending(values) && k < |values|
    ensures Before(values[k], edge, side) <==> k < Own(values, edge, side)
  {
    if !Before(values[0], edge, side) {
    } else if k > 0 {
      assert forall i, j | 0 <= i < j < |values[1..]| ::
        values[1..][i] == values[i + 1] && values[1..][j] == values[j + 1];
      OwnSplits(values[1..], edge, side, k - 1);
    }
  }

  function Margin(v: real, quantum: real): real {
    Max(2.0 * quantum, Abs(v) * 0.000000000001)
  }

  /** The point the code would choose in gap `gap`, if it is wide enough. Gap `i` lies
      between `values[i - 1]` and `values[i]`; the first and the last are open-ended. */
  function Wide(values: seq<real>, gap: nat, quantum: real): Option<real>
    requires values != [] && gap <= |values|
  {
    if gap == 0 then Some(values[0] - 2.0 * Margin(values[0], quantum))
    else if gap == |values| then
      Some(values[gap - 1] + 2.0 * Margin(values[gap - 1], quantum))
    else
      var lo, hi := values[gap - 1], values[gap];
      if hi - lo > Max(Margin(lo, quantum), Margin(hi, quantum)) then Some((lo + hi) / 2.0) else None
  }

  /** `gap` is wide and no other wide gap is nearer to the edge's own; the lower one of two. */
  ghost predicate NearestWide(values: seq<real>, own: nat, quantum: real, gap: nat)
    requires values != []
  {
    && gap <= |values| && Wide(values, gap, quantum).Some?
    && forall g: nat | g <= |values| && Wide(values, g, quantum).Some? ::
         Distance(gap, own) < Distance(g, own) || (Distance(gap, own) == Distance(g, own) && gap <= g)
  }

  /** Edge `from`, which competes with the object edges `column`, moves to `point`. */
  ghost predicate Moved(column: seq<real>, from: real, quantum: real, side: Edge, point: real) {
    var values := Edges(column);
    exists gap: nat ::
      && values != [] && NearestWide(values, Own(values, from, side), quantum, gap)
      && Some(point) == Wide(values, gap, quantum)
  }

  /** The edge's own gap is wide enough for it to stay in. */
  predicate CanStay(column: seq<real>, from: real, quantum: real, side: Edge) {
    var values := Edges(column);
    values != [] && Wide(values, Own(values, from, side), quantum).Some?
  }

  ghost predicate NoneNearer(values: seq<real>, own: nat, quantum: real, step: nat)
    requires values != []
  {
    forall g: nat | g <= |values| && Distance(g, own) < step :: Wide(values, g, quantum).None?
  }

  lemma NoneAtStep(values: seq<real>, own: nat, quantum: real, step: nat)
    requires values != [] && own <= |values| && NoneNearer(values, own, quantum, step)
    requires own >= step ==> Wide(values, own - step, quantum).None?
    requires own + step <= |values| ==> Wide(values, own + step, quantum).None?
    ensures NoneNearer(values, own, quantum, step + 1) && step < |values|
  {
    EndsAreWide(values, quantum);
    hide Wide;
    assert Distance(0, own) < step || own == step || step < |values|;
  }

  lemma FoundAtStep(values: seq<real>, own: nat, quantum: real, step: nat, gap: nat)
    requires values != [] && own <= |values| && NoneNearer(values, own, quantum, step)
    requires gap <= |values| && Wide(values, gap, quantum).Some?
    requires gap + step == own || (gap == own + step && (own >= step ==> Wide(values, own - step, quantum).None?))
    ensures NearestWide(values, own, quantum, gap)
  {
    hide Wide;
  }

  /** The loop of `edge_in_gap`: it always finds a wide gap, and takes the nearest. */
  method FindGap(values: seq<real>, own: nat, quantum: real) returns (gap: nat)
    requires values != [] && own <= |values|
    ensures NearestWide(values, own, quantum, gap)
  {
    hide Wide, NoneNearer, NearestWide;
    var step := 0;
    NoneYet(values, own, quantum);
    while step <= |values|
      invariant 0 <= step <= |values| && NoneNearer(values, own, quantum, step)
      decreases |values| - step
    {
      if own >= step && Wide(values, own - step, quantum).Some? {
        FoundAtStep(values, own, quantum, step, own - step);
        return own - step;
      }
      if own + step <= |values| && Wide(values, own + step, quantum).Some? {
        FoundAtStep(values, own, quantum, step, own + step);
        return own + step;
      }
      NoneAtStep(values, own, quantum, step);
      step := step + 1;
    }
    assert false;  // the code's fallback, which would leave the edge where it is
  }

  /** `edge_in_gap`: with at least one competing edge, the edge moves to the nearest gap that is
      wide enough; without any it stays. */
  method EdgeInGap(values: seq<real>, edge: real, quantum: real, side: Edge) returns (point: real)
    ensures if values == [] then point == edge else Moved(values, edge, quantum, side, point)
  {
    if values == [] {
      return edge;
    }
    EdgesAscend(values);
    var sorted := Edges(values);
    var gap := FindGap(sorted, Own(sorted, edge, side), quantum);
    hide Edges, Own, Wide;
    point := Wide(sorted, gap, quantum).value;
  }

  lemma NoneYet(values: seq<real>, own: nat, quantum: real)
    requires values != []
    ensures NoneNearer(values, own, quantum, 0)
  {
  }

  lemma EndsAreWide(values: seq<real>, quantum: real)
    requires values != []
    ensures Wide(values, 0, quantum).Some? && Wide(values, |values|, quantum).Some?
  {
  }

  /** Which gaps are wide, and their points: an inner gap is wide when it is longer than two quanta
      and than a trillionth of either of its ends, and its point is half-way; the first and the last
      gap always are, and their points lie beyond the outermost edge by twice those lengths. */
  lemma WideIs(values: seq<real>, gap: nat, quantum: real)
    requires values != [] && gap <= |values|
    ensures var p := Wide(values, gap, quantum);
      if 0 < gap < |values| then
        var lo, hi := values[gap - 1], values[gap];
        && (p.Some? <==> hi - lo > 2.0 * quantum && (hi - lo) * 1000000000000.0 > Abs(lo)
                         && (hi - lo) * 1000000000000.0 > Abs(hi))
        && (p.Some? ==> p.value - lo == hi - p.value)
      else
        p.Some? &&
        var v := if gap == 0 then values[0] else values[|values| - 1];
        var beyond := if gap == 0 then v - p.value else p.value - v;
        && beyond >= 4.0 * quantum && beyond * 500000000000.0 >= Abs(v)
        && (beyond == 4.0 * quantum || beyond * 500000000000.0 == Abs(v))
  {
  }

  // ----- what the new edge keeps away from

  /** Every value below a gap is at most the gap's lower bound, and every value above it at least its upper one. */
  lemma AroundGap(values: seq<real>, gap: nat, v: real)
    requires StrictlyAscending(values) && gap <= |values| && v in values
    ensures (gap > 0 && v <= values[gap - 1]) || (gap < |values| && v >= values[gap])
  {
    var k :| 0 <= k < |values| && values[k] == v;
  }

  /** With a positive quantum, the point is more than one quantum from every competing edge. */
  lemma PointIsApart(values: seq<real>, gap: nat, quantum: real, v: real)
    requires values != [] && StrictlyAscending(values) && gap <= |values| && v in values && quantum > 0.0
    requires Wide(values, gap, quantum).Some?
    ensures Abs(Wide(values, gap, quantum).value - v) > quantum
  {
    AroundGap(values, gap, v);
  }

  /** Without a quantum the point of a gap still avoids every competing edge, unless the gap lies
      beyond the outermost one and that edge is at zero. */
  lemma PointTiesOnlyAtZero(values: seq<real>, gap: nat, quantum: real)
    requires values != [] && StrictlyAscending(values) && gap <= |values| && quantum <= 0.0
    requires Wide(values, gap, quantum).Some?
    ensures Wide(values, gap, quantum).value in values <==>
      (gap == 0 && values[0] == 0.0) || (gap == |values| && values[|values| - 1] == 0.0)
  {
    var p := Wide(values, gap, quantum).value;
    if p in values { AroundGap(values, gap, p); }
  }

  /** A gap next to an edge at zero is always wide enough without a quantum. */
  lemma WideBesideZero(values: seq<real>, gap: nat, quantum: real)
    requires values != [] && StrictlyAscending(values) && quantum <= 0.0
    requires (gap == 1 && values[0] == 0.0) || (gap == |values| - 1 && values[gap] == 0.0)
    ensures Wide(values, gap, quantum).Some?
  {
  }

  /** All competing edges lie on one side of the edge, and the nearest of them is at zero. */
  predicate BeyondZero(column: seq<real>, from: real, side: Edge) {
    0.0 in column &&
    (|| (forall v | v in column :: v >= 0.0 && !Before(v, from, side))
     || (forall v | v in column :: v <= 0.0 && Before(v, from, side)))
  }

  lemma BeyondZeroMeans(column: seq<real>, from: real, side: Edge)
    requires Edges(column) != []
    ensures var values := Edges(column); var own := Own(values, from, side);
      BeyondZero(column, from, side) <==>
        (own == 0 && values[0] == 0.0) || (own == |values| && values[|values| - 1] == 0.0)
  {
    hide Edges, Own;
    var values := Edges(column);
    var own := Own(values, from, side);
    EdgesAscend(column);
    OwnSplits(values, from, side, 0);
    OwnSplits(values, from, side, |values| - 1);
    if own == 0 || own == |values| {
      forall v | v in column ensures Before(v, from, side) <==> own == |values| {
        var k :| 0 <= k < |values| && values[k] == v;
        OwnSplits(values, from, side, k);
      }
    }
    if 0.0 in column {
      var z :| 0 <= z < |values| && values[z] == 0.0;
      assert values[0] in column && values[|values| - 1] in column;
    }
  }

  lemma NearestBeats(values: seq<real>, own: nat, quantum: real, gap: nat, other: nat)
    requires values != [] && NearestWide(values, own, quantum, gap)
    requires other <= |values| && Wide(values, other, quantum).Some?
    ensures Distance(gap, own) <= Distance(other, own)
  {
    hide Wide;
  }

  /** Without a quantum the gap beyond an outermost edge at zero is chosen only as the edge's own. */
  lemma GapAtZeroIsOwn(values: seq<real>, own: nat, quantum: real, gap: nat)
    requires values != [] && StrictlyAscending(values) && quantum <= 0.0
    requires own <= |values| && NearestWide(values, own, quantum, gap)
    ensures gap == 0 && values[0] == 0.0 ==> own == 0
    ensures gap == |values| && values[gap - 1] == 0.0 ==> own == |values|
  {
    hide Wide, NearestWide;
    var n := |values|;
    EndsAreWide(values, quantum);
    if gap == 0 && values[0] == 0.0 && own > 0 {
      if n > 1 { WideBesideZero(values, 1, quantum); }
      NearestBeats(values, own, quantum, gap, 1);
    } else if gap == n && values[n - 1] == 0.0 && own < n {
      if n > 1 { WideBesideZero(values, n - 1, quantum); }
      NearestBeats(values, own, quantum, gap, n - 1);
    }
  }

  lemma MovedGap(column: seq<real>, from: real, quantum: real, side: Edge, point: real) returns (gap: nat)
    requires Moved(column, from, quantum, side, point)
    ensures var values := Edges(column);
      && values != [] && gap <= |values| && Some(point) == Wide(values, gap, quantum)
      && NearestWide(values, Own(values, from, side), quantum, gap)
  {
    hide Edges, Own, Wide;
    var values := Edges(column);
    gap :| NearestWide(values, Own(values, from, side), quantum, gap) && Some(point) == Wide(values, gap, quantum);
  }

  /** Without a quantum a moved edge ties with a competing one exactly when all of those lie on
      one side of it and the nearest of them is at zero. */
  lemma MovedEdgeTies(column: seq<real>, from: real, quantum: real, side: Edge, point: real)
    requires quantum <= 0.0 && Moved(column, from, quantum, side, point)
    ensures point in column <==> BeyondZero(column, from, side)
  {
    hide Edges, Own, Wide, BeyondZero, NearestWide, Moved;
    var values := Edges(column);
    var own, n := Own(values, from, side), |values|;
    var gap := MovedGap(column, from, quantum, side, point);
    EdgesAscend(column);
    BeyondZeroMeans(column, from, side);
    EndsAreWide(values, quantum);
    PointTiesOnlyAtZero(values, gap, quantum);
    GapAtZeroIsOwn(values, own, quantum, gap);
    if own == 0 || own == n { NearestBeats(values, own, quantum, gap, own); }
  }

  /** An input on which the point ties: one object edge at zero, and no quantum. */
  lemma PointCanTie(edge: real, side: Edge)
    ensures Wide([0.0], Own([0.0], edge, side), 0.0) == Some(0.0)
  {
  }

  // ----- an edge that stays in its own gap

  /** No competing edge is on the side that the edge includes, the nearest is at zero, and there
      is no quantum to keep them apart. */
  predicate Flips(column: seq<real>, edge: real, quantum: real, side: Edge) {
    && quantum <= 0.0 && 0.0 in column
    && match side
       case Lower => forall v | v in column :: v <= 0.0 && v < edge
       case Upper => forall v | v in column :: v >= 0.0 && v > edge
  }

  /** On which side of the point of the edge's own gap each value lies. */
  lemma SidesOfOwnGap(values: seq<real>, edge: real, quantum: real, side: Edge, v: real)
    requires values != [] && StrictlyAscending(values) && v in values
    requires Wide(values, Own(values, edge, side), quantum).Some?
    ensures var own := Own(values, edge, side); var point := Wide(values, own, quantum).value;
      (Before(v, edge, side) <==> Before(v, point, side)) <==>
        !(quantum <= 0.0 && v == 0.0 &&
          (if side.Upper? then own == 0 && v == values[0] else own == |values| && v == values[own - 1]))
  {
    var own := Own(values, edge, side);
    var k :| 0 <= k < |values| && values[k] == v;
    OwnSplits(values, edge, side, k);
    hide Own;
    AroundGap(values, own, v);
  }

  /** An edge that can stay in its own gap does, and then every competing edge is on the side of
      it where it was, unless the edge flips the one at zero. */
  lemma StayedEdgeKeepsSides(column: seq<real>, from: real, quantum: real, side: Edge, point: real)
    requires CanStay(column, from, quantum, side) && Moved(column, from, quantum, side, point)
    ensures (forall v | v in column :: Before(v, from, side) <==> Before(v, point, side)) <==>
      !Flips(column, from, quantum, side)
  {
    hide Edges, Own, Wide;
    var values := Edges(column);
    EdgesAscend(column);
    var own := Own(values, from, side);
    var gap: nat :| NearestWide(values, own, quantum, gap) && Some(point) == Wide(values, gap, quantum);
    assert Distance(own, own) == 0;
    assert gap == own;
    FlipsMeans(column, from, quantum, side);
    forall v | v in column
      ensures (Before(v, from, side) <==> Before(v, point, side)) <==>
        !(quantum <= 0.0 && v == 0.0 &&
          (if side.Upper? then own == 0 && v == values[0] else own == |values| && v == values[own - 1]))
    {
      SidesOfOwnGap(values, from, quantum, side, v);
    }
  }

  lemma FlipsMeans(column: seq<real>, edge: real, quantum: real, side: Edge)
    requires Edges(column) != []
    ensures var values := Edges(column); var own := Own(values, edge, side);
      Flips(column, edge, quantum, side) <==>
        && quantum <= 0.0 && 0.0 in column
        && if side.Upper? then own == 0 && values[0] == 0.0 else own == |values| && values[own - 1] == 0.0
  {
    hide Edges, Own;
    var values := Edges(column);
    var own := Own(values, edge, side);
    EdgesAscend(column);
    OwnSplits(values, edge, side, 0);
    OwnSplits(values, edge, side, |values| - 1);
    forall v | v in column ensures (own == 0 ==> !Before(v, edge, side)) &&
      (own == |values| ==> Before(v, edge, side)) {
      var k :| 0 <= k < |values| && values[k] == v;
      OwnSplits(values, edge, side, k);
    }
    assert values[0] in column && values[|values| - 1] in column;
    if 0.0 in column { var z :| 0 <= z < |values| && values[z] == 0.0; }
  }

  /** An edge that cannot stay in its own gap changes sides with exactly the competing edges
      between that gap and the one it goes to, which is the nearest wide one. */
  lemma MovedEdgePasses(column: seq<real>, from: real, quantum: real, side: Edge, point: real) returns (gap: nat)
    requires Moved(column, from, quantum, side, point) && !CanStay(column, from, quantum, side)
    ensures var values := Edges(column); var own := Own(values, from, side);
      && values != [] && gap <= |values| && gap != own && NearestWide(values, own, quantum, gap)
      && Some(point) == Wide(values, gap, quantum)
      && forall k | 0 <= k < |values| ::
           (Before(values[k], from, side) <==> Before(values[k], point, side)) <==> !(own <= k < gap || gap <= k < own)
  {
    hide Edges, Own, Wide, NearestWide;
    var values := Edges(column);
    var own := Own(values, from, side);
    gap := MovedGap(column, from, quantum, side, point);
    EdgesAscend(column);
    if quantum <= 0.0 { GapAtZeroIsOwn(values, own, quantum, gap); }
    forall k | 0 <= k < |values|
      ensures (Before(values[k], from, side) <==> Before(values[k], point, side)) <==>
        !(own <= k < gap || gap <= k < own)
    {
      OwnSplits(values, from, side, k);
      SideOfPoint(values, gap, quantum, side, k);
    }
  }

  /** The point of a gap has before it the values below the gap. */
  lemma SideOfPoint(values: seq<real>, gap: nat, quantum: real, side: Edge, k: nat)
    requires StrictlyAscending(values) && k < |values| && gap <= |values| && Wide(values, gap, quantum).Some?
    requires quantum <= 0.0 ==> !(gap == 0 && values[0] == 0.0) && !(gap == |values| && values[gap - 1] == 0.0)
    ensures Before(values[k], Wide(values, gap, quantum).value, side) <==> k < gap
  {
    AroundGap(values, gap, values[k]);
  }

  /** An input on which the edge flips one: a lower edge at 5 beyond one object edge at zero. */
  lemma EdgeCanFlip()
    ensures Flips([0.0], 5.0, 0.0, Lower)
    ensures Wide([0.0], Own([0.0], 5.0, Lower), 0.0) == Some(0.0)
    ensures Before(0.0, 5.0, Lower) && !Before(0.0, 0.0, Lower)
  {
  }

  // ----- the window

  datatype RowBoxes = RowBoxes(boxes: seq<Box>, roots: seq<bool>, dataset: Box)

  /** The coordinates `b[axis]` of all boxes. */
  function Column(boxes: seq<Box>, axis: nat): (c: seq<real>)
    requires axis < 6
    ensures |c| == |boxes| && forall i | 0 <= i < |c| :: c[i] == boxes[i][axis]
  {
    seq(|boxes|, i requires 0 <= i < |boxes| => boxes[i][axis])
  }

  /** How many root boxes the window selects. */
  function CountRoots(boxes: seq<Box>, roots: seq<bool>, window: Box): nat
    requires |roots| == |boxes|
  {
    if boxes == [] then 0
    else CountRoots(boxes[1..], roots[1..], window) + if roots[0] && Intersects(boxes[0], window) then 1 else 0
  }

  /** The rows of root objects among those that the window selects. */
  ghost function SelectedRoots(boxes: seq<Box>, roots: seq<bool>, w: Box): set<nat>
    requires |roots| == |boxes|
  {
    set i | i in Selected(boxes, w) && roots[i]
  }

  lemma {:induction false} CountIsSelectedRoots(boxes: seq<Box>, roots: seq<bool>, w: Box)
    requires |roots| == |boxes|
    ensures CountRoots(boxes, roots, w) == |SelectedRoots(boxes, roots, w)|
  {
    if boxes != [] {
      CountIsSelectedRoots(boxes[1..], roots[1..], w);
      FirstSelected(boxes, w);
      RootsSplit(boxes, roots, w);
      hide Selected, Intersects;
      SizeOfSplit(SelectedRoots(boxes, roots, w), SelectedRoots(boxes[1..], roots[1..], w));
    }
  }

  lemma RootsSplit(boxes: seq<Box>, roots: seq<bool>, w: Box)
    requires |roots| == |boxes| && boxes != []
    ensures var all, rest := SelectedRoots(boxes, roots, w), SelectedRoots(boxes[1..], roots[1..], w);
      && (forall i | i in all :: i == 0 || i in Shifted(rest))
      && (forall i | i in Shifted(rest) :: i in all)
  {
    SelectedSplits(boxes, w);
    var all, rest := SelectedRoots(boxes, roots, w), SelectedRoots(boxes[1..], roots[1..], w);
    hide Selected;
    SelectedBelow(boxes, w);
    forall i | i in all ensures i == 0 || i in Shifted(rest) {
      if i > 0 {
        var j: nat := i - 1;
        assert j + 1 in Selected(boxes, w) && roots[1..][j] == roots[i];
        assert j in rest;
      }
    }
    forall i | i in Shifted(rest) ensures i in all {
      assert roots[1..][i - 1] == roots[i];
    }
  }

  lemma SelectedBelow(boxes: seq<Box>, w: Box)
    ensures forall i | i in Selected(boxes, w) :: i < |boxes|
  {
  }

  /** The four new edges of a window: a lower edge competes with the boxes' maxima, an upper
      one with their minima. */
  ghost predicate AllMoved(boxes: seq<Box>, before: Box, w: Box, quantum: (real, real)) {
    && Moved(Column(boxes, 3), before[0], quantum.0, Lower, w[0])
    && Moved(Column(boxes, 0), before[3], quantum.0, Upper, w[3])
    && Moved(Column(boxes, 4), before[1], quantum.1, Lower, w[1])
    && Moved(Column(boxes, 1), before[4], quantum.1, Upper, w[4])
  }

  /** All four edges can stay in their own gap. */
  predicate AllCanStay(boxes: seq<Box>, window: Box, quantum: (real, real)) {
    && CanStay(Column(boxes, 3), window[0], quantum.0, Lower)
    && CanStay(Column(boxes, 0), window[3], quantum.0, Upper)
    && CanStay(Column(boxes, 4), window[1], quantum.1, Lower)
    && CanStay(Column(boxes, 1), window[4], quantum.1, Upper)
  }

  /** `untie_window`. Every x and y edge moves to the nearest wide gap, z is widened, and the
      counts, the fraction and the flag are those of the moved window. */
  method Untie(rows: RowBoxes, window: BboxWindow, quantum: (real, real)) returns (r: BboxWindow)
    requires rows.boxes != [] && |rows.roots| == |rows.boxes|
    ensures AllMoved(rows.boxes, window.window, r.window, quantum)
    ensures var pad := Abs(rows.dataset[5] - rows.dataset[2]) / 100.0 + 1.0;
      r.window[2] == rows.dataset[2] - pad && r.window[5] == rows.dataset[5] + pad
    ensures r.objects == |Selected(rows.boxes, r.window)|
    ensures r.features == |SelectedRoots(rows.boxes, rows.roots, r.window)|
    ensures r.achieved * |rows.boxes| as real == r.objects as real
    ensures r.approx <==> r.achieved < 0.9 * r.target || r.achieved > 1.1 * r.target
    ensures r.tag == window.tag && r.target == window.target
  {
    hide Moved, Count, CountRoots, Fraction, Selected, SelectedRoots;
    var w := window.window;
    var axis := 0;
    while axis < 2
      invariant 0 <= axis <= 2
      invariant axis <= 1 ==> w[1] == window.window[1] && w[4] == window.window[4]
      invariant axis == 0 ==> w == window.window
      invariant axis >= 1 ==>
        && Moved(Column(rows.boxes, 3), window.window[0], quantum.0, Lower, w[0])
        && Moved(Column(rows.boxes, 0), window.window[3], quantum.0, Upper, w[3])
      invariant axis >= 2 ==>
        && Moved(Column(rows.boxes, 4), window.window[1], quantum.1, Lower, w[1])
        && Moved(Column(rows.boxes, 1), window.window[4], quantum.1, Upper, w[4])
    {
      var q := if axis == 0 then quantum.0 else quantum.1;
      var maxima, minima := Column(rows.boxes, axis + 3), Column(rows.boxes, axis);
      var lower := EdgeInGap(maxima, w[axis], q, Lower);
      var upper := EdgeInGap(minima, w[axis + 3], q, Upper);
      w := w[axis := lower][axis + 3 := upper];
      axis := axis + 1;
    }
    var pad := Abs(rows.dataset[5] - rows.dataset[2]) * 0.01 + 1.0;
    w := w[2 := rows.dataset[2] - pad][5 := rows.dataset[5] + pad];
    var objects := Count(rows.boxes, w);
    var features := CountRoots(rows.boxes, rows.roots, w);
    var achieved := Fraction(objects, |rows.boxes|);
    FractionIs(objects, |rows.boxes|);
    CountIsSelected(rows.boxes, w);
    CountIsSelectedRoots(rows.boxes, rows.roots, w);
    r := window.(window := w, achieved := achieved,
                 approx := Abs(achieved - window.target) > BBOX_TOLERANCE * window.target,
                 objects := objects, features := features);
  }

  lemma ColumnHolds(boxes: seq<Box>, axis: nat, k: nat)
    requires axis < 6 && k < |boxes|
    ensures boxes[k][axis] in Column(boxes, axis)
  {
    assert Column(boxes, axis)[k] == boxes[k][axis];
  }

  /** Some edge of the window flips an object edge at zero. */
  predicate AnyFlips(boxes: seq<Box>, window: Box, quantum: (real, real)) {
    || Flips(Column(boxes, 3), window[0], quantum.0, Lower)
    || Flips(Column(boxes, 0), window[3], quantum.0, Upper)
    || Flips(Column(boxes, 4), window[1], quantum.1, Lower)
    || Flips(Column(boxes, 1), window[4], quantum.1, Upper)
  }

  /** No edge of a window that selects anything flips an object edge. */
  lemma NonEmptyWindowNeverFlips(boxes: seq<Box>, window: Box, quantum: (real, real), k: nat)
    requires k < |boxes| && Intersects(boxes[k], window)
    ensures !AnyFlips(boxes, window, quantum)
  {
    ColumnHolds(boxes, 3, k);
    ColumnHolds(boxes, 0, k);
    ColumnHolds(boxes, 4, k);
    ColumnHolds(boxes, 1, k);
    assert Overlaps(boxes[k], window, 0) && Overlaps(boxes[k], window, 1);
  }

  /** When all four edges can stay in their own gap and none of them flips an object edge, the
      moved window selects exactly the boxes that the window selected. */
  lemma UnflippedWindowSelectsTheSame(rows: RowBoxes, before: Box, w: Box, quantum: (real, real), k: nat)
    requires k < |rows.boxes| && Within(rows.boxes[k], rows.dataset)
    requires AllMoved(rows.boxes, before, w, quantum) && AllCanStay(rows.boxes, before, quantum)
    requires !AnyFlips(rows.boxes, before, quantum)
    requires before[2] <= rows.dataset[2] && rows.dataset[5] <= before[5]
    requires w[2] < rows.dataset[2] && rows.dataset[5] < w[5]
    ensures Intersects(rows.boxes[k], before) <==> Intersects(rows.boxes[k], w)
  {
    hide Moved, CanStay, Flips;
    var boxes := rows.boxes;
    ColumnHolds(boxes, 3, k);
    ColumnHolds(boxes, 0, k);
    ColumnHolds(boxes, 4, k);
    ColumnHolds(boxes, 1, k);
    StayedEdgeKeepsSides(Column(boxes, 3), before[0], quantum.0, Lower, w[0]);
    StayedEdgeKeepsSides(Column(boxes, 0), before[3], quantum.0, Upper, w[3]);
    StayedEdgeKeepsSides(Column(boxes, 4), before[1], quantum.1, Lower, w[1]);
    StayedEdgeKeepsSides(Column(boxes, 1), before[4], quantum.1, Upper, w[4]);
    assert Before(boxes[k][3], before[0], Lower) <==> Before(boxes[k][3], w[0], Lower);
    assert Before(boxes[k][0], before[3], Upper) <==> Before(boxes[k][0], w[3], Upper);
    assert Before(boxes[k][4], before[1], Lower) <==> Before(boxes[k][4], w[1], Lower);
    assert Before(boxes[k][1], before[4], Upper) <==> Before(boxes[k][1], w[4], Upper);
  }

  /** When all four edges of a window that selects anything can stay in their own gap, the moved
      window selects exactly the same boxes, with a quantum or without. */
  lemma StayedWindowSelectsTheSame(rows: RowBoxes, before: Box, w: Box, quantum: (real, real), k: nat)
    requires k < |rows.boxes| && Within(rows.boxes[k], rows.dataset)
    requires exists j | 0 <= j < |rows.boxes| :: Intersects(rows.boxes[j], before)
    requires AllMoved(rows.boxes, before, w, quantum) && AllCanStay(rows.boxes, before, quantum)
    requires before[2] <= rows.dataset[2] && rows.dataset[5] <= before[5]
    requires w[2] < rows.dataset[2] && rows.dataset[5] < w[5]
    ensures Intersects(rows.boxes[k], before) <==> Intersects(rows.boxes[k], w)
  {
    hide AllMoved, AllCanStay, AnyFlips, Intersects;
    var j :| 0 <= j < |rows.boxes| && Intersects(rows.boxes[j], before);
    NonEmptyWindowNeverFlips(rows.boxes, before, quantum, j);
    UnflippedWindowSelectsTheSame(rows, before, w, quantum, k);
  }

  /** No moved edge comes within one quantum of an object edge it competes with. */
  lemma MovedEdgeIsApart(column: seq<real>, from: real, quantum: real, side: Edge, point: real, v: real)
    requires v in column && quantum > 0.0 && Moved(column, from, quantum, side, point)
    ensures Abs(point - v) > quantum
  {
    hide Edges, Own, Wide;
    var values := Edges(column);
    EdgesAscend(column);
    var gap: nat :| NearestWide(values, Own(values, from, side), quantum, gap) &&
      Some(point) == Wide(values, gap, quantum);
    PointIsApart(values, gap, quantum, v);
  }
}
