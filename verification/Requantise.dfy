/** Three ways in which the repository moves integer vertices to another origin or scale:
    the shift plan of scripts/3dbag2cityparquet/3dbag2cityparquet.py, and the shift and
    the height re-quantisation of benchmark/scripts/cityjson_merge.py. */
module Requantise {
  import opened Numbers

  /** Rounding half away from zero: Rust's `round`, and `ROUND_HALF_UP` of Python's decimals. */
  function RoundHalfAway(r: real): int {
    if r >= 0.0 then (r + 0.5).Floor else -(0.5 - r).Floor
  }

  /** It is the nearest integer, and of two nearest ones the one farther from zero. */
  lemma RoundHalfAwayIsNearest(r: real, n: int)
    ensures Abs(r - RoundHalfAway(r) as real) <= Abs(r - n as real)
    ensures Abs(r - RoundHalfAway(r) as real) == Abs(r - n as real) ==> Abs(n as real) <= Abs(RoundHalfAway(r) as real)
    ensures Abs(r - RoundHalfAway(r) as real) <= 0.5
  {
    var q := RoundHalfAway(r);
    assert q as real - 0.5 <= r <= q as real + 0.5;
    if n < q {
      assert n as real <= q as real - 1.0;
    } else if n > q {
      assert n as real >= q as real + 1.0;
    }
    assert r >= 0.0 ==> q >= 0 && r < q as real + 0.5;
    assert r < 0.0 ==> q <= 0 && r > q as real - 0.5;
    hide RoundHalfAway;
  }

  // ----- the shift plan

  /** One axis of the plan: the integer to add, and whether the offset is a tie. */
  function Plan(offset: real): (int, bool) {
    var m := offset.Floor;
    var f := offset - m as real;
    (if f > 0.5 then m + 1 else m, f == 0.5)
  }

  /** `_ax`. */
  function Ax(v: int, base: int, tie: bool): int {
    var w := v + base;
    if tie && w >= 0 then w + 1 else w
  }

  /** Adding the planned integer is rounding the moved vertex half away from zero, for every
      offset and every vertex. */
  lemma PlannedShiftRounds(v: int, offset: real)
    ensures Ax(v, Plan(offset).0, Plan(offset).1) == RoundHalfAway(v as real + offset)
  {
    var m := offset.Floor;
    var f := offset - m as real;
    if f == 0.5 {
      if v + m >= 0 {
        assert v as real + offset == (v + m) as real + 0.5;
      } else {
        assert v as real + offset == (v + m) as real + 0.5 < 0.0;
      }
    }
  }

  /** The other merge rounds the shift alone. For the offsets that occur, from the smallest
      origin, both give the same vertex, except exactly on a tie that ends below zero. */
  lemma ShiftsAgree(v: int, offset: real)
    requires offset >= 0.0
    ensures Ax(v, Plan(offset).0, Plan(offset).1) == v + RoundHalfAway(offset)
      <==> !(Plan(offset).1 && v + offset.Floor < 0)
  {
  }

  /** An input on which they differ: the vertex -1, moved by half a unit. */
  lemma ShiftsCanDiffer()
    ensures Ax(-1, Plan(0.5).0, Plan(0.5).1) == -1 && -1 + RoundHalfAway(0.5) == 0
  {
  }

  lemma ProductOf(a: real, b: real, scale: real)
    requires scale > 0.0 && a == b / scale
    ensures a * scale == b
  {
  }

  lemma ProductBelow(a: real, b: real, scale: real)
    requires scale > 0.0 && a <= b
    ensures a * scale <= b * scale
  {
  }

  lemma ThreeTerms(a: real, b: real, c: real, scale: real)
    ensures (a + b + c) * scale == a * scale + b * scale + c * scale
  {
  }

  /** The moved vertex is within half a unit of where it was. */
  lemma MovedByHalfAUnit(v: int, from: real, to: real, scale: real)
    requires scale > 0.0
    ensures var plan := Plan((from - to) / scale);
      Abs((Ax(v, plan.0, plan.1) as real * scale + to) - (v as real * scale + from)) <= scale / 2.0
  {
    var offset := (from - to) / scale;
    var (base, tie) := Plan(offset);
    PlannedShiftRounds(v, offset);
    var exact := v as real + offset;
    var q := RoundHalfAway(exact);
    RoundHalfAwayIsNearest(exact, q);
    ProductOf(offset, from - to, scale);
    var d := q as real - exact;
    ProductBelow(d, 0.5, scale);
    ProductBelow(-0.5, d, scale);
    assert Ax(v, base, tie) == q;
    hide RoundHalfAway, Plan, Ax;
    ThreeTerms(v as real, offset, d, scale);
    var moved, was := q as real * scale + to, v as real * scale + from;
    assert moved - was == d * scale;
    assert -0.5 * scale <= d * scale <= 0.5 * scale;
    assert Abs(moved - was) <= scale / 2.0;
    assert Ax(v, Plan((from - to) / scale).0, Plan((from - to) / scale).1) == q;
  }

  /** The shift loop of `stage_plan`, on one axis of all tiles. The common origin is the
      smallest one, and every tile's integer shift rounds its vertices half away from zero. */
  method PlanAxis(translates: seq<real>, scale: real) returns (translate: real, base: seq<int>, tie: seq<bool>)
    requires translates != [] && scale > 0.0
    ensures translate in translates && forall t | t in translates :: translate <= t
    ensures |base| == |tie| == |translates|
    ensures forall k, v: int | 0 <= k < |translates| ::
      Ax(v, base[k], tie[k]) == RoundHalfAway(v as real + (translates[k] - translate) / scale)
  {
    translate := translates[0];
    var i := 1;
    while i < |translates|
      invariant 1 <= i <= |translates| && translate in translates
      invariant forall k | 0 <= k < i :: translate <= translates[k]
    {
      if translates[i] < translate {
        translate := translates[i];
      }
      i := i + 1;
    }
    base, tie := [], [];
    i := 0;
    while i < |translates|
      invariant 0 <= i <= |translates| && |base| == |tie| == i
      invariant forall k | 0 <= k < i :: (base[k], tie[k]) == Plan((translates[k] - translate) / scale)
    {
      var offset := (translates[i] - translate) / scale;
      var m := offset.Floor;
      var f := offset - m as real;
      if f > 0.5 {
        m := m + 1;
      }
      base := base + [m];
      tie := tie + [f == 0.5];
      i := i + 1;
    }
    forall k, v: int | 0 <= k < |translates|
      ensures Ax(v, base[k], tie[k]) == RoundHalfAway(v as real + (translates[k] - translate) / scale)
    {
      PlannedShiftRounds(v, (translates[k] - translate) / scale);
    }
  }

  /** The height of a vertex in units `factor` times as large, rounded half up. */
  function RequantiseZ(z: int, factor: nat): int
    requires factor > 0
  {
    (2 * z + factor) / (2 * factor)
  }

  /** Re-quantising moves a height by at most half a new unit, a tie upwards. */
  lemma RequantisedIsNearest(z: int, factor: nat)
    requires factor > 0
    ensures var q := RequantiseZ(z, factor);
      2 * (q * factor - z) <= factor && 2 * (z - q * factor) < factor
  {
    var q := RequantiseZ(z, factor);
    var d := 2 * factor;
    assert 2 * z + factor == d * q + (2 * z + factor) % d;
    assert d * q == 2 * (q * factor);
  }
}
