/** The loops of benchmark/scripts/cityjson_merge.py: `merge` over its documents, with
    every refusal, and `requantise_z`. */
module CityJsonMerger {
  import opened Options
  import opened Numbers
  import opened Requantise
  import opened CityJsonMerge

  datatype Error =
    | VersionsDiffer | SystemsDiffer | ScalesDiffer | Extensions
    | RescaleNotIntegral | DuplicateId | ResidualTooLarge

  // ----- coordinates

  function Coordinate(v: int, scale: real, translate: real): real {
    v as real * scale + translate
  }

  /** Where a vertex is. */
  function Place(v: Axes<int>, scale: Axes<real>, translate: Axes<real>): Axes<real> {
    Axes(Coordinate(v.x, scale.x, translate.x), Coordinate(v.y, scale.y, translate.y),
      Coordinate(v.z, scale.z, translate.z))
  }

  /** The places differ on each axis by at most `allowed` units of `scale`. */
  predicate Near(a: Axes<real>, b: Axes<real>, allowed: real, scale: Axes<real>) {
    Abs(a.x - b.x) <= allowed * scale.x && Abs(a.y - b.y) <= allowed * scale.y && Abs(a.z - b.z) <= allowed * scale.z
  }

  /** Shifting a vertex to the common origin moves its coordinate by exactly the residual of the rounding. */
  lemma ShiftMovesByTheResidual(v: int, from: real, to: real, scale: real)
    requires scale > 0.0
    ensures Abs(Coordinate(v + Shift(from, to, scale), scale, to) - Coordinate(v, scale, from)) ==
      Residual(from, to, scale) * scale
    ensures Residual(from, to, scale) <= 0.5
  {
    var q := (from - to) / scale;
    var r := RoundHalfAway(q);
    RoundHalfAwayIsNearest(q, r);
    ProductOf(q, from - to, scale);
    hide RoundHalfAway;
    var d := r as real - q;
    assert (v + r) as real == v as real + q + d;
    ThreeTerms(v as real, q, d, scale);
    assert Coordinate(v + r, scale, to) - Coordinate(v, scale, from) == d * scale;
    AbsProduct(d, scale);
  }

  lemma AbsProduct(d: real, scale: real)
    requires scale > 0.0
    ensures Abs(d * scale) == Abs(d) * scale && Abs(-d) == Abs(d)
  {
  }

  /** Refining the scale by a whole factor moves nothing. */
  lemma RescaleIsExact(v: int, factor: int, scale: real, refined: real, translate: real)
    requires scale == factor as real * refined
    ensures Coordinate(v * factor, refined, translate) == Coordinate(v, scale, translate)
  {
    assert (v * factor) as real == v as real * factor as real;
    assert v as real * factor as real * refined == v as real * (factor as real * refined);
  }

  /** The whole factor between two scales, if there is one. */
  function Factor(scale: real, refined: real): Option<int>
    requires refined > 0.0
  {
    var factor := scale / refined;
    if factor == factor.Floor as real && factor >= 1.0 then Some(factor.Floor) else None
  }

  /** A factor is found exactly when one scale is a whole multiple of the other, and it is that multiple. */
  lemma FactorIs(scale: real, refined: real, n: int)
    requires refined > 0.0
    ensures Factor(scale, refined) == Some(n) <==> n >= 1 && scale == n as real * refined
  {
    var factor := scale / refined;
    ProductOf(factor, scale, refined);
    if scale == n as real * refined {
      QuotientOf(n as real, factor, refined);
    }
  }

  lemma QuotientOf(a: real, b: real, scale: real)
    requires scale > 0.0 && a * scale == b * scale
    ensures a == b
  {
    if a < b { ProductLess(a, b, scale); } else if b < a { ProductLess(b, a, scale); }
  }

  lemma ProductLess(a: real, b: real, scale: real)
    requires scale > 0.0 && a < b
    ensures a * scale < b * scale
  {
  }

  lemma FactorIsExact(scale: real, refined: real)
    requires refined > 0.0 && Factor(scale, refined).Some?
    ensures scale == Factor(scale, refined).value as real * refined
  {
    ProductOf(scale / refined, scale, refined);
  }

  function Scaled(d: Doc, f: Axes<int>): Doc {
    d.(vertices := seq(|d.vertices|, i requires 0 <= i < |d.vertices| =>
         var v := d.vertices[i]; Axes(v.x * f.x, v.y * f.y, v.z * f.z)))
  }

  // ----- the refusals

  ghost predicate SameVersion(docs: seq<Doc>) {
    docs != [] && forall i | 0 <= i < |docs| :: docs[i].version == docs[0].version
  }

  ghost predicate SameSystem(docs: seq<Doc>) {
    forall i | 0 <= i < |docs| :: docs[i].system == docs[0].system
  }

  ghost predicate SameScale(docs: seq<Doc>) {
    forall i | 0 <= i < |docs| :: docs[i].scale == docs[0].scale
  }

  ghost predicate NoExtensions(docs: seq<Doc>) {
    forall i | 0 <= i < |docs| :: !docs[i].hasExtensions
  }

  ghost predicate Uniform(docs: seq<Doc>) {
    SameVersion(docs) && SameSystem(docs) && SameScale(docs) && NoExtensions(docs)
  }

  ghost predicate DistinctIds(objects: seq<CityObject>) {
    forall i, j | 0 <= i < j < |objects| :: objects[i].id != objects[j].id
  }

  function Worst(d: Doc, translate: Axes<real>, scale: Axes<real>): real
    requires Positive(scale)
  {
    var x, y, z := Residual(d.translate.x, translate.x, scale.x),
                   Residual(d.translate.y, translate.y, scale.y),
                   Residual(d.translate.z, translate.z, scale.z);
    if x >= y && x >= z then x else if y >= z then y else z
  }

  /** The residual of a document is the largest of its three axes. */
  lemma WorstIs(d: Doc, translate: Axes<real>, scale: Axes<real>, allowed: real)
    requires Positive(scale)
    ensures Worst(d, translate, scale) <= allowed <==>
      && Residual(d.translate.x, translate.x, scale.x) <= allowed
      && Residual(d.translate.y, translate.y, scale.y) <= allowed
      && Residual(d.translate.z, translate.z, scale.z) <= allowed
  {
    hide Residual;
  }

  ghost predicate SmallResiduals(docs: seq<Doc>, translate: Axes<real>, scale: Axes<real>, allowed: real)
    requires Positive(scale)
  {
    0.0 <= allowed && forall i | 0 <= i < |docs| :: Worst(docs[i], translate, scale) <= allowed
  }

  /** The smallest translate on each axis. */
  ghost predicate IsOrigin(docs: seq<Doc>, t: Axes<real>) {
    var all := Translates(docs);
    IsLeast(all.x, t.x) && IsLeast(all.y, t.y) && IsLeast(all.z, t.z)
  }

  /** The smallest translate on each axis, as the loop finds it. */
  function Smallest(docs: seq<Doc>): Axes<real>
    requires docs != []
  {
    var n := |docs| - 1;
    if n == 0 then docs[0].translate
    else
      var t, u := Smallest(docs[..n]), docs[n].translate;
      Axes(if u.x < t.x then u.x else t.x, if u.y < t.y then u.y else t.y, if u.z < t.z then u.z else t.z)
  }

  lemma TranslatesGrow(docs: seq<Doc>)
    requires docs != []
    ensures var n := |docs| - 1;
      var less, all, u := Translates(docs[..n]), Translates(docs), docs[n].translate;
      all == Axes(less.x + [u.x], less.y + [u.y], less.z + [u.z])
  {
    var n := |docs| - 1;
    var less, all, u := Translates(docs[..n]), Translates(docs), docs[n].translate;
    assert all.x == less.x + [u.x];
    assert all.y == less.y + [u.y];
    assert all.z == less.z + [u.z];
  }

  lemma LeastOfOne(u: real)
    ensures IsLeast([] + [u], u)
  {
  }

  lemma {:induction false} SmallestIsOrigin(docs: seq<Doc>)
    requires docs != []
    ensures IsOrigin(docs, Smallest(docs))
  {
    hide IsLeast, Translates;
    var n := |docs| - 1;
    var less, u := Translates(docs[..n]), docs[n].translate;
    TranslatesGrow(docs);
    if n > 0 {
      var t := Smallest(docs[..n]);
      SmallestIsOrigin(docs[..n]);
      LeastGrows(less.x, t.x, u.x);
      LeastGrows(less.y, t.y, u.y);
      LeastGrows(less.z, t.z, u.z);
    } else {
      LeastOfOne(u.x);
      LeastOfOne(u.y);
      LeastOfOne(u.z);
    }
  }

  // ----- the code

  method Origin(docs: seq<Doc>) returns (t: Axes<real>)
    requires docs != []
    ensures t == Smallest(docs) && IsOrigin(docs, t)
  {
    t := docs[0].translate;
    var i := 1;
    while i < |docs|
      invariant 1 <= i <= |docs| && t == Smallest(docs[..i])
    {
      assert docs[..i + 1][..i] == docs[..i];
      var u := docs[i].translate;
      t := Axes(if u.x < t.x then u.x else t.x, if u.y < t.y then u.y else t.y, if u.z < t.z then u.z else t.z);
      i := i + 1;
    }
    assert docs[..i] == docs;
    SmallestIsOrigin(docs);
  }

  /** `t` is the smallest of the values, and one of them. */
  ghost predicate IsLeast(values: seq<real>, t: real) {
    t in values && forall v | v in values :: t <= v
  }

  lemma LeastGrows(values: seq<real>, t: real, u: real)
    requires IsLeast(values, t)
    ensures IsLeast(values + [u], if u < t then u else t)
  {
  }

  /** The translates on each axis. */
  function Translates(docs: seq<Doc>): (r: Axes<seq<real>>)
    ensures |r.x| == |r.y| == |r.z| == |docs|
  {
    Axes(seq(|docs|, i requires 0 <= i < |docs| => docs[i].translate.x),
         seq(|docs|, i requires 0 <= i < |docs| => docs[i].translate.y),
         seq(|docs|, i requires 0 <= i < |docs| => docs[i].translate.z))
  }

  /** Adds the objects of one document, refusing an identifier that is there already. */
  method AddObjects(objects: seq<CityObject>, ids: set<string>, more: seq<CityObject>)
    returns (r: Option<set<string>>)
    requires DistinctIds(objects) && forall id :: id in ids <==> exists i | 0 <= i < |objects| :: objects[i].id == id
    ensures r.Some? <==> DistinctIds(objects + more)
    ensures r.Some? ==> forall id :: id in r.value <==>
      exists i | 0 <= i < |objects + more| :: (objects + more)[i].id == id
  {
    var seen := ids;
    var k := 0;
    assert objects + more[..0] == objects;
    while k < |more|
      invariant 0 <= k <= |more| && DistinctIds(objects + more[..k])
      invariant forall id :: id in seen <==>
        exists i | 0 <= i < |objects + more[..k]| :: (objects + more[..k])[i].id == id
    {
      ghost var now, next := objects + more[..k], objects + more[..k + 1];
      assert next == now + [more[k]];
      if more[k].id in seen {
        ghost var i :| 0 <= i < |now| && now[i].id == more[k].id;
        assert (objects + more)[i] == now[i] && (objects + more)[|now|] == more[k];
        return None;
      }
      seen := seen + {more[k].id};
      forall id ensures id in seen <==> exists i | 0 <= i < |next| :: next[i].id == id {
        if id in seen {
          if id == more[k].id {
            assert next[|now|].id == id;
          } else {
            var i :| 0 <= i < |now| && now[i].id == id;
            assert next[i].id == id;
          }
        }
      }
      k := k + 1;
    }
    assert more[..k] == more;
    r := Some(seen);
  }

  lemma DuplicateStays(a: seq<CityObject>, b: seq<CityObject>)
    ensures DistinctIds(a + b) ==> DistinctIds(a)
  {
    if DistinctIds(a + b) {
      forall i, j | 0 <= i < j < |a| ensures a[i].id != a[j].id {
        assert (a + b)[i] == a[i] && (a + b)[j] == a[j];
      }
    }
  }

  lemma {:induction false} DuplicateSpreads(docs: seq<Doc>, k: nat, n: nat, translate: Axes<real>, scale: Axes<real>)
    requires k <= n <= |docs| && Positive(scale)
    ensures DistinctIds(MergedTo(docs, n, translate, scale).objects) ==>
      DistinctIds(MergedTo(docs, k, translate, scale).objects)
    decreases n
  {
    hide DistinctIds, OffsetObject;
    if k < n {
      DuplicateSpreads(docs, k, n - 1, translate, scale);
      var m := MergedTo(docs, n - 1, translate, scale);
      DuplicateStays(m.objects, MovedObjects(docs[n - 1], OffsetsOf(m)));
    }
  }

  /** The loop of `merge` over documents that share their scale: it fails exactly when two
      objects share an identifier or an origin cannot be reached closely enough, and else
      returns every document appended to the ones before it. */
  method MergeAll(docs: seq<Doc>, translate: Axes<real>, scale: Axes<real>, allowed: real)
    returns (r: Result<Merged, Error>)
    requires Positive(scale)
    ensures var m := MergedTo(docs, |docs|, translate, scale);
      && (r.Ok? <==> DistinctIds(m.objects) && SmallResiduals(docs, translate, scale, allowed))
      && (r.Ok? ==> r.value == m)
      && (r.Err? ==> r.error == if DistinctIds(m.objects) then ResidualTooLarge else DuplicateId)
  {
    hide Append, Worst, OffsetObject, ShiftOf, DistinctIds;
    var m := EMPTY;
    var ids: set<string> := {};
    var worst := 0.0;
    NoIds();
    var i := 0;
    while i < |docs|
      invariant 0 <= i <= |docs| && m == MergedTo(docs, i, translate, scale)
      invariant DistinctIds(m.objects)
      invariant forall id :: id in ids <==> exists k | 0 <= k < |m.objects| :: m.objects[k].id == id
      invariant worst >= 0.0 && forall k | 0 <= k < i :: Worst(docs[k], translate, scale) <= worst
      invariant worst == 0.0 || exists k | 0 <= k < i :: Worst(docs[k], translate, scale) == worst
    {
      var d := docs[i];
      var residual := Worst(d, translate, scale);
      if residual > worst {
        worst := residual;
      }
      var added := AddObjects(m.objects, ids, MovedObjects(d, OffsetsOf(m)));
      AppendedObjects(m, d, ShiftOf(d, translate, scale));
      m := Append(m, d, ShiftOf(d, translate, scale));
      if added.None? {
        DuplicateSpreads(docs, i + 1, |docs|, translate, scale);
        return Err(DuplicateId);
      }
      ids := added.value;
      i := i + 1;
    }
    if worst > allowed {
      return Err(ResidualTooLarge);
    }
    r := Ok(m);
  }

  lemma NoIds()
    ensures DistinctIds([])
  {
  }

  lemma AppendedObjects(m: Merged, d: Doc, shift: Axes<int>)
    ensures Append(m, d, shift).objects == m.objects + MovedObjects(d, OffsetsOf(m))
  {
  }

  predicate WholeFactors(scale: Axes<real>, fine: Axes<real>)
    requires Positive(fine)
  {
    Factor(scale.x, fine.x).Some? && Factor(scale.y, fine.y).Some? && Factor(scale.z, fine.z).Some?
  }

  /** The documents pass the checks that come before anything is merged. */
  ghost predicate Mergeable(docs: seq<Doc>, rescale: Option<Axes<real>>)
    requires rescale.Some? ==> Positive(rescale.value)
  {
    Uniform(docs) && (rescale.Some? ==> WholeFactors(docs[0].scale, rescale.value))
  }

  /** The documents on the scale that they are merged on: their own, or a finer one. */
  function Prepared(docs: seq<Doc>, rescale: Option<Axes<real>>): (used: seq<Doc>)
    requires docs != []
    requires rescale.Some? ==> Positive(rescale.value) && WholeFactors(docs[0].scale, rescale.value)
    ensures |used| == |docs|
  {
    if rescale.None? then docs
    else
      var s, fine := docs[0].scale, rescale.value;
      var f := Axes(Factor(s.x, fine.x).value, Factor(s.y, fine.y).value, Factor(s.z, fine.z).value);
      seq(|docs|, i requires 0 <= i < |docs| => Scaled(docs[i], f))
  }

  function ScaleOf(docs: seq<Doc>, rescale: Option<Axes<real>>): Axes<real>
    requires docs != []
  {
    if rescale.Some? then rescale.value else docs[0].scale
  }

  /** What merging makes of the documents, from the smallest origin. */
  function Whole(docs: seq<Doc>, rescale: Option<Axes<real>>): Merged
    requires docs != [] && Positive(docs[0].scale)
    requires rescale.Some? ==> Positive(rescale.value) && WholeFactors(docs[0].scale, rescale.value)
  {
    MergedTo(Prepared(docs, rescale), |docs|, Smallest(docs), ScaleOf(docs, rescale))
  }

  /** `merge` up to its accumulators. Every refusal has its exact reason in the documents given,
      in the order of the checks; without one the documents are merged. */
  method Merge(docs: seq<Doc>, rescale: Option<Axes<real>>, allowed: real) returns (r: Result<Merged, Error>)
    requires forall i | 0 <= i < |docs| :: Positive(docs[i].scale)
    requires rescale.Some? ==> Positive(rescale.value)
    ensures r == Err(VersionsDiffer) <==> !SameVersion(docs)
    ensures r == Err(SystemsDiffer) <==> SameVersion(docs) && !SameSystem(docs)
    ensures r == Err(ScalesDiffer) <==> SameVersion(docs) && SameSystem(docs) && !SameScale(docs)
    ensures r == Err(Extensions) <==> SameVersion(docs) && SameSystem(docs) && SameScale(docs) && !NoExtensions(docs)
    ensures r == Err(RescaleNotIntegral) <==> Uniform(docs) && !Mergeable(docs, rescale)
    ensures Mergeable(docs, rescale) ==>
      var m := Whole(docs, rescale);
      var small := SmallResiduals(Prepared(docs, rescale), Smallest(docs), ScaleOf(docs, rescale), allowed);
      r == if !DistinctIds(m.objects) then Err(DuplicateId) else if !small then Err(ResidualTooLarge) else Ok(m)
  {
    hide MergedTo, DistinctIds, SmallResiduals, IsOrigin, Factor, Smallest;
    if docs == [] || exists i | 0 <= i < |docs| :: docs[i].version != docs[0].version {
      return Err(VersionsDiffer);
    }
    if exists i | 0 <= i < |docs| :: docs[i].system != docs[0].system {
      return Err(SystemsDiffer);
    }
    if exists i | 0 <= i < |docs| :: docs[i].scale != docs[0].scale {
      return Err(ScalesDiffer);
    }
    if exists i | 0 <= i < |docs| :: docs[i].hasExtensions {
      return Err(Extensions);
    }
    var all, unit := docs, docs[0].scale;
    if rescale.Some? {
      var fine := rescale.value;
      var fx, fy, fz := Factor(unit.x, fine.x), Factor(unit.y, fine.y), Factor(unit.z, fine.z);
      if fx.None? || fy.None? || fz.None? {
        return Err(RescaleNotIntegral);
      }
      var f := Axes(fx.value, fy.value, fz.value);
      all := seq(|docs|, i requires 0 <= i < |docs| => Scaled(docs[i], f));
      unit := fine;
    }
    assert all == Prepared(docs, rescale);
    var t := Origin(docs);
    r := MergeAll(all, t, unit, allowed);
  }

  /** Rescaled documents have the same coordinates. */
  lemma RescaledVerticesStay(docs: seq<Doc>, rescale: Option<Axes<real>>, i: nat, k: nat)
    requires rescale.Some? ==> Positive(rescale.value)
    requires Mergeable(docs, rescale) && i < |docs| && k < |docs[i].vertices|
    ensures var used := Prepared(docs, rescale)[i];
      && |used.vertices| == |docs[i].vertices| && used.translate == docs[i].translate
      && Place(used.vertices[k], ScaleOf(docs, rescale), used.translate) ==
        Place(docs[i].vertices[k], docs[i].scale, docs[i].translate)
  {
    var v, t, s, fine := docs[i].vertices[k], docs[i].translate, docs[0].scale, ScaleOf(docs, rescale);
    if rescale.Some? {
      FactorIsExact(s.x, fine.x);
      FactorIsExact(s.y, fine.y);
      FactorIsExact(s.z, fine.z);
      hide Factor, Coordinate;
      RescaleIsExact(v.x, Factor(s.x, fine.x).value, s.x, fine.x, t.x);
      RescaleIsExact(v.y, Factor(s.y, fine.y).value, s.y, fine.y, t.y);
      RescaleIsExact(v.z, Factor(s.z, fine.z).value, s.z, fine.z, t.z);
    }
  }

  lemma AxisStays(v: int, from: real, to: real, scale: real, allowed: real)
    requires scale > 0.0 && Residual(from, to, scale) <= allowed
    ensures Abs(Coordinate(v + Shift(from, to, scale), scale, to) - Coordinate(v, scale, from)) <= allowed * scale
  {
    hide Coordinate, Shift, Residual, Abs;
    ShiftMovesByTheResidual(v, from, to, scale);
    ProductBelow(Residual(from, to, scale), allowed, scale);
  }

  /** In a merge that succeeds, no vertex moves by more than the allowed residual times the scale. */
  lemma MergedVerticesStay(docs: seq<Doc>, translate: Axes<real>, scale: Axes<real>, allowed: real, i: nat, k: nat)
    requires Positive(scale) && SmallResiduals(docs, translate, scale, allowed) && i < |docs| && k < |docs[i].vertices|
    ensures var m := MergedTo(docs, |docs|, translate, scale);
      var at := |MergedTo(docs, i, translate, scale).vertices| + k;
      && at < |m.vertices|
      && Near(Place(m.vertices[at], scale, translate),
              Place(docs[i].vertices[k], scale, docs[i].translate), allowed, scale)
  {
    hide MergedTo, Coordinate, Shift, Residual, Abs;
    DocumentIsHeld(docs, i, |docs|, translate, scale);
    var m, before := MergedTo(docs, |docs|, translate, scale), MergedTo(docs, i, translate, scale);
    var moved := MoveVertices(docs[i].vertices, ShiftOf(docs[i], translate, scale));
    assert LiesAt(moved, m.vertices, |before.vertices|);
    assert m.vertices[|before.vertices| + k] == moved[k];
    var v, t := docs[i].vertices[k], docs[i].translate;
    assert Worst(docs[i], translate, scale) <= allowed;
    AxisStays(v.x, t.x, translate.x, scale.x, allowed);
    AxisStays(v.y, t.y, translate.y, scale.y, allowed);
    AxisStays(v.z, t.z, translate.z, scale.z, allowed);
  }

  /** In a merge that succeeds, rescaled or not, no vertex of the documents given ends up further
      from where it was than the allowed residual times the scale of the result. */
  lemma MergeMovesNothingFar(docs: seq<Doc>, rescale: Option<Axes<real>>, allowed: real, i: nat, k: nat)
    requires (rescale.Some? ==> Positive(rescale.value)) && Mergeable(docs, rescale) && Positive(docs[0].scale)
    requires SmallResiduals(Prepared(docs, rescale), Smallest(docs), ScaleOf(docs, rescale), allowed)
    requires i < |docs| && k < |docs[i].vertices|
    ensures var m, scale, origin := Whole(docs, rescale), ScaleOf(docs, rescale), Smallest(docs);
      var at := |MergedTo(Prepared(docs, rescale), i, origin, scale).vertices| + k;
      && at < |m.vertices|
      && Near(Place(m.vertices[at], scale, origin), Place(docs[i].vertices[k], docs[i].scale, docs[i].translate),
        allowed, scale)
  {
    hide Uniform, WholeFactors, SmallResiduals, MergedTo, Place, Near, Smallest, Prepared, Factor;
    RescaledVerticesStay(docs, rescale, i, k);
    MergedVerticesStay(Prepared(docs, rescale), Smallest(docs), ScaleOf(docs, rescale), allowed, i, k);
  }

  function Size(n: int): nat { if n >= 0 then n else -n }

  /** The loop of `requantise_z`; `worst` is the largest change, in input units. */
  method RequantiseHeights(vertices: seq<Axes<int>>, factor: nat) returns (r: seq<Axes<int>>, worst: nat)
    requires factor > 0
    ensures |r| == |vertices|
    ensures forall i | 0 <= i < |vertices| :: r[i] == vertices[i].(z := RequantiseZ(vertices[i].z, factor))
    ensures forall i | 0 <= i < |vertices| :: -(worst as int) <= r[i].z * factor - vertices[i].z <= worst
    ensures worst == 0 || exists i | 0 <= i < |vertices| :: Size(r[i].z * factor - vertices[i].z) == worst
    ensures 2 * worst <= factor
  {
    hide RequantiseZ;
    r, worst := vertices, 0;
    var i := 0;
    while i < |r|
      invariant 0 <= i <= |r| == |vertices| && 2 * worst <= factor
      invariant forall k | 0 <= k < i :: r[k] == vertices[k].(z := RequantiseZ(vertices[k].z, factor))
      invariant forall k | 0 <= k < i :: -(worst as int) <= r[k].z * factor - vertices[k].z <= worst
      invariant worst == 0 || exists k | 0 <= k < i :: Size(r[k].z * factor - vertices[k].z) == worst
      invariant forall k | i <= k < |r| :: r[k] == vertices[k]
    {
      ghost var before := r;
      var z := r[i].z;
      var quantised := RequantiseZ(z, factor);
      RequantisedIsNearest(z, factor);
      var change := quantised * factor - z;
      var size := Size(change);
      if size > worst {
        worst := size;
      }
      r := r[i := r[i].(z := quantised)];
      assert forall k | 0 <= k < i :: r[k] == before[k];
      assert Size(r[i].z * factor - vertices[i].z) == size;
      i := i + 1;
    }
  }
}
