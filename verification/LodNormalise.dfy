/** `normalise` of benchmark/readbench/src/lod.rs, which rewrites a document in place. */
module LodNormalise {
  import opened Options
  import opened LodModel

  /** `mark`: notes every vertex that `value` names, and fails on an index outside them. */
  method Mark(value: Bounds, used: array<bool>) returns (ok: bool)
    modifies used
    ensures ok <==> InRange(value, used.Length)
    ensures ok ==> forall n | 0 <= n < used.Length :: used[n] <==> old(used[n]) || Names(value, n)
    decreases value
  {
    match value {
      case Number(n) =>
        if n < 0 || n >= used.Length {
          return false;
        }
        used[n] := true;
        return true;
      case List(items) =>
        var i := 0;
        while i < |items|
          invariant 0 <= i <= |items|
          invariant forall k | 0 <= k < i :: InRange(items[k], used.Length)
          invariant forall n | 0 <= n < used.Length ::
            used[n] <==> old(used[n]) || exists k | 0 <= k < i :: Names(items[k], n)
        {
          ghost var before := used[..];
          var one := Mark(items[i], used);
          if !one {
            return false;
          }
          forall n | 0 <= n < used.Length
            ensures used[n] <==> old(used[n]) || exists k | 0 <= k < i + 1 :: Names(items[k], n)
          {
            assert used[n] <==> before[n] || Names(items[i], n);
            assert (exists k | 0 <= k < i + 1 :: Names(items[k], n))
              <==> (exists k | 0 <= k < i :: Names(items[k], n)) || Names(items[i], n);
          }
          i := i + 1;
        }
        return true;
      case Other =>
        return true;
    }
  }

  /** `boundaries_mut`: the boundaries of all remaining geometries, instances included. */
  function BoundariesIn(gs: seq<Geometry>): seq<Bounds> {
    if gs == [] then []
    else (if gs[0].boundaries.Some? then [gs[0].boundaries.value] else []) + BoundariesIn(gs[1..])
  }

  function Boundaries(objects: seq<CityObject>): seq<Bounds> {
    if objects == [] then [] else BoundariesIn(GeometriesOf(objects[0])) + Boundaries(objects[1..])
  }

  lemma {:induction false} BoundariesInAre(gs: seq<Geometry>, b: Bounds)
    ensures b in BoundariesIn(gs) <==> exists g | g in gs :: g.boundaries == Some(b)
  {
    if gs != [] {
      BoundariesInAre(gs[1..], b);
      assert gs == [gs[0]] + gs[1..];
    }
  }

  lemma {:induction false} BoundariesAre(objects: seq<CityObject>, b: Bounds)
    ensures b in Boundaries(objects) <==> exists o, g | o in objects && g in GeometriesOf(o) :: g.boundaries == Some(b)
  {
    if objects != [] {
      BoundariesAre(objects[1..], b);
      BoundariesInAre(GeometriesOf(objects[0]), b);
      assert objects == [objects[0]] + objects[1..];
    }
  }

  ghost predicate BoundsInRange(bs: seq<Bounds>, count: nat) {
    forall i | 0 <= i < |bs| :: InRange(bs[i], count)
  }

  lemma RangeFromBoundaries(objects: seq<CityObject>, count: nat)
    requires BoundsInRange(Boundaries(objects), count)
    ensures AllInRange(objects, count)
  {
    hide InRange, Boundaries;
    forall o | o in objects ensures ObjectInRange(o, count) {
      forall g | g in GeometriesOf(o) && g.boundaries.Some? ensures InRange(g.boundaries.value, count) {
        BoundariesAre(objects, g.boundaries.value);
        assert g.boundaries == Some(g.boundaries.value);
      }
    }
  }

  lemma RangeOfBoundaries(objects: seq<CityObject>, count: nat)
    ensures AllInRange(objects, count) <==> BoundsInRange(Boundaries(objects), count)
  {
    hide InRange, Boundaries, GeometriesOf;
    if AllInRange(objects, count) {
      var bs := Boundaries(objects);
      forall i | 0 <= i < |bs| ensures InRange(bs[i], count) {
        BoundariesAre(objects, bs[i]);
        var o, g :| o in objects && g in GeometriesOf(o) && g.boundaries == Some(bs[i]);
        assert ObjectInRange(o, count);
      }
    } else if BoundsInRange(Boundaries(objects), count) {
      RangeFromBoundaries(objects, count);
    }
  }

  lemma NamesOfBoundaries(objects: seq<CityObject>, n: int)
    ensures IsNamed(objects, n) <==> exists b | b in Boundaries(objects) :: Names(b, n)
  {
    hide Names, Boundaries;
    if IsNamed(objects, n) {
      var o :| o in objects && ObjectNames(o, n);
      var g :| g in GeometriesOf(o) && g.boundaries.Some? && Names(g.boundaries.value, n);
      BoundariesAre(objects, g.boundaries.value);
    }
    if b :| b in Boundaries(objects) && Names(b, n) {
      BoundariesAre(objects, b);
      var o, g :| o in objects && g in GeometriesOf(o) && g.boundaries == Some(b);
      assert ObjectNames(o, n);
    }
  }

  /** `retain` with the set of keys seen so far. */
  method RetainFirst(gs: seq<Geometry>) returns (kept: seq<Geometry>)
    ensures kept == KeepFirst(gs, {})
  {
    hide Key, KeepFirst;
    kept := [];
    var seen := {};
    var i := 0;
    while i < |gs|
      invariant 0 <= i <= |gs|
      invariant kept + KeepFirst(gs[i..], seen) == KeepFirst(gs, {})
    {
      KeepFirstStep(gs, i, seen);
      var key := Key(gs[i]);
      if key.None? {
        kept := kept + [gs[i]];
      } else if key.value !in seen {
        seen := seen + {key.value};
        kept := kept + [gs[i]];
      }
      i := i + 1;
    }
    assert KeepFirst(gs[i..], seen) == [];
  }

  lemma KeepFirstStep(gs: seq<Geometry>, i: nat, seen: set<string>)
    requires i < |gs|
    ensures var key := Key(gs[i]);
      KeepFirst(gs[i..], seen) ==
        if key.None? then [gs[i]] + KeepFirst(gs[i + 1..], seen)
        else if key.value in seen then KeepFirst(gs[i + 1..], seen)
        else [gs[i]] + KeepFirst(gs[i + 1..], seen + {key.value})
  {
    hide Key;
    assert gs[i..][1..] == gs[i + 1..];
  }

  lemma CountSplits(objects: seq<CityObject>, i: nat)
    requires i < |objects|
    ensures GeometryCount(objects[..i + 1]) == GeometryCount(objects[..i]) + |GeometriesOf(objects[i])|
  {
    if i > 0 {
      CountSplits(objects[1..], i - 1);
      assert objects[1..][..i] == objects[..i + 1][1..];
      assert objects[1..][..i - 1] == objects[..i][1..];
    }
  }

  class Document {
    var objects: seq<CityObject>
    var vertices: seq<Vertex>

    constructor (objects: seq<CityObject>, vertices: seq<Vertex>)
      ensures this.objects == objects && this.vertices == vertices
    {
      this.objects, this.vertices := objects, vertices;
    }

    /** `compact_vertices`. */
    method CompactVertices() returns (ok: bool)
      modifies this
      ensures ok <==> AllInRange(old(objects), |old(vertices)|)
      ensures Compact(old(objects), old(vertices)) == if ok then Ok((objects, vertices)) else Err(())
      ensures !ok ==> objects == old(objects) && vertices == old(vertices)
    {
      hide InRange, Names, Boundaries, Rank, Used, RewriteObject;
      var count := |vertices|;
      var used := new bool[count](i => false);
      var all := Boundaries(objects);
      RangeOfBoundaries(objects, count);
      var k := 0;
      while k < |all|
        invariant 0 <= k <= |all| && used.Length == count && fresh(used)
        invariant forall i | 0 <= i < k :: InRange(all[i], count)
        invariant forall n | 0 <= n < count :: used[n] <==> exists i | 0 <= i < k :: Names(all[i], n)
        invariant objects == old(objects) && vertices == old(vertices)
      {
        ghost var before := used[..];
        var one := Mark(all[k], used);
        if !one {
          return false;
        }
        forall n | 0 <= n < count ensures used[n] <==> exists i | 0 <= i < k + 1 :: Names(all[i], n) {
          assert used[n] <==> before[n] || Names(all[k], n);
        }
        k := k + 1;
      }
      assert AllInRange(objects, count);
      ghost var marks := UsedBy(objects, count);
      forall n | 0 <= n < count ensures used[n] == marks[n] {
        NamesOfBoundaries(objects, n);
        assert (exists b | b in all :: Names(b, n)) <==> exists i | 0 <= i < |all| :: Names(all[i], n);
      }
      assert used[..] == marks;
      var remap := Renumber(used);
      assert remap == Remap(marks);
      objects := RewriteObjects(objects, remap);
      vertices := RetainUsed(vertices, used);
      ok := true;
    }

    /** `keep_first_per_lod`. On an error the dropped geometries are gone already. */
    method KeepFirstPerLod() returns (r: Result<Normalised, ()>)
      modifies this
      ensures Kept(old(objects), old(vertices)) == if r.Ok? then Ok((objects, vertices)) else Err(())
      ensures r.Ok? ==>
        var before, after := GeometryCount(old(objects)), GeometryCount(Keep(old(objects)));
        r.value == Normalised(before - after, 0, before, after, |old(vertices)|, |vertices|)
    {
      hide KeepFirst, Compact, GeometryCount;
      var before, after := 0, 0;
      ghost var kept := Keep(objects);
      CountNothing();
      var i := 0;
      while i < |objects|
        invariant 0 <= i <= |objects| == |old(objects)| && vertices == old(vertices)
        invariant forall k | 0 <= k < i :: objects[k] == kept[k]
        invariant forall k | i <= k < |objects| :: objects[k] == old(objects)[k]
        invariant before == GeometryCount(old(objects)[..i]) && after == GeometryCount(kept[..i])
      {
        CountSplits(old(objects), i);
        CountSplits(kept, i);
        if objects[i].geometry.Some? {
          before := before + |objects[i].geometry.value|;
          var geometries := RetainFirst(objects[i].geometry.value);
          objects := objects[i := objects[i].(geometry := Some(geometries))];
          after := after + |geometries|;
        }
        i := i + 1;
      }
      assert objects == kept && old(objects)[..i] == old(objects) && kept[..i] == kept;
      var verticesBefore := |vertices|;
      var dropped := before - after;
      if dropped > 0 {
        var ok := CompactVertices();
        if !ok {
          return Err(());
        }
      }
      r := Ok(Normalised(dropped, 0, before, after, verticesBefore, |vertices|));
    }

    /** `remove_semantics_below_lod2`; returns how many geometries lost theirs. */
    method RemoveSemanticsBelowLod2() returns (removed: nat)
      modifies this`objects
      ensures objects == PlainObjects(old(objects))
      ensures removed == LostCount(old(objects)) && (removed == 0 <==> objects == old(objects))
    {
      hide Plain, LostIn;
      LostNothing();
      removed := 0;
      ghost var plain := PlainObjects(objects);
      var i := 0;
      while i < |objects|
        invariant 0 <= i <= |objects| == |old(objects)|
        invariant forall k | 0 <= k < i :: objects[k] == plain[k]
        invariant forall k | i <= k < |objects| :: objects[k] == old(objects)[k]
        invariant removed == LostCount(old(objects)[..i]) && (removed == 0 <==> objects == old(objects))
      {
        LostSplits(old(objects), i);
        if objects[i].geometry.Some? {
          var geometries, lost := WithoutSemantics(objects[i].geometry.value);
          assert Some(geometries) == PlainObject(objects[i]).geometry;
          objects := objects[i := objects[i].(geometry := Some(geometries))];
          removed := removed + lost;
        }
        i := i + 1;
      }
      assert objects == plain && old(objects)[..i] == old(objects);
    }

    /** `normalise`. */
    method Normalise() returns (r: Result<Normalised, ()>)
      modifies this
      ensures Normal(old(objects), old(vertices)) == if r.Ok? then Ok((objects, vertices)) else Err(())
      ensures r.Ok? ==>
        && r.value.dropped == GeometryCount(old(objects)) - GeometryCount(Keep(old(objects)))
        && r.value.verticesAfter == |vertices|
        && r.value.semanticsRemoved == LostCount(Keep(old(objects)))
    {
      ghost var kept := Keep(objects);
      r := KeepFirstPerLod();
      if r.Ok? {
        SameLosses(kept, old(vertices), objects, vertices);
        var removed := RemoveSemanticsBelowLod2();
        r := Ok(r.value.(semanticsRemoved := removed));
      }
    }
  }

  lemma CountNothing()
    ensures GeometryCount([]) == 0
  {
  }

  /** How many of the geometries have semantics below LoD 2. */
  function LostIn(gs: seq<Geometry>): nat {
    if gs == [] then 0
    else
      var n := |gs| - 1;
      LostIn(gs[..n]) + if Plain(gs[n]) != gs[n] then 1 else 0
  }

  function LostCount(objects: seq<CityObject>): nat {
    if objects == [] then 0
    else
      var n := |objects| - 1;
      LostCount(objects[..n]) + LostIn(GeometriesOf(objects[n]))
  }

  /** A geometry that is no instance and has semantics at level of detail 0 or 1. */
  predicate HasLowSemantics(g: Geometry) {
    g.semantics.Some? && !g.isInstance && g.lod.Some? && (g.lod.value.major == 0 || g.lod.value.major == 1)
  }

  ghost function LostAt(gs: seq<Geometry>): set<nat> {
    set i: nat | i < |gs| && HasLowSemantics(gs[i])
  }

  lemma LosesThem(g: Geometry)
    ensures HasLowSemantics(g) <==> Plain(g) != g
  {
  }

  lemma LostAtMore(gs: seq<Geometry>, n: nat)
    requires n == |gs| - 1
    ensures |LostAt(gs)| == |LostAt(gs[..n])| + if HasLowSemantics(gs[n]) then 1 else 0
  {
    hide HasLowSemantics;
    assert LostAt(gs) == LostAt(gs[..n]) + if HasLowSemantics(gs[n]) then {n} else {};
  }

  lemma {:induction false} LostInIs(gs: seq<Geometry>)
    ensures LostIn(gs) == |LostAt(gs)|
  {
    if gs != [] {
      var n := |gs| - 1;
      LostInIs(gs[..n]);
      LosesThem(gs[n]);
      LostAtMore(gs, n);
      hide Plain, HasLowSemantics, LostAt;
    }
  }

  /** Lost semantics are counted object by object. */
  lemma {:induction false} LostCountAdds(a: seq<CityObject>, b: seq<CityObject>, o: CityObject)
    ensures LostCount(a + b) == LostCount(a) + LostCount(b)
    ensures LostCount([o]) == |LostAt(GeometriesOf(o))|
  {
    LostInIs(GeometriesOf(o));
    if b == [] {
      assert a + b == a;
    } else {
      var n := |b| - 1;
      assert (a + b)[..|a| + n] == a + b[..n];
      LostCountAdds(a, b[..n], o);
    }
  }

  lemma LostNothing()
    ensures LostCount([]) == 0
  {
  }

  lemma LostSplits(objects: seq<CityObject>, i: nat)
    requires i < |objects|
    ensures LostCount(objects[..i + 1]) == LostCount(objects[..i]) + LostIn(GeometriesOf(objects[i]))
    ensures LostIn([]) == 0
  {
    assert objects[..i + 1][..i] == objects[..i];
  }

  lemma {:induction false} LostAlike(gs: seq<Geometry>, hs: seq<Geometry>)
    requires |hs| == |gs| && forall k | 0 <= k < |gs| :: hs[k] == gs[k].(boundaries := hs[k].boundaries)
    ensures LostIn(hs) == LostIn(gs)
  {
    if gs != [] {
      var n := |gs| - 1;
      LostAlike(gs[..n], hs[..n]);
    }
  }

  lemma {:induction false} LostAlikeInAll(objects: seq<CityObject>, after: seq<CityObject>)
    requires |after| == |objects|
    requires forall i | 0 <= i < |objects| ::
      var gs, hs := GeometriesOf(objects[i]), GeometriesOf(after[i]);
      |hs| == |gs| && forall k | 0 <= k < |gs| :: hs[k] == gs[k].(boundaries := hs[k].boundaries)
    ensures LostCount(after) == LostCount(objects)
  {
    if objects != [] {
      var n := |objects| - 1;
      LostAlikeInAll(objects[..n], after[..n]);
      LostAlike(GeometriesOf(objects[n]), GeometriesOf(after[n]));
    }
  }

  /** Compacting changes boundaries only, and so loses no semantics. */
  lemma SameLosses(kept: seq<CityObject>, vertices: seq<Vertex>, after: seq<CityObject>, newVertices: seq<Vertex>)
    requires (after == kept && newVertices == vertices) || Compact(kept, vertices) == Ok((after, newVertices))
    ensures LostCount(after) == LostCount(kept)
  {
    if after != kept || newVertices != vertices {
      hide Rewrite, InRange, UsedBy, Used;
      LostAlikeInAll(kept, after);
    }
  }

  /** `remove_semantics_below_lod2` on the geometries of one object. */
  method WithoutSemantics(gs: seq<Geometry>) returns (plain: seq<Geometry>, lost: nat)
    ensures plain == seq(|gs|, i requires 0 <= i < |gs| => Plain(gs[i]))
    ensures lost == LostIn(gs) && (lost == 0 <==> plain == gs)
  {
    plain, lost := gs, 0;
    var k := 0;
    while k < |gs|
      invariant 0 <= k <= |gs| == |plain|
      invariant forall j | 0 <= j < k :: plain[j] == Plain(gs[j])
      invariant forall j | k <= j < |gs| :: plain[j] == gs[j]
      invariant lost == LostIn(gs[..k]) && (lost == 0 <==> plain == gs)
    {
      assert gs[..k + 1][..k] == gs[..k];
      var major := Major(gs[k]);
      if major.Some? && major.value < 2 && gs[k].semantics.Some? {
        plain := plain[k := gs[k].(semantics := None)];
        lost := lost + 1;
        assert plain[k] != gs[k];
      }
      k := k + 1;
    }
    assert gs[..k] == gs;
  }

  /** The loop that fills `remap`. */
  method Renumber(used: array<bool>) returns (remap: seq<nat>)
    ensures remap == Remap(used[..])
  {
    var next := 0;
    remap := [];
    var at := 0;
    while at < used.Length
      invariant 0 <= at <= used.Length && |remap| == at
      invariant next == Rank(used[..], at)
      invariant forall i | 0 <= i < at :: remap[i] == Remap(used[..])[i]
    {
      remap := remap + [if used[at] then next else NOWHERE];
      if used[at] {
        next := next + 1;
      }
      at := at + 1;
    }
  }

  /** The `retain` on the vertices. */
  method RetainUsed(vertices: seq<Vertex>, used: array<bool>) returns (kept: seq<Vertex>)
    requires used.Length == |vertices|
    ensures kept == Used(vertices, used[..])
  {
    kept := [];
    var index := 0;
    while index < |vertices|
      invariant 0 <= index <= |vertices|
      invariant kept == Used(vertices[..index], used[..index])
    {
      assert vertices[..index + 1][..index] == vertices[..index];
      assert used[..index + 1][..index] == used[..index];
      if used[index] {
        kept := kept + [vertices[index]];
      }
      index := index + 1;
    }
    assert vertices[..index] == vertices && used[..index] == used[..];
  }
}
