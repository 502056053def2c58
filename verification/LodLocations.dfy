/** The locations of addresses, which name vertices of the document as geometries do, and which
    benchmark/readbench/src/lod.rs neither marks nor rewrites. */
module LodLocations {
  import opened Options
  import opened LodModel
  import opened LodTheorems
  import opened Sequences

  /** Every vertex up to `n` is named by some geometry. */
  ghost predicate AllNamedTo(objects: seq<CityObject>, n: int) {
    forall i | 0 <= i <= n :: IsNamed(objects, i)
  }

  /** Index `n` names the same vertex in both lists. */
  predicate SameVertex(n: int, vertices: seq<Vertex>, newVertices: seq<Vertex>) {
    0 <= n < |vertices| && n < |newVertices| && newVertices[n] == vertices[n]
  }

  // ----- one index

  lemma {:induction false} RankOfAll(used: seq<bool>, n: nat)
    requires n <= |used|
    ensures Rank(used, n) <= n
    ensures Rank(used, n) == n <==> forall i | 0 <= i < n :: used[i]
  {
    if n > 0 { RankOfAll(used, n - 1); }
  }

  /** After compacting, an index names the vertex that is the `n`-th of those that are kept. */
  lemma IndexAfterCompacting(objects: seq<CityObject>, vertices: seq<Vertex>, n: nat)
    requires AllInRange(objects, |vertices|) && n < |vertices|
    ensures SameVertex(n, vertices, Compact(objects, vertices).value.1) <==>
      exists i | 0 <= i < |vertices| ::
        IsNamed(objects, i) && Rank(UsedBy(objects, |vertices|), i) == n && vertices[i] == vertices[n]
  {
    hide IsNamed, Rank, Used;
    var used := UsedBy(objects, |vertices|);
    var v := Compact(objects, vertices).value.1;
    if SameVertex(n, vertices, v) {
      var i := UsedFrom(vertices, used, n);
      UsedAt(vertices, used, i);
      assert IsNamed(objects, i);
    }
    if i :| 0 <= i < |vertices| && IsNamed(objects, i) && Rank(used, i) == n && vertices[i] == vertices[n] {
      assert used[i];
      UsedAt(vertices, used, i);
    }
  }

  /** Where no two vertices are alike, an index still names its vertex exactly when every vertex
      up to it is named by some geometry. */
  lemma IndexStays(objects: seq<CityObject>, vertices: seq<Vertex>, n: nat)
    requires AllInRange(objects, |vertices|) && n < |vertices|
    ensures AllNamedTo(objects, n) ==> SameVertex(n, vertices, Compact(objects, vertices).value.1)
    ensures Distinct(vertices) && SameVertex(n, vertices, Compact(objects, vertices).value.1) ==> AllNamedTo(objects, n)
  {
    hide IsNamed, Rank, Used, SameVertex;
    IndexAfterCompacting(objects, vertices, n);
    var used := UsedBy(objects, |vertices|);
    var v := Compact(objects, vertices).value.1;
    RankOfAll(used, n);
    assert forall i | 0 <= i < |vertices| :: used[i] == IsNamed(objects, i);
    if AllNamedTo(objects, n) { assert IsNamed(objects, n) && Rank(used, n) == n; }
    if Distinct(vertices) && SameVertex(n, vertices, v) {
      var i :| 0 <= i < |vertices| && IsNamed(objects, i) && Rank(used, i) == n && vertices[i] == vertices[n];
      assert i == n;
    }
  }

  // ----- a whole location

  /** The location names the same vertices, at the same places of its nesting. */
  predicate SamePlace(b: Bounds, vertices: seq<Vertex>, newVertices: seq<Vertex>)
    requires InRange(b, |vertices|)
  {
    InRange(b, |newVertices|) && Resolve(b, newVertices) == Resolve(b, vertices)
  }

  /** which is to say that each of its indices does. */
  lemma {:induction false} PlaceOfIndices(b: Bounds, vertices: seq<Vertex>, newVertices: seq<Vertex>)
    requires InRange(b, |vertices|)
    ensures SamePlace(b, vertices, newVertices) <==> forall n | Names(b, n) :: SameVertex(n, vertices, newVertices)
  {
    match b
    case Number(n) => assert Names(b, n);
    case List(items) =>
      forall i | 0 <= i < |items|
        ensures SamePlace(items[i], vertices, newVertices) <==>
          forall n | Names(items[i], n) :: SameVertex(n, vertices, newVertices)
      {
        PlaceOfIndices(items[i], vertices, newVertices);
      }
      ItemsInPlace(items, vertices, newVertices);
      hide SameVertex;
      if forall n | Names(b, n) :: SameVertex(n, vertices, newVertices) {
        forall i | 0 <= i < |items| ensures SamePlace(items[i], vertices, newVertices) {
          assert forall n | Names(items[i], n) :: Names(b, n);
        }
      }
    case Other =>
  }

  lemma ItemsInPlace(items: seq<Bounds>, vertices: seq<Vertex>, newVertices: seq<Vertex>)
    requires InRange(List(items), |vertices|)
    ensures SamePlace(List(items), vertices, newVertices) <==>
      forall i | 0 <= i < |items| :: SamePlace(items[i], vertices, newVertices)
  {
    if InRange(List(items), |newVertices|) {
      var r, s := Resolve(List(items), newVertices), Resolve(List(items), vertices);
      assert r == s <==> r.items == s.items;
      assert forall i | 0 <= i < |items| ::
          r.items[i] == Resolve(items[i], newVertices) && s.items[i] == Resolve(items[i], vertices);
    }
  }

  // ----- normalising

  /** Normalising leaves a location as it is written. So it still means what it meant when no
      geometry was dropped, and when each of its indices has only named vertices up to it; and,
      where no two vertices are alike, not otherwise. */
  lemma LocationsAfterNormalising(objects: seq<CityObject>, vertices: seq<Vertex>, i: nat, k: nat)
    requires Normal(objects, vertices).Ok? && i < |objects| && k < |objects[i].locations|
    requires InRange(objects[i].locations[k], |vertices|)
    ensures var (o, v) := Normal(objects, vertices).value;
      var b := objects[i].locations[k];
      var stays := GeometryCount(Keep(objects)) >= GeometryCount(objects)
                   || forall n | Names(b, n) :: AllNamedTo(Keep(objects), n);
      && |o| == |objects| && o[i].locations == objects[i].locations
      && (stays ==> SamePlace(b, vertices, v))
      && (Distinct(vertices) && SamePlace(b, vertices, v) ==> stays)
  {
    var b := objects[i].locations[k];
    var kept := Keep(objects);
    var v := Normal(objects, vertices).value.1;
    NormalKeepsLocations(objects, vertices, i);
    hide GeometryCount, Keep, IsNamed, PlainObjects, AllNamedTo, SamePlace;
    PlaceOfIndices(b, vertices, v);
    if GeometryCount(kept) < GeometryCount(objects) {
      CompactOnlyInRange(kept, vertices);
      forall n | Names(b, n)
        ensures AllNamedTo(kept, n) ==> SameVertex(n, vertices, v)
        ensures Distinct(vertices) && SameVertex(n, vertices, v) ==> AllNamedTo(kept, n)
      {
        NamesInRange(b, |vertices|, n);
        IndexStays(kept, vertices, n);
      }
    } else {
      forall n | Names(b, n) ensures SameVertex(n, vertices, v) { NamesInRange(b, |vertices|, n); }
    }
  }

  lemma NormalKeepsLocations(objects: seq<CityObject>, vertices: seq<Vertex>, i: nat)
    requires Normal(objects, vertices).Ok? && i < |objects|
    ensures var o := Normal(objects, vertices).value.0; |o| == |objects| && o[i].locations == objects[i].locations
  {
    hide SameMeaning, OnePerKey, Stays;
    NormaliseKeepsMeaning(objects, vertices, i);
  }

  // ----- an input on which a location is lost

  function OneGeometry(n: int): Geometry {
    Geometry(false, Some(Lod("1", 1)), Some(List([Number(n)])), None, "")
  }

  /** Two geometries of one level of detail, and an address at the second vertex. */
  function OneBuilding(): seq<CityObject> {
    [CityObject("building", Some([OneGeometry(0), OneGeometry(1)]), [List([Number(1)])], "")]
  }

  /** Normalising drops the second geometry and its vertex, and the address is nowhere. */
  lemma LocationCanBeLost(a: Vertex, b: Vertex)
    ensures var r := Normal(OneBuilding(), [a, b]);
      && r.Ok? && |r.value.1| == 1 && r.value.0[0].locations == [List([Number(1)])]
      && !InRange(r.value.0[0].locations[0], |r.value.1|)
  {
    var objects := OneBuilding();
    var kept := [objects[0].(geometry := Some([OneGeometry(0)]))];
    OneIsKept();
    assert AllInRange(kept, 2) && IsNamed(kept, 0) && !IsNamed(kept, 1) by { OneIsNamed(); }
    hide IsNamed, AllInRange, GeometryCount, Keep;
    var used := UsedBy(kept, 2);
    assert used == [true, false];
    OneIsUsed(a, b);
    NormalKeepsLocations(objects, [a, b], 0);
  }

  lemma OneIsKept()
    ensures var objects := OneBuilding();
      && Keep(objects) == [objects[0].(geometry := Some([OneGeometry(0)]))]
      && GeometryCount(Keep(objects)) == 1 && GeometryCount(objects) == 2
  {
    var g, h := OneGeometry(0), OneGeometry(1);
    var first, second := g.boundaries.value, h.boundaries.value;
    assert HasVertexIndex(first.items[0]) && HasVertexIndex(second.items[0]);
    assert Key(g) == Key(h) == Some("1");
    hide Key;
    assert [g, h][1..] == [h] && [h][1..] == [];
    assert KeepFirst([h], {"1"}) == [];
    assert KeepFirst([g, h], {}) == [g];
  }

  lemma OneIsNamed()
    ensures var kept := [OneBuilding()[0].(geometry := Some([OneGeometry(0)]))];
      AllInRange(kept, 2) && IsNamed(kept, 0) && !IsNamed(kept, 1)
  {
    var kept := [OneBuilding()[0].(geometry := Some([OneGeometry(0)]))];
    var g := OneGeometry(0);
    assert Names(g.boundaries.value.items[0], 0) && g in GeometriesOf(kept[0]);
    assert Names(g.boundaries.value, 0);
    assert ObjectNames(kept[0], 0) && kept[0] in kept;
  }

  lemma OneIsUsed(a: Vertex, b: Vertex)
    ensures Used([a, b], [true, false]) == [a]
  {
    assert [a, b][..1] == [a] && [true, false][..1] == [true] && [a][..0] == [];
    assert [true][..0] == [];
    assert Used([a], [true]) == [a];
  }
}
