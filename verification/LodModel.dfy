/** The documents that benchmark/readbench/src/lod.rs normalises, and what its steps
    compute: which geometries stay, and how the vertices are compacted. */
module LodModel {
  import opened Options

  /** A `boundaries` value: nested lists of vertex indices. A number that is no index is negative. */
  datatype Bounds = Number(n: int) | List(items: seq<Bounds>) | Other

  /** A level of detail that `Lod::parse` accepts: its column suffix and its major number. */
  datatype Lod = Lod(suffix: string, major: nat)

  datatype Geometry = Geometry(
    isInstance: bool,
    lod: Option<Lod>,
    boundaries: Option<Bounds>,
    semantics: Option<string>,
    rest: string)

  /** A CityObject with its name, `None` where it has no list of geometries, and the boundaries of
      the locations of its addresses, which name vertices as well. */
  datatype CityObject = CityObject(
    name: string,
    geometry: Option<seq<Geometry>>,
    locations: seq<Bounds>,
    rest: string)

  /** A vertex, whatever it is made of. */
  datatype Vertex = Vertex(x: int, y: int, z: int)

  // ----- which geometries stay

  function HasVertexIndex(b: Bounds): bool {
    match b
    case Number(_) => true
    case List(items) => exists i | 0 <= i < |items| :: HasVertexIndex(items[i])
    case Other => false
  }

  /** `writer_lod_key`. */
  function Key(g: Geometry): Option<string> {
    if g.isInstance || g.boundaries.None? || !HasVertexIndex(g.boundaries.value) || g.lod.None? then None
    else Some(g.lod.value.suffix)
  }

  /** `lod_major`. */
  function Major(g: Geometry): Option<nat> {
    if g.isInstance || g.lod.None? then None else Some(g.lod.value.major)
  }

  /** The geometries that `retain` keeps when the keys `seen` are taken. */
  function KeepFirst(gs: seq<Geometry>, seen: set<string>): (kept: seq<Geometry>)
    ensures |kept| <= |gs|
  {
    if gs == [] then []
    else match Key(gs[0])
      case None => [gs[0]] + KeepFirst(gs[1..], seen)
      case Some(k) =>
        if k in seen then KeepFirst(gs[1..], seen)
        else [gs[0]] + KeepFirst(gs[1..], seen + {k})
  }

  function KeepFirstIn(o: CityObject): CityObject {
    if o.geometry.None? then o else o.(geometry := Some(KeepFirst(o.geometry.value, {})))
  }

  function Keep(objects: seq<CityObject>): (r: seq<CityObject>)
    ensures |r| == |objects|
  {
    seq(|objects|, i requires 0 <= i < |objects| => KeepFirstIn(objects[i]))
  }

  function GeometryCount(objects: seq<CityObject>): nat {
    if objects == [] then 0
    else (if objects[0].geometry.None? then 0 else |objects[0].geometry.value|) + GeometryCount(objects[1..])
  }

  /** `remove_semantics_below_lod2` on one geometry. */
  function Plain(g: Geometry): Geometry {
    var major := Major(g);
    if major.Some? && major.value < 2 then g.(semantics := None) else g
  }

  function PlainObject(o: CityObject): CityObject {
    if o.geometry.None? then o
    else
      var gs := o.geometry.value;
      o.(geometry := Some(seq(|gs|, i requires 0 <= i < |gs| => Plain(gs[i]))))
  }

  function PlainObjects(objects: seq<CityObject>): (r: seq<CityObject>)
    ensures |r| == |objects|
  {
    seq(|objects|, i requires 0 <= i < |objects| => PlainObject(objects[i]))
  }

  // ----- compacting the vertices

  /** Every index of `b` names one of `count` vertices. */
  predicate InRange(b: Bounds, count: nat) {
    match b
    case Number(n) => 0 <= n < count
    case List(items) => forall i | 0 <= i < |items| :: InRange(items[i], count)
    case Other => true
  }

  /** `n` occurs in `b`. */
  predicate Names(b: Bounds, n: int) {
    match b
    case Number(m) => m == n
    case List(items) => exists i | 0 <= i < |items| :: Names(items[i], n)
    case Other => false
  }

  /** How many of the first `n` vertices are used. */
  function Rank(used: seq<bool>, n: nat): nat
    requires n <= |used|
  {
    if n == 0 then 0 else Rank(used, n - 1) + if used[n - 1] then 1 else 0
  }

  /** What `remap` holds for a vertex that is dropped: the largest 64-bit number. */
  const NOWHERE: nat := 0xFFFF_FFFF_FFFF_FFFF

  /** Where each used vertex goes. */
  function Remap(used: seq<bool>): (r: seq<nat>)
    ensures |r| == |used|
  {
    seq(|used|, i requires 0 <= i < |used| => if used[i] then Rank(used, i) else NOWHERE)
  }

  /** `rewrite`. */
  function Rewrite(b: Bounds, remap: seq<nat>): Bounds
    requires InRange(b, |remap|)
  {
    match b
    case Number(n) => Number(remap[n])
    case List(items) => List(seq(|items|, i requires 0 <= i < |items| => Rewrite(items[i], remap)))
    case Other => Other
  }

  /** The used vertices, in their order. */
  function Used(vertices: seq<Vertex>, used: seq<bool>): seq<Vertex>
    requires |used| == |vertices|
  {
    if vertices == [] then []
    else
      var n := |vertices| - 1;
      Used(vertices[..n], used[..n]) + if used[n] then [vertices[n]] else []
  }

  /** `b` with every index replaced by the vertex it names: what the geometry means. */
  datatype Shape = Point(v: Vertex) | Shapes(items: seq<Shape>) | NoShape

  function Resolve(b: Bounds, vertices: seq<Vertex>): Shape
    requires InRange(b, |vertices|)
  {
    match b
    case Number(n) => Point(vertices[n])
    case List(items) => Shapes(seq(|items|, i requires 0 <= i < |items| => Resolve(items[i], vertices)))
    case Other => NoShape
  }

  // ----- a whole document

  function GeometriesOf(o: CityObject): seq<Geometry> {
    if o.geometry.None? then [] else o.geometry.value
  }

  predicate ObjectInRange(o: CityObject, count: nat) {
    forall g | g in GeometriesOf(o) && g.boundaries.Some? :: InRange(g.boundaries.value, count)
  }

  predicate AllInRange(objects: seq<CityObject>, count: nat) {
    forall o | o in objects :: ObjectInRange(o, count)
  }

  /** Some remaining boundary names vertex `n`. */
  predicate IsNamed(objects: seq<CityObject>, n: int) {
    exists o | o in objects :: ObjectNames(o, n)
  }

  predicate ObjectNames(o: CityObject, n: int) {
    exists g | g in GeometriesOf(o) :: g.boundaries.Some? && Names(g.boundaries.value, n)
  }

  function RewriteGeometry(g: Geometry, remap: seq<nat>): Geometry
    requires g.boundaries.Some? ==> InRange(g.boundaries.value, |remap|)
  {
    if g.boundaries.None? then g else g.(boundaries := Some(Rewrite(g.boundaries.value, remap)))
  }

  function RewriteObject(o: CityObject, remap: seq<nat>): CityObject
    requires ObjectInRange(o, |remap|)
  {
    if o.geometry.None? then o
    else
      var gs := o.geometry.value;
      assert forall i | 0 <= i < |gs| :: gs[i] in GeometriesOf(o);
      o.(geometry := Some(seq(|gs|, i requires 0 <= i < |gs| => RewriteGeometry(gs[i], remap))))
  }

  function RewriteObjects(objects: seq<CityObject>, remap: seq<nat>): (r: seq<CityObject>)
    requires AllInRange(objects, |remap|)
    ensures |r| == |objects|
  {
    seq(|objects|, i requires 0 <= i < |objects| => RewriteObject(objects[i], remap))
  }

  /** Which of `count` vertices the objects name. */
  ghost function UsedBy(objects: seq<CityObject>, count: nat): (used: seq<bool>)
    ensures |used| == count
  {
    seq(count, n => IsNamed(objects, n))
  }

  // ----- the two steps of `normalise`, on a document's objects and vertices

  datatype Normalised = Normalised(
    dropped: int, semanticsRemoved: nat, geometriesBefore: nat, geometriesAfter: nat,
    verticesBefore: nat, verticesAfter: nat)

  /** `compact_vertices`; an index outside the vertices is an error. */
  ghost function Compact(objects: seq<CityObject>, vertices: seq<Vertex>): Result<(seq<CityObject>, seq<Vertex>), ()> {
    if !AllInRange(objects, |vertices|) then Err(())
    else
      var used := UsedBy(objects, |vertices|);
      Ok((RewriteObjects(objects, Remap(used)), Used(vertices, used)))
  }

  /** `keep_first_per_lod`. */
  ghost function Kept(objects: seq<CityObject>, vertices: seq<Vertex>): Result<(seq<CityObject>, seq<Vertex>), ()> {
    var kept := Keep(objects);
    if GeometryCount(kept) < GeometryCount(objects) then Compact(kept, vertices) else Ok((kept, vertices))
  }

  /** `normalise`. */
  ghost function Normal(objects: seq<CityObject>, vertices: seq<Vertex>): Result<(seq<CityObject>, seq<Vertex>), ()> {
    match Kept(objects, vertices)
    case Err(_) => Err(())
    case Ok((o, v)) => Ok((PlainObjects(o), v))
  }
}
