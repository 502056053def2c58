/** `merge` of benchmark/scripts/cityjson_merge.py. Decimals are reals; lists that the
    script rewrites in place are values here. */
module CityJsonMerge {
  import opened Options
  import opened Numbers
  import opened Requantise
  import opened Sequences

  datatype Axes<T> = Axes(x: T, y: T, z: T)

  /** A nested list of indices, with nulls. */
  datatype Nested = Item(n: Option<int>) | Nest(items: seq<Nested>)

  /** What a material theme holds: nested values, or one value for the whole geometry. */
  datatype Material = Values(values: seq<Nested>) | Value(n: Option<int>)

  datatype Geometry =
    | Instance(template: int, boundaries: seq<Nested>)
    | Plain(boundaries: seq<Nested>, texture: seq<seq<Nested>>, material: seq<Material>)

  /** A template: its boundaries index the template vertices, and its materials the document's. */
  datatype Template = Template(boundaries: seq<Nested>, material: seq<Material>)

  /** A CityObject, its geometries, and the boundaries of the locations of its addresses. */
  datatype CityObject = CityObject(id: string, geometry: seq<Geometry>, locations: seq<seq<Nested>>)

  datatype Doc = Doc(
    version: string,
    system: Option<string>,
    hasExtensions: bool,
    scale: Axes<real>,
    translate: Axes<real>,
    vertices: seq<Axes<int>>,
    textures: seq<string>,
    uvs: seq<(real, real)>,
    materials: seq<string>,
    templates: seq<Template>,
    templateVertices: seq<Axes<real>>,
    objects: seq<CityObject>)

  // ----- the offset functions

  /** `offset_boundaries`, and `offset_material_values`, which leaves nulls alone. */
  function Offset(items: seq<Nested>, offset: int): (r: seq<Nested>)
    ensures |r| == |items|
  {
    seq(|items|, i requires 0 <= i < |items| => OffsetOne(items[i], offset))
  }

  function OffsetOne(b: Nested, offset: int): Nested {
    match b
    case Item(n) => if n.None? then b else Item(Some(n.value + offset))
    case Nest(items) => Nest(seq(|items|, i requires 0 <= i < |items| => OffsetOne(items[i], offset)))
  }

  /** Whether a list is a ring: it has members, and none of them is a list. */
  predicate IsRing(items: seq<Nested>) {
    items != [] && forall i | 0 <= i < |items| :: items[i].Item?
  }

  function Plus(b: Nested, offset: int): Nested {
    if b.Item? && b.n.Some? then Item(Some(b.n.value + offset)) else b
  }

  /** `offset_texture_values`. */
  function OffsetTexture(b: Nested, texture: int, uv: int): (r: Nested)
    ensures r.Nest? <==> b.Nest?
    ensures r.Nest? ==> |r.items| == |b.items|
  {
    match b
    case Item(_) => b
    case Nest(items) =>
      if IsRing(items) then
        if items[0].n.None? then b
        else Nest(seq(|items|, i requires 0 <= i < |items| => Plus(items[i], if i == 0 then texture else uv)))
      else Nest(seq(|items|, i requires 0 <= i < |items| => OffsetTexture(items[i], texture, uv)))
  }

  function OffsetMaterial(m: Material, offset: int): Material {
    match m
    case Values(values) => Values(Offset(values, offset))
    case Value(n) => if n.None? then m else Value(Some(n.value + offset))
  }

  /** The running counts that a document's references are moved by. */
  datatype Offsets = Offsets(vertex: nat, texture: nat, uv: nat, material: nat, template: nat)

  function OffsetTheme(values: seq<Nested>, o: Offsets): seq<Nested> {
    OffsetTexture(Nest(values), o.texture, o.uv).items
  }

  function OffsetGeometry(g: Geometry, o: Offsets): Geometry {
    match g
    case Instance(template, boundaries) => Instance(template + o.template, Offset(boundaries, o.vertex))
    case Plain(boundaries, texture, material) =>
      Plain(Offset(boundaries, o.vertex),
            seq(|texture|, i requires 0 <= i < |texture| => OffsetTheme(texture[i], o)),
            seq(|material|, i requires 0 <= i < |material| => OffsetMaterial(material[i], o.material)))
  }

  /** The geometries are moved; the locations are not. */
  function OffsetObject(c: CityObject, o: Offsets): CityObject {
    c.(geometry := seq(|c.geometry|, i requires 0 <= i < |c.geometry| => OffsetGeometry(c.geometry[i], o)))
  }

  // ----- one document after another

  function Shift(from: real, to: real, scale: real): int
    requires scale > 0.0
  {
    RoundHalfAway((from - to) / scale)
  }

  function Residual(from: real, to: real, scale: real): real
    requires scale > 0.0
  {
    Abs((from - to) / scale - Shift(from, to, scale) as real)
  }

  function MoveVertex(v: Axes<int>, shift: Axes<int>): Axes<int> {
    Axes(v.x + shift.x, v.y + shift.y, v.z + shift.z)
  }

  function MoveVertices(vs: seq<Axes<int>>, shift: Axes<int>): (r: seq<Axes<int>>)
    ensures |r| == |vs|
  {
    seq(|vs|, i requires 0 <= i < |vs| => MoveVertex(vs[i], shift))
  }

  predicate Positive(scale: Axes<real>) {
    scale.x > 0.0 && scale.y > 0.0 && scale.z > 0.0
  }

  function ShiftOf(d: Doc, translate: Axes<real>, scale: Axes<real>): Axes<int>
    requires Positive(scale)
  {
    Axes(Shift(d.translate.x, translate.x, scale.x),
         Shift(d.translate.y, translate.y, scale.y),
         Shift(d.translate.z, translate.z, scale.z))
  }

  /** The accumulators of the loop over the documents. */
  datatype Merged = Merged(
    vertices: seq<Axes<int>>,
    textures: seq<string>,
    uvs: seq<(real, real)>,
    materials: seq<string>,
    templates: seq<Template>,
    templateVertices: seq<Axes<real>>,
    objects: seq<CityObject>)

  const EMPTY: Merged := Merged([], [], [], [], [], [], [])

  function OffsetsOf(m: Merged): Offsets {
    Offsets(|m.vertices|, |m.textures|, |m.uvs|, |m.materials|, |m.templates|)
  }

  /** A template's boundaries are moved; its materials are not. */
  function OffsetTemplate(t: Template, offset: int): Template {
    t.(boundaries := Offset(t.boundaries, offset))
  }

  function Append(m: Merged, d: Doc, shift: Axes<int>): Merged {
    var o := OffsetsOf(m);
    Merged(
      m.vertices + MoveVertices(d.vertices, shift),
      m.textures + d.textures,
      m.uvs + d.uvs,
      m.materials + d.materials,
      m.templates + seq(|d.templates|,
        i requires 0 <= i < |d.templates| => OffsetTemplate(d.templates[i], |m.templateVertices|)),
      m.templateVertices + d.templateVertices,
      m.objects + seq(|d.objects|, i requires 0 <= i < |d.objects| => OffsetObject(d.objects[i], o)))
  }

  /** The accumulators after the first `n` documents. */
  function MergedTo(docs: seq<Doc>, n: nat, translate: Axes<real>, scale: Axes<real>): Merged
    requires n <= |docs| && Positive(scale)
  {
    if n == 0 then EMPTY
    else Append(MergedTo(docs, n - 1, translate, scale), docs[n - 1], ShiftOf(docs[n - 1], translate, scale))
  }

  // ----- what references name

  /** Nested indices with each index replaced by the element it names. */
  datatype Named<T> = Null | One(t: T) | Many(items: seq<Named<T>>)

  predicate InTable(b: Nested, count: nat) {
    match b
    case Item(n) => n.Some? ==> 0 <= n.value < count
    case Nest(items) => forall i | 0 <= i < |items| :: InTable(items[i], count)
  }

  predicate AllInTable(items: seq<Nested>, count: nat) {
    forall i | 0 <= i < |items| :: InTable(items[i], count)
  }

  function Resolve<T>(b: Nested, table: seq<T>): Named<T>
    requires InTable(b, |table|)
  {
    match b
    case Item(n) => if n.None? then Null else One(table[n.value])
    case Nest(items) => Many(seq(|items|, i requires 0 <= i < |items| => Resolve(items[i], table)))
  }

  /** `table` lies in `merged` at `offset`. */
  ghost predicate LiesAt<T>(table: seq<T>, merged: seq<T>, offset: nat) {
    offset + |table| <= |merged| && forall i | 0 <= i < |table| :: merged[offset + i] == table[i]
  }

  /** Moved by the position of its table, a reference names in the merged table what it named in its own. */
  lemma {:induction false} OffsetResolves<T>(b: Nested, table: seq<T>, merged: seq<T>, offset: nat)
    requires InTable(b, |table|) && LiesAt(table, merged, offset)
    ensures InTable(OffsetOne(b, offset), |merged|)
    ensures Resolve(OffsetOne(b, offset), merged) == Resolve(b, table)
  {
    match b
    case Item(n) =>
      if n.Some? { assert merged[offset + n.value] == table[n.value]; }
    case Nest(items) =>
      var r := OffsetOne(b, offset);
      forall i | 0 <= i < |items|
        ensures InTable(r.items[i], |merged|) && Resolve(r.items[i], merged) == Resolve(items[i], table)
      {
        OffsetResolves(items[i], table, merged, offset);
      }
  }

  /** A texture theme: rings name one texture and then texture vertices. */
  datatype Textured = NoRing | Untextured | Ring(texture: string, uvs: seq<(real, real)>) | Rings(items: seq<Textured>)

  predicate TextureInTables(b: Nested, textures: nat, uvs: nat) {
    match b
    case Item(_) => true
    case Nest(items) =>
      if IsRing(items) then
        items[0].n.Some? ==>
          && 0 <= items[0].n.value < textures
          && forall i | 0 < i < |items| :: items[i].n.Some? && 0 <= items[i].n.value < uvs
      else forall i | 0 <= i < |items| :: TextureInTables(items[i], textures, uvs)
  }

  function ResolveTexture(b: Nested, textures: seq<string>, uvs: seq<(real, real)>): Textured
    requires TextureInTables(b, |textures|, |uvs|)
  {
    match b
    case Item(_) => NoRing
    case Nest(items) =>
      if IsRing(items) then
        if items[0].n.None? then Untextured
        else Ring(textures[items[0].n.value],
                  seq(|items| - 1, i requires 0 <= i < |items| - 1 => uvs[items[i + 1].n.value]))
      else Rings(seq(|items|, i requires 0 <= i < |items| => ResolveTexture(items[i], textures, uvs)))
  }

  lemma OffsetKeepsRing(items: seq<Nested>, texture: int, uv: int)
    ensures var r := OffsetTexture(Nest(items), texture, uv);
      r.Nest? && |r.items| == |items| && (IsRing(r.items) <==> IsRing(items))
  {
    var r := OffsetTexture(Nest(items), texture, uv);
    forall i | 0 <= i < |items| ensures r.items[i].Item? <==> items[i].Item? {
    }
  }

  lemma {:induction false} TextureResolves(b: Nested, textures: seq<string>, uvs: seq<(real, real)>,
                                           allTextures: seq<string>, allUvs: seq<(real, real)>, t: nat, u: nat)
    requires TextureInTables(b, |textures|, |uvs|)
    requires LiesAt(textures, allTextures, t) && LiesAt(uvs, allUvs, u)
    ensures TextureInTables(OffsetTexture(b, t, u), |allTextures|, |allUvs|)
    ensures ResolveTexture(OffsetTexture(b, t, u), allTextures, allUvs) == ResolveTexture(b, textures, uvs)
  {
    match b
    case Item(_) =>
    case Nest(items) =>
      OffsetKeepsRing(items, t, u);
      var r := OffsetTexture(b, t, u);
      if IsRing(items) {
        if items[0].n.Some? {
          assert allTextures[t + items[0].n.value] == textures[items[0].n.value];
          forall i | 0 < i < |items| ensures r.items[i].n == Some(items[i].n.value + u) {
          }
          assert forall i | 0 < i < |items| :: allUvs[u + items[i].n.value] == uvs[items[i].n.value];
        }
      } else {
        forall i | 0 <= i < |items|
          ensures TextureInTables(r.items[i], |allTextures|, |allUvs|)
            && ResolveTexture(r.items[i], allTextures, allUvs) == ResolveTexture(items[i], textures, uvs)
        {
          TextureResolves(items[i], textures, uvs, allTextures, allUvs, t, u);
        }
      }
  }

  // ----- what a document means before and after

  ghost predicate MaterialInTable(m: Material, count: nat) {
    match m
    case Values(values) => AllInTable(values, count)
    case Value(n) => n.Some? ==> 0 <= n.value < count
  }

  ghost predicate SameMaterial(m: Material, table: seq<string>, r: Material, merged: seq<string>)
    requires MaterialInTable(m, |table|)
  {
    && MaterialInTable(r, |merged|)
    && match m
       case Values(values) => r.Values? && Resolve(Nest(r.values), merged) == Resolve(Nest(values), table)
       case Value(n) => r.Value? && (n.Some? <==> r.n.Some?) && (n.Some? ==> merged[r.n.value] == table[n.value])
  }

  ghost predicate GeometryInTables(g: Geometry, d: Doc) {
    match g
    case Instance(template, boundaries) =>
      && 0 <= template < |d.templates| && AllInTable(boundaries, |d.vertices|)
    case Plain(boundaries, texture, material) =>
      && AllInTable(boundaries, |d.vertices|)
      && (forall i | 0 <= i < |texture| :: TextureInTables(Nest(texture[i]), |d.textures|, |d.uvs|))
      && (forall i | 0 <= i < |material| :: MaterialInTable(material[i], |d.materials|))
  }

  /** Every reference of the document names something in it. */
  ghost predicate WellFormed(d: Doc) {
    && (forall i | 0 <= i < |d.templates| :: AllInTable(d.templates[i].boundaries, |d.templateVertices|))
    && (forall i, j | 0 <= i < |d.objects| && 0 <= j < |d.objects[i].geometry| ::
          GeometryInTables(d.objects[i].geometry[j], d))
  }

  ghost predicate SameTemplate(t: Template, d: Doc, r: Template, m: Merged)
    requires AllInTable(t.boundaries, |d.templateVertices|)
  {
    && AllInTable(r.boundaries, |m.templateVertices|)
    && Resolve(Nest(r.boundaries), m.templateVertices) == Resolve(Nest(t.boundaries), d.templateVertices)
    && r.material == t.material
  }

  ghost predicate SameBoundaries(b: seq<Nested>, vertices: seq<Axes<int>>, r: seq<Nested>, m: Merged)
    requires AllInTable(b, |vertices|)
  {
    AllInTable(r, |m.vertices|) && Resolve(Nest(r), m.vertices) == Resolve(Nest(b), vertices)
  }

  /** `h` names in the merged document what `g` names in its own, with the vertices moved by `shift`. */
  ghost predicate SameGeometry(g: Geometry, d: Doc, h: Geometry, m: Merged, shift: Axes<int>)
    requires WellFormed(d) && GeometryInTables(g, d)
  {
    match g
    case Instance(template, boundaries) =>
      && h.Instance? && 0 <= h.template < |m.templates|
      && SameTemplate(d.templates[template], d, m.templates[h.template], m)
      && SameBoundaries(boundaries, MoveVertices(d.vertices, shift), h.boundaries, m)
    case Plain(boundaries, texture, material) =>
      && h.Plain? && |h.texture| == |texture| && |h.material| == |material|
      && SameBoundaries(boundaries, MoveVertices(d.vertices, shift), h.boundaries, m)
      && (forall i | 0 <= i < |texture| ::
            && TextureInTables(Nest(h.texture[i]), |m.textures|, |m.uvs|)
            && ResolveTexture(Nest(h.texture[i]), m.textures, m.uvs) ==
              ResolveTexture(Nest(texture[i]), d.textures, d.uvs))
      && (forall i | 0 <= i < |material| :: SameMaterial(material[i], d.materials, h.material[i], m.materials))
  }

  // ----- where a document's tables lie

  function MovedTemplates(d: Doc, offset: nat): (r: seq<Template>)
    ensures |r| == |d.templates|
  {
    seq(|d.templates|, i requires 0 <= i < |d.templates| => OffsetTemplate(d.templates[i], offset))
  }

  function MovedObjects(d: Doc, o: Offsets): (r: seq<CityObject>)
    ensures |r| == |d.objects|
  {
    seq(|d.objects|, i requires 0 <= i < |d.objects| => OffsetObject(d.objects[i], o))
  }

  /** Document `d`, merged after `before`, is in `m`. */
  ghost predicate Holds(m: Merged, before: Merged, d: Doc, shift: Axes<int>) {
    && LiesAt(MoveVertices(d.vertices, shift), m.vertices, |before.vertices|)
    && LiesAt(d.textures, m.textures, |before.textures|)
    && LiesAt(d.uvs, m.uvs, |before.uvs|)
    && LiesAt(d.materials, m.materials, |before.materials|)
    && LiesAt(MovedTemplates(d, |before.templateVertices|), m.templates, |before.templates|)
    && LiesAt(d.templateVertices, m.templateVertices, |before.templateVertices|)
    && LiesAt(MovedObjects(d, OffsetsOf(before)), m.objects, |before.objects|)
  }

  lemma LiesAfter<T>(a: seq<T>, b: seq<T>)
    ensures LiesAt(b, a + b, |a|)
  {
  }

  lemma StillLies<T>(table: seq<T>, a: seq<T>, b: seq<T>, offset: nat)
    requires LiesAt(table, a, offset)
    ensures LiesAt(table, a + b, offset)
  {
  }

  lemma AppendHolds(before: Merged, d: Doc, shift: Axes<int>)
    ensures Holds(Append(before, d, shift), before, d, shift)
  {
    hide LiesAt, MoveVertices, OffsetTemplate, OffsetObject;
    LiesAfter(before.vertices, MoveVertices(d.vertices, shift));
    LiesAfter(before.textures, d.textures);
    LiesAfter(before.uvs, d.uvs);
    LiesAfter(before.materials, d.materials);
    LiesAfter(before.templates, MovedTemplates(d, |before.templateVertices|));
    LiesAfter(before.templateVertices, d.templateVertices);
    LiesAfter(before.objects, MovedObjects(d, OffsetsOf(before)));
  }

  lemma AppendKeeps(m: Merged, before: Merged, d: Doc, shift: Axes<int>, e: Doc, other: Axes<int>)
    requires Holds(m, before, d, shift)
    ensures Holds(Append(m, e, other), before, d, shift)
  {
    hide LiesAt, MoveVertices, OffsetTemplate, OffsetObject;
    StillLies(MoveVertices(d.vertices, shift), m.vertices, MoveVertices(e.vertices, other), |before.vertices|);
    StillLies(d.textures, m.textures, e.textures, |before.textures|);
    StillLies(d.uvs, m.uvs, e.uvs, |before.uvs|);
    StillLies(d.materials, m.materials, e.materials, |before.materials|);
    StillLies(MovedTemplates(d, |before.templateVertices|), m.templates, MovedTemplates(e, |m.templateVertices|),
      |before.templates|);
    StillLies(d.templateVertices, m.templateVertices, e.templateVertices, |before.templateVertices|);
    StillLies(MovedObjects(d, OffsetsOf(before)), m.objects, MovedObjects(e, OffsetsOf(m)), |before.objects|);
  }

  lemma {:induction false} DocumentIsHeld(docs: seq<Doc>, i: nat, n: nat, translate: Axes<real>, scale: Axes<real>)
    requires i < n <= |docs| && Positive(scale)
    ensures Holds(MergedTo(docs, n, translate, scale), MergedTo(docs, i, translate, scale), docs[i],
                  ShiftOf(docs[i], translate, scale))
    decreases n
  {
    hide Holds, Append, Positive, ShiftOf;
    var before := MergedTo(docs, i, translate, scale);
    if i == n - 1 {
      AppendHolds(before, docs[i], ShiftOf(docs[i], translate, scale));
    } else {
      DocumentIsHeld(docs, i, n - 1, translate, scale);
      AppendKeeps(MergedTo(docs, n - 1, translate, scale), before, docs[i], ShiftOf(docs[i], translate, scale),
                  docs[n - 1], ShiftOf(docs[n - 1], translate, scale));
    }
  }

  /** Document `d` adds its own tables to the merged ones and nothing else. */
  ghost predicate AddsItsTables(before: Merged, after: Merged, d: Doc) {
    && |after.vertices| == |before.vertices| + |d.vertices|
    && |after.textures| == |before.textures| + |d.textures|
    && |after.uvs| == |before.uvs| + |d.uvs|
    && |after.materials| == |before.materials| + |d.materials|
    && |after.templates| == |before.templates| + |d.templates|
    && |after.templateVertices| == |before.templateVertices| + |d.templateVertices|
    && |after.objects| == |before.objects| + |d.objects|
  }

  /** What is merged begins empty, and each document comes right after the ones before it: with
      `DocumentIsHeld`, every element of a merged table is one of exactly one document. */
  lemma NothingElseIsMerged(docs: seq<Doc>, n: nat, translate: Axes<real>, scale: Axes<real>)
    requires n < |docs| && Positive(scale)
    ensures MergedTo(docs, 0, translate, scale) == Merged([], [], [], [], [], [], [])
    ensures AddsItsTables(MergedTo(docs, n, translate, scale), MergedTo(docs, n + 1, translate, scale), docs[n])
  {
    hide Positive, ShiftOf, OffsetObject, OffsetTemplate;
  }

  // ----- meaning is kept

  lemma ListResolves<T>(b: seq<Nested>, table: seq<T>, merged: seq<T>, offset: nat)
    requires AllInTable(b, |table|) && LiesAt(table, merged, offset)
    ensures AllInTable(Offset(b, offset), |merged|)
    ensures Resolve(Nest(Offset(b, offset)), merged) == Resolve(Nest(b), table)
  {
    hide LiesAt;
    OffsetResolves(Nest(b), table, merged, offset);
    assert OffsetOne(Nest(b), offset) == Nest(Offset(b, offset));
  }

  lemma MaterialResolves(m: Material, table: seq<string>, merged: seq<string>, offset: nat)
    requires MaterialInTable(m, |table|) && LiesAt(table, merged, offset)
    ensures SameMaterial(m, table, OffsetMaterial(m, offset), merged)
  {
    match m
    case Values(values) =>
      hide LiesAt, Resolve;
      ListResolves(values, table, merged, offset);
    case Value(n) =>
      if n.Some? { assert merged[offset + n.value] == table[n.value]; }
  }

  lemma GeometryResolves(g: Geometry, d: Doc, m: Merged, before: Merged, shift: Axes<int>)
    requires WellFormed(d) && GeometryInTables(g, d) && Holds(m, before, d, shift)
    ensures SameGeometry(g, d, OffsetGeometry(g, OffsetsOf(before)), m, shift)
  {
    hide LiesAt, MoveVertices, Resolve, AllInTable, TextureInTables, ResolveTexture, MaterialInTable, SameMaterial,
      Offset, OffsetTexture, OffsetMaterial;
    var o := OffsetsOf(before);
    ListResolves(g.boundaries, MoveVertices(d.vertices, shift), m.vertices, o.vertex);
    match g
    case Instance(template, _) => TemplateResolves(template, d, m, before, shift);
    case Plain(_, texture, material) =>
      forall i | 0 <= i < |texture|
        ensures TextureInTables(Nest(OffsetTheme(texture[i], o)), |m.textures|, |m.uvs|)
          && ResolveTexture(Nest(OffsetTheme(texture[i], o)), m.textures, m.uvs) ==
            ResolveTexture(Nest(texture[i]), d.textures, d.uvs)
      {
        TextureResolves(Nest(texture[i]), d.textures, d.uvs, m.textures, m.uvs, o.texture, o.uv);
      }
      forall i | 0 <= i < |material|
        ensures SameMaterial(material[i], d.materials, OffsetMaterial(material[i], o.material), m.materials)
      {
        MaterialResolves(material[i], d.materials, m.materials, o.material);
      }
  }

  lemma TemplateResolves(k: int, d: Doc, m: Merged, before: Merged, shift: Axes<int>)
    requires WellFormed(d) && Holds(m, before, d, shift) && 0 <= k < |d.templates|
    ensures k + |before.templates| < |m.templates|
    ensures SameTemplate(d.templates[k], d, m.templates[k + |before.templates|], m)
  {
    hide Resolve, AllInTable, Offset;
    var moved := MovedTemplates(d, |before.templateVertices|);
    assert m.templates[|before.templates| + k] == moved[k] by {
      assert LiesAt(moved, m.templates, |before.templates|);
    }
    ListResolves(d.templates[k].boundaries, d.templateVertices, m.templateVertices, |before.templateVertices|);
  }

  /** Merging keeps the meaning of every geometry: every object of every document is in the
      merged document, under its own identifier, and each boundary, texture, texture vertex,
      material and template of its geometries names there, at the same place of its nesting,
      what it named in its own document, with vertices moved by that document's shift. */
  lemma MergeKeepsMeaning(docs: seq<Doc>, i: nat, k: nat, j: nat, translate: Axes<real>, scale: Axes<real>)
    requires i < |docs| && Positive(scale) && WellFormed(docs[i])
    requires k < |docs[i].objects| && j < |docs[i].objects[k].geometry|
    ensures var m := MergedTo(docs, |docs|, translate, scale);
      var at := |MergedTo(docs, i, translate, scale).objects| + k;
      && at < |m.objects| && m.objects[at].id == docs[i].objects[k].id
      && |m.objects[at].geometry| == |docs[i].objects[k].geometry|
      && SameGeometry(docs[i].objects[k].geometry[j], docs[i], m.objects[at].geometry[j], m,
        ShiftOf(docs[i], translate, scale))
  {
    hide MergedTo, SameGeometry, OffsetGeometry, Positive, ShiftOf;
    var m, before := MergedTo(docs, |docs|, translate, scale), MergedTo(docs, i, translate, scale);
    var d, shift := docs[i], ShiftOf(docs[i], translate, scale);
    DocumentIsHeld(docs, i, |docs|, translate, scale);
    assert GeometryInTables(d.objects[k].geometry[j], d);
    GeometryResolves(d.objects[k].geometry[j], d, m, before, shift);
    var moved := MovedObjects(d, OffsetsOf(before));
    assert LiesAt(moved, m.objects, |before.objects|);
    assert m.objects[|before.objects| + k] == moved[k];
  }

  /** The materials of a template are not moved. A template's material is still the one it named
      in its own document exactly when the same one stands in its place among the materials of
      the earlier documents and its own; where materials differ, exactly when no earlier
      document has any. */
  lemma TemplateMaterialsStay(docs: seq<Doc>, i: nat, k: nat, n: nat, translate: Axes<real>, scale: Axes<real>)
    requires i < |docs| && Positive(scale) && k < |docs[i].templates| && n < |docs[i].materials|
    ensures var m, before := MergedTo(docs, |docs|, translate, scale), MergedTo(docs, i, translate, scale);
      var all, own := before.materials + docs[i].materials, docs[i].materials[n];
      && |before.templates| + k < |m.templates|
      && m.templates[|before.templates| + k].material == docs[i].templates[k].material
      && n < |m.materials|
      && (m.materials[n] == own <==> all[n] == own)
      && (Distinct(all) ==> (m.materials[n] == own <==> before.materials == []))
  {
    hide MergedTo, Positive, ShiftOf, Offset;
    var m, before := MergedTo(docs, |docs|, translate, scale), MergedTo(docs, i, translate, scale);
    DocumentIsHeld(docs, i, |docs|, translate, scale);
    var moved := MovedTemplates(docs[i], |before.templateVertices|);
    assert LiesAt(moved, m.templates, |before.templates|);
    assert m.templates[|before.templates| + k] == moved[k];
    TablesBefore(docs, i, |docs|, translate, scale);
    InPlaceOf(before.materials, docs[i].materials, m.materials, n);
  }

  /** What stands at `n` in a table that begins with `before` and then `own`. */
  lemma InPlaceOf<T(!new)>(before: seq<T>, own: seq<T>, merged: seq<T>, n: nat)
    requires before + own <= merged && n < |own|
    ensures merged[n] == own[n] <==> (before + own)[n] == own[n]
    ensures Distinct(before + own) ==> (merged[n] == own[n] <==> before == [])
  {
    var all, at := before + own, |before| + n;
    assert all[at] == own[n] && all[n] == merged[n];
  }

  /** The materials and vertices of earlier documents come first, and then the document's own. */
  lemma {:induction false} TablesBefore(docs: seq<Doc>, i: nat, n: nat, translate: Axes<real>, scale: Axes<real>)
    requires i < n <= |docs| && Positive(scale)
    ensures var before, m := MergedTo(docs, i, translate, scale), MergedTo(docs, n, translate, scale);
      && before.materials + docs[i].materials <= m.materials
      && before.vertices + MoveVertices(docs[i].vertices, ShiftOf(docs[i], translate, scale)) <= m.vertices
  {
    hide Positive, ShiftOf, MoveVertices;
    if n > i + 1 { TablesBefore(docs, i, n - 1, translate, scale); }
  }

  // ----- which references name something

  /** A reference names something when each index in it is one of the table. */
  lemma {:induction false} InTableIs(b: Nested, count: nat)
    ensures InTable(b, count) <==> forall n | Mentions(b, n) :: n >= 0 && n < count
  {
    match b
    case Item(n) => if n.Some? { assert Mentions(b, n.value); }
    case Nest(items) =>
      forall i | 0 <= i < |items|
        ensures InTable(items[i], count) <==> forall n | Mentions(items[i], n) :: n >= 0 && n < count
      {
        InTableIs(items[i], count);
      }
      if !InTable(b, count) {
        var i :| 0 <= i < |items| && !InTable(items[i], count);
        var n :| Mentions(items[i], n) && !(n >= 0 && n < count);
        assert Mentions(b, n);
      }
      if InTable(b, count) {
        forall n | Mentions(b, n) ensures n >= 0 && n < count {
          var i :| 0 <= i < |items| && Mentions(items[i], n);
          assert InTable(items[i], count);
        }
      }
  }

  /** A ring names something when it has no texture, or its first value is a texture and the others are
      texture vertices; any other list when all of its lists do. */
  lemma RingInTables(items: seq<Nested>, textures: nat, uvs: nat)
    ensures TextureInTables(Item(None), textures, uvs) && TextureInTables(Item(Some(-1)), textures, uvs)
    ensures IsRing(items) ==>
      (TextureInTables(Nest(items), textures, uvs) <==>
        items[0].n.None? ||
        (items[0].n.value >= 0 && items[0].n.value < textures &&
         forall i | 1 <= i < |items| :: items[i].n.Some? && items[i].n.value >= 0 && items[i].n.value < uvs))
    ensures !IsRing(items) ==>
      (TextureInTables(Nest(items), textures, uvs) <==>
        forall i | 0 <= i < |items| && items[i].Nest? :: TextureInTables(items[i], textures, uvs))
  {
  }

  // ----- the locations of addresses

  /** Index `n` occurs in `b`. */
  predicate Mentions(b: Nested, n: int) {
    match b
    case Item(m) => m == Some(n)
    case Nest(items) => exists i | 0 <= i < |items| :: Mentions(items[i], n)
  }

  /** Two tables give a reference the same meaning when they agree on every index in it. */
  lemma {:induction false} ResolveAgrees<T(!new)>(b: Nested, s: seq<T>, t: seq<T>)
    requires InTable(b, |s|) && |s| <= |t|
    ensures InTable(b, |t|)
    ensures Resolve(b, t) == Resolve(b, s) <==> forall n | Mentions(b, n) :: 0 <= n < |s| && t[n] == s[n]
  {
    match b
    case Item(n) => if n.Some? { assert Mentions(b, n.value); }
    case Nest(items) =>
      forall i | 0 <= i < |items|
        ensures InTable(items[i], |t|)
        ensures Resolve(items[i], t) == Resolve(items[i], s) <==>
          forall n | Mentions(items[i], n) :: 0 <= n < |s| && t[n] == s[n]
      {
        ResolveAgrees(items[i], s, t);
      }
      var x, y := Resolve(b, t).items, Resolve(b, s).items;
      assert x == y <==> forall i | 0 <= i < |items| :: Resolve(items[i], t) == Resolve(items[i], s) by {
        assert forall i | 0 <= i < |items| :: x[i] == Resolve(items[i], t) && y[i] == Resolve(items[i], s);
      }
      hide Resolve, InTable;
      if forall n | Mentions(b, n) :: 0 <= n < |s| && t[n] == s[n] {
        forall i | 0 <= i < |items| ensures Resolve(items[i], t) == Resolve(items[i], s) {
          assert forall n | Mentions(items[i], n) :: Mentions(b, n);
        }
      }
  }

  /** The location of an address is not moved. It still names the vertices that it named in its own
      document, moved by that document's shift, exactly when for each of its indices the same
      vertex stands in its place among those of the earlier documents and its own; where those
      differ, exactly when no earlier document has any, or it names none. */
  lemma LocationsStay(docs: seq<Doc>, i: nat, k: nat, j: nat, translate: Axes<real>, scale: Axes<real>)
    requires i < |docs| && Positive(scale)
    requires k < |docs[i].objects| && j < |docs[i].objects[k].locations|
    requires InTable(Nest(docs[i].objects[k].locations[j]), |docs[i].vertices|)
    ensures var m, before := MergedTo(docs, |docs|, translate, scale), MergedTo(docs, i, translate, scale);
      var b, own := Nest(docs[i].objects[k].locations[j]),
        MoveVertices(docs[i].vertices, ShiftOf(docs[i], translate, scale));
      var all := before.vertices + own;
      && |before.objects| + k < |m.objects|
      && m.objects[|before.objects| + k].locations == docs[i].objects[k].locations
      && InTable(b, |m.vertices|)
      && (Resolve(b, m.vertices) == Resolve(b, own) <==>
        forall n | Mentions(b, n) :: 0 <= n < |own| && all[n] == own[n])
      && (Distinct(all) ==>
            (Resolve(b, m.vertices) == Resolve(b, own) <==> before.vertices == [] || forall n :: !Mentions(b, n)))
  {
    hide MergedTo, Positive, ShiftOf, MoveVertices, Offset, InTable, Resolve, Mentions;
    var m, before := MergedTo(docs, |docs|, translate, scale), MergedTo(docs, i, translate, scale);
    var b, own := Nest(docs[i].objects[k].locations[j]),
      MoveVertices(docs[i].vertices, ShiftOf(docs[i], translate, scale));
    DocumentIsHeld(docs, i, |docs|, translate, scale);
    var moved := MovedObjects(docs[i], OffsetsOf(before));
    assert LiesAt(moved, m.objects, |before.objects|);
    assert m.objects[|before.objects| + k] == moved[k];
    TablesBefore(docs, i, |docs|, translate, scale);
    ResolveAgrees(b, own, m.vertices);
    forall n | Mentions(b, n)
      ensures 0 <= n < |own| && (m.vertices[n] == own[n] <==> (before.vertices + own)[n] == own[n])
        && (Distinct(before.vertices + own) ==> (m.vertices[n] == own[n] <==> before.vertices == []))
    {
      MentionsInTable(b, |own|, n);
      InPlaceOf(before.vertices, own, m.vertices, n);
    }
  }

  lemma {:induction false} MentionsInTable(b: Nested, count: nat, n: int)
    requires InTable(b, count) && Mentions(b, n)
    ensures 0 <= n < count
  {
    if b.Nest? {
      var i :| 0 <= i < |b.items| && Mentions(b.items[i], n);
      MentionsInTable(b.items[i], count, n);
    }
  }

  /** A document of one object, with an address at its one vertex. */
  function OneAddress(id: string, v: Axes<int>): Doc {
    Doc("2.0", None, false, Axes(1.0, 1.0, 1.0), Axes(0.0, 0.0, 0.0), [v], [], [], [], [], [],
        [CityObject(id, [], [[Item(Some(0))]])])
  }

  /** An input on which an address moves: after merging, the second document's object has its
      address at the first one's vertex. */
  lemma LocationCanMove(v: Axes<int>, w: Axes<int>)
    requires v != w
    ensures var zero, one := Axes(0.0, 0.0, 0.0), Axes(1.0, 1.0, 1.0);
      var m := MergedTo([OneAddress("a", v), OneAddress("b", w)], 2, zero, one);
      && |m.objects| == 2 && m.objects[1].locations == [[Item(Some(0))]] && m.vertices == [v, w]
  {
    var zero, one := Axes(0.0, 0.0, 0.0), Axes(1.0, 1.0, 1.0);
    var docs := [OneAddress("a", v), OneAddress("b", w)];
    assert Shift(0.0, 0.0, 1.0) == 0;
    hide Shift;
    assert ShiftOf(docs[0], zero, one) == ShiftOf(docs[1], zero, one) == Axes(0, 0, 0);
    hide ShiftOf;
    assert MoveVertices([v], Axes(0, 0, 0)) == [v] && MoveVertices([w], Axes(0, 0, 0)) == [w];
    assert MergedTo(docs, 1, zero, one) == Append(EMPTY, docs[0], Axes(0, 0, 0));
  }

  /** A document of one template, made of one material. */
  function OneTemplate(material: string): Doc {
    Doc("2.0", None, false, Axes(1.0, 1.0, 1.0), Axes(0.0, 0.0, 0.0), [], [], [], [material],
        [Template([], [Value(Some(0))])], [], [])
  }

  /** An input on which a template changes its material: after merging, the second document's
      template, made of "brick", names the first one's "glass". */
  lemma TemplateMaterialCanChange(translate: Axes<real>, scale: Axes<real>)
    requires Positive(scale)
    ensures var m := MergedTo([OneTemplate("glass"), OneTemplate("brick")], 2, translate, scale);
      |m.templates| == 2 && m.templates[1].material == [Value(Some(0))] && m.materials == ["glass", "brick"]
  {
    var docs := [OneTemplate("glass"), OneTemplate("brick")];
    hide Positive, ShiftOf;
    assert MergedTo(docs, 1, translate, scale) == Append(EMPTY, docs[0], ShiftOf(docs[0], translate, scale));
  }
}
