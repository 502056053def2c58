/** What normalising a document keeps of its meaning. */
module LodTheorems {
  import opened Options
  import opened LodModel

  // ----- what the two steps look at

  lemma {:induction false} HasIndexIs(b: Bounds)
    ensures HasVertexIndex(b) <==> exists n :: Names(b, n)
  {
    match b
    case Number(m) => assert Names(b, m);
    case List(items) =>
      forall i | 0 <= i < |items| ensures HasVertexIndex(items[i]) <==> exists n :: Names(items[i], n) {
        HasIndexIs(items[i]);
      }
      if i: nat, n :| i < |items| && Names(items[i], n) { assert Names(b, n); }
    case Other =>
  }

  /** What is asked of boundaries is that each number in them is an index. */
  lemma {:induction false} InRangeIs(b: Bounds, count: nat)
    ensures InRange(b, count) <==> forall n | Names(b, n) :: n >= 0 && n < count
  {
    match b
    case Number(m) => assert Names(b, m);
    case List(items) =>
      forall i | 0 <= i < |items|
        ensures InRange(items[i], count) <==> forall n | Names(items[i], n) :: n >= 0 && n < count
      {
        InRangeIs(items[i], count);
      }
      if !InRange(b, count) {
        var i :| 0 <= i < |items| && !InRange(items[i], count);
        var n :| Names(items[i], n) && !(n >= 0 && n < count);
        assert Names(b, n);
      }
      if InRange(b, count) {
        forall n | Names(b, n) ensures n >= 0 && n < count {
          var i :| 0 <= i < |items| && Names(items[i], n);
          assert InRange(items[i], count);
        }
      }
    case Other =>
  }

  /** A geometry has a key when it is no instance, has a level of detail and names some vertex; two
      geometries have the same key when their levels share their suffix. */
  lemma KeyIs(g: Geometry, h: Geometry)
    ensures Key(g).Some? <==>
      !g.isInstance && g.lod.Some? && g.boundaries.Some? && exists n :: Names(g.boundaries.value, n)
    ensures Key(g).Some? && Key(h).Some? ==> (Key(g) == Key(h) <==> g.lod.value.suffix == h.lod.value.suffix)
  {
    if g.boundaries.Some? { HasIndexIs(g.boundaries.value); }
    hide HasVertexIndex, Names;
  }

  /** Only a geometry at level of detail 0 or 1 that is no instance loses anything: its semantics. */
  lemma PlainIs(g: Geometry)
    ensures Plain(g) == g.(semantics := Plain(g).semantics)
    ensures Plain(g).semantics == if !g.isInstance && g.lod.Some? && (g.lod.value.major == 0 || g.lod.value.major == 1)
                                  then None else g.semantics
  {
  }

  /** Geometries are counted object by object, and an object without a list of them has none. */
  lemma {:induction false} GeometryCountAdds(a: seq<CityObject>, b: seq<CityObject>, o: CityObject)
    ensures GeometryCount(a + b) == GeometryCount(a) + GeometryCount(b)
    ensures GeometryCount([o]) == match o.geometry case None => 0 case Some(gs) => |gs|
  {
    if a == [] {
      assert a + b == b;
    } else {
      assert (a + b)[1..] == a[1..] + b;
      GeometryCountAdds(a[1..], b, o);
    }
  }

  // ----- the geometries that stay

  /** No earlier geometry of the object has the same key. */
  ghost predicate IsFirst(gs: seq<Geometry>, i: nat) {
    i < |gs| && (Key(gs[i]).None? || forall j | 0 <= j < i :: Key(gs[j]) != Key(gs[i]))
  }

  ghost predicate Unseen(g: Geometry, seen: set<string>) {
    Key(g).Some? ==> Key(g).value !in seen
  }

  /** `at` lists the positions of the geometries that stay, in order. */
  ghost predicate Stays(gs: seq<Geometry>, seen: set<string>, at: seq<nat>) {
    && (forall k | 0 <= k < |at| :: at[k] < |gs|)
    && (forall j, k | 0 <= j < k < |at| :: at[j] < at[k])
    && (forall i | 0 <= i < |gs| :: i in at <==> IsFirst(gs, i) && Unseen(gs[i], seen))
  }

  function Shifted(at: seq<nat>): (r: seq<nat>)
    ensures |r| == |at| && forall k | 0 <= k < |at| :: r[k] == at[k] + 1
  {
    seq(|at|, k requires 0 <= k < |at| => at[k] + 1)
  }

  /** The positions in the whole list, from those in its rest. */
  function Extended(tail: seq<nat>, stays: bool): seq<nat> {
    if stays then [0] + Shifted(tail) else Shifted(tail)
  }

  function NextSeen(g: Geometry, seen: set<string>): set<string> {
    if Key(g).Some? then seen + {Key(g).value} else seen
  }

  lemma StaysExtends(gs: seq<Geometry>, seen: set<string>, tail: seq<nat>)
    requires gs != [] && Stays(gs[1..], NextSeen(gs[0], seen), tail)
    ensures Stays(gs, seen, Extended(tail, Unseen(gs[0], seen)))
  {
    hide Key;
    var rest, next, stays := gs[1..], NextSeen(gs[0], seen), Unseen(gs[0], seen);
    var moved, at := Shifted(tail), Extended(tail, stays);
    forall i | 0 <= i < |gs| ensures i in at <==> IsFirst(gs, i) && Unseen(gs[i], seen) {
      if i == 0 {
        assert 0 !in moved;
        assert stays ==> at[0] == 0;
      } else {
        FirstInRest(gs, i, seen, next);
        InMoved(tail, moved, i);
        assert i in at <==> i in moved;
      }
    }
  }

  function Selected(gs: seq<Geometry>, at: seq<nat>): (r: seq<Geometry>)
    requires forall k | 0 <= k < |at| :: at[k] < |gs|
    ensures |r| == |at|
  {
    seq(|at|, k requires 0 <= k < |at| => gs[at[k]])
  }

  lemma SelectedExtends(gs: seq<Geometry>, tail: seq<nat>, stays: bool)
    requires gs != [] && forall k | 0 <= k < |tail| :: tail[k] < |gs| - 1
    ensures Selected(gs, Extended(tail, stays))
      == if stays then [gs[0]] + Selected(gs[1..], tail) else Selected(gs[1..], tail)
  {
    assert forall k | 0 <= k < |tail| :: gs[1..][tail[k]] == gs[tail[k] + 1];
  }

  /** The kept geometries are those that are the first of their key, in source order. */
  lemma {:induction false} KeptAreFirst(gs: seq<Geometry>, seen: set<string>) returns (at: seq<nat>)
    ensures Stays(gs, seen, at)
    ensures KeepFirst(gs, seen) == Selected(gs, at)
  {
    hide Key, Selected, Extended;
    if gs == [] {
      at := [];
      assert Selected(gs, at) == [];
    } else {
      var next, stays := NextSeen(gs[0], seen), Unseen(gs[0], seen);
      assert KeepFirst(gs, seen)
          == if stays then [gs[0]] + KeepFirst(gs[1..], next) else KeepFirst(gs[1..], next) by {
        assert !stays ==> next == seen;
      }
      hide KeepFirst;
      var tail := KeptAreFirst(gs[1..], next);
      at := Extended(tail, stays);
      StaysExtends(gs, seen, tail);
      SelectedExtends(gs, tail, stays);
    }
  }

  lemma InMoved(tail: seq<nat>, moved: seq<nat>, i: nat)
    requires i > 0 && |moved| == |tail| && forall k | 0 <= k < |tail| :: moved[k] == tail[k] + 1
    ensures i in moved <==> i - 1 in tail
  {
    if i in moved {
      var k :| 0 <= k < |moved| && moved[k] == i;
      assert tail[k] == i - 1;
    }
    if i - 1 in tail {
      var k :| 0 <= k < |tail| && tail[k] == i - 1;
      assert moved[k] == i;
    }
  }

  lemma FirstInRest(gs: seq<Geometry>, i: nat, seen: set<string>, next: set<string>)
    requires 0 < i < |gs|
    requires next == NextSeen(gs[0], seen)
    ensures IsFirst(gs, i) && Unseen(gs[i], seen) <==> IsFirst(gs[1..], i - 1) && Unseen(gs[1..][i - 1], next)
  {
    hide Key;
    var rest := gs[1..];
    assert forall j | 0 <= j < |rest| :: rest[j] == gs[j + 1];
    if Key(gs[i]).Some? {
      assert (forall j | 0 <= j < i :: Key(gs[j]) != Key(gs[i]))
        <==> Key(gs[0]) != Key(gs[i]) && forall j | 0 <= j < i - 1 :: Key(rest[j]) != Key(rest[i - 1]);
    }
  }

  /** An object keeps at most one geometry of a key. */
  ghost predicate OnePerKey(gs: seq<Geometry>) {
    forall i | 0 <= i < |gs| :: IsFirst(gs, i)
  }

  lemma KeptAreOnePerKey(gs: seq<Geometry>)
    ensures OnePerKey(KeepFirst(gs, {}))
  {
    hide Key, KeepFirst;
    var at := KeptAreFirst(gs, {});
    var kept := KeepFirst(gs, {});
    forall i | 0 <= i < |kept| ensures IsFirst(kept, i) {
      assert at[i] in at;
      forall j | 0 <= j < i && Key(kept[i]).Some? ensures Key(kept[j]) != Key(kept[i]) {
        assert kept[j] == gs[at[j]] && kept[i] == gs[at[i]];
      }
    }
  }

  /** An object that has one geometry per key loses nothing. */
  lemma {:induction false} NothingDropped(gs: seq<Geometry>, seen: set<string>)
    requires OnePerKey(gs) && forall i | 0 <= i < |gs| :: Unseen(gs[i], seen)
    ensures KeepFirst(gs, seen) == gs
  {
    hide Key;
    if gs != [] {
      var rest, g := gs[1..], gs[0];
      var next := NextSeen(g, seen);
      forall i | 0 <= i < |rest| ensures IsFirst(rest, i) && Unseen(rest[i], next) {
        assert IsFirst(gs, i + 1) && Unseen(gs[i + 1], seen);
        assert Unseen(g, seen);
        FirstInRest(gs, i + 1, seen, next);
      }
      NothingDropped(rest, next);
    }
  }

  /** Rewriting and removing semantics keep every key, so nothing more is dropped. */
  lemma SameKeysNothingDropped(gs: seq<Geometry>, hs: seq<Geometry>)
    requires |hs| == |gs| && forall i | 0 <= i < |gs| :: Key(hs[i]) == Key(gs[i])
    ensures KeepFirst(gs, {}) == gs ==> KeepFirst(hs, {}) == hs
  {
    hide Key, KeepFirst;
    if KeepFirst(gs, {}) == gs {
      KeptAreOnePerKey(gs);
      forall i | 0 <= i < |hs| ensures IsFirst(hs, i) {
        assert IsFirst(gs, i);
      }
      NothingDropped(hs, {});
    }
  }

  lemma {:induction false} RewriteKeepsIndices(b: Bounds, remap: seq<nat>)
    requires InRange(b, |remap|)
    ensures HasVertexIndex(Rewrite(b, remap)) == HasVertexIndex(b)
  {
    match b
    case Number(n) =>
    case List(items) =>
      var r := Rewrite(b, remap);
      forall i | 0 <= i < |items| ensures HasVertexIndex(r.items[i]) == HasVertexIndex(items[i]) {
        RewriteKeepsIndices(items[i], remap);
      }
    case Other =>
  }

  lemma RewriteKeepsKey(g: Geometry, remap: seq<nat>)
    requires g.boundaries.Some? ==> InRange(g.boundaries.value, |remap|)
    ensures Key(RewriteGeometry(g, remap)) == Key(g)
  {
    if g.boundaries.Some? { RewriteKeepsIndices(g.boundaries.value, remap); }
  }

  // ----- the vertices that stay

  lemma {:induction false} RankGrows(used: seq<bool>, i: nat, j: nat)
    requires i <= j <= |used|
    ensures Rank(used, i) <= Rank(used, j) <= Rank(used, i) + (j - i)
    ensures i < j && used[i] ==> Rank(used, i) < Rank(used, j)
    decreases j
  {
    if i < j { RankGrows(used, i, j - 1); }
  }

  lemma {:induction false} RankOfPrefix(used: seq<bool>, n: nat, i: nat)
    requires i <= n <= |used|
    ensures Rank(used[..n], i) == Rank(used, i)
  {
    if i > 0 { RankOfPrefix(used, n, i - 1); }
  }

  lemma {:induction false} UsedCount(vertices: seq<Vertex>, used: seq<bool>)
    requires |used| == |vertices|
    ensures |Used(vertices, used)| == Rank(used, |used|)
  {
    if vertices != [] {
      var n := |vertices| - 1;
      UsedCount(vertices[..n], used[..n]);
      RankOfPrefix(used, n, n);
    }
  }

  /** A used vertex is found at its new position. */
  lemma {:induction false} UsedAt(vertices: seq<Vertex>, used: seq<bool>, i: nat)
    requires |used| == |vertices| && i < |used| && used[i]
    ensures Rank(used, i) < |Used(vertices, used)| && Used(vertices, used)[Rank(used, i)] == vertices[i]
  {
    var n := |vertices| - 1;
    UsedCount(vertices[..n], used[..n]);
    RankOfPrefix(used, n, n);
    if i < n {
      UsedAt(vertices[..n], used[..n], i);
      RankOfPrefix(used, n, i);
    }
  }

  /** Every new position is that of a used vertex. */
  lemma {:induction false} UsedFrom(vertices: seq<Vertex>, used: seq<bool>, k: nat) returns (i: nat)
    requires |used| == |vertices| && k < |Used(vertices, used)|
    ensures i < |used| && used[i] && Rank(used, i) == k
  {
    var n := |vertices| - 1;
    UsedCount(vertices[..n], used[..n]);
    RankOfPrefix(used, n, n);
    if k < |Used(vertices[..n], used[..n])| {
      i := UsedFrom(vertices[..n], used[..n], k);
      RankOfPrefix(used, n, i);
    } else {
      i := n;
    }
  }

  ghost predicate NamesOnlyUsed(b: Bounds, used: seq<bool>) {
    forall n: int | Names(b, n) :: 0 <= n < |used| && used[n]
  }

  /** A rewritten boundary names the same vertices, at the same places of its nesting. */
  lemma {:induction false} RewriteKeepsShape(b: Bounds, vertices: seq<Vertex>, used: seq<bool>)
    requires |used| == |vertices| && InRange(b, |vertices|) && NamesOnlyUsed(b, used)
    ensures var r := Rewrite(b, Remap(used));
      InRange(r, |Used(vertices, used)|) && Resolve(r, Used(vertices, used)) == Resolve(b, vertices)
  {
    hide Used, Rank;
    match b
    case Number(n) =>
      assert Names(b, n);
      UsedAt(vertices, used, n);
    case List(items) =>
      var r := Rewrite(b, Remap(used));
      forall i | 0 <= i < |items|
        ensures InRange(r.items[i], |Used(vertices, used)|)
          && Resolve(r.items[i], Used(vertices, used)) == Resolve(items[i], vertices)
      {
        assert forall n | Names(items[i], n) :: Names(b, n);
        RewriteKeepsShape(items[i], vertices, used);
      }
    case Other =>
  }

  lemma {:induction false} RewriteNames(b: Bounds, remap: seq<nat>, n: nat)
    requires InRange(b, |remap|) && n < |remap| && Names(b, n)
    ensures Names(Rewrite(b, remap), remap[n])
  {
    match b
    case Number(m) =>
    case List(items) =>
      var i :| 0 <= i < |items| && Names(items[i], n);
      RewriteNames(items[i], remap, n);
      assert Names(Rewrite(b, remap).items[i], remap[n]);
    case Other =>
  }

  // ----- compaction of a document

  lemma ObjectNamesUsed(objects: seq<CityObject>, count: nat, o: CityObject, g: Geometry)
    requires o in objects && g in GeometriesOf(o) && g.boundaries.Some? && InRange(g.boundaries.value, count)
    ensures NamesOnlyUsed(g.boundaries.value, UsedBy(objects, count))
  {
    forall n: int | Names(g.boundaries.value, n) ensures 0 <= n < count && IsNamed(objects, n) {
      NamesInRange(g.boundaries.value, count, n);
      assert ObjectNames(o, n);
    }
  }

  lemma {:induction false} NamesInRange(b: Bounds, count: nat, n: int)
    requires InRange(b, count) && Names(b, n)
    ensures 0 <= n < count
  {
    match b
    case Number(m) =>
    case List(items) =>
      var i :| 0 <= i < |items| && Names(items[i], n);
      NamesInRange(items[i], count, n);
    case Other =>
  }

  /** A geometry as it was but for the numbers in its boundaries, which name the same vertices. */
  ghost predicate SameMeaning(g: Geometry, vertices: seq<Vertex>, h: Geometry, newVertices: seq<Vertex>) {
    && h == g.(boundaries := h.boundaries)
    && (g.boundaries.None? <==> h.boundaries.None?)
    && (g.boundaries.Some? && InRange(g.boundaries.value, |vertices|) ==>
          && InRange(h.boundaries.value, |newVertices|)
          && Resolve(h.boundaries.value, newVertices) == Resolve(g.boundaries.value, vertices))
  }

  lemma CompactGeometry(objects: seq<CityObject>, vertices: seq<Vertex>, o: CityObject, g: Geometry)
    requires o in objects && g in GeometriesOf(o)
    requires g.boundaries.Some? ==> InRange(g.boundaries.value, |vertices|)
    ensures var used := UsedBy(objects, |vertices|);
      SameMeaning(g, vertices, RewriteGeometry(g, Remap(used)), Used(vertices, used))
  {
    hide Used, UsedBy, Remap, Resolve, InRange, Rewrite;
    if g.boundaries.Some? {
      ObjectNamesUsed(objects, |vertices|, o, g);
      RewriteKeepsShape(g.boundaries.value, vertices, UsedBy(objects, |vertices|));
    }
  }

  /** The same objects, with every geometry as it was in meaning. */
  ghost predicate SameObjects(objects: seq<CityObject>, vertices: seq<Vertex>,
                              after: seq<CityObject>, newVertices: seq<Vertex>) {
    && |after| == |objects|
    && forall i | 0 <= i < |objects| ::
         && after[i] == objects[i].(geometry := after[i].geometry)
         && (after[i].geometry.None? <==> objects[i].geometry.None?)
         && |GeometriesOf(after[i])| == |GeometriesOf(objects[i])|
         && forall k | 0 <= k < |GeometriesOf(objects[i])| ::
              SameMeaning(GeometriesOf(objects[i])[k], vertices, GeometriesOf(after[i])[k], newVertices)
  }

  /** Compacting moves no geometry to other vertices, at any depth of nesting. */
  lemma CompactKeepsMeaning(objects: seq<CityObject>, vertices: seq<Vertex>)
    requires AllInRange(objects, |vertices|)
    ensures var (after, newVertices) := Compact(objects, vertices).value;
      SameObjects(objects, vertices, after, newVertices)
  {
    hide Used, UsedBy, Remap, InRange, SameMeaning, RewriteGeometry;
    var used := UsedBy(objects, |vertices|);
    var after, newVertices := RewriteObjects(objects, Remap(used)), Used(vertices, used);
    forall i, k | 0 <= i < |objects| && 0 <= k < |GeometriesOf(objects[i])|
      ensures SameMeaning(GeometriesOf(objects[i])[k], vertices, GeometriesOf(after[i])[k], newVertices)
    {
      var g := GeometriesOf(objects[i])[k];
      assert objects[i] in objects && g in GeometriesOf(objects[i]) && ObjectInRange(objects[i], |vertices|);
      CompactGeometry(objects, vertices, objects[i], g);
      assert GeometriesOf(after[i])[k] == RewriteGeometry(g, Remap(used));
    }
  }

  /** Compacting leaves no vertex that nothing names, and keeps the order of the rest. */
  lemma CompactKeepsOnlyNamed(objects: seq<CityObject>, vertices: seq<Vertex>, k: nat)
    requires AllInRange(objects, |vertices|) && k < |Compact(objects, vertices).value.1|
    ensures IsNamed(Compact(objects, vertices).value.0, k)
    ensures exists i | 0 <= i < |vertices| ::
      IsNamed(objects, i) && Rank(UsedBy(objects, |vertices|), i) == k &&
        Compact(objects, vertices).value.1[k] == vertices[i]
  {
    var used := UsedBy(objects, |vertices|);
    var i := UsedFrom(vertices, used, k);
    UsedAt(vertices, used, i);
    var remap := Remap(used);
    assert IsNamed(objects, i) && remap[i] == k;
    var o :| o in objects && ObjectNames(o, i);
    var at :| 0 <= at < |objects| && objects[at] == o;
    hide UsedBy, Used, Rank, Remap;
    NamedInObject(o, remap, i);
    assert RewriteObjects(objects, remap)[at] == RewriteObject(o, remap);
  }

  lemma NamedInObject(o: CityObject, remap: seq<nat>, i: nat)
    requires ObjectInRange(o, |remap|) && ObjectNames(o, i) && i < |remap|
    ensures ObjectNames(RewriteObject(o, remap), remap[i])
  {
    hide Rewrite, InRange, Names;
    var g :| g in GeometriesOf(o) && g.boundaries.Some? && Names(g.boundaries.value, i);
    var gs := GeometriesOf(o);
    var k :| 0 <= k < |gs| && gs[k] == g;
    RewriteNames(g.boundaries.value, remap, i);
    assert GeometriesOf(RewriteObject(o, remap))[k] == RewriteGeometry(g, remap);
  }

  // ----- normalising twice

  lemma {:induction false} CountOfKeep(objects: seq<CityObject>, kept: seq<CityObject>)
    requires |kept| == |objects| && forall i | 0 <= i < |objects| :: kept[i] == KeepFirstIn(objects[i])
    ensures GeometryCount(kept) <= GeometryCount(objects)
    ensures GeometryCount(kept) == GeometryCount(objects) ==> kept == objects
  {
    if objects != [] {
      CountOfKeep(objects[1..], kept[1..]);
      KeepAll(GeometriesOf(objects[0]), {});
      assert objects == [objects[0]] + objects[1..] && kept == [kept[0]] + kept[1..];
    }
  }

  lemma {:induction false} KeepAll(gs: seq<Geometry>, seen: set<string>)
    ensures |KeepFirst(gs, seen)| == |gs| ==> KeepFirst(gs, seen) == gs
  {
    hide Key;
    if gs != [] {
      KeepAll(gs[1..], seen);
      KeepAll(gs[1..], NextSeen(gs[0], seen));
    }
  }

  /** The same geometries but for what does not matter to their keys. */
  ghost predicate SameKeys(a: CityObject, b: CityObject) {
    && (a.geometry.None? <==> b.geometry.None?)
    && |GeometriesOf(b)| == |GeometriesOf(a)|
    && forall k | 0 <= k < |GeometriesOf(a)| :: Key(GeometriesOf(b)[k]) == Key(GeometriesOf(a)[k])
  }

  lemma KeptIsKept(o: CityObject, b: CityObject)
    requires SameKeys(KeepFirstIn(o), b)
    ensures KeepFirstIn(b) == b
  {
    hide Key, KeepFirst;
    if o.geometry.Some? {
      var gs := o.geometry.value;
      KeptAreOnePerKey(gs);
      NothingDropped(KeepFirst(gs, {}), {});
      SameKeysNothingDropped(KeepFirst(gs, {}), b.geometry.value);
    }
  }

  lemma PlainKeepsKeys(o: CityObject)
    ensures SameKeys(o, PlainObject(o)) && PlainObject(PlainObject(o)) == PlainObject(o)
  {
    hide HasVertexIndex;
    if o.geometry.Some? {
      var p := PlainObject(o);
      assert PlainObject(p).geometry.value == p.geometry.value;
    }
  }

  lemma RewriteKeepsKeys(o: CityObject, remap: seq<nat>)
    requires ObjectInRange(o, |remap|)
    ensures SameKeys(o, RewriteObject(o, remap))
  {
    hide Key, RewriteGeometry;
    var gs := GeometriesOf(o);
    forall k | 0 <= k < |gs| ensures Key(GeometriesOf(RewriteObject(o, remap))[k]) == Key(gs[k]) {
      assert gs[k] in gs;
      RewriteKeepsKey(gs[k], remap);
    }
  }

  lemma KeptKeys(objects: seq<CityObject>, vertices: seq<Vertex>, i: nat)
    requires Kept(objects, vertices).Ok? && i < |objects|
    ensures |Kept(objects, vertices).value.0| == |objects|
    ensures SameKeys(KeepFirstIn(objects[i]), Kept(objects, vertices).value.0[i])
  {
    hide Key, Used, UsedBy, Remap, RewriteObject, GeometryCount;
    var kept := Keep(objects);
    if GeometryCount(kept) < GeometryCount(objects) {
      assert kept[i] in kept;
      RewriteKeepsKeys(kept[i], Remap(UsedBy(kept, |vertices|)));
    }
  }

  /** What `normalise` leaves, it leaves as it is: a second run drops nothing, removes
      nothing and renumbers nothing. */
  lemma NormaliseTwiceIsOnce(objects: seq<CityObject>, vertices: seq<Vertex>)
    requires Normal(objects, vertices).Ok?
    ensures var (o, v) := Normal(objects, vertices).value;
      Keep(o) == o && GeometryCount(Keep(o)) == GeometryCount(o) && Normal(o, v) == Ok((o, v))
  {
    var (k, v) := Kept(objects, vertices).value;
    var o := PlainObjects(k);
    forall i | 0 <= i < |o| ensures KeepFirstIn(o[i]) == o[i] && PlainObject(o[i]) == o[i] {
      NormalObjectStays(objects, vertices, i);
    }
    hide KeepFirstIn, PlainObject, Compact;
    assert Keep(o) == o;
    assert PlainObjects(o) == o;
  }

  lemma NormalObjectStays(objects: seq<CityObject>, vertices: seq<Vertex>, i: nat)
    requires Kept(objects, vertices).Ok? && i < |Kept(objects, vertices).value.0|
    ensures var b := PlainObject(Kept(objects, vertices).value.0[i]);
      KeepFirstIn(b) == b && PlainObject(b) == b
  {
    hide Key, KeepFirst, Compact, PlainObject;
    assert |Kept(objects, vertices).value.0| == |objects| by { KeptLength(objects, vertices); }
    KeptKeys(objects, vertices, i);
    var a := Kept(objects, vertices).value.0[i];
    PlainKeepsKeys(a);
    KeptIsKept(objects[i], PlainObject(a));
  }

  lemma KeptLength(objects: seq<CityObject>, vertices: seq<Vertex>)
    requires Kept(objects, vertices).Ok?
    ensures |Kept(objects, vertices).value.0| == |objects|
  {
  }

  // ----- the whole of `normalise`

  /** What normalising promises about object `i`. */
  ghost predicate Preserved(a: CityObject, vertices: seq<Vertex>, b: CityObject, newVertices: seq<Vertex>) {
    && b == a.(geometry := b.geometry)
    && (b.geometry.None? <==> a.geometry.None?)
    && OnePerKey(GeometriesOf(b))
    && exists at: seq<nat> :: Stays(GeometriesOf(a), {}, at) && |at| == |GeometriesOf(b)|
         && forall k | 0 <= k < |at| ::
              SameMeaning(Plain(GeometriesOf(a)[at[k]]), vertices, GeometriesOf(b)[k], newVertices)
  }

  /** Every object keeps its name and members; of its geometries the first of each key and
      all without a key stay, in source order; what stays names the vertices it named, at the
      same places of its nesting, and loses nothing but semantics below LoD 2. */
  lemma NormaliseKeepsMeaning(objects: seq<CityObject>, vertices: seq<Vertex>, i: nat)
    requires Normal(objects, vertices).Ok? && i < |objects|
    ensures var (o, v) := Normal(objects, vertices).value;
      |o| == |objects| && Preserved(objects[i], vertices, o[i], v)
  {
    hide Key, KeepFirst, Stays, SameMeaning, OnePerKey, Compact, Plain;
    var (k, v) := Kept(objects, vertices).value;
    KeptLength(objects, vertices);
    KeptMeans(objects, vertices, i);
    var a, m, b := objects[i], k[i], PlainObjects(k)[i];
    var at := KeptAreFirst(GeometriesOf(a), {});
    StaysInRange(GeometriesOf(a), {}, at);
    var kept := GeometriesOf(KeepFirstIn(a));
    assert kept == Selected(GeometriesOf(a), at) by { NoGeometries(a, at); }
    forall j | 0 <= j < |at|
      ensures SameMeaning(Plain(GeometriesOf(a)[at[j]]), vertices, GeometriesOf(b)[j], v)
    {
      PlainMeans(kept[j], vertices, GeometriesOf(m)[j], v);
    }
    NormalObjectOnePerKey(objects, vertices, i);
  }

  lemma NoGeometries(a: CityObject, at: seq<nat>)
    requires Stays(GeometriesOf(a), {}, at) && KeepFirst(GeometriesOf(a), {}) == Selected(GeometriesOf(a), at)
    ensures GeometriesOf(KeepFirstIn(a)) == Selected(GeometriesOf(a), at)
  {
    hide Key;
  }

  lemma StaysInRange(gs: seq<Geometry>, seen: set<string>, at: seq<nat>)
    requires Stays(gs, seen, at)
    ensures forall k | 0 <= k < |at| :: at[k] < |gs|
  {
  }

  lemma PlainMeans(g: Geometry, vertices: seq<Vertex>, h: Geometry, newVertices: seq<Vertex>)
    requires SameMeaning(g, vertices, h, newVertices)
    ensures SameMeaning(Plain(g), vertices, Plain(h), newVertices)
  {
  }

  lemma Unmoved(g: Geometry, vertices: seq<Vertex>)
    ensures SameMeaning(g, vertices, g, vertices)
  {
  }

  lemma KeptMeans(objects: seq<CityObject>, vertices: seq<Vertex>, i: nat)
    requires Kept(objects, vertices).Ok? && i < |objects| == |Kept(objects, vertices).value.0|
    ensures var (k, v) := Kept(objects, vertices).value;
      && k[i] == objects[i].(geometry := k[i].geometry) && (k[i].geometry.None? <==> objects[i].geometry.None?)
      && |GeometriesOf(k[i])| == |GeometriesOf(KeepFirstIn(objects[i]))|
      && forall j | 0 <= j < |GeometriesOf(k[i])| ::
           SameMeaning(GeometriesOf(KeepFirstIn(objects[i]))[j], vertices, GeometriesOf(k[i])[j], v)
  {
    hide KeepFirst, SameMeaning, GeometryCount;
    var kept := Keep(objects);
    assert kept[i] == KeepFirstIn(objects[i]);
    if GeometryCount(kept) < GeometryCount(objects) {
      CompactKeepsMeaning(kept, vertices);
      hide Compact;
    } else {
      forall j | 0 <= j < |GeometriesOf(kept[i])|
        ensures SameMeaning(GeometriesOf(kept[i])[j], vertices, GeometriesOf(kept[i])[j], vertices)
      {
        Unmoved(GeometriesOf(kept[i])[j], vertices);
      }
    }
  }

  lemma NormalObjectOnePerKey(objects: seq<CityObject>, vertices: seq<Vertex>, i: nat)
    requires Kept(objects, vertices).Ok? && i < |Kept(objects, vertices).value.0|
    ensures OnePerKey(GeometriesOf(PlainObject(Kept(objects, vertices).value.0[i])))
  {
    hide Key, KeepFirst, Compact, PlainObject, OnePerKey;
    NormalObjectStays(objects, vertices, i);
    var b := PlainObject(Kept(objects, vertices).value.0[i]);
    if b.geometry.Some? { KeptAreOnePerKey(b.geometry.value); } else { NothingIsOnePerKey(); }
  }

  lemma NothingIsOnePerKey()
    ensures OnePerKey([])
  {
  }

  /** Removing semantics names the same vertices. */
  lemma PlainKeepsNames(objects: seq<CityObject>, n: int)
    ensures IsNamed(PlainObjects(objects), n) <==> IsNamed(objects, n)
  {
    hide Names;
    var plain := PlainObjects(objects);
    forall i | 0 <= i < |objects| ensures ObjectNames(plain[i], n) <==> ObjectNames(objects[i], n) {
      PlainObjectKeepsNames(objects[i], n);
    }
    hide ObjectNames;
    if IsNamed(objects, n) {
      var o :| o in objects && ObjectNames(o, n);
      var i :| 0 <= i < |objects| && objects[i] == o;
      assert plain[i] in plain;
    }
    if IsNamed(plain, n) {
      var o :| o in plain && ObjectNames(o, n);
      var i :| 0 <= i < |plain| && plain[i] == o;
      assert objects[i] in objects;
    }
  }

  lemma PlainObjectKeepsNames(o: CityObject, n: int)
    ensures ObjectNames(PlainObject(o), n) <==> ObjectNames(o, n)
  {
    hide Names;
    var gs, hs := GeometriesOf(o), GeometriesOf(PlainObject(o));
    assert |hs| == |gs| && forall k | 0 <= k < |gs| :: hs[k] == Plain(gs[k]);
    if ObjectNames(o, n) {
      var g :| g in gs && g.boundaries.Some? && Names(g.boundaries.value, n);
      var k :| 0 <= k < |gs| && gs[k] == g;
      assert hs[k] in hs && hs[k].boundaries == g.boundaries;
    }
    if ObjectNames(PlainObject(o), n) {
      var h :| h in hs && h.boundaries.Some? && Names(h.boundaries.value, n);
      var k :| 0 <= k < |hs| && hs[k] == h;
      assert gs[k] in gs && gs[k].boundaries == h.boundaries;
    }
  }

  /** When normalising dropped a geometry, the vertices that are left are those that the kept
      geometries name, in their old order, and all of them are still named; otherwise all
      vertices are left. `at` lists the old positions. */
  lemma NormaliseKeepsOnlyNamed(objects: seq<CityObject>, vertices: seq<Vertex>) returns (at: seq<nat>)
    requires Normal(objects, vertices).Ok?
    ensures var (o, v) := Normal(objects, vertices).value;
      if GeometryCount(Keep(objects)) < GeometryCount(objects) then
        && |at| == |v| && (forall j, k | 0 <= j < k < |at| :: at[j] < at[k])
        && (forall k | 0 <= k < |v| :: at[k] < |vertices| && v[k] == vertices[at[k]] && IsNamed(o, k))
        && forall i | 0 <= i < |vertices| :: i in at <==> IsNamed(Keep(objects), i)
      else v == vertices
  {
    hide GeometryCount, Keep, IsNamed, PlainObjects, Compact, AllInRange;
    at := [];
    if GeometryCount(Keep(objects)) < GeometryCount(objects) {
      CompactOnlyInRange(Keep(objects), vertices);
      var after := Compact(Keep(objects), vertices).value;
      at := CompactedAt(Keep(objects), vertices);
      forall k | 0 <= k < |after.1| ensures IsNamed(PlainObjects(after.0), k) {
        CompactKeepsOnlyNamed(Keep(objects), vertices, k);
        PlainKeepsNames(after.0, k);
      }
    }
  }

  lemma CompactOnlyInRange(objects: seq<CityObject>, vertices: seq<Vertex>)
    ensures Compact(objects, vertices).Ok? <==> AllInRange(objects, |vertices|)
  {
  }

  /** The old positions of the vertices that compacting keeps. */
  lemma CompactedAt(objects: seq<CityObject>, vertices: seq<Vertex>) returns (at: seq<nat>)
    requires AllInRange(objects, |vertices|)
    ensures var v := Compact(objects, vertices).value.1;
      && |at| == |v| && (forall j, k | 0 <= j < k < |at| :: at[j] < at[k])
      && (forall k | 0 <= k < |v| :: at[k] < |vertices| && v[k] == vertices[at[k]])
      && forall i | 0 <= i < |vertices| :: i in at <==> IsNamed(objects, i)
  {
    hide Rank, IsNamed;
    var used := UsedBy(objects, |vertices|);
    var v := Used(vertices, used);
    hide Used;
    at := [];
    while |at| < |v|
      invariant |at| <= |v|
      invariant forall k | 0 <= k < |at| :: at[k] < |vertices| && used[at[k]] && Rank(used, at[k]) == k
    {
      var i := UsedFrom(vertices, used, |at|);
      at := at + [i];
    }
    forall k | 0 <= k < |v| ensures v[k] == vertices[at[k]] { UsedAt(vertices, used, at[k]); }
    forall j, k | 0 <= j < k < |at| ensures at[j] < at[k] {
      if at[j] >= at[k] { RankGrows(used, at[k], at[j]); }
    }
    forall i | 0 <= i < |vertices| ensures i in at <==> used[i] {
      if used[i] {
        UsedAt(vertices, used, i);
        var k := Rank(used, i);
        if at[k] < i { RankGrows(used, at[k], i); }
        if i < at[k] { RankGrows(used, i, at[k]); }
        assert at[k] == i;
      }
    }
  }
}
