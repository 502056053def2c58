/** The order of a CityJSONSeq stream: benchmark/readbench/src/seq_order.rs.

    A line is its text together with the value that reading the text gives. A line that is
    written anew holds the value it was written from: printing a value and reading it back
    is the JSON library's promise, and is taken as given. */
module SeqOrder {
  import opened Options
  import opened Sorting
  import opened Sequences

  datatype Value = Scalar(text: string) | String(chars: string) | Array(items: seq<Value>)
    | Object(members: seq<Member>)

  type Member = (string, Value)

  datatype Line = Line(text: string, value: Option<Value>)

  datatype Error =
    | Empty
    | Malformed
    | NoId
    | ObjectNotInDocument(key: string, id: string)
    | RootNotInDocument(id: string)
    | SharedRoot(place: nat)

  type Outcome<T> = Result<T, Error>

  // ----- members of an object

  function Get(members: seq<Member>, key: string): Option<Value> {
    if members == [] then None
    else if members[0].0 == key then Some(members[0].1)
    else Get(members[1..], key)
  }

  /** Gives a member a new value in its place. */
  function Put(members: seq<Member>, key: string, value: Value): seq<Member> {
    if members == [] then []
    else if members[0].0 == key then [(key, value)] + members[1..]
    else [members[0]] + Put(members[1..], key, value)
  }

  lemma {:induction false} GetAfterPut(members: seq<Member>, key: string, value: Value, other: string)
    ensures Get(Put(members, key, value), other) ==
      if other == key && Get(members, key).Some? then Some(value) else Get(members, other)
  {
    if members != [] { GetAfterPut(members[1..], key, value, other); }
  }

  lemma {:induction false} PutTwice(members: seq<Member>, key: string, first: Value, second: Value)
    ensures Put(Put(members, key, first), key, second) == Put(members, key, second)
  {
    if members != [] && members[0].0 != key { PutTwice(members[1..], key, first, second); }
  }

  /** No two members have the same name, as in every value the JSON library reads. */
  ghost predicate DistinctKeys(members: seq<Member>) {
    forall i, j | 0 <= i < j < |members| :: members[i].0 != members[j].0
  }

  // ----- a feature line

  const CITY_OBJECTS := "CityObjects"

  function Id(value: Value): Option<string> {
    if !value.Object? then None
    else match Get(value.members, "id")
      case Some(String(id)) => Some(id)
      case _ => None
  }

  function Objects(value: Value): Option<seq<Member>> {
    if !value.Object? then None
    else match Get(value.members, CITY_OBJECTS)
      case Some(Object(objects)) => Some(objects)
      case _ => None
  }

  function WithObjects(value: Value, objects: seq<Member>): Value
    requires value.Object?
  {
    Object(Put(value.members, CITY_OBJECTS, Object(objects)))
  }

  lemma WithObjectsHas(value: Value, objects: seq<Member>)
    requires Objects(value).Some?
    ensures Id(WithObjects(value, objects)) == Id(value)
    ensures Objects(WithObjects(value, objects)) == Some(objects)
  {
    GetAfterPut(value.members, CITY_OBJECTS, Object(objects), CITY_OBJECTS);
    GetAfterPut(value.members, CITY_OBJECTS, Object(objects), "id");
  }

  /** The place of an identifier in the document: the last, should it stand there twice. */
  function Position(doc: seq<string>, id: string): (r: Option<nat>)
    ensures r.Some? <==> id in doc
    ensures r.Some? ==> r.value < |doc| && doc[r.value] == id
  {
    if doc == [] then None
    else if doc[|doc| - 1] == id then Some(|doc| - 1)
    else
      assert doc == doc[..|doc| - 1] + [doc[|doc| - 1]];
      Position(doc[..|doc| - 1], id)
  }

  function Rank(doc: seq<string>, id: string): real {
    match Position(doc, id)
    case None => 0.0
    case Some(p) => p as real
  }

  function ByPosition(doc: seq<string>): Member -> real {
    (m: Member) => Rank(doc, m.0)
  }

  /** The first object that the document lacks. */
  function Missing(doc: seq<string>, objects: seq<Member>): (r: Option<string>)
    ensures r.None? <==> forall i | 0 <= i < |objects| :: objects[i].0 in doc
  {
    if objects == [] then None
    else if objects[0].0 !in doc then Some(objects[0].0)
    else
      assert objects == [objects[0]] + objects[1..];
      Missing(doc, objects[1..])
  }

  predicate InOrder(doc: seq<string>, objects: seq<Member>) {
    forall i | 0 <= i < |objects| - 1 :: Rank(doc, objects[i].0) < Rank(doc, objects[i + 1].0)
  }

  function Arranged(doc: seq<string>, objects: seq<Member>): seq<Member> {
    Sort(objects, ByPosition(doc))
  }

  /** `feature_id_and_line`. */
  function ReadFeature(doc: seq<string>, print_: Value -> string, line: Line): Outcome<(string, Line)> {
    if line.value.None? then Err(Malformed)
    else
      var value := line.value.value;
      var id := Id(value);
      if id.None? then Err(NoId)
      else
        var objects := Objects(value);
        if objects.None? then Ok((id.value, line))
        else if Missing(doc, objects.value).Some?
          then Err(ObjectNotInDocument(Missing(doc, objects.value).value, id.value))
        else if InOrder(doc, objects.value) then Ok((id.value, line))
        else
          var arranged := WithObjects(value, Arranged(doc, objects.value));
          Ok((id.value, Line(print_(arranged), Some(arranged))))
  }

  // ----- the stream

  type Keyed = (nat, Line)

  function ByRoot(): Keyed -> real {
    (k: Keyed) => k.0 as real
  }

  /** The lines with their places, or the first fault. */
  function KeyLines(doc: seq<string>, print_: Value -> string, lines: seq<Line>): Outcome<seq<Keyed>> {
    if lines == [] then Ok([])
    else
      var first := ReadFeature(doc, print_, lines[0]);
      if first.Err? then Err(first.error)
      else
        var place := Position(doc, first.value.0);
        if place.None? then Err(RootNotInDocument(first.value.0))
        else
          var rest := KeyLines(doc, print_, lines[1..]);
          if rest.Err? then rest else Ok([(place.value, first.value.1)] + rest.value)
  }

  /** The first place that two neighbours share. */
  function Shared(keyed: seq<Keyed>): Option<nat> {
    if |keyed| < 2 then None
    else if keyed[0].0 == keyed[1].0 then Some(keyed[0].0)
    else Shared(keyed[1..])
  }

  function LineOf(): Keyed -> Line {
    (k: Keyed) => k.1
  }

  /** `order_seq_lines`. */
  function Order(doc: seq<string>, print_: Value -> string, lines: seq<Line>): Outcome<seq<Line>> {
    if lines == [] then Err(Empty)
    else
      var keyed := KeyLines(doc, print_, lines[1..]);
      if keyed.Err? then Err(keyed.error)
      else
        var sorted := Sort(keyed.value, ByRoot());
        var shared := Shared(sorted);
        if shared.Some? then Err(SharedRoot(shared.value))
        else Ok([lines[0]] + Map(LineOf(), sorted))
  }

  // ----- what it looks at

  /** The identifier of a value and its objects, by their literal names. */
  lemma MembersAre(value: Value, id: string, objects: seq<Member>)
    requires value.Object? ==> DistinctKeys(value.members)
    ensures Id(value) == Some(id) <==> value.Object? && ("id", String(id)) in value.members
    ensures Objects(value) == Some(objects) <==> value.Object? && ("CityObjects", Object(objects)) in value.members
  {
    if value.Object? {
      GetIs(value.members, "id", String(id));
      GetIs(value.members, "CityObjects", Object(objects));
    }
  }

  lemma {:induction false} GetIs(members: seq<Member>, key: string, value: Value)
    requires DistinctKeys(members)
    ensures Get(members, key) == Some(value) <==> (key, value) in members
  {
    if members != [] {
      var rest := members[1..];
      FirstIsAlone(members);
      GetIs(rest, key, value);
      assert members == [members[0]] + rest;
    }
  }

  lemma FirstIsAlone(members: seq<Member>)
    requires members != [] && DistinctKeys(members)
    ensures DistinctKeys(members[1..]) && forall m | m in members[1..] :: m.0 != members[0].0
  {
  }

  lemma {:induction false} PositionIsLast(doc: seq<string>, id: string)
    ensures Position(doc, id).Some? ==> forall j | Position(doc, id).value < j < |doc| :: doc[j] != id
  {
    if doc != [] && doc[|doc| - 1] != id {
      PositionIsLast(doc[..|doc| - 1], id);
    }
  }

  lemma {:induction false} MissingIsFirst(doc: seq<string>, objects: seq<Member>, id: string)
    ensures Missing(doc, objects) == Some(id) <==>
      exists i | 0 <= i < |objects| :: IsFirstMissing(doc, objects, i) && objects[i].0 == id
  {
    if objects != [] {
      var rest := objects[1..];
      MissingIsFirst(doc, rest, id);
      assert forall i | 0 <= i < |rest| :: rest[i] == objects[i + 1];
      if objects[0].0 in doc {
        if i: int :| 0 <= i < |rest| && IsFirstMissing(doc, rest, i) && rest[i].0 == id {
          assert IsFirstMissing(doc, objects, i + 1);
        }
        if i: int :| 0 <= i < |objects| && IsFirstMissing(doc, objects, i) && objects[i].0 == id {
          assert IsFirstMissing(doc, rest, i - 1);
        }
      } else {
        assert IsFirstMissing(doc, objects, 0);
      }
    }
  }

  /** Object `i` is the first that the document lacks. */
  predicate IsFirstMissing(doc: seq<string>, objects: seq<Member>, i: int) {
    0 <= i < |objects| && objects[i].0 !in doc && forall j | 0 <= j < i :: objects[j].0 in doc
  }

  // ----- when it succeeds

  /** The line is a feature whose root and objects the document holds. */
  predicate Placeable(doc: seq<string>, line: Line) {
    line.value.Some? && Id(line.value.value).Some? && Id(line.value.value).value in doc &&
    (Objects(line.value.value).Some? ==>
       forall i | 0 <= i < |Objects(line.value.value).value| :: Objects(line.value.value).value[i].0 in doc)
  }

  function RootPlace(doc: seq<string>, line: Line): nat
    requires Placeable(doc, line)
  {
    Position(doc, Id(line.value.value).value).value
  }

  function Kept(doc: seq<string>, print_: Value -> string, line: Line): Line
    requires Placeable(doc, line)
  {
    ReadFeature(doc, print_, line).value.1
  }

  function KeyOf(doc: seq<string>, print_: Value -> string): Line -> Keyed {
    (line: Line) =>
      if Placeable(doc, line) then (RootPlace(doc, line), Kept(doc, print_, line)) else (0, line)
  }

  lemma {:induction false} KeyLinesPlacesAll(doc: seq<string>, print_: Value -> string, lines: seq<Line>)
    ensures KeyLines(doc, print_, lines).Ok? <==> forall k | 0 <= k < |lines| :: Placeable(doc, lines[k])
    ensures KeyLines(doc, print_, lines).Ok? ==>
      KeyLines(doc, print_, lines).value == Map(KeyOf(doc, print_), lines)
  {
    hide Missing, Position, InOrder, Objects, Id, Arranged, WithObjects;
    if lines != [] {
      KeyLinesPlacesAll(doc, print_, lines[1..]);
      assert lines == [lines[0]] + lines[1..];
      assert Placeable(doc, lines[0]) <==>
        ReadFeature(doc, print_, lines[0]).Ok? && Position(doc, ReadFeature(doc, print_, lines[0]).value.0).Some?;
    }
  }

  function PlaceOf(): Keyed -> nat {
    (k: Keyed) => k.0
  }

  lemma {:induction false} DistinctCounts(s: seq<nat>)
    ensures Distinct(s) <==> forall x :: multiset(s)[x] <= 1
  {
    if s != [] {
      var rest := s[1..];
      DistinctCounts(rest);
      DistinctTail(s);
      assert s == [s[0]] + rest;
      assert multiset(s) == multiset{s[0]} + multiset(rest);
      assert s[0] in rest <==> multiset(rest)[s[0]] > 0;
      if forall x :: multiset(s)[x] <= 1 {
        assert multiset(s)[s[0]] == 1 + multiset(rest)[s[0]];
        forall x ensures multiset(rest)[x] <= 1 {
          assert multiset(s)[x] <= 1;
        }
      }
    }
  }

  lemma DistinctTail(s: seq<nat>)
    requires s != []
    ensures Distinct(s) <==> Distinct(s[1..]) && s[0] !in s[1..]
  {
    var rest := s[1..];
    assert forall i | 0 <= i < |rest| :: rest[i] == s[i + 1];
    if Distinct(rest) && s[0] !in rest {
      forall i, j | 0 <= i < j < |s| ensures s[i] != s[j] {
        assert s[j] == rest[j - 1];
        if i > 0 { assert s[i] == rest[i - 1]; }
      }
    }
  }

  /** Two equal places in an ascending list have equal neighbours among them. */
  lemma {:induction false} SharedFindsRepeats(s: seq<Keyed>)
    requires SortedBy(s, ByRoot())
    ensures Shared(s).None? <==> Distinct(Map(PlaceOf(), s))
  {
    hide SortedBy, Distinct;
    if |s| < 2 {
      FewAreDistinct(s);
    } else {
      SortedTail(s, ByRoot());
      SharedFindsRepeats(s[1..]);
      var places, rest := Map(PlaceOf(), s), Map(PlaceOf(), s[1..]);
      assert places == [s[0].0] + rest;
      DistinctTail(places);
      SecondIsLeast(s);
      assert s[0].0 != s[1].0 ==> s[0].0 !in rest;
      assert rest[0] == s[1].0;
    }
  }

  lemma FewAreDistinct(s: seq<Keyed>)
    requires |s| < 2
    ensures Distinct(Map(PlaceOf(), s))
  {
  }

  lemma SecondIsLeast(s: seq<Keyed>)
    requires |s| >= 2 && SortedBy(s, ByRoot())
    ensures s[0].0 <= s[1].0
    ensures forall k | 0 <= k < |Map(PlaceOf(), s[1..])| :: s[1].0 <= Map(PlaceOf(), s[1..])[k]
  {
    assert ByRoot()(s[0]) <= ByRoot()(s[1]);
    forall k | 1 <= k < |s| ensures s[1].0 <= s[k].0 {
      assert k == 1 || ByRoot()(s[1]) <= ByRoot()(s[k]);
    }
  }

  /** Sorting leaves the places as distinct as they were. */
  lemma SharedOfSorted(keyed: seq<Keyed>)
    ensures Shared(Sort(keyed, ByRoot())).None? <==> Distinct(Map(PlaceOf(), keyed))
  {
    hide Shared, Map, Sort, Distinct;
    var sorted := Sort(keyed, ByRoot());
    SortSorts(keyed, ByRoot());
    SortPermutes(keyed, ByRoot());
    SharedFindsRepeats(sorted);
    MapPermutes(PlaceOf(), sorted, keyed);
    DistinctCounts(Map(PlaceOf(), sorted));
    DistinctCounts(Map(PlaceOf(), keyed));
  }

  /** The stream has a header, every other line is a feature whose root and objects the
      document holds, and no two of them share a root. */
  ghost predicate Orderable(doc: seq<string>, lines: seq<Line>) {
    lines != [] &&
    (forall k | 1 <= k < |lines| :: Placeable(doc, lines[k])) &&
    forall j, k | 1 <= j < k < |lines| :: Id(lines[j].value.value) != Id(lines[k].value.value)
  }

  lemma RootsAndPlaces(doc: seq<string>, print_: Value -> string, lines: seq<Line>)
    requires forall k | 0 <= k < |lines| :: Placeable(doc, lines[k])
    ensures Distinct(Map(PlaceOf(), Map(KeyOf(doc, print_), lines))) <==>
      forall j, k | 0 <= j < k < |lines| :: Id(lines[j].value.value) != Id(lines[k].value.value)
  {
    hide Kept, Map, Id, Objects;
    var places := Map(PlaceOf(), Map(KeyOf(doc, print_), lines));
    forall k | 0 <= k < |lines| ensures places[k] == RootPlace(doc, lines[k]) {}
    forall j, k | 0 <= j < k < |lines|
      ensures places[j] == places[k] <==> Id(lines[j].value.value) == Id(lines[k].value.value)
    {
      assert doc[places[j]] == Id(lines[j].value.value).value;
      assert doc[places[k]] == Id(lines[k].value.value).value;
    }
  }

  /** Reordering fails exactly when the stream is empty, a line is no feature, a root or an
      object is missing from the document, or two features share a root. */
  lemma OrderSucceeds(doc: seq<string>, print_: Value -> string, lines: seq<Line>)
    ensures Order(doc, print_, lines).Ok? <==> Orderable(doc, lines)
  {
    hide Placeable, KeyLines, Shared, Map, Sort, Id, Distinct;
    if lines != [] {
      var tail := lines[1..];
      KeyLinesPlacesAll(doc, print_, tail);
      assert forall k | 0 <= k < |tail| :: tail[k] == lines[k + 1];
      assert forall k | 1 <= k < |lines| :: lines[k] == tail[k - 1];
      if KeyLines(doc, print_, tail).Ok? {
        SharedOfSorted(KeyLines(doc, print_, tail).value);
        RootsAndPlaces(doc, print_, tail);
      }
    }
  }

  // ----- how it fails

  /** What is wrong with a line. */
  ghost predicate IsFault(doc: seq<string>, line: Line, e: Error) {
    match e
    case Malformed => line.value.None?
    case NoId => line.value.Some? && Id(line.value.value).None?
    case ObjectNotInDocument(key, id) =>
      && line.value.Some? && Id(line.value.value) == Some(id) && Objects(line.value.value).Some?
      && var objects := Objects(line.value.value).value;
         exists i | 0 <= i < |objects| :: IsFirstMissing(doc, objects, i) && objects[i].0 == key
    case RootNotInDocument(id) =>
      && line.value.Some? && Id(line.value.value) == Some(id) && id !in doc
      && (Objects(line.value.value).Some? ==>
            forall i | 0 <= i < |Objects(line.value.value).value| :: Objects(line.value.value).value[i].0 in doc)
    case Empty => false
    case SharedRoot(_) => false
  }

  lemma ReadFault(doc: seq<string>, print_: Value -> string, line: Line)
    ensures var r := ReadFeature(doc, print_, line);
      && (r.Err? ==> !Placeable(doc, line) && IsFault(doc, line, r.error))
      && (r.Ok? && Position(doc, r.value.0).None? ==>
            !Placeable(doc, line) && IsFault(doc, line, RootNotInDocument(r.value.0)))
      && (r.Ok? && Position(doc, r.value.0).Some? ==> Placeable(doc, line))
  {
    hide Position, InOrder, Arranged, WithObjects, Objects, Id, IsFirstMissing;
    if line.value.Some? && Objects(line.value.value).Some? {
      var objects := Objects(line.value.value).value;
      if Missing(doc, objects).Some? { MissingIsFirst(doc, objects, Missing(doc, objects).value); }
      hide Missing;
    }
  }

  /** The error that is reported is that of the first line with a fault. */
  lemma {:induction false} KeyLinesFail(doc: seq<string>, print_: Value -> string, lines: seq<Line>) returns (k: nat)
    requires KeyLines(doc, print_, lines).Err?
    ensures k < |lines| && IsFault(doc, lines[k], KeyLines(doc, print_, lines).error)
    ensures !Placeable(doc, lines[k]) && forall j | 0 <= j < k :: Placeable(doc, lines[j])
  {
    hide ReadFeature, Position, IsFault, Placeable;
    ReadFault(doc, print_, lines[0]);
    var first := ReadFeature(doc, print_, lines[0]);
    if first.Err? || Position(doc, first.value.0).None? {
      k := 0;
    } else {
      k := KeyLinesFail(doc, print_, lines[1..]);
      assert forall j | 1 <= j < k + 1 :: lines[j] == lines[1..][j - 1];
      k := k + 1;
    }
  }

  /** Every error describes a fault of the stream: it is empty, or the first feature with a fault
      has this one, or no feature has one and two of them have the root at this place. */
  lemma OrderFails(doc: seq<string>, print_: Value -> string, lines: seq<Line>)
    requires Order(doc, print_, lines).Err?
    ensures var e := Order(doc, print_, lines).error;
      match e
      case Empty => lines == []
      case SharedRoot(place) =>
        && (forall k | 1 <= k < |lines| :: Placeable(doc, lines[k]))
        && exists i, j | 1 <= i < j < |lines| ::
          RootPlace(doc, lines[i]) == place && RootPlace(doc, lines[j]) == place
      case _ => exists k | 1 <= k < |lines| ::
        IsFault(doc, lines[k], e) && !Placeable(doc, lines[k]) && forall j | 1 <= j < k :: Placeable(doc, lines[j])
  {
    hide KeyLines, Placeable, RootPlace, IsFault, Shared, Map, Sort;
    if lines != [] {
      var rest := lines[1..];
      assert forall k | 1 <= k < |lines| :: lines[k] == rest[k - 1];
      if KeyLines(doc, print_, rest).Err? {
        var k := KeyLinesFail(doc, print_, rest);
        NoOtherFault(doc, rest[k], KeyLines(doc, print_, rest).error);
        assert lines[k + 1] == rest[k];
      } else {
        KeyLinesPlacesAll(doc, print_, rest);
        assert forall k | 0 <= k < |rest| :: rest[k] == lines[k + 1];
        var i, j := SharedLines(doc, print_, rest);
        assert lines[i + 1] == rest[i] && lines[j + 1] == rest[j];
      }
    }
  }

  lemma NoOtherFault(doc: seq<string>, line: Line, e: Error)
    requires IsFault(doc, line, e)
    ensures !e.Empty? && !e.SharedRoot?
  {
  }

  lemma SharedLines(doc: seq<string>, print_: Value -> string, lines: seq<Line>) returns (i: nat, j: nat)
    requires forall k | 0 <= k < |lines| :: Placeable(doc, lines[k])
    requires Shared(Sort(Map(KeyOf(doc, print_), lines), ByRoot())).Some?
    ensures var place := Shared(Sort(Map(KeyOf(doc, print_), lines), ByRoot())).value;
      i < j < |lines| && RootPlace(doc, lines[i]) == place && RootPlace(doc, lines[j]) == place
  {
    hide Placeable, RootPlace, Kept, Shared, Sort;
    var keyed := Map(KeyOf(doc, print_), lines);
    SortPermutes(keyed, ByRoot());
    i, j := SharedIn(keyed, Sort(keyed, ByRoot()));
  }

  lemma SharedIn(keyed: seq<Keyed>, sorted: seq<Keyed>) returns (i: nat, j: nat)
    requires multiset(sorted) == multiset(keyed) && Shared(sorted).Some?
    ensures i < j < |keyed| && keyed[i].0 == keyed[j].0 == Shared(sorted).value
  {
    var k := SharedAt(sorted);
    MapPermutes(PlaceOf(), sorted, keyed);
    var a, b := Map(PlaceOf(), sorted), Map(PlaceOf(), keyed);
    assert a[k] == a[k + 1] == Shared(sorted).value;
    i, j := TwoAgain(a, b, k);
    assert b[i] == keyed[i].0 && b[j] == keyed[j].0;
  }

  lemma {:induction false} SharedAt(s: seq<Keyed>) returns (k: nat)
    requires Shared(s).Some?
    ensures k + 1 < |s| && s[k].0 == s[k + 1].0 == Shared(s).value
  {
    if s[0].0 == s[1].0 {
      k := 0;
    } else {
      k := SharedAt(s[1..]);
      k := k + 1;
    }
  }

  lemma TwoAgain(s: seq<nat>, t: seq<nat>, k: nat) returns (i: nat, j: nat)
    requires multiset(s) == multiset(t) && k + 1 < |s| && s[k] == s[k + 1]
    ensures i < j < |t| && t[i] == t[j] == s[k]
  {
    assert s == s[..k] + [s[k], s[k + 1]] + s[k + 2..];
    assert multiset(s)[s[k]] >= 2;
    i, j := TwoOf(t, s[k]);
  }

  lemma {:induction false} TwoOf(s: seq<nat>, x: nat) returns (i: nat, j: nat)
    requires multiset(s)[x] >= 2
    ensures i < j < |s| && s[i] == x && s[j] == x
  {
    assert s == [s[0]] + s[1..];
    if s[0] == x {
      assert x in multiset(s[1..]);
      i := 0;
      j :| 0 <= j < |s[1..]| && s[1..][j] == x;
      j := j + 1;
    } else {
      i, j := TwoOf(s[1..], x);
      i, j := i + 1, j + 1;
    }
  }

  // ----- what a line becomes

  /** Different members of an object with distinct keys have different ranks, once the
      document holds them all. */
  lemma RanksDiffer(doc: seq<string>, objects: seq<Member>)
    requires DistinctKeys(objects) && forall i | 0 <= i < |objects| :: objects[i].0 in doc
    ensures forall x, y | x in objects && y in objects && ByPosition(doc)(x) == ByPosition(doc)(y) :: x == y
  {
    forall x, y | x in objects && y in objects && ByPosition(doc)(x) == ByPosition(doc)(y) ensures x == y {
      assert x.0 == doc[Position(doc, x.0).value] == doc[Position(doc, y.0).value] == y.0;
      var i :| 0 <= i < |objects| && objects[i] == x;
      var j :| 0 <= j < |objects| && objects[j] == y;
    }
  }

  lemma {:induction false} InOrderIsSorted(doc: seq<string>, objects: seq<Member>)
    requires InOrder(doc, objects)
    ensures SortedBy(objects, ByPosition(doc))
  {
    if objects != [] {
      var rest := objects[1..];
      assert forall i | 0 <= i < |rest| :: rest[i] == objects[i + 1];
      InOrderIsSorted(doc, rest);
      forall i, j | 0 <= i < j < |objects| ensures Rank(doc, objects[i].0) <= Rank(doc, objects[j].0) {
        if i > 0 {
          assert ByPosition(doc)(rest[i - 1]) <= ByPosition(doc)(rest[j - 1]);
        } else if j > 1 {
          assert ByPosition(doc)(rest[0]) <= ByPosition(doc)(rest[j - 1]);
          assert Rank(doc, objects[0].0) < Rank(doc, objects[0 + 1].0);
        } else {
          assert Rank(doc, objects[0].0) < Rank(doc, objects[0 + 1].0);
        }
      }
    }
  }

  lemma ArrangedIsInOrder(doc: seq<string>, objects: seq<Member>)
    requires DistinctKeys(objects) && forall i | 0 <= i < |objects| :: objects[i].0 in doc
    ensures var a := Arranged(doc, objects);
      InOrder(doc, a) && multiset(a) == multiset(objects) && DistinctKeys(a) &&
      forall i | 0 <= i < |a| :: a[i].0 in doc
    ensures InOrder(doc, objects) ==> Arranged(doc, objects) == objects
  {
    hide Sort, Position, Rank;
    var a := Arranged(doc, objects);
    SortSorts(objects, ByPosition(doc));
    SortPermutes(objects, ByPosition(doc));
    SameMembers(a, objects);
    assert forall i | 0 <= i < |a| :: a[i] in objects;
    RanksDiffer(doc, objects);
    KeysStayDistinct(objects, a);
    if InOrder(doc, objects) {
      InOrderIsSorted(doc, objects);
      SortedIsUnique(a, objects, ByPosition(doc));
    }
    forall i | 0 <= i < |a| - 1 ensures Rank(doc, a[i].0) < Rank(doc, a[i + 1].0) {
      assert ByPosition(doc)(a[i]) <= ByPosition(doc)(a[i + 1]);
      assert a[i].0 != a[i + 1].0;
    }
  }

  lemma KeysStayDistinct(s: seq<Member>, t: seq<Member>)
    requires DistinctKeys(s) && multiset(s) == multiset(t)
    ensures DistinctKeys(t)
  {
    assert |s| == |multiset(s)| == |multiset(t)| == |t|;
    SameMembers(s, t);
    forall i, j | 0 <= i < j < |t| ensures t[i].0 != t[j].0 {
      assert t[i] in s && t[j] in s;
      var k :| 0 <= k < |s| && s[k] == t[i];
      var l :| 0 <= l < |s| && s[l] == t[j];
      if k == l {
        TwiceInMultiset(t, i, j);
        OnceInMultiset(s, k);
        assert false;
      }
    }
  }

  lemma TwiceInMultiset(t: seq<Member>, i: nat, j: nat)
    requires i < j < |t| && t[i] == t[j]
    ensures multiset(t)[t[i]] >= 2
  {
    assert t == t[..i] + [t[i]] + t[i + 1..j] + [t[j]] + t[j + 1..];
  }

  lemma OnceInMultiset(s: seq<Member>, k: nat)
    requires k < |s| && DistinctKeys(s)
    ensures multiset(s)[s[k]] == 1
  {
    var left, right := s[..k], s[k + 1..];
    assert s == left + [s[k]] + right;
    assert s[k] !in left && s[k] !in right;
  }

  lemma {:induction false} PutSame(members: seq<Member>, key: string)
    requires Get(members, key).Some?
    ensures Put(members, key, Get(members, key).value) == members
  {
    if members[0].0 != key { PutSame(members[1..], key); }
  }

  /** A line is kept as it is when its objects are in document order already; any other is
      written anew with the same members, its objects rearranged. Its root stays. */
  lemma KeptIsArranged(doc: seq<string>, print_: Value -> string, line: Line)
    requires Placeable(doc, line)
    requires Objects(line.value.value).Some? ==> DistinctKeys(Objects(line.value.value).value)
    ensures var kept, value := Kept(doc, print_, line), line.value.value;
      Placeable(doc, kept) && RootPlace(doc, kept) == RootPlace(doc, line) &&
      Id(kept.value.value) == Id(value) &&
      (Objects(value).None? ==> kept == line) &&
      (Objects(value).Some? ==>
         var arranged := Arranged(doc, Objects(value).value);
         Objects(kept.value.value) == Some(arranged) && DistinctKeys(arranged) && InOrder(doc, arranged) &&
         multiset(arranged) == multiset(Objects(value).value) &&
         kept.value == Some(WithObjects(value, arranged)) &&
         kept.text == if InOrder(doc, Objects(value).value) then line.text else print_(kept.value.value))
  {
    hide Arranged, Get, Put, Position, Rank, InOrder, DistinctKeys, Id, Missing;
    var value := line.value.value;
    if Objects(value).Some? {
      var objects := Objects(value).value;
      ArrangedIsInOrder(doc, objects);
      WithObjectsHas(value, Arranged(doc, objects));
      PutSame(value.members, CITY_OBJECTS);
    }
  }

  /** The document holds both identifiers, the first of them before the second. */
  predicate StandsBefore(doc: seq<string>, x: string, y: string) {
    var a, b := Position(doc, x), Position(doc, y);
    a.Some? && b.Some? && a.value < b.value
  }

  /** Each object stands in the document behind all that come before it. */
  ghost predicate InDocumentOrder(doc: seq<string>, objects: seq<Member>) {
    forall i, j | 0 <= i < j < |objects| :: StandsBefore(doc, objects[i].0, objects[j].0)
  }

  /** A line whose objects stand in document order stays as it is, and any other is brought into it. */
  lemma OrderedLineStays(doc: seq<string>, print_: Value -> string, line: Line)
    requires Placeable(doc, line) && Objects(line.value.value).Some?
    requires DistinctKeys(Objects(line.value.value).value)
    ensures var kept := Kept(doc, print_, line);
      && (InDocumentOrder(doc, Objects(line.value.value).value) ==> kept == line)
      && kept.value.Some? && Objects(kept.value.value).Some?
      && InDocumentOrder(doc, Objects(kept.value.value).value)
  {
    var objects := Objects(line.value.value).value;
    KeptIsArranged(doc, print_, line);
    if InDocumentOrder(doc, objects) {
      OrderIsInOrder(doc, objects);
      InOrderIsKept(doc, print_, line);
    }
    InOrderIsOrder(doc, Arranged(doc, objects));
    hide InOrder, Arranged, InDocumentOrder, Id, Position;
  }

  lemma OrderIsInOrder(doc: seq<string>, objects: seq<Member>)
    requires InDocumentOrder(doc, objects)
    ensures InOrder(doc, objects)
  {
    forall i | 0 <= i < |objects| - 1 ensures Rank(doc, objects[i].0) < Rank(doc, objects[i + 1].0) {
      var j := i + 1;
      assert StandsBefore(doc, objects[i].0, objects[j].0);
    }
  }

  lemma InOrderIsOrder(doc: seq<string>, objects: seq<Member>)
    requires InOrder(doc, objects) && forall i | 0 <= i < |objects| :: objects[i].0 in doc
    ensures InDocumentOrder(doc, objects)
  {
    hide InOrder, StandsBefore;
    forall i, j | 0 <= i < j < |objects| ensures StandsBefore(doc, objects[i].0, objects[j].0) {
      PlacesOf(doc, objects, i, j);
    }
  }

  lemma {:induction false} PlacesOf(doc: seq<string>, objects: seq<Member>, i: int, j: int)
    requires 0 <= i < j < |objects| && InOrder(doc, objects) && forall k | 0 <= k < |objects| :: objects[k].0 in doc
    ensures StandsBefore(doc, objects[i].0, objects[j].0)
    decreases j - i
  {
    assert Rank(doc, objects[j - 1].0) < Rank(doc, objects[j - 1 + 1].0);
    if i < j - 1 { PlacesOf(doc, objects, i, j - 1); }
  }

  /** What is kept is kept again, byte for byte. */
  lemma KeptAgain(doc: seq<string>, print_: Value -> string, line: Line)
    requires Placeable(doc, line)
    requires Objects(line.value.value).Some? ==> DistinctKeys(Objects(line.value.value).value)
    ensures Placeable(doc, Kept(doc, print_, line))
    ensures KeyOf(doc, print_)(Kept(doc, print_, line)) == KeyOf(doc, print_)(line)
  {
    hide Arranged, Get, Put, Position, Rank, InOrder, DistinctKeys, Id, Objects, WithObjects;
    KeptIsArranged(doc, print_, line);
    var kept := Kept(doc, print_, line);
    assert Objects(kept.value.value).Some? ==> InOrder(doc, Objects(kept.value.value).value);
  }

  // ----- what the stream becomes

  /** Every line's objects have distinct names. */
  ghost predicate Readable(lines: seq<Line>) {
    forall k | 0 <= k < |lines| && lines[k].value.Some? && Objects(lines[k].value.value).Some? ::
      DistinctKeys(Objects(lines[k].value.value).value)
  }

  function Keeping(doc: seq<string>, print_: Value -> string): Line -> Line {
    (line: Line) => if Placeable(doc, line) then Kept(doc, print_, line) else line
  }

  /** The line of this pair has its place, and keeps it. */
  ghost predicate Settled(doc: seq<string>, print_: Value -> string, e: Keyed) {
    Placeable(doc, e.1) && KeyOf(doc, print_)(e.1) == e &&
    (Objects(e.1.value.value).Some? ==> DistinctKeys(Objects(e.1.value.value).value))
  }

  lemma ReadableLine(doc: seq<string>, lines: seq<Line>, k: nat)
    requires Readable(lines) && k < |lines| && Placeable(doc, lines[k])
    ensures Objects(lines[k].value.value).Some? ==> DistinctKeys(Objects(lines[k].value.value).value)
  {
  }

  lemma {:induction false} KeyedAreSettled(doc: seq<string>, print_: Value -> string, lines: seq<Line>)
    requires Readable(lines) && forall k | 0 <= k < |lines| :: Placeable(doc, lines[k])
    ensures forall e | e in Sort(Map(KeyOf(doc, print_), lines), ByRoot()) :: Settled(doc, print_, e)
  {
    hide Sort, Map, Placeable, Kept, Objects, DistinctKeys, RootPlace, Arranged;
    var keyed := Map(KeyOf(doc, print_), lines);
    SortPermutes(keyed, ByRoot());
    SameMembers(Sort(keyed, ByRoot()), keyed);
    forall e | e in keyed ensures Settled(doc, print_, e) {
      var k :| 0 <= k < |lines| && keyed[k] == e;
      assert Placeable(doc, lines[k]);
      ReadableLine(doc, lines, k);
      KeptAgain(doc, print_, lines[k]);
      KeptIsArranged(doc, print_, lines[k]);
    }
  }

  /** The pairs that an orderable stream's lines are sorted by. */
  function SortedKeyed(doc: seq<string>, print_: Value -> string, lines: seq<Line>): seq<Keyed>
    requires lines != []
  {
    Sort(Map(KeyOf(doc, print_), lines[1..]), ByRoot())
  }

  lemma OrderOfOrderable(doc: seq<string>, print_: Value -> string, lines: seq<Line>)
    requires Orderable(doc, lines)
    ensures Order(doc, print_, lines) == Ok([lines[0]] + Map(LineOf(), SortedKeyed(doc, print_, lines)))
    ensures Distinct(Map(PlaceOf(), SortedKeyed(doc, print_, lines)))
  {
    hide Placeable, KeyLines, Shared, Map, Sort, Id, Distinct;
    var tail := lines[1..];
    OrderSucceeds(doc, print_, lines);
    KeyLinesPlacesAll(doc, print_, tail);
    var sorted := SortedKeyed(doc, print_, lines);
    SortSorts(KeyLines(doc, print_, tail).value, ByRoot());
    SharedFindsRepeats(sorted);
  }

  /** Sorted by place, no two alike: strictly ascending. */
  lemma PlacesAscend(keyed: seq<Keyed>)
    requires SortedBy(keyed, ByRoot()) && Distinct(Map(PlaceOf(), keyed))
    ensures forall i, j | 0 <= i < j < |keyed| :: keyed[i].0 < keyed[j].0
  {
    hide Map;
    forall i, j | 0 <= i < j < |keyed| ensures keyed[i].0 < keyed[j].0 {
      assert ByRoot()(keyed[i]) <= ByRoot()(keyed[j]);
      assert Map(PlaceOf(), keyed)[i] != Map(PlaceOf(), keyed)[j];
    }
  }

  lemma {:induction false} LinesOfKeyed(doc: seq<string>, print_: Value -> string, lines: seq<Line>)
    requires forall k | 0 <= k < |lines| :: Placeable(doc, lines[k])
    ensures Map(LineOf(), Map(KeyOf(doc, print_), lines)) == Map(Keeping(doc, print_), lines)
  {
    hide Map, Placeable, Kept, RootPlace;
  }

  /** The header stays first; the other lines are those of the stream, as they are kept, and
      their roots stand in strict document order. */
  lemma OrderedStream(doc: seq<string>, print_: Value -> string, lines: seq<Line>)
    requires Readable(lines) && Orderable(doc, lines)
    ensures var out := Order(doc, print_, lines);
      out.Ok? && |out.value| == |lines| && out.value[0] == lines[0] &&
      multiset(out.value[1..]) == multiset(Map(Keeping(doc, print_), lines[1..])) &&
      (forall k | 1 <= k < |out.value| :: Placeable(doc, out.value[k])) &&
      Readable(out.value[1..]) &&
      forall j, k | 1 <= j < k < |out.value| ::
        RootPlace(doc, out.value[j]) < RootPlace(doc, out.value[k])
  {
    hide Placeable, Map, Sort, Id, Distinct, RootPlace, Kept, Order, SortedBy, Objects, DistinctKeys;
    var tail := lines[1..];
    var keyed := Map(KeyOf(doc, print_), tail);
    var sorted := Sort(keyed, ByRoot());
    OrderOfOrderable(doc, print_, lines);
    SortSorts(keyed, ByRoot());
    SortPermutes(keyed, ByRoot());
    PlacesAscend(sorted);
    KeyedAreSettled(doc, print_, tail);
    MapPermutes(LineOf(), sorted, keyed);
    LinesOfKeyed(doc, print_, tail);
    var out := Order(doc, print_, lines).value;
    assert out[1..] == Map(LineOf(), sorted);
    forall k | 1 <= k < |out|
      ensures out[k] == sorted[k - 1].1 && Settled(doc, print_, sorted[k - 1]) &&
        RootPlace(doc, out[k]) == sorted[k - 1].0
    {
      assert sorted[k - 1] in sorted;
      assert LineOf()(sorted[k - 1]) == out[k];
    }
  }

  /** A second pass changes nothing, not one byte. */
  lemma SecondPassKeepsAll(doc: seq<string>, print_: Value -> string, lines: seq<Line>)
    requires Readable(lines) && Orderable(doc, lines)
    ensures var out := Order(doc, print_, lines); out.Ok? && Order(doc, print_, out.value) == out
  {
    hide Placeable, Map, Sort, Id, Distinct, Order, SortedBy, Settled, KeyLines, Shared;
    var sorted := SortedKeyed(doc, print_, lines);
    OrderOfOrderable(doc, print_, lines);
    KeyedAreSettled(doc, print_, lines[1..]);
    SortSorts(Map(KeyOf(doc, print_), lines[1..]), ByRoot());
    SettledStay(doc, print_, sorted);
    OrderOfSettled(doc, print_, lines[0], sorted);
  }

  lemma SettledStay(doc: seq<string>, print_: Value -> string, sorted: seq<Keyed>)
    requires forall e | e in sorted :: Settled(doc, print_, e)
    ensures Map(KeyOf(doc, print_), Map(LineOf(), sorted)) == sorted
    ensures forall k | 0 <= k < |sorted| :: Placeable(doc, Map(LineOf(), sorted)[k])
  {
    hide Map, Placeable, KeyOf;
    forall k | 0 <= k < |sorted|
      ensures Placeable(doc, Map(LineOf(), sorted)[k]) && KeyOf(doc, print_)(Map(LineOf(), sorted)[k]) == sorted[k]
    {
      assert sorted[k] in sorted;
      assert Map(LineOf(), sorted)[k] == sorted[k].1;
    }
  }

  lemma OrderOfSettled(doc: seq<string>, print_: Value -> string, header: Line, sorted: seq<Keyed>)
    requires SortedBy(sorted, ByRoot()) && Distinct(Map(PlaceOf(), sorted))
    requires Map(KeyOf(doc, print_), Map(LineOf(), sorted)) == sorted
    requires forall k | 0 <= k < |sorted| :: Placeable(doc, Map(LineOf(), sorted)[k])
    ensures Order(doc, print_, [header] + Map(LineOf(), sorted)) == Ok([header] + Map(LineOf(), sorted))
  {
    hide Placeable, Map, Sort, Id, Distinct, SortedBy, KeyLines, Shared;
    var tail := Map(LineOf(), sorted);
    assert ([header] + tail)[1..] == tail;
    KeyLinesPlacesAll(doc, print_, tail);
    SortSorts(sorted, ByRoot());
    SortPermutes(sorted, ByRoot());
    PlacesTellApart(sorted);
    SortedIsUnique(sorted, Sort(sorted, ByRoot()), ByRoot());
    SharedFindsRepeats(sorted);
  }

  lemma PlacesTellApart(keyed: seq<Keyed>)
    requires Distinct(Map(PlaceOf(), keyed))
    ensures forall x, y | x in keyed && y in keyed && ByRoot()(x) == ByRoot()(y) :: x == y
  {
    hide Map;
    forall x, y | x in keyed && y in keyed && ByRoot()(x) == ByRoot()(y) ensures x == y {
      var i :| 0 <= i < |keyed| && keyed[i] == x;
      var j :| 0 <= j < |keyed| && keyed[j] == y;
      assert Map(PlaceOf(), keyed)[i] == Map(PlaceOf(), keyed)[j];
    }
  }

  // ----- the order the lines come in does not matter

  /** The same feature, its objects in any order; the texts may differ. */
  ghost predicate SameFeature(a: Line, b: Line) {
    a.value == b.value ||
    (a.value.Some? && b.value.Some? && Objects(a.value.value).Some? && Objects(b.value.value).Some? &&
     multiset(Objects(a.value.value).value) == multiset(Objects(b.value.value).value) &&
     b.value.value == WithObjects(a.value.value, Objects(b.value.value).value))
  }

  /** `shuffled` holds the lines of `t` in some order, each the same feature as the line of `s` in its place. */
  ghost predicate SameStream(s: seq<Line>, t: seq<Line>, shuffled: seq<Line>) {
    s != [] && t != [] && s[0] == t[0] &&
    multiset(shuffled) == multiset(t[1..]) && |shuffled| == |s| - 1 &&
    forall k | 0 <= k < |shuffled| :: SameFeature(s[k + 1], shuffled[k])
  }

  type Stripped = (nat, Option<Value>)

  /** A pair without the text of its line. */
  function Strip(): Keyed -> Stripped {
    (k: Keyed) => (k.0, k.1.value)
  }

  function ByPlace(): Stripped -> real {
    (k: Stripped) => k.0 as real
  }

  function ValueOf(): Line -> Option<Value> {
    (l: Line) => l.value
  }

  lemma SameFeatureSamePlace(doc: seq<string>, print_: Value -> string, a: Line, b: Line)
    requires SameFeature(a, b)
    requires a.value.Some? && Objects(a.value.value).Some? ==> DistinctKeys(Objects(a.value.value).value)
    requires b.value.Some? && Objects(b.value.value).Some? ==> DistinctKeys(Objects(b.value.value).value)
    ensures Placeable(doc, a) <==> Placeable(doc, b)
    ensures Placeable(doc, a) ==>
      Id(a.value.value) == Id(b.value.value) && Strip()(KeyOf(doc, print_)(a)) == Strip()(KeyOf(doc, print_)(b))
  {
    if a.value.Some? && Objects(a.value.value).Some? {
      var (v, w) := (a.value.value, b.value.value);
      var (o, p) := (Objects(v).value, Objects(w).value);
      SameMembers(o, p);
      PutSame(v.members, CITY_OBJECTS);
      WithObjectsHas(v, p);
      PlaceablePermutes(doc, o, p);
      if Placeable(doc, a) {
        KeptIsArranged(doc, print_, a);
        KeptIsArranged(doc, print_, b);
        ArrangedSame(doc, o, p);
        PutTwice(v.members, CITY_OBJECTS, Object(p), Object(Arranged(doc, p)));
      }
    } else if Placeable(doc, a) {
      KeptIsArranged(doc, print_, a);
      KeptIsArranged(doc, print_, b);
    }
  }

  lemma PlaceablePermutes(doc: seq<string>, o: seq<Member>, p: seq<Member>)
    requires forall x :: x in o <==> x in p
    ensures (forall i | 0 <= i < |o| :: o[i].0 in doc) <==> forall i | 0 <= i < |p| :: p[i].0 in doc
  {
    assert forall i | 0 <= i < |o| :: o[i] in p;
    assert forall i | 0 <= i < |p| :: p[i] in o;
  }

  lemma ArrangedSame(doc: seq<string>, o: seq<Member>, p: seq<Member>)
    requires multiset(o) == multiset(p) && DistinctKeys(o) && forall i | 0 <= i < |o| :: o[i].0 in doc
    ensures Arranged(doc, o) == Arranged(doc, p)
  {
    hide Sort, SortedBy, DistinctKeys;
    var key := ByPosition(doc);
    SortSorts(o, key);
    SortSorts(p, key);
    SortPermutes(o, key);
    SortPermutes(p, key);
    SameMembers(Sort(o, key), o);
    RanksDiffer(doc, o);
    SortedIsUnique(Sort(o, key), Sort(p, key), key);
  }

  /** Both lines have the same place and value, or neither has a place. */
  ghost predicate SamePlace(doc: seq<string>, print_: Value -> string, a: Line, b: Line) {
    (Placeable(doc, a) <==> Placeable(doc, b)) &&
    (Placeable(doc, a) ==> Strip()(KeyOf(doc, print_)(a)) == Strip()(KeyOf(doc, print_)(b)))
  }

  lemma SameStreamPlaces(doc: seq<string>, print_: Value -> string, s: seq<Line>, t: seq<Line>, shuffled: seq<Line>)
    requires SameStream(s, t, shuffled) && Readable(s) && Readable(t)
    ensures forall k | 0 <= k < |shuffled| :: SamePlace(doc, print_, s[k + 1], shuffled[k])
  {
    hide Placeable, KeyOf, SameFeature, DistinctKeys, Objects, Id, Strip;
    SameMembers(shuffled, t[1..]);
    forall k | 0 <= k < |shuffled| ensures SamePlace(doc, print_, s[k + 1], shuffled[k]) {
      assert shuffled[k] in shuffled;
      var j :| 0 <= j < |t[1..]| && t[1..][j] == shuffled[k];
      assert t[j + 1] == shuffled[k];
      SameFeatureSamePlace(doc, print_, s[k + 1], shuffled[k]);
    }
  }

  lemma PlaceablePermuted(doc: seq<string>, s: seq<Line>, t: seq<Line>)
    requires multiset(s) == multiset(t)
    ensures (forall k | 0 <= k < |s| :: Placeable(doc, s[k])) <==> forall k | 0 <= k < |t| :: Placeable(doc, t[k])
  {
    hide Placeable;
    SameMembers(s, t);
    assert forall k | 0 <= k < |s| :: s[k] in t;
    assert forall k | 0 <= k < |t| :: t[k] in s;
  }

  lemma TailPlaceable(doc: seq<string>, lines: seq<Line>)
    requires lines != []
    ensures (forall k | 1 <= k < |lines| :: Placeable(doc, lines[k])) <==>
      forall k | 0 <= k < |lines[1..]| :: Placeable(doc, lines[1..][k])
    ensures (forall k | 1 <= k < |lines| :: Placeable(doc, lines[k])) ==>
      (Orderable(doc, lines) <==>
       forall j, k | 0 <= j < k < |lines[1..]| :: Id(lines[1..][j].value.value) != Id(lines[1..][k].value.value))
  {
    hide Placeable, Id;
    assert forall k | 0 <= k < |lines[1..]| :: lines[1..][k] == lines[k + 1];
    assert forall k | 1 <= k < |lines| :: lines[k] == lines[1..][k - 1];
  }

  /** What the result depends on: the places and the values, in any order. */
  lemma SameStripped(doc: seq<string>, print_: Value -> string, s: seq<Line>, t: seq<Line>, shuffled: seq<Line>)
    requires SameStream(s, t, shuffled) && Readable(s) && Readable(t)
    requires (forall k | 1 <= k < |s| :: Placeable(doc, s[k])) || (forall k | 1 <= k < |t| :: Placeable(doc, t[k]))
    ensures forall k | 1 <= k < |s| :: Placeable(doc, s[k])
    ensures forall k | 1 <= k < |t| :: Placeable(doc, t[k])
    ensures multiset(Map(Strip(), Map(KeyOf(doc, print_), s[1..]))) ==
      multiset(Map(Strip(), Map(KeyOf(doc, print_), t[1..])))
  {
    hide Placeable, KeyOf, SameFeature, Objects, Id, Strip, Map, Readable, Orderable;
    SameStreamPlaces(doc, print_, s, t, shuffled);
    PlaceablePermuted(doc, shuffled, t[1..]);
    TailPlaceable(doc, t);
    TailPlaceable(doc, s);
    assert forall k | 0 <= k < |shuffled| :: s[1..][k] == s[k + 1];
    assert forall k | 0 <= k < |shuffled| :: Placeable(doc, s[k + 1]) <==> Placeable(doc, shuffled[k]);
    MapPermutes(KeyOf(doc, print_), shuffled, t[1..]);
    MapPermutes(Strip(), Map(KeyOf(doc, print_), shuffled), Map(KeyOf(doc, print_), t[1..]));
    var x, y := Map(Strip(), Map(KeyOf(doc, print_), s[1..])), Map(Strip(), Map(KeyOf(doc, print_), shuffled));
    forall k | 0 <= k < |shuffled| ensures x[k] == y[k] {
      assert s[1..][k] == s[k + 1];
    }
    assert x == y;
  }

  function PlaceOfStripped(): Stripped -> nat {
    (k: Stripped) => k.0
  }

  lemma PlacesOfStripped(keyed: seq<Keyed>)
    ensures Map(PlaceOfStripped(), Map(Strip(), keyed)) == Map(PlaceOf(), keyed)
    ensures forall x :: ByPlace()(Strip()(x)) == ByRoot()(x)
  {
    hide Map;
  }

  lemma SameStreamTurned(doc: seq<string>, print_: Value -> string, s: seq<Line>, t: seq<Line>, shuffled: seq<Line>)
    requires SameStream(s, t, shuffled) && Readable(s) && Readable(t)
    requires Orderable(doc, s) || Orderable(doc, t)
    ensures Orderable(doc, s) && Orderable(doc, t)
  {
    hide Placeable, KeyOf, SameFeature, Objects, Id, Strip, Map, Readable, SameStream, Distinct;
    assert s != [] && t != [] by { SameStreamHasHeader(s, t, shuffled); }
    SameStripped(doc, print_, s, t, shuffled);
    TailPlaceable(doc, s);
    TailPlaceable(doc, t);
    var a, b := Map(KeyOf(doc, print_), s[1..]), Map(KeyOf(doc, print_), t[1..]);
    RootsAndPlaces(doc, print_, s[1..]);
    RootsAndPlaces(doc, print_, t[1..]);
    MapPermutes(PlaceOfStripped(), Map(Strip(), a), Map(Strip(), b));
    PlacesOfStripped(a);
    PlacesOfStripped(b);
    DistinctCounts(Map(PlaceOf(), a));
    DistinctCounts(Map(PlaceOf(), b));
  }

  lemma SameStreamHasHeader(s: seq<Line>, t: seq<Line>, shuffled: seq<Line>)
    requires SameStream(s, t, shuffled)
    ensures s != [] && t != [] && s[0] == t[0]
  {
  }

  /** Whatever order the feature lines come in, and the objects within each, the result reads
      the same. */
  lemma PermutedStreamsAgree(doc: seq<string>, print_: Value -> string, s: seq<Line>, t: seq<Line>, shuffled: seq<Line>)
    requires SameStream(s, t, shuffled) && Readable(s) && Readable(t)
    ensures Order(doc, print_, s).Ok? <==> Order(doc, print_, t).Ok?
    ensures Order(doc, print_, s).Ok? ==>
      Map(ValueOf(), Order(doc, print_, s).value) == Map(ValueOf(), Order(doc, print_, t).value)
  {
    hide Placeable, KeyOf, Map, Readable, SameStream, Distinct, Orderable, Order, Sort;
    OrderSucceeds(doc, print_, s);
    OrderSucceeds(doc, print_, t);
    if Orderable(doc, s) || Orderable(doc, t) {
      SameStreamTurned(doc, print_, s, t, shuffled);
      SameStreamHasHeader(s, t, shuffled);
      OrderableHasPlaces(doc, s);
      SameStripped(doc, print_, s, t, shuffled);
      OrderOfOrderable(doc, print_, s);
      OrderOfOrderable(doc, print_, t);
      SortedStripped(doc, print_, s, t);
      ValuesOfSorted(s[0], SortedKeyed(doc, print_, s));
      ValuesOfSorted(t[0], SortedKeyed(doc, print_, t));
    }
  }

  /** The text is what printing the value gives. */
  ghost predicate IsPrinted(print_: Value -> string, line: Line) {
    line.value.Some? && line.text == print_(line.value.value)
  }

  ghost predicate ArePrinted(print_: Value -> string, lines: seq<Line>) {
    forall k | 1 <= k < |lines| :: IsPrinted(print_, lines[k])
  }

  /** Where every feature line is as the library prints it, the results are the same byte for byte,
      whatever order the lines and the objects came in. */
  lemma PermutedStreamsAreIdentical(doc: seq<string>, print_: Value -> string, s: seq<Line>, t: seq<Line>,
      shuffled: seq<Line>)
    requires SameStream(s, t, shuffled) && Readable(s) && Readable(t)
    requires ArePrinted(print_, s) && ArePrinted(print_, t)
    ensures Order(doc, print_, s) == Order(doc, print_, t) || (Order(doc, print_, s).Err? && Order(doc, print_, t).Err?)
  {
    hide Placeable, Map, Readable, SameStream, Orderable, Order, IsPrinted;
    PermutedStreamsAgree(doc, print_, s, t, shuffled);
    OrderSucceeds(doc, print_, s);
    OrderSucceeds(doc, print_, t);
    if Orderable(doc, s) && Orderable(doc, t) {
      SameStreamHasHeader(s, t, shuffled);
      OutputIsPrinted(doc, print_, s);
      OutputIsPrinted(doc, print_, t);
      var x, y := Order(doc, print_, s).value, Order(doc, print_, t).value;
      forall k | 0 <= k < |x| ensures x[k] == y[k] {
        assert ValueOf()(x[k]) == Map(ValueOf(), x)[k] == Map(ValueOf(), y)[k] == ValueOf()(y[k]);
        if k > 0 { SamePrint(print_, x[k], y[k]); }
      }
      assert x == y;
    }
  }

  lemma SamePrint(print_: Value -> string, a: Line, b: Line)
    requires IsPrinted(print_, a) && IsPrinted(print_, b) && a.value == b.value
    ensures a == b
  {
  }

  lemma OutputIsPrinted(doc: seq<string>, print_: Value -> string, lines: seq<Line>)
    requires Readable(lines) && Orderable(doc, lines) && ArePrinted(print_, lines)
    ensures var out := Order(doc, print_, lines);
      out.Ok? && |out.value| == |lines| && out.value[0] == lines[0] && ArePrinted(print_, out.value)
  {
    hide Placeable, Map, Order, RootPlace, Kept, IsPrinted;
    OrderedStream(doc, print_, lines);
    var out, tail := Order(doc, print_, lines).value, lines[1..];
    var kept := Map(Keeping(doc, print_), tail);
    SameMembers(out[1..], kept);
    forall k | 1 <= k < |out| ensures IsPrinted(print_, out[k]) {
      assert out[1..][k - 1] == out[k];
      assert out[k] in out[1..];
      var j :| 0 <= j < |kept| && kept[j] == out[k];
      assert tail[j] == lines[j + 1];
      ReadableLine(doc, lines, j + 1);
      KeptIsPrinted(doc, print_, tail[j]);
    }
  }

  lemma KeptIsPrinted(doc: seq<string>, print_: Value -> string, line: Line)
    requires Placeable(doc, line) && IsPrinted(print_, line)
    requires Objects(line.value.value).Some? ==> DistinctKeys(Objects(line.value.value).value)
    ensures IsPrinted(print_, Kept(doc, print_, line))
  {
    hide Arranged, Position, InOrder, DistinctKeys, Id, Missing, Placeable;
    KeptIsArranged(doc, print_, line);
    if Objects(line.value.value).Some? && InOrder(doc, Objects(line.value.value).value) {
      InOrderIsKept(doc, print_, line);
    }
  }

  lemma InOrderIsKept(doc: seq<string>, print_: Value -> string, line: Line)
    requires Placeable(doc, line) && Objects(line.value.value).Some?
    requires InOrder(doc, Objects(line.value.value).value)
    ensures Kept(doc, print_, line) == line
  {
    hide InOrder, Id, Arranged;
  }

  lemma OrderableHasPlaces(doc: seq<string>, lines: seq<Line>)
    requires Orderable(doc, lines)
    ensures forall k | 1 <= k < |lines| :: Placeable(doc, lines[k])
  {
  }

  lemma SortedStripped(doc: seq<string>, print_: Value -> string, s: seq<Line>, t: seq<Line>)
    requires s != [] && t != []
    requires multiset(Map(Strip(), Map(KeyOf(doc, print_), s[1..]))) ==
      multiset(Map(Strip(), Map(KeyOf(doc, print_), t[1..])))
    requires Distinct(Map(PlaceOf(), SortedKeyed(doc, print_, s)))
    ensures Map(Strip(), SortedKeyed(doc, print_, s)) == Map(Strip(), SortedKeyed(doc, print_, t))
  {
    hide Placeable, KeyOf, Map, Distinct, Sort, SortedBy;
    var a, b := Map(KeyOf(doc, print_), s[1..]), Map(KeyOf(doc, print_), t[1..]);
    var x, y := Map(Strip(), a), Map(Strip(), b);
    PlacesOfStripped(a);
    PlacesOfStripped(Sort(a, ByRoot()));
    SortOfMap(Strip(), a, ByRoot(), ByPlace());
    SortOfMap(Strip(), b, ByRoot(), ByPlace());
    SortSorts(x, ByPlace());
    SortSorts(y, ByPlace());
    SortPermutes(x, ByPlace());
    SortPermutes(y, ByPlace());
    StrippedTellApart(Sort(x, ByPlace()));
    SortedIsUnique(Sort(x, ByPlace()), Sort(y, ByPlace()), ByPlace());
  }

  lemma StrippedTellApart(s: seq<Stripped>)
    requires Distinct(Map(PlaceOfStripped(), s))
    ensures forall x, y | x in s && y in s && ByPlace()(x) == ByPlace()(y) :: x == y
  {
    hide Map;
    forall x, y | x in s && y in s && ByPlace()(x) == ByPlace()(y) ensures x == y {
      var i :| 0 <= i < |s| && s[i] == x;
      var j :| 0 <= j < |s| && s[j] == y;
      assert Map(PlaceOfStripped(), s)[i] == Map(PlaceOfStripped(), s)[j];
    }
  }

  function ValueOfStripped(): Stripped -> Option<Value> {
    (k: Stripped) => k.1
  }

  lemma ValuesOfSorted(header: Line, sorted: seq<Keyed>)
    ensures Map(ValueOf(), [header] + Map(LineOf(), sorted)) ==
      [header.value] + Map(ValueOfStripped(), Map(Strip(), sorted))
  {
    hide Map;
  }

  // ----- the loops themselves

  type Place = (nat, string)

  function ByPlaceNumber(): Place -> real {
    (p: Place) => p.0 as real
  }

  function Placing(doc: seq<string>): Member -> Place {
    (m: Member) => (if Position(doc, m.0).Some? then Position(doc, m.0).value else 0, m.0)
  }

  lemma MissingStep(doc: seq<string>, objects: seq<Member>, i: nat)
    requires i < |objects|
    ensures Missing(doc, objects[i..]) ==
      if objects[i].0 in doc then Missing(doc, objects[i + 1..]) else Some(objects[i].0)
  {
    assert objects[i..][1..] == objects[i + 1..];
  }

  lemma {:induction false} GetDistinct(objects: seq<Member>, m: Member)
    requires DistinctKeys(objects) && m in objects
    ensures Get(objects, m.0) == Some(m.1)
  {
    var k :| 0 <= k < |objects| && objects[k] == m;
    if k > 0 {
      assert objects[1..][k - 1] == m;
      GetDistinct(objects[1..], m);
    }
  }

  predicate Climbs(keyed: seq<Place>) {
    forall i | 0 <= i < |keyed| - 1 :: keyed[i].0 < keyed[i + 1].0
  }

  lemma PlacedInOrder(doc: seq<string>, objects: seq<Member>)
    requires Missing(doc, objects).None?
    ensures InOrder(doc, objects) <==> Climbs(Map(Placing(doc), objects))
  {
    hide Map, Missing;
    var keyed := Map(Placing(doc), objects);
    forall i | 0 <= i < |objects| ensures Rank(doc, objects[i].0) == keyed[i].0 as real {}
    if InOrder(doc, objects) {
      forall i | 0 <= i < |keyed| - 1 ensures keyed[i].0 < keyed[i + 1].0 {
        assert Rank(doc, objects[i].0) < Rank(doc, objects[i + 1].0);
      }
    }
    if Climbs(keyed) {
      forall i | 0 <= i < |objects| - 1 ensures Rank(doc, objects[i].0) < Rank(doc, objects[i + 1].0) {
        assert keyed[i].0 < keyed[i + 1].0;
      }
    }
  }

  lemma PlacedArranged(doc: seq<string>, objects: seq<Member>, i: nat)
    requires i < |Sort(Map(Placing(doc), objects), ByPlaceNumber())| && DistinctKeys(objects)
    ensures |Sort(Map(Placing(doc), objects), ByPlaceNumber())| == |Arranged(doc, objects)|
    ensures var key := Sort(Map(Placing(doc), objects), ByPlaceNumber())[i].1;
      Get(objects, key).Some? && Arranged(doc, objects)[i] == (key, Get(objects, key).value)
  {
    hide Map, Get, DistinctKeys, Sort;
    SortOfMap(Placing(doc), objects, ByPosition(doc), ByPlaceNumber());
    SortPermutes(objects, ByPosition(doc));
    SameMembers(Arranged(doc, objects), objects);
    assert Arranged(doc, objects)[i] in Arranged(doc, objects);
    GetDistinct(objects, Arranged(doc, objects)[i]);
  }

  /** The loop of `feature_id_and_line` that looks up every object. */
  method PlaceObjects(doc: seq<string>, objects: seq<Member>) returns (keyed: seq<Place>, missing: Option<string>)
    ensures missing == Missing(doc, objects)
    ensures missing.None? ==> keyed == Map(Placing(doc), objects)
  {
    hide Missing, Map, Position;
    keyed := [];
    missing := None;
    NothingMissing(doc);
    for i := 0 to |objects|
      invariant |keyed| == i && forall k | 0 <= k < i :: keyed[k] == Placing(doc)(objects[k])
      invariant Missing(doc, objects) == Missing(doc, objects[i..])
    {
      MissingStep(doc, objects, i);
      var place := Position(doc, objects[i].0);
      if place.None? {
        missing := Some(objects[i].0);
        return;
      }
      keyed := keyed + [(place.value, objects[i].0)];
    }
    assert objects[|objects|..] == [];
    assert keyed == Map(Placing(doc), objects);
  }

  lemma NothingMissing(doc: seq<string>)
    ensures Missing(doc, []) == None
  {
  }

  /** `feature_id_and_line`: looks up the objects, and rebuilds the object map if they are out of order. */
  method FeatureIdAndLine(doc: seq<string>, print_: Value -> string, line: Line) returns (r: Outcome<(string, Line)>)
    requires line.value.Some? && Objects(line.value.value).Some? ==> DistinctKeys(Objects(line.value.value).value)
    ensures r == ReadFeature(doc, print_, line)
  {
    hide Map, Sort, Missing, Get, Put, Position, InOrder, DistinctKeys, Climbs;
    if line.value.None? {
      return Err(Malformed);
    }
    var value := line.value.value;
    var id := Id(value);
    if id.None? {
      return Err(NoId);
    }
    if Objects(value).None? {
      return Ok((id.value, line));
    }
    var objects := Objects(value).value;
    var keyed, missing := PlaceObjects(doc, objects);
    if missing.Some? {
      return Err(ObjectNotInDocument(missing.value, id.value));
    }
    PlacedInOrder(doc, objects);
    if Climbs(keyed) {
      return Ok((id.value, line));
    }
    var ordered := Rebuild(doc, objects, keyed);
    var arranged := WithObjects(value, ordered);
    r := Ok((id.value, Line(print_(arranged), Some(arranged))));
  }

  /** Moves the objects into a new map, in the order of their places. */
  method Rebuild(doc: seq<string>, objects: seq<Member>, keyed: seq<Place>) returns (ordered: seq<Member>)
    requires keyed == Map(Placing(doc), objects) && DistinctKeys(objects)
    ensures ordered == Arranged(doc, objects)
  {
    hide Map, Sort, Get, DistinctKeys, Arranged;
    var sorted := Sort(keyed, ByPlaceNumber());
    SortOfMap(Placing(doc), objects, ByPosition(doc), ByPlaceNumber());
    assert |sorted| == |Arranged(doc, objects)| by { hide *; SortedPlacesCount(doc, objects); }
    ordered := [];
    for i := 0 to |sorted|
      invariant |ordered| == i && forall k | 0 <= k < i :: ordered[k] == Arranged(doc, objects)[k]
    {
      PlacedArranged(doc, objects, i);
      ordered := ordered + [(sorted[i].1, Get(objects, sorted[i].1).value)];
    }
  }

  lemma SortedPlacesCount(doc: seq<string>, objects: seq<Member>)
    ensures |Sort(Map(Placing(doc), objects), ByPlaceNumber())| == |Arranged(doc, objects)|
  {
    SortPermutes(Map(Placing(doc), objects), ByPlaceNumber());
    SortPermutes(objects, ByPosition(doc));
  }

  /** What is still to be keyed, after `keyed`. */
  ghost function Onwards(doc: seq<string>, print_: Value -> string, keyed: seq<Keyed>,
      lines: seq<Line>): Outcome<seq<Keyed>> {
    var rest := KeyLines(doc, print_, lines);
    if rest.Err? then rest else Ok(keyed + rest.value)
  }

  lemma OnwardsSteps(doc: seq<string>, print_: Value -> string, keyed: seq<Keyed>, lines: seq<Line>)
    requires lines != []
    ensures var first := ReadFeature(doc, print_, lines[0]);
      Onwards(doc, print_, keyed, lines) ==
        if first.Err? then Err(first.error)
        else if Position(doc, first.value.0).None? then Err(RootNotInDocument(first.value.0))
        else Onwards(doc, print_, keyed + [(Position(doc, first.value.0).value, first.value.1)], lines[1..])
  {
    hide ReadFeature, Position;
    var first := ReadFeature(doc, print_, lines[0]);
    var rest := KeyLines(doc, print_, lines[1..]);
    if first.Ok? && Position(doc, first.value.0).Some? && rest.Ok? {
      var e := (Position(doc, first.value.0).value, first.value.1);
      assert keyed + ([e] + rest.value) == keyed + [e] + rest.value;
    }
  }

  lemma OnwardsEnds(doc: seq<string>, print_: Value -> string, keyed: seq<Keyed>, lines: seq<Line>)
    ensures Onwards(doc, print_, [], lines) == KeyLines(doc, print_, lines)
    ensures Onwards(doc, print_, keyed, []) == Ok(keyed)
  {
    if KeyLines(doc, print_, lines).Ok? {
      assert [] + KeyLines(doc, print_, lines).value == KeyLines(doc, print_, lines).value;
    }
    assert keyed + [] == keyed;
  }

  lemma SharedStep(keyed: seq<Keyed>, i: nat)
    requires i + 1 < |keyed|
    ensures Shared(keyed[i..]) == if keyed[i].0 == keyed[i + 1].0 then Some(keyed[i].0) else Shared(keyed[i + 1..])
  {
    assert keyed[i..][1..] == keyed[i + 1..];
  }

  /** `order_seq_lines`. */
  method OrderSeqLines(doc: seq<string>, print_: Value -> string, lines: seq<Line>) returns (r: Outcome<seq<Line>>)
    requires Readable(lines)
    ensures r == Order(doc, print_, lines)
  {
    hide KeyLines, Onwards, Shared, Sort, Map, ReadFeature, Position, Objects, DistinctKeys, ByRoot, LineOf;
    if lines == [] {
      return Err(Empty);
    }
    ghost var tail := lines[1..];
    var keyed: seq<Keyed> := [];
    OnwardsEnds(doc, print_, [], tail);
    for i := 1 to |lines|
      invariant KeyLines(doc, print_, tail) == Onwards(doc, print_, keyed, lines[i..])
    {
      OnwardsSteps(doc, print_, keyed, lines[i..]);
      assert lines[i..][0] == lines[i] && lines[i..][1..] == lines[i + 1..];
      var feature := FeatureIdAndLine(doc, print_, lines[i]);
      if feature.Err? {
        return Err(feature.error);
      }
      var place := Position(doc, feature.value.0);
      if place.None? {
        return Err(RootNotInDocument(feature.value.0));
      }
      keyed := keyed + [(place.value, feature.value.1)];
    }
    assert lines[|lines|..] == [];
    OnwardsEnds(doc, print_, keyed, []);
    keyed := Sort(keyed, ByRoot());
    var shared := FindShared(keyed);
    if shared.Some? {
      return Err(SharedRoot(shared.value));
    }
    var out := [lines[0]];
    for i := 0 to |keyed|
      invariant out == [lines[0]] + Map(LineOf(), keyed[..i])
    {
      LinesStep(keyed, i);
      out := out + [keyed[i].1];
    }
    assert keyed[..|keyed|] == keyed;
    r := Ok(out);
  }

  lemma LinesStep(keyed: seq<Keyed>, i: nat)
    requires i < |keyed|
    ensures Map(LineOf(), []) == []
    ensures Map(LineOf(), keyed[..i + 1]) == Map(LineOf(), keyed[..i]) + [keyed[i].1]
  {
    assert keyed[..i + 1] == keyed[..i] + [keyed[i]];
    MapAppends(LineOf(), keyed[..i], [keyed[i]]);
  }

  /** Looks for two neighbours that share their place. */
  method FindShared(keyed: seq<Keyed>) returns (r: Option<nat>)
    ensures r == Shared(keyed)
  {
    hide Shared;
    SharedInFew(keyed);
    assert keyed[0..] == keyed;
    var i := 0;
    while i + 1 < |keyed|
      invariant i == 0 || i < |keyed|
      invariant Shared(keyed) == Shared(keyed[i..])
    {
      SharedStep(keyed, i);
      if keyed[i].0 == keyed[i + 1].0 {
        return Some(keyed[i].0);
      }
      i := i + 1;
    }
    r := None;
  }

  lemma SharedInFew(keyed: seq<Keyed>)
    ensures forall i | 0 <= i <= |keyed| <= i + 1 :: Shared(keyed[i..]) == None
  {
  }
}
