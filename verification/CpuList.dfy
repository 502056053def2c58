/** Kernel CPU lists such as `0-31,64-95`, and the pinning that is made of them:
    benchmark/readbench/src/isolation.rs. */
module CpuList {
  import opened Options
  import opened Decimal
  import opened Sequences
  import opened Sorting
  import Text

  const U32: nat := 0x1_0000_0000

  function AsReal(n: nat): real { n as real }

  // ----- reading a list

  /** The numbers from `a` to `b`. */
  function Span(a: nat, b: nat): seq<nat>
    requires a <= b
  {
    seq(b - a + 1, i requires 0 <= i <= b - a => a + i)
  }

  /** One part of a list: a number, or an ascending range. */
  function ParsePart(part: string): Option<seq<nat>> {
    match Text.SplitOnce(part, '-')
    case None =>
      var n := ParseBelow(Text.Trim(part), U32);
      if n.None? then None else Some([n.value])
    case Some((a, b)) =>
      var first, last := ParseBelow(Text.Trim(a), U32), ParseBelow(Text.Trim(b), U32);
      if first.None? || last.None? || first.value > last.value then None else Some(Span(first.value, last.value))
  }

  function ParseParts(parts: seq<string>): Option<seq<nat>> {
    if parts == [] then Some([])
    else if parts[0] == "" then ParseParts(parts[1..])
    else
      var first, rest := ParsePart(parts[0]), ParseParts(parts[1..]);
      if first.None? || rest.None? then None else Some(first.value + rest.value)
  }

  /** `parse_cpulist`; `None` stands for its errors. */
  function Parse(s: string): Option<seq<nat>> {
    match ParseParts(Text.SplitAll(Text.Trim(s), ','))
    case None => None
    case Some(cpus) => Some(Dedup(Sort(cpus, AsReal)))
  }

  /** What is still to be read, after `cpus`. */
  ghost function Onwards(cpus: seq<nat>, parts: seq<string>): Option<seq<nat>> {
    var rest := ParseParts(parts);
    if rest.None? then None else Some(cpus + rest.value)
  }

  lemma OnwardsSteps(cpus: seq<nat>, parts: seq<string>)
    requires parts != []
    ensures var part := ParsePart(parts[0]);
      Onwards(cpus, parts) ==
        if parts[0] == "" then Onwards(cpus, parts[1..])
        else if part.None? then None
        else Onwards(cpus + part.value, parts[1..])
  {
    hide ParsePart;
    var part, rest := ParsePart(parts[0]), ParseParts(parts[1..]);
    if parts[0] != "" && part.Some? && rest.Some? {
      assert cpus + (part.value + rest.value) == cpus + part.value + rest.value;
    }
  }

  /** The loop of `parse_cpulist`. */
  method ParseCpuList(s: string) returns (r: Option<seq<nat>>)
    ensures r == Parse(s)
  {
    hide Text.Trim, Text.SplitAll, ParsePart, Sort, Dedup, ParseParts, Onwards;
    var parts := Text.SplitAll(Text.Trim(s), ',');
    var cpus: seq<nat> := [];
    OnwardsAtFirst(parts);
    assert parts[0..] == parts;
    var i := 0;
    while i < |parts|
      invariant 0 <= i <= |parts|
      invariant ParseParts(parts) == Onwards(cpus, parts[i..])
    {
      OnwardsSteps(cpus, parts[i..]);
      assert parts[i..][0] == parts[i] && parts[i..][1..] == parts[i + 1..];
      if parts[i] != "" {
        var part := ParsePart(parts[i]);
        if part.None? {
          return None;
        }
        cpus := cpus + part.value;
      }
      i := i + 1;
    }
    assert parts[i..] == [];
    OnwardsAtLast(cpus);
    r := Some(Dedup(Sort(cpus, AsReal)));
  }

  lemma OnwardsAtFirst(parts: seq<string>)
    ensures Onwards([], parts) == ParseParts(parts)
  {
    hide ParsePart;
    if ParseParts(parts).Some? { assert [] + ParseParts(parts).value == ParseParts(parts).value; }
  }

  lemma OnwardsAtLast(cpus: seq<nat>)
    ensures Onwards(cpus, []) == Some(cpus)
  {
    assert cpus + [] == cpus;
  }

  // ----- printing one

  /** How many of the first numbers follow each other without a gap. */
  function RunLength(cpus: seq<nat>): (n: nat)
    requires cpus != []
    ensures 0 < n <= |cpus|
  {
    if |cpus| > 1 && cpus[1] == cpus[0] + 1 then 1 + RunLength(cpus[1..]) else 1
  }

  function ShowRun(first: nat, n: nat): string
    requires n > 0
  {
    if n == 1 then Show(first) else Show(first) + ("-" + Show(first + n - 1))
  }

  function Parts(cpus: seq<nat>): seq<string> {
    if cpus == [] then []
    else
      var n := RunLength(cpus);
      [ShowRun(cpus[0], n)] + Parts(cpus[n..])
  }

  /** `format_cpulist`. */
  function Format(cpus: seq<nat>): string {
    Text.Join(Parts(cpus), ",")
  }

  lemma {:induction false} RunIsSpan(cpus: seq<nat>)
    requires cpus != []
    ensures var n := RunLength(cpus); cpus[..n] == Span(cpus[0], cpus[0] + n - 1)
    ensures var n := RunLength(cpus); n < |cpus| ==> cpus[n] != cpus[n - 1] + 1
  {
    if |cpus| > 1 && cpus[1] == cpus[0] + 1 {
      var n := RunLength(cpus[1..]);
      RunIsSpan(cpus[1..]);
      assert cpus[..n + 1] == [cpus[0]] + cpus[1..][..n];
    }
  }

  /** The loops of `format_cpulist`. */
  method FormatCpuList(cpus: seq<nat>) returns (s: string)
    ensures s == Format(cpus)
  {
    hide Show, RunLength, Parts, Text.Join;
    var out: seq<string> := [];
    var i := 0;
    assert cpus[0..] == cpus && [] + Parts(cpus) == Parts(cpus);
    while i < |cpus|
      invariant 0 <= i <= |cpus|
      invariant out + Parts(cpus[i..]) == Parts(cpus)
    {
      var start := cpus[i];
      var end := start;
      ghost var from := i;
      ghost var n := RunLength(cpus[from..]);
      while i + 1 < |cpus| && cpus[i + 1] == end + 1
        invariant from <= i < |cpus| && end == cpus[i] == start + (i - from)
        invariant n == (i - from) + RunLength(cpus[i..])
        decreases |cpus| - i
      {
        RunStep(cpus, i);
        i := i + 1;
        end := cpus[i];
      }
      RunStep(cpus, i);
      var part := if start == end then Show(start) else Show(start) + ("-" + Show(end));
      i := i + 1;
      PartsSteps(cpus, from);
      assert out + ([part] + Parts(cpus[i..])) == out + [part] + Parts(cpus[i..]);
      out := out + [part];
    }
    NoPartsLeft(cpus, out);
    s := Text.Join(out, ",");
  }

  lemma NoPartsLeft(cpus: seq<nat>, out: seq<string>)
    ensures out + Parts(cpus[|cpus|..]) == out
  {
  }

  lemma PartsSteps(cpus: seq<nat>, i: nat)
    requires i < |cpus|
    ensures var n := RunLength(cpus[i..]);
      i + n <= |cpus| && Parts(cpus[i..]) == [ShowRun(cpus[i], n)] + Parts(cpus[i + n..])
  {
    hide RunLength, ShowRun;
    var n := RunLength(cpus[i..]);
    assert cpus[i..][n..] == cpus[i + n..];
  }

  lemma RunStep(cpus: seq<nat>, i: nat)
    requires i < |cpus|
    ensures RunLength(cpus[i..]) ==
      if i + 1 < |cpus| && cpus[i + 1] == cpus[i] + 1 then 1 + RunLength(cpus[i + 1..]) else 1
  {
    assert cpus[i..][1..] == cpus[i + 1..];
  }

  // ----- the round trip

  lemma ParseOfRun(first: nat, n: nat)
    requires n > 0 && first + n - 1 < U32
    ensures ParsePart(ShowRun(first, n)) == Some(Span(first, first + n - 1))
    ensures ShowRun(first, n) != "" && ',' !in ShowRun(first, n)
    ensures forall i | 0 <= i < |ShowRun(first, n)| :: !Text.IsSpace(ShowRun(first, n)[i])
  {
    hide Text.Trim, Text.SplitOnce, ParseBelow, Show;
    var a, b := Show(first), Show(first + n - 1);
    DigitsStandAlone(a);
    DigitsStandAlone(b);
    ParseOfShow(first, U32);
    ParseOfShow(first + n - 1, U32);
    Text.SplitNowhere(a, '-');
    Text.SplitAtFirst(a, '-', b);
    assert Span(first, first) == [first];
  }

  /** The parts stand between commas and hold neither a comma nor white space. */
  ghost predicate Separable(parts: seq<string>) {
    forall k | 0 <= k < |parts| ::
      parts[k] != "" && ',' !in parts[k] && forall i | 0 <= i < |parts[k]| :: !Text.IsSpace(parts[k][i])
  }

  lemma SeparableCons(part: string, parts: seq<string>)
    requires part != "" && ',' !in part && forall i | 0 <= i < |part| :: !Text.IsSpace(part[i])
    requires Separable(parts)
    ensures Separable([part] + parts)
  {
  }

  lemma ParsePartsCons(part: string, parts: seq<string>)
    requires part != ""
    ensures ParsePart(part).Some? && ParseParts(parts).Some? ==>
      ParseParts([part] + parts) == Some(ParsePart(part).value + ParseParts(parts).value)
  {
    hide ParsePart;
    assert ([part] + parts)[1..] == parts;
  }

  /** Reading the printed parts gives the numbers, in order. */
  lemma {:induction false} ParseOfParts(cpus: seq<nat>)
    requires forall i | 0 <= i < |cpus| :: cpus[i] < U32
    ensures ParseParts(Parts(cpus)) == Some(cpus) && Separable(Parts(cpus))
    decreases |cpus|
  {
    hide ParsePart, ShowRun, Span, ParseParts, Separable, RunLength;
    if cpus == [] {
      NothingParsed();
    } else {
      var n := RunLength(cpus);
      RunIsSpan(cpus);
      SpanAt(cpus[0], n);
      assert cpus[..n][n - 1] == cpus[n - 1];
      ParseOfRun(cpus[0], n);
      ParseOfParts(cpus[n..]);
      ParsePartsCons(ShowRun(cpus[0], n), Parts(cpus[n..]));
      SeparableCons(ShowRun(cpus[0], n), Parts(cpus[n..]));
      assert cpus == cpus[..n] + cpus[n..];
    }
  }

  lemma NothingParsed()
    ensures ParseParts([]) == Some([]) && Separable([])
  {
  }

  lemma SpanAt(first: nat, n: nat)
    requires n > 0
    ensures Span(first, first + n - 1)[n - 1] == first + n - 1
  {
  }

  lemma AscendingIsSorted(cpus: seq<nat>)
    requires Ascending(cpus)
    ensures Dedup(Sort(cpus, AsReal)) == cpus
  {
    assert SortedBy(cpus, AsReal);
    SortSorts(cpus, AsReal);
    SortPermutes(cpus, AsReal);
    SameMembers(Sort(cpus, AsReal), cpus);
    SortedIsUnique(Sort(cpus, AsReal), cpus, AsReal);
    DedupOfAscending(cpus);
  }

  lemma {:induction false} DedupOfAscending(cpus: seq<nat>)
    requires Ascending(cpus)
    ensures Dedup(cpus) == cpus
  {
    if |cpus| > 1 {
      assert forall i, j | 0 <= i < j < |cpus[1..]| :: cpus[1..][i] == cpus[1 + i] && cpus[1..][j] == cpus[1 + j];
      DedupOfAscending(cpus[1..]);
    }
  }

  lemma {:induction false} JoinHasNoSpaces(parts: seq<string>)
    requires Separable(parts)
    ensures forall i | 0 <= i < |Text.Join(parts, ",")| :: !Text.IsSpace(Text.Join(parts, ",")[i])
  {
    if |parts| > 1 {
      assert forall k | 0 <= k < |parts[1..]| :: parts[1..][k] == parts[k + 1];
      JoinHasNoSpaces(parts[1..]);
    }
  }

  /** Parsing the printed form of any list returns its numbers, sorted and without repetition;
      of a strictly ascending one, the list itself. */
  lemma ParseOfFormat(cpus: seq<nat>)
    requires forall i | 0 <= i < |cpus| :: cpus[i] < U32
    ensures Parse(Format(cpus)) == Some(Dedup(Sort(cpus, AsReal)))
    ensures Ascending(cpus) ==> Parse(Format(cpus)) == Some(cpus)
  {
    hide Text.Trim, Text.SplitAll, ParseParts, Sort, Dedup, Text.Join;
    var parts := Parts(cpus);
    ParseOfParts(cpus);
    JoinHasNoSpaces(parts);
    var s := Format(cpus);
    assert "" + s + "" == s;
    Text.TrimFinds("", s, "");
    if Ascending(cpus) { AscendingIsSorted(cpus); }
    if cpus == [] {
      NothingToParse();
    } else {
      Text.SplitOfJoin(parts, ',');
    }
  }

  lemma NothingToParse()
    ensures Format([]) == "" && ParseParts(Text.SplitAll("", ',')) == Some([])
  {
  }

  /** Whatever is parsed comes out strictly ascending, so printing and parsing it again returns it. */
  lemma ParsedIsAscending(s: string)
    requires Parse(s).Some?
    ensures Ascending(Parse(s).value)
  {
    var cpus := ParseParts(Text.SplitAll(Text.Trim(s), ',')).value;
    SortSorts(cpus, AsReal);
    hide Text.Trim, Text.SplitAll, ParseParts, Sort;
    DedupAscends(Sort(cpus, AsReal), AsReal);
    var d := Dedup(Sort(cpus, AsReal));
    forall i, j | 0 <= i < j < |d| ensures d[i] < d[j] { assert AsReal(d[i]) < AsReal(d[j]); }
  }

  // ----- what is read of any text

  /** The text parses when each of its parts between commas is empty or parses, and its numbers are
      those of its parts. */
  lemma {:induction false} ParsedAre(parts: seq<string>)
    ensures ParseParts(parts).Some? <==> forall k | 0 <= k < |parts| :: parts[k] == "" || ParsePart(parts[k]).Some?
    ensures ParseParts(parts).Some? ==> forall c :: c in ParseParts(parts).value <==>
      exists k | 0 <= k < |parts| :: parts[k] != "" && ParsePart(parts[k]).Some? && c in ParsePart(parts[k]).value
  {
    hide ParsePart;
    if parts != [] {
      var rest := parts[1..];
      ParsedAre(rest);
      assert forall k | 1 <= k < |parts| :: parts[k] == rest[k - 1];
      assert forall k | 0 <= k < |rest| :: rest[k] == parts[k + 1];
    }
  }

  /** What is parsed of a text between commas. */
  lemma ParsedHolds(s: string, parts: seq<string>)
    requires parts == Text.SplitAll(Text.Trim(s), ',')
    ensures var r := Parse(s);
      && (r.Some? <==> forall k | 0 <= k < |parts| :: parts[k] == "" || ParsePart(parts[k]).Some?)
      && (r.Some? ==> forall c :: c in r.value <==>
        exists k | 0 <= k < |parts| :: parts[k] != "" && ParsePart(parts[k]).Some? && c in ParsePart(parts[k]).value)
  {
    hide ParsePart, Text.Trim, Text.SplitAll, ParseParts, Sort, Dedup;
    ParsedAre(parts);
    if ParseParts(parts).Some? {
      var cpus := ParseParts(parts).value;
      DedupKeepsMembers(Sort(cpus, AsReal));
      SortPermutes(cpus, AsReal);
      SameMembers(Sort(cpus, AsReal), cpus);
    }
  }

  /** A part without a dash is a numeral below 2^32, spaces around it aside, or an error. */
  lemma SinglePart(part: string, n: nat)
    requires '-' !in part
    ensures ParsePart(part) == Some([n]) <==> Denotes(Text.Trim(part), n) && n < 4294967296
    ensures ParsePart(part).Some? ==> |ParsePart(part).value| == 1
  {
    Text.SplitNowhere(part, '-');
    ParseBelowIs(Text.Trim(part), U32, n);
    hide Text.Trim, ParseBelow, Denotes;
  }

  /** Any other part names a first and a last number, spaces around both aside, and stands for all from
      one to the other; it is an error when one is no numeral below 2^32, or the first is the larger. */
  lemma RangePart(a: string, b: string, first: nat, last: nat)
    requires '-' !in a
    ensures var part := ParsePart(a + ("-" + b));
      && (Denotes(Text.Trim(a), first) && Denotes(Text.Trim(b), last) ==>
            (part.Some? <==> first <= last < 4294967296)
            && (part.Some? ==> forall c :: c in part.value <==> first <= c <= last))
      && (part.Some? ==> exists m, n :: Denotes(Text.Trim(a), m) && Denotes(Text.Trim(b), n))
  {
    Text.SplitAtFirst(a, '-', b);
    var x, y := Text.Trim(a), Text.Trim(b);
    ParseBelowIs(x, U32, first);
    ParseBelowIs(y, U32, last);
    var m, n := ParseBelow(x, U32), ParseBelow(y, U32);
    if m.Some? && n.Some? {
      ParseBelowIs(x, U32, m.value);
      ParseBelowIs(y, U32, n.value);
      if m.value <= n.value { SpanHolds(m.value, n.value); }
    }
    if Denotes(x, first) && m.Some? { DenotesOne(x, first, m.value); }
    if Denotes(y, last) && n.Some? { DenotesOne(y, last, n.value); }
    hide Text.Trim, ParseBelow, Denotes, Span;
  }

  lemma DenotesOne(s: string, m: nat, n: nat)
    requires Denotes(s, m) && Denotes(s, n)
    ensures m == n
  {
    ParseBelowIs(s, m + n + 1, m);
    ParseBelowIs(s, m + n + 1, n);
    hide Denotes, ParseBelow;
  }

  lemma SpanHolds(a: nat, b: nat)
    requires a <= b
    ensures forall c :: c in Span(a, b) <==> a <= c <= b
  {
    forall c | a <= c <= b ensures c in Span(a, b) { assert Span(a, b)[c - a] == c; }
  }

  // ----- what is printed

  /** Number `i` does not follow the one before it. */
  predicate BeginsRun(cpus: seq<nat>, i: nat) {
    i < |cpus| && (i == 0 || cpus[i] != cpus[i - 1] + 1)
  }

  /** The positions at which a run of numbers that follow each other begins. */
  ghost function Starts(cpus: seq<nat>): set<nat> {
    set i: nat | i < |cpus| && BeginsRun(cpus, i)
  }

  /** As many parts are printed as there are runs. */
  lemma {:induction false} OnePartPerRun(cpus: seq<nat>)
    ensures |Parts(cpus)| == |Starts(cpus)|
    decreases |cpus|
  {
    if cpus != [] {
      var n := RunLength(cpus);
      OnePartPerRun(cpus[n..]);
      StartsMove(cpus, n);
      hide RunLength, ShowRun, Starts;
    }
  }

  ghost function Moved(a: set<nat>, n: nat): set<nat> {
    set i | i in a :: i + n
  }

  lemma {:induction false} MovedCount(a: set<nat>, n: nat)
    ensures |Moved(a, n)| == |a|
  {
    if a != {} {
      var i :| i in a;
      MovedCount(a - {i}, n);
      MovedMore(a, i, n);
    }
  }

  lemma MovedMore(a: set<nat>, i: nat, n: nat)
    requires i in a
    ensures Moved(a, n) == Moved(a - {i}, n) + {i + n} && i + n !in Moved(a - {i}, n)
  {
    forall x | x in Moved(a, n) ensures x in Moved(a - {i}, n) + {i + n} {
      var j :| j in a && x == j + n;
      assert j == i || j in a - {i};
    }
    assert i + n in Moved(a, n);
  }

  lemma BeginsLater(cpus: seq<nat>, n: nat, i: nat)
    requires n <= i && 0 < n <= |cpus| && (n < |cpus| ==> cpus[n] != cpus[n - 1] + 1)
    ensures BeginsRun(cpus, i) <==> BeginsRun(cpus[n..], i - n)
  {
  }

  lemma BeginsOnce(cpus: seq<nat>, n: nat, i: nat)
    requires i < n <= |cpus| && cpus[..n] == Span(cpus[0], cpus[0] + n - 1)
    ensures BeginsRun(cpus, i) <==> i == 0
  {
    assert cpus[i] == cpus[..n][i] == cpus[0] + i;
    if i > 0 { assert cpus[i - 1] == cpus[..n][i - 1] == cpus[0] + (i - 1); }
  }

  lemma InMoved(a: set<nat>, n: nat, i: nat)
    ensures i in Moved(a, n) <==> i >= n && i - n in a
  {
    if i >= n && i - n in a { assert i == (i - n) + n; }
  }

  lemma InStarts(cpus: seq<nat>, i: nat)
    ensures i in Starts(cpus) <==> BeginsRun(cpus, i)
  {
  }

  lemma StartsMove(cpus: seq<nat>, n: nat)
    requires cpus != [] && n == RunLength(cpus)
    ensures |Starts(cpus)| == 1 + |Starts(cpus[n..])|
  {
    RunIsSpan(cpus);
    hide RunLength, BeginsRun, Span, Starts, Moved;
    var all, rest := Starts(cpus), Starts(cpus[n..]);
    var moved := Moved(rest, n);
    MovedCount(rest, n);
    InMoved(rest, n, 0);
    forall i: nat ensures i in all <==> i in {0 as nat} + moved {
      InStarts(cpus, i);
      InMoved(rest, n, i);
      if i >= n {
        BeginsLater(cpus, n, i);
        InStarts(cpus[n..], i - n);
      } else {
        BeginsOnce(cpus, n, i);
      }
    }
    assert all == {0} + moved;
  }

  /** Each part is a number alone, or the first and the last of more. */
  lemma {:induction false} PartIs(cpus: seq<nat>, k: nat)
    requires k < |Parts(cpus)|
    ensures exists a: nat, b: nat | a <= b :: Parts(cpus)[k] == if a == b then Show(a) else Show(a) + "-" + Show(b)
    decreases |cpus|
  {
    hide Show;
    var n := RunLength(cpus);
    if k == 0 {
      var a, b := cpus[0], cpus[0] + n - 1;
      assert Show(a) + ("-" + Show(b)) == Show(a) + "-" + Show(b);
      assert Parts(cpus)[0] == if a == b then Show(a) else Show(a) + "-" + Show(b);
    } else {
      PartIs(cpus[n..], k - 1);
    }
  }
}
