/** The identifier probes of benchmark/readbench/src/params.rs: `id_probes`, `miss_id`
    and `stats_resistant_miss`. */
module IdProbes {
  import opened Options
  import opened Decimal
  import opened Numbers
  import opened Sequences

  // ----- an identifier that is not taken

  /** The identifiers `miss_id` tries, in order: the first has no suffix, the next `-2`, `-3`, ... */
  function Candidate(seed: string, k: nat): string {
    var base := seed + "-readbench-absent";
    if k <= 1 then base else base + ("-" + Show(k))
  }

  /** What the identifiers look like that `miss_id` tries. */
  lemma CandidatesAre(seed: string, k: nat)
    ensures Candidate(seed, 1) == seed + "-readbench-absent"
    ensures k >= 2 ==> Candidate(seed, k) == seed + "-readbench-absent-" + Show(k)
  {
  }

  lemma CandidatesDiffer(seed: string, j: nat, k: nat)
    requires 1 <= j < k
    ensures Candidate(seed, j) != Candidate(seed, k)
  {
    var base := seed + "-readbench-absent";
    if Candidate(seed, j) == Candidate(seed, k) {
      assert Candidate(seed, k) == base + ("-" + Show(k));
      assert Candidate(seed, k)[|base|..] == "-" + Show(k);
      assert j > 1;
      assert Candidate(seed, j)[|base|..] == "-" + Show(j);
      assert ("-" + Show(j))[1..] == Show(j) && ("-" + Show(k))[1..] == Show(k);
      ShowIsInjective(j, k);
    }
  }

  /** The first `k` candidates. */
  ghost function Tried(seed: string, k: nat): set<string> {
    if k == 0 then {} else Tried(seed, k - 1) + {Candidate(seed, k)}
  }

  /** `c` is among the first `k` candidates. */
  ghost predicate IsTried(seed: string, k: nat, c: string) {
    exists j | 1 <= j <= k :: c == Candidate(seed, j)
  }

  lemma TriedMore(seed: string, k: nat, less: set<string>)
    requires k > 0 && less == Tried(seed, k - 1) && forall c :: c in less <==> IsTried(seed, k - 1, c)
    ensures forall c :: c in Tried(seed, k) <==> IsTried(seed, k, c)
  {
    hide Candidate, IsTried;
    var last := Candidate(seed, k);
    assert Tried(seed, k) == less + {last};
    forall c ensures c in Tried(seed, k) <==> IsTried(seed, k, c) {
      IsTriedMore(seed, k, c);
      assert c in Tried(seed, k) <==> c in less || c == last;
    }
  }

  lemma IsTriedMore(seed: string, k: nat, c: string)
    requires k > 0
    ensures IsTried(seed, k, c) <==> IsTried(seed, k - 1, c) || c == Candidate(seed, k)
  {
    hide Candidate;
    if IsTried(seed, k - 1, c) {
      var j :| 1 <= j <= k - 1 && c == Candidate(seed, j);
    }
    if IsTried(seed, k, c) {
      var j :| 1 <= j <= k && c == Candidate(seed, j);
      if j < k { assert IsTried(seed, k - 1, c); }
    }
  }

  lemma {:induction false} TriedAre(seed: string, k: nat)
    ensures |Tried(seed, k)| == k
    ensures forall c :: c in Tried(seed, k) <==> IsTried(seed, k, c)
  {
    hide Candidate;
    if k > 0 {
      TriedAre(seed, k - 1);
      if Candidate(seed, k) in Tried(seed, k - 1) {
        var j :| 1 <= j <= k - 1 && Candidate(seed, k) == Candidate(seed, j);
        CandidatesDiffer(seed, j, k);
      }
      TriedMore(seed, k, Tried(seed, k - 1));
    }
  }

  /** Pigeonhole: no more candidates are taken in a row than there are taken identifiers. */
  lemma FewTaken(seed: string, taken: set<string>, k: nat)
    requires forall j | 1 <= j <= k :: Candidate(seed, j) in taken
    ensures k <= |taken|
  {
    TriedAre(seed, k);
    hide Candidate;
    assert Tried(seed, k) <= taken;
    assert taken == Tried(seed, k) + (taken - Tried(seed, k));
  }

  /** `r` is the first candidate that is free, and it comes within `|taken| + 1` tries. */
  ghost predicate IsMiss(seed: string, taken: set<string>, r: string) {
    exists k | 1 <= k <= |taken| + 1 ::
      r == Candidate(seed, k) && r !in taken && forall j | 1 <= j < k :: Candidate(seed, j) in taken
  }

  /** `miss_id`. */
  method MissId(seed: string, taken: set<string>) returns (r: string)
    ensures IsMiss(seed, taken, r)
  {
    hide Candidate;
    FewTaken(seed, taken, 0);
    r := Candidate(seed, 1);
    if r !in taken {
      return;
    }
    var suffix := 2;
    while true
      invariant 2 <= suffix <= |taken| + 1
      invariant forall j | 1 <= j < suffix :: Candidate(seed, j) in taken
      decreases |taken| + 1 - suffix
    {
      r := Candidate(seed, suffix);
      if r !in taken {
        return;
      }
      FewTaken(seed, taken, suffix);
      suffix := suffix + 1;
    }
  }

  /** The seed and the taken identifiers determine the miss. */
  lemma MissIsUnique(seed: string, taken: set<string>, r: string, q: string)
    requires IsMiss(seed, taken, r) && IsMiss(seed, taken, q)
    ensures r == q && r !in taken
  {
    hide Candidate;
  }

  // ----- the nearest identifier that can be verified

  /** `i` is verifiable, and nothing verifiable is nearer to `from`; the lower one of two. */
  ghost predicate Nearest(ids: seq<string>, verifiable: set<string>, from: nat, i: nat) {
    && i < |ids| && ids[i] in verifiable
    && forall j | 0 <= j < |ids| && ids[j] in verifiable ::
         Distance(i, from) < Distance(j, from) || (Distance(i, from) == Distance(j, from) && i <= j)
  }

  /** `nearest_verifiable`, which clamps both of its indices into the list. */
  method NearestVerifiable(ids: seq<string>, verifiable: set<string>, from: nat) returns (r: Option<nat>)
    requires from < |ids|
    ensures r.Some? ==> Nearest(ids, verifiable, from, r.value)
    ensures r.None? ==> forall j | 0 <= j < |ids| :: ids[j] !in verifiable
  {
    var offset := 0;
    while offset < |ids|
      invariant 0 <= offset <= |ids|
      invariant forall j | 0 <= j < |ids| && Distance(j, from) < offset :: ids[j] !in verifiable
    {
      var below := if from >= offset then from - offset else 0;
      if ids[below] in verifiable {
        return Some(below);
      }
      var above := if from + offset <= |ids| - 1 then from + offset else |ids| - 1;
      if ids[above] in verifiable {
        return Some(above);
      }
      offset := offset + 1;
    }
    assert forall j | 0 <= j < |ids| :: Distance(j, from) < |ids|;
    r := None;
  }

  /** Probes further along the list are never nearer to its beginning. */
  lemma NearestIsMonotone(ids: seq<string>, verifiable: set<string>, a: nat, b: nat, i: nat, j: nat)
    requires a <= b && Nearest(ids, verifiable, a, i) && Nearest(ids, verifiable, b, j)
    ensures i <= j
  {
  }

  // ----- the probes

  datatype IdProbe = IdProbe(tag: string, id: string, present: bool, substituted: bool)

  const ID_DECILES: seq<(real, string)> := [(0.10, "id-10pct"), (0.50, "id-50pct"), (0.90, "id-90pct")]
  const ID_MISS_TAG: string := "id-miss"

  /** The index a decile names. */
  function Nominal(position: real, n: nat): nat
    requires n > 0 && position >= 0.0
  {
    var at := (position * n as real).Floor;
    if 0 <= at < n then at else n - 1
  }

  /** A decile names the identifier that the wanted share of all identifiers comes before, rounded down. */
  lemma NominalIs(p: real, n: nat)
    requires n > 0 && 0.0 <= p < 1.0
    ensures Nominal(p, n) as real <= p * n as real < Nominal(p, n) as real + 1.0
  {
    assert (1.0 - p) * n as real > 0.0;
    assert p * n as real < n as real;
  }

  lemma NominalGrows(p: real, q: real, n: nat)
    requires n > 0 && 0.0 <= p <= q
    ensures Nominal(p, n) <= Nominal(q, n)
  {
    var m := n as real;
    assert q * m - p * m == (q - p) * m >= 0.0;
    assert p * m >= 0.0;
  }

  /** The probe for decile `k`, taken at `position`. */
  ghost predicate IsProbe(ids: seq<string>, verifiable: set<string>, k: nat, probe: IdProbe, position: nat)
    requires k < 3 && ids != []
  {
    var nominal := Nominal(ID_DECILES[k].0, |ids|);
    && Nearest(ids, verifiable, nominal, position)
    && probe == IdProbe(ID_DECILES[k].1, ids[position], true, position != nominal)
  }

  /** `id_probes`. When any identifier is verifiable, every decile has a probe: the verifiable
      identifier nearest its nominal index, flagged exactly when it is another one, at positions
      that never go back. The last probe is an identifier that the stream does not hold, made
      from the middle probe's. */
  method Probes(ids: seq<string>, verifiable: set<string>)
    returns (probes: seq<IdProbe>, ghost positions: seq<nat>)
    requires ids != []
    ensures |probes| == 4 || (|probes| == 1 && forall id | id in ids :: id !in verifiable)
    ensures |positions| == |probes| - 1
    ensures forall k | 0 <= k < |positions| :: IsProbe(ids, verifiable, k, probes[k], positions[k])
    ensures forall j, k | 0 <= j <= k < |positions| :: positions[j] <= positions[k]
    ensures var miss := probes[|probes| - 1];
      && miss.tag == ID_MISS_TAG && !miss.present && !miss.substituted && miss.id !in ids
      && IsMiss(if |probes| == 4 then probes[1].id else ids[0], Elements(ids), miss.id)
  {
    hide Nominal, Nearest, IsMiss, ID_DECILES;
    probes, positions := [], [];
    var k := 0;
    while k < 3
      invariant 0 <= k <= 3 && |probes| == |positions|
      invariant |positions| == k || (|positions| == 0 && forall j | 0 <= j < |ids| :: ids[j] !in verifiable)
      invariant |positions| > 0 ==> positions[0] < |ids| && ids[positions[0]] in verifiable
      invariant forall j | 0 <= j < |positions| :: IsProbe(ids, verifiable, j, probes[j], positions[j])
    {
      DecilesAre();
      var (position, tag) := ID_DECILES[k];
      var nominal := Nominal(position, |ids|);
      NominalFits(position, |ids|);
      var found := NearestVerifiable(ids, verifiable, nominal);
      if found.Some? {
        NearestIsThere(ids, verifiable, nominal, found.value);
        probes := probes + [IdProbe(tag, ids[found.value], true, found.value != nominal)];
        positions := positions + [found.value];
      }
      k := k + 1;
    }
    forall i, j | 0 <= i <= j < |positions| ensures positions[i] <= positions[j] {
      ProbesAscend(ids, verifiable, i, j, probes[i], probes[j], positions[i], positions[j]);
    }
    // The probe tagged `id-50pct`, if there is one.
    var seed := if |probes| == 3 then probes[1].id else ids[0];
    var miss := MissId(seed, Elements(ids));
    MissIsUnique(seed, Elements(ids), miss, miss);
    probes := probes + [IdProbe(ID_MISS_TAG, miss, false, false)];
  }

  /** The three deciles and their tags. */
  lemma DecilesAre()
    ensures ID_DECILES == [(1.0 / 10.0, "id-10pct"), (5.0 / 10.0, "id-50pct"), (9.0 / 10.0, "id-90pct")]
    ensures ID_MISS_TAG == "id-miss"
    ensures |ID_DECILES| == 3
    ensures 0.0 <= ID_DECILES[0].0 <= ID_DECILES[1].0 <= ID_DECILES[2].0
  {
  }

  lemma NominalFits(position: real, n: nat)
    requires n > 0 && position >= 0.0
    ensures Nominal(position, n) < n
  {
  }

  lemma NearestIsThere(ids: seq<string>, verifiable: set<string>, from: nat, i: nat)
    requires Nearest(ids, verifiable, from, i)
    ensures i < |ids| && ids[i] in verifiable
  {
  }

  lemma ProbesAscend(ids: seq<string>, verifiable: set<string>, i: nat, j: nat,
                     a: IdProbe, b: IdProbe, atA: nat, atB: nat)
    requires ids != [] && i <= j < 3
    requires IsProbe(ids, verifiable, i, a, atA) && IsProbe(ids, verifiable, j, b, atB)
    ensures atA <= atB
  {
    hide Nominal, Nearest;
    NominalGrows(ID_DECILES[i].0, ID_DECILES[j].0, |ids|);
    NearestIsMonotone(ids, verifiable, Nominal(ID_DECILES[i].0, |ids|), Nominal(ID_DECILES[j].0, |ids|), atA, atB);
  }

  // ----- a miss that statistics cannot prune

  const MISS_CANDIDATES: nat := 1024

  /** Byte order, which for UTF-8 is the order of the characters. */
  predicate AtMost(a: string, b: string) {
    a == [] || (b != [] && (a[0] < b[0] || (a[0] == b[0] && AtMost(a[1..], b[1..]))))
  }

  /** The order is that of the first character in which two strings differ; a prefix comes first. */
  lemma {:induction false} AtMostIsLexical(a: string, b: string)
    ensures AtMost(a, b) <==> a <= b || exists k | 0 <= k < |a| && k < |b| :: a[..k] == b[..k] && a[k] < b[k]
  {
    if a != [] && b != [] {
      AtMostIsLexical(a[1..], b[1..]);
      DifferLater(a, b);
      if a[0] < b[0] { assert a[..0] == b[..0]; }
    }
  }

  lemma DifferFirst(a: string, b: string, k: nat)
    requires a != [] && b != [] && k < |a| && k < |b|
    requires a[..k] == b[..k] && a[k] < b[k]
    ensures k == 0 || (a[0] == b[0] && a[1..][..k - 1] == b[1..][..k - 1] && a[1..][k - 1] < b[1..][k - 1])
  {
    if k > 0 {
      assert a[0] == a[..k][0] == b[..k][0] == b[0];
      assert a[1..][..k - 1] == a[..k][1..] == b[..k][1..] == b[1..][..k - 1];
    }
  }

  lemma DifferNext(a: string, b: string, k: nat)
    requires a != [] && b != [] && a[0] == b[0] && k < |a[1..]| && k < |b[1..]|
    requires a[1..][..k] == b[1..][..k] && a[1..][k] < b[1..][k]
    ensures a[..k + 1] == b[..k + 1] && a[k + 1] < b[k + 1]
  {
    assert a[..k + 1] == [a[0]] + a[1..][..k] == [b[0]] + b[1..][..k] == b[..k + 1];
  }

  lemma PrefixLater(a: string, b: string)
    requires a != [] && b != []
    ensures a <= b <==> a[0] == b[0] && a[1..] <= b[1..]
  {
    var x, y := a[1..], b[1..];
    assert a == [a[0]] + x && b == [b[0]] + y;
    if a[0] == b[0] && x <= y {
      assert b[..|a|] == [b[0]] + y[..|x|];
    }
    if a <= b {
      assert a == b[..|a|];
      assert x == a[1..] == b[..|a|][1..] == y[..|x|];
    }
  }

  /** Two strings that begin alike compare as the rest of them does. */
  lemma DifferLater(a: string, b: string)
    requires a != [] && b != []
    ensures (exists k | 0 <= k < |a| && k < |b| :: a[..k] == b[..k] && a[k] < b[k]) <==>
      a[0] < b[0] || (a[0] == b[0] &&
        exists k | 0 <= k < |a[1..]| && k < |b[1..]| :: a[1..][..k] == b[1..][..k] && a[1..][k] < b[1..][k])
    ensures a <= b <==> a[0] == b[0] && a[1..] <= b[1..]
  {
    PrefixLater(a, b);
    if a[0] < b[0] { assert a[..0] == b[..0]; }
    if k: int :| 0 <= k < |a| && k < |b| && a[..k] == b[..k] && a[k] < b[k] {
      DifferFirst(a, b, k);
    }
    if a[0] == b[0] {
      if k: int :| 0 <= k < |a[1..]| && k < |b[1..]| && a[1..][..k] == b[1..][..k] && a[1..][k] < b[1..][k] {
        DifferNext(a, b, k);
      }
    }
  }

  lemma {:induction false} AtMostIsTotal(a: string, b: string)
    ensures AtMost(a, b) || AtMost(b, a)
    ensures AtMost(a, b) && AtMost(b, a) ==> a == b
  {
    if a != [] && b != [] && a[0] == b[0] {
      AtMostIsTotal(a[1..], b[1..]);
      assert a == [a[0]] + a[1..] && b == [b[0]] + b[1..];
    }
  }

  lemma {:induction false} AtMostIsTransitive(a: string, b: string, c: string)
    requires AtMost(a, b) && AtMost(b, c)
    ensures AtMost(a, c)
  {
    if a != [] && a[0] == b[0] == c[0] { AtMostIsTransitive(a[1..], b[1..], c[1..]); }
  }

  /** Strictly ascending: sorted, and no two alike. */
  ghost predicate InOrder(ids: seq<string>) {
    forall i, j | 0 <= i < j < |ids| :: AtMost(ids[i], ids[j]) && ids[i] != ids[j]
  }

  function InsertOnce(id: string, ids: seq<string>): seq<string> {
    if ids == [] then [id]
    else if id == ids[0] then ids
    else if AtMost(id, ids[0]) then [id] + ids
    else [ids[0]] + InsertOnce(id, ids[1..])
  }

  /** `sort_unstable` and `dedup`. */
  function SortedOnce(ids: seq<string>): seq<string> {
    if ids == [] then [] else InsertOnce(ids[0], SortedOnce(ids[1..]))
  }

  lemma {:induction false} InsertOnceHolds(id: string, ids: seq<string>)
    ensures forall x :: x in InsertOnce(id, ids) <==> x == id || x in ids
  {
    if ids != [] && id != ids[0] && !AtMost(id, ids[0]) {
      InsertOnceHolds(id, ids[1..]);
      assert ids == [ids[0]] + ids[1..];
    }
  }

  lemma InOrderTail(ids: seq<string>)
    requires ids != [] && InOrder(ids)
    ensures InOrder(ids[1..]) && forall x | x in ids[1..] :: AtMost(ids[0], x) && x != ids[0]
  {
    hide AtMost;
  }

  lemma InOrderCons(id: string, ids: seq<string>)
    requires InOrder(ids) && forall x | x in ids :: AtMost(id, x) && x != id
    ensures InOrder([id] + ids)
  {
    hide AtMost;
  }

  lemma {:induction false} InsertOnceSorts(id: string, ids: seq<string>)
    requires InOrder(ids)
    ensures InOrder(InsertOnce(id, ids))
  {
    hide AtMost, InOrder;
    if ids == [] {
      InOrderCons(id, ids);
      assert [id] + ids == [id];
    } else if id != ids[0] {
      InOrderTail(ids);
      AtMostIsTotal(id, ids[0]);
      if AtMost(id, ids[0]) {
        forall x | x in ids ensures AtMost(id, x) && x != id {
          if x != ids[0] {
            assert x in ids[1..];
            AtMostIsTransitive(id, ids[0], x);
            AtMostIsTotal(ids[0], x);
          }
        }
        InOrderCons(id, ids);
      } else {
        InsertOnceSorts(id, ids[1..]);
        InsertOnceHolds(id, ids[1..]);
        InOrderCons(ids[0], InsertOnce(id, ids[1..]));
      }
    }
  }

  lemma NothingInOrder()
    ensures InOrder([])
  {
  }

  /** The identifiers that are sampled are those that are stored, in order, each once. */
  lemma {:induction false} SortedOnceSorts(ids: seq<string>)
    ensures InOrder(SortedOnce(ids)) && forall x :: x in SortedOnce(ids) <==> x in ids
    ensures SortedOnce(ids) == [] <==> ids == []
  {
    hide InOrder, InsertOnce;
    if ids == [] {
      NothingInOrder();
    } else {
      SortedOnceSorts(ids[1..]);
      InsertOnceSorts(ids[0], SortedOnce(ids[1..]));
      InsertOnceHolds(ids[0], SortedOnce(ids[1..]));
      assert ids == [ids[0]] + ids[1..];
      assert ids[0] in SortedOnce(ids);
    }
  }

  type Range = Option<(string, string)>

  /** Whether statistics leave the row group in: it has none, or its range holds the miss. */
  predicate Keeps(range: Range, miss: string) {
    range.Some? ==> AtMost(range.value.0, miss) && AtMost(miss, range.value.1)
  }

  /** The row groups that a look-up of `miss` cannot skip. */
  function Covered(ranges: seq<Range>, miss: string): nat {
    if ranges == [] then 0
    else Covered(ranges[1..], miss) + if Keeps(ranges[0], miss) then 1 else 0
  }

  /** The row groups, by position, whose statistics are missing or whose range the miss lies in. */
  ghost function Kept(ranges: seq<Range>, miss: string): set<nat> {
    set i: nat | i < |ranges| &&
      match ranges[i] case None => true case Some((lo, hi)) => AtMost(lo, miss) && AtMost(miss, hi)
  }

  lemma {:induction false} CoveredAreKept(ranges: seq<Range>, miss: string)
    ensures Covered(ranges, miss) == |Kept(ranges, miss)|
  {
    if ranges != [] {
      var last := |ranges| - 1;
      var front := ranges[..last];
      CoveredAreKept(front, miss);
      CoveredAdds(front, [ranges[last]], miss);
      assert ranges == front + [ranges[last]];
      assert Covered([ranges[last]], miss) == if Keeps(ranges[last], miss) then 1 else 0;
      KeptMore(front, ranges[last], miss);
    }
  }

  lemma KeptMore(ranges: seq<Range>, range: Range, miss: string)
    ensures |Kept(ranges + [range], miss)| == |Kept(ranges, miss)| + if Keeps(range, miss) then 1 else 0
  {
    hide AtMost;
    var n := |ranges|;
    assert forall i | 0 <= i < n :: (ranges + [range])[i] == ranges[i];
    assert Kept(ranges + [range], miss) == Kept(ranges, miss) + if Keeps(range, miss) then {n} else {};
  }

  /** The ranges of all columns in one list. */
  function Flat(columns: seq<seq<Range>>): seq<Range> {
    if columns == [] then [] else columns[0] + Flat(columns[1..])
  }

  function Total(columns: seq<seq<Range>>, miss: string): nat {
    if columns == [] then 0 else Covered(columns[0], miss) + Total(columns[1..], miss)
  }

  lemma {:induction false} CoveredAdds(a: seq<Range>, b: seq<Range>, miss: string)
    ensures Covered(a + b, miss) == Covered(a, miss) + Covered(b, miss)
  {
    if a == [] {
      assert a + b == b;
    } else {
      assert (a + b)[1..] == a[1..] + b;
      CoveredAdds(a[1..], b, miss);
    }
  }

  /** The row groups are counted column by column. */
  lemma {:induction false} FlatIsSummed(columns: seq<seq<Range>>, miss: string)
    ensures Covered(Flat(columns), miss) == Total(columns, miss)
  {
    if columns != [] {
      CoveredAdds(columns[0], Flat(columns[1..]), miss);
      FlatIsSummed(columns[1..], miss);
    }
  }

  /** The positions `from`, `from + step`, ... below `n`, and then the middle. */
  function SampleFrom(from: nat, step: nat, n: nat): (s: seq<nat>)
    requires step > 0 && n > 0
    ensures |s| > 0 && forall k | 0 <= k < |s| :: s[k] < n
    decreases n - from
  {
    if from >= n then [n / 2] else [from] + SampleFrom(from + step, step, n)
  }

  /** The positions of the sorted identifiers that are scored. */
  function Sample(n: nat): (s: seq<nat>)
    requires n > 0
    ensures |s| > 0 && forall k | 0 <= k < |s| :: s[k] < n
  {
    SampleFrom(0, (n + MISS_CANDIDATES - 1) / MISS_CANDIDATES, n)
  }

  lemma {:induction false} SampleFromHolds(a: nat, step: nat, n: nat, q: nat)
    requires step > 0 && n > 0
    ensures a <= q && q * step < n ==> q * step in SampleFrom(a * step, step, n)
    ensures n / 2 in SampleFrom(a * step, step, n)
    decreases n - a * step
  {
    if a * step < n {
      assert (a + 1) * step == a * step + step;
      SampleFromHolds(a + 1, step, n, q);
      if a < q { assert q * step == (q - a) * step + a * step; }
    } else if a <= q {
      assert q * step == (q - a) * step + a * step >= n;
    }
  }

  lemma {:induction false} SampleFromIs(a: nat, step: nat, n: nat, i: nat) returns (q: nat)
    requires step > 0 && n > 0
    ensures i in SampleFrom(a * step, step, n) ==> i == n / 2 || i == q * step < n
    decreases n - a * step
  {
    q := a;
    if a * step < n {
      assert (a + 1) * step == a * step + step;
      if i != a * step { q := SampleFromIs(a + 1, step, n, i); }
    }
  }

  /** The sample is every `step`-th identifier, the first included, and the middle one, where `step` is
      the least that leaves no more than 1024. */
  lemma SampleIs(n: nat, step: nat)
    requires n > 0 && step > 0 && (step - 1) * 1024 < n <= step * 1024
    ensures forall q: nat | Times(q, step) < n :: Times(q, step) in Sample(n)
    ensures n / 2 in Sample(n)
    ensures forall i | i in Sample(n) :: i == n / 2 || exists q: nat :: i == Times(q, step)
  {
    assert (n + 1023) / 1024 == step;
    assert 0 * step == 0;
    SampleFromHolds(0, step, n, 0);
    forall q: nat | Times(q, step) < n ensures Times(q, step) in Sample(n) {
      SampleFromHolds(0, step, n, q);
    }
    forall i | i in Sample(n) && i != n / 2 ensures exists q: nat :: i == Times(q, step) {
      var q := SampleFromIs(0, step, n, i);
      assert i == Times(q, step);
    }
  }

  function Times(q: nat, step: nat): nat {
    q * step
  }

  lemma {:induction false} SampleSize(from: nat, step: nat, n: nat, k: nat)
    requires step > 0 && n > 0 && n <= from + k * step
    ensures |SampleFrom(from, step, n)| <= k + 1
    decreases n - from
  {
    if from < n {
      assert k > 0;
      assert k * step == (k - 1) * step + step;
      SampleSize(from + step, step, n, k - 1);
    }
  }

  /** However many identifiers there are, only a bounded number is scored. */
  lemma SampleIsSmall(n: nat)
    requires n > 0
    ensures |Sample(n)| <= MISS_CANDIDATES + 1
  {
    SampleSize(0, (n + MISS_CANDIDATES - 1) / MISS_CANDIDATES, n, MISS_CANDIDATES);
  }

  /** The positions ascend from `from` on, up to the last, which may be the middle. */
  ghost predicate AscendsToMiddle(s: seq<nat>, from: nat, middle: nat) {
    && (forall j | 0 <= j < |s| :: s[j] >= from || s[j] == middle)
    && (forall j, k | 0 <= j < k < |s| :: s[j] < s[k] || s[k] == middle)
  }

  lemma AscendsCons(from: nat, next: nat, s: seq<nat>, middle: nat)
    requires AscendsToMiddle(s, next, middle) && from < next
    ensures AscendsToMiddle([from] + s, from, middle)
  {
  }

  lemma {:induction false} SampleAscends(from: nat, step: nat, n: nat)
    requires step > 0 && n > 0
    ensures AscendsToMiddle(SampleFrom(from, step, n), from, n / 2)
    decreases n - from
  {
    if from < n {
      SampleAscends(from + step, step, n);
      AscendsCons(from, from + step, SampleFrom(from + step, step, n), n / 2);
    }
  }

  lemma LaterIsLarger(n: nat)
    requires n > 0
    ensures var s := Sample(n); forall j, k | 0 <= j < k < |s| && Distance(s[j], n / 2) == Distance(s[k], n / 2) ::
      s[j] <= s[k]
  {
    SampleAscends(0, (n + MISS_CANDIDATES - 1) / MISS_CANDIDATES, n);
    LaterIfAscending(Sample(n), n / 2);
  }

  lemma LaterIfAscending(s: seq<nat>, middle: nat)
    requires AscendsToMiddle(s, 0, middle)
    ensures forall j, k | 0 <= j < k < |s| && Distance(s[j], middle) == Distance(s[k], middle) :: s[j] <= s[k]
  {
  }

  /** The order of `max_by`: more row groups in all columns first, then nearer to the middle, and of two
      as near the later one. */
  predicate NoBetter(columns: seq<seq<Range>>, middle: nat, miss: string, at: nat, best: string, bestAt: nat) {
    || Total(columns, miss) < Total(columns, best)
    || (Total(columns, miss) == Total(columns, best) && Distance(bestAt, middle) < Distance(at, middle))
    || (Total(columns, miss) == Total(columns, best) && Distance(bestAt, middle) == Distance(at, middle)
        && at <= bestAt)
  }

  function Score(columns: seq<seq<Range>>, miss: string): (n: nat)
    ensures n == Total(columns, miss)
  {
    FlatIsSummed(columns, miss);
    Covered(Flat(columns), miss)
  }

  /** `stats_resistant_miss`. The miss covers at least as many row groups, over all columns, as
      the miss of any sampled identifier, and of those that cover as many, none was made from
      one nearer to the middle of the stored identifiers in order, or as near and behind it. */
  method StatsResistantMiss(stored: seq<string>, taken: set<string>, columns: seq<seq<Range>>)
    returns (r: Option<string>, ghost seed: nat)
    ensures r.None? <==> stored == []
    ensures var sorted := SortedOnce(stored);
      stored != [] ==>
        && |sorted| > 0 && seed in Sample(|sorted|)
        && IsMiss(sorted[seed], taken, r.value) && r.value !in taken
    ensures var sorted := SortedOnce(stored);
      stored != [] ==> |sorted| > 0 && forall i, miss | i in Sample(|sorted|) && IsMiss(sorted[i], taken, miss) ::
        NoBetter(columns, |sorted| / 2, miss, i, r.value, seed)
  {
    hide IsMiss, Covered, Sample, SortedOnce, Total;
    SortedOnceSorts(stored);
    var sorted := SortedOnce(stored);
    seed := 0;
    if sorted == [] {
      return None, 0;
    }
    var n := |sorted|;
    var middle := n / 2;
    var sample := Sample(n);
    LaterIsLarger(n);
    var best := MissId(sorted[sample[0]], taken);
    var bestAt := sample[0];
    MissesAgree(sorted[bestAt], taken, best);
    var k := 1;
    while k < |sample|
      invariant 1 <= k <= |sample| && bestAt in sample && IsMiss(sorted[bestAt], taken, best) && best !in taken
      invariant exists j | 0 <= j < k :: bestAt == sample[j]
      invariant forall j, miss | 0 <= j < k && IsMiss(sorted[sample[j]], taken, miss) ::
        NoBetter(columns, middle, miss, sample[j], best, bestAt)
    {
      var miss := MissId(sorted[sample[k]], taken);
      MissesAgree(sorted[sample[k]], taken, miss);
      var more, most := Score(columns, miss), Score(columns, best);
      if most < more || (most == more && Distance(sample[k], middle) <= Distance(bestAt, middle)) {
        best, bestAt := miss, sample[k];
      }
      k := k + 1;
    }
    r, seed := Some(best), bestAt;
    forall i, miss | i in sample && IsMiss(sorted[i], taken, miss)
      ensures NoBetter(columns, middle, miss, i, best, bestAt)
    {
      var j :| 0 <= j < |sample| && sample[j] == i;
    }
  }

  lemma MissesAgree(seed: string, taken: set<string>, r: string)
    requires IsMiss(seed, taken, r)
    ensures r !in taken && forall q | IsMiss(seed, taken, q) :: q == r
  {
    hide IsMiss;
    MissIsUnique(seed, taken, r, r);
    forall q | IsMiss(seed, taken, q) ensures q == r { MissIsUnique(seed, taken, q, r); }
  }
}
