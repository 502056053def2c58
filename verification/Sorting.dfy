/** What the modelled programs take from their libraries' sorts: a stable sort by a key. */
module Sorting {

  ghost predicate SortedBy<T>(s: seq<T>, key: T -> real) {
    forall i, j | 0 <= i < j < |s| :: key(s[i]) <= key(s[j])
  }

  function Insert<T>(x: T, s: seq<T>, key: T -> real): seq<T> {
    if s == [] || key(x) <= key(s[0]) then [x] + s
    else [s[0]] + Insert(x, s[1..], key)
  }

  function Sort<T>(s: seq<T>, key: T -> real): seq<T> {
    if s == [] then [] else Insert(s[0], Sort(s[1..], key), key)
  }

  lemma {:induction false} InsertPermutes<T>(x: T, s: seq<T>, key: T -> real)
    ensures multiset(Insert(x, s, key)) == multiset(s) + multiset{x}
    ensures |Insert(x, s, key)| == |s| + 1
  {
    if s == [] || key(x) <= key(s[0]) {
    } else {
      InsertPermutes(x, s[1..], key);
      assert s == [s[0]] + s[1..];
    }
  }

  lemma {:induction false} SortPermutes<T>(s: seq<T>, key: T -> real)
    ensures multiset(Sort(s, key)) == multiset(s) && |Sort(s, key)| == |s|
  {
    if s != [] {
      SortPermutes(s[1..], key);
      InsertPermutes(s[0], Sort(s[1..], key), key);
      assert s == [s[0]] + s[1..];
    }
  }

  /** A permutation has the same members. */
  lemma SameMembers<T>(s: seq<T>, t: seq<T>)
    requires multiset(s) == multiset(t)
    ensures forall x :: x in s <==> x in t
  {
    forall x ensures x in s <==> x in t {
      assert x in s <==> x in multiset(s);
      assert x in t <==> x in multiset(t);
    }
  }

  lemma {:induction false} InsertSorts<T>(x: T, s: seq<T>, key: T -> real)
    requires SortedBy(s, key)
    ensures SortedBy(Insert(x, s, key), key)
  {
    if s != [] && key(x) > key(s[0]) {
      var rest := s[1..];
      assert forall i | 0 <= i < |rest| :: rest[i] == s[i + 1];
      InsertSorts(x, rest, key);
      InsertPermutes(x, rest, key);
      var r := Insert(x, rest, key);
      forall i | 0 <= i < |r| ensures key(s[0]) <= key(r[i]) {
        assert r[i] in multiset(r);
        assert r[i] == x || r[i] in rest;
      }
    }
  }

  lemma {:induction false} SortSorts<T>(s: seq<T>, key: T -> real)
    ensures SortedBy(Sort(s, key), key)
  {
    if s != [] {
      SortSorts(s[1..], key);
      InsertSorts(s[0], Sort(s[1..], key), key);
    }
  }

  lemma FirstIsLeast<T>(s: seq<T>, key: T -> real, x: T)
    requires SortedBy(s, key) && x in s
    ensures key(s[0]) <= key(x)
  {
    var i :| 0 <= i < |s| && s[i] == x;
    assert i == 0 || key(s[0]) <= key(s[i]);
  }

  lemma SortedTail<T>(s: seq<T>, key: T -> real)
    requires SortedBy(s, key) && s != []
    ensures SortedBy(s[1..], key)
  {
    forall i, j | 0 <= i < j < |s[1..]| ensures key(s[1..][i]) <= key(s[1..][j]) {
      assert s[1..][i] == s[i + 1] && s[1..][j] == s[j + 1];
    }
  }

  lemma MultisetTail<T>(s: seq<T>)
    requires s != []
    ensures multiset(s[1..]) == multiset(s) - multiset{s[0]}
  {
    assert s == [s[0]] + s[1..];
  }

  /** A sort puts the same elements into the same order, however they came, when no two
      of them share a key. */
  lemma {:induction false} SortedIsUnique<T>(s: seq<T>, t: seq<T>, key: T -> real)
    requires multiset(s) == multiset(t) && SortedBy(s, key) && SortedBy(t, key)
    requires forall x, y | x in s && y in s && key(x) == key(y) :: x == y
    ensures s == t
    decreases |s|
  {
    hide SortedBy;
    assert |s| == |multiset(s)| == |multiset(t)| == |t|;
    if s != [] {
      SameMembers(s, t);
      assert s[0] in t && t[0] in s;
      FirstIsLeast(s, key, t[0]);
      FirstIsLeast(t, key, s[0]);
      assert s[0] == t[0];
      MultisetTail(s);
      MultisetTail(t);
      SortedTail(s, key);
      SortedTail(t, key);
      SortedIsUnique(s[1..], t[1..], key);
      assert s == [s[0]] + s[1..] && t == [t[0]] + t[1..];
    }
  }

  /** `dedup` of a sorted list: of equal neighbours one stays. */
  function Dedup<T(==)>(s: seq<T>): seq<T> {
    if |s| <= 1 then s
    else if s[0] == s[1] then Dedup(s[1..])
    else [s[0]] + Dedup(s[1..])
  }

  ghost predicate StrictlyBy<T(!new)>(s: seq<T>, key: T -> real) {
    forall i, j | 0 <= i < j < |s| :: key(s[i]) < key(s[j])
  }

  /** What is left has strictly ascending keys, when different elements have different ones. */
  lemma {:induction false} DedupAscends<T(!new)>(s: seq<T>, key: T -> real)
    requires SortedBy(s, key) && forall x, y | key(x) == key(y) :: x == y
    ensures StrictlyBy(Dedup(s), key)
    ensures s != [] ==> Dedup(s) != [] && Dedup(s)[0] == s[0]
  {
    if |s| > 1 {
      SortedTail(s, key);
      DedupAscends(s[1..], key);
      assert key(s[0]) <= key(s[1]);
      var d := Dedup(s[1..]);
      assert forall i | 0 < i < |d| :: key(d[0]) < key(d[i]);
    }
  }

  lemma {:induction false} DedupKeepsMembers<T(!new)>(s: seq<T>)
    ensures forall v :: v in Dedup(s) <==> v in s
    ensures s != [] ==> Dedup(s) != []
  {
    if |s| > 1 {
      DedupKeepsMembers(s[1..]);
      assert s == [s[0]] + s[1..];
    }
  }
}
