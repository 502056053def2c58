/** Sequences: their elements, and a function applied to each of them. */
module Sequences {
  import opened Sorting

  ghost predicate Distinct<T(!new)>(s: seq<T>) {
    forall i, j | 0 <= i < j < |s| :: s[i] != s[j]
  }

  predicate Ascending(s: seq<nat>) {
    forall i, j | 0 <= i < j < |s| :: s[i] < s[j]
  }

  function Elements<T>(s: seq<T>): set<T> {
    set x | x in s
  }

  function Map<A, B>(f: A -> B, s: seq<A>): (r: seq<B>)
    ensures |r| == |s| && forall i | 0 <= i < |s| :: r[i] == f(s[i])
  {
    if s == [] then [] else [f(s[0])] + Map(f, s[1..])
  }

  lemma {:induction false} MapAppends<A, B>(f: A -> B, s: seq<A>, t: seq<A>)
    ensures Map(f, s + t) == Map(f, s) + Map(f, t)
  {
    if s == [] {
      assert s + t == t;
    } else {
      assert (s + t)[1..] == s[1..] + t;
      MapAppends(f, s[1..], t);
    }
  }

  function Without<A>(s: seq<A>, k: nat): (r: seq<A>)
    requires k < |s|
    ensures |r| == |s| - 1
  {
    s[..k] + s[k + 1..]
  }

  lemma WithoutCounts<A>(s: seq<A>, k: nat)
    requires k < |s|
    ensures multiset(Without(s, k)) == multiset(s) - multiset{s[k]}
    ensures Without(s, 0) == s[1..]
  {
    assert s == s[..k] + [s[k]] + s[k + 1..];
  }

  lemma MapOne<A, B>(f: A -> B, x: A)
    ensures Map(f, [x]) == [f(x)]
  {
  }

  lemma {:induction false} MapWithout<A, B>(f: A -> B, s: seq<A>, k: nat)
    requires k < |s|
    ensures multiset(Map(f, s)) == multiset(Map(f, Without(s, k))) + multiset{f(s[k])}
  {
    hide Map;
    var left, x, right := s[..k], [s[k]], s[k + 1..];
    assert s == left + (x + right) && Without(s, k) == left + right;
    MapAppends(f, left, right);
    MapAppends(f, left, x + right);
    MapAppends(f, x, right);
    MapOne(f, s[k]);
    var a, b, c := Map(f, left), Map(f, x), Map(f, right);
    assert multiset(a + (b + c)) == multiset(a) + multiset(b) + multiset(c);
    assert multiset(a + c) == multiset(a) + multiset(c);
  }

  lemma {:induction false} MapPermutes<A, B>(f: A -> B, s: seq<A>, t: seq<A>)
    requires multiset(s) == multiset(t)
    ensures multiset(Map(f, s)) == multiset(Map(f, t))
    decreases |s|
  {
    hide Map, Without;
    assert |s| == |multiset(s)| == |multiset(t)| == |t|;
    if s != [] {
      assert s[0] in multiset(t);
      var k :| 0 <= k < |t| && t[k] == s[0];
      WithoutCounts(s, 0);
      WithoutCounts(t, k);
      MapPermutes(f, Without(s, 0), Without(t, k));
      MapWithout(f, t, k);
      MapWithout(f, s, 0);
    }
  }

  /** Sorting and then mapping is mapping and then sorting, where the map keeps the key. */
  lemma {:induction false} SortOfMap<A, B>(f: A -> B, s: seq<A>, key: A -> real, image: B -> real)
    requires forall x :: image(f(x)) == key(x)
    ensures Sort(Map(f, s), image) == Map(f, Sort(s, key))
  {
    if s != [] {
      SortOfMap(f, s[1..], key, image);
      InsertOfMap(f, s[0], Sort(s[1..], key), key, image);
      assert Map(f, s)[1..] == Map(f, s[1..]);
    }
  }

  lemma {:induction false} InsertOfMap<A, B>(f: A -> B, x: A, s: seq<A>, key: A -> real, image: B -> real)
    requires forall x :: image(f(x)) == key(x)
    ensures Insert(f(x), Map(f, s), image) == Map(f, Insert(x, s, key))
  {
    if s == [] || key(x) <= key(s[0]) {
      assert ([x] + s)[1..] == s;
    } else {
      InsertOfMap(f, x, s[1..], key, image);
      assert Map(f, s)[1..] == Map(f, s[1..]);
      var r := Insert(x, s[1..], key);
      assert ([s[0]] + r)[1..] == r;
    }
  }
}
