/** Characters and strings as the modelled programs see them: sequences of
    characters, JavaScript's `trim`, and `indexOf`. */
module Text {
  import opened Options

  /** What JavaScript's `trim` removes and `\s` matches. */
  predicate IsSpace(c: char) {
    || c == ' ' || c == '\t' || c == '\n' || c == '\r'
    || c == '\U{000B}' || c == '\U{000C}' || c == '\U{00A0}' || c == '\U{1680}'
    || '\U{2000}' <= c <= '\U{200A}' || c == '\U{2028}' || c == '\U{2029}'
    || c == '\U{202F}' || c == '\U{205F}' || c == '\U{3000}' || c == '\U{FEFF}'
  }

  predicate AllSpace(s: string) {
    forall i | 0 <= i < |s| :: IsSpace(s[i])
  }

  function TrimStart(s: string): string {
    if s != [] && IsSpace(s[0]) then TrimStart(s[1..]) else s
  }

  function TrimEnd(s: string): string {
    if s != [] && IsSpace(s[|s| - 1]) then TrimEnd(s[..|s| - 1]) else s
  }

  function Trim(s: string): string {
    TrimEnd(TrimStart(s))
  }

  /** Neither end is a space. */
  predicate Trimmed(s: string) {
    s == [] || (!IsSpace(s[0]) && !IsSpace(s[|s| - 1]))
  }

  lemma TrimStartSplits(s: string) returns (left: string)
    ensures AllSpace(left) && s == left + TrimStart(s)
    ensures TrimStart(s) == [] || !IsSpace(TrimStart(s)[0])
  {
    left := "";
    if s != [] && IsSpace(s[0]) {
      var l := TrimStartSplits(s[1..]);
      left := [s[0]] + l;
      assert s == [s[0]] + s[1..];
    }
  }

  lemma TrimEndSplits(s: string) returns (right: string)
    ensures AllSpace(right) && s == TrimEnd(s) + right
    ensures TrimEnd(s) == [] || !IsSpace(TrimEnd(s)[|TrimEnd(s)| - 1])
  {
    right := "";
    if s != [] && IsSpace(s[|s| - 1]) {
      var r := TrimEndSplits(s[..|s| - 1]);
      right := r + [s[|s| - 1]];
      assert s == s[..|s| - 1] + [s[|s| - 1]];
    }
  }

  /** `Trim` removes two runs of spaces and nothing else. */
  lemma TrimSplits(s: string) returns (left: string, right: string)
    ensures AllSpace(left) && AllSpace(right) && s == left + Trim(s) + right
    ensures Trimmed(Trim(s))
  {
    left := TrimStartSplits(s);
    right := TrimEndSplits(TrimStart(s));
    assert Trim(s) != [] ==> Trim(s)[0] == TrimStart(s)[0];
  }

  lemma {:induction false} TrimStartDrops(left: string, s: string)
    requires AllSpace(left) && (s == [] || !IsSpace(s[0]))
    ensures TrimStart(left + s) == s
  {
    if left == [] {
      assert left + s == s;
    } else {
      assert (left + s)[1..] == left[1..] + s;
      TrimStartDrops(left[1..], s);
    }
  }

  lemma {:induction false} TrimEndDrops(s: string, right: string)
    requires AllSpace(right) && (s == [] || !IsSpace(s[|s| - 1]))
    ensures TrimEnd(s + right) == s
  {
    if right == [] {
      assert s + right == s;
    } else {
      var n := |right| - 1;
      assert (s + right)[..|s| + n] == s + right[..n];
      TrimEndDrops(s, right[..n]);
    }
  }

  /** `Trim` finds a trimmed string between any two runs of spaces. */
  lemma TrimFinds(left: string, s: string, right: string)
    requires AllSpace(left) && AllSpace(right) && Trimmed(s)
    ensures Trim(left + s + right) == s
  {
    if s == [] {
      assert left + s + right == (left + right) + [];
      TrimStartDrops(left + right, []);
    } else {
      assert left + s + right == left + (s + right);
      TrimStartDrops(left, s + right);
      TrimEndDrops(s, right);
    }
  }

  /** The offset of the first occurrence of `m` in `s`, or -1: JavaScript's `indexOf`. */
  function Find(s: string, m: string): (r: int)
    requires m != []
    ensures -1 <= r <= |s| - |m| || r == -1
    ensures r >= 0 ==> s[r..r + |m|] == m
  {
    if m <= s then 0
    else if s == [] then -1
    else
      var r := Find(s[1..], m);
      assert r >= 0 ==> s[1..][r..r + |m|] == s[r + 1..r + 1 + |m|];
      if r < 0 then -1 else r + 1
  }

  /** `Find` returns the least offset at which `m` occurs. */
  lemma {:induction false} FindIsFirst(s: string, m: string, k: nat)
    requires m != [] && k + |m| <= |s| && s[k..k + |m|] == m
    ensures 0 <= Find(s, m) <= k
  {
    assert k == 0 ==> m <= s;
    if !(m <= s) {
      assert s[1..][k - 1..k - 1 + |m|] == s[k..k + |m|];
      FindIsFirst(s[1..], m, k - 1);
    }
  }

  lemma SliceOfPrefix(s: string, x: string, i: nat, j: nat)
    requires i <= j <= |s|
    ensures (s + x)[i..j] == s[i..j]
  {
  }

  /** What follows the part of `s` an occurrence was found in does not matter. */
  lemma {:induction false} FindIsLocal(s: string, x: string, y: string, m: string)
    requires m != [] && 0 <= Find(s + x, m) <= |s| - |m|
    ensures Find(s + y, m) == Find(s + x, m)
  {
    var r := Find(s + x, m);
    SliceOfPrefix(s, x, r, r + |m|);
    SliceOfPrefix(s, y, r, r + |m|);
    FindIsFirst(s + y, m, r);
    var q := Find(s + y, m);
    SliceOfPrefix(s, x, q, q + |m|);
    SliceOfPrefix(s, y, q, q + |m|);
    FindIsFirst(s + x, m, q);
  }

  /** Joining with a separator. */
  function Join(parts: seq<string>, separator: string): string {
    if parts == [] then ""
    else if |parts| == 1 then parts[0]
    else parts[0] + separator + Join(parts[1..], separator)
  }
  /** Rust's `split_once`. */
  function SplitOnce(s: string, c: char): Option<(string, string)> {
    if s == [] then None
    else if s[0] == c then Some(([], s[1..]))
    else match SplitOnce(s[1..], c)
      case None => None
      case Some((a, b)) => Some(([s[0]] + a, b))
  }

  lemma {:induction false} SplitAtFirst(a: string, c: char, b: string)
    requires c !in a
    ensures SplitOnce(a + ([c] + b), c) == Some((a, b))
  {
    var s := a + ([c] + b);
    if a == [] {
      assert s == [c] + b;
    } else {
      assert s[1..] == a[1..] + ([c] + b) && s[0] == a[0];
      SplitAtFirst(a[1..], c, b);
      assert a == [a[0]] + a[1..];
    }
  }

  lemma {:induction false} SplitNowhere(a: string, c: char)
    requires c !in a
    ensures SplitOnce(a, c) == None
  {
    if a != [] { SplitNowhere(a[1..], c); }
  }

  /** Rust's `split`: the pieces between the separators, empty ones included. */
  function SplitAll(s: string, c: char): (parts: seq<string>)
    ensures parts != []
    decreases |s|
  {
    if s == [] then [""]
    else if s[0] == c then [""] + SplitAll(s[1..], c)
    else
      var rest := SplitAll(s[1..], c);
      [[s[0]] + rest[0]] + rest[1..]
  }

  lemma {:induction false} SplitAllFirst(a: string, c: char, b: string)
    requires c !in a
    ensures SplitAll(a, c) == [a]
    ensures SplitAll(a + ([c] + b), c) == [a] + SplitAll(b, c)
  {
    var s := a + ([c] + b);
    if a == [] {
      assert s == [c] + b;
      assert s[1..] == b;
    } else {
      assert s[1..] == a[1..] + ([c] + b) && s[0] == a[0];
      SplitAllFirst(a[1..], c, b);
      assert a == [a[0]] + a[1..];
    }
  }

  /** Splitting joined pieces returns them. */
  lemma {:induction false} SplitOfJoin(parts: seq<string>, c: char)
    requires parts != [] && forall i | 0 <= i < |parts| :: c !in parts[i]
    ensures SplitAll(Join(parts, [c]), c) == parts
  {
    if |parts| == 1 {
      SplitAllFirst(parts[0], c, "");
    } else {
      var rest := Join(parts[1..], [c]);
      SplitOfJoin(parts[1..], c);
      SplitAllFirst(parts[0], c, rest);
      assert parts[0] + [c] + rest == parts[0] + ([c] + rest);
      assert parts == [parts[0]] + parts[1..];
    }
  }
}
