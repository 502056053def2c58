/** What the splitter promises about its own output: every statement splits to
    itself, and rejoined statements split to the same list. */
module SqlRoundTrip {
  import opened Text
  import opened SqlSplitter

  /** What can stand right after a statement once its outer spaces are gone. */
  predicate Boundary(x: string) {
    x == [] || IsSpace(x[0]) || x[0] == ';'
  }

  // ----- a token does not depend on what follows the statement it is in

  lemma {:induction false} EscapedInside(b: string, x: string, y: string)
    requires Boundary(x) && Boundary(y) && x != []
    requires EscapedLen(b + x) <= |b|
    ensures EscapedLen(b + y) == EscapedLen(b + x)
  {
    if b != [] {
      assert (b + x)[1..] == b[1..] + x && (b + y)[1..] == b[1..] + y;
      if |b| > 1 {
        assert (b + x)[2..] == b[2..] + x && (b + y)[2..] == b[2..] + y;
      }
      if b[0] == '\\' || (b[0] == '\'' && |b| > 1 && b[1] == '\'') {
        if |b| > 1 { EscapedInside(b[2..], x, y); }
      } else if b[0] != '\'' {
        EscapedInside(b[1..], x, y);
      }
    }
  }

  lemma {:induction false} EscapedCut(b: string, x: string)
    requires Boundary(x)
    ensures EscapedLen(b) == if EscapedLen(b + x) <= |b| then EscapedLen(b + x) else |b|
  {
    if b != [] {
      assert (b + x)[1..] == b[1..] + x;
      if |b| > 1 { assert (b + x)[2..] == b[2..] + x; }
      if b[0] == '\\' || (b[0] == '\'' && |b| > 1 && b[1] == '\'') {
        if |b| > 1 { EscapedCut(b[2..], x); }
      } else if b[0] != '\'' {
        EscapedCut(b[1..], x);
      }
    }
  }

  lemma BoundaryIsPlain(x: string)
    requires Boundary(x) && x != []
    ensures x[0] != '\'' && x[0] != '"' && x[0] != '*' && x[0] != '/' && x[0] != '\\'
  {
  }

  lemma {:induction false} QuotedStep(b: string, x: string, q: char)
    requires b != [] && Boundary(x) && (q == '\'' || q == '"')
    ensures QuotedLen(b + x, q) ==
      if b[0] == q then if |b| > 1 && b[1] == q then 2 + QuotedLen(b[2..] + x, q) else 1
      else 1 + QuotedLen(b[1..] + x, q)
  {
    if x != [] { BoundaryIsPlain(x); }
    hide Boundary, IsSpace;
    assert (b + x)[0] == b[0] && (b + x)[1..] == b[1..] + x;
    if |b| > 1 {
      assert (b + x)[1] == b[1] && (b + x)[2..] == b[2..] + x;
    } else if x != [] {
      assert (b + x)[1] == x[0];
    }
  }

  lemma QuotedShort(x: string, q: char)
    ensures QuotedLen(x, q) == 0 <==> x == []
  {
  }

  lemma {:induction false} QuotedInside(b: string, x: string, y: string, q: char)
    requires q == '\'' || q == '"'
    requires Boundary(x) && Boundary(y) && x != []
    requires QuotedLen(b + x, q) <= |b|
    ensures QuotedLen(b + y, q) == QuotedLen(b + x, q)
  {
    hide QuotedLen, Boundary;
    if b == [] {
      assert b + x == x;
      QuotedShort(x, q);
    } else {
      QuotedStep(b, x, q);
      QuotedStep(b, y, q);
      if b[0] == q && |b| > 1 && b[1] == q {
        QuotedInside(b[2..], x, y, q);
      } else if b[0] != q {
        QuotedInside(b[1..], x, y, q);
      }
    }
  }

  lemma {:induction false} QuotedCut(b: string, x: string, q: char)
    requires q == '\'' || q == '"'
    requires Boundary(x)
    ensures QuotedLen(b, q) == if QuotedLen(b + x, q) <= |b| then QuotedLen(b + x, q) else |b|
  {
    hide QuotedLen, Boundary;
    if b == [] {
      QuotedShort(b, q);
      QuotedShort(b + x, q);
    } else {
      NothingBounds();
      QuotedStep(b, x, q);
      QuotedStep(b, [], q);
      assert b + [] == b && b[1..] + [] == b[1..];
      if b[0] == q && |b| > 1 && b[1] == q {
        assert b[2..] + [] == b[2..];
        QuotedCut(b[2..], x, q);
      } else if b[0] != q {
        QuotedCut(b[1..], x, q);
      }
    }
  }

  lemma {:induction false} CommentStep(b: string, x: string, depth: nat)
    requires b != [] && depth > 0 && Boundary(x)
    ensures CommentLen(b + x, depth) ==
      if |b| > 1 && b[0] == '/' && b[1] == '*' then 2 + CommentLen(b[2..] + x, depth + 1)
      else if |b| > 1 && b[0] == '*' && b[1] == '/' then 2 + CommentLen(b[2..] + x, depth - 1)
      else 1 + CommentLen(b[1..] + x, depth)
  {
    if x != [] { BoundaryIsPlain(x); }
    hide Boundary, IsSpace;
    assert (b + x)[0] == b[0] && (b + x)[1..] == b[1..] + x;
    if |b| > 1 {
      assert (b + x)[1] == b[1] && (b + x)[2..] == b[2..] + x;
    } else if x != [] {
      assert (b + x)[1] == x[0];
    }
  }

  lemma CommentOfNone(s: string)
    ensures CommentLen(s, 0) == 0
  {
  }

  lemma CommentShort(x: string, depth: nat)
    requires x != [] && depth > 0
    ensures CommentLen(x, depth) > 0
  {
  }

  lemma {:induction false} CommentInside(b: string, x: string, y: string, depth: nat)
    requires Boundary(x) && Boundary(y) && x != []
    requires CommentLen(b + x, depth) <= |b|
    ensures CommentLen(b + y, depth) == CommentLen(b + x, depth)
  {
    hide CommentLen, Boundary;
    if depth == 0 {
      CommentOfNone(b + x);
      CommentOfNone(b + y);
    } else if b == [] {
      assert b + x == x;
      CommentShort(x, depth);
    } else {
      CommentStep(b, x, depth);
      CommentStep(b, y, depth);
      if |b| > 1 && b[0] == '/' && b[1] == '*' {
        CommentInside(b[2..], x, y, depth + 1);
      } else if |b| > 1 && b[0] == '*' && b[1] == '/' {
        CommentInside(b[2..], x, y, depth - 1);
      } else {
        CommentInside(b[1..], x, y, depth);
      }
    }
  }

  lemma CommentOfNothing(depth: nat)
    ensures CommentLen([], depth) == 0
  {
  }

  lemma {:induction false} CommentCut(b: string, x: string, depth: nat)
    requires Boundary(x)
    ensures CommentLen(b, depth) == if CommentLen(b + x, depth) <= |b| then CommentLen(b + x, depth) else |b|
  {
    hide CommentLen, Boundary;
    if depth == 0 {
      CommentOfNone(b);
      CommentOfNone(b + x);
    } else if b == [] {
      CommentOfNothing(depth);
    } else {
      assert Boundary([]) by { NothingBounds(); }
      CommentStep(b, x, depth);
      CommentStep(b, [], depth);
      assert b + [] == b && b[1..] + [] == b[1..];
      if |b| > 1 { assert b[2..] + [] == b[2..]; }
      if |b| > 1 && b[0] == '/' && b[1] == '*' {
        CommentCut(b[2..], x, depth + 1);
      } else if |b| > 1 && b[0] == '*' && b[1] == '/' {
        CommentCut(b[2..], x, depth - 1);
      } else {
        CommentCut(b[1..], x, depth);
      }
    }
  }

  lemma NothingBounds()
    ensures Boundary([])
  {
  }

  lemma {:induction false} TagRunInside(b: string, x: string)
    requires Boundary(x)
    ensures TagRun(b + x) == TagRun(b)
  {
    if b == [] {
      assert b + x == x;
      assert x == [] || !IsTagChar(x[0]);
      assert TagRun(x) == 0;
    } else {
      assert (b + x)[1..] == b[1..] + x;
      TagRunInside(b[1..], x);
    }
  }

  lemma BoundaryIsNoTag(x: string)
    requires Boundary(x) && x != []
    ensures x[0] != '$' && !IsTagStart(x[0]) && !IsTagChar(x[0])
  {
  }

  lemma {:induction false} MarkerInside(a: string, x: string)
    requires a != [] && Boundary(x)
    ensures MarkerLen(a + x) == MarkerLen(a)
  {
    assert (a + x)[1..] == a[1..] + x;
    TagRunInside(a[1..], x);
    if x == [] {
      assert a + x == a;
    } else {
      BoundaryIsNoTag(x);
      hide Boundary, IsSpace, IsTagStart, TagRun;
      var n := TagRun(a[1..]);
      assert (a + x)[0] == a[0];
      assert forall i | 0 <= i < |a| + 1 :: (a + x)[i] == if i < |a| then a[i] else x[0];
    }
  }

  lemma KindInside(p: bool, a: string, x: string)
    requires a != [] && Boundary(x)
    ensures KindAt(p, a + x) == KindAt(p, a)
  {
    MarkerInside(a, x);
  }

  lemma DollarInside(a: string, x: string, y: string, m: nat)
    requires 2 <= m <= |a| && x != [] && DollarLen(a + x, m) <= |a|
    ensures DollarLen(a + y, m) == DollarLen(a + x, m)
  {
    assert (a + x)[m..] == a[m..] + x && (a + y)[m..] == a[m..] + y;
    assert (a + x)[..m] == a[..m] == (a + y)[..m];
    FindIsLocal(a[m..], x, y, a[..m]);
  }

  lemma DollarCut(a: string, x: string, m: nat)
    requires 2 <= m <= |a|
    ensures DollarLen(a, m) == if DollarLen(a + x, m) <= |a| then DollarLen(a + x, m) else |a|
  {
    assert (a + x)[m..] == a[m..] + x && a[m..] == a[m..] + [];
    assert (a + x)[..m] == a[..m];
    if 0 <= Find(a[m..], a[..m]) {
      FindIsLocal(a[m..], [], x, a[..m]);
    } else if x != [] && DollarLen(a + x, m) <= |a| {
      FindIsLocal(a[m..], x, [], a[..m]);
    }
  }

  lemma LineInside(a: string, x: string, y: string)
    requires x != [] && LineLen(a + x) <= |a| && (y == [] || y[0] == '\n')
    ensures LineLen(a + y) == LineLen(a + x)
  {
    var n := LineLen(a + x);
    if n < |a| {
      FindIsLocal(a, x, y, "\n");
    } else {
      LineToEnd(a, x, y);
    }
  }

  /** A line comment that reaches the end of `a` or runs beyond it. */
  lemma LineToEnd(a: string, x: string, y: string)
    requires LineLen(a + x) >= |a| && (y == [] || y[0] == '\n')
    ensures LineLen(a + y) == |a|
  {
    var r := Find(a + y, "\n");
    if 0 <= r < |a| {
      FindIsLocal(a, y, x, "\n");
    }
    if y != [] {
      assert (a + y)[|a|..|a| + 1] == "\n";
      FindIsFirst(a + y, "\n", |a|);
    } else {
      assert a + y == a;
    }
  }

  /** A token that ends inside the statement is the same token whatever follows. */
  lemma TokenInside(p: bool, a: string, x: string, y: string)
    requires a != [] && x != [] && Boundary(x) && (y == [] || y[0] == '\n')
    requires TokenLen(p, a + x) <= |a|
    ensures TokenLen(p, a + y) == TokenLen(p, a + x)
  {
    KindInside(p, a, x);
    KindInside(p, a, y);
    match KindAt(p, a)
    case EString =>
      assert (a + x)[2..] == a[2..] + x && (a + y)[2..] == a[2..] + y;
      EscapedInside(a[2..], x, y);
    case Quoted =>
      assert (a + x)[1..] == a[1..] + x && (a + y)[1..] == a[1..] + y;
      QuotedInside(a[1..], x, y, a[0]);
    case Dollar =>
      MarkerInside(a, x);
      MarkerInside(a, y);
      DollarInside(a, x, y, MarkerLen(a));
    case LineComment => LineInside(a, x, y);
    case BlockComment =>
      assert (a + x)[2..] == a[2..] + x && (a + y)[2..] == a[2..] + y;
      CommentInside(a[2..], x, y, 1);
    case Semicolon =>
    case Plain =>
  }

  /** Cutting the script off after `a` cuts a token that ran beyond it off there, and changes no other. */
  lemma TokenCutOff(p: bool, a: string, x: string)
    requires a != [] && Boundary(x)
    ensures TokenLen(p, a) == if TokenLen(p, a + x) <= |a| then TokenLen(p, a + x) else |a|
  {
    KindInside(p, a, x);
    match KindAt(p, a)
    case EString =>
      assert (a + x)[2..] == a[2..] + x;
      EscapedCut(a[2..], x);
    case Quoted =>
      assert (a + x)[1..] == a[1..] + x;
      QuotedCut(a[1..], x, a[0]);
    case Dollar =>
      MarkerInside(a, x);
      DollarCut(a, x, MarkerLen(a));
    case LineComment =>
      assert a + [] == a;
      if LineLen(a + x) < |a| {
        FindIsLocal(a, x, [], "\n");
      } else {
        LineToEnd(a, x, []);
      }
    case BlockComment =>
      assert (a + x)[2..] == a[2..] + x;
      CommentCut(a[2..], x, 1);
    case Semicolon =>
    case Plain =>
  }

  // ----- only a line comment can end in spaces

  lemma {:induction false} EscapedEnds(s: string)
    requires 0 < EscapedLen(s) < |s|
    ensures s[EscapedLen(s) - 1] == '\''
  {
    if s[0] == '\\' || (s[0] == '\'' && |s| > 1 && s[1] == '\'') {
      assert s[2..] != [];
      EscapedEnds(s[2..]);
    } else if s[0] != '\'' {
      EscapedEnds(s[1..]);
    }
  }

  lemma {:induction false} QuotedEnds(s: string, q: char)
    requires 0 < QuotedLen(s, q) < |s|
    ensures s[QuotedLen(s, q) - 1] == q
  {
    if s[0] == q && |s| > 1 && s[1] == q {
      QuotedEnds(s[2..], q);
    } else if s[0] != q {
      QuotedEnds(s[1..], q);
    }
  }

  lemma {:induction false} CommentEnds(s: string, depth: nat)
    requires depth > 0 && CommentLen(s, depth) < |s|
    ensures CommentLen(s, depth) > 0 && s[CommentLen(s, depth) - 1] == '/'
  {
    if |s| > 1 && s[0] == '/' && s[1] == '*' {
      CommentEnds(s[2..], depth + 1);
    } else if |s| > 1 && s[0] == '*' && s[1] == '/' {
      if depth > 1 { CommentEnds(s[2..], depth - 1); }
    } else {
      CommentEnds(s[1..], depth);
    }
  }

  lemma DollarEnds(p: bool, s: string)
    requires s != [] && TokenLen(p, s) < |s| && KindAt(p, s) == Dollar
    ensures s[TokenLen(p, s) - 1] == '$'
  {
    var m := MarkerLen(s);
    var end := Find(s[m..], s[..m]);
    hide Find;
    assert s[m..][end..end + m] == s[..m];
    assert s[m + end + m - 1] == s[m..][end..end + m][m - 1] == s[m - 1] == '$';
  }

  lemma {:induction false} TokenEnds(p: bool, s: string)
    requires s != [] && 1 < TokenLen(p, s) < |s| && KindAt(p, s) != LineComment
    ensures !IsSpace(s[TokenLen(p, s) - 1])
  {
    match KindAt(p, s)
    case EString => EscapedEnds(s[2..]);
    case Quoted => QuotedEnds(s[1..], s[0]);
    case Dollar => DollarEnds(p, s);
    case BlockComment => CommentEnds(s[2..], 1);
    case Semicolon =>
    case Plain =>
  }

  // ----- the cut after a statement

  lemma FirstCutStops(p: bool, s: string)
    ensures s != [] && s[0] == ';' ==> FirstCut(p, s) == 0
  {
  }

  lemma CutCutOffToken(p: bool, a: string, x: string)
    requires a != [] && Boundary(x) && FirstCut(p, a + x) >= |a|
    ensures a[0] != ';'
    ensures var n := TokenLen(p, a);
      FirstCut(p, a) == n + FirstCut(IsWord(a[n - 1]), a[n..])
      && (n < |a| ==> FirstCut(IsWord(a[n - 1]), a[n..] + x) >= |a| - n)
  {
    hide FirstCut, TokenLen, IsSpace, IsWord;
    assert (a + x)[0] == a[0];
    FirstCutStops(p, a + x);
    FirstCutStep(p, a + x);
    FirstCutStep(p, a);
    TokenCutOff(p, a, x);
    var n := TokenLen(p, a + x);
    if n < |a| {
      assert (a + x)[n..] == a[n..] + x;
      assert (a + x)[n - 1] == a[n - 1];
    }
  }

  /** No semicolon inside `a` separates statements when none does in `a + x`. */
  lemma {:induction false} CutCutOff(p: bool, a: string, x: string)
    requires Boundary(x) && FirstCut(p, a + x) >= |a|
    ensures FirstCut(p, a) == |a|
    decreases |a|
  {
    if a == [] {
      CutOfNothing(p);
    } else {
      hide FirstCut, TokenLen, IsSpace, IsWord;
      CutCutOffToken(p, a, x);
      var n := TokenLen(p, a);
      if n < |a| {
        CutCutOff(IsWord(a[n - 1]), a[n..], x);
      } else {
        assert a[n..] == [];
        CutOfNothing(IsWord(a[n - 1]));
      }
    }
  }

  lemma CutAfterNewline(p: bool, r: string)
    ensures FirstCut(p, "\n;" + r) == 1
  {
    var s := "\n;" + r;
    assert KindAt(p, s) == Plain;
    FirstCutStep(p, s);
    assert s[1..] == [';'] + r;
  }

  /** A statement that a semicolon ended is ended by the next line's semicolon as well. */
  lemma {:induction false} CutMoves(p: bool, a: string, w: string, z: string, r: string)
    requires AllSpace(w) && (a == [] || !IsSpace(a[|a| - 1])) && z != [] && z[0] == ';'
    requires FirstCut(p, a + (w + z)) == |a| + |w|
    ensures FirstCut(p, a + ("\n;" + r)) == |a| + 1
    decreases |a|
  {
    hide FirstCut, TokenLen, IsSpace;
    var x, y := w + z, "\n;" + r;
    if a == [] {
      assert a + y == y;
      CutAfterNewline(p, r);
    } else {
      var n := TokenLen(p, a + x);
      CutMovesToken(p, a, x, y, |a| + |w|);
      if n <= |a| {
        CutMoves(IsWord(a[n - 1]), a[n..], w, z, r);
        TokenInside(p, a, x, y);
        assert (a + y)[n..] == a[n..] + y;
      } else {
        CommentAtEnd(p, a, w, z, y);
        assert a[|a|..] + y == y;
        CutAfterNewline(IsWord(a[|a| - 1]), r);
      }
    }
  }

  lemma CutMovesToken(p: bool, a: string, x: string, y: string, cut: nat)
    requires a != [] && FirstCut(p, a + x) == cut && cut >= |a|
    ensures a[0] != ';'
    ensures var n := TokenLen(p, a + x);
      (n <= |a| ==> FirstCut(IsWord(a[n - 1]), a[n..] + x) == cut - n)
      && (n > |a| ==> n <= cut)
    ensures var n := TokenLen(p, a + y);
      n <= |a| ==> FirstCut(p, a + y) == n + FirstCut(IsWord(a[n - 1]), a[n..] + y)
  {
    hide FirstCut, TokenLen;
    FirstCutStops(p, a + x);
    FirstCutStep(p, a + x);
    FirstCutStep(p, a + y);
    var n := TokenLen(p, a + x);
    if n <= |a| {
      assert (a + x)[n..] == a[n..] + x;
      assert (a + x)[n - 1] == a[n - 1];
    }
    var m := TokenLen(p, a + y);
    if m <= |a| {
      assert (a + y)[m..] == a[m..] + y;
      assert (a + y)[m - 1] == a[m - 1];
    }
  }

  /** A token that runs from a statement into the spaces behind it is a line comment. */
  lemma CommentAtEnd(p: bool, a: string, w: string, rest: string, y: string)
    requires a != [] && !IsSpace(a[|a| - 1]) && AllSpace(w) && rest != [] && rest[0] == ';'
    requires y != [] && y[0] == '\n'
    requires |a| < TokenLen(p, a + (w + rest)) <= |a| + |w|
    ensures TokenLen(p, a + y) == |a|
  {
    var x := w + rest;
    var n := TokenLen(p, a + x);
    KindInside(p, a, x);
    KindInside(p, a, y);
    assert (a + x)[n - 1] == w[n - 1 - |a|];
    if KindAt(p, a + x) != LineComment { TokenEnds(p, a + x); }
    LineToEnd(a, x, y);
  }

  lemma SpaceIsPlain(s: string)
    requires s != [] && IsSpace(s[0])
    ensures TokenLen(false, s) == 1 && !IsWord(s[0])
  {
  }

  /** Spaces before a statement move its end along. */
  lemma {:induction false} CutAfterSpaces(w: string, s: string)
    requires AllSpace(w)
    ensures FirstCut(false, w + s) == |w| + FirstCut(false, s)
  {
    if w == [] {
      assert w + s == s;
    } else {
      hide FirstCut;
      var t := w + s;
      assert t[0] == w[0];
      SpaceIsPlain(t);
      FirstCutStep(false, t);
      assert t[1..] == w[1..] + s;
      CutAfterSpaces(w[1..], s);
    }
  }

  // ----- the two theorems

  /** A statement that can stand alone. */
  predicate Stands(t: string) {
    t != [] && Trimmed(t) && FirstCut(false, t) == |t|
  }

  /** A statement that a semicolon on the next line ends. */
  ghost predicate Ends(t: string) {
    forall r :: FirstCut(false, t + ("\n;" + r)) == |t| + 1
  }

  ghost predicate WellSplit(ts: seq<string>) {
    forall k | 0 <= k < |ts| :: Stands(ts[k]) && (k + 1 < |ts| ==> Ends(ts[k]))
  }

  lemma SpacesBound(right: string, z: string)
    requires AllSpace(right) && (z == [] || z[0] == ';')
    ensures Boundary(right + z)
  {
  }

  /** The text between two cuts, or from the last one to the end of the script. */
  lemma PieceStands(s: string, cut: nat)
    requires cut == FirstCut(false, s) && Trim(s[..cut]) != []
    ensures Stands(Trim(s[..cut]))
    ensures cut < |s| ==> Ends(Trim(s[..cut]))
  {
    hide FirstCut, Trim, IsSpace, AllSpace, Boundary, Ends;
    var left, right := TrimSplits(s[..cut]);
    var t := Trim(s[..cut]);
    var z := s[cut..];
    SpacesBound(right, z);
    assert s == left + (t + (right + z));
    CutAfterSpaces(left, t + (right + z));
    CutCutOff(false, t, right + z);
    if cut < |s| { PieceEnds(t, right, z); }
  }

  lemma PieceEnds(t: string, right: string, z: string)
    requires Trimmed(t) && AllSpace(right) && z != [] && z[0] == ';'
    requires FirstCut(false, t + (right + z)) == |t| + |right|
    ensures Ends(t)
  {
    hide FirstCut, IsSpace, AllSpace;
    forall r ensures FirstCut(false, t + ("\n;" + r)) == |t| + 1 {
      CutMoves(false, t, right, z, r);
    }
  }

  lemma WellSplitAppends(t: string, more: seq<string>)
    requires WellSplit(more)
    requires Trim(t) != [] ==> Stands(Trim(t)) && Ends(Trim(t))
    ensures WellSplit(Piece(t) + more)
  {
    hide Stands, Ends, Trim;
    if Trim(t) != [] {
      var ts := [Trim(t)] + more;
      assert forall k | 1 <= k < |ts| :: ts[k] == more[k - 1];
    } else {
      assert Piece(t) + more == more;
    }
  }

  lemma LastStands(t: string)
    requires Trim(t) != [] ==> Stands(Trim(t))
    ensures WellSplit(Piece(t))
  {
    hide Stands, Ends, Trim;
  }

  lemma {:induction false} SplitIsWellSplit(s: string)
    ensures WellSplit(Split(s))
    decreases |s|
  {
    hide FirstCut, Split, Trim, Stands, Ends, WellSplit, Piece;
    var cut := FirstCut(false, s);
    SplitUnfolds(s, cut);
    assert s[..|s|] == s;
    if Trim(s[..cut]) != [] { PieceStands(s, cut); }
    if cut < |s| {
      SplitIsWellSplit(s[cut + 1..]);
      WellSplitAppends(s[..cut], Split(s[cut + 1..]));
    } else {
      LastStands(s);
    }
  }

  lemma StandsAlone(t: string)
    requires Stands(t)
    ensures Split(t) == [t]
  {
    hide FirstCut, Trim, Split;
    SplitUnfolds(t, |t|);
    assert "" + t + "" == t;
    assert AllSpace("");
    TrimFinds("", t, "");
  }

  /** Every statement the splitter returns splits to just itself. */
  lemma StatementsSplitToThemselves(s: string, k: nat)
    requires k < |Split(s)|
    ensures Split(Split(s)[k]) == [Split(s)[k]]
  {
    SplitIsWellSplit(s);
    StandsAlone(Split(s)[k]);
  }

  lemma TrimAfterSpaces(w: string, s: string)
    requires AllSpace(w)
    ensures Trim(w + s) == Trim(s)
  {
    var left, right := TrimSplits(s);
    TrimFinds(w + left, Trim(s), right);
    assert w + s == (w + left) + Trim(s) + right;
  }

  /** Spaces before a script change none of its statements. */
  lemma SplitAfterSpaces(w: string, s: string)
    requires AllSpace(w)
    ensures Split(w + s) == Split(s)
  {
    hide FirstCut, Split, Trim, AllSpace;
    var cut := FirstCut(false, s);
    var t := w + s;
    CutAfterSpaces(w, s);
    SplitUnfolds(s, cut);
    SplitUnfolds(t, |w| + cut);
    if cut < |s| {
      assert t[..|w| + cut] == w + s[..cut];
      assert t[|w| + cut + 1..] == s[cut + 1..];
      TrimAfterSpaces(w, s[..cut]);
    } else {
      TrimAfterSpaces(w, s);
    }
  }

  lemma SplitFirst(t: string, more: string)
    requires Stands(t) && Ends(t)
    ensures Split(t + ("\n;" + ("\n" + more))) == [t] + Split(more)
  {
    hide FirstCut, Split, Trim, IsSpace;
    var s := t + ("\n;" + ("\n" + more));
    assert FirstCut(false, s) == |t| + 1;
    SplitUnfolds(s, |t| + 1);
    assert s[..|t| + 1] == "" + t + "\n";
    assert IsSpace('\n') by { NewlineIsSpace(); }
    TrimFinds("", t, "\n");
    assert s[|t| + 2..] == "\n" + more;
    assert AllSpace("\n") by { NewlineIsSpace(); }
    SplitAfterSpaces("\n", more);
  }

  lemma NewlineIsSpace()
    ensures IsSpace('\n')
  {
  }

  // ----- the spaces around a statement

  lemma SpaceIsPlainAfter(p: bool, s: string)
    requires s != [] && IsSpace(s[0])
    ensures TokenLen(p, s) == 1 && !IsWord(s[0]) && s[0] != ';'
  {
  }

  lemma CutOfSpaces(p: bool, w: string)
    requires AllSpace(w)
    ensures FirstCut(p, w) == |w|
  {
    CutOfNothing(p);
    if w != [] {
      hide FirstCut;
      SpaceIsPlainAfter(p, w);
      FirstCutStep(p, w);
      CutAfterSpaces(w[1..], "");
      CutOfNothing(false);
      assert w[1..] + "" == w[1..];
    }
  }

  /** A token that runs into the spaces behind `a` is followed by spaces alone. */
  lemma CutInSpaces(p: bool, a: string, w: string)
    requires a != [] && a[0] != ';' && AllSpace(w) && TokenLen(p, a + w) > |a|
    ensures FirstCut(p, a + w) == |a + w|
  {
    hide FirstCut, TokenLen, IsWord;
    var s := a + w;
    var n := TokenLen(p, s);
    FirstCutStep(p, s);
    assert s[n..] == w[n - |a|..];
    CutOfSpaces(IsWord(s[n - 1]), w[n - |a|..]);
  }

  /** Spaces behind a text without a cut are no cut either. */
  lemma {:induction false} CutThroughSpaces(p: bool, a: string, w: string)
    requires FirstCut(p, a) == |a| && AllSpace(w)
    ensures FirstCut(p, a + w) == |a + w|
    decreases |a|
  {
    hide FirstCut, TokenLen, IsWord, AllSpace, Boundary;
    if a == [] {
      assert a + w == w;
      CutOfSpaces(p, w);
    } else {
      var s := a + w;
      FirstCutStops(p, a);
      SpacesBound(w, []);
      assert w + [] == w;
      TokenCutOff(p, a, w);
      var n := TokenLen(p, s);
      if n > |a| {
        CutInSpaces(p, a, w);
      } else {
        FirstCutStep(p, a);
        FirstCutStep(p, s);
        assert s[n..] == a[n..] + w && s[n - 1] == a[n - 1];
        CutThroughSpaces(IsWord(a[n - 1]), a[n..], w);
      }
    }
  }

  lemma StandsMeans(t: string)
    requires Stands(t)
    ensures t != [] && Trimmed(t) && FirstCut(false, t) == |t|
  {
  }

  /** A statement that can stand alone is found between any spaces. */
  lemma SpacedStatement(left: string, t: string, right: string)
    requires Stands(t) && AllSpace(left) && AllSpace(right)
    ensures Split(left + t + right) == [t]
  {
    StandsMeans(t);
    hide FirstCut, Split, Trim, AllSpace, Stands, Trimmed;
    var s := left + t + right;
    assert s == left + (t + right);
    CutThroughSpaces(false, t, right);
    CutAfterSpaces(left, t + right);
    SplitUnfolds(s, |s|);
    TrimFinds(left, t, right);
  }

  /** A semicolon at the top level ends the statement before it, whatever the spaces between
      them, and the statements after it are those of what follows. */
  lemma StatementBeforeSemicolon(left: string, t: string, right: string, r: string)
    requires t != [] && Trimmed(t) && AllSpace(left) && AllSpace(right)
    requires FirstCut(false, left + t + right + ";" + r) == |left + t + right|
    ensures Split(left + t + right + ";" + r) == [t] + Split(r)
  {
    hide FirstCut, Split, Trim, AllSpace, Trimmed;
    var a := left + t + right;
    var s := a + ";" + r;
    SplitUnfolds(s, |a|);
    assert s[..|a|] == a && s[|a| + 1..] == r;
    TrimFinds(left, t, right);
  }

  /** Only spaces and semicolons hold no statement. */
  lemma {:induction false} NoStatement(s: string)
    ensures Split(s) == [] <==> forall i | 0 <= i < |s| :: IsSpace(s[i]) || s[i] == ';'
    decreases |s|
  {
    hide FirstCut, Split, Trim, IsSpace, AllSpace;
    var cut := FirstCut(false, s);
    SplitUnfolds(s, cut);
    var left, right := TrimSplits(s[..cut]);
    if Trim(s[..cut]) == [] {
      SpacesOfTwo(left, right, s[..cut]);
      if cut < |s| {
        NoStatement(s[cut + 1..]);
        assert forall i | 0 <= i < |s| :: s[i] == if i < cut then s[..cut][i]
                                                  else if i == cut then ';' else s[cut + 1..][i - cut - 1];
        RestOfSeq(s, cut + 1);
      } else {
        assert s[..cut] == s;
      }
    } else {
      var t := Trim(s[..cut]);
      assert s[..|s|] == s;
      assert Split(s) != [];
      TrimmedStarts(t);
      assert s[..cut][|left|] == t[0] && s[|left|] == t[0];
      NoSemicolon(s, cut, left, t, right);
    }
  }

  lemma RestOfSeq(s: string, n: nat)
    requires n <= |s|
    ensures forall i | n <= i < |s| :: s[i] == s[n..][i - n]
    ensures forall i | 0 <= i < |s[n..]| :: s[n..][i] == s[i + n]
  {
  }

  lemma SpacesOfTwo(left: string, right: string, s: string)
    requires AllSpace(left) && AllSpace(right) && s == left + [] + right
    ensures forall i | 0 <= i < |s| :: IsSpace(s[i])
  {
  }

  lemma TrimmedStarts(t: string)
    requires t != [] && Trimmed(t)
    ensures !IsSpace(t[0])
  {
  }

  lemma NoSemicolon(s: string, cut: nat, left: string, t: string, right: string)
    requires cut == FirstCut(false, s) && s[..cut] == left + t + right && AllSpace(left) && t != []
    ensures t[0] != ';'
  {
    hide FirstCut;
    if t[0] == ';' {
      assert s == left + (t + right + s[cut..]);
      CutAfterSpaces(left, t + right + s[cut..]);
      FirstCutStops(false, t + right + s[cut..]);
      assert false;
    }
  }

  /** The white space of ECMAScript and its line terminators. */
  const SPACES: string := "\t\n\U{000B}\U{000C}\r \U{00A0}\U{1680}\U{2000}\U{2001}\U{2002}\U{2003}\U{2004}"
    + "\U{2005}\U{2006}\U{2007}\U{2008}\U{2009}\U{200A}\U{2028}\U{2029}\U{202F}\U{205F}\U{3000}\U{FEFF}"

  /** A script of one character is that statement, unless the character is a semicolon or white space. */
  lemma OneCharacter(c: char)
    ensures Split([c]) == if c == ';' || c in SPACES then [] else [[c]]
  {
    SpacesAre(c);
    hide Split, FirstCut, IsSpace;
    NoStatement([c]);
    if c == ';' || c in SPACES {
      assert forall i | 0 <= i < 1 :: IsSpace([c][i]) || [c][i] == ';';
    } else {
      assert [c][0] == c;
      OneStands(c);
      StandsAlone([c]);
    }
  }

  lemma SpacesAre(c: char)
    ensures IsSpace(c) <==> c in SPACES
  {
  }

  lemma OneStands(c: char)
    requires c != ';' && !IsSpace(c)
    ensures Stands([c])
  {
    FirstCutStep(false, [c]);
    CutOfNothing(IsWord(c));
    assert [c][1..] == [];
  }

  /** The characters of a dollar tag, and those after which none starts, by their code points. */
  lemma TagCharacters(c: char)
    ensures var n := c as int;
      var letter := 65 <= n <= 90 || 97 <= n <= 122;
      && (IsTagStart(c) <==> letter || n == 95)
      && (IsTagChar(c) <==> letter || n == 95 || 48 <= n <= 57)
      && (IsWord(c) <==> letter || n == 95 || 48 <= n <= 57 || n == 36)
  {
  }

  lemma SplitNothing()
    ensures Split("") == []
  {
  }

  lemma WellSplitRest(ts: seq<string>)
    requires WellSplit(ts) && |ts| > 1
    ensures WellSplit(ts[1..]) && Stands(ts[0]) && Ends(ts[0])
  {
    hide Stands, Ends;
    forall k | 0 <= k < |ts[1..]|
      ensures Stands(ts[1..][k]) && (k + 1 < |ts[1..]| ==> Ends(ts[1..][k]))
    {
      assert ts[1..][k] == ts[k + 1];
    }
  }

  lemma JoinFirst(ts: seq<string>)
    requires |ts| > 1
    ensures Join(ts, "\n;\n") == ts[0] + ("\n;" + ("\n" + Join(ts[1..], "\n;\n")))
  {
  }

  lemma {:induction false} RejoinWellSplit(ts: seq<string>)
    requires WellSplit(ts)
    ensures Split(Join(ts, "\n;\n")) == ts
  {
    if ts == [] {
      SplitNothing();
    } else if |ts| == 1 {
      StandsAlone(ts[0]);
    } else {
      hide FirstCut, Split, Stands, Ends, Join, WellSplit;
      var t, more := ts[0], Join(ts[1..], "\n;\n");
      WellSplitRest(ts);
      RejoinWellSplit(ts[1..]);
      JoinFirst(ts);
      SplitFirst(t, more);
    }
  }

  /** Rejoining the statements of a script, each followed by a line that holds a
      semicolon, gives a script with the same statements: a statement that ends in a
      line comment stays apart, and an unterminated tail stays the tail. */
  lemma RejoinedScriptSplitsTheSame(s: string)
    ensures Split(Join(Split(s), "\n;\n")) == Split(s)
  {
    SplitIsWellSplit(s);
    RejoinWellSplit(Split(s));
  }
}
