/** The token grammar of a script, stated on the text of each token with no index,
    and the proof that the splitter's loop cuts at exactly the semicolons that the
    grammar derives outside every string, quoted name and comment. */
module SqlGrammar {
  import opened Text
  import opened SqlSplitter

  datatype Token = Token(kind: Kind, text: string)

  // ----- what each kind of token looks like

  /** The inside of a closed E-string: a backslash with what it escapes, a doubled quote, or any other character. */
  predicate EscapedBody(b: string) {
    || b == []
    || (|b| > 1 && b[0] == '\\' && EscapedBody(b[2..]))
    || (|b| > 1 && b[0] == '\'' && b[1] == '\'' && EscapedBody(b[2..]))
    || (b[0] != '\\' && b[0] != '\'' && EscapedBody(b[1..]))
  }

  /** The inside of a string or quoted name: doubled quotes and characters that are no quote. */
  predicate QuotedBody(b: string, q: char) {
    || b == []
    || (|b| > 1 && b[0] == q && b[1] == q && QuotedBody(b[2..], q))
    || (b[0] != q && QuotedBody(b[1..], q))
  }

  /** `$$`, or a tag between two dollar signs. */
  predicate IsMarker(m: string) {
    && |m| >= 2 && m[0] == '$' && m[|m| - 1] == '$'
    && (|m| > 2 ==> IsTagStart(m[1]))
    && forall i | 1 <= i < |m| - 1 :: IsTagChar(m[i])
  }

  ghost predicate Occurs(m: string, s: string, k: nat) {
    k + |m| <= |s| && s[k..k + |m|] == m
  }

  /** `b` closes its `depth` open comments, the last of them with its last two characters. */
  predicate ClosesComments(b: string, depth: nat) {
    if |b| > 1 && b[0] == '/' && b[1] == '*' then ClosesComments(b[2..], depth + 1)
    else if |b| > 1 && b[0] == '*' && b[1] == '/' then
      if depth <= 1 then depth == 1 && |b| == 2 else ClosesComments(b[2..], depth - 1)
    else b != [] && depth > 0 && ClosesComments(b[1..], depth)
  }

  /** `b` leaves at least one of its `depth` open comments open. */
  predicate LeavesOpen(b: string, depth: nat) {
    && depth > 0
    && if b == [] then true
       else if |b| > 1 && b[0] == '/' && b[1] == '*' then LeavesOpen(b[2..], depth + 1)
       else if |b| > 1 && b[0] == '*' && b[1] == '/' then LeavesOpen(b[2..], depth - 1)
       else LeavesOpen(b[1..], depth)
  }

  predicate OpensEString(x: string) {
    |x| > 1 && (x[0] == 'e' || x[0] == 'E') && x[1] == '\''
  }

  predicate StartsWith(s: string, c: char) {
    s != [] && s[0] == c
  }

  /** `x` is a token of kind `k` before `rest`; `p` says that a word character precedes
      it. A token may lack its end only where the script ends. */
  ghost predicate IsToken(p: bool, k: Kind, x: string, rest: string) {
    match k
    case EString =>
      && !p && OpensEString(x)
      && (|| (|x| > 2 && x[|x| - 1] == '\'' && EscapedBody(x[2..|x| - 1]) && !StartsWith(rest, '\''))
          || (rest == [] && EscapedBody(x[2..]))
          || (rest == [] && |x| > 2 && x[|x| - 1] == '\\' && EscapedBody(x[2..|x| - 1])))
    case Quoted =>
      && x != [] && (x[0] == '\'' || x[0] == '"')
      && (|| (|x| > 1 && x[|x| - 1] == x[0] && QuotedBody(x[1..|x| - 1], x[0]) && !StartsWith(rest, x[0]))
          || (rest == [] && QuotedBody(x[1..], x[0])))
    case Dollar =>
      && !p
      && exists m: nat | m <= |x| :: IsMarker(x[..m]) && IsDollarQuoted(x, m, rest)
    case LineComment =>
      && |x| > 1 && x[0] == '-' && x[1] == '-'
      && '\n' !in x && (rest == [] || rest[0] == '\n')
    case BlockComment =>
      && |x| > 1 && x[0] == '/' && x[1] == '*'
      && (ClosesComments(x[2..], 1) || (rest == [] && LeavesOpen(x[2..], 1)))
    case Semicolon => x == ";"
    case Plain =>
      && |x| == 1 && x[0] != ';' && x[0] != '\'' && x[0] != '"'
      && (OpensEString(x + rest) ==> p)
      && (x[0] == '$' && !p ==> forall m: nat | m <= |x + rest| :: !IsMarker((x + rest)[..m]))
      && !(x[0] == '-' && StartsWith(rest, '-'))
      && !(x[0] == '/' && StartsWith(rest, '*'))
  }

  /** The marker comes back once, at the end; or never, and the script ends. */
  ghost predicate IsDollarQuoted(x: string, m: nat, rest: string)
    requires m <= |x|
  {
    || (|x| >= 2 * m && Occurs(x[..m], x[m..], |x| - 2 * m)
        && forall k: nat | k < |x| - 2 * m :: !Occurs(x[..m], x[m..], k))
    || (rest == [] && forall k: nat :: !Occurs(x[..m], x[m..], k))
  }

  /** `ts` is a derivation of the script `s`. */
  ghost predicate Derives(p: bool, s: string, ts: seq<Token>)
    decreases |ts|
  {
    if ts == [] then s == []
    else
      var x := ts[0].text;
      && x != [] && x <= s
      && IsToken(p, ts[0].kind, x, s[|x|..])
      && Derives(IsWord(x[|x| - 1]), s[|x|..], ts[1..])
  }

  /** The statements of a derivation: the texts between its semicolons, trimmed, unless empty. */
  function StatementsOf(ts: seq<Token>, before: string): seq<string> {
    if ts == [] then Piece(before)
    else if ts[0].kind == Semicolon then Piece(before) + StatementsOf(ts[1..], "")
    else StatementsOf(ts[1..], before + ts[0].text)
  }

  // ----- a token by the grammar is what the loop skips

  lemma {:induction false} EscapedClosed(b: string, rest: string)
    requires EscapedBody(b) && !StartsWith(rest, '\'')
    ensures EscapedLen(b + ("'" + rest)) == |b| + 1
  {
    var z := "'" + rest;
    if b == [] {
      assert b + z == z;
    } else if |b| > 1 && (b[0] == '\\' || b[0] == '\'') {
      assert (b + z)[2..] == b[2..] + z;
      EscapedClosed(b[2..], rest);
    } else {
      assert (b + z)[1..] == b[1..] + z;
      EscapedClosed(b[1..], rest);
    }
  }

  lemma {:induction false} EscapedOpen(b: string, z: string)
    requires EscapedBody(b) && (z == [] || z == "\\")
    ensures EscapedLen(b + z) == |b + z|
  {
    if b == [] {
      assert b + z == z;
    } else if |b| > 1 && (b[0] == '\\' || b[0] == '\'') {
      assert (b + z)[2..] == b[2..] + z;
      EscapedOpen(b[2..], z);
    } else {
      assert (b + z)[1..] == b[1..] + z;
      EscapedOpen(b[1..], z);
    }
  }

  lemma EscapedBodyGrows(c: char, b: string)
    requires EscapedBody(b)
    ensures EscapedBody(['\\', c] + b) && EscapedBody("\'\'" + b)
    ensures c != '\\' && c != '\'' ==> EscapedBody([c] + b)
  {
    assert (['\\', c] + b)[2..] == b && ("\'\'" + b)[2..] == b && ([c] + b)[1..] == b;
  }

  /** What an escape, a doubled quote or a plain character at the front of `s` adds to a body. */
  lemma EscapedBodyGrowsAt(s: string, d: nat, b: string)
    requires EscapedBody(b) && s != []
    requires if s[0] == '\\' then |s| > 1 && d == 2
             else if s[0] == '\'' then |s| > 1 && s[1] == '\'' && d == 2
             else d == 1
    ensures EscapedBody(s[..d] + b)
  {
    if s[0] == '\\' {
      EscapedBodyGrows(s[1], b);
      assert s[..2] == ['\\', s[1]];
    } else if s[0] == '\'' {
      EscapedBodyGrows(s[1], b);
      assert s[..2] == "\'\'";
    } else {
      EscapedBodyGrows(s[0], b);
      assert s[..1] == [s[0]];
    }
  }

  /** The first `n` characters of `s` are an E-string's inside with its closing quote, or
      the inside of one that the script cuts off. */
  ghost predicate EscapedStops(s: string, n: nat) {
    n <= |s| &&
    (|| (0 < n && s[n - 1] == '\'' && EscapedBody(s[..n - 1]) && !StartsWith(s[n..], '\''))
     || (n == |s| && EscapedBody(s))
     || (n == |s| > 0 && s[n - 1] == '\\' && EscapedBody(s[..n - 1])))
  }

  lemma EscapedStopsLater(s: string, d: nat, n: nat)
    requires s != [] && d <= n && d <= |s| && EscapedStops(s[d..], n - d)
    requires if s[0] == '\\' then |s| > 1 && d == 2
             else if s[0] == '\'' then |s| > 1 && s[1] == '\'' && d == 2
             else d == 1
    ensures EscapedStops(s, n)
  {
    hide EscapedBody, StartsWith;
    var t := s[d..];
    assert s[n..] == t[n - d..];
    if n == |s| && EscapedBody(t) {
      EscapedBodyGrowsAt(s, d, t);
      assert s == s[..d] + t;
    } else {
      EscapedBodyGrowsAt(s, d, t[..n - d - 1]);
      assert s[..n - 1] == s[..d] + t[..n - d - 1];
    }
  }

  lemma EscapedStopsShort(s: string)
    requires s == [] || (s[0] == '\\' && |s| == 1) || (s[0] == '\'' && (|s| == 1 || s[1] != '\''))
    ensures EscapedStops(s, EscapedLen(s))
  {
    if s != [] { assert s[..0] == []; }
  }

  lemma {:induction false} EscapedShape(s: string)
    ensures EscapedStops(s, EscapedLen(s))
  {
    hide EscapedStops;
    if s == [] || (s[0] == '\\' && |s| == 1) || (s[0] == '\'' && (|s| == 1 || s[1] != '\'')) {
      EscapedStopsShort(s);
    } else {
      var d := if s[0] == '\\' || s[0] == '\'' then 2 else 1;
      EscapedShape(s[d..]);
      EscapedStopsLater(s, d, EscapedLen(s));
    }
  }

  lemma {:induction false} QuotedClosed(b: string, q: char, rest: string)
    requires QuotedBody(b, q) && !StartsWith(rest, q)
    ensures QuotedLen(b + ([q] + rest), q) == |b| + 1
  {
    var z := [q] + rest;
    if b == [] {
      assert b + z == z;
    } else if b[0] == q {
      assert (b + z)[2..] == b[2..] + z;
      QuotedClosed(b[2..], q, rest);
    } else {
      assert (b + z)[1..] == b[1..] + z;
      QuotedClosed(b[1..], q, rest);
    }
  }

  lemma {:induction false} QuotedOpen(b: string, q: char)
    requires QuotedBody(b, q)
    ensures QuotedLen(b, q) == |b|
  {
    if b == [] {
    } else if b[0] == q {
      QuotedOpen(b[2..], q);
    } else {
      QuotedOpen(b[1..], q);
    }
  }

  lemma QuotedBodyGrows(c: char, b: string, q: char)
    requires QuotedBody(b, q)
    ensures QuotedBody([q, q] + b, q)
    ensures c != q ==> QuotedBody([c] + b, q)
  {
    assert ([q, q] + b)[2..] == b && ([c] + b)[1..] == b;
  }

  /** The same for a string or a name between quotes `q`. */
  ghost predicate QuotedStops(s: string, q: char, n: nat) {
    n <= |s| &&
    (|| (0 < n && s[n - 1] == q && QuotedBody(s[..n - 1], q) && !StartsWith(s[n..], q))
     || (n == |s| && QuotedBody(s, q)))
  }

  lemma QuotedStopsLater(s: string, q: char, d: nat, n: nat)
    requires s != [] && d <= n && d <= |s| && QuotedStops(s[d..], q, n - d)
    requires if s[0] == q then |s| > 1 && s[1] == q && d == 2 else d == 1
    ensures QuotedStops(s, q, n)
  {
    hide QuotedBody, StartsWith;
    var t := s[d..];
    assert s[n..] == t[n - d..];
    var front := s[..d];
    assert front == if d == 2 then [q, q] else [s[0]];
    if n == |s| && QuotedBody(t, q) {
      QuotedBodyGrows(s[0], t, q);
      assert s == front + t;
    } else {
      QuotedBodyGrows(s[0], t[..n - d - 1], q);
      assert s[..n - 1] == front + t[..n - d - 1];
    }
  }

  lemma QuotedStopsShort(s: string, q: char)
    requires s == [] || (s[0] == q && (|s| == 1 || s[1] != q))
    ensures QuotedStops(s, q, QuotedLen(s, q))
  {
    if s != [] { assert s[..0] == []; }
  }

  lemma {:induction false} QuotedShape(s: string, q: char)
    ensures QuotedStops(s, q, QuotedLen(s, q))
  {
    hide QuotedStops;
    if s == [] || (s[0] == q && (|s| == 1 || s[1] != q)) {
      QuotedStopsShort(s, q);
    } else {
      var d := if s[0] == q then 2 else 1;
      QuotedShape(s[d..], q);
      QuotedStopsLater(s, q, d, QuotedLen(s, q));
    }
  }

  lemma {:induction false} CommentClosed(b: string, depth: nat, rest: string)
    requires depth > 0 && ClosesComments(b, depth)
    ensures CommentLen(b + rest, depth) == |b|
  {
    assert |b| > 1 ==> (b + rest)[2..] == b[2..] + rest;
    assert (b + rest)[1..] == b[1..] + rest;
    if |b| > 1 && b[0] == '/' && b[1] == '*' {
      CommentClosed(b[2..], depth + 1, rest);
    } else if |b| > 1 && b[0] == '*' && b[1] == '/' {
      if depth > 1 { CommentClosed(b[2..], depth - 1, rest); }
    } else {
      assert |b| > 1;
      CommentClosed(b[1..], depth, rest);
    }
  }

  lemma {:induction false} CommentOpen(b: string, depth: nat)
    requires LeavesOpen(b, depth)
    ensures CommentLen(b, depth) == |b|
  {
    if b == [] {
    } else if |b| > 1 && b[0] == '/' && b[1] == '*' {
      CommentOpen(b[2..], depth + 1);
    } else if |b| > 1 && b[0] == '*' && b[1] == '/' {
      CommentOpen(b[2..], depth - 1);
    } else {
      CommentOpen(b[1..], depth);
    }
  }

  lemma {:induction false} CommentShape(s: string, depth: nat)
    requires depth > 0
    ensures var n := CommentLen(s, depth);
      || ClosesComments(s[..n], depth)
      || (n == |s| && LeavesOpen(s, depth))
  {
    var n := CommentLen(s, depth);
    if s == [] {
    } else if |s| > 1 && s[0] == '/' && s[1] == '*' {
      CommentShape(s[2..], depth + 1);
      assert s[..n][2..] == s[2..][..n - 2];
    } else if |s| > 1 && s[0] == '*' && s[1] == '/' {
      if depth > 1 {
        CommentShape(s[2..], depth - 1);
        assert s[..n][2..] == s[2..][..n - 2];
      }
    } else {
      CommentShape(s[1..], depth);
      assert s[..n][1..] == s[1..][..n - 1];
    }
  }

  lemma TagRunIs(s: string, n: nat)
    requires n <= |s| && forall i | 0 <= i < n :: IsTagChar(s[i])
    requires n < |s| ==> !IsTagChar(s[n])
    ensures TagRun(s) == n
  {
    var r := TagRun(s);
    assert !(r < n) && !(n < r);
  }

  /** The tag pattern matches exactly a marker, and at most one prefix is a marker. */
  lemma MarkerIs(s: string, m: nat)
    requires m <= |s|
    ensures IsMarker(s[..m]) <==> m > 0 && MarkerLen(s) == m
  {
    var n := MarkerLen(s);
    if IsMarker(s[..m]) {
      forall i | 1 <= i < m - 1 ensures IsTagChar(s[i]) { assert s[..m][i] == s[i]; }
      assert s[m - 1] == s[..m][m - 1] == '$';
      if m > 2 {
        forall i | 0 <= i < m - 2 ensures IsTagChar(s[1..][i]) { assert s[1..][i] == s[i + 1]; }
        assert s[1] == s[..m][1];
        TagRunIs(s[1..], m - 2);
      }
    }
    if m > 0 && n == m {
      forall i | 1 <= i < m - 1 ensures IsTagChar(s[..m][i]) {
        assert s[..m][i] == s[1..][i - 1];
      }
    }
  }

  lemma MarkerOfPrefix(x: string, rest: string, m: nat)
    requires m <= |x| && IsMarker(x[..m])
    ensures MarkerLen(x + rest) == m
  {
    assert (x + rest)[..m] == x[..m];
    MarkerIs(x + rest, m);
  }

  lemma DollarTaken(x: string, m: nat, rest: string)
    requires 2 <= m <= |x| && IsDollarQuoted(x, m, rest)
    ensures DollarLen(x + rest, m) == |x|
  {
    hide Find;
    var s, body, marker := x + rest, x[m..], x[..m];
    assert s[m..] == body + rest && s[..m] == marker;
    assert body + [] == body;
    if rest == [] && forall k: nat :: !Occurs(marker, body, k) {
      assert Find(body, marker) >= 0 ==> Occurs(marker, body, Find(body, marker));
    } else {
      FindIsFirst(body, marker, |x| - 2 * m);
      assert Occurs(marker, body, Find(body, marker));
      FindIsLocal(body, [], rest, marker);
    }
  }

  /** A marker occurs nowhere before the place where it is found first. */
  lemma OccursFirst(marker: string, body: string, inner: string, rest: string)
    requires marker != [] && body == inner + rest
    requires var end := Find(body, marker); if end < 0 then rest == [] else |inner| == end + |marker|
    ensures var end := Find(body, marker);
      if end < 0 then forall k: nat :: !Occurs(marker, inner, k)
      else Occurs(marker, inner, end) && forall k: nat | k < end :: !Occurs(marker, inner, k)
  {
    hide Find;
    var end := Find(body, marker);
    if end >= 0 { SliceOfPrefix(inner, rest, end, |inner|); }
    forall k: nat | end < 0 || k < end ensures !Occurs(marker, inner, k) {
      if Occurs(marker, inner, k) {
        SliceOfPrefix(inner, rest, k, k + |marker|);
        FindIsFirst(body, marker, k);
      }
    }
  }

  lemma DollarShape(s: string, m: nat)
    requires 2 <= m <= |s|
    ensures var n := DollarLen(s, m); IsDollarQuoted(s[..n], m, s[n..])
  {
    hide Find, Occurs;
    var n := DollarLen(s, m);
    var marker, body := s[..m], s[m..];
    var x := s[..n];
    assert x[..m] == marker;
    assert x[m..] == body[..n - m];
    assert s[n..] == body[n - m..];
    assert body == body[..n - m] + body[n - m..];
    OccursFirst(marker, body, body[..n - m], body[n - m..]);
  }

  lemma LineTaken(x: string, rest: string)
    requires '\n' !in x && (rest == [] || rest[0] == '\n')
    ensures LineLen(x + rest) == |x|
  {
    var s := x + rest;
    var end := Find(s, "\n");
    assert forall i | 0 <= i < |x| :: s[i] == x[i] && x[i] in x;
    assert end >= 0 ==> s[end] == s[end..end + 1][0] == '\n';
    if rest != [] {
      assert s[|x|..|x| + 1] == "\n";
      FindIsFirst(s, "\n", |x|);
    }
  }

  lemma LineShape(s: string)
    ensures var n := LineLen(s);
      '\n' !in s[..n] && (n == |s| || s[n] == '\n')
  {
    var n := LineLen(s);
    var end := Find(s, "\n");
    if end >= 0 { assert s[end] == s[end..end + 1][0]; }
    if '\n' in s[..n] {
      var k :| 0 <= k < n && s[..n][k] == '\n';
      assert s[k..k + 1] == "\n";
      FindIsFirst(s, "\n", k);
    }
  }

  /** What the grammar derives next is what the loop skips next. */
  lemma TokenIsTaken(p: bool, k: Kind, x: string, rest: string)
    requires x != [] && IsToken(p, k, x, rest)
    ensures KindAt(p, x + rest) == k && TokenLen(p, x + rest) == |x|
  {
    var s := x + rest;
    var n := |x|;
    hide EscapedLen, EscapedBody, QuotedLen, QuotedBody, CommentLen, ClosesComments, LeavesOpen,
      DollarLen, LineLen, MarkerLen, IsDollarQuoted, IsMarker, IsWord;
    match k
    case EString =>
      assert s[2..] == x[2..] + rest;
      if n > 2 && x[n - 1] == '\'' && EscapedBody(x[2..n - 1]) && !StartsWith(rest, '\'') {
        assert x[2..] + rest == x[2..n - 1] + ("'" + rest);
        EscapedClosed(x[2..n - 1], rest);
      } else if EscapedBody(x[2..]) {
        assert s[2..] == x[2..] + [];
        EscapedOpen(x[2..], []);
      } else {
        assert s[2..] == x[2..n - 1] + "\\";
        EscapedOpen(x[2..n - 1], "\\");
      }
    case Quoted =>
      assert s[1..] == x[1..] + rest;
      if n > 1 && x[n - 1] == x[0] && QuotedBody(x[1..n - 1], x[0]) && !StartsWith(rest, x[0]) {
        assert x[1..] + rest == x[1..n - 1] + ([x[0]] + rest);
        QuotedClosed(x[1..n - 1], x[0], rest);
      } else {
        assert s[1..] == x[1..];
        QuotedOpen(x[1..], x[0]);
      }
    case Dollar =>
      var m: nat :| m <= n && IsMarker(x[..m]) && IsDollarQuoted(x, m, rest);
      MarkerStart(x, m);
      MarkerOfPrefix(x, rest, m);
      DollarTaken(x, m, rest);
    case LineComment => LineTaken(x, rest);
    case BlockComment =>
      assert s[2..] == x[2..] + rest;
      if ClosesComments(x[2..], 1) {
        CommentClosed(x[2..], 1, rest);
      } else {
        assert s[2..] == x[2..];
        CommentOpen(x[2..], 1);
      }
    case Semicolon =>
    case Plain =>
      assert |s| > 1 ==> s[1] == rest[0];
      if s[0] == '$' && !p { NoMarker(s); }
  }

  lemma MarkerStart(x: string, m: nat)
    requires m <= |x| && IsMarker(x[..m])
    ensures 2 <= m && x[0] == '$'
  {
  }

  lemma NoMarker(s: string)
    ensures MarkerLen(s) == 0 <==> forall m: nat | m <= |s| :: !IsMarker(s[..m])
  {
    hide IsMarker;
    var n := MarkerLen(s);
    hide MarkerLen;
    MarkerIs(s, n);
    forall m: nat | m <= |s| ensures IsMarker(s[..m]) <==> m > 0 && MarkerLen(s) == m {
      MarkerIs(s, m);
    }
  }

  lemma EStringIsToken(p: bool, s: string)
    requires s != [] && KindAt(p, s) == EString
    ensures var n := TokenLen(p, s); IsToken(p, EString, s[..n], s[n..])
  {
    var n := TokenLen(p, s);
    var x, rest := s[..n], s[n..];
    EscapedShape(s[2..]);
    hide EscapedLen, EscapedBody, IsWord;
    assert x[2..] == s[2..][..n - 2];
    if n == |s| { assert x[2..] == s[2..]; }
    assert n > 2 ==> x[2..n - 1] == s[2..][..n - 3];
    assert rest == s[2..][n - 2..];
  }

  lemma QuotedIsToken(p: bool, s: string)
    requires s != [] && KindAt(p, s) == Quoted
    ensures var n := TokenLen(p, s); IsToken(p, Quoted, s[..n], s[n..])
  {
    var n := TokenLen(p, s);
    var x, rest := s[..n], s[n..];
    QuotedShape(s[1..], s[0]);
    hide QuotedLen, QuotedBody, IsWord;
    assert x[1..] == s[1..][..n - 1];
    if n == |s| { assert x[1..] == s[1..]; }
    assert n > 1 ==> x[1..n - 1] == s[1..][..n - 2];
    assert rest == s[1..][n - 1..];
  }

  lemma DollarIsToken(p: bool, s: string)
    requires s != [] && KindAt(p, s) == Dollar
    ensures var n := TokenLen(p, s); IsToken(p, Dollar, s[..n], s[n..])
  {
    hide MarkerLen, DollarLen, IsDollarQuoted, IsMarker, IsWord;
    var m := MarkerLen(s);
    MarkerIs(s, m);
    DollarShape(s, m);
    assert s[..TokenLen(p, s)][..m] == s[..m];
  }

  lemma CommentIsToken(p: bool, s: string)
    requires s != [] && KindAt(p, s) == BlockComment
    ensures var n := TokenLen(p, s); IsToken(p, BlockComment, s[..n], s[n..])
  {
    var n := TokenLen(p, s);
    var x := s[..n];
    CommentShape(s[2..], 1);
    hide CommentLen, ClosesComments, LeavesOpen, IsWord;
    assert x[2..] == s[2..][..n - 2];
    if n == |s| { assert x[2..] == s[2..]; }
  }

  /** What the loop skips next is a token of the grammar. */
  lemma TakenIsToken(p: bool, s: string)
    requires s != []
    ensures var n := TokenLen(p, s); IsToken(p, KindAt(p, s), s[..n], s[n..])
  {
    hide EscapedLen, EscapedBody, QuotedLen, QuotedBody, CommentLen, ClosesComments, LeavesOpen,
      DollarLen, LineLen, MarkerLen, IsDollarQuoted, IsMarker, IsWord;
    match KindAt(p, s)
    case EString => EStringIsToken(p, s);
    case Quoted => QuotedIsToken(p, s);
    case Dollar => DollarIsToken(p, s);
    case LineComment =>
      LineShape(s);
      assert TokenLen(p, s) > 1;
    case BlockComment => CommentIsToken(p, s);
    case Semicolon =>
    case Plain =>
      assert s[..1] + s[1..] == s;
      NoMarker(s);
  }

  // ----- derivations

  /** The derivation the loop follows. */
  function Lex(p: bool, s: string): seq<Token>
    decreases |s|
  {
    if s == [] then []
    else
      var n := TokenLen(p, s);
      [Token(KindAt(p, s), s[..n])] + Lex(IsWord(s[n - 1]), s[n..])
  }

  /** Every script has a derivation, */
  lemma {:induction false} DerivationExists(p: bool, s: string)
    ensures Derives(p, s, Lex(p, s))
    decreases |s|
  {
    hide IsToken, KindAt, TokenLen, IsWord, Derives, Lex;
    if s == [] {
      LexNothing(p);
      NothingDerives(p);
    } else {
      var n := TokenLen(p, s);
      TakenIsToken(p, s);
      DerivationExists(IsWord(s[n - 1]), s[n..]);
      LexFirst(p, s);
      DerivesMore(p, s, n, KindAt(p, s), Lex(IsWord(s[n - 1]), s[n..]));
    }
  }

  lemma NothingDerives(p: bool)
    ensures Derives(p, [], [])
  {
  }

  lemma DerivesMore(p: bool, s: string, n: nat, k: Kind, ts: seq<Token>)
    requires 0 < n <= |s| && IsToken(p, k, s[..n], s[n..]) && Derives(IsWord(s[n - 1]), s[n..], ts)
    ensures Derives(p, s, [Token(k, s[..n])] + ts)
  {
    hide IsToken, IsWord;
    var all := [Token(k, s[..n])] + ts;
    assert all[1..] == ts;
    assert s[n..] == s[|s[..n]|..];
  }

  lemma DerivesFirst(p: bool, s: string, ts: seq<Token>)
    requires Derives(p, s, ts)
    ensures ts == [] <==> s == []
    ensures ts != [] ==> var x := ts[0].text;
      && x != [] && |x| <= |s| && s[..|x|] == x
      && KindAt(p, s) == ts[0].kind && TokenLen(p, s) == |x|
      && Derives(IsWord(x[|x| - 1]), s[|x|..], ts[1..])
  {
    hide IsToken, KindAt, TokenLen, IsWord;
    if ts != [] {
      var x := ts[0].text;
      assert s == x + s[|x|..];
      TokenIsTaken(p, ts[0].kind, x, s[|x|..]);
    }
  }

  lemma LexNothing(p: bool)
    ensures Lex(p, []) == []
  {
  }

  lemma LexFirst(p: bool, s: string)
    requires s != []
    ensures var n := TokenLen(p, s);
      Lex(p, s) == [Token(KindAt(p, s), s[..n])] + Lex(IsWord(s[n - 1]), s[n..])
  {
    hide KindAt, TokenLen, IsWord;
  }

  /** and only one. */
  lemma {:induction false} DerivationUnique(p: bool, s: string, ts: seq<Token>)
    requires Derives(p, s, ts)
    ensures ts == Lex(p, s)
    decreases |ts|
  {
    hide Derives, KindAt, TokenLen, IsWord, Lex;
    DerivesFirst(p, s, ts);
    if ts == [] {
      LexNothing(p);
    } else {
      LexFirst(p, s);
      var x := ts[0].text;
      DerivationUnique(IsWord(x[|x| - 1]), s[|x|..], ts[1..]);
      assert ts == [ts[0]] + ts[1..];
    }
  }

  /** What `Split` makes of `before + s` when the next cut lies `cut` characters into `s`. */
  function SplitAt(before: string, s: string, cut: nat): seq<string>
    requires cut <= |s|
  {
    if cut == |s| then Piece(before + s) else Piece(before + s[..cut]) + Split(s[cut + 1..])
  }

  function SplitAfter(p: bool, s: string, before: string): seq<string> {
    SplitAt(before, s, FirstCut(p, s))
  }

  lemma SplitAtStart(s: string)
    ensures Split(s) == SplitAfter(false, s, "")
  {
    var cut := FirstCut(false, s);
    SplitUnfolds(s, cut);
    hide FirstCut, Piece, Split;
    assert "" + s == s && "" + s[..cut] == s[..cut];
  }

  lemma SplitAfterSemicolon(p: bool, s: string, before: string)
    requires s != [] && s[0] == ';'
    ensures SplitAfter(p, s, before) == Piece(before) + SplitAfter(false, s[1..], "")
  {
    assert FirstCut(p, s) == 0;
    hide Piece, FirstCut, Split;
    assert before + s[..0] == before;
    SplitAtStart(s[1..]);
  }

  lemma SplitAtMoves(before: string, s: string, n: nat, cut: nat)
    requires n + cut <= |s|
    ensures SplitAt(before, s, n + cut) == SplitAt(before + s[..n], s[n..], cut)
  {
    hide Piece, Split;
    var t := s[n..];
    assert before + s[..n] + t == before + s;
    assert before + s[..n] + t[..cut] == before + s[..n + cut];
    if cut < |t| { assert t[cut + 1..] == s[n + cut + 1..]; }
  }

  lemma SplitAfterToken(p: bool, s: string, before: string, n: nat)
    requires s != [] && s[0] != ';' && n == TokenLen(p, s)
    ensures SplitAfter(p, s, before) == SplitAfter(IsWord(s[n - 1]), s[n..], before + s[..n])
  {
    hide FirstCut, TokenLen, IsWord, SplitAt, Split, Piece;
    FirstCutStep(p, s);
    SplitAtMoves(before, s, n, FirstCut(IsWord(s[n - 1]), s[n..]));
  }

  lemma KindSemicolon(p: bool, s: string)
    requires s != []
    ensures KindAt(p, s) == Semicolon <==> s[0] == ';'
  {
  }

  lemma StatementsOfCons(t: Token, ts: seq<Token>, before: string)
    ensures StatementsOf([t] + ts, before) ==
      if t.kind == Semicolon then Piece(before) + StatementsOf(ts, "") else StatementsOf(ts, before + t.text)
  {
    hide Piece;
    assert ([t] + ts)[1..] == ts;
  }

  lemma {:induction false} StatementsOfLex(p: bool, s: string, before: string)
    requires s != []
    ensures var n := TokenLen(p, s);
      var rest := Lex(IsWord(s[n - 1]), s[n..]);
      StatementsOf(Lex(p, s), before) ==
        if s[0] == ';' then Piece(before) + StatementsOf(rest, "")
        else StatementsOf(rest, before + s[..n])
  {
    KindSemicolon(p, s);
    hide TokenLen, IsWord, Piece, KindAt, Lex, StatementsOf;
    var n := TokenLen(p, s);
    LexFirst(p, s);
    StatementsOfCons(Token(KindAt(p, s), s[..n]), Lex(IsWord(s[n - 1]), s[n..]), before);
  }

  lemma SemicolonIsOne(p: bool, s: string)
    requires s != [] && s[0] == ';'
    ensures TokenLen(p, s) == 1 && !IsWord(s[0])
  {
  }

  lemma {:induction false} SplitFollowsLex(p: bool, s: string, before: string)
    ensures SplitAfter(p, s, before) == StatementsOf(Lex(p, s), before)
    decreases |s|
  {
    hide SplitAfter, TokenLen, IsWord, Piece, FirstCut, Lex, StatementsOf, KindAt;
    if s == [] {
      NothingSplits(p, before);
    } else {
      var n := TokenLen(p, s);
      StatementsOfLex(p, s, before);
      if s[0] == ';' {
        SemicolonIsOne(p, s);
        SplitAfterSemicolon(p, s, before);
        SplitFollowsLex(false, s[n..], "");
      } else {
        SplitAfterToken(p, s, before, n);
        SplitFollowsLex(IsWord(s[n - 1]), s[n..], before + s[..n]);
      }
    }
  }

  lemma NothingSplits(p: bool, before: string)
    ensures SplitAfter(p, [], before) == StatementsOf(Lex(p, []), before)
  {
    CutOfNothing(p);
    assert before + [] == before;
  }

  /** The texts between the semicolons of a derivation. */
  function TextsOf(ts: seq<Token>, before: string): seq<string> {
    if ts == [] then [before]
    else if ts[0].kind == Semicolon then [before] + TextsOf(ts[1..], "")
    else TextsOf(ts[1..], before + ts[0].text)
  }

  /** `t` is `s` without the spaces around it. */
  ghost predicate IsTrimOf(t: string, s: string) {
    && t != [] && !IsSpace(t[0]) && !IsSpace(t[|t| - 1])
    && exists left, right :: AllSpace(left) && AllSpace(right) && s == left + t + right
  }

  /** `statements` are the `texts` without the spaces around them, and without those of spaces alone. */
  ghost predicate AreStatements(texts: seq<string>, statements: seq<string>)
    decreases |texts|
  {
    if texts == [] then statements == []
    else if AllSpace(texts[0]) then AreStatements(texts[1..], statements)
    else statements != [] && IsTrimOf(statements[0], texts[0]) && AreStatements(texts[1..], statements[1..])
  }

  lemma PieceIs(s: string)
    ensures if AllSpace(s) then Piece(s) == [] else |Piece(s)| == 1 && IsTrimOf(Piece(s)[0], s)
  {
    var left, right := TrimSplits(s);
    hide IsSpace, Trim;
    if AllSpace(s) {
      assert s == s + [] + [];
      TrimFinds(s, [], []);
    } else if Trim(s) == [] {
      assert false;
    }
  }

  lemma AreStatementsCons(text: string, texts: seq<string>, more: seq<string>)
    requires AreStatements(texts, more)
    ensures AreStatements([text] + texts, Piece(text) + more)
  {
    PieceIs(text);
    hide Piece, AllSpace, IsTrimOf;
    assert ([text] + texts)[1..] == texts;
    assert (Piece(text) + more)[|Piece(text)|..] == more;
    if Piece(text) == [] { assert Piece(text) + more == more; }
  }

  lemma {:induction false} StatementsOfTexts(ts: seq<Token>, before: string)
    ensures AreStatements(TextsOf(ts, before), StatementsOf(ts, before))
    decreases |ts|
  {
    hide AreStatements, Piece;
    if ts == [] {
      assert AreStatements([], []) by { NoTexts(); }
      AreStatementsCons(before, [], []);
      assert [before] + [] == [before] && Piece(before) + [] == Piece(before);
    } else if ts[0].kind == Semicolon {
      StatementsOfTexts(ts[1..], "");
      AreStatementsCons(before, TextsOf(ts[1..], ""), StatementsOf(ts[1..], ""));
    } else {
      StatementsOfTexts(ts[1..], before + ts[0].text);
    }
  }

  lemma NoTexts()
    ensures AreStatements([], [])
  {
  }

  /** The splitter returns the statements of the script's one derivation: it cuts at
      the grammar's semicolons and nowhere else. */
  lemma SplitFollowsTheGrammar(s: string, ts: seq<Token>)
    requires Derives(false, s, ts)
    ensures AreStatements(TextsOf(ts, ""), Split(s))
  {
    hide Derives, Split, SplitAfter, Lex, StatementsOf, AreStatements, TextsOf;
    StatementsOfTexts(ts, "");
    DerivationUnique(false, s, ts);
    SplitFollowsLex(false, s, "");
    SplitAtStart(s);
  }
}
