/** The script splitter, `splitStatements` of ai/mcp/src/sql.ts.

    The code is one loop over an index, with an inner loop a token. Here the inner
    loops compute `TokenLen`, the outer loop computes `Split`, and the method at the
    end is that code, proved against them. */
module SqlSplitter {
  import Decimal
  import opened Text

  predicate IsLetter(c: char) {
    'A' <= c <= 'Z' || 'a' <= c <= 'z'
  }

  /** `[A-Za-z_]`, the first character of a dollar tag. */
  predicate IsTagStart(c: char) {
    IsLetter(c) || c == '_'
  }

  /** `[A-Za-z0-9_]`, the others. */
  predicate IsTagChar(c: char) {
    IsTagStart(c) || Decimal.IsDigit(c)
  }

  /** `[A-Za-z0-9_$]`: after one of these, no E-string and no dollar tag starts. */
  predicate IsWord(c: char) {
    IsTagChar(c) || c == '$'
  }

  // ----- how far each token reaches

  /** Characters up to and over the quote that ends an E-string whose opening is already read. */
  function EscapedLen(s: string): (n: nat)
    ensures n <= |s|
  {
    if s == [] then 0
    else if s[0] == '\\' then
      if |s| == 1 then 1 else 2 + EscapedLen(s[2..])
    else if s[0] == '\'' then
      if |s| > 1 && s[1] == '\'' then 2 + EscapedLen(s[2..]) else 1
    else 1 + EscapedLen(s[1..])
  }

  /** The same for a string or an identifier between quotes `q`. */
  function QuotedLen(s: string, q: char): (n: nat)
    ensures n <= |s|
  {
    if s == [] then 0
    else if s[0] == q then
      if |s| > 1 && s[1] == q then 2 + QuotedLen(s[2..], q) else 1
    else 1 + QuotedLen(s[1..], q)
  }

  /** The number of tag characters `s` begins with. */
  function TagRun(s: string): (n: nat)
    ensures n <= |s|
    ensures forall i | 0 <= i < n :: IsTagChar(s[i])
    ensures n < |s| ==> !IsTagChar(s[n])
  {
    if s != [] && IsTagChar(s[0]) then
      var n := TagRun(s[1..]);
      assert forall i | 0 < i < n + 1 :: s[i] == s[1..][i - 1];
      1 + n
    else 0
  }

  /** The length of the match of `^\$(?:[A-Za-z_][A-Za-z0-9_]*)?\$`, or 0. */
  function MarkerLen(s: string): (n: nat)
    ensures n <= |s|
    ensures n == 0 || n >= 2
  {
    if |s| < 2 || s[0] != '$' then 0
    else if s[1] == '$' then 2
    else if !IsTagStart(s[1]) then 0
    else
      var n := TagRun(s[1..]);
      if 1 + n < |s| && s[1 + n] == '$' then n + 2 else 0
  }

  /** A dollar-quoted string that opens with the first `m` characters of `s`. */
  function DollarLen(s: string, m: nat): (n: nat)
    requires 2 <= m <= |s|
    ensures m <= n <= |s|
  {
    var end := Find(s[m..], s[..m]);
    if end < 0 then |s| else m + end + m
  }

  function LineLen(s: string): (n: nat)
    ensures n <= |s|
  {
    var end := Find(s, "\n");
    if end < 0 then |s| else end
  }

  // Characters up to and over the marker that closes the last of `depth` open comments.
  function CommentLen(s: string, depth: nat): (n: nat)
    ensures n <= |s|
  {
    if depth == 0 || s == [] then 0
    else if |s| > 1 && s[0] == '/' && s[1] == '*' then 2 + CommentLen(s[2..], depth + 1)
    else if |s| > 1 && s[0] == '*' && s[1] == '/' then 2 + CommentLen(s[2..], depth - 1)
    else 1 + CommentLen(s[1..], depth)
  }

  datatype Kind = EString | Quoted | Dollar | LineComment | BlockComment | Semicolon | Plain

  /** The branch the code takes on `s`; `p` says that a word character precedes it. */
  function KindAt(p: bool, s: string): Kind
    requires s != []
  {
    if (s[0] == 'e' || s[0] == 'E') && |s| > 1 && s[1] == '\'' && !p then EString
    else if s[0] == '\'' || s[0] == '"' then Quoted
    else if s[0] == '$' && !p && MarkerLen(s) > 0 then Dollar
    else if s[0] == '-' && |s| > 1 && s[1] == '-' then LineComment
    else if s[0] == '/' && |s| > 1 && s[1] == '*' then BlockComment
    else if s[0] == ';' then Semicolon
    else Plain
  }

  /** How far the token that starts `s` reaches. */
  function TokenLen(p: bool, s: string): (n: nat)
    requires s != []
    ensures 1 <= n <= |s|
  {
    match KindAt(p, s)
    case EString => 2 + EscapedLen(s[2..])
    case Quoted => 1 + QuotedLen(s[1..], s[0])
    case Dollar => DollarLen(s, MarkerLen(s))
    case LineComment =>
      var n := LineLen(s);
      assert n == 0 ==> s[0..1] == "\n";
      n
    case BlockComment => 2 + CommentLen(s[2..], 1)
    case Semicolon => 1
    case Plain => 1
  }

  /** The position of the first semicolon that separates statements, or `|s|`. */
  function FirstCut(p: bool, s: string): (n: nat)
    ensures n <= |s|
    ensures n < |s| ==> s[n] == ';'
    decreases |s|
  {
    if s == [] || s[0] == ';' then 0
    else
      var n := TokenLen(p, s);
      var rest := FirstCut(IsWord(s[n - 1]), s[n..]);
      assert rest < |s[n..]| ==> s[n..][rest] == s[n + rest];
      n + rest
  }

  /** A statement, unless only spaces are left of it. */
  function Piece(s: string): seq<string> {
    if Trim(s) == [] then [] else [Trim(s)]
  }

  /** The statements of a script. */
  function Split(s: string): seq<string>
    decreases |s|
  {
    var cut := FirstCut(false, s);
    if cut == |s| then Piece(s) else Piece(s[..cut]) + Split(s[cut + 1..])
  }

  // ----- the loop

  lemma SplitUnfolds(s: string, cut: nat)
    requires cut == FirstCut(false, s)
    ensures Split(s) == if cut == |s| then Piece(s) else Piece(s[..cut]) + Split(s[cut + 1..])
  {
    hide FirstCut, Piece;
  }

  predicate WordBefore(s: string, i: nat) {
    0 < i <= |s| && IsWord(s[i - 1])
  }

  /** The next cut at or after `i`, as a position in `s`. */
  function CutFrom(s: string, i: nat): nat {
    if i <= |s| then i + FirstCut(WordBefore(s, i), s[i..]) else |s|
  }

  lemma FirstCutStep(p: bool, s: string)
    requires s != [] && s[0] != ';'
    ensures var n := TokenLen(p, s); FirstCut(p, s) == n + FirstCut(IsWord(s[n - 1]), s[n..])
  {
    hide TokenLen, IsWord;
  }

  lemma CutOfNothing(p: bool)
    ensures FirstCut(p, []) == 0
  {
  }

  /** A round of the loop that leaves its index at `j`, or beyond the end. */
  lemma CutFromSkips(s: string, i: nat, j: nat)
    requires i < |s| && s[i] != ';'
    requires (if j <= |s| then j else |s|) == i + TokenLen(WordBefore(s, i), s[i..])
    ensures CutFrom(s, j) == CutFrom(s, i)
  {
    hide FirstCut, TokenLen, IsWord;
    var n := TokenLen(WordBefore(s, i), s[i..]);
    FirstCutStep(WordBefore(s, i), s[i..]);
    assert s[i..][n..] == s[i + n..];
    assert s[i..][n - 1] == s[i + n - 1];
    CutOfNothing(IsWord(s[|s| - 1]));
  }

  lemma CutAtSemicolon(s: string, i: nat)
    requires i < |s| && s[i] == ';'
    ensures CutFrom(s, i) == i
  {
  }

  lemma SplitAtCut(s: string, start: nat)
    requires start <= |s| && !WordBefore(s, start)
    ensures var cut := CutFrom(s, start);
      start <= cut <= |s|
      && (cut < |s| ==> s[cut] == ';' && Split(s[start..]) == Piece(s[start..cut]) + Split(s[cut + 1..]))
      && (cut == |s| ==> Split(s[start..]) == Piece(s[start..]))
  {
    hide Split, Piece, FirstCut;
    var cut, rest := CutFrom(s, start), s[start..];
    SplitUnfolds(rest, cut - start);
    if cut < |s| {
      assert rest[..cut - start] == s[start..cut];
      assert rest[cut - start + 1..] == s[cut + 1..];
    }
  }

  // The inner loops. Each starts at the token and leaves the index behind it; a
  // backslash that ends the script leaves the index one position past its end.

  lemma EscapedStep(s: string, i: nat)
    requires i < |s|
    ensures EscapedLen(s[i..]) ==
      if s[i] == '\\' then (if i + 1 == |s| then 1 else 2 + EscapedLen(s[i + 2..]))
      else if s[i] != '\'' then 1 + EscapedLen(s[i + 1..])
      else if i + 1 < |s| && s[i + 1] == '\'' then 2 + EscapedLen(s[i + 2..]) else 1
  {
    assert i + 2 <= |s| ==> s[i..][2..] == s[i + 2..];
    assert s[i..][1..] == s[i + 1..];
  }

  method SkipEString(sql: string, start: nat) returns (i: nat)
    requires start + 2 <= |sql|
    ensures start < i <= |sql| + 1
    ensures start + 2 + EscapedLen(sql[start + 2..]) == if i <= |sql| then i else |sql|
  {
    hide EscapedLen;
    i := start + 2;
    while i < |sql|
      invariant start + 2 <= i <= |sql| + 1
      invariant start + 2 + EscapedLen(sql[start + 2..])
             == if i <= |sql| then i + EscapedLen(sql[i..]) else |sql|
      decreases |sql| + 1 - i
    {
      EscapedStep(sql, i);
      if sql[i] == '\\' {
        i := i + 2;
      } else if sql[i] == '\'' {
        if i + 1 < |sql| && sql[i + 1] == '\'' {
          i := i + 2;
        } else {
          i := i + 1;
          break;
        }
      } else {
        i := i + 1;
      }
    }
  }

  method SkipQuoted(sql: string, start: nat) returns (i: nat)
    requires start < |sql|
    ensures start < i <= |sql|
    ensures i == start + 1 + QuotedLen(sql[start + 1..], sql[start])
  {
    var quote := sql[start];
    i := start + 1;
    while i < |sql|
      invariant start < i <= |sql|
      invariant start + 1 + QuotedLen(sql[start + 1..], quote) == i + QuotedLen(sql[i..], quote)
    {
      if sql[i] == quote {
        if i + 1 < |sql| && sql[i + 1] == quote {
          assert sql[i..][2..] == sql[i + 2..];
          i := i + 2;
        } else {
          i := i + 1;
          break;
        }
      } else {
        assert sql[i..][1..] == sql[i + 1..];
        i := i + 1;
      }
    }
  }

  lemma CommentStep(s: string, i: nat, depth: nat)
    requires i < |s| && depth > 0
    ensures CommentLen(s[i..], depth) ==
      if i + 1 < |s| && s[i] == '/' && s[i + 1] == '*' then 2 + CommentLen(s[i + 2..], depth + 1)
      else if i + 1 < |s| && s[i] == '*' && s[i + 1] == '/' then 2 + CommentLen(s[i + 2..], depth - 1)
      else 1 + CommentLen(s[i + 1..], depth)
  {
    assert i + 2 <= |s| ==> s[i..][2..] == s[i + 2..];
    assert s[i..][1..] == s[i + 1..];
  }

  lemma CommentStops(s: string, depth: nat)
    requires s == [] || depth == 0
    ensures CommentLen(s, depth) == 0
  {
  }

  method SkipComment(sql: string, start: nat) returns (i: nat)
    requires start + 2 <= |sql|
    ensures start + 2 <= i <= |sql|
    ensures i == start + 2 + CommentLen(sql[start + 2..], 1)
  {
    hide CommentLen;
    var depth: nat := 1;
    i := start + 2;
    while i < |sql| && depth > 0
      invariant start + 2 <= i <= |sql|
      invariant start + 2 + CommentLen(sql[start + 2..], 1) == i + CommentLen(sql[i..], depth)
    {
      CommentStep(sql, i, depth);
      if sql[i] == '/' && i + 1 < |sql| && sql[i + 1] == '*' {
        depth := depth + 1;
        i := i + 2;
      } else if sql[i] == '*' && i + 1 < |sql| && sql[i + 1] == '/' {
        depth := depth - 1;
        i := i + 2;
      } else {
        i := i + 1;
      }
    }
    CommentStops(sql[i..], depth);
  }

  /** One round of the loop on anything but a semicolon. */
  method SkipToken(sql: string, start: nat) returns (i: nat)
    requires start < |sql| && sql[start] != ';'
    ensures start < i <= |sql| + 1
    ensures (if i <= |sql| then i else |sql|) == start + TokenLen(WordBefore(sql, start), sql[start..])
  {
    hide MarkerLen, EscapedLen, QuotedLen, CommentLen, IsWord;
    var ch := sql[start];
    ghost var token := sql[start..];
    assert |token| > 1 ==> token[1] == sql[start + 1];
    if (ch == 'e' || ch == 'E') && start + 1 < |sql| && sql[start + 1] == '\'' && !WordBefore(sql, start) {
      assert token[2..] == sql[start + 2..];
      i := SkipEString(sql, start);
      return;
    }
    if ch == '\'' || ch == '"' {
      assert token[1..] == sql[start + 1..];
      i := SkipQuoted(sql, start);
      return;
    }
    if ch == '$' && !WordBefore(sql, start) {
      var length := MarkerLen(sql[start..]);
      if length > 0 {
        var marker := sql[start..][..length];
        assert token[length..] == sql[start + length..];
        var end := Find(sql[start + length..], marker);
        i := if end == -1 then |sql| else start + length + end + |marker|;
        return;
      }
    }
    if ch == '-' && start + 1 < |sql| && sql[start + 1] == '-' {
      var end := Find(sql[start..], "\n");
      i := if end == -1 then |sql| else start + end;
      return;
    }
    if ch == '/' && start + 1 < |sql| && sql[start + 1] == '*' {
      assert token[2..] == sql[start + 2..];
      i := SkipComment(sql, start);
      return;
    }
    i := start + 1;
  }

  method SplitStatements(sql: string) returns (statements: seq<string>)
    ensures statements == Split(sql)
  {
    hide FirstCut, Split, TokenLen, Trim;
    statements := [];
    var start: nat := 0;
    var i: nat := 0;
    assert sql[start..] == sql;
    while i < |sql|
      invariant start <= i <= |sql| + 1 && start <= |sql|
      invariant !WordBefore(sql, start)
      invariant CutFrom(sql, i) == CutFrom(sql, start)
      invariant statements + Split(sql[start..]) == Split(sql)
      decreases |sql| + 1 - i
    {
      if sql[i] == ';' {
        CutAtSemicolon(sql, i);
        SplitAtCut(sql, start);
        var statement := Trim(sql[start..i]);
        if statement != [] { statements := statements + [statement]; }
        i := i + 1;
        start := i;
      } else {
        var next := SkipToken(sql, i);
        CutFromSkips(sql, i, next);
        i := next;
      }
    }
    SplitAtCut(sql, start);
    var tail := Trim(sql[start..]);
    if tail != [] { statements := statements + [tail]; }
  }
}
