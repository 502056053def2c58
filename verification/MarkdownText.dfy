/** How lines, fences and headings of a Markdown text answer to joining and trimming it. */
module MarkdownText {
  import opened Options
  import opened Text
  import opened Markdown

  // ----- lines of joined texts

  /** A carriage return before the line break is part of the break. */
  function Chomp(line: string): string {
    if line != [] && line[|line| - 1] == '\r' then line[..|line| - 1] else line
  }

  predicate EndsInReturn(s: string) {
    s != [] && s[|s| - 1] == '\r'
  }

  lemma {:induction false} LinesHoldNoBreaks(s: string)
    ensures forall k | 0 <= k < |Lines(s)| :: '\n' !in Lines(s)[k]
    decreases |s|
  {
    if s != [] {
      if s[0] == '\n' {
        LinesHoldNoBreaks(s[1..]);
      } else if |s| > 1 && s[0] == '\r' && s[1] == '\n' {
        LinesHoldNoBreaks(s[2..]);
      } else {
        LinesHoldNoBreaks(s[1..]);
      }
    }
  }

  /** The lines of a text that a line break follows. */
  function Broken(lines: seq<string>): (r: seq<string>)
    requires lines != []
    ensures |r| == |lines|
  {
    lines[..|lines| - 1] + [Chomp(lines[|lines| - 1])]
  }

  lemma {:induction false} OneLine(s: string)
    requires |Lines(s)| == 1
    ensures Lines(s) == [s]
  {
    if s != [] {
      OneLine(s[1..]);
      assert s == [s[0]] + s[1..];
    }
  }

  lemma WidenTwo(c: char, a: seq<string>, b: seq<string>)
    requires a != []
    ensures Widen(c, a + b) == Widen(c, a) + b
  {
    assert (a + b)[1..] == a[1..] + b;
  }

  lemma WidenBroken(c: char, lines: seq<string>)
    requires lines != [] && (lines == [""] ==> c != '\r')
    ensures Widen(c, Broken(lines)) == Broken(Widen(c, lines))
  {
    var n := |lines| - 1;
    if n == 0 {
      var line := lines[0];
      if line != [] {
        assert ([c] + line)[|line|] == line[|line| - 1];
        assert ([c] + line)[..|line|] == [c] + line[..|line| - 1];
      }
      assert Chomp([c] + line) == [c] + Chomp(line);
    } else {
      assert Broken(lines)[1..] == lines[1..n] + [Chomp(lines[n])];
      assert Widen(c, lines)[..n] == [[c] + lines[0]] + lines[1..n];
    }
  }

  /** The lines of two texts with a break between them. */
  lemma {:induction false} LinesOfTwo(a: string, b: string)
    ensures Lines(a + ("\n" + b)) == Broken(Lines(a)) + Lines(b)
    decreases |a|
  {
    hide Broken, Widen;
    var s := a + ("\n" + b);
    if a == [] {
      assert s == "\n" + b;
      assert s[1..] == b;
      BrokenShort();
    } else if a[0] == '\n' {
      assert s[1..] == a[1..] + ("\n" + b);
      LinesOfTwo(a[1..], b);
      BrokenLonger(Lines(a[1..]));
    } else if |a| > 1 && a[0] == '\r' && a[1] == '\n' {
      assert s[2..] == a[2..] + ("\n" + b);
      LinesOfTwo(a[2..], b);
      BrokenLonger(Lines(a[2..]));
    } else if a == "\r" {
      assert s[2..] == b;
      BrokenShort();
    } else {
      assert s[1..] == a[1..] + ("\n" + b);
      assert |a| > 1 ==> s[1] == a[1];
      LinesOfTwo(a[1..], b);
      WidenTwo(a[0], Broken(Lines(a[1..])), Lines(b));
      if Lines(a[1..]) == [""] { OneLine(a[1..]); }
      WidenBroken(a[0], Lines(a[1..]));
    }
  }

  lemma BrokenShort()
    ensures Broken(Lines("")) == Broken(Lines("\r")) == [""]
  {
    LinesOfOne("\r");
    assert "\r"[..0] == "";
  }

  lemma BrokenLonger(lines: seq<string>)
    requires lines != []
    ensures Broken([""] + lines) == [""] + Broken(lines)
  {
    assert ([""] + lines)[..|lines|] == [""] + lines[..|lines| - 1];
  }

  /** A text without line breaks is one line. */
  lemma {:induction false} LinesOfOne(s: string)
    requires '\n' !in s
    ensures Lines(s) == [s]
  {
    if s != [] {
      assert |s| > 1 ==> s[1] in s;
      LinesOfOne(s[1..]);
      assert s == [s[0]] + s[1..];
    }
  }

  // ----- fences do not see white space at the end of a line

  lemma {:induction false} TrimStartOfLonger(line: string, c: char)
    requires IsSpace(c)
    ensures TrimStart(line + [c]) == if TrimStart(line) == [] then [] else TrimStart(line) + [c]
  {
    if line == [] {
      assert [] + [c] == [c];
      assert [c][1..] == [];
    } else if IsSpace(line[0]) {
      assert (line + [c])[1..] == line[1..] + [c];
      TrimStartOfLonger(line[1..], c);
    }
  }

  lemma {:induction false} RunOfLonger(s: string, c: char, mark: char)
    requires c != mark
    ensures Run(s + [c], mark) == Run(s, mark)
  {
    if s == [] {
      assert s + [c] == [c];
    } else if s[0] == mark {
      assert (s + [c])[1..] == s[1..] + [c];
      RunOfLonger(s[1..], c, mark);
    }
  }

  lemma MarkerOfLonger(line: string, c: char)
    requires IsSpace(c)
    ensures MarkerOf(line + [c]) == MarkerOf(line)
  {
    TrimStartOfLonger(line, c);
    RunOfLonger(TrimStart(line), c, '`');
    RunOfLonger(TrimStart(line), c, '~');
  }

  lemma MarkerOfChomped(line: string)
    ensures MarkerOf(Chomp(line)) == MarkerOf(line)
  {
    if EndsInReturn(line) {
      assert line == Chomp(line) + ['\r'];
      MarkerOfLonger(Chomp(line), '\r');
    }
  }

  lemma FenceOfBroken(fence: Fence, lines: seq<string>)
    requires lines != []
    ensures FenceAfterAll(fence, Broken(lines)) == FenceAfterAll(fence, lines)
  {
    var n := |lines| - 1;
    assert lines == lines[..n] + [lines[n]];
    FenceAfterBoth(fence, lines[..n], [lines[n]]);
    FenceAfterBoth(fence, lines[..n], [Chomp(lines[n])]);
    hide MarkerOf, Chomp;
    MarkerOfChomped(lines[n]);
    var f := FenceAfterAll(fence, lines[..n]);
    CutOne(f, lines[n]);
    CutOne(f, Chomp(lines[n]));
  }

  /** Joining lines and splitting them again leaves the fence as it was. */
  lemma {:induction false} FenceOfJoin(fence: Fence, lines: seq<string>)
    requires forall k | 0 <= k < |lines| :: '\n' !in lines[k]
    ensures FenceAfterAll(fence, Lines(Join(lines, "\n"))) == FenceAfterAll(fence, lines)
    decreases |lines|
  {
    hide FenceAfter, Broken;
    if lines == [] {
      FenceOfBlank(fence);
    } else if |lines| == 1 {
      LinesOfOne(lines[0]);
      assert lines == [lines[0]];
    } else {
      var rest := Join(lines[1..], "\n");
      assert Join(lines, "\n") == lines[0] + ("\n" + rest);
      LinesOfTwo(lines[0], rest);
      LinesOfOne(lines[0]);
      assert lines == [lines[0]] + lines[1..];
      FenceOfBroken(fence, [lines[0]]);
      FenceAfterBoth(fence, Broken([lines[0]]), Lines(rest));
      FenceAfterBoth(fence, [lines[0]], lines[1..]);
      FenceOfJoin(FenceAfterAll(fence, [lines[0]]), lines[1..]);
    }
  }

  lemma FenceOfBlank(fence: Fence)
    ensures FenceAfterAll(fence, Lines("")) == fence && FenceAfterAll(fence, [""]) == fence &&
      FenceAfterAll(fence, []) == fence
    ensures Cut(fence, [""]) == Pieces([""], [])
  {
    assert MarkerOf("").None?;
    CutOne(fence, "");
  }

  // ----- nor white space around a text

  lemma FenceOfLeading(fence: Fence, c: char, s: string)
    requires IsSpace(c)
    ensures FenceAfterAll(fence, Lines([c] + s)) == FenceAfterAll(fence, Lines(s))
  {
    assert ([c] + s)[1..] == s;
    if c == '\n' {
      FenceOfBlank(fence);
      FenceAfterBoth(fence, [""], Lines(s));
    } else if c == '\r' && s != [] && s[0] == '\n' {
      assert ([c] + s)[2..] == s[1..];
    } else {
      var lines := Lines(s);
      MarkerOfLeading(c, lines[0]);
      assert Widen(c, lines)[1..] == lines[1..];
    }
  }

  lemma MarkerOfLeading(c: char, line: string)
    requires IsSpace(c)
    ensures MarkerOf([c] + line) == MarkerOf(line)
  {
    assert ([c] + line)[1..] == line;
  }

  /** One more character at the end of the last line. */
  function Extend(lines: seq<string>, c: char): (r: seq<string>)
    requires lines != []
    ensures |r| == |lines|
  {
    lines[..|lines| - 1] + [lines[|lines| - 1] + [c]]
  }

  lemma ExtendShort(c: char)
    ensures Extend([""], c) == [[c]]
  {
    assert "" + [c] == [c];
  }

  lemma ExtendLonger(lines: seq<string>, c: char)
    requires lines != []
    ensures Extend([""] + lines, c) == [""] + Extend(lines, c)
  {
    assert ([""] + lines)[..|lines|] == [""] + lines[..|lines| - 1];
  }

  lemma WidenExtended(b: char, lines: seq<string>, c: char)
    requires lines != []
    ensures Widen(b, Extend(lines, c)) == Extend(Widen(b, lines), c)
  {
    var n := |lines| - 1;
    if n == 0 {
      assert [b] + (lines[0] + [c]) == [b] + lines[0] + [c];
    } else {
      assert Extend(lines, c)[1..] == lines[1..n] + [lines[n] + [c]];
      assert Widen(b, lines)[..n] == [[b] + lines[0]] + lines[1..n];
    }
  }

  /** One more character at the end of a text. */
  lemma LinesOfLonger(s: string, c: char)
    ensures Lines(s + [c]) == if c == '\n' then Broken(Lines(s)) + [""] else Extend(Lines(s), c)
  {
    hide Broken, Extend;
    if c == '\n' {
      assert [c] == "\n" + "";
      LinesOfTwo(s, "");
    } else {
      LinesOfLongerLine(s, c);
    }
  }

  lemma {:induction false} LinesOfLongerLine(s: string, c: char)
    requires c != '\n'
    ensures Lines(s + [c]) == Extend(Lines(s), c)
    decreases |s|
  {
    hide Extend, Widen;
    var t := s + [c];
    if s == [] {
      assert t == [c];
      LinesOfOne(t);
      ExtendShort(c);
    } else if s[0] == '\n' {
      assert t[1..] == s[1..] + [c];
      LinesOfLongerLine(s[1..], c);
      ExtendLonger(Lines(s[1..]), c);
    } else if |s| > 1 && s[0] == '\r' && s[1] == '\n' {
      assert t[2..] == s[2..] + [c];
      LinesOfLongerLine(s[2..], c);
      ExtendLonger(Lines(s[2..]), c);
    } else {
      assert t[1..] == s[1..] + [c];
      assert t[1] == if |s| > 1 then s[1] else c;
      LinesOfLongerLine(s[1..], c);
      WidenExtended(s[0], Lines(s[1..]), c);
    }
  }

  lemma FenceOfTrailing(fence: Fence, s: string, c: char)
    requires IsSpace(c)
    ensures FenceAfterAll(fence, Lines(s + [c])) == FenceAfterAll(fence, Lines(s))
  {
    hide Lines, Broken, MarkerOf, TrimStart;
    LinesOfLonger(s, c);
    var lines := Lines(s);
    var n := |lines| - 1;
    if c == '\n' {
      FenceAfterBoth(fence, Broken(lines), [""]);
      FenceOfBroken(fence, lines);
      FenceOfBlank(FenceAfterAll(fence, lines));
    } else {
      assert lines == lines[..n] + [lines[n]];
      FenceAfterBoth(fence, lines[..n], [lines[n]]);
      FenceAfterBoth(fence, lines[..n], [lines[n] + [c]]);
      MarkerOfLonger(lines[n], c);
      CutOne(FenceAfterAll(fence, lines[..n]), lines[n]);
      CutOne(FenceAfterAll(fence, lines[..n]), lines[n] + [c]);
    }
  }

  lemma {:induction false} FenceOfTrimStart(fence: Fence, s: string)
    ensures FenceAfterAll(fence, Lines(TrimStart(s))) == FenceAfterAll(fence, Lines(s))
  {
    hide FenceAfterAll, Lines;
    if s != [] && IsSpace(s[0]) {
      assert s == [s[0]] + s[1..];
      FenceOfLeading(fence, s[0], s[1..]);
      FenceOfTrimStart(fence, s[1..]);
    }
  }

  lemma {:induction false} FenceOfTrimEnd(fence: Fence, s: string)
    ensures FenceAfterAll(fence, Lines(TrimEnd(s))) == FenceAfterAll(fence, Lines(s))
    decreases |s|
  {
    hide FenceAfterAll, Lines;
    if s != [] && IsSpace(s[|s| - 1]) {
      var n := |s| - 1;
      assert s == s[..n] + [s[n]];
      FenceOfTrailing(fence, s[..n], s[n]);
      FenceOfTrimEnd(fence, s[..n]);
    }
  }

  /** The fence after a body is the fence after the body trimmed. */
  lemma FenceOfTrim(fence: Fence, s: string)
    ensures FenceAfterAll(fence, Lines(Trim(s))) == FenceAfterAll(fence, Lines(s))
  {
    hide FenceAfterAll, Lines;
    FenceOfTrimStart(fence, s);
    FenceOfTrimEnd(fence, TrimStart(s));
  }

  // ----- what a line looks like

  function Repeat(c: char, n: nat): (s: string)
    ensures |s| == n && forall i | 0 <= i < n :: s[i] == c
  {
    seq(n, _ => c)
  }

  lemma {:induction false} RunOfRepeat(c: char, n: nat, rest: string, d: char)
    requires rest == [] || rest[0] != c
    ensures Run(Repeat(c, n) + rest, c) == n
    ensures d != c && n > 0 ==> Run(Repeat(c, n) + rest, d) == 0
  {
    var s := Repeat(c, n) + rest;
    if n > 0 {
      assert s[0] == c;
      assert s[1..] == Repeat(c, n - 1) + rest;
      RunOfRepeat(c, n - 1, rest, d);
    } else {
      assert s == rest;
    }
  }

  /** A line of spaces marks no fence. Any other begins, after some spaces, with a number of equal
      characters, and marks one exactly when these are three or more backticks or tildes. */
  lemma MarkerOfLine(w: string, c: char, n: nat, rest: string)
    requires AllSpace(w) && !IsSpace(c) && n > 0 && (rest == [] || rest[0] != c)
    ensures MarkerOf(w) == None
    ensures MarkerOf(w + (Repeat(c, n) + rest)) ==
      if n >= 3 && (c == '`' || c == '~') then Some(Marker(c, n)) else None
  {
    hide IsSpace;
    var t := Repeat(c, n) + rest;
    assert t[0] == c;
    TrimStartDrops(w, t);
    RunOfRepeat(c, n, rest, '`');
    RunOfRepeat(c, n, rest, '~');
    TrimStartDrops(w, []);
    assert w + [] == w;
    hide TrimStart, Run;
    assert TrimStart(w) == [] && Run([], '`') == 0 && Run([], '~') == 0 by { NoRun('`'); NoRun('~'); }
  }

  lemma NoRun(c: char)
    ensures Run([], c) == 0
  {
  }

  /** A mark opens a fence where none is open, and closes an open one of the same character that is no
      longer than it. Every other line leaves the fence as it is. A mark, and whatever stands in an
      open fence, is inside. */
  lemma FenceOfLine(fence: Fence, w: string, c: char, n: nat, rest: string)
    requires AllSpace(w) && !IsSpace(c) && n > 0 && (rest == [] || rest[0] != c)
    ensures FenceAfter(fence, w) == fence && (Inside(fence, w) <==> fence.Some?)
    ensures var line := w + (Repeat(c, n) + rest);
      if n >= 3 && (c == '`' || c == '~') then
        && Inside(fence, line)
        && match fence
           case None => FenceAfter(fence, line) == Some(Marker(c, n))
           case Some(open) => FenceAfter(fence, line) == if open.mark == c && open.length <= n then None else fence
      else FenceAfter(fence, line) == fence && (Inside(fence, line) <==> fence.Some?)
  {
    MarkerOfLine(w, c, n, rest);
    hide MarkerOf, Repeat;
  }

  lemma Ends(w: string, t: string, right: string)
    requires AllSpace(w) && t != [] && Trimmed(t) && AllSpace(right)
    ensures TrimStart(w + (t + right)) == t + right && Trim(w + (t + right)) == t
  {
    hide IsSpace;
    assert (t + right)[0] == t[0];
    TrimStartDrops(w, t + right);
    assert w + (t + right) == w + t + right;
    TrimFinds(w, t, right);
  }

  /** No line feed, carriage return, line separator or paragraph separator. */
  predicate StaysOnLine(c: char) {
    c as int != 10 && c as int != 13 && c as int != 8232 && c as int != 8233
  }

  /** Hashes, white space and a text are a heading exactly when there are two to six hashes and the rest
      of the line holds no line break of any kind; the text is what stands between the spaces. */
  lemma HeadingOfLine(n: nat, w: string, t: string, right: string)
    requires AllSpace(w) && w != [] && t != [] && Trimmed(t) && AllSpace(right)
    ensures HeadingOf(Repeat('#', n) + (w + (t + right))) ==
      if 2 <= n <= 6 && (forall i | 0 <= i < |t + right| :: StaysOnLine((t + right)[i])) then Some(Heading(n, t))
      else None
  {
    var rest := w + (t + right);
    var line := Repeat('#', n) + rest;
    assert rest[0] == w[0] && IsSpace(w[0]) && line[n] == w[0];
    RunOfRepeat('#', n, rest, ' ');
    assert line[n..] == rest;
    Ends(w, t, right);
    hide Run, TrimStart, Trim, IsSpace;
  }

  /** Without white space after the hashes there is no heading, and with nothing but that it is empty. */
  lemma HeadingWithoutText(n: nat, w: string, rest: string)
    requires AllSpace(w) && w != [] && (rest == [] || (!IsSpace(rest[0]) && rest[0] != '#'))
    ensures HeadingOf(Repeat('#', n) + rest) == None
    ensures HeadingOf(Repeat('#', n) + w) == if 2 <= n <= 6 then Some(Heading(n, "")) else None
  {
    var line := Repeat('#', n) + rest;
    RunOfRepeat('#', n, rest, ' ');
    assert rest != [] ==> line[n] == rest[0];
    var blank := Repeat('#', n) + w;
    assert IsSpace(w[0]) && blank[n] == w[0] && blank[n..] == w;
    RunOfRepeat('#', n, w, ' ');
    TrimStartDrops(w, []);
    assert w + [] == w && w == w + [] + [];
    TrimFinds(w, [], []);
    hide Run, TrimStart, Trim, IsSpace, EndsLine;
  }

  /** A text without a line feed is one line. */
  lemma {:induction false} LinesWithoutBreak(s: string)
    requires '\n' !in s
    ensures Lines(s) == [s]
  {
    if s != [] {
      LinesWithoutBreak(s[1..]);
      assert s == [s[0]] + s[1..];
    }
  }
}
