/** Which sections keep a chapter from splitting back: ai/mcp/src/build-corpus.ts. */
module ChapterText {
  import opened Options
  import opened Text
  import opened Markdown
  import opened MarkdownText
  import opened Chapters

  /** The line feed is the only character in the text that ends a line. */
  ghost predicate Plain(s: string) {
    forall i | 0 <= i < |s| :: EndsLine(s[i]) ==> s[i] == '\n'
  }

  /** No line but the first opens a section. */
  predicate RestIsClean(s: string) {
    Cut(FenceAfter(None, Lines(s)[0]), Lines(s)[1..]).blocks == []
  }

  lemma CleanMeans(s: string)
    ensures Clean(s) <==> RestIsClean(s) && HeadingOf(Lines(s)[0]).None?
  {
    CleanCuts(s);
    hide Lines, HeadingOf, SplitSections, FenceAfter;
    if HeadingOf(Lines(s)[0]).Some? {
      HeadingIsProper(Lines(s)[0]);
      HashIsPlain(Lines(s)[0]);
    }
  }

  // ----- trimming a clean text

  lemma {:induction false} RestWithoutLeading(s: string)
    requires Plain(s) && RestIsClean(s)
    ensures RestIsClean(TrimStart(s))
  {
    if s != [] && IsSpace(s[0]) {
      var rest := s[1..];
      assert Plain(rest);
      assert s == [s[0]] + rest;
      if s[0] == '\n' {
        CleanMeans(rest);
        CleanCuts(rest);
        assert MarkerOf("").None?;
      } else {
        assert EndsLine('\r');
        MarkerOfLeading(s[0], Lines(rest)[0]);
        assert Lines(s) == Widen(s[0], Lines(rest));
      }
      RestWithoutLeading(rest);
    }
  }

  lemma {:induction false} LinesAreFromText(s: string, k: nat, c: char)
    requires k < |Lines(s)| && c in Lines(s)[k]
    ensures c in s
    decreases |s|
  {
    if s != [] {
      if s[0] == '\n' {
        LinesAreFromText(s[1..], k - 1, c);
      } else if |s| > 1 && s[0] == '\r' && s[1] == '\n' {
        LinesAreFromText(s[2..], k - 1, c);
      } else if k > 0 || c in Lines(s[1..])[0] {
        LinesAreFromText(s[1..], k, c);
      }
    }
  }

  lemma HeadingOfLonger(line: string, c: char)
    requires HeadingOf(line).Some? && IsSpace(c) && forall i | 0 <= i < |line + [c]| :: !EndsLine((line + [c])[i])
    ensures HeadingOf(line + [c]).Some?
  {
    RunOfLonger(line, c, '#');
    var n := Run(line, '#');
    var rest := (line + [c])[n..];
    var left := TrimStartSplits(rest);
    hide TrimStart;
    assert forall i | 0 <= i < |rest| :: rest[i] == (line + [c])[n + i];
    assert forall i | 0 <= i < |TrimStart(rest)| :: TrimStart(rest)[i] == rest[|left| + i];
  }

  lemma PlainLine(s: string, k: nat)
    requires Plain(s) && k < |Lines(s)|
    ensures forall i | 0 <= i < |Lines(s)[k]| :: !EndsLine(Lines(s)[k][i])
  {
    LinesHoldNoBreaks(s);
    forall i | 0 <= i < |Lines(s)[k]| ensures !EndsLine(Lines(s)[k][i]) {
      var c := Lines(s)[k][i];
      assert c in Lines(s)[k];
      LinesAreFromText(s, k, c);
      var j :| 0 <= j < |s| && s[j] == c;
    }
  }

  lemma NoReturnIn(s: string)
    requires Plain(s)
    ensures '\r' !in s
  {
    assert EndsLine('\r');
  }

  lemma RestWithoutLast(s: string, c: char)
    requires IsSpace(c) && Plain(s + [c]) && RestIsClean(s + [c])
    ensures RestIsClean(s)
  {
    hide Lines, FenceAfter, HeadingOf, Broken, Extend;
    LinesOfLonger(s, c);
    var lines := Lines(s);
    if c == '\n' {
      NoReturnIn(s + [c]);
      LinesUnbroken(s);
      assert (lines + [""])[1..] == lines[1..] + [""];
      CutBoth(FenceAfter(None, lines[0]), lines[1..], [""]);
    } else if |lines| > 1 {
      PlainLine(s + [c], |lines| - 1);
      ExtendFirst(lines, c);
      LastLineShorter(FenceAfter(None, lines[0]), lines, c);
    }
  }

  lemma ExtendFirst(lines: seq<string>, c: char)
    requires |lines| > 1
    ensures Extend(lines, c)[0] == lines[0]
  {
  }

  /** A last line that is no heading is none without its last white space either. */
  lemma LastLineShorter(f: Fence, lines: seq<string>, c: char)
    requires |lines| > 1 && IsSpace(c) && Cut(f, Extend(lines, c)[1..]).blocks == []
    requires var line := Extend(lines, c)[|lines| - 1]; forall i | 0 <= i < |line| :: !EndsLine(line[i])
    ensures Cut(f, lines[1..]).blocks == []
  {
    hide FenceAfter, HeadingOf;
    var n := |lines| - 1;
    var middle, last := lines[1..n], lines[n];
    assert lines[1..] == middle + [last];
    assert Extend(lines, c)[n] == last + [c];
    assert Extend(lines, c)[1..] == middle + [last + [c]];
    CutBoth(f, middle, [last + [c]]);
    CutBoth(f, middle, [last]);
    var g := FenceAfterAll(f, middle);
    hide Cut, FenceAfterAll, Extend;
    CutOne(g, last);
    CutOne(g, last + [c]);
    MarkerOfLonger(last, c);
    if HeadingOf(last).Some? { HeadingOfLonger(last, c); }
  }

  lemma {:induction false} RestWithoutTrailing(s: string)
    requires Plain(s) && RestIsClean(s)
    ensures RestIsClean(TrimEnd(s))
    decreases |s|
  {
    hide RestIsClean;
    if s != [] && IsSpace(s[|s| - 1]) {
      var n := |s| - 1;
      assert s == s[..n] + [s[n]];
      RestWithoutLast(s[..n], s[n]);
      RestWithoutTrailing(s[..n]);
    }
  }

  lemma TrimStartIsPlain(s: string)
    requires Plain(s)
    ensures Plain(TrimStart(s))
  {
    var left := TrimStartSplits(s);
    assert forall i | 0 <= i < |TrimStart(s)| :: TrimStart(s)[i] == s[|left| + i];
  }

  // ----- the sections of a document

  lemma {:induction false} JoinHolds(lines: seq<string>, k: nat, c: char)
    requires k < |lines| && c in lines[k]
    ensures c in Join(lines, "\n")
  {
    if |lines| > 1 {
      assert lines == [lines[0]] + lines[1..];
      JoinMore(lines[0], lines[1..]);
      if k > 0 { JoinHolds(lines[1..], k - 1, c); }
    }
  }

  lemma {:induction false} LinesOfJoin(lines: seq<string>)
    requires lines != [] && forall k | 0 <= k < |lines| :: '\n' !in lines[k] && !EndsInReturn(lines[k])
    ensures Lines(Join(lines, "\n")) == lines
  {
    hide Lines;
    LinesOfOne(lines[0]);
    if |lines| > 1 {
      LinesOfJoin(lines[1..]);
      assert lines == [lines[0]] + lines[1..];
      JoinMore(lines[0], lines[1..]);
      LinesOfTwo(lines[0], Join(lines[1..], "\n"));
      LinesUnbroken(lines[0]);
    }
  }

  lemma BodyIsClean(block: Block)
    requires Proper(block) && Plain(Join(block.lines, "\n"))
    ensures Clean(Join(block.lines, "\n"))
  {
    var body := Join(block.lines, "\n");
    CleanCuts(body);
    BlankIsClean();
    hide Lines, Cut, Join, SplitSections;
    if block.lines == [] {
      EmptyJoin();
    } else {
      NoReturnIn(body);
      forall k | 0 <= k < |block.lines| ensures !EndsInReturn(block.lines[k]) {
        var line := block.lines[k];
        if EndsInReturn(line) {
          assert '\r' in line;
          JoinHolds(block.lines, k, '\r');
        }
      }
      LinesOfJoin(block.lines);
    }
  }

  lemma EmptyJoin()
    ensures Join([], "\n") == ""
  {
  }

  /** In a document whose bodies have no line ends but line feeds, a section's text splits into
      headings exactly when its first line, once trimmed, is one: a heading within a fence,
      or further down, never counts. */
  lemma OnlyTheFirstLineIsPromoted(source: string, k: nat)
    requires k < |SplitSections(source)| && Plain(SplitSections(source)[k].body)
    ensures var text := TextOf(SplitSections(source)[k]);
      (Clean(text) <==> HeadingOf(Lines(text)[0]).None?) && !HasReturn(text)
  {
    var body := SplitSections(source)[k].body;
    LinesHoldNoBreaks(source);
    BlocksAreProper(None, Lines(source));
    hide Lines, Cut, Join, Proper, HeadingOf, Clean, RestIsClean, HasReturn, Trim;
    assert Proper(Cut(None, Lines(source)).blocks[k]);
    BodyIsClean(Cut(None, Lines(source)).blocks[k]);
    CleanMeans(body);
    RestWithoutLeading(body);
    TrimStartIsPlain(body);
    RestWithoutTrailing(TrimStart(body));
    assert Trim(body) == TrimEnd(TrimStart(body)) by { TrimMeans(body); }
    CleanMeans(Trim(body));
    TrimHasNoReturn(body);
  }

  lemma TrimMeans(s: string)
    ensures Trim(s) == TrimEnd(TrimStart(s))
  {
  }

  lemma TrimHasNoReturn(s: string)
    requires Plain(s)
    ensures !HasReturn(Trim(s))
  {
    var left, right := TrimSplits(s);
    hide Trim;
    assert EndsLine('\r');
    assert forall i | 0 <= i < |Trim(s)| :: Trim(s)[i] == s[|left| + i];
  }

  // ----- documents whose only line ends are line feeds

  lemma {:induction false} BeforeHoldsLines(fence: Fence, lines: seq<string>, line: string)
    requires line in Cut(fence, lines).before
    ensures line in lines
    decreases |lines|
  {
    hide FenceAfter, HeadingOf;
    assert lines == [lines[0]] + lines[1..];
    if line != lines[0] { BeforeHoldsLines(FenceAfter(fence, lines[0]), lines[1..], line); }
  }

  lemma {:induction false} BlocksHoldLines(fence: Fence, lines: seq<string>, k: nat, line: string)
    requires k < |Cut(fence, lines).blocks| && line in Cut(fence, lines).blocks[k].lines
    ensures line in lines
    decreases |lines|
  {
    hide FenceAfter, HeadingOf;
    var f, rest := FenceAfter(fence, lines[0]), lines[1..];
    assert lines == [lines[0]] + rest;
    if !OpensSection(fence, lines[0]) {
      BlocksHoldLines(f, rest, k, line);
    } else if k > 0 {
      BlocksHoldLines(f, rest, k - 1, line);
    } else {
      BeforeHoldsLines(f, rest, line);
    }
  }

  lemma {:induction false} JoinHoldsOnly(lines: seq<string>, c: char)
    requires c in Join(lines, "\n")
    ensures c == '\n' || exists line :: line in lines && c in line
  {
    if |lines| == 1 {
      assert lines[0] in lines;
    } else if |lines| > 1 {
      assert lines == [lines[0]] + lines[1..];
      JoinMore(lines[0], lines[1..]);
      if c in lines[0] {
        assert lines[0] in lines;
      } else if c != '\n' {
        JoinHoldsOnly(lines[1..], c);
      }
    }
  }

  lemma BodiesArePlain(source: string, k: nat)
    requires Plain(source) && k < |SplitSections(source)|
    ensures Plain(SplitSections(source)[k].body)
  {
    var lines := Lines(source);
    var blocks := Cut(None, lines).blocks;
    var body := SplitSections(source)[k].body;
    hide Cut, Lines, Join;
    forall i | 0 <= i < |body| && EndsLine(body[i]) ensures body[i] == '\n' {
      assert body[i] in body;
      JoinHoldsOnly(blocks[k].lines, body[i]);
      if body[i] != '\n' {
        var line :| line in blocks[k].lines && body[i] in line;
        BlocksHoldLines(None, lines, k, line);
        var n :| 0 <= n < |lines| && lines[n] == line;
        LinesAreFromText(source, n, body[i]);
      }
    }
  }

  lemma {:induction false} GroupsHoldTheSections(groups: seq<Group>, g: Group, s: Section)
    requires g in groups && s in [g.head] + g.subs
    ensures s in Flatten(groups)
  {
    if groups[0] != g { GroupsHoldTheSections(groups[1..], g, s); }
  }

  lemma SectionIsInDocument(source: string, group: Group, s: Section)
    requires group in Groups(SplitSections(source)).groups && s in [group.head] + group.subs
    ensures s in SplitSections(source)
  {
    hide SplitSections, Groups;
    GroupsPartition(SplitSections(source));
    GroupsHoldTheSections(Groups(SplitSections(source)).groups, group, s);
  }

  /** Where line feeds are the only line ends of a document, splitting one of its chapters
      returns the chapter's sections exactly when no text in it begins with a heading, once
      trimmed. */
  lemma PlainChapterSplitsBack(source: string, group: Group)
    requires Plain(source) && group in Groups(SplitSections(source)).groups
    ensures GivesBack(SplitSections(Printed(group)), group.subs) <==>
      forall k | 0 <= k < |group.subs| + 1 :: HeadingOf(Lines(TextOf(([group.head] + group.subs)[k]))[0]).None?
  {
    hide SplitSections, Groups, Printed, Lines, HeadingOf, TextOf, Clean, HasReturn, Plain, GivesBack;
    ChapterSplitsBack(source, group);
    var all := [group.head] + group.subs;
    forall k | 0 <= k < |all|
      ensures (Clean(TextOf(all[k])) <==> HeadingOf(Lines(TextOf(all[k]))[0]).None?) && !HasReturn(TextOf(all[k]))
    {
      SectionIsInDocument(source, group, all[k]);
      var n :| 0 <= n < |SplitSections(source)| && SplitSections(source)[n] == all[k];
      BodiesArePlain(source, n);
      OnlyTheFirstLineIsPromoted(source, n);
    }
    assert forall k | 0 <= k < |group.subs| :: group.subs[k] == all[k + 1];
  }

  // ----- reading one section by its name

  /** The first section of that name, letter case aside. */
  function FirstNamed(lower: string -> string, sections: seq<Section>, name: string): Option<Section> {
    if sections == [] then None
    else if lower(sections[0].heading.text) == lower(name) then Some(sections[0])
    else FirstNamed(lower, sections[1..], name)
  }

  function Shown(s: Section): string {
    "## " + s.heading.text + "\n\n" + TextOf(s)
  }

  /** `readChapter` with a section's name; nothing stands for its error. */
  function ReadSection(lower: string -> string, body: string, name: string): Option<string> {
    match FirstNamed(lower, SplitSections(body), name)
    case None => None
    case Some(s) => Some(Shown(s))
  }

  lemma {:induction false} FirstNamedIs(lower: string -> string, sections: seq<Section>, name: string, k: nat)
    requires k <= |sections| && forall j | 0 <= j < k :: lower(sections[j].heading.text) != lower(name)
    requires k < |sections| ==> lower(sections[k].heading.text) == lower(name)
    ensures FirstNamed(lower, sections, name) == if k < |sections| then Some(sections[k]) else None
  {
    if k > 0 {
      FirstNamedIs(lower, sections[1..], name, k - 1);
    }
  }

  /** Reading shows the heading and the trimmed text of the first section of that name, letter case aside,
      and nothing when there is none. */
  lemma ReadingShowsTheFirst(lower: string -> string, body: string, name: string, k: nat)
    requires var sections := SplitSections(body);
      && k <= |sections| && (forall j | 0 <= j < k :: lower(sections[j].heading.text) != lower(name))
      && (k < |sections| ==> lower(sections[k].heading.text) == lower(name))
    ensures var sections := SplitSections(body);
      ReadSection(lower, body, name) == if k == |sections| then None
        else Some("## " + sections[k].heading.text + "\n\n" + Trim(sections[k].body))
  {
    hide SplitSections, Trim;
    FirstNamedIs(lower, SplitSections(body), name, k);
  }

  lemma {:induction false} SameNamed(lower: string -> string, sections: seq<Section>, subs: seq<Section>, name: string)
    requires GivesBack(sections, subs)
    ensures var s, t := FirstNamed(lower, sections, name), FirstNamed(lower, subs, name);
      (s.Some? <==> t.Some?) && (t.Some? ==> Shown(s.value) == Shown(t.value))
  {
    hide Trim;
    if sections != [] {
      assert sections[0].heading == subs[0].heading && TextOf(sections[0]) == TextOf(subs[0]);
      assert GivesBack(sections[1..], subs[1..]) by {
        forall k | 0 <= k < |subs[1..]|
          ensures sections[1..][k].heading == subs[1..][k].heading &&
            Trim(sections[1..][k].body) == TextOf(subs[1..][k])
        {
          assert sections[1..][k] == sections[k + 1] && subs[1..][k] == subs[k + 1];
        }
      }
      SameNamed(lower, sections[1..], subs[1..], name);
    }
  }

  /** Reading a section of a chapter that splits back finds the first of the chapter's own
      sections of that name and shows its own text, and finds none only if there is none. */
  lemma ReadingShowsTheSection(lower: string -> string, source: string, group: Group, name: string)
    requires group in Groups(SplitSections(source)).groups
    requires AllClean([group.head] + group.subs) && NoReturns(group.subs)
    ensures ReadSection(lower, Printed(group), name) ==
      var s := FirstNamed(lower, group.subs, name); if s.None? then None else Some(Shown(s.value))
  {
    hide SplitSections, Groups, Printed, AllClean, NoReturns, GivesBack, FirstNamed, Shown;
    ChapterSplitsBack(source, group);
    SameNamed(lower, SplitSections(Printed(group)), group.subs, name);
  }

  // ----- documents whose chapters do not split back

  lemma PrintedHeadings()
    ensures HeadingLine(Heading(2, "A")) == "## A" && HeadingLine(Heading(2, "B")) == "## B"
    ensures HeadingLine(Heading(3, "B")) == "### B"
  {
    assert Hashes(1) == "#" + Hashes(0);
    assert Hashes(2) == "#" + Hashes(1);
    assert Hashes(3) == "#" + Hashes(2);
  }

  lemma IndentedIsText()
    ensures Lines("  ## B") == ["  ## B"] && Cut(None, ["  ## B"]) == Pieces(["  ## B"], [])
  {
    var s := "  ## B";
    LinesOfOne(s);
    hide Trim, Lines;
    assert HeadingOf(s).None? by { assert Run(s, '#') == 0; }
    CutOne(None, s);
  }

  /** Trimming promotes an indented heading. */
  lemma TrimmedIsHeading()
    ensures Trim("  ## B") == "## B" && !Clean("## B")
  {
    hide Clean, Trim, TrimStart, HeadingLine, Lines, RestIsClean, MarkerOf, EndsInReturn, HeadingOf;
    PrintedHeadings();
    HeadingLineReads(Heading(2, "B"));
    CleanMeans("## B");
    assert "  " + "## B" + "" == "  ## B";
    TrimFinds("  ", "## B", "");
  }

  lemma SplitIndented()
    ensures SplitSections("## A\n  ## B") == [Section(Heading(2, "A"), "  ## B")]
  {
    hide Lines, Cut, HeadingLine, Trim, TrimStart, Broken, EndsInReturn, ProperHeading, Run, HeadingOf, MarkerOf;
    PrintedHeadings();
    IndentedIsText();
    assert "## A\n  ## B" == "## A" + ("\n" + "  ## B");
    LinesOfTwo("## A", "  ## B");
    assert ProperHeading(Heading(2, "A")) by { HeadingsAreProper(); }
    HeadingLineReads(Heading(2, "A"));
    LinesUnbroken("## A");
    CutHeading(Heading(2, "A"), ["  ## B"]);
  }

  lemma HeadingsAreProper()
    ensures ProperHeading(Heading(2, "A")) && ProperHeading(Heading(2, "B")) && ProperHeading(Heading(3, "B"))
  {
  }

  /** A document whose chapter does not split back: a heading, and an indented line like one. */
  lemma IndentedHeadingIsPromoted()
    ensures var source, group := "## A\n  ## B", Group(Section(Heading(2, "A"), "  ## B"), []);
      group in Groups(SplitSections(source)).groups && !GivesBack(SplitSections(Printed(group)), group.subs)
  {
    var source, head := "## A\n  ## B", Section(Heading(2, "A"), "  ## B");
    var group := Group(head, []);
    SplitIndented();
    assert [head][1..] == [];
    assert Groups([head]) == Fold([], [group]);
    TrimmedIsHeading();
    assert TextOf(head) == "## B";
    assert ([head] + [])[0] == head;
    hide SplitSections, Groups, Printed, Clean, TextOf, NoReturns, GivesBack;
    assert !AllClean([head] + []);
    ChapterSplitsBack(source, group);
  }

  lemma SplitReturn()
    ensures SplitSections("## A\n### B\na\r\r\nb") == [Section(Heading(2, "A"), ""), Section(Heading(3, "B"), "a\r\nb")]
  {
    hide Lines, Cut, HeadingLine, Trim, TrimStart, Broken, EndsInReturn, ProperHeading, Run, HeadingOf, MarkerOf;
    PrintedHeadings();
    HeadingsAreProper();
    HeadingLineReads(Heading(2, "A"));
    HeadingLineReads(Heading(3, "B"));
    LinesUnbroken("## A");
    LinesUnbroken("### B");
    assert "## A\n### B\na\r\r\nb" == "## A" + ("\n" + ("### B" + ("\n" + "a\r\r\nb")));
    LinesOfTwo("## A", "### B" + ("\n" + "a\r\r\nb"));
    LinesOfTwo("### B", "a\r\r\nb");
    ReturnLines();
    CutHeading(Heading(3, "B"), ["a\r", "b"]);
    CutHeading(Heading(2, "A"), ["### B"] + ["a\r", "b"]);
    assert Join(["a\r", "b"], "\n") == "a\r\nb" by { assert ["a\r", "b"][1..] == ["b"]; }
    assert Join([], "\n") == "" by { EmptyJoin(); }
  }

  lemma ReturnLines()
    ensures Lines("a\r\r\nb") == ["a\r", "b"] && Cut(None, ["a\r", "b"]) == Pieces(["a\r", "b"], [])
  {
    assert "a\r\r\nb" == "a\r\r" + ("\n" + "b");
    LinesOfTwo("a\r\r", "b");
    LinesOfOne("a\r\r");
    LinesOfOne("b");
    assert "a\r\r"[..2] == "a\r";
    PlainLines();
    hide MarkerOf, HeadingOf;
    assert ["a\r", "b"][1..] == ["b"];
    CutOne(None, "b");
  }

  lemma PlainLines()
    ensures MarkerOf("a\r").None? && HeadingOf("a\r").None? && MarkerOf("b").None? && HeadingOf("b").None?
  {
  }

  lemma OneGroup(head: Section, sub: Section)
    requires head.heading.level == 2 && sub.heading.level != 2
    ensures Groups([head, sub]) == Fold([], [Group(head, [sub])])
  {
    assert [head, sub][1..] == [sub] && [sub][1..] == [];
    assert Groups([sub]) == Fold([sub], []);
  }

  lemma TextHasReturn(s: Section)
    requires s.body == "a\r\nb"
    ensures HasReturn(TextOf(s))
  {
    hide Trim, TrimStart;
    assert "" + "a\r\nb" + "" == "a\r\nb" && AllSpace("");
    TrimFinds("", "a\r\nb", "");
    assert "a\r\nb"[1] == '\r' && "a\r\nb"[1 + 1] == '\n';
  }

  /** Another: a section whose text has two carriage returns before a line feed. */
  lemma ReturnIsLost()
    ensures var source := "## A\n### B\na\r\r\nb";
      var group := Group(Section(Heading(2, "A"), ""), [Section(Heading(3, "B"), "a\r\nb")]);
      group in Groups(SplitSections(source)).groups && !GivesBack(SplitSections(Printed(group)), group.subs)
  {
    var source, head, sub := "## A\n### B\na\r\r\nb", Section(Heading(2, "A"), ""), Section(Heading(3, "B"), "a\r\nb");
    var group := Group(head, [sub]);
    hide SplitSections, Groups, Printed, Clean, TextOf, AllClean, GivesBack, HasReturn;
    SplitReturn();
    OneGroup(head, sub);
    TextHasReturn(sub);
    assert !NoReturns([sub]) by { assert HasReturn(TextOf([sub][0])); }
    ChapterSplitsBack(source, group);
  }
}
