/** Chapters folded from the flat list of sections of one document, and what splitting
    a chapter's body again returns: ai/mcp/src/build-corpus.ts. */
module Chapters {
  import opened Options
  import opened Text
  import opened Markdown
  import opened MarkdownText

  // ----- folding sections into chapters

  /** A section of level 2 with the deeper ones that follow it. */
  datatype Group = Group(head: Section, subs: seq<Section>)

  /** The sections before the first of level 2, and the groups. */
  datatype Fold = Fold(lost: seq<Section>, groups: seq<Group>)

  function Groups(flat: seq<Section>): Fold {
    if flat == [] then Fold([], [])
    else
      var rest := Groups(flat[1..]);
      if flat[0].heading.level == 2 then Fold([], [Group(flat[0], rest.lost)] + rest.groups)
      else Fold([flat[0]] + rest.lost, rest.groups)
  }

  function Hashes(n: nat): (s: string)
    ensures |s| == n && forall i | 0 <= i < n :: s[i] == '#'
  {
    if n == 0 then "" else "#" + Hashes(n - 1)
  }

  function HeadingLine(h: Heading): string {
    Hashes(h.level) + " " + h.text
  }

  /** The text of a section, as a chapter prints it. */
  function TextOf(s: Section): string {
    Trim(s.body)
  }

  /** A section's heading, and its text if it has any. */
  function Part(section: Section): string {
    var body := TextOf(section);
    HeadingLine(section.heading) + if body == "" then "" else "\n\n" + body
  }

  function Parts(sections: seq<Section>): (r: seq<string>)
    ensures |r| == |sections|
  {
    if sections == [] then [] else [Part(sections[0])] + Parts(sections[1..])
  }

  function Printed(group: Group): string {
    Join((if TextOf(group.head) == "" then [] else [TextOf(group.head)]) + Parts(group.subs), "\n\n")
  }

  /** The names that a chapter lists: its sections of level 3. */
  function Listed(sections: seq<Section>): seq<Heading> {
    if sections == [] then []
    else (if sections[0].heading.level == 3 then [sections[0].heading] else []) + Listed(sections[1..])
  }

  datatype Chapter = Chapter(id: string, title: string, order: nat, sections: seq<Heading>, body: string)

  /** JavaScript's `toLowerCase`, which is not defined here. */
  type Lowering = string -> string

  function ChapterOf(lower: Lowering, group: Group, order: nat): Chapter {
    var title := group.head.heading.text;
    Chapter(ChapterId(lower, title), title, order, Listed(group.subs), Printed(group))
  }

  // ----- the identifier of a chapter

  predicate IsIdChar(c: char) {
    'a' <= c <= 'z' || '0' <= c <= '9'
  }

  /** A dash for every run of other characters. */
  function Dashed(s: string): string {
    if s == [] then []
    else
      var rest := Dashed(s[1..]);
      if IsIdChar(s[0]) then [s[0]] + rest
      else if rest != [] && rest[0] == '-' then rest
      else "-" + rest
  }

  /** Without a dash at either end. */
  function Undashed(s: string): string {
    var t := if s != [] && s[0] == '-' then s[1..] else s;
    if t != [] && t[|t| - 1] == '-' then t[..|t| - 1] else t
  }

  function ChapterId(lower: Lowering, title: string): string {
    Undashed(Dashed(lower(title)))
  }

  predicate IsIdText(s: string) {
    forall i | 0 <= i < |s| :: IsIdChar(s[i]) || s[i] == '-'
  }

  /** No two dashes follow each other. */
  predicate IsSingle(s: string) {
    forall i | 1 <= i < |s| :: s[i] == '-' ==> s[i - 1] != '-'
  }

  /** Lower-case letters and digits, in words with single dashes between them. */
  predicate IsSlug(s: string) {
    IsIdText(s) && IsSingle(s) && (s != [] ==> s[0] != '-' && s[|s| - 1] != '-')
  }

  lemma SingleCons(c: char, s: string)
    requires IsIdText(s) && IsSingle(s) && (IsIdChar(c) || c == '-') && (s != [] && c == '-' ==> s[0] != '-')
    ensures IsIdText([c] + s) && IsSingle([c] + s)
  {
    forall i | 1 <= i < |[c] + s| && ([c] + s)[i] == '-' ensures ([c] + s)[i - 1] != '-' {
      assert ([c] + s)[i] == s[i - 1];
      if i > 1 { assert ([c] + s)[i - 1] == s[i - 2]; }
    }
  }

  lemma SingleSlice(s: string, i: nat, j: nat)
    requires i <= j <= |s| && IsIdText(s) && IsSingle(s)
    ensures IsIdText(s[i..j]) && IsSingle(s[i..j])
  {
    forall k | 1 <= k < |s[i..j]| && s[i..j][k] == '-' ensures s[i..j][k - 1] != '-' {
      assert s[i..j][k] == s[i + k] && s[i..j][k - 1] == s[i + k - 1];
    }
  }

  lemma {:induction false} DashedIsSingle(s: string)
    ensures IsIdText(Dashed(s)) && IsSingle(Dashed(s))
  {
    hide IsIdChar, IsSingle, IsIdText;
    if s == [] {
      NothingIsSingle();
    } else {
      DashedIsSingle(s[1..]);
      var rest := Dashed(s[1..]);
      if IsIdChar(s[0]) {
        IdCharIsNoDash(s[0]);
        SingleCons(s[0], rest);
      } else if rest == [] || rest[0] != '-' {
        SingleCons('-', rest);
      }
    }
  }

  lemma NothingIsSingle()
    ensures IsIdText("") && IsSingle("")
  {
  }

  lemma IdCharIsNoDash(c: char)
    ensures IsIdChar(c) ==> c != '-'
  {
  }

  /** Every identifier is a slug, */
  lemma ChapterIdIsSlug(lower: Lowering, title: string)
    ensures IsSlug(ChapterId(lower, title))
  {
    var d := Dashed(lower(title));
    DashedIsSingle(lower(title));
    var t := if d != [] && d[0] == '-' then d[1..] else d;
    SingleSlice(d, if d != [] && d[0] == '-' then 1 else 0, |d|);
    assert d[0..] == d;
    if t != [] && t[|t| - 1] == '-' { SingleSlice(t, 0, |t| - 1); }
    if t != [] && d[0] == '-' { assert t[0] == d[1]; }
  }

  lemma {:induction false} DashedKeepsSlugs(s: string)
    requires IsIdText(s) && IsSingle(s)
    ensures Dashed(s) == s
  {
    if s != [] {
      SingleSlice(s, 1, |s|);
      DashedKeepsSlugs(s[1..]);
      assert s == [s[0]] + s[1..];
      if |s| > 1 { assert s[1..][0] == s[1]; }
    }
  }

  /** and a title that is one in lower case is its own identifier. */
  lemma SlugIsItsOwnId(lower: Lowering, title: string)
    requires IsSlug(lower(title))
    ensures ChapterId(lower, title) == lower(title)
  {
    DashedKeepsSlugs(lower(title));
  }

  /** Words with what stands before, between and behind them. */
  function Spread(gaps: seq<string>, words: seq<string>): string
    requires |gaps| == |words| + 1
  {
    if words == [] then gaps[0] else gaps[0] + (words[0] + Spread(gaps[1..], words[1..]))
  }

  /** Lower-case letters from a to z and digits. */
  predicate IsWord(w: string) {
    w != [] && forall i | 0 <= i < |w| :: 97 <= w[i] as int <= 122 || 48 <= w[i] as int <= 57
  }

  /** No such character. */
  predicate IsBetween(gap: string) {
    forall i | 0 <= i < |gap| :: !(97 <= gap[i] as int <= 122 || 48 <= gap[i] as int <= 57)
  }

  lemma {:induction false} DashedWord(w: string, rest: string)
    requires forall i | 0 <= i < |w| :: IsIdChar(w[i])
    ensures Dashed(w + rest) == w + Dashed(rest)
  {
    if w == [] {
      assert w + rest == rest;
    } else {
      assert (w + rest)[1..] == w[1..] + rest;
      DashedWord(w[1..], rest);
    }
  }

  lemma {:induction false} DashedGap(gap: string, rest: string)
    requires forall i | 0 <= i < |gap| :: !IsIdChar(gap[i])
    ensures Dashed(gap + rest) ==
      if gap == [] || (Dashed(rest) != [] && Dashed(rest)[0] == '-') then Dashed(rest) else "-" + Dashed(rest)
  {
    if gap == [] {
      assert gap + rest == rest;
    } else {
      assert (gap + rest)[1..] == gap[1..] + rest;
      DashedGap(gap[1..], rest);
    }
  }

  function Dash(gap: string): string {
    if gap == "" then "" else "-"
  }

  ghost predicate AreWords(gaps: seq<string>, words: seq<string>) {
    && |gaps| == |words| + 1
    && (forall k | 0 <= k < |words| :: IsWord(words[k]))
    && (forall k | 0 <= k < |gaps| :: IsBetween(gaps[k]))
    && (forall k | 0 < k < |words| :: gaps[k] != "")
  }

  lemma AreWordsRest(gaps: seq<string>, words: seq<string>)
    requires AreWords(gaps, words) && words != []
    ensures AreWords(gaps[1..], words[1..])
  {
    hide IsWord, IsBetween;
  }

  lemma WordsAreIds(w: string, gap: string)
    ensures IsWord(w) ==> w != [] && forall i | 0 <= i < |w| :: IsIdChar(w[i])
    ensures IsBetween(gap) ==> forall i | 0 <= i < |gap| :: !IsIdChar(gap[i])
  {
  }

  lemma {:induction false} DashedSpread(gaps: seq<string>, words: seq<string>)
    requires AreWords(gaps, words)
    ensures Dashed(Spread(gaps, words)) ==
      if words == [] then Dash(gaps[0])
      else Dash(gaps[0]) + (Join(words, "-") + Dash(gaps[|words|]))
  {
    hide IsWord, IsBetween, Dashed;
    WordsAreIds(if words == [] then "" else words[0], gaps[0]);
    if words == [] {
      assert gaps[0] + "" == gaps[0];
      DashedGap(gaps[0], "");
      DashedNothing();
    } else {
      var w, rest := words[0], Spread(gaps[1..], words[1..]);
      AreWordsRest(gaps, words);
      DashedSpread(gaps[1..], words[1..]);
      DashedWord(w, rest);
      DashedGap(gaps[0], w + rest);
      var all := Join(words, "-") + Dash(gaps[|words|]);
      assert Dashed(w + rest) == all by { JoinWords(words, gaps, Dashed(rest)); }
      assert w[0] == all[0] && IsIdChar(w[0]);
    }
  }

  lemma DashedNothing()
    ensures Dashed("") == ""
  {
  }

  lemma JoinWords(words: seq<string>, gaps: seq<string>, rest: string)
    requires words != [] && |gaps| == |words| + 1 && (|words| > 1 ==> gaps[1] != "")
    requires rest == if |words| == 1 then Dash(gaps[1])
      else Dash(gaps[1]) + (Join(words[1..], "-") + Dash(gaps[|words|]))
    ensures words[0] + rest == Join(words, "-") + Dash(gaps[|words|])
  {
    if |words| > 1 {
      assert words[0] + "-" + Join(words[1..], "-") == words[0] + ("-" + Join(words[1..], "-"));
    }
  }

  lemma {:induction false} JoinEnds(words: seq<string>)
    requires words != [] && forall k | 0 <= k < |words| :: words[k] != [] && '-' !in words[k]
    ensures var s := Join(words, "-"); s != [] && s[0] != '-' && s[|s| - 1] != '-'
  {
    if |words| > 1 { JoinEnds(words[1..]); }
  }

  lemma WordsHoldNoDash(gaps: seq<string>, words: seq<string>)
    requires AreWords(gaps, words)
    ensures forall k | 0 <= k < |words| :: words[k] != [] && '-' !in words[k]
  {
    forall k | 0 <= k < |words| ensures words[k] != [] && '-' !in words[k] {
      assert IsWord(words[k]);
    }
  }

  lemma UndashedBetween(a: string, s: string, b: string)
    requires (a == "" || a == "-") && (b == "" || b == "-") && s != [] && s[0] != '-' && s[|s| - 1] != '-'
    ensures Undashed(a + (s + b)) == s
  {
    var all := a + (s + b);
    var t := s + b;
    if a == "-" { assert all[1..] == t; } else { assert all == t && t[0] == s[0]; }
    if b == "-" { assert t[..|t| - 1] == s; } else { assert t == s; }
  }

  /** The identifier of a title is its words in lower case, with a dash wherever anything stands
      between two of them. */
  lemma ChapterIdOfWords(lower: Lowering, title: string, gaps: seq<string>, words: seq<string>)
    requires AreWords(gaps, words) && lower(title) == Spread(gaps, words)
    ensures ChapterId(lower, title) == Join(words, "-")
  {
    DashedSpread(gaps, words);
    if words != [] {
      WordsHoldNoDash(gaps, words);
      JoinEnds(words);
      UndashedBetween(Dash(gaps[0]), Join(words, "-"), Dash(gaps[|words|]));
    }
  }

  // ----- the text of a chapter

  /** A chapter begins with the text of its own section; each further section adds its heading, with a
      hash for each level, and its text if it has any, set off by blank lines. */
  lemma ChapterGrows(head: Section, subs: seq<Section>, s: Section)
    ensures Printed(Group(head, [])) == Trim(head.body)
    ensures var before, text := Printed(Group(head, subs)), Trim(s.body);
      Printed(Group(head, subs + [s])) ==
        (if subs == [] && Trim(head.body) == "" then "" else before + "\n\n")
        + (Repeat('#', s.heading.level) + " " + s.heading.text + (if text == "" then "" else "\n\n" + text))
  {
    PartsPush(subs, s);
    HashesRepeat(s.heading.level);
    hide Trim, Parts, Repeat, Hashes;
    var first := if TextOf(head) == "" then [] else [TextOf(head)];
    PartsCount(subs);
    assert first + (Parts(subs) + [Part(s)]) == first + Parts(subs) + [Part(s)];
    JoinOneMore(first + Parts(subs), Part(s));
    assert first + [] == first;
  }

  /** A chapter has the heading of its own section for a title and the number it is given, and lists the
      headings of its sections of level 3 in order. */
  lemma ChapterIs(lower: Lowering, head: Section, subs: seq<Section>, s: Section, order: nat)
    ensures var chapter := ChapterOf(lower, Group(head, subs + [s]), order);
      && chapter.title == head.heading.text && chapter.order == order
      && chapter.id == ChapterId(lower, head.heading.text) && chapter.body == Printed(Group(head, subs + [s]))
      && chapter.sections == ChapterOf(lower, Group(head, subs), order).sections
           + if s.heading.level == 3 then [Heading(3, s.heading.text)] else []
    ensures ChapterOf(lower, Group(head, []), order).sections == []
  {
    hide Printed, ChapterId;
    PartsPush(subs, s);
  }

  lemma PartsCount(subs: seq<Section>)
    ensures (Parts(subs) == [] <==> subs == []) && Parts([]) == []
  {
  }

  lemma {:induction false} HashesRepeat(n: nat)
    ensures Hashes(n) == Repeat('#', n)
  {
  }

  lemma {:induction false} JoinOneMore(parts: seq<string>, part: string)
    ensures Join(parts + [part], "\n\n") == (if parts == [] then "" else Join(parts, "\n\n") + "\n\n") + part
    ensures Join([], "\n\n") == ""
  {
    if parts == [] {
      assert parts + [part] == [part];
    } else {
      assert (parts + [part])[1..] == parts[1..] + [part];
      JoinOneMore(parts[1..], part);
      if |parts| > 1 {
        var rest := Join(parts[1..], "\n\n");
        assert parts[0] + "\n\n" + (rest + "\n\n" + part) == parts[0] + "\n\n" + rest + "\n\n" + part;
      }
    }
  }

  // ----- every section lands in one chapter

  function Flatten(groups: seq<Group>): seq<Section> {
    if groups == [] then [] else [groups[0].head] + groups[0].subs + Flatten(groups[1..])
  }

  /** Nothing is lost, repeated or moved: the groups are the sections from the first of level 2
      on, cut before each one of level 2. */
  lemma {:induction false} GroupsPartition(flat: seq<Section>)
    ensures Groups(flat).lost + Flatten(Groups(flat).groups) == flat
    ensures forall s | s in Groups(flat).lost :: s.heading.level != 2
    ensures forall g | g in Groups(flat).groups ::
      g.head.heading.level == 2 && forall s | s in g.subs :: s.heading.level != 2
  {
    if flat != [] { GroupsPartition(flat[1..]); }
  }

  // ----- what the sections of a document are like

  /** The block's text closes every fence it opens, and holds no heading. */
  ghost predicate Closed(lines: seq<string>) {
    FenceAfterAll(None, lines) == None
  }

  ghost predicate Proper(block: Block) {
    Cut(None, block.lines).blocks == [] &&
    2 <= block.heading.level <= 6 && Trimmed(block.heading.text) &&
    (forall i | 0 <= i < |block.heading.text| :: !EndsLine(block.heading.text[i])) &&
    forall k | 0 <= k < |block.lines| :: '\n' !in block.lines[k]
  }

  lemma HashIsPlain(line: string)
    requires line != [] && line[0] == '#'
    ensures MarkerOf(line).None?
  {
  }

  lemma HeadingIsProper(line: string)
    requires HeadingOf(line).Some?
    ensures var h := HeadingOf(line).value;
      2 <= h.level <= 6 && Trimmed(h.text) && line != [] && line[0] == '#' &&
      forall i | 0 <= i < |h.text| :: !EndsLine(h.text[i])
  {
    var n := Run(line, '#');
    var left, right := TrimSplits(line[n..]);
    hide Trim;
    TrimEndOfStart(line[n..]);
  }

  lemma TrimEndOfStart(s: string)
    ensures Trim(s) <= TrimStart(s)
  {
    var right := TrimEndSplits(TrimStart(s));
  }

  /** Each block is proper, each but the last is closed, and so is what comes before the first. */
  lemma {:induction false} BlocksAreProper(fence: Fence, lines: seq<string>)
    requires forall k | 0 <= k < |lines| :: '\n' !in lines[k]
    ensures var x := Cut(fence, lines);
      (forall k | 0 <= k < |x.before| :: '\n' !in x.before[k]) &&
      Cut(fence, x.before) == Pieces(x.before, []) &&
      (x.blocks != [] ==> FenceAfterAll(fence, x.before) == None) &&
      (forall k | 0 <= k < |x.blocks| :: Proper(x.blocks[k])) &&
      forall k | 0 <= k < |x.blocks| - 1 :: Closed(x.blocks[k].lines)
    decreases |lines|
  {
    hide FenceAfter, HeadingOf;
    if lines != [] {
      var f := FenceAfter(fence, lines[0]);
      var rest := Cut(f, lines[1..]);
      BlocksAreProper(f, lines[1..]);
      if OpensSection(fence, lines[0]) {
        HeadingIsProper(lines[0]);
        OpeningKeepsFence(fence, lines[0]);
      }
    }
  }

  lemma OpeningKeepsFence(fence: Fence, line: string)
    requires OpensSection(fence, line)
    ensures FenceAfter(fence, line) == None == fence
  {
  }

  // ----- a text read again line by line

  /** A text as its lines join again: carriage returns before line breaks are gone. */
  function Normal(s: string): string {
    Join(Lines(s), "\n")
  }

  lemma JoinMore(first: string, rest: seq<string>)
    requires rest != []
    ensures Join([first] + rest, "\n") == first + ("\n" + Join(rest, "\n"))
  {
    assert ([first] + rest)[1..] == rest;
  }

  lemma JoinWiden(c: char, lines: seq<string>)
    requires lines != []
    ensures Join(Widen(c, lines), "\n") == [c] + Join(lines, "\n")
  {
    if |lines| > 1 {
      assert lines == [lines[0]] + lines[1..];
      JoinMore(lines[0], lines[1..]);
      JoinMore([c] + lines[0], lines[1..]);
    }
  }

  lemma {:induction false} JoinExtend(lines: seq<string>, c: char)
    requires lines != []
    ensures Join(Extend(lines, c), "\n") == Join(lines, "\n") + [c]
  {
    hide Extend;
    if |lines| == 1 {
      assert Extend(lines, c) == [lines[0] + [c]] by { ExtendOne(lines, c); }
    } else {
      ExtendMore(lines, c);
      JoinExtend(lines[1..], c);
      assert lines == [lines[0]] + lines[1..];
      JoinMore(lines[0], lines[1..]);
      JoinMore(lines[0], Extend(lines[1..], c));
    }
  }

  lemma ExtendOne(lines: seq<string>, c: char)
    requires |lines| == 1
    ensures Extend(lines, c) == [lines[0] + [c]]
  {
  }

  lemma ExtendMore(lines: seq<string>, c: char)
    requires |lines| > 1
    ensures Extend(lines, c) == [lines[0]] + Extend(lines[1..], c)
  {
  }

  predicate HasReturn(s: string) {
    exists i | 0 <= i < |s| - 1 :: s[i] == '\r' && s[i + 1] == '\n'
  }

  lemma NormalStep(s: string)
    requires s != []
    ensures Normal(s) ==
      if s[0] == '\n' then "\n" + Normal(s[1..])
      else if |s| > 1 && s[0] == '\r' && s[1] == '\n' then "\n" + Normal(s[2..])
      else [s[0]] + Normal(s[1..])
  {
    if s[0] == '\n' {
      JoinMore("", Lines(s[1..]));
    } else if |s| > 1 && s[0] == '\r' && s[1] == '\n' {
      JoinMore("", Lines(s[2..]));
    } else {
      JoinWiden(s[0], Lines(s[1..]));
    }
  }

  lemma HasReturnTail(s: string)
    requires s != []
    ensures HasReturn(s) <==> (|s| > 1 && s[0] == '\r' && s[1] == '\n') || HasReturn(s[1..])
  {
    if HasReturn(s) {
      var i :| 0 <= i < |s| - 1 && s[i] == '\r' && s[i + 1] == '\n';
      if i > 0 { assert s[1..][i - 1] == '\r' && s[1..][(i - 1) + 1] == '\n'; }
    }
    if HasReturn(s[1..]) {
      var i :| 0 <= i < |s[1..]| - 1 && s[1..][i] == '\r' && s[1..][i + 1] == '\n';
      assert s[i + 1] == '\r' && s[(i + 1) + 1] == '\n';
    }
  }

  /** Only a carriage return before a line break is lost. */
  lemma {:induction false} NormalIsSame(s: string)
    ensures |Normal(s)| <= |s|
    ensures Normal(s) == s <==> !HasReturn(s)
    decreases |s|
  {
    hide Normal, HasReturn;
    if s == [] {
      NormalOfNothing();
    } else {
      NormalStep(s);
      HasReturnTail(s);
      if |s| > 1 && s[0] == '\r' && s[1] == '\n' {
        NormalIsSame(s[2..]);
      } else {
        NormalIsSame(s[1..]);
        assert s == [s[0]] + s[1..];
        assert Normal(s)[0] == s[0] && Normal(s)[1..] == Normal(s[1..]);
      }
    }
  }

  lemma NormalOfNothing()
    ensures Normal("") == "" && !HasReturn("")
  {
  }

  lemma NormalStaysTrimmed(s: string)
    requires Trimmed(s)
    ensures Trimmed(Normal(s)) && (Normal(s) == "" <==> s == "")
  {
    hide Lines;
    if s == "" {
      NormalOfNothing();
    } else {
      NormalStep(s);
      var n := |s| - 1;
      assert s == s[..n] + [s[n]];
      LinesOfLonger(s[..n], s[n]);
      JoinExtend(Lines(s[..n]), s[n]);
    }
  }

  // ----- what one part splits into

  ghost predicate ProperHeading(h: Heading) {
    2 <= h.level <= 6 && Trimmed(h.text) && forall i | 0 <= i < |h.text| :: !EndsLine(h.text[i])
  }

  lemma {:induction false} RunOfHashes(n: nat, rest: string)
    requires rest != [] && rest[0] != '#'
    ensures Run(Hashes(n) + rest, '#') == n
  {
    var s := Hashes(n) + rest;
    assert forall i | 0 <= i < n :: s[i] == '#';
    assert s[n] == rest[0];
  }

  lemma HeadingLineIsOneLine(h: Heading)
    requires ProperHeading(h)
    ensures var line := HeadingLine(h);
      line[0] == '#' && Lines(line) == [line] && !EndsInReturn(line)
  {
    hide Lines;
    var line := HeadingLine(h);
    assert line == Hashes(h.level) + (" " + h.text);
    assert line[0] == Hashes(h.level)[0];
    assert forall i | 0 <= i < |line| :: line[i] == if i < h.level then '#' else (" " + h.text)[i - h.level];
    assert '\n' !in line;
    LinesOfOne(line);
  }

  /** The line that is printed for a heading reads as that heading. */
  lemma HeadingLineReads(h: Heading)
    requires ProperHeading(h)
    ensures HeadingOf(HeadingLine(h)) == Some(h) && MarkerOf(HeadingLine(h)).None?
    ensures Lines(HeadingLine(h)) == [HeadingLine(h)] && !EndsInReturn(HeadingLine(h))
  {
    hide TrimStart, Trim, Run, Lines, Hashes, EndsInReturn;
    HeadingLineIsOneLine(h);
    var line := HeadingLine(h);
    assert line == Hashes(h.level) + (" " + h.text);
    RunOfHashes(h.level, " " + h.text);
    assert line[h.level..] == " " + h.text == " " + h.text + "";
    TrimFinds(" ", h.text, "");
    TrimStartDrops(" ", h.text);
    HashIsPlain(line);
  }

  /** Splitting this text finds no heading in it. */
  predicate Clean(text: string) {
    SplitSections(text) == []
  }

  lemma CleanCuts(text: string)
    ensures Clean(text) <==> Cut(None, Lines(text)).blocks == []
  {
  }

  lemma {:induction false} CutWhole(fence: Fence, lines: seq<string>)
    requires Cut(fence, lines).blocks == []
    ensures Cut(fence, lines) == Pieces(lines, [])
    decreases |lines|
  {
    hide FenceAfter, HeadingOf;
    if lines != [] {
      CutWhole(FenceAfter(fence, lines[0]), lines[1..]);
      assert lines == [lines[0]] + lines[1..];
    }
  }

  lemma LinesUnbroken(s: string)
    requires !EndsInReturn(s)
    ensures Broken(Lines(s)) == Lines(s)
  {
    if s != [] {
      var n := |s| - 1;
      assert s == s[..n] + [s[n]];
      LinesOfLonger(s[..n], s[n]);
    }
  }

  /** The body that a part leaves behind, when no heading stands in it. */
  function PartBody(text: string): seq<string> {
    if text == "" then [] else [""] + Cut(None, Lines(text)).before
  }

  function PartBlocks(text: string): seq<Block> {
    if text == "" then [] else Cut(None, Lines(text)).blocks
  }

  lemma LinesAfterBreak(text: string)
    ensures Lines("\n" + text) == [""] + Lines(text)
  {
    assert ("\n" + text)[1..] == text;
  }

  lemma LinesOfPart(s: Section)
    requires ProperHeading(s.heading)
    ensures Lines(Part(s)) == [HeadingLine(s.heading)] + if TextOf(s) == "" then [] else [""] + Lines(TextOf(s))
  {
    hide Trim, Broken, HeadingLine, HeadingOf, Lines, EndsInReturn;
    HeadingLineReads(s.heading);
    var line, text := HeadingLine(s.heading), TextOf(s);
    if text != "" {
      assert Part(s) == line + ("\n" + ("\n" + text));
      LinesOfTwo(line, "\n" + text);
      LinesUnbroken(line);
      LinesAfterBreak(text);
    } else {
      assert line + "" == line;
    }
  }

  lemma CutHeading(h: Heading, rest: seq<string>)
    requires ProperHeading(h)
    ensures var x := Cut(None, rest);
      Cut(None, [HeadingLine(h)] + rest) == Pieces([], [Block(h, x.before)] + x.blocks) &&
      FenceAfterAll(None, [HeadingLine(h)] + rest) == FenceAfterAll(None, rest)
  {
    hide MarkerOf, HeadingOf, HeadingLine;
    HeadingLineReads(h);
    assert ([HeadingLine(h)] + rest)[1..] == rest;
  }

  lemma CutBlank(rest: seq<string>)
    ensures var x := Cut(None, rest);
      Cut(None, [""] + rest) == Pieces([""] + x.before, x.blocks) &&
      FenceAfterAll(None, [""] + rest) == FenceAfterAll(None, rest)
  {
    assert MarkerOf("").None?;
    assert HeadingOf("").None?;
    assert ([""] + rest)[1..] == rest;
  }

  lemma CutOfPart(s: Section)
    requires ProperHeading(s.heading)
    ensures Cut(None, Lines(Part(s))) ==
      Pieces([], [Block(s.heading, PartBody(TextOf(s)))] + PartBlocks(TextOf(s)))
    ensures FenceAfterAll(None, Lines(Part(s))) == FenceAfterAll(None, Lines(TextOf(s)))
    ensures |PartBlocks(TextOf(s))| == 0 <==> Clean(TextOf(s))
  {
    hide Part, Lines, HeadingLine, Cut, FenceAfterAll, ProperHeading, TextOf, SplitSections;
    LinesOfPart(s);
    var text := TextOf(s);
    CleanCuts(text);
    if text == "" {
      CutHeading(s.heading, []);
      FenceOfBlank(None);
      BlankIsClean();
      assert [HeadingLine(s.heading)] + [] == [HeadingLine(s.heading)];
    } else {
      CutHeading(s.heading, [""] + Lines(text));
      CutBlank(Lines(text));
    }
  }

  lemma BlankIsClean()
    ensures Lines("") == [""] && Clean("") && Cut(None, []) == Pieces([], []) && FenceAfterAll(None, []) == None
  {
    FenceOfBlank(None);
  }

  // ----- what a chapter splits into

  /** The section's heading is one that the splitter makes. */
  ghost predicate ProperSection(s: Section) {
    ProperHeading(s.heading)
  }

  /** The section closes every fence it opens. */
  ghost predicate ClosedSection(s: Section) {
    FenceAfterAll(None, Lines(TextOf(s))) == None
  }

  /** Consecutive sections of some document. */
  ghost predicate Sourced(sections: seq<Section>) {
    (forall k | 0 <= k < |sections| :: ProperSection(sections[k])) &&
    forall k | 0 <= k < |sections| - 1 :: ClosedSection(sections[k])
  }

  ghost predicate AllClean(sections: seq<Section>) {
    forall k | 0 <= k < |sections| :: Clean(TextOf(sections[k]))
  }

  /** The blocks have the sections' headings, and their texts but for carriage returns. */
  ghost predicate Restores(blocks: seq<Block>, sections: seq<Section>) {
    |blocks| == |sections| &&
    forall k | 0 <= k < |blocks| ::
      blocks[k].heading == sections[k].heading &&
      Trim(Join(blocks[k].lines, "\n")) == Normal(TextOf(sections[k]))
  }

  /** One block for every section, exactly when no text holds a heading. */
  ghost predicate Resplit(x: Pieces, sections: seq<Section>) {
    x.before == [] && |x.blocks| >= |sections| &&
    (|x.blocks| == |sections| <==> AllClean(sections)) &&
    (AllClean(sections) ==> Restores(x.blocks, sections))
  }

  lemma TextIsTrimmed(s: Section)
    ensures Trimmed(TextOf(s))
  {
    var left, right := TrimSplits(s.body);
  }

  lemma JoinAppendBlank(lines: seq<string>)
    ensures lines != [] ==> Join(lines + [""], "\n") == Join(lines, "\n") + "\n"
  {
    if |lines| == 1 {
      assert lines + [""] == [lines[0], ""];
      assert Join([""], "\n") == "";
      JoinMore(lines[0], [""]);
      assert lines[0] + ("\n" + "") == lines[0] + "\n";
    } else if |lines| > 1 {
      JoinAppendBlank(lines[1..]);
      assert lines + [""] == [lines[0]] + (lines[1..] + [""]);
      assert lines == [lines[0]] + lines[1..];
      JoinMore(lines[0], lines[1..]);
      JoinMore(lines[0], lines[1..] + [""]);
    }
  }

  /** A clean part's body is its text, whether or not a blank line follows. */
  lemma PartBodyIsText(s: Section)
    requires Clean(TextOf(s))
    ensures Trim(Join(PartBody(TextOf(s)), "\n")) == Normal(TextOf(s))
    ensures Trim(Join(PartBody(TextOf(s)) + [""], "\n")) == Normal(TextOf(s))
  {
    var text := TextOf(s);
    TextIsTrimmed(s);
    NormalStaysTrimmed(text);
    CleanCuts(text);
    hide Lines, Trim, Trimmed, SplitSections, TextOf, Normal;
    if text == "" {
      NormalOfNothing();
      NothingTrims();
    } else {
      CutWhole(None, Lines(text));
      var body := PartBody(text);
      assert body == [""] + Lines(text);
      JoinMore("", Lines(text));
      assert Join(body, "\n") == "\n" + Normal(text) + "" by { NormalIsJoin(text); }
      JoinAppendBlank(body);
      assert Join(body + [""], "\n") == "\n" + Normal(text) + "\n";
      assert AllSpace("") && AllSpace("\n");
      TrimFinds("\n", Normal(text), "");
      TrimFinds("\n", Normal(text), "\n");
    }
  }

  lemma NormalIsJoin(s: string)
    ensures Normal(s) == Join(Lines(s), "\n")
  {
  }

  lemma NothingTrims()
    ensures Trim("") == "" && Join([], "\n") == "" && Join([] + [""], "\n") == ""
  {
    assert [] + [""] == [""];
  }

  /** The pieces of one part. */
  function PartPieces(s: Section): Pieces {
    Pieces([], [Block(s.heading, PartBody(TextOf(s)))] + PartBlocks(TextOf(s)))
  }

  lemma AllCleanOne(s: Section)
    ensures AllClean([s]) <==> Clean(TextOf(s))
  {
    hide Clean;
    assert AllClean([s]) <==> Clean(TextOf([s][0]));
  }

  lemma OneResplits(s: Section)
    requires ProperSection(s)
    ensures Resplit(PartPieces(s), [s])
    ensures Resplit(Glue(PartPieces(s), Pieces([""], [])), [s])
  {
    hide PartBody, PartBlocks, Normal, Clean, Trim, TextOf;
    CutOfPart(s);
    var text := TextOf(s);
    var x, y := PartPieces(s), Glue(PartPieces(s), Pieces([""], []));
    assert |y.blocks| == |x.blocks|;
    AllCleanOne(s);
    if Clean(text) {
      PartBodyIsText(s);
      assert x.blocks == [Block(s.heading, PartBody(text))];
      assert y.blocks == [Block(s.heading, PartBody(text) + [""])];
    }
  }

  lemma ResplitBoth(x: Pieces, s: Section, y: Pieces, rest: seq<Section>)
    requires Resplit(x, [s]) && Resplit(y, rest)
    ensures Resplit(Glue(x, y), [s] + rest)
  {
    hide Normal, Clean, Trim, Join;
    var last := x.blocks[|x.blocks| - 1];
    assert last.lines + [] == last.lines;
    var z := Glue(x, y);
    assert z.blocks == x.blocks + y.blocks;
    assert AllClean([s] + rest) <==> AllClean([s]) && AllClean(rest) by {
      assert ([s] + rest)[0] == [s][0];
      assert forall k | 0 <= k < |rest| :: ([s] + rest)[k + 1] == rest[k];
      assert forall k | 1 <= k < |[s] + rest| :: ([s] + rest)[k] == rest[k - 1];
    }
  }

  lemma PartEnds(s: Section)
    requires ProperSection(s)
    ensures !EndsInReturn(Part(s))
  {
    hide Trim, HeadingLine;
    HeadingLineReads(s.heading);
    TextIsTrimmed(s);
    var text := TextOf(s);
    if text != "" {
      assert Part(s)[|Part(s)| - 1] == text[|text| - 1];
    } else {
      assert Part(s) == HeadingLine(s.heading);
    }
  }

  /** The lines of two texts with a blank line between them. */
  lemma LinesWithBlank(a: string, b: string)
    requires !EndsInReturn(a)
    ensures Lines(a + "\n\n" + b) == Lines(a) + [""] + Lines(b)
  {
    assert a + "\n\n" + b == a + ("\n" + ("\n" + b));
    LinesOfTwo(a, "\n" + b);
    LinesUnbroken(a);
    assert ("\n" + b)[1..] == b;
  }

  /** Splitting a chapter's parts. */
  lemma {:induction false} SubsResplit(subs: seq<Section>)
    requires subs != [] && Sourced(subs)
    ensures Resplit(Cut(None, Lines(Join(Parts(subs), "\n\n"))), subs)
    decreases |subs|
  {
    hide Part, PartPieces, ProperSection, ClosedSection, Resplit, Lines, Cut, FenceAfterAll, TextOf;
    var s := subs[0];
    assert ProperSection(s);
    PartCuts(s);
    OneResplits(s);
    if |subs| == 1 {
      assert subs == [s];
      assert Join(Parts(subs), "\n\n") == Part(s);
    } else {
      var rest := subs[1..];
      var body := Join(Parts(rest), "\n\n");
      SourcedTail(subs);
      SubsResplit(rest);
      assert Join(Parts(subs), "\n\n") == Part(s) + "\n\n" + body by { PartsJoin(subs); }
      PartEnds(s);
      LinesWithBlank(Part(s), body);
      PartThenBlank(s);
      CutBoth(None, Lines(Part(s)) + [""], Lines(body));
      ResplitBoth(Glue(PartPieces(s), Pieces([""], [])), s, Cut(None, Lines(body)), rest);
      assert subs == [s] + rest;
    }
  }

  lemma PartsJoin(subs: seq<Section>)
    requires |subs| > 1
    ensures Join(Parts(subs), "\n\n") == Part(subs[0]) + "\n\n" + Join(Parts(subs[1..]), "\n\n")
  {
    hide Part;
    assert Parts(subs)[1..] == Parts(subs[1..]);
  }

  lemma SourcedTail(sections: seq<Section>)
    requires |sections| > 1 && Sourced(sections)
    ensures ClosedSection(sections[0]) && Sourced(sections[1..])
  {
    hide ProperSection, ClosedSection;
    forall k | 0 <= k < |sections[1..]| ensures ProperSection(sections[1..][k]) {
      assert sections[1..][k] == sections[k + 1];
    }
    forall k | 0 <= k < |sections[1..]| - 1 ensures ClosedSection(sections[1..][k]) {
      assert sections[1..][k] == sections[k + 1];
    }
  }

  lemma PartCuts(s: Section)
    requires ProperSection(s)
    ensures Cut(None, Lines(Part(s))) == PartPieces(s)
    ensures FenceAfterAll(None, Lines(Part(s))) == FenceAfterAll(None, Lines(TextOf(s)))
  {
    hide Cut, Lines, Part, FenceAfterAll, PartBody, PartBlocks, Clean;
    CutOfPart(s);
  }

  lemma PartThenBlank(s: Section)
    requires ProperSection(s) && ClosedSection(s)
    ensures Cut(None, Lines(Part(s)) + [""]) == Glue(PartPieces(s), Pieces([""], []))
    ensures FenceAfterAll(None, Lines(Part(s)) + [""]) == None
  {
    hide Cut, Lines, Part, FenceAfterAll, PartPieces, TextOf;
    PartCuts(s);
    CutBoth(None, Lines(Part(s)), [""]);
    FenceAfterBoth(None, Lines(Part(s)), [""]);
    FenceOfBlank(None);
  }

  // ----- a chapter split again

  /** The chapter's sections, their headings and trimmed bodies, in order. */
  ghost predicate GivesBack(sections: seq<Section>, subs: seq<Section>) {
    |sections| == |subs| &&
    forall k | 0 <= k < |subs| ::
      sections[k].heading == subs[k].heading && Trim(sections[k].body) == TextOf(subs[k])
  }

  ghost predicate NoReturns(subs: seq<Section>) {
    forall k | 0 <= k < |subs| :: !HasReturn(TextOf(subs[k]))
  }

  lemma RestoredGivesBack(blocks: seq<Block>, subs: seq<Section>)
    requires Restores(blocks, subs)
    ensures GivesBack(SectionsOf(blocks), subs) <==> NoReturns(subs)
  {
    hide Normal, HasReturn, Trim, TextOf, Join;
    forall k | 0 <= k < |subs|
      ensures Trim(SectionsOf(blocks)[k].body) == TextOf(subs[k]) <==> !HasReturn(TextOf(subs[k]))
    {
      NormalIsSame(TextOf(subs[k]));
      assert Trim(Join(blocks[k].lines, "\n")) == Normal(TextOf(subs[k]));
    }
    if NoReturns(subs) {
      forall k | 0 <= k < |subs| ensures Trim(SectionsOf(blocks)[k].body) == TextOf(subs[k]) {
        assert !HasReturn(TextOf(subs[k]));
      }
    }
  }

  /** The lines of a whole chapter: the text under its own heading first, when there is any. */
  lemma PrintedPieces(group: Group)
    requires Sourced([group.head] + group.subs)
    ensures var x := Cut(None, Lines(Printed(group)));
      |x.blocks| >= |group.subs| &&
      (|x.blocks| == |group.subs| <==> AllClean([group.head] + group.subs)) &&
      (AllClean([group.head] + group.subs) ==> Restores(x.blocks, group.subs))
  {
    hide Resplit, Lines, Cut, FenceAfterAll, TextOf, ProperSection, ClosedSection, Clean, Part, Restores;
    var head, subs := TextOf(group.head), group.subs;
    var all := [group.head] + subs;
    assert all[0] == group.head && all[1..] == subs;
    AllCleanHead(group.head, subs);
    CleanCuts(head);
    if subs == [] {
      PrintedAlone(group);
      NothingRestores();
    } else {
      SourcedTail(all);
      SubsResplit(subs);
      ResplitMeans(Cut(None, Lines(Join(Parts(subs), "\n\n"))), subs);
      if head == "" {
        PrintedWithoutText(group);
        BlankIsClean();
      } else {
        var body := Join(Parts(subs), "\n\n");
        assert Printed(group) == head + "\n\n" + body by { PrintedWithText(group); }
        TextEnds(group.head);
        LinesWithBlank(head, body);
        HeadThenBlank(group.head);
        CutBoth(None, Lines(head) + [""], Lines(body));
        var z, y := Cut(None, Lines(head) + [""]), Cut(None, Lines(body));
        var last := if z.blocks == [] then [] else z.blocks[|z.blocks| - 1].lines;
        assert last + y.before == last;
      }
    }
  }

  lemma ResplitMeans(x: Pieces, sections: seq<Section>)
    requires Resplit(x, sections)
    ensures x.before == [] && |x.blocks| >= |sections| &&
      (|x.blocks| == |sections| <==> AllClean(sections)) &&
      (AllClean(sections) ==> Restores(x.blocks, sections))
  {
    hide Restores, AllClean;
  }

  lemma AllCleanHead(head: Section, subs: seq<Section>)
    ensures AllClean([head] + subs) <==> Clean(TextOf(head)) && AllClean(subs)
  {
    hide Clean, TextOf;
    var all := [head] + subs;
    assert all[0] == head;
    assert forall k | 0 <= k < |subs| :: all[k + 1] == subs[k];
    assert forall k | 1 <= k < |all| :: all[k] == subs[k - 1];
  }

  lemma PrintedAlone(group: Group)
    requires group.subs == []
    ensures Printed(group) == TextOf(group.head)
  {
  }

  lemma NothingRestores()
    ensures Restores([], []) && AllClean([])
  {
  }

  lemma PrintedWithoutText(group: Group)
    requires TextOf(group.head) == ""
    ensures Printed(group) == Join(Parts(group.subs), "\n\n")
  {
    assert [] + Parts(group.subs) == Parts(group.subs);
  }

  lemma PrintedWithText(group: Group)
    requires TextOf(group.head) != "" && group.subs != []
    ensures Printed(group) == TextOf(group.head) + "\n\n" + Join(Parts(group.subs), "\n\n")
  {
    hide TextOf, Part;
    assert ([TextOf(group.head)] + Parts(group.subs))[1..] == Parts(group.subs);
  }

  lemma TextEnds(s: Section)
    ensures !EndsInReturn(TextOf(s))
  {
    TextIsTrimmed(s);
  }

  lemma HeadThenBlank(s: Section)
    requires ClosedSection(s)
    ensures |Cut(None, Lines(TextOf(s)) + [""]).blocks| == |Cut(None, Lines(TextOf(s))).blocks|
    ensures FenceAfterAll(None, Lines(TextOf(s)) + [""]) == None
  {
    hide Cut, Lines, FenceAfterAll, TextOf;
    CutBoth(None, Lines(TextOf(s)), [""]);
    FenceAfterBoth(None, Lines(TextOf(s)), [""]);
    FenceOfBlank(None);
  }

  // ----- every chapter of every document

  lemma {:induction false} GroupsAreSourced(flat: seq<Section>)
    requires Sourced(flat)
    ensures Sourced(Groups(flat).lost)
    ensures |Groups(flat).lost| <= |flat| && Groups(flat).lost == flat[..|Groups(flat).lost|]
    ensures forall g | g in Groups(flat).groups :: Sourced([g.head] + g.subs)
  {
    hide ProperSection, ClosedSection;
    if flat != [] {
      if |flat| > 1 { SourcedTail(flat); }
      GroupsAreSourced(flat[1..]);
      var lost := Groups(flat[1..]).lost;
      var all := [flat[0]] + lost;
      assert all == flat[..|all|];
      assert Sourced(all) by {
        forall k | 0 <= k < |all| ensures ProperSection(all[k]) { assert all[k] == flat[k]; }
        forall k | 0 <= k < |all| - 1 ensures ClosedSection(all[k]) { assert all[k] == flat[k]; }
      }
    }
  }

  lemma SectionsAreSourced(source: string)
    ensures Sourced(SplitSections(source))
  {
    hide Cut, Join, FenceAfterAll, ProperHeading;
    LinesHoldNoBreaks(source);
    BlocksAreProper(None, Lines(source));
    hide Lines;
    var blocks := Cut(None, Lines(source)).blocks;
    var flat := SplitSections(source);
    forall k | 0 <= k < |flat| ensures ProperSection(flat[k]) {
      assert Proper(blocks[k]);
      ProperMeans(blocks[k]);
    }
    forall k | 0 <= k < |flat| - 1 ensures ClosedSection(flat[k]) {
      assert Proper(blocks[k]) && Closed(blocks[k].lines);
      FenceOfTrim(None, flat[k].body);
      FenceOfJoin(None, blocks[k].lines);
    }
  }

  lemma ProperMeans(block: Block)
    requires Proper(block)
    ensures ProperHeading(block.heading)
  {
  }

  /** Splitting any chapter of any document returns that chapter's sections, with their levels
      and their trimmed bodies in order, exactly when no trimmed text in it splits into headings
      of its own, and no section's text holds a carriage return before a line break. */
  lemma ChapterSplitsBack(source: string, group: Group)
    requires group in Groups(SplitSections(source)).groups
    ensures GivesBack(SplitSections(Printed(group)), group.subs) <==>
      AllClean([group.head] + group.subs) && NoReturns(group.subs)
  {
    hide Cut, Lines, TextOf, Printed, Restores, AllClean, NoReturns, Sourced, Groups, SplitSections;
    SectionsAreSourced(source);
    GroupsAreSourced(SplitSections(source));
    PrintedPieces(group);
    SplitMeans(Printed(group));
    var blocks := Cut(None, Lines(Printed(group))).blocks;
    if |blocks| == |group.subs| {
      RestoredGivesBack(blocks, group.subs);
    }
  }

  lemma SplitMeans(s: string)
    ensures SplitSections(s) == SectionsOf(Cut(None, Lines(s)).blocks)
  {
  }

  // ----- the fold itself

  function ChaptersOf(lower: Lowering, groups: seq<Group>, first: nat): (r: seq<Chapter>)
    ensures |r| == |groups| && forall k | 0 <= k < |r| :: r[k] == ChapterOf(lower, groups[k], first + k)
  {
    if groups == [] then [] else [ChapterOf(lower, groups[0], first)] + ChaptersOf(lower, groups[1..], first + 1)
  }

  /** A chapter while its parts are still collected. */
  datatype Building = Building(heading: string, parts: seq<string>, sections: seq<Heading>)

  function BuildingOf(group: Group): Building {
    Building(group.head.heading.text, [TextOf(group.head)] + Parts(group.subs), Listed(group.subs))
  }

  function NonEmpty(parts: seq<string>): seq<string> {
    if parts == [] then []
    else (if parts[0] == "" then [] else [parts[0]]) + NonEmpty(parts[1..])
  }

  lemma {:induction false} PartsAreNonEmpty(sections: seq<Section>)
    ensures NonEmpty(Parts(sections)) == Parts(sections)
  {
    hide TextOf, HeadingLine;
    if sections != [] {
      PartsAreNonEmpty(sections[1..]);
      assert |HeadingLine(sections[0].heading)| > 0 by { HeadingLineIsLong(sections[0].heading); }
      assert Parts(sections)[1..] == Parts(sections[1..]);
    }
  }

  lemma HeadingLineIsLong(h: Heading)
    ensures |HeadingLine(h)| > 0
  {
  }

  lemma BuildingPrints(group: Group)
    ensures Join(NonEmpty(BuildingOf(group).parts), "\n\n") == Printed(group)
  {
    hide TextOf, Join, Parts;
    PartsAreNonEmpty(group.subs);
    assert ([TextOf(group.head)] + Parts(group.subs))[1..] == Parts(group.subs);
  }

  /** What one more section at the end makes of the groups. */
  function Push(fold: Fold, s: Section): Fold {
    if s.heading.level == 2 then Fold(fold.lost, fold.groups + [Group(s, [])])
    else if fold.groups == [] then Fold(fold.lost + [s], [])
    else
      var last := fold.groups[|fold.groups| - 1];
      Fold(fold.lost, fold.groups[..|fold.groups| - 1] + [Group(last.head, last.subs + [s])])
  }

  /** What one more section in front makes of them. */
  function Front(s: Section, rest: Fold): Fold {
    if s.heading.level == 2 then Fold([], [Group(s, rest.lost)] + rest.groups)
    else Fold([s] + rest.lost, rest.groups)
  }

  lemma PushToFront(x: Section, rest: Fold, s: Section)
    ensures Push(Front(x, rest), s) == Front(x, Push(rest, s))
  {
    if x.heading.level == 2 && s.heading.level != 2 && rest.groups != [] {
      var g := Group(x, rest.lost);
      assert ([g] + rest.groups)[..|rest.groups|] == [g] + rest.groups[..|rest.groups| - 1];
    }
    assert Push(Front(x, rest), s).groups == Front(x, Push(rest, s)).groups;
  }

  lemma GroupsFront(x: Section, flat: seq<Section>)
    ensures Groups([x] + flat) == Front(x, Groups(flat)) && Groups([]) == Fold([], [])
  {
    assert ([x] + flat)[1..] == flat;
  }

  lemma {:induction false} GroupsPush(flat: seq<Section>, s: Section)
    ensures Groups(flat + [s]) == Push(Groups(flat), s)
  {
    hide Groups, Front, Push;
    if flat == [] {
      GroupsFront(s, []);
      assert [] + [s] == [s] + [];
      PushToNothing(s);
    } else {
      var x, rest := flat[0], flat[1..];
      assert flat == [x] + rest && flat + [s] == [x] + (rest + [s]);
      GroupsFront(x, rest);
      GroupsFront(x, rest + [s]);
      GroupsPush(rest, s);
      PushToFront(x, Groups(rest), s);
    }
  }

  lemma PushToNothing(s: Section)
    ensures Push(Fold([], []), s) == Front(s, Fold([], []))
  {
  }

  lemma {:induction false} PartsPush(subs: seq<Section>, s: Section)
    ensures Parts(subs + [s]) == Parts(subs) + [Part(s)]
    ensures Listed(subs + [s]) == Listed(subs) + if s.heading.level == 3 then [s.heading] else []
  {
    hide Part;
    if subs == [] {
      assert [] + [s] == [s];
    } else {
      assert (subs + [s])[1..] == subs[1..] + [s];
      PartsPush(subs[1..], s);
    }
  }

  lemma BuildingPush(g: Group, s: Section)
    ensures BuildingOf(Group(g.head, g.subs + [s])) ==
      Building(g.head.heading.text, BuildingOf(g).parts + [Part(s)],
               BuildingOf(g).sections + if s.heading.level == 3 then [s.heading] else [])
  {
    hide Part, TextOf, Parts, Listed;
    PartsPush(g.subs, s);
  }

  lemma BuildingStarts(s: Section)
    ensures BuildingOf(Group(s, [])) == Building(s.heading.text, [TextOf(s)], [])
  {
    assert [TextOf(s)] + [] == [TextOf(s)];
  }

  /** `chaptersFromFunctionsMarkdown`. */
  method ChaptersFromFunctionsMarkdown(lower: Lowering, source: string) returns (chapters: seq<Chapter>)
    ensures chapters == ChaptersOf(lower, Groups(SplitSections(source)).groups, 0)
  {
    hide SplitSections, Groups, BuildingOf, Part, TextOf, NonEmpty, Join, Printed, Listed, ChapterId;
    var flat := SplitSectionsByLine(source);
    var building: seq<Building> := [];
    ghost var fold := Groups([]);
    NoGroups();
    for i := 0 to |flat|
      invariant fold == Groups(flat[..i])
      invariant |building| == |fold.groups|
      invariant forall k | 0 <= k < |building| :: building[k] == BuildingOf(fold.groups[k])
    {
      var section := flat[i];
      assert flat[..i + 1] == flat[..i] + [section];
      GroupsPush(flat[..i], section);
      ghost var before := fold;
      fold := Push(fold, section);
      if section.heading.level == 2 {
        BuildingStarts(section);
        building := building + [Building(section.heading.text, [TextOf(section)], [])];
      } else if building != [] {
        var last := |building| - 1;
        var current := building[last];
        BuildingPush(before.groups[last], section);
        HeadingIsTitle(before.groups[last]);
        building := building[last := Building(current.heading, current.parts + [Part(section)],
          current.sections + if section.heading.level == 3 then [section.heading] else [])];
      }
    }
    assert flat[..|flat|] == flat;
    chapters := [];
    for i := 0 to |building|
      invariant |chapters| == i
      invariant forall k | 0 <= k < i :: chapters[k] == ChapterOf(lower, fold.groups[k], k)
    {
      BuildingPrints(fold.groups[i]);
      HeadingIsTitle(fold.groups[i]);
      var title := building[i].heading;
      chapters := chapters + [Chapter(ChapterId(lower, title), title, i, building[i].sections,
        Join(NonEmpty(building[i].parts), "\n\n"))];
    }
  }

  lemma NoGroups()
    ensures Groups([]) == Fold([], [])
  {
  }

  lemma HeadingIsTitle(g: Group)
    ensures BuildingOf(g).heading == g.head.heading.text && BuildingOf(g).sections == Listed(g.subs)
  {
  }
}
