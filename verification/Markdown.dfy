/** Headings, fences and sections of Markdown: ai/mcp/src/mdx.ts. */
module Markdown {
  import opened Options
  import opened Text

  // ----- lines

  /** JavaScript's `split(/\r?\n/)`. */
  function Lines(s: string): (lines: seq<string>)
    ensures lines != []
    decreases |s|
  {
    if s == [] then [""]
    else if s[0] == '\n' then [""] + Lines(s[1..])
    else if |s| > 1 && s[0] == '\r' && s[1] == '\n' then [""] + Lines(s[2..])
    else Widen(s[0], Lines(s[1..]))
  }

  /** One more character at the front of the first line. */
  function Widen(c: char, lines: seq<string>): (r: seq<string>)
    requires lines != []
    ensures |r| == |lines|
  {
    [[c] + lines[0]] + lines[1..]
  }

  // ----- fences

  /** A run of three or more backticks or tildes. */
  datatype Marker = Marker(mark: char, length: nat)

  type Fence = Option<Marker>

  function Run(s: string, c: char): (n: nat)
    ensures n <= |s|
    ensures forall i | 0 <= i < n :: s[i] == c
    ensures n < |s| ==> s[n] != c
  {
    if s == [] || s[0] != c then 0 else 1 + Run(s[1..], c)
  }

  /** What the pattern for a fence finds at the start of a line. */
  function MarkerOf(line: string): Option<Marker> {
    var t := TrimStart(line);
    if Run(t, '`') >= 3 then Some(Marker('`', Run(t, '`')))
    else if Run(t, '~') >= 3 then Some(Marker('~', Run(t, '~')))
    else None
  }

  /** The open fence after a line. */
  function FenceAfter(fence: Fence, line: string): Fence {
    var m := MarkerOf(line);
    if m.None? then fence
    else if fence.None? then m
    else if m.value.mark == fence.value.mark && m.value.length >= fence.value.length then None
    else fence
  }

  function FenceAfterAll(fence: Fence, lines: seq<string>): Fence
    decreases |lines|
  {
    if lines == [] then fence else FenceAfterAll(FenceAfter(fence, lines[0]), lines[1..])
  }

  /** The line opens or closes a fence, or stands in one. */
  predicate Inside(fence: Fence, line: string) {
    MarkerOf(line).Some? || fence.Some?
  }

  class FenceTracker {
    var fence: Fence

    constructor (initial: Fence)
      ensures fence == initial
    {
      fence := initial;
    }

    method IsInside(line: string) returns (inside: bool)
      modifies this
      ensures inside == Inside(old(fence), line)
      ensures fence == FenceAfter(old(fence), line)
    {
      var marker := MarkerOf(line);
      if marker.Some? {
        if fence.None? {
          fence := marker;
        } else if marker.value.mark == fence.value.mark && marker.value.length >= fence.value.length {
          fence := None;
        }
        return true;
      }
      inside := fence.Some?;
    }

    /** A second tracker that starts where this one stands. */
    method Fork() returns (other: FenceTracker)
      ensures fresh(other) && other.fence == fence
    {
      other := new FenceTracker(fence);
    }
  }

  // ----- headings

  datatype Heading = Heading(level: nat, text: string)

  /** The characters that the pattern's `.` does not match. */
  predicate EndsLine(c: char) {
    c == '\n' || c == '\r' || c == '\U{2028}' || c == '\U{2029}'
  }

  /** What the pattern for a heading finds: two to six hashes, white space, and a text on one line. */
  function HeadingOf(line: string): Option<Heading> {
    var n := Run(line, '#');
    if 2 <= n <= 6 && n < |line| && IsSpace(line[n]) &&
       (forall i | 0 <= i < |TrimStart(line[n..])| :: !EndsLine(TrimStart(line[n..])[i]))
    then Some(Heading(n, Trim(line[n..])))
    else None
  }

  predicate OpensSection(fence: Fence, line: string) {
    !Inside(fence, line) && HeadingOf(line).Some?
  }

  // ----- sections

  /** A heading with the lines up to the next one. */
  datatype Block = Block(heading: Heading, lines: seq<string>)

  /** The lines before the first heading, and the blocks. */
  datatype Pieces = Pieces(before: seq<string>, blocks: seq<Block>)

  function Cut(fence: Fence, lines: seq<string>): Pieces
    decreases |lines|
  {
    if lines == [] then Pieces([], [])
    else
      var rest := Cut(FenceAfter(fence, lines[0]), lines[1..]);
      if OpensSection(fence, lines[0])
      then Pieces([], [Block(HeadingOf(lines[0]).value, rest.before)] + rest.blocks)
      else Pieces([lines[0]] + rest.before, rest.blocks)
  }

  datatype Section = Section(heading: Heading, body: string)

  function SectionsOf(blocks: seq<Block>): (r: seq<Section>)
    ensures |r| == |blocks|
    ensures forall k | 0 <= k < |blocks| :: r[k] == Section(blocks[k].heading, Join(blocks[k].lines, "\n"))
  {
    if blocks == [] then []
    else [Section(blocks[0].heading, Join(blocks[0].lines, "\n"))] + SectionsOf(blocks[1..])
  }

  /** `splitSections`. */
  function SplitSections(markdown: string): seq<Section> {
    SectionsOf(Cut(None, Lines(markdown)).blocks)
  }

  // ----- cutting in two

  lemma {:induction false} FenceAfterBoth(fence: Fence, a: seq<string>, b: seq<string>)
    ensures FenceAfterAll(fence, a + b) == FenceAfterAll(FenceAfterAll(fence, a), b)
    decreases |a|
  {
    hide FenceAfter;
    if a == [] {
      assert a + b == b;
    } else {
      assert (a + b)[1..] == a[1..] + b;
      FenceAfterBoth(FenceAfter(fence, a[0]), a[1..], b);
    }
  }

  /** What two stretches of lines come to, one after the other. */
  function Glue(x: Pieces, y: Pieces): Pieces {
    if x.blocks == [] then Pieces(x.before + y.before, y.blocks)
    else
      var last := x.blocks[|x.blocks| - 1];
      Pieces(x.before, x.blocks[..|x.blocks| - 1] + [Block(last.heading, last.lines + y.before)] + y.blocks)
  }

  lemma {:induction false} CutBoth(fence: Fence, a: seq<string>, b: seq<string>)
    ensures Cut(fence, a + b) == Glue(Cut(fence, a), Cut(FenceAfterAll(fence, a), b))
    decreases |a|
  {
    hide FenceAfter, OpensSection, HeadingOf;
    if a == [] {
      assert a + b == b;
      var y := Cut(fence, b);
      assert [] + y.before == y.before;
    } else {
      assert (a + b)[1..] == a[1..] + b && (a + b)[0] == a[0];
      CutBoth(FenceAfter(fence, a[0]), a[1..], b);
      GlueStep(fence, a[0], Cut(FenceAfter(fence, a[0]), a[1..]), Cut(FenceAfterAll(fence, a), b));
    }
  }

  /** What one more line in front makes of the pieces. */
  function Put(fence: Fence, line: string, rest: Pieces): Pieces {
    if OpensSection(fence, line)
    then Pieces([], [Block(HeadingOf(line).value, rest.before)] + rest.blocks)
    else Pieces([line] + rest.before, rest.blocks)
  }

  lemma GlueStep(fence: Fence, line: string, x: Pieces, y: Pieces)
    ensures Put(fence, line, Glue(x, y)) == Glue(Put(fence, line, x), y)
  {
    hide Inside, HeadingOf;
    var p, q := Put(fence, line, Glue(x, y)), Glue(Put(fence, line, x), y);
    if x.blocks == [] {
      assert [line] + (x.before + y.before) == [line] + x.before + y.before;
    } else if OpensSection(fence, line) {
      var b := Block(HeadingOf(line).value, x.before);
      assert ([b] + x.blocks)[..|x.blocks|] == [b] + x.blocks[..|x.blocks| - 1];
      assert p.blocks == q.blocks;
    }
  }

  /** The loop of `splitSections`. */
  method SplitSectionsByLine(markdown: string) returns (sections: seq<Section>)
    ensures sections == SplitSections(markdown)
  {
    hide Cut, FenceAfterAll, HeadingOf, Lines, Join, FenceAfter, SectionsOf;
    var lines := Lines(markdown);
    var tracker := new FenceTracker(None);
    sections := [];
    var current: Option<Block> := None;
    ghost var blocks: seq<Block> := [];
    ghost var before: seq<string> := [];
    CutNothing();
    for i := 0 to |lines|
      invariant tracker.fence == FenceAfterAll(None, lines[..i])
      invariant Cut(None, lines[..i]) == Pieces(before, blocks + if current.Some? then [current.value] else [])
      invariant current.None? ==> blocks == []
      invariant sections == SectionsOf(blocks)
    {
      CutLine(lines, i);
      ghost var opens := OpensSection(tracker.fence, lines[i]);
      var inFence := tracker.IsInside(lines[i]);
      var heading := if !inFence then HeadingOf(lines[i]) else None;
      if heading.Some? {
        if current.Some? {
          SectionsOfMore(blocks, current.value);
          blocks := blocks + [current.value];
          sections := sections + [Section(current.value.heading, Join(current.value.lines, "\n"))];
        }
        current := Some(Block(heading.value, []));
      } else if current.Some? {
        current := Some(current.value.(lines := current.value.lines + [lines[i]]));
      } else {
        before := before + [lines[i]];
      }
    }
    assert lines[..|lines|] == lines;
    if current.Some? {
      SectionsOfMore(blocks, current.value);
      sections := sections + [Section(current.value.heading, Join(current.value.lines, "\n"))];
    }
  }

  lemma CutNothing()
    ensures Cut(None, []) == Pieces([], []) && FenceAfterAll(None, []) == None && SectionsOf([]) == []
  {
  }

  lemma SectionsOfMore(blocks: seq<Block>, block: Block)
    ensures SectionsOf(blocks + [block]) == SectionsOf(blocks) + [Section(block.heading, Join(block.lines, "\n"))]
  {
    hide SectionsOf, Join;
  }

  /** What one more line at the end makes of the pieces: a heading outside a fence begins a section, and
      any other line goes to the section before it, if there is one. */
  lemma CutLine(lines: seq<string>, i: nat)
    requires i < |lines|
    ensures var fence, x := FenceAfterAll(None, lines[..i]), Cut(None, lines[..i]);
      FenceAfterAll(None, lines[..i + 1]) == FenceAfter(fence, lines[i]) &&
      Cut(None, lines[..i + 1]) ==
        if !Inside(fence, lines[i]) && HeadingOf(lines[i]).Some?
        then Pieces(x.before, x.blocks + [Block(HeadingOf(lines[i]).value, [])])
        else if x.blocks == [] then Pieces(x.before + [lines[i]], [])
        else
          var last := x.blocks[|x.blocks| - 1];
          Pieces(x.before, x.blocks[..|x.blocks| - 1] + [Block(last.heading, last.lines + [lines[i]])])
  {
    var fence, x := FenceAfterAll(None, lines[..i]), Cut(None, lines[..i]);
    assert lines[..i + 1] == lines[..i] + [lines[i]];
    FenceAfterBoth(None, lines[..i], [lines[i]]);
    CutBoth(None, lines[..i], [lines[i]]);
    hide FenceAfter, OpensSection, HeadingOf;
    var y := Cut(fence, [lines[i]]);
    CutOne(fence, lines[i]);
    if OpensSection(fence, lines[i]) && x.blocks != [] {
      var last := x.blocks[|x.blocks| - 1];
      assert last.lines + [] == last.lines;
      assert x.blocks == x.blocks[..|x.blocks| - 1] + [last];
    }
  }

  lemma CutOne(fence: Fence, line: string)
    ensures FenceAfterAll(fence, [line]) == FenceAfter(fence, line)
    ensures Cut(fence, [line]) ==
      if OpensSection(fence, line) then Pieces([], [Block(HeadingOf(line).value, [])]) else Pieces([line], [])
  {
  }
}
