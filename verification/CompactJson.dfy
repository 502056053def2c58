/** JSON without its optional white space: benchmark/scripts/compact_json.py. */
module CompactJson {
  import opened Options

  /** The four characters that section 2 of RFC 8259 lets stand around a token. */
  predicate IsGap(c: char) {
    c == ' ' || c == '\t' || c == '\n' || c == '\r'
  }

  // ----- the substitution

  /** How far the rest of a string reaches, its closing quote included. */
  function RestOfString(s: string): (r: Option<nat>)
    ensures r.Some? ==> 0 < r.value <= |s|
  {
    if s == [] then None
    else if s[0] == '"' then Some(1)
    else
      var n := if s[0] == '\\' then 2 else 1;
      if |s| < n then None
      else
        var rest := RestOfString(s[n..]);
        if rest.None? then None else Some(n + rest.value)
  }

  /** The length of the string that opens `s`, or nothing. */
  function StringLen(s: string): (r: Option<nat>)
    ensures r.Some? ==> s != [] && s[0] == '"' && 1 < r.value <= |s|
  {
    if s == [] || s[0] != '"' then None
    else
      var rest := RestOfString(s[1..]);
      if rest.None? then None else Some(1 + rest.value)
  }

  /** `compact`: strings stay whole, white space elsewhere goes, anything else stays. */
  function Compact(s: string): string
    decreases |s|
  {
    if s == [] then []
    else
      var n := StringLen(s);
      if n.Some? then s[..n.value] + Compact(s[n.value..])
      else if IsGap(s[0]) then Compact(s[1..])
      else [s[0]] + Compact(s[1..])
  }

  // ----- tokens, as section 2 of RFC 8259 has them

  predicate IsStructural(c: char) {
    c == '[' || c == ']' || c == '{' || c == '}' || c == ':' || c == ','
  }

  /** A character of a number or of `true`, `false` and `null`. */
  predicate IsLiteralChar(c: char) {
    !IsGap(c) && !IsStructural(c) && c != '"'
  }

  predicate IsLiteral(t: string) {
    t != [] && forall i | 0 <= i < |t| :: IsLiteralChar(t[i])
  }

  /** The inside of a string: escapes, and characters that are no quote and no backslash. */
  predicate IsStringBody(b: string) {
    || b == []
    || (b[0] == '\\' && |b| > 1 && IsStringBody(b[2..]))
    || (b[0] != '\\' && b[0] != '"' && IsStringBody(b[1..]))
  }

  predicate IsString(t: string) {
    |t| > 1 && t[0] == '"' && t[|t| - 1] == '"' && IsStringBody(t[1..|t| - 1])
  }

  predicate IsToken(t: string) {
    IsLiteral(t) || IsString(t) || (|t| == 1 && IsStructural(t[0]))
  }

  function LiteralLen(s: string): (n: nat)
    ensures n <= |s|
    ensures forall i | 0 <= i < n :: IsLiteralChar(s[i])
    ensures n < |s| ==> !IsLiteralChar(s[n])
  {
    if s == [] || !IsLiteralChar(s[0]) then 0 else 1 + LiteralLen(s[1..])
  }

  /** Reading tokens, each as long as it can be. A quote that opens no string stands alone. */
  function Lex(s: string): seq<string>
    decreases |s|
  {
    if s == [] then []
    else
      var n := StringLen(s);
      if n.Some? then [s[..n.value]] + Lex(s[n.value..])
      else if IsGap(s[0]) then Lex(s[1..])
      else if IsLiteralChar(s[0]) then [s[..LiteralLen(s)]] + Lex(s[LiteralLen(s)..])
      else [s[..1]] + Lex(s[1..])
  }

  /** Tokens with white space before, between and after them. */
  function Written(ts: seq<string>, gaps: seq<string>): string
    requires |gaps| == |ts| + 1
    decreases |ts|
  {
    if ts == [] then gaps[0] else gaps[0] + (ts[0] + Written(ts[1..], gaps[1..]))
  }

  function Concat(ts: seq<string>): string {
    if ts == [] then [] else ts[0] + Concat(ts[1..])
  }

  ghost predicate AllGaps(gaps: seq<string>) {
    forall k | 0 <= k < |gaps| :: IsBlank(gaps[k])
  }

  ghost predicate IsBlank(gap: string) {
    forall i | 0 <= i < |gap| :: IsGap(gap[i])
  }

  ghost predicate AreTokens(ts: seq<string>) {
    forall k | 0 <= k < |ts| :: IsToken(ts[k])
  }

  /** No two literals stand side by side. */
  ghost predicate Apart(ts: seq<string>) {
    forall k | 0 <= k < |ts| - 1 :: !(IsLiteral(ts[k]) && IsLiteral(ts[k + 1]))
  }

  // ----- strings

  lemma {:induction false} BodyEnds(s: string)
    ensures RestOfString(s) == Some(|s|) <==>
      s != [] && s[|s| - 1] == '"' && IsStringBody(s[..|s| - 1])
    decreases |s|
  {
    if s != [] {
      var b := s[..|s| - 1];
      if s[0] == '"' {
        assert |s| > 1 ==> b[0] == '"';
      } else {
        var n := if s[0] == '\\' then 2 else 1;
        if |s| >= n {
          BodyEnds(s[n..]);
          if |s| > n {
            assert s[n..][..|s| - n - 1] == b[n..];
          } else {
            assert s[n..] == [];
          }
        }
      }
    }
  }

  /** The pattern takes a text for a string exactly when it is a quote, an inside and a quote. */
  lemma StringIs(t: string)
    ensures IsString(t) <==> StringLen(t) == Some(|t|)
  {
    if t != [] && t[0] == '"' {
      BodyEnds(t[1..]);
      if |t| > 1 { assert t[1..][..|t| - 2] == t[1..|t| - 1]; }
    }
  }

  /** Only a blank, a tab, a line feed and a carriage return are dropped outside a string. */
  lemma OneCharacter(c: char)
    ensures Compact([c]) == if c as int == 9 || c as int == 10 || c as int == 13 || c as int == 32 then "" else [c]
  {
    assert [c][1..] == [];
  }

  // ----- what stands before the rest

  lemma {:induction false} RestOfStringIsLocal(s: string, y: string)
    requires RestOfString(s).Some?
    ensures RestOfString(s + y) == RestOfString(s)
  {
    if s[0] != '"' {
      var n := if s[0] == '\\' then 2 else 1;
      assert (s + y)[n..] == s[n..] + y;
      RestOfStringIsLocal(s[n..], y);
    }
  }

  lemma StringLenIsLocal(s: string, y: string)
    requires StringLen(s).Some?
    ensures StringLen(s + y) == StringLen(s)
  {
    assert (s + y)[1..] == s[1..] + y;
    RestOfStringIsLocal(s[1..], y);
  }

  lemma CompactString(t: string, y: string)
    requires IsString(t)
    ensures Compact(t + y) == t + Compact(y)
  {
    StringIs(t);
    StringLenIsLocal(t, y);
    hide StringLen, IsString;
    assert (t + y)[..|t|] == t && (t + y)[|t|..] == y;
  }

  lemma CompactOther(c: char, y: string)
    requires c != '"' && !IsGap(c)
    ensures Compact([c] + y) == [c] + Compact(y)
  {
    assert ([c] + y)[1..] == y;
  }

  lemma CompactBlank(c: char, y: string)
    requires IsGap(c)
    ensures Compact([c] + y) == Compact(y) && Lex([c] + y) == Lex(y)
  {
    assert ([c] + y)[1..] == y;
  }

  lemma {:induction false} SkipBlank(gap: string, y: string)
    requires IsBlank(gap)
    ensures Compact(gap + y) == Compact(y) && Lex(gap + y) == Lex(y)
  {
    hide Compact, Lex;
    if gap == [] {
      assert gap + y == y;
    } else {
      assert gap + y == [gap[0]] + (gap[1..] + y);
      CompactBlank(gap[0], gap[1..] + y);
      SkipBlank(gap[1..], y);
    }
  }

  lemma {:induction false} CompactPlain(t: string, y: string)
    requires forall i | 0 <= i < |t| :: t[i] != '"' && !IsGap(t[i])
    ensures Compact(t + y) == t + Compact(y)
  {
    hide Compact;
    if t == [] {
      assert t + y == y;
    } else {
      assert t + y == [t[0]] + (t[1..] + y);
      CompactOther(t[0], t[1..] + y);
      CompactPlain(t[1..], y);
      assert [t[0]] + (t[1..] + Compact(y)) == t + Compact(y);
    }
  }

  lemma CompactToken(t: string, y: string)
    requires IsToken(t)
    ensures Compact(t + y) == t + Compact(y)
  {
    hide Compact, StringLen;
    if IsString(t) { CompactString(t, y); } else { CompactPlain(t, y); }
  }

  lemma {:induction false} LiteralLenOf(t: string, y: string)
    requires forall i | 0 <= i < |t| :: IsLiteralChar(t[i])
    requires y == [] || !IsLiteralChar(y[0])
    ensures LiteralLen(t + y) == |t|
  {
    if t == [] {
      assert t + y == y;
    } else {
      assert (t + y)[1..] == t[1..] + y;
      LiteralLenOf(t[1..], y);
    }
  }

  lemma LexToken(t: string, y: string)
    requires IsToken(t) && (IsLiteral(t) && y != [] ==> !IsLiteralChar(y[0]))
    ensures Lex(t + y) == [t] + Lex(y)
  {
    hide IsLiteralChar, LiteralLen, RestOfString;
    assert (t + y)[..|t|] == t && (t + y)[|t|..] == y;
    if IsString(t) {
      StringIs(t);
      StringLenIsLocal(t, y);
    } else if IsLiteral(t) {
      LiteralLenOf(t, y);
      LiteralIsNoGap((t + y)[0]);
    } else {
      LiteralIsNoGap((t + y)[0]);
    }
  }

  lemma LiteralIsNoGap(c: char)
    ensures IsLiteralChar(c) ==> !IsGap(c) && c != '"'
    ensures IsStructural(c) ==> !IsLiteralChar(c) && !IsGap(c) && c != '"'
  {
  }

  // ----- compacting what is written

  /** Whatever white space a document is written with, compacting leaves its tokens, spelled as
      they were, and nothing between them. */
  lemma {:induction false} CompactKeepsTheTokens(ts: seq<string>, gaps: seq<string>)
    requires |gaps| == |ts| + 1 && AllGaps(gaps) && AreTokens(ts)
    ensures Compact(Written(ts, gaps)) == Concat(ts)
    decreases |ts|
  {
    hide Compact, IsToken, IsBlank;
    if ts == [] {
      SkipBlank(gaps[0], []);
      assert gaps[0] + [] == gaps[0];
      NothingToRead();
    } else {
      var rest := Written(ts[1..], gaps[1..]);
      SkipBlank(gaps[0], ts[0] + rest);
      CompactToken(ts[0], rest);
      CompactKeepsTheTokens(ts[1..], gaps[1..]);
    }
  }

  lemma NothingToRead()
    ensures Compact([]) == [] && Lex([]) == []
  {
  }

  /** Literals that stand side by side have white space between them. */
  ghost predicate Parted(ts: seq<string>, gaps: seq<string>)
    requires |gaps| == |ts| + 1
  {
    forall k | 0 <= k < |ts| - 1 && IsLiteral(ts[k]) && IsLiteral(ts[k + 1]) :: gaps[k + 1] != []
  }

  lemma {:induction false} LexOfWritten(ts: seq<string>, gaps: seq<string>)
    requires |gaps| == |ts| + 1 && AllGaps(gaps) && AreTokens(ts) && Parted(ts, gaps)
    ensures Lex(Written(ts, gaps)) == ts
    decreases |ts|
  {
    hide Lex, IsToken, IsBlank, IsLiteral, IsLiteralChar;
    if ts == [] {
      SkipBlank(gaps[0], []);
      assert gaps[0] + [] == gaps[0];
      NothingToRead();
    } else {
      var rest := Written(ts[1..], gaps[1..]);
      SkipBlank(gaps[0], ts[0] + rest);
      NextIsApart(ts, gaps);
      LexToken(ts[0], rest);
      assert Parted(ts[1..], gaps[1..]) by {
        forall k | 0 <= k < |ts[1..]| - 1 && IsLiteral(ts[1..][k]) && IsLiteral(ts[1..][k + 1])
          ensures gaps[1..][k + 1] != []
        {
          assert ts[1..][k] == ts[k + 1] && ts[1..][k + 1] == ts[k + 2] && gaps[1..][k + 1] == gaps[k + 2];
        }
      }
      LexOfWritten(ts[1..], gaps[1..]);
      assert ts == [ts[0]] + ts[1..];
    }
  }

  lemma NextIsApart(ts: seq<string>, gaps: seq<string>)
    requires |gaps| == |ts| + 1 && AllGaps(gaps) && AreTokens(ts) && Parted(ts, gaps) && ts != []
    ensures var rest := Written(ts[1..], gaps[1..]);
      IsLiteral(ts[0]) && rest != [] ==> !IsLiteralChar(rest[0])
  {
    hide StringLen;
    var rest := Written(ts[1..], gaps[1..]);
    assert IsBlank(gaps[1]);
    if IsLiteral(ts[0]) && gaps[1] == [] && |ts| > 1 {
      TokenStarts(ts[1]);
      assert IsToken(ts[1]) && !IsLiteral(ts[1]);
      assert rest[0] == ts[1][0];
    }
  }

  lemma TokenStarts(t: string)
    requires IsToken(t)
    ensures t != [] && (!IsLiteral(t) ==> !IsLiteralChar(t[0]))
  {
  }

  lemma LexWithoutLiteralNext(ts: seq<string>)
    requires AreTokens(ts) && ts != [] && !(|ts| > 1 && IsLiteral(ts[0]) && IsLiteral(ts[1]))
    ensures Lex(Concat(ts)) == [ts[0]] + Lex(Concat(ts[1..]))
  {
    hide IsToken, IsLiteral, IsLiteralChar, Lex;
    if |ts| > 1 {
      TokenStarts(ts[1]);
      assert Concat(ts[1..])[0] == ts[1][0];
    }
    LexToken(ts[0], Concat(ts[1..]));
  }

  lemma LexMergesLiterals(ts: seq<string>)
    requires |ts| > 1 && IsLiteral(ts[0]) && IsLiteral(ts[1])
    ensures Lex(Concat(ts)) != ts
  {
    hide LiteralLen, StringLen, Concat;
    var s, rest := Concat(ts), Concat(ts[2..]);
    assert Concat(ts) == ts[0] + Concat(ts[1..]) && Concat(ts[1..]) == ts[1] + rest by { ConcatTwo(ts); }
    assert s == ts[0] + ts[1] + rest;
    LiteralsRunOn(ts[0] + ts[1], rest);
    assert s[0] == ts[0][0];
    assert StringLen(s).None?;
    assert Lex(s)[0] == s[..LiteralLen(s)];
  }

  lemma ConcatTwo(ts: seq<string>)
    requires |ts| > 1
    ensures Concat(ts) == ts[0] + Concat(ts[1..]) && Concat(ts[1..]) == ts[1] + Concat(ts[2..])
  {
    assert ts[1..][1..] == ts[2..];
  }

  lemma LiteralsRunOn(t: string, y: string)
    requires forall i | 0 <= i < |t| :: IsLiteralChar(t[i])
    ensures LiteralLen(t + y) >= |t|
  {
    assert forall i | 0 <= i < |t| :: (t + y)[i] == t[i];
    assert forall i | 0 <= i < |t| :: IsLiteralChar((t + y)[i]);
  }

  /** Tokens can be told apart without any white space exactly when no two literals stand side by side. */
  lemma {:induction false} LexOfConcat(ts: seq<string>)
    requires AreTokens(ts)
    ensures Lex(Concat(ts)) == ts <==> Apart(ts)
  {
    hide Lex, IsToken, IsLiteral, Concat;
    if ts == [] {
      NothingToRead();
      assert Concat(ts) == [] by { hide *; ConcatNothing(); }
    } else if |ts| > 1 && IsLiteral(ts[0]) && IsLiteral(ts[1]) {
      LexMergesLiterals(ts);
    } else {
      LexWithoutLiteralNext(ts);
      LexOfConcat(ts[1..]);
      assert ts == [ts[0]] + ts[1..];
      ApartTail(ts);
    }
  }

  lemma ConcatNothing()
    ensures Concat([]) == []
  {
  }

  lemma ApartTail(ts: seq<string>)
    requires ts != [] && !(|ts| > 1 && IsLiteral(ts[0]) && IsLiteral(ts[1]))
    ensures Apart(ts) <==> Apart(ts[1..])
  {
    hide IsLiteral;
    if Apart(ts) {
      forall k | 0 <= k < |ts[1..]| - 1 ensures !(IsLiteral(ts[1..][k]) && IsLiteral(ts[1..][k + 1])) {
        assert ts[1..][k] == ts[k + 1] && ts[1..][k + 1] == ts[(k + 1) + 1];
      }
    }
    if Apart(ts[1..]) {
      forall k | 0 <= k < |ts| - 1 ensures !(IsLiteral(ts[k]) && IsLiteral(ts[k + 1])) {
        if k > 0 { assert ts[1..][k - 1] == ts[k] && ts[1..][(k - 1) + 1] == ts[k + 1]; }
      }
    }
  }

  /** Compacting a document, however it is spaced, leaves a text that reads as the same
      tokens exactly when no two literals stand side by side. */
  lemma CompactReadsTheSame(ts: seq<string>, gaps: seq<string>)
    requires |gaps| == |ts| + 1 && AllGaps(gaps) && AreTokens(ts)
    ensures Lex(Compact(Written(ts, gaps))) == ts <==> Apart(ts)
    ensures Apart(ts) ==> Lex(Written(ts, gaps)) == ts
  {
    hide Lex, Compact, Written, Concat, IsToken, IsBlank, IsLiteral;
    CompactKeepsTheTokens(ts, gaps);
    LexOfConcat(ts);
    if Apart(ts) {
      assert Parted(ts, gaps);
      LexOfWritten(ts, gaps);
    }
  }

  /** An input whose tokens merge: two literals with a space between them, as no JSON value has. */
  lemma LiteralsCanMerge()
    ensures Written(["1", "2"], ["", " ", ""]) == "1 2" && Compact("1 2") == "12"
  {
    var ts, gaps := ["1", "2"], ["", " ", ""];
    hide Compact;
    assert ts[1..] == ["2"] && gaps[1..] == [" ", ""] && gaps[2..] == [""];
    assert Written(["2"], [" ", ""]) == " 2" by { assert ["2"][1..] == [] && [" ", ""][1..] == [""]; }
    assert Concat(["2"]) == "2" by { assert ["2"][1..] == []; }
    assert IsLiteral("1") && IsLiteral("2");
    CompactKeepsTheTokens(ts, gaps);
  }

  // ----- JSON values

  /** A value, its scalars and names as they are spelled. */
  datatype Json = Literal(spelling: string) | Str(spelling: string) | Array(items: seq<Json>)
    | Object(members: seq<Member>)

  datatype Member = Member(name: string, value: Json)

  ghost predicate Valid(v: Json) {
    match v
    case Literal(spelling) => IsLiteral(spelling)
    case Str(spelling) => IsString(spelling)
    case Array(items) => forall i | 0 <= i < |items| :: Valid(items[i])
    case Object(members) => forall i | 0 <= i < |members| :: IsString(members[i].name) && Valid(members[i].value)
  }

  /** The tokens of a value, as section 2 of RFC 8259 arranges them. */
  function Tokens(v: Json): seq<string> {
    match v
    case Literal(spelling) => [spelling]
    case Str(spelling) => [spelling]
    case Array(items) => ["["] + ItemTokens(items) + ["]"]
    case Object(members) => ["{"] + MemberTokens(members) + ["}"]
  }

  function ItemTokens(items: seq<Json>): seq<string> {
    if items == [] then []
    else Tokens(items[0]) + if |items| == 1 then [] else [","] + ItemTokens(items[1..])
  }

  function MemberTokens(members: seq<Member>): seq<string> {
    if members == [] then []
    else
      [members[0].name] + ([":"] + Tokens(members[0].value)) +
      if |members| == 1 then [] else [","] + MemberTokens(members[1..])
  }

  /** One more item adds its tokens behind a comma, if it is not the first, and one more member its name, a
      colon and those of its value. */
  lemma TokensAppend(items: seq<Json>, item: Json, members: seq<Member>, member: Member)
    ensures ItemTokens([]) == [] && MemberTokens([]) == []
    ensures ItemTokens(items + [item]) == ItemTokens(items) + ((if items == [] then [] else [","]) + Tokens(item))
    ensures MemberTokens(members + [member]) ==
      MemberTokens(members) + ((if members == [] then [] else [","]) + ([member.name, ":"] + Tokens(member.value)))
  {
    ItemAppends(items, item);
    MemberAppends(members, member);
  }

  lemma {:induction false} ItemAppends(items: seq<Json>, item: Json)
    ensures ItemTokens(items + [item]) == ItemTokens(items) + ((if items == [] then [] else [","]) + Tokens(item))
  {
    if items == [] {
      assert [] + [item] == [item] && [item][1..] == [];
    } else {
      assert (items + [item])[1..] == items[1..] + [item];
      ItemAppends(items[1..], item);
    }
  }

  lemma {:induction false} MemberAppends(members: seq<Member>, member: Member)
    ensures MemberTokens(members + [member]) ==
      MemberTokens(members) + ((if members == [] then [] else [","]) + ([member.name, ":"] + Tokens(member.value)))
  {
    if members == [] {
      assert [] + [member] == [member] && [member][1..] == [];
    } else {
      assert (members + [member])[1..] == members[1..] + [member];
      MemberAppends(members[1..], member);
    }
  }

  ghost predicate Sound(ts: seq<string>) {
    AreTokens(ts) && Apart(ts)
  }

  /** Sound tokens on both sides of a structural one are sound. */
  lemma SoundAround(left: seq<string>, c: string, right: seq<string>)
    requires Sound(left) && Sound(right) && |c| == 1 && IsStructural(c[0])
    ensures Sound(left + ([c] + right)) && Sound(left + [c]) && Sound([c] + right)
  {
    hide IsStructural, IsString;
    LiteralIsNoGap(c[0]);
    assert !IsLiteral(c);
    var ts := left + ([c] + right);
    forall k | 0 <= k < |ts| ensures IsToken(ts[k]) {
      if k > |left| { assert ts[k] == right[k - |left| - 1]; }
    }
    hide IsToken, IsLiteral;
    ApartAround(left, c, right);
    ApartAround(left, c, []);
    ApartAround([], c, right);
    assert left + ([c] + []) == left + [c] && [] + ([c] + right) == [c] + right;
    assert ts[|left|] == c;
    assert forall k | 0 <= k < |left + [c]| :: (left + [c])[k] == ts[k];
    assert forall k | 0 <= k < |[c] + right| :: ([c] + right)[k] == ts[|left| + k];
  }

  lemma ApartAround(left: seq<string>, c: string, right: seq<string>)
    requires Apart(left) && Apart(right) && !IsLiteral(c)
    ensures Apart(left + ([c] + right))
  {
    hide IsLiteral;
    var ts := left + ([c] + right);
    forall k | 0 <= k < |ts| - 1 ensures !(IsLiteral(ts[k]) && IsLiteral(ts[k + 1])) {
      if k > |left| {
        assert ts[k] == right[k - |left| - 1] && ts[k + 1] == right[(k - |left| - 1) + 1];
      } else if k + 1 < |left| {
        assert ts[k] == left[k] && ts[k + 1] == left[k + 1];
      }
    }
  }

  lemma SoundAlone(t: string)
    requires IsToken(t)
    ensures Sound([t]) && Sound([])
  {
  }

  /** A JSON value never has two literals side by side. */
  lemma {:induction false} TokensAreSound(v: Json)
    requires Valid(v)
    ensures Sound(Tokens(v))
    decreases v, 2, 0
  {
    hide IsString, IsLiteral, Sound;
    match v
    case Literal(spelling) => SoundAlone(spelling);
    case Str(spelling) => SoundAlone(spelling);
    case Array(items) =>
      ItemsAreSound(v, items);
      var ts := ItemTokens(items);
      SoundAround([], "[", ts);
      assert [] + (["["] + ts) == ["["] + ts;
      SoundAlone("]");
      SoundAround(["["] + ts, "]", []);
    case Object(members) =>
      MembersAreSound(v, members);
      var ts := MemberTokens(members);
      SoundAround([], "{", ts);
      assert [] + (["{"] + ts) == ["{"] + ts;
      SoundAlone("}");
      SoundAround(["{"] + ts, "}", []);
  }

  lemma {:induction false} ItemsAreSound(v: Json, items: seq<Json>)
    requires forall i | 0 <= i < |items| :: items[i] < v && Valid(items[i])
    ensures Sound(ItemTokens(items)) && Sound([])
    decreases v, 1, |items|
  {
    hide IsString, IsLiteral, Sound, Valid;
    SoundAlone(",");
    if items != [] {
      TokensAreSound(items[0]);
      ItemsAreSound(v, items[1..]);
      SoundAround(Tokens(items[0]), ",", ItemTokens(items[1..]));
      assert Tokens(items[0]) + [] == Tokens(items[0]);
    }
  }

  lemma {:induction false} MembersAreSound(v: Json, members: seq<Member>)
    requires forall i | 0 <= i < |members| ::
      members[i].value < v && IsString(members[i].name) && Valid(members[i].value)
    ensures Sound(MemberTokens(members)) && Sound([])
    decreases v, 1, |members|
  {
    hide IsString, IsLiteral, Sound, Valid;
    SoundAlone(",");
    if members != [] {
      var first := Tokens(members[0].value);
      TokensAreSound(members[0].value);
      SoundAlone(members[0].name);
      SoundAround([members[0].name], ":", first);
      MembersAreSound(v, members[1..]);
      var pair := [members[0].name] + ([":"] + first);
      SoundAround(pair, ",", MemberTokens(members[1..]));
      assert pair + [] == pair;
    }
  }

  /** For every value and every choice of white space around its tokens, compacting gives the
      print without white space, and both read as the same tokens. */
  lemma CompactPrintsTheValue(v: Json, gaps: seq<string>)
    requires Valid(v) && |gaps| == |Tokens(v)| + 1 && AllGaps(gaps)
    ensures Compact(Written(Tokens(v), gaps)) == Concat(Tokens(v))
    ensures Lex(Written(Tokens(v), gaps)) == Tokens(v) == Lex(Compact(Written(Tokens(v), gaps)))
  {
    hide Valid, Tokens, Lex, Compact, Written, Concat, IsToken, IsBlank, IsLiteral;
    TokensAreSound(v);
    CompactKeepsTheTokens(Tokens(v), gaps);
    CompactReadsTheSame(Tokens(v), gaps);
  }

  // ----- compacting anything twice

  /** `s` reaches its end inside the string it is in. */
  ghost predicate Unclosed(s: string) {
    RestOfString(s).None?
  }

  ghost predicate NoGaps(s: string) {
    forall i | 0 <= i < |s| :: !IsGap(s[i])
  }

  /** Once a string stays open no later one closes, so that no white space is left. */
  lemma {:induction false} UnclosedLosesGaps(s: string)
    requires Unclosed(s)
    ensures NoGaps(Compact(s))
    decreases |s|
  {
    if s != [] {
      if s[0] == '\\' && |s| > 1 {
        UnclosedLosesGaps(s[2..]);
        EscapedIsPlain(s);
      } else {
        UnclosedLosesGaps(s[1..]);
      }
    }
  }

  lemma EscapedIsPlain(s: string)
    requires |s| > 1 && s[0] == '\\' && Unclosed(s)
    ensures Compact(s) == "\\" + ((if IsGap(s[1]) then "" else [s[1]]) + Compact(s[2..]))
  {
    assert s[1..][1..] == s[2..];
    assert StringLen(s[1..]).None?;
  }

  lemma {:induction false} NoGapsNothingLost(s: string)
    requires NoGaps(s)
    ensures Compact(s) == s
    decreases |s|
  {
    hide StringLen;
    if s != [] {
      var n := if StringLen(s).Some? then StringLen(s).value else 1;
      NoGapsNothingLost(s[n..]);
      assert s == s[..n] + s[n..];
    }
  }

  /** Compacting twice is compacting once, for every text whatever. */
  lemma {:induction false} CompactTwiceIsOnce(s: string)
    ensures Compact(Compact(s)) == Compact(s)
    decreases |s|
  {
    if s != [] {
      var n := StringLen(s);
      if n.Some? {
        var t := s[..n.value];
        StringIsString(s);
        CompactString(t, Compact(s[n.value..]));
        CompactTwiceIsOnce(s[n.value..]);
      } else if IsGap(s[0]) {
        CompactTwiceIsOnce(s[1..]);
      } else if s[0] == '"' {
        UnclosedLosesGaps(s[1..]);
        NoGapsNothingLost(Compact(s));
      } else {
        CompactOther(s[0], Compact(s[1..]));
        CompactTwiceIsOnce(s[1..]);
      }
    }
  }

  lemma StringIsString(s: string)
    requires StringLen(s).Some?
    ensures IsString(s[..StringLen(s).value])
  {
    RestOfStringCut(s[1..]);
    var n := StringLen(s).value;
    StringIs(s[..n]);
    hide IsString;
    assert s[..n][1..] == s[1..][..n - 1];
  }

  lemma {:induction false} RestOfStringCut(s: string)
    requires RestOfString(s).Some?
    ensures RestOfString(s[..RestOfString(s).value]) == RestOfString(s)
  {
    if s[0] != '"' {
      var n := if s[0] == '\\' then 2 else 1;
      RestOfStringCut(s[n..]);
      var m := RestOfString(s).value;
      assert s[..m][n..] == s[n..][..m - n];
    }
  }

  function WithoutGaps(s: string): string {
    if s == [] then []
    else if IsGap(s[0]) then WithoutGaps(s[1..])
    else [s[0]] + WithoutGaps(s[1..])
  }

  lemma {:induction false} WithoutGapsAppends(s: string, t: string)
    ensures WithoutGaps(s + t) == WithoutGaps(s) + WithoutGaps(t)
  {
    if s == [] {
      assert s + t == t;
    } else {
      assert (s + t)[1..] == s[1..] + t;
      WithoutGapsAppends(s[1..], t);
    }
  }

  /** Of any text at all, compacting loses nothing but white space. */
  lemma {:induction false} CompactLosesOnlyGaps(s: string)
    ensures WithoutGaps(Compact(s)) == WithoutGaps(s)
    decreases |s|
  {
    hide StringLen;
    if s != [] {
      var n := if StringLen(s).Some? then StringLen(s).value else 1;
      CompactLosesOnlyGaps(s[n..]);
      assert s == s[..n] + s[n..];
      WithoutGapsAppends(s[..n], s[n..]);
      WithoutGapsAppends(s[..n], Compact(s[n..]));
    }
  }
}
