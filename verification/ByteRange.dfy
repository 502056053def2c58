/** `parse_range` of benchmark/readbench/src/netsim.rs: one byte range of a `Range`
    header (section 14.1.2 of RFC 9110) against a file of `len` bytes. */
module ByteRange {
  import opened Options
  import opened Decimal
  import Text

  const U64: nat := 0x1_0000_0000_0000_0000

  datatype RangeSpec = Full | Part(first: nat, last: nat) | Unsatisfiable | Unsupported

  function ParseRange(header: Option<string>, len: nat): RangeSpec {
    if header.None? then Full
    else
      var h := Text.Trim(header.value);
      if !("bytes=" <= h) then Full
      else
        var spec := h[6..];
        if ',' in spec then Unsupported
        else match Text.SplitOnce(Text.Trim(spec), '-')
          case None => Full
          case Some((a, b)) => ParseSpec(Text.Trim(a), Text.Trim(b), len)
  }

  /** The range between the two sides of the dash. */
  function ParseSpec(a: string, b: string, len: nat): RangeSpec {
    var first, last := ParseBelow(a, U64), ParseBelow(b, U64);
    if a == [] then
      if last.None? || last.value == 0 || len == 0 then Unsatisfiable
      else Part(if len >= last.value then len - last.value else 0, len - 1)
    else if first.None? then Full
    else if first.value >= len then Unsatisfiable
    else if b == [] then Part(first.value, len - 1)
    else if last.Some? && last.value >= first.value then
      Part(first.value, if last.value <= len - 1 then last.value else len - 1)
    else Full
  }

  lemma SpacedTrim(left: string, t: string, right: string)
    requires Text.AllSpace(left) && Text.AllSpace(right) && Text.Trimmed(t)
    ensures Text.Trim(left + t + right) == t
  {
    Text.TrimFinds(left, t, right);
  }

  /** Which headers are no byte range. A request without a header, or with one of another unit, or
      without a dash is served in full; a list of ranges is refused. */
  lemma OtherHeaders(left: string, t: string, right: string, len: nat)
    requires Text.AllSpace(left) && Text.AllSpace(right) && Text.Trimmed(t)
    ensures ParseRange(None, len) == Full
    ensures var r := ParseRange(Some(left + t + right), len);
      && (!("bytes=" <= t) ==> r == Full)
      && ("bytes=" <= t && ',' in t ==> r == Unsupported)
      && ("bytes=" <= t && ',' !in t && '-' !in t ==> r == Full)
  {
    SpacedTrim(left, t, right);
    hide Text.AllSpace, Text.Trimmed, Text.Trim, Text.SplitOnce;
    if "bytes=" <= t {
      var spec := t[6..];
      assert t == "bytes=" + spec;
      TrimHoldsNoMore(spec);
      if '-' !in t { Text.SplitNowhere(Text.Trim(spec), '-'); }
    }
  }

  lemma TrimHoldsNoMore(s: string)
    ensures forall c | c in Text.Trim(s) :: c in s
  {
    var left, right := Text.TrimSplits(s);
    hide Text.Trim;
  }

  lemma TrimWithout(left: string, s: string, right: string)
    requires Text.AllSpace(left) && Text.AllSpace(right)
    ensures Text.Trim(left + s + right) == Text.Trim(s)
  {
    var x, y := Text.TrimSplits(s);
    hide Text.Trim, Text.Trimmed;
    var z := Text.Trim(s);
    assert left + s + right == (left + x) + z + (y + right);
    Text.TrimFinds(left + x, z, y + right);
  }

  lemma DashStays(q: string, m: string, r: string)
    requires Text.AllSpace(r) && "-" + q == m + r
    ensures m != [] && m[0] == '-' && m == "-" + m[1..] && q == m[1..] + r
  {
    assert ("-" + q)[0] == (m + r)[0] == '-';
    assert m != [];
    assert q == ("-" + q)[1..] == m[1..] + r;
  }

  /** The header and its range lose the same spaces on the right, and the range those before it. */
  lemma SidesOfRange(left: string, p: string, q: string) returns (x: string, y: string)
    requires Text.AllSpace(left)
    ensures Text.Trim(left + "bytes=" + p + "-" + q) == "bytes=" + (p + ("-" + y))
    ensures Text.Trim(p + ("-" + y)) == x + ("-" + y)
    ensures Text.Trim(x) == Text.Trim(p) && Text.Trim(y) == Text.Trim(q)
    ensures (forall c | c in x :: c in p) && (forall c | c in y :: c in q)
  {
    var l := Text.TrimStartSplits(p);
    x := Text.TrimStart(p);
    var r := Text.TrimEndSplits("-" + q);
    var m := Text.TrimEnd("-" + q);
    hide Text.Trim, Text.TrimStart, Text.TrimEnd;
    DashStays(q, m, r);
    y := m[1..];
    var t := "bytes=" + (p + m);
    assert left + "bytes=" + p + "-" + q == left + t + r;
    assert t[|t| - 1] == m[|m| - 1] && t[0] == 'b';
    SpacedTrim(left, t, r);
    assert (x + m)[|x + m| - 1] == m[|m| - 1];
    assert (x + m)[0] == if x == [] then '-' else x[0];
    assert p + m == l + (x + m) + "";
    SpacedTrim(l, x + m, "");
    assert p == l + x + "" && q == "" + y + r;
    TrimWithout(l, x, "");
    TrimWithout("", y, r);
  }

  /** Every other header: what stands before the first dash and behind it, without the spaces around
      both, decides. */
  lemma SpacedRange(left: string, p: string, q: string, len: nat)
    requires Text.AllSpace(left) && ',' !in p && ',' !in q && '-' !in p
    ensures ParseRange(Some(left + "bytes=" + p + "-" + q), len) == ParseSpec(Text.Trim(p), Text.Trim(q), len)
  {
    hide ParseSpec, Text.Trim, Text.SplitOnce;
    var x, y := SidesOfRange(left, p, q);
    Text.SplitAtFirst(x, '-', y);
    var h := "bytes=" + (p + ("-" + y));
    assert h[6..] == p + ("-" + y);
  }

  /** What becomes of the two sides of the dash: a side that is not empty has to be a numeral below
      2^64, or the header is ignored; but a suffix that is none is refused. */
  lemma SidesAreNumerals(a: string, b: string, len: nat)
    ensures var r := ParseSpec(a, b, len);
      && (a == [] && (forall n: nat | Denotes(b, n) :: n >= 18446744073709551616) ==> r == Unsatisfiable)
      && (a != [] && (forall n: nat | Denotes(a, n) :: n >= 18446744073709551616) ==> r == Full)
      && (forall m: nat | Denotes(a, m) && m < 18446744073709551616
                          && b != [] && (forall n: nat | Denotes(b, n) :: n >= 18446744073709551616) ::
            r == if m >= len then Unsatisfiable else Full)
  {
    NotRead(a);
    NotRead(b);
    forall m: nat | Denotes(a, m) && m < U64 ensures ParseBelow(a, U64) == Some(m) && a != [] {
      ParseBelowIs(a, U64, m);
    }
    hide ParseBelow, Denotes;
  }

  lemma NotRead(s: string)
    ensures (forall n: nat | Denotes(s, n) :: n >= U64) <==> ParseBelow(s, U64) == None
    ensures s == [] ==> ParseBelow(s, U64) == None
  {
    forall n: nat ensures ParseBelow(s, U64) == Some(n) <==> Denotes(s, n) && n < U64 {
      ParseBelowIs(s, U64, n);
    }
    assert ParseBelow([], U64) == None;
    hide ParseBelow, Denotes;
    if ParseBelow(s, U64).Some? { assert Denotes(s, ParseBelow(s, U64).value); }
  }

  /** A plus sign before a number makes no difference. */
  lemma PlusSign(m: nat, n: nat, len: nat)
    ensures ParseSpec("+" + Show(m), Show(n), len) == ParseSpec(Show(m), Show(n), len)
    ensures ParseSpec(Show(m), "+" + Show(n), len) == ParseSpec(Show(m), Show(n), len)
    ensures ParseSpec("", "+" + Show(n), len) == ParseSpec("", Show(n), len)
  {
    PlusIsRead(m);
    PlusIsRead(n);
    hide ParseBelow;
  }

  lemma PlusIsRead(n: nat)
    ensures ParseBelow("+" + Show(n), U64) == ParseBelow(Show(n), U64)
  {
    assert ("+" + Show(n))[1..] == Show(n);
    assert IsDigit(Show(n)[0]);
  }

  /** A part is never empty and lies in the file, so its length and the seek to it are defined. */
  lemma PartLiesInTheFile(header: Option<string>, len: nat)
    ensures var r := ParseRange(header, len); r.Part? ==> r.first <= r.last < len
  {
    hide Text.Trim, Text.SplitOnce, ParseBelow;
  }

  // ----- the ranges that clients print

  datatype Request = Between(first: nat, last: nat) | From(first: nat) | Suffix(length: nat)

  function PrintRange(r: Request): string {
    match r
    case Between(a, b) => "bytes=" + (Show(a) + ("-" + Show(b)))
    case From(a) => "bytes=" + (Show(a) + "-")
    case Suffix(n) => "bytes=" + ("-" + Show(n))
  }

  /** No number of the request that the answer depends on is too large for 64 bits. */
  predicate IsAnswerable(r: Request, len: nat) {
    match r
    case Between(a, b) => b < a || (a < U64 && (b < U64 || a >= len))
    case From(a) => a < U64
    case Suffix(n) => n < U64 || len == 0
  }

  /** Whether byte `k` of a file of `len` bytes is one the request names. */
  predicate Selects(r: Request, len: nat, k: nat) {
    && k < len
    && match r
       case Between(a, b) => a <= k <= b
       case From(a) => a <= k
       case Suffix(n) => len - k <= n
  }

  lemma SpecIsTrimmed(a: string, b: string)
    requires AllDigits(a) && AllDigits(b)
    ensures var spec := a + ("-" + b);
      Text.Trim(spec) == spec && Text.Trim("bytes=" + spec) == "bytes=" + spec && ',' !in spec
  {
    var spec := a + ("-" + b);
    assert forall i | 0 <= i < |spec| :: IsDigit(spec[i]) || spec[i] == '-';
    assert "" + spec + "" == spec && "" + ("bytes=" + spec) + "" == "bytes=" + spec;
    Text.TrimFinds("", spec, "");
    Text.TrimFinds("", "bytes=" + spec, "");
  }

  /** A header made of two numerals, or of one and an empty side, is read as what it says. */
  lemma ParseOfDigits(a: string, b: string, len: nat)
    requires AllDigits(a) && AllDigits(b)
    ensures ParseRange(Some("bytes=" + (a + ("-" + b))), len) == ParseSpec(a, b, len)
  {
    hide Text.Trim, Text.SplitOnce, ParseSpec, Text.IsSpace;
    SpecIsTrimmed(a, b);
    DigitsStandAlone(a);
    DigitsStandAlone(b);
    Text.SplitAtFirst(a, '-', b);
    var h := "bytes=" + (a + ("-" + b));
    assert h[6..] == a + ("-" + b);
  }

  /** The request is answered with exactly the bytes it names, or refused as unsatisfiable when
      it names none; only an interval that runs backwards is ignored. */
  ghost predicate IsAnswer(r: Request, len: nat, spec: RangeSpec) {
    match spec
    case Part(first, last) => forall k: nat :: first <= k <= last <==> Selects(r, len, k)
    case Unsatisfiable => forall k: nat :: !Selects(r, len, k)
    case Full => r.Between? && r.last < r.first
    case Unsupported => false
  }

  /** Every printed range is answered as it should be, exactly unless a number that the answer
      depends on is too large for 64 bits. */
  lemma PrintedRangeSelectsItsBytes(r: Request, len: nat)
    ensures IsAnswer(r, len, ParseRange(Some(PrintRange(r)), len)) <==> IsAnswerable(r, len)
  {
    hide ParseRange, Show, ParseBelow;
    match r
    case Between(a, b) =>
      ParseOfDigits(Show(a), Show(b), len);
      NumeralIsRead(a);
      NumeralIsRead(b);
    case From(a) =>
      assert Show(a) + "-" == Show(a) + ("-" + "");
      ParseOfDigits(Show(a), "", len);
      NumeralIsRead(a);
    case Suffix(n) =>
      assert "-" + Show(n) == "" + ("-" + Show(n));
      ParseOfDigits("", Show(n), len);
      NumeralIsRead(n);
      assert len > 0 && n > 0 ==> Selects(r, len, len - 1);
  }

  lemma NumeralIsRead(n: nat)
    ensures ParseBelow(Show(n), U64) == if n < U64 then Some(n) else None
  {
    if n < U64 { ParseOfShow(n, U64); } else { ParseOfLarge(n, U64); }
  }

  /** An input that is answered wrongly: a suffix longer than 64 bits can say names all of any
      file, and is refused. */
  lemma LongSuffixIsRefused(len: nat)
    requires len > 0
    ensures ParseRange(Some(PrintRange(Suffix(U64))), len) == Unsatisfiable
    ensures len < U64 ==> forall k: nat | k < len :: Selects(Suffix(U64), len, k)
  {
    hide ParseRange, Show, ParseBelow;
    assert "-" + Show(U64) == "" + ("-" + Show(U64));
    ParseOfDigits("", Show(U64), len);
    NumeralIsRead(U64);
  }
}
