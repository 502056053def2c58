/** Decimal numerals, as Rust prints and parses unsigned integers. */
module Decimal {

  import opened Options
  import Text

  predicate IsDigit(c: char) {
    '0' <= c <= '9'
  }

  predicate AllDigits(s: string) {
    forall i | 0 <= i < |s| :: IsDigit(s[i])
  }

  function DigitOf(d: nat): char
    requires d < 10
  {
    (d as char) + '0'
  }

  function DigitValue(c: char): nat
    requires IsDigit(c)
  {
    c as int - '0' as int
  }

  /** The numeral of `n`, without leading zeros. */
  function Show(n: nat): (s: string)
    ensures s != [] && AllDigits(s)
  {
    if n < 10 then [DigitOf(n)] else Show(n / 10) + [DigitOf(n % 10)]
  }

  /** The number a string of digits stands for. */
  function Value(s: string): nat
    requires AllDigits(s)
  {
    if s == [] then 0 else 10 * Value(s[..|s| - 1]) + DigitValue(s[|s| - 1])
  }

  lemma {:induction false} ValueOfShow(n: nat)
    ensures Value(Show(n)) == n
  {
    if n >= 10 {
      ValueOfShow(n / 10);
      assert Show(n)[..|Show(n)| - 1] == Show(n / 10);
    }
  }

  /** Different numbers have different numerals. */
  lemma ShowIsInjective(m: nat, n: nat)
    requires Show(m) == Show(n)
    ensures m == n
  {
    ValueOfShow(m);
    ValueOfShow(n);
  }

  /** A numeral has `k` digits when it lies between two powers of ten. */
  lemma {:induction false} ShowLength(n: nat, k: nat)
    requires k > 0
    ensures |Show(n)| <= k <==> n < Power(k)
  {
    if n < 10 {
      PowerGrows(k);
    } else if k == 1 {
      assert Power(1) == 10 * Power(0) == 10;
      assert |Show(n)| == |Show(n / 10)| + 1;
    } else {
      ShowLength(n / 10, k - 1);
      assert Power(k) == 10 * Power(k - 1);
    }
  }

  function Power(k: nat): nat {
    if k == 0 then 1 else 10 * Power(k - 1)
  }

  lemma PowerGrows(k: nat)
    requires k > 0
    ensures Power(k) >= 10
  {
    if k > 1 { PowerGrows(k - 1); }
  }

  /** Rust's `parse` for an unsigned integer below `limit`: digits, with an optional
      plus sign before them. */
  function ParseBelow(s: string, limit: nat): Option<nat> {
    var digits := if s != [] && s[0] == '+' then s[1..] else s;
    if digits == [] || !AllDigits(digits) || Value(digits) >= limit then None
    else Some(Value(digits))
  }

  /** `s` is a numeral of `n`: one digit or more, leading zeros allowed, perhaps after a plus sign. */
  ghost predicate Denotes(s: string, n: nat) {
    exists digits: string :: (s == digits || s == "+" + digits) && IsNumeralOf(digits, n)
  }

  predicate IsNumeralOf(digits: string, n: nat) {
    digits != [] && AllDigits(digits) && Value(digits) == n
  }

  /** Exactly the numerals of numbers below the limit are parsed, as those numbers. */
  lemma ParseBelowIs(s: string, limit: nat, n: nat)
    ensures ParseBelow(s, limit) == Some(n) <==> Denotes(s, n) && n < limit
  {
    hide Value;
    var digits := if s != [] && s[0] == '+' then s[1..] else s;
    if ParseBelow(s, limit) == Some(n) {
      assert IsNumeralOf(digits, n) && (s == digits || s == "+" + digits);
    }
    forall d: string | (s == d || s == "+" + d) && IsNumeralOf(d, n) ensures d == digits {
      assert IsDigit(d[0]);
    }
  }

  lemma ParseOfShow(n: nat, limit: nat)
    requires n < limit
    ensures ParseBelow(Show(n), limit) == Some(n)
  {
    ValueOfShow(n);
    assert IsDigit(Show(n)[0]);
  }

  lemma ParseOfLarge(n: nat, limit: nat)
    requires n >= limit
    ensures ParseBelow(Show(n), limit) == None
  {
    ValueOfShow(n);
    assert IsDigit(Show(n)[0]);
  }

  /** `{:02}`. */
  function Pad2(n: nat): (s: string)
    ensures AllDigits(s) && |s| >= 2
    ensures n < 100 ==> |s| == 2
  {
    if n < 10 then "0" + Show(n)
    else
      assert |Show(n)| == |Show(n / 10)| + 1;
      Show(n)
  }

  lemma ValueOfPad2(n: nat)
    requires n < 100
    ensures Value(Pad2(n)) == n
  {
    ValueOfShow(n);
    if n < 10 {
      assert Pad2(n)[..1] == "0";
    }
  }

  /** A numeral is trimmed, and holds neither a dash nor a comma. */
  lemma DigitsStandAlone(s: string)
    requires AllDigits(s)
    ensures Text.Trim(s) == s && '-' !in s && ',' !in s
  {
    assert "" + s + "" == s;
    assert forall i | 0 <= i < |s| :: !Text.IsSpace(s[i]);
    Text.TrimFinds("", s, "");
  }
}
