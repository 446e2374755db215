/**
 * Character classes, greedy scanning and decimal numerals, as Python's `re`
 * module, `int()` and `str()` treat them for the patterns of filterpagenumbers.py.
 */
module Text {

  /** The characters for which Python's `str.isspace()` holds, which is what `\s`
      matches in a `str` pattern. */
  predicate IsSpace(c: char)
  {
    c == ' ' || ('\t' <= c <= '\r') || ('\U{1c}' <= c <= '\U{1f}') || c == '\U{85}'
    || c == '\U{a0}' || c == '\U{1680}' || ('\U{2000}' <= c <= '\U{200a}')
    || c == '\U{2028}' || c == '\U{2029}' || c == '\U{202f}' || c == '\U{205f}' || c == '\U{3000}'
  }

  /** The opening and closing tags `<tag>` and `</tag>` that marking writes. */
  function OpenTag(tag: string): string { "<" + tag + ">" }

  function CloseTag(tag: string): string { "</" + tag + ">" }

  predicate IsDigit(c: char)
  {
    '0' <= c <= '9'
  }

  predicate IsDash(c: char)
  {
    c == '-'
  }

  predicate AllSpaces(s: string)
  {
    forall k :: 0 <= k < |s| ==> IsSpace(s[k])
  }

  predicate AllDigits(s: string)
  {
    forall k :: 0 <= k < |s| ==> IsDigit(s[k])
  }

  predicate AllDashes(s: string)
  {
    forall k :: 0 <= k < |s| ==> IsDash(s[k])
  }

  /** Every character of `s[i..j]` satisfies `p`. */
  predicate Run(s: string, i: nat, j: nat, p: char -> bool)
    requires i <= j <= |s|
  {
    forall k :: i <= k < j ==> p(s[k])
  }

  /** A run read off as a slice. */
  lemma RunSlice(s: string, i: nat, j: nat, p: char -> bool)
    requires i <= j <= |s| && Run(s, i, j, p)
    ensures forall k :: 0 <= k < j - i ==> p(s[i..j][k])
  {
  }

  /** The position reached by a greedy `p*` started at `i`: every character in
      between satisfies `p` and the next one, if any, does not. */
  function SkipWhile(s: string, i: nat, p: char -> bool): (j: nat)
    requires i <= |s|
    ensures i <= j <= |s| && Run(s, i, j, p)
    ensures j < |s| ==> !p(s[j])
    decreases |s| - i
  {
    if i == |s| || !p(s[i]) then i else SkipWhile(s, i + 1, p)
  }

  /** A greedy scan stops at the only place where it can stop. */
  lemma {:induction false} SkipWhileUnique(s: string, i: nat, j: nat, p: char -> bool)
    requires i <= j <= |s| && Run(s, i, j, p)
    requires j < |s| ==> !p(s[j])
    ensures SkipWhile(s, i, p) == j
    decreases j - i
  {
    if i < j {
      SkipWhileUnique(s, i + 1, j, p);
    }
  }

  function DigitValue(c: char): (d: nat)
    requires IsDigit(c)
    ensures d < 10
  {
    (c as int - '0' as int) as nat
  }

  function DigitChar(d: nat): (c: char)
    requires d < 10
    ensures IsDigit(c) && DigitValue(c) == d
  {
    ('0' as int + d) as char
  }

  /** `int(s)` for a string of decimal digits (leading zeros allowed). */
  function DigitsValue(s: string): nat
    requires AllDigits(s)
  {
    if s == [] then 0 else 10 * DigitsValue(s[..|s| - 1]) + DigitValue(s[|s| - 1])
  }

  /** `str(n)`: the decimal numeral of `n`, without leading zeros. */
  function Decimal(n: nat): (s: string)
    ensures |s| > 0 && AllDigits(s)
    ensures |s| > 1 ==> s[0] != '0'
    decreases n
  {
    if n < 10 then [DigitChar(n)] else Decimal(n / 10) + [DigitChar(n % 10)]
  }

  /** Reading back what `str` wrote gives the number again. */
  lemma {:induction false} DecimalRoundTrip(n: nat)
    ensures DigitsValue(Decimal(n)) == n
    decreases n
  {
    var s := Decimal(n);
    if n >= 10 {
      DecimalRoundTrip(n / 10);
      assert s[..|s| - 1] == Decimal(n / 10);
    }
  }
}
