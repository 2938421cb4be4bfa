/**
 * The String built-ins behind the brand helpers and the badge text:
 * `replace` with a string search value (including the `$` patterns of the
 * ECMAScript GetSubstitution operation) and the first-occurrence search it
 * performs, and the decimal form a template literal gives an integer of
 * magnitude at most 2^53. Splitting on ", " and reading a decimal form back
 * are not called by the storefront; they are the inverses that the round-trip
 * lemmas use.
 */
module JsString {
  import opened Wrappers
  import opened JsArray

  /** `pattern` occurs in s starting at index i. */
  predicate OccursAt(s: string, pattern: string, i: nat) {
    i + |pattern| <= |s| && s[i..i + |pattern|] == pattern
  }

  /**
   * The first occurrence of `pattern` at or after `from`: the StringIndexOf
   * search that `replace` runs from position 0. Unlike `s.indexOf(pattern, from)`,
   * it does not clamp a `from` beyond the end of s.
   */
  function IndexOfFrom(s: string, pattern: string, from: nat): (r: Option<nat>)
    ensures r.Some? ==> from <= r.value && OccursAt(s, pattern, r.value)
    ensures r.Some? ==> forall j :: from <= j < r.value ==> !OccursAt(s, pattern, j)
    ensures r.None? ==> forall j :: from <= j <= |s| ==> !OccursAt(s, pattern, j)
    decreases |s| - from
  {
    if from + |pattern| > |s| then None
    else if OccursAt(s, pattern, from) then Some(from)
    else IndexOfFrom(s, pattern, from + 1)
  }

  function IndexOf(s: string, pattern: string): Option<nat> {
    IndexOfFrom(s, pattern, 0)
  }

  /**
   * GetSubstitution for a string search value (no capture groups, no named
   * groups): `$$` gives `$`, `$&` the matched text, `$`` the text before the
   * match, `$'` the text after it; any other `$` (including `$1` and `$<`)
   * stands for itself.
   */
  function Substitution(matched: string, before: string, after: string, replacement: string): (r: string)
    ensures '$' !in replacement ==> r == replacement
    decreases |replacement|
  {
    if replacement == [] then ""
    else if replacement[0] == '$' && |replacement| >= 2 && replacement[1] in "$&`'" then
      var c := replacement[1];
      var expansion := if c == '$' then "$" else if c == '&' then matched else if c == '`' then before else after;
      expansion + Substitution(matched, before, after, replacement[2..])
    else
      assert replacement == [replacement[0]] + replacement[1..];
      [replacement[0]] + Substitution(matched, before, after, replacement[1..])
  }

  /** A leading stretch without `$` is copied through unchanged. */
  lemma {:induction false} SubstitutionLiteralPrefix(matched: string, before: string, after: string, x: string, y: string)
    requires '$' !in x
    ensures Substitution(matched, before, after, x + y) == x + Substitution(matched, before, after, y)
    decreases |x|
  {
    if x != [] {
      var s := x + y;
      assert x[0] in x;
      assert s[0] == x[0] != '$' && s[1..] == x[1..] + y;
      assert Substitution(matched, before, after, s) == [s[0]] + Substitution(matched, before, after, s[1..]);
      SubstitutionLiteralPrefix(matched, before, after, x[1..], y);
      assert [x[0]] + (x[1..] + Substitution(matched, before, after, y)) == x + Substitution(matched, before, after, y);
    } else {
      assert x + y == y;
    }
  }

  /**
   * `s.replace(searchValue, replaceValue)` with a string search value: only
   * the first occurrence is replaced, through `Substitution`; with no
   * occurrence s is returned unchanged.
   */
  function Replace(s: string, searchValue: string, replaceValue: string): (r: string)
    ensures IndexOf(s, searchValue).None? ==> r == s
    ensures IndexOf(s, searchValue).Some? ==>
              var i := IndexOf(s, searchValue).value;
              var tail := s[i + |searchValue|..];
              |r| >= i + |tail| && r[..i] == s[..i] && r[|r| - |tail|..] == tail
  {
    match IndexOf(s, searchValue)
    case None => s
    case Some(i) =>
      var before, after := s[..i], s[i + |searchValue|..];
      before + Substitution(searchValue, before, after, replaceValue) + after
  }

  /** With a replacement free of `$`, the first occurrence is swapped for it literally. */
  lemma ReplaceVerbatim(s: string, searchValue: string, replaceValue: string, i: nat)
    requires '$' !in replaceValue
    requires IndexOf(s, searchValue) == Some(i)
    ensures Replace(s, searchValue, replaceValue) == s[..i] + replaceValue + s[i + |searchValue|..]
  {
  }

  /** `s.replace(searchValue, () => text)`: a replacer function's result is inserted without `$` expansion. */
  function ReplaceWith(s: string, searchValue: string, text: string): string {
    match IndexOf(s, searchValue)
    case None => s
    case Some(i) => s[..i] + text + s[i + |searchValue|..]
  }

  // ---- Decimal form of integers -------------------------------------------

  predicate IsDigit(c: char) {
    '0' <= c <= '9'
  }

  function DigitChar(d: nat): (c: char)
    requires d < 10
    ensures IsDigit(c)
  {
    (48 + d) as char
  }

  function DigitValue(c: char): (d: nat)
    requires IsDigit(c)
    ensures d < 10 && DigitChar(d) == c
  {
    c as int - 48
  }

  predicate AllDigits(s: string) {
    forall i :: 0 <= i < |s| ==> IsDigit(s[i])
  }

  /** Base-10 digits of n, most significant first, with no leading zero. */
  function NatToDecimal(n: nat): (r: string)
    ensures |r| >= 1 && AllDigits(r)
    ensures r[0] == '0' ==> n == 0
    ensures |r| > 1 ==> r[0] != '0'
  {
    if n < 10 then [DigitChar(n)] else NatToDecimal(n / 10) + [DigitChar(n % 10)]
  }

  /**
   * `${n}` for an integral Number n with |n| <= 2^53: an optional minus sign
   * and the decimal digits (JavaScript prints no sign for zero).
   */
  function IntToDecimal(n: int): (r: string)
    ensures |r| >= 1 && (r[0] == '-' <==> n < 0)
    ensures n >= 0 ==> AllDigits(r)
    ensures n < 0 ==> |r| >= 2 && AllDigits(r[1..])
  {
    if n < 0 then "-" + NatToDecimal(-n) else NatToDecimal(n)
  }

  /** The number a string of decimal digits denotes. */
  function DecimalValue(s: string): nat
    requires AllDigits(s)
  {
    if s == [] then 0 else 10 * DecimalValue(s[..|s| - 1]) + DigitValue(s[|s| - 1])
  }

  /** Reads back an optionally signed, non-empty string of decimal digits. */
  function ParseInteger(s: string): Option<int> {
    if |s| >= 2 && s[0] == '-' && AllDigits(s[1..]) then Some(0 - DecimalValue(s[1..]))
    else if |s| >= 1 && AllDigits(s) then Some(DecimalValue(s))
    else None
  }

  lemma {:induction false} DecimalRoundTrip(n: nat)
    ensures DecimalValue(NatToDecimal(n)) == n
  {
    if n >= 10 {
      DecimalRoundTrip(n / 10);
      var r := NatToDecimal(n);
      assert r[..|r| - 1] == NatToDecimal(n / 10);
    }
  }

  /** The decimal form determines the integer: reading it back gives n. */
  lemma IntegerRoundTrip(n: int)
    ensures ParseInteger(IntToDecimal(n)) == Some(n)
  {
    var d := IntToDecimal(n);
    if n < 0 {
      DecimalRoundTrip(-n);
      assert d[1..] == NatToDecimal(-n);
    } else {
      DecimalRoundTrip(n);
    }
  }

  // ---- Splitting on ", " ----------------------------------------------------

  /** `s.split(", ")`: the pieces between successive ", " separators, left to right. */
  function SplitCommaSpace(s: string): (r: seq<string>)
    ensures |r| >= 1
  {
    if s == [] then [""]
    else if |s| >= 2 && s[0] == ',' && s[1] == ' ' then [""] + SplitCommaSpace(s[2..])
    else
      var rest := SplitCommaSpace(s[1..]);
      [[s[0]] + rest[0]] + rest[1..]
  }

  lemma {:induction false} SplitNoComma(x: string)
    requires ',' !in x
    ensures SplitCommaSpace(x) == [x]
  {
    if x != [] {
      SplitNoComma(x[1..]);
      assert [x[0]] + x[1..] == x;
    }
  }

  lemma {:induction false} SplitAfterPiece(x: string, y: string)
    requires ',' !in x
    ensures SplitCommaSpace(x + ", " + y) == [x] + SplitCommaSpace(y)
  {
    var s := x + ", " + y;
    if x == [] {
      assert s[2..] == y;
    } else {
      SplitAfterPiece(x[1..], y);
      assert s[1..] == x[1..] + ", " + y;
      assert [x[0]] + x[1..] == x;
    }
  }

  /** Splitting a join on ", " gives the parts back when no part holds a comma. */
  lemma {:induction false} SplitJoinRoundTrip(parts: seq<string>)
    requires |parts| > 0
    requires forall i :: 0 <= i < |parts| ==> ',' !in parts[i]
    ensures SplitCommaSpace(Join(parts, ", ")) == parts
    decreases |parts|
  {
    if |parts| == 1 {
      SplitNoComma(parts[0]);
    } else {
      var rest := parts[1..];
      JoinCons(parts[0], rest, ", ");
      assert [parts[0]] + rest == parts;
      SplitAfterPiece(parts[0], Join(rest, ", "));
      SplitJoinRoundTrip(rest);
    }
  }
}
