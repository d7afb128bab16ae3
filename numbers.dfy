/**
 * The text-to-number path of the amount editor (components/DealsTable.tsx:99-104):
 * the editor is seeded with `v.toString()`, and a commit strips every comma and space
 * (`val.replace(/[, ]/g, "")`) and parses the rest with JavaScript's `Number(...)`.
 *
 * Amounts are integers here.  `Number` is modelled for the inputs whose result is an
 * integer written in decimal: surrounding white space is ignored, a blank string is 0,
 * and an optionally signed run of decimal digits is its value.  Every other input is
 * NaN, which is `None`.
 */
module Numbers {
  import opened Wrappers

  /** The characters the regular expression `/[, ]/g` matches. */
  predicate IsSeparator(c: char) {
    c == ',' || c == ' '
  }

  /** `s.replace(/[, ]/g, "")`: every comma and every space removed. */
  function StripSeparators(s: string): (r: string)
    ensures forall k :: 0 <= k < |r| ==> !IsSeparator(r[k])
    ensures |r| <= |s|
  {
    if s == [] then []
    else if IsSeparator(s[0]) then StripSeparators(s[1..])
    else [s[0]] + StripSeparators(s[1..])
  }

  /** Stripping removes only separators: every other character keeps its number of occurrences. */
  lemma {:induction false} StripKeepsOthers(s: string, c: char)
    requires !IsSeparator(c)
    ensures multiset(StripSeparators(s))[c] == multiset(s)[c]
  {
    if s != [] {
      StripKeepsOthers(s[1..], c);
      assert s == [s[0]] + s[1..];
    }
  }

  /** Stripping works piecewise, so it keeps the order of what it keeps. */
  lemma {:induction false} StripAppend(a: string, b: string)
    ensures StripSeparators(a + b) == StripSeparators(a) + StripSeparators(b)
  {
    if a == [] {
      assert a + b == b;
    } else {
      assert (a + b)[0] == a[0] && (a + b)[1..] == a[1..] + b;
      StripAppend(a[1..], b);
    }
  }

  /** A string without separators is left as it is; in particular stripping is idempotent. */
  lemma {:induction false} StripNoSeparators(s: string)
    requires forall k :: 0 <= k < |s| ==> !IsSeparator(s[k])
    ensures StripSeparators(s) == s
  {
    if s != [] {
      StripNoSeparators(s[1..]);
    }
  }

  lemma StripIdempotent(s: string)
    ensures StripSeparators(StripSeparators(s)) == StripSeparators(s)
  {
    StripNoSeparators(StripSeparators(s));
  }

  /** The characters `Number` trims: ECMAScript's WhiteSpace and LineTerminator. */
  predicate IsJsSpace(c: char) {
    var n := c as int;
    n == 0x09 || n == 0x0A || n == 0x0B || n == 0x0C || n == 0x0D || n == 0x20 ||
    n == 0xA0 || n == 0x1680 || (0x2000 <= n <= 0x200A) || n == 0x2028 || n == 0x2029 ||
    n == 0x202F || n == 0x205F || n == 0x3000 || n == 0xFEFF
  }

  /** The number of white-space characters `s` starts with. */
  function LeadingSpaces(s: string): (n: nat)
    ensures n <= |s|
    ensures forall m :: 0 <= m < n ==> IsJsSpace(s[m])
    ensures n < |s| ==> !IsJsSpace(s[n])
  {
    if s == [] || !IsJsSpace(s[0]) then 0 else 1 + LeadingSpaces(s[1..])
  }

  /** The number of white-space characters `s` ends with. */
  function TrailingSpaces(s: string): (n: nat)
    ensures n <= |s|
    ensures forall m :: |s| - n <= m < |s| ==> IsJsSpace(s[m])
    ensures n < |s| ==> !IsJsSpace(s[|s| - n - 1])
  {
    if s == [] || !IsJsSpace(s[|s| - 1]) then 0 else 1 + TrailingSpaces(s[..|s| - 1])
  }

  /** `s` with leading and trailing white space removed, as `Number` does first. */
  function Trim(s: string): (t: string)
    ensures t != [] ==> !IsJsSpace(t[0]) && !IsJsSpace(t[|t| - 1])
  {
    var rest := s[LeadingSpaces(s)..];
    rest[..|rest| - TrailingSpaces(rest)]
  }

  predicate IsDigit(c: char) {
    '0' <= c <= '9'
  }

  predicate AllDigits(s: string) {
    forall k :: 0 <= k < |s| ==> IsDigit(s[k])
  }

  /** The value of a run of decimal digits (leading zeros allowed, as in `Number("007")`). */
  function DigitsValue(s: string): (n: nat)
    requires AllDigits(s)
    decreases |s|
  {
    if s == [] then 0
    else DigitsValue(s[..|s| - 1]) * 10 + (s[|s| - 1] as int - '0' as int)
  }

  /** `Number(s)` on the inputs the model covers; `None` is NaN. */
  function ParseNumber(s: string): (r: Option<int>)
    ensures (forall k :: 0 <= k < |s| ==> IsJsSpace(s[k])) ==> r == Some(0)
  {
    var t := Trim(s);
    if t == [] then Some(0)
    else if (t[0] == '-' || t[0] == '+') && |t| > 1 && AllDigits(t[1..]) then
      var n: int := DigitsValue(t[1..]);
      Some(if t[0] == '-' then -n else n)
    else if AllDigits(t) then Some(DigitsValue(t))
    else None
  }

  /** Any character that is neither a digit, a sign nor white space makes the input NaN. */
  lemma ParseRejectsForeign(s: string, k: nat)
    requires k < |s| && !IsDigit(s[k]) && !IsJsSpace(s[k]) && s[k] != '-' && s[k] != '+'
    ensures ParseNumber(s) == None
  {
    var a := LeadingSpaces(s);
    var rest := s[a..];
    var t := Trim(s);
    assert a <= k;
    assert k - a < |rest| - TrailingSpaces(rest);
    assert t[k - a] == s[k];
  }

  function DigitChar(d: nat): (c: char)
    requires d < 10
    ensures IsDigit(c) && c as int - '0' as int == d
  {
    ('0' as int + d) as char
  }

  /** `n.toString()` for a natural number: its decimal digits, without a leading zero. */
  function NatToString(n: nat): (s: string)
    ensures |s| > 0 && AllDigits(s)
    ensures s[0] == '0' ==> n == 0
    decreases n
  {
    if n < 10 then [DigitChar(n)] else NatToString(n / 10) + [DigitChar(n % 10)]
  }

  /** `n.toString()` for an integer (the decimal form JavaScript uses below 10^21). */
  function IntToString(n: int): (s: string)
    ensures |s| > 0 && (s[0] == '-' <==> n < 0)
  {
    if n < 0 then "-" + NatToString(-n) else NatToString(n)
  }

  /** Reading the digits back gives the number. */
  lemma {:induction false} NatToStringValue(n: nat)
    ensures DigitsValue(NatToString(n)) == n
    decreases n
  {
    var s := NatToString(n);
    if n >= 10 {
      NatToStringValue(n / 10);
      assert s[..|s| - 1] == NatToString(n / 10);
    }
  }

  /** `Number(n.toString()) == n`: the value the editor is seeded with parses back to itself. */
  lemma ParseIntToString(n: int)
    ensures ParseNumber(IntToString(n)) == Some(n)
  {
    var s := IntToString(n);
    var digits := NatToString(if n < 0 then -n else n);
    NatToStringValue(if n < 0 then -n else n);
    assert !IsJsSpace(s[0]) && !IsJsSpace(s[|s| - 1]);
    assert Trim(s) == s;
    if n < 0 {
      assert s[1..] == digits;
    } else {
      assert s == digits;
    }
  }

  /** Committing the unedited seed text restores the amount: there is nothing to strip in it. */
  lemma ParseUntouched(n: int)
    ensures ParseNumber(StripSeparators(IntToString(n))) == Some(n)
  {
    var s := IntToString(n);
    assert forall k :: 0 <= k < |s| ==> !IsSeparator(s[k]) by {
      if n >= 0 {
        assert AllDigits(s);
      } else {
        assert AllDigits(s[1..]);
        assert forall k :: 1 <= k < |s| ==> s[k] == s[1..][k - 1];
      }
    }
    StripNoSeparators(s);
    ParseIntToString(n);
  }

  /** A grouped amount as typed: the comma and the trailing space are stripped. */
  lemma StripGrouped()
    ensures StripSeparators("12,000 ") == "12000"
  {
  }

  lemma TwelveThousandText()
    ensures IntToString(12000) == "12000"
  {
  }

  /** Grouped input: "12,000 " converts to 12000 once commas and spaces are stripped. */
  lemma ParseGrouped()
    ensures ParseNumber(StripSeparators("12,000 ")) == Some(12000)
  {
    StripGrouped();
    TwelveThousandText();
    ParseIntToString(12000);
  }
}
