/** The parts of JavaScript's string semantics that the signup code relies on:
    the white-space class of regular expressions and of `String.prototype.trim`,
    `Number.prototype.toString` on a non-negative integer, and `parseInt(s, 10)`. */
module JsString {
  import opened Wrappers

  /** ECMAScript WhiteSpace (TAB, VT, FF, SP, NBSP, ZWNBSP and category Zs) and
      LineTerminator (LF, CR, LS, PS): the set matched by `\s` and removed by `trim`. */
  predicate IsWhiteSpace(c: char)
  {
    || c == '\t' || c == '\U{000B}' || c == '\U{000C}' || c == ' ' || c == '\U{00A0}' || c == '\U{FEFF}'
    || c == '\U{1680}' || ('\U{2000}' <= c <= '\U{200A}') || c == '\U{202F}' || c == '\U{205F}' || c == '\U{3000}'
    || c == '\n' || c == '\r' || c == '\U{2028}' || c == '\U{2029}'
  }

  /** The number of white-space characters at the front of `s`. */
  function LeadingSpace(s: string): (n: nat)
    ensures n <= |s|
    ensures forall k {:trigger IsWhiteSpace(s[k])} :: 0 <= k < n ==> IsWhiteSpace(s[k])
    ensures n < |s| ==> !IsWhiteSpace(s[n])
  {
    if s != [] && IsWhiteSpace(s[0]) then
      var m := LeadingSpace(s[1..]);
      assert forall k :: 1 <= k < 1 + m ==> s[k] == s[1..][k - 1];
      1 + m
    else 0
  }

  /** The number of white-space characters at the back of `s`. */
  function TrailingSpace(s: string): (n: nat)
    ensures n <= |s|
    ensures forall k {:trigger IsWhiteSpace(s[k])} :: |s| - n <= k < |s| ==> IsWhiteSpace(s[k])
    ensures n < |s| ==> !IsWhiteSpace(s[|s| - 1 - n])
  {
    if s != [] && IsWhiteSpace(s[|s| - 1]) then
      var m := TrailingSpace(s[..|s| - 1]);
      assert forall k :: |s| - 1 - m <= k < |s| - 1 ==> s[k] == s[..|s| - 1][k];
      1 + m
    else 0
  }

  /** `String.prototype.trim`: `s` without its leading and trailing white space. */
  function Trim(s: string): string
  {
    if LeadingSpace(s) == |s| then []
    else
      assert !IsWhiteSpace(s[LeadingSpace(s)]);
      s[LeadingSpace(s)..|s| - TrailingSpace(s)]
  }

  /** The trim is the slice of `s` that starts after its leading white space. */
  lemma TrimIsSlice(s: string)
    ensures var r, i := Trim(s), LeadingSpace(s); i + |r| <= |s| && r == s[i..i + |r|]
  {
  }

  /** The trim neither starts nor ends with white space. */
  lemma TrimBordered(s: string)
    ensures var r := Trim(s); r == [] || (!IsWhiteSpace(r[0]) && !IsWhiteSpace(r[|r| - 1]))
  {
    if LeadingSpace(s) < |s| {
      var i, j := LeadingSpace(s), |s| - TrailingSpace(s);
      assert !IsWhiteSpace(s[i]);
      assert Trim(s)[0] == s[i] && Trim(s)[j - i - 1] == s[j - 1];
    }
  }

  /** Everything the trim cuts off, at the front and at the back, is white space. */
  lemma TrimCutsWhiteSpace(s: string)
    ensures var r, i := Trim(s), LeadingSpace(s);
      && (forall k {:trigger IsWhiteSpace(s[k])} :: 0 <= k < i ==> IsWhiteSpace(s[k]))
      && (forall k {:trigger IsWhiteSpace(s[k])} :: i + |r| <= k < |s| ==> IsWhiteSpace(s[k]))
  {
    if LeadingSpace(s) < |s| {
      assert !IsWhiteSpace(s[LeadingSpace(s)]);
    }
  }

  /** The trim is empty exactly when `s` is all white space. */
  lemma TrimEmptyIffAllWhiteSpace(s: string)
    ensures Trim(s) == [] <==> forall k {:trigger IsWhiteSpace(s[k])} :: 0 <= k < |s| ==> IsWhiteSpace(s[k])
  {
    if LeadingSpace(s) < |s| {
      assert !IsWhiteSpace(s[LeadingSpace(s)]);
    }
  }

  /** A string that neither starts nor ends with white space is its own trim. */
  lemma TrimUnchanged(s: string)
    requires s == [] || (!IsWhiteSpace(s[0]) && !IsWhiteSpace(s[|s| - 1]))
    ensures Trim(s) == s
  {
  }

  /** Trimming twice is trimming once. */
  lemma TrimIdempotent(s: string)
    ensures Trim(Trim(s)) == Trim(s)
  {
    TrimBordered(s);
    TrimUnchanged(Trim(s));
  }

  predicate IsDigit(c: char)
  {
    '0' <= c <= '9'
  }

  function DigitChar(d: nat): (c: char)
    requires d < 10
    ensures IsDigit(c) && DigitValue(c) == d
  {
    ['0', '1', '2', '3', '4', '5', '6', '7', '8', '9'][d]
  }

  function DigitValue(c: char): (d: nat)
    requires IsDigit(c)
    ensures d < 10
  {
    (c as int) - ('0' as int)
  }

  /** `n.toString()` for an integer `0 <= n < 10^21` (Date.now() values): the decimal numeral,
      without leading zeros. */
  function ToDecimal(n: nat): (r: string)
    ensures |r| > 0 && forall k :: 0 <= k < |r| ==> IsDigit(r[k])
    ensures r[0] == '0' ==> n == 0
  {
    if n < 10 then [DigitChar(n)] else ToDecimal(n / 10) + [DigitChar(n % 10)]
  }

  /** The value of a string of decimal digits, most significant first. */
  function DigitsValue(ds: string): nat
    requires forall k :: 0 <= k < |ds| ==> IsDigit(ds[k])
  {
    if ds == [] then 0 else 10 * DigitsValue(ds[..|ds| - 1]) + DigitValue(ds[|ds| - 1])
  }

  /** Length of the longest prefix of `s` made of decimal digits. */
  function DigitPrefixLength(s: string): (n: nat)
    ensures n <= |s| && forall k :: 0 <= k < n ==> IsDigit(s[k])
    ensures n < |s| ==> !IsDigit(s[n])
  {
    if s != [] && IsDigit(s[0]) then
      var m := DigitPrefixLength(s[1..]);
      assert forall k :: 1 <= k < 1 + m ==> s[k] == s[1..][k - 1];
      1 + m
    else 0
  }

  /** `parseInt(s, 10)`: skip leading white space, read an optional sign, then the longest run of
      decimal digits; `None` stands for NaN, the result when there is no digit at that point. */
  function ParseInt(s: string): (r: Option<int>)
  {
    var t := s[LeadingSpace(s)..];
    var negative := t != [] && t[0] == '-';
    var unsigned := if t != [] && (t[0] == '-' || t[0] == '+') then t[1..] else t;
    var n := DigitPrefixLength(unsigned);
    if n == 0 then None
    else
      var v: int := DigitsValue(unsigned[..n]);
      Some(if negative then -v else v)
  }

  lemma {:induction false} DigitsValueOfDecimal(n: nat)
    ensures DigitsValue(ToDecimal(n)) == n
  {
    var r := ToDecimal(n);
    if n < 10 {
      assert r[..0] == [];
    } else {
      DigitsValueOfDecimal(n / 10);
      assert r[..|r| - 1] == ToDecimal(n / 10);
    }
  }

  lemma {:induction false} DigitPrefixOfDigits(s: string)
    requires forall k :: 0 <= k < |s| ==> IsDigit(s[k])
    ensures DigitPrefixLength(s) == |s|
  {
    if s != [] {
      DigitPrefixOfDigits(s[1..]);
    }
  }

  /** Reading back what `recordSubmission` wrote: `parseInt(n.toString(), 10) == n`. */
  lemma ParseIntOfDecimal(n: nat)
    ensures ParseInt(ToDecimal(n)) == Some(n)
  {
    var r := ToDecimal(n);
    assert IsDigit(r[0]) && !IsWhiteSpace(r[0]) && r[0] != '-' && r[0] != '+';
    assert LeadingSpace(r) == 0;
    DigitPrefixOfDigits(r);
    assert r[..|r|] == r;
    DigitsValueOfDecimal(n);
  }
}
