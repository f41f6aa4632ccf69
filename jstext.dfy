/**
 * The pieces of JavaScript string behaviour the components rely on:
 * `String.prototype.trim`, the `\s` class of regular expressions, and the
 * decimal rendering of a non-negative integer in a template literal.
 */
module JsText {

  /**
   * ECMAScript WhiteSpace and LineTerminator code points: exactly what `trim`
   * removes and what `\s` matches.
   */
  predicate IsSpace(c: char) {
    || c == '\t' || c == '\n' || c == '\U{000B}' || c == '\U{000C}' || c == '\r'
    || c == ' ' || c == '\U{00A0}' || c == '\U{1680}'
    || ('\U{2000}' <= c <= '\U{200A}')
    || c == '\U{2028}' || c == '\U{2029}' || c == '\U{202F}' || c == '\U{205F}'
    || c == '\U{3000}' || c == '\U{FEFF}'
  }

  predicate AllSpace(s: string) {
    forall i :: 0 <= i < |s| ==> IsSpace(s[i])
  }

  /** `s` with its leading white space removed; `TrimStartSpec` states what it keeps. */
  function TrimStart(s: string): string {
    if s != [] && IsSpace(s[0]) then TrimStart(s[1..]) else s
  }

  /** `s` with its trailing white space removed; `TrimEndSpec` states what it keeps. */
  function TrimEnd(s: string): string {
    if s != [] && IsSpace(s[|s| - 1]) then TrimEnd(s[..|s| - 1]) else s
  }

  /**
   * `TrimStart` keeps a suffix of `s` that does not start with white space,
   * and everything it removes is white space.
   */
  lemma {:induction false} TrimStartSpec(s: string)
    ensures |TrimStart(s)| <= |s| && TrimStart(s) == s[|s| - |TrimStart(s)|..]
    ensures AllSpace(s[..|s| - |TrimStart(s)|])
    ensures TrimStart(s) == [] || !IsSpace(TrimStart(s)[0])
  {
    if s != [] && IsSpace(s[0]) {
      TrimStartSpec(s[1..]);
      var r := TrimStart(s[1..]);
      assert s[1..][..|s| - 1 - |r|] == s[1..|s| - |r|];
    }
  }

  /**
   * `TrimEnd` keeps a prefix of `s` that does not end with white space, and
   * everything it removes is white space.
   */
  lemma {:induction false} TrimEndSpec(s: string)
    ensures |TrimEnd(s)| <= |s| && TrimEnd(s) == s[..|TrimEnd(s)|]
    ensures AllSpace(s[|TrimEnd(s)|..])
    ensures TrimEnd(s) == [] || !IsSpace(TrimEnd(s)[|TrimEnd(s)| - 1])
  {
    if s != [] && IsSpace(s[|s| - 1]) {
      var init := s[..|s| - 1];
      TrimEndSpec(init);
      var r := TrimEnd(init);
      assert TrimEnd(s) == r;
      assert init[..|r|] == s[..|r|];
      assert init[|r|..] == s[|r|..|s| - 1];
      assert s[|r|..] == init[|r|..] + [s[|s| - 1]];
    }
  }

  /** `r` occurs in `s` starting at index `k`. */
  predicate OccursAt(r: string, s: string, k: int) {
    0 <= k <= |s| - |r| && s[k..k + |r|] == r
  }

  /** JavaScript's `s.trim()`; `TrimSpec` states what it keeps. */
  function Trim(s: string): string {
    TrimEnd(TrimStart(s))
  }

  /**
   * `trim` keeps a contiguous piece of `s` and removes only white space on
   * either side of it; the piece is empty exactly when `s` is all white
   * space, and otherwise starts and ends with a character that is not white
   * space.
   */
  lemma TrimSpec(s: string)
    ensures exists k :: OccursAt(Trim(s), s, k) && AllSpace(s[..k]) && AllSpace(s[k + |Trim(s)|..])
    ensures Trim(s) == [] <==> AllSpace(s)
    ensures Trim(s) != [] ==> !IsSpace(Trim(s)[0]) && !IsSpace(Trim(s)[|Trim(s)| - 1])
  {
    TrimStartSpec(s);
    var t := TrimStart(s);
    TrimEndSpec(t);
    var r := TrimEnd(t);
    var k := |s| - |t|;
    assert OccursAt(r, s, k);
    assert s[k + |r|..] == t[|r|..];
    if r == [] {
      assert t == [];
      assert s[..k] == s;
    }
  }

  /** `s.length`: UTF-16 code units, two for each code point above U+FFFF. */
  function Utf16Length(s: string): (n: nat)
    ensures |s| <= n <= 2 * |s|
    ensures |s| == 1 ==> n == if s[0] < '\U{10000}' then 1 else 2
    ensures n == |s| <==> forall i :: 0 <= i < |s| ==> s[i] < '\U{10000}'
  {
    if s == [] then 0
    else
      assert forall i :: 1 <= i < |s| ==> s[i] == s[1..][i - 1];
      (if s[0] < '\U{10000}' then 1 else 2) + Utf16Length(s[1..])
  }

  /** Code units add up: the length of a concatenation is the sum of the lengths. */
  lemma {:induction false} Utf16LengthAppend(a: string, b: string)
    ensures Utf16Length(a + b) == Utf16Length(a) + Utf16Length(b)
  {
    if a != [] {
      Utf16LengthAppend(a[1..], b);
      assert (a + b)[1..] == a[1..] + b;
    } else {
      assert a + b == b;
    }
  }

  function DigitChar(d: nat): char
    requires d < 10
  {
    "0123456789"[d]
  }

  function DigitValue(c: char): nat {
    if '0' <= c <= '9' then (c as int - '0' as int) else 0
  }

  predicate IsDigit(c: char) {
    '0' <= c <= '9'
  }

  /** The value of a string of decimal digits, most significant first. */
  function ParseDecimal(s: string): nat {
    if s == [] then 0 else 10 * ParseDecimal(s[..|s| - 1]) + DigitValue(s[|s| - 1])
  }

  /** `${n}` for a non-negative integer: its shortest decimal rendering. */
  function Decimal(n: nat): (r: string)
    ensures r != [] && forall i :: 0 <= i < |r| ==> IsDigit(r[i])
    ensures |r| > 1 ==> r[0] != '0'
  {
    if n < 10 then [DigitChar(n)] else Decimal(n / 10) + [DigitChar(n % 10)]
  }

  /** Rendering a number in decimal loses nothing: reading the digits back gives the number. */
  lemma {:induction false} DecimalRoundTrip(n: nat)
    ensures ParseDecimal(Decimal(n)) == n
  {
    if n >= 10 {
      DecimalRoundTrip(n / 10);
      var r := Decimal(n);
      assert r[..|r| - 1] == Decimal(n / 10);
    }
  }
}
