/** String helpers standing for the JavaScript string operations the
    application relies on: `trim`, `startsWith`, `includes`, `String(n)`
    and `padStart(2, '0')`. */
module Text {

  /** The characters `String.prototype.trim` removes: the ECMAScript
      WhiteSpace and LineTerminator code points. */
  predicate IsJsSpace(c: char)
  {
    || c == ' ' || c == '\t' || c == '\n' || c == '\r'
    || c == '\U{000B}' || c == '\U{000C}' || c == '\U{00A0}' || c == '\U{1680}'
    || ('\U{2000}' <= c <= '\U{200A}')
    || c == '\U{2028}' || c == '\U{2029}' || c == '\U{202F}' || c == '\U{205F}'
    || c == '\U{3000}' || c == '\U{FEFF}'
  }

  /** The number of white-space characters `s` starts with. */
  function LeadingSpaces(s: string): (n: nat)
    ensures n <= |s|
    ensures forall i :: 0 <= i < n ==> IsJsSpace(s[i])
    ensures n < |s| ==> !IsJsSpace(s[n])
    decreases |s|
  {
    if |s| == 0 || !IsJsSpace(s[0]) then 0
    else
      var k := LeadingSpaces(s[1..]);
      assert forall i :: 1 <= i <= k ==> s[i] == s[1..][i - 1];
      k + 1
  }

  /** The number of white-space characters `s` ends with. */
  function TrailingSpaces(s: string): (n: nat)
    ensures n <= |s|
    ensures forall i :: |s| - n <= i < |s| ==> IsJsSpace(s[i])
    ensures n < |s| ==> !IsJsSpace(s[|s| - n - 1])
    decreases |s|
  {
    if |s| == 0 || !IsJsSpace(s[|s| - 1]) then 0
    else
      var init := s[..|s| - 1];
      var k := TrailingSpaces(init);
      assert forall i :: |init| - k <= i < |init| ==> s[i] == init[i];
      k + 1
  }

  /** Drops leading white space. */
  function TrimStart(s: string): (r: string)
    ensures |r| <= |s| && r == s[|s| - |r|..]
    ensures |r| > 0 ==> !IsJsSpace(r[0])
    ensures forall i :: 0 <= i < |s| - |r| ==> IsJsSpace(s[i])
  {
    s[LeadingSpaces(s)..]
  }

  /** Drops trailing white space. */
  function TrimEnd(s: string): (r: string)
    ensures |r| <= |s| && r == s[..|r|]
    ensures |r| > 0 ==> !IsJsSpace(r[|r| - 1])
    ensures forall i :: |r| <= i < |s| ==> IsJsSpace(s[i])
  {
    s[..|s| - TrailingSpaces(s)]
  }

  /** `String.prototype.trim`. */
  function Trim(s: string): string
  {
    TrimEnd(TrimStart(s))
  }

  /** A string is blank when it holds nothing but white space. */
  predicate IsBlank(s: string)
  {
    forall i :: 0 <= i < |s| ==> IsJsSpace(s[i])
  }

  /** `!s.trim()` holds exactly for blank strings. */
  lemma TrimEmptyIffBlank(s: string)
    ensures Trim(s) == [] <==> IsBlank(s)
  {
    var t := TrimStart(s);
    if Trim(s) == [] {
      assert |t| == 0;
    }
  }

  /** Dropping trailing white space keeps the first character. */
  lemma TrimEndKeepsFirst(t: string)
    ensures |TrimEnd(t)| > 0 ==> TrimEnd(t)[0] == t[0]
  {
    var r := TrimEnd(t);
    if |r| > 0 {
      assert r == t[..|r|];
    }
  }

  /** `t` neither starts nor ends with white space. */
  predicate Trimmed(t: string)
  {
    |t| > 0 ==> !IsJsSpace(t[0]) && !IsJsSpace(t[|t| - 1])
  }

  /** Trimming leaves no white space at either end. */
  lemma TrimEnds(s: string)
    ensures Trimmed(Trim(s))
  {
    TrimEndKeepsFirst(TrimStart(s));
  }

  /** `t` is what trimming `s` should leave: `s` is `t` with nothing but
      white space before and after it, and `t` neither starts nor ends with
      white space. */
  ghost predicate TrimOf(t: string, s: string)
  {
    Trimmed(t) && exists a, b :: s == a + t + b && IsBlank(a) && IsBlank(b)
  }

  /** `Trim` removes exactly the surrounding white space. */
  lemma TrimIsTrimOf(s: string)
    ensures TrimOf(Trim(s), s)
  {
    TrimEnds(s);
    var u := TrimStart(s);
    var t := TrimEnd(u);
    var a := s[..|s| - |u|];
    var b := u[|t|..];
    assert u == t + b;
    assert s == a + u;
    assert IsBlank(a) && IsBlank(b);
    assert s == a + t + b;
  }

  /** The white-space run in front of a string is exactly a blank prefix
      followed by a character that is not white space. */
  lemma LeadingSpacesOf(a: string, t: string)
    requires IsBlank(a) && |t| > 0 && !IsJsSpace(t[0])
    ensures LeadingSpaces(a + t) == |a|
  {
    var s := a + t;
    assert s[|a|] == t[0];
  }

  lemma TrailingSpacesOf(t: string, b: string)
    requires IsBlank(b) && |t| > 0 && !IsJsSpace(t[|t| - 1])
    ensures TrailingSpaces(t + b) == |b|
  {
    var s := t + b;
    assert s[|t| - 1] == t[|t| - 1];
  }

  /** Only one string is a trimming of `s`, so `TrimOf` pins `Trim` down. */
  lemma TrimOfIsTrim(t: string, s: string)
    requires TrimOf(t, s)
    ensures t == Trim(s)
  {
    var a, b :| s == a + t + b && IsBlank(a) && IsBlank(b);
    if |t| == 0 {
      assert s == a + b;
      TrimEmptyIffBlank(s);
    } else {
      assert s == a + (t + b);
      LeadingSpacesOf(a, t + b);
      assert TrimStart(s) == t + b;
      TrailingSpacesOf(t, b);
      assert TrimEnd(t + b) == t;
    }
  }

  function StartsWith(s: string, prefix: string): (b: bool)
    ensures b <==> exists rest :: s == prefix + rest
  {
    if |prefix| <= |s| && s[..|prefix|] == prefix then
      assert s == prefix + s[|prefix|..];
      true
    else
      false
  }

  function Contains(s: string, c: char): (b: bool)
    ensures b <==> exists i :: 0 <= i < |s| && s[i] == c
  {
    c in s
  }

  function DigitChar(d: nat): (c: char)
    requires d < 10
    ensures '0' <= c <= '9'
    ensures c as int == '0' as int + d
  {
    ('0' as int + d) as char
  }

  function DigitValue(c: char): (d: nat)
    requires '0' <= c <= '9'
    ensures d < 10 && DigitChar(d) == c
    ensures d == c as int - '0' as int
  {
    (c as int - '0' as int) as nat
  }

  predicate IsDigits(s: string)
  {
    forall i :: 0 <= i < |s| ==> '0' <= s[i] <= '9'
  }

  /** `String(n)` for a natural number: its decimal digits, no leading zero. */
  function NatToString(n: nat): (r: string)
    ensures |r| > 0 && IsDigits(r)
    ensures |r| > 1 ==> r[0] != '0'
    decreases n
  {
    if n < 10 then [DigitChar(n)] else NatToString(n / 10) + [DigitChar(n % 10)]
  }

  /** The value of a string of decimal digits. */
  function DigitsValue(s: string): (n: nat)
    requires IsDigits(s)
    decreases |s|
  {
    if |s| == 0 then 0 else DigitsValue(s[..|s| - 1]) * 10 + DigitValue(s[|s| - 1])
  }

  lemma {:induction false} NatToStringRoundTrip(n: nat)
    ensures DigitsValue(NatToString(n)) == n
    decreases n
  {
    var r := NatToString(n);
    if n >= 10 {
      NatToStringRoundTrip(n / 10);
      assert r[..|r| - 1] == NatToString(n / 10);
    }
  }

  /** `String(n).padStart(2, '0')` for a number below one hundred. */
  function Pad2(n: nat): (r: string)
    requires n < 100
    ensures |r| == 2 && IsDigits(r)
    ensures DigitsValue(r) == n
  {
    var r := [DigitChar(n / 10), DigitChar(n % 10)];
    assert r[..1] == [DigitChar(n / 10)] && r[..1][..0] == [];
    assert DigitsValue(r[..1]) == n / 10;
    r
  }
}
