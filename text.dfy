/**
 * The few string operations of PHP that the library relies on: integer to
 * string conversion, rtrim(), str_starts_with(), strpos() and strrpos().
 */
module Text {
  import opened Wrappers

  predicate IsDigit(c: char)
  {
    '0' <= c <= '9'
  }

  predicate AllDigits(s: string)
  {
    forall i :: 0 <= i < |s| ==> IsDigit(s[i])
  }

  function Digit(d: nat): (c: char)
    requires d < 10
    ensures IsDigit(c) && c as int - '0' as int == d
  {
    ('0' as int + d) as char
  }

  /** The decimal digits of n without leading zeros, as PHP casts an int to string. */
  function NatToString(n: nat): (s: string)
    ensures |s| >= 1 && AllDigits(s)
    decreases n
  {
    if n < 10 then [Digit(n)] else NatToString(n / 10) + [Digit(n % 10)]
  }

  /** PHP's (string) cast of an integer: a '-' sign before the digits of a negative value. */
  function IntToString(i: int): (s: string)
  {
    if i < 0 then "-" + NatToString(-i) else NatToString(i)
  }

  /** The number a string of decimal digits denotes. */
  function DigitsValue(s: string): nat
    requires AllDigits(s)
  {
    if s == [] then 0 else 10 * DigitsValue(s[..|s| - 1]) + (s[|s| - 1] as int - '0' as int)
  }

  /** Reading back an optionally signed decimal string; None for anything else. */
  function ParseInt(s: string): Option<int>
  {
    if |s| > 1 && s[0] == '-' && AllDigits(s[1..]) then Some(0 - DigitsValue(s[1..]) as int)
    else if |s| > 0 && AllDigits(s) then Some(DigitsValue(s))
    else None
  }

  lemma {:induction false} NatToStringRoundTrip(n: nat)
    ensures DigitsValue(NatToString(n)) == n
  {
    if n >= 10 {
      NatToStringRoundTrip(n / 10);
      var s := NatToString(n);
      assert s[..|s| - 1] == NatToString(n / 10);
    }
  }

  /** Reading the decimal rendering of any integer gives the integer back. */
  lemma IntToStringRoundTrip(i: int)
    ensures ParseInt(IntToString(i)) == Some(i)
  {
    var s := IntToString(i);
    if i < 0 {
      NatToStringRoundTrip(-i);
      assert s[1..] == NatToString(-i);
    } else {
      NatToStringRoundTrip(i);
    }
  }

  /** Distinct integers have distinct renderings. */
  lemma IntToStringInjective(a: int, b: int)
    ensures IntToString(a) == IntToString(b) ==> a == b
  {
    IntToStringRoundTrip(a);
    IntToStringRoundTrip(b);
  }

  /** The characters PHP's rtrim() strips by default: " \t\n\r\0\x0B". */
  predicate IsBlank(c: char)
  {
    c == ' ' || c == '\t' || c == '\n' || c == '\r' || c as int == 0 || c as int == 11
  }

  /** rtrim(): s without its trailing blanks. */
  function RTrim(s: string): (r: string)
    ensures r <= s
    ensures r == [] || !IsBlank(r[|r| - 1])
    ensures forall i :: |r| <= i < |s| ==> IsBlank(s[i])
  {
    if |s| > 0 && IsBlank(s[|s| - 1]) then RTrim(s[..|s| - 1]) else s
  }

  /** Appending blanks never changes what rtrim() keeps. */
  lemma {:induction false} RTrimIgnoresTrailingBlanks(s: string, t: string)
    requires forall i :: 0 <= i < |t| ==> IsBlank(t[i])
    ensures RTrim(s + t) == RTrim(s)
  {
    if t != [] {
      assert (s + t)[|s + t| - 1] == t[|t| - 1];
      assert (s + t)[..|s + t| - 1] == s + t[..|t| - 1];
      RTrimIgnoresTrailingBlanks(s, t[..|t| - 1]);
    } else {
      assert s + t == s;
    }
  }

  /** A ?string argument that PHP's empty() does not reject (the string "0" is not special here). */
  predicate NotEmpty(s: Option<string>)
  {
    s.Some? && s.value != ""
  }

  /** rtrim() never cuts into a leading part that ends in a non-blank character. */
  lemma RTrimKeepsPrefix(p: string, s: string)
    requires p <= s && |p| > 0 && !IsBlank(p[|p| - 1])
    ensures p <= RTrim(s)
  {
    var r := RTrim(s);
    assert s[|p| - 1] == p[|p| - 1];
    assert r[..|p|] == s[..|p|] == p;
  }

  /** Concatenation regroups: the first part may be split off the rest. */
  lemma SplitOffFirst(w: string, x: string, y: string, z: string)
    ensures w + x + y + z == w + (x + y + z)
  {
  }

  /** Cutting a string in two and joining the halves gives it back. */
  lemma CutJoin(s: string, k: nat)
    requires k <= |s|
    ensures s[..k] + s[k..] == s
  {
  }

  lemma PrefixOfJoin(p: string, rest: string)
    ensures p <= p + rest
  {
    assert (p + rest)[..|p|] == p;
  }

  predicate StartsWith(s: string, prefix: string)
  {
    |prefix| <= |s| && s[..|prefix|] == prefix
  }

  /** strpos($s, $c): the first position of c in s. */
  function FirstIndexOf(s: string, c: char): (r: Option<nat>)
    ensures r.None? ==> c !in s
    ensures r.Some? ==> r.value < |s| && s[r.value] == c && c !in s[..r.value]
  {
    if |s| == 0 then None
    else if s[0] == c then Some(0)
    else
      match FirstIndexOf(s[1..], c)
      case None => None
      case Some(i) => assert s[..i + 1] == [s[0]] + s[1..][..i]; Some(i + 1)
  }

  /** strrpos($s, $c): the last position of c in s. */
  function LastIndexOf(s: string, c: char): (r: Option<nat>)
    ensures r.None? ==> forall j :: 0 <= j < |s| ==> s[j] != c
    ensures r.Some? ==> r.value < |s| && s[r.value] == c && forall j :: r.value < j < |s| ==> s[j] != c
  {
    if |s| == 0 then None
    else if s[|s| - 1] == c then Some(|s| - 1)
    else
      var init := s[..|s| - 1];
      assert forall j :: 0 <= j < |init| ==> init[j] == s[j];
      LastIndexOf(init, c)
  }
}
