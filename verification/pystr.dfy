/** The parts of Python's built-in `str` that the bot relies on:
    `strip()`, `title()`, `replace()` of one character, and `str()` of an integer. */
module PyStr {

  /** Python's `str.isspace()`: the characters `str.strip()` removes when given no argument. */
  predicate IsSpace(c: char) {
    || ('\t' <= c <= '\r')
    || ('\U{1C}' <= c <= '\U{1F}')
    || c == ' '
    || c == '\U{85}'
    || c == '\U{A0}'
    || c == '\U{1680}'
    || ('\U{2000}' <= c <= '\U{200A}')
    || c == '\U{2028}'
    || c == '\U{2029}'
    || c == '\U{202F}'
    || c == '\U{205F}'
    || c == '\U{3000}'
  }

  /** Drops the leading whitespace. */
  function TrimStart(s: string): string {
    if s != [] && IsSpace(s[0]) then TrimStart(s[1..]) else s
  }

  /** Drops the trailing whitespace. */
  function TrimEnd(s: string): string {
    if s != [] && IsSpace(s[|s| - 1]) then TrimEnd(s[..|s| - 1]) else s
  }

  /** Python's `s.strip()`. */
  function Strip(s: string): string {
    TrimEnd(TrimStart(s))
  }

  /** `TrimStart` leaves a suffix of `s`, cuts only whitespace, and stops at a non-space. */
  lemma {:induction false} TrimStartSpec(s: string)
    ensures var r := TrimStart(s);
      && |r| <= |s| && r == s[|s| - |r|..]
      && (forall i :: 0 <= i < |s| - |r| ==> IsSpace(s[i]))
      && (r != [] ==> !IsSpace(r[0]))
  {
    if s != [] && IsSpace(s[0]) {
      var t := s[1..];
      TrimStartSpec(t);
      var r := TrimStart(t);
      assert t[|t| - |r|..] == s[|s| - |r|..];
      forall i | 0 <= i < |s| - |r| ensures IsSpace(s[i]) {
        if i > 0 {
          assert s[i] == t[i - 1];
        }
      }
    }
  }

  /** `TrimEnd` leaves a prefix of `s`, cuts only whitespace, and stops at a non-space. */
  lemma {:induction false} TrimEndSpec(s: string)
    ensures var r := TrimEnd(s);
      && |r| <= |s| && r == s[..|r|]
      && (forall i :: |r| <= i < |s| ==> IsSpace(s[i]))
      && (r != [] ==> !IsSpace(r[|r| - 1]))
  {
    if s != [] && IsSpace(s[|s| - 1]) {
      var t := s[..|s| - 1];
      TrimEndSpec(t);
      var r := TrimEnd(t);
      assert t[..|r|] == s[..|r|];
      forall i | |r| <= i < |s| ensures IsSpace(s[i]) {
        if i < |t| {
          assert s[i] == t[i];
        }
      }
    }
  }

  /** `Strip(s)` is the slice of `s` left once the whitespace at both ends is cut:
      everything cut is whitespace, and neither end of what is left is. */
  lemma StripIsSlice(s: string)
    ensures var r, lo := Strip(s), |s| - |TrimStart(s)|;
      && 0 <= lo <= |s| - |r|
      && r == s[lo..lo + |r|]
      && (forall i :: 0 <= i < lo ==> IsSpace(s[i]))
      && (forall i :: lo + |r| <= i < |s| ==> IsSpace(s[i]))
      && (r != [] ==> !IsSpace(r[0]) && !IsSpace(r[|r| - 1]))
  {
    var t := TrimStart(s);
    var r := TrimEnd(t);
    var lo := |s| - |t|;
    assert t == s[lo..] && forall i :: 0 <= i < lo ==> IsSpace(s[i]) by {
      TrimStartSpec(s);
    }
    assert r == t[..|r|] && forall i :: |r| <= i < |t| ==> IsSpace(t[i]) by {
      TrimEndSpec(t);
    }
    assert r != [] ==> !IsSpace(r[0]) && !IsSpace(r[|r| - 1]) by {
      TrimStartSpec(s);
      TrimEndSpec(t);
    }
    forall i | lo + |r| <= i < |s| ensures IsSpace(s[i]) {
      assert s[i] == t[i - lo];
    }
  }

  /** A string with no whitespace at either end is its own strip. */
  lemma {:induction false} StripOfTrimmed(s: string)
    requires s != [] ==> !IsSpace(s[0]) && !IsSpace(s[|s| - 1])
    ensures Strip(s) == s
  {
    assert TrimStart(s) == s;
  }

  /** Stripping twice changes nothing more than stripping once. */
  lemma StripIdempotent(s: string)
    ensures Strip(Strip(s)) == Strip(s)
  {
    StripIsSlice(s);
    StripOfTrimmed(Strip(s));
  }

  predicate IsAsciiLetter(c: char) {
    'a' <= c <= 'z' || 'A' <= c <= 'Z'
  }

  function ToUpper(c: char): (u: char)
    ensures IsAsciiLetter(u) <==> IsAsciiLetter(c)
    ensures !IsAsciiLetter(c) ==> u == c
  {
    if 'a' <= c <= 'z' then c - 'a' + 'A' else c
  }

  function ToLower(c: char): (l: char)
    ensures IsAsciiLetter(l) <==> IsAsciiLetter(c)
    ensures !IsAsciiLetter(c) ==> l == c
  {
    if 'A' <= c <= 'Z' then c - 'A' + 'a' else c
  }

  /** One step of `str.title()`: `prevCased` says whether the character before `c` was a letter. */
  function TitleChar(c: char, prevCased: bool): char {
    if prevCased then ToLower(c) else ToUpper(c)
  }

  function TitleFrom(s: string, prevCased: bool): string {
    if s == [] then []
    else [TitleChar(s[0], prevCased)] + TitleFrom(s[1..], IsAsciiLetter(s[0]))
  }

  /** Python's `s.title()` restricted to ASCII letters. */
  function Title(s: string): string {
    TitleFrom(s, false)
  }

  /** What `str.title()` puts at position `i`, given the letter flag before `s`. */
  function TitledAt(s: string, i: nat, prevCased: bool): char
    requires i < |s|
  {
    TitleChar(s[i], if i == 0 then prevCased else IsAsciiLetter(s[i - 1]))
  }

  lemma {:induction false} TitleFromAt(s: string, prevCased: bool, i: nat)
    requires i < |s|
    ensures |TitleFrom(s, prevCased)| == |s|
    ensures TitleFrom(s, prevCased)[i] == TitledAt(s, i, prevCased)
    decreases |s|
  {
    if i == 0 {
      TitleFromLength(s[1..], IsAsciiLetter(s[0]));
    } else {
      TitleFromAt(s[1..], IsAsciiLetter(s[0]), i - 1);
    }
  }

  lemma {:induction false} TitleFromLength(s: string, prevCased: bool)
    ensures |TitleFrom(s, prevCased)| == |s|
    decreases |s|
  {
    if s != [] {
      TitleFromLength(s[1..], IsAsciiLetter(s[0]));
    }
  }

  /** The character `str.title()` puts at position `i` of `s`: a letter is upper-cased when it
      starts the string or follows a non-letter and lower-cased otherwise; any other character
      is left as it is. */
  function TitleCaseAt(s: string, i: nat): char
    requires i < |s|
  {
    if !IsAsciiLetter(s[i]) then s[i]
    else if i == 0 || !IsAsciiLetter(s[i - 1]) then ToUpper(s[i])
    else ToLower(s[i])
  }

  /** `Title` keeps the length and puts `TitleCaseAt(s, i)` at every position `i`. */
  lemma TitleSpec(s: string)
    ensures |Title(s)| == |s|
    ensures forall i :: 0 <= i < |s| ==> Title(s)[i] == TitleCaseAt(s, i)
  {
    TitleFromLength(s, false);
    forall i | 0 <= i < |s| ensures Title(s)[i] == TitleCaseAt(s, i) {
      TitleFromAt(s, false, i);
    }
  }

  /** Title-casing a title-cased string changes nothing. */
  lemma TitleIdempotent(s: string)
    ensures Title(Title(s)) == Title(s)
  {
    var t := Title(s);
    TitleSpec(s);
    TitleSpec(t);
    forall i | 0 <= i < |t| ensures Title(t)[i] == t[i] {
      assert t[i] == TitleCaseAt(s, i);
      assert i > 0 ==> t[i - 1] == TitleCaseAt(s, i - 1);
    }
  }

  /** Python's `s.replace(from, to)` for one-character `from` and `to`. */
  function ReplaceChar(s: string, from: char, to: char): (r: string)
    ensures |r| == |s|
    ensures forall i :: 0 <= i < |s| ==> r[i] == if s[i] == from then to else s[i]
  {
    if s == [] then [] else [if s[0] == from then to else s[0]] + ReplaceChar(s[1..], from, to)
  }

  predicate IsDigit(c: char) {
    '0' <= c <= '9'
  }

  /** A non-empty run of decimal digits. */
  predicate IsDigits(s: string) {
    s != [] && forall i :: 0 <= i < |s| ==> IsDigit(s[i])
  }

  /** What `str()` of an `int` looks like: digits, with an optional minus sign in front. */
  predicate IsIntLiteral(s: string) {
    if s != [] && s[0] == '-' then IsDigits(s[1..]) else IsDigits(s)
  }

  function DigitChar(d: nat): (c: char)
    requires d < 10
    ensures IsDigit(c)
  {
    '0' + d as char
  }

  /** Decimal digits of `n`, most significant first. */
  function NatToString(n: nat): string {
    if n < 10 then [DigitChar(n)] else NatToString(n / 10) + [DigitChar(n % 10)]
  }

  /** Python's `str(i)` for an `int`. */
  function IntToString(i: int): string {
    if i < 0 then "-" + NatToString(-i) else NatToString(i)
  }

  /** The decimal form of a natural number is a non-empty run of digits without leading zero. */
  lemma {:induction false} NatToStringDigits(n: nat)
    ensures var r := NatToString(n);
      IsDigits(r) && (|r| > 1 ==> r[0] != '0')
  {
    if n >= 10 {
      NatToStringDigits(n / 10);
    }
  }

  /** The decimal form of an integer is digits, with a minus sign in front when negative. */
  lemma IntToStringDigits(i: int)
    ensures var r := IntToString(i);
      IsIntLiteral(r) && (r[0] == '-' <==> i < 0)
  {
    if i < 0 {
      NatToStringDigits(-i);
      assert IntToString(i)[1..] == NatToString(-i);
    } else {
      NatToStringDigits(i);
    }
  }

  /** The value of a string of decimal digits: the inverse of `NatToString`. */
  function DigitsValue(s: string): nat
    requires forall i :: 0 <= i < |s| ==> IsDigit(s[i])
    decreases |s|
  {
    if s == [] then 0
    else
      assert IsDigit(s[|s| - 1]);
      10 * DigitsValue(s[..|s| - 1]) + (s[|s| - 1] as int - '0' as int)
  }

  /** Python's `int(s)` on what `str(i)` produces. */
  function ParseInt(s: string): int
    requires IsIntLiteral(s)
  {
    if s[0] == '-' then -(DigitsValue(s[1..]) as int) else DigitsValue(s)
  }

  lemma {:induction false} NatToStringRoundTrip(n: nat)
    ensures IsDigits(NatToString(n)) && DigitsValue(NatToString(n)) == n
  {
    NatToStringDigits(n);
    if n >= 10 {
      var r := NatToString(n);
      assert r[..|r| - 1] == NatToString(n / 10);
      NatToStringRoundTrip(n / 10);
    }
  }

  /** Reading back the decimal form of an integer gives the integer. */
  lemma IntToStringRoundTrip(i: int)
    ensures IsIntLiteral(IntToString(i)) && ParseInt(IntToString(i)) == i
  {
    IntToStringDigits(i);
    if i < 0 {
      NatToStringRoundTrip(-i);
      assert IntToString(i)[1..] == NatToString(-i);
    } else {
      NatToStringRoundTrip(i);
    }
  }
}
