/**
 * The Python string built-ins of the corpus wrapper: the reader's
 * `str.strip()`, `str.split('\t')`, `str.isdigit()` and `int()`, and the
 * `' '.join` that `training_examples` applies to a sentence's words.
 *
 * `strip`, `split` and `join` carry no postconditions (the reader unfolds
 * them on every line); what they compute is stated by the lemmas beside
 * them.
 */
module Strings {
  import opened Wrappers

  /** Python's `str.isspace()` for one character, by code point. */
  predicate IsSpace(c: char) {
    var n := c as int;
    (9 <= n <= 13) || (28 <= n <= 32) || n == 0x85 || n == 0xA0 || n == 0x1680
    || (0x2000 <= n <= 0x200A) || n == 0x2028 || n == 0x2029 || n == 0x202F
    || n == 0x205F || n == 0x3000
  }

  /** `s.lstrip()`. */
  function StripLeft(s: string): string
    decreases |s|
  {
    if |s| > 0 && IsSpace(s[0]) then StripLeft(s[1..]) else s
  }

  /** `s.rstrip()`. */
  function StripRight(s: string): string
    decreases |s|
  {
    if |s| > 0 && IsSpace(s[|s| - 1]) then StripRight(s[..|s| - 1]) else s
  }

  /** `s.strip()`. */
  function Strip(s: string): string {
    StripRight(StripLeft(s))
  }

  /** `lstrip` drops exactly the leading whitespace: what remains is a
      suffix that does not start with whitespace. */
  lemma {:induction false} StripLeftSpec(s: string)
    ensures |StripLeft(s)| <= |s| && StripLeft(s) == s[|s| - |StripLeft(s)|..]
    ensures forall i :: 0 <= i < |s| - |StripLeft(s)| ==> IsSpace(s[i])
    ensures StripLeft(s) == [] || !IsSpace(StripLeft(s)[0])
    decreases |s|
  {
    if |s| > 0 && IsSpace(s[0]) {
      StripLeftSpec(s[1..]);
    }
  }

  /** `rstrip` drops exactly the trailing whitespace: what remains is a
      prefix that does not end with whitespace. */
  lemma {:induction false} StripRightSpec(s: string)
    ensures |StripRight(s)| <= |s| && StripRight(s) == s[..|StripRight(s)|]
    ensures forall i :: |StripRight(s)| <= i < |s| ==> IsSpace(s[i])
    ensures StripRight(s) == [] || !IsSpace(StripRight(s)[|StripRight(s)| - 1])
    decreases |s|
  {
    if |s| > 0 && IsSpace(s[|s| - 1]) {
      StripRightSpec(s[..|s| - 1]);
    }
  }

  /** `strip` keeps an infix of `s` that neither starts nor ends with
      whitespace, and everything cut off around it is whitespace. */
  lemma StripSpec(s: string)
    ensures var r, a := Strip(s), |s| - |StripLeft(s)|;
      && |StripLeft(s)| <= |s| && a + |r| <= |s| && r == s[a..a + |r|]
      && (forall i :: 0 <= i < a ==> IsSpace(s[i]))
      && (forall i :: a + |r| <= i < |s| ==> IsSpace(s[i]))
      && (r == [] || (!IsSpace(r[0]) && !IsSpace(r[|r| - 1])))
  {
    var l := StripLeft(s);
    StripLeftSpec(s);
    var r := StripRight(l);
    StripRightSpec(l);
    var a := |s| - |l|;
    PrefixOfSuffix(s, a, r);
    if r != [] {
      assert r[0] == l[0];
    }
  }

  /** A prefix `r` of `s[a..]` followed there only by whitespace is the infix
      `s[a..a + |r|]`, and `s` holds only whitespace after it. */
  lemma PrefixOfSuffix(s: string, a: nat, r: string)
    requires a <= |s| && |r| <= |s| - a && r == s[a..][..|r|]
    requires forall i :: |r| <= i < |s| - a ==> IsSpace(s[a..][i])
    ensures r == s[a..a + |r|]
    ensures forall i :: a + |r| <= i < |s| ==> IsSpace(s[i])
  {
    forall i | a + |r| <= i < |s|
      ensures IsSpace(s[i])
    {
      assert s[i] == s[a..][i - a];
    }
  }

  /** `sep.join(parts)`. */
  function Join(parts: seq<string>, sep: string): string
    decreases |parts|
  {
    if |parts| == 0 then ""
    else if |parts| == 1 then parts[0]
    else Join(parts[..|parts| - 1], sep) + sep + parts[|parts| - 1]
  }

  /** Appending a character to the last part appends it to the joined string. */
  lemma {:induction false} JoinExtendLast(parts: seq<string>, sep: string, c: char)
    requires |parts| > 0
    ensures Join(parts[..|parts| - 1] + [parts[|parts| - 1] + [c]], sep) == Join(parts, sep) + [c]
  {
    var n := |parts|;
    var q := parts[..n - 1] + [parts[n - 1] + [c]];
    assert q[..n - 1] == parts[..n - 1];
  }

  /** `s.split(sep)` for a one-character separator. */
  function Split(s: string, sep: char): string_parts
    decreases |s|
  {
    if |s| == 0 then [""]
    else
      var p := Split(s[..|s| - 1], sep);
      var c := s[|s| - 1];
      if c == sep then p + [""]
      else p[..|p| - 1] + [p[|p| - 1] + [c]]
  }

  type string_parts = parts: seq<string> | |parts| >= 1 witness [""]

  /** No part of a split contains the separator, and joining the parts with
      it gives the string back: `sep.join(s.split(sep)) == s`. */
  lemma {:induction false} SplitJoin(s: string, sep: char)
    ensures forall i :: 0 <= i < |Split(s, sep)| ==> sep !in Split(s, sep)[i]
    ensures Join(Split(s, sep), [sep]) == s
    decreases |s|
  {
    if |s| > 0 {
      var p := Split(s[..|s| - 1], sep);
      SplitJoin(s[..|s| - 1], sep);
      var c := s[|s| - 1];
      assert s == s[..|s| - 1] + [c];
      if c == sep {
        var q := p + [""];
        assert q[..|q| - 1] == p;
      } else {
        JoinExtendLast(p, [sep], c);
        var q := Split(s, sep);
        assert forall i :: 0 <= i < |q| - 1 ==> q[i] == p[i];
      }
    }
  }

  predicate IsDigitChar(c: char) {
    '0' <= c <= '9'
  }

  /** `s.isdigit()`, restricted to the ASCII digits. */
  predicate IsDigits(s: string) {
    |s| > 0 && forall i :: 0 <= i < |s| ==> IsDigitChar(s[i])
  }

  /** The value of a string of decimal digits. */
  function DigitsValue(s: string): nat
    requires forall i :: 0 <= i < |s| ==> IsDigitChar(s[i])
    decreases |s|
  {
    if |s| == 0 then 0
    else
      assert IsDigitChar(s[|s| - 1]);
      DigitsValue(s[..|s| - 1]) * 10 + (s[|s| - 1] as int - '0' as int)
  }

  /** `int(s)`: an optional sign followed by decimal digits; anything else is
      the `ValueError` Python raises (`None` here). */
  function ParseInt(s: string): (r: Option<int>)
    ensures IsDigits(s) ==> r == Some(DigitsValue(s))
    ensures r.Some? ==> IsDigits(s) || (|s| > 1 && (s[0] == '+' || s[0] == '-') && IsDigits(s[1..]))
  {
    if IsDigits(s) then Some(DigitsValue(s))
    else if |s| > 1 && s[0] == '+' && IsDigits(s[1..]) then Some(DigitsValue(s[1..]))
    else if |s| > 1 && s[0] == '-' && IsDigits(s[1..]) then Some(0 - DigitsValue(s[1..]) as int)
    else None
  }

  /** `int("+d")` is the value of `d` and `int("-d")` its negation, so
      `"-0"` and `"+0"` read as 0. */
  lemma ParseIntSigned(d: string)
    requires IsDigits(d)
    ensures ParseInt(['+'] + d) == Some(DigitsValue(d))
    ensures ParseInt(['-'] + d) == Some(0 - DigitsValue(d))
  {
    var plus, minus := ['+'] + d, ['-'] + d;
    assert plus[1..] == d && minus[1..] == d;
    assert plus[0] == '+' && !IsDigits(plus);
    assert minus[0] == '-' && !IsDigits(minus);
  }

  /** The decimal rendering of a natural number (Python's `str(n)`). */
  function Decimal(n: nat): string
    decreases n
  {
    if n < 10 then [('0' as int + n) as char]
    else Decimal(n / 10) + [('0' as int + n % 10) as char]
  }

  /** `int(str(n)) == n`: reading back a rendered number gives the number. */
  lemma {:induction false} ParseIntDecimal(n: nat)
    ensures IsDigits(Decimal(n))
    ensures ParseInt(Decimal(n)) == Some(n)
    decreases n
  {
    var d := Decimal(n);
    if n >= 10 {
      ParseIntDecimal(n / 10);
      assert d[..|d| - 1] == Decimal(n / 10);
      assert DigitsValue(d) == DigitsValue(Decimal(n / 10)) * 10 + n % 10;
    } else {
      assert d[..0] == [];
      assert DigitsValue(d) == DigitsValue(d[..0]) * 10 + n;
    }
  }
}
