/** String helpers the source gets from Python's `str`: decimal formatting
    (`f"{n}"`), decimal parsing, membership, `in` between strings and
    `str.lower()`. */
module Text {
  import opened Base

  predicate IsDigit(c: char)
  {
    '0' <= c <= '9'
  }

  predicate AllDigits(s: string)
  {
    forall i :: 0 <= i < |s| ==> IsDigit(s[i])
  }

  function DigitChar(d: nat): (c: char)
    requires d < 10
    ensures IsDigit(c) && DigitValue(c) == d
  {
    ('0' as int + d) as char
  }

  function DigitValue(c: char): nat
    requires IsDigit(c)
  {
    c as int - '0' as int
  }

  /** The decimal digits of a natural number, without leading zeros. */
  function NatDigits(n: nat): (s: string)
    decreases n
  {
    if n < 10 then [DigitChar(n)] else NatDigits(n / 10) + [DigitChar(n % 10)]
  }

  /** Python's `f"{n}"` for an integer: a minus sign, then the digits. */
  function Decimal(n: int): string
  {
    if n < 0 then "-" + NatDigits(-n) else NatDigits(n)
  }

  /** The value of a string of decimal digits (0 for the empty string). */
  function ParseNat(s: string): nat
    requires AllDigits(s)
  {
    if s == [] then 0 else ParseNat(s[..|s| - 1]) * 10 + DigitValue(s[|s| - 1])
  }

  /** `int(s)` restricted to an optional minus sign followed by digits. */
  function ParseInt(s: string): Option<int>
  {
    if |s| > 0 && s[0] == '-' then
      if |s| > 1 && AllDigits(s[1..]) then Some(0 - ParseNat(s[1..]) as int) else None
    else if |s| > 0 && AllDigits(s) then Some(ParseNat(s))
    else None
  }

  lemma {:induction false} NatDigitsRoundTrip(n: nat)
    ensures AllDigits(NatDigits(n)) && |NatDigits(n)| > 0
    ensures ParseNat(NatDigits(n)) == n
    decreases n
  {
    if n >= 10 {
      NatDigitsRoundTrip(n / 10);
      var s := NatDigits(n);
      assert s[..|s| - 1] == NatDigits(n / 10);
    }
  }

  /** Formatting an integer and reading it back gives the integer again. */
  lemma DecimalRoundTrip(n: int)
    ensures ParseInt(Decimal(n)) == Some(n)
  {
    if n < 0 {
      NatDigitsRoundTrip(-n);
      assert Decimal(n)[1..] == NatDigits(-n);
    } else {
      NatDigitsRoundTrip(n);
      assert NatDigits(n)[0] != '-';
    }
  }

  /** Python's `a in b` between two strings: `a` is a prefix of `b` or a
      substring of what follows its first character. */
  predicate IsSubstring(a: string, b: string)
    decreases |b|
  {
    (|a| <= |b| && b[..|a|] == a) || (b != [] && IsSubstring(a, b[1..]))
  }

  /** `a` occurs in `b` exactly when it occurs at some position. */
  lemma {:induction false} SubstringAt(a: string, b: string, i: nat)
    requires i + |a| <= |b| && b[i..i + |a|] == a
    ensures IsSubstring(a, b)
    decreases i
  {
    if i > 0 {
      assert b[1..][i - 1..i - 1 + |a|] == b[i..i + |a|];
      SubstringAt(a, b[1..], i - 1);
    }
  }

  /** Every character of a substring is a character of the string. */
  lemma {:induction false} SubstringChars(a: string, b: string)
    requires IsSubstring(a, b)
    ensures forall k :: 0 <= k < |a| ==> a[k] in b
    decreases |b|
  {
    if |a| <= |b| && b[..|a|] == a {
      assert forall k :: 0 <= k < |a| ==> a[k] == b[k];
    } else {
      SubstringChars(a, b[1..]);
      assert forall k :: 0 <= k < |b| - 1 ==> b[1..][k] == b[k + 1];
    }
  }

  function LowerChar(c: char): char
  {
    if 'A' <= c <= 'Z' then (c as int + 32) as char else c
  }

  /** `str.lower()` on the ASCII letters. */
  function Lower(s: string): (r: string)
    ensures |r| == |s|
    ensures forall i :: 0 <= i < |s| ==> r[i] == LowerChar(s[i])
  {
    seq(|s|, i requires 0 <= i < |s| => LowerChar(s[i]))
  }

  predicate IsLower(s: string)
  {
    forall i :: 0 <= i < |s| ==> !('A' <= s[i] <= 'Z')
  }

  /** Lower-casing leaves no upper-case letter, so it is idempotent. */
  lemma LowerIsLower(s: string)
    ensures IsLower(Lower(s))
    ensures Lower(Lower(s)) == Lower(s)
  {
  }
}
