/**
 * Decimal text of integers: Python's `str(n)` (used by f-strings) and
 * Python's `int(s)` on a string.
 */
module Decimal {
  import opened Wrappers

  predicate IsDigit(c: char)
  {
    '0' <= c <= '9'
  }

  predicate AllDigits(s: string)
  {
    forall i :: 0 <= i < |s| ==> IsDigit(s[i])
  }

  /**
   * The ASCII characters Python's `int` strips around its argument: space,
   * tab, line feed, carriage return, vertical tab and form feed. The file,
   * group, record and unit separators count as white space for `str.isspace`
   * but are not stripped by `int`.
   */
  predicate IsSpace(c: char)
  {
    c == ' ' || c == '\t' || c == '\n' || c == '\r' || c == '\U{0B}' || c == '\U{0C}'
  }

  function DigitChar(d: nat): (c: char)
    requires d < 10
    ensures IsDigit(c)
  {
    ('0' as int + d) as char
  }

  function DigitValue(c: char): (d: nat)
    requires IsDigit(c)
    ensures d < 10 && DigitChar(d) == c
  {
    c as int - '0' as int
  }

  /** The number a string of decimal digits denotes (most significant first). */
  function DigitsValue(s: string): nat
    requires AllDigits(s)
  {
    if |s| == 0 then 0 else DigitsValue(s[..|s| - 1]) * 10 + DigitValue(s[|s| - 1])
  }

  /** `str(n)` for a natural number: its shortest decimal digit string. */
  function NatToString(n: nat): string
  {
    if n < 10 then [DigitChar(n)] else NatToString(n / 10) + [DigitChar(n % 10)]
  }

  /** `str(n)` for any integer: a minus sign before the digits of a negative number. */
  function IntToString(n: int): string
  {
    if n < 0 then "-" + NatToString(-n) else NatToString(n)
  }

  /** The digits of a natural number: at least one, and no leading zero. */
  lemma {:induction false} NatToStringDigits(n: nat)
    ensures |NatToString(n)| >= 1 && AllDigits(NatToString(n))
    ensures |NatToString(n)| > 1 ==> NatToString(n)[0] != '0'
  {
    if n >= 10 {
      NatToStringDigits(n / 10);
    }
  }

  /** `str(n)`: digits, preceded by a minus sign exactly when `n` is negative. */
  lemma IntToStringShape(n: int)
    ensures |IntToString(n)| >= 1
    ensures forall i :: 0 <= i < |IntToString(n)| ==> IsDigit(IntToString(n)[i]) || (i == 0 && IntToString(n)[i] == '-')
    ensures IntToString(n)[0] == '-' <==> n < 0
  {
    NatToStringDigits(if n < 0 then -n else n);
  }

  function TrimLeft(s: string): (t: string)
  {
    if |s| > 0 && IsSpace(s[0]) then TrimLeft(s[1..]) else s
  }

  function TrimRight(s: string): (t: string)
  {
    if |s| > 0 && IsSpace(s[|s| - 1]) then TrimRight(s[..|s| - 1]) else s
  }

  /**
   * `int(s)`: surrounding white space is ignored, then an optional sign and
   * one or more decimal digits; anything else raises `ValueError`, modelled
   * as `None`.
   */
  function ParseInt(s: string): (r: Option<int>)
    ensures |s| >= 1 && AllDigits(s) ==> r == Some(DigitsValue(s))
    ensures (forall i :: 0 <= i < |s| ==> !IsDigit(s[i])) ==> r == None
  {
    var t := TrimRight(TrimLeft(s));
    assert forall i :: 0 <= i < |t| ==> t[i] in s by {
      TrimmedIsInfix(s);
    }
    if |t| > 0 && (t[0] == '-' || t[0] == '+') then
      var digits := t[1..];
      if |digits| > 0 && AllDigits(digits) then
        var v: int := DigitsValue(digits);
        Some(if t[0] == '-' then -v else v)
      else None
    else if |t| > 0 && AllDigits(t) then Some(DigitsValue(t))
    else None
  }

  lemma {:induction false} TrimmedIsInfix(s: string)
    ensures forall i :: 0 <= i < |TrimRight(TrimLeft(s))| ==> TrimRight(TrimLeft(s))[i] in s
    ensures (|s| == 0 || !IsSpace(s[0])) && (|s| == 0 || !IsSpace(s[|s| - 1])) ==> TrimRight(TrimLeft(s)) == s
  {
    TrimLeftSuffix(s);
    TrimRightPrefix(TrimLeft(s));
  }

  lemma {:induction false} TrimLeftSuffix(s: string)
    ensures exists k :: 0 <= k <= |s| && TrimLeft(s) == s[k..]
  {
    if |s| > 0 && IsSpace(s[0]) {
      TrimLeftSuffix(s[1..]);
      var k :| 0 <= k <= |s[1..]| && TrimLeft(s[1..]) == s[1..][k..];
      assert TrimLeft(s) == s[k + 1..];
    } else {
      assert TrimLeft(s) == s[0..];
    }
  }

  lemma {:induction false} TrimRightPrefix(s: string)
    ensures exists k :: 0 <= k <= |s| && TrimRight(s) == s[..k]
  {
    if |s| > 0 && IsSpace(s[|s| - 1]) {
      TrimRightPrefix(s[..|s| - 1]);
      var k :| 0 <= k <= |s| - 1 && TrimRight(s[..|s| - 1]) == s[..|s| - 1][..k];
      assert TrimRight(s) == s[..k];
    } else {
      assert TrimRight(s) == s[..|s|];
    }
  }

  /** Reading back the digits `str` writes for a natural number gives that number. */
  lemma {:induction false} NatToStringValue(n: nat)
    ensures AllDigits(NatToString(n)) && DigitsValue(NatToString(n)) == n
  {
    NatToStringDigits(n);
    if n >= 10 {
      NatToStringValue(n / 10);
      var s := NatToString(n);
      assert s[..|s| - 1] == NatToString(n / 10);
    }
  }

  /** Text without surrounding white space is read as it stands. */
  lemma ParseIntUntrimmed(s: string)
    requires |s| >= 1 && !IsSpace(s[0]) && !IsSpace(s[|s| - 1])
    ensures s[0] == '-' && |s| > 1 && AllDigits(s[1..]) ==> ParseInt(s) == Some(-(DigitsValue(s[1..]) as int))
    ensures AllDigits(s) ==> ParseInt(s) == Some(DigitsValue(s) as int)
  {
    TrimmedIsInfix(s);
  }

  /** `int(str(n)) == n` for every integer `n`. */
  lemma {:induction false} ParseIntToString(n: int)
    ensures ParseInt(IntToString(n)) == Some(n)
  {
    var s := IntToString(n);
    IntToStringShape(n);
    assert !IsSpace(s[0]) && !IsSpace(s[|s| - 1]);
    ParseIntUntrimmed(s);
    if n < 0 {
      assert s[1..] == NatToString(-n);
      NatToStringValue(-n);
    } else {
      assert s == NatToString(n);
      NatToStringValue(n);
    }
  }

  /** A leading separator control character is not white space to `int`, so the text is rejected. */
  lemma SeparatorControlNotStripped()
    ensures ParseInt(['\U{1C}', '1']) == None
  {
    assert TrimRight(TrimLeft(['\U{1C}', '1'])) == ['\U{1C}', '1'] by {
      TrimmedIsInfix(['\U{1C}', '1']);
    }
  }
}
