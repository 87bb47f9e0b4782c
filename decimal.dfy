/**
 * Python's `int(s)` on a string of ASCII digits and `str(n)` on a non-negative integer,
 * with the two round trips between them.
 */
module Decimal {
  import opened Text

  predicate AllDigits(s: string) {
    forall j :: 0 <= j < |s| ==> IsDigit(s[j])
  }

  function DigitValue(c: char): (d: nat)
    requires IsDigit(c)
    ensures d < 10
  {
    c as int - '0' as int
  }

  function DigitChar(d: nat): (c: char)
    requires d < 10
    ensures IsDigit(c) && DigitValue(c) == d
  {
    ('0' as int + d) as char
  }

  lemma DigitCharOfValue(c: char)
    requires IsDigit(c)
    ensures DigitChar(DigitValue(c)) == c
  {
  }

  /** `int(s)` for a string of digits (leading zeros allowed, as in Python) */
  function Parse(s: string): nat
    requires AllDigits(s)
  {
    if s == [] then 0 else Parse(s[..|s| - 1]) * 10 + DigitValue(s[|s| - 1])
  }

  /** `str(n)` */
  function Show(n: nat): (r: string)
    ensures |r| >= 1 && AllDigits(r)
    ensures n > 0 ==> r[0] != '0'
  {
    if n < 10 then [DigitChar(n)] else Show(n / 10) + [DigitChar(n % 10)]
  }

  /** `int(str(n)) == n` */
  lemma {:induction false} ParseShow(n: nat)
    ensures Parse(Show(n)) == n
  {
    if n >= 10 {
      var s := Show(n);
      assert s[..|s| - 1] == Show(n / 10);
      ParseShow(n / 10);
    }
  }

  lemma {:induction false} ParsePositive(s: string)
    requires AllDigits(s) && |s| >= 1 && s[0] != '0'
    ensures Parse(s) >= 1
    decreases |s|
  {
    if |s| > 1 {
      ParsePositive(s[..|s| - 1]);
    }
  }

  /** `str(int(s)) == s` when `s` has no leading zero */
  lemma {:induction false} ShowParse(s: string)
    requires AllDigits(s) && |s| >= 1 && s[0] != '0'
    ensures Show(Parse(s)) == s
    decreases |s|
  {
    var c := s[|s| - 1];
    DigitCharOfValue(c);
    if |s| > 1 {
      var init := s[..|s| - 1];
      ParsePositive(init);
      ShowParse(init);
      assert Parse(s) / 10 == Parse(init);
      assert Parse(s) % 10 == DigitValue(c);
      assert s == init + [c];
    }
  }

  /** Distinct digit strings without leading zeros have distinct values */
  lemma ParseInjective(s: string, t: string)
    requires AllDigits(s) && |s| >= 1 && s[0] != '0'
    requires AllDigits(t) && |t| >= 1 && t[0] != '0'
    requires Parse(s) == Parse(t)
    ensures s == t
  {
    ShowParse(s);
    ShowParse(t);
  }

  /** `str(t)` for an instant held as a signed integer */
  function ShowInt(t: int): (r: string)
    ensures |r| >= 1
  {
    if t < 0 then "-" + Show(-t) else Show(t)
  }
}
