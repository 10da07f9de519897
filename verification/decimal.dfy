/** Decimal rendering of a natural number, as Rust's `Display` for unsigned
    integers writes it: the shortest string of ASCII digits, "0" for zero. */
module Decimal {

  predicate IsDigit(ch: char) {
    '0' <= ch <= '9'
  }

  predicate AllDigits(s: string) {
    forall i | 0 <= i < |s| :: IsDigit(s[i])
  }

  function DigitChar(d: nat): (ch: char)
    requires d < 10
    ensures IsDigit(ch)
    ensures ch as int - '0' as int == d
  {
    ('0' as int + d) as char
  }

  function DigitValue(ch: char): nat
    requires IsDigit(ch)
  {
    ch as int - '0' as int
  }

  /** The digits of `n`, most significant first. */
  function Dec(n: nat): (s: string)
    ensures |s| > 0
    ensures AllDigits(s)
    ensures s[0] == '0' ==> n == 0
    ensures n < 10 <==> |s| == 1
    decreases n
  {
    if n < 10 then [DigitChar(n)] else Dec(n / 10) + [DigitChar(n % 10)]
  }

  /** The value of a string of digits, read most significant first; the
      independent reading `Dec` is checked against. */
  function ParseDec(s: string): nat
    requires AllDigits(s)
    decreases |s|
  {
    if |s| == 0 then 0 else ParseDec(s[..|s| - 1]) * 10 + DigitValue(s[|s| - 1])
  }

  /** Reading back the rendering of `n` gives `n`. */
  lemma {:induction false} ParseDecDec(n: nat)
    ensures ParseDec(Dec(n)) == n
    decreases n
  {
    if n >= 10 {
      var s := Dec(n);
      assert s[..|s| - 1] == Dec(n / 10);
      ParseDecDec(n / 10);
    }
  }

  /** Different numbers render differently. */
  lemma DecInjective(a: nat, b: nat)
    ensures Dec(a) == Dec(b) <==> a == b
  {
    if Dec(a) == Dec(b) {
      ParseDecDec(a);
      ParseDecDec(b);
    }
  }

  /** The length of the run of digits `t` starts with. */
  function DigitRun(t: string): (n: nat)
    ensures n <= |t|
  {
    if |t| == 0 || !IsDigit(t[0]) then 0 else 1 + DigitRun(t[1..])
  }

  lemma {:induction false} DigitRunBeforeSeparator(s: string, sep: char, x: string)
    requires AllDigits(s)
    requires !IsDigit(sep)
    ensures DigitRun(s + [sep] + x) == |s|
    decreases |s|
  {
    if |s| > 0 {
      assert (s + [sep] + x)[1..] == s[1..] + [sep] + x;
      DigitRunBeforeSeparator(s[1..], sep, x);
    }
  }

  /** A rendering followed by a non-digit separator can be told apart from
      the rest of the text: the number before the separator is determined. */
  lemma DecBeforeSeparator(a: nat, b: nat, sep: char, x: string, y: string)
    requires !IsDigit(sep)
    requires Dec(a) + [sep] + x == Dec(b) + [sep] + y
    ensures a == b && x == y
  {
    var da, db := Dec(a), Dec(b);
    var l := da + [sep] + x;
    DigitRunBeforeSeparator(da, sep, x);
    DigitRunBeforeSeparator(db, sep, y);
    assert da == l[..|da|] == db;
    assert x == l[|da| + 1..] == y;
    DecInjective(a, b);
  }
}
