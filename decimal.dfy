/**
 * Decimal digit strings and the two conversions the rotation rewrite uses:
 * `strconv.Atoi` on a run of ASCII digits and `strconv.Itoa` on the
 * successor, with Go's 64-bit `int` made explicit.
 */
module Decimal {

  /** The largest value of Go's 64-bit `int`. */
  const MaxInt64: nat := 0x7fff_ffff_ffff_ffff

  /** What `strconv.Itoa` prints for the smallest 64-bit `int`. */
  const MinInt64Text: string := "-9223372036854775808"

  /** `\d` in Go's regular expressions: an ASCII decimal digit. */
  predicate IsDigit(c: char) {
    '0' <= c <= '9'
  }

  predicate AllDigits(s: string) {
    forall i :: 0 <= i < |s| ==> IsDigit(s[i])
  }

  function DigitValue(c: char): nat
    requires IsDigit(c)
  {
    (c as int - '0' as int) as nat
  }

  function DigitChar(d: nat): (c: char)
    requires d < 10
    ensures IsDigit(c) && DigitValue(c) == d
  {
    ('0' as int + d) as char
  }

  /** The number a digit string denotes; leading zeros are allowed and ignored. */
  function Value(s: string): nat
    requires AllDigits(s)
    decreases |s|
  {
    if s == [] then 0 else Value(s[..|s| - 1]) * 10 + DigitValue(s[|s| - 1])
  }

  /** `strconv.Itoa` on a non-negative number: its canonical decimal text. */
  function Itoa(n: nat): (r: string)
    ensures |r| >= 1 && AllDigits(r) && Value(r) == n
    ensures r[0] == '0' ==> r == "0"
    decreases n
  {
    if n < 10 then [DigitChar(n)]
    else
      var prefix := Itoa(n / 10);
      var r := prefix + [DigitChar(n % 10)];
      assert r[..|r| - 1] == prefix;
      r
  }

  /**
   * `strconv.Atoi` on a non-empty run of ASCII digits, with its error
   * discarded: a value past the 64-bit range makes `ParseInt` report
   * `ErrRange` and return the largest `int`.
   */
  function Atoi(s: string): (n: nat)
    requires AllDigits(s)
    ensures n <= MaxInt64
    ensures n == Value(s) <==> Value(s) <= MaxInt64
    ensures Value(s) > MaxInt64 ==> n == MaxInt64
  {
    if Value(s) <= MaxInt64 then Value(s) else MaxInt64
  }

  /**
   * The replacement for one run of digits: `strconv.Itoa(n + 1)` with
   * `n, _ := strconv.Atoi(run)`. The addition wraps around at the 64-bit
   * boundary, so the largest `int` becomes the smallest one.
   */
  function Bump(run: string): (r: string)
    requires AllDigits(run)
    ensures Value(run) < MaxInt64 ==> |r| >= 1 && AllDigits(r) && r[0] != '0' && Value(r) == Value(run) + 1
    ensures Value(run) >= MaxInt64 ==> r == MinInt64Text
  {
    var n := Atoi(run);
    if n == MaxInt64 then MinInt64Text else Itoa(n + 1)
  }

  /** Reading back the text `Itoa` prints gives the number again, and the text has no leading zero. */
  lemma {:induction false} ItoaCanonical(s: string)
    requires |s| >= 1 && AllDigits(s) && (s[0] == '0' ==> s == "0")
    ensures Itoa(Value(s)) == s
    decreases |s|
  {
    var init := s[..|s| - 1];
    if |s| == 1 {
    } else {
      assert s[0] == init[0];
      ValueLowerBound(init);
      ItoaCanonical(init);
      assert Value(s) / 10 == Value(init);
      assert Value(s) % 10 == DigitValue(s[|s| - 1]);
      assert s == init + [s[|s| - 1]];
    }
  }

  /** `Atoi` reads back what `Itoa` prints, for every non-negative 64-bit `int`. */
  lemma AtoiOfItoa(n: nat)
    requires n <= MaxInt64
    ensures Atoi(Itoa(n)) == n
  {
  }

  /** `Itoa` prints back the canonical digit text `Atoi` read, as long as it is within range. */
  lemma ItoaOfAtoi(s: string)
    requires |s| >= 1 && AllDigits(s) && (s[0] == '0' ==> s == "0") && Value(s) <= MaxInt64
    ensures Itoa(Atoi(s)) == s
  {
    ItoaCanonical(s);
  }

  /** A digit string of length at least two with a non-zero first digit denotes at least 10. */
  lemma {:induction false} ValueLowerBound(s: string)
    requires |s| >= 1 && AllDigits(s) && s[0] != '0'
    ensures Value(s) >= 1
    ensures |s| >= 2 ==> Value(s) >= 10
    decreases |s|
  {
    if |s| >= 2 {
      var init := s[..|s| - 1];
      assert init[0] == s[0];
      ValueLowerBound(init);
    }
  }
}
