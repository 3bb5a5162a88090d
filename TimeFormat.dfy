/** The `mm:ss` text of the countdown display: decimal digits as JavaScript's
    `String(n)` writes a non-negative integer, left padding as `padStart`
    does with a one-character fill, and the formatter `formatTime`. */
module TimeFormat {

  /** Ten to the power `k`. */
  function Pow10(k: nat): (p: nat)
    ensures p >= 1
  {
    if k == 0 then 1 else 10 * Pow10(k - 1)
  }

  predicate IsDigit(c: char) {
    '0' <= c <= '9'
  }

  /** Every character of `s` is a decimal digit. */
  predicate IsDigits(s: string) {
    s == [] || (IsDigits(s[..|s| - 1]) && IsDigit(s[|s| - 1]))
  }

  /** The number a string of decimal digits denotes, most significant digit
      first; leading zeros are allowed and the empty string denotes 0. */
  function Value(s: string): nat
    requires IsDigits(s)
  {
    if s == [] then 0 else Value(s[..|s| - 1]) * 10 + (s[|s| - 1] - '0') as nat
  }

  function DigitChar(d: nat): (c: char)
    requires d < 10
    ensures IsDigit(c) && (c - '0') as nat == d
  {
    '0' + d as char
  }

  /** The decimal text of `n`, as `String(n)` gives it for `n` below 10^21
      (JavaScript writes larger numbers in exponent notation): a non-empty
      string of digits denoting `n` (see `DigitsMinimal` for its length). */
  function Digits(n: nat): (r: string)
    ensures |r| >= 1 && IsDigits(r)
    ensures Value(r) == n
  {
    if n < 10 then [DigitChar(n)]
    else
      var prefix := Digits(n / 10);
      var r := prefix + [DigitChar(n % 10)];
      assert r[..|r| - 1] == prefix;
      r
  }

  /** `s.padStart(width, c)`: `s` preceded by as many copies of `c` as bring
      it up to `width` characters; a string already that long is unchanged. */
  function PadStart(s: string, width: nat, c: char): (r: string)
    ensures |r| == if |s| >= width then |s| else width
    decreases width - |s|
  {
    if |s| >= width then s else PadStart([c] + s, width, c)
  }

  /** `String(n).padStart(2, '0')`: digits denoting `n`, at least two of
      them, and exactly two when `n` is below 100. */
  function Padded(n: nat): (p: string)
    ensures |p| >= 2 && (n < 100 ==> |p| == 2)
    ensures IsDigits(p) && Value(p) == n
  {
    PadZeros(Digits(n), 2);
    DigitsBelow100(n);
    PadStart(Digits(n), 2, '0')
  }

  /** `formatTime(seconds)`: whole minutes and remaining seconds, each
      written in decimal and zero-padded to at least two digits, joined by
      a colon. */
  function FormatTime(seconds: nat): (r: string)
    ensures |r| >= 5 && r[|r| - 3] == ':'
    ensures seconds < 6000 ==> |r| == 5 && r[2] == ':'
  {
    Padded(seconds / 60) + ":" + Padded(seconds % 60)
  }

  /** A zero digit in front of a number does not change its value. */
  lemma {:induction false} LeadingZero(s: string)
    requires IsDigits(s)
    ensures IsDigits("0" + s) && Value("0" + s) == Value(s)
    decreases |s|
  {
    var zs := "0" + s;
    if s == [] {
      assert zs[..0] == [];
    } else {
      var init := s[..|s| - 1];
      assert zs[..|zs| - 1] == "0" + init;
      LeadingZero(init);
    }
  }

  /** Padding with zeros does not change the number a digit string denotes. */
  lemma {:induction false} PadZeros(s: string, width: nat)
    requires IsDigits(s)
    ensures IsDigits(PadStart(s, width, '0')) && Value(PadStart(s, width, '0')) == Value(s)
    decreases width - |s|
  {
    if |s| < width {
      LeadingZero(s);
      PadZeros("0" + s, width);
    }
  }

  /** `String(n)` has no leading zero and exactly as many digits as `n`
      needs: `10^(len-1) <= n < 10^len`, the lower bound only when there is
      more than one digit. */
  lemma {:induction false} DigitsMinimal(n: nat)
    ensures var r := Digits(n);
      (r[0] == '0' ==> n == 0) && n < Pow10(|r|) && (|r| > 1 ==> Pow10(|r| - 1) <= n)
    decreases n
  {
    if n >= 10 {
      DigitsMinimal(n / 10);
      var prefix := Digits(n / 10);
      assert Digits(n) == prefix + [DigitChar(n % 10)];
      assert Digits(n)[0] == prefix[0];
    }
  }

  /** What padding adds: the result ends with `s`, and everything in front
      of it is the fill character. */
  lemma {:induction false} PadStartShape(s: string, width: nat, c: char)
    ensures var r := PadStart(s, width, c);
      r[|r| - |s|..] == s && forall i :: 0 <= i < |r| - |s| ==> r[i] == c
    decreases width - |s|
  {
    if |s| < width {
      var cs := [c] + s;
      PadStartShape(cs, width, c);
      var r := PadStart(cs, width, c);
      assert PadStart(s, width, c) == r;
      var k := |r| - |cs|;
      assert r[k..] == cs;
      assert r[k + 1..] == r[k..][1..] == s;
      assert r[k] == r[k..][0] == c;
      forall i | 0 <= i < k + 1
        ensures r[i] == c
      {
      }
    }
  }

  /** A number below 100 has at most two decimal digits. */
  lemma DigitsBelow100(n: nat)
    ensures n < 100 ==> |Digits(n)| <= 2
  {
    DigitsMinimal(n);
    var k := |Digits(n)|;
    if n < 100 && k > 2 {
      Pow10Monotone(2, k - 1);
    }
  }

  lemma {:induction false} Pow10Monotone(i: nat, j: nat)
    requires i <= j
    ensures Pow10(i) <= Pow10(j)
  {
    if i < j {
      Pow10Monotone(i, j - 1);
    }
  }
}
