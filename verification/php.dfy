/**
 * The few PHP value semantics the scripts rely on: truncating `%`, string
 * truthiness, `strEndsWith`, and decimal printing of integers.
 */
module Php {

  /** PHP's `intdiv`: integer division truncating toward zero. */
  function Quot(a: int, b: int): int
    requires b > 0
  {
    if a >= 0 then a / b else -((-a) / b)
  }

  /**
   * PHP's `%` on integers: the remainder takes the sign of the dividend
   * (truncating division), unlike Dafny's Euclidean `%`.
   */
  function Mod(a: int, b: int): (r: int)
    requires b > 0
    ensures a == b * Quot(a, b) + r
    ensures -b < r < b
    ensures a >= 0 ==> 0 <= r
    ensures a < 0 ==> r <= 0
  {
    if a >= 0 then a % b else -((-a) % b)
  }

  /** On non-negative dividends PHP's and Dafny's remainders coincide. */
  lemma ModAgreesOnNonNegative(a: int, b: int)
    requires a >= 0 && b > 0
    ensures Mod(a, b) == a % b
  {
  }

  /** `!$s` for a string: PHP treats "" and "0" as false. */
  predicate Falsy(s: string)
  {
    s == "" || s == "0"
  }

  predicate EndsWith(s: string, suffix: string)
  {
    |suffix| <= |s| && s[|s| - |suffix|..] == suffix
  }

  function Repeat(c: char, n: nat): (s: string)
    ensures |s| == n
    ensures forall i :: 0 <= i < n ==> s[i] == c
  {
    if n == 0 then "" else [c] + Repeat(c, n - 1)
  }

  predicate IsDigit(c: char) { '0' <= c <= '9' }

  predicate AllDigits(s: string)
  {
    forall i :: 0 <= i < |s| ==> IsDigit(s[i])
  }

  function DigitChar(d: int): (c: char)
    requires 0 <= d < 10
    ensures IsDigit(c)
  {
    (d + '0' as int) as char
  }

  function DigitValue(c: char): (d: int)
    requires IsDigit(c)
    ensures 0 <= d < 10
  {
    c as int - '0' as int
  }

  /** Shortest decimal representation of `n`, as `strval` prints it. */
  function NatToString(n: nat): (s: string)
    ensures 1 <= |s| && AllDigits(s)
    ensures n < 10 <==> |s| == 1
  {
    if n < 10 then [DigitChar(n)] else NatToString(n / 10) + [DigitChar(n % 10)]
  }

  /** Value of a string of decimal digits (leading zeros allowed). */
  function ParseDigits(s: string): nat
    requires AllDigits(s)
  {
    if s == [] then 0 else ParseDigits(s[..|s| - 1]) * 10 + DigitValue(s[|s| - 1])
  }

  lemma {:induction false} ParseNatToString(n: nat)
    ensures ParseDigits(NatToString(n)) == n
  {
    if n >= 10 {
      var s := NatToString(n);
      assert s[..|s| - 1] == NatToString(n / 10);
      ParseNatToString(n / 10);
    }
  }

  lemma {:induction false} ParseIgnoresLeadingZeros(k: nat, s: string)
    requires AllDigits(s)
    ensures AllDigits(Repeat('0', k) + s)
    ensures ParseDigits(Repeat('0', k) + s) == ParseDigits(s)
  {
    if s != [] {
      var t := Repeat('0', k) + s;
      assert t[..|t| - 1] == Repeat('0', k) + s[..|s| - 1];
      ParseIgnoresLeadingZeros(k, s[..|s| - 1]);
    } else {
      assert Repeat('0', k) + s == Repeat('0', k);
      ParseZeros(k);
    }
  }

  lemma {:induction false} ParseZeros(k: nat)
    ensures ParseDigits(Repeat('0', k)) == 0
  {
    if k > 0 {
      assert Repeat('0', k)[..k - 1] == Repeat('0', k - 1);
      ParseZeros(k - 1);
    }
  }

  /** `sprintf("%0{w}d", n)`: zero-padded to at least `w` digits. */
  function PadNat(n: nat, w: nat): (s: string)
    ensures AllDigits(s)
    ensures |s| == if |NatToString(n)| < w then w else |NatToString(n)|
  {
    var d := NatToString(n);
    if |d| < w then Repeat('0', w - |d|) + d else d
  }

  /** Zero padding never changes the value printed. */
  lemma {:induction false} PadNatParses(n: nat, w: nat)
    ensures ParseDigits(PadNat(n, w)) == n
  {
    var d := NatToString(n);
    var p := PadNat(n, w);
    ParseNatToString(n);
    if |d| < w {
      ParseIgnoresLeadingZeros(w - |d|, d);
      assert p == Repeat('0', w - |d|) + d;
    } else {
      assert p == d;
    }
  }

  lemma PadNatInjective(a: nat, b: nat, w: nat)
    requires PadNat(a, w) == PadNat(b, w)
    ensures a == b
  {
    PadNatParses(a, w);
    PadNatParses(b, w);
  }
}
