/**
 * Text helpers shared by the key builder, the JSON model and the search hash:
 * rendering of non-negative integers in a radix (JavaScript's `Number.prototype.toString`
 * and template-literal interpolation of integers), reading them back, and the
 * trailing-`*` glob patterns that Redis `KEYS` is called with.
 */
module Text {
  import opened Wrappers

  /** The digit characters JavaScript uses when rendering numbers: '0'..'9' then 'a'..'z'. */
  function DigitChar(d: nat): char
    requires d < 36
  {
    if d < 10 then ('0' as int + d) as char else ('a' as int + (d - 10)) as char
  }

  /** The value of a digit character in any radix up to 36, if it is one. */
  function DigitValue(c: char): Option<nat>
  {
    if '0' <= c <= '9' then Some(c as int - '0' as int)
    else if 'a' <= c <= 'z' then Some(c as int - 'a' as int + 10)
    else None
  }

  predicate IsDigit(c: char, base: nat)
  {
    DigitValue(c).Some? && DigitValue(c).value < base
  }

  predicate AllDigits(s: string, base: nat)
  {
    forall i :: 0 <= i < |s| ==> IsDigit(s[i], base)
  }

  /**
   * `n` written in radix `base` with no leading zeros: what `n.toString(base)` and
   * `${n}` produce for a non-negative integer.
   */
  function Radix(n: nat, base: nat): (s: string)
    requires 2 <= base <= 36
    ensures 1 <= |s|
    ensures AllDigits(s, base)
    ensures |s| > 1 ==> s[0] != '0'
    decreases n
  {
    if n < base then [DigitChar(n)]
    else
      DivisionFacts(n, base);
      Radix(n / base, base) + [DigitChar(n % base)]
  }

  /** Euclidean division facts Dafny's arithmetic does not find by itself for a variable divisor. */
  lemma DivisionFacts(n: nat, base: nat)
    requires 2 <= base <= n
    ensures 0 < n / base < n
    ensures n == n / base * base + n % base && 0 <= n % base < base
  {
  }

  /** The number a string of radix-`base` digits denotes (most significant digit first). */
  function DigitsValue(s: string, base: nat): nat
    requires AllDigits(s, base)
  {
    if s == [] then 0
    else DigitsValue(s[..|s| - 1], base) * base + DigitValue(s[|s| - 1]).value
  }

  /** Reading back what `Radix` writes gives the number again. */
  lemma {:induction false} RadixRoundTrip(n: nat, base: nat)
    requires 2 <= base <= 36
    ensures DigitsValue(Radix(n, base), base) == n
    decreases n
  {
    var s := Radix(n, base);
    if n >= base {
      DivisionFacts(n, base);
      RadixRoundTrip(n / base, base);
      assert s[..|s| - 1] == Radix(n / base, base);
    }
  }

  /** A number below base^k needs at most k digits. */
  lemma {:induction false} RadixLength(n: nat, base: nat, k: nat)
    requires 2 <= base <= 36 && 1 <= k
    requires n < Power(base, k)
    ensures |Radix(n, base)| <= k
    decreases k
  {
    if n >= base {
      assert k > 1;
      DivisionFacts(n, base);
      QuotientBelow(n, base, Power(base, k - 1));
      RadixLength(n / base, base, k - 1);
      assert |Radix(n, base)| == |Radix(n / base, base)| + 1;
    }
  }

  /** Dividing a number below `base * p` by `base` leaves a quotient below `p`. */
  lemma QuotientBelow(n: nat, base: nat, p: nat)
    requires 2 <= base && n < base * p
    ensures n / base < p
  {
    var q := n / base;
    assert q * base <= n;
    TimesMonotone(p, q, base);
  }

  lemma TimesMonotone(a: nat, b: nat, c: nat)
    ensures a <= b ==> a * c <= b * c
  {
  }

  function Power(b: nat, k: nat): nat
  {
    if k == 0 then 1 else b * Power(b, k - 1)
  }

  /** Decimal rendering of an integer, as `${n}` gives it for an integer-valued number. */
  function IntToDecimal(n: int): (s: string)
    ensures 1 <= |s|
  {
    if n < 0 then "-" + Radix(-n, 10) else Radix(n, 10)
  }

  /** Reads an optionally negative decimal integer; None when `s` is not one. */
  function DecimalToInt(s: string): Option<int>
  {
    if |s| > 1 && s[0] == '-' && AllDigits(s[1..], 10) then Some(0 - DigitsValue(s[1..], 10))
    else if |s| > 0 && AllDigits(s, 10) then Some(DigitsValue(s, 10))
    else None
  }

  /** Decimal rendering is undone by `DecimalToInt`, so distinct integers render differently. */
  lemma DecimalRoundTrip(n: int)
    ensures DecimalToInt(IntToDecimal(n)) == Some(n)
  {
    var s := IntToDecimal(n);
    if n < 0 {
      assert s[1..] == Radix(-n, 10);
      RadixRoundTrip(-n, 10);
    } else {
      assert IsDigit(s[0], 10);
      RadixRoundTrip(n, 10);
    }
  }

  /**
   * Redis `KEYS` matching, for the patterns this system uses: a literal prefix followed
   * by one trailing `*` matches every key that starts with the prefix; a pattern with no
   * trailing `*` matches only itself.
   */
  predicate GlobMatch(pattern: string, key: string)
  {
    if |pattern| > 0 && pattern[|pattern| - 1] == '*' then pattern[..|pattern| - 1] <= key
    else pattern == key
  }
}
