/**
 * The parts of java.lang.String and java.lang.Integer the parsers rely on:
 * `trim`, decimal digit strings as `Integer.parseInt` reads them, and
 * `hashCode`. Strings are sequences of Unicode scalar values.
 */
module JavaString {

  /** `String.trim` removes every character at or below U+0020 from both ends. */
  predicate IsTrimmable(c: char) { c <= ' ' }

  predicate AllTrimmable(s: string)
  {
    forall i :: 0 <= i < |s| ==> IsTrimmable(s[i])
  }

  /** A string `trim` leaves as it is: empty, or bounded by non-trimmable characters. */
  predicate IsTrimmed(s: string)
  {
    s == [] || (!IsTrimmable(s[0]) && !IsTrimmable(s[|s| - 1]))
  }

  function TrimStart(s: string): string
  {
    if |s| > 0 && IsTrimmable(s[0]) then TrimStart(s[1..]) else s
  }

  function TrimEnd(s: string): string
  {
    if |s| > 0 && IsTrimmable(s[|s| - 1]) then TrimEnd(s[..|s| - 1]) else s
  }

  /** `String.trim`. Its properties are the lemmas below. */
  function Trim(s: string): string
  {
    TrimEnd(TrimStart(s))
  }

  /** TrimStart drops a prefix of padding and stops at the first visible character. */
  lemma {:induction false} TrimStartDropsPadding(s: string)
    ensures |TrimStart(s)| <= |s| && TrimStart(s) == s[|s| - |TrimStart(s)|..]
    ensures TrimStart(s) == [] || !IsTrimmable(TrimStart(s)[0])
    ensures AllTrimmable(s[..|s| - |TrimStart(s)|])
  {
    if |s| > 0 && IsTrimmable(s[0]) {
      var r := TrimStart(s[1..]);
      TrimStartDropsPadding(s[1..]);
      assert s[..|s| - |r|] == [s[0]] + s[1..][..|s| - 1 - |r|];
    }
  }

  /** TrimEnd drops a suffix of padding and stops at the last visible character. */
  lemma {:induction false} TrimEndDropsPadding(s: string)
    ensures |TrimEnd(s)| <= |s| && TrimEnd(s) == s[..|TrimEnd(s)|]
    ensures TrimEnd(s) == [] || !IsTrimmable(TrimEnd(s)[|TrimEnd(s)| - 1])
    ensures AllTrimmable(s[|TrimEnd(s)|..])
  {
    if |s| > 0 && IsTrimmable(s[|s| - 1]) {
      var r := TrimEnd(s[..|s| - 1]);
      TrimEndDropsPadding(s[..|s| - 1]);
      assert s[|r|..] == s[..|s| - 1][|r|..] + [s[|s| - 1]];
    }
  }

  /** What `trim` returns has no padding at either end, and is empty exactly for blank input. */
  lemma TrimIsTrimmed(s: string)
    ensures IsTrimmed(Trim(s))
    ensures |Trim(s)| <= |s|
    ensures Trim(s) == [] <==> AllTrimmable(s)
  {
    var t := TrimStart(s);
    var r := TrimEnd(t);
    TrimStartDropsPadding(s);
    TrimEndDropsPadding(t);
    if r == [] {
      assert t == t[|r|..];
      assert s[..|s| - |t|] == s;
    }
  }

  lemma {:induction false} TrimStartSkipsPadding(p: string, s: string)
    requires AllTrimmable(p)
    ensures TrimStart(p + s) == TrimStart(s)
    decreases |p|
  {
    if p != [] {
      assert (p + s)[1..] == p[1..] + s;
      TrimStartSkipsPadding(p[1..], s);
    } else {
      assert p + s == s;
    }
  }

  lemma {:induction false} TrimEndSkipsPadding(s: string, q: string)
    requires AllTrimmable(q)
    ensures TrimEnd(s + q) == TrimEnd(s)
    decreases |q|
  {
    if q != [] {
      assert (s + q)[..|s + q| - 1] == s + q[..|q| - 1];
      TrimEndSkipsPadding(s, q[..|q| - 1]);
    } else {
      assert s + q == s;
    }
  }

  /** Trailing padding survives TrimStart unless everything before it was padding too. */
  lemma {:induction false} TrimStartAppend(s: string, q: string)
    requires AllTrimmable(q)
    ensures TrimStart(s + q) == if TrimStart(s) == [] then TrimStart(q) else TrimStart(s) + q
    decreases |s|
  {
    if s == [] {
      assert s + q == q;
    } else if IsTrimmable(s[0]) {
      assert (s + q)[1..] == s[1..] + q;
      TrimStartAppend(s[1..], q);
    }
  }

  /** Surrounding whitespace never changes what `trim` returns. */
  lemma TrimIgnoresPadding(p: string, s: string, q: string)
    requires AllTrimmable(p) && AllTrimmable(q)
    ensures Trim(p + s + q) == Trim(s)
  {
    assert p + s + q == p + (s + q);
    TrimStartSkipsPadding(p, s + q);
    TrimStartAppend(s, q);
    if TrimStart(s) == [] {
      TrimStartDropsPadding(q);
      assert TrimStart(q) == [];
    } else {
      TrimEndSkipsPadding(TrimStart(s), q);
    }
  }

  /** A trimmed string is its own trim. */
  lemma TrimOfTrimmed(s: string)
    requires IsTrimmed(s)
    ensures Trim(s) == s
  {
  }

  /** `trim` is idempotent. */
  lemma TrimIdempotent(s: string)
    ensures Trim(Trim(s)) == Trim(s)
  {
    TrimIsTrimmed(s);
    TrimOfTrimmed(Trim(s));
  }

  predicate IsDigit(c: char) { '0' <= c <= '9' }

  predicate AllDigits(s: string)
  {
    forall i :: 0 <= i < |s| ==> IsDigit(s[i])
  }

  function DigitValue(c: char): nat
    requires IsDigit(c)
  {
    c as int - '0' as int
  }

  function DigitChar(d: nat): char
    requires d < 10
  {
    ('0' as int + d) as char
  }

  /** The number a string of decimal digits denotes (leading zeros allowed, as `Integer.parseInt` reads it). */
  function DigitsValue(s: string): nat
    requires AllDigits(s)
  {
    if s == [] then 0 else DigitsValue(s[..|s| - 1]) * 10 + DigitValue(s[|s| - 1])
  }

  /** The decimal rendering of a natural number, without leading zeros. */
  function DecimalString(n: nat): (s: string)
    ensures |s| > 0 && AllDigits(s)
  {
    if n < 10 then [DigitChar(n)] else DecimalString(n / 10) + [DigitChar(n % 10)]
  }

  /** Reading back a rendered number gives the number. */
  lemma {:induction false} DecimalStringValue(n: nat)
    ensures DigitsValue(DecimalString(n)) == n
  {
    if n >= 10 {
      var s := DecimalString(n);
      assert s[..|s| - 1] == DecimalString(n / 10);
      DecimalStringValue(n / 10);
    }
  }

  const INT_MAX: int := 0x7fff_ffff

  /**
   * `StringUtil.isNonZeroUnsignedInteger`: `Integer.parseInt` accepts the string
   * without a leading '+', and the value is positive. A '-' sign always gives a
   * value at or below zero, and a value above `Integer.MAX_VALUE` does not parse.
   */
  predicate IsNonZeroUnsignedInteger(s: string)
  {
    |s| > 0 && AllDigits(s) && 0 < DigitsValue(s) <= INT_MAX
  }

  /** `Integer.parseInt` for the strings `IsNonZeroUnsignedInteger` admits. */
  function ParseInt(s: string): (n: int)
    requires IsNonZeroUnsignedInteger(s)
    ensures 1 <= n <= INT_MAX
  {
    DigitsValue(s)
  }

  /** Every decimal rendering of a positive int is a non-zero unsigned integer. */
  lemma DecimalStringIsUnsigned(n: nat)
    requires 0 < n <= INT_MAX
    ensures IsNonZeroUnsignedInteger(DecimalString(n))
    ensures ParseInt(DecimalString(n)) == n
  {
    DecimalStringValue(n);
  }

  /** A digit string is never touched by `trim`. */
  lemma DigitsAreTrimmed(s: string)
    requires AllDigits(s)
    ensures Trim(s) == s
  {
    assert IsTrimmed(s) by {
      if s != [] {
        assert IsDigit(s[0]) && IsDigit(s[|s| - 1]);
      }
    }
    TrimOfTrimmed(s);
  }

  const TWO_32: int := 0x1_0000_0000

  /** Java's `int` arithmetic: wrap an integer into the 32-bit two's-complement range. */
  function WrapInt32(x: int): (r: int)
    ensures -0x8000_0000 <= r <= INT_MAX
    ensures (r - x) % TWO_32 == 0
  {
    var m := (x + 0x8000_0000) % TWO_32;
    assert x + 0x8000_0000 == (x + 0x8000_0000) / TWO_32 * TWO_32 + m;
    m - 0x8000_0000
  }

  /** `String.hashCode`: h = 31 * h + c over the characters, in 32-bit arithmetic. */
  function StringHash(s: string): (h: int)
    ensures -0x8000_0000 <= h <= INT_MAX
  {
    if s == [] then 0 else WrapInt32(31 * StringHash(s[..|s| - 1]) + s[|s| - 1] as int)
  }
}
