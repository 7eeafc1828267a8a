/** Values shared by every part of the model: optional fields, results that carry
    an error, the decimal rendering JavaScript template literals use, and the two
    string tests the sale controller applies to error messages. */
module Base {

  /** An optional value: `None` models a JavaScript `undefined` field or an SQL NULL. */
  datatype Option<T> = None | Some(value: T)

  /** A computation that either yields a value or fails with an error. */
  datatype Result<T, E> = Ok(value: T) | Err(error: E)

  predicate IsDigit(c: char) {
    '0' <= c <= '9'
  }

  predicate AllDigits(s: string) {
    forall i :: 0 <= i < |s| ==> IsDigit(s[i])
  }

  function DigitChar(d: nat): (c: char)
    requires d < 10
    ensures IsDigit(c) && c as int - '0' as int == d
  {
    ('0' as int + d) as char
  }

  /** Decimal digits of `n`, most significant first, without leading zeros. */
  function NatToString(n: nat): (s: string)
    ensures 0 < |s| && AllDigits(s)
    ensures |s| > 1 ==> s[0] != '0'
  {
    if n < 10 then [DigitChar(n)] else NatToString(n / 10) + [DigitChar(n % 10)]
  }

  /** The value of a string of decimal digits. */
  function DigitsValue(s: string): nat
    requires AllDigits(s)
  {
    if s == [] then 0 else 10 * DigitsValue(s[..|s| - 1]) + (s[|s| - 1] as int - '0' as int)
  }

  lemma {:induction false} NatToStringRoundTrip(n: nat)
    ensures DigitsValue(NatToString(n)) == n
  {
    if n >= 10 {
      var s := NatToString(n);
      assert s[..|s| - 1] == NatToString(n / 10);
      NatToStringRoundTrip(n / 10);
    }
  }

  /** How `${n}` renders an integer. */
  function IntToString(n: int): (s: string)
    ensures 0 < |s|
    ensures n >= 0 ==> s == NatToString(n)
    ensures n < 0 ==> s[0] == '-' && s[1..] == NatToString(-n)
  {
    if n < 0 then "-" + NatToString(-n) else NatToString(n)
  }

  /** JavaScript's `s.startsWith(prefix)`. */
  predicate StartsWith(s: string, prefix: string) {
    prefix <= s
  }

  /** A price times a quantity, both non-negative, is non-negative. */
  lemma NonNegativeProduct(a: int, b: int)
    ensures a >= 0 && b >= 0 ==> a * b >= 0
  {
  }

  lemma PrefixOfConcat(a: string, b: string)
    ensures StartsWith(a + b, a)
  {
    assert (a + b)[..|a|] == a;
  }

  /** `t` occurs in `s` starting at index `i`. */
  predicate OccursAt(s: string, t: string, i: int) {
    0 <= i <= |s| - |t| && s[i..i + |t|] == t
  }

  /** JavaScript's `s.includes(t)`. */
  predicate Contains(s: string, t: string) {
    exists i :: 0 <= i <= |s| - |t| && OccursAt(s, t, i)
  }

  lemma ContainsInfix(a: string, t: string, b: string)
    ensures Contains(a + t + b, t)
  {
    var s := a + t + b;
    assert OccursAt(s, t, |a|);
  }
}
