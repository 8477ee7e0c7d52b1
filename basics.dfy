/** Small value types shared by the whole model: optional values, results with
    a textual error, the unsigned 64-bit identifiers GitLab uses, and the
    decimal rendering Rust's `{}` formatting gives an unsigned integer. */
module Basics {

  datatype Option<T> = None | Some(value: T)

  /** An operation that either produces a value or fails with a message
      (an `anyhow::Error` or a `&'static str` in the source). */
  datatype Result<T> = Ok(value: T) | Err(error: string)

  const U64_LIMIT: int := 0x1_0000_0000_0000_0000

  /** Rust's `u64`. */
  type U64 = x: int | 0 <= x < U64_LIMIT

  lemma ConcatAssociative<T>(a: seq<T>, b: seq<T>, c: seq<T>)
    ensures a + (b + c) == (a + b) + c
  {
  }

  lemma PrefixCancel<T>(p: seq<T>, a: seq<T>, b: seq<T>)
    requires p + a == p + b
    ensures a == b
  {
    assert a == (p + a)[|p|..];
    assert b == (p + b)[|p|..];
  }

  lemma PrefixSnoc<T>(q: seq<T>, n: nat)
    requires n < |q|
    ensures q[..n] + [q[n]] == q[..n + 1]
  {
  }

  predicate IsDigit(c: char) {
    '0' <= c <= '9'
  }

  predicate AllDigits(s: string) {
    forall i :: 0 <= i < |s| ==> IsDigit(s[i])
  }

  function DigitChar(d: nat): (c: char)
    requires d < 10
    ensures IsDigit(c)
  {
    (('0' as int) + d) as char
  }

  /** The decimal text of `n`, as `format!("{}", n)` writes an unsigned integer:
      at least one digit, digits only, and no leading zero except for "0" itself. */
  function Decimal(n: nat): (s: string)
    ensures |s| >= 1 && AllDigits(s)
    ensures s[0] == '0' ==> n == 0 && s == "0"
  {
    if n < 10 then [DigitChar(n)] else Decimal(n / 10) + [DigitChar(n % 10)]
  }

  /** The value of a string of decimal digits: the reference reading that
      `Decimal` is proved to invert. */
  function DecimalValue(s: string): nat
    requires AllDigits(s)
  {
    if s == [] then 0
    else DecimalValue(s[..|s| - 1]) * 10 + ((s[|s| - 1] as int) - ('0' as int))
  }

  lemma {:induction false} DecimalRoundTrip(n: nat)
    ensures DecimalValue(Decimal(n)) == n
  {
    if n >= 10 {
      var s := Decimal(n);
      assert s[..|s| - 1] == Decimal(n / 10);
      DecimalRoundTrip(n / 10);
    }
  }

  lemma DecimalInjective(a: nat, b: nat)
    requires Decimal(a) == Decimal(b)
    ensures a == b
  {
    DecimalRoundTrip(a);
    DecimalRoundTrip(b);
  }

  lemma ConcatAt(x: string, y: string, i: int)
    ensures 0 <= i < |x| + |y| ==> (x + y)[i] == if i < |x| then x[i] else y[i - |x|]
  {
  }

  /** A decimal number followed by text that does not start with a digit can be
      split back into the number and the text. */
  lemma DecimalThenTextInjective(a: nat, s: string, b: nat, t: string)
    requires s == [] || !IsDigit(s[0])
    requires t == [] || !IsDigit(t[0])
    requires Decimal(a) + s == Decimal(b) + t
    ensures a == b && s == t
  {
    var da, db := Decimal(a), Decimal(b);
    ConcatAt(da, s, |da|);
    ConcatAt(db, t, |da|);
    ConcatAt(da, s, |db|);
    ConcatAt(db, t, |db|);
    assert da == (da + s)[..|da|] == (db + t)[..|db|] == db;
    DecimalInjective(a, b);
    assert s == (da + s)[|da|..] == (db + t)[|db|..] == t;
  }
}
