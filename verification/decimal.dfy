/** Decimal rendering of counts inside issue messages (a number interpolated
    into a JavaScript template literal), and reading a count back out of a
    message, so that "the message reports the count" can be stated as a
    round trip. */
module Decimal {
  import opened Wrappers
  import opened Text

  predicate IsDigit(c: char)
  {
    '0' <= c <= '9'
  }

  predicate AllDigits(s: string)
  {
    forall i :: 0 <= i < |s| ==> IsDigit(s[i])
  }

  function DigitChar(d: nat): (c: char)
    requires d < 10
    ensures IsDigit(c)
  {
    ('0' as int + d) as char
  }

  function DigitValue(c: char): (d: nat)
    requires IsDigit(c)
    ensures d < 10
  {
    c as int - '0' as int
  }

  /** The decimal text of `n`, as `${n}` renders it: at least one digit. */
  function Show(n: nat): (r: string)
    ensures |r| >= 1 && AllDigits(r)
  {
    if n < 10 then [DigitChar(n)] else Show(n / 10) + [DigitChar(n % 10)]
  }

  /** The number a run of decimal digits denotes. */
  function Value(ds: string): nat
    requires AllDigits(ds)
  {
    if |ds| == 0 then 0 else Value(ds[..|ds| - 1]) * 10 + DigitValue(ds[|ds| - 1])
  }

  /** Reading the rendered digits gives the number back. */
  lemma {:induction false} ValueShow(n: nat)
    ensures Value(Show(n)) == n
  {
    if n >= 10 {
      var s := Show(n);
      assert s[..|s| - 1] == Show(n / 10);
      ValueShow(n / 10);
    }
  }

  /** The longest run of digits at the start of `s`. */
  function LeadingDigits(s: string): (r: string)
    ensures |r| <= |s| && r == s[..|r|] && AllDigits(r)
    ensures |r| == |s| || !IsDigit(s[|r|])
  {
    if |s| > 0 && IsDigit(s[0]) then [s[0]] + LeadingDigits(s[1..]) else ""
  }

  /** Digits followed by a non-digit are read up to the non-digit. */
  lemma {:induction false} LeadingDigitsAppend(ds: string, rest: string)
    requires AllDigits(ds)
    requires rest == "" || !IsDigit(rest[0])
    ensures LeadingDigits(ds + rest) == ds
  {
    if |ds| > 0 {
      assert (ds + rest)[1..] == ds[1..] + rest;
      LeadingDigitsAppend(ds[1..], rest);
    }
  }

  /** The count a message reports right after `prefix`, if it starts with
      `prefix` followed by at least one digit. */
  function ReadCount(prefix: string, message: string): Option<nat>
  {
    if StartsWith(message, prefix) then
      var ds := LeadingDigits(message[|prefix|..]);
      if |ds| == 0 then None else Some(Value(ds))
    else None
  }

  /** A message built as `prefix`, the count, then text that does not start
      with a digit, reports exactly that count. */
  lemma CountRoundTrip(prefix: string, n: nat, rest: string)
    requires rest == "" || !IsDigit(rest[0])
    ensures ReadCount(prefix, prefix + Show(n) + rest) == Some(n)
  {
    var m := prefix + Show(n) + rest;
    assert m[..|prefix|] == prefix;
    var tail := m[|prefix|..];
    assert tail == Show(n) + rest;
    LeadingDigitsAppend(Show(n), rest);
    ValueShow(n);
  }
}
