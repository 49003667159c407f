// Decimal integers, as an output stream prints them and as the configuration reads them.
module Decimal {
  import opened Json

  function Digit(d: nat): char
    requires d < 10
  {
    ('0' as nat + d) as char
  }

  function Natural(n: nat): string {
    if n < 10 then [Digit(n)] else Natural(n / 10) + [Digit(n % 10)]
  }

  /** An integer as operator<< prints it. */
  function Print(n: int): string {
    if n < 0 then "-" + Natural(-n) else Natural(n)
  }

  function Leading(t: string, value: nat): nat
    decreases |t|
  {
    if t != "" && IsDigit(t[0]) then Leading(t[1..], value * 10 + (t[0] as nat - '0' as nat)) else value
  }

  /** The integer part of a number token without an exponent: its sign and leading digits. */
  function IntegerOf(token: string): int {
    if StartsWith(token, '-') then 0 - Leading(token[1..], 0)
    else if StartsWith(token, '+') then Leading(token[1..], 0)
    else Leading(token, 0)
  }

  predicate AllDigits(t: string) {
    forall i :: 0 <= i < |t| ==> IsDigit(t[i])
  }

  lemma {:induction false} LeadingSnoc(t: string, d: nat, value: nat)
    requires AllDigits(t) && d < 10
    ensures Leading(t + [Digit(d)], value) == Leading(t, value) * 10 + d
    decreases |t|
  {
    if t == "" {
      assert (t + [Digit(d)])[1..] == "";
    } else {
      assert (t + [Digit(d)])[1..] == t[1..] + [Digit(d)];
      LeadingSnoc(t[1..], d, value * 10 + (t[0] as nat - '0' as nat));
    }
  }

  lemma {:induction false} NaturalReadBack(n: nat)
    ensures Natural(n) != "" && AllDigits(Natural(n)) && Leading(Natural(n), 0) == n
  {
    if n >= 10 {
      NaturalReadBack(n / 10);
      LeadingSnoc(Natural(n / 10), n % 10, 0);
    } else {
      assert [Digit(n)][1..] == "";
    }
  }

  /** Printed integers are number tokens and are read back. */
  lemma PrintReadBack(n: int)
    ensures Print(n) != "" && forall i :: 0 <= i < |Print(n)| ==> InNumber(Print(n)[i])
    ensures IntegerOf(Print(n)) == n
  {
    if n < 0 {
      NaturalReadBack(-n);
      assert Print(n)[1..] == Natural(-n);
    } else {
      NaturalReadBack(n);
    }
  }

  lemma {:induction false} LeadingStops(t: string, tail: string, value: nat)
    requires AllDigits(t) && (tail == "" || !IsDigit(tail[0]))
    ensures Leading(t + tail, value) == Leading(t, value)
    decreases |t|
  {
    if t == "" {
      assert t + tail == tail;
    } else {
      assert (t + tail)[1..] == t[1..] + tail;
      LeadingStops(t[1..], tail, value * 10 + (t[0] as nat - '0' as nat));
    }
  }

  /** The digits count up to the first character that is none, behind a sign of either kind: a
      fraction is cut off, towards zero. */
  lemma CutTowardsZero(n: nat, tail: string)
    requires tail == "" || !IsDigit(tail[0])
    ensures IntegerOf(Natural(n) + tail) == n && IntegerOf("-" + Natural(n) + tail) == 0 - n
    ensures IntegerOf("+" + Natural(n) + tail) == n
  {
    NaturalReadBack(n);
    hide Natural;
    LeadingStops(Natural(n), tail, 0);
    hide Leading;
    BehindSign("-", Natural(n), tail);
    BehindSign("+", Natural(n), tail);
    assert (Natural(n) + tail)[0] == Natural(n)[0];
  }

  lemma BehindSign(sign: string, digits: string, tail: string)
    requires |sign| == 1
    ensures (sign + digits + tail)[1..] == digits + tail && (sign + digits + tail)[0] == sign[0]
  {
  }
}
