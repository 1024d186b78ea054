/**
 * Decimal text of integers, as printf's `%d` and `%zu` conversions write it,
 * and the parser that reads such text back.
 */
module Decimal {
  import opened Wrappers

  /** Range of a C `int` (32 bits). */
  type Int32 = i: int | -0x8000_0000 <= i < 0x8000_0000

  /** Range of `size_t` on the 64-bit targets the code is built for. */
  type SizeT = n: nat | n < 0x1_0000_0000_0000_0000

  predicate IsDigit(c: char) { '0' <= c <= '9' }

  predicate AllDigits(s: string) { forall i :: 0 <= i < |s| ==> IsDigit(s[i]) }

  function DigitChar(d: nat): (c: char)
    requires d < 10
    ensures IsDigit(c) && c as int - '0' as int == d
  {
    (d + '0' as int) as char
  }

  /** `%zu`: shortest decimal numeral of n (no sign, no leading zero). */
  function NatToDec(n: nat): (s: string)
    ensures |s| > 0 && AllDigits(s)
    ensures |s| > 1 ==> s[0] != '0'
    decreases n
  {
    if n < 10 then [DigitChar(n)] else NatToDec(n / 10) + [DigitChar(n % 10)]
  }

  /** `%d`: a minus sign before negative values. */
  function IntToDec(i: int): (s: string)
    ensures |s| > 0 && ' ' !in s && '\r' !in s && '\0' !in s
  {
    var s := if i < 0 then "-" + NatToDec(-i) else NatToDec(i);
    assert forall k :: 0 <= k < |s| ==> s[k] == '-' || IsDigit(s[k]);
    s
  }

  /** The value of a numeral (any digit string, leading zeros allowed). */
  function DecValue(s: string): nat
    requires AllDigits(s)
  {
    if s == [] then 0 else DecValue(s[..|s| - 1]) * 10 + (s[|s| - 1] as int - '0' as int)
  }

  /** Reads back a numeral: digits only, at least one. */
  function ParseNat(s: string): (r: Option<nat>)
    ensures r.Some? <==> |s| > 0 && AllDigits(s)
  {
    if |s| > 0 && AllDigits(s) then Some(DecValue(s)) else None
  }

  /** Reads back an optionally signed numeral. */
  function ParseInt(s: string): Option<int> {
    if |s| > 0 && s[0] == '-' then
      match ParseNat(s[1..])
      case Some(n) => Some(0 - (n as int))
      case None => None
    else
      match ParseNat(s)
      case Some(n) => Some(n)
      case None => None
  }

  /** Reading the numeral `%zu` writes gives back the number. */
  lemma {:induction false} NatToDecRoundTrip(n: nat)
    ensures ParseNat(NatToDec(n)) == Some(n)
    decreases n
  {
    if n >= 10 {
      NatToDecRoundTrip(n / 10);
      var s := NatToDec(n);
      assert s[..|s| - 1] == NatToDec(n / 10);
      assert DecValue(s) == DecValue(NatToDec(n / 10)) * 10 + n % 10;
    }
  }

  /** Reading the numeral `%d` writes gives back the integer. */
  lemma IntToDecRoundTrip(i: int)
    ensures ParseInt(IntToDec(i)) == Some(i)
  {
    if i < 0 {
      NatToDecRoundTrip(-i);
      assert ("-" + NatToDec(-i))[1..] == NatToDec(-i);
    } else {
      NatToDecRoundTrip(i);
    }
  }

  /** Distinct numbers have distinct numerals. */
  lemma NatToDecInjective(m: nat, n: nat)
    ensures NatToDec(m) == NatToDec(n) <==> m == n
  {
    NatToDecRoundTrip(m);
    NatToDecRoundTrip(n);
  }
}
