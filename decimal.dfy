/** Decimal text for integers: how the engine prints a count into an
    identifier or an attribute, and how an attribute's text is read back
    as a number. */
module Decimal {
  import opened Wrappers

  predicate IsDigit(c: char) {
    '0' <= c <= '9'
  }

  function DigitChar(d: nat): (c: char)
    requires d < 10
    ensures IsDigit(c)
    ensures c as int - '0' as int == d
  {
    ['0', '1', '2', '3', '4', '5', '6', '7', '8', '9'][d]
  }

  function DigitValue(c: char): nat
    requires IsDigit(c)
  {
    c as int - '0' as int
  }

  /** The shortest decimal spelling of a natural number. */
  function NatToString(n: nat): (s: string)
    ensures |s| >= 1
    ensures forall i :: 0 <= i < |s| ==> IsDigit(s[i])
    decreases n
  {
    if n < 10 then [DigitChar(n)] else NatToString(n / 10) + [DigitChar(n % 10)]
  }

  /** A leading '-' for negative numbers, then the digits. */
  function IntToString(i: int): (s: string)
    ensures |s| >= 1
    ensures i >= 0 ==> IsDigit(s[0])
    ensures i < 0 ==> s[0] == '-'
    ensures forall k :: 0 < k < |s| ==> IsDigit(s[k])
  {
    if i >= 0 then NatToString(i) else "-" + NatToString(-i)
  }

  /** The value of a non-empty run of digits. */
  function ParseNat(s: string): (r: Option<nat>)
    ensures r.Some? <==> (|s| >= 1 && forall i :: 0 <= i < |s| ==> IsDigit(s[i]))
  {
    if |s| == 0 || !IsDigit(s[|s| - 1]) then None
    else if |s| == 1 then Some(DigitValue(s[0]))
    else
      match ParseNat(s[..|s| - 1])
      case None => None
      case Some(v) => Some(10 * v + DigitValue(s[|s| - 1]))
  }

  /** The value of an optional '-' followed by digits. */
  function ParseInt(s: string): Option<int> {
    var negative := |s| >= 1 && s[0] == '-';
    var magnitude := ParseNat(if negative then s[1..] else s);
    if magnitude.None? then None
    else if negative then Some(0 - magnitude.value)
    else Some(magnitude.value as int)
  }

  /** Reading back a printed natural number gives the number. */
  lemma {:induction false} ParseNatToString(n: nat)
    ensures ParseNat(NatToString(n)) == Some(n)
    decreases n
  {
    if n >= 10 {
      var s := NatToString(n);
      assert s[..|s| - 1] == NatToString(n / 10);
      ParseNatToString(n / 10);
    }
  }

  /** Reading back a printed integer gives the integer. */
  lemma ParseIntToString(i: int)
    ensures ParseInt(IntToString(i)) == Some(i)
  {
    if i >= 0 {
      ParseNatToString(i);
    } else {
      var s := IntToString(i);
      assert s[1..] == NatToString(-i);
      ParseNatToString(-i);
    }
  }

  /** Printing is injective: different integers never print alike. */
  lemma IntToStringInjective(i: int, j: int)
    requires IntToString(i) == IntToString(j)
    ensures i == j
  {
    ParseIntToString(i);
    ParseIntToString(j);
  }

  /** How an attribute's text is read as a number where the engine calls
      prim::String::ToNumber, which is not part of this model: a whole
      decimal numeral gives its value, and any other text (including an
      absent attribute) gives 0. */
  function ToNumber(s: string): (r: int)
    ensures ParseInt(s).Some? ==> r == ParseInt(s).value
    ensures ParseInt(s).None? ==> r == 0
  {
    ParseInt(s).GetOr(0)
  }
}
