/** Decimal spelling of integers, and its inverse within the 64-bit range. */
module Numerals {
  import opened Collections

  const INT64_MIN: int := -0x8000_0000_0000_0000
  const INT64_MAX: int := 0x7FFF_FFFF_FFFF_FFFF

  predicate IsDigit(c: char) { '0' <= c <= '9' }

  function DigitChar(d: nat): char
    requires d < 10
  {
    '0' + d as char
  }

  function Decimal(n: nat): (s: string)
    ensures s != [] && forall c :: c in s ==> IsDigit(c)
  {
    if n < 10 then [DigitChar(n)] else Decimal(n / 10) + [DigitChar(n % 10)]
  }

  function FormatInt(i: int): string { if i < 0 then "-" + Decimal(-i) else Decimal(i) }

  /** The value of a run of digits; None when s is empty or holds anything else. */
  function DigitsValue(s: string): Option<nat> {
    if s == [] || !IsDigit(s[|s| - 1]) then None
    else
      var d: nat := s[|s| - 1] as int - '0' as int;
      if |s| == 1 then Some(d)
      else
        var rest := DigitsValue(s[..|s| - 1]);
        if rest == None then None else Some(rest.value * 10 + d)
  }

  /** An optional sign and digits, within 64 bits. */
  function Atoi(s: string): Option<int> {
    var signed := s != [] && (s[0] == '+' || s[0] == '-');
    var magnitude := DigitsValue(if signed then s[1..] else s);
    if magnitude == None then None
    else
      var m: int := magnitude.value;
      var i := if signed && s[0] == '-' then -m else m;
      if INT64_MIN <= i <= INT64_MAX then Some(i) else None
  }

  lemma {:induction false} DecimalValue(n: nat)
    ensures DigitsValue(Decimal(n)) == Some(n)
  {
    if n >= 10 {
      DecimalValue(n / 10);
      var s := Decimal(n);
      assert s[..|s| - 1] == Decimal(n / 10);
    }
  }

  /** Different numbers are spelled differently. */
  lemma DecimalInjective(m: nat, n: nat)
    requires Decimal(m) == Decimal(n)
    ensures m == n
  {
    DecimalValue(m);
    DecimalValue(n);
  }

  /** Every 64-bit integer is read back from its spelling. */
  lemma AtoiFormat(i: int)
    requires INT64_MIN <= i <= INT64_MAX
    ensures Atoi(FormatInt(i)) == Some(i)
  {
    hide Decimal, DigitsValue;
    DecimalValue(if i < 0 then -i else i);
    if i >= 0 {
      assert Decimal(i)[0] in Decimal(i);
    } else {
      assert FormatInt(i)[1..] == Decimal(-i);
    }
  }

  /** No other number is read at all. */
  lemma AtoiOverflow(i: int)
    requires i < -0x8000_0000_0000_0000 || i > 0x7FFF_FFFF_FFFF_FFFF
    ensures Atoi(FormatInt(i)) == None
  {
    hide Decimal, DigitsValue;
    DecimalValue(if i < 0 then -i else i);
    if i >= 0 {
      assert Decimal(i)[0] in Decimal(i);
    } else {
      assert FormatInt(i)[1..] == Decimal(-i);
    }
  }

  /** The spelling is digits, possibly after a minus sign. */
  lemma FormatChars(i: int)
    ensures FormatInt(i) != [] && forall c :: c in FormatInt(i) ==> c == '-' || IsDigit(c)
  {
  }

  /** The sign is spelled exactly for negative numbers. */
  lemma FormatSign(i: int)
    ensures FormatInt(i) != [] && (FormatInt(i)[0] == '-' <==> i < 0)
  {
    hide Decimal;
    if i >= 0 {
      assert Decimal(i)[0] in Decimal(i);
    }
  }

  /** No spelling starts with a zero it does not need. */
  lemma {:induction false} DecimalLeads(n: nat)
    ensures '0' <= Decimal(n)[0] <= '9'
    ensures Decimal(n)[0] == '0' <==> n == 0
  {
    if n >= 10 {
      DecimalLeads(n / 10);
    }
  }
}
