/** The parts of Go's strconv package that the coercions call: decimal
    ParseInt / ParseUint / Atoi with a bit size, ParseBool, and the decimal
    formatting that fmt's %v gives integers and booleans. */
module Strconv {
  import opened Ints

  datatype Option<T> = None | Some(value: T)

  predicate IsDigit(c: char)
  {
    '0' <= c <= '9'
  }

  predicate AllDigits(s: string)
  {
    forall i :: 0 <= i < |s| ==> IsDigit(s[i])
  }

  /** The number a string of decimal digits denotes. */
  function DigitsValue(s: string): nat
    requires AllDigits(s)
  {
    if |s| == 0 then 0
    else DigitsValue(s[..|s| - 1]) * 10 + (s[|s| - 1] as int - '0' as int)
  }

  function DigitChar(d: nat): (c: char)
    requires d < 10
    ensures IsDigit(c) && c as int - '0' as int == d
  {
    ('0' as int + d) as char
  }

  /** Decimal text of a natural number, without leading zeros. */
  function FormatNat(n: nat): (s: string)
    ensures |s| >= 1 && AllDigits(s)
    ensures |s| > 1 ==> s[0] != '0'
  {
    if n < 10 then [DigitChar(n)] else FormatNat(n / 10) + [DigitChar(n % 10)]
  }

  /** FormatNat is inverted by reading the digits back. */
  lemma {:induction false} FormatNatValue(n: nat)
    ensures DigitsValue(FormatNat(n)) == n
  {
    if n >= 10 {
      FormatNatValue(n / 10);
      var s := FormatNat(n);
      assert s[..|s| - 1] == FormatNat(n / 10);
    }
  }

  /** Decimal text of an integer, as fmt's %v and strconv.Itoa write it: a
      '-' exactly for a negative number (never a '+'), then the digits of its
      magnitude without leading zeros. */
  function FormatInt(i: int): (s: string)
    ensures |s| >= 1 && (s[0] == '-' <==> i < 0)
    ensures AllDigits(Unsigned(s)) && |Unsigned(s)| >= 1
    ensures i >= 0 ==> AllDigits(s)
    ensures |Unsigned(s)| > 1 ==> Unsigned(s)[0] != '0'
  {
    if i < 0 then "-" + FormatNat(-i) else FormatNat(i)
  }

  /** strconv.ParseUint(s, 10, bits): one or more decimal digits, no sign,
      and a value below 2^bits; None is the error return. */
  function ParseUint(s: string, w: Width): (r: Option<nat>)
    ensures r.Some? <==> |s| > 0 && AllDigits(s) && DigitsValue(s) < Modulus(w)
    ensures r.Some? ==> r.value == DigitsValue(s)
  {
    if |s| > 0 && AllDigits(s) && DigitsValue(s) < Modulus(w) then Some(DigitsValue(s)) else None
  }

  /** The text after an optional leading '+' or '-'. */
  function Unsigned(s: string): string
  {
    if |s| > 0 && (s[0] == '+' || s[0] == '-') then s[1..] else s
  }

  /** The number a signed decimal text denotes. */
  function SignedValue(s: string): int
    requires AllDigits(Unsigned(s))
  {
    if |s| > 0 && s[0] == '-' then 0 - DigitsValue(Unsigned(s)) else DigitsValue(Unsigned(s))
  }

  /** strconv.ParseInt(s, 10, bits): an optional '+' or '-', then one or more
      decimal digits, and a value in the signed range of the bit size.
      strconv.Atoi accepts exactly what ParseInt(s, 10, 64) accepts. */
  function ParseInt(s: string, w: Width): (r: Option<int>)
    ensures r.Some? <==> |Unsigned(s)| > 0 && AllDigits(Unsigned(s)) && InSigned(SignedValue(s), w)
    ensures r.Some? ==> r.value == SignedValue(s) && InSigned(r.value, w)
  {
    if |s| == 0 then None
    else
      var neg := s[0] == '-';
      var digits := if s[0] == '-' || s[0] == '+' then s[1..] else s;
      if |digits| == 0 || !AllDigits(digits) then None
      else
        var v := if neg then 0 - DigitsValue(digits) else DigitsValue(digits);
        if InSigned(v, w) then Some(v) else None
  }

  /** Every value of the bit size survives a decimal round trip. */
  lemma ParseFormatInt(i: int, w: Width)
    requires InSigned(i, w)
    ensures ParseInt(FormatInt(i), w) == Some(i)
  {
    var s := FormatInt(i);
    if i < 0 {
      FormatNatValue(-i);
      assert s[0] == '-' && s[1..] == FormatNat(-i);
      assert 0 - DigitsValue(s[1..]) == i;
    } else {
      FormatNatValue(i);
      assert s[0] != '-' && s[0] != '+';
    }
  }

  lemma ParseFormatUint(n: nat, w: Width)
    requires n < Modulus(w)
    ensures ParseUint(FormatNat(n), w) == Some(n)
  {
    FormatNatValue(n);
  }

  /** ParseUint refuses a leading sign, even '+'. */
  lemma ParseUintRefusesSign(s: string, w: Width)
    requires |s| > 0 && (s[0] == '+' || s[0] == '-')
    ensures ParseUint(s, w) == None
  {
    assert !IsDigit(s[0]);
  }

  /** strconv.ParseBool: exactly the twelve tokens below are accepted. */
  function ParseBool(s: string): (r: Option<bool>)
    ensures r == Some(true) <==> s in {"1", "t", "T", "TRUE", "true", "True"}
    ensures r == Some(false) <==> s in {"0", "f", "F", "FALSE", "false", "False"}
  {
    match s
    case "1" => Some(true)
    case "t" => Some(true)
    case "T" => Some(true)
    case "TRUE" => Some(true)
    case "true" => Some(true)
    case "True" => Some(true)
    case "0" => Some(false)
    case "f" => Some(false)
    case "F" => Some(false)
    case "FALSE" => Some(false)
    case "false" => Some(false)
    case "False" => Some(false)
    case _ => None
  }

  /** strconv.FormatBool, which is also what %v prints for a bool; ParseBool
      reads it back. */
  function FormatBool(b: bool): (s: string)
    ensures s == "true" || s == "false"
    ensures ParseBool(s) == Some(b)
  {
    if b then "true" else "false"
  }
}
