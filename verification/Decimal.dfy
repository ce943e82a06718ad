/** std::to_string and std::stoull on 64-bit values. */
module Decimals {
  import opened FixedWidth
  import opened Orders

  function Digit(d: nat): char
    requires d < 10
  {
    '0' + d as char
  }

  predicate IsDigit(c: char) {
    '0' <= c <= '9'
  }

  function DigitValue(c: char): nat
    requires IsDigit(c)
  {
    c as int - '0' as int
  }

  /** std::to_string. */
  function Decimal(n: nat): string {
    if n < 10 then [Digit(n)] else Decimal(n / 10) + [Digit(n % 10)]
  }

  predicate AllDigits(s: string) {
    forall i :: 0 <= i < |s| ==> IsDigit(s[i])
  }

  /** The value of a row of digits. */
  function ValueOf(s: string): nat
    requires AllDigits(s)
  {
    if s == "" then 0 else 10 * ValueOf(s[..|s| - 1]) + DigitValue(s[|s| - 1])
  }

  predicate IsSpace(c: char) {
    c == ' ' || '\t' <= c <= '\r'
  }

  function SkipSpaces(s: string): string {
    if s != "" && IsSpace(s[0]) then SkipSpaces(s[1..]) else s
  }

  /** The longest prefix of digits. */
  function LeadingDigits(s: string): (d: string)
    ensures AllDigits(d) && d <= s
  {
    if s != "" && IsDigit(s[0]) then [s[0]] + LeadingDigits(s[1..]) else ""
  }

  /** std::stoull: spaces, an optional sign, then as many digits as there are. */
  function ParseU64(s: string): Result<u64> {
    var t := SkipSpaces(s);
    var signed := t != "" && (t[0] == '-' || t[0] == '+');
    var digits := LeadingDigits(if signed then t[1..] else t);
    if digits == "" then Failure(NoConversion)
    else if ValueOf(digits) >= TWO_TO_64 then Failure(OutOfRange)
    else Success(if signed && t[0] == '-' then ToU64(0 - ValueOf(digits)) else ValueOf(digits))
  }

  lemma {:induction false} DecimalDigits(n: nat)
    ensures Decimal(n) != "" && AllDigits(Decimal(n)) && ValueOf(Decimal(n)) == n
    ensures Decimal(n)[0] == '0' ==> Decimal(n) == "0" && n == 0
  {
    if n >= 10 {
      DecimalDigits(n / 10);
      var s := Decimal(n);
      assert s[..|s| - 1] == Decimal(n / 10);
      assert DigitValue(Digit(n % 10)) == n % 10;
    }
  }

  lemma {:induction false} AllDigitsLead(s: string)
    requires AllDigits(s)
    ensures LeadingDigits(s) == s
  {
    if s != "" {
      AllDigitsLead(s[1..]);
    }
  }

  /** Printing and parsing are inverse over all 64-bit values. */
  lemma DecimalRoundTrip(n: u64)
    ensures ParseU64(Decimal(n)) == Success(n)
  {
    DecimalDigits(n);
    var s := Decimal(n);
    assert IsDigit(s[0]);
    AllDigitsLead(s);
  }

  predicate StartsWithDigit(s: string) {
    s != "" && IsDigit(s[0])
  }

  lemma {:induction false} SpacesAreSkipped(spaces: string, s: string)
    requires forall i :: 0 <= i < |spaces| ==> IsSpace(spaces[i])
    requires s == "" || !IsSpace(s[0])
    ensures SkipSpaces(spaces + s) == s
  {
    if spaces == "" {
      assert spaces + s == s;
    } else {
      assert (spaces + s)[1..] == spaces[1..] + s;
      SpacesAreSkipped(spaces[1..], s);
    }
  }

  lemma {:induction false} DigitsAreTaken(digits: string, rest: string)
    requires AllDigits(digits) && !StartsWithDigit(rest)
    ensures LeadingDigits(digits + rest) == digits
  {
    if digits == "" {
      assert digits + rest == rest;
    } else {
      assert (digits + rest)[1..] == digits[1..] + rest;
      DigitsAreTaken(digits[1..], rest);
    }
  }

  /**
   What std::stoull makes of any text, read as spaces, a sign or none, digits or none, and a rest:
   the value of the digits, negated modulo 2^64 after a minus; an error without digits and for 2^64
   and above. The rest does not matter.
   */
  lemma ParseOfParts(spaces: string, sign: string, digits: string, rest: string)
    requires forall i :: 0 <= i < |spaces| ==> spaces[i] in " \t\n\r" || spaces[i] == 11 as char || spaces[i] == 12 as char
    requires sign == "" || sign == "+" || sign == "-"
    requires AllDigits(digits) && !StartsWithDigit(rest)
    requires digits == "" && sign == "" && rest != "" ==>
               rest[0] !in " \t\n\r+-" && rest[0] != 11 as char && rest[0] != 12 as char
    ensures var v := ValueOf(digits);
            ParseU64(spaces + sign + digits + rest) == if digits == "" then Failure(NoConversion)
               else if v >= 0x1_0000_0000_0000_0000 then Failure(OutOfRange)
               else if sign == "-" && v > 0 then Success(0x1_0000_0000_0000_0000 - v)
               else Success(v)
  {
    hide ValueOf, LeadingDigits, SkipSpaces;
    var t := sign + digits + rest;
    assert spaces + sign + digits + rest == spaces + t;
    SpacesAreSkipped(spaces, t);
    SignAndDigits(sign, digits, rest);
  }

  lemma SignAndDigits(sign: string, digits: string, rest: string)
    requires sign == "" || sign == "+" || sign == "-"
    requires AllDigits(digits) && !StartsWithDigit(rest)
    requires digits == "" && sign == "" && rest != "" ==> rest[0] != '+' && rest[0] != '-'
    ensures var t := sign + digits + rest;
            var signed := t != "" && (t[0] == '-' || t[0] == '+');
            && (signed <==> sign != "") && (signed ==> t[0] == sign[0])
            && LeadingDigits(if signed then t[1..] else t) == digits
  {
    DigitsAreTaken(digits, rest);
    var t := sign + digits + rest;
    if sign == "" {
      assert t == digits + rest;
    } else {
      assert t[1..] == digits + rest;
    }
  }
}
