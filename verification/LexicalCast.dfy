/** Conversions between numbers and frame text.

The channel writes ids with boost::lexical_cast and reads them back with it; the worker writes
error codes with lexical_cast and the channel reads them with atoi.  Both readers accept more text
than the writers produce, so they are modelled on every string.
*/
module LexicalCast {

  import opened Basics

  const TWO_TO_THE_64: int := 0x1_0000_0000_0000_0000

  type SizeT = n: nat | n < TWO_TO_THE_64

  predicate IsDigit(c: char) {
    '0' <= c <= '9'
  }

  predicate AllDigits(s: string) {
    forall i | 0 <= i < |s| :: IsDigit(s[i])
  }

  /** A string of bytes. */
  predicate IsBytes(s: string) {
    forall i | 0 <= i < |s| :: s[i] as int < 256
  }

  function DigitValue(c: char): nat
    requires IsDigit(c)
  {
    c as int - '0' as int
  }

  function DigitChar(d: nat): char
    requires d < 10
  {
    ('0' as int + d) as char
  }

  /** lexical_cast<std::string> of an unsigned number: no sign, no leading zero. */
  function ToDecimal(n: nat): (s: string)
    ensures s != "" && AllDigits(s)
  {
    if n < 10 then [DigitChar(n)] else ToDecimal(n / 10) + [DigitChar(n % 10)]
  }

  /** lexical_cast<std::string> of an int. */
  function IntToDecimal(n: int): string {
    if n < 0 then "-" + ToDecimal(-n) else ToDecimal(n)
  }

  function DigitsValue(s: string): nat
    requires AllDigits(s)
  {
    if s == "" then 0 else 10 * DigitsValue(s[..|s| - 1]) + DigitValue(s[|s| - 1])
  }

  /** lexical_cast<std::size_t>: an optional sign and digits that fit 64 bits.  A minus sign
      negates modulo 2^64; any other text throws bad_lexical_cast (None). */
  function ParseSizeT(s: string): Option<SizeT> {
    var signed := s != "" && (s[0] == '-' || s[0] == '+');
    var digits := if signed then s[1..] else s;
    if digits == "" || !AllDigits(digits) || DigitsValue(digits) >= TWO_TO_THE_64 then None
    else if signed && s[0] == '-' then Some((TWO_TO_THE_64 - DigitsValue(digits)) % TWO_TO_THE_64)
    else Some(DigitsValue(digits))
  }

  function SkipSpaces(s: string): string {
    if s != "" && s[0] in {' ', '\t', '\n', '\r', 11 as char, 12 as char} then SkipSpaces(s[1..]) else s
  }

  function LeadingDigits(s: string): (d: string)
    ensures AllDigits(d)
  {
    if s == "" || !IsDigit(s[0]) then "" else [s[0]] + LeadingDigits(s[1..])
  }

  /** atoi: spaces, a sign and the longest run of digits; text without digits reads as 0. */
  function Atoi(s: string): int {
    var t := SkipSpaces(s);
    var negative := t != "" && t[0] == '-';
    var digits := if negative || (t != "" && t[0] == '+') then t[1..] else t;
    var value: int := DigitsValue(LeadingDigits(digits));
    if negative then -value else value
  }

  lemma {:induction false} ToDecimalValue(n: nat)
    ensures DigitsValue(ToDecimal(n)) == n
  {
    if n >= 10 {
      var s := ToDecimal(n);
      ToDecimalValue(n / 10);
      assert s[..|s| - 1] == ToDecimal(n / 10);
      assert DigitValue(s[|s| - 1]) == n % 10;
    }
  }

  lemma {:induction false} LeadingDigitsOfDigits(s: string)
    requires AllDigits(s)
    ensures LeadingDigits(s) == s
  {
    if s != "" {
      LeadingDigitsOfDigits(s[1..]);
    }
  }

  /** Every id the channel issues is read back as itself. */
  lemma {:induction false} IdRoundTrip(n: nat)
    requires n < TWO_TO_THE_64
    ensures ParseSizeT(ToDecimal(n)) == Some(n)
  {
    ToDecimalValue(n);
    assert IsDigit(ToDecimal(n)[0]);
  }

  /** Ids are written injectively, so comparing id text is comparing ids. */
  lemma {:induction false} ToDecimalInjective(m: nat, n: nat)
    requires ToDecimal(m) == ToDecimal(n)
    ensures m == n
  {
    ToDecimalValue(m);
    ToDecimalValue(n);
  }

  /** Every error code the worker writes is read back as itself. */
  lemma {:induction false} CodeRoundTrip(n: int)
    ensures Atoi(IntToDecimal(n)) == n
  {
    var m: nat := if n < 0 then -n else n;
    ToDecimalValue(m);
    LeadingDigitsOfDigits(ToDecimal(m));
    assert IsDigit(ToDecimal(m)[0]);
    if n < 0 {
      var s := "-" + ToDecimal(m);
      assert s[0] == '-' && s[1..] == ToDecimal(m);
      assert SkipSpaces(s) == s;
    } else {
      assert SkipSpaces(ToDecimal(m)) == ToDecimal(m);
    }
  }

  /** What lexical_cast makes of other numbers: a sign is read, a negative number counts from 2^64 down, and
      one that does not fit throws. */
  lemma {:induction false} ReadsSigned(n: nat)
    ensures n < TWO_TO_THE_64 ==> ParseSizeT("+" + ToDecimal(n)) == Some(n)
    ensures 0 < n < TWO_TO_THE_64 ==> ParseSizeT("-" + ToDecimal(n)) == Some(TWO_TO_THE_64 - n)
    ensures n >= 0x1_0000_0000_0000_0000 ==> ParseSizeT(ToDecimal(n)) == None
  {
    ToDecimalValue(n);
    assert IsDigit(ToDecimal(n)[0]);
    assert ("+" + ToDecimal(n))[1..] == ToDecimal(n) && ("-" + ToDecimal(n))[1..] == ToDecimal(n);
  }

  lemma {:induction false} LeadingDigitsOfBoth(digits: string, rest: string)
    requires AllDigits(digits) && (rest == "" || !IsDigit(rest[0]))
    ensures LeadingDigits(digits + rest) == digits
  {
    if digits == "" {
      assert digits + rest == rest;
    } else {
      LeadingDigitsOfBoth(digits[1..], rest);
      assert (digits + rest)[1..] == digits[1..] + rest && digits == [digits[0]] + digits[1..];
    }
  }

  /** atoi stops at the first character that is no digit. */
  lemma {:induction false} ReadsPrefix(n: nat, rest: string)
    requires rest == "" || !IsDigit(rest[0])
    ensures Atoi(ToDecimal(n) + rest) == n
  {
    ToDecimalValue(n);
    LeadingDigitsOfBoth(ToDecimal(n), rest);
    assert IsDigit(ToDecimal(n)[0]) && (ToDecimal(n) + rest)[0] == ToDecimal(n)[0];
    assert SkipSpaces(ToDecimal(n) + rest) == ToDecimal(n) + rest;
  }

  /** Text that begins neither with a digit nor with a sign or a space reads as 0, and is no id. */
  lemma {:induction false} NotANumber(s: string)
    requires s != "" && !('0' <= s[0] <= '9') && s[0] != '-' && s[0] != '+'
    requires s[0] != ' ' && !(9 <= s[0] as int <= 13)
    ensures Atoi(s) == 0 && ParseSizeT(s) == None
  {
    assert SkipSpaces(s) == s && LeadingDigits(s) == "";
  }
}
