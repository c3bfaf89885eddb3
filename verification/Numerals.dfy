/** Printing unsigned numbers and reading them back with `strtoul(..., 0)` and `std::stoull`. */
module Numerals {
  import opened Bytes

  function DigitChar(d: nat): char
    requires d < 10
  {
    '0' + d as char
  }

  function Decimal(n: nat): (s: string)
    ensures |s| > 0
  {
    if n < 10 then [DigitChar(n)] else Decimal(n / 10) + [DigitChar(n % 10)]
  }

  /** The value of a digit, in any base up to 16. */
  function DigitValue(c: char): Option<nat> {
    if '0' <= c <= '9' then Some(c as int - '0' as int)
    else if 'a' <= c <= 'f' then Some(c as int - 'a' as int + 10)
    else if 'A' <= c <= 'F' then Some(c as int - 'A' as int + 10)
    else None
  }

  predicate IsDigit(c: char, base: nat) {
    DigitValue(c).Some? && DigitValue(c).value < base
  }

  /** Reads digits up to the first character that is none. */
  function ReadDigits(s: string, base: nat, acc: nat): nat {
    if s == "" || !IsDigit(s[0], base) then acc
    else ReadDigits(s[1..], base, acc * base + DigitValue(s[0]).value)
  }

  const U64_MAX: U64 := 0xFFFF_FFFF_FFFF_FFFF

  function Saturated(n: nat): U64 {
    if n > U64_MAX then U64_MAX else n
  }

  /** `strtoul(s, nullptr, 0)`: a leading 0x means hexadecimal, another leading 0 octal. */
  function Strtoul(s: string): U64 {
    if |s| > 2 && s[0] == '0' && (s[1] == 'x' || s[1] == 'X') && IsDigit(s[2], 16) then
      Saturated(ReadDigits(s[2..], 16, 0))
    else if |s| > 0 && s[0] == '0' then Saturated(ReadDigits(s, 8, 0))
    else Saturated(ReadDigits(s, 10, 0))
  }

  /** `std::stoull(s)`: decimal, and throws without digits or beyond 64 bits. */
  function Stoull(s: string): Result<U64> {
    if s == "" || !IsDigit(s[0], 10) then Err("stoull: invalid argument")
    else if ReadDigits(s, 10, 0) > U64_MAX then Err("stoull: out of range")
    else Ok(ReadDigits(s, 10, 0))
  }

  lemma {:induction false} ReadDigitsAppend(s: string, c: char, base: nat, acc: nat)
    requires IsDigit(c, base) && forall i :: 0 <= i < |s| ==> IsDigit(s[i], base)
    ensures ReadDigits(s + [c], base, acc) == ReadDigits(s, base, acc) * base + DigitValue(c).value
  {
    if s == "" {
      assert (s + [c])[1..] == "";
    } else {
      assert (s + [c])[1..] == s[1..] + [c];
      ReadDigitsAppend(s[1..], c, base, acc * base + DigitValue(s[0]).value);
    }
  }

  lemma {:induction false} DecimalReads(n: nat)
    ensures ReadDigits(Decimal(n), 10, 0) == n
    ensures forall i :: 0 <= i < |Decimal(n)| ==> IsDigit(Decimal(n)[i], 10)
    ensures n > 0 ==> Decimal(n)[0] != '0'
  {
    if n >= 10 {
      DecimalReads(n / 10);
      ReadDigitsAppend(Decimal(n / 10), DigitChar(n % 10), 10, 0);
    } else {
      assert DigitChar(n) as int == '0' as int + n;
      assert ReadDigits([DigitChar(n)][1..], 10, n) == n;
    }
  }

  /** Reading a printed 64-bit number gives it back, whichever of the two functions reads it. */
  lemma DecimalRoundTrip(n: U64)
    ensures Strtoul(Decimal(n)) == n && Stoull(Decimal(n)) == Ok(n)
  {
    DecimalReads(n);
    if n == 0 {
      assert Decimal(0) == "0";
      assert ReadDigits("0"[1..], 8, 0) == 0;
    }
  }

  // ---------------------------------------------------------------------------------------------
  // Bases
  // ---------------------------------------------------------------------------------------------

  const DIGITS := "0123456789abcdef"

  ghost predicate IsBase(base: nat) {
    base == 8 || base == 10 || base == 16
  }

  /** A number written with digits of a base. */
  ghost function Written(n: nat, base: nat): (s: string)
    requires IsBase(base)
    ensures |s| > 0
  {
    if n < base then [DIGITS[n]] else Written(n / base, base) + [DIGITS[n % base]]
  }

  lemma {:induction false} PrintedInDecimal(n: nat)
    ensures Decimal(n) == Written(n, 10)
  {
    DigitAt(n % 10);
    if n >= 10 {
      PrintedInDecimal(n / 10);
    }
  }

  lemma DigitAt(d: nat)
    requires d < 16
    ensures DigitValue(DIGITS[d]) == Some(d)
    ensures d < 10 ==> DigitChar(d) == DIGITS[d]
    ensures DIGITS[d] == '0' <==> d == 0
    ensures DIGITS[d] != 'x' && DIGITS[d] != 'X'
  {
    if d < 8 {
      assert DIGITS[d] in "01234567";
    } else {
      assert DIGITS[d] in "89abcdef";
    }
  }

  lemma LastDigit(n: nat, base: nat)
    requires IsBase(base)
    ensures n / base * base + n % base == n && 0 <= n % base < base && (n >= base ==> n / base < n)
  {
    if base == 8 {
    } else if base == 10 {
    } else {
    }
  }

  lemma {:induction false} WrittenReads(n: nat, base: nat)
    requires IsBase(base)
    ensures ReadDigits(Written(n, base), base, 0) == n
    ensures forall i :: 0 <= i < |Written(n, base)| ==> IsDigit(Written(n, base)[i], base)
  {
    hide DigitValue;
    LastDigit(n, base);
    var rest, last := n / base, n % base;
    DigitAt(last);
    if n >= base {
      WrittenReads(rest, base);
      ReadDigitsAppend(Written(rest, base), DIGITS[last], base, 0);
    } else {
      DigitAt(n);
      assert ReadDigits([DIGITS[n]][1..], base, n) == n;
    }
  }

  /** `strtoul` with base 0: digits behind 0x or 0X are hexadecimal, behind another 0 octal. */
  lemma PrefixDecidesBase(n: U64)
    ensures Strtoul("0x" + Written(n, 16)) == Strtoul("0X" + Written(n, 16)) == n
    ensures Strtoul("0" + Written(n, 8)) == n
    ensures n > 0 ==> Strtoul(Written(n, 10)) == n
  {
    hide DigitValue, Written;
    WrittenReads(n, 16);
    WrittenReads(n, 8);
    PrintedInDecimal(n);
    DecimalRoundTrip(n);
    assert ("0x" + Written(n, 16))[2..] == ("0X" + Written(n, 16))[2..] == Written(n, 16);
    OctalReads(Written(n, 8));
  }

  lemma OctalReads(s: string)
    requires s != "" && forall i :: 0 <= i < |s| ==> IsDigit(s[i], 8)
    ensures Strtoul("0" + s) == Saturated(ReadDigits(s, 8, 0))
  {
    var t := "0" + s;
    assert t[1..] == s && t[1] == s[0];
    assert ReadDigits(t, 8, 0) == ReadDigits(s, 8, 0);
  }

  /** `std::stoull` reads decimal digits below 2^64, and refuses numbers beyond and texts without a digit in front. */
  lemma StoullReads(n: nat, text: string)
    ensures Stoull(Written(n, 10)) ==
            if n < 0x1_0000_0000_0000_0000 then Ok(n) else Err("stoull: out of range")
    ensures text == "" || !('0' <= text[0] <= '9') ==> Stoull(text) == Err("stoull: invalid argument")
  {
    hide Written;
    WrittenReads(n, 10);
  }
}
