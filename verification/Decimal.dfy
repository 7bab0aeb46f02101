/** Decimal numerals: printing, reading, and reading a numeral off the front of a text. */
module Decimal {
  import opened Wrappers
  import opened Text

  predicate IsDigit(c: char) {
    '0' <= c <= '9'
  }

  function Digit(d: nat): (c: char)
    requires d < 10
    ensures IsDigit(c) && DigitValue(c) == d
  {
    ('0' as int + d) as char
  }

  function DigitValue(c: char): (d: nat)
    requires IsDigit(c)
    ensures d < 10
  {
    c as int - '0' as int
  }

  predicate AllDigits(s: string) {
    forall i :: 0 <= i < |s| ==> IsDigit(s[i])
  }

  function Print(n: nat): (s: string)
    ensures s != "" && AllDigits(s)
  {
    if n < 10 then [Digit(n)] else Print(n / 10) + [Digit(n % 10)]
  }

  function Value(s: string): nat
    requires AllDigits(s)
  {
    if s == "" then 0 else 10 * Value(s[..|s| - 1]) + DigitValue(s[|s| - 1])
  }

  lemma {:induction false} ValueOfPrint(n: nat)
    ensures Value(Print(n)) == n
  {
    if n >= 10 {
      ValueOfPrint(n / 10);
      var s := Print(n);
      assert s[..|s| - 1] == Print(n / 10) && s[|s| - 1] == Digit(n % 10);
    }
  }

  const DIGITS := "0123456789"

  /** A numeral grows by one digit at its end; negative integers have a minus sign in front. */
  lemma PrintedDigits(n: nat, d: nat)
    requires d < 10
    ensures Print(10 * n + d) == (if n == 0 then "" else Print(n)) + [DIGITS[d]]
    ensures n > 0 ==> PrintInt(0 - n) == "-" + Print(n)
  {
    assert DIGITS[d] == ('0' as int + d) as char;
    assert (10 * n + d) / 10 == n && (10 * n + d) % 10 == d;
    if n == 0 {
      assert [] + [DIGITS[d]] == [DIGITS[d]];
    }
  }

  function PrintInt(n: int): (s: string)
    ensures s != ""
  {
    if n < 0 then "-" + Print(-n) else Print(n)
  }

  /** The length of the longest run of digits at the front. */
  function DigitRun(s: string): (k: nat)
    ensures k <= |s| && AllDigits(s[..k]) && (k < |s| ==> !IsDigit(s[k]))
  {
    if s != "" && IsDigit(s[0]) then
      var k := DigitRun(s[1..]);
      assert s[..k + 1] == [s[0]] + s[1..][..k];
      k + 1
    else 0
  }

  /** Reads the longest numeral at the front. */
  function Scan(s: string): Option<(nat, string)> {
    var k := DigitRun(s);
    if k == 0 then None else Some((Value(s[..k]), s[k..]))
  }

  predicate StartsWithDigit(s: string) {
    s != "" && IsDigit(s[0])
  }

  lemma ScanPrinted(n: nat, rest: string)
    requires !StartsWithDigit(rest)
    ensures Scan(Print(n) + rest) == Some((n, rest))
  {
    RunAcross(Print(n), rest);
    ValueOfPrint(n);
    assert (Print(n) + rest)[..|Print(n)|] == Print(n);
  }

  lemma {:induction false} RunAcross(digits: string, rest: string)
    requires AllDigits(digits) && !StartsWithDigit(rest)
    ensures DigitRun(digits + rest) == |digits|
  {
    if digits == "" {
      assert digits + rest == rest;
    } else {
      RunAcross(digits[1..], rest);
      assert (digits + rest)[1..] == digits[1..] + rest;
    }
  }

  // ----- the %d verb of Go's fmt.Sscanf ------------------------------------------------------

  const INT64_MAX := 0x7FFF_FFFF_FFFF_FFFF

  /** White space before a numeral is skipped, a line feed is an error, a carriage return before one is not seen. */
  function SkipSpace(s: string): Option<string> {
    if s == "" then Some(s)
    else if s[0] == '\n' then None
    else if s[0] == '\r' && |s| > 1 && s[1] == '\n' then None
    else if IsSpace(s[0]) then SkipSpace(s[1..])
    else Some(s)
  }

  /** Scans an unsigned integer of at most `max`; what follows the numeral is left over. */
  function ScanUnsigned(s: string, max: nat): Option<(nat, string)> {
    match SkipSpace(s)
    case None => None
    case Some(t) =>
      match Scan(t)
      case Some((n, rest)) => if n <= max then Some((n, rest)) else None
      case None => None
  }

  /** Scans a signed 64-bit integer. */
  function ScanSigned(s: string): Option<(int, string)> {
    match SkipSpace(s)
    case None => None
    case Some(t) =>
      var negative := t != "" && t[0] == '-';
      var digits := if t != "" && (t[0] == '-' || t[0] == '+') then t[1..] else t;
      match Scan(digits)
      case Some((n, rest)) =>
        var value := if negative then 0 - n else n;
        if IsInt64(value) then Some((value, rest)) else None
      case None => None
  }

  predicate IsInt64(n: int) {
    -INT64_MAX - 1 <= n <= INT64_MAX
  }

  lemma Int64Range(n: int)
    ensures IsInt64(n) <==> -9223372036854775808 <= n <= 9223372036854775807
  {}

  lemma FirstOfPrint(n: nat)
    ensures IsDigit(Print(n)[0]) && !IsSpace(Print(n)[0])
  {}

  lemma NothingToSkip(s: string)
    requires s != "" && !IsSpace(s[0])
    ensures SkipSpace(s) == Some(s)
  {}

  lemma ScanUnsignedPrinted(n: nat, rest: string, max: nat)
    requires n <= max && !StartsWithDigit(rest)
    ensures ScanUnsigned(Print(n) + rest, max) == Some((n, rest))
  {
    hide IsSpace, SkipSpace, Print, Scan;
    FirstOfPrint(n);
    ScanPrinted(n, rest);
    NothingToSkip(Print(n) + rest);
  }

  lemma ScanSignedPrinted(n: int, rest: string)
    requires IsInt64(n) && !StartsWithDigit(rest)
    ensures ScanSigned(PrintInt(n) + rest) == Some((n, rest))
  {
    SignOfPrint(n, rest);
    hide IsSpace, SkipSpace, Print, PrintInt, Scan, StartsWithDigit;
    ScanPrinted(if n < 0 then 0 - n else n, rest);
    NothingToSkip(PrintInt(n) + rest);
  }

  /** A printed integer starts with its sign or a digit. */
  lemma SignOfPrint(n: int, rest: string)
    ensures var s := PrintInt(n) + rest;
      && s != "" && !IsSpace(s[0]) && s[0] != '+' && (s[0] == '-' <==> n < 0)
      && (if n < 0 then s[1..] else s) == Print(if n < 0 then 0 - n else n) + rest
  {
    var m := if n < 0 then 0 - n else n;
    FirstOfPrint(m);
    assert !IsSpace('-');
    hide IsSpace, Print;
    if n < 0 {
      assert (PrintInt(n) + rest)[1..] == Print(m) + rest;
    }
  }

  // ----- str::parse::<i64> -------------------------------------------------------------------

  /** The whole text must be a numeral, after at most one sign. */
  function ParseI64(s: string): (r: Option<int>)
    ensures r.Some? ==> IsInt64(r.value)
  {
    var negative := s != "" && s[0] == '-';
    var digits := if s != "" && (s[0] == '-' || s[0] == '+') then s[1..] else s;
    if digits == "" || !AllDigits(digits) then None
    else
      var n := if negative then 0 - Value(digits) else Value(digits);
      if IsInt64(n) then Some(n) else None
  }

  lemma ParsePrinted(n: int)
    requires IsInt64(n)
    ensures ParseI64(PrintInt(n)) == Some(n)
  {
    hide IsSpace, Print;
    var m: int := if n < 0 then -n else n;
    FirstOfPrint(m);
    ValueOfPrint(m);
    if n < 0 {
      assert PrintInt(n)[1..] == Print(m);
    }
  }
}
