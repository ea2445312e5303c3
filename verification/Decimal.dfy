/** Decimal text as Go's `strconv` prints and parses it. */
module Decimal {

  import opened Wrappers

  predicate IsDigit(c: char) {
    '0' <= c <= '9'
  }

  predicate AllDigits(s: string) {
    forall i | 0 <= i < |s| :: IsDigit(s[i])
  }

  function DigitOf(d: nat): (c: char)
    requires d < 10
    ensures IsDigit(c) && ValueOf(c) == d
  {
    '0' + d as char
  }

  function ValueOf(c: char): (d: nat)
    requires IsDigit(c)
    ensures d < 10 && '0' + d as char == c
  {
    (c - '0') as nat
  }

  /** The digits of a natural number, most significant first. */
  function Digits(n: nat): (s: string)
    ensures |s| >= 1 && AllDigits(s)
  {
    if n < 10 then [DigitOf(n)] else Digits(n / 10) + [DigitOf(n % 10)]
  }

  /** `strconv.Itoa`. */
  function Itoa(n: int): (s: string)
    ensures |s| >= 1
    ensures n >= 0 ==> AllDigits(s)
  {
    if n < 0 then "-" + Digits(-n) else Digits(n)
  }

  /** The number a run of digits denotes. */
  function Number(s: string): nat
    requires AllDigits(s)
  {
    if s == "" then 0 else 10 * Number(s[..|s| - 1]) + ValueOf(s[|s| - 1])
  }

  predicate IsSign(c: char) {
    c == '+' || c == '-'
  }

  /** `strconv.ParseInt(s, 10, 32)`: an optional sign, then at least one digit, in the int32 range. */
  function ParseInt32(s: string): Option<int> {
    var digits := if s != "" && IsSign(s[0]) then s[1..] else s;
    if digits == "" || !AllDigits(digits) then None
    else
      var value := if s[0] == '-' then -(Number(digits) as int) else Number(digits);
      if -0x8000_0000 <= value < 0x8000_0000 then Some(value) else None
  }

  /** Whether `strconv.ParseUint(s, 10, 64)` succeeds. */
  predicate ParsesAsUint64(s: string) {
    s != "" && AllDigits(s) && Number(s) < 0x1_0000_0000_0000_0000
  }

  /** Digits without a superfluous leading zero. */
  predicate Canonical(s: string) {
    s != "" && AllDigits(s) && (s[0] != '0' || |s| == 1)
  }

  lemma {:induction false} NumberOfDigits(n: nat)
    ensures Number(Digits(n)) == n
  {
    if n >= 10 {
      NumberOfDigits(n / 10);
      assert Digits(n)[..|Digits(n)| - 1] == Digits(n / 10);
    } else {
      assert Digits(n)[..0] == "";
    }
  }

  lemma {:induction false} DigitsAreCanonical(n: nat)
    ensures Canonical(Digits(n))
    ensures n > 0 ==> Digits(n)[0] != '0'
  {
    if n >= 10 {
      DigitsAreCanonical(n / 10);
    }
  }

  lemma {:induction false} DigitsOfNumber(s: string)
    requires Canonical(s)
    ensures Digits(Number(s)) == s
    ensures s[0] != '0' ==> Number(s) > 0
  {
    var init := s[..|s| - 1];
    if init == "" {
      assert s == [s[0]];
      assert Number(init) == 0;
    } else {
      DigitsOfNumber(init);
      assert s == init + [s[|s| - 1]];
    }
  }

  lemma ParseOfItoa(n: nat)
    ensures ParseInt32(Itoa(n)) == if n < 0x8000_0000 then Some(n) else None
  {
    NumberOfDigits(n);
    assert !IsSign(Itoa(n)[0]);
  }
}
