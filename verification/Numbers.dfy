/** Decimal numbers as `atoi` reads them (section 7.22.1.2 of ISO/IEC 9899:2011) and as
    programs print them. */
module Numbers {
  import opened Util

  predicate IsDigit(c: char) {
    '0' <= c <= '9'
  }

  function Digits(s: string, acc: nat): nat {
    if s != "" && IsDigit(s[0]) then Digits(s[1..], 10 * acc + (s[0] as int - '0' as int)) else acc
  }

  /** White space, an optional sign and the digits after it; 0 if there are none. The C
      library leaves results outside `int` undefined; here they stay exact. */
  function Atoi(s: string): int {
    var t := SkipSpace(s);
    var negative := t != "" && t[0] == '-';
    var magnitude: int := Digits(if negative || (t != "" && t[0] == '+') then t[1..] else t, 0);
    if negative then -magnitude else magnitude
  }

  function Decimal(n: nat): (t: string)
    ensures t != "" && forall i :: 0 <= i < |t| ==> IsDigit(t[i])
  {
    if n < 10 then ['0' + n as char] else Decimal(n / 10) + ['0' + (n % 10) as char]
  }

  function IntText(n: int): string {
    if n < 0 then "-" + Decimal(-n) else Decimal(n)
  }

  /** Reading printed digits continues with the printed number as accumulator. */
  lemma {:induction false} DigitsOfDecimal(n: nat, rest: string)
    ensures Digits(Decimal(n) + rest, 0) == Digits(rest, n)
  {
    var d := '0' + (n % 10) as char;
    if n < 10 {
      assert (Decimal(n) + rest)[1..] == rest;
    } else {
      assert Decimal(n) + rest == Decimal(n / 10) + ([d] + rest);
      DigitsOfDecimal(n / 10, [d] + rest);
      assert ([d] + rest)[1..] == rest;
    }
  }

  lemma AtoiReadsInt(n: int, rest: string)
    requires rest == "" || !IsDigit(rest[0])
    ensures Atoi(IntText(n) + rest) == n
  {
    if n < 0 {
      AtoiReadsNegative(-n, rest);
    } else {
      AtoiReadsNat(n, rest);
    }
  }

  lemma AtoiReadsNegative(n: nat, rest: string)
    requires rest == "" || !IsDigit(rest[0])
    ensures Atoi("-" + Decimal(n) + rest) == -(n as int)
  {
    var s := "-" + Decimal(n) + rest;
    assert SkipSpace(s) == s && s[1..] == Decimal(n) + rest;
    DigitsOfDecimal(n, rest);
  }

  lemma AtoiReadsNat(n: nat, rest: string)
    requires rest == "" || !IsDigit(rest[0])
    ensures Atoi(Decimal(n) + rest) == n
  {
    var s := Decimal(n) + rest;
    assert s[0] == Decimal(n)[0];
    assert SkipSpace(s) == s;
    DigitsOfDecimal(n, rest);
  }
}
