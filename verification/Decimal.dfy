/** Decimal integers (strconv.Itoa, FormatInt and ParseInt in base 10). */
module Decimal {
  import opened Bands
  import opened Int64

  function DigitChar(d: int): char
    requires 0 <= d < 10
  {
    '0' + d as char
  }

  predicate IsDigitChar(c: char) {
    '0' <= c <= '9'
  }

  function DigitValue(c: char): (d: nat)
    requires IsDigitChar(c)
    ensures d < 10
  {
    (c - '0') as nat
  }

  function Digits(n: nat): string {
    if n < 10 then [DigitChar(n)] else Digits(n / 10) + [DigitChar(n % 10)]
  }

  function FormatInt(n: int): string {
    if n < 0 then "-" + Digits(-n) else Digits(n)
  }

  predicate AllDigits(s: string) {
    forall i :: 0 <= i < |s| ==> IsDigitChar(s[i])
  }

  function Value(s: string): nat
    requires AllDigits(s)
  {
    if |s| == 0 then 0 else Value(s[..|s| - 1]) * 10 + DigitValue(s[|s| - 1])
  }

  /** An optional sign, at least one digit, and a value that fits 64 bits. */
  function ParseInt(s: string): Option<int> {
    var negative := |s| > 0 && s[0] == '-';
    var body := if |s| > 0 && (s[0] == '-' || s[0] == '+') then s[1..] else s;
    if |body| == 0 || !AllDigits(body) then None
    else
      var n: int := Value(body);
      var v := if negative then -n else n;
      if IsInt64(v) then Some(v) else None
  }

  lemma {:induction false} DigitsValue(n: nat)
    ensures |Digits(n)| > 0 && AllDigits(Digits(n)) && Value(Digits(n)) == n
  {
    if n >= 10 {
      DigitsValue(n / 10);
      var s := Digits(n);
      assert s[..|s| - 1] == Digits(n / 10);
    } else {
      assert Digits(n)[..0] == "";
    }
  }

  /** Parsing inverts formatting on every 64-bit integer. */
  lemma FormatParse(n: int)
    requires IsInt64(n)
    ensures ParseInt(FormatInt(n)) == Some(n)
  {
    if n < 0 {
      DigitsValue(-n);
      ParseMinus(Digits(-n));
    } else {
      DigitsValue(n);
      ParsePlain(Digits(n));
    }
  }

  lemma ParsePlain(s: string)
    requires |s| > 0 && AllDigits(s)
    ensures ParseInt(s) == if IsInt64(Value(s)) then Some(Value(s)) else None
  {
    assert IsDigitChar(s[0]);
  }

  lemma ParseMinus(s: string)
    requires |s| > 0 && AllDigits(s)
    ensures ParseInt("-" + s) == if IsInt64(-(Value(s) as int)) then Some(-(Value(s) as int)) else None
  {
    assert ("-" + s)[1..] == s;
  }

  lemma FormatExample()
    ensures FormatInt(0) == "0" && FormatInt(1754) == "1754" && FormatInt(-60) == "-60"
  {
    assert Digits(175) == Digits(17) + "5" && Digits(17) == Digits(1) + "7";
  }

  /** A formatted integer is made of digits and at most a leading minus. */
  lemma FormatCharacters(n: int)
    ensures forall i :: 0 <= i < |FormatInt(n)| ==> FormatInt(n)[i] == '-' || IsDigitChar(FormatInt(n)[i])
  {
    if n < 0 { DigitsValue(-n); } else { DigitsValue(n); }
  }
}
