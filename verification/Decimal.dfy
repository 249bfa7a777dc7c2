/** Decimal numbers as text: Go's %d, strconv.Atoi and strconv.ParseInt in base 10. */
module Decimal {
  import opened Int64
  import opened Options

  predicate IsDigit(c: char) {
    '0' <= c <= '9'
  }

  predicate AllDigits(s: string) {
    forall c | c in s :: IsDigit(c)
  }

  function DigitValue(c: char): (d: nat)
    requires IsDigit(c)
    ensures d < 10
  {
    c as int - '0' as int
  }

  function DigitChar(d: nat): (c: char)
    requires d < 10
    ensures IsDigit(c) && DigitValue(c) == d
  {
    (d + '0' as int) as char
  }

  /** %d for a number that is not negative. */
  function Format(n: nat): (s: string)
    ensures s != "" && AllDigits(s)
    ensures |s| > 1 ==> s[0] != '0'
    ensures n > 0 ==> s[0] != '0'
  {
    if n < 10 then [DigitChar(n)] else Format(n / 10) + [DigitChar(n % 10)]
  }

  function FormatInt(x: int): string {
    if x < 0 then "-" + Format(-x) else Format(x)
  }

  /** The number a string of digits stands for. */
  function Number(s: string): nat
    requires AllDigits(s)
  {
    if s == "" then 0 else 10 * Number(s[..|s| - 1]) + DigitValue(s[|s| - 1])
  }

  /** strconv.ParseInt(s, 10, 64): an optional sign, at least one digit, no more than 64 bits. */
  function ParseInt(s: string): Option<int64> {
    if s != "" && s[0] in {'+', '-'} then
      if |s| == 1 || !AllDigits(s[1..]) then None
      else
        var x: int := if s[0] == '-' then 0 - Number(s[1..]) else Number(s[1..]);
        if InRange(x) then Some(x) else None
    else if s == "" || !AllDigits(s) then None
    else if InRange(Number(s)) then Some(Number(s))
    else None
  }

  lemma {:induction false} NumberOfFormat(n: nat)
    ensures Number(Format(n)) == n
  {
    var s := Format(n);
    if n < 10 {
      assert s[..|s| - 1] == "";
    } else {
      NumberOfFormat(n / 10);
      assert s[..|s| - 1] == Format(n / 10);
    }
  }

  lemma ParseDigits(s: string)
    requires s != "" && AllDigits(s)
    ensures ParseInt(s) == if InRange(Number(s)) then Some(Number(s)) else None
  {
    assert s[0] in s;
  }

  lemma ParseNegative(s: string)
    requires s != "" && AllDigits(s)
    ensures ParseInt("-" + s) == if InRange(0 - Number(s)) then Some(0 - Number(s)) else None
  {
    assert ("-" + s)[1..] == s;
  }

  lemma ParsePositive(s: string)
    requires s != "" && AllDigits(s)
    ensures ParseInt("+" + s) == if InRange(Number(s)) then Some(Number(s)) else None
  {
    assert ("+" + s)[1..] == s;
  }

  /** The text is a number of that value: perhaps a sign, and then digits. */
  ghost predicate Denotes(sign: string, digits: string, x: int) {
    && sign in {"", "+", "-"} && digits != "" && AllDigits(digits)
    && x == if sign == "-" then 0 - Number(digits) else Number(digits)
  }

  /** The texts accepted are those of the form, as long as the value fits. */
  lemma ParseIntExact(s: string, x: int64)
    ensures ParseInt(s) == Some(x) <==> exists sign, digits :: s == sign + digits && Denotes(sign, digits, x)
  {
    if sign, digits :| s == sign + digits && Denotes(sign, digits, x) {
      ParseDigits(digits);
      ParseNegative(digits);
      ParsePositive(digits);
      assert sign == "" ==> s == digits;
    }
    if ParseInt(s) == Some(x) {
      if s[0] in {'+', '-'} {
        assert s == [s[0]] + s[1..] && Denotes([s[0]], s[1..], x);
      } else {
        assert s == "" + s && Denotes("", s, x);
      }
    }
  }

  /** Digits have their decimal weight. */
  lemma {:induction false} NumberOfConcat(a: string, b: string)
    requires AllDigits(a) && AllDigits(b)
    ensures AllDigits(a + b) && Number(a + b) == Number(a) * Pow10(|b|) + Number(b)
    ensures |b| == 1 ==> Number(b) == b[0] as int - '0' as int
  {
    if b == "" {
      assert a + b == a;
    } else {
      var n := |b| - 1;
      NumberOfConcat(a, b[..n]);
      assert (a + b)[..|a| + n] == a + b[..n];
      assert Number(a) * Pow10(|b|) == 10 * (Number(a) * Pow10(n));
    }
  }

  function Pow10(n: nat): nat {
    if n == 0 then 1 else 10 * Pow10(n - 1)
  }

  lemma ParseOfFormat(x: int64)
    ensures ParseInt(FormatInt(x)) == Some(x)
  {
    if x < 0 {
      NumberOfFormat(0 - x);
      ParseNegative(Format(0 - x));
    } else {
      NumberOfFormat(x);
      ParseDigits(Format(x));
    }
  }

  /** A number written without a leading zero is written as %d writes it. */
  lemma {:induction false} FormatOfNumber(s: string)
    requires s != "" && AllDigits(s) && (|s| > 1 ==> s[0] != '0')
    ensures Format(Number(s)) == s
  {
    var n := |s| - 1;
    if n == 0 {
      assert s[..n] == "";
      assert Number(s) == DigitValue(s[0]);
      assert s == [s[0]];
    } else {
      var front := s[..n];
      FormatOfNumber(front);
      NumberPositive(front);
      assert s == front + [s[n]];
    }
  }

  lemma {:induction false} NumberPositive(s: string)
    requires s != "" && AllDigits(s) && s[0] != '0'
    ensures Number(s) > 0
  {
    if |s| == 1 {
      assert DigitValue(s[0]) > 0;
    } else {
      NumberPositive(s[..|s| - 1]);
    }
  }
}
