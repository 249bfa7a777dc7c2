/** Exact money and percentages over int64 (pkg/vos/money.go, pkg/vos/percentage.go). */
module Money {
  import opened Decimal
  import opened Int64
  import opened Options
  import opened Text

  datatype Error =
    | InvalidCurrency | Overflow | CurrencyMismatch | DivisionByZero | NullValue | InvalidFormat

  /** A call's end: a value, an error, or a run-time panic. */
  datatype Outcome<+T> = Done(value: T) | Failed(error: Error) | Panic

  const BRL := "BRL"
  const CURRENCIES := {BRL, "USD", "EUR", "GBP", "JPY", "CAD", "AUD", "CHF", "CNY", "INR", "MXN", "ARS"}

  const LIMIT := 0x20_0000_0000_0000  // 2^53

  predicate Bounded(x: int) {
    -LIMIT <= x <= LIMIT
  }

  datatype Money = Money(cents: int64, currency: string)
  {
    /** What the constructors guarantee. */
    predicate Valid() {
      Bounded(cents) && currency in CURRENCIES
    }
  }

  function NewMoney(cents: int64, currency: string): (r: Outcome<Money>)
    ensures r == Done(Money(cents, currency)) <==> Money(cents, currency).Valid()
    ensures r == Failed(Overflow) <==>
            currency in CURRENCIES && !(-9_007_199_254_740_992 <= cents <= 9_007_199_254_740_992)
    ensures r == Failed(InvalidCurrency) <==> currency !in CURRENCIES
  {
    if currency !in CURRENCIES then Failed(InvalidCurrency)
    else if cents > LIMIT || cents < -LIMIT then Failed(Overflow)
    else Done(Money(cents, currency))
  }

  function Add(m: Money, other: Money): Outcome<Money> {
    if m.currency != other.currency then Failed(CurrencyMismatch)
    else if (other.cents > 0 && m.cents > Wrap(LIMIT - other.cents))
            || (other.cents < 0 && m.cents < Wrap(-LIMIT - other.cents)) then Failed(Overflow)
    else Done(Money(Wrap(m.cents + other.cents), m.currency))
  }

  function Subtract(m: Money, other: Money): Outcome<Money> {
    if m.currency != other.currency then Failed(CurrencyMismatch)
    else if (other.cents < 0 && m.cents > Wrap(LIMIT + other.cents))
            || (other.cents > 0 && m.cents < Wrap(-LIMIT + other.cents)) then Failed(Overflow)
    else Done(Money(Wrap(m.cents - other.cents), m.currency))
  }

  /** The absolute value as the code takes it: the minimum stays itself. */
  function Abs64(x: int64): int64 {
    if x < 0 then Wrap(0 - x) else x
  }

  /** A zero factor divides by zero. */
  function Multiply(m: Money, factor: int64): Outcome<Money> {
    if factor == 0 then Panic
    else if Abs64(m.cents) > Trunc(LIMIT, Abs64(factor)) then Failed(Overflow)
    else Done(Money(Wrap(m.cents * factor), m.currency))
  }

  function Divide(m: Money, divisor: int64): Outcome<Money> {
    if divisor == 0 then Failed(DivisionByZero)
    else Done(Money(Wrap(Trunc(m.cents, divisor)), m.currency))
  }

  function Negate(m: Money): Money {
    Money(Wrap(0 - m.cents), m.currency)
  }

  function AbsMoney(m: Money): Money {
    Money(Abs64(m.cents), m.currency)
  }

  // ---------- arithmetic is exact ----------

  /** Addition succeeds exactly when the true sum is within the limit, and returns it. */
  lemma AddExact(m: Money, other: Money)
    requires Bounded(m.cents) && Bounded(other.cents)
    ensures Add(m, other) ==
              if m.currency != other.currency then Failed(CurrencyMismatch)
              else if Bounded(m.cents + other.cents) then Done(Money(m.cents + other.cents, m.currency))
              else Failed(Overflow)
  {
  }

  /** Subtraction undoes addition. */
  lemma AddThenSubtract(m: Money, other: Money)
    requires Bounded(m.cents) && Bounded(other.cents) && Add(m, other).Done?
    ensures Subtract(Add(m, other).value, other) == Done(m)
  {
    AddExact(m, other);
  }

  lemma SubtractExact(m: Money, other: Money)
    requires Bounded(m.cents) && Bounded(other.cents)
    ensures Subtract(m, other) ==
              if m.currency != other.currency then Failed(CurrencyMismatch)
              else if Bounded(m.cents - other.cents) then Done(Money(m.cents - other.cents, m.currency))
              else Failed(Overflow)
    ensures Subtract(m, other) == Add(m, Negate(other))
  {
  }

  /** Within the limit the sign can be changed without wrapping. */
  lemma NegateExact(m: Money)
    requires Bounded(m.cents)
    ensures Negate(m) == Money(0 - m.cents, m.currency) && Negate(Negate(m)) == m
    ensures AbsMoney(m) == Money(Abs(m.cents), m.currency) && AbsMoney(Negate(m)) == AbsMoney(m)
  {
  }

  lemma AbsProduct(a: int, b: int)
    ensures Abs(a) * Abs(b) == Abs(a * b)
  {
    if a >= 0 && b < 0 {
      assert a * -b == -(a * b);
    } else if a < 0 && b >= 0 {
      assert -a * b == -(a * b);
    } else if a < 0 && b < 0 {
      assert -a * -b == a * b;
    }
    assert a >= 0 && b >= 0 ==> a * b >= 0;
    assert Abs(a) * Abs(b) >= 0;
  }

  /** Multiplication by any factor but zero succeeds exactly when the true product is within
      the limit, and returns it, the least int64 factor included. */
  lemma MultiplyExact(m: Money, factor: int64)
    requires Bounded(m.cents)
    ensures Multiply(m, factor) ==
              if factor == 0 then Panic
              else if Bounded(m.cents * factor) then Done(Money(m.cents * factor, m.currency))
              else Failed(Overflow)
  {
    if factor == MIN {
      LeastFactor(m.cents);
    } else if factor != 0 {
      QuotientFits(LIMIT, Abs(factor), Abs(m.cents));
      AbsProduct(m.cents, factor);
    }
  }

  lemma LeastFactor(cents: int64)
    ensures Wrap(-MIN) == MIN && Trunc(LIMIT, MIN) == 0
    ensures Bounded(cents * MIN) <==> cents == 0
  {
    if cents > 0 {
      assert cents * MIN <= MIN;
    } else if cents < 0 {
      assert cents * MIN >= -MIN;
    }
  }

  /** q is a / b rounded toward zero: the multiple of b nearest to a that is no larger. */
  ghost predicate IsQuotient(q: int, a: int, b: int) {
    Abs(a - q * b) < Abs(b) && Abs(q * b) <= Abs(a)
  }

  lemma TruncIsQuotient(a: int, b: int)
    requires b != 0
    ensures IsQuotient(Trunc(a, b), a, b)
  {
    var p := TruncProduct(a, b);
  }

  lemma TruncProduct(a: int, b: int) returns (p: nat)
    requires b != 0
    ensures Trunc(a, b) * b == if a >= 0 then p else 0 - p
    ensures Abs(a) - Abs(b) < p <= Abs(a)
  {
    TruncSign(a, b);
    p := Division(Abs(a), Abs(b));
    SignedProduct(Trunc(a, b), Abs(a) / Abs(b), a >= 0, b);
  }

  lemma SignedProduct(q: int, k: nat, positive: bool, b: int)
    requires b != 0 && q == if positive == (b > 0) then k else 0 - k
    ensures q * b == if positive then k * Abs(b) else 0 - k * Abs(b)
  {
    Negated(k, b);
  }

  lemma Division(n: nat, d: nat) returns (p: nat)
    requires d > 0
    ensures p == n / d * d && n - d < p <= n
  {
    p := n / d * d;
  }

  lemma Negated(k: int, b: int)
    ensures (0 - k) * b == 0 - k * b && k * (0 - b) == 0 - k * b
  {
  }

  /** Division rounds toward zero and fails for zero alone. */
  lemma DivideExact(m: Money, divisor: int64)
    requires Bounded(m.cents)
    ensures divisor == 0 ==> Divide(m, divisor) == Failed(DivisionByZero)
    ensures divisor != 0 ==>
              && Divide(m, divisor).Done? && Divide(m, divisor).value.currency == m.currency
              && IsQuotient(Divide(m, divisor).value.cents, m.cents, divisor)
  {
    if divisor != 0 {
      TruncIsQuotient(m.cents, divisor);
      TruncShrinks(m.cents, divisor);
    }
  }

  lemma TruncShrinks(a: int, b: int)
    requires b != 0
    ensures Abs(Trunc(a, b)) <= Abs(a)
  {
    var q := Trunc(a, b);
    TruncIsQuotient(a, b);
    AbsProduct(q, b);
    MulMonotone(1, Abs(b), Abs(q));
  }

  /** Division undoes multiplication. */
  lemma MultiplyThenDivide(m: Money, factor: int64)
    requires Bounded(m.cents) && Multiply(m, factor).Done?
    ensures Divide(Multiply(m, factor).value, factor) == Done(m)
  {
    MultiplyExact(m, factor);
    TruncOfProduct(m.cents, factor);
  }

  lemma TruncOfProduct(a: int, b: int)
    requires b != 0
    ensures Trunc(a * b, b) == a
  {
    AbsProduct(a, b);
    var n, d := Abs(a * b), Abs(b);
    QuotientFits(n, d, Abs(a));
    QuotientFits(n, d, Abs(a) + 1);
    assert (Abs(a) + 1) * d == n + d;
    assert n / d == Abs(a);
    TruncSign(a * b, b);
    SignOfProduct(a, b);
  }

  lemma SignOfProduct(a: int, b: int)
    ensures a > 0 && b > 0 ==> a * b > 0
    ensures a > 0 && b < 0 ==> a * b < 0
    ensures a < 0 && b > 0 ==> a * b < 0
    ensures a < 0 && b < 0 ==> a * b > 0
  {
  }

  /** The quotient of the sizes, with the sign of the operands. */
  lemma TruncSign(a: int, b: int)
    requires b != 0
    ensures Trunc(a, b) == (if (a >= 0) == (b > 0) then Abs(a) / Abs(b) else -(Abs(a) / Abs(b)))
  {
    if b < 0 {
      NegativeDivisor(Abs(a), -b);
    }
  }

  lemma NegativeDivisor(n: nat, d: nat)
    requires d > 0
    ensures (n as int) / (0 - d) == 0 - n / d
  {
  }

  // ---------- percentages ----------

  /** A percentage in thousandths. */
  datatype Percentage = Percentage(scaled: int64)

  const PERCENT_DIVISOR := 100_000

  function AddPercentage(p: Percentage, other: Percentage): Outcome<Percentage> {
    if (other.scaled > 0 && p.scaled > Wrap(LIMIT - other.scaled))
       || (other.scaled < 0 && p.scaled < Wrap(-LIMIT - other.scaled)) then Failed(Overflow)
    else Done(Percentage(Wrap(p.scaled + other.scaled)))
  }

  function SubtractPercentage(p: Percentage, other: Percentage): Outcome<Percentage> {
    if (other.scaled < 0 && p.scaled > Wrap(LIMIT + other.scaled))
       || (other.scaled > 0 && p.scaled < Wrap(-LIMIT + other.scaled)) then Failed(Overflow)
    else Done(Percentage(Wrap(p.scaled - other.scaled)))
  }

  function MultiplyPercentage(p: Percentage, factor: int64): Outcome<Percentage> {
    if factor != 0 && (p.scaled > Trunc(LIMIT, factor) || p.scaled < Trunc(-LIMIT, factor)) then Failed(Overflow)
    else Done(Percentage(Wrap(p.scaled * factor)))
  }

  function Apply(p: Percentage, m: Money): Outcome<Money> {
    if p.scaled != 0 && Abs64(p.scaled) > 0 && Abs64(m.cents) > Trunc(MAX, Abs64(p.scaled)) then Failed(Overflow)
    else NewMoney(Wrap(Trunc(Wrap(m.cents * p.scaled), PERCENT_DIVISOR)), m.currency)
  }

  lemma AddPercentageExact(p: Percentage, other: Percentage)
    requires Bounded(p.scaled) && Bounded(other.scaled)
    ensures AddPercentage(p, other) ==
              if Bounded(p.scaled + other.scaled) then Done(Percentage(p.scaled + other.scaled)) else Failed(Overflow)
    ensures SubtractPercentage(p, other) ==
              if Bounded(p.scaled - other.scaled) then Done(Percentage(p.scaled - other.scaled)) else Failed(Overflow)
  {
  }

  /** Whatever multiplication returns is exact. For a factor from zero on it succeeds exactly
      when the product is within the limit; for a negative factor it succeeds only for zero
      per cent, and then only if the factor itself is beyond the limit. */
  lemma MultiplyPercentageExact(p: Percentage, factor: int64)
    requires Bounded(p.scaled)
    ensures MultiplyPercentage(p, factor).Done? <==>
              if factor >= 0 then Bounded(p.scaled * factor) else p.scaled == 0 && factor < -LIMIT
    ensures MultiplyPercentage(p, factor).Done? || MultiplyPercentage(p, factor) == Failed(Overflow)
    ensures MultiplyPercentage(p, factor).Done? ==>
              Bounded(p.scaled * factor) && MultiplyPercentage(p, factor).value == Percentage(p.scaled * factor)
  {
    if factor != 0 {
      GuardDecides(p.scaled, factor);
    }
  }

  /** The two quotients of the guard; for a negative factor they are the wrong way round. */
  lemma GuardDecides(x: int, factor: int64)
    requires factor != 0
    ensures Trunc(-LIMIT, factor) <= x <= Trunc(LIMIT, factor) <==>
              if factor > 0 then Bounded(x * factor) else x == 0 && factor < -LIMIT
    ensures x == 0 ==> x * factor == 0
  {
    GuardBounds(factor);
    FitsWithin(x, factor);
    ZeroQuotient(Abs(factor));
  }

  lemma GuardBounds(factor: int64)
    requires factor != 0
    ensures var q := LIMIT / Abs(factor);
            && Trunc(LIMIT, factor) == (if factor > 0 then q else -q)
            && Trunc(-LIMIT, factor) == (if factor > 0 then -q else q)
  {
    TruncSign(LIMIT, factor);
    TruncSign(-LIMIT, factor);
  }

  lemma ZeroQuotient(d: nat)
    requires d > 0
    ensures LIMIT / d >= 0
    ensures LIMIT / d == 0 <==> d > LIMIT
  {
    QuotientFits(LIMIT, d, 1);
  }

  lemma FitsWithin(a: int, factor: int64)
    requires factor != 0
    ensures Abs(a) <= LIMIT / Abs(factor) <==> Bounded(a * factor)
  {
    QuotientFits(LIMIT, Abs(factor), Abs(a));
    AbsProduct(a, factor);
  }

  /** Negating a percentage by multiplication is refused although it would fit. */
  lemma MinusOneRefused(p: Percentage)
    requires Bounded(p.scaled)
    ensures MultiplyPercentage(p, -1) == Failed(Overflow) && Bounded(p.scaled * -1)
  {
    MultiplyPercentageExact(p, -1);
  }

  /** A percentage of an amount is the product over 100000 rounded toward zero. It overflows
      exactly when the product leaves int64, and the range check of the constructor can then
      never fail. */
  lemma ApplyExact(p: Percentage, m: Money)
    requires Bounded(p.scaled) && Bounded(m.cents)
    ensures Apply(p, m) == Failed(Overflow) <==> Abs(m.cents * p.scaled) > MAX
    ensures Apply(p, m) == Failed(InvalidCurrency) <==> Abs(m.cents * p.scaled) <= MAX && m.currency !in CURRENCIES
    ensures Apply(p, m).Done? ==>
              && Apply(p, m).value.currency == m.currency
              && IsQuotient(Apply(p, m).value.cents, m.cents * p.scaled, 100_000)
    ensures Apply(p, m) != Panic
  {
    AbsProduct(m.cents, p.scaled);
    if p.scaled != 0 {
      QuotientFits(MAX, Abs(p.scaled), Abs(m.cents));
    }
    var product := m.cents * p.scaled;
    if Abs(product) <= MAX {
      TruncSign(product, PERCENT_DIVISOR);
      TruncIsQuotient(product, PERCENT_DIVISOR);
      assert Abs(product) / PERCENT_DIVISOR <= MAX / PERCENT_DIVISOR < LIMIT;
    }
  }

  // ---------- the database form ----------

  /** strings.ToUpper on a currency code. Two letters outside ASCII have an ASCII upper case;
      the others stay outside it. */
  function ToUpperChar(c: char): char {
    if 'a' <= c <= 'z' then (c as int - 32) as char
    else if c == '\U{131}' then 'I'
    else if c == '\U{17F}' then 'S'
    else c
  }

  function ToUpper(s: string): (t: string)
    ensures |t| == |s| && forall i | 0 <= i < |s| :: t[i] == ToUpperChar(s[i])
  {
    seq(|s|, i requires 0 <= i < |s| => ToUpperChar(s[i]))
  }

  function NewCurrency(code: string): Outcome<string> {
    if ToUpper(code) in CURRENCIES then Done(ToUpper(code)) else Failed(InvalidCurrency)
  }

  /** Value: "cents:currency". */
  function Value(m: Money): string {
    FormatInt(m.cents) + [':'] + m.currency
  }

  /** A database value handed to Scan. */
  datatype DbValue = Null | Str(text: string) | Integer(number: int64) | OtherType

  function Scan(v: DbValue): Outcome<Money> {
    match v
    case Null => Failed(NullValue)
    case OtherType => Failed(InvalidFormat)
    case Integer(n) => NewMoney(n, BRL)
    case Str(text) =>
      var parts := Split(text, ':');
      if |parts| != 2 then Failed(InvalidFormat)
      else
        match ParseInt(parts[0])
        case None => Failed(InvalidFormat)
        case Some(cents) =>
          match NewCurrency(parts[1])
          case Done(currency) => NewMoney(cents, currency)
          case Failed(e) => Failed(e)
          case Panic => Panic
  }

  lemma UpperCodes(code: string)
    requires code in CURRENCIES
    ensures ToUpper(code) == code && ':' !in code
  {
  }

  /** What Scan accepts is a valid amount. */
  lemma ScanValid(v: DbValue)
    ensures Scan(v).Done? ==> Scan(v).value.Valid()
  {
  }

  /** Only texts and whole numbers are read; a bare number is an amount in BRL. */
  lemma ScanKinds(number: int64)
    ensures Scan(Null) == Failed(NullValue) && Scan(OtherType) == Failed(InvalidFormat)
    ensures Bounded(number) ==> Scan(Integer(number)) == Done(Money(number, "BRL"))
    ensures !Bounded(number) ==> Scan(Integer(number)) == Failed(Overflow)
  {
  }

  /** The code in capitals, or with some letters small. */
  ghost predicate IsSpelling(text: string, code: string) {
    && |text| == |code|
    && forall i | 0 <= i < |code| :: text[i] == code[i] || text[i] as int == code[i] as int + 32
  }

  lemma UpperOfSpelling(text: string, code: string)
    requires code in CURRENCIES && IsSpelling(text, code)
    ensures ToUpper(text) == code && ':' !in text
  {
    assert forall i | 0 <= i < |code| :: 'A' <= code[i] <= 'Z';
  }

  /** An amount is read from its number, a colon and its currency, in capitals or not. */
  lemma ScanOfText(m: Money, number: string, code: string)
    requires m.Valid() && ParseInt(number) == Some(m.cents) && IsSpelling(code, m.currency)
    ensures Scan(Str(number + ":" + code)) == Done(m)
  {
    UpperOfSpelling(code, m.currency);
    NumberHasNoColon(number);
    SplitAt(number, ':', code);
    SplitPlain(code, ':');
    assert number + [':'] + code == number + ":" + code;
  }

  lemma NumberHasNoColon(s: string)
    requires ParseInt(s).Some?
    ensures ':' !in s
  {
    if s[0] in {'+', '-'} {
      assert s == [s[0]] + s[1..];
    }
  }

  /** And nothing else is read: an accepted text is a number, a colon and a currency. */
  lemma ScanExact(text: string) returns (number: string, code: string)
    requires Scan(Str(text)).Done?
    ensures text == number + ":" + code
    ensures ParseInt(number) == Some(Scan(Str(text)).value.cents)
    ensures ToUpper(code) == Scan(Str(text)).value.currency
  {
    var parts := Split(text, ':');
    JoinSplit(text, ':');
    number, code := parts[0], parts[1];
    assert Join(parts[1..], ':') == code;
  }

  lemma FormatHasNoColon(x: int)
    ensures ':' !in FormatInt(x)
  {
  }

  /** Storing and reading back gives the amount exactly if it is valid. */
  lemma ScanOfValue(m: Money)
    ensures Scan(Str(Value(m))) == Done(m) <==> m.Valid()
  {
    if m.Valid() {
      UpperCodes(m.currency);
      FormatHasNoColon(m.cents);
      SplitAt(FormatInt(m.cents), ':', m.currency);
      SplitPlain(m.currency, ':');
      ParseOfFormat(m.cents);
    } else {
      ScanValid(Str(Value(m)));
    }
  }

  /** Every accepted text is normalised by one reading: storing the result and reading it
      again changes nothing. */
  lemma ScanNormalises(v: DbValue)
    requires Scan(v).Done?
    ensures Scan(Str(Value(Scan(v).value))) == Scan(v)
  {
    ScanValid(v);
    ScanOfValue(Scan(v).value);
  }
}
