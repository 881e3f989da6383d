/**
 The numbers of the parameter files: `int(float(s))` over the decimal spellings, rounded
 to the nearest double and cut toward zero.
 */
module ParamNumbers {
  import opened Bytes
  import opened Doubles

  predicate IsDigit(c: char) {
    '0' <= c <= '9'
  }

  predicate AllDigits(s: string) {
    forall i :: 0 <= i < |s| ==> IsDigit(s[i])
  }

  function DigitChar(d: nat): char
    requires d < 10
  {
    '0' + d as char
  }

  function Decimal(n: nat): (s: string)
    ensures s != "" && AllDigits(s)
  {
    if n < 10 then [DigitChar(n)] else Decimal(n / 10) + [DigitChar(n % 10)]
  }

  function Pow(base: nat, n: nat): (p: nat)
    requires base > 0
    ensures p > 0
  {
    if n == 0 then 1 else base * Pow(base, n - 1)
  }

  /** Two to the 1024: a double that would reach it is infinite, which has no whole part. */
  function Overflow(): nat {
    0x40_0000_0000_0000 * Pow(2, 970)
  }

  // ------------------------------------------------------------------ reading

  function Digits(s: string): nat
    requires AllDigits(s)
  {
    if s == "" then 0 else 10 * Digits(s[..|s| - 1]) + (s[|s| - 1] as nat - '0' as nat)
  }

  /** How many digits a string starts with. */
  function DigitRun(s: string): (n: nat)
    ensures n <= |s| && AllDigits(s[..n])
    ensures n < |s| ==> !IsDigit(s[n])
  {
    if s == "" || !IsDigit(s[0]) then 0
    else
      assert s[..1 + DigitRun(s[1..])] == [s[0]] + s[1..][..DigitRun(s[1..])];
      1 + DigitRun(s[1..])
  }

  /** Underscores may stand between digits and nowhere else. */
  predicate WellSpaced(s: string) {
    forall i :: 0 <= i < |s| && s[i] == '_' ==>
      0 < i && IsDigit(s[i - 1]) && i + 1 < |s| && IsDigit(s[i + 1])
  }

  function WithoutUnderscores(s: string): string {
    if s == "" then "" else (if s[0] == '_' then "" else [s[0]]) + WithoutUnderscores(s[1..])
  }

  predicate Signed(s: string) {
    s != "" && s[0] in {'+', '-'}
  }

  function Unsigned(s: string): string {
    if Signed(s) then s[1..] else s
  }

  function Negated(s: string, n: nat): int {
    if Signed(s) && s[0] == '-' then -(n as int) else n
  }

  function Exponent(s: string): Option<int> {
    if s == "" then Some(0)
    else if s[0] !in {'e', 'E'} then None
    else
      var digits := Unsigned(s[1..]);
      if digits == "" || DigitRun(digits) < |digits| then None
      else
        assert digits[..DigitRun(digits)] == digits;
        Some(Negated(s[1..], Digits(digits)))
  }

  /** The whole part of the double nearest to m times ten to the e. */
  function Scaled(m: nat, e: int): nat {
    if e >= 0 then WholeOfDouble(m * Pow(10, e), 1) else WholeOfDouble(m, Pow(10, -e))
  }

  /** The digits after a point, and what follows them; none and everything where there is no point. */
  function Fraction(s: string): (string, string) {
    if s != "" && s[0] == '.' then
      var n := DigitRun(s[1..]);
      (s[1..][..n], s[1..][n..])
    else ("", s)
  }

  function Magnitude(s: string): Option<nat> {
    var whole := s[..DigitRun(s)];
    var (fraction, tail) := Fraction(s[DigitRun(s)..]);
    if whole + fraction == "" then None
    else
      match Exponent(tail)
      case None => None
      case Some(e) =>
        var n := Scaled(Digits(whole + fraction), e - |fraction|);
        if n < Overflow() then Some(n) else None
  }

  /** None where the conversion raises. */
  function ParseNumber(s: string): Option<int> {
    if !WellSpaced(s) then None
    else
      var t := WithoutUnderscores(s);
      match Magnitude(Unsigned(t))
      case None => None
      case Some(n) => Some(Negated(t, n))
  }

  // ------------------------------------------------------------------ meaning

  lemma {:induction false} DigitsAppend(a: string, b: string)
    requires AllDigits(a) && AllDigits(b)
    ensures AllDigits(a + b) && Digits(a + b) == Digits(a) * Pow(10, |b|) + Digits(b)
    ensures Digits(b) < Pow(10, |b|)
    decreases |b|
  {
    if b == "" {
      assert a + b == a;
    } else {
      var init, d := b[..|b| - 1], b[|b| - 1] as nat - '0' as nat;
      assert (a + b)[..|a + b| - 1] == a + init;
      DigitsAppend(a, init);
      Distributes(Digits(a), Pow(10, |init|), Digits(init));
      assert Digits(a + b) == 10 * Digits(a + init) + d;
      assert Digits(b) == 10 * Digits(init) + d;
      assert Pow(10, |b|) == 10 * Pow(10, |init|);
    }
  }

  lemma Distributes(a: nat, p: nat, d: nat)
    ensures 10 * (a * p + d) == a * (10 * p) + 10 * d
  {}

  lemma {:induction false} DigitsOfDecimal(n: nat)
    ensures Digits(Decimal(n)) == n
  {
    if n >= 10 {
      DigitsOfDecimal(n / 10);
      assert Decimal(n)[..|Decimal(n)| - 1] == Decimal(n / 10);
    } else {
      assert Decimal(n)[..0] == "";
    }
  }

  lemma {:induction false} NoUnderscores(s: string)
    requires '_' !in s
    ensures WithoutUnderscores(s) == s
    decreases |s|
  {
    if s != "" {
      NoUnderscores(s[1..]);
      assert s == [s[0]] + s[1..];
    }
  }

  lemma {:induction false} RunOf(a: string, rest: string)
    requires AllDigits(a) && (rest == "" || !IsDigit(rest[0]))
    ensures DigitRun(a + rest) == |a|
    decreases |a|
  {
    if a == "" {
      assert a + rest == rest;
    } else {
      assert (a + rest)[1..] == a[1..] + rest;
      RunOf(a[1..], rest);
    }
  }

  /** A whole number and a fraction behind it, as one quotient. */
  lemma WithFraction(m: nat, fraction: string)
    requires AllDigits(fraction)
    ensures AllDigits(Decimal(m) + fraction)
    ensures var num, den := Digits(Decimal(m) + fraction), Pow(10, |fraction|);
            && num == m * den + Digits(fraction) && num / den == m
            && Scaled(num, -|fraction|) == WholeOfDouble(num, den)
  {
    hide Decimal, Pow, Digits, WholeOfDouble;
    DigitsAppend(Decimal(m), fraction);
    DigitsOfDecimal(m);
    var p, d := Pow(10, |fraction|), Digits(fraction);
    assert (m + 1) * p == m * p + p;
    QuotientReaches(m * p + d, p, m);
    QuotientReaches(m * p + d, p, m + 1);
    PowZero();
  }

  lemma PowZero()
    ensures Pow(10, 0) == 1 && Digits("") == 0
  {}

  /** The text of a number between its sign and its exponent. */
  predicate Mantissa(whole: string, point: string, fraction: string) {
    && AllDigits(whole) && AllDigits(fraction) && whole + fraction != ""
    && (point == "." || (point == "" && fraction == ""))
  }

  /** Every spelling without underscores has the value of its digits at its exponent, cut toward zero. */
  lemma SpelledRead(sign: string, whole: string, point: string, fraction: string, tail: string, e: int)
    requires sign in {"", "+", "-"} && Mantissa(whole, point, fraction)
    requires Exponent(tail) == Some(e) && '_' !in tail
    ensures AllDigits(whole + fraction)
    ensures var n := Scaled(Digits(whole + fraction), e - |fraction|);
            ParseNumber(sign + whole + point + fraction + tail) ==
            if n >= Overflow() then None else if sign == "-" then Some(-(n as int)) else Some(n)
  {
    hide *;
    var body := whole + point + fraction + tail;
    BodyPlain(sign, whole, point, fraction, tail);
    MagnitudeRead(whole, point, fraction, tail, e);
    SignRead(sign, body);
    PlainRead(sign + body);
    assert sign + body == sign + whole + point + fraction + tail;
  }

  lemma BodyPlain(sign: string, whole: string, point: string, fraction: string, tail: string)
    requires sign in {"", "+", "-"} && Mantissa(whole, point, fraction) && '_' !in tail
    ensures var body := whole + point + fraction + tail;
            && body != "" && (IsDigit(body[0]) || body[0] == '.') && '_' !in sign + body
  {}

  lemma PlainRead(s: string)
    requires '_' !in s
    ensures ParseNumber(s) ==
            match Magnitude(Unsigned(s))
            case None => None
            case Some(n) => Some(Negated(s, n))
  {
    hide Magnitude, Unsigned, Negated, WithoutUnderscores, WellSpaced;
    Unspaced(s);
    NoUnderscores(s);
  }

  lemma Unspaced(s: string)
    requires '_' !in s
    ensures WellSpaced(s)
  {}

  lemma SignRead(sign: string, body: string)
    requires sign in {"", "+", "-"} && body != "" && (IsDigit(body[0]) || body[0] == '.')
    ensures Unsigned(sign + body) == body
    ensures forall n: nat :: Negated(sign + body, n) == if sign == "-" then -(n as int) else n
  {
    assert sign == "" ==> sign + body == body;
    assert sign != "" ==> (sign + body)[0] == sign[0] && (sign + body)[1..] == body;
  }

  lemma MagnitudeRead(whole: string, point: string, fraction: string, tail: string, e: int)
    requires Mantissa(whole, point, fraction) && Exponent(tail) == Some(e)
    ensures AllDigits(whole + fraction)
    ensures var n := Scaled(Digits(whole + fraction), e - |fraction|);
            Magnitude(whole + point + fraction + tail) == if n < Overflow() then Some(n) else None
  {
    hide Overflow, Digits, Scaled, Pow, DigitRun, Exponent, Fraction, Magnitude;
    TailStart(tail);
    var more := point + fraction + tail;
    FractionSplit(point, fraction, tail);
    WholeSplit(whole, more);
    Grouped(whole, point, fraction, tail);
    MagnitudeIs(whole + more, whole, fraction, tail, e);
  }

  lemma Grouped(whole: string, point: string, fraction: string, tail: string)
    ensures whole + point + fraction + tail == whole + (point + fraction + tail)
  {}

  lemma WholeSplit(whole: string, more: string)
    requires AllDigits(whole) && (more == "" || !IsDigit(more[0]))
    ensures DigitRun(whole + more) == |whole|
    ensures (whole + more)[..|whole|] == whole && (whole + more)[|whole|..] == more
  {
    hide DigitRun;
    RunOf(whole, more);
  }

  lemma MagnitudeIs(s: string, whole: string, fraction: string, tail: string, e: int)
    requires AllDigits(whole) && AllDigits(fraction) && whole + fraction != ""
    requires DigitRun(s) == |whole| && s[..|whole|] == whole && Fraction(s[|whole|..]) == (fraction, tail)
    requires Exponent(tail) == Some(e)
    ensures AllDigits(whole + fraction)
    ensures var n := Scaled(Digits(whole + fraction), e - |fraction|);
            Magnitude(s) == if n < Overflow() then Some(n) else None
  {
    hide Overflow, Digits, Scaled, Pow, DigitRun, Exponent, Fraction;
  }

  lemma TailStart(tail: string)
    requires Exponent(tail).Some?
    ensures tail == "" || tail[0] in {'e', 'E'}
  {}

  lemma FractionSplit(point: string, fraction: string, tail: string)
    requires AllDigits(fraction) && (point == "." || (point == "" && fraction == ""))
    requires tail == "" || tail[0] in {'e', 'E'}
    ensures Fraction(point + fraction + tail) == (fraction, tail)
    ensures point + fraction + tail == "" || !IsDigit((point + fraction + tail)[0])
  {
    hide DigitRun;
    var more := point + fraction + tail;
    if point == "." {
      assert more[1..] == fraction + tail;
      RunOf(fraction, tail);
      assert more[1..][..|fraction|] == fraction && more[1..][|fraction|..] == tail;
    } else {
      assert more == tail;
    }
  }

  /**
   Below 2^53, decimal digits with any sign and any fraction are read as the whole part with
   its sign, or as the next whole number exactly where that is the nearest double.
   */
  lemma NumberRead(sign: string, n: nat, point: string, fraction: string)
    requires sign in {"", "+", "-"} && n < B53 && Mantissa(Decimal(n), point, fraction)
    ensures var num, den := n * Pow(10, |fraction|) + Digits(fraction), Pow(10, |fraction|);
            && num < den * B53
            && var read: nat := n + if RoundsUp(num, den) then 1 else 0;
               ParseNumber(sign + Decimal(n) + point + fraction) == Some(if sign == "-" then -(read as int) else read)
  {
    hide Decimal, Overflow, Digits, Scaled, ParseNumber, Pow, RoundsUp, WholeOfDouble;
    SpelledRead(sign, Decimal(n), point, fraction, "", 0);
    assert sign + Decimal(n) + point + fraction + "" == sign + Decimal(n) + point + fraction;
    WithFraction(n, fraction);
    var num, den := Digits(Decimal(n) + fraction), Pow(10, |fraction|);
    QuotientReaches(num, den, B53);
    WholeExactly(num, den);
    LargeOverflow();
  }

  lemma LargeOverflow()
    ensures Overflow() > B53
  {
    hide Pow;
  }

  /** A whole number below 2^53, as the printer writes it, is read as itself. */
  lemma DecimalRead(n: nat)
    requires n < B53
    ensures ParseNumber(Decimal(n)) == Some(n)
  {
    hide Decimal, ParseNumber, Pow, RoundsUp, Digits, WholeOfDouble;
    NumberRead("", n, "", "");
    PowZero();
    WholeExactly(n, 1);
    WholeStays(n);
    assert "" + Decimal(n) + "" + "" == Decimal(n);
  }

  lemma {:induction false} NoneLeft(s: string)
    ensures '_' !in WithoutUnderscores(s)
    decreases |s|
  {
    if s != "" {
      NoneLeft(s[1..]);
    }
  }

  /** Underscores between digits make no difference; anywhere else they make a number invalid. */
  lemma UnderscoresIgnored(s: string)
    ensures ParseNumber(s) == if WellSpaced(s) then ParseNumber(WithoutUnderscores(s)) else None
  {
    hide Magnitude, Unsigned, Negated, WithoutUnderscores, WellSpaced;
    NoneLeft(s);
    NoUnderscores(WithoutUnderscores(s));
    Unspaced(WithoutUnderscores(s));
  }

  /** A point moved to the right by k digits takes k off the exponent. */
  lemma PointMoves(sign: string, whole: string, moved: string, rest: string, tail: string, tail': string)
    requires sign in {"", "+", "-"} && AllDigits(moved)
    requires Mantissa(whole, ".", moved + rest) && Mantissa(whole + moved, ".", rest)
    requires Exponent(tail).Some? && Exponent(tail') == Some(Exponent(tail).value - |moved|)
    requires '_' !in tail && '_' !in tail'
    ensures ParseNumber(sign + whole + "." + (moved + rest) + tail) ==
            ParseNumber(sign + (whole + moved) + "." + rest + tail')
  {
    hide ParseNumber, Exponent, Digits, Scaled, Overflow;
    SpelledRead(sign, whole, ".", moved + rest, tail, Exponent(tail).value);
    SpelledRead(sign, whole + moved, ".", rest, tail', Exponent(tail').value);
    assert whole + (moved + rest) == whole + moved + rest;
  }
}
