// Exact decimals (server/src/Json.cpp:40-61, 293-352): a number literal denotes a rational number; it is
// kept as mantissa / 10^scale, in the one form that has no superfluous zeros.
module JsonNumber {
  import opened Wrappers
  import opened Arithmetic

  const MAX_DIGITS := 18
  const MAX_EXPONENT := 30
  const MAX_MANTISSA := 999_999_999_999_999_999

  function Pow10(n: nat): (p: nat)
    ensures p > 0
  {
    if n == 0 then 1 else 10 * Pow10(n - 1)
  }

  lemma {:induction false} Pow10Add(a: nat, b: nat)
    ensures Pow10(a + b) == Pow10(a) * Pow10(b)
  {
    if a > 0 {
      Pow10Add(a - 1, b);
      assert Pow10(a + b) == 10 * Pow10(a - 1 + b);
    }
  }

  // m with n zeros behind it.
  function Shifted(m: nat, n: nat): nat {
    m * Pow10(n)
  }

  // What a 64-bit integer holds.
  lemma Pow10Fits(n: nat)
    ensures Pow10(n) < 0x8000_0000_0000_0000 <==> n <= 18
  {
    assert Pow10(5) == 100_000 && Pow10(4) == 10_000;
    Pow10Add(5, 5);
    Pow10Add(10, 5);
    Pow10Add(15, 4);
    Pow10Add(15, 3);
    assert Pow10(18) == 1_000_000_000_000_000_000 && Pow10(19) == 10_000_000_000_000_000_000;
    if n <= 18 {
      Pow10Add(n, 18 - n);
      MulMono(1, Pow10(18 - n), Pow10(n));
    } else {
      Pow10Add(19, n - 19);
      MulMono(1, Pow10(n - 19), Pow10(19));
    }
  }

  // A power of ten as a 64-bit word: beyond 18 zeros the product wraps around.
  function Wrap64(v: int): int {
    (v + 0x8000_0000_0000_0000) % 0x1_0000_0000_0000_0000 - 0x8000_0000_0000_0000
  }

  function WordPow10(n: nat): int {
    if n == 0 then 1 else Wrap64(10 * WordPow10(n - 1))
  }

  lemma {:induction false} WordsSuffice(n: nat)
    requires n <= 18
    ensures WordPow10(n) == Pow10(n)
  {
    if n > 0 {
      WordsSuffice(n - 1);
      WordsAtMost(n);
      WordsStart(n);
      hide Wrap64;
      SmallStays(10 * Pow10(n - 1));
    }
  }

  // From 64 zeros on nothing is left of it -- and never before.
  lemma {:induction false} WordPow10Vanishes(n: nat)
    ensures WordPow10(n) == 0 <==> n >= 64
  {
    WordsAt();
    if n > 64 {
      WordPow10Vanishes(n - 1);
    } else if n < 64 {
      WordPow10Stays(n, 63);
    }
  }

  // Wrapping at every step or at the end comes to the same.
  lemma {:induction false} WordIs(n: nat)
    ensures WordPow10(n) == Wrap64(Pow10(n))
  {
    if n > 0 {
      hide Wrap64;
      WordIs(n - 1);
      WrapTimes(Pow10(n - 1));
    } else {
      assert Wrap64(1) == 1;
    }
  }

  lemma WrapTimes(x: int)
    ensures Wrap64(10 * Wrap64(x)) == Wrap64(10 * x)
  {
    var q := (x + 0x8000_0000_0000_0000) / 0x1_0000_0000_0000_0000;
    assert Wrap64(x) == x - q * 0x1_0000_0000_0000_0000;
    hide Wrap64;
    WrapShift(10 * x, 10 * q);
  }

  lemma WrapShift(y: int, k: int)
    ensures Wrap64(y - k * 0x1_0000_0000_0000_0000) == Wrap64(y)
  {
  }

  lemma FirstPowers()
    ensures Pow10(1) == 10 && Pow10(9) == 1_000_000_000
  {
  }

  lemma Powers()
    ensures Pow10(18) == 1_000_000_000_000_000_000 && Pow10(19) == 10_000_000_000_000_000_000
    ensures Pow10(36) == Pow10(18) * Pow10(18) && Pow10(37) == 10 * Pow10(36)
    ensures Pow10(63) == Pow10(36) * Pow10(18) * Pow10(9) && Pow10(64) == 10 * Pow10(63)
  {
    hide Pow10;
    FirstPowers();
    Pow10Add(9, 9);
    Pow10Add(18, 1);
    Pow10Add(18, 18);
    Pow10Add(36, 1);
    Pow10Add(36, 18);
    Pow10Add(54, 9);
    Pow10Add(63, 1);
  }

  lemma WordsAt()
    ensures WordPow10(19) == -8446744073709551616 && WordPow10(37) == 68739955140067328
    ensures WordPow10(63) == -0x8000_0000_0000_0000 && WordPow10(64) == 0
  {
    hide Pow10, WordPow10;
    FirstPowers();
    Powers();
    WordIs(19);
    WordIs(37);
    WordIs(63);
    WordIs(64);
  }

  // Once it is 0 it stays 0.
  lemma {:induction false} WordPow10Stays(n: nat, m: nat)
    requires n <= m && WordPow10(m) != 0
    ensures WordPow10(n) != 0
  {
    if n < m {
      WordPow10Stays(n, m - 1);
    }
  }

  // ---- Literals (section 6 of RFC 8259) -----------------------------------------------------------

  predicate IsDigit(c: char) {
    '0' <= c <= '9'
  }

  function DigitOf(c: char): nat
    requires IsDigit(c)
  {
    c as int - '0' as int
  }

  predicate AllDigits(s: string) {
    forall k | 0 <= k < |s| :: IsDigit(s[k])
  }

  function NatOf(s: string): nat
    requires AllDigits(s)
  {
    if s == "" then 0 else 10 * NatOf(s[..|s| - 1]) + DigitOf(s[|s| - 1])
  }

  // The digits that count: leading zeros do not.
  function Significant(s: string): nat
    requires AllDigits(s)
  {
    if s == "" then 0
    else if NatOf(s) == 0 then 0
    else Significant(s[..|s| - 1]) + 1
  }

  lemma {:induction false} LeadingZerosDoNotCount(s: string)
    requires AllDigits(s)
    ensures Significant(s) <= |s| && forall k | 0 <= k < |s| - Significant(s) :: s[k] == '0'
    ensures Significant(s) > 0 ==> s[|s| - Significant(s)] != '0'
    ensures NatOf(s) < Pow10(Significant(s)) && (Significant(s) == 0 <==> NatOf(s) == 0)
  {
    if s != "" {
      LeadingZerosDoNotCount(s[..|s| - 1]);
    }
  }

  datatype Exponent = Exponent(mark: char, sign: string, digits: string)

  datatype Literal = Literal(negative: bool, whole: string, fraction: string, exponent: Option<Exponent>)

  predicate WholeOk(s: string) {
    AllDigits(s) && s != "" && (s[0] == '0' ==> |s| == 1)
  }

  predicate ExponentOk(x: Exponent) {
    (x.mark == 'e' || x.mark == 'E') && (x.sign == "" || x.sign == "+" || x.sign == "-") && x.digits != "" && AllDigits(x.digits)
  }

  predicate LiteralOk(l: Literal) {
    WholeOk(l.whole) && AllDigits(l.fraction) && (l.exponent.Some? ==> ExponentOk(l.exponent.value))
  }

  // The text of a literal, followed by `rest`.
  function LiteralThen(l: Literal, rest: string): string {
    (if l.negative then "-" else "") + MagnitudeThen(l, rest)
  }

  function MagnitudeThen(l: Literal, rest: string): string {
    l.whole + FractionThen(l.fraction, ExponentThen(l.exponent, rest))
  }

  function FractionThen(fraction: string, rest: string): string {
    if fraction == "" then rest else "." + (fraction + rest)
  }

  function ExponentThen(x: Option<Exponent>, rest: string): string {
    if x.None? then rest else [x.value.mark] + (x.value.sign + (x.value.digits + rest))
  }

  predicate DigitNext(rest: string) {
    rest != "" && IsDigit(rest[0])
  }

  predicate MarkNext(rest: string) {
    rest != "" && (rest[0] == 'e' || rest[0] == 'E')
  }

  predicate PointNext(rest: string) {
    rest != "" && rest[0] == '.'
  }

  // The literal does not go on.
  predicate Ends(l: Literal, rest: string) {
    && !DigitNext(rest)
    && (l.exponent.None? ==> !MarkNext(rest))
    && (l.exponent.None? && l.fraction == "" ==> !PointNext(rest))
  }

  // ---- What a literal denotes: numerator * 10^Up / 10^Down -----------------------------------------

  function ExponentOf(x: Option<Exponent>): int
    requires x.Some? ==> ExponentOk(x.value)
  {
    if x.None? then 0 else if x.value.sign == "-" then 0 - NatOf(x.value.digits) else NatOf(x.value.digits)
  }

  function Numerator(l: Literal): int
    requires LiteralOk(l)
  {
    if l.negative then 0 - NatOf(l.whole + l.fraction) else NatOf(l.whole + l.fraction)
  }

  function Up(l: Literal): nat
    requires LiteralOk(l)
  {
    var e := ExponentOf(l.exponent);
    if e > 0 then e else 0
  }

  function Down(l: Literal): nat
    requires LiteralOk(l)
  {
    var e := ExponentOf(l.exponent);
    |l.fraction| + if e < 0 then -e else 0
  }

  predicate SameValue(a: Literal, b: Literal)
    requires LiteralOk(a) && LiteralOk(b)
  {
    Numerator(a) * Pow10(Up(a)) * Pow10(Down(b)) == Numerator(b) * Pow10(Up(b)) * Pow10(Down(a))
  }

  // mantissa / 10^scale
  datatype Decimal = Decimal(mantissa: int, scale: nat)

  function WithSign(negative: bool, d: Decimal): Decimal {
    if negative then Decimal(-d.mantissa, d.scale) else d
  }

  predicate Denotes(d: Decimal, l: Literal)
    requires LiteralOk(l)
  {
    d.mantissa * Pow10(Down(l)) == Numerator(l) * Pow10(Up(l)) * Pow10(d.scale)
  }

  predicate Canonical(d: Decimal) {
    d.scale == 0 || d.mantissa % 10 != 0
  }

  // What the reader has room for: 18 significant digits as written, an exponent of at most 30, and no
  // more than 18 digits before the decimal point.
  predicate WithinLimits(l: Literal)
    requires LiteralOk(l)
  {
    && Significant(l.whole + l.fraction) <= MAX_DIGITS
    && (l.exponent.Some? ==> NatOf(l.exponent.value.digits) <= MAX_EXPONENT)
    && (Up(l) > Down(l) ==> NatOf(l.whole + l.fraction) * Pow10(Up(l) - Down(l)) <= MAX_MANTISSA)
  }

  // Equal values have one canonical form.
  lemma CanonicalIsUnique(a: Decimal, b: Decimal)
    requires Canonical(a) && Canonical(b) && a.mantissa * Pow10(b.scale) == b.mantissa * Pow10(a.scale)
    ensures a == b
  {
    if a.scale < b.scale {
      Shorter(a, b);
    } else if b.scale < a.scale {
      Shorter(b, a);
    } else {
      Cancel(a.mantissa, b.mantissa, Pow10(a.scale));
    }
  }

  lemma Shorter(a: Decimal, b: Decimal)
    requires a.scale < b.scale && a.mantissa * Pow10(b.scale) == b.mantissa * Pow10(a.scale)
    ensures !Canonical(b)
  {
    var k := b.scale - a.scale;
    Pow10Add(k, a.scale);
    Tenfold(a.mantissa, b.mantissa, Pow10(a.scale), Pow10(k - 1));
  }

  lemma Tenfold(m: int, n: int, p: nat, r: nat)
    requires p > 0 && m * ((10 * r) * p) == n * p
    ensures n % 10 == 0
  {
    Assoc(m, 10 * r, p);
    Cancel(m * (10 * r), n, p);
    assert m * (10 * r) == 10 * (m * r);
  }

  lemma Cancel(a: int, b: int, p: nat)
    requires p > 0 && a * p == b * p
    ensures a == b
  {
    if a < b {
      MulMono(a + 1, b, p);
      MulNext(a, p);
    } else if b < a {
      MulMono(b + 1, a, p);
      MulNext(b, p);
    }
  }

  // Two literals of equal value yield the same pair.
  lemma EqualLiteralsEqualDecimals(l: Literal, d: Decimal, m: Literal, e: Decimal)
    requires LiteralOk(l) && LiteralOk(m) && Denotes(d, l) && Denotes(e, m) && Canonical(d) && Canonical(e)
    ensures SameValue(l, m) <==> d == e
  {
    var a, b := Numerator(l) * Pow10(Up(l)), Numerator(m) * Pow10(Up(m));
    var p, q, s, t := Pow10(Down(l)), Pow10(Down(m)), Pow10(d.scale), Pow10(e.scale);
    // d.mantissa * p == a * s and e.mantissa * q == b * t
    Cross(d.mantissa, e.mantissa, a, b, p, q, s, t);
    if SameValue(l, m) {
      CanonicalIsUnique(d, e);
    }
  }

  lemma Cross(m: int, n: int, a: int, b: int, p: nat, q: nat, s: nat, t: nat)
    requires p > 0 && q > 0 && s > 0 && t > 0 && m * p == a * s && n * q == b * t
    ensures a * q == b * p <==> m * t == n * s
  {
    // (m * t) * (p * q) == (a * q) * (s * t) and (n * s) * (p * q) == (b * p) * (s * t)
    Swap(m, p, a, s, q, t);
    Swap(n, q, b, t, p, s);
    assert p * q == q * p && s * t == t * s;
    if a * q == b * p {
      PositiveProduct(p, q);
      Cancel(m * t, n * s, p * q);
    }
    if m * t == n * s {
      PositiveProduct(s, t);
      Cancel(a * q, b * p, s * t);
    }
  }

  lemma Assoc(a: int, b: int, c: int)
    ensures a * (b * c) == (a * b) * c
  {
  }

  lemma PositiveProduct(a: nat, b: nat)
    requires a > 0 && b > 0
    ensures a * b > 0
  {
    MulMono(1, a, b);
  }

  lemma Swap(m: int, p: int, a: int, s: int, q: int, t: int)
    requires m * p == a * s
    ensures (m * t) * (p * q) == (a * q) * (s * t)
  {
    assert (m * t) * (p * q) == (m * p) * (t * q) by {
      Shuffle(m, t, p, q);
    }
    assert (a * q) * (s * t) == (a * s) * (q * t) by {
      Shuffle(a, q, s, t);
    }
    assert t * q == q * t;
  }

  lemma Shuffle(a: int, b: int, c: int, d: int)
    ensures (a * b) * (c * d) == (a * c) * (b * d)
  {
    assert (a * b) * (c * d) == a * (b * (c * d));
    assert b * (c * d) == (b * c) * d == c * (b * d);
    assert a * (c * (b * d)) == (a * c) * (b * d);
  }

  // ---- Conversions ---------------------------------------------------------------------------------

  // v is exactly the value of d times 10^decimals.
  predicate Scaled(d: Decimal, decimals: nat, v: int) {
    v * Pow10(d.scale) == d.mantissa * Pow10(decimals)
  }

  predicate Fits(v: int) {
    -MAX_MANTISSA <= v <= MAX_MANTISSA
  }

  // What the conversion comes to, on a machine with 64-bit words.
  datatype Conversion = Number(value: int) | Refused | DividesByZero

  // The right answer: the value, or a refusal where there is none that fits.
  ghost predicate IsExact(d: Decimal, decimals: nat, r: Conversion) {
    match r
    case Number(v) => Scaled(d, decimals, v) && Fits(v)
    case Refused => forall v :: Scaled(d, decimals, v) ==> !Fits(v)
    case DividesByZero => false
  }

  // The wrapped power does not divide m.
  predicate LeavesRest(m: int, n: nat) {
    WordPow10(n) != 0 && m % WordPow10(n) != 0
  }

  // value * 10^decimals. This is exact as long as the powers of ten are, and exactly then: beyond 18
  // digits the divisor has wrapped, and only a remainder hides it.
  method ToScaled(d: Decimal, decimals: int) returns (r: Conversion)
    requires Fits(d.mantissa)
    ensures decimals < 0 || decimals > 9 ==> r == Refused
    ensures 0 <= decimals <= 9 && d.scale <= decimals + 18 ==> IsExact(d, decimals, r)
    ensures 0 <= decimals <= 9 && Canonical(d) ==>
              (IsExact(d, decimals, r) <==>
                 d.scale <= decimals + 18 || LeavesRest(d.mantissa, d.scale - decimals))
    ensures 0 <= decimals <= 9 ==> (r == DividesByZero <==> d.scale >= decimals + 64)
    ensures 0 <= decimals <= 9 && d.scale > decimals && WordPow10(d.scale - decimals) != 0 ==>
              r == if LeavesRest(d.mantissa, d.scale - decimals) then Refused else Number(d.mantissa / WordPow10(d.scale - decimals))
  {
    hide Pow10, WordPow10, Scaled, Wrap64;
    if decimals < 0 || decimals > 9 {
      return Refused;
    }
    if d.scale <= decimals {
      WordsSuffice(decimals - d.scale);
      var factor := WordPow10(decimals - d.scale);
      ScaledUp(d, decimals);
      WithinQuotient(d.mantissa, factor);
      if d.mantissa != 0 && (d.mantissa > MAX_MANTISSA / factor || d.mantissa < -(MAX_MANTISSA / factor)) {
        return Refused;
      }
      return Number(d.mantissa * factor);
    }
    WordPow10Vanishes(d.scale - decimals);
    var divisor := WordPow10(d.scale - decimals);
    if divisor == 0 {
      return DividesByZero;
    }
    if d.scale <= decimals + 18 {
      WordsSuffice(d.scale - decimals);
      ScaledDown(d, decimals);
      Divisible(d.mantissa, divisor);
      Smaller(d.mantissa / divisor, divisor);
    } else {
      TooSmallToScale(d, decimals);
    }
    return if d.mantissa % divisor != 0 then Refused else Number(d.mantissa / divisor);
  }

  // With more than 18 digits too many, nothing but a refusal is right (and zero has no digits).
  lemma TooSmallToScale(d: Decimal, decimals: nat)
    requires Fits(d.mantissa) && d.scale > decimals + 18
    ensures Canonical(d) ==> forall v :: !Scaled(d, decimals, v)
  {
    hide Scaled, Pow10;
    ScaledDown(d, decimals);
    Pow10Fits(d.scale - decimals);
    var p := Pow10(d.scale - decimals);
    if Canonical(d) {
      forall v
        ensures v * p != d.mantissa
      {
        if v >= 1 {
          MulMono(1, v, p);
        } else if v <= -1 {
          MulMono(v, -1, p);
        }
      }
    }
  }

  lemma ScaledUp(d: Decimal, decimals: nat)
    requires d.scale <= decimals
    ensures forall v :: Scaled(d, decimals, v) <==> v == d.mantissa * Pow10(decimals - d.scale)
  {
    var f, p := Pow10(decimals - d.scale), Pow10(d.scale);
    Pow10Add(decimals - d.scale, d.scale);
    assert d.mantissa * (f * p) == (d.mantissa * f) * p;
    forall v
      ensures Scaled(d, decimals, v) <==> v == d.mantissa * f
    {
      if Scaled(d, decimals, v) {
        Cancel(v, d.mantissa * f, p);
      }
    }
  }

  lemma ScaledDown(d: Decimal, decimals: nat)
    requires d.scale > decimals
    ensures forall v :: Scaled(d, decimals, v) <==> v * Pow10(d.scale - decimals) == d.mantissa
  {
    hide Pow10;
    var f, p := Pow10(d.scale - decimals), Pow10(decimals);
    Pow10Add(d.scale - decimals, decimals);
    forall v
      ensures Scaled(d, decimals, v) <==> v * f == d.mantissa
    {
      Assoc(v, f, p);
      assert Pow10(d.scale) == f * p;
      if Scaled(d, decimals, v) {
        Cancel(v * f, d.mantissa, p);
      }
    }
  }

  // The only candidate is the quotient, and it is one if nothing is left over.
  lemma Divisible(m: int, d: nat)
    requires d > 0
    ensures m % d == 0 ==> m / d * d == m
    ensures m % d != 0 ==> forall v :: v * d != m
  {
    if v :| v * d == m {
      MultipleOf(v, d);
    }
  }

  lemma MultipleOf(v: int, d: nat)
    requires d > 0
    ensures (v * d) % d == 0
  {
    DivUnique(v * d, d, v);
  }

  lemma Smaller(v: int, d: nat)
    requires d > 0
    ensures v >= 0 ==> v <= v * d
    ensures v <= 0 ==> v * d <= v
  {
    if v >= 0 {
      MulMono(1, d, v);
    } else {
      MulMono(1, d, -v);
    }
  }

  lemma WithinQuotient(m: int, f: nat)
    requires f > 0
    ensures -(MAX_MANTISSA / f) <= m <= MAX_MANTISSA / f <==> -MAX_MANTISSA <= m * f <= MAX_MANTISSA
  {
    DivBounds(MAX_MANTISSA, f);
    var q := MAX_MANTISSA / f;
    MulNext(q, f);
    if m > q {
      MulMono(q + 1, m, f);
    } else {
      MulMono(m, q, f);
    }
    if -m > q {
      MulMono(q + 1, -m, f);
    } else {
      MulMono(-m, q, f);
    }
  }

  // C++ division rounds toward zero.
  function Quotient(a: int, b: int): int
    requires b != 0
  {
    var q := (if a < 0 then -a else a) / (if b < 0 then -b else b);
    if (a < 0) == (b < 0) then q else -q
  }

  predicate HalfUp(d: Decimal, ticksPerSecond: int, v: int) {
    (2 * v - 1) * Pow10(d.scale) <= 2 * (d.mantissa * ticksPerSecond) < (2 * v + 1) * Pow10(d.scale)
  }

  // Everything the conversion computes is one word long.
  predicate TicksFit(d: Decimal, ticksPerSecond: int) {
    d.scale <= 18 && 2 * (d.mantissa * ticksPerSecond) + Pow10(d.scale) < 0x8000_0000_0000_0000
  }

  // value * ticksPerSecond, rounded half up: up to 18 places exactly as long as the words suffice.
  method ToTicks(d: Decimal, ticksPerSecond: int) returns (r: Conversion)
    ensures r == Refused <==> d.mantissa < 0 || d.mantissa > 1_000_000_000_000 || ticksPerSecond <= 0
    ensures r.Number? && d.scale <= 18 ==> (HalfUp(d, ticksPerSecond, r.value) <==> TicksFit(d, ticksPerSecond))
    ensures r.Number? && d.scale > 18 && 2 * (d.mantissa * ticksPerSecond) < Pow10(d.scale) ==> (HalfUp(d, ticksPerSecond, r.value) <==> r.value == 0)
    ensures r == DividesByZero <==> r != Refused && d.scale >= 63
    ensures r != Refused ==> r == TicksInWords(d, ticksPerSecond)
  {
    hide Pow10, WordPow10, HalfUp, Wrap64, Quotient, TicksFit;
    if d.mantissa < 0 || ticksPerSecond <= 0 {
      return Refused;
    }
    if d.mantissa > 1_000_000_000_000 {
      return Refused;
    }
    var denominator := WordPow10(d.scale);
    var numerator := Wrap64(d.mantissa * ticksPerSecond);
    var above, below := Wrap64(Wrap64(numerator * 2) + denominator), Wrap64(denominator * 2);
    if d.scale <= 18 {
      TicksUpTo18(d, ticksPerSecond);
    } else {
      TooSmallForATick(d, ticksPerSecond);
    }
    DoubleVanishes(d.scale);
    if below == 0 {
      return DividesByZero;
    }
    return Number(Quotient(above, below));
  }

  // For every number that is let through and up to four million ticks a second (the server has 30) they do.
  lemma UsualTicksFit(d: Decimal, ticksPerSecond: int)
    requires 0 <= d.mantissa <= 1_000_000_000_000 && 0 < ticksPerSecond <= 4_000_000 && d.scale <= 18
    ensures TicksFit(d, ticksPerSecond)
  {
    hide Pow10;
    MulMono(d.mantissa, 1_000_000_000_000, ticksPerSecond);
    WordsAtMost(d.scale);
  }

  // With 18 places or fewer the words add up to one wrapped sum, and once that has wrapped the quotient is
  // off by more than one tick.
  lemma TicksUpTo18(d: Decimal, ticksPerSecond: int)
    requires 0 <= d.mantissa && 0 < ticksPerSecond && d.scale <= 18
    ensures var p := WordPow10(d.scale);
            var above, below := Wrap64(Wrap64(Wrap64(d.mantissa * ticksPerSecond) * 2) + p), Wrap64(p * 2);
            below != 0 && (HalfUp(d, ticksPerSecond, Quotient(above, below)) <==> TicksFit(d, ticksPerSecond))
  {
    hide Pow10, WordPow10, HalfUp, Quotient, Wrap64;
    WordsSuffice(d.scale);
    WordsAtMost(d.scale);
    WordsStart(d.scale);
    var n, p := d.mantissa * ticksPerSecond, Pow10(d.scale);
    MulMono(0, d.mantissa, ticksPerSecond);
    SumWraps(n, p);
    SmallStays(p * 2);
    if 2 * n + p < 0x8000_0000_0000_0000 {
      SmallStays(2 * n + p);
      TicksAreRounded(d, ticksPerSecond);
    } else {
      WrappedIsFar(2 * n + p);
      WrongByTicks(n, p, Wrap64(2 * n + p));
      HalfUpIs(d, ticksPerSecond, Quotient(Wrap64(2 * n + p), p * 2));
    }
  }

  lemma SmallStays(v: int)
    requires 0 <= v < 0x8000_0000_0000_0000
    ensures Wrap64(v) == v
  {
  }

  lemma HalfUpIs(d: Decimal, ticksPerSecond: int, v: int)
    ensures var n, p := d.mantissa * ticksPerSecond, Pow10(d.scale);
            HalfUp(d, ticksPerSecond, v) <==> (2 * v - 1) * p <= 2 * n < (2 * v + 1) * p
  {
    hide Pow10;
  }

  lemma WordsStart(n: nat)
    ensures Pow10(n) >= 1
  {
  }

  // Sums and doubles of wrapped words, wrapped, are the wrapped sum.
  lemma SumWraps(n: int, p: int)
    ensures Wrap64(Wrap64(Wrap64(n) * 2) + p) == Wrap64(2 * n + p)
  {
    var k := (n + 0x8000_0000_0000_0000) / 0x1_0000_0000_0000_0000;
    assert Wrap64(n) == n - k * 0x1_0000_0000_0000_0000;
    WrapShift(2 * n, 2 * k);
    var m := (2 * n + 0x8000_0000_0000_0000) / 0x1_0000_0000_0000_0000;
    assert Wrap64(2 * n) == 2 * n - m * 0x1_0000_0000_0000_0000;
    WrapShift(2 * n + p, m);
    hide Wrap64;
    assert Wrap64(n) * 2 == 2 * n - 2 * k * 0x1_0000_0000_0000_0000;
  }

  lemma WrappedIsFar(v: int)
    requires v >= 0x8000_0000_0000_0000
    ensures Wrap64(v) <= v - 0x1_0000_0000_0000_0000
  {
  }

  lemma WrongByTicks(n: int, p: int, above: int)
    requires 1 <= p <= 1_000_000_000_000_000_000 && above <= 2 * n + p - 0x1_0000_0000_0000_0000
    ensures var q := Quotient(above, p * 2); !((2 * q - 1) * p <= 2 * n < (2 * q + 1) * p)
  {
    var q := Quotient(above, p * 2);
    if above >= 0 {
      DivBounds(above, p * 2);
    } else {
      DivBounds(-above, p * 2);
    }
    assert q * (p * 2) <= above + p * 2;
    assert (2 * q + 1) * p == q * (p * 2) + p;
  }

  function TicksInWords(d: Decimal, ticksPerSecond: int): Conversion {
    var denominator := WordPow10(d.scale);
    var above := Wrap64(Wrap64(Wrap64(d.mantissa * ticksPerSecond) * 2) + denominator);
    var below := Wrap64(denominator * 2);
    if below == 0 then DividesByZero else Number(Quotient(above, below))
  }

  // Less than half a tick: nothing but 0 is right. (So it is beyond 18 places, for up to four million ticks
  // a second.)
  lemma TooSmallForATick(d: Decimal, ticksPerSecond: int)
    requires 0 <= d.mantissa <= 1_000_000_000_000 && 0 < ticksPerSecond
    ensures 2 * (d.mantissa * ticksPerSecond) < Pow10(d.scale) ==> forall v :: HalfUp(d, ticksPerSecond, v) <==> v == 0
    ensures d.scale > 18 && ticksPerSecond <= 4_000_000 ==> 2 * (d.mantissa * ticksPerSecond) < Pow10(d.scale)
  {
    hide Pow10;
    Pow10Fits(d.scale);
    MulMono(0, d.mantissa, ticksPerSecond);
    MulMono(d.mantissa, 1_000_000_000_000, ticksPerSecond);
    var p, n := Pow10(d.scale), 2 * (d.mantissa * ticksPerSecond);
    if n < p {
      forall v
        ensures HalfUp(d, ticksPerSecond, v) <==> v == 0
      {
        if v >= 1 {
          MulMono(1, 2 * v - 1, p);
        } else if v <= -1 {
          MulMono(2 * v + 1, -1, p);
        }
      }
    }
  }

  // The doubled power is 0 from 63 zeros on, and never before.
  lemma DoubleVanishes(n: nat)
    ensures Wrap64(WordPow10(n) * 2) == 0 <==> n >= 63
  {
    WordsAt();
    WordPow10Vanishes(n);
    WordPow10Vanishes(n + 1);
    TenIsFiveTwos(WordPow10(n));
    assert WordPow10(n + 1) == Wrap64(10 * WordPow10(n));
    hide WordPow10;
    if n == 63 {
      assert Wrap64(-0x8000_0000_0000_0000 * 2) == 0;
    }
  }

  lemma TenIsFiveTwos(w: int)
    ensures Wrap64(w * 2) == 0 ==> Wrap64(10 * w) == 0
  {
    if Wrap64(w * 2) == 0 {
      var k := (w * 2 + 0x8000_0000_0000_0000) / 0x1_0000_0000_0000_0000;
      assert w * 2 == k * 0x1_0000_0000_0000_0000;
      hide Wrap64;
      WrapShift(0, -5 * k);
      ZeroWraps();
      assert 10 * w == 0 - (-5 * k) * 0x1_0000_0000_0000_0000;
    }
  }

  lemma ZeroWraps()
    ensures Wrap64(0) == 0
  {
  }

  lemma WordsAtMost(n: nat)
    requires n <= 18
    ensures Pow10(n) <= 1_000_000_000_000_000_000
  {
    hide Pow10;
    Pow10Add(n, 18 - n);
    Powers();
    MulMono(1, Pow10(18 - n), Pow10(n));
    assert Pow10(n) * Pow10(18 - n) == Pow10(18 - n) * Pow10(n);
  }

  lemma TicksAreRounded(d: Decimal, ticksPerSecond: int)
    requires d.mantissa >= 0 && ticksPerSecond > 0
    ensures HalfUp(d, ticksPerSecond, Quotient(2 * (d.mantissa * ticksPerSecond) + Pow10(d.scale), 2 * Pow10(d.scale)))
  {
    var p := Pow10(d.scale);
    var n := d.mantissa * ticksPerSecond;
    MulMono(0, d.mantissa, ticksPerSecond);
    var q := (2 * n + p) / (2 * p);
    DivBounds(2 * n + p, 2 * p);
    assert q * (2 * p) == 2 * q * p;
    assert (2 * q - 1) * p == 2 * q * p - p;
    assert (2 * q + 1) * p == 2 * q * p + p;
  }

  // ---- Where the words are too short ---------------------------------------------------------------

  // A number that is no integer, far below 1, converts to the integer 1.
  lemma TinyScalesToOne()
    ensures var d := Decimal(68739955140067328, 37);
            Canonical(d) && Fits(d.mantissa) && d.mantissa == WordPow10(d.scale) && !LeavesRest(d.mantissa, d.scale) && !IsExact(d, 0, Number(1))
  {
    WordsAt();
    TooSmallToScale(Decimal(68739955140067328, 37), 0);
    hide Scaled, WordPow10;
  }

  // 1e-19 seconds, at 30 ticks a second, are minus five ticks.
  lemma TicksBelowZero()
    ensures TicksInWords(Decimal(1, 19), 30) == Number(-5) && !HalfUp(Decimal(1, 19), 30, -5)
  {
    hide WordPow10, Pow10;
    WordsAt();
    Powers();
    assert Wrap64(1 * 30) == 30 && Wrap64(30 * 2) == 60;
    assert Wrap64(60 + -8446744073709551616) == -8446744073709551556 && Wrap64(-8446744073709551616 * 2) == 1553255926290448384;
    hide Wrap64;
    assert Quotient(-8446744073709551556, 1553255926290448384) == -5;
  }

  // Both are accepted: every number below 1 with at most 18 significant digits can be written out.
  lemma BelowOneIsWritten(d: Decimal) returns (l: Literal)
    requires 0 <= d.mantissa <= MAX_MANTISSA && d.mantissa < Pow10(d.scale)
    ensures LiteralOk(l) && WithinLimits(l) && Denotes(d, l)
  {
    hide Pow10, Written, Significant, NatOf, AllDigits, LiteralOk, WithinLimits, Denotes;
    var f := Written(d.mantissa, d.scale);
    l := Literal(false, "0", f, None);
    WrittenIs(d.mantissa, d.scale);
    WithAZero(d.mantissa, d.scale);
    WrittenIs(d.mantissa, d.scale + 1);
    Powers();
    FewDigits(Written(d.mantissa, d.scale + 1), 18);
    BelowOne(f, d);
  }

  lemma BelowOne(f: string, d: Decimal)
    requires AllDigits(f) && |f| == d.scale && AllDigits("0" + f) && NatOf("0" + f) == d.mantissa && Significant("0" + f) <= 18
    ensures var l := Literal(false, "0", f, None); LiteralOk(l) && WithinLimits(l) && Denotes(d, l)
  {
    ZeroPower();
    hide Pow10, NatOf, Significant;
    assert WholeOk("0");
  }

  lemma ZeroPower()
    ensures Pow10(0) == 1
  {
  }

  function Written(m: nat, n: nat): string {
    if n == 0 then "" else Written(m / 10, n - 1) + ['0' + (m % 10) as char]
  }

  lemma {:induction false} WrittenIs(m: nat, n: nat)
    requires m < Pow10(n)
    ensures |Written(m, n)| == n && AllDigits(Written(m, n)) && NatOf(Written(m, n)) == m
  {
    if n > 0 {
      WrittenIs(m / 10, n - 1);
      var s := Written(m, n);
      assert s[..|s| - 1] == Written(m / 10, n - 1);
    }
  }

  lemma {:induction false} WithAZero(m: nat, n: nat)
    requires m < Pow10(n)
    ensures Written(m, n + 1) == "0" + Written(m, n) && m < Pow10(n + 1)
  {
    if n == 0 {
      assert Written(0, 0) == "";
    } else {
      WithAZero(m / 10, n - 1);
    }
  }

  lemma {:induction false} FewDigits(s: string, n: nat)
    requires AllDigits(s) && NatOf(s) < Pow10(n)
    ensures Significant(s) <= n
  {
    if s != "" && NatOf(s) > 0 && n > 0 {
      FewDigits(s[..|s| - 1], n - 1);
    }
  }
}
