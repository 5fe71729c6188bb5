/**
  The integer and floating-point operators of Java that the calculation relies on, restated
  over Dafny's unbounded `int` and exact `real`.  Dafny's own `/` and `%` are Euclidean,
  Java's truncate toward zero, so every use in the model goes through this module.
*/
module JavaNumerics {

  const IntMax: int := 0x7fff_ffff
  const IntMin: int := -0x8000_0000

  /** The real number is a whole number. */
  predicate IsWhole(x: real) {
    x == x.Floor as real
  }

  /** Rounds toward zero. */
  function Trunc(x: real): (n: int)
    ensures 0.0 <= x ==> n as real <= x < n as real + 1.0
    ensures x < 0.0 ==> n as real - 1.0 < x <= n as real
  {
    if x >= 0.0 then x.Floor else -((-x).Floor)
  }

  /** Java's narrowing cast `(int) x` of a double that is not NaN: truncation toward zero,
      saturating at the bounds of a 32-bit int. */
  function IntCast(x: real): (n: int)
    ensures IntMin <= n <= IntMax
    ensures IntMin as real < x < IntMax as real ==> n == Trunc(x)
    ensures IntMax as real <= x ==> n == IntMax
    ensures x <= IntMin as real ==> n == IntMin
  {
    if x >= IntMax as real then IntMax
    else if x <= IntMin as real then IntMin
    else Trunc(x)
  }

  /** Java's `a / b` on ints for a positive divisor: the quotient truncated toward zero. */
  function IntDiv(a: int, b: int): (q: int)
    requires 0 < b
    ensures 0 <= a ==> 0 <= a - q * b < b
    ensures a < 0 ==> -b < a - q * b <= 0
  {
    if a >= 0 then a / b else -((-a) / b)
  }

  /** The moduli the calculation takes remainders by: hours of a day and degrees of a turn. */
  predicate Modulus(m: real) {
    m == 24.0 || m == 360.0
  }

  /** Java's `x % m` on doubles: the remainder of the truncated division, which carries the
      sign of the dividend. */
  function Rem(x: real, m: real): (r: real)
    requires Modulus(m)
    ensures 0.0 <= x ==> 0.0 <= r < m
    ensures x < 0.0 ==> -m < r <= 0.0
    ensures IsWhole((x - r) / m)
  {
    if m == 24.0 then RemByDay(x) else RemByTurn(x)
  }

  /** `x % 24`. */
  function RemByDay(x: real): (r: real)
    ensures 0.0 <= x ==> 0.0 <= r < 24.0
    ensures x < 0.0 ==> -24.0 < r <= 0.0
    ensures IsWhole((x - r) / 24.0)
  {
    var q := Trunc(x / 24.0);
    assert (x - (x - 24.0 * q as real)) / 24.0 == q as real;
    x - 24.0 * q as real
  }

  /** `x % 360`. */
  function RemByTurn(x: real): (r: real)
    ensures 0.0 <= x ==> 0.0 <= r < 360.0
    ensures x < 0.0 ==> -360.0 < r <= 0.0
    ensures IsWhole((x - r) / 360.0)
  {
    var q := Trunc(x / 360.0);
    assert (x - (x - 360.0 * q as real)) / 360.0 == q as real;
    x - 360.0 * q as real
  }

  lemma {:induction false} MulLeftMono(m: real, a: real, b: real)
    requires 0.0 < m && a <= b
    ensures m * a <= m * b
    ensures a < b ==> m * a < m * b
  {
  }

  /** A double of the calculation: a finite value, or one of the two non-finite values a
      division by zero inside it can produce. */
  datatype ExtendedReal = Finite(value: real) | NegativeInfinity | NotANumber

  /** IEEE 754 addition restricted to these values: NaN absorbs everything, and negative
      infinity absorbs every finite value. */
  function Plus(a: ExtendedReal, b: ExtendedReal): (r: ExtendedReal)
    ensures r.NotANumber? <==> a.NotANumber? || b.NotANumber?
    ensures r.NegativeInfinity? <==> !r.NotANumber? && (a.NegativeInfinity? || b.NegativeInfinity?)
    ensures r.Finite? ==> a.Finite? && b.Finite? && r.value == a.value + b.value
  {
    if a.NotANumber? || b.NotANumber? then NotANumber
    else if a.NegativeInfinity? || b.NegativeInfinity? then NegativeInfinity
    else Finite(a.value + b.value)
  }

  /** Summing in another grouping gives the same value, as it does for exact reals. */
  lemma {:induction false} PlusAssociative(a: ExtendedReal, b: ExtendedReal, c: ExtendedReal)
    ensures Plus(Plus(a, b), c) == Plus(a, Plus(b, c))
  {
  }

  /** Zero is neutral on both sides. */
  lemma {:induction false} PlusZero(a: ExtendedReal)
    ensures Plus(Finite(0.0), a) == a
    ensures Plus(a, Finite(0.0)) == a
  {
  }

  /** Multiplication by a positive finite constant keeps the kind of the value. */
  function Scale(a: ExtendedReal, c: real): (r: ExtendedReal)
    requires 0.0 < c
    ensures r.Finite? == a.Finite? && r.NegativeInfinity? == a.NegativeInfinity?
    ensures a.Finite? ==> r.value == a.value * c
  {
    if a.Finite? then Finite(a.value * c) else a
  }

  /** `(int) x` for any of these values: NaN becomes 0, negative infinity the smallest int. */
  function IntCastExtended(a: ExtendedReal): (n: int)
    ensures IntMin <= n <= IntMax
    ensures a.NotANumber? ==> n == 0
    ensures a.NegativeInfinity? ==> n == IntMin
    ensures a.Finite? ==> n == IntCast(a.value)
  {
    match a
    case Finite(v) => IntCast(v)
    case NegativeInfinity => IntMin
    case NotANumber => 0
  }
}
