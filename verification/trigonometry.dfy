/**
  The transcendental functions of `java.lang.Math` that the calculation calls.  Their values
  are not modelled: every operation that needs one takes a `MathFunctions` record, and the
  proofs use only the facts collected in `Sound`: ranges, and the value of `atan` at 0.  As in `java.lang.Math`, the
  functions work in radians; the degree helpers below do the conversions the source does.
*/
module Trigonometry {

  datatype MathFunctions = MathFunctions(
    pi: real,
    sin: real -> real,
    cos: real -> real,
    tan: real -> real,
    asin: real -> real,
    acos: real -> real,
    atan: real -> real,
    atan2: (real, real) -> real,
    exp: real -> real)

  /** The facts about the functions that the model relies on. */
  ghost predicate Sound(m: MathFunctions) {
    && 3.14 < m.pi < 3.15
    && (forall x :: -1.0 <= m.sin(x) <= 1.0)
    && (forall x :: -1.0 <= m.cos(x) <= 1.0)
    && m.cos(0.0) == 1.0
    && (forall x :: -m.pi / 2.0 <= m.asin(x) <= m.pi / 2.0)
    && (forall x :: 0.0 <= m.acos(x) <= m.pi)
    && (forall x :: -m.pi / 2.0 < m.atan(x) < m.pi / 2.0)
    && m.atan(0.0) == 0.0
    && (forall y, x :: -m.pi < m.atan2(y, x) <= m.pi)
    && (forall x :: 0.0 < m.exp(x))
  }

  /** `Math.toRadians`. */
  function ToRadians(m: MathFunctions, degrees: real): real {
    degrees * (m.pi / 180.0)
  }

  /** `Math.toDegrees`; scales a radian angle in [-pi, pi] to [-180, 180]. */
  function ToDegrees(m: MathFunctions, radians: real): (d: real)
    requires 0.0 < m.pi
    ensures -m.pi / 2.0 <= radians <= m.pi / 2.0 ==> -90.0 <= d <= 90.0
    ensures -m.pi / 2.0 < radians < m.pi / 2.0 ==> -90.0 < d < 90.0
    ensures -m.pi < radians <= m.pi ==> -180.0 < d <= 180.0
    ensures 0.0 <= radians <= m.pi ==> 0.0 <= d <= 180.0
  {
    var c := 180.0 / m.pi;
    assert c * m.pi == 180.0;
    ScaleBounds(radians, c, m.pi, 180.0);
    radians * c
  }

  /** Multiplying by the positive factor `c` maps every bound `b * p` to `b * cp`. */
  lemma {:induction false} ScaleBounds(r: real, c: real, p: real, cp: real)
    requires 0.0 < p && 0.0 < c && c * p == cp
    ensures -p / 2.0 <= r <= p / 2.0 ==> -cp / 2.0 <= r * c <= cp / 2.0
    ensures -p / 2.0 < r < p / 2.0 ==> -cp / 2.0 < r * c < cp / 2.0
    ensures -p < r <= p ==> -cp < r * c <= cp
    ensures 0.0 <= r <= p ==> 0.0 <= r * c <= cp
  {
    var h := p / 2.0;
    assert h * c == cp / 2.0 by { assert h * c == (p * c) / 2.0; }
    var nh, np := -h, -p;
    assert nh * c == -cp / 2.0 by { assert nh * c == -(h * c); }
    assert np * c == -cp by { assert np * c == -(p * c); }
    if r <= h { MulRightMono(r, h, c); }
    if nh <= r { MulRightMono(nh, r, c); }
    if r <= p { MulRightMono(r, p, c); }
    if np <= r { MulRightMono(np, r, c); }
    if 0.0 <= r { MulRightMono(0.0, r, c); }
  }

  lemma {:induction false} MulRightMono(a: real, b: real, c: real)
    requires 0.0 < c && a <= b
    ensures a * c <= b * c
    ensures a < b ==> a * c < b * c
  {
  }

  function SinDeg(m: MathFunctions, degrees: real): real {
    m.sin(ToRadians(m, degrees))
  }

  function CosDeg(m: MathFunctions, degrees: real): real {
    m.cos(ToRadians(m, degrees))
  }

  function TanDeg(m: MathFunctions, degrees: real): real {
    m.tan(ToRadians(m, degrees))
  }

  /** `k` full turns, in radians. */
  function FullTurns(m: MathFunctions, k: int): real {
    2.0 * m.pi * k as real
  }

  /** Sine and cosine repeat after every full turn, as the true functions do. */
  ghost predicate Periodic(m: MathFunctions) {
    forall k: int :: m.cos(FullTurns(m, k)) == 1.0 && m.sin(FullTurns(m, k)) == 0.0
  }
}
