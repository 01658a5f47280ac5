/**
 * The polynomial arithmetic that the polynomial branch of bdsnr and bdrate
 * (src/utils/bd.py) does with numpy: `np.polyint` takes the antiderivative of
 * the fitted cubic and `np.polyval` evaluates it at the ends of the
 * integration interval. Coefficient lists are numpy's: highest degree first.
 */
module Polynomial {

  /** The four coefficients `np.polyfit(xs, ys, 3)` returns: c3*x^3 + c2*x^2 + c1*x + c0. */
  datatype Cubic = Cubic(c3: real, c2: real, c1: real, c0: real)

  function Coefficients(c: Cubic): seq<real> {
    [c.c3, c.c2, c.c1, c.c0]
  }

  /** `np.polyval(p, x)`: Horner's rule over coefficients given highest degree first. */
  function Eval(p: seq<real>, x: real): real {
    if p == [] then 0.0 else Eval(p[..|p| - 1], x) * x + p[|p| - 1]
  }

  /**
   * `np.polyint(p)`: the antiderivative whose constant term is 0. Coefficient
   * `i` of `p` belongs to x^(|p|-1-i) and coefficient `i` of `q` to x^(|p|-i),
   * so the second ensures says: the x^(k+1) coefficient of `q`, times k+1, is
   * the x^k coefficient of `p`.
   */
  function Antiderivative(p: seq<real>): (q: seq<real>)
    ensures |q| == |p| + 1
    ensures forall i :: 0 <= i < |p| ==> q[i] * (|p| - i) as real == p[i]
    ensures q[|p|] == 0.0
  {
    seq(|p| + 1, i requires 0 <= i <= |p| => if i < |p| then p[i] / (|p| - i) as real else 0.0)
  }

  /** `np.polyval(P, b) - np.polyval(P, a)` with `P = np.polyint(p)`. */
  function DefiniteIntegral(p: seq<real>, a: real, b: real): real {
    Eval(Antiderivative(p), b) - Eval(Antiderivative(p), a)
  }

  /** The antiderivative of a cubic written out in closed form. */
  function CubicPrimitive(c: Cubic, x: real): real {
    c.c3 * x * x * x * x / 4.0 + c.c2 * x * x * x / 3.0 + c.c1 * x * x / 2.0 + c.c0 * x
  }

  /** The cubic raised by `d` everywhere. */
  function Raise(c: Cubic, d: real): Cubic {
    c.(c0 := c.c0 + d)
  }

  /** Evaluating `np.polyint` of a fitted cubic gives c3 x^4/4 + c2 x^3/3 + c1 x^2/2 + c0 x. */
  lemma AntiderivativeOfCubic(c: Cubic, x: real)
    ensures Eval(Antiderivative(Coefficients(c)), x) == CubicPrimitive(c, x)
  {
    var q := Antiderivative(Coefficients(c));
    assert q[0] * 4.0 == c.c3 && q[1] * 3.0 == c.c2 && q[2] * 2.0 == c.c1 && q[3] * 1.0 == c.c0;
    assert q == [c.c3 / 4.0, c.c2 / 3.0, c.c1 / 2.0, c.c0, 0.0];
    assert q[..4] == [c.c3 / 4.0, c.c2 / 3.0, c.c1 / 2.0, c.c0];
    assert q[..4][..3] == [c.c3 / 4.0, c.c2 / 3.0, c.c1 / 2.0];
    assert q[..4][..3][..2] == [c.c3 / 4.0, c.c2 / 3.0];
    assert q[..4][..3][..2][..1] == [c.c3 / 4.0];
    assert [c.c3 / 4.0][..0] == [];
    calc {
      Eval(q, x);
      Eval(q[..4], x) * x;
      (Eval(q[..4][..3], x) * x + c.c0) * x;
      ((Eval(q[..4][..3][..2], x) * x + c.c1 / 2.0) * x + c.c0) * x;
      (((Eval([c.c3 / 4.0], x) * x + c.c2 / 3.0) * x + c.c1 / 2.0) * x + c.c0) * x;
      (((c.c3 / 4.0 * x + c.c2 / 3.0) * x + c.c1 / 2.0) * x + c.c0) * x;
      CubicPrimitive(c, x);
    }
  }

  /** The integral over a one-point interval is 0. */
  lemma IntegralOverPoint(p: seq<real>, a: real)
    ensures DefiniteIntegral(p, a, a) == 0.0
  {
  }

  /** Integrals over adjacent intervals add up: over [a,b] plus over [b,c] is over [a,c]. */
  lemma IntegralAdditive(p: seq<real>, a: real, b: real, c: real)
    ensures DefiniteIntegral(p, a, b) + DefiniteIntegral(p, b, c) == DefiniteIntegral(p, a, c)
  {
  }

  /** Raising a cubic by `d` adds `d * (b - a)` to its integral over [a,b]. */
  lemma RaisedCubicIntegral(c: Cubic, d: real, a: real, b: real)
    ensures DefiniteIntegral(Coefficients(Raise(c, d)), a, b)
         == DefiniteIntegral(Coefficients(c), a, b) + d * (b - a)
  {
    AntiderivativeOfCubic(c, a);
    AntiderivativeOfCubic(c, b);
    AntiderivativeOfCubic(Raise(c, d), a);
    AntiderivativeOfCubic(Raise(c, d), b);
    RaisedPrimitive(c, d, a);
    RaisedPrimitive(c, d, b);
  }

  lemma RaisedPrimitive(c: Cubic, d: real, x: real)
    ensures CubicPrimitive(Raise(c, d), x) == CubicPrimitive(c, x) + d * x
  {
  }
}
