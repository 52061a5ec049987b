/**
 * The two ways the repository evaluates a calibration polynomial:
 * `coeff.dot([v**i for i in range(10)])` (ascending coefficients against a
 * vector of powers) and `np.polyval(param[::-1], V)` (Horner's scheme on the
 * reversed, highest-power-first coefficients).
 */
module Polynomial {

  function Pow(x: real, k: nat): real
  {
    if k == 0 then 1.0 else x * Pow(x, k - 1)
  }

  /** The vector `[x**i for i in range(n)]`. */
  function Powers(x: real, n: nat): (p: seq<real>)
    ensures |p| == n && forall i :: 0 <= i < n ==> p[i] == Pow(x, i)
  {
    seq(n, i requires 0 <= i < n => Pow(x, i))
  }

  /** `numpy.dot` of two vectors of equal length. */
  function Dot(a: seq<real>, b: seq<real>): real
    requires |a| == |b|
  {
    if a == [] then 0.0 else a[0] * b[0] + Dot(a[1..], b[1..])
  }

  /** `numpy.polyval(p, x)`: p holds the highest power first; y := y * x + c for each c. */
  function PolyVal(p: seq<real>, x: real): real
  {
    if p == [] then 0.0 else PolyVal(p[..|p| - 1], x) * x + p[|p| - 1]
  }

  /** `s[::-1]`. */
  function Reverse<T>(s: seq<T>): (r: seq<T>)
    ensures |r| == |s|
  {
    seq(|s|, i requires 0 <= i < |s| => s[|s| - 1 - i])
  }

  /** The ascending coefficient vector of the monomial x^k, n coefficients long. */
  function Monomial(n: nat, k: nat): seq<real>
  {
    seq(n, i => if i == k then 1.0 else 0.0)
  }

  /** Every entry of b multiplied by x. */
  function Scaled(x: real, b: seq<real>): (r: seq<real>)
    ensures |r| == |b| && forall i :: 0 <= i < |b| ==> r[i] == x * b[i]
  {
    seq(|b|, i requires 0 <= i < |b| => x * b[i])
  }

  lemma {:induction false} DotScaled(a: seq<real>, b: seq<real>, x: real)
    requires |a| == |b|
    ensures Dot(a, Scaled(x, b)) == x * Dot(a, b)
  {
    if a != [] {
      var xb := Scaled(x, b);
      forall i | 0 <= i < |b| - 1 ensures xb[1..][i] == Scaled(x, b[1..])[i] {
        assert xb[1..][i] == x * b[i + 1];
      }
      assert xb[1..] == Scaled(x, b[1..]);
      DotScaled(a[1..], b[1..], x);
      assert Dot(a, xb) == a[0] * (x * b[0]) + x * Dot(a[1..], b[1..]);
    }
  }

  /**
   * Both evaluations agree: Horner on the reversed coefficients is the dot
   * product of the ascending coefficients with the powers of x.
   */
  lemma {:induction false} PolyValOfReversed(c: seq<real>, x: real)
    ensures PolyVal(Reverse(c), x) == Dot(c, Powers(x, |c|))
  {
    if c != [] {
      var n := |c|;
      var r := Reverse(c);
      var tail := Reverse(c[1..]);
      forall i | 0 <= i < n - 1 ensures r[..n - 1][i] == tail[i] {
        assert r[i] == c[n - 1 - i];
      }
      assert r[..n - 1] == tail;
      assert r[n - 1] == c[0];
      var p := Powers(x, n - 1);
      var q := Powers(x, n);
      forall i | 0 <= i < n - 1 ensures q[1..][i] == Scaled(x, p)[i] {
        assert q[1..][i] == Pow(x, i + 1);
      }
      assert q[1..] == Scaled(x, p);
      calc {
        PolyVal(r, x);
        PolyVal(tail, x) * x + c[0];
        { PolyValOfReversed(c[1..], x); }
        Dot(c[1..], p) * x + c[0];
        { DotScaled(c[1..], p, x); }
        Dot(c[1..], q[1..]) + c[0] * q[0];
      }
    }
  }

  lemma PolyValOfReversedAll(c: seq<real>)
    ensures forall x :: PolyVal(Reverse(c), x) == Dot(c, Powers(x, |c|))
  {
    forall x ensures PolyVal(Reverse(c), x) == Dot(c, Powers(x, |c|)) {
      PolyValOfReversed(c, x);
    }
  }

  /** A dot product with a unit coefficient vector picks out one entry. */
  lemma {:induction false} DotMonomial(n: nat, k: nat, b: seq<real>)
    requires |b| == n
    ensures Dot(Monomial(n, k), b) == if k < n then b[k] else 0.0
  {
    if n > 0 {
      var m := Monomial(n, k);
      if k == 0 {
        assert m[1..] == Monomial(n - 1, n);
        DotMonomial(n - 1, n, b[1..]);
      } else {
        assert m[1..] == Monomial(n - 1, k - 1);
        DotMonomial(n - 1, k - 1, b[1..]);
      }
    }
  }

  /** The coefficients [0, 1, 0, ..., 0] describe the identity line v -> v. */
  lemma IdentityPolynomial(n: nat, x: real)
    requires n >= 2
    ensures Dot(Monomial(n, 1), Powers(x, n)) == x
  {
    DotMonomial(n, 1, Powers(x, n));
  }
}
