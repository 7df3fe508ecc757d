/**
 * The two-dimensional polynomial surface of the render script (polyfit2d, polyval2d).
 * Column k of the fit's design matrix is x^i * y^j for the k-th pair (i, j) of
 * product(range(order + 1), range(order + 1)); evaluation recovers the order from the
 * number of coefficients and walks the same pairs. The least-squares solve is not modelled.
 */
module Poly2d {
  import opened Itertools

  /** x ** n, with 0 ** 0 == 1 as in Python. */
  function Pow(x: real, n: nat): real
  {
    if n == 0 then 1.0 else x * Pow(x, n - 1)
  }

  /** The monomial x^i * y^j for the exponent pair (i, j). */
  function Monomial(x: real, y: real, ij: (nat, nat)): real
  {
    Pow(x, ij.0) * Pow(y, ij.1)
  }

  /** The exponent pairs of a polynomial with n = order + 1 powers per variable. */
  function Terms(n: nat): seq<(nat, nat)>
  {
    Product(Range(n), Range(n))
  }

  /** The monomials x^i * y^j at one point, in term order: one row of the design matrix. */
  function DesignRow(x: real, y: real, n: nat): (row: seq<real>)
    ensures |row| == n * n
  {
    var ts := Terms(n);
    ProductLength(Range(n), Range(n));
    seq(|ts|, k requires 0 <= k < |ts| => Monomial(x, y, ts[k]))
  }

  /** Term order: (order + 1)^2 columns, column i * (order + 1) + j being x^i * y^j. */
  lemma DesignRowAt(x: real, y: real, n: nat, i: nat, j: nat)
    requires i < n && j < n
    ensures |DesignRow(x, y, n)| == n * n
    ensures i * n + j < n * n
    ensures DesignRow(x, y, n)[i * n + j] == Monomial(x, y, (i, j))
  {
    ProductAt(Range(n), Range(n), i, j);
    var k := i * n + j;
    var ts := Terms(n);
    assert ts[k] == (i, j);
  }

  /** sum(a[k] * b[k]) over two sequences of equal length. */
  function Dot(a: seq<real>, b: seq<real>): real
    requires |a| == |b|
  {
    if a == [] then 0.0 else Dot(a[..|a| - 1], b[..|b| - 1]) + a[|a| - 1] * b[|b| - 1]
  }

  /** int(np.sqrt(len)) for a length: the largest r with r * r <= len. */
  function ISqrt(len: nat): (r: nat)
    ensures r * r <= len < (r + 1) * (r + 1)
  {
    ISqrtFrom(len, 0)
  }

  function ISqrtFrom(len: nat, r: nat): (s: nat)
    requires r * r <= len
    ensures s * s <= len < (s + 1) * (s + 1)
    decreases len - r
  {
    if (r + 1) * (r + 1) > len then r
    else
      assert r < len - r || r == 0 by {
        assert r * r + 2 * r + 1 <= len;
      }
      ISqrtFrom(len, r + 1)
  }

  lemma ISqrtOfSquare(n: nat)
    ensures ISqrt(n * n) == n
  {
    var r := ISqrt(n * n);
    SquareOrder(r, n);
    SquareOrder(r + 1, n);
  }

  lemma MulLe(a: nat, b: nat)
    requires a <= b
    ensures a * a <= b * b
  {
    assert a * a <= a * b <= b * b;
  }

  lemma MulLt(a: nat, b: nat)
    requires a < b
    ensures a * a < b * b
  {
    assert a * a <= a * b;
    assert a * b < b * b;
  }

  /** On naturals, squares are ordered as their roots. */
  lemma SquareOrder(a: nat, b: nat)
    ensures a * a <= b * b <==> a <= b
  {
    if a <= b {
      MulLe(a, b);
    } else {
      MulLt(b, a);
    }
  }

  /** What polyval2d returns at one point: zip truncates the coefficients to the recovered terms. */
  function PolyValue(x: real, y: real, m: seq<real>): real
  {
    var n := ISqrt(|m|);
    ProductLength(Range(n), Range(n));
    Dot(m[..n * n], DesignRow(x, y, n))
  }

  /** polyval2d at one point (the array form applies it element by element). */
  method PolyVal2d(x: real, y: real, m: seq<real>) returns (z: real)
    ensures z == PolyValue(x, y, m)
  {
    var n := ISqrt(|m|);
    var ij := Terms(n);
    ProductLength(Range(n), Range(n));
    var row := DesignRow(x, y, n);
    var coeffs := m[..n * n];
    var count := |ij|;
    assert |coeffs| == count == |row|;
    z := 0.0;
    var k := 0;
    while k < count
      invariant 0 <= k <= count
      invariant z == Dot(coeffs[..k], row[..k])
    {
      var term := Monomial(x, y, ij[k]);
      DesignRowIndex(x, y, n, k);
      DotStep(coeffs, row, k, term);
      z := z + coeffs[k] * term;
      k := k + 1;
    }
    assert coeffs[..k] == coeffs && row[..k] == row;
  }

  /** Entry k of a design row is the monomial of the k-th exponent pair. */
  lemma DesignRowIndex(x: real, y: real, n: nat, k: nat)
    requires k < |Terms(n)|
    ensures k < |DesignRow(x, y, n)|
    ensures DesignRow(x, y, n)[k] == Monomial(x, y, Terms(n)[k])
  {
    ProductLength(Range(n), Range(n));
  }

  /** One more product in the running dot product of two prefixes. */
  lemma DotStep(a: seq<real>, b: seq<real>, k: nat, t: real)
    requires k < |a| && k < |b| && b[k] == t
    ensures Dot(a[..k + 1], b[..k + 1]) == Dot(a[..k], b[..k]) + a[k] * t
  {
    assert a[..k + 1][..k] == a[..k] && b[..k + 1][..k] == b[..k];
  }

  /**
   * Evaluating a fitted coefficient vector (length (order + 1)^2) pairs coefficient k
   * with column k of the fit's design matrix.
   */
  lemma PolyValueMatchesFitColumns(x: real, y: real, m: seq<real>, order: nat)
    requires |m| == (order + 1) * (order + 1)
    ensures |DesignRow(x, y, order + 1)| == |m|
    ensures PolyValue(x, y, m) == Dot(m, DesignRow(x, y, order + 1))
  {
    ISqrtOfSquare(order + 1);
    ProductLength(Range(order + 1), Range(order + 1));
    assert m[..|m|] == m;
  }

  /** Coefficients beyond the largest square count are ignored, as zip drops them. */
  lemma PolyValueIgnoresExtra(x: real, y: real, m: seq<real>, extra: seq<real>)
    requires ISqrt(|m| + |extra|) == ISqrt(|m|)
    ensures PolyValue(x, y, m + extra) == PolyValue(x, y, m)
  {
    var n := ISqrt(|m|);
    assert (m + extra)[..n * n] == m[..n * n];
  }

  /** polyfit2d's design matrix G: one row per sample, one column per term. */
  method DesignMatrix(xs: seq<real>, ys: seq<real>, order: nat) returns (g: array2<real>)
    requires |xs| == |ys|
    ensures fresh(g)
    ensures g.Length0 == |xs| && g.Length1 == (order + 1) * (order + 1)
    ensures forall r, k :: 0 <= r < |xs| && 0 <= k < g.Length1 ==> g[r, k] == DesignRow(xs[r], ys[r], order + 1)[k]
  {
    var ncols := (order + 1) * (order + 1);
    g := new real[|xs|, ncols]((r, k) => 0.0);
    var ij := Terms(order + 1);
    ProductLength(Range(order + 1), Range(order + 1));
    var k := 0;
    while k < ncols
      invariant 0 <= k <= ncols
      invariant forall r, c :: 0 <= r < |xs| && 0 <= c < k ==> g[r, c] == DesignRow(xs[r], ys[r], order + 1)[c]
    {
      var (i, j) := ij[k];
      var r := 0;
      while r < |xs|
        invariant 0 <= r <= |xs|
        invariant forall r', c :: 0 <= r' < |xs| && 0 <= c < k ==> g[r', c] == DesignRow(xs[r'], ys[r'], order + 1)[c]
        invariant forall r' :: 0 <= r' < r ==> g[r', k] == DesignRow(xs[r'], ys[r'], order + 1)[k]
      {
        g[r, k] := Pow(xs[r], i) * Pow(ys[r], j);
        r := r + 1;
      }
      k := k + 1;
    }
  }
}
