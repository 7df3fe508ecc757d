/** The enumeration orders the render script relies on: range and itertools.product. */
module Itertools {

  /** range(n) */
  function Range(n: nat): (r: seq<nat>)
    ensures |r| == n && forall i :: 0 <= i < n ==> r[i] == i
  {
    seq(n, i requires 0 <= i < n => i)
  }

  /** itertools.product(outer, inner): all pairs, the outer element varying slowest. */
  function Product<A, B>(outer: seq<A>, inner: seq<B>): seq<(A, B)>
  {
    if outer == [] then []
    else
      Product(outer[..|outer| - 1], inner) +
      seq(|inner|, c requires 0 <= c < |inner| => (outer[|outer| - 1], inner[c]))
  }

  lemma {:induction false} ProductLength<A, B>(outer: seq<A>, inner: seq<B>)
    ensures |Product(outer, inner)| == |outer| * |inner|
  {
    if outer != [] {
      ProductLength(outer[..|outer| - 1], inner);
      assert (|outer| - 1) * |inner| + |inner| == |outer| * |inner|;
    }
  }

  /** Row r of a table with n columns ends before row r + 1 starts. */
  lemma {:induction false} RowStart(r: nat, m: nat, n: nat, c: nat)
    requires r < m && c < n
    ensures r * n + c < m * n
    ensures r * n + c - r * n == c
    decreases m
  {
    if r + 1 < m {
      RowStart(r, m - 1, n, c);
      assert (m - 1) * n + n == m * n;
    } else {
      assert r * n + n == m * n;
    }
  }

  /** Pair number r * |inner| + c of the product is (outer[r], inner[c]). */
  lemma {:induction false} ProductAt<A, B>(outer: seq<A>, inner: seq<B>, r: nat, c: nat)
    requires r < |outer| && c < |inner|
    ensures |Product(outer, inner)| == |outer| * |inner|
    ensures r * |inner| + c < |outer| * |inner|
    ensures Product(outer, inner)[r * |inner| + c] == (outer[r], inner[c])
    decreases |outer|
  {
    var n := |inner|;
    var last := |outer| - 1;
    var init := outer[..last];
    ProductLength(outer, inner);
    ProductLength(init, inner);
    RowStart(r, |outer|, n, c);
    var k := r * n + c;
    var p := Product(outer, inner);
    var front := Product(init, inner);
    assert p == front + seq(n, j requires 0 <= j < n => (outer[last], inner[j]));
    if r < last {
      ProductAt(init, inner, r, c);
      RowStart(r, last, n, c);
      assert p[k] == front[k];
    } else {
      assert |front| == last * n == r * n;
      assert p[k] == (outer[last], inner[k - r * n]);
    }
  }
}
