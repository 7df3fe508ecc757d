/** Small shared vocabulary: optional values, results, absolute value and 3-vectors. */
module Base {

  datatype Option<+T> = None | Some(value: T)

  /** The result of an operation that the source may abort with an exception. */
  datatype Result<+T, +E> = Ok(value: T) | Err(error: E) {
    predicate IsFailure() { Err? }

    function PropagateFailure<U>(): Result<U, E>
      requires Err?
    {
      Err(error)
    }

    function Extract(): T
      requires Ok?
    {
      value
    }
  }

  /** Python truthiness of an optional number: None and 0.0 are false. */
  predicate Truthy(x: Option<real>) {
    x.Some? && x.value != 0.0
  }

  /** Python's abs on a float, over the reals. */
  function Abs(x: real): (r: real)
    ensures r >= 0.0
    ensures r == x || r == -x
  {
    if x < 0.0 then -x else x
  }

  /** A point or vector; in the local frame x is north, y is east and z is down. */
  datatype Vec3 = Vec3(x: real, y: real, z: real)

  lemma SquareLess(a: real, b: real)
    requires 0.0 <= a < b
    ensures a * a < b * b
  {
    var lo, mid, hi := a * a, a * b, b * b;
    assert (b - a) * a >= 0.0 && (b - a) * b > 0.0;
    assert lo <= mid;
    assert mid < hi;
  }

  /** For non-negative reals, comparing squares is the same as comparing the values. */
  lemma SquareMonotone(a: real, b: real)
    requires a >= 0.0 && b >= 0.0
    ensures a <= b <==> a * a <= b * b
    ensures a < b <==> a * a < b * b
  {
    if a < b {
      SquareLess(a, b);
    } else if b < a {
      SquareLess(b, a);
    }
  }

  /** Two arrangements of the same elements with the same first element agree on the rest. */
  lemma SameTails<T>(s: seq<T>, t: seq<T>)
    requires s != [] && t != [] && s[0] == t[0]
    requires multiset(s) == multiset(t)
    ensures multiset(s[1..]) == multiset(t[1..])
  {
    assert s == [s[0]] + s[1..] && t == [t[0]] + t[1..];
    assert multiset(s[1..]) == multiset(s) - multiset{s[0]};
    assert multiset(t[1..]) == multiset(t) - multiset{t[0]};
  }

  /** A sequence that maps f over a + b is the map over a followed by the map over b. */
  lemma MapAppend<A, B>(f: A -> B, a: seq<A>, b: seq<A>, l: seq<B>, la: seq<B>, lb: seq<B>)
    requires |l| == |a| + |b| && |la| == |a| && |lb| == |b|
    requires forall i :: 0 <= i < |l| ==> l[i] == f((a + b)[i])
    requires forall i :: 0 <= i < |a| ==> la[i] == f(a[i])
    requires forall i :: 0 <= i < |b| ==> lb[i] == f(b[i])
    ensures l == la + lb
  {
    forall i | 0 <= i < |l|
      ensures l[i] == (la + lb)[i]
    {
      if i < |a| {
        assert (a + b)[i] == a[i];
      } else {
        assert (a + b)[i] == b[i - |a|];
      }
    }
  }
}
