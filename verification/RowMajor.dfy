/// Row-major layouts of arbitrary rank, and the integer facts every other module uses.
///
/// A shape is a sequence of extents; a multi-index names one element of it and
/// `Flatten` gives that element's position in row-major order.
module RowMajor {

  function Product(shape: seq<nat>): nat {
    if shape == [] then 1 else shape[0] * Product(shape[1..])
  }

  predicate InShape(shape: seq<nat>, index: seq<nat>) {
    |index| == |shape| && forall i :: 0 <= i < |shape| ==> index[i] < shape[i]
  }

  function Flatten(shape: seq<nat>, index: seq<nat>): nat
    requires InShape(shape, index)
  {
    if shape == [] then 0 else index[0] * Product(shape[1..]) + Flatten(shape[1..], index[1..])
  }

  function Unflatten(shape: seq<nat>, n: nat): seq<nat>
    requires n < Product(shape)
  {
    if shape == [] then []
    else
      var inner := Product(shape[1..]);
      PositiveFactors(shape[0], inner, n);
      [n / inner] + Unflatten(shape[1..], n % inner)
  }

  // ---- integer facts ----

  lemma PositiveFactors(a: nat, b: nat, n: nat)
    requires n < a * b
    ensures a > 0 && b > 0 && n / b < a
  {
    assert a == 0 || b == 0 ==> a * b == 0;
    if n / b >= a {
      MulMonotone(a, n / b, b);
      DivMod(n, b);
    }
  }

  lemma MulMonotone(a: int, b: int, c: int)
    requires a <= b && 0 <= c
    ensures a * c <= b * c
  {}

  lemma MulStrict(a: int, b: int, c: int)
    requires a < b && 0 <= c
    ensures a * c + c <= b * c
  {
    MulMonotone(a + 1, b, c);
  }

  lemma DivMod(n: int, d: int)
    requires d > 0
    ensures n == (n / d) * d + n % d && 0 <= n % d < d
  {}

  function Least(a: nat, b: nat): nat { if a < b then a else b }

  function Quotient(a: nat, b: nat): nat
    requires b > 0
  {
    DivMod(a, b);
    a / b
  }

  /// The quotient and remainder of a division are the only pair of their kind.
  lemma DivModUnique(n: int, d: int, q: int, r: int)
    requires d > 0 && 0 <= r < d && n == q * d + r
    ensures n / d == q && n % d == r
  {
    DivMod(n, d);
    var k := n / d;
    if k < q {
      MulStrict(k, q, d);
    } else if q < k {
      MulStrict(q, k, d);
    }
  }

  /// The smallest multiple count covering `a`.
  function DivUp(a: nat, b: nat): (r: nat)
    requires b > 0
    ensures r * b >= a
    ensures a > 0 ==> (r - 1) * b < a
    ensures a == 0 ==> r == 0
  {
    var r := (a + b - 1) / b;
    DivMod(a + b - 1, b);
    assert (r - 1) * b == r * b - b;
    if a == 0 then DivModUnique(b - 1, b, 0, b - 1); r else r
  }

  /// The least number of b's that cover a.
  lemma LeastCover(a: nat, b: nat, n: nat)
    requires b > 0
    ensures n * b >= a <==> DivUp(a, b) <= n
  {
    if DivUp(a, b) <= n { MulMonotone(DivUp(a, b), n, b); }
    else { MulMonotone(n, DivUp(a, b) - 1, b); }
  }

  lemma DivUpPositive(a: nat, b: nat)
    requires b > 0 && a > 0
    ensures DivUp(a, b) > 0
  {}

  // ---- layouts ----

  lemma FlattenBound(shape: seq<nat>, index: seq<nat>)
    requires InShape(shape, index)
    ensures Flatten(shape, index) < Product(shape)
  {
    if shape != [] {
      FlattenBound(shape[1..], index[1..]);
      MulStrict(index[0], shape[0], Product(shape[1..]));
    }
  }

  lemma {:induction false} UnflattenInShape(shape: seq<nat>, n: nat)
    requires n < Product(shape)
    ensures InShape(shape, Unflatten(shape, n))
  {
    if shape != [] {
      var inner := Product(shape[1..]);
      PositiveFactors(shape[0], inner, n);
      UnflattenInShape(shape[1..], n % inner);
    }
  }

  /// Flattening and unflattening are each other's inverses.
  lemma {:induction false} FlattenUnflatten(shape: seq<nat>, n: nat)
    requires n < Product(shape)
    ensures InShape(shape, Unflatten(shape, n))
    ensures Flatten(shape, Unflatten(shape, n)) == n
  {
    UnflattenInShape(shape, n);
    if shape != [] {
      var inner := Product(shape[1..]);
      PositiveFactors(shape[0], inner, n);
      FlattenUnflatten(shape[1..], n % inner);
      assert Unflatten(shape, n)[1..] == Unflatten(shape[1..], n % inner);
      DivMod(n, inner);
    }
  }

  lemma {:induction false} UnflattenFlatten(shape: seq<nat>, index: seq<nat>)
    requires InShape(shape, index)
    ensures Flatten(shape, index) < Product(shape)
    ensures Unflatten(shape, Flatten(shape, index)) == index
  {
    FlattenBound(shape, index);
    if shape != [] {
      var inner := Product(shape[1..]);
      FlattenBound(shape[1..], index[1..]);
      UnflattenFlatten(shape[1..], index[1..]);
      DivModUnique(Flatten(shape, index), inner, index[0], Flatten(shape[1..], index[1..]));
      assert index == [index[0]] + index[1..];
    }
  }

  /// Distinct elements of a shape have distinct positions.
  lemma FlattenInjective(shape: seq<nat>, a: seq<nat>, b: seq<nat>)
    requires InShape(shape, a) && InShape(shape, b)
    requires Flatten(shape, a) == Flatten(shape, b)
    ensures a == b
  {
    UnflattenFlatten(shape, a);
    UnflattenFlatten(shape, b);
  }

  /// A shape with elements has no empty dimension.
  lemma {:induction false} NonEmpty(shape: seq<nat>)
    requires Product(shape) != 0
    ensures forall d :: 0 <= d < |shape| ==> shape[d] > 0
  {
    if shape != [] {
      PositiveFactors(shape[0], Product(shape[1..]), 0);
      NonEmpty(shape[1..]);
      forall d | 0 <= d < |shape| ensures shape[d] > 0 {
        if d > 0 { assert shape[d] == shape[1..][d - 1]; }
      }
    }
  }

  lemma {:induction false} ProductConcat(a: seq<nat>, b: seq<nat>)
    ensures Product(a + b) == Product(a) * Product(b)
  {
    if a == [] {
      assert a + b == b;
    } else {
      assert (a + b)[1..] == a[1..] + b;
      ProductConcat(a[1..], b);
      MulAssoc(a[0], Product(a[1..]), Product(b));
    }
  }

  lemma MulAssoc(a: int, b: int, c: int)
    ensures a * (b * c) == (a * b) * c
  {}

  lemma MulDistribute(a: int, b: int, c: int)
    ensures (a + b) * c == a * c + b * c
  {}

  /// Concatenating dimensions composes positions.
  lemma {:induction false} FlattenConcat(s: seq<nat>, t: seq<nat>, i: seq<nat>, j: seq<nat>)
    requires InShape(s, i) && InShape(t, j)
    ensures InShape(s + t, i + j)
    ensures Flatten(s + t, i + j) == Flatten(s, i) * Product(t) + Flatten(t, j)
  {
    hide Product;
    if s == [] {
      assert s + t == t && i + j == j;
    } else {
      assert (s + t)[1..] == s[1..] + t;
      assert (i + j)[1..] == i[1..] + j;
      FlattenConcat(s[1..], t, i[1..], j);
      ProductConcat(s[1..], t);
      OuterDigit(i[0], Product(s[1..]), Product(t), Flatten(s[1..], i[1..]), Flatten(t, j));
    }
  }

  lemma OuterDigit(first: nat, inner: nat, last: nat, rest: nat, tail: nat)
    ensures first * (inner * last) + (rest * last + tail) == (first * inner + rest) * last + tail
  {
    MulAssoc(first, inner, last);
    MulDistribute(first * inner, rest, last);
  }

  lemma ProductOfThree(s: seq<nat>)
    requires |s| == 3
    ensures Product(s) == s[0] * s[1] * s[2]
  {
    assert s[1..][1..] == s[2..] && s[2..][1..] == [];
    assert Product(s) == s[0] * Product(s[1..]) && Product(s[1..]) == s[1] * Product(s[2..])
      && Product(s[2..]) == s[2] * Product([]);
    MulAssoc(s[0], s[1], s[2]);
  }

  lemma PlaceOfThree(s: seq<nat>, i: seq<nat>)
    requires |s| == 3 && InShape(s, i)
    ensures Flatten(s, i) == (i[0] * s[1] + i[1]) * s[2] + i[2]
  {
    var t, j := s[1..], i[1..];
    assert t[1..] == [s[2]] && j[1..] == [i[2]];
    assert Product(t) == s[1] * Product([s[2]]) && Product([s[2]]) == s[2] * Product([]);
    assert Flatten([s[2]], [i[2]]) == i[2] * Product([]) + Flatten([], []);
    MulAssoc(i[0], s[1], s[2]);
    MulDistribute(i[0] * s[1], i[1], s[2]);
  }

  /// One index comes before another: it is smaller at the first difference.
  ghost predicate Precedes(a: seq<nat>, b: seq<nat>) {
    |a| == |b| && exists d :: 0 <= d < |a| && a[..d] == b[..d] && a[d] < b[d]
  }

  /// Positions are in the order of the indices, compared from the first
  /// dimension on: the last dimension varies fastest.
  lemma {:induction false} FlattenOrdered(shape: seq<nat>, a: seq<nat>, b: seq<nat>)
    requires InShape(shape, a) && InShape(shape, b) && Precedes(a, b)
    ensures Flatten(shape, a) < Flatten(shape, b)
  {
    var d :| 0 <= d < |a| && a[..d] == b[..d] && a[d] < b[d];
    var inner := Product(shape[1..]);
    FlattenBound(shape[1..], a[1..]);
    if d == 0 {
      MulStrict(a[0], b[0], inner);
    } else {
      assert a[0] == a[..d][0] && b[0] == b[..d][0];
      assert a[1..][..d - 1] == a[..d][1..] && b[1..][..d - 1] == b[..d][1..];
      assert a[1..][d - 1] < b[1..][d - 1];
      FlattenOrdered(shape[1..], a[1..], b[1..]);
    }
  }
}
