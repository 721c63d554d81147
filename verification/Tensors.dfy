/// Tensors in row-major order and the data-movement operations the lowering
/// emits: reshape, permute, concatenate.
module Tensors {
  import opened RowMajor
  import opened WorkSplit

  // ---- lists of dimensions ----

  function Range(n: nat): (r: seq<nat>)
    ensures |r| == n && forall i :: 0 <= i < n ==> r[i] == i
  {
    seq(n, i requires 0 <= i < n => i)
  }

  /// The positions of xs named by `dims`, in that order.
  function Select<A>(xs: seq<A>, dims: seq<nat>): (r: seq<A>)
    requires forall i :: 0 <= i < |dims| ==> dims[i] < |xs|
    ensures |r| == |dims| && forall i :: 0 <= i < |dims| ==> r[i] == xs[dims[i]]
  {
    seq(|dims|, i requires 0 <= i < |dims| => xs[dims[i]])
  }

  function Filter(dims: seq<nat>, keep: nat -> bool): (r: seq<nat>)
    ensures forall x :: x in r <==> x in dims && keep(x)
    ensures |r| <= |dims|
  {
    if dims == [] then [] else
      (if keep(dims[0]) then [dims[0]] else []) + Filter(dims[1..], keep)
  }

  lemma {:induction false} FilterConcat(a: seq<nat>, b: seq<nat>, keep: nat -> bool)
    ensures Filter(a + b, keep) == Filter(a, keep) + Filter(b, keep)
  {
    if a == [] {
      assert a + b == b;
    } else {
      assert (a + b)[1..] == a[1..] + b;
      FilterConcat(a[1..], b, keep);
    }
  }

  lemma {:induction false} FilterAll(dims: seq<nat>, keep: nat -> bool)
    requires forall x :: x in dims ==> keep(x)
    ensures Filter(dims, keep) == dims
  {
    if dims != [] {
      assert forall x :: x in dims[1..] ==> x in dims;
      FilterAll(dims[1..], keep);
    }
  }

  lemma {:induction false} FilterNone(dims: seq<nat>, keep: nat -> bool)
    requires forall x :: x in dims ==> !keep(x)
    ensures Filter(dims, keep) == []
  {
    if dims != [] {
      assert forall x :: x in dims[1..] ==> x in dims;
      FilterNone(dims[1..], keep);
    }
  }

  lemma FilterStep(d: nat, keep: nat -> bool)
    ensures Filter(Range(d + 1), keep) == Filter(Range(d), keep) + (if keep(d) then [d] else [])
  {
    assert Range(d + 1) == Range(d) + [d];
    FilterConcat(Range(d), [d], keep);
  }

  lemma EmptyFilter(keep: nat -> bool)
    ensures Filter(Range(0), keep) == []
  {}

  ghost predicate Distinct<A>(xs: seq<A>) {
    forall i, j :: 0 <= i < j < |xs| ==> xs[i] != xs[j]
  }

  lemma DistinctConcat(a: seq<nat>, b: seq<nat>)
    requires Distinct(a) && Distinct(b) && forall x :: x in a ==> x !in b
    ensures Distinct(a + b)
  {
    var c := a + b;
    forall i, j | 0 <= i < j < |c| ensures c[i] != c[j] {
      if i < |a| <= j { assert c[i] in a && c[j] in b; }
    }
  }

  lemma DistinctApart<A>(a: seq<A>, b: seq<A>)
    requires Distinct(a + b)
    ensures forall x :: x in a ==> x !in b
    ensures Distinct(a) && Distinct(b)
  {
    forall i, j | 0 <= i < |a| && 0 <= j < |b| ensures a[i] != b[j] {
      assert (a + b)[i] == a[i] && (a + b)[|a| + j] == b[j];
    }
    forall i, j | 0 <= i < j < |a| ensures a[i] != a[j] { assert (a + b)[i] == a[i] && (a + b)[j] == a[j]; }
    forall i, j | 0 <= i < j < |b| ensures b[i] != b[j] { assert (a + b)[|a| + i] == b[i] && (a + b)[|a| + j] == b[j]; }
  }

  lemma {:induction false} FilterDistinct(dims: seq<nat>, keep: nat -> bool)
    requires Distinct(dims)
    ensures Distinct(Filter(dims, keep))
  {
    if dims != [] {
      FilterDistinct(dims[1..], keep);
      assert dims[0] !in dims[1..];
    }
  }

  /// The first position of x, or |xs|.
  function Find(xs: seq<nat>, x: nat): (i: nat)
    ensures i <= |xs|
    ensures i < |xs| ==> xs[i] == x
    ensures forall j :: 0 <= j < i ==> xs[j] != x
    ensures i < |xs| <==> x in xs
  {
    if xs == [] then 0
    else if xs[0] == x then 0
    else
      var r := Find(xs[1..], x);
      assert forall j :: 0 < j < |xs| ==> xs[j] == xs[1..][j - 1];
      1 + r
  }

  lemma FindAt(xs: seq<nat>, i: nat)
    requires Distinct(xs) && i < |xs|
    ensures Find(xs, xs[i]) == i
  {}

  // ---- permutations ----

  /// `perm` lists 0 .. |perm| - 1, each once.
  ghost predicate IsPermutation(perm: seq<nat>) {
    && Distinct(perm)
    && (forall i :: 0 <= i < |perm| ==> perm[i] < |perm|)
    && (forall d: nat :: d < |perm| ==> d in perm)
  }

  /// Distinct entries below |perm| are all of them.
  lemma DistinctIsPermutation(perm: seq<nat>)
    requires Distinct(perm) && forall i :: 0 <= i < |perm| ==> perm[i] < |perm|
    ensures IsPermutation(perm)
  {
    hide Elements, Below;
    var named, all := Elements(perm), Below(|perm|);
    DistinctSize(perm);
    assert named <= all;
    if d: nat :| d < |perm| && d !in perm {
      assert named <= all - {d};
      SubsetSize(named, all - {d});
    }
  }

  ghost function Elements(xs: seq<nat>): (r: set<nat>)
    ensures forall x :: x in r <==> x in xs
  {
    if xs == [] then {} else {xs[0]} + Elements(xs[1..])
  }

  ghost function Below(n: nat): (r: set<nat>)
    ensures |r| == n && forall x: nat :: x in r <==> x < n
  {
    if n == 0 then {} else {n - 1} + Below(n - 1)
  }

  lemma {:induction false} DistinctSize(xs: seq<nat>)
    requires Distinct(xs)
    ensures |Elements(xs)| == |xs|
  {
    if xs != [] {
      DistinctSize(xs[1..]);
      assert xs[0] !in xs[1..];
    }
  }

  lemma SameElementsSize(a: seq<nat>, b: seq<nat>)
    requires Distinct(a) && Distinct(b) && forall x :: x in a <==> x in b
    ensures |a| == |b|
  {
    DistinctSize(a);
    DistinctSize(b);
    assert Elements(a) == Elements(b);
  }

  lemma {:induction false} SubsetSize(a: set<nat>, b: set<nat>)
    requires a <= b
    ensures |a| <= |b|
  {
    if a != {} {
      var x :| x in a;
      SubsetSize(a - {x}, b - {x});
    }
  }

  function Inverse(perm: seq<nat>): (inv: seq<nat>)
    ensures |inv| == |perm|
  {
    seq(|perm|, d requires 0 <= d < |perm| => Find(perm, d))
  }

  lemma InverseOf(perm: seq<nat>)
    requires IsPermutation(perm)
    ensures forall d :: 0 <= d < |perm| ==> Inverse(perm)[d] < |perm| && perm[Inverse(perm)[d]] == d
    ensures forall i :: 0 <= i < |perm| ==> Inverse(perm)[perm[i]] == i
  {
    forall i | 0 <= i < |perm| ensures Inverse(perm)[perm[i]] == i { FindAt(perm, i); }
  }

  /// The index into the source whose dimension perm[i] is index[i].
  function Unpermuted(index: seq<nat>, perm: seq<nat>): (src: seq<nat>)
    requires IsPermutation(perm) && |index| == |perm|
    ensures |src| == |perm|
    ensures forall i :: 0 <= i < |perm| ==> src[perm[i]] == index[i]
  {
    InverseOf(perm);
    Select(index, Inverse(perm))
  }

  // ---- tensors ----

  datatype Tensor<T> = Tensor(shape: seq<nat>, data: seq<T>)
  {
    ghost predicate Valid() { |data| == Product(shape) }

    function At(index: seq<nat>): T
      requires Valid() && InShape(shape, index)
    {
      FlattenBound(shape, index);
      data[Flatten(shape, index)]
    }
  }

  /// Equal shapes and equal elements make equal tensors.
  lemma SameElements<T>(a: Tensor<T>, b: Tensor<T>)
    requires a.Valid() && b.Valid() && a.shape == b.shape
    requires forall index :: InShape(a.shape, index) ==> a.At(index) == b.At(index)
    ensures a == b
  {
    forall n | 0 <= n < |a.data| ensures a.data[n] == b.data[n] {
      FlattenUnflatten(a.shape, n);
      assert a.At(Unflatten(a.shape, n)) == b.At(Unflatten(a.shape, n));
    }
  }

  function Reshape<T>(t: Tensor<T>, shape: seq<nat>): (r: Tensor<T>)
    requires t.Valid() && Product(shape) == Product(t.shape)
    ensures r.Valid() && r.shape == shape
  {
    Tensor(shape, t.data)
  }

  /// A tensor from its elements.
  function Build<T>(shape: seq<nat>, element: seq<nat> --> T): (r: Tensor<T>)
    requires forall index :: InShape(shape, index) ==> element.requires(index)
    ensures r.Valid() && r.shape == shape
  {
    Tensor(shape, seq(Product(shape), n requires 0 <= n < Product(shape) =>
      UnflattenInShape(shape, n);
      element(Unflatten(shape, n))))
  }

  lemma BuildAt<T>(shape: seq<nat>, element: seq<nat> --> T, index: seq<nat>)
    requires (forall i :: InShape(shape, i) ==> element.requires(i)) && InShape(shape, index)
    ensures Build(shape, element).At(index) == element(index)
  {
    UnflattenFlatten(shape, index);
  }

  lemma UnpermutedInShape(shape: seq<nat>, perm: seq<nat>, index: seq<nat>)
    requires IsPermutation(perm) && |shape| == |perm| && InShape(Select(shape, perm), index)
    ensures InShape(shape, Unpermuted(index, perm))
  {
    var src := Unpermuted(index, perm);
    forall d | 0 <= d < |shape| ensures src[d] < shape[d] {
      assert d in perm;
      var i :| 0 <= i < |perm| && perm[i] == d;
      assert index[i] < Select(shape, perm)[i];
    }
  }

  /// Result dimension i is input dimension perm[i].
  function Permute<T>(t: Tensor<T>, perm: seq<nat>): (r: Tensor<T>)
    requires t.Valid() && IsPermutation(perm) && |perm| == |t.shape|
    ensures r.Valid() && r.shape == Select(t.shape, perm)
  {
    Build(Select(t.shape, perm), index requires InShape(Select(t.shape, perm), index) =>
      UnpermutedInShape(t.shape, perm, index);
      t.At(Unpermuted(index, perm)))
  }

  lemma PermuteAt<T>(t: Tensor<T>, perm: seq<nat>, index: seq<nat>)
    requires t.Valid() && IsPermutation(perm) && |perm| == |t.shape| && InShape(Select(t.shape, perm), index)
    ensures InShape(t.shape, Unpermuted(index, perm))
    ensures Permute(t, perm).At(index) == t.At(Unpermuted(index, perm))
  {
    UnpermutedInShape(t.shape, perm, index);
    BuildAt(Select(t.shape, perm), i requires InShape(Select(t.shape, perm), i) =>
      UnpermutedInShape(t.shape, perm, i);
      t.At(Unpermuted(i, perm)), index);
  }

  // ---- dimensions of extent 1 ----

  ghost predicate Names(dims: seq<nat>, rank: nat) {
    forall i :: 0 <= i < |dims| ==> dims[i] < rank
  }

  lemma SelectInShape(shape: seq<nat>, index: seq<nat>, dims: seq<nat>)
    requires InShape(shape, index) && Names(dims, |shape|)
    ensures InShape(Select(shape, dims), Select(index, dims))
  {}

  lemma FilterNames(dims: seq<nat>, rank: nat, keep: nat -> bool)
    requires Names(dims, rank)
    ensures Names(Filter(dims, keep), rank)
  {
    var kept := Filter(dims, keep);
    forall i | 0 <= i < |kept| ensures kept[i] < rank { assert kept[i] in kept; }
  }

  lemma SelectConcat<A>(xs: seq<A>, a: seq<nat>, b: seq<nat>)
    requires Names(a, |xs|) && Names(b, |xs|)
    ensures Names(a + b, |xs|) && Select(xs, a + b) == Select(xs, a) + Select(xs, b)
  {}

  /// Dimensions of extent 1 do not affect positions.
  lemma {:induction false} DropUnits(shape: seq<nat>, index: seq<nat>, dims: seq<nat>, keep: nat -> bool)
    requires InShape(shape, index) && Names(dims, |shape|)
    requires forall i :: 0 <= i < |dims| && !keep(dims[i]) ==> shape[dims[i]] == 1
    ensures Names(Filter(dims, keep), |shape|)
    ensures InShape(Select(shape, dims), Select(index, dims))
    ensures InShape(Select(shape, Filter(dims, keep)), Select(index, Filter(dims, keep)))
    ensures Product(Select(shape, dims)) == Product(Select(shape, Filter(dims, keep)))
    ensures Flatten(Select(shape, dims), Select(index, dims))
         == Flatten(Select(shape, Filter(dims, keep)), Select(index, Filter(dims, keep)))
  {
    FilterNames(dims, |shape|, keep);
    SelectInShape(shape, index, dims);
    SelectInShape(shape, index, Filter(dims, keep));
    if dims != [] {
      var rest := dims[1..];
      DropUnits(shape, index, rest, keep);
      assert Select(shape, dims)[1..] == Select(shape, rest);
      assert Select(index, dims)[1..] == Select(index, rest);
      var kept := Filter(dims, keep);
      if keep(dims[0]) {
        assert kept[1..] == Filter(rest, keep);
        assert Select(shape, kept)[1..] == Select(shape, Filter(rest, keep));
        assert Select(index, kept)[1..] == Select(index, Filter(rest, keep));
      } else {
        assert kept == Filter(rest, keep);
        assert shape[dims[0]] == 1 && index[dims[0]] == 0;
      }
    }
  }

  lemma {:induction false} SizeWithoutUnits(shape: seq<nat>, dims: seq<nat>, keep: nat -> bool)
    requires Names(dims, |shape|)
    requires forall i :: 0 <= i < |dims| && !keep(dims[i]) ==> shape[dims[i]] == 1
    ensures Names(Filter(dims, keep), |shape|)
    ensures Product(Select(shape, dims)) == Product(Select(shape, Filter(dims, keep)))
  {
    FilterNames(dims, |shape|, keep);
    if dims != [] {
      SizeWithoutUnits(shape, dims[1..], keep);
      assert Select(shape, dims)[1..] == Select(shape, dims[1..]);
      var kept := Filter(dims, keep);
      if keep(dims[0]) {
        assert kept[1..] == Filter(dims[1..], keep);
        assert Select(shape, kept)[1..] == Select(shape, Filter(dims[1..], keep));
      } else {
        assert kept == Filter(dims[1..], keep);
      }
    }
  }

  lemma SelectRange<A>(xs: seq<A>)
    ensures Select(xs, Range(|xs|)) == xs
  {}

  function NonUnit(shape: seq<nat>): nat -> bool {
    (d: nat) => d < |shape| && shape[d] != 1
  }

  /// When only dimensions of extent 1 move, the permutation moves no data.
  lemma PermuteOfUnits<T>(t: Tensor<T>, perm: seq<nat>)
    requires t.Valid() && IsPermutation(perm) && |perm| == |t.shape|
    requires Filter(Range(|t.shape|), NonUnit(t.shape)) == Filter(perm, NonUnit(t.shape))
    ensures Product(Select(t.shape, perm)) == Product(t.shape)
    ensures Reshape(t, Select(t.shape, perm)) == Permute(t, perm)
  {
    var shape := Select(t.shape, perm);
    SizeWithoutUnits(t.shape, Range(|perm|), NonUnit(t.shape));
    SizeWithoutUnits(t.shape, perm, NonUnit(t.shape));
    SelectRange(t.shape);
    forall index | InShape(shape, index) ensures Reshape(t, shape).At(index) == Permute(t, perm).At(index) {
      PermuteAt(t, perm, index);
      var src := Unpermuted(index, perm);
      assert Select(src, perm) == index;
      DropUnits(t.shape, src, Range(|perm|), NonUnit(t.shape));
      DropUnits(t.shape, src, perm, NonUnit(t.shape));
      SelectRange(t.shape);
      SelectRange(src);
    }
    SameElements(Reshape(t, shape), Permute(t, perm));
  }

  /// Distinct dimensions that miss none of `rank` are a permutation of them.
  lemma CoveringIsPermutation(perm: seq<nat>, rank: nat)
    requires Distinct(perm) && Names(perm, rank) && forall d: nat :: d < rank ==> d in perm
    ensures |perm| == rank && IsPermutation(perm)
  {
    hide Elements, Below;
    DistinctSize(perm);
    assert Elements(perm) == Below(rank);
    DistinctIsPermutation(perm);
  }

  // ---- concatenation ----

  ghost predicate Concatenable<T>(pieces: seq<Tensor<T>>, dim: nat) {
    && |pieces| > 0
    && forall i :: 0 <= i < |pieces| ==>
      && pieces[i].Valid() && dim < |pieces[i].shape| == |pieces[0].shape|
      && forall d :: 0 <= d < |pieces[i].shape| && d != dim ==> pieces[i].shape[d] == pieces[0].shape[d]
  }

  /// Extents of the pieces along the concatenated dimension.
  function Extents<T>(pieces: seq<Tensor<T>>, dim: nat): (e: seq<nat>)
    requires Concatenable(pieces, dim)
    ensures |e| == |pieces|
  {
    seq(|pieces|, i requires 0 <= i < |pieces| => pieces[i].shape[dim])
  }

  function ConcatShape<T>(pieces: seq<Tensor<T>>, dim: nat): (s: seq<nat>)
    requires Concatenable(pieces, dim)
    ensures |s| == |pieces[0].shape|
  {
    pieces[0].shape[dim := FirstOf(Extents(pieces, dim), |pieces|)]
  }

  /// The piece an element comes from, and its index there.
  function PieceIndex<T>(pieces: seq<Tensor<T>>, dim: nat, index: seq<nat>): (p: (nat, seq<nat>))
    requires Concatenable(pieces, dim) && InShape(ConcatShape(pieces, dim), index)
    ensures p.0 < |pieces| && InShape(pieces[p.0].shape, p.1)
  {
    var c := OwnerOf(Extents(pieces, dim), |pieces|, index[dim]);
    (c, index[dim := index[dim] - FirstOf(Extents(pieces, dim), c)])
  }

  function ConcatAlong<T>(pieces: seq<Tensor<T>>, dim: nat): (r: Tensor<T>)
    requires Concatenable(pieces, dim)
    ensures r.Valid() && r.shape == ConcatShape(pieces, dim)
  {
    Build(ConcatShape(pieces, dim), index requires InShape(ConcatShape(pieces, dim), index) =>
      var p := PieceIndex(pieces, dim, index);
      pieces[p.0].At(p.1))
  }

  lemma ConcatAt<T>(pieces: seq<Tensor<T>>, dim: nat, index: seq<nat>)
    requires Concatenable(pieces, dim) && InShape(ConcatShape(pieces, dim), index)
    ensures ConcatAlong(pieces, dim).At(index)
         == pieces[PieceIndex(pieces, dim, index).0].At(PieceIndex(pieces, dim, index).1)
  {
    BuildAt(ConcatShape(pieces, dim), i requires InShape(ConcatShape(pieces, dim), i) =>
      var p := PieceIndex(pieces, dim, i);
      pieces[p.0].At(p.1), index);
  }

  lemma OnePiece<T>(t: Tensor<T>, dim: nat)
    requires t.Valid() && dim < |t.shape|
    ensures Concatenable([t], dim) && ConcatShape([t], dim) == t.shape
    ensures forall index :: InShape(t.shape, index) ==> PieceIndex([t], dim, index) == (0, index)
  {
    assert FirstOf(Extents([t], dim), 1) == FirstOf(Extents([t], dim), 0) + t.shape[dim];
    forall index | InShape(t.shape, index) ensures PieceIndex([t], dim, index) == (0, index) {
      assert index[dim := index[dim] - 0] == index;
    }
  }

  /// One piece is its own concatenation.
  lemma ConcatOne<T>(t: Tensor<T>, dim: nat)
    requires t.Valid() && dim < |t.shape|
    ensures Concatenable([t], dim) && ConcatAlong([t], dim) == t
  {
    hide Product, Flatten, Unflatten;
    OnePiece(t, dim);
    forall index | InShape(t.shape, index) ensures ConcatAlong([t], dim).At(index) == t.At(index) {
      ConcatAt([t], dim, index);
      assert PieceIndex([t], dim, index) == (0, index);
    }
    SameElements(ConcatAlong([t], dim), t);
  }
}
