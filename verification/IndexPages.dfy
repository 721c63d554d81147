/// The index tensor of a gather as pages [Bi, K, M]: batches, components,
/// positions.
module IndexPages {
  import opened RowMajor
  import opened Tensors
  import opened WorkSplit

  /// Index dimensions paired with the operand's batching dimensions, in
  /// operand order, and the remaining ones but the components'.
  datatype IndexLayout = IndexLayout(batchDims: seq<nat>, vectorDim: nat, otherDims: seq<nat>)
  {
    /// Batches, components, positions.
    function Order(rank: nat): seq<nat> {
      batchDims + ((if vectorDim < rank then [vectorDim] else []) + otherDims)
    }

    ghost predicate Valid(rank: nat) {
      && Distinct(batchDims) && Names(batchDims, rank) && vectorDim !in batchDims
      && otherDims == Filter(Range(rank), Other())
    }

    function Other(): nat -> bool {
      (d: nat) => d != vectorDim && d !in batchDims
    }

    function Components(shape: seq<nat>): nat {
      if vectorDim < |shape| then shape[vectorDim] else 1
    }

    ghost function PageShape(shape: seq<nat>): (s: seq<nat>)
      requires Names(batchDims, |shape|) && Names(otherDims, |shape|)
      ensures |s| == 3
    {
      [Product(Select(shape, batchDims)), Components(shape), Product(Select(shape, otherDims))]
    }

    /// The page place of index x: its batch, its component, its position.
    ghost function PageIndex(shape: seq<nat>, x: seq<nat>): (i: seq<nat>)
      requires Names(batchDims, |shape|) && Names(otherDims, |shape|) && InShape(shape, x)
      ensures |i| == 3 && InShape(PageShape(shape), i)
    {
      SelectInShape(shape, x, batchDims);
      SelectInShape(shape, x, otherDims);
      FlattenBound(Select(shape, batchDims), Select(x, batchDims));
      FlattenBound(Select(shape, otherDims), Select(x, otherDims));
      [Flatten(Select(shape, batchDims), Select(x, batchDims)), if vectorDim < |x| then x[vectorDim] else 0,
       Flatten(Select(shape, otherDims), Select(x, otherDims))]
    }

    lemma OrderIsPermutation(rank: nat)
      requires Valid(rank)
      ensures |Order(rank)| == rank && IsPermutation(Order(rank)) && Names(otherDims, rank)
    {
      var vector := if vectorDim < rank then [vectorDim] else [];
      FilterDistinct(Range(rank), Other());
      FilterNames(Range(rank), rank, Other());
      DistinctConcat(vector, otherDims);
      DistinctConcat(batchDims, vector + otherDims);
      forall d: nat | d < rank ensures d in Order(rank) {
        assert Range(rank)[d] == d;
      }
      CoveringIsPermutation(Order(rank), rank);
    }

    /// Elements in page order sit at their page places.
    lemma PagePlace(shape: seq<nat>, x: seq<nat>)
      requires Valid(|shape|) && InShape(shape, x)
      ensures Names(otherDims, |shape|) && Names(Order(|shape|), |shape|)
      ensures InShape(Select(shape, Order(|shape|)), Select(x, Order(|shape|)))
      ensures Flatten(Select(shape, Order(|shape|)), Select(x, Order(|shape|)))
        == Flatten(PageShape(shape), PageIndex(shape, x))
      ensures Product(Select(shape, Order(|shape|))) == Product(PageShape(shape))
    {
      hide Flatten, Product, Filter;
      OrderIsPermutation(|shape|);
      var vector := if vectorDim < |shape| then [vectorDim] else [];
      SelectConcat(shape, vector, otherDims);
      SelectConcat(x, vector, otherDims);
      SelectConcat(shape, batchDims, vector + otherDims);
      SelectConcat(x, batchDims, vector + otherDims);
      SelectInShape(shape, x, batchDims);
      SelectInShape(shape, x, vector);
      SelectInShape(shape, x, otherDims);
      SelectInShape(shape, x, Order(|shape|));
      ThreeParts(Select(shape, batchDims), Select(shape, vector), Select(shape, otherDims),
                 Select(x, batchDims), Select(x, vector), Select(x, otherDims));
      VectorPlace(Select(shape, vector), Select(x, vector));
      PlaceOfThree(PageShape(shape), PageIndex(shape, x));
      ProductOfThree(PageShape(shape));
    }

    /// The page order of an index tensor has its pages' extent.
    lemma PageElements(shape: seq<nat>)
      requires Valid(|shape|)
      ensures Names(Order(|shape|), |shape|) && Names(otherDims, |shape|)
      ensures Product(Select(shape, Order(|shape|))) == Product(PageShape(shape))
    {
      hide Product, Filter;
      OrderIsPermutation(|shape|);
      var vector := if vectorDim < |shape| then [vectorDim] else [];
      SelectConcat(shape, vector, otherDims);
      SelectConcat(shape, batchDims, vector + otherDims);
      ProductConcat(Select(shape, vector), Select(shape, otherDims));
      ProductConcat(Select(shape, batchDims), Select(shape, vector) + Select(shape, otherDims));
      VectorExtent(Select(shape, vector));
      MulAssoc(Product(Select(shape, batchDims)), Components(shape), Product(Select(shape, otherDims)));
      ProductOfThree(PageShape(shape));
    }
  }

  lemma ThreeParts(s: seq<nat>, t: seq<nat>, u: seq<nat>, i: seq<nat>, j: seq<nat>, k: seq<nat>)
    requires InShape(s, i) && InShape(t, j) && InShape(u, k)
    ensures InShape(s + (t + u), i + (j + k))
    ensures Flatten(s + (t + u), i + (j + k)) == (Flatten(s, i) * Product(t) + Flatten(t, j)) * Product(u)
      + Flatten(u, k)
    ensures Product(s + (t + u)) == Product(s) * Product(t) * Product(u)
  {
    hide Flatten, Product, InShape;
    FlattenConcat(t, u, j, k);
    FlattenConcat(s, t + u, i, j + k);
    ProductConcat(t, u);
    ProductConcat(s, t + u);
    MulAssoc(Flatten(s, i), Product(t), Product(u));
    MulDistribute(Flatten(s, i) * Product(t), Flatten(t, j), Product(u));
    MulAssoc(Product(s), Product(t), Product(u));
  }

  lemma VectorExtent(shape: seq<nat>)
    requires |shape| <= 1
    ensures Product(shape) == if shape == [] then 1 else shape[0]
  {
    if shape != [] { assert Product(shape) == shape[0] * Product([]); }
  }

  lemma VectorPlace(shape: seq<nat>, x: seq<nat>)
    requires |shape| <= 1 && InShape(shape, x)
    ensures Product(shape) == if shape == [] then 1 else shape[0]
    ensures Flatten(shape, x) == if x == [] then 0 else x[0]
  {
    VectorExtent(shape);
    if shape != [] { assert Flatten(shape, x) == x[0] * Product([]) + Flatten([], []); }
  }

  // ---- moving dimensions ----

  lemma PermuteRange<T>(t: Tensor<T>)
    requires t.Valid()
    ensures IsPermutation(Range(|t.shape|)) && Permute(t, Range(|t.shape|)) == t
  {
    hide Flatten, Product;
    var perm := Range(|t.shape|);
    DistinctIsPermutation(perm);
    SelectRange(t.shape);
    forall index | InShape(t.shape, index) ensures Permute(t, perm).At(index) == t.At(index) {
      PermuteAt(t, perm, index);
      assert forall d :: 0 <= d < |index| ==> Unpermuted(index, perm)[perm[d]] == index[d];
      assert Unpermuted(index, perm) == index;
    }
    SameElements(Permute(t, perm), t);
  }

  /// Moves dimensions: as they are, by a reshape when only extents of 1 move, else by a permute.
  method MoveDims<T>(value: Tensor<T>, permutation: seq<nat>) returns (moved: Tensor<T>)
    requires value.Valid() && IsPermutation(permutation) && |permutation| == |value.shape|
    ensures moved == Permute(value, permutation)
  {
    hide Filter, Permute, Range, Product;
    if permutation == Range(|permutation|) {
      PermuteRange(value);
      return value;
    }
    var shape := Select(value.shape, permutation);
    if Filter(Range(|value.shape|), NonUnit(value.shape)) == Filter(permutation, NonUnit(value.shape)) {
      PermuteOfUnits(value, permutation);
      return Reshape(value, shape);
    }
    moved := Permute(value, permutation);
  }

  // ---- pages ----

  /// `page` holds the elements of `piece` by batch, component and position.
  ghost predicate Paged(layout: IndexLayout, piece: Tensor<int>, page: Tensor<int>) {
    && piece.Valid() && page.Valid() && layout.Valid(|piece.shape|) && Names(layout.otherDims, |piece.shape|)
    && page.shape == layout.PageShape(piece.shape)
    && forall x :: InShape(piece.shape, x) ==> page.At(layout.PageIndex(piece.shape, x)) == piece.At(x)
  }

  method PageOfPiece(layout: IndexLayout, piece: Tensor<int>, Bi: nat, M: nat) returns (page: Tensor<int>)
    requires piece.Valid() && layout.Valid(|piece.shape|) && Names(layout.otherDims, |piece.shape|)
    requires Bi == Product(Select(piece.shape, layout.batchDims)) && M == Product(Select(piece.shape, layout.otherDims))
    ensures Paged(layout, piece, page)
  {
    hide Product, Flatten, Filter, IsPermutation, IndexLayout.Order;
    layout.OrderIsPermutation(|piece.shape|);
    layout.PageElements(piece.shape);
    var components := layout.Components(piece.shape);
    var moved := MoveDims(piece, layout.Order(|piece.shape|));
    page := Reshape(moved, [Bi, components, M]);
    forall x | InShape(piece.shape, x) ensures page.At(layout.PageIndex(piece.shape, x)) == piece.At(x) {
      layout.PagePlace(piece.shape, x);
      PermutedElement(piece, layout.Order(|piece.shape|), x);
    }
  }

  lemma PermutedElement<T>(t: Tensor<T>, perm: seq<nat>, x: seq<nat>)
    requires t.Valid() && IsPermutation(perm) && |perm| == |t.shape| && InShape(t.shape, x)
    ensures InShape(Select(t.shape, perm), Select(x, perm))
    ensures Permute(t, perm).At(Select(x, perm)) == t.At(x)
  {
    hide Product, Flatten;
    SelectInShape(t.shape, x, perm);
    PermuteAt(t, perm, Select(x, perm));
    var y := Unpermuted(Select(x, perm), perm);
    forall d: nat | d < |x| ensures y[d] == x[d] {
      assert d in perm;
      var i :| 0 <= i < |perm| && perm[i] == d;
      assert y[perm[i]] == Select(x, perm)[i];
    }
    assert y == x;
  }

  /// Pages of the pieces, one after another, are pages of the pieces' concatenation.
  lemma PagesConcat(layout: IndexLayout, pieces: seq<Tensor<int>>, pages: seq<Tensor<int>>)
    requires Concatenable(pieces, layout.vectorDim) && |pages| == |pieces|
    requires forall i :: 0 <= i < |pieces| ==> Paged(layout, pieces[i], pages[i])
    ensures Concatenable(pages, 1) && Paged(layout, ConcatAlong(pieces, layout.vectorDim), ConcatAlong(pages, 1))
  {
    hide Product, Flatten, Filter, FirstOf, OwnerOf;
    var whole := ConcatAlong(pieces, layout.vectorDim);
    forall i | 0 <= i < |pieces|
      ensures Select(pieces[i].shape, layout.batchDims) == Select(whole.shape, layout.batchDims)
      ensures Select(pieces[i].shape, layout.otherDims) == Select(whole.shape, layout.otherDims)
    {
      assert layout.otherDims == Filter(Range(|whole.shape|), layout.Other());
      SameExtents(pieces[i].shape, whole.shape, layout);
    }
    assert Extents(pages, 1) == Extents(pieces, layout.vectorDim);
    assert ConcatShape(pages, 1) == layout.PageShape(whole.shape);
    forall x | InShape(whole.shape, x)
      ensures ConcatAlong(pages, 1).At(layout.PageIndex(whole.shape, x)) == whole.At(x)
    {
      PagedElement(layout, pieces, pages, x);
    }
  }

  lemma SameExtents(piece: seq<nat>, whole: seq<nat>, layout: IndexLayout)
    requires layout.Valid(|whole|) && |piece| == |whole| && Names(layout.otherDims, |whole|)
    requires forall d: nat :: d < |whole| && d != layout.vectorDim ==> piece[d] == whole[d]
    ensures Select(piece, layout.batchDims) == Select(whole, layout.batchDims)
    ensures Select(piece, layout.otherDims) == Select(whole, layout.otherDims)
  {
    hide Filter;
    forall i | 0 <= i < |layout.otherDims| ensures layout.otherDims[i] != layout.vectorDim {
      assert layout.otherDims[i] in layout.otherDims;
    }
    forall i | 0 <= i < |layout.batchDims| ensures layout.batchDims[i] != layout.vectorDim {
      assert layout.batchDims[i] in layout.batchDims;
    }
  }

  lemma PagedElement(layout: IndexLayout, pieces: seq<Tensor<int>>, pages: seq<Tensor<int>>, x: seq<nat>)
    requires Concatenable(pieces, layout.vectorDim) && |pages| == |pieces| && Concatenable(pages, 1)
    requires forall i :: 0 <= i < |pieces| ==> Paged(layout, pieces[i], pages[i])
    requires InShape(ConcatShape(pieces, layout.vectorDim), x)
    requires layout.Valid(|ConcatShape(pieces, layout.vectorDim)|)
      && Names(layout.otherDims, |ConcatShape(pieces, layout.vectorDim)|)
    requires ConcatShape(pages, 1) == layout.PageShape(ConcatShape(pieces, layout.vectorDim))
    requires Extents(pages, 1) == Extents(pieces, layout.vectorDim)
    ensures ConcatAlong(pages, 1).At(layout.PageIndex(ConcatShape(pieces, layout.vectorDim), x))
         == ConcatAlong(pieces, layout.vectorDim).At(x)
  {
    hide Product, Flatten, Filter, FirstOf, OwnerOf, ConcatAlong;
    var v, whole := layout.vectorDim, ConcatShape(pieces, layout.vectorDim);
    var i := layout.PageIndex(whole, x);
    ConcatAt(pages, 1, i);
    ConcatAt(pieces, v, x);
    var p, q := PieceIndex(pages, 1, i), PieceIndex(pieces, v, x);
    assert p.0 == q.0;
    SameExtents(pieces[q.0].shape, whole, layout);
    SameExtents(q.1, x, layout);
    assert layout.PageIndex(pieces[q.0].shape, q.1) == p.1;
    assert Paged(layout, pieces[q.0], pages[q.0]);
  }

  /// Pages one after another along the component dimension.
  method ConcatPages(pages: seq<Tensor<int>>) returns (page: Tensor<int>)
    requires Concatenable(pages, 1)
    ensures page == ConcatAlong(pages, 1)
  {
    if |pages| == 1 {
      ConcatOne(pages[0], 1);
      assert pages == [pages[0]];
      return pages[0];
    }
    page := ConcatAlong(pages, 1);
  }

  /// The pieces' pages and their concatenation.
  method PagesOf(layout: IndexLayout, pieces: seq<Tensor<int>>, ghost indices: Tensor<int>, Bi: nat, M: nat)
    returns (value: Tensor<int>)
    requires |pieces| > 0 && indices.Valid() && layout.Valid(|indices.shape|)
      && Names(layout.otherDims, |indices.shape|)
    requires Bi == Product(Select(indices.shape, layout.batchDims))
      && M == Product(Select(indices.shape, layout.otherDims))
    requires if layout.vectorDim < |indices.shape|
      then Concatenable(pieces, layout.vectorDim) && indices == ConcatAlong(pieces, layout.vectorDim)
             else pieces == [indices]
    ensures Paged(layout, indices, value)
  {
    hide Product, Flatten, Filter, Paged, FirstOf, ConcatAlong;
    var pages: seq<Tensor<int>> := [];
    var i := 0;
    while i < |pieces|
      invariant 0 <= i <= |pieces| && |pages| == i
      invariant forall j :: 0 <= j < i ==> Paged(layout, pieces[j], pages[j])
    {
      if layout.vectorDim < |indices.shape| { SameExtents(pieces[i].shape, indices.shape, layout); }
      var page := PageOfPiece(layout, pieces[i], Bi, M);
      pages := pages + [page];
      i := i + 1;
    }
    var rank := |pieces[0].shape|;
    if layout.vectorDim < rank {
      PagesConcat(layout, pieces, pages);
      value := ConcatPages(pages);
    } else {
      assert Paged(layout, pieces[0], pages[0]);
      OnePageTensor(layout, pieces[0], pages[0]);
      value := ConcatPages(pages);
      assert pages == [pages[0]];
      ConcatOne(pages[0], 1);
    }
  }

  lemma OnePageTensor(layout: IndexLayout, piece: Tensor<int>, page: Tensor<int>)
    requires Paged(layout, piece, page)
    ensures page.Valid() && |page.shape| == 3 && Concatenable([page], 1)
  {
    hide Product, Flatten, Filter;
  }

  // ---- the components in canonical order ----

  /// One component's page.
  function ColumnPage(value: Tensor<int>, column: nat): (page: Tensor<int>)
    requires value.Valid() && |value.shape| == 3 && column < value.shape[1]
    ensures page.Valid() && page.shape == [value.shape[0], 1, value.shape[2]]
  {
    Build([value.shape[0], 1, value.shape[2]], i requires InShape([value.shape[0], 1, value.shape[2]], i) =>
      value.At([i[0], column, i[2]]))
  }

  function ZeroPage(Bi: nat, M: nat): (page: Tensor<int>)
    ensures page.Valid() && page.shape == [Bi, 1, M]
  {
    Tensor([Bi, 1, M], seq(Product([Bi, 1, M]), n => 0))
  }

  /// Component k of `selected` is component columns[k] of `value`, or 0.
  ghost predicate Selected(value: Tensor<int>, columns: seq<int>, selected: Tensor<int>) {
    && value.Valid() && selected.Valid() && |value.shape| == 3
       && (forall k :: 0 <= k < |columns| ==> columns[k] < value.shape[1])
    && selected.shape == [value.shape[0], |columns|, value.shape[2]]
    && forall i :: InShape(selected.shape, i) ==> SelectedAt(value, columns, selected, i)
  }

  ghost predicate SelectedAt(value: Tensor<int>, columns: seq<int>, selected: Tensor<int>, i: seq<nat>)
    requires value.Valid() && selected.Valid() && |value.shape| == 3
      && (forall k :: 0 <= k < |columns| ==> columns[k] < value.shape[1])
    requires selected.shape == [value.shape[0], |columns|, value.shape[2]] && InShape(selected.shape, i)
  {
    selected.At(i) == if columns[i[1]] < 0 then 0 else value.At([i[0], columns[i[1]], i[2]])
  }

  /// Page k holds component columns[k], or zeros.
  ghost predicate ColumnPages(value: Tensor<int>, columns: seq<int>, pages: seq<Tensor<int>>, n: nat)
    requires value.Valid() && |value.shape| == 3 && (forall k :: 0 <= k < |columns| ==> columns[k] < value.shape[1])
    requires n <= |columns| && |pages| == n
  {
    forall k :: 0 <= k < n ==>
      pages[k] == if columns[k] < 0 then ZeroPage(value.shape[0], value.shape[2]) else ColumnPage(value, columns[k])
  }

  lemma {:induction false} UnitFirsts(counts: seq<nat>, n: nat)
    requires n <= |counts| && forall i :: 0 <= i < |counts| ==> counts[i] == 1
    ensures FirstOf(counts, n) == n
  {
    if n > 0 { UnitFirsts(counts, n - 1); }
  }

  lemma ColumnsConcat(value: Tensor<int>, columns: seq<int>, pages: seq<Tensor<int>>)
    requires value.Valid() && |value.shape| == 3 && (forall k :: 0 <= k < |columns| ==> columns[k] < value.shape[1])
    requires |columns| > 0 && |pages| == |columns| && ColumnPages(value, columns, pages, |columns|)
    ensures Concatenable(pages, 1) && Selected(value, columns, ConcatAlong(pages, 1))
  {
    hide Product, Flatten, FirstOf, OwnerOf, ConcatAlong, ColumnPage, ZeroPage;
    var e := Extents(pages, 1);
    UnitFirsts(e, |pages|);
    var selected := ConcatAlong(pages, 1);
    forall i | InShape(selected.shape, i) ensures SelectedAt(value, columns, selected, i) {
      ConcatAt(pages, 1, i);
      UnitFirsts(e, i[1]);
      OwnerUnique(e, |pages|, i[1], i[1]);
      var p := PieceIndex(pages, 1, i);
      ColumnAt(value, columns[i[1]], p.1);
      assert [p.1[0], columns[i[1]], p.1[2]] == [i[0], columns[i[1]], i[2]];
    }
  }

  lemma ColumnAt(value: Tensor<int>, column: int, i: seq<nat>)
    requires value.Valid() && |value.shape| == 3 && column < value.shape[1]
      && InShape([value.shape[0], 1, value.shape[2]], i)
    ensures column < 0 ==> ZeroPage(value.shape[0], value.shape[2]).At(i) == 0
    ensures column >= 0 ==> ColumnPage(value, column).At(i) == value.At([i[0], column, i[2]])
  {
    hide Product, Flatten;
    FlattenBound([value.shape[0], 1, value.shape[2]], i);
    if column >= 0 {
      BuildAt([value.shape[0], 1, value.shape[2]], i requires InShape([value.shape[0], 1, value.shape[2]], i) =>
        value.At([i[0], column, i[2]]), i);
    }
  }

  predicate IdentityColumns(columns: seq<int>, K: nat) {
    |columns| == K && forall k :: 0 <= k < K ==> columns[k] == k
  }

  /// One page per component of the layout; a component no index names reads zeros.
  method SelectColumns(value: Tensor<int>, columns: seq<int>) returns (selected: Tensor<int>)
    requires value.Valid() && |value.shape| == 3 && |columns| > 0
    requires forall k :: 0 <= k < |columns| ==> columns[k] < value.shape[1]
    ensures Selected(value, columns, selected)
  {
    hide Product, Flatten, Build, ConcatAlong, Extents, ColumnPage, ZeroPage;
    if IdentityColumns(columns, value.shape[1]) {
      forall i | InShape(value.shape, i) ensures value.At(i) == value.At([i[0], columns[i[1]], i[2]]) {
        assert [i[0], columns[i[1]], i[2]] == i;
      }
      return value;
    }
    var pages: seq<Tensor<int>> := [];
    var k := 0;
    while k < |columns|
      invariant 0 <= k <= |columns| && |pages| == k && ColumnPages(value, columns, pages, k)
    {
      var page := if columns[k] < 0 then ZeroPage(value.shape[0], value.shape[2]) else ColumnPage(value, columns[k]);
      pages := pages + [page];
      k := k + 1;
    }
    ColumnsConcat(value, columns, pages);
    selected := ConcatPages(pages);
  }

  // ---- the whole index layout ----

  /// The index dimensions that are positions.
  method PositionDims(rank: nat, vectorDim: nat, batchDims: seq<nat>) returns (otherDims: seq<nat>)
    ensures otherDims == Filter(Range(rank), IndexLayout(batchDims, vectorDim, []).Other())
  {
    hide Filter, Range;
    var keep := IndexLayout(batchDims, vectorDim, []).Other();
    otherDims := [];
    EmptyFilter(keep);
    var d := 0;
    while d < rank
      invariant 0 <= d <= rank && otherDims == Filter(Range(d), keep)
    {
      FilterStep(d, keep);
      if d != vectorDim && d !in batchDims { otherDims := otherDims + [d]; }
      d := d + 1;
    }
  }

  method ExtentOf(shape: seq<nat>, dims: seq<nat>) returns (n: nat)
    requires Names(dims, |shape|)
    ensures n == Product(Select(shape, dims))
  {
    hide Product;
    n := 1;
    VectorExtent(Select(shape, dims[..0]));
    var i := 0;
    while i < |dims|
      invariant 0 <= i <= |dims| && n == Product(Select(shape, dims[..i]))
    {
      assert Select(shape, dims[..i + 1]) == Select(shape, dims[..i]) + [shape[dims[i]]];
      ProductConcat(Select(shape, dims[..i]), [shape[dims[i]]]);
      VectorExtent([shape[dims[i]]]);
      n := n * shape[dims[i]];
      i := i + 1;
    }
    assert dims[..|dims|] == dims;
  }

  /// The index tensor, component columns[k] of each position at page k.
  method BuildIndices(pieces: seq<Tensor<int>>, ghost indices: Tensor<int>, indexShape: seq<nat>, vectorDim: nat,
                      batchDims: seq<nat>, columns: seq<int>)
    returns (layout: IndexLayout, Bi: nat, M: nat, values: Tensor<int>, ghost value: Tensor<int>)
    requires indices.Valid() && indices.shape == indexShape && |pieces| > 0 && |columns| > 0
    requires Distinct(batchDims) && Names(batchDims, |indexShape|) && vectorDim !in batchDims
    requires if vectorDim < |indexShape|
      then Concatenable(pieces, vectorDim) && indices == ConcatAlong(pieces, vectorDim)
             else pieces == [indices]
    requires forall k :: 0 <= k < |columns| ==> columns[k] < (if vectorDim < |indexShape| then indexShape[vectorDim]
      else 1)
    ensures layout.batchDims == batchDims && layout.vectorDim == vectorDim && layout.Valid(|indexShape|)
    ensures Names(layout.otherDims, |indexShape|)
    ensures Bi == Product(Select(indexShape, batchDims)) && M == Product(Select(indexShape, layout.otherDims))
    ensures Paged(layout, indices, value) && Selected(value, columns, values)
  {
    hide Product, Flatten, Filter, Range, Selected, ConcatAlong, FirstOf;
    var otherDims := PositionDims(|indexShape|, vectorDim, batchDims);
    layout := IndexLayout(batchDims, vectorDim, otherDims);
    FilterNames(Range(|indexShape|), |indexShape|, layout.Other());
    Bi := ExtentOf(indexShape, batchDims);
    M := ExtentOf(indexShape, otherDims);
    var paged := PagesOf(layout, pieces, indices, Bi, M);
    value := paged;
    values := SelectColumns(paged, columns);
  }
}
