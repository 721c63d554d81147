/// The table an operand is viewed as, and where its elements and the moved
/// elements sit in it: the arithmetic both lowerings rest on.
module TableView {
  import opened RowMajor
  import opened IndexedRows
  import opened Tensors
  import opened CanonicalLayout

  /// The dimensions of one row; a column component makes the last operand
  /// dimension the row.
  function RowShape(c: Canonical): (s: seq<nat>)
    requires |c.sizes| > 0 && Names(c.rowDims, |c.dims|)
    ensures |s| > 0
  {
    if c.column then [c.sizes[|c.sizes| - 1]]
    else if c.rowDims == [] then [1]
    else Sizes(Select(c.dims, c.rowDims))
  }

  /// How the rows ops read the table: S pages of R elements a row.
  function GeometryOf(c: Canonical, Bi: nat, M: nat): Geometry
    requires |c.sizes| > 0 && Names(c.rowDims, |c.dims|)
  {
    var row := RowShape(c);
    Geometry(c.B, c.N, Product(row[..|row| - 1]), row[|row| - 1], Bi, M, c.sizes, c.windows, c.column)
  }

  ghost predicate WindowsFit(dims: seq<OperandDim>) {
    forall d :: 0 <= d < |dims| && dims[d].kind != Batch ==> 1 <= dims[d].window <= dims[d].size
  }

  /// The extents a canonical layout has, its regions aside.
  ghost predicate Laid(c: Canonical, lo: nat, hi: nat) {
    && lo <= hi <= |c.dims| && |c.sizes| == |c.windows| == |c.columns| > 0
    && Names(c.rowDims, |c.dims|) && Select(c.dims, c.rowDims) == c.dims[hi..]
    && (lo < hi ==>
          && c.sizes == Sizes(c.dims[lo..hi]) && c.windows == Windows(c.dims[lo..hi])
          && c.columns == Columns(c.dims[lo..hi]))
    && (lo == hi ==> c.sizes == [1] && c.windows == [1] && c.columns == [-1])
    && c.column == (lo < hi == |c.dims|)
    && c.B == Product(Sizes(c.dims[..lo]))
    && c.N == Product(if c.column then c.sizes[..|c.sizes| - 1] else c.sizes)
    && c.W == Product(if c.column then c.windows[..|c.windows| - 1] else c.windows)
    && c.columnWindow == (if c.column then c.windows[|c.windows| - 1] else 1)
    && forall k :: 0 <= k < |c.sizes| ==> 1 <= c.windows[k] <= c.sizes[k]
  }

  lemma CanonicalIsLaid(dims: seq<OperandDim>, c: Canonical, lo: nat, hi: nat)
    requires IsCanonical(dims, c, lo, hi) && WindowsFit(dims)
    ensures Laid(c, lo, hi) && WindowsFit(c.dims)
  {
    hide BatchesLead, Filter, NeedsComponent, Product;
    forall d | 0 <= d < |c.dims| && c.dims[d].kind != Batch ensures 1 <= c.dims[d].window <= c.dims[d].size {
      assert c.dims[d] == dims[c.permutation[d]];
    }
  }

  /// Elements of a row, as the trailing dimensions of the operand.
  lemma RowElements(c: Canonical, lo: nat, hi: nat, Bi: nat, M: nat)
    requires Laid(c, lo, hi)
    ensures c.column ==> GeometryOf(c, Bi, M).S == 1 && GeometryOf(c, Bi, M).R == c.sizes[|c.sizes| - 1]
    ensures !c.column ==> GeometryOf(c, Bi, M).S * GeometryOf(c, Bi, M).R == Product(Sizes(c.dims[hi..]))
  {
    hide Columns, Windows;
    var row := RowShape(c);
    assert row == row[..|row| - 1] + [row[|row| - 1]];
    ProductLast(row[..|row| - 1], row[|row| - 1]);
    if !c.column && c.rowDims == [] {
      assert Sizes(c.dims[hi..]) == [];
      assert Product([1]) == 1 * Product([]);
    }
  }

  lemma GeometryValid(c: Canonical, lo: nat, hi: nat, Bi: nat, M: nat)
    requires Laid(c, lo, hi) && (Bi == 1 || Bi == c.B)
    ensures GeometryOf(c, Bi, M).Valid()
    ensures GeometryOf(c, Bi, M).W() == c.W
    ensures GeometryOf(c, Bi, M).Width() == if c.column then c.columnWindow else Product(Sizes(c.dims[hi..]))
  {
    hide Columns, Windows, Sizes, RowShape, Product;
    RowElements(c, lo, hi, Bi, M);
    assert !c.column ==> c.sizes[..|c.sizes|] == c.sizes && c.windows[..|c.windows|] == c.windows;
  }

  // ---- places ----

  lemma SizesInParts(dims: seq<OperandDim>, lo: nat, hi: nat)
    requires lo <= hi <= |dims|
    ensures Sizes(dims) == Sizes(dims[..lo]) + (Sizes(dims[lo..hi]) + Sizes(dims[hi..]))
  {}

  lemma PlaceInParts(s: seq<nat>, t: seq<nat>, u: seq<nat>, i: seq<nat>, j: seq<nat>, k: seq<nat>)
    requires InShape(s, i) && InShape(t, j) && InShape(u, k)
    ensures InShape(s + (t + u), i + (j + k))
    ensures Flatten(s + (t + u), i + (j + k)) == (Flatten(s, i) * Product(t) + Flatten(t, j)) * Product(u)
      + Flatten(u, k)
    ensures Product(s + (t + u)) == Product(s) * Product(t) * Product(u)
  {
    FlattenConcat(t, u, j, k);
    FlattenConcat(s, t + u, i, j + k);
    ProductConcat(t, u);
    ProductConcat(s, t + u);
    MulAssoc(Flatten(s, i), Product(t), Product(u));
    MulDistribute(Flatten(s, i) * Product(t), Flatten(t, j), Product(u));
    MulAssoc(Product(s), Product(t), Product(u));
  }

  /// An index in shape s, split off its last digit.
  lemma LastDigit(shape: seq<nat>, index: seq<nat>)
    requires InShape(shape, index) && |shape| > 0
    ensures InShape(shape[..|shape| - 1], index[..|shape| - 1])
    ensures Flatten(shape, index)
         == Flatten(shape[..|shape| - 1], index[..|shape| - 1]) * shape[|shape| - 1] + index[|shape| - 1]
    ensures Product(shape) == Product(shape[..|shape| - 1]) * shape[|shape| - 1]
  {
    hide Flatten, Product;
    var n := |shape| - 1;
    assert shape == shape[..n] + [shape[n]] && index == index[..n] + [index[n]];
    OneDigit(shape[n], index[n]);
    FlattenConcat(shape[..n], [shape[n]], index[..n], [index[n]]);
    ProductLast(shape[..n], shape[n]);
  }

  lemma OneDigit(size: nat, i: nat)
    requires i < size
    ensures InShape([size], [i]) && Flatten([size], [i]) == i && Product([size]) == size
  {}

  /// The window row and the element of it that window offsets w and row index r name.
  ghost function WindowRowIndex(c: Canonical, w: seq<nat>): nat
    requires InShape(c.windows, w)
  {
    if c.column && |w| > 0 then Flatten(c.windows[..|w| - 1], w[..|w| - 1]) else Flatten(c.windows, w)
  }

  ghost function ElementIndex(c: Canonical, hi: nat, w: seq<nat>, r: seq<nat>): nat
    requires hi <= |c.dims| && InShape(Sizes(c.dims[hi..]), r)
  {
    if c.column && |w| > 0 then w[|w| - 1] else Flatten(Sizes(c.dims[hi..]), r)
  }

  lemma IndexBounds(c: Canonical, lo: nat, hi: nat, Bi: nat, M: nat, w: seq<nat>, r: seq<nat>)
    requires Laid(c, lo, hi) && (Bi == 1 || Bi == c.B)
    requires InShape(c.windows, w) && InShape(Sizes(c.dims[hi..]), r)
    ensures GeometryOf(c, Bi, M).Valid()
    ensures WindowRowIndex(c, w) < GeometryOf(c, Bi, M).W()
    ensures ElementIndex(c, hi, w, r) < GeometryOf(c, Bi, M).Width()
  {
    hide Columns, Windows, RowShape, Product;
    GeometryValid(c, lo, hi, Bi, M);
    if c.column {
      FlattenBound(c.windows[..|w| - 1], w[..|w| - 1]);
    } else {
      FlattenBound(c.windows, w);
      FlattenBound(Sizes(c.dims[hi..]), r);
    }
  }

  /// The moved element that batch index i, position m, window offsets w and
  /// row index r name, in the shape [batch dims, M, windows, row dims].
  lemma MovedAt(c: Canonical, lo: nat, hi: nat, Bi: nat, M: nat, i: seq<nat>, m: nat, w: seq<nat>, r: seq<nat>)
    requires Laid(c, lo, hi) && (Bi == 1 || Bi == c.B) && GeometryOf(c, Bi, M).Valid()
    requires InShape(Sizes(c.dims[..lo]), i) && m < M && InShape(c.windows, w) && InShape(Sizes(c.dims[hi..]), r)
    requires WindowRowIndex(c, w) < GeometryOf(c, Bi, M).W() && ElementIndex(c, hi, w, r) < GeometryOf(c, Bi, M).Width()
    ensures Flatten(Sizes(c.dims[..lo]), i) < c.B
    ensures GeometryOf(c, Bi, M).MovedPlace(Flatten(Sizes(c.dims[..lo]), i), m, WindowRowIndex(c, w),
      ElementIndex(c, hi, w, r))
         == ((Flatten(Sizes(c.dims[..lo]), i) * M + m) * Product(c.windows)
           + Flatten(c.windows, w)) * Product(Sizes(c.dims[hi..]))
            + Flatten(Sizes(c.dims[hi..]), r)
  {
    hide Columns, Windows, Sizes, RowShape, Flatten, Product, Geometry.TableElements, Geometry.IndexElements,
         Geometry.TablePages,
      Geometry.MovedPlace, Geometry.SourcePlace, Geometry.MovedElements, Geometry.W, Geometry.Width;
    FlattenBound(Sizes(c.dims[..lo]), i);
    GeometryValid(c, lo, hi, Bi, M);
    PlaceFormula(GeometryOf(c, Bi, M), Flatten(Sizes(c.dims[..lo]), i), m, WindowRowIndex(c, w),
      ElementIndex(c, hi, w, r));
    if c.column {
      LastDigit(c.windows, w);
      EmptyRow(c, hi, r);
      ColumnPlace(Flatten(Sizes(c.dims[..lo]), i) * M + m, c.W, WindowRowIndex(c, w), c.columnWindow,
        ElementIndex(c, hi, w, r));
    }
  }

  lemma PlaceFormula(g: Geometry, b: nat, m: nat, j: nat, e: nat)
    requires g.Valid() && b < g.B && m < g.M && j < g.W() && e < g.Width()
    ensures g.MovedPlace(b, m, j, e) == ((b * g.M + m) * g.W() + j) * g.Width() + e
  {}

  lemma EmptyRow(c: Canonical, hi: nat, r: seq<nat>)
    requires hi == |c.dims| && InShape(Sizes(c.dims[hi..]), r)
    ensures Product(Sizes(c.dims[hi..])) == 1 && Flatten(Sizes(c.dims[hi..]), r) == 0
  {
    assert Sizes(c.dims[hi..]) == [];
  }

  lemma ColumnPlace(item: nat, W: nat, j: nat, w: nat, e: nat)
    ensures (item * W + j) * w + e == item * (W * w) + (j * w + e)
  {
    MulDistribute(item * W, j, w);
    MulAssoc(item, W, w);
  }

  /// The row that window offsets w name.
  lemma RowAt(c: Canonical, lo: nat, hi: nat, Bi: nat, M: nat, coords: seq<nat>, w: seq<nat>)
    requires Laid(c, lo, hi) && GeometryOf(c, Bi, M).Valid() && Fits(GeometryOf(c, Bi, M), coords)
      && InShape(c.windows, w)
    requires WindowRowIndex(c, w) < GeometryOf(c, Bi, M).W()
    ensures InShape(c.sizes, Plus(coords, w))
    ensures InShape(GeometryOf(c, Bi, M).RowSizes(), Plus(coords, w)[..GeometryOf(c, Bi, M).KR()])
    ensures Row(GeometryOf(c, Bi, M), coords, WindowRowIndex(c, w))
         == Flatten(GeometryOf(c, Bi, M).RowSizes(), Plus(coords, w)[..GeometryOf(c, Bi, M).KR()])
  {
    hide Columns, Windows, Sizes, RowShape, Product, Flatten, Unflatten;
    var g := GeometryOf(c, Bi, M);
    assert w[..|w|] == w && c.windows[..|w|] == c.windows;
    UnflattenFlatten(g.RowWindows(), w[..g.KR()]);
    assert RowIndex(g, coords, WindowRowIndex(c, w)) == Plus(coords, w)[..g.KR()];
  }

  /// The operand dims' multi-index: batch, components, row.
  ghost function Joined(lo: nat, hi: nat, i: seq<nat>, k: seq<nat>, r: seq<nat>): seq<nat> {
    i + ((if lo < hi then k else []) + r)
  }

  /// The table element at (batch index i, components coords + w, row index r)
  /// is the permuted operand's element there.
  lemma SliceAt(c: Canonical, lo: nat, hi: nat, Bi: nat, M: nat, i: seq<nat>, coords: seq<nat>, w: seq<nat>,
                r: seq<nat>)
    requires Laid(c, lo, hi) && GeometryOf(c, Bi, M).Valid() && Fits(GeometryOf(c, Bi, M), coords)
    requires InShape(Sizes(c.dims[..lo]), i) && InShape(c.windows, w) && InShape(Sizes(c.dims[hi..]), r)
    requires WindowRowIndex(c, w) < GeometryOf(c, Bi, M).W() && Flatten(Sizes(c.dims[..lo]), i) < c.B
    ensures InShape(Sizes(c.dims), Joined(lo, hi, i, Plus(coords, w), r))
    ensures Flatten(Sizes(c.dims), Joined(lo, hi, i, Plus(coords, w), r))
         == SlicePlace(GeometryOf(c, Bi, M), coords, Flatten(Sizes(c.dims[..lo]), i), WindowRowIndex(c, w))
            + ElementIndex(c, hi, w, r)
  {
    hide Columns, Windows, Sizes, RowShape, Product, Flatten, Row, Geometry.TableElements, SlicePlace, ElementIndex;
    if lo < hi {
      if c.column { SliceAtColumn(c, lo, hi, Bi, M, i, coords, w, r); }
        else { SliceAtRow(c, lo, hi, Bi, M, i, coords, w, r); }
    } else {
      SliceAtNone(c, lo, hi, Bi, M, i, coords, w, r);
    }
  }

  lemma SliceAtColumn(c: Canonical, lo: nat, hi: nat, Bi: nat, M: nat, i: seq<nat>, coords: seq<nat>, w: seq<nat>,
                      r: seq<nat>)
    requires lo < hi && c.column && Laid(c, lo, hi) && GeometryOf(c, Bi, M).Valid()
      && Fits(GeometryOf(c, Bi, M), coords)
    requires InShape(Sizes(c.dims[..lo]), i) && InShape(c.windows, w) && InShape(Sizes(c.dims[hi..]), r)
    requires WindowRowIndex(c, w) < GeometryOf(c, Bi, M).W() && Flatten(Sizes(c.dims[..lo]), i) < c.B
    ensures InShape(Sizes(c.dims), Joined(lo, hi, i, Plus(coords, w), r))
    ensures Flatten(Sizes(c.dims), Joined(lo, hi, i, Plus(coords, w), r))
         == SlicePlace(GeometryOf(c, Bi, M), coords, Flatten(Sizes(c.dims[..lo]), i), WindowRowIndex(c, w))
            + ElementIndex(c, hi, w, r)
  {
    hide Columns, Windows, Sizes, RowShape, Product, Flatten, Row, Geometry.TableElements;
    var g, k := GeometryOf(c, Bi, M), Plus(coords, w);
    RowAt(c, lo, hi, Bi, M, coords, w);
    RowElements(c, lo, hi, Bi, M);
    SizesInParts(c.dims, lo, hi);
    PlaceInParts(Sizes(c.dims[..lo]), c.sizes, Sizes(c.dims[hi..]), i, k, r);
    LastDigit(c.sizes, k);
    EmptyRow(c, hi, r);
    ColumnSlice(Flatten(Sizes(c.dims[..lo]), i), c.N, Row(g, coords, WindowRowIndex(c, w)), g.R, coords[|w| - 1],
      w[|w| - 1]);
  }

  lemma SliceAtRow(c: Canonical, lo: nat, hi: nat, Bi: nat, M: nat, i: seq<nat>, coords: seq<nat>, w: seq<nat>,
                   r: seq<nat>)
    requires lo < hi && !c.column && Laid(c, lo, hi) && GeometryOf(c, Bi, M).Valid()
      && Fits(GeometryOf(c, Bi, M), coords)
    requires InShape(Sizes(c.dims[..lo]), i) && InShape(c.windows, w) && InShape(Sizes(c.dims[hi..]), r)
    requires WindowRowIndex(c, w) < GeometryOf(c, Bi, M).W() && Flatten(Sizes(c.dims[..lo]), i) < c.B
    ensures InShape(Sizes(c.dims), Joined(lo, hi, i, Plus(coords, w), r))
    ensures Flatten(Sizes(c.dims), Joined(lo, hi, i, Plus(coords, w), r))
         == SlicePlace(GeometryOf(c, Bi, M), coords, Flatten(Sizes(c.dims[..lo]), i), WindowRowIndex(c, w))
            + ElementIndex(c, hi, w, r)
  {
    hide Columns, Windows, Sizes, RowShape, Product, Flatten, Row, Geometry.TableElements;
    var k := Plus(coords, w);
    RowAt(c, lo, hi, Bi, M, coords, w);
    RowElements(c, lo, hi, Bi, M);
    SizesInParts(c.dims, lo, hi);
    PlaceInParts(Sizes(c.dims[..lo]), c.sizes, Sizes(c.dims[hi..]), i, k, r);
    assert k[..|k|] == k && c.sizes[..|k|] == c.sizes;
  }

  lemma SliceAtNone(c: Canonical, lo: nat, hi: nat, Bi: nat, M: nat, i: seq<nat>, coords: seq<nat>, w: seq<nat>,
                    r: seq<nat>)
    requires lo == hi && Laid(c, lo, hi) && GeometryOf(c, Bi, M).Valid() && Fits(GeometryOf(c, Bi, M), coords)
    requires InShape(Sizes(c.dims[..lo]), i) && InShape(c.windows, w) && InShape(Sizes(c.dims[hi..]), r)
    requires WindowRowIndex(c, w) < GeometryOf(c, Bi, M).W() && Flatten(Sizes(c.dims[..lo]), i) < c.B
    ensures InShape(Sizes(c.dims), Joined(lo, hi, i, Plus(coords, w), r))
    ensures Flatten(Sizes(c.dims), Joined(lo, hi, i, Plus(coords, w), r))
         == SlicePlace(GeometryOf(c, Bi, M), coords, Flatten(Sizes(c.dims[..lo]), i), WindowRowIndex(c, w))
            + ElementIndex(c, hi, w, r)
  {
    hide Columns, Windows, Sizes, RowShape, Product, Flatten, Row, Geometry.TableElements;
    RowElements(c, lo, hi, Bi, M);
    SizesInParts(c.dims, lo, hi);
    NoComponents(c, lo);
    PlaceInParts(Sizes(c.dims[..lo]), [], Sizes(c.dims[hi..]), i, [], r);
    NoComponentRow(c, lo, hi, Bi, M, coords, w);
  }

  lemma ColumnSlice(b: nat, N: nat, row: nat, R: nat, start: nat, e: nat)
    ensures (b * (N * R) + (row * R + (start + e))) == (b * N + row) * (1 * R) + start + e
  {
    MulAssoc(b, N, R);
    MulDistribute(b * N, row, R);
  }

  lemma NoComponents(c: Canonical, lo: nat)
    requires lo <= |c.dims|
    ensures Sizes(c.dims[lo..lo]) == [] && Product([]) == 1 && Flatten([], []) == 0
  {}

  lemma NoComponentRow(c: Canonical, lo: nat, hi: nat, Bi: nat, M: nat, coords: seq<nat>, w: seq<nat>)
    requires Laid(c, lo, hi) && lo == hi && GeometryOf(c, Bi, M).Valid() && Fits(GeometryOf(c, Bi, M), coords)
      && InShape(c.windows, w)
    requires WindowRowIndex(c, w) < GeometryOf(c, Bi, M).W()
    ensures GeometryOf(c, Bi, M).N == 1 && Row(GeometryOf(c, Bi, M), coords, WindowRowIndex(c, w)) == 0
  {
    hide RowShape, Row;
    assert c.N == 1 * Product([]);
  }

  /// Every element of every window row has its batch index, offsets and row index.
  lemma PartsOfElement(c: Canonical, lo: nat, hi: nat, Bi: nat, M: nat, b: nat, j: nat, e: nat)
    returns (i: seq<nat>, w: seq<nat>, r: seq<nat>)
    requires Laid(c, lo, hi) && GeometryOf(c, Bi, M).Valid() && (Bi == 1 || Bi == c.B)
    requires b < c.B && j < GeometryOf(c, Bi, M).W() && e < GeometryOf(c, Bi, M).Width()
    ensures InShape(Sizes(c.dims[..lo]), i) && InShape(c.windows, w) && InShape(Sizes(c.dims[hi..]), r)
    ensures Flatten(Sizes(c.dims[..lo]), i) == b && WindowRowIndex(c, w) == j && ElementIndex(c, hi, w, r) == e
  {
    hide Columns, Windows, Sizes, RowShape, Product, Flatten, Unflatten;
    GeometryValid(c, lo, hi, Bi, M);
    FlattenUnflatten(Sizes(c.dims[..lo]), b);
    i := Unflatten(Sizes(c.dims[..lo]), b);
    if c.column {
      var n := |c.windows| - 1;
      FlattenUnflatten(c.windows[..n], j);
      w, r := Unflatten(c.windows[..n], j) + [e], [];
      assert w[..n] == Unflatten(c.windows[..n], j);
      NoComponents(c, hi);
      assert c.dims[hi..] == c.dims[hi..hi];
    } else {
      assert c.windows[..|c.windows|] == c.windows;
      FlattenUnflatten(c.windows, j);
      FlattenUnflatten(Sizes(c.dims[hi..]), e);
      w, r := Unflatten(c.windows, j), Unflatten(Sizes(c.dims[hi..]), e);
    }
  }

  // ---- extents ----

  lemma TableElementCount(c: Canonical, lo: nat, hi: nat, Bi: nat, M: nat)
    requires Laid(c, lo, hi)
    ensures GeometryOf(c, Bi, M).TableElements() == Product(Sizes(c.dims))
  {
    hide Columns, Windows, Sizes, RowShape, Product;
    RowElements(c, lo, hi, Bi, M);
    SizesInParts(c.dims, lo, hi);
    var s, t, u := Sizes(c.dims[..lo]), Sizes(c.dims[lo..hi]), Sizes(c.dims[hi..]);
    ProductConcat(t, u);
    ProductConcat(s, t + u);
    NoComponents(c, hi);
    if lo == hi {
      NoComponents(c, lo);
      UnitProduct();
    } else if c.column {
      var n := |c.sizes| - 1;
      assert c.sizes == c.sizes[..n] + [c.sizes[n]];
      ProductLast(c.sizes[..n], c.sizes[n]);
      assert c.dims[hi..] == c.dims[hi..hi];
    }
    TableProduct(c.B, c.N, GeometryOf(c, Bi, M).S, GeometryOf(c, Bi, M).R, Product(t), Product(u));
  }

  lemma UnitProduct()
    ensures Product([1]) == 1
  {
    assert Product([1]) == 1 * Product([]);
  }

  lemma TableProduct(B: nat, N: nat, S: nat, R: nat, t: nat, u: nat)
    requires N * (S * R) == t * u
    ensures B * N * (S * R) == B * (t * u)
  {
    MulAssoc(B, N, S * R);
  }

  lemma MovedElementCount(c: Canonical, lo: nat, hi: nat, Bi: nat, M: nat)
    requires Laid(c, lo, hi) && (Bi == 1 || Bi == c.B)
    ensures GeometryOf(c, Bi, M).MovedElements()
         == Product(Sizes(c.dims[..lo])) * M * Product(c.windows) * Product(Sizes(c.dims[hi..]))
  {
    hide Columns, Windows, Sizes, RowShape, Product;
    GeometryValid(c, lo, hi, Bi, M);
    if c.column {
      var n := |c.windows| - 1;
      assert c.windows == c.windows[..n] + [c.windows[n]];
      ProductLast(c.windows[..n], c.windows[n]);
      NoComponents(c, hi);
      assert c.dims[hi..] == c.dims[hi..hi];
      MulAssoc(c.B * M, Product(c.windows[..n]), c.windows[n]);
    }
  }
}
