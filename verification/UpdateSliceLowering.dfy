/// stablehlo.dynamic_update_slice onto rows_scatter: the update is the window of a
/// single position.
module UpdateSliceLowering {
  import opened RowMajor
  import opened IndexedRows
  import opened Tensors
  import opened CanonicalLayout
  import opened TableView

  // ---- the operation ----

  /// The start along dimension d, moved so that the update fits. Dimensions
  /// past the start indices (a complex operand's last) start at 0.
  function Adjusted(shape: seq<nat>, update: seq<nat>, starts: seq<int>, d: nat): (a: nat)
    requires |shape| == |update| && d < |shape| && update[d] <= shape[d]
    ensures a + update[d] <= shape[d]
  {
    if d < |starts| then Clamp(starts[d], shape[d] - update[d]) else 0
  }

  ghost predicate WellFormed<T>(operand: Tensor<T>, update: Tensor<T>, starts: seq<int>) {
    && operand.Valid() && update.Valid()
    && |update.shape| == |operand.shape| && |starts| <= |operand.shape|
    && (forall d :: 0 <= d < |operand.shape| ==> update.shape[d] <= operand.shape[d])
    && (forall d :: |starts| <= d < |operand.shape| ==> update.shape[d] == operand.shape[d])
  }

  ghost predicate InBox(shape: seq<nat>, update: seq<nat>, starts: seq<int>, index: seq<nat>)
    requires |shape| == |update| == |index| && forall d :: 0 <= d < |shape| ==> update[d] <= shape[d]
  {
    forall d :: 0 <= d < |shape| ==>
      Adjusted(shape, update, starts, d) <= index[d] < Adjusted(shape, update, starts, d) + update[d]
  }

  ghost function Relative(shape: seq<nat>, update: seq<nat>, starts: seq<int>, index: seq<nat>): (r: seq<nat>)
    requires |shape| == |update| == |index| && (forall d :: 0 <= d < |shape| ==> update[d] <= shape[d])
    requires InBox(shape, update, starts, index)
    ensures InShape(update, r)
  {
    seq(|shape|, d requires 0 <= d < |shape| => (index[d] - Adjusted(shape, update, starts, d)) as nat)
  }

  /// The operand with the clamped box replaced by the update.
  ghost predicate IsUpdated<T>(operand: Tensor<T>, update: Tensor<T>, starts: seq<int>, result: Tensor<T>)
    requires WellFormed(operand, update, starts)
  {
    && result.Valid() && result.shape == operand.shape
    && forall index :: InShape(operand.shape, index) ==> UpdatedAt(operand, update, starts, result, index)
  }

  ghost predicate UpdatedAt<T>(operand: Tensor<T>, update: Tensor<T>, starts: seq<int>, result: Tensor<T>,
                               index: seq<nat>)
    requires WellFormed(operand, update, starts) && result.Valid() && result.shape == operand.shape
    requires InShape(operand.shape, index)
  {
    result.At(index) ==
      if InBox(operand.shape, update.shape, starts, index)
      then update.At(Relative(operand.shape, update.shape, starts, index))
      else operand.At(index)
  }

  /// The box that the update replaces: along every dimension it starts at the
  /// position nearest to the start index from which the update fits.
  ghost predicate NearestBox(shape: seq<nat>, update: seq<nat>, starts: seq<int>, box: seq<nat>)
    requires |update| == |shape| && |starts| <= |shape| && forall d :: 0 <= d < |shape| ==> update[d] <= shape[d]
  {
    && |box| == |shape|
    && (forall d :: 0 <= d < |starts| ==> Nearest(starts[d], shape[d] - update[d], box[d]))
    && forall d :: |starts| <= d < |shape| ==> box[d] == 0
  }

  ghost predicate Inside(update: seq<nat>, box: seq<nat>, index: seq<nat>)
    requires |update| == |box| == |index|
  {
    forall d :: 0 <= d < |box| ==> box[d] <= index[d] < box[d] + update[d]
  }

  /// Inside the box the element is the update's at its distance from the box's
  /// start, outside it the operand's.
  ghost predicate ReplacedAt<T>(operand: Tensor<T>, update: Tensor<T>, box: seq<nat>, result: Tensor<T>,
                                index: seq<nat>)
    requires operand.Valid() && update.Valid() && result.Valid() && result.shape == operand.shape
    requires |box| == |update.shape| == |operand.shape| && InShape(operand.shape, index)
  {
    if Inside(update.shape, box, index) then
      exists place :: InShape(update.shape, place) && result.At(index) == update.At(place)
        && forall d :: 0 <= d < |box| ==> index[d] == box[d] + place[d]
    else result.At(index) == operand.At(index)
  }

  ghost predicate Replaced<T>(operand: Tensor<T>, update: Tensor<T>, starts: seq<int>, box: seq<nat>, result: Tensor<T>)
    requires WellFormed(operand, update, starts)
  {
    && result.Valid() && result.shape == operand.shape && NearestBox(operand.shape, update.shape, starts, box)
    && forall index :: InShape(operand.shape, index) ==> ReplacedAt(operand, update, box, result, index)
  }

  /// The box in that form: the one form is the other.
  lemma UpdatedIsReplaced<T>(operand: Tensor<T>, update: Tensor<T>, starts: seq<int>, result: Tensor<T>)
    returns (box: seq<nat>)
    requires WellFormed(operand, update, starts) && IsUpdated(operand, update, starts, result)
    ensures Replaced(operand, update, starts, box, result)
  {
    hide Nearest, Clamp;
    var shape := operand.shape;
    box := seq(|shape|, d requires 0 <= d < |shape| => Adjusted(shape, update.shape, starts, d));
    forall d | 0 <= d < |starts| ensures Nearest(starts[d], shape[d] - update.shape[d], box[d]) {
      ClampIsNearest(starts[d], shape[d] - update.shape[d]);
    }
    forall index | InShape(shape, index) ensures ReplacedAt(operand, update, box, result, index) {
      assert UpdatedAt(operand, update, starts, result, index);
      assert Inside(update.shape, box, index) <==> InBox(shape, update.shape, starts, index);
      if InBox(shape, update.shape, starts, index) {
        var place := Relative(shape, update.shape, starts, index);
        assert result.At(index) == update.At(place);
      }
    }
  }

  // ---- the lowering ----

  /// A dimension is indexed just when the update is shorter along it.
  function DimOf(size: nat, window: nat, column: nat): OperandDim {
    if window != size then OperandDim(Indexed, column, window, size) else OperandDim(Free, 0, window, size)
  }

  /// Components before dimension d.
  function ColumnsBefore(shape: seq<nat>, update: seq<nat>, d: nat): nat
    requires d <= |shape| == |update|
  {
    if d == 0 then 0 else ColumnsBefore(shape, update, d - 1) + (if update[d - 1] != shape[d - 1] then 1 else 0)
  }

  ghost predicate Classified(shape: seq<nat>, update: seq<nat>, dims: seq<OperandDim>) {
    && |dims| == |shape| == |update|
    && forall d :: 0 <= d < |shape| ==> dims[d] == DimOf(shape[d], update[d], ColumnsBefore(shape, update, d))
  }

  ghost predicate Fitting(shape: seq<nat>, update: seq<nat>) {
    |shape| == |update| && forall d :: 0 <= d < |shape| ==> update[d] <= shape[d]
  }

  ghost predicate StartAt(shape: seq<nat>, update: seq<nat>, starts: seq<int>, columns: seq<int>, d: nat)
    requires Fitting(shape, update) && d < |shape|
  {
    update[d] != shape[d] ==>
      && ColumnsBefore(shape, update, d) < |columns|
      && columns[ColumnsBefore(shape, update, d)] == Adjusted(shape, update, starts, d)
  }

  ghost predicate StartsOf(shape: seq<nat>, update: seq<nat>, starts: seq<int>, columns: seq<int>)
    requires Fitting(shape, update)
  {
    forall d :: 0 <= d < |shape| ==> StartAt(shape, update, starts, columns, d)
  }

  /// Classifies the dimensions and clamps the starts of the indexed ones.
  method Classify(shape: seq<nat>, update: seq<nat>, starts: seq<int>)
    returns (dims: seq<OperandDim>, columns: seq<int>)
    requires Fitting(shape, update) && |starts| <= |shape|
    requires forall d :: |starts| <= d < |shape| ==> update[d] == shape[d]
    ensures Classified(shape, update, dims) && StartsOf(shape, update, starts, columns)
  {
    hide ColumnsBefore, StartAt, Adjusted;
    dims, columns := [], [];
    FirstColumn(shape, update);
    var d := 0;
    while d < |shape|
      invariant 0 <= d <= |shape| && |dims| == d && |columns| == ColumnsBefore(shape, update, d)
      invariant forall i :: 0 <= i < d ==> dims[i] == DimOf(shape[i], update[i], ColumnsBefore(shape, update, i))
      invariant forall i :: 0 <= i < d ==> StartAt(shape, update, starts, columns, i)
    {
      ghost var before := columns;
      NextColumn(shape, update, d);
      if d < |starts| && update[d] != shape[d] {
        dims := dims + [OperandDim(Indexed, |columns|, update[d], shape[d])];
        columns := columns + [Clamp(starts[d], shape[d] - update[d])];
      } else {
        dims := dims + [OperandDim(Free, 0, update[d], shape[d])];
      }
      forall i | 0 <= i < d ensures StartAt(shape, update, starts, columns, i) {
        StartKept(shape, update, starts, before, columns, i);
      }
      NewStart(shape, update, starts, columns, d);
      d := d + 1;
    }
  }

  lemma FirstColumn(shape: seq<nat>, update: seq<nat>)
    requires |shape| == |update|
    ensures ColumnsBefore(shape, update, 0) == 0
  {}

  lemma NextColumn(shape: seq<nat>, update: seq<nat>, d: nat)
    requires d < |shape| == |update|
    ensures ColumnsBefore(shape, update, d + 1) == ColumnsBefore(shape, update, d) + (if update[d] != shape[d] then 1
      else 0)
  {}

  lemma StartKept(shape: seq<nat>, update: seq<nat>, starts: seq<int>, before: seq<int>, after: seq<int>, d: nat)
    requires Fitting(shape, update) && d < |shape| && StartAt(shape, update, starts, before, d) && before <= after
    ensures StartAt(shape, update, starts, after, d)
  {}

  lemma NewStart(shape: seq<nat>, update: seq<nat>, starts: seq<int>, columns: seq<int>, d: nat)
    requires Fitting(shape, update) && d < |shape|
    requires update[d] != shape[d] ==> (
      && d < |starts| && |columns| == ColumnsBefore(shape, update, d) + 1
      && columns[ColumnsBefore(shape, update, d)] == Clamp(starts[d], shape[d] - update[d]))
    ensures StartAt(shape, update, starts, columns, d)
  {}

  /// The one position's components: the clamped starts, with zeros for free dimensions.
  method Components(c: Canonical, columns: seq<int>) returns (values: seq<int>)
    requires forall k :: 0 <= k < |c.columns| ==> c.columns[k] < |columns|
    ensures |values| == |c.columns|
    ensures forall k :: 0 <= k < |values| ==> values[k] == if c.columns[k] >= 0 then columns[c.columns[k]] else 0
  {
    values := [];
    var k := 0;
    while k < |c.columns|
      invariant 0 <= k <= |c.columns| && |values| == k
      invariant forall i :: 0 <= i < k ==> values[i] == if c.columns[i] >= 0 then columns[c.columns[i]] else 0
    {
      values := values + [if c.columns[k] >= 0 then columns[c.columns[k]] else 0];
      k := k + 1;
    }
  }

  // ---- what the scatter does ----

  /// The lowering's layout of the operand, and the position it scatters at.
  ghost predicate Placed(shape: seq<nat>, update: seq<nat>, starts: seq<int>, c: Canonical, lo: nat, hi: nat,
                         values: seq<int>) {
    && Fitting(shape, update) && Laid(c, lo, hi) && lo < hi
    && Sizes(c.dims) == shape && Windows(c.dims) == update
    && (forall d :: 0 <= d < |shape| && !(lo <= d < hi) ==> update[d] == shape[d])
    && |values| == |c.sizes|
    && forall k :: 0 <= k < |values| ==> values[k] == Adjusted(shape, update, starts, lo + k)
  }

  ghost predicate Scattering(c: Canonical, values: seq<int>)
    requires |c.sizes| > 0 && Names(c.rowDims, |c.dims|)
  {
    GeometryOf(c, 1, 1).Valid() && |values| == GeometryOf(c, 1, 1).IndexElements()
  }

  /// The clamped starts need no further clamping: the scatter drops nothing.
  lemma StartsInBounds(shape: seq<nat>, update: seq<nat>, starts: seq<int>, c: Canonical, lo: nat, hi: nat,
                       values: seq<int>, b: nat)
    requires Placed(shape, update, starts, c, lo, hi, values) && Scattering(c, values) && b < c.B
    ensures InBounds(GeometryOf(c, 1, 1), values, b, 0)
    ensures Coords(GeometryOf(c, 1, 1), values, b, 0) == values
  {
    hide RowShape, Product, Columns, Placed, Scattering, IndexAt;
    StartCount(shape, update, starts, c, lo, hi, values);
    ScatterValid(c, values);
    var g := GeometryOf(c, 1, 1);
    forall k: nat | k < g.K()
      ensures k < |values| && IndexAt(g, values, b, 0, k) == values[k] && 0 <= values[k] <= g.sizes[k] - g.windows[k]
    {
      StartInBounds(shape, update, starts, c, lo, hi, values, b, k);
    }
    var coords := Coords(g, values, b, 0);
    forall k | 0 <= k < |coords| ensures coords[k] == values[k] {
      assert IndexAt(g, values, b, 0, k) == values[k];
    }
  }

  lemma ScatterValid(c: Canonical, values: seq<int>)
    requires |c.sizes| > 0 && Names(c.rowDims, |c.dims|) && Scattering(c, values)
    ensures GeometryOf(c, 1, 1).Valid() && |values| == GeometryOf(c, 1, 1).IndexElements()
  {}

  lemma StartCount(shape: seq<nat>, update: seq<nat>, starts: seq<int>, c: Canonical, lo: nat, hi: nat,
                   values: seq<int>)
    requires Placed(shape, update, starts, c, lo, hi, values)
    ensures |c.sizes| > 0 && Names(c.rowDims, |c.dims|) && |values| == |c.sizes| == GeometryOf(c, 1, 1).K()
  {
    hide RowShape, Product, Columns;
  }

  /// One component's start, as the scatter reads it.
  lemma StartInBounds(shape: seq<nat>, update: seq<nat>, starts: seq<int>, c: Canonical, lo: nat, hi: nat,
                      values: seq<int>, b: nat, k: nat)
    requires Placed(shape, update, starts, c, lo, hi, values) && Scattering(c, values) && b < c.B
      && k < GeometryOf(c, 1, 1).K()
    ensures k < |values| && IndexAt(GeometryOf(c, 1, 1), values, b, 0, k) == values[k]
    ensures 0 <= values[k] <= GeometryOf(c, 1, 1).sizes[k] - GeometryOf(c, 1, 1).windows[k]
  {
    hide RowShape, Product, Columns;
    var g := GeometryOf(c, 1, 1);
    assert g.sizes[k] == shape[lo + k] && g.windows[k] == update[lo + k];
  }

  lemma ShapesInParts(shape: seq<nat>, update: seq<nat>, starts: seq<int>, c: Canonical, lo: nat, hi: nat,
                      values: seq<int>)
    requires Placed(shape, update, starts, c, lo, hi, values)
    ensures Sizes(c.dims[..lo]) == shape[..lo] == update[..lo] && Sizes(c.dims[hi..]) == shape[hi..] == update[hi..]
    ensures c.sizes == shape[lo..hi] && c.windows == update[lo..hi]
    ensures update == update[..lo] + (update[lo..hi] + update[hi..])
  {
    hide Product, Columns;
  }

  /// The parts of an element the scatter writes.
  lemma HitParts(shape: seq<nat>, update: seq<nat>, starts: seq<int>, c: Canonical, lo: nat, hi: nat, values: seq<int>,
                 b: nat, m: nat, j: nat, index: seq<nat>)
    returns (coords: seq<nat>, e: nat, i: seq<nat>, w: seq<nat>, r: seq<nat>)
    requires Placed(shape, update, starts, c, lo, hi, values) && Scattering(c, values) && InShape(shape, index)
    requires Hits(GeometryOf(c, 1, 1), values, b, m, j, Flatten(shape, index))
    ensures m == 0 && coords == values && coords == Coords(GeometryOf(c, 1, 1), values, b, 0)
    ensures InShape(Sizes(c.dims[..lo]), i) && InShape(c.windows, w) && InShape(Sizes(c.dims[hi..]), r)
    ensures Flatten(Sizes(c.dims[..lo]), i) == b && WindowRowIndex(c, w) == j && ElementIndex(c, hi, w, r) == e
    ensures e == Flatten(shape, index) - SlicePlace(GeometryOf(c, 1, 1), coords, b, j)
    ensures |w| == |coords| && index == Joined(lo, hi, i, Plus(coords, w), r)
  {
    hide RowShape, Product, Columns, Flatten, Geometry.MovedElements, Geometry.IndexElements, Geometry.TableElements,
      SlicePlace, Coords, InBounds, Geometry.W, Geometry.Width, Adjusted, Sizes, Windows, WindowRowIndex, ElementIndex,
        Joined;
    var g, y := GeometryOf(c, 1, 1), Flatten(shape, index);
    StartsInBounds(shape, update, starts, c, lo, hi, values, b);
    coords := Coords(g, values, b, 0);
    e := y - SlicePlace(g, coords, b, j);
    i, w, r := PartsOfElement(c, lo, hi, 1, 1, b, j, e);
    SliceAt(c, lo, hi, 1, 1, i, coords, w, r);
    FlattenInjective(shape, index, Joined(lo, hi, i, Plus(coords, w), r));
  }

  /// An element the scatter writes lies in the box, and gets the update's element there.
  lemma HitInBox<T>(update: Tensor<T>, starts: seq<int>, shape: seq<nat>, c: Canonical, lo: nat, hi: nat,
                    values: seq<int>,
                    b: nat, m: nat, j: nat, index: seq<nat>)
    requires Placed(shape, update.shape, starts, c, lo, hi, values) && Scattering(c, values) && update.Valid()
    requires |update.data| == GeometryOf(c, 1, 1).MovedElements() && InShape(shape, index)
    requires Hits(GeometryOf(c, 1, 1), values, b, m, j, Flatten(shape, index))
    ensures InBox(shape, update.shape, starts, index)
    ensures Written(GeometryOf(c, 1, 1), values, update.data, b, m, j, Flatten(shape, index))
         == update.At(Relative(shape, update.shape, starts, index))
  {
    hide RowShape, Product, Columns, Flatten, Geometry.MovedElements, Geometry.IndexElements, Geometry.TableElements,
      SlicePlace, Coords, InBounds, Geometry.W, Geometry.Width, Adjusted, Sizes, Windows, WindowRowIndex, ElementIndex,
      Joined, InBox, Relative, Plus;
    var coords, e, i, w, r := HitParts(shape, update.shape, starts, c, lo, hi, values, b, m, j, index);
    ShapesInParts(shape, update.shape, starts, c, lo, hi, values);
    BoxParts(shape, update.shape, starts, lo, hi, coords, i, w, r);
    SourceElement(update, c, lo, hi, i, w, r);
  }

  /// The box, in parts: any batch and row index, and offsets within the windows.
  lemma BoxParts(shape: seq<nat>, update: seq<nat>, starts: seq<int>, lo: nat, hi: nat, values: seq<nat>,
                 i: seq<nat>, w: seq<nat>, r: seq<nat>)
    requires Fitting(shape, update) && lo < hi <= |shape| && |values| == |w| == hi - lo
    requires forall d :: 0 <= d < |shape| && !(lo <= d < hi) ==> update[d] == shape[d]
    requires forall k :: 0 <= k < |values| ==> values[k] == Adjusted(shape, update, starts, lo + k)
    requires InShape(shape[..lo], i) && InShape(update[lo..hi], w) && InShape(shape[hi..], r)
    ensures |Joined(lo, hi, i, Plus(values, w), r)| == |shape|
    ensures InBox(shape, update, starts, Joined(lo, hi, i, Plus(values, w), r))
    ensures Relative(shape, update, starts, Joined(lo, hi, i, Plus(values, w), r)) == i + (w + r)
  {
    var index := Joined(lo, hi, i, Plus(values, w), r);
    forall d | 0 <= d < |shape|
      ensures Adjusted(shape, update, starts, d) <= index[d] < Adjusted(shape, update, starts, d) + update[d]
      ensures index[d] - Adjusted(shape, update, starts, d) == (i + (w + r))[d]
    {
      if d < lo {
        assert index[d] == i[d] && (i + (w + r))[d] == i[d];
        assert i[d] < shape[..lo][d];
      } else if d < hi {
        assert values[d - lo] == Adjusted(shape, update, starts, lo + (d - lo));
        assert index[d] == values[d - lo] + w[d - lo] && (i + (w + r))[d] == w[d - lo];
        assert w[d - lo] < update[lo..hi][d - lo];
      } else {
        assert index[d] == r[d - hi] && (i + (w + r))[d] == r[d - hi];
        assert r[d - hi] < shape[hi..][d - hi];
      }
    }
    assert Relative(shape, update, starts, index) == i + (w + r);
  }

  /// The source element of offsets w is the update's element (i, w, r).
  lemma SourceElement<T>(update: Tensor<T>, c: Canonical, lo: nat, hi: nat, i: seq<nat>, w: seq<nat>, r: seq<nat>)
    requires Laid(c, lo, hi) && GeometryOf(c, 1, 1).Valid() && update.Valid()
      && |update.data| == GeometryOf(c, 1, 1).MovedElements()
    requires update.shape == Sizes(c.dims[..lo]) + (c.windows + Sizes(c.dims[hi..]))
    requires InShape(Sizes(c.dims[..lo]), i) && InShape(c.windows, w) && InShape(Sizes(c.dims[hi..]), r)
    ensures InShape(update.shape, i + (w + r)) && Flatten(Sizes(c.dims[..lo]), i) < c.B
    ensures WindowRowIndex(c, w) < GeometryOf(c, 1, 1).W() && ElementIndex(c, hi, w, r) < GeometryOf(c, 1, 1).Width()
    ensures update.data[GeometryOf(c, 1, 1).SourcePlace(Flatten(Sizes(c.dims[..lo]), i), 0, WindowRowIndex(c, w))
      + ElementIndex(c, hi, w, r)]
         == update.At(i + (w + r))
  {
    hide RowShape, Product, Columns, Flatten, Sizes, Geometry.MovedElements, Geometry.W, Geometry.Width,
         Geometry.SourcePlace;
    IndexBounds(c, lo, hi, 1, 1, w, r);
    FlattenBound(Sizes(c.dims[..lo]), i);
    MovedAt(c, lo, hi, 1, 1, i, 0, w, r);
    PlaceInParts(Sizes(c.dims[..lo]), c.windows, Sizes(c.dims[hi..]), i, w, r);
  }

  /// Every element of the box is written.
  lemma BoxIsHit(shape: seq<nat>, update: seq<nat>, starts: seq<int>, c: Canonical, lo: nat, hi: nat, values: seq<int>,
                 index: seq<nat>)
    returns (b: nat, j: nat)
    requires Placed(shape, update, starts, c, lo, hi, values) && Scattering(c, values) && InShape(shape, index)
    requires InBox(shape, update, starts, index)
    ensures b < c.B && Hits(GeometryOf(c, 1, 1), values, b, 0, j, Flatten(shape, index))
  {
    hide RowShape, Product, Columns, Flatten, Geometry.MovedElements, Geometry.IndexElements, Geometry.TableElements,
      SlicePlace, Coords, InBounds, Geometry.W, Geometry.Width, Adjusted, Sizes, Windows, WindowRowIndex, ElementIndex,
        Joined,
      Relative, Plus, InBox;
    var g := GeometryOf(c, 1, 1);
    ShapesInParts(shape, update, starts, c, lo, hi, values);
    var i, coords, w, r := BoxIndexParts(shape, update, starts, lo, hi, values, index);
    FlattenBound(Sizes(c.dims[..lo]), i);
    CanonicalBatches(c, lo, hi);
    b, j := Flatten(Sizes(c.dims[..lo]), i), WindowRowIndex(c, w);
    StartsInBounds(shape, update, starts, c, lo, hi, values, b);
    IndexBounds(c, lo, hi, 1, 1, w, r);
    SliceAt(c, lo, hi, 1, 1, i, Coords(g, values, b, 0), w, r);
  }

  lemma CanonicalBatches(c: Canonical, lo: nat, hi: nat)
    requires Laid(c, lo, hi)
    ensures c.B == Product(Sizes(c.dims[..lo])) && GeometryOf(c, 1, 1).B == c.B
  {
    hide RowShape, Product, Columns, Sizes;
  }

  /// An element of the box: batch index, offsets from the starts, row index.
  lemma BoxIndexParts(shape: seq<nat>, update: seq<nat>, starts: seq<int>, lo: nat, hi: nat, values: seq<int>,
                      index: seq<nat>)
    returns (i: seq<nat>, coords: seq<nat>, w: seq<nat>, r: seq<nat>)
    requires Fitting(shape, update) && lo < hi <= |shape| && |values| == hi - lo
    requires forall k :: 0 <= k < |values| ==> values[k] == Adjusted(shape, update, starts, lo + k)
    requires InShape(shape, index) && InBox(shape, update, starts, index)
    ensures InShape(shape[..lo], i) && InShape(update[lo..hi], w) && InShape(shape[hi..], r)
    ensures coords == values && |w| == |coords| && index == Joined(lo, hi, i, Plus(coords, w), r)
  {
    i, r := index[..lo], index[hi..];
    coords := seq(hi - lo, k requires 0 <= k < hi - lo => Adjusted(shape, update, starts, lo + k));
    w := seq(hi - lo, k requires 0 <= k < hi - lo => (index[lo + k] - coords[k]) as nat);
    assert Plus(coords, w) == index[lo..hi];
    assert index == index[..lo] + (index[lo..hi] + index[hi..]);
  }

  /// The scatter replaces exactly the box.
  lemma ScatterUpdates<T>(operand: Tensor<T>, update: Tensor<T>, starts: seq<int>, c: Canonical, lo: nat, hi: nat,
                          values: seq<int>,
                          result: Tensor<T>)
    requires WellFormed(operand, update, starts) && Placed(operand.shape, update.shape, starts, c, lo, hi, values)
    requires Scattering(c, values) && |operand.data| == GeometryOf(c, 1, 1).TableElements()
    requires |update.data| == GeometryOf(c, 1, 1).MovedElements()
    requires result == Tensor(operand.shape, RowsScatter(GeometryOf(c, 1, 1), operand.data, values, update.data,
      Overwrite))
    ensures IsUpdated(operand, update, starts, result)
  {
    hide RowShape, Product, Flatten, Geometry.MovedElements, Geometry.IndexElements, Geometry.TableElements, Geometry.W,
      SlicePlace, Hits, Written, InBox, Relative, Adjusted, Scattered;
    var g := GeometryOf(c, 1, 1);
    forall index | InShape(operand.shape, index) ensures UpdatedAt(operand, update, starts, result, index) {
      FlattenBound(operand.shape, index);
      var y := Flatten(operand.shape, index);
      var v := if InBox(operand.shape, update.shape, starts, index)
               then update.At(Relative(operand.shape, update.shape, starts, index)) else operand.At(index);
      forall b: nat, m: nat, j: nat | Hits(g, values, b, m, j, y)
        ensures InBox(operand.shape, update.shape, starts, index) && Written(g, values, update.data, b, m, j, y) == v
      {
        HitInBox(update, starts, operand.shape, c, lo, hi, values, b, m, j, index);
      }
      OverwrittenAt(g, operand.data, values, update.data, g.B, 0, 0, y, v);
      if InBox(operand.shape, update.shape, starts, index) {
        var b, j := BoxIsHit(operand.shape, update.shape, starts, c, lo, hi, values, index);
        assert Hits(g, values, b, 0, j, y) && Earlier(Update(b, 0, j), Update(g.B, 0, 0));
      }
    }
  }

  /// The component list of the layout, in operand order.
  lemma LayoutKeepsOrder(shape: seq<nat>, update: seq<nat>, dims: seq<OperandDim>, c: Canonical, lo: nat, hi: nat)
    requires Fitting(shape, update) && (forall d :: 0 <= d < |update| ==> update[d] > 0) && update != shape
    requires Classified(shape, update, dims)
    requires IsCanonical(dims, c, lo, hi) && c.permutation == Range(|dims|) && (NothingIndexed(dims) <==> lo == hi)
    ensures c.dims == dims && Sizes(dims) == shape && Windows(dims) == update && Laid(c, lo, hi) && lo < hi
    ensures forall d :: 0 <= d < |shape| && !(lo <= d < hi) ==> update[d] == shape[d]
  {
    hide RowShape, Product, ColumnsBefore, BatchesLead, Filter, IsCanonical, Laid;
    ClassifiedExtents(shape, update, dims);
    CanonicalIsLaid(dims, c, lo, hi);
    RegionInOrder(dims, c, lo, hi);
    var d :| 0 <= d < |shape| && update[d] != shape[d];
    assert NeedsComponent(dims[d]);
    forall d | 0 <= d < |shape| && !(lo <= d < hi) ensures update[d] == shape[d] {
      assert !NeedsComponent(dims[d]);
    }
  }

  lemma ClassifiedExtents(shape: seq<nat>, update: seq<nat>, dims: seq<OperandDim>)
    requires Fitting(shape, update) && (forall d :: 0 <= d < |update| ==> update[d] > 0)
      && Classified(shape, update, dims)
    ensures Sizes(dims) == shape && Windows(dims) == update && WindowsFit(dims)
    ensures forall d :: 0 <= d < |shape| && NeedsComponent(dims[d]) ==> update[d] != shape[d]
  {
    hide ColumnsBefore;
  }

  lemma RegionInOrder(dims: seq<OperandDim>, c: Canonical, lo: nat, hi: nat)
    requires IsCanonical(dims, c, lo, hi) && c.permutation == Range(|dims|)
    ensures c.dims == dims && lo <= hi <= |dims|
    ensures forall d :: 0 <= d < |dims| && NeedsComponent(dims[d]) ==> lo <= d < hi
  {
    hide BatchesLead, Filter, Product, NeedsComponent, IsPermutation;
    SelectRange(dims);
    forall d | 0 <= d < |dims| && NeedsComponent(dims[d]) ensures lo <= d < hi {
      assert NeedsComponent(dims[c.permutation[d]]);
    }
  }

  /// The one position's components are the clamped starts of the region.
  lemma ComponentStarts(shape: seq<nat>, update: seq<nat>, starts: seq<int>, dims: seq<OperandDim>, columns: seq<int>,
                        c: Canonical, lo: nat, hi: nat, values: seq<int>)
    requires Fitting(shape, update) && Classified(shape, update, dims) && StartsOf(shape, update, starts, columns)
    requires c.dims == dims && Laid(c, lo, hi) && lo < hi && |values| == |c.columns|
    requires forall k :: 0 <= k < |values| ==> c.columns[k] < |columns|
    requires forall k :: 0 <= k < |values| ==> values[k] == if c.columns[k] >= 0 then columns[c.columns[k]] else 0
    requires forall d :: 0 <= d < |shape| && update[d] == shape[d] ==> Adjusted(shape, update, starts, d) == 0
    ensures forall k :: 0 <= k < |values| ==> values[k] == Adjusted(shape, update, starts, lo + k)
  {
    hide RowShape, Product, Adjusted, ColumnsBefore;
    forall k | 0 <= k < |values| ensures values[k] == Adjusted(shape, update, starts, lo + k) {
      assert c.columns[k] == ColumnOf(dims[lo + k]);
      assert StartAt(shape, update, starts, columns, lo + k);
    }
  }

  /// The layout the lowering computes is one the scatter lemmas speak of.
  lemma LayoutPlaced(shape: seq<nat>, update: seq<nat>, starts: seq<int>, dims: seq<OperandDim>, columns: seq<int>,
                     c: Canonical, lo: nat, hi: nat, values: seq<int>)
    requires Fitting(shape, update) && (forall d :: 0 <= d < |update| ==> update[d] > 0) && update != shape
    requires Classified(shape, update, dims) && StartsOf(shape, update, starts, columns)
    requires IsCanonical(dims, c, lo, hi) && c.permutation == Range(|dims|) && (NothingIndexed(dims) <==> lo == hi)
    requires |values| == |c.columns|
    requires forall k :: 0 <= k < |values| ==> c.columns[k] < |columns|
    requires forall k :: 0 <= k < |values| ==> values[k] == if c.columns[k] >= 0 then columns[c.columns[k]] else 0
    requires forall d :: 0 <= d < |shape| && update[d] == shape[d] ==> Adjusted(shape, update, starts, d) == 0
    ensures Placed(shape, update, starts, c, lo, hi, values) && Scattering(c, values)
    ensures GeometryOf(c, 1, 1).TableElements() == Product(shape)
      && GeometryOf(c, 1, 1).MovedElements() == Product(update)
  {
    hide RowShape, Product, Adjusted, ColumnsBefore, BatchesLead, Filter, Classified, StartsOf, IsCanonical,
         NothingIndexed,
      Geometry.TableElements, Geometry.MovedElements, Geometry.IndexElements;
    LayoutKeepsOrder(shape, update, dims, c, lo, hi);
    ComponentStarts(shape, update, starts, dims, columns, c, lo, hi, values);
    GeometryValid(c, lo, hi, 1, 1);
    TableSizes(shape, update, c, lo, hi);
    OneIndex(c, values);
  }

  lemma OneIndex(c: Canonical, values: seq<int>)
    requires |c.sizes| > 0 && Names(c.rowDims, |c.dims|) && |values| == |c.sizes|
    ensures |values| == GeometryOf(c, 1, 1).IndexElements()
  {
    hide RowShape;
  }

  lemma TableSizes(shape: seq<nat>, update: seq<nat>, c: Canonical, lo: nat, hi: nat)
    requires Fitting(shape, update) && Laid(c, lo, hi) && lo < hi && Sizes(c.dims) == shape && Windows(c.dims) == update
    requires forall d :: 0 <= d < |shape| && !(lo <= d < hi) ==> update[d] == shape[d]
    ensures GeometryOf(c, 1, 1).TableElements() == Product(shape)
      && GeometryOf(c, 1, 1).MovedElements() == Product(update)
  {
    hide RowShape, Product;
    var g := GeometryOf(c, 1, 1);
    TableElementCount(c, lo, hi, 1, 1);
    MovedElementCount(c, lo, hi, 1, 1);
    assert update == shape[..lo] + (update[lo..hi] + shape[hi..]);
    assert c.windows == update[lo..hi] && Sizes(c.dims[..lo]) == shape[..lo] && Sizes(c.dims[hi..]) == shape[hi..];
    ProductConcat(update[lo..hi], shape[hi..]);
    ProductConcat(shape[..lo], update[lo..hi] + shape[hi..]);
    MulAssoc(Product(shape[..lo]), Product(update[lo..hi]), Product(shape[hi..]));
  }

  // ---- the whole lowering ----

  lemma NothingReplaced<T>(operand: Tensor<T>, update: Tensor<T>, starts: seq<int>)
    requires WellFormed(operand, update, starts) && Product(update.shape) == 0
    ensures IsUpdated(operand, update, starts, operand)
  {
    forall index | InShape(operand.shape, index) ensures UpdatedAt(operand, update, starts, operand, index) {
      if InBox(operand.shape, update.shape, starts, index) {
        FlattenBound(update.shape, Relative(operand.shape, update.shape, starts, index));
      }
    }
  }

  lemma AllReplaced<T>(operand: Tensor<T>, update: Tensor<T>, starts: seq<int>)
    requires WellFormed(operand, update, starts) && update.shape == operand.shape
    ensures IsUpdated(operand, update, starts, update)
  {
    forall index | InShape(operand.shape, index) ensures UpdatedAt(operand, update, starts, update, index) {
      assert InBox(operand.shape, update.shape, starts, index);
      assert Relative(operand.shape, update.shape, starts, index) == index;
    }
  }

  lemma ColumnsInRange(shape: seq<nat>, update: seq<nat>, starts: seq<int>, dims: seq<OperandDim>, columns: seq<int>,
                       c: Canonical, lo: nat, hi: nat)
    requires Fitting(shape, update) && Classified(shape, update, dims) && StartsOf(shape, update, starts, columns)
    requires IsCanonical(dims, c, lo, hi) && c.permutation == Range(|dims|)
    ensures forall k :: 0 <= k < |c.columns| ==> c.columns[k] < |columns|
  {
    hide Adjusted, ColumnsBefore, BatchesLead, Filter, Product;
    forall k | 0 <= k < |c.columns| ensures c.columns[k] < |columns| {
      if lo < hi {
        assert c.columns[k] == ColumnOf(dims[lo + k]);
        assert StartAt(shape, update, starts, columns, lo + k);
      }
    }
  }

  lemma WholeStarts(shape: seq<nat>, update: seq<nat>, starts: seq<int>)
    requires Fitting(shape, update)
    ensures forall d :: 0 <= d < |shape| && update[d] == shape[d] ==> Adjusted(shape, update, starts, d) == 0
  {}

  /// The lowering computes the operation, for every rank and mix of covered and uncovered dimensions.
  method LowerUpdateSlice<T>(operand: Tensor<T>, update: Tensor<T>, starts: seq<int>)
    returns (result: Tensor<T>, ghost box: seq<nat>)
    requires WellFormed(operand, update, starts)
    ensures IsUpdated(operand, update, starts, result) && Replaced(operand, update, starts, box, result)
  {
    hide RowShape, Product, Adjusted, IsUpdated, IsCanonical, Classified, StartsOf, Placed, Scattering,
      Geometry.TableElements, Geometry.MovedElements, Geometry.IndexElements, Range, NothingIndexed, RowsScatter,
      Replaced;
    if operand.shape == update.shape {
      AllReplaced(operand, update, starts);
      box := UpdatedIsReplaced(operand, update, starts, update);
      return update, box;
    }
    if |update.data| == 0 {
      NothingReplaced(operand, update, starts);
      box := UpdatedIsReplaced(operand, update, starts, operand);
      return operand, box;
    }
    NonEmpty(update.shape);
    WholeStarts(operand.shape, update.shape, starts);
    var dims, columns := Classify(operand.shape, update.shape, starts);
    var c, lo, hi := Canonicalize(dims);
    ClassifiedUnbatched(operand.shape, update.shape, dims);
    EmptyRegion(dims, c, lo, hi);
    ColumnsInRange(operand.shape, update.shape, starts, dims, columns, c, lo, hi);
    var values := Components(c, columns);
    LayoutPlaced(operand.shape, update.shape, starts, dims, columns, c, lo, hi, values);
    LayoutParts(operand.shape, update.shape, starts, c, lo, hi, values);
    result := Tensor(operand.shape, RowsScatter(GeometryOf(c, 1, 1), operand.data, values, update.data, Overwrite));
    ScatterUpdates(operand, update, starts, c, lo, hi, values, result);
    box := UpdatedIsReplaced(operand, update, starts, result);
  }

  lemma ClassifiedUnbatched(shape: seq<nat>, update: seq<nat>, dims: seq<OperandDim>)
    requires Classified(shape, update, dims)
    ensures Unbatched(dims) && OrderOf(dims) == Range(|dims|)
  {}

  lemma LayoutParts(shape: seq<nat>, update: seq<nat>, starts: seq<int>, c: Canonical, lo: nat, hi: nat,
                    values: seq<int>)
    requires Placed(shape, update, starts, c, lo, hi, values) && Scattering(c, values)
    ensures |c.sizes| > 0 && Names(c.rowDims, |c.dims|) && GeometryOf(c, 1, 1).Valid()
    ensures |values| == GeometryOf(c, 1, 1).IndexElements()
  {}
}
