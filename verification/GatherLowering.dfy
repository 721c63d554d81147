/// stablehlo.gather onto rows_gather: the dimensions classified, the index
/// tensor paged, and the moved rows laid back out as the result.
module GatherLowering {
  import opened RowMajor
  import opened IndexedRows
  import opened Tensors
  import opened CanonicalLayout
  import opened TableView
  import opened IndexPages
  import opened StableHloGather
  import opened GatherDims
  import opened GatherAcceptance

  // ---- what each result dimension is ----

  /// A dimension of the moved rows or of the result: an operand dimension's
  /// slice position or an index dimension.
  datatype Role = OfOperand(d: nat) | OfIndex(d: nat)

  function Operands(dims: seq<nat>): (r: seq<Role>)
    ensures |r| == |dims| && forall i :: 0 <= i < |dims| ==> r[i] == OfOperand(dims[i])
  {
    seq(|dims|, i requires 0 <= i < |dims| => OfOperand(dims[i]))
  }

  function Indices(dims: seq<nat>): (r: seq<Role>)
    ensures |r| == |dims| && forall i :: 0 <= i < |dims| ==> r[i] == OfIndex(dims[i])
  {
    seq(|dims|, i requires 0 <= i < |dims| => OfIndex(dims[i]))
  }

  function NotCollapsed(op: GatherOp): nat -> bool {
    (d: nat) => d !in op.collapsedDims
  }

  /// The moved rows' dimensions: batch, positions, windows, row.
  function Enumerated(op: GatherOp, perm: seq<nat>, lo: nat, hi: nat, otherDims: seq<nat>): seq<Role>
    requires lo <= hi <= |perm|
  {
    Operands(perm[..lo]) + (Indices(otherDims)
      + (Operands(Filter(perm[lo..hi], NotCollapsed(op))) + Operands(perm[hi..])))
  }

  ghost predicate RoleValid(op: GatherOp, shape: seq<nat>, indexShape: seq<nat>, role: Role) {
    match role
    case OfOperand(d) => d < |shape| == |op.sliceSizes|
    case OfIndex(d) => d < |indexShape| && d != op.indexVectorDim
  }

  ghost function ExtentFor(op: GatherOp, shape: seq<nat>, indexShape: seq<nat>, role: Role): nat
    requires RoleValid(op, shape, indexShape, role)
  {
    match role
    case OfOperand(d) => op.SliceExtent(shape, d)
    case OfIndex(d) => indexShape[d]
  }

  ghost function ValueFor(op: GatherOp, shape: seq<nat>, indices: Tensor<int>, resultShape: seq<nat>, result: seq<nat>,
                          role: Role): nat
    requires op.Readable(shape, indices, resultShape, result) && RoleValid(op, shape, indices.shape, role)
  {
    op.Reads(shape, indices, resultShape, result);
    op.IndexDimsAre(|indices.shape|);
    match role
    case OfOperand(d) => op.SlicePosition(shape, indices, resultShape, result, d)
    case OfIndex(d) => op.BatchIndex(result)[op.AfterVector(d)]
  }

  /// The role of result dimension `pos`.
  ghost function RoleOf(op: GatherOp, shape: seq<nat>, indexShape: seq<nat>, resultShape: seq<nat>,
                        pos: nat): (role: Role)
    requires op.Constraints(shape, indexShape) && op.HasResultShape(shape, indexShape, resultShape)
      && pos < |resultShape|
  {
    var j := Find(op.offsetDims, pos);
    if j < |op.offsetDims| then OfOperand(op.OffsetOperandDims(|shape|)[j])
    else
      assert Range(|resultShape|)[pos] == pos;
      var d := op.IndexDims(|indexShape|)[Find(op.BatchPositions(|resultShape|), pos)];
      var x := Find(op.startIndicesBatchingDims, d);
      if x < |op.startIndicesBatchingDims| then OfOperand(op.operandBatchingDims[x]) else OfIndex(d)
  }

  /// A result dimension ranges over its role's extent.
  lemma RoleExtents(op: GatherOp, shape: seq<nat>, indexShape: seq<nat>, resultShape: seq<nat>, pos: nat)
    requires op.Constraints(shape, indexShape) && op.HasResultShape(shape, indexShape, resultShape)
      && pos < |resultShape|
    ensures RoleValid(op, shape, indexShape, RoleOf(op, shape, indexShape, resultShape, pos))
    ensures ExtentFor(op, shape, indexShape, RoleOf(op, shape, indexShape, resultShape, pos)) == resultShape[pos]
  {
    hide Filter;
    var j := Find(op.offsetDims, pos);
    if j < |op.offsetDims| {
      assert op.OffsetOperandDims(|shape|)[j] in op.OffsetOperandDims(|shape|);
    } else {
      assert Range(|resultShape|)[pos] == pos;
      var q := Find(op.BatchPositions(|resultShape|), pos);
      assert op.IndexDims(|indexShape|)[q] in op.IndexDims(|indexShape|);
    }
  }

  /// The result index along a dimension is the value its role takes.
  lemma RoleValues(op: GatherOp, shape: seq<nat>, indices: Tensor<int>, resultShape: seq<nat>, result: seq<nat>,
                   pos: nat)
    requires op.Readable(shape, indices, resultShape, result) && pos < |resultShape|
    ensures RoleValid(op, shape, indices.shape, RoleOf(op, shape, indices.shape, resultShape, pos))
    ensures ValueFor(op, shape, indices, resultShape, result, RoleOf(op, shape, indices.shape, resultShape, pos))
      == result[pos]
  {
    hide Filter, Product;
    op.Reads(shape, indices, resultShape, result);
    op.IndexDimsAre(|indices.shape|);
    RoleExtents(op, shape, indices.shape, resultShape, pos);
    var offsets, batches := op.OffsetOperandDims(|shape|), op.BatchPositions(|resultShape|);
    DistinctApart(op.collapsedDims, op.operandBatchingDims);
    var j := Find(op.offsetDims, pos);
    if j < |op.offsetDims| {
      assert offsets[j] in offsets;
      FilterDistinct(Range(|shape|), (d: nat) => d !in op.collapsedDims && d !in op.operandBatchingDims);
      FindAt(offsets, j);
    } else {
      assert Range(|resultShape|)[pos] == pos;
      var q := Find(batches, pos);
      var d := op.IndexDims(|indices.shape|)[q];
      assert d in op.IndexDims(|indices.shape|);
      FilterDistinct(Range(|indices.shape|), (d: nat) => d != op.indexVectorDim);
      FindAt(op.IndexDims(|indices.shape|), q);
      FindAt(op.IndexDims(|indices.shape|), op.AfterVector(d));
      var x := Find(op.startIndicesBatchingDims, d);
      if x < |op.startIndicesBatchingDims| {
        FindAt(op.operandBatchingDims, x);
        assert op.operandBatchingDims[x] !in offsets;
      }
    }
  }

  /// No two result dimensions have the same role.
  lemma RolesDistinct(op: GatherOp, shape: seq<nat>, indexShape: seq<nat>, resultShape: seq<nat>, a: nat, b: nat)
    requires op.Constraints(shape, indexShape) && op.HasResultShape(shape, indexShape, resultShape)
    requires a < |resultShape| && b < |resultShape|
    requires RoleOf(op, shape, indexShape, resultShape, a) == RoleOf(op, shape, indexShape, resultShape, b)
    ensures a == b
  {
    hide Filter;
    var offsets := op.OffsetOperandDims(|shape|);
    FilterDistinct(Range(|shape|), (d: nat) => d !in op.collapsedDims && d !in op.operandBatchingDims);
    var i, j := Find(op.offsetDims, a), Find(op.offsetDims, b);
    if i < |op.offsetDims| { assert offsets[i] in offsets; FindAt(offsets, i); }
    if j < |op.offsetDims| { assert offsets[j] in offsets; FindAt(offsets, j); }
    if i == |op.offsetDims| && j == |op.offsetDims| {
      BatchRolesDistinct(op, shape, indexShape, resultShape, a, b);
    }
  }

  lemma BatchRolesDistinct(op: GatherOp, shape: seq<nat>, indexShape: seq<nat>, resultShape: seq<nat>, a: nat, b: nat)
    requires op.Constraints(shape, indexShape) && op.HasResultShape(shape, indexShape, resultShape)
    requires a < |resultShape| && b < |resultShape| && a !in op.offsetDims && b !in op.offsetDims
    requires RoleOf(op, shape, indexShape, resultShape, a) == RoleOf(op, shape, indexShape, resultShape, b)
    ensures a == b
  {
    hide Filter, GatherOp.OffsetOperandDims;
    var batches, dims := op.BatchPositions(|resultShape|), op.IndexDims(|indexShape|);
    FilterDistinct(Range(|indexShape|), (d: nat) => d != op.indexVectorDim);
    DistinctApart(op.collapsedDims, op.operandBatchingDims);
    assert Range(|resultShape|)[a] == a && Range(|resultShape|)[b] == b;
    var p, q := Find(batches, a), Find(batches, b);
    FindAt(dims, p);
    FindAt(dims, q);
    var x, y := Find(op.startIndicesBatchingDims, dims[p]), Find(op.startIndicesBatchingDims, dims[q]);
    if x < |op.startIndicesBatchingDims| && y < |op.startIndicesBatchingDims| {
      FindAt(op.operandBatchingDims, x);
      FindAt(op.operandBatchingDims, y);
    }
  }

  // ---- the moved rows, one dimension at a time ----

  /// The entries of xs whose flag is set.
  function Kept<A>(xs: seq<A>, flags: seq<bool>): (r: seq<A>)
    requires |xs| == |flags|
    ensures |r| <= |xs|
  {
    if xs == [] then []
    else Kept(xs[..|xs| - 1], flags[..|xs| - 1]) + (if flags[|xs| - 1] then [xs[|xs| - 1]] else [])
  }

  /// How many of the first k entries are kept.
  function KeptBefore<A>(xs: seq<A>, flags: seq<bool>, k: nat): nat
    requires k <= |xs| == |flags|
  {
    |Kept(xs[..k], flags[..k])|
  }

  lemma KeptStep<A>(xs: seq<A>, flags: seq<bool>, k: nat)
    requires k < |xs| == |flags|
    ensures Kept(xs[..k + 1], flags[..k + 1]) == Kept(xs[..k], flags[..k]) + (if flags[k] then [xs[k]] else [])
  {
    assert xs[..k + 1][..k] == xs[..k] && flags[..k + 1][..k] == flags[..k];
  }

  /// Flags that say what a filter keeps.
  lemma {:induction false} KeptIsFilter(dims: seq<nat>, flags: seq<bool>, keep: nat -> bool)
    requires |dims| == |flags| && forall i :: 0 <= i < |dims| ==> flags[i] == keep(dims[i])
    ensures Kept(dims, flags) == Filter(dims, keep)
  {
    if dims != [] {
      var n := |dims| - 1;
      KeptIsFilter(dims[..n], flags[..n], keep);
      assert dims == dims[..n] + [dims[n]];
      FilterConcat(dims[..n], [dims[n]], keep);
      FilterOne(dims[n], keep);
    }
  }

  lemma FilterOne(d: nat, keep: nat -> bool)
    ensures Filter([d], keep) == if keep(d) then [d] else []
  {
    assert [d][1..] == [];
  }

  lemma {:induction false} KeptSelect<A>(xs: seq<A>, dims: seq<nat>, flags: seq<bool>)
    requires |dims| == |flags| && Names(dims, |xs|)
    ensures Names(Kept(dims, flags), |xs|) && Kept(Select(xs, dims), flags) == Select(xs, Kept(dims, flags))
  {
    if dims != [] {
      var n := |dims| - 1;
      KeptSelect(xs, dims[..n], flags[..n]);
      assert Select(xs, dims)[..n] == Select(xs, dims[..n]);
      var last := if flags[n] then [dims[n]] else [];
      SelectConcat(xs, Kept(dims[..n], flags[..n]), last);
    }
  }

  /// The places of the moved rows' dimensions, by region; a window that is not
  /// in the result has none.
  datatype ResultDims = ResultDims(batch: seq<nat>, other: seq<nat>, window: seq<int>, row: seq<nat>, shape: seq<nat>)

  ghost predicate Enumerates(c: Canonical, lo: nat, hi: nat, layout: IndexLayout, indexShape: seq<nat>,
                             flags: seq<bool>, r: ResultDims) {
    && lo <= hi <= |c.dims| && |flags| == |c.windows| && Names(layout.otherDims, |indexShape|)
    && r.batch == Interval(0, lo) && r.other == Interval(lo, lo + |layout.otherDims|)
    && |r.window| == |flags|
    && (forall k :: 0 <= k < |flags| ==> r.window[k] == WindowPlace(c, lo, layout, flags, k))
    && r.row == Interval(RowsFrom(c, lo, layout, flags), RowsFrom(c, lo, layout, flags) + (|c.dims| - hi))
    && r.shape == Sizes(c.dims[..lo]) + (Select(indexShape, layout.otherDims)
       + (Kept(c.windows, flags) + Sizes(c.dims[hi..])))
  }

  function WindowPlace(c: Canonical, lo: nat, layout: IndexLayout, flags: seq<bool>, k: nat): int
    requires k < |flags| == |c.windows|
  {
    if flags[k] then lo + |layout.otherDims| + KeptBefore(c.windows, flags, k) else -1
  }

  /// The place of the first row dimension.
  function RowsFrom(c: Canonical, lo: nat, layout: IndexLayout, flags: seq<bool>): nat
    requires |flags| == |c.windows|
  {
    lo + |layout.otherDims| + |Kept(c.windows, flags)|
  }

  lemma NextPlace(from: nat, n: nat)
    ensures Interval(from, from) == [] && Interval(from, from + (n + 1)) == Interval(from, from + n) + [from + n]
  {}

  lemma NextSize(dims: seq<OperandDim>, from: nat, n: nat)
    requires from + n < |dims|
    ensures Sizes(dims[from..from]) == []
    ensures Sizes(dims[from..from + (n + 1)]) == Sizes(dims[from..from + n]) + [dims[from + n].size]
  {}

  lemma NextSelected(shape: seq<nat>, dims: seq<nat>, n: nat)
    requires n < |dims| && Names(dims, |shape|)
    ensures Select(shape, dims[..0]) == []
    ensures Select(shape, dims[..n + 1]) == Select(shape, dims[..n]) + [shape[dims[n]]]
  {}

  /// One dimension per operand dimension in [from, from + |dims|).
  method OperandPlaces(c: Canonical, dims: seq<nat>, ghost from: nat, before: seq<nat>)
    returns (places: seq<nat>, shape: seq<nat>)
    requires from + |dims| <= |c.dims| && dims == Interval(from, from + |dims|)
    ensures places == Interval(|before|, |before| + |dims|)
    ensures shape == before + Sizes(c.dims[from..from + |dims|])
  {
    hide Interval, Sizes;
    assert forall i :: 0 <= i < |dims| ==> dims[i] == from + i;
    places, shape := [], before;
    NextPlace(|before|, 0);
    assert Sizes(c.dims[from..from]) == [];
    var i := 0;
    while i < |dims|
      invariant 0 <= i <= |dims| && places == Interval(|before|, |before| + i)
      invariant shape == before + Sizes(c.dims[from..from + i])
    {
      NextPlace(|before|, i);
      NextSize(c.dims, from, i);
      places, shape := places + [|shape|], shape + [c.dims[dims[i]].size];
      i := i + 1;
    }
  }

  method IndexPlaces(indexShape: seq<nat>, dims: seq<nat>, before: seq<nat>) returns (places: seq<nat>, shape: seq<nat>)
    requires Names(dims, |indexShape|)
    ensures places == Interval(|before|, |before| + |dims|) && shape == before + Select(indexShape, dims)
  {
    hide Interval;
    places, shape := [], before;
    NextPlace(|before|, 0);
    var i := 0;
    while i < |dims|
      invariant 0 <= i <= |dims| && places == Interval(|before|, |before| + i)
      invariant shape == before + Select(indexShape, dims[..i])
    {
      NextPlace(|before|, i);
      NextSelected(indexShape, dims, i);
      places, shape := places + [|shape|], shape + [indexShape[dims[i]]];
      i := i + 1;
    }
    assert dims[..|dims|] == dims;
  }

  method WindowPlaces(windows: seq<nat>, flags: seq<bool>, before: seq<nat>) returns (places: seq<int>, shape: seq<nat>)
    requires |windows| == |flags|
    ensures |places| == |windows| && shape == before + Kept(windows, flags)
    ensures forall k :: 0 <= k < |places| ==> places[k] == if flags[k] then |before| + KeptBefore(windows, flags, k)
      else -1
  {
    hide Kept;
    places, shape := [], before;
    assert Kept(windows[..0], flags[..0]) == [];
    var i := 0;
    while i < |windows|
      invariant 0 <= i <= |windows| && |places| == i && shape == before + Kept(windows[..i], flags[..i])
      invariant forall k :: 0 <= k < i ==> places[k] == if flags[k] then |before| + KeptBefore(windows, flags, k)
        else -1
    {
      KeptStep(windows, flags, i);
      if flags[i] {
        places, shape := places + [|shape|], shape + [windows[i]];
      } else {
        places := places + [-1];
      }
      i := i + 1;
    }
    assert windows[..|windows|] == windows && flags[..|flags|] == flags;
  }

  method EnumerateResultDims(c: Canonical, ghost lo: nat, ghost hi: nat, layout: IndexLayout, indexShape: seq<nat>,
                             flags: seq<bool>)
    returns (r: ResultDims)
    requires lo <= hi <= |c.dims| && c.batchDims == Interval(0, lo) && c.rowDims == Interval(hi, |c.dims|)
    requires |flags| == |c.windows| && Names(layout.otherDims, |indexShape|)
    ensures Enumerates(c, lo, hi, layout, indexShape, flags, r)
  {
    hide Interval, Sizes, Select, Kept;
    var batch, first := OperandPlaces(c, c.batchDims, 0, []);
    var other, second := IndexPlaces(indexShape, layout.otherDims, first);
    var window, third := WindowPlaces(c.windows, flags, second);
    var row, shape := OperandPlaces(c, c.rowDims, hi, third);
    assert c.dims[0..lo] == c.dims[..lo] && c.dims[hi..hi + |c.rowDims|] == c.dims[hi..];
    r := ResultDims(batch, other, window, row, shape);
    Reassociate(Sizes(c.dims[..lo]), Select(indexShape, layout.otherDims), Kept(c.windows, flags), Sizes(c.dims[hi..]));
  }

  lemma Reassociate<A>(a: seq<A>, b: seq<A>, c: seq<A>, d: seq<A>)
    ensures [] + a == a && ((a + b) + c) + d == a + (b + (c + d))
  {
    assert (a + b) + c == a + (b + c);
    assert (a + (b + c)) + d == a + ((b + c) + d);
    assert (b + c) + d == b + (c + d);
  }

  // ---- where operand dimensions landed ----

  /// Whether each component's window is in the result.
  ghost predicate Flags(op: GatherOp, perm: seq<nat>, lo: nat, hi: nat, flags: seq<bool>) {
    && lo <= hi <= |perm|
    && (lo < hi ==> |flags| == hi - lo && forall k :: 0 <= k < hi - lo ==> flags[k] == NotCollapsed(op)(perm[lo + k]))
    && (lo == hi ==> flags == [false])
  }

  method ComponentsInResult(op: GatherOp, c: Canonical, ghost lo: nat, ghost hi: nat) returns (flags: seq<bool>)
    requires lo <= hi <= |c.permutation| && c.componentDims == Interval(lo, hi)
    ensures Flags(op, c.permutation, lo, hi, flags)
  {
    flags := [];
    var i := 0;
    while i < |c.componentDims|
      invariant 0 <= i <= |c.componentDims| && |flags| == i
      invariant forall k :: 0 <= k < i ==> flags[k] == NotCollapsed(op)(c.permutation[lo + k])
    {
      flags := flags + [c.permutation[c.componentDims[i]] !in op.collapsedDims];
      i := i + 1;
    }
    if c.componentDims == [] { flags := [false]; }
  }

  /// The place of an operand dimension among the moved rows'.
  function ResultDimOf(c: Canonical, r: ResultDims, original: nat): int
    requires |r.batch| == |c.batchDims| && |c.componentDims| <= |r.window| && |r.row| == |c.rowDims|
    requires Find(c.permutation, original) in c.batchDims + c.componentDims + c.rowDims
  {
    var p := Find(c.permutation, original);
    var b, k := Find(c.batchDims, p), Find(c.componentDims, p);
    if b < |c.batchDims| then r.batch[b]
    else if k < |c.componentDims| then r.window[k]
    else r.row[Find(c.rowDims, p)]
  }

  ghost predicate Located(c: Canonical, lo: nat, hi: nat) {
    && IsPermutation(c.permutation) && |c.permutation| == |c.dims| && lo <= hi <= |c.dims|
    && c.batchDims == Interval(0, lo) && c.componentDims == Interval(lo, hi) && c.rowDims == Interval(hi, |c.dims|)
    && |c.windows| == if lo < hi then hi - lo else 1
  }

  lemma FindInterval(lo: nat, hi: nat, p: nat)
    requires lo <= hi
    ensures Find(Interval(lo, hi), p) == if lo <= p < hi then p - lo else hi - lo
  {
    if lo <= p < hi {
      assert Interval(lo, hi)[p - lo] == p;
      FindAt(Interval(lo, hi), p - lo);
    }
  }

  /// How many window dimensions the result keeps.
  function WindowCount(op: GatherOp, perm: seq<nat>, lo: nat, hi: nat): nat
    requires lo <= hi <= |perm|
  {
    |Filter(perm[lo..hi], NotCollapsed(op))|
  }

  /// The enumeration's entries, region by region.
  lemma EnumeratedBatch(op: GatherOp, perm: seq<nat>, lo: nat, hi: nat, otherDims: seq<nat>, p: nat)
    requires p < lo <= hi <= |perm|
    ensures p < |Enumerated(op, perm, lo, hi, otherDims)|
      && Enumerated(op, perm, lo, hi, otherDims)[p] == OfOperand(perm[p])
  {
    hide Filter;
  }

  lemma EnumeratedIndex(op: GatherOp, perm: seq<nat>, lo: nat, hi: nat, otherDims: seq<nat>, q: nat)
    requires lo <= hi <= |perm| && q < |otherDims|
    ensures lo + q < |Enumerated(op, perm, lo, hi, otherDims)|
    ensures Enumerated(op, perm, lo, hi, otherDims)[lo + q] == OfIndex(otherDims[q])
  {
    hide Filter;
  }

  lemma EnumeratedWindow(op: GatherOp, perm: seq<nat>, lo: nat, hi: nat, otherDims: seq<nat>, i: nat)
    requires lo <= hi <= |perm| && i < WindowCount(op, perm, lo, hi)
    ensures lo + |otherDims| + i < |Enumerated(op, perm, lo, hi, otherDims)|
    ensures Enumerated(op, perm, lo, hi, otherDims)[lo + |otherDims| + i]
      == OfOperand(Filter(perm[lo..hi], NotCollapsed(op))[i])
  {
    hide Filter;
  }

  lemma EnumeratedRow(op: GatherOp, perm: seq<nat>, lo: nat, hi: nat, otherDims: seq<nat>, x: nat)
    requires lo <= hi <= hi + x < |perm|
    ensures lo + |otherDims| + WindowCount(op, perm, lo, hi) + x < |Enumerated(op, perm, lo, hi, otherDims)|
    ensures Enumerated(op, perm, lo, hi, otherDims)[lo + |otherDims| + WindowCount(op, perm, lo, hi) + x]
      == OfOperand(perm[hi + x])
  {
    hide Filter;
  }

  /// Kept windows are the component dimensions that are not collapsed.
  lemma KeptCount(op: GatherOp, c: Canonical, lo: nat, hi: nat, flags: seq<bool>)
    requires Located(c, lo, hi) && Flags(op, c.permutation, lo, hi, flags)
    ensures |Kept(c.windows, flags)| == WindowCount(op, c.permutation, lo, hi)
  {
    hide Filter, Kept, IsPermutation;
    var part := c.permutation[lo..hi];
    if lo < hi {
      KeptIsFilter(part, flags, NotCollapsed(op));
      SameCount(part, c.windows, flags);
    } else {
      assert part == [];
      FilterNone([], NotCollapsed(op));
      NothingKept(c.windows, flags);
    }
  }

  lemma KeptWindow(op: GatherOp, c: Canonical, lo: nat, hi: nat, flags: seq<bool>, k: nat)
    requires Located(c, lo, hi) && Flags(op, c.permutation, lo, hi, flags) && k < hi - lo && flags[k]
    ensures KeptBefore(c.windows, flags, k) < WindowCount(op, c.permutation, lo, hi)
    ensures Filter(c.permutation[lo..hi], NotCollapsed(op))[KeptBefore(c.windows, flags, k)] == c.permutation[lo + k]
  {
    hide Filter, Kept, KeptBefore, IsPermutation;
    KeptIsFilter(c.permutation[lo..hi], flags, NotCollapsed(op));
    KeptPlace(c.permutation[lo..hi], c.windows, flags, k);
  }

  lemma InRegions(c: Canonical, lo: nat, hi: nat, original: nat)
    requires Located(c, lo, hi) && original < |c.dims|
    ensures Find(c.permutation, original) < |c.dims|
    ensures Find(c.permutation, original) in c.batchDims + c.componentDims + c.rowDims
    ensures Find(c.batchDims, Find(c.permutation, original)) ==
      if Find(c.permutation, original) < lo then Find(c.permutation, original) else lo
    ensures Find(c.componentDims, Find(c.permutation, original)) ==
      if lo <= Find(c.permutation, original) < hi then Find(c.permutation, original) - lo else hi - lo
    ensures hi <= Find(c.permutation, original) ==>
      Find(c.rowDims, Find(c.permutation, original)) == Find(c.permutation, original) - hi
  {
    hide Interval;
    var p := Find(c.permutation, original);
    assert original in c.permutation;
    FindInterval(0, lo, p);
    FindInterval(lo, hi, p);
    FindInterval(hi, |c.dims|, p);
    assert p in c.batchDims || p in c.componentDims || p in c.rowDims;
  }

  /// The place of permuted operand dimension p, by region.
  function PlaceOf(c: Canonical, lo: nat, hi: nat, layout: IndexLayout, flags: seq<bool>, p: nat): int
    requires |flags| == |c.windows| && (lo <= p < hi ==> p - lo < |flags|)
  {
    if p < lo then p
    else if p < hi then WindowPlace(c, lo, layout, flags, p - lo)
    else RowsFrom(c, lo, layout, flags) + (p - hi)
  }

  lemma LandingPlace(c: Canonical, lo: nat, hi: nat, layout: IndexLayout, indexShape: seq<nat>, flags: seq<bool>,
                     r: ResultDims, original: nat)
    requires Located(c, lo, hi) && |flags| == |c.windows| && Enumerates(c, lo, hi, layout, indexShape, flags, r)
    requires original < |c.dims|
    ensures Find(c.permutation, original) < |c.dims|
    ensures Find(c.permutation, original) in c.batchDims + c.componentDims + c.rowDims
    ensures |r.batch| == |c.batchDims| && |c.componentDims| <= |r.window| && |r.row| == |c.rowDims|
    ensures ResultDimOf(c, r, original) == PlaceOf(c, lo, hi, layout, flags, Find(c.permutation, original))
  {
    hide Filter, Kept, IsPermutation, WindowPlace, RowsFrom, Sizes, WindowCount, KeptBefore, Interval;
    InRegions(c, lo, hi, original);
  }

  /// That place has the operand dimension's role.
  lemma RoleAtPlace(op: GatherOp, c: Canonical, lo: nat, hi: nat, layout: IndexLayout, flags: seq<bool>, p: nat)
    requires Located(c, lo, hi) && Flags(op, c.permutation, lo, hi, flags) && p < |c.permutation|
      && |flags| == |c.windows|
    ensures lo <= p < hi && c.permutation[p] in op.collapsedDims ==> PlaceOf(c, lo, hi, layout, flags, p) == -1
    ensures !(lo <= p < hi && c.permutation[p] in op.collapsedDims) ==>
      && 0 <= PlaceOf(c, lo, hi, layout, flags, p) < |Enumerated(op, c.permutation, lo, hi, layout.otherDims)|
      && Enumerated(op, c.permutation, lo, hi, layout.otherDims)[PlaceOf(c, lo, hi, layout, flags, p)]
         == OfOperand(c.permutation[p])
  {
    hide Filter, Kept, KeptBefore, Enumerated, IsPermutation, Interval, WindowCount;
    if p < lo {
      EnumeratedBatch(op, c.permutation, lo, hi, layout.otherDims, p);
    } else if p < hi {
      var k := p - lo;
      assert flags[k] == NotCollapsed(op)(c.permutation[lo + k]);
      if flags[k] {
        KeptWindow(op, c, lo, hi, flags, k);
        EnumeratedWindow(op, c.permutation, lo, hi, layout.otherDims, KeptBefore(c.windows, flags, k));
      }
    } else {
      KeptCount(op, c, lo, hi, flags);
      EnumeratedRow(op, c.permutation, lo, hi, layout.otherDims, p - hi);
    }
  }

  /// Operand dimensions land on places of their role.
  lemma Landing(op: GatherOp, c: Canonical, lo: nat, hi: nat, layout: IndexLayout, indexShape: seq<nat>,
                flags: seq<bool>, r: ResultDims, original: nat)
    requires Located(c, lo, hi) && Flags(op, c.permutation, lo, hi, flags)
      && Enumerates(c, lo, hi, layout, indexShape, flags, r)
    requires original < |c.dims|
    ensures Find(c.permutation, original) < |c.dims|
    ensures Find(c.permutation, original) in c.batchDims + c.componentDims + c.rowDims
    ensures |r.batch| == |c.batchDims| && |c.componentDims| <= |r.window| && |r.row| == |c.rowDims|
    ensures lo <= Find(c.permutation, original) < hi && original in op.collapsedDims ==>
      ResultDimOf(c, r, original) == -1
    ensures !(lo <= Find(c.permutation, original) < hi && original in op.collapsedDims) ==>
      && 0 <= ResultDimOf(c, r, original) < |Enumerated(op, c.permutation, lo, hi, layout.otherDims)|
      && Enumerated(op, c.permutation, lo, hi, layout.otherDims)[ResultDimOf(c, r, original)] == OfOperand(original)
  {
    hide Enumerated, ResultDimOf, PlaceOf, Find, IsPermutation, Interval, Sizes, Kept, Flags, NotCollapsed;
    LandingPlace(c, lo, hi, layout, indexShape, flags, r, original);
    RoleAtPlace(op, c, lo, hi, layout, flags, Find(c.permutation, original));
  }

  lemma NothingKept(xs: seq<nat>, flags: seq<bool>)
    requires |xs| == 1 && flags == [false]
    ensures Kept(xs, flags) == []
  {}

  lemma {:induction false} SameCount(a: seq<nat>, b: seq<nat>, flags: seq<bool>)
    requires |a| == |b| == |flags|
    ensures |Kept(a, flags)| == |Kept(b, flags)|
  {
    if a != [] { SameCount(a[..|a| - 1], b[..|a| - 1], flags[..|a| - 1]); }
  }

  /// A kept entry's place.
  lemma {:induction false} KeptPlace(a: seq<nat>, b: seq<nat>, flags: seq<bool>, k: nat)
    requires |a| == |b| == |flags| && k < |a| && flags[k]
    ensures KeptBefore(b, flags, k) < |Kept(a, flags)| && Kept(a, flags)[KeptBefore(b, flags, k)] == a[k]
  {
    var n := |a| - 1;
    if k < n {
      KeptPlace(a[..n], b[..n], flags[..n], k);
      assert b[..n][..k] == b[..k] && flags[..n][..k] == flags[..k];
    } else {
      SameCount(a[..n], b[..n], flags[..n]);
    }
  }

  // ---- the result's permutation ----

  /// What the permutation is computed from.
  ghost predicate Placing(op: GatherOp, shape: seq<nat>, indexShape: seq<nat>, resultShape: seq<nat>,
                          c: Canonical, lo: nat, hi: nat, layout: IndexLayout, flags: seq<bool>, r: ResultDims) {
    && op.Constraints(shape, indexShape) && op.HasResultShape(shape, indexShape, resultShape)
    && Located(c, lo, hi) && |c.dims| == |shape| && Flags(op, c.permutation, lo, hi, flags)
    && Enumerates(c, lo, hi, layout, indexShape, flags, r)
    && layout.vectorDim == op.indexVectorDim && layout.Valid(|indexShape|)
    && (forall d :: d in layout.batchDims <==> d in op.startIndicesBatchingDims)
    && (forall i :: 0 <= i < |op.operandBatchingDims| ==> !(lo <= Find(c.permutation, op.operandBatchingDims[i]) < hi))
  }

  ghost predicate HasRole(op: GatherOp, shape: seq<nat>, indexShape: seq<nat>, resultShape: seq<nat>,
                          c: Canonical, lo: nat, hi: nat, layout: IndexLayout, pos: nat, place: int)
    requires op.Constraints(shape, indexShape) && op.HasResultShape(shape, indexShape, resultShape)
      && pos < |resultShape|
    requires lo <= hi <= |c.permutation|
  {
    && 0 <= place < |Enumerated(op, c.permutation, lo, hi, layout.otherDims)|
    && Enumerated(op, c.permutation, lo, hi, layout.otherDims)[place] == RoleOf(op, shape, indexShape, resultShape, pos)
  }

  method OperandOffsetDims(op: GatherOp, rank: nat) returns (dims: seq<nat>)
    ensures dims == op.OffsetOperandDims(rank)
  {
    hide Filter, Range;
    ghost var keep := (d: nat) => d !in op.collapsedDims && d !in op.operandBatchingDims;
    dims := [];
    EmptyFilter(keep);
    assert dims == op.OffsetOperandDims(0);
    var d := 0;
    while d < rank
      invariant 0 <= d <= rank && dims == op.OffsetOperandDims(d)
    {
      OffsetStep(op, d);
      if d !in op.collapsedDims && d !in op.operandBatchingDims { dims := dims + [d]; }
      d := d + 1;
    }
  }

  lemma OffsetStep(op: GatherOp, d: nat)
    ensures op.OffsetOperandDims(d + 1)
         == op.OffsetOperandDims(d) + (if d !in op.collapsedDims && d !in op.operandBatchingDims then [d] else [])
  {
    hide Filter, Range;
    FilterStep(d, (d: nat) => d !in op.collapsedDims && d !in op.operandBatchingDims);
  }

  method IndexDimsOf(op: GatherOp, rank: nat) returns (dims: seq<nat>)
    ensures dims == op.IndexDims(rank)
  {
    hide Filter, Range;
    dims := [];
    EmptyFilter((d: nat) => d != op.indexVectorDim);
    assert dims == op.IndexDims(0);
    var d := 0;
    while d < rank
      invariant 0 <= d <= rank && dims == op.IndexDims(d)
    {
      IndexStep(op, d);
      if d != op.indexVectorDim { dims := dims + [d]; }
      d := d + 1;
    }
  }

  lemma IndexStep(op: GatherOp, d: nat)
    ensures op.IndexDims(d + 1) == op.IndexDims(d) + (if d != op.indexVectorDim then [d] else [])
  {
    hide Filter, Range;
    FilterStep(d, (d: nat) => d != op.indexVectorDim);
  }

  /// A kept dimension's place in the filter of a range.
  lemma {:induction false} FilterPlace(n: nat, x: nat, keep: nat -> bool)
    requires x < n && keep(x)
    ensures |Filter(Range(x), keep)| < |Filter(Range(n), keep)| && Filter(Range(n), keep)[|Filter(Range(x), keep)|] == x
  {
    hide Filter, Range;
    FilterStep(n - 1, keep);
    if x < n - 1 { FilterPlace(n - 1, x, keep); }
  }

  /// Batch positions before `pos`.
  ghost function PositionsBefore(op: GatherOp, pos: nat): nat {
    |op.BatchPositions(pos)|
  }

  lemma BatchPlace(op: GatherOp, rank: nat, pos: nat)
    requires pos < rank && pos !in op.offsetDims
    ensures PositionsBefore(op, pos) < |op.BatchPositions(rank)|
      && op.BatchPositions(rank)[PositionsBefore(op, pos)] == pos
    ensures Find(op.BatchPositions(rank), pos) == PositionsBefore(op, pos)
  {
    hide Filter, Range;
    var keep := (d: nat) => d !in op.offsetDims;
    FilterPlace(rank, pos, keep);
    FilterDistinct(Range(rank), keep);
    FindAt(op.BatchPositions(rank), PositionsBefore(op, pos));
  }

  lemma NextBatch(op: GatherOp, pos: nat)
    ensures PositionsBefore(op, 0) == 0
    ensures PositionsBefore(op, pos + 1) == PositionsBefore(op, pos) + (if pos !in op.offsetDims then 1 else 0)
  {
    hide Filter, Range;
    EmptyFilter((d: nat) => d !in op.offsetDims);
    FilterStep(pos, (d: nat) => d !in op.offsetDims);
  }

  /// Where an offset dimension's operand dimension landed.
  lemma OffsetPlaced(op: GatherOp, shape: seq<nat>, indexShape: seq<nat>, resultShape: seq<nat>,
                     c: Canonical, lo: nat, hi: nat, layout: IndexLayout, flags: seq<bool>, r: ResultDims, j: nat)
    requires Placing(op, shape, indexShape, resultShape, c, lo, hi, layout, flags, r) && j < |op.offsetDims|
    ensures op.OffsetOperandDims(|shape|)[j] < |shape| && op.offsetDims[j] < |resultShape|
    ensures |r.batch| == |c.batchDims| && |c.componentDims| <= |r.window| && |r.row| == |c.rowDims|
    ensures Find(c.permutation, op.OffsetOperandDims(|shape|)[j]) in c.batchDims + c.componentDims + c.rowDims
    ensures HasRole(op, shape, indexShape, resultShape, c, lo, hi, layout, op.offsetDims[j],
                    ResultDimOf(c, r, op.OffsetOperandDims(|shape|)[j]))
  {
    hide Filter, Enumerates, Flags, Located, ResultDimOf, Enumerated, GatherOp.BatchPositions, GatherOp.IndexDims,
         Find, IndexLayout.Valid;
    var d := op.OffsetOperandDims(|shape|)[j];
    assert d in op.OffsetOperandDims(|shape|);
    Landing(op, c, lo, hi, layout, indexShape, flags, r, d);
    FindAt(op.offsetDims, j);
  }

  /// Where an index dimension, or the operand batching dimension paired with it, landed.
  ghost function BatchDimPlace(op: GatherOp, c: Canonical, layout: IndexLayout, r: ResultDims, d: nat): int
    requires |r.batch| == |c.batchDims| && |c.componentDims| <= |r.window| && |r.row| == |c.rowDims|
    requires |op.startIndicesBatchingDims| == |op.operandBatchingDims| && |r.other| == |layout.otherDims|
    requires forall i :: 0 <= i < |op.operandBatchingDims| ==>
      Find(c.permutation, op.operandBatchingDims[i]) in c.batchDims + c.componentDims + c.rowDims
    requires d in op.startIndicesBatchingDims || d in layout.otherDims
  {
    var x := Find(op.startIndicesBatchingDims, d);
    if x < |op.startIndicesBatchingDims| then ResultDimOf(c, r, op.operandBatchingDims[x])
    else r.other[Find(layout.otherDims, d)]
  }

  lemma BatchingLanded(op: GatherOp, shape: seq<nat>, indexShape: seq<nat>, resultShape: seq<nat>,
                       c: Canonical, lo: nat, hi: nat, layout: IndexLayout, flags: seq<bool>, r: ResultDims)
    requires Placing(op, shape, indexShape, resultShape, c, lo, hi, layout, flags, r)
    ensures |r.batch| == |c.batchDims| && |c.componentDims| <= |r.window| && |r.row| == |c.rowDims|
      && |r.other| == |layout.otherDims|
    ensures |op.startIndicesBatchingDims| == |op.operandBatchingDims|
    ensures forall i :: 0 <= i < |op.operandBatchingDims| ==>
      Find(c.permutation, op.operandBatchingDims[i]) in c.batchDims + c.componentDims + c.rowDims
  {
    hide Filter, Flags, Find, Kept, IsPermutation, GatherOp.BatchPositions, GatherOp.IndexDims,
         GatherOp.OffsetOperandDims, Interval;
    forall i | 0 <= i < |op.operandBatchingDims|
      ensures Find(c.permutation, op.operandBatchingDims[i]) in c.batchDims + c.componentDims + c.rowDims
    {
      InRegions(c, lo, hi, op.operandBatchingDims[i]);
    }
  }

  lemma BatchPlaced(op: GatherOp, shape: seq<nat>, indexShape: seq<nat>, resultShape: seq<nat>,
                    c: Canonical, lo: nat, hi: nat, layout: IndexLayout, flags: seq<bool>, r: ResultDims, pos: nat)
    requires Placing(op, shape, indexShape, resultShape, c, lo, hi, layout, flags, r)
    requires pos < |resultShape| && pos !in op.offsetDims
    ensures PositionsBefore(op, pos) < |op.IndexDims(|indexShape|)|
    ensures |r.batch| == |c.batchDims| && |c.componentDims| <= |r.window| && |r.row| == |c.rowDims|
      && |r.other| == |layout.otherDims|
    ensures |op.startIndicesBatchingDims| == |op.operandBatchingDims|
    ensures forall i :: 0 <= i < |op.operandBatchingDims| ==>
      Find(c.permutation, op.operandBatchingDims[i]) in c.batchDims + c.componentDims + c.rowDims
    ensures op.IndexDims(|indexShape|)[PositionsBefore(op, pos)] in op.startIndicesBatchingDims
         || op.IndexDims(|indexShape|)[PositionsBefore(op, pos)] in layout.otherDims
    ensures HasRole(op, shape, indexShape, resultShape, c, lo, hi, layout, pos,
                    BatchDimPlace(op, c, layout, r, op.IndexDims(|indexShape|)[PositionsBefore(op, pos)]))
  {
    hide Filter, Enumerates, Flags, Located, ResultDimOf, Enumerated, GatherOp.BatchPositions,
         GatherOp.OffsetOperandDims, Find, PositionsBefore;
    BatchingLanded(op, shape, indexShape, resultShape, c, lo, hi, layout, flags, r);
    BatchPlace(op, |resultShape|, pos);
    var d := op.IndexDims(|indexShape|)[PositionsBefore(op, pos)];
    assert d in op.IndexDims(|indexShape|);
    assert Range(|indexShape|)[d] == d;
    var x := Find(op.startIndicesBatchingDims, d);
    if x < |op.startIndicesBatchingDims| {
      DistinctApart(op.collapsedDims, op.operandBatchingDims);
      Landing(op, c, lo, hi, layout, indexShape, flags, r, op.operandBatchingDims[x]);
    } else {
      assert d in layout.otherDims;
      OtherPlace(op, c, lo, hi, layout, indexShape, flags, r, d);
    }
  }

  lemma OtherPlace(op: GatherOp, c: Canonical, lo: nat, hi: nat, layout: IndexLayout, indexShape: seq<nat>,
                   flags: seq<bool>, r: ResultDims, d: nat)
    requires Located(c, lo, hi) && Enumerates(c, lo, hi, layout, indexShape, flags, r) && d in layout.otherDims
    ensures |r.other| == |layout.otherDims| && Find(layout.otherDims, d) < |layout.otherDims|
    ensures 0 <= r.other[Find(layout.otherDims, d)] < |Enumerated(op, c.permutation, lo, hi, layout.otherDims)|
    ensures Enumerated(op, c.permutation, lo, hi, layout.otherDims)[r.other[Find(layout.otherDims, d)]] == OfIndex(d)
  {
    hide Filter, Kept, Enumerated, IsPermutation, Find, WindowPlace, RowsFrom, Sizes;
    EnumeratedIndex(op, c.permutation, lo, hi, layout.otherDims, Find(layout.otherDims, d));
  }

  lemma PlacingExtents(op: GatherOp, shape: seq<nat>, indexShape: seq<nat>, resultShape: seq<nat>,
                       c: Canonical, lo: nat, hi: nat, layout: IndexLayout, flags: seq<bool>, r: ResultDims)
    requires Placing(op, shape, indexShape, resultShape, c, lo, hi, layout, flags, r)
    ensures |r.batch| == |c.batchDims| && |c.componentDims| <= |r.window| && |r.row| == |c.rowDims|
      && |r.other| == |layout.otherDims|
    ensures op.Constraints(shape, indexShape) && op.HasResultShape(shape, indexShape, resultShape)
      && lo <= hi <= |c.permutation|
    ensures |op.OffsetOperandDims(|shape|)| == |op.offsetDims|
      && |op.startIndicesBatchingDims| == |op.operandBatchingDims|
    ensures forall j :: 0 <= j < |op.offsetDims| ==> op.offsetDims[j] < |resultShape|
    ensures forall i, j :: 0 <= i < j < |op.offsetDims| ==> op.offsetDims[i] < op.offsetDims[j]
  {
    hide Filter, Kept, IsPermutation, Flags, Interval, GatherOp.IndexDims;
  }

  /// The permutation to the result: its dimension i is dimension permutation[i] of
  /// the moved rows.
  method FillPermutation(op: GatherOp, shape: seq<nat>, indexShape: seq<nat>, resultShape: seq<nat>,
                         c: Canonical, ghost lo: nat, ghost hi: nat, layout: IndexLayout, ghost flags: seq<bool>,
                           r: ResultDims)
    returns (accepted: bool, permutation: seq<int>)
    requires Placing(op, shape, indexShape, resultShape, c, lo, hi, layout, flags, r)
    ensures |permutation| == |resultShape| && accepted == (|r.shape| == |resultShape|)
    ensures op.Constraints(shape, indexShape) && op.HasResultShape(shape, indexShape, resultShape)
      && lo <= hi <= |c.permutation|
    ensures forall pos :: 0 <= pos < |permutation| ==>
      HasRole(op, shape, indexShape, resultShape, c, lo, hi, layout, pos, permutation[pos])
  {
    hide Placing, HasRole, GatherOp.Constraints, GatherOp.HasResultShape, GatherOp.OffsetOperandDims,
         GatherOp.IndexDims,
      ResultDimOf, Find, BatchDimPlace, PositionsBefore;
    PlacingExtents(op, shape, indexShape, resultShape, c, lo, hi, layout, flags, r);
    permutation := seq(|resultShape|, _ => -1);
    var operandOffsetDims := OperandOffsetDims(op, |shape|);
    var j := 0;
    while j < |op.offsetDims|
      invariant 0 <= j <= |op.offsetDims| && |permutation| == |resultShape|
      invariant forall i :: 0 <= i < j ==>
        HasRole(op, shape, indexShape, resultShape, c, lo, hi, layout, op.offsetDims[i], permutation[op.offsetDims[i]])
      invariant forall pos :: 0 <= pos < |permutation| && pos !in op.offsetDims ==> permutation[pos] == -1
    {
      OffsetPlaced(op, shape, indexShape, resultShape, c, lo, hi, layout, flags, r, j);
      permutation := permutation[op.offsetDims[j] := ResultDimOf(c, r, operandOffsetDims[j])];
      j := j + 1;
    }
    var indexDims := IndexDimsOf(op, |indexShape|);
    var next, position := 0, 0;
    NextBatch(op, 0);
    while position < |resultShape|
      invariant 0 <= position <= |resultShape| && |permutation| == |resultShape|
        && next == PositionsBefore(op, position)
      invariant forall pos :: 0 <= pos < |permutation| && (pos < position || pos in op.offsetDims) ==>
        HasRole(op, shape, indexShape, resultShape, c, lo, hi, layout, pos, permutation[pos])
      invariant forall pos :: position <= pos < |permutation| && pos !in op.offsetDims ==> permutation[pos] == -1
    {
      NextBatch(op, position);
      RolePlaces(op, shape, indexShape, resultShape, c, lo, hi, layout, position, permutation[position]);
      if permutation[position] < 0 {
        BatchPlaced(op, shape, indexShape, resultShape, c, lo, hi, layout, flags, r, position);
        var d := indexDims[next];
        next := next + 1;
        var x := Find(op.startIndicesBatchingDims, d);
        var place := if x < |op.startIndicesBatchingDims| then ResultDimOf(c, r, op.operandBatchingDims[x])
                     else r.other[Find(layout.otherDims, d)];
        PlaceIs(op, c, layout, r, d, place);
        permutation := permutation[position := place];
      }
      position := position + 1;
    }
    accepted := |r.shape| == |resultShape|;
  }

  lemma RolePlaces(op: GatherOp, shape: seq<nat>, indexShape: seq<nat>, resultShape: seq<nat>,
                   c: Canonical, lo: nat, hi: nat, layout: IndexLayout, pos: nat, place: int)
    requires op.Constraints(shape, indexShape) && op.HasResultShape(shape, indexShape, resultShape)
      && pos < |resultShape|
    requires lo <= hi <= |c.permutation|
    ensures HasRole(op, shape, indexShape, resultShape, c, lo, hi, layout, pos, place) ==> place >= 0
  {}

  lemma PlaceIs(op: GatherOp, c: Canonical, layout: IndexLayout, r: ResultDims, d: nat, place: int)
    requires |r.batch| == |c.batchDims| && |c.componentDims| <= |r.window| && |r.row| == |c.rowDims|
    requires |op.startIndicesBatchingDims| == |op.operandBatchingDims| && |r.other| == |layout.otherDims|
    requires forall i :: 0 <= i < |op.operandBatchingDims| ==>
      Find(c.permutation, op.operandBatchingDims[i]) in c.batchDims + c.componentDims + c.rowDims
    requires d in op.startIndicesBatchingDims || d in layout.otherDims
    requires place == if Find(op.startIndicesBatchingDims, d) < |op.startIndicesBatchingDims|
                      then ResultDimOf(c, r, op.operandBatchingDims[Find(op.startIndicesBatchingDims, d)])
                      else r.other[Find(layout.otherDims, d)]
    ensures place == BatchDimPlace(op, c, layout, r, d)
  {}

  // ---- the moved rows as a tensor ----

  /// The operand laid out for a gather the lowering accepts.
  ghost predicate Gathering(op: GatherOp, shape: seq<nat>, c: Canonical, lo: nat, hi: nat) {
    && |c.permutation| == |c.dims| == |shape| == |op.sliceSizes| && lo <= hi <= |shape| && IsPermutation(c.permutation)
    && (forall p :: 0 <= p < |shape| ==> c.permutation[p] < |shape| && c.dims[p] == DimOf(op, shape, c.permutation[p]))
    && (forall p :: 0 <= p < |shape| && NeedsComponent(c.dims[p]) ==> lo <= p < hi)
    && (forall p :: lo <= p < hi ==> c.dims[p].kind != Batch)
    && (forall p :: 0 <= p < |shape| && c.permutation[p] in op.collapsedDims ==> lo <= p < hi)
    && Laid(c, lo, hi)
  }

  ghost function SliceExtents(op: GatherOp, shape: seq<nat>): (v: seq<nat>)
    requires |shape| == |op.sliceSizes|
    ensures |v| == |shape| && forall d :: 0 <= d < |shape| ==> v[d] == op.SliceExtent(shape, d)
  {
    seq(|shape|, d requires 0 <= d < |shape| => op.SliceExtent(shape, d))
  }

  /// The place in its slice of the operand element that a result element is.
  ghost function SlicePositions(op: GatherOp, shape: seq<nat>, indices: Tensor<int>, resultShape: seq<nat>,
                                result: seq<nat>): (v: seq<nat>)
    requires op.Readable(shape, indices, resultShape, result)
    ensures |v| == |shape| && forall d :: 0 <= d < |shape| ==>
      v[d] == op.SlicePosition(shape, indices, resultShape, result, d)
  {
    seq(|shape|, d requires 0 <= d < |shape| => op.SlicePosition(shape, indices, resultShape, result, d))
  }

  lemma PositionsInSlices(op: GatherOp, shape: seq<nat>, indices: Tensor<int>, resultShape: seq<nat>, result: seq<nat>)
    requires op.Readable(shape, indices, resultShape, result) && |shape| == |op.sliceSizes|
    ensures InShape(SliceExtents(op, shape), SlicePositions(op, shape, indices, resultShape, result))
  {
    hide GatherOp.Readable, GatherOp.SlicePosition, GatherOp.SliceExtent;
    forall d: nat | d < |shape|
      ensures SlicePositions(op, shape, indices, resultShape, result)[d] < SliceExtents(op, shape)[d]
    {
      op.SlicePositionBound(shape, indices, resultShape, result, d);
    }
  }

  /// A region's dimensions range over the operand's extents, or the windows'.
  lemma RegionExtents(op: GatherOp, shape: seq<nat>, c: Canonical, lo: nat, hi: nat)
    requires Gathering(op, shape, c, lo, hi)
    ensures Names(c.permutation, |shape|)
    ensures Select(SliceExtents(op, shape), c.permutation[..lo]) == Sizes(c.dims[..lo])
    ensures Select(SliceExtents(op, shape), c.permutation[lo..hi]) == Windows(c.dims[lo..hi])
    ensures Select(SliceExtents(op, shape), c.permutation[hi..]) == Sizes(c.dims[hi..])
  {
    hide IsPermutation, Product, Columns, RowShape;
    forall p | 0 <= p < |shape|
      ensures op.SliceExtent(shape, c.permutation[p]) == if lo <= p < hi then c.dims[p].window else c.dims[p].size
    {
      assert c.dims[p] == DimOf(op, shape, c.permutation[p]);
      if !(lo <= p < hi) { assert !NeedsComponent(c.dims[p]); }
    }
  }

  /// The position's index dimensions, without the vector's.
  ghost function PositionIndex(op: GatherOp, batch: seq<nat>, dims: seq<nat>): (v: seq<nat>)
    requires forall i :: 0 <= i < |dims| ==> dims[i] != op.indexVectorDim && op.AfterVector(dims[i]) < |batch|
    ensures |v| == |dims| && forall i :: 0 <= i < |dims| ==> v[i] == batch[op.AfterVector(dims[i])]
  {
    seq(|dims|, i requires 0 <= i < |dims| => batch[op.AfterVector(dims[i])])
  }

  /// What the roles of the enumeration stand for.
  ghost predicate ValidRoles(op: GatherOp, shape: seq<nat>, indexShape: seq<nat>, roles: seq<Role>) {
    forall e :: 0 <= e < |roles| ==> RoleValid(op, shape, indexShape, roles[e])
  }

  ghost function ExtentsOf(op: GatherOp, shape: seq<nat>, indexShape: seq<nat>, roles: seq<Role>): (v: seq<nat>)
    requires ValidRoles(op, shape, indexShape, roles)
    ensures |v| == |roles|
  {
    seq(|roles|, e requires 0 <= e < |roles| => ExtentFor(op, shape, indexShape, roles[e]))
  }

  ghost function ValuesOf(op: GatherOp, shape: seq<nat>, indices: Tensor<int>, resultShape: seq<nat>, result: seq<nat>,
                          roles: seq<Role>): (v: seq<nat>)
    requires op.Readable(shape, indices, resultShape, result) && ValidRoles(op, shape, indices.shape, roles)
    ensures |v| == |roles|
  {
    seq(|roles|, e requires 0 <= e < |roles| => ValueFor(op, shape, indices, resultShape, result, roles[e]))
  }

  lemma OperandRoles(op: GatherOp, shape: seq<nat>, indices: Tensor<int>, resultShape: seq<nat>, result: seq<nat>,
                     dims: seq<nat>)
    requires op.Readable(shape, indices, resultShape, result) && Names(dims, |shape|) && |shape| == |op.sliceSizes|
    ensures ValidRoles(op, shape, indices.shape, Operands(dims))
    ensures ExtentsOf(op, shape, indices.shape, Operands(dims)) == Select(SliceExtents(op, shape), dims)
    ensures ValuesOf(op, shape, indices, resultShape, result, Operands(dims))
         == Select(SlicePositions(op, shape, indices, resultShape, result), dims)
  {
    hide GatherOp.Readable, GatherOp.SlicePosition, GatherOp.SliceExtent;
  }

  lemma IndexRoles(op: GatherOp, shape: seq<nat>, indices: Tensor<int>, resultShape: seq<nat>, result: seq<nat>,
                   dims: seq<nat>)
    requires op.Readable(shape, indices, resultShape, result) && Names(dims, |indices.shape|)
    requires forall i :: 0 <= i < |dims| ==> dims[i] != op.indexVectorDim
    ensures ValidRoles(op, shape, indices.shape, Indices(dims))
    ensures ExtentsOf(op, shape, indices.shape, Indices(dims)) == Select(indices.shape, dims)
    ensures Names(op.BatchPositions(|result|), |result|)
    ensures forall i :: 0 <= i < |dims| ==> op.AfterVector(dims[i]) < |op.BatchIndex(result)|
    ensures ValuesOf(op, shape, indices, resultShape, result, Indices(dims))
      == PositionIndex(op, op.BatchIndex(result), dims)
  {
    hide GatherOp.Readable, GatherOp.BatchPositions, GatherOp.IndexDims, GatherOp.Constraints;
    op.Reads(shape, indices, resultShape, result);
    op.IndexDimsAre(|indices.shape|);
  }

  lemma RolesConcat(op: GatherOp, shape: seq<nat>, indices: Tensor<int>, resultShape: seq<nat>, result: seq<nat>,
                    a: seq<Role>, b: seq<Role>)
    requires op.Readable(shape, indices, resultShape, result)
    requires ValidRoles(op, shape, indices.shape, a) && ValidRoles(op, shape, indices.shape, b)
    ensures ValidRoles(op, shape, indices.shape, a + b)
    ensures ExtentsOf(op, shape, indices.shape, a + b)
      == ExtentsOf(op, shape, indices.shape, a) + ExtentsOf(op, shape, indices.shape, b)
    ensures ValuesOf(op, shape, indices, resultShape, result, a + b)
         == ValuesOf(op, shape, indices, resultShape, result, a) + ValuesOf(op, shape, indices, resultShape, result, b)
  {
    hide GatherOp.Readable, ExtentFor, ValueFor, RoleValid;
    var ab := a + b;
    assert forall e :: 0 <= e < |a| ==> ab[e] == a[e];
    assert forall e :: |a| <= e < |ab| ==> ab[e] == b[e - |a|];
  }

  /// The enumeration's extents and values, region by region.
  lemma EnumeratedParts(op: GatherOp, shape: seq<nat>, indices: Tensor<int>, resultShape: seq<nat>, result: seq<nat>,
                        c: Canonical, lo: nat, hi: nat, layout: IndexLayout)
    requires op.Readable(shape, indices, resultShape, result) && Gathering(op, shape, c, lo, hi)
    requires layout.Valid(|indices.shape|) && layout.vectorDim == op.indexVectorDim
      && Names(layout.otherDims, |indices.shape|)
    ensures ValidRoles(op, shape, indices.shape, Enumerated(op, c.permutation, lo, hi, layout.otherDims))
    ensures Names(op.BatchPositions(|result|), |result|) && Names(c.permutation, |shape|)
    ensures Names(Filter(c.permutation[lo..hi], NotCollapsed(op)), |shape|)
    ensures forall i :: 0 <= i < |layout.otherDims| ==>
      layout.otherDims[i] != op.indexVectorDim && op.AfterVector(layout.otherDims[i]) < |op.BatchIndex(result)|
    ensures ExtentsOf(op, shape, indices.shape, Enumerated(op, c.permutation, lo, hi, layout.otherDims))
         == Sizes(c.dims[..lo]) + (Select(indices.shape, layout.otherDims)
            + (Select(SliceExtents(op, shape), Filter(c.permutation[lo..hi], NotCollapsed(op))) + Sizes(c.dims[hi..])))
    ensures ValuesOf(op, shape, indices, resultShape, result, Enumerated(op, c.permutation, lo, hi, layout.otherDims))
         == Select(SlicePositions(op, shape, indices, resultShape, result), c.permutation[..lo])
            + (PositionIndex(op, op.BatchIndex(result), layout.otherDims)
            + (Select(SlicePositions(op, shape, indices, resultShape, result),
              Filter(c.permutation[lo..hi], NotCollapsed(op)))
            + Select(SlicePositions(op, shape, indices, resultShape, result), c.permutation[hi..])))
  {
    hide GatherOp.Readable, GatherOp.SlicePosition, GatherOp.SliceExtent, Filter, Gathering, SliceExtents,
         SlicePositions,
      ExtentsOf, ValuesOf, ValidRoles, GatherOp.BatchPositions, Range, Sizes, Windows;
    RegionExtents(op, shape, c, lo, hi);
    LayoutBounds(op, shape, c, lo, hi);
    OtherDimsBounds(layout, |indices.shape|);
    var kept := Filter(c.permutation[lo..hi], NotCollapsed(op));
    FilterNames(c.permutation[lo..hi], |shape|, NotCollapsed(op));
    OperandRoles(op, shape, indices, resultShape, result, c.permutation[..lo]);
    IndexRoles(op, shape, indices, resultShape, result, layout.otherDims);
    OperandRoles(op, shape, indices, resultShape, result, kept);
    OperandRoles(op, shape, indices, resultShape, result, c.permutation[hi..]);
    var a, b, w, r := Operands(c.permutation[..lo]), Indices(layout.otherDims), Operands(kept),
      Operands(c.permutation[hi..]);
    RolesConcat(op, shape, indices, resultShape, result, w, r);
    RolesConcat(op, shape, indices, resultShape, result, b, w + r);
    RolesConcat(op, shape, indices, resultShape, result, a, b + (w + r));
  }

  lemma LayoutBounds(op: GatherOp, shape: seq<nat>, c: Canonical, lo: nat, hi: nat)
    requires Gathering(op, shape, c, lo, hi)
    ensures lo <= hi <= |shape| == |op.sliceSizes| == |c.permutation| == |c.dims| && Laid(c, lo, hi)
      && IsPermutation(c.permutation)
  {
    hide Laid, IsPermutation;
  }

  lemma OtherDimsBounds(layout: IndexLayout, rank: nat)
    requires layout.Valid(rank)
    ensures forall i :: 0 <= i < |layout.otherDims| ==> layout.otherDims[i] != layout.vectorDim
  {
    hide Filter, Range;
    forall i | 0 <= i < |layout.otherDims| ensures layout.otherDims[i] != layout.vectorDim {
      assert layout.otherDims[i] in layout.otherDims;
    }
  }

  /// The offsets a result element has in the position's windows.
  ghost function WindowOffsets(op: GatherOp, shape: seq<nat>, indices: Tensor<int>, resultShape: seq<nat>,
                               result: seq<nat>,
                               c: Canonical, lo: nat, hi: nat): seq<nat>
    requires op.Readable(shape, indices, resultShape, result) && lo <= hi <= |c.permutation|
      && Names(c.permutation, |shape|)
  {
    if lo < hi then Select(SlicePositions(op, shape, indices, resultShape, result), c.permutation[lo..hi]) else [0]
  }

  /// Collapsed windows hold one position, so leaving them out moves nothing.
  lemma WindowsWithoutCollapsed(op: GatherOp, shape: seq<nat>, indices: Tensor<int>, resultShape: seq<nat>,
                                result: seq<nat>,
                                c: Canonical, lo: nat, hi: nat)
    requires op.Readable(shape, indices, resultShape, result) && Gathering(op, shape, c, lo, hi)
    ensures Names(c.permutation, |shape|) && Names(Filter(c.permutation[lo..hi], NotCollapsed(op)), |shape|)
    ensures InShape(c.windows, WindowOffsets(op, shape, indices, resultShape, result, c, lo, hi))
    ensures InShape(Select(SliceExtents(op, shape), Filter(c.permutation[lo..hi], NotCollapsed(op))),
                    Select(SlicePositions(op, shape, indices, resultShape, result),
                      Filter(c.permutation[lo..hi], NotCollapsed(op))))
    ensures Product(Select(SliceExtents(op, shape), Filter(c.permutation[lo..hi], NotCollapsed(op))))
      == Product(c.windows)
    ensures Flatten(Select(SliceExtents(op, shape), Filter(c.permutation[lo..hi], NotCollapsed(op))),
                    Select(SlicePositions(op, shape, indices, resultShape, result),
                      Filter(c.permutation[lo..hi], NotCollapsed(op))))
         == Flatten(c.windows, WindowOffsets(op, shape, indices, resultShape, result, c, lo, hi))
  {
    hide GatherOp.Readable, GatherOp.SlicePosition, Filter, SliceExtents, SlicePositions, Gathering, Flatten, Product,
         Sizes, Columns, RowShape;
    RegionExtents(op, shape, c, lo, hi);
    LayoutBounds(op, shape, c, lo, hi);
    PositionsInSlices(op, shape, indices, resultShape, result);
    CollapsedExtents(op, shape, indices, resultShape, result);
    var part := c.permutation[lo..hi];
    DropUnits(SliceExtents(op, shape), SlicePositions(op, shape, indices, resultShape, result), part, NotCollapsed(op));
    if lo == hi {
      FilterNone([], NotCollapsed(op));
      OneWindow();
    }
  }

  lemma OneWindow()
    ensures InShape([1], [0]) && Flatten([1], [0]) == 0 && Product([1]) == 1 && Flatten([], []) == 0 && Product([]) == 1
  {
    assert Product([1]) == 1 * Product([]);
    assert Flatten([1], [0]) == 0 * Product([]) + Flatten([], []);
  }

  lemma CollapsedExtents(op: GatherOp, shape: seq<nat>, indices: Tensor<int>, resultShape: seq<nat>, result: seq<nat>)
    requires op.Readable(shape, indices, resultShape, result) && |shape| == |op.sliceSizes|
    ensures forall d :: 0 <= d < |shape| && !NotCollapsed(op)(d) ==> SliceExtents(op, shape)[d] == 1
  {
    hide GatherOp.HasResultShape;
    DistinctApart(op.collapsedDims, op.operandBatchingDims);
  }

  lemma FourParts(s: seq<nat>, t: seq<nat>, u: seq<nat>, v: seq<nat>, i: seq<nat>, j: seq<nat>, k: seq<nat>,
                  l: seq<nat>)
    requires InShape(s, i) && InShape(t, j) && InShape(u, k) && InShape(v, l)
    ensures InShape(s + (t + (u + v)), i + (j + (k + l)))
    ensures Flatten(s + (t + (u + v)), i + (j + (k + l)))
         == ((Flatten(s, i) * Product(t) + Flatten(t, j)) * Product(u) + Flatten(u, k)) * Product(v) + Flatten(v, l)
    ensures Product(s + (t + (u + v))) == Product(s) * Product(t) * Product(u) * Product(v)
  {
    hide Flatten, Product;
    FlattenConcat(s, t, i, j);
    ProductConcat(s, t);
    ThreeParts(s + t, u, v, i + j, k, l);
    assert (s + t) + (u + v) == s + (t + (u + v)) && (i + j) + (k + l) == i + (j + (k + l));
  }

  /// The parts a result element has among the moved rows.
  ghost predicate PartsOf(op: GatherOp, shape: seq<nat>, indices: Tensor<int>, resultShape: seq<nat>, result: seq<nat>,
                          c: Canonical, lo: nat, hi: nat, layout: IndexLayout, i: seq<nat>, o: seq<nat>, w: seq<nat>,
                            r: seq<nat>)
    requires op.Readable(shape, indices, resultShape, result) && lo <= hi <= |c.permutation|
      && Names(c.permutation, |shape|)
  {
    && i == Select(SlicePositions(op, shape, indices, resultShape, result), c.permutation[..lo])
    && Names(op.BatchPositions(|result|), |result|)
    && (forall q :: 0 <= q < |layout.otherDims| ==>
        layout.otherDims[q] != op.indexVectorDim && op.AfterVector(layout.otherDims[q]) < |op.BatchIndex(result)|)
    && o == PositionIndex(op, op.BatchIndex(result), layout.otherDims)
    && w == WindowOffsets(op, shape, indices, resultShape, result, c, lo, hi)
    && r == Select(SlicePositions(op, shape, indices, resultShape, result), c.permutation[hi..])
  }

  lemma PositionIndexBound(op: GatherOp, shape: seq<nat>, indices: Tensor<int>, resultShape: seq<nat>,
                           result: seq<nat>, dims: seq<nat>)
    requires op.Readable(shape, indices, resultShape, result) && Names(dims, |indices.shape|)
    requires forall i :: 0 <= i < |dims| ==> dims[i] != op.indexVectorDim
    ensures Names(op.BatchPositions(|result|), |result|)
    ensures forall i :: 0 <= i < |dims| ==> op.AfterVector(dims[i]) < |op.BatchIndex(result)|
    ensures InShape(Select(indices.shape, dims), PositionIndex(op, op.BatchIndex(result), dims))
  {
    hide Filter, Product, GatherOp.Constraints;
    op.Reads(shape, indices, resultShape, result);
    op.IndexDimsAre(|indices.shape|);
    var batch := op.BatchIndex(result);
    forall i | 0 <= i < |dims| ensures batch[op.AfterVector(dims[i])] < indices.shape[dims[i]] {
      assert batch[op.AfterVector(dims[i])] == result[op.BatchPositions(|result|)[op.AfterVector(dims[i])]];
    }
  }

  /// Where among the moved elements a result element comes from.
  lemma MovedFrom(op: GatherOp, shape: seq<nat>, indices: Tensor<int>, resultShape: seq<nat>, result: seq<nat>,
                  c: Canonical, lo: nat, hi: nat, layout: IndexLayout, Bi: nat, M: nat)
    returns (i: seq<nat>, o: seq<nat>, w: seq<nat>, r: seq<nat>)
    requires op.Readable(shape, indices, resultShape, result) && Gathering(op, shape, c, lo, hi)
    requires layout.Valid(|indices.shape|) && layout.vectorDim == op.indexVectorDim
      && Names(layout.otherDims, |indices.shape|)
    requires (Bi == 1 || Bi == c.B) && M == Product(Select(indices.shape, layout.otherDims))
    ensures Names(c.permutation, |shape|) && lo <= hi <= |c.permutation|
    ensures PartsOf(op, shape, indices, resultShape, result, c, lo, hi, layout, i, o, w, r)
    ensures InShape(Sizes(c.dims[..lo]), i) && InShape(Select(indices.shape, layout.otherDims), o)
      && InShape(c.windows, w)
    ensures InShape(Sizes(c.dims[hi..]), r)
    ensures |c.sizes| > 0 && Names(c.rowDims, |c.dims|) && GeometryOf(c, Bi, M).Valid() && Laid(c, lo, hi)
    ensures WindowRowIndex(c, w) < GeometryOf(c, Bi, M).W() && ElementIndex(c, hi, w, r) < GeometryOf(c, Bi, M).Width()
    ensures Flatten(Sizes(c.dims[..lo]), i) < c.B && Flatten(Select(indices.shape, layout.otherDims), o) < M
    ensures ValidRoles(op, shape, indices.shape, Enumerated(op, c.permutation, lo, hi, layout.otherDims))
    ensures InShape(ExtentsOf(op, shape, indices.shape, Enumerated(op, c.permutation, lo, hi, layout.otherDims)),
                    ValuesOf(op, shape, indices, resultShape, result,
                      Enumerated(op, c.permutation, lo, hi, layout.otherDims)))
    ensures Flatten(ExtentsOf(op, shape, indices.shape, Enumerated(op, c.permutation, lo, hi, layout.otherDims)),
                    ValuesOf(op, shape, indices, resultShape, result,
                      Enumerated(op, c.permutation, lo, hi, layout.otherDims)))
         == GeometryOf(c, Bi, M).MovedPlace(Flatten(Sizes(c.dims[..lo]), i),
           Flatten(Select(indices.shape, layout.otherDims), o),
                                            WindowRowIndex(c, w), ElementIndex(c, hi, w, r))
  {
    hide GatherOp.Readable, GatherOp.SlicePosition, GatherOp.SliceExtent, Filter, Gathering, SliceExtents,
         SlicePositions,
      ExtentsOf, ValuesOf, ValidRoles, GatherOp.BatchPositions, Range, Sizes, Windows, Flatten, Product, Enumerated,
        WindowOffsets,
      WindowRowIndex, ElementIndex, Geometry.MovedPlace, Geometry.W, Geometry.Width, RowShape, Laid, IsPermutation,
        InShape,
      NotCollapsed, PositionIndex;
    LayoutBounds(op, shape, c, lo, hi);
    RegionExtents(op, shape, c, lo, hi);
    EnumeratedParts(op, shape, indices, resultShape, result, c, lo, hi, layout);
    PositionIndexBound(op, shape, indices, resultShape, result, layout.otherDims);
    WindowsWithoutCollapsed(op, shape, indices, resultShape, result, c, lo, hi);
    PositionsInSlices(op, shape, indices, resultShape, result);
    var v, kept := SlicePositions(op, shape, indices, resultShape, result),
      Filter(c.permutation[lo..hi], NotCollapsed(op));
    SelectInShape(SliceExtents(op, shape), v, c.permutation[..lo]);
    SelectInShape(SliceExtents(op, shape), v, c.permutation[hi..]);
    i, r := Select(v, c.permutation[..lo]), Select(v, c.permutation[hi..]);
    o := PositionIndex(op, op.BatchIndex(result), layout.otherDims);
    w := WindowOffsets(op, shape, indices, resultShape, result, c, lo, hi);
    FourParts(Sizes(c.dims[..lo]), Select(indices.shape, layout.otherDims), Select(SliceExtents(op, shape), kept),
      Sizes(c.dims[hi..]),
              i, o, Select(v, kept), r);
    LaidExtents(c, lo, hi);
    FlattenBound(Select(indices.shape, layout.otherDims), o);
    IndexBounds(c, lo, hi, Bi, M, w, r);
    MovedAt(c, lo, hi, Bi, M, i, Flatten(Select(indices.shape, layout.otherDims), o), w, r);
  }

  lemma LaidExtents(c: Canonical, lo: nat, hi: nat)
    requires Laid(c, lo, hi)
    ensures |c.sizes| > 0 && Names(c.rowDims, |c.dims|) && |c.sizes| == |c.windows| == |c.columns|
  {
    hide RowShape, Product;
  }

  // ---- the index the kernel reads ----

  /// The pages the index tensor is read as.
  ghost predicate Indexing(op: GatherOp, indices: Tensor<int>, c: Canonical, layout: IndexLayout, Bi: nat, M: nat,
                           value: Tensor<int>, values: Tensor<int>) {
    && indices.Valid() && layout.Valid(|indices.shape|) && layout.vectorDim == op.indexVectorDim
       && Names(layout.otherDims, |indices.shape|)
    && Bi == Product(Select(indices.shape, layout.batchDims)) && M == Product(Select(indices.shape, layout.otherDims))
    && Paged(layout, indices, value) && Selected(value, c.columns, values)
  }

  /// The table's batch that a result element's index batch is read for.
  lemma BatchOfTable(op: GatherOp, shape: seq<nat>, indices: Tensor<int>, resultShape: seq<nat>, result: seq<nat>,
                     dims: seq<OperandDim>, c: Canonical, lo: nat, hi: nat, layout: IndexLayout)
    requires op.Readable(shape, indices, resultShape, result) && Gathering(op, shape, c, lo, hi)
      && Classified(op, shape, dims)
    requires layout.Valid(|indices.shape|) && layout.vectorDim == op.indexVectorDim
    requires layout.batchDims == Paired(op, BatchingOrder(op, |shape|)) && Names(c.permutation, |dims|)
      && lo <= |c.permutation|
    requires BatchesLead(dims, c.permutation, lo)
    ensures Names(op.BatchPositions(|result|), |result|) && Names(c.permutation, |shape|) && lo <= |c.permutation|
    ensures forall t :: 0 <= t < |layout.batchDims| ==>
      layout.batchDims[t] != op.indexVectorDim && op.AfterVector(layout.batchDims[t]) < |op.BatchIndex(result)|
    ensures InShape(Select(indices.shape, layout.batchDims), PositionIndex(op, op.BatchIndex(result), layout.batchDims))
    ensures InShape(Sizes(c.dims[..lo]), Select(SlicePositions(op, shape, indices, resultShape, result),
      c.permutation[..lo]))
    ensures Flatten(Select(indices.shape, layout.batchDims), PositionIndex(op, op.BatchIndex(result), layout.batchDims))
         == if Product(Select(indices.shape, layout.batchDims)) == 1 then 0
            else Flatten(Sizes(c.dims[..lo]), Select(SlicePositions(op, shape, indices, resultShape, result),
              c.permutation[..lo]))
  {
    hide GatherOp.Readable, GatherOp.SlicePosition, GatherOp.SliceExtent, Filter, SliceExtents, SlicePositions,
         Flatten, Product,
      Sizes, Columns, RowShape, GatherOp.BatchPositions, IsPermutation, Laid, Paired, PositionIndex, BatchingOrder,
        Find, Gathering, Range;
    LayoutBounds(op, shape, c, lo, hi);
    RegionExtents(op, shape, c, lo, hi);
    PositionsInSlices(op, shape, indices, resultShape, result);
    OtherBatchDims(layout);
    PositionIndexBound(op, shape, indices, resultShape, result, layout.batchDims);
    SelectInShape(SliceExtents(op, shape), SlicePositions(op, shape, indices, resultShape, result),
      c.permutation[..lo]);
    FlattenBound(Select(indices.shape, layout.batchDims), PositionIndex(op, op.BatchIndex(result), layout.batchDims));
    SameBatching(op, shape, dims);
    if BatchingOrder(op, |shape|) == [] {
      assert Select(indices.shape, layout.batchDims) == [];
      OneWindow();
    } else {
      var v, e := SlicePositions(op, shape, indices, resultShape, result), SliceExtents(op, shape);
      LeadingUnits(op, shape, dims, c, lo, hi);
      DropUnits(e, v, c.permutation[..lo], IsBatch(dims));
      PairedValues(op, shape, indices, resultShape, result);
    }
  }

  lemma OtherBatchDims(layout: IndexLayout)
    requires layout.vectorDim !in layout.batchDims
    ensures forall i :: 0 <= i < |layout.batchDims| ==> layout.batchDims[i] != layout.vectorDim
  {
    forall i | 0 <= i < |layout.batchDims| ensures layout.batchDims[i] != layout.vectorDim {
      assert layout.batchDims[i] in layout.batchDims;
    }
  }

  /// Between the batching dimensions only extents of 1.
  lemma LeadingUnits(op: GatherOp, shape: seq<nat>, dims: seq<OperandDim>, c: Canonical, lo: nat, hi: nat)
    requires Gathering(op, shape, c, lo, hi) && Classified(op, shape, dims) && Names(c.permutation, |dims|)
    requires BatchesLead(dims, c.permutation, lo) && BatchOrder(dims) != []
    ensures forall p :: 0 <= p < lo && !IsBatch(dims)(c.permutation[..lo][p]) ==>
      SliceExtents(op, shape)[c.permutation[..lo][p]] == 1
    ensures Filter(c.permutation[..lo], IsBatch(dims)) == BatchOrder(dims)
  {
    hide Filter, Find, IsPermutation, Product, Columns, RowShape, Laid;
    forall p | 0 <= p < lo && !IsBatch(dims)(c.permutation[p]) ensures SliceExtents(op, shape)[c.permutation[p]] == 1 {
      assert c.dims[p] == DimOf(op, shape, c.permutation[p]);
      assert !NeedsComponent(c.dims[p]);
    }
  }

  /// Batching dimensions and the index dimensions paired with them have one extent and one position.
  lemma PairedValues(op: GatherOp, shape: seq<nat>, indices: Tensor<int>, resultShape: seq<nat>, result: seq<nat>)
    requires op.Readable(shape, indices, resultShape, result) && |shape| == |op.sliceSizes|
    ensures |op.startIndicesBatchingDims| == |op.operandBatchingDims|
    ensures Names(BatchingOrder(op, |shape|), |shape|) && Names(Paired(op, BatchingOrder(op, |shape|)), |indices.shape|)
    ensures Names(op.BatchPositions(|result|), |result|)
    ensures forall t :: 0 <= t < |Paired(op, BatchingOrder(op, |shape|))| ==>
      && Paired(op, BatchingOrder(op, |shape|))[t] != op.indexVectorDim
      && op.AfterVector(Paired(op, BatchingOrder(op, |shape|))[t]) < |op.BatchIndex(result)|
    ensures Select(SliceExtents(op, shape), BatchingOrder(op, |shape|))
      == Select(indices.shape, Paired(op, BatchingOrder(op, |shape|)))
    ensures Select(SlicePositions(op, shape, indices, resultShape, result), BatchingOrder(op, |shape|))
         == PositionIndex(op, op.BatchIndex(result), Paired(op, BatchingOrder(op, |shape|)))
  {
    hide Filter, Product, Range, GatherOp.BatchPositions, GatherOp.IndexDims;
    op.Reads(shape, indices, resultShape, result);
    var order := BatchingOrder(op, |shape|);
    DistinctApart(op.collapsedDims, op.operandBatchingDims);
    forall t | 0 <= t < |order|
      ensures order[t] < |shape| && Paired(op, order)[t] < |indices.shape| && Paired(op, order)[t] != op.indexVectorDim
      ensures op.SliceExtent(shape, order[t]) == indices.shape[Paired(op, order)[t]]
      ensures op.SlicePosition(shape, indices, resultShape, result, order[t])
           == op.BatchIndex(result)[op.AfterVector(Paired(op, order)[t])]
    {
      assert order[t] in order;
      var x := Find(op.operandBatchingDims, order[t]);
      assert op.startIndicesBatchingDims[x] in op.startIndicesBatchingDims;
      assert order[t] !in op.OffsetOperandDims(|shape|);
    }
  }

  /// The page place of a start index component.
  lemma StartPage(op: GatherOp, shape: seq<nat>, indices: Tensor<int>, resultShape: seq<nat>, result: seq<nat>,
                  layout: IndexLayout, k: nat)
    requires op.Readable(shape, indices, resultShape, result) && k < |op.startIndexMap|
    requires layout.Valid(|indices.shape|) && layout.vectorDim == op.indexVectorDim
      && Names(layout.otherDims, |indices.shape|)
    ensures Names(op.BatchPositions(|result|), |result|)
    ensures op.HasVector(|indices.shape|) ==> op.indexVectorDim <= |op.BatchIndex(result)|
    ensures forall t :: 0 <= t < |layout.batchDims| ==>
      layout.batchDims[t] != op.indexVectorDim && op.AfterVector(layout.batchDims[t]) < |op.BatchIndex(result)|
    ensures forall t :: 0 <= t < |layout.otherDims| ==>
      layout.otherDims[t] != op.indexVectorDim && op.AfterVector(layout.otherDims[t]) < |op.BatchIndex(result)|
    ensures InShape(indices.shape, op.StartPlace(|indices.shape|, op.BatchIndex(result), k))
    ensures Select(op.StartPlace(|indices.shape|, op.BatchIndex(result), k), layout.batchDims)
         == PositionIndex(op, op.BatchIndex(result), layout.batchDims)
    ensures Select(op.StartPlace(|indices.shape|, op.BatchIndex(result), k), layout.otherDims)
         == PositionIndex(op, op.BatchIndex(result), layout.otherDims)
    ensures layout.PageIndex(indices.shape, op.StartPlace(|indices.shape|, op.BatchIndex(result), k))[1] == k
  {
    hide Filter, Product, Range, Flatten, GatherOp.BatchPositions, GatherOp.IndexDims, GatherOp.HasResultShape;
    op.Reads(shape, indices, resultShape, result);
    op.IndexDimsAre(|indices.shape|);
    OtherDimsBounds(layout, |indices.shape|);
    OtherBatchDims(layout);
    var batch := op.BatchIndex(result);
    var place := op.StartPlace(|indices.shape|, batch, k);
    assert forall d: nat :: d < |place| && d != op.indexVectorDim ==> place[d] == batch[op.AfterVector(d)];
  }

  /// Component k of a position, read from the pages.
  lemma PageRead(op: GatherOp, shape: seq<nat>, indices: Tensor<int>, resultShape: seq<nat>, result: seq<nat>,
                 layout: IndexLayout,
                 value: Tensor<int>, k: nat)
    returns (b: nat, m: nat)
    requires op.Readable(shape, indices, resultShape, result) && k < |op.startIndexMap|
    requires Paged(layout, indices, value) && layout.vectorDim == op.indexVectorDim
    ensures Names(op.BatchPositions(|result|), |result|)
    ensures op.HasVector(|indices.shape|) ==> op.indexVectorDim <= |op.BatchIndex(result)|
    ensures InShape(indices.shape, op.StartPlace(|indices.shape|, op.BatchIndex(result), k))
    ensures forall t :: 0 <= t < |layout.batchDims| ==>
      layout.batchDims[t] != op.indexVectorDim && op.AfterVector(layout.batchDims[t]) < |op.BatchIndex(result)|
    ensures forall t :: 0 <= t < |layout.otherDims| ==>
      layout.otherDims[t] != op.indexVectorDim && op.AfterVector(layout.otherDims[t]) < |op.BatchIndex(result)|
    ensures InShape(Select(indices.shape, layout.batchDims), PositionIndex(op, op.BatchIndex(result), layout.batchDims))
    ensures InShape(Select(indices.shape, layout.otherDims), PositionIndex(op, op.BatchIndex(result), layout.otherDims))
    ensures b == Flatten(Select(indices.shape, layout.batchDims),
      PositionIndex(op, op.BatchIndex(result), layout.batchDims))
    ensures m == Flatten(Select(indices.shape, layout.otherDims),
      PositionIndex(op, op.BatchIndex(result), layout.otherDims))
    ensures InShape(value.shape, [b, k, m])
    ensures value.At([b, k, m]) == indices.At(op.StartPlace(|indices.shape|, op.BatchIndex(result), k))
  {
    hide Filter, Product, Range, Flatten, GatherOp.BatchPositions, GatherOp.StartPlace, PositionIndex,
         GatherOp.Readable, Select;
    StartPage(op, shape, indices, resultShape, result, layout, k);
    PositionIndexBound(op, shape, indices, resultShape, result, layout.batchDims);
    PositionIndexBound(op, shape, indices, resultShape, result, layout.otherDims);
    var place := op.StartPlace(|indices.shape|, op.BatchIndex(result), k);
    b := Flatten(Select(indices.shape, layout.batchDims), PositionIndex(op, op.BatchIndex(result), layout.batchDims));
    m := Flatten(Select(indices.shape, layout.otherDims), PositionIndex(op, op.BatchIndex(result), layout.otherDims));
    assert layout.PageIndex(indices.shape, place) == [b, k, m];
  }

  /// The pages in the order the kernels read them.
  lemma PageOrder(c: Canonical, Bi: nat, M: nat, values: Tensor<int>, b: nat, m: nat, k: nat)
    requires |c.sizes| > 0 && Names(c.rowDims, |c.dims|) && GeometryOf(c, Bi, M).Valid()
    requires values.Valid() && values.shape == [Bi, |c.sizes|, M] && b < c.B && m < M && k < |c.sizes|
    ensures |values.data| == GeometryOf(c, Bi, M).IndexElements()
    ensures InShape(values.shape, [if Bi == 1 then 0 else b, k, m])
    ensures IndexAt(GeometryOf(c, Bi, M), values.data, b, m, k) == values.At([if Bi == 1 then 0 else b, k, m])
  {
    hide RowShape, Product, Flatten;
    ProductOfThree(values.shape);
    PlaceOfThree(values.shape, [if Bi == 1 then 0 else b, k, m]);
  }

  /// Component k of the position a result element reads: its clamped start along that dimension.
  lemma ComponentOf(op: GatherOp, shape: seq<nat>, indices: Tensor<int>, resultShape: seq<nat>, result: seq<nat>,
                    dims: seq<OperandDim>, c: Canonical, lo: nat, hi: nat, layout: IndexLayout, Bi: nat, M: nat,
                    value: Tensor<int>, values: Tensor<int>, i: seq<nat>, o: seq<nat>, w: seq<nat>, r: seq<nat>, k: nat)
    requires op.Readable(shape, indices, resultShape, result) && Gathering(op, shape, c, lo, hi)
      && Classified(op, shape, dims)
    requires Indexing(op, indices, c, layout, Bi, M, value, values) && k < hi - lo
    requires layout.batchDims == Paired(op, BatchingOrder(op, |shape|)) && |dims| == |shape|
      && Names(c.permutation, |shape|)
    requires BatchesLead(dims, c.permutation, lo)
    requires PartsOf(op, shape, indices, resultShape, result, c, lo, hi, layout, i, o, w, r)
    requires |c.sizes| > 0 && Names(c.rowDims, |c.dims|) && GeometryOf(c, Bi, M).Valid()
    requires InShape(Sizes(c.dims[..lo]), i) && InShape(Select(indices.shape, layout.otherDims), o)
    requires Flatten(Sizes(c.dims[..lo]), i) < c.B && Flatten(Select(indices.shape, layout.otherDims), o) < M
    ensures |values.data| == GeometryOf(c, Bi, M).IndexElements() && k < |c.sizes| == |c.columns|
    ensures Names(op.BatchPositions(|result|), |result|)
    ensures op.HasVector(|indices.shape|) ==> op.indexVectorDim <= |op.BatchIndex(result)|
    ensures 0 <= c.columns[k] ==>
      c.columns[k] < |op.startIndexMap|
        && InShape(indices.shape, op.StartPlace(|indices.shape|, op.BatchIndex(result), c.columns[k]))
    ensures IndexAt(GeometryOf(c, Bi, M), values.data, Flatten(Sizes(c.dims[..lo]), i),
      Flatten(Select(indices.shape, layout.otherDims), o), k)
         == if c.columns[k] < 0 then 0
           else indices.At(op.StartPlace(|indices.shape|, op.BatchIndex(result), c.columns[k]))
  {
    hide Filter, Product, Range, Flatten, GatherOp.BatchPositions, GatherOp.StartPlace, PositionIndex,
         GatherOp.Readable, Select,
      Gathering, Classified, Paired, BatchingOrder, BatchesLead, RowShape, Paged, SlicePositions, WindowOffsets, Sizes,
        Geometry.IndexElements;
    op.Reads(shape, indices, resultShape, result);
    ComponentColumn(op, shape, c, lo, hi, k);
    LayoutBounds(op, shape, c, lo, hi);
    var b, m := Flatten(Sizes(c.dims[..lo]), i), Flatten(Select(indices.shape, layout.otherDims), o);
    PageShapes(layout, indices, value);
    PageOrder(c, Bi, M, values, b, m, k);
    var p := [if Bi == 1 then 0 else b, k, m];
    assert SelectedAt(value, c.columns, values, p);
    if c.columns[k] >= 0 {
      BatchOfTable(op, shape, indices, resultShape, result, dims, c, lo, hi, layout);
      var b', m' := PageRead(op, shape, indices, resultShape, result, layout, value, c.columns[k]);
    }
  }

  lemma PageShapes(layout: IndexLayout, indices: Tensor<int>, value: Tensor<int>)
    requires Paged(layout, indices, value)
    ensures indices.Valid() && layout.Valid(|indices.shape|) && Names(layout.otherDims, |indices.shape|)
    ensures value.shape == layout.PageShape(indices.shape)
  {
    hide Product, Flatten, IndexLayout.Valid, IndexLayout.PageShape, IndexLayout.PageIndex;
  }

  lemma ComponentColumn(op: GatherOp, shape: seq<nat>, c: Canonical, lo: nat, hi: nat, k: nat)
    requires Gathering(op, shape, c, lo, hi) && k < hi - lo
    ensures k < |c.sizes| == |c.columns| == |c.windows| && lo + k < |shape| == |op.sliceSizes|
    ensures Names(c.permutation, |shape|) && |c.permutation| == |shape|
    ensures c.sizes[k] == shape[c.permutation[lo + k]] && c.windows[k] == op.sliceSizes[c.permutation[lo + k]]
    ensures c.columns[k] == if c.permutation[lo + k] in op.startIndexMap
      then Find(op.startIndexMap, c.permutation[lo + k]) else -1
    ensures c.permutation[lo + k] !in op.operandBatchingDims
    ensures 0 <= c.columns[k] ==> c.columns[k] < |op.startIndexMap|
  {
    hide Find, Product, RowShape, IsPermutation;
    assert c.dims[lo + k] == DimOf(op, shape, c.permutation[lo + k]);
    assert c.dims[lo..hi][k] == c.dims[lo + k];
    assert c.columns[k] == ColumnOf(c.dims[lo + k]);
  }

  // ---- the element a result element is ----

  /// Everything the lowering hands to the kernel.
  ghost predicate Lowering(op: GatherOp, shape: seq<nat>, indices: Tensor<int>, resultShape: seq<nat>,
                           dims: seq<OperandDim>,
                           c: Canonical, lo: nat, hi: nat, layout: IndexLayout, Bi: nat, M: nat, value: Tensor<int>,
                             values: Tensor<int>) {
    && Gathering(op, shape, c, lo, hi) && Classified(op, shape, dims) && |dims| == |shape|
    && Indexing(op, indices, c, layout, Bi, M, value, values)
    && |op.startIndicesBatchingDims| == |op.operandBatchingDims| && Names(layout.otherDims, |indices.shape|)
    && layout.batchDims == Paired(op, BatchingOrder(op, |shape|)) && Names(c.permutation, |shape|)
    && (lo < hi ==> BatchesLead(dims, c.permutation, lo))
    && (Bi == 1 || Bi == c.B) && |c.sizes| > 0 && Names(c.rowDims, |c.dims|) && GeometryOf(c, Bi, M).Valid()
    && |values.data| == GeometryOf(c, Bi, M).IndexElements()
    && (forall d :: 0 <= d < |shape| ==> op.sliceSizes[d] <= shape[d])
  }

  /// The slice's start along a component's dimension.
  lemma StartOf(op: GatherOp, shape: seq<nat>, indices: Tensor<int>, resultShape: seq<nat>, result: seq<nat>,
                dims: seq<OperandDim>, c: Canonical, lo: nat, hi: nat, layout: IndexLayout, Bi: nat, M: nat,
                value: Tensor<int>, values: Tensor<int>, i: seq<nat>, o: seq<nat>, w: seq<nat>, r: seq<nat>, k: nat)
    requires op.Readable(shape, indices, resultShape, result)
    requires Lowering(op, shape, indices, resultShape, dims, c, lo, hi, layout, Bi, M, value, values) && k < hi - lo
    requires PartsOf(op, shape, indices, resultShape, result, c, lo, hi, layout, i, o, w, r)
    requires InShape(Sizes(c.dims[..lo]), i) && InShape(Select(indices.shape, layout.otherDims), o)
    requires Flatten(Sizes(c.dims[..lo]), i) < c.B && Flatten(Select(indices.shape, layout.otherDims), o) < M
    ensures k < |c.sizes| && c.permutation[lo + k] < |shape| == |op.sliceSizes|
    ensures Names(op.BatchPositions(|result|), |result|)
    ensures op.HasVector(|indices.shape|) ==> op.indexVectorDim <= |op.BatchIndex(result)|
    ensures forall j :: 0 <= j < |op.startIndexMap| ==>
      InShape(indices.shape, op.StartPlace(|indices.shape|, op.BatchIndex(result), j))
    ensures Clamp(IndexAt(GeometryOf(c, Bi, M), values.data, Flatten(Sizes(c.dims[..lo]), i),
      Flatten(Select(indices.shape, layout.otherDims), o), k),
                  c.sizes[k] - c.windows[k])
         == op.FullStart(shape, indices, op.BatchIndex(result), c.permutation[lo + k])
  {
    hide Filter, Product, Range, Flatten, GatherOp.BatchPositions, GatherOp.StartPlace, PositionIndex,
         GatherOp.Readable, Select,
      Gathering, Classified, Paired, BatchingOrder, BatchesLead, RowShape, Indexing, PartsOf, Sizes,
        Geometry.IndexElements, IndexAt, Find;
    op.Reads(shape, indices, resultShape, result);
    ComponentColumn(op, shape, c, lo, hi, k);
    ComponentOf(op, shape, indices, resultShape, result, dims, c, lo, hi, layout, Bi, M, value, values, i, o, w, r, k);
  }

  /// A dimension outside the component region has no start index.
  lemma NoStart(op: GatherOp, shape: seq<nat>, indices: Tensor<int>, resultShape: seq<nat>, result: seq<nat>,
                c: Canonical, lo: nat, hi: nat, p: nat)
    requires op.Readable(shape, indices, resultShape, result) && Gathering(op, shape, c, lo, hi)
    requires p < |shape| && !(lo <= p < hi)
    ensures c.permutation[p] < |shape| && c.permutation[p] !in op.startIndexMap
  {
    hide Filter, Find, Laid, IsPermutation, GatherOp.HasResultShape;
    assert c.dims[p] == DimOf(op, shape, c.permutation[p]);
    assert !NeedsComponent(c.dims[p]);
    DistinctApart(op.startIndexMap, op.operandBatchingDims);
  }

  lemma StartsOutside(op: GatherOp, shape: seq<nat>, indices: Tensor<int>, resultShape: seq<nat>, result: seq<nat>,
                      d: nat)
    requires op.Readable(shape, indices, resultShape, result) && d < |shape| && d !in op.startIndexMap
    ensures OperandIndexAt(op, shape, indices, resultShape, result, d)
      == op.SlicePosition(shape, indices, resultShape, result, d)
  {
    op.Reads(shape, indices, resultShape, result);
  }

  ghost function OperandIndexAt(op: GatherOp, shape: seq<nat>, indices: Tensor<int>, resultShape: seq<nat>,
                                result: seq<nat>, d: nat): nat
    requires op.Readable(shape, indices, resultShape, result) && d < |shape|
  {
    op.OperandIndex(shape, indices, resultShape, result)[d]
  }

  lemma OperandIndexIs(op: GatherOp, shape: seq<nat>, indices: Tensor<int>, resultShape: seq<nat>, result: seq<nat>,
                       d: nat)
    requires op.Readable(shape, indices, resultShape, result) && d < |shape| == |op.sliceSizes|
    requires Names(op.BatchPositions(|result|), |result|)
    requires op.HasVector(|indices.shape|) ==> op.indexVectorDim <= |op.BatchIndex(result)|
    requires forall j :: 0 <= j < |op.startIndexMap| ==>
      InShape(indices.shape, op.StartPlace(|indices.shape|, op.BatchIndex(result), j))
    requires op.sliceSizes[d] <= shape[d]
    ensures OperandIndexAt(op, shape, indices, resultShape, result, d)
         == op.FullStart(shape, indices, op.BatchIndex(result), d)
           + op.SlicePosition(shape, indices, resultShape, result, d)
  {
    op.Reads(shape, indices, resultShape, result);
  }

  /// The position a result element reads.
  ghost function ItemOf(indices: Tensor<int>, layout: IndexLayout, o: seq<nat>): nat
    requires Names(layout.otherDims, |indices.shape|) && InShape(Select(indices.shape, layout.otherDims), o)
  {
    Flatten(Select(indices.shape, layout.otherDims), o)
  }

  /// Permuted operand dimension p of the element the kernel moves.
  lemma JoinedAt(op: GatherOp, shape: seq<nat>, indices: Tensor<int>, resultShape: seq<nat>, result: seq<nat>,
                 dims: seq<OperandDim>, c: Canonical, lo: nat, hi: nat, layout: IndexLayout, Bi: nat, M: nat,
                 value: Tensor<int>, values: Tensor<int>, i: seq<nat>, o: seq<nat>, w: seq<nat>, r: seq<nat>,
                   coords: seq<nat>, p: nat)
    requires op.Readable(shape, indices, resultShape, result)
    requires Lowering(op, shape, indices, resultShape, dims, c, lo, hi, layout, Bi, M, value, values) && p < |shape|
    requires PartsOf(op, shape, indices, resultShape, result, c, lo, hi, layout, i, o, w, r)
    requires InShape(Sizes(c.dims[..lo]), i) && InShape(Select(indices.shape, layout.otherDims), o)
    requires Flatten(Sizes(c.dims[..lo]), i) < c.B && ItemOf(indices, layout, o) < M
    requires coords == Coords(GeometryOf(c, Bi, M), values.data, Flatten(Sizes(c.dims[..lo]), i),
      ItemOf(indices, layout, o))
    requires |w| == |coords|
    ensures c.permutation[p] < |shape|
    ensures |Joined(lo, hi, i, Plus(coords, w), r)| == |shape|
    ensures Joined(lo, hi, i, Plus(coords, w), r)[p]
      == OperandIndexAt(op, shape, indices, resultShape, result, c.permutation[p])
  {
    hide Filter, Product, Range, Flatten, GatherOp.BatchPositions, GatherOp.StartPlace, PositionIndex,
         GatherOp.Readable,
      Gathering, Classified, Paired, BatchingOrder, BatchesLead, RowShape, Indexing, Sizes, Geometry.IndexElements,
        IndexAt, Find,
      OperandIndexAt, GatherOp.SlicePosition, GatherOp.FullStart, Clamp, Coords, NeedsComponent, Geometry.Valid,
        Joined, Plus, Select;
    LayoutBounds(op, shape, c, lo, hi);
    ComponentCount(c, lo, hi);
    JoinedEntry(SlicePositions(op, shape, indices, resultShape, result), c.permutation, lo, hi, i, coords, w, r, p);
    if lo <= p < hi {
      StartOf(op, shape, indices, resultShape, result, dims, c, lo, hi, layout, Bi, M, value, values, i, o, w, r,
        p - lo);
      OperandIndexIs(op, shape, indices, resultShape, result, c.permutation[p]);
      CoordAt(GeometryOf(c, Bi, M), values.data, Flatten(Sizes(c.dims[..lo]), i), ItemOf(indices, layout, o), p - lo);
    } else {
      NoStart(op, shape, indices, resultShape, result, c, lo, hi, p);
      StartsOutside(op, shape, indices, resultShape, result, c.permutation[p]);
    }
  }

  lemma JoinedEntry(v: seq<nat>, perm: seq<nat>, lo: nat, hi: nat, i: seq<nat>, coords: seq<nat>, w: seq<nat>,
                    r: seq<nat>, p: nat)
    requires Names(perm, |v|) && lo <= hi <= |perm| == |v| && p < |v| && |w| == |coords|
    requires i == Select(v, perm[..lo]) && r == Select(v, perm[hi..]) && (lo < hi ==> w == Select(v, perm[lo..hi]))
    ensures |Joined(lo, hi, i, Plus(coords, w), r)| == |v|
    ensures Joined(lo, hi, i, Plus(coords, w), r)[p] == v[perm[p]] + if lo <= p < hi then coords[p - lo] else 0
  {
    if p < lo { assert perm[..lo][p] == perm[p]; }
    else if p < hi { assert perm[lo..hi][p - lo] == perm[p]; }
    else { assert perm[hi..][p - hi] == perm[p]; }
  }

  lemma CoordAt(g: Geometry, values: seq<int>, b: nat, m: nat, k: nat)
    requires g.Valid() && |values| == g.IndexElements() && b < g.B && m < g.M && k < g.K()
    ensures Coords(g, values, b, m)[k] == Clamp(IndexAt(g, values, b, m, k), g.sizes[k] - g.windows[k])
  {
    hide Product;
  }

  lemma ComponentCount(c: Canonical, lo: nat, hi: nat)
    requires Laid(c, lo, hi)
    ensures lo < hi ==> |c.sizes| == hi - lo
    ensures lo == hi ==> c.sizes == [1] && c.windows == [1] && c.columns == [-1]
    ensures |c.sizes| == |c.windows| == |c.columns|
  {
    hide Product, RowShape;
  }

  lemma ComponentFits(op: GatherOp, shape: seq<nat>, indices: Tensor<int>, resultShape: seq<nat>, result: seq<nat>,
                      dims: seq<OperandDim>, c: Canonical, lo: nat, hi: nat, layout: IndexLayout, Bi: nat, M: nat,
                      value: Tensor<int>, values: Tensor<int>, i: seq<nat>, o: seq<nat>, w: seq<nat>, r: seq<nat>,
                        k: nat)
    requires op.Readable(shape, indices, resultShape, result)
    requires Lowering(op, shape, indices, resultShape, dims, c, lo, hi, layout, Bi, M, value, values) && k < hi - lo
    requires PartsOf(op, shape, indices, resultShape, result, c, lo, hi, layout, i, o, w, r)
    requires InShape(Sizes(c.dims[..lo]), i) && InShape(Select(indices.shape, layout.otherDims), o)
    requires Flatten(Sizes(c.dims[..lo]), i) < c.B && Flatten(Select(indices.shape, layout.otherDims), o) < M
    ensures k < |c.columns| == |c.sizes|
    ensures 0 <= c.columns[k] ==> c.columns[k] < |op.startIndexMap|
    ensures 0 <= IndexAt(GeometryOf(c, Bi, M), values.data, Flatten(Sizes(c.dims[..lo]), i),
      Flatten(Select(indices.shape, layout.otherDims), o), k)
              <= c.sizes[k] - c.windows[k]
         <==> (0 <= c.columns[k] ==> op.StartFits(shape, indices, resultShape, result, c.columns[k]))
  {
    hide Filter, Product, Range, Flatten, GatherOp.BatchPositions, GatherOp.StartPlace, PositionIndex,
         GatherOp.Readable, Select,
      Gathering, Classified, Paired, BatchingOrder, BatchesLead, RowShape, Indexing, Sizes, Geometry.IndexElements,
        IndexAt, Find, PartsOf;
    ComponentColumn(op, shape, c, lo, hi, k);
    FindIn(op.startIndexMap, c.permutation[lo + k]);
    ComponentOf(op, shape, indices, resultShape, result, dims, c, lo, hi, layout, Bi, M, value, values, i, o, w, r, k);
  }

  lemma FindIn(xs: seq<nat>, x: nat)
    ensures x in xs ==> Find(xs, x) < |xs| && xs[Find(xs, x)] == x
  {}

  /// The kernel's position needs no clamping just when the operation's start indices do not.
  lemma FillAgrees(op: GatherOp, shape: seq<nat>, indices: Tensor<int>, resultShape: seq<nat>, result: seq<nat>,
                   dims: seq<OperandDim>, c: Canonical, lo: nat, hi: nat, layout: IndexLayout, Bi: nat, M: nat,
                   value: Tensor<int>, values: Tensor<int>, i: seq<nat>, o: seq<nat>, w: seq<nat>, r: seq<nat>)
    requires op.Readable(shape, indices, resultShape, result)
    requires Lowering(op, shape, indices, resultShape, dims, c, lo, hi, layout, Bi, M, value, values)
    requires PartsOf(op, shape, indices, resultShape, result, c, lo, hi, layout, i, o, w, r)
    requires InShape(Sizes(c.dims[..lo]), i) && InShape(Select(indices.shape, layout.otherDims), o)
    requires Flatten(Sizes(c.dims[..lo]), i) < c.B && Flatten(Select(indices.shape, layout.otherDims), o) < M
    ensures InBounds(GeometryOf(c, Bi, M), values.data, Flatten(Sizes(c.dims[..lo]), i),
      Flatten(Select(indices.shape, layout.otherDims), o))
        <==> op.StartsFit(shape, indices, resultShape, result)
  {
    hide Filter, Product, Range, Flatten, GatherOp.BatchPositions, PositionIndex, GatherOp.Readable, GatherOp.StartFits,
      Gathering, Classified, Paired, BatchingOrder, BatchesLead, RowShape, Indexing, Sizes, Geometry.IndexElements,
        IndexAt, Find, PartsOf;
    LayoutBounds(op, shape, c, lo, hi);
    ComponentCount(c, lo, hi);
    var g, b := GeometryOf(c, Bi, M), Flatten(Sizes(c.dims[..lo]), i);
    var m := ItemOf(indices, layout, o);
    if lo == hi {
      ZeroComponent(op, indices, c, layout, Bi, M, value, values, b, m);
      if |op.startIndexMap| > 0 { var k := ComponentAt(op, shape, indices, resultShape, result, c, lo, hi, 0); }
    } else {
      forall k: nat | k < hi - lo
        ensures 0 <= c.columns[k] ==> c.columns[k] < |op.startIndexMap|
        ensures 0 <= IndexAt(g, values.data, b, m, k) <= c.sizes[k] - c.windows[k]
           <==> (0 <= c.columns[k] ==> op.StartFits(shape, indices, resultShape, result, c.columns[k]))
      {
        ComponentFits(op, shape, indices, resultShape, result, dims, c, lo, hi, layout, Bi, M, value, values, i, o, w,
          r, k);
      }
      if InBounds(g, values.data, b, m) {
        forall j: nat | j < |op.startIndexMap| ensures op.StartFits(shape, indices, resultShape, result, j) {
          var k := ComponentAt(op, shape, indices, resultShape, result, c, lo, hi, j);
        }
      }
    }
  }

  /// Every start index is some component's.
  lemma ComponentAt(op: GatherOp, shape: seq<nat>, indices: Tensor<int>, resultShape: seq<nat>, result: seq<nat>,
                    c: Canonical, lo: nat, hi: nat, j: nat)
    returns (k: nat)
    requires op.Readable(shape, indices, resultShape, result) && Gathering(op, shape, c, lo, hi)
      && j < |op.startIndexMap|
    ensures k < hi - lo && k < |c.columns| && c.columns[k] == j
  {
    hide Filter, Product, RowShape, IsPermutation, GatherOp.HasResultShape, Laid;
    var d := op.startIndexMap[j];
    DistinctApart(op.startIndexMap, op.operandBatchingDims);
    PermutationNames(c.permutation, d);
    var p := Find(c.permutation, d);
    if !(lo <= p < hi) { NoStart(op, shape, indices, resultShape, result, c, lo, hi, p); }
    k := p - lo;
    ComponentColumn(op, shape, c, lo, hi, k);
    FindAt(op.startIndexMap, j);
  }

  lemma PermutationNames(perm: seq<nat>, d: nat)
    requires IsPermutation(perm) && d < |perm|
    ensures d in perm && Find(perm, d) < |perm| && perm[Find(perm, d)] == d
  {}

  /// With nothing indexed the one component is 0.
  lemma ZeroComponent(op: GatherOp, indices: Tensor<int>, c: Canonical, layout: IndexLayout, Bi: nat, M: nat,
                      value: Tensor<int>, values: Tensor<int>, b: nat, m: nat)
    requires Indexing(op, indices, c, layout, Bi, M, value, values) && c.columns == [-1] && c.sizes == [1]
    requires Names(c.rowDims, |c.dims|) && GeometryOf(c, Bi, M).Valid()
      && |values.data| == GeometryOf(c, Bi, M).IndexElements()
    requires b < c.B && m < M
    ensures IndexAt(GeometryOf(c, Bi, M), values.data, b, m, 0) == 0
  {
    hide Filter, Product, RowShape, Flatten, Paged;
    PageShapes(layout, indices, value);
    PageOrder(c, Bi, M, values, b, m, 0);
    assert SelectedAt(value, c.columns, values, [if Bi == 1 then 0 else b, 0, m]);
  }

  /// The element of the operand that the kernel moves.
  lemma MovedElement<T>(op: GatherOp, operand: Tensor<T>, indices: Tensor<int>, resultShape: seq<nat>, result: seq<nat>,
                        dims: seq<OperandDim>, c: Canonical, lo: nat, hi: nat, layout: IndexLayout, Bi: nat, M: nat,
                        value: Tensor<int>, values: Tensor<int>, i: seq<nat>, o: seq<nat>, w: seq<nat>, r: seq<nat>,
                          coords: seq<nat>)
    requires operand.Valid() && op.Readable(operand.shape, indices, resultShape, result)
    requires Lowering(op, operand.shape, indices, resultShape, dims, c, lo, hi, layout, Bi, M, value, values)
    requires PartsOf(op, operand.shape, indices, resultShape, result, c, lo, hi, layout, i, o, w, r)
    requires InShape(Sizes(c.dims[..lo]), i) && InShape(Select(indices.shape, layout.otherDims), o)
      && InShape(c.windows, w)
    requires InShape(Sizes(c.dims[hi..]), r)
    requires Flatten(Sizes(c.dims[..lo]), i) < c.B && ItemOf(indices, layout, o) < M
    requires coords == Coords(GeometryOf(c, Bi, M), values.data, Flatten(Sizes(c.dims[..lo]), i),
      ItemOf(indices, layout, o))
    requires WindowRowIndex(c, w) < GeometryOf(c, Bi, M).W() && ElementIndex(c, hi, w, r) < GeometryOf(c, Bi, M).Width()
    requires IsPermutation(c.permutation) && |c.permutation| == |operand.shape|
    ensures |Permute(operand, c.permutation).data| == GeometryOf(c, Bi, M).TableElements()
    ensures InShape(operand.shape, op.OperandIndex(operand.shape, indices, resultShape, result))
    ensures Permute(operand, c.permutation).data[SlicePlace(GeometryOf(c, Bi, M), coords,
      Flatten(Sizes(c.dims[..lo]), i), WindowRowIndex(c, w))
              + ElementIndex(c, hi, w, r)]
         == operand.At(op.OperandIndex(operand.shape, indices, resultShape, result))
  {
    hide Filter, Product, Range, Flatten, GatherOp.BatchPositions, GatherOp.StartPlace, PositionIndex,
         GatherOp.Readable, IsPermutation,
      Classified, Paired, BatchingOrder, BatchesLead, RowShape, Indexing, Geometry.IndexElements, IndexAt, Find,
        PartsOf,
      Coords, Joined, Plus, ItemOf, WindowRowIndex, ElementIndex, SlicePlace, Laid, Geometry.Valid, Gathering,
        Geometry.W, Geometry.Width,
      Geometry.TableElements, GatherOp.OperandIndex, Permute, Unpermuted, InShape;
    var shape := operand.shape;
    LayoutBounds(op, shape, c, lo, hi);
    ComponentCount(c, lo, hi);
    PermutedSizes(op, shape, c, lo, hi);
    TableElementCount(c, lo, hi, Bi, M);
    op.OperandIndexInShape(shape, indices, resultShape, result);
    RankOf(c.windows, w);
    SliceAt(c, lo, hi, Bi, M, i, coords, w, r);
    var joined := Joined(lo, hi, i, Plus(coords, w), r);
    RankOf(Sizes(c.dims), joined);
    forall p: nat | p < |shape|
      ensures |joined| == |shape| && c.permutation[p] < |shape|
      ensures joined[p] == OperandIndexAt(op, shape, indices, resultShape, result, c.permutation[p])
    {
      JoinedAt(op, shape, indices, resultShape, result, dims, c, lo, hi, layout, Bi, M, value, values, i, o, w, r,
        coords, p);
    }
    PermuteAt(operand, c.permutation, joined);
    SameUnpermuted(op.OperandIndex(shape, indices, resultShape, result), joined, c.permutation);
  }

  lemma RankOf(shape: seq<nat>, index: seq<nat>)
    requires InShape(shape, index)
    ensures |index| == |shape|
  {}

  lemma PermutedSizes(op: GatherOp, shape: seq<nat>, c: Canonical, lo: nat, hi: nat)
    requires Gathering(op, shape, c, lo, hi)
    ensures Names(c.permutation, |shape|) && Sizes(c.dims) == Select(shape, c.permutation)
  {
    hide Find, IsPermutation, Laid, NeedsComponent;
  }

  lemma SameUnpermuted(index: seq<nat>, permuted: seq<nat>, perm: seq<nat>)
    requires IsPermutation(perm) && |permuted| == |perm| == |index|
    requires forall p :: 0 <= p < |perm| ==> permuted[p] == index[perm[p]]
    ensures Unpermuted(permuted, perm) == index
  {
    var u := Unpermuted(permuted, perm);
    forall d: nat | d < |perm| ensures u[d] == index[d] {
      assert d in perm;
      var p :| 0 <= p < |perm| && perm[p] == d;
      assert u[perm[p]] == permuted[p];
    }
  }

  /// The permutation is one, and lays the moved rows out in the result's shape.
  lemma PermutationOfRoles(op: GatherOp, shape: seq<nat>, indices: Tensor<int>, resultShape: seq<nat>,
                           c: Canonical, lo: nat, hi: nat, layout: IndexLayout, permutation: seq<nat>)
    requires op.Constraints(shape, indices.shape) && op.HasResultShape(shape, indices.shape, resultShape)
      && lo <= hi <= |c.permutation|
    requires |permutation| == |resultShape| == |Enumerated(op, c.permutation, lo, hi, layout.otherDims)|
    requires forall pos :: 0 <= pos < |permutation| ==>
      HasRole(op, shape, indices.shape, resultShape, c, lo, hi, layout, pos, permutation[pos])
    ensures IsPermutation(permutation)
  {
    hide GatherOp.Constraints, GatherOp.HasResultShape, RoleOf, Enumerated;
    forall pos | 0 <= pos < |permutation| ensures permutation[pos] < |permutation| {
      assert HasRole(op, shape, indices.shape, resultShape, c, lo, hi, layout, pos, permutation[pos]);
    }
    forall a, b | 0 <= a < b < |permutation| ensures permutation[a] != permutation[b] {
      assert HasRole(op, shape, indices.shape, resultShape, c, lo, hi, layout, a, permutation[a]);
      assert HasRole(op, shape, indices.shape, resultShape, c, lo, hi, layout, b, permutation[b]);
      if permutation[a] == permutation[b] {
        RolesDistinct(op, shape, indices.shape, resultShape, a, b);
      }
    }
    DistinctIsPermutation(permutation);
  }

  /// The result index's values, moved dimension by moved dimension.
  lemma UnpermutedIndex(op: GatherOp, shape: seq<nat>, indices: Tensor<int>, resultShape: seq<nat>, result: seq<nat>,
                        c: Canonical, lo: nat, hi: nat, layout: IndexLayout, permutation: seq<nat>)
    requires op.Readable(shape, indices, resultShape, result) && lo <= hi <= |c.permutation|
    requires |permutation| == |resultShape| == |Enumerated(op, c.permutation, lo, hi, layout.otherDims)|
      && IsPermutation(permutation)
    requires forall pos :: 0 <= pos < |permutation| ==>
      HasRole(op, shape, indices.shape, resultShape, c, lo, hi, layout, pos, permutation[pos])
    requires ValidRoles(op, shape, indices.shape, Enumerated(op, c.permutation, lo, hi, layout.otherDims))
    ensures |result| == |permutation|
    ensures Unpermuted(result, permutation)
         == ValuesOf(op, shape, indices, resultShape, result, Enumerated(op, c.permutation, lo, hi, layout.otherDims))
  {
    hide GatherOp.Constraints, GatherOp.HasResultShape, RoleOf, Enumerated, ValueFor, RoleValid, Unpermuted,
         IsPermutation;
    var roles := Enumerated(op, c.permutation, lo, hi, layout.otherDims);
    var v := ValuesOf(op, shape, indices, resultShape, result, roles);
    forall pos | 0 <= pos < |permutation| ensures permutation[pos] < |v| && result[pos] == v[permutation[pos]] {
      assert HasRole(op, shape, indices.shape, resultShape, c, lo, hi, layout, pos, permutation[pos]);
      RoleValues(op, shape, indices, resultShape, result, pos);
    }
    SameUnpermuted(v, result, permutation);
  }

  /// The moved rows' extents, in the result's order.
  lemma PermutedExtents(op: GatherOp, shape: seq<nat>, indices: Tensor<int>, resultShape: seq<nat>,
                        c: Canonical, lo: nat, hi: nat, layout: IndexLayout, permutation: seq<nat>)
    requires op.Constraints(shape, indices.shape) && op.HasResultShape(shape, indices.shape, resultShape)
      && lo <= hi <= |c.permutation|
    requires |permutation| == |resultShape|
      && Names(permutation, |Enumerated(op, c.permutation, lo, hi, layout.otherDims)|)
    requires forall pos :: 0 <= pos < |permutation| ==>
      HasRole(op, shape, indices.shape, resultShape, c, lo, hi, layout, pos, permutation[pos])
    requires ValidRoles(op, shape, indices.shape, Enumerated(op, c.permutation, lo, hi, layout.otherDims))
    ensures Select(ExtentsOf(op, shape, indices.shape, Enumerated(op, c.permutation, lo, hi, layout.otherDims)),
      permutation) == resultShape
  {
    hide GatherOp.Constraints, GatherOp.HasResultShape, RoleOf, Enumerated, ExtentFor, RoleValid;
    forall pos | 0 <= pos < |permutation|
      ensures ExtentsOf(op, shape, indices.shape,
        Enumerated(op, c.permutation, lo, hi, layout.otherDims))[permutation[pos]] == resultShape[pos]
    {
      assert HasRole(op, shape, indices.shape, resultShape, c, lo, hi, layout, pos, permutation[pos]);
      RoleExtents(op, shape, indices.shape, resultShape, pos);
    }
  }

  // ---- when the lowering accepts ----

  lemma {:induction false} FilterFull(dims: seq<nat>, keep: nat -> bool)
    ensures |Filter(dims, keep)| == |dims| <==> forall i :: 0 <= i < |dims| ==> keep(dims[i])
  {
    if dims != [] { FilterFull(dims[1..], keep); }
  }

  /// A permutation's dimensions: those in `left`, and those the filter keeps.
  lemma FilterCount(perm: seq<nat>, left: seq<nat>, keep: nat -> bool)
    requires IsPermutation(perm) && Distinct(left) && Names(left, |perm|)
    requires forall d: nat :: keep(d) <==> d !in left
    ensures |Filter(perm, keep)| + |left| == |perm|
  {
    hide Elements, Filter, Below;
    var kept := Filter(perm, keep);
    FilterDistinct(perm, keep);
    DistinctSize(kept);
    DistinctSize(left);
    DistinctSize(perm);
    assert Elements(kept) !! Elements(left);
    assert Elements(kept) + Elements(left) == Elements(perm);
  }

  lemma BatchingCount(op: GatherOp, shape: seq<nat>, indexShape: seq<nat>)
    requires op.Constraints(shape, indexShape)
    ensures |BatchingOrder(op, |shape|)| == |op.operandBatchingDims|
  {
    hide Filter, Range;
    DistinctApart(op.collapsedDims, op.operandBatchingDims);
    FilterDistinct(Range(|shape|), IsBatching(op));
    forall d: nat | d in op.operandBatchingDims ensures d in BatchingOrder(op, |shape|) {
      assert Range(|shape|)[d] == d;
    }
    SameElementsSize(BatchingOrder(op, |shape|), op.operandBatchingDims);
  }

  /// The moved rows have as many dimensions as the result just when every
  /// collapsed dimension is a component.
  lemma RankAccepted(op: GatherOp, shape: seq<nat>, indexShape: seq<nat>, resultShape: seq<nat>,
                     perm: seq<nat>, lo: nat, hi: nat, layout: IndexLayout)
    requires op.Constraints(shape, indexShape) && op.HasResultShape(shape, indexShape, resultShape)
    requires IsPermutation(perm) && |perm| == |shape| && lo <= hi <= |perm|
    requires layout.Valid(|indexShape|) && layout.vectorDim == op.indexVectorDim
    requires layout.batchDims == Paired(op, BatchingOrder(op, |shape|))
    ensures |Enumerated(op, perm, lo, hi, layout.otherDims)| == |resultShape| <==>
      CollapsedAreComponents(op, perm, lo, hi)
  {
    hide Filter, Range, Paired, BatchingOrder, IsPermutation;
    layout.OrderIsPermutation(|indexShape|);
    op.IndexDimsAre(|indexShape|);
    BatchingCount(op, shape, indexShape);
    DistinctApart(op.collapsedDims, op.operandBatchingDims);
    FilterCount(perm, op.collapsedDims, NotCollapsed(op));
    FilterConcat(perm[..lo], perm[lo..hi] + perm[hi..], NotCollapsed(op));
    FilterConcat(perm[lo..hi], perm[hi..], NotCollapsed(op));
    assert perm == perm[..lo] + (perm[lo..hi] + perm[hi..]);
    FilterFull(perm[..lo], NotCollapsed(op));
    FilterFull(perm[hi..], NotCollapsed(op));
    OutsideRegion(op, perm, lo, hi);
  }

  lemma OutsideRegion(op: GatherOp, perm: seq<nat>, lo: nat, hi: nat)
    requires lo <= hi <= |perm|
    ensures CollapsedAreComponents(op, perm, lo, hi) <==> (
      && (forall i :: 0 <= i < lo ==> NotCollapsed(op)(perm[..lo][i]))
      && (forall i :: 0 <= i < |perm| - hi ==> NotCollapsed(op)(perm[hi..][i])))
  {
    assert forall p :: hi <= p < |perm| ==> perm[p] == perm[hi..][p - hi];
    assert forall p :: 0 <= p < lo ==> perm[p] == perm[..lo][p];
  }

  // ---- the layout, from the lowering's steps ----

  lemma SlicesFit(op: GatherOp, shape: seq<nat>, indexShape: seq<nat>, resultShape: seq<nat>, dims: seq<OperandDim>)
    requires op.Constraints(shape, indexShape) && op.HasResultShape(shape, indexShape, resultShape)
      && Classified(op, shape, dims)
    requires forall d :: 0 <= d < |resultShape| ==> resultShape[d] > 0
    ensures WindowsFit(dims)
  {
    hide Filter, Find, GatherOp.IndexDims, GatherOp.BatchPositions;
    forall d | 0 <= d < |dims| && dims[d].kind != Batch ensures 1 <= dims[d].window <= dims[d].size {
      if d !in op.collapsedDims {
        assert Range(|shape|)[d] == d;
        var j := Find(op.OffsetOperandDims(|shape|), d);
        assert resultShape[op.offsetDims[j]] == op.sliceSizes[d];
      }
    }
  }

  lemma LaidForGather(op: GatherOp, shape: seq<nat>, dims: seq<OperandDim>, c: Canonical, lo: nat, hi: nat)
    requires Classified(op, shape, dims) && IsCanonical(dims, c, lo, hi) && WindowsFit(dims)
    requires CollapsedAreComponents(op, c.permutation, lo, hi)
    ensures Gathering(op, shape, c, lo, hi) && (lo < hi ==> BatchesLead(dims, c.permutation, lo))
  {
    hide Filter, Find, BatchesLead, IsPermutation, Product, Laid;
    CanonicalIsLaid(dims, c, lo, hi);
    PermutationBelow(c.permutation);
  }

  /// Canonical columns name index components.
  lemma ColumnsNamed(op: GatherOp, shape: seq<nat>, indexShape: seq<nat>, dims: seq<OperandDim>, c: Canonical, lo: nat,
                     hi: nat)
    requires op.Constraints(shape, indexShape) && Classified(op, shape, dims) && IsCanonical(dims, c, lo, hi)
    ensures |c.columns| > 0 && forall k :: 0 <= k < |c.columns| ==> c.columns[k] < op.Components(indexShape)
  {
    hide Filter, Find, BatchesLead, Product, GatherOp.IndexDims;
    forall k | 0 <= k < |c.columns| ensures c.columns[k] < op.Components(indexShape) {
      if lo < hi { assert c.columns[k] == ColumnOf(c.dims[lo..hi][k]); }
    }
  }

  /// The moved rows' shape is the enumeration's extents.
  lemma MovedShape(op: GatherOp, shape: seq<nat>, indices: Tensor<int>, resultShape: seq<nat>, result: seq<nat>,
                   c: Canonical, lo: nat, hi: nat, layout: IndexLayout, flags: seq<bool>, r: ResultDims)
    requires op.Readable(shape, indices, resultShape, result) && Gathering(op, shape, c, lo, hi)
    requires layout.Valid(|indices.shape|) && layout.vectorDim == op.indexVectorDim
      && Names(layout.otherDims, |indices.shape|)
    requires Flags(op, c.permutation, lo, hi, flags) && Enumerates(c, lo, hi, layout, indices.shape, flags, r)
    ensures ValidRoles(op, shape, indices.shape, Enumerated(op, c.permutation, lo, hi, layout.otherDims))
    ensures r.shape == ExtentsOf(op, shape, indices.shape, Enumerated(op, c.permutation, lo, hi, layout.otherDims))
  {
    hide GatherOp.Readable, Filter, Gathering, SliceExtents, SlicePositions, ExtentsOf, ValuesOf, ValidRoles,
         Enumerated,
      GatherOp.BatchPositions, Sizes, Windows, Kept, PositionIndex, Interval, NotCollapsed, WindowPlace, RowsFrom;
    LayoutBounds(op, shape, c, lo, hi);
    RegionExtents(op, shape, c, lo, hi);
    EnumeratedParts(op, shape, indices, resultShape, result, c, lo, hi, layout);
    WindowList(c, lo, hi);
    var part := c.permutation[lo..hi];
    if lo < hi {
      KeptSelect(SliceExtents(op, shape), part, flags);
      forall k | 0 <= k < hi - lo ensures flags[k] == NotCollapsed(op)(part[k]) {
        assert part[k] == c.permutation[lo + k];
      }
      KeptIsFilter(part, flags, NotCollapsed(op));
    } else {
      FilterNone([], NotCollapsed(op));
      NothingKept(c.windows, flags);
    }
  }

  lemma WindowList(c: Canonical, lo: nat, hi: nat)
    requires Laid(c, lo, hi)
    ensures c.windows == if lo < hi then Windows(c.dims[lo..hi]) else [1]
  {
    hide Product, RowShape;
  }

  lemma ResultInShape(op: GatherOp, shape: seq<nat>, indices: Tensor<int>, resultShape: seq<nat>, result: seq<nat>)
    requires op.Readable(shape, indices, resultShape, result)
    ensures InShape(resultShape, result)
  {
    hide GatherOp.Constraints, GatherOp.HasResultShape;
  }

  /// The rows the kernel moves, permuted, are the operation's result.
  lemma MovedIsGather<T>(op: GatherOp, operand: Tensor<T>, indices: Tensor<int>, fill: bool, zero: T,
                         resultShape: seq<nat>,
                         dims: seq<OperandDim>, c: Canonical, lo: nat, hi: nat, layout: IndexLayout, Bi: nat, M: nat,
                         value: Tensor<int>, values: Tensor<int>, permutation: seq<nat>, moved: Tensor<T>,
                           result: seq<nat>)
    requires operand.Valid() && op.Readable(operand.shape, indices, resultShape, result)
    requires Lowering(op, operand.shape, indices, resultShape, dims, c, lo, hi, layout, Bi, M, value, values)
    requires IsPermutation(c.permutation) && |c.permutation| == |operand.shape| && lo <= hi <= |c.permutation|
    requires |Permute(operand, c.permutation).data| == GeometryOf(c, Bi, M).TableElements()
    requires |permutation| == |resultShape| == |Enumerated(op, c.permutation, lo, hi, layout.otherDims)|
      && IsPermutation(permutation)
    requires forall pos :: 0 <= pos < |permutation| ==>
      HasRole(op, operand.shape, indices.shape, resultShape, c, lo, hi, layout, pos, permutation[pos])
    requires ValidRoles(op, operand.shape, indices.shape, Enumerated(op, c.permutation, lo, hi, layout.otherDims))
    requires moved.Valid() && moved.shape
      == ExtentsOf(op, operand.shape, indices.shape, Enumerated(op, c.permutation, lo, hi, layout.otherDims))
    requires moved.data == RowsGather(GeometryOf(c, Bi, M), Permute(operand, c.permutation).data, values.data, fill,
      zero)
    requires Permute(moved, permutation).shape == resultShape
    ensures Permute(moved, permutation).At(result)
      == GatherElement(op, operand, indices, fill, zero, resultShape, result)
  {
    hide Filter, Product, Range, Flatten, GatherOp.BatchPositions, GatherOp.StartPlace, PositionIndex,
         GatherOp.Readable, IsPermutation,
      Classified, Paired, BatchingOrder, BatchesLead, RowShape, Geometry.IndexElements, IndexAt, Find, PartsOf,
      Coords, Joined, Plus, WindowRowIndex, ElementIndex, SlicePlace, Laid, Geometry.Valid, Gathering, Geometry.W,
        Geometry.Width,
      Geometry.TableElements, GatherOp.OperandIndex, Permute, Unpermuted, InShape, RowsGather, Enumerated, ExtentsOf,
        ValuesOf, HasRole,
      ValidRoles, Select, Sizes, GatherOp.StartsFit, InBounds, Geometry.MovedPlace, Geometry.MovedElements, Paged,
        Selected;
    var shape, g := operand.shape, GeometryOf(c, Bi, M);
    LayoutBounds(op, shape, c, lo, hi);
    ResultInShape(op, shape, indices, resultShape, result);
    PermuteAt(moved, permutation, result);
    UnpermutedIndex(op, shape, indices, resultShape, result, c, lo, hi, layout, permutation);
    var i, o, w, r := MovedFrom(op, shape, indices, resultShape, result, c, lo, hi, layout, Bi, M);
    var b, m, j, e := Flatten(Sizes(c.dims[..lo]), i), ItemOf(indices, layout, o), WindowRowIndex(c, w),
      ElementIndex(c, hi, w, r);
    RowsGatherAt(g, Permute(operand, c.permutation).data, values.data, fill, zero, b, m, j, e);
    FillAgrees(op, shape, indices, resultShape, result, dims, c, lo, hi, layout, Bi, M, value, values, i, o, w, r);
    MovedElement(op, operand, indices, resultShape, result, dims, c, lo, hi, layout, Bi, M, value, values, i, o, w, r,
                 Coords(g, values.data, b, m));
  }

  // ---- the whole lowering ----

  datatype Lowered<T> = Rejected | Accepted(result: Tensor<T>)

  lemma PlacingHolds(op: GatherOp, shape: seq<nat>, indexShape: seq<nat>, resultShape: seq<nat>, dims: seq<OperandDim>,
                     c: Canonical, lo: nat, hi: nat, layout: IndexLayout, flags: seq<bool>, r: ResultDims)
    requires op.Constraints(shape, indexShape) && op.HasResultShape(shape, indexShape, resultShape)
    requires Classified(op, shape, dims) && IsCanonical(dims, c, lo, hi) && Located(c, lo, hi)
    requires Flags(op, c.permutation, lo, hi, flags) && Enumerates(c, lo, hi, layout, indexShape, flags, r)
    requires layout.vectorDim == op.indexVectorDim && layout.Valid(|indexShape|)
    requires layout.batchDims == Paired(op, BatchingOrder(op, |shape|))
    ensures Placing(op, shape, indexShape, resultShape, c, lo, hi, layout, flags, r)
  {
    hide Filter, Paired, BatchingOrder, BatchesLead, Enumerates, Flags, Product, IndexLayout.Valid;
    PairedValid(op, shape, indexShape);
    DistinctApart(op.collapsedDims, op.operandBatchingDims);
    forall i | 0 <= i < |op.operandBatchingDims| ensures !(lo <= Find(c.permutation, op.operandBatchingDims[i]) < hi) {
      var d := op.operandBatchingDims[i];
      PermutationNames(c.permutation, d);
      assert dims[d].kind == Batch;
    }
  }

  lemma LocatedHolds(dims: seq<OperandDim>, c: Canonical, lo: nat, hi: nat)
    requires IsCanonical(dims, c, lo, hi)
    ensures Located(c, lo, hi) && |c.dims| == |dims| && |c.sizes| == |c.columns| == |c.windows| > 0
    ensures Names(c.rowDims, |c.dims|)
  {
    hide BatchesLead, Filter, Product, NeedsComponent, IsPermutation;
  }

  lemma LoweringHolds(op: GatherOp, shape: seq<nat>, indices: Tensor<int>, resultShape: seq<nat>, dims: seq<OperandDim>,
                      c: Canonical, lo: nat, hi: nat, layout: IndexLayout, Bi: nat, M: nat, value: Tensor<int>,
                        values: Tensor<int>)
    requires op.Constraints(shape, indices.shape) && op.HasResultShape(shape, indices.shape, resultShape)
    requires forall d :: 0 <= d < |resultShape| ==> resultShape[d] > 0
    requires Classified(op, shape, dims) && IsCanonical(dims, c, lo, hi)
      && CollapsedAreComponents(op, c.permutation, lo, hi)
    requires Indexing(op, indices, c, layout, Bi, M, value, values)
      && layout.batchDims == Paired(op, BatchingOrder(op, |shape|))
    requires Bi == 1 || Bi == c.B
    ensures Lowering(op, shape, indices, resultShape, dims, c, lo, hi, layout, Bi, M, value, values)
    ensures IsPermutation(c.permutation) && |c.permutation| == |shape|
    ensures GeometryOf(c, Bi, M).TableElements() == Product(Sizes(c.dims))
      && Sizes(c.dims) == Select(shape, c.permutation)
  {
    hide Filter, Find, Product, Paired, BatchingOrder, BatchesLead, Flatten, Paged, Gathering, IsCanonical, Classified,
         CollapsedAreComponents,
      GatherOp.HasResultShape, Geometry.IndexElements, RowShape, Geometry.Valid, Laid, WindowsFit;
    SlicesFit(op, shape, indices.shape, resultShape, dims);
    LaidForGather(op, shape, dims, c, lo, hi);
    LayoutBounds(op, shape, c, lo, hi);
    PermutationBelow(c.permutation);
    PermutedSizes(op, shape, c, lo, hi);
    LocatedHolds(dims, c, lo, hi);
    GeometryValid(c, lo, hi, Bi, M);
    TableElementCount(c, lo, hi, Bi, M);
    PageShapes(layout, indices, value);
    IndexCount(c, Bi, M, values);
  }

  lemma IndexCount(c: Canonical, Bi: nat, M: nat, values: Tensor<int>)
    requires |c.sizes| > 0 && Names(c.rowDims, |c.dims|) && values.Valid() && values.shape == [Bi, |c.sizes|, M]
    ensures |values.data| == GeometryOf(c, Bi, M).IndexElements()
  {
    hide RowShape, Product;
    ProductOfThree(values.shape);
  }

  /// The operand as a table, for any order of its dimensions.
  method BuildTable<T>(operand: Tensor<T>, permutation: seq<nat>) returns (table: seq<T>)
    requires operand.Valid() && IsPermutation(permutation) && |permutation| == |operand.shape|
    ensures table == Permute(operand, permutation).data
  {
    hide Range, Permute, IsPermutation;
    PermuteRange(operand);
    if permutation == Range(|permutation|) { return operand.data; }
    table := Permute(operand, permutation).data;
  }

  /// Lays the moved rows out as the result.
  method ReshapeAndPermute<T>(moved: Tensor<T>, permutation: seq<nat>) returns (result: Tensor<T>)
    requires moved.Valid() && IsPermutation(permutation) && |permutation| == |moved.shape|
    ensures result == Permute(moved, permutation)
  {
    hide Range, Permute, IsPermutation;
    PermuteRange(moved);
    if permutation == Range(|permutation|) { return moved; }
    result := Permute(moved, permutation);
  }

  lemma EmptyGather<T>(op: GatherOp, operand: Tensor<T>, indices: Tensor<int>, fill: bool, zero: T, result: Tensor<T>)
    requires operand.Valid() && indices.Valid() && op.Constraints(operand.shape, indices.shape)
    requires result.Valid() && op.HasResultShape(operand.shape, indices.shape, result.shape)
      && Product(result.shape) == 0
    ensures IsGather(op, operand, indices, fill, zero, result)
  {
    hide GatherOp.Constraints, GatherOp.HasResultShape;
    forall index | InShape(result.shape, index)
      ensures result.At(index) == GatherElement(op, operand, indices, fill, zero, result.shape, index)
    {
      FlattenBound(result.shape, index);
    }
  }

  /// The result of an accepted gather.
  lemma GatherDone<T>(op: GatherOp, operand: Tensor<T>, indices: Tensor<int>, fill: bool, zero: T,
                      resultShape: seq<nat>,
                      dims: seq<OperandDim>, c: Canonical, lo: nat, hi: nat, layout: IndexLayout, Bi: nat, M: nat,
                      value: Tensor<int>, values: Tensor<int>, flags: seq<bool>, r: ResultDims, permutation: seq<nat>,
                        moved: seq<T>)
    requires operand.Valid() && op.Constraints(operand.shape, indices.shape)
      && op.HasResultShape(operand.shape, indices.shape, resultShape)
    requires Product(resultShape) > 0
    requires Lowering(op, operand.shape, indices, resultShape, dims, c, lo, hi, layout, Bi, M, value, values)
    requires IsPermutation(c.permutation) && |c.permutation| == |operand.shape|
    requires Flags(op, c.permutation, lo, hi, flags) && Enumerates(c, lo, hi, layout, indices.shape, flags, r)
    requires |permutation| == |resultShape| == |r.shape| == |Enumerated(op, c.permutation, lo, hi, layout.otherDims)|
    requires forall pos :: 0 <= pos < |permutation| ==>
      HasRole(op, operand.shape, indices.shape, resultShape, c, lo, hi, layout, pos, permutation[pos])
    requires |Permute(operand, c.permutation).data| == GeometryOf(c, Bi, M).TableElements()
    requires moved == RowsGather(GeometryOf(c, Bi, M), Permute(operand, c.permutation).data, values.data, fill, zero)
    ensures IsPermutation(permutation) && |moved| == Product(r.shape)
    ensures Permute(Tensor(r.shape, moved), permutation).shape == resultShape
    ensures IsGather(op, operand, indices, fill, zero, Permute(Tensor(r.shape, moved), permutation))
  {
    hide Filter, Find, Product, Paired, BatchingOrder, BatchesLead, Flatten, Paged, Gathering, Classified, Selected,
      GatherOp.HasResultShape, GatherOp.Constraints, Geometry.IndexElements, RowShape, Geometry.Valid, Laid,
        Enumerated, HasRole, Flags, Enumerates,
      Permute, IsPermutation, RowsGather, Select, ExtentsOf, ValidRoles, Unflatten, Geometry.TableElements, Names,
      GatherOp.Readable, InShape, GatherElement;
    LayoutBounds(op, operand.shape, c, lo, hi);
    PermutationOfRoles(op, operand.shape, indices, resultShape, c, lo, hi, layout, permutation);
    var first := SomeElement(op, operand.shape, indices, resultShape);
    MovedShape(op, operand.shape, indices, resultShape, first, c, lo, hi, layout, flags, r);
    PermutationBelow(permutation);
    PermutedExtents(op, operand.shape, indices, resultShape, c, lo, hi, layout, permutation);
    MovedExtent(op, operand.shape, indices, resultShape, first, c, lo, hi, layout, Bi, M, r.shape);
    var tensor := Tensor(r.shape, moved);
    var result := Permute(tensor, permutation);
    forall index | InShape(resultShape, index)
      ensures op.Readable(operand.shape, indices, resultShape, index)
      ensures result.At(index) == GatherElement(op, operand, indices, fill, zero, resultShape, index)
    {
      IsReadable(op, operand.shape, indices, resultShape, index);
      MovedIsGather(op, operand, indices, fill, zero, resultShape, dims, c, lo, hi, layout, Bi, M, value, values,
        permutation, tensor, index);
    }
  }

  lemma IsReadable(op: GatherOp, shape: seq<nat>, indices: Tensor<int>, resultShape: seq<nat>, index: seq<nat>)
    requires indices.Valid() && op.Constraints(shape, indices.shape)
      && op.HasResultShape(shape, indices.shape, resultShape)
    requires InShape(resultShape, index)
    ensures op.Readable(shape, indices, resultShape, index)
  {
    hide GatherOp.Constraints, GatherOp.HasResultShape;
  }

  lemma SomeElement(op: GatherOp, shape: seq<nat>, indices: Tensor<int>, resultShape: seq<nat>)
    returns (index: seq<nat>)
    requires indices.Valid() && op.Constraints(shape, indices.shape)
      && op.HasResultShape(shape, indices.shape, resultShape)
    requires Product(resultShape) > 0
    ensures op.Readable(shape, indices, resultShape, index)
  {
    hide GatherOp.Constraints, GatherOp.HasResultShape;
    UnflattenInShape(resultShape, 0);
    index := Unflatten(resultShape, 0);
  }

  lemma MovedExtent(op: GatherOp, shape: seq<nat>, indices: Tensor<int>, resultShape: seq<nat>, result: seq<nat>,
                    c: Canonical, lo: nat, hi: nat, layout: IndexLayout, Bi: nat, M: nat, extents: seq<nat>)
    requires op.Readable(shape, indices, resultShape, result) && Gathering(op, shape, c, lo, hi)
    requires layout.Valid(|indices.shape|) && layout.vectorDim == op.indexVectorDim
      && Names(layout.otherDims, |indices.shape|)
    requires (Bi == 1 || Bi == c.B) && M == Product(Select(indices.shape, layout.otherDims))
    requires ValidRoles(op, shape, indices.shape, Enumerated(op, c.permutation, lo, hi, layout.otherDims))
    requires extents == ExtentsOf(op, shape, indices.shape, Enumerated(op, c.permutation, lo, hi, layout.otherDims))
    ensures |c.sizes| > 0 && Names(c.rowDims, |c.dims|) && |c.windows| == |c.sizes|
    ensures Product(extents) == GeometryOf(c, Bi, M).MovedElements()
  {
    hide GatherOp.Readable, GatherOp.SlicePosition, GatherOp.SliceExtent, Filter, Gathering, SliceExtents,
         SlicePositions,
      ExtentsOf, ValuesOf, ValidRoles, GatherOp.BatchPositions, Range, Sizes, Windows, Flatten, Product, Enumerated,
        WindowOffsets,
      Geometry.MovedElements, RowShape, Laid, IsPermutation, InShape, NotCollapsed, PositionIndex;
    LayoutBounds(op, shape, c, lo, hi);
    LaidExtents(c, lo, hi);
    EnumeratedParts(op, shape, indices, resultShape, result, c, lo, hi, layout);
    WindowsWithoutCollapsed(op, shape, indices, resultShape, result, c, lo, hi);
    MovedElementCount(c, lo, hi, Bi, M);
    var kept := Select(SliceExtents(op, shape), Filter(c.permutation[lo..hi], NotCollapsed(op)));
    ProductOfFour(Sizes(c.dims[..lo]), Select(indices.shape, layout.otherDims), kept, Sizes(c.dims[hi..]));
  }

  lemma ProductOfFour(a: seq<nat>, b: seq<nat>, c: seq<nat>, d: seq<nat>)
    ensures Product(a + (b + (c + d))) == Product(a) * Product(b) * Product(c) * Product(d)
  {
    hide Product;
    ProductConcat(c, d);
    ProductConcat(b, c + d);
    ProductConcat(a, b + (c + d));
    var p, q, r, s := Product(a), Product(b), Product(c), Product(d);
    MulAssoc(q, r, s);
    MulAssoc(p, q * r, s);
    MulAssoc(p, q, r);
  }

  lemma ShapeRank(op: GatherOp, c: Canonical, lo: nat, hi: nat, layout: IndexLayout, indexShape: seq<nat>,
                  flags: seq<bool>, r: ResultDims)
    requires Located(c, lo, hi) && Flags(op, c.permutation, lo, hi, flags)
      && Enumerates(c, lo, hi, layout, indexShape, flags, r)
    ensures |r.shape| == |Enumerated(op, c.permutation, lo, hi, layout.otherDims)|
  {
    hide Filter, Kept, IsPermutation, Interval;
    KeptCount(op, c, lo, hi, flags);
  }

  /// A gather the lowering accepts computes the operation. It accepts one with
  /// elements just when the operation and the operand's shape meet `Accepts`.
  method LowerGather<T>(op: GatherOp, operand: Tensor<T>, pieces: seq<Tensor<int>>, indexShape: seq<nat>,
                        ghost indices: Tensor<int>, fill: bool, zero: T, resultShape: seq<nat>)
    returns (lowered: Lowered<T>)
    requires operand.Valid() && indices.Valid() && indices.shape == indexShape && |pieces| > 0
    requires op.Constraints(operand.shape, indexShape) && op.HasResultShape(operand.shape, indexShape, resultShape)
    requires if op.HasVector(|indexShape|)
      then Concatenable(pieces, op.indexVectorDim) && indices == ConcatAlong(pieces, op.indexVectorDim)
             else pieces == [indices]
    ensures lowered.Accepted? ==>
      lowered.result.shape == resultShape && IsGather(op, operand, indices, fill, zero, lowered.result)
    ensures lowered.Accepted? ==> forall index :: InShape(resultShape, index) ==>
      && op.Readable(operand.shape, indices, resultShape, index)
      && FromNearest(op, operand, indices, fill, zero, lowered.result, index)
    ensures lowered.Accepted? <==> Product(resultShape) == 0 || Accepts(op, operand.shape)
  {
    hide Product, GatherOp.Constraints, GatherOp.HasResultShape, Filter, Range, Paired, BatchingOrder, IsGather,
         CollapsedAreComponents,
      Classified, IsCanonical, Located, Flags, Enumerates, Placing, HasRole, Lowering, Paged, Selected, Permute,
        RowsGather, Enumerated,
      Concatenable, ConcatAlong, IsPermutation, Geometry.TableElements, Geometry.IndexElements, NothingIndexed, Names,
        Distinct, Sizes,
      OrderOf, Ends, Accepts, FromNearest, GatherOp.Readable;
    lowered := Rejected;
    var elements := Product(resultShape);
    if elements == 0 {
      var empty := Tensor(resultShape, []);
      EmptyGather(op, operand, indices, fill, zero, empty);
      GatherFromNearest(op, operand, indices, fill, zero, empty);
      return Accepted(empty);
    }
    SliceRank(op, operand.shape, indexShape);
    PairedValid(op, operand.shape, indexShape);
    var dims := Classify(op, operand.shape);
    var c, lo, hi := Canonicalize(dims);
    NonEmpty(resultShape);
    AcceptedExactly(op, operand.shape, indexShape, resultShape, dims, c, lo, hi);
    LocatedHolds(dims, c, lo, hi);
    ColumnsNamed(op, operand.shape, indexShape, dims, c, lo, hi);
    var indexBatchingDims := IndexBatchingDims(op, |operand.shape|);
    TableOrder(dims, c, lo, hi);
    var table := BuildTable(operand, c.permutation);
    var layout, Bi, M, values, value :=
      BuildIndices(pieces, indices, indexShape, op.indexVectorDim, indexBatchingDims, c.columns);
    if Bi != 1 && Bi != c.B { return; }
    var flags := ComponentsInResult(op, c, lo, hi);
    FlagCount(op, c, lo, hi, flags);
    var r := EnumerateResultDims(c, lo, hi, layout, indexShape, flags);
    PlacingHolds(op, operand.shape, indexShape, resultShape, dims, c, lo, hi, layout, flags, r);
    var accepted, places := FillPermutation(op, operand.shape, indexShape, resultShape, c, lo, hi, layout, flags, r);
    ShapeRank(op, c, lo, hi, layout, indexShape, flags, r);
    RankAccepted(op, operand.shape, indexShape, resultShape, c.permutation, lo, hi, layout);
    if !accepted { return; }
    LoweringHolds(op, operand.shape, indices, resultShape, dims, c, lo, hi, layout, Bi, M, value, values);
    LoweringParts(op, operand.shape, indices, resultShape, dims, c, lo, hi, layout, Bi, M, value, values);
    var moved := RowsGather(GeometryOf(c, Bi, M), table, values.data, fill, zero);
    RolesAreNat(op, operand.shape, indexShape, resultShape, c, lo, hi, layout, places);
    var permutation := seq(|places|, pos requires 0 <= pos < |places| && places[pos] >= 0 => places[pos] as nat);
    GatherDone(op, operand, indices, fill, zero, resultShape, dims, c, lo, hi, layout, Bi, M, value, values, flags, r,
      permutation, moved);
    var result := ReshapeAndPermute(Tensor(r.shape, moved), permutation);
    GatherFromNearest(op, operand, indices, fill, zero, result);
    lowered := Accepted(result);
  }

  lemma FlagCount(op: GatherOp, c: Canonical, lo: nat, hi: nat, flags: seq<bool>)
    requires Located(c, lo, hi) && Flags(op, c.permutation, lo, hi, flags)
    ensures |flags| == |c.windows|
  {
    hide IsPermutation, Interval;
  }

  lemma LoweringParts(op: GatherOp, shape: seq<nat>, indices: Tensor<int>, resultShape: seq<nat>, dims: seq<OperandDim>,
                      c: Canonical, lo: nat, hi: nat, layout: IndexLayout, Bi: nat, M: nat, value: Tensor<int>,
                        values: Tensor<int>)
    requires Lowering(op, shape, indices, resultShape, dims, c, lo, hi, layout, Bi, M, value, values)
    ensures |c.sizes| > 0 && Names(c.rowDims, |c.dims|) && GeometryOf(c, Bi, M).Valid()
    ensures |values.data| == GeometryOf(c, Bi, M).IndexElements()
  {}

  lemma RolesAreNat(op: GatherOp, shape: seq<nat>, indexShape: seq<nat>, resultShape: seq<nat>,
                    c: Canonical, lo: nat, hi: nat, layout: IndexLayout, places: seq<int>)
    requires op.Constraints(shape, indexShape) && op.HasResultShape(shape, indexShape, resultShape)
      && lo <= hi <= |c.permutation|
    requires |places| == |resultShape|
    requires forall pos :: 0 <= pos < |places| ==>
      HasRole(op, shape, indexShape, resultShape, c, lo, hi, layout, pos, places[pos])
    ensures forall pos :: 0 <= pos < |places| ==> places[pos] >= 0
  {
    hide GatherOp.Constraints, GatherOp.HasResultShape, RoleOf, Enumerated;
    forall pos | 0 <= pos < |places| ensures places[pos] >= 0 {
      assert HasRole(op, shape, indexShape, resultShape, c, lo, hi, layout, pos, places[pos]);
    }
  }
}
