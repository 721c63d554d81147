/// Which gathers the lowering accepts, as a condition on the operation and its shapes.
module GatherAcceptance {
  import opened RowMajor
  import opened Tensors
  import opened CanonicalLayout
  import opened StableHloGather
  import opened GatherDims

  // ---- the condition ----

  /// A start index or a partial slice picks positions of operand dimension d.
  predicate Addressed(op: GatherOp, shape: seq<nat>, d: nat)
    requires d < |shape| == |op.sliceSizes|
  {
    d in op.startIndexMap || (d !in op.operandBatchingDims && op.sliceSizes[d] != shape[d])
  }

  predicate Unaddressed(op: GatherOp, shape: seq<nat>)
    requires |shape| == |op.sliceSizes|
  {
    forall d :: 0 <= d < |shape| ==> !Addressed(op, shape, d)
  }

  predicate BeforeAddressed(op: GatherOp, shape: seq<nat>, d: nat)
    requires |shape| == |op.sliceSizes|
  {
    forall e :: 0 <= e < |shape| && Addressed(op, shape, e) ==> d < e
  }

  predicate BetweenAddressed(op: GatherOp, shape: seq<nat>, d: nat)
    requires |shape| == |op.sliceSizes|
  {
    && (exists e :: 0 <= e < |shape| && e <= d && Addressed(op, shape, e))
    && (exists e :: d <= e < |shape| && Addressed(op, shape, e))
  }

  predicate StaysInPlace(op: GatherOp, shape: seq<nat>, d: nat)
    requires d < |shape| == |op.sliceSizes|
  {
    if d in op.operandBatchingDims then BeforeAddressed(op, shape, d)
    else BeforeAddressed(op, shape, d) ==> shape[d] == 1
  }

  /// Whether an operand with addressed dimensions keeps its dimensions' order:
  /// it has no batching dimensions, or they come before every addressed one and
  /// nothing but extents of 1 does so besides.
  predicate InOrder(op: GatherOp, shape: seq<nat>)
    requires |shape| == |op.sliceSizes|
  {
    op.operandBatchingDims == [] || forall d: nat :: d < |shape| ==> StaysInPlace(op, shape, d)
  }

  predicate UnitBatches(op: GatherOp, shape: seq<nat>) {
    forall d :: 0 <= d < |shape| && d in op.operandBatchingDims ==> shape[d] == 1
  }

  /// The batch test when nothing is addressed. The table then takes every
  /// dimension but the last in its order for a batch, the batching dimensions
  /// first, and must have no more batches than the index tensor or that just one.
  predicate BatchesMatch(op: GatherOp, shape: seq<nat>) {
    var rest := op.OffsetOperandDims(|shape|);
    || UnitBatches(op, shape)
    || (if rest == [] then |shape| > 0 && shape[|shape| - 1] == 1
        else forall d :: 0 <= d < |shape| && d in rest && d != rest[|rest| - 1] ==> shape[d] == 1)
  }

  /// When a gather with elements is accepted.
  predicate Accepts(op: GatherOp, shape: seq<nat>)
    requires |shape| == |op.sliceSizes|
  {
    if Unaddressed(op, shape) then op.collapsedDims == [] && BatchesMatch(op, shape)
    else forall d :: 0 <= d < |shape| && d in op.collapsedDims ==>
      if InOrder(op, shape) then BetweenAddressed(op, shape, d) else Addressed(op, shape, d)
  }

  // ---- the condition over the layout ----

  /// Every collapsed dimension is a component.
  ghost predicate CollapsedAreComponents(op: GatherOp, perm: seq<nat>, lo: nat, hi: nat) {
    forall p :: 0 <= p < |perm| && perm[p] in op.collapsedDims ==> lo <= p < hi
  }

  /// Positions of one index batch.
  ghost function IndexBatches(op: GatherOp, shape: seq<nat>, indexShape: seq<nat>): nat
    requires op.Constraints(shape, indexShape)
  {
    PairedValid(op, shape, indexShape);
    Product(Select(indexShape, Paired(op, BatchingOrder(op, |shape|))))
  }

  /// What the lowering tests on the layout: as many index batches as table
  /// batches, or a single one, and no collapsed dimension but components.
  ghost predicate Acceptable(op: GatherOp, shape: seq<nat>, indexShape: seq<nat>, c: Canonical, lo: nat, hi: nat)
    requires op.Constraints(shape, indexShape)
  {
    && (IndexBatches(op, shape, indexShape) == 1 || IndexBatches(op, shape, indexShape) == c.B)
    && CollapsedAreComponents(op, c.permutation, lo, hi)
  }

  /// The layout Canonicalize gives a gather's operand.
  ghost predicate LaysOut(op: GatherOp, shape: seq<nat>, dims: seq<OperandDim>, c: Canonical, lo: nat, hi: nat) {
    Classified(op, shape, dims) && IsCanonical(dims, c, lo, hi) && c.permutation == OrderOf(dims)
      && Ends(c.dims, lo, hi)
  }

  lemma PermutationBelow(perm: seq<nat>)
    requires IsPermutation(perm)
    ensures Names(perm, |perm|)
  {}

  lemma TableOrder(dims: seq<OperandDim>, c: Canonical, lo: nat, hi: nat)
    requires IsCanonical(dims, c, lo, hi)
    ensures IsPermutation(c.permutation) && |c.permutation| == |dims| == |c.dims| && lo <= hi <= |dims|
    ensures Names(c.permutation, |dims|) && c.dims == Select(dims, c.permutation)
    ensures c.batchDims == Interval(0, lo) && c.componentDims == Interval(lo, hi) && c.rowDims == Interval(hi, |dims|)
  {
    hide IsPermutation, Filter, Product, BatchesLead, NeedsComponent;
    PermutationBelow(c.permutation);
  }

  lemma SliceRank(op: GatherOp, shape: seq<nat>, indexShape: seq<nat>)
    requires op.Constraints(shape, indexShape)
    ensures |op.sliceSizes| == |shape| && |op.startIndicesBatchingDims| == |op.operandBatchingDims|
    ensures forall d :: d in op.startIndexMap ==> d !in op.operandBatchingDims
    ensures forall d :: d in op.collapsedDims ==> d !in op.operandBatchingDims && d < |shape|
    ensures forall d :: d in op.operandBatchingDims ==> d < |shape|
  {
    hide GatherOp.IndexDims;
    DistinctApart(op.startIndexMap, op.operandBatchingDims);
    DistinctApart(op.collapsedDims, op.operandBatchingDims);
  }

  lemma AddressedNeeds(op: GatherOp, shape: seq<nat>, indexShape: seq<nat>, dims: seq<OperandDim>)
    requires op.Constraints(shape, indexShape) && Classified(op, shape, dims)
    ensures |op.sliceSizes| == |shape| == |dims|
    ensures forall d :: 0 <= d < |shape| ==> (NeedsComponent(dims[d]) <==> Addressed(op, shape, d))
    ensures forall d :: 0 <= d < |shape| ==> (dims[d].kind == Batch <==> d in op.operandBatchingDims)
    ensures Unbatched(dims) <==> op.operandBatchingDims == []
    ensures NothingIndexed(dims) <==> Unaddressed(op, shape)
  {
    hide GatherOp.Constraints, Find;
    SliceRank(op, shape, indexShape);
    if op.operandBatchingDims != [] {
      var d := op.operandBatchingDims[0];
      assert d in op.operandBatchingDims;
      assert dims[d].kind == Batch;
    }
  }

  lemma OrderKept(op: GatherOp, shape: seq<nat>, indexShape: seq<nat>, dims: seq<OperandDim>)
    requires op.Constraints(shape, indexShape) && Classified(op, shape, dims) && !NothingIndexed(dims)
    ensures |op.sliceSizes| == |shape| && (KeepsOrder(dims) <==> InOrder(op, shape))
  {
    hide GatherOp.Constraints, Find, NeedsComponent, Addressed;
    AddressedNeeds(op, shape, indexShape, dims);
    forall d: nat | d < |shape| ensures InPlace(dims, d) <==> StaysInPlace(op, shape, d) {
      assert Leading(dims, d) <==> BeforeAddressed(op, shape, d);
      if Leading(dims, d) && dims[d].kind != Batch { FreeBeforeAddressed(op, shape, dims, d); }
    }
  }

  lemma FreeBeforeAddressed(op: GatherOp, shape: seq<nat>, dims: seq<OperandDim>, d: nat)
    requires Classified(op, shape, dims) && d < |dims| && Leading(dims, d) && dims[d].kind != Batch
    ensures dims[d].kind == Free && dims[d].size == shape[d]
  {
    hide Find;
  }

  /// With something addressed, the index tensor's batches are the table's or one.
  lemma AddressedBatches(op: GatherOp, shape: seq<nat>, indexShape: seq<nat>, dims: seq<OperandDim>, c: Canonical,
                         lo: nat, hi: nat)
    requires op.Constraints(shape, indexShape) && Classified(op, shape, dims) && IsCanonical(dims, c, lo, hi) && lo < hi
    ensures IndexBatches(op, shape, indexShape) == 1 || IndexBatches(op, shape, indexShape) == c.B
  {
    hide Filter, Find, Product, Paired, BatchingOrder, IsPermutation, Range, GatherOp.IndexDims;
    TableOrder(dims, c, lo, hi);
    SameBatching(op, shape, dims);
    PairedValid(op, shape, indexShape);
    PairedExtents(op, shape, indexShape);
    if BatchOrder(dims) == [] {
      assert Select(indexShape, Paired(op, BatchingOrder(op, |shape|))) == [];
      NoFactors();
    } else {
      var lead := c.permutation[..lo];
      assert forall p :: 0 <= p < lo ==> lead[p] == c.permutation[p];
      SizeWithoutUnits(shape, lead, IsBatch(dims));
      assert Select(shape, lead) == Sizes(c.dims[..lo]);
    }
  }

  /// The components are the positions from the first to the last addressed
  /// dimension, or, when the operand is grouped, the addressed dimensions.
  lemma ComponentPlaces(op: GatherOp, shape: seq<nat>, indexShape: seq<nat>, dims: seq<OperandDim>, c: Canonical,
                        lo: nat, hi: nat, p: nat)
    requires op.Constraints(shape, indexShape) && LaysOut(op, shape, dims, c, lo, hi) && !NothingIndexed(dims)
      && p < |shape|
    ensures |op.sliceSizes| == |shape| == |c.permutation| && c.permutation[p] < |shape|
    ensures lo <= p < hi <==>
      if InOrder(op, shape) then BetweenAddressed(op, shape, c.permutation[p])
        else Addressed(op, shape, c.permutation[p])
  {
    hide GatherOp.Constraints, Classified, IsCanonical, NeedsComponent, Addressed, IsPermutation, Grouped, KeepsOrder,
         InOrder;
    TableOrder(dims, c, lo, hi);
    AddressedNeeds(op, shape, indexShape, dims);
    OrderKept(op, shape, indexShape, dims);
    PermutedDims(dims, c.permutation) by { hide *; OrderIs(dims); }
    if KeepsOrder(dims) {
      SelectRange(dims);
      BetweenEnds(op, shape, dims, lo, hi, p);
    } else {
      GroupedOrder(dims, lo, hi - 1);
      GroupedEnds(dims, c.dims, lo, hi, p);
    }
  }

  lemma OrderIs(dims: seq<OperandDim>)
    ensures IsPermutation(OrderOf(dims)) && |OrderOf(dims)| == |dims|
  {}

  lemma BetweenEnds(op: GatherOp, shape: seq<nat>, dims: seq<OperandDim>, lo: nat, hi: nat, p: nat)
    requires |op.sliceSizes| == |shape| == |dims| && Ends(dims, lo, hi) && !NothingIndexed(dims) && p < |dims|
    requires forall d :: 0 <= d < |shape| ==> (NeedsComponent(dims[d]) <==> Addressed(op, shape, d))
    ensures lo <= p < hi <==> BetweenAddressed(op, shape, p)
  {
    hide NeedsComponent, Addressed;
  }

  lemma GroupedEnds(dims: seq<OperandDim>, ordered: seq<OperandDim>, lo: nat, hi: nat, p: nat)
    requires Names(Grouped(dims), |dims|) && ordered == Select(dims, Grouped(dims)) && lo < hi
      && Delimits(ordered, lo, hi - 1)
    requires forall p :: lo <= p < hi ==> NeedsComponent(dims[Grouped(dims)[p]])
    requires p < |ordered|
    ensures lo <= p < hi <==> NeedsComponent(dims[Grouped(dims)[p]])
  {
    hide NeedsComponent, Grouped;
  }

  // ---- nothing addressed ----

  lemma {:induction false} UnitFactors(xs: seq<nat>)
    requires forall i :: 0 <= i < |xs| ==> xs[i] > 0
    ensures Product(xs) >= 1
    ensures Product(xs) == 1 <==> forall i :: 0 <= i < |xs| ==> xs[i] == 1
  {
    if xs != [] {
      UnitFactors(xs[1..]);
      var x, rest := xs[0], Product(xs[1..]);
      MulMonotone(1, x, rest);
      MulMonotone(1, rest, x);
      assert (forall i :: 0 <= i < |xs| ==> xs[i] == 1) <==> x == 1 && forall i :: 0 <= i < |xs[1..]| ==>
        xs[1..][i] == 1;
    }
  }

  /// Of the dims in batch order followed by the rest, all but the last.
  lemma LeadingExtents(batch: seq<nat>, rest: seq<nat>)
    requires (forall i :: 0 <= i < |batch| ==> batch[i] > 0) && (forall i :: 0 <= i < |rest| ==> rest[i] > 0)
    requires |batch| > 0
    ensures var all := batch + rest;
      (Product(batch) == 1 || Product(batch) == Product(all[..|all| - 1])) <==>
        || (forall i :: 0 <= i < |batch| ==> batch[i] == 1)
        || (if rest == [] then batch[|batch| - 1] == 1 else forall j :: 0 <= j < |rest| - 1 ==> rest[j] == 1)
  {
    hide Product;
    var all := batch + rest;
    UnitFactors(batch);
    if rest == [] {
      var n := |batch| - 1;
      assert all[..|all| - 1] == batch[..n] && batch == batch[..n] + [batch[n]];
      ProductLast(batch[..n], batch[n]);
      UnitFactors(batch[..n]);
      SameFactor(Product(batch[..n]), batch[n]);
    } else {
      var m := |rest| - 1;
      assert all[..|all| - 1] == batch + rest[..m];
      ProductConcat(batch, rest[..m]);
      UnitFactors(rest[..m]);
      SameFactor(Product(batch), Product(rest[..m]));
    }
  }

  lemma SameFactor(a: nat, x: nat)
    requires a > 0 && x > 0
    ensures a * x == a <==> x == 1
  {
    if x > 1 { MulMonotone(2, x, a); }
  }

  lemma NoFactors()
    ensures Product([]) == 1
  {}

  /// The order of an operand with batching dims and nothing addressed: the
  /// batching dims, then the rest.
  lemma UnaddressedOrder(op: GatherOp, shape: seq<nat>, indexShape: seq<nat>, dims: seq<OperandDim>)
    requires op.Constraints(shape, indexShape) && Classified(op, shape, dims) && NothingIndexed(dims)
    requires op.operandBatchingDims != [] && op.collapsedDims == []
    ensures OrderOf(dims) == BatchingOrder(op, |shape|) + op.OffsetOperandDims(|shape|)
    ensures BatchingOrder(op, |shape|) != []
    ensures op.OffsetOperandDims(|shape|) == [] ==> BatchingOrder(op, |shape|) == Range(|shape|)
  {
    hide GatherOp.Constraints, Find, Addressed, Filter, Range;
    SliceRank(op, shape, indexShape);
    AddressedNeeds(op, shape, indexShape, dims);
    SameBatching(op, shape, dims);
    FilterNone(Range(|shape|), IsComponent(dims));
    SameFilter(Range(|shape|), IsWhole(dims), (d: nat) => d !in op.collapsedDims && d !in op.operandBatchingDims);
    var d := op.operandBatchingDims[0];
    assert d in op.operandBatchingDims;
    assert Range(|shape|)[d] == d;
    assert IsBatching(op)(d);
    assert d in BatchingOrder(op, |shape|);
    if KeepsOrder(dims) {
      forall d: nat | d < |shape| ensures d in op.operandBatchingDims { assert InPlace(dims, d); }
      FilterNone(Range(|shape|), IsWhole(dims));
      FilterAll(Range(|shape|), IsBatching(op));
    }
    if op.OffsetOperandDims(|shape|) == [] {
      forall d: nat | d < |shape| ensures d in op.operandBatchingDims {
        assert Range(|shape|)[d] == d;
        assert d !in op.OffsetOperandDims(|shape|);
      }
      FilterAll(Range(|shape|), IsBatching(op));
    }
  }

  lemma ExtentsPositive(op: GatherOp, shape: seq<nat>, indexShape: seq<nat>, resultShape: seq<nat>)
    requires op.Constraints(shape, indexShape) && op.HasResultShape(shape, indexShape, resultShape)
    requires forall d :: 0 <= d < |resultShape| ==> resultShape[d] > 0
    ensures forall d :: 0 <= d < |shape| ==> shape[d] > 0
  {
    hide Filter, Find, GatherOp.IndexDims, GatherOp.BatchPositions;
    op.IndexDimsAre(|indexShape|);
    forall d | 0 <= d < |shape| ensures shape[d] > 0 {
      if d in op.operandBatchingDims {
        var i := Find(op.operandBatchingDims, d);
        var e := op.startIndicesBatchingDims[i];
        assert e != op.indexVectorDim by { assert e in op.startIndicesBatchingDims; }
        var q := op.AfterVector(e);
        assert resultShape[op.BatchPositions(|resultShape|)[q]] == indexShape[op.IndexDims(|indexShape|)[q]];
      } else if d in op.collapsedDims {
        var i := Find(op.collapsedDims, d);
        assert op.sliceSizes[op.collapsedDims[i]] == 1;
      } else {
        assert Range(|shape|)[d] == d;
        var j := Find(op.OffsetOperandDims(|shape|), d);
        assert resultShape[op.offsetDims[j]] == op.sliceSizes[d];
      }
    }
  }

  /// With nothing addressed and batching dims, the batch test is BatchesMatch.
  lemma UnaddressedBatches(op: GatherOp, shape: seq<nat>, indexShape: seq<nat>, dims: seq<OperandDim>, c: Canonical,
                           lo: nat, hi: nat)
    requires op.Constraints(shape, indexShape) && LaysOut(op, shape, dims, c, lo, hi) && NothingIndexed(dims)
    requires op.operandBatchingDims != [] && op.collapsedDims == []
    requires forall d :: 0 <= d < |shape| ==> shape[d] > 0
    ensures IndexBatches(op, shape, indexShape) == 1 || IndexBatches(op, shape, indexShape) == c.B <==>
      BatchesMatch(op, shape)
  {
    hide GatherOp.Constraints, Find, NeedsComponent, Addressed, Filter, Range, Product, Paired, IsPermutation, OrderOf;
    var batch, rest := BatchingOrder(op, |shape|), op.OffsetOperandDims(|shape|);
    TableOrder(dims, c, lo, hi);
    EmptyRegion(dims, c, lo, hi);
    UnaddressedOrder(op, shape, indexShape, dims);
    PairedValid(op, shape, indexShape);
    PairedExtents(op, shape, indexShape);
    NamesParts(batch, rest, |shape|);
    var b, r := Select(shape, batch), Select(shape, rest);
    assert Sizes(c.dims[..lo]) == (b + r)[..|b + r| - 1];
    LeadingExtents(b, r);
    SameConditions(op, shape);
  }

  lemma NamesParts(a: seq<nat>, b: seq<nat>, n: nat)
    requires Names(a + b, n)
    ensures Names(a, n) && Names(b, n)
  {
    forall i | 0 <= i < |a| ensures a[i] < n { assert (a + b)[i] == a[i]; }
    forall i | 0 <= i < |b| ensures b[i] < n { assert (a + b)[|a| + i] == b[i]; }
  }

  /// The extents' conditions, by place in the lists and by dimension.
  lemma SameConditions(op: GatherOp, shape: seq<nat>)
    requires Names(BatchingOrder(op, |shape|), |shape|) && Names(op.OffsetOperandDims(|shape|), |shape|)
    requires BatchingOrder(op, |shape|) != []
    requires op.OffsetOperandDims(|shape|) == [] ==> BatchingOrder(op, |shape|) == Range(|shape|)
    ensures var b, r := Select(shape, BatchingOrder(op, |shape|)), Select(shape, op.OffsetOperandDims(|shape|));
      BatchesMatch(op, shape) <==>
        || (forall i :: 0 <= i < |b| ==> b[i] == 1)
        || (if r == [] then b[|b| - 1] == 1 else forall j :: 0 <= j < |r| - 1 ==> r[j] == 1)
  {
    hide GatherOp.OffsetOperandDims, BatchingOrder;
    UnitBatchesAre(op, shape);
    if op.OffsetOperandDims(|shape|) != [] { UnitRestIs(op, shape); }
  }

  lemma UnitBatchesAre(op: GatherOp, shape: seq<nat>)
    requires Names(BatchingOrder(op, |shape|), |shape|)
    ensures UnitBatches(op, shape) <==>
      forall i :: 0 <= i < |BatchingOrder(op, |shape|)| ==> Select(shape, BatchingOrder(op, |shape|))[i] == 1
  {
    hide Filter;
    var batch := BatchingOrder(op, |shape|);
    var b := Select(shape, batch);
    forall d: nat | d < |shape| && d in op.operandBatchingDims ensures d in batch { assert Range(|shape|)[d] == d; }
    forall i | 0 <= i < |batch| ensures batch[i] in op.operandBatchingDims { assert batch[i] in batch; }
    if forall i :: 0 <= i < |b| ==> b[i] == 1 {
      forall d: nat | d < |shape| && d in op.operandBatchingDims ensures shape[d] == 1 {
        var i :| 0 <= i < |batch| && batch[i] == d;
        assert b[i] == 1;
      }
    }
  }

  lemma UnitRestIs(op: GatherOp, shape: seq<nat>)
    requires Names(op.OffsetOperandDims(|shape|), |shape|) && op.OffsetOperandDims(|shape|) != []
    ensures var rest := op.OffsetOperandDims(|shape|);
      (forall d :: 0 <= d < |shape| && d in rest && d != rest[|rest| - 1] ==> shape[d] == 1) <==>
        forall j :: 0 <= j < |rest| - 1 ==> Select(shape, rest)[j] == 1
  {
    hide Filter;
    FilterDistinct(Range(|shape|), (d: nat) => d !in op.collapsedDims && d !in op.operandBatchingDims);
    var rest := op.OffsetOperandDims(|shape|);
    hide GatherOp.OffsetOperandDims;
    var r := Select(shape, rest);
    if forall j :: 0 <= j < |r| - 1 ==> r[j] == 1 {
      forall d: nat | d < |shape| && d in rest && d != rest[|rest| - 1] ensures shape[d] == 1 {
        var j :| 0 <= j < |rest| && rest[j] == d;
        assert r[j] == 1;
      }
    }
    if forall d :: 0 <= d < |shape| && d in rest && d != rest[|rest| - 1] ==> shape[d] == 1 {
      forall j | 0 <= j < |r| - 1 ensures r[j] == 1 { assert rest[j] in rest && rest[j] != rest[|rest| - 1]; }
    }
  }

  // ---- the result ----

  /// The lowering's tests come to the condition on the operation and the
  /// operand's shape.
  lemma AcceptedExactly(op: GatherOp, shape: seq<nat>, indexShape: seq<nat>, resultShape: seq<nat>,
                        dims: seq<OperandDim>, c: Canonical, lo: nat, hi: nat)
    requires op.Constraints(shape, indexShape) && op.HasResultShape(shape, indexShape, resultShape)
    requires forall d :: 0 <= d < |resultShape| ==> resultShape[d] > 0
    requires LaysOut(op, shape, dims, c, lo, hi)
    ensures |op.sliceSizes| == |shape| && (Acceptable(op, shape, indexShape, c, lo, hi) <==> Accepts(op, shape))
  {
    hide GatherOp.Constraints, GatherOp.HasResultShape, Addressed, NeedsComponent, Classified, IsCanonical,
         IndexBatches,
      BetweenAddressed, InOrder, BatchesMatch, IsPermutation, OrderOf;
    SliceRank(op, shape, indexShape);
    AddressedNeeds(op, shape, indexShape, dims);
    TableOrder(dims, c, lo, hi);
    EmptyRegion(dims, c, lo, hi);
    ExtentsPositive(op, shape, indexShape, resultShape);
    EveryPlace(op, c.permutation, lo, hi, |shape|);
    if NothingIndexed(dims) {
      if op.collapsedDims == [] {
        if op.operandBatchingDims == [] {
          NoBatches(op, shape, indexShape);
        } else {
          UnaddressedBatches(op, shape, indexShape, dims, c, lo, hi);
        }
      } else {
        assert op.collapsedDims[0] in op.collapsedDims;
      }
    } else {
      AddressedBatches(op, shape, indexShape, dims, c, lo, hi);
      forall p: nat | p < |shape|
        ensures lo <= p < hi <==>
          if InOrder(op, shape) then BetweenAddressed(op, shape, c.permutation[p])
            else Addressed(op, shape, c.permutation[p])
      {
        ComponentPlaces(op, shape, indexShape, dims, c, lo, hi, p);
      }
    }
  }

  /// Every dimension has its place in the order.
  lemma EveryPlace(op: GatherOp, perm: seq<nat>, lo: nat, hi: nat, n: nat)
    requires IsPermutation(perm) && |perm| == n
    ensures CollapsedAreComponents(op, perm, lo, hi) <==>
      forall d: nat :: d < n && d in op.collapsedDims ==> exists p :: 0 <= p < n && perm[p] == d && lo <= p < hi
  {
    if CollapsedAreComponents(op, perm, lo, hi) {
      forall d: nat | d < n && d in op.collapsedDims ensures exists p :: 0 <= p < n && perm[p] == d && lo <= p < hi {
        assert d in perm;
        var p :| 0 <= p < n && perm[p] == d;
      }
    }
  }

  lemma NoBatches(op: GatherOp, shape: seq<nat>, indexShape: seq<nat>)
    requires op.Constraints(shape, indexShape) && op.operandBatchingDims == []
    ensures IndexBatches(op, shape, indexShape) == 1 && BatchesMatch(op, shape)
  {
    hide Filter, Paired, GatherOp.Constraints;
    SliceRank(op, shape, indexShape);
    PairedValid(op, shape, indexShape);
    FilterNone(Range(|shape|), IsBatching(op));
    assert Select(indexShape, Paired(op, BatchingOrder(op, |shape|))) == [];
  }

  // ---- gathers that are rejected ----

  lemma FilterThree(keep: nat -> bool)
    ensures Filter(Range(1), keep) == if keep(0) then [0] else []
    ensures Filter(Range(2), keep) == Filter(Range(1), keep) + if keep(1) then [1] else []
    ensures Filter(Range(3), keep) == Filter(Range(2), keep) + if keep(2) then [2] else []
  {
    hide Filter, Range;
    EmptyFilter(keep);
    FilterStep(0, keep);
    FilterStep(1, keep);
    FilterStep(2, keep);
  }

  const ONE_ROW := GatherOp([], [0, 1], [], [], [0], 0, [1, 1])

  /// One row of a [4, 1] operand, its column collapsed too: the operation's
  /// constraints allow it, and the lowering rejects it, since the collapsed
  /// column is not among the components.
  lemma CollapsedColumnRejected()
    ensures ONE_ROW.Constraints([4, 1], [1]) && ONE_ROW.HasResultShape([4, 1], [1], [])
    ensures !Accepts(ONE_ROW, [4, 1])
  {
    hide GatherOp.Constraints, GatherOp.HasResultShape, Accepts;
    OneRowDims();
    OneRowConstraints();
    OneRowShape();
    OneRowRejected();
  }

  lemma OneRowDims()
    ensures ONE_ROW.IndexDims(1) == [] && ONE_ROW.OffsetOperandDims(2) == [] && ONE_ROW.BatchPositions(0) == []
  {
    hide Filter, Range;
    var op := ONE_ROW;
    FilterThree((d: nat) => d != 0);
    FilterThree((d: nat) => d !in op.collapsedDims && d !in op.operandBatchingDims);
    EmptyFilter((d: nat) => d !in op.offsetDims);
  }

  lemma OneRowConstraints()
    requires ONE_ROW.IndexDims(1) == []
    ensures ONE_ROW.Constraints([4, 1], [1])
  {
    hide GatherOp.IndexDims;
    assert ONE_ROW.collapsedDims + ONE_ROW.operandBatchingDims == [0, 1];
    assert ONE_ROW.startIndexMap + ONE_ROW.operandBatchingDims == [0];
  }

  lemma OneRowShape()
    requires ONE_ROW.IndexDims(1) == [] && ONE_ROW.OffsetOperandDims(2) == [] && ONE_ROW.BatchPositions(0) == []
    ensures ONE_ROW.HasResultShape([4, 1], [1], [])
  {
    hide GatherOp.IndexDims, GatherOp.OffsetOperandDims, GatherOp.BatchPositions;
  }

  lemma OneRowRejected()
    ensures !Accepts(ONE_ROW, [4, 1])
  {
    var op, shape: seq<nat> := ONE_ROW, [4, 1];
    assert Addressed(op, shape, 0) && !Addressed(op, shape, 1);
    assert 1 in op.collapsedDims && !BetweenAddressed(op, shape, 1);
  }

  const WHOLE_SLICES := GatherOp([1, 2], [], [0], [0], [], 1, [1, 3, 4])

  /// Whole slices of a batched [2, 3, 4] operand: rejected, since the table takes
  /// the second dimension for a batch as well.
  lemma WholeSlicesRejected()
    ensures WHOLE_SLICES.Constraints([2, 3, 4], [2, 0]) && WHOLE_SLICES.HasResultShape([2, 3, 4], [2, 0], [2, 3, 4])
    ensures !Accepts(WHOLE_SLICES, [2, 3, 4])
  {
    hide GatherOp.Constraints, GatherOp.HasResultShape, Accepts;
    WholeDims();
    WholeConstraints();
    WholeShape();
    WholeRejected();
  }

  lemma WholeDims()
    ensures WHOLE_SLICES.IndexDims(2) == [0] && WHOLE_SLICES.OffsetOperandDims(3) == [1, 2]
      && WHOLE_SLICES.BatchPositions(3) == [0]
  {
    hide Filter, Range;
    var op := WHOLE_SLICES;
    FilterThree((d: nat) => d != 1);
    FilterThree((d: nat) => d !in op.collapsedDims && d !in op.operandBatchingDims);
    FilterThree((d: nat) => d !in op.offsetDims);
  }

  lemma WholeConstraints()
    requires WHOLE_SLICES.IndexDims(2) == [0]
    ensures WHOLE_SLICES.Constraints([2, 3, 4], [2, 0])
  {
    hide GatherOp.IndexDims;
    assert WHOLE_SLICES.collapsedDims + WHOLE_SLICES.operandBatchingDims == [0];
    assert WHOLE_SLICES.startIndexMap + WHOLE_SLICES.operandBatchingDims == [0];
  }

  lemma WholeShape()
    requires WHOLE_SLICES.IndexDims(2) == [0] && WHOLE_SLICES.OffsetOperandDims(3) == [1, 2]
      && WHOLE_SLICES.BatchPositions(3) == [0]
    ensures WHOLE_SLICES.HasResultShape([2, 3, 4], [2, 0], [2, 3, 4])
  {
    hide GatherOp.IndexDims, GatherOp.OffsetOperandDims, GatherOp.BatchPositions;
  }

  lemma WholeRejected()
    requires WHOLE_SLICES.OffsetOperandDims(3) == [1, 2]
    ensures !Accepts(WHOLE_SLICES, [2, 3, 4])
  {
    hide Filter, Range;
    var op, shape: seq<nat> := WHOLE_SLICES, [2, 3, 4];
    assert shape[0] == 2 && 0 in op.operandBatchingDims;
    assert 1 in op.OffsetOperandDims(|shape|) && shape[1] == 3;
  }
}
