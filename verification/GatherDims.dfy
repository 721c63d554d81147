/// A gather's operand dimensions as the lowering classifies them, and the index
/// dimensions paired with its batching dimensions.
module GatherDims {
  import opened RowMajor
  import opened Tensors
  import opened CanonicalLayout
  import opened StableHloGather

  // ---- the operand's dimensions ----

  function DimOf(op: GatherOp, shape: seq<nat>, d: nat): OperandDim
    requires d < |shape| == |op.sliceSizes|
  {
    if d in op.operandBatchingDims then OperandDim(Batch, 0, op.sliceSizes[d], shape[d])
    else if d in op.startIndexMap then OperandDim(Indexed, Find(op.startIndexMap, d), op.sliceSizes[d], shape[d])
    else OperandDim(Free, 0, op.sliceSizes[d], shape[d])
  }

  ghost predicate Classified(op: GatherOp, shape: seq<nat>, dims: seq<OperandDim>) {
    |dims| == |shape| == |op.sliceSizes| && forall d :: 0 <= d < |shape| ==> dims[d] == DimOf(op, shape, d)
  }

  method Classify(op: GatherOp, shape: seq<nat>) returns (dims: seq<OperandDim>)
    requires |op.sliceSizes| == |shape|
    ensures Classified(op, shape, dims)
  {
    dims := [];
    var d := 0;
    while d < |shape|
      invariant 0 <= d <= |shape| == |op.sliceSizes| && |dims| == d
      invariant forall i :: 0 <= i < d ==> dims[i] == DimOf(op, shape, i)
    {
      var dim := OperandDim(Free, 0, op.sliceSizes[d], shape[d]);
      var it := Find(op.startIndexMap, d);
      if d in op.operandBatchingDims {
        dim := dim.(kind := Batch);
      } else if it < |op.startIndexMap| {
        dim := dim.(kind := Indexed, column := it);
      }
      dims := dims + [dim];
      d := d + 1;
    }
  }

  ghost predicate AllBatching(op: GatherOp, dims: seq<nat>) {
    forall i :: 0 <= i < |dims| ==> dims[i] in op.operandBatchingDims
  }

  /// The index dimensions paired with operand batching dimensions.
  function Paired(op: GatherOp, dims: seq<nat>): (r: seq<nat>)
    requires |op.startIndicesBatchingDims| == |op.operandBatchingDims| && AllBatching(op, dims)
    ensures |r| == |dims|
  {
    seq(|dims|, i requires 0 <= i < |dims| => op.startIndicesBatchingDims[Find(op.operandBatchingDims, dims[i])])
  }

  function IsBatching(op: GatherOp): nat -> bool {
    (d: nat) => d in op.operandBatchingDims
  }

  /// The operand's batching dimensions, increasing, of its first `rank`.
  function BatchingOrder(op: GatherOp, rank: nat): (r: seq<nat>)
    ensures AllBatching(op, r)
  {
    var r := Filter(Range(rank), IsBatching(op));
    assert forall i :: 0 <= i < |r| ==> r[i] in r;
    r
  }

  /// Index dimensions paired with the operand's batching dimensions, in operand order.
  method IndexBatchingDims(op: GatherOp, rank: nat) returns (paired: seq<nat>)
    requires |op.startIndicesBatchingDims| == |op.operandBatchingDims|
    ensures paired == Paired(op, BatchingOrder(op, rank))
  {
    hide Filter, Range;
    paired := [];
    EmptyFilter(IsBatching(op));
    var d := 0;
    while d < rank
      invariant 0 <= d <= rank && paired == Paired(op, BatchingOrder(op, d))
    {
      FilterStep(d, IsBatching(op));
      var it := Find(op.operandBatchingDims, d);
      if it < |op.operandBatchingDims| { paired := paired + [op.startIndicesBatchingDims[it]]; }
      d := d + 1;
    }
  }

  lemma {:induction false} SameFilter(dims: seq<nat>, f: nat -> bool, g: nat -> bool)
    requires forall i :: 0 <= i < |dims| ==> f(dims[i]) == g(dims[i])
    ensures Filter(dims, f) == Filter(dims, g)
  {
    if dims != [] { SameFilter(dims[1..], f, g); }
  }

  lemma SameBatching(op: GatherOp, shape: seq<nat>, dims: seq<OperandDim>)
    requires Classified(op, shape, dims)
    ensures BatchOrder(dims) == BatchingOrder(op, |shape|)
  {
    hide Filter, Find;
    SameFilter(Range(|shape|), IsBatch(dims), IsBatching(op));
  }

  lemma PairedValid(op: GatherOp, shape: seq<nat>, indexShape: seq<nat>)
    requires op.Constraints(shape, indexShape)
    ensures Distinct(Paired(op, BatchingOrder(op, |shape|)))
      && Names(Paired(op, BatchingOrder(op, |shape|)), |indexShape|)
    ensures op.indexVectorDim !in Paired(op, BatchingOrder(op, |shape|))
    ensures forall d :: d in Paired(op, BatchingOrder(op, |shape|)) <==> d in op.startIndicesBatchingDims
  {
    hide Filter, Range, GatherOp.IndexDims;
    var order := BatchingOrder(op, |shape|);
    var paired := Paired(op, order);
    DistinctApart(op.collapsedDims, op.operandBatchingDims);
    FilterDistinct(Range(|shape|), IsBatching(op));
    forall i | 0 <= i < |paired| ensures paired[i] in op.startIndicesBatchingDims && paired[i] < |indexShape| {
      assert paired[i] == op.startIndicesBatchingDims[Find(op.operandBatchingDims, order[i])];
    }
    forall d: nat | d in op.startIndicesBatchingDims ensures d in paired {
      var x := Find(op.startIndicesBatchingDims, d);
      var e := op.operandBatchingDims[x];
      assert Range(|shape|)[e] == e;
      assert e in order;
      var t :| 0 <= t < |order| && order[t] == e;
      FindAt(op.operandBatchingDims, x);
      assert paired[t] == d;
    }
  }

  lemma PairedExtents(op: GatherOp, shape: seq<nat>, indexShape: seq<nat>)
    requires op.Constraints(shape, indexShape)
    requires Names(Paired(op, BatchingOrder(op, |shape|)), |indexShape|)
    ensures Names(BatchingOrder(op, |shape|), |shape|)
    ensures Select(shape, BatchingOrder(op, |shape|)) == Select(indexShape, Paired(op, BatchingOrder(op, |shape|)))
  {
    hide Filter, Range, GatherOp.IndexDims, Product;
    var order := BatchingOrder(op, |shape|);
    forall t | 0 <= t < |order| ensures order[t] < |shape| && shape[order[t]] == indexShape[Paired(op, order)[t]] {
      assert order[t] in order;
      var x := Find(op.operandBatchingDims, order[t]);
      assert op.operandBatchingDims[x] == order[t];
    }
  }
}
