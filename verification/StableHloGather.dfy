/// The `gather` operation of the StableHLO specification.
///
/// A complex operand, which the lowering sees as floats with a last dimension
/// of 2, is an operand with one more offset dimension, copied whole.
module StableHloGather {
  import opened IndexedRows
  import opened RowMajor
  import opened Tensors

  datatype GatherOp = GatherOp(
    offsetDims: seq<nat>, collapsedDims: seq<nat>,
    operandBatchingDims: seq<nat>, startIndicesBatchingDims: seq<nat>,
    startIndexMap: seq<nat>, indexVectorDim: nat, sliceSizes: seq<nat>)
  {
    /// Whether the index tensor has a dimension of index components.
    predicate HasVector(indexRank: nat) { indexVectorDim < indexRank }

    function Components(indexShape: seq<nat>): nat {
      if HasVector(|indexShape|) then indexShape[indexVectorDim] else 1
    }

    /// The operation's constraints on its operands and dimension numbers. A
    /// collapsed or batching dimension's slice has one position.
    ghost predicate Constraints(shape: seq<nat>, indexShape: seq<nat>) {
      && |shape| == |offsetDims| + |collapsedDims| + |operandBatchingDims|
      && indexVectorDim <= |indexShape|
      && |startIndexMap| == Components(indexShape)
      && (forall i, j :: 0 <= i < j < |offsetDims| ==> offsetDims[i] < offsetDims[j])
      && Names(offsetDims, |IndexDims(|indexShape|)| + |offsetDims|)
      && Distinct(collapsedDims + operandBatchingDims) && Names(collapsedDims, |shape|)
         && Names(operandBatchingDims, |shape|)
      && Distinct(startIndicesBatchingDims) && Names(startIndicesBatchingDims, |indexShape|)
      && indexVectorDim !in startIndicesBatchingDims
      && |startIndicesBatchingDims| == |operandBatchingDims|
      && (forall i :: 0 <= i < |operandBatchingDims| ==>
            && operandBatchingDims[i] < |shape| && startIndicesBatchingDims[i] < |indexShape|
            && shape[operandBatchingDims[i]] == indexShape[startIndicesBatchingDims[i]])
      && Distinct(startIndexMap + operandBatchingDims) && Names(startIndexMap, |shape|)
      && |sliceSizes| == |shape|
      && (forall d :: 0 <= d < |shape| ==> sliceSizes[d] <= shape[d])
      && (forall i :: 0 <= i < |collapsedDims| ==> collapsedDims[i] < |shape| && sliceSizes[collapsedDims[i]] == 1)
    }

    /// The index tensor's dimensions without the components', increasing.
    function IndexDims(indexRank: nat): seq<nat> {
      Filter(Range(indexRank), (d: nat) => d != indexVectorDim)
    }

    /// The operand dimensions that offset dimensions name, increasing.
    function OffsetOperandDims(rank: nat): seq<nat> {
      Filter(Range(rank), (d: nat) => d !in collapsedDims && d !in operandBatchingDims)
    }

    /// Result dimensions that are not offset dimensions, increasing.
    function BatchPositions(resultRank: nat): seq<nat> {
      Filter(Range(resultRank), (d: nat) => d !in offsetDims)
    }

    ghost predicate HasResultShape(shape: seq<nat>, indexShape: seq<nat>, resultShape: seq<nat>) {
      && |resultShape| == |IndexDims(|indexShape|)| + |offsetDims|
      && |OffsetOperandDims(|shape|)| == |offsetDims| && |sliceSizes| == |shape|
      && |BatchPositions(|resultShape|)| == |IndexDims(|indexShape|)|
      && (forall j :: 0 <= j < |offsetDims| ==>
            && offsetDims[j] < |resultShape| && OffsetOperandDims(|shape|)[j] < |shape|
            && resultShape[offsetDims[j]] == sliceSizes[OffsetOperandDims(|shape|)[j]])
      && (forall q :: 0 <= q < |IndexDims(|indexShape|)| ==>
            && BatchPositions(|resultShape|)[q] < |resultShape| && IndexDims(|indexShape|)[q] < |indexShape|
            && resultShape[BatchPositions(|resultShape|)[q]] == indexShape[IndexDims(|indexShape|)[q]])
    }

    // ---- the element a result index names ----

    function BatchIndex(result: seq<nat>): (b: seq<nat>)
      requires Names(BatchPositions(|result|), |result|)
    {
      Select(result, BatchPositions(|result|))
    }

    /// The place of start index component k in the index tensor.
    function StartPlace(indexRank: nat, batch: seq<nat>, k: nat): seq<nat>
      requires HasVector(indexRank) ==> indexVectorDim <= |batch|
    {
      if HasVector(indexRank) then batch[..indexVectorDim] + [k] + batch[indexVectorDim..] else batch
    }

    function FullBatching(batch: seq<nat>, d: nat): nat
      requires |startIndicesBatchingDims| == |operandBatchingDims|
      requires forall i :: 0 <= i < |operandBatchingDims| ==>
        startIndicesBatchingDims[i] != indexVectorDim && AfterVector(startIndicesBatchingDims[i]) < |batch|
    {
      var i := Find(operandBatchingDims, d);
      if i < |operandBatchingDims| then batch[AfterVector(startIndicesBatchingDims[i])] else 0
    }

    /// An index dimension's place when the components' dimension is left out.
    function AfterVector(d: nat): nat
      requires d != indexVectorDim
    {
      if d < indexVectorDim then d else d - 1
    }

    function FullOffset(rank: nat, result: seq<nat>, d: nat): nat
      requires |OffsetOperandDims(rank)| == |offsetDims| && Names(offsetDims, |result|)
    {
      var j := Find(OffsetOperandDims(rank), d);
      if j < |offsetDims| then result[offsetDims[j]] else 0
    }

    function FullStart(shape: seq<nat>, indices: Tensor<int>, batch: seq<nat>, d: nat): nat
      requires indices.Valid() && d < |shape| == |sliceSizes| && sliceSizes[d] <= shape[d]
      requires HasVector(|indices.shape|) ==> indexVectorDim <= |batch|
      requires forall k :: 0 <= k < |startIndexMap| ==> InShape(indices.shape, StartPlace(|indices.shape|, batch, k))
    {
      var k := Find(startIndexMap, d);
      if k < |startIndexMap| then Clamp(indices.At(StartPlace(|indices.shape|, batch, k)), shape[d] - sliceSizes[d])
        else 0
    }

    /// The slice starts, along every dimension that a component names, at the
    /// position nearest to the component from which the slice fits; else at 0.
    ghost predicate StartsAt(shape: seq<nat>, indices: Tensor<int>, resultShape: seq<nat>, result: seq<nat>,
                             start: seq<nat>)
      requires Readable(shape, indices, resultShape, result)
    {
      Reads(shape, indices, resultShape, result);
      && |start| == |shape|
      && (forall d :: 0 <= d < |shape| && d !in startIndexMap ==> start[d] == 0)
      && forall k :: 0 <= k < |startIndexMap| ==> StartNearest(shape, indices, BatchIndex(result), start, k)
    }

    ghost predicate StartNearest(shape: seq<nat>, indices: Tensor<int>, batch: seq<nat>, start: seq<nat>, k: nat)
      requires indices.Valid() && k < |startIndexMap| && |start| == |shape| == |sliceSizes|
      requires forall d :: 0 <= d < |shape| ==> sliceSizes[d] <= shape[d]
      requires Names(startIndexMap, |shape|) && (HasVector(|indices.shape|) ==> indexVectorDim <= |batch|)
      requires InShape(indices.shape, StartPlace(|indices.shape|, batch, k))
    {
      var d := startIndexMap[k];
      Nearest(indices.At(StartPlace(|indices.shape|, batch, k)), shape[d] - sliceSizes[d], start[d])
    }

    /// The operand's element at a place of the slice.
    ghost predicate InSlice<T>(operand: Tensor<T>, indices: Tensor<int>, resultShape: seq<nat>, result: seq<nat>,
                               start: seq<nat>, value: T)
      requires operand.Valid() && Readable(operand.shape, indices, resultShape, result) && |start| == |operand.shape|
    {
      exists index :: InShape(operand.shape, index) && value == operand.At(index)
        && forall d :: 0 <= d < |index| ==>
          index[d] == start[d] + SlicePosition(operand.shape, indices, resultShape, result, d)
    }

    ghost predicate Readable(shape: seq<nat>, indices: Tensor<int>, resultShape: seq<nat>, result: seq<nat>) {
      && indices.Valid() && Constraints(shape, indices.shape) && HasResultShape(shape, indices.shape, resultShape)
      && InShape(resultShape, result)
    }

    /// The index tensor's dimensions without the vector's, by number.
    lemma IndexDimsAre(indexRank: nat)
      ensures |IndexDims(indexRank)| == if HasVector(indexRank) then indexRank - 1 else indexRank
      ensures forall d: nat :: d < indexRank && d != indexVectorDim ==>
        AfterVector(d) < |IndexDims(indexRank)| && IndexDims(indexRank)[AfterVector(d)] == d
    {
      hide Filter, Range;
      if indexRank == 0 {
        EmptyFilter((d: nat) => d != indexVectorDim);
      } else {
        IndexDimsAre(indexRank - 1);
        FilterStep(indexRank - 1, (d: nat) => d != indexVectorDim);
      }
    }

    /// The start indices are read inside the index tensor.
    lemma Reads(shape: seq<nat>, indices: Tensor<int>, resultShape: seq<nat>, result: seq<nat>)
      requires Readable(shape, indices, resultShape, result)
      ensures |OffsetOperandDims(|shape|)| == |offsetDims| && Names(offsetDims, |result|)
      ensures Names(BatchPositions(|result|), |result|) && |BatchIndex(result)| == |IndexDims(|indices.shape|)|
      ensures HasVector(|indices.shape|) ==> indexVectorDim <= |BatchIndex(result)|
      ensures |startIndicesBatchingDims| == |operandBatchingDims|
      ensures forall i :: 0 <= i < |operandBatchingDims| ==>
        startIndicesBatchingDims[i] != indexVectorDim && AfterVector(startIndicesBatchingDims[i]) < |BatchIndex(result)|
      ensures forall k :: 0 <= k < |startIndexMap| ==>
        InShape(indices.shape, StartPlace(|indices.shape|, BatchIndex(result), k))
    {
      hide Filter, Product;
      IndexDimsAre(|indices.shape|);
      FilterNames(Range(|resultShape|), |resultShape|, (d: nat) => d !in offsetDims);
      var batch := BatchIndex(result);
      forall k | 0 <= k < |startIndexMap| ensures InShape(indices.shape, StartPlace(|indices.shape|, batch, k)) {
        var place := StartPlace(|indices.shape|, batch, k);
        forall d: nat | d < |place| ensures place[d] < indices.shape[d] {
          if d != indexVectorDim {
            assert place[d] == batch[AfterVector(d)];
            assert batch[AfterVector(d)] == result[BatchPositions(|result|)[AfterVector(d)]];
          }
        }
      }
    }

    /// The element of the operand that a result element is.
    ghost function OperandIndex(shape: seq<nat>, indices: Tensor<int>, resultShape: seq<nat>,
                                result: seq<nat>): (index: seq<nat>)
      requires Readable(shape, indices, resultShape, result)
      ensures |index| == |shape|
    {
      Reads(shape, indices, resultShape, result);
      seq(|shape|, d requires 0 <= d < |shape| =>
        FullStart(shape, indices, BatchIndex(result), d) + FullBatching(BatchIndex(result), d)
          + FullOffset(|shape|, result, d))
    }

    /// Whether start index j needs no clamping.
    ghost predicate StartFits(shape: seq<nat>, indices: Tensor<int>, resultShape: seq<nat>, result: seq<nat>, j: nat)
      requires Readable(shape, indices, resultShape, result) && j < |startIndexMap|
    {
      Reads(shape, indices, resultShape, result);
      0 <= indices.At(StartPlace(|indices.shape|, BatchIndex(result), j))
        <= shape[startIndexMap[j]] - sliceSizes[startIndexMap[j]]
    }

    /// Whether no start index needs clamping.
    ghost predicate StartsFit(shape: seq<nat>, indices: Tensor<int>, resultShape: seq<nat>, result: seq<nat>)
      requires Readable(shape, indices, resultShape, result)
    {
      forall j: nat :: j < |startIndexMap| ==> StartFits(shape, indices, resultShape, result, j)
    }

    ghost function Starts(shape: seq<nat>, indices: Tensor<int>, resultShape: seq<nat>, result: seq<nat>): (s: seq<nat>)
      requires Readable(shape, indices, resultShape, result)
      ensures |s| == |shape|
    {
      Reads(shape, indices, resultShape, result);
      seq(|shape|, d requires 0 <= d < |shape| => FullStart(shape, indices, BatchIndex(result), d))
    }

    lemma StartsNearest(shape: seq<nat>, indices: Tensor<int>, resultShape: seq<nat>, result: seq<nat>)
      requires Readable(shape, indices, resultShape, result)
      ensures StartsAt(shape, indices, resultShape, result, Starts(shape, indices, resultShape, result))
    {
      hide Filter, Nearest, BatchPositions, IndexDims, Clamp;
      Reads(shape, indices, resultShape, result);
      DistinctApart(startIndexMap, operandBatchingDims);
      forall k | 0 <= k < |startIndexMap|
        ensures StartNearest(shape, indices, BatchIndex(result), Starts(shape, indices, resultShape, result), k)
      {
        FindAt(startIndexMap, k);
        ClampIsNearest(indices.At(StartPlace(|indices.shape|, BatchIndex(result), k)),
                       shape[startIndexMap[k]] - sliceSizes[startIndexMap[k]]);
      }
    }

    lemma OperandIndexIs(shape: seq<nat>, indices: Tensor<int>, resultShape: seq<nat>, result: seq<nat>)
      requires Readable(shape, indices, resultShape, result)
      ensures forall d :: 0 <= d < |shape| ==>
        OperandIndex(shape, indices, resultShape, result)[d]
        == Starts(shape, indices, resultShape, result)[d] + SlicePosition(shape, indices, resultShape, result, d)
    {}

    // ---- positions inside a slice ----

    /// The extents that batching and offset indices range over.
    function SliceExtent(shape: seq<nat>, d: nat): nat
      requires d < |shape| == |sliceSizes|
    {
      if d in operandBatchingDims then shape[d] else sliceSizes[d]
    }

    /// The place inside the slice along operand dimension d.
    ghost function SlicePosition(shape: seq<nat>, indices: Tensor<int>, resultShape: seq<nat>, result: seq<nat>,
                                 d: nat): nat
      requires Readable(shape, indices, resultShape, result)
    {
      Reads(shape, indices, resultShape, result);
      FullBatching(BatchIndex(result), d) + FullOffset(|shape|, result, d)
    }

    lemma SlicePositionBound(shape: seq<nat>, indices: Tensor<int>, resultShape: seq<nat>, result: seq<nat>, d: nat)
      requires Readable(shape, indices, resultShape, result) && d < |shape|
      ensures SlicePosition(shape, indices, resultShape, result, d) < SliceExtent(shape, d)
      ensures d in collapsedDims ==> SlicePosition(shape, indices, resultShape, result, d) == 0
    {
      hide Filter, Product, BatchPositions;
      Reads(shape, indices, resultShape, result);
      IndexDimsAre(|indices.shape|);
      if d in operandBatchingDims {
        var i := Find(operandBatchingDims, d);
        var e := startIndicesBatchingDims[i];
        assert IndexDims(|indices.shape|)[AfterVector(e)] == e;
        assert BatchIndex(result)[AfterVector(e)] == result[BatchPositions(|result|)[AfterVector(e)]];
        DistinctApart(collapsedDims, operandBatchingDims);
      } else if d in collapsedDims {
        assert d !in OffsetOperandDims(|shape|);
      } else {
        assert Range(|shape|)[d] == d;
        assert d in OffsetOperandDims(|shape|);
        var j := Find(OffsetOperandDims(|shape|), d);
        assert result[offsetDims[j]] < resultShape[offsetDims[j]];
      }
    }

    /// Clamped slices lie inside the operand.
    lemma OperandIndexInShape(shape: seq<nat>, indices: Tensor<int>, resultShape: seq<nat>, result: seq<nat>)
      requires Readable(shape, indices, resultShape, result)
      ensures InShape(shape, OperandIndex(shape, indices, resultShape, result))
    {
      hide Filter, Product, BatchPositions, FullBatching, FullOffset, OffsetOperandDims;
      Reads(shape, indices, resultShape, result);
      var index := OperandIndex(shape, indices, resultShape, result);
      forall d: nat | d < |shape| ensures index[d] < shape[d] {
        SlicePositionBound(shape, indices, resultShape, result, d);
        DistinctApart(startIndexMap, operandBatchingDims);
      }
    }
  }

  /// The result element at `result`. With `fill`, a slice that would need
  /// clamping reads as zeros instead.
  ghost function GatherElement<T>(op: GatherOp, operand: Tensor<T>, indices: Tensor<int>, fill: bool, zero: T,
                                  resultShape: seq<nat>, result: seq<nat>): T
    requires operand.Valid() && op.Readable(operand.shape, indices, resultShape, result)
  {
    op.OperandIndexInShape(operand.shape, indices, resultShape, result);
    if fill && !op.StartsFit(operand.shape, indices, resultShape, result) then zero
    else operand.At(op.OperandIndex(operand.shape, indices, resultShape, result))
  }

  /// A result element comes from the slice that starts nearest to its start indices.
  ghost predicate FromNearest<T>(op: GatherOp, operand: Tensor<T>, indices: Tensor<int>, fill: bool, zero: T,
                                 result: Tensor<T>, index: seq<nat>)
    requires operand.Valid() && result.Valid() && op.Readable(operand.shape, indices, result.shape, index)
  {
    if fill && !op.StartsFit(operand.shape, indices, result.shape, index) then result.At(index) == zero
    else exists start ::
      && op.StartsAt(operand.shape, indices, result.shape, index, start)
      && op.InSlice(operand, indices, result.shape, index, start, result.At(index))
  }

  lemma ElementFromNearest<T>(op: GatherOp, operand: Tensor<T>, indices: Tensor<int>, fill: bool, zero: T,
                              result: Tensor<T>, index: seq<nat>)
    requires operand.Valid() && result.Valid() && op.Readable(operand.shape, indices, result.shape, index)
    requires result.At(index) == GatherElement(op, operand, indices, fill, zero, result.shape, index)
    ensures FromNearest(op, operand, indices, fill, zero, result, index)
  {
    if !(fill && !op.StartsFit(operand.shape, indices, result.shape, index)) {
      var start := op.Starts(operand.shape, indices, result.shape, index);
      op.StartsNearest(operand.shape, indices, result.shape, index);
      op.OperandIndexInShape(operand.shape, indices, result.shape, index);
      op.OperandIndexIs(operand.shape, indices, result.shape, index);
    }
  }

  ghost predicate IsGather<T>(op: GatherOp, operand: Tensor<T>, indices: Tensor<int>, fill: bool, zero: T,
                              result: Tensor<T>)
    requires operand.Valid() && indices.Valid() && op.Constraints(operand.shape, indices.shape)
  {
    && result.Valid() && op.HasResultShape(operand.shape, indices.shape, result.shape)
    && forall index :: InShape(result.shape, index) ==>
      result.At(index) == GatherElement(op, operand, indices, fill, zero, result.shape, index)
  }

  lemma GatherFromNearest<T>(op: GatherOp, operand: Tensor<T>, indices: Tensor<int>, fill: bool, zero: T,
                             result: Tensor<T>)
    requires operand.Valid() && indices.Valid() && op.Constraints(operand.shape, indices.shape)
    requires IsGather(op, operand, indices, fill, zero, result)
    ensures forall index :: InShape(result.shape, index) ==>
      && op.Readable(operand.shape, indices, result.shape, index)
      && FromNearest(op, operand, indices, fill, zero, result, index)
  {
    hide FromNearest, GatherElement, GatherOp.Constraints, GatherOp.HasResultShape;
    forall index | InShape(result.shape, index)
      ensures op.Readable(operand.shape, indices, result.shape, index)
      ensures FromNearest(op, operand, indices, fill, zero, result, index)
    {
      ElementFromNearest(op, operand, indices, fill, zero, result, index);
    }
  }
}
