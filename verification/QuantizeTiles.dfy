/// Dense tiles of quantize_rows divided by the divisor and converted: whole, or
/// only the rows of every four that hold data, each gathered into one vector.
///
/// Division and conversion are any functions of a lane.
module QuantizeTiles {
  import opened RowMajor
  import opened VectorUnit
  import opened QuantizeMaxima
  import opened QuantizeScale

  function ConvertVec(ops: Ops, a: Vec): (v: Vec)
    ensures forall h: nat, j: nat :: h < 4 && j < 8 ==> Lane(v, h, j) == ops.convert(Lane(a, h, j))
  {
    seq(4, h requires 0 <= h < 4 => seq(8, j requires 0 <= j < 8 => ops.convert(a[h][j])))
  }

  /// A lane's code.
  function Code(ops: Ops, x: Word, d: Word): Word { ops.convert(ops.divide(x, d)) }

  // ---- rows in whole vectors ----

  /// Sub-row i of the vectors of band b in one vector.
  function RowVec(t: seq<Vec>, b: nat, i: nat): (v: Vec)
    requires |t| == 32 && b < 8 && i < 4
    ensures forall u: nat, j: nat :: u < 4 && j < 8 ==> Lane(v, u, j) == Lane(t[Slot(4 * b, u)], i, j)
  {
    Transposed([t[Slot(4 * b, 0)], t[Slot(4 * b, 1)], t[Slot(4 * b, 2)], t[Slot(4 * b, 3)]])[i]
  }

  /// Only a single band may have three data rows.
  predicate RowsFit(bands: nat, data: nat) { 0 < bands <= 8 && 0 < data <= 3 && (data <= 2 || bands == 1) }

  function RowPlace(b: nat, data: nat, i: nat): nat { b * data + i }

  /// A band's rows go below the vectors of later bands.
  lemma RowsBelowBands(bands: nat, data: nat, b: nat, i: nat)
    requires RowsFit(bands, data) && b < bands && i < data
    ensures RowPlace(b, data, i) < 32
    ensures forall k: nat, u: nat :: b < k < bands && u < 4 ==> RowPlace(b, data, i) < Slot(4 * k, u)
    ensures forall k: nat, l: nat :: b < k < bands && l < data ==> RowPlace(b, data, i) < RowPlace(k, data, l)
  {
    hide Slot;
    forall k: nat, u: nat | b < k < bands && u < 4 ensures RowPlace(b, data, i) < Slot(4 * k, u) {
      SlotSum(k, u);
      MulMonotone(data, 2, b);
    }
    forall k: nat, l: nat | b < k < bands && l < data ensures RowPlace(b, data, i) < RowPlace(k, data, l) {
      MulStrict(b, k, data);
    }
    if data > 2 { assert b == 0; } else { MulMonotone(data, 2, b); }
  }

  ghost predicate RowGathered(t: seq<Vec>, before: seq<Vec>, data: nat, b: nat, i: nat)
    requires |t| == 32 && |before| == 32 && b < 8 && i < 4
  {
    RowPlace(b, data, i) < 32 && t[RowPlace(b, data, i)] == RowVec(before, b, i)
  }

  method GatherBand(t: Accumulator, b: nat, bands: nat, data: nat)
    requires t.Length == 32 && RowsFit(bands, data) && b < bands
    modifies t
    ensures forall i: nat :: i < data ==> RowGathered(t[..], old(t[..]), data, b, i)
    ensures forall n: nat :: n < 32 && !(RowPlace(b, data, 0) <= n < RowPlace(b, data, data)) ==> t[n] == old(t[n])
  {
    hide Slot, RowVec;
    RowsBelowBands(bands, data, b, 0);
    RowsBelowBands(bands, data, b, data - 1);
    var v0, v1, v2 := RowVec(t[..], b, 0), RowVec(t[..], b, 1), RowVec(t[..], b, 2);
    t[b * data] := v0;
    if data > 1 { t[b * data + 1] := v1; }
    if data > 2 { t[b * data + 2] := v2; }
  }

  ghost predicate SameBand(t: seq<Vec>, before: seq<Vec>, k: nat)
    requires |t| == 32 && |before| == 32 && k < 8
  {
    forall u: nat :: u < 4 ==> t[Slot(4 * k, u)] == before[Slot(4 * k, u)]
  }

  lemma SameRows(t: seq<Vec>, before: seq<Vec>, b: nat, i: nat)
    requires |t| == 32 && |before| == 32 && b < 8 && i < 4 && SameBand(t, before, b)
    ensures RowVec(t, b, i) == RowVec(before, b, i)
  {
    hide Slot;
  }

  /// The data rows of the first bands, each in one vector.
  method GatherRows(t: Accumulator, bands: nat, data: nat)
    requires t.Length == 32 && RowsFit(bands, data)
    modifies t
    ensures forall b: nat, i: nat :: b < bands && i < data ==> RowGathered(t[..], old(t[..]), data, b, i)
  {
    hide Slot, RowVec, RowPlace;
    ghost var before := t[..];
    var b := 0;
    while b < bands
      invariant 0 <= b <= bands
      invariant forall k: nat, i: nat :: k < b && i < data ==> RowGathered(t[..], before, data, k, i)
      invariant forall k: nat :: b <= k < bands ==> SameBand(t[..], before, k)
    {
      ghost var start := t[..];
      GatherBand(t, b, bands, data);
      GatheredOne(t[..], start, before, bands, data, b);
      b := b + 1;
    }
  }

  lemma GatheredOne(t: seq<Vec>, start: seq<Vec>, before: seq<Vec>, bands: nat, data: nat, b: nat)
    requires |t| == 32 && |start| == 32 && |before| == 32 && RowsFit(bands, data) && b < bands
    requires forall i: nat :: i < data ==> RowGathered(t, start, data, b, i)
    requires forall n: nat :: n < 32 && !(RowPlace(b, data, 0) <= n < RowPlace(b, data, data)) ==> t[n] == start[n]
    requires forall k: nat, i: nat :: k < b && i < data ==> RowGathered(start, before, data, k, i)
    requires forall k: nat :: b <= k < bands ==> SameBand(start, before, k)
    ensures forall k: nat, i: nat :: k < b + 1 && i < data ==> RowGathered(t, before, data, k, i)
    ensures forall k: nat :: b < k < bands ==> SameBand(t, before, k)
  {
    hide Slot, RowVec;
    forall k: nat, i: nat | k < b + 1 && i < data ensures RowGathered(t, before, data, k, i) {
      if k == b {
        SameRows(start, before, b, i);
        assert RowGathered(t, start, data, b, i);
      } else {
        assert RowGathered(start, before, data, k, i);
        RowsBelowBands(bands, data, k, i);
        assert RowPlace(k, data, i) < RowPlace(b, data, 0);
      }
    }
    forall k: nat, u: nat | b < k < bands && u < 4 ensures t[Slot(4 * k, u)] == before[Slot(4 * k, u)] {
      RowsBelowBands(bands, data, b, data - 1);
      assert RowPlace(b, data, data - 1) < Slot(4 * k, u);
      assert SameBand(start, before, k);
    }
  }

  // ---- and back ----

  /// The data rows of band b are back in its vectors.
  ghost predicate BandScattered(t: seq<Vec>, before: seq<Vec>, data: nat, b: nat)
    requires |t| == 32 && |before| == 32 && b < 8 && data <= 4
  {
    forall i: nat, u: nat, j: nat :: i < data && u < 4 && j < 8 ==> LaneBack(t, before, data, b, i, u, j)
  }

  ghost predicate LaneBack(t: seq<Vec>, before: seq<Vec>, data: nat, b: nat, i: nat, u: nat, j: nat)
    requires |t| == 32 && |before| == 32 && b < 8 && i < 4 && u < 4 && j < 8
  {
    RowPlace(b, data, i) < 32 && Lane(t[Slot(4 * b, u)], i, j) == Lane(before[RowPlace(b, data, i)], u, j)
  }

  ghost predicate RowsKept(t: seq<Vec>, before: seq<Vec>, data: nat, n: nat)
    requires |t| == 32 && |before| == 32
  {
    forall p: nat :: p < n * data && p < 32 ==> t[p] == before[p]
  }

  method ScatterBand(t: Accumulator, b: nat, bands: nat, data: nat)
    requires t.Length == 32 && RowsFit(bands, data) && b < bands
    modifies t
    ensures BandScattered(t[..], old(t[..]), data, b)
    ensures forall n: nat :: n < 32 && (forall u: nat :: u < 4 ==> n != Slot(4 * b, u)) ==> t[n] == old(t[n])
  {
    hide Lane, Transposed;
    RowsBelowBands(bands, data, b, 0);
    RowsBelowBands(bands, data, b, data - 1);
    var v0 := t[b * data];
    var v1, v2, v3 := v0, v0, v0;
    if data > 1 { v1 := t[b * data + 1]; }
    if data > 2 { v2 := t[b * data + 2]; }
    var v := Transposed([v0, v1, v2, v3]);
    ghost var before := t[..];
    StoreFour(t, b, v);
    forall i: nat, u: nat, j: nat | i < data && u < 4 && j < 8
      ensures LaneBack(t[..], before, data, b, i, u, j)
    {
      assert [v0, v1, v2, v3][i] == before[RowPlace(b, data, i)];
      assert t[..][Slot(4 * b, u)] == v[u];
    }
  }

  method StoreFour(t: Accumulator, b: nat, v: Four)
    requires t.Length == 32 && b < 8
    modifies t
    ensures forall u: nat :: u < 4 ==> t[Slot(4 * b, u)] == v[u]
    ensures forall n: nat :: n < 32 && (forall u: nat :: u < 4 ==> n != Slot(4 * b, u)) ==> t[n] == old(t[n])
  {
    hide VecAt, Slot;
    BandSlot(b, 0);
    BandSlot(b, 1);
    BandSlot(b, 2);
    BandSlot(b, 3);
    forall u: nat, w: nat | u < 4 && w < 4 && u != w
      ensures Slot(4 * b, u) != Slot(4 * b, w)
    {
      SlotsApart(b, u, b, w);
    }
    var f := if b < 4 then 0 else 2;
    t[VecAt(f, b % 4, 0)] := v[0];
    t[VecAt(f, b % 4, 1)] := v[1];
    t[VecAt(f + 1, b % 4, 0)] := v[2];
    t[VecAt(f + 1, b % 4, 1)] := v[3];
  }

  /// The reverse of GatherRows, last band first.
  method ScatterRows(t: Accumulator, bands: nat, data: nat)
    requires t.Length == 32 && RowsFit(bands, data)
    modifies t
    ensures forall b: nat :: b < bands ==> BandScattered(t[..], old(t[..]), data, b)
  {
    hide Slot, Lane, RowPlace;
    ghost var before := t[..];
    var n := 0;
    while n < bands
      invariant 0 <= n <= bands
      invariant forall k: nat :: bands - n <= k < bands ==> BandScattered(t[..], before, data, k)
      invariant RowsKept(t[..], before, data, bands - n)
    {
      ghost var start := t[..];
      var b := bands - 1 - n;
      ScatterBand(t, b, bands, data);
      ScatteredOne(t[..], start, before, bands, data, b);
      n := n + 1;
    }
  }

  lemma ScatteredOne(t: seq<Vec>, start: seq<Vec>, before: seq<Vec>, bands: nat, data: nat, b: nat)
    requires |t| == 32 && |start| == 32 && |before| == 32 && RowsFit(bands, data) && b < bands
    requires BandScattered(t, start, data, b) && RowsKept(start, before, data, b + 1)
    requires forall n: nat :: n < 32 && (forall u: nat :: u < 4 ==> n != Slot(4 * b, u)) ==> t[n] == start[n]
    requires forall k: nat :: b < k < bands ==> BandScattered(start, before, data, k)
    ensures forall k: nat :: b <= k < bands ==> BandScattered(t, before, data, k)
    ensures RowsKept(t, before, data, b)
  {
    hide Slot, Lane;
    forall k: nat | b < k < bands ensures BandScattered(t, before, data, k) {
      assert BandScattered(start, before, data, k);
      forall u: nat | u < 4 ensures t[Slot(4 * k, u)] == start[Slot(4 * k, u)] {
        forall w: nat | w < 4 ensures Slot(4 * k, u) != Slot(4 * b, w) { SlotsApart(k, u, b, w); }
      }
      ScatteredSame(t, start, before, data, k);
    }
    MulStrict(b, b + 1, data);
    forall i: nat, u: nat, j: nat | i < data && u < 4 && j < 8 ensures LaneBack(t, before, data, b, i, u, j) {
      assert LaneBack(t, start, data, b, i, u, j);
      assert RowPlace(b, data, i) < (b + 1) * data;
    }
    forall p: nat | p < b * data && p < 32 ensures t[p] == before[p] {
      forall u: nat | u < 4 ensures p < Slot(4 * b, u) {
        BandAbove(bands, data, b, u);
      }
      MulMonotone(b, b + 1, data);
    }
  }

  lemma ScatteredSame(t: seq<Vec>, start: seq<Vec>, before: seq<Vec>, data: nat, k: nat)
    requires |t| == 32 && |start| == 32 && |before| == 32 && k < 8 && data <= 4
    requires SameBand(t, start, k) && BandScattered(start, before, data, k)
    ensures BandScattered(t, before, data, k)
  {
    hide Slot, Lane, RowPlace;
    forall i: nat, u: nat, j: nat | i < data && u < 4 && j < 8
      ensures LaneBack(t, before, data, k, i, u, j)
    {
      assert LaneBack(start, before, data, k, i, u, j);
    }
  }

  lemma BandAbove(bands: nat, data: nat, b: nat, u: nat)
    requires RowsFit(bands, data) && b < bands && u < 4
    ensures b * data <= Slot(4 * b, u)
  {
    SlotSum(b, u);
    hide Slot;
    if data > 2 { assert b == 0; } else { MulMonotone(data, 2, b); }
  }

  // ---- a tile's codes ----

  method ConvertVectors(x: Accumulator, n: nat, ops: Ops)
    requires x.Length == 32 && n <= 32
    modifies x
    ensures forall p: nat :: p < n ==> x[p] == ConvertVec(ops, old(x[p]))
    ensures forall p: nat :: n <= p < 32 ==> x[p] == old(x[p])
  {
    hide ConvertVec;
    var q := 0;
    while q < n
      invariant 0 <= q <= n
      invariant forall p: nat :: p < q ==> x[p] == ConvertVec(ops, old(x[p]))
      invariant forall p: nat :: q <= p < 32 ==> x[p] == old(x[p])
    {
      x[q] := ConvertVec(ops, x[q]);
      q := q + 1;
    }
  }

  /// Rows that hold data, of the first `bands` bands.
  predicate IsData(bands: nat, tensorRows: nat, r: nat) { r < 4 * bands && r % 4 < tensorRows }

  /// The data rows of x hold their elements' codes.
  ghost predicate Coded(after: seq<Vec>, x: seq<Vec>, d: seq<Vec>, ops: Ops, bands: nat, tensorRows: nat) {
    && |after| == 32 && |x| == 32 && |d| == 32
    && forall r: nat, c: nat :: r < 32 && c < 32 && IsData(bands, tensorRows, r) ==>
       At(after, r, c) == Code(ops, At(x, r, c), At(d, r, c))
  }

  /// The data rows of d are as they were.
  ghost predicate DataKept(after: seq<Vec>, d: seq<Vec>, bands: nat, tensorRows: nat) {
    |after| == 32 && |d| == 32 && forall r: nat, c: nat :: r < 32 && c < 32 && IsData(bands, tensorRows, r) ==>
      At(after, r, c) == At(d, r, c)
  }

  lemma VectorsFit(bands: nat, data: nat)
    requires RowsFit(bands, data)
    ensures bands * data <= 32
  {
    MulMonotone(bands, 8, data);
  }

  lemma RowInVectors(bands: nat, data: nat, b: nat, i: nat)
    requires b < bands && i < data
    ensures RowPlace(b, data, i) < bands * data
  {
    MulStrict(b, bands, data);
  }

  /// A row's elements are in its sub-row of its band's vectors.
  lemma RowLanes(t: seq<Vec>, r: nat, c: nat)
    requires |t| == 32 && r < 32 && c < 32
    ensures At(t, r, c) == Lane(t[Slot(4 * (r / 4), GroupOf(c))], r % 4, PlaceOf(c))
  {
    hide Lane, Slot, PlaceOf, GroupOf;
    SlotInBand(r / 4, r % 4, GroupOf(c));
  }

  lemma CodedRows(after: seq<Vec>, x: seq<Vec>, d: seq<Vec>, xg: seq<Vec>, dg: seq<Vec>, xd: seq<Vec>, q: seq<Vec>,
                  ops: Ops, data: nat)
    requires RowsFit(8, data) && |after| == 32 && |x| == 32 && |d| == 32 && |xg| == 32 && |dg| == 32 && |xd| == 32
      && |q| == 32
    requires RowsGathered(xg, x, data) && RowsGathered(dg, d, data) && RowsScattered(after, q, data)
    requires Divided(xd, xg, dg, 8 * data, ops) && Converted(q, xd, 8 * data, ops)
    ensures Coded(after, x, d, ops, 8, data)
  {
    hide Lane, Slot, RowPlace, GroupOf, PlaceOf, At, RowVec, ConvertVec, DivideVec;
    forall r: nat, c: nat | r < 32 && c < 32 && IsData(8, data, r)
      ensures At(after, r, c) == Code(ops, At(x, r, c), At(d, r, c))
    {
      var b, i, u, j := r / 4, r % 4, GroupOf(c), PlaceOf(c);
      RowLanes(after, r, c);
      RowLanes(x, r, c);
      RowLanes(d, r, c);
      assert BandScattered(after, q, data, b);
      assert LaneBack(after, q, data, b, i, u, j);
      RowInVectors(8, data, b, i);
      assert RowGathered(xg, x, data, b, i) && RowGathered(dg, d, data, b, i);
    }
  }

  lemma KeptRows(after: seq<Vec>, d: seq<Vec>, dg: seq<Vec>, data: nat)
    requires RowsFit(8, data) && |after| == 32 && |d| == 32 && |dg| == 32
    requires RowsGathered(dg, d, data) && RowsScattered(after, dg, data)
    ensures DataKept(after, d, 8, data)
  {
    hide Lane, Slot, RowPlace, GroupOf, PlaceOf, At, RowVec;
    forall r: nat, c: nat | r < 32 && c < 32 && IsData(8, data, r) ensures At(after, r, c) == At(d, r, c) {
      var b, i, u, j := r / 4, r % 4, GroupOf(c), PlaceOf(c);
      RowLanes(after, r, c);
      RowLanes(d, r, c);
      assert BandScattered(after, dg, data, b);
      assert LaneBack(after, dg, data, b, i, u, j);
      assert RowGathered(dg, d, data, b, i);
    }
  }

  lemma AllGathered(t: seq<Vec>, before: seq<Vec>, data: nat)
    requires |t| == 32 && |before| == 32 && data <= 4
    requires forall b: nat, i: nat :: b < 8 && i < data ==> RowGathered(t, before, data, b, i)
    ensures RowsGathered(t, before, data)
  {}

  lemma AllScattered(t: seq<Vec>, before: seq<Vec>, data: nat)
    requires |t| == 32 && |before| == 32 && data <= 4
    requires forall b: nat :: b < 8 ==> BandScattered(t, before, data, b)
    ensures RowsScattered(t, before, data)
  {}

  lemma WholeCoded(after: seq<Vec>, x: seq<Vec>, d: seq<Vec>, ops: Ops)
    requires |after| == 32 && |x| == 32 && |d| == 32
    requires forall p: nat :: p < 32 ==> after[p] == ConvertVec(ops, DivideVec(ops, x[p], d[p]))
    ensures Coded(after, x, d, ops, 8, 4)
  {
    hide Lane, Slot, GroupOf, PlaceOf, SubRowOf, ConvertVec, DivideVec;
    forall r: nat, c: nat | r < 32 && c < 32 ensures At(after, r, c) == Code(ops, At(x, r, c), At(d, r, c)) {
      assert after[Slot(r, GroupOf(c))]
        == ConvertVec(ops, DivideVec(ops, x[Slot(r, GroupOf(c))], d[Slot(r, GroupOf(c))]));
    }
  }

  lemma SomeCoded(after: seq<Vec>, x: seq<Vec>, d: seq<Vec>, ops: Ops, rows: nat)
    requires Coded(after, x, d, ops, 8, 4)
    ensures Coded(after, x, d, ops, 8, rows)
  {
    hide At, Code;
  }

  // ---- up to three tiles at once ----

  /// Tiles of DST, and a divisor, that are all different.
  ghost predicate Apart(xs: seq<Accumulator>, d: Accumulator) {
    && |xs| <= 3 && d.Length == 32 && d !in xs && (forall k: nat :: k < |xs| ==> xs[k].Length == 32)
    && forall k: nat, l: nat :: k < l < |xs| ==> xs[k] != xs[l]
  }

  ghost function Contents(xs: seq<Accumulator>): (s: seq<seq<Vec>>)
    reads xs
    ensures |s| == |xs| && forall k: nat :: k < |xs| ==> s[k] == xs[k][..]
  {
    seq(|xs|, k requires 0 <= k < |xs| reads xs => xs[k][..])
  }

  ghost predicate RowsGathered(t: seq<Vec>, before: seq<Vec>, data: nat)
    requires |t| == 32 && |before| == 32 && data <= 4
  {
    forall b: nat, i: nat :: b < 8 && i < data ==> RowGathered(t, before, data, b, i)
  }

  ghost predicate RowsScattered(t: seq<Vec>, before: seq<Vec>, data: nat)
    requires |t| == 32 && |before| == 32 && data <= 4
  {
    forall b: nat :: b < 8 ==> BandScattered(t, before, data, b)
  }

  ghost predicate Divided(t: seq<Vec>, x: seq<Vec>, d: seq<Vec>, n: nat, ops: Ops)
    requires |t| == 32 && |x| == 32 && |d| == 32 && n <= 32
  {
    forall p: nat :: p < n ==> t[p] == DivideVec(ops, x[p], d[p])
  }

  ghost predicate Converted(t: seq<Vec>, x: seq<Vec>, n: nat, ops: Ops)
    requires |t| == 32 && |x| == 32 && n <= 32
  {
    forall p: nat :: p < n ==> t[p] == ConvertVec(ops, x[p])
  }

  method GatherAll(xs: seq<Accumulator>, ghost d: Accumulator, data: nat)
    requires Apart(xs, d) && RowsFit(8, data)
    modifies xs
    ensures d[..] == old(d[..])
    ensures forall k: nat :: k < |xs| ==> RowsGathered(xs[k][..], old(xs[k][..]), data)
  {
    hide RowGathered;
    var j := 0;
    while j < |xs|
      invariant 0 <= j <= |xs| && d[..] == old(d[..])
      invariant forall k: nat :: k < j ==> RowsGathered(xs[k][..], old(xs[k][..]), data)
      invariant forall k: nat :: j <= k < |xs| ==> xs[k][..] == old(xs[k][..])
    {
      GatherRows(xs[j], 8, data);
      j := j + 1;
    }
  }

  method DivideAll(xs: seq<Accumulator>, d: Accumulator, n: nat, ops: Ops)
    requires Apart(xs, d) && n <= 32
    modifies xs
    ensures d[..] == old(d[..])
    ensures forall k: nat :: k < |xs| ==> Divided(xs[k][..], old(xs[k][..]), d[..], n, ops)
  {
    hide DivideVec;
    var j := 0;
    while j < |xs|
      invariant 0 <= j <= |xs| && d[..] == old(d[..])
      invariant forall k: nat :: k < j ==> Divided(xs[k][..], old(xs[k][..]), d[..], n, ops)
      invariant forall k: nat :: j <= k < |xs| ==> xs[k][..] == old(xs[k][..])
    {
      DivideVectors(xs[j], d, xs[j], n, ops);
      j := j + 1;
    }
  }

  method ConvertAll(xs: seq<Accumulator>, ghost d: Accumulator, n: nat, ops: Ops)
    requires Apart(xs, d) && n <= 32
    modifies xs
    ensures d[..] == old(d[..])
    ensures forall k: nat :: k < |xs| ==> Converted(xs[k][..], old(xs[k][..]), n, ops)
  {
    hide ConvertVec;
    var j := 0;
    while j < |xs|
      invariant 0 <= j <= |xs| && d[..] == old(d[..])
      invariant forall k: nat :: k < j ==> Converted(xs[k][..], old(xs[k][..]), n, ops)
      invariant forall k: nat :: j <= k < |xs| ==> xs[k][..] == old(xs[k][..])
    {
      ConvertVectors(xs[j], n, ops);
      j := j + 1;
    }
  }

  method ScatterAll(xs: seq<Accumulator>, ghost d: Accumulator, data: nat)
    requires Apart(xs, d) && RowsFit(8, data)
    modifies xs
    ensures d[..] == old(d[..])
    ensures forall k: nat :: k < |xs| ==> RowsScattered(xs[k][..], old(xs[k][..]), data)
  {
    hide BandScattered;
    var j := 0;
    while j < |xs|
      invariant 0 <= j <= |xs| && d[..] == old(d[..])
      invariant forall k: nat :: k < j ==> RowsScattered(xs[k][..], old(xs[k][..]), data)
      invariant forall k: nat :: j <= k < |xs| ==> xs[k][..] == old(xs[k][..])
    {
      ScatterRows(xs[j], 8, data);
      j := j + 1;
    }
  }

  /// Only the data rows, each in a whole vector: gathered, divided, converted and put back.
  method QuantizeRows(xs: seq<Accumulator>, d: Accumulator, data: nat, ops: Ops)
    requires Apart(xs, d) && RowsFit(8, data)
    modifies xs, d
    ensures forall k: nat :: k < |xs| ==> Coded(xs[k][..], old(xs[k][..]), old(d[..]), ops, 8, data)
    ensures DataKept(d[..], old(d[..]), 8, data)
  {
    hide RowsGathered, RowsScattered, Divided, Converted, Coded, DataKept;
    VectorsFit(8, data);
    ghost var x0, d0 := Contents(xs), d[..];
    assert d !in xs && d.Length == 32;
    GatherRows(d, 8, data);
    AllGathered(d[..], d0, data);
    ghost var dg := d[..];
    GatherAll(xs, d, data);
    ghost var xg := Contents(xs);
    DivideAll(xs, d, 8 * data, ops);
    ghost var xd := Contents(xs);
    ConvertAll(xs, d, 8 * data, ops);
    ghost var q := Contents(xs);
    assert d[..] == dg;
    ScatterRows(d, 8, data);
    AllScattered(d[..], dg, data);
    KeptRows(d[..], d0, dg, data);
    ghost var last := d[..];
    ScatterAll(xs, d, data);
    assert d[..] == last;
    forall k: nat | k < |xs| ensures Coded(xs[k][..], x0[k], d0, ops, 8, data) {
      CodedRows(xs[k][..], x0[k], d0, xg[k], dg, xd[k], q[k], ops, data);
    }
  }

  /// Whole tiles, every vector.
  method QuantizeWhole(xs: seq<Accumulator>, d: Accumulator, ops: Ops)
    requires Apart(xs, d)
    modifies xs
    ensures d[..] == old(d[..]) && forall k: nat :: k < |xs| ==> Coded(xs[k][..], old(xs[k][..]), d[..], ops, 8, 4)
  {
    hide DivideVec, ConvertVec, Coded, Divided, Converted;
    assert d !in xs;
    ghost var x0 := Contents(xs);
    DivideAll(xs, d, 32, ops);
    ghost var xd := Contents(xs);
    ConvertAll(xs, d, 32, ops);
    forall k: nat | k < |xs| ensures Coded(xs[k][..], x0[k], d[..], ops, 8, 4) {
      BothSteps(xs[k][..], x0[k], xd[k], d[..], ops);
    }
  }

  lemma BothSteps(after: seq<Vec>, x: seq<Vec>, xd: seq<Vec>, d: seq<Vec>, ops: Ops)
    requires |after| == 32 && |x| == 32 && |xd| == 32 && |d| == 32
    requires Divided(xd, x, d, 32, ops) && Converted(after, xd, 32, ops)
    ensures Coded(after, x, d, ops, 8, 4)
  {
    hide DivideVec, ConvertVec;
    WholeCoded(after, x, d, ops);
  }

  /// Dense tiles of a tensor of `rows` rows, by the cheaper way that fits: the
  /// data rows hold their codes, and the divisor's data rows are back in place.
  method QuantizeTiles(xs: seq<Accumulator>, d: Accumulator, rows: nat, ops: Ops)
    requires Apart(xs, d) && 0 < rows <= 32
    modifies xs, d
    ensures forall k: nat :: k < |xs| ==> Coded(xs[k][..], old(xs[k][..]), old(d[..]), ops, 8, rows)
    ensures DataKept(d[..], old(d[..]), 8, rows)
  {
    hide Coded, DataKept;
    ghost var x0, d0 := Contents(xs), d[..];
    var data := if rows < 4 then rows else 4;
    if data < 4 && data <= 2 {
      QuantizeRows(xs, d, data, ops);
    } else {
      QuantizeWhole(xs, d, ops);
      forall k: nat | k < |xs|
        ensures Coded(xs[k][..], x0[k], d0, ops, 8, rows)
      {
        SomeCoded(xs[k][..], x0[k], d0, ops, rows);
      }
      AllKept(d[..], rows);
    }
  }

  lemma AllKept(d: seq<Vec>, rows: nat)
    requires |d| == 32
    ensures DataKept(d, d, 8, rows)
  {
    hide At;
  }
}
