/// Scales of quantize_rows: the divisor tile from the folded maxima,
/// spread over the rows. Division is any function of a lane.
module QuantizeScale {
  import opened RowMajor
  import opened VectorUnit
  import opened WordOrder
  import opened QuantizeMaxima
  import opened QuantizePartial
  import opened QuantizeDivisor

  datatype Ops = Ops(divide: (Word, Word) -> Word, convert: Word -> Word, fp8Max: Word, minScale: Word)

  const INFINITY: Word := 0x7F80_0000
  const NAN: Word := 0x7FC0_0000

  /// The larger of a quotient and the least scale, or NaN for a NaN maximum.
  function Raised(ops: Ops, amax: Word, quotient: Word): Word {
    if Below(Biased(INFINITY), Biased(Loaded(amax))) then NAN else IMax(Loaded(quotient), ops.minScale)
  }

  /// A row's scale from its maximum.
  function ScaleOf(ops: Ops, amax: Word): Word { Raised(ops, amax, ops.divide(amax, ops.fp8Max)) }

  function RaisedVec(ops: Ops, t: Vec, c: Vec): (v: Vec)
    ensures forall h: nat, j: nat :: h < 4 && j < 8 ==> Lane(v, h, j) == Raised(ops, Lane(t, h, j), Lane(c, h, j))
  {
    seq(4, h requires 0 <= h < 4 => seq(8, j requires 0 <= j < 8 => Raised(ops, t[h][j], c[h][j])))
  }

  function DivideVec(ops: Ops, a: Vec, b: Vec): (v: Vec)
    ensures forall h: nat, j: nat :: h < 4 && j < 8 ==> Lane(v, h, j) == ops.divide(Lane(a, h, j), Lane(b, h, j))
  {
    seq(4, h requires 0 <= h < 4 => seq(8, j requires 0 <= j < 8 => ops.divide(a[h][j], b[h][j])))
  }

  // ---- the divisor ----

  /// The row maxima and fp8_max, as the first vectors of two tiles.
  method StageScale(d: Accumulator, t: Accumulator, c: Accumulator, groups: nat, ops: Ops)
    requires d.Length == 32 && t.Length == 32 && c.Length == 32 && d != t && d != c && t != c && groups <= 8
    modifies t, c
    ensures forall q: nat :: q < groups ==> t[q] == LoadVec(d[AccVec(q)]) && c[q] == Fill(ops.fp8Max)
  {
    hide LoadVec, AccVec, Fill;
    var q := 0;
    while q < groups
      invariant 0 <= q <= groups
      invariant forall p: nat :: p < q ==> t[p] == LoadVec(d[AccVec(p)]) && c[p] == Fill(ops.fp8Max)
    {
      t[q] := LoadVec(d[AccVec(q)]);
      c[q] := Fill(ops.fp8Max);
      q := q + 1;
    }
  }

  /// Vectors 0 .. n - 1 of x by those of y, into `into`.
  method DivideVectors(x: Accumulator, y: Accumulator, into: Accumulator, n: nat, ops: Ops)
    requires x.Length == 32 && y.Length == 32 && into.Length == 32 && n <= 32 && (into == x || into == y)
    modifies into
    ensures forall p: nat :: p < n ==> into[p] == DivideVec(ops, old(x[p]), old(y[p]))
    ensures forall p: nat :: n <= p < 32 ==> into[p] == old(into[p])
  {
    hide DivideVec;
    var q := 0;
    while q < n
      invariant 0 <= q <= n
      invariant forall p: nat :: p < q ==> into[p] == DivideVec(ops, old(x[p]), old(y[p]))
      invariant forall p: nat :: q <= p < 32 ==> into[p] == old(into[p])
    {
      into[q] := DivideVec(ops, x[q], y[q]);
      q := q + 1;
    }
  }

  /// The vectors of one band of rows.
  method StoreBand(d: Accumulator, g: nat, v: Vec)
    requires d.Length == 32 && g < 8
    modifies d
    ensures forall u: nat :: u < 4 ==> d[Slot(4 * g, u)] == v
    ensures forall g': nat, u: nat :: g' < 8 && g' != g && u < 4 ==> BandVec(d, g', u) == old(BandVec(d, g', u))
  {
    hide VecAt;
    BandSlot(g, 0);
    BandSlot(g, 1);
    BandSlot(g, 2);
    BandSlot(g, 3);
    forall g': nat, u: nat, w: nat | g' < 8 && g' != g && u < 4 && w < 4
      ensures Slot(4 * g', u) != Slot(4 * g, w)
    {
      SlotsApart(g', u, g, w);
    }
    var f, b := if g < 4 then 0 else 2, g % 4;
    hide Slot;
    d[VecAt(f, b, 0)] := v;
    d[VecAt(f, b, 1)] := v;
    d[VecAt(f + 1, b, 0)] := v;
    d[VecAt(f + 1, b, 1)] := v;
  }

  function BandVec(d: Accumulator, g: nat, u: nat): Vec
    requires d.Length == 32 && g < 8 && u < 4
    reads d
  {
    d[Slot(4 * g, u)]
  }

  lemma SlotsApart(g: nat, u: nat, k: nat, w: nat)
    requires g < 8 && u < 4 && k < 8 && w < 4
    ensures Slot(4 * g, u) == Slot(4 * k, w) <==> g == k && u == w
  {
    SlotSum(g, u);
    SlotSum(k, w);
    hide Slot;
  }

  lemma SlotSum(g: nat, u: nat)
    requires g < 8 && u < 4
    ensures Slot(4 * g, u) == 8 * ((if g < 4 then 0 else 2) + (if u < 2 then 0 else 1)) + 2 * (if g < 4 then g
      else g - 4) + (if u == 1 || u == 3 then 1 else 0)
  {
    BandPlace(g, 0);
  }

  /// Every band gets, in all its vectors, the scale of its accumulator band.
  ghost predicate Spread(d: Accumulator, t: Accumulator, c: Accumulator, ops: Ops, groups: nat, g: nat)
    requires d.Length == 32 && t.Length == 32 && c.Length == 32 && 0 < groups <= 8 && g < 8
    reads d, t, c
  {
    forall u: nat :: u < 4 ==> BandVec(d, g, u) == RaisedVec(ops, t[g % groups], c[g % groups])
  }

  method SpreadScale(d: Accumulator, t: Accumulator, c: Accumulator, stride: nat, ops: Ops)
    requires IsStride(stride) && d.Length == 32 && t.Length == 32 && c.Length == 32 && d != t && d != c
    modifies d
    ensures forall g: nat :: g < 8 ==> Spread(d, t, c, ops, GroupsOf(stride), g)
  {
    hide RaisedVec, GroupsOf, PackOf, BandVec;
    var groups, q := GroupsOf(stride), 0;
    while q < groups
      invariant 0 <= q <= groups
      invariant forall g: nat :: g < 8 && g % groups < q ==> Spread(d, t, c, ops, groups, g)
    {
      var scale := RaisedVec(ops, t[q], c[q]);
      var k := 0;
      while k < PackOf(stride)
        invariant 0 <= k <= PackOf(stride)
        invariant forall g: nat :: g < 8 && g % groups < q ==> Spread(d, t, c, ops, groups, g)
        invariant forall g: nat :: g < 8 && g % groups == q && g / groups < k ==> Spread(d, t, c, ops, groups, g)
      {
        BandFits(stride, k, q);
        DivModUnique(k * groups + q, groups, k, q);
        StoreScale(d, t, c, groups, k * groups + q, scale, ops);
        forall g: nat | g < 8 && g % groups == q && g / groups < k + 1 ensures Spread(d, t, c, ops, groups, g) {
          DivMod(g, groups);
          if g / groups == k { assert g == k * groups + q; }
        }
        k := k + 1;
      }
      forall g: nat | g < 8 && g % groups == q
        ensures g / groups < PackOf(stride)
      {
        BandShare(g, groups, PackOf(stride));
      }
      q := q + 1;
    }
    forall g: nat | g < 8 ensures Spread(d, t, c, ops, groups, g) { DivMod(g, groups); }
  }

  lemma BandShare(g: nat, groups: nat, pack: nat)
    requires g < 8 && groups > 0 && pack * groups == 8
    ensures g / groups < pack
  {
    DivMod(g, groups);
    if g / groups >= pack { MulMonotone(pack, g / groups, groups); }
  }

  method StoreScale(d: Accumulator, t: Accumulator, c: Accumulator, groups: nat, g: nat, scale: Vec, ops: Ops)
    requires d.Length == 32 && t.Length == 32 && c.Length == 32 && d != t && d != c && 0 < groups <= 8 && g < 8
    requires scale == RaisedVec(ops, t[g % groups], c[g % groups])
    modifies d
    ensures forall k: nat :: k < 8 && (k == g || old(Spread(d, t, c, ops, groups, k))) ==>
      Spread(d, t, c, ops, groups, k)
  {
    hide RaisedVec;
    StoreBand(d, g, scale);
  }

  /// A row of the divisor is its scale, repeated.
  ghost predicate IsDivisor(d: seq<Vec>, ops: Ops, pages: seq<Tile>, stride: nat)
    requires IsStride(stride)
  {
    |d| == 32 && forall r: nat, c: nat :: r < 32 && c < 32 ==>
      At(d, r, c) == ScaleOf(ops, RowMax(pages, r % stride, |pages| * 32))
  }

  /// Gathered maxima folded, scaled and spread out into a divisor tile.
  method MakeDivisor(d: Accumulator, t: Accumulator, c: Accumulator, gather: seq<Word>, stride: nat, cores: nat,
                     ops: Ops, ghost shares: seq<seq<Tile>>)
    requires cores == |shares| && d.Length == 32 && t.Length == 32 && c.Length == 32 && d != t && d != c && t != c
    requires IsStride(stride) && |gather| == GatherTiles(|shares|, stride) * 1024 && HoldsMaxima(gather, stride, shares)
    modifies d, t, c
    ensures IsDivisor(d[..], ops, AllPages(shares), stride)
  {
    hide GatherTiles, GatherSettled, AllGathered, HoldsMaxima, GroupsOf, Spread, AccVec, LoadVec, DivideVec, AllPages,
         IsDivisor;
    ghost var pages := AllPages(shares);
    TilesForBands(|shares|, stride);
    BufferSettled(gather, stride, shares);
    FoldGathers(d, gather, stride, cores);
    FoldedMaxima(d, gather, stride, shares);
    StageScale(d, t, c, GroupsOf(stride), ops);
    DivideVectors(t, c, c, GroupsOf(stride), ops);
    SpreadScale(d, t, c, stride, ops);
    DivisorRows(d, t, c, ops, pages, stride);
  }

  /// An accumulator band's lanes are the maxima of its rows.
  ghost predicate BandIsMaxima(v: Vec, q: nat, pages: seq<Tile>)
    requires q < 8
  {
    forall h: nat, j: nat :: h < 4 && j < 8 ==> Lane(v, h, j) == RowMax(pages, 4 * q + h, |pages| * 32)
  }

  lemma FoldedMaxima(d: Accumulator, gather: seq<Word>, stride: nat, shares: seq<seq<Tile>>)
    requires IsStride(stride) && HoldsMaxima(gather, stride, shares) && 64 * (|shares| * GroupsOf(stride)) <= |gather|
    requires AllGathered(d, gather, GroupsOf(stride), |shares| * GroupsOf(stride))
    ensures forall q: nat :: q < GroupsOf(stride) ==> BandIsMaxima(LoadVec(d[AccVec(q)]), q, AllPages(shares))
  {
    hide Settled, AtMost, Gathered, HoldsMaxima, AccVec, RowMax, RowsBelow, LoadVec, AllPages, Lane;
    forall q: nat | q < GroupsOf(stride) ensures BandIsMaxima(LoadVec(d[AccVec(q)]), q, AllPages(shares)) {
      SettledLoads(d[AccVec(q)]);
      forall h: nat, j: nat | h < 4 && j < 8
        ensures Lane(d[AccVec(q)], h, j) == RowMax(AllPages(shares), 4 * q + h, |AllPages(shares)| * 32)
      {
        forall bound: Word ensures AtMost(AccLane(d, q, h, j), bound) <==>
          RowsBelow(AllPages(shares), 4 * q + h, bound) {
          GatheredIsRows(gather, stride, shares, q, h, j, bound);
        }
        IsTheRowMax(AccLane(d, q, h, j), AllPages(shares), 4 * q + h);
      }
    }
  }

  lemma DivisorRows(d: Accumulator, t: Accumulator, c: Accumulator, ops: Ops, pages: seq<Tile>, stride: nat)
    requires IsStride(stride) && d.Length == 32 && t.Length == 32 && c.Length == 32
    requires forall q: nat :: q < GroupsOf(stride) ==>
      BandIsMaxima(t[q], q, pages) && c[q] == DivideVec(ops, t[q], Fill(ops.fp8Max))
    requires forall g: nat :: g < 8 ==> Spread(d, t, c, ops, GroupsOf(stride), g)
    ensures IsDivisor(d[..], ops, pages, stride)
  {
    hide RowMax, Raised, Lane, Slot, PlaceOf, GroupOf;
    forall r: nat, col: nat | r < 32 && col < 32
      ensures At(d[..], r, col) == ScaleOf(ops, RowMax(pages, r % stride, |pages| * 32))
    {
      var g, h := r / 4, r % 4;
      RowInStride(stride, g, h);
      SlotInBand(g, h, GroupOf(col));
      assert Spread(d, t, c, ops, GroupsOf(stride), g);
      assert BandVec(d, g, GroupOf(col)) == RaisedVec(ops, t[g % GroupsOf(stride)], c[g % GroupsOf(stride)]);
      assert BandIsMaxima(t[g % GroupsOf(stride)], g % GroupsOf(stride), pages);
    }
  }

  lemma RowInStride(stride: nat, g: nat, h: nat)
    requires IsStride(stride) && g < 8 && h < 4
    ensures g % GroupsOf(stride) < GroupsOf(stride) && (4 * g + h) % stride == 4 * (g % GroupsOf(stride)) + h
  {
    var groups := GroupsOf(stride);
    DivMod(g, groups);
    MulAssoc(g / groups, groups, 4);
    assert g / groups * stride == g / groups * groups * 4;
    DivModUnique(4 * g + h, stride, g / groups, 4 * (g % groups) + h);
  }
}
