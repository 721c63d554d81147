/// Phase 1 of quantize_rows: a core's row maxima over its input tiles, from
/// dense tiles that each pack the data rows of several input tiles.
module QuantizePartial {
  import opened RowMajor
  import opened VectorUnit
  import opened WordOrder
  import opened QuantizeMaxima

  /// The data rows rounded up, and the input tiles of a dense tile.
  predicate IsStride(stride: nat) { stride == 4 || stride == 8 || stride == 16 || stride == 32 }

  function PackOf(stride: nat): (pack: nat)
    requires IsStride(stride)
    ensures 0 < pack <= 8 && pack * stride == 32
  {
    32 / stride
  }

  function GroupsOf(stride: nat): (groups: nat)
    requires IsStride(stride)
    ensures 0 < groups <= 8 && 4 * groups == stride && PackOf(stride) * groups == 8
  {
    stride / 4
  }

  /// A core's share: n dense tiles, the last of which holds `last` input tiles.
  datatype Share = Share(stride: nat, n: nat, last: nat)
  {
    predicate Valid() { IsStride(stride) && (n > 0 ==> 0 < last <= PackOf(stride)) }

    /// Input tiles of dense tile i.
    function Count(i: nat): (c: nat)
      requires Valid() && i < n
      ensures 0 < c <= PackOf(stride)
    {
      if i + 1 == n then last else PackOf(stride)
    }

    function Tiles(): nat
      requires Valid()
    {
      if n == 0 then 0 else (n - 1) * PackOf(stride) + last
    }
  }

  /// Rows jj * stride on of a dense tile are an input tile's rows.
  ghost predicate PackedAt(x: Tile, page: Tile, stride: nat, jj: nat)
    requires IsStride(stride) && jj < PackOf(stride)
  {
    RowFits(stride, jj);
    forall r: nat, c: nat :: r < stride && c < 32 ==> At(x, DenseRow(stride, jj, r), c) == At(page, r, c)
  }

  lemma RowFits(stride: nat, jj: nat)
    requires IsStride(stride) && jj < PackOf(stride)
    ensures jj * stride + stride <= 32
  {
    MulStrict(jj, PackOf(stride), stride);
  }

  function DenseRow(stride: nat, jj: nat, r: nat): (d: nat)
    requires IsStride(stride) && jj < PackOf(stride) && r < stride
    ensures d < 32
  {
    RowFits(stride, jj);
    jj * stride + r
  }

  function PageIndex(pack: nat, i: nat, jj: nat): nat { i * pack + jj }

  lemma PageInShare(s: Share, i: nat, jj: nat)
    requires s.Valid() && i < s.n && jj < s.Count(i)
    ensures PageIndex(PackOf(s.stride), i, jj) < s.Tiles()
  {
    if i + 1 < s.n { MulStrict(i, s.n - 1, PackOf(s.stride)); }
  }

  lemma ShareOfPage(s: Share, t: nat) returns (i: nat, jj: nat)
    requires s.Valid() && t < s.Tiles()
    ensures i < s.n && jj < s.Count(i) && PageIndex(PackOf(s.stride), i, jj) == t
  {
    hide PackOf;
    var pack := PackOf(s.stride);
    i, jj := t / pack, t % pack;
    DivMod(t, pack);
    if i >= s.n {
      MulMonotone(s.n, i, pack);
      MulDistribute(s.n - 1, 1, pack);
    } else if i + 1 == s.n {
      assert i * pack == (s.n - 1) * pack;
    }
  }

  /// The dense tiles hold the share's input tiles.
  ghost predicate Holds(s: Share, dense: seq<Tile>, pages: seq<Tile>) {
    s.Valid() && |dense| == s.n && |pages| == s.Tiles()
    && forall i: nat, jj: nat :: i < s.n && jj < s.Count(i) ==>
      PageIndex(PackOf(s.stride), i, jj) < |pages|
        && PackedAt(dense[i], pages[PageIndex(PackOf(s.stride), i, jj)], s.stride, jj)
  }

  /// Row m of every input tile.
  ghost predicate RowsBelow(pages: seq<Tile>, m: nat, bound: Word)
    requires m < 32
  {
    forall t: nat :: t < |pages| ==> RowBelow(pages[t], m, bound)
  }

  // ---- accumulator lanes over the dense tiles ----

  /// What a lane of accumulator band q has seen of the first n dense tiles.
  ghost predicate SeenBelow(s: Share, dense: seq<Tile>, n: nat, q: nat, h: nat, j: nat, bound: Word)
    requires s.Valid() && |dense| == s.n && n <= s.n && h < 4 && j < 8
  {
    forall i: nat :: i < n ==> TileSeen(s, dense, i, q, h, j, bound)
  }

  ghost predicate TileSeen(s: Share, dense: seq<Tile>, i: nat, q: nat, h: nat, j: nat, bound: Word)
    requires s.Valid() && |dense| == s.n && i < s.n && h < 4 && j < 8
  {
    BandCount(s, i);
    BandsBelow(dense[i], GroupsOf(s.stride), s.Count(i) * s.stride / 4, q, h, j, bound)
  }

  lemma BandCount(s: Share, i: nat)
    requires s.Valid() && i < s.n
    ensures s.Count(i) * s.stride / 4 == s.Count(i) * GroupsOf(s.stride) <= 8
  {
    var c := s.Count(i);
    assert c * s.stride == c * GroupsOf(s.stride) * 4;
    MulMonotone(c, PackOf(s.stride), GroupsOf(s.stride));
  }

  /// The bands of accumulator band q are those of its rows in each packed input tile.
  lemma BandsOfRows(x: Tile, stride: nat, count: nat, q: nat, h: nat, j: nat, bound: Word)
    requires IsStride(stride) && count <= PackOf(stride) && q < GroupsOf(stride) && h < 4 && j < 8
    requires count * GroupsOf(stride) <= 8
    ensures BandsBelow(x, GroupsOf(stride), count * GroupsOf(stride), q, h, j, bound)
        <==> (forall jj: nat :: jj < count ==> PackedBand(x, stride, jj, q, h, j, bound))
  {
    hide BandBelow, GroupsOf, PackOf;
    var groups := GroupsOf(stride);
    if BandsBelow(x, groups, count * groups, q, h, j, bound) {
      forall jj: nat | jj < count ensures PackedBand(x, stride, jj, q, h, j, bound) {
        BandFits(stride, jj, q);
        MulStrict(jj, count, groups);
        DivModUnique(jj * groups + q, groups, jj, q);
      }
    }
    if forall jj: nat :: jj < count ==> PackedBand(x, stride, jj, q, h, j, bound) {
      forall g: nat | g < count * groups && g % groups == q ensures BandBelow(x, g, h, j, bound) {
        var jj := g / groups;
        DivMod(g, groups);
        if jj >= count { MulMonotone(count, jj, groups); }
        assert PackedBand(x, stride, jj, q, h, j, bound);
      }
    }
  }

  lemma BandFits(stride: nat, jj: nat, q: nat)
    requires IsStride(stride) && jj < PackOf(stride) && q < GroupsOf(stride)
    ensures jj * GroupsOf(stride) + q < 8
  {
    MulStrict(jj, PackOf(stride), GroupsOf(stride));
  }

  ghost predicate PackedBand(x: Tile, stride: nat, jj: nat, q: nat, h: nat, j: nat, bound: Word)
    requires IsStride(stride) && jj < PackOf(stride) && q < GroupsOf(stride) && h < 4 && j < 8
  {
    BandFits(stride, jj, q);
    BandBelow(x, jj * GroupsOf(stride) + q, h, j, bound)
  }

  /// An input tile's row, from the lanes of its band in the dense tile.
  lemma RowOfPacked(x: Tile, page: Tile, stride: nat, jj: nat, q: nat, h: nat, bound: Word)
    requires IsStride(stride) && jj < PackOf(stride) && q < GroupsOf(stride) && h < 4 && PackedAt(x, page, stride, jj)
    ensures RowBelow(page, 4 * q + h, bound) <==> (forall j: nat :: j < 8 ==> PackedBand(x, stride, jj, q, h, j, bound))
  {
    hide BandBelow, AtMost, AbsBits, At, PackOf;
    BandFits(stride, jj, q);
    RowFits(stride, jj);
    var g, m := jj * GroupsOf(stride) + q, 4 * q + h;
    assert DenseRow(stride, jj, m) == 4 * g + h;
    RowOfLanes(x, g, h, bound);
    if LanesBelow(x, g, h, bound) {
      forall j: nat | j < 8 ensures PackedBand(x, stride, jj, q, h, j, bound) {}
    }
    if forall j: nat :: j < 8 ==> PackedBand(x, stride, jj, q, h, j, bound) {
      forall j: nat | j < 8 ensures BandBelow(x, g, h, j, bound) { assert PackedBand(x, stride, jj, q, h, j, bound); }
    }
    if RowBelow(x, 4 * g + h, bound) {
      forall c: nat | c < 32 ensures AtMost(AbsBits(At(page, m, c)), bound) {
        assert At(x, DenseRow(stride, jj, m), c) == At(page, m, c);
      }
    }
    if RowBelow(page, m, bound) {
      var r := 4 * g + h;
      forall c: nat | c < 32 ensures AtMost(AbsBits(At(x, r, c)), bound) {
        assert At(x, DenseRow(stride, jj, m), c) == At(page, m, c);
      }
    }
  }

  /// All lanes of a row have seen what the row has in all the input tiles.
  lemma SeenIsRows(s: Share, dense: seq<Tile>, pages: seq<Tile>, q: nat, h: nat, bound: Word)
    requires Holds(s, dense, pages) && q < GroupsOf(s.stride) && h < 4
    ensures (forall j: nat :: j < 8 ==> SeenBelow(s, dense, s.n, q, h, j, bound)) <==>
      RowsBelow(pages, 4 * q + h, bound)
  {
    hide BandBelow, RowBelow, PackedAt, PackedBand, BandsBelow, PackOf, GroupsOf, PageIndex, Share.Valid, Share.Count,
         Share.Tiles;
    forall i: nat, jj: nat | i < s.n && jj < s.Count(i)
      ensures PageIndex(PackOf(s.stride), i, jj) < |pages|
      ensures RowBelow(pages[PageIndex(PackOf(s.stride), i, jj)], 4 * q + h, bound)
          <==> (forall j: nat :: j < 8 ==> PackedBand(dense[i], s.stride, jj, q, h, j, bound))
    {
      RowOfPacked(dense[i], pages[PageIndex(PackOf(s.stride), i, jj)], s.stride, jj, q, h, bound);
    }
    if forall j: nat :: j < 8 ==> SeenBelow(s, dense, s.n, q, h, j, bound) {
      forall t: nat | t < |pages| ensures RowBelow(pages[t], 4 * q + h, bound) {
        var i, jj := ShareOfPage(s, t);
        forall j: nat | j < 8 ensures PackedBand(dense[i], s.stride, jj, q, h, j, bound) {
          assert SeenBelow(s, dense, s.n, q, h, j, bound);
          assert TileSeen(s, dense, i, q, h, j, bound);
          SeenOfRows(s, dense, i, q, h, j, bound);
        }
      }
    }
    if RowsBelow(pages, 4 * q + h, bound) {
      forall j: nat, i: nat | j < 8 && i < s.n ensures TileSeen(s, dense, i, q, h, j, bound) {
        forall jj: nat | jj < s.Count(i) ensures PackedBand(dense[i], s.stride, jj, q, h, j, bound) {
          assert RowBelow(pages[PageIndex(PackOf(s.stride), i, jj)], 4 * q + h, bound);
        }
        SeenOfRows(s, dense, i, q, h, j, bound);
      }
      forall j: nat | j < 8 ensures SeenBelow(s, dense, s.n, q, h, j, bound) {}
    }
  }

  lemma SeenOfRows(s: Share, dense: seq<Tile>, i: nat, q: nat, h: nat, j: nat, bound: Word)
    requires s.Valid() && |dense| == s.n && i < s.n && q < GroupsOf(s.stride) && h < 4 && j < 8
    ensures TileSeen(s, dense, i, q, h, j, bound) <==>
      (forall jj: nat :: jj < s.Count(i) ==> PackedBand(dense[i], s.stride, jj, q, h, j, bound))
  {
    hide BandsBelow, PackedBand, GroupsOf, PackOf;
    BandCount(s, i);
    BandsOfRows(dense[i], s.stride, s.Count(i), q, h, j, bound);
  }

  // ---- the phase ----

  /// v is the maximum of row m of the pages.
  ghost predicate IsRowMax(v: Word, pages: seq<Tile>, m: nat)
    requires m < 32
  {
    Settled(v) && forall bound: Word :: AtMost(v, bound) <==> RowsBelow(pages, m, bound)
  }

  ghost predicate AllSeen(s: Share, dense: seq<Tile>, n: nat, acc: Accumulator)
    requires s.Valid() && |dense| == s.n && n <= s.n
    reads acc
  {
    && Ready(acc, GroupsOf(s.stride))
    && forall q: nat, h: nat, j: nat, bound: Word :: q < GroupsOf(s.stride) && h < 4 && j < 8 ==>
      (AtMost(AccLane(acc, q, h, j), bound) <==> SeenBelow(s, dense, n, q, h, j, bound))
  }

  method FoldDense(s: Share, dense: seq<Tile>, i: nat, acc: Accumulator)
    requires s.Valid() && |dense| == s.n && i < s.n && AllSeen(s, dense, i, acc)
    modifies acc
    ensures AllSeen(s, dense, i + 1, acc)
  {
    hide AtMost, AccLane, BandsBelow, AllSettled, PackOf, GroupsOf, Ready;
    BandCount(s, i);
    FoldAbsmax(acc, dense[i], GroupsOf(s.stride), s.Count(i) * s.stride / 4);
    forall q: nat, h: nat, j: nat, bound: Word | q < GroupsOf(s.stride) && h < 4 && j < 8
      ensures SeenBelow(s, dense, i + 1, q, h, j, bound) <==>
        SeenBelow(s, dense, i, q, h, j, bound) && TileSeen(s, dense, i, q, h, j, bound)
    {}
  }

  method FoldTiles(s: Share, dense: seq<Tile>, acc: Accumulator)
    requires s.Valid() && |dense| == s.n && acc.Length == 32
    modifies acc
    ensures AllSeen(s, dense, s.n, acc)
  {
    hide AtMost, AccLane, TileSeen, PackOf;
    ZeroAcc(acc, GroupsOf(s.stride));
    forall bound: Word ensures AtMost(ZERO, bound) { ZeroAtMost(bound); }
    var i := 0;
    while i < s.n
      invariant 0 <= i <= s.n && AllSeen(s, dense, i, acc)
    {
      FoldDense(s, dense, i, acc);
      i := i + 1;
    }
  }

  /// A row of the finished tile, from the accumulators before.
  lemma FinishedRow(s: Share, dense: seq<Tile>, pages: seq<Tile>, before: Vec, after: Tile, q: nat, h: nat, e: nat)
    requires Holds(s, dense, pages) && q < GroupsOf(s.stride) && h < 4 && e < 16
    requires Finished(before, after[AccVec(q)], after[AccVec(q) + 1])
    requires forall j: nat, bound: Word :: j < 8 ==>
      (AtMost(Lane(before, h, j), bound) <==> SeenBelow(s, dense, s.n, q, h, j, bound))
    ensures IsRowMax(At(after, 4 * q + h, e), pages, 4 * q + h)
  {
    hide AtMost, Lane, Settled, SeenBelow, RowsBelow, Holds, AccVec, At, GroupsOf, PlaceOf;
    FinishedAt(after, q, h, e);
    var v := At(after, 4 * q + h, e);
    forall bound: Word ensures AtMost(v, bound) <==> RowsBelow(pages, 4 * q + h, bound) {
      SeenIsRows(s, dense, pages, q, h, bound);
      assert AtMost(Lane(after[AccVec(q)], h, PlaceOf(e)), bound) <==> SubRowBelow(before, h, bound);
    }
  }

  lemma FinishedAt(after: Tile, q: nat, h: nat, e: nat)
    requires q < 8 && h < 4 && e < 16 && after[AccVec(q)] == after[AccVec(q) + 1]
    ensures At(after, 4 * q + h, e) == Lane(after[AccVec(q)], h, PlaceOf(e))
  {
    hide Lane, Slot, AccVec, PlaceOf;
    SlotInBand(q, h, GroupOf(e));
    LeftSlot(q);
  }

  lemma LeftSlot(q: nat)
    requires q < 8
    ensures AccVec(q) == Slot(4 * q, 0) && AccVec(q) + 1 == Slot(4 * q, 1)
  {
    BandSlot(q, 0);
    BandSlot(q, 1);
  }

  /// This core's row maxima, in columns 0-15 of the rows of a tile.
  method RowMaxima(s: Share, dense: seq<Tile>, acc: Accumulator, ghost pages: seq<Tile>)
    requires Holds(s, dense, pages) && acc.Length == 32
    modifies acc
    ensures acc.Length == 32 && forall m: nat, e: nat :: m < s.stride && e < 16 ==>
      IsRowMax(At(acc[..], m, e), pages, m)
  {
    hide AtMost, SeenBelow, IsRowMax, At, AllSettled, Finished, PackOf, AccVec, Lane;
    FoldTiles(s, dense, acc);
    ghost var before := acc[..];
    assert forall q: nat, h: nat, j: nat :: q < GroupsOf(s.stride) && h < 4 && j < 8 ==>
      AccLane(acc, q, h, j) == Lane(before[AccVec(q)], h, j);
    FinishPartial(acc, GroupsOf(s.stride));
    forall m: nat, e: nat | m < s.stride && e < 16 ensures IsRowMax(At(acc[..], m, e), pages, m) {
      var q, h := m / 4, m % 4;
      FinishedRow(s, dense, pages, before[AccVec(q)], acc[..], q, h, e);
    }
  }
}
