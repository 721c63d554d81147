/// The divisor tile of quantize_rows: every core's row maxima from the gather
/// buffer, folded, made into scales and spread over the rows.
module QuantizeDivisor {
  import opened RowMajor
  import opened TileFaces
  import opened VectorUnit
  import opened WordOrder
  import opened QuantizeMaxima
  import opened QuantizePartial

  // ---- tiles in memory ----

  /// A tile's words in memory as its registers' lanes.
  function Unpacked(words: seq<Word>, i: nat): (t: Tile)
    requires |words| >= (i + 1) * 1024
  {
    seq<Vec>(32, n requires 0 <= n < 32 => UnpackedVec(words, i, n))
  }

  function UnpackedVec(words: seq<Word>, i: nat, n: nat): (v: Vec)
    requires |words| >= (i + 1) * 1024 && n < 32
    ensures forall h: nat, j: nat :: h < 4 && j < 8 ==> Lane(v, h, j) == words[i * 1024 + LanePlace(n, h, j)]
  {
    seq<SubRow>(4, h requires 0 <= h < 4 => seq(8, j requires 0 <= j < 8 => words[i * 1024 + LanePlace(n, h, j)]))
  }

  function LanePlace(n: nat, h: nat, j: nat): (p: nat)
    requires n < 32 && h < 4 && j < 8
    ensures p < 1024
  {
    n / 8 * 256 + (4 * (n % 8 / 2) + h) * 16 + 2 * j + n % 2
  }

  /// The face of a row and a column, from their halves.
  lemma SlotParts(row: nat, g: nat)
    requires row < 32 && g < 4
    ensures Slot(row, g) / 8 == (if row < 16 then 0 else 2) + (if g < 2 then 0 else 1)
    ensures Slot(row, g) % 8 / 2 == row % 16 / 4 && Slot(row, g) % 2 == if g == 1 || g == 3 then 1 else 0
  {
    var f, b, p := (if row < 16 then 0 else 2) + (if g < 2 then 0 else 1), row % 16 / 4, if g == 1 || g == 3 then 1
      else 0;
    assert Slot(row, g) == 8 * f + (2 * b + p);
    ThreeDigits(f, b, p);
  }

  lemma ThreeDigits(f: nat, b: nat, p: nat)
    requires b < 4 && p < 2
    ensures (8 * f + (2 * b + p)) / 8 == f && (8 * f + (2 * b + p)) % 8 / 2 == b && (8 * f + (2 * b + p)) % 2 == p
  {}

  /// The unpacked element is the one at its place in the faces.
  lemma UnpackedElement(words: seq<Word>, i: nat, r: nat, c: nat)
    requires |words| >= (i + 1) * 1024 && r < 32 && c < 32
    ensures At(Unpacked(words, i), r, c) == words[i * 1024 + FacePlace(r, c)]
  {
    SlotParts(r, GroupOf(c));
    ColumnParts(c);
    RowDigits(r);
    hide Slot, Lane;
    assert LanePlace(Slot(r, GroupOf(c)), SubRowOf(r), PlaceOf(c)) == FacePlace(r, c);
  }

  lemma RowDigits(r: nat)
    requires r < 32
    ensures 4 * (r % 16 / 4) + r % 4 == r % 16 && r / 16 == if r < 16 then 0 else 1
  {}

  // ---- the gather buffer ----

  /// Lane (h, j) of band k: the even columns of row 4 * k + h of 16 words.
  function BandWord(gather: seq<Word>, k: nat, h: nat, j: nat): Word
    requires h < 4 && j < 8 && (4 * k + 4) * 16 <= |gather|
  {
    gather[(4 * k + h) * 16 + 2 * j]
  }

  /// Band k of gather tile i.
  lemma BandOfTile(gather: seq<Word>, i: nat, k: nat, h: nat, j: nat)
    requires |gather| >= (i + 1) * 1024 && k < 16 && h < 4 && j < 8
    ensures Lane(Unpacked(gather, i)[VecAt(k / 4, k % 4, 0)], h, j) == BandWord(gather, 16 * i + k, h, j)
  {
    hide Lane, LanePlace, VecAt, BandWord, Unpacked;
    BandAt(gather, i, k / 4, k % 4, h, j);
    assert k == 4 * (k / 4) + k % 4;
  }

  lemma BandAt(gather: seq<Word>, i: nat, f: nat, b: nat, h: nat, j: nat)
    requires |gather| >= (i + 1) * 1024 && f < 4 && b < 4 && h < 4 && j < 8
    ensures Lane(Unpacked(gather, i)[VecAt(f, b, 0)], h, j) == BandWord(gather, 16 * i + (4 * f + b), h, j)
  {
    hide Lane, LanePlace, VecAt;
    BandPlaceIs(f, b, h, j);
    assert Unpacked(gather, i)[VecAt(f, b, 0)] == UnpackedVec(gather, i, VecAt(f, b, 0));
  }

  lemma BandPlaceIs(f: nat, b: nat, h: nat, j: nat)
    requires f < 4 && b < 4 && h < 4 && j < 8
    ensures LanePlace(VecAt(f, b, 0), h, j) == (4 * (4 * f + b) + h) * 16 + 2 * j
  {
    ThreeDigits(f, b, 0);
  }

  /// The bands, among the first n, of accumulator band q.
  ghost predicate Gathered(gather: seq<Word>, groups: nat, n: nat, q: nat, h: nat, j: nat, bound: Word)
    requires groups > 0 && h < 4 && j < 8 && 64 * n <= |gather|
  {
    forall k: nat :: k < n && k % groups == q ==> AtMost(BandWord(gather, k, h, j), bound)
  }

  ghost predicate AllGathered(acc: Accumulator, gather: seq<Word>, groups: nat, n: nat)
    requires 64 * n <= |gather|
    reads acc
  {
    && Ready(acc, groups)
    && forall q: nat, h: nat, j: nat, bound: Word :: q < groups && h < 4 && j < 8 ==>
      (AtMost(AccLane(acc, q, h, j), bound) <==> Gathered(gather, groups, n, q, h, j, bound))
  }

  ghost predicate GatherSettled(gather: seq<Word>, n: nat)
    requires 64 * n <= |gather|
  {
    forall k: nat, h: nat, j: nat :: k < n && h < 4 && j < 8 ==> Settled(BandWord(gather, k, h, j))
  }

  /// The groups of a stride divide the bands of a tile.
  lemma GroupInTile(groups: nat, i: nat, k: nat)
    requires groups == 1 || groups == 2 || groups == 4 || groups == 8
    ensures (16 * i + k) % groups == k % groups
  {
    var per := if groups == 1 then 16 else if groups == 2 then 8 else if groups == 4 then 4 else 2;
    var q, r := k / groups, k % groups;
    DivMod(k, groups);
    MulDistribute(per * i, q, groups);
    assert per * groups == 16;
    MulAssoc(i, per, groups);
    DivModUnique(16 * i + k, groups, per * i + q, r);
  }

  lemma GatheredNext(gather: seq<Word>, groups: nat, n: nat, q: nat, h: nat, j: nat, bound: Word)
    requires groups > 0 && h < 4 && j < 8 && 64 * (n + 1) <= |gather|
    ensures Gathered(gather, groups, n + 1, q, h, j, bound) <==>
      Gathered(gather, groups, n, q, h, j, bound) && (n % groups == q ==> AtMost(BandWord(gather, n, h, j), bound))
  {
    hide AtMost, BandWord;
  }

  method FoldGatherBand(acc: Accumulator, src: Tile, groups: nat, k: nat, ghost gather: seq<Word>, ghost i: nat,
                        ghost n: nat)
    requires groups == 1 || groups == 2 || groups == 4 || groups == 8
    requires k < 16 && |gather| >= (i + 1) * 1024 && src == Unpacked(gather, i) && n == 16 * i + k
      && GatherSettled(gather, n + 1)
    requires AllGathered(acc, gather, groups, n)
    modifies acc
    ensures AllGathered(acc, gather, groups, n + 1)
  {
    hide AllSettled, LoadVec, AtMost, AccLane, Lane, VecAt, Settled, BandWord, Unpacked, Gathered;
    GroupInTile(groups, i, k);
    var q, v := k % groups, src[VecAt(k / 4, k % 4, 0)];
    forall h: nat, j: nat | h < 4 && j < 8
      ensures Lane(v, h, j) == BandWord(gather, n, h, j)
    {
      BandOfTile(gather, i, k, h, j);
    }
    SettledLanes(v);
    SettledLoads(v);
    forall p: nat, h: nat, j: nat, bound: Word | p < groups && h < 4 && j < 8
      ensures Gathered(gather, groups, n + 1, p, h, j, bound) <==>
        Gathered(gather, groups, n, p, h, j, bound) && (p == q ==> AtMost(BandWord(gather, n, h, j), bound))
    {
      GatheredNext(gather, groups, n, p, h, j, bound);
    }
    RaiseBand(acc, groups, q, LoadVec(v));
  }

  lemma SettledLanes(v: Vec)
    requires forall h: nat, j: nat :: h < 4 && j < 8 ==> Settled(Lane(v, h, j))
    ensures AllSettled(v)
  {}

  /// The first `valid` bands of a gather tile into the accumulators.
  method FoldGather(acc: Accumulator, src: Tile, groups: nat, valid: nat, ghost gather: seq<Word>, ghost i: nat)
    requires groups == 1 || groups == 2 || groups == 4 || groups == 8
    requires valid <= 16 && |gather| >= (i + 1) * 1024 && src == Unpacked(gather, i)
      && GatherSettled(gather, 16 * i + valid)
    requires AllGathered(acc, gather, groups, 16 * i)
    modifies acc
    ensures AllGathered(acc, gather, groups, 16 * i + valid)
  {
    hide AllGathered, Settled, BandWord, Unpacked;
    var k := 0;
    while k < 16
      invariant 0 <= k <= 16 && AllGathered(acc, gather, groups, 16 * i + if k < valid then k else valid)
    {
      if k < valid { FoldGatherBand(acc, src, groups, k, gather, i, 16 * i + k); }
      k := k + 1;
    }
  }

  function GatherTiles(cores: nat, stride: nat): nat { DivUp(cores * stride * 64, 4096) }

  /// The tiles of the buffer have its bands: the last one may have fewer.
  lemma TilesForBands(cores: nat, stride: nat)
    requires IsStride(stride)
    ensures 16 * GatherTiles(cores, stride) >= cores * GroupsOf(stride)
    ensures GatherTiles(cores, stride) > 0 ==> cores * GroupsOf(stride) > 16 * (GatherTiles(cores, stride) - 1)
  {
    MulAssoc(cores, GroupsOf(stride), 4);
    assert cores * stride == cores * GroupsOf(stride) * 4;
  }

  method FoldGathers(acc: Accumulator, gather: seq<Word>, stride: nat, cores: nat)
    requires IsStride(stride) && acc.Length == 32
    requires |gather| == GatherTiles(cores, stride) * 1024
    requires cores * GroupsOf(stride) <= 16 * GatherTiles(cores, stride)
      && GatherSettled(gather, cores * GroupsOf(stride))
    modifies acc
    ensures AllGathered(acc, gather, GroupsOf(stride), cores * GroupsOf(stride))
  {
    hide AllGathered, Settled, BandWord, Unpacked, GatherTiles;
    var groups, total := GroupsOf(stride), cores * GroupsOf(stride);
    ZeroAcc(acc, groups);
    NoneGathered(acc, gather, groups);
    TilesForBands(cores, stride);
    var i := 0;
    while i < GatherTiles(cores, stride)
      invariant 0 <= i <= GatherTiles(cores, stride)
      invariant AllGathered(acc, gather, groups, if 16 * i < total then 16 * i else total)
    {
      var valid := if total - 16 * i < 16 then total - 16 * i else 16;
      FoldGather(acc, Unpacked(gather, i), groups, valid, gather, i);
      i := i + 1;
    }
  }

  lemma NoneGathered(acc: Accumulator, gather: seq<Word>, groups: nat)
    requires Ready(acc, groups)
    requires forall q: nat, h: nat, j: nat :: q < groups && h < 4 && j < 8 ==> AccLane(acc, q, h, j) == ZERO
    ensures AllGathered(acc, gather, groups, 0)
  {
    hide AtMost, AccLane, BandWord;
    forall bound: Word ensures AtMost(ZERO, bound) { ZeroAtMost(bound); }
  }

  // ---- what the gather buffer holds ----

  /// Column e of row m of a core's slot.
  function SlotWord(gather: seq<Word>, stride: nat, core: nat, m: nat, e: nat): Word
    requires m < stride && e < 16 && (core * stride + stride) * 16 <= |gather|
  {
    SlotFits(core * stride, m, stride, |gather|);
    gather[(core * stride + m) * 16 + e]
  }

  lemma SlotFits(start: nat, m: nat, stride: nat, n: nat)
    requires m < stride && (start + stride) * 16 <= n
    ensures (start + m) * 16 + 16 <= n
  {}

  /// Slot c holds the row maxima of core c's input tiles.
  ghost predicate HoldsMaxima(gather: seq<Word>, stride: nat, shares: seq<seq<Tile>>)
    requires IsStride(stride)
  {
    && |shares| * stride * 16 <= |gather|
    && forall c: nat, m: nat, e: nat :: c < |shares| && m < stride && e < 16 ==>
       SlotIsMax(gather, stride, shares, c, m, e)
  }

  ghost predicate SlotIsMax(gather: seq<Word>, stride: nat, shares: seq<seq<Tile>>, c: nat, m: nat, e: nat)
    requires IsStride(stride) && |shares| * stride * 16 <= |gather| && c < |shares| && m < stride && e < 16
  {
    SlotInBuffer(stride, |shares|, c, |gather|);
    IsRowMax(SlotWord(gather, stride, c, m, e), shares[c], m)
  }

  lemma SlotInBuffer(stride: nat, cores: nat, c: nat, n: nat)
    requires c < cores && cores * stride * 16 <= n
    ensures (c * stride + stride) * 16 <= n
  {
    MulStrict(c, cores, stride);
  }

  /// All the shares' input tiles.
  function AllPages(shares: seq<seq<Tile>>): seq<Tile> {
    if shares == [] then [] else AllPages(shares[..|shares| - 1]) + shares[|shares| - 1]
  }

  lemma {:induction false} RowsOfAll(shares: seq<seq<Tile>>, m: nat, bound: Word)
    requires m < 32
    ensures RowsBelow(AllPages(shares), m, bound) <==>
      (forall c: nat :: c < |shares| ==> RowsBelow(shares[c], m, bound))
  {
    hide RowBelow;
    if shares != [] {
      var rest, last := shares[..|shares| - 1], shares[|shares| - 1];
      RowsOfAll(rest, m, bound);
      RowsOfBoth(AllPages(rest), last, m, bound);
      assert forall c: nat :: c < |rest| ==> rest[c] == shares[c];
    }
  }

  lemma RowsOfBoth(a: seq<Tile>, b: seq<Tile>, m: nat, bound: Word)
    requires m < 32
    ensures RowsBelow(a + b, m, bound) <==> RowsBelow(a, m, bound) && RowsBelow(b, m, bound)
  {
    hide RowBelow;
    if RowsBelow(a + b, m, bound) {
      forall t: nat | t < |a| ensures RowBelow(a[t], m, bound) { assert (a + b)[t] == a[t]; }
      forall t: nat | t < |b| ensures RowBelow(b[t], m, bound) { assert (a + b)[|a| + t] == b[t]; }
    }
  }

  /// A band of the gather buffer is a row of four of a core's slot.
  lemma BandOfSlot(gather: seq<Word>, stride: nat, cores: nat, c: nat, q: nat, h: nat, j: nat)
    requires IsStride(stride) && cores * stride * 16 <= |gather| && c < cores && q < GroupsOf(stride) && h < 4 && j < 8
    ensures c * GroupsOf(stride) + q < cores * GroupsOf(stride)
    ensures 64 * (c * GroupsOf(stride) + q + 1) <= |gather| && (c * stride + stride) * 16 <= |gather|
    ensures BandWord(gather, c * GroupsOf(stride) + q, h, j) == SlotWord(gather, stride, c, 4 * q + h, 2 * j)
  {
    var groups := GroupsOf(stride);
    SlotInBuffer(stride, cores, c, |gather|);
    MulStrict(c, cores, groups);
    MulAssoc(c, groups, 4);
    assert c * stride == c * groups * 4;
  }

  lemma SlotOfBand(k: nat, groups: nat, cores: nat) returns (c: nat, q: nat)
    requires groups > 0 && k < cores * groups
    ensures c < cores && q < groups && k == c * groups + q && k / groups == c && k % groups == q
  {
    c, q := k / groups, k % groups;
    DivMod(k, groups);
    if c >= cores { MulMonotone(cores, c, groups); }
  }

  lemma BufferSettled(gather: seq<Word>, stride: nat, shares: seq<seq<Tile>>)
    requires IsStride(stride) && HoldsMaxima(gather, stride, shares)
    requires 64 * (|shares| * GroupsOf(stride)) <= |gather|
    ensures GatherSettled(gather, |shares| * GroupsOf(stride))
  {
    hide Settled, BandWord, SlotWord, GroupsOf, RowsBelow, AtMost;
    forall k: nat, h: nat, j: nat | k < |shares| * GroupsOf(stride) && h < 4 && j < 8
      ensures Settled(BandWord(gather, k, h, j))
    {
      var c, q := SlotOfBand(k, GroupsOf(stride), |shares|);
      BandOfSlot(gather, stride, |shares|, c, q, h, j);
      assert SlotIsMax(gather, stride, shares, c, 4 * q + h, 2 * j);
    }
  }

  ghost predicate SlotBelow(gather: seq<Word>, stride: nat, cores: nat, c: nat, q: nat, h: nat, j: nat, bound: Word)
    requires IsStride(stride) && cores * stride * 16 <= |gather| && c < cores && q < GroupsOf(stride) && h < 4 && j < 8
  {
    BandOfSlot(gather, stride, cores, c, q, h, j);
    AtMost(BandWord(gather, c * GroupsOf(stride) + q, h, j), bound)
  }

  /// The bands of accumulator band q, core by core.
  lemma GatheredIsSlots(gather: seq<Word>, stride: nat, cores: nat, q: nat, h: nat, j: nat, bound: Word)
    requires IsStride(stride) && cores * stride * 16 <= |gather| && q < GroupsOf(stride) && h < 4 && j < 8
    requires 64 * (cores * GroupsOf(stride)) <= |gather|
    ensures Gathered(gather, GroupsOf(stride), cores * GroupsOf(stride), q, h, j, bound)
        <==> (forall c: nat :: c < cores ==> SlotBelow(gather, stride, cores, c, q, h, j, bound))
  {
    hide BandWord, GroupsOf, AtMost;
    var groups := GroupsOf(stride);
    if Gathered(gather, groups, cores * groups, q, h, j, bound) {
      forall c: nat | c < cores ensures SlotBelow(gather, stride, cores, c, q, h, j, bound) {
        BandOfSlot(gather, stride, cores, c, q, h, j);
        DivModUnique(c * groups + q, groups, c, q);
      }
    }
    if forall c: nat :: c < cores ==> SlotBelow(gather, stride, cores, c, q, h, j, bound) {
      forall k: nat | k < cores * groups && k % groups == q ensures AtMost(BandWord(gather, k, h, j), bound) {
        var c, p := SlotOfBand(k, groups, cores);
        assert SlotBelow(gather, stride, cores, c, q, h, j, bound);
      }
    }
  }

  /// What an accumulator lane gathers is what its row has in all the input tiles.
  lemma GatheredIsRows(gather: seq<Word>, stride: nat, shares: seq<seq<Tile>>, q: nat, h: nat, j: nat, bound: Word)
    requires IsStride(stride) && HoldsMaxima(gather, stride, shares) && q < GroupsOf(stride) && h < 4 && j < 8
    requires 64 * (|shares| * GroupsOf(stride)) <= |gather|
    ensures Gathered(gather, GroupsOf(stride), |shares| * GroupsOf(stride), q, h, j, bound) <==>
      RowsBelow(AllPages(shares), 4 * q + h, bound)
  {
    hide SlotBelow, RowsBelow, Gathered, AllPages, SlotIsMax, GroupsOf;
    GatheredIsSlots(gather, stride, |shares|, q, h, j, bound);
    RowInStride(stride, q, h);
    RowsOfAll(shares, 4 * q + h, bound);
    forall c: nat | c < |shares|
      ensures SlotBelow(gather, stride, |shares|, c, q, h, j, bound) <==> RowsBelow(shares[c], 4 * q + h, bound)
    {
      SlotHas(gather, stride, shares, c, q, h, j, bound);
    }
  }

  lemma RowInStride(stride: nat, q: nat, h: nat)
    requires IsStride(stride) && q < GroupsOf(stride) && h < 4
    ensures 4 * q + h < stride && 4 * q + h < 32
  {}

  lemma SlotHas(gather: seq<Word>, stride: nat, shares: seq<seq<Tile>>, c: nat, q: nat, h: nat, j: nat, bound: Word)
    requires IsStride(stride) && HoldsMaxima(gather, stride, shares) && c < |shares| && q < GroupsOf(stride) && h < 4
      && j < 8
    ensures SlotBelow(gather, stride, |shares|, c, q, h, j, bound) <==> RowsBelow(shares[c], 4 * q + h, bound)
  {
    hide Settled, BandWord, SlotWord, RowsBelow, AtMost;
    BandOfSlot(gather, stride, |shares|, c, q, h, j);
    assert SlotIsMax(gather, stride, shares, c, 4 * q + h, 2 * j);
  }

  // ---- the maximum of a row ----

  /// The largest |x| bits of the first n elements of row m.
  function RowMax(pages: seq<Tile>, m: nat, n: nat): Word
    requires m < 32 && n <= |pages| * 32
  {
    if n == 0 then ZERO else IMax(RowMax(pages, m, n - 1), AbsBits(At(pages[(n - 1) / 32], m, (n - 1) % 32)))
  }

  ghost predicate FirstBelow(pages: seq<Tile>, m: nat, n: nat, bound: Word)
    requires m < 32 && n <= |pages| * 32
  {
    forall k: nat :: k < n ==> ElementBelow(pages, m, k, bound)
  }

  ghost predicate ElementBelow(pages: seq<Tile>, m: nat, k: nat, bound: Word)
    requires m < 32 && k < |pages| * 32
  {
    AtMost(AbsBits(At(pages[k / 32], m, k % 32)), bound)
  }

  lemma {:induction false} RowMaxBound(pages: seq<Tile>, m: nat, n: nat, bound: Word)
    requires m < 32 && n <= |pages| * 32
    ensures Settled(RowMax(pages, m, n))
    ensures AtMost(RowMax(pages, m, n), bound) <==> FirstBelow(pages, m, n, bound)
  {
    hide Settled, IMax, AbsBits, At, AtMost;
    if n == 0 {
      ZeroSettled();
      ZeroAtMost(bound);
    } else {
      RowMaxBound(pages, m, n - 1, bound);
      var x := At(pages[(n - 1) / 32], m, (n - 1) % 32);
      AbsSettled(x);
      MaxBound(RowMax(pages, m, n - 1), AbsBits(x), bound);
      assert ElementBelow(pages, m, n - 1, bound) <==> AtMost(AbsBits(x), bound);
    }
  }

  lemma ElementsOfRows(pages: seq<Tile>, m: nat, bound: Word)
    requires m < 32
    ensures FirstBelow(pages, m, |pages| * 32, bound) <==> RowsBelow(pages, m, bound)
  {
    hide AbsBits, At, AtMost;
    if FirstBelow(pages, m, |pages| * 32, bound) {
      forall t: nat, c: nat | t < |pages| && c < 32 ensures AtMost(AbsBits(At(pages[t], m, c)), bound) {
        DivModUnique(t * 32 + c, 32, t, c);
        assert ElementBelow(pages, m, t * 32 + c, bound);
      }
    }
  }

  /// A word with the row's bounds is the row's maximum.
  lemma IsTheRowMax(v: Word, pages: seq<Tile>, m: nat)
    requires m < 32 && IsRowMax(v, pages, m)
    ensures v == RowMax(pages, m, |pages| * 32)
  {
    hide Settled, AtMost, RowMax, FirstBelow, RowsBelow;
    forall bound: Word ensures AtMost(v, bound) <==> AtMost(RowMax(pages, m, |pages| * 32), bound) {
      RowMaxBound(pages, m, |pages| * 32, bound);
      ElementsOfRows(pages, m, bound);
    }
    SameBounds(v, RowMax(pages, m, |pages| * 32));
  }
}
