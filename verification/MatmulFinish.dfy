/// The natural tile from the skewed accumulators: bitwise moves under lane
/// masks, so no value is rounded again.
module MatmulFinish {
  import opened MatmulVector
  import opened VectorUnit
  import opened RowMajor

  const ONES: Word := 0xFFFF_FFFF

  // ---- bitwise operations, a lane at a time ----

  function And(a: Word, b: Word): Word { a & b }

  function Or(a: Word, b: Word): Word { a | b }

  function Xor(a: Word, b: Word): Word { a ^ b }

  lemma AndOnes(a: Word)
    ensures And(ONES, a) == a
  {}

  lemma AndZero(a: Word)
    ensures And(ZERO, a) == ZERO
  {}

  lemma OrZero(a: Word)
    ensures Or(a, ZERO) == a
  {}

  lemma ZeroOr(a: Word)
    ensures Or(ZERO, a) == a
  {}

  lemma XorZero(a: Word)
    ensures Xor(ZERO, a) == a
  {}

  lemma XorBack(a: Word, b: Word)
    ensures Xor(Xor(a, b), a) == b
  {}

  function AndVec(a: Vec, b: Vec): (v: Vec)
    ensures forall h: nat, j: nat :: h < 4 && j < 8 ==> Lane(v, h, j) == And(Lane(a, h, j), Lane(b, h, j))
  {
    seq(4, h requires 0 <= h < 4 => seq(8, j requires 0 <= j < 8 => And(a[h][j], b[h][j])))
  }

  function OrVec(a: Vec, b: Vec): (v: Vec)
    ensures forall h: nat, j: nat :: h < 4 && j < 8 ==> Lane(v, h, j) == Or(Lane(a, h, j), Lane(b, h, j))
  {
    seq(4, h requires 0 <= h < 4 => seq(8, j requires 0 <= j < 8 => Or(a[h][j], b[h][j])))
  }

  function XorVec(a: Vec, b: Vec): (v: Vec)
    ensures forall h: nat, j: nat :: h < 4 && j < 8 ==> Lane(v, h, j) == Xor(Lane(a, h, j), Lane(b, h, j))
  {
    seq(4, h requires 0 <= h < 4 => seq(8, j requires 0 <= j < 8 => Xor(a[h][j], b[h][j])))
  }

  // ---- lane masks, from the lanes' numbers ----

  const TWO_28 := 0x1000_0000
  const TWO_31 := 0x8000_0000
  const TWO_32 := 0x1_0000_0000

  function Wrapped(i: int): (w: nat)
    ensures w < TWO_32
  {
    i % TWO_32
  }

  /// An arithmetic shift right by 31: the sign bit everywhere.
  function SignMask(w: nat): Word { if w >= TWO_31 then ONES else ZERO }

  /// The lane register holds 2 * lane.
  function LaneNumber(h: nat, j: nat): nat { 2 * (8 * h + j) }

  /// Only the low four bits of twice the lane's distance survive the two shifts; one
  /// less than that is negative just in the column.
  function ColumnMask(h: nat, j: nat, column: nat): Word {
    var x := Wrapped(LaneNumber(h, j) - 2 * column);
    var low := Wrapped(x * TWO_28) / TWO_28;
    SignMask(Wrapped(low - 1))
  }

  lemma ShiftedOut(x: nat)
    ensures Wrapped(x * TWO_28) / TWO_28 == x % 16
  {
    var q := x / 16;
    assert x * TWO_28 == q * TWO_32 + x % 16 * TWO_28;
    assert Wrapped(x * TWO_28) == x % 16 * TWO_28;
  }

  lemma ColumnMaskIs(h: nat, j: nat, column: nat)
    requires h < 4 && j < 8 && column < 8
    ensures ColumnMask(h, j, column) == if j == column then ONES else ZERO
  {
    var d, e := LaneNumber(h, j) - 2 * column, 2 * (j - column);
    ShiftedOut(Wrapped(d));
    LowBits(h, e);
    hide Wrapped;
    MaskOfLow(if e >= 0 then e else e + 16);
  }

  /// The low four bits of 16 * h + e.
  lemma LowBits(h: nat, e: int)
    requires h < 4 && -16 < e < 16
    ensures Wrapped(16 * h + e) % 16 == if e >= 0 then e else e + 16
  {
    var d := 16 * h + e;
    var low := if e >= 0 then e else e + 16;
    var m := if d < 0 then 0x0FFF_FFFF else if e >= 0 then h else h - 1;
    DivModUnique(d, TWO_32, if d < 0 then -1 else 0, if d < 0 then d + TWO_32 else d);
    DivModUnique(Wrapped(d), 16, m, low);
  }

  lemma MaskOfLow(low: nat)
    requires low < 16
    ensures SignMask(Wrapped(low - 1)) == if low == 0 then ONES else ZERO
  {}

  /// The complement of the sign of lane - 16, in every bit.
  function SubRowMask(h: nat, j: nat): Word {
    if SignMask(Wrapped(LaneNumber(h, j) - 32)) == ONES then ZERO else ONES
  }

  /// Scratch slots 0..7 hold the lane column masks, slot 8 the sub-row mask.
  ghost predicate HasMasks(scratch: Tile) {
    && (forall column: nat, h: nat, j: nat :: column < 8 && h < 4 && j < 8 ==>
          Lane(scratch[column], h, j) == if j == column then ONES else ZERO)
    && forall h: nat, j: nat :: h < 4 && j < 8 ==> Lane(scratch[8], h, j) == if h >= 2 then ONES else ZERO
  }

  method LaneColumnMask(column: nat) returns (v: Vec)
    requires column < 8
    ensures forall h: nat, j: nat :: h < 4 && j < 8 ==> Lane(v, h, j) == if j == column then ONES else ZERO
  {
    v := seq(4, h requires 0 <= h < 4 => seq(8, j requires 0 <= j < 8 => ColumnMask(h, j, column)));
    forall h: nat, j: nat | h < 4 && j < 8 ensures Lane(v, h, j) == if j == column then ONES else ZERO {
      ColumnMaskIs(h, j, column);
    }
  }

  method Masks(scratch: Tile) returns (masks: Tile)
    ensures HasMasks(masks)
  {
    hide Lane;
    masks := scratch;
    var column := 0;
    while column < 8
      invariant 0 <= column <= 8
      invariant forall c: nat, h: nat, j: nat :: c < column && h < 4 && j < 8 ==>
        Lane(masks[c], h, j) == if j == c then ONES else ZERO
    {
      var mask := LaneColumnMask(column);
      masks := masks[column := mask];
      column := column + 1;
    }
    var upper: Vec := UpperSubRows();
    masks := masks[8 := upper];
  }

  function UpperSubRows(): (v: Vec)
    ensures forall h: nat, j: nat :: h < 4 && j < 8 ==> Lane(v, h, j) == if h >= 2 then ONES else ZERO
  {
    var v: Vec := seq(4, h requires 0 <= h < 4 => seq(8, j requires 0 <= j < 8 => SubRowMask(h, j)));
    assert forall h: nat, j: nat :: h < 4 && j < 8 ==> Lane(v, h, j) == SubRowMask(h, j);
    v
  }

  // ---- gathering one row of lanes ----

  /// The lane (h, j) of accumulator (g, j - t) of each j.
  ghost predicate Gathered(acc: Tile, g: nat, t: nat, v: Vec)
    requires g < 4 && t < 8
  {
    forall h: nat, j: nat :: h < 4 && j < 8 ==> Lane(v, h, j) == Lane(acc[Acc(g, Back(j, t))], h, j)
  }

  ghost predicate GatheredTo(acc: Tile, g: nat, t: nat, n: nat, v: Vec)
    requires g < 4 && t < 8
  {
    forall h: nat, j: nat :: h < 4 && j < 8 ==>
      Lane(v, h, j) == if Back(j, t) < n then Lane(acc[Acc(g, Back(j, t))], h, j) else ZERO
  }

  lemma MaskOfTurn(j: nat, t: nat, s: nat)
    requires j < 8 && t < 8 && s < 8
    ensures (s + t) % 8 == j <==> s == Back(j, t)
  {}

  lemma GatherOne(acc: Tile, g: nat, t: nat, s: nat, mask: Vec, before: Vec)
    requires g < 4 && t < 8 && s < 8 && GatheredTo(acc, g, t, s, before)
    requires forall h: nat, j: nat :: h < 4 && j < 8 ==> Lane(mask, h, j) == if j == (s + t) % 8 then ONES else ZERO
    ensures GatheredTo(acc, g, t, s + 1, OrVec(AndVec(mask, acc[Acc(g, s)]), before))
  {
    hide And, Or, Lane, Acc, AndVec, OrVec;
    var after := OrVec(AndVec(mask, acc[Acc(g, s)]), before);
    forall h: nat, j: nat | h < 4 && j < 8
      ensures Lane(after, h, j) == if Back(j, t) < s + 1 then Lane(acc[Acc(g, Back(j, t))], h, j) else ZERO
    {
      MaskOfTurn(j, t, s);
      AndOnes(Lane(acc[Acc(g, s)], h, j));
      AndZero(Lane(acc[Acc(g, s)], h, j));
      OrZero(Lane(acc[Acc(g, s)], h, j));
      ZeroOr(Lane(before, h, j));
    }
  }

  method Gather(acc: Tile, scratch: Tile, g: nat, t: nat) returns (v: Vec)
    requires g < 4 && t < 8 && HasMasks(scratch)
    ensures Gathered(acc, g, t, v)
  {
    hide Lane, Acc, AndVec, OrVec, Fill, GatheredTo;
    v := Fill(ZERO);
    NothingGathered(acc, g, t, v);
    var s := 0;
    while s < 8
      invariant 0 <= s <= 8 && GatheredTo(acc, g, t, s, v)
    {
      GatherOne(acc, g, t, s, scratch[(s + t) % 8], v);
      v := OrVec(AndVec(scratch[(s + t) % 8], acc[Acc(g, s)]), v);
      s := s + 1;
    }
    AllGathered(acc, g, t, v);
  }

  lemma NothingGathered(acc: Tile, g: nat, t: nat, v: Vec)
    requires g < 4 && t < 8 && v == Fill(ZERO)
    ensures GatheredTo(acc, g, t, 0, v)
  {
    hide Lane, Acc, Fill;
  }

  lemma AllGathered(acc: Tile, g: nat, t: nat, v: Vec)
    requires g < 4 && t < 8 && GatheredTo(acc, g, t, 8, v)
    ensures Gathered(acc, g, t, v)
  {
    hide Lane, Acc;
  }

  // ---- the two slots of a pair of gathered registers ----

  /// Sub-rows 0 and 1 of x, then 0 and 1 of y, by exclusive ors under the mask.
  method MergeSubRows(x: Vec, y: Vec, mask: Vec) returns (v: Vec)
    requires forall h: nat, j: nat :: h < 4 && j < 8 ==> Lane(mask, h, j) == if h >= 2 then ONES else ZERO
    ensures forall h: nat, j: nat :: h < 4 && j < 8 ==> Lane(v, h, j) == if h >= 2 then Lane(y, h, j) else Lane(x, h, j)
  {
    hide And, Xor, Lane, AndVec, XorVec;
    var d := XorVec(x, y);
    var kept := AndVec(mask, d);
    v := XorVec(kept, x);
    forall h: nat, j: nat | h < 4 && j < 8 ensures Lane(v, h, j) == if h >= 2 then Lane(y, h, j) else Lane(x, h, j) {
      AndOnes(Lane(d, h, j));
      AndZero(Lane(d, h, j));
      XorZero(Lane(x, h, j));
      XorBack(Lane(x, h, j), Lane(y, h, j));
    }
  }

  /// The register moves between two transposes: from a = (a0, a1, a2, a3) and b,
  /// the slots (a0, a1, b0, b1) and (a2, a3, b2, b3).
  method TwoSlots(a: Vec, b: Vec, mask: Vec) returns (low: Vec, high: Vec)
    requires forall h: nat, j: nat :: h < 4 && j < 8 ==> Lane(mask, h, j) == if h >= 2 then ONES else ZERO
    ensures forall h: nat, j: nat :: h < 4 && j < 8 ==> Lane(low, h, j) == if h >= 2 then Lane(b, h - 2, j)
      else Lane(a, h, j)
    ensures forall h: nat, j: nat :: h < 4 && j < 8 ==> Lane(high, h, j) == if h >= 2 then Lane(b, h, j)
      else Lane(a, h + 2, j)
  {
    hide Lane;
    var lower: Four := Transposed([a, b, a, b]);
    var upper: Four := [lower[2], lower[3], lower[2], lower[3]];
    lower := [lower[0], lower[1], lower[0], lower[1]];
    lower, upper := Transposed(lower), Transposed(upper);
    low := MergeSubRows(lower[0], lower[1], mask);
    high := MergeSubRows(upper[0], upper[1], mask);
  }

  // ---- the whole tile ----

  /// Row r of column group g is in place.
  ghost predicate RowDone(mad: Mad, a: seq<Tile>, b: seq<Tile>, n: nat, out: Tile, r: nat, g: nat)
    requires |a| == |b| && n <= 32 * |a| && r < 32 && g < 4
  {
    forall j: nat :: j < 8 ==> Lane(out[Slot(r, g)], SubRowOf(r), j) == Dot(mad, a, b, r, Col(g, j), n)
  }

  lemma SlotApart(r: nat, g: nat, r': nat, g': nat)
    requires r < 32 && g < 4 && r' < 32 && g' < 4
    ensures Slot(r, g) == Slot(r', g') <==> r / 4 == r' / 4 && g == g'
  {
    QuadSlot(r, g);
    QuadSlot(r', g');
    hide Slot;
  }

  lemma QuadSlot(r: nat, g: nat)
    requires r < 32 && g < 4
    ensures r / 4 < 8
    ensures Slot(r, g) == (if r / 4 < 4 then 2 * (r / 4) else 2 * (r / 4) + 8) + (if g < 2 then 0 else 8)
      + (if g == 1 || g == 3 then 1 else 0)
  {
    assert r % 16 == if r < 16 then r else r - 16;
  }

  lemma GatheredRows(mad: Mad, a: seq<Tile>, b: seq<Tile>, n: nat, acc: Tile, g: nat, t: nat, v: Vec)
    requires |a| == |b| && n <= 32 * |a| && g < 4 && t < 8 && Skewed(mad, a, b, n, acc) && Gathered(acc, g, t, v)
    ensures forall h: nat, j: nat :: h < 4 && j < 8 ==> Lane(v, h, j) == Dot(mad, a, b, Col(h, t), Col(g, j), n)
  {
    hide Lane, Acc, Dot, Col;
    forall h: nat, j: nat | h < 4 && j < 8 ensures Lane(v, h, j) == Dot(mad, a, b, Col(h, t), Col(g, j), n) {
      assert SkewedAt(mad, a, b, n, acc[Acc(g, Back(j, t))], g, Back(j, t));
      assert Back(j, Back(j, t)) == t;
    }
  }

  /// Four rows of a column group in the upper half of the tile, and the same in the lower.
  method FinishPair(mad: Mad, ghost a: seq<Tile>, ghost b: seq<Tile>, ghost n: nat, acc: Tile, scratch: Tile, g: nat,
                    v: nat, out: Tile)
    returns (out': Tile)
    requires |a| == |b| && n <= 32 * |a| && g < 4 && v < 4 && Skewed(mad, a, b, n, acc) && HasMasks(scratch)
    ensures forall r: nat, i: nat :: r < 32 && i < 4 ==>
      if i == g && (r / 4 == v || r / 4 == v + 4) then RowDone(mad, a, b, n, out', r, i)
      else out'[Slot(r, i)] == out[Slot(r, i)]
  {
    hide Lane, Acc, Dot, Col, Slot, SubRowOf;
    var even := Gather(acc, scratch, g, 2 * v);
    var odd := Gather(acc, scratch, g, 2 * v + 1);
    GatheredRows(mad, a, b, n, acc, g, 2 * v, even);
    GatheredRows(mad, a, b, n, acc, g, 2 * v + 1, odd);
    var low, high := TwoSlots(even, odd, scratch[8]);
    out' := out[Slot(4 * v, g) := low];
    out' := out'[Slot(16 + 4 * v, g) := high];
    forall r: nat, i: nat | r < 32 && i < 4
      ensures if i == g && (r / 4 == v || r / 4 == v + 4) then RowDone(mad, a, b, n, out', r, i)
              else out'[Slot(r, i)] == out[Slot(r, i)]
    {
      SlotApart(r, i, 4 * v, g);
      SlotApart(r, i, 16 + 4 * v, g);
      SlotApart(4 * v, g, 16 + 4 * v, g);
      if i == g && (r / 4 == v || r / 4 == v + 4) {
        RowOfLane(r, v);
      }
    }
  }

  /// Which gathered sub-row a row of the pair is.
  lemma RowOfLane(r: nat, v: nat)
    requires r < 32 && v < 4 && (r / 4 == v || r / 4 == v + 4)
    ensures r / 4 == v && SubRowOf(r) < 2 ==> Col(SubRowOf(r), 2 * v) == r
    ensures r / 4 == v && SubRowOf(r) >= 2 ==> Col(SubRowOf(r) - 2, 2 * v + 1) == r
    ensures r / 4 == v + 4 && SubRowOf(r) < 2 ==> Col(SubRowOf(r) + 2, 2 * v) == r
    ensures r / 4 == v + 4 && SubRowOf(r) >= 2 ==> Col(SubRowOf(r), 2 * v + 1) == r
  {}

  /// The natural tile: element (r, c) is the fold of row r and column c.
  method Finish(mad: Mad, ghost a: seq<Tile>, ghost b: seq<Tile>, ghost n: nat, acc: Tile, scratch: Tile, out: Tile)
    returns (c: Tile)
    requires |a| == |b| && n <= 32 * |a| && Skewed(mad, a, b, n, acc)
    ensures forall row: nat, col: nat :: row < 32 && col < 32 ==> At(c, row, col) == Dot(mad, a, b, row, col, n)
  {
    hide Lane, Acc, Dot, Col, Slot, SubRowOf, RowDone, Skewed, HasMasks, At;
    var masks := Masks(scratch);
    c := out;
    var g := 0;
    while g < 4
      invariant 0 <= g <= 4
      invariant forall r: nat, i: nat :: r < 32 && i < g ==> RowDone(mad, a, b, n, c, r, i)
    {
      var v := 0;
      while v < 4
        invariant 0 <= v <= 4
        invariant forall r: nat, i: nat :: r < 32 && i < 4 && (i < g || (i == g && QuadBelow(r, v))) ==>
          RowDone(mad, a, b, n, c, r, i)
      {
        ghost var before := c;
        c := FinishPair(mad, a, b, n, acc, masks, g, v, c);
        forall r: nat, i: nat | r < 32 && i < 4 && (i < g || (i == g && QuadBelow(r, v + 1)))
          ensures RowDone(mad, a, b, n, c, r, i)
        {
          if !(i == g && (r / 4 == v || r / 4 == v + 4)) { SameRow(mad, a, b, n, before, c, r, i); }
        }
        v := v + 1;
      }
      g := g + 1;
    }
    forall row: nat, col: nat | row < 32 && col < 32 ensures At(c, row, col) == Dot(mad, a, b, row, col, n) {
      ColumnParts(col);
      assert RowDone(mad, a, b, n, c, row, GroupOf(col));
      DoneAt(mad, a, b, n, c, row, GroupOf(col), PlaceOf(col));
    }
  }

  predicate QuadBelow(r: nat, v: nat) { r / 4 % 4 < v }

  lemma SameRow(mad: Mad, a: seq<Tile>, b: seq<Tile>, n: nat, before: Tile, after: Tile, r: nat, g: nat)
    requires |a| == |b| && n <= 32 * |a| && r < 32 && g < 4
    requires RowDone(mad, a, b, n, before, r, g) && after[Slot(r, g)] == before[Slot(r, g)]
    ensures RowDone(mad, a, b, n, after, r, g)
  {
    hide Dot, Slot;
  }

  lemma DoneAt(mad: Mad, a: seq<Tile>, b: seq<Tile>, n: nat, c: Tile, r: nat, g: nat, j: nat)
    requires |a| == |b| && n <= 32 * |a| && r < 32 && g < 4 && j < 8 && RowDone(mad, a, b, n, c, r, g)
    ensures At(c, r, Col(g, j)) == Dot(mad, a, b, r, Col(g, j), n)
  {
    hide Dot, Slot, Col, Lane;
    AtGroup(c, r, g, j);
  }
}
