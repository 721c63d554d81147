/// The vector unit's registers and the layout of a tile in them.
///
/// A register, and a slot of a tile, is four sub-rows of eight lanes: four rows
/// of the tile, and eight of its columns.
module VectorUnit {

  type Word = bv32

  type SubRow = s: seq<Word> | |s| == 8 witness [0, 0, 0, 0, 0, 0, 0, 0]

  type Vec = v: seq<SubRow> | |v| == 4 witness [ZERO_LANES, ZERO_LANES, ZERO_LANES, ZERO_LANES]

  type Tile = t: seq<Vec> | |t| == 32 witness Blank()

  function Blank(): (t: seq<Vec>)
    ensures |t| == 32
  {
    var none: Vec := ZERO_VEC;
    seq<Vec>(32, n => none)
  }

  const ZERO_LANES: SubRow := [0, 0, 0, 0, 0, 0, 0, 0]
  const ZERO_VEC: Vec := [ZERO_LANES, ZERO_LANES, ZERO_LANES, ZERO_LANES]

  const ZERO: Word := 0

  /// Lane j of sub-row h.
  function Lane(v: Vec, h: nat, j: nat): Word
    requires h < 4 && j < 8
  {
    v[h][j]
  }

  function Fill(w: Word): (v: Vec)
    ensures forall h: nat, j: nat :: h < 4 && j < 8 ==> Lane(v, h, j) == w
  {
    seq(4, h => seq(8, j => w))
  }

  lemma SameLanes(a: Vec, b: Vec)
    requires forall h: nat, j: nat :: h < 4 && j < 8 ==> Lane(a, h, j) == Lane(b, h, j)
    ensures a == b
  {
    forall h: nat | h < 4 ensures a[h] == b[h] {
      forall j: nat | j < 8 ensures a[h][j] == b[h][j] { assert Lane(a, h, j) == Lane(b, h, j); }
    }
  }

  // ---- where a tile's elements are ----

  /// Column j of column group g: the 8 columns of a sub-row.
  function Col(g: nat, j: nat): (c: nat)
    requires g < 4 && j < 8
    ensures c < 32
  {
    (if g < 2 then 0 else 16) + 2 * j + (if g == 1 || g == 3 then 1 else 0)
  }

  /// The group and the place in it of a column.
  function GroupOf(c: nat): (g: nat)
    requires c < 32
    ensures g < 4
  {
    (if c < 16 then 0 else 2) + c % 2
  }

  function PlaceOf(c: nat): (j: nat)
    requires c < 32
    ensures j < 8
  {
    c % 16 / 2
  }

  lemma ColumnParts(c: nat)
    requires c < 32
    ensures Col(GroupOf(c), PlaceOf(c)) == c
  {}

  lemma ColumnIs(g: nat, j: nat)
    requires g < 4 && j < 8
    ensures GroupOf(Col(g, j)) == g && PlaceOf(Col(g, j)) == j
  {}

  /// The slot, of the 32 of a tile, that holds a row of a column group: a slot
  /// is four rows, a face has two column groups.
  function Slot(row: nat, g: nat): (n: nat)
    requires row < 32 && g < 4
    ensures n < 32
  {
    8 * ((if row < 16 then 0 else 2) + (if g < 2 then 0 else 1)) + row % 16 / 4 * 2 + (if g == 1 || g == 3 then 1
      else 0)
  }

  /// The address formula of the tile layout, for a row and a column.
  lemma SlotAddress(row: nat, col: nat)
    requires row < 32 && col < 32
    ensures 2 * Slot(row, GroupOf(col)) == 16 * (2 * (row / 16) + col / 16) + row % 16 / 4 * 4 + col % 2 * 2
  {}

  function SubRowOf(row: nat): (h: nat)
    ensures h < 4
  {
    row % 4
  }

  function At(t: Tile, row: nat, col: nat): Word
    requires row < 32 && col < 32
  {
    Lane(t[Slot(row, GroupOf(col))], SubRowOf(row), PlaceOf(col))
  }

  lemma AtGroup(t: Tile, row: nat, g: nat, j: nat)
    requires row < 32 && g < 4 && j < 8
    ensures At(t, row, Col(g, j)) == Lane(t[Slot(row, g)], SubRowOf(row), j)
  {
    hide Slot, GroupOf, PlaceOf, SubRowOf, Col;
    ColumnIs(g, j);
  }

  // ---- the lane movements ----

  /// Four registers.
  type Four = l: seq<Vec> | |l| == 4 witness [ZERO_VEC, ZERO_VEC, ZERO_VEC, ZERO_VEC]

  /// Sub-row i of register h becomes sub-row h of register i.
  function Transposed(l: Four): (t: Four)
    ensures forall i: nat, h: nat, j: nat :: i < 4 && h < 4 && j < 8 ==> Lane(t[i], h, j) == Lane(l[h], i, j)
  {
    seq(4, i requires 0 <= i < 4 => seq(4, h requires 0 <= h < 4 => l[h][i]))
  }

  /// Sub-row 0 in all sub-rows.
  function Broadcast(v: Vec): (r: Vec)
    ensures forall h: nat, j: nat :: h < 4 && j < 8 ==> Lane(r, h, j) == Lane(v, 0, j)
  {
    seq(4, h => v[0])
  }

  /// s places back among the 8 lanes of a sub-row.
  function Back(j: nat, s: nat): (r: nat)
    requires j < 8 && s < 8
    ensures r < 8
  {
    if j >= s then j - s else j + 8 - s
  }

  /// Every sub-row one lane to the right.
  function RotatedOnce(v: Vec): (r: Vec)
    ensures forall h: nat, j: nat :: h < 4 && j < 8 ==> Lane(r, h, j) == Lane(v, h, Back(j, 1))
  {
    seq(4, h requires 0 <= h < 4 => seq(8, j requires 0 <= j < 8 => v[h][Back(j, 1)]))
  }
}
