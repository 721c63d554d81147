/// rng_bits: which element of the output each lane of each vector computes, the
/// words it gets, and the state that the next call starts from.
module RngTiles {
  import opened RowMajor
  import opened Words32

  // ---- lanes ----

  type Vector = v: seq<Word> | |v| == 32 witness NoLanes()

  function NoLanes(): (v: seq<Word>)
    ensures |v| == 32
  {
    seq<Word>(32, l => 0)
  }

  /// A tile in the unit's order: eight vectors for each of four faces.
  type Tile = t: seq<Vector> | |t| == 32 witness NoVectors()

  function NoVectors(): (t: seq<Vector>)
    ensures |t| == 32
  {
    seq<Vector>(32, v => NoLanes())
  }

  /// Row and column, in the tile, of a lane.
  function RowOf(face: nat, d: nat, l: nat): (r: nat)
    requires face < 4 && d < 8 && l < 32
    ensures r < 32
  {
    16 * (face / 2) + 4 * (d / 2) + l / 8
  }

  function ColumnOf(face: nat, d: nat, l: nat): (c: nat)
    requires face < 4 && d < 8 && l < 32
    ensures c < 32
  {
    16 * (face % 2) + 2 * (l % 8) + d % 2
  }

  /// The lane that holds an element.
  function FaceFor(r: nat, c: nat): (f: nat)
    requires r < 32 && c < 32
    ensures f < 4
  {
    (if r < 16 then 0 else 2) + (if c < 16 then 0 else 1)
  }

  function VectorFor(r: nat, c: nat): (d: nat)
    requires r < 32 && c < 32
    ensures d < 8
  {
    r % 16 / 4 * 2 + c % 2
  }

  function LaneFor(r: nat, c: nat): (l: nat)
    requires r < 32 && c < 32
    ensures l < 32
  {
    r % 4 * 8 + c % 16 / 2
  }

  lemma Binary(a: nat, b: nat)
    requires b < 2
    ensures (2 * a + b) / 2 == a && (2 * a + b) % 2 == b
  {}

  lemma Octal(s: nat, u: nat)
    requires u < 8
    ensures (8 * s + u) / 8 == s && (8 * s + u) % 8 == u
  {}

  lemma RowDigits(a: nat, q: nat, s: nat)
    requires a < 2 && q < 4 && s < 4
    ensures (16 * a + 4 * q + s) % 16 == 4 * q + s && (16 * a + 4 * q + s) % 4 == s && (4 * q + s) / 4 == q
  {}

  lemma ColumnDigits(b: nat, u: nat, e: nat)
    requires b < 2 && u < 8 && e < 2
    ensures (16 * b + 2 * u + e) % 16 == 2 * u + e && (16 * b + 2 * u + e) % 2 == e && (2 * u + e) / 2 == u
  {}

  /// Face, vector and lane against row and column, digit by digit.
  lemma OfDigits(a: nat, b: nat, q: nat, e: nat, s: nat, u: nat)
    requires a < 2 && b < 2 && q < 4 && e < 2 && s < 4 && u < 8
    ensures RowOf(2 * a + b, 2 * q + e, 8 * s + u) == 16 * a + 4 * q + s
    ensures ColumnOf(2 * a + b, 2 * q + e, 8 * s + u) == 16 * b + 2 * u + e
    ensures FaceFor(16 * a + 4 * q + s, 16 * b + 2 * u + e) == 2 * a + b
    ensures VectorFor(16 * a + 4 * q + s, 16 * b + 2 * u + e) == 2 * q + e
    ensures LaneFor(16 * a + 4 * q + s, 16 * b + 2 * u + e) == 8 * s + u
  {
    Binary(a, b);
    Binary(q, e);
    Octal(s, u);
    RowDigits(a, q, s);
    ColumnDigits(b, u, e);
  }

  lemma SplitRow(r: nat) returns (a: nat, q: nat, s: nat)
    requires r < 32
    ensures a < 2 && q < 4 && s < 4 && r == 16 * a + 4 * q + s
  {
    a, q, s := r / 16, r % 16 / 4, r % 4;
  }

  lemma SplitColumn(c: nat) returns (b: nat, u: nat, e: nat)
    requires c < 32
    ensures b < 2 && u < 8 && e < 2 && c == 16 * b + 2 * u + e
  {
    b, u, e := c / 16, c % 16 / 2, c % 2;
  }

  lemma ElementOfLane(r: nat, c: nat)
    requires r < 32 && c < 32
    ensures RowOf(FaceFor(r, c), VectorFor(r, c), LaneFor(r, c)) == r
    ensures ColumnOf(FaceFor(r, c), VectorFor(r, c), LaneFor(r, c)) == c
  {
    hide RowOf, ColumnOf, FaceFor, VectorFor, LaneFor;
    var a, q, s := SplitRow(r);
    var b, u, e := SplitColumn(c);
    OfDigits(a, b, q, e, s, u);
  }

  lemma SplitLane(face: nat, d: nat, l: nat) returns (a: nat, b: nat, q: nat, e: nat, s: nat, u: nat)
    requires face < 4 && d < 8 && l < 32
    ensures a < 2 && b < 2 && q < 4 && e < 2 && s < 4 && u < 8
    ensures face == 2 * a + b && d == 2 * q + e && l == 8 * s + u
    ensures face / 2 == a && face % 2 == b && d / 2 == q && d % 2 == e && l / 8 == s && l % 8 == u
  {
    a, b, q, e, s, u := face / 2, face % 2, d / 2, d % 2, l / 8, l % 8;
  }

  /// Lanes and elements correspond one to one.
  lemma LaneOfElement(face: nat, d: nat, l: nat)
    requires face < 4 && d < 8 && l < 32
    ensures FaceFor(RowOf(face, d, l), ColumnOf(face, d, l)) == face
    ensures VectorFor(RowOf(face, d, l), ColumnOf(face, d, l)) == d
    ensures LaneFor(RowOf(face, d, l), ColumnOf(face, d, l)) == l
  {
    hide RowOf, ColumnOf, FaceFor, VectorFor, LaneFor;
    var a, b, q, e, s, u := SplitLane(face, d, l);
    OfDigits(a, b, q, e, s, u);
  }

  // ---- indices ----

  /// A lane's offset from its vector's first lane: the bits of the lane number
  /// choose the column and add the rows.
  function LaneOffset(W: Word, l: nat): Word
    requires l < 32
  {
    var column: Word := 2 * l % 16;
    var row := 2 * l / 16;
    var one: Word := if row % 2 != 0 then Add(column, W) else column;
    if row / 2 % 2 != 0 then Add(one, Wrap(2 * W)) else one
  }

  /// The row-major index of a vector's first lane, from that of its face.
  function VectorIndex(faceIndex: Word, W: Word, d: nat): Word
    requires d < 8
  {
    Wrap(faceIndex + 4 * (d / 2) * W + d % 2)
  }

  function FaceIndex(base: Word, W: Word, face: nat): Word
    requires face < 4
  {
    Wrap(base + 16 * (face / 2) * W + 16 * (face % 2))
  }

  /// The index of element (r, c) of a tile whose first element has index `base`.
  function ElementIndex(base: Word, W: Word, r: nat, c: nat): Word { Wrap(base + r * W + c) }

  lemma WrapSum(a: int, b: int)
    ensures Wrap(Wrap(a) + b) == Wrap(a + b)
  {
    DivMod(a, TWO_32);
    DivMod(Wrap(a) + b, TWO_32);
    DivModUnique(a + b, TWO_32, a / TWO_32 + (Wrap(a) + b) / TWO_32, Wrap(Wrap(a) + b));
  }

  lemma LaneBits(s: nat, u: nat)
    requires s < 4 && u < 8
    ensures 2 * (8 * s + u) % 16 == 2 * u && 2 * (8 * s + u) / 16 == s
  {}

  lemma OffsetIs(W: Word, s: nat, u: nat)
    requires s < 4 && u < 8
    ensures LaneOffset(W, 8 * s + u) == Wrap(LanePart(W, s, u))
  {
    LaneBits(s, u);
    RowBits(s);
    OffsetSum(W, s, 2 * u);
  }

  lemma RowBits(s: nat)
    requires s < 4
    ensures s % 2 == (if s == 1 || s == 3 then 1 else 0) && s / 2 % 2 == (if s >= 2 then 1 else 0)
  {}

  lemma OffsetSum(W: Word, s: nat, column: Word)
    requires s < 4
    ensures Wrap(s * W + column) ==
      var one: Word := if s == 1 || s == 3 then Add(column, W) else column;
      if s >= 2 then Add(one, Wrap(2 * W)) else one
  {
    WrapSmall(column);
    WrapSum(column + W, Wrap(2 * W));
    WrapSum(2 * W, column + W);
    WrapSum(2 * W, column);
    hide Wrap;
    if s == 0 { assert s * W == 0; }
    else if s == 1 { assert s * W == W; }
    else if s == 2 { assert s * W == 2 * W; }
    else { assert s * W == 3 * W; }
  }

  lemma WrapSmall(a: Word)
    ensures Wrap(a) == a
  {}

  /// An element's index by the digits of its face, its vector and its lane.
  function FacePart(base: Word, W: Word, a: nat, b: nat): nat { base + 16 * a * W + 16 * b }

  function VectorPart(W: Word, q: nat, e: nat): nat { 4 * q * W + e }

  function LanePart(W: Word, s: nat, u: nat): nat { s * W + 2 * u }

  lemma VectorIndexIs(base: Word, W: Word, a: nat, b: nat, q: nat, e: nat)
    requires a < 2 && b < 2 && q < 4 && e < 2
    ensures VectorIndex(FaceIndex(base, W, 2 * a + b), W, 2 * q + e)
      == Wrap(Wrap(FacePart(base, W, a, b)) + VectorPart(W, q, e))
  {
    Binary(a, b);
    Binary(q, e);
    hide Wrap;
  }

  lemma ElementIndexIs(base: Word, W: Word, a: nat, b: nat, q: nat, e: nat, s: nat, u: nat)
    ensures ElementIndex(base, W, 16 * a + 4 * q + s, 16 * b + 2 * u + e)
         == Wrap(FacePart(base, W, a, b) + VectorPart(W, q, e) + LanePart(W, s, u))
  {
    hide Wrap;
    RowSum(a, q, s, W);
  }

  /// Each lane's index is its element's, also with a key word added.
  lemma LaneIndex(base: Word, W: Word, face: nat, d: nat, l: nat, k: Word)
    requires face < 4 && d < 8 && l < 32
    ensures Add(LaneOffset(W, l), Add(VectorIndex(FaceIndex(base, W, face), W, d), k))
         == Add(ElementIndex(base, W, RowOf(face, d, l), ColumnOf(face, d, l)), k)
    ensures Add(LaneOffset(W, l), VectorIndex(FaceIndex(base, W, face), W, d))
         == ElementIndex(base, W, RowOf(face, d, l), ColumnOf(face, d, l))
  {
    hide LaneOffset, RowOf, ColumnOf, VectorIndex, FaceIndex, ElementIndex, Add, Wrap, FacePart, VectorPart, LanePart;
    var a, b, q, e, s, u := SplitLane(face, d, l);
    OfDigits(a, b, q, e, s, u);
    OffsetIs(W, s, u);
    VectorIndexIs(base, W, a, b, q, e);
    ElementIndexIs(base, W, a, b, q, e, s, u);
    SumOfParts(LanePart(W, s, u), VectorPart(W, q, e), FacePart(base, W, a, b), k);
  }

  lemma SumOfParts(o: int, v: int, f: int, k: Word)
    ensures Add(Wrap(o), Add(Wrap(Wrap(f) + v), k)) == Add(Wrap(f + v + o), k)
    ensures Add(Wrap(o), Wrap(Wrap(f) + v)) == Wrap(f + v + o)
  {
    WrapSum(f, v);
    WrapSum(f + v, k);
    WrapSum(f + v + k, Wrap(o));
    WrapSum(o, f + v + k);
    WrapSum(f + v, Wrap(o));
    WrapSum(o, f + v);
    WrapSum(f + v + o, k);
    hide Wrap;
  }

  lemma RowSum(a: nat, q: nat, s: nat, W: nat)
    ensures (16 * a + 4 * q + s) * W == 16 * a * W + 4 * q * W + s * W
  {
    MulDistribute(16 * a + 4 * q, s, W);
    MulDistribute(16 * a, 4 * q, W);
  }
}
