/// The layout of a 32x32 tile in memory: four faces of 16 rows of 16 columns.
module TileFaces {
  import opened RowMajor

  /// The place of element (r, c) in a tile of four faces.
  function FacePlace(r: nat, c: nat): (p: nat)
    requires r < 32 && c < 32
    ensures p < 1024
  {
    ((r / 16) * 2 + c / 16) * 256 + (r % 16) * 16 + c % 16
  }

  /// A tile is its four faces one after another, the two of the upper half first,
  /// each of them row by row.
  lemma FacesInOrder(f: nat, s: nat, c: nat)
    requires f < 4 && s < 16 && c < 16
    ensures 16 * (f / 2) + s < 32 && 16 * (f % 2) + c < 32
    ensures FacePlace(16 * (f / 2) + s, 16 * (f % 2) + c) == f * 256 + s * 16 + c
  {}

  /// Element (r, c) of tile i of a run of tiles in memory.
  function Elem<W>(words: seq<W>, i: nat, r: nat, c: nat): W
    requires r < 32 && c < 32 && (i + 1) * 1024 <= |words|
  {
    words[i * 1024 + FacePlace(r, c)]
  }

  function FaceRow(row: nat, half: nat): (p: nat)
    requires row < 32 && half < 2
  {
    ((row / 16) * 2 + half) * 256 + (row % 16) * 16
  }

  lemma FaceElement(row: nat, half: nat, e: nat)
    requires row < 32 && half < 2 && e < 16
    ensures FacePlace(row, half * 16 + e) == FaceRow(row, half) + e
  {
    DivModUnique(half * 16 + e, 16, half, e);
  }

  /// The row and column of a place in a tile of four faces.
  function RowAt(p: nat): (r: nat)
    requires p < 1024
    ensures r < 32
  {
    (p / 512) * 16 + (p % 256) / 16
  }

  function ColumnAt(p: nat): (c: nat)
    requires p < 1024
    ensures c < 32
  {
    (p / 256 % 2) * 16 + p % 16
  }

  /// A place's face, row of the face and column of the face.
  lemma PlaceParts(p: nat) returns (f: nat, s: nat, c: nat)
    requires p < 1024
    ensures f < 4 && s < 16 && c < 16 && p == f * 256 + s * 16 + c
    ensures RowAt(p) == (if f < 2 then 0 else 16) + s
    ensures ColumnAt(p) == (if f == 0 || f == 2 then 0 else 16) + c
  {
    f, s, c := p / 256, p % 256 / 16, p % 16;
    Halves(p);
  }

  lemma Halves(p: nat)
    requires p < 1024
    ensures p / 512 == (if p / 256 < 2 then 0 else 1) && p / 256 < 4 && p / 256 % 2 == (if p / 256 == 0 || p / 256 == 2
      then 0 else 1)
    ensures p == p / 256 * 256 + p % 256 / 16 * 16 + p % 16 && p % 256 / 16 < 16
  {}

  /// Where the face row begins.
  lemma FaceRowAt(row: nat, half: nat)
    requires row < 32 && half < 2
    ensures FaceRow(row, half) == ((if row < 16 then 0 else 2) + half) * 256 + (if row < 16 then row else row - 16) * 16
  {}

  /// Places and (row, column) pairs correspond one to one.
  lemma RowAndColumnOfPlace(r: nat, c: nat)
    requires r < 32 && c < 32
    ensures RowAt(FacePlace(r, c)) == r && ColumnAt(FacePlace(r, c)) == c
  {
    var half, e := if c < 16 then 0 else 1, if c < 16 then c else c - 16;
    FaceElement(r, half, e);
    FaceRowAt(r, half);
    hide RowAt, ColumnAt, FacePlace, FaceRow;
    var f, s, d := PlaceParts(FacePlace(r, c));
  }

  /// A half's face row is the row's 16 columns of that half.
  lemma FaceRowPlaces(row: nat, half: nat, p: nat)
    requires row < 32 && half < 2 && p < 1024
    ensures FaceRow(row, half) + 16 <= 1024
    ensures FaceRow(row, half) <= p < FaceRow(row, half) + 16 <==> RowAt(p) == row && ColumnAt(p) / 16 == half
    ensures FaceRow(row, half) <= p < FaceRow(row, half) + 16 ==> ColumnAt(p) == half * 16 + (p - FaceRow(row, half))
  {
    hide RowAt, ColumnAt, FaceRow;
    var f, s, c := PlaceParts(p);
    FaceRowAt(row, half);
  }

  /// Rows that never cross from faces 0-1 into faces 2-3.
  predicate InFace(r: nat, rows: nat) { 0 < rows <= 16 && r + rows <= 32 && r % 16 + rows <= 16 }

  /// A face's part of some rows is one run of words.
  lemma RunOfRows(r0: nat, rows: nat, f: nat, r: nat, c: nat)
    requires InFace(r0, rows) && f < 2 && r < 32 && c < 32
    ensures FacePlace(r0, 16 * f) + rows * 16 <= 1024
    ensures FacePlace(r0, 16 * f) <= FacePlace(r, c) < FacePlace(r0, 16 * f) + rows * 16 <==>
      r0 <= r < r0 + rows && c / 16 == f
    ensures r0 <= r < r0 + rows && c / 16 == f ==> FacePlace(r, c) == FacePlace(r0, 16 * f) + (r - r0) * 16 + c % 16
  {
    FaceParts(r0, 16 * f);
    FaceParts(r, c);
    hide FacePlace;
  }

  lemma Half(x: nat)
    requires x < 32
    ensures x / 16 == (if x < 16 then 0 else 1) && x % 16 == (if x < 16 then x else x - 16)
  {}

  lemma FaceParts(r: nat, c: nat)
    requires r < 32 && c < 32
    ensures FacePlace(r, c) == (if r < 16 then 0 else 512) + (if c < 16 then 0 else 256) + (if r < 16 then r
      else r - 16) * 16 + (if c < 16 then c else c - 16)
    ensures c % 16 == (if c < 16 then c else c - 16) && c / 16 == (if c < 16 then 0 else 1)
      && r % 16 == (if r < 16 then r else r - 16)
  {
    Half(r);
    Half(c);
  }

  /// Where face f's part of the rows from r0 on begins.
  function RunPlace(r0: nat, f: nat): nat { (if r0 < 16 then 0 else 2) * 256 + r0 % 16 * 16 + f * 256 }

  lemma RunPlaceIs(r0: nat, f: nat)
    requires r0 < 32 && f < 2
    ensures RunPlace(r0, f) == FacePlace(r0, 16 * f)
  {
    FaceParts(r0, 16 * f);
    Half(r0);
    hide FacePlace;
  }
}
