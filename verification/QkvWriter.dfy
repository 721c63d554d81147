/// The fused QKV split on its cores: a unit's heads from the QKV row, and its
/// writes of head rows, zero rows and zero tiles, each counted.
///
/// Norm and rotation are any function of a head's row that keeps its length.
module QkvWriter {
  import opened TileFaces
  import opened FaceCopies
  import opened VectorUnit
  import opened QkvUnits

  type Transform = (Kind, nat, seq<Word>) -> seq<Word>

  ghost predicate KeepsLength(f: Transform, n: nat) {
    forall k: Kind, b: nat, row: seq<Word> :: |row| == n ==> |f(k, b, row)| == n
  }

  // ---- writes and their counts ----

  ghost predicate Kept(after: seq<Word>, counts': seq<nat>, before: seq<Word>, counts: seq<nat>, i: nat, r: nat, c: nat)
    requires |after| == |before| == |counts'| == |counts| && (i + 1) * 1024 <= |after| && r < 32 && c < 32
  {
    Elem(after, i, r, c) == Elem(before, i, r, c) && Elem(counts', i, r, c) == Elem(counts, i, r, c)
  }

  /// One write of the element, of a word.
  ghost predicate Put(after: seq<Word>, counts': seq<nat>, counts: seq<nat>, i: nat, r: nat, c: nat, w: Word)
    requires |after| == |counts'| == |counts| && (i + 1) * 1024 <= |after| && r < 32 && c < 32
  {
    Elem(after, i, r, c) == w && Elem(counts', i, r, c) == Elem(counts, i, r, c) + 1
  }

  ghost function Counted(counts: seq<nat>, at: nat, n: nat): (counts': seq<nat>)
    ensures |counts'| == |counts|
    ensures forall x: nat :: x < |counts| ==> counts'[x] == counts[x] + (if at <= x < at + n then 1 else 0)
  {
    seq(|counts|, x requires 0 <= x < |counts| => counts[x] + (if at <= x < at + n then 1 else 0))
  }

  /// Half f of some rows of a tile written from a run of words.
  ghost predicate RunWritten(after: seq<Word>, counts': seq<nat>, before: seq<Word>, counts: seq<nat>,
                             tile: nat, row: nat, rows: nat, f: nat, words: seq<Word>, start: nat)
    requires |after| == |before| == |counts'| == |counts| && start + rows * 16 <= |words|
  {
    forall i: nat, r: nat, c: nat :: (i + 1) * 1024 <= |after| && r < 32 && c < 32 ==>
      RunElem(after, counts', before, counts, tile, row, rows, f, words, start, i, r, c)
  }

  ghost predicate RunElem(after: seq<Word>, counts': seq<nat>, before: seq<Word>, counts: seq<nat>,
                          tile: nat, row: nat, rows: nat, f: nat, words: seq<Word>, start: nat, i: nat, r: nat, c: nat)
    requires |after| == |before| == |counts'| == |counts| && start + rows * 16 <= |words| && (i + 1) * 1024 <= |after|
      && r < 32 && c < 32
  {
    if i == tile && row <= r < row + rows && c / 16 == f then
      RunInWords(words, start, rows, r - row, c);
      Put(after, counts', counts, i, r, c, words[start + (r - row) * 16 + c % 16])
    else Kept(after, counts', before, counts, i, r, c)
  }

  lemma RunInWords(words: seq<Word>, start: nat, rows: nat, r: nat, c: nat)
    requires start + rows * 16 <= |words| && r < rows
    ensures start + r * 16 + c % 16 < |words|
  {}

  method WriteRun(words: seq<Word>, start: nat, out: array<Word>, ghost counts: seq<nat>, tile: nat, row: nat,
                  rows: nat, f: nat)
    returns (ghost counts': seq<nat>)
    requires InFace(row, rows) && f < 2 && start + rows * 16 <= |words| && (tile + 1) * 1024 <= out.Length == |counts|
    modifies out
    ensures |counts'| == |counts| && RunWritten(out[..], counts', old(out[..]), counts, tile, row, rows, f, words,
      start)
  {
    hide FacePlace, RunPlace;
    RunPlaceIs(row, f);
    RunOfRows(row, rows, f, 0, 0);
    ghost var before := out[..];
    var at := tile * 1024 + RunPlace(row, f);
    CopyWords(words, start, out, at, rows * 16);
    counts' := Counted(counts, at, rows * 16);
    forall i: nat, r: nat, c: nat | (i + 1) * 1024 <= out.Length && r < 32 && c < 32
      ensures RunElem(out[..], counts', before, counts, tile, row, rows, f, words, start, i, r, c)
    {
      RunOfRows(row, rows, f, r, c);
    }
  }

  // ---- a unit's writes ----

  /// A unit's tiles, as the compute kernel (or the reader, for v heads) leaves them.
  ghost predicate IsUnit(job: Job, u: Unit, tiles: seq<Word>) {
    && job.Valid() && |tiles| == job.headTiles * 1024 && u.firstRow % GROUP == 0 && u.firstRow < 32
    && u.firstRow + GROUP <= u.zeroRowsFrom <= 32
  }

  /// What the unit's writer does to an element, if the tile is among the first n of its head tiles
  /// (or, with all of them, among the first z of its zero tiles).
  ghost predicate UnitElem(job: Job, u: Unit, tiles: seq<Word>, after: seq<Word>, counts': seq<nat>, before: seq<Word>,
                           counts: seq<nat>,
                           n: nat, z: nat, i: nat, r: nat, c: nat)
    requires |tiles| == job.headTiles * 1024 && |after| == |before| == |counts'| == |counts|
      && (i + 1) * 1024 <= |after| && r < 32 && c < 32
  {
    if i >= (if i < u.firstTile + job.headTiles then u.firstTile + n else u.firstTile + job.headTiles + z)
      then Kept(after, counts', before, counts, i, r, c)
    else match RoleOf(job, u, i, r)
      case HeadRow => u.firstRow <= r < u.firstRow + 32
        && Put(after, counts', counts, i, r, c, Elem(tiles, i - u.firstTile, r - u.firstRow, c))
      case Elsewhere => Kept(after, counts', before, counts, i, r, c)
      case _ => Put(after, counts', counts, i, r, c, ZERO)
  }

  ghost predicate UnitWritten(job: Job, u: Unit, tiles: seq<Word>, after: seq<Word>, counts': seq<nat>,
                              before: seq<Word>, counts: seq<nat>, n: nat, z: nat)
    requires |tiles| == job.headTiles * 1024 && |after| == |before| == |counts'| == |counts|
  {
    forall i: nat, r: nat, c: nat :: (i + 1) * 1024 <= |after| && r < 32 && c < 32 ==>
      UnitElem(job, u, tiles, after, counts', before, counts, n, z, i, r, c)
  }

  /// The rows of one head tile: its group's, from the unit's tile.
  ghost predicate TileElem(u: Unit, tiles: seq<Word>, t: nat, after: seq<Word>, counts': seq<nat>, before: seq<Word>,
                           counts: seq<nat>,
                           halves: nat, faces: nat, i: nat, r: nat, c: nat)
    requires (t + 1) * 1024 <= |tiles| && |after| == |before| == |counts'| == |counts| && (i + 1) * 1024 <= |after|
      && r < 32 && c < 32
  {
    if i == u.firstTile + t && u.firstRow <= r < u.firstRow + GROUP && c / 16 < halves
    then Put(after, counts', counts, i, r, c, Elem(tiles, t, r - u.firstRow, c))
    else if i == u.firstTile + t && r >= u.zeroRowsFrom && 2 * (r / 16) + c / 16 < faces
      then Put(after, counts', counts, i, r, c, ZERO)
    else Kept(after, counts', before, counts, i, r, c)
  }

  ghost predicate TileWritten(u: Unit, tiles: seq<Word>, t: nat, after: seq<Word>, counts': seq<nat>,
                              before: seq<Word>, counts: seq<nat>, halves: nat, faces: nat)
    requires (t + 1) * 1024 <= |tiles| && |after| == |before| == |counts'| == |counts|
  {
    forall i: nat, r: nat, c: nat :: (i + 1) * 1024 <= |after| && r < 32 && c < 32 ==>
      TileElem(u, tiles, t, after, counts', before, counts, halves, faces, i, r, c)
  }

  /// A unit's rows do not cross from the upper faces into the lower ones.
  lemma GroupInFace(row: nat)
    requires row % GROUP == 0 && row < 32
    ensures InFace(row, GROUP) && row + GROUP <= 32
  {
    assert row == 0 || row == 8 || row == 16 || row == 24;
  }

  method WriteHalves(job: Job, u: Unit, tiles: seq<Word>, t: nat, out: array<Word>, ghost counts: seq<nat>)
    returns (ghost counts': seq<nat>)
    requires IsUnit(job, u, tiles) && t < job.headTiles && (u.firstTile + t + 1) * 1024 <= out.Length == |counts|
    modifies out
    ensures |counts'| == |counts| && TileWritten(u, tiles, t, out[..], counts', old(out[..]), counts, 2, 0)
  {
    hide InFace, Put, Kept;
    GroupInFace(u.firstRow);
    ghost var before := out[..];
    counts' := counts;
    assert TileWritten(u, tiles, t, out[..], counts', before, counts, 0, 0) by {
      hide Elem;
      NothingYet(u, tiles, t, before, counts);
    }
    var half := 0;
    while half < 2
      invariant 0 <= half <= 2 && |counts'| == |counts|
      invariant TileWritten(u, tiles, t, out[..], counts', before, counts, half, 0)
    {
      ghost var middle, counts1 := out[..], counts';
      counts' := WriteRun(tiles, t * 1024 + half * 256, out, counts', u.firstTile + t, u.firstRow, GROUP, half);
      HalfWritten(u, tiles, t, out[..], counts', middle, counts1, before, counts, half);
      half := half + 1;
    }
  }

  lemma NothingYet(u: Unit, tiles: seq<Word>, t: nat, before: seq<Word>, counts: seq<nat>)
    requires (t + 1) * 1024 <= |tiles| && |before| == |counts|
    ensures TileWritten(u, tiles, t, before, counts, before, counts, 0, 0)
  {
    hide Elem;
  }

  lemma HalfWritten(u: Unit, tiles: seq<Word>, t: nat, after: seq<Word>, counts': seq<nat>, middle: seq<Word>,
                    counts1: seq<nat>,
                    before: seq<Word>, counts: seq<nat>, half: nat)
    requires (t + 1) * 1024 <= |tiles| && |after| == |middle| == |before| == |counts'| == |counts1| == |counts|
      && half < 2
    requires TileWritten(u, tiles, t, middle, counts1, before, counts, half, 0)
    requires RunWritten(after, counts', middle, counts1, u.firstTile + t, u.firstRow, GROUP, half, tiles,
                        t * 1024 + half * 256)
    ensures TileWritten(u, tiles, t, after, counts', before, counts, half + 1, 0)
  {
    hide FacePlace;
    var more := half + 1;
    forall i: nat, r: nat, c: nat | (i + 1) * 1024 <= |after| && r < 32 && c < 32
      ensures TileElem(u, tiles, t, after, counts', before, counts, more, 0, i, r, c)
    {
      assert TileElem(u, tiles, t, middle, counts1, before, counts, half, 0, i, r, c);
      assert RunElem(after, counts', middle, counts1, u.firstTile + t, u.firstRow, GROUP, half, tiles,
        t * 1024 + half * 256, i, r, c);
      if u.firstRow <= r < u.firstRow + GROUP && c / 16 == half { LowRows(r - u.firstRow, c); }
    }
  }

  /// Rows 0-7 are in the upper faces.
  lemma LowRows(r: nat, c: nat)
    requires r < 16 && c < 32
    ensures FacePlace(r, c) == c / 16 * 256 + r * 16 + c % 16
  {}

  /// The zero rows, face by face.
  method WriteZeroRows(job: Job, u: Unit, tiles: seq<Word>, t: nat, zeros: seq<Word>, out: array<Word>,
                       ghost counts: seq<nat>,
                       ghost before: seq<Word>, ghost counts0: seq<nat>)
    returns (ghost counts': seq<nat>)
    requires IsUnit(job, u, tiles) && t < job.headTiles
      && (u.firstTile + t + 1) * 1024 <= out.Length == |counts| == |before| == |counts0|
    requires |zeros| == 1024 && forall x :: 0 <= x < 1024 ==> zeros[x] == ZERO
    requires TileWritten(u, tiles, t, out[..], counts, before, counts0, 2, 0)
    modifies out
    ensures |counts'| == |counts| && TileWritten(u, tiles, t, out[..], counts', before, counts0, 2, 4)
  {
    hide Put, Kept, TileWritten, RunWritten;
    counts' := counts;
    var face := 0;
    while face < 4
      invariant 0 <= face <= 4 && |counts'| == |counts|
      invariant TileWritten(u, tiles, t, out[..], counts', before, counts0, 2, face)
    {
      var faceRow := face / 2 * 16;
      var from_ := if u.zeroRowsFrom > faceRow then u.zeroRowsFrom else faceRow;
      ghost var middle, counts1 := out[..], counts';
      if from_ < faceRow + 16 {
        RestOfFace(from_, faceRow);
        counts' := WriteRun(zeros, 0, out, counts', u.firstTile + t, from_, faceRow + 16 - from_, face % 2);
        FaceZeroed(u, tiles, t, out[..], counts', middle, counts1, before, counts0, zeros, face, from_);
      } else {
        FaceSkipped(u, tiles, t, out[..], counts', before, counts0, face);
      }
      face := face + 1;
    }
  }

  lemma RestOfFace(from_: nat, faceRow: nat)
    requires (faceRow == 0 || faceRow == 16) && faceRow <= from_ < faceRow + 16
    ensures InFace(from_, faceRow + 16 - from_)
  {}

  lemma FaceOf(face: nat, r: nat, c: nat)
    requires face < 4 && r < 32 && c < 32
    ensures 2 * (r / 16) + c / 16 == face <==> face / 2 * 16 <= r < face / 2 * 16 + 16 && c / 16 == face % 2
  {
    Half(r);
    Half(c);
  }

  lemma FaceZeroed(u: Unit, tiles: seq<Word>, t: nat, after: seq<Word>, counts': seq<nat>, middle: seq<Word>,
                   counts1: seq<nat>,
                   before: seq<Word>, counts: seq<nat>, zeros: seq<Word>, face: nat, from_: nat)
    requires (t + 1) * 1024 <= |tiles| && |after| == |middle| == |before| == |counts'| == |counts1| == |counts|
      && face < 4
    requires |zeros| == 1024 && forall x :: 0 <= x < 1024 ==> zeros[x] == ZERO
    requires from_ == (if u.zeroRowsFrom > face / 2 * 16 then u.zeroRowsFrom else face / 2 * 16) < face / 2 * 16 + 16
    requires u.firstRow + GROUP <= u.zeroRowsFrom
    requires TileWritten(u, tiles, t, middle, counts1, before, counts, 2, face)
    requires RunWritten(after, counts', middle, counts1, u.firstTile + t, from_, face / 2 * 16 + 16 - from_, face % 2,
                        zeros, 0)
    ensures TileWritten(u, tiles, t, after, counts', before, counts, 2, face + 1)
  {
    hide FacePlace, Elem;
    var faces, rows := face + 1, face / 2 * 16 + 16 - from_;
    forall i: nat, r: nat, c: nat | (i + 1) * 1024 <= |after| && r < 32 && c < 32
      ensures TileElem(u, tiles, t, after, counts', before, counts, 2, faces, i, r, c)
    {
      assert TileElem(u, tiles, t, middle, counts1, before, counts, 2, face, i, r, c);
      assert RunElem(after, counts', middle, counts1, u.firstTile + t, from_, rows, face % 2, zeros, 0, i, r, c);
      FaceOf(face, r, c);
    }
  }

  lemma FaceSkipped(u: Unit, tiles: seq<Word>, t: nat, after: seq<Word>, counts': seq<nat>, before: seq<Word>,
                    counts: seq<nat>, face: nat)
    requires (t + 1) * 1024 <= |tiles| && |after| == |before| == |counts'| == |counts| && face < 4
    requires u.zeroRowsFrom >= face / 2 * 16 + 16 && TileWritten(u, tiles, t, after, counts', before, counts, 2, face)
    ensures TileWritten(u, tiles, t, after, counts', before, counts, 2, face + 1)
  {
    hide Elem, Put, Kept;
    var faces := face + 1;
    forall i: nat, r: nat, c: nat | (i + 1) * 1024 <= |after| && r < 32 && c < 32
      ensures TileElem(u, tiles, t, after, counts', before, counts, 2, faces, i, r, c)
    {
      assert TileElem(u, tiles, t, after, counts', before, counts, 2, face, i, r, c);
      FaceOf(face, r, c);
    }
  }

  /// The unit's writer: its rows and zero rows in each head tile, then its zero tiles.
  method WriteUnit(job: Job, u: Unit, tiles: seq<Word>, zeros: seq<Word>, out: array<Word>, ghost counts: seq<nat>)
    returns (ghost counts': seq<nat>)
    requires IsUnit(job, u, tiles) && (u.firstTile + job.headTiles + u.zeroTiles) * 1024 <= out.Length == |counts|
    requires |zeros| == 1024 && forall x :: 0 <= x < 1024 ==> zeros[x] == ZERO
    modifies out
    ensures |counts'| == |counts| && UnitWritten(job, u, tiles, out[..], counts', old(out[..]), counts, job.headTiles,
      u.zeroTiles)
  {
    hide UnitWritten, TileWritten;
    ghost var before := out[..];
    counts' := counts;
    NoTilesYet(job, u, tiles, before, counts);
    var t := 0;
    while t < job.headTiles
      invariant 0 <= t <= job.headTiles && |counts'| == |counts|
      invariant UnitWritten(job, u, tiles, out[..], counts', before, counts, t, 0)
    {
      ghost var middle, counts1 := out[..], counts';
      counts' := WriteHalves(job, u, tiles, t, out, counts');
      counts' := WriteZeroRows(job, u, tiles, t, zeros, out, counts', middle, counts1);
      TileAdded(job, u, tiles, t, out[..], counts', middle, counts1, before, counts);
      t := t + 1;
    }
    t := 0;
    while t < u.zeroTiles
      invariant 0 <= t <= u.zeroTiles && |counts'| == |counts|
      invariant UnitWritten(job, u, tiles, out[..], counts', before, counts, job.headTiles, t)
    {
      ghost var middle, counts1 := out[..], counts';
      CopyWords(zeros, 0, out, (u.firstTile + job.headTiles + t) * 1024, 1024);
      counts' := Counted(counts', (u.firstTile + job.headTiles + t) * 1024, 1024);
      ZeroTileAdded(job, u, tiles, t, out[..], counts', middle, counts1, before, counts);
      t := t + 1;
    }
  }

  lemma NoTilesYet(job: Job, u: Unit, tiles: seq<Word>, before: seq<Word>, counts: seq<nat>)
    requires IsUnit(job, u, tiles) && |before| == |counts|
    ensures UnitWritten(job, u, tiles, before, counts, before, counts, 0, 0)
  {
    hide Elem;
  }

  lemma TileAdded(job: Job, u: Unit, tiles: seq<Word>, t: nat, after: seq<Word>, counts': seq<nat>, middle: seq<Word>,
                  counts1: seq<nat>,
                  before: seq<Word>, counts: seq<nat>)
    requires IsUnit(job, u, tiles) && t < job.headTiles
      && |after| == |middle| == |before| == |counts'| == |counts1| == |counts|
    requires UnitWritten(job, u, tiles, middle, counts1, before, counts, t, 0)
    requires TileWritten(u, tiles, t, after, counts', middle, counts1, 2, 4)
    ensures UnitWritten(job, u, tiles, after, counts', before, counts, t + 1, 0)
  {
    hide Elem;
    var n := t + 1;
    forall i: nat, r: nat, c: nat | (i + 1) * 1024 <= |after| && r < 32 && c < 32
      ensures UnitElem(job, u, tiles, after, counts', before, counts, n, 0, i, r, c)
    {
      assert UnitElem(job, u, tiles, middle, counts1, before, counts, t, 0, i, r, c);
      assert TileElem(u, tiles, t, after, counts', middle, counts1, 2, 4, i, r, c);
      Half(r);
      Half(c);
    }
  }

  lemma ZeroTileAdded(job: Job, u: Unit, tiles: seq<Word>, t: nat, after: seq<Word>, counts': seq<nat>,
                      middle: seq<Word>, counts1: seq<nat>,
                      before: seq<Word>, counts: seq<nat>)
    requires IsUnit(job, u, tiles) && t < u.zeroTiles
      && |after| == |middle| == |before| == |counts'| == |counts1| == |counts|
    requires UnitWritten(job, u, tiles, middle, counts1, before, counts, job.headTiles, t)
    requires var at := (u.firstTile + job.headTiles + t) * 1024;
      forall x: nat :: x < |after| ==>
        after[x] == (if at <= x < at + 1024 then ZERO else middle[x])
          && counts'[x] == counts1[x] + (if at <= x < at + 1024 then 1 else 0)
    ensures UnitWritten(job, u, tiles, after, counts', before, counts, job.headTiles, t + 1)
  {
    var n := t + 1;
    forall i: nat, r: nat, c: nat | (i + 1) * 1024 <= |after| && r < 32 && c < 32
      ensures UnitElem(job, u, tiles, after, counts', before, counts, job.headTiles, n, i, r, c)
    {
      assert UnitElem(job, u, tiles, middle, counts1, before, counts, job.headTiles, t, i, r, c);
      ElemIn(after, i, r, c);
      hide FacePlace;
    }
  }

  lemma ElemIn(words: seq<Word>, i: nat, r: nat, c: nat)
    requires (i + 1) * 1024 <= |words| && r < 32 && c < 32
    ensures i * 1024 <= i * 1024 + FacePlace(r, c) < i * 1024 + 1024
  {}
}
