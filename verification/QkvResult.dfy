/// What the fused QKV split returns, by tokens, heads and elements of a head.
module QkvResult {
  import opened RowMajor
  import opened TileFaces
  import opened VectorUnit
  import opened QkvUnits
  import opened QkvWriter
  import opened QkvSplit

  /// Element (r, c) of matrix n of matrices stored in tiles, the tiles of a matrix row by row.
  function Stored(words: seq<Word>, matrices: nat, rowTiles: nat, columnTiles: nat, n: nat, r: nat, c: nat): Word
    requires |words| == matrices * rowTiles * columnTiles * 1024
    requires n < matrices && r < 32 * rowTiles && c < 32 * columnTiles
  {
    TileInside(matrices, rowTiles, columnTiles, n, r / 32, c / 32);
    Elem(words, Flatten([matrices, rowTiles, columnTiles], [n, r / 32, c / 32]), r % 32, c % 32)
  }

  lemma TileInside(matrices: nat, rows: nat, columns: nat, n: nat, i: nat, j: nat)
    requires n < matrices && i < rows && j < columns
    ensures InShape([matrices, rows, columns], [n, i, j])
    ensures Flatten([matrices, rows, columns], [n, i, j]) == (n * rows + i) * columns + j < matrices * rows * columns
  {
    var shape: seq<nat>, index: seq<nat> := [matrices, rows, columns], [n, i, j];
    PlaceOfThree(shape, index);
    ProductOfThree(shape);
    FlattenBound(shape, index);
  }

  /// An element is in the tile of its row and column, tiles counted in order.
  lemma StoredIs(words: seq<Word>, matrices: nat, rowTiles: nat, columnTiles: nat, n: nat, r: nat, c: nat)
    requires |words| == matrices * rowTiles * columnTiles * 1024
    requires n < matrices && r < 32 * rowTiles && c < 32 * columnTiles
    ensures ((n * rowTiles + r / 32) * columnTiles + c / 32 + 1) * 1024 <= |words|
    ensures Stored(words, matrices, rowTiles, columnTiles, n, r, c)
         == Elem(words, (n * rowTiles + r / 32) * columnTiles + c / 32, r % 32, c % 32)
  {
    TileInside(matrices, rowTiles, columnTiles, n, r / 32, c / 32);
    hide Elem;
  }

  /// A token's row of the projection, 32 of them in one row of tiles.
  function Projected(qkv: seq<Word>, b: nat, x: nat): Word
    requires b < 32 && (x / 32 + 1) * 1024 <= |qkv|
  {
    Elem(qkv, x / 32, b, x % 32)
  }

  function HeadDim(job: Job): nat { job.headTiles * 32 }

  /// Where a head begins in a token's row: the q heads, each with its gate if
  /// there are gates, then the k heads, then the v heads.
  function HeadColumn(job: Job, kind: Kind, h: nat): nat {
    match kind
    case Q => h * job.headStride * HeadDim(job)
    case K => (job.qHeads * job.headStride + h) * HeadDim(job)
    case V => (job.qHeads * job.headStride + job.kvHeads + h) * HeadDim(job)
  }

  ghost predicate IsHead(job: Job, qkv: seq<Word>, kind: Kind, b: nat, h: nat, row: seq<Word>)
    requires b < 32
  {
    |row| == HeadDim(job) && forall e: nat :: e < |row| ==> HeadElement(job, qkv, kind, b, h, row, e)
  }

  ghost predicate HeadElement(job: Job, qkv: seq<Word>, kind: Kind, b: nat, h: nat, row: seq<Word>, e: nat)
    requires b < 32 && e < |row|
  {
    var x := HeadColumn(job, kind, h) + e;
    (x / 32 + 1) * 1024 <= |qkv| && row[e] == Projected(qkv, b, x)
  }

  lemma HeadColumnIs(job: Job, kind: Kind, h: nat)
    ensures HeadColumn(job, kind, h) == SourceTile(job, kind, h) * 32
  {
    var s, t := job.headStride, job.headTiles;
    assert h * s * (t * 32) == h * (s * t) * 32 by { MulAssoc(h, s, t); MulAssoc(h * s, t, 32); }
    assert job.qHeads * s * (t * 32) == job.qHeads * (s * t) * 32 by {
      MulAssoc(job.qHeads, s, t);
      MulAssoc(job.qHeads * s, t, 32);
    }
    assert h * (t * 32) == h * t * 32 by { MulAssoc(h, t, 32); }
    assert (job.kvHeads + h) * (t * 32) == (job.kvHeads + h) * t * 32 by { MulAssoc(job.kvHeads + h, t, 32); }
    MulDistribute(job.qHeads * s, h, t * 32);
    MulDistribute(job.qHeads * s, job.kvHeads + h, t * 32);
  }

  /// A head's row of the projection is the one that the units take.
  lemma HeadIsTiles(job: Job, qkv: seq<Word>, kind: Kind, b: nat, h: nat, row: seq<Word>)
    requires job.Valid() && b < 32 && h < HeadsOf(job, kind) && WidthTiles(job) * 1024 <= |qkv|
    requires IsHead(job, qkv, kind, b, h, row)
    ensures SourceTile(job, kind, h) + job.headTiles <= WidthTiles(job)
    ensures row == TilesRow(qkv, SourceTile(job, kind, h), job.headTiles, b)
  {
    hide SourceTile, WidthTiles, HeadColumn, FacePlace;
    SourceInRow(job, kind, h);
    HeadColumnIs(job, kind, h);
    var first := SourceTile(job, kind, h);
    var tiles := TilesRow(qkv, first, job.headTiles, b);
    forall e: nat | e < |row| ensures row[e] == tiles[e] {
      assert HeadElement(job, qkv, kind, b, h, row, e);
      DivMod(e, 32);
      DivModUnique(first * 32 + e, 32, first + e / 32, e % 32);
    }
  }

  lemma OutputSizes(job: Job)
    requires job.Valid()
    ensures job.QOutTiles() == job.tokens * job.QRows() * job.qTiles
    ensures job.KvOutTiles() == job.tokens * 1 * (2 * job.headTiles)
    ensures HeadDim(job) <= 32 * job.qTiles && job.qHeads <= 32 * job.QRows()
  {}

  /// The q output is [tokens, heads, q width]: a head's elements are what norm
  /// and rotation make of its row, and zeros follow them.
  lemma QResult(job: Job, f: Transform, qkv: seq<Word>, q: seq<Word>, counts: seq<nat>, b: nat, h: nat, row: seq<Word>,
                d: nat)
    requires job.Valid() && job.tokens <= 32 && WidthTiles(job) * 1024 <= |qkv| && KeepsLength(f, HeadDim(job))
    requires |q| == |counts| == job.QOutTiles() * 1024 && QRight(job, f, qkv, q, counts)
    requires b < job.tokens && h < job.qHeads && d < 32 * job.qTiles && IsHead(job, qkv, Q, b, h, row)
    ensures |q| == job.tokens * job.QRows() * job.qTiles * 1024 && h < 32 * job.QRows()
    ensures |f(Q, b, row)| == HeadDim(job)
    ensures Stored(q, job.tokens, job.QRows(), job.qTiles, b, h, d) == if d < HeadDim(job) then f(Q, b, row)[d]
      else ZERO
  {
    hide SourceTile, WidthTiles, Elem, HeadColumn, QRight, Job.QRows, GroupRows, Stored, Flatten;
    OutputSizes(job);
    HeadIsTiles(job, qkv, Q, b, h, row);
    DivMod(h, 32);
    DivMod(d, 32);
    HeadRowInGroup(job, h);
    QElementOf(job, f, qkv, q, counts, b, h / 32, d / 32, h % 32, d % 32);
    StoredIs(q, job.tokens, job.QRows(), job.qTiles, b, h, d);
  }

  lemma HeadRowInGroup(job: Job, h: nat)
    requires job.Valid() && h < job.qHeads
    ensures h / 32 < job.QRows() && h % 32 < GroupRows(HeadsIn(job, h / 32))
  {
    DivMod(h, 32);
    GroupRowsAre(HeadsIn(job, h / 32), 0);
  }

  lemma QElementOf(job: Job, f: Transform, qkv: seq<Word>, q: seq<Word>, counts: seq<nat>,
                   b: nat, tr: nat, tc: nat, r: nat, c: nat)
    requires job.Valid() && job.tokens <= 32 && WidthTiles(job) * 1024 <= |qkv| && KeepsLength(f, HeadDim(job))
    requires |q| == |counts| == job.QOutTiles() * 1024 && QRight(job, f, qkv, q, counts)
    requires b < job.tokens && tr < job.QRows() && tc < job.qTiles && r < 32 && c < 32
    ensures QTile(job, b, tr, tc) == (b * job.QRows() + tr) * job.qTiles + tc < job.QOutTiles()
    ensures Elem(q, QTile(job, b, tr, tc), r, c) == QValue(job, f, qkv, b, tr, tc, r, c)
  {
    hide Elem, WidthTiles, QValue, Job.QRows, Job.QOutTiles;
    QTileFits(job, b, tr, tc);
    assert QElem(job, f, qkv, q, counts, true, b, tr, tc, r, c);
  }

  /// The kv output is [tokens, heads, 2 head dims]: a k head's elements, normed
  /// and rotated, then the v head's, as they were.
  lemma KvResult(job: Job, f: Transform, qkv: seq<Word>, kv: seq<Word>, counts: seq<nat>, b: nat, h: nat,
                 key: seq<Word>, value: seq<Word>, d: nat)
    requires job.Valid() && job.tokens <= 32 && WidthTiles(job) * 1024 <= |qkv| && KeepsLength(f, HeadDim(job))
    requires |kv| == |counts| == job.KvOutTiles() * 1024 && KvRight(job, f, qkv, kv, counts)
    requires b < job.tokens && h < job.kvHeads && d < HeadDim(job)
    requires IsHead(job, qkv, K, b, h, key) && IsHead(job, qkv, V, b, h, value)
    ensures |kv| == job.tokens * 1 * (2 * job.headTiles) * 1024 && |f(K, b, key)| == HeadDim(job)
    ensures Stored(kv, job.tokens, 1, 2 * job.headTiles, b, h, d) == f(K, b, key)[d]
    ensures Stored(kv, job.tokens, 1, 2 * job.headTiles, b, h, HeadDim(job) + d) == value[d]
  {
    hide SourceTile, WidthTiles, Elem, HeadColumn, KvRight, GroupRows, Stored;
    OutputSizes(job);
    HeadIsTiles(job, qkv, K, b, h, key);
    HeadIsTiles(job, qkv, V, b, h, value);
    KvPlaces(job, b, h, d);
    GroupRowsAre(job.kvHeads, 0);
    DivMod(d, 32);
    KvElementOf(job, f, qkv, kv, counts, b, false, d / 32, h, d % 32);
    KvElementOf(job, f, qkv, kv, counts, b, true, d / 32, h, d % 32);
    StoredIs(kv, job.tokens, 1, 2 * job.headTiles, b, h, d);
    StoredIs(kv, job.tokens, 1, 2 * job.headTiles, b, h, HeadDim(job) + d);
  }

  lemma KvPlaces(job: Job, b: nat, h: nat, d: nat)
    requires job.Valid() && b < job.tokens && h < job.kvHeads && d < HeadDim(job)
    ensures h / 32 == 0 && h % 32 == h && d / 32 < job.headTiles
    ensures (HeadDim(job) + d) / 32 == job.headTiles + d / 32 && (HeadDim(job) + d) % 32 == d % 32
    ensures (b * 1 + h / 32) * (2 * job.headTiles) + d / 32 == KvTile(job, b, false, d / 32)
    ensures (b * 1 + h / 32) * (2 * job.headTiles) + (HeadDim(job) + d) / 32 == KvTile(job, b, true, d / 32)
  {
    DivMod(d, 32);
    DivModUnique(HeadDim(job) + d, 32, job.headTiles + d / 32, d % 32);
  }

  lemma KvElementOf(job: Job, f: Transform, qkv: seq<Word>, kv: seq<Word>, counts: seq<nat>,
                    b: nat, v: bool, tc: nat, r: nat, c: nat)
    requires job.Valid() && job.tokens <= 32 && WidthTiles(job) * 1024 <= |qkv| && KeepsLength(f, HeadDim(job))
    requires |kv| == |counts| == job.KvOutTiles() * 1024 && KvRight(job, f, qkv, kv, counts)
    requires b < job.tokens && tc < job.headTiles && r < 32 && c < 32
    ensures KvTile(job, b, v, tc) < job.KvOutTiles()
    ensures Elem(kv, KvTile(job, b, v, tc), r, c) == KvValue(job, f, qkv, b, v, tc, r, c)
  {
    hide Elem, WidthTiles, KvValue, Job.KvOutTiles, KvTile;
    KvTileFits(job, b, v, tc);
    assert KvElem(job, f, qkv, kv, counts, true, b, v, tc, r, c);
  }
}
