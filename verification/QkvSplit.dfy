/// The fused QKV split as a whole: units read, computed and written round-robin
/// over the cores fill both padded outputs, each element once.
module QkvSplit {
  import opened RowMajor
  import opened TileFaces
  import opened FaceCopies
  import opened VectorUnit
  import opened QkvUnits
  import opened QkvWriter

  // ---- heads ----

  /// Tiles of the QKV row.
  function WidthTiles(job: Job): nat { job.qHeads * job.QStride() + (job.kvHeads + job.kvHeads) * job.headTiles }

  function HeadsOf(job: Job, kind: Kind): nat { if kind == Q then job.qHeads else job.kvHeads }

  /// Where a head begins in the QKV row, in tiles: after the heads of the kinds before it.
  function SourceTile(job: Job, kind: Kind, head: nat): nat {
    match kind
    case Q => head * job.QStride()
    case K => job.qHeads * job.QStride() + head * job.headTiles
    case V => job.qHeads * job.QStride() + (job.kvHeads + head) * job.headTiles
  }

  lemma SourceInRow(job: Job, kind: Kind, head: nat)
    requires job.Valid() && head < HeadsOf(job, kind)
    ensures SourceTile(job, kind, head) + job.headTiles <= WidthTiles(job)
  {
    match kind
    case Q =>
      MulStrict(head, job.qHeads, job.QStride());
      MulMonotone(1, job.headStride, job.headTiles);
    case K =>
      MulStrict(head, job.kvHeads, job.headTiles);
      MulDistribute(job.kvHeads, job.kvHeads, job.headTiles);
    case V => MulStrict(job.kvHeads + head, job.kvHeads + job.kvHeads, job.headTiles);
  }

  /// A run of tiles' elements in one row.
  function TilesRow(words: seq<Word>, first: nat, n: nat, r: nat): (row: seq<Word>)
    requires (first + n) * 1024 <= |words| && r < 32
    ensures |row| == n * 32
  {
    seq(n * 32, d requires 0 <= d < n * 32 => Elem(words, first + d / 32, r, d % 32))
  }

  function ZeroRowOf(n: nat): seq<Word> { seq(n * 32, d => ZERO) }

  /// What a head's row becomes: v heads are only moved.
  function Out(f: Transform, kind: Kind, b: nat, row: seq<Word>): seq<Word> {
    if kind == V then row else f(kind, b, row)
  }

  /// The output row of a head of a token, or of a row past the last head.
  function HeadOut(job: Job, f: Transform, qkv: seq<Word>, kind: Kind, b: nat, head: nat): seq<Word>
    requires job.Valid() && b < 32 && WidthTiles(job) * 1024 <= |qkv|
  {
    if head < HeadsOf(job, kind) then
      SourceInRow(job, kind, head);
      Out(f, kind, b, TilesRow(qkv, SourceTile(job, kind, head), job.headTiles, b))
    else Out(f, kind, b, ZeroRowOf(job.headTiles))
  }

  lemma HeadOutLength(job: Job, f: Transform, qkv: seq<Word>, kind: Kind, b: nat, head: nat)
    requires job.Valid() && b < 32 && WidthTiles(job) * 1024 <= |qkv| && KeepsLength(f, job.headTiles * 32)
    ensures |HeadOut(job, f, qkv, kind, b, head)| == job.headTiles * 32
  {
    if head < HeadsOf(job, kind) { SourceInRow(job, kind, head); }
  }

  /// A unit of the list, by its kind, its token and its first head.
  ghost predicate UnitOf(job: Job, u: Unit, h: nat) {
    && job.Valid() && h % GROUP == 0 && h < HeadsOf(job, u.kind) && u.heads == Least(GROUP, HeadsOf(job, u.kind) - h)
    && u.sourceTile == SourceTile(job, u.kind, h)
    && u.sourceStride == (if u.kind == Q then job.QStride() else job.headTiles)
    && u.firstRow == h % 32 && u.firstRow + GROUP <= u.zeroRowsFrom <= 32
  }

  lemma QUnitOf(job: Job, b: nat, i: nat)
    requires job.Valid() && i * GROUP < job.qHeads
    ensures UnitOf(job, QUnit(job, b, i * GROUP), i * GROUP)
  {
    GroupPlace(i);
    QHeadsLeft(i * GROUP);
    GroupRowsAre(Least(32, job.qHeads - i * GROUP / 32 * 32), 0);
    hide RoundUp, SourceTile, Job.QStride;
    assert SourceTile(job, Q, i * GROUP) == i * GROUP * job.QStride() by { SourceIs(job, i * GROUP); }
  }

  lemma SourceIs(job: Job, h: nat)
    ensures SourceTile(job, Q, h) == h * job.QStride()
      && SourceTile(job, K, h) == job.qHeads * job.QStride() + h * job.headTiles
    ensures SourceTile(job, V, h) == job.qHeads * job.QStride() + (job.kvHeads + h) * job.headTiles
  {}

  lemma KvUnitOf(job: Job, b: nat, g: nat, v: bool)
    requires job.Valid() && g * GROUP < job.kvHeads
    ensures UnitOf(job, KvUnit(job, b, g * GROUP, v), g * GROUP)
  {
    GroupRowsAre(job.kvHeads, 0);
    SourceIs(job, g * GROUP);
    hide RoundUp, SourceTile, Job.QStride;
    assert g < 4;
  }

  /// Head h + i of a unit follows its first head by i strides.
  lemma SourceSteps(job: Job, u: Unit, h: nat, i: nat)
    requires UnitOf(job, u, h) && i < u.heads
    ensures h + i < HeadsOf(job, u.kind) && u.sourceTile + i * u.sourceStride == SourceTile(job, u.kind, h + i)
  {
    MulDistribute(h, i, u.sourceStride);
    MulDistribute(job.kvHeads + h, i, job.headTiles);
  }

  // ---- the reader and the compute kernel ----

  ghost predicate SourcesFit(job: Job, u: Unit, qkv: seq<Word>) {
    forall r: nat, c: nat :: r < u.heads && c < job.headTiles ==> SourceFits(u, qkv, r, c)
  }

  ghost predicate SourceFits(u: Unit, qkv: seq<Word>, r: nat, c: nat) {
    (u.sourceTile + r * u.sourceStride + c + 1) * 1024 <= |qkv|
  }

  lemma SourcesAreIn(job: Job, u: Unit, h: nat, qkv: seq<Word>)
    requires UnitOf(job, u, h) && WidthTiles(job) * 1024 <= |qkv|
    ensures SourcesFit(job, u, qkv)
  {
    hide WidthTiles, SourceTile, UnitOf;
    forall r: nat, c: nat | r < u.heads && c < job.headTiles ensures SourceFits(u, qkv, r, c) {
      SourceSteps(job, u, h, r);
      SourceInRow(job, u.kind, h + r) by { ValidUnit(job, u, h); }
    }
  }

  lemma ValidUnit(job: Job, u: Unit, h: nat)
    requires UnitOf(job, u, h)
    ensures job.Valid()
  {}

  /// The heads read so far: the first n, and of head n the first m tiles.
  ghost predicate HeadsRead(job: Job, u: Unit, qkv: seq<Word>, tiles: seq<Word>, n: nat, m: nat)
    requires u.token < 32 && |tiles| == job.headTiles * 1024 && SourcesFit(job, u, qkv) && n <= u.heads
  {
    forall c: nat, r: nat, col: nat :: c < job.headTiles && r < 32 && col < 32 ==>
      HeadElem(job, u, qkv, tiles, n, m, c, r, col)
  }

  ghost predicate HeadElem(job: Job, u: Unit, qkv: seq<Word>, tiles: seq<Word>, n: nat, m: nat, c: nat, r: nat,
                           col: nat)
    requires u.token < 32 && |tiles| == job.headTiles * 1024 && SourcesFit(job, u, qkv) && n <= u.heads
      && c < job.headTiles && r < 32 && col < 32
  {
    if r < u.heads && (r < n || (r == n && c < m)) then
      SourceFits(u, qkv, r, c) && Elem(tiles, c, r, col)
        == Elem(qkv, u.sourceTile + r * u.sourceStride + c, u.token, col)
    else Elem(tiles, c, r, col) == ZERO
  }

  method ReadUnit(job: Job, u: Unit, qkv: seq<Word>) returns (tiles: array<Word>)
    requires u.token < 32 && u.heads <= GROUP && SourcesFit(job, u, qkv)
    ensures fresh(tiles) && tiles.Length == job.headTiles * 1024 && HeadsRead(job, u, qkv, tiles[..], u.heads, 0)
  {
    hide Elem, SourcesFit;
    tiles := new Word[job.headTiles * 1024](x => ZERO);
    ZerosRead(job, u, qkv, tiles[..]);
    var i: nat := 0;
    while i < u.heads
      invariant 0 <= i <= u.heads && HeadsRead(job, u, qkv, tiles[..], i, 0)
    {
      var c: nat := 0;
      while c < job.headTiles
        invariant 0 <= c <= job.headTiles && HeadsRead(job, u, qkv, tiles[..], i, c)
      {
        assert SourceFits(u, qkv, i, c) by { OneFits(job, u, qkv, i, c); }
        OneRow(u.token);
        OneRow(i);
        ghost var before := tiles[..];
        CopyRows(qkv, u.sourceTile + i * u.sourceStride + c, u.token, tiles, c, i, 1);
        RowAdded(job, u, qkv, tiles[..], before, i, c);
        c := c + 1;
      }
      HeadDone(job, u, qkv, tiles[..], i);
      i := i + 1;
    }
  }

  lemma ZerosRead(job: Job, u: Unit, qkv: seq<Word>, tiles: seq<Word>)
    requires u.token < 32 && |tiles| == job.headTiles * 1024 && SourcesFit(job, u, qkv)
    requires forall x :: 0 <= x < |tiles| ==> tiles[x] == ZERO
    ensures HeadsRead(job, u, qkv, tiles, 0, 0)
  {
    hide FacePlace;
  }

  lemma OneFits(job: Job, u: Unit, qkv: seq<Word>, i: nat, c: nat)
    requires SourcesFit(job, u, qkv) && i < u.heads && c < job.headTiles
    ensures SourceFits(u, qkv, i, c)
  {}

  lemma OneRow(r: nat)
    requires r < 32
    ensures InFace(r, 1)
  {}

  lemma RowAdded(job: Job, u: Unit, qkv: seq<Word>, after: seq<Word>, before: seq<Word>, i: nat, c: nat)
    requires u.token < 32 && |after| == |before| == job.headTiles * 1024 && SourcesFit(job, u, qkv)
      && i < u.heads <= GROUP && c < job.headTiles
    requires SourceFits(u, qkv, i, c) && HeadsRead(job, u, qkv, before, i, c)
    requires RowsCopied(after, before, qkv, c, i, u.sourceTile + i * u.sourceStride + c, u.token, 1)
    ensures HeadsRead(job, u, qkv, after, i, c + 1)
  {
    hide Elem, SourcesFit;
    var more := c + 1;
    forall d: nat, r: nat, col: nat | d < job.headTiles && r < 32 && col < 32
      ensures HeadElem(job, u, qkv, after, i, more, d, r, col)
    {
      assert HeadElem(job, u, qkv, before, i, c, d, r, col);
    }
  }

  lemma HeadDone(job: Job, u: Unit, qkv: seq<Word>, tiles: seq<Word>, i: nat)
    requires u.token < 32 && |tiles| == job.headTiles * 1024 && SourcesFit(job, u, qkv) && i < u.heads
    requires HeadsRead(job, u, qkv, tiles, i, job.headTiles)
    ensures HeadsRead(job, u, qkv, tiles, i + 1, 0)
  {
    hide Elem, SourcesFit;
    var n := i + 1;
    forall d: nat, r: nat, col: nat | d < job.headTiles && r < 32 && col < 32
      ensures HeadElem(job, u, qkv, tiles, n, 0, d, r, col)
    {
      assert HeadElem(job, u, qkv, tiles, i, job.headTiles, d, r, col);
    }
  }

  /// The compute kernel, a row of the tiles at a time.
  function Computed(job: Job, u: Unit, f: Transform, tiles: seq<Word>): (out: seq<Word>)
    requires |tiles| == job.headTiles * 1024 && KeepsLength(f, job.headTiles * 32)
    ensures |out| == |tiles|
  {
    seq(|tiles|, x requires 0 <= x < |tiles| => ComputedWord(job, u, f, tiles, x / 1024, x % 1024))
  }

  function ComputedWord(job: Job, u: Unit, f: Transform, tiles: seq<Word>, c: nat, p: nat): Word
    requires |tiles| == job.headTiles * 1024 && KeepsLength(f, job.headTiles * 32) && c < job.headTiles && p < 1024
  {
    Out(f, u.kind, u.token, TilesRow(tiles, 0, job.headTiles, RowAt(p)))[c * 32 + ColumnAt(p)]
  }

  lemma ComputedElem(job: Job, u: Unit, f: Transform, tiles: seq<Word>, c: nat, r: nat, col: nat)
    requires |tiles| == job.headTiles * 1024 && KeepsLength(f, job.headTiles * 32) && c < job.headTiles && r < 32
      && col < 32
    ensures c * 32 + col < |Out(f, u.kind, u.token, TilesRow(tiles, 0, job.headTiles, r))|
    ensures Elem(Computed(job, u, f, tiles), c, r, col)
      == Out(f, u.kind, u.token, TilesRow(tiles, 0, job.headTiles, r))[c * 32 + col]
  {
    hide FacePlace, RowAt, ColumnAt, TilesRow;
    RowAndColumnOfPlace(r, col);
    DivModUnique(c * 1024 + FacePlace(r, col), 1024, c, FacePlace(r, col));
  }

  // ---- what a unit writes ----

  /// Row r of a unit's computed tiles is the output row of its head r.
  ghost predicate UnitRow(job: Job, u: Unit, h: nat, f: Transform, qkv: seq<Word>, tiles: seq<Word>, c: nat, r: nat,
                          col: nat)
    requires job.Valid() && u.token < 32 && WidthTiles(job) * 1024 <= |qkv| && KeepsLength(f, job.headTiles * 32)
    requires |tiles| == job.headTiles * 1024 && c < job.headTiles && r < GROUP && col < 32
  {
    HeadOutLength(job, f, qkv, u.kind, u.token, h + r);
    Elem(tiles, c, r, col) == HeadOut(job, f, qkv, u.kind, u.token, h + r)[c * 32 + col]
  }

  ghost predicate UnitRows(job: Job, u: Unit, h: nat, f: Transform, qkv: seq<Word>, tiles: seq<Word>)
    requires job.Valid() && u.token < 32 && WidthTiles(job) * 1024 <= |qkv| && KeepsLength(f, job.headTiles * 32)
      && |tiles| == job.headTiles * 1024
  {
    forall c: nat, r: nat, col: nat :: c < job.headTiles && r < GROUP && col < 32 ==>
      UnitRow(job, u, h, f, qkv, tiles, c, r, col)
  }

  lemma RowsOfUnit(job: Job, u: Unit, h: nat, f: Transform, qkv: seq<Word>, tiles: seq<Word>)
    requires UnitOf(job, u, h) && u.token < 32 && WidthTiles(job) * 1024 <= |qkv| && KeepsLength(f, job.headTiles * 32)
    requires |tiles| == job.headTiles * 1024 && SourcesFit(job, u, qkv) && HeadsRead(job, u, qkv, tiles, u.heads, 0)
    ensures UnitRows(job, u, h, f, qkv, Computed(job, u, f, tiles))
  {
    hide Elem, SourceTile, WidthTiles, Computed, Out, TilesRow, ZeroRowOf, SourcesFit, HeadsRead, KeepsLength;
    forall c: nat, r: nat, col: nat | c < job.headTiles && r < GROUP && col < 32
      ensures UnitRow(job, u, h, f, qkv, Computed(job, u, f, tiles), c, r, col)
    {
      ComputedElem(job, u, f, tiles, c, r, col);
      SameRowRead(job, u, h, qkv, tiles, r);
    }
  }

  lemma SameRowRead(job: Job, u: Unit, h: nat, qkv: seq<Word>, tiles: seq<Word>, r: nat)
    requires UnitOf(job, u, h) && u.token < 32 && WidthTiles(job) * 1024 <= |qkv| && r < GROUP
    requires |tiles| == job.headTiles * 1024 && SourcesFit(job, u, qkv) && HeadsRead(job, u, qkv, tiles, u.heads, 0)
    ensures r < u.heads ==>
      h + r < HeadsOf(job, u.kind) && SourceTile(job, u.kind, h + r) + job.headTiles <= WidthTiles(job)
    ensures r < u.heads ==>
      TilesRow(tiles, 0, job.headTiles, r) == TilesRow(qkv, SourceTile(job, u.kind, h + r), job.headTiles, u.token)
    ensures r >= u.heads ==>
      h + r >= HeadsOf(job, u.kind) && TilesRow(tiles, 0, job.headTiles, r) == ZeroRowOf(job.headTiles)
  {
    hide Elem, SourceTile, WidthTiles, SourcesFit;
    if r < u.heads {
      SourceSteps(job, u, h, r);
      SourceInRow(job, u.kind, h + r);
      forall d: nat | d < job.headTiles * 32
        ensures TilesRow(tiles, 0, job.headTiles, r)[d]
          == TilesRow(qkv, SourceTile(job, u.kind, h + r), job.headTiles, u.token)[d]
      {
        assert HeadElem(job, u, qkv, tiles, u.heads, 0, d / 32, r, d % 32);
      }
    } else {
      forall d: nat | d < job.headTiles * 32 ensures TilesRow(tiles, 0, job.headTiles, r)[d] == ZERO {
        assert HeadElem(job, u, qkv, tiles, u.heads, 0, d / 32, r, d % 32);
      }
    }
  }

  // ---- the outputs ----

  /// An element of the q output: its head's, or a row's past the last head up to a group, or zero.
  function QValue(job: Job, f: Transform, qkv: seq<Word>, b: nat, tr: nat, tc: nat, r: nat, c: nat): Word
    requires job.Valid() && b < 32 && WidthTiles(job) * 1024 <= |qkv| && KeepsLength(f, job.headTiles * 32) && c < 32
  {
    HeadOutLength(job, f, qkv, Q, b, 32 * tr + r);
    if tc < job.headTiles && r < GroupRows(HeadsIn(job, tr)) then HeadOut(job, f, qkv, Q, b, 32 * tr + r)[tc * 32 + c]
      else ZERO
  }

  function KvValue(job: Job, f: Transform, qkv: seq<Word>, b: nat, v: bool, tc: nat, r: nat, c: nat): Word
    requires job.Valid() && b < 32 && WidthTiles(job) * 1024 <= |qkv| && KeepsLength(f, job.headTiles * 32) && c < 32
      && tc < job.headTiles
  {
    var kind := if v then V else K;
    HeadOutLength(job, f, qkv, kind, b, r);
    if r < GroupRows(job.kvHeads) then HeadOut(job, f, qkv, kind, b, r)[tc * 32 + c] else ZERO
  }

  /// A q unit's effect on an element of the q output.
  lemma QUnitEffect(job: Job, f: Transform, qkv: seq<Word>, b': nat, i: nat, tiles: seq<Word>,
                    after: seq<Word>, counts': seq<nat>, before: seq<Word>, counts: seq<nat>, b: nat, tr: nat, tc: nat,
                      r: nat, c: nat)
    requires job.Valid() && job.tokens <= 32 && WidthTiles(job) * 1024 <= |qkv| && KeepsLength(f, job.headTiles * 32)
    requires b' < job.tokens && i < job.QUnits() && i * GROUP < job.qHeads && |tiles| == job.headTiles * 1024
    requires UnitRows(job, QUnit(job, b', i * GROUP), i * GROUP, f, qkv, tiles)
    requires |after| == |before| == |counts'| == |counts| == job.QOutTiles() * 1024
    requires UnitWritten(job, QUnit(job, b', i * GROUP), tiles, after, counts', before, counts, job.headTiles,
      QUnit(job, b', i * GROUP).zeroTiles)
    requires b < job.tokens && tr < job.QRows() && tc < job.qTiles && r < 32 && c < 32
    ensures QTile(job, b, tr, tc) < job.QOutTiles()
    ensures b' * job.PerToken() + i == QOwner(job, b, tr, tc, r) ==>
      Put(after, counts', counts, QTile(job, b, tr, tc), r, c, QValue(job, f, qkv, b, tr, tc, r, c))
    ensures b' * job.PerToken() + i != QOwner(job, b, tr, tc, r) ==>
      Kept(after, counts', before, counts, QTile(job, b, tr, tc), r, c)
  {
    hide Elem, Put, Kept, WidthTiles, HeadOut, QUnit, Job.QRows, Job.QOutTiles, Job.QUnits, KeepsLength, QTile, QOwner;
    QTileFits(job, b, tr, tc);
    var u, p := QUnit(job, b', i * GROUP), QTile(job, b, tr, tc);
    assert UnitElem(job, u, tiles, after, counts', before, counts, job.headTiles, u.zeroTiles, p, r, c);
    QRole(job, b', i, b, tr, tc, r);
    if RoleOf(job, u, p, r) == HeadRow { assert UnitRow(job, u, i * GROUP, f, qkv, tiles, tc, r - u.firstRow, c); }
  }

  /// What a q unit does in a place of the q output, from whose place it is.
  lemma QRole(job: Job, b': nat, i: nat, b: nat, tr: nat, tc: nat, r: nat)
    requires job.Valid() && b' < job.tokens && i < job.QUnits() && i * GROUP < job.qHeads
    requires b < job.tokens && tr < job.QRows() && tc < job.qTiles && r < 32
    ensures var u, p := QUnit(job, b', i * GROUP), QTile(job, b, tr, tc);
      && u.kind == Q && u.token == b'
      && (RoleOf(job, u, p, r) == Elsewhere <==> b' * job.PerToken() + i != QOwner(job, b, tr, tc, r))
      && (b' * job.PerToken() + i == QOwner(job, b, tr, tc, r) ==>
           && b == b'
           && (RoleOf(job, u, p, r) == HeadRow <==> tc < job.headTiles && r < GroupRows(HeadsIn(job, tr)))
           && (RoleOf(job, u, p, r) == HeadRow ==>
              p == u.firstTile + tc && u.firstRow <= r < u.firstRow + GROUP
              && i * GROUP + (r - u.firstRow) == 32 * tr + r))
  {
    var u, p := QUnit(job, b', i * GROUP), QTile(job, b, tr, tc);
    QPart(job, b', i, b * job.QRows() + tr, tc, r);
    QGroupExists(job, tr, tc, r);
    TileRowOf(job, i);
    SameRow(job.QRows(), b, tr, b', i / 4);
    SameUnit(job.PerToken(), b', i, b, QGroup(job, tr, tc, r)) by { hide QGroup; }
    if i / 4 == tr { QGroupOnly(job, tr, tc, r, i); }
    GroupPlace(i);
    GroupRowsAre(HeadsIn(job, tr), i % 4);
    hide GroupRows, Job.QRows, Job.PerToken, RoundUp;
  }

  /// A k or v unit's effect on an element of the kv output.
  lemma KvUnitEffect(job: Job, f: Transform, qkv: seq<Word>, b': nat, g: nat, w: bool, tiles: seq<Word>,
                     after: seq<Word>, counts': seq<nat>, before: seq<Word>, counts: seq<nat>, b: nat, v: bool,
                       tc: nat, r: nat, c: nat)
    requires job.Valid() && job.tokens <= 32 && WidthTiles(job) * 1024 <= |qkv| && KeepsLength(f, job.headTiles * 32)
    requires b' < job.tokens && g < job.KvUnits() && g * GROUP < job.kvHeads && |tiles| == job.headTiles * 1024
    requires UnitRows(job, KvUnit(job, b', g * GROUP, w), g * GROUP, f, qkv, tiles)
    requires |after| == |before| == |counts'| == |counts| == job.KvOutTiles() * 1024
    requires UnitWritten(job, KvUnit(job, b', g * GROUP, w), tiles, after, counts', before, counts, job.headTiles, 0)
    requires b < job.tokens && tc < job.headTiles && r < 32 && c < 32
    ensures KvTile(job, b, v, tc) < job.KvOutTiles()
    ensures KvIndex(job, b', g, w) == KvOwner(job, b, v, r) ==>
      Put(after, counts', counts, KvTile(job, b, v, tc), r, c, KvValue(job, f, qkv, b, v, tc, r, c))
    ensures KvIndex(job, b', g, w) != KvOwner(job, b, v, r) ==>
      Kept(after, counts', before, counts, KvTile(job, b, v, tc), r, c)
  {
    hide Elem, Put, Kept, WidthTiles, HeadOut, KvUnit, Job.KvOutTiles, Job.KvUnits, KeepsLength, KvTile, KvOwner,
         KvIndex;
    KvTileFits(job, b, v, tc);
    var u, p := KvUnit(job, b', g * GROUP, w), KvTile(job, b, v, tc);
    assert UnitElem(job, u, tiles, after, counts', before, counts, job.headTiles, 0, p, r, c);
    KvRole(job, b', g, w, b, v, tc, r);
    if RoleOf(job, u, p, r) == HeadRow { assert UnitRow(job, u, g * GROUP, f, qkv, tiles, tc, r - u.firstRow, c); }
  }

  /// The list's place of a k or v unit.
  function KvIndex(job: Job, b: nat, g: nat, v: bool): nat {
    b * job.PerToken() + (job.QUnits() + 2 * g + (if v then 1 else 0))
  }

  lemma KvRole(job: Job, b': nat, g: nat, w: bool, b: nat, v: bool, tc: nat, r: nat)
    requires job.Valid() && b' < job.tokens && g < job.KvUnits() && g * GROUP < job.kvHeads && b < job.tokens
      && tc < job.headTiles && r < 32
    ensures var u, p := KvUnit(job, b', g * GROUP, w), KvTile(job, b, v, tc);
      && u.kind == (if w then V else K) && u.token == b' && u.zeroTiles == 0
      && (RoleOf(job, u, p, r) == Elsewhere <==> KvIndex(job, b', g, w) != KvOwner(job, b, v, r))
      && (KvIndex(job, b', g, w) == KvOwner(job, b, v, r) ==>
           && b == b' && v == w
           && (RoleOf(job, u, p, r) == HeadRow <==> r < GroupRows(job.kvHeads))
           && (RoleOf(job, u, p, r) == HeadRow ==>
              p == u.firstTile + tc && u.firstRow <= r < u.firstRow + GROUP && g * GROUP + (r - u.firstRow) == r))
  {
    KvPart(job, b', g, w, b, v, tc, r);
    KvGroupOnly(job, r, g);
    SameUnit(job.PerToken(), b', job.QUnits() + 2 * g + (if w then 1 else 0),
             b, job.QUnits() + 2 * KvGroup(job, r) + (if v then 1 else 0)) by {
      hide KvGroup;
    }
    GroupRowsAre(job.kvHeads, g);
    hide GroupRows, Job.PerToken, Job.QUnits, RoundUp;
  }

  // ---- the cores ----

  /// Unit k has run, when core c is at unit u of its round.
  predicate Ran(cores: nat, c: nat, u: nat, k: nat)
    requires cores > 0
  {
    k % cores < c || (k % cores == c && k < u)
  }

  lemma RanNext(cores: nat, c: nat, u: nat, k: nat)
    requires c < cores && u % cores == c
    ensures Ran(cores, c, u + cores, k) <==> Ran(cores, c, u, k) || k == u
    ensures (u + cores) % cores == c && !Ran(cores, c, u, u)
  {
    DivMod(u, cores);
    DivMod(k, cores);
    MulDistribute(u / cores, 1, cores);
    DivModUnique(u + cores, cores, u / cores + 1, c);
    if k % cores == c && u < k < u + cores {
      var q, p := k / cores, u / cores;
      assert q * cores - p * cores < cores;
      if q > p { MulStrict(p, q, cores); } else { MulMonotone(q, p, cores); }
    }
  }

  /// The q output so far: elements of units that have run hold their values, written once.
  ghost predicate QSoFar(job: Job, f: Transform, qkv: seq<Word>, out: seq<Word>, counts: seq<nat>, cores: nat, c: nat,
                         u: nat)
    requires job.Valid() && job.tokens <= 32 && WidthTiles(job) * 1024 <= |qkv| && KeepsLength(f, job.headTiles * 32)
    requires |out| == |counts| == job.QOutTiles() * 1024 && cores > 0
  {
    forall b: nat, tr: nat, tc: nat, r: nat, col: nat ::
      b < job.tokens && tr < job.QRows() && tc < job.qTiles && r < 32 && col < 32 ==>
      QElem(job, f, qkv, out, counts, Ran(cores, c, u, QOwner(job, b, tr, tc, r)), b, tr, tc, r, col)
  }

  ghost predicate QElem(job: Job, f: Transform, qkv: seq<Word>, out: seq<Word>, counts: seq<nat>, written: bool,
                        b: nat, tr: nat, tc: nat, r: nat, col: nat)
    requires job.Valid() && job.tokens <= 32 && WidthTiles(job) * 1024 <= |qkv| && KeepsLength(f, job.headTiles * 32)
    requires |out| == |counts| == job.QOutTiles() * 1024 && b < job.tokens && tr < job.QRows() && tc < job.qTiles
      && r < 32 && col < 32
  {
    QTileFits(job, b, tr, tc);
    && Elem(counts, QTile(job, b, tr, tc), r, col) == (if written then 1 else 0)
    && (written ==> Elem(out, QTile(job, b, tr, tc), r, col) == QValue(job, f, qkv, b, tr, tc, r, col))
  }

  ghost predicate KvSoFar(job: Job, f: Transform, qkv: seq<Word>, out: seq<Word>, counts: seq<nat>, cores: nat, c: nat,
                          u: nat)
    requires job.Valid() && job.tokens <= 32 && WidthTiles(job) * 1024 <= |qkv| && KeepsLength(f, job.headTiles * 32)
    requires |out| == |counts| == job.KvOutTiles() * 1024 && cores > 0
  {
    forall b: nat, v: bool, tc: nat, r: nat, col: nat :: b < job.tokens && tc < job.headTiles && r < 32 && col < 32 ==>
      KvElem(job, f, qkv, out, counts, Ran(cores, c, u, KvOwner(job, b, v, r)), b, v, tc, r, col)
  }

  ghost predicate KvElem(job: Job, f: Transform, qkv: seq<Word>, out: seq<Word>, counts: seq<nat>, written: bool,
                         b: nat, v: bool, tc: nat, r: nat, col: nat)
    requires job.Valid() && job.tokens <= 32 && WidthTiles(job) * 1024 <= |qkv| && KeepsLength(f, job.headTiles * 32)
    requires |out| == |counts| == job.KvOutTiles() * 1024 && b < job.tokens && tc < job.headTiles && r < 32 && col < 32
  {
    KvTileFits(job, b, v, tc);
    && Elem(counts, KvTile(job, b, v, tc), r, col) == (if written then 1 else 0)
    && (written ==> Elem(out, KvTile(job, b, v, tc), r, col) == KvValue(job, f, qkv, b, v, tc, r, col))
  }

  /// What runs a unit needs and keeps.
  ghost predicate Inputs(job: Job, f: Transform, qkv: seq<Word>, zeros: seq<Word>) {
    && job.Valid() && job.tokens <= 32 && WidthTiles(job) * 1024 <= |qkv| && KeepsLength(f, job.headTiles * 32)
    && |zeros| == 1024 && forall x :: 0 <= x < 1024 ==> zeros[x] == ZERO
  }

  lemma UnitInOutput(job: Job, b: nat, i: nat)
    requires job.Valid() && b < job.tokens && i < job.PerToken()
    ensures var u := TokenUnit(job, b, i);
      (u.firstTile + job.headTiles + u.zeroTiles) <= (if u.kind == Q then job.QOutTiles() else job.KvOutTiles())
  {
    if i < job.QUnits() {
      GroupCount(job.qHeads, i);
      TileRowOf(job, i);
      GroupPlace(i);
      QUnitEnd(job, b, i);
    } else {
      var g, v := KvPair(job, i);
      MulStrict(b, job.tokens, 2 * job.headTiles);
    }
  }

  lemma QUnitEnd(job: Job, b: nat, i: nat)
    requires job.Valid() && b < job.tokens && i * GROUP < job.qHeads && i / 4 < job.QRows() && i * GROUP / 32 == i / 4
    ensures QUnit(job, b, i * GROUP).firstTile + job.qTiles <= job.QOutTiles()
  {
    hide Job.QRows;
    MulStrict(b, job.tokens, job.QRows());
    MulStrict(b * job.QRows() + i / 4, job.tokens * job.QRows(), job.qTiles);
  }

  /// One unit on its core: read, computed and written to its output.
  method RunUnit(job: Job, f: Transform, qkv: seq<Word>, zeros: seq<Word>, u: Unit, ghost b: nat, ghost i: nat,
                 q: array<Word>, kv: array<Word>, ghost qCounts: seq<nat>, ghost kvCounts: seq<nat>)
    returns (ghost qCounts': seq<nat>, ghost kvCounts': seq<nat>)
    requires Inputs(job, f, qkv, zeros) && b < job.tokens && i < job.PerToken() && u == TokenUnit(job, b, i) && q != kv
    requires q.Length == |qCounts| == job.QOutTiles() * 1024 && kv.Length == |kvCounts| == job.KvOutTiles() * 1024
    modifies q, kv
    ensures |qCounts'| == |qCounts| && |kvCounts'| == |kvCounts|
    ensures i < job.QUnits() ==> kv[..] == old(kv[..]) && kvCounts' == kvCounts
    ensures i < job.QUnits() ==> UnitDone(job, f, qkv, u, i * GROUP, q[..], qCounts', old(q[..]), qCounts)
    ensures i >= job.QUnits() ==> q[..] == old(q[..]) && qCounts' == qCounts
    ensures i >= job.QUnits() ==>
      UnitDone(job, f, qkv, u, (i - job.QUnits()) / 2 * GROUP, kv[..], kvCounts', old(kv[..]), kvCounts)
  {
    hide UnitRows, UnitWritten, QUnit, KvUnit, Job.QOutTiles, Job.KvOutTiles, Computed, WidthTiles, KeepsLength,
         HeadsRead, SourcesFit;
    ghost var h := if i < job.QUnits() then i * GROUP else (i - job.QUnits()) / 2 * GROUP;
    UnitIsOf(job, b, i);
    UnitInOutput(job, b, i);
    SourcesAreIn(job, u, h, qkv);
    var heads := ReadUnit(job, u, qkv);
    RowsOfUnit(job, u, h, f, qkv, heads[..]);
    var tiles := Computed(job, u, f, heads[..]);
    RowAligned(h);
    qCounts', kvCounts' := qCounts, kvCounts;
    if u.kind == Q {
      ghost var before := q[..];
      qCounts' := WriteUnit(job, u, tiles, zeros, q, qCounts);
      assert DoneFrom(job, f, qkv, u, h, tiles, q[..], qCounts', before, qCounts);
    } else {
      ghost var before := kv[..];
      kvCounts' := WriteUnit(job, u, tiles, zeros, kv, kvCounts);
      assert DoneFrom(job, f, qkv, u, h, tiles, kv[..], kvCounts', before, kvCounts);
    }
  }

  lemma RowAligned(h: nat)
    requires h % GROUP == 0
    ensures h % 32 % GROUP == 0
  {
    GroupPlace(h / GROUP);
    DivModUnique(h / GROUP % 4 * GROUP, GROUP, h / GROUP % 4, 0);
  }

  lemma UnitIsOf(job: Job, b: nat, i: nat)
    requires job.Valid() && i < job.PerToken()
    ensures var h := if i < job.QUnits() then i * GROUP else (i - job.QUnits()) / 2 * GROUP;
      UnitOf(job, TokenUnit(job, b, i), h) && TokenUnit(job, b, i).token == b
      && (TokenUnit(job, b, i).kind == Q <==> i < job.QUnits())
  {
    if i < job.QUnits() {
      GroupCount(job.qHeads, i);
      QUnitOf(job, b, i);
    } else {
      var g, v := KvPair(job, i);
      GroupCount(job.kvHeads, (i - job.QUnits()) / 2);
      KvUnitOf(job, b, (i - job.QUnits()) / 2, (i - job.QUnits()) % 2 == 1);
    }
  }

  /// The unit's writes are in the output, from tiles that hold its heads.
  ghost predicate UnitDone(job: Job, f: Transform, qkv: seq<Word>, u: Unit, h: nat, after: seq<Word>,
                           counts': seq<nat>, before: seq<Word>, counts: seq<nat>)
    requires |after| == |before| == |counts'| == |counts|
  {
    && job.Valid() && u.token < 32 && WidthTiles(job) * 1024 <= |qkv| && KeepsLength(f, job.headTiles * 32)
    && exists tiles: seq<Word> :: DoneFrom(job, f, qkv, u, h, tiles, after, counts', before, counts)
  }

  ghost predicate DoneFrom(job: Job, f: Transform, qkv: seq<Word>, u: Unit, h: nat, tiles: seq<Word>,
                           after: seq<Word>, counts': seq<nat>, before: seq<Word>, counts: seq<nat>)
    requires |after| == |before| == |counts'| == |counts|
    requires job.Valid() && u.token < 32 && WidthTiles(job) * 1024 <= |qkv| && KeepsLength(f, job.headTiles * 32)
  {
    && |tiles| == job.headTiles * 1024 && UnitRows(job, u, h, f, qkv, tiles)
    && UnitWritten(job, u, tiles, after, counts', before, counts, job.headTiles, u.zeroTiles)
  }

  /// After a q unit, the q output is right for one more unit.
  lemma QStep(job: Job, f: Transform, qkv: seq<Word>, zeros: seq<Word>, b: nat, i: nat, after: seq<Word>,
              counts': seq<nat>,
              before: seq<Word>, counts: seq<nat>, cores: nat, c: nat, u: nat)
    requires Inputs(job, f, qkv, zeros) && b < job.tokens && i < job.QUnits() && i < job.PerToken()
      && u == b * job.PerToken() + i
    requires |after| == |before| == |counts'| == |counts| == job.QOutTiles() * 1024 && c < cores && u % cores == c
    requires UnitDone(job, f, qkv, TokenUnit(job, b, i), i * GROUP, after, counts', before, counts)
    requires QSoFar(job, f, qkv, before, counts, cores, c, u)
    ensures QSoFar(job, f, qkv, after, counts', cores, c, u + cores)
  {
    hide UnitRows, UnitWritten, QUnit, KvUnit, Job.QOutTiles, WidthTiles, KeepsLength, QValue, Elem, Job.PerToken,
         Job.QRows, QOwner, QTile, Ran, Job.QUnits;
    GroupCount(job.qHeads, i) by { QUnitCount(job); }
    QUnitCount(job);
    var tiles :| DoneFrom(job, f, qkv, TokenUnit(job, b, i), i * GROUP, tiles, after, counts', before, counts);
    var next := u + cores;
    forall b': nat, tr: nat, tc: nat, r: nat, col: nat | b' < job.tokens && tr < job.QRows() && tc < job.qTiles
      && r < 32 && col < 32
      ensures QElem(job, f, qkv, after, counts', Ran(cores, c, next, QOwner(job, b', tr, tc, r)), b', tr, tc, r, col)
    {
      RanNext(cores, c, u, QOwner(job, b', tr, tc, r));
      assert QElem(job, f, qkv, before, counts, Ran(cores, c, u, QOwner(job, b', tr, tc, r)), b', tr, tc, r, col);
      QUnitEffect(job, f, qkv, b, i, tiles, after, counts', before, counts, b', tr, tc, r, col);
    }
  }

  lemma QUnitCount(job: Job)
    ensures job.QUnits() == DivUp(job.qHeads, GROUP) && job.KvUnits() == DivUp(job.kvHeads, GROUP)
  {}

  /// A unit of the other output changes nothing here.
  lemma QIdle(job: Job, f: Transform, qkv: seq<Word>, zeros: seq<Word>, b: nat, i: nat, out: seq<Word>,
              counts: seq<nat>, cores: nat, c: nat, u: nat)
    requires Inputs(job, f, qkv, zeros) && b < job.tokens && job.QUnits() <= i < job.PerToken()
      && u == b * job.PerToken() + i
    requires |out| == |counts| == job.QOutTiles() * 1024 && c < cores && u % cores == c
      && QSoFar(job, f, qkv, out, counts, cores, c, u)
    ensures QSoFar(job, f, qkv, out, counts, cores, c, u + cores)
  {
    hide Job.QOutTiles, WidthTiles, KeepsLength, QValue, Elem, Job.PerToken, Job.QRows, QGroup, QTile, Ran, Job.QUnits;
    var next := u + cores;
    forall b': nat, tr: nat, tc: nat, r: nat, col: nat | b' < job.tokens && tr < job.QRows() && tc < job.qTiles
      && r < 32 && col < 32
      ensures QElem(job, f, qkv, out, counts, Ran(cores, c, next, QOwner(job, b', tr, tc, r)), b', tr, tc, r, col)
    {
      RanNext(cores, c, u, QOwner(job, b', tr, tc, r));
      assert QElem(job, f, qkv, out, counts, Ran(cores, c, u, QOwner(job, b', tr, tc, r)), b', tr, tc, r, col);
      QGroupExists(job, tr, tc, r);
      QUnitsInToken(job);
      SameUnit(job.PerToken(), b, i, b', QGroup(job, tr, tc, r));
    }
  }

  lemma QUnitsInToken(job: Job)
    ensures job.QUnits() <= job.PerToken()
  {}

  lemma KvStep(job: Job, f: Transform, qkv: seq<Word>, zeros: seq<Word>, b: nat, i: nat, after: seq<Word>,
               counts': seq<nat>,
               before: seq<Word>, counts: seq<nat>, cores: nat, c: nat, u: nat)
    requires Inputs(job, f, qkv, zeros) && b < job.tokens && job.QUnits() <= i < job.PerToken()
      && u == b * job.PerToken() + i
    requires |after| == |before| == |counts'| == |counts| == job.KvOutTiles() * 1024 && c < cores && u % cores == c
    requires UnitDone(job, f, qkv, TokenUnit(job, b, i), (i - job.QUnits()) / 2 * GROUP, after, counts', before, counts)
    requires KvSoFar(job, f, qkv, before, counts, cores, c, u)
    ensures KvSoFar(job, f, qkv, after, counts', cores, c, u + cores)
  {
    hide UnitRows, UnitWritten, QUnit, KvUnit, Job.KvOutTiles, WidthTiles, KeepsLength, KvValue, Elem, Job.PerToken,
         KvOwner, KvTile, Ran, Job.QUnits;
    var g, w := KvPair(job, i);
    assert (i - job.QUnits()) / 2 == g by { PairOf(g); }
    var h := g * GROUP;
    var tiles :| DoneFrom(job, f, qkv, TokenUnit(job, b, i), h, tiles, after, counts', before, counts);
    var next := u + cores;
    forall b': nat, v: bool, tc: nat, r: nat, col: nat | b' < job.tokens && tc < job.headTiles && r < 32 && col < 32
      ensures KvElem(job, f, qkv, after, counts', Ran(cores, c, next, KvOwner(job, b', v, r)), b', v, tc, r, col)
    {
      RanNext(cores, c, u, KvOwner(job, b', v, r));
      assert KvElem(job, f, qkv, before, counts, Ran(cores, c, u, KvOwner(job, b', v, r)), b', v, tc, r, col);
      NoZeroTiles(job, b, h, w);
      KvUnitEffect(job, f, qkv, b, g, w, tiles, after, counts', before, counts, b', v, tc, r, col);
    }
  }

  lemma NoZeroTiles(job: Job, b: nat, h: nat, v: bool)
    requires h < job.kvHeads
    ensures KvUnit(job, b, h, v).zeroTiles == 0
  {}

  lemma KvIdle(job: Job, f: Transform, qkv: seq<Word>, zeros: seq<Word>, b: nat, i: nat, out: seq<Word>,
               counts: seq<nat>, cores: nat, c: nat, u: nat)
    requires Inputs(job, f, qkv, zeros) && b < job.tokens && i < job.QUnits() && u == b * job.PerToken() + i
    requires |out| == |counts| == job.KvOutTiles() * 1024 && c < cores && u % cores == c
      && KvSoFar(job, f, qkv, out, counts, cores, c, u)
    ensures KvSoFar(job, f, qkv, out, counts, cores, c, u + cores)
  {
    hide Job.KvOutTiles, WidthTiles, KeepsLength, KvValue, Elem, KvGroup, KvTile, Ran, Job.QUnits, Job.KvUnits;
    var next := u + cores;
    forall b': nat, v: bool, tc: nat, r: nat, col: nat | b' < job.tokens && tc < job.headTiles && r < 32 && col < 32
      ensures KvElem(job, f, qkv, out, counts, Ran(cores, c, next, KvOwner(job, b', v, r)), b', v, tc, r, col)
    {
      RanNext(cores, c, u, KvOwner(job, b', v, r));
      assert KvElem(job, f, qkv, out, counts, Ran(cores, c, u, KvOwner(job, b', v, r)), b', v, tc, r, col);
      FirstKvUnit(job);
      KvGroupOnly(job, r, 0);
      SameUnit(job.PerToken(), b, i, b', job.QUnits() + 2 * KvGroup(job, r) + (if v then 1 else 0));
    }
  }

  lemma NothingRun(job: Job, f: Transform, qkv: seq<Word>, zeros: seq<Word>, q: seq<Word>, qCounts: seq<nat>,
                   kv: seq<Word>, kvCounts: seq<nat>, cores: nat)
    requires Inputs(job, f, qkv, zeros) && cores > 0
    requires |q| == |qCounts| == job.QOutTiles() * 1024 && |kv| == |kvCounts| == job.KvOutTiles() * 1024
    requires (forall x :: 0 <= x < |qCounts| ==> qCounts[x] == 0) && forall x :: 0 <= x < |kvCounts| ==>
      kvCounts[x] == 0
    ensures QSoFar(job, f, qkv, q, qCounts, cores, 0, 0) && KvSoFar(job, f, qkv, kv, kvCounts, cores, 0, 0)
  {
    hide Job.QOutTiles, Job.KvOutTiles, WidthTiles, KeepsLength, QValue, KvValue, QOwner, KvOwner, QTile, KvTile,
         FacePlace;
    forall b: nat, tr: nat, tc: nat, r: nat, col: nat | b < job.tokens && tr < job.QRows() && tc < job.qTiles && r < 32
      && col < 32
      ensures QElem(job, f, qkv, q, qCounts, Ran(cores, 0, 0, QOwner(job, b, tr, tc, r)), b, tr, tc, r, col)
    {
      QTileFits(job, b, tr, tc);
      DivMod(QOwner(job, b, tr, tc, r), cores);
    }
    forall b: nat, v: bool, tc: nat, r: nat, col: nat | b < job.tokens && tc < job.headTiles && r < 32 && col < 32
      ensures KvElem(job, f, qkv, kv, kvCounts, Ran(cores, 0, 0, KvOwner(job, b, v, r)), b, v, tc, r, col)
    {
      KvTileFits(job, b, v, tc);
      DivMod(KvOwner(job, b, v, r), cores);
    }
  }

  /// A core whose next unit is past the list is done.
  lemma CoreDone(cores: nat, c: nat, u: nat, n: nat, k: nat)
    requires c < cores && u >= n && k < n && u % cores == c
    ensures Ran(cores, c, u, k) <==> Ran(cores, c + 1, c + 1, k)
  {
    DivMod(k, cores);
  }

  lemma CoresMove(job: Job, f: Transform, qkv: seq<Word>, zeros: seq<Word>, q: seq<Word>, qCounts: seq<nat>,
      kv: seq<Word>, kvCounts: seq<nat>, cores: nat, c: nat, u: nat)
    requires Inputs(job, f, qkv, zeros) && c < cores && u >= job.Units() && u % cores == c
    requires |q| == |qCounts| == job.QOutTiles() * 1024 && |kv| == |kvCounts| == job.KvOutTiles() * 1024
    requires QSoFar(job, f, qkv, q, qCounts, cores, c, u) && KvSoFar(job, f, qkv, kv, kvCounts, cores, c, u)
    ensures QSoFar(job, f, qkv, q, qCounts, cores, c + 1, c + 1)
      && KvSoFar(job, f, qkv, kv, kvCounts, cores, c + 1, c + 1)
  {
    hide Job.QOutTiles, Job.KvOutTiles, WidthTiles, KeepsLength, QValue, KvValue, QOwner, KvOwner, QTile, KvTile, Ran,
         Elem, Job.Units;
    var d := c + 1;
    forall b: nat, tr: nat, tc: nat, r: nat, col: nat | b < job.tokens && tr < job.QRows() && tc < job.qTiles && r < 32
      && col < 32
      ensures QElem(job, f, qkv, q, qCounts, Ran(cores, d, d, QOwner(job, b, tr, tc, r)), b, tr, tc, r, col)
    {
      assert QElem(job, f, qkv, q, qCounts, Ran(cores, c, u, QOwner(job, b, tr, tc, r)), b, tr, tc, r, col);
      QOwnerFits(job, b, tr, tc, r);
      CoreDone(cores, c, u, job.Units(), QOwner(job, b, tr, tc, r));
    }
    forall b: nat, v: bool, tc: nat, r: nat, col: nat | b < job.tokens && tc < job.headTiles && r < 32 && col < 32
      ensures KvElem(job, f, qkv, kv, kvCounts, Ran(cores, d, d, KvOwner(job, b, v, r)), b, v, tc, r, col)
    {
      assert KvElem(job, f, qkv, kv, kvCounts, Ran(cores, c, u, KvOwner(job, b, v, r)), b, v, tc, r, col);
      KvOwnerFits(job, b, v, r);
      CoreDone(cores, c, u, job.Units(), KvOwner(job, b, v, r));
    }
  }

  lemma QOwnerFits(job: Job, b: nat, tr: nat, tc: nat, r: nat)
    requires job.Valid() && b < job.tokens && tr < job.QRows() && r < 32
    ensures QOwner(job, b, tr, tc, r) < job.Units()
  {
    QGroupExists(job, tr, tc, r);
    QUnitsInToken(job);
    UnitAt(job, b, QGroup(job, tr, tc, r));
  }

  lemma KvOwnerFits(job: Job, b: nat, v: bool, r: nat)
    requires job.Valid() && b < job.tokens && r < 32
    ensures KvOwner(job, b, v, r) < job.Units()
  {
    FirstKvUnit(job);
    KvGroupOnly(job, r, 0);
    UnitAt(job, b, job.QUnits() + 2 * KvGroup(job, r) + (if v then 1 else 0));
  }

  /// Every element of the q output is its value, written once.
  ghost predicate QRight(job: Job, f: Transform, qkv: seq<Word>, q: seq<Word>, counts: seq<nat>)
    requires job.Valid() && job.tokens <= 32 && WidthTiles(job) * 1024 <= |qkv| && KeepsLength(f, job.headTiles * 32)
    requires |q| == |counts| == job.QOutTiles() * 1024
  {
    forall b: nat, tr: nat, tc: nat, r: nat, col: nat ::
      b < job.tokens && tr < job.QRows() && tc < job.qTiles && r < 32 && col < 32 ==>
      QElem(job, f, qkv, q, counts, true, b, tr, tc, r, col)
  }

  ghost predicate KvRight(job: Job, f: Transform, qkv: seq<Word>, kv: seq<Word>, counts: seq<nat>)
    requires job.Valid() && job.tokens <= 32 && WidthTiles(job) * 1024 <= |qkv| && KeepsLength(f, job.headTiles * 32)
    requires |kv| == |counts| == job.KvOutTiles() * 1024
  {
    forall b: nat, v: bool, tc: nat, r: nat, col: nat :: b < job.tokens && tc < job.headTiles && r < 32 && col < 32 ==>
      KvElem(job, f, qkv, kv, counts, true, b, v, tc, r, col)
  }

  lemma AllRan(job: Job, f: Transform, qkv: seq<Word>, zeros: seq<Word>, q: seq<Word>, qCounts: seq<nat>,
               kv: seq<Word>, kvCounts: seq<nat>, cores: nat)
    requires Inputs(job, f, qkv, zeros) && cores > 0
    requires |q| == |qCounts| == job.QOutTiles() * 1024 && |kv| == |kvCounts| == job.KvOutTiles() * 1024
    requires QSoFar(job, f, qkv, q, qCounts, cores, cores, cores)
      && KvSoFar(job, f, qkv, kv, kvCounts, cores, cores, cores)
    ensures QRight(job, f, qkv, q, qCounts) && KvRight(job, f, qkv, kv, kvCounts)
  {
    hide Job.QOutTiles, Job.KvOutTiles, WidthTiles, KeepsLength, QValue, KvValue, QOwner, KvOwner, QTile, KvTile, Elem;
    forall b: nat, tr: nat, tc: nat, r: nat, col: nat | b < job.tokens && tr < job.QRows() && tc < job.qTiles && r < 32
      && col < 32
      ensures QElem(job, f, qkv, q, qCounts, true, b, tr, tc, r, col)
    {
      DivMod(QOwner(job, b, tr, tc, r), cores);
      assert QElem(job, f, qkv, q, qCounts, Ran(cores, cores, cores, QOwner(job, b, tr, tc, r)), b, tr, tc, r, col);
    }
    forall b: nat, v: bool, tc: nat, r: nat, col: nat | b < job.tokens && tc < job.headTiles && r < 32 && col < 32
      ensures KvElem(job, f, qkv, kv, kvCounts, true, b, v, tc, r, col)
    {
      DivMod(KvOwner(job, b, v, r), cores);
      assert KvElem(job, f, qkv, kv, kvCounts, Ran(cores, cores, cores, KvOwner(job, b, v, r)), b, v, tc, r, col);
    }
  }

  /// Units dealt round-robin to the cores: each runs once, and together they fill both outputs.
  method RunCores(job: Job, f: Transform, qkv: seq<Word>, zeros: seq<Word>, grid: nat, q: array<Word>, kv: array<Word>)
    returns (ghost qCounts: seq<nat>, ghost kvCounts: seq<nat>, ghost runs: seq<nat>)
    requires Inputs(job, f, qkv, zeros) && grid > 0 && q != kv
    requires q.Length == job.QOutTiles() * 1024 && kv.Length == job.KvOutTiles() * 1024
    modifies q, kv
    ensures |qCounts| == q.Length && |kvCounts| == kv.Length
    ensures QRight(job, f, qkv, q[..], qCounts) && KvRight(job, f, qkv, kv[..], kvCounts)
    ensures |runs| == job.Units() && forall k: nat :: k < |runs| ==> runs[k] == 1
  {
    hide QSoFar, KvSoFar, QRight, KvRight, UnitDone, Job.QOutTiles, Job.KvOutTiles, Job.QUnits, Job.PerToken,
         WidthTiles, KeepsLength, Ran;
    UnitsExist(job);
    var units := BuildUnits(job);
    var cores := Least(|units|, grid);
    qCounts, kvCounts, runs := seq(q.Length, x => 0), seq(kv.Length, x => 0), seq(|units|, k => 0);
    NothingRun(job, f, qkv, zeros, q[..], qCounts, kv[..], kvCounts, cores);
    forall k: nat | k < |units| ensures !Ran(cores, 0, 0, k) { NotRun(cores, k); }
    var c: nat := 0;
    while c < cores
      invariant 0 <= c <= cores && |qCounts| == q.Length && |kvCounts| == kv.Length && |runs| == |units|
      invariant QSoFar(job, f, qkv, q[..], qCounts, cores, c, c) && KvSoFar(job, f, qkv, kv[..], kvCounts, cores, c, c)
      invariant forall k: nat :: k < |runs| ==> runs[k] == if Ran(cores, c, c, k) then 1 else 0
    {
      var u: nat := c;
      SmallRemainder(c, cores);
      while u < |units|
        invariant c <= u && u % cores == c && |qCounts| == q.Length && |kvCounts| == kv.Length && |runs| == |units|
        invariant QSoFar(job, f, qkv, q[..], qCounts, cores, c, u)
          && KvSoFar(job, f, qkv, kv[..], kvCounts, cores, c, u)
        invariant forall k: nat :: k < |runs| ==> runs[k] == if Ran(cores, c, u, k) then 1 else 0
      {
        ghost var before, beforeKv, counts, countsKv := q[..], kv[..], qCounts, kvCounts;
        ghost var b, i := UnitParts(job, u);
        qCounts, kvCounts := RunUnit(job, f, qkv, zeros, units[u], b, i, q, kv, qCounts, kvCounts);
        if i < job.QUnits() {
          QStep(job, f, qkv, zeros, b, i, q[..], qCounts, before, counts, cores, c, u);
          KvIdle(job, f, qkv, zeros, b, i, kv[..], kvCounts, cores, c, u);
        } else {
          KvStep(job, f, qkv, zeros, b, i, kv[..], kvCounts, beforeKv, countsKv, cores, c, u);
          QIdle(job, f, qkv, zeros, b, i, q[..], qCounts, cores, c, u);
        }
        forall k: nat | k < |runs|
          ensures Ran(cores, c, u + cores, k) <==> Ran(cores, c, u, k) || k == u
        {
          RanNext(cores, c, u, k);
        }
        RanNext(cores, c, u, u);
        runs := runs[u := runs[u] + 1];
        u := u + cores;
      }
      CoresMove(job, f, qkv, zeros, q[..], qCounts, kv[..], kvCounts, cores, c, u);
      forall k: nat | k < |runs|
        ensures Ran(cores, c, u, k) <==> Ran(cores, c + 1, c + 1, k)
      {
        CoreDone(cores, c, u, |units|, k);
      }
      c := c + 1;
    }
    AllRan(job, f, qkv, zeros, q[..], qCounts, kv[..], kvCounts, cores);
    forall k: nat | k < |runs| ensures Ran(cores, cores, cores, k) { EveryRan(cores, k); }
  }

  lemma UnitsExist(job: Job)
    requires job.Valid()
    ensures job.Units() > 0 && job.PerToken() > 0
  {
    FirstKvUnit(job);
    MulMonotone(1, job.tokens, job.PerToken());
  }

  lemma NotRun(cores: nat, k: nat)
    requires cores > 0
    ensures !Ran(cores, 0, 0, k)
  {
    DivMod(k, cores);
  }

  lemma EveryRan(cores: nat, k: nat)
    requires cores > 0
    ensures Ran(cores, cores, cores, k)
  {
    DivMod(k, cores);
  }

  lemma SmallRemainder(c: nat, cores: nat)
    requires c < cores
    ensures c % cores == c
  {
    DivModUnique(c, cores, 0, c);
  }
}
