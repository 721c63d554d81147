/// The FP32 matmul's kernels on one core: its range of output tiles cut into runs
/// along a row of A, the reader's page order and the compute loop
/// that consumes it.
module MatmulRuns {
  import opened RowMajor
  import opened MatmulVector
  import opened VectorUnit
  import opened MatmulFinish

  /// `lastK` is how much of the last k tile lies within K, or 0 for all of it.
  datatype Job = Job(batch: nat, Mt: nat, Kt: nat, Nt: nat, bcastB: bool, a: seq<Tile>, b: seq<Tile>, runWidth: nat,
                     aResident: bool,
                     lastK: nat)
  {
    ghost predicate Valid() {
      && Mt > 0 && Kt > 0 && Nt > 0 && runWidth > 0 && lastK < 32 && (!aResident ==> runWidth == 1)
      && |a| == batch * Mt * Kt && |b| == (if bcastB then 1 else batch) * (Kt * Nt)
    }

    function Tiles(): nat { batch * (Mt * Nt) }

    /// The extent that is summed over.
    function K(): nat
      requires Kt > 0
    {
      if lastK == 0 then 32 * Kt else 32 * (Kt - 1) + lastK
    }

    /// Tile k reaches past K.
    predicate PastK(k: nat) { lastK > 0 && k + 1 == Kt }

    function BatchOf(tile: nat): nat
      requires Mt * Nt > 0
    {
      tile / (Mt * Nt)
    }

    function RowOf(tile: nat): nat
      requires Nt > 0 && Mt * Nt > 0
    {
      tile % (Mt * Nt) / Nt
    }

    function ColumnOf(tile: nat): nat
      requires Nt > 0
    {
      tile % Nt
    }
  }

  /// A tile's batch, row and column are in range.
  lemma TileParts(job: Job, tile: nat)
    requires job.Valid() && tile < job.Tiles()
    ensures job.Mt * job.Nt > 0 && job.BatchOf(tile) < job.batch && job.RowOf(tile) < job.Mt
      && job.ColumnOf(tile) < job.Nt
    ensures tile == (job.BatchOf(tile) * job.Mt + job.RowOf(tile)) * job.Nt + job.ColumnOf(tile)
  {
    var page := job.Mt * job.Nt;
    MulMonotone(1, job.Mt, job.Nt);
    PositiveFactors(job.batch, page, tile);
    DivMod(tile, page);
    PositiveFactors(job.Mt, job.Nt, tile % page);
    DivMod(tile % page, job.Nt);
    MulAssoc(job.BatchOf(tile), job.Mt, job.Nt);
    MulDistribute(job.BatchOf(tile) * job.Mt, job.RowOf(tile), job.Nt);
    DivModUnique(tile, job.Nt, job.BatchOf(tile) * job.Mt + job.RowOf(tile), tile % page % job.Nt);
  }

  lemma PartsUnique(job: Job, tile: nat, n: nat, r: nat, c: nat)
    requires job.Valid() && tile < job.Tiles() && n < job.batch && r < job.Mt && c < job.Nt
    requires tile == (n * job.Mt + r) * job.Nt + c
    ensures job.Mt * job.Nt > 0 && job.BatchOf(tile) == n && job.RowOf(tile) == r && job.ColumnOf(tile) == c
  {
    MulMonotone(1, job.Mt, job.Nt);
    TwoLevels(tile, n, job.Mt, r, job.Nt, c);
  }

  lemma TwoLevels(tile: nat, n: nat, Mt: nat, r: nat, Nt: nat, c: nat)
    requires r < Mt && c < Nt && Mt * Nt > 0 && tile == (n * Mt + r) * Nt + c
    ensures tile / (Mt * Nt) == n && tile % (Mt * Nt) / Nt == r && tile % Nt == c
  {
    MulDistribute(n * Mt, r, Nt);
    MulAssoc(n, Mt, Nt);
    MulStrict(r, Mt, Nt);
    var page := Mt * Nt;
    DivModUnique(tile, page, n, r * Nt + c);
    DivModUnique(r * Nt + c, Nt, r, c);
    DivModUnique(tile, Nt, n * Mt + r, c);
  }

  /// Place j of b in the i-th of a.
  function Nest(i: nat, a: nat, j: nat, b: nat): (n: nat)
    requires i < a && j < b
    ensures n < a * b
  {
    MulStrict(i, a, b);
    i * b + j
  }

  function PageA(job: Job, tile: nat, k: nat): (p: nat)
    requires job.Valid() && tile < job.Tiles() && k < job.Kt
    ensures p < |job.a|
  {
    TileParts(job, tile);
    Nest(Nest(job.BatchOf(tile), job.batch, job.RowOf(tile), job.Mt), job.batch * job.Mt, k, job.Kt)
  }

  function PageB(job: Job, tile: nat, k: nat): (p: nat)
    requires job.Valid() && tile < job.Tiles() && k < job.Kt
    ensures p < |job.b|
  {
    TileParts(job, tile);
    Nest(if job.bcastB then 0 else job.BatchOf(tile), if job.bcastB then 1 else job.batch,
         Nest(k, job.Kt, job.ColumnOf(tile), job.Nt), job.Kt * job.Nt)
  }

  /// The tile with only its first `rows` rows and `columns` columns kept; the rest is zero.
  function Kept(t: Tile, rows: nat, columns: nat): Tile {
    BuildTile((n: nat, h: nat, j: nat) requires n < 32 && h < 4 && j < 8 =>
      KeptLane(t, rows, columns, n, h, j))
  }

  function KeptLane(t: Tile, rows: nat, columns: nat, n: nat, h: nat, j: nat): Word
    requires n < 32 && h < 4 && j < 8
  {
    if SlotRow(n) + h < rows && Col(SlotGroup(n), j) < columns then Lane(t[n], h, j) else ZERO
  }

  lemma KeptAt(t: Tile, rows: nat, columns: nat, r: nat, c: nat)
    requires r < 32 && c < 32
    ensures At(Kept(t, rows, columns), r, c) == if r < rows && c < columns then At(t, r, c) else ZERO
  {
    ColumnParts(c);
    SlotOfRow(r, GroupOf(c));
    hide Slot, SlotRow, SlotGroup, Lane;
  }

  /// Tile k of an output tile's row of A, and of its column of B, as they lie in memory.
  function TileA(job: Job, tile: nat, k: nat): Tile
    requires job.Valid() && tile < job.Tiles() && k < job.Kt
  {
    job.a[PageA(job, tile, k)]
  }

  function TileB(job: Job, tile: nat, k: nat): Tile
    requires job.Valid() && tile < job.Tiles() && k < job.Kt
  {
    job.b[PageB(job, tile, k)]
  }

  /// The Kt tiles of A's row, and of B's column, of an output tile: zero past K.
  function RowA(job: Job, tile: nat): (r: seq<Tile>)
    requires job.Valid() && tile < job.Tiles()
    ensures |r| == job.Kt
  {
    seq(job.Kt, k requires 0 <= k < job.Kt => PaddedA(job, TileA(job, tile, k), k))
  }

  function ColB(job: Job, tile: nat): (r: seq<Tile>)
    requires job.Valid() && tile < job.Tiles()
    ensures |r| == job.Kt
  {
    seq(job.Kt, k requires 0 <= k < job.Kt => PaddedB(job, TileB(job, tile, k), k))
  }

  function PaddedA(job: Job, t: Tile, k: nat): Tile { if job.PastK(k) then Kept(t, 32, job.lastK) else t }

  function PaddedB(job: Job, t: Tile, k: nat): Tile { if job.PastK(k) then Kept(t, job.lastK, 32) else t }

  function MemoryA(job: Job, tile: nat): (r: seq<Tile>)
    requires job.Valid() && tile < job.Tiles()
    ensures |r| == job.Kt
  {
    seq(job.Kt, k requires 0 <= k < job.Kt => TileA(job, tile, k))
  }

  function MemoryB(job: Job, tile: nat): (r: seq<Tile>)
    requires job.Valid() && tile < job.Tiles()
    ensures |r| == job.Kt
  {
    seq(job.Kt, k requires 0 <= k < job.Kt => TileB(job, tile, k))
  }

  /// The output tile as computed: for every element the fold over all of the k tiles.
  ghost predicate IsPaddedProduct(mad: Mad, job: Job, tile: nat, c: Tile)
    requires job.Valid() && tile < job.Tiles()
  {
    forall row: nat, col: nat :: row < 32 && col < 32 ==>
      At(c, row, col) == Dot(mad, RowA(job, tile), ColB(job, tile), row, col, 32 * job.Kt)
  }

  /// A sum after n terms of two zeros.
  function ZeroTerms(mad: Mad, sum: Word, n: nat): Word {
    if n == 0 then sum else mad(ZERO, ZERO, ZeroTerms(mad, sum, n - 1))
  }

  /// The sum over K of row r of A and column c of B, from what is in memory within K.
  function Sum(mad: Mad, job: Job, tile: nat, r: nat, c: nat): Word
    requires job.Valid() && tile < job.Tiles() && r < 32 && c < 32
  {
    Dot(mad, MemoryA(job, tile), MemoryB(job, tile), r, c, job.K())
  }

  /// The output tile is the textbook product: for every element the left fold
  /// over K, whatever memory holds past K, and as many zero terms as pad it.
  ghost predicate IsProduct(mad: Mad, job: Job, tile: nat, t: Tile)
    requires job.Valid() && tile < job.Tiles()
  {
    forall r: nat, c: nat :: r < 32 && c < 32 ==>
      At(t, r, c) == ZeroTerms(mad, Sum(mad, job, tile, r, c), 32 * job.Kt - job.K())
  }

  lemma PaddedElement(job: Job, tile: nat, k: nat, r: nat, c: nat)
    requires job.Valid() && tile < job.Tiles() && k < 32 * job.Kt && r < 32 && c < 32
    ensures At(RowA(job, tile)[k / 32], r, k % 32) == if k < job.K() then At(MemoryA(job, tile)[k / 32], r, k % 32)
      else ZERO
    ensures At(ColB(job, tile)[k / 32], k % 32, c) == if k < job.K() then At(MemoryB(job, tile)[k / 32], k % 32, c)
      else ZERO
  {
    hide At, Kept, TileA, TileB, Job.Tiles;
    KeptAt(TileA(job, tile, k / 32), 32, job.lastK, r, k % 32);
    KeptAt(TileB(job, tile, k / 32), job.lastK, 32, k % 32, c);
  }

  /// Within K the padded tiles add the same terms as memory; past it, zeros.
  lemma {:induction false} PaddedDot(mad: Mad, job: Job, tile: nat, r: nat, c: nat, n: nat)
    requires job.Valid() && tile < job.Tiles() && r < 32 && c < 32 && n <= 32 * job.Kt
    ensures Dot(mad, RowA(job, tile), ColB(job, tile), r, c, n)
         == if n <= job.K() then Dot(mad, MemoryA(job, tile), MemoryB(job, tile), r, c, n)
            else ZeroTerms(mad, Sum(mad, job, tile, r, c), n - job.K())
  {
    hide At, RowA, ColB, MemoryA, MemoryB, Job.Tiles;
    if n > 0 {
      PaddedDot(mad, job, tile, r, c, n - 1);
      PaddedElement(job, tile, n - 1, r, c);
    }
  }

  lemma PaddedIsProduct(mad: Mad, job: Job, tile: nat, t: Tile)
    requires job.Valid() && tile < job.Tiles() && IsPaddedProduct(mad, job, tile, t)
    ensures IsProduct(mad, job, tile, t)
  {
    hide At, RowA, ColB, Sum, Dot, Job.Tiles;
    forall r: nat, c: nat | r < 32 && c < 32
      ensures At(t, r, c) == ZeroTerms(mad, Sum(mad, job, tile, r, c), 32 * job.Kt - job.K())
    {
      PaddedDot(mad, job, tile, r, c, 32 * job.Kt);
      WholeSum(mad, job, tile, r, c);
    }
  }

  lemma WholeSum(mad: Mad, job: Job, tile: nat, r: nat, c: nat)
    requires job.Valid() && tile < job.Tiles() && r < 32 && c < 32
    ensures job.K() <= 32 * job.Kt && Sum(mad, job, tile, r, c)
      == Dot(mad, MemoryA(job, tile), MemoryB(job, tile), r, c, job.K())
  {}

  /// Where a zero term does not change the sum, padding does not.
  lemma {:induction false} ZeroTermsKeep(mad: Mad, sum: Word, n: nat)
    requires mad(ZERO, ZERO, sum) == sum
    ensures ZeroTerms(mad, sum, n) == sum
  {
    if n > 0 { ZeroTermsKeep(mad, sum, n - 1); }
  }

  // ---- the product of the operands ----

  /// Element (r, c) of matrix n of a batch of matrices in tiles, the tiles in
  /// row-major order.
  function Element(tiles: seq<Tile>, batch: nat, rowTiles: nat, columnTiles: nat, n: nat, r: nat, c: nat): Word
    requires |tiles| == batch * rowTiles * columnTiles && n < batch && r < 32 * rowTiles && c < 32 * columnTiles
  {
    TileInMatrix(batch, rowTiles, columnTiles, n, r / 32, c / 32);
    At(tiles[Flatten([batch, rowTiles, columnTiles], [n, r / 32, c / 32])], r % 32, c % 32)
  }

  lemma TileInMatrix(batch: nat, rows: nat, columns: nat, n: nat, i: nat, j: nat)
    requires n < batch && i < rows && j < columns
    ensures InShape([batch, rows, columns], [n, i, j])
    ensures Flatten([batch, rows, columns], [n, i, j]) == (n * rows + i) * columns + j < batch * rows * columns
  {
    var shape: seq<nat>, index: seq<nat> := [batch, rows, columns], [n, i, j];
    PlaceOfThree(shape, index);
    ProductOfThree(shape);
    FlattenBound(shape, index);
  }

  lemma OperandSizes(job: Job)
    requires job.Valid()
    ensures |job.a| == job.batch * job.Mt * job.Kt
    ensures |job.b| == (if job.bcastB then 1 else job.batch) * job.Kt * job.Nt
  {
    MulAssoc(if job.bcastB then 1 else job.batch, job.Kt, job.Nt);
  }

  /// A is [batch, 32 Mt, K], B is [batch, K, 32 Nt], or [1, K, 32 Nt] for the whole batch.
  function ElementA(job: Job, n: nat, r: nat, k: nat): Word
    requires job.Valid() && n < job.batch && r < 32 * job.Mt && k < job.K()
  {
    OperandSizes(job);
    Element(job.a, job.batch, job.Mt, job.Kt, n, r, k)
  }

  function ElementB(job: Job, n: nat, k: nat, c: nat): Word
    requires job.Valid() && n < job.batch && k < job.K() && c < 32 * job.Nt
  {
    OperandSizes(job);
    if job.bcastB then Element(job.b, 1, job.Kt, job.Nt, 0, k, c)
      else Element(job.b, job.batch, job.Kt, job.Nt, n, k, c)
  }

  /// The left fold of row r of A and column c of B, in increasing k.
  function Inner(mad: Mad, job: Job, n: nat, r: nat, c: nat, k: nat): Word
    requires job.Valid() && n < job.batch && r < 32 * job.Mt && c < 32 * job.Nt && k <= job.K()
  {
    if k == 0 then ZERO
    else mad(ElementB(job, n, k - 1, c), ElementA(job, n, r, k - 1), Inner(mad, job, n, r, c, k - 1))
  }

  /// The output's tile in row-major order over [batch, Mt, Nt] is that part of
  /// the product of the operands.
  ghost predicate IsProductTile(mad: Mad, job: Job, tile: nat, t: Tile)
    requires job.Valid()
  {
    exists n: nat, i: nat, j: nat ::
      && n < job.batch && i < job.Mt && j < job.Nt && tile == Flatten([job.batch, job.Mt, job.Nt], [n, i, j])
      && forall r: nat, c: nat :: r < 32 && c < 32 ==> ProductAt(mad, job, n, i, j, t, r, c)
  }

  ghost predicate ProductAt(mad: Mad, job: Job, n: nat, i: nat, j: nat, t: Tile, r: nat, c: nat)
    requires job.Valid() && n < job.batch && i < job.Mt && j < job.Nt && r < 32 && c < 32
  {
    At(t, r, c) == ZeroTerms(mad, Inner(mad, job, n, 32 * i + r, 32 * j + c, job.K()), 32 * job.Kt - job.K())
  }

  lemma MemoryElement(job: Job, tile: nat, n: nat, i: nat, j: nat, k: nat, r: nat, c: nat)
    requires job.Valid() && tile < job.Tiles() && n < job.batch && i < job.Mt && j < job.Nt && k < job.K()
    requires tile == (n * job.Mt + i) * job.Nt + j && r < 32 && c < 32
    ensures k / 32 < job.Kt
    ensures At(MemoryA(job, tile)[k / 32], r, k % 32) == ElementA(job, n, 32 * i + r, k)
    ensures At(MemoryB(job, tile)[k / 32], k % 32, c) == ElementB(job, n, k, 32 * j + c)
  {
    hide At, Job.Tiles;
    PartsUnique(job, tile, n, i, j);
    OperandSizes(job);
    DivModUnique(32 * i + r, 32, i, r);
    DivModUnique(32 * j + c, 32, j, c);
    TileInMatrix(job.batch, job.Mt, job.Kt, n, i, k / 32);
    if job.bcastB { TileInMatrix(1, job.Kt, job.Nt, 0, k / 32, j); }
    else { TileInMatrix(job.batch, job.Kt, job.Nt, n, k / 32, j); }
    MulDistribute(n * job.Kt, k / 32, job.Nt);
    MulAssoc(n, job.Kt, job.Nt);
  }

  lemma {:induction false} MemoryDot(mad: Mad, job: Job, tile: nat, n: nat, i: nat, j: nat, r: nat, c: nat, k: nat)
    requires job.Valid() && tile < job.Tiles() && n < job.batch && i < job.Mt && j < job.Nt && k <= job.K()
    requires tile == (n * job.Mt + i) * job.Nt + j && r < 32 && c < 32
    ensures Dot(mad, MemoryA(job, tile), MemoryB(job, tile), r, c, k)
         == Inner(mad, job, n, 32 * i + r, 32 * j + c, k)
  {
    hide At, MemoryA, MemoryB, ElementA, ElementB, Job.Tiles;
    if k > 0 {
      MemoryDot(mad, job, tile, n, i, j, r, c, k - 1);
      MemoryElement(job, tile, n, i, j, k - 1, r, c);
    }
  }

  /// A tile that folds the pages the reader takes is that tile of the product of the operands.
  lemma ProductOfOperands(mad: Mad, job: Job, tile: nat, t: Tile)
    requires job.Valid() && tile < job.Tiles() && IsProduct(mad, job, tile, t)
    ensures IsProductTile(mad, job, tile, t)
  {
    hide At, MemoryA, MemoryB, Inner, Dot, Job.BatchOf, Job.RowOf, Job.ColumnOf;
    TileParts(job, tile);
    var n, i, j := job.BatchOf(tile), job.RowOf(tile), job.ColumnOf(tile);
    TileInMatrix(job.batch, job.Mt, job.Nt, n, i, j);
    forall r: nat, c: nat | r < 32 && c < 32 ensures ProductAt(mad, job, n, i, j, t, r, c) {
      MemoryDot(mad, job, tile, n, i, j, r, c, job.K());
    }
  }

  // ---- runs ----

  function RunCols(tile: nat, end: nat, Nt: nat, runWidth: nat): (n: nat)
    requires tile < end && Nt > 0 && runWidth > 0
    ensures 0 < n <= end - tile && n <= runWidth && n <= Nt - tile % Nt
  {
    var cols := Nt - tile % Nt;
    var narrow := if cols < runWidth then cols else runWidth;
    if narrow < end - tile then narrow else end - tile
  }

  /// Within a run batch and row stay the same and the column steps by one.
  lemma RunShares(job: Job, tile: nat, j: nat)
    requires job.Valid() && tile + j < job.Tiles() && tile % job.Nt + j < job.Nt
    ensures job.Mt * job.Nt > 0 && job.BatchOf(tile + j) == job.BatchOf(tile) && job.RowOf(tile + j) == job.RowOf(tile)
    ensures job.ColumnOf(tile + j) == job.ColumnOf(tile) + j
    ensures RowA(job, tile + j) == RowA(job, tile)
  {
    TileParts(job, tile);
    PartsUnique(job, tile + j, job.BatchOf(tile), job.RowOf(tile), job.ColumnOf(tile) + j);
    hide Job.BatchOf, Job.RowOf, Job.ColumnOf, Kept;
    forall k | 0 <= k < job.Kt ensures PageA(job, tile + j, k) == PageA(job, tile, k) {}
  }

  // ---- the streams between the kernels ----

  /// What the reader puts into in0: a row of A per run.
  ghost function StreamA(job: Job, tile: nat, end: nat): seq<Tile>
    requires job.Valid() && tile <= end <= job.Tiles()
    decreases end - tile
  {
    if tile == end then [] else RowA(job, tile) + StreamA(job, tile + RunCols(tile, end, job.Nt, job.runWidth), end)
  }

  /// And into in1: a column of B per output tile.
  ghost function StreamB(job: Job, tile: nat, end: nat): (s: seq<Tile>)
    requires job.Valid() && tile <= end <= job.Tiles()
    decreases end - tile
  {
    if tile == end then [] else ColB(job, tile) + StreamB(job, tile + 1, end)
  }

  lemma {:induction false} StreamBMore(job: Job, tile: nat, mid: nat, end: nat)
    requires job.Valid() && tile <= mid <= end <= job.Tiles()
    ensures StreamB(job, tile, end) == StreamB(job, tile, mid) + StreamB(job, mid, end)
    decreases mid - tile
  {
    hide ColB;
    if tile < mid {
      StreamBMore(job, tile + 1, mid, end);
      assert StreamB(job, tile, end) == ColB(job, tile) + StreamB(job, tile + 1, end);
    }
  }

  /// One output tile's column of B, page by page; with A not resident its row of A as well.
  method ReadColumn(job: Job, tile: nat, j: nat, in0: seq<Tile>, in1: seq<Tile>)
    returns (out0: seq<Tile>, out1: seq<Tile>)
    requires job.Valid() && tile + j < job.Tiles() && tile % job.Nt + j < job.Nt
    ensures out0 == in0 + (if job.aResident then [] else RowA(job, tile))
    ensures out1 == in1 + ColB(job, tile + j)
  {
    hide Job.Tiles, RowA, ColB, Kept, StartA, StartB, PageA, PageB;
    RunShares(job, tile, j);
    var aRow := StartA(job, tile);
    var bBase := StartB(job, tile);
    out0, out1 := in0, in1;
    RowPages(job, tile);
    ColumnPages(job, tile + j);
    var k := 0;
    while k < job.Kt
      invariant 0 <= k <= job.Kt
      invariant out0 == in0 + (if job.aResident then [] else RowA(job, tile)[..k])
      invariant out1 == in1 + ColB(job, tile + j)[..k]
    {
      if !job.aResident {
        PageOfRow(job, tile, k);
        var own := job.a[aRow + k];
        if k == job.Kt - 1 && job.lastK > 0 { own := Kept(own, 32, job.lastK); }
        assert own == RowA(job, tile)[k];
        out0 := out0 + [own];
      }
      PageOfColumn(job, tile, j, k);
      var next := job.b[bBase + k * job.Nt + j];
      if k == job.Kt - 1 && job.lastK > 0 { next := Kept(next, job.lastK, 32); }
      assert next == ColB(job, tile + j)[k];
      out1 := out1 + [next];
      k := k + 1;
    }
    assert RowA(job, tile)[..job.Kt] == RowA(job, tile) && ColB(job, tile + j)[..job.Kt] == ColB(job, tile + j);
  }

  lemma RowPages(job: Job, tile: nat)
    requires job.Valid() && tile < job.Tiles()
    ensures forall k :: 0 <= k < job.Kt ==> MemoryA(job, tile)[k] == job.a[PageA(job, tile, k)]
    ensures forall k :: 0 <= k < job.Kt ==>
      RowA(job, tile)[k] == if job.PastK(k) then Kept(job.a[PageA(job, tile, k)], 32, job.lastK)
        else job.a[PageA(job, tile, k)]
  {
    hide PageA, Kept;
  }

  lemma ColumnPages(job: Job, tile: nat)
    requires job.Valid() && tile < job.Tiles()
    ensures forall k :: 0 <= k < job.Kt ==>
      ColB(job, tile)[k] == if job.PastK(k) then Kept(job.b[PageB(job, tile, k)], job.lastK, 32)
        else job.b[PageB(job, tile, k)]
  {
    hide PageB, Kept;
  }

  /// The first page of an output tile's row of A, and of its column of B.
  function StartA(job: Job, tile: nat): nat
    requires job.Valid() && tile < job.Tiles()
  {
    TileParts(job, tile);
    (job.BatchOf(tile) * job.Mt + job.RowOf(tile)) * job.Kt
  }

  function StartB(job: Job, tile: nat): nat
    requires job.Valid() && tile < job.Tiles()
  {
    TileParts(job, tile);
    (if job.bcastB then 0 else job.BatchOf(tile)) * (job.Kt * job.Nt) + job.ColumnOf(tile)
  }

  lemma PageOfRow(job: Job, tile: nat, k: nat)
    requires job.Valid() && tile < job.Tiles() && k < job.Kt
    ensures PageA(job, tile, k) == StartA(job, tile) + k
  {
    hide Job.BatchOf, Job.RowOf, Job.ColumnOf;
  }

  lemma PageOfColumn(job: Job, tile: nat, j: nat, k: nat)
    requires job.Valid() && tile + j < job.Tiles() && tile % job.Nt + j < job.Nt && k < job.Kt
    ensures job.Mt * job.Nt > 0
    ensures PageB(job, tile + j, k) == StartB(job, tile) + k * job.Nt + j
  {
    RunShares(job, tile, j);
    hide Job.BatchOf, Job.RowOf, Job.ColumnOf, RowA;
  }

  method ReadRow(job: Job, tile: nat, in0: seq<Tile>) returns (out0: seq<Tile>)
    requires job.Valid() && tile < job.Tiles()
    ensures out0 == in0 + RowA(job, tile)
  {
    hide Job.Tiles, RowA, MemoryA, Kept, StartA, PageA;
    RowPages(job, tile);
    var aRow := StartA(job, tile);
    out0 := in0;
    var k := 0;
    while k < job.Kt
      invariant 0 <= k <= job.Kt && out0 == in0 + MemoryA(job, tile)[..k]
    {
      PageOfRow(job, tile, k);
      out0 := out0 + [job.a[aRow + k]];
      k := k + 1;
    }
    var last := |out0| - 1;
    if job.lastK > 0 { out0 := out0[last := Kept(out0[last], 32, job.lastK)]; }
    assert out0[|in0|..] == RowA(job, tile);
  }

  /// The reader: for each run its row of A, then a column of B per output tile.
  method Reader(job: Job, first: nat, num: nat) returns (in0: seq<Tile>, in1: seq<Tile>)
    requires job.Valid() && first + num <= job.Tiles()
    ensures in0 == StreamA(job, first, first + num) && in1 == StreamB(job, first, first + num)
  {
    hide RowA, ColB, RunCols, Job.Tiles, Job.Valid;
    var end := first + num;
    in0, in1 := [], [];
    var tile: nat := first;
    Extents(job);
    while tile < end
      invariant first <= tile <= end
      invariant in0 + StreamA(job, tile, end) == StreamA(job, first, end)
      invariant in1 + StreamB(job, tile, end) == StreamB(job, first, end)
    {
      var cols := RunCols(tile, end, job.Nt, job.runWidth);
      ghost var before0, before1 := in0, in1;
      in0, in1 := ReadRun(job, tile, end, cols, in0, in1);
      StreamBMore(job, tile, tile + cols, end);
      Associative(before0, RowA(job, tile), StreamA(job, tile + cols, end));
      Associative(before1, StreamB(job, tile, tile + cols), StreamB(job, tile + cols, end));
      tile := tile + cols;
    }
    assert StreamA(job, end, end) == [] && StreamB(job, end, end) == [];
  }

  method ReadRun(job: Job, tile: nat, ghost end: nat, cols: nat, before0: seq<Tile>, before1: seq<Tile>)
    returns (in0: seq<Tile>, in1: seq<Tile>)
    requires job.Valid() && tile < end <= job.Tiles() && cols == RunCols(tile, end, job.Nt, job.runWidth)
    ensures in0 == before0 + RowA(job, tile) && in1 == before1 + StreamB(job, tile, tile + cols)
  {
    hide RowA, ColB, Job.Tiles, Job.Valid, StreamA, StreamB;
    Extents(job);
    in0, in1 := before0, before1;
    NoStream(job, tile);
    if job.aResident { in0 := ReadRow(job, tile, in0); }
    var j := 0;
    while j < cols
      invariant 0 <= j <= cols
      invariant in0 == if job.aResident || j > 0 then before0 + RowA(job, tile) else before0
      invariant in1 == before1 + StreamB(job, tile, tile + j)
    {
      ghost var old1 := in1;
      in0, in1 := ReadColumn(job, tile, j, in0, in1);
      StreamBMore(job, tile, tile + j, tile + j + 1);
      StreamBOne(job, tile + j);
      Associative(before1, StreamB(job, tile, tile + j), ColB(job, tile + j));
      j := j + 1;
    }
  }

  lemma NoStream(job: Job, tile: nat)
    requires job.Valid() && tile <= job.Tiles()
    ensures StreamB(job, tile, tile) == []
  {}

  lemma Extents(job: Job)
    requires job.Valid()
    ensures job.Nt > 0 && job.runWidth > 0 && job.Kt > 0 && (!job.aResident ==> job.runWidth == 1)
  {}

  lemma StreamBOne(job: Job, tile: nat)
    requires job.Valid() && tile < job.Tiles()
    ensures StreamB(job, tile, tile + 1) == ColB(job, tile)
  {
    hide ColB;
    assert StreamB(job, tile + 1, tile + 1) == [];
  }

  lemma Associative<A>(a: seq<A>, b: seq<A>, c: seq<A>)
    ensures (a + b) + c == a + (b + c)
  {}

  // ---- the compute kernel ----

  /// The first row of a slot, and its column group.
  function SlotRow(n: nat): nat { (if n < 16 then 0 else 16) + n % 8 / 2 * 4 }

  function SlotGroup(n: nat): (g: nat)
    ensures g < 4
  {
    (if n % 16 < 8 then 0 else 2) + n % 2
  }

  lemma SlotOfRow(r: nat, g: nat)
    requires r < 32 && g < 4
    ensures SlotRow(Slot(r, g)) == r - SubRowOf(r) && SlotGroup(Slot(r, g)) == g
  {
    QuadSlot(r, g);
  }

  lemma SlotRowBound(n: nat)
    requires n < 32
    ensures SlotRow(n) + 4 <= 32
  {}

  /// A tile transposed in place.
  method TransposeTile(a: Tile) returns (t: Tile)
    ensures IsTransposed(t, a)
  {
    hide At, Slot, Col, SlotRow, SlotGroup, Lane, SubRowOf;
    forall n: nat | n < 32 ensures SlotRow(n) + 4 <= 32 { SlotRowBound(n); }
    var element := (n: nat, h: nat, j: nat) requires n < 32 && h < 4
      && j < 8 => At(a, Col(SlotGroup(n), j), SlotRow(n) + h);
    t := BuildTile(element);
    forall r: nat, c: nat | r < 32 && c < 32 ensures At(t, r, c) == At(a, c, r) {
      ColumnParts(c);
      AtGroup(t, r, GroupOf(c), PlaceOf(c));
      SlotOfRow(r, GroupOf(c));
    }
  }

  function BuildTile(element: (nat, nat, nat) --> Word): (t: Tile)
    requires forall n: nat, h: nat, j: nat :: n < 32 && h < 4 && j < 8 ==> element.requires(n, h, j)
    ensures forall n: nat, h: nat, j: nat :: n < 32 && h < 4 && j < 8 ==> Lane(t[n], h, j) == element(n, h, j)
  {
    seq<Vec>(32, n requires 0 <= n < 32 => BuildVec(n, element))
  }

  function BuildVec(n: nat, element: (nat, nat, nat) --> Word): (v: Vec)
    requires n < 32 && forall h: nat, j: nat :: h < 4 && j < 8 ==> element.requires(n, h, j)
    ensures forall h: nat, j: nat :: h < 4 && j < 8 ==> Lane(v, h, j) == element(n, h, j)
  {
    seq<SubRow>(4, h requires 0 <= h < 4 => BuildSubRow(n, h, element))
  }

  function BuildSubRow(n: nat, h: nat, element: (nat, nat, nat) --> Word): (s: SubRow)
    requires n < 32 && h < 4 && forall j: nat :: j < 8 ==> element.requires(n, h, j)
    ensures forall j: nat :: j < 8 ==> s[j] == element(n, h, j)
  {
    seq(8, j requires 0 <= j < 8 => element(n, h, j))
  }

  /// One output tile from the fronts of the two buffers.
  method ComputeTile(mad: Mad, job: Job, ghost tile: nat, in0: seq<Tile>, in1: seq<Tile>, at0: nat, at1: nat)
    returns (c: Tile, next0: nat, next1: nat)
    requires job.Valid() && tile < job.Tiles()
    requires at0 + job.Kt <= |in0| && in0[at0..at0 + job.Kt] == RowA(job, tile)
    requires at1 + job.Kt <= |in1| && in1[at1..at1 + job.Kt] == ColB(job, tile)
    ensures IsPaddedProduct(mad, job, tile, c)
    ensures next0 == (if job.aResident then at0 else at0 + job.Kt) && next1 == at1 + job.Kt
  {
    hide Dot, At, Skewed, IsTransposed, RowA, ColB, Job.Tiles;
    Extents(job);
    var acc: Tile := Blank();
    next0, next1 := at0, at1;
    var k := 0;
    while k < job.Kt
      invariant 0 <= k <= job.Kt && next1 == at1 + k && next0 == (if job.aResident then at0 else at0 + k)
      invariant k > 0 ==> Skewed(mad, RowA(job, tile), ColB(job, tile), 32 * k, acc)
    {
      var a, b := in0[next0 + (if job.aResident then k else 0)], in1[next1];
      assert a == in0[at0..at0 + job.Kt][k] && b == in1[at1..at1 + job.Kt][k];
      var at := TransposeTile(a);
      acc := CalculateMatmul(mad, k > 0, at, b, acc, RowA(job, tile), ColB(job, tile), k);
      next1 := next1 + 1;
      if !job.aResident { next0 := next0 + 1; }
      k := k + 1;
    }
    c := Finish(mad, RowA(job, tile), ColB(job, tile), 32 * job.Kt, acc, Blank(), Blank());
  }

  /// A buffer, from the entries not popped yet on.
  ghost predicate Ahead<A>(s: seq<A>, at: nat, rest: seq<A>) {
    at <= |s| && s[at..] == rest
  }

  /// The compute kernel consumes what the reader streams and produces the
  /// core's output tiles, in order, each once.
  method Compute(mad: Mad, job: Job, first: nat, num: nat, in0: seq<Tile>, in1: seq<Tile>) returns (out: seq<Tile>)
    requires job.Valid() && first + num <= job.Tiles()
    requires in0 == StreamA(job, first, first + num) && in1 == StreamB(job, first, first + num)
    ensures |out| == num && forall i :: 0 <= i < num ==> IsProduct(mad, job, first + i, out[i])
  {
    hide RowA, ColB, RunCols, Job.Tiles, IsProduct, IsPaddedProduct, Job.Valid, Ahead;
    Extents(job);
    var end := first + num;
    out := [];
    var tile: nat, at0: nat, at1: nat := first, 0, 0;
    WholeAhead(in0);
    WholeAhead(in1);
    while tile < end
      invariant first <= tile <= end && |out| == tile - first
      invariant Ahead(in0, at0, StreamA(job, tile, end)) && Ahead(in1, at1, StreamB(job, tile, end))
      invariant forall i :: 0 <= i < |out| ==> IsProduct(mad, job, first + i, out[i])
    {
      var run;
      run, at0, at1 := ComputeRun(mad, job, tile, end, in0, in1, at0, at1);
      ghost var before := out;
      out := out + run;
      forall i | 0 <= i < |out| ensures IsProduct(mad, job, first + i, out[i]) {
        if i >= |before| { assert out[i] == run[i - |before|]; assert first + i == tile + (i - |before|); }
      }
      tile := tile + |run|;
    }
  }

  lemma WholeAhead<A>(s: seq<A>)
    ensures Ahead(s, 0, s)
  {}

  /// A run's output tiles, over one row of A.
  method ComputeRun(mad: Mad, job: Job, tile: nat, end: nat, in0: seq<Tile>, in1: seq<Tile>, at0: nat, at1: nat)
    returns (run: seq<Tile>, next0: nat, next1: nat)
    requires job.Valid() && tile < end <= job.Tiles()
    requires Ahead(in0, at0, StreamA(job, tile, end)) && Ahead(in1, at1, StreamB(job, tile, end))
    ensures 0 < |run| <= end - tile
    ensures Ahead(in0, next0, StreamA(job, tile + |run|, end)) && Ahead(in1, next1, StreamB(job, tile + |run|, end))
    ensures forall i :: 0 <= i < |run| ==> IsProduct(mad, job, tile + i, run[i])
  {
    hide RowA, ColB, RunCols, Job.Tiles, IsProduct, IsPaddedProduct, Job.Valid, Ahead;
    Extents(job);
    var cols := RunCols(tile, end, job.Nt, job.runWidth);
    Front(in0, at0, RowA(job, tile), StreamA(job, tile + cols, end));
    run, next0, next1 := [], at0, at1;
    var j := 0;
    while j < cols
      invariant 0 <= j <= cols && |run| == j
      invariant next0 == if job.aResident || j == 0 then at0 else at0 + job.Kt
      invariant Ahead(in1, next1, StreamB(job, tile + j, end))
      invariant forall i :: 0 <= i < j ==> IsProduct(mad, job, tile + i, run[i])
    {
      InRun(job, tile, end, cols, j);
      Front(in1, next1, ColB(job, tile + j), StreamB(job, tile + j + 1, end));
      var c;
      c, next0, next1 := ComputeTile(mad, job, tile + j, in0, in1, next0, next1);
      PaddedIsProduct(mad, job, tile + j, c);
      run := run + [c];
      j := j + 1;
    }
    if job.aResident { next0 := next0 + job.Kt; }
  }

  lemma InRun(job: Job, tile: nat, end: nat, cols: nat, j: nat)
    requires job.Valid() && tile < end <= job.Tiles() && cols == RunCols(tile, end, job.Nt, job.runWidth) && j < cols
    ensures tile + j < job.Tiles() && RowA(job, tile + j) == RowA(job, tile)
  {
    hide RowA;
    RunShares(job, tile, j);
  }

  /// A buffer's front.
  lemma Front<A>(s: seq<A>, at: nat, front: seq<A>, rest: seq<A>)
    requires Ahead(s, at, front + rest)
    ensures at + |front| <= |s| && s[at..at + |front|] == front && Ahead(s, at + |front|, rest)
  {
    assert s[at..][..|front|] == front && s[at..][|front|..] == rest;
  }

  /// A core's share: the reader and the compute kernel together.
  method CoreTiles(mad: Mad, job: Job, first: nat, num: nat) returns (out: seq<Tile>)
    requires job.Valid() && first + num <= job.Tiles()
    ensures |out| == num && forall i :: 0 <= i < num ==> IsProductTile(mad, job, first + i, out[i])
  {
    hide IsProduct, IsProductTile, StreamA, StreamB, Job.Tiles, Job.Valid;
    var in0, in1 := Reader(job, first, num);
    out := Compute(mad, job, first, num, in0, in1);
    forall i | 0 <= i < num ensures IsProductTile(mad, job, first + i, out[i]) {
      assert IsProduct(mad, job, first + i, out[i]);
      ProductOfOperands(mad, job, first + i, out[i]);
    }
  }
}
