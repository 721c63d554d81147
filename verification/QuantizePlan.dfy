/// How quantize_rows spreads the row's tiles over cores: the packing, the
/// rectangle of cores and each core's contiguous share of dense tiles.
module QuantizePlan {
  import opened RowMajor
  import opened QuantizePartial

  datatype Plan = Plan(rows: nat, tiles: nat, stride: nat, dense: nat, width: nat, height: nat)
  {
    function Cores(): nat { width * height }
  }

  function StrideOf(rows: nat): (stride: nat)
    ensures IsStride(stride) && (rows <= 32 ==> rows <= stride)
  {
    if rows <= 4 then 4 else if rows <= 8 then 8 else if rows <= 16 then 16 else 32
  }

  /// Cores that the work is worth, at least one.
  function Limit(dense: nat, stride: nat, gridX: nat, gridY: nat): nat {
    var most := Least(Least(dense, if stride <= 8 then 48 else 32), gridX * gridY);
    if most > 1 then most else 1
  }

  /// A rectangle of w by h cores inside the grid that the shares fit.
  predicate Rectangle(w: nat, h: nat, gridX: nat, gridY: nat, shares: nat) {
    0 < w <= gridX && 0 < h <= gridY && w * h >= shares
  }

  /// Shares of at most `per` dense tiles need no more than `limit` cores.
  lemma SharesFit(dense: nat, limit: nat)
    requires dense > 0 && limit > 0
    ensures DivUp(dense, limit) > 0 && 0 < DivUp(dense, DivUp(dense, limit)) <= limit
  {
    DivUpPositive(dense, limit);
    LeastCover(dense, DivUp(dense, limit), limit);
    DivUpPositive(dense, DivUp(dense, limit));
  }

  /// The plan's rectangle fits the shares, none that does is smaller and none of
  /// its size is wider; no core has more dense tiles than under the limit.
  method QuantizeRowsPlan(rows: nat, tiles: nat, gridX: nat, gridY: nat) returns (plan: Plan)
    requires 0 < rows <= 32 && tiles > 0 && gridX > 0 && gridY > 0
    ensures plan.rows == rows && plan.tiles == tiles && plan.stride == StrideOf(rows)
      && plan.dense == DivUp(tiles, PackOf(plan.stride)) > 0
    ensures DivUp(plan.dense, Limit(plan.dense, plan.stride, gridX, gridY)) > 0
    ensures var shares := DivUp(plan.dense, DivUp(plan.dense, Limit(plan.dense, plan.stride, gridX, gridY)));
      && Rectangle(plan.width, plan.height, gridX, gridY, shares)
      && forall w: nat, h: nat :: Rectangle(w, h, gridX, gridY, shares) ==>
        plan.Cores() <= w * h && (w * h == plan.Cores() ==> plan.height <= h)
  {
    var stride := StrideOf(rows);
    var dense := DivUp(tiles, PackOf(stride));
    DivUpPositive(tiles, PackOf(stride));
    var limit := Limit(dense, stride, gridX, gridY);
    SharesFit(dense, limit);
    var perCore := DivUp(dense, limit);
    var shares := DivUp(dense, perCore);
    var width: nat, height: nat := gridX, gridY;
    LimitInGrid(dense, stride, gridX, gridY);
    var h := 1;
    while h <= gridY
      invariant 1 <= h <= gridY + 1 && Rectangle(width, height, gridX, gridY, shares)
      invariant forall u: nat, v: nat :: Rectangle(u, v, gridX, gridY, shares) && v < h ==>
        width * height <= u * v && (u * v == width * height ==> height <= v || (width == gridX && height == gridY))
      invariant height < h || (width == gridX && height == gridY)
    {
      var w := DivUp(shares, h);
      DivUpPositive(shares, h);
      forall u: nat | Rectangle(u, h, gridX, gridY, shares) ensures w <= u && w * h <= u * h {
        LeastCover(shares, h, u);
        MulMonotone(w, u, h);
      }
      if w <= gridX && w * h < width * height {
        width, height := w, h;
      }
      h := h + 1;
    }
    plan := Plan(rows, tiles, stride, dense, width, height);
    if width == gridX && height == gridY {
      forall u: nat, v: nat | Rectangle(u, v, gridX, gridY, shares) && u * v == width * height
        ensures height <= v
      {
        WholeGrid(u, v, gridX, gridY);
      }
    }
  }

  lemma WholeGrid(w: nat, h: nat, gridX: nat, gridY: nat)
    requires w <= gridX && h <= gridY && gridX > 0 && w * h == gridX * gridY
    ensures h == gridY
  {
    MulMonotone(w, gridX, h);
    if h < gridY { MulStrict(h, gridY, gridX); }
  }

  lemma LimitInGrid(dense: nat, stride: nat, gridX: nat, gridY: nat)
    requires gridX > 0 && gridY > 0
    ensures Limit(dense, stride, gridX, gridY) <= gridX * gridY
  {
    MulMonotone(1, gridX, gridY);
  }

  /// The least stride of four, eight, 16 and 32 rows that holds the rows.
  lemma StrideIsLeast(rows: nat, q: nat)
    requires rows <= 32 && IsStride(q) && rows <= q
    ensures StrideOf(rows) <= q
  {}

  /// As many cores as the dense tiles, the grid and, for up to eight rows, 48 and
  /// else 32 allow.
  lemma LimitIsMost(rows: nat, dense: nat, gridX: nat, gridY: nat, n: nat)
    requires 0 < rows <= 32 && dense > 0 && gridX > 0 && gridY > 0
    ensures n <= Limit(dense, StrideOf(rows), gridX, gridY) <==>
      n <= dense && n <= gridX * gridY && n <= if rows <= 8 then 48 else 32
  {
    MulMonotone(1, gridX, gridY);
  }

  // ---- shares ----

  /// Dense tiles of core i, the first ones one more than the others.
  function NumDense(dense: nat, cores: nat, i: nat): nat
    requires cores > 0
  {
    BaseIsNat(dense, cores);
    dense / cores + (if i < dense % cores then 1 else 0)
  }

  function FirstDense(dense: nat, cores: nat, i: nat): nat
    requires cores > 0
  {
    BaseIsNat(dense, cores);
    i * (dense / cores) + Least(i, dense % cores)
  }

  lemma BaseIsNat(dense: nat, cores: nat)
    requires cores > 0
    ensures 0 <= dense / cores
  {}

  /// Shares follow one another and end at the last dense tile.
  lemma SharesInTurn(dense: nat, cores: nat, i: nat)
    requires cores > 0
    ensures FirstDense(dense, cores, 0) == 0 && FirstDense(dense, cores, cores) == dense
    ensures FirstDense(dense, cores, i + 1) == FirstDense(dense, cores, i) + NumDense(dense, cores, i)
  {
    DivMod(dense, cores);
    BaseIsNat(dense, cores);
    MulDistribute(i, 1, dense / cores);
    assert cores * (dense / cores) == (dense / cores) * cores;
  }

  lemma {:induction false} SharesOrdered(dense: nat, cores: nat, i: nat, j: nat)
    requires cores > 0 && i <= j
    ensures FirstDense(dense, cores, i) <= FirstDense(dense, cores, j)
  {
    hide FirstDense, NumDense;
    if i < j {
      SharesOrdered(dense, cores, i, j - 1);
      SharesInTurn(dense, cores, j - 1);
    }
  }

  /// A core gets no more than its even part, rounded up.
  lemma ShareIsEven(dense: nat, cores: nat, i: nat)
    requires cores > 0
    ensures NumDense(dense, cores, i) <= DivUp(dense, cores)
  {
    DivMod(dense, cores);
    var q, n := dense / cores, DivUp(dense, cores);
    if n < q { MulMonotone(n, q - 1, cores); MulDistribute(q - 1, 1, cores); }
    assert n == q ==> q * cores >= dense;
  }

  /// More cores give no larger shares.
  lemma MoreCores(dense: nat, cores: nat, per: nat)
    requires cores > 0 && per > 0 && cores >= DivUp(dense, per)
    ensures DivUp(dense, cores) <= per
  {
    MulMonotone(DivUp(dense, per), cores, per);
    LeastCover(dense, cores, per);
  }

  /// No core of the plan has more dense tiles than the limit's cores would need at best.
  lemma PlanSharesFit(plan: Plan, gridX: nat, gridY: nat, i: nat)
    requires plan.dense > 0 && plan.Cores() > 0
    requires DivUp(plan.dense, Limit(plan.dense, plan.stride, gridX, gridY)) > 0
    requires plan.Cores() >= DivUp(plan.dense, DivUp(plan.dense, Limit(plan.dense, plan.stride, gridX, gridY)))
    ensures NumDense(plan.dense, plan.Cores(), i) <= DivUp(plan.dense, Limit(plan.dense, plan.stride, gridX, gridY))
  {
    hide Limit, NumDense, Plan.Cores;
    ShareIsEven(plan.dense, plan.Cores(), i);
    MoreCores(plan.dense, plan.Cores(), DivUp(plan.dense, Limit(plan.dense, plan.stride, gridX, gridY)));
  }

  /// Input tiles in a core's last dense tile, as the host computes them.
  function LastCount(plan: Plan, i: nat): nat
    requires IsStride(plan.stride) && plan.Cores() > 0
  {
    var pack := PackOf(plan.stride);
    var before := (FirstDense(plan.dense, plan.Cores(), i) + NumDense(plan.dense, plan.Cores(), i) - 1) * pack;
    if plan.tiles - before < 0 then 0 else if plan.tiles - before < pack then plan.tiles - before else pack
  }

  function ShareOf(plan: Plan, i: nat): Share
    requires IsStride(plan.stride) && plan.Cores() > 0
  {
    Share(plan.stride, NumDense(plan.dense, plan.Cores(), i), LastCount(plan, i))
  }

  /// The row's first input tile of core i.
  function FirstTile(plan: Plan, i: nat): nat
    requires IsStride(plan.stride) && plan.Cores() > 0
  {
    Least(FirstDense(plan.dense, plan.Cores(), i) * PackOf(plan.stride), plan.tiles)
  }

  /// Core i's input tiles are those from its first up to the next core's; the
  /// last share ends at the last tile of the row.
  lemma ShareTiles(plan: Plan, i: nat)
    requires IsStride(plan.stride) && plan.Cores() > 0 && plan.tiles > 0
      && plan.dense == DivUp(plan.tiles, PackOf(plan.stride)) && i < plan.Cores()
    ensures ShareOf(plan, i).Valid()
    ensures FirstTile(plan, i) + ShareOf(plan, i).Tiles() == FirstTile(plan, i + 1)
    ensures ShareOf(plan, i).n > 0 ==>
      FirstTile(plan, i) == FirstDense(plan.dense, plan.Cores(), i) * PackOf(plan.stride)
    ensures FirstTile(plan, 0) == 0 && FirstTile(plan, plan.Cores()) == plan.tiles
  {
    hide Plan.Cores, PackOf, FirstDense, NumDense;
    var cores, pack := plan.Cores(), PackOf(plan.stride);
    SharesInTurn(plan.dense, cores, i);
    SharesOrdered(plan.dense, cores, i + 1, cores);
    var first, n := FirstDense(plan.dense, cores, i), NumDense(plan.dense, cores, i);
    if n > 0 { TilesOfShare(plan.tiles, pack, plan.dense, first, n); }
  }

  lemma TilesOfShare(tiles: nat, pack: nat, dense: nat, first: nat, n: nat)
    requires 0 < pack && tiles > 0 && dense == DivUp(tiles, pack) && n > 0 && first + n <= dense
    ensures (first + n - 1) * pack < tiles && first * pack < tiles
    ensures var left := tiles - (first + n - 1) * pack;
      first * pack + ((n - 1) * pack + Least(left, pack)) == Least((first + n) * pack, tiles)
  {
    MulMonotone(first + n - 1, dense - 1, pack);
    MulMonotone(first, first + n - 1, pack);
    MulDistribute(first, n - 1, pack);
    MulDistribute(first + n - 1, 1, pack);
  }
}
