/// The plan of TopK's selection path: how a call's tile rows, rows and columns
/// divide over the cores, and which calls take the path at all.
module TopKPlan {
  import opened RowMajor
  import opened Wrappers
  import opened TopKOrder

  const MAX_K := 64
  const MIN_SEGMENT_TILES := 1
  const MAX_INPUT_BYTES := 128 * 1024
  const MAX_CANDIDATE_BYTES := 64 * 1024
  const READ_BYTES := 64
  const CANDIDATE_BYTES := 8

  function Most(a: nat, b: nat): nat { if a < b then b else a }

  datatype Plan = Plan(tileRows: nat, Ht: nat, height: nat, width: nat, Wt: nat, segments: nat, segmentTiles: nat,
                       rowGroups: nat, rowsPerCore: nat, k: nat)
  {
    function CoresPerTileRow(): nat { segments * rowGroups }

    function Cores(): nat { tileRows * CoresPerTileRow() }

    /// No tile row has more logical rows.
    function Rows(): nat { if Ht == 1 then height else 32 }
  }

  // ---- the division of one tile row ----

  /// Bytes of one list of k candidates.
  function ListBytes(k: nat): (n: nat)
    requires 1 <= k
    ensures n > 0
  {
    ListStride(k) * CANDIDATE_BYTES
  }

  /// How many lists a merging core can hold.
  function ListRoom(k: nat): nat
    requires 1 <= k
  {
    Quotient(MAX_CANDIDATE_BYTES, ListBytes(k))
  }

  /// Cores a row can have to itself.
  function RowShare(perTileRow: nat, rows: nat): (n: nat)
    requires rows > 0
    ensures n * rows <= perTileRow && n <= perTileRow && (perTileRow < rows ==> n == 0)
  {
    DivBound(perTileRow, rows);
    perTileRow / rows
  }

  /// Segments a row is cut into at most: a core per row each, as far as the
  /// columns and the first segment's core's room for candidates go.
  function WantedSegments(perTileRow: nat, rows: nat, Wt: nat, k: nat): (s: nat)
    requires rows > 0 && 1 <= k
    ensures 1 <= s && (perTileRow < rows ==> s == 1)
    ensures perTileRow >= 1 ==> s <= perTileRow
    ensures s > 1 ==> s <= RowShare(perTileRow, rows) && s <= ListRoom(k)
  {
    Most(1, Least(RowShare(perTileRow, rows), Least(DivUp(Wt, MIN_SEGMENT_TILES), ListRoom(k))))
  }

  lemma DivBound(a: nat, b: nat)
    requires b > 0
    ensures (a / b) * b <= a && a / b <= a && (a < b ==> a / b == 0)
  {
    DivMod(a, b);
    if a < b { DivModUnique(a, b, 0, a); }
    if a / b > a { MulMonotone(a + 1, a / b, b); MulMonotone(1, b, a + 1); }
  }

  /// A cut into s pieces of DivUp(n, s) needs no more than s of them.
  lemma PiecesFit(n: nat, s: nat)
    requires n > 0 && s > 0
    ensures DivUp(n, s) > 0
    ensures 0 < DivUp(n, DivUp(n, s)) <= s
    ensures (DivUp(n, DivUp(n, s)) - 1) * DivUp(n, s) < n <= DivUp(n, DivUp(n, s)) * DivUp(n, s)
  {
    var piece := DivUp(n, s);
    if DivUp(n, piece) > s { MulMonotone(s, DivUp(n, piece) - 1, piece); }
  }

  datatype Division = Division(segments: nat, segmentTiles: nat, rowGroups: nat, rowsPerCore: nat)

  /// Bytes of input one core holds.
  function InputOf(d: Division): nat { d.rowsPerCore * d.segmentTiles * 2 * READ_BYTES }

  function Divide(perTileRow: nat, rows: nat, Wt: nat, k: nat): (d: Division)
    requires perTileRow > 0 && rows > 0 && Wt > 0 && 1 <= k
    ensures 0 < d.segments <= perTileRow && 0 < d.rowGroups <= rows && d.segments * d.rowGroups <= perTileRow
    ensures 0 < d.segmentTiles && (d.segments - 1) * d.segmentTiles < Wt <= d.segments * d.segmentTiles
    ensures d.segments <= WantedSegments(perTileRow, rows, Wt, k)
    ensures 0 < d.rowsPerCore == DivUp(rows, d.rowGroups)
  {
    var wanted := WantedSegments(perTileRow, rows, Wt, k);
    PiecesFit(Wt, wanted);
    var segmentTiles := DivUp(Wt, wanted);
    var segments := DivUp(Wt, segmentTiles);
    DivBound(perTileRow, segments);
    DivPositive(perTileRow, segments);
    var rowGroups := Least(rows, perTileRow / segments);
    MulMonotone(rowGroups, perTileRow / segments, segments);
    DivUpPositive(rows, rowGroups);
    Division(segments, segmentTiles, rowGroups, DivUp(rows, rowGroups))
  }

  lemma DivPositive(a: nat, b: nat)
    requires 0 < b <= a
    ensures a / b >= 1
  {
    DivMod(a, b);
    if a / b < 1 { MulMonotone(a / b, 0, b); }
  }

  /// The plan of a call of `slabs` slabs of height by width on so many cores;
  /// none when the call does not take the path.
  function SelectPlan(slabs: nat, height: nat, width: nat, cores: nat, k: nat): (plan: Option<Plan>)
  {
    if k < 1 || k > MAX_K || k > width then None
    else
      var Ht, Wt := DivUp(height, 32), DivUp(width, 32);
      var tileRows := slabs * Ht;
      if tileRows == 0 || tileRows > cores then None
      else if Wt < 32 && (tileRows > 2 || k > 32) then None
      else
        CallSizes(slabs, height, width, cores, k);
        var rows := if Ht == 1 then height else 32;
        var d := Divide(cores / tileRows, rows, Wt, k);
        if InputOf(d) > MAX_INPUT_BYTES then None
        else Some(Plan(tileRows, Ht, height, width, Wt, d.segments, d.segmentTiles, d.rowGroups, d.rowsPerCore, k))
  }

  lemma CallSizes(slabs: nat, height: nat, width: nat, cores: nat, k: nat)
    requires 1 <= k <= width && 0 < slabs * DivUp(height, 32) <= cores
    ensures height > 0 && DivUp(width, 32) > 0 && cores / (slabs * DivUp(height, 32)) > 0
  {
    PositiveFactors(slabs, DivUp(height, 32), 0);
    DivUpPositive(width, 32);
    DivPositive(cores, slabs * DivUp(height, 32));
  }

  // ---- which core takes what ----

  function TileRowOf(plan: Plan, core: nat): nat
    requires plan.CoresPerTileRow() > 0
  {
    core / plan.CoresPerTileRow()
  }

  function SegmentOf(plan: Plan, core: nat): nat
    requires plan.CoresPerTileRow() > 0 && plan.rowGroups > 0
  {
    core % plan.CoresPerTileRow() / plan.rowGroups
  }

  function GroupOf(plan: Plan, core: nat): nat
    requires plan.CoresPerTileRow() > 0 && plan.rowGroups > 0
  {
    core % plan.CoresPerTileRow() % plan.rowGroups
  }

  /// The core selects row r of tile row T over column tile t: the row is one of
  /// its group's, the tile one of its segment's.
  predicate Takes(plan: Plan, core: nat, T: nat, r: nat, t: nat)
    requires plan.CoresPerTileRow() > 0 && plan.rowGroups > 0
  {
    && TileRowOf(plan, core) == T && r % plan.rowGroups == GroupOf(plan, core)
    && SegmentOf(plan, core) * plan.segmentTiles <= t < SegmentOf(plan, core) * plan.segmentTiles + plan.segmentTiles
  }

  function WorkerFor(plan: Plan, r: nat, t: nat): nat
    requires plan.rowGroups > 0 && plan.segmentTiles > 0
  {
    Quotient(t, plan.segmentTiles) * plan.rowGroups + r % plan.rowGroups
  }

  function CoreFor(plan: Plan, T: nat, r: nat, t: nat): nat
    requires plan.rowGroups > 0 && plan.segmentTiles > 0
  {
    T * plan.CoresPerTileRow() + WorkerFor(plan, r, t)
  }

  ghost predicate Sound(plan: Plan) {
    && plan.tileRows > 0 && plan.segments > 0 && plan.rowGroups > 0 && plan.segmentTiles > 0
       && plan.CoresPerTileRow() > 0
    && (plan.segments - 1) * plan.segmentTiles < plan.Wt <= plan.segments * plan.segmentTiles
  }

  lemma PlanIsSound(slabs: nat, height: nat, width: nat, cores: nat, k: nat)
    requires SelectPlan(slabs, height, width, cores, k).Some?
    ensures Sound(SelectPlan(slabs, height, width, cores, k).value)
  {
    var plan := SelectPlan(slabs, height, width, cores, k).value;
    MulMonotone(1, plan.segments, plan.rowGroups);
  }

  /// Every row of every column tile of every tile row is one core's, and no other's.
  lemma OneCoreEach(plan: Plan, T: nat, r: nat, t: nat, core: nat)
    requires Sound(plan) && T < plan.tileRows && t < plan.Wt
    ensures CoreFor(plan, T, r, t) < plan.Cores()
    ensures Takes(plan, core, T, r, t) <==> core == CoreFor(plan, T, r, t)
  {
    hide Plan.CoresPerTileRow;
    var per, groups, s, g := plan.CoresPerTileRow(), plan.rowGroups, t / plan.segmentTiles, r % plan.rowGroups;
    SegmentInRange(plan, t);
    DivMod(r, groups);
    WorkerBound(plan, s, g);
    MulStrict(T, plan.tileRows, per);
    var mine := CoreFor(plan, T, r, t);
    DivModUnique(mine, per, T, s * groups + g);
    DivModUnique(s * groups + g, groups, s, g);
    DivMod(t, plan.segmentTiles);
    if Takes(plan, core, T, r, t) {
      DivMod(core, per);
      DivMod(core % per, groups);
      DivModUnique(t, plan.segmentTiles, SegmentOf(plan, core), t - SegmentOf(plan, core) * plan.segmentTiles);
    }
  }

  lemma SegmentInRange(plan: Plan, t: nat)
    requires Sound(plan) && t < plan.Wt
    ensures t / plan.segmentTiles < plan.segments
  {
    DivMod(t, plan.segmentTiles);
    if t / plan.segmentTiles >= plan.segments { MulMonotone(plan.segments, t / plan.segmentTiles, plan.segmentTiles); }
  }

  lemma WorkerBound(plan: Plan, s: nat, g: nat)
    requires s < plan.segments && g < plan.rowGroups
    ensures s * plan.rowGroups + g < plan.CoresPerTileRow()
  {
    MulStrict(s, plan.segments, plan.rowGroups);
  }

  /// Every core has a segment with tiles in it.
  lemma NoSegmentEmpty(plan: Plan, core: nat)
    requires Sound(plan)
    ensures SegmentOf(plan, core) < plan.segments && SegmentOf(plan, core) * plan.segmentTiles < plan.Wt
  {
    hide Plan.CoresPerTileRow;
    DivMod(core, plan.CoresPerTileRow());
    var worker := core % plan.CoresPerTileRow();
    DivMod(worker, plan.rowGroups);
    if worker / plan.rowGroups >= plan.segments {
      MulMonotone(plan.segments, worker / plan.rowGroups, plan.rowGroups);
      CoresAre(plan);
    }
    MulMonotone(SegmentOf(plan, core), plan.segments - 1, plan.segmentTiles);
  }

  lemma CoresAre(plan: Plan)
    ensures plan.CoresPerTileRow() == plan.segments * plan.rowGroups
  {}

  /// A core's rows fit the rows its buffers are sized for.
  lemma RowsFit(plan: Plan, rows: nat, r: nat)
    requires plan.rowGroups > 0 && r < rows && plan.rowsPerCore == DivUp(rows, plan.rowGroups)
    ensures r / plan.rowGroups < plan.rowsPerCore
  {
    DivMod(r, plan.rowGroups);
    if r / plan.rowGroups >= plan.rowsPerCore { MulMonotone(plan.rowsPerCore, r / plan.rowGroups, plan.rowGroups); }
  }

  // ---- cores and memory ----

  function InputBytes(plan: Plan): nat {
    InputOf(Division(plan.segments, plan.segmentTiles, plan.rowGroups, plan.rowsPerCore))
  }

  /// What a merging core holds: a list for each of its rows and every segment.
  function CandidateBytes(plan: Plan): nat
    requires 1 <= plan.k
  {
    if plan.segments > 1 then plan.rowsPerCore * plan.segments * ListBytes(plan.k) else 64
  }

  /// With cores to spare, every row has a core of its own in each segment.
  lemma SpareCores(perTileRow: nat, rows: nat, Wt: nat, k: nat)
    requires perTileRow >= rows > 0 && Wt > 0 && 1 <= k
    ensures Divide(perTileRow, rows, Wt, k).rowsPerCore == 1
  {
    var d := Divide(perTileRow, rows, Wt, k);
    DivisionParts(perTileRow, rows, Wt, k);
    hide Divide, RowShare, WantedSegments;
    if d.segments > 1 { MulMonotone(d.segments, RowShare(perTileRow, rows), rows); }
    DivAtLeast(perTileRow, d.segments, rows);
    DivUpOne(rows);
  }

  lemma DivisionParts(perTileRow: nat, rows: nat, Wt: nat, k: nat)
    requires perTileRow > 0 && rows > 0 && Wt > 0 && 1 <= k
    ensures var d := Divide(perTileRow, rows, Wt, k);
      && d.segmentTiles == DivUp(Wt, WantedSegments(perTileRow, rows, Wt, k)) && d.segments == DivUp(Wt, d.segmentTiles)
      && d.rowGroups == Least(rows, perTileRow / d.segments) && d.rowsPerCore == DivUp(rows, d.rowGroups)
  {
    hide WantedSegments, DivUp;
  }

  lemma DivAtLeast(a: nat, b: nat, q: nat)
    requires b > 0 && q * b <= a
    ensures q <= a / b
  {
    DivMod(a, b);
    if a / b < q { MulMonotone(a / b + 1, q, b); }
  }

  lemma DivUpOne(a: nat)
    requires a > 0
    ensures DivUp(a, a) == 1
  {
    var q := DivUp(a, a);
    if q > 1 { MulMonotone(1, q - 1, a); }
    if q < 1 { MulMonotone(q, 0, a); }
  }

  lemma ManySegments(perTileRow: nat, rows: nat, Wt: nat, k: nat)
    requires perTileRow > 0 && rows > 0 && Wt > 0 && 1 <= k && Divide(perTileRow, rows, Wt, k).segments > 1
    ensures perTileRow >= rows
    ensures Divide(perTileRow, rows, Wt, k).segments <= ListRoom(k)
  {
    hide Divide, WantedSegments, RowShare, ListRoom;
  }

  /// An accepted plan stays within the grid's cores and the buffers' budgets.
  lemma PlanFits(slabs: nat, height: nat, width: nat, cores: nat, k: nat)
    requires SelectPlan(slabs, height, width, cores, k).Some?
    ensures 1 <= SelectPlan(slabs, height, width, cores, k).value.k
    ensures SelectPlan(slabs, height, width, cores, k).value.Cores() <= cores
    ensures InputBytes(SelectPlan(slabs, height, width, cores, k).value) <= MAX_INPUT_BYTES
    ensures CandidateBytes(SelectPlan(slabs, height, width, cores, k).value) <= MAX_CANDIDATE_BYTES
    ensures SelectPlan(slabs, height, width, cores, k).value.rowsPerCore
         == DivUp(SelectPlan(slabs, height, width, cores, k).value.Rows(),
           SelectPlan(slabs, height, width, cores, k).value.rowGroups)
  {
    var plan := SelectPlan(slabs, height, width, cores, k).value;
    var perTileRow, rows := cores / plan.tileRows, plan.Rows();
    hide SelectPlan;
    PlanDivision(slabs, height, width, cores, k);
    DivBound(cores, plan.tileRows);
    MulMonotone(plan.CoresPerTileRow(), perTileRow, plan.tileRows);
    if plan.segments > 1 {
      ManySegments(perTileRow, rows, plan.Wt, k);
      SpareCores(perTileRow, rows, plan.Wt, k);
      hide Divide;
      DivBound(MAX_CANDIDATE_BYTES, ListBytes(k));
      MulMonotone(plan.segments, ListRoom(k), ListBytes(k));
    }
  }

  lemma PlanDivision(slabs: nat, height: nat, width: nat, cores: nat, k: nat)
    requires SelectPlan(slabs, height, width, cores, k).Some?
    ensures
      var plan := SelectPlan(slabs, height, width, cores, k).value;
      && 1 <= k == plan.k && plan.tileRows > 0 && plan.Rows() > 0 && plan.Wt > 0 && cores / plan.tileRows > 0
      && Divide(cores / plan.tileRows, plan.Rows(), plan.Wt, k)
         == Division(plan.segments, plan.segmentTiles, plan.rowGroups, plan.rowsPerCore)
      && InputBytes(plan) <= MAX_INPUT_BYTES
  {
    hide Divide;
    var Ht := DivUp(height, 32);
    CallSizes(slabs, height, width, cores, k);
  }

  lemma SlotFits(groups: nat, rows: nat, group: nat, slot: nat)
    requires groups > 0 && group + slot * groups < rows
    ensures slot < DivUp(rows, groups)
  {
    if slot >= DivUp(rows, groups) { MulMonotone(DivUp(rows, groups), slot, groups); }
  }

  lemma ReadEnd(slot: nat, tiles: nat, t: nat, half: nat, slots: nat, segmentTiles: nat)
    requires slot < slots && t < tiles <= segmentTiles && half < 2
    ensures ((slot * tiles + t) * 2 + half) * 64 + 64 <= slots * segmentTiles * 2 * 64
  {
    MulStrict(slot, slots, tiles);
    MulMonotone(tiles, segmentTiles, slots);
  }

  /// The 64 bytes a core reads for half of a tile's row, of its slot-th row and
  /// t-th tile, end within the input budget.
  lemma ReadsFit(slabs: nat, height: nat, width: nat, cores: nat, k: nat, plan: Plan,
                 group: nat, slot: nat, tiles: nat, t: nat, half: nat)
    requires SelectPlan(slabs, height, width, cores, k) == Some(plan) && half < 2
    requires group + slot * plan.rowGroups < plan.Rows() && t < tiles <= plan.segmentTiles
    ensures ((slot * tiles + t) * 2 + half) * 64 + 64 <= 128 * 1024
  {
    hide SelectPlan, DivUp;
    PlanFits(slabs, height, width, cores, k);
    PlanIsSound(slabs, height, width, cores, k);
    SlotFits(plan.rowGroups, plan.Rows(), group, slot);
    ReadEnd(slot, tiles, t, half, plan.rowsPerCore, plan.segmentTiles);
  }

  lemma ListEnd(slot: nat, segment: nat, slots: nat, segments: nat, bytes: nat)
    requires slot < slots && segment < segments
    ensures (slot * segments + segment) * bytes + bytes <= slots * segments * bytes
  {
    MulStrict(slot, slots, segments);
    MulStrict(slot * segments + segment, slots * segments, bytes);
  }

  /// The list of 8-byte candidates, made even in number, that a segment sends for
  /// a row ends within the candidate budget.
  lemma ListsFit(slabs: nat, height: nat, width: nat, cores: nat, k: nat, plan: Plan,
                 group: nat, slot: nat, segment: nat, stride: nat)
    requires SelectPlan(slabs, height, width, cores, k) == Some(plan)
    requires k <= stride <= k + 1 && stride % 2 == 0
    requires plan.segments > 1 && group + slot * plan.rowGroups < plan.Rows() && segment < plan.segments
    ensures (slot * plan.segments + segment) * (stride * 8) + stride * 8 <= 64 * 1024
  {
    PlanDivision(slabs, height, width, cores, k);
    hide SelectPlan, DivUp, Divide;
    PlanFits(slabs, height, width, cores, k);
    PlanIsSound(slabs, height, width, cores, k);
    SlotFits(plan.rowGroups, plan.Rows(), group, slot);
    ListBytesAre(k, stride);
    hide ListBytes;
    ListEnd(slot, segment, plan.rowsPerCore, plan.segments, stride * 8);
  }

  lemma ListBytesAre(k: nat, stride: nat)
    requires 1 <= k <= stride <= k + 1 && stride % 2 == 0
    ensures ListBytes(k) == stride * 8
  {}

  // ---- the best division ----

  /// A row can be cut so when every piece has a core of its own for each row and
  /// at least a tile, and the lists of all pieces fit one core.
  predicate CanCut(perTileRow: nat, rows: nat, Wt: nat, stride: nat, s: nat) {
    s == 1 || (0 < s <= Wt && s * rows <= perTileRow && s * (stride * 8) <= 64 * 1024)
  }

  lemma RoomIs(k: nat, stride: nat, s: nat)
    requires 1 <= k <= stride <= k + 1 && stride % 2 == 0
    ensures s <= ListRoom(k) <==> s * (stride * 8) <= 64 * 1024
  {
    ListBytesAre(k, stride);
    DivMod(MAX_CANDIDATE_BYTES, ListBytes(k));
    if s <= ListRoom(k) { MulMonotone(s, ListRoom(k), stride * 8); }
    else { MulMonotone(ListRoom(k) + 1, s, stride * 8); }
  }

  lemma ShareIs(perTileRow: nat, rows: nat, s: nat)
    requires rows > 0
    ensures s <= RowShare(perTileRow, rows) <==> s * rows <= perTileRow
  {
    DivMod(perTileRow, rows);
    if s <= RowShare(perTileRow, rows) { MulMonotone(s, RowShare(perTileRow, rows), rows); }
    else { MulMonotone(RowShare(perTileRow, rows) + 1, s, rows); }
  }

  lemma OneTileEach(Wt: nat)
    ensures DivUp(Wt, MIN_SEGMENT_TILES) == Wt
  {}

  /// A row is to be cut into as many segments as it can be.
  lemma WantedIsMost(perTileRow: nat, rows: nat, Wt: nat, k: nat, stride: nat, s: nat)
    requires rows > 0 && Wt > 0 && 1 <= k <= stride <= k + 1 && stride % 2 == 0
    ensures CanCut(perTileRow, rows, Wt, stride, WantedSegments(perTileRow, rows, Wt, k))
    ensures CanCut(perTileRow, rows, Wt, stride, s) ==> s <= WantedSegments(perTileRow, rows, Wt, k)
  {
    var wanted := WantedSegments(perTileRow, rows, Wt, k);
    RoomIs(k, stride, wanted);
    RoomIs(k, stride, s);
    ShareIs(perTileRow, rows, wanted);
    ShareIs(perTileRow, rows, s);
    OneTileEach(Wt);
    hide RowShare, ListRoom, DivUp;
  }

  /// Segments as narrow as that many allow, no more of them than the tiles need,
  /// as many groups of rows as the cores and the rows allow.
  lemma DivisionIsBest(perTileRow: nat, rows: nat, Wt: nat, k: nat, n: nat)
    requires perTileRow > 0 && rows > 0 && Wt > 0 && 1 <= k
    ensures var d, wanted := Divide(perTileRow, rows, Wt, k), WantedSegments(perTileRow, rows, Wt, k);
      && (n * wanted >= Wt <==> d.segmentTiles <= n) && (n * d.segmentTiles >= Wt <==> d.segments <= n)
      && (n <= rows && n * d.segments <= perTileRow <==> n <= d.rowGroups)
      && (n * d.rowGroups >= rows <==> d.rowsPerCore <= n)
  {
    var wanted := WantedSegments(perTileRow, rows, Wt, k);
    var d := Divide(perTileRow, rows, Wt, k);
    hide WantedSegments, Divide;
    DivisionParts(perTileRow, rows, Wt, k);
    LeastCover(Wt, wanted, n);
    LeastCover(Wt, d.segmentTiles, n);
    LeastCover(rows, d.rowGroups, n);
    MostIn(perTileRow, d.segments, n);
  }

  lemma MostIn(a: nat, b: nat, n: nat)
    requires b > 0
    ensures n * b <= a <==> n <= a / b
  {
    DivMod(a, b);
    if n <= a / b { MulMonotone(n, a / b, b); } else { MulMonotone(a / b + 1, n, b); }
  }

  /// Which calls take the path: k no more than 64 and the width, a core for every
  /// tile row, a width the sort does not serve better, and the division's input in
  /// 128 KB.
  lemma AcceptedExactly(slabs: nat, height: nat, width: nat, cores: nat, k: nat)
    ensures SelectPlan(slabs, height, width, cores, k).Some? <==>
      && 1 <= k <= 64 && k <= width && 0 < slabs * DivUp(height, 32) <= cores
      && (width > 31 * 32 || (slabs * DivUp(height, 32) <= 2 && k <= 32))
      && height > 0 && cores / (slabs * DivUp(height, 32)) > 0 && DivUp(width, 32) > 0
      && var rows := if height <= 32 then height else 32;
        var d := Divide(cores / (slabs * DivUp(height, 32)), rows, DivUp(width, 32), k);
        d.rowsPerCore * d.segmentTiles <= 1024
  {
    hide Divide, DivUp;
    if 1 <= k <= width && 0 < slabs * DivUp(height, 32) <= cores {
      CallSizes(slabs, height, width, cores, k);
      LeastCover(width, 32, 31);
      LeastCover(height, 32, 1);
      DivUpPositive(height, 32);
    }
  }

  // ---- a larger k is accepted less often ----

  lemma StrideGrows(small: nat, k: nat)
    requires 1 <= small <= k
    ensures 0 < ListStride(small) <= ListStride(k)
  {}

  lemma DivShrinks(n: nat, a: nat, b: nat)
    requires 0 < a <= b
    ensures n / b <= n / a
  {
    DivMod(n, a);
    DivMod(n, b);
    if n / b > n / a {
      MulMonotone(a, b, n / b);
      MulMonotone(n / a + 1, n / b, a);
    }
  }

  lemma DivUpShrinks(n: nat, a: nat, b: nat)
    requires 0 < a <= b && n > 0
    ensures DivUp(n, b) <= DivUp(n, a)
  {
    if DivUp(n, b) > DivUp(n, a) {
      MulMonotone(DivUp(n, a), DivUp(n, b) - 1, b);
      MulMonotone(a, b, DivUp(n, a));
    }
  }

  lemma WantedGrows(perTileRow: nat, rows: nat, Wt: nat, small: nat, k: nat)
    requires rows > 0 && 1 <= small <= k
    ensures WantedSegments(perTileRow, rows, Wt, k) <= WantedSegments(perTileRow, rows, Wt, small)
  {
    hide RowShare, DivUp;
    StrideGrows(small, k);
    DivShrinks(MAX_CANDIDATE_BYTES, ListBytes(small), ListBytes(k));
  }

  /// With fewer cores than rows there is one segment, whatever k.
  lemma FewCores(perTileRow: nat, rows: nat, Wt: nat, k: nat)
    requires 0 < perTileRow < rows && Wt > 0 && 1 <= k
    ensures Divide(perTileRow, rows, Wt, k).segments == 1
  {
    hide Divide, WantedSegments;
  }

  /// A smaller k leaves a core no more input to hold.
  lemma InputShrinks(perTileRow: nat, rows: nat, Wt: nat, small: nat, k: nat)
    requires perTileRow > 0 && rows > 0 && Wt > 0 && 1 <= small <= k
    ensures Divide(perTileRow, rows, Wt, small).segmentTiles <= Divide(perTileRow, rows, Wt, k).segmentTiles
    ensures Divide(perTileRow, rows, Wt, small).rowsPerCore == Divide(perTileRow, rows, Wt, k).rowsPerCore
  {
    hide Divide, WantedSegments, DivUp;
    DivisionParts(perTileRow, rows, Wt, small);
    DivisionParts(perTileRow, rows, Wt, k);
    WantedGrows(perTileRow, rows, Wt, small, k);
    DivUpShrinks(Wt, WantedSegments(perTileRow, rows, Wt, k), WantedSegments(perTileRow, rows, Wt, small));
    if perTileRow >= rows {
      SpareCores(perTileRow, rows, Wt, small);
      SpareCores(perTileRow, rows, Wt, k);
    } else {
      FewCores(perTileRow, rows, Wt, small);
      FewCores(perTileRow, rows, Wt, k);
    }
  }

  /// A call whose plan is accepted with k is accepted with every smaller k.
  lemma AcceptedForSmaller(slabs: nat, height: nat, width: nat, cores: nat, small: nat, k: nat)
    requires 1 <= small <= k && SelectPlan(slabs, height, width, cores, k).Some?
    ensures SelectPlan(slabs, height, width, cores, small).Some?
  {
    hide Divide, DivUp, InputOf;
    CallSizes(slabs, height, width, cores, k);
    var Ht, Wt := DivUp(height, 32), DivUp(width, 32);
    var rows := if Ht == 1 then height else 32;
    InputShrinks(cores / (slabs * Ht), rows, Wt, small, k);
    InputGrows(Divide(cores / (slabs * Ht), rows, Wt, small), Divide(cores / (slabs * Ht), rows, Wt, k));
  }

  lemma InputGrows(a: Division, b: Division)
    requires a.segmentTiles <= b.segmentTiles && a.rowsPerCore == b.rowsPerCore
    ensures InputOf(a) <= InputOf(b)
  {
    MulMonotone(a.segmentTiles, b.segmentTiles, a.rowsPerCore);
  }
}
