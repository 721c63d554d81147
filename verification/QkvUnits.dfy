/// The work units of the fused QKV split: which rows and tiles of the padded
/// outputs each unit writes, and that they are an exact cover.
module QkvUnits {
  import opened RowMajor

  /// Heads per unit.
  const GROUP: nat := 8

  datatype Kind = Q | K | V

  /// The counts a call has: tokens, heads of both sorts, tiles of a head and of a
  /// row of the q output. A q head takes `headStride` heads' room in a QKV row.
  datatype Job = Job(tokens: nat, qHeads: nat, kvHeads: nat, headTiles: nat, qTiles: nat, headStride: nat)
  {
    ghost predicate Valid() {
      tokens > 0 && qHeads > 0 && 0 < kvHeads <= 32 && 0 < headTiles <= qTiles && (headStride == 1 || headStride == 2)
    }

    function QStride(): nat { headStride * headTiles }

    /// Tile rows of a token in the q output.
    function QRows(): nat { DivUp(qHeads, 32) }

    function QOutTiles(): nat { tokens * QRows() * qTiles }

    function KvOutTiles(): nat { tokens * (2 * headTiles) }

    function QUnits(): nat { DivUp(qHeads, GROUP) }

    function KvUnits(): nat { DivUp(kvHeads, GROUP) }

    function PerToken(): nat { QUnits() + 2 * KvUnits() }

    function Units(): nat { tokens * PerToken() }
  }

  datatype Unit = Unit(kind: Kind, token: nat, sourceTile: nat, sourceStride: nat, heads: nat, firstTile: nat,
                       firstRow: nat, zeroRowsFrom: nat, zeroTiles: nat)

  function RoundUp(value: nat, step: nat): nat
    requires step > 0
  {
    DivUp(value, step) * step
  }

  /// The unit of q heads h on.
  function QUnit(job: Job, b: nat, h: nat): Unit
    requires h < job.qHeads && job.headTiles <= job.qTiles
  {
    var row := h % 32;
    QHeadsLeft(h);
    var rows := Least(32, job.qHeads - h / 32 * 32);
    Unit(Q, b, h * job.QStride(), job.QStride(), Least(GROUP, job.qHeads - h), (b * job.QRows() + h / 32) * job.qTiles,
      row,
         if row == 0 then RoundUp(rows, GROUP) else 32, if row == 0 then job.qTiles - job.headTiles else 0)
  }

  lemma QHeadsLeft(h: nat)
    ensures h / 32 * 32 <= h
  {}

  /// The unit of k or v heads h on.
  function KvUnit(job: Job, b: nat, h: nat, v: bool): Unit
    requires h < job.kvHeads
  {
    Unit(if v then V else K, b, job.qHeads * job.QStride()
      + ((if v then job.kvHeads else 0) + h) * job.headTiles, job.headTiles,
         Least(GROUP, job.kvHeads - h), b * (2 * job.headTiles) + (if v then job.headTiles else 0), h,
         if h == 0 then RoundUp(job.kvHeads, GROUP) else 32, 0)
  }

  // ---- the host's list ----

  /// A token's units: its q groups, then its k and v groups in turn.
  function TokenUnits(job: Job, b: nat, n: nat): (units: seq<Unit>)
    requires job.Valid() && n <= job.PerToken()
    ensures |units| == n
  {
    if n == 0 then [] else TokenUnits(job, b, n - 1) + [TokenUnit(job, b, n - 1)]
  }

  function TokenUnit(job: Job, b: nat, i: nat): Unit
    requires job.Valid() && i < job.PerToken()
  {
    GroupHeads(job.qHeads, i);
    GroupHeads(job.kvHeads, (i - job.QUnits()) / 2);
    if i < job.QUnits() then QUnit(job, b, i * GROUP)
    else KvUnit(job, b, (i - job.QUnits()) / 2 * GROUP, (i - job.QUnits()) % 2 == 1)
  }

  lemma GroupHeads(heads: nat, i: int)
    ensures 0 <= i < DivUp(heads, GROUP) ==> i * GROUP < heads
  {
    if 0 <= i < DivUp(heads, GROUP) { MulMonotone(i, DivUp(heads, GROUP) - 1, GROUP); }
  }

  function UnitsOf(job: Job, tokens: nat): (units: seq<Unit>)
    requires job.Valid()
    ensures |units| == tokens * job.PerToken()
  {
    if tokens == 0 then [] else
      MulDistribute(tokens - 1, 1, job.PerToken());
      UnitsOf(job, tokens - 1) + TokenUnits(job, tokens - 1, job.PerToken())
  }

  /// The host's loops make those units, in that order.
  method BuildUnits(job: Job) returns (units: seq<Unit>)
    requires job.Valid()
    ensures units == UnitsOf(job, job.tokens)
  {
    hide TokenUnit, Job.QUnits, Job.KvUnits;
    units := [];
    var b := 0;
    while b < job.tokens
      invariant 0 <= b <= job.tokens && units == UnitsOf(job, b)
    {
      ghost var before := units;
      units := PushQ(job, b, units);
      units := PushKv(job, b, units, before);
      b := b + 1;
    }
  }

  method PushQ(job: Job, b: nat, before: seq<Unit>) returns (units: seq<Unit>)
    requires job.Valid()
    ensures units == before + TokenUnits(job, b, job.QUnits())
  {
    hide QUnit, KvUnit;
    units := before;
    var h: nat := 0;
    ghost var i: nat := 0;
    while h < job.qHeads
      invariant h == i * GROUP && i <= job.QUnits() && units == before + TokenUnits(job, b, i)
    {
      GroupCount(job.qHeads, i);
      units := units + [QUnit(job, b, h)];
      assert TokenUnits(job, b, i + 1) == TokenUnits(job, b, i) + [TokenUnit(job, b, i)];
      h := h + GROUP;
      i := i + 1;
    }
    GroupCount(job.qHeads, i);
  }

  method PushKv(job: Job, b: nat, before: seq<Unit>, ghost start: seq<Unit>) returns (units: seq<Unit>)
    requires job.Valid() && before == start + TokenUnits(job, b, job.QUnits())
    ensures units == start + TokenUnits(job, b, job.PerToken())
  {
    hide QUnit, KvUnit;
    units := before;
    var h: nat := 0;
    ghost var g: nat := 0;
    while h < job.kvHeads
      invariant h == g * GROUP && g <= job.KvUnits() && units == start + TokenUnits(job, b, job.QUnits() + 2 * g)
    {
      GroupCount(job.kvHeads, g);
      ghost var u := job.QUnits() + 2 * g;
      PairOf(g);
      units := units + [KvUnit(job, b, h, false)];
      assert TokenUnits(job, b, u + 1) == TokenUnits(job, b, u) + [TokenUnit(job, b, u)];
      units := units + [KvUnit(job, b, h, true)];
      assert TokenUnits(job, b, u + 2) == TokenUnits(job, b, u + 1) + [TokenUnit(job, b, u + 1)];
      h := h + GROUP;
      g := g + 1;
    }
    GroupCount(job.kvHeads, g);
  }

  lemma GroupCount(heads: nat, i: nat)
    ensures i * GROUP < heads <==> i < DivUp(heads, GROUP)
  {
    GroupHeads(heads, i);
  }

  lemma PairOf(g: nat)
    ensures 2 * g / 2 == g && 2 * g % 2 == 0 && (2 * g + 1) / 2 == g && (2 * g + 1) % 2 == 1
  {}

  /// Unit i of token b in the list.
  lemma {:induction false} UnitIn(job: Job, tokens: nat, b: nat, i: nat)
    requires job.Valid() && b < tokens && i < job.PerToken()
    ensures b * job.PerToken() + i < tokens * job.PerToken()
    ensures UnitsOf(job, tokens)[b * job.PerToken() + i] == TokenUnit(job, b, i)
  {
    hide TokenUnit, Job.PerToken;
    MulStrict(b, tokens, job.PerToken());
    MulDistribute(tokens - 1, 1, job.PerToken());
    if b < tokens - 1 {
      UnitIn(job, tokens - 1, b, i);
    } else {
      TokenUnitIs(job, b, job.PerToken(), i);
    }
  }

  lemma {:induction false} TokenUnitIs(job: Job, b: nat, n: nat, i: nat)
    requires job.Valid() && i < n <= job.PerToken()
    ensures TokenUnits(job, b, n)[i] == TokenUnit(job, b, i)
  {
    if i < n - 1 { TokenUnitIs(job, b, n - 1, i); }
  }

  // ---- what a unit writes ----

  datatype Role = HeadRow | ZeroRow | ZeroTile | Elsewhere

  /// What a unit writes in row r of output tile p.
  function RoleOf(job: Job, u: Unit, p: nat, r: nat): Role {
    if u.firstTile <= p < u.firstTile + job.headTiles then
      if u.firstRow <= r < u.firstRow + GROUP then HeadRow else if r >= u.zeroRowsFrom then ZeroRow else Elsewhere
    else if u.firstTile + job.headTiles <= p < u.firstTile + job.headTiles + u.zeroTiles then ZeroTile else Elsewhere
  }

  /// Row r of tile p of one of the outputs is among the unit's writes.
  predicate Covers(job: Job, u: Unit, isQ: bool, p: nat, r: nat) {
    (u.kind == Q <==> isQ) && RoleOf(job, u, p, r) != Elsewhere
  }

  /// Rows that the groups of some heads cover.
  function GroupRows(heads: nat): nat { RoundUp(heads, GROUP) }

  lemma GroupRowsAre(heads: nat, g: nat)
    ensures GroupRows(heads) >= heads && (g * GROUP < heads <==> g * GROUP + GROUP <= GroupRows(heads))
      && (heads <= 32 ==> GroupRows(heads) <= 32)
    ensures g * GROUP < GroupRows(heads) <==> g * GROUP < heads
  {
    GroupCount(heads, g);
    if heads <= 32 { GroupCount(heads, 4); }
  }

  // ---- the q output ----

  /// Heads in tile row tr of a token.
  function HeadsIn(job: Job, tr: nat): nat { if job.qHeads < tr * 32 then 0 else Least(32, job.qHeads - tr * 32) }

  /// Which of a token's q units writes row r of a tile in column tc of tile row tr.
  function QGroup(job: Job, tr: nat, tc: nat, r: nat): nat {
    4 * tr + (if tc < job.headTiles && r < GroupRows(HeadsIn(job, tr)) then r / GROUP else 0)
  }

  lemma GroupPlace(i: nat)
    ensures i * GROUP / 32 == i / 4 && i * GROUP % 32 == i % 4 * GROUP
  {}

  /// A q unit's part, by its tile row and its place in it.
  lemma QPart(job: Job, b: nat, i: nat, row: nat, tc: nat, r: nat)
    requires job.Valid() && i < job.QUnits() && i * GROUP < job.qHeads && tc < job.qTiles && r < 32
    ensures Covers(job, QUnit(job, b, i * GROUP), true, row * job.qTiles + tc, r)
        <==> row == b * job.QRows() + i / 4 && (if tc >= job.headTiles then i % 4 == 0
          else (i % 4 * GROUP <= r < i % 4 * GROUP + GROUP) || (i % 4 == 0 && r >= GroupRows(HeadsIn(job, i / 4))))
  {
    GroupPlace(i);
    QHeadsLeft(i * GROUP);
    hide Job.QRows, RoundUp;
    var first := b * job.QRows() + i / 4;
    assert QUnit(job, b, i * GROUP).firstTile == first * job.qTiles;
    if row < first { MulStrict(row, first, job.qTiles); }
    if first < row { MulStrict(first, row, job.qTiles); }
    GroupRowsAre(HeadsIn(job, i / 4), 0);
  }

  /// Within a token, the unit that covers a place is that of its group.
  lemma QGroupOnly(job: Job, tr: nat, tc: nat, r: nat, i: nat)
    requires job.Valid() && i < job.QUnits() && i / 4 == tr && r < 32
    ensures i == QGroup(job, tr, tc, r) <==> (if tc >= job.headTiles then i % 4 == 0
      else (i % 4 * GROUP <= r < i % 4 * GROUP + GROUP) || (i % 4 == 0 && r >= GroupRows(HeadsIn(job, tr))))
  {
    GroupCount(job.qHeads, i);
    GroupPlace(i);
    GroupRowsAre(HeadsIn(job, tr), i % 4);
    GroupRowsAre(HeadsIn(job, tr), r / GROUP);
    hide GroupRows;
    assert i == 4 * tr + i % 4;
    assert i % 4 * GROUP < HeadsIn(job, tr);
  }

  /// A token has the unit of each group of its q tile rows.
  lemma QGroupExists(job: Job, tr: nat, tc: nat, r: nat)
    requires job.Valid() && tr < job.QRows() && r < 32
    ensures QGroup(job, tr, tc, r) < job.QUnits() && QGroup(job, tr, tc, r) / 4 == tr
  {
    var g := if tc < job.headTiles && r < GroupRows(HeadsIn(job, tr)) then r / GROUP else 0;
    MulMonotone(tr, job.QRows() - 1, 32);
    GroupRowsAre(HeadsIn(job, tr), g);
    GroupCount(job.qHeads, 4 * tr + g);
    hide GroupRows;
  }

  /// Tile tc of tile row tr of token b of the q output.
  function QTile(job: Job, b: nat, tr: nat, tc: nat): nat { (b * job.QRows() + tr) * job.qTiles + tc }

  lemma QTileFits(job: Job, b: nat, tr: nat, tc: nat)
    requires b < job.tokens && tr < job.QRows() && tc < job.qTiles
    ensures QTile(job, b, tr, tc) < job.QOutTiles()
  {
    hide Job.QRows;
    MulStrict(b, job.tokens, job.QRows());
    MulStrict(b * job.QRows() + tr, job.tokens * job.QRows(), job.qTiles);
  }

  /// Every tile of the q output is one of those.
  lemma QTileParts(job: Job, p: nat) returns (b: nat, tr: nat, tc: nat)
    requires job.Valid() && p < job.QOutTiles()
    ensures b < job.tokens && tr < job.QRows() && tc < job.qTiles && p == QTile(job, b, tr, tc)
  {
    hide Job.QRows;
    var row;
    row, tc := Digits(job.tokens * job.QRows(), job.qTiles, p);
    b, tr := Digits(job.tokens, job.QRows(), row);
  }

  lemma Digits(n: nat, d: nat, p: nat) returns (q: nat, r: nat)
    requires p < n * d
    ensures q < n && r < d && p == q * d + r
  {
    PositiveFactors(n, d, p);
    DivMod(p, d);
    q, r := p / d, p % d;
  }

  /// The unit of the list that writes a row of a tile of the q output.
  function QOwner(job: Job, b: nat, tr: nat, tc: nat, r: nat): nat { b * job.PerToken() + QGroup(job, tr, tc, r) }

  /// A unit's place in the list.
  lemma UnitAt(job: Job, b: nat, i: nat)
    requires job.Valid() && b < job.tokens && i < job.PerToken()
    ensures b * job.PerToken() + i < job.Units() && UnitsOf(job, job.tokens)[b * job.PerToken() + i]
      == TokenUnit(job, b, i)
  {
    hide Job.PerToken, TokenUnit, UnitsOf;
    UnitIn(job, job.tokens, b, i);
  }

  lemma UnitParts(job: Job, u: nat) returns (b: nat, i: nat)
    requires job.Valid() && u < job.Units()
    ensures b < job.tokens && i < job.PerToken() && u == b * job.PerToken() + i
      && UnitsOf(job, job.tokens)[u] == TokenUnit(job, b, i)
  {
    hide Job.PerToken, TokenUnit, UnitsOf;
    b, i := Digits(job.tokens, job.PerToken(), u);
    UnitIn(job, job.tokens, b, i);
  }

  lemma SameUnit(per: nat, b: nat, i: nat, c: nat, j: nat)
    requires i < per && j < per
    ensures b * per + i == c * per + j <==> b == c && i == j
  {
    DivModUnique(b * per + i, per, b, i);
    DivModUnique(c * per + j, per, c, j);
  }

  lemma SameRow(rows: nat, b: nat, tr: nat, c: nat, i: nat)
    requires tr < rows && i < rows
    ensures b * rows + tr == c * rows + i <==> b == c && tr == i
  {
    SameUnit(rows, b, tr, c, i);
  }

  /// Of the q units, only a place's token and group writes it.
  lemma QUnitCovers(job: Job, c: nat, i: nat, b: nat, tr: nat, tc: nat, r: nat)
    requires job.Valid() && i < job.QUnits() && i * GROUP < job.qHeads && tr < job.QRows() && tc < job.qTiles && r < 32
    ensures Covers(job, QUnit(job, c, i * GROUP), true, QTile(job, b, tr, tc), r) <==>
      b == c && i == QGroup(job, tr, tc, r)
  {
    hide Covers, QGroup, Job.QRows, QUnit, GroupRows, HeadsIn;
    QPart(job, c, i, b * job.QRows() + tr, tc, r);
    TileRowOf(job, i);
    SameRow(job.QRows(), b, tr, c, i / 4);
    QGroupExists(job, tr, tc, r);
    if i / 4 == tr { QGroupOnly(job, tr, tc, r, i); }
  }

  /// Every row of every tile of the q output is written by exactly one unit.
  lemma QCoveredOnce(job: Job, b: nat, tr: nat, tc: nat, r: nat, u: nat)
    requires job.Valid() && b < job.tokens && tr < job.QRows() && tc < job.qTiles && r < 32 && u < job.Units()
    ensures QOwner(job, b, tr, tc, r) < job.Units()
    ensures Covers(job, UnitsOf(job, job.tokens)[u], true, QTile(job, b, tr, tc), r) <==> u == QOwner(job, b, tr, tc, r)
  {
    hide Covers, QGroup, UnitsOf, Job.QRows, QUnit, KvUnit, QTile;
    QGroupExists(job, tr, tc, r);
    var g := QGroup(job, tr, tc, r);
    UnitAt(job, b, g);
    var c, i := UnitParts(job, u);
    SameUnit(job.PerToken(), b, g, c, i);
    if i < job.QUnits() {
      GroupCount(job.qHeads, i);
      QUnitCovers(job, c, i, b, tr, tc, r);
    } else {
      NotQ(job, c, i, QTile(job, b, tr, tc), r);
    }
  }

  lemma TileRowOf(job: Job, i: nat)
    requires i < job.QUnits()
    ensures i / 4 < job.QRows()
  {
    GroupCount(job.qHeads, i);
    assert i / 4 * 32 < job.QRows() * 32;
  }

  lemma NotQ(job: Job, b: nat, i: nat, p: nat, r: nat)
    requires job.Valid() && job.QUnits() <= i < job.PerToken()
    ensures !Covers(job, TokenUnit(job, b, i), true, p, r)
  {}

  // ---- the kv output ----

  /// Tile c of token b's k or v half of the kv output.
  function KvTile(job: Job, b: nat, v: bool, c: nat): nat {
    b * (2 * job.headTiles) + (if v then job.headTiles else 0) + c
  }

  /// Every tile of the kv output is one of those.
  lemma KvTileParts(job: Job, p: nat) returns (b: nat, v: bool, c: nat)
    requires job.Valid() && p < job.KvOutTiles()
    ensures b < job.tokens && c < job.headTiles && p == KvTile(job, b, v, c)
  {
    var rest;
    b, rest := Digits(job.tokens, 2 * job.headTiles, p);
    v, c := rest >= job.headTiles, if rest >= job.headTiles then rest - job.headTiles else rest;
  }

  lemma KvTileFits(job: Job, b: nat, v: bool, c: nat)
    requires b < job.tokens && c < job.headTiles
    ensures KvTile(job, b, v, c) < job.KvOutTiles()
  {
    MulStrict(b, job.tokens, 2 * job.headTiles);
  }

  function KvGroup(job: Job, r: nat): nat { if r < GroupRows(job.kvHeads) then r / GROUP else 0 }

  function KvOwner(job: Job, b: nat, v: bool, r: nat): nat {
    b * job.PerToken() + (job.QUnits() + 2 * KvGroup(job, r) + (if v then 1 else 0))
  }

  /// A k or v unit's part.
  lemma KvPart(job: Job, b': nat, g: nat, v': bool, b: nat, v: bool, c: nat, r: nat)
    requires job.Valid() && g < job.KvUnits() && g * GROUP < job.kvHeads && c < job.headTiles && r < 32
    ensures Covers(job, KvUnit(job, b', g * GROUP, v'), false, KvTile(job, b, v, c), r)
        <==> b == b' && v == v' && ((g * GROUP <= r < g * GROUP + GROUP) || (g == 0 && r >= GroupRows(job.kvHeads)))
  {
    if b < b' { MulStrict(b, b', 2 * job.headTiles); }
    if b' < b { MulStrict(b', b, 2 * job.headTiles); }
    hide RoundUp;
  }

  lemma KvGroupOnly(job: Job, r: nat, g: nat)
    requires job.Valid() && g < job.KvUnits() && r < 32
    ensures g == KvGroup(job, r) <==> (g * GROUP <= r < g * GROUP + GROUP) || (g == 0 && r >= GroupRows(job.kvHeads))
    ensures KvGroup(job, r) < job.KvUnits()
  {
    GroupCount(job.kvHeads, g);
    GroupCount(job.kvHeads, r / GROUP);
    GroupRowsAre(job.kvHeads, g);
    GroupRowsAre(job.kvHeads, r / GROUP);
    hide GroupRows;
  }

  lemma KvPair(job: Job, i: nat) returns (g: nat, v: bool)
    requires job.Valid() && job.QUnits() <= i < job.PerToken()
    ensures g < job.KvUnits() && i == job.QUnits() + 2 * g + (if v then 1 else 0) && g * GROUP < job.kvHeads
    ensures forall b: nat :: TokenUnit(job, b, i) == KvUnit(job, b, g * GROUP, v)
  {
    g, v := (i - job.QUnits()) / 2, (i - job.QUnits()) % 2 == 1;
    GroupCount(job.kvHeads, g);
  }

  /// Every row of every tile of the kv output is written by exactly one unit.
  lemma KvCoveredOnce(job: Job, b: nat, v: bool, c: nat, r: nat, u: nat)
    requires job.Valid() && b < job.tokens && c < job.headTiles && r < 32 && u < job.Units()
    ensures KvOwner(job, b, v, r) < job.Units()
    ensures Covers(job, UnitsOf(job, job.tokens)[u], false, KvTile(job, b, v, c), r) <==> u == KvOwner(job, b, v, r)
  {
    hide Covers, UnitsOf, Job.Valid, QUnit, KvUnit, KvTile, KvGroup, TokenUnit;
    var c', i := UnitParts(job, u);
    FirstKvUnit(job);
    KvGroupOnly(job, r, 0);
    var i' := job.QUnits() + 2 * KvGroup(job, r) + (if v then 1 else 0);
    UnitAt(job, b, i');
    SameUnit(job.PerToken(), b, i', c', i);
    if i < job.QUnits() {
      NotKv(job, c', i, KvTile(job, b, v, c), r);
    } else {
      var g, w := KvPair(job, i);
      KvPart(job, c', g, w, b, v, c, r);
      KvGroupOnly(job, r, g);
    }
  }

  lemma FirstKvUnit(job: Job)
    requires job.Valid()
    ensures 0 < job.KvUnits()
  {
    GroupCount(job.kvHeads, 0);
  }

  lemma NotKv(job: Job, b: nat, i: nat, p: nat, r: nat)
    requires job.Valid() && i < job.QUnits() && i < job.PerToken()
    ensures !Covers(job, TokenUnit(job, b, i), false, p, r)
  {}
}
