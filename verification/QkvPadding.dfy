/// The rows between the last head and the end of its group of eight: computed
/// from rows of zeros, and zero in the outputs exactly when norm and rotation
/// keep a row of zeros.
module QkvPadding {
  import opened RowMajor
  import opened TileFaces
  import opened VectorUnit
  import opened QkvUnits
  import opened QkvSplit
  import opened QkvNorm

  /// The outputs hold what the units make with norm and rotation.
  ghost predicate QFilled(job: Job, a: Arithmetic, p: Params, qkv: seq<Word>, q: seq<Word>, counts: seq<nat>) {
    && job.Valid() && job.tokens <= 32 && WidthTiles(job) * 1024 <= |qkv| && |q| == |counts| == job.QOutTiles() * 1024
    && a.Sound() && p.Rotary() <= job.headTiles * 32
    && QRight(job, NormAndRotate(a, p), qkv, q, counts)
  }

  ghost predicate KvFilled(job: Job, a: Arithmetic, p: Params, qkv: seq<Word>, kv: seq<Word>, counts: seq<nat>) {
    && job.Valid() && job.tokens <= 32 && WidthTiles(job) * 1024 <= |qkv| && |kv| == |counts| == job.KvOutTiles() * 1024
    && a.Sound() && p.Rotary() <= job.headTiles * 32
    && KvRight(job, NormAndRotate(a, p), qkv, kv, counts)
  }

  /// Row r of the head tiles of tile row tr is past the last head and in its group.
  predicate QPadding(job: Job, tr: nat, tc: nat, r: nat) {
    tr < job.QRows() && tc < job.headTiles && HeadsIn(job, tr) <= r < GroupRows(HeadsIn(job, tr)) && r < 32
  }

  ghost predicate QPaddingZero(job: Job, a: Arithmetic, q: seq<Word>, b: nat)
    requires job.Valid() && |q| == job.QOutTiles() * 1024 && b < job.tokens
  {
    forall tr: nat, tc: nat, r: nat, col: nat :: QPadding(job, tr, tc, r) && col < 32 ==>
      QZeroAt(job, a, q, b, tr, tc, r, col)
  }

  ghost predicate QZeroAt(job: Job, a: Arithmetic, q: seq<Word>, b: nat, tr: nat, tc: nat, r: nat, col: nat)
    requires job.Valid() && |q| == job.QOutTiles() * 1024 && b < job.tokens && QPadding(job, tr, tc, r) && col < 32
  {
    QTileFits(job, b, tr, tc);
    a.Zero(Elem(q, QTile(job, b, tr, tc), r, col))
  }

  predicate KvPadding(job: Job, tc: nat, r: nat) {
    tc < job.headTiles && job.kvHeads <= r < GroupRows(job.kvHeads) && r < 32
  }

  ghost predicate KvPaddingZero(job: Job, a: Arithmetic, kv: seq<Word>, b: nat, v: bool)
    requires job.Valid() && |kv| == job.KvOutTiles() * 1024 && b < job.tokens
  {
    forall tc: nat, r: nat, col: nat :: KvPadding(job, tc, r) && col < 32 ==> KvZeroAt(job, a, kv, b, v, tc, r, col)
  }

  ghost predicate KvZeroAt(job: Job, a: Arithmetic, kv: seq<Word>, b: nat, v: bool, tc: nat, r: nat, col: nat)
    requires job.Valid() && |kv| == job.KvOutTiles() * 1024 && b < job.tokens && KvPadding(job, tc, r) && col < 32
  {
    KvTileFits(job, b, v, tc);
    a.Zero(Elem(kv, KvTile(job, b, v, tc), r, col))
  }

  // ---- a padding row ----

  /// What the head tiles hold in a padding row of a q or k head group.
  function PaddingRow(job: Job, a: Arithmetic, p: Params, kind: Kind, b: nat): (row: seq<Word>)
    ensures |row| == job.headTiles * 32
  {
    NormedRow(a, p, kind, b, ZeroRowOf(job.headTiles))
  }

  lemma PaddingRowZero(job: Job, a: Arithmetic, p: Params, kind: Kind, b: nat)
    requires job.Valid() && a.Sound() && p.Rotary() <= job.headTiles * 32
    ensures a.AllZero(PaddingRow(job, a, p, kind, b)) <==> KeepsZero(a, p, kind, b, job.headTiles * 32)
  {
    hide Arithmetic.Sound, KeepsZero, NormedRow;
    ZeroRowKept(a, p, kind, b, ZeroRowOf(job.headTiles));
  }

  lemma PastHeads(job: Job, tr: nat, tc: nat, r: nat)
    requires job.Valid() && QPadding(job, tr, tc, r)
    ensures 32 * tr + r >= job.qHeads && tc < job.qTiles
  {
    hide RoundUp;
    FullGroups();
    MulMonotone(tr, job.QRows() - 1, 32);
  }

  lemma FullGroups()
    ensures GroupRows(32) == 32
  {}

  lemma QPaddingElement(job: Job, a: Arithmetic, p: Params, qkv: seq<Word>, q: seq<Word>, counts: seq<nat>,
                        b: nat, tr: nat, tc: nat, r: nat, col: nat)
    requires QFilled(job, a, p, qkv, q, counts) && b < job.tokens && QPadding(job, tr, tc, r) && col < 32
    ensures QTile(job, b, tr, tc) < job.QOutTiles()
    ensures Elem(q, QTile(job, b, tr, tc), r, col) == PaddingRow(job, a, p, Q, b)[tc * 32 + col]
  {
    hide Elem, QTile, Arithmetic.Sound, NormedRow, WidthTiles, Job.QOutTiles, ZeroRowOf;
    QTileFits(job, b, tr, tc) by { PastHeads(job, tr, tc, r); }
    PastHeads(job, tr, tc, r);
    assert QElem(job, NormAndRotate(a, p), qkv, q, counts, true, b, tr, tc, r, col);
  }

  lemma KPaddingElement(job: Job, a: Arithmetic, p: Params, qkv: seq<Word>, kv: seq<Word>, counts: seq<nat>,
                        b: nat, tc: nat, r: nat, col: nat)
    requires KvFilled(job, a, p, qkv, kv, counts) && b < job.tokens && KvPadding(job, tc, r) && col < 32
    ensures KvTile(job, b, false, tc) < job.KvOutTiles()
    ensures Elem(kv, KvTile(job, b, false, tc), r, col) == PaddingRow(job, a, p, K, b)[tc * 32 + col]
  {
    hide Elem, KvTile, Arithmetic.Sound, NormedRow, WidthTiles, Job.KvOutTiles, ZeroRowOf;
    KvTileFits(job, b, false, tc);
    assert KvElem(job, NormAndRotate(a, p), qkv, kv, counts, true, b, false, tc, r, col);
  }

  /// There are padding rows just when the heads do not fill their last group.
  lemma SomePadding(heads: nat)
    ensures heads % GROUP == 0 ==> GroupRows(heads) == heads
    ensures heads % GROUP != 0 ==> heads < GroupRows(heads)
  {
    GroupRowsAre(heads, 0);
    if heads % GROUP == 0 {
      DivMod(heads, GROUP);
      GroupRowsAre(heads, heads / GROUP);
      DivModUnique(heads + GROUP - 1, GROUP, heads / GROUP, GROUP - 1);
    } else {
      RoundsUp(heads);
    }
  }

  lemma RoundsUp(heads: nat)
    ensures GroupRows(heads) % GROUP == 0
  {}

  lemma LastTileRow(job: Job) returns (tr: nat)
    requires job.Valid()
    ensures tr < job.QRows() && HeadsIn(job, tr) % GROUP == job.qHeads % GROUP && 0 < HeadsIn(job, tr)
  {
    tr := job.QRows() - 1;
    var heads := job.qHeads - tr * 32;
    assert heads == HeadsIn(job, tr) by { LastHeads(job, tr); }
    DivMod(heads, GROUP);
    DivModUnique(job.qHeads, GROUP, heads / GROUP + 4 * tr, heads % GROUP);
  }

  lemma LastHeads(job: Job, tr: int)
    requires job.Valid() && tr == job.QRows() - 1
    ensures 0 <= tr && 0 < job.qHeads - tr * 32 <= 32
  {}

  lemma FullTileRows(job: Job, tr: nat)
    requires job.Valid() && tr < job.QRows() && job.qHeads % GROUP == 0
    ensures HeadsIn(job, tr) % GROUP == 0
  {
    MulMonotone(tr, job.QRows() - 1, 32);
  }

  // ---- the results ----

  /// The q output's padding rows are zero exactly when every group is full, or
  /// epsilon, the weights and the token's angles keep a row of zeros.
  lemma QPaddingIsZero(job: Job, a: Arithmetic, p: Params, qkv: seq<Word>, q: seq<Word>, counts: seq<nat>, b: nat)
    requires QFilled(job, a, p, qkv, q, counts) && b < job.tokens
    ensures QPaddingZero(job, a, q, b) <==> job.qHeads % GROUP == 0 || KeepsZero(a, p, Q, b, job.headTiles * 32)
  {
    hide Elem, QTile, QFilled, NormedRow, KeepsZero, Arithmetic.Sound, Arithmetic.Zero, HeadsIn, GroupRows, Job.QRows,
         Job.QOutTiles;
    FilledIsValid(job, a, p, qkv, q, counts);
    PaddingRowZero(job, a, p, Q, b);
    var row := PaddingRow(job, a, p, Q, b);
    forall tr: nat, tc: nat, r: nat, col: nat | QPadding(job, tr, tc, r) && col < 32
      ensures job.qHeads % GROUP != 0 && QZeroAt(job, a, q, b, tr, tc, r, col) == a.Zero(row[tc * 32 + col])
    {
      QPaddingElement(job, a, p, qkv, q, counts, b, tr, tc, r, col);
      if job.qHeads % GROUP == 0 { FullTileRows(job, tr); }
      SomePadding(HeadsIn(job, tr));
    }
    if job.qHeads % GROUP != 0 && QPaddingZero(job, a, q, b) {
      var tr := LastTileRow(job);
      var r := HeadsIn(job, tr);
      SomePadding(r);
      HeadsFit(job, tr);
      forall d: nat | d < |row| ensures a.Zero(row[d]) {
        DivMod(d, 32);
        assert QPadding(job, tr, d / 32, r);
        assert QZeroAt(job, a, q, b, tr, d / 32, r, d % 32);
      }
    }
  }

  lemma HeadsFit(job: Job, tr: nat)
    ensures HeadsIn(job, tr) <= 32 && (HeadsIn(job, tr) % GROUP != 0 ==> HeadsIn(job, tr) < 32)
  {}

  lemma FilledIsValid(job: Job, a: Arithmetic, p: Params, qkv: seq<Word>, q: seq<Word>, counts: seq<nat>)
    requires QFilled(job, a, p, qkv, q, counts)
    ensures job.Valid() && a.Sound() && p.Rotary() <= job.headTiles * 32 && |q| == job.QOutTiles() * 1024
  {}

  /// The k half's padding rows, likewise.
  lemma KPaddingIsZero(job: Job, a: Arithmetic, p: Params, qkv: seq<Word>, kv: seq<Word>, counts: seq<nat>, b: nat)
    requires KvFilled(job, a, p, qkv, kv, counts) && b < job.tokens
    ensures KvPaddingZero(job, a, kv, b, false) <==>
      job.kvHeads % GROUP == 0 || KeepsZero(a, p, K, b, job.headTiles * 32)
  {
    hide Elem, KvTile, KvFilled, NormedRow, KeepsZero, Arithmetic.Sound, Arithmetic.Zero, GroupRows, Job.KvOutTiles;
    KvFilledIsValid(job, a, p, qkv, kv, counts);
    PaddingRowZero(job, a, p, K, b);
    SomePadding(job.kvHeads);
    var row := PaddingRow(job, a, p, K, b);
    forall tc: nat, r: nat, col: nat | KvPadding(job, tc, r) && col < 32
      ensures KvZeroAt(job, a, kv, b, false, tc, r, col) == a.Zero(row[tc * 32 + col])
    {
      KPaddingElement(job, a, p, qkv, kv, counts, b, tc, r, col);
    }
    if job.kvHeads % GROUP != 0 && KvPaddingZero(job, a, kv, b, false) {
      var r := job.kvHeads;
      assert r < 32;
      forall d: nat | d < |row| ensures a.Zero(row[d]) {
        DivMod(d, 32);
        assert KvPadding(job, d / 32, r);
        assert KvZeroAt(job, a, kv, b, false, d / 32, r, d % 32);
      }
    }
  }

  lemma KvFilledIsValid(job: Job, a: Arithmetic, p: Params, qkv: seq<Word>, kv: seq<Word>, counts: seq<nat>)
    requires KvFilled(job, a, p, qkv, kv, counts)
    ensures job.Valid() && a.Sound() && p.Rotary() <= job.headTiles * 32 && |kv| == job.KvOutTiles() * 1024
  {}

  /// The v half's padding rows hold what was read: zeros, on every input.
  lemma VPaddingIsZero(job: Job, a: Arithmetic, p: Params, qkv: seq<Word>, kv: seq<Word>, counts: seq<nat>, b: nat)
    requires KvFilled(job, a, p, qkv, kv, counts) && b < job.tokens
    ensures KvPaddingZero(job, a, kv, b, true)
  {
    hide Elem, KvTile, Arithmetic.Sound, NormedRow, WidthTiles, GroupRows, Job.KvOutTiles;
    forall tc: nat, r: nat, col: nat | KvPadding(job, tc, r) && col < 32
      ensures KvZeroAt(job, a, kv, b, true, tc, r, col)
    {
      KvTileFits(job, b, true, tc);
      assert KvElem(job, NormAndRotate(a, p), qkv, kv, counts, true, b, true, tc, r, col);
    }
  }
}
