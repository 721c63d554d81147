/// quantize_rows as a whole: every core's two phases around the exchange, over
/// the shares of the plan.
module QuantizeRows {
  import opened RowMajor
  import opened TileFaces
  import opened VectorUnit
  import opened QuantizeMaxima
  import opened QuantizePartial
  import opened QuantizeDivisor
  import opened QuantizeScale
  import opened QuantizeTiles
  import opened QuantizePlan
  import opened QuantizeDense
  import Exchange = QuantizeExchange

  // ---- packing ----

  /// A tile's words in memory.
  function PackedWords(t: Tile): (words: seq<Word>)
    ensures |words| == 1024
  {
    seq(1024, p requires 0 <= p < 1024 => At(t, RowAt(p), ColumnAt(p)))
  }

  lemma PackedWord(t: Tile, r: nat, c: nat)
    requires r < 32 && c < 32
    ensures PackedWords(t)[FacePlace(r, c)] == At(t, r, c)
  {
    RowAndColumnOfPlace(r, c);
    hide RowAt, ColumnAt, FacePlace, At;
  }

  // ---- the shares ----

  ghost predicate ValidPlan(plan: Plan, words: nat) {
    && IsStride(plan.stride) && 0 < plan.rows <= plan.stride && plan.Cores() > 0 && plan.tiles > 0
    && plan.dense == DivUp(plan.tiles, PackOf(plan.stride)) && plan.tiles * 1024 <= words
  }

  lemma FirstTileOrdered(plan: Plan, i: nat)
    requires IsStride(plan.stride) && plan.Cores() > 0
    ensures FirstTile(plan, i) <= plan.tiles
  {}

  /// Core i's input tiles.
  ghost function SharePages(input: seq<Word>, plan: Plan, i: nat): seq<Tile>
    requires ValidPlan(plan, |input|) && i < plan.Cores()
  {
    ShareTiles(plan, i);
    FirstTileOrdered(plan, i + 1);
    PagesOf(input, FirstTile(plan, i), ShareOf(plan, i).Tiles())
  }

  ghost function Shares(input: seq<Word>, plan: Plan, n: nat): (shares: seq<seq<Tile>>)
    requires ValidPlan(plan, |input|) && n <= plan.Cores()
    ensures |shares| == n && forall i: nat :: i < n ==> shares[i] == SharePages(input, plan, i)
  {
    seq(n, i requires 0 <= i < n => SharePages(input, plan, i))
  }

  /// The whole row's input tiles.
  ghost function RowPages(input: seq<Word>, plan: Plan): seq<Tile>
    requires ValidPlan(plan, |input|)
  {
    PagesOf(input, 0, plan.tiles)
  }

  lemma {:induction false} SharesJoin(input: seq<Word>, plan: Plan, n: nat)
    requires ValidPlan(plan, |input|) && n <= plan.Cores()
    ensures FirstTile(plan, n) <= plan.tiles && AllPages(Shares(input, plan, n))
      == PagesOf(input, 0, FirstTile(plan, n))
  {
    hide Unpacked, FirstTile, ShareOf, Plan.Cores, Share.Tiles;
    FirstTileOrdered(plan, n);
    if n == 0 {
      ShareTiles(plan, 0);
    } else {
      SharesJoin(input, plan, n - 1);
      ShareTiles(plan, n - 1);
      assert Shares(input, plan, n)[..n - 1] == Shares(input, plan, n - 1);
      var before, last := PagesOf(input, 0, FirstTile(plan, n - 1)), SharePages(input, plan, n - 1);
      assert PagesOf(input, 0, FirstTile(plan, n)) == before + last;
    }
  }

  /// The shares are the row.
  lemma SharesAreRow(input: seq<Word>, plan: Plan)
    requires ValidPlan(plan, |input|)
    ensures AllPages(Shares(input, plan, plan.Cores())) == RowPages(input, plan)
  {
    SharesJoin(input, plan, plan.Cores());
    ShareTiles(plan, 0);
  }

  // ---- phase 1 ----

  /// What a core sends: each row's maximum over its input tiles, 16 times.
  ghost function PartWords(pages: seq<Tile>, stride: nat): (words: seq<Word>)
    requires IsStride(stride)
    ensures |words| == stride * 16
  {
    seq(stride * 16, x requires 0 <= x < stride * 16 => RowMax(pages, x / 16, |pages| * 32))
  }

  function Pieces(stride: nat): nat { if stride <= 16 then 1 else 2 }

  function PieceWords(stride: nat): nat { (if stride <= 16 then stride else 16) * 16 }

  /// The pieces of a slot, from the left faces of the part's tile.
  function SlotOf(part: seq<Word>, stride: nat): (words: seq<Word>)
    requires |part| == 1024 && IsStride(stride)
    ensures |words| == stride * 16
  {
    part[..PieceWords(stride)] + (if Pieces(stride) == 1 then [] else part[512..512 + PieceWords(stride)])
  }

  /// A slot's word is the row's in column x % 16.
  lemma SlotWordOf(t: Tile, stride: nat, x: nat)
    requires IsStride(stride) && x < stride * 16
    ensures x / 16 < stride && SlotOf(PackedWords(t), stride)[x] == At(t, x / 16, x % 16)
  {
    DivMod(x, 16);
    hide At, PackedWords, SlotOf;
    var m, e := x / 16, x % 16;
    LeftWord(t, m, e);
    SlotWordIn(PackedWords(t), stride, m, e);
  }

  /// Where a left column of a packed tile is.
  lemma LeftWord(t: Tile, m: nat, e: nat)
    requires m < 32 && e < 16
    ensures PackedWords(t)[(if m < 16 then 0 else 512) + (if m < 16 then m else m - 16) * 16 + e] == At(t, m, e)
  {
    hide At, PackedWords, FacePlace;
    PackedWord(t, m, e);
    FaceParts(m, e);
  }

  lemma SlotWordIn(part: seq<Word>, stride: nat, m: nat, e: nat)
    requires |part| == 1024 && IsStride(stride) && m < stride && e < 16
    ensures SlotOf(part, stride)[m * 16 + e]
      == part[(if m < 16 then 0 else 512) + (if m < 16 then m else m - 16) * 16 + e]
  {}

  /// Core i's dense tiles and the words of its part.
  method PhaseOne(input: seq<Word>, plan: Plan, i: nat) returns (buffer: array<Word>, slot: seq<Word>)
    requires ValidPlan(plan, |input|) && i < plan.Cores()
    ensures fresh(buffer) && ShareOf(plan, i).Valid() && buffer.Length == ShareOf(plan, i).n * 1024
    ensures Holds(ShareOf(plan, i), DenseOf(buffer[..], ShareOf(plan, i).n), SharePages(input, plan, i))
    ensures slot == PartWords(SharePages(input, plan, i), plan.stride)
  {
    hide Packed, FirstTile, IsRowMax, RowMax, At, PackedWords, SlotOf, Holds, Plan.Cores, FirstDense, LastCount,
         NumDense;
    ShareTiles(plan, i);
    FirstTileOrdered(plan, i + 1);
    var s, first := ShareOf(plan, i), FirstDense(plan.dense, plan.Cores(), i);
    buffer := new Word[s.n * 1024](x => 0);
    PackTiles(input, s, first, buffer);
    PackedHolds(buffer[..], input, s, first, FirstTile(plan, i));
    var acc := new Vec[32](n => Fill(ZERO));
    RowMaxima(s, DenseOf(buffer[..], s.n), acc, SharePages(input, plan, i));
    slot := SlotOf(PackedWords(acc[..]), plan.stride);
    forall x: nat | x < plan.stride * 16 ensures slot[x] == PartWords(SharePages(input, plan, i), plan.stride)[x] {
      SlotWordOf(acc[..], plan.stride, x);
      IsTheRowMax(At(acc[..], x / 16, x % 16), SharePages(input, plan, i), x / 16);
    }
  }

  // ---- the exchange ----

  ghost function ExchangeOf(input: seq<Word>, plan: Plan): Exchange.Job<Word>
    requires ValidPlan(plan, |input|)
  {
    Exchange.Job(seq(plan.Cores(), c requires 0 <= c < plan.Cores() =>
      PartWords(SharePages(input, plan, c), plan.stride)),
                 Pieces(plan.stride), PieceWords(plan.stride))
  }

  lemma ExchangeIsValid(input: seq<Word>, plan: Plan)
    requires ValidPlan(plan, |input|)
    ensures ExchangeOf(input, plan).Valid() && ExchangeOf(input, plan).Slot() == plan.stride * 16
      && ExchangeOf(input, plan).Cores() == plan.Cores()
  {}

  /// A gather buffer that has every core's part.
  ghost predicate IsGathered(gather: seq<Word>, input: seq<Word>, plan: Plan)
    requires ValidPlan(plan, |input|)
  {
    ExchangeIsValid(input, plan);
    && |gather| == GatherTiles(plan.Cores(), plan.stride) * 1024
    && forall c: nat :: c < plan.Cores() ==> Exchange.SlotHolds(ExchangeOf(input, plan), gather, c)
  }

  /// In every run of the exchange, a core that hands its buffer over has them all.
  lemma HandedOver(input: seq<Word>, plan: Plan, states: seq<Exchange.State<Word>>, steps: seq<Exchange.Step>, n: nat,
                   d: nat)
    requires ValidPlan(plan, |input|) && Exchange.IsRun(ExchangeOf(input, plan), states, steps) && n <= |steps|
    requires d in states[n].passed && d < |states[n].gather|
      && |states[n].gather[d]| == GatherTiles(plan.Cores(), plan.stride) * 1024
    ensures IsGathered(states[n].gather[d], input, plan)
  {
    ExchangeIsValid(input, plan);
    hide Exchange.IsRun, ExchangeOf, Exchange.SlotHolds;
    forall c: nat | c < plan.Cores() ensures Exchange.SlotHolds(ExchangeOf(input, plan), states[n].gather[d], c) {
      Exchange.FoldsAfterAllLanded(ExchangeOf(input, plan), states, steps, n, d, c);
    }
  }

  lemma GatheredMaxima(gather: seq<Word>, input: seq<Word>, plan: Plan)
    requires ValidPlan(plan, |input|) && IsGathered(gather, input, plan)
    ensures HoldsMaxima(gather, plan.stride, Shares(input, plan, plan.Cores()))
  {
    hide RowMax, IsRowMax, GatherTiles, SharePages, Plan.Cores;
    var stride, cores, shares, job := plan.stride, plan.Cores(), Shares(input, plan, plan.Cores()),
      ExchangeOf(input, plan);
    ExchangeIsValid(input, plan);
    BufferFits(plan);
    forall c: nat, m: nat, e: nat | c < cores && m < stride && e < 16
      ensures SlotIsMax(gather, stride, shares, c, m, e)
    {
      assert Exchange.SlotHolds(job, gather, c);
      SlotWordAt(gather, input, plan, c, m, e);
      MaxIsRowMax(shares[c], m);
    }
  }

  lemma BufferFits(plan: Plan)
    requires IsStride(plan.stride)
    ensures plan.Cores() * plan.stride * 16 <= GatherTiles(plan.Cores(), plan.stride) * 1024
  {
    hide Plan.Cores;
  }

  lemma SlotWordAt(gather: seq<Word>, input: seq<Word>, plan: Plan, c: nat, m: nat, e: nat)
    requires ValidPlan(plan, |input|) && c < plan.Cores() && m < plan.stride && e < 16
    requires plan.Cores() * plan.stride * 16 <= |gather| && Exchange.SlotHolds(ExchangeOf(input, plan), gather, c)
    ensures (c * plan.stride + plan.stride) * 16 <= |gather|
    ensures SlotWord(gather, plan.stride, c, m, e)
      == RowMax(SharePages(input, plan, c), m, |SharePages(input, plan, c)| * 32)
  {
    hide RowMax, SharePages, Plan.Cores, GatherTiles;
    ExchangeIsValid(input, plan);
    SlotInBuffer(plan.stride, plan.Cores(), c, |gather|);
    var x := m * 16 + e;
    DivModUnique(x, 16, m, e);
    assert Exchange.SlotWordIs(ExchangeOf(input, plan), gather, c, x);
    MulAssoc(c, plan.stride, 16);
  }

  lemma MaxIsRowMax(pages: seq<Tile>, m: nat)
    requires m < 32
    ensures IsRowMax(RowMax(pages, m, |pages| * 32), pages, m)
  {
    hide Settled, RowMax, FirstBelow, RowsBelow;
    forall bound: Word ensures Settled(RowMax(pages, m, |pages| * 32))
      && (WordOrder.AtMost(RowMax(pages, m, |pages| * 32), bound) <==> RowsBelow(pages, m, bound))
    {
      RowMaxBound(pages, m, |pages| * 32, bound);
      ElementsOfRows(pages, m, bound);
    }
    RowMaxBound(pages, m, |pages| * 32, ZERO);
  }

  // ---- phase 2 ----

  /// Dense tile i's data rows hold the codes of their elements.
  ghost predicate DenseCoded(words: seq<Word>, x: Tile, ops: Ops, pages: seq<Tile>, stride: nat, rows: nat, i: nat)
    requires IsStride(stride)
  {
    && (i + 1) * 1024 <= |words|
    && forall r: nat, c: nat :: r < 32 && c < 32 && IsData(8, rows, r) ==>
      Elem(words, i, r, c) == Code(ops, At(x, r, c), ScaleOf(ops, RowMax(pages, r % stride, |pages| * 32)))
  }

  /// The scale tile's data rows hold their scales in every column.
  ghost predicate IsScale(words: seq<Word>, ops: Ops, pages: seq<Tile>, stride: nat, rows: nat)
    requires IsStride(stride)
  {
    && |words| == 1024
    && forall r: nat, c: nat :: r < 32 && c < 32 && IsData(8, rows, r) ==>
      Elem(words, 0, r, c) == ScaleOf(ops, RowMax(pages, r % stride, |pages| * 32))
  }

  lemma CodedWords(after: Tile, x: Tile, d: Tile, ops: Ops, pages: seq<Tile>, stride: nat, rows: nat)
    requires IsStride(stride) && Coded(after, x, d, ops, 8, rows) && IsDivisor(d, ops, pages, stride)
    ensures DenseCoded(PackedWords(after), x, ops, pages, stride, rows, 0)
  {
    hide At, Code, ScaleOf, RowMax, PackedWords, FacePlace;
    forall r: nat, c: nat | r < 32 && c < 32
      ensures Elem(PackedWords(after), 0, r, c) == At(after, r, c)
    {
      PackedWord(after, r, c);
    }
  }

  lemma ScaleWords(after: Tile, d: Tile, ops: Ops, pages: seq<Tile>, stride: nat, rows: nat)
    requires IsStride(stride) && DataKept(after, d, 8, rows) && IsDivisor(d, ops, pages, stride)
    ensures IsScale(PackedWords(after), ops, pages, stride, rows)
  {
    hide At, ScaleOf, RowMax, PackedWords, FacePlace;
    forall r: nat, c: nat | r < 32 && c < 32
      ensures Elem(PackedWords(after), 0, r, c) == At(after, r, c)
    {
      PackedWord(after, r, c);
    }
  }

  lemma AppendedCoded(words: seq<Word>, more: seq<Word>, x: Tile, ops: Ops, pages: seq<Tile>, stride: nat, rows: nat,
                      i: nat)
    requires IsStride(stride) && |words| == i * 1024 && DenseCoded(more, x, ops, pages, stride, rows, 0)
    ensures DenseCoded(words + more, x, ops, pages, stride, rows, i)
  {
    hide At, Code, ScaleOf, RowMax, FacePlace;
  }

  lemma PrefixCoded(words: seq<Word>, more: seq<Word>, x: Tile, ops: Ops, pages: seq<Tile>, stride: nat, rows: nat,
                    i: nat)
    requires IsStride(stride) && DenseCoded(words, x, ops, pages, stride, rows, i)
    ensures DenseCoded(words + more, x, ops, pages, stride, rows, i)
  {
    hide At, Code, ScaleOf, RowMax, FacePlace;
  }

  method LoadTile(t: Tile, into: Accumulator)
    requires into.Length == 32
    modifies into
    ensures into[..] == t
  {
    forall n | 0 <= n < 32 { into[n] := t[n]; }
    assert into[..] == t;
  }

  /// A chunk of dense tiles: the divisor made again, then up to three tiles over the scratch ones.
  method QuantizeChunk(dense: seq<Tile>, gather: seq<Word>, stride: nat, cores: nat, rows: nat, ops: Ops,
                       ghost shares: seq<seq<Tile>>)
    returns (words: seq<seq<Word>>, divisor: seq<Word>)
    requires |dense| <= 3 && 0 < rows <= 32 && cores == |shares|
    requires IsStride(stride) && |gather| == GatherTiles(cores, stride) * 1024 && HoldsMaxima(gather, stride, shares)
    ensures |words| == |dense| && IsScale(divisor, ops, AllPages(shares), stride, rows)
    ensures forall j: nat :: j < |dense| ==>
      |words[j]| == 1024 && DenseCoded(words[j], dense[j], ops, AllPages(shares), stride, rows, 0)
  {
    hide HoldsMaxima, GatherTiles, IsDivisor, Coded, DataKept, DenseCoded, IsScale, PackedWords, AllPages;
    var d := new Vec[32](n => Fill(ZERO));
    var t := new Vec[32](n => Fill(ZERO));
    var c := new Vec[32](n => Fill(ZERO));
    var last := new Vec[32](n => Fill(ZERO));
    MakeDivisor(d, t, c, gather, stride, cores, ops, shares);
    ghost var before := d[..];
    var xs: seq<Accumulator> := [t, c, last][..|dense|];
    CodeTiles(dense, xs, d, rows, ops);
    ScaleWords(d[..], before, ops, AllPages(shares), stride, rows);
    divisor := PackedWords(d[..]);
    words := PackChunk(dense, xs, before, stride, rows, ops, AllPages(shares));
  }

  method CodeTiles(dense: seq<Tile>, xs: seq<Accumulator>, d: Accumulator, rows: nat, ops: Ops)
    requires Apart(xs, d) && |xs| == |dense| && 0 < rows <= 32
    modifies xs, d
    ensures forall k: nat :: k < |dense| ==> Coded(xs[k][..], dense[k], old(d[..]), ops, 8, rows)
    ensures DataKept(d[..], old(d[..]), 8, rows)
  {
    hide Coded, DataKept;
    LoadTiles(dense, xs, d);
    ghost var loaded := Contents(xs);
    assert forall k: nat :: k < |dense| ==> loaded[k] == dense[k];
    QuantizeTiles.QuantizeTiles(xs, d, rows, ops);
  }

  method PackChunk(dense: seq<Tile>, xs: seq<Accumulator>, ghost d: Tile, ghost stride: nat, ghost rows: nat,
                   ghost ops: Ops, ghost pages: seq<Tile>)
    returns (words: seq<seq<Word>>)
    requires IsStride(stride) && IsDivisor(d, ops, pages, stride) && |xs| == |dense|
      && (forall k: nat :: k < |xs| ==> xs[k].Length == 32)
    requires forall k: nat :: k < |dense| ==> Coded(xs[k][..], dense[k], d, ops, 8, rows)
    ensures |words| == |dense|
    ensures forall j: nat :: j < |dense| ==>
      |words[j]| == 1024 && DenseCoded(words[j], dense[j], ops, pages, stride, rows, 0)
  {
    hide IsDivisor, Coded, DenseCoded, PackedWords;
    words := [];
    var j := 0;
    while j < |dense|
      invariant 0 <= j <= |dense| && |words| == j
      invariant forall k: nat :: k < j ==>
        |words[k]| == 1024 && DenseCoded(words[k], dense[k], ops, pages, stride, rows, 0)
    {
      CodedWords(xs[j][..], dense[j], d, ops, pages, stride, rows);
      words := words + [PackedWords(xs[j][..])];
      j := j + 1;
    }
  }

  method LoadTiles(dense: seq<Tile>, xs: seq<Accumulator>, ghost d: Accumulator)
    requires Apart(xs, d) && |xs| == |dense|
    modifies xs
    ensures d[..] == old(d[..]) && forall k: nat :: k < |xs| ==> xs[k][..] == dense[k]
  {
    var j := 0;
    while j < |xs|
      invariant 0 <= j <= |xs| && d[..] == old(d[..]) && forall k: nat :: k < j ==> xs[k][..] == dense[k]
    {
      LoadTile(dense[j], xs[j]);
      j := j + 1;
    }
  }

  /// The dense tiles' codes, chunk by chunk, and the divisor of the first chunk.
  method PhaseTwo(dense: seq<Tile>, gather: seq<Word>, stride: nat, cores: nat, rows: nat, ops: Ops,
                  ghost shares: seq<seq<Tile>>)
    returns (out: seq<Word>, scale: seq<Word>)
    requires 0 < rows <= 32 && cores == |shares|
    requires IsStride(stride) && |gather| == GatherTiles(cores, stride) * 1024 && HoldsMaxima(gather, stride, shares)
    ensures |out| == |dense| * 1024 && (|dense| > 0 ==> IsScale(scale, ops, AllPages(shares), stride, rows))
    ensures forall i: nat :: i < |dense| ==> DenseCoded(out, dense[i], ops, AllPages(shares), stride, rows, i)
  {
    hide HoldsMaxima, GatherTiles, DenseCoded, IsScale, AllPages;
    out, scale := [], [];
    var first: nat := 0;
    while first < |dense|
      invariant |out| == (if first < |dense| then first else |dense|) * 1024
      invariant first > 0 ==> IsScale(scale, ops, AllPages(shares), stride, rows)
      invariant forall i: nat :: i < first && i < |dense| ==>
        DenseCoded(out, dense[i], ops, AllPages(shares), stride, rows, i)
    {
      var n := if |dense| - first < CHUNK_TILES then |dense| - first else CHUNK_TILES;
      var words, divisor := QuantizeChunk(dense[first..first + n], gather, stride, cores, rows, ops, shares);
      if first == 0 { scale := divisor; }
      var j := 0;
      while j < n
        invariant 0 <= j <= n && |out| == (first + j) * 1024
        invariant forall i: nat :: i < first + j ==> DenseCoded(out, dense[i], ops, AllPages(shares), stride, rows, i)
      {
        AppendedCoded(out, words[j], dense[first + j], ops, AllPages(shares), stride, rows, first + j);
        forall i: nat | i < first + j
          ensures DenseCoded(out + words[j], dense[i], ops, AllPages(shares), stride, rows, i)
        {
          PrefixCoded(out, words[j], dense[i], ops, AllPages(shares), stride, rows, i);
        }
        out := out + words[j];
        j := j + 1;
      }
      first := first + CHUNK_TILES;
    }
  }

  // ---- the whole row ----

  /// A row's scale: from the largest |x| bits of the whole row.
  ghost function RowScale(input: seq<Word>, plan: Plan, ops: Ops, m: nat): Word
    requires ValidPlan(plan, |input|) && m < 32
  {
    ScaleOf(ops, RowMax(RowPages(input, plan), m, plan.tiles * 32))
  }

  /// Element (m, c) of tile t is its input element's code under its row's scale.
  ghost predicate IsCode(q: seq<Word>, input: seq<Word>, plan: Plan, ops: Ops, t: nat, m: nat, c: nat)
    requires ValidPlan(plan, |input|) && plan.tiles * 1024 <= |q| && t < plan.tiles && m < 32 && c < 32
  {
    Elem(q, t, m, c) == Code(ops, Elem(input, t, m, c), RowScale(input, plan, ops, m))
  }

  ghost predicate TilesCoded(q: seq<Word>, input: seq<Word>, plan: Plan, ops: Ops, n: nat)
    requires ValidPlan(plan, |input|) && plan.tiles * 1024 <= |q| && n <= plan.tiles
  {
    forall t: nat, m: nat, c: nat :: t < n && m < plan.rows && c < 32 ==> IsCode(q, input, plan, ops, t, m, c)
  }

  /// A data row of a dense tile, and the row of its scale.
  lemma DataRow(plan: Plan, jj: nat, m: nat)
    requires IsStride(plan.stride) && 0 < plan.rows <= plan.stride && jj < PackOf(plan.stride) && m < plan.rows
    requires plan.rows < 4 ==> plan.stride == 4
    ensures DenseRow(plan.stride, jj, m) % plan.stride == m && IsData(8, plan.rows, DenseRow(plan.stride, jj, m))
  {
    DivModUnique(jj * plan.stride + m, plan.stride, jj, m);
    MulAssoc(jj, GroupsOf(plan.stride), 4);
    DivMod(m, 4);
    assert jj * plan.stride == jj * GroupsOf(plan.stride) * 4;
    MulDistribute(jj * GroupsOf(plan.stride), m / 4, 4);
    DivModUnique(jj * plan.stride + m, 4, jj * GroupsOf(plan.stride) + m / 4, m % 4);
  }

  /// A core's dense tiles are its share's, coded, and in its tiles of the output.
  ghost predicate ShareWritten(q: seq<Word>, out: seq<Word>, dense: seq<Tile>, input: seq<Word>, plan: Plan, ops: Ops,
                               i: nat)
    requires ValidPlan(plan, |input|) && i < plan.Cores()
  {
    && Holds(ShareOf(plan, i), dense, SharePages(input, plan, i))
    && (forall d: nat :: d < ShareOf(plan, i).n ==>
       DenseCoded(out, dense[d], ops, RowPages(input, plan), plan.stride, plan.rows, d))
    && forall d: nat, jj: nat :: d < ShareOf(plan, i).n && jj < ShareOf(plan, i).Count(d) ==>
      Written(q, out, ShareOf(plan, i), FirstDense(plan.dense, plan.Cores(), i), d, jj)
  }

  /// One core's tiles of the output are coded.
  lemma ShareCoded(q: seq<Word>, out: seq<Word>, dense: seq<Tile>, input: seq<Word>, plan: Plan, ops: Ops, i: nat,
                   t: nat, m: nat, c: nat)
    requires ValidPlan(plan, |input|) && plan.tiles * 1024 <= |q| && i < plan.Cores()
      && (plan.rows < 4 ==> plan.stride == 4)
    requires ShareWritten(q, out, dense, input, plan, ops, i)
    requires FirstTile(plan, i) <= t < FirstTile(plan, i + 1) && m < plan.rows && c < 32
    ensures t < plan.tiles && IsCode(q, input, plan, ops, t, m, c)
  {
    hide FirstTile, LastCount, NumDense, FirstDense, Plan.Cores, PackOf, Code, ScaleOf, RowMax, At, Elem, Unpacked,
         IsData, DenseRow, Share.Count, Share.Tiles;
    ShareTiles(plan, i);
    FirstTileOrdered(plan, i + 1);
    var s, first := ShareOf(plan, i), FirstDense(plan.dense, plan.Cores(), i);
    var d, jj := ShareOfPage(s, t - FirstTile(plan, i));
    PageOfShare(plan, i, d, jj);
    assert PageIndex(PackOf(s.stride), first + d, jj) == t;
    DataRow(plan, jj, m);
    assert Written(q, out, s, first, d, jj) && WrittenElem(q, out, s, first, d, jj, m, c);
    assert DenseCoded(out, dense[d], ops, RowPages(input, plan), plan.stride, plan.rows, d);
    assert PackedAt(dense[d], SharePages(input, plan, i)[PageIndex(PackOf(s.stride), d, jj)], s.stride, jj);
    UnpackedElem(input, t, m, c);
  }

  lemma PageOfShare(plan: Plan, i: nat, d: nat, jj: nat)
    requires IsStride(plan.stride) && plan.Cores() > 0 && plan.tiles > 0
      && plan.dense == DivUp(plan.tiles, PackOf(plan.stride)) && i < plan.Cores()
    requires ShareOf(plan, i).n > 0
    ensures PageIndex(PackOf(plan.stride), FirstDense(plan.dense, plan.Cores(), i) + d, jj)
      == FirstTile(plan, i) + PageIndex(PackOf(plan.stride), d, jj)
  {
    ShareTiles(plan, i);
    hide FirstTile, FirstDense, ShareOf, PackOf, Plan.Cores;
    MulDistribute(FirstDense(plan.dense, plan.Cores(), i), d, PackOf(plan.stride));
  }

  lemma ShareInRow(plan: Plan, i: nat, words: nat)
    requires ValidPlan(plan, words) && i < plan.Cores()
    ensures InRow(ShareOf(plan, i), FirstDense(plan.dense, plan.Cores(), i), words)
  {
    hide FirstTile, FirstDense, NumDense, LastCount, PackOf, Plan.Cores;
    ShareTiles(plan, i);
    FirstTileOrdered(plan, i + 1);
  }

  /// The tiles before a core's share are as they were.
  lemma EarlierKept(q: seq<Word>, before: seq<Word>, input: seq<Word>, plan: Plan, ops: Ops, i: nat)
    requires ValidPlan(plan, |input|) && plan.tiles * 1024 <= |q| && |q| == |before| && i < plan.Cores()
    requires ShareOf(plan, i).Valid()
      && KeptOutside(q, before, ShareOf(plan, i), FirstDense(plan.dense, plan.Cores(), i))
    requires FirstTile(plan, i) <= plan.tiles && TilesCoded(before, input, plan, ops, FirstTile(plan, i))
    ensures TilesCoded(q, input, plan, ops, FirstTile(plan, i))
  {
    hide FirstTile, FirstDense, NumDense, LastCount, PackOf, Plan.Cores, Elem, RowScale, Code;
    ShareTiles(plan, i);
    forall t: nat, m: nat, c: nat | t < FirstTile(plan, i) && m < plan.rows && c < 32
      ensures IsCode(q, input, plan, ops, t, m, c)
    {
      assert IsCode(before, input, plan, ops, t, m, c);
      NotInShare(plan, i, t);
    }
  }

  lemma NotInShare(plan: Plan, i: nat, t: nat)
    requires IsStride(plan.stride) && plan.Cores() > 0 && plan.tiles > 0
      && plan.dense == DivUp(plan.tiles, PackOf(plan.stride)) && i < plan.Cores()
    requires t < FirstTile(plan, i)
    ensures ShareOf(plan, i).Valid()
    ensures !(FirstDense(plan.dense, plan.Cores(), i) * PackOf(plan.stride) <= t
      < FirstDense(plan.dense, plan.Cores(), i) * PackOf(plan.stride) + ShareOf(plan, i).Tiles())
  {
    ShareTiles(plan, i);
    hide FirstTile, FirstDense, NumDense, LastCount, PackOf, Plan.Cores;
  }

  /// The first core has a dense tile, so the scale is written.
  lemma FirstHasWork(plan: Plan)
    requires IsStride(plan.stride) && plan.Cores() > 0 && plan.tiles > 0
      && plan.dense == DivUp(plan.tiles, PackOf(plan.stride))
    ensures ShareOf(plan, 0).n > 0
  {
    hide Plan.Cores;
    DivUpPositive(plan.tiles, PackOf(plan.stride));
    DivMod(plan.dense, plan.Cores());
  }

  /// A core's second phase, once it has every core's part.
  method FinishCore(input: seq<Word>, plan: Plan, i: nat, buffer: seq<Word>, gather: seq<Word>, ops: Ops,
                    q: array<Word>) returns (scale: seq<Word>)
    requires ValidPlan(plan, |input|) && plan.tiles * 1024 <= q.Length && i < plan.Cores()
      && (plan.rows < 4 ==> plan.stride == 4)
    requires ShareOf(plan, i).n * 1024 <= |buffer|
      && Holds(ShareOf(plan, i), DenseOf(buffer, ShareOf(plan, i).n), SharePages(input, plan, i))
    requires IsGathered(gather, input, plan)
    requires FirstTile(plan, i) <= plan.tiles && TilesCoded(q[..], input, plan, ops, FirstTile(plan, i))
    modifies q
    ensures FirstTile(plan, i + 1) <= plan.tiles && TilesCoded(q[..], input, plan, ops, FirstTile(plan, i + 1))
    ensures i == 0 ==> IsScale(scale, ops, RowPages(input, plan), plan.stride, plan.rows)
  {
    hide FirstTile, FirstDense, NumDense, LastCount, PackOf, IsGathered, HoldsMaxima, GatherTiles, DenseCoded, IsScale,
         Written, KeptOutside,
      Holds, IsCode, Plan.Cores, InRow, AllPages, RowPages, SharePages;
    GatheredMaxima(gather, input, plan);
    GatherLength(gather, input, plan);
    SharesAreRow(input, plan);
    ShareTiles(plan, i);
    ShareInRow(plan, i, q.Length) by { WiderRow(plan, |input|, q.Length); }
    var s, dense := ShareOf(plan, i), DenseOf(buffer, ShareOf(plan, i).n);
    var out;
    out, scale := PhaseTwo(dense, gather, plan.stride, plan.Cores(), plan.rows, ops, Shares(input, plan, plan.Cores()));
    if i == 0 { FirstHasWork(plan); }
    ghost var before := q[..];
    UnpackTiles(out, s, FirstDense(plan.dense, plan.Cores(), i), q);
    EarlierKept(q[..], before, input, plan, ops, i);
    FirstTileOrdered(plan, i + 1);
    forall t: nat, m: nat, c: nat | t < FirstTile(plan, i + 1) && m < plan.rows && c < 32
      ensures IsCode(q[..], input, plan, ops, t, m, c)
    {
      if t >= FirstTile(plan, i) { ShareCoded(q[..], out, dense, input, plan, ops, i, t, m, c); }
    }
  }

  lemma WiderRow(plan: Plan, words: nat, more: nat)
    requires ValidPlan(plan, words) && plan.tiles * 1024 <= more
    ensures ValidPlan(plan, more)
  {}

  lemma GatherLength(gather: seq<Word>, input: seq<Word>, plan: Plan)
    requires ValidPlan(plan, |input|) && IsGathered(gather, input, plan)
    ensures |gather| == GatherTiles(plan.Cores(), plan.stride) * 1024
  {}

  /// The exchange carried through in the schedule's order, from whatever the
  /// buffers held: every core hands over a buffer that has every part.
  method ExchangeMaxima(input: seq<Word>, plan: Plan, slots: seq<seq<Word>>, memory: (nat, nat) -> Word,
                        next: Exchange.Schedule<Word>)
    returns (gathers: seq<seq<Word>>)
    requires ValidPlan(plan, |input|) && slots == ExchangeOf(input, plan).parts && Exchange.Schedules(next)
    ensures |gathers| == plan.Cores()
    ensures forall k: nat :: k < plan.Cores() ==> IsGathered(gathers[k], input, plan)
  {
    hide GatherTiles, IsGathered, Exchange.IsRun, Exchange.Schedules, PartWords, SharePages;
    ExchangeIsValid(input, plan);
    BufferFits(plan);
    var size := GatherTiles(plan.Cores(), plan.stride) * 1024;
    var job := Exchange.Job(slots, Pieces(plan.stride), PieceWords(plan.stride));
    var before := seq(|slots|, d requires 0 <= d < |slots| => seq(size, x requires 0 <= x < size => memory(d, x)));
    ghost var states, steps;
    gathers, states, steps := Exchange.Carry(job, before, next);
    forall k: nat | k < plan.Cores() ensures IsGathered(gathers[k], input, plan) {
      assert Exchange.HandedAt(states, k, gathers[k]);
      var n: nat :| n < |states| && k in states[n].passed && k < |states[n].gather|
        && states[n].gather[k] == gathers[k];
      RunLength(job, states, steps);
      HandedOver(input, plan, states, steps, n, k);
    }
  }

  lemma RunLength(job: Exchange.Job<Word>, states: seq<Exchange.State<Word>>, steps: seq<Exchange.Step>)
    requires Exchange.IsRun(job, states, steps)
    ensures |states| == |steps| + 1
  {}

  /// Every core's first phase.
  method PhaseOnes(input: seq<Word>, plan: Plan) returns (buffers: seq<seq<Word>>, slots: seq<seq<Word>>)
    requires ValidPlan(plan, |input|)
    ensures |buffers| == plan.Cores() && slots == ExchangeOf(input, plan).parts
    ensures forall k: nat :: k < plan.Cores() ==> HasDense(buffers[k], input, plan, k)
  {
    hide PartWords, SharePages, HasDense, ShareOf, Plan.Cores;
    buffers, slots := [], [];
    var i := 0;
    while i < plan.Cores()
      invariant 0 <= i <= plan.Cores() && |buffers| == i && |slots| == i
      invariant forall k: nat :: k < i ==> slots[k] == PartWords(SharePages(input, plan, k), plan.stride)
      invariant forall k: nat :: k < i ==> HasDense(buffers[k], input, plan, k)
    {
      var buffer, slot := PhaseOne(input, plan, i);
      DenseHeld(buffer[..], input, plan, i);
      buffers, slots := buffers + [buffer[..]], slots + [slot];
      i := i + 1;
    }
  }

  /// Core k's dense tiles.
  ghost predicate HasDense(buffer: seq<Word>, input: seq<Word>, plan: Plan, k: nat)
    requires ValidPlan(plan, |input|) && k < plan.Cores()
  {
    ShareOf(plan, k).n * 1024 <= |buffer|
      && Holds(ShareOf(plan, k), DenseOf(buffer, ShareOf(plan, k).n), SharePages(input, plan, k))
  }

  lemma DenseHeld(buffer: seq<Word>, input: seq<Word>, plan: Plan, k: nat)
    requires ValidPlan(plan, |input|) && k < plan.Cores() && |buffer| == ShareOf(plan, k).n * 1024
    requires Holds(ShareOf(plan, k), DenseOf(buffer, ShareOf(plan, k).n), SharePages(input, plan, k))
    ensures HasDense(buffer, input, plan, k)
  {}

  /// Every core's second phase.
  method PhaseTwos(input: seq<Word>, plan: Plan, buffers: seq<seq<Word>>, gathers: seq<seq<Word>>, ops: Ops,
                   q: array<Word>)
    returns (scale: seq<Word>)
    requires ValidPlan(plan, |input|) && plan.tiles * 1024 <= q.Length && (plan.rows < 4 ==> plan.stride == 4)
    requires |buffers| == |gathers| == plan.Cores()
    requires forall k: nat :: k < plan.Cores() ==>
      HasDense(buffers[k], input, plan, k) && IsGathered(gathers[k], input, plan)
    modifies q
    ensures TilesCoded(q[..], input, plan, ops, plan.tiles)
    ensures IsScale(scale, ops, RowPages(input, plan), plan.stride, plan.rows)
  {
    hide FirstTile, ShareOf, IsScale, IsCode, Plan.Cores, RowPages, SharePages, IsGathered, Holds;
    ShareTiles(plan, 0);
    scale := [];
    var i := 0;
    while i < plan.Cores()
      invariant 0 <= i <= plan.Cores()
      invariant FirstTile(plan, i) <= plan.tiles && TilesCoded(q[..], input, plan, ops, FirstTile(plan, i))
      invariant i > 0 ==> IsScale(scale, ops, RowPages(input, plan), plan.stride, plan.rows)
    {
      assert HasDense(buffers[i], input, plan, i);
      var made := FinishCore(input, plan, i, buffers[i], gathers[i], ops, q);
      if i == 0 { scale := made; }
      i := i + 1;
    }
  }

  /// The operation: every element's code is under its row's scale, and the scale
  /// tile has the scales, whatever the rows, the tiles, the grid, what the gather
  /// buffers held before and the order in which the exchange happens.
  method QuantizeRow(input: seq<Word>, rows: nat, tiles: nat, gridX: nat, gridY: nat, ops: Ops,
                     memory: (nat, nat) -> Word,
                     next: Exchange.Schedule<Word>, q: array<Word>)
    returns (plan: Plan, scale: seq<Word>)
    requires Exchange.Schedules(next)
    requires 0 < rows <= 32 && tiles > 0 && gridX > 0 && gridY > 0 && tiles * 1024 <= |input|
      && tiles * 1024 <= q.Length
    modifies q
    ensures plan.rows == rows && plan.tiles == tiles && ValidPlan(plan, |input|)
    ensures TilesCoded(q[..], input, plan, ops, tiles)
    ensures IsScale(scale, ops, RowPages(input, plan), plan.stride, rows)
  {
    hide GatherTiles, IsScale, TilesCoded, RowPages, HasDense, ExchangeOf, Limit, IsGathered, Exchange.Schedules;
    plan := QuantizeRowsPlan(rows, tiles, gridX, gridY);
    PlanHasCores(plan);
    var buffers, slots := PhaseOnes(input, plan);
    var gathers := ExchangeMaxima(input, plan, slots, memory, next);
    scale := PhaseTwos(input, plan, buffers, gathers, ops, q);
  }

  lemma PlanHasCores(plan: Plan)
    requires plan.width > 0 && plan.height > 0
    ensures plan.Cores() > 0
  {
    MulMonotone(1, plan.width, plan.height);
  }
}
