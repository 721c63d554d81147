/// The rows_gather kernels: each core moves a contiguous range of transfers,
/// which may start and end inside a position. The reader decodes positions,
/// reads table chunks into the rows buffer and realigns column windows; the
/// writer stores each transfer in the output.
module RowsGatherKernels {
  import opened RowMajor
  import opened IndexedRows
  import opened IndexedRowsCommon
  import opened Words32
  import opened Chunks
  import opened WorkSplit

  datatype Job<!T> = Job(
    g: Geometry, table: seq<T>, words: seq<Word>, unsigned: bool, fill: bool, zero: T,
    chunk: nat, entry: nat, granule: nat, group: nat, indexBatch: nat, indexStride: nat)
  {
    ghost predicate Valid() {
      && g.Valid() && ExtentsFit(g.sizes, g.windows)
      && |words| == g.IndexElements() && |table| == g.TableElements()
      && 1 <= chunk <= g.R && chunk <= entry && (g.column ==> g.Width() + granule <= entry)
      && 1 <= granule && 1 <= group && 1 <= indexBatch && indexBatch + GRANULE_WORDS <= indexStride
      && g.B * g.M < NO_ITEM
    }

    ghost function Values(): seq<int> { IndexValues(unsigned, words) }

    /// What the whole program is to produce.
    ghost function Final(): seq<T>
      requires Valid()
    {
      RowsGather(g, table, Values(), fill, zero)
    }

    /// The output in transfers: a transfer is one chunk of an output page, or
    /// one column window.
    function Output(): Pages
      requires 1 <= |g.sizes| == |g.windows|
    {
      if g.column then Pages(g.Width(), g.Width(), entry, 0, g.B * g.M * g.W())
      else Pages(g.R, chunk, entry, 0, g.B * g.M * g.W() * g.S)
    }

    /// Transfers per position.
    function PerItem(): nat
      requires 1 <= |g.sizes| == |g.windows| && Output().Valid()
    {
      PerItemOf(g.W(), g.S, Output().C())
    }
  }

  function PerItemOf(W: nat, S: nat, C: nat): nat { W * (S * C) }

  const NO_ITEM := 0xFFFF_FFFF

  lemma OutputValid<T>(job: Job<T>)
    requires job.Valid()
    ensures job.Output().Valid()
    ensures job.g.column ==> job.Output().C() == 1
    ensures job.Output().R * job.g.S == job.g.Width()
  {
    if job.g.column {
      var w := job.g.Width();
      DivModUnique(w + w - 1, w, 1, w - 1);
    }
  }

  /// The parts of transfer q: its position, window row, page of the row and chunk of the page.
  datatype Transfer = Transfer(item: nat, j: nat, s: nat, c: nat)

  function Split(q: nat, W: nat, S: nat, C: nat): Transfer
    requires 0 < PerItemOf(W, S, C)
  {
    PositiveFactors(W, S * C, 0);
    PositiveFactors(S, C, 0);
    var t := q % (W * (S * C));
    Transfer(Quotient(q, W * (S * C)), Quotient(t, S * C), Quotient(t, C) % S, t % C)
  }

  /// A transfer's parts, as digits: chunk, page, window row, position.
  lemma SplitDigits(q: nat, W: nat, S: nat, C: nat)
    requires 0 < PerItemOf(W, S, C)
    ensures var x := Split(q, W, S, C);
      && x.j < W && x.s < S && x.c < C
      && q / C == (x.item * W + x.j) * S + x.s && q % C == x.c
  {
    PositiveFactors(W, S * C, 0);
    PositiveFactors(S, C, 0);
    var per, x := W * (S * C), Split(q, W, S, C);
    var t := q % per;
    DivMod(q, per);
    DivMod(t, S * C);
    DivMod(t, C);
    PositiveFactors(W, S * C, t);
    var u := t / C;
    DivMod(u, S);
    // u / S is the window row
    DigitsOf(t, S, C);
    // q == item * per + t and C divides per
    MulAssoc(W, S, C);
    MulAssoc(x.item, W * S, C);
    MulDistribute(x.item * (W * S), u, C);
    DivModUnique(q, C, x.item * (W * S) + u, x.c);
    MulAssoc(x.item, W, S);
    MulDistribute(x.item * W, x.j, S);
  }

  lemma DigitsOf(t: nat, S: nat, C: nat)
    requires S > 0 && C > 0 && S * C > 0
    ensures t / C == (t / (S * C)) * S + (t / C) % S
  {
    DivMod(t, C);
    DivMod(t / C, S);
    var j, s, c := t / C / S, (t / C) % S, t % C;
    MulDistribute(j * S, s, C);
    MulAssoc(j, S, C);
    NestBound(s, S, c, C);
    DivModUnique(t, S * C, j, s * C + c);
  }

  /// Element o of transfer q is element s * R + c * chunk + o of its window row.
  lemma TransferPlace<T>(job: Job<T>, q: nat, o: nat)
    requires job.Valid() && job.Output().Valid() && 0 < job.PerItem()
    requires q < job.Output().Total() && o < job.Output().Length(q)
    ensures var x := Split(q, job.g.W(), job.g.S, job.Output().C());
      && 0 < job.g.M && x.item / job.g.M < job.g.B && x.item % job.g.M < job.g.M
      && x.j < job.g.W() && x.s < job.g.S
      && x.s * job.Output().R + job.Output().OffsetOf(q) + o < job.g.Width()
      && job.Output().Element(q, o)
      == job.g.MovedPlace(x.item / job.g.M, x.item % job.g.M, x.j, x.s * job.Output().R + job.Output().OffsetOf(q) + o)
  {
    hide Geometry.TableElements, Geometry.IndexElements;
    OutputValid(job);
    var p, W, S, M := job.Output(), job.g.W(), job.g.S, job.g.M;
    var x := Split(q, W, S, p.C());
    SplitDigits(q, W, S, p.C());
    TransferItem(job, q);
    ChunkElement(p, q, o);
    DivMod(x.item, M);
    PlaceOfTransfer(x.item, W, x.j, S, x.s, p.R, p.OffsetOf(q) + o);
  }

  lemma TransferItem<T>(job: Job<T>, q: nat)
    requires job.Valid() && job.Output().Valid() && 0 < job.PerItem() && q < job.Output().Total()
    ensures Split(q, job.g.W(), job.g.S, job.Output().C()).item < job.g.B * job.g.M
    ensures 0 < job.g.M
    ensures Split(q, job.g.W(), job.g.S, job.Output().C()).item / job.g.M < job.g.B
  {
    hide Geometry.TableElements, Geometry.IndexElements;
    OutputValid(job);
    var p, W, S := job.Output(), job.g.W(), job.g.S;
    var x := Split(q, W, S, p.C());
    TotalTransfers(job);
    PositiveFactors(job.g.B * job.g.M, job.PerItem(), q);
    PositiveFactors(job.g.B, job.g.M, x.item);
  }

  lemma TotalTransfers<T>(job: Job<T>)
    requires job.Valid() && job.Output().Valid()
    ensures job.Output().Total() == (job.g.B * job.g.M) * job.PerItem()
  {
    hide Geometry.TableElements, Geometry.IndexElements;
    OutputValid(job);
    var items, W, S, C := job.g.B * job.g.M, job.g.W(), job.g.S, job.Output().C();
    MulAssoc(items, W, S * C);
    MulAssoc(items * W, S, C);
    if job.g.column { assert S == 1 && items * W * S == items * W; }
  }

  lemma PlaceOfTransfer(item: nat, W: nat, j: nat, S: nat, s: nat, R: nat, offset: nat)
    requires j < W && s < S && offset < R
    ensures s * R + offset < R * S
    ensures ((item * W + j) * S + s) * R + offset == (item * W + j) * (R * S) + (s * R + offset)
  {
    MulStrict(s, S, R);
    MulDistribute((item * W + j) * S, s, R);
    MulAssoc(item * W + j, S, R);
  }

  // ---- what a transfer moves ----

  /// The transfer names a position and one of its window rows.
  ghost predicate Located<T>(job: Job<T>, x: Transfer)
    requires job.Valid()
  {
    IsItem(job.g, x.item) && x.j < job.g.W()
  }

  ghost predicate IsItem(g: Geometry, item: nat) {
    0 < g.M && item / g.M < g.B
  }

  ghost function PositionOf<T>(job: Job<T>, item: nat): (c: seq<nat>)
    requires job.Valid() && IsItem(job.g, item)
    ensures Fits(job.g, c)
  {
    Coords(job.g, job.Values(), item / job.g.M, item % job.g.M)
  }

  ghost predicate ItemInBounds<T>(job: Job<T>, item: nat)
    requires job.Valid() && IsItem(job.g, item)
  {
    InBounds(job.g, job.Values(), item / job.g.M, item % job.g.M)
  }

  function PageIn(b: nat, N: nat, row: nat, S: nat, s: nat): nat { (b * N + row) * S + s }

  function ElementIn(page: nat, R: nat, offset: nat): nat { page * R + offset }

  ghost function TableSlice<T>(job: Job<T>, x: Transfer, coords: seq<nat>): (n: nat)
    requires job.Valid() && Fits(job.g, coords) && Located(job, x)
    ensures n + job.g.Width() <= job.g.TableElements()
  {
    SlicePlace(job.g, coords, x.item / job.g.M, x.j)
  }

  ghost function TablePage<T>(job: Job<T>, x: Transfer, coords: seq<nat>): nat
    requires job.Valid() && Fits(job.g, coords) && Located(job, x)
  {
    PageIn(x.item / job.g.M, job.g.N, Row(job.g, coords, x.j), job.g.S, x.s)
  }

  ghost function TableOffset<T>(job: Job<T>, q: nat, coords: seq<nat>): nat
    requires job.Valid() && job.Output().Valid() && Fits(job.g, coords)
  {
    if job.g.column then coords[job.g.K() - 1] else job.Output().OffsetOf(q)
  }

  ghost function PartsOf<T>(job: Job<T>, q: nat): Transfer
    requires job.Valid() && job.Output().Valid() && 0 < job.PerItem()
  {
    Split(q, job.g.W(), job.g.S, job.Output().C())
  }

  /// Where within its window row transfer q starts.
  ghost function Within<T>(job: Job<T>, q: nat): nat
    requires job.Valid() && job.Output().Valid() && 0 < job.PerItem()
  {
    ElementIn(PartsOf(job, q).s, job.Output().R, job.Output().OffsetOf(q))
  }

  lemma SourceOfTransfer(b: nat, N: nat, row: nat, S: nat, s: nat, R: nat, offset: nat)
    ensures ElementIn(PageIn(b, N, row, S, s), R, offset) == (b * N + row) * (S * R) + ElementIn(s, R, offset)
  {
    MulAssoc(b * N + row, S, R);
    MulDistribute((b * N + row) * S, s, R);
  }

  /// Transfer q's parts, and how much of its window row lies from it on.
  lemma TransferParts<T>(job: Job<T>, q: nat)
    requires job.Valid() && job.Output().Valid() && 0 < job.PerItem() && q < job.Output().Total()
    ensures Located(job, PartsOf(job, q)) && PartsOf(job, q).s < job.g.S && PartsOf(job, q).item < job.g.B * job.g.M
    ensures Within(job, q) + job.Output().Length(q) <= job.g.Width()
  {
    hide Geometry.TableElements, Geometry.IndexElements, Geometry.MovedElements, Split;
    TransferItem(job, q);
    TransferPlace(job, q, job.Output().Length(q) - 1);
  }

  /// The page and offset the reader addresses is the transfer's place in its slice.
  lemma TransferSource<T>(job: Job<T>, q: nat, coords: seq<nat>)
    requires job.Valid() && job.Output().Valid() && 0 < job.PerItem() && q < job.Output().Total()
    requires Fits(job.g, coords) && Located(job, PartsOf(job, q))
    ensures ElementIn(TablePage(job, PartsOf(job, q), coords), job.g.R, TableOffset(job, q, coords))
         == TableSlice(job, PartsOf(job, q), coords) + Within(job, q)
  {
    hide Geometry.TableElements, Geometry.IndexElements, Geometry.MovedElements, Geometry.W, Row, Split, ElementIn,
         PageIn;
    OutputValid(job);
    var x := PartsOf(job, q);
    var b, row := x.item / job.g.M, Row(job.g, coords, x.j);
    SourceOfTransfer(b, job.g.N, row, job.g.S, x.s, job.g.R, TableOffset(job, q, coords));
    if job.g.column {
      ColumnTransfer(job, q);
      FirstElement(job.g.R, TableOffset(job, q, coords));
      FirstElement(job.Output().R, job.Output().OffsetOf(q));
    }
  }

  lemma FirstElement(R: nat, offset: nat)
    ensures ElementIn(0, R, offset) == offset
  {}

  /// A column window is one transfer: the first of its row's single page.
  lemma ColumnTransfer<T>(job: Job<T>, q: nat)
    requires job.Valid() && job.Output().Valid() && 0 < job.PerItem() && job.g.column
    ensures PartsOf(job, q).s == 0 && job.Output().OffsetOf(q) == 0 && job.g.S == 1
  {
    OutputValid(job);
    SplitDigits(q, job.g.W(), job.g.S, job.Output().C());
  }

  /// The elements of transfer q in the output.
  lemma TransferValue<T>(job: Job<T>, q: nat, o: nat)
    requires job.Valid() && job.Output().Valid() && 0 < job.PerItem()
    requires q < job.Output().Total() && o < job.Output().Length(q)
    requires Located(job, PartsOf(job, q)) && Within(job, q) + job.Output().Length(q) <= job.g.Width()
    ensures job.Output().Element(q, o) < |job.Final()|
    ensures job.Final()[job.Output().Element(q, o)]
         == Gathered(job.g, job.table, job.Values(), job.fill, job.zero, PartsOf(job, q).item / job.g.M,
                     PartsOf(job, q).item % job.g.M, PartsOf(job, q).j, Within(job, q) + o)
  {
    hide Geometry.TableElements, Geometry.IndexElements, Geometry.MovedElements, Geometry.W, RowsGather, SlicePlace,
      Pages.Element, Pages.OffsetOf, Pages.Length, Geometry.MovedPlace, Split, InBounds, Coords, Gathered;
    TransferPlace(job, q, o);
    var x := PartsOf(job, q);
    RowsGatherAt(job.g, job.table, job.Values(), job.fill, job.zero, x.item / job.g.M, x.item % job.g.M, x.j,
                 Within(job, q) + o);
  }

  // ---- the index chunk cache ----

  /// The index chunk in L1 and the position decoded last.
  class IndexCache {
    const index: array<Word>
    /// The chunk holds items [chunkBegin, loadedEnd), from word `base` on.
    var chunkBegin: nat
    var loadedEnd: nat
    var base: nat
    var loaded: bool
    var item: nat
    var coords: seq<nat>
    var outOfBounds: bool

    constructor (index: array<Word>, firstItem: nat)
      ensures this.index == index && chunkBegin == loadedEnd == firstItem && !loaded && item == NO_ITEM
    {
      this.index := index;
      chunkBegin, loadedEnd, base, loaded := firstItem, firstItem, 0, false;
      item, coords, outOfBounds := NO_ITEM, [], false;
    }

    /// The chunk is one index batch's and holds its items' words; the decoded
    /// position, if any, is decoded right.
    ghost predicate Valid<T>(job: Job<T>)
      requires job.Valid()
      reads this, index
    {
      && (!loaded ==> chunkBegin == loadedEnd)
      && (loaded ==> ChunkHeld(job, index[..], base, chunkBegin, loadedEnd))
      && (item != NO_ITEM ==> Decoded(job, item, coords, outOfBounds))
    }

    /// Streams the positions of `next`'s batch from it on, as many as the buffer and the core's range take.
    method LoadChunk<T>(job: Job<T>, next: nat, endItem: nat)
      requires job.Valid() && next < endItem <= job.g.B * job.g.M
      requires job.g.K() * job.indexStride <= index.Length
      modifies this, index
      ensures loaded && chunkBegin == next < loadedEnd && ChunkHeld(job, index[..], base, chunkBegin, loadedEnd)
      ensures item == old(item) && coords == old(coords) && outOfBounds == old(outOfBounds)
    {
      hide Geometry.TableElements, Geometry.IndexElements;
      ItemBatch(job.g, next);
      var m := next % job.g.M;
      var n := endItem - next;
      if n > job.indexBatch { n := job.indexBatch; }
      if n > job.g.M - m { n := job.g.M - m; }
      base := StreamIndex(index, job.indexStride, job.g, job.words, next / job.g.M, m, n);
      loaded, chunkBegin, loadedEnd := true, next, next + n;
    }

    /// Makes `next` the decoded position, streaming the next chunk of its
    /// batch when the chunk does not reach it.
    method Locate<T>(job: Job<T>, next: nat, endItem: nat)
      requires job.Valid() && Valid(job) && chunkBegin <= next < endItem <= job.g.B * job.g.M
      requires job.g.K() * job.indexStride <= index.Length
      modifies this, index
      ensures Valid(job) && item == next && chunkBegin <= next
    {
      hide ChunkHeld, Decoded;
      if next == item { return; }
      if next >= loadedEnd { LoadChunk(job, next, endItem); }
      coords, outOfBounds := DecodeHeld(job, index, base, chunkBegin, loadedEnd, next);
      item := next;
    }
  }

  /// An item of the chunk, decoded.
  method DecodeHeld<T>(job: Job<T>, index: array<Word>, base: nat, chunkBegin: nat, ghost loadedEnd: nat, item: nat)
    returns (coords: seq<nat>, outOfBounds: bool)
    requires job.Valid() && ChunkHeld(job, index[..], base, chunkBegin, loadedEnd) && chunkBegin <= item < loadedEnd
    ensures Decoded(job, item, coords, outOfBounds)
  {
    hide ChunkHeld, Decoded, Geometry.TableElements, Geometry.IndexElements, HoldsPosition, Coords, ComponentsFit;
    HeldWords(job, index[..], base, chunkBegin, loadedEnd, item);
    var d := item - chunkBegin;
    ghost var b, m0 := chunkBegin / job.g.M, chunkBegin % job.g.M;
    coords, outOfBounds := DecodePosition(job.g, job.words, job.unsigned, index, base, job.indexStride, b, m0, d,
      job.g.K());
    DecodedRight(job, item, coords, outOfBounds);
  }

  ghost predicate ChunkHeld<T>(job: Job<T>, index: seq<Word>, base: nat, chunkBegin: nat, loadedEnd: nat)
    requires job.Valid()
  {
    && chunkBegin < loadedEnd && 0 < job.g.M && chunkBegin / job.g.M < job.g.B
    && chunkBegin % job.g.M + (loadedEnd - chunkBegin) <= job.g.M
    && HoldsIndex(index, base, job.indexStride, job.g, job.words, chunkBegin / job.g.M, chunkBegin % job.g.M,
       loadedEnd - chunkBegin)
  }

  ghost predicate Decoded<T>(job: Job<T>, item: nat, coords: seq<nat>, outOfBounds: bool)
    requires job.Valid()
  {
    && IsItem(job.g, item)
    && coords == PositionOf(job, item) && outOfBounds == !ItemInBounds(job, item)
  }

  lemma ItemBatch(g: Geometry, item: nat)
    requires item < g.B * g.M
    ensures IsItem(g, item) && item % g.M < g.M
  {
    PositiveFactors(g.B, g.M, item);
  }

  /// Items of the chunk are consecutive positions of its one batch.
  lemma HeldWords<T>(job: Job<T>, index: seq<Word>, base: nat, chunkBegin: nat, loadedEnd: nat, item: nat)
    requires job.Valid() && ChunkHeld(job, index, base, chunkBegin, loadedEnd) && chunkBegin <= item < loadedEnd
    ensures IsItem(job.g, chunkBegin) && IsItem(job.g, item)
    ensures item / job.g.M == chunkBegin / job.g.M
    ensures item % job.g.M == chunkBegin % job.g.M + (item - chunkBegin) < job.g.M
    ensures HoldsPosition(index, base, job.indexStride, job.g, job.words, chunkBegin / job.g.M, chunkBegin % job.g.M,
                          item - chunkBegin)
  {
    hide Geometry.TableElements, Geometry.IndexElements, HoldsWord;
    DivMod(chunkBegin, job.g.M);
    DivModUnique(item, job.g.M, chunkBegin / job.g.M, chunkBegin % job.g.M + (item - chunkBegin));
  }

  lemma DecodedRight<T>(job: Job<T>, item: nat, coords: seq<nat>, outOfBounds: bool)
    requires job.Valid() && IsItem(job.g, item)
    requires coords == PositionOf(job, item)[..job.g.K()]
    requires outOfBounds == !ItemInBounds(job, item)
    ensures Decoded(job, item, coords, outOfBounds)
  {
    hide Geometry.TableElements, Geometry.IndexElements, ComponentsFit;
  }

  // ---- the reader ----

  /// A column window's place in its output page.
  function ColumnOffset(g: Geometry, item: nat, j: nat): nat
    requires 1 <= |g.sizes| == |g.windows| && 0 < g.M
  {
    ((item % g.M) * g.W() + j) * g.Width()
  }

  /// Where in its entry the writer wants transfer q's data.
  function Pad<T>(job: Job<T>, x: Transfer): nat
    requires 1 <= |job.g.sizes| == |job.g.windows| && 0 < job.g.M && 1 <= job.granule
  {
    if job.g.column then ColumnOffset(job.g, x.item, x.j) % job.granule else 0
  }

  function EntryAt<T>(job: Job<T>, i: nat): nat { i * job.entry }

  /// Entry i of a group that starts with transfer q0 holds its output, `pad` elements in.
  ghost predicate EntryHeld<T>(job: Job<T>, rows: seq<T>, q0: nat, i: nat, pad: nat)
    requires job.Valid() && job.Output().Valid()
  {
    var n, dst := job.Output().Length(q0 + i), job.Output().Element(q0 + i, 0);
    && pad + n <= job.entry && EntryAt(job, i) + job.entry <= |rows| && dst + n <= |job.Final()|
    && rows[EntryAt(job, i) + pad..EntryAt(job, i) + pad + n] == job.Final()[dst..dst + n]
  }

  ghost predicate OnlyEntry<T>(job: Job<T>, before: seq<T>, after: seq<T>, i: nat) {
    && |before| == |after|
    && forall x :: 0 <= x < |before| && !(EntryAt(job, i) <= x < EntryAt(job, i) + job.entry) ==> after[x] == before[x]
  }

  lemma EntryKept<T>(job: Job<T>, before: seq<T>, after: seq<T>, q0: nat, i: nat, k: nat, pad: nat)
    requires job.Valid() && job.Output().Valid() && i != k
    requires EntryHeld(job, before, q0, k, pad) && OnlyEntry(job, before, after, i)
    ensures EntryHeld(job, after, q0, k, pad)
  {
    hide RowsGather, Geometry.TableElements, Geometry.IndexElements, Geometry.MovedElements, Pages.Element,
         Pages.Length;
    if i < k { MulStrict(i, k, job.entry); } else { MulStrict(k, i, job.entry); }
    var at, n := EntryAt(job, k) + pad, job.Output().Length(q0 + k);
    assert before[at..at + n] == after[at..at + n];
  }

  /// Clearing or copying `n` elements at `at` of entry i.
  method Place<T>(job: Job<T>, rows: array<T>, i: nat, pad: nat, n: nat, clear: bool, from: nat)
    requires job.Valid() && pad + n <= job.entry && EntryAt(job, i) + job.entry <= rows.Length
    requires !clear ==> from + n <= |job.table|
    modifies rows
    ensures OnlyEntry(job, old(rows[..]), rows[..], i)
    ensures forall x :: EntryAt(job, i) + pad <= x < EntryAt(job, i) + pad + n ==>
      rows[x] == (if clear then job.zero else job.table[from + (x - (EntryAt(job, i) + pad))])
  {
    hide Geometry.TableElements, Geometry.IndexElements, Geometry.MovedElements;
    var at := EntryAt(job, i) + pad;
    var t := 0;
    while t < n
      invariant 0 <= t <= n
      invariant OnlyEntry(job, old(rows[..]), rows[..], i)
      invariant forall x :: at <= x < at + t ==> rows[x] == (if clear then job.zero else job.table[from + (x - at)])
    {
      rows[at + t] := if clear then job.zero else job.table[from + t];
      t := t + 1;
    }
  }

  /// What was placed is what the output needs.
  lemma PlacedRight<T>(job: Job<T>, rows: seq<T>, q0: nat, i: nat, pad: nat, q: nat, clear: bool, from: nat)
    requires job.Valid() && job.Output().Valid() && 0 < job.PerItem() && q == q0 + i < job.Output().Total()
    requires Located(job, PartsOf(job, q)) && Within(job, q) + job.Output().Length(q) <= job.g.Width()
    requires clear == (job.fill && !ItemInBounds(job, PartsOf(job, q).item))
    requires from == TableSlice(job, PartsOf(job, q), PositionOf(job, PartsOf(job, q).item)) + Within(job, q)
    requires pad + job.Output().Length(q) <= job.entry && EntryAt(job, i) + job.entry <= |rows|
    requires forall x :: EntryAt(job, i) + pad <= x < EntryAt(job, i) + pad + job.Output().Length(q) ==>
      rows[x] == (if clear then job.zero else job.table[from + (x - (EntryAt(job, i) + pad))])
    ensures EntryHeld(job, rows, q0, i, pad)
  {
    hide RowsGather, Geometry.TableElements, Geometry.IndexElements, Geometry.MovedElements, Split, EntryAt, SlicePlace,
      Pages.OffsetOf, Pages.Length, InBounds, Coords, PartsOf, Within, Geometry.W;
    var n, dst, at := job.Output().Length(q), job.Output().Element(q, 0), EntryAt(job, i) + pad;
    TransferValue(job, q, n - 1);
    var held, want := rows[at..at + n], job.Final()[dst..dst + n];
    forall o | 0 <= o < |held| ensures held[o] == want[o] {
      TransferValue(job, q, o);
      assert held[o] == rows[at + o];
    }
  }

  lemma ColumnPage(b: nat, N: nat, row: nat)
    ensures PageIn(b, N, row, 1, 0) == b * N + row
  {}

  /// The table page and offset of transfer q, as the reader computes them.
  method AddressOf<T>(job: Job<T>, strides: seq<nat>, x: Transfer, q: nat, coords: seq<nat>)
    returns (page: nat, offset: nat)
    requires job.Valid() && job.Output().Valid() && 0 < job.PerItem() && q < job.Output().Total()
    requires x == PartsOf(job, q) && Located(job, x) && Fits(job.g, coords)
    requires IsRowStrides(job.g.sizes, job.g.KR(), strides)
    ensures page == TablePage(job, x, coords) && offset == TableOffset(job, q, coords)
  {
    hide Geometry.TableElements, Geometry.IndexElements, Split, PageIn, Row, Geometry.W;
    var b := x.item / job.g.M;
    var row := WindowRowOf(job.g, coords, x.j, strides);
    if job.g.column {
      ColumnTransfer(job, q);
      ColumnPage(b, job.g.N, row);
      page, offset := b * job.g.N + row, coords[job.g.K() - 1];
    } else {
      page, offset := PageIn(b, job.g.N, row, job.g.S, x.s), job.Output().OffsetOf(q);
    }
  }

  /// One transfer read into entry i, or zeros placed for it: `from` elements
  /// into the entry, where the writer will want it `goal` elements in.
  method ReadTransfer<T>(job: Job<T>, cache: IndexCache, rows: array<T>, strides: seq<nat>, q0: nat, i: nat,
                         endItem: nat)
    returns (from: nat, goal: nat)
    requires job.Valid() && job.Output().Valid() && 0 < job.PerItem() && q0 + i < job.Output().Total()
    requires IsRowStrides(job.g.sizes, job.g.KR(), strides) && job.g.K() * job.indexStride <= cache.index.Length
    requires cache.Valid(job) && cache.index as object != rows as object
    requires cache.chunkBegin <= PartsOf(job, q0 + i).item < endItem <= job.g.B * job.g.M
    requires EntryAt(job, i) + job.entry <= rows.Length
    modifies cache, cache.index, rows
    ensures cache.Valid(job) && cache.chunkBegin <= PartsOf(job, q0 + i).item
    ensures EntryHeld(job, rows[..], q0, i, from) && OnlyEntry(job, old(rows[..]), rows[..], i)
    ensures GoalOf(job, q0, i, goal)
  {
    hide Geometry.TableElements, Geometry.IndexElements, Geometry.W, Split, PageIn, ElementIn, Row, InBounds, Coords,
      RowsGather, EntryHeld, OnlyEntry, EntryAt, TablePage, TableOffset, Pages.Element, ChunkHeld, ColumnOffset;
    var q := q0 + i;
    var x := Split(q, job.g.W(), job.g.S, job.Output().C());
    TransferParts(job, q);
    OutputValid(job);
    cache.Locate(job, x.item, endItem);
    var page, offset := AddressOf(job, strides, x, q, cache.coords);
    TransferSource(job, q, cache.coords);
    var n := job.Output().Length(q);
    from, goal := 0, 0;
    if job.g.column {
      ColumnLength(job, q);
      from, goal := offset % job.granule, ColumnOffset(job.g, x.item, x.j) % job.granule;
    }
    var clear := job.fill && cache.outOfBounds;
    if clear { from := goal; }
    var source := ElementIn(page, job.g.R, offset);
    Place(job, rows, i, from, n, clear, source);
    PlacedRight(job, rows[..], q0, i, from, q, clear, source);
  }

  lemma ColumnLength<T>(job: Job<T>, q: nat)
    requires job.Valid() && job.Output().Valid() && job.g.column
    ensures job.Output().Length(q) == job.g.Width()
  {
    OutputValid(job);
    DivMod(q, 1);
  }

  ghost predicate Grouped<T>(job: Job<T>, rows: array<T>, q0: nat, count: nat) {
    && job.Valid() && job.Output().Valid() && 0 < job.PerItem()
    && 0 < count <= job.group && q0 + count <= job.Output().Total() && EntryAt(job, job.group) <= rows.Length
  }

  /// Where the writer wants transfer q0 + i.
  ghost predicate GoalOf<T>(job: Job<T>, q0: nat, i: nat, goal: nat)
    requires job.Valid() && job.Output().Valid() && 0 < job.PerItem()
  {
    0 < job.g.M && goal == Pad(job, PartsOf(job, q0 + i)) && goal + job.Output().Length(q0 + i) <= job.entry
  }

  ghost predicate GoalHeld<T>(job: Job<T>, rows: seq<T>, q0: nat, i: nat)
    requires job.Valid() && job.Output().Valid() && 0 < job.PerItem()
  {
    0 < job.g.M && EntryHeld(job, rows, q0, i, Pad(job, PartsOf(job, q0 + i)))
  }

  lemma EntryRoom<T>(job: Job<T>, length: nat, i: nat, n: nat)
    requires i < n && EntryAt(job, n) <= length
    ensures EntryAt(job, i) + job.entry <= length
  {
    MulStrict(i, n, job.entry);
  }

  /// Later transfers belong to later positions or the same one.
  lemma ItemOrder<T>(job: Job<T>, q: nat, r: nat)
    requires job.Valid() && job.Output().Valid() && 0 < job.PerItem() && q <= r
    ensures PartsOf(job, q).item <= PartsOf(job, r).item
  {
    DivMonotone(q, r, job.PerItem());
  }

  /// The reader's group: `count` transfers from q0 on, read and then realigned.
  method ReadGroup<T>(job: Job<T>, cache: IndexCache, rows: array<T>, strides: seq<nat>, q0: nat, count: nat,
                      endItem: nat)
    requires Grouped(job, rows, q0, count)
    requires IsRowStrides(job.g.sizes, job.g.KR(), strides) && job.g.K() * job.indexStride <= cache.index.Length
    requires cache.Valid(job) && cache.index as object != rows as object
    requires cache.chunkBegin <= PartsOf(job, q0).item
      && PartsOf(job, q0 + count - 1).item < endItem <= job.g.B * job.g.M
    modifies cache, cache.index, rows
    ensures cache.Valid(job) && cache.chunkBegin <= PartsOf(job, q0 + count - 1).item
    ensures forall i :: 0 <= i < count ==> GoalHeld(job, rows[..], q0, i)
  {
    hide EntryHeld, OnlyEntry, Pad, GoalOf, PartsOf, IsRowStrides, EntryAt, Geometry.TableElements,
         Geometry.IndexElements, Geometry.W, Pages.Total, Pages.Length;
    var starts, goals := [], [];
    var i := 0;
    while i < count
      invariant 0 <= i <= count && |starts| == |goals| == i
      invariant cache.Valid(job)
      invariant cache.chunkBegin <= PartsOf(job, if i == 0 then q0 else q0 + i - 1).item
      invariant forall k :: 0 <= k < i ==> EntryHeld(job, rows[..], q0, k, starts[k])
      invariant forall k :: 0 <= k < i ==> GoalOf(job, q0, k, goals[k])
    {
      ItemOrder(job, if i == 0 then q0 else q0 + i - 1, q0 + i);
      ItemOrder(job, q0 + i, q0 + count - 1);
      EntryRoom(job, rows.Length, i, job.group);
      ghost var before := rows[..];
      var from, goal := ReadTransfer(job, cache, rows, strides, q0, i, endItem);
      forall k | 0 <= k < i ensures EntryHeld(job, rows[..], q0, k, starts[k]) {
        EntryKept(job, before, rows[..], q0, i, k, starts[k]);
      }
      starts, goals := starts + [from], goals + [goal];
      i := i + 1;
    }
    RealignGroup(job, rows, q0, count, starts, goals);
  }

  method RealignGroup<T>(job: Job<T>, rows: array<T>, q0: nat, count: nat, starts: seq<nat>, goals: seq<nat>)
    requires Grouped(job, rows, q0, count) && |starts| == |goals| == count
    requires forall k :: 0 <= k < count ==> EntryHeld(job, rows[..], q0, k, starts[k])
    requires forall k :: 0 <= k < count ==> GoalOf(job, q0, k, goals[k])
    modifies rows
    ensures forall k :: 0 <= k < count ==> GoalHeld(job, rows[..], q0, k)
  {
    hide EntryHeld, OnlyEntry, Pad, PartsOf, EntryAt, Geometry.TableElements, Geometry.IndexElements, Geometry.W,
         Pages.Total;
    var i := 0;
    while i < count
      invariant 0 <= i <= count
      invariant forall k :: 0 <= k < i ==> EntryHeld(job, rows[..], q0, k, goals[k])
      invariant forall k :: i <= k < count ==> EntryHeld(job, rows[..], q0, k, starts[k])
    {
      ghost var before := rows[..];
      assert GoalOf(job, q0, i, goals[i]);
      RealignEntry(job, rows, q0, i, starts[i], goals[i]);
      forall k | 0 <= k < i ensures EntryHeld(job, rows[..], q0, k, goals[k]) {
        EntryKept(job, before, rows[..], q0, i, k, goals[k]);
      }
      forall k | i < k < count ensures EntryHeld(job, rows[..], q0, k, starts[k]) {
        EntryKept(job, before, rows[..], q0, i, k, starts[k]);
      }
      i := i + 1;
    }
    forall k | 0 <= k < count ensures GoalHeld(job, rows[..], q0, k) {
      assert GoalOf(job, q0, k, goals[k]);
    }
  }

  method RealignEntry<T>(job: Job<T>, rows: array<T>, q0: nat, i: nat, start: nat, goal: nat)
    requires job.Valid() && job.Output().Valid() && 0 < job.PerItem()
    requires EntryHeld(job, rows[..], q0, i, start) && goal + job.Output().Length(q0 + i) <= job.entry
    modifies rows
    ensures EntryHeld(job, rows[..], q0, i, goal) && OnlyEntry(job, old(rows[..]), rows[..], i)
  {
    hide RowsGather, Geometry.TableElements, Geometry.IndexElements, Geometry.W, Pages.Element, EntryAt;
    OutputValid(job);
    Realign(rows, EntryAt(job, i), start, goal, job.Output().Length(q0 + i));
  }

  // ---- the writer ----

  /// Output page and offset, flattened: whole rows have pages of R elements,
  /// column windows one page per batch.
  function OutputPlace<T>(job: Job<T>, x: Transfer, offset: nat): nat
    requires 1 <= |job.g.sizes| == |job.g.windows| && 0 < job.g.M
  {
    if job.g.column then ElementIn(x.item / job.g.M, job.g.M * job.g.W() * job.g.Width(),
      ColumnOffset(job.g, x.item, x.j))
    else ElementIn((x.item * job.g.W() + x.j) * job.g.S + x.s, job.g.R, offset)
  }

  lemma ColumnOutput(item: nat, M: nat, W: nat, j: nat, width: nat)
    requires 0 < M
    ensures ElementIn(item / M, M * W * width, ((item % M) * W + j) * width) == (item * W + j) * width
  {
    DivMod(item, M);
    var b, m := item / M, item % M;
    MulAssoc(b, M * W, width);
    MulAssoc(b, M, W);
    MulDistribute(b * (M * W), m * W + j, width);
    MulDistribute(b * M, m, W);
  }

  /// The writer's address is the transfer's place in the output.
  lemma OutputAddress<T>(job: Job<T>, q: nat)
    requires job.Valid() && job.Output().Valid() && 0 < job.PerItem() && 0 < job.g.M
    ensures OutputPlace(job, PartsOf(job, q), job.Output().OffsetOf(q)) == job.Output().Element(q, 0)
  {
    hide Geometry.TableElements, Geometry.IndexElements, Split, Geometry.W;
    OutputValid(job);
    var x := PartsOf(job, q);
    SplitDigits(q, job.g.W(), job.g.S, job.Output().C());
    if job.g.column {
      ColumnTransfer(job, q);
      ColumnOutput(x.item, job.g.M, job.g.W(), x.j, job.g.Width());
      WholePage(q, (x.item * job.g.W() + x.j) * 1 + 0);
    }
  }

  lemma WholePage(q: nat, row: nat)
    ensures q / 1 == q && row * 1 + 0 == row
  {}

  /// Transfers [lo, hi) are in the output.
  ghost predicate Written<T>(job: Job<T>, output: seq<T>, lo: nat, hi: nat)
    requires job.Valid() && job.Output().Valid()
  {
    forall q: nat, o: nat :: lo <= q < hi && o < job.Output().Length(q) ==> ElementWritten(job, output, q, o)
  }

  ghost predicate ElementWritten<T>(job: Job<T>, output: seq<T>, q: nat, o: nat)
    requires job.Valid() && job.Output().Valid()
  {
    var y := job.Output().Element(q, o);
    y < |output| && y < |job.Final()| && output[y] == job.Final()[y]
  }

  /// Nothing but transfers [lo, hi) was written.
  ghost predicate OnlyTransfers<T>(job: Job<T>, before: seq<T>, after: seq<T>, lo: nat, hi: nat)
    requires job.Valid() && job.Output().Valid()
  {
    && |before| == |after|
    && forall q: nat, o: nat :: (q < lo || hi <= q) && o < job.Output().Length(q) ==> Kept(job, before, after, q, o)
  }

  ghost predicate Kept<T>(job: Job<T>, before: seq<T>, after: seq<T>, q: nat, o: nat)
    requires job.Valid() && job.Output().Valid() && |before| == |after|
  {
    job.Output().Element(q, o) < |before| ==> after[job.Output().Element(q, o)] == before[job.Output().Element(q, o)]
  }

  /// Writing transfer q0 + i from its entry.
  lemma TransferWritten<T>(job: Job<T>, before: seq<T>, rows: seq<T>, q0: nat, i: nat, pad: nat)
    requires job.Valid() && job.Output().Valid() && EntryHeld(job, rows, q0, i, pad) && |before| == |job.Final()|
    ensures Written(job, ApplySlice(before, job.Output().Element(q0 + i, 0), rows, EntryAt(job, i) + pad,
                                    job.Output().Length(q0 + i), Overwrite), q0 + i, q0 + i + 1)
  {
    hide RowsGather, Geometry.TableElements, Geometry.IndexElements, Geometry.MovedElements, Geometry.W, EntryAt,
         Pages.Length,
      Pages.Element, ElementWritten, ApplySlice, Product;
    var p, r := job.Output(), q0 + i;
    var n, dst, at := p.Length(r), p.Element(r, 0), EntryAt(job, i) + pad;
    var after := ApplySlice(before, dst, rows, at, n, Overwrite);
    forall q: nat, o: nat | r <= q < r + 1 && o < p.Length(q) ensures ElementWritten(job, after, q, o) {
      SliceCopied(before, dst, rows, at, n, job.Final(), o);
      NextElement(p, r, o);
      WrittenElement(job, after, r, o);
    }
  }

  lemma NextElement(p: Pages, q: nat, o: nat)
    requires p.Valid()
    ensures p.Element(q, o) == p.Element(q, 0) + o
  {}

  lemma WrittenElement<T>(job: Job<T>, output: seq<T>, q: nat, o: nat)
    requires job.Valid() && job.Output().Valid()
    requires var y := job.Output().Element(q, o); y < |output| && y < |job.Final()| && output[y] == job.Final()[y]
    ensures ElementWritten(job, output, q, o)
  {}

  /// A copied slice that equals part of `want` makes that part of the target equal it too.
  lemma SliceCopied<T>(before: seq<T>, dst: nat, rows: seq<T>, at: nat, n: nat, want: seq<T>, o: nat)
    requires dst + n <= |before| && at + n <= |rows| && dst + n <= |want| && o < n
    requires rows[at..at + n] == want[dst..dst + n]
    ensures ApplySlice(before, dst, rows, at, n, Overwrite)[dst + o] == want[dst + o]
  {
    assert rows[at..at + n][o] == want[dst..dst + n][o];
  }

  lemma OtherTransfersKept<T>(job: Job<T>, before: seq<T>, rows: seq<T>, r: nat, at: nat)
    requires job.Valid() && job.Output().Valid() && at + job.Output().Length(r) <= |rows|
    requires job.Output().Element(r, 0) + job.Output().Length(r) <= |before|
    ensures OnlyTransfers(job, before, ApplySlice(before, job.Output().Element(r, 0), rows, at, job.Output().Length(r),
      Overwrite), r, r + 1)
  {
    hide RowsGather, Geometry.TableElements, Geometry.IndexElements, Geometry.MovedElements, Geometry.W, Pages.Length,
      Pages.PageOf, Pages.OffsetOf, Pages.C;
    var p := job.Output();
    var n, dst := p.Length(r), p.Element(r, 0);
    var after := ApplySlice(before, dst, rows, at, n, Overwrite);
    forall q: nat, o: nat | (q < r || r + 1 <= q) && o < p.Length(q) ensures Kept(job, before, after, q, o) {
      var y := p.Element(q, o);
      if dst <= y < dst + n {
        assert p.Element(r, y - dst) == y;
        ElementsApart(p, q, o, r, y - dst);
      }
    }
  }

  lemma ElementStays<T>(job: Job<T>, before: seq<T>, after: seq<T>, q: nat, o: nat)
    requires job.Valid() && job.Output().Valid() && |before| == |after|
    requires ElementWritten(job, before, q, o) && Kept(job, before, after, q, o)
    ensures ElementWritten(job, after, q, o)
  {
    hide RowsGather, Geometry.TableElements, Geometry.IndexElements, Geometry.MovedElements, Geometry.W, Pages.Element;
  }

  lemma WrittenGrows<T>(job: Job<T>, before: seq<T>, after: seq<T>, lo: nat, r: nat)
    requires job.Valid() && job.Output().Valid() && lo <= r && |before| == |after|
    requires Written(job, before, lo, r) && Written(job, after, r, r + 1) && OnlyTransfers(job, before, after, r, r + 1)
    ensures Written(job, after, lo, r + 1)
  {
    hide ElementWritten, Kept, RowsGather, Geometry.TableElements, Geometry.IndexElements, Geometry.MovedElements,
         Geometry.W,
      Product, Pages.Length, Pages.Element, Pages.C;
    forall q: nat, o: nat | lo <= q < r + 1 && o < job.Output().Length(q) ensures ElementWritten(job, after, q, o) {
      if q < r {
        assert ElementWritten(job, before, q, o);
        assert Kept(job, before, after, q, o);
        ElementStays(job, before, after, q, o);
      }
    }
  }

  lemma OnlyGrows<T>(job: Job<T>, first: seq<T>, before: seq<T>, after: seq<T>, lo: nat, r: nat)
    requires job.Valid() && job.Output().Valid() && lo <= r
    requires OnlyTransfers(job, first, before, lo, r) && OnlyTransfers(job, before, after, r, r + 1)
    ensures OnlyTransfers(job, first, after, lo, r + 1)
  {
    hide RowsGather, Geometry.TableElements, Geometry.IndexElements, Geometry.MovedElements, Pages.Length,
         Pages.Element;
    forall q: nat, o: nat | (q < lo || r + 1 <= q) && o < job.Output().Length(q) ensures Kept(job, first, after, q, o) {
      assert Kept(job, first, before, q, o);
      assert Kept(job, before, after, q, o);
    }
  }

  /// The writer's part of one transfer.
  method WriteTransfer<T>(job: Job<T>, rows: array<T>, output: array<T>, q0: nat, i: nat)
    requires job.Valid() && job.Output().Valid() && 0 < job.PerItem() && rows != output
    requires output.Length == |job.Final()| && GoalHeld(job, rows[..], q0, i)
    modifies output
    ensures Written(job, output[..], q0 + i, q0 + i + 1)
    ensures OnlyTransfers(job, old(output[..]), output[..], q0 + i, q0 + i + 1)
  {
    hide RowsGather, Geometry.TableElements, Geometry.IndexElements, Geometry.MovedElements, Geometry.W, EntryAt,
         Written,
      OnlyTransfers, OutputPlace, Split, Pages.Length, Pages.Element, Pages.OffsetOf, ColumnOffset;
    var x := Split(q0 + i, job.g.W(), job.g.S, job.Output().C());
    var offset := job.Output().OffsetOf(q0 + i);
    var pad := Pad(job, x);
    OutputAddress(job, q0 + i);
    ghost var before := output[..];
    WriteDram(output, OutputPlace(job, x, offset), rows, EntryAt(job, i) + pad, job.Output().Length(q0 + i));
    TransferWritten(job, before, rows[..], q0, i, pad);
    OtherTransfersKept(job, before, rows[..], q0 + i, EntryAt(job, i) + pad);
  }

  method WriteGroup<T>(job: Job<T>, rows: array<T>, output: array<T>, ghost first: nat, q0: nat, count: nat,
                       ghost start: seq<T>)
    requires job.Valid() && job.Output().Valid() && 0 < job.PerItem() && rows != output && first <= q0
    requires output.Length == |job.Final()| && forall i :: 0 <= i < count ==> GoalHeld(job, rows[..], q0, i)
    requires Written(job, output[..], first, q0) && OnlyTransfers(job, start, output[..], first, q0)
    modifies output
    ensures Written(job, output[..], first, q0 + count) && OnlyTransfers(job, start, output[..], first, q0 + count)
  {
    hide GoalHeld, Written, OnlyTransfers, RowsGather, Geometry.TableElements, Geometry.IndexElements,
         Geometry.MovedElements;
    var i := 0;
    while i < count
      invariant 0 <= i <= count
      invariant Written(job, output[..], first, q0 + i) && OnlyTransfers(job, start, output[..], first, q0 + i)
    {
      ghost var before := output[..];
      WriteTransfer(job, rows, output, q0, i);
      WrittenGrows(job, before, output[..], first, q0 + i);
      OnlyGrows(job, start, before, output[..], first, q0 + i);
      i := i + 1;
    }
  }

  // ---- a core, and all of them ----

  /// One core's transfers [first, first + count), wherever the range starts and
  /// ends: each is written with its output, and nothing else is.
  method GatherCore<T>(job: Job<T>, index: array<Word>, rows: array<T>, output: array<T>, first: nat, count: nat)
    requires job.Valid() && 0 < job.PerItem() && job.Output().Valid() && first + count <= job.Output().Total()
    requires job.g.K() * job.indexStride <= index.Length && EntryAt(job, job.group) <= rows.Length
    requires rows != output && index as object != rows as object && index as object != output as object
    requires output.Length == |job.Final()|
    modifies index, rows, output
    ensures Written(job, output[..], first, first + count)
    ensures OnlyTransfers(job, old(output[..]), output[..], first, first + count)
  {
    hide GoalHeld, Written, OnlyTransfers, RowsGather, Split, Geometry.TableElements, Geometry.IndexElements,
      Geometry.MovedElements, Pages.Total, Geometry.W;
    NothingWrittenYet(job, output[..], first);
    if count == 0 { return; }
    var perItem := job.PerItem();
    var firstItem := first / perItem;
    var endItem := (first + count - 1) / perItem + 1;
    CoreItems(job, first, count);
    var strides := RowStrides(job.g.sizes, job.g.KR());
    var cache := new IndexCache(index, firstItem);
    var q := 0;
    while q < count
      invariant 0 <= q <= count && fresh(cache) && cache.index == index
      invariant cache.Valid(job)
      invariant cache.chunkBegin <= PartsOf(job, if q == 0 then first else first + q - 1).item
      invariant Written(job, output[..], first, first + q)
      invariant OnlyTransfers(job, old(output[..]), output[..], first, first + q)
    {
      var n := if count - q < job.group then count - q else job.group;
      ItemOrder(job, if q == 0 then first else first + q - 1, first + q);
      ItemOrder(job, first + q + n - 1, first + count - 1);
      ReadGroup(job, cache, rows, strides, first + q, n, endItem);
      WriteGroup(job, rows, output, first, first + q, n, old(output[..]));
      q := q + n;
    }
  }

  lemma NothingWrittenYet<T>(job: Job<T>, output: seq<T>, first: nat)
    requires job.Valid() && job.Output().Valid()
    ensures Written(job, output, first, first) && OnlyTransfers(job, output, output, first, first)
  {
    hide RowsGather, Geometry.TableElements, Geometry.IndexElements, Geometry.MovedElements;
  }

  lemma CoreItems<T>(job: Job<T>, first: nat, count: nat)
    requires job.Valid() && job.Output().Valid() && 0 < job.PerItem() && 0 < count
      && first + count <= job.Output().Total()
    ensures PartsOf(job, first).item == first / job.PerItem()
    ensures PartsOf(job, first + count - 1).item == (first + count - 1) / job.PerItem() < job.g.B * job.g.M
  {
    hide Geometry.TableElements, Geometry.IndexElements;
    TransferItem(job, first + count - 1);
  }

  ghost predicate CoreDone<T>(job: Job<T>, output: seq<T>, counts: seq<nat>, c: nat)
    requires job.Valid() && job.Output().Valid() && c < |counts|
  {
    Written(job, output, FirstOf(counts, c), FirstOf(counts, c) + counts[c])
  }

  lemma DoneStaysDone<T>(job: Job<T>, before: seq<T>, after: seq<T>, counts: seq<nat>, c: nat, d: nat)
    requires job.Valid() && job.Output().Valid() && c < |counts| && d < |counts| && |before| == |after|
    requires CoreDone(job, before, counts, c) && CoreDone(job, after, counts, d)
    requires OnlyTransfers(job, before, after, FirstOf(counts, d), FirstOf(counts, d) + counts[d])
    ensures CoreDone(job, after, counts, c)
  {
    hide ElementWritten, Kept, RowsGather, FirstOf, Geometry.TableElements, Geometry.IndexElements,
         Geometry.MovedElements, Geometry.W,
      Product, Pages.Length, Pages.Element, Pages.C, ExtentsFit;
    forall q: nat, o: nat | FirstOf(counts, c) <= q < FirstOf(counts, c) + counts[c] && o < job.Output().Length(q)
      ensures ElementWritten(job, after, q, o)
    {
      assert ElementWritten(job, before, q, o);
      if FirstOf(counts, d) <= q < FirstOf(counts, d) + counts[d] {
        assert ElementWritten(job, after, q, o);
      } else {
        assert Kept(job, before, after, q, o);
        ElementStays(job, before, after, q, o);
      }
    }
  }

  /// Every output element belongs to exactly one transfer.
  lemma OneTransferPerElement<T>(job: Job<T>, y: nat) returns (q: nat, o: nat)
    requires job.Valid() && job.Output().Valid() && y < job.g.MovedElements()
    ensures q < job.Output().Total() && o < job.Output().Length(q) && job.Output().Element(q, o) == y
    ensures forall r: nat, e: nat :: e < job.Output().Length(r) && job.Output().Element(r, e) == y ==> r == q && e == o
  {
    hide Geometry.TableElements, Geometry.IndexElements, Geometry.W, Pages.C, Pages.Total;
    var p := job.Output();
    OutputSize(job);
    var page, offset := y / p.R, y % p.R;
    DivMod(y, p.R);
    PositiveFactors(p.count, p.R, y);
    ChunkStart(p, page, offset);
    DivMod(offset, p.chunk);
    q, o := p.ChunkOf(page, offset), offset % p.chunk;
    forall r: nat, e: nat | e < p.Length(r) && p.Element(r, e) == y ensures r == q && e == o {
      ElementsApart(p, r, e, q, o);
    }
  }

  lemma OutputSize<T>(job: Job<T>)
    requires job.Valid() && job.Output().Valid()
    ensures job.Output().count * job.Output().R == job.g.MovedElements()
  {
    if !job.g.column { MulAssoc(job.g.B * job.g.M * job.g.W(), job.g.S, job.g.R); }
  }

  /// Every core, in any order and however the transfers are divided among
  /// them, even inside a position: the output is `rows_gather`'s.
  method GatherCores<T>(job: Job<T>, counts: seq<nat>, order: seq<nat>, index: array<Word>, rows: array<T>,
                        output: array<T>)
    requires job.Valid() && job.Output().Valid() && 0 < job.PerItem()
      && FirstOf(counts, |counts|) == job.Output().Total()
    requires (forall i :: 0 <= i < |order| ==> order[i] < |counts|) && (forall c :: 0 <= c < |counts| ==> c in order)
    requires job.g.K() * job.indexStride <= index.Length && EntryAt(job, job.group) <= rows.Length
    requires rows != output && index as object != rows as object && index as object != output as object
    requires output.Length == job.g.MovedElements()
    modifies index, rows, output
    ensures output[..] == RowsGather(job.g, job.table, job.Values(), job.fill, job.zero)
  {
    hide RowsGather, OnlyTransfers, CoreDone, Geometry.TableElements, Geometry.MovedElements, Geometry.IndexElements,
      Geometry.W, FirstOf, Pages.Total, EntryAt;
    var i := 0;
    while i < |order|
      invariant 0 <= i <= |order|
      invariant forall t :: 0 <= t < i ==> CoreDone(job, output[..], counts, order[t])
    {
      CoreRange(job, counts, order[i]);
      ghost var before := output[..];
      GatherCore(job, index, rows, output, FirstOf(counts, order[i]), counts[order[i]]);
      CoreIsDone(job, output[..], counts, order[i]);
      forall t | 0 <= t < i ensures CoreDone(job, output[..], counts, order[t]) {
        DoneStaysDone(job, before, output[..], counts, order[t], order[i]);
      }
      i := i + 1;
    }
    AllDone(job, output[..], counts, order);
  }

  lemma CoreIsDone<T>(job: Job<T>, output: seq<T>, counts: seq<nat>, c: nat)
    requires job.Valid() && job.Output().Valid() && c < |counts|
    requires Written(job, output, FirstOf(counts, c), FirstOf(counts, c) + counts[c])
    ensures CoreDone(job, output, counts, c)
  {
    hide Written, RowsGather, FirstOf, Geometry.TableElements, Geometry.IndexElements, Geometry.MovedElements,
         Geometry.W, Product;
  }

  lemma CoreRange<T>(job: Job<T>, counts: seq<nat>, c: nat)
    requires job.Valid() && job.Output().Valid() && c < |counts| && FirstOf(counts, |counts|) == job.Output().Total()
    ensures FirstOf(counts, c) + counts[c] <= job.Output().Total()
  {
    RangeFits(counts, c, job.Output().Total());
    hide Geometry.TableElements, Geometry.IndexElements, Geometry.MovedElements, Geometry.W, Pages.Total, Product,
         FirstOf;
  }

  lemma RangeFits(counts: seq<nat>, c: nat, total: nat)
    requires c < |counts| && FirstOf(counts, |counts|) == total
    ensures FirstOf(counts, c) + counts[c] <= total
  {
    FirstOfMonotone(counts, c + 1, |counts|);
  }

  lemma AllDone<T>(job: Job<T>, output: seq<T>, counts: seq<nat>, order: seq<nat>)
    requires job.Valid() && job.Output().Valid() && |output| == job.g.MovedElements()
    requires FirstOf(counts, |counts|) == job.Output().Total()
    requires (forall i :: 0 <= i < |order| ==> order[i] < |counts|) && (forall c :: 0 <= c < |counts| ==> c in order)
    requires forall t :: 0 <= t < |order| ==> CoreDone(job, output, counts, order[t])
    ensures output == job.Final()
  {
    hide RowsGather, Geometry.TableElements, Geometry.IndexElements, Geometry.MovedElements, Pages.Length,
         Pages.Element,
      Pages.Total, FirstOf;
    forall y | 0 <= y < |output| ensures output[y] == job.Final()[y] {
      var q, o := OneTransferPerElement(job, y);
      var c := OwnerOf(counts, |counts|, q);
      assert c in order;
      assert CoreDone(job, output, counts, c);
      assert ElementWritten(job, output, q, o);
    }
  }
}
