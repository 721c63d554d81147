/// The rows_scatter kernels: a core copies its pages a batch of chunks at a time,
/// makes all updates that meet the copy, and writes the copy to the output.
module RowsScatter {
  import opened RowMajor
  import opened IndexedRows
  import opened IndexedRowsCommon
  import opened Words32
  import opened Chunks
  import opened WorkSplit

  /// One core's compile-time arguments, run-time arguments and DRAM inputs.
  datatype Job<!T> = Job(
    g: Geometry, table: seq<T>, words: seq<Word>, unsigned: bool, source: seq<T>, reduce: Reduce<T>,
    p: Pages, indexBatch: nat, indexStride: nat, granule: nat)
  {
    ghost predicate Valid() {
      && g.Valid() && ExtentsFit(g.sizes, g.windows)
      && |words| == g.IndexElements() && |table| == g.TableElements() && |source| == g.MovedElements()
      && p.Valid() && p.R == g.R && p.first + p.count <= g.TablePages() <= TWO_32
      && 1 <= indexBatch && indexBatch + GRANULE_WORDS <= indexStride && 1 <= granule
    }

    ghost function Values(): seq<int> { IndexValues(unsigned, words) }

    /// The table after every update before (b, m, j).
    ghost function After(b: nat, m: nat, j: nat): seq<T>
      requires Valid() && b <= g.B && m <= g.M && j <= g.W()
      requires b == g.B ==> m == 0 && j == 0
      requires m == g.M ==> j == 0
    {
      Scattered(g, table, Values(), source, reduce, b, m, j)
    }

    ghost function Position(b: nat, m: nat): seq<nat>
      requires Valid() && b < g.B && m < g.M
    {
      Coords(g, Values(), b, m)
    }
  }

  datatype Buffers<T> = Buffers(rows: array<T>, index: array<Word>, stream: array<T>, scratch: array<T>)
  {
    ghost predicate Apart() {
      && rows != stream && rows != scratch && stream != scratch
      && rows as object != index as object
      && stream as object != index as object
      && scratch as object != index as object
    }
  }

  /// reduce_rows or copy_l1: `n` source elements applied to the copy at `dst`.
  method ApplyUpdates<T>(rows: array<T>, dst: nat, source: array<T>, from: nat, n: nat, reduce: Reduce<T>)
    requires rows != source && dst + n <= rows.Length && from + n <= source.Length
    modifies rows
    ensures rows[..] == ApplySlice(old(rows[..]), dst, source[..], from, n, reduce)
  {
    var i := 0;
    while i < n
      invariant 0 <= i <= n
      invariant forall x :: dst <= x < dst + i ==> rows[x] == reduce.Apply(old(rows[x]), source[from + (x - dst)])
      invariant forall x :: 0 <= x < rows.Length && !(dst <= x < dst + i) ==> rows[x] == old(rows[x])
    {
      rows[dst + i] := reduce.Apply(rows[dst + i], source[from + i]);
      i := i + 1;
    }
  }

  /// Where the copy holds a page's chunk, if it does.
  method InBatch(p: Pages, q0: nat, count: nat, page: nat, offset: nat) returns (found: bool, l1: nat)
    requires p.Valid() && offset < p.R
    ensures found <==> p.first <= page < p.first + p.count && q0 <= p.ChunkOf(page, offset) < q0 + count
    ensures found ==> l1 == p.Slot(q0, p.ChunkOf(page, offset), offset % p.chunk)
    ensures found ==> l1 + (p.chunk - offset % p.chunk) <= count * p.entry
  {
    found, l1 := false, 0;
    if page < p.first || page >= p.first + p.count { return; }
    var q := (page - p.first) * p.C() + offset / p.chunk;
    if q < q0 || q >= q0 + count { return; }
    SlotBound(p, q0, q, count, p.chunk - 1);
    found, l1 := true, (q - q0) * p.entry + offset % p.chunk;
  }

  /// A piece whose chunk is another core's or another batch's.
  lemma PieceOutside(p: Pages, q0: nat, count: nat, page: nat, offset: nat, n: nat)
    requires p.Valid() && q0 + count <= p.Total()
    requires Within(p, offset, n)
    requires !(p.first <= page < p.first + p.count && q0 <= p.ChunkOf(page, offset) < q0 + count)
    ensures Outside(p, q0, count, page * p.R + offset, n)
  {
    hide Outside, Pages.Total, Pages.ChunkOf, Pages.C;
    if page < p.first {
      BelowFirst(p, q0, count, page, offset, n);
    } else {
      if page >= p.first + p.count { PastLast(p, page, offset); }
      PieceElsewhere(p, q0, count, page, offset, n);
    }
  }

  lemma PastLast(p: Pages, page: nat, offset: nat)
    requires p.Valid() && p.first + p.count <= page
    ensures p.ChunkOf(page, offset) >= p.Total()
  {
    MulMonotone(p.count, page - p.first, p.C());
  }

  lemma BelowFirst(p: Pages, q0: nat, count: nat, page: nat, offset: nat, n: nat)
    requires p.Valid() && page < p.first && offset + n <= p.R
    ensures Outside(p, q0, count, page * p.R + offset, n)
  {
    MulDistribute(page, 1, p.R);
    PagesElsewhere(p, q0, count, page * p.R + offset, n, page, page + 1);
  }

  lemma PieceSkipped<T>(p: Pages, l1: seq<T>, out: seq<T>, q0: nat, count: nat, page: nat, offset: nat,
                        source: seq<T>, from: nat, n: nat, reduce: Reduce<T>)
    requires p.Valid() && Synced(p, l1, out, q0, count) && q0 + count <= p.Total()
    requires Within(p, offset, n)
    requires page * p.R + offset + n <= |out| && from + n <= |source|
    requires !(p.first <= page < p.first + p.count && q0 <= p.ChunkOf(page, offset) < q0 + count)
    ensures Synced(p, l1, ApplySlice(out, page * p.R + offset, source, from, n, reduce), q0, count)
  {
    hide Synced, Outside, ApplySlice, Pages.C, Pages.Total, Pages.ChunkOf;
    PieceOutside(p, q0, count, page, offset, n);
    SkipSlice(p, l1, out, q0, count, page * p.R + offset, source, from, n, reduce);
  }

  /// One piece: applied when its chunk is in the batch, skipped otherwise.
  method ApplyPiece<T>(p: Pages, rows: array<T>, q0: nat, count: nat, page: nat, offset: nat,
                       source: array<T>, from: nat, n: nat, reduce: Reduce<T>, ghost out: seq<T>)
    requires p.Valid() && rows != source && Synced(p, rows[..], out, q0, count) && q0 + count <= p.Total()
    requires Within(p, offset, n)
    requires page * p.R + offset + n <= |out| && from + n <= source.Length && count * p.entry <= rows.Length
    modifies rows
    ensures Synced(p, rows[..], ApplySlice(out, page * p.R + offset, source[..], from, n, reduce), q0, count)
  {
    var found, dst := InBatch(p, q0, count, page, offset);
    if found {
      PieceApplied(p, rows[..], out, q0, count, page, offset, dst, page * p.R + offset, source[..], from, n, reduce);
      ApplyUpdates(rows, dst, source, from, n, reduce);
    } else {
      PieceSkipped(p, rows[..], out, q0, count, page, offset, source[..], from, n, reduce);
    }
  }

  /// A column window, which may straddle chunks: each chunk of the batch takes its part.
  method ApplyWindow<T>(p: Pages, rows: array<T>, q0: nat, count: nat, page: nat, column: nat,
                        source: array<T>, from: nat, width: nat, reduce: Reduce<T>, ghost out: seq<T>)
    requires p.Valid() && rows != source && Synced(p, rows[..], out, q0, count) && q0 + count <= p.Total()
    requires column + width <= p.R && page * p.R + column + width <= |out|
    requires from + width <= source.Length && count * p.entry <= rows.Length
    modifies rows
    ensures Synced(p, rows[..], ApplySlice(out, page * p.R + column, source[..], from, width, reduce), q0, count)
  {
    hide Synced, Pages.C, Pages.Total;
    ghost var at := page * p.R + column;
    ghost var held := source[..];
    var offset, src, left := column, from, width;
    SliceOfNothing(out, at, held, from, reduce);
    ghost var now := out;
    while left > 0
      invariant 0 <= left <= width && offset == column + (width - left) && src == from + (width - left)
      invariant source[..] == held && now == ApplySlice(out, at, held, from, width - left, reduce)
      invariant Synced(p, rows[..], now, q0, count)
    {
      var room := p.chunk - offset % p.chunk;
      var n := if left < room then left else room;
      ApplyPiece(p, rows, q0, count, page, offset, source, src, n, reduce, now);
      SliceInParts(out, at, held, from, width - left, n, reduce);
      now := ApplySlice(now, page * p.R + offset, held, src, n, reduce);
      offset, src, left := offset + n, src + n, left - n;
    }
  }

  /// Window row j of a position, as one slice of whatever holds its source.
  lemma WindowRowFrom<T>(job: Job<T>, b: nat, m: nat, j: nat, out: seq<T>, at: nat, held: seq<T>, from: nat, width: nat)
    requires job.Valid() && b < job.g.B && m < job.g.M && j < job.g.W() && |out| == |job.table|
    requires at == SlicePlace(job.g, job.Position(b, m), b, j) && width == job.g.Width()
    requires from + width <= |held|
    requires held[from..from + width] == job.source[job.g.SourcePlace(b, m, j)..job.g.SourcePlace(b, m, j) + width]
    ensures at + width <= |out|
    ensures ApplySlice(out, at, held, from, width, job.reduce)
         == WindowRow(job.g, out, job.Values(), job.source, job.reduce, b, m, j)
  {
    SliceFrom(out, at, held, from, job.source, job.g.SourcePlace(b, m, j), width, job.reduce);
  }

  /// Updates one chunk of the copy: replaced by the source's, or reduced with it
  /// element by element.
  method ApplyPageChunk<T>(p: Pages, l1: Buffers<T>, q0: nat, count: nat, page: nat, offset: nat,
                           source: seq<T>, from: nat, n: nat, reduce: Reduce<T>, ghost out: seq<T>)
    requires p.Valid() && l1.Apart() && Synced(p, l1.rows[..], out, q0, count) && q0 + count <= p.Total()
    requires Within(p, offset, n)
    requires page * p.R + offset + n <= |out| && from + n <= |source|
    requires count * p.entry <= l1.rows.Length && p.chunk <= l1.scratch.Length
    modifies l1.rows, l1.scratch
    ensures Synced(p, l1.rows[..], ApplySlice(out, page * p.R + offset, source, from, n, reduce), q0, count)
  {
    var found, dst := InBatch(p, q0, count, page, offset);
    if !found {
      PieceSkipped(p, l1.rows[..], out, q0, count, page, offset, source, from, n, reduce);
      return;
    }
    PieceApplied(p, l1.rows[..], out, q0, count, page, offset, dst, page * p.R + offset, source, from, n, reduce);
    if reduce.Overwrite? {
      ReadDram(l1.rows, dst, source, from, n);
    } else {
      ghost var before := l1.rows[..];
      ReadDram(l1.scratch, 0, source, from, n);
      SliceFrom(before, dst, l1.scratch[..], 0, source, from, n, reduce);
      ApplyUpdates(l1.rows, dst, l1.scratch, 0, n, reduce);
    }
  }

  /// Whole page `page`, chunk by chunk.
  method ApplyPage<T>(p: Pages, l1: Buffers<T>, q0: nat, count: nat, page: nat,
                      source: seq<T>, from: nat, reduce: Reduce<T>, ghost out: seq<T>)
    requires p.Valid() && l1.Apart() && Synced(p, l1.rows[..], out, q0, count) && q0 + count <= p.Total()
    requires page * p.R + p.R <= |out| && from + p.R <= |source|
    requires count * p.entry <= l1.rows.Length && p.chunk <= l1.scratch.Length
    modifies l1.rows, l1.scratch
    ensures Synced(p, l1.rows[..], ApplySlice(out, page * p.R, source, from, p.R, reduce), q0, count)
  {
    hide Synced, Pages.C, Pages.Total, Aligned, Within, ApplySlice;
    ghost var at := page * p.R;
    SliceOfNothing(out, at, source, from, reduce);
    AlignedStart(p);
    ghost var now := out;
    var offset := 0;
    while offset < p.R
      invariant 0 <= offset && Aligned(p, offset)
      invariant now == ApplySlice(out, at, source, from, if offset < p.R then offset else p.R, reduce)
      invariant Synced(p, l1.rows[..], now, q0, count)
    {
      var n := if p.R - offset < p.chunk then p.R - offset else p.chunk;
      AlignedChunk(p, offset, n);
      ApplyPageChunk(p, l1, q0, count, page, offset, source, from + offset, n, reduce, now);
      SliceInParts(out, at, source, from, offset, n, reduce);
      now := ApplySlice(now, at + offset, source, from + offset, n, reduce);
      offset := offset + p.chunk;
    }
  }

  /// Skipping [at, at + n) of a slice that resumes after it.
  lemma SkipPart<T>(p: Pages, l1: seq<T>, out: seq<T>, q0: nat, count: nat,
                    at: nat, source: seq<T>, from: nat, done: nat, n: nat, reduce: Reduce<T>)
    requires p.Valid() && at + done + n <= |out| && from + done + n <= |source|
    requires Synced(p, l1, ApplySlice(out, at, source, from, done, reduce), q0, count)
    requires Outside(p, q0, count, at + done, n)
    ensures Synced(p, l1, ApplySlice(out, at, source, from, done + n, reduce), q0, count)
  {
    SliceInParts(out, at, source, from, done, n, reduce);
    SkipSlice(p, l1, ApplySlice(out, at, source, from, done, reduce), q0, count, at + done, source, from + done, n,
      reduce);
  }

  /// Pages [first + done, first + end) of a row, one after the other.
  method ApplyPages<T>(p: Pages, l1: Buffers<T>, q0: nat, count: nat, first: nat, pages: nat, done: nat, end: nat,
                       source: seq<T>, from: nat, reduce: Reduce<T>, ghost out: seq<T>)
    requires p.Valid() && l1.Apart() && q0 + count <= p.Total() && done <= end <= pages
    requires first * p.R + pages * p.R <= |out| && from + pages * p.R <= |source| && done * p.R <= pages * p.R
    requires Synced(p, l1.rows[..], ApplySlice(out, first * p.R, source, from, done * p.R, reduce), q0, count)
    requires count * p.entry <= l1.rows.Length && p.chunk <= l1.scratch.Length
    modifies l1.rows, l1.scratch
    ensures end * p.R <= pages * p.R
    ensures Synced(p, l1.rows[..], ApplySlice(out, first * p.R, source, from, end * p.R, reduce), q0, count)
  {
    hide Synced, Pages.C, Pages.Total;
    var s := done;
    while s < end
      invariant done <= s <= end && s * p.R <= pages * p.R
      invariant Synced(p, l1.rows[..], ApplySlice(out, first * p.R, source, from, s * p.R, reduce), q0, count)
    {
      RowPart(first, pages, s, p.R);
      ghost var now := ApplySlice(out, first * p.R, source, from, s * p.R, reduce);
      SliceInParts(out, first * p.R, source, from, s * p.R, p.R, reduce);
      ApplyPage(p, l1, q0, count, first + s, source, from + s * p.R, reduce, now);
      s := s + 1;
    }
  }

  /// A whole row: only its pages with a chunk in the batch are visited.
  method ApplyRow<T>(p: Pages, l1: Buffers<T>, q0: nat, count: nat, first: nat, pages: nat, batchLo: nat, batchHi: nat,
                     source: seq<T>, from: nat, reduce: Reduce<T>, ghost out: seq<T>)
    requires p.Valid() && l1.Apart() && Synced(p, l1.rows[..], out, q0, count) && 0 < count && q0 + count <= p.Total()
    requires first * p.R + pages * p.R <= |out| && from + pages * p.R <= |source|
    requires count * p.entry <= l1.rows.Length && p.chunk <= l1.scratch.Length
    requires batchLo <= p.PageOf(q0) && p.PageOf(q0 + count - 1) < batchHi
    modifies l1.rows, l1.scratch
    ensures Synced(p, l1.rows[..], ApplySlice(out, first * p.R, source, from, pages * p.R, reduce), q0, count)
  {
    var pageLo := if batchLo > first then batchLo else first;
    var pageHi := if batchHi < first + pages then batchHi else first + pages;
    var lo := if pageLo < first + pages then pageLo - first else pages;
    var hi := if pageHi > first + lo then pageHi - first else lo;
    RowPart(first, pages, lo, p.R);
    RowPart(first, pages, hi, p.R);
    SkipToPage(p, l1.rows[..], out, q0, count, first, lo, source, from, reduce);
    ApplyPages(p, l1, q0, count, first, pages, lo, hi, source, from, reduce, out);
    SkipFromPage(p, l1.rows[..], out, q0, count, first, hi, pages, source, from, reduce);
  }

  lemma RowElsewhere(p: Pages, q0: nat, count: nat, first: nat, pages: nat)
    requires p.Valid() && 0 < count
    requires first + pages <= p.PageOf(q0) || p.PageOf(q0 + count - 1) < first
    ensures Outside(p, q0, count, first * p.R, pages * p.R)
  {
    MulDistribute(first, pages, p.R);
    PagesElsewhere(p, q0, count, first * p.R, pages * p.R, first, first + pages);
  }

  lemma SkipToPage<T>(p: Pages, l1: seq<T>, out: seq<T>, q0: nat, count: nat, first: nat, lo: nat,
                      source: seq<T>, from: nat, reduce: Reduce<T>)
    requires p.Valid() && Synced(p, l1, out, q0, count) && 0 < count
    requires first * p.R + lo * p.R <= |out| && from + lo * p.R <= |source|
    requires lo == 0 || first + lo <= p.PageOf(q0)
    ensures Synced(p, l1, ApplySlice(out, first * p.R, source, from, lo * p.R, reduce), q0, count)
  {
    if lo == 0 {
      SliceOfNothing(out, first * p.R, source, from, reduce);
    } else {
      RowElsewhere(p, q0, count, first, lo);
      SkipSlice(p, l1, out, q0, count, first * p.R, source, from, lo * p.R, reduce);
    }
  }

  lemma SkipFromPage<T>(p: Pages, l1: seq<T>, out: seq<T>, q0: nat, count: nat, first: nat, hi: nat, pages: nat,
                        source: seq<T>, from: nat, reduce: Reduce<T>)
    requires p.Valid() && 0 < count && hi <= pages && hi * p.R <= pages * p.R
    requires first * p.R + pages * p.R <= |out| && from + pages * p.R <= |source|
    requires Synced(p, l1, ApplySlice(out, first * p.R, source, from, hi * p.R, reduce), q0, count)
    requires hi == pages || p.PageOf(q0 + count - 1) < first + hi
    ensures Synced(p, l1, ApplySlice(out, first * p.R, source, from, pages * p.R, reduce), q0, count)
  {
    if hi < pages {
      MulDistribute(first, hi, p.R);
      MulDistribute(hi, pages - hi, p.R);
      RowElsewhere(p, q0, count, first + hi, pages - hi);
      SkipPart(p, l1, out, q0, count, first * p.R, source, from, hi * p.R, (pages - hi) * p.R, reduce);
    }
  }

  lemma RowPart(first: nat, pages: nat, s: nat, R: nat)
    requires s <= pages
    ensures s * R <= pages * R && (first + s) * R == first * R + s * R
    ensures s < pages ==> (s + 1) * R == s * R + R <= pages * R
  {
    MulMonotone(s, pages, R);
    if s < pages { MulStrict(s, pages, R); }
  }

  // ---- positions ----

  /// An out-of-bounds position changes nothing, however many rows it names.
  lemma {:induction false} PositionDropped<T>(job: Job<T>, b: nat, m: nat, j: nat)
    requires job.Valid() && b < job.g.B && m < job.g.M && j <= job.g.W()
    requires !InBounds(job.g, job.Values(), b, m)
    ensures job.After(b, m, j) == job.After(b, m, 0)
  {
    if j > 0 { PositionDropped(job, b, m, j - 1); }
  }

  lemma CorePages(p: Pages, q0: nat, count: nat)
    requires p.Valid() && 0 < count && q0 + count <= p.Total()
    ensures 0 < p.count && p.first <= p.PageOf(q0)
    ensures p.PageOf(q0 + count - 1) < p.first + p.count
  {
    PositiveFactors(p.count, p.C(), q0 + count - 1);
  }

  lemma PageOfAnotherCore(p: Pages, q0: nat, count: nat, page: nat, offset: nat, n: nat)
    requires p.Valid() && 0 < count && q0 + count <= p.Total() && offset + n <= p.R
    requires !(p.first <= page < p.first + p.count)
    ensures Outside(p, q0, count, page * p.R + offset, n)
  {
    CorePages(p, q0, count);
    MulDistribute(page, 1, p.R);
    PagesElsewhere(p, q0, count, page * p.R + offset, n, page, page + 1);
  }

  /// In a table of one-page rows, a slice is part of its row's page.
  lemma SliceInPage(g: Geometry, coords: seq<nat>, b: nat, j: nat)
    requires g.Valid() && Fits(g, coords) && b < g.B && j < g.W() && g.S == 1
    ensures SlicePlace(g, coords, b, j) == (b * g.N + Row(g, coords, j)) * g.R + Start(g, coords)
    ensures Start(g, coords) + g.Width() <= g.R
  {}

  /// A row outside the core's pages is another core's to update.
  lemma RowOfAnotherCore<T>(job: Job<T>, l1: seq<T>, q0: nat, count: nat, b: nat, m: nat, j: nat, out: seq<T>)
    requires job.Valid() && b < job.g.B && m < job.g.M && j < job.g.W() && |out| == |job.table| && job.g.S == 1
    requires 0 < count && q0 + count <= job.p.Total() && Synced(job.p, l1, out, q0, count)
    requires !(job.p.first <= b * job.g.N + Row(job.g, job.Position(b, m), j) < job.p.first + job.p.count)
    ensures Synced(job.p, l1, WindowRow(job.g, out, job.Values(), job.source, job.reduce, b, m, j), q0, count)
  {
    hide Outside, Synced, ApplySlice, Row, Geometry.TableElements, Geometry.MovedElements, Geometry.TablePages,
         Geometry.IndexElements, Pages.C, Pages.PageOf, Pages.Total, SlicePlace, Geometry.SourcePlace, Product,
         IndexAt, IndexValues, Coords, Start;
    var coords := job.Position(b, m);
    SliceInPage(job.g, coords, b, j);
    var page, offset := b * job.g.N + Row(job.g, coords, j), Start(job.g, coords);
    PageOfAnotherCore(job.p, q0, count, page, offset, job.g.Width());
    SkipSlice(job.p, l1, out, q0, count, SlicePlace(job.g, coords, b, j), job.source, job.g.SourcePlace(b, m, j),
              job.g.Width(), job.reduce);
  }

  ghost predicate Batched<T>(job: Job<T>, l1: Buffers<T>, q0: nat, count: nat, batchLo: nat, batchHi: nat)
    requires job.Valid()
  {
    && l1.Apart() && 0 < count && q0 + count <= job.p.Total()
    && count * job.p.entry <= l1.rows.Length && job.p.chunk <= l1.scratch.Length
    && batchLo <= job.p.PageOf(q0) && job.p.PageOf(q0 + count - 1) < batchHi
  }

  /// Whether the stream buffer holds, from `at` on, the source of positions [m0, m0 + n) of batch b.
  ghost predicate HoldsSource<T>(job: Job<T>, stream: seq<T>, at: nat, b: nat, m0: nat, n: nat)
    requires job.Valid() && b < job.g.B && m0 + n <= job.g.M
  {
    && at + job.g.RunElements(n) <= |stream|
    && stream[at..at + job.g.RunElements(n)]
    == job.source[job.g.RunPlace(b, m0, n)..job.g.RunPlace(b, m0, n) + job.g.RunElements(n)]
  }

  lemma HeldWindow<T>(job: Job<T>, stream: seq<T>, at: nat, b: nat, m0: nat, n: nat, i: nat, j: nat)
    requires job.Valid() && b < job.g.B && i < n && m0 + n <= job.g.M && j < job.g.W()
    requires HoldsSource(job, stream, at, b, m0, n)
    ensures at + job.g.WindowStart(i, j) + job.g.Width() <= |stream|
    ensures stream[at + job.g.WindowStart(i, j)..at + job.g.WindowStart(i, j) + job.g.Width()]
         == job.source[job.g.SourcePlace(b, m0 + i, j)..job.g.SourcePlace(b, m0 + i, j) + job.g.Width()]
  {
    hide Geometry.TableElements, Geometry.MovedElements, Geometry.IndexElements, Geometry.TablePages,
      Geometry.RunElements, Geometry.RunPlace, Geometry.WindowStart, Geometry.SourcePlace, Geometry.W;
    WindowInRun(job.g, b, m0, n, i, j);
    SubRun(stream, at, job.source, job.g.RunPlace(b, m0, n), job.g.RunElements(n), job.g.WindowStart(i, j),
      job.g.Width());
  }

  lemma SubRun<T>(a: seq<T>, fromA: nat, c: seq<T>, fromC: nat, n: nat, d: nat, width: nat)
    requires fromA + n <= |a| && fromC + n <= |c| && d + width <= n
    requires a[fromA..fromA + n] == c[fromC..fromC + n]
    ensures a[fromA + d..fromA + d + width] == c[fromC + d..fromC + d + width]
  {
    var x, y := a[fromA..fromA + n], c[fromC..fromC + n];
    var p, q := a[fromA + d..fromA + d + width], c[fromC + d..fromC + d + width];
    forall t | 0 <= t < |p| ensures p[t] == q[t] {
      assert x[d + t] == y[d + t];
    }
  }

  /// A position's column window as a slice of the stream.
  lemma ColumnHeld<T>(job: Job<T>, stream: seq<T>, b: nat, m0: nat, n: nat, i: nat, j: nat, coords: seq<nat>, at: nat,
                      out: seq<T>)
    requires job.Valid() && b < job.g.B && i < n && m0 + n <= job.g.M && j < job.g.W()
    requires coords == job.Position(b, m0 + i) && |out| == |job.table| && HoldsSource(job, stream, at, b, m0, n)
    ensures SlicePlace(job.g, coords, b, j) + job.g.Width() <= |out|
    ensures at + job.g.WindowStart(i, j) + job.g.Width() <= |stream|
    ensures ApplySlice(out, SlicePlace(job.g, coords, b, j), stream, at + job.g.WindowStart(i, j), job.g.Width(),
                       job.reduce)
         == WindowRow(job.g, out, job.Values(), job.source, job.reduce, b, m0 + i, j)
  {
    hide WindowRow, Geometry.TableElements, Geometry.MovedElements, Geometry.TablePages, Geometry.IndexElements, Row,
         SlicePlace, Geometry.SourcePlace, Geometry.WindowStart, HoldsSource, ApplySlice, Product, Coords, IndexAt,
         IndexValues;
    HeldWindow(job, stream, at, b, m0, n, i, j);
    WindowRowFrom(job, b, m0 + i, j, out, SlicePlace(job.g, coords, b, j), stream, at + job.g.WindowStart(i, j),
                  job.g.Width());
  }

  /// Window row j of an in-bounds position, in column mode.
  method ApplyColumns<T>(job: Job<T>, l1: Buffers<T>, q0: nat, count: nat, ghost batchLo: nat, ghost batchHi: nat,
                         row: nat, ghost b: nat, ghost m0: nat, ghost n: nat, i: nat, j: nat, coords: seq<nat>, at: nat,
                         ghost out: seq<T>)
    requires job.Valid() && Batched(job, l1, q0, count, batchLo, batchHi) && job.g.column
    requires b < job.g.B && i < n && m0 + n <= job.g.M && j < job.g.W() && coords == job.Position(b, m0 + i)
      && |out| == |job.table|
    requires row == b * job.g.N + Row(job.g, coords, j)
    requires HoldsSource(job, l1.stream[..], at, b, m0, n)
    requires Synced(job.p, l1.rows[..], out, q0, count)
    modifies l1.rows
    ensures Synced(job.p, l1.rows[..], WindowRow(job.g, out, job.Values(), job.source, job.reduce, b, m0 + i, j), q0,
      count)
  {
    hide Synced, WindowRow, Geometry.TableElements, Geometry.MovedElements, Geometry.TablePages,
         Geometry.IndexElements, Row, SlicePlace, Geometry.SourcePlace, Geometry.WindowStart, HoldsSource,
         Pages.C, Pages.PageOf, Pages.Total, ApplySlice, Product, Coords, IndexAt, IndexValues, Geometry.RunElements;
    ghost var stream := l1.stream[..];
    SliceInPage(job.g, coords, b, j);
    var width := job.g.Width();
    var src := at + job.g.WindowStart(i, j);
    var column := coords[job.g.K() - 1];
    ColumnHeld(job, stream, b, m0, n, i, j, coords, at, out);
    ApplyWindow(job.p, l1.rows, q0, count, row, column, l1.stream, src, width, job.reduce, out);
  }

  /// Window row j of an in-bounds position, whole rows.
  method ApplyPagesOfRow<T>(job: Job<T>, l1: Buffers<T>, q0: nat, count: nat, batchLo: nat, batchHi: nat,
                            row: nat, b: nat, m: nat, j: nat, ghost coords: seq<nat>, ghost out: seq<T>)
    requires job.Valid() && Batched(job, l1, q0, count, batchLo, batchHi) && !job.g.column
    requires b < job.g.B && m < job.g.M && j < job.g.W() && coords == job.Position(b, m) && |out| == |job.table|
    requires row == b * job.g.N + Row(job.g, coords, j)
    requires Synced(job.p, l1.rows[..], out, q0, count)
    modifies l1.rows, l1.scratch
    ensures Synced(job.p, l1.rows[..], WindowRow(job.g, out, job.Values(), job.source, job.reduce, b, m, j), q0, count)
  {
    var src := job.g.SourcePlace(b, m, j);
    WindowRowFrom(job, b, m, j, out, SlicePlace(job.g, coords, b, j), job.source, src, job.g.Width());
    MulAssoc(row, job.g.S, job.g.R);
    ApplyRow(job.p, l1, q0, count, row * job.g.S, job.g.S, batchLo, batchHi, job.source, src, job.reduce, out);
  }

  /// Position (b, m0 + i): nothing when out of bounds, else its W rows in turn.
  method ApplyPosition<T>(job: Job<T>, l1: Buffers<T>, strides: seq<nat>, q0: nat, count: nat, batchLo: nat,
                          batchHi: nat,
                          b: nat, m0: nat, ghost n: nat, i: nat, base: nat, at: nat)
    requires job.Valid() && Batched(job, l1, q0, count, batchLo, batchHi)
    requires IsRowStrides(job.g.sizes, job.g.KR(), strides)
    requires b < job.g.B && i < n && m0 + n <= job.g.M
    requires HoldsPosition(l1.index[..], base, job.indexStride, job.g, job.words, b, m0, i)
    requires job.g.column ==> HoldsSource(job, l1.stream[..], at, b, m0, n)
    requires Synced(job.p, l1.rows[..], job.After(b, m0 + i, 0), q0, count)
    modifies l1.rows, l1.scratch
    ensures Synced(job.p, l1.rows[..], job.After(b, m0 + i + 1, 0), q0, count)
  {
    hide Synced, HoldsPosition, HoldsSource, Row, Geometry.TableElements, Geometry.MovedElements, Geometry.TablePages,
         Geometry.IndexElements;
    ghost var m := m0 + i;
    assert job.After(b, m + 1, 0) == job.After(b, m, job.g.W());
    if job.g.column && job.g.W() == 1 {
      // a window of one row is looked up before the column component is decoded
      var elsewhere := OfAnotherCore(job, l1, strides, q0, count, b, m0, i, base);
      if elsewhere { return; }
    }
    var coords, outOfBounds := DecodePosition(job.g, job.words, job.unsigned, l1.index, base, job.indexStride, b, m0,
      i, job.g.K());
    if outOfBounds {
      PositionDropped(job, b, m, job.g.W());
      return;
    }
    assert coords == job.Position(b, m);
    ApplyRows(job, l1, strides, q0, count, batchLo, batchHi, b, m0, n, i, coords, at);
  }

  /// Whether the row components alone show that the position changes nothing here.
  method OfAnotherCore<T>(job: Job<T>, l1: Buffers<T>, strides: seq<nat>, q0: nat, count: nat,
                          b: nat, ghost m0: nat, i: nat, base: nat)
    returns (elsewhere: bool)
    requires job.Valid() && job.g.column && job.g.W() == 1 && 0 < count && q0 + count <= job.p.Total()
    requires IsRowStrides(job.g.sizes, job.g.KR(), strides)
    requires b < job.g.B && m0 + i < job.g.M
    requires HoldsPosition(l1.index[..], base, job.indexStride, job.g, job.words, b, m0, i)
    requires Synced(job.p, l1.rows[..], job.After(b, m0 + i, 0), q0, count)
    ensures elsewhere ==> Synced(job.p, l1.rows[..], job.After(b, m0 + i, 1), q0, count)
  {
    hide Synced, WindowRow, Geometry.TableElements, Geometry.MovedElements, Geometry.IndexElements,
         Geometry.TablePages, Pages.C, Pages.PageOf, Pages.Total, Row, HoldsPosition, IsRowStrides, Wrap, Product,
         IndexAt, IndexValues, Coords;
    ghost var m := m0 + i;
    var rowsOnly, rowsOut := DecodePosition(job.g, job.words, job.unsigned, l1.index, base, job.indexStride, b, m0, i,
      job.g.KR());
    ghost var coords := job.Position(b, m);
    var inBatch := WindowRowOf(job.g, rowsOnly, 0, strides);
    RowOfPrefix(job.g, rowsOnly, coords, 0);
    CorePages(job.p, q0, count);
    var row := b * job.g.N + inBatch;
    PageBound(job.g, b, inBatch);
    WrappedDistance(row, job.p.first, job.p.count);
    elsewhere := rowsOut || Wrap(row - job.p.first) >= job.p.count;
    if !InBounds(job.g, job.Values(), b, m) {
      PositionDropped(job, b, m, 1);
    } else if elsewhere {
      RowOfAnotherCore(job, l1.rows[..], q0, count, b, m, 0, job.After(b, m, 0));
    }
  }

  lemma RowOfPrefix(g: Geometry, a: seq<nat>, c: seq<nat>, j: nat)
    requires g.Valid() && FitsRows(g, c) && j < g.W() && a == c[..g.KR()]
    ensures FitsRows(g, a) && Row(g, a, j) == Row(g, c, j)
  {
    assert a[..g.KR()] == c[..g.KR()];
  }

  lemma PageBound(g: Geometry, b: nat, row: nat)
    requires g.S == 1 && b < g.B && row < g.N
    ensures b * g.N + row < g.TablePages()
  {
    NestBound(b, g.B, row, g.N);
    assert g.N * g.S == g.N;
  }

  /// One unsigned comparison decides membership in [first, first + count).
  lemma WrappedDistance(row: nat, first: nat, count: nat)
    requires row < TWO_32 && first + count <= TWO_32 && first < TWO_32
    ensures Wrap(row - first) >= count <==> !(first <= row < first + count)
  {
    if row < first {
      DivModUnique(row - first, TWO_32, -1, row - first + TWO_32);
    } else {
      DivModUnique(row - first, TWO_32, 0, row - first);
    }
  }

  method ApplyWindowRow<T>(job: Job<T>, l1: Buffers<T>, strides: seq<nat>, q0: nat, count: nat, batchLo: nat,
                           batchHi: nat,
                           b: nat, m0: nat, ghost n: nat, i: nat, j: nat, coords: seq<nat>, at: nat, ghost out: seq<T>)
    requires job.Valid() && Batched(job, l1, q0, count, batchLo, batchHi)
    requires IsRowStrides(job.g.sizes, job.g.KR(), strides)
    requires b < job.g.B && i < n && m0 + n <= job.g.M && j < job.g.W() && coords == job.Position(b, m0 + i)
      && |out| == |job.table|
    requires job.g.column ==> HoldsSource(job, l1.stream[..], at, b, m0, n)
    requires Synced(job.p, l1.rows[..], out, q0, count)
    modifies l1.rows, l1.scratch
    ensures Synced(job.p, l1.rows[..], WindowRow(job.g, out, job.Values(), job.source, job.reduce, b, m0 + i, j), q0,
      count)
    ensures l1.stream[..] == old(l1.stream[..])
  {
    hide Synced, WindowRow, HoldsSource, Row, Geometry.TableElements, Geometry.MovedElements, Geometry.TablePages,
      Geometry.IndexElements, Pages.C, Pages.PageOf, Pages.Total, IsRowStrides, Coords, IndexAt, IndexValues, Product;
    var inBatch := WindowRowOf(job.g, coords, j, strides);
    var row := b * job.g.N + inBatch;
    if job.g.column {
      ApplyColumns(job, l1, q0, count, batchLo, batchHi, row, b, m0, n, i, j, coords, at, out);
    } else {
      ApplyPagesOfRow(job, l1, q0, count, batchLo, batchHi, row, b, m0 + i, j, coords, out);
    }
  }

  /// The rows of an in-bounds position, in window order.
  method ApplyRows<T>(job: Job<T>, l1: Buffers<T>, strides: seq<nat>, q0: nat, count: nat, batchLo: nat, batchHi: nat,
                      b: nat, m0: nat, ghost n: nat, i: nat, coords: seq<nat>, at: nat)
    requires job.Valid() && Batched(job, l1, q0, count, batchLo, batchHi)
    requires IsRowStrides(job.g.sizes, job.g.KR(), strides)
    requires b < job.g.B && i < n && m0 + n <= job.g.M && InBounds(job.g, job.Values(), b, m0 + i)
      && coords == job.Position(b, m0 + i)
    requires job.g.column ==> HoldsSource(job, l1.stream[..], at, b, m0, n)
    requires Synced(job.p, l1.rows[..], job.After(b, m0 + i, 0), q0, count)
    modifies l1.rows, l1.scratch
    ensures Synced(job.p, l1.rows[..], job.After(b, m0 + i, job.g.W()), q0, count)
  {
    hide Synced, HoldsSource, Row, Geometry.TableElements, Geometry.MovedElements, Geometry.TablePages,
         Geometry.IndexElements;
    ghost var held := l1.stream[..];
    var j := 0;
    while j < job.g.W()
      invariant 0 <= j <= job.g.W()
      invariant l1.stream[..] == held
      invariant Synced(job.p, l1.rows[..], job.After(b, m0 + i, j), q0, count)
    {
      ghost var out := job.After(b, m0 + i, j);
      ApplyWindowRow(job, l1, strides, q0, count, batchLo, batchHi, b, m0, n, i, j, coords, at, out);
      j := j + 1;
    }
  }

  // ---- index chunks ----

  /// The source of positions [m0, m0 + n) of batch b, streamed with the DRAM
  /// offset within a granule kept.
  method StreamSource<T>(job: Job<T>, stream: array<T>, b: nat, m0: nat, n: nat) returns (at: nat)
    requires job.Valid() && job.g.column && b < job.g.B && m0 + n <= job.g.M
    requires job.granule + job.g.RunElements(n) <= stream.Length
    modifies stream
    ensures HoldsSource(job, stream[..], at, b, m0, n)
  {
    hide Geometry.TableElements, Geometry.IndexElements, Geometry.TablePages, Geometry.MovedElements, Geometry.RunPlace;
    at := job.g.RunElements(m0) % job.granule;
    ReadDram(stream, at, job.source, job.g.RunPlace(b, m0, n), job.g.RunElements(n));
  }

  /// Room for one streamed index chunk and its source.
  ghost predicate Streams<T>(job: Job<T>, l1: Buffers<T>)
    requires job.Valid()
  {
    && l1.Apart() && job.g.K() * job.indexStride <= l1.index.Length
    && (job.g.column ==> job.granule + job.g.RunElements(job.indexBatch) <= l1.stream.Length)
  }

  lemma RunFits(g: Geometry, n: nat, most: nat)
    requires g.Valid() && n <= most
    ensures g.RunElements(n) <= g.RunElements(most)
  {
    MulMonotone(n, most, g.W() * g.Width());
  }

  /// Positions [m0, m0 + n) of batch b, streamed and applied in order.
  method ApplyIndexChunk<T>(job: Job<T>, l1: Buffers<T>, strides: seq<nat>, q0: nat, count: nat, batchLo: nat,
                            batchHi: nat,
                            b: nat, m0: nat, n: nat)
    requires job.Valid() && Batched(job, l1, q0, count, batchLo, batchHi) && Streams(job, l1)
    requires IsRowStrides(job.g.sizes, job.g.KR(), strides)
    requires b < job.g.B && 0 < n <= job.indexBatch && m0 + n <= job.g.M
    requires Synced(job.p, l1.rows[..], job.After(b, m0, 0), q0, count)
    modifies l1.rows, l1.index, l1.stream, l1.scratch
    ensures Synced(job.p, l1.rows[..], job.After(b, m0 + n, 0), q0, count)
  {
    hide Synced, HoldsWord, HoldsSource, Scattered, Geometry.TableElements, Geometry.MovedElements, Geometry.TablePages,
      Geometry.IndexElements, Geometry.RunElements;
    var base := StreamIndex(l1.index, job.indexStride, job.g, job.words, b, m0, n);
    var at := 0;
    if job.g.column {
      RunFits(job.g, n, job.indexBatch);
      at := StreamSource(job, l1.stream, b, m0, n);
    }
    ghost var index, stream := l1.index[..], l1.stream[..];
    var i := 0;
    while i < n
      invariant 0 <= i <= n && l1.index[..] == index && l1.stream[..] == stream
      invariant Synced(job.p, l1.rows[..], job.After(b, m0 + i, 0), q0, count)
    {
      ApplyPosition(job, l1, strides, q0, count, batchLo, batchHi, b, m0, n, i, base, at);
      i := i + 1;
    }
  }

  /// Every position of batch b.
  method ApplyTableBatch<T>(job: Job<T>, l1: Buffers<T>, strides: seq<nat>, q0: nat, count: nat, batchLo: nat,
                            batchHi: nat, b: nat)
    requires job.Valid() && Batched(job, l1, q0, count, batchLo, batchHi) && Streams(job, l1)
    requires IsRowStrides(job.g.sizes, job.g.KR(), strides)
    requires b < job.g.B
    requires Synced(job.p, l1.rows[..], job.After(b, 0, 0), q0, count)
    modifies l1.rows, l1.index, l1.stream, l1.scratch
    ensures Synced(job.p, l1.rows[..], job.After(b + 1, 0, 0), q0, count)
  {
    hide Synced, Geometry.TableElements, Geometry.MovedElements, Geometry.TablePages, Geometry.IndexElements,
         Geometry.RunElements;
    var m0 := 0;
    while m0 < job.g.M
      invariant 0 <= m0 <= job.g.M
      invariant Synced(job.p, l1.rows[..], job.After(b, m0, 0), q0, count)
    {
      var n := if job.g.M - m0 < job.indexBatch then job.g.M - m0 else job.indexBatch;
      ApplyIndexChunk(job, l1, strides, q0, count, batchLo, batchHi, b, m0, n);
      m0 := m0 + n;
    }
    assert job.After(b + 1, 0, 0) == job.After(b, job.g.M, 0);
  }

  // ---- batches ----

  /// Batch b shares no page with the core's.
  ghost predicate OtherBatch(g: Geometry, p: Pages, b: nat) {
    (b + 1) * (g.N * g.S) <= p.first || p.first + p.count <= b * (g.N * g.S)
  }

  lemma SliceInBatch(b: nat, N: nat, S: nat, R: nat, row: nat, start: nat, width: nat)
    requires row < N && start + width <= S * R
    ensures (b * (N * S)) * R <= (b * N + row) * (S * R) + start
    ensures (b * N + row) * (S * R) + start + width <= ((b + 1) * (N * S)) * R
  {
    MulAssoc(b * (N * S), 1, R);
    MulAssoc(b, N, S);
    MulAssoc(b * N, S, R);
    MulDistribute(b * N, row, S * R);
    MulDistribute(b, 1, N);
    MulStrict(b * N + row, (b + 1) * N, S * R);
    MulAssoc(b + 1, N, S);
    MulAssoc((b + 1) * N, S, R);
  }

  lemma SliceOfOtherBatch(g: Geometry, p: Pages, q0: nat, count: nat, coords: seq<nat>, b: nat, j: nat)
    requires g.Valid() && p.Valid() && p.R == g.R && Fits(g, coords) && b < g.B && j < g.W()
    requires 0 < count && q0 + count <= p.Total() && OtherBatch(g, p, b)
    ensures Outside(p, q0, count, SlicePlace(g, coords, b, j), g.Width())
  {
    hide Row, Outside, Geometry.TableElements, Geometry.W, Pages.C, Pages.PageOf, Pages.Total;
    CorePages(p, q0, count);
    SliceInBatch(b, g.N, g.S, g.R, Row(g, coords, j), Start(g, coords), g.Width());
    PagesElsewhere(p, q0, count, SlicePlace(g, coords, b, j), g.Width(), b * (g.N * g.S), (b + 1) * (g.N * g.S));
  }

  lemma WindowRowOfOtherBatch<T>(job: Job<T>, l1: seq<T>, q0: nat, count: nat, b: nat, m: nat, j: nat, out: seq<T>)
    requires job.Valid() && b < job.g.B && m < job.g.M && j < job.g.W() && |out| == |job.table|
    requires 0 < count && q0 + count <= job.p.Total() && OtherBatch(job.g, job.p, b)
    requires Synced(job.p, l1, out, q0, count)
    ensures Synced(job.p, l1, WindowRow(job.g, out, job.Values(), job.source, job.reduce, b, m, j), q0, count)
  {
    hide Synced, Outside, ApplySlice, Row, SlicePlace, OtherBatch, Geometry.TableElements, Geometry.MovedElements,
      Geometry.TablePages, Geometry.IndexElements, Geometry.SourcePlace, Pages.C, Pages.Total;
    SliceOfOtherBatch(job.g, job.p, q0, count, job.Position(b, m), b, j);
    SkipSlice(job.p, l1, out, q0, count, SlicePlace(job.g, job.Position(b, m), b, j), job.source,
              job.g.SourcePlace(b, m, j), job.g.Width(), job.reduce);
  }

  /// The updates of a batch that shares no page with the core's leave its copy in step.
  lemma {:induction false} StepsOfOtherBatch<T>(job: Job<T>, l1: seq<T>, q0: nat, count: nat, b: nat, m: nat, j: nat)
    requires job.Valid() && b < job.g.B && m <= job.g.M && j <= job.g.W() && (m == job.g.M ==> j == 0)
    requires 0 < count && q0 + count <= job.p.Total() && OtherBatch(job.g, job.p, b)
    requires Synced(job.p, l1, job.After(b, 0, 0), q0, count)
    ensures Synced(job.p, l1, job.After(b, m, j), q0, count)
    decreases m, j
  {
    hide Synced, WindowRow, OtherBatch, InBounds, Geometry.TableElements, Geometry.MovedElements, Geometry.TablePages,
      Geometry.IndexElements, Pages.C, Pages.Total;
    if j > 0 {
      StepsOfOtherBatch(job, l1, q0, count, b, m, j - 1);
      if InBounds(job.g, job.Values(), b, m) {
        WindowRowOfOtherBatch(job, l1, q0, count, b, m, j - 1, job.After(b, m, j - 1));
      }
    } else if m > 0 {
      StepsOfOtherBatch(job, l1, q0, count, b, m - 1, job.g.W());
    }
  }

  lemma {:induction false} OtherBatches<T>(job: Job<T>, l1: seq<T>, q0: nat, count: nat, start: nat, end: nat)
    requires job.Valid() && start <= end <= job.g.B
    requires 0 < count && q0 + count <= job.p.Total()
    requires forall b :: start <= b < end ==> OtherBatch(job.g, job.p, b)
    requires Synced(job.p, l1, job.After(start, 0, 0), q0, count)
    ensures Synced(job.p, l1, job.After(end, 0, 0), q0, count)
    decreases end
  {
    hide Synced, OtherBatch, Geometry.TableElements, Geometry.MovedElements, Geometry.TablePages,
      Geometry.IndexElements, Pages.C, Pages.Total;
    if end > start {
      OtherBatches(job, l1, q0, count, start, end - 1);
      StepsOfOtherBatch(job, l1, q0, count, end - 1, job.g.M, 0);
      assert job.After(end, 0, 0) == job.After(end - 1, job.g.M, 0);
    }
  }

  /// Chunks [q0, q0 + count) of the core's pages, as the reader pushes them.
  method FillBatch<T>(p: Pages, rows: array<T>, table: seq<T>, q0: nat, count: nat)
    requires p.Valid() && q0 + count <= p.Total() && count * p.entry <= rows.Length
    requires (p.first + p.count) * p.R <= |table|
    modifies rows
    ensures Synced(p, rows[..], table, q0, count)
  {
    var i := 0;
    while i < count
      invariant 0 <= i <= count
      invariant Synced(p, rows[..], table, q0, i)
    {
      var q := q0 + i;
      FillBounds(p, q0, count, i);
      ghost var before := rows[..];
      ReadDram(rows, i * p.entry, table, p.Element(q, 0), p.Length(q));
      FilledChunk(p, before, rows[..], table, q0, i);
      i := i + 1;
    }
  }

  lemma FillBounds(p: Pages, q0: nat, count: nat, i: nat)
    requires p.Valid() && q0 + count <= p.Total() && i < count
    ensures i * p.entry + p.Length(q0 + i) <= count * p.entry
    ensures p.Element(q0 + i, 0) + p.Length(q0 + i) <= (p.first + p.count) * p.R
  {
    hide Pages.C, Pages.OffsetOf, Pages.Total, Pages.PageOf;
    ElementBound(p, q0 + i, p.Length(q0 + i) - 1);
    MulStrict(i, count, p.entry);
  }

  lemma FilledChunk<T>(p: Pages, before: seq<T>, rows: seq<T>, table: seq<T>, q0: nat, i: nat)
    requires p.Valid() && Synced(p, before, table, q0, i)
    requires i * p.entry + p.Length(q0 + i) <= |before| && p.Element(q0 + i, 0) + p.Length(q0 + i) <= |table|
    requires rows == ApplySlice(before, i * p.entry, table, p.Element(q0 + i, 0), p.Length(q0 + i), Overwrite)
    ensures Synced(p, rows, table, q0, i + 1)
  {
    forall q, o | q0 <= q < q0 + i + 1 && 0 <= o < p.Length(q)
      ensures p.Slot(q0, q, o) < |rows| && p.Element(q, o) < |table|
      ensures rows[p.Slot(q0, q, o)] == table[p.Element(q, o)]
    {
      if q < q0 + i {
        SlotsApart(p, q0, q, q0 + i, o, 0);
      }
    }
  }

  /// Chunks below q are in the output.
  ghost predicate WrittenUpTo<T>(p: Pages, output: seq<T>, out: seq<T>, q: nat)
    requires p.Valid()
  {
    forall c, o :: 0 <= c < q && 0 <= o < p.Length(c) ==>
      && p.Element(c, o) < |output| && p.Element(c, o) < |out|
      && output[p.Element(c, o)] == out[p.Element(c, o)]
  }

  ghost predicate OnlyPages<T>(p: Pages, before: seq<T>, after: seq<T>) {
    && |before| == |after|
    && forall y :: 0 <= y < |after| && !(p.first * p.R <= y < (p.first + p.count) * p.R) ==> after[y] == before[y]
  }

  /// Writing chunk q from the copy, after the chunks before it.
  lemma ChunkWritten<T>(p: Pages, l1: seq<T>, out: seq<T>, q0: nat, count: nat, before: seq<T>, after: seq<T>, q: nat)
    requires p.Valid() && q0 + count <= p.Total() && q0 <= q < q0 + count
    requires Synced(p, l1, out, q0, count) && WrittenUpTo(p, before, out, q) && |out| == |before|
    requires (q - q0) * p.entry + p.Length(q) <= |l1| && p.Element(q, 0) + p.Length(q) <= |before|
    requires after == ApplySlice(before, p.Element(q, 0), l1, (q - q0) * p.entry, p.Length(q), Overwrite)
    ensures WrittenUpTo(p, after, out, q + 1)
  {
    forall c, o | 0 <= c < q + 1 && 0 <= o < p.Length(c)
      ensures p.Element(c, o) < |after| && after[p.Element(c, o)] == out[p.Element(c, o)]
    {
      if c < q {
        if p.Element(q, 0) <= p.Element(c, o) < p.Element(q, 0) + p.Length(q) {
          ElementsApart(p, c, o, q, p.Element(c, o) - p.Element(q, 0));
        }
      } else {
        assert p.Element(q, o) == p.Element(q, 0) + o && p.Slot(q0, q, o) == (q - q0) * p.entry + o;
      }
    }
  }

  lemma ChunkInPages(p: Pages, q: nat)
    requires p.Valid() && q < p.Total()
    ensures p.first * p.R <= p.Element(q, 0)
    ensures p.Element(q, 0) + p.Length(q) <= (p.first + p.count) * p.R
  {
    hide Pages.C, Pages.OffsetOf, Pages.Total, Pages.PageOf;
    ElementBound(p, q, 0);
    ElementBound(p, q, p.Length(q) - 1);
  }

  /// The batch goes out once: each chunk to its place in the output.
  method WriteBatch<T>(p: Pages, rows: array<T>, output: array<T>, q0: nat, count: nat, ghost out: seq<T>)
    requires p.Valid() && rows != output && q0 + count <= p.Total() && count * p.entry <= rows.Length
    requires (p.first + p.count) * p.R <= output.Length == |out|
    requires Synced(p, rows[..], out, q0, count) && WrittenUpTo(p, output[..], out, q0)
    modifies output
    ensures WrittenUpTo(p, output[..], out, q0 + count)
    ensures OnlyPages(p, old(output[..]), output[..])
  {
    hide Synced, WrittenUpTo, Pages.C, Pages.OffsetOf, Pages.Total, Pages.PageOf, Pages.Length;
    var i := 0;
    while i < count
      invariant 0 <= i <= count
      invariant WrittenUpTo(p, output[..], out, q0 + i)
      invariant OnlyPages(p, old(output[..]), output[..])
    {
      var q := q0 + i;
      FillBounds(p, q0, count, i);
      ChunkInPages(p, q);
      ghost var before := output[..];
      WriteDram(output, p.Element(q, 0), rows, i * p.entry, p.Length(q));
      ChunkWritten(p, rows[..], out, q0, count, before, output[..], q);
      i := i + 1;
    }
  }

  /// The first and last table batch with a page of the core's.
  function FirstBatch(g: Geometry, p: Pages): nat
    requires 0 < g.N * g.S
  {
    p.first / (g.N * g.S)
  }

  function LastBatch(g: Geometry, p: Pages): nat
    requires 0 < g.N * g.S && 0 < p.count
  {
    (p.first + p.count - 1) / (g.N * g.S)
  }

  /// The range of pages that the batch has some part of.
  function BatchLo(p: Pages, q0: nat): nat
    requires p.Valid()
  {
    p.first + q0 / p.C()
  }

  function BatchHi(p: Pages, q0: nat, count: nat): nat
    requires p.Valid()
  {
    p.first + (q0 + count + p.C() - 1) / p.C()
  }

  /// Every update, applied to the batch's copy: only the table batches the
  /// core's pages belong to are visited.
  method UpdateBatch<T>(job: Job<T>, l1: Buffers<T>, strides: seq<nat>, q0: nat, count: nat)
    requires job.Valid() && Streams(job, l1) && IsRowStrides(job.g.sizes, job.g.KR(), strides)
    requires 0 < count && q0 + count <= job.p.Total()
    requires count * job.p.entry <= l1.rows.Length && job.p.chunk <= l1.scratch.Length
    requires Synced(job.p, l1.rows[..], job.table, q0, count)
    modifies l1.rows, l1.index, l1.stream, l1.scratch
    ensures Synced(job.p, l1.rows[..], job.After(job.g.B, 0, 0), q0, count)
  {
    hide Synced, OtherBatch, WindowRow, Geometry.IndexElements, Geometry.MovedElements, Geometry.RunElements,
      Geometry.TablePages, Geometry.TableElements, Pages.C, Pages.Total, Pages.PageOf, FirstBatch, LastBatch, BatchLo,
        BatchHi;
    CoreBatches(job.g, job.p, q0, count);
    BatchPages(job.p, q0, count);
    var bLo, bHi := FirstBatch(job.g, job.p), LastBatch(job.g, job.p);
    OtherBatches(job, l1.rows[..], q0, count, 0, bLo);
    var b := bLo;
    while b <= bHi
      invariant bLo <= b <= bHi + 1
      invariant Synced(job.p, l1.rows[..], job.After(b, 0, 0), q0, count)
    {
      ApplyTableBatch(job, l1, strides, q0, count, BatchLo(job.p, q0), BatchHi(job.p, q0, count), b);
      b := b + 1;
    }
    OtherBatches(job, l1.rows[..], q0, count, bHi + 1, job.g.B);
  }

  /// A batch of the core's chunks: filled, updated, written out.
  method RunBatch<T>(job: Job<T>, l1: Buffers<T>, output: array<T>, strides: seq<nat>, q0: nat, count: nat)
    requires job.Valid() && Streams(job, l1) && IsRowStrides(job.g.sizes, job.g.KR(), strides)
    requires 0 < count && q0 + count <= job.p.Total()
    requires count * job.p.entry <= l1.rows.Length && job.p.chunk <= l1.scratch.Length
    requires OutputApart(l1, output) && output.Length == |job.table|
    requires WrittenUpTo(job.p, output[..], job.After(job.g.B, 0, 0), q0)
    modifies l1.rows, l1.index, l1.stream, l1.scratch, output
    ensures WrittenUpTo(job.p, output[..], job.After(job.g.B, 0, 0), q0 + count)
    ensures OnlyPages(job.p, old(output[..]), output[..])
  {
    hide Synced, WrittenUpTo, OnlyPages, Scattered, Geometry.IndexElements, Geometry.MovedElements,
         Geometry.RunElements,
      Geometry.TablePages, Geometry.TableElements, Pages.C, Pages.Total;
    PagesInTable(job.g, job.p);
    FillBatch(job.p, l1.rows, job.table, q0, count);
    UpdateBatch(job, l1, strides, q0, count);
    WriteBatch(job.p, l1.rows, output, q0, count, job.After(job.g.B, 0, 0));
  }

  ghost predicate OutputApart<T>(l1: Buffers<T>, output: array<T>) {
    && output != l1.rows && output != l1.stream && output != l1.scratch
    && output as object != l1.index as object
  }

  lemma PagesInTable(g: Geometry, p: Pages)
    requires g.Valid() && p.R == g.R && p.first + p.count <= g.TablePages()
    ensures (p.first + p.count) * p.R <= g.TableElements()
  {
    MulMonotone(p.first + p.count, g.TablePages(), g.R);
    MulAssoc(g.B, g.N, g.S);
    MulAssoc(g.B * g.N, g.S, g.R);
  }

  lemma BatchPages(p: Pages, q0: nat, count: nat)
    requires p.Valid() && 0 < count
    ensures BatchLo(p, q0) == p.PageOf(q0)
    ensures p.PageOf(q0 + count - 1) < BatchHi(p, q0, count)
  {
    var last, c := q0 + count - 1, p.C();
    DivMod(last, c);
    DivModUnique(last + c, c, last / c + 1, last % c);
  }

  lemma CoreBatches(g: Geometry, p: Pages, q0: nat, count: nat)
    requires g.Valid() && p.Valid() && p.first + p.count <= g.TablePages()
    requires 0 < count && q0 + count <= p.Total()
    ensures 0 < g.N * g.S && 0 < p.count
    ensures FirstBatch(g, p) <= LastBatch(g, p) < g.B
    ensures forall b :: 0 <= b < FirstBatch(g, p) ==> OtherBatch(g, p, b)
    ensures forall b :: LastBatch(g, p) < b < g.B ==> OtherBatch(g, p, b)
  {
    CorePages(p, q0, count);
    var per, last := g.N * g.S, p.first + p.count - 1;
    PositiveFactors(g.B, per, last);
    DivMonotone(p.first, last, per);
    DivMod(p.first, per);
    DivMod(last, per);
    forall b | 0 <= b < FirstBatch(g, p) ensures OtherBatch(g, p, b) {
      MulMonotone(b + 1, p.first / per, per);
    }
    forall b | LastBatch(g, p) < b < g.B ensures OtherBatch(g, p, b) {
      MulMonotone(last / per + 1, b, per);
      MulDistribute(last / per, 1, per);
    }
  }

  // ---- a core, and all of them ----

  /// One core: its pages of the output are the table with every update
  /// applied, whatever the chunk and batch sizes; it writes nothing else.
  method RunCore<T>(job: Job<T>, l1: Buffers<T>, output: array<T>, batch: nat)
    requires job.Valid() && Streams(job, l1)
    requires 0 < batch && batch * job.p.entry <= l1.rows.Length && job.p.chunk <= l1.scratch.Length
    requires OutputApart(l1, output) && output.Length == |job.table|
    modifies l1.rows, l1.index, l1.stream, l1.scratch, output
    ensures forall y :: job.p.first * job.p.R <= y < (job.p.first + job.p.count) * job.p.R && y < output.Length ==>
      output[y] == RowsScatter(job.g, job.table, job.Values(), job.source, job.reduce)[y]
    ensures OnlyPages(job.p, old(output[..]), output[..])
  {
    hide WrittenUpTo, Scattered, Geometry.IndexElements, Geometry.MovedElements, Geometry.RunElements, Pages.C;
    var strides := RowStrides(job.g.sizes, job.g.KR());
    var total := job.p.Total();
    ghost var final := job.After(job.g.B, 0, 0);
    var q0 := 0;
    NothingWritten(job.p, output[..], final);
    while q0 < total
      invariant 0 <= q0 <= total
      invariant WrittenUpTo(job.p, output[..], final, q0)
      invariant OnlyPages(job.p, old(output[..]), output[..])
    {
      var count := if total - q0 < batch then total - q0 else batch;
      MulMonotone(count, batch, job.p.entry);
      RunBatch(job, l1, output, strides, q0, count);
      q0 := q0 + count;
    }
    forall y | job.p.first * job.p.R <= y < (job.p.first + job.p.count) * job.p.R && y < output.Length
      ensures output[y] == final[y]
    {
      EveryElementWritten(job.p, output[..], final, y);
    }
  }

  lemma NothingWritten<T>(p: Pages, output: seq<T>, out: seq<T>)
    requires p.Valid()
    ensures WrittenUpTo(p, output, out, 0)
  {}

  lemma EveryElementWritten<T>(p: Pages, output: seq<T>, out: seq<T>, y: nat)
    requires p.Valid() && p.first * p.R <= y < (p.first + p.count) * p.R && WrittenUpTo(p, output, out, p.Total())
    ensures y < |output| && y < |out| && output[y] == out[y]
  {
    var page, offset := y / p.R, y % p.R;
    DivMod(y, p.R);
    if page < p.first { MulStrict(page, p.first, p.R); }
    PositiveFactors(p.first + p.count, p.R, y);
    ChunkStart(p, page, offset);
    DivMod(offset, p.chunk);
    var q := p.ChunkOf(page, offset);
    assert p.Element(q, offset % p.chunk) == y;
  }

  function CoreJob<T>(job: Job<T>, counts: seq<nat>, c: nat): Job<T>
    requires c < |counts|
  {
    job.(p := job.p.(first := FirstOf(counts, c), count := counts[c]))
  }

  ghost predicate CoreDone<T>(job: Job<T>, output: seq<T>, counts: seq<nat>, c: nat)
    requires job.Valid() && |output| == |job.table| && c < |counts|
  {
    forall y :: 0 <= y < |output| && FirstOf(counts, c) * job.p.R <= y < (FirstOf(counts, c) + counts[c]) * job.p.R ==>
      output[y] == RowsScatter(job.g, job.table, job.Values(), job.source, job.reduce)[y]
  }

  lemma DoneStaysDone<T>(job: Job<T>, before: seq<T>, after: seq<T>, counts: seq<nat>, c: nat, d: nat)
    requires job.Valid() && |before| == |after| == |job.table| && c < |counts| && d < |counts|
    requires CoreDone(job, before, counts, c) && CoreDone(job, after, counts, d)
    requires OnlyPages(CoreJob(job, counts, d).p, before, after)
    ensures CoreDone(job, after, counts, c)
  {
    hide RowsScatter, Geometry.TableElements, Geometry.MovedElements, Geometry.IndexElements, Geometry.TablePages;
  }

  /// Every core, in any order and however the pages are divided among them:
  /// the output is the simple loop's.
  method RunCores<T>(job: Job<T>, counts: seq<nat>, order: seq<nat>, l1: Buffers<T>, output: array<T>, batch: nat)
    requires job.Valid() && Streams(job, l1)
    requires FirstOf(counts, |counts|) == job.g.TablePages()
    requires (forall i :: 0 <= i < |order| ==> order[i] < |counts|) && (forall c :: 0 <= c < |counts| ==> c in order)
    requires 0 < batch && batch * job.p.entry <= l1.rows.Length && job.p.chunk <= l1.scratch.Length
    requires OutputApart(l1, output) && output.Length == |job.table|
    modifies l1.rows, l1.index, l1.stream, l1.scratch, output
    ensures output[..] == RowsScatter(job.g, job.table, job.Values(), job.source, job.reduce)
  {
    hide RowsScatter, OnlyPages, CoreDone, Geometry.TableElements, Geometry.MovedElements, Geometry.IndexElements,
      Geometry.RunElements, Geometry.TablePages, FirstOf;
    var i := 0;
    while i < |order|
      invariant 0 <= i <= |order|
      invariant forall t :: 0 <= t < i ==> CoreDone(job, output[..], counts, order[t])
    {
      var core := CoreJob(job, counts, order[i]);
      CoreJobValid(job, counts, order[i]);
      ghost var before := output[..];
      RunCore(core, l1, output, batch);
      CoreRan(job, output[..], counts, order[i]);
      forall t | 0 <= t < i ensures CoreDone(job, output[..], counts, order[t]) {
        DoneStaysDone(job, before, output[..], counts, order[t], order[i]);
      }
      i := i + 1;
    }
    AllCoresDone(job, output[..], counts, order);
  }

  lemma CoreJobValid<T>(job: Job<T>, counts: seq<nat>, c: nat)
    requires job.Valid() && c < |counts| && FirstOf(counts, |counts|) == job.g.TablePages()
    ensures CoreJob(job, counts, c).Valid()
  {
    hide Geometry.TableElements, Geometry.MovedElements, Geometry.IndexElements, Geometry.TablePages;
    FirstOfMonotone(counts, c + 1, |counts|);
  }

  lemma CoreRan<T>(job: Job<T>, output: seq<T>, counts: seq<nat>, c: nat)
    requires job.Valid() && |output| == |job.table| && c < |counts|
    requires forall y ::
      FirstOf(counts, c) * job.p.R <= y < (FirstOf(counts, c) + counts[c]) * job.p.R && y < |output| ==>
      output[y] == RowsScatter(job.g, job.table, job.Values(), job.source, job.reduce)[y]
    ensures CoreDone(job, output, counts, c)
  {
    hide RowsScatter, Geometry.TableElements, Geometry.MovedElements, Geometry.IndexElements, Geometry.TablePages;
  }

  lemma AllCoresDone<T>(job: Job<T>, output: seq<T>, counts: seq<nat>, order: seq<nat>)
    requires job.Valid() && |output| == |job.table| && FirstOf(counts, |counts|) == job.g.TablePages()
    requires (forall i :: 0 <= i < |order| ==> order[i] < |counts|) && (forall c :: 0 <= c < |counts| ==> c in order)
    requires forall t :: 0 <= t < |order| ==> CoreDone(job, output, counts, order[t])
    ensures output == RowsScatter(job.g, job.table, job.Values(), job.source, job.reduce)
  {
    hide RowsScatter, Geometry.MovedElements, Geometry.IndexElements, FirstOf;
    var final := RowsScatter(job.g, job.table, job.Values(), job.source, job.reduce);
    forall y | 0 <= y < |output| ensures output[y] == final[y] {
      ElementPageBound(job.g, y);
      var c := OwnerOf(counts, |counts|, y / job.p.R);
      assert c in order;
      PageSpan(y, job.p.R, FirstOf(counts, c), counts[c]);
      assert CoreDone(job, output, counts, c);
    }
  }

  lemma ElementPageBound(g: Geometry, y: nat)
    requires g.R > 0 && y < g.TableElements()
    ensures y / g.R < g.TablePages()
  {
    MulAssoc(g.B, g.N, g.S);
    MulAssoc(g.B * g.N, g.S, g.R);
    PositiveFactors(g.TablePages(), g.R, y);
  }

  lemma PageSpan(y: nat, R: nat, first: nat, count: nat)
    requires R > 0 && first <= y / R < first + count
    ensures first * R <= y < (first + count) * R
  {
    DivMod(y, R);
    MulMonotone(first, y / R, R);
    MulStrict(y / R, first + count, R);
  }
}
