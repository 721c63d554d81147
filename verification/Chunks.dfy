/// A core's table pages as a sequence of chunks, and the batch of them it
/// holds in L1: which table elements the batch copies, and what applying a
/// slice of updates to the table means for the copy.
module Chunks {
  import opened RowMajor
  import opened IndexedRows

  /// Pages [first, first + count) of R elements, moved `chunk` elements at a
  /// time into buffer entries of `entry` elements.
  datatype Pages = Pages(R: nat, chunk: nat, entry: nat, first: nat, count: nat)
  {
    predicate Valid() { 1 <= chunk <= R && chunk <= entry }

    /// Chunks per page.
    function C(): (c: nat)
      requires Valid()
      ensures c >= 1
    {
      DivUp(R, chunk)
    }

    function Total(): nat
      requires Valid()
    {
      count * C()
    }

    function PageOf(q: nat): nat
      requires Valid()
    {
      first + q / C()
    }

    /// The first element of chunk q within its page.
    function OffsetOf(q: nat): (offset: nat)
      requires Valid()
      ensures offset < R
    {
      DivMod(q, C());
      MulStrict(q % C(), C(), chunk);
      assert (C() - 1) * chunk == C() * chunk - chunk;
      (q % C()) * chunk
    }

    /// The last chunk of a page may be shorter.
    function Length(q: nat): (n: nat)
      requires Valid()
      ensures 1 <= n <= chunk
    {
      if R - OffsetOf(q) < chunk then R - OffsetOf(q) else chunk
    }

    /// The chunk holding an element of a page.
    function ChunkOf(page: nat, offset: nat): nat
      requires Valid() && first <= page
    {
      (page - first) * C() + offset / chunk
    }

    /// The table element at `o` of chunk q, and its place in a buffer that starts with chunk q0.
    function Element(q: nat, o: nat): nat
      requires Valid()
    {
      PageOf(q) * R + (OffsetOf(q) + o)
    }

    function Slot(q0: nat, q: nat, o: nat): nat
      requires q0 <= q
    {
      (q - q0) * entry + o
    }
  }

  /// A page's elements divide into its chunks.
  lemma OffsetInChunk(p: Pages, offset: nat)
    requires p.Valid() && offset < p.R
    ensures offset / p.chunk < p.C()
  {
    PositiveFactors(p.C(), p.chunk, offset);
  }

  /// The chunk of (page, offset) starts at that page's last multiple of the chunk length.
  lemma ChunkStart(p: Pages, page: nat, offset: nat)
    requires p.Valid() && p.first <= page && offset < p.R
    ensures p.PageOf(p.ChunkOf(page, offset)) == page
    ensures p.OffsetOf(p.ChunkOf(page, offset)) == offset - offset % p.chunk
    ensures page < p.first + p.count ==> p.ChunkOf(page, offset) < p.Total()
  {
    OffsetInChunk(p, offset);
    DivModUnique(p.ChunkOf(page, offset), p.C(), page - p.first, offset / p.chunk);
    DivMod(offset, p.chunk);
    if page < p.first + p.count {
      NestBound(page - p.first, p.count, offset / p.chunk, p.C());
    }
  }

  lemma ChunkElement(p: Pages, q: nat, o: nat)
    requires p.Valid() && o < p.Length(q)
    ensures p.OffsetOf(q) + o < p.R
    ensures (p.OffsetOf(q) + o) / p.chunk == q % p.C()
    ensures p.ChunkOf(p.PageOf(q), p.OffsetOf(q) + o) == q
    ensures p.Element(q, o) / p.R == p.PageOf(q) && p.Element(q, o) % p.R == p.OffsetOf(q) + o
  {
    DivModUnique(p.OffsetOf(q) + o, p.chunk, q % p.C(), o);
    DivMod(q, p.C());
    DivModUnique(p.Element(q, o), p.R, p.PageOf(q), p.OffsetOf(q) + o);
  }

  /// Every element belongs to one chunk.
  lemma ElementsApart(p: Pages, q: nat, o: nat, q': nat, o': nat)
    requires p.Valid() && o < p.Length(q) && o' < p.Length(q') && p.Element(q, o) == p.Element(q', o')
    ensures q == q'
  {
    hide Pages.C, Pages.OffsetOf, Pages.Length, Pages.PageOf;
    ChunkElement(p, q, o);
    ChunkElement(p, q', o');
  }

  lemma PageInRange(p: Pages, q: nat)
    requires p.Valid() && q < p.Total()
    ensures p.first <= p.PageOf(q) < p.first + p.count
  {
    PositiveFactors(p.count, p.C(), q);
  }

  lemma ElementBound(p: Pages, q: nat, o: nat)
    requires p.Valid() && q < p.Total() && o < p.Length(q)
    ensures p.first * p.R <= p.Element(q, o) < (p.first + p.count) * p.R
  {
    hide Pages.OffsetOf, Pages.Length, Pages.C, Pages.PageOf;
    ChunkElement(p, q, o);
    PageInRange(p, q);
    MulStrict(p.PageOf(q), p.first + p.count, p.R);
    MulMonotone(p.first, p.PageOf(q), p.R);
  }

  lemma SlotBound(p: Pages, q0: nat, q: nat, count: nat, o: nat)
    requires p.Valid() && q0 <= q < q0 + count && o < p.entry
    ensures p.Slot(q0, q, o) < count * p.entry
  {
    MulStrict(q - q0, count, p.entry);
  }

  lemma SlotsApart(p: Pages, q0: nat, q: nat, q': nat, o: nat, o': nat)
    requires p.Valid() && q0 <= q < q' && o < p.entry
    ensures p.Slot(q0, q, o) < p.Slot(q0, q', o')
  {
    MulStrict(q - q0, q' - q0, p.entry);
  }

  /// The buffer copies the table's current contents at every element of chunks [q0, q0 + count).
  ghost predicate Synced<T>(p: Pages, l1: seq<T>, out: seq<T>, q0: nat, count: nat)
    requires p.Valid()
  {
    forall q, o :: q0 <= q < q0 + count && 0 <= o < p.Length(q) ==>
      && p.Slot(q0, q, o) < |l1|
      && p.Element(q, o) < |out|
      && l1[p.Slot(q0, q, o)] == out[p.Element(q, o)]
  }

  /// No element of chunks [q0, q0 + count) lies in [at, at + n).
  ghost predicate Outside(p: Pages, q0: nat, count: nat, at: nat, n: nat)
    requires p.Valid()
  {
    forall q, o :: q0 <= q < q0 + count && 0 <= o < p.Length(q) ==> !(at <= p.Element(q, o) < at + n)
  }

  lemma SkipSlice<T>(p: Pages, l1: seq<T>, out: seq<T>, q0: nat, count: nat,
                     at: nat, source: seq<T>, from: nat, n: nat, reduce: Reduce<T>)
    requires p.Valid() && Synced(p, l1, out, q0, count) && Outside(p, q0, count, at, n)
    requires at + n <= |out| && from + n <= |source|
    ensures Synced(p, l1, ApplySlice(out, at, source, from, n, reduce), q0, count)
  {}

  /// [offset, offset + n) of a page lies within one chunk.
  ghost predicate Within(p: Pages, offset: nat, n: nat)
    requires p.Valid()
  {
    0 < n && offset % p.chunk + n <= p.chunk && offset + n <= p.R
  }

  ghost predicate Piece(p: Pages, page: nat, offset: nat, n: nat)
    requires p.Valid()
  {
    p.first <= page && Within(p, offset, n)
  }

  /// Whole chunks follow one another from the start of a page.
  ghost predicate Aligned(p: Pages, offset: nat)
    requires p.Valid()
  {
    offset % p.chunk == 0
  }

  lemma AlignedStart(p: Pages)
    requires p.Valid()
    ensures Aligned(p, 0)
  {}

  lemma AlignedChunk(p: Pages, offset: nat, n: nat)
    requires p.Valid() && Aligned(p, offset) && 0 < n <= p.chunk && offset + n <= p.R
    ensures Within(p, offset, n) && Aligned(p, offset + p.chunk)
  {
    DivMod(offset, p.chunk);
    DivModUnique(offset + p.chunk, p.chunk, offset / p.chunk + 1, 0);
  }

  lemma PieceChunk(p: Pages, page: nat, offset: nat, n: nat, d: nat)
    requires p.Valid() && Piece(p, page, offset, n) && d < n
    ensures p.ChunkOf(page, offset + d) == p.ChunkOf(page, offset)
    ensures (page * p.R + (offset + d)) / p.R == page && (page * p.R + (offset + d)) % p.R == offset + d
  {
    DivMod(offset, p.chunk);
    DivModUnique(offset + d, p.chunk, offset / p.chunk, offset % p.chunk + d);
    DivModUnique(page * p.R + (offset + d), p.R, page, offset + d);
  }

  /// An element of the piece is an element of the piece's chunk.
  lemma PieceOwner(p: Pages, page: nat, offset: nat, n: nat, q: nat, o: nat)
    requires p.Valid() && Piece(p, page, offset, n) && o < p.Length(q)
    requires page * p.R + offset <= p.Element(q, o) < page * p.R + offset + n
    ensures q == p.ChunkOf(page, offset)
  {
    ChunkElement(p, q, o);
    PieceChunk(p, page, offset, n, p.Element(q, o) - (page * p.R + offset));
  }

  lemma PieceElsewhere(p: Pages, q0: nat, count: nat, page: nat, offset: nat, n: nat)
    requires p.Valid() && Piece(p, page, offset, n)
    requires !(q0 <= p.ChunkOf(page, offset) < q0 + count)
    ensures Outside(p, q0, count, page * p.R + offset, n)
  {
    forall q, o | q0 <= q < q0 + count && 0 <= o < p.Length(q)
      ensures !(page * p.R + offset <= p.Element(q, o) < page * p.R + offset + n)
    {
      if page * p.R + offset <= p.Element(q, o) < page * p.R + offset + n {
        PieceOwner(p, page, offset, n, q, o);
      }
    }
  }

  /// A slice of pages the batch holds no chunk of.
  lemma PagesElsewhere(p: Pages, q0: nat, count: nat, at: nat, n: nat, lo: nat, hi: nat)
    requires p.Valid() && lo * p.R <= at && at + n <= hi * p.R
    requires count == 0 || hi <= p.PageOf(q0) || p.PageOf(q0 + count - 1) < lo
    ensures Outside(p, q0, count, at, n)
  {
    forall q, o | q0 <= q < q0 + count && 0 <= o < p.Length(q) ensures !(at <= p.Element(q, o) < at + n) {
      ChunkElement(p, q, o);
      DivMonotone(q0, q, p.C());
      DivMonotone(q, q0 + count - 1, p.C());
      if hi <= p.PageOf(q0) {
        MulMonotone(hi, p.PageOf(q), p.R);
      } else {
        MulStrict(p.PageOf(q), lo, p.R);
      }
    }
  }

  lemma DivMonotone(a: nat, b: nat, d: nat)
    requires a <= b && d > 0
    ensures a / d <= b / d
  {
    DivMod(a, d);
    DivMod(b, d);
    if b / d < a / d {
      MulStrict(b / d, a / d, d);
    }
  }

  /// Updating the copy of a piece in place keeps the copy in step with the table.
  lemma PieceApplied<T>(p: Pages, l1: seq<T>, out: seq<T>, q0: nat, count: nat,
                        page: nat, offset: nat, dst: nat, at: nat, source: seq<T>, from: nat, n: nat, reduce: Reduce<T>)
    requires p.Valid() && Synced(p, l1, out, q0, count) && Piece(p, page, offset, n)
    requires q0 <= p.ChunkOf(page, offset) < q0 + count && dst == p.Slot(q0, p.ChunkOf(page, offset), offset % p.chunk)
    requires at == page * p.R + offset && at + n <= |out| && from + n <= |source| && dst + n <= |l1|
    ensures Synced(p, ApplySlice(l1, dst, source, from, n, reduce), ApplySlice(out, at, source, from, n, reduce), q0,
      count)
  {
    var qp := p.ChunkOf(page, offset);
    ChunkStart(p, page, offset);
    forall q, o | q0 <= q < q0 + count && 0 <= o < p.Length(q)
      ensures dst <= p.Slot(q0, q, o) < dst + n <==> at <= p.Element(q, o) < at + n
      ensures dst <= p.Slot(q0, q, o) < dst + n ==> p.Slot(q0, q, o) - dst == p.Element(q, o) - at
    {
      if q == qp {
        assert p.Slot(q0, q, o) - dst == o - offset % p.chunk == p.Element(q, o) - at;
      } else {
        if q < qp {
          SlotsApart(p, q0, q, qp, o, offset % p.chunk);
        } else {
          SlotsApart(p, q0, qp, q, offset % p.chunk + n - 1, o);
        }
        if at <= p.Element(q, o) < at + n {
          PieceOwner(p, page, offset, n, q, o);
        }
      }
    }
  }

  /// Applying a slice in two parts is applying it whole.
  lemma SliceInParts<T>(out: seq<T>, at: nat, source: seq<T>, from: nat, a: nat, b: nat, reduce: Reduce<T>)
    requires at + a + b <= |out| && from + a + b <= |source|
    ensures ApplySlice(ApplySlice(out, at, source, from, a, reduce), at + a, source, from + a, b, reduce)
         == ApplySlice(out, at, source, from, a + b, reduce)
  {}

  lemma SliceOfNothing<T>(out: seq<T>, at: nat, source: seq<T>, from: nat, reduce: Reduce<T>)
    requires at <= |out| && from <= |source|
    ensures ApplySlice(out, at, source, from, 0, reduce) == out
  {}

  /// Equal updates do the same wherever they are read from.
  lemma SliceFrom<T>(out: seq<T>, at: nat, a: seq<T>, fromA: nat, b: seq<T>, fromB: nat, n: nat, reduce: Reduce<T>)
    requires at + n <= |out| && fromA + n <= |a| && fromB + n <= |b|
    requires a[fromA..fromA + n] == b[fromB..fromB + n]
    ensures ApplySlice(out, at, a, fromA, n, reduce) == ApplySlice(out, at, b, fromB, n, reduce)
  {
    var x, y := ApplySlice(out, at, a, fromA, n, reduce), ApplySlice(out, at, b, fromB, n, reduce);
    forall i | 0 <= i < |out| ensures x[i] == y[i] {
      if at <= i < at + n {
        assert a[fromA..fromA + n][i - at] == b[fromB..fromB + n][i - at];
      }
    }
  }
}
