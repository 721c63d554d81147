/// Dense tiles in memory: filled with rows of input tiles by the reader, and
/// spread over tiles again by the writer.
module QuantizeDense {
  import opened RowMajor
  import opened TileFaces
  import opened FaceCopies
  import opened VectorUnit
  import opened QuantizePartial
  import opened QuantizeDivisor

  // ---- input tiles into dense tiles ----

  /// A share's place in the row: its first dense tile is the row's `first`.
  ghost predicate InRow(s: Share, first: nat, words: nat) {
    s.Valid() && (s.n > 0 ==> (first * PackOf(s.stride) + s.Tiles()) * 1024 <= words)
  }

  lemma PageInRow(s: Share, first: nat, words: nat, i: nat, jj: nat)
    requires InRow(s, first, words) && i < s.n && jj < s.Count(i)
    ensures PageIndex(PackOf(s.stride), first + i, jj) == first * PackOf(s.stride) + PageIndex(PackOf(s.stride), i, jj)
    ensures (PageIndex(PackOf(s.stride), first + i, jj) + 1) * 1024 <= words
  {
    PageInShare(s, i, jj);
    MulDistribute(first, i, PackOf(s.stride));
    hide PackOf;
  }

  /// A stride that packs several tiles keeps each one's rows within a face.
  lemma PackedInFace(stride: nat, jj: nat)
    requires IsStride(stride) && jj < PackOf(stride) && PackOf(stride) > 1
    ensures stride <= 16 && InFace(jj * stride, stride) && InFace(0, stride)
  {
    RowFits(stride, jj);
    if stride == 4 { InFours(jj); }
  }

  lemma InFours(jj: nat)
    requires jj < 8
    ensures InFace(jj * 4, 4)
  {}

  /// Input tile (first + i, jj) is in its rows of dense tile i.
  ghost predicate Packed(buffer: seq<Word>, input: seq<Word>, s: Share, first: nat, i: nat, jj: nat)
    requires s.Valid() && i < s.n && jj < s.Count(i)
  {
    && (i + 1) * 1024 <= |buffer| && (PageIndex(PackOf(s.stride), first + i, jj) + 1) * 1024 <= |input|
    && forall r: nat, c: nat :: r < s.stride && c < 32 ==> PackedElem(buffer, input, s, first, i, jj, r, c)
  }

  ghost predicate PackedElem(buffer: seq<Word>, input: seq<Word>, s: Share, first: nat, i: nat, jj: nat, r: nat, c: nat)
    requires s.Valid() && i < s.n && jj < s.Count(i) && r < s.stride && c < 32
    requires (i + 1) * 1024 <= |buffer| && (PageIndex(PackOf(s.stride), first + i, jj) + 1) * 1024 <= |input|
  {
    Elem(buffer, i, DenseRow(s.stride, jj, r), c) == Elem(input, PageIndex(PackOf(s.stride), first + i, jj), r, c)
  }

  /// One input tile into dense tile d: whole, or its data rows.
  method PackTile(input: seq<Word>, s: Share, first: nat, d: nat, jj: nat, buffer: array<Word>)
    requires InRow(s, first, |input|) && d < s.n && jj < s.Count(d) && s.n * 1024 <= buffer.Length
    modifies buffer
    ensures Packed(buffer[..], input, s, first, d, jj)
    ensures forall i: nat, j: nat :: i < s.n && j < s.Count(i) && (i != d || j != jj) ==>
      (Packed(old(buffer[..]), input, s, first, i, j) ==> Packed(buffer[..], input, s, first, i, j))
  {
    hide Elem, PackOf, Share.Count;
    PageInRow(s, first, |input|, d, jj);
    var page := PageIndex(PackOf(s.stride), first + d, jj);
    ghost var before := buffer[..];
    if PackOf(s.stride) == 1 {
      OneTile(s.stride, jj);
      CopyTile(input, page, buffer, d);
    } else {
      PackedInFace(s.stride, jj);
      CopyRows(input, page, 0, buffer, d, jj * s.stride, s.stride);
    }
    forall i: nat, j: nat | i < s.n && j < s.Count(i) && (i != d || j != jj) && Packed(before, input, s, first, i, j)
      ensures Packed(buffer[..], input, s, first, i, j)
    {
      PackedKept(buffer[..], before, input, s, first, d, jj, i, j);
    }
  }

  lemma OneTile(stride: nat, jj: nat)
    requires IsStride(stride) && PackOf(stride) == 1 && jj < PackOf(stride)
    ensures stride == 32 && jj * stride == 0
  {}

  lemma PackedKept(after: seq<Word>, before: seq<Word>, input: seq<Word>, s: Share, first: nat, d: nat, jj: nat,
                   i: nat, j: nat)
    requires s.Valid() && d < s.n && jj < s.Count(d) && i < s.n && j < s.Count(i) && (i != d || j != jj)
    requires |after| == |before| && (PageIndex(PackOf(s.stride), first + d, jj) + 1) * 1024 <= |input|
    requires RowsCopied(after, before, input, d, jj * s.stride, PageIndex(PackOf(s.stride), first + d, jj), 0, s.stride)
    requires Packed(before, input, s, first, i, j)
    ensures Packed(after, input, s, first, i, j)
  {
    hide Elem, PackOf, Share.Count;
    if j < jj { MulStrict(j, jj, s.stride); }
    if jj < j { MulStrict(jj, j, s.stride); }
    forall r: nat, c: nat | r < s.stride && c < 32 ensures PackedElem(after, input, s, first, i, j, r, c) {
      assert PackedElem(before, input, s, first, i, j, r, c);
    }
  }

  /// The reader's dense tiles of its share.
  method PackTiles(input: seq<Word>, s: Share, first: nat, buffer: array<Word>)
    requires InRow(s, first, |input|) && s.n * 1024 <= buffer.Length
    modifies buffer
    ensures forall i: nat, jj: nat :: i < s.n && jj < s.Count(i) ==> Packed(buffer[..], input, s, first, i, jj)
  {
    hide Packed, PackOf;
    var d := 0;
    while d < s.n
      invariant 0 <= d <= s.n
      invariant forall i: nat, jj: nat :: i < d && jj < s.Count(i) ==> Packed(buffer[..], input, s, first, i, jj)
    {
      var jj := 0;
      while jj < s.Count(d)
        invariant 0 <= jj <= s.Count(d)
        invariant forall i: nat, j: nat :: i < d && j < s.Count(i) ==> Packed(buffer[..], input, s, first, i, j)
        invariant forall j: nat :: j < jj ==> Packed(buffer[..], input, s, first, d, j)
      {
        PackTile(input, s, first, d, jj, buffer);
        jj := jj + 1;
      }
      d := d + 1;
    }
  }

  /// The share's input tiles, as the row has them.
  function PagesOf(input: seq<Word>, start: nat, n: nat): (pages: seq<Tile>)
    requires (start + n) * 1024 <= |input|
    ensures |pages| == n && forall t: nat :: t < n ==> pages[t] == Unpacked(input, start + t)
  {
    seq<Tile>(n, t requires 0 <= t < n => Unpacked(input, start + t))
  }

  function DenseOf(buffer: seq<Word>, n: nat): (dense: seq<Tile>)
    requires n * 1024 <= |buffer|
    ensures |dense| == n && forall i: nat :: i < n ==> dense[i] == Unpacked(buffer, i)
  {
    seq<Tile>(n, i requires 0 <= i < n => Unpacked(buffer, i))
  }

  /// The packed dense tiles hold the share's input tiles.
  lemma PackedHolds(buffer: seq<Word>, input: seq<Word>, s: Share, first: nat, start: nat)
    requires InRow(s, first, |input|) && s.n * 1024 <= |buffer| && (start + s.Tiles()) * 1024 <= |input|
    requires s.n > 0 ==> start == first * PackOf(s.stride)
    requires forall i: nat, jj: nat :: i < s.n && jj < s.Count(i) ==> Packed(buffer, input, s, first, i, jj)
    ensures Holds(s, DenseOf(buffer, s.n), PagesOf(input, start, s.Tiles()))
  {
    hide Elem, PackOf, At, Unpacked, FacePlace;
    var dense, pages := DenseOf(buffer, s.n), PagesOf(input, start, s.Tiles());
    forall i: nat, jj: nat | i < s.n && jj < s.Count(i)
      ensures PageIndex(PackOf(s.stride), i, jj) < |pages|
        && PackedAt(dense[i], pages[PageIndex(PackOf(s.stride), i, jj)], s.stride, jj)
    {
      PageInShare(s, i, jj);
      PageInRow(s, first, |input|, i, jj);
      var page := PageIndex(PackOf(s.stride), i, jj);
      assert Packed(buffer, input, s, first, i, jj);
      forall r: nat, c: nat | r < s.stride && c < 32
        ensures At(dense[i], DenseRow(s.stride, jj, r), c) == At(pages[page], r, c)
      {
        assert PackedElem(buffer, input, s, first, i, jj, r, c);
        UnpackedElem(buffer, i, DenseRow(s.stride, jj, r), c);
        UnpackedElem(input, start + page, r, c);
      }
    }
  }

  lemma UnpackedElem(words: seq<Word>, i: nat, r: nat, c: nat)
    requires (i + 1) * 1024 <= |words| && r < 32 && c < 32
    ensures At(Unpacked(words, i), r, c) == Elem(words, i, r, c)
  {
    UnpackedElement(words, i, r, c);
  }

  // ---- dense tiles back into tiles ----

  /// Tile (first + i, jj) of the output has its rows of dense tile i.
  ghost predicate Written(q: seq<Word>, out: seq<Word>, s: Share, first: nat, i: nat, jj: nat)
    requires s.Valid() && i < s.n && jj < s.Count(i)
  {
    && (i + 1) * 1024 <= |out| && (PageIndex(PackOf(s.stride), first + i, jj) + 1) * 1024 <= |q|
    && forall r: nat, c: nat :: r < s.stride && c < 32 ==> WrittenElem(q, out, s, first, i, jj, r, c)
  }

  ghost predicate WrittenElem(q: seq<Word>, out: seq<Word>, s: Share, first: nat, i: nat, jj: nat, r: nat, c: nat)
    requires s.Valid() && i < s.n && jj < s.Count(i) && r < s.stride && c < 32
    requires (i + 1) * 1024 <= |out| && (PageIndex(PackOf(s.stride), first + i, jj) + 1) * 1024 <= |q|
  {
    Elem(q, PageIndex(PackOf(s.stride), first + i, jj), r, c) == Elem(out, i, DenseRow(s.stride, jj, r), c)
  }

  /// A tile's rows outside a share's tiles and their data rows are kept.
  ghost predicate KeptOutside(q: seq<Word>, before: seq<Word>, s: Share, first: nat)
    requires s.Valid() && |q| == |before|
  {
    forall p: nat, r: nat, c: nat ::
      (p + 1) * 1024 <= |q| && r < 32 && c < 32
        && (r >= s.stride || !(first * PackOf(s.stride) <= p < first * PackOf(s.stride) + s.Tiles()))
      ==> Elem(q, p, r, c) == Elem(before, p, r, c)
  }

  method UnpackTile(out: seq<Word>, s: Share, first: nat, d: nat, jj: nat, q: array<Word>)
    requires InRow(s, first, q.Length) && d < s.n && jj < s.Count(d) && s.n * 1024 <= |out|
    modifies q
    ensures Written(q[..], out, s, first, d, jj) && KeptOutside(q[..], old(q[..]), s, first)
    ensures forall i: nat, j: nat :: i < s.n && j < s.Count(i) && (i != d || j != jj) ==>
      (Written(old(q[..]), out, s, first, i, j) ==> Written(q[..], out, s, first, i, j))
  {
    hide Elem, PackOf, Share.Count;
    PageInRow(s, first, q.Length, d, jj);
    PageInShare(s, d, jj);
    var page := PageIndex(PackOf(s.stride), first + d, jj);
    ghost var before := q[..];
    if PackOf(s.stride) == 1 {
      OneTile(s.stride, jj);
      CopyTile(out, d, q, page);
    } else {
      PackedInFace(s.stride, jj);
      CopyRows(out, d, jj * s.stride, q, page, 0, s.stride);
    }
    forall i: nat, j: nat | i < s.n && j < s.Count(i) && (i != d || j != jj) && Written(before, out, s, first, i, j)
      ensures Written(q[..], out, s, first, i, j)
    {
      WrittenKept(q[..], before, out, s, first, d, jj, i, j);
    }
  }

  lemma PagesApart(s: Share, first: nat, d: nat, jj: nat, i: nat, j: nat)
    requires s.Valid() && d < s.n && jj < s.Count(d) && i < s.n && j < s.Count(i) && (i != d || j != jj)
    ensures PageIndex(PackOf(s.stride), first + d, jj) != PageIndex(PackOf(s.stride), first + i, j)
  {
    DivModUnique(PageIndex(PackOf(s.stride), first + d, jj), PackOf(s.stride), first + d, jj);
    DivModUnique(PageIndex(PackOf(s.stride), first + i, j), PackOf(s.stride), first + i, j);
    hide PackOf, PageIndex;
  }

  lemma WrittenKept(after: seq<Word>, before: seq<Word>, out: seq<Word>, s: Share, first: nat, d: nat, jj: nat, i: nat,
                    j: nat)
    requires s.Valid() && d < s.n && jj < s.Count(d) && i < s.n && j < s.Count(i) && (i != d || j != jj)
    requires |after| == |before| && (d + 1) * 1024 <= |out| && jj * s.stride + s.stride <= 32
    requires RowsCopied(after, before, out, PageIndex(PackOf(s.stride), first + d, jj), 0, d, jj * s.stride, s.stride)
    requires Written(before, out, s, first, i, j)
    ensures Written(after, out, s, first, i, j)
  {
    hide Elem, PackOf, PageIndex, Share.Count;
    PagesApart(s, first, d, jj, i, j);
    forall r: nat, c: nat | r < s.stride && c < 32 ensures WrittenElem(after, out, s, first, i, j, r, c) {
      assert WrittenElem(before, out, s, first, i, j, r, c);
    }
  }

  const CHUNK_TILES: nat := 3

  /// The writer: the dense tiles come in chunks; each one's rows go to its tiles.
  method UnpackTiles(out: seq<Word>, s: Share, first: nat, q: array<Word>)
    requires InRow(s, first, q.Length) && s.n * 1024 <= |out|
    modifies q
    ensures KeptOutside(q[..], old(q[..]), s, first)
    ensures forall i: nat, jj: nat :: i < s.n && jj < s.Count(i) ==> Written(q[..], out, s, first, i, jj)
  {
    hide Written, PackOf, Elem;
    var chunk := 0;
    while chunk < s.n
      invariant 0 <= chunk && KeptOutside(q[..], old(q[..]), s, first)
      invariant forall i: nat, jj: nat :: i < s.n && i < chunk && jj < s.Count(i) ==>
        Written(q[..], out, s, first, i, jj)
    {
      var n := if s.n - chunk < CHUNK_TILES then s.n - chunk else CHUNK_TILES;
      var j := 0;
      while j < n
        invariant 0 <= j <= n && KeptOutside(q[..], old(q[..]), s, first)
        invariant forall i: nat, jj: nat :: i < chunk + j && jj < s.Count(i) ==> Written(q[..], out, s, first, i, jj)
      {
        var d, jj := chunk + j, 0;
        while jj < s.Count(d)
          invariant 0 <= jj <= s.Count(d) && KeptOutside(q[..], old(q[..]), s, first)
          invariant forall i: nat, k: nat :: i < d && k < s.Count(i) ==> Written(q[..], out, s, first, i, k)
          invariant forall k: nat :: k < jj ==> Written(q[..], out, s, first, d, k)
        {
          UnpackTile(out, s, first, d, jj, q);
          jj := jj + 1;
        }
        j := j + 1;
      }
      chunk := chunk + CHUNK_TILES;
    }
  }
}
