/// What rng_bits returns, element by element: where an element's word lies and
/// which key and counter it is made from.
module RngResult {
  import opened RowMajor
  import opened Words32
  import opened RngTiles
  import opened RngState
  import opened RngKernel

  /// The element's place in row-major order is below 2^32.
  lemma IndexIsWord(e: Extents, b: nat, r: nat, c: nat)
    requires e.Valid() && b < e.B && r < e.H && c < e.W
    ensures Flatten([e.B, e.H, e.W], [b, r, c]) == IndexOf(e, b, r, c) < TWO_32
  {
    PlaceOfThree([e.B, e.H, e.W], [b, r, c]);
    IndexBound(e, b, r, c);
  }

  /// The page, vector and lane of an element: pages by batch, tile row and tile
  /// column; in a page four faces of eight vectors, a vector being every other
  /// column of four rows.
  lemma PlaceOfElement(e: Extents, b: nat, r: nat, c: nat)
    requires e.Valid() && b < e.B && r < e.H && c < e.W
    ensures TileOf(e, b, r, c) == (b * DivUp(e.H, 32) + r / 32) * DivUp(e.W, 32) + c / 32 < e.Tiles()
    ensures var f, d, l := r % 32 / 16 * 2 + c % 32 / 16, r % 16 / 4 * 2 + c % 2, r % 4 * 8 + c % 16 / 2;
      f == FaceFor(r % 32, c % 32) && d == VectorFor(r % 32, c % 32) && l == LaneFor(r % 32, c % 32)
  {
    TileInRange(e, b, r, c);
    InTile(r);
    InTile(c);
  }

  lemma InTile(x: nat)
    ensures x % 32 % 16 == x % 16 && x % 32 % 4 == x % 4 && x % 32 % 2 == x % 2 && x % 16 / 4 < 4
    ensures x % 32 / 16 == if x % 32 < 16 then 0 else 1
  {
    var q, y := x / 32, x % 32;
    Digits(y);
    DivModUnique(x, 16, 2 * q + y / 16, y % 16);
    DivModUnique(x, 4, 8 * q + y / 4, y % 4);
    DivModUnique(x, 2, 16 * q + y / 2, y % 2);
  }

  lemma Digits(y: nat)
    requires y < 32
    ensures y == y / 16 * 16 + y % 16 == y / 4 * 4 + y % 4 == y / 2 * 2 + y % 2
    ensures y / 16 == (if y < 16 then 0 else 1) && y % 16 / 4 < 4
  {}

  /// The word of an element in the pages of the result.
  function WordAt(pages: seq<Tile>, e: Extents, b: nat, r: nat, c: nat): Word
    requires e.Valid() && |pages| == e.Tiles() && b < e.B && r < e.H && c < e.W
  {
    PlaceOfElement(e, b, r, c);
    pages[(b * DivUp(e.H, 32) + r / 32) * DivUp(e.W, 32) + c / 32]
      [8 * (r % 32 / 16 * 2 + c % 32 / 16) + r % 16 / 4 * 2 + c % 2][r % 4 * 8 + c % 16 / 2]
  }

  lemma WordIs(pages: seq<Tile>, a: Algorithm, s: State, e: Extents, b: nat, r: nat, c: nat)
    requires e.Valid() && |pages| == e.Tiles() && b < e.B && r < e.H && c < e.W
    requires AllWords(pages, a, s, e)
    ensures IndexOf(e, b, r, c) < TWO_32 && WordAt(pages, e, b, r, c) == WordOf(UseOf(a, s, IndexOf(e, b, r, c)))
  {
    hide Extents.Valid, Extents.Tiles, IndexOf, UseOf, WordOf, FaceFor, VectorFor, LaneFor, DivUp;
    PlaceOfElement(e, b, r, c);
    assert IsWord(pages, a, s, e, b, r, c);
  }

  /// Philox: the seed is the key; the element's place in row-major order is the
  /// counter's first word, the state's counter its second and fourth.
  lemma PhiloxResult(pages: seq<Tile>, s: State, e: Extents, b: nat, r: nat, c: nat)
    requires e.Valid() && |pages| == e.Tiles() && b < e.B && r < e.H && c < e.W
    requires AllWords(pages, UsePhilox, s, e)
    ensures Flatten([e.B, e.H, e.W], [b, r, c]) < TWO_32
    ensures WordAt(pages, e, b, r, c) == Philox.Philox10(Philox.Key(s.w0, s.h0),
      Philox.Counter(Flatten([e.B, e.H, e.W], [b, r, c]), s.w1, 0, s.h1)).x0
  {
    hide Extents.Valid, Extents.Tiles, IndexOf, AllWords, Philox.Philox10, Flatten;
    IndexIsWord(e, b, r, c);
    WordIs(pages, UsePhilox, s, e, b, r, c);
  }

  /// Threefry: the counter's high word beside the parity constant, hashed under the
  /// seed, is the key; the element's place and the counter's low word are the counter.
  lemma ThreefryResult(pages: seq<Tile>, s: State, e: Extents, b: nat, r: nat, c: nat)
    requires e.Valid() && |pages| == e.Tiles() && b < e.B && r < e.H && c < e.W
    requires AllWords(pages, UseThreefry, s, e)
    ensures Flatten([e.B, e.H, e.W], [b, r, c]) < TWO_32
    ensures var stream := Threefry.Threefry20(Threefry.Pair(s.w0, s.h0), Threefry.Pair(s.h1, 0x1BD1_1BDA));
      WordAt(pages, e, b, r, c)
        == Threefry.Threefry20(stream, Threefry.Pair(Flatten([e.B, e.H, e.W], [b, r, c]), s.w1)).low
  {
    hide Extents.Valid, Extents.Tiles, IndexOf, AllWords, Threefry.Threefry20, Flatten;
    IndexIsWord(e, b, r, c);
    WordIs(pages, UseThreefry, s, e, b, r, c);
  }
}
