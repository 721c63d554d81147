/// A tile row's output tiles: finished rows written as face rows, padding rows
/// zeroed, and the cores of a tile row that share the work.
module TopKOutput {
  import opened RowMajor
  import opened TileFaces

  // ---- writing a row ----

  /// Result i of a row, or zero past k.
  function Entry<T>(entries: seq<T>, zero: T, i: nat): T {
    if i < |entries| then entries[i] else zero
  }

  /// Element p of the output tiles once row `row` is written over `before`.
  function RowWritten<T>(before: seq<T>, entries: seq<T>, zero: T, row: nat, p: nat): T
    requires p < |before|
  {
    if RowAt(p % 1024) == row then Entry(entries, zero, p / 1024 * 32 + ColumnAt(p % 1024)) else before[p]
  }

  /// The 16 results of one half of an output tile, written as its face row.
  method WriteHalf<T>(tiles: array<T>, entries: seq<T>, zero: T, row: nat, tile: nat, half: nat)
    requires row < 32 && half < 2 && (tile + 1) * 1024 <= tiles.Length
    modifies tiles
    ensures forall p :: 0 <= p < tiles.Length ==>
      tiles[p] == if p / 1024 == tile && RowAt(p % 1024) == row && ColumnAt(p % 1024) / 16 == half
                  then Entry(entries, zero, tile * 32 + ColumnAt(p % 1024)) else old(tiles[p])
  {
    hide RowAt, ColumnAt, FaceRow;
    FaceRowPlaces(row, half, 0);
    var at := tile * 1024 + FaceRow(row, half);
    var c := 0;
    while c < 16
      invariant 0 <= c <= 16
      invariant forall p :: 0 <= p < tiles.Length ==>
        tiles[p] == if at <= p < at + c then Entry(entries, zero, tile * 32 + half * 16 + (p - at)) else old(tiles[p])
    {
      tiles[at + c] := Entry(entries, zero, tile * 32 + half * 16 + c);
      c := c + 1;
    }
    forall p | 0 <= p < tiles.Length
      ensures tiles[p] == if p / 1024 == tile && RowAt(p % 1024) == row && ColumnAt(p % 1024) / 16 == half
                          then Entry(entries, zero, tile * 32 + ColumnAt(p % 1024)) else old(tiles[p])
    {
      TilePlace(p, tile, FaceRow(row, half));
      FaceRowPlaces(row, half, p % 1024);
    }
  }

  lemma TilePlace(p: nat, tile: nat, at: nat)
    requires at + 16 <= 1024
    ensures tile * 1024 + at <= p < tile * 1024 + at + 16 <==> p / 1024 == tile && at <= p % 1024 < at + 16
    ensures p / 1024 == tile ==> p - (tile * 1024 + at) == p % 1024 - at
  {}

  /// Writes a row's results into the output tiles, zeros past them.
  method WriteRow<T>(tiles: array<T>, entries: seq<T>, zero: T, row: nat, kTiles: nat)
    requires row < 32 && tiles.Length == kTiles * 1024
    modifies tiles
    ensures forall p :: 0 <= p < tiles.Length ==> tiles[p] == RowWritten(old(tiles[..]), entries, zero, row, p)
  {
    hide RowAt, ColumnAt, Entry;
    var tile := 0;
    while tile < kTiles
      invariant 0 <= tile <= kTiles
      invariant forall p :: 0 <= p < tiles.Length ==>
        tiles[p] == if p / 1024 < tile then RowWritten(old(tiles[..]), entries, zero, row, p) else old(tiles[p])
    {
      var half := 0;
      while half < 2
        invariant 0 <= half <= 2
        invariant forall p :: 0 <= p < tiles.Length ==>
          tiles[p] == if p / 1024 < tile || (p / 1024 == tile && ColumnAt(p % 1024) / 16 < half)
                      then RowWritten(old(tiles[..]), entries, zero, row, p) else old(tiles[p])
      {
        WriteHalf(tiles, entries, zero, row, tile, half);
        half := half + 1;
      }
      forall p | 0 <= p < tiles.Length ensures ColumnAt(p % 1024) / 16 < 2 { HalfOfColumn(ColumnAt(p % 1024)); }
      tile := tile + 1;
    }
    forall p | 0 <= p < tiles.Length ensures p / 1024 < kTiles { TileOfPlace(p, kTiles); }
  }

  lemma HalfOfColumn(c: nat)
    requires c < 32
    ensures c / 16 < 2
  {}

  lemma TileOfPlace(p: nat, tiles: nat)
    requires p < tiles * 1024
    ensures p / 1024 < tiles
  {}

  // ---- the padding rows ----

  method ZeroRun<T>(tiles: array<T>, zero: T, at: nat, n: nat)
    requires at + n <= tiles.Length
    modifies tiles
    ensures forall p :: 0 <= p < tiles.Length ==> tiles[p] == if at <= p < at + n then zero else old(tiles[p])
  {
    var i := 0;
    while i < n
      invariant 0 <= i <= n
      invariant forall p :: 0 <= p < tiles.Length ==> tiles[p] == if at <= p < at + i then zero else old(tiles[p])
    {
      tiles[at + i] := zero;
      i := i + 1;
    }
  }

  /// Zeroes rows [rows, 32) of the output tiles.
  method ZeroPaddingRows<T>(tiles: array<T>, zero: T, rows: nat, kTiles: nat)
    requires rows <= 32 && tiles.Length == kTiles * 1024
    modifies tiles
    ensures forall p :: 0 <= p < tiles.Length ==> tiles[p] == if rows <= RowAt(p % 1024) then zero else old(tiles[p])
  {
    hide RowAt;
    var tile := 0;
    while tile < kTiles
      invariant 0 <= tile <= kTiles
      invariant forall p :: 0 <= p < tiles.Length ==>
        tiles[p] == if p / 1024 < tile && rows <= RowAt(p % 1024) then zero else old(tiles[p])
    {
      var base := tile * 1024;
      ghost var before := tiles[..];
      if rows < 16 {
        ZeroRun(tiles, zero, base + rows * 16, (16 - rows) * 16);
        ZeroRun(tiles, zero, base + 256 + rows * 16, (16 - rows) * 16);
        ZeroRun(tiles, zero, base + 512, 512);
      } else if rows < 32 {
        ZeroRun(tiles, zero, base + 512 + (rows - 16) * 16, (32 - rows) * 16);
        ZeroRun(tiles, zero, base + 768 + (rows - 16) * 16, (32 - rows) * 16);
      }
      forall p | 0 <= p < tiles.Length
        ensures tiles[p] == if p / 1024 == tile && rows <= RowAt(p % 1024) then zero else before[p]
      {
        PaddingPlace(p, tile, rows);
      }
      tile := tile + 1;
    }
    forall p | 0 <= p < tiles.Length ensures p / 1024 < kTiles { TileOfPlace(p, kTiles); }
  }

  /// The runs that are zeroed are the padding rows' face rows.
  lemma PaddingPlace(p: nat, tile: nat, rows: nat)
    requires rows <= 32
    ensures p / 1024 == tile && rows <= RowAt(p % 1024) <==> (
      var q := p - tile * 1024;
      if rows < 16 then rows * 16 <= q < 256 || 256 + rows * 16 <= q < 512 || 512 <= q < 1024
      else if rows < 32 then 512 + (rows - 16) * 16 <= q < 768 || 768 + (rows - 16) * 16 <= q < 1024
      else false)
  {
    var q := p - tile * 1024;
    DivMod(p, 1024);
    if 0 <= q < 1024 {
      DivModUnique(p, 1024, tile, q);
      FacePlaceRows(q);
    }
  }

  lemma FacePlaceRows(q: nat)
    requires q < 1024
    ensures RowAt(q) == if q < 256 then q / 16 else if q < 512 then (q - 256) / 16
                        else if q < 768 then 16 + (q - 512) / 16 else 16 + (q - 768) / 16
  {
    hide RowAt, ColumnAt;
    var f, s, c := PlaceParts(q);
  }
}
