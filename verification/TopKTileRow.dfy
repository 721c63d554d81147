/// A tile row's cores and what they write: in every interleaving the tiles that
/// the owner writes out hold the k best of each row, and zeros elsewhere.
module TopKTileRow {
  import opened RowMajor
  import opened TileFaces
  import opened TopKKeys
  import opened TopKOrder
  import opened TopKSelect
  import opened TopKOutput
  import opened TopKProtocol

  // ---- the best of a row ----

  lemma {:induction false} BestExists(bits: seq<bv32>, largest: bool, n: nat, k: nat) returns (best: seq<Candidate>)
    requires n <= |bits| && k > 0
    ensures IsBest(best, Elements(bits, largest, 0, n), k) && |best| == Least(n, k)
  {
    hide Elements, Better, KeyOf, Insert;
    if n == 0 {
      NoElements(bits, largest);
      return [];
    }
    var before := BestExists(bits, largest, n - 1, k);
    NextElement(bits, largest, 0, n - 1);
    var x, elements := Candidate(KeyOf(bits[n - 1], largest), n - 1), Elements(bits, largest, 0, n - 1);
    BetterIsOrder();
    if |before| < k {
      BestWithRoom(before, elements, k, x);
      best := Insert(before, x);
    } else if Better(x, before[k - 1]) {
      BestReplaced(before, elements, k, x);
      best := Insert(before[..k - 1], x);
    } else {
      assert before[k - 1] in before;
      BestKept(before, elements, k, x);
      best := before;
    }
  }

  lemma SomeBest(bits: seq<bv32>, largest: bool, k: nat)
    requires 0 < k <= |bits|
    ensures exists best: seq<Candidate> :: IsBest(best, Elements(bits, largest, 0, |bits|), k) && |best| == k
  {
    var best := BestExists(bits, largest, |bits|, k);
  }

  /// The k best of a row, best first.
  ghost function Best(bits: seq<bv32>, largest: bool, k: nat): (best: seq<Candidate>)
    requires 0 < k <= |bits|
    ensures IsBest(best, Elements(bits, largest, 0, |bits|), k) && |best| == k
  {
    SomeBest(bits, largest, k);
    var best: seq<Candidate> :| IsBest(best, Elements(bits, largest, 0, |bits|), k) && |best| == k;
    best
  }

  // ---- a tile row ----

  /// The rows' values, and tiles enough for k results a row.
  datatype Input = Input(bits: seq<seq<bv32>>, largest: bool, k: nat, kTiles: nat)

  ghost predicate Fits(team: Team, input: Input) {
    && team.Valid() && |input.bits| == team.rows && 0 < input.k <= input.kTiles * 32
    && forall r :: 0 <= r < team.rows ==> input.k <= |input.bits[r]| < NO_INDEX
  }

  datatype Tiles = Tiles(values: seq<bv32>, indices: seq<nat>)

  predicate Sized(input: Input, tiles: Tiles) { |tiles.values| == |tiles.indices| == input.kTiles * 1024 }

  ghost function RowBest(team: Team, input: Input, r: nat): (best: seq<Candidate>)
    requires Fits(team, input) && r < team.rows
    ensures |best| == input.k
  {
    Best(input.bits[r], input.largest, input.k)
  }

  /// What place p of the finished tiles holds.
  ghost function FinalValue(team: Team, input: Input, p: nat): bv32
    requires Fits(team, input)
  {
    var r := RowAt(p % 1024);
    if r < team.rows then
      Entry(ValuesOf(RowBest(team, input, r), input.largest), 0, p / 1024 * 32 + ColumnAt(p % 1024))
    else 0
  }

  ghost function FinalIndex(team: Team, input: Input, p: nat): nat
    requires Fits(team, input)
  {
    var r := RowAt(p % 1024);
    if r < team.rows then Entry(IndicesOf(RowBest(team, input, r)), 0, p / 1024 * 32 + ColumnAt(p % 1024)) else 0
  }

  /// Place p is in a row that the group writes.
  predicate InGroup(team: Team, g: nat, p: nat)
    requires team.groups > 0
  {
    RowAt(p % 1024) < team.rows && RowAt(p % 1024) % team.groups == g
  }

  /// The tiles once a group's rows are written.
  ghost function GroupWritten(team: Team, input: Input, tiles: Tiles, g: nat): (t: Tiles)
    requires Fits(team, input) && Sized(input, tiles)
    ensures Sized(input, t)
  {
    Tiles(
      seq(|tiles.values|, p requires 0 <= p < |tiles.values| =>
        if InGroup(team, g, p) then FinalValue(team, input, p) else tiles.values[p]),
      seq(|tiles.indices|, p requires 0 <= p < |tiles.indices| =>
        if InGroup(team, g, p) then FinalIndex(team, input, p) else tiles.indices[p]))
  }

  /// The tiles once the padding rows are zeroed.
  function PaddingZeroed(team: Team, input: Input, tiles: Tiles): (t: Tiles)
    requires Sized(input, tiles)
    ensures Sized(input, t)
  {
    Tiles(
      seq(|tiles.values|, p requires 0 <= p < |tiles.values| => if team.rows <= RowAt(p % 1024) then 0
        else tiles.values[p]),
      seq(|tiles.indices|, p requires 0 <= p < |tiles.indices| => if team.rows <= RowAt(p % 1024) then 0
        else tiles.indices[p]))
  }

  /// Selects one row and writes its results.
  method WriteBest(pages: seq<seq<bv32>>, firstPage: nat, team: Team, ghost input: Input, row: nat, width: nat,
                   tiles: nat,
                   wide: bool, largest: bool, k: nat, kTiles: nat, segmentTiles: nat, values: array<bv32>,
                     indices: array<nat>)
    requires Fits(team, input) && row < team.rows && largest == input.largest && k == input.k && kTiles == input.kTiles
    requires |input.bits[row]| == width && RowOf(pages, firstPage, row, input.bits[row])
    requires width <= tiles * 32 && (team.segments - 1) * segmentTiles < tiles <= team.segments * segmentTiles
    requires values.Length == indices.Length == kTiles * 1024 && (values as object) != (indices as object)
    modifies values, indices
    ensures forall p :: 0 <= p < values.Length ==>
      values[p] == if RowAt(p % 1024) == row then FinalValue(team, input, p) else old(values[p])
    ensures forall p :: 0 <= p < indices.Length ==>
      indices[p] == if RowAt(p % 1024) == row then FinalIndex(team, input, p) else old(indices[p])
  {
    hide RowAt, ColumnAt, IsBest, RowOf, Entry, BitsOf, Elements;
    var best := new Candidate[k];
    SelectRow(pages, firstPage, row, input.bits[row], width, tiles, wide, largest, segmentTiles, team.segments, best);
    BestIsUnique(best[..], RowBest(team, input, row), Elements(input.bits[row], largest, 0, width), k);
    assert best[..] == RowBest(team, input, row);
    WriteRow(values, ValuesOf(best[..], largest), 0, row, kTiles);
    WriteRow(indices, IndicesOf(best[..]), 0, row, kTiles);
  }

  /// One core's part of the tiles: its group's rows, one after another.
  method WriteGroup(pages: seq<seq<bv32>>, firstPage: nat, team: Team, ghost input: Input, width: nat, tiles: nat,
                    wide: bool,
                    largest: bool, k: nat, kTiles: nat, segmentTiles: nat, g: nat, values: array<bv32>,
                      indices: array<nat>)
    requires Fits(team, input) && g < team.groups && largest == input.largest && k == input.k && kTiles == input.kTiles
    requires forall r :: 0 <= r < team.rows ==> |input.bits[r]| == width && RowOf(pages, firstPage, r, input.bits[r])
    requires width <= tiles * 32 && (team.segments - 1) * segmentTiles < tiles <= team.segments * segmentTiles
    requires values.Length == indices.Length == kTiles * 1024 && (values as object) != (indices as object)
    modifies values, indices
    ensures Tiles(values[..], indices[..]) == GroupWritten(team, input, Tiles(old(values[..]), old(indices[..])), g)
  {
    hide RowAt, RowOf, FinalValue, FinalIndex, Fits, Reached, GroupWritten, Upto, AtSlot, InGroup;
    ghost var start := Tiles(values[..], indices[..]);
    TeamOf(team, input);
    UptoFirst(team, input, start, g);
    var row := g;
    ghost var slot := 0;
    while row < team.rows
      invariant AtSlot(team.groups, g, slot, row)
      invariant Tiles(values[..], indices[..]) == Upto(team, input, start, g, row)
    {
      WriteBest(pages, firstPage, team, input, row, width, tiles, wide, largest, k, kTiles, segmentTiles, values,
        indices);
      NextRow(team, input, start, g, slot, row, Tiles(values[..], indices[..]));
      row := row + team.groups;
      slot := slot + 1;
    }
    UptoLast(team, input, start, g, row);
  }

  /// The tiles with the group's rows before `row` written.
  ghost function Upto(team: Team, input: Input, tiles: Tiles, g: nat, row: nat): (t: Tiles)
    requires Fits(team, input) && Sized(input, tiles)
    ensures Sized(input, t)
  {
    Tiles(
      seq(|tiles.values|, p requires 0 <= p < |tiles.values| =>
        if Reached(team, g, row, p) then FinalValue(team, input, p) else tiles.values[p]),
      seq(|tiles.indices|, p requires 0 <= p < |tiles.indices| =>
        if Reached(team, g, row, p) then FinalIndex(team, input, p) else tiles.indices[p]))
  }

  lemma UptoFirst(team: Team, input: Input, tiles: Tiles, g: nat)
    requires Fits(team, input) && Sized(input, tiles) && g < team.groups
    ensures AtSlot(team.groups, g, 0, g) && Upto(team, input, tiles, g, g) == tiles
  {
    hide RowAt, FinalValue, FinalIndex, Fits;
    TeamOf(team, input);
    forall p: nat | p < |tiles.values| ensures !Reached(team, g, g, p) {
      if RowAt(p % 1024) < g { SmallRemainder(RowAt(p % 1024), g, team.groups); }
    }
    var t := Upto(team, input, tiles, g, g);
    assert t.values == tiles.values && t.indices == tiles.indices;
  }

  lemma SmallRemainder(r: nat, g: nat, groups: nat)
    requires r < g < groups
    ensures r % groups == r
  {
    DivModUnique(r, groups, 0, r);
  }

  lemma UptoLast(team: Team, input: Input, tiles: Tiles, g: nat, row: nat)
    requires Fits(team, input) && Sized(input, tiles) && row >= team.rows
    ensures Upto(team, input, tiles, g, row) == GroupWritten(team, input, tiles, g)
  {
    hide RowAt, FinalValue, FinalIndex, Fits;
    TeamOf(team, input);
    var t, w := Upto(team, input, tiles, g, row), GroupWritten(team, input, tiles, g);
    assert t.values == w.values && t.indices == w.indices;
  }

  lemma NextRow(team: Team, input: Input, start: Tiles, g: nat, slot: nat, row: nat, now: Tiles)
    requires Fits(team, input) && Sized(input, start) && Sized(input, now) && g < team.groups
    requires AtSlot(team.groups, g, slot, row) && row < team.rows
    requires forall p :: 0 <= p < |now.values| ==>
      now.values[p] == if RowAt(p % 1024) == row then FinalValue(team, input, p)
        else Upto(team, input, start, g, row).values[p]
    requires forall p :: 0 <= p < |now.indices| ==>
      now.indices[p] == if RowAt(p % 1024) == row then FinalIndex(team, input, p)
        else Upto(team, input, start, g, row).indices[p]
    ensures AtSlot(team.groups, g, slot + 1, row + team.groups) && now == Upto(team, input, start, g, row + team.groups)
  {
    hide RowAt, FinalValue, FinalIndex, Fits, AtSlot;
    TeamOf(team, input);
    NextInGroup(team.groups, g, slot, row, row);
    forall p: nat | p < |now.values|
      ensures Reached(team, g, row + team.groups, p) <==> RowAt(p % 1024) == row || Reached(team, g, row, p)
    {
      NextInGroup(team.groups, g, slot, row, RowAt(p % 1024));
    }
    var t := Upto(team, input, start, g, row + team.groups);
    assert now.values == t.values && now.indices == t.indices;
  }

  lemma TeamOf(team: Team, input: Input)
    requires Fits(team, input)
    ensures team.Valid() && |input.bits| == team.rows
  {}

  predicate Reached(team: Team, g: nat, row: nat, p: nat)
    requires team.groups > 0
  {
    InGroup(team, g, p) && RowAt(p % 1024) < row
  }

  /// Row `row` is the group's row in this slot.
  predicate AtSlot(groups: nat, g: nat, slot: nat, row: nat) { row == g + slot * groups }

  /// A group's rows follow each other at the groups' distance.
  lemma NextInGroup(groups: nat, g: nat, slot: nat, row: nat, r: nat)
    requires g < groups && AtSlot(groups, g, slot, row)
    ensures AtSlot(groups, g, slot + 1, row + groups)
    ensures r % groups == g && r < row + groups <==> r == row || (r % groups == g && r < row)
  {
    MulDistribute(slot, 1, groups);
    DivModUnique(row, groups, slot, g);
    if row < r < row + groups {
      if r - row + g < groups { DivModUnique(r, groups, slot, r - row + g); }
      else { DivModUnique(r, groups, slot + 1, r - row + g - groups); }
    }
  }

  /// The owner's padding rows, in both its tiles.
  method WritePadding(team: Team, ghost input: Input, kTiles: nat, values: array<bv32>, indices: array<nat>)
    requires team.Valid() && kTiles == input.kTiles
    requires values.Length == indices.Length == kTiles * 1024 && (values as object) != (indices as object)
    modifies values, indices
    ensures Tiles(values[..], indices[..]) == PaddingZeroed(team, input, Tiles(old(values[..]), old(indices[..])))
  {
    hide RowAt;
    ZeroPaddingRows(values, 0, team.rows, kTiles);
    ZeroPaddingRows(indices, 0, team.rows, kTiles);
    ghost var t := PaddingZeroed(team, input, Tiles(old(values[..]), old(indices[..])));
    assert values[..] == t.values && indices[..] == t.indices;
  }

  // ---- every interleaving ----

  /// The tiles after an action.
  ghost function Wrote(team: Team, input: Input, tiles: Tiles, a: Action): (t: Tiles)
    requires Fits(team, input) && Sized(input, tiles)
    ensures Sized(input, t)
  {
    match a
    case Pad => PaddingZeroed(team, input, tiles)
    case Scan(_, g) => if team.segments == 1 then GroupWritten(team, input, tiles, g) else tiles
    case Merge(g) => GroupWritten(team, input, tiles, g)
    case _ => tiles
  }

  /// The tiles after a run, whatever they held before.
  ghost function TilesAfter(team: Team, input: Input, start: Tiles, run: seq<Action>): (t: Tiles)
    requires Fits(team, input) && Sized(input, start)
    ensures Sized(input, t)
  {
    if run == [] then start else Wrote(team, input, TilesAfter(team, input, start, run[..|run| - 1]), run[|run| - 1])
  }

  /// Place p holds what the finished tiles hold there.
  ghost predicate Right(team: Team, input: Input, tiles: Tiles, p: nat)
    requires Fits(team, input) && Sized(input, tiles) && p < input.kTiles * 1024
  {
    tiles.values[p] == FinalValue(team, input, p) && tiles.indices[p] == FinalIndex(team, input, p)
  }

  /// Rows that were written are right.
  lemma {:induction false} WrittenIsRight(team: Team, input: Input, start: Tiles, run: seq<Action>, p: nat)
    requires Fits(team, input) && Sized(input, start) && Possible(team, run) && p < input.kTiles * 1024
    requires After(team, run).writes[RowAt(p % 1024)] > 0
    ensures Right(team, input, TilesAfter(team, input, start, run), p)
  {
    hide Fits, RowAt, FinalValue, FinalIndex;
    TeamOf(team, input);
    if run != [] {
      var before, a := run[..|run| - 1], run[|run| - 1];
      if After(team, before).writes[RowAt(p % 1024)] > 0 { WrittenIsRight(team, input, start, before, p); }
      if team.rows <= RowAt(p % 1024) { PaddingIsZero(team, input, p); }
    }
  }

  lemma PaddingIsZero(team: Team, input: Input, p: nat)
    requires Fits(team, input) && team.rows <= RowAt(p % 1024)
    ensures FinalValue(team, input, p) == 0 && FinalIndex(team, input, p) == 0
  {}

  /// In a finished tile row, result i of row r is the row's i-th best candidate,
  /// and every place past the rows or past k is zero.
  lemma FinishedPlace(team: Team, input: Input, start: Tiles, run: seq<Action>, r: nat, i: nat)
    requires Fits(team, input) && Sized(input, start) && Possible(team, run)
      && Enabled(team, After(team, run), WriteOut)
    requires r < 32 && i < input.kTiles * 32
    ensures (i / 32 + 1) * 1024 <= input.kTiles * 1024
    ensures
      var t := TilesAfter(team, input, start, run);
      if r < team.rows && i < input.k then
        var best := RowBest(team, input, r);
        && IsBest(best, Elements(input.bits[r], input.largest, 0, |input.bits[r]|), input.k)
        && best[i].index < |input.bits[r]|
        && Elem(t.indices, i / 32, r, i % 32) == best[i].index
        && Elem(t.values, i / 32, r, i % 32) == input.bits[r][best[i].index]
      else Elem(t.indices, i / 32, r, i % 32) == 0 && Elem(t.values, i / 32, r, i % 32) == 0
  {
    hide Fits, FacePlace, RowAt, ColumnAt, IsBest, Elements, Enabled, After, Possible, TilesAfter;
    TeamOf(team, input);
    DivMod(i, 32);
    var q := FacePlace(r, i % 32);
    RowAndColumnOfPlace(r, i % 32);
    PlaceInTile(input.kTiles, i / 32, q);
    var p := i / 32 * 1024 + q;
    WritesFinishedTiles(team, run, r);
    WrittenIsRight(team, input, start, run, p);
    if r < team.rows && i < input.k {
      RowFits(team, input, r);
      BestBits(input.bits[r], input.largest, input.k, RowBest(team, input, r), i);
    }
  }

  /// The results of row r: the first k places of the row across the tiles.
  function ResultsOf<T>(words: seq<T>, tiles: nat, r: nat, k: nat): (results: seq<T>)
    requires |words| == tiles * 1024 && r < 32 && k <= tiles * 32
    ensures |results| == k
  {
    seq(k, i requires 0 <= i < k => PlacedAt(words, tiles, r, i))
  }

  function PlacedAt<T>(words: seq<T>, tiles: nat, r: nat, i: nat): T
    requires |words| == tiles * 1024 && r < 32 && i < tiles * 32
  {
    DivMod(i, 32);
    PlaceInTile(tiles, i / 32, 0);
    Elem(words, i / 32, r, i % 32)
  }

  /// When the owner writes its tiles out, in any interleaving and whatever they
  /// held before: every row's results are its k best values in order, with their
  /// columns, and everything past k and past the rows is zero.
  lemma FinishedTileRow(team: Team, input: Input, start: Tiles, run: seq<Action>, r: nat)
    requires Fits(team, input) && Sized(input, start) && Possible(team, run) && r < 32
    requires Enabled(team, After(team, run), WriteOut)
    ensures
      var t, k := TilesAfter(team, input, start, run), if r < team.rows then input.k else 0;
      && (r < team.rows ==>
            IsTopK(input.bits[r], input.largest, k, ResultsOf(t.values, input.kTiles, r, k),
                   ResultsOf(t.indices, input.kTiles, r, k)))
      && forall i: nat :: k <= i < input.kTiles * 32 ==>
           PlacedAt(t.values, input.kTiles, r, i) == 0 && PlacedAt(t.indices, input.kTiles, r, i) == 0
  {
    hide Fits, FacePlace, RowAt, ColumnAt, IsBest, Elements, Enabled, After, Possible, TilesAfter, IsTopK, RowBest;
    TeamOf(team, input);
    var t := TilesAfter(team, input, start, run);
    var k := if r < team.rows then input.k else 0;
    InputFits(team, input);
    forall i: nat | i < input.kTiles * 32
      ensures r < team.rows && i < input.k ==>
        && PlacedAt(t.indices, input.kTiles, r, i) == RowBest(team, input, r)[i].index
        && PlacedAt(t.values, input.kTiles, r, i) == BitsOf(RowBest(team, input, r)[i].key, input.largest)
      ensures !(r < team.rows && i < input.k) ==>
        PlacedAt(t.values, input.kTiles, r, i) == 0 && PlacedAt(t.indices, input.kTiles, r, i) == 0
    {
      FinishedPlace(team, input, start, run, r, i);
      if r < team.rows && i < input.k { BestValue(team, input, r, i); }
    }
    if r < team.rows {
      RowFits(team, input, r);
      var best := RowBest(team, input, r);
      RowBestIs(team, input, r);
      BestIsTopK(input.bits[r], input.largest, input.k, best);
      assert ResultsOf(t.values, input.kTiles, r, k) == ValuesOf(best, input.largest);
      assert ResultsOf(t.indices, input.kTiles, r, k) == IndicesOf(best);
    }
  }

  lemma InputFits(team: Team, input: Input)
    requires Fits(team, input)
    ensures input.k <= input.kTiles * 32
  {}

  lemma RowBestIs(team: Team, input: Input, r: nat)
    requires Fits(team, input) && r < team.rows
    ensures |input.bits| == team.rows && 0 < input.k <= |input.bits[r]|
    ensures RowBest(team, input, r) == Best(input.bits[r], input.largest, input.k)
  {}

  lemma BestValue(team: Team, input: Input, r: nat, i: nat)
    requires Fits(team, input) && r < team.rows && i < input.k
    ensures |input.bits| == team.rows && RowBest(team, input, r)[i].index < |input.bits[r]|
    ensures BitsOf(RowBest(team, input, r)[i].key, input.largest) == input.bits[r][RowBest(team, input, r)[i].index]
  {
    hide BitsOf, KeyOf, IsBest, Elements;
    BestBits(input.bits[r], input.largest, input.k, RowBest(team, input, r), i);
  }

  lemma RowFits(team: Team, input: Input, r: nat)
    requires Fits(team, input) && r < team.rows
    ensures 0 < input.k <= |input.bits[r]|
  {}

  lemma PlaceInTile(tiles: nat, tile: nat, q: nat)
    requires tile < tiles && q < 1024
    ensures (tile * 1024 + q) % 1024 == q && (tile * 1024 + q) / 1024 == tile && tile * 1024 + q < tiles * 1024
    ensures (tile + 1) * 1024 <= tiles * 1024
  {
    DivModUnique(tile * 1024 + q, 1024, tile, q);
  }
}
