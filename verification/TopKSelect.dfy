/// Selecting a row's best k: each segment of columns scanned with insertion,
/// and the segments' lists merged.
module TopKSelect {
  import opened TopKKeys
  import opened WordOrder
  import opened TopKOrder
  import opened TileFaces
  import opened RowMajor

  // ---- the row ----

  /// Columns [lo, hi) of a row as candidates.
  ghost function Elements(bits: seq<bv32>, largest: bool, lo: nat, hi: nat): (s: set<Candidate>)
    requires hi <= |bits|
  {
    set i | lo <= i < hi :: Candidate(KeyOf(bits[i], largest), i)
  }

  lemma NextElement(bits: seq<bv32>, largest: bool, lo: nat, i: nat)
    requires lo <= i < |bits|
    ensures Elements(bits, largest, lo, lo) == {}
    ensures Elements(bits, largest, lo, i + 1) == Elements(bits, largest, lo, i)
      + {Candidate(KeyOf(bits[i], largest), i)}
    ensures forall c :: c in Elements(bits, largest, lo, i) ==> lo <= c.index < i
  {
    hide KeyOf;
    var x := Candidate(KeyOf(bits[i], largest), i);
    forall c ensures c in Elements(bits, largest, lo, i + 1) <==> c in Elements(bits, largest, lo, i) || c == x {
      if c in Elements(bits, largest, lo, i + 1) && c.index != i { assert c in Elements(bits, largest, lo, i); }
      if c == x { assert c in Elements(bits, largest, lo, i + 1); }
    }
  }

  /// Elements in the aligned 64 bytes that hold a face row: one row of 4-byte
  /// values, or a pair of rows of 2-byte ones.
  function ReadElements(wide: bool): nat { if wide then 16 else 32 }

  /// The 64 bytes read for a face row.
  function Chunk(page: seq<bv32>, row: nat, half: nat, wide: bool): (chunk: seq<bv32>)
    requires |page| == 1024 && row < 32 && half < 2
    ensures |chunk| == ReadElements(wide)
  {
    var at := FaceRow(row, half) / ReadElements(wide) * ReadElements(wide);
    page[at..at + ReadElements(wide)]
  }

  /// Element e of the face row, in the chunk.
  function InChunk(row: nat, e: nat, wide: bool): nat {
    if wide then e else (row % 2) * 16 + e
  }

  lemma ChunkElement(page: seq<bv32>, row: nat, half: nat, wide: bool, e: nat)
    requires |page| == 1024 && row < 32 && half < 2 && e < 16
    ensures InChunk(row, e, wide) < ReadElements(wide)
    ensures Chunk(page, row, half, wide)[InChunk(row, e, wide)] == page[FacePlace(row, half * 16 + e)]
  {
    hide FaceRow, FacePlace;
    var at := FaceRow(row, half);
    FaceElement(row, half, e);
    FaceAligned(row, half);
    DivMod(at, ReadElements(wide));
  }

  lemma FaceAligned(row: nat, half: nat)
    requires row < 32 && half < 2
    ensures FaceRow(row, half) % 16 == 0 && FaceRow(row, half) % 32 == (row % 2) * 16
  {}

  /// The row's values, as the input's tiles hold them.
  ghost predicate RowOf(pages: seq<seq<bv32>>, firstPage: nat, row: nat, bits: seq<bv32>) {
    && row < 32
    && forall c :: 0 <= c < |bits| ==>
      firstPage + c / 32 < |pages| && |pages[firstPage + c / 32]| == 1024
        && bits[c] == pages[firstPage + c / 32][FacePlace(row, c % 32)]
  }

  // ---- insertion ----

  /// The list with the entries from pos up to `at` moved one place down.
  ghost function Shifted(list: seq<Candidate>, pos: nat, at: nat): (r: seq<Candidate>)
    requires pos <= at < |list|
    ensures |r| == |list|
  {
    list[..pos + 1] + list[pos..at] + list[at + 1..]
  }

  lemma ShiftOne(list: seq<Candidate>, pos: nat, at: nat)
    requires 0 < pos <= at < |list|
    ensures Shifted(list, pos, at)[pos - 1] == list[pos - 1]
    ensures Shifted(list, pos, at)[pos := list[pos - 1]] == Shifted(list, pos - 1, at)
    ensures list[pos - 1..at] == [list[pos - 1]] + list[pos..at]
    ensures list[..pos] != [] && list[..pos][|list[..pos]| - 1] == list[pos - 1]
      && list[..pos][..|list[..pos]| - 1] == list[..pos - 1]
  {}

  lemma PlacedAt(list: seq<Candidate>, pos: nat, at: nat, x: Candidate)
    requires pos <= at < |list|
    ensures Shifted(list, at, at) == list
    ensures Shifted(list, pos, at)[pos := x] == list[..pos] + [x] + list[pos..at] + list[at + 1..]
  {}

  /// Puts x where it belongs among the first `at` entries; entry `at` is lost.
  method InsertAt(list: array<Candidate>, at: nat, x: Candidate)
    requires at < list.Length
    modifies list
    ensures list[..] == Insert(old(list[..at]), x) + old(list[at + 1..])
  {
    hide Better, Insert, Shifted;
    ghost var before := list[..];
    var pos := at;
    PlacedAt(before, at, at, x);
    NothingShifted(before, at, x);
    while pos > 0 && Better(x, list[pos - 1])
      invariant 0 <= pos <= at && list[..] == Shifted(before, pos, at)
      invariant Insert(before[..at], x) == Insert(before[..pos], x) + before[pos..at]
    {
      ShiftOne(before, pos, at);
      InsertAbove(before[..pos], x);
      InsertFurther(before, pos, at, x);
      assert list[pos - 1] == list[..][pos - 1];
      list[pos] := list[pos - 1];
      assert list[..] == Shifted(before, pos, at)[pos := before[pos - 1]];
      pos := pos - 1;
    }
    if pos > 0 {
      ShiftOne(before, pos, at);
      assert list[pos - 1] == list[..][pos - 1];
    }
    InsertHere(before[..pos], x);
    PlacedAt(before, pos, at, x);
    list[pos] := x;
    assert list[..] == Shifted(before, pos, at)[pos := x];
  }

  lemma NothingShifted(list: seq<Candidate>, at: nat, x: Candidate)
    requires at < |list|
    ensures Insert(list[..at], x) == Insert(list[..at], x) + list[at..at]
  {
    hide Insert;
  }

  lemma InsertFurther(list: seq<Candidate>, pos: nat, at: nat, x: Candidate)
    requires 0 < pos <= at < |list| && list[pos - 1..at] == [list[pos - 1]] + list[pos..at]
    requires Insert(list[..at], x) == Insert(list[..pos], x) + list[pos..at]
    requires Insert(list[..pos], x) == Insert(list[..pos - 1], x) + [list[pos - 1]]
    ensures Insert(list[..at], x) == Insert(list[..pos - 1], x) + list[pos - 1..at]
  {
    hide Insert;
  }

  lemma InsertHere(list: seq<Candidate>, x: Candidate)
    requires list == [] || !Better(x, list[|list| - 1])
    ensures Insert(list, x) == list + [x]
  {
    hide Better;
  }

  lemma InsertAbove(list: seq<Candidate>, x: Candidate)
    requires list != [] && Better(x, list[|list| - 1])
    ensures Insert(list, x) == Insert(list[..|list| - 1], x) + [list[|list| - 1]]
  {
    hide Better;
  }

  // ---- the scan of a segment ----

  /// The scan's state after columns [lo, reached).
  ghost predicate Scanned(best: seq<Candidate>, found: nat, threshold: bv32, bits: seq<bv32>, largest: bool, lo: nat,
                          reached: nat) {
    && lo <= reached <= |bits| && found <= |best| && |best| > 0
    && found == (if reached - lo < |best| then reached - lo else |best|)
    && IsBest(best[..found], Elements(bits, largest, lo, reached), |best|)
    && (found == |best| ==> threshold == best[|best| - 1].key)
  }

  /// A later column beats the last of a full list just when its key beats the threshold.
  lemma ThresholdDecides(best: seq<Candidate>, threshold: bv32, x: Candidate)
    requires |best| > 0 && threshold == best[|best| - 1].key && best[|best| - 1].index < x.index
    ensures Below(threshold, x.key) ==> Better(x, best[|best| - 1])
    ensures !Below(threshold, x.key) ==> Better(best[|best| - 1], x)
  {
    hide Below;
    BetterOne(x, best[|best| - 1]);
    if Below(x.key, threshold) && Below(threshold, x.key) {
      BelowTransitive(x.key, threshold, x.key);
      BelowIrreflexive(x.key);
    }
  }

  /// One column.
  method ScanOne(best: array<Candidate>, found: nat, threshold: bv32, ghost bits: seq<bv32>, largest: bool,
                 ghost lo: nat, i: nat, value: bv32)
    returns (found': nat, threshold': bv32)
    requires best.Length > 0 && i < |bits| && value == bits[i]
      && Scanned(best[..], found, threshold, bits, largest, lo, i)
    modifies best
    ensures Scanned(best[..], found', threshold', bits, largest, lo, i + 1)
  {
    hide Better, Below, KeyOf, Insert, Elements;
    NextElement(bits, largest, lo, i);
    var key := KeyOf(value, largest);
    var x := Candidate(key, i);
    ghost var before, k := best[..], best.Length;
    found', threshold' := found, threshold;
    if found < best.Length {
      BestWithRoom(before[..found], Elements(bits, largest, lo, i), k, x);
      InsertAt(best, found, x);
      assert best[..][..found + 1] == Insert(before[..found], x);
      found' := found + 1;
      if found' == best.Length { threshold' := best[best.Length - 1].key; }
    } else {
      assert before[..found] == before;
      assert before[k - 1] in before;
      ThresholdDecides(before, threshold, x);
      if Below(threshold, key) {
        BestReplaced(before, Elements(bits, largest, lo, i), k, x);
        InsertAt(best, best.Length - 1, x);
        assert before[k..] == [];
        assert best[..][..k] == Insert(before[..k - 1], x);
        threshold' := best[best.Length - 1].key;
      } else {
        BestKept(before, Elements(bits, largest, lo, i), k, x);
      }
    }
  }

  /// Columns a segment of tiles covers.
  function ColumnsBefore(width: nat, tiles: nat): nat { Least(width, tiles * 32) }

  /// A list of the best of a segment, padded past the elements it has.
  ghost predicate Padded(list: seq<Candidate>, n: nat, elements: set<Candidate>) {
    && n <= |list| && IsBest(list[..n], elements, |list|)
    && (forall i :: n <= i < |list| ==> list[i] == NOTHING)
  }

  ghost predicate HalfElement(page: seq<bv32>, row: nat, half: nat, bits: seq<bv32>, col: nat, e: nat) {
    && |page| == 1024 && row < 32 && half < 2 && e < 16 && col + e < |bits|
    && bits[col + e] == page[FacePlace(row, half * 16 + e)]
  }

  /// Columns [col, col + count) are the face row of this half of the page.
  ghost predicate HalfOf(page: seq<bv32>, row: nat, half: nat, bits: seq<bv32>, col: nat, count: nat) {
    && |page| == 1024 && row < 32 && half < 2 && col + count <= |bits|
    && forall e: nat :: e < count ==> HalfElement(page, row, half, bits, col, e)
  }

  /// One half of a tile's row.
  method ScanHalf(page: seq<bv32>, row: nat, half: nat, ghost bits: seq<bv32>, wide: bool, ghost lo: nat,
                  col: nat, count: nat, found: nat, threshold: bv32, largest: bool, best: array<Candidate>)
    returns (found': nat, threshold': bv32)
    requires best.Length > 0 && count <= 16 && HalfOf(page, row, half, bits, col, count)
    requires Scanned(best[..], found, threshold, bits, largest, lo, col)
    modifies best
    ensures Scanned(best[..], found', threshold', bits, largest, lo, col + count)
  {
    hide Scanned, FacePlace, Chunk;
    var chunk := Chunk(page, row, half, wide);
    found', threshold' := found, threshold;
    var e := 0;
    while e < count
      invariant 0 <= e <= count
      invariant Scanned(best[..], found', threshold', bits, largest, lo, col + e)
    {
      assert HalfElement(page, row, half, bits, col, e);
      ChunkElement(page, row, half, wide, e);
      found', threshold' := ScanOne(best, found', threshold', bits, largest, lo, col + e, chunk[InChunk(row, e, wide)]);
      e := e + 1;
    }
  }

  /// Keeps the best of the segment's columns, as the kernel walks its tiles.
  method SelectSegment(pages: seq<seq<bv32>>, firstPage: nat, row: nat, ghost bits: seq<bv32>, width: nat, wide: bool,
                       firstTile: nat, tiles: nat, largest: bool, best: array<Candidate>)
    returns (ghost n: nat)
    requires best.Length > 0 && |bits| == width && RowOf(pages, firstPage, row, bits)
    modifies best
    ensures Padded(best[..], n,
                   Elements(bits, largest, ColumnsBefore(width, firstTile), ColumnsBefore(width, firstTile + tiles)))
    ensures n == Least(best.Length, ColumnsBefore(width, firstTile + tiles) - ColumnsBefore(width, firstTile))
  {
    hide Scanned, FacePlace, Elements;
    ghost var lo := ColumnsBefore(width, firstTile);
    var found: nat, threshold: bv32 := 0, 0;
    StartScan(best[..], threshold, bits, largest, lo);
    var t := 0;
    while t < tiles
      invariant 0 <= t <= tiles
      invariant Scanned(best[..], found, threshold, bits, largest, lo, ColumnsBefore(width, firstTile + t))
    {
      var half := 0;
      while half < 2
        invariant 0 <= half <= 2
        invariant Scanned(best[..], found, threshold, bits, largest, lo, Least(width, (firstTile + t) * 32 + half * 16))
      {
        var col := (firstTile + t) * 32 + half * 16;
        if col >= width { break; }
        var count := if col + 16 <= width then 16 else width - col;
        HalfColumns(pages, firstPage, row, bits, firstTile + t, half, count);
        found, threshold := ScanHalf(pages[firstPage + firstTile + t], row, half, bits, wide, lo, col, count, found,
          threshold, largest, best);
        half := half + 1;
      }
      t := t + 1;
    }
    n := ScanCount(best[..], found, threshold, bits, largest, lo, ColumnsBefore(width, firstTile + tiles));
    ghost var kept := best[..][..n];
    while found < best.Length
      invariant n <= found <= best.Length && best[..][..n] == kept
      invariant forall i :: n <= i < found ==> best[i] == NOTHING
    {
      best[found] := NOTHING;
      found := found + 1;
    }
  }

  lemma ScanCount(best: seq<Candidate>, found: nat, threshold: bv32, bits: seq<bv32>, largest: bool, lo: nat,
                  reached: nat) returns (n: nat)
    requires Scanned(best, found, threshold, bits, largest, lo, reached)
    ensures n == found <= |best| && lo <= reached && n == Least(|best|, reached - lo)
    ensures IsBest(best[..n], Elements(bits, largest, lo, reached), |best|)
  {
    n := found;
  }

  /// The columns of a half are the half's face row.
  lemma HalfColumns(pages: seq<seq<bv32>>, firstPage: nat, row: nat, bits: seq<bv32>, tile: nat, half: nat, count: nat)
    requires RowOf(pages, firstPage, row, bits) && half < 2 && 0 < count <= 16
      && tile * 32 + half * 16 + count <= |bits|
    ensures firstPage + tile < |pages|
    ensures HalfOf(pages[firstPage + tile], row, half, bits, tile * 32 + half * 16, count)
  {
    hide FacePlace;
    HalfColumn(tile, half, 0);
    assert firstPage + (tile * 32 + half * 16 + 0) / 32 < |pages|;
    var page, col := pages[firstPage + tile], tile * 32 + half * 16;
    forall e: nat | e < count ensures HalfElement(page, row, half, bits, col, e) {
      HalfColumn(tile, half, e);
      assert bits[col + e] == pages[firstPage + (col + e) / 32][FacePlace(row, (col + e) % 32)];
    }
    assert HalfElement(page, row, half, bits, col, 0);
  }

  lemma StartScan(best: seq<Candidate>, threshold: bv32, bits: seq<bv32>, largest: bool, lo: nat)
    requires |best| > 0 && lo <= |bits|
    ensures Scanned(best, 0, threshold, bits, largest, lo, lo)
  {
    hide KeyOf, Better;
    assert Elements(bits, largest, lo, lo) == {};
  }

  lemma HalfColumn(tile: nat, half: nat, e: nat)
    requires half < 2 && e < 16
    ensures (tile * 32 + half * 16 + e) / 32 == tile && (tile * 32 + half * 16 + e) % 32 == half * 16 + e
  {}

  // ---- the merge of the segments ----

  /// Padding goes in after every real entry, and drops out first.
  lemma {:induction false} InsertPadded(kept: seq<Candidate>, pads: seq<Candidate>, x: Candidate)
    requires x.index < NO_INDEX && forall i :: 0 <= i < |pads| ==> pads[i] == NOTHING
    ensures Insert(kept + pads, x) == Insert(kept, x) + pads
  {
    hide Better;
    if pads == [] {
      assert kept + pads == kept;
    } else {
      var n := |pads| - 1;
      InsertPadded(kept, pads[..n], x);
      BetterThanNothing(x);
      var list := kept + pads;
      assert list[..|list| - 1] == kept + pads[..n] && list[|list| - 1] == NOTHING;
      assert pads == pads[..n] + [NOTHING];
    }
  }

  /// A real candidate that beats the last entry takes its place in order.
  lemma PaddedInsert(list: seq<Candidate>, n: nat, elements: set<Candidate>, x: Candidate)
    requires Padded(list, n, elements) && |list| > 0 && x !in elements && x.index < NO_INDEX
      && Better(x, list[|list| - 1])
    requires forall c :: c in elements ==> c.index < NO_INDEX
    ensures Padded(Insert(list[..|list| - 1], x) + list[|list|..], if n < |list| then n + 1 else n, elements + {x})
  {
    hide Better, Insert, IsBest;
    var k := |list|;
    if n < k {
      assert list[..k - 1] == list[..n] + list[n..k - 1];
      InsertPadded(list[..n], list[n..k - 1], x);
      BestWithRoom(list[..n], elements, k, x);
      var after := Insert(list[..k - 1], x) + list[k..];
      assert after[..n + 1] == Insert(list[..n], x);
    } else {
      assert list[..n] == list;
      BestReplaced(list, elements, k, x);
      var after := Insert(list[..k - 1], x) + list[k..];
      assert after[..k] == Insert(list[..k - 1], x);
    }
  }

  /// The first i entries of a list, as a set.
  ghost function FirstOf(list: seq<Candidate>, i: nat): (s: set<Candidate>)
    requires i <= |list|
  {
    set j | 0 <= j < i :: list[j]
  }

  lemma NextFirst(list: seq<Candidate>, i: nat)
    requires i < |list|
    ensures FirstOf(list, 0) == {} && FirstOf(list, i + 1) == FirstOf(list, i) + {list[i]}
  {
    forall c ensures c in FirstOf(list, i + 1) <==> c in FirstOf(list, i) + {list[i]} {
      if c in FirstOf(list, i + 1) {
        var j :| 0 <= j < i + 1 && list[j] == c;
        if j < i { assert c in FirstOf(list, i); }
      }
    }
  }

  /// When the rest of the elements are worse than a full list's last, it is the best of all of them.
  lemma BestOfMore(best: seq<Candidate>, elements: set<Candidate>, more: set<Candidate>, k: nat)
    requires IsBest(best, elements, k) && elements <= more
    requires forall c :: c in more && c !in elements ==> |best| == k > 0 && Better(best[k - 1], c)
    ensures IsBest(best, more, k)
  {
    hide Better;
  }

  /// A segment's list is merged once its entries are in and no further one beats the k-th.
  lemma MergeStops(best: seq<Candidate>, n: nat, before: set<Candidate>, list: seq<Candidate>, m: nat,
                   segment: set<Candidate>, i: nat)
    requires |best| == |list| > 0 && i <= |list| && Padded(list, m, segment)
      && Padded(best, n, before + FirstOf(list, i)) && i <= m
    requires before !! segment && forall c :: c in before + segment ==> c.index < NO_INDEX
    requires i < |list| ==> !Better(list[i], best[|best| - 1])
    ensures Padded(best, n, before + segment)
  {
    hide Better;
    BetterIsOrder();
    var k := |best|;
    var seen := before + FirstOf(list, i);
    FirstInSegment(list, m, segment, i);
    forall c | c in segment && c !in seen ensures n == k && Better(best[k - 1], c) {
      if c in list[..m] {
        LaterEntry(list, m, i, c);
        EntryBeaten(best, n, seen, list, m, segment, i);
      } else {
        // the list is full of candidates better than c
        assert m == k && Better(list[..m][k - 1], c);
        if i < k {
          EntryBeaten(best, n, seen, list, m, segment, i);
          assert list[..m] == list;
          assert i == k - 1 || Better(list[i], list[k - 1]);
        } else {
          FullMerge(best, n, seen, list, c);
        }
      }
    }
    assert forall c :: c in best[..n] ==> c in before + segment;
    BestOfMore(best[..n], seen, before + segment, k);
  }

  lemma FirstInSegment(list: seq<Candidate>, m: nat, segment: set<Candidate>, i: nat)
    requires |list| > 0 && i <= m && Padded(list, m, segment)
    ensures FirstOf(list, i) <= segment
  {
    hide Better;
    forall c | c in FirstOf(list, i) ensures c in segment {
      var j :| 0 <= j < i && list[j] == c;
      assert list[..m][j] == c;
    }
  }

  lemma LaterEntry(list: seq<Candidate>, m: nat, i: nat, c: Candidate)
    requires i <= m <= |list| && BestFirst(list[..m]) && c in list[..m] && c !in FirstOf(list, i)
    ensures i < m && (c == list[i] || Better(list[i], c))
  {
    hide Better;
    var j :| 0 <= j < m && list[..m][j] == c;
    assert forall x :: 0 <= x < i ==> list[x] in FirstOf(list, i);
    if i < j { assert Better(list[..m][i], list[..m][j]); }
  }

  /// An entry the last of the best is not beaten by: all of the best are real, and better.
  lemma EntryBeaten(best: seq<Candidate>, n: nat, seen: set<Candidate>, list: seq<Candidate>, m: nat,
                    segment: set<Candidate>, i: nat)
    requires |best| == |list| > 0 && i < m <= |list| && Padded(list, m, segment) && Padded(best, n, seen)
    requires !Better(list[i], best[|best| - 1])
    requires forall c :: c in seen + segment ==> c.index < NO_INDEX
    requires list[i] !in seen
    ensures n == |best| && Better(best[|best| - 1], list[i])
  {
    hide Better;
    BetterIsOrder();
    var k := |best|;
    assert list[..m][i] in segment;
    if n < k {
      BetterThanNothing(list[i]);
    } else {
      assert best[..n][k - 1] in seen;
    }
  }

  /// All k entries are in, and c is worse than each: the merged list is full of better candidates.
  lemma FullMerge(best: seq<Candidate>, n: nat, seen: set<Candidate>, list: seq<Candidate>, c: Candidate)
    requires |best| == |list| > 0 && Padded(best, n, seen) && BestFirst(list) && FirstOf(list, |list|) <= seen
    requires Better(list[|list| - 1], c)
    ensures n == |best| && Better(best[|best| - 1], c)
  {
    hide Better;
    BetterIsOrder();
    var k, kept := |best|, best[..n];
    forall d | d in list ensures d in seen && Better(d, c) {
      var j :| 0 <= j < k && list[j] == d;
      assert d in FirstOf(list, k);
      if j < k - 1 { assert Better(list[j], list[k - 1]); }
    }
    if n < k {
      assert Entries(list) <= Entries(kept);
      EntriesSize(list);
      EntriesBound(kept);
      EntriesSubset(Entries(list), Entries(kept));
    } else {
      assert kept == best;
      var last := best[k - 1];
      assert last in best;
      if !Better(last, c) {
        forall d | d in list ensures d in best && d != last {
          assert Better(d, c);
          assert last == c || Better(c, last);
          assert Better(d, last);
        }
        MoreEntries(best, list, last);
      }
    }
  }

  /// Merges a list into the best, as far as its candidates are better than the last.
  method MergeList(best: array<Candidate>, list: seq<Candidate>, ghost n: nat, ghost before: set<Candidate>,
                   ghost m: nat, ghost segment: set<Candidate>)
    returns (ghost n': nat)
    requires best.Length == |list| > 0 && Padded(list, m, segment) && Padded(best[..], n, before)
    requires before !! segment && forall c :: c in before + segment ==> c.index < NO_INDEX
    modifies best
    ensures Padded(best[..], n', before + segment)
  {
    hide Better, Insert, Padded, IsBest;
    var k, i := best.Length, 0;
    n' := n;
    NoFirst(list);
    PaddedCount(list, m, segment);
    assert before + FirstOf(list, 0) == before;
    while i < k && Better(list[i], best[k - 1])
      invariant 0 <= i <= k && i <= m <= k && Padded(best[..], n', before + FirstOf(list, i))
      invariant Padded(list, m, segment)
    {
      FirstInSegment(list, m, segment, i);
      BetterIsReal(best[..], n', before + FirstOf(list, i), list, m, segment, i);
      NextFirst(list, i);
      assert before + FirstOf(list, i + 1) == before + FirstOf(list, i) + {list[i]};
      PaddedInsert(best[..], n', before + FirstOf(list, i), list[i]);
      ghost var old' := best[..];
      InsertAt(best, k - 1, list[i]);
      assert best[..] == Insert(old'[..k - 1], list[i]) + old'[k..];
      n' := if n' < k then n' + 1 else n';
      i := i + 1;
    }
    MergeStops(best[..], n', before, list, m, segment, i);
  }

  lemma PaddedCount(list: seq<Candidate>, m: nat, segment: set<Candidate>)
    requires Padded(list, m, segment)
    ensures m <= |list|
  {}

  lemma NotAmongFirst(list: seq<Candidate>, m: nat, i: nat)
    requires i < m <= |list| && BestFirst(list[..m])
    ensures list[i] !in FirstOf(list, i)
  {
    hide Better;
    forall j | 0 <= j < i ensures list[j] != list[i] {
      assert Better(list[..m][j], list[..m][i]);
      BetterOne(list[j], list[i]);
    }
  }

  lemma NoFirst(list: seq<Candidate>)
    ensures FirstOf(list, 0) == {}
  {}

  /// Only a real candidate, not merged yet, beats an entry.
  lemma BetterIsReal(best: seq<Candidate>, n: nat, seen: set<Candidate>, list: seq<Candidate>, m: nat,
                     segment: set<Candidate>, i: nat)
    requires |best| == |list| > 0 && i < |list| && Padded(list, m, segment) && Padded(best, n, seen) && i <= m
    requires seen == (seen - FirstOf(list, i)) + FirstOf(list, i) && (seen - FirstOf(list, i)) !! segment
    requires forall c :: c in seen + segment ==> c.index < NO_INDEX
    requires Better(list[i], best[|best| - 1])
    ensures i < m && list[i] !in seen && list[i] in segment && list[i].index < NO_INDEX
    ensures forall c :: c in seen ==> c.index < NO_INDEX
  {
    hide Better;
    BetterIsOrder();
    var k := |best|;
    if i >= m {
      if n == k { assert best[..n][k - 1] in seen; BetterThanNothing(best[k - 1]); }
    } else {
      assert list[..m][i] in segment;
      NotAmongFirst(list, m, i);
    }
  }

  // ---- a row ----

  /// The columns before segment s.
  function SegmentStart(width: nat, segmentTiles: nat, s: nat): nat { ColumnsBefore(width, s * segmentTiles) }

  /// Every segment's list is in place, one stride after another.
  ghost predicate ListsReady(lists: seq<Candidate>, bits: seq<bv32>, largest: bool, k: nat, segmentTiles: nat,
                             segments: nat) {
    forall s: nat :: s < segments ==> ListReady(lists, bits, largest, k, segmentTiles, s)
  }

  ghost predicate ListReady(lists: seq<Candidate>, bits: seq<bv32>, largest: bool, k: nat, segmentTiles: nat, s: nat) {
    && ListAt(k, s) + k <= |lists| && |bits| < NO_INDEX
       && SegmentStart(|bits|, segmentTiles, s) <= SegmentStart(|bits|, segmentTiles, s + 1)
    && Padded(lists[ListAt(k, s)..ListAt(k, s) + k], SegmentCount(k, |bits|, segmentTiles, s),
              Elements(bits, largest, SegmentStart(|bits|, segmentTiles, s), SegmentStart(|bits|, segmentTiles, s + 1)))
  }

  /// Real candidates in a segment's list.
  ghost function SegmentCount(k: nat, width: nat, segmentTiles: nat, s: nat): nat
    requires SegmentStart(width, segmentTiles, s) <= SegmentStart(width, segmentTiles, s + 1)
  {
    Least(k, SegmentStart(width, segmentTiles, s + 1) - SegmentStart(width, segmentTiles, s))
  }

  function ListAt(k: nat, s: nat): nat { s * ListStride(k) }

  lemma SegmentsJoin(bits: seq<bv32>, largest: bool, lo: nat, mid: nat, hi: nat)
    requires lo <= mid <= hi <= |bits| < NO_INDEX
    ensures Elements(bits, largest, lo, hi) == Elements(bits, largest, lo, mid) + Elements(bits, largest, mid, hi)
    ensures Elements(bits, largest, lo, mid) !! Elements(bits, largest, mid, hi)
    ensures forall c :: c in Elements(bits, largest, lo, hi) ==> c.index < NO_INDEX
  {
    hide KeyOf;
  }

  /// Merges the segments' lists of one row.
  method MergeRow(lists: seq<Candidate>, ghost bits: seq<bv32>, largest: bool, segmentTiles: nat, segments: nat,
                  best: array<Candidate>)
    returns (ghost n: nat)
    requires best.Length > 0 && segments > 0 && |bits| < NO_INDEX
    requires ListsReady(lists, bits, largest, best.Length, segmentTiles, segments)
    modifies best
    ensures Padded(best[..], n, Elements(bits, largest, 0, SegmentStart(|bits|, segmentTiles, segments)))
  {
    hide Padded, Elements, SegmentStart, ListStride, ListAt;
    var k := best.Length;
    assert ListReady(lists, bits, largest, k, segmentTiles, 0);
    FirstList(k);
    CopyFirst(lists, best);
    FirstSegment(|bits|, segmentTiles);
    n := SegmentCount(k, |bits|, segmentTiles, 0);
    var s := 1;
    while s < segments
      invariant 1 <= s <= segments && SegmentStart(|bits|, segmentTiles, s) <= |bits|
      invariant Padded(best[..], n, Elements(bits, largest, 0, SegmentStart(|bits|, segmentTiles, s)))
    {
      assert ListReady(lists, bits, largest, k, segmentTiles, s);
      ghost var lo, hi := SegmentStart(|bits|, segmentTiles, s), SegmentStart(|bits|, segmentTiles, s + 1);
      SegmentEnd(|bits|, segmentTiles, s + 1);
      var list := lists[ListAt(k, s)..ListAt(k, s) + k];
      ghost var m := SegmentCount(k, |bits|, segmentTiles, s);
      SegmentsJoin(bits, largest, 0, lo, hi);
      n := MergeList(best, list, n, Elements(bits, largest, 0, lo), m, Elements(bits, largest, lo, hi));
      s := s + 1;
    }
  }

  lemma FirstList(k: nat)
    ensures ListAt(k, 0) == 0
  {}

  lemma FirstSegment(width: nat, segmentTiles: nat)
    ensures SegmentStart(width, segmentTiles, 0) == 0 && SegmentStart(width, segmentTiles, 1) <= width
  {}

  lemma SegmentEnd(width: nat, segmentTiles: nat, s: nat)
    ensures SegmentStart(width, segmentTiles, s) <= width
  {}

  method CopyFirst(lists: seq<Candidate>, best: array<Candidate>)
    requires best.Length <= |lists|
    modifies best
    ensures best[..] == lists[..best.Length]
  {
    var i := 0;
    while i < best.Length
      invariant 0 <= i <= best.Length && forall j :: 0 <= j < i ==> best[j] == lists[j]
    {
      best[i] := lists[i];
      i := i + 1;
    }
  }

  /// With at least k columns the best are k, none of them padding.
  lemma FullBest(list: seq<Candidate>, n: nat, bits: seq<bv32>, largest: bool)
    requires |list| <= |bits| && Padded(list, n, Elements(bits, largest, 0, |bits|))
    ensures n == |list| && IsBest(list, Elements(bits, largest, 0, |bits|), |list|)
  {
    hide Better, KeyOf;
    if n < |list| {
      ElementCount(bits, largest, |bits|);
      var elements := Elements(bits, largest, 0, |bits|);
      EntriesBound(list[..n]);
      assert elements <= Entries(list[..n]);
      EntriesSubset(elements, Entries(list[..n]));
    } else {
      assert list[..n] == list;
    }
  }

  lemma {:induction false} ElementCount(bits: seq<bv32>, largest: bool, n: nat)
    requires n <= |bits|
    ensures |Elements(bits, largest, 0, n)| == n
  {
    hide Elements;
    if n == 0 {
      assert Elements(bits, largest, 0, 0) == {} by { NoElements(bits, largest); }
    } else {
      ElementCount(bits, largest, n - 1);
      NextElement(bits, largest, 0, n - 1);
    }
  }

  lemma NoElements(bits: seq<bv32>, largest: bool)
    ensures Elements(bits, largest, 0, 0) == {}
  {}

  // ---- the k best, by the row's own values ----

  /// Column a comes before column b: its value is larger, or for the smallest k
  /// smaller, in total order, or they are the same and a is the lower column.
  predicate ComesBefore(bits: seq<bv32>, largest: bool, a: nat, b: nat)
    requires a < |bits| && b < |bits|
  {
    (if largest then TotalOrderBelow(bits[b], bits[a]) else TotalOrderBelow(bits[a], bits[b]))
    || (bits[a] == bits[b] && a < b)
  }

  /// The k columns that come before all others, in order, and their values.
  ghost predicate IsTopK(bits: seq<bv32>, largest: bool, k: nat, values: seq<bv32>, columns: seq<nat>) {
    && |values| == |columns| == k
    && (forall i :: 0 <= i < k ==> columns[i] < |bits| && values[i] == bits[columns[i]])
    && (forall i, j :: 0 <= i < j < k ==> ComesBefore(bits, largest, columns[i], columns[j]))
    && forall c: nat, i :: c < |bits| && c !in columns && 0 <= i < k ==> ComesBefore(bits, largest, columns[i], c)
  }

  function ValuesOf(best: seq<Candidate>, largest: bool): (values: seq<bv32>)
    ensures |values| == |best| && forall i :: 0 <= i < |best| ==> values[i] == BitsOf(best[i].key, largest)
  {
    seq(|best|, i requires 0 <= i < |best| => BitsOf(best[i].key, largest))
  }

  function IndicesOf(best: seq<Candidate>): (indices: seq<nat>)
    ensures |indices| == |best| && forall i :: 0 <= i < |best| ==> indices[i] == best[i].index
  {
    seq(|best|, i requires 0 <= i < |best| => best[i].index)
  }

  function CandidateAt(bits: seq<bv32>, largest: bool, c: nat): Candidate
    requires c < |bits|
  {
    Candidate(KeyOf(bits[c], largest), c)
  }

  /// Candidates compare as their columns do.
  lemma BetterComesBefore(bits: seq<bv32>, largest: bool, a: nat, b: nat)
    requires a < |bits| && b < |bits|
    ensures Better(CandidateAt(bits, largest, a), CandidateAt(bits, largest, b)) <==> ComesBefore(bits, largest, a, b)
  {
    hide KeyOf, BitsOf, Below, TotalOrderBelow;
    if largest { LargestKeysKeep(bits[b], bits[a]); } else { SmallestKeysFlip(bits[a], bits[b]); }
    BitsOfKey(bits[a], largest);
    BitsOfKey(bits[b], largest);
  }

  /// The values of the best are the row's own, in the columns named.
  lemma BestBits(bits: seq<bv32>, largest: bool, k: nat, best: seq<Candidate>, i: nat)
    requires IsBest(best, Elements(bits, largest, 0, |bits|), k) && |best| == k && i < k
    ensures IndicesOf(best)[i] < |bits| && best[i] == CandidateAt(bits, largest, best[i].index)
    ensures ValuesOf(best, largest)[i] == bits[IndicesOf(best)[i]]
  {
    hide KeyOf, BitsOf, Better;
    assert best[i] in best;
    BitsOfKey(bits[best[i].index], largest);
  }

  lemma BestIsTopK(bits: seq<bv32>, largest: bool, k: nat, best: seq<Candidate>)
    requires IsBest(best, Elements(bits, largest, 0, |bits|), k) && |best| == k
    ensures IsTopK(bits, largest, k, ValuesOf(best, largest), IndicesOf(best))
  {
    hide KeyOf, BitsOf, Better, ComesBefore;
    var columns := IndicesOf(best);
    forall i | 0 <= i < k
      ensures best[i].index < |bits| && best[i] == CandidateAt(bits, largest, best[i].index)
      ensures ValuesOf(best, largest)[i] == bits[columns[i]]
    {
      BestBits(bits, largest, k, best, i);
    }
    forall i, j | 0 <= i < j < k ensures ComesBefore(bits, largest, columns[i], columns[j]) {
      BetterComesBefore(bits, largest, columns[i], columns[j]);
    }
    forall c: nat, i | c < |bits| && c !in columns && 0 <= i < k ensures ComesBefore(bits, largest, columns[i], c) {
      var x := CandidateAt(bits, largest, c);
      assert x in Elements(bits, largest, 0, |bits|);
      forall j | 0 <= j < k ensures best[j] != x { assert columns[j] != c; }
      BetterIsOrder();
      assert Better(best[k - 1], x);
      assert i == k - 1 || Better(best[i], best[k - 1]);
      BetterComesBefore(bits, largest, columns[i], c);
    }
  }

  /// The whole selection of a row, whatever its division into segments.
  method SelectRow(pages: seq<seq<bv32>>, firstPage: nat, row: nat, ghost bits: seq<bv32>, width: nat, tiles: nat,
                   wide: bool,
                   largest: bool, segmentTiles: nat, segments: nat, best: array<Candidate>)
    requires 0 < best.Length <= width && |bits| == width < NO_INDEX && RowOf(pages, firstPage, row, bits)
    requires segments > 0 && width <= tiles * 32 && (segments - 1) * segmentTiles < tiles <= segments * segmentTiles
    modifies best
    ensures IsBest(best[..], Elements(bits, largest, 0, width), best.Length)
    ensures IsTopK(bits, largest, best.Length, ValuesOf(best[..], largest), IndicesOf(best[..]))
  {
    hide IsTopK, Padded, Elements, ListAt, ListStride, IsBest, RowOf, ListsReady;
    var k := best.Length;
    var s := 0;
    var lists: seq<Candidate> := [];
    NoLists(lists, bits, largest, k, segmentTiles);
    while s < segments
      invariant 0 <= s <= segments && |lists| == ListAt(k, s)
      invariant ListsReady(lists, bits, largest, k, segmentTiles, s)
    {
      var firstTile := s * segmentTiles;
      SegmentInside(width, tiles, segmentTiles, segments, s);
      var count := if firstTile + segmentTiles <= tiles then segmentTiles else tiles - firstTile;
      var n := SelectSegment(pages, firstPage, row, bits, width, wide, firstTile, count, largest, best);
      ghost var before := lists;
      StrideHolds(k, s);
      lists := lists + best[..] + seq(ListStride(k) - k, _ => NOTHING);
      NextSegment(width, segmentTiles, s);
      ListAdded(before, lists, bits, largest, k, segmentTiles, s, best[..], n);
      s := s + 1;
    }
    var n := MergeRow(lists, bits, largest, segmentTiles, segments, best);
    AllColumns(width, tiles, segmentTiles, segments);
    FullBest(best[..], n, bits, largest);
    BestIsTopK(bits, largest, k, best[..]);
  }

  /// The last segment stops where the tiles do.
  lemma SegmentInside(width: nat, tiles: nat, segmentTiles: nat, segments: nat, s: nat)
    requires s < segments && width <= tiles * 32 && (segments - 1) * segmentTiles < tiles
    ensures s * segmentTiles < tiles
    ensures ColumnsBefore(width, s * segmentTiles
              + (if s * segmentTiles + segmentTiles <= tiles then segmentTiles else tiles - s * segmentTiles))
         == ColumnsBefore(width, s * segmentTiles + segmentTiles)
  {
    MulMonotone(s, segments - 1, segmentTiles);
  }

  lemma NoLists(lists: seq<Candidate>, bits: seq<bv32>, largest: bool, k: nat, segmentTiles: nat)
    ensures ListsReady(lists, bits, largest, k, segmentTiles, 0) && ListAt(k, 0) == 0
  {}

  lemma StrideHolds(k: nat, s: nat)
    ensures ListStride(k) >= k && ListAt(k, s) + ListStride(k) == ListAt(k, s + 1)
  {}

  lemma NextSegment(width: nat, segmentTiles: nat, s: nat)
    ensures (s + 1) * segmentTiles == s * segmentTiles + segmentTiles
    ensures SegmentStart(width, segmentTiles, s) <= SegmentStart(width, segmentTiles, s + 1)
  {}

  lemma AllColumns(width: nat, tiles: nat, segmentTiles: nat, segments: nat)
    requires width <= tiles * 32 && tiles <= segments * segmentTiles
    ensures SegmentStart(width, segmentTiles, segments) == width
  {}

  lemma ListAdded(before: seq<Candidate>, lists: seq<Candidate>, bits: seq<bv32>, largest: bool, k: nat,
                  segmentTiles: nat, s: nat,
                  list: seq<Candidate>, n: nat)
    requires ListsReady(before, bits, largest, k, segmentTiles, s) && |before| == ListAt(k, s) && |bits| < NO_INDEX
      && |list| == k
    requires before <= lists && |lists| >= |before| + k && lists[|before|..|before| + k] == list
    requires SegmentStart(|bits|, segmentTiles, s) <= SegmentStart(|bits|, segmentTiles, s + 1) <= |bits|
    requires n == SegmentCount(k, |bits|, segmentTiles, s)
    requires Padded(list, n, Elements(bits, largest, SegmentStart(|bits|, segmentTiles, s),
      SegmentStart(|bits|, segmentTiles, s + 1)))
    ensures ListsReady(lists, bits, largest, k, segmentTiles, s + 1)
  {
    hide Padded, Elements, ListAt, SegmentStart, SegmentCount;
    forall r: nat | r < s + 1 ensures ListReady(lists, bits, largest, k, segmentTiles, r) {
      if r < s {
        assert ListReady(before, bits, largest, k, segmentTiles, r);
        assert lists[ListAt(k, r)..ListAt(k, r) + k] == before[ListAt(k, r)..ListAt(k, r) + k];
      } else {
        assert lists[ListAt(k, r)..ListAt(k, r) + k] == list;
      }
    }
  }
}
