/// rng_bits kernels: tiles of words made in DST, and a whole call over the cores.
///
/// DST is four tiles of 32 vectors; vector v of a tile is vector v % 8 of face v / 8.
module RngKernel {
  import opened RowMajor
  import opened WorkSplit
  import opened Words32
  import opened RngTiles
  import opened RngState

  // ---- places ----

  function PlaceRow(v: nat, l: nat): (r: nat)
    requires v < 32 && l < 32
    ensures r < 32
  {
    RowOf(v / 8, v % 8, l)
  }

  function PlaceColumn(v: nat, l: nat): (c: nat)
    requires v < 32 && l < 32
    ensures c < 32
  {
    ColumnOf(v / 8, v % 8, l)
  }

  /// The index of a place's element in a tile whose first element has index `base`.
  function PlaceIndex(base: Word, W: Word, v: nat, l: nat): Word
    requires v < 32 && l < 32
  {
    ElementIndex(base, W, PlaceRow(v, l), PlaceColumn(v, l))
  }

  /// Vectors whose first row is padding are left alone.
  predicate Processed(v: nat, rowsValid: nat)
    requires v < 32
  {
    16 * (v / 8 / 2) + 4 * (v % 8 / 2) < rowsValid
  }

  lemma VectorOf(face: nat, d: nat)
    requires face < 4 && d < 8
    ensures 8 * face + d < 32 && (8 * face + d) / 8 == face && (8 * face + d) % 8 == d
  {}

  /// Every row below rowsValid is processed.
  lemma ValidRowsProcessed(v: nat, l: nat, rowsValid: nat)
    requires v < 32 && l < 32 && PlaceRow(v, l) < rowsValid
    ensures Processed(v, rowsValid)
  {}

  // ---- DST ----

  type Dst = array2<Vector>

  predicate IsDst(dst: Dst) { dst.Length0 == 4 && dst.Length1 == 32 }

  /// One element's word in each of the four tiles.
  function WordsOf(dst: Dst, v: nat, l: nat): (words: seq<Word>)
    requires IsDst(dst) && v < 32 && l < 32
    reads dst
    ensures |words| == 4
  {
    [dst[0, v][l], dst[1, v][l], dst[2, v][l], dst[3, v][l]]
  }

  /// The elements' indices into one tile.
  method IndexTile(dst: Dst, base: Word, W: Word)
    requires IsDst(dst)
    modifies dst
    ensures forall v: nat, l: nat :: v < 32 && l < 32 ==>
      WordsOf(dst, v, l) == old(WordsOf(dst, v, l))[0 := PlaceIndex(base, W, v, l)]
  {
    hide PlaceIndex, WordsOf;
    var face := 0;
    while face < 4
      invariant 0 <= face <= 4
      invariant forall v: nat, l: nat :: v < 8 * face && l < 32 ==>
        WordsOf(dst, v, l) == old(WordsOf(dst, v, l))[0 := PlaceIndex(base, W, v, l)]
      invariant forall v: nat, l: nat :: 8 * face <= v < 32 && l < 32 ==> WordsOf(dst, v, l) == old(WordsOf(dst, v, l))
    {
      var d := 0;
      while d < 8
        invariant 0 <= d <= 8
        invariant forall v: nat, l: nat :: v < 8 * face + d && l < 32 ==>
          WordsOf(dst, v, l) == old(WordsOf(dst, v, l))[0 := PlaceIndex(base, W, v, l)]
        invariant forall v: nat, l: nat :: 8 * face + d <= v < 32 && l < 32 ==>
          WordsOf(dst, v, l) == old(WordsOf(dst, v, l))
      {
        IndexAt(dst, base, W, face, d, 8 * face + d);
        d := d + 1;
      }
      face := face + 1;
    }
  }

  method IndexAt(dst: Dst, base: Word, W: Word, face: nat, d: nat, ghost at: nat)
    requires IsDst(dst) && face < 4 && d < 8 && at == 8 * face + d < 32
    modifies dst
    ensures forall l: nat :: l < 32 ==> WordsOf(dst, at, l) == old(WordsOf(dst, at, l))[0 := PlaceIndex(base, W, at, l)]
    ensures forall u: nat, l: nat :: u < 32 && u != at && l < 32 ==> WordsOf(dst, u, l) == old(WordsOf(dst, u, l))
  {
    hide PlaceIndex;
    var vector := IndexVector(base, W, face, d);
    dst[0, 8 * face + d] := vector;
  }

  method IndexVector(base: Word, W: Word, face: nat, d: nat) returns (vector: Vector)
    requires face < 4 && d < 8
    ensures 8 * face + d < 32 && forall l: nat :: l < 32 ==> vector[l] == PlaceIndex(base, W, 8 * face + d, l)
  {
    hide FaceIndex, VectorIndex, LaneOffset, ElementIndex, Add, RowOf, ColumnOf;
    VectorOf(face, d);
    var first := VectorIndex(FaceIndex(base, W, face), W, d);
    vector := seq<Word>(32, l requires 0 <= l < 32 => Add(LaneOffset(W, l), first));
    forall l: nat | l < 32 ensures vector[l] == PlaceIndex(base, W, 8 * face + d, l) {
      LaneIndex(base, W, face, d, l, 0);
    }
  }

  method FillTile(dst: Dst, tile: nat, value: Word)
    requires IsDst(dst) && tile < 4
    modifies dst
    ensures forall v: nat, l: nat :: v < 32 && l < 32 ==> WordsOf(dst, v, l) == old(WordsOf(dst, v, l))[tile := value]
  {
    var vector: Vector := seq<Word>(32, l => value);
    forall v | 0 <= v < 32 { dst[tile, v] := vector; }
  }

  // ---- Philox ----

  /// Half a round on the words of one place, if its rows are not padding.
  function Halved(words: seq<Word>, v: nat, rowsValid: nat, multiplier: Word, last: bool, word: nat, other: nat,
                  key: Word): (after: seq<Word>)
    requires |words| == 4 && v < 32 && word < 4 && other < 4 && word != other
    ensures |after| == 4
  {
    if Processed(v, rowsValid) then Philox.HalfRound(words, multiplier, last, word, other, key) else words
  }

  method HalfRoundVector(x: Vector, mixed: Vector, multiplier: Word, key: Word) returns (hi: Vector, lo: Vector)
    ensures forall l: nat :: l < 32 ==> lo[l] == Philox.Low(x[l], multiplier)
    ensures forall l: nat :: l < 32 ==> hi[l] == Xor(Xor(Philox.High(x[l], multiplier), mixed[l]), key)
  {
    hide Xor, Philox.High, Philox.Low;
    var his: seq<Word>, los: seq<Word> := [], [];
    var l := 0;
    while l < 32
      invariant 0 <= l <= 32 && |his| == l && |los| == l
      invariant forall m: nat :: m < l ==> los[m] == Philox.Low(x[m], multiplier)
      invariant forall m: nat :: m < l ==> his[m] == Xor(Xor(Philox.High(x[m], multiplier), mixed[m]), key)
    {
      var h, w := Philox.MulHiLo(x[l], multiplier);
      Philox.HiLoAre(x[l], multiplier, h, w);
      his, los := his + [Xor(Xor(h, mixed[l]), key)], los + [w];
      l := l + 1;
    }
    hi, lo := his, los;
  }

  method HalfRoundAt(dst: Dst, v: nat, multiplier: Word, last: bool, word: nat, other: nat, key: Word)
    requires IsDst(dst) && v < 32 && word < 4 && other < 4 && word != other
    modifies dst
    ensures forall l: nat :: l < 32 ==>
      WordsOf(dst, v, l) == Philox.HalfRound(old(WordsOf(dst, v, l)), multiplier, last, word, other, key)
    ensures forall u: nat, l: nat :: u < 32 && u != v && l < 32 ==> WordsOf(dst, u, l) == old(WordsOf(dst, u, l))
  {
    hide Xor, Philox.High, Philox.Low;
    var hi, lo := HalfRoundVector(dst[word, v], dst[other, v], multiplier, key);
    if !last { dst[word, v] := lo; }
    dst[other, v] := hi;
  }

  /// One word's product and another's mix, over the tile.
  method PhiloxHalfRound(dst: Dst, multiplier: Word, last: bool, word: nat, other: nat, key: Word, rowsValid: nat)
    requires IsDst(dst) && word < 4 && other < 4 && word != other
    modifies dst
    ensures forall v: nat, l: nat :: v < 32 && l < 32 ==>
      WordsOf(dst, v, l) == Halved(old(WordsOf(dst, v, l)), v, rowsValid, multiplier, last, word, other, key)
  {
    hide Philox.HalfRound;
    var face := 0;
    while face < 4
      invariant 0 <= face <= 4
      invariant forall v: nat, l: nat :: v < 8 * face && l < 32 ==>
        WordsOf(dst, v, l) == Halved(old(WordsOf(dst, v, l)), v, rowsValid, multiplier, last, word, other, key)
      invariant forall v: nat, l: nat :: 8 * face <= v < 32 && l < 32 ==> WordsOf(dst, v, l) == old(WordsOf(dst, v, l))
    {
      var d := 0;
      while d < 8
        invariant 0 <= d <= 8
        invariant forall v: nat, l: nat :: v < 8 * face + d && l < 32 ==>
          WordsOf(dst, v, l) == Halved(old(WordsOf(dst, v, l)), v, rowsValid, multiplier, last, word, other, key)
        invariant forall v: nat, l: nat :: 8 * face + d <= v < 32 && l < 32 ==>
          WordsOf(dst, v, l) == old(WordsOf(dst, v, l))
      {
        VectorOf(face, d);
        if 16 * (face / 2) + 4 * (d / 2) < rowsValid {
          HalfRoundAt(dst, 8 * face + d, multiplier, last, word, other, key);
        }
        d := d + 1;
      }
      face := face + 1;
    }
  }

  /// The renamed registers hold each processed element's counter after n rounds.
  ghost predicate AfterRounds(dst: Dst, names: seq<nat>, base: Word, W: Word, rowsValid: nat, s: State, n: nat)
    reads dst
  {
    IsDst(dst) && forall v: nat, l: nat :: v < 32 && l < 32 && Processed(v, rowsValid) ==>
      Philox.Holds(WordsOf(dst, v, l), names, PlaceCounter(base, W, s, v, l, n))
  }

  function PlaceCounter(base: Word, W: Word, s: State, v: nat, l: nat, n: nat): Philox.Counter
    requires v < 32 && l < 32
  {
    Philox.Rounds(Philox.Counter(PlaceIndex(base, W, v, l), s.w1, 0, s.h1), Philox.Key(s.w0, s.h0), n)
  }

  predicate AreNames(names: seq<nat>) {
    |names| == 4 && (forall i :: 0 <= i < 4 ==> names[i] < 4) && forall i, j :: 0 <= i < j < 4 ==> names[i] != names[j]
  }

  /// A round over the tile: two halves, and the names shifted by one.
  method PhiloxRound(dst: Dst, names: seq<nat>, k: Philox.Key, rowsValid: nat, ghost base: Word, ghost W: Word,
                     ghost s: State, ghost n: nat)
    returns (next: seq<nat>)
    requires IsDst(dst) && AreNames(names) && AfterRounds(dst, names, base, W, rowsValid, s, n)
    requires k == Philox.Bumps(Philox.Key(s.w0, s.h0), n)
    modifies dst
    ensures AreNames(next) && AfterRounds(dst, next, base, W, rowsValid, s, n + 1)
  {
    hide Philox.HalfRound, Philox.Rounds, Philox.Bumps, Philox.Round, Processed, PlaceIndex;
    PhiloxHalfRound(dst, Philox.M0, false, names[0], names[3], k.k1, rowsValid);
    PhiloxHalfRound(dst, Philox.M1, false, names[2], names[1], k.k0, rowsValid);
    next := [names[1], names[2], names[3], names[0]];
    forall v: nat, l: nat | v < 32 && l < 32 && Processed(v, rowsValid)
      ensures Philox.Holds(WordsOf(dst, v, l), next, PlaceCounter(base, W, s, v, l, n + 1))
    {
      Philox.HalvesMakeRound(old(WordsOf(dst, v, l)), names, PlaceCounter(base, W, s, v, l, n), k);
      Philox.NextRound(Philox.Counter(PlaceIndex(base, W, v, l), s.w1, 0, s.h1), Philox.Key(s.w0, s.h0), n);
    }
  }

  method StartWords(dst: Dst, base: Word, W: Word, rowsValid: nat, s: State)
    requires IsDst(dst)
    modifies dst
    ensures AfterRounds(dst, [0, 1, 2, 3], base, W, rowsValid, s, 0)
  {
    hide PlaceIndex, Processed, WordsOf;
    IndexTile(dst, base, W);
    FillTile(dst, 1, s.w1);
    FillTile(dst, 2, 0);
    FillTile(dst, 3, s.h1);
  }

  /// A tile whose processed elements hold their words.
  ghost predicate HasWords(t: seq<Vector>, a: Algorithm, s: State, base: Word, W: Word, rowsValid: nat) {
    |t| == 32 && forall v: nat, l: nat :: v < 32 && l < 32 && Processed(v, rowsValid) ==>
      t[v][l] == WordOf(UseOf(a, s, PlaceIndex(base, W, v, l)))
  }

  method ReadTile(dst: Dst, tile: nat) returns (t: Tile)
    requires IsDst(dst) && tile < 4
    ensures forall v: nat :: v < 32 ==> t[v] == dst[tile, v]
  {
    t := seq<Vector>(32, v requires 0 <= v < 32 reads dst => dst[tile, v]);
  }

  method PhiloxTile(dst: Dst, base: Word, W: Word, rowsValid: nat, s: State) returns (t: Tile)
    requires IsDst(dst)
    modifies dst
    ensures HasWords(t, UsePhilox, s, base, W, rowsValid)
  {
    hide Philox.HalfRound, Philox.Rounds, Philox.Bumps, Philox.Round, Processed, PlaceIndex, Add;
    ghost var key := Philox.Key(s.w0, s.h0);
    var names: seq<nat> := [0, 1, 2, 3];
    StartWords(dst, base, W, rowsValid, s);
    var k0, k1 := s.w0, s.h0;
    Philox.NextRound(PlaceCounter(base, W, s, 0, 0, 0), key, 0);
    var round := 0;
    while round < 9
      invariant 0 <= round <= 9 && AreNames(names) && Philox.Key(k0, k1) == Philox.Bumps(key, round)
      invariant AfterRounds(dst, names, base, W, rowsValid, s, round)
    {
      names := PhiloxRound(dst, names, Philox.Key(k0, k1), rowsValid, base, W, s, round);
      Philox.NextRound(PlaceCounter(base, W, s, 0, 0, 0), key, round);
      k0, k1 := Add(k0, Philox.BUMP0), Add(k1, Philox.BUMP1);
      round := round + 1;
    }
    label nine:
    PhiloxHalfRound(dst, Philox.M1, true, names[2], names[1], k0, rowsValid);
    t := ReadTile(dst, names[1]);
    forall v: nat, l: nat | v < 32 && l < 32 && Processed(v, rowsValid)
      ensures t[v][l] == WordOf(UseOf(UsePhilox, s, PlaceIndex(base, W, v, l)))
    {
      Philox.HalfMakesFirst(old@nine(WordsOf(dst, v, l)), names, PlaceCounter(base, W, s, v, l, 9), Philox.Key(k0, k1));
      Philox.TenRounds(Philox.Counter(PlaceIndex(base, W, v, l), s.w1, 0, s.h1), key);
      assert t[v][l] == WordsOf(dst, v, l)[names[1]];
    }
  }

  // ---- Threefry ----

  method ThreefryVector(base: Word, W: Word, face: nat, d: nat, key: Threefry.Pair, ks2: Word, w1: Word)
    returns (vector: Vector)
    requires face < 4 && d < 8 && ks2 == Xor(Xor(key.low, key.high), Threefry.PARITY)
    ensures 8 * face + d < 32
    ensures forall l: nat :: l < 32 ==>
      vector[l] == Threefry.Threefry20(key, Threefry.Pair(PlaceIndex(base, W, 8 * face + d, l), w1)).low
  {
    hide FaceIndex, VectorIndex, LaneOffset, ElementIndex, Add, RowOf, ColumnOf, Threefry.Rounds, Xor;
    VectorOf(face, d);
    var first := Add(VectorIndex(FaceIndex(base, W, face), W, d), key.low);
    var words: seq<Word> := [];
    var l := 0;
    while l < 32
      invariant 0 <= l <= 32 && |words| == l
      invariant forall m: nat :: m < l ==>
        words[m] == Threefry.Threefry20(key, Threefry.Pair(PlaceIndex(base, W, 8 * face + d, m), w1)).low
    {
      LaneIndex(base, W, face, d, l, key.low);
      StartPair(key, PlaceIndex(base, W, 8 * face + d, l), w1);
      var y := Threefry.ThreefryWords(Threefry.Pair(Add(LaneOffset(W, l), first), Add(w1, key.high)), key.low,
        key.high, ks2);
      words := words + [y.low];
      l := l + 1;
    }
    vector := words;
  }

  /// The words the rounds start from are the counter with the first key words added.
  lemma StartPair(key: Threefry.Pair, i: Word, w1: Word)
    ensures Threefry.Injected(Threefry.Pair(i, w1), Threefry.ScheduleOf(key), 0)
      == Threefry.Pair(Add(i, key.low), Add(w1, key.high))
  {
    hide Xor;
  }

  method ThreefryTile(dst: Dst, base: Word, W: Word, rowsValid: nat, key: Threefry.Pair, ks2: Word, w1: Word)
    requires IsDst(dst) && ks2 == Xor(Xor(key.low, key.high), Threefry.PARITY)
    modifies dst
    ensures forall v: nat, l: nat :: v < 32 && l < 32 && Processed(v, rowsValid) ==>
      dst[0, v][l] == Threefry.Threefry20(key, Threefry.Pair(PlaceIndex(base, W, v, l), w1)).low
  {
    hide PlaceIndex, Threefry.Threefry20, Xor;
    var face := 0;
    while face < 4
      invariant 0 <= face <= 4
      invariant forall v: nat, l: nat :: v < 8 * face && l < 32 && Processed(v, rowsValid) ==>
        dst[0, v][l] == Threefry.Threefry20(key, Threefry.Pair(PlaceIndex(base, W, v, l), w1)).low
    {
      var d := 0;
      while d < 8
        invariant 0 <= d <= 8
        invariant forall v: nat, l: nat :: v < 8 * face + d && v < 32 && l < 32 && Processed(v, rowsValid) ==>
          dst[0, v][l] == Threefry.Threefry20(key, Threefry.Pair(PlaceIndex(base, W, v, l), w1)).low
      {
        VectorOf(face, d);
        if 16 * (face / 2) + 4 * (d / 2) < rowsValid {
          var vector := ThreefryVector(base, W, face, d, key, ks2, w1);
          dst[0, 8 * face + d] := vector;
        }
        d := d + 1;
      }
      face := face + 1;
    }
  }

  // ---- a core's tiles ----

  /// The output's extents: B batches of H rows of W columns, and its tiles.
  datatype Extents = Extents(B: nat, H: nat, W: nat)
  {
    ghost predicate Valid() { B > 0 && H > 0 && W > 0 && B * H * W < TWO_32 }

    function Ht(): nat { DivUp(H, 32) }

    function Wt(): nat { DivUp(W, 32) }

    function Tiles(): nat { B * Ht() * Wt() }
  }

  lemma SomeTiles(e: Extents)
    requires e.Valid()
    ensures e.Wt() > 0 && e.Ht() > 0 && e.Wt() * e.Ht() > 0
  {
    DivUpPositive(e.H, 32);
    DivUpPositive(e.W, 32);
    hide Extents.Wt, Extents.Ht;
  }

  function TileColumn(e: Extents, tile: nat): nat
    requires e.Valid()
  {
    SomeTiles(e);
    tile % e.Wt()
  }

  function TileRow(e: Extents, tile: nat): nat
    requires e.Valid()
  {
    SomeTiles(e);
    Quotient(tile, e.Wt()) % e.Ht()
  }

  function TileBatch(e: Extents, tile: nat): nat
    requires e.Valid()
  {
    SomeTiles(e);
    Quotient(tile, e.Wt() * e.Ht())
  }

  /// The index of a tile's first element, in 32 bits.
  function BaseOf(e: Extents, tile: nat): Word
    requires e.Valid()
  {
    Wrap((TileBatch(e, tile) * e.H + TileRow(e, tile) * 32) * e.W + TileColumn(e, tile) * 32)
  }

  function RowsValid(e: Extents, tile: nat): nat
    requires e.Valid()
  {
    var rest := RowsBelow(e, tile);
    if rest < 32 then rest else 32
  }

  function RowsBelow(e: Extents, tile: nat): nat
    requires e.Valid()
  {
    SomeTiles(e);
    DivMod(Quotient(tile, e.Wt()), e.Ht());
    e.H - TileRow(e, tile) * 32
  }

  /// A tile as the compute kernel leaves it.
  ghost predicate IsTile(a: Algorithm, s: State, e: Extents, tile: nat, t: seq<Vector>)
    requires e.Valid()
  {
    HasWords(t, a, s, BaseOf(e, tile), Wrap(e.W), RowsValid(e, tile))
  }

  method MakeTile(dst: Dst, a: Algorithm, s: State, ks: Threefry.Pair, base: Word, W: Word, rowsValid: nat)
    returns (t: Tile)
    requires IsDst(dst) && (a == UseThreefry ==> ks == StreamKey(s))
    modifies dst
    ensures HasWords(t, a, s, base, W, rowsValid)
  {
    hide Threefry.Threefry20, Philox.Philox10, Xor, PlaceIndex, Processed;
    if a == UseThreefry {
      ThreefryTile(dst, base, W, rowsValid, ks, Xor(Xor(ks.low, ks.high), Threefry.PARITY), s.w1);
      t := ReadTile(dst, 0);
    } else {
      t := PhiloxTile(dst, base, W, rowsValid, s);
    }
  }

  /// The compute kernel: the stream key once, then this core's tiles in order.
  method Compute(a: Algorithm, words: seq<Word>, e: Extents, first: nat, num: nat) returns (out: seq<Tile>)
    requires |words| >= 18 && e.Valid()
    ensures |out| == num && forall i: nat :: i < num ==> IsTile(a, StateOf(words), e, first + i, out[i])
  {
    hide HasWords, Threefry.Rounds, Xor, BaseOf, RowsValid, Add, Extents.Valid;
    var s := State(words[0], words[1], words[16], words[17]);
    var ks := Threefry.Pair(0, 0);
    if a == UseThreefry {
      ks := Threefry.Pair(Add(s.h1, s.w0), Add(Threefry.PARITY, s.h0));
      StartPair(Threefry.Pair(s.w0, s.h0), s.h1, Threefry.PARITY);
      ks := Threefry.ThreefryWords(ks, s.w0, s.h0, Xor(Xor(s.w0, s.h0), Threefry.PARITY));
    }
    var dst := new Vector[4, 32]((w, v) => NoLanes());
    out := [];
    var tile := first;
    while tile < first + num
      invariant first <= tile <= first + num && |out| == tile - first && fresh(dst)
      invariant forall i: nat :: i < |out| ==> IsTile(a, s, e, first + i, out[i])
    {
      var t := MakeTile(dst, a, s, ks, BaseOf(e, tile), Wrap(e.W), RowsValid(e, tile));
      out := out + [t];
      tile := tile + 1;
    }
  }

  // ---- the elements of a call ----

  /// The word of a logical element in the output's tiles.
  function LogicalWord(pages: seq<Tile>, e: Extents, b: nat, r: nat, c: nat): Word
    requires e.Valid() && |pages| == e.Tiles() && b < e.B && r < e.H && c < e.W
  {
    TileInRange(e, b, r, c);
    pages[TileOf(e, b, r, c)][8 * FaceFor(r % 32, c % 32) + VectorFor(r % 32, c % 32)][LaneFor(r % 32, c % 32)]
  }

  function TileAt(e: Extents, b: nat, tr: nat, tc: nat): nat { (b * e.Ht() + tr) * e.Wt() + tc }

  function TileOf(e: Extents, b: nat, r: nat, c: nat): nat { TileAt(e, b, r / 32, c / 32) }

  lemma TilesCover(e: Extents)
    ensures e.Ht() * 32 >= e.H && e.Wt() * 32 >= e.W
  {}

  lemma TileInRange(e: Extents, b: nat, r: nat, c: nat)
    requires b < e.B && r < e.H && c < e.W
    ensures TileOf(e, b, r, c) < e.Tiles() && r / 32 < e.Ht() && c / 32 < e.Wt()
  {
    hide Extents.Ht, Extents.Wt;
    TilesCover(e);
    InLast(e.H, e.Ht(), r);
    InLast(e.W, e.Wt(), c);
    MulStrict(b, e.B, e.Ht());
    MulStrict(b * e.Ht() + r / 32, e.B * e.Ht(), e.Wt());
  }

  lemma InLast(n: nat, tiles: nat, i: nat)
    requires tiles * 32 >= n && i < n
    ensures i / 32 < tiles
  {}

  /// A tile's batch, tile row and tile column from its number.
  lemma TileParts(e: Extents, b: nat, tr: nat, tc: nat)
    requires e.Valid() && tr < e.Ht() && tc < e.Wt()
    ensures TileColumn(e, TileAt(e, b, tr, tc)) == tc
    ensures TileRow(e, TileAt(e, b, tr, tc)) == tr
    ensures TileBatch(e, TileAt(e, b, tr, tc)) == b
  {
    hide Extents.Ht, Extents.Wt, Extents.Valid;
    SomeTiles(e);
    var ht, wt := e.Ht(), e.Wt();
    var t := (b * ht + tr) * wt + tc;
    DivModUnique(t, wt, b * ht + tr, tc);
    DivModUnique(b * ht + tr, ht, b, tr);
    MulStrict(tr, ht, wt);
    MulDistribute(b * ht, tr, wt);
    MulAssoc(b, ht, wt);
    assert wt * ht == ht * wt;
    DivModUnique(t, wt * ht, b, tr * wt + tc);
  }

  /// The index of a logical element, from its tile's base.
  lemma ElementOfTile(e: Extents, b: nat, r: nat, c: nat)
    requires e.Valid() && b < e.B && r < e.H && c < e.W
    ensures IndexOf(e, b, r, c) < TWO_32
    ensures ElementIndex(BaseOf(e, TileOf(e, b, r, c)), Wrap(e.W), r % 32, c % 32) == IndexOf(e, b, r, c)
    ensures r % 32 < RowsValid(e, TileOf(e, b, r, c))
  {
    TileInRange(e, b, r, c);
    TileParts(e, b, r / 32, c / 32);
    IndexBound(e, b, r, c);
    hide Extents.Ht, Extents.Wt, Extents.Valid;
    DivMod(r, 32);
    DivMod(c, 32);
    IndexFromBase(b, e.H, r / 32, r % 32, e.W, c / 32, c % 32);
  }

  lemma IndexBound(e: Extents, b: nat, r: nat, c: nat)
    requires e.Valid() && b < e.B && r < e.H && c < e.W
    ensures (b * e.H + r) * e.W + c < TWO_32 && e.W < TWO_32
  {
    MulStrict(b, e.B, e.H);
    MulStrict(b * e.H + r, e.B * e.H, e.W);
    MulMonotone(1, e.B * e.H, e.W);
  }

  lemma IndexFromBase(b: nat, H: nat, tr: nat, rr: nat, W: nat, tc: nat, cc: nat)
    requires W < TWO_32 && (b * H + (tr * 32 + rr)) * W + (tc * 32 + cc) < TWO_32
    ensures ElementIndex(Wrap((b * H + tr * 32) * W + tc * 32), Wrap(W), rr, cc)
      == (b * H + (tr * 32 + rr)) * W + (tc * 32 + cc)
  {
    MulDistribute(b * H + tr * 32, rr, W);
    WrapSum((b * H + tr * 32) * W + tc * 32, rr * W + cc);
    WrapSmall(W);
    WrapSmall((b * H + (tr * 32 + rr)) * W + (tc * 32 + cc));
    hide Wrap;
    var w := Wrap(W);
    assert w == W;
  }

  /// An element's place in row-major order.
  function IndexOf(e: Extents, b: nat, r: nat, c: nat): nat { (b * e.H + r) * e.W + c }

  /// The element has the word of its row-major index.
  ghost predicate IsWord(pages: seq<Tile>, a: Algorithm, s: State, e: Extents, b: nat, r: nat, c: nat)
    requires e.Valid() && |pages| == e.Tiles() && b < e.B && r < e.H && c < e.W
  {
    IndexOf(e, b, r, c) < TWO_32 && LogicalWord(pages, e, b, r, c) == WordOf(UseOf(a, s, IndexOf(e, b, r, c)))
  }

  ghost predicate AllWords(pages: seq<Tile>, a: Algorithm, s: State, e: Extents)
    requires e.Valid() && |pages| == e.Tiles()
  {
    forall b: nat, r: nat, c: nat :: b < e.B && r < e.H && c < e.W ==> IsWord(pages, a, s, e, b, r, c)
  }

  lemma WordOfElement(pages: seq<Tile>, a: Algorithm, s: State, e: Extents, b: nat, r: nat, c: nat)
    requires e.Valid() && |pages| == e.Tiles() && b < e.B && r < e.H && c < e.W
    requires TileOf(e, b, r, c) < |pages| && IsTile(a, s, e, TileOf(e, b, r, c), pages[TileOf(e, b, r, c)])
    ensures IsWord(pages, a, s, e, b, r, c)
  {
    hide Extents.Ht, Extents.Wt, Extents.Valid, Extents.Tiles, BaseOf, RowsValid, TileOf, ElementIndex, IndexOf, UseOf,
         WordOf,
      FaceFor, VectorFor, LaneFor, RowOf, ColumnOf, Processed;
    ElementOfTile(e, b, r, c);
    VectorOf(FaceFor(r % 32, c % 32), VectorFor(r % 32, c % 32));
    ElementOfLane(r % 32, c % 32);
    ValidRowsProcessed(8 * FaceFor(r % 32, c % 32) + VectorFor(r % 32, c % 32), LaneFor(r % 32, c % 32),
      RowsValid(e, TileOf(e, b, r, c)));
  }

  // ---- a call ----

  /// The mover's output pages.
  method WritePages(bits: array<Tile>, first: nat, out: seq<Tile>)
    requires first + |out| <= bits.Length
    modifies bits
    ensures forall p: nat :: p < bits.Length ==>
      bits[p] == if first <= p < first + |out| then out[p - first] else old(bits[p])
  {
    var i := 0;
    while i < |out|
      invariant 0 <= i <= |out|
      invariant forall p: nat :: p < bits.Length ==> bits[p] == if first <= p < first + i then out[p - first]
        else old(bits[p])
    {
      bits[first + i] := out[i];
      i := i + 1;
    }
  }

  ghost predicate PagesDone(pages: seq<Tile>, n: nat, a: Algorithm, s: State, e: Extents)
    requires e.Valid()
  {
    n <= |pages| && forall p: nat :: p < n ==> IsTile(a, s, e, p, pages[p])
  }

  /// Every core in turn, each with its range of tiles; the first core writes the
  /// new state. Every element gets its word, and the next state is advanced by one.
  method RngBits(a: Algorithm, words: array<Word>, e: Extents, counts: seq<nat>, bits: array<Tile>)
    returns (newState: seq<Word>)
    requires words.Length >= 18 && e.Valid() && bits.Length == e.Tiles()
    requires |counts| > 0 && FirstOf(counts, |counts|) == e.Tiles()
    modifies words, bits
    ensures words[..] == old(words[..])
    ensures |newState| == words.Length && StateOf(newState) == Advanced(old(StateOf(words[..])))
    ensures AllWords(bits[..], a, old(StateOf(words[..])), e)
  {
    hide Extents.Valid, Extents.Tiles, IsTile, AllWords;
    ghost var s := StateOf(words[..]);
    ghost var all := e.Tiles();
    newState := AdvanceState(words);
    var i, first := 0, 0;
    while i < |counts|
      invariant 0 <= i <= |counts| && first == FirstOf(counts, i) && words[..] == old(words[..])
      invariant PagesDone(bits[..], first, a, s, e)
    {
      FirstOfMonotone(counts, i + 1, |counts|);
      var out := Compute(a, words[..], e, first, counts[i]);
      ghost var before := bits[..];
      WritePages(bits, first, out);
      forall p: nat | p < first + counts[i] ensures IsTile(a, s, e, p, bits[..][p]) {
        if p < first { assert bits[..][p] == before[p]; }
        else { assert bits[..][p] == out[p - first]; assert first + (p - first) == p; }
      }
      first := first + counts[i];
      i := i + 1;
    }
    EveryWord(bits[..], a, s, e);
  }

  lemma EveryWord(pages: seq<Tile>, a: Algorithm, s: State, e: Extents)
    requires e.Valid() && |pages| == e.Tiles() && PagesDone(pages, |pages|, a, s, e)
    ensures AllWords(pages, a, s, e)
  {
    hide Extents.Valid, Extents.Tiles, IsTile, IsWord, TileOf;
    forall b: nat, r: nat, c: nat | b < e.B && r < e.H && c < e.W ensures IsWord(pages, a, s, e, b, r, c) {
      TileInRange(e, b, r, c);
      WordOfElement(pages, a, s, e, b, r, c);
    }
  }
}
