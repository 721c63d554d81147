/// Row maxima of |x| on the vector unit: bands of a tile folded into
/// accumulator bands, and each row's eight lanes into one.
///
/// A maximum is characterised by its upper bounds: v is the maximum of some
/// values if exactly the bounds of all of them bound v.
module QuantizeMaxima {
  import opened VectorUnit
  import opened WordOrder

  // ---- words as magnitudes ----

  predicate Negative(w: Word) { w & 0x8000_0000 != 0 }

  /// A float load: subnormals become zero.
  function Loaded(w: Word): Word { if w & 0x7F80_0000 == 0 then w & 0x8000_0000 else w }

  function Cleared(w: Word): Word { w & 0x7FFF_FFFF }

  /// |x| as integer bits, of a loaded float.
  function AbsBits(w: Word): Word { Cleared(Loaded(w)) }

  function Biased(w: Word): Word { w ^ 0x8000_0000 }

  /// The larger of two words as signed integers.
  function IMax(a: Word, b: Word): Word { if Below(Biased(a), Biased(b)) then b else a }

  /// A magnitude that loads as itself.
  predicate Settled(w: Word) { !Negative(w) && Loaded(w) == w }

  lemma ZeroSettled()
    ensures Settled(ZERO)
  {}

  lemma ClearedPositive(w: Word)
    ensures !Negative(Cleared(w))
  {}

  lemma ClearedLoads(w: Word)
    ensures Loaded(Cleared(Loaded(w))) == Cleared(Loaded(w))
  {}

  lemma AbsSettled(w: Word)
    ensures Settled(AbsBits(w))
  {
    hide Loaded, Cleared, Negative;
    ClearedPositive(Loaded(w));
    ClearedLoads(w);
  }

  lemma BiasedBelow(a: Word, b: Word)
    requires !Negative(a) && !Negative(b) && Below(a, b)
    ensures Below(Biased(a), Biased(b))
  {}

  lemma BelowBiased(a: Word, b: Word)
    requires !Negative(a) && !Negative(b) && Below(Biased(a), Biased(b))
    ensures Below(a, b)
  {}

  /// Words that are not negative compare alike with and without signs.
  lemma PositivesCompare(a: Word, b: Word)
    requires !Negative(a) && !Negative(b)
    ensures Below(Biased(a), Biased(b)) <==> Below(a, b)
  {
    hide Negative, Biased, Below;
    if Below(a, b) { BiasedBelow(a, b); }
    if Below(Biased(a), Biased(b)) { BelowBiased(a, b); }
  }

  /// Reading subnormals as zero keeps the order of magnitudes, so the maximum
  /// of loaded magnitudes is that of the largest |x| bits.
  lemma LoadKeepsOrder(a: Word, b: Word)
    requires !Negative(a) && !Negative(b) && AtMost(a, b)
    ensures AtMost(Loaded(a), Loaded(b))
  {}

  lemma ZeroAtMost(w: Word)
    ensures AtMost(ZERO, w)
  {}

  /// The maximum's bounds are the common bounds.
  lemma MaxBound(a: Word, b: Word, bound: Word)
    requires Settled(a) && Settled(b)
    ensures Settled(IMax(a, b))
    ensures AtMost(IMax(a, b), bound) <==> AtMost(a, bound) && AtMost(b, bound)
  {
    hide Negative, Loaded, Biased, Below, AtMost;
    PositivesCompare(a, b);
    if Below(a, b) {
      BelowAtMost(a, b);
      if AtMost(b, bound) { AtMostTransitive(a, b, bound); }
    } else {
      NotBelow(a, b);
      if AtMost(a, bound) { AtMostTransitive(b, a, bound); }
    }
  }

  /// Values with the same bounds are the same.
  lemma SameBounds(a: Word, b: Word)
    requires forall bound: Word :: AtMost(a, bound) <==> AtMost(b, bound)
    ensures a == b
  {
    hide AtMost;
    AtMostItself(a);
    AtMostItself(b);
    AtMostBoth(a, b);
  }

  // ---- vectors of magnitudes ----

  ghost predicate AllSettled(v: Vec) { forall h: nat, j: nat :: h < 4 && j < 8 ==> Settled(Lane(v, h, j)) }

  function AbsVec(v: Vec): (r: Vec)
    ensures forall h: nat, j: nat :: h < 4 && j < 8 ==> Lane(r, h, j) == AbsBits(Lane(v, h, j))
  {
    seq(4, h requires 0 <= h < 4 => seq(8, j requires 0 <= j < 8 => AbsBits(v[h][j])))
  }

  function LoadVec(v: Vec): (r: Vec)
    ensures forall h: nat, j: nat :: h < 4 && j < 8 ==> Lane(r, h, j) == Loaded(Lane(v, h, j))
  {
    seq(4, h requires 0 <= h < 4 => seq(8, j requires 0 <= j < 8 => Loaded(v[h][j])))
  }

  function MaxVec(a: Vec, b: Vec): (r: Vec)
    ensures forall h: nat, j: nat :: h < 4 && j < 8 ==> Lane(r, h, j) == IMax(Lane(a, h, j), Lane(b, h, j))
  {
    seq(4, h requires 0 <= h < 4 => seq(8, j requires 0 <= j < 8 => IMax(a[h][j], b[h][j])))
  }

  lemma AbsVecSettled(v: Vec)
    ensures AllSettled(AbsVec(v))
  {
    hide AbsVec, Lane, Settled, AbsBits;
    forall h: nat, j: nat | h < 4 && j < 8 ensures Settled(Lane(AbsVec(v), h, j)) { AbsSettled(Lane(v, h, j)); }
  }

  lemma SettledLoads(v: Vec)
    requires AllSettled(v)
    ensures LoadVec(v) == v
  {
    hide LoadVec, Loaded, Negative, Lane;
    SameLanes(LoadVec(v), v);
  }

  lemma MaxVecBound(a: Vec, b: Vec)
    requires AllSettled(a) && AllSettled(b)
    ensures AllSettled(MaxVec(a, b))
    ensures forall h: nat, j: nat, bound: Word :: h < 4 && j < 8 ==>
      (AtMost(Lane(MaxVec(a, b), h, j), bound) <==> AtMost(Lane(a, h, j), bound) && AtMost(Lane(b, h, j), bound))
  {
    hide MaxVec, IMax, Settled, AtMost, Lane;
    forall h: nat, j: nat, bound: Word | h < 4 && j < 8
      ensures AtMost(Lane(MaxVec(a, b), h, j), bound) <==> AtMost(Lane(a, h, j), bound) && AtMost(Lane(b, h, j), bound)
    {
      MaxBound(Lane(a, h, j), Lane(b, h, j), bound);
    }
    forall h: nat, j: nat | h < 4 && j < 8 ensures Settled(Lane(MaxVec(a, b), h, j)) {
      MaxBound(Lane(a, h, j), Lane(b, h, j), ZERO);
    }
  }

  // ---- bands ----

  /// The slot of an even or odd vector of band b of face f.
  function VecAt(f: nat, b: nat, parity: nat): (n: nat)
    requires f < 4 && b < 4 && parity < 2
    ensures n < 32
  {
    f * 8 + b * 2 + parity
  }

  /// The first vector of band q of the accumulator.
  function AccVec(q: nat): (n: nat)
    requires q < 8
    ensures n < 31
  {
    VecAt(if q < 4 then 0 else 2, q % 4, 0)
  }

  lemma BandPlace(g: nat, h: nat)
    requires g < 8 && h < 4
    ensures (4 * g + h) % 16 / 4 == g % 4 && (4 * g + h) % 4 == h && (4 * g + h < 16 <==> g < 4)
  {}

  /// A band's vectors are the slots of its rows.
  lemma BandSlot(g: nat, u: nat)
    requires g < 8 && u < 4
    ensures VecAt((if g < 4 then 0 else 2) + (if u < 2 then 0 else 1), g % 4, if u == 1 || u == 3 then 1 else 0)
      == Slot(4 * g, u)
  {
    BandPlace(g, 0);
  }

  lemma SlotInBand(g: nat, h: nat, u: nat)
    requires g < 8 && h < 4 && u < 4
    ensures Slot(4 * g + h, u) == Slot(4 * g, u) && SubRowOf(4 * g + h) == h
  {
    BandPlace(g, 0);
    BandPlace(g, h);
  }

  lemma AccVecsApart(p: nat, q: nat)
    requires p < 8 && q < 8 && p != q
    ensures AccVec(p) != AccVec(q) && AccVec(p) + 1 != AccVec(q)
  {}

  /// The four elements that a lane of a band's vectors holds.
  ghost predicate BandBelow(x: Tile, g: nat, h: nat, j: nat, bound: Word)
    requires g < 8 && h < 4 && j < 8
  {
    forall u: nat :: u < 4 ==> AtMost(AbsBits(Lane(x[Slot(4 * g, u)], h, j)), bound)
  }

  /// Row r's elements.
  ghost predicate RowBelow(x: Tile, r: nat, bound: Word)
    requires r < 32
  {
    forall c: nat :: c < 32 ==> AtMost(AbsBits(At(x, r, c)), bound)
  }

  ghost predicate LanesBelow(x: Tile, g: nat, h: nat, bound: Word)
    requires g < 8 && h < 4
  {
    forall j: nat :: j < 8 ==> BandBelow(x, g, h, j, bound)
  }

  /// A row's elements are those of its sub-row's lanes.
  lemma RowOfLanes(x: Tile, g: nat, h: nat, bound: Word)
    requires g < 8 && h < 4
    ensures LanesBelow(x, g, h, bound) <==> RowBelow(x, 4 * g + h, bound)
  {
    hide AtMost, AbsBits, Slot, GroupOf, PlaceOf, Col, Lane, At;
    if LanesBelow(x, g, h, bound) {
      var r := 4 * g + h;
      forall c: nat | c < 32 ensures AtMost(AbsBits(At(x, r, c)), bound) {
        ColumnParts(c);
        AtGroup(x, 4 * g + h, GroupOf(c), PlaceOf(c));
        SlotInBand(g, h, GroupOf(c));
        assert BandBelow(x, g, h, PlaceOf(c), bound);
      }
    }
    if RowBelow(x, 4 * g + h, bound) {
      forall j: nat, u: nat | j < 8 && u < 4 ensures AtMost(AbsBits(Lane(x[Slot(4 * g, u)], h, j)), bound) {
        AtGroup(x, 4 * g + h, u, j);
        SlotInBand(g, h, u);
      }
      forall j: nat | j < 8 ensures BandBelow(x, g, h, j, bound) {}
    }
  }

  /// Among the first `bands` bands, those of accumulator band q.
  ghost predicate BandsBelow(x: Tile, groups: nat, bands: nat, q: nat, h: nat, j: nat, bound: Word)
    requires 0 < groups && bands <= 8 && h < 4 && j < 8
  {
    forall g: nat :: g < bands && g % groups == q ==> BandBelow(x, g, h, j, bound)
  }

  type Accumulator = array<Vec>

  function AccLane(acc: Accumulator, q: nat, h: nat, j: nat): Word
    requires acc.Length == 32 && q < 8 && h < 4 && j < 8
    reads acc
  {
    Lane(acc[AccVec(q)], h, j)
  }

  ghost predicate Ready(acc: Accumulator, groups: nat)
    reads acc
  {
    acc.Length == 32 && 0 < groups <= 8 && forall q: nat :: q < groups ==> AllSettled(acc[AccVec(q)])
  }

  method ZeroAcc(acc: Accumulator, groups: nat)
    requires acc.Length == 32 && 0 < groups <= 8
    modifies acc
    ensures Ready(acc, groups)
    ensures forall q: nat, h: nat, j: nat :: q < groups && h < 4 && j < 8 ==> AccLane(acc, q, h, j) == ZERO
  {
    hide Settled, AccVec, Lane;
    var q := 0;
    ZeroSettled();
    while q < groups
      invariant 0 <= q <= groups && forall p: nat :: p < q ==> acc[AccVec(p)] == Fill(ZERO)
    {
      acc[AccVec(q)] := Fill(ZERO);
      q := q + 1;
    }
  }

  method BandMaximum(x: Tile, g: nat) returns (m: Vec)
    requires g < 8
    ensures AllSettled(m)
    ensures forall h: nat, j: nat, bound: Word :: h < 4 && j < 8 ==>
      (AtMost(Lane(m, h, j), bound) <==> BandBelow(x, g, h, j, bound))
  {
    hide AllSettled, AbsVec, MaxVec, AtMost, AbsBits, Lane, Slot, VecAt, AccVec;
    BandSlot(g, 0);
    BandSlot(g, 1);
    BandSlot(g, 2);
    BandSlot(g, 3);
    var f, b := if g < 4 then 0 else 2, g % 4;
    var v0, v1, v2, v3 := AbsVec(x[VecAt(f, b, 0)]), AbsVec(x[VecAt(f, b, 1)]), AbsVec(x[VecAt(f + 1, b, 0)]),
      AbsVec(x[VecAt(f + 1, b, 1)]);
    AbsVecSettled(x[Slot(4 * g, 0)]);
    AbsVecSettled(x[Slot(4 * g, 1)]);
    AbsVecSettled(x[Slot(4 * g, 2)]);
    AbsVecSettled(x[Slot(4 * g, 3)]);
    MaxVecBound(v0, v1);
    MaxVecBound(v2, v3);
    m := MaxVec(v0, v1);
    MaxVecBound(m, MaxVec(v2, v3));
    m := MaxVec(m, MaxVec(v2, v3));
  }

  /// The first `bands` bands of a dense tile into the accumulators.
  method FoldAbsmax(acc: Accumulator, x: Tile, groups: nat, bands: nat)
    requires Ready(acc, groups) && bands <= 8
    modifies acc
    ensures Ready(acc, groups)
    ensures forall q: nat, h: nat, j: nat, bound: Word :: q < groups && h < 4 && j < 8 ==>
      (AtMost(AccLane(acc, q, h, j), bound) <==>
        AtMost(old(AccLane(acc, q, h, j)), bound) && BandsBelow(x, groups, bands, q, h, j, bound))
  {
    hide AllSettled, MaxVec, LoadVec, AtMost, Lane, AccVec, BandBelow;
    var g := 0;
    while g < 8
      invariant 0 <= g <= 8 && Ready(acc, groups)
      invariant forall q: nat, h: nat, j: nat, bound: Word :: q < groups && h < 4 && j < 8 ==>
        (AtMost(AccLane(acc, q, h, j), bound) <==>
           AtMost(old(AccLane(acc, q, h, j)), bound)
             && BandsBelow(x, groups, if g < bands then g else bands, q, h, j, bound))
    {
      if g < bands {
        FoldBand(acc, x, groups, g);
      }
      g := g + 1;
    }
  }

  method FoldBand(acc: Accumulator, x: Tile, groups: nat, g: nat)
    requires Ready(acc, groups) && g < 8
    modifies acc
    ensures Ready(acc, groups)
    ensures forall q: nat, h: nat, j: nat, bound: Word :: q < groups && h < 4 && j < 8 ==>
      (AtMost(AccLane(acc, q, h, j), bound) <==>
         AtMost(old(AccLane(acc, q, h, j)), bound) && (g % groups == q ==> BandBelow(x, g, h, j, bound)))
  {
    hide AllSettled, AtMost, Lane, AccLane, BandBelow;
    var m := BandMaximum(x, g);
    RaiseBand(acc, groups, g % groups, m);
  }

  /// Accumulator band q raised to at least v.
  method RaiseBand(acc: Accumulator, groups: nat, q: nat, v: Vec)
    requires Ready(acc, groups) && q < groups && AllSettled(v)
    modifies acc
    ensures Ready(acc, groups)
    ensures forall p: nat, h: nat, j: nat, bound: Word :: p < groups && h < 4 && j < 8 ==>
      (AtMost(AccLane(acc, p, h, j), bound) <==>
        AtMost(old(AccLane(acc, p, h, j)), bound) && (p == q ==> AtMost(Lane(v, h, j), bound)))
  {
    hide AllSettled, MaxVec, LoadVec, AtMost, Lane, AccVec;
    forall p: nat | p < groups && p != q ensures AccVec(p) != AccVec(q) { AccVecsApart(p, q); }
    SettledLoads(acc[AccVec(q)]);
    MaxVecBound(acc[AccVec(q)], v);
    acc[AccVec(q)] := MaxVec(LoadVec(acc[AccVec(q)]), v);
  }

  // ---- one value for a row ----

  ghost predicate SubRowBelow(v: Vec, h: nat, bound: Word)
    requires h < 4
  {
    forall j: nat :: j < 8 ==> AtMost(Lane(v, h, j), bound)
  }

  /// The lanes from j back over n places.
  ghost predicate WindowBelow(v: Vec, h: nat, j: nat, n: nat, bound: Word)
    requires h < 4 && j < 8 && n <= 8
  {
    forall s: nat :: s < n ==> AtMost(Lane(v, h, Back(j, s)), bound)
  }

  lemma WindowGrows(v: Vec, h: nat, j: nat, n: nat, bound: Word)
    requires h < 4 && j < 8 && n <= 4
    ensures WindowBelow(v, h, j, 2 * n, bound) <==>
      WindowBelow(v, h, j, n, bound) && WindowBelow(v, h, Back(j, n), n, bound)
  {
    hide AtMost, Lane;
    if WindowBelow(v, h, j, 2 * n, bound) {
      forall s: nat | s < n
        ensures AtMost(Lane(v, h, Back(Back(j, n), s)), bound)
      {
        assert Back(Back(j, n), s) == Back(j, n + s);
      }
    }
    if WindowBelow(v, h, j, n, bound) && WindowBelow(v, h, Back(j, n), n, bound) {
      forall s: nat | s < 2 * n ensures AtMost(Lane(v, h, Back(j, s)), bound) {
        if s >= n { assert Back(Back(j, n), s - n) == Back(j, s); }
      }
    }
  }

  lemma WholeWindow(v: Vec, h: nat, j: nat, bound: Word)
    requires h < 4 && j < 8
    ensures WindowBelow(v, h, j, 8, bound) <==> SubRowBelow(v, h, bound)
  {
    hide AtMost, Lane;
    if WindowBelow(v, h, j, 8, bound) {
      forall i: nat | i < 8 ensures AtMost(Lane(v, h, i), bound) {
        var s := if j >= i then j - i else j + 8 - i;
        assert Back(j, s) == i;
      }
    }
  }

  /// m's lanes are the maxima of windows of n.
  ghost predicate Windowed(v: Vec, m: Vec, n: nat)
    requires n <= 8
  {
    && AllSettled(m)
    && forall h: nat, j: nat, bound: Word :: h < 4 && j < 8 ==>
       (AtMost(Lane(m, h, j), bound) <==> WindowBelow(v, h, j, n, bound))
  }

  /// A maximum with itself n lanes on doubles the window.
  lemma DoubleWindow(v: Vec, m: Vec, turned: Vec, n: nat)
    requires n <= 4 && Windowed(v, m, n)
    requires forall h: nat, j: nat :: h < 4 && j < 8 ==> Lane(turned, h, j) == Lane(m, h, Back(j, n))
    ensures Windowed(v, MaxVec(m, turned), 2 * n)
  {
    hide AtMost, Lane, Back, Settled, MaxVec, WindowBelow;
    MaxVecBound(m, turned);
    forall h: nat, j: nat, bound: Word | h < 4 && j < 8
      ensures AtMost(Lane(MaxVec(m, turned), h, j), bound) <==> WindowBelow(v, h, j, 2 * n, bound)
    {
      WindowGrows(v, h, j, n, bound);
    }
  }

  lemma BackTwice(j: nat)
    requires j < 8
    ensures Back(Back(j, 1), 1) == Back(j, 2) && Back(Back(Back(j, 2), 1), 1) == Back(j, 4)
  {}

  lemma RotatedTwice(v: Vec)
    ensures forall h: nat, j: nat :: h < 4 && j < 8 ==>
      Lane(RotatedOnce(RotatedOnce(v)), h, j) == Lane(v, h, Back(j, 2))
    ensures forall h: nat, j: nat :: h < 4 && j < 8 ==>
      Lane(RotatedOnce(RotatedOnce(RotatedOnce(RotatedOnce(v)))), h, j) == Lane(v, h, Back(j, 4))
  {
    hide RotatedOnce, Lane, Back;
    forall j: nat | j < 8
      ensures Back(Back(j, 1), 1) == Back(j, 2) && Back(Back(Back(j, 2), 1), 1) == Back(j, 4)
    {
      BackTwice(j);
    }
  }

  lemma OwnWindow(v: Vec)
    requires AllSettled(v)
    ensures Windowed(v, v, 1)
  {
    hide AtMost, Lane, Settled;
    forall h: nat, j: nat, bound: Word | h < 4 && j < 8
      ensures AtMost(Lane(v, h, j), bound) <==> WindowBelow(v, h, j, 1, bound)
    {
      assert Back(j, 0) == j;
    }
  }

  /// The maximum of a sub-row in all of its lanes, after rotations by 1, 2 and 4.
  method Lanes8Max(v: Vec) returns (m: Vec)
    requires AllSettled(v)
    ensures AllSettled(m)
    ensures forall h: nat, j: nat, bound: Word :: h < 4 && j < 8 ==>
      (AtMost(Lane(m, h, j), bound) <==> SubRowBelow(v, h, bound))
  {
    hide AtMost, Lane, AllSettled, MaxVec, WindowBelow, RotatedOnce;
    OwnWindow(v);
    DoubleWindow(v, v, RotatedOnce(v), 1);
    m := MaxVec(v, RotatedOnce(v));
    RotatedTwice(m);
    DoubleWindow(v, m, RotatedOnce(RotatedOnce(m)), 2);
    m := MaxVec(m, RotatedOnce(RotatedOnce(m)));
    RotatedTwice(m);
    DoubleWindow(v, m, RotatedOnce(RotatedOnce(RotatedOnce(RotatedOnce(m)))), 4);
    m := MaxVec(m, RotatedOnce(RotatedOnce(RotatedOnce(RotatedOnce(m)))));
    forall h: nat, j: nat, bound: Word | h < 4 && j < 8
      ensures AtMost(Lane(m, h, j), bound) <==> SubRowBelow(v, h, bound)
    {
      WholeWindow(v, h, j, bound);
    }
  }

  /// Both columns' vectors of band q hold, in row h, the maximum of the row's lanes.
  ghost predicate Finished(before: Vec, even: Vec, odd: Vec) {
    && even == odd && AllSettled(even)
    && forall h: nat, j: nat, bound: Word :: h < 4 && j < 8 ==>
       (AtMost(Lane(even, h, j), bound) <==> SubRowBelow(before, h, bound))
  }

  /// Both vectors of a band's left face hold their rows' maxima.
  method FinishPartial(acc: Accumulator, groups: nat)
    requires Ready(acc, groups)
    modifies acc
    ensures forall q: nat :: q < groups ==> Finished(old(acc[AccVec(q)]), acc[AccVec(q)], acc[AccVec(q) + 1])
  {
    hide AllSettled, AtMost, Lane, AccVec, Finished, SubRowBelow;
    var q := 0;
    while q < groups
      invariant 0 <= q <= groups
      invariant forall p: nat :: p < q ==> Finished(old(acc[AccVec(p)]), acc[AccVec(p)], acc[AccVec(p) + 1])
      invariant forall p: nat :: q <= p < groups ==> acc[AccVec(p)] == old(acc[AccVec(p)])
    {
      forall p: nat | p < groups && p != q
        ensures AccVec(p) != AccVec(q) && AccVec(p) + 1 != AccVec(q) && AccVec(q) + 1 != AccVec(p)
      {
        AccVecsApart(p, q);
        AccVecsApart(q, p);
      }
      SettledLoads(acc[AccVec(q)]);
      var m := Lanes8Max(LoadVec(acc[AccVec(q)]));
      FinishedIs(acc[AccVec(q)], m);
      acc[AccVec(q)] := m;
      acc[AccVec(q) + 1] := m;
      q := q + 1;
    }
  }

  lemma FinishedIs(before: Vec, m: Vec)
    requires AllSettled(m)
    requires forall h: nat, j: nat, bound: Word :: h < 4 && j < 8 ==>
      (AtMost(Lane(m, h, j), bound) <==> SubRowBelow(before, h, bound))
    ensures Finished(before, m, m)
  {}
}
