/// What quantize_rows returns, element by element: codes under each row's scale,
/// and the scales.
module QuantizeResult {
  import opened RowMajor
  import opened TileFaces
  import opened WordOrder
  import opened VectorUnit
  import opened QuantizeMaxima
  import opened QuantizePartial
  import opened QuantizeDivisor
  import opened QuantizeScale
  import opened QuantizePlan
  import opened QuantizeDense
  import opened QuantizeRows

  /// The bits of |x|, of a float as it is read: subnormals are zero.
  function Magnitude(x: Word): Word { if x & 0x7F80_0000 == 0 then 0 else x & 0x7FFF_FFFF }

  /// The largest magnitude of row m.
  ghost predicate IsPeak(input: seq<Word>, tiles: nat, m: nat, peak: Word)
    requires tiles * 1024 <= |input| && m < 32
  {
    && (forall t: nat, c: nat :: t < tiles && c < 32 ==> MagnitudeAt(input, t, m, c) <= peak)
    && (peak == 0 || exists t: nat, c: nat :: t < tiles && c < 32 && MagnitudeAt(input, t, m, c) == peak)
  }

  function MagnitudeAt(input: seq<Word>, t: nat, m: nat, c: nat): Word
    requires (t + 1) * 1024 <= |input| && m < 32 && c < 32
  {
    Magnitude(Elem(input, t, m, c))
  }

  predicate SignedAtMost(a: Word, b: Word) {
    if a & 0x8000_0000 == b & 0x8000_0000 then a <= b else a & 0x8000_0000 != 0
  }

  /// The larger of two words as signed integers.
  predicate IsLarger(w: Word, a: Word, b: Word) { (w == a || w == b) && SignedAtMost(a, w) && SignedAtMost(b, w) }

  function Flushed(x: Word): Word { if x & 0x7F80_0000 == 0 then x & 0x8000_0000 else x }

  /// The peak over the format's largest value, and at least the least scale; NaN for a NaN.
  predicate IsRowScale(ops: Ops, peak: Word, scale: Word) {
    if peak > 0x7F80_0000 then scale == 0x7FC0_0000
    else IsLarger(scale, Flushed(ops.divide(peak, ops.fp8Max)), ops.minScale)
  }

  // ---- the helpers of the kernels, in those terms ----

  lemma AbsIsMagnitude(x: Word)
    ensures AbsBits(x) == Magnitude(x)
  {}

  lemma BelowIsSigned(a: Word, b: Word)
    requires Below(Biased(a), Biased(b))
    ensures SignedAtMost(a, b)
  {}

  lemma NotBelowIsSigned(a: Word, b: Word)
    requires !Below(Biased(a), Biased(b))
    ensures SignedAtMost(b, a)
  {}

  lemma SignedItself(a: Word)
    ensures SignedAtMost(a, a)
  {}

  lemma MaxIsLarger(a: Word, b: Word)
    ensures IsLarger(IMax(a, b), a, b)
  {
    hide Below, Biased, SignedAtMost;
    SignedItself(a);
    SignedItself(b);
    if Below(Biased(a), Biased(b)) { BelowIsSigned(a, b); } else { NotBelowIsSigned(a, b); }
  }

  lemma PeakAboveInfinity(peak: Word)
    requires Settled(peak)
    ensures Below(Biased(INFINITY), Biased(Loaded(peak))) <==> peak > 0x7F80_0000
  {}

  lemma ScaleIsRowScale(ops: Ops, peak: Word)
    requires Settled(peak)
    ensures IsRowScale(ops, peak, ScaleOf(ops, peak))
  {
    hide Below, Biased, SignedAtMost, Settled, IsLarger, IMax;
    PeakAboveInfinity(peak);
    MaxIsLarger(Loaded(ops.divide(peak, ops.fp8Max)), ops.minScale);
  }

  lemma MaxIsOne(a: Word, b: Word)
    ensures IMax(a, b) == a || IMax(a, b) == b
  {}

  lemma {:induction false} RowMaxReached(pages: seq<Tile>, m: nat, n: nat)
    requires m < 32 && n <= |pages| * 32
    ensures RowMax(pages, m, n) == ZERO
      || exists k: nat :: k < n && AbsBits(At(pages[k / 32], m, k % 32)) == RowMax(pages, m, n)
  {
    hide IMax, AbsBits, At;
    if n > 0 {
      RowMaxReached(pages, m, n - 1);
      var x := AbsBits(At(pages[(n - 1) / 32], m, (n - 1) % 32));
      MaxIsOne(RowMax(pages, m, n - 1), x);
      if RowMax(pages, m, n) == RowMax(pages, m, n - 1) && RowMax(pages, m, n) != ZERO {
        var k: nat :| k < n - 1 && AbsBits(At(pages[k / 32], m, k % 32)) == RowMax(pages, m, n - 1);
        assert k < n;
      }
    }
  }

  lemma RowPagesAre(input: seq<Word>, plan: Plan)
    requires ValidPlan(plan, |input|)
    ensures |RowPages(input, plan)| == plan.tiles
    ensures forall t: nat :: t < plan.tiles ==> RowPages(input, plan)[t] == Unpacked(input, t)
  {
    hide Unpacked;
  }

  lemma PageElement(input: seq<Word>, t: nat, m: nat, c: nat)
    requires (t + 1) * 1024 <= |input| && m < 32 && c < 32
    ensures MagnitudeAt(input, t, m, c) == AbsBits(At(Unpacked(input, t), m, c))
  {
    hide AbsBits, At, Magnitude, Unpacked, Elem;
    UnpackedElem(input, t, m, c);
    AbsIsMagnitude(Elem(input, t, m, c));
  }

  lemma MaxBoundsAll(pages: seq<Tile>, m: nat, t: nat, c: nat)
    requires m < 32 && t < |pages| && c < 32
    ensures AbsBits(At(pages[t], m, c)) <= RowMax(pages, m, |pages| * 32)
  {
    hide AbsBits, At, RowMax, FirstBelow, AtMost, Settled;
    var peak := RowMax(pages, m, |pages| * 32);
    AtMostItself(peak);
    RowMaxBound(pages, m, |pages| * 32, peak);
    DivModUnique(t * 32 + c, 32, t, c);
    BelowFirst(pages, m, |pages| * 32, peak, t * 32 + c);
  }

  lemma MaxIsElement(pages: seq<Tile>, m: nat) returns (t: nat, c: nat)
    requires m < 32 && RowMax(pages, m, |pages| * 32) != ZERO
    ensures t < |pages| && c < 32 && AbsBits(At(pages[t], m, c)) == RowMax(pages, m, |pages| * 32)
  {
    hide AbsBits, At, RowMax;
    RowMaxReached(pages, m, |pages| * 32);
    var k: nat :| k < |pages| * 32 && AbsBits(At(pages[k / 32], m, k % 32)) == RowMax(pages, m, |pages| * 32);
    t, c := k / 32, k % 32;
  }

  lemma ElementBelowMax(input: seq<Word>, pages: seq<Tile>, m: nat, t: nat, c: nat)
    requires m < 32 && t < |pages| && (t + 1) * 1024 <= |input| && pages[t] == Unpacked(input, t) && c < 32
    ensures MagnitudeAt(input, t, m, c) <= RowMax(pages, m, |pages| * 32)
  {
    hide AbsBits, At, RowMax, MagnitudeAt, Unpacked;
    PageElement(input, t, m, c);
    MaxBoundsAll(pages, m, t, c);
  }

  lemma MaxIsPeak(input: seq<Word>, pages: seq<Tile>, m: nat)
    requires m < 32 && |pages| * 1024 <= |input| && forall t: nat :: t < |pages| ==> pages[t] == Unpacked(input, t)
    ensures IsPeak(input, |pages|, m, RowMax(pages, m, |pages| * 32))
  {
    hide AbsBits, At, RowMax, MagnitudeAt, Unpacked;
    forall t: nat, c: nat | t < |pages| && c < 32
      ensures MagnitudeAt(input, t, m, c) <= RowMax(pages, m, |pages| * 32)
    {
      ElementBelowMax(input, pages, m, t, c);
    }
    if RowMax(pages, m, |pages| * 32) != ZERO { MaxIsReached(input, pages, m); }
  }

  lemma MaxIsReached(input: seq<Word>, pages: seq<Tile>, m: nat)
    requires m < 32 && |pages| * 1024 <= |input| && forall t: nat :: t < |pages| ==> pages[t] == Unpacked(input, t)
    requires RowMax(pages, m, |pages| * 32) != ZERO
    ensures exists t: nat, c: nat ::
      t < |pages| && c < 32 && MagnitudeAt(input, t, m, c) == RowMax(pages, m, |pages| * 32)
  {
    hide AbsBits, At, RowMax, MagnitudeAt, Unpacked;
    var t, c := MaxIsElement(pages, m);
    PageElement(input, t, m, c);
  }

  lemma RowMaxIsPeak(input: seq<Word>, plan: Plan, m: nat)
    requires ValidPlan(plan, |input|) && m < 32
    ensures |RowPages(input, plan)| == plan.tiles
    ensures Settled(RowMax(RowPages(input, plan), m, plan.tiles * 32))
    ensures IsPeak(input, plan.tiles, m, RowMax(RowPages(input, plan), m, plan.tiles * 32))
  {
    hide RowMax, IsPeak, Settled, RowPages, FirstBelow, Unpacked;
    RowPagesAre(input, plan);
    MaxIsPeak(input, RowPages(input, plan), m);
    RowMaxBound(RowPages(input, plan), m, plan.tiles * 32, ZERO);
  }

  lemma BelowFirst(pages: seq<Tile>, m: nat, n: nat, bound: Word, k: nat)
    requires m < 32 && n <= |pages| * 32 && FirstBelow(pages, m, n, bound) && k < n
    ensures AbsBits(At(pages[k / 32], m, k % 32)) <= bound
  {
    hide AbsBits, At;
    assert ElementBelow(pages, m, k, bound);
  }

  // ---- the results ----

  /// Every element of a row is converted from its quotient by the row's scale.
  lemma QuantizedRow(input: seq<Word>, plan: Plan, ops: Ops, q: seq<Word>, m: nat) returns (peak: Word, scale: Word)
    requires ValidPlan(plan, |input|) && plan.tiles * 1024 <= |q| && m < plan.rows
    requires TilesCoded(q, input, plan, ops, plan.tiles)
    ensures m < 32 && IsPeak(input, plan.tiles, m, peak) && IsRowScale(ops, peak, scale)
    ensures scale == RowScale(input, plan, ops, m)
    ensures forall t: nat, c: nat :: t < plan.tiles && c < 32 ==>
      Elem(q, t, m, c) == ops.convert(ops.divide(Elem(input, t, m, c), scale))
  {
    hide IsPeak, IsRowScale, Elem, RowMax, RowPages, ScaleOf, Settled, PackOf;
    RowMaxIsPeak(input, plan, m);
    peak := RowMax(RowPages(input, plan), m, plan.tiles * 32);
    scale := ScaleOf(ops, peak);
    ScaleIsRowScale(ops, peak);
    forall t: nat, c: nat | t < plan.tiles && c < 32
      ensures Elem(q, t, m, c) == ops.convert(ops.divide(Elem(input, t, m, c), scale))
    {
      assert IsCode(q, input, plan, ops, t, m, c);
    }
  }

  /// The scale tile's row m is that scale, in every column.
  lemma ScaleRow(input: seq<Word>, plan: Plan, ops: Ops, words: seq<Word>, m: nat, c: nat)
    requires ValidPlan(plan, |input|) && m < plan.rows && c < 32 && (plan.rows < 4 ==> plan.stride == 4)
    requires IsScale(words, ops, RowPages(input, plan), plan.stride, plan.rows)
    ensures |words| == 1024 && m < 32 && Elem(words, 0, m, c) == RowScale(input, plan, ops, m)
  {
    hide Elem, RowMax, RowPages, ScaleOf, FacePlace, IsPeak;
    RowPagesAre(input, plan);
    DataRow(plan, 0, m);
    FirstRows(plan.stride, m);
  }

  lemma FirstRows(stride: nat, m: nat)
    requires IsStride(stride) && m < stride
    ensures DenseRow(stride, 0, m) == m
  {}
}
