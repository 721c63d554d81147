/// RMS norm and rotary embedding of a head's row, step by step as the fused
/// kernel takes them, over any arithmetic that treats zeros, infinities and NaNs
/// as floating point does; and what they make of a row of zeros.
module QkvNorm {
  import opened VectorUnit
  import opened QkvUnits
  import opened QkvWriter

  // ---- single-precision words ----

  predicate Finite(w: Word) { w & 0x7F80_0000 != 0x7F80_0000 }

  predicate NotNegative(w: Word) { w & 0x8000_0000 == 0 }

  predicate IsNan(w: Word) { !Finite(w) && w & 0x007F_FFFF != 0 }

  /// BF16 has the upper half of a word's bits.
  function UpperHalf(w: Word): Word { w & 0xFFFF_0000 }

  /// Zero of either sign; where subnormal numbers are flushed, one of those too.
  predicate ReadsZero(w: Word, flushes: bool) { if flushes then w & 0x7F80_0000 == 0 else w & 0x7FFF_FFFF == 0 }

  predicate ReadsPositive(w: Word, flushes: bool) { NotNegative(w) && !IsNan(w) && !ReadsZero(w, flushes) }

  /// The operations a step rounds in; `pack` stores a word as BF16.
  /// With `flushes`, subnormal numbers read as zero.
  datatype Arithmetic = Arithmetic(
    mul: (Word, Word) -> Word, add: (Word, Word) -> Word, sub: (Word, Word) -> Word,
    mean: seq<Word> -> Word, rsqrt: Word -> Word, pack: Word -> Word, flushes: bool)
  {
    predicate Zero(w: Word) { ReadsZero(w, flushes) }

    predicate Positive(w: Word) { ReadsPositive(w, flushes) }

    predicate AllZero(row: seq<Word>) { forall d :: 0 <= d < |row| ==> Zero(row[d]) }

    /// Zero times a finite number is zero; times an infinity or a NaN it is a NaN.
    ghost predicate Multiplies() {
      forall x: Word, y: Word ::
        && (Zero(x) ==> if Finite(y) then Zero(mul(x, y)) else !Finite(mul(x, y)))
        && (!Finite(x) ==> !Finite(mul(x, y)))
    }

    /// Zeros add up to zero, zero changes no other number, and what is not finite stays so.
    ghost predicate Adds() {
      forall x: Word, y: Word ::
        && (Zero(x) && Zero(y) ==> Zero(add(x, y)) && Zero(sub(x, y)))
        && (Zero(x) && !Zero(y) ==> if IsNan(y) then IsNan(add(x, y)) else add(x, y) == y)
        && (!Finite(x) || !Finite(y) ==> !Finite(add(x, y)) && !Finite(sub(x, y)))
    }

    /// The reciprocal root of zero is infinite, of a negative number or a NaN it is a NaN.
    ghost predicate TakesRoots() { forall x: Word :: Finite(rsqrt(x)) <==> Positive(x) }

    ghost predicate Packs() {
      forall x: Word :: (Zero(x) ==> Zero(pack(x))) && (!Finite(x) ==> !Finite(pack(x)))
    }

    ghost predicate Averages() { forall row: seq<Word> :: AllZero(row) ==> Zero(mean(row)) }

    ghost predicate Sound() { Multiplies() && Adds() && TakesRoots() && Packs() && Averages() }
  }

  lemma ZeroIsFinite(a: Arithmetic, w: Word)
    requires a.Zero(w)
    ensures Finite(w)
  {}

  // ---- norm and rotation ----

  /// The norm weights of q and k heads, the tables of rotation angles, by row and
  /// by element, and the tiles in half of the rotated part.
  datatype Params = Params(epsilon: Word, weight: (Kind, nat) -> Word, cos: (nat, nat) -> Word, sin: (nat, nat) -> Word,
                           anglesPerToken: bool, half: nat)
  {
    /// Elements that are rotated.
    function Rotary(): nat { half * 64 }

    function AngleRow(b: nat): nat { if anglesPerToken then b else 0 }
  }

  function Squares(a: Arithmetic, row: seq<Word>): (r: seq<Word>)
    ensures |r| == |row| && forall d :: 0 <= d < |r| ==> r[d] == a.mul(row[d], row[d])
  {
    seq(|row|, d requires 0 <= d < |row| => a.mul(row[d], row[d]))
  }

  /// One over the root of the mean square; epsilon keeps only what BF16 holds of it.
  function Scale(a: Arithmetic, p: Params, row: seq<Word>): Word {
    a.rsqrt(a.add(a.mean(Squares(a, row)), UpperHalf(p.epsilon)))
  }

  function Normed(a: Arithmetic, p: Params, kind: Kind, row: seq<Word>, d: nat): Word
    requires d < |row|
  {
    a.pack(a.mul(a.mul(row[d], Scale(a, p, row)), p.weight(kind, d)))
  }

  /// The element that the rotation pairs d with: the same of the other half.
  function Partner(p: Params, d: nat): (e: nat)
    requires d < p.Rotary()
    ensures e < p.Rotary()
  {
    if d < p.half * 32 then d + p.half * 32 else d - p.half * 32
  }

  /// An element turned by its angle, from its own and its partner's normed values.
  function Turned(a: Arithmetic, x: Word, y: Word, cos: Word, sin: Word, first: bool): Word {
    var own, other := a.pack(a.mul(x, cos)), a.pack(a.mul(y, sin));
    a.pack(if first then a.sub(own, other) else a.add(own, other))
  }

  function Element(a: Arithmetic, p: Params, kind: Kind, b: nat, row: seq<Word>, d: nat): Word
    requires d < |row| && p.Rotary() <= |row|
  {
    var x := Normed(a, p, kind, row, d);
    if d < p.Rotary() then
      Turned(a, x, Normed(a, p, kind, row, Partner(p, d)), p.cos(p.AngleRow(b), d), p.sin(p.AngleRow(b), d),
        d < p.half * 32)
    else x
  }

  /// What the kernel makes of a head's row; a row too short to rotate is left.
  function NormedRow(a: Arithmetic, p: Params, kind: Kind, b: nat, row: seq<Word>): (r: seq<Word>)
    ensures |r| == |row|
  {
    if p.Rotary() > |row| then row
    else seq(|row|, d requires 0 <= d < |row| => Element(a, p, kind, b, row, d))
  }

  function NormAndRotate(a: Arithmetic, p: Params): (f: Transform)
    ensures forall n: nat :: KeepsLength(f, n)
  {
    (kind: Kind, b: nat, row: seq<Word>) => NormedRow(a, p, kind, b, row)
  }

  // ---- the rotation by halves ----

  /// Of the rotated part's halves x and y, the first becomes x cos - y sin and the
  /// second y cos + x sin, each element under the angles of its own place; the
  /// rest of the row stays as the norm left it.
  lemma RotatedByHalves(a: Arithmetic, p: Params, kind: Kind, b: nat, row: seq<Word>, normed: seq<Word>, d: nat)
    requires kind != V && p.Rotary() <= |row| == |normed|
    requires forall e :: 0 <= e < |row| ==> normed[e] == Normed(a, p, kind, row, e)
    ensures d < 32 * p.half ==>
      var x, y, t := normed[..32 * p.half], normed[32 * p.half..64 * p.half], if p.anglesPerToken then b else 0;
      && NormedRow(a, p, kind, b, row)[d]
         == a.pack(a.sub(a.pack(a.mul(x[d], p.cos(t, d))), a.pack(a.mul(y[d], p.sin(t, d)))))
      && NormedRow(a, p, kind, b, row)[32 * p.half + d]
         == a.pack(a.add(a.pack(a.mul(y[d], p.cos(t, 32 * p.half + d))),
           a.pack(a.mul(x[d], p.sin(t, 32 * p.half + d)))))
    ensures 64 * p.half <= d < |row| ==> NormedRow(a, p, kind, b, row)[d] == normed[d]
  {
    hide Normed;
  }

  /// The norm: every element over the root of the mean square of the row plus
  /// epsilon, times its weight.
  lemma NormedIs(a: Arithmetic, p: Params, kind: Kind, row: seq<Word>, squares: seq<Word>, d: nat)
    requires d < |row| == |squares| && forall e :: 0 <= e < |row| ==> squares[e] == a.mul(row[e], row[e])
    ensures Normed(a, p, kind, row, d)
         == a.pack(a.mul(a.mul(row[d], a.rsqrt(a.add(a.mean(squares), p.epsilon & 0xFFFF_0000))), p.weight(kind, d)))
  {
    assert squares == Squares(a, row);
  }

  // ---- the kernel's loops, over a head's row in tiles of 32 elements ----

  /// A row's tile.
  function TileOf(row: seq<Word>, j: nat): (t: seq<Word>)
    requires (j + 1) * 32 <= |row|
    ensures |t| == 32 && forall c :: 0 <= c < 32 ==> t[c] == row[j * 32 + c]
  {
    row[j * 32..j * 32 + 32]
  }

  method SquareTiles(a: Arithmetic, row: seq<Word>, tiles: nat) returns (sq: seq<Word>)
    requires |row| == tiles * 32
    ensures sq == Squares(a, row)
  {
    sq := [];
    var j := 0;
    while j < tiles
      invariant 0 <= j <= tiles && |sq| == j * 32 && forall d :: 0 <= d < j * 32 ==> sq[d] == a.mul(row[d], row[d])
    {
      var x := TileOf(row, j);
      sq := sq + seq(32, c requires 0 <= c < 32 => a.mul(x[c], x[c]));
      j := j + 1;
    }
  }

  method NormTiles(a: Arithmetic, p: Params, kind: Kind, row: seq<Word>, tiles: nat) returns (normed: seq<Word>)
    requires |row| == tiles * 32
    ensures |normed| == |row| && forall d :: 0 <= d < |row| ==> normed[d] == Normed(a, p, kind, row, d)
  {
    hide Squares, UpperHalf;
    var sq := SquareTiles(a, row, tiles);
    var rstd := a.rsqrt(a.add(a.mean(sq), UpperHalf(p.epsilon)));
    var scaled: seq<Word> := [];
    var j := 0;
    while j < tiles
      invariant 0 <= j <= tiles && |scaled| == j * 32 && forall d :: 0 <= d < j * 32 ==>
        scaled[d] == a.mul(row[d], rstd)
    {
      var x := TileOf(row, j);
      scaled := scaled + seq(32, c requires 0 <= c < 32 => a.mul(x[c], rstd));
      j := j + 1;
    }
    normed := [];
    j := 0;
    while j < tiles
      invariant 0 <= j <= tiles && |normed| == j * 32
      invariant forall d :: 0 <= d < j * 32 ==> normed[d] == a.pack(a.mul(scaled[d], p.weight(kind, d)))
    {
      var x := TileOf(scaled, j);
      normed := normed + seq(32, c requires 0 <= c < 32 => a.pack(a.mul(x[c], p.weight(kind, j * 32 + c))));
      j := j + 1;
    }
  }

  /// Tile by tile, the tile of the other half with the sines and the tile itself
  /// with the cosines; the tiles past the rotated ones are copied.
  method RotateTiles(a: Arithmetic, p: Params, b: nat, normed: seq<Word>, tiles: nat) returns (out: seq<Word>)
    requires |normed| == tiles * 32 && 2 * p.half <= tiles
    ensures |out| == |normed| && forall d :: 0 <= d < |out| ==>
      out[d] == if d < p.Rotary() then
                  Turned(a, normed[d], normed[Partner(p, d)], p.cos(p.AngleRow(b), d), p.sin(p.AngleRow(b), d),
                         d < p.half * 32)
                else normed[d]
  {
    hide Turned;
    out := [];
    var j := 0;
    while j < 2 * p.half
      invariant 0 <= j <= 2 * p.half && |out| == j * 32
      invariant forall d :: 0 <= d < j * 32 ==>
        out[d] == Turned(a, normed[d], normed[Partner(p, d)], p.cos(p.AngleRow(b), d), p.sin(p.AngleRow(b), d),
                         d < p.half * 32)
    {
      var tile := RotateTile(a, p, b, normed, tiles, j);
      out := out + tile;
      j := j + 1;
    }
    while j < tiles
      invariant 2 * p.half <= j <= tiles && |out| == j * 32
      invariant forall d :: 0 <= d < j * 32 ==>
        out[d] == if d < p.Rotary() then
                    Turned(a, normed[d], normed[Partner(p, d)], p.cos(p.AngleRow(b), d), p.sin(p.AngleRow(b), d),
                           d < p.half * 32)
                  else normed[d]
    {
      out := out + TileOf(normed, j);
      j := j + 1;
    }
  }

  method RotateTile(a: Arithmetic, p: Params, b: nat, normed: seq<Word>, tiles: nat, j: nat) returns (out: seq<Word>)
    requires |normed| == tiles * 32 && 2 * p.half <= tiles && j < 2 * p.half
    ensures |out| == 32 && forall c :: 0 <= c < 32 ==>
      out[c] == Turned(a, normed[j * 32 + c], normed[Partner(p, j * 32 + c)], p.cos(p.AngleRow(b), j * 32 + c),
                       p.sin(p.AngleRow(b), j * 32 + c), j * 32 + c < p.half * 32)
  {
    var own, other := TileOf(normed, j), TileOf(normed, if j < p.half then j + p.half else j - p.half);
    var t := p.AngleRow(b);
    var sinPart := seq(32, c requires 0 <= c < 32 => a.pack(a.mul(other[c], p.sin(t, j * 32 + c))));
    var cosPart := seq(32, c requires 0 <= c < 32 => a.pack(a.mul(own[c], p.cos(t, j * 32 + c))));
    if j < p.half {
      out := seq(32, c requires 0 <= c < 32 => a.pack(a.sub(cosPart[c], sinPart[c])));
    } else {
      out := seq(32, c requires 0 <= c < 32 => a.pack(a.add(cosPart[c], sinPart[c])));
    }
  }

  /// The kernel's steps make the row.
  method ComputeRow(a: Arithmetic, p: Params, kind: Kind, b: nat, row: seq<Word>, tiles: nat) returns (out: seq<Word>)
    requires |row| == tiles * 32 && 2 * p.half <= tiles && kind != V
    ensures out == NormedRow(a, p, kind, b, row)
  {
    hide Normed, Turned;
    var normed := NormTiles(a, p, kind, row, tiles);
    out := RotateTiles(a, p, b, normed, tiles);
  }

  // ---- a row of zeros ----

  /// What a caller can check: epsilon is positive once it is BF16, and the
  /// weights and angles the row meets are finite.
  ghost predicate KeepsZero(a: Arithmetic, p: Params, kind: Kind, b: nat, n: nat) {
    && a.Positive(UpperHalf(p.epsilon))
    && (forall d: nat :: d < n ==> Finite(p.weight(kind, d)))
    && (forall d: nat :: d < p.Rotary() ==> Finite(p.cos(p.AngleRow(b), d)) && Finite(p.sin(p.AngleRow(b), d)))
  }

  /// A value a row of zeros goes through: zero, or else not finite.
  predicate ZeroOrNot(a: Arithmetic, w: Word, zero: bool) { if zero then a.Zero(w) else !Finite(w) }

  lemma ZeroScale(a: Arithmetic, p: Params, row: seq<Word>)
    requires a.Sound() && a.AllZero(row)
    ensures Finite(Scale(a, p, row)) <==> a.Positive(UpperHalf(p.epsilon))
  {
    hide Finite, UpperHalf, NotNegative, IsNan, ReadsZero;
    forall d | 0 <= d < |row| ensures a.Zero(Squares(a, row)[d]) { ZeroIsFinite(a, row[d]); }
    assert a.AllZero(Squares(a, row));
  }

  lemma ZeroNormed(a: Arithmetic, p: Params, kind: Kind, row: seq<Word>, d: nat)
    requires a.Sound() && a.AllZero(row) && d < |row|
    ensures ZeroOrNot(a, Normed(a, p, kind, row, d), a.Positive(UpperHalf(p.epsilon)) && Finite(p.weight(kind, d)))
  {
    hide Finite, UpperHalf, Arithmetic.Positive, Arithmetic.Zero, Scale;
    ZeroScale(a, p, row);
    var x, w := a.mul(row[d], Scale(a, p, row)), p.weight(kind, d);
    assert ZeroOrNot(a, x, a.Positive(UpperHalf(p.epsilon)));
    assert ZeroOrNot(a, a.mul(x, w), a.Positive(UpperHalf(p.epsilon)) && Finite(w));
  }

  lemma ZeroTurned(a: Arithmetic, x: Word, y: Word, cos: Word, sin: Word, first: bool, zeroX: bool, zeroY: bool)
    requires a.Sound() && ZeroOrNot(a, x, zeroX) && ZeroOrNot(a, y, zeroY)
    ensures ZeroOrNot(a, Turned(a, x, y, cos, sin, first), zeroX && zeroY && Finite(cos) && Finite(sin))
  {
    hide Finite, Arithmetic.Zero;
  }

  /// A row of zeros stays one exactly when epsilon, weights and angles allow it.
  lemma ZeroRowKept(a: Arithmetic, p: Params, kind: Kind, b: nat, row: seq<Word>)
    requires a.Sound() && a.AllZero(row) && 0 < |row| && p.Rotary() <= |row|
    ensures a.AllZero(NormedRow(a, p, kind, b, row)) <==> KeepsZero(a, p, kind, b, |row|)
    ensures !a.Positive(UpperHalf(p.epsilon)) ==> forall d :: 0 <= d < |row| ==>
      !Finite(NormedRow(a, p, kind, b, row)[d])
  {
    hide Finite, UpperHalf, Arithmetic.Positive, Arithmetic.Zero, Arithmetic.Sound, Normed, Turned;
    var out, positive := NormedRow(a, p, kind, b, row), a.Positive(UpperHalf(p.epsilon));
    forall d: nat | d < |row|
      ensures ZeroOrNot(a, out[d], positive && Finite(p.weight(kind, d)) && (d < p.Rotary() ==>
        && Finite(p.weight(kind, Partner(p, d))) && Finite(p.cos(p.AngleRow(b), d)) && Finite(p.sin(p.AngleRow(b), d))))
      ensures a.Zero(out[d]) ==> Finite(out[d])
    {
      ZeroNormed(a, p, kind, row, d);
      if a.Zero(out[d]) { ZeroIsFinite(a, out[d]); }
      if d < p.Rotary() {
        var e := Partner(p, d);
        ZeroNormed(a, p, kind, row, e);
        ZeroTurned(a, Normed(a, p, kind, row, d), Normed(a, p, kind, row, e), p.cos(p.AngleRow(b), d),
          p.sin(p.AngleRow(b), d),
          d < p.half * 32, positive && Finite(p.weight(kind, d)), positive && Finite(p.weight(kind, e)));
      }
    }
    if a.AllZero(out) {
      assert a.Zero(out[0]);
      forall d: nat | d < |row| ensures Finite(p.weight(kind, d)) { assert a.Zero(out[d]); }
      forall d: nat | d < p.Rotary() ensures Finite(p.cos(p.AngleRow(b), d)) && Finite(p.sin(p.AngleRow(b), d)) {
        assert a.Zero(out[d]);
      }
    }
  }

  // ---- an epsilon that is lost ----

  /// Positive, and zero in BF16.
  const TINY: Word := 0x0000_FFFF

  /// A positive epsilon below BF16's numbers: a row of zeros becomes a row of NaNs
  /// and infinities, whatever the weights and angles.
  lemma TinyEpsilonFails(a: Arithmetic, p: Params, kind: Kind, b: nat, row: seq<Word>)
    requires a.Sound() && a.AllZero(row) && 0 < |row| && p.Rotary() <= |row| && p.epsilon == TINY
    ensures NotNegative(p.epsilon) && !IsNan(p.epsilon) && p.epsilon != 0
    ensures forall d :: 0 <= d < |row| ==> !Finite(NormedRow(a, p, kind, b, row)[d])
  {
    TinyIsLost(a);
    ZeroRowKept(a, p, kind, b, row);
  }

  lemma TinyIsLost(a: Arithmetic)
    ensures UpperHalf(TINY) == 0 && !a.Positive(UpperHalf(TINY))
  {}

  const ONE: Word := 0x3F80_0000
  const NAN: Word := 0x7FC0_0000

  /// One arithmetic among those: the laws contradict nothing.
  function Crude(flushes: bool): Arithmetic {
    Arithmetic(
      (x, y) => if Finite(x) && Finite(y) then 0 else NAN,
      (x, y) => if IsNan(x) || IsNan(y) then NAN else if ReadsZero(x, flushes) || !Finite(y) then y else x,
      (x, y) => if !Finite(x) || !Finite(y) then NAN else 0,
      row => 0,
      x => if ReadsPositive(x, flushes) then ONE else NAN,
      x => x,
      flushes)
  }

  lemma CrudeIsSound(flushes: bool)
    ensures Crude(flushes).Sound()
  {
    CrudeWords(flushes);
    hide Finite, IsNan, ReadsZero, ReadsPositive;
  }

  /// An input that fails: weights and cosines of one, sines of zero, and a tiny epsilon.
  lemma PaddingFails(kind: Kind, b: nat, row: seq<Word>)
    requires |row| == 64 && forall d :: 0 <= d < 64 ==> row[d] == ZERO
    ensures
      var a, p := Crude(false), Params(TINY, (k, d) => ONE, (t, d) => ONE, (t, d) => ZERO, false, 1);
      a.Sound() && !a.AllZero(NormedRow(a, p, kind, b, row))
  {
    hide Finite;
    var a, p := Crude(false), Params(TINY, (k, d) => ONE, (t, d) => ONE, (t, d) => ZERO, false, 1);
    CrudeIsSound(false);
    CrudeWords(false);
    TinyEpsilonFails(a, p, kind, b, row);
    if a.Zero(NormedRow(a, p, kind, b, row)[0]) { ZeroIsFinite(a, NormedRow(a, p, kind, b, row)[0]); }
  }

  lemma CrudeWords(flushes: bool)
    ensures ReadsZero(0, flushes) && Finite(0) && Finite(ONE) && !Finite(NAN) && IsNan(NAN)
    ensures forall x: Word :: (IsNan(x) ==> !Finite(x)) && (ReadsZero(x, flushes) ==> Finite(x))
  {}
}
