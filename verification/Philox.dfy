/// Philox-4x32 with 10 rounds: the exact 64-bit product from 23-bit halves, and
/// the rounds with the counter words renamed instead of moved.
module Philox {
  import opened RowMajor
  import opened Words32

  const TWO_23: nat := 0x80_0000
  const TWO_9: nat := 512
  const TWO_14: nat := 16384

  const M0: Word := 0xD251_1F53
  const M1: Word := 0xCD9E_8D57
  const BUMP0: Word := 0x9E37_79B9
  const BUMP1: Word := 0xBB67_AE85

  // ---- the product of two words ----

  /// The unit multiplies the low 23 bits of its operands and returns one 23-bit half.
  function Low23(a: Word): (n: nat)
    ensures n < TWO_23
  {
    a % TWO_23
  }

  function MulLow(a: Word, b: Word): (w: Word)
    ensures w < TWO_23
  {
    Low23(a) * Low23(b) % TWO_23
  }

  function MulHigh(a: Word, b: Word): (w: Word)
    ensures w < TWO_23
  {
    ProductHigh(Low23(a), Low23(b));
    Low23(a) * Low23(b) / TWO_23
  }

  lemma ProductHigh(a: nat, b: nat)
    requires a < TWO_23 && b < TWO_23
    ensures 0 <= a * b / TWO_23 < TWO_23
  {
    MulMonotone(a, TWO_23, b);
    DivMod(a * b, TWO_23);
  }

  lemma Halves(a: Word, b: Word)
    ensures Low23(a) * Low23(b) == MulHigh(a, b) * TWO_23 + MulLow(a, b)
  {
    DivMod(Low23(a) * Low23(b), TWO_23);
  }

  /// A word's bits above the low 23.
  function High9(a: Word): (n: Word)
    ensures n < TWO_9
  {
    a / TWO_23
  }

  lemma WordParts(a: Word)
    ensures a == High9(a) * TWO_23 + Low23(a) && Low23(High9(a)) == High9(a)
  {
    DivMod(a, TWO_23);
    DivModUnique(High9(a), TWO_23, 0, High9(a));
  }

  function ShiftLeft(a: Word, factor: nat): Word
    requires factor > 0
  {
    Wrap(a * factor)
  }

  /// The high and the low word of x * multiplier, from shared partial products.
  method MulHiLo(x: Word, multiplier: Word) returns (hi: Word, lo: Word)
    ensures hi as int * TWO_32 + lo == x * multiplier
  {
    hide MulLow, MulHigh, Low23, High9, Add, ShiftLeft;
    var y := multiplier;
    var xh, yh := High9(x), High9(multiplier);
    TopIsSmall(x, y);
    var middle: Word := MulHigh(x, y);
    AddExact(middle, MulLow(xh, y));
    middle := Add(middle, MulLow(xh, y));
    AddExact(middle, MulLow(x, yh));
    middle := Add(middle, MulLow(x, yh));
    hi := MulLow(xh, yh);
    AddExact(hi, MulHigh(xh, y));
    hi := Add(hi, MulHigh(xh, y));
    AddExact(hi, MulHigh(x, yh));
    hi := Add(hi, MulHigh(x, yh));
    ghost var sum: nat, p: nat := hi, x * y;
    PartialProducts(x, y, middle, sum);
    HighBound(x, y);
    HighWord(p, sum, middle, MulLow(x, y));
    ShiftsExact(sum, middle);
    AddExact(ShiftLeft(hi, TWO_14), middle / TWO_9);
    hi := Add(ShiftLeft(hi, TWO_14), middle / TWO_9);
    AddExact(MulLow(x, y), ShiftLeft(middle, TWO_23));
    lo := Add(MulLow(x, y), ShiftLeft(middle, TWO_23));
  }

  lemma AddExact(a: Word, b: Word)
    ensures a + b < TWO_32 ==> Add(a, b) == a + b
  {}

  lemma ShiftsExact(sum: Word, middle: Word)
    ensures sum * TWO_14 < TWO_32 ==> ShiftLeft(sum, TWO_14) == sum * TWO_14
    ensures ShiftLeft(middle, TWO_23) == Wrap(middle * TWO_23)
    ensures 0 <= middle / TWO_9 <= middle
  {}

  /// The product of the high parts needs no more than 18 bits.
  lemma TopIsSmall(x: Word, y: Word)
    ensures MulLow(High9(x), High9(y)) == High9(x) * High9(y) <= 511 * 511
    ensures MulHigh(High9(x), y) < TWO_9 && MulHigh(x, High9(y)) < TWO_9
  {
    WordParts(x);
    WordParts(y);
    MulMonotone(High9(x), 511, High9(y));
    MulMonotone(High9(y), 511, 511);
    DivModUnique(High9(x) * High9(y), TWO_23, 0, High9(x) * High9(y));
    SmallHigh(High9(x), Low23(y));
    SmallHigh(High9(y), Low23(x));
  }

  lemma SmallHigh(a: nat, b: nat)
    requires a < TWO_9 && b < TWO_23
    ensures a * b / TWO_23 < TWO_9 && b * a / TWO_23 < TWO_9
  {
    MulMonotone(a, 511, b);
    DivMod(a * b, TWO_23);
  }

  /// x * y by its parts, gathered at bits 0, 23 and 46.
  lemma PartialProducts(x: Word, y: Word, middle: nat, sum: nat)
    requires middle == MulHigh(x, y) + MulLow(High9(x), y) + MulLow(x, High9(y))
    requires sum == High9(x) * High9(y) + MulHigh(High9(x), y) + MulHigh(x, High9(y))
    ensures x * y == sum * (TWO_23 * TWO_23) + middle * TWO_23 + MulLow(x, y)
  {
    hide MulLow, MulHigh, Low23, High9;
    WordParts(x);
    WordParts(y);
    Halves(x, y);
    Halves(High9(x), y);
    Halves(x, High9(y));
    ProductOfParts(x, y, High9(x), Low23(x), High9(y), Low23(y), TWO_23);
    var t := TWO_23 * TWO_23;
    assert High9(x) * High9(y) * t + (High9(x) * Low23(y) + Low23(x) * High9(y)) * TWO_23 + Low23(x) * Low23(y)
        == sum * t + middle * TWO_23 + MulLow(x, y);
  }

  lemma ProductOfParts(x: nat, y: nat, a: nat, b: nat, c: nat, d: nat, t: nat)
    requires x == a * t + b && y == c * t + d
    ensures x * y == a * c * (t * t) + (a * d + b * c) * t + b * d
  {
    MulDistribute(a * t, b, y);
    assert a * t * y == a * c * (t * t) + a * d * t by {
      assert a * t * (c * t + d) == a * t * (c * t) + a * t * d;
      MulAssoc(a * t, c, t);
      assert a * t * c == a * c * t;
      MulAssoc(a * c, t, t);
      assert a * t * d == a * d * t;
    }
    assert b * y == b * c * t + b * d by {
      assert b * (c * t + d) == b * (c * t) + b * d;
      MulAssoc(b, c, t);
    }
    MulDistribute(a * d, b * c, t);
  }

  /// Bits 32 and up, and the 32 below, of a number in those parts.
  lemma HighWord(p: nat, sum: nat, middle: nat, low: nat)
    requires p == sum * (TWO_23 * TWO_23) + middle * TWO_23 + low
    requires p < TWO_32 * TWO_32 && low < TWO_23 && middle < 3 * TWO_23
    ensures Wrap(middle * TWO_23) == middle % TWO_9 * TWO_23
    ensures middle % TWO_9 * TWO_23 + low < TWO_32
    ensures sum * TWO_14 + middle / TWO_9 < TWO_32
    ensures p == (sum * TWO_14 + middle / TWO_9) * TWO_32 + (middle % TWO_9 * TWO_23 + low)
  {
    DivMod(middle, TWO_9);
    var q, r := middle / TWO_9, middle % TWO_9;
    assert middle * TWO_23 == q * TWO_32 + r * TWO_23;
    DivModUnique(middle * TWO_23, TWO_32, q, r * TWO_23);
    assert sum * (TWO_23 * TWO_23) == sum * TWO_14 * TWO_32;
  }

  // ---- the rounds ----

  function High(x: Word, multiplier: Word): Word {
    HighBound(x, multiplier);
    x * multiplier / TWO_32
  }

  function Low(x: Word, multiplier: Word): Word { Wrap(x * multiplier) }

  lemma HighBound(x: Word, multiplier: Word)
    ensures 0 <= x * multiplier / TWO_32 < TWO_32 && x * multiplier < TWO_32 * TWO_32
  {
    MulMonotone(x, TWO_32, multiplier);
    MulMonotone(multiplier, TWO_32, TWO_32);
    DivMod(x * multiplier, TWO_32);
  }

  lemma HiLoAre(x: Word, multiplier: Word, hi: Word, lo: Word)
    requires hi as int * TWO_32 + lo == x * multiplier
    ensures hi == High(x, multiplier) && lo == Low(x, multiplier)
  {
    DivModUnique(x * multiplier, TWO_32, hi, lo);
  }

  datatype Counter = Counter(x0: Word, x1: Word, x2: Word, x3: Word)

  datatype Key = Key(k0: Word, k1: Word)

  function Round(x: Counter, k: Key): Counter {
    Counter(Xor(Xor(High(x.x2, M1), x.x1), k.k0), Low(x.x2, M1), Xor(Xor(High(x.x0, M0), x.x3), k.k1), Low(x.x0, M0))
  }

  function Bumped(k: Key): Key { Key(Add(k.k0, BUMP0), Add(k.k1, BUMP1)) }

  function Bumps(k: Key, n: nat): Key { if n == 0 then k else Bumped(Bumps(k, n - 1)) }

  /// The first n rounds; the key is bumped between rounds.
  function Rounds(x: Counter, k: Key, n: nat): Counter {
    if n == 0 then x else Round(Rounds(x, k, n - 1), Bumps(k, n - 1))
  }

  /// Philox-4x32-10.
  function Philox10(k: Key, x: Counter): Counter { Rounds(x, k, 10) }

  // ---- the kernel's rounds, one element's four words at a time ----

  /// Word n of the counter in the renamed registers.
  ghost predicate Holds(words: seq<Word>, names: seq<nat>, x: Counter) {
    && |words| == 4 && |names| == 4 && (forall i :: 0 <= i < 4 ==> names[i] < 4)
    && (forall i, j :: 0 <= i < j < 4 ==> names[i] != names[j])
    && words[names[0]] == x.x0 && words[names[1]] == x.x1 && words[names[2]] == x.x2 && words[names[3]] == x.x3
  }

  /// One half of a round: one word's product, its high half mixed into another.
  function HalfRound(words: seq<Word>, multiplier: Word, last: bool, word: nat, other: nat,
                     key: Word): (after: seq<Word>)
    requires |words| == 4 && word < 4 && other < 4 && word != other
    ensures |after| == 4
  {
    var product := if last then words else words[word := Low(words[word], multiplier)];
    product[other := Xor(Xor(High(words[word], multiplier), words[other]), key)]
  }

  /// Two halves and a renaming are a round.
  lemma HalvesMakeRound(words: seq<Word>, names: seq<nat>, x: Counter, k: Key)
    requires Holds(words, names, x)
    ensures Holds(HalfRound(HalfRound(words, M0, false, names[0], names[3], k.k1), M1, false, names[2], names[1], k.k0),
                  [names[1], names[2], names[3], names[0]], Round(x, k))
  {
    hide Xor, High, Low;
  }

  /// The second half alone gives the round's first word.
  lemma HalfMakesFirst(words: seq<Word>, names: seq<nat>, x: Counter, k: Key)
    requires Holds(words, names, x)
    ensures HalfRound(words, M1, true, names[2], names[1], k.k0)[names[1]] == Round(x, k).x0
  {
    hide Xor, High, Low;
  }

  lemma NextRound(x: Counter, k: Key, n: nat)
    ensures Rounds(x, k, 0) == x && Bumps(k, 0) == k
    ensures Rounds(x, k, n + 1) == Round(Rounds(x, k, n), Bumps(k, n)) && Bumps(k, n + 1) == Bumped(Bumps(k, n))
  {
    hide Round, Bumped;
  }

  lemma TenRounds(x: Counter, k: Key)
    ensures Philox10(k, x) == Round(Rounds(x, k, 9), Bumps(k, 9))
  {
    hide Round, Bumped;
    NextRound(x, k, 9);
  }
}
