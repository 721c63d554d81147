/// 32-bit words as integers: wrap-around sums, exclusive or, rotations and the
/// 64-bit product.
module Words32 {
  import opened RowMajor

  const TWO_32: nat := 0x1_0000_0000

  type Word = w: nat | w < TWO_32

  function Wrap(i: int): Word { i % TWO_32 }

  function Add(a: Word, b: Word): Word { Wrap(a + b) }

  function Sub(a: Word, b: Word): Word { Wrap(a - b) }

  lemma AddSub(a: Word, b: Word)
    ensures Sub(Add(a, b), b) == a
  {
    if a + b >= TWO_32 { DivModUnique(a + b, TWO_32, 1, a + b - TWO_32); }
      else { DivModUnique(a + b, TWO_32, 0, a + b); }
    if Add(a, b) >= b { DivModUnique(Add(a, b) - b, TWO_32, 0, Add(a, b) - b); }
    else { DivModUnique(Add(a, b) - b, TWO_32, -1, Add(a, b) - b + TWO_32); }
  }

  // ---- exclusive or, bit by bit ----

  function Pow2(n: nat): (p: nat)
    ensures p > 0
  {
    if n == 0 then 1 else 2 * Pow2(n - 1)
  }

  /// The exclusive or of the low n bits.
  function XorBits(a: nat, b: nat, n: nat): nat {
    if n == 0 then 0 else 2 * XorBits(a / 2, b / 2, n - 1) + (if a % 2 == b % 2 then 0 else 1)
  }

  lemma {:induction false} XorBound(a: nat, b: nat, n: nat)
    ensures XorBits(a, b, n) < Pow2(n)
  {
    if n > 0 { XorBound(a / 2, b / 2, n - 1); }
  }

  lemma {:induction false} XorTwice(a: nat, b: nat, n: nat)
    requires a < Pow2(n)
    ensures XorBits(XorBits(a, b, n), b, n) == a
  {
    if n > 0 {
      XorTwice(a / 2, b / 2, n - 1);
      var bit := if a % 2 == b % 2 then 0 else 1;
      var x := XorBits(a / 2, b / 2, n - 1);
      assert XorBits(a, b, n) / 2 == x && XorBits(a, b, n) % 2 == bit;
    }
  }

  lemma Pow32()
    ensures Pow2(32) == TWO_32
  {
    assert Pow2(8) == 256;
    assert Pow2(16) == 65536;
    assert Pow2(24) == 0x100_0000;
  }

  function Xor(a: Word, b: Word): (x: Word) {
    XorBound(a, b, 32);
    Pow32();
    XorBits(a, b, 32)
  }

  lemma XorBack(a: Word, b: Word)
    ensures Xor(Xor(a, b), b) == a
  {
    Pow32();
    XorTwice(a, b, 32);
  }

  // ---- rotations ----

  /// The low part of x moved up, the part above `high` moved down.
  function Turned(x: nat, high: nat, low: nat): (y: nat)
    requires high > 0 && x < low * high
    ensures y < low * high
  {
    RotatedBound(x, high, low);
    (x % high) * low + x / high
  }

  /// (x << r) | (x >> (32 - r)): the two have no bit in common, so or is the sum.
  function RotateLeft(x: Word, r: nat): (y: Word)
    requires 0 < r < 32
  {
    Split(r);
    Turned(x, Pow2(32 - r), Pow2(r))
  }

  lemma Split(r: nat)
    requires r <= 32
    ensures Pow2(r) * Pow2(32 - r) == TWO_32
  {
    Pow32();
    PowAdd(r, 32 - r);
  }

  lemma {:induction false} PowAdd(a: nat, b: nat)
    ensures Pow2(a) * Pow2(b) == Pow2(a + b)
  {
    if a > 0 {
      PowAdd(a - 1, b);
      MulAssoc(2, Pow2(a - 1), Pow2(b));
    }
  }

  /// The quotient below the remainder's place fits in a word.
  lemma RotatedBound(x: nat, high: nat, low: nat)
    requires high > 0 && x < low * high
    ensures x / high < low && (x % high) * low + x / high < low * high
  {
    PositiveFactors(low, high, x);
    DivMod(x, high);
    MulStrict(x % high, high, low);
  }

  /// Shifting left drops the bits that the rotation brings back in.
  lemma ShiftsOfRotation(x: Word, r: nat)
    requires 0 < r < 32
    ensures RotateLeft(x, r) == Wrap(x * Pow2(r)) + x / Pow2(32 - r)
  {
    hide Pow2;
    Split(r);
    ShiftedWord(x, Pow2(32 - r), Pow2(r), TWO_32);
  }

  lemma ShiftedWord(x: nat, high: nat, low: nat, all: nat)
    requires high > 0 && low > 0 && low * high == all && x < all
    ensures Turned(x, high, low) == x * low % all + x / high
  {
    DivMod(x, high);
    MulDistribute(x / high * high, x % high, low);
    MulAssoc(x / high, high, low);
    MulStrict(x % high, high, low);
    DivModUnique(x * low, all, x / high, x % high * low);
  }

  /// Rotating on by the rest of the word gives it back.
  lemma RotateBack(x: Word, r: nat)
    requires 0 < r < 32
    ensures RotateLeft(RotateLeft(x, r), 32 - r) == x
  {
    hide Pow2, Turned;
    Split(r);
    TurnedBack(x, Pow2(32 - r), Pow2(r));
  }

  lemma TurnedBack(x: nat, high: nat, low: nat)
    requires high > 0 && low > 0 && x < low * high && low * high == high * low
    ensures Turned(Turned(x, high, low), low, high) == x
  {
    RotatedBound(x, high, low);
    DivMod(x, high);
    DivModUnique(Turned(x, high, low), low, x % high, x / high);
  }
}
