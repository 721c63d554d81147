/// The exclusive or of words as integers is that of their bytes.
module XorOfBytes {
  import opened RowMajor
  import opened Words32

  /// A word of four bytes, the highest first.
  function Joined(a: bv8, b: bv8, c: bv8, d: bv8): (w: Word) {
    NumberBound(a);
    NumberBound(b);
    NumberBound(c);
    NumberBound(d);
    ((Number(a) * 256 + Number(b)) * 256 + Number(c)) * 256 + Number(d)
  }

  function Number(x: bv8): nat { x as nat }

  lemma NumberBound(x: bv8)
    ensures Number(x) < 256
  {}

  function HalfByte(x: bv8): bv8 { x >> 1 }

  function LowBit(x: bv8): bv8 { x & 1 }

  function ByteXor(x: bv8, y: bv8): bv8 { x ^ y }

  // one fact each

  lemma ByteInHalves(x: bv8)
    ensures Number(x) == 2 * Number(HalfByte(x)) + Number(LowBit(x))
  {}

  lemma BitIsSmall(x: bv8)
    ensures LowBit(x) == 0 || LowBit(x) == 1
    ensures Number(LowBit(x)) == if LowBit(x) == 0 then 0 else 1
  {}

  lemma HalfOfXor(x: bv8, y: bv8)
    ensures HalfByte(ByteXor(x, y)) == ByteXor(HalfByte(x), HalfByte(y))
  {}

  lemma BitOfXor(x: bv8, y: bv8)
    ensures LowBit(ByteXor(x, y)) == if LowBit(x) == LowBit(y) then 0 else 1
  {}

  lemma ZeroByte(x: bv8)
    requires Number(x) < 1
    ensures x == 0
  {}

  lemma ZeroXor()
    ensures ByteXor(0, 0) == 0 && Number(0) == 0
  {}

  lemma HalfAndBit(x: bv8)
    ensures Number(x) / 2 == Number(HalfByte(x)) && Number(x) % 2 == Number(LowBit(x))
  {
    hide HalfByte, LowBit, Number;
    ByteInHalves(x);
    BitIsSmall(x);
    DivModUnique(Number(x), 2, Number(HalfByte(x)), Number(LowBit(x)));
  }

  lemma XorUnfolds(a: nat, b: nat, n: nat)
    requires n > 0
    ensures XorBits(a, b, n) == 2 * XorBits(a / 2, b / 2, n - 1) + (if a % 2 == b % 2 then 0 else 1)
    ensures Pow2(n) == 2 * Pow2(n - 1)
  {}

  lemma NoBits(a: nat, b: nat)
    ensures XorBits(a, b, 0) == 0 && Pow2(0) == 1
  {}

  lemma {:induction false} XorOfByte(x: bv8, y: bv8, n: nat)
    requires Number(x) < Pow2(n) && Number(y) < Pow2(n)
    ensures XorBits(Number(x), Number(y), n) == Number(ByteXor(x, y))
    decreases n
  {
    hide *;
    if n == 0 {
      NoBits(Number(x), Number(y));
      ZeroByte(x);
      ZeroByte(y);
      ZeroXor();
    } else {
      XorUnfolds(Number(x), Number(y), n);
      HalfAndBit(x);
      HalfAndBit(y);
      ByteInHalves(x);
      ByteInHalves(y);
      BitIsSmall(x);
      BitIsSmall(y);
      XorOfByte(HalfByte(x), HalfByte(y), n - 1);
      HalfOfXor(x, y);
      BitOfXor(x, y);
      ByteInHalves(ByteXor(x, y));
      BitIsSmall(ByteXor(x, y));
    }
  }

  /// The low m bits and the rest, apart.
  lemma {:induction false} XorInParts(a: nat, b: nat, x: nat, y: nat, n: nat, m: nat)
    requires x < Pow2(m) && y < Pow2(m)
    ensures XorBits(a * Pow2(m) + x, b * Pow2(m) + y, n + m) == XorBits(a, b, n) * Pow2(m) + XorBits(x, y, m)
  {
    hide *;
    if m == 0 {
      NoBits(x, y);
      assert x == 0 && y == 0;
      Unit(a);
      Unit(b);
      Unit(XorBits(a, b, n));
    } else {
      XorUnfolds(x, y, m);
      XorUnfolds(a * Pow2(m) + x, b * Pow2(m) + y, n + m);
      XorInParts(a, b, x / 2, y / 2, n, m - 1);
      HalfOfSum(a, x, Pow2(m - 1));
      HalfOfSum(b, y, Pow2(m - 1));
      Doubled(XorBits(a, b, n), Pow2(m - 1));
    }
  }

  lemma Unit(a: nat)
    ensures a * 1 == a
  {}

  lemma Doubled(a: nat, b: nat)
    ensures 2 * (a * b) == a * (2 * b)
  {}

  lemma HalfOfSum(a: nat, x: nat, half: nat)
    requires x < 2 * half
    ensures (a * (2 * half) + x) / 2 == a * half + x / 2 && (a * (2 * half) + x) % 2 == x % 2 && x / 2 < half
  {
    assert a * (2 * half) == 2 * (a * half);
    DivModUnique(a * (2 * half) + x, 2, a * half + x / 2, x % 2);
  }

  lemma BytePower()
    ensures Pow2(8) == 256
  {}

  lemma NextByte(a: nat, b: nat, x: bv8, y: bv8, n: nat)
    ensures XorBits(a * 256 + Number(x), b * 256 + Number(y), n + 8) == XorBits(a, b, n) * 256 + Number(ByteXor(x, y))
  {
    hide Pow2, ByteXor;
    BytePower();
    XorInParts(a, b, Number(x), Number(y), n, 8);
    XorOfByte(x, y, 8);
  }

  lemma JoinedIs(a: bv8, b: bv8, c: bv8, d: bv8)
    ensures Joined(a, b, c, d) == ((Number(a) * 256 + Number(b)) * 256 + Number(c)) * 256 + Number(d)
  {}

  lemma XorIs(a: Word, b: Word)
    ensures Xor(a, b) == XorBits(a, b, 32)
  {}

  lemma XorOfFour(a: bv8, b: bv8, c: bv8, d: bv8, p: bv8, q: bv8, r: bv8, s: bv8)
    ensures Xor(Joined(a, b, c, d), Joined(p, q, r, s))
         == Joined(ByteXor(a, p), ByteXor(b, q), ByteXor(c, r), ByteXor(d, s))
  {
    hide *;
    FirstByte(a, p);
    NextByte(Number(a), Number(p), b, q, 8);
    NextByte(Number(a) * 256 + Number(b), Number(p) * 256 + Number(q), c, r, 16);
    NextByte((Number(a) * 256 + Number(b)) * 256 + Number(c), (Number(p) * 256 + Number(q)) * 256 + Number(r), d, s,
      24);
    XorIs(Joined(a, b, c, d), Joined(p, q, r, s));
    JoinedIs(a, b, c, d);
    JoinedIs(p, q, r, s);
    JoinedIs(ByteXor(a, p), ByteXor(b, q), ByteXor(c, r), ByteXor(d, s));
  }

  lemma FirstByte(x: bv8, y: bv8)
    ensures XorBits(Number(x), Number(y), 8) == Number(ByteXor(x, y))
  {
    hide Pow2, ByteXor;
    BytePower();
    XorOfByte(x, y, 8);
  }

  /// Exclusive or acts on each byte alone, and there bit by bit.
  lemma XorIsOfBytes(a: bv8, b: bv8, c: bv8, d: bv8, p: bv8, q: bv8, r: bv8, s: bv8)
    ensures Xor(Joined(a, b, c, d), Joined(p, q, r, s)) == Joined(a ^ p, b ^ q, c ^ r, d ^ s)
  {
    hide Xor, Joined;
    XorOfFour(a, b, c, d, p, q, r, s);
  }
}
