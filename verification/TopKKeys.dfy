/// Unsigned keys that compare as floating-point values do in total order.
module TopKKeys {
  import opened WordOrder

  predicate Negative(bits: bv32) { bits & 0x8000_0000 != 0 }

  /// The sign bit in every place: an arithmetic shift by 31.
  function SignSpread(bits: bv32): bv32 { if Negative(bits) then 0xFFFF_FFFF else 0 }

  /// A value's key; the smallest k come first under its complement.
  function KeyOf(bits: bv32, largest: bool): bv32 {
    if largest then LargestKey(bits) else Complement(LargestKey(bits))
  }

  function LargestKey(bits: bv32): bv32 { bits ^ (SignSpread(bits) | 0x8000_0000) }

  function BitsOf(key: bv32, largest: bool): bv32 {
    if largest then LargestBits(key) else LargestBits(Complement(key))
  }

  function LargestBits(key: bv32): bv32 {
    key ^ (if Negative(key) then 0x8000_0000 else 0xFFFF_FFFF)
  }

  /// totalOrder, section 5.10 of IEEE 754-2019, strictly: negative values below
  /// non-negative ones, larger magnitudes (NaNs last) further from zero.
  predicate TotalOrderBelow(a: bv32, b: bv32) {
    if Negative(a) then !Negative(b) || Below(Magnitude(b), Magnitude(a))
    else !Negative(b) && Below(Magnitude(a), Magnitude(b))
  }

  function Magnitude(bits: bv32): bv32 { bits & 0x7FFF_FFFF }

  function Flipped(bits: bv32): bv32 { bits ^ 0xFFFF_FFFF }

  function SignFlipped(bits: bv32): bv32 { bits ^ 0x8000_0000 }

  function Complement(bits: bv32): bv32 { !bits }

  // one bit-vector fact each

  lemma NegativeKey(bits: bv32)
    requires Negative(bits)
    ensures LargestKey(bits) == Flipped(bits)
  {}

  lemma PositiveKey(bits: bv32)
    requires !Negative(bits)
    ensures LargestKey(bits) == SignFlipped(bits)
  {}

  lemma NegativeKeySign(bits: bv32)
    requires Negative(bits)
    ensures !Negative(Flipped(bits))
  {}

  lemma PositiveKeySign(bits: bv32)
    requires !Negative(bits)
    ensures Negative(SignFlipped(bits))
  {}

  lemma FlipBack(bits: bv32)
    ensures Flipped(Flipped(bits)) == bits
  {}

  lemma SignFlipBack(bits: bv32)
    ensures SignFlipped(SignFlipped(bits)) == bits
  {}

  lemma ComplementOrder(a: bv32, b: bv32)
    ensures Below(a, b) <==> Below(Complement(b), Complement(a))
  {}

  lemma ComplementBack(bits: bv32)
    ensures Complement(Complement(bits)) == bits
  {}

  lemma NegativesFlip(a: bv32, b: bv32)
    requires Negative(a) && Negative(b)
    ensures Below(Flipped(a), Flipped(b)) <==> Below(Magnitude(b), Magnitude(a))
  {}

  lemma PositivesKeep(a: bv32, b: bv32)
    requires !Negative(a) && !Negative(b) && Below(a, b)
    ensures Below(SignFlipped(a), SignFlipped(b))
  {}

  lemma PositivesKept(a: bv32, b: bv32)
    requires !Negative(a) && !Negative(b) && Below(SignFlipped(a), SignFlipped(b))
    ensures Below(a, b)
  {}

  lemma PositiveMagnitude(bits: bv32)
    requires !Negative(bits)
    ensures Magnitude(bits) == bits
  {}

  lemma SignsDecide(a: bv32, b: bv32)
    requires !Negative(a) && Negative(b)
    ensures Below(a, b)
  {}

  lemma SignsDecideNot(a: bv32, b: bv32)
    requires !Negative(a) && Negative(b)
    ensures !Below(b, a)
  {}

  /// Keys compare as their values do in total order.
  lemma LargestKeysFollowTotalOrder(a: bv32, b: bv32)
    ensures Below(LargestKey(a), LargestKey(b)) <==> TotalOrderBelow(a, b)
  {
    hide LargestKey, Negative, Magnitude, Flipped, SignFlipped, Below;
    if Negative(a) { NegativeKey(a); NegativeKeySign(a); } else { PositiveKey(a); PositiveKeySign(a); }
    if Negative(b) { NegativeKey(b); NegativeKeySign(b); } else { PositiveKey(b); PositiveKeySign(b); }
    if Negative(a) && Negative(b) {
      NegativesFlip(a, b);
    } else if !Negative(a) && !Negative(b) {
      if Below(a, b) { PositivesKeep(a, b); }
      if Below(SignFlipped(a), SignFlipped(b)) { PositivesKept(a, b); }
      PositiveMagnitude(a);
      PositiveMagnitude(b);
    } else if Negative(a) {
      SignsDecide(LargestKey(a), LargestKey(b));
    } else {
      SignsDecideNot(LargestKey(b), LargestKey(a));
    }
  }

  /// Keys for the largest k compare as their values do.
  lemma LargestKeysKeep(a: bv32, b: bv32)
    ensures Below(KeyOf(a, true), KeyOf(b, true)) <==> TotalOrderBelow(a, b)
  {
    hide LargestKey, Below, TotalOrderBelow, Complement;
    LargestKeysFollowTotalOrder(a, b);
  }

  /// The order on values: NaNs, infinities, numbers and zeros, negative ones first.
  lemma TotalOrderOfValues()
    ensures TotalOrderBelow(0xFFC0_0000, 0xFF80_0000) && TotalOrderBelow(0xFF80_0000, 0xC000_0000)
    ensures TotalOrderBelow(0xC000_0000, 0xBF80_0000) && TotalOrderBelow(0xBF80_0000, 0x8000_0000)
    ensures TotalOrderBelow(0x8000_0000, 0x0000_0000) && TotalOrderBelow(0x0000_0000, 0x3F80_0000)
    ensures TotalOrderBelow(0x3F80_0000, 0x4000_0000) && TotalOrderBelow(0x4000_0000, 0x7F80_0000)
    ensures TotalOrderBelow(0x7F80_0000, 0x7FC0_0000)
  {}

  /// Keys for the smallest k compare the other way.
  lemma SmallestKeysFlip(a: bv32, b: bv32)
    ensures Below(KeyOf(b, false), KeyOf(a, false)) <==> TotalOrderBelow(a, b)
  {
    hide LargestKey, Below, TotalOrderBelow, Complement;
    LargestKeysFollowTotalOrder(a, b);
    ComplementOrder(LargestKey(a), LargestKey(b));
  }

  lemma LargestBitsOfKey(bits: bv32)
    ensures LargestBits(LargestKey(bits)) == bits
  {
    hide LargestKey, Negative, Flipped, SignFlipped, LargestBits;
    if Negative(bits) {
      NegativeKey(bits);
      NegativeKeySign(bits);
      BitsOfPositive(Flipped(bits));
      FlipBack(bits);
    } else {
      PositiveKey(bits);
      PositiveKeySign(bits);
      BitsOfNegative(SignFlipped(bits));
      SignFlipBack(bits);
    }
  }

  lemma BitsOfPositive(key: bv32)
    requires !Negative(key)
    ensures LargestBits(key) == Flipped(key)
  {}

  lemma BitsOfNegative(key: bv32)
    requires Negative(key)
    ensures LargestBits(key) == SignFlipped(key)
  {}

  /// A key gives its value's bits back.
  lemma BitsOfKey(bits: bv32, largest: bool)
    ensures BitsOf(KeyOf(bits, largest), largest) == bits
  {
    hide LargestKey, LargestBits, Complement;
    LargestBitsOfKey(bits);
    ComplementBack(LargestKey(bits));
  }
}
