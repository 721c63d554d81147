/// The unsigned order of 32-bit words.
module WordOrder {

  predicate Below(a: bv32, b: bv32) { a < b }

  lemma BelowTransitive(a: bv32, b: bv32, c: bv32)
    requires Below(a, b) && Below(b, c)
    ensures Below(a, c)
  {}

  // words that neither is below the other are equal, byte by byte

  function Top(a: bv32): bv8 { (a >> 24) as bv8 }

  function Rest(a: bv32): bv32 { a << 8 }

  function OfBytes(t: bv8, u: bv8, v: bv8, w: bv8): bv32 {
    ((t as bv32) << 24) | ((u as bv32) << 16) | ((v as bv32) << 8) | (w as bv32)
  }

  predicate AtMost(a: bv32, b: bv32) { a <= b }

  predicate AtMostByte(a: bv8, b: bv8) { a <= b }

  lemma NotBelow(a: bv32, b: bv32)
    requires !Below(a, b)
    ensures AtMost(b, a)
  {}

  lemma TopAtMost(a: bv32, b: bv32)
    requires AtMost(a, b)
    ensures AtMostByte(Top(a), Top(b))
  {}

  lemma RestAtMost(a: bv32, b: bv32)
    requires AtMost(a, b) && Top(a) == Top(b)
    ensures AtMost(Rest(a), Rest(b))
  {}

  lemma ByteEqual(a: bv8, b: bv8)
    requires AtMostByte(a, b) && AtMostByte(b, a)
    ensures a == b
  {}

  lemma BytesJoined(a: bv32)
    ensures a == OfBytes(Top(a), Top(Rest(a)), Top(Rest(Rest(a))), Top(Rest(Rest(Rest(a)))))
  {}

  lemma NextByte(a: bv32, b: bv32)
    requires AtMost(a, b) && AtMost(b, a)
    ensures Top(a) == Top(b) && AtMost(Rest(a), Rest(b)) && AtMost(Rest(b), Rest(a))
  {
    hide Top, Rest, AtMost, AtMostByte;
    TopAtMost(a, b);
    TopAtMost(b, a);
    ByteEqual(Top(a), Top(b));
    RestAtMost(a, b);
    RestAtMost(b, a);
  }

  lemma AtMostBoth(a: bv32, b: bv32)
    requires AtMost(a, b) && AtMost(b, a)
    ensures a == b
  {
    hide Top, Rest, AtMost, AtMostByte, OfBytes;
    NextByte(a, b);
    NextByte(Rest(a), Rest(b));
    NextByte(Rest(Rest(a)), Rest(Rest(b)));
    NextByte(Rest(Rest(Rest(a))), Rest(Rest(Rest(b))));
    BytesJoined(a);
    BytesJoined(b);
  }

  lemma BelowTotal(a: bv32, b: bv32)
    requires !Below(a, b) && !Below(b, a)
    ensures a == b
  {
    hide AtMost, Below;
    NotBelow(a, b);
    NotBelow(b, a);
    AtMostBoth(a, b);
  }

  lemma BelowAtMost(a: bv32, b: bv32)
    requires Below(a, b)
    ensures AtMost(a, b)
  {}

  lemma AtMostNotBelow(a: bv32, b: bv32)
    requires AtMost(a, b)
    ensures !Below(b, a)
  {}

  lemma AtMostTransitive(a: bv32, b: bv32, c: bv32)
    requires AtMost(a, b) && AtMost(b, c)
    ensures AtMost(a, c)
  {
    hide AtMost, Below;
    AtMostNotBelow(a, b);
    AtMostNotBelow(b, c);
    if Below(c, a) {
      if Below(a, b) { BelowTransitive(c, a, b); } else { BelowTotal(a, b); }
    } else {
      NotBelow(c, a);
    }
  }

  lemma AtMostItself(a: bv32)
    ensures AtMost(a, a)
  {}

  lemma BelowIrreflexive(a: bv32)
    ensures !Below(a, a)
  {}

  lemma NoneBelowZero(a: bv32)
    ensures !Below(a, 0)
  {}
}
