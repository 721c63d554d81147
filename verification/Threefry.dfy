/// Threefry-2x32 with 20 rounds, as the kernel unrolls it.
module Threefry {
  import opened Words32

  datatype Pair = Pair(low: Word, high: Word)

  const PARITY: Word := 0x1BD1_1BDA

  /// One round with rotation r.
  function Round(x: Pair, r: nat): Pair
    requires 0 < r < 32
  {
    var x0 := Add(x.low, x.high);
    Pair(x0, Xor(RotateLeft(x.high, r), x0))
  }

  function RoundBack(x: Pair, r: nat): Pair
    requires 0 < r < 32
  {
    var x1 := RotateLeft(Xor(x.high, x.low), 32 - r);
    Pair(Sub(x.low, x1), x1)
  }

  lemma RoundInverse(x: Pair, r: nat)
    requires 0 < r < 32
    ensures RoundBack(Round(x, r), r) == x
  {
    hide Xor, RotateLeft, Add, Sub;
    XorBack(RotateLeft(x.high, r), Add(x.low, x.high));
    RotateBack(x.high, r);
    AddSub(x.low, x.high);
  }

  // ---- the published form: a rotation per round, a key injection every four ----

  function Rotation(round: nat): (r: nat)
    ensures 0 < r < 32
  {
    match round % 8
    case 0 => 13
    case 1 => 15
    case 2 => 26
    case 3 => 6
    case 4 => 17
    case 5 => 29
    case 6 => 16
    case _ => 24
  }

  datatype Schedule = Schedule(k0: Word, k1: Word, k2: Word)
  {
    function Key(i: nat): Word { if i % 3 == 0 then k0 else if i % 3 == 1 then k1 else k2 }
  }

  function ScheduleOf(key: Pair): Schedule {
    Schedule(key.low, key.high, Xor(Xor(key.low, key.high), PARITY))
  }

  /// Injection s: the next two schedule words, the second with s added.
  function Injected(x: Pair, ks: Schedule, s: nat): Pair
    requires s < 8
  {
    Pair(Add(x.low, ks.Key(s)), Add(x.high, Add(ks.Key(s + 1), s)))
  }

  function InjectedBack(x: Pair, ks: Schedule, s: nat): Pair
    requires s < 8
  {
    Pair(Sub(x.low, ks.Key(s)), Sub(x.high, Add(ks.Key(s + 1), s)))
  }

  /// The first n rounds, from words that include injection 0.
  function Rounds(x: Pair, ks: Schedule, n: nat): Pair
    requires n <= 20
  {
    if n == 0 then x
    else
      var y := Round(Rounds(x, ks, n - 1), Rotation(n - 1));
      if n % 4 == 0 then Injected(y, ks, n / 4) else y
  }

  /// Before round n - 1, from after it.
  function BackOnce(y: Pair, ks: Schedule, n: nat): Pair
    requires 0 < n <= 20
  {
    RoundBack(if n % 4 == 0 then InjectedBack(y, ks, n / 4) else y, Rotation(n - 1))
  }

  function RoundsBack(y: Pair, ks: Schedule, n: nat): Pair
    requires n <= 20
    decreases n
  {
    if n == 0 then y else RoundsBack(BackOnce(y, ks, n), ks, n - 1)
  }

  /// Threefry of a counter under a key.
  function Threefry20(key: Pair, counter: Pair): Pair {
    Rounds(Injected(counter, ScheduleOf(key), 0), ScheduleOf(key), 20)
  }

  lemma {:induction false} RoundsInverse(x: Pair, ks: Schedule, n: nat)
    requires n <= 20
    ensures RoundsBack(Rounds(x, ks, n), ks, n) == x
  {
    hide Round, RoundBack, Injected, InjectedBack, Rotation;
    if n > 0 {
      var y := Rounds(x, ks, n - 1);
      var z := Round(y, Rotation(n - 1));
      RoundInverse(y, Rotation(n - 1));
      if n % 4 == 0 { InjectionInverse(z, ks, n / 4); }
      RoundsInverse(x, ks, n - 1);
    }
  }

  lemma InjectionInverse(x: Pair, ks: Schedule, s: nat)
    requires s < 8
    ensures InjectedBack(Injected(x, ks, s), ks, s) == x
  {
    hide Add, Sub, Schedule.Key;
    AddSub(x.low, ks.Key(s));
    AddSub(x.high, Add(ks.Key(s + 1), s));
  }

  /// Under one key distinct counters have distinct words: Threefry is invertible.
  lemma ThreefryInjective(key: Pair, a: Pair, b: Pair)
    requires Threefry20(key, a) == Threefry20(key, b)
    ensures a == b
  {
    hide Rounds, RoundsBack, Injected, InjectedBack, ScheduleOf;
    var ks := ScheduleOf(key);
    RoundsInverse(Injected(a, ks, 0), ks, 20);
    RoundsInverse(Injected(b, ks, 0), ks, 20);
    InjectionInverse(a, ks, 0);
    InjectionInverse(b, ks, 0);
  }

  // ---- the kernel's form ----

  /// Four rounds with their rotations, updating the two words in place.
  method FourRounds(x: Pair, r0: nat, r1: nat, r2: nat, r3: nat) returns (y: Pair)
    requires 0 < r0 < 32 && 0 < r1 < 32 && 0 < r2 < 32 && 0 < r3 < 32
    ensures y == Round(Round(Round(Round(x, r0), r1), r2), r3)
  {
    hide Add, Xor, RotateLeft;
    var x0, x1 := x.low, x.high;
    x0 := Add(x0, x1);
    x1 := Xor(RotateLeft(x1, r0), x0);
    x0 := Add(x0, x1);
    x1 := Xor(RotateLeft(x1, r1), x0);
    x0 := Add(x0, x1);
    x1 := Xor(RotateLeft(x1, r2), x0);
    x0 := Add(x0, x1);
    x1 := Xor(RotateLeft(x1, r3), x0);
    y := Pair(x0, x1);
  }

  lemma FourMore(x: Pair, ks: Schedule, n: nat)
    requires n < 20 && n % 4 == 0
    ensures Rounds(x, ks, n + 4) ==
      Injected(
        Round(Round(Round(Round(Rounds(x, ks, n), Rotation(n)), Rotation(n + 1)), Rotation(n + 2)), Rotation(n + 3)),
        ks, n / 4 + 1)
  {
    hide Round, Injected, Rotation;
    assert Rounds(x, ks, n + 1) == Round(Rounds(x, ks, n), Rotation(n));
    assert Rounds(x, ks, n + 2) == Round(Rounds(x, ks, n + 1), Rotation(n + 1));
    assert Rounds(x, ks, n + 3) == Round(Rounds(x, ks, n + 2), Rotation(n + 2));
  }

  /// The kernel's twenty rounds, on words that include the first key words.
  method ThreefryWords(x: Pair, ks0: Word, ks1: Word, ks2: Word) returns (y: Pair)
    ensures y == Rounds(x, Schedule(ks0, ks1, ks2), 20)
  {
    hide Round, Add, Rounds;
    ghost var ks := Schedule(ks0, ks1, ks2);
    NoRounds(x, ks);
    y := FourRounds(x, 13, 15, 26, 6);
    y := Pair(Add(y.low, ks1), Add(y.high, Add(ks2, 1)));
    FourMore(x, ks, 0);
    y := FourRounds(y, 17, 29, 16, 24);
    y := Pair(Add(y.low, ks2), Add(y.high, Add(ks0, 2)));
    FourMore(x, ks, 4);
    y := FourRounds(y, 13, 15, 26, 6);
    y := Pair(Add(y.low, ks0), Add(y.high, Add(ks1, 3)));
    FourMore(x, ks, 8);
    y := FourRounds(y, 17, 29, 16, 24);
    y := Pair(Add(y.low, ks1), Add(y.high, Add(ks2, 4)));
    FourMore(x, ks, 12);
    y := FourRounds(y, 13, 15, 26, 6);
    y := Pair(Add(y.low, ks2), Add(y.high, Add(ks0, 5)));
    FourMore(x, ks, 16);
  }

  lemma NoRounds(x: Pair, ks: Schedule)
    ensures Rounds(x, ks, 0) == x
  {}
}
