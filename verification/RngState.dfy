/// The rng_bits state: the key and counter that each element of each call uses,
/// and the state that a call leaves for the next.
module RngState {
  import opened RowMajor
  import opened Words32
  import Threefry
  import Philox

  const TWO_64: nat := 0x1_0000_0000_0000_0000

  /// Two 64-bit elements, each a low and a high word.
  datatype State = State(w0: Word, h0: Word, w1: Word, h1: Word)

  datatype Algorithm = UseThreefry | UsePhilox

  /// The key and counter of one element's word.
  datatype Use = ThreefryUse(key: Threefry.Pair, counter: Threefry.Pair) | PhiloxUse(k: Philox.Key, x: Philox.Counter)

  /// The key under which Threefry makes the words: the counter's high word hashed under the seed.
  function StreamKey(s: State): Threefry.Pair {
    Threefry.Threefry20(Threefry.Pair(s.w0, s.h0), Threefry.Pair(s.h1, Threefry.PARITY))
  }

  function UseOf(a: Algorithm, s: State, i: Word): Use {
    match a
    case UseThreefry => ThreefryUse(StreamKey(s), Threefry.Pair(i, s.w1))
    case UsePhilox => PhiloxUse(Philox.Key(s.w0, s.h0), Philox.Counter(i, s.w1, 0, s.h1))
  }

  function WordOf(u: Use): Word {
    match u
    case ThreefryUse(key, counter) => Threefry.Threefry20(key, counter).low
    case PhiloxUse(k, x) => Philox.Philox10(k, x).x0
  }

  // ---- the state after a call ----

  function CounterOf(s: State): (n: nat)
    ensures n < TWO_64
  {
    s.h1 * TWO_32 + s.w1
  }

  /// The counter's low word plus one; the high word takes the carry.
  function Advanced(s: State): State {
    s.(w1 := Add(s.w1, 1), h1 := Add(s.h1, if s.w1 == 0xFFFF_FFFF then 1 else 0))
  }

  function AfterCalls(s: State, n: nat): State {
    if n == 0 then s else Advanced(AfterCalls(s, n - 1))
  }

  /// Advancing adds one to the 64-bit counter, modulo 2^64, and keeps the key.
  lemma AdvancedCounter(s: State)
    ensures CounterOf(Advanced(s)) == (CounterOf(s) + 1) % TWO_64
    ensures Advanced(s).w0 == s.w0 && Advanced(s).h0 == s.h0
  {}

  lemma {:induction false} CounterAfter(s: State, n: nat)
    ensures CounterOf(AfterCalls(s, n)) == (CounterOf(s) + n) % TWO_64
    ensures AfterCalls(s, n).w0 == s.w0 && AfterCalls(s, n).h0 == s.h0
  {
    if n > 0 {
      CounterAfter(s, n - 1);
      hide CounterOf;
      AdvancedCounter(AfterCalls(s, n - 1));
      NextRemainder(CounterOf(s) + n - 1);
    }
  }

  lemma NextRemainder(a: nat)
    ensures (a % TWO_64 + 1) % TWO_64 == (a + 1) % TWO_64
  {}

  /// Within 2^64 calls the counter does not come back.
  lemma CountersApart(s: State, m: nat, n: nat)
    requires m < n < m + TWO_64
    ensures CounterOf(AfterCalls(s, m)) != CounterOf(AfterCalls(s, n))
  {
    hide CounterOf;
    CounterAfter(s, m);
    CounterAfter(s, n);
    RemaindersApart(CounterOf(s) + m, CounterOf(s) + n);
  }

  lemma RemaindersApart(a: nat, b: nat)
    requires a < b < a + TWO_64
    ensures a % TWO_64 != b % TWO_64
  {
    DivMod(a, TWO_64);
    DivMod(b, TWO_64);
    if a % TWO_64 == b % TWO_64 { NoMultiple(b / TWO_64 - a / TWO_64); }
  }

  lemma NoMultiple(k: int)
    ensures !(0 < k * TWO_64 < TWO_64)
  {}

  /// Under one key, different counters and elements are different uses.
  lemma UsesApart(a: Algorithm, s: State, t: State, i: Word, j: Word)
    requires s.w0 == t.w0 && s.h0 == t.h0
    requires UseOf(a, s, i) == UseOf(a, t, j)
    ensures i == j && s == t
  {
    match a
    case UseThreefry =>
      hide Threefry.Threefry20;
      Threefry.ThreefryInjective(Threefry.Pair(s.w0, s.h0), Threefry.Pair(s.h1, Threefry.PARITY),
        Threefry.Pair(t.h1, Threefry.PARITY));
    case UsePhilox =>
  }

  /// In up to 2^64 successive calls from any state, no key and counter are used
  /// twice: not by two elements of a call, nor by elements of two calls.
  lemma NoUseTwice(a: Algorithm, s: State, m: nat, n: nat, i: Word, j: Word)
    requires m < TWO_64 && n < TWO_64
    requires UseOf(a, AfterCalls(s, m), i) == UseOf(a, AfterCalls(s, n), j)
    ensures m == n && i == j
  {
    hide AfterCalls, CounterOf, UseOf, Advanced;
    CounterAfter(s, m);
    CounterAfter(s, n);
    UsesApart(a, AfterCalls(s, m), AfterCalls(s, n), i, j);
    if m < n { CountersApart(s, m, n); }
    if n < m { CountersApart(s, n, m); }
  }

  // ---- the mover's update ----

  /// The state's words in its page: a low and a high word in each of the first two face rows.
  function StateOf(words: seq<Word>): State
    requires |words| >= 18
  {
    State(words[0], words[1], words[16], words[17])
  }

  /// The first core writes the new state from the entry that the compute kernel
  /// reads, and restores the words before handing it over.
  method AdvanceState(words: array<Word>) returns (written: seq<Word>)
    requires words.Length >= 18
    modifies words
    ensures words[..] == old(words[..])
    ensures |written| == words.Length && StateOf(written) == Advanced(old(StateOf(words[..])))
    ensures forall i :: 0 <= i < words.Length && i != 16 && i != 17 ==> written[i] == old(words[i])
  {
    hide Add;
    var w1, high := words[16], words[17];
    words[16] := Add(w1, 1);
    words[17] := Add(high, if w1 == 0xFFFF_FFFF then 1 else 0);
    written := words[..];
    words[16] := w1;
    words[17] := high;
    assert words[..] == old(words[..]);
  }
}
