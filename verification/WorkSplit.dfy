/// Work divided in contiguous ranges, one after another: cores' shares of the
/// units, or pieces of a concatenation.
module WorkSplit {

  /// Units before range c when the ranges take `counts` units each, in turn.
  function FirstOf(counts: seq<nat>, c: nat): nat
    requires c <= |counts|
  {
    if c == 0 then 0 else FirstOf(counts, c - 1) + counts[c - 1]
  }

  lemma {:induction false} FirstOfMonotone(counts: seq<nat>, c: nat, d: nat)
    requires c <= d <= |counts|
    ensures FirstOf(counts, c) <= FirstOf(counts, d)
  {
    if c < d { FirstOfMonotone(counts, c, d - 1); }
  }

  /// The range, among the first n, that a unit belongs to.
  function OwnerOf(counts: seq<nat>, n: nat, unit: nat): (c: nat)
    requires n <= |counts| && unit < FirstOf(counts, n)
    ensures c < n && FirstOf(counts, c) <= unit < FirstOf(counts, c) + counts[c]
  {
    if unit >= FirstOf(counts, n - 1) then n - 1 else OwnerOf(counts, n - 1, unit)
  }

  /// A unit belongs to one range only.
  lemma {:induction false} OwnerUnique(counts: seq<nat>, n: nat, unit: nat, c: nat)
    requires n <= |counts| && unit < FirstOf(counts, n) && c < n
    requires FirstOf(counts, c) <= unit < FirstOf(counts, c) + counts[c]
    ensures OwnerOf(counts, n, unit) == c
  {
    var d := OwnerOf(counts, n, unit);
    var lo, hi := if c < d then c else d, if c < d then d else c;
    if lo < hi { FirstOfMonotone(counts, lo + 1, hi); }
  }
}
