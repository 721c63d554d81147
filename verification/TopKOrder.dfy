/// The order TopK selects by, by key and then by the lower index, and lists
/// sorted best first under it.
module TopKOrder {
  import opened WordOrder

  // ---- candidates ----

  datatype Candidate = Candidate(key: bv32, index: nat)

  const NO_INDEX: nat := 0xFFFF_FFFF

  const NOTHING := Candidate(0, NO_INDEX)

  predicate Better(a: Candidate, b: Candidate) {
    Below(b.key, a.key) || (a.key == b.key && a.index < b.index)
  }

  lemma BetterTransitive(a: Candidate, b: Candidate, c: Candidate)
    requires Better(a, b) && Better(b, c)
    ensures Better(a, c)
  {
    hide Below;
    if Below(b.key, a.key) && Below(c.key, b.key) { BelowTransitive(c.key, b.key, a.key); }
  }

  lemma BetterOne(a: Candidate, b: Candidate)
    ensures a == b || Better(a, b) || Better(b, a)
    ensures !(Better(a, b) && Better(b, a))
  {
    hide Below;
    if !Below(a.key, b.key) && !Below(b.key, a.key) { BelowTotal(a.key, b.key); }
    BelowIrreflexive(a.key);
    if Below(b.key, a.key) && Below(a.key, b.key) { BelowTransitive(a.key, b.key, a.key); }
  }

  /// Better is a strict total order on candidates.
  lemma BetterIsOrder()
    ensures forall a, b, c :: Better(a, b) && Better(b, c) ==> Better(a, c)
    ensures forall a, b :: a == b || Better(a, b) || Better(b, a)
    ensures forall a, b :: Better(a, b) ==> !Better(b, a)
    ensures forall a :: !Better(a, a)
  {
    hide Better;
    forall a, b, c | Better(a, b) && Better(b, c) ensures Better(a, c) { BetterTransitive(a, b, c); }
    forall a, b ensures (a == b || Better(a, b) || Better(b, a)) && !(Better(a, b) && Better(b, a)) { BetterOne(a, b); }
  }

  /// Every real candidate is better than the padding.
  lemma BetterThanNothing(a: Candidate)
    requires a.index < NO_INDEX
    ensures Better(a, NOTHING) && !Better(NOTHING, a)
  {
    hide Below;
    NoneBelowZero(a.key);
    if !Below(0, a.key) { BelowTotal(a.key, 0); }
    BelowIrreflexive(a.key);
  }

  ghost predicate BestFirst(list: seq<Candidate>) {
    forall i, j :: 0 <= i < j < |list| ==> Better(list[i], list[j])
  }

  /// The list with x in its place.
  function Insert(list: seq<Candidate>, x: Candidate): (r: seq<Candidate>)
    ensures |r| == |list| + 1
    ensures forall c :: c in r <==> c in list || c == x
  {
    if list != [] && Better(x, list[|list| - 1]) then
      var r := Insert(list[..|list| - 1], x) + [list[|list| - 1]];
      assert list == list[..|list| - 1] + [list[|list| - 1]];
      r
    else list + [x]
  }

  lemma {:induction false} InsertBestFirst(list: seq<Candidate>, x: Candidate)
    requires BestFirst(list) && x !in list
    ensures BestFirst(Insert(list, x))
  {
    hide Better;
    BetterIsOrder();
    if list != [] && Better(x, list[|list| - 1]) {
      var n := |list| - 1;
      InsertBestFirst(list[..n], x);
      var r := Insert(list[..n], x);
      forall i | 0 <= i < |r| ensures Better(r[i], list[n]) {
        assert r[i] in r;
        if r[i] != x {
          var j :| 0 <= j < n && list[..n][j] == r[i];
          assert list[j] == r[i];
        }
      }
    } else if list != [] {
      var n := |list| - 1;
      assert list[n] in list;
      forall i | 0 <= i < |list| ensures Better(list[i], x) {
        if i < n { assert Better(list[i], list[n]); }
      }
    }
  }

  /// Candidates from one list of k to the next: k made even.
  function ListStride(k: nat): nat { (k + 1) - (k + 1) % 2 }

  // ---- the best of a set ----

  /// The best of `elements`, as many as there are up to k, best first.
  ghost predicate IsBest(best: seq<Candidate>, elements: set<Candidate>, k: nat) {
    && BestFirst(best) && |best| <= k
    && (forall c :: c in best ==> c in elements)
    && forall c :: c in elements ==> c in best || (|best| == k > 0 && Better(best[k - 1], c))
  }

  /// There is only one such list.
  lemma {:induction false} BestIsUnique(a: seq<Candidate>, b: seq<Candidate>, elements: set<Candidate>, k: nat)
    requires IsBest(a, elements, k) && IsBest(b, elements, k)
    ensures a == b
  {
    SameEntries(a, b, elements, k);
    SameEntries(b, a, elements, k);
    SortedSame(a, b);
  }

  lemma SameEntries(a: seq<Candidate>, b: seq<Candidate>, elements: set<Candidate>, k: nat)
    requires IsBest(a, elements, k) && IsBest(b, elements, k)
    ensures forall c :: c in a ==> c in b
  {
    hide Better;
    BetterIsOrder();
    forall c | c in a ensures c in b {
      if c !in b {
        // b is full of candidates better than c, so all of them are in a too
        forall d | d in b ensures d in a {
          if d !in a {
            var i :| 0 <= i < |a| && a[i] == c;
            var j :| 0 <= j < |b| && b[j] == d;
            BestLast(a, k, i);
            BestLast(b, k, j);
          }
        }
        MoreEntries(a, b, c);
      }
    }
  }

  lemma BestLast(best: seq<Candidate>, k: nat, i: nat)
    requires BestFirst(best) && |best| == k && i < k
    ensures best[i] == best[k - 1] || Better(best[i], best[k - 1])
  {
    hide Better;
    BetterIsOrder();
  }

  /// A list that holds all of b and c besides has more entries.
  lemma MoreEntries(a: seq<Candidate>, b: seq<Candidate>, c: Candidate)
    requires BestFirst(b) && (forall d :: d in b ==> d in a) && c in a && c !in b
    ensures |a| > |b|
  {
    hide Better;
    BetterIsOrder();
    EntriesSize(b);
    EntriesBound(a);
    assert Entries(b) + {c} <= Entries(a);
    EntriesSubset(Entries(b) + {c}, Entries(a));
  }

  ghost function Entries(list: seq<Candidate>): (r: set<Candidate>)
    ensures forall c :: c in r <==> c in list
  {
    set c | c in list
  }

  lemma {:induction false} EntriesSize(list: seq<Candidate>)
    requires BestFirst(list)
    ensures |Entries(list)| == |list|
  {
    hide Better;
    if list != [] {
      var n := |list| - 1;
      EntriesSize(list[..n]);
      forall i | 0 <= i < n ensures list[i] != list[n] { BetterOne(list[i], list[n]); }
      assert list == list[..n] + [list[n]];
      assert Entries(list) == Entries(list[..n]) + {list[n]};
    }
  }

  lemma {:induction false} EntriesBound(list: seq<Candidate>)
    ensures |Entries(list)| <= |list|
  {
    if list != [] {
      var n := |list| - 1;
      EntriesBound(list[..n]);
      assert list == list[..n] + [list[n]];
      assert Entries(list) == Entries(list[..n]) + {list[n]};
    }
  }

  lemma {:induction false} EntriesSubset(a: set<Candidate>, b: set<Candidate>)
    requires a <= b
    ensures |a| <= |b|
  {
    if a != {} {
      var x :| x in a;
      EntriesSubset(a - {x}, b - {x});
    }
  }

  /// Best-first lists with the same entries are equal.
  lemma {:induction false} SortedSame(a: seq<Candidate>, b: seq<Candidate>)
    requires BestFirst(a) && BestFirst(b) && forall c :: c in a <==> c in b
    ensures a == b
  {
    hide Better;
    BetterIsOrder();
    EntriesSize(a);
    EntriesSize(b);
    assert Entries(a) == Entries(b);
    if a != [] {
      assert a[0] in b && b[0] in a;
      FirstBest(a, b[0]);
      FirstBest(b, a[0]);
      assert a == [a[0]] + a[1..] && b == [b[0]] + b[1..];
      assert forall c :: c in a <==> c == a[0] || c in a[1..];
      assert forall c :: c in b <==> c == b[0] || c in b[1..];
      SortedSame(a[1..], b[1..]);
    }
  }

  lemma FirstBest(list: seq<Candidate>, c: Candidate)
    requires BestFirst(list) && c in list
    ensures c == list[0] || Better(list[0], c)
  {
    hide Better;
    BetterIsOrder();
    var i :| 0 <= i < |list| && list[i] == c;
  }

  // ---- one more element ----

  /// With room left, the element goes in.
  lemma BestWithRoom(best: seq<Candidate>, elements: set<Candidate>, k: nat, x: Candidate)
    requires IsBest(best, elements, k) && |best| < k && x !in elements
    ensures IsBest(Insert(best, x), elements + {x}, k)
  {
    hide Better;
    BetterIsOrder();
    InsertBestFirst(best, x);
  }

  /// Full, and the element beats the last: it goes in and the last goes out.
  lemma BestReplaced(best: seq<Candidate>, elements: set<Candidate>, k: nat, x: Candidate)
    requires IsBest(best, elements, k) && |best| == k > 0 && x !in elements && Better(x, best[k - 1])
    ensures IsBest(Insert(best[..k - 1], x), elements + {x}, k)
  {
    hide Better;
    BetterIsOrder();
    var kept := best[..k - 1];
    var after := Insert(kept, x);
    assert best == kept + [best[k - 1]];
    InsertBestFirst(kept, x);
    forall i | 0 <= i < |after| ensures Better(after[i], best[k - 1]) {
      assert after[i] in after;
      if after[i] != x {
        var j :| 0 <= j < k - 1 && kept[j] == after[i];
        assert best[j] == after[i];
      }
    }
    assert Better(after[k - 1], best[k - 1]);
    forall c | c in elements && c !in best ensures Better(after[k - 1], c) {
      assert Better(best[k - 1], c);
    }
  }

  /// Full, and the element does not beat the last: nothing changes.
  lemma BestKept(best: seq<Candidate>, elements: set<Candidate>, k: nat, x: Candidate)
    requires IsBest(best, elements, k) && |best| == k > 0 && Better(best[k - 1], x)
    ensures IsBest(best, elements + {x}, k)
  {
    hide Better;
    BetterIsOrder();
  }
}
