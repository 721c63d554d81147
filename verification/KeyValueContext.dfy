/// A coordination context as an object: its counters, the keys it builds from
/// them and the contexts it makes. What one call does here is a step of the
/// processes in `Coordination`.
module KeyValueContexts {
  import opened KeyNames
  import opened Coordination
  import opened Tensors
  import opened Wrappers

  /// Ranks in range that name distinct processes.
  ghost predicate DistinctMembers(members: seq<nat>, ranks: seq<int>) {
    && (forall i :: 0 <= i < |ranks| ==> 0 <= ranks[i] < |members|)
    && forall i, j :: 0 <= i < j < |ranks| ==> members[ranks[i]] != members[ranks[j]]
  }

  lemma JoinFirst(first: string, rest: seq<string>)
    requires |rest| > 0
    ensures Join([first] + rest) == first + "/" + Join(rest)
  {
    assert ([first] + rest)[1..] == rest;
  }

  lemma DecimalsLast(ranks: seq<nat>, r: nat)
    ensures Decimals(ranks + [r]) == Decimals(ranks) + [Decimal(r)]
  {}

  // ---- split ----

  /// What every rank contributes to a split.
  datatype Choice = Choice(color: int, key: int)

  /// By key, ties by rank.
  predicate SplitBefore(values: seq<Choice>, a: nat, b: nat)
    requires a < |values| && b < |values|
  {
    values[a].key < values[b].key || (values[a].key == values[b].key && a < b)
  }

  /// The ranks of a color, in order.
  ghost predicate IsSplitOrder(values: seq<Choice>, color: int, ranks: seq<nat>) {
    && Names(ranks, |values|)
    && (forall r: nat :: r < |values| ==> (r in ranks <==> values[r].color == color))
    && forall i, j :: 0 <= i < j < |ranks| ==> SplitBefore(values, ranks[i], ranks[j])
  }

  /// A stable sort by key moves an element left over those with larger keys only.
  function Inserted(values: seq<Choice>, sorted: seq<nat>, rank: nat): (r: seq<nat>)
    requires Names(sorted, |values|) && rank < |values|
    ensures Names(r, |values|) && forall x :: x in r <==> x in sorted || x == rank
  {
    if sorted != [] && values[rank].key < values[sorted[|sorted| - 1]].key then
      Inserted(values, sorted[..|sorted| - 1], rank) + [sorted[|sorted| - 1]]
    else sorted + [rank]
  }

  function StableSorted(values: seq<Choice>, ranks: seq<nat>): (r: seq<nat>)
    requires Names(ranks, |values|)
    ensures Names(r, |values|) && forall x :: x in r <==> x in ranks
  {
    if ranks == [] then [] else Inserted(values, StableSorted(values, ranks[..|ranks| - 1]), ranks[|ranks| - 1])
  }

  ghost predicate SplitSorted(values: seq<Choice>, ranks: seq<nat>)
    requires Names(ranks, |values|)
  {
    forall i, j :: 0 <= i < j < |ranks| ==> SplitBefore(values, ranks[i], ranks[j])
  }

  lemma {:induction false} InsertedSorted(values: seq<Choice>, sorted: seq<nat>, rank: nat)
    requires Names(sorted, |values|) && rank < |values| && SplitSorted(values, sorted) && forall x :: x in sorted ==>
      x < rank
    ensures SplitSorted(values, Inserted(values, sorted, rank))
  {
    if sorted != [] && values[rank].key < values[sorted[|sorted| - 1]].key {
      var n := |sorted| - 1;
      assert forall x :: x in sorted[..n] ==> x in sorted;
      InsertedSorted(values, sorted[..n], rank);
      var rest := Inserted(values, sorted[..n], rank);
      forall i | 0 <= i < |rest| ensures SplitBefore(values, rest[i], sorted[n]) {
        assert rest[i] in rest;
        if rest[i] != rank {
          var k :| 0 <= k < n && sorted[..n][k] == rest[i];
          assert sorted[k] == rest[i];
        }
      }
    } else if sorted != [] {
      var last := sorted[|sorted| - 1];
      forall i | 0 <= i < |sorted| ensures SplitBefore(values, sorted[i], rank) {
        assert sorted[i] in sorted;
        if i < |sorted| - 1 { assert SplitBefore(values, sorted[i], last); }
      }
    }
  }

  lemma {:induction false} StableIsSorted(values: seq<Choice>, ranks: seq<nat>)
    requires Names(ranks, |values|) && forall i, j :: 0 <= i < j < |ranks| ==> ranks[i] < ranks[j]
    ensures SplitSorted(values, StableSorted(values, ranks))
  {
    if ranks != [] {
      var n := |ranks| - 1;
      StableIsSorted(values, ranks[..n]);
      forall x | x in StableSorted(values, ranks[..n]) ensures x < ranks[n] {
        assert x in ranks[..n];
      }
      InsertedSorted(values, StableSorted(values, ranks[..n]), ranks[n]);
    }
  }

  /// The ranks of a color, then stably sorted by key.
  method SplitRanks(values: seq<Choice>, color: int) returns (ranks: seq<nat>)
    ensures IsSplitOrder(values, color, ranks)
  {
    var chosen: seq<nat> := [];
    var i := 0;
    while i < |values|
      invariant 0 <= i <= |values| && Names(chosen, i)
      invariant forall r: nat :: r < i ==> (r in chosen <==> values[r].color == color)
      invariant forall a, b :: 0 <= a < b < |chosen| ==> chosen[a] < chosen[b]
    {
      if values[i].color == color { chosen := chosen + [i]; }
      i := i + 1;
    }
    StableIsSorted(values, chosen);
    ranks := StableSorted(values, chosen);
  }

  /// The gathered values give every process of a color the same member order.
  lemma {:induction false} SplitOrderUnique(values: seq<Choice>, color: int, a: seq<nat>, b: seq<nat>)
    requires IsSplitOrder(values, color, a) && IsSplitOrder(values, color, b)
    ensures a == b
  {
    SplitFirsts(values, a, b);
  }

  // ---- the subgroups that a context's processes make ----

  /// A call by every process of a context: a split with their gathered choices, or a subgroup of the same ranks.
  datatype Creation = BySplit(values: seq<Choice>) | ByRanks(ranks: seq<nat>)

  /// The ranks, in order, of the subgroup that rank p gets, if it gets one.
  ghost predicate Takes(call: Creation, undefined: int, p: nat, ranks: seq<nat>) {
    match call
    case BySplit(values) => p < |values| && values[p].color != undefined && IsSplitOrder(values, values[p].color, ranks)
    case ByRanks(chosen) => p in chosen && ranks == chosen
  }

  /// A process's context before and after each call: only a member of the subgroup counts it.
  ghost predicate Creates(contexts: seq<Context>, calls: seq<Creation>, undefined: int, p: nat) {
    |contexts| == |calls| + 1 && forall i: nat :: i < |calls| ==>
      CreatesNext(contexts[i], contexts[i + 1], calls[i], undefined, p)
  }

  ghost predicate CreatesNext(c: Context, next: Context, call: Creation, undefined: int, p: nat) {
    (next == c && forall ranks: seq<nat> :: !Takes(call, undefined, p, ranks))
    || exists ranks: seq<nat> :: Takes(call, undefined, p, ranks) && next == c.Advanced(Groups(ranks))
  }

  /// A subgroup's members all take it.
  lemma MembersTake(call: Creation, undefined: int, p: nat, q: nat, ranks: seq<nat>)
    requires Takes(call, undefined, p, ranks) && q in ranks
    ensures Takes(call, undefined, q, ranks)
  {}

  lemma TakesOne(call: Creation, undefined: int, p: nat, a: seq<nat>, b: seq<nat>)
    requires Takes(call, undefined, p, a) && Takes(call, undefined, p, b)
    ensures a == b
  {
    if call.BySplit? { SplitOrderUnique(call.values, call.values[p].color, a, b); }
  }

  /// A call counts a subgroup just when it makes it.
  lemma NextCount(c: Context, next: Context, call: Creation, undefined: int, p: nat, ranks: seq<nat>)
    requires CreatesNext(c, next, call, undefined, p)
    ensures next.Count(Groups(ranks)) == c.Count(Groups(ranks)) + (if Takes(call, undefined, p, ranks) then 1 else 0)
  {
    hide Context.Count, Context.Advanced, Takes;
    if taken: seq<nat> :| Takes(call, undefined, p, taken) && next == c.Advanced(Groups(taken)) {
      AdvancedCounts(c, Groups(taken), Groups(ranks));
      if Takes(call, undefined, p, ranks) { TakesOne(call, undefined, p, taken, ranks); }
    }
  }

  /// Processes of a context that make the same calls number their subgroups alike,
  /// so all members of a color get one order and one prefix.
  lemma {:induction false} MembersAgree(a: seq<Context>, b: seq<Context>, calls: seq<Creation>, undefined: int, p: nat,
                                        q: nat, ranks: seq<nat>, n: nat)
    requires Creates(a, calls, undefined, p) && Creates(b, calls, undefined, q) && p in ranks && q in ranks
      && n <= |calls|
    requires a[0].Count(Groups(ranks)) == b[0].Count(Groups(ranks))
    ensures a[n].Count(Groups(ranks)) == b[n].Count(Groups(ranks))
  {
    hide Context.Count, Takes, CreatesNext;
    if n > 0 {
      MembersAgree(a, b, calls, undefined, p, q, ranks, n - 1);
      assert CreatesNext(a[n - 1], a[n - 1 + 1], calls[n - 1], undefined, p)
        && CreatesNext(b[n - 1], b[n - 1 + 1], calls[n - 1], undefined, q);
      NextCount(a[n - 1], a[n], calls[n - 1], undefined, p, ranks);
      NextCount(b[n - 1], b[n], calls[n - 1], undefined, q, ranks);
      if Takes(calls[n - 1], undefined, p, ranks) { MembersTake(calls[n - 1], undefined, p, q, ranks); }
      if Takes(calls[n - 1], undefined, q, ranks) { MembersTake(calls[n - 1], undefined, q, p, ranks); }
    }
  }

  /// Sorted lists of the same ranks are equal.
  lemma {:induction false} SplitFirsts(values: seq<Choice>, a: seq<nat>, b: seq<nat>)
    requires Names(a, |values|) && Names(b, |values|) && SplitSorted(values, a) && SplitSorted(values, b)
    requires forall x :: x in a <==> x in b
    ensures a == b
  {
    SortedDistinct(values, a);
    SortedDistinct(values, b);
    SameElementsSize(a, b);
    if a != [] {
      assert a[0] in b && b[0] in a;
      FirstIsLeast(values, a, b[0]);
      FirstIsLeast(values, b, a[0]);
      assert a == [a[0]] + a[1..] && b == [b[0]] + b[1..];
      assert forall x :: x in a <==> x == a[0] || x in a[1..];
      assert forall x :: x in b <==> x == b[0] || x in b[1..];
      SplitFirsts(values, a[1..], b[1..]);
    }
  }

  lemma SortedDistinct(values: seq<Choice>, a: seq<nat>)
    requires Names(a, |values|) && SplitSorted(values, a)
    ensures Distinct(a)
  {
    forall i, j | 0 <= i < j < |a| ensures a[i] != a[j] { assert SplitBefore(values, a[i], a[j]); }
  }

  lemma FirstIsLeast(values: seq<Choice>, a: seq<nat>, x: nat)
    requires Names(a, |values|) && SplitSorted(values, a) && x in a
    ensures x == a[0] || SplitBefore(values, a[0], x)
  {
    var i :| 0 <= i < |a| && a[i] == x;
  }

  lemma RanksDistinct(members: seq<nat>, ranks: seq<nat>)
    requires Distinct(members) && Distinct(ranks) && Names(ranks, |members|)
    ensures DistinctMembers(members, ranks)
  {
    forall i, j | 0 <= i < j < |ranks| ensures members[ranks[i]] != members[ranks[j]] {
      var a, b := if ranks[i] < ranks[j] then ranks[i] else ranks[j], if ranks[i] < ranks[j] then ranks[j]
        else ranks[i];
      assert members[a] != members[b];
    }
  }

  lemma InSelection(members: seq<nat>, ranks: seq<nat>, rank: nat)
    requires Names(ranks, |members|) && rank in ranks
    ensures members[rank] in Select(members, ranks)
  {
    var i :| 0 <= i < |ranks| && ranks[i] == rank;
    assert Select(members, ranks)[i] == members[rank];
  }

  // ---- the object ----

  class KeyValueContext {
    const members: seq<nat>
    const globalRank: nat
    const rank: nat
    const prefix: string
    ghost const path: Path
    var sequences: map<string, nat>

    ghost predicate Valid()
      reads this
    {
      rank < |members| && members[rank] == globalRank && prefix == PrefixText(path) && Distinct(members)
    }

    ghost function State(): Context
      reads this
    {
      Context(members, rank, sequences)
    }

    constructor (members: seq<nat>, globalRank: nat, prefix: string, ghost path: Path)
      requires globalRank in members && prefix == PrefixText(path) && Distinct(members)
      ensures Valid() && this.members == members && this.globalRank == globalRank && this.path == path
      ensures State() == Context(members, PositionOf(members, globalRank), map[])
    {
      this.members, this.globalRank, this.prefix, this.path := members, globalRank, prefix, path;
      this.rank := Find(members, globalRank);
      this.sequences := map[];
    }

    /// The next name on a channel of this context.
    method Next(channel: string) returns (name: string)
      modifies this
      ensures name == prefix + "/" + channel + "/"
                      + Decimal(if channel in old(sequences) then old(sequences)[channel] else 0)
      ensures sequences == old(sequences)[channel :=
                (if channel in old(sequences) then old(sequences)[channel] else 0) + 1]
    {
      var n := if channel in sequences then sequences[channel] else 0;
      name := prefix + "/" + channel + "/" + Decimal(n);
      sequences := sequences[channel := n + 1];
    }

    /// The key of the next message to send, to receive, or (without advance) to look at.
    method MessageKey(src: int, dst: int, tag: int, sending: bool, advance: bool) returns (key: Result<string>)
      requires Valid()
      modifies this
      ensures Valid() && (key.Ok? <==> 0 <= src < |members| && 0 <= dst < |members|)
      ensures key.Ok? ==>
        var channel := if sending then Sends(src, dst, tag) else Receives(src, dst, tag);
        && key.value == KeyText(Message(path, src, dst, tag, old(State()).Count(channel)))
        && State() == if advance then old(State()).Advanced(channel) else old(State())
      ensures key.Error? ==> State() == old(State())
    {
      hide Join, Decimal, ChannelTokens, PrefixText, KeyText;
      if !(0 <= src < |members|) || !(0 <= dst < |members|) {
        return Error("Coordination rank out of range");
      }
      var channel := Join(ChannelTokens(src, dst, tag));
      var counted := (if sending then SENDING else RECEIVING) + "/" + channel;
      JoinFirst(if sending then SENDING else RECEIVING, ChannelTokens(src, dst, tag));
      var n := if counted in sequences then sequences[counted] else 0;
      MessageKeyText(path, src, dst, tag, n);
      if advance { sequences := sequences[counted := n + 1]; }
      key := Ok(prefix + "/" + channel + "/" + Decimal(n));
    }

    /// The key a collective puts this rank's contribution under.
    method CollectiveKey(gather: bool, root: nat) returns (key: string)
      requires Valid() && root < |members|
      modifies this
      ensures Valid() && State() == old(State()).Advanced(Collectives)
      ensures key == KeyText(if gather then AllGather(path, old(State()).Count(Collectives), rank)
                             else Broadcast(path, old(State()).Count(Collectives), root))
    {
      hide Join, Decimal, PrefixText, KeyText, ALL_GATHER, BROADCAST, COLLECTIVE;
      ghost var n := State().Count(Collectives);
      CollectiveKeyText(path, n, rank);
      CollectiveKeyText(path, n, root);
      OneToken(COLLECTIVE);
      var name := Next(COLLECTIVE);
      key := if gather then name + "/" + ALL_GATHER + "/" + Decimal(rank)
        else name + "/" + BROADCAST + "/" + Decimal(root);
    }

    /// The members the ranks name, and the channel their subgroups are counted on.
    method ChosenMembers(ranks: seq<int>) returns (chosen: Result<(seq<nat>, string)>)
      requires Valid()
      ensures chosen.Ok? <==> DistinctMembers(members, ranks)
      ensures chosen.Ok? ==>
        && chosen.value.0 == Select(members, Naturals(ranks))
        && chosen.value.1 == ChannelText(Groups(Naturals(ranks)))
    {
      hide Join, Decimal, PrefixText, KeyText, GROUP, Decimals;
      var found: seq<nat>, group := [], GROUP;
      ghost var numbers: seq<nat> := [];
      OneToken(GROUP);
      assert [GROUP] + Decimals([]) == [GROUP];
      var i := 0;
      while i < |ranks|
        invariant 0 <= i <= |ranks| && |numbers| == |found| == i
        invariant forall k :: 0 <= k < i ==>
          0 <= ranks[k] < |members| && numbers[k] == ranks[k] && found[k] == members[ranks[k]]
        invariant forall j, k :: 0 <= j < k < i ==> found[j] != found[k]
        invariant group == Join([GROUP] + Decimals(numbers))
      {
        if !(0 <= ranks[i] < |members|) { return Error("Coordination rank out of range"); }
        if members[ranks[i]] in found {
          ghost var j :| 0 <= j < i && found[j] == members[ranks[i]];
          return Error("Duplicate rank in subgroup");
        }
        DecimalsLast(numbers, ranks[i]);
        JoinLast([GROUP] + Decimals(numbers), Decimal(ranks[i]));
        assert [GROUP] + Decimals(numbers) + [Decimal(ranks[i])] == [GROUP] + Decimals(numbers + [ranks[i]]);
        found, numbers := found + [members[ranks[i]]], numbers + [ranks[i]];
        group := group + "/" + Decimal(ranks[i]);
        i := i + 1;
      }
      assert numbers == Naturals(ranks) && found == Select(members, numbers);
      chosen := Ok((found, group));
    }

    /// A context of these ranks, in this order, for the processes that are among
    /// them; only they count it.
    method CreateSubContext(ranks: seq<int>) returns (sub: Result<KeyValueContext?>)
      requires Valid()
      modifies this
      ensures Valid() && (sub.Ok? <==> DistinctMembers(members, ranks))
      ensures sub.Ok? ==> (sub.value != null <==> globalRank in Select(members, Naturals(ranks)))
      ensures sub.Ok? && sub.value != null ==>
        var numbers := Naturals(ranks);
        && fresh(sub.value) && sub.value.Valid() && sub.value.globalRank == globalRank
        && sub.value.path == path + [Group(numbers, old(State()).Count(Groups(numbers)))]
        && sub.value.State() == Context(Select(members, numbers), PositionOf(Select(members, numbers), globalRank),
           map[])
        && State() == old(State()).Advanced(Groups(numbers))
      ensures !(sub.Ok? && sub.value != null) ==> State() == old(State())
    {
      hide Join, Decimal, PrefixText, KeyText, ChannelText;
      var chosen := ChosenMembers(ranks);
      if chosen.Error? { return Error(chosen.message); }
      var (found, group) := chosen.value;
      if globalRank !in found { return Ok(null); }
      ghost var numbers := Naturals(ranks);
      ghost var step := Group(numbers, State().Count(Groups(numbers)));
      ChildPrefixText(path, step);
      var name := Next(group);
      var child := new KeyValueContext(found, globalRank, name, path + [step]);
      sub := Ok(child);
    }

    method MakeDuplicate() returns (copy: KeyValueContext)
      requires Valid()
      modifies this
      ensures Valid() && State() == old(State()).Advanced(Duplicates)
      ensures fresh(copy) && copy.Valid() && copy.members == members && copy.globalRank == globalRank
      ensures copy.path == path + [Duplicate(old(State()).Count(Duplicates))]
      ensures copy.State() == Context(members, PositionOf(members, globalRank), map[])
    {
      hide Join, Decimal, PrefixText, KeyText, DUPLICATE;
      OneToken(DUPLICATE);
      ghost var step := Duplicate(State().Count(Duplicates));
      ChildPrefixText(path, step);
      var name := Next(DUPLICATE);
      copy := new KeyValueContext(members, globalRank, name, path + [step]);
    }

    /// The context of this process's color, from every rank's gathered choice;
    /// none for a process without a color.
    method Split(values: seq<Choice>, color: int, undefined: int) returns (sub: KeyValueContext?)
      requires Valid() && |values| == |members| && values[rank].color == color
      modifies this
      ensures Valid() && (sub == null <==> color == undefined)
      ensures sub == null ==> State() == old(State())
      ensures sub != null ==>
        && fresh(sub) && sub.Valid() && sub.globalRank == globalRank
        && exists ranks: seq<nat> :: IsSplitOrder(values, color, ranks) && sub.members == Select(members, ranks)
             && sub.path == path + [Group(ranks, old(State()).Count(Groups(ranks)))]
             && State() == old(State()).Advanced(Groups(ranks))
    {
      if color == undefined { return null; }
      var ranks := SplitRanks(values, color);
      SortedDistinct(values, ranks);
      RanksDistinct(members, ranks);
      assert Naturals(ranks) == ranks;
      assert rank in ranks;
      var created := CreateSubContext(ranks);
      InSelection(members, ranks, rank);
      sub := created.value;
    }

    /// Ranks of this context as the other context numbers them; -1 for non-members.
    method TranslateRanks(ranks: seq<int>, other: KeyValueContext) returns (translated: Result<seq<int>>)
      requires Valid()
      ensures translated.Ok? <==> forall i :: 0 <= i < |ranks| ==> 0 <= ranks[i] < |members|
      ensures translated.Ok? ==>
        && |translated.value| == |ranks|
        && forall i :: 0 <= i < |ranks| ==>
          if members[ranks[i]] in other.members
          then 0 <= translated.value[i] < |other.members|
            && other.members[translated.value[i]] == members[ranks[i]]
          else translated.value[i] == -1
    {
      var result: seq<int> := [];
      var i := 0;
      while i < |ranks|
        invariant 0 <= i <= |ranks| && |result| == i
        invariant forall k :: 0 <= k < i ==> 0 <= ranks[k] < |members|
        invariant forall k :: 0 <= k < i ==>
          if members[ranks[k]] in other.members
          then 0 <= result[k] < |other.members| && other.members[result[k]] == members[ranks[k]]
          else result[k] == -1
      {
        if !(0 <= ranks[i] < |members|) { return Error("Coordination rank out of range"); }
        var it := Find(other.members, members[ranks[i]]);
        result := result + [if it == |other.members| then -1 else it];
        i := i + 1;
      }
      translated := Ok(result);
    }
  }

  lemma OneToken(token: string)
    ensures Join([token]) == token
  {}

  function Naturals(ranks: seq<int>): (n: seq<nat>)
    requires forall i :: 0 <= i < |ranks| ==> 0 <= ranks[i]
    ensures |n| == |ranks|
  {
    seq(|ranks|, i requires 0 <= i < |ranks| => ranks[i])
  }

}
