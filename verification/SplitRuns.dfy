/// Splits in every interleaving: the processes of a color gather the same
/// choices, so they make one member order and one prefix.
module SplitRuns {
  import opened Coordination
  import opened KeyNames
  import opened Tensors
  import opened KeyValueContexts
  import Runs = CollectiveRuns
  import Words32

  // ---- a choice as bytes ----

  predicate Int32(x: int) { -0x8000_0000 <= x < 0x8000_0000 }

  function Signed(u: int): int { if u < 0x8000_0000 then u else u - Words32.TWO_32 }

  /// The n low bytes of u, lowest first.
  function ToBytes(u: nat, n: nat): (b: Bytes)
    ensures |b| == n
  {
    if n == 0 then [] else [(u % 256) as char] + ToBytes(u / 256, n - 1)
  }

  function FromBytes(b: Bytes): nat {
    if b == [] then 0 else b[0] as int + 256 * FromBytes(b[1..])
  }

  function Limit(n: nat): nat { if n == 0 then 1 else 256 * Limit(n - 1) }

  lemma {:induction false} BytesBack(u: nat, n: nat)
    requires u < Limit(n)
    ensures FromBytes(ToBytes(u, n)) == u
  {
    if n > 0 {
      BytesBack(u / 256, n - 1);
      assert ToBytes(u, n)[1..] == ToBytes(u / 256, n - 1);
    }
  }

  /// Two 4-byte integers, as they lie in memory.
  function Encode(choice: Choice): (b: Bytes)
    ensures |b| == 8
  {
    ToBytes(choice.color % Words32.TWO_32, 4) + ToBytes(choice.key % Words32.TWO_32, 4)
  }

  function Decode(b: Bytes): Choice {
    if |b| != 8 then Choice(0, 0) else Choice(Signed(FromBytes(b[..4])), Signed(FromBytes(b[4..])))
  }

  /// A choice is received as it was sent.
  lemma DecodeEncode(choice: Choice)
    requires Int32(choice.color) && Int32(choice.key)
    ensures Decode(Encode(choice)) == choice
  {
    FourBytes();
    hide ToBytes, FromBytes, Limit;
    var color, key := choice.color % Words32.TWO_32, choice.key % Words32.TWO_32;
    BytesBack(color, 4);
    BytesBack(key, 4);
    assert Encode(choice)[..4] == ToBytes(color, 4) && Encode(choice)[4..] == ToBytes(key, 4);
  }

  lemma FourBytes()
    ensures Limit(4) == Words32.TWO_32
  {
    assert Limit(4) == 256 * (256 * (256 * (256 * Limit(0))));
  }

  // ---- a context's splits in a run of collectives ----

  /// What the processes of a context do to make others: split it at call g, or
  /// make a subgroup of some ranks.
  datatype Event = SplitAt(g: nat) | Subgroup(ranks: seq<nat>)

  /// `choices(p, g)` is what process p splits by at call g.
  type Choices = (nat, nat) -> Choice

  ghost predicate SplitCall(job: Runs.Job, choices: Choices, t: nat, g: nat) {
    && t < |job.teams| && g < |job.schedule| && job.schedule[g] == Runs.Call(t, Runs.Gathering)
    && forall i :: 0 <= i < |job.teams[t].members| ==> SplitValue(job, choices, job.teams[t].members[i], g)
  }

  ghost predicate SplitValue(job: Runs.Job, choices: Choices, p: nat, g: nat) {
    && Int32(choices(p, g).color) && Int32(choices(p, g).key)
    && job.data(p, g) == Encode(choices(p, g))
  }

  /// The choices of a context's members, by rank.
  ghost function Gathered(job: Runs.Job, choices: Choices, t: nat, g: nat): (values: seq<Choice>)
    requires t < |job.teams|
    ensures |values| == |job.teams[t].members|
    ensures forall i :: 0 <= i < |values| ==> values[i] == choices(job.teams[t].members[i], g)
  {
    seq(|job.teams[t].members|, i requires 0 <= i < |job.teams[t].members| => choices(job.teams[t].members[i], g))
  }

  function Decoded(got: seq<Bytes>): (values: seq<Choice>)
    ensures |values| == |got| && forall i :: 0 <= i < |got| ==> values[i] == Decode(got[i])
  {
    seq(|got|, i requires 0 <= i < |got| => Decode(got[i]))
  }

  /// What an event is to a process, with what the process received.
  function CallOf(worker: Runs.Worker, e: Event): Creation {
    match e
    case SplitAt(g) => BySplit(if g in worker.results then Decoded(worker.results[g]) else [])
    case Subgroup(ranks) => ByRanks(ranks)
  }

  function CallsOf(worker: Runs.Worker, events: seq<Event>): (calls: seq<Creation>)
    ensures |calls| == |events| && forall i :: 0 <= i < |events| ==> calls[i] == CallOf(worker, events[i])
  {
    seq(|events|, i requires 0 <= i < |events| => CallOf(worker, events[i]))
  }

  /// The events' splits are all_gathers of the context that the process is past.
  ghost predicate Past(job: Runs.Job, choices: Choices, t: nat, events: seq<Event>, worker: Runs.Worker) {
    forall i :: 0 <= i < |events| && events[i].SplitAt? ==>
      SplitCall(job, choices, t, events[i].g) && events[i].g < worker.next
  }

  /// In every interleaving a process past a split has every member's choice, by rank.
  lemma SplitReceives(job: Runs.Job, choices: Choices, t: nat, run: seq<nat>, p: nat, g: nat)
    requires job.Valid() && Runs.Possible(job, run) && p < job.size && SplitCall(job, choices, t, g)
    requires p in job.teams[t].members && g < Runs.After(job, run).workers[p].next
    ensures CallOf(Runs.After(job, run).workers[p], SplitAt(g)) == BySplit(Gathered(job, choices, t, g))
  {
    hide Encode, Decode, Runs.After, Runs.Possible;
    Runs.CallsReturn(job, run, p, g);
    var got := Runs.After(job, run).workers[p].results[g];
    forall i | 0 <= i < |got| ensures Decode(got[i]) == Gathered(job, choices, t, g)[i] {
      assert SplitValue(job, choices, job.teams[t].members[i], g);
      DecodeEncode(choices(job.teams[t].members[i], g));
    }
  }

  lemma SameCalls(job: Runs.Job, choices: Choices, t: nat, events: seq<Event>, run: seq<nat>, p: nat, q: nat)
    requires job.Valid() && Runs.Possible(job, run) && t < |job.teams|
    requires p < job.size && q < job.size && p in job.teams[t].members && q in job.teams[t].members
    requires Past(job, choices, t, events, Runs.After(job, run).workers[p])
    requires Past(job, choices, t, events, Runs.After(job, run).workers[q])
    ensures CallsOf(Runs.After(job, run).workers[p], events) == CallsOf(Runs.After(job, run).workers[q], events)
  {
    hide SplitCall, Runs.After, Runs.Possible, CallOf;
    var a, b := Runs.After(job, run).workers[p], Runs.After(job, run).workers[q];
    forall i | 0 <= i < |events| ensures CallOf(a, events[i]) == CallOf(b, events[i]) {
      if events[i].SplitAt? {
        SplitReceives(job, choices, t, run, p, events[i].g);
        SplitReceives(job, choices, t, run, q, events[i].g);
      } else {
        SubgroupCall(a, events[i]);
        SubgroupCall(b, events[i]);
      }
    }
  }

  lemma SubgroupCall(worker: Runs.Worker, e: Event)
    requires e.Subgroup?
    ensures CallOf(worker, e) == ByRanks(e.ranks)
  {}

  lemma SplitOrderExists(values: seq<Choice>, color: int) returns (ranks: seq<nat>)
    ensures IsSplitOrder(values, color, ranks)
  {
    var ofColor := (r: nat) => r < |values| && values[r].color == color;
    var chosen := Filter(Range(|values|), ofColor);
    FilterIncreasing(|values|, ofColor);
    forall r: nat | r < |values| ensures r in chosen <==> values[r].color == color { assert Range(|values|)[r] == r; }
    forall i | 0 <= i < |chosen| ensures chosen[i] < |values| { assert chosen[i] in chosen; }
    assert forall i, j :: 0 <= i < j < |chosen| ==> chosen[i] < chosen[j] by { hide Filter, Range; }
    StableIsSorted(values, chosen);
    ranks := StableSorted(values, chosen);
  }

  lemma {:induction false} FilterIncreasing(n: nat, keep: nat -> bool)
    ensures forall i, j :: 0 <= i < j < |Filter(Range(n), keep)| ==>
      Filter(Range(n), keep)[i] < Filter(Range(n), keep)[j]
  {
    hide Filter, Range;
    if n == 0 {
      EmptyFilter(keep);
    } else {
      FilterIncreasing(n - 1, keep);
      FilterStep(n - 1, keep);
      var kept := Filter(Range(n - 1), keep);
      forall i | 0 <= i < |kept| ensures kept[i] < n - 1 { assert kept[i] in kept; InRange(n - 1, kept[i]); }
    }
  }

  lemma InRange(n: nat, x: nat)
    requires x in Range(n)
    ensures x < n
  {}

  /// What a process's context is when the process gets it.
  ghost predicate Fresh(job: Runs.Job, t: nat, p: nat, c: Context) {
    t < |job.teams| && c == Context(job.teams[t].members, Find(job.teams[t].members, p), map[])
  }

  /// In every interleaving, processes that split a context by one color get one
  /// member order, and one prefix: both count the subgroup alike.
  lemma SplitsAgree(job: Runs.Job, choices: Choices, t: nat, events: seq<Event>, run: seq<nat>, undefined: int,
                    p: nat, q: nat, a: seq<Context>, b: seq<Context>, n: nat) returns (ranks: seq<nat>)
    requires job.Valid() && Runs.Possible(job, run) && t < |job.teams|
    requires p < job.size && q < job.size && p in job.teams[t].members && q in job.teams[t].members
    requires Past(job, choices, t, events, Runs.After(job, run).workers[p])
    requires Past(job, choices, t, events, Runs.After(job, run).workers[q])
    requires Creates(a, CallsOf(Runs.After(job, run).workers[p], events), undefined, Find(job.teams[t].members, p))
    requires Creates(b, CallsOf(Runs.After(job, run).workers[q], events), undefined, Find(job.teams[t].members, q))
    requires Fresh(job, t, p, a[0]) && Fresh(job, t, q, b[0])
    requires n < |events| && events[n].SplitAt?
    requires choices(p, events[n].g).color == choices(q, events[n].g).color != undefined
    ensures IsSplitOrder(Gathered(job, choices, t, events[n].g), choices(p, events[n].g).color, ranks)
    ensures Find(job.teams[t].members, p) in ranks && Find(job.teams[t].members, q) in ranks
    ensures a[n + 1] == a[n].Advanced(Groups(ranks)) && b[n + 1] == b[n].Advanced(Groups(ranks))
    ensures Group(ranks, a[n].Count(Groups(ranks))) == Group(ranks, b[n].Count(Groups(ranks)))
  {
    hide Context.Count, Context.Advanced, SplitCall, Runs.After, Runs.Possible, CreatesNext, IsSplitOrder, Encode,
         Decode;
    var g, members := events[n].g, job.teams[t].members;
    var i, j := Find(members, p), Find(members, q);
    var calls := CallsOf(Runs.After(job, run).workers[p], events);
    SameCalls(job, choices, t, events, run, p, q);
    SplitReceives(job, choices, t, run, p, g);
    var values := Gathered(job, choices, t, g);
    ranks := SplitOrderExists(values, values[i].color);
    Members(values, values[i].color, ranks, i);
    Members(values, values[i].color, ranks, j);
    assert Takes(calls[n], undefined, i, ranks) && Takes(calls[n], undefined, j, ranks);
    TakenNext(a[n], a[n + 1], calls[n], undefined, i, ranks) by {
      assert CreatesNext(a[n], a[n + 1], calls[n], undefined, i);
    }
    TakenNext(b[n], b[n + 1], calls[n], undefined, j, ranks) by {
      assert CreatesNext(b[n], b[n + 1], calls[n], undefined, j);
    }
    NothingCounted(a[0], Groups(ranks));
    NothingCounted(b[0], Groups(ranks));
    MembersAgree(a, b, calls, undefined, i, j, ranks, n);
  }

  lemma Members(values: seq<Choice>, color: int, ranks: seq<nat>, r: nat)
    requires IsSplitOrder(values, color, ranks) && r < |values| && values[r].color == color
    ensures r in ranks
  {}

  lemma NothingCounted(c: Context, channel: Channel)
    requires c.sequences == map[]
    ensures c.Count(channel) == 0
  {}

  /// A process that takes a subgroup counts just that one.
  lemma TakenNext(c: Context, next: Context, call: Creation, undefined: int, p: nat, ranks: seq<nat>)
    requires CreatesNext(c, next, call, undefined, p) && Takes(call, undefined, p, ranks)
    ensures next == c.Advanced(Groups(ranks))
  {
    hide Takes, Context.Advanced;
    if taken: seq<nat> :| Takes(call, undefined, p, taken) && next == c.Advanced(Groups(taken)) {
      TakesOne(call, undefined, p, taken, ranks);
    }
  }
}
