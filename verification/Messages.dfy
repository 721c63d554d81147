/// Messages between the ranks of a context: the n-th receive posted on a lane
/// gets the n-th send on it, in every interleaving.
module Messages {
  import opened KeyNames
  import opened Coordination

  // ---- what every step keeps ----

  /// A context's counts are the lengths of its lanes.
  ghost predicate CountsFit(s: System, p: nat, path: Path, peer: nat, tag: int) {
    HasContext(s, p, path) ==>
      var c := ContextOf(s, p, path);
      && c.Count(Sends(c.rank, peer, tag)) == |Sent(s, Lane(path, c.rank, peer, tag))|
      && c.Count(Receives(peer, c.rank, tag)) == Posted(s, Lane(path, peer, c.rank, tag))
  }

  ghost predicate AllCountsFit(s: System) {
    forall p: nat, path: Path, peer: nat, tag: int :: CountsFit(s, p, path, peer, tag)
  }

  ghost predicate HasRank(s: System, p: nat, path: Path, rank: nat) {
    HasContext(s, p, path) && ContextOf(s, p, path).rank == rank
  }

  /// Only the lane's ends send and receive on it.
  ghost predicate LanesOwned(s: System) {
    && (forall lane: Lane :: |Sent(s, lane)| > 0 ==> exists p :: HasRank(s, p, lane.path, lane.src))
    && (forall lane: Lane :: Posted(s, lane) > 0 ==> exists p :: HasRank(s, p, lane.path, lane.dst))
  }

  /// An open put of a message carries the payload sent under its number; an
  /// acknowledgement follows the copy.
  ghost predicate TaskFits(s: System, task: Task) {
    match task
    case Putting(key, payload) =>
      && !key.Ack?
      && (key.Message? ==> key.n < |Sent(s, LaneOf(key))| && Sent(s, LaneOf(key))[key.n] == payload)
    case Synchronous(lane, n, payload) => n < |Sent(s, lane)| && Sent(s, lane)[n] == payload
    case Acknowledging(lane, n) => MessageOf(lane, n) in s.copied
    case _ => true
  }

  function LaneOf(key: Key): Lane
    requires key.Message?
  {
    Lane(key.path, key.src, key.dst, key.tag)
  }

  ghost predicate TasksFit(s: System) {
    forall t :: 0 <= t < |s.tasks| ==> TaskFits(s, s.tasks[t])
  }

  /// Stored messages are what was sent; an acknowledgement is stored after the
  /// copy; copies are of what was sent; an ssend returns after the copy.
  ghost predicate MessageFits(s: System, lane: Lane, n: nat) {
    && (KeyText(MessageOf(lane, n)) in s.store ==>
       n < |Sent(s, lane)| && s.store[KeyText(MessageOf(lane, n))] == Sent(s, lane)[n])
    && (KeyText(AckOf(lane, n)) in s.store ==> MessageOf(lane, n) in s.copied)
    && (MessageOf(lane, n) in s.copied ==> n < |Sent(s, lane)| && s.copied[MessageOf(lane, n)] == Sent(s, lane)[n])
    && (MessageOf(lane, n) in s.returned ==> MessageOf(lane, n) in s.copied)
  }

  ghost predicate MessagesFit(s: System) {
    forall lane: Lane, n: nat :: MessageFits(s, lane, n)
  }

  ghost predicate Orderly(s: System) {
    AllCountsFit(s) && LanesOwned(s) && TasksFit(s) && MessagesFit(s)
  }

  // ---- counts and lanes ----

  /// Taking a number of another channel than a lane's.
  lemma TakenCounts(s: System, p: nat, path: Path, channel: Channel)
    requires AllCountsFit(s) && LanesOwned(s) && HasContext(s, p, path) && !channel.Sends? && !channel.Receives?
    ensures AllCountsFit(Taken(s, p, path, channel)) && LanesOwned(Taken(s, p, path, channel))
  {
    hide Context.Count, Context.Advanced;
    var s' := Taken(s, p, path, channel);
    forall q: nat, other: Path, peer: nat, tag: int ensures CountsFit(s', q, other, peer, tag) {
      assert CountsFit(s, q, other, peer, tag);
      AdvancedCounts(ContextOf(s, p, path), channel, Sends(ContextOf(s, p, path).rank, peer, tag));
      AdvancedCounts(ContextOf(s, p, path), channel, Receives(peer, ContextOf(s, p, path).rank, tag));
    }
    RanksKept(s, s', p, path, channel);
    OwnedKept(s, s');
  }

  lemma RanksKept(s: System, s': System, p: nat, path: Path, channel: Channel)
    requires HasContext(s, p, path) && s'.contexts == Taken(s, p, path, channel).contexts
    ensures forall q: nat, other: Path, rank: nat :: HasRank(s, q, other, rank) ==> HasRank(s', q, other, rank)
  {
    hide Context.Count;
  }

  lemma OwnedKept(s: System, s': System)
    requires LanesOwned(s) && s'.sent == s.sent && s'.posted == s.posted
    requires forall q: nat, other: Path, rank: nat :: HasRank(s, q, other, rank) ==> HasRank(s', q, other, rank)
    ensures LanesOwned(s')
  {
    forall lane: Lane | |Sent(s', lane)| > 0 ensures exists p :: HasRank(s', p, lane.path, lane.src) {
      assert |Sent(s, lane)| > 0;
      var p :| HasRank(s, p, lane.path, lane.src);
      assert HasRank(s', p, lane.path, lane.src);
    }
    forall lane: Lane | Posted(s', lane) > 0 ensures exists p :: HasRank(s', p, lane.path, lane.dst) {
      assert Posted(s, lane) > 0;
      var p :| HasRank(s, p, lane.path, lane.dst);
      assert HasRank(s', p, lane.path, lane.dst);
    }
  }

  /// A send takes the next number of its lane.
  lemma SendCounts(s: System, size: nat, p: nat, path: Path, dst: nat, tag: int, payload: Bytes, s': System)
    requires AllCountsFit(s) && LanesOwned(s) && ContextsFit(s, size) && HasContext(s, p, path)
    requires s'.contexts == Taken(s, p, path, Sends(ContextOf(s, p, path).rank, dst, tag)).contexts
      && s'.posted == s.posted
    requires s'.sent == s.sent[Lane(path, ContextOf(s, p, path).rank, dst, tag) :=
                               Sent(s, Lane(path, ContextOf(s, p, path).rank, dst, tag)) + [payload]]
    ensures AllCountsFit(s') && LanesOwned(s')
  {
    hide Context.Count, Context.Advanced, ContextsFit;
    var c := ContextOf(s, p, path);
    var channel := Sends(c.rank, dst, tag);
    forall q: nat, other: Path, peer: nat, t: int ensures CountsFit(s', q, other, peer, t) {
      assert CountsFit(s, q, other, peer, t);
      AdvancedCounts(c, channel, Sends(c.rank, peer, t));
      AdvancedCounts(c, channel, Receives(peer, c.rank, t));
      if HasContext(s, q, other) && other == path && ContextOf(s, q, other).rank == c.rank {
        OneMember(s, size, p, q, path);
      }
    }
    RanksKept(s, s', p, path, channel);
    assert HasRank(s', p, path, c.rank);
    OwnedGrows(s, s', Lane(path, c.rank, dst, tag), p, p);
  }

  lemma OwnedGrows(s: System, s': System, lane: Lane, p: nat, q: nat)
    requires LanesOwned(s)
    requires forall q: nat, other: Path, rank: nat :: HasRank(s, q, other, rank) ==> HasRank(s', q, other, rank)
    requires forall l: Lane :: |Sent(s', l)| > 0 && !(l == lane && HasRank(s', p, lane.path, lane.src)) ==>
      |Sent(s, l)| > 0
    requires forall l: Lane :: Posted(s', l) > 0 && !(l == lane && HasRank(s', q, lane.path, lane.dst)) ==>
      Posted(s, l) > 0
    ensures LanesOwned(s')
  {
    hide Sent, Posted, HasRank;
    forall l: Lane | |Sent(s', l)| > 0 ensures exists p :: HasRank(s', p, l.path, l.src) {
      if l == lane && HasRank(s', p, lane.path, lane.src) {
      } else {
        var o :| HasRank(s, o, l.path, l.src);
        assert HasRank(s', o, l.path, l.src);
      }
    }
    forall l: Lane | Posted(s', l) > 0 ensures exists p :: HasRank(s', p, l.path, l.dst) {
      if l == lane && HasRank(s', q, lane.path, lane.dst) {
      } else {
        var o :| HasRank(s, o, l.path, l.dst);
        assert HasRank(s', o, l.path, l.dst);
      }
    }
  }

  /// A receive takes the next number of its lane when it is posted.
  lemma PostCounts(s: System, size: nat, p: nat, path: Path, src: nat, tag: int, s': System)
    requires AllCountsFit(s) && LanesOwned(s) && ContextsFit(s, size) && HasContext(s, p, path)
    requires s'.contexts == Taken(s, p, path, Receives(src, ContextOf(s, p, path).rank, tag)).contexts
      && s'.sent == s.sent
    requires s'.posted == s.posted[Lane(path, src, ContextOf(s, p, path).rank, tag) :=
                                   Posted(s, Lane(path, src, ContextOf(s, p, path).rank, tag)) + 1]
    ensures AllCountsFit(s') && LanesOwned(s')
  {
    hide Context.Count, Context.Advanced, ContextsFit;
    var c := ContextOf(s, p, path);
    var channel := Receives(src, c.rank, tag);
    forall q: nat, other: Path, peer: nat, t: int ensures CountsFit(s', q, other, peer, t) {
      assert CountsFit(s, q, other, peer, t);
      AdvancedCounts(c, channel, Sends(c.rank, peer, t));
      AdvancedCounts(c, channel, Receives(peer, c.rank, t));
      if HasContext(s, q, other) && other == path && ContextOf(s, q, other).rank == c.rank {
        OneMember(s, size, p, q, path);
      }
    }
    RanksKept(s, s', p, path, channel);
    assert HasRank(s', p, path, c.rank);
    OwnedGrows(s, s', Lane(path, src, c.rank, tag), p, p);
  }

  /// A new context's lanes are empty at its rank.
  lemma BornCounts(s: System, size: nat, p: nat, path: Path, step: Step, members: seq<nat>, rank: nat)
    requires AllCountsFit(s) && LanesOwned(s) && Unique(s, size) && HasContext(s, p, path)
    requires step.n == ContextOf(s, p, path).Count(StepChannel(step))
    requires members == MembersOf(path + [step], size) && rank < |members| && members[rank] == p
    ensures AllCountsFit(Born(s, p, path, step, members, rank)) && LanesOwned(Born(s, p, path, step, members, rank))
  {
    hide Context.Count, Context.Advanced, ContextsFit, Unique, MembersOf;
    var s' := Born(s, p, path, step, members, rank);
    var taken := Taken(s, p, path, StepChannel(step));
    UniqueParts(s, size);
    ChildIsNew(s, size, p, path, step);
    TakenCounts(s, p, path, StepChannel(step));
    BornKeeps(s, size, p, path, step, members, rank);
    UniqueParts(s', size);
    FreshCounts(members, rank);
    assert forall q: nat, other: Path, r: nat :: HasRank(taken, q, other, r) ==> HasRank(s', q, other, r);
    OwnedKept(taken, s');
    forall q: nat, other: Path, peer: nat, t: int ensures CountsFit(s', q, other, peer, t) {
      assert CountsFit(taken, q, other, peer, t);
      if q == p && other == path + [step] {
        ChildLaneEmpty(taken, s', size, p, other, rank, peer, t);
      }
    }
  }

  lemma FreshCounts(members: seq<nat>, rank: nat)
    ensures forall channel :: Context(members, rank, map[]).Count(channel) == 0
  {}

  lemma ChildLaneEmpty(s: System, s': System, size: nat, p: nat, child: Path, rank: nat, peer: nat, tag: int)
    requires LanesOwned(s) && ContextsFit(s', size) && !HasContext(s, p, child) && HasRank(s', p, child, rank)
    requires forall q: nat, other: Path, r: nat :: HasRank(s, q, other, r) ==> HasRank(s', q, other, r)
    ensures Sent(s, Lane(child, rank, peer, tag)) == [] && Posted(s, Lane(child, peer, rank, tag)) == 0
  {
    hide Context.Count, ContextsFit, MembersOf;
    if |Sent(s, Lane(child, rank, peer, tag))| > 0 {
      var q :| HasRank(s, q, child, rank);
      OneMember(s', size, p, q, child);
    }
    if Posted(s, Lane(child, peer, rank, tag)) > 0 {
      var q :| HasRank(s, q, child, rank);
      OneMember(s', size, p, q, child);
    }
  }

  // ---- every step ----

  /// What was sent only grows at the end of a lane.
  ghost predicate SentGrows(s: System, s': System) {
    forall lane: Lane :: Sent(s, lane) <= Sent(s', lane)
  }

  lemma TaskKept(s: System, s': System, task: Task)
    requires TaskFits(s, task) && SentGrows(s, s') && s.copied.Keys <= s'.copied.Keys
    ensures TaskFits(s', task)
  {
    hide KeyText, Sent;
    if task.Putting? && task.key.Message? { assert Sent(s, LaneOf(task.key)) <= Sent(s', LaneOf(task.key)); }
    if task.Synchronous? { assert Sent(s, task.lane) <= Sent(s', task.lane); }
  }

  lemma MessageKept(s: System, s': System, lane: Lane, n: nat)
    requires MessageFits(s, lane, n) && SentGrows(s, s')
    requires s'.store == s.store && s'.copied == s.copied && s'.returned == s.returned
    ensures MessageFits(s', lane, n)
  {
    hide KeyText, Sent;
    assert Sent(s, lane) <= Sent(s', lane);
  }

  /// An operation opened with its task, the rest as it was.
  lemma OpenedFits(s: System, s': System, task: Task)
    requires TasksFit(s) && MessagesFit(s) && SentGrows(s, s') && TaskFits(s', task)
    requires s'.tasks == s.tasks + [task]
    requires s'.store == s.store && s'.copied == s.copied && s'.returned == s.returned
    ensures TasksFit(s') && MessagesFit(s')
  {
    hide KeyText, Sent, TaskFits, MessageFits, SentGrows;
    forall t | 0 <= t < |s'.tasks| ensures TaskFits(s', s'.tasks[t]) {
      if t < |s.tasks| { TaskKept(s, s', s.tasks[t]); }
    }
    forall lane: Lane, n: nat ensures MessageFits(s', lane, n) { MessageKept(s, s', lane, n); }
  }

  lemma SameFits(s: System, s': System)
    requires TasksFit(s) && MessagesFit(s) && s'.tasks == s.tasks && s'.sent == s.sent
    requires s'.store == s.store && s'.copied == s.copied && s'.returned == s.returned
    ensures TasksFit(s') && MessagesFit(s')
  {
    hide KeyText, Sent, TaskFits, MessageFits;
    SameSent(s, s');
    forall t | 0 <= t < |s'.tasks| ensures TaskFits(s', s'.tasks[t]) { TaskKept(s, s', s.tasks[t]); }
    forall lane: Lane, n: nat ensures MessageFits(s', lane, n) { MessageKept(s, s', lane, n); }
  }

  lemma SameSent(s: System, s': System)
    requires s'.sent == s.sent
    ensures SentGrows(s, s')
  {}

  lemma AppendedSent(s: System, s': System, lane: Lane, payload: Bytes)
    requires s'.sent == s.sent[lane := Sent(s, lane) + [payload]]
    ensures SentGrows(s, s') && Sent(s', lane) == Sent(s, lane) + [payload]
  {}

  /// Tasks that remain when one is closed or replaced by a fitting one.
  lemma RemainFits(s: System, s': System, t: nat)
    requires TasksFit(s) && SentGrows(s, s') && s.copied.Keys <= s'.copied.Keys && t < |s.tasks|
    requires s'.tasks == Without(s.tasks, t)
      || (|s'.tasks| == |s.tasks| && TaskFits(s', s'.tasks[t]) && s'.tasks == s.tasks[t := s'.tasks[t]])
    ensures TasksFit(s')
  {
    hide KeyText, Sent, TaskFits, SentGrows;
    forall u | 0 <= u < |s'.tasks| ensures TaskFits(s', s'.tasks[u]) {
      if |s'.tasks| == |s.tasks| {
        TaskKept(s, s', s.tasks[u]);
      } else {
        TaskKept(s, s', s.tasks[if u < t then u else u + 1]);
      }
    }
  }

  lemma PutFits(s: System, t: nat)
    requires TasksFit(s) && MessagesFit(s) && Enabled(s, Put(t))
    ensures TasksFit(Apply(s, Put(t))) && MessagesFit(Apply(s, Put(t)))
  {
    hide KeyText, Sent;
    var s', task := Apply(s, Put(t)), s.tasks[t];
    SameSent(s, s');
    RemainFits(s, s', t);
    assert TaskFits(s, task);
    forall lane: Lane, n: nat ensures MessageFits(s', lane, n) {
      assert MessageFits(s, lane, n);
      if KeyText(MessageOf(lane, n)) == KeyText(PutKey(task)) { KeysApart(MessageOf(lane, n), PutKey(task)); }
      if KeyText(AckOf(lane, n)) == KeyText(PutKey(task)) { KeysApart(AckOf(lane, n), PutKey(task)); }
      SentSame(s, s', lane);
    }
  }

  lemma SentSame(s: System, s': System, lane: Lane)
    requires s'.sent == s.sent
    ensures Sent(s', lane) == Sent(s, lane)
  {}

  lemma ReceiveFits(s: System, t: nat)
    requires TasksFit(s) && MessagesFit(s) && Enabled(s, Receive(t))
    ensures TasksFit(Apply(s, Receive(t))) && MessagesFit(Apply(s, Receive(t)))
  {
    hide KeyText, Sent;
    var s', task := Apply(s, Receive(t)), s.tasks[t];
    SameSent(s, s');
    RemainFits(s, s', t);
    assert MessageFits(s, task.lane, task.n);
    forall lane: Lane, n: nat ensures MessageFits(s', lane, n) {
      assert MessageFits(s, lane, n);
      SentSame(s, s', lane);
    }
  }

  lemma DropFits(s: System, t: nat)
    requires TasksFit(s) && MessagesFit(s) && Enabled(s, Drop(t))
    ensures TasksFit(Apply(s, Drop(t))) && MessagesFit(Apply(s, Drop(t)))
  {
    hide KeyText, Sent, TaskFits, MessageFits;
    SameSent(s, Apply(s, Drop(t)));
    RemainFits(s, Apply(s, Drop(t)), t);
    forall lane: Lane, n: nat
      ensures MessageFits(Apply(s, Drop(t)), lane, n)
    {
      MessageKept(s, Apply(s, Drop(t)), lane, n);
    }
  }

  lemma ReturnFits(s: System, t: nat)
    requires TasksFit(s) && MessagesFit(s) && Enabled(s, Return(t))
    ensures TasksFit(Apply(s, Return(t))) && MessagesFit(Apply(s, Return(t)))
  {
    hide KeyText, Sent, TaskFits;
    var s', task := Apply(s, Return(t)), s.tasks[t];
    SameSent(s, s');
    RemainFits(s, s', t);
    assert MessageFits(s, task.lane, task.n);
    forall lane: Lane, n: nat ensures MessageFits(s', lane, n) {
      assert MessageFits(s, lane, n);
      SentSame(s, s', lane);
    }
  }

  lemma SendFits(s: System, size: nat, p: nat, path: Path, dst: nat, tag: int, payload: Bytes, sync: bool)
    requires Orderly(s) && Unique(s, size) && Enabled(s, Send(p, path, dst, tag, payload, sync))
    ensures Orderly(Apply(s, Send(p, path, dst, tag, payload, sync)))
  {
    hide KeyText, Context.Count, Context.Advanced, Sent, SentGrows, TasksFit, MessagesFit, AllCountsFit, LanesOwned,
         Unique;
    UniqueParts(s, size);
    var s', c := Apply(s, Send(p, path, dst, tag, payload, sync)), ContextOf(s, p, path);
    var lane := Lane(path, c.rank, dst, tag);
    assert CountsFit(s, p, path, dst, tag) by { AllCounts(s, p, path, dst, tag); }
    SendCounts(s, size, p, path, dst, tag, payload, s');
    AppendedSent(s, s', lane, payload);
    OpenedFits(s, s', s'.tasks[|s.tasks|]);
  }

  lemma AllCounts(s: System, p: nat, path: Path, peer: nat, tag: int)
    requires AllCountsFit(s)
    ensures CountsFit(s, p, path, peer, tag)
  {}

  lemma GroupFits(s: System, size: nat, p: nat, path: Path, ranks: seq<nat>)
    requires Orderly(s) && Unique(s, size) && Enabled(s, MakeGroup(p, path, ranks))
    ensures Orderly(Apply(s, MakeGroup(p, path, ranks)))
  {
    hide KeyText, Context.Count, Context.Advanced, Sent, Posted, SentGrows, TasksFit, MessagesFit, AllCountsFit,
         LanesOwned, Unique, MembersOf, CountsFit;
    UniqueParts(s, size);
    var c := ContextOf(s, p, path);
    var step := Group(ranks, c.Count(Groups(ranks)));
    var members := seq(|ranks|, i requires 0 <= i < |ranks| => c.members[ranks[i]]);
    ChildMembers(s, size, p, path, step);
    assert members == MembersOf(path + [step], size);
    var i :| 0 <= i < |ranks| && c.members[ranks[i]] == p;
    assert members[i] == p;
    BornCounts(s, size, p, path, step, members, PositionOf(members, p));
    SameFits(s, Apply(s, MakeGroup(p, path, ranks)));
  }

  lemma StepKeepsOrder(s: System, size: nat, a: Action)
    requires Orderly(s) && Unique(s, size) && Enabled(s, a)
    ensures Orderly(Apply(s, a))
  {
    hide KeyText, Context.Count, Context.Advanced, Sent, Posted, SentGrows, TasksFit, MessagesFit, AllCountsFit,
         LanesOwned, Unique, MembersOf, CountsFit;
    UniqueParts(s, size);
    var s' := Apply(s, a);
    match a
    case Send(p, path, dst, tag, payload, sync) => SendFits(s, size, p, path, dst, tag, payload, sync);
    case PostReceive(p, path, src, tag, bytes) =>
      PostCounts(s, size, p, path, src, tag, s');
      SameSent(s, s');
      OpenedFits(s, s', s'.tasks[|s.tasks|]);
    case Gather(p, path, payload) =>
      TakenCounts(s, p, path, Collectives);
      SameCounts(Taken(s, p, path, Collectives), s');
      SameSent(s, s');
      OpenedFits(s, s', s'.tasks[|s.tasks|]);
    case Cast(p, path, root, payload) =>
      TakenCounts(s, p, path, Collectives);
      SameCounts(Taken(s, p, path, Collectives), s');
      SameSent(s, s');
      if ContextOf(s, p, path).rank == root { OpenedFits(s, s', s'.tasks[|s.tasks|]); } else { SameFits(s, s'); }
    case MakeDuplicate(p, path) =>
      var c := ContextOf(s, p, path);
      ChildMembers(s, size, p, path, Duplicate(c.Count(Duplicates)));
      ContextRank(s, size, p, path);
      BornCounts(s, size, p, path, Duplicate(c.Count(Duplicates)), c.members, c.rank);
      SameFits(s, s');
    case MakeGroup(p, path, ranks) =>
      GroupFits(s, size, p, path, ranks);
    case Put(t) => PutFits(s, t); SameCounts(s, s');
    case Receive(t) => ReceiveFits(s, t); SameCounts(s, s');
    case Drop(t) => DropFits(s, t); SameCounts(s, s');
    case Return(t) => ReturnFits(s, t); SameCounts(s, s');
  }

  lemma SameCounts(s: System, s': System)
    requires AllCountsFit(s) && LanesOwned(s) && s'.contexts == s.contexts && s'.sent == s.sent && s'.posted == s.posted
    ensures AllCountsFit(s') && LanesOwned(s')
  {
    hide Context.Count;
    forall p: nat, path: Path, peer: nat, tag: int ensures CountsFit(s', p, path, peer, tag) {
      assert CountsFit(s, p, path, peer, tag);
    }
    assert forall q: nat, other: Path, rank: nat :: HasRank(s, q, other, rank) ==> HasRank(s', q, other, rank);
    OwnedKept(s, s');
  }

  lemma {:induction false} RunsKeepOrder(size: nat, run: seq<Action>)
    requires Possible(size, run)
    ensures Orderly(After(size, run)) && Unique(After(size, run), size)
  {
    hide Orderly, Unique, Apply, Enabled;
    RunsKeepUnique(size, run);
    if run == [] {
      InitialOrderly(size);
    } else {
      RunsKeepOrder(size, run[..|run| - 1]);
      StepKeepsOrder(After(size, run[..|run| - 1]), size, run[|run| - 1]);
    }
  }

  lemma InitialOrderly(size: nat)
    ensures Orderly(Initial(size))
  {
    hide ChannelText, KeyText;
  }

  // ---- the results ----

  /// The n-th send on a lane is put under n, and the n-th receive posted on it reads n.
  lemma NumbersAreOrder(size: nat, run: seq<Action>, p: nat, path: Path, peer: nat, tag: int)
    requires Possible(size, run) && HasContext(After(size, run), p, path)
    ensures ContextOf(After(size, run), p, path).Count(Sends(ContextOf(After(size, run), p, path).rank, peer, tag))
         == |Sent(After(size, run), Lane(path, ContextOf(After(size, run), p, path).rank, peer, tag))|
    ensures ContextOf(After(size, run), p, path).Count(Receives(peer, ContextOf(After(size, run), p, path).rank, tag))
         == Posted(After(size, run), Lane(path, peer, ContextOf(After(size, run), p, path).rank, tag))
  {
    hide Context.Count, Unique, Apply, KeyText, Sent, Posted;
    RunsKeepOrder(size, run);
    AllCounts(After(size, run), p, path, peer, tag);
  }

  /// A receive copies what the send of its number sent.
  lemma ReceiveGetsItsSend(size: nat, run: seq<Action>, t: nat)
    requires Possible(size, run) && Enabled(After(size, run), Receive(t))
    ensures After(size, run).tasks[t].n < |Sent(After(size, run), After(size, run).tasks[t].lane)|
    ensures Apply(After(size, run), Receive(t)).copied[MessageOf(After(size, run).tasks[t].lane,
      After(size, run).tasks[t].n)]
         == Sent(After(size, run), After(size, run).tasks[t].lane)[After(size, run).tasks[t].n]
  {
    hide Context.Count, Unique, KeyText, Sent, Posted, TasksFit, AllCountsFit, LanesOwned;
    RunsKeepOrder(size, run);
    assert MessageFits(After(size, run), After(size, run).tasks[t].lane, After(size, run).tasks[t].n);
  }

  /// An ssend returns only after the matching receive has copied its data.
  lemma SsendReturnsAfterCopy(size: nat, run: seq<Action>, t: nat)
    requires Possible(size, run) && Enabled(After(size, run), Return(t))
    ensures MessageOf(After(size, run).tasks[t].lane, After(size, run).tasks[t].n) in After(size, run).copied
    ensures After(size, run).tasks[t].n < |Sent(After(size, run), After(size, run).tasks[t].lane)|
    ensures After(size, run).copied[MessageOf(After(size, run).tasks[t].lane, After(size, run).tasks[t].n)]
         == Sent(After(size, run), After(size, run).tasks[t].lane)[After(size, run).tasks[t].n]
  {
    hide Context.Count, Unique, KeyText, Sent, Posted, TasksFit, AllCountsFit, LanesOwned;
    RunsKeepOrder(size, run);
    assert MessageFits(After(size, run), After(size, run).tasks[t].lane, After(size, run).tasks[t].n);
  }

  /// The key a snoop waits for: the one the lane's next receive will read.
  function SnoopKey(s: System, p: nat, path: Path, src: nat, tag: int): Key
    requires HasContext(s, p, path)
  {
    var c := ContextOf(s, p, path);
    Message(path, src, c.rank, tag, c.Count(Receives(src, c.rank, tag)))
  }

  /// A snoop sees the message the next receive on the lane will get: it takes no number.
  lemma SnoopSeesNext(size: nat, run: seq<Action>, p: nat, path: Path, src: nat, tag: int)
    requires Possible(size, run) && HasContext(After(size, run), p, path)
    requires KeyText(SnoopKey(After(size, run), p, path, src, tag)) in After(size, run).store
    ensures Posted(After(size, run), Lane(path, src, ContextOf(After(size, run), p, path).rank, tag))
          < |Sent(After(size, run), Lane(path, src, ContextOf(After(size, run), p, path).rank, tag))|
    ensures After(size, run).store[KeyText(SnoopKey(After(size, run), p, path, src, tag))]
         == Sent(After(size, run), Lane(path, src, ContextOf(After(size, run), p, path).rank, tag))
              [Posted(After(size, run), Lane(path, src, ContextOf(After(size, run), p, path).rank, tag))]
  {
    hide Context.Count, Unique, Apply, KeyText, Sent, Posted, TasksFit, LanesOwned;
    RunsKeepOrder(size, run);
    var s := After(size, run);
    var lane := Lane(path, src, ContextOf(s, p, path).rank, tag);
    AllCounts(s, p, path, src, tag);
    assert MessageFits(s, lane, Posted(s, lane));
  }
}
