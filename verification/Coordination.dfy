/// Processes that coordinate through a store which only offers `put` and a
/// blocking `get`: every operation of a context, in every interleaving.
///
/// An operation first takes its key from the context's counters; its put, its
/// blocking get and the put that acknowledges a receive happen later, each at
/// a time of its own. A get blocks while its key is absent, so it is a step
/// that is possible only once the key is there.
module Coordination {
  import opened KeyNames
  import opened Tensors

  type Bytes = string

  // ---- one context ----

  /// What a context counts.
  datatype Channel = Sends(src: nat, dst: nat, tag: int) | Receives(src: nat, dst: nat, tag: int)
                   | Collectives | Duplicates | Groups(ranks: seq<nat>)

  const SENDING := "send"
  const RECEIVING := "recv"

  function ChannelPath(channel: Channel): (t: seq<string>)
    ensures |t| > 0
  {
    match channel
    case Sends(src, dst, tag) => [SENDING] + ChannelTokens(src, dst, tag)
    case Receives(src, dst, tag) => [RECEIVING] + ChannelTokens(src, dst, tag)
    case Collectives => [COLLECTIVE]
    case Duplicates => [DUPLICATE]
    case Groups(ranks) => [GROUP] + Decimals(ranks)
  }

  /// The name under which `sequences_` counts the channel.
  function ChannelText(channel: Channel): string { Join(ChannelPath(channel)) }

  lemma ChannelWords()
    ensures SENDING != RECEIVING && SENDING != COLLECTIVE && SENDING != DUPLICATE && SENDING != GROUP
    ensures RECEIVING != COLLECTIVE && RECEIVING != DUPLICATE && RECEIVING != GROUP
    ensures IsToken(SENDING) && IsToken(RECEIVING)
  {
    assert SENDING[0] == 's' && RECEIVING[0] == 'r' && COLLECTIVE[0] == 'c' && DUPLICATE[0] == 'd' && GROUP[0] == 'g';
  }

  lemma ChannelIsTokens(channel: Channel)
    ensures AreTokens(ChannelPath(channel))
  {
    hide SENDING, RECEIVING, COLLECTIVE, DUPLICATE, GROUP, MESSAGE, IsToken, Decimal, Signed;
    ChannelWords();
    WordsApart();
    match channel
    case Sends(src, dst, tag) => OperationIsTokens(Message([], src, dst, tag, 0)); ChannelPrefix(src, dst, tag);
    case Receives(src, dst, tag) => OperationIsTokens(Message([], src, dst, tag, 0)); ChannelPrefix(src, dst, tag);
    case Collectives =>
    case Duplicates =>
    case Groups(ranks) =>
      forall i | 0 <= i < |ranks| ensures IsToken(Decimals(ranks)[i]) { NumberIsToken(ranks[i]); }
  }

  lemma ChannelPrefix(src: nat, dst: nat, tag: int)
    ensures forall i :: 0 <= i < 4 ==>
      ChannelTokens(src, dst, tag)[i] == OperationTokens(Message([], src, dst, tag, 0))[i]
  {
    hide MESSAGE, Decimal, Signed;
  }

  /// Distinct channels are counted apart.
  lemma ChannelsApart(a: Channel, b: Channel)
    requires ChannelText(a) == ChannelText(b)
    ensures a == b
  {
    hide SENDING, RECEIVING, COLLECTIVE, DUPLICATE, GROUP, MESSAGE, IsToken, Decimal, Signed, Join, Split, SignedValue;
    ChannelIsTokens(a);
    ChannelIsTokens(b);
    SplitJoin(ChannelPath(a));
    SplitJoin(ChannelPath(b));
    ChannelWords();
    WordsApart();
    var x, y := ChannelPath(a), ChannelPath(b);
    assert x == y && x[0] == y[0];
    if a.Groups? && b.Groups? {
      assert Decimals(a.ranks) == x[1..] && Decimals(b.ranks) == y[1..];
      DecimalsAre(a.ranks);
      DecimalsAre(b.ranks);
    } else if (a.Sends? && b.Sends?) || (a.Receives? && b.Receives?) {
      assert x[2] == Decimal(a.src) && x[3] == Decimal(a.dst) && x[4] == Signed(a.tag);
      assert y[2] == Decimal(b.src) && y[3] == Decimal(b.dst) && y[4] == Signed(b.tag);
      DecimalValue(a.src);
      DecimalValue(b.src);
      DecimalValue(a.dst);
      DecimalValue(b.dst);
      SignedRoundTrip(a.tag);
      SignedRoundTrip(b.tag);
    }
  }

  datatype Context = Context(members: seq<nat>, rank: nat, sequences: map<string, nat>)
  {
    function Count(channel: Channel): nat {
      if ChannelText(channel) in sequences then sequences[ChannelText(channel)] else 0
    }

    function Advanced(channel: Channel): Context {
      this.(sequences := sequences[ChannelText(channel) := Count(channel) + 1])
    }
  }

  /// Counting one channel leaves the others' counts alone.
  lemma AdvancedCounts(c: Context, channel: Channel, other: Channel)
    ensures c.Advanced(channel).Count(other) == c.Count(other) + (if other == channel then 1 else 0)
    ensures c.Advanced(channel).members == c.members && c.Advanced(channel).rank == c.rank
  {
    hide ChannelText;
    if ChannelText(channel) == ChannelText(other) { ChannelsApart(channel, other); }
  }

  /// The members of the context with a path, of `size` processes: a path determines them.
  function MembersOf(path: Path, size: nat): seq<nat> {
    if path == [] then Range(size)
    else
      var parent := MembersOf(path[..|path| - 1], size);
      match path[|path| - 1]
      case Duplicate(_) => parent
      case Group(ranks, _) =>
        seq(|ranks|, i requires 0 <= i < |ranks| => if ranks[i] < |parent| then parent[ranks[i]] else 0)
  }

  function StepChannel(step: Step): Channel {
    match step
    case Duplicate(_) => Duplicates
    case Group(ranks, _) => Groups(ranks)
  }

  // ---- the names the code builds ----

  lemma JoinLast(tokens: seq<string>, last: string)
    requires |tokens| > 0
    ensures Join(tokens + [last]) == Join(tokens) + "/" + last
  {
    JoinConcat(tokens, [last]);
  }

  /// A message's key, as the code concatenates it.
  lemma MessageKeyText(path: Path, src: nat, dst: nat, tag: int, n: nat)
    ensures PrefixText(path) + "/" + Join(ChannelTokens(src, dst, tag)) + "/" + Decimal(n)
      == KeyText(Message(path, src, dst, tag, n))
    ensures KeyText(Message(path, src, dst, tag, n)) + "/" + ACK == KeyText(Ack(path, src, dst, tag, n))
  {
    hide Join, ChannelTokens, Decimal, PrefixText, KeyText, ACK;
    var m := Message(path, src, dst, tag, n);
    PrefixOfKey(m);
    PrefixOfKey(Ack(path, src, dst, tag, n));
    JoinLast(ChannelTokens(src, dst, tag), Decimal(n));
    JoinLast(ChannelTokens(src, dst, tag) + [Decimal(n)], ACK);
    assert ChannelTokens(src, dst, tag) + [Decimal(n)] + [ACK] == OperationTokens(Ack(path, src, dst, tag, n));
    Associate(PrefixText(path), Join(ChannelTokens(src, dst, tag)), Decimal(n));
    Associate(PrefixText(path), Join(OperationTokens(m)), ACK);
  }

  lemma Associate(a: string, b: string, c: string)
    ensures a + "/" + (b + "/" + c) == a + "/" + b + "/" + c
  {}

  /// A collective's keys.
  lemma CollectiveKeyText(path: Path, n: nat, r: nat)
    ensures PrefixText(path) + "/" + ChannelText(Collectives) + "/" + Decimal(n) + "/" + ALL_GATHER + "/" + Decimal(r)
         == KeyText(AllGather(path, n, r))
    ensures PrefixText(path) + "/" + ChannelText(Collectives) + "/" + Decimal(n) + "/" + BROADCAST + "/" + Decimal(r)
         == KeyText(Broadcast(path, n, r))
  {
    hide Join, Decimal, PrefixText, KeyText, ALL_GATHER, BROADCAST, COLLECTIVE;
    PrefixOfKey(AllGather(path, n, r));
    PrefixOfKey(Broadcast(path, n, r));
    FourTokens(COLLECTIVE, Decimal(n), ALL_GATHER, Decimal(r));
    FourTokens(COLLECTIVE, Decimal(n), BROADCAST, Decimal(r));
    FourParts(PrefixText(path), ChannelText(Collectives), Decimal(n), ALL_GATHER, Decimal(r));
    FourParts(PrefixText(path), ChannelText(Collectives), Decimal(n), BROADCAST, Decimal(r));
  }

  lemma FourTokens(a: string, b: string, c: string, d: string)
    ensures Join([a, b, c, d]) == Join([a]) + "/" + b + "/" + c + "/" + d
  {
    hide Join;
    JoinLast([a], b);
    JoinLast([a, b], c);
    JoinLast([a, b, c], d);
    assert [a, b] + [c] == [a, b, c] && [a] + [b] == [a, b] && [a, b, c] + [d] == [a, b, c, d];
  }

  lemma FourParts(p: string, a: string, b: string, c: string, d: string)
    ensures p + "/" + (a + "/" + b + "/" + c + "/" + d) == p + "/" + a + "/" + b + "/" + c + "/" + d
  {
    Associate(p, a, b);
    Associate(p, a + "/" + b, c);
    Associate(p, a + "/" + b + "/" + c, d);
  }

  /// A child context's prefix.
  lemma ChildPrefixText(path: Path, step: Step)
    ensures PrefixText(path + [step]) == PrefixText(path) + "/" + ChannelText(StepChannel(step)) + "/" + Decimal(step.n)
  {
    hide Join, Decimal, PrefixText, DUPLICATE, GROUP;
    ChildPrefix(path, step);
    JoinLast(ChannelPath(StepChannel(step)), Decimal(step.n));
    assert StepTokens(step) == ChannelPath(StepChannel(step)) + [Decimal(step.n)];
    Associate(PrefixText(path), Join(ChannelPath(StepChannel(step))), Decimal(step.n));
  }

  // ---- the processes ----

  /// The messages from one rank of a context to another with one tag.
  datatype Lane = Lane(path: Path, src: nat, dst: nat, tag: int)

  function MessageOf(lane: Lane, n: nat): Key { Message(lane.path, lane.src, lane.dst, lane.tag, n) }

  function AckOf(lane: Lane, n: nat): Key { Ack(lane.path, lane.src, lane.dst, lane.tag, n) }

  /// What an operation that has its key still has to do.
  datatype Task =
    | Putting(key: Key, payload: Bytes)                  // a send or a collective
    | Synchronous(lane: Lane, n: nat, payload: Bytes)    // an ssend, before its put
    | AwaitingAck(lane: Lane, n: nat)                    // an ssend, after it
    | Receiving(lane: Lane, n: nat, size: nat)           // recv or irecv
    | Acknowledging(lane: Lane, n: nat)                  // its message is copied

  /// A process's contexts by path; the values put; the tasks still open. For the
  /// statements below: what each lane was sent, how many receives were posted
  /// on it, what receives have copied, the buffers that were too small or too
  /// large, which messages were sent by ssend and which ssends have returned.
  datatype System = System(
    contexts: map<(nat, Path), Context>, tasks: seq<Task>, store: map<string, Bytes>,
    sent: map<Lane, seq<Bytes>>, posted: map<Lane, nat>, copied: map<Key, Bytes>, failed: map<Key, nat>,
    synced: set<Key>, returned: set<Key>)

  datatype Action =
    | Send(p: nat, path: Path, dst: nat, tag: int, payload: Bytes, sync: bool)
    | PostReceive(p: nat, path: Path, src: nat, tag: int, size: nat)
    | Gather(p: nat, path: Path, payload: Bytes)         // all_gather, barrier, and split's exchange
    | Cast(p: nat, path: Path, root: nat, payload: Bytes)
    | MakeDuplicate(p: nat, path: Path)
    | MakeGroup(p: nat, path: Path, ranks: seq<nat>)
    | Put(t: nat)
    | Receive(t: nat)
    | Drop(t: nat)                                       // the message has another size than the buffer
    | Return(t: nat)

  function Initial(size: nat): System {
    System(map p: nat | p < size :: (p, []) := Context(Range(size), p, map[]), [], map[], map[], map[], map[],
           map[], {}, {})
  }

  predicate HasContext(s: System, p: nat, path: Path) { (p, path) in s.contexts }

  function ContextOf(s: System, p: nat, path: Path): Context
    requires HasContext(s, p, path)
  {
    s.contexts[(p, path)]
  }

  predicate ValidGroup(c: Context, ranks: seq<nat>, p: nat) {
    && (forall i :: 0 <= i < |ranks| ==> ranks[i] < |c.members|)
    && (forall i, j :: 0 <= i < j < |ranks| ==> c.members[ranks[i]] != c.members[ranks[j]])
    && exists i :: 0 <= i < |ranks| && c.members[ranks[i]] == p
  }

  /// What a task will put, if it will.
  predicate Owes(task: Task) { !task.AwaitingAck? }

  function PutKey(task: Task): Key
    requires Owes(task)
  {
    match task
    case Putting(key, _) => key
    case Synchronous(lane, n, _) => MessageOf(lane, n)
    case Receiving(lane, n, _) => AckOf(lane, n)
    case Acknowledging(lane, n) => AckOf(lane, n)
  }

  predicate Enabled(s: System, a: Action) {
    match a
    case Send(p, path, dst, _, _, _) => HasContext(s, p, path) && dst < |ContextOf(s, p, path).members|
    case PostReceive(p, path, src, _, _) => HasContext(s, p, path) && src < |ContextOf(s, p, path).members|
    case Gather(p, path, _) => HasContext(s, p, path) && |ContextOf(s, p, path).members| > 1
    case Cast(p, path, root, _) => HasContext(s, p, path) && 1 < |ContextOf(s, p, path).members|
      && root < |ContextOf(s, p, path).members|
    case MakeDuplicate(p, path) => HasContext(s, p, path)
    case MakeGroup(p, path, ranks) => HasContext(s, p, path) && ValidGroup(ContextOf(s, p, path), ranks, p)
    case Put(t) => t < |s.tasks| && (s.tasks[t].Putting? || s.tasks[t].Synchronous? || s.tasks[t].Acknowledging?)
    case Receive(t) =>
      && t < |s.tasks| && s.tasks[t].Receiving? && Arrived(s, s.tasks[t])
      && |ValueOfMessage(s, s.tasks[t])| == s.tasks[t].size
    case Drop(t) =>
      && t < |s.tasks| && s.tasks[t].Receiving? && Arrived(s, s.tasks[t])
      && |ValueOfMessage(s, s.tasks[t])| != s.tasks[t].size
    case Return(t) =>
      && t < |s.tasks| && s.tasks[t].AwaitingAck?
      && KeyText(AckOf(s.tasks[t].lane, s.tasks[t].n)) in s.store
  }

  predicate Arrived(s: System, task: Task)
    requires task.Receiving?
  {
    KeyText(MessageOf(task.lane, task.n)) in s.store
  }

  function ValueOfMessage(s: System, task: Task): Bytes
    requires task.Receiving? && Arrived(s, task)
  {
    s.store[KeyText(MessageOf(task.lane, task.n))]
  }

  function Sent(s: System, lane: Lane): seq<Bytes> { if lane in s.sent then s.sent[lane] else [] }

  function Posted(s: System, lane: Lane): nat { if lane in s.posted then s.posted[lane] else 0 }

  /// A context takes a number of a channel.
  function Taken(s: System, p: nat, path: Path, channel: Channel): System
    requires HasContext(s, p, path)
  {
    s.(contexts := s.contexts[(p, path) := ContextOf(s, p, path).Advanced(channel)])
  }

  function Opened(s: System, task: Task): System { s.(tasks := s.tasks + [task]) }

  function Without(tasks: seq<Task>, t: nat): seq<Task>
    requires t < |tasks|
  {
    tasks[..t] + tasks[t + 1..]
  }

  /// A child context joins the process's, with the step's number taken.
  function Born(s: System, p: nat, path: Path, step: Step, members: seq<nat>, rank: nat): System
    requires HasContext(s, p, path)
  {
    var taken := Taken(s, p, path, StepChannel(step));
    taken.(contexts := taken.contexts[(p, path + [step]) := Context(members, rank, map[])])
  }

  function PositionOf(members: seq<nat>, p: nat): (i: nat)
    ensures p in members ==> i < |members| && members[i] == p
  {
    Find(members, p)
  }

  function Apply(s: System, a: Action): System
    requires Enabled(s, a)
  {
    match a
    case Send(p, path, dst, tag, payload, sync) =>
      var c := ContextOf(s, p, path);
      var lane, n := Lane(path, c.rank, dst, tag), c.Count(Sends(c.rank, dst, tag));
      var next := Taken(s, p, path, Sends(c.rank, dst, tag)).(
        sent := s.sent[lane := Sent(s, lane) + [payload]],
        synced := if sync then s.synced + {MessageOf(lane, n)} else s.synced);
      Opened(next, if sync then Synchronous(lane, n, payload) else Putting(MessageOf(lane, n), payload))
    case PostReceive(p, path, src, tag, size) =>
      var c := ContextOf(s, p, path);
      var lane, n := Lane(path, src, c.rank, tag), c.Count(Receives(src, c.rank, tag));
      var next := Taken(s, p, path, Receives(src, c.rank, tag)).(posted := s.posted[lane := Posted(s, lane) + 1]);
      Opened(next, Receiving(lane, n, size))
    case Gather(p, path, payload) =>
      var c := ContextOf(s, p, path);
      Opened(Taken(s, p, path, Collectives), Putting(AllGather(path, c.Count(Collectives), c.rank), payload))
    case Cast(p, path, root, payload) =>
      var c := ContextOf(s, p, path);
      var next := Taken(s, p, path, Collectives);
      if c.rank == root then Opened(next, Putting(Broadcast(path, c.Count(Collectives), root), payload)) else next
    case MakeDuplicate(p, path) =>
      var c := ContextOf(s, p, path);
      Born(s, p, path, Duplicate(c.Count(Duplicates)), c.members, c.rank)
    case MakeGroup(p, path, ranks) =>
      var c := ContextOf(s, p, path);
      var members := seq(|ranks|, i requires 0 <= i < |ranks| => c.members[ranks[i]]);
      Born(s, p, path, Group(ranks, c.Count(Groups(ranks))), members, PositionOf(members, p))
    case Put(t) =>
      var task := s.tasks[t];
      var put := s.(store := s.store[KeyText(PutKey(task)) := if task.Acknowledging? then "1" else task.payload]);
      put.(tasks := if task.Synchronous? then s.tasks[t := AwaitingAck(task.lane, task.n)] else Without(s.tasks, t))
    case Receive(t) =>
      var task := s.tasks[t];
      s.(copied := s.copied[MessageOf(task.lane, task.n) := ValueOfMessage(s, task)],
         tasks := s.tasks[t := Acknowledging(task.lane, task.n)])
    case Drop(t) =>
      var task := s.tasks[t];
      s.(failed := s.failed[MessageOf(task.lane, task.n) := task.size], tasks := Without(s.tasks, t))
    case Return(t) =>
      s.(returned := s.returned + {MessageOf(s.tasks[t].lane, s.tasks[t].n)}, tasks := Without(s.tasks, t))
  }

  // ---- runs ----

  /// Whether the actions can happen one after another, and where they lead.
  predicate Possible(size: nat, run: seq<Action>)
    decreases |run|, 0
  {
    run == [] || (Possible(size, run[..|run| - 1]) && Enabled(After(size, run[..|run| - 1]), run[|run| - 1]))
  }

  function After(size: nat, run: seq<Action>): System
    requires Possible(size, run)
    decreases |run|, 1
  {
    if run == [] then Initial(size) else Apply(After(size, run[..|run| - 1]), run[|run| - 1])
  }

  // ---- what every step keeps ----

  function RankOf(key: Key): nat {
    match key
    case Message(_, src, _, _, _) => src
    case Ack(_, _, dst, _, _) => dst
    case AllGather(_, _, rank) => rank
    case Broadcast(_, _, root) => root
  }

  function ChannelOf(key: Key): Channel {
    match key
    case Message(_, src, dst, tag, _) => Sends(src, dst, tag)
    case Ack(_, src, dst, tag, _) => Receives(src, dst, tag)
    case AllGather(_, _, _) => Collectives
    case Broadcast(_, _, _) => Collectives
  }

  /// The context is the one of its path, and the process is its member of that rank.
  ghost predicate ContextFits(s: System, size: nat, p: nat, path: Path) {
    HasContext(s, p, path) ==>
      var c := ContextOf(s, p, path);
      && c.members == MembersOf(path, size) && c.rank < |c.members| && c.members[c.rank] == p
      && (path != [] ==>
            && HasContext(s, p, path[..|path| - 1])
            && path[|path| - 1].n < ContextOf(s, p, path[..|path| - 1]).Count(StepChannel(path[|path| - 1])))
  }

  ghost predicate ContextsFit(s: System, size: nat) {
    forall p: nat, path: Path :: ContextFits(s, size, p, path)
  }

  /// Process p has taken the key's number.
  ghost predicate IssuedBy(s: System, key: Key, p: nat) {
    && HasContext(s, p, key.path) && ContextOf(s, p, key.path).rank == RankOf(key)
    && key.n < ContextOf(s, p, key.path).Count(ChannelOf(key))
  }

  ghost predicate Issued(s: System, key: Key) {
    exists p :: IssuedBy(s, key, p)
  }

  ghost predicate OwedApart(s: System) {
    && (forall t :: 0 <= t < |s.tasks| && Owes(s.tasks[t]) ==> Issued(s, PutKey(s.tasks[t])))
    && (forall t, u :: 0 <= t < u < |s.tasks| && Owes(s.tasks[t]) && Owes(s.tasks[u]) ==>
       PutKey(s.tasks[t]) != PutKey(s.tasks[u]))
  }

  ghost predicate OwedUnput(s: System) {
    forall t :: 0 <= t < |s.tasks| && Owes(s.tasks[t]) ==> KeyText(PutKey(s.tasks[t])) !in s.store
  }

  /// Every name in the store is of an issued key.
  ghost predicate StoreIssued(s: System) {
    forall text :: text in s.store ==>
      Decode(text).Some? && KeyText(Decode(text).value) == text && Issued(s, Decode(text).value)
  }

  ghost predicate Unique(s: System, size: nat) {
    ContextsFit(s, size) && OwedApart(s) && OwedUnput(s) && StoreIssued(s)
  }

  // ---- no key is put twice ----

  /// Every context is kept, and no count goes back.
  ghost predicate Grows(s: System, s': System) {
    forall p: nat, path: Path :: HasContext(s, p, path) ==> GrowsAt(s, s', p, path)
  }

  ghost predicate GrowsAt(s: System, s': System, p: nat, path: Path)
    requires HasContext(s, p, path)
  {
    && HasContext(s', p, path)
    && ContextOf(s', p, path).members == ContextOf(s, p, path).members
       && ContextOf(s', p, path).rank == ContextOf(s, p, path).rank
    && forall channel :: ContextOf(s, p, path).Count(channel) <= ContextOf(s', p, path).Count(channel)
  }

  lemma IssuedGrows(s: System, s': System, key: Key)
    requires Grows(s, s') && Issued(s, key)
    ensures Issued(s', key)
  {
    hide Context.Count;
    var p :| IssuedBy(s, key, p);
    assert GrowsAt(s, s', p, key.path);
    assert IssuedBy(s', key, p);
  }

  lemma TakenGrows(s: System, p: nat, path: Path, channel: Channel)
    requires HasContext(s, p, path)
    ensures Grows(s, Taken(s, p, path, channel))
    ensures Taken(s, p, path, channel).tasks == s.tasks && Taken(s, p, path, channel).store == s.store
  {
    hide Context.Count, Context.Advanced;
    var s' := Taken(s, p, path, channel);
    forall q: nat, other: Path | HasContext(s, q, other) ensures GrowsAt(s, s', q, other) {
      forall ch ensures ContextOf(s, q, other).Count(ch) <= ContextOf(s', q, other).Count(ch) {
        AdvancedCounts(ContextOf(s, p, path), channel, ch);
      }
      AdvancedCounts(ContextOf(s, p, path), channel, channel);
    }
  }

  lemma TakenFits(s: System, size: nat, p: nat, path: Path, channel: Channel)
    requires ContextsFit(s, size) && HasContext(s, p, path)
    ensures ContextsFit(Taken(s, p, path, channel), size)
  {
    hide Context.Count, Context.Advanced, MembersOf;
    var s' := Taken(s, p, path, channel);
    TakenGrows(s, p, path, channel);
    AdvancedCounts(ContextOf(s, p, path), channel, channel);
    forall q: nat, other: Path ensures ContextFits(s', size, q, other) {
      assert ContextFits(s, size, q, other);
      if HasContext(s, q, other) && other != [] {
        assert GrowsAt(s, s', q, other[..|other| - 1]);
      }
    }
  }

  /// Two processes with one rank in the contexts of one path are the same.
  lemma OneMember(s: System, size: nat, p: nat, q: nat, path: Path)
    requires ContextsFit(s, size) && HasContext(s, p, path) && HasContext(s, q, path)
    requires ContextOf(s, p, path).rank == ContextOf(s, q, path).rank
    ensures p == q
  {
    hide Context.Count, MembersOf;
    assert ContextFits(s, size, q, path) && ContextFits(s, size, p, path);
  }

  /// A number that is about to be taken was not taken before, by anyone.
  lemma NotYetIssued(s: System, size: nat, p: nat, key: Key)
    requires ContextsFit(s, size) && HasContext(s, p, key.path) && ContextOf(s, p, key.path).rank == RankOf(key)
    requires key.n == ContextOf(s, p, key.path).Count(ChannelOf(key))
    ensures !Issued(s, key)
  {
    hide Context.Count, ContextsFit;
    forall q | IssuedBy(s, key, q) ensures p == q {
      OneMember(s, size, p, q, key.path);
    }
  }

  lemma NowIssued(s: System, p: nat, key: Key)
    requires HasContext(s, p, key.path) && ContextOf(s, p, key.path).rank == RankOf(key)
    requires key.n == ContextOf(s, p, key.path).Count(ChannelOf(key))
    ensures Issued(Taken(s, p, key.path, ChannelOf(key)), key)
  {
    hide Context.Count, Context.Advanced;
    AdvancedCounts(ContextOf(s, p, key.path), ChannelOf(key), ChannelOf(key));
    assert IssuedBy(Taken(s, p, key.path, ChannelOf(key)), key, p);
  }

  /// Growing keeps what is owed and what is stored.
  lemma GrownKeeps(s: System, s': System)
    requires Grows(s, s') && s'.tasks == s.tasks && s'.store == s.store
    requires OwedApart(s) && OwedUnput(s) && StoreIssued(s)
    ensures OwedApart(s') && OwedUnput(s') && StoreIssued(s')
  {
    hide Issued, Grows, Decode, KeyText;
    forall t | 0 <= t < |s.tasks| && Owes(s.tasks[t]) ensures Issued(s', PutKey(s.tasks[t])) {
      IssuedGrows(s, s', PutKey(s.tasks[t]));
    }
    forall text | text in s.store ensures Issued(s', Decode(text).value) {
      IssuedGrows(s, s', Decode(text).value);
    }
  }

  /// A task that owes a key nobody took before.
  lemma OpenedKeeps(s: System, size: nat, p: nat, task: Task)
    requires Unique(s, size) && Owes(task)
    requires HasContext(s, p, PutKey(task).path) && ContextOf(s, p, PutKey(task).path).rank == RankOf(PutKey(task))
    requires PutKey(task).n == ContextOf(s, p, PutKey(task).path).Count(ChannelOf(PutKey(task)))
    ensures Unique(Opened(Taken(s, p, PutKey(task).path, ChannelOf(PutKey(task))), task), size)
  {
    hide Issued, Grows, Decode, KeyText, ContextFits, Context.Count, Context.Advanced;
    var key := PutKey(task);
    var taken := Taken(s, p, key.path, ChannelOf(key));
    NotYetIssued(s, size, p, key);
    NowIssued(s, p, key);
    TakenGrows(s, p, key.path, ChannelOf(key));
    TakenFits(s, size, p, key.path, ChannelOf(key));
    GrownKeeps(s, taken);
    SameContexts(taken, Opened(taken, task), size);
    if KeyText(key) in s.store { DecodeKeyText(key); }
    var tasks := taken.tasks + [task];
    assert forall t :: 0 <= t < |taken.tasks| ==> tasks[t] == taken.tasks[t];
  }

  /// What depends on the contexts alone.
  lemma SameContexts(s: System, s': System, size: nat)
    requires s.contexts == s'.contexts
    ensures ContextsFit(s, size) ==> ContextsFit(s', size)
    ensures forall key :: Issued(s, key) ==> Issued(s', key)
  {
    hide Context.Count, MembersOf;
    if ContextsFit(s, size) {
      forall p: nat, path: Path ensures ContextFits(s', size, p, path) {
        assert ContextFits(s, size, p, path);
      }
    }
    forall key | Issued(s, key) ensures Issued(s', key) {
      var p :| IssuedBy(s, key, p);
      assert IssuedBy(s', key, p);
    }
  }

  lemma WithoutKeeps(s: System, s': System, size: nat, t: nat)
    requires Unique(s, size) && t < |s.tasks|
    requires s'.contexts == s.contexts && s'.store == s.store && s'.tasks == Without(s.tasks, t)
    ensures Unique(s', size)
  {
    hide Issued, Decode, KeyText, ContextFits;
    SameContexts(s, s', size);
    assert forall u :: 0 <= u < |s'.tasks| ==> s'.tasks[u] == s.tasks[if u < t then u else u + 1];
  }

  /// Storing a key that no task owes.
  lemma StoredKeeps(s: System, s': System, size: nat, key: Key, value: Bytes)
    requires Unique(s, size) && Issued(s, key)
    requires forall u :: 0 <= u < |s.tasks| && Owes(s.tasks[u]) ==> PutKey(s.tasks[u]) != key
    requires s'.contexts == s.contexts && s'.tasks == s.tasks && s'.store == s.store[KeyText(key) := value]
    ensures Unique(s', size)
  {
    hide Issued, Decode, KeyText, ContextFits;
    SameContexts(s, s', size);
    DecodeKeyText(key);
    forall u | 0 <= u < |s.tasks| && Owes(s.tasks[u]) ensures KeyText(PutKey(s.tasks[u])) != KeyText(key) {
      if KeyText(PutKey(s.tasks[u])) == KeyText(key) { KeysApart(PutKey(s.tasks[u]), key); }
    }
  }

  lemma PutKeeps(s: System, size: nat, t: nat)
    requires Unique(s, size) && Enabled(s, Put(t))
    ensures Unique(Apply(s, Put(t)), size)
  {
    hide Issued, Decode, KeyText, ContextFits, ContextsFit, StoreIssued, OwedUnput;
    var s', key := Apply(s, Put(t)), PutKey(s.tasks[t]);
    var rest := s.(tasks := s'.tasks);
    if s.tasks[t].Synchronous? {
      OtherTaskKeeps(s, rest, size, t, AwaitingAck(s.tasks[t].lane, s.tasks[t].n));
    } else {
      WithoutKeeps(s, rest, size, t);
      assert forall u :: 0 <= u < |s'.tasks| ==> s'.tasks[u] == s.tasks[if u < t then u else u + 1];
    }
    SameContexts(s, rest, size);
    StoredKeeps(rest, s', size, key, s'.store[KeyText(key)]);
  }

  lemma OtherTaskKeeps(s: System, s': System, size: nat, t: nat, task: Task)
    requires Unique(s, size) && t < |s.tasks| && (Owes(task) ==> Owes(s.tasks[t]) && PutKey(task) == PutKey(s.tasks[t]))
    requires s'.contexts == s.contexts && s'.store == s.store && s'.tasks == s.tasks[t := task]
    ensures Unique(s', size)
  {
    hide Issued, Decode, KeyText, ContextFits;
    SameContexts(s, s', size);
  }

  /// A child's path is new to its process.
  lemma ChildIsNew(s: System, size: nat, p: nat, path: Path, step: Step)
    requires ContextsFit(s, size) && HasContext(s, p, path) && step.n == ContextOf(s, p, path).Count(StepChannel(step))
    ensures !HasContext(s, p, path + [step])
  {
    hide Context.Count, MembersOf;
    assert ContextFits(s, size, p, path + [step]);
    assert (path + [step])[..|path|] == path;
  }

  lemma BornKeeps(s: System, size: nat, p: nat, path: Path, step: Step, members: seq<nat>, rank: nat)
    requires Unique(s, size) && HasContext(s, p, path) && step.n == ContextOf(s, p, path).Count(StepChannel(step))
    requires members == MembersOf(path + [step], size) && rank < |members| && members[rank] == p
    ensures Unique(Born(s, p, path, step, members, rank), size)
  {
    hide Context.Count, Context.Advanced, MembersOf, Decode, KeyText, Issued, ContextFits;
    var taken := Taken(s, p, path, StepChannel(step));
    var s' := Born(s, p, path, step, members, rank);
    ChildIsNew(s, size, p, path, step);
    TakenGrows(s, p, path, StepChannel(step));
    TakenFits(s, size, p, path, StepChannel(step));
    GrownKeeps(s, taken);
    AdvancedCounts(ContextOf(s, p, path), StepChannel(step), StepChannel(step));
    BornGrows(taken, s', p, path + [step]);
    GrownKeeps(taken, s');
    BornFits(taken, s', size, p, path, step);
  }

  lemma BornGrows(s: System, s': System, p: nat, child: Path)
    requires !HasContext(s, p, child) && (p, child) in s'.contexts
      && s'.contexts == s.contexts[(p, child) := s'.contexts[(p, child)]]
    ensures Grows(s, s')
  {
    hide Context.Count;
    forall q: nat, other: Path | HasContext(s, q, other) ensures GrowsAt(s, s', q, other) {
      assert ContextOf(s', q, other) == ContextOf(s, q, other);
    }
  }

  lemma BornFits(s: System, s': System, size: nat, p: nat, path: Path, step: Step)
    requires ContextsFit(s, size) && HasContext(s, p, path) && !HasContext(s, p, path + [step])
      && HasContext(s', p, path + [step])
    requires s'.contexts == s.contexts[(p, path + [step]) := ContextOf(s', p, path + [step])]
    requires step.n < ContextOf(s, p, path).Count(StepChannel(step))
    requires ContextOf(s', p, path + [step]).members == MembersOf(path + [step], size)
    requires ContextOf(s', p, path + [step]).rank < |MembersOf(path + [step], size)|
    requires MembersOf(path + [step], size)[ContextOf(s', p, path + [step]).rank] == p
    ensures ContextsFit(s', size)
  {
    hide Context.Count, MembersOf;
    var child := path + [step];
    forall q: nat, other: Path ensures ContextFits(s', size, q, other) {
      assert ContextFits(s, size, q, other);
      if q == p && other == child {
        assert child[..|child| - 1] == path;
      }
    }
  }

  /// The members a subgroup's creator computes are those its path determines.
  lemma ChildMembers(s: System, size: nat, p: nat, path: Path, step: Step)
    requires ContextsFit(s, size) && HasContext(s, p, path)
    requires step.Group? ==> ValidGroup(ContextOf(s, p, path), step.ranks, p)
    ensures MembersOf(path + [step], size) ==
      match step {
        case Duplicate(_) => ContextOf(s, p, path).members
        case Group(ranks, _) => seq(|ranks|, i requires 0 <= i < |ranks| =>
                                  if ranks[i] < |ContextOf(s, p, path).members|
                                    then ContextOf(s, p, path).members[ranks[i]] else 0)
      }
  {
    hide Context.Count;
    assert ContextFits(s, size, p, path);
    assert (path + [step])[..|path|] == path;
  }

  lemma StepKeepsUnique(s: System, size: nat, a: Action)
    requires Unique(s, size) && Enabled(s, a)
    ensures Unique(Apply(s, a), size)
  {
    hide Context.Count, Context.Advanced, MembersOf, Unique, ContextsFit, KeyText, OwedApart, OwedUnput, StoreIssued;
    UniqueParts(s, size);
    match a
    case Send(p, path, dst, tag, payload, sync) =>
      var c := ContextOf(s, p, path);
      var lane, n := Lane(path, c.rank, dst, tag), c.Count(Sends(c.rank, dst, tag));
      var task := if sync then Synchronous(lane, n, payload) else Putting(MessageOf(lane, n), payload);
      OpenedKeeps(s, size, p, task);
      SameUnique(Opened(Taken(s, p, path, Sends(c.rank, dst, tag)), task), Apply(s, a), size);
    case PostReceive(p, path, src, tag, bytes) =>
      var c := ContextOf(s, p, path);
      var task := Receiving(Lane(path, src, c.rank, tag), c.Count(Receives(src, c.rank, tag)), bytes);
      OpenedKeeps(s, size, p, task);
      SameUnique(Opened(Taken(s, p, path, Receives(src, c.rank, tag)), task), Apply(s, a), size);
    case Gather(p, path, payload) =>
      var c := ContextOf(s, p, path);
      OpenedKeeps(s, size, p, Putting(AllGather(path, c.Count(Collectives), c.rank), payload));
    case Cast(p, path, root, payload) =>
      var c := ContextOf(s, p, path);
      if c.rank == root {
        OpenedKeeps(s, size, p, Putting(Broadcast(path, c.Count(Collectives), root), payload));
      } else {
        TakenKeeps(s, size, p, path, Collectives);
      }
    case MakeDuplicate(p, path) =>
      var c := ContextOf(s, p, path);
      ChildMembers(s, size, p, path, Duplicate(c.Count(Duplicates)));
      ContextRank(s, size, p, path);
      BornKeeps(s, size, p, path, Duplicate(c.Count(Duplicates)), c.members, c.rank);
    case MakeGroup(p, path, ranks) =>
      var c := ContextOf(s, p, path);
      var step := Group(ranks, c.Count(Groups(ranks)));
      var members := seq(|ranks|, i requires 0 <= i < |ranks| => c.members[ranks[i]]);
      ChildMembers(s, size, p, path, step);
      assert members == MembersOf(path + [step], size);
      var i :| 0 <= i < |ranks| && c.members[ranks[i]] == p;
      assert members[i] == p;
      BornKeeps(s, size, p, path, step, members, PositionOf(members, p));
    case Put(t) => PutKeeps(s, size, t);
    case Receive(t) => OtherTaskKeeps(s, Apply(s, a), size, t, Acknowledging(s.tasks[t].lane, s.tasks[t].n));
    case Drop(t) => WithoutKeeps(s, Apply(s, a), size, t);
    case Return(t) => WithoutKeeps(s, Apply(s, a), size, t);
  }

  lemma UniqueParts(s: System, size: nat)
    requires Unique(s, size)
    ensures ContextsFit(s, size) && OwedApart(s) && OwedUnput(s) && StoreIssued(s)
  {
    hide ContextFits, Issued, Decode, KeyText;
  }

  lemma ContextRank(s: System, size: nat, p: nat, path: Path)
    requires ContextsFit(s, size) && HasContext(s, p, path)
    ensures ContextOf(s, p, path).rank < |ContextOf(s, p, path).members|
    ensures ContextOf(s, p, path).members[ContextOf(s, p, path).rank] == p
  {
    hide Context.Count, MembersOf;
    assert ContextFits(s, size, p, path);
  }

  lemma SameUnique(s: System, s': System, size: nat)
    requires Unique(s, size) && s'.contexts == s.contexts && s'.tasks == s.tasks && s'.store == s.store
    ensures Unique(s', size)
  {
    hide ContextFits, Issued, Decode, KeyText;
    SameContexts(s, s', size);
  }

  lemma TakenKeeps(s: System, size: nat, p: nat, path: Path, channel: Channel)
    requires Unique(s, size) && HasContext(s, p, path)
    ensures Unique(Taken(s, p, path, channel), size)
  {
    hide ContextFits, Issued, Decode, KeyText, Grows, Context.Count, Context.Advanced;
    TakenGrows(s, p, path, channel);
    TakenFits(s, size, p, path, channel);
    GrownKeeps(s, Taken(s, p, path, channel));
  }

  /// Over every run: no two operations owe one key, and nothing in the store is owed.
  lemma {:induction false} RunsKeepUnique(size: nat, run: seq<Action>)
    requires Possible(size, run)
    ensures Unique(After(size, run), size)
  {
    hide Unique, Apply, Enabled;
    if run == [] {
      InitialUnique(size);
    } else {
      RunsKeepUnique(size, run[..|run| - 1]);
      StepKeepsUnique(After(size, run[..|run| - 1]), size, run[|run| - 1]);
    }
  }

  lemma InitialUnique(size: nat)
    ensures Unique(Initial(size), size)
  {
    forall p: nat, path: Path ensures ContextFits(Initial(size), size, p, path) {}
  }

  /// In every interleaving of any number of processes, with contexts duplicated
  /// and subgrouped to any depth, no key is put twice.
  lemma NoKeyPutTwice(size: nat, run: seq<Action>, t: nat)
    requires Possible(size, run) && Enabled(After(size, run), Put(t))
    ensures KeyText(PutKey(After(size, run).tasks[t])) !in After(size, run).store
  {
    hide ContextFits, Issued, Decode, KeyText, Apply, PutKey, ContextsFit, StoreIssued, OwedApart;
    RunsKeepUnique(size, run);
  }

  /// A new context's prefix is new to its process, and its members are those of its path.
  lemma ContextsStayApart(size: nat, run: seq<Action>, p: nat, path: Path, step: Step)
    requires Possible(size, run) && HasContext(After(size, run), p, path)
    requires step.n == ContextOf(After(size, run), p, path).Count(StepChannel(step))
    ensures !HasContext(After(size, run), p, path + [step])
    ensures ContextOf(After(size, run), p, path).members == MembersOf(path, size)
  {
    hide Context.Count, MembersOf, Issued, Decode, KeyText;
    RunsKeepUnique(size, run);
    ChildIsNew(After(size, run), size, p, path, step);
    assert ContextFits(After(size, run), size, p, path);
  }
}
