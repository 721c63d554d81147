/// No send, receive or ssend is lost: what every run owes, it can still do.
module MessageProgress {
  import opened KeyNames
  import opened Coordination
  import opened Messages

  // ---- the account of every message ----

  /// A message that was sent is in the store, or an open task will put it there.
  ghost predicate SentAccounted(s: System, lane: Lane, n: nat) {
    n < |Sent(s, lane)| ==>
      || KeyText(MessageOf(lane, n)) in s.store
      || Putting(MessageOf(lane, n), Sent(s, lane)[n]) in s.tasks
      || Synchronous(lane, n, Sent(s, lane)[n]) in s.tasks
  }

  /// A receive that was posted is open, has copied its message, or failed since
  /// the message has another size than its buffer.
  ghost predicate PostedAccounted(s: System, lane: Lane, n: nat) {
    && (n < Posted(s, lane) ==>
          || (exists bytes :: Receiving(lane, n, bytes) in s.tasks)
          || MessageOf(lane, n) in s.copied || MessageOf(lane, n) in s.failed)
    && (MessageOf(lane, n) in s.failed ==>
          && KeyText(MessageOf(lane, n)) in s.store && n < |Sent(s, lane)|
          && |Sent(s, lane)[n]| != s.failed[MessageOf(lane, n)])
  }

  /// A message that was copied is acknowledged, or an open task will acknowledge it.
  ghost predicate CopiedAccounted(s: System, lane: Lane, n: nat) {
    MessageOf(lane, n) in s.copied ==> Acknowledging(lane, n) in s.tasks || KeyText(AckOf(lane, n)) in s.store
  }

  /// An ssend, and no other send, is open until it returns.
  ghost predicate SyncAccounted(s: System, lane: Lane, n: nat) {
    && (MessageOf(lane, n) in s.synced ==>
          || (n < |Sent(s, lane)| && Synchronous(lane, n, Sent(s, lane)[n]) in s.tasks)
          || AwaitingAck(lane, n) in s.tasks || MessageOf(lane, n) in s.returned)
    && (AwaitingAck(lane, n) in s.tasks || MessageOf(lane, n) in s.returned ==>
          MessageOf(lane, n) in s.synced && KeyText(MessageOf(lane, n)) in s.store)
    && (MessageOf(lane, n) in s.synced ==> n < |Sent(s, lane)|)
    && forall payload :: Synchronous(lane, n, payload) in s.tasks ==> MessageOf(lane, n) in s.synced
  }

  ghost predicate AccountedAt(s: System, lane: Lane, n: nat) {
    SentAccounted(s, lane, n) && PostedAccounted(s, lane, n) && CopiedAccounted(s, lane, n) && SyncAccounted(s, lane, n)
  }

  ghost predicate Accounted(s: System) {
    forall lane: Lane, n: nat :: AccountedAt(s, lane, n)
  }

  // ---- every step keeps it ----

  lemma InWithout(tasks: seq<Task>, t: nat, task: Task)
    requires t < |tasks| && task in tasks && task != tasks[t]
    ensures task in Without(tasks, t)
  {
    var u :| 0 <= u < |tasks| && tasks[u] == task;
    assert Without(tasks, t)[if u < t then u else u - 1] == task;
  }

  lemma WithoutOnly(tasks: seq<Task>, t: nat)
    requires t < |tasks|
    ensures forall task :: task in Without(tasks, t) ==> task in tasks
  {}

  lemma InReplaced(tasks: seq<Task>, t: nat, task: Task, new': Task)
    requires t < |tasks|
    ensures task in tasks && task != tasks[t] ==> task in tasks[t := new']
    ensures task in tasks[t := new'] ==> task in tasks || task == new'
    ensures new' in tasks[t := new']
  {
    assert tasks[t := new'][t] == new';
    if task in tasks && task != tasks[t] {
      var u :| 0 <= u < |tasks| && tasks[u] == task;
      assert tasks[t := new'][u] == task;
    }
  }

  /// Steps that neither send nor post, put, copy or close anything: only a task is added.
  lemma AddedAccounts(s: System, s': System, task: Task, lane: Lane, n: nat)
    requires AccountedAt(s, lane, n) && !task.AwaitingAck? && !task.Synchronous?
    requires s'.tasks == s.tasks || s'.tasks == s.tasks + [task]
    requires s'.store == s.store && s'.sent == s.sent && s'.posted == s.posted && s'.copied == s.copied
    requires s'.failed == s.failed && s'.synced == s.synced && s'.returned == s.returned
    ensures AccountedAt(s', lane, n)
  {
    hide KeyText;
    assert Sent(s', lane) == Sent(s, lane) && Posted(s', lane) == Posted(s, lane);
  }

  lemma SendAccounts(s: System, p: nat, path: Path, dst: nat, tag: int, payload: Bytes, sync: bool, lane: Lane, n: nat)
    requires AccountedAt(s, lane, n) && AllCountsFit(s) && Enabled(s, Send(p, path, dst, tag, payload, sync))
    ensures AccountedAt(Apply(s, Send(p, path, dst, tag, payload, sync)), lane, n)
  {
    hide KeyText, Context.Count, Context.Advanced;
    AllCounts(s, p, path, dst, tag);
    var s', c := Apply(s, Send(p, path, dst, tag, payload, sync)), ContextOf(s, p, path);
    var mine, count := Lane(path, c.rank, dst, tag), |Sent(s, Lane(path, c.rank, dst, tag))|;
    var task := if sync then Synchronous(mine, count, payload) else Putting(MessageOf(mine, count), payload);
    hide Apply;
    SentAppended(s, s', mine, payload, task, sync, lane, n);
  }

  lemma SentAppended(s: System, s': System, mine: Lane, payload: Bytes, task: Task, sync: bool, lane: Lane, n: nat)
    requires AccountedAt(s, lane, n)
    requires task == if sync then Synchronous(mine, |Sent(s, mine)|, payload)
                     else Putting(MessageOf(mine, |Sent(s, mine)|), payload)
    requires s'.tasks == s.tasks + [task] && s'.sent == s.sent[mine := Sent(s, mine) + [payload]]
    requires s'.synced == if sync then s.synced + {MessageOf(mine, |Sent(s, mine)|)} else s.synced
    requires s'.store == s.store && s'.posted == s.posted && s'.copied == s.copied
    requires s'.failed == s.failed && s'.returned == s.returned
    ensures AccountedAt(s', lane, n)
  {
    hide KeyText;
    assert s'.tasks[|s.tasks|] == task;
    assert forall other: Task :: other in s'.tasks <==> other in s.tasks || other == task;
    assert Sent(s', lane) == if lane == mine then Sent(s, lane) + [payload] else Sent(s, lane);
    assert Posted(s', lane) == Posted(s, lane);
    hide Sent;
  }

  lemma PostAccounts(s: System, p: nat, path: Path, src: nat, tag: int, size: nat, lane: Lane, n: nat)
    requires AccountedAt(s, lane, n) && AllCountsFit(s) && Enabled(s, PostReceive(p, path, src, tag, size))
    ensures AccountedAt(Apply(s, PostReceive(p, path, src, tag, size)), lane, n)
  {
    hide KeyText, Context.Count, Context.Advanced;
    AllCounts(s, p, path, src, tag);
    var s' := Apply(s, PostReceive(p, path, src, tag, size));
    assert Sent(s', lane) == Sent(s, lane);
    assert s'.tasks[|s.tasks|] in s'.tasks;
    if exists bytes :: Receiving(lane, n, bytes) in s.tasks {
      var bytes :| Receiving(lane, n, bytes) in s.tasks;
      assert Receiving(lane, n, bytes) in s'.tasks;
    }
  }

  lemma PutAccounts(s: System, t: nat, lane: Lane, n: nat)
    requires AccountedAt(s, lane, n) && TasksFit(s) && MessagesFit(s) && Enabled(s, Put(t))
    ensures AccountedAt(Apply(s, Put(t)), lane, n)
  {
    hide KeyText, TaskFits;
    var s', task := Apply(s, Put(t)), s.tasks[t];
    assert Sent(s', lane) == Sent(s, lane) && Posted(s', lane) == Posted(s, lane);
    WithoutOnly(s.tasks, t);
    forall other: Task | other in s.tasks && other != task ensures other in s'.tasks {
      if task.Synchronous? { InReplaced(s.tasks, t, other, AwaitingAck(task.lane, task.n)); }
        else { InWithout(s.tasks, t, other); }
    }
    if task.Synchronous? {
      forall other: Task ensures other in s'.tasks ==> other in s.tasks || other == AwaitingAck(task.lane, task.n) {
        InReplaced(s.tasks, t, other, AwaitingAck(task.lane, task.n));
      }
      assert s'.tasks[t] == AwaitingAck(task.lane, task.n);
      assert s.tasks[t] in s.tasks;
      SyncIsSynced(s, task.lane, task.n, task.payload, lane, n);
    }
    assert s.tasks[t] in s.tasks;
  }

  lemma SyncIsSynced(s: System, from_: Lane, m: nat, payload: Bytes, lane: Lane, n: nat)
    requires AccountedAt(s, lane, n) && Synchronous(from_, m, payload) in s.tasks
    ensures lane == from_ && n == m ==> MessageOf(from_, m) in s.synced
  {
    hide KeyText;
  }

  lemma ReceiveAccounts(s: System, t: nat, lane: Lane, n: nat)
    requires AccountedAt(s, lane, n) && Enabled(s, Receive(t))
    ensures AccountedAt(Apply(s, Receive(t)), lane, n)
  {
    hide KeyText;
    var s', task := Apply(s, Receive(t)), s.tasks[t];
    assert Sent(s', lane) == Sent(s, lane) && Posted(s', lane) == Posted(s, lane);
    forall other: Task
      ensures other in s.tasks && other != task ==> other in s'.tasks
      ensures other in s'.tasks ==> other in s.tasks || other == Acknowledging(task.lane, task.n)
    {
      InReplaced(s.tasks, t, other, Acknowledging(task.lane, task.n));
    }
    assert s'.tasks[t] in s'.tasks;
  }

  lemma DropAccounts(s: System, t: nat, lane: Lane, n: nat)
    requires AccountedAt(s, lane, n) && MessagesFit(s) && Enabled(s, Drop(t))
    ensures AccountedAt(Apply(s, Drop(t)), lane, n)
  {
    hide KeyText;
    var s', task := Apply(s, Drop(t)), s.tasks[t];
    assert MessageFits(s, task.lane, task.n);
    assert Sent(s', lane) == Sent(s, lane) && Posted(s', lane) == Posted(s, lane);
    WithoutOnly(s.tasks, t);
    forall other: Task | other in s.tasks && other != task ensures other in s'.tasks { InWithout(s.tasks, t, other); }
  }

  lemma ReturnAccounts(s: System, t: nat, lane: Lane, n: nat)
    requires AccountedAt(s, lane, n) && Enabled(s, Return(t))
    ensures AccountedAt(Apply(s, Return(t)), lane, n)
  {
    hide KeyText;
    var s', task := Apply(s, Return(t)), s.tasks[t];
    assert Sent(s', lane) == Sent(s, lane) && Posted(s', lane) == Posted(s, lane);
    WithoutOnly(s.tasks, t);
    assert s.tasks[t] in s.tasks;
    forall other: Task | other in s.tasks && other != task ensures other in s'.tasks { InWithout(s.tasks, t, other); }
  }

  lemma StepKeepsAccount(s: System, a: Action)
    requires Accounted(s) && Orderly(s) && Enabled(s, a)
    ensures Accounted(Apply(s, a))
  {
    hide KeyText, Context.Count, Context.Advanced, AccountedAt, AllCountsFit, LanesOwned, TasksFit, MessagesFit, Apply,
         Enabled;
    forall lane: Lane, n: nat ensures AccountedAt(Apply(s, a), lane, n) {
      assert AccountedAt(s, lane, n);
      match a
      case Send(p, path, dst, tag, payload, sync) => SendAccounts(s, p, path, dst, tag, payload, sync, lane, n);
      case PostReceive(p, path, src, tag, size) => PostAccounts(s, p, path, src, tag, size, lane, n);
      case Put(t) => PutAccounts(s, t, lane, n);
      case Receive(t) => ReceiveAccounts(s, t, lane, n);
      case Drop(t) => DropAccounts(s, t, lane, n);
      case Return(t) => ReturnAccounts(s, t, lane, n);
      case _ => OtherAccounts(s, a, lane, n);
    }
  }

  lemma OtherAccounts(s: System, a: Action, lane: Lane, n: nat)
    requires AccountedAt(s, lane, n) && Enabled(s, a)
    requires a.Gather? || a.Cast? || a.MakeDuplicate? || a.MakeGroup?
    ensures AccountedAt(Apply(s, a), lane, n)
  {
    hide KeyText, Context.Count, Context.Advanced, AccountedAt;
    var s' := Apply(s, a);
    var task := if |s'.tasks| > |s.tasks| then s'.tasks[|s.tasks|] else Putting(AllGather([], 0, 0), []);
    AddedAccounts(s, s', task, lane, n);
  }

  lemma {:induction false} RunsKeepAccount(size: nat, run: seq<Action>)
    requires Possible(size, run)
    ensures Accounted(After(size, run)) && Orderly(After(size, run))
  {
    hide KeyText, Accounted, Orderly, Apply, Enabled, Unique;
    RunsKeepOrder(size, run);
    if run == [] {
      InitialAccounted(size);
    } else {
      RunsKeepAccount(size, run[..|run| - 1]);
      StepKeepsAccount(After(size, run[..|run| - 1]), run[|run| - 1]);
    }
  }

  lemma InitialAccounted(size: nat)
    ensures Accounted(Initial(size))
  {
    hide KeyText;
  }

  // ---- the results ----

  lemma Extended(size: nat, run: seq<Action>, a: Action)
    requires Possible(size, run) && Enabled(After(size, run), a)
    ensures Possible(size, run + [a]) && After(size, run + [a]) == Apply(After(size, run), a)
  {
    hide Enabled, Apply;
    assert (run + [a])[..|run + [a]| - 1] == run;
  }

  /// A send takes the lane's next number, and is an ssend just when it is called as one.
  lemma SendIsNext(size: nat, run: seq<Action>, p: nat, path: Path, dst: nat, tag: int, payload: Bytes, sync: bool)
    returns (lane: Lane, n: nat)
    requires Possible(size, run) && Enabled(After(size, run), Send(p, path, dst, tag, payload, sync))
    ensures lane.path == path && lane.dst == dst && lane.tag == tag && HasRank(After(size, run), p, path, lane.src)
    ensures n == |Sent(After(size, run), lane)| && Possible(size, run + [Send(p, path, dst, tag, payload, sync)])
    ensures Sent(After(size, run + [Send(p, path, dst, tag, payload, sync)]), lane)
         == Sent(After(size, run), lane) + [payload]
    ensures MessageOf(lane, n) in After(size, run + [Send(p, path, dst, tag, payload, sync)]).synced <==> sync
  {
    hide KeyText, Possible, After, Unique, LanesOwned, TasksFit, MessagesFit, Context.Count;
    RunsKeepAccount(size, run);
    Extended(size, run, Send(p, path, dst, tag, payload, sync));
    var s := After(size, run);
    lane := Lane(path, ContextOf(s, p, path).rank, dst, tag);
    n := |Sent(s, lane)|;
    AllCounts(s, p, path, dst, tag);
    assert AccountedAt(s, lane, n);
  }

  /// A receive takes the lane's next number, and waits for that message.
  lemma PostIsNext(size: nat, run: seq<Action>, p: nat, path: Path, src: nat, tag: int, bytes: nat)
    returns (lane: Lane, n: nat)
    requires Possible(size, run) && Enabled(After(size, run), PostReceive(p, path, src, tag, bytes))
    ensures lane.path == path && lane.src == src && lane.tag == tag && HasRank(After(size, run), p, path, lane.dst)
    ensures n == Posted(After(size, run), lane) && Possible(size, run + [PostReceive(p, path, src, tag, bytes)])
    ensures Posted(After(size, run + [PostReceive(p, path, src, tag, bytes)]), lane) == n + 1
    ensures Receiving(lane, n, bytes) in After(size, run + [PostReceive(p, path, src, tag, bytes)]).tasks
  {
    hide KeyText, Possible, After, Unique, LanesOwned, TasksFit, MessagesFit, Context.Count;
    RunsKeepAccount(size, run);
    Extended(size, run, PostReceive(p, path, src, tag, bytes));
    var s := After(size, run);
    lane := Lane(path, src, ContextOf(s, p, path).rank, tag);
    n := Posted(s, lane);
    AllCounts(s, p, path, src, tag);
    var next := Apply(s, PostReceive(p, path, src, tag, bytes));
    assert next.tasks[|s.tasks|] == Receiving(lane, n, bytes);
  }

  /// A receive whose message is in the store is finished, or can be: it copies
  /// the message if its buffer has the message's size, and fails if not.
  lemma ReceiveCanFinish(size: nat, run: seq<Action>, lane: Lane, n: nat) returns (t: nat)
    requires Possible(size, run) && n < Posted(After(size, run), lane)
    requires KeyText(MessageOf(lane, n)) in After(size, run).store
    requires MessageOf(lane, n) !in After(size, run).copied && MessageOf(lane, n) !in After(size, run).failed
    ensures t < |After(size, run).tasks| && After(size, run).tasks[t].Receiving?
    ensures After(size, run).tasks[t].lane == lane && After(size, run).tasks[t].n == n
      && n < |Sent(After(size, run), lane)|
    ensures Enabled(After(size, run),
      if After(size, run).tasks[t].size == |Sent(After(size, run), lane)[n]| then Receive(t) else Drop(t))
  {
    hide KeyText, Possible, After, Unique, AllCountsFit, LanesOwned, TasksFit;
    RunsKeepAccount(size, run);
    var s := After(size, run);
    assert AccountedAt(s, lane, n) && MessageFits(s, lane, n);
    var bytes :| Receiving(lane, n, bytes) in s.tasks;
    t :| 0 <= t < |s.tasks| && s.tasks[t] == Receiving(lane, n, bytes);
  }

  /// Once its message is copied an ssend returns within two steps: the receiver's
  /// acknowledgement, if that is still to come, and the return.
  lemma SsendCanReturn(size: nat, run: seq<Action>, lane: Lane, n: nat) returns (more: seq<Action>)
    requires Possible(size, run) && AwaitingAck(lane, n) in After(size, run).tasks
    requires MessageOf(lane, n) in After(size, run).copied
    ensures |more| <= 2 && Possible(size, run + more) && MessageOf(lane, n) in After(size, run + more).returned
    ensures After(size, run + more).copied == After(size, run).copied
  {
    hide KeyText, Possible, After, Unique, AllCountsFit, LanesOwned, TasksFit, MessagesFit;
    RunsKeepAccount(size, run);
    var s := After(size, run);
    assert AccountedAt(s, lane, n);
    if KeyText(AckOf(lane, n)) in s.store {
      more := ReturnNow(size, run, lane, n);
    } else {
      var t :| 0 <= t < |s.tasks| && s.tasks[t] == Acknowledging(lane, n);
      Extended(size, run, Put(t));
      InWithout(s.tasks, t, AwaitingAck(lane, n));
      var last := ReturnNow(size, run + [Put(t)], lane, n);
      more := [Put(t)] + last;
      assert run + more == run + [Put(t)] + last;
    }
  }

  lemma ReturnNow(size: nat, run: seq<Action>, lane: Lane, n: nat) returns (more: seq<Action>)
    requires Possible(size, run) && AwaitingAck(lane, n) in After(size, run).tasks
    requires KeyText(AckOf(lane, n)) in After(size, run).store
    ensures |more| == 1 && Possible(size, run + more) && MessageOf(lane, n) in After(size, run + more).returned
    ensures After(size, run + more).copied == After(size, run).copied
  {
    hide KeyText, Possible, After;
    var s := After(size, run);
    var t :| 0 <= t < |s.tasks| && s.tasks[t] == AwaitingAck(lane, n);
    Extended(size, run, Return(t));
    more := [Return(t)];
  }

  /// An ssend whose receive is posted, with a buffer of the message's size or its
  /// copy made, returns within four steps, its data delivered.
  lemma SsendCompletes(size: nat, run: seq<Action>, lane: Lane, n: nat) returns (more: seq<Action>)
    requires Possible(size, run) && MessageOf(lane, n) in After(size, run).synced
    requires n < Posted(After(size, run), lane) && n < |Sent(After(size, run), lane)|
    requires MessageOf(lane, n) !in After(size, run).failed
    requires forall bytes :: Receiving(lane, n, bytes) in After(size, run).tasks ==>
      bytes == |Sent(After(size, run), lane)[n]|
    ensures |more| <= 4 && Possible(size, run + more) && MessageOf(lane, n) in After(size, run + more).returned
    ensures MessageOf(lane, n) in After(size, run + more).copied
    ensures After(size, run + more).copied[MessageOf(lane, n)] == Sent(After(size, run), lane)[n]
  {
    hide KeyText, Possible, After, Unique, AllCountsFit, LanesOwned, TasksFit, MessagesFit, Sent, Enabled, Apply;
    var stored := SsendStores(size, run, lane, n);
    SentSame(After(size, run), After(size, run + stored), lane);
    var received := ReceiveCopies(size, run + stored, lane, n);
    SentSame(After(size, run), After(size, run + stored + received), lane);
    var s := After(size, run + stored + received);
    if MessageOf(lane, n) in s.returned {
      more := stored + received;
      assert run + more == run + stored + received;
    } else {
      RunsKeepAccount(size, run + stored + received);
      SyncAwaits(s, lane, n);
      var last := SsendCanReturn(size, run + stored + received, lane, n);
      more := stored + received + last;
      assert run + more == run + stored + received + last;
    }
    CopiedIsSent(size, run + stored + received, lane, n);
  }

  lemma CopiedIsSent(size: nat, run: seq<Action>, lane: Lane, n: nat)
    requires Possible(size, run) && MessageOf(lane, n) in After(size, run).copied
    ensures n < |Sent(After(size, run), lane)|
    ensures After(size, run).copied[MessageOf(lane, n)] == Sent(After(size, run), lane)[n]
  {
    hide KeyText, Possible, After, Unique, AllCountsFit, LanesOwned, TasksFit, Sent;
    RunsKeepAccount(size, run);
    assert MessageFits(After(size, run), lane, n);
  }

  /// An ssend whose message is in the store waits for its acknowledgement.
  lemma SyncAwaits(s: System, lane: Lane, n: nat)
    requires Accounted(s) && MessageOf(lane, n) in s.synced && MessageOf(lane, n) !in s.returned
    requires forall payload :: Synchronous(lane, n, payload) !in s.tasks
    ensures AwaitingAck(lane, n) in s.tasks
  {
    hide KeyText;
    assert AccountedAt(s, lane, n);
  }

  ghost predicate Stored(s: System, lane: Lane, n: nat) {
    KeyText(MessageOf(lane, n)) in s.store && forall payload :: Synchronous(lane, n, payload) !in s.tasks
  }

  /// An open ssend puts its message.
  lemma SsendStores(size: nat, run: seq<Action>, lane: Lane, n: nat) returns (more: seq<Action>)
    requires Possible(size, run) && MessageOf(lane, n) in After(size, run).synced && n < |Sent(After(size, run), lane)|
    ensures |more| <= 1 && Possible(size, run + more) && Stored(After(size, run + more), lane, n)
    ensures SameExcept(After(size, run), After(size, run + more), lane, n)
  {
    hide KeyText, Possible, After, Unique, AllCountsFit, LanesOwned, Sent;
    RunsKeepAccount(size, run);
    RunsKeepUnique(size, run);
    var s := After(size, run);
    if payload :| Synchronous(lane, n, payload) in s.tasks {
      var t :| 0 <= t < |s.tasks| && s.tasks[t] == Synchronous(lane, n, payload);
      Extended(size, run, Put(t));
      more := [Put(t)];
      OnlySync(s, size, t);
      PutSame(s, t, lane, n);
    } else {
      more := [];
      assert run + more == run;
      assert AccountedAt(s, lane, n);
    }
  }

  /// What the delivery of (lane, n) relies on is as it was.
  ghost predicate SameExcept(s: System, s': System, lane: Lane, n: nat) {
    && s'.synced == s.synced && s'.posted == s.posted && s'.sent == s.sent && s'.failed == s.failed
    && (forall bytes :: Receiving(lane, n, bytes) in s'.tasks ==> Receiving(lane, n, bytes) in s.tasks)
  }

  lemma PutSame(s: System, t: nat, lane: Lane, n: nat)
    requires Enabled(s, Put(t)) && s.tasks[t].Synchronous?
    ensures SameExcept(s, Apply(s, Put(t)), lane, n)
  {
    hide KeyText;
    forall bytes
      ensures Receiving(lane, n, bytes) in Apply(s, Put(t)).tasks ==> Receiving(lane, n, bytes) in s.tasks
    {
      InReplaced(s.tasks, t, Receiving(lane, n, bytes), AwaitingAck(s.tasks[t].lane, s.tasks[t].n));
    }
  }

  /// A posted receive of a stored message copies it, its buffer having the message's size.
  lemma ReceiveCopies(size: nat, run: seq<Action>, lane: Lane, n: nat) returns (more: seq<Action>)
    requires Possible(size, run) && Stored(After(size, run), lane, n)
    requires n < Posted(After(size, run), lane) && n < |Sent(After(size, run), lane)|
    requires MessageOf(lane, n) !in After(size, run).failed
    requires forall bytes :: Receiving(lane, n, bytes) in After(size, run).tasks ==>
      bytes == |Sent(After(size, run), lane)[n]|
    ensures |more| <= 1 && Possible(size, run + more) && MessageOf(lane, n) in After(size, run + more).copied
    ensures After(size, run + more).synced == After(size, run).synced
      && After(size, run + more).sent == After(size, run).sent
    ensures Stored(After(size, run + more), lane, n)
  {
    hide KeyText, Possible, After, Unique, AllCountsFit, LanesOwned, Sent, Posted;
    var s := After(size, run);
    if MessageOf(lane, n) in s.copied {
      more := [];
      assert run + more == run;
    } else {
      var t := ReceiveCanFinish(size, run, lane, n);
      assert s.tasks[t] in s.tasks;
      Extended(size, run, Receive(t));
      more := [Receive(t)];
      forall payload ensures Synchronous(lane, n, payload) !in Apply(s, Receive(t)).tasks {
        InReplaced(s.tasks, t, Synchronous(lane, n, payload), Acknowledging(lane, n));
      }
    }
  }

  /// No two open tasks put one message.
  lemma OnlySync(s: System, size: nat, t: nat)
    requires Unique(s, size) && t < |s.tasks| && s.tasks[t].Synchronous?
    ensures forall payload ::
      Synchronous(s.tasks[t].lane, s.tasks[t].n, payload) !in s.tasks[t := AwaitingAck(s.tasks[t].lane, s.tasks[t].n)]
  {
    hide KeyText, ContextsFit, OwedUnput, StoreIssued, Issued;
    var lane, n := s.tasks[t].lane, s.tasks[t].n;
    forall u | 0 <= u < |s.tasks| && u != t && Owes(s.tasks[u]) ensures PutKey(s.tasks[u]) != PutKey(s.tasks[t]) {}
  }

  // ---- nothing left to do ----

  predicate OfTask(a: Action) { a.Put? || a.Receive? || a.Drop? || a.Return? }

  /// When no open task can go on, every message sent is in the store, every
  /// receive posted for one has copied it or failed on its size, and every ssend
  /// whose message was copied has returned.
  lemma SettledMeansDelivered(size: nat, run: seq<Action>, lane: Lane, n: nat)
    requires Possible(size, run) && n < |Sent(After(size, run), lane)|
    requires forall a :: OfTask(a) ==> !Enabled(After(size, run), a)
    ensures KeyText(MessageOf(lane, n)) in After(size, run).store
    ensures n < Posted(After(size, run), lane) && MessageOf(lane, n) !in After(size, run).failed ==>
      && MessageOf(lane, n) in After(size, run).copied
      && After(size, run).copied[MessageOf(lane, n)] == Sent(After(size, run), lane)[n]
    ensures MessageOf(lane, n) in After(size, run).copied && MessageOf(lane, n) in After(size, run).synced ==>
      MessageOf(lane, n) in After(size, run).returned
  {
    hide KeyText, Possible, After, Unique, AllCountsFit, LanesOwned, TasksFit, Sent, Posted;
    RunsKeepAccount(size, run);
    var s := After(size, run);
    assert AccountedAt(s, lane, n);
    forall t: nat
      ensures !Enabled(s, Put(t)) && !Enabled(s, Receive(t)) && !Enabled(s, Drop(t)) && !Enabled(s, Return(t))
    {
      assert OfTask(Put(t)) && OfTask(Receive(t)) && OfTask(Drop(t)) && OfTask(Return(t));
    }
    forall task | task in s.tasks
      ensures !task.Putting? && !task.Synchronous? && !task.Acknowledging?
      ensures task.AwaitingAck? ==> KeyText(AckOf(task.lane, task.n)) !in s.store
    {
      var t :| 0 <= t < |s.tasks| && s.tasks[t] == task;
      assert !Enabled(s, Put(t)) && !Enabled(s, Return(t));
    }
    if n < Posted(s, lane) && MessageOf(lane, n) !in s.failed && MessageOf(lane, n) !in s.copied {
      var t := ReceiveCanFinish(size, run, lane, n);
    }
    if MessageOf(lane, n) in s.copied { CopiedIsSent(size, run, lane, n); }
  }

  /// The steps an open task has before it.
  function StepsOf(task: Task): nat {
    match task
    case Putting(_, _) => 1
    case Synchronous(_, _, _) => 2
    case AwaitingAck(_, _) => 1
    case Receiving(_, _, _) => 2
    case Acknowledging(_, _) => 1
  }

  function Work(tasks: seq<Task>): nat {
    if tasks == [] then 0 else StepsOf(tasks[0]) + Work(tasks[1..])
  }

  lemma {:induction false} WorkWithout(tasks: seq<Task>, t: nat)
    requires t < |tasks|
    ensures Work(tasks) == Work(Without(tasks, t)) + StepsOf(tasks[t])
  {
    if t == 0 {
      assert Without(tasks, 0) == tasks[1..];
    } else {
      WorkWithout(tasks[1..], t - 1);
      assert Without(tasks, t) == [tasks[0]] + Without(tasks[1..], t - 1);
    }
  }

  lemma {:induction false} WorkReplaced(tasks: seq<Task>, t: nat, task: Task)
    requires t < |tasks|
    ensures Work(tasks[t := task]) + StepsOf(tasks[t]) == Work(tasks) + StepsOf(task)
  {
    if t == 0 {
      assert tasks[0 := task][1..] == tasks[1..];
    } else {
      WorkReplaced(tasks[1..], t - 1, task);
      assert tasks[t := task][1..] == tasks[1..][t - 1 := task];
    }
  }

  /// A step of an open task leaves one step less: whatever the order, they come
  /// to an end.
  lemma TaskStepsEnd(s: System, a: Action)
    requires OfTask(a) && Enabled(s, a)
    ensures Work(Apply(s, a).tasks) < Work(s.tasks)
  {
    hide KeyText, Work;
    match a
    case Put(t) =>
      WorkWithout(s.tasks, t);
      if s.tasks[t].Synchronous? { WorkReplaced(s.tasks, t, AwaitingAck(s.tasks[t].lane, s.tasks[t].n)); }
    case Receive(t) => WorkReplaced(s.tasks, t, Acknowledging(s.tasks[t].lane, s.tasks[t].n));
    case Drop(t) => WorkWithout(s.tasks, t);
    case Return(t) => WorkWithout(s.tasks, t);
  }
}
