/// The scatter reader and writer as two processes over a ring of `batch`
/// entries: the reader reserves and pushes `group` chunks at a time, the writer
/// waits for and pops `batch` at a time, and the last of each may be shorter.
module ScatterRing {
  import opened RowMajor

  datatype Config = Config(group: nat, batch: nat, total: nat)
  {
    predicate Valid() { 1 <= group <= batch }
  }

  /// `slots` holds the chunk number last written to each entry of the ring.
  datatype State = State(pushed: nat, popped: nat, slots: seq<nat>)

  /// What the reader reserves next, and what the writer waits for.
  function Reserve(c: Config, s: State): nat
    requires s.pushed <= c.total
  {
    Least(c.group, c.total - s.pushed)
  }

  function Await(c: Config, s: State): nat
    requires s.popped <= c.total
  {
    Least(c.batch, c.total - s.popped)
  }

  ghost predicate Init(c: Config, s: State) {
    s.pushed == 0 && s.popped == 0 && |s.slots| == c.batch
  }

  ghost predicate CanPush(c: Config, s: State) {
    s.popped <= s.pushed < c.total && s.pushed - s.popped + Reserve(c, s) <= c.batch
  }

  ghost predicate CanPop(c: Config, s: State) {
    s.popped < c.total && s.popped <= s.pushed && Await(c, s) <= s.pushed - s.popped
  }

  /// The ring entry of chunk q.
  function Entry(c: Config, q: nat): (e: nat)
    requires c.Valid()
    ensures e < c.batch
  {
    q % c.batch
  }

  ghost predicate Push(c: Config, s: State, t: State)
    requires c.Valid()
  {
    && CanPush(c, s) && |s.slots| == |t.slots| == c.batch
    && t.popped == s.popped && t.pushed == s.pushed + Reserve(c, s)
    && (forall q :: s.pushed <= q < t.pushed ==> t.slots[Entry(c, q)] == q)
    && (forall e :: 0 <= e < c.batch && (forall q :: s.pushed <= q < t.pushed ==> Entry(c, q) != e) ==>
       t.slots[e] == s.slots[e])
  }

  ghost predicate Pop(c: Config, s: State, t: State) {
    CanPop(c, s) && t == s.(popped := s.popped + Await(c, s))
  }

  ghost predicate Next(c: Config, s: State, t: State)
    requires c.Valid()
  {
    Push(c, s, t) || Pop(c, s, t)
  }

  /// Any interleaving of the two processes' steps.
  ghost predicate IsRun(c: Config, run: seq<State>)
    requires c.Valid()
  {
    && |run| > 0 && Init(c, run[0])
    && forall i :: 0 < i < |run| ==> Next(c, run[i - 1], run[i])
  }

  ghost predicate Finished(c: Config, s: State) { s.pushed == c.total && s.popped == c.total }

  ghost predicate Deadlocked(c: Config, s: State) { !Finished(c, s) && !CanPush(c, s) && !CanPop(c, s) }

  /// What every step keeps: the reader stands at a multiple of the group and
  /// the writer at a multiple of the batch (or at the end), and every chunk
  /// pushed and not yet popped is in its entry.
  ghost predicate Inv(c: Config, s: State)
    requires c.Valid()
  {
    && s.popped <= s.pushed <= c.total && s.pushed - s.popped <= c.batch && |s.slots| == c.batch
    && (s.pushed == c.total || s.pushed % c.group == 0)
    && (s.popped == c.total || s.popped % c.batch == 0)
    && forall q :: s.popped <= q < s.pushed ==> s.slots[Entry(c, q)] == q
  }

  lemma StepMultiple(a: nat, d: nat, k: nat)
    requires d > 0 && a % d == 0 && k <= d
    ensures k == d ==> (a + k) % d == 0
    ensures k < d ==> (a + k) % d == k
  {
    DivMod(a, d);
    if k == d { DivModUnique(a + d, d, a / d + 1, 0); } else { DivModUnique(a + k, d, a / d, k); }
  }

  /// Chunks at most a batch apart have different entries.
  lemma EntriesApart(c: Config, q: nat, r: nat)
    requires c.Valid() && q < r < q + c.batch
    ensures Entry(c, q) != Entry(c, r)
  {
    DivMod(q, c.batch);
    DivMod(r, c.batch);
    if q % c.batch == r % c.batch {
      if q / c.batch < r / c.batch {
        MulStrict(q / c.batch, r / c.batch, c.batch);
      } else {
        MulMonotone(r / c.batch, q / c.batch, c.batch);
      }
    }
  }

  lemma InvKept(c: Config, s: State, t: State)
    requires c.Valid() && Inv(c, s) && Next(c, s, t)
    ensures Inv(c, t)
  {
    hide Entry;
    if Push(c, s, t) {
      if t.pushed != c.total { StepMultiple(s.pushed, c.group, c.group); }
      forall q | t.popped <= q < t.pushed ensures t.slots[Entry(c, q)] == q {
        if q < s.pushed {
          forall r | s.pushed <= r < t.pushed ensures Entry(c, r) != Entry(c, q) {
            EntriesApart(c, q, r);
          }
        }
      }
    } else {
      if t.popped != c.total { StepMultiple(s.popped, c.batch, c.batch); }
    }
  }

  lemma {:induction false} InvAlongRun(c: Config, run: seq<State>, i: nat)
    requires c.Valid() && IsRun(c, run) && i < |run|
    ensures Inv(c, run[i])
  {
    if i > 0 {
      InvAlongRun(c, run, i - 1);
      InvKept(c, run[i - 1], run[i]);
    }
  }

  /// A writer's batch is contiguous in the ring and is exactly the next chunks in order.
  lemma BatchInOrder(c: Config, run: seq<State>, i: nat, k: nat)
    requires c.Valid() && IsRun(c, run) && i < |run| && CanPop(c, run[i]) && k < Await(c, run[i])
    ensures Entry(c, run[i].popped) + k < c.batch == |run[i].slots|
    ensures run[i].slots[Entry(c, run[i].popped) + k] == run[i].popped + k
  {
    InvAlongRun(c, run, i);
    StepMultiple(run[i].popped, c.batch, k);
    StepMultiple(run[i].popped, c.batch, 0);
    assert Entry(c, run[i].popped + k) == Entry(c, run[i].popped) + k;
  }

  lemma MultipleOf(n: nat, c: Config)
    requires c.Valid() && c.batch % c.group == 0 && n % c.group == 0
    ensures n % c.batch + c.group <= c.batch
  {
    DivMod(n, c.batch);
    DivMod(c.batch, c.group);
    DivMod(n, c.group);
    var k := n / c.group - (n / c.batch) * (c.batch / c.group);
    MulAssoc(n / c.batch, c.batch / c.group, c.group);
    MulDistribute(n / c.group, -((n / c.batch) * (c.batch / c.group)), c.group);
    assert n % c.batch == k * c.group;
    if k >= c.batch / c.group { MulMonotone(c.batch / c.group, k, c.group); }
    MulStrict(k, c.batch / c.group, c.group);
  }

  /// A reader's group is contiguous in the ring: it never wraps.
  lemma GroupContiguous(c: Config, run: seq<State>, i: nat)
    requires c.Valid() && c.batch % c.group == 0 && IsRun(c, run) && i < |run| && CanPush(c, run[i])
    ensures Entry(c, run[i].pushed) + Reserve(c, run[i]) <= c.batch
  {
    InvAlongRun(c, run, i);
    MultipleOf(run[i].pushed, c);
  }

  /// With the batch a multiple of the group, some process can always step.
  lemma NeverDeadlocked(c: Config, run: seq<State>, i: nat)
    requires c.Valid() && (c.batch % c.group == 0 || c.total <= c.batch) && IsRun(c, run) && i < |run|
    ensures !Deadlocked(c, run[i])
  {
    InvAlongRun(c, run, i);
    var s := run[i];
    if s.pushed < c.total && s.popped < c.total && !CanPush(c, s) {
      if c.total > c.batch {
        // The reader lacks room for a group, so the ring is full.
        RoomForGroup(c, s);
        assert s.pushed - s.popped == c.batch;
      }
    }
  }

  lemma RoomForGroup(c: Config, s: State)
    requires c.Valid() && c.batch % c.group == 0 && Inv(c, s) && s.pushed < c.total && s.popped < c.total
    ensures s.pushed - s.popped == c.batch || s.pushed - s.popped + c.group <= c.batch
  {
    DivMod(s.popped, c.batch);
    DivMod(s.pushed, c.batch);
    MultipleOf(s.pushed, c);
    var k, m := s.popped / c.batch, s.pushed / c.batch;
    if m > k {
      MulStrict(k, m, c.batch);
    } else {
      MulMonotone(m, k, c.batch);
    }
  }

  // ---- the condition is exact ----

  /// The reader's first n groups, with nothing popped.
  function AfterPushes(c: Config, n: nat): State
    requires c.Valid()
  {
    State(n * c.group, 0, seq(c.batch, e requires 0 <= e < c.batch => if e < n * c.group then e else 0))
  }

  function PushRun(c: Config, n: nat): (run: seq<State>)
    requires c.Valid()
    ensures |run| == n + 1 && forall i :: 0 <= i <= n ==> run[i] == AfterPushes(c, i)
  {
    seq(n + 1, i requires 0 <= i <= n => AfterPushes(c, i))
  }

  lemma PushesAreARun(c: Config, n: nat)
    requires c.Valid() && n * c.group <= c.batch < c.total
    ensures IsRun(c, PushRun(c, n))
  {
    var run := PushRun(c, n);
    assert run[0] == AfterPushes(c, 0);
    forall i | 0 < i < |run| ensures Next(c, run[i - 1], run[i]) {
      MulMonotone(i, n, c.group);
      MulDistribute(i - 1, 1, c.group);
      var s, t := AfterPushes(c, i - 1), AfterPushes(c, i);
      assert run[i - 1] == s && run[i] == t;
      forall q | s.pushed <= q < t.pushed ensures Entry(c, q) == q {
        DivModUnique(q, c.batch, 0, q);
      }
      forall e | 0 <= e < c.batch && (forall q :: s.pushed <= q < t.pushed ==> Entry(c, q) != e)
        ensures t.slots[e] == s.slots[e]
      {
        DivModUnique(e, c.batch, 0, e);
        assert Entry(c, e) == e;
      }
      assert Push(c, s, t);
    }
  }

  /// A run that is not a multiple stops with a partial group's room left, the
  /// reader waiting for a whole group and the writer for the whole batch.
  lemma PartialGroupDeadlocks(c: Config)
    requires c.Valid() && c.batch % c.group != 0 && c.batch < c.total
    ensures IsRun(c, PushRun(c, c.batch / c.group))
    ensures Deadlocked(c, AfterPushes(c, c.batch / c.group))
  {
    DivMod(c.batch, c.group);
    PushesAreARun(c, c.batch / c.group);
  }

  /// The reader and writer can deadlock exactly when the batch is not a
  /// multiple of the group and the chunks do not all fit in the ring.
  lemma DeadlockExactly(c: Config)
    requires c.Valid()
    ensures (exists run :: IsRun(c, run) && Deadlocked(c, run[|run| - 1])) <==>
      c.batch % c.group != 0 && c.batch < c.total
  {
    if c.batch % c.group != 0 && c.batch < c.total {
      PartialGroupDeadlocks(c);
      var run := PushRun(c, c.batch / c.group);
      assert run[|run| - 1] == AfterPushes(c, c.batch / c.group);
    } else {
      forall run | IsRun(c, run) ensures !Deadlocked(c, run[|run| - 1]) {
        NeverDeadlocked(c, run, |run| - 1);
      }
    }
  }

  lemma QuotientPositive(a: nat, d: nat)
    requires 0 < d <= a
    ensures a / d >= 1
  {}

  /// How the host sizes the ring: as many entries as the budget holds, rounded
  /// down to whole groups. Every program it builds is free of deadlock.
  method SizeRing(entryBytes: nat, mostGroup: nat) returns (batch: nat, group: nat)
    requires 1 <= entryBytes && 1 <= mostGroup
    ensures 1 <= group <= batch && group <= mostGroup && batch % group == 0
    ensures batch == 1 || batch * entryBytes <= BATCH_BUDGET
  {
    batch := BATCH_BUDGET / entryBytes;
    DivMod(BATCH_BUDGET, entryBytes);
    if batch < 1 { batch := 1; }
    group := if mostGroup < batch then mostGroup else batch;
    DivMod(batch, group);
    QuotientPositive(batch, group);
    MulMonotone(1, batch / group, group);
    DivModUnique((batch / group) * group, group, batch / group, 0);
    MulMonotone((batch / group) * group, batch, entryBytes);
    batch := batch - batch % group;
  }

  const BATCH_BUDGET := 512 * 1024
}
