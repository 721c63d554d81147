/// The cores of one tile row and their two semaphores, in every interleaving:
/// a core of segment s and group g scans, hands its lists to its group's first
/// core, which merges and writes the group's rows into the owner's tiles; the
/// owner (segment 0, group 0) writes the tiles out.
module TopKProtocol {

  /// Where a core is. `Padding` is the owner's zeroing of the padding rows,
  /// which its program does first.
  datatype Phase = Padding | Scanning | Listed | Placed | Finished

  datatype Team = Team(segments: nat, groups: nat, rows: nat)
  {
    predicate Valid() { segments > 0 && groups > 0 && rows <= 32 }

    predicate Core(s: nat, g: nat) { s < segments && g < groups }
  }

  /// `lists[g][s]` says segment s's lists of group g are in the merger's memory,
  /// `writes[r]` how often row r of the output tiles was written.
  datatype State = State(phase: seq<seq<Phase>>, mergeSem: seq<nat>, ownerSem: nat,
                         lists: seq<seq<bool>>, writes: seq<nat>, written: bool)

  ghost predicate Shaped(team: Team, st: State) {
    && |st.phase| == |st.mergeSem| == |st.lists| == team.groups && |st.writes| == 32
    && forall g :: 0 <= g < team.groups ==> |st.phase[g]| == |st.lists[g]| == team.segments
  }

  function Start(team: Team): State {
    State(seq(team.groups, g => seq(team.segments, s => if s == 0 && g == 0 then Padding else Scanning)),
          seq(team.groups, _ => 0), 0, seq(team.groups, _ => seq(team.segments, _ => false)), seq(32, _ => 0), false)
  }

  datatype Action = Pad | Scan(s: nat, g: nat) | NotifyMerger(s: nat,
                               g: nat) | Merge(g: nat) | NotifyOwner(g: nat) | WriteOut

  function Moved(st: State, s: nat, g: nat, phase: Phase): State
    requires g < |st.phase| && s < |st.phase[g]|
  {
    st.(phase := st.phase[g := st.phase[g][s := phase]])
  }

  /// Counts of the rows a group writes: every groups-th row from g on.
  function WithRows(team: Team, writes: seq<nat>, g: nat): (w: seq<nat>)
    requires |writes| == 32 && team.groups > 0
    ensures |w| == 32
  {
    seq(32, r requires 0 <= r < 32 => if r < team.rows && r % team.groups == g then writes[r] + 1 else writes[r])
  }

  function WithPadding(team: Team, writes: seq<nat>): (w: seq<nat>)
    requires |writes| == 32
    ensures |w| == 32
  {
    seq(32, r requires 0 <= r < 32 => if team.rows <= r then writes[r] + 1 else writes[r])
  }

  ghost predicate Enabled(team: Team, st: State, a: Action)
    requires team.Valid() && Shaped(team, st)
  {
    match a
    case Pad => st.phase[0][0] == Padding
    case Scan(s, g) => team.Core(s, g) && st.phase[g][s] == Scanning
    case NotifyMerger(s, g) => team.Core(s, g) && s > 0 && st.phase[g][s] == Listed
    case Merge(g) => g < team.groups && st.phase[g][0] == Listed && st.mergeSem[g] == team.segments - 1
    case NotifyOwner(g) => 0 < g < team.groups && st.phase[g][0] == Placed
    case WriteOut => st.phase[0][0] == Placed && st.ownerSem == team.groups - 1
  }

  /// With one segment a scan writes the rows itself; with more it leaves its lists with the merger.
  ghost function Apply(team: Team, st: State, a: Action): (st': State)
    requires team.Valid() && Shaped(team, st) && Enabled(team, st, a)
    ensures Shaped(team, st')
  {
    match a
    case Pad => Moved(st, 0, 0, Scanning).(writes := WithPadding(team, st.writes))
    case Scan(s, g) =>
      if team.segments == 1 then Moved(st, s, g, Placed).(writes := WithRows(team, st.writes, g))
      else Moved(st, s, g, Listed).(lists := st.lists[g := st.lists[g][s := true]])
    case NotifyMerger(s, g) => Moved(st, s, g, Finished).(mergeSem := st.mergeSem[g := st.mergeSem[g] + 1])
    case Merge(g) => Moved(st, 0, g, Placed).(mergeSem := st.mergeSem[g := 0], writes := WithRows(team, st.writes, g))
    case NotifyOwner(g) => Moved(st, 0, g, Finished).(ownerSem := st.ownerSem + 1)
    case WriteOut => Moved(st, 0, 0, Finished).(ownerSem := 0, written := true)
  }

  // ---- what every step keeps ----

  /// Segments from 1 on, below n, whose core has notified the merger.
  function Notified(phases: seq<Phase>, n: nat): nat
    requires n <= |phases|
  {
    if n <= 1 then 0 else Notified(phases, n - 1) + (if phases[n - 1] == Finished then 1 else 0)
  }

  /// Groups from 1 on, below n, whose first core has notified the owner.
  function Delivered(phase: seq<seq<Phase>>, n: nat): nat
    requires n <= |phase| && forall g :: 0 <= g < |phase| ==> |phase[g]| > 0
  {
    if n <= 1 then 0 else Delivered(phase, n - 1) + (if phase[n - 1][0] == Finished then 1 else 0)
  }

  predicate RowsPlaced(phase: Phase) { phase == Placed || phase == Finished }

  ghost predicate CoreFits(team: Team, st: State, s: nat, g: nat)
    requires team.Valid() && Shaped(team, st) && team.Core(s, g)
  {
    var phase := st.phase[g][s];
    && (phase == Padding ==> s == 0 && g == 0)
    && (s > 0 ==> phase != Placed)
    && (team.segments > 1 ==> (st.lists[g][s] <==> phase == Listed || RowsPlaced(phase)))
    && (team.segments == 1 ==> phase != Listed)
  }

  ghost predicate GroupFits(team: Team, st: State, g: nat)
    requires team.Valid() && Shaped(team, st) && g < team.groups
  {
    && (if RowsPlaced(st.phase[g][0]) then st.mergeSem[g] == 0
       else st.mergeSem[g] == Notified(st.phase[g], team.segments))
    && (RowsPlaced(st.phase[g][0]) ==> forall s :: 0 < s < team.segments ==> st.phase[g][s] == Finished)
  }

  ghost predicate OwnerFits(team: Team, st: State)
    requires team.Valid() && Shaped(team, st)
  {
    && (if st.phase[0][0] == Finished then st.ownerSem == 0 && st.written
       else st.ownerSem == Delivered(st.phase, team.groups) && !st.written)
    && (st.phase[0][0] == Finished ==> forall g :: 0 < g < team.groups ==> st.phase[g][0] == Finished)
  }

  /// How often row r should have been written by now.
  function DueWrites(team: Team, st: State, r: nat): nat
    requires team.groups > 0 && |st.phase| == team.groups && forall g :: 0 <= g < team.groups ==> |st.phase[g]| > 0
  {
    if r < team.rows then (if RowsPlaced(st.phase[r % team.groups][0]) then 1 else 0)
    else (if st.phase[0][0] == Padding then 0 else 1)
  }

  ghost predicate Good(team: Team, st: State)
    requires team.Valid()
  {
    && Shaped(team, st)
    && (forall s: nat, g: nat :: team.Core(s, g) ==> CoreFits(team, st, s, g))
    && (forall g: nat :: g < team.groups ==> GroupFits(team, st, g))
    && OwnerFits(team, st)
    && (forall r :: 0 <= r < 32 ==> st.writes[r] == DueWrites(team, st, r))
  }

  lemma {:induction false} NotifiedKept(a: seq<Phase>, b: seq<Phase>, n: nat)
    requires n <= |a| && n <= |b| && forall s :: 0 < s < n ==> (a[s] == Finished <==> b[s] == Finished)
    ensures Notified(a, n) == Notified(b, n)
  {
    if n > 1 { NotifiedKept(a, b, n - 1); }
  }

  lemma {:induction false} NotifiedMore(a: seq<Phase>, n: nat, s: nat)
    requires n <= |a| && 0 < s < |a| && a[s] != Finished
    ensures Notified(a[s := Finished], n) == Notified(a, n) + (if s < n then 1 else 0)
  {
    if n > 1 { NotifiedMore(a, n - 1, s); }
  }

  lemma {:induction false} NotifiedAll(a: seq<Phase>, n: nat)
    requires n <= |a|
    ensures Notified(a, n) <= (if n == 0 then 0 else n - 1)
    ensures n > 0 && Notified(a, n) == n - 1 <==> n > 0 && forall s :: 0 < s < n ==> a[s] == Finished
  {
    if n > 1 { NotifiedAll(a, n - 1); }
  }

  lemma {:induction false} DeliveredKept(a: seq<seq<Phase>>, b: seq<seq<Phase>>, n: nat)
    requires n <= |a| == |b| && (forall g :: 0 <= g < |a| ==> |a[g]| > 0 && |b[g]| > 0)
    requires forall g :: 0 < g < n ==> (a[g][0] == Finished <==> b[g][0] == Finished)
    ensures Delivered(a, n) == Delivered(b, n)
  {
    if n > 1 { DeliveredKept(a, b, n - 1); }
  }

  lemma {:induction false} DeliveredMore(a: seq<seq<Phase>>, b: seq<seq<Phase>>, n: nat, g: nat)
    requires n <= |a| == |b| && (forall h :: 0 <= h < |a| ==> |a[h]| > 0 && |b[h]| > 0)
    requires 0 < g < |a| && a[g][0] != Finished && b[g][0] == Finished
    requires forall h :: 0 <= h < |a| && h != g ==> a[h] == b[h]
    ensures Delivered(b, n) == Delivered(a, n) + (if g < n then 1 else 0)
  {
    if n > 1 { DeliveredMore(a, b, n - 1, g); }
  }

  lemma {:induction false} DeliveredAll(a: seq<seq<Phase>>, n: nat)
    requires n <= |a| && forall g :: 0 <= g < |a| ==> |a[g]| > 0
    ensures Delivered(a, n) <= (if n == 0 then 0 else n - 1)
    ensures n > 0 && Delivered(a, n) == n - 1 <==> n > 0 && forall g :: 0 < g < n ==> a[g][0] == Finished
  {
    if n > 1 { DeliveredAll(a, n - 1); }
  }

  lemma StartGood(team: Team)
    requires team.Valid()
    ensures Good(team, Start(team))
  {
    var st := Start(team);
    forall g: nat | g < team.groups ensures GroupFits(team, st, g) {
      NotifiedAll(st.phase[g], team.segments);
      NotifiedNone(st.phase[g], team.segments);
    }
    DeliveredNone(st.phase, team.groups);
  }

  lemma {:induction false} NotifiedNone(a: seq<Phase>, n: nat)
    requires n <= |a| && forall s :: 0 <= s < |a| ==> a[s] != Finished
    ensures Notified(a, n) == 0
  {
    if n > 1 { NotifiedNone(a, n - 1); }
  }

  lemma {:induction false} DeliveredNone(a: seq<seq<Phase>>, n: nat)
    requires n <= |a| && forall g :: 0 <= g < |a| ==> |a[g]| > 0 && a[g][0] != Finished
    ensures Delivered(a, n) == 0
  {
    if n > 1 { DeliveredNone(a, n - 1); }
  }

  lemma StepKeepsGood(team: Team, st: State, a: Action)
    requires team.Valid() && Good(team, st) && Enabled(team, st, a)
    ensures Good(team, Apply(team, st, a))
  {
    hide Notified, Delivered, Apply, Enabled, GroupFits, OwnerFits, CoreFits, DueWrites;
    var st' := Apply(team, st, a);
    forall g: nat | g < team.groups ensures GroupFits(team, st', g) { GroupKept(team, st, a, g); }
    forall s: nat, g: nat | team.Core(s, g) ensures CoreFits(team, st', s, g) { CoreKept(team, st, a, s, g); }
    forall r: nat | r < 32 ensures st'.writes[r] == DueWrites(team, st', r) { WritesKept(team, st, a, r); }
    OwnerKept(team, st, a);
  }

  lemma CoreKept(team: Team, st: State, a: Action, s: nat, g: nat)
    requires team.Valid() && Good(team, st) && Enabled(team, st, a) && team.Core(s, g)
    ensures CoreFits(team, Apply(team, st, a), s, g)
  {
    hide Notified, Delivered, DueWrites, OwnerFits, GroupFits;
    assert CoreFits(team, st, s, g);
  }

  lemma WritesKept(team: Team, st: State, a: Action, r: nat)
    requires team.Valid() && Good(team, st) && Enabled(team, st, a) && r < 32
    ensures Apply(team, st, a).writes[r] == DueWrites(team, Apply(team, st, a), r)
  {
    hide Notified, Delivered, OwnerFits, GroupFits;
    GroupOfRow(r, team.groups);
    assert st.writes[r] == DueWrites(team, st, r);
    if a.Scan? { assert CoreFits(team, st, a.s, a.g); }
    assert CoreFits(team, st, 0, r % team.groups) && team.Core(0, r % team.groups);
  }

  lemma GroupKept(team: Team, st: State, a: Action, g: nat)
    requires team.Valid() && Good(team, st) && Enabled(team, st, a) && g < team.groups
    ensures GroupFits(team, Apply(team, st, a), g)
  {
    hide Notified, Delivered, DueWrites, OwnerFits;
    var st' := Apply(team, st, a);
    assert GroupFits(team, st, g);
    if a.NotifyMerger? && a.g == g {
      assert CoreFits(team, st, 0, g);
      NotifiedMore(st.phase[g], team.segments, a.s);
    } else {
      NotifiedKept(st.phase[g], st'.phase[g], team.segments);
      NotifiedAll(st.phase[g], team.segments);
    }
  }

  lemma OwnerKept(team: Team, st: State, a: Action)
    requires team.Valid() && Good(team, st) && Enabled(team, st, a)
    ensures OwnerFits(team, Apply(team, st, a))
  {
    hide Notified, Delivered, DueWrites, GroupFits;
    var st' := Apply(team, st, a);
    DeliveredAll(st.phase, team.groups);
    if a.NotifyOwner? {
      DeliveredMore(st.phase, st'.phase, team.groups, a.g);
    } else {
      forall g | 0 < g < team.groups ensures st'.phase[g][0] == Finished <==> st.phase[g][0] == Finished {}
      DeliveredKept(st.phase, st'.phase, team.groups);
    }
  }

  // ---- the results ----

  ghost predicate Possible(team: Team, run: seq<Action>)
    requires team.Valid()
    decreases |run|, 0
  {
    run == [] || (Possible(team, run[..|run| - 1]) && Enabled(team, After(team, run[..|run| - 1]), run[|run| - 1]))
  }

  ghost function After(team: Team, run: seq<Action>): (st: State)
    requires team.Valid() && Possible(team, run)
    ensures Shaped(team, st)
    decreases |run|, 1
  {
    if run == [] then Start(team) else Apply(team, After(team, run[..|run| - 1]), run[|run| - 1])
  }

  lemma {:induction false} RunsKeepGood(team: Team, run: seq<Action>)
    requires team.Valid() && Possible(team, run)
    ensures Good(team, After(team, run))
  {
    hide Good, Enabled, Apply;
    if run == [] {
      StartGood(team);
    } else {
      RunsKeepGood(team, run[..|run| - 1]);
      StepKeepsGood(team, After(team, run[..|run| - 1]), run[|run| - 1]);
    }
  }

  /// A merger merges only once every segment's lists are in place.
  lemma MergesAllLists(team: Team, run: seq<Action>, g: nat, s: nat)
    requires team.Valid() && Possible(team, run) && Enabled(team, After(team, run), Merge(g)) && team.Core(s, g)
    ensures After(team, run).lists[g][s]
  {
    hide Notified, Delivered, DueWrites, OwnerFits, Apply, After, Possible;
    RunsKeepGood(team, run);
    var st := After(team, run);
    assert CoreFits(team, st, s, g) && CoreFits(team, st, 0, g) && GroupFits(team, st, g);
    NotifiedAll(st.phase[g], team.segments);
  }

  /// The owner writes its tiles out only once every row of them, padding
  /// included, was written, each exactly once.
  lemma WritesFinishedTiles(team: Team, run: seq<Action>, r: nat)
    requires team.Valid() && Possible(team, run) && Enabled(team, After(team, run), WriteOut) && r < 32
    ensures After(team, run).writes[r] == 1
  {
    hide Notified, Delivered, Apply, After, Possible, GroupFits;
    RunsKeepGood(team, run);
    var st := After(team, run);
    DeliveredAll(st.phase, team.groups);
    if r < team.rows { GroupOfRow(r, team.groups); }
  }

  lemma GroupOfRow(r: nat, groups: nat)
    requires groups > 0
    ensures r % groups < groups
  {}

  /// No row is ever written twice.
  lemma NoRowTwice(team: Team, run: seq<Action>, r: nat)
    requires team.Valid() && Possible(team, run) && r < 32
    ensures After(team, run).writes[r] <= 1
  {
    hide Notified, Delivered, Apply, After, Possible, GroupFits, OwnerFits, CoreFits;
    RunsKeepGood(team, run);
  }

  /// Until the tiles are out and every core is done, some core can go on.
  lemma NeverDeadlocked(team: Team, run: seq<Action>) returns (a: Action)
    requires team.Valid() && Possible(team, run)
    requires exists s: nat, g: nat :: team.Core(s, g) && After(team, run).phase[g][s] != Finished
    ensures Enabled(team, After(team, run), a)
  {
    hide Notified, Delivered, Apply, After, Possible, DueWrites;
    RunsKeepGood(team, run);
    var st := After(team, run);
    if st.phase[0][0] == Padding { return Pad; }
    if s: nat, g: nat :| team.Core(s, g) && st.phase[g][s] == Scanning { return Scan(s, g); }
    if s: nat, g: nat :| team.Core(s, g) && s > 0 && st.phase[g][s] == Listed { return NotifyMerger(s, g); }
    if g: nat :| g < team.groups && st.phase[g][0] == Listed {
      forall s | 0 < s < team.segments
        ensures st.phase[g][s] == Finished
      {
        assert CoreFits(team, st, s, g) && team.Core(s, g);
      }
      NotifiedAll(st.phase[g], team.segments);
      assert GroupFits(team, st, g);
      return Merge(g);
    }
    if g: nat :| 0 < g < team.groups && st.phase[g][0] == Placed { return NotifyOwner(g); }
    forall g | 0 < g < team.groups
      ensures st.phase[g][0] == Finished
    {
      assert CoreFits(team, st, 0, g) && team.Core(0, g);
    }
    DeliveredAll(st.phase, team.groups);
    var s: nat, g: nat :| team.Core(s, g) && st.phase[g][s] != Finished;
    assert CoreFits(team, st, s, g) && CoreFits(team, st, 0, 0) && team.Core(0, 0);
    a := WriteOut;
  }
}
