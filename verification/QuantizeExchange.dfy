/// The all-to-all exchange of row maxima: a core copies its rows to every gather
/// buffer, at a place of its own, and raises the others' semaphores once none of
/// its copies is under way.
///
/// Copies and counts land in any order. A core's part is its rows' words, sent
/// in one or two pieces.
module QuantizeExchange {
  import opened RowMajor

  datatype Job<W> = Job(parts: seq<seq<W>>, pieces: nat, pieceWords: nat)
  {
    function Cores(): nat { |parts| }

    /// Words of a slot.
    function Slot(): nat { pieces * pieceWords }

    ghost predicate Valid() {
      |parts| > 0 && pieces > 0 && pieceWords > 0 && forall c: nat :: c < |parts| ==> |parts[c]| == Slot()
    }
  }

  /// What one core sends another.
  datatype Copy = Copy(source: nat, dest: nat, piece: nat)

  datatype Count = Count(source: nat, dest: nat)

  /// The gather buffers, the copies that have landed, the cores whose copies are
  /// all acknowledged, the counts that have landed, the semaphores, and the
  /// cores that have handed their gather buffers over.
  datatype State<W> = State(gather: seq<seq<W>>, landed: set<Copy>, confirmed: set<nat>, told: set<Count>,
                            done: seq<nat>, passed: set<nat>)

  datatype Step = Land(copy: Copy) | Confirm(core: nat) | Up(count: Count) | Pass(owner: nat)

  predicate IsCopy<W>(job: Job<W>, c: Copy) { c.source < job.Cores() && c.dest < job.Cores() && c.piece < job.pieces }

  predicate IsCount<W>(job: Job<W>, c: Count) { c.source < job.Cores() && c.dest < job.Cores() && c.source != c.dest }

  /// Where a piece goes in the gather buffers.
  function Place<W>(job: Job<W>, source: nat, piece: nat): nat { source * job.Slot() + piece * job.pieceWords }

  lemma PieceInSlot(pieces: nat, words: nat, piece: nat)
    requires piece < pieces
    ensures piece * words + words <= pieces * words
  {
    MulStrict(piece, pieces, words);
  }

  lemma PlaceFits<W>(job: Job<W>, c: Copy)
    requires job.Valid() && IsCopy(job, c)
    ensures Place(job, c.source, c.piece) + job.pieceWords <= job.Cores() * job.Slot()
  {
    PieceInSlot(job.pieces, job.pieceWords, c.piece);
    MulStrict(c.source, job.Cores(), job.Slot());
  }

  function Piece<W>(job: Job<W>, c: Copy): (words: seq<W>)
    requires job.Valid() && IsCopy(job, c)
    ensures |words| == job.pieceWords
  {
    PieceInSlot(job.pieces, job.pieceWords, c.piece);
    job.parts[c.source][c.piece * job.pieceWords..c.piece * job.pieceWords + job.pieceWords]
  }

  function Written<W>(words: seq<W>, at: nat, piece: seq<W>): (after: seq<W>)
    requires at + |piece| <= |words|
    ensures |after| == |words|
    ensures forall x: nat :: x < |words| ==> after[x] == if at <= x < at + |piece| then piece[x - at] else words[x]
  {
    words[..at] + piece + words[at + |piece|..]
  }

  ghost predicate Shaped<W>(job: Job<W>, s: State<W>) {
    && |s.gather| == job.Cores() && |s.done| == job.Cores()
    && forall d: nat :: d < job.Cores() ==> |s.gather[d]| >= job.Cores() * job.Slot()
  }

  ghost predicate Initial<W>(job: Job<W>, s: State<W>) {
    && Shaped(job, s) && s.landed == {} && s.confirmed == {} && s.told == {} && s.passed == {}
    && forall d: nat :: d < job.Cores() ==> s.done[d] == 0
  }

  /// A core confirms when all of its copies have landed, counts itself on the
  /// others after that, and passes when all the others have counted themselves on it.
  ghost predicate Enabled<W>(job: Job<W>, s: State<W>, step: Step)
    requires Shaped(job, s)
  {
    match step
    case Land(c) => IsCopy(job, c) && c !in s.landed
    case Confirm(c) => c < job.Cores() && c !in s.confirmed && forall k: Copy :: IsCopy(job, k) && k.source == c ==>
      k in s.landed
    case Up(c) => IsCount(job, c) && c !in s.told && c.source in s.confirmed
    case Pass(d) => d < job.Cores() && d !in s.passed && d in s.confirmed && s.done[d] == job.Cores() - 1
  }

  function Apply<W>(job: Job<W>, s: State<W>, step: Step): (s': State<W>)
    requires job.Valid() && Shaped(job, s) && Enabled(job, s, step)
    ensures Shaped(job, s')
  {
    match step
    case Land(c) =>
      PlaceFits(job, c);
      s.(gather := s.gather[c.dest := Written(s.gather[c.dest], Place(job, c.source, c.piece), Piece(job, c))],
        landed := s.landed + {c})
    case Confirm(c) => s.(confirmed := s.confirmed + {c})
    case Up(c) => s.(told := s.told + {c}, done := s.done[c.dest := s.done[c.dest] + 1])
    case Pass(d) => s.(done := s.done[d := 0], passed := s.passed + {d})
  }

  ghost predicate IsRun<W>(job: Job<W>, states: seq<State<W>>, steps: seq<Step>) {
    && job.Valid() && |states| == |steps| + 1 && Initial(job, states[0])
    && forall i: nat :: i < |steps| ==>
      Shaped(job, states[i]) && Enabled(job, states[i], steps[i]) && states[i + 1] == Apply(job, states[i], steps[i])
  }

  // ---- what every run keeps ----

  /// A piece that has landed is in its place.
  ghost predicate InPlace<W>(job: Job<W>, s: State<W>, c: Copy)
    requires job.Valid() && Shaped(job, s) && IsCopy(job, c)
  {
    PlaceFits(job, c);
    s.gather[c.dest][Place(job, c.source, c.piece)..Place(job, c.source, c.piece) + job.pieceWords] == Piece(job, c)
  }

  function Tellers(told: set<Count>, d: nat): set<nat> { set c | c in told && c.dest == d :: c.source }

  function CoreSet(n: nat): (s: set<nat>)
    ensures |s| == n && forall c: nat :: c in s <==> c < n
  {
    if n == 0 then {} else CoreSet(n - 1) + {n - 1}
  }

  function Others<W>(job: Job<W>, d: nat): set<nat> { CoreSet(job.Cores()) - {d} }

  ghost predicate Good<W>(job: Job<W>, s: State<W>) {
    && job.Valid() && Shaped(job, s)
    && (forall c: Copy :: c in s.landed ==> IsCopy(job, c) && InPlace(job, s, c))
    && (forall c: nat :: c in s.confirmed ==> c < job.Cores() && Acknowledged(job, s, c))
    && (forall c: Count :: c in s.told ==> IsCount(job, c) && c.source in s.confirmed)
    && (forall d: nat :: d in s.passed ==> d < job.Cores() && Tellers(s.told, d) == Others(job, d) && d in s.confirmed)
    && (forall d: nat :: d < job.Cores() && d !in s.passed ==> s.done[d] == |Tellers(s.told, d)|)
  }

  ghost predicate Acknowledged<W>(job: Job<W>, s: State<W>, c: nat) {
    forall k: Copy :: IsCopy(job, k) && k.source == c ==> k in s.landed
  }

  /// Different pieces have different places.
  lemma PlacesApart<W>(job: Job<W>, a: Copy, b: Copy)
    requires job.Valid() && IsCopy(job, a) && IsCopy(job, b) && (a.source != b.source || a.piece != b.piece)
    ensures Place(job, a.source, a.piece) + job.pieceWords <= Place(job, b.source, b.piece)
         || Place(job, b.source, b.piece) + job.pieceWords <= Place(job, a.source, a.piece)
  {
    if a.source < b.source || (a.source == b.source && a.piece < b.piece) { PlaceBefore(job, a, b); }
      else { PlaceBefore(job, b, a); }
  }

  lemma PlaceBefore<W>(job: Job<W>, a: Copy, b: Copy)
    requires job.Valid() && IsCopy(job, a) && IsCopy(job, b)
      && (a.source < b.source || (a.source == b.source && a.piece < b.piece))
    ensures Place(job, a.source, a.piece) + job.pieceWords <= Place(job, b.source, b.piece)
  {
    PieceInSlot(job.pieces, job.pieceWords, a.piece);
    hide Job.Slot;
    if a.source < b.source { MulStrict(a.source, b.source, job.Slot()); }
      else { MulStrict(a.piece, b.piece, job.pieceWords); }
    SlotIs(job);
  }

  lemma SlotIs<W>(job: Job<W>)
    ensures job.Slot() == job.pieces * job.pieceWords
  {}

  lemma LandKeepsPlaces<W>(job: Job<W>, s: State<W>, c: Copy, k: Copy)
    requires Good(job, s) && Enabled(job, s, Land(c)) && IsCopy(job, k) && (k == c || k in s.landed)
    ensures InPlace(job, Apply(job, s, Land(c)), k)
  {
    hide Place, Piece;
    PlaceFits(job, c);
    PlaceFits(job, k);
    var s' := Apply(job, s, Land(c));
    if k == c {
      assert s'.gather[c.dest][Place(job, c.source, c.piece)..Place(job, c.source, c.piece) + job.pieceWords]
        == Piece(job, c);
    } else if k.dest == c.dest {
      PlacesApart(job, c, k);
      assert s'.gather[k.dest][Place(job, k.source, k.piece)..Place(job, k.source, k.piece) + job.pieceWords]
          == s.gather[k.dest][Place(job, k.source, k.piece)..Place(job, k.source, k.piece) + job.pieceWords];
    }
  }

  lemma OthersCount<W>(job: Job<W>, d: nat)
    requires d < job.Cores()
    ensures |Others(job, d)| == job.Cores() - 1
  {}

  lemma TellersAreOthers<W>(job: Job<W>, s: State<W>, d: nat)
    requires Good(job, s)
    ensures Tellers(s.told, d) <= Others(job, d)
  {}

  /// All the others have told a core once it counts that many.
  lemma FullCount<W>(job: Job<W>, s: State<W>, d: nat)
    requires Good(job, s) && d < job.Cores() && |Tellers(s.told, d)| == job.Cores() - 1
    ensures Tellers(s.told, d) == Others(job, d)
  {
    TellersAreOthers(job, s, d);
    OthersCount(job, d);
    EqualSets(Tellers(s.told, d), Others(job, d));
  }

  lemma EqualSets(a: set<nat>, b: set<nat>)
    requires a <= b && |a| == |b|
    ensures a == b
  {
    assert |b - a| == |b| - |a|;
  }

  lemma TellerIs(told: set<Count>, c: Count)
    ensures c.source in Tellers(told, c.dest) <==> c in told
  {
    if c.source in Tellers(told, c.dest) {
      var k :| k in told && k.dest == c.dest && k.source == c.source;
      assert k == c;
    }
  }

  lemma NewTeller(told: set<Count>, c: Count, d: nat)
    requires c !in told
    ensures d != c.dest ==> Tellers(told + {c}, d) == Tellers(told, d)
    ensures d == c.dest ==> Tellers(told + {c}, d) == Tellers(told, d) + {c.source} && c.source !in Tellers(told, d)
  {
    TellerIs(told, c);
  }

  lemma StepKeepsGood<W>(job: Job<W>, s: State<W>, step: Step)
    requires Good(job, s) && Enabled(job, s, step)
    ensures Good(job, Apply(job, s, step))
  {
    hide Tellers, Others, InPlace, Place, Piece;
    var s' := Apply(job, s, step);
    match step {
      case Land(c) =>
        forall k: Copy | k in s'.landed ensures IsCopy(job, k) && InPlace(job, s', k) { LandKeepsPlaces(job, s, c, k); }
      case Confirm(c) =>
        forall k: Copy | k in s'.landed ensures InPlace(job, s', k) { KeptInPlace(job, s, s', k); }
      case Up(c) =>
        forall k: Copy | k in s'.landed ensures InPlace(job, s', k) { KeptInPlace(job, s, s', k); }
        forall d: nat | d < job.Cores()
          ensures d in s'.passed ==> Tellers(s'.told, d) == Others(job, d)
          ensures d !in s'.passed ==> s'.done[d] == |Tellers(s'.told, d)|
        {
          NewTeller(s.told, c, d);
          if d in s.passed && d == c.dest { PassedTold(job, s, c); }
        }
      case Pass(d) =>
        forall k: Copy | k in s'.landed ensures InPlace(job, s', k) { KeptInPlace(job, s, s', k); }
        FullCount(job, s, d);
    }
  }

  lemma KeptInPlace<W>(job: Job<W>, s: State<W>, s': State<W>, k: Copy)
    requires job.Valid() && Shaped(job, s) && Shaped(job, s') && s'.gather == s.gather && IsCopy(job, k)
      && InPlace(job, s, k)
    ensures InPlace(job, s', k)
  {}

  /// A core that passed has been told by everyone else.
  lemma PassedTold<W>(job: Job<W>, s: State<W>, c: Count)
    requires Good(job, s) && IsCount(job, c) && c.dest in s.passed
    ensures c in s.told
  {
    TellerIs(s.told, c);
    assert c.source in Others(job, c.dest);
  }

  lemma {:induction false} RunsKeepGood<W>(job: Job<W>, states: seq<State<W>>, steps: seq<Step>, n: nat)
    requires IsRun(job, states, steps) && n <= |steps|
    ensures Good(job, states[n])
  {
    hide Enabled;
    if n == 0 {
      assert forall d: nat :: Tellers({}, d) == {};
    } else {
      RunsKeepGood(job, states, steps, n - 1);
      assert states[n - 1 + 1] == Apply(job, states[n - 1], steps[n - 1]);
      StepKeepsGood(job, states[n - 1], steps[n - 1]);
    }
  }

  // ---- the results ----

  /// Core c's part is in its slot of a gather buffer.
  ghost predicate SlotHolds<W>(job: Job<W>, gather: seq<W>, c: nat)
    requires c < job.Cores()
  {
    && job.Cores() * job.Slot() <= |gather|
    && |job.parts[c]| == job.Slot()
    && forall x: nat :: x < job.Slot() ==> SlotWordIs(job, gather, c, x)
  }

  ghost predicate SlotWordIs<W>(job: Job<W>, gather: seq<W>, c: nat, x: nat)
    requires c < job.Cores() && job.Cores() * job.Slot() <= |gather| && |job.parts[c]| == job.Slot() && x < job.Slot()
  {
    SlotBound(c, job.Cores(), job.Slot(), x);
    gather[c * job.Slot() + x] == job.parts[c][x]
  }

  lemma SlotBound(c: nat, cores: nat, slot: nat, x: nat)
    requires c < cores && x < slot
    ensures c * slot + x < cores * slot
  {
    MulStrict(c, cores, slot);
  }

  /// Whenever a core hands its gather buffer over, every core's part is in its slot there.
  lemma FoldsAfterAllLanded<W>(job: Job<W>, states: seq<State<W>>, steps: seq<Step>, n: nat, d: nat, c: nat)
    requires IsRun(job, states, steps) && n <= |steps| && d in states[n].passed && c < job.Cores()
    ensures Shaped(job, states[n]) && d < job.Cores() && SlotHolds(job, states[n].gather[d], c)
  {
    RunsKeepGood(job, states, steps, n);
    AllHere(job, states[n], d, c);
  }

  lemma AllHere<W>(job: Job<W>, s: State<W>, d: nat, c: nat)
    requires Good(job, s) && d in s.passed && c < job.Cores()
    ensures d < job.Cores() && SlotHolds(job, s.gather[d], c)
  {
    hide SlotWordIs, InPlace, Tellers;
    if c != d { PassedTold(job, s, Count(c, d)); }
    forall x: nat | x < job.Slot() ensures SlotWordIs(job, s.gather[d], c, x) {
      DivMod(x, job.pieceWords);
      PositiveFactors(job.pieces, job.pieceWords, x);
      WordOfPiece(job, s, Copy(c, d, x / job.pieceWords), x % job.pieceWords, x);
    }
  }

  lemma WordOfPiece<W>(job: Job<W>, s: State<W>, k: Copy, r: nat, x: nat)
    requires Good(job, s) && IsCopy(job, k) && Acknowledged(job, s, k.source)
    requires r < job.pieceWords && x < job.Slot() && x == k.piece * job.pieceWords + r
    ensures SlotWordIs(job, s.gather[k.dest], k.source, x)
  {
    hide Place, InPlace, Piece;
    assert k in s.landed;
    PieceWord(job, s, k, r);
    PlaceSum(job, k, r, x);
  }

  lemma PlaceSum<W>(job: Job<W>, k: Copy, r: nat, x: nat)
    requires x == k.piece * job.pieceWords + r
    ensures Place(job, k.source, k.piece) + r == k.source * job.Slot() + x
  {
    hide Job.Slot;
  }

  lemma PieceWord<W>(job: Job<W>, s: State<W>, k: Copy, r: nat)
    requires job.Valid() && Shaped(job, s) && IsCopy(job, k) && InPlace(job, s, k) && r < job.pieceWords
    ensures Place(job, k.source, k.piece) + r < |s.gather[k.dest]|
    ensures k.piece * job.pieceWords + r < |job.parts[k.source]|
    ensures s.gather[k.dest][Place(job, k.source, k.piece) + r] == job.parts[k.source][k.piece * job.pieceWords + r]
  {
    hide Place, Job.Slot;
    PlaceFits(job, k);
    PieceInSlot(job.pieces, job.pieceWords, k.piece);
    SlotIs(job);
    var at, start := Place(job, k.source, k.piece), k.piece * job.pieceWords;
    assert s.gather[k.dest][at..at + job.pieceWords][r] == Piece(job, k)[r];
  }

  /// Until every core has passed, some step can happen.
  lemma NeverDeadlocked<W>(job: Job<W>, states: seq<State<W>>, steps: seq<Step>, n: nat, d: nat)
    requires IsRun(job, states, steps) && n <= |steps| && d < job.Cores() && d !in states[n].passed
    ensures Shaped(job, states[n]) && exists step :: Enabled(job, states[n], step)
  {
    RunsKeepGood(job, states, steps, n);
    var s := states[n];
    if k: Copy :| IsCopy(job, k) && k !in s.landed {
      assert Enabled(job, s, Land(k));
    } else if c: nat :| c < job.Cores() && c !in s.confirmed {
      assert Enabled(job, s, Confirm(c));
    } else if k: Count :| IsCount(job, k) && k !in s.told {
      assert Enabled(job, s, Up(k));
    } else {
      forall c: nat | c in Others(job, d) ensures c in Tellers(s.told, d) { assert IsCount(job, Count(c, d)); }
      TellersAreOthers(job, s, d);
      OthersCount(job, d);
      assert Tellers(s.told, d) == Others(job, d);
      assert Enabled(job, s, Pass(d));
    }
  }

  // ---- every run ends ----

  function Progress<W>(s: State<W>): nat { |s.landed| + |s.confirmed| + |s.told| + |s.passed| }

  function Copies(cores: nat, pieces: nat): set<Copy> {
    set c: nat, d: nat, p: nat | c in CoreSet(cores) && d in CoreSet(cores) && p in CoreSet(pieces) :: Copy(c, d, p)
  }

  function Counts(cores: nat): set<Count> {
    set c: nat, d: nat | c in CoreSet(cores) && d in CoreSet(cores) :: Count(c, d)
  }

  /// The most steps a run can have.
  function MostSteps<W>(job: Job<W>): nat {
    |Copies(job.Cores(), job.pieces)| + job.Cores() + |Counts(job.Cores())| + job.Cores()
  }

  lemma SubsetCount<T>(a: set<T>, b: set<T>)
    requires a <= b
    ensures |a| <= |b|
  {
    assert |b - a| == |b| - |a|;
  }

  lemma ProgressBound<W>(job: Job<W>, s: State<W>)
    requires Good(job, s)
    ensures Progress(s) <= MostSteps(job)
  {
    hide InPlace, Tellers;
    SubsetCount(s.landed, Copies(job.Cores(), job.pieces));
    SubsetCount(s.told, Counts(job.Cores()));
    SubsetCount(s.confirmed, CoreSet(job.Cores()));
    SubsetCount(s.passed, CoreSet(job.Cores()));
  }

  lemma StepProgress<W>(job: Job<W>, s: State<W>, step: Step)
    requires job.Valid() && Shaped(job, s) && Enabled(job, s, step)
    ensures Progress(Apply(job, s, step)) == Progress(s) + 1
  {}

  /// Every step makes progress, so every run ends.
  lemma {:induction false} RunsEnd<W>(job: Job<W>, states: seq<State<W>>, steps: seq<Step>, n: nat)
    requires IsRun(job, states, steps) && n <= |steps|
    ensures Progress(states[n]) == n <= MostSteps(job)
  {
    hide MostSteps, Apply, Enabled, Good;
    RunsKeepGood(job, states, steps, n);
    ProgressBound(job, states[n]);
    if n > 0 {
      RunsEnd(job, states, steps, n - 1);
      assert states[n - 1 + 1] == Apply(job, states[n - 1], steps[n - 1]);
      StepProgress(job, states[n - 1], steps[n - 1]);
    }
  }

  // ---- an exchange carried through ----

  /// What happens next, of all that can: any such choice makes an interleaving.
  type Schedule<!W> = (Job<W>, State<W>) -> Step

  ghost predicate Schedules<W(!new)>(next: Schedule<W>) {
    forall job: Job<W>, s: State<W> ::
      job.Valid() && Shaped(job, s) && (exists step :: Enabled(job, s, step)) ==> Enabled(job, s, next(job, s))
  }

  /// A core's buffer as it was when the core handed it over.
  ghost predicate HandedAt<W>(states: seq<State<W>>, d: nat, gather: seq<W>) {
    exists n: nat :: n < |states| && d in states[n].passed && d < |states[n].gather| && states[n].gather[d] == gather
  }

  lemma RunExtends<W>(job: Job<W>, states: seq<State<W>>, steps: seq<Step>, step: Step)
    requires IsRun(job, states, steps) && Shaped(job, states[|steps|]) && Enabled(job, states[|steps|], step)
    ensures IsRun(job, states + [Apply(job, states[|steps|], step)], steps + [step])
  {
    hide Apply, Enabled, Shaped;
    var more, done := states + [Apply(job, states[|steps|], step)], steps + [step];
    forall i: nat | i < |done|
      ensures Shaped(job, more[i]) && Enabled(job, more[i], done[i]) && more[i + 1] == Apply(job, more[i], done[i])
    {
      if i < |steps| { assert states[i + 1] == Apply(job, states[i], steps[i]); }
    }
  }

  lemma SomeoneLeft<W>(job: Job<W>, s: State<W>) returns (d: nat)
    requires Good(job, s) && |s.passed| < job.Cores()
    ensures d < job.Cores() && d !in s.passed
  {
    hide InPlace, Tellers;
    if forall c: nat :: c < job.Cores() ==> c in s.passed {
      SubsetCount(CoreSet(job.Cores()), s.passed);
    }
    d :| d < job.Cores() && d !in s.passed;
  }

  /// Carries the exchange through, in the order of the schedule, until every core
  /// has handed its buffer over.
  method Carry<W(!new)>(job: Job<W>, gather: seq<seq<W>>, next: Schedule<W>)
    returns (handed: seq<seq<W>>, ghost states: seq<State<W>>, ghost steps: seq<Step>)
    requires job.Valid() && Schedules(next) && |gather| == job.Cores()
    requires forall d: nat :: d < |gather| ==> |gather[d]| >= job.Cores() * job.Slot()
    ensures IsRun(job, states, steps) && |handed| == job.Cores()
    ensures forall d: nat :: d < job.Cores() ==> HandedAt(states, d, handed[d]) && |handed[d]| == |gather[d]|
  {
    hide Apply, Enabled, InPlace, Tellers, Progress, MostSteps, Good;
    handed := gather;
    var s := State(gather, {}, {}, {}, seq(job.Cores(), d => 0), {});
    states, steps := [s], [];
    StartsRun(job, s);
    while |s.passed| < job.Cores()
      invariant IsRun(job, states, steps) && s == states[|steps|] && |handed| == job.Cores()
      invariant |s.gather| == job.Cores()
      invariant forall d: nat :: d < job.Cores() ==> |s.gather[d]| == |handed[d]| == |gather[d]|
      invariant forall d: nat :: d < job.Cores() && d in s.passed ==> HandedAt(states, d, handed[d])
      decreases MostSteps(job) - |steps|
    {
      RunsKeepGood(job, states, steps, |steps|);
      RunsEnd(job, states, steps, |steps|);
      ghost var d := SomeoneLeft(job, s);
      NeverDeadlocked(job, states, steps, |steps|, d);
      var step := next(job, s);
      ghost var before := states;
      RunExtends(job, states, steps, step);
      s := Apply(job, s, step);
      states, steps := states + [s], steps + [step];
      RunsEnd(job, states, steps, |steps|);
      PassedBy(job, before[|before| - 1], step);
      if step.Pass? { handed := handed[step.owner := s.gather[step.owner]]; }
      forall d: nat | d < job.Cores() && d in s.passed ensures HandedAt(states, d, handed[d]) {
        if d in before[|before| - 1].passed { LaterHanded(before, s, d, handed[d]); }
        assert states[|states| - 1] == s;
      }
    }
    AllPassed(job, states, steps, s);
  }

  lemma StartsRun<W>(job: Job<W>, s: State<W>)
    requires job.Valid() && Initial(job, s)
    ensures IsRun(job, [s], [])
  {}

  /// Only a pass hands a buffer over, and it is that core's.
  lemma PassedBy<W>(job: Job<W>, s: State<W>, step: Step)
    requires job.Valid() && Shaped(job, s) && Enabled(job, s, step)
    ensures Apply(job, s, step).passed == s.passed + if step.Pass? then {step.owner} else {}
    ensures step.Pass? ==> step.owner < job.Cores() && step.owner !in s.passed
    ensures Shaped(job, Apply(job, s, step))
    ensures forall d: nat :: d < job.Cores() ==> |Apply(job, s, step).gather[d]| == |s.gather[d]|
  {}

  lemma LaterHanded<W>(states: seq<State<W>>, s: State<W>, d: nat, gather: seq<W>)
    requires HandedAt(states, d, gather)
    ensures HandedAt(states + [s], d, gather)
  {
    var n: nat :| n < |states| && d in states[n].passed && d < |states[n].gather| && states[n].gather[d] == gather;
    assert (states + [s])[n] == states[n];
  }

  lemma AllPassed<W>(job: Job<W>, states: seq<State<W>>, steps: seq<Step>, s: State<W>)
    requires IsRun(job, states, steps) && s == states[|steps|] && |s.passed| >= job.Cores()
    ensures forall d: nat :: d < job.Cores() ==> d in s.passed
  {
    RunsKeepGood(job, states, steps, |steps|);
    if d: nat :| d < job.Cores() && d !in s.passed {
      SubsetCount(s.passed, CoreSet(job.Cores()) - {d});
    }
  }
}
