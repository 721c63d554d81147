/// Processes that go through collectives - all_gather, barrier, broadcast - of
/// any number of contexts, in every interleaving.
///
/// The calls stand in one schedule, and every process makes those of its own
/// contexts in that order: the members of a context issue the same sequence of
/// collectives, and calls of different contexts do not cross. A barrier is an
/// all_gather of one byte.
module CollectiveRuns {
  import opened KeyNames
  import opened Coordination
  import opened Tensors

  datatype Kind = Gathering | Casting(root: nat)

  datatype Team = Team(path: Path, members: seq<nat>)

  datatype Call = Call(context: nat, kind: Kind)

  type Data = (nat, nat) -> Bytes

  /// `data(p, g)` is what process p hands to call g.
  datatype Job = Job(size: nat, teams: seq<Team>, schedule: seq<Call>, data: Data)
  {
    ghost predicate Valid() {
      && (forall i, j :: 0 <= i < j < |teams| ==> teams[i].path != teams[j].path)
      && (forall i :: 0 <= i < |teams| ==> Distinct(teams[i].members) && Names(teams[i].members, size))
      && forall g :: 0 <= g < |schedule| ==>
        && schedule[g].context < |teams|
        && (schedule[g].kind.Casting? ==> schedule[g].kind.root < |TeamOf(g).members|)
    }

    function TeamOf(g: nat): Team
      requires g < |schedule| && schedule[g].context < |teams|
    {
      teams[schedule[g].context]
    }

    /// The number call g has in its context.
    function Number(context: nat, g: nat): nat
      requires g <= |schedule|
    {
      if g == 0 then 0 else Number(context, g - 1) + (if schedule[g - 1].context == context then 1 else 0)
    }

    function NumberOf(g: nat): nat
      requires g < |schedule|
    {
      Number(schedule[g].context, g)
    }

    /// The key under which rank i's value of call g is put.
    function KeyOf(g: nat, i: nat): Key
      requires g < |schedule| && schedule[g].context < |teams|
    {
      match schedule[g].kind
      case Gathering => AllGather(TeamOf(g).path, NumberOf(g), i)
      case Casting(root) => Broadcast(TeamOf(g).path, NumberOf(g), root)
    }

    /// Whether rank i puts a value in call g, when the context has several members.
    predicate Puts(g: nat, i: nat)
      requires g < |schedule|
    {
      schedule[g].kind.Gathering? || schedule[g].kind.root == i
    }

    /// What process p has after call g.
    function Expected(g: nat): seq<Bytes>
      requires g < |schedule| && schedule[g].context < |teams|
      requires schedule[g].kind.Casting? ==> schedule[g].kind.root < |TeamOf(g).members|
    {
      match schedule[g].kind
      case Gathering => Contributions(g, |TeamOf(g).members|)
      case Casting(root) => [data(TeamOf(g).members[root], g)]
    }

    function Contributions(g: nat, n: nat): (r: seq<Bytes>)
      requires g < |schedule| && schedule[g].context < |teams| && n <= |TeamOf(g).members|
      ensures |r| == n
    {
      seq(n, i requires 0 <= i < n => data(TeamOf(g).members[i], g))
    }
  }

  /// Between calls, or in a call with the values read so far.
  datatype Phase = Outside | Reading(got: seq<Bytes>)

  datatype Worker = Worker(next: nat, phase: Phase, counts: seq<nat>, results: map<nat, seq<Bytes>>)

  datatype World = World(workers: seq<Worker>, store: map<string, Bytes>)

  function Start(job: Job): World {
    World(seq(job.size, _ => Worker(0, Outside, seq(|job.teams|, _ => 0), map[])), map[])
  }

  ghost predicate Shaped(job: Job, w: World) {
    && |w.workers| == job.size
    && forall p :: 0 <= p < job.size ==> w.workers[p].next <= |job.schedule| && |w.workers[p].counts| == |job.teams|
  }

  predicate Takes(job: Job, p: nat, g: nat)
    requires g < |job.schedule| && job.schedule[g].context < |job.teams|
  {
    p in job.TeamOf(g).members
  }

  /// The key a reading process waits for.
  function Wanted(job: Job, worker: Worker): Key
    requires worker.next < |job.schedule| && worker.phase.Reading?
    requires job.schedule[worker.next].context < |job.teams| == |worker.counts|
  {
    var team, count := job.TeamOf(worker.next), worker.counts[job.schedule[worker.next].context];
    var n := if count == 0 then 0 else count - 1;
    match job.schedule[worker.next].kind
    case Gathering => AllGather(team.path, n, |worker.phase.got|)
    case Casting(root) => Broadcast(team.path, n, root)
  }

  /// Whether process p can go on. It is held up only by a get whose key is absent.
  ghost predicate Can(job: Job, w: World, p: nat)
    requires job.Valid() && Shaped(job, w)
  {
    && p < job.size && w.workers[p].next < |job.schedule|
    && (w.workers[p].phase.Reading? ==> KeyText(Wanted(job, w.workers[p])) in w.store)
  }

  function Finished(worker: Worker, result: seq<Bytes>): Worker {
    worker.(next := worker.next + 1, phase := Outside, results := worker.results[worker.next := result])
  }

  ghost function Step(job: Job, w: World, p: nat): (w': World)
    requires job.Valid() && Shaped(job, w) && Can(job, w, p)
    ensures Shaped(job, w')
  {
    var worker := w.workers[p];
    var g := worker.next;
    var call, team := job.schedule[g], job.TeamOf(g);
    if !Takes(job, p, g) then
      w.(workers := w.workers[p := worker.(next := g + 1)])
    else if |team.members| == 1 then
      w.(workers := w.workers[p := Finished(worker, [job.data(p, g)])])
    else if worker.phase.Outside? then
      var n, rank := worker.counts[call.context], Find(team.members, p);
      var counted := worker.(counts := worker.counts[call.context := n + 1]);
      match call.kind
      case Gathering =>
        World(w.workers[p := counted.(phase := Reading([]))],
              w.store[KeyText(AllGather(team.path, n, rank)) := job.data(p, g)])
      case Casting(root) =>
        if rank == root then
          World(w.workers[p := Finished(counted, [job.data(p, g)])],
                w.store[KeyText(Broadcast(team.path, n, root)) := job.data(p, g)])
        else w.(workers := w.workers[p := counted.(phase := Reading([]))])
    else
      var value := w.store[KeyText(Wanted(job, worker))];
      var got := worker.phase.got + [value];
      if call.kind.Casting? || |got| == |team.members| then w.(workers := w.workers[p := Finished(worker, got)])
      else w.(workers := w.workers[p := worker.(phase := Reading(got))])
  }

  // ---- what every step keeps ----

  /// Whether p has entered call g: put what it puts there.
  predicate Entered(w: World, p: nat, g: nat)
    requires p < |w.workers|
  {
    g < w.workers[p].next || (g == w.workers[p].next && w.workers[p].phase.Reading?)
  }

  ghost predicate CountFits(job: Job, w: World, p: nat, context: nat)
    requires job.Valid() && Shaped(job, w) && p < job.size && context < |job.teams|
  {
    p in job.teams[context].members && |job.teams[context].members| > 1 ==>
      w.workers[p].counts[context] == job.Number(context, w.workers[p].next)
        + (if w.workers[p].phase.Reading? && w.workers[p].next < |job.schedule|
          && job.schedule[w.workers[p].next].context == context then 1 else 0)
  }

  ghost predicate ReadingFits(job: Job, w: World, p: nat)
    requires job.Valid() && Shaped(job, w) && p < job.size
  {
    w.workers[p].phase.Reading? ==>
      var g, got := w.workers[p].next, w.workers[p].phase.got;
      && g < |job.schedule| && Takes(job, p, g) && 1 < |job.TeamOf(g).members| && |got| < |job.TeamOf(g).members|
      && (job.schedule[g].kind.Casting? ==> got == [] && job.TeamOf(g).members[job.schedule[g].kind.root] != p)
      && (job.schedule[g].kind.Gathering? ==> got == job.Contributions(g, |got|))
      && forall i :: 0 <= i < |got| ==> Entered(w, job.TeamOf(g).members[i], g)
  }

  ghost predicate ResultFits(job: Job, w: World, p: nat, g: nat)
    requires job.Valid() && Shaped(job, w) && p < job.size && g < |job.schedule|
  {
    g < w.workers[p].next && Takes(job, p, g) ==>
      && g in w.workers[p].results && w.workers[p].results[g] == job.Expected(g)
      && (job.schedule[g].kind.Gathering? ==> forall i :: 0 <= i < |job.TeamOf(g).members| ==>
         Entered(w, job.TeamOf(g).members[i], g))
  }

  /// A value is in the store just when its owner has entered the call.
  ghost predicate ValueFits(job: Job, w: World, g: nat, i: nat)
    requires job.Valid() && Shaped(job, w) && g < |job.schedule| && i < |job.TeamOf(g).members|
  {
    1 < |job.TeamOf(g).members| && job.Puts(g, i) ==>
      && (KeyText(job.KeyOf(g, i)) in w.store <==> Entered(w, job.TeamOf(g).members[i], g))
      && (KeyText(job.KeyOf(g, i)) in w.store ==>
            w.store[KeyText(job.KeyOf(g, i))] == job.data(job.TeamOf(g).members[i], g))
  }

  ghost predicate Good(job: Job, w: World)
    requires job.Valid()
  {
    && Shaped(job, w)
    && (forall p: nat, context: nat :: p < job.size && context < |job.teams| ==> CountFits(job, w, p, context))
    && (forall p: nat :: p < job.size ==> ReadingFits(job, w, p))
    && (forall p: nat, g: nat :: p < job.size && g < |job.schedule| ==> ResultFits(job, w, p, g))
    && (forall g: nat, i: nat :: g < |job.schedule| && i < |job.TeamOf(g).members| ==> ValueFits(job, w, g, i))
  }

  // ---- the names of one schedule ----

  lemma {:induction false} NumbersGrow(job: Job, context: nat, a: nat, b: nat)
    requires a <= b <= |job.schedule|
    ensures job.Number(context, a) <= job.Number(context, b)
    ensures a < b && job.schedule[a].context == context ==> job.Number(context, a) < job.Number(context, b)
  {
    if a < b { NumbersGrow(job, context, a, b - 1); }
  }

  lemma OneTeam(job: Job, a: nat, b: nat)
    requires job.Valid() && a < |job.teams| && b < |job.teams| && job.teams[a].path == job.teams[b].path
    ensures a == b
  {}

  /// Values of different calls, or of different ranks of one all_gather, have different keys.
  lemma CallKeysApart(job: Job, g: nat, i: nat, h: nat, j: nat)
    requires job.Valid() && g < |job.schedule| && h < |job.schedule|
    requires KeyText(job.KeyOf(g, i)) == KeyText(job.KeyOf(h, j))
    ensures g == h && (job.schedule[g].kind.Gathering? ==> i == j)
  {
    hide KeyText, Job.Number;
    KeysApart(job.KeyOf(g, i), job.KeyOf(h, j));
    var a, b := job.schedule[g].context, job.schedule[h].context;
    OneTeam(job, a, b);
    if g < h { NumbersGrow(job, a, g, h); }
    if h < g { NumbersGrow(job, a, h, g); }
  }

  lemma TeamBounds(job: Job, g: nat)
    requires job.Valid() && g < |job.schedule|
    ensures Distinct(job.TeamOf(g).members) && Names(job.TeamOf(g).members, job.size)
    ensures job.schedule[g].context < |job.teams|
  {}

  // ---- one step ----

  /// Only process p moved, and it did not go back.
  ghost predicate Moved(job: Job, w: World, w': World, p: nat)
    requires job.Valid() && Shaped(job, w)
  {
    && p < job.size && Shaped(job, w') && w'.workers == w.workers[p := w'.workers[p]]
    && (w.workers[p].next < w'.workers[p].next
        || (w.workers[p].next == w'.workers[p].next && (w.workers[p].phase.Reading? ==> w'.workers[p].phase.Reading?)))
  }

  lemma EnteredGrows(job: Job, w: World, w': World, p: nat, q: nat, g: nat)
    requires job.Valid() && Shaped(job, w) && Moved(job, w, w', p) && q < job.size && Entered(w, q, g)
    ensures Entered(w', q, g)
  {}

  /// The others keep what they had.
  lemma OthersKeep(job: Job, w: World, w': World, p: nat, q: nat)
    requires job.Valid() && Good(job, w) && Moved(job, w, w', p) && q < job.size && q != p
    ensures forall context: nat :: context < |job.teams| ==> CountFits(job, w', q, context)
    ensures ReadingFits(job, w', q)
    ensures forall g: nat :: g < |job.schedule| ==> ResultFits(job, w', q, g)
  {
    hide KeyText, Job.Number, ValueFits, Entered;
    assert w'.workers[q] == w.workers[q];
    assert ReadingFits(job, w, q);
    forall context: nat | context < |job.teams| ensures CountFits(job, w', q, context) {
      assert CountFits(job, w, q, context);
    }
    if w.workers[q].phase.Reading? {
      var g, got := w.workers[q].next, w.workers[q].phase.got;
      TeamBounds(job, g);
      forall i | 0 <= i < |got| ensures Entered(w', job.TeamOf(g).members[i], g) {
        EnteredGrows(job, w, w', p, job.TeamOf(g).members[i], g);
      }
    }
    forall g: nat | g < |job.schedule| ensures ResultFits(job, w', q, g) { ResultKept(job, w, w', p, q, g); }
  }

  /// A result stays, and so do the entries it needed.
  lemma ResultKept(job: Job, w: World, w': World, p: nat, q: nat, g: nat)
    requires job.Valid() && Good(job, w) && Moved(job, w, w', p) && q < job.size && g < |job.schedule|
    requires g < w'.workers[q].next ==> g < w.workers[q].next || !Takes(job, q, g)
    requires g in w.workers[q].results ==>
      g in w'.workers[q].results && w'.workers[q].results[g] == w.workers[q].results[g]
    ensures ResultFits(job, w', q, g)
  {
    hide KeyText, Job.Number, ValueFits, Entered, CountFits, ReadingFits;
    assert ResultFits(job, w, q, g);
    TeamBounds(job, g);
    if g < w.workers[q].next && Takes(job, q, g) && job.schedule[g].kind.Gathering? {
      forall i | 0 <= i < |job.TeamOf(g).members| ensures Entered(w', job.TeamOf(g).members[i], g) {
        EnteredGrows(job, w, w', p, job.TeamOf(g).members[i], g);
      }
    }
  }

  /// Entering call `at` with rank r, and putting its value if it puts one.
  ghost predicate Enters(job: Job, w: World, w': World, p: nat)
    requires job.Valid() && Shaped(job, w) && Moved(job, w, w', p)
  {
    var g := w.workers[p].next;
    && g < |job.schedule| && Takes(job, p, g) && 1 < |job.TeamOf(g).members| && w.workers[p].phase.Outside?
    && (w'.workers[p].next == g ==> w'.workers[p].phase.Reading?) && w'.workers[p].next <= g + 1
    && (w'.workers[p].next == g + 1 ==> w'.workers[p].phase.Outside?)
    && var r := Find(job.TeamOf(g).members, p);
       w'.store == if job.Puts(g, r) then w.store[KeyText(job.KeyOf(g, r)) := job.data(p, g)] else w.store
  }

  /// Passing a call that has nothing to put, or reading on.
  ghost predicate Passes(job: Job, w: World, w': World, p: nat)
    requires job.Valid() && Shaped(job, w) && Moved(job, w, w', p)
  {
    var g := w.workers[p].next;
    && g < |job.schedule| && w'.store == w.store && w'.workers[p].next <= g + 1
    && (w'.workers[p].next == g + 1 ==> w'.workers[p].phase.Outside?)
    && (w.workers[p].phase.Reading? || !Takes(job, p, g) || |job.TeamOf(g).members| == 1)
    && (w.workers[p].phase.Outside? ==> w'.workers[p].phase.Outside?)
  }

  lemma EnteredSame(job: Job, w: World, w': World, p: nat, q: nat, g: nat)
    requires job.Valid() && Shaped(job, w) && Moved(job, w, w', p) && q < job.size && w.workers[p].next < |job.schedule|
    requires w'.workers[p].next <= w.workers[p].next + 1
    requires w'.workers[p].next == w.workers[p].next + 1 ==> w'.workers[p].phase.Outside?
    requires q != p || g != w.workers[p].next || w.workers[p].phase.Reading?
    ensures Entered(w', q, g) <==> Entered(w, q, g)
  {}

  lemma PassedValues(job: Job, w: World, w': World, p: nat, g: nat, i: nat)
    requires job.Valid() && Good(job, w) && Moved(job, w, w', p) && Passes(job, w, w', p)
    requires g < |job.schedule| && i < |job.TeamOf(g).members|
    ensures ValueFits(job, w', g, i)
  {
    hide KeyText, Job.Number, Entered, CountFits, ReadingFits, ResultFits;
    assert ValueFits(job, w, g, i);
    TeamBounds(job, g);
    var q := job.TeamOf(g).members[i];
    if 1 < |job.TeamOf(g).members| { EnteredSame(job, w, w', p, q, g); }
  }

  lemma EnteredValues(job: Job, w: World, w': World, p: nat, g: nat, i: nat)
    requires job.Valid() && Good(job, w) && Moved(job, w, w', p) && Enters(job, w, w', p)
    requires g < |job.schedule| && i < |job.TeamOf(g).members|
    ensures ValueFits(job, w', g, i)
  {
    hide KeyText, Job.Number, Entered, CountFits, ReadingFits, ResultFits;
    assert ValueFits(job, w, g, i);
    TeamBounds(job, g);
    var at := w.workers[p].next;
    TeamBounds(job, at);
    var r, q := Find(job.TeamOf(at).members, p), job.TeamOf(g).members[i];
    if 1 < |job.TeamOf(g).members| && job.Puts(g, i) {
      if KeyText(job.KeyOf(g, i)) == KeyText(job.KeyOf(at, r)) { CallKeysApart(job, g, i, at, r); }
      if q == p && g == at {
        FindAt(job.TeamOf(at).members, i);
        JustEntered(job, w, w', p);
      } else {
        EnteredSame(job, w, w', p, q, g);
      }
    }
  }

  lemma JustEntered(job: Job, w: World, w': World, p: nat)
    requires job.Valid() && Shaped(job, w) && Moved(job, w, w', p) && Enters(job, w, w', p)
    ensures Entered(w', p, w.workers[p].next) && !Entered(w, p, w.workers[p].next)
  {}

  // ---- what the moving process has ----

  lemma NextNumber(job: Job, context: nat, g: nat)
    requires g < |job.schedule|
    ensures job.Number(context, g + 1) == job.Number(context, g) + (if job.schedule[g].context == context then 1 else 0)
  {}

  /// The moving process, when its results so far stay and the call it may have finished is done right.
  lemma MoverResults(job: Job, w: World, w': World, p: nat)
    requires job.Valid() && Good(job, w) && Moved(job, w, w', p) && w.workers[p].next < |job.schedule|
    requires w'.workers[p].next <= w.workers[p].next + 1
    requires forall g :: g in w.workers[p].results && g != w.workers[p].next ==>
      g in w'.workers[p].results && w'.workers[p].results[g] == w.workers[p].results[g]
    requires ResultFits(job, w', p, w.workers[p].next)
    ensures forall g: nat :: g < |job.schedule| ==> ResultFits(job, w', p, g)
  {
    hide KeyText, Job.Number, ValueFits, Entered, CountFits, ReadingFits, ResultFits;
    forall g: nat | g < |job.schedule| ensures ResultFits(job, w', p, g) {
      if g < w.workers[p].next { ResultKept(job, w, w', p, p, g); }
      else if g > w.workers[p].next { LaterResult(job, w', p, g); }
    }
  }

  lemma LaterResult(job: Job, w: World, p: nat, g: nat)
    requires job.Valid() && Shaped(job, w) && p < job.size && g < |job.schedule| && w.workers[p].next <= g
    ensures ResultFits(job, w, p, g)
  {}

  lemma Together(job: Job, w: World, w': World, p: nat)
    requires job.Valid() && Good(job, w) && Moved(job, w, w', p) && (Passes(job, w, w', p) || Enters(job, w, w', p))
    requires forall context: nat :: context < |job.teams| ==> CountFits(job, w', p, context)
    requires ReadingFits(job, w', p)
    requires forall g: nat :: g < |job.schedule| ==> ResultFits(job, w', p, g)
    ensures Good(job, w')
  {
    hide KeyText, Job.Number, ValueFits, Entered, CountFits, ReadingFits, ResultFits, Passes, Enters;
    forall q: nat, context: nat | q < job.size && context < |job.teams| ensures CountFits(job, w', q, context) {
      if q != p { OthersKeep(job, w, w', p, q); }
    }
    forall q: nat | q < job.size ensures ReadingFits(job, w', q) {
      if q != p { OthersKeep(job, w, w', p, q); }
    }
    forall q: nat, g: nat | q < job.size && g < |job.schedule| ensures ResultFits(job, w', q, g) {
      if q != p { OthersKeep(job, w, w', p, q); }
    }
    forall g: nat, i: nat | g < |job.schedule| && i < |job.TeamOf(g).members| ensures ValueFits(job, w', g, i) {
      if Passes(job, w, w', p) { PassedValues(job, w, w', p, g, i); } else { EnteredValues(job, w, w', p, g, i); }
    }
  }

  // ---- the kinds of step ----

  /// The call is not p's, or p is alone in it.
  lemma PassKeeps(job: Job, w: World, p: nat)
    requires job.Valid() && Good(job, w) && Can(job, w, p)
    requires !Takes(job, p, w.workers[p].next) || |job.TeamOf(w.workers[p].next).members| == 1
    ensures Good(job, Step(job, w, p))
  {
    hide KeyText, Job.Number, ValueFits, Wanted;
    var w', g := Step(job, w, p), w.workers[p].next;
    assert ReadingFits(job, w, p);
    assert Moved(job, w, w', p) && Passes(job, w, w', p);
    forall context: nat | context < |job.teams| ensures CountFits(job, w', p, context) {
      assert CountFits(job, w, p, context);
      NextNumber(job, context, g);
    }
    if Takes(job, p, g) {
      AloneExpected(job, p, g);
    }
    MoverResults(job, w, w', p);
    Together(job, w, w', p);
  }

  lemma AloneExpected(job: Job, p: nat, g: nat)
    requires job.Valid() && g < |job.schedule| && Takes(job, p, g) && |job.TeamOf(g).members| == 1
    ensures job.Expected(g) == [job.data(p, g)] && job.TeamOf(g).members[0] == p
  {
    assert job.TeamOf(g).members[0] == p;
  }

  lemma CountOfCall(job: Job, w: World, p: nat)
    requires job.Valid() && Good(job, w) && Can(job, w, p)
    requires Takes(job, p, w.workers[p].next) && 1 < |job.TeamOf(w.workers[p].next).members|
    ensures w.workers[p].counts[job.schedule[w.workers[p].next].context]
         == job.NumberOf(w.workers[p].next) + (if w.workers[p].phase.Reading? then 1 else 0)
  {
    hide KeyText, Job.Number, ValueFits, ReadingFits, ResultFits, Wanted;
    assert CountFits(job, w, p, job.schedule[w.workers[p].next].context);
  }

  lemma EnterKeeps(job: Job, w: World, p: nat)
    requires job.Valid() && Good(job, w) && Can(job, w, p)
    requires Takes(job, p, w.workers[p].next) && 1 < |job.TeamOf(w.workers[p].next).members|
      && w.workers[p].phase.Outside?
    ensures Good(job, Step(job, w, p))
  {
    hide KeyText, Job.Number, ValueFits, Wanted;
    var w', g := Step(job, w, p), w.workers[p].next;
    CountOfCall(job, w, p);
    assert Moved(job, w, w', p) && Enters(job, w, w', p);
    forall context: nat | context < |job.teams| ensures CountFits(job, w', p, context) {
      assert CountFits(job, w, p, context);
      NextNumber(job, context, g);
    }
    MoverResults(job, w, w', p);
    Together(job, w, w', p);
  }

  /// What a reading process reads is the value of the rank it waits for, which has entered the call.
  lemma ReadValue(job: Job, w: World, p: nat)
    requires job.Valid() && Good(job, w) && Can(job, w, p) && w.workers[p].phase.Reading?
    ensures Takes(job, p, w.workers[p].next) && 1 < |job.TeamOf(w.workers[p].next).members|
    ensures |w.workers[p].phase.got| < |job.TeamOf(w.workers[p].next).members|
    ensures
      var g := w.workers[p].next;
      var i := if job.schedule[g].kind.Casting? then job.schedule[g].kind.root else |w.workers[p].phase.got|;
      && Wanted(job, w.workers[p]) == job.KeyOf(g, i) && job.Puts(g, i)
      && w.store[KeyText(Wanted(job, w.workers[p]))] == job.data(job.TeamOf(g).members[i], g)
      && job.TeamOf(g).members[i] < job.size && Entered(w, job.TeamOf(g).members[i], g)
  {
    hide KeyText, Job.Number, ResultFits, CountFits;
    assert ReadingFits(job, w, p);
    CountOfCall(job, w, p);
    var g := w.workers[p].next;
    TeamBounds(job, g);
    var i := if job.schedule[g].kind.Casting? then job.schedule[g].kind.root else |w.workers[p].phase.got|;
    assert ValueFits(job, w, g, i);
  }

  lemma ReadKeeps(job: Job, w: World, p: nat)
    requires job.Valid() && Good(job, w) && Can(job, w, p) && w.workers[p].phase.Reading?
    ensures Good(job, Step(job, w, p))
  {
    hide KeyText, Job.Number, ValueFits, Wanted, Entered;
    var w', g := Step(job, w, p), w.workers[p].next;
    assert ReadingFits(job, w, p);
    ReadValue(job, w, p);
    CountOfCall(job, w, p);
    TeamBounds(job, g);
    assert Moved(job, w, w', p) && Passes(job, w, w', p);
    forall context: nat | context < |job.teams| ensures CountFits(job, w', p, context) {
      assert CountFits(job, w, p, context);
      NextNumber(job, context, g);
    }
    ReadOn(job, w, w', p);
    MoverResults(job, w, w', p);
    Together(job, w, w', p);
  }

  /// One more value read.
  lemma ReadOn(job: Job, w: World, w': World, p: nat)
    requires job.Valid() && Good(job, w) && Can(job, w, p) && w.workers[p].phase.Reading? && w' == Step(job, w, p)
    requires Moved(job, w, w', p)
    ensures ReadingFits(job, w', p) && ResultFits(job, w', p, w.workers[p].next)
  {
    hide KeyText, Job.Number, ValueFits, Wanted, Entered, CountFits;
    ReadValue(job, w, p);
    assert ReadingFits(job, w, p);
    var g, got := w.workers[p].next, w.workers[p].phase.got;
    TeamBounds(job, g);
    forall i | 0 <= i < |job.TeamOf(g).members| && Entered(w, job.TeamOf(g).members[i], g)
      ensures Entered(w', job.TeamOf(g).members[i], g)
    {
      EnteredGrows(job, w, w', p, job.TeamOf(g).members[i], g);
    }
    if job.schedule[g].kind.Gathering? {
      var value := w.store[KeyText(Wanted(job, w.workers[p]))];
      assert got + [value] == job.Contributions(g, |got| + 1);
    }
  }

  lemma StepKeepsGood(job: Job, w: World, p: nat)
    requires job.Valid() && Good(job, w) && Can(job, w, p)
    ensures Good(job, Step(job, w, p))
  {
    hide Good, Step, Can, KeyText;
    GoodIsShaped(job, w);
    CanBounds(job, w, p);
    if !Takes(job, p, w.workers[p].next) || |job.TeamOf(w.workers[p].next).members| == 1 {
      PassKeeps(job, w, p);
    } else {
      TeamNotEmpty(job, p, w.workers[p].next);
      if w.workers[p].phase.Outside? { EnterKeeps(job, w, p); } else { ReadKeeps(job, w, p); }
    }
  }

  lemma CanBounds(job: Job, w: World, p: nat)
    requires job.Valid() && Good(job, w) && Can(job, w, p)
    ensures p < job.size && w.workers[p].next < |job.schedule|
  {
    hide Wanted, KeyText;
  }

  lemma TeamNotEmpty(job: Job, p: nat, g: nat)
    requires job.Valid() && g < |job.schedule| && Takes(job, p, g)
    ensures |job.TeamOf(g).members| > 0
  {}

  // ---- runs ----

  /// Whether the processes can take these steps, one after another, and where they lead.
  ghost predicate Possible(job: Job, run: seq<nat>)
    requires job.Valid()
    decreases |run|, 0
  {
    run == [] || (Possible(job, run[..|run| - 1]) && Can(job, After(job, run[..|run| - 1]), run[|run| - 1]))
  }

  ghost function After(job: Job, run: seq<nat>): (w: World)
    requires job.Valid() && Possible(job, run)
    ensures Shaped(job, w)
    decreases |run|, 1
  {
    if run == [] then Start(job) else Step(job, After(job, run[..|run| - 1]), run[|run| - 1])
  }

  lemma StartGood(job: Job)
    requires job.Valid()
    ensures Good(job, Start(job))
  {
    hide KeyText;
    var w := Start(job);
    forall p: nat, context: nat | p < job.size && context < |job.teams| ensures CountFits(job, w, p, context) {}
    forall g: nat, i: nat | g < |job.schedule| && i < |job.TeamOf(g).members|
      ensures ValueFits(job, w, g, i)
    {
      TeamBounds(job, g);
    }
  }

  /// The state invariant holds after every run.
  lemma {:induction false} RunsKeepGood(job: Job, run: seq<nat>)
    requires job.Valid() && Possible(job, run)
    ensures Good(job, After(job, run))
  {
    hide Good, Step, Can;
    if run == [] {
      StartGood(job);
    } else {
      RunsKeepGood(job, run[..|run| - 1]);
      StepKeepsGood(job, After(job, run[..|run| - 1]), run[|run| - 1]);
    }
  }

  // ---- no deadlock ----

  ghost predicate Done(job: Job, w: World)
    requires Shaped(job, w)
  {
    forall p :: 0 <= p < job.size ==> w.workers[p].next == |job.schedule|
  }

  /// A process furthest behind.
  lemma {:induction false} Furthest(job: Job, w: World, n: nat) returns (p: nat)
    requires Shaped(job, w) && 0 < n <= job.size
    ensures p < n && forall q :: 0 <= q < n ==> w.workers[p].next <= w.workers[q].next
  {
    p := 0;
    if n > 1 {
      var q := Furthest(job, w, n - 1);
      p := if w.workers[n - 1].next < w.workers[q].next then n - 1 else q;
    }
  }

  /// Unless all are done, some process can go on: the processes never wait for each other for good.
  lemma NeverDeadlocked(job: Job, run: seq<nat>) returns (p: nat)
    requires job.Valid() && Possible(job, run) && !Done(job, After(job, run))
    ensures Can(job, After(job, run), p)
  {
    hide Step, KeyText, After, Possible, Good;
    RunsKeepGood(job, run);
    p := SomeoneCan(job, After(job, run));
  }

  lemma SomeoneCan(job: Job, w: World) returns (p: nat)
    requires job.Valid() && Good(job, w) && !Done(job, w)
    ensures Can(job, w, p)
  {
    hide KeyText, Job.Number, CountFits, ResultFits, Entered, Wanted;
    p := Furthest(job, w, job.size);
    var g := w.workers[p].next;
    if w.workers[p].phase.Reading? {
      assert ReadingFits(job, w, p);
      WantedKey(job, w, p);
      TeamBounds(job, g);
      var i := if job.schedule[g].kind.Casting? then job.schedule[g].kind.root else |w.workers[p].phase.got|;
      assert ValueFits(job, w, g, i);
      var q := job.TeamOf(g).members[i];
      if !Entered(w, q, g) {
        OutsideHere(w, q, g);
        p := q;
      }
    }
  }

  lemma OutsideHere(w: World, q: nat, g: nat)
    requires q < |w.workers| && g <= w.workers[q].next && !Entered(w, q, g)
    ensures w.workers[q].next == g && w.workers[q].phase.Outside?
  {}

  lemma WantedKey(job: Job, w: World, p: nat)
    requires job.Valid() && Good(job, w) && p < job.size && w.workers[p].next < |job.schedule|
      && w.workers[p].phase.Reading?
    ensures
      var g := w.workers[p].next;
      var i := if job.schedule[g].kind.Casting? then job.schedule[g].kind.root else |w.workers[p].phase.got|;
      Wanted(job, w.workers[p]) == job.KeyOf(g, i) && job.Puts(g, i)
  {
    hide KeyText, Job.Number, ResultFits, ValueFits, Entered;
    assert ReadingFits(job, w, p);
    assert CountFits(job, w, p, job.schedule[w.workers[p].next].context);
  }

  // ---- every run ends ----

  /// Steps that call g can cost one process.
  function Cost(job: Job, g: nat): nat
    requires g < |job.schedule| && job.schedule[g].context < |job.teams|
  {
    |job.TeamOf(g).members| + 2
  }

  ghost function Ahead(job: Job, g: nat): nat
    requires job.Valid() && g <= |job.schedule|
    decreases |job.schedule| - g
  {
    if g == |job.schedule| then 0 else Cost(job, g) + Ahead(job, g + 1)
  }

  ghost function Left(job: Job, w: World, p: nat): int
    requires job.Valid() && Shaped(job, w) && p < job.size
  {
    Ahead(job, w.workers[p].next) - if w.workers[p].phase.Reading? then 1 + |w.workers[p].phase.got| else 0
  }

  ghost function Work(job: Job, w: World, n: nat): int
    requires job.Valid() && Shaped(job, w) && n <= job.size
  {
    if n == 0 then 0 else Work(job, w, n - 1) + Left(job, w, n - 1)
  }

  lemma StepCosts(job: Job, w: World, p: nat)
    requires job.Valid() && Good(job, w) && Can(job, w, p) && Shaped(job, Step(job, w, p))
    ensures Left(job, Step(job, w, p), p) < Left(job, w, p)
    ensures forall q :: 0 <= q < job.size && q != p ==> Left(job, Step(job, w, p), q) == Left(job, w, q)
  {
    hide KeyText, Wanted, Job.Number, ValueFits, CountFits, ResultFits;
    assert ReadingFits(job, w, p);
  }

  lemma {:induction false} WorkDrops(job: Job, w: World, w': World, p: nat, n: nat)
    requires job.Valid() && Shaped(job, w) && Shaped(job, w') && p < job.size && n <= job.size
    requires Left(job, w', p) < Left(job, w, p)
    requires forall q :: 0 <= q < job.size && q != p ==> Left(job, w', q) == Left(job, w, q)
    ensures Work(job, w', n) <= Work(job, w, n) && (p < n ==> Work(job, w', n) < Work(job, w, n))
  {
    hide Left;
    if n > 0 { WorkDrops(job, w, w', p, n - 1); }
  }

  lemma {:induction false} WorkIsLeft(job: Job, w: World, n: nat)
    requires job.Valid() && Good(job, w) && n <= job.size
    ensures Work(job, w, n) >= 0
  {
    hide KeyText, Job.Number, ValueFits, CountFits, ResultFits;
    if n > 0 {
      WorkIsLeft(job, w, n - 1);
      assert ReadingFits(job, w, n - 1);
    }
  }

  /// No run is longer than the work there was at the start.
  lemma {:induction false} RunsEnd(job: Job, run: seq<nat>)
    requires job.Valid() && Possible(job, run)
    ensures Good(job, After(job, run)) && Shaped(job, Start(job))
    ensures |run| + Work(job, After(job, run), job.size) <= Work(job, Start(job), job.size)
    ensures |run| <= Work(job, Start(job), job.size)
  {
    hide Step, Can, Work, Left;
    RunsKeepGood(job, run);
    StartGood(job);
    WorkIsLeft(job, After(job, run), job.size);
    if run != [] {
      var before := run[..|run| - 1];
      RunsEnd(job, before);
      StepKeepsGood(job, After(job, before), run[|run| - 1]);
      StepCosts(job, After(job, before), run[|run| - 1]);
      CanBounds(job, After(job, before), run[|run| - 1]);
      WorkDrops(job, After(job, before), After(job, run), run[|run| - 1], job.size);
    }
  }

  // ---- what the calls return ----

  /// A process past a call has its result: every rank's value of that call, in
  /// rank order, or the root's value.
  lemma CallsReturn(job: Job, run: seq<nat>, p: nat, g: nat)
    requires job.Valid() && Possible(job, run)
    requires p < job.size && g < |job.schedule| && Takes(job, p, g) && g < After(job, run).workers[p].next
    ensures g in After(job, run).workers[p].results && After(job, run).workers[p].results[g] == job.Expected(g)
  {
    hide KeyText, ValueFits, CountFits, ReadingFits, Possible, After;
    RunsKeepGood(job, run);
    assert ResultFits(job, After(job, run), p, g);
  }

  /// No process leaves an all_gather, and so no barrier, before all members have entered it.
  lemma NoneLeavesEarly(job: Job, run: seq<nat>, p: nat, q: nat, g: nat)
    requires job.Valid() && Possible(job, run)
    requires p < job.size && g < |job.schedule| && Takes(job, p, g) && job.schedule[g].kind.Gathering?
    requires g < After(job, run).workers[p].next && q in job.TeamOf(g).members
    ensures q < job.size && Entered(After(job, run), q, g)
  {
    hide KeyText, ValueFits, CountFits, ReadingFits, Possible, After;
    RunsKeepGood(job, run);
    assert ResultFits(job, After(job, run), p, g);
    TeamBounds(job, g);
    var i :| 0 <= i < |job.TeamOf(g).members| && job.TeamOf(g).members[i] == q;
  }

  /// When no process can go on, every call of every process has returned.
  lemma StuckMeansDone(job: Job, run: seq<nat>)
    requires job.Valid() && Possible(job, run)
    requires forall p :: !Can(job, After(job, run), p)
    ensures Done(job, After(job, run))
  {
    hide Can, Good, After, Possible, Done;
    if !Done(job, After(job, run)) {
      var p := NeverDeadlocked(job, run);
    }
  }

  lemma GoodIsShaped(job: Job, w: World)
    requires job.Valid() && Good(job, w)
    ensures Shaped(job, w)
  {}
}
