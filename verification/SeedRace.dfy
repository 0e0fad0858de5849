// The parallel seed race of build_with_profile as a step system: workers interleave freely, the shared
// cancel flag is read with relaxed ordering (a load may always still see false), and find_map_any
// returns some worker's find, or nothing when every worker came back empty (src/perfect/chd.rs).
module SeedRace {
  import opened Wrappers
  import opened Hashing
  import opened Placement
  import opened ChdAttempt
  import opened ChdBuild

  datatype Race = Race(family: HashFamily, sort: seq<nat> -> seq<nat>, hashes: seq<u64>, m: pos) {
    ghost predicate Valid() {
      family.Ranged() && SortsBySize(sort) && 0 < |hashes| <= m < 0x1_0000_0000
    }

    function Attempt(t: nat): (a: Attempt)
      requires Valid()
      ensures a.Valid()
    {
      AttemptFor(family, hashes, m, t)
    }

    function Order(t: nat): (order: seq<nat>)
      requires Valid()
      ensures |order| == BucketCount(|hashes|) == Attempt(t).r
      ensures ListsBuckets(Attempt(t), order)
    {
      OrderListsBuckets(Attempt(t), sort);
      assert SortedBySize(BucketSizes(Attempt(t)), sort(BucketSizes(Attempt(t))));
      OrderOf(Attempt(t), sort)
    }

    ghost function Alone(t: nat): Option<seq<nat>>
      requires Valid()
    {
      SeedOutcome(family, sort, hashes, m, t)
    }
  }

  datatype Worker =
    | Waiting
    | Running(p: Progress)
    | Built(disp: seq<u32>)       // has a placement, flag not yet raised
    | Announced(disp: seq<u32>)   // flag raised, closure not yet returned
    | Found(disp: seq<u32>)       // the closure returned Some
    | Empty                       // the closure returned None
    | Skipped                     // never called: rayon had already seen a find

  datatype State = State(workers: seq<Worker>, cancelled: bool)

  function Phf(race: Race, t: nat, disp: seq<u32>): ChdPhf
    requires race.Valid()
  {
    ChdPhf((SEED_BASE + t) % WORD, disp, race.m)
  }

  ghost predicate Init(s: State) {
    |s.workers| == MAX_SEED_RETRIES && !s.cancelled && forall t :: 0 <= t < |s.workers| ==> s.workers[t] == Waiting
  }

  ghost predicate SomeFound(s: State) {
    exists t :: 0 <= t < |s.workers| && s.workers[t].Found?
  }

  ghost predicate InFlight(race: Race, t: nat, p: Progress)
    requires race.Valid()
  {
    Fitting(race.Attempt(t), race.Order(t), p)
  }

  // The flag is polled before trying a displacement divisible by 64.
  predicate Polls(race: Race, t: nat, p: Progress)
    requires race.Valid() && p.k < |race.Order(t)|
  {
    race.Attempt(t).Keys(race.Order(t)[p.k]) != [] && p.d <= MAX_DISPLACEMENT && p.d % 64 == 0
  }

  // A worker looks at the flag when it comes to a bucket that holds keys, and again within any 64 displacements.
  lemma {:induction false} PollsOften(race: Race, t: nat, p: Progress) returns (i: nat)
    requires race.Valid() && p.k < |race.Order(t)| && race.Attempt(t).Keys(race.Order(t)[p.k]) != []
    requires p.d + 63 <= 0x100_0000
    ensures i < 64 && Polls(race, t, p.(d := p.d + i))
    ensures p.d == 0 ==> i == 0
  {
    i := (64 - p.d % 64) % 64;
  }

  // Worker t moves from w to w' while the flag reads cancelled; only Built -> Announced raises it.
  ghost predicate Moves(race: Race, s: State, t: nat, w: Worker, w': Worker)
    requires race.Valid()
  {
    match w
    case Waiting =>
      || (w' == Empty && s.cancelled)
      || (w' == Running(Start(race.Attempt(t).r)))
      || (w' == Skipped && SomeFound(s))
    case Running(p) =>
      InFlight(race, t, p) &&
      if p.k == |race.Order(t)| then w' == Built(p.disp)
      else
        || (w' == Empty && Polls(race, t, p) && s.cancelled)
        || (if GivesUp(race.Attempt(t), race.Order(t), p) then w' == Empty
            else w' == Running(Advance(race.Attempt(t), race.Order(t), p)))
    case Built(disp) => w' == Announced(disp)
    case Announced(disp) => w' == Found(disp)
    case _ => false
  }

  ghost predicate Step(race: Race, s: State, s': State, t: nat)
    requires race.Valid()
  {
    && t < |s.workers| == |s'.workers|
    && Moves(race, s, t, s.workers[t], s'.workers[t])
    && s'.workers == s.workers[t := s'.workers[t]]
    && s'.cancelled == (s.cancelled || s.workers[t].Built?)
  }

  ghost predicate Next(race: Race, s: State, s': State)
    requires race.Valid()
  {
    exists t: nat :: Step(race, s, s', t)
  }

  // Every closure has returned or was never called.
  ghost predicate Done(s: State) {
    forall t :: 0 <= t < |s.workers| ==> s.workers[t].Found? || s.workers[t].Empty? || s.workers[t].Skipped?
  }

  // ---- safety ----

  ghost predicate WorkerInv(race: Race, s: State, t: nat, w: Worker)
    requires race.Valid()
  {
    match w
    case Waiting => true
    case Running(p) => InFlight(race, t, p) && Finish(race.Attempt(t), race.Order(t), p) == race.Alone(t)
    case Built(disp) => race.Alone(t) == Some(disp)
    case Announced(disp) => race.Alone(t) == Some(disp)
    case Found(disp) => race.Alone(t) == Some(disp)
    case Empty => race.Alone(t).None? || s.cancelled
    case Skipped => s.cancelled
  }

  ghost predicate Inv(race: Race, s: State)
    requires race.Valid()
  {
    && |s.workers| == MAX_SEED_RETRIES
    && (forall t :: 0 <= t < |s.workers| ==> WorkerInv(race, s, t, s.workers[t]))
    && (s.cancelled <==> exists t :: 0 <= t < |s.workers| && (s.workers[t].Announced? || s.workers[t].Found?))
  }

  lemma {:induction false} InitInv(race: Race, s: State)
    requires race.Valid() && Init(s)
    ensures Inv(race, s)
  {
  }

  lemma {:induction false} MoveInv(race: Race, s: State, s': State, t: nat)
    requires race.Valid() && Inv(race, s) && Step(race, s, s', t)
    ensures WorkerInv(race, s', t, s'.workers[t])
  {
    assert WorkerInv(race, s, t, s.workers[t]);
    match s.workers[t] {
      case Waiting =>
        assert race.Alone(t) == Finish(race.Attempt(t), race.Order(t), Start(race.Attempt(t).r));
      case Running(p) =>
      case _ =>
    }
  }

  lemma {:induction false} StepInv(race: Race, s: State, s': State, t: nat)
    requires race.Valid() && Inv(race, s) && Step(race, s, s', t)
    ensures Inv(race, s')
  {
    MoveInv(race, s, s', t);
    forall u | 0 <= u < |s'.workers| ensures WorkerInv(race, s', u, s'.workers[u]) {
      if u != t { assert WorkerInv(race, s, u, s.workers[u]); }
    }
    if s.cancelled {
      var u :| 0 <= u < |s.workers| && (s.workers[u].Announced? || s.workers[u].Found?);
      assert s'.workers[u].Announced? || s'.workers[u].Found?;
    } else if s.workers[t].Built? {
      assert s'.workers[t].Announced?;
    }
  }

  // A run: any interleaving of steps from the start.
  ghost predicate Run(race: Race, run: seq<State>)
    requires race.Valid()
  {
    && run != [] && Init(run[0])
    && forall i :: 0 <= i < |run| - 1 ==> Next(race, run[i], run[i + 1])
  }

  lemma {:induction false} RunInv(race: Race, run: seq<State>, i: nat)
    requires race.Valid() && Run(race, run) && i < |run|
    ensures Inv(race, run[i])
  {
    if i == 0 {
      InitInv(race, run[0]);
    } else {
      RunInv(race, run, i - 1);
      assert Next(race, run[i - 1], run[i - 1 + 1]);
      var t: nat :| Step(race, run[i - 1], run[i], t);
      StepInv(race, run[i - 1], run[i], t);
    }
  }

  // In every interleaving the flag is up only if some seed works alone, and whatever
  // a worker finds is the perfect hash function its seed builds alone.
  lemma {:induction false} RaceIsSafe(race: Race, run: seq<State>, i: nat)
    requires race.Valid() && Run(race, run) && i < |run|
    ensures run[i].cancelled ==> exists t :: 0 <= t < MAX_SEED_RETRIES && race.Alone(t).Some?
    ensures |run[i].workers| == MAX_SEED_RETRIES
    ensures forall t :: 0 <= t < MAX_SEED_RETRIES && run[i].workers[t].Found? ==>
      race.Alone(t) == Some(run[i].workers[t].disp)
  {
    RunInv(race, run, i);
    var s := run[i];
    if s.cancelled {
      var t :| 0 <= t < |s.workers| && (s.workers[t].Announced? || s.workers[t].Found?);
      assert WorkerInv(race, s, t, s.workers[t]);
    }
    forall t | 0 <= t < MAX_SEED_RETRIES && s.workers[t].Found? ensures race.Alone(t) == Some(s.workers[t].disp) {
      assert WorkerInv(race, s, t, s.workers[t]);
    }
  }

  // When the race is over it has a find exactly when some seed works alone.
  lemma {:induction false} RaceAgreesWithSeeds(race: Race, run: seq<State>)
    requires race.Valid() && Run(race, run) && Done(run[|run| - 1])
    ensures SomeFound(run[|run| - 1]) <==> exists t :: 0 <= t < MAX_SEED_RETRIES && race.Alone(t).Some?
  {
    var s := run[|run| - 1];
    RunInv(race, run, |run| - 1);
    RaceIsSafe(race, run, |run| - 1);
    if t :| 0 <= t < MAX_SEED_RETRIES && race.Alone(t).Some? {
      assert WorkerInv(race, s, t, s.workers[t]);
      if s.cancelled {
        var u :| 0 <= u < |s.workers| && (s.workers[u].Announced? || s.workers[u].Found?);
        assert s.workers[u].Found?;
      }
    }
  }

  // What the build returns once every worker is done: some find, or Exhausted.
  ghost predicate Returns(race: Race, s: State, r: Result<ChdPhf, BuildError>)
    requires race.Valid()
  {
    if SomeFound(s) then
      exists t :: 0 <= t < |s.workers| && s.workers[t].Found?
        && r == Ok(Phf(race, t, s.workers[t].disp))
    else r == Err(Exhausted)
  }

  // The parallel build succeeds exactly when some seed works alone, which is when the sequential
  // build does; and then, whichever worker won, it returns a perfect hash function.
  lemma {:induction false} ParallelBuild(race: Race, run: seq<State>, r: Result<ChdPhf, BuildError>)
    requires race.Valid() && Run(race, run) && Done(run[|run| - 1])
    requires Returns(race, run[|run| - 1], r)
    ensures r.Ok? <==> exists t :: 0 <= t < MAX_SEED_RETRIES && race.Alone(t).Some?
    ensures r.Ok? ==> IsPerfect(race.family, r.value, race.hashes) && r.value.m == race.m
    ensures r.Err? ==> r.error == Exhausted
  {
    var s := run[|run| - 1];
    RaceAgreesWithSeeds(race, run);
    if SomeFound(s) {
      var t :| 0 <= t < |s.workers| && s.workers[t].Found?
            && r == Ok(Phf(race, t, s.workers[t].disp));
      RaceIsSafe(race, run, |run| - 1);
      OutcomeIsPerfect(race.family, race.sort, race.hashes, race.m, t, r.value.displacements);
    }
  }

  // ---- termination ----

  // Steps a worker has left, at most.
  ghost function Left(race: Race, w: Worker): nat
    requires race.Valid()
  {
    var r := BucketCount(|race.hashes|);
    match w
    case Waiting => (r + 1) * (MAX_DISPLACEMENT + 2) + 4
    case Running(p) =>
      if p.k <= r && p.d <= MAX_DISPLACEMENT + 1 then
        (r - p.k) * (MAX_DISPLACEMENT + 2) + (MAX_DISPLACEMENT + 1 - p.d) + 3
      else 0
    case Built(_) => 2
    case Announced(_) => 1
    case _ => 0
  }

  ghost function Total(race: Race, workers: seq<Worker>): nat
    requires race.Valid()
  {
    if workers == [] then 0 else Left(race, workers[0]) + Total(race, workers[1..])
  }

  lemma {:induction false} TotalUpdate(race: Race, workers: seq<Worker>, t: nat, w: Worker)
    requires race.Valid() && t < |workers|
    ensures Total(race, workers[t := w]) == Total(race, workers) - Left(race, workers[t]) + Left(race, w)
  {
    if t > 0 {
      TotalUpdate(race, workers[1..], t - 1, w);
      assert workers[t := w][1..] == workers[1..][t - 1 := w];
    } else {
      assert workers[t := w][1..] == workers[1..];
    }
  }

  lemma {:induction false} NextBucket(r: nat, k: nat)
    requires k < r
    ensures (r - k) * (MAX_DISPLACEMENT + 2) == (r - (k + 1)) * (MAX_DISPLACEMENT + 2) + MAX_DISPLACEMENT + 2
  {
  }

  lemma {:induction false} MoveShrinks(race: Race, s: State, t: nat, w: Worker, w': Worker)
    requires race.Valid() && Moves(race, s, t, w, w')
    ensures Left(race, w') < Left(race, w)
  {
    if w.Running? && w.p.k < |race.Order(t)| {
      NextBucket(|race.Order(t)|, w.p.k);
    } else if w.Waiting? {
      NextBucket(BucketCount(|race.hashes|) + 1, 0);
    }
  }

  // No interleaving runs for ever: this bounds the length of every run.
  lemma {:induction false} RunsAreBounded(race: Race, run: seq<State>, i: nat)
    requires race.Valid() && Run(race, run) && i < |run|
    ensures i + Total(race, run[i].workers) <= Total(race, run[0].workers)
  {
    if i > 0 {
      RunsAreBounded(race, run, i - 1);
      assert Next(race, run[i - 1], run[i - 1 + 1]);
      var s, s' := run[i - 1], run[i];
      var t: nat :| Step(race, s, s', t);
      MoveShrinks(race, s, t, s.workers[t], s'.workers[t]);
      TotalUpdate(race, s.workers, t, s'.workers[t]);
    }
  }

  // And none gets stuck: until every worker is done, some worker can move.
  lemma {:induction false} RaceProgresses(race: Race, run: seq<State>)
    requires race.Valid() && Run(race, run) && !Done(run[|run| - 1])
    ensures var s := run[|run| - 1]; exists s' :: Next(race, s, s')
  {
    var s := run[|run| - 1];
    RunInv(race, run, |run| - 1);
    var t :| 0 <= t < |s.workers| && !(s.workers[t].Found? || s.workers[t].Empty? || s.workers[t].Skipped?);
    assert WorkerInv(race, s, t, s.workers[t]);
    var w' :=
      match s.workers[t]
      case Waiting => Running(Start(race.Attempt(t).r))
      case Running(p) =>
        if p.k == |race.Order(t)| then Built(p.disp)
        else if GivesUp(race.Attempt(t), race.Order(t), p) then Empty
        else Running(Advance(race.Attempt(t), race.Order(t), p))
      case Built(disp) => Announced(disp)
      case Announced(disp) => Found(disp)
      case _ => Empty;
    var s' := State(s.workers[t := w'], s.cancelled || s.workers[t].Built?);
    assert Moves(race, s, t, s.workers[t], w');
    assert Step(race, s, s', t);
    assert Next(race, s, s');
  }
}
