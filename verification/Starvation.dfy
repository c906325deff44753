// The limits of the starvation bound: it is tight, and it needs that no root completes and none fails. Each limit
// is a family of concrete roots, with what every chain of runs over them does, and the runs themselves.

module Starvation {
  import opened Wrappers
  import opened Saturating
  import opened Inventory
  import opened Measuring
  import opened Scheduler

  // ---- the bound is tight ----

  /** Attempts after k resumed runs that attempt roots 0, 1, .., n - 1 and then n - 1, .., 1 again, one a run. */
  function Rotation(n: nat, k: nat): (a: seq<nat>)
    ensures |a| == n
  {
    seq(n, i => (if k >= i + 1 then 1 else 0) + (if i >= 1 && k + i >= 2 * n then 1 else 0))
  }

  /** The root that run k measures. */
  function Turn(n: nat, k: nat): nat
    requires k < 2 * n
  {
    if k == 0 then 0 else if k <= n then k - 1 else 2 * n - k
  }

  /** Roots of two entries each, told apart by their allocated bytes; none completes with a budget of one. */
  function SlowReport(i: nat, b: nat): Outcome {
    Report(Min(b, 2), b >= 2, false, true, 0, i)
  }

  function SlowRun(): Run {
    Run((i: nat, b: nat) => SlowReport(i, b), 1, 1)
  }

  function Places(n: nat): seq<Option<nat>> {
    seq(n, i => Some(i))
  }

  /** The manifest after run k. */
  predicate Stage(ms: seq<Measurement>, n: nat, k: nat) {
    && |ms| == n
    && forall i | 0 <= i < n ::
         && ms[i].attempts == Rotation(n, k)[i] && (ms[i].identified <==> i == 0 || k >= i + 1) && !ms[i].complete
         && (ms[i].identified ==> ms[i].privateBytes == 0 && ms[i].allocatedBytes == i)
  }

  /** What a run with a single entry to spend starts from and leaves. */
  ghost predicate SpentOn(job: Job, next: seq<Measurement>, first: nat) {
    && |next| == |job.ms|
    && forall i | 0 <= i < |next| ::
         next[i] == if i == first then Measured(job.ms[i], SlowReport(i, 1), job.prefer) else Fail(job.ms[i])
  }

  lemma TwoInSum(s: seq<nat>, l: nat)
    requires 0 < l < |s|
    ensures Sum(s) >= s[0] + s[l]
  {
    hide Sum;
    NoSum();
    assert s[..1] == [] + [s[0]] && s[..l + 1] == s[..l] + [s[l]] && s[..|s|] == s;
    SumMore([], s[0]);
    SumMore(s[..l], s[l]);
    SumsGrow(s, 1, l);
    SumsGrow(s, l + 1, |s|);
  }

  /** With one entry in all, only the first target gets a budget. */
  lemma OnlyFirst(job: Job, next: seq<Measurement>, order: seq<nat>, budgets: seq<nat>, visits: seq<nat>)
    requires RanAs(job, SlowRun().inventory, next, order, budgets, visits)
    requires job.maxEntries == job.perRoot == 1 && order != []
    ensures |budgets| == |order| && budgets[0] == 1 && forall l | 0 < l < |order| :: budgets[l] == 0
  {
    hide Targets, TargetDone, FrontBudgets, FairBudgets, OfferedBudgets, Sum, Job.InOrder;
    var inventory := SlowRun().inventory;
    forall l | 0 <= l < |order| ensures budgets[l] <= 1 && visits[l] == budgets[l] {
      assert Visited(job, inventory, order[l], budgets[l], visits[l]);
      assert inventory(order[l], budgets[l]) == SlowReport(order[l], budgets[l]);
    }
    forall l | 0 < l < |order| ensures budgets[l] == 0 {
      TwoInSum(visits, l);
    }
  }

  /** A root ahead of every other one is the first in order. */
  lemma FirstInOrder(job: Job, order: seq<nat>, first: nat)
    requires job.Valid() && order == Targets(job, |job.ms|) && job.Leads(first)
    requires forall j | 0 <= j < |job.ms| && job.Leads(j) && j != first :: job.Ahead(first, j)
    ensures order != [] && order[0] == first
  {
    hide Targets, Job.Ahead;
    assert first in Targets(job, |job.ms|);
    var k :| 0 <= k < |order| && order[k] == first;
    if k > 0 {
      assert job.InOrder(order) && job.Ahead(order[0], order[k]);
      OrderIsDistinct(job, order);
      AheadIsAnOrder(job, first, order[0], first);
    }
  }

  lemma OneEntry(job: Job, next: seq<Measurement>, order: seq<nat>, budgets: seq<nat>, visits: seq<nat>, first: nat)
    requires RanAs(job, SlowRun().inventory, next, order, budgets, visits)
    requires job.maxEntries == job.perRoot == 1 && DistinctRoots(job.places) && AllIncomplete(job.ms)
    requires first < |job.ms| && forall j | 0 <= j < |job.ms| && j != first :: AheadAt(job, first, j)
    ensures SpentOn(job, next, first) && NoneCompletes(SlowRun().inventory, order, budgets)
  {
    hide RanAs, DistinctRoots, Measured, Fail, IsComplete, Targets, AheadAt;
    RanShape(job, SlowRun().inventory, next, order, budgets, visits);
    DistinctTargets(job, first, first);
    forall j | 0 <= j < |job.ms| && job.Leads(j) && j != first ensures job.Ahead(first, j) {
      assert AheadAt(job, first, j);
      AheadThere(job, first, j);
    }
    FirstInOrder(job, order, first);
    OnlyFirst(job, next, order, budgets, visits);
    OrderIsDistinct(job, order);
    var leader := PlaceOf(job, SlowRun().inventory, next, order, budgets, visits, first);
    forall i | 0 <= i < |job.ms|
      ensures next[i] == if i == first then Measured(job.ms[i], SlowReport(i, 1), job.prefer) else Fail(job.ms[i])
    {
      var k := PlaceOf(job, SlowRun().inventory, next, order, budgets, visits, i);
      assert k == 0 <==> i == first;
    }
  }

  predicate AheadAt(job: Job, i: nat, j: nat) {
    job.Valid() && job.Wanted(i) && job.Wanted(j) && job.Ahead(i, j)
  }

  lemma AheadThere(job: Job, i: nat, j: nat)
    requires AheadAt(job, i, j) && job.Valid() && job.Wanted(i) && job.Wanted(j)
    ensures job.Ahead(i, j)
  {
  }

  lemma RanShape(job: Job, inventory: Inventorier, next: seq<Measurement>, order: seq<nat>, budgets: seq<nat>,
      visits: seq<nat>)
    requires RanAs(job, inventory, next, order, budgets, visits)
    ensures job.Valid() && order == Targets(job, |job.ms|) && job.InOrder(order)
  {
    hide Targets, PassUpTo, FrontBudgets, FairBudgets, OfferedBudgets;
  }

  /** The job of run k, and why its turn comes first. */
  lemma StageJob(ms: seq<Measurement>, n: nat, k: nat)
    requires 0 < n <= U64_MAX && 0 < k < 2 * n && Stage(ms, n, k - 1)
    ensures var job := JobOf(Some(ms), Places(n), 1, 1);
            && job.prefer && AllIncomplete(job.ms) && DistinctRoots(job.places) && job.maxEntries == job.perRoot == 1
            && (forall i | 0 <= i < n :: job.ms[i] == Carried(Some(ms[i]), true))
            && (forall j | 0 <= j < n && j != Turn(n, k) :: AheadAt(job, Turn(n, k), j))
  {
    var job := JobOf(Some(ms), Places(n), 1, 1);
    assert 0 in CarriedIndices(Priors(n, Some(ms)), seq(n, _ => true)) by {
      assert Carries(Some(ms[0]), true);
    }
    forall j | 0 <= j < n && j != Turn(n, k) ensures AheadAt(job, Turn(n, k), j) {
      TurnIsAhead(ms, job, n, k, j);
    }
  }

  lemma TurnIsAhead(ms: seq<Measurement>, job: Job, n: nat, k: nat, j: nat)
    requires 0 < n && 0 < k < 2 * n && Stage(ms, n, k - 1) && j < n && j != Turn(n, k)
    requires job.Valid() && |job.ms| == n && job.places == Places(n) && job.prefer
    requires forall i | 0 <= i < n :: job.ms[i] == Carried(Some(ms[i]), true)
    ensures AheadAt(job, Turn(n, k), j)
  {
    var t := Turn(n, k);
    assert t < n;
    assert job.ms[t] == Carried(Some(ms[t]), true) && job.ms[j] == Carried(Some(ms[j]), true);
  }

  lemma {:induction false} RunsRotate(ms: seq<seq<Measurement>>, n: nat, runs: seq<Run>, k: nat)
    requires 0 < n <= U64_MAX && Chain(ms, Places(n), runs) && (forall j | 0 <= j < |runs| :: runs[j] == SlowRun())
    requires k < |ms| && k < 2 * n
    ensures Stage(ms[k], n, k) && RanOn(Before(ms, k), ms[k], Places(n), runs[k])
  {
    hide RanAs, JobOf, Stage, Places, NoneCompletes;
    if k > 0 { RunsRotate(ms, n, runs, k - 1); }
    assert Ran(Before(ms, k), ms[k], Places(n), runs[k]);
    var job := JobOf(Before(ms, k), Places(n), 1, 1);
    var order, budgets, visits :| RanAs(job, runs[k].inventory, ms[k], order, budgets, visits);
    if k == 0 {
      FirstSlow(n);
    } else {
      StageJob(ms[k - 1], n, k);
    }
    assert |job.ms| == n by { PlacesSize(n); }
    OneEntry(job, ms[k], order, budgets, visits, Turn(n, k));
    if k == 0 {
      StageFirst(job, ms[k], n);
    } else {
      StageNext(ms[k - 1], job, ms[k], n, k);
    }
  }

  lemma PlacesSize(n: nat)
    ensures |Places(n)| == n
  {
  }

  lemma FirstSlow(n: nat)
    requires 0 < n <= U64_MAX
    ensures var job := JobOf(None, Places(n), 1, 1);
            && !job.prefer && AllIncomplete(job.ms) && DistinctRoots(job.places) && job.maxEntries == job.perRoot == 1
            && (forall i | 0 <= i < n :: job.ms[i] == Unmeasured())
            && (forall j | 0 < j < n :: AheadAt(job, 0, j))
  {
  }

  lemma StageFirst(job: Job, next: seq<Measurement>, n: nat)
    requires 0 < n && |job.ms| == n && !job.prefer && (forall i | 0 <= i < n :: job.ms[i] == Unmeasured())
    requires SpentOn(job, next, 0)
    ensures Stage(next, n, 0)
  {
  }

  lemma StageNext(ms: seq<Measurement>, job: Job, next: seq<Measurement>, n: nat, k: nat)
    requires 0 < n && 0 < k < 2 * n && Stage(ms, n, k - 1) && |job.ms| == n && job.prefer
    requires forall i | 0 <= i < n :: job.ms[i] == Carried(Some(ms[i]), true)
    requires SpentOn(job, next, Turn(n, k))
    ensures Stage(next, n, k)
  {
    forall i | 0 <= i < n
      ensures next[i].attempts == Rotation(n, k)[i] && (next[i].identified <==> i == 0 || k >= i + 1)
      ensures !next[i].complete && (next[i].identified ==> next[i].privateBytes == 0 && next[i].allocatedBytes == i)
    {
      assert job.ms[i] == Carried(Some(ms[i]), true);
    }
  }

  /**
   * For any number n of roots, 2n - 2 runs are not enough: in every chain of runs over roots of two entries with a
   * budget of one, nothing completes, and root 0 is passed over in the 2n - 2 runs after the second one.
   */
  lemma BoundIsTight(n: nat, ms: seq<seq<Measurement>>, runs: seq<Run>)
    requires 2 <= n <= U64_MAX && Chain(ms, Places(n), runs) && |ms| == 2 * n
    requires forall j | 0 <= j < |runs| :: runs[j] == SlowRun()
    ensures IncompleteChain(ms, Places(n), runs) && DistinctRoots(Places(n)) && |Places(n)| == n
    ensures |ms[1]| == |ms[1 + (2 * n - 2)]| == n && ms[1][0].attempts == ms[1 + (2 * n - 2)][0].attempts
  {
    hide Chain, RanOn, Ran;
    ChainLength(ms, Places(n), runs);
    forall k | 0 <= k < |ms| ensures RanOn(Before(ms, k), ms[k], Places(n), runs[k]) {
      RunsRotate(ms, n, runs, k);
    }
    RunsRotate(ms, n, runs, 1);
    RunsRotate(ms, n, runs, 2 * n - 1);
  }

  /** Such runs. */
  method TightRuns(n: nat) returns (ms: seq<seq<Measurement>>)
    requires 2 <= n <= U64_MAX
    ensures |ms| == 2 * n && Chain(ms, Places(n), seq(2 * n, _ => SlowRun()))
    ensures IncompleteChain(ms, Places(n), seq(2 * n, _ => SlowRun()))
    ensures |ms[1]| == |ms[2 * n - 1]| == n && ms[1][0].attempts == ms[2 * n - 1][0].attempts
  {
    hide Chain, IncompleteChain, DistinctRoots, Places, SlowRun, RunnableOver;
    var runs := seq(2 * n, _ => SlowRun());
    SlowRunnable(n);
    ms := ResumeRuns(Places(n), runs);
    ChainLength(ms, Places(n), runs);
    BoundIsTight(n, ms, runs);
  }

  lemma SlowRunnable(n: nat)
    requires n <= U64_MAX
    ensures RunnableOver(SlowRun(), Places(n))
  {
  }

  // ---- why nothing may complete ----

  /** Two roots, one of two entries and one of three. */
  function TwoReports(i: nat, b: nat): Outcome {
    var size := if i == 0 then 2 else 3;
    Report(Min(b, size), b >= size, false, true, 0, 0)
  }

  function TwoRoots(): Inventorier {
    (i: nat, b: nat) => TwoReports(i, b)
  }

  function TwoPlaces(): seq<Option<nat>> {
    [Some(0), Some(1)]
  }

  /** The order of two roots is decided by one comparison. */
  lemma TwoTargets(job: Job, order: seq<nat>)
    requires job.Valid() && job.places == TwoPlaces() && AllIncomplete(job.ms) && order == Targets(job, 2)
    ensures job.Wanted(0) && job.Wanted(1) && order == if job.Ahead(0, 1) then [0, 1] else [1, 0]
  {
    hide Targets;
    DistinctTargets(job, 0, 1);
    DistinctTargets(job, 1, 0);
    OrderIsDistinct(job, order);
    assert 0 in order && 1 in order;
    var zero, one :| 0 <= zero < |order| && 0 <= one < |order| && order[zero] == 0 && order[one] == 1;
    AheadIsAnOrder(job, 0, 1, 0);
    assert job.InOrder(order);
    assert job.Ahead(order[0], order[1]);
  }

  /** A preferring run of the two roots with a budget of two gives all of it to the first in order. */
  lemma TwoResults(job: Job, next: seq<Measurement>, order: seq<nat>, budgets: seq<nat>, visits: seq<nat>, x: nat,
      y: nat)
    requires RanAs(job, TwoRoots(), next, order, budgets, visits) && job.prefer
    requires job.places == TwoPlaces() && AllIncomplete(job.ms) && job.maxEntries == job.perRoot == 2
    requires order == [x, y] && (x, y) in {(0, 1), (1, 0)}
    ensures |next| == 2 && next[x] == Measured(job.ms[x], TwoRoots()(x, 2), true) && next[y] == Fail(job.ms[y])
  {
    hide Measured, Fail, Targets, TargetDone, Sum;
    assert visits[..0] == [] && visits[..1] == [] + [visits[0]];
    NoSum();
    SumMore([], visits[0]);
    assert budgets[0] == 2;
    assert Visited(job, TwoRoots(), order[0], budgets[0], visits[0]);
    assert TwoRoots()(x, 2).visited == 2;
    assert budgets[1] == 0;
    var k := PlaceOf(job, TwoRoots(), next, order, budgets, visits, x);
    var l := PlaceOf(job, TwoRoots(), next, order, budgets, visits, y);
  }

  /** Root 1 was attempted once and is incomplete; root 0 comes back with no attempts. */
  predicate Overtaken(ms: seq<Measurement>) {
    && |ms| == 2 && !IsComplete(ms[1]) && ms[1].identified && ms[1].attempts == 1
    && (IsComplete(ms[0]) || !ms[0].identified)
  }

  /** The seeded job of two roots. */
  lemma TwoJob(manifest: seq<Measurement>)
    requires |manifest| == 2
    ensures var job := JobOf(Some(manifest), TwoPlaces(), 2, 2);
            && job.ms == [Carried(Some(manifest[0]), true), Carried(Some(manifest[1]), true)]
            && job.places == TwoPlaces() && job.maxEntries == job.perRoot == 2 && AllIncomplete(job.ms)
            && (Carries(Some(manifest[0]), true) || Carries(Some(manifest[1]), true) ==> job.prefer)
  {
    var priors := Priors(2, Some(manifest));
    var same := seq(2, _ => true);
    if Carries(Some(manifest[0]), true) { assert 0 in CarriedIndices(priors, same); }
    if Carries(Some(manifest[1]), true) { assert 1 in CarriedIndices(priors, same); }
  }

  /**
   * A completed root comes back first and uses up the budget: the other one is passed over, and the next manifest is
   * no better.
   */
  lemma CompletedRootStaysAhead(manifest: seq<Measurement>, next: seq<Measurement>, order: seq<nat>, budgets: seq<nat>,
      visits: seq<nat>)
    requires Overtaken(manifest)
    requires RanAs(JobOf(Some(manifest), TwoPlaces(), 2, 2), TwoRoots(), next, order, budgets, visits)
    ensures Overtaken(next) && IsComplete(next[0])
  {
    hide RanAs, Targets, JobOf;
    var job := JobOf(Some(manifest), TwoPlaces(), 2, 2);
    TwoJob(manifest);
    RanInOrder(job, next, order, budgets, visits);
    TwoTargets(job, order);
    TwoResults(job, next, order, budgets, visits, 0, 1);
  }

  lemma RanInOrder(job: Job, next: seq<Measurement>, order: seq<nat>, budgets: seq<nat>, visits: seq<nat>)
    requires RanAs(job, TwoRoots(), next, order, budgets, visits) && |job.ms| == 2
    ensures job.Valid() && order == Targets(job, 2)
  {
  }

  /** The first run, without a manifest, gives each root one entry: both are measured, neither completes. */
  lemma FirstOfTwo(next: seq<Measurement>, order: seq<nat>, budgets: seq<nat>, visits: seq<nat>)
    requires RanAs(JobOf(None, TwoPlaces(), 2, 2), TwoRoots(), next, order, budgets, visits)
    ensures |next| == 2 && next[0] == next[1] == Measurement(CurrentRun, true, 0, false, true, false, 0, 0)
  {
    hide RanAs, Targets, JobOf;
    var job := JobOf(None, TwoPlaces(), 2, 2);
    FirstJob();
    RanInOrder(job, next, order, budgets, visits);
    TwoTargets(job, order);
    TwoShares(job, order, budgets, visits, next);
    var k := PlaceOf(job, TwoRoots(), next, order, budgets, visits, 0);
    var l := PlaceOf(job, TwoRoots(), next, order, budgets, visits, 1);
    OneEach(k, l, budgets);
  }

  lemma OneEach(k: nat, l: nat, budgets: seq<nat>)
    requires budgets == [1, 1] && k < 2 && l < 2
    ensures Result(Unmeasured(), TwoRoots(), 0, budgets[k], false)
         == Result(Unmeasured(), TwoRoots(), 1, budgets[l], false)
         == Measurement(CurrentRun, true, 0, false, true, false, 0, 0)
  {
  }

  /** Without a manifest nothing is carried over. */
  lemma FirstJob()
    ensures var job := JobOf(None, TwoPlaces(), 2, 2);
            && job.ms == [Unmeasured(), Unmeasured()] && job.places == TwoPlaces() && !job.prefer
            && job.maxEntries == job.perRoot == 2 && AllIncomplete(job.ms)
  {
  }

  lemma TwoShares(job: Job, order: seq<nat>, budgets: seq<nat>, visits: seq<nat>, next: seq<Measurement>)
    requires RanAs(job, TwoRoots(), next, order, budgets, visits) && !job.prefer && |order| == 2
    requires job.maxEntries == job.perRoot == 2
    ensures budgets == [1, 1]
  {
    hide Targets, TargetDone, Sum;
    assert visits == ([] + [visits[0]]) + [visits[1]];
    NoSum();
    SumMore([], visits[0]);
    SumMore([visits[0]], visits[1]);
    assert [] + [visits[0]] == [visits[0]];
    assert Guaranteed(Some(2), 2, 2) == 1;
    assert Visited(job, TwoRoots(), order[0], budgets[0], visits[0])
      && Visited(job, TwoRoots(), order[1], budgets[1], visits[1]);
    assert budgets[0] >= 1 && budgets[1] >= 1;
    assert TwoRoots()(order[0], budgets[0]).visited == budgets[0]
      && TwoRoots()(order[1], budgets[1]).visited == budgets[1];
  }

  /** The second run completes root 0 and leaves nothing for root 1; the third one attempts root 1. */
  lemma SecondOfTwo(manifest: seq<Measurement>, next: seq<Measurement>, order: seq<nat>, budgets: seq<nat>,
      visits: seq<nat>)
    requires |manifest| == 2 && manifest[0] == manifest[1] == Measurement(CurrentRun, true, 0, false, true, false, 0, 0)
    requires RanAs(JobOf(Some(manifest), TwoPlaces(), 2, 2), TwoRoots(), next, order, budgets, visits)
    ensures |next| == 2 && IsComplete(next[0]) && !IsComplete(next[1]) && next[1].identified && next[1].attempts == 0
  {
    hide RanAs, Targets, JobOf;
    var job := JobOf(Some(manifest), TwoPlaces(), 2, 2);
    TwoJob(manifest);
    RanInOrder(job, next, order, budgets, visits);
    TwoTargets(job, order);
    TwoResults(job, next, order, budgets, visits, 0, 1);
  }

  lemma ThirdOfTwo(manifest: seq<Measurement>, next: seq<Measurement>, order: seq<nat>, budgets: seq<nat>,
      visits: seq<nat>)
    requires |manifest| == 2 && IsComplete(manifest[0])
    requires !IsComplete(manifest[1]) && manifest[1].identified && manifest[1].attempts == 0
    requires RanAs(JobOf(Some(manifest), TwoPlaces(), 2, 2), TwoRoots(), next, order, budgets, visits)
    ensures Overtaken(next)
  {
    hide RanAs, Targets, JobOf;
    var job := JobOf(Some(manifest), TwoPlaces(), 2, 2);
    TwoJob(manifest);
    RanInOrder(job, next, order, budgets, visits);
    TwoTargets(job, order);
    TwoResults(job, next, order, budgets, visits, 1, 0);
  }

  function TwoRun(): Run {
    Run(TwoRoots(), 2, 2)
  }

  /** In every chain of runs over the two roots, root 1 is not attempted again from the third run on. */
  lemma {:induction false} StarvesForever(ms: seq<seq<Measurement>>, runs: seq<Run>, k: nat)
    requires Chain(ms, TwoPlaces(), runs) && (forall j | 0 <= j < |runs| :: runs[j] == TwoRun()) && 2 <= k < |ms|
    ensures Overtaken(ms[k])
  {
    hide RanAs, JobOf, Overtaken, TwoRoots, TwoPlaces, Measured;
    if k == 2 {
      ThirdRun(ms, runs);
    } else {
      StarvesForever(ms, runs, k - 1);
      var order, budgets, visits := RunOf(ms, runs, k);
      CompletedRootStaysAhead(ms[k - 1], ms[k], order, budgets, visits);
    }
  }

  lemma RunOf(ms: seq<seq<Measurement>>, runs: seq<Run>, k: nat)
    returns (order: seq<nat>, budgets: seq<nat>, visits: seq<nat>)
    requires Chain(ms, TwoPlaces(), runs) && (forall j | 0 <= j < |runs| :: runs[j] == TwoRun()) && k < |ms|
    ensures Before(ms, k).Some? ==> |Before(ms, k).value| == 2
    ensures RanAs(JobOf(Before(ms, k), TwoPlaces(), 2, 2), TwoRoots(), ms[k], order, budgets, visits)
  {
    hide RanAs, JobOf;
    assert Ran(Before(ms, k), ms[k], TwoPlaces(), runs[k]);
    order, budgets, visits :| RanAs(JobOf(Before(ms, k), TwoPlaces(), 2, 2), TwoRoots(), ms[k], order, budgets, visits);
  }

  lemma ThirdRun(ms: seq<seq<Measurement>>, runs: seq<Run>)
    requires Chain(ms, TwoPlaces(), runs) && (forall j | 0 <= j < |runs| :: runs[j] == TwoRun()) && 2 < |ms|
    ensures Overtaken(ms[2])
  {
    hide RanAs, JobOf, Overtaken, Chain, TwoRoots, TwoPlaces;
    var order, budgets, visits := RunOf(ms, runs, 0);
    FirstOfTwo(ms[0], order, budgets, visits);
    order, budgets, visits := RunOf(ms, runs, 1);
    SecondOfTwo(ms[0], ms[1], order, budgets, visits);
    order, budgets, visits := RunOf(ms, runs, 2);
    ThirdOfTwo(ms[1], ms[2], order, budgets, visits);
  }

  /** Such runs, in any number. */
  method StarvingRuns(count: nat) returns (ms: seq<seq<Measurement>>)
    ensures |ms| == count && Chain(ms, TwoPlaces(), seq(count, _ => TwoRun()))
    ensures forall k | 2 <= k < |ms| :: Overtaken(ms[k])
  {
    hide Chain, Overtaken;
    TwoWithinBudget();
    var runs := seq(count, _ => TwoRun());
    ms := ResumeRuns(TwoPlaces(), runs);
    ChainLength(ms, TwoPlaces(), runs);
    forall k | 2 <= k < |ms| ensures Overtaken(ms[k]) {
      StarvesForever(ms, runs, k);
    }
  }

  lemma ChainLength(ms: seq<seq<Measurement>>, places: seq<Option<nat>>, runs: seq<Run>)
    requires Chain(ms, places, runs)
    ensures |ms| == |runs|
  {
  }

  lemma TwoWithinBudget()
    ensures WithinBudget(TwoRoots())
  {
  }

  // ---- why nothing may fail ----

  /** The inventory of root 0 fails. */
  function FailingRun(): Run {
    Run((i: nat, b: nat) => if i == 0 then Failed else SlowReport(i, b), 1, 1)
  }

  /** Root 0 fails in the first f runs and works in the later ones. */
  function RunsWithFailures(f: nat, count: nat): (runs: seq<Run>)
    ensures |runs| == count && forall k | 0 <= k < count :: runs[k] == if k < f then FailingRun() else SlowRun()
  {
    seq(count, k => if k < f then FailingRun() else SlowRun())
  }

  /** Attempts of two incomplete roots, of which the second one was measured. */
  predicate Counts(ms: seq<Measurement>, zero: nat, one: nat) {
    && |ms| == 2 && ms[0].attempts == zero && ms[1].attempts == one && ms[1].identified
    && !ms[0].complete && !ms[1].complete && (ms[0].identified <==> zero > 0)
  }

  /** One entry to spend: the first target is offered it, and the second one what the first left. */
  lemma OneOffer(job: Job, inventory: Inventorier, next: seq<Measurement>, order: seq<nat>, budgets: seq<nat>,
      visits: seq<nat>)
    requires RanAs(job, inventory, next, order, budgets, visits) && job.maxEntries == job.perRoot == 1
    requires |order| == 2 && (inventory(order[0], 1).Report? ==> inventory(order[0], 1).visited == 1)
    ensures |budgets| == 2 && budgets[0] == 1 && budgets[1] == if inventory(order[0], 1).Report? then 0 else 1
  {
    hide Targets, TargetDone, Sum, FrontBudgets, FairBudgets, Budget, Job.InOrder;
    assert visits[..0] == [] && visits[..1] == [] + [visits[0]];
    NoSum();
    SumMore([], visits[0]);
    OneShare();
    assert budgets[0] == Budget(1, 1, 2, job.prefer);
    assert Visited(job, inventory, order[0], budgets[0], visits[0]);
    assert budgets[1] == Budget(1 - visits[0], 1, 1, job.prefer);
  }

  lemma OneForTwo(job: Job, inventory: Inventorier, next: seq<Measurement>, order: seq<nat>, budgets: seq<nat>,
      visits: seq<nat>, x: nat, y: nat)
    requires RanAs(job, inventory, next, order, budgets, visits)
    requires inventory(x, 1).Report? ==> inventory(x, 1).visited == 1
    requires job.places == TwoPlaces() && AllIncomplete(job.ms) && job.maxEntries == job.perRoot == 1
    requires order == [x, y] && (x, y) in {(0, 1), (1, 0)}
    ensures |next| == 2 && next[x] == Measured(job.ms[x], inventory(x, 1), job.prefer)
    ensures inventory(x, 1).Report? ==> next[y] == Fail(job.ms[y])
    ensures inventory(x, 1).Failed? ==> next[y] == Measured(job.ms[y], inventory(y, 1), job.prefer)
  {
    hide RanAs, Measured, Fail;
    OneOffer(job, inventory, next, order, budgets, visits);
    TwoIndices(job, inventory, next, order, budgets, visits);
    var k := PlaceOf(job, inventory, next, order, budgets, visits, x);
    var l := PlaceOf(job, inventory, next, order, budgets, visits, y);
  }

  lemma TwoIndices(job: Job, inventory: Inventorier, next: seq<Measurement>, order: seq<nat>, budgets: seq<nat>,
      visits: seq<nat>)
    requires RanAs(job, inventory, next, order, budgets, visits) && job.places == TwoPlaces()
    ensures |job.ms| == 2
  {
    RanShape(job, inventory, next, order, budgets, visits);
  }

  lemma OneShare()
    ensures forall prefer :: Budget(1, 1, 2, prefer) == Budget(1, 1, 1, prefer) == 1
    ensures forall prefer :: Budget(0, 1, 1, prefer) == 0
  {
    ShareBounds(1, 2);
    ShareBounds(1, 1);
    ShareBounds(0, 1);
  }

  /** The job of a later run, ordered by its attempts. */
  lemma CountsJob(ms: seq<Measurement>, zero: nat, one: nat)
    requires Counts(ms, zero, one)
    ensures var job := JobOf(Some(ms), TwoPlaces(), 1, 1);
            && job.prefer && AllIncomplete(job.ms) && job.places == TwoPlaces() && job.maxEntries == job.perRoot == 1
            && job.ms == [Carried(Some(ms[0]), true), Carried(Some(ms[1]), true)]
            && job.Valid() && job.Wanted(0) && job.Wanted(1)
            && (job.Ahead(0, 1) <==> zero < one || (zero == one > 0 && CameFirst(ms)))
  {
    var job := JobOf(Some(ms), TwoPlaces(), 1, 1);
    assert Carries(Some(ms[1]), true);
    assert 1 in CarriedIndices(Priors(2, Some(ms)), seq(2, _ => true));
  }

  /** Larger hints first, then the path. */
  predicate CameFirst(ms: seq<Measurement>)
    requires |ms| == 2
  {
    || ms[0].privateBytes > ms[1].privateBytes
    || (ms[0].privateBytes == ms[1].privateBytes && ms[0].allocatedBytes >= ms[1].allocatedBytes)
  }

  /** While root 0 fails, root 1 is attempted in every run. */
  lemma FailingStep(ms: seq<Measurement>, next: seq<Measurement>, one: nat)
    requires Counts(ms, 0, one) && one < U64_MAX && Ran(Some(ms), next, TwoPlaces(), FailingRun())
    ensures Counts(next, 0, one + 1)
  {
    hide RanAs, JobOf, CameFirst, Targets;
    var job := JobOf(Some(ms), TwoPlaces(), 1, 1);
    var order, budgets, visits :| RanAs(job, FailingRun().inventory, next, order, budgets, visits);
    CountsJob(ms, 0, one);
    InTwoOrders(job, FailingRun().inventory, next, order, budgets, visits);
    if one > 0 {
      OneForTwo(job, FailingRun().inventory, next, order, budgets, visits, 0, 1);
    } else {
      OneForTwo(job, FailingRun().inventory, next, order, budgets, visits, 1, 0);
    }
  }

  /** Once it works, root 0 is attempted alone until it has caught up. */
  lemma WorkingStep(ms: seq<Measurement>, next: seq<Measurement>, zero: nat, one: nat)
    requires Counts(ms, zero, one) && zero < one < U64_MAX && Ran(Some(ms), next, TwoPlaces(), SlowRun())
    ensures Counts(next, zero + 1, one)
  {
    hide RanAs, JobOf, CameFirst, Targets;
    var job := JobOf(Some(ms), TwoPlaces(), 1, 1);
    var order, budgets, visits :| RanAs(job, SlowRun().inventory, next, order, budgets, visits);
    CountsJob(ms, zero, one);
    InTwoOrders(job, SlowRun().inventory, next, order, budgets, visits);
    OneForTwo(job, SlowRun().inventory, next, order, budgets, visits, 0, 1);
  }

  lemma InTwoOrders(job: Job, inventory: Inventorier, next: seq<Measurement>, order: seq<nat>, budgets: seq<nat>,
      visits: seq<nat>)
    requires RanAs(job, inventory, next, order, budgets, visits) && job.places == TwoPlaces() && AllIncomplete(job.ms)
    ensures job.Valid() && job.Wanted(0) && job.Wanted(1) && order == if job.Ahead(0, 1) then [0, 1] else [1, 0]
  {
    RanShape(job, inventory, next, order, budgets, visits);
    TwoTargets(job, order);
  }

  lemma CountsFirst(next: seq<Measurement>)
    requires Ran(None, next, TwoPlaces(), FailingRun())
    ensures Counts(next, 0, 0)
  {
    hide RanAs, JobOf, Targets, IsComplete;
    var job := JobOf(None, TwoPlaces(), 1, 1);
    var order, budgets, visits :| RanAs(job, FailingRun().inventory, next, order, budgets, visits);
    EmptyJob();
    InTwoOrders(job, FailingRun().inventory, next, order, budgets, visits);
    OneForTwo(job, FailingRun().inventory, next, order, budgets, visits, 0, 1);
  }

  lemma EmptyJob()
    ensures var job := JobOf(None, TwoPlaces(), 1, 1);
            && !job.prefer && AllIncomplete(job.ms) && job.places == TwoPlaces() && job.maxEntries == job.perRoot == 1
            && job.ms == [Unmeasured(), Unmeasured()] && job.Valid() && job.Wanted(0) && job.Wanted(1)
            && job.Ahead(0, 1)
  {
  }

  lemma {:induction false} FailuresCount(ms: seq<seq<Measurement>>, f: nat, k: nat)
    requires 2 <= f < U64_MAX && Chain(ms, TwoPlaces(), RunsWithFailures(f, |ms|)) && k < |ms| && k <= 2 * f - 2
    ensures Counts(ms[k], if k < f then 0 else k + 1 - f, if k < f then k else f - 1)
  {
    hide Ran, Counts, RunsWithFailures;
    assert Ran(Before(ms, k), ms[k], TwoPlaces(), RunsWithFailures(f, |ms|)[k]);
    if k == 0 {
      CountsFirst(ms[0]);
    } else {
      FailuresCount(ms, f, k - 1);
      if k < f {
        FailingStep(ms[k - 1], ms[k], k - 1);
      } else {
        WorkingStep(ms[k - 1], ms[k], k - f, f - 1);
      }
    }
  }

  /**
   * After f runs in which root 0 failed, root 1 is passed over in the f - 1 runs that follow, so no number of runs
   * bounds the wait of a root once another one may fail.
   */
  lemma FailuresStarve(ms: seq<seq<Measurement>>, f: nat)
    requires 2 <= f < U64_MAX && Chain(ms, TwoPlaces(), RunsWithFailures(f, |ms|)) && |ms| == 2 * f - 1
    ensures |ms[f - 1]| == |ms[2 * f - 2]| == 2 && ms[f - 1][1].attempts == ms[2 * f - 2][1].attempts
  {
    hide Chain, RunsWithFailures;
    FailuresCount(ms, f, f - 1);
    FailuresCount(ms, f, 2 * f - 2);
  }

  /** Such runs. */
  method FailingRuns(f: nat) returns (ms: seq<seq<Measurement>>)
    requires 2 <= f < U64_MAX
    ensures |ms| == 2 * f - 1 && Chain(ms, TwoPlaces(), RunsWithFailures(f, 2 * f - 1))
    ensures |ms[f - 1]| == |ms[2 * f - 2]| == 2 && ms[f - 1][1].attempts == ms[2 * f - 2][1].attempts
  {
    hide Chain, RunsWithFailures;
    FailingRunnable();
    var runs := RunsWithFailures(f, 2 * f - 1);
    ms := ResumeRuns(TwoPlaces(), runs);
    ChainLength(ms, TwoPlaces(), runs);
    FailuresStarve(ms, f);
  }

  lemma FailingRunnable()
    ensures RunnableOver(FailingRun(), TwoPlaces()) && RunnableOver(SlowRun(), TwoPlaces())
  {
  }
}
