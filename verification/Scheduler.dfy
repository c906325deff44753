// Sequences of measuring runs: while no root completes or fails, none starves.

module Scheduler {
  import opened Wrappers
  import opened Saturating
  import opened Inventory
  import opened Measuring

  // ---- one run ----

  /** The measurements a run can resume; none without a manifest. */
  function Priors(n: nat, manifest: Option<seq<Measurement>>): (priors: seq<Option<Measurement>>)
    requires manifest.Some? ==> |manifest.value| == n
    ensures |priors| == n
    ensures forall i | 0 <= i < n :: priors[i] == if manifest.Some? then Some(manifest.value[i]) else None
  {
    seq(n, i requires 0 <= i < n => if manifest.Some? then Some(manifest.value[i]) else None)
  }

  /** What a run measures: completion is preferred exactly when something was carried over. */
  ghost function JobOf(manifest: Option<seq<Measurement>>, places: seq<Option<nat>>, maxEntries: nat,
      perRoot: nat): (job: Job)
    requires manifest.Some? ==> |manifest.value| == |places|
    ensures |job.ms| == |places|
  {
    var priors := Priors(|places|, manifest);
    var same := seq(|places|, _ => true);
    Job(seq(|places|, i requires 0 <= i < |places| => Carried(priors[i], true)), places,
      CarriedIndices(priors, same) != {}, maxEntries, perRoot)
  }

  /** One run over roots that did not change: seed from the manifest, if there is one, and measure. */
  method CollectRun(manifest: Option<seq<Measurement>>, places: seq<Option<nat>>, inventory: Inventorier,
      maxEntries: nat, perRoot: nat)
    returns (next: seq<Measurement>, order: seq<nat>, budgets: seq<nat>, visits: seq<nat>)
    requires manifest.Some? ==> |manifest.value| == |places|
    requires |places| <= U64_MAX && maxEntries <= U64_MAX && WithinBudget(inventory)
    ensures RanAs(JobOf(manifest, places, maxEntries, perRoot), inventory, next, order, budgets, visits)
  {
    hide PassUpTo, FrontBudgets, FairBudgets, OfferedBudgets, Targets, Sum, Carried, Carries;
    var priors := Priors(|places|, manifest);
    var seeded, carried := SeedResumeMeasurements(priors, seq(|places|, _ => true));
    var job := Job(seeded, places, carried > 0, maxEntries, perRoot);
    assert job == JobOf(manifest, places, maxEntries, perRoot);
    next, order, budgets, visits := MeasureArtifacts(job, inventory);
  }

  /** The outcome of a measuring pass. */
  ghost predicate RanAs(job: Job, inventory: Inventorier, next: seq<Measurement>, order: seq<nat>, budgets: seq<nat>,
      visits: seq<nat>)
  {
    && job.Valid() && order == Targets(job, |job.ms|) && |budgets| == |visits| == |order|
    && PassUpTo(job, next, inventory, order, budgets, visits)
    && Sum(visits) <= job.maxEntries
    && (order != [] && job.maxEntries > 0 && job.perRoot > 0 ==> budgets[0] > 0)
    && (!job.prefer && order != [] ==> FairBudgets(budgets, Guaranteed(Some(job.perRoot), job.maxEntries, |order|)))
    && OfferedBudgets(job, budgets, visits, |order|)
    && (job.prefer ==> FrontBudgets(budgets, visits, job.maxEntries, job.perRoot))
  }

  // ---- distinct roots ----

  predicate DistinctRoots(places: seq<Option<nat>>) {
    && (forall i | 0 <= i < |places| :: places[i].Some?)
    && forall i, j | 0 <= i < j < |places| :: places[i] != places[j]
  }

  predicate AllIncomplete(ms: seq<Measurement>) {
    forall i | 0 <= i < |ms| :: !IsComplete(ms[i])
  }

  lemma DistinctTargets(job: Job, i: nat, j: nat)
    requires job.Valid() && DistinctRoots(job.places) && AllIncomplete(job.ms) && i < |job.ms| && j < |job.ms|
    ensures job.Leads(i) && (job.Together(i, j) <==> i == j)
  {
  }

  /** Where a root stands in the order, and what its budget made of it. */
  lemma PlaceOf(job: Job, inventory: Inventorier, next: seq<Measurement>, order: seq<nat>, budgets: seq<nat>,
      visits: seq<nat>, i: nat) returns (k: nat)
    requires RanAs(job, inventory, next, order, budgets, visits)
    requires DistinctRoots(job.places) && AllIncomplete(job.ms) && i < |job.ms|
    ensures |next| == |job.ms| && k < |order| == |budgets| && order[k] == i
    ensures next[i] == Result(job.ms[i], inventory, i, budgets[k], job.prefer)
  {
    hide Result, Visited, Targets, FrontBudgets, FairBudgets, OfferedBudgets;
    DistinctTargets(job, i, i);
    assert i in order;
    k :| 0 <= k < |order| && order[k] == i;
    assert TargetDone(job, next, inventory, order[k], budgets[k]);
  }

  // ---- runs in which nothing completes ----

  function Attempts(ms: seq<Measurement>): (a: seq<nat>)
    ensures |a| == |ms| && forall i | 0 <= i < |ms| :: a[i] == ms[i].attempts
  {
    seq(|ms|, i requires 0 <= i < |ms| => ms[i].attempts)
  }

  predicate Raised(before: seq<nat>, after: seq<nat>, i: nat)
    requires i < |before| == |after|
  {
    after[i] == before[i] + 1
  }

  /** Some roots were attempted, and none before a root attempted fewer times. */
  predicate Bumped(before: seq<nat>, after: seq<nat>) {
    && |after| == |before|
    && (forall i | 0 <= i < |before| :: Raised(before, after, i) || after[i] == before[i])
    && (exists i | 0 <= i < |before| :: Raised(before, after, i))
    && (forall i, j | 0 <= i < |before| && 0 <= j < |before| && Raised(before, after, i) && !Raised(before, after, j) ::
          before[i] <= before[j])
  }

  /** A manifest of a run in which no root completed: only measured roots have attempts. */
  predicate Resumable(ms: seq<Measurement>) {
    forall i | 0 <= i < |ms| :: !IsComplete(ms[i]) && (ms[i].identified || ms[i].attempts == 0)
  }

  predicate AnyIdentified(ms: seq<Measurement>) {
    exists i | 0 <= i < |ms| :: ms[i].identified
  }

  predicate Unsaturated(ms: seq<Measurement>) {
    forall i | 0 <= i < |ms| :: ms[i].attempts < U64_MAX
  }

  predicate Completes(o: Outcome) {
    o.Report? && o.complete && !o.errors && o.privateComplete
  }

  /** The inventory returned, and left the root incomplete. */
  predicate LeftOff(o: Outcome) {
    o.Report? && !Completes(o)
  }

  /** No target of the run failed or completed with the budget it got. */
  predicate NoneCompletes(inventory: Inventorier, order: seq<nat>, budgets: seq<nat>) {
    && |order| == |budgets|
    && forall k | 0 <= k < |order| && budgets[k] > 0 :: LeftOff(inventory(order[k], budgets[k]))
  }

  /** Nothing was ever measured, or the manifest says what was. */
  predicate CanResume(manifest: Option<seq<Measurement>>, n: nat) {
    manifest.Some? ==> |manifest.value| == n && Resumable(manifest.value) && Unsaturated(manifest.value)
  }

  function AttemptsBefore(manifest: Option<seq<Measurement>>, n: nat): (a: seq<nat>)
    requires manifest.Some? ==> |manifest.value| == n
    ensures |a| == n
  {
    if manifest.Some? then Attempts(manifest.value) else seq(n, _ => 0)
  }

  /** Seeding keeps every attempt count, and prefers completion exactly when a root was measured before. */
  lemma SeededJob(manifest: Option<seq<Measurement>>, places: seq<Option<nat>>, maxEntries: nat, perRoot: nat)
    requires CanResume(manifest, |places|)
    ensures var job := JobOf(manifest, places, maxEntries, perRoot);
            && AllIncomplete(job.ms) && Resumable(job.ms) && Unsaturated(job.ms)
            && Attempts(job.ms) == AttemptsBefore(manifest, |places|)
            && (job.prefer <==> manifest.Some? && AnyIdentified(manifest.value))
  {
    var job := JobOf(manifest, places, maxEntries, perRoot);
    var priors := Priors(|places|, manifest);
    if manifest.Some? && AnyIdentified(manifest.value) {
      var i :| 0 <= i < |places| && manifest.value[i].identified;
      assert i in CarriedIndices(priors, seq(|places|, _ => true));
    }
    assert Attempts(job.ms) == AttemptsBefore(manifest, |places|);
  }

  /** An attempt that neither fails nor completes leaves an identified, incomplete measurement. */
  lemma Attempted(m: Measurement, inventory: Inventorier, i: nat, budget: nat, prefer: bool)
    requires (budget > 0 ==> LeftOff(inventory(i, budget))) && !IsComplete(m) && m.attempts < U64_MAX
    ensures var r := Result(m, inventory, i, budget, prefer);
            && !IsComplete(r) && (r.identified || (r.attempts == m.attempts && r.identified == m.identified))
            && r.attempts == m.attempts + (if prefer && budget > 0 then 1 else 0) && (budget > 0 ==> r.identified)
  {
  }

  lemma OneRoot(job: Job, inventory: Inventorier, next: seq<Measurement>, order: seq<nat>, budgets: seq<nat>,
      visits: seq<nat>, i: nat) returns (k: nat)
    requires RanAs(job, inventory, next, order, budgets, visits)
    requires NoneCompletes(inventory, order, budgets)
    requires DistinctRoots(job.places) && Resumable(job.ms) && Unsaturated(job.ms) && i < |job.ms|
    ensures |next| == |job.ms| && k < |order| == |budgets| && order[k] == i
    ensures !IsComplete(next[i]) && (next[i].identified || next[i].attempts == 0)
    ensures budgets[k] > 0 ==> next[i].identified
    ensures next[i].attempts == job.ms[i].attempts + if job.prefer && budgets[k] > 0 then 1 else 0
  {
    hide RanAs, Result, DistinctRoots, IsComplete, LeftOff;
    k := PlaceOf(job, inventory, next, order, budgets, visits, i);
    Attempted(job.ms[i], inventory, i, budgets[k], job.prefer);
  }

  /** What a run without completions leaves. */
  lemma RunResumes(job: Job, inventory: Inventorier, next: seq<Measurement>, order: seq<nat>, budgets: seq<nat>,
      visits: seq<nat>)
    requires RanAs(job, inventory, next, order, budgets, visits)
    requires NoneCompletes(inventory, order, budgets)
    requires DistinctRoots(job.places) && Resumable(job.ms) && Unsaturated(job.ms)
    requires |job.ms| > 0 && job.maxEntries > 0 && job.perRoot > 0
    ensures |next| == |job.ms| && Resumable(next) && AnyIdentified(next)
    ensures forall i | 0 <= i < |next| :: next[i].attempts <= job.ms[i].attempts + 1
    ensures !job.prefer ==> Attempts(next) == Attempts(job.ms)
  {
    hide NoneCompletes, DistinctRoots, IsComplete, PassUpTo, Targets, FrontBudgets, FairBudgets, OfferedBudgets;
    var first := OneRoot(job, inventory, next, order, budgets, visits, 0);
    var leader := OneRoot(job, inventory, next, order, budgets, visits, order[0]);
    SamePlace(job, order, leader);
    assert next[order[0]].identified;
    forall i | 0 <= i < |next|
      ensures !IsComplete(next[i]) && (next[i].identified || next[i].attempts == 0)
      ensures next[i].attempts <= job.ms[i].attempts + 1 && (!job.prefer ==> next[i].attempts == job.ms[i].attempts)
    {
      var k := OneRoot(job, inventory, next, order, budgets, visits, i);
    }
  }

  lemma SamePlace(job: Job, order: seq<nat>, k: nat)
    requires job.Valid() && order == Targets(job, |job.ms|) && k < |order| && order[k] == order[0]
    ensures k == 0
  {
    hide Targets;
    OrderIsDistinct(job, order);
  }

  /** When completion is preferred, the budget raises a non-empty front of the order. */
  lemma FrontBumped(job: Job, inventory: Inventorier, next: seq<Measurement>, order: seq<nat>, budgets: seq<nat>,
      visits: seq<nat>)
    requires RanAs(job, inventory, next, order, budgets, visits) && job.prefer
    requires NoneCompletes(inventory, order, budgets)
    requires DistinctRoots(job.places) && Resumable(job.ms) && Unsaturated(job.ms)
    requires |job.ms| > 0 && job.maxEntries > 0 && job.perRoot > 0
    ensures |next| == |job.ms| && Bumped(Attempts(job.ms), Attempts(next))
  {
    hide NoneCompletes, DistinctRoots, IsComplete, PassUpTo, Targets, FrontBudgets, FairBudgets, OfferedBudgets,
      Resumable, Unsaturated;
    var before, after := Attempts(job.ms), Attempts(next);
    var first := OneRoot(job, inventory, next, order, budgets, visits, 0);
    forall i | 0 <= i < |before| ensures Raised(before, after, i) || after[i] == before[i] {
      var k := OneRoot(job, inventory, next, order, budgets, visits, i);
    }
    var leader := OneRoot(job, inventory, next, order, budgets, visits, order[0]);
    SamePlace(job, order, leader);
    assert Raised(before, after, order[0]);
    forall i, j | 0 <= i < |before| && 0 <= j < |before| && Raised(before, after, i) && !Raised(before, after, j)
      ensures before[i] <= before[j]
    {
      var k := OneRoot(job, inventory, next, order, budgets, visits, i);
      var l := OneRoot(job, inventory, next, order, budgets, visits, j);
      if l <= k { FrontFirst(budgets, visits, job.maxEntries, job.perRoot, k, l); }
      AheadHasFewer(job, order, k, l);
    }
  }

  lemma AheadHasFewer(job: Job, order: seq<nat>, k: nat, l: nat)
    requires job.Valid() && job.prefer && order == Targets(job, |job.ms|) && k < l < |order|
    ensures order[k] < |job.ms| && order[l] < |job.ms| && job.ms[order[k]].attempts <= job.ms[order[l]].attempts
  {
    hide Targets;
    assert job.InOrder(order);
    assert job.Ahead(order[k], order[l]);
  }

  // ---- runs ----

  /** What a run is given besides the manifest and the roots. */
  datatype Run = Run(inventory: Inventorier, maxEntries: nat, perRoot: nat)

  ghost predicate RunnableOver(run: Run, places: seq<Option<nat>>) {
    |places| <= U64_MAX && run.maxEntries <= U64_MAX && WithinBudget(run.inventory)
  }

  /** A run over these roots can lead from one manifest to the other. */
  ghost predicate Ran(manifest: Option<seq<Measurement>>, next: seq<Measurement>, places: seq<Option<nat>>, run: Run) {
    && (manifest.Some? ==> |manifest.value| == |places|)
    && exists order, budgets, visits ::
         RanAs(JobOf(manifest, places, run.maxEntries, run.perRoot), run.inventory, next, order, budgets, visits)
  }

  /** It can do so without any target failing or completing. */
  ghost predicate RanOn(manifest: Option<seq<Measurement>>, next: seq<Measurement>, places: seq<Option<nat>>,
      run: Run)
  {
    && (manifest.Some? ==> |manifest.value| == |places|)
    && exists order, budgets, visits ::
         && RanAs(JobOf(manifest, places, run.maxEntries, run.perRoot), run.inventory, next, order, budgets, visits)
         && NoneCompletes(run.inventory, order, budgets)
  }

  /**
   * A run over distinct roots in which no target fails or completes. Once a root has been measured, the run
   * attempts the roots attempted least; before that it spreads its budget and counts no attempt. Either way it
   * leaves a measured root behind.
   */
  lemma ResumedRun(manifest: Option<seq<Measurement>>, next: seq<Measurement>, places: seq<Option<nat>>, run: Run)
    requires places != [] && DistinctRoots(places) && run.maxEntries > 0 && run.perRoot > 0
    requires CanResume(manifest, |places|) && RanOn(manifest, next, places, run)
    ensures |next| == |places| && Resumable(next) && AnyIdentified(next)
    ensures forall i | 0 <= i < |places| :: next[i].attempts <= AttemptsBefore(manifest, |places|)[i] + 1
    ensures manifest.Some? && AnyIdentified(manifest.value) ==> Bumped(Attempts(manifest.value), Attempts(next))
    ensures !(manifest.Some? && AnyIdentified(manifest.value)) ==> Attempts(next) == AttemptsBefore(manifest, |places|)
  {
    hide RanAs, Bumped, JobOf, Resumable, NoneCompletes, DistinctRoots, AnyIdentified, Unsaturated;
    var job := JobOf(manifest, places, run.maxEntries, run.perRoot);
    var order, budgets, visits :|
      RanAs(job, run.inventory, next, order, budgets, visits) && NoneCompletes(run.inventory, order, budgets);
    JobFields(manifest, places, run.maxEntries, run.perRoot);
    SeededJob(manifest, places, run.maxEntries, run.perRoot);
    RunResumes(job, run.inventory, next, order, budgets, visits);
    if job.prefer { FrontBumped(job, run.inventory, next, order, budgets, visits); }
    assert forall i | 0 <= i < |places| :: Attempts(job.ms)[i] == job.ms[i].attempts;
  }

  lemma JobFields(manifest: Option<seq<Measurement>>, places: seq<Option<nat>>, maxEntries: nat, perRoot: nat)
    requires manifest.Some? ==> |manifest.value| == |places|
    ensures var job := JobOf(manifest, places, maxEntries, perRoot);
            job.places == places && job.maxEntries == maxEntries && job.perRoot == perRoot
  {
  }

  // ---- chains of runs ----

  /** The manifest run k starts from. */
  function Before(ms: seq<seq<Measurement>>, k: nat): Option<seq<Measurement>>
    requires k <= |ms|
  {
    if k == 0 then None else Some(ms[k - 1])
  }

  /** Manifests of successive runs over the same roots, the first one without a manifest. */
  ghost predicate Chain(ms: seq<seq<Measurement>>, places: seq<Option<nat>>, runs: seq<Run>) {
    && |ms| == |runs|
    && forall k | 0 <= k < |ms| :: Ran(Before(ms, k), ms[k], places, runs[k])
  }

  /** ... in none of which a target fails or completes, with budgets that are not empty. */
  ghost predicate IncompleteChain(ms: seq<seq<Measurement>>, places: seq<Option<nat>>, runs: seq<Run>) {
    && |ms| == |runs|
    && forall k | 0 <= k < |ms| ::
         RanOn(Before(ms, k), ms[k], places, runs[k]) && runs[k].maxEntries > 0 && runs[k].perRoot > 0
  }

  /** Any number of runs, one after the other. */
  method ResumeRuns(places: seq<Option<nat>>, runs: seq<Run>) returns (ms: seq<seq<Measurement>>)
    requires forall k | 0 <= k < |runs| :: RunnableOver(runs[k], places)
    ensures Chain(ms, places, runs)
  {
    hide RanAs, JobOf, RunnableOver, Ran;
    ms := [];
    for k := 0 to |runs|
      invariant |ms| == k && (k > 0 ==> |ms[k - 1]| == |places|)
      invariant forall j | 0 <= j < k :: Ran(Before(ms, j), ms[j], places, runs[j])
    {
      ghost var sofar := ms;
      Runnable(runs[k], places);
      var run := runs[k];
      var next, order, budgets, visits := CollectRun(Before(ms, k), places, run.inventory, run.maxEntries, run.perRoot);
      RanBy(Before(ms, k), next, places, runs[k], order, budgets, visits);
      ms := ms + [next];
      assert forall j | 0 <= j <= k :: Before(ms, j) == Before(sofar, j);
    }
  }

  lemma Runnable(run: Run, places: seq<Option<nat>>)
    requires RunnableOver(run, places)
    ensures |places| <= U64_MAX && run.maxEntries <= U64_MAX && WithinBudget(run.inventory)
  {
  }

  lemma RanBy(manifest: Option<seq<Measurement>>, next: seq<Measurement>, places: seq<Option<nat>>, run: Run,
      order: seq<nat>, budgets: seq<nat>, visits: seq<nat>)
    requires manifest.Some? ==> |manifest.value| == |places|
    requires RanAs(JobOf(manifest, places, run.maxEntries, run.perRoot), run.inventory, next, order, budgets, visits)
    ensures Ran(manifest, next, places, run) && |next| == |places|
  {
    hide Targets;
  }

  /** Attempt counts after each run, from the first one on. */
  predicate IsHistory(h: seq<seq<nat>>, n: nat) {
    && h != [] && |h[0]| == n && (forall i | 0 <= i < n :: h[0][i] == 0)
    && forall k | 0 < k < |h| :: Bumped(h[k - 1], h[k])
  }

  predicate AtMostAll(ms: seq<Measurement>, k: nat) {
    forall i | 0 <= i < |ms| :: ms[i].attempts <= k
  }

  function History(ms: seq<seq<Measurement>>): (h: seq<seq<nat>>)
    ensures |h| == |ms| && forall k | 0 <= k < |ms| :: h[k] == Attempts(ms[k])
  {
    seq(|ms|, k requires 0 <= k < |ms| => Attempts(ms[k]))
  }

  /** What every run of an incomplete chain leaves, and how it counts. */
  lemma {:induction false} ChainStep(ms: seq<seq<Measurement>>, places: seq<Option<nat>>, runs: seq<Run>, k: nat)
    requires IncompleteChain(ms, places, runs) && places != [] && DistinctRoots(places) && k < |ms| <= U64_MAX
    ensures |ms[k]| == |places| && Resumable(ms[k]) && AnyIdentified(ms[k]) && AtMostAll(ms[k], k)
    ensures k > 0 ==> Bumped(Attempts(ms[k - 1]), Attempts(ms[k]))
  {
    hide RanOn, Bumped, DistinctRoots, Resumable, AnyIdentified;
    assert RanOn(Before(ms, k), ms[k], places, runs[k]);
    if k > 0 {
      ChainStep(ms, places, runs, k - 1);
    }
    ResumedRun(Before(ms, k), ms[k], places, runs[k]);
  }

  /** The attempts of successive runs in which nothing completes are a history from zero. */
  lemma ChainIsHistory(ms: seq<seq<Measurement>>, places: seq<Option<nat>>, runs: seq<Run>)
    requires IncompleteChain(ms, places, runs) && places != [] && DistinctRoots(places) && 0 < |ms| <= U64_MAX
    ensures IsHistory(History(ms), |places|)
  {
    hide IncompleteChain, Bumped, DistinctRoots;
    ChainStep(ms, places, runs, 0);
    var h := History(ms);
    forall k | 0 < k < |h| ensures Bumped(h[k - 1], h[k]) {
      ChainStep(ms, places, runs, k);
    }
  }

  // ---- no root starves ----

  predicate Close(a: seq<nat>, i: nat, j: nat)
    requires i < |a| && j < |a|
  {
    a[i] <= a[j] + 1
  }

  predicate Even(a: seq<nat>) {
    forall i, j | 0 <= i < |a| && 0 <= j < |a| :: Close(a, i, j)
  }

  lemma BumpedIsEven(before: seq<nat>, after: seq<nat>)
    requires Even(before) && Bumped(before, after)
    ensures Even(after)
  {
    forall i, j | 0 <= i < |after| && 0 <= j < |after| ensures Close(after, i, j) {
      assert Close(before, i, j);
      assert Raised(before, after, i) || after[i] == before[i];
      assert Raised(before, after, j) || after[j] == before[j];
    }
  }

  /** Attempt counts never differ by more than one. */
  lemma {:induction false} AttemptsStayEven(h: seq<seq<nat>>, n: nat, k: nat)
    requires IsHistory(h, n) && k < |h|
    ensures |h[k]| == n && Even(h[k])
  {
    hide Bumped, Even;
    if k == 0 {
      ZerosAreEven(h[0]);
    } else {
      AttemptsStayEven(h, n, k - 1);
      assert Bumped(h[k - 1], h[k]);
      SameLength(h[k - 1], h[k]);
      BumpedIsEven(h[k - 1], h[k]);
    }
  }

  lemma ZerosAreEven(a: seq<nat>)
    requires forall i | 0 <= i < |a| :: a[i] == 0
    ensures Even(a)
  {
  }

  lemma SameLength(before: seq<nat>, after: seq<nat>)
    requires Bumped(before, after)
    ensures |before| == |after|
  {
  }

  /** How far the others still are from the most they can have before a root with `top - 1` attempts is next. */
  function Slack(a: seq<nat>, top: nat): int {
    if a == [] then 0 else Slack(a[..|a| - 1], top) + top - a[|a| - 1]
  }

  lemma {:induction false} SlackBounds(a: seq<nat>, top: nat, r: nat)
    requires forall i | 0 <= i < |a| :: a[i] <= top <= a[i] + 2
    requires r < |a| ==> top == a[r] + 1
    ensures 0 <= Slack(a, top) <= 2 * |a|
    ensures r < |a| ==> 1 <= Slack(a, top) <= 2 * |a| - 1
  {
    if a != [] {
      SlackBounds(a[..|a| - 1], top, r);
    }
  }

  lemma {:induction false} SlackFalls(before: seq<nat>, after: seq<nat>, top: nat)
    requires |before| == |after| && forall i | 0 <= i < |before| :: before[i] <= after[i]
    ensures Slack(after, top) <= Slack(before, top)
    ensures (exists i | 0 <= i < |before| :: Raised(before, after, i)) ==> Slack(after, top) < Slack(before, top)
  {
    if before != [] {
      var b, a := before[..|before| - 1], after[..|after| - 1];
      SlackFalls(b, a, top);
      if i :| 0 <= i < |before| && Raised(before, after, i) {
        assert i < |b| ==> Raised(b, a, i);
      }
    }
  }

  lemma BumpedFalls(before: seq<nat>, after: seq<nat>, top: nat)
    requires Bumped(before, after)
    ensures Slack(after, top) < Slack(before, top)
  {
    forall i | 0 <= i < |before| ensures before[i] <= after[i] {
      assert Raised(before, after, i) || after[i] == before[i];
    }
    SlackFalls(before, after, top);
  }

  lemma EvenSlack(a: seq<nat>, r: nat)
    requires r < |a| && Even(a)
    ensures 1 <= Slack(a, a[r] + 1) <= 2 * |a| - 1
  {
    forall i | 0 <= i < |a| ensures a[i] <= a[r] + 1 <= a[i] + 2 {
      assert Close(a, i, r) && Close(a, r, i);
    }
    SlackBounds(a, a[r] + 1, r);
  }

  /** As long as a root is passed over, each run takes something from the slack of the others. */
  lemma {:induction false} PassedOver(h: seq<seq<nat>>, n: nat, r: nat, k: nat, m: nat)
    requires IsHistory(h, n) && r < n && k + m < |h|
    ensures |h[k]| == |h[k + m]| == n && h[k][r] <= h[k + m][r]
    ensures h[k + m][r] == h[k][r] ==> Slack(h[k + m], h[k][r] + 1) <= Slack(h[k], h[k][r] + 1) - m
  {
    hide Bumped, Even;
    AttemptsStayEven(h, n, k);
    AttemptsStayEven(h, n, k + m);
    if m > 0 {
      PassedOver(h, n, r, k, m - 1);
      assert Bumped(h[k + m - 1], h[k + m]);
      BumpedFalls(h[k + m - 1], h[k + m], h[k][r] + 1);
      NeverLowered(h[k + m - 1], h[k + m], r);
    }
  }

  lemma NeverLowered(before: seq<nat>, after: seq<nat>, r: nat)
    requires Bumped(before, after) && r < |before|
    ensures before[r] <= after[r]
  {
    assert Raised(before, after, r) || after[r] == before[r];
  }

  /** Every root is attempted at least once in any 2n - 1 consecutive runs. */
  lemma NoRootStarves(h: seq<seq<nat>>, n: nat, r: nat, k: nat)
    requires IsHistory(h, n) && r < n && k + 2 * n - 1 < |h|
    ensures |h[k]| == |h[k + 2 * n - 1]| == n && h[k][r] < h[k + 2 * n - 1][r]
  {
    hide IsHistory, Even;
    var m := 2 * n - 1;
    AttemptsStayEven(h, n, k);
    AttemptsStayEven(h, n, k + m);
    PassedOver(h, n, r, k, m);
    EvenSlack(h[k], r);
    EvenSlack(h[k + m], r);
  }

  /** In every manifest of such runs the attempts of any two roots differ by at most one. */
  lemma RunsStayEven(ms: seq<seq<Measurement>>, places: seq<Option<nat>>, runs: seq<Run>, k: nat, i: nat, j: nat)
    requires IncompleteChain(ms, places, runs) && DistinctRoots(places) && k < |ms| <= U64_MAX
    requires i < |places| && j < |places|
    ensures |ms[k]| == |places| && ms[k][i].attempts <= ms[k][j].attempts + 1
  {
    hide IncompleteChain, DistinctRoots, IsHistory;
    ChainStep(ms, places, runs, k);
    ChainIsHistory(ms, places, runs);
    AttemptsStayEven(History(ms), |places|, k);
    assert Close(History(ms)[k], i, j);
  }

  /** Of any 2n - 1 consecutive runs in which nothing completes, each root is attempted in at least one. */
  lemma EveryRootIsAttempted(ms: seq<seq<Measurement>>, places: seq<Option<nat>>, runs: seq<Run>, r: nat, k: nat)
    requires IncompleteChain(ms, places, runs) && DistinctRoots(places) && |ms| <= U64_MAX
    requires r < |places| && k + 2 * |places| - 1 < |ms|
    ensures var later := k + 2 * |places| - 1;
            && |ms[k]| == |ms[later]| == |places| && ms[k][r].attempts < ms[later][r].attempts
  {
    hide IncompleteChain, DistinctRoots, IsHistory;
    ChainStep(ms, places, runs, k);
    ChainStep(ms, places, runs, k + 2 * |places| - 1);
    ChainIsHistory(ms, places, runs);
    NoRootStarves(History(ms), |places|, r, k);
  }
}
