// One measuring pass over generated roots: which measurements a resumed run carries over, in which order
// roots are measured, and how the global budget is spent.

module Measuring {
  import opened Wrappers
  import opened Saturating
  import opened Inventory

  datatype Source = Pending | CurrentRun | PriorManifest

  datatype Measurement = Measurement(
    source: Source,
    identified: bool,
    attempts: nat,
    complete: bool,
    error: bool,
    privateComplete: bool,
    privateBytes: nat,
    allocatedBytes: nat)

  function Unmeasured(): Measurement {
    Measurement(Pending, false, 0, false, false, false, 0, 0)
  }

  predicate IsComplete(m: Measurement) {
    m.complete && !m.error && m.privateComplete
  }

  function Fail(m: Measurement): Measurement {
    m.(complete := false, privateComplete := false, error := true)
  }

  /** What an inventory of one root returned for its budget. */
  datatype Outcome =
    | Failed
    | Report(visited: nat, complete: bool, errors: bool, privateComplete: bool, privateBytes: nat, allocatedBytes: nat)

  /** From a root and a budget. */
  type Inventorier = (nat, nat) -> Outcome

  /** An inventory never visits more than its budget. */
  ghost predicate WithinBudget(inventory: Inventorier) {
    forall i, b :: inventory(i, b).Report? ==> inventory(i, b).visited <= b
  }

  // ---- resuming ----

  /** Only an identified, incomplete measurement of an unchanged root is carried over. */
  predicate Carries(prior: Option<Measurement>, same: bool) {
    prior.Some? && prior.value.identified && same && !IsComplete(prior.value)
  }

  function Carried(prior: Option<Measurement>, same: bool): Measurement {
    if Carries(prior, same) then prior.value.(source := PriorManifest) else Unmeasured()
  }

  ghost function CarriedIndices(prior: seq<Option<Measurement>>, same: seq<bool>): set<nat>
    requires |prior| == |same|
  {
    set i: nat | i < |prior| && Carries(prior[i], same[i])
  }

  /** What is still to be measured: cut off, failed, or with private bytes that are not known. */
  ghost predicate Incomplete(m: Measurement) {
    !m.complete || m.error || !m.privateComplete
  }

  ghost predicate WorthCarrying(prior: Option<Measurement>, same: bool) {
    exists m :: prior == Some(m) && same && m.identified && Incomplete(m)
  }

  /** The measurements a run starts with, and how many of them it carried over. */
  method SeedResumeMeasurements(prior: seq<Option<Measurement>>, same: seq<bool>)
    returns (seeded: seq<Measurement>, carried: nat)
    requires |prior| == |same|
    ensures |seeded| == |prior| && forall i | 0 <= i < |prior| :: seeded[i] == Carried(prior[i], same[i])
    ensures forall m | m in seeded :: !IsComplete(m)
    ensures carried == |CarriedIndices(prior, same)|
    ensures forall i | 0 <= i < |prior| && WorthCarrying(prior[i], same[i]) ::
              seeded[i] == prior[i].value.(source := PriorManifest)
    ensures forall i | 0 <= i < |prior| && !WorthCarrying(prior[i], same[i]) ::
              seeded[i] == Measurement(Pending, false, 0, false, false, false, 0, 0)
    ensures carried == |set i: nat | i < |prior| && WorthCarrying(prior[i], same[i])|
  {
    seeded, carried := [], 0;
    ghost var indices: set<nat> := {};
    for i := 0 to |prior|
      invariant |seeded| == i && forall j | 0 <= j < i :: seeded[j] == Carried(prior[j], same[j])
      invariant indices == (set j: nat | j < i && Carries(prior[j], same[j])) && carried == |indices|
    {
      seeded := seeded + [Carried(prior[i], same[i])];
      if Carries(prior[i], same[i]) {
        carried := carried + 1;
        indices := indices + {i};
      }
    }
    assert indices == CarriedIndices(prior, same) == set i: nat | i < |prior| && WorthCarrying(prior[i], same[i]);
  }

  // ---- targets ----

  /**
   * A measuring job: measurements with the canonical places of their roots (in path order; None when a
   * root cannot be inspected or escapes its worktree), the mode and the budgets.
   */
  datatype Job = Job(
    ms: seq<Measurement>,
    places: seq<Option<nat>>,
    prefer: bool,
    maxEntries: nat,
    perRoot: nat)
  {
    predicate Valid() {
      |ms| == |places| <= U64_MAX && maxEntries <= U64_MAX
    }

    predicate Wanted(i: nat)
      requires Valid()
    {
      i < |ms| && !IsComplete(ms[i]) && places[i].Some?
    }

    /** Artifacts of one canonical root are measured together. */
    predicate Together(i: nat, j: nat)
      requires Valid()
    {
      Wanted(i) && Wanted(j) && places[i] == places[j]
    }

    /** The first artifact of its root. */
    predicate Leads(i: nat)
      requires Valid()
    {
      Wanted(i) && forall j: nat | j < i :: !Together(i, j)
    }

    /** The sort key: attempts, then measurements carried over, then larger hints, then path. */
    predicate Ahead(i: nat, j: nat)
      requires Valid() && Wanted(i) && Wanted(j)
    {
      var a, b := ms[i], ms[j];
      if !prefer then places[i].value < places[j].value
      else if a.attempts != b.attempts then a.attempts < b.attempts
      else if a.source.PriorManifest? != b.source.PriorManifest? then a.source.PriorManifest?
      else if a.privateBytes != b.privateBytes then a.privateBytes > b.privateBytes
      else if a.allocatedBytes != b.allocatedBytes then a.allocatedBytes > b.allocatedBytes
      else places[i].value < places[j].value
    }

    predicate InOrder(order: seq<nat>)
      requires Valid()
    {
      && (forall k | 0 <= k < |order| :: Leads(order[k]))
      && forall k, l | 0 <= k < l < |order| :: Ahead(order[k], order[l])
    }
  }

  lemma AheadIsAnOrder(job: Job, i: nat, j: nat, k: nat)
    requires job.Valid() && job.Leads(i) && job.Leads(j) && job.Leads(k)
    ensures i == j || (job.Ahead(i, j) <==> !job.Ahead(j, i))
    ensures !job.Ahead(i, i)
    ensures job.Ahead(i, j) && job.Ahead(j, k) ==> job.Ahead(i, k)
  {
    if i != j {
      assert !job.Together(if i < j then j else i, if i < j then i else j);
    }
  }

  lemma AheadOfAll(job: Job, i: nat, order: seq<nat>)
    requires job.Valid() && job.InOrder(order) && job.Leads(i)
    requires order != [] ==> job.Ahead(i, order[0])
    ensures job.InOrder([i] + order)
  {
    hide Job.Ahead;
    forall k | 0 <= k < |order| ensures job.Ahead(i, order[k]) {
      AheadIsAnOrder(job, i, order[0], order[k]);
    }
  }

  function Insert(job: Job, order: seq<nat>, i: nat): (r: seq<nat>)
    requires job.Valid() && job.Leads(i) && i !in order && job.InOrder(order)
    ensures job.InOrder(r)
    ensures forall x: nat :: x in r <==> x == i || x in order
  {
    if order == [] then [i]
    else if job.Ahead(i, order[0]) then
      AheadOfAll(job, i, order);
      [i] + order
    else
      var rest := Insert(job, order[1..], i);
      InsertLater(job, order, i, rest);
      [order[0]] + rest
  }

  lemma InsertLater(job: Job, order: seq<nat>, i: nat, rest: seq<nat>)
    requires job.Valid() && job.Leads(i) && order != [] && i !in order && job.InOrder(order) && job.InOrder(rest)
    requires !job.Ahead(i, order[0]) && rest != [] && forall x: nat :: x in rest <==> x == i || x in order[1..]
    ensures job.InOrder([order[0]] + rest)
  {
    hide Job.Ahead, Job.Leads;
    assert rest[0] in rest;
    AheadIsAnOrder(job, order[0], i, i);
    AheadOfAll(job, order[0], rest);
  }

  /** The leaders below n, sorted. */
  function Targets(job: Job, n: nat): (order: seq<nat>)
    requires job.Valid() && n <= |job.ms|
    ensures job.InOrder(order)
    ensures forall x: nat :: x in order <==> x < n && job.Leads(x)
  {
    if n == 0 then []
    else if job.Leads(n - 1) then Insert(job, Targets(job, n - 1), n - 1)
    else Targets(job, n - 1)
  }

  lemma OrderIsDistinct(job: Job, order: seq<nat>)
    requires job.Valid() && job.InOrder(order)
    ensures forall k, l | 0 <= k < l < |order| :: order[k] != order[l] && !job.Together(order[k], order[l])
    ensures |order| <= |job.ms|
  {
    forall k, l | 0 <= k < l < |order| ensures order[k] != order[l] && !job.Together(order[k], order[l]) {
      AheadIsAnOrder(job, order[k], order[l], order[k]);
      LeadersApart(job, order[k], order[l]);
    }
    OrderIsShort(order, |job.ms|);
  }

  lemma LeadersApart(job: Job, i: nat, j: nat)
    requires job.Valid() && job.Leads(i) && job.Leads(j) && i != j
    ensures !job.Together(i, j)
  {
    assert !job.Together(if i < j then j else i, if i < j then i else j);
  }

  lemma OrderIsShort(order: seq<nat>, n: nat)
    requires forall k | 0 <= k < |order| :: order[k] < n
    requires forall k, l | 0 <= k < l < |order| :: order[k] != order[l]
    ensures |order| <= n
    decreases n
  {
    assert order != [] ==> order[0] < n;
    if n > 0 && n - 1 in order {
      var k :| 0 <= k < |order| && order[k] == n - 1;
      OrderIsShort(order[..k] + order[k + 1..], n - 1);
    } else if n > 0 {
      OrderIsShort(order, n - 1);
    }
  }

  // ---- one pass ----

  function Budget(remaining: nat, perRoot: nat, left: nat, prefer: bool): nat {
    if prefer then Min(remaining, perRoot) else Min(perRoot, Share(remaining, left))
  }

  function Measured(m: Measurement, o: Outcome, prefer: bool): Measurement {
    match o
    case Failed => Fail(m)
    case Report(_, complete, errors, privateComplete, privateBytes, allocatedBytes) =>
      var done := complete && !errors && privateComplete;
      var attempts := SatAdd(m.attempts, if prefer then 1 else 0);
      var private := done && privateComplete;
      Measurement(CurrentRun, true, attempts, done, !complete || errors, private, privateBytes, allocatedBytes)
  }

  /** What a target's budget makes of one of its artifacts; without a budget it fails unattempted. */
  function Result(m: Measurement, inventory: Inventorier, i: nat, budget: nat, prefer: bool): Measurement {
    if budget == 0 then Fail(m) else Measured(m, inventory(i, budget), prefer)
  }

  /** Artifacts whose root cannot be inspected fail before anything is measured. */
  function Inspected(job: Job, i: nat): Measurement
    requires job.Valid() && i < |job.ms|
  {
    if !IsComplete(job.ms[i]) && job.places[i].None? then Fail(job.ms[i]) else job.ms[i]
  }

  /** The artifact belongs to one of the first targets. */
  ghost predicate Reached(job: Job, order: seq<nat>, i: nat)
    requires job.Valid()
  {
    exists k | 0 <= k < |order| :: job.Together(order[k], i)
  }

  predicate TargetDone(job: Job, after: seq<Measurement>, inventory: Inventorier, leader: nat, budget: nat)
    requires job.Valid() && |after| == |job.ms|
  {
    forall i | 0 <= i < |job.ms| && job.Together(leader, i) ::
      after[i] == Result(job.ms[i], inventory, leader, budget, job.prefer)
  }

  predicate Visited(job: Job, inventory: Inventorier, i: nat, budget: nat, visits: nat) {
    && visits <= budget <= job.perRoot
    && visits == if budget > 0 && inventory(i, budget).Report? then inventory(i, budget).visited else 0
  }

  /** The first targets are done, with budgets and visits that fit; nothing else is touched. */
  ghost predicate PassUpTo(job: Job, after: seq<Measurement>, inventory: Inventorier, order: seq<nat>,
      budgets: seq<nat>, visits: seq<nat>)
    requires job.Valid()
  {
    && |after| == |job.ms| && |budgets| == |visits| <= |order|
    && (forall i | 0 <= i < |job.ms| && !Reached(job, order[..|budgets|], i) :: after[i] == Inspected(job, i))
    && (forall l | 0 <= l < |budgets| :: TargetDone(job, after, inventory, order[l], budgets[l]))
    && (forall l | 0 <= l < |budgets| :: Visited(job, inventory, order[l], budgets[l], visits[l]))
  }

  predicate FairBudgets(budgets: seq<nat>, least: nat) {
    forall l | 0 <= l < |budgets| :: budgets[l] >= least
  }

  /** First come, first served. */
  predicate FrontBudgets(budgets: seq<nat>, visits: seq<nat>, maxEntries: nat, perRoot: nat)
    requires |budgets| == |visits|
  {
    forall l | 0 <= l < |budgets| :: budgets[l] == Min(SatSub(maxEntries, Sum(visits[..l])), perRoot)
  }

  /** Each of n targets is offered its budget of what the ones before it left. */
  predicate OfferedBudgets(job: Job, budgets: seq<nat>, visits: seq<nat>, n: nat)
    requires |budgets| == |visits| <= n
  {
    forall l | 0 <= l < |budgets| ::
      budgets[l] == Budget(SatSub(job.maxEntries, Sum(visits[..l])), job.perRoot, n - l, job.prefer)
  }

  lemma OfferStep(job: Job, budgets: seq<nat>, visits: seq<nat>, n: nat, visited: nat)
    requires |budgets| == |visits| < n && OfferedBudgets(job, budgets, visits, n)
    ensures var budget := Budget(SatSub(job.maxEntries, Sum(visits)), job.perRoot, n - |budgets|, job.prefer);
            OfferedBudgets(job, budgets + [budget], visits + [visited], n)
  {
    hide Budget, Sum;
    forall l | 0 <= l <= |visits| ensures (visits + [visited])[..l] == visits[..l] {
    }
    assert visits[..|visits|] == visits;
  }

  /** When completion is preferred the offers are first come, first served. */
  lemma OffersInFront(job: Job, budgets: seq<nat>, visits: seq<nat>, n: nat)
    requires |budgets| == |visits| <= n && OfferedBudgets(job, budgets, visits, n) && job.prefer
    ensures FrontBudgets(budgets, visits, job.maxEntries, job.perRoot)
  {
    hide Sum;
  }

  /** Record one target's result with all its artifacts. */
  function Recorded(job: Job, after: seq<Measurement>, inventory: Inventorier, leader: nat,
      budget: nat): (r: seq<Measurement>)
    requires job.Valid() && |after| == |job.ms|
    ensures |r| == |after|
  {
    seq(|after|, i requires 0 <= i < |after| =>
      if job.Together(leader, i) then Result(job.ms[i], inventory, leader, budget, job.prefer) else after[i])
  }

  lemma PassStep(job: Job, after: seq<Measurement>, inventory: Inventorier, order: seq<nat>, budgets: seq<nat>,
      visits: seq<nat>, budget: nat, visited: nat)
    requires job.Valid() && PassUpTo(job, after, inventory, order, budgets, visits) && |budgets| < |order|
    requires forall k, l | 0 <= k < l < |order| :: !job.Together(order[k], order[l])
    requires Visited(job, inventory, order[|budgets|], budget, visited)
    ensures PassUpTo(job, Recorded(job, after, inventory, order[|budgets|], budget), inventory, order,
              budgets + [budget], visits + [visited])
  {
    hide Visited, Inspected, Result;
    var k := |budgets|;
    var next := Recorded(job, after, inventory, order[k], budget);
    assert order[..k + 1] == order[..k] + [order[k]];
    forall i | 0 <= i < |job.ms| && !Reached(job, order[..k + 1], i) ensures next[i] == Inspected(job, i) {
      ReachedStays(job, order, k, i);
    }
    forall l | 0 <= l <= k ensures TargetDone(job, next, inventory, order[l], (budgets + [budget])[l]) {
      if l < k {
        assert TargetDone(job, after, inventory, order[l], budgets[l]);
      }
    }
  }

  lemma ReachedStays(job: Job, order: seq<nat>, k: nat, i: nat)
    requires job.Valid() && k < |order|
    ensures Reached(job, order[..k], i) || job.Together(order[k], i) ==> Reached(job, order[..k + 1], i)
  {
    if job.Together(order[k], i) {
      assert job.Together(order[..k + 1][k], i);
    }
    if Reached(job, order[..k], i) {
      var l :| 0 <= l < k && job.Together(order[..k][l], i);
      assert job.Together(order[..k + 1][l], i);
    }
  }

  lemma FairAtFirst(maxEntries: nat, n: nat, floor: nat)
    requires n > 0 ==> floor == Div(maxEntries, n)
    ensures Covered(maxEntries, floor, n) && forall least :: FairBudgets([], least)
  {
    hide Div;
    if n > 0 { Quotient(maxEntries, n); }
  }

  lemma BudgetFits(remaining: nat, perRoot: nat, left: nat, prefer: bool)
    requires 0 < left <= U64_MAX && remaining <= U64_MAX
    ensures Budget(remaining, perRoot, left, prefer) <= Min(remaining, perRoot)
    ensures prefer ==> Budget(remaining, perRoot, left, prefer) == Min(remaining, perRoot)
    ensures remaining > 0 && perRoot > 0 ==> Budget(remaining, perRoot, left, prefer) > 0
  {
    hide Share;
    ShareBounds(remaining, left);
  }

  lemma FairStep(budgets: seq<nat>, maxEntries: nat, n: nat, remaining: nat, perRoot: nat, left: nat, visited: nat)
    requires 0 < left <= n <= U64_MAX && remaining <= U64_MAX && Covered(remaining, Div(maxEntries, n), left)
    requires FairBudgets(budgets, Guaranteed(Some(perRoot), maxEntries, n))
    requires visited <= Budget(remaining, perRoot, left, false)
    ensures visited <= remaining && Covered(remaining - visited, Div(maxEntries, n), left - 1)
    ensures FairBudgets(budgets + [Budget(remaining, perRoot, left, false)], Guaranteed(Some(perRoot), maxEntries, n))
  {
    hide Share, Div;
    ShareCovers(remaining, Div(maxEntries, n), left);
  }

  // ---- what a pass means ----

  /** A failure keeps what was known and leaves the measurement incomplete. */
  ghost predicate FailsFrom(m: Measurement, after: Measurement) {
    after == Measurement(m.source, m.identified, m.attempts, false, true, false, m.privateBytes, m.allocatedBytes)
  }

  ghost predicate MeasuredFrom(m: Measurement, after: Measurement, o: Outcome, prefer: bool)
    requires o.Report?
  {
    && after.source == CurrentRun && after.identified
    && (m.attempts < U64_MAX ==> after.attempts == m.attempts + if prefer then 1 else 0)
    && (m.attempts == U64_MAX ==> after.attempts == U64_MAX)
    && (after.complete <==> o.complete && !o.errors && o.privateComplete)
    && (after.error <==> !o.complete || o.errors)
    && (after.privateComplete <==> after.complete)
    && after.privateBytes == o.privateBytes && after.allocatedBytes == o.allocatedBytes
  }

  /** An artifact gets what the inventory of its target returned, and fails without a budget or an inventory. */
  ghost predicate DoneWith(m: Measurement, after: Measurement, inventory: Inventorier, leader: nat, budget: nat,
      prefer: bool)
  {
    && (budget == 0 || inventory(leader, budget).Failed? ==> FailsFrom(m, after))
    && (budget > 0 && inventory(leader, budget).Report? ==> MeasuredFrom(m, after, inventory(leader, budget), prefer))
  }

  ghost predicate DoneByTarget(job: Job, i: nat, after: Measurement, inventory: Inventorier, order: seq<nat>,
      budgets: seq<nat>)
    requires job.Valid() && i < |job.ms| && |order| == |budgets|
  {
    exists k | 0 <= k < |order| && order[k] < |job.ms| ::
      job.places[order[k]] == job.places[i] && DoneWith(job.ms[i], after, inventory, order[k], budgets[k], job.prefer)
  }

  /**
   * What a pass makes of one artifact: a complete one is left alone, one without a place to inspect fails, and any
   * other is done with the target of its place.
   */
  ghost predicate ArtifactDone(job: Job, i: nat, after: Measurement, inventory: Inventorier, order: seq<nat>,
      budgets: seq<nat>)
    requires job.Valid() && i < |job.ms| && |order| == |budgets|
  {
    && (!Incomplete(job.ms[i]) ==> after == job.ms[i])
    && (Incomplete(job.ms[i]) && job.places[i].None? ==> FailsFrom(job.ms[i], after))
    && (Incomplete(job.ms[i]) && job.places[i].Some? ==> DoneByTarget(job, i, after, inventory, order, budgets))
  }

  lemma ResultMeans(m: Measurement, inventory: Inventorier, leader: nat, budget: nat, prefer: bool)
    ensures DoneWith(m, Result(m, inventory, leader, budget, prefer), inventory, leader, budget, prefer)
  {
  }

  lemma PassMeans(job: Job, after: seq<Measurement>, inventory: Inventorier, order: seq<nat>, budgets: seq<nat>,
      visits: seq<nat>, i: nat)
    requires job.Valid() && order == Targets(job, |job.ms|) && |budgets| == |order| && i < |job.ms|
    requires PassUpTo(job, after, inventory, order, budgets, visits)
    ensures ArtifactDone(job, i, after[i], inventory, order, budgets)
  {
    hide Result, Visited, DoneWith, Targets;
    assert order[..|order|] == order;
    if job.Wanted(i) {
      LeaderOf(job, i);
      var j: nat :| job.Leads(j) && job.Together(j, i);
      LeaderIsWanted(job, j);
      assert j in order;
      var k :| 0 <= k < |order| && order[k] == j;
      assert TargetDone(job, after, inventory, order[k], budgets[k]);
      ResultMeans(job.ms[i], inventory, order[k], budgets[k], job.prefer);
      assert order[k] < |job.ms| && job.places[order[k]] == job.places[i];
    } else {
      assert !Reached(job, order, i);
    }
  }

  /** Every artifact to be measured has a first one at its place. */
  lemma {:induction false} LeaderOf(job: Job, i: nat)
    requires job.Valid() && job.Wanted(i)
    ensures exists j: nat :: j <= i && job.Leads(j) && job.Together(j, i)
  {
    if !job.Leads(i) {
      var j: nat :| j < i && job.Together(i, j);
      LeaderOf(job, j);
      var l: nat :| l <= j && job.Leads(l) && job.Together(l, j);
      assert job.Together(l, i);
    } else {
      assert job.Together(i, i);
    }
  }

  /** Fewer attempts first, then measurements carried over, then more bytes, then the path; or the path alone. */
  ghost function Key(job: Job, i: nat): seq<int>
    requires job.Valid() && i < |job.ms| && job.places[i].Some?
  {
    var m, place := job.ms[i], job.places[i].value as int;
    var first := if m.source == PriorManifest then 0 else 1;
    if job.prefer then [m.attempts as int, first, -(m.privateBytes as int), -(m.allocatedBytes as int), place]
    else [place]
  }

  ghost predicate LexicallyBefore(a: seq<int>, b: seq<int>) {
    exists d | 0 <= d < |a| && d < |b| :: a[..d] == b[..d] && a[d] < b[d]
  }

  /** One target for every place with something to measure, its first artifact, in the order of the keys. */
  ghost predicate OrderMeans(job: Job, order: seq<nat>)
    requires job.Valid()
  {
    && (forall k | 0 <= k < |order| :: FirstOfPlace(job, order[k]))
    && (forall k, l | 0 <= k < l < |order| :: LexicallyBefore(Key(job, order[k]), Key(job, order[l])))
    && (forall i | 0 <= i < |job.ms| && FirstOfPlace(job, i) :: i in order)
  }

  ghost predicate FirstOfPlace(job: Job, i: nat)
    requires job.Valid()
  {
    && i < |job.ms| && Incomplete(job.ms[i]) && job.places[i].Some?
    && forall j | 0 <= j < i && Incomplete(job.ms[j]) :: job.places[j] != job.places[i]
  }

  lemma LeadsIsFirst(job: Job, i: nat)
    requires job.Valid()
    ensures job.Leads(i) <==> FirstOfPlace(job, i)
  {
    if job.Leads(i) {
      forall j | 0 <= j < i && Incomplete(job.ms[j]) ensures job.places[j] != job.places[i] {
        assert !job.Together(i, j);
      }
    }
  }

  lemma AheadIsLexical(job: Job, i: nat, j: nat)
    requires job.Valid() && job.Wanted(i) && job.Wanted(j) && job.Ahead(i, j)
    ensures LexicallyBefore(Key(job, i), Key(job, j))
  {
    var a, b := Key(job, i), Key(job, j);
    if !job.prefer {
      assert a[..0] == b[..0] && a[0] < b[0];
    } else {
      var d := if a[0] != b[0] then 0 else if a[1] != b[1] then 1 else if a[2] != b[2] then 2
               else if a[3] != b[3] then 3 else 4;
      assert a[..d] == b[..d] && a[d] < b[d];
    }
  }

  lemma TargetsMean(job: Job)
    requires job.Valid()
    ensures OrderMeans(job, Targets(job, |job.ms|))
  {
    hide Targets, Key, LexicallyBefore, FirstOfPlace, Job.Ahead, Job.Leads;
    var order := Targets(job, |job.ms|);
    forall i: nat ensures job.Leads(i) <==> FirstOfPlace(job, i) {
      LeadsIsFirst(job, i);
    }
    forall k | 0 <= k < |order| ensures job.Wanted(order[k]) {
      LeaderIsWanted(job, order[k]);
    }
    forall k, l | 0 <= k < l < |order| ensures LexicallyBefore(Key(job, order[k]), Key(job, order[l])) {
      AheadIsLexical(job, order[k], order[l]);
    }
  }

  lemma LeaderIsWanted(job: Job, i: nat)
    requires job.Valid() && job.Leads(i)
    ensures job.Wanted(i)
  {
  }

  /** In fair mode a budget is the smaller of the limit and the share of what the targets before it left. */
  ghost predicate FairOffers(job: Job, budgets: seq<nat>, visits: seq<nat>, n: nat)
    requires |budgets| == |visits| <= n
  {
    forall l | 0 <= l < |budgets| ::
      && WithinOffer(budgets[l], Some(job.perRoot), job.maxEntries - Sum(visits[..l]), n - l)
      && UsesOffer(budgets[l], Some(job.perRoot), job.maxEntries - Sum(visits[..l]), n - l)
  }

  lemma FairOfferAt(job: Job, budgets: seq<nat>, visits: seq<nat>, n: nat, l: nat)
    requires job.Valid() && n <= U64_MAX && |budgets| == |visits| <= n && l < |budgets| && !job.prefer
    requires OfferedBudgets(job, budgets, visits, n) && Sum(visits) <= job.maxEntries
    ensures WithinOffer(budgets[l], Some(job.perRoot), job.maxEntries - Sum(visits[..l]), n - l)
    ensures UsesOffer(budgets[l], Some(job.perRoot), job.maxEntries - Sum(visits[..l]), n - l)
  {
    hide Sum, Share, WithinOffer, UsesOffer;
    SumsGrow(visits, l, |visits|);
    assert visits[..|visits|] == visits;
    BudgetIsOffer(Some(job.perRoot), job.maxEntries - Sum(visits[..l]), n - l, budgets[l]);
  }

  /** The entries one target's inventory visits. */
  method MeasureTarget(job: Job, inventory: Inventorier, i: nat, budget: nat) returns (visited: nat)
    requires WithinBudget(inventory) && budget <= job.perRoot
    ensures Visited(job, inventory, i, budget, visited) && visited <= budget
  {
    if budget == 0 { return 0; }
    var outcome := inventory(i, budget);
    visited := if outcome.Report? then outcome.visited else 0;
  }

  /**
   * One measuring pass. Artifacts of one root share its measurement. The visits never exceed the maximum; the
   * first target always has a budget; in fair mode every target is offered its guaranteed share, and when
   * completion is preferred the budget goes to the first targets in order.
   */
  method MeasureArtifacts(job: Job, inventory: Inventorier)
    returns (after: seq<Measurement>, order: seq<nat>, budgets: seq<nat>, visits: seq<nat>)
    requires job.Valid() && WithinBudget(inventory)
    ensures order == Targets(job, |job.ms|) && |budgets| == |visits| == |order|
    ensures PassUpTo(job, after, inventory, order, budgets, visits)
    ensures Sum(visits) <= job.maxEntries
    ensures order != [] && job.maxEntries > 0 && job.perRoot > 0 ==> budgets[0] > 0
    ensures !job.prefer && order != [] ==> FairBudgets(budgets, Guaranteed(Some(job.perRoot), job.maxEntries, |order|))
    ensures OfferedBudgets(job, budgets, visits, |order|)
    ensures job.prefer ==> FrontBudgets(budgets, visits, job.maxEntries, job.perRoot)
    ensures OrderMeans(job, order)
    ensures |after| == |job.ms|
    ensures forall i | 0 <= i < |job.ms| :: ArtifactDone(job, i, after[i], inventory, order, budgets)
    ensures !job.prefer ==> FairOffers(job, budgets, visits, |order|)
  {
    hide OrderMeans, ArtifactDone, WithinOffer, UsesOffer;
    hide Share, Div, Targets, PassUpTo, FrontBudgets, FairBudgets, OfferedBudgets, Covered, Guaranteed, Budget, Sum,
      Visited, WithinBudget;
    hide Job.InOrder, Job.Together, Recorded;
    order := Targets(job, |job.ms|);
    OrderIsDistinct(job, order);
    after, budgets, visits := seq(|job.ms|, i requires 0 <= i < |job.ms| => Inspected(job, i)), [], [];
    var n := |order|;
    var remaining: nat := job.maxEntries;
    ghost var floor := if n == 0 then 0 else Div(job.maxEntries, n);
    FairAtFirst(job.maxEntries, n, floor);
    PassStart(job, after, inventory, order);
    for k := 0 to n
      invariant PassUpTo(job, after, inventory, order, budgets, visits)
      invariant |after| == |job.ms| && |budgets| == |visits| == k
      invariant remaining + Sum(visits) == job.maxEntries
      invariant k > 0 && job.maxEntries > 0 && job.perRoot > 0 ==> budgets[0] > 0
      invariant n > 0 && !job.prefer ==> Covered(remaining, floor, n - k)
      invariant n > 0 && !job.prefer ==> FairBudgets(budgets, Guaranteed(Some(job.perRoot), job.maxEntries, n))
      invariant OfferedBudgets(job, budgets, visits, n)
    {
      var budget := Budget(remaining, job.perRoot, n - k, job.prefer);
      BudgetFits(remaining, job.perRoot, n - k, job.prefer);
      var visited := MeasureTarget(job, inventory, order[k], budget);
      PassStep(job, after, inventory, order, budgets, visits, budget, visited);
      OfferStep(job, budgets, visits, n, visited);
      if !job.prefer {
        FairStep(budgets, job.maxEntries, n, remaining, job.perRoot, n - k, visited);
      }
      SumMore(visits, visited);
      after := Recorded(job, after, inventory, order[k], budget);
      remaining := remaining - visited;
      if k == 0 { assert visits == []; }
      budgets, visits := budgets + [budget], visits + [visited];
    }
    if job.prefer { OffersInFront(job, budgets, visits, n); }
    TargetsMean(job);
    forall i | 0 <= i < |job.ms| ensures ArtifactDone(job, i, after[i], inventory, order, budgets) {
      PassMeans(job, after, inventory, order, budgets, visits, i);
    }
    if !job.prefer {
      forall l | 0 <= l < n
        ensures WithinOffer(budgets[l], Some(job.perRoot), job.maxEntries - Sum(visits[..l]), n - l)
        ensures UsesOffer(budgets[l], Some(job.perRoot), job.maxEntries - Sum(visits[..l]), n - l)
      {
        FairOfferAt(job, budgets, visits, n, l);
      }
    }
  }

  lemma PassStart(job: Job, after: seq<Measurement>, inventory: Inventorier, order: seq<nat>)
    requires job.Valid() && |after| == |job.ms| && forall i | 0 <= i < |after| :: after[i] == Inspected(job, i)
    ensures PassUpTo(job, after, inventory, order, [], []) && Sum([]) == 0
    ensures OfferedBudgets(job, [], [], |order|)
  {
  }

  // ---- who gets a budget ----

  /** A target is attempted exactly when the targets ahead of it visit fewer entries than the whole budget. */
  lemma AttemptedExactlyWhenLeft(budgets: seq<nat>, visits: seq<nat>, maxEntries: nat, perRoot: nat, k: nat)
    requires |budgets| == |visits| && FrontBudgets(budgets, visits, maxEntries, perRoot) && perRoot > 0 && k < |budgets|
    ensures budgets[k] > 0 <==> Sum(visits[..k]) < maxEntries
  {
    hide Sum;
  }

  /** Once the budget is used up, later targets get none. */
  lemma FrontFirst(budgets: seq<nat>, visits: seq<nat>, maxEntries: nat, perRoot: nat, k: nat, l: nat)
    requires |budgets| == |visits| && FrontBudgets(budgets, visits, maxEntries, perRoot) && perRoot > 0
    requires k < |budgets| && l <= k && budgets[k] > 0
    ensures budgets[l] > 0
  {
    SumsGrow(visits, l, k);
  }
}
