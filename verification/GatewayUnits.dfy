// Inventory of the gateway's storage units: one global budget, units that may have disappeared.

module GatewayUnits {
  import opened Wrappers
  import opened Saturating
  import opened Inventory
  import opened Scan
  import opened Worlds

  datatype Unit = Present(root: Root) | Vanished

  datatype UnitReport = UnitReport(index: nat, report: RootReport)

  function UnitVisits(reports: seq<UnitReport>): nat {
    if reports == [] then 0 else UnitVisits(reports[..|reports| - 1]) + reports[|reports| - 1].report.visited
  }

  lemma UnitVisitsAppend(reports: seq<UnitReport>, r: UnitReport)
    ensures UnitVisits(reports + [r]) == UnitVisits(reports) + r.report.visited
  {
    assert (reports + [r])[..|reports + [r]| - 1] == reports;
  }

  /** Reports come from present units, in order, each cut off only after its guaranteed entries. */
  ghost predicate UnitsReported(units: seq<Unit>, depth: nat, guaranteed: nat, reports: seq<UnitReport>) {
    && (forall k | 0 <= k < |reports| ::
          && reports[k].index < |units| && units[reports[k].index].Present?
          && (units[reports[k].index].root.Directory? ==> units[reports[k].index].root.world.Valid())
          && Reported(units[reports[k].index].root, depth, guaranteed, reports[k].report))
    && forall k, l | 0 <= k < l < |reports| :: reports[k].index < reports[l].index
  }

  /** Each unit that is reported was offered its limit or its share of what the units before it left. */
  ghost predicate UnitOfferAt(perUnit: nat, maxEntries: nat, n: nat, reports: seq<UnitReport>, k: nat)
    requires k < |reports| && reports[k].index < n
  {
    OfferKept(reports[k].report, Some(perUnit), maxEntries - UnitVisits(reports[..k]), n - reports[k].index)
  }

  ghost predicate UnitOffersKept(perUnit: nat, maxEntries: nat, n: nat, reports: seq<UnitReport>) {
    forall k | 0 <= k < |reports| :: reports[k].index < n && UnitOfferAt(perUnit, maxEntries, n, reports, k)
  }

  lemma UnitOfferMoreAt(perUnit: nat, maxEntries: nat, n: nat, reports: seq<UnitReport>, r: UnitReport, k: nat)
    requires k <= |reports| && r.index < n
    requires k < |reports| ==> reports[k].index < n && UnitOfferAt(perUnit, maxEntries, n, reports, k)
    requires OfferKept(r.report, Some(perUnit), maxEntries - UnitVisits(reports), n - r.index)
    ensures UnitOfferAt(perUnit, maxEntries, n, reports + [r], k)
  {
    hide UnitVisits, OfferKept;
    assert (reports + [r])[..k] == reports[..k];
    if k == |reports| { assert reports[..k] == reports; }
  }

  lemma UnitOfferMore(perUnit: nat, maxEntries: nat, n: nat, reports: seq<UnitReport>, r: UnitReport)
    requires r.index < n && UnitOffersKept(perUnit, maxEntries, n, reports)
    requires OfferKept(r.report, Some(perUnit), maxEntries - UnitVisits(reports), n - r.index)
    ensures UnitOffersKept(perUnit, maxEntries, n, reports + [r])
  {
    hide UnitOfferAt, OfferKept;
    var more := reports + [r];
    forall k | 0 <= k <= |reports| ensures more[k].index < n && UnitOfferAt(perUnit, maxEntries, n, more, k) {
      if k < |reports| { assert more[k] == reports[k]; }
      UnitOfferMoreAt(perUnit, maxEntries, n, reports, r, k);
    }
  }

  lemma NoUnitOffers(perUnit: nat, maxEntries: nat, n: nat)
    ensures UnitOffersKept(perUnit, maxEntries, n, [])
  {
  }

  predicate HasReport(reports: seq<UnitReport>, i: nat) {
    exists r | r in reports :: r.index == i
  }

  lemma ReportedWeaker(root: Root, depth: nat, more: nat, less: nat, report: RootReport)
    requires (root.Directory? ==> root.world.Valid()) && Reported(root, depth, more, report) && less <= more
    ensures Reported(root, depth, less, report)
  {
  }

  lemma OneVisits(r: RootReport)
    ensures Visits([r]) == r.visited
  {
    VisitsAppend([], r);
    assert [] + [r] == [r];
  }

  lemma OneRootGuarantee(budget: nat)
    requires budget > 0
    ensures Guaranteed(Some(budget), budget, 1) == budget
  {
  }

  /** A unit's own inventory, all of whose budget is its root's. */
  method InventoryOne(root: Root, depth: nat, budget: nat, ghost guaranteed: nat) returns (report: Option<RootReport>)
    requires (root.Directory? ==> root.world.Valid()) && 0 < budget <= U64_MAX && guaranteed <= budget
    ensures report.None? <==> root == Refused
    ensures report.Some? ==> report.value.visited <= budget && Reported(root, depth, guaranteed, report.value)
    ensures report.Some? && report.value.exhaustion.Some? ==> report.value.visited == budget
  {
    hide World.Valid, Reported, Visits, Guaranteed;
    var reports := InventoryWithRootLimit([root], depth, budget, Some(budget));
    if reports.None? { return None; }
    var r := reports.value[0];
    OneRootGuarantee(budget);
    ReportedWeaker(root, depth, budget, guaranteed, r);
    OneVisits(r);
    assert reports.value == [r];
    report := Some(r);
  }

  /**
   * The units together visit no more than the maximum. A unit that is there goes unreported only when the
   * maximum is spent, and is cut off only after using up its limit or its share of what the units before it left,
   * which is never less than min(limit, floor(max / n)). A unit that has disappeared uses nothing.
   */
  method InventoryUnits(units: seq<Unit>, depth: nat, maxEntries: nat, perUnit: nat)
    returns (reports: Option<seq<UnitReport>>)
    requires |units| <= U64_MAX && maxEntries <= U64_MAX && perUnit > 0
    requires forall i | 0 <= i < |units| && units[i].Present? && units[i].root.Directory? :: units[i].root.world.Valid()
    ensures reports.None? ==> Present(Refused) in units
    ensures reports.Some? ==> UnitVisits(reports.value) <= maxEntries
    ensures reports.Some? && units != [] ==>
              UnitsReported(units, depth, Guaranteed(Some(perUnit), maxEntries, |units|), reports.value)
    ensures reports.Some? ==> UnitOffersKept(perUnit, maxEntries, |units|, reports.value)
    ensures reports.Some? ==> forall i | 0 <= i < |units| && units[i].Present? && !HasReport(reports.value, i) ::
              UnitVisits(reports.value) == maxEntries
  {
    hide World.Valid, Reported, Share, UnitVisits, Div, HasReport, UnitsReported, Covered, Guaranteed;
    hide UnitOffersKept;
    NoUnitVisits();
    NoUnitOffers(perUnit, maxEntries, |units|);
    var n := |units|;
    if n == 0 { return Some([]); }
    ghost var floor, guaranteed := Div(maxEntries, n), Guaranteed(Some(perUnit), maxEntries, n);
    var remaining: nat := maxEntries;
    var done: seq<UnitReport> := [];
    NothingYet(units, depth, guaranteed);
    CoveredAtFirst(maxEntries, n);
    for i := 0 to n
      invariant UnitVisits(done) + remaining == maxEntries
      invariant Covered(remaining, floor, n - i)
      invariant UnitsReported(units, depth, guaranteed, done)
      invariant UnitOffersKept(perUnit, maxEntries, n, done)
      invariant forall k | 0 <= k < |done| :: done[k].index < i
      invariant forall j | 0 <= j < i && units[j].Present? :: HasReport(done, j)
    {
      if remaining == 0 { break; }
      RootBudget(Some(perUnit), maxEntries, n, remaining, n - i);
      var budget := Min(perUnit, Share(remaining, n - i));
      if units[i].Present? {
        var report := InventoryOne(units[i].root, depth, budget, guaranteed);
        if report.None? {
          assert units[i] in units;
          return None;
        }
        var r := UnitReport(i, report.value);
        BudgetIsOffer(Some(perUnit), remaining, n - i, r.report.visited);
        UnitOfferMore(perUnit, maxEntries, n, done, r);
        UnitVisitsAppend(done, r);
        HasMore(units, done, r, i);
        OneMoreUnit(units, depth, guaranteed, done, r);
        done := done + [r];
        CoveredLess(maxEntries, n, remaining, n - i, budget, r.report.visited);
        remaining := remaining - r.report.visited;
      } else {
        CoveredFewer(remaining, floor, n - i, n - i - 1);
      }
    }
    reports := Some(done);
  }

  lemma NothingYet(units: seq<Unit>, depth: nat, guaranteed: nat)
    ensures UnitsReported(units, depth, guaranteed, [])
  {
  }

  lemma OneMoreUnit(units: seq<Unit>, depth: nat, guaranteed: nat, done: seq<UnitReport>, r: UnitReport)
    requires UnitsReported(units, depth, guaranteed, done)
    requires r.index < |units| && units[r.index].Present?
    requires units[r.index].root.Directory? ==> units[r.index].root.world.Valid()
    requires Reported(units[r.index].root, depth, guaranteed, r.report)
    requires forall k | 0 <= k < |done| :: done[k].index < r.index
    ensures UnitsReported(units, depth, guaranteed, done + [r])
  {
    hide Reported, World.Valid;
  }

  lemma NoUnitVisits()
    ensures UnitVisits([]) == 0
  {
  }

  lemma HasMore(units: seq<Unit>, done: seq<UnitReport>, r: UnitReport, i: nat)
    requires i < |units| && r.index == i && forall j | 0 <= j < i && units[j].Present? :: HasReport(done, j)
    ensures forall j | 0 <= j <= i && units[j].Present? :: HasReport(done + [r], j)
  {
    var more := done + [r];
    assert more[|done|] == r;
    forall j | 0 <= j <= i && units[j].Present? ensures HasReport(more, j) {
      if j < i {
        assert HasReport(done, j);
        var x :| x in done && x.index == j;
        assert x in more;
      }
    }
  }
}
