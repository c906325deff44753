// An inventory of several roots: each gets a ceiling share of what is left, at most a per-root limit.

module Inventory {
  import opened Wrappers
  import opened Saturating
  import opened Metrics
  import opened Worlds
  import opened Scan

  datatype Root =
    | Directory(world: World)
    | RegularFile(links: Option<nat>, measure: Measure)
    | Refused

  /** The report of a regular file: one entry with its sizes, or nothing when there was no budget for it. */
  ghost predicate IsFileReport(links: Option<nat>, measure: Measure, report: RootReport) {
    && (report.complete <==> report.exhaustion.None?)
    && (report.exhaustion.Some? ==>
      && report.exhaustion == Some(BudgetExhaustion(0, 0, 0))
      && report.visited == 0 && report.aggregates == map[[] := Zero()])
    && (report.complete ==> report.visited == 1 && report.aggregates.Keys == {[]} && report.incomplete == map[])
    && (report.complete ==>
      var m := report.aggregates[[]];
      && m.files == 1 && m.directories == m.duplicates == m.errors == 0
      && m.logicalBytes == measure.logicalBytes && m.allocatedBytes == measure.allocatedBytes
      && (links.GetOr(1) > 1 ==> m.privateBytes == 0 && m.unknown == 0)
      && (links.GetOr(1) <= 1 && measure.privateBytes.Some? ==>
        m.privateBytes == measure.privateBytes.value && m.unknown == 0)
      && (links.GetOr(1) <= 1 && measure.privateBytes.None? ==> m.privateBytes == 0 && m.unknown == 1))
  }

  /** A regular file given as a root costs one entry; its private bytes count only when it has no other link. */
  method ScanFileRoot(links: Option<nat>, measure: Measure, budget: nat) returns (report: RootReport, remaining: nat)
    ensures report.visited + remaining == budget
    ensures IsFileReport(links, measure, report)
    ensures report.complete <==> budget > 0
  {
    if budget == 0 {
      return RootReport(map[[] := Zero()], map[], false, 0, Some(BudgetExhaustion(0, 0, 0))), 0;
    }
    var private := if links.GetOr(1) > 1 then Some(0) else measure.privateBytes;
    var metrics := Weigh(measure.(privateBytes := private), true);
    report := RootReport(map[[] := metrics], map[], true, 1, None);
    remaining := budget - 1;
  }

  function Visits(reports: seq<RootReport>): nat {
    if reports == [] then 0 else Visits(reports[..|reports| - 1]) + reports[|reports| - 1].visited
  }

  lemma VisitsAppend(reports: seq<RootReport>, r: RootReport)
    ensures Visits(reports + [r]) == Visits(reports) + r.visited
  {
    assert (reports + [r])[..|reports + [r]| - 1] == reports;
  }

  /** Entries every one of n roots can count on. */
  function Guaranteed(limit: Option<nat>, maxEntries: nat, n: nat): nat
    requires n > 0
  {
    Min(limit.GetOr(maxEntries), Div(maxEntries, n))
  }

  lemma FloorKept(remaining: nat, floor: nat, k: nat)
    requires k > 0 && remaining >= floor * k
    ensures Div(remaining, k) >= floor
    ensures Div(remaining, k) * (k - 1) >= floor * (k - 1)
  {
    hide Div;
    Quotient(remaining, k);
    QuotientOrder(floor, Div(remaining, k), k, floor * k, remaining);
    MulMonotone(floor, Div(remaining, k), k - 1);
  }

  /** One root's share: enough for its guarantee, and the guarantee of the others stays covered. */
  lemma ShareCovers(remaining: nat, floor: nat, k: nat)
    requires 0 < k <= U64_MAX && floor * k <= remaining <= U64_MAX
    ensures floor <= Share(remaining, k) <= remaining
    ensures remaining - Share(remaining, k) >= floor * (k - 1)
  {
    hide Div, Share;
    ShareBounds(remaining, k);
    FloorKept(remaining, floor, k);
  }

  /** What is reported for one root. */
  ghost predicate Reported(root: Root, depth: nat, guaranteed: nat, report: RootReport)
    requires root.Directory? ==> root.world.Valid()
  {
    && root != Refused
    && (report.exhaustion.Some? ==> report.visited >= guaranteed)
    && (root.RegularFile? ==> IsFileReport(root.links, root.measure, report))
    && (root.Directory? ==>
      && Retains(root.world, depth, report) && MarksConsistent(report) && Faithful(root.world, report)
      && Accounted(root.world, report))
  }

  /** A complete scan visited every entry; any other was cut off or met errors. */
  ghost predicate Accounted(w: World, report: RootReport)
    requires w.Valid() && [] in report.aggregates
  {
    && report.visited <= |w.Entries()|
    && (report.complete ==> report.visited == |w.Entries()| && report.exhaustion.None?)
    && (!report.complete ==> report.exhaustion.Some? || report.aggregates[[]].errors > 0)
  }

  /** A root visits no more than its limit and its share of what the roots before it left. */
  predicate WithinOffer(visited: nat, limit: Option<nat>, left: int, sharers: nat) {
    && visited * sharers <= left + sharers - 1 && visited * sharers <= U64_MAX
    && (limit.Some? ==> visited <= limit.value)
  }

  /** It visits all of the limit, or all of the share. */
  predicate UsesOffer(visited: nat, limit: Option<nat>, left: int, sharers: nat) {
    limit == Some(visited) || IsShare(visited, left, sharers)
  }

  /** A root keeps to what it was offered, and is cut off only after using it up. */
  predicate OfferKept(report: RootReport, limit: Option<nat>, left: int, sharers: nat) {
    && WithinOffer(report.visited, limit, left, sharers)
    && (report.exhaustion.Some? ==> UsesOffer(report.visited, limit, left, sharers))
  }

  ghost predicate OfferKeptAt(limit: Option<nat>, maxEntries: nat, n: nat, reports: seq<RootReport>, i: nat)
    requires i < |reports| <= n
  {
    OfferKept(reports[i], limit, maxEntries - Visits(reports[..i]), n - i)
  }

  ghost predicate OffersKept(limit: Option<nat>, maxEntries: nat, n: nat, reports: seq<RootReport>)
    requires |reports| <= n
  {
    forall i | 0 <= i < |reports| :: OfferKeptAt(limit, maxEntries, n, reports, i)
  }

  lemma OfferMoreAt(limit: Option<nat>, maxEntries: nat, n: nat, reports: seq<RootReport>, r: RootReport, i: nat)
    requires i <= |reports| < n
    requires i < |reports| ==> OfferKeptAt(limit, maxEntries, n, reports, i)
    requires OfferKept(r, limit, maxEntries - Visits(reports), n - |reports|)
    ensures OfferKeptAt(limit, maxEntries, n, reports + [r], i)
  {
    hide Visits, OfferKept;
    assert (reports + [r])[..i] == reports[..i];
    if i == |reports| { assert reports[..i] == reports; }
  }

  lemma OfferMore(limit: Option<nat>, maxEntries: nat, n: nat, reports: seq<RootReport>, r: RootReport)
    requires |reports| < n && OffersKept(limit, maxEntries, n, reports)
    requires OfferKept(r, limit, maxEntries - Visits(reports), n - |reports|)
    ensures OffersKept(limit, maxEntries, n, reports + [r])
  {
    hide OfferKeptAt, OfferKept;
    forall i | 0 <= i <= |reports| ensures OfferKeptAt(limit, maxEntries, n, reports + [r], i) {
      OfferMoreAt(limit, maxEntries, n, reports, r, i);
    }
  }

  /** The budget of a root is its offer. */
  lemma BudgetIsOffer(limit: Option<nat>, left: nat, sharers: nat, visited: nat)
    requires 0 < sharers <= U64_MAX && left <= U64_MAX
    requires visited <= Min(limit.GetOr(Share(left, sharers)), Share(left, sharers))
    ensures WithinOffer(visited, limit, left, sharers)
    ensures visited == Min(limit.GetOr(Share(left, sharers)), Share(left, sharers)) ==>
              UsesOffer(visited, limit, left, sharers)
  {
    hide Share;
    ShareIsCeiling(left, sharers);
    MulMonotone(visited, Share(left, sharers), sharers);
  }

  method ScanOne(root: Root, depth: nat, budget: nat, ghost guaranteed: nat)
    returns (report: Option<RootReport>, remaining: nat)
    requires (root.Directory? ==> root.world.Valid()) && guaranteed <= budget <= U64_MAX
    ensures report.None? <==> root == Refused
    ensures report.Some? ==>
              report.value.visited + remaining == budget && Reported(root, depth, guaranteed, report.value)
    ensures report.Some? && report.value.exhaustion.Some? ==> remaining == 0
  {
    hide World.Valid, Faithful, MarksConsistent, World.Entries, IsFileReport;
    match root {
      case Refused =>
        return None, budget;
      case RegularFile(links, measure) =>
        var r;
        r, remaining := ScanFileRoot(links, measure, budget);
        FileCutOff(links, measure, r);
        report := Some(r);
      case Directory(w) =>
        var r;
        r, remaining := ScanRoot(w, depth, budget, MAX_OPEN_DIRECTORY_READERS, true);
        report := Some(r);
    }
  }

  lemma FileCutOff(links: Option<nat>, measure: Measure, report: RootReport)
    requires IsFileReport(links, measure, report)
    ensures report.complete <==> report.exhaustion.None?
  {
  }

  /**
   * None when a root is refused. Otherwise the roots together visit no more than the maximum. A root is offered its
   * limit, or if that is less its share of whatever the roots before it left, and is cut off only after using up what
   * it was offered, which is never less than its guarantee. When the last root is cut off, the maximum is spent or
   * its limit is.
   */
  method InventoryWithRootLimit(roots: seq<Root>, depth: nat, maxEntries: nat, limit: Option<nat>)
    returns (reports: Option<seq<RootReport>>)
    requires 0 < |roots| <= U64_MAX && 0 < maxEntries <= U64_MAX
    requires forall i | 0 <= i < |roots| && roots[i].Directory? :: roots[i].world.Valid()
    ensures reports.None? <==> Refused in roots
    ensures reports.Some? ==> |reports.value| == |roots| && Visits(reports.value) <= maxEntries
    ensures reports.Some? && limit.Some? ==> forall i | 0 <= i < |roots| :: reports.value[i].visited <= limit.value
    ensures reports.Some? ==> forall i | 0 <= i < |roots| ::
      Reported(roots[i], depth, Guaranteed(limit, maxEntries, |roots|), reports.value[i])
    ensures reports.Some? ==> OffersKept(limit, maxEntries, |roots|, reports.value)
    ensures reports.Some? && reports.value[|roots| - 1].exhaustion.Some? ==>
      Visits(reports.value) == maxEntries || limit == Some(reports.value[|roots| - 1].visited)
  {
    hide World.Valid, Reported, Share, Visits, Div, Guaranteed, Covered, OffersKept;
    var n := |roots|;
    ghost var floor, guaranteed := Div(maxEntries, n), Guaranteed(limit, maxEntries, n);
    var remaining: nat := maxEntries;
    var done: seq<RootReport> := [];
    CoveredAtFirst(maxEntries, n);
    NoVisits();
    NoOffers(limit, maxEntries, n);
    for i := 0 to n
      invariant |done| == i
      invariant Visits(done) + remaining == maxEntries
      invariant Covered(remaining, floor, n - i)
      invariant forall j | 0 <= j < i :: Reported(roots[j], depth, guaranteed, done[j])
      invariant forall j | 0 <= j < i :: roots[j] != Refused
      invariant limit.Some? ==> forall j | 0 <= j < i :: done[j].visited <= limit.value
      invariant OffersKept(limit, maxEntries, n, done)
    {
      var share := Share(remaining, n - i);
      var budget := Min(limit.GetOr(share), share);
      RootBudget(limit, maxEntries, n, remaining, n - i);
      var report, left := ScanOne(roots[i], depth, budget, guaranteed);
      if report.None? {
        assert roots[i] in roots;
        return None;
      }
      BudgetIsOffer(limit, remaining, n - i, report.value.visited);
      OfferMore(limit, maxEntries, n, done, report.value);
      VisitsAppend(done, report.value);
      done := done + [report.value];
      CoveredLess(maxEntries, n, remaining, n - i, budget, budget - left);
      remaining := remaining - (budget - left);
    }
    if done[n - 1].exhaustion.Some? { LastOffer(limit, maxEntries, n, done); }
    reports := Some(done);
  }

  lemma NoOffers(limit: Option<nat>, maxEntries: nat, n: nat)
    ensures OffersKept(limit, maxEntries, n, [])
  {
  }

  /** Nobody is left to share with the last root. */
  lemma LastOffer(limit: Option<nat>, maxEntries: nat, n: nat, reports: seq<RootReport>)
    requires |reports| == n > 0 && maxEntries <= U64_MAX && OffersKept(limit, maxEntries, n, reports)
    requires reports[n - 1].exhaustion.Some?
    ensures Visits(reports) == maxEntries || limit == Some(reports[n - 1].visited)
  {
    hide Visits;
    var last := reports[n - 1];
    assert reports == reports[..n - 1] + [last];
    VisitsAppend(reports[..n - 1], last);
    assert OfferKeptAt(limit, maxEntries, n, reports, n - 1);
  }

  lemma CoveredAtFirst(maxEntries: nat, n: nat)
    requires n > 0
    ensures Covered(maxEntries, Div(maxEntries, n), n)
  {
    hide Div;
    Quotient(maxEntries, n);
  }

  /** A root's budget holds its guarantee and leaves the others theirs. */
  lemma RootBudget(limit: Option<nat>, maxEntries: nat, n: nat, remaining: nat, left: nat)
    requires 0 < left <= n <= U64_MAX && remaining <= U64_MAX && Covered(remaining, Div(maxEntries, n), left)
    ensures var budget := Min(limit.GetOr(Share(remaining, left)), Share(remaining, left));
            && budget <= remaining && Guaranteed(limit, maxEntries, n) <= budget
            && Covered(remaining - budget, Div(maxEntries, n), left - 1)
    ensures remaining > 0 && limit.GetOr(1) > 0 ==> Min(limit.GetOr(Share(remaining, left)), Share(remaining, left)) > 0
  {
    hide Share, Div;
    ShareCovers(remaining, Div(maxEntries, n), left);
    ShareBounds(remaining, left);
  }

  lemma CoveredLess(maxEntries: nat, n: nat, remaining: nat, left: nat, budget: nat, visited: nat)
    requires n > 0 && left > 0 && visited <= budget <= remaining
    requires Covered(remaining - budget, Div(maxEntries, n), left - 1)
    ensures Covered(remaining - visited, Div(maxEntries, n), left - 1)
  {
  }

  lemma NoVisits()
    ensures Visits([]) == 0
  {
  }
}
