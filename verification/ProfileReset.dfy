// Execution of a Cargo profile sweep under the profile locks, with a crash possible at any change.

module ProfileReset {
  import opened Disks
  import opened Paths
  import opened ProfileSweep
  import opened Quarantines
  import opened Wrappers

  // ---- selection under the locks ----

  /**
   * What others did while the locks were awaited, and what the probes then found; `held` is None on a timeout or
   * error.
   */
  datatype Locked = Locked(held: Option<seq<Path>>, nodes: Nodes, survey: Survey, evidence: Evidence)

  function Filter(f: Candidate -> bool, candidates: seq<Candidate>): (kept: seq<Candidate>)
    ensures forall c :: c in kept <==> c in candidates && f(c)
    ensures |kept| <= |candidates|
  {
    if candidates == [] then []
    else if f(candidates[|candidates| - 1]) then
      Filter(f, candidates[..|candidates| - 1]) + [candidates[|candidates| - 1]]
    else Filter(f, candidates[..|candidates| - 1])
  }

  predicate RemainsStale(refreshed: seq<Candidate>, c: Candidate) {
    exists r | r in refreshed :: r.path == c.path && r.profile == c.profile && r.action == Delete
  }

  predicate AllApart(candidates: seq<Candidate>) {
    forall i, j | 0 <= i < j < |candidates| :: Incomparable(candidates[i].path, candidates[j].path)
  }

  lemma {:induction false} FilterApart(f: Candidate -> bool, candidates: seq<Candidate>)
    requires forall i, j | 0 <= i < j < |candidates| && f(candidates[i]) && f(candidates[j]) ::
        Incomparable(candidates[i].path, candidates[j].path)
    ensures AllApart(Filter(f, candidates))
  {
    if candidates != [] {
      var front := candidates[..|candidates| - 1];
      var last := candidates[|candidates| - 1];
      FilterApart(f, front);
      forall c | c in Filter(f, front) && f(last) ensures Incomparable(c.path, last.path) {
        var i :| 0 <= i < |front| && front[i] == c;
        assert candidates[i] == c;
      }
    }
  }

  function PlannedTest(nodes: Nodes): Candidate -> bool {
    (c: Candidate) => c.action == Delete && c.profile.Some? && c.path in nodes
  }

  function StaleTest(refreshed: seq<Candidate>): Candidate -> bool {
    (c: Candidate) => RemainsStale(refreshed, c)
  }

  function ClosedTest(open: set<Path>): Candidate -> bool {
    (c: Candidate) => c.path !in open
  }

  function EligibleTest(refreshed: seq<Candidate>, evidence: Evidence, held: seq<Path>, self: nat): Candidate -> bool {
    (c: Candidate) => evidence.complete && RemainsStale(refreshed, c) && Unowned(evidence, held, self, c.path)
  }

  /** The planned profiles that the refreshed plan still offers and nothing but the sweeper's locks keeps open. */
  method SelectEligible(planned: seq<Candidate>, refreshed: seq<Candidate>, evidence: Evidence, held: seq<Path>,
      self: nat)
    returns (eligible: seq<Candidate>)
    ensures eligible == Filter(EligibleTest(refreshed, evidence, held, self), planned)
  {
    hide Unowned, RemainsStale;
    var stale: seq<Candidate> := [];
    for i := 0 to |planned|
      invariant stale == Filter(StaleTest(refreshed), planned[..i])
    {
      assert planned[..i + 1][..i] == planned[..i];
      if RemainsStale(refreshed, planned[i]) { stale := stale + [planned[i]]; }
    }
    assert planned[..|planned|] == planned;
    var open := OpenProfiles(evidence, held, self);
    if stale == [] || open.None? {
      NoneEligible(planned, refreshed, evidence, held, self);
      return [];
    }
    eligible := [];
    for i := 0 to |stale|
      invariant eligible == Filter(ClosedTest(open.value), stale[..i])
    {
      assert stale[..i + 1][..i] == stale[..i];
      if stale[i].path !in open.value { eligible := eligible + [stale[i]]; }
    }
    assert stale[..|stale|] == stale;
    FilterTwice(planned, refreshed, evidence, held, self, open.value);
  }

  lemma {:induction false} FilterTwice(planned: seq<Candidate>, refreshed: seq<Candidate>, evidence: Evidence,
      held: seq<Path>, self: nat, open: set<Path>)
    requires OpenProfiles(evidence, held, self) == Some(open)
    ensures Filter(ClosedTest(open), Filter(StaleTest(refreshed), planned))
         == Filter(EligibleTest(refreshed, evidence, held, self), planned)
  {
    if planned != [] {
      FilterTwice(planned[..|planned| - 1], refreshed, evidence, held, self, open);
      var last := planned[|planned| - 1];
      var inner := Filter(StaleTest(refreshed), planned[..|planned| - 1]);
      assert (inner + [last])[..|inner|] == inner;
    }
  }

  lemma {:induction false} NoneEligible(planned: seq<Candidate>, refreshed: seq<Candidate>, evidence: Evidence,
      held: seq<Path>, self: nat)
    requires Filter(StaleTest(refreshed), planned) == [] || !evidence.complete
    ensures Filter(EligibleTest(refreshed, evidence, held, self), planned) == []
  {
    if planned != [] {
      NoneEligible(planned[..|planned| - 1], refreshed, evidence, held, self);
    }
  }

  // ---- the whole execution ----

  /** Why a profile was moved: planned, stale again by the survey taken under the locks, and used by nobody else. */
  ghost predicate Justified(m: Move, candidates: seq<Candidate>, target: Path, days: nat, locked: Locked, self: nat) {
    && locked.held.Some? && locked.evidence.complete
    && (exists c | c in candidates :: c.action == Delete && c.path == m.source)
    && (exists profile, triple :: StaleProfile(locked.nodes, target, locked.survey, days, m.source, profile, triple))
    && Unowned(locked.evidence, locked.held.value, self, m.source)
  }

  lemma StaleIsApart(nodes: Nodes, target: Path, survey: Survey, days: nat, path: Path, profile: string,
      triple: Option<string>)
    requires StaleProfile(nodes, target, survey, days, path, profile, triple)
    ensures Incomparable(path, TrashRoot(target))
  {
    assert path[|target|] != TRASH;
    assert TrashRoot(target)[|target|] == TRASH;
  }

  lemma RemnantsOf(base: Nodes, mid: Nodes, after: Nodes, trash: Path, moved: seq<Move>)
    requires AllCarried(base, mid, moved) && KeptOutside(base, mid, trash, moved) && Eroded(mid, after, trash)
    ensures KeptOutside(base, after, trash, moved)
    ensures forall i | 0 <= i < |moved| :: Remnant(base, after, moved[i])
  {
    forall p | !Above(trash, p) ensures Kept(base, after, moved, p) {
      assert Kept(base, mid, moved, p) && SameAt(mid, after, p);
    }
    forall i | 0 <= i < |moved| ensures Remnant(base, after, moved[i]) {
      assert CarriedTo(base, mid, moved[i]);
      forall q | Above(moved[i].target, q) && q in after
        ensures Rebased(moved[i].target, moved[i].source, q) in base
        ensures after[q] == base[Rebased(moved[i].target, moved[i].source, q)]
      {
        assert MovedTo(base, mid, moved[i].source, moved[i].target, q);
      }
    }
  }

  lemma EligibleOne(refreshed: seq<Candidate>, target: Path, days: nat, locked: Locked, c: Candidate)
    requires OffersOnlyStale(refreshed, locked.nodes, target, locked.survey, days) && RemainsStale(refreshed, c)
    ensures Incomparable(c.path, TrashRoot(target))
    ensures exists profile, triple :: StaleProfile(locked.nodes, target, locked.survey, days, c.path, profile, triple)
  {
    hide StaleProfile, Incomparable;
    var r :| r in refreshed && r.path == c.path && r.profile == c.profile && r.action == Delete;
    StaleIsApart(locked.nodes, target, locked.survey, days, r.path, r.profile.value, r.triple);
    assert StaleProfile(locked.nodes, target, locked.survey, days, c.path, r.profile.value, r.triple);
  }

  lemma EligibleApart(planned: seq<Candidate>, refreshed: seq<Candidate>, target: Path, days: nat, locked: Locked,
      self: nat, eligible: seq<Candidate>)
    requires AllApart(planned) && locked.held.Some? && forall c | c in planned :: c.profile.Some?
    requires OffersOnlyStale(refreshed, locked.nodes, target, locked.survey, days)
    requires eligible == Filter(EligibleTest(refreshed, locked.evidence, locked.held.value, self), planned)
    ensures PathsApart(eligible, TrashRoot(target))
    ensures forall c | c in eligible :: exists profile, triple ::
              StaleProfile(locked.nodes, target, locked.survey, days, c.path, profile, triple)
  {
    hide StaleProfile, Incomparable, OffersOnlyStale, RemainsStale, Unowned, Filter;
    FilterApart(EligibleTest(refreshed, locked.evidence, locked.held.value, self), planned);
    forall c | c in eligible
      ensures Incomparable(c.path, TrashRoot(target))
      ensures exists profile, triple :: StaleProfile(locked.nodes, target, locked.survey, days, c.path, profile, triple)
    {
      EligibleOne(refreshed, target, days, locked, c);
    }
    assert forall i | 0 <= i < |eligible| :: eligible[i] in eligible;
  }

  /** A planned profile that nothing keeps from being reset. */
  ghost predicate Resettable(c: Candidate, target: Path, days: nat, locked: Locked, self: nat) {
    && c.action == Delete && c.profile.Some? && locked.held.Some? && locked.evidence.complete
    && (exists triple :: StaleProfile(locked.nodes, target, locked.survey, days, c.path, c.profile.value, triple))
    && Unowned(locked.evidence, locked.held.value, self, c.path)
  }

  predicate IsMoved(moved: seq<Move>, path: Path) {
    exists m | m in moved :: m.source == path
  }

  lemma ResettableIsPlanned(before: Nodes, recovered: Nodes, candidates: seq<Candidate>, target: Path, days: nat,
      locked: Locked, self: nat)
    requires Eroded(before, recovered, TrashRoot(target))
    ensures forall c | c in candidates && c.path in before && Resettable(c, target, days, locked, self) ::
              c in Filter(PlannedTest(recovered), candidates)
  {
    hide StaleProfile;
    forall c | c in candidates && c.path in before
      && Resettable(c, target, days, locked, self)
      ensures c.path in recovered
    {
      var triple :| StaleProfile(locked.nodes, target, locked.survey, days, c.path, c.profile.value, triple);
      StaleIsApart(locked.nodes, target, locked.survey, days, c.path, c.profile.value, triple);
      assert SameAt(before, recovered, c.path);
    }
  }

  lemma ResettableIsMoved(planned: seq<Candidate>, refreshed: seq<Candidate>, target: Path, run: string, days: nat,
      locked: Locked, self: nat, eligible: seq<Candidate>, moved: seq<Move>)
    requires locked.held.Some? && OffersEveryStale(refreshed, locked.nodes, target, locked.survey, days)
    requires eligible == Filter(EligibleTest(refreshed, locked.evidence, locked.held.value, self), planned)
    requires MovesOk(target, run, moved, eligible) && |moved| == |eligible|
    ensures forall c | c in planned && Resettable(c, target, days, locked, self) :: IsMoved(moved, c.path)
  {
    hide StaleProfile;
    forall c | c in planned && Resettable(c, target, days, locked, self) ensures IsMoved(moved, c.path) {
      var triple :| StaleProfile(locked.nodes, target, locked.survey, days, c.path, c.profile.value, triple);
      assert Candidate(c.path, c.profile, triple, Delete) in refreshed;
      assert EligibleTest(refreshed, locked.evidence, locked.held.value, self)(c);
      var i :| 0 <= i < |eligible| && eligible[i] == c;
      assert moved[i] in moved;
    }
  }

  /**
   * The plan can be carried out as it stands: its trash entries and profiles are where it says, others made no trash.
   */
  ghost predicate Smooth(nodes: Nodes, target: Path, candidates: seq<Candidate>, days: nat, locked: Locked)
    requires Lists(locked.nodes, target, locked.survey)
  {
    && !StrangeTrash(nodes, TrashRoot(target), candidates) && RecoversAll(candidates, nodes, TrashRoot(target))
    && NothingAt(locked.nodes, TrashRoot(target)) && !ProfileRefused(locked.nodes, target, locked.survey)
    && forall c | c in candidates && c.action == Delete && c.profile.Some? ::
      Located(target, c.path, c.profile.value, c.triple)
  }

  /** Enough changes for removing every node, twice over, and for every move. */
  predicate Uninterrupted(reserve: int, target: Path, n: nat, locked: Locked) {
    reserve > |locked.nodes| + Cost(n, target)
  }

  /**
   * Execution of a sweep plan. However it ends, nothing outside the trash is gone but profiles moved whole,
   * each for a reason established under the locks. Uninterrupted, a plan that can be carried out leaves no trash,
   * even when the locks were not to be had, and with the locks it succeeds.
   */
  method ExecuteReset(d: Disk, target: Path, candidates: seq<Candidate>, days: nat, run: string, locked: Locked,
      self: nat)
    returns (ok: bool, moved: seq<Move>, ghost base: Nodes)
    requires d.Valid() && Tree(locked.nodes) && Lists(locked.nodes, target, locked.survey)
    requires DeletesApart(candidates)
    modifies d
    ensures d.Valid()
    ensures base == locked.nodes || (moved == [] && Eroded(old(d.nodes), base, TrashRoot(target)))
    ensures KeptOutside(base, d.nodes, TrashRoot(target), moved)
    ensures forall i | 0 <= i < |moved| :: Remnant(base, d.nodes, moved[i])
    ensures forall i | 0 <= i < |moved| ::
              moved[i].source in old(d.nodes) && Justified(moved[i], candidates, target, days, locked, self)
    ensures ok ==> AllMoved(moved, candidates, old(d.nodes), target, days, locked, self)
    ensures ok && RecoversAll(candidates, old(d.nodes), TrashRoot(target))
              && NothingAt(locked.nodes, TrashRoot(target)) ==>
              NothingAt(d.nodes, TrashRoot(target))
    ensures (Smooth(old(d.nodes), target, candidates, days, locked)
             && Uninterrupted(old(d.Reserve()), target, |candidates|, locked)) ==>
              NothingAt(d.nodes, TrashRoot(target)) && (locked.held.Some? ==> ok)
  {
    hide KeptOutside, Eroded, NothingAt, Tree, Remnant, Lists, AllApart, RecoversAll, Justified, AllMoved, Smooth,
      SmoothUnderLocks, StrangeTrash, Cost, DeletesApart;
    var trash := TrashRoot(target);
    ghost var smooth := Smooth(old(d.nodes), target, candidates, days, locked);
    if smooth { SmoothParts(d.nodes, target, candidates, days, locked); }
    ok := RecoverTrashEntries(d, trash, candidates);
    moved, base := [], d.nodes;
    KeptAtFirst(base, trash);
    if !ok { return; }
    var recovered := d.nodes;
    var planned := Filter(PlannedTest(recovered), candidates);
    CostGrows(|planned|, |candidates|, target);
    if planned == [] {
      PlannedMoved(old(d.nodes), recovered, candidates, target, days, locked, self, planned, moved);
      return;
    }
    if locked.held.None? { return false, moved, base; }
    PlannedApart(candidates, recovered);
    d.nodes, base := locked.nodes, locked.nodes;
    ok, moved := ResetUnderLocks(d, target, planned, days, run, locked, self);
    PlannedMoved(old(d.nodes), recovered, candidates, target, days, locked, self, planned, moved);
    if smooth { SmoothPlanned(old(d.nodes), recovered, target, candidates, days, locked, planned); }
  }

  lemma SmoothParts(nodes: Nodes, target: Path, candidates: seq<Candidate>, days: nat, locked: Locked)
    requires Lists(locked.nodes, target, locked.survey) && Smooth(nodes, target, candidates, days, locked)
    ensures !StrangeTrash(nodes, TrashRoot(target), candidates) && RecoversAll(candidates, nodes, TrashRoot(target))
    ensures NothingAt(locked.nodes, TrashRoot(target))
  {
  }

  lemma SmoothPlanned(nodes: Nodes, recovered: Nodes, target: Path, candidates: seq<Candidate>, days: nat,
      locked: Locked, planned: seq<Candidate>)
    requires Lists(locked.nodes, target, locked.survey) && Smooth(nodes, target, candidates, days, locked)
    requires planned == Filter(PlannedTest(recovered), candidates)
    ensures SmoothUnderLocks(target, planned, days, locked)
  {
    hide Located, NothingAt, ProfileRefused;
  }

  lemma PlannedApart(candidates: seq<Candidate>, recovered: Nodes)
    requires DeletesApart(candidates)
    ensures AllApart(Filter(PlannedTest(recovered), candidates))
  {
    FilterApart(PlannedTest(recovered), candidates);
  }

  /** What holds of the planned profiles holds of the candidates. */
  lemma PlannedMoved(before: Nodes, recovered: Nodes, candidates: seq<Candidate>, target: Path, days: nat,
      locked: Locked, self: nat, planned: seq<Candidate>, moved: seq<Move>)
    requires Eroded(before, recovered, TrashRoot(target)) && planned == Filter(PlannedTest(recovered), candidates)
    ensures (forall c | c in planned && Resettable(c, target, days, locked, self) :: IsMoved(moved, c.path)) ==>
              AllMoved(moved, candidates, before, target, days, locked, self)
    ensures forall i | 0 <= i < |moved| && Justified(moved[i], planned, target, days, locked, self) ::
              moved[i].source in before && Justified(moved[i], candidates, target, days, locked, self)
  {
    hide Resettable, IsMoved, StaleProfile, Unowned;
    ResettableIsPlanned(before, recovered, candidates, target, days, locked, self);
  }

  /** Every candidate that nothing keeps from being reset was moved. */
  ghost predicate AllMoved(moved: seq<Move>, candidates: seq<Candidate>, before: Nodes, target: Path, days: nat,
      locked: Locked, self: nat)
  {
    forall c | c in candidates && c.path in before && Resettable(c, target, days, locked, self) ::
      IsMoved(moved, c.path)
  }

  ghost predicate SmoothUnderLocks(target: Path, planned: seq<Candidate>, days: nat, locked: Locked)
    requires Lists(locked.nodes, target, locked.survey)
  {
    && NothingAt(locked.nodes, TrashRoot(target)) && !ProfileRefused(locked.nodes, target, locked.survey)
    && forall c | c in planned :: c.profile.Some? && Located(target, c.path, c.profile.value, c.triple)
  }

  /** Re-plan, select, quarantine under the locks, and discard after their release. */
  method ResetUnderLocks(d: Disk, target: Path, planned: seq<Candidate>, days: nat, run: string, locked: Locked,
      self: nat)
    returns (ok: bool, moved: seq<Move>)
    requires d.Valid() && d.nodes == locked.nodes && Lists(locked.nodes, target, locked.survey) && locked.held.Some?
    requires AllApart(planned) && forall c | c in planned :: c.action == Delete && c.profile.Some?
    modifies d
    ensures d.Valid() && d.Reserve() >= old(d.Reserve()) - Cost(|planned|, target)
    ensures KeptOutside(locked.nodes, d.nodes, TrashRoot(target), moved)
    ensures forall i | 0 <= i < |moved| :: Remnant(locked.nodes, d.nodes, moved[i])
    ensures forall i | 0 <= i < |moved| :: Justified(moved[i], planned, target, days, locked, self)
    ensures ok ==> forall c | c in planned && Resettable(c, target, days, locked, self) :: IsMoved(moved, c.path)
    ensures ok && NothingAt(locked.nodes, TrashRoot(target)) ==> NothingAt(d.nodes, TrashRoot(target))
    ensures !ok ==> d.fuel == 0 || !SmoothUnderLocks(target, planned, days, locked)
  {
    hide KeptOutside, AllCarried, Eroded, NothingAt, Tree, Remnant, Lists, AllApart, Resettable, IsMoved,
      OffersOnlyStale, OffersEveryStale, Justified, SmoothUnderLocks, Unhindered, SourcesPresent, PathsApart, MovesOk,
      TrashIs, TrashRefused, ProfileRefused, Walkable, Cost;
    var trash := TrashRoot(target);
    ghost var base := d.nodes;
    moved := [];
    KeptAtFirst(base, trash);
    NoTrashNoRefusal(target, planned, days, locked);
    var refreshed := PlanProfiles(d.nodes, target, locked.survey, days);
    if refreshed.None? { return false, moved; }
    var eligible := SelectEligible(planned, refreshed.value, locked.evidence, locked.held.value, self);
    EligibleApart(planned, refreshed.value, target, days, locked, self, eligible);
    EligibleUnhindered(planned, refreshed.value, target, days, locked, self, eligible);
    CostGrows(|eligible|, |planned|, target);
    ok, moved := Quarantine(d, target, run, eligible);
    AllJustified(moved, eligible, planned, refreshed.value, planned, target, run, days, locked, self);
    ErodedRefl(d.nodes, trash);
    RemnantsOf(base, d.nodes, d.nodes, trash, moved);
    if !ok { return; }
    ResettableIsMoved(planned, refreshed.value, target, run, days, locked, self, eligible, moved);
    ghost var mid := d.nodes;
    TargetsInTrash(target, run, moved, eligible);
    AllWalkable(base, mid, trash, moved);
    ok := Discard(d, trash, moved);
    RemnantsOf(base, mid, d.nodes, trash, moved);
  }

  lemma NoTrashNoRefusal(target: Path, planned: seq<Candidate>, days: nat, locked: Locked)
    requires Lists(locked.nodes, target, locked.survey)
    ensures SmoothUnderLocks(target, planned, days, locked) ==>
              !TrashRefused(locked.nodes, target, locked.survey)
                && !ProfileRefused(locked.nodes, target, locked.survey)
  {
    hide ProfileRefused, Lists;
  }

  lemma EligibleUnhindered(planned: seq<Candidate>, refreshed: seq<Candidate>, target: Path, days: nat, locked: Locked,
      self: nat, eligible: seq<Candidate>)
    requires Tree(locked.nodes) && Lists(locked.nodes, target, locked.survey) && locked.held.Some?
    requires eligible == Filter(EligibleTest(refreshed, locked.evidence, locked.held.value, self), planned)
    requires forall c | c in eligible :: exists profile, triple ::
              StaleProfile(locked.nodes, target, locked.survey, days, c.path, profile, triple)
    ensures SmoothUnderLocks(target, planned, days, locked) ==> Unhindered(locked.nodes, target, eligible)
  {
    hide Located, ProfileRefused, NothingAt, Lists, Tree, RemainsStale, Unowned, StaleProfile;
    forall i | 0 <= i < |eligible| ensures eligible[i] in planned && IsDir(locked.nodes, eligible[i].path) {
      var c := eligible[i];
      assert c in eligible;
      var profile, triple :| StaleProfile(locked.nodes, target, locked.survey, days, c.path, profile, triple);
      StaleIsDir(locked.nodes, target, locked.survey, days, c.path, profile, triple);
    }
  }

  lemma StaleIsDir(nodes: Nodes, target: Path, survey: Survey, days: nat, path: Path, profile: string,
      triple: Option<string>)
    requires Tree(nodes) && StaleProfile(nodes, target, survey, days, path, profile, triple)
    ensures IsDir(nodes, path)
  {
    ParentChild(path, LOCK);
    assert Attached(nodes, path + [LOCK]);
  }

  lemma TargetsInTrash(target: Path, run: string, moved: seq<Move>, eligible: seq<Candidate>)
    requires MovesOk(target, run, moved, eligible)
    ensures forall i | 0 <= i < |moved| ::
              Above(TrashRoot(target), moved[i].target) && moved[i].target != TrashRoot(target)
  {
  }

  lemma AllWalkable(base: Nodes, mid: Nodes, trash: Path, moved: seq<Move>)
    requires Tree(mid) && AllCarried(base, mid, moved) && SourcesPresent(base, moved)
    ensures forall i | 0 <= i < |moved| :: Walkable(mid, trash, moved[i].target)
  {
    hide AllCarried, SourcesPresent, Tree;
    forall i | 0 <= i < |moved| ensures Walkable(mid, trash, moved[i].target) {
      TargetPresentAt(base, mid, moved, i);
    }
  }

  predicate DeletesApart(candidates: seq<Candidate>) {
    forall i, j | 0 <= i < j < |candidates| && candidates[i].action == Delete && candidates[j].action == Delete ::
      Incomparable(candidates[i].path, candidates[j].path)
  }

  lemma AllJustified(moved: seq<Move>, eligible: seq<Candidate>, planned: seq<Candidate>, refreshed: seq<Candidate>,
      candidates: seq<Candidate>, target: Path, run: string, days: nat, locked: Locked, self: nat)
    requires locked.held.Some? && MovesOk(target, run, moved, eligible)
    requires forall c | c in planned :: c in candidates && c.action == Delete
    requires eligible == Filter(EligibleTest(refreshed, locked.evidence, locked.held.value, self), planned)
    requires forall c | c in eligible :: exists profile, triple ::
              StaleProfile(locked.nodes, target, locked.survey, days, c.path, profile, triple)
    ensures forall i | 0 <= i < |moved| :: Justified(moved[i], candidates, target, days, locked, self)
  {
    hide StaleProfile, Located;
    forall i | 0 <= i < |moved| ensures Justified(moved[i], candidates, target, days, locked, self) {
      assert eligible[i] in eligible;
    }
  }

  /** Under a window of a day or more, with unlocked profiles fresh, every moved profile's own lock was held. */
  lemma OwnLockHeld(m: Move, candidates: seq<Candidate>, target: Path, days: nat, locked: Locked, self: nat)
    requires Justified(m, candidates, target, days, locked, self) && days >= 1
    requires forall p | p + [LOCK] in locked.nodes && p + [LOCK] !in locked.held.value
              && p in locked.survey.samples && locked.survey.samples[p].Newest? ::
               locked.survey.now - locked.survey.samples[p].unix < 86_400
    ensures m.source + [LOCK] in locked.held.value
  {
    var profile, triple :| StaleProfile(locked.nodes, target, locked.survey, days, m.source, profile, triple);
  }

  /** No directory outside the trash is ever partly deleted where it stood, unless a profile lies inside it. */
  lemma WholeOrGone(base: Nodes, nodes: Nodes, trash: Path, moved: seq<Move>, p: Path)
    requires KeptOutside(base, nodes, trash, moved) && Incomparable(p, trash)
    requires forall i | 0 <= i < |moved| :: moved[i].source == p || !Above(p, moved[i].source)
    ensures NothingAt(nodes, p) || forall q | Above(p, q) :: SameAt(base, nodes, q)
  {
    forall q | Above(p, q) ensures Kept(base, nodes, moved, q) && (Taken(moved, q) <==> Taken(moved, p)) {
      Apart(p, trash, q);
      assert Kept(base, nodes, moved, q);
      if Taken(moved, p) {
        var i :| 0 <= i < |moved| && Above(moved[i].source, p);
        assert Above(moved[i].source, q);
      }
      if Taken(moved, q) {
        var i :| 0 <= i < |moved| && Above(moved[i].source, q);
        PrefixesComparable(p, moved[i].source, q);
      }
    }
  }

  // ---- planning and executing one pass ----

  /** No target triple is named like an output directory, so no profile lies inside another. */
  ghost predicate NoNesting(nodes: Nodes, target: Path, survey: Survey, days: nat) {
    forall p, profile, triple | StaleProfile(nodes, target, survey, days, p, profile, triple) && triple.Some? ::
      ProfileOf(triple.value).None?
  }

  lemma PlanApart(plan: seq<Candidate>, nodes: Nodes, target: Path, survey: Survey, days: nat)
    requires OffersOnlyStale(plan, nodes, target, survey, days) && DeletesDistinct(plan)
    requires NoNesting(nodes, target, survey, days)
    ensures DeletesApart(plan)
  {
    forall i, j | 0 <= i < j < |plan| && plan[i].action == Delete && plan[j].action == Delete
      ensures Incomparable(plan[i].path, plan[j].path)
    {
      var a, b := plan[i], plan[j];
      assert a in plan && b in plan;
      assert StaleProfile(nodes, target, survey, days, a.path, a.profile.value, a.triple);
      assert StaleProfile(nodes, target, survey, days, b.path, b.profile.value, b.triple);
      StalePathsApart(target, a, b);
      StalePathsApart(target, b, a);
    }
  }

  lemma StalePathsApart(target: Path, a: Candidate, b: Candidate)
    requires a.profile.Some? && Located(target, a.path, a.profile.value, a.triple)
    requires b.profile.Some? && Located(target, b.path, b.profile.value, b.triple)
    requires b.triple.Some? ==> ProfileOf(b.triple.value).None?
    requires a.path != b.path
    ensures !Above(a.path, b.path)
  {
    assert b.triple.Some? ==> b.path[|target|] == b.triple.value;
    assert a.triple.None? ==> a.path[|target|] == OutputOf(a.profile.value).value;
  }

  /**
   * One pass: a plan of the disk as it is, and its execution. Whatever is moved was planned as stale, and stale
   * again and used by nobody else under the locks; when the pass succeeds every such profile is moved. Uninterrupted,
   * with profiles that can be read and no trash made by others, it leaves no trash, whatever earlier runs left and
   * even when the lock wait times out; with the locks it succeeds.
   */
  method SweepOnce(d: Disk, target: Path, survey: Survey, days: nat, run: string, locked: Locked, self: nat)
    returns (ok: bool, moved: seq<Move>, ghost planned: seq<Candidate>, ghost base: Nodes)
    requires d.Valid() && Lists(d.nodes, target, survey) && NoNesting(d.nodes, target, survey, days)
    requires Tree(locked.nodes) && Lists(locked.nodes, target, locked.survey)
    modifies d
    ensures d.Valid()
    ensures base == locked.nodes || (moved == [] && Eroded(old(d.nodes), base, TrashRoot(target)))
    ensures KeptOutside(base, d.nodes, TrashRoot(target), moved)
    ensures forall i | 0 <= i < |moved| :: Remnant(base, d.nodes, moved[i])
    ensures OffersOnlyStale(planned, old(d.nodes), target, survey, days)
    ensures forall i | 0 <= i < |moved| :: Justified(moved[i], planned, target, days, locked, self)
    ensures ok ==> OffersEveryStale(planned, old(d.nodes), target, survey, days)
    ensures ok ==> AllMoved(moved, planned, old(d.nodes), target, days, locked, self)
    ensures ok && NothingAt(locked.nodes, TrashRoot(target)) ==> NothingAt(d.nodes, TrashRoot(target))
    ensures (Readable(old(d.nodes), target, survey, days)
             && Readable(locked.nodes, target, locked.survey, days)
             && NothingAt(locked.nodes, TrashRoot(target))
             && Uninterrupted(old(d.Reserve()), target, |survey.trash| + |survey.walk|, locked)) ==>
              NothingAt(d.nodes, TrashRoot(target)) && (locked.held.Some? ==> ok)
  {
    hide KeptOutside, Eroded, NothingAt, Tree, Remnant, Lists, RecoversAll, NoNesting, OffersOnlyStale,
      OffersEveryStale, DeletesApart, Smooth, TrashRefused, ProfileRefused, Cost, AllMoved, Justified;
    NothingOffered(d.nodes, target, survey, days);
    var plan := PlanProfiles(d.nodes, target, survey, days);
    if plan.None? {
      KeptAtFirst(d.nodes, TrashRoot(target));
      ErodedRefl(d.nodes, TrashRoot(target));
      return false, [], [], d.nodes;
    }
    planned := plan.value;
    PlanApart(plan.value, d.nodes, target, survey, days);
    CostGrows(|plan.value|, |survey.trash| + |survey.walk|, target);
    PlanIsSmooth(plan.value, d.nodes, target, survey, days, locked);
    ok, moved, base := ExecuteReset(d, target, plan.value, days, run, locked, self);
  }

  lemma NothingOffered(nodes: Nodes, target: Path, survey: Survey, days: nat)
    ensures OffersOnlyStale([], nodes, target, survey, days)
  {
  }

  /** The trash is a directory of files and directories, if it is there, and every profile can be sampled. */
  ghost predicate Readable(nodes: Nodes, target: Path, survey: Survey, days: nat)
    requires Lists(nodes, target, survey)
  {
    !TrashRefused(nodes, target, survey) && !ProfileRefused(nodes, target, survey)
  }

  lemma PlanIsSmooth(plan: seq<Candidate>, nodes: Nodes, target: Path, survey: Survey, days: nat, locked: Locked)
    requires Lists(nodes, target, survey) && Lists(locked.nodes, target, locked.survey)
    requires OffersOnlyStale(plan, nodes, target, survey, days) && RecoversAll(plan, nodes, TrashRoot(target))
    requires forall c | c in plan && c.action == RecoverTrash :: c.path in survey.trash
    ensures (Readable(nodes, target, survey, days)
             && Readable(locked.nodes, target, locked.survey, days)
             && NothingAt(locked.nodes, TrashRoot(target))) ==> Smooth(nodes, target, plan, days, locked)
  {
    hide RecoversAll, NothingAt, ProfileRefused;
  }
}
