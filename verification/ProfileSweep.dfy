// The Cargo profile sweep: recover trash left by interrupted runs, re-plan under the profile locks,
// rename stale profiles into the trash, and delete them once the locks are released. Every change of the
// disk may be the last one before a crash.

module ProfileSweep {
  import opened Disks
  import opened Paths
  import opened Wrappers

  import Retained

  const TRASH: string := ".worktree-gc-trash"
  const LOCK: string := ".cargo-lock"
  const SECONDS_PER_DAY: nat := 86400

  datatype Action = Delete | Keep | RecoverTrash | Skip

  datatype Candidate = Candidate(path: Path, profile: Option<string>, triple: Option<string>, action: Action)

  /** Newest modification time sampled in a profile directory. */
  datatype Sample = Newest(unix: int) | NoActivity | Unreadable

  /** What one planning pass reads: directory walks in some order, activity samples and the clock. */
  datatype Survey = Survey(trash: seq<Path>, walk: seq<Path>, samples: map<Path, Sample>, now: int)

  datatype EvidenceKind = OpenFile | OtherHandle

  datatype Observation = Observation(pid: Option<nat>, kind: EvidenceKind, observed: Path, matched: Path)

  datatype Evidence = Evidence(complete: bool, observations: seq<Observation>)

  datatype Move = Move(source: Path, target: Path)

  // ---- planning ----

  function TrashRoot(target: Path): Path {
    target + [TRASH]
  }

  /** The profile built into a directory of this name; custom names cannot be mapped. */
  function ProfileOf(output: string): Option<string> {
    if output == "debug" then Some("dev") else if output == "release" then Some("release") else None
  }

  function OutputOf(profile: string): Option<string> {
    if profile == "dev" then Some("debug") else if profile == "release" then Some("release") else None
  }

  function AgeInDays(now: int, unix: int): nat {
    if now < unix then 0 else (now - unix) / SECONDS_PER_DAY
  }

  /** That many days of 86400 seconds have passed; a window of no days lets everything pass. */
  predicate OldEnough(now: int, unix: int, days: nat) {
    days > 0 ==> now - unix >= days * 86_400
  }

  /** The age in whole days, rounded down, reaches the window exactly when that much time has passed. */
  lemma AgeReachesWindow(now: int, unix: int, days: nat)
    ensures AgeInDays(now, unix) >= days <==> OldEnough(now, unix, days)
  {
  }

  function SampleOf(survey: Survey, path: Path): Sample {
    if path in survey.samples then survey.samples[path] else NoActivity
  }

  /** The profile directory `path` is a triple and an output name, or an output name, below the target directory. */
  predicate Located(target: Path, path: Path, profile: string, triple: Option<string>) {
    && OutputOf(profile).Some?
    && path == target + (if triple.Some? then [triple.value] else []) + [OutputOf(profile).value]
  }

  /** A supported profile directory, marked by a real lock file. */
  predicate IsProfile(nodes: Nodes, target: Path, path: Path, profile: string, triple: Option<string>) {
    && Located(target, path, profile, triple) && triple != Some(TRASH)
    && path + [LOCK] in nodes && nodes[path + [LOCK]].File?
  }

  /** A profile whose newest sampled activity is as old as the window is long. */
  predicate StaleProfile(nodes: Nodes, target: Path, survey: Survey, days: nat, path: Path, profile: string,
      triple: Option<string>)
  {
    && IsProfile(nodes, target, path, profile, triple)
    && path in survey.samples && survey.samples[path].Newest?
    && OldEnough(survey.now, survey.samples[path].unix, days)
  }

  /** The walks list what is on the disk, in any order. */
  ghost predicate Lists(nodes: Nodes, target: Path, survey: Survey) {
    && (forall p :: p in survey.trash <==> p in nodes && p != [] && Parent(p) == TrashRoot(target))
    && (forall p :: p in survey.walk <==> p in nodes && Above(target, p) && 2 <= |p| - |target| <= 3)
    && (forall i, j | 0 <= i < j < |survey.walk| :: survey.walk[i] != survey.walk[j])
  }

  datatype Verdict = Ignored | Refused | Planned(candidate: Candidate)

  /** One walked entry. */
  function Judge(nodes: Nodes, target: Path, survey: Survey, days: nat, entry: Path): Verdict
    requires entry in nodes && Above(target, entry) && 2 <= |entry| - |target| <= 3
  {
    if Last(entry) != LOCK then Ignored else
      var path := Parent(entry);
      var triple := if |path| - |target| == 2 then Some(path[|target|]) else None;
      if !nodes[entry].File? then Planned(Candidate(path, None, None, Skip))
      else if triple == Some(TRASH) then Ignored
      else if ProfileOf(Last(path)).None? then Planned(Candidate(path, None, None, Skip))
      else
        match SampleOf(survey, path)
        case Unreadable => Refused
        case NoActivity => Planned(Candidate(path, ProfileOf(Last(path)), triple, Keep))
        case Newest(unix) =>
          var action := if AgeInDays(survey.now, unix) >= days then Delete else Keep;
          Planned(Candidate(path, ProfileOf(Last(path)), triple, action))
  }

  lemma JudgedStale(nodes: Nodes, target: Path, survey: Survey, days: nat, entry: Path)
    requires entry in nodes && Above(target, entry) && 2 <= |entry| - |target| <= 3
    ensures var v := Judge(nodes, target, survey, days, entry);
            v.Planned? && v.candidate.action == Delete ==>
              v.candidate.profile.Some?
              && StaleProfile(nodes, target, survey, days, v.candidate.path, v.candidate.profile.value,
                v.candidate.triple)
  {
    var path := Parent(entry);
    if SampleOf(survey, path).Newest? { AgeReachesWindow(survey.now, SampleOf(survey, path).unix, days); }
    assert entry == path + [Last(entry)];
    assert path[..|target|] == target;
    assert |path| - |target| == 2 ==> path == target + [path[|target|]] + [Last(path)];
    assert |path| - |target| == 1 ==> path == target + [] + [Last(path)];
  }

  lemma StaleJudged(nodes: Nodes, target: Path, survey: Survey, days: nat, path: Path, profile: string,
      triple: Option<string>)
    requires StaleProfile(nodes, target, survey, days, path, profile, triple)
    ensures var entry := path + [LOCK];
            && Above(target, entry) && 2 <= |entry| - |target| <= 3
            && Judge(nodes, target, survey, days, entry) == Planned(Candidate(path, Some(profile), triple, Delete))
  {
    var entry := path + [LOCK];
    ParentChild(path, LOCK);
    AgeReachesWindow(survey.now, SampleOf(survey, path).unix, days);
    assert Last(path) == OutputOf(profile).value;
    assert triple.Some? ==> path[|target|] == triple.value;
  }

  ghost predicate TrashRefused(nodes: Nodes, target: Path, survey: Survey)
    requires Lists(nodes, target, survey)
  {
    TrashRoot(target) in nodes && (!nodes[TrashRoot(target)].Dir? || exists p | p in survey.trash :: nodes[p].Link?)
  }

  /** The trash entries, all to be recovered; a trash that holds or is a link is refused. */
  method PlanRecovery(nodes: Nodes, target: Path, survey: Survey) returns (plan: Option<seq<Candidate>>)
    requires Tree(nodes) && Lists(nodes, target, survey)
    ensures plan.Some? ==> RecoversAll(plan.value, nodes, TrashRoot(target))
    ensures plan.Some? ==> forall c | c in plan.value :: c.action == RecoverTrash && c.path in survey.trash
    ensures plan.None? <==> TrashRefused(nodes, target, survey)
    ensures plan.Some? ==> |plan.value| <= |survey.trash|
  {
    hide Recovers, RecoversAll, Lists, Tree, TrashRefused;
    var trash := TrashRoot(target);
    if trash !in nodes {
      NoTrash(nodes, trash);
      TrashSeen(nodes, target, survey, []);
      return Some([]);
    }
    ListedTrash(nodes, target, survey);
    if !nodes[trash].Dir? {
      TrashSeen(nodes, target, survey, []);
      return None;
    }
    var candidates: seq<Candidate> := [];
    for i := 0 to |survey.trash|
      invariant |candidates| == i && forall c | c in candidates :: c.action == RecoverTrash && c.path in survey.trash
      invariant forall j | 0 <= j < i :: Recovers(candidates, survey.trash[j])
      invariant forall j | 0 <= j < i :: !nodes[survey.trash[j]].Link?
    {
      assert survey.trash[i] in survey.trash;
      if nodes[survey.trash[i]].Link? {
        TrashSeen(nodes, target, survey, candidates);
        return None;
      }
      var more := candidates + [Candidate(survey.trash[i], None, None, RecoverTrash)];
      RecoversMore(candidates, more, i, survey.trash);
      candidates := more;
    }
    TrashSeen(nodes, target, survey, candidates);
    plan := Some(candidates);
  }

  lemma ListedTrash(nodes: Nodes, target: Path, survey: Survey)
    requires Lists(nodes, target, survey)
    ensures forall p | p in survey.trash :: p in nodes
  {
  }

  /** What the walk through the trash tells. */
  lemma TrashSeen(nodes: Nodes, target: Path, survey: Survey, candidates: seq<Candidate>)
    requires Lists(nodes, target, survey)
    ensures TrashRoot(target) !in nodes ==> !TrashRefused(nodes, target, survey)
    ensures TrashRoot(target) in nodes && !nodes[TrashRoot(target)].Dir? ==> TrashRefused(nodes, target, survey)
    ensures TrashRoot(target) in nodes ==> forall p | p in survey.trash && nodes[p].Link? ::
        TrashRefused(nodes, target, survey)
    ensures TrashRoot(target) in nodes && nodes[TrashRoot(target)].Dir?
              && (forall j | 0 <= j < |survey.trash| :: !nodes[survey.trash[j]].Link?) ==>
              !TrashRefused(nodes, target, survey)
    ensures (forall j | 0 <= j < |survey.trash| :: Recovers(candidates, survey.trash[j])) ==>
              RecoversAll(candidates, nodes, TrashRoot(target))
  {
    hide Recovers;
  }

  lemma NoTrash(nodes: Nodes, trash: Path)
    requires Tree(nodes) && trash !in nodes
    ensures RecoversAll([], nodes, trash)
  {
    forall p | p != [] && Parent(p) == trash ensures p !in nodes {
      assert p in nodes ==> Attached(nodes, p);
    }
  }

  lemma RecoversMore(before: seq<Candidate>, after: seq<Candidate>, i: nat, trash: seq<Path>)
    requires i < |trash| && after == before + [Candidate(trash[i], None, None, RecoverTrash)]
    requires forall j | 0 <= j < i :: Recovers(before, trash[j])
    ensures forall j | 0 <= j <= i :: Recovers(after, trash[j])
  {
    assert after[|before|] == Candidate(trash[i], None, None, RecoverTrash);
    forall j | 0 <= j < i ensures Recovers(after, trash[j]) {
      assert Recovers(before, trash[j]);
      var c :| c in before && c.action == RecoverTrash && c.path == trash[j];
      assert c in after;
    }
  }

  predicate Judged(nodes: Nodes, target: Path, survey: Survey, days: nat, entry: Path, candidates: seq<Candidate>) {
    && entry in nodes && Above(target, entry) && 2 <= |entry| - |target| <= 3
    && var v := Judge(nodes, target, survey, days, entry);
    !v.Refused? && (v.Planned? ==> v.candidate in candidates)
  }

  /** Some supported profile cannot be sampled. */
  ghost predicate ProfileRefused(nodes: Nodes, target: Path, survey: Survey) {
    exists path, profile, triple ::
      IsProfile(nodes, target, path, profile, triple) && path in survey.samples && survey.samples[path].Unreadable?
  }

  lemma RefusedJudged(nodes: Nodes, target: Path, survey: Survey, days: nat, path: Path, profile: string,
      triple: Option<string>)
    requires IsProfile(nodes, target, path, profile, triple) && SampleOf(survey, path).Unreadable?
    ensures var entry := path + [LOCK];
            && entry in nodes && Above(target, entry) && 2 <= |entry| - |target| <= 3
            && Judge(nodes, target, survey, days, entry).Refused?
  {
    ParentChild(path, LOCK);
    assert Last(path) == OutputOf(profile).value;
    assert triple.Some? ==> path[|target|] == triple.value;
  }

  lemma JudgedRefused(nodes: Nodes, target: Path, survey: Survey, days: nat, entry: Path)
    requires entry in nodes && Above(target, entry) && 2 <= |entry| - |target| <= 3
    requires Judge(nodes, target, survey, days, entry).Refused?
    ensures ProfileRefused(nodes, target, survey)
  {
    var path := Parent(entry);
    var triple := if |path| - |target| == 2 then Some(path[|target|]) else None;
    assert entry == path + [LOCK];
    assert path[..|target|] == target;
    assert |path| - |target| == 2 ==> path == target + [path[|target|]] + [Last(path)];
    assert |path| - |target| == 1 ==> path == target + [] + [Last(path)];
    assert IsProfile(nodes, target, path, ProfileOf(Last(path)).value, triple);
  }

  /** A plan offers exactly the stale profiles for deletion and exactly the trash entries for recovery. */
  method PlanProfiles(nodes: Nodes, target: Path, survey: Survey, days: nat) returns (plan: Option<seq<Candidate>>)
    requires Tree(nodes) && Lists(nodes, target, survey)
    ensures plan.Some? ==> OffersOnlyStale(plan.value, nodes, target, survey, days)
    ensures plan.Some? ==> OffersEveryStale(plan.value, nodes, target, survey, days)
    ensures plan.Some? ==> RecoversAll(plan.value, nodes, TrashRoot(target))
    ensures plan.Some? ==> forall c | c in plan.value && c.action == RecoverTrash :: c.path in survey.trash
    ensures plan.None? <==> TrashRefused(nodes, target, survey) || ProfileRefused(nodes, target, survey)
    ensures plan.Some? ==> DeletesDistinct(plan.value) && |plan.value| <= |survey.trash| + |survey.walk|
    ensures plan.Some? ==> PathsAscend(plan.value)
  {
    hide TrashRefused, DeletesDistinct, DeletesWalked, PathsAscend;
    hide Judge, Judged, StaleProfile, RecoversAll, OffersOnlyStale, OffersEveryStale, Lists, Tree, ProfileRefused;
    plan := PlanRecovery(nodes, target, survey);
    if plan.None? { return; }
    ghost var recovery := plan.value;
    var candidates := plan.value;
    NothingStaleYet(candidates, nodes, target, survey, days);
    for i := 0 to |survey.walk|
      invariant |recovery| <= |candidates| <= |recovery| + i && candidates[..|recovery|] == recovery
      invariant forall c | c in candidates && c.action == RecoverTrash :: c.path in survey.trash
      invariant OffersOnlyStale(candidates, nodes, target, survey, days)
      invariant DeletesDistinct(candidates) && DeletesWalked(candidates, survey.walk[..i])
      invariant forall j | 0 <= j < i :: Judged(nodes, target, survey, days, survey.walk[j], candidates)
    {
      var entry := survey.walk[i];
      WalkedEntry(nodes, target, survey, days, i);
      var verdict := Judge(nodes, target, survey, days, entry);
      if verdict.Refused? { return None; }
      ghost var before := candidates;
      candidates := if verdict.Planned? then candidates + [verdict.candidate] else candidates;
      OneMoreJudged(nodes, target, survey, days, i, before, candidates);
      OneMoreDistinct(nodes, target, survey, days, i, before, candidates);
    }
    NothingRefused(nodes, target, survey, days, candidates);
    RecoversAtLeast(recovery, candidates, nodes, TrashRoot(target));
    EveryStaleOffered(nodes, target, survey, days, candidates);
    SortedIsDistinct(candidates);
    SortKeepsOffers(candidates, nodes, target, survey, days);
    plan := Some(SortedByPath(candidates));
  }

  // ---- the order of the plan ----

  /** No path comes after a smaller one. */
  predicate PathsAscend(candidates: seq<Candidate>) {
    forall i, j | 0 <= i < j < |candidates| :: !Retained.PathBefore(candidates[j].path, candidates[i].path)
  }

  /** Into an ordered plan, behind candidates of the same path. */
  function InsertByPath(sorted: seq<Candidate>, c: Candidate): (r: seq<Candidate>)
    requires PathsAscend(sorted)
    ensures PathsAscend(r) && |r| == |sorted| + 1
    ensures forall x :: x in r <==> x == c || x in sorted
  {
    if sorted == [] then [c]
    else if Retained.PathBefore(c.path, sorted[0].path) then
      assert forall k | 0 <= k < |sorted| :: !Retained.PathBefore(sorted[k].path, c.path) by {
        forall k | 0 <= k < |sorted| ensures !Retained.PathBefore(sorted[k].path, c.path) {
          Retained.PathOrder(sorted[k].path, c.path, sorted[0].path);
          Retained.PathOrder(c.path, sorted[0].path, c.path);
        }
      }
      [c] + sorted
    else
      var rest := InsertByPath(sorted[1..], c);
      assert forall k | 0 <= k < |rest| :: !Retained.PathBefore(rest[k].path, sorted[0].path) by {
        forall k | 0 <= k < |rest| ensures !Retained.PathBefore(rest[k].path, sorted[0].path) {
          assert rest[k] in rest;
        }
      }
      [sorted[0]] + rest
  }

  /** A stable sort by path. */
  function SortedByPath(candidates: seq<Candidate>): (r: seq<Candidate>)
    ensures PathsAscend(r) && |r| == |candidates|
    ensures forall x :: x in r <==> x in candidates
  {
    if candidates == [] then []
    else InsertByPath(SortedByPath(candidates[..|candidates| - 1]), candidates[|candidates| - 1])
  }

  lemma {:induction false} InsertIsDistinct(sorted: seq<Candidate>, c: Candidate)
    requires PathsAscend(sorted) && DeletesDistinct(sorted)
    requires c.action == Delete ==> forall x | x in sorted && x.action == Delete :: x.path != c.path
    ensures DeletesDistinct(InsertByPath(sorted, c))
  {
    if sorted != [] && !Retained.PathBefore(c.path, sorted[0].path) {
      InsertIsDistinct(sorted[1..], c);
      var rest := InsertByPath(sorted[1..], c);
      forall k | 0 <= k < |rest| && rest[k].action == Delete && sorted[0].action == Delete
        ensures rest[k].path != sorted[0].path
      {
        assert rest[k] in rest;
      }
    }
  }

  lemma {:induction false} SortedIsDistinct(candidates: seq<Candidate>)
    requires DeletesDistinct(candidates)
    ensures DeletesDistinct(SortedByPath(candidates))
  {
    if candidates != [] {
      var front, c := candidates[..|candidates| - 1], candidates[|candidates| - 1];
      SortedIsDistinct(front);
      forall x | x in SortedByPath(front) && x.action == Delete && c.action == Delete ensures x.path != c.path {
        assert x in front;
      }
      InsertIsDistinct(SortedByPath(front), c);
    }
  }

  lemma SortKeepsOffers(candidates: seq<Candidate>, nodes: Nodes, target: Path, survey: Survey, days: nat)
    ensures var sorted := SortedByPath(candidates);
            && (OffersOnlyStale(candidates, nodes, target, survey, days) ==>
                  OffersOnlyStale(sorted, nodes, target, survey, days))
            && (OffersEveryStale(candidates, nodes, target, survey, days) ==>
                  OffersEveryStale(sorted, nodes, target, survey, days))
            && (RecoversAll(candidates, nodes, TrashRoot(target)) ==> RecoversAll(sorted, nodes, TrashRoot(target)))
  {
    hide SortedByPath, StaleProfile, TrashRoot;
    var sorted := SortedByPath(candidates);
    forall p | Recovers(candidates, p) ensures Recovers(sorted, p) {
      var c :| c in candidates && c.action == RecoverTrash && c.path == p;
      assert c in sorted;
    }
  }

  lemma WalkedEntry(nodes: Nodes, target: Path, survey: Survey, days: nat, i: nat)
    requires Lists(nodes, target, survey) && i < |survey.walk|
    ensures var entry := survey.walk[i]; entry in nodes && Above(target, entry) && 2 <= |entry| - |target| <= 3
    ensures Judge(nodes, target, survey, days, survey.walk[i]).Refused? ==> ProfileRefused(nodes, target, survey)
  {
    assert survey.walk[i] in survey.walk;
    if Judge(nodes, target, survey, days, survey.walk[i]).Refused? {
      JudgedRefused(nodes, target, survey, days, survey.walk[i]);
    }
  }

  lemma NothingRefused(nodes: Nodes, target: Path, survey: Survey, days: nat, candidates: seq<Candidate>)
    requires Lists(nodes, target, survey)
    requires forall j | 0 <= j < |survey.walk| :: Judged(nodes, target, survey, days, survey.walk[j], candidates)
    ensures !ProfileRefused(nodes, target, survey)
  {
    hide Judge, IsProfile;
    forall path, profile, triple | IsProfile(nodes, target, path, profile, triple)
      ensures !SampleOf(survey, path).Unreadable?
    {
      if SampleOf(survey, path).Unreadable? {
        RefusedJudged(nodes, target, survey, days, path, profile, triple);
        WalkedNotRefused(nodes, target, survey, days, candidates, path + [LOCK]);
      }
    }
  }

  lemma WalkedNotRefused(nodes: Nodes, target: Path, survey: Survey, days: nat, candidates: seq<Candidate>, entry: Path)
    requires Lists(nodes, target, survey) && entry in nodes && Above(target, entry) && 2 <= |entry| - |target| <= 3
    requires forall j | 0 <= j < |survey.walk| :: Judged(nodes, target, survey, days, survey.walk[j], candidates)
    ensures !Judge(nodes, target, survey, days, entry).Refused?
  {
    hide Judge;
    assert entry in survey.walk;
    var j :| 0 <= j < |survey.walk| && survey.walk[j] == entry;
    assert Judged(nodes, target, survey, days, survey.walk[j], candidates);
  }

  lemma NothingStaleYet(candidates: seq<Candidate>, nodes: Nodes, target: Path, survey: Survey, days: nat)
    requires forall c | c in candidates :: c.action == RecoverTrash
    ensures OffersOnlyStale(candidates, nodes, target, survey, days)
    ensures DeletesDistinct(candidates) && DeletesWalked(candidates, survey.walk[..0])
  {
  }

  lemma OneMoreJudged(nodes: Nodes, target: Path, survey: Survey, days: nat, i: nat, before: seq<Candidate>,
      after: seq<Candidate>)
    requires Lists(nodes, target, survey) && i < |survey.walk|
    requires OffersOnlyStale(before, nodes, target, survey, days)
    requires forall j | 0 <= j < i :: Judged(nodes, target, survey, days, survey.walk[j], before)
    requires var v := Judge(nodes, target, survey, days, survey.walk[i]);
             !v.Refused? && after == if v.Planned? then before + [v.candidate] else before
    ensures OffersOnlyStale(after, nodes, target, survey, days)
    ensures forall j | 0 <= j <= i :: Judged(nodes, target, survey, days, survey.walk[j], after)
    ensures forall c | c in after && c.action == RecoverTrash :: c in before
  {
    hide OffersOnlyStale, StaleProfile, Judge;
    var entry := survey.walk[i];
    OfferedStale(nodes, target, survey, days, entry, before, after);
    JudgedAction(nodes, target, survey, days, entry);
    assert forall c | c in before :: c in after;
    assert Judge(nodes, target, survey, days, entry).Planned? ==> after[|before|] in after;
    forall j | 0 <= j <= i ensures Judged(nodes, target, survey, days, survey.walk[j], after) {
      assert j < i ==> Judged(nodes, target, survey, days, survey.walk[j], before);
    }
  }

  lemma OfferedStale(nodes: Nodes, target: Path, survey: Survey, days: nat, entry: Path, before: seq<Candidate>,
      after: seq<Candidate>)
    requires entry in nodes && Above(target, entry) && 2 <= |entry| - |target| <= 3
    requires OffersOnlyStale(before, nodes, target, survey, days)
    requires var v := Judge(nodes, target, survey, days, entry);
             after == if v.Planned? then before + [v.candidate] else before
    ensures OffersOnlyStale(after, nodes, target, survey, days)
  {
    JudgedStale(nodes, target, survey, days, entry);
    hide Judge, StaleProfile;
  }

  /** No profile is offered for deletion twice. */
  predicate DeletesDistinct(candidates: seq<Candidate>) {
    forall i, j | 0 <= i < j < |candidates| && candidates[i].action == Delete && candidates[j].action == Delete ::
      candidates[i].path != candidates[j].path
  }

  predicate DeletesWalked(candidates: seq<Candidate>, walked: seq<Path>) {
    forall c | c in candidates && c.action == Delete :: c.path + [LOCK] in walked
  }

  lemma OneMoreDistinct(nodes: Nodes, target: Path, survey: Survey, days: nat, i: nat, before: seq<Candidate>,
      after: seq<Candidate>)
    requires Lists(nodes, target, survey) && i < |survey.walk|
    requires DeletesDistinct(before) && DeletesWalked(before, survey.walk[..i])
    requires var v := Judge(nodes, target, survey, days, survey.walk[i]);
             !v.Refused? && after == if v.Planned? then before + [v.candidate] else before
    ensures DeletesDistinct(after) && DeletesWalked(after, survey.walk[..i + 1])
  {
    hide Lists, Judge, DeletesDistinct, DeletesWalked, Last, Parent;
    var entry, walked := survey.walk[i], survey.walk[..i];
    WalkedEntry(nodes, target, survey, days, i);
    NotWalkedBefore(nodes, target, survey, i);
    assert survey.walk[..i + 1] == walked + [entry];
    var v := Judge(nodes, target, survey, days, entry);
    if !v.Planned? {
      WalkedFurther(before, walked, entry);
    } else if v.candidate.action != Delete {
      AppendOther(before, walked, v.candidate, entry);
    } else {
      JudgedEntry(nodes, target, survey, days, entry);
      AppendDelete(before, walked, v.candidate, entry);
    }
  }

  lemma WalkedFurther(candidates: seq<Candidate>, walked: seq<Path>, entry: Path)
    requires DeletesWalked(candidates, walked)
    ensures DeletesWalked(candidates, walked + [entry])
  {
  }

  lemma AppendOther(before: seq<Candidate>, walked: seq<Path>, c: Candidate, entry: Path)
    requires DeletesDistinct(before) && DeletesWalked(before, walked) && c.action != Delete
    ensures DeletesDistinct(before + [c]) && DeletesWalked(before + [c], walked + [entry])
  {
  }

  lemma AppendDelete(before: seq<Candidate>, walked: seq<Path>, c: Candidate, entry: Path)
    requires DeletesDistinct(before) && DeletesWalked(before, walked) && entry !in walked
    requires c.action == Delete && c.path + [LOCK] == entry
    ensures DeletesDistinct(before + [c]) && DeletesWalked(before + [c], walked + [entry])
  {
    forall j | 0 <= j < |before| && before[j].action == Delete ensures before[j].path + [LOCK] != entry {
      assert before[j] in before;
    }
  }

  lemma NotWalkedBefore(nodes: Nodes, target: Path, survey: Survey, i: nat)
    requires Lists(nodes, target, survey) && i < |survey.walk|
    ensures survey.walk[i] !in survey.walk[..i]
  {
  }

  lemma JudgedEntry(nodes: Nodes, target: Path, survey: Survey, days: nat, entry: Path)
    requires entry in nodes && Above(target, entry) && 2 <= |entry| - |target| <= 3
    ensures var v := Judge(nodes, target, survey, days, entry);
            v.Planned? && v.candidate.action == Delete ==> v.candidate.path + [LOCK] == entry
  {
    assert entry == Parent(entry) + [Last(entry)];
  }

  lemma JudgedAction(nodes: Nodes, target: Path, survey: Survey, days: nat, entry: Path)
    requires entry in nodes && Above(target, entry) && 2 <= |entry| - |target| <= 3
    ensures var v := Judge(nodes, target, survey, days, entry); v.Planned? ==> v.candidate.action != RecoverTrash
  {
  }

  lemma RecoversAtLeast(before: seq<Candidate>, after: seq<Candidate>, nodes: Nodes, trash: Path)
    requires |after| >= |before| && after[..|before|] == before && RecoversAll(before, nodes, trash)
    ensures RecoversAll(after, nodes, trash)
  {
    forall p | p in nodes && p != [] && Parent(p) == trash ensures Recovers(after, p) {
      assert Recovers(before, p);
      var c :| c in before && c.action == RecoverTrash && c.path == p;
      assert c in after;
    }
  }

  lemma EveryStaleOffered(nodes: Nodes, target: Path, survey: Survey, days: nat, candidates: seq<Candidate>)
    requires Lists(nodes, target, survey)
    requires forall j | 0 <= j < |survey.walk| :: Judged(nodes, target, survey, days, survey.walk[j], candidates)
    ensures OffersEveryStale(candidates, nodes, target, survey, days)
  {
    hide Judge;
    forall path, profile, triple | StaleProfile(nodes, target, survey, days, path, profile, triple)
      ensures Candidate(path, Some(profile), triple, Delete) in candidates
    {
      StaleJudged(nodes, target, survey, days, path, profile, triple);
      var j :| 0 <= j < |survey.walk| && survey.walk[j] == path + [LOCK];
      assert Judged(nodes, target, survey, days, survey.walk[j], candidates);
    }
  }

  ghost predicate OffersEveryStale(candidates: seq<Candidate>, nodes: Nodes, target: Path, survey: Survey, days: nat) {
    forall path, profile, triple | StaleProfile(nodes, target, survey, days, path, profile, triple) ::
      Candidate(path, Some(profile), triple, Delete) in candidates
  }

  predicate OffersOnlyStale(candidates: seq<Candidate>, nodes: Nodes, target: Path, survey: Survey, days: nat) {
    forall c | c in candidates && c.action == Delete ::
      c.profile.Some? && StaleProfile(nodes, target, survey, days, c.path, c.profile.value, c.triple)
  }

  predicate RecoversAll(candidates: seq<Candidate>, nodes: Nodes, trash: Path) {
    forall p | p in nodes && p != [] && Parent(p) == trash :: Recovers(candidates, p)
  }

  predicate Recovers(candidates: seq<Candidate>, p: Path) {
    exists c | c in candidates :: c.action == RecoverTrash && c.path == p
  }

  // ---- ownership ----

  /** Every observation on the profile is of this process having a lock file open that it holds. */
  predicate Unowned(evidence: Evidence, held: seq<Path>, self: nat, path: Path) {
    forall o | o in evidence.observations && o.matched == path ::
      o.pid == Some(self) && o.kind.OpenFile? && o.observed in held
  }

  /** The sweeper's own open handle on a lock file it holds. */
  predicate OwnLockHandle(o: Observation, held: seq<Path>, self: nat) {
    o.pid == Some(self) && o.kind.OpenFile? && o.observed in held
  }

  /** Profiles in use by anything but the sweeper's own lock handles; None when the evidence is incomplete. */
  function OpenProfiles(evidence: Evidence, held: seq<Path>, self: nat): (open: Option<set<Path>>)
    ensures open.None? <==> !evidence.complete
    ensures open.Some? ==> forall p :: p !in open.value <==> Unowned(evidence, held, self, p)
  {
    if !evidence.complete then None
    else Some(set o | o in evidence.observations && !OwnLockHandle(o, held, self) :: o.matched)
  }

  // ---- trash ----

  predicate Near(p: Path, q: Path) {
    Above(p, q) || Above(q, p)
  }

  predicate NearSome(places: seq<Path>, q: Path) {
    exists i | 0 <= i < |places| :: Near(places[i], q)
  }

  /** Everything in the trash lies on the way to, at or below one of these places. */
  predicate TrashIs(nodes: Nodes, trash: Path, places: seq<Path>) {
    forall q | q in nodes && Above(trash, q) :: NearSome(places, q)
  }

  /** `remove_empty_trash_root`: a trash directory still in use or not there is left alone. */
  method RemoveEmptyTrashRoot(d: Disk, trash: Path) returns (ok: bool)
    requires d.Valid() && trash != []
    modifies d
    ensures d.Valid() && Eroded(old(d.nodes), d.nodes, trash) && d.Reserve() == old(d.Reserve())
    ensures d.nodes == old(d.nodes) || d.nodes == old(d.nodes) - {trash}
    ensures ok ==> d.nodes == old(d.nodes) - {trash} || trash !in d.nodes || !Bare(d.nodes, trash)
    ensures !ok ==> d.fuel == 0 || NoDir(old(d.nodes), trash)
  {
    var io := d.RemoveDir(trash);
    ok := !io.Failed?;
  }

  /** A candidate that is not in the trash, or a trash that is no directory: recovery refuses both. */
  predicate StrangeTrash(nodes: Nodes, trash: Path, candidates: seq<Candidate>) {
    || NoDir(nodes, trash)
    || exists c | c in candidates && c.action == RecoverTrash :: c.path == [] || Parent(c.path) != trash
  }

  /** Recovery empties the trash, unless it is refused or interrupted. */
  method RecoverTrashEntries(d: Disk, trash: Path, candidates: seq<Candidate>) returns (ok: bool)
    requires d.Valid() && trash != []
    modifies d
    ensures d.Valid() && Eroded(old(d.nodes), d.nodes, trash) && d.Reserve() == old(d.Reserve())
    ensures ok && RecoversAll(candidates, old(d.nodes), trash) ==> NothingAt(d.nodes, trash)
    ensures !ok ==> d.fuel == 0 || StrangeTrash(old(d.nodes), trash, candidates)
  {
    hide Eroded, NothingAt, RecoversAll, Tree, NoDir;
    ghost var before := d.nodes;
    ErodedRefl(before, trash);
    for i := 0 to |candidates|
      invariant d.Valid() && Eroded(before, d.nodes, trash) && d.Reserve() == old(d.Reserve())
      invariant forall j | 0 <= j < i && candidates[j].action == RecoverTrash :: NothingAt(d.nodes, candidates[j].path)
    {
      var c := candidates[i];
      if c.action == RecoverTrash {
        if c.path == [] || Parent(c.path) != trash {
          assert c in candidates;
          return false;
        }
        ghost var now := d.nodes;
        ok := d.RemoveEntry(c.path);
        ErodedBelow(before, now, d.nodes, trash, c.path);
        if !ok { return; }
      }
    }
    ghost var left := d.nodes;
    ErodedKinds(before, left, trash, trash);
    ok := RemoveEmptyTrashRoot(d, trash);
    ErodedBelow(before, left, d.nodes, trash, trash);
    if ok && RecoversAll(candidates, before, trash) {
      Recovered(before, left, trash, candidates);
      EmptiedTrash(left, d.nodes, trash);
    }
  }

  lemma ErodedKinds(before: Nodes, after: Nodes, trash: Path, p: Path)
    requires Eroded(before, after, trash)
    ensures NoDir(after, p) ==> NoDir(before, p)
  {
  }

  lemma ErodedBelow(before: Nodes, now: Nodes, after: Nodes, trash: Path, p: Path)
    requires Eroded(before, now, trash) && Above(trash, p) && Eroded(now, after, p)
    ensures Eroded(before, after, trash)
    ensures forall q | NothingAt(now, q) :: NothingAt(after, q)
  {
    forall q | !Above(trash, q) ensures SameAt(before, after, q) {
      assert SameAt(before, now, q);
      assert !Above(p, q);
    }
  }

  /** With every entry of the trash removed, at most the trash directory itself is left. */
  lemma Recovered(before: Nodes, left: Nodes, trash: Path, candidates: seq<Candidate>)
    requires Tree(left) && Eroded(before, left, trash) && RecoversAll(candidates, before, trash)
    requires forall j | 0 <= j < |candidates| && candidates[j].action == RecoverTrash ::
        NothingAt(left, candidates[j].path)
    ensures Bare(left, trash)
  {
    forall p | p != [] && Parent(p) == trash ensures p !in left {
      assert p in left ==> p in before;
      assert p in before ==> Recovers(candidates, p);
    }
    forall q | q in left && Above(trash, q) ensures q == trash {
      if q != trash {
        var child := ChildTowards(left, trash, q);
      }
    }
  }

  lemma ChildTowards(nodes: Nodes, p: Path, q: Path) returns (child: Path)
    requires Tree(nodes) && q in nodes && Above(p, q) && p != q
    ensures child in nodes && child != [] && Parent(child) == p
  {
    child := q[..|p| + 1];
    AncestorsPresent(nodes, child, q);
  }

  lemma EmptiedTrash(left: Nodes, after: Nodes, trash: Path)
    requires Tree(left) && Bare(left, trash)
    requires after == left - {trash} || (after == left && (trash !in after || !Bare(after, trash)))
    ensures NothingAt(after, trash)
  {
    if trash !in left { NothingLeft(left, trash); }
  }

  /** What lies on the way to `gone`, up to `current`, or near one of the remaining places. */
  predicate TrashUpTo(nodes: Nodes, trash: Path, current: Path, places: seq<Path>) {
    forall q | q in nodes && Above(trash, q) :: NearSome(places, q) || Above(q, current)
  }

  /** Everything on the way from the trash to `path` is a directory. */
  predicate Walkable(nodes: Nodes, trash: Path, path: Path) {
    forall q | q in nodes && Above(trash, q) && Above(q, path) && q != path :: nodes[q].Dir?
  }

  /**
   * Directories that the removal of `path` emptied go, from its parent up to the trash itself, until one is
   * still in use. Nothing but ancestors of `path` is touched.
   */
  method RemoveEmptyAncestors(d: Disk, path: Path, trash: Path, ghost places: seq<Path>) returns (ok: bool)
    requires d.Valid() && trash != [] && Above(trash, path) && path != trash
    requires NothingAt(d.nodes, path)
    modifies d
    ensures d.Valid() && Eroded(old(d.nodes), d.nodes, trash) && d.Reserve() == old(d.Reserve())
    ensures OnlyAncestors(old(d.nodes), d.nodes, path)
    ensures ok && TrashIs(old(d.nodes), trash, [path] + places) ==> TrashIs(d.nodes, trash, places)
    ensures ok ==> Parent(path) !in d.nodes || !Bare(d.nodes, Parent(path))
    ensures !ok ==> d.fuel == 0 || !Walkable(old(d.nodes), trash, path)
  {
    hide TrashIs, Eroded, Walkable, NoDir, Bare, Tree, NothingAt, OnlyAncestors, Above, Climbing;
    ghost var before := d.nodes;
    StartUp(before, trash, path);
    var current := Parent(path);
    ClimbStarts(before, trash, path, places);
    while current != trash
      invariant d.Valid() && d.Reserve() == old(d.Reserve())
      invariant Climbing(before, d.nodes, trash, current, path, places)
      decreases |current|
    {
      ghost var now := d.nodes;
      ClimbAt(before, now, trash, current, path, places);
      var io := d.RemoveDir(current);
      if io.Failed? { return false; }
      if io.Occupied? {
        ClimbStops(before, now, trash, current, path, places);
        return true;
      }
      ClimbStep(before, now, d.nodes, trash, current, path, places);
      current := Parent(current);
    }
    ghost var now := d.nodes;
    ClimbAt(before, now, trash, trash, path, places);
    ok := RemoveEmptyTrashRoot(d, trash);
    ClimbEnds(before, now, d.nodes, trash, path, places, ok);
  }

  /** What holds on the way up: everything between `path` and `current` is gone, and nothing else is. */
  ghost predicate Climbing(before: Nodes, now: Nodes, trash: Path, current: Path, path: Path, places: seq<Path>)
    requires path != []
  {
    && Above(trash, current) && Above(current, Parent(path))
    && Eroded(before, now, trash) && OnlyAncestors(before, now, path)
    && (current != Parent(path) ==> Parent(path) !in now)
    && (TrashIs(before, trash, [path] + places) ==> TrashUpTo(now, trash, current, places))
  }

  lemma ClimbStarts(before: Nodes, trash: Path, path: Path, places: seq<Path>)
    requires Above(trash, path) && path != trash && NothingAt(before, path)
    ensures path != [] && Climbing(before, before, trash, Parent(path), path, places)
  {
    hide TrashIs, TrashUpTo, Eroded, OnlyAncestors;
    ErodedRefl(before, trash);
    StartUp(before, trash, path);
    if TrashIs(before, trash, [path] + places) { UpToParent(before, trash, path, places); }
  }

  lemma ClimbAt(before: Nodes, now: Nodes, trash: Path, current: Path, path: Path, places: seq<Path>)
    requires trash != [] && path != [] && Climbing(before, now, trash, current, path, places)
    ensures current != [] && Above(trash, current) && Eroded(before, now, trash) && OnlyAncestors(before, now, path)
    ensures Walkable(before, trash, path) ==> !NoDir(now, current)
  {
    hide TrashIs, TrashUpTo, Eroded, OnlyAncestors;
    ErodedStep(before, now, trash, current, path);
  }

  lemma ClimbStep(before: Nodes, now: Nodes, after: Nodes, trash: Path, current: Path, path: Path, places: seq<Path>)
    requires trash != [] && path != [] && current != trash && Climbing(before, now, trash, current, path, places)
    requires after == now - {current} || (after == now && current !in now)
    ensures current != [] && Climbing(before, after, trash, Parent(current), path, places)
  {
    hide TrashIs, TrashUpTo, Eroded, OnlyAncestors;
    assert after == now - {current};
    ErodedStep(before, now, trash, current, path);
    ErodedBelow(before, now, after, trash, current);
    StepUp(before, now, after, trash, current, path);
    if TrashIs(before, trash, [path] + places) { UpOne(now, after, trash, current, places); }
  }

  lemma ClimbStops(before: Nodes, now: Nodes, trash: Path, current: Path, path: Path, places: seq<Path>)
    requires path != [] && Climbing(before, now, trash, current, path, places) && !Bare(now, current)
    ensures TrashIs(before, trash, [path] + places) ==> TrashIs(now, trash, places)
    ensures Parent(path) !in now || !Bare(now, Parent(path))
  {
    hide TrashIs, TrashUpTo, Eroded, OnlyAncestors, Bare;
    if TrashIs(before, trash, [path] + places) { OccupiedIsNear(now, trash, current, places); }
  }

  lemma ClimbEnds(before: Nodes, now: Nodes, after: Nodes, trash: Path, path: Path, places: seq<Path>, ok: bool)
    requires trash != [] && path != [] && Climbing(before, now, trash, trash, path, places) && Tree(after)
    requires after == now || after == now - {trash}
    requires ok ==> after == now - {trash} || trash !in after || !Bare(after, trash)
    ensures Eroded(before, after, trash) && OnlyAncestors(before, after, path)
    ensures ok && TrashIs(before, trash, [path] + places) ==> TrashIs(after, trash, places)
    ensures ok ==> Parent(path) !in after || !Bare(after, Parent(path))
  {
    hide TrashIs, TrashUpTo, Eroded, OnlyAncestors, Bare, Tree;
    ErodedStep(before, now, trash, trash, path);
    ErodedBelow(before, now, after, trash, trash);
    LastUp(before, now, after, trash, path);
    if ok && trash in after {
      ClimbStops(before, after, trash, trash, path, places);
    } else if ok {
      TrashGone(after, trash, places);
    }
  }

  /** Only ancestors of `path` are gone. */
  predicate OnlyAncestors(before: Nodes, after: Nodes, path: Path) {
    forall q | q in before && q !in after :: Above(q, path)
  }

  lemma StartUp(before: Nodes, trash: Path, path: Path)
    requires Above(trash, path) && path != trash
    ensures path != [] && Above(trash, Parent(path)) && Above(Parent(path), Parent(path))
    ensures OnlyAncestors(before, before, path)
  {
  }

  lemma StepUp(before: Nodes, now: Nodes, after: Nodes, trash: Path, current: Path, path: Path)
    requires OnlyAncestors(before, now, path) && (after == now || after == now - {current})
    requires path != [] && Above(trash, current) && current != trash && Above(current, Parent(path))
    ensures current != [] && OnlyAncestors(before, after, path)
    ensures Above(trash, Parent(current)) && Above(Parent(current), Parent(path)) && Parent(current) != Parent(path)
  {
    assert Above(current, path);
    assert |Parent(current)| < |Parent(path)|;
  }

  lemma LastUp(before: Nodes, now: Nodes, after: Nodes, trash: Path, path: Path)
    requires OnlyAncestors(before, now, path) && (after == now || after == now - {trash}) && Above(trash, path)
    ensures OnlyAncestors(before, after, path)
  {
  }

  /**
   * One directory on the way up: removing it alone erodes the trash, and it is a directory when the way was walkable.
   */
  lemma ErodedStep(before: Nodes, now: Nodes, trash: Path, current: Path, path: Path)
    requires Eroded(before, now, trash) && Above(trash, current) && trash != [] && path != []
    requires Above(current, Parent(path))
    ensures current != []
    ensures Eroded(now, now, current) && Eroded(now, now - {current}, current) && Above(current, path)
    ensures Walkable(before, trash, path) ==> !NoDir(now, current)
  {
    assert Above(current, path) && current != path;
  }

  lemma TrashGone(nodes: Nodes, trash: Path, places: seq<Path>)
    requires Tree(nodes) && trash !in nodes
    ensures TrashIs(nodes, trash, places)
  {
    NothingLeft(nodes, trash);
  }

  lemma UpToParent(nodes: Nodes, trash: Path, path: Path, places: seq<Path>)
    requires path != [] && NothingAt(nodes, path) && TrashIs(nodes, trash, [path] + places)
    ensures TrashUpTo(nodes, trash, Parent(path), places)
  {
    forall q | q in nodes && Above(trash, q) ensures NearSome(places, q) || Above(q, Parent(path)) {
      assert NearSome([path] + places, q);
      var i :| 0 <= i < |[path] + places| && Near(([path] + places)[i], q);
      if i == 0 {
        PrefixStep(q, path);
      } else {
        assert Near(places[i - 1], q);
      }
    }
  }

  lemma UpOne(now: Nodes, after: Nodes, trash: Path, current: Path, places: seq<Path>)
    requires current != [] && TrashUpTo(now, trash, current, places)
    requires after == now - {current}
    ensures TrashUpTo(after, trash, Parent(current), places)
  {
    forall q | q in after && Above(trash, q) ensures NearSome(places, q) || Above(q, Parent(current)) {
      assert NearSome(places, q) || Above(q, current);
      if Above(q, current) { PrefixStep(q, current); }
    }
  }

  /** A directory that is still occupied leads to one of the remaining places, and so do its ancestors. */
  lemma OccupiedIsNear(nodes: Nodes, trash: Path, current: Path, places: seq<Path>)
    requires TrashUpTo(nodes, trash, current, places) && Above(trash, current) && !Bare(nodes, current)
    ensures TrashIs(nodes, trash, places)
  {
    var child :| child in nodes && Above(current, child) && child != current;
    assert NearSome(places, child);
    var i :| 0 <= i < |places| && Near(places[i], child);
    forall q | q in nodes && Above(trash, q) ensures NearSome(places, q) {
      if Above(q, current) {
        NearAncestor(places[i], child, q);
        assert Near(places[i], q);
      }
    }
  }

  lemma NearAncestor(place: Path, child: Path, q: Path)
    requires Near(place, child) && Above(q, child)
    ensures Near(place, q)
  {
    if Above(place, child) {
      PrefixesComparable(place, q, child);
    }
  }

  function Places(moved: seq<Move>): (places: seq<Path>)
    ensures |places| == |moved| && forall i | 0 <= i < |moved| :: places[i] == moved[i].target
  {
    seq(|moved|, i requires 0 <= i < |moved| => moved[i].target)
  }

  /** Deletion of what this run moved to the trash, after the locks are released. */
  method Discard(d: Disk, trash: Path, moved: seq<Move>) returns (ok: bool)
    requires d.Valid() && trash != []
    requires forall i | 0 <= i < |moved| :: Above(trash, moved[i].target) && moved[i].target != trash
    modifies d
    ensures d.Valid() && Eroded(old(d.nodes), d.nodes, trash) && d.Reserve() == old(d.Reserve())
    ensures forall q | q in old(d.nodes) && q !in d.nodes :: NearSome(Places(moved), q)
    ensures ok && TrashIs(old(d.nodes), trash, Places(moved)) ==> NothingAt(d.nodes, trash)
    ensures !ok ==> d.fuel == 0 || exists i | 0 <= i < |moved| :: !Walkable(old(d.nodes), trash, moved[i].target)
  {
    hide Eroded, NothingAt, TrashIs, Tree, Places, Walkable, NearSome;
    ghost var before := d.nodes;
    ghost var known := TrashIs(before, trash, Places(moved));
    ErodedRefl(before, trash);
    for i := 0 to |moved|
      invariant d.Valid() && Eroded(before, d.nodes, trash) && d.Reserve() == old(d.Reserve())
      invariant forall q | q in before && q !in d.nodes :: NearSome(Places(moved), q)
      invariant known ==> TrashIs(d.nodes, trash, Places(moved)[i..])
    {
      var path := moved[i].target;
      ghost var now := d.nodes;
      ok := d.RemoveEntry(path);
      RemovedNear(now, d.nodes, Places(moved), i, path);
      ErodedBelow(before, now, d.nodes, trash, path);
      if !ok { return; }
      if known { ErodedTrashIs(now, d.nodes, path, trash, Places(moved)[i..]); }
      ghost var rest := Places(moved)[i + 1..];
      assert Places(moved)[i..] == [path] + rest;
      now := d.nodes;
      ok := RemoveEmptyAncestors(d, path, trash, rest);
      AncestorsNear(now, d.nodes, Places(moved), i, path);
      ErodedBelow(before, now, d.nodes, trash, trash);
      ErodedWalkable(before, now, trash, path);
      if !ok { return; }
    }
    ok := true;
    assert Places(moved)[|moved|..] == [];
    if known { NoPlaces(d.nodes, trash); }
  }

  lemma RemovedNear(now: Nodes, after: Nodes, places: seq<Path>, i: nat, path: Path)
    requires Eroded(now, after, path) && i < |places| && places[i] == path
    ensures forall q | q in now && q !in after :: NearSome(places, q)
  {
    forall q | q in now && q !in after ensures NearSome(places, q) {
      assert !Above(path, q) ==> SameAt(now, after, q);
      assert Near(places[i], q);
    }
  }

  lemma AncestorsNear(now: Nodes, after: Nodes, places: seq<Path>, i: nat, path: Path)
    requires i < |places| && places[i] == path && OnlyAncestors(now, after, path)
    ensures forall q | q in now && q !in after :: NearSome(places, q)
  {
    forall q | q in now && q !in after ensures NearSome(places, q) {
      assert Near(places[i], q);
    }
  }

  lemma ErodedWalkable(before: Nodes, after: Nodes, trash: Path, path: Path)
    requires Eroded(before, after, trash)
    ensures Walkable(before, trash, path) ==> Walkable(after, trash, path)
  {
  }

  lemma ErodedTrashIs(now: Nodes, after: Nodes, p: Path, trash: Path, places: seq<Path>)
    requires Eroded(now, after, p) && TrashIs(now, trash, places)
    ensures TrashIs(after, trash, places)
  {
  }

  lemma NoPlaces(nodes: Nodes, trash: Path)
    requires TrashIs(nodes, trash, [])
    ensures NothingAt(nodes, trash)
  {
    forall q | q in nodes ensures !Above(trash, q) {
      assert Above(trash, q) ==> NearSome([], q);
    }
  }
}
