// The sweep of one Cargo incremental directory under its profile lock: stale session roots are renamed
// into the directory's trash, and the trash, old and new, is deleted after the lock is released.

module IncrementalSweep {
  import opened Disks
  import opened Paths
  import opened ProfileSweep
  import opened ProfileReset
  import opened Quarantines
  import opened Wrappers

  /** What the sweeper finds once it holds the lock; `held` is false on a timeout or error. */
  datatype Found = Found(held: bool, nodes: Nodes, trash: seq<Path>, samples: map<Path, Sample>, now: int)

  predicate ListsTrash(nodes: Nodes, trash: Path, entries: seq<Path>) {
    && (forall p | p in entries :: p != [] && Parent(p) == trash)
    && (forall p | p in nodes && p != [] && Parent(p) == trash :: p in entries)
  }

  /** The newest modification below the session root, not before 1970, is as old as the window is long. */
  predicate StaleAt(samples: map<Path, Sample>, now: int, days: nat, path: Path) {
    && path in samples && samples[path].Newest?
    && samples[path].unix >= 0 && OldEnough(now, samples[path].unix, days)
  }

  /** A time before 1970 has no age. */
  function RootAge(now: int, unix: int): Option<nat> {
    if unix < 0 then None else Some(AgeInDays(now, unix))
  }

  /** Measured again under the held lock, the session root is stale. */
  predicate StaleRoot(found: Found, days: nat, path: Path) {
    found.held && StaleAt(found.samples, found.now, days, path)
  }

  // ---- planning ----

  /** One child of the incremental directory; None when its measurement fails. A child without a sample has vanished. */
  function JudgeRoot(nodes: Nodes, incremental: Path, samples: map<Path, Sample>, now: int, days: nat, path: Path)
    : (verdict: Option<Candidate>)
    requires path in nodes && path != [] && Parent(path) == incremental
  {
    if path == TrashRoot(incremental) && nodes[path].Dir? then Some(Candidate(path, None, None, RecoverTrash))
    else if !nodes[path].Dir? || path !in samples then Some(Candidate(path, None, None, Skip))
    else
      match samples[path]
      case Unreadable => None
      case NoActivity => Some(Candidate(path, None, None, Keep))
      case Newest(unix) =>
        var age := RootAge(now, unix);
        Some(Candidate(path, None, None, if age.Some? && age.value >= days then Delete else Keep))
  }

  predicate StaleChild(nodes: Nodes, incremental: Path, samples: map<Path, Sample>, now: int, days: nat, path: Path) {
    IsChildDir(nodes, incremental, path) && path != TrashRoot(incremental) && StaleAt(samples, now, days, path)
  }

  predicate UnreadableChild(nodes: Nodes, incremental: Path, samples: map<Path, Sample>, path: Path) {
    && IsChildDir(nodes, incremental, path) && path != TrashRoot(incremental)
    && path in samples && samples[path].Unreadable?
  }

  /** The profile the directory belongs to is marked by a lock file. */
  ghost predicate HasLockFile(nodes: Nodes, incremental: Path)
    requires incremental != []
  {
    Parent(incremental) + [LOCK] in nodes && nodes[Parent(incremental) + [LOCK]].File?
  }

  /** The verdict on a child, in terms of what is found. */
  lemma JudgedRoot(nodes: Nodes, incremental: Path, samples: map<Path, Sample>, now: int, days: nat, path: Path)
    requires path in nodes && path != [] && Parent(path) == incremental
    ensures var v := JudgeRoot(nodes, incremental, samples, now, days, path);
            && (v.None? <==> UnreadableChild(nodes, incremental, samples, path))
            && (v.Some? ==> v.value.path == path && v.value.profile.None? && v.value.triple.None?)
            && (v.Some? && v.value.action == Delete <==> StaleChild(nodes, incremental, samples, now, days, path))
            && (v.Some? && v.value.action == RecoverTrash <==> path == TrashRoot(incremental) && IsDir(nodes, path))
  {
    if path in samples && samples[path].Newest? { AgeReachesWindow(now, samples[path].unix, days); }
  }

  /** Measured again: what the program compares. */
  predicate StillStale(found: Found, days: nat, path: Path) {
    && path in found.samples && found.samples[path].Newest?
    && var age := RootAge(found.now, found.samples[path].unix);
    age.Some? && age.value >= days
  }

  lemma StillStaleIsStale(found: Found, days: nat, path: Path)
    requires found.held
    ensures StillStale(found, days, path) <==> StaleRoot(found, days, path)
  {
    if path in found.samples && found.samples[path].Newest? {
      AgeReachesWindow(found.now, found.samples[path].unix, days);
    }
  }

  /**
   * The plan for one incremental directory whose profile has a lock file offers exactly the stale children for
   * deletion and exactly a trash directory for recovery; without a lock file it offers nothing.
   */
  method PlanRoots(nodes: Nodes, incremental: Path, listing: seq<Path>, samples: map<Path, Sample>, now: int, days: nat)
    returns (plan: Option<seq<Candidate>>)
    requires Tree(nodes) && incremental != []
    requires forall p | p in listing :: p in nodes && p != [] && Parent(p) == incremental
    ensures plan.Some? ==> forall p | p in listing ::
              Candidate(p, None, None, Delete) in plan.value <==>
                HasLockFile(nodes, incremental) && StaleChild(nodes, incremental, samples, now, days, p)
    ensures plan.Some? ==> forall p | p in listing ::
              Candidate(p, None, None, RecoverTrash) in plan.value <==>
                HasLockFile(nodes, incremental) && p == TrashRoot(incremental) && IsDir(nodes, p)
    ensures plan.Some? ==> forall c | c in plan.value && c.action in {Delete, RecoverTrash} :: c.path in listing
    ensures plan.None? <==>
              HasLockFile(nodes, incremental) && exists p | p in listing ::
                UnreadableChild(nodes, incremental, samples, p)
  {
    var lock := Parent(incremental) + [LOCK];
    if lock !in nodes || !nodes[lock].File? {
      return Some([Candidate(incremental, None, None, Skip)]);
    }
    hide JudgeRoot, StaleChild, UnreadableChild, TrashRoot;
    var candidates: seq<Candidate> := [];
    for i := 0 to |listing|
      invariant |candidates| == i
      invariant forall j | 0 <= j < i ::
                JudgeRoot(nodes, incremental, samples, now, days, listing[j]) == Some(candidates[j])
    {
      assert listing[i] in listing;
      var verdict := JudgeRoot(nodes, incremental, samples, now, days, listing[i]);
      JudgedRoot(nodes, incremental, samples, now, days, listing[i]);
      if verdict.None? { return None; }
      candidates := candidates + [verdict.value];
    }
    forall p | p in listing
      ensures !UnreadableChild(nodes, incremental, samples, p)
      ensures Candidate(p, None, None, Delete) in candidates <==> StaleChild(nodes, incremental, samples, now, days, p)
      ensures Candidate(p, None, None, RecoverTrash) in candidates <==> p == TrashRoot(incremental) && IsDir(nodes, p)
    {
      var j :| 0 <= j < |listing| && listing[j] == p;
      assert candidates[j] in candidates;
      JudgedRoot(nodes, incremental, samples, now, days, p);
      forall k | 0 <= k < |candidates| ensures candidates[k].path == listing[k] {
        assert listing[k] in listing;
        JudgedRoot(nodes, incremental, samples, now, days, listing[k]);
      }
    }
    forall c | c in candidates ensures c.path in listing {
      var k :| 0 <= k < |candidates| && candidates[k] == c;
      assert listing[k] in listing;
      JudgedRoot(nodes, incremental, samples, now, days, listing[k]);
    }
    plan := Some(candidates);
  }

  // ---- the moves ----

  predicate IsChildDir(nodes: Nodes, dir: Path, path: Path) {
    path != [] && Parent(path) == dir && IsDir(nodes, path)
  }

  function RootDestination(incremental: Path, run: string, path: Path): Path
    requires path != []
  {
    TrashRoot(incremental) + [run] + [Last(path)]
  }

  /** Moved roots are distinct children of the directory, stale, and gone to their own names under the run's trash. */
  predicate RootMoves(incremental: Path, run: string, found: Found, days: nat, candidates: seq<Candidate>,
      moved: seq<Move>)
  {
    && (forall i | 0 <= i < |moved| ::
          && moved[i].source != [] && Parent(moved[i].source) == incremental
          && moved[i].source != TrashRoot(incremental)
          && moved[i].target == RootDestination(incremental, run, moved[i].source)
          && IsDir(found.nodes, moved[i].source) && StaleRoot(found, days, moved[i].source)
          && exists c | c in candidates :: c.action == Delete && c.path == moved[i].source)
    && (forall i, j | 0 <= i < j < |moved| :: moved[i].source != moved[j].source)
  }

  lemma SiblingsApart(p: Path, q: Path)
    requires p != [] && q != [] && Parent(p) == Parent(q) && p != q
    ensures Incomparable(p, q) && Last(p) != Last(q)
  {
    assert p == Parent(p) + [Last(p)] && q == Parent(q) + [Last(q)];
  }

  /** Changes that one move can need: directories made, twice to count their later removal, and the rename. */
  function RootCost(incremental: Path): nat {
    2 * (|incremental| + 2) + 1
  }

  predicate RootObstructed(n: Nodes, incremental: Path, run: string, path: Path)
    requires path != []
  {
    RootDestination(incremental, run, path) in n || Blocked(n, TrashRoot(incremental) + [run])
  }

  lemma NotGrown(before: Nodes, after: Nodes, runTrash: Path, name: string)
    requires Grown(before, after, runTrash)
    ensures runTrash + [name] in after ==> runTrash + [name] in before
  {
  }

  /** Rename of one stale root into the trash: whole, or not at all. */
  method QuarantineRoot(d: Disk, incremental: Path, run: string, path: Path) returns (ok: bool)
    requires d.Valid() && IsChildDir(d.nodes, incremental, path)
    modifies d
    ensures d.Valid()
    ensures !ok ==> TrashPrepared(old(d.nodes), d.nodes, TrashRoot(incremental), TrashRoot(incremental) + [run])
    ensures ok ==> path != TrashRoot(incremental)
    ensures ok ==>
              var move := Move(path, RootDestination(incremental, run, path));
              OneMove(old(d.nodes), d.nodes, TrashRoot(incremental), move)
    ensures d.fuel <= old(d.fuel) && d.Reserve() >= old(d.Reserve()) - RootCost(incremental)
    ensures !ok ==>
              d.fuel == 0 || path == TrashRoot(incremental) || RootObstructed(old(d.nodes), incremental, run, path)
  {
    hide OneMove, TrashPrepared, Renamed, Grown, Tree, Blocked;
    var trash := TrashRoot(incremental);
    var runTrash := trash + [run];
    var destination := RootDestination(incremental, run, path);
    ghost var before := d.nodes;
    PreparedRefl(before, trash, runTrash);
    IncrementalPresent(before, incremental, path);
    ok := d.CreateDirAll(runTrash);
    GrownInTrash(before, before, d.nodes, trash, runTrash, runTrash);
    NotGrown(before, d.nodes, runTrash, Last(path));
    if !ok || destination in d.nodes || path == trash { return false; }
    ghost var now := d.nodes;
    PreparedKeeps(before, now, trash, runTrash, path);
    ParentChild(incremental, TRASH);
    SiblingsApart(path, trash);
    ParentChild(runTrash, Last(path));
    DestinationApart(path, trash, destination);
    ok := d.Rename(path, destination);
    if ok {
      PreparedFurther(before, now, trash, runTrash, destination);
      PreparedMove(before, now, d.nodes, trash, Move(path, destination));
    }
  }

  lemma IncrementalPresent(n: Nodes, incremental: Path, path: Path)
    requires Tree(n) && IsChildDir(n, incremental, path)
    ensures TrashRoot(incremental) != [] && Parent(TrashRoot(incremental)) in n
  {
    assert Attached(n, path);
    ParentChild(incremental, TRASH);
  }

  lemma PreparedFurther(before: Nodes, after: Nodes, trash: Path, towards: Path, further: Path)
    requires TrashPrepared(before, after, trash, towards) && Above(towards, further)
    ensures TrashPrepared(before, after, trash, further)
  {
  }

  /** Everything directly in the trash was listed under the lock or is this run's directory. */
  predicate TrashChildren(nodes: Nodes, trash: Path, entries: seq<Path>, run: string, used: bool) {
    forall p | p in nodes && p != [] && Parent(p) == trash :: p in entries || (used && p == trash + [run])
  }

  lemma ChildrenAfterMove(before: Nodes, after: Nodes, trash: Path, entries: seq<Path>, run: string, used: bool,
      m: Move)
    requires TrashChildren(before, trash, entries, run, used) && OneMove(before, after, trash, m)
    requires Above(trash + [run], m.target) && trash + [run] != m.target
    ensures TrashChildren(after, trash, entries, run, true)
  {
    forall p | p in after && p != [] && Parent(p) == trash ensures p in entries || p == trash + [run] {
      assert p == trash + [Last(p)];
      if p !in before {
        assert Near(p, m.target);
        assert m.target[|trash|] == run;
      }
    }
  }

  lemma RootCarriedMore(base: Nodes, before: Nodes, after: Nodes, incremental: Path, run: string, moved: seq<Move>,
      m: Move)
    requires KeptOutside(base, before, TrashRoot(incremental), moved) && AllCarried(base, before, moved)
    requires OneMove(before, after, TrashRoot(incremental), m)
    requires m.source != [] && Parent(m.source) == incremental && m.source != TrashRoot(incremental)
    requires m.target == RootDestination(incremental, run, m.source)
    requires forall i | 0 <= i < |moved| ::
               && moved[i].source != [] && Parent(moved[i].source) == incremental && moved[i].source != m.source
               && moved[i].target == RootDestination(incremental, run, moved[i].source)
    ensures AllCarried(base, after, moved + [m])
  {
    hide KeptOutside, OneMove, CarriedTo, Incomparable;
    var trash := TrashRoot(incremental);
    ParentChild(incremental, TRASH);
    SiblingsApart(m.source, trash);
    forall i | 0 <= i < |moved| ensures Incomparable(moved[i].source, m.source) && CarriedTo(base, after, moved[i]) {
      SiblingsApart(moved[i].source, m.source);
      ParentChild(trash + [run], Last(moved[i].source));
      ParentChild(trash + [run], Last(m.source));
      SiblingsApart(moved[i].target, m.target);
      assert CarriedTo(base, before, moved[i]);
      CarriedStays(base, before, after, trash, moved[i], m);
    }
    CarriedNow(base, before, after, trash, moved, m);
    var more := moved + [m];
    forall i | 0 <= i < |more| ensures CarriedTo(base, after, more[i]) {
      assert i < |moved| ==> more[i] == moved[i];
    }
  }

  /** A source moved once is no longer there to be moved again. */
  lemma MovedIsGone(base: Nodes, nodes: Nodes, incremental: Path, moved: seq<Move>, path: Path)
    requires KeptOutside(base, nodes, TrashRoot(incremental), moved)
    requires path in nodes && path != [] && Parent(path) == incremental && path != TrashRoot(incremental)
    ensures path in base && nodes[path] == base[path]
    ensures forall i | 0 <= i < |moved| :: moved[i].source != path
  {
    ParentChild(incremental, TRASH);
    SiblingsApart(path, TrashRoot(incremental));
    assert Kept(base, nodes, moved, path);
  }

  predicate Handled(found: Found, incremental: Path, days: nat, c: Candidate, moved: seq<Move>) {
    (c.action == Delete && c.path != TrashRoot(incremental)
     && IsChildDir(found.nodes, incremental, c.path) && StaleRoot(found, days, c.path)) ==>
      IsMoved(moved, c.path)
  }

  function RootsCost(n: nat, incremental: Path): nat {
    if n == 0 then 0 else RootsCost(n - 1, incremental) + RootCost(incremental)
  }

  lemma {:induction false} RootsCostGrows(m: nat, n: nat, incremental: Path)
    requires m <= n
    ensures RootsCost(m, incremental) <= RootsCost(n, incremental)
  {
    if m < n { RootsCostGrows(m, n - 1, incremental); }
  }

  /**
   * Nothing hinders the moves: a usable trash, a new run, readable roots, and no candidate that is the trash itself.
   */
  predicate Unhampered(found: Found, incremental: Path, run: string, candidates: seq<Candidate>) {
    && !NoDir(found.nodes, TrashRoot(incremental)) && NothingAt(found.nodes, TrashRoot(incremental) + [run])
    && forall c | c in candidates && c.action == Delete ::
         c.path != TrashRoot(incremental) && !(c.path in found.samples && found.samples[c.path].Unreadable?)
  }

  /** All that is below this run's trash came with a move. */
  predicate RunIs(nodes: Nodes, runTrash: Path, moved: seq<Move>) {
    forall q | q in nodes && Above(runTrash, q) && q != runTrash :: CameWith(moved, q)
  }

  predicate CameWith(moved: seq<Move>, q: Path) {
    exists i | 0 <= i < |moved| :: Above(moved[i].target, q)
  }

  /** After i candidates: what was moved lies in this run's trash, and everything else is where it was found. */
  ghost predicate Progress(found: Found, nodes: Nodes, incremental: Path, run: string, days: nat,
      candidates: seq<Candidate>, i: nat, moved: seq<Move>)
    requires i <= |candidates|
  {
    var trash := TrashRoot(incremental);
    && RootMoves(incremental, run, found, days, candidates, moved)
    && KeptOutside(found.nodes, nodes, trash, moved)
    && AllCarried(found.nodes, nodes, moved)
    && TrashChildren(nodes, trash, found.trash, run, moved != [])
    && (forall j | 0 <= j < i :: Handled(found, incremental, days, candidates[j], moved))
    && (moved == [] ==> nodes == found.nodes)
    && (NothingAt(found.nodes, trash + [run]) ==> RunIs(nodes, trash + [run], moved))
  }

  lemma ProgressMoves(found: Found, before: Nodes, after: Nodes, incremental: Path, run: string, days: nat,
      candidates: seq<Candidate>, i: nat, moved: seq<Move>, m: Move)
    requires i < |candidates| && Progress(found, before, incremental, run, days, candidates, i, moved)
    requires OneMove(before, after, TrashRoot(incremental), m) && IsChildDir(before, incremental, m.source)
    requires candidates[i].action == Delete && candidates[i].path == m.source != TrashRoot(incremental)
    requires m.target == RootDestination(incremental, run, m.source) && StaleRoot(found, days, m.source)
    ensures Progress(found, after, incremental, run, days, candidates, i + 1, moved + [m])
  {
    hide KeptOutside, AllCarried, OneMove, TrashChildren, RootMoves, Handled, RunIs, NothingAt, StaleRoot;
    var trash := TrashRoot(incremental);
    ParentChild(trash + [run], Last(m.source));
    MovedIsGone(found.nodes, before, incremental, moved, m.source);
    OneMoreRoot(found, before, after, incremental, run, days, candidates, moved, m, candidates[i]);
    if NothingAt(found.nodes, trash + [run]) { RunIsMore(before, after, trash, run, moved, m); }
    StillHandled(found, incremental, days, candidates, i, moved, m);
  }

  lemma ProgressSkips(found: Found, nodes: Nodes, incremental: Path, run: string, days: nat,
      candidates: seq<Candidate>, i: nat, moved: seq<Move>)
    requires i < |candidates| && Progress(found, nodes, incremental, run, days, candidates, i, moved)
    requires var c := candidates[i];
             c.action != Delete || !IsChildDir(nodes, incremental, c.path) || !StaleRoot(found, days, c.path)
    ensures Progress(found, nodes, incremental, run, days, candidates, i + 1, moved)
  {
    hide KeptOutside, AllCarried, TrashChildren, RootMoves, Handled, RunIs, NothingAt, StaleRoot;
    var c := candidates[i];
    if c.action != Delete || !IsChildDir(nodes, incremental, c.path) {
      AbsentHandled(found, nodes, incremental, run, days, candidates, c, moved);
    } else {
      NotStaleHandled(found, incremental, days, c, moved);
    }
  }

  lemma ProgressFree(found: Found, nodes: Nodes, incremental: Path, run: string, days: nat,
      candidates: seq<Candidate>, i: nat, moved: seq<Move>)
    requires i < |candidates| && Progress(found, nodes, incremental, run, days, candidates, i, moved) && Tree(nodes)
    requires Unhampered(found, incremental, run, candidates)
    requires candidates[i].action == Delete && IsChildDir(nodes, incremental, candidates[i].path)
    ensures var c := candidates[i];
            && c.path != TrashRoot(incremental) && !RootObstructed(nodes, incremental, run, c.path)
            && !(c.path in found.samples && found.samples[c.path].Unreadable?)
  {
    hide KeptOutside, AllCarried, TrashChildren, RootMoves, Handled, RunIs, StaleRoot, Unhampered, RootObstructed, Tree;
    UnhamperedFor(found, incremental, run, candidates, candidates[i]);
    UnhamperedFree(found, nodes, incremental, run, days, candidates, moved, candidates[i].path);
  }

  lemma ProgressStops(found: Found, before: Nodes, after: Nodes, incremental: Path, run: string, days: nat,
      candidates: seq<Candidate>, i: nat, moved: seq<Move>)
    requires i <= |candidates| && Progress(found, before, incremental, run, days, candidates, i, moved)
    requires TrashPrepared(before, after, TrashRoot(incremental), TrashRoot(incremental) + [run])
    ensures RootMoves(incremental, run, found, days, candidates, moved)
    ensures KeptOutside(found.nodes, after, TrashRoot(incremental), moved) && AllCarried(found.nodes, after, moved)
  {
    hide KeptOutside, AllCarried, TrashChildren, RootMoves, Handled, RunIs, NothingAt, TrashPrepared;
    var trash := TrashRoot(incremental);
    PreparedIsKept(found.nodes, before, after, trash, trash + [run], moved);
    PreparedRootsStay(found, before, after, incremental, run, days, candidates, moved);
  }

  /** Only a root found stale under the lock is moved. */
  lemma MovedUnderLock(incremental: Path, run: string, found: Found, days: nat, candidates: seq<Candidate>,
      moved: seq<Move>)
    requires RootMoves(incremental, run, found, days, candidates, moved)
    ensures moved != [] ==> found.held
  {
    assert moved != [] ==> StaleRoot(found, days, moved[0].source);
  }

  lemma ProgressEnds(found: Found, nodes: Nodes, incremental: Path, run: string, days: nat, candidates: seq<Candidate>,
      i: nat, moved: seq<Move>)
    requires i <= |candidates| && Progress(found, nodes, incremental, run, days, candidates, i, moved)
    ensures RootMoves(incremental, run, found, days, candidates, moved)
    ensures KeptOutside(found.nodes, nodes, TrashRoot(incremental), moved) && AllCarried(found.nodes, nodes, moved)
    ensures TrashChildren(nodes, TrashRoot(incremental), found.trash, run, moved != [])
    ensures i == |candidates| ==> forall c | c in candidates :: Handled(found, incremental, days, c, moved)
    ensures moved == [] ==> nodes == found.nodes
    ensures moved != [] ==> found.held
  {
    MovedUnderLock(incremental, run, found, days, candidates, moved);
    hide KeptOutside, AllCarried, TrashChildren, RootMoves, Handled, RunIs, NothingAt;
  }

  method QuarantineRoots(d: Disk, incremental: Path, candidates: seq<Candidate>, days: nat, run: string, found: Found)
    returns (ok: bool, moved: seq<Move>)
    requires d.Valid() && d.nodes == found.nodes && ListsTrash(found.nodes, TrashRoot(incremental), found.trash)
    requires found.held
    modifies d
    ensures d.Valid() && RootMoves(incremental, run, found, days, candidates, moved)
    ensures moved != [] ==> found.held
    ensures KeptOutside(found.nodes, d.nodes, TrashRoot(incremental), moved) && AllCarried(found.nodes, d.nodes, moved)
    ensures ok ==> TrashChildren(d.nodes, TrashRoot(incremental), found.trash, run, moved != [])
    ensures ok ==> forall c | c in candidates :: Handled(found, incremental, days, c, moved)
    ensures moved == [] && ok ==> d.nodes == found.nodes
    ensures d.Reserve() >= old(d.Reserve()) - RootsCost(|candidates|, incremental)
    ensures !ok ==> d.fuel == 0 || !Unhampered(found, incremental, run, candidates)
  {
    hide Progress, KeptOutside, AllCarried, OneMove, Tree, TrashPrepared, TrashChildren, RootMoves, Handled, RunIs,
      Unhampered, RootObstructed, RootCost, StaleRoot, StillStale;
    moved := [];
    ProgressStarts(found, incremental, run, days, candidates);
    for i := 0 to |candidates|
      invariant d.Valid() && Progress(found, d.nodes, incremental, run, days, candidates, i, moved)
      invariant d.Reserve() >= old(d.Reserve()) - RootsCost(i, incremental)
    {
      var c := candidates[i];
      RootsCostGrows(i, i + 1, incremental);
      RootsCostGrows(i + 1, |candidates|, incremental);
      ProgressEnds(found, d.nodes, incremental, run, days, candidates, i, moved);
      if c.action == Delete && IsChildDir(d.nodes, incremental, c.path) {
        if Unhampered(found, incremental, run, candidates) {
          ProgressFree(found, d.nodes, incremental, run, days, candidates, i, moved);
        }
        if c.path in found.samples && found.samples[c.path].Unreadable? { return false, moved; }
        StillStaleIsStale(found, days, c.path);
        if StillStale(found, days, c.path) {
          ghost var before := d.nodes;
          ok := QuarantineRoot(d, incremental, run, c.path);
          if !ok {
            ProgressStops(found, before, d.nodes, incremental, run, days, candidates, i, moved);
            return;
          }
          var m := Move(c.path, RootDestination(incremental, run, c.path));
          ProgressMoves(found, before, d.nodes, incremental, run, days, candidates, i, moved, m);
          moved := moved + [m];
        } else {
          ProgressSkips(found, d.nodes, incremental, run, days, candidates, i, moved);
        }
      } else {
        ProgressSkips(found, d.nodes, incremental, run, days, candidates, i, moved);
      }
    }
    ProgressEnds(found, d.nodes, incremental, run, days, candidates, |candidates|, moved);
    ok := true;
  }

  lemma UnhamperedFor(found: Found, incremental: Path, run: string, candidates: seq<Candidate>, c: Candidate)
    requires c in candidates && c.action == Delete && Unhampered(found, incremental, run, candidates)
    ensures c.path != TrashRoot(incremental) && !(c.path in found.samples && found.samples[c.path].Unreadable?)
    ensures NothingAt(found.nodes, TrashRoot(incremental) + [run])
  {
  }

  lemma RunIsMore(before: Nodes, after: Nodes, trash: Path, run: string, moved: seq<Move>, m: Move)
    requires RunIs(before, trash + [run], moved) && OneMove(before, after, trash, m)
    requires m.target != [] && Parent(m.target) == trash + [run]
    ensures RunIs(after, trash + [run], moved + [m])
  {
    var runTrash, more := trash + [run], moved + [m];
    forall q | q in after && Above(runTrash, q) && q != runTrash ensures CameWith(more, q) {
      if q in before {
        assert CameWith(moved, q);
        var i :| 0 <= i < |moved| && Above(moved[i].target, q);
        assert Above(more[i].target, q);
      } else {
        assert Above(trash, q) && Near(q, m.target);
        if !Above(m.target, q) { PrefixStep(q, m.target); }
        assert Above(more[|moved|].target, q);
      }
    }
  }

  /** With nothing in the way, the next root's destination is free. */
  lemma UnhamperedFree(found: Found, nodes: Nodes, incremental: Path, run: string, days: nat,
      candidates: seq<Candidate>, moved: seq<Move>, path: Path)
    requires Tree(nodes) && Unhampered(found, incremental, run, candidates)
    requires RootMoves(incremental, run, found, days, candidates, moved)
    requires KeptOutside(found.nodes, nodes, TrashRoot(incremental), moved) && AllCarried(found.nodes, nodes, moved)
    requires RunIs(nodes, TrashRoot(incremental) + [run], moved) && (moved == [] ==> nodes == found.nodes)
    requires IsChildDir(nodes, incremental, path) && path != TrashRoot(incremental)
    ensures !RootObstructed(nodes, incremental, run, path)
  {
    hide KeptOutside, AllCarried, StaleRoot;
    DestinationFree(found, nodes, incremental, run, days, candidates, moved, path);
    WayFree(found, nodes, incremental, run, days, candidates, moved, path);
  }

  lemma DestinationFree(found: Found, nodes: Nodes, incremental: Path, run: string, days: nat,
      candidates: seq<Candidate>, moved: seq<Move>, path: Path)
    requires RootMoves(incremental, run, found, days, candidates, moved)
    requires RunIs(nodes, TrashRoot(incremental) + [run], moved)
    requires KeptOutside(found.nodes, nodes, TrashRoot(incremental), moved)
    requires IsChildDir(nodes, incremental, path) && path != TrashRoot(incremental)
    ensures RootDestination(incremental, run, path) !in nodes
  {
    hide StaleRoot, KeptOutside;
    var destination := RootDestination(incremental, run, path);
    ParentChild(TrashRoot(incremental) + [run], Last(path));
    MovedIsGone(found.nodes, nodes, incremental, moved, path);
    forall i | 0 <= i < |moved| ensures !Above(moved[i].target, destination) {
      SiblingsApart(moved[i].source, path);
      assert |moved[i].target| == |destination| && moved[i].target[|destination| - 1] == Last(moved[i].source);
    }
    assert !CameWith(moved, destination);
  }

  lemma WayFree(found: Found, nodes: Nodes, incremental: Path, run: string, days: nat, candidates: seq<Candidate>,
      moved: seq<Move>, path: Path)
    requires Tree(nodes) && Unhampered(found, incremental, run, candidates)
    requires RootMoves(incremental, run, found, days, candidates, moved)
    requires AllCarried(found.nodes, nodes, moved) && (moved == [] ==> nodes == found.nodes)
    requires IsChildDir(nodes, incremental, path)
    ensures !Blocked(nodes, TrashRoot(incremental) + [run])
  {
    hide StaleRoot, AllCarried, Blocked, Tree;
    var trash, runTrash := TrashRoot(incremental), TrashRoot(incremental) + [run];
    assert moved != [] ==> SourcesPresent(found.nodes, moved);
    if moved != [] {
      TargetPresentAt(found.nodes, nodes, moved, 0);
      ParentChild(runTrash, Last(moved[0].source));
    }
    forall q | q in nodes && Above(q, runTrash) ensures nodes[q].Dir? {
      if moved != [] {
        assert Above(q, moved[0].target) && q != moved[0].target;
      } else {
        OnTheWayUp(incremental, run, q);
        if Above(q, incremental) { AncestorsPresent(nodes, q, path); }
      }
    }
    NotBlocked(nodes, runTrash);
  }

  lemma OnTheWayUp(incremental: Path, run: string, q: Path)
    requires Above(q, TrashRoot(incremental) + [run])
    ensures q == TrashRoot(incremental) + [run] || q == TrashRoot(incremental) || Above(q, incremental)
  {
    ParentChild(TrashRoot(incremental), run);
    PrefixStep(q, TrashRoot(incremental) + [run]);
    ParentChild(incremental, TRASH);
    if Above(q, TrashRoot(incremental)) { PrefixStep(q, TrashRoot(incremental)); }
  }

  lemma ProgressStarts(found: Found, incremental: Path, run: string, days: nat, candidates: seq<Candidate>)
    requires ListsTrash(found.nodes, TrashRoot(incremental), found.trash)
    ensures Progress(found, found.nodes, incremental, run, days, candidates, 0, [])
  {
  }

  lemma NotStaleHandled(found: Found, incremental: Path, days: nat, c: Candidate, moved: seq<Move>)
    requires !StaleRoot(found, days, c.path)
    ensures Handled(found, incremental, days, c, moved)
  {
  }

  /** A candidate that is no longer there was moved before, or is not a directory of its own. */
  lemma AbsentHandled(found: Found, nodes: Nodes, incremental: Path, run: string, days: nat,
      candidates: seq<Candidate>, c: Candidate, moved: seq<Move>)
    requires KeptOutside(found.nodes, nodes, TrashRoot(incremental), moved)
    requires RootMoves(incremental, run, found, days, candidates, moved)
    requires c.action != Delete || !IsChildDir(nodes, incremental, c.path)
    ensures Handled(found, incremental, days, c, moved)
  {
    if c.action == Delete && c.path != TrashRoot(incremental) && IsChildDir(found.nodes, incremental, c.path) {
      ParentChild(incremental, TRASH);
      SiblingsApart(c.path, TrashRoot(incremental));
      assert Kept(found.nodes, nodes, moved, c.path);
      var i :| 0 <= i < |moved| && Above(moved[i].source, c.path);
      if moved[i].source != c.path { SiblingsApart(moved[i].source, c.path); }
      assert moved[i] in moved;
    }
  }

  lemma StillHandled(found: Found, incremental: Path, days: nat, candidates: seq<Candidate>, i: nat,
      moved: seq<Move>, m: Move)
    requires i < |candidates| && m.source == candidates[i].path
    requires forall j | 0 <= j < i :: Handled(found, incremental, days, candidates[j], moved)
    ensures forall j | 0 <= j <= i :: Handled(found, incremental, days, candidates[j], moved + [m])
  {
    var more := moved + [m];
    assert more[|moved|] == m;
    forall j | 0 <= j <= i ensures Handled(found, incremental, days, candidates[j], more) {
      if j < i && IsMoved(moved, candidates[j].path) {
        var x :| x in moved && x.source == candidates[j].path;
        assert x in more;
      }
      assert j < i ==> Handled(found, incremental, days, candidates[j], moved);
    }
  }

  lemma OneMoreRoot(found: Found, before: Nodes, after: Nodes, incremental: Path, run: string, days: nat,
      candidates: seq<Candidate>, moved: seq<Move>, m: Move, c: Candidate)
    requires RootMoves(incremental, run, found, days, candidates, moved)
    requires KeptOutside(found.nodes, before, TrashRoot(incremental), moved) && AllCarried(found.nodes, before, moved)
    requires OneMove(before, after, TrashRoot(incremental), m)
    requires TrashChildren(before, TrashRoot(incremental), found.trash, run, moved != [])
    requires c in candidates && c.action == Delete && c.path == m.source && IsDir(found.nodes, c.path)
    requires StaleRoot(found, days, c.path)
    requires m.source != [] && Parent(m.source) == incremental && m.source != TrashRoot(incremental)
    requires m.target == RootDestination(incremental, run, m.source)
    requires forall i | 0 <= i < |moved| :: moved[i].source != m.source
    ensures RootMoves(incremental, run, found, days, candidates, moved + [m])
    ensures KeptOutside(found.nodes, after, TrashRoot(incremental), moved + [m])
    ensures AllCarried(found.nodes, after, moved + [m])
    ensures TrashChildren(after, TrashRoot(incremental), found.trash, run, true)
  {
    hide KeptOutside, AllCarried, OneMove, TrashChildren, StaleRoot;
    MoveOneMore(found.nodes, before, after, TrashRoot(incremental), moved, m);
    RootCarriedMore(found.nodes, before, after, incremental, run, moved, m);
    ChildrenAfterMove(before, after, TrashRoot(incremental), found.trash, run, moved != [], m);
  }

  lemma PreparedRootsStay(found: Found, before: Nodes, after: Nodes, incremental: Path, run: string, days: nat,
      candidates: seq<Candidate>, moved: seq<Move>)
    requires RootMoves(incremental, run, found, days, candidates, moved) && AllCarried(found.nodes, before, moved)
    requires TrashPrepared(before, after, TrashRoot(incremental), TrashRoot(incremental) + [run])
    ensures AllCarried(found.nodes, after, moved)
  {
    hide StaleRoot;
    forall i | 0 <= i < |moved| ensures CarriedTo(found.nodes, after, moved[i]) {
      assert CarriedTo(found.nodes, before, moved[i]);
      forall q | Above(moved[i].target, q) ensures MovedTo(found.nodes, after, moved[i].source, moved[i].target, q) {
        assert MovedTo(found.nodes, before, moved[i].source, moved[i].target, q);
        assert q in before ==> SameAt(before, after, q);
      }
    }
  }

  /** Old entries and this run's directory are deleted, then the trash itself when nothing is left in it. */
  method EmptyTrash(d: Disk, trash: Path, entries: seq<Path>, run: string, used: bool) returns (ok: bool)
    requires d.Valid() && trash != [] && forall p | p in entries :: p != [] && Parent(p) == trash
    modifies d
    ensures d.Valid() && Eroded(old(d.nodes), d.nodes, trash) && d.Reserve() == old(d.Reserve())
    ensures !ok ==> d.fuel == 0 || NoDir(old(d.nodes), trash)
    ensures ok && TrashChildren(old(d.nodes), trash, entries, run, used) ==> NothingAt(d.nodes, trash)
  {
    hide Eroded, NothingAt, TrashChildren, Tree, NoDir;
    ghost var before := d.nodes;
    ErodedRefl(before, trash);
    for i := 0 to |entries|
      invariant d.Valid() && Eroded(before, d.nodes, trash) && d.Reserve() == old(d.Reserve())
      invariant forall j | 0 <= j < i :: NothingAt(d.nodes, entries[j])
    {
      assert entries[i] in entries;
      ghost var now := d.nodes;
      ok := d.RemoveEntry(entries[i]);
      ErodedBelow(before, now, d.nodes, trash, entries[i]);
      if !ok { return; }
    }
    if used {
      ghost var now := d.nodes;
      ok := d.RemoveEntry(trash + [run]);
      ErodedBelow(before, now, d.nodes, trash, trash + [run]);
      if !ok { return; }
    }
    ghost var left := d.nodes;
    ErodedKinds(before, left, trash, trash);
    ok := RemoveEmptyTrashRoot(d, trash);
    ErodedBelow(before, left, d.nodes, trash, trash);
    if ok && TrashChildren(before, trash, entries, run, used) {
      ChildrenGone(before, left, trash, entries, run, used);
      EmptiedTrash(left, d.nodes, trash);
    }
  }

  lemma ChildrenGone(before: Nodes, left: Nodes, trash: Path, entries: seq<Path>, run: string, used: bool)
    requires Tree(left) && Eroded(before, left, trash) && TrashChildren(before, trash, entries, run, used)
    requires forall j | 0 <= j < |entries| :: NothingAt(left, entries[j])
    requires used ==> NothingAt(left, trash + [run])
    ensures Bare(left, trash)
  {
    forall p | p != [] && Parent(p) == trash ensures p !in left {
      assert p in left ==> p in before;
    }
    forall q | q in left && Above(trash, q) ensures q == trash {
      if q != trash {
        var child := ChildTowards(left, trash, q);
      }
    }
  }

  /**
   * The sweep of one directory. However it ends, nothing outside the trash is gone but stale roots moved
   * whole. Uninterrupted, with the lock and nothing in the way, it succeeds: every stale candidate went and no
   * trash is left, whatever earlier runs left.
   */
  method SweepDirectory(d: Disk, incremental: Path, candidates: seq<Candidate>, days: nat, run: string, found: Found)
    returns (ok: bool, moved: seq<Move>, ghost base: Nodes)
    requires d.Valid() && Tree(found.nodes) && ListsTrash(found.nodes, TrashRoot(incremental), found.trash)
    modifies d
    ensures d.Valid()
    ensures base == found.nodes || (moved == [] && base == old(d.nodes) == d.nodes)
    ensures RootMoves(incremental, run, found, days, candidates, moved)
    ensures moved != [] ==> found.held
    ensures !found.held ==> d.nodes == old(d.nodes)
    ensures KeptOutside(base, d.nodes, TrashRoot(incremental), moved)
    ensures forall i | 0 <= i < |moved| :: Remnant(base, d.nodes, moved[i])
    ensures ok && incremental in old(d.nodes) && incremental in found.nodes ==>
              NothingAt(d.nodes, TrashRoot(incremental)) && forall c | c in candidates ::
                Handled(found, incremental, days, c, moved)
    ensures (found.held && Unhampered(found, incremental, run, candidates) && !NoDir(found.nodes, incremental)
             && old(d.fuel) > |found.nodes| + RootsCost(|candidates|, incremental)) ==> ok
  {
    hide KeptOutside, AllCarried, Eroded, NothingAt, Tree, Remnant, RootMoves, Handled, TrashChildren, ListsTrash,
      Unhampered, RootsCost, NoDir;
    var trash := TrashRoot(incremental);
    moved := [];
    base := d.nodes;
    KeptAtFirst(base, trash);
    ProgressStarts(found, incremental, run, days, candidates);
    ProgressEnds(found, found.nodes, incremental, run, days, candidates, 0, []);
    UsableTrash(found, incremental, run, candidates);
    if incremental !in d.nodes { return true, [], base; }
    if !found.held { return false, [], base; }
    d.nodes := found.nodes;
    base := found.nodes;
    KeptAtFirst(base, trash);
    if incremental !in d.nodes { return true, [], base; }
    if NoDir(d.nodes, incremental) || NoDir(d.nodes, trash) { return false, [], base; }
    ok, moved := QuarantineRoots(d, incremental, candidates, days, run, found);
    ErodedRefl(d.nodes, trash);
    RemnantsOf(base, d.nodes, d.nodes, trash, moved);
    if !ok { return; }
    ghost var mid := d.nodes;
    TrashStaysDir(found, mid, incremental, run, days, candidates, moved);
    ListedChildren(found.nodes, trash, found.trash);
    ok := EmptyTrash(d, trash, found.trash, run, moved != []);
    RemnantsOf(base, mid, d.nodes, trash, moved);
  }

  lemma UsableTrash(found: Found, incremental: Path, run: string, candidates: seq<Candidate>)
    ensures Unhampered(found, incremental, run, candidates) ==> !NoDir(found.nodes, TrashRoot(incremental))
  {
  }

  lemma TrashStaysDir(found: Found, mid: Nodes, incremental: Path, run: string, days: nat,
      candidates: seq<Candidate>, moved: seq<Move>)
    requires Tree(mid) && RootMoves(incremental, run, found, days, candidates, moved)
    requires AllCarried(found.nodes, mid, moved)
    requires (moved == [] ==> mid == found.nodes) && !NoDir(found.nodes, TrashRoot(incremental))
    ensures !NoDir(mid, TrashRoot(incremental))
  {
    hide StaleRoot, AllCarried, Tree;
    if moved != [] {
      assert SourcesPresent(found.nodes, moved);
      TargetPresentAt(found.nodes, mid, moved, 0);
      assert Above(TrashRoot(incremental), moved[0].target) && TrashRoot(incremental) != moved[0].target;
    }
  }

  lemma ListedChildren(nodes: Nodes, trash: Path, entries: seq<Path>)
    requires ListsTrash(nodes, trash, entries)
    ensures forall p | p in entries :: p != [] && Parent(p) == trash
  {
  }
}
