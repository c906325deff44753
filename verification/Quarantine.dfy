// The move of profiles into the trash of their target directory: what one rename does, and what any
// number of them leaves behind, with a crash possible at any change.

module Quarantines {
  import opened Disks
  import opened Paths
  import opened ProfileSweep
  import opened Wrappers

  /**
   * The relative path of a profile directory, rebuilt from the planned profile and triple: None when the
   * profile is not supported or the directory is not where the plan says.
   */
  function ValidatedRelative(target: Path, path: Path, profile: string,
      triple: Option<string>): (relative: Option<Path>)
    ensures relative.Some? <==> Located(target, path, profile, triple)
    ensures relative.Some? ==> relative.value != [] && path == target + relative.value && Above(target, path)
  {
    if OutputOf(profile).None? then None else
      var expected := (if triple.Some? then [triple.value] else []) + [OutputOf(profile).value];
      if !Above(target, path) then None
      else if path[|target|..] != expected then None
      else Some(expected)
  }

  predicate Incomparable(p: Path, q: Path) {
    !Above(p, q) && !Above(q, p)
  }

  // ---- what one rename does ----

  /** Below `source` everything went to `target`, unchanged; the rest of the disk outside the trash is as before. */
  ghost predicate OneMove(before: Nodes, after: Nodes, trash: Path, m: Move) {
    && NothingAt(after, m.source)
    && (forall q | !Above(trash, q) && !Above(m.source, q) :: SameAt(before, after, q))
    && CarriedTo(before, after, m)
    && (forall q | Above(trash, q) && q in before :: SameAt(before, after, q))
    && (forall q | Above(trash, q) && q in after && q !in before :: Near(q, m.target))
  }

  /** Everything `before` had below the source is below the target, and nothing else is. */
  ghost predicate CarriedTo(before: Nodes, after: Nodes, m: Move) {
    forall q | Above(m.target, q) :: MovedTo(before, after, m.source, m.target, q)
  }

  /** Only directories were added, all in the trash. */
  ghost predicate TrashPrepared(before: Nodes, after: Nodes, trash: Path, towards: Path) {
    && (forall q | !Above(trash, q) :: SameAt(before, after, q))
    && (forall q | q in before :: SameAt(before, after, q))
    && (forall q | q in after && q !in before :: Above(q, towards))
  }

  lemma GrownInTrash(before: Nodes, now: Nodes, after: Nodes, trash: Path, towards: Path, p: Path)
    requires Tree(before) && trash != [] && Parent(trash) in before && Above(p, towards) && Above(trash, towards)
    requires TrashPrepared(before, now, trash, towards) && Grown(now, after, p)
    ensures TrashPrepared(before, after, trash, towards)
  {
    forall q | q in after && !Above(trash, q) ensures q in before {
      if q !in now {
        assert Above(q, towards);
        if |q| >= |trash| {
          PrefixesCompare(trash, q, towards);
        } else {
          PrefixesCompare(q, Parent(trash), towards);
          AncestorsPresent(before, q, Parent(trash));
        }
      }
    }
  }

  lemma PreparedMove(before: Nodes, now: Nodes, after: Nodes, trash: Path, m: Move)
    requires Tree(now) && TrashPrepared(before, now, trash, m.target) && Renamed(now, after, m.source, m.target)
    requires Above(trash, m.target) && !Above(m.source, trash) && !Above(trash, m.source) && m.target !in now
    ensures OneMove(before, after, trash, m)
  {
    NothingLeft(now, m.target);
    forall q | Above(m.source, q) ensures !Above(trash, q) {
      if Above(trash, q) {
        PrefixesComparable(trash, m.source, q);
      }
    }
    forall q | Above(m.target, q) ensures MovedTo(before, after, m.source, m.target, q) {
      assert MovedTo(now, after, m.source, m.target, q);
      assert Above(m.source, Rebased(m.target, m.source, q));
      assert SameAt(before, now, Rebased(m.target, m.source, q));
    }
    forall q | Above(trash, q) && q in before ensures SameAt(before, after, q) {
      assert SameAt(before, now, q) && SameAt(now, after, q);
    }
    forall q | !Above(trash, q) && !Above(m.source, q) ensures SameAt(before, after, q) {
      assert SameAt(before, now, q) && SameAt(now, after, q);
    }
    forall q | Above(trash, q) && q in after && q !in before ensures Near(q, m.target) {
      if !Above(m.target, q) { assert SameAt(now, after, q); }
    }
  }

  function Destination(target: Path, run: string, path: Path): Path
    requires Above(target, path)
  {
    TrashRoot(target) + [run] + path[|target|..]
  }

  /** A quarantine that failed has at most prepared directories for it in the trash. */
  ghost predicate OnlyPrepared(before: Nodes, after: Nodes, target: Path, run: string, c: Candidate) {
    && c.profile.Some? && Located(target, c.path, c.profile.value, c.triple)
    && TrashPrepared(before, after, TrashRoot(target), Destination(target, run, c.path))
  }

  /** Make the run directory and then the parent of the destination. */
  method PrepareWay(d: Disk, trash: Path, run: string, destination: Path) returns (ok: bool)
    requires d.Valid() && trash != [] && Parent(trash) in d.nodes
    requires destination != [] && Above(trash + [run], Parent(destination))
    modifies d
    ensures d.Valid() && TrashPrepared(old(d.nodes), d.nodes, trash, destination)
    ensures ok ==> IsDir(d.nodes, Parent(destination))
    ensures !ok ==> d.fuel == 0 || Blocked(old(d.nodes), Parent(destination))
    ensures destination in d.nodes ==> destination in old(d.nodes)
    ensures d.fuel <= old(d.fuel) && d.Reserve() >= old(d.Reserve()) - 4 * |destination|
  {
    hide TrashPrepared, Grown, Tree, Blocked;
    var runTrash := trash + [run];
    var parent := Parent(destination);
    ghost var before := d.nodes;
    PreparedRefl(before, trash, destination);
    ok := d.CreateDirAll(runTrash);
    WayAbove(trash, runTrash, destination);
    GrownInTrash(before, before, d.nodes, trash, destination, runTrash);
    GrownRefl(d.nodes, parent);
    GrownFree(before, d.nodes, d.nodes, runTrash, destination);
    if !ok { return; }
    ghost var now := d.nodes;
    ok := d.CreateDirAll(parent);
    GrownInTrash(before, now, d.nodes, trash, destination, parent);
    GrownFree(before, now, d.nodes, runTrash, destination);
  }

  lemma WayAbove(trash: Path, runTrash: Path, destination: Path)
    requires destination != [] && Above(trash, runTrash) && Above(runTrash, Parent(destination))
    ensures Above(runTrash, destination) && Above(Parent(destination), destination) && Above(trash, destination)
    ensures |runTrash| <= |destination| && |Parent(destination)| <= |destination|
  {
    AboveParent(runTrash, destination);
    AboveParent(trash, destination);
  }

  lemma AboveParent(p: Path, q: Path)
    requires q != [] && Above(p, Parent(q))
    ensures Above(p, q)
  {
  }

  /** Quarantine of one eligible profile: the rename happens whole or not at all. */
  method QuarantineOne(d: Disk, target: Path, run: string, c: Candidate) returns (move: Option<Move>)
    requires d.Valid() && c.profile.Some?
    requires Incomparable(c.path, TrashRoot(target))
    modifies d
    ensures d.Valid()
    ensures move.None? ==> d.nodes == old(d.nodes) || OnlyPrepared(old(d.nodes), d.nodes, target, run, c)
    ensures move.Some? ==> Located(target, c.path, c.profile.value, c.triple) && IsDir(old(d.nodes), c.path)
    ensures move.Some? ==> move.value == Move(c.path, Destination(target, run, c.path))
    ensures move.Some? ==> OneMove(old(d.nodes), d.nodes, TrashRoot(target), move.value)
    ensures d.fuel <= old(d.fuel) && d.Reserve() >= old(d.Reserve()) - MoveCost(target)
    ensures move.None? ==> d.fuel == 0 || Obstructed(old(d.nodes), target, run, c)
  {
    hide OneMove, TrashPrepared, Renamed, Tree, Blocked, Destination, Located, Incomparable, Above, TrashRoot;
    if c.path !in d.nodes || !d.nodes[c.path].Dir? { return None; }
    var relative := ValidatedRelative(target, c.path, c.profile.value, c.triple);
    if relative.None? { return None; }
    var trash := TrashRoot(target);
    var destination := trash + [run] + relative.value;
    ghost var before := d.nodes;
    TargetPresent(before, target, c.path);
    DestinationFacts(target, run, c, relative.value);
    var ok := PrepareWay(d, trash, run, destination);
    if !ok || destination in d.nodes { return None; }
    ghost var now := d.nodes;
    PreparedKeeps(before, now, trash, destination, c.path);
    ok := d.Rename(c.path, destination);
    if !ok { return None; }
    move := Some(Move(c.path, destination));
    PreparedMove(before, now, d.nodes, trash, move.value);
  }

  /** Where the destination of a quarantined profile lies. */
  lemma DestinationFacts(target: Path, run: string, c: Candidate, relative: Path)
    requires c.profile.Some? && Located(target, c.path, c.profile.value, c.triple) && Above(target, c.path)
    requires Incomparable(c.path, TrashRoot(target)) && c.path == target + relative
    ensures var trash := TrashRoot(target); var destination := trash + [run] + relative;
            && destination == Destination(target, run, c.path) && destination != [] && c.path != []
            && |destination| <= |target| + 4
            && Above(trash, destination) && Above(trash + [run], Parent(destination))
            && !Above(c.path, destination) && !Above(c.path, trash) && !Above(trash, c.path)
  {
    ShortDestination(target, run, c);
    assert c.path[|target|..] == relative;
    DestinationApart(c.path, TrashRoot(target), TrashRoot(target) + [run] + relative);
  }

  /**
   * Changes of the disk that one move can need: directories made, twice to count their later removal, and the rename.
   */
  function MoveCost(target: Path): nat {
    4 * (|target| + 4) + 1
  }

  /** The profile is not where the plan says, or something stands in the way of its quarantine. */
  predicate Obstructed(n: Nodes, target: Path, run: string, c: Candidate)
    requires c.profile.Some?
  {
    || !IsDir(n, c.path) || !Located(target, c.path, c.profile.value, c.triple)
    || Destination(target, run, c.path) in n || Blocked(n, Parent(Destination(target, run, c.path)))
  }

  lemma ShortDestination(target: Path, run: string, c: Candidate)
    requires c.profile.Some? && Located(target, c.path, c.profile.value, c.triple)
    ensures |Destination(target, run, c.path)| <= |target| + 4
    ensures Above(TrashRoot(target) + [run], Parent(Destination(target, run, c.path)))
  {
    assert c.path[|target|..] != [];
  }

  /** Preparing directories neither makes the destination nor puts anything in its way. */
  lemma GrownFree(before: Nodes, now: Nodes, after: Nodes, runTrash: Path, destination: Path)
    requires destination != [] && Above(runTrash, Parent(destination))
    requires Grown(before, now, runTrash) && Grown(now, after, Parent(destination))
    ensures destination in after ==> destination in before
    ensures Blocked(before, runTrash) || Blocked(now, Parent(destination)) ==> Blocked(before, Parent(destination))
  {
    if Blocked(before, runTrash) {
      var q :| q in before && Above(q, runTrash) && !before[q].Dir?;
      assert Above(q, Parent(destination));
    }
    if Blocked(now, Parent(destination)) {
      var q :| q in now && Above(q, Parent(destination)) && !now[q].Dir?;
      assert q in before && SameAt(before, now, q);
    }
  }

  lemma PreparedRefl(n: Nodes, trash: Path, towards: Path)
    ensures TrashPrepared(n, n, trash, towards)
  {
  }

  lemma GrownRefl(n: Nodes, p: Path)
    ensures Grown(n, n, p)
  {
  }

  lemma PreparedKeeps(before: Nodes, now: Nodes, trash: Path, towards: Path, p: Path)
    requires TrashPrepared(before, now, trash, towards) && p in before
    ensures p in now
  {
  }

  lemma TargetPresent(n: Nodes, target: Path, p: Path)
    requires Tree(n) && p in n && Above(target, p)
    ensures TrashRoot(target) != [] && Parent(TrashRoot(target)) in n
  {
    AncestorsPresent(n, target, p);
    ParentChild(target, TRASH);
  }

  lemma DestinationApart(source: Path, trash: Path, destination: Path)
    requires Incomparable(source, trash) && Above(trash, destination)
    ensures !Above(source, destination)
  {
    if Above(source, destination) {
      PrefixesComparable(trash, source, destination);
    }
  }

  // ---- what the whole sweep does ----

  predicate Taken(moved: seq<Move>, p: Path) {
    exists i | 0 <= i < |moved| :: Above(moved[i].source, p)
  }

  /** Outside the trash nothing is gone but what was moved, and nothing else changed. */
  ghost predicate KeptOutside(base: Nodes, nodes: Nodes, trash: Path, moved: seq<Move>) {
    forall p | !Above(trash, p) :: Kept(base, nodes, moved, p)
  }

  predicate Kept(base: Nodes, nodes: Nodes, moved: seq<Move>, p: Path) {
    if Taken(moved, p) then p !in nodes else SameAt(base, nodes, p)
  }

  /** Every moved profile is whole under the trash. */
  ghost predicate AllCarried(base: Nodes, nodes: Nodes, moved: seq<Move>) {
    forall i | 0 <= i < |moved| :: CarriedTo(base, nodes, moved[i])
  }

  /** What is left of a moved profile under the trash was part of it. */
  ghost predicate Remnant(base: Nodes, nodes: Nodes, m: Move) {
    forall q | Above(m.target, q) && q in nodes ::
      Rebased(m.target, m.source, q) in base && nodes[q] == base[Rebased(m.target, m.source, q)]
  }

  predicate MovesOk(target: Path, run: string, moved: seq<Move>, eligible: seq<Candidate>) {
    && |moved| <= |eligible|
    && forall i | 0 <= i < |moved| ::
         && eligible[i].profile.Some?
         && Located(target, eligible[i].path, eligible[i].profile.value, eligible[i].triple)
         && moved[i] == Move(eligible[i].path, Destination(target, run, eligible[i].path))
  }

  predicate PathsApart(eligible: seq<Candidate>, trash: Path) {
    && (forall i | 0 <= i < |eligible| :: eligible[i].profile.Some? && Incomparable(eligible[i].path, trash))
    && (forall i, j | 0 <= i < j < |eligible| :: Incomparable(eligible[i].path, eligible[j].path))
  }

  lemma MoveOneMore(base: Nodes, before: Nodes, after: Nodes, trash: Path, moved: seq<Move>, m: Move)
    requires KeptOutside(base, before, trash, moved) && OneMove(before, after, trash, m)
    ensures KeptOutside(base, after, trash, moved + [m])
  {
    var more := moved + [m];
    forall p | !Above(trash, p) ensures Kept(base, after, more, p) {
      assert Kept(base, before, moved, p);
      if Taken(moved, p) {
        var i :| 0 <= i < |moved| && Above(moved[i].source, p);
        assert Above(more[i].source, p);
        assert !Above(m.source, p) ==> SameAt(before, after, p);
      } else if Above(m.source, p) {
        assert more[|moved|] == m;
      } else {
        assert SameAt(before, after, p);
        assert forall i | 0 <= i < |more| :: !Above(more[i].source, p);
      }
    }
  }

  /** A profile moved earlier stays whole while another one is moved. */
  lemma CarriedStays(base: Nodes, before: Nodes, after: Nodes, trash: Path, earlier: Move, m: Move)
    requires CarriedTo(base, before, earlier) && OneMove(before, after, trash, m)
    requires Above(trash, earlier.target) && Incomparable(earlier.target, m.target)
    ensures CarriedTo(base, after, earlier)
  {
    forall q | Above(earlier.target, q) ensures MovedTo(base, after, earlier.source, earlier.target, q) {
      assert MovedTo(base, before, earlier.source, earlier.target, q);
      if q in before {
        assert SameAt(before, after, q);
      } else if q in after {
        assert Near(q, m.target);
        if Above(m.target, q) {
          PrefixesComparable(m.target, earlier.target, q);
        }
      }
    }
  }

  lemma CarriedNow(base: Nodes, before: Nodes, after: Nodes, trash: Path, moved: seq<Move>, m: Move)
    requires KeptOutside(base, before, trash, moved) && OneMove(before, after, trash, m)
    requires Incomparable(m.source, trash)
    requires forall i | 0 <= i < |moved| :: Incomparable(moved[i].source, m.source)
    ensures CarriedTo(base, after, m)
  {
    forall q | Above(m.target, q) ensures MovedTo(base, after, m.source, m.target, q) {
      var from := Rebased(m.target, m.source, q);
      assert MovedTo(before, after, m.source, m.target, q);
      assert Above(m.source, from);
      Apart(m.source, trash, from);
      forall i | 0 <= i < |moved| ensures !Above(moved[i].source, from) {
        Apart(m.source, moved[i].source, from);
      }
      assert Kept(base, before, moved, from);
    }
  }

  lemma Apart(p: Path, q: Path, below: Path)
    requires Incomparable(p, q) && Above(p, below)
    ensures !Above(q, below)
  {
    if Above(q, below) {
      PrefixesComparable(p, q, below);
    }
  }

  lemma RebasingKeepsOrder(target: Path, t: Path, a: Path, b: Path)
    requires Above(target, a) && Above(target, b)
    ensures Above(t + a[|target|..], t + b[|target|..]) ==> Above(a, b)
  {
    var x, y := a[|target|..], b[|target|..];
    assert a == target + x && b == target + y;
    if Above(t + x, t + y) {
      assert (t + y)[|t|..|t| + |x|] == x;
      assert y[..|x|] == x;
    }
  }

  lemma TargetsApart(target: Path, run: string, a: Path, b: Path)
    requires Above(target, a) && Above(target, b) && Incomparable(a, b)
    ensures Incomparable(Destination(target, run, a), Destination(target, run, b))
  {
    RebasingKeepsOrder(target, TrashRoot(target) + [run], a, b);
    RebasingKeepsOrder(target, TrashRoot(target) + [run], b, a);
  }

  lemma TrashIsMore(before: Nodes, after: Nodes, trash: Path, moved: seq<Move>, m: Move)
    requires TrashIs(before, trash, Places(moved)) && OneMove(before, after, trash, m)
    ensures TrashIs(after, trash, Places(moved + [m]))
  {
    var more := Places(moved + [m]);
    forall q | q in after && Above(trash, q) ensures NearSome(more, q) {
      if q in before {
        assert NearSome(Places(moved), q);
        var i :| 0 <= i < |moved| && Near(Places(moved)[i], q);
        assert Near(more[i], q);
      } else {
        assert Near(more[|moved|], q);
      }
    }
  }

  function Cost(n: nat, target: Path): nat {
    if n == 0 then 0 else Cost(n - 1, target) + MoveCost(target)
  }

  lemma {:induction false} CostGrows(m: nat, n: nat, target: Path)
    requires m <= n
    ensures Cost(m, target) <= Cost(n, target)
  {
    if m < n { CostGrows(m, n - 1, target); }
  }

  /** Nothing hinders the eligible profiles: each is a directory where its plan says, and there is no trash yet. */
  predicate Unhindered(base: Nodes, target: Path, eligible: seq<Candidate>) {
    && NothingAt(base, TrashRoot(target))
    && forall i | 0 <= i < |eligible| ::
         && eligible[i].profile.Some? && IsDir(base, eligible[i].path)
         && Located(target, eligible[i].path, eligible[i].profile.value, eligible[i].triple)
  }

  predicate SourcesPresent(base: Nodes, moved: seq<Move>) {
    forall i | 0 <= i < |moved| :: IsDir(base, moved[i].source)
  }

  /** Every eligible profile is renamed into the trash, one after the other. */
  method Quarantine(d: Disk, target: Path, run: string, eligible: seq<Candidate>) returns (ok: bool, moved: seq<Move>)
    requires d.Valid() && PathsApart(eligible, TrashRoot(target))
    modifies d
    ensures d.Valid() && MovesOk(target, run, moved, eligible) && (ok ==> |moved| == |eligible|)
    ensures KeptOutside(old(d.nodes), d.nodes, TrashRoot(target), moved)
    ensures AllCarried(old(d.nodes), d.nodes, moved) && SourcesPresent(old(d.nodes), moved)
    ensures ok && NothingAt(old(d.nodes), TrashRoot(target)) ==> TrashIs(d.nodes, TrashRoot(target), Places(moved))
    ensures d.Reserve() >= old(d.Reserve()) - Cost(|eligible|, target)
    ensures !ok ==> d.fuel == 0 || !Unhindered(old(d.nodes), target, eligible)
  {
    hide KeptOutside, AllCarried, OneMove, TrashIs, Tree, TrashPrepared, NothingAt, Unhindered, Obstructed,
      SourcesPresent, MoveCost;
    var trash := TrashRoot(target);
    ghost var base := d.nodes;
    moved := [];
    KeptAtFirst(base, trash);
    for i := 0 to |eligible|
      invariant d.Valid() && |moved| == i && MovesOk(target, run, moved, eligible)
      invariant KeptOutside(base, d.nodes, trash, moved) && AllCarried(base, d.nodes, moved)
      invariant SourcesPresent(base, moved)
      invariant NothingAt(base, trash) ==> TrashIs(d.nodes, trash, Places(moved))
      invariant d.Reserve() >= old(d.Reserve()) - Cost(i, target)
    {
      ghost var before := d.nodes;
      var c := eligible[i];
      UnhinderedFree(base, before, target, run, eligible, moved);
      var move := QuarantineOne(d, target, run, c);
      CostGrows(i + 1, |eligible|, target);
      if move.None? {
        if d.nodes != before {
          PreparedIsKept(base, before, d.nodes, trash, Destination(target, run, c.path), moved);
          PreparedIsCarried(base, before, d.nodes, target, run, moved, eligible);
        }
        return false, moved;
      }
      PresentMore(base, before, trash, moved, move.value);
      MoveOneMore(base, before, d.nodes, trash, moved, move.value);
      AllCarriedMore(base, before, d.nodes, target, run, moved, move.value, eligible);
      if NothingAt(base, trash) { TrashIsMore(before, d.nodes, trash, moved, move.value); }
      moved := moved + [move.value];
    }
    ok := true;
  }

  lemma PresentMore(base: Nodes, before: Nodes, trash: Path, moved: seq<Move>, m: Move)
    requires KeptOutside(base, before, trash, moved) && SourcesPresent(base, moved)
    requires !Above(trash, m.source) && IsDir(before, m.source)
    ensures SourcesPresent(base, moved + [m])
  {
    assert Kept(base, before, moved, m.source);
    var more := moved + [m];
    forall i | 0 <= i < |more| ensures IsDir(base, more[i].source) {
      assert i < |moved| ==> more[i] == moved[i];
    }
  }

  /** What was moved stands whole under the trash, and the way to it leads through directories. */
  lemma TargetPresentAt(base: Nodes, nodes: Nodes, moved: seq<Move>, i: nat)
    requires Tree(nodes) && AllCarried(base, nodes, moved) && SourcesPresent(base, moved) && i < |moved|
    ensures moved[i].target in nodes
    ensures forall q | Above(q, moved[i].target) && q != moved[i].target :: IsDir(nodes, q)
  {
    var m := moved[i];
    assert CarriedTo(base, nodes, m);
    assert MovedTo(base, nodes, m.source, m.target, m.target);
    assert Rebased(m.target, m.source, m.target) == m.source;
    forall q | Above(q, m.target) && q != m.target ensures IsDir(nodes, q) {
      AncestorsPresent(nodes, q, m.target);
    }
  }

  /** The next eligible profile meets no obstruction. */
  lemma UnhinderedFree(base: Nodes, nodes: Nodes, target: Path, run: string, eligible: seq<Candidate>, moved: seq<Move>)
    requires Tree(nodes) && |moved| < |eligible| && PathsApart(eligible, TrashRoot(target))
    requires MovesOk(target, run, moved, eligible)
    requires KeptOutside(base, nodes, TrashRoot(target), moved) && AllCarried(base, nodes, moved)
    requires SourcesPresent(base, moved)
    requires NothingAt(base, TrashRoot(target)) ==> TrashIs(nodes, TrashRoot(target), Places(moved))
    ensures Unhindered(base, target, eligible) ==> !Obstructed(nodes, target, run, eligible[|moved|])
  {
    hide KeptOutside, AllCarried, SourcesPresent, Tree, Located, Incomparable, TrashIs;
    if Unhindered(base, target, eligible) {
      var c := eligible[|moved|];
      StillThere(base, nodes, target, eligible, moved, run);
      FreeWay(base, nodes, target, run, eligible, moved);
    }
  }

  lemma StillThere(base: Nodes, nodes: Nodes, target: Path, eligible: seq<Candidate>, moved: seq<Move>, run: string)
    requires |moved| < |eligible| && PathsApart(eligible, TrashRoot(target)) && MovesOk(target, run, moved, eligible)
    requires KeptOutside(base, nodes, TrashRoot(target), moved) && IsDir(base, eligible[|moved|].path)
    ensures IsDir(nodes, eligible[|moved|].path)
  {
    var p := eligible[|moved|].path;
    assert Kept(base, nodes, moved, p);
    forall i | 0 <= i < |moved| ensures !Above(moved[i].source, p) {
      assert Incomparable(eligible[i].path, p);
    }
  }

  lemma FreeWay(base: Nodes, nodes: Nodes, target: Path, run: string, eligible: seq<Candidate>, moved: seq<Move>)
    requires Tree(nodes) && |moved| < |eligible| && PathsApart(eligible, TrashRoot(target))
    requires MovesOk(target, run, moved, eligible)
    requires AllCarried(base, nodes, moved) && SourcesPresent(base, moved)
    requires TrashIs(nodes, TrashRoot(target), Places(moved))
    requires var c := eligible[|moved|];
             c.profile.Some? && Located(target, c.path, c.profile.value, c.triple) && IsDir(nodes, c.path)
    ensures var destination := Destination(target, run, eligible[|moved|].path);
            destination !in nodes && !Blocked(nodes, Parent(destination))
  {
    var c := eligible[|moved|];
    var destination := Destination(target, run, c.path);
    ShortDestination(target, run, c);
    ApartFromMoved(target, run, eligible, moved);
    hide PathsApart, MovesOk, AllCarried, SourcesPresent, Tree, Located, TrashIs, Blocked, Destination, Incomparable,
      Near, TrashRoot;
    NothingThere(nodes, TrashRoot(target), moved, destination);
    forall q | q in nodes && Above(q, Parent(destination)) ensures nodes[q].Dir? {
      if Above(TrashRoot(target), q) {
        var j := NearWhich(nodes, TrashRoot(target), moved, q);
        TargetPresentAt(base, nodes, moved, j);
        OnTheWay(moved[j].target, q, destination);
      } else {
        AboveTarget(target, q, Parent(destination));
        AncestorsPresent(nodes, q, c.path);
      }
    }
    NotBlocked(nodes, Parent(destination));
  }

  lemma ApartFromMoved(target: Path, run: string, eligible: seq<Candidate>, moved: seq<Move>)
    requires |moved| < |eligible| && PathsApart(eligible, TrashRoot(target)) && MovesOk(target, run, moved, eligible)
    requires Above(target, eligible[|moved|].path)
    ensures var destination := Destination(target, run, eligible[|moved|].path);
            && Above(TrashRoot(target), destination)
            && forall j | 0 <= j < |moved| :: Incomparable(moved[j].target, destination)
  {
    forall j | 0 <= j < |moved|
      ensures Incomparable(moved[j].target, Destination(target, run, eligible[|moved|].path))
    {
      TargetsApart(target, run, eligible[j].path, eligible[|moved|].path);
    }
  }

  lemma NothingThere(nodes: Nodes, trash: Path, moved: seq<Move>, destination: Path)
    requires TrashIs(nodes, trash, Places(moved)) && Above(trash, destination)
    requires forall j | 0 <= j < |moved| :: Incomparable(moved[j].target, destination)
    ensures destination !in nodes
  {
    if destination in nodes {
      var j := NearWhich(nodes, trash, moved, destination);
    }
  }

  lemma NotBlocked(n: Nodes, p: Path)
    requires forall q | q in n && Above(q, p) :: n[q].Dir?
    ensures !Blocked(n, p)
  {
  }

  lemma NearWhich(nodes: Nodes, trash: Path, moved: seq<Move>, q: Path) returns (j: nat)
    requires TrashIs(nodes, trash, Places(moved)) && q in nodes && Above(trash, q)
    ensures j < |moved| && Near(moved[j].target, q)
  {
    assert NearSome(Places(moved), q);
    j :| 0 <= j < |moved| && Near(Places(moved)[j], q);
  }

  lemma OnTheWay(place: Path, q: Path, destination: Path)
    requires Near(place, q) && destination != [] && Above(q, Parent(destination)) && Incomparable(place, destination)
    ensures Above(q, place) && q != place
  {
    assert Above(q, destination);
  }

  /** A path on the way to the trash is the target directory or above it. */
  lemma AboveTarget(target: Path, q: Path, inside: Path)
    requires Above(q, inside) && Above(TrashRoot(target), inside) && !Above(TrashRoot(target), q)
    ensures Above(q, target)
  {
    PrefixesComparable(q, TrashRoot(target), inside);
    ParentChild(target, TRASH);
    PrefixStep(q, TrashRoot(target));
  }

  lemma KeptAtFirst(base: Nodes, trash: Path)
    ensures KeptOutside(base, base, trash, []) && AllCarried(base, base, []) && SourcesPresent(base, [])
    ensures NothingAt(base, trash) ==> TrashIs(base, trash, Places([]))
  {
  }

  lemma AllCarriedMore(base: Nodes, before: Nodes, after: Nodes, target: Path, run: string, moved: seq<Move>,
      m: Move, eligible: seq<Candidate>)
    requires |moved| < |eligible| && PathsApart(eligible, TrashRoot(target))
    requires MovesOk(target, run, moved + [m], eligible)
    requires KeptOutside(base, before, TrashRoot(target), moved) && OneMove(before, after, TrashRoot(target), m)
    requires AllCarried(base, before, moved)
    ensures AllCarried(base, after, moved + [m])
  {
    hide KeptOutside, OneMove, CarriedTo, Incomparable, Located;
    var more := moved + [m];
    assert more[|moved|] == m;
    forall i | 0 <= i < |more| ensures CarriedTo(base, after, more[i]) {
      EligibleMoves(target, run, more, eligible, i, |moved|);
      if i < |moved| {
        assert CarriedTo(base, before, moved[i]);
        CarriedStays(base, before, after, TrashRoot(target), moved[i], m);
      } else {
        SourcesApart(target, run, moved, m, eligible);
        CarriedNow(base, before, after, TrashRoot(target), moved, m);
      }
    }
  }

  lemma EligibleMoves(target: Path, run: string, moved: seq<Move>, eligible: seq<Candidate>, i: nat, j: nat)
    requires PathsApart(eligible, TrashRoot(target)) && MovesOk(target, run, moved, eligible)
    requires i <= j < |moved|
    ensures Above(TrashRoot(target), moved[i].target)
    ensures i < j ==> Incomparable(moved[i].target, moved[j].target)
  {
    if i < j { TargetsApart(target, run, eligible[i].path, eligible[j].path); }
  }

  lemma SourcesApart(target: Path, run: string, moved: seq<Move>, m: Move, eligible: seq<Candidate>)
    requires PathsApart(eligible, TrashRoot(target)) && MovesOk(target, run, moved + [m], eligible)
    ensures Incomparable(m.source, TrashRoot(target))
    ensures forall i | 0 <= i < |moved| :: Incomparable(moved[i].source, m.source)
  {
    var more := moved + [m];
    assert more[|moved|] == m;
    forall i | 0 <= i < |moved| ensures Incomparable(moved[i].source, m.source) {
      assert more[i] == moved[i];
    }
  }

  lemma PreparedIsCarried(base: Nodes, before: Nodes, after: Nodes, target: Path, run: string, moved: seq<Move>,
      eligible: seq<Candidate>)
    requires |moved| < |eligible| && PathsApart(eligible, TrashRoot(target)) && MovesOk(target, run, moved, eligible)
    requires AllCarried(base, before, moved) && OnlyPrepared(before, after, target, run, eligible[|moved|])
    ensures AllCarried(base, after, moved)
  {
    hide CarriedTo, TrashPrepared;
    forall i | 0 <= i < |moved| ensures CarriedTo(base, after, moved[i]) {
      assert CarriedTo(base, before, moved[i]);
      TargetsApart(target, run, eligible[i].path, eligible[|moved|].path);
      PreparedElsewhere(base, before, after, TrashRoot(target), Destination(target, run, eligible[|moved|].path),
        moved[i]);
    }
  }

  lemma PreparedElsewhere(base: Nodes, before: Nodes, after: Nodes, trash: Path, towards: Path, m: Move)
    requires CarriedTo(base, before, m) && TrashPrepared(before, after, trash, towards)
    requires Incomparable(m.target, towards)
    ensures CarriedTo(base, after, m)
  {
    forall q | Above(m.target, q) ensures MovedTo(base, after, m.source, m.target, q) {
      assert MovedTo(base, before, m.source, m.target, q);
      assert !Above(q, towards);
      assert q in before ==> SameAt(before, after, q);
    }
  }

  lemma PreparedIsKept(base: Nodes, before: Nodes, after: Nodes, trash: Path, towards: Path, moved: seq<Move>)
    requires KeptOutside(base, before, trash, moved) && TrashPrepared(before, after, trash, towards)
    ensures KeptOutside(base, after, trash, moved)
  {
    forall p | !Above(trash, p) ensures Kept(base, after, moved, p) {
      assert Kept(base, before, moved, p) && SameAt(before, after, p);
    }
  }
}
