// A file-system tree changed one entry at a time, with a crash or an I/O error possible before any
// change: `fuel` counts the changes that still succeed, and every later one fails.

module Disks {
  import opened Paths

  datatype Kind = File | Dir | Link

  type Nodes = map<Path, Kind>

  datatype Io = Done | Absent | Occupied | Failed

  predicate Attached(n: Nodes, p: Path)
    requires p != []
  {
    Parent(p) in n && n[Parent(p)].Dir?
  }

  /** Every node but the root lies in a directory. */
  predicate Tree(n: Nodes) {
    && [] in n && n[[]].Dir?
    && forall p | p in n && p != [] :: Attached(n, p)
  }

  predicate IsDir(n: Nodes, p: Path) {
    p in n && n[p].Dir?
  }

  predicate NoDir(n: Nodes, p: Path) {
    p in n && !n[p].Dir?
  }

  /** Nothing lies below p. */
  predicate Bare(n: Nodes, p: Path) {
    forall q | q in n && Above(p, q) :: q == p
  }

  predicate NothingAt(n: Nodes, p: Path) {
    forall q | q in n :: !Above(p, q)
  }

  /** Both trees have the same node, or neither has one. */
  predicate SameAt(n: Nodes, m: Nodes, p: Path) {
    (p in n <==> p in m) && (p in n ==> n[p] == m[p])
  }

  /** The trees agree everywhere but at and below p, where `after` has only nodes of `before`. */
  ghost predicate Eroded(before: Nodes, after: Nodes, p: Path) {
    && (forall q | !Above(p, q) :: SameAt(before, after, q))
    && (forall q | q in after :: q in before && after[q] == before[q])
  }

  /** Only directories on the way to p were added. */
  predicate Grown(before: Nodes, after: Nodes, p: Path) {
    && (forall q | q in before :: SameAt(before, after, q))
    && (forall q | q in after && q !in before :: Above(q, p) && after[q].Dir?)
  }

  /** Where a path below `source` goes when `source` is renamed to `target`. */
  function Rebased(source: Path, target: Path, p: Path): Path
    requires Above(source, p)
  {
    target + p[|source|..]
  }

  /** The tree after `source` with everything below it was renamed to `target`. */
  ghost predicate Renamed(before: Nodes, after: Nodes, source: Path, target: Path) {
    && NothingAt(after, source)
    && (forall q | !Above(source, q) && !Above(target, q) :: SameAt(before, after, q))
    && (forall q | Above(target, q) :: MovedTo(before, after, source, target, q))
  }

  predicate MovedTo(before: Nodes, after: Nodes, source: Path, target: Path, q: Path)
    requires Above(target, q)
  {
    var from := Rebased(target, source, q);
    (q in after <==> from in before) && (q in after ==> after[q] == before[from])
  }

  lemma {:induction false} AncestorsPresent(n: Nodes, p: Path, q: Path)
    requires Tree(n) && q in n && Above(p, q)
    ensures p in n && (p != q ==> n[p].Dir?)
    decreases |q|
  {
    if p != q {
      assert Attached(n, q);
      PrefixStep(p, q);
      AncestorsPresent(n, p, Parent(q));
    }
  }

  /** Above any node there is a bare one: some longest path. */
  lemma {:induction false} SomeBare(n: Nodes, p: Path, q: Path, bound: set<Path>) returns (leaf: Path)
    requires q in n && Above(p, q)
    requires bound == set x | x in n && Above(q, x) && x != q
    ensures leaf in n && Above(p, leaf) && Bare(n, leaf)
    decreases bound
  {
    if x :| x in bound {
      var below := set y | y in n && Above(x, y) && y != x;
      assert below <= bound && x !in below;
      leaf := SomeBare(n, p, x, below);
    } else {
      leaf := q;
      forall x | x in n && Above(q, x) ensures x == q {
        assert x != q ==> x in bound;
      }
    }
  }

  /** The nodes at and below p. */
  function Subtree(n: Nodes, p: Path): set<Path> {
    set q | q in n && Above(p, q)
  }

  lemma SubtreeLess(n: Nodes, p: Path, leaf: Path)
    requires leaf in n && Above(p, leaf)
    ensures |Subtree(n - {leaf}, p)| == |Subtree(n, p)| - 1 && |Subtree(n, p)| > 0
  {
    assert leaf in Subtree(n, p);
    assert Subtree(n - {leaf}, p) == Subtree(n, p) - {leaf};
  }

  lemma SubtreeSize(n: Nodes, p: Path)
    ensures |Subtree(n, p)| <= |n|
    ensures NothingAt(n, p) <==> |Subtree(n, p)| == 0
  {
    SubsetCount(Subtree(n, p), n.Keys);
    if |Subtree(n, p)| == 0 {
      assert forall q | q in n && Above(p, q) :: q in Subtree(n, p);
    } else {
      var q :| q in Subtree(n, p);
    }
  }

  lemma SubsetCount<T>(a: set<T>, b: set<T>)
    requires a <= b
    ensures |a| <= |b|
  {
    assert b == a + (b - a);
  }

  class Disk {
    var nodes: Nodes
    /** Changes that still succeed. */
    var fuel: nat

    predicate Valid()
      reads this
    {
      Tree(nodes)
    }

    /** Changes left beyond those that would remove every node: no removal uses any of it. */
    function Reserve(): int
      reads this
    {
      fuel - |nodes|
    }

    method RemoveDir(p: Path) returns (io: Io)
      requires Valid() && p != []
      modifies this
      ensures Valid() && Reserve() == old(Reserve())
      ensures io.Done? <==> IsDir(old(nodes), p) && Bare(old(nodes), p) && old(fuel) > 0
      ensures nodes == if io.Done? then old(nodes) - {p} else old(nodes)
      ensures io.Absent? <==> p !in old(nodes)
      ensures io.Occupied? <==> IsDir(old(nodes), p) && !Bare(old(nodes), p)
      ensures io.Failed? ==> fuel == 0 || NoDir(old(nodes), p)
    {
      if p !in nodes { return Absent; }
      if !nodes[p].Dir? { return Failed; }
      var occupied := exists q | q in nodes && Above(p, q) :: q != p;
      if occupied { return Occupied; }
      if fuel == 0 { return Failed; }
      BareRemoval(nodes, p);
      nodes, fuel := nodes - {p}, fuel - 1;
      return Done;
    }

    method RemoveFile(p: Path) returns (io: Io)
      requires Valid() && p in nodes && !nodes[p].Dir?
      modifies this
      ensures Valid() && Reserve() == old(Reserve())
      ensures io == if old(fuel) > 0 then Done else Failed
      ensures nodes == if io.Done? then old(nodes) - {p} else old(nodes)
      ensures Bare(old(nodes), p)
    {
      FileIsBare(nodes, p);
      if fuel == 0 { return Failed; }
      BareRemoval(nodes, p);
      nodes, fuel := nodes - {p}, fuel - 1;
      return Done;
    }

    /** Removal of some leaf below p. */
    method RemoveLeaf(p: Path) returns (ok: bool, ghost leaf: Path)
      requires Valid() && p != [] && p in nodes
      modifies this
      ensures Valid() && Reserve() == old(Reserve())
      ensures leaf in old(nodes) && Above(p, leaf)
      ensures ok <==> old(fuel) > 0
      ensures nodes == (if ok then old(nodes) - {leaf} else old(nodes)) && fuel == if ok then old(fuel) - 1 else 0
    {
      ghost var below := set x | x in nodes && Above(p, x) && x != p;
      ghost var some := SomeBare(nodes, p, p, below);
      var q :| q in nodes && Above(p, q) && Bare(nodes, q);
      leaf := q;
      ok := fuel > 0;
      if ok {
        BareRemoval(nodes, q);
        nodes, fuel := nodes - {q}, fuel - 1;
      }
    }

    /** Removal of a tree, leaf by leaf in any order: one change for each node. */
    method RemoveDirAll(p: Path) returns (ok: bool)
      requires Valid() && p != [] && IsDir(nodes, p)
      modifies this
      ensures Valid() && Reserve() == old(Reserve())
      ensures Eroded(old(nodes), nodes, p)
      ensures ok <==> old(fuel) >= |Subtree(old(nodes), p)|
      ensures if ok then NothingAt(nodes, p) else fuel == 0
    {
      hide Tree, Eroded, NothingAt, Subtree;
      ErodedRefl(nodes, p);
      SubtreeSize(nodes, p);
      while p in nodes
        invariant Valid() && Reserve() == old(Reserve())
        invariant Eroded(old(nodes), nodes, p)
        invariant fuel - |Subtree(nodes, p)| == old(fuel) - |Subtree(old(nodes), p)|
        decreases |Subtree(nodes, p)|
      {
        ghost var before := nodes;
        ghost var leaf;
        ok, leaf := RemoveLeaf(p);
        SubtreeLess(before, p, leaf);
        if !ok { return; }
        ErodedMore(old(nodes), before, p, leaf);
      }
      NothingLeft(nodes, p);
      SubtreeSize(nodes, p);
      return true;
    }

    /** Removal of one quarantined entry; an entry that is not there needs no removal. */
    method RemoveEntry(p: Path) returns (ok: bool)
      requires Valid() && p != []
      modifies this
      ensures Valid() && Reserve() == old(Reserve())
      ensures Eroded(old(nodes), nodes, p)
      ensures ok <==> old(fuel) >= |Subtree(old(nodes), p)|
      ensures if ok then NothingAt(nodes, p) else fuel == 0
    {
      ErodedRefl(nodes, p);
      SubtreeSize(nodes, p);
      if p !in nodes {
        NothingLeft(nodes, p);
        return true;
      }
      if nodes[p].Dir? {
        ok := RemoveDirAll(p);
      } else {
        ErodedMore(nodes, nodes, p, p);
        FileIsBare(nodes, p);
        assert Subtree(nodes, p) == {p};
        var io := RemoveFile(p);
        ok := io.Done?;
        if ok { NothingLeft(nodes, p); }
      }
    }

    /** Creation of missing directories fails only at something that is no directory, or at a crash. */
    method CreateDirAll(p: Path) returns (ok: bool)
      requires Valid()
      modifies this
      ensures Valid() && fuel <= old(fuel) && Reserve() >= old(Reserve()) - 2 * |p|
      ensures Grown(old(nodes), nodes, p)
      ensures ok ==> IsDir(nodes, p)
      ensures !ok ==> fuel == 0 || Blocked(old(nodes), p)
      decreases |p|
    {
      if p in nodes {
        return nodes[p].Dir?;
      }
      ok := CreateDirAll(Parent(p));
      if ok && fuel > 0 {
        AddDir(nodes, p);
        nodes, fuel := nodes[p := Dir], fuel - 1;
      } else {
        BlockedBelow(old(nodes), p);
        ok := false;
      }
    }

    /** A rename is one change: it happens whole, or, at a crash, not at all. */
    method Rename(source: Path, target: Path) returns (ok: bool)
      requires Valid() && source in nodes && source != [] && target != [] && target !in nodes
      requires IsDir(nodes, Parent(target)) && !Above(source, target)
      modifies this
      ensures Valid() && fuel <= old(fuel) && Reserve() >= old(Reserve()) - 1
      ensures ok <==> old(fuel) > 0
      ensures if ok then Renamed(old(nodes), nodes, source, target) else nodes == old(nodes)
    {
      hide Tree, Renamed, Outside, Carried;
      if fuel == 0 { return false; }
      RenameIsRenamed(nodes, source, target);
      RenamedTree(nodes, Outside(nodes, source) + Carried(nodes, source, target), source, target);
      RenamedSize(nodes, source, target);
      nodes, fuel := Outside(nodes, source) + Carried(nodes, source, target), fuel - 1;
      ok := true;
    }
  }

  /** Something that is no directory stands in the way. */
  predicate Blocked(n: Nodes, p: Path) {
    exists q | q in n && Above(q, p) :: !n[q].Dir?
  }

  lemma BlockedBelow(n: Nodes, p: Path)
    requires p != []
    ensures Blocked(n, Parent(p)) ==> Blocked(n, p)
  {
    if Blocked(n, Parent(p)) {
      var q :| q in n && Above(q, Parent(p)) && !n[q].Dir?;
      assert Above(q, p);
    }
  }

  /** Renaming adds no node. */
  lemma RenamedSize(n: Nodes, source: Path, target: Path)
    ensures |Outside(n, source) + Carried(n, source, target)| <= |n|
  {
    var outside, carried := Outside(n, source), Carried(n, source, target);
    OutsideKeys(n, source);
    CarriedKeys(n, source, target);
    hide Outside, Carried, Image, Subtree;
    ImageSize(Subtree(n, source), source, target);
    assert |carried.Keys| <= |Subtree(n, source)|;
    assert (outside + carried).Keys == outside.Keys + carried.Keys;
    assert |outside.Keys + carried.Keys| <= |outside.Keys| + |carried.Keys|;
    assert |(outside + carried).Keys| == |outside + carried|;
  }

  lemma OutsideKeys(n: Nodes, source: Path)
    ensures |Outside(n, source).Keys| + |Subtree(n, source)| == |n|
  {
    assert n.Keys == Outside(n, source).Keys + Subtree(n, source);
  }

  lemma CarriedKeys(n: Nodes, source: Path, target: Path)
    ensures forall q | q in Subtree(n, source) :: Above(source, q)
    ensures Carried(n, source, target).Keys == Image(Subtree(n, source), source, target)
  {
    RebasedInjective(n, source, target);
  }

  ghost function Image(below: set<Path>, source: Path, target: Path): set<Path>
    requires forall q | q in below :: Above(source, q)
  {
    set q | q in below :: Rebased(source, target, q)
  }

  lemma {:induction false} ImageSize(below: set<Path>, source: Path, target: Path)
    requires forall q | q in below :: Above(source, q)
    ensures |Image(below, source, target)| <= |below|
    decreases below
  {
    if below != {} {
      var q :| q in below;
      var rest := below - {q};
      ImageSize(rest, source, target);
      assert Image(below, source, target) == Image(rest, source, target) + {Rebased(source, target, q)};
    }
  }

  function Outside(n: Nodes, source: Path): Nodes {
    map q | q in n && !Above(source, q) :: n[q]
  }

  /** The subtree at `source`, as it stands below `target` after the renaming. */
  function Carried(n: Nodes, source: Path, target: Path): Nodes {
    RebasedInjective(n, source, target);
    map q | q in n && Above(source, q) :: Rebased(source, target, q) := n[q]
  }

  lemma RebasedInjective(n: Nodes, source: Path, target: Path)
    ensures forall p, q | p in n && q in n && Above(source, p) && Above(source, q)
              && Rebased(source, target, p) == Rebased(source, target, q) :: p == q
  {
    forall p, q | p in n && q in n && Above(source, p) && Above(source, q)
      && Rebased(source, target, p) == Rebased(source, target, q)
      ensures p == q
    {
      RebasedBack(source, target, p);
      RebasedBack(source, target, q);
    }
  }

  /** Renaming there and back is no renaming. */
  lemma RebasedBack(source: Path, target: Path, p: Path)
    requires Above(source, p)
    ensures Above(target, Rebased(source, target, p)) && Rebased(target, source, Rebased(source, target, p)) == p
  {
  }

  /** What stands below `target` after the move. */
  lemma CarriedAt(n: Nodes, source: Path, target: Path, q: Path)
    ensures q in Carried(n, source, target) <==> Above(target, q) && Rebased(target, source, q) in n
    ensures q in Carried(n, source, target) ==> Carried(n, source, target)[q] == n[Rebased(target, source, q)]
  {
    RebasedInjective(n, source, target);
    if q in Carried(n, source, target) {
      var p :| p in n && Above(source, p) && Rebased(source, target, p) == q;
      RebasedBack(source, target, p);
    }
    if Above(target, q) {
      RebasedBack(target, source, q);
    }
  }

  lemma RenameIsRenamed(n: Nodes, source: Path, target: Path)
    requires Tree(n) && target !in n && !Above(source, target)
    ensures Renamed(n, Outside(n, source) + Carried(n, source, target), source, target)
  {
    hide Carried;
    var after := Outside(n, source) + Carried(n, source, target);
    NothingLeft(n, target);
    forall q
      ensures Above(target, q) ==> MovedTo(n, after, source, target, q)
      ensures !Above(source, q) && !Above(target, q) ==> SameAt(n, after, q)
      ensures Above(source, q) ==> q !in after
    {
      CarriedAt(n, source, target, q);
      if Above(source, q) { SourceNotTarget(n, source, target, q); }
    }
  }

  /** Nothing moved comes to lie below the source. */
  lemma SourceNotTarget(n: Nodes, source: Path, target: Path, q: Path)
    requires Tree(n) && target !in n && !Above(source, target) && Above(source, q)
    ensures !(Above(target, q) && Rebased(target, source, q) in n)
  {
    if Above(target, q) {
      PrefixesComparable(source, target, q);
      NothingLeft(n, target);
    }
  }

  lemma RenamedTree(before: Nodes, after: Nodes, source: Path, target: Path)
    requires Tree(before) && source != [] && target != [] && source in before && target !in before
    requires IsDir(before, Parent(target)) && !Above(source, target) && Renamed(before, after, source, target)
    ensures Tree(after)
  {
    assert SameAt(before, after, []);
    forall q | q in after && q != [] ensures Attached(after, q) {
      if Above(target, q) {
        assert MovedTo(before, after, source, target, q);
        if q == target {
          assert !Above(source, Parent(target)) && !Above(target, Parent(target));
        } else {
          PrefixStep(target, q);
          assert MovedTo(before, after, source, target, Parent(q));
          var from := Rebased(target, source, q);
          assert Parent(from) == Rebased(target, source, Parent(q));
          assert Attached(before, from);
        }
      } else {
        assert SameAt(before, after, q) && Attached(before, q);
        assert !Above(source, Parent(q)) && !Above(target, Parent(q));
        assert SameAt(before, after, Parent(q));
      }
    }
  }

  lemma FileIsBare(n: Nodes, p: Path)
    requires Tree(n) && p in n && !n[p].Dir?
    ensures Bare(n, p)
  {
    forall q | q in n && Above(p, q) ensures q == p {
      AncestorsPresent(n, p, q);
    }
  }

  lemma BareRemoval(n: Nodes, p: Path)
    requires Tree(n) && p in n && p != [] && Bare(n, p)
    ensures Tree(n - {p})
  {
    forall q | q in n - {p} && q != [] ensures Attached(n - {p}, q) {
      assert Attached(n, q);
    }
  }

  lemma ErodedRefl(n: Nodes, p: Path)
    ensures Eroded(n, n, p)
  {
  }

  lemma ErodedMore(before: Nodes, n: Nodes, p: Path, leaf: Path)
    requires Eroded(before, n, p) && Above(p, leaf)
    ensures Eroded(before, n - {leaf}, p)
  {
  }

  lemma NothingLeft(n: Nodes, p: Path)
    requires Tree(n) && p !in n
    ensures NothingAt(n, p)
  {
    forall q | q in n ensures !Above(p, q) {
      if Above(p, q) { AncestorsPresent(n, p, q); }
    }
  }

  lemma AddDir(n: Nodes, p: Path)
    requires Tree(n) && p != [] && p !in n && IsDir(n, Parent(p))
    ensures Tree(n[p := Dir])
  {
    var after := n[p := Dir];
    forall q | q in after && q != [] ensures Attached(after, q) {
      assert q != p ==> Attached(n, q);
    }
  }
}
