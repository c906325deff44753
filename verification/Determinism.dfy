// Complete scans of one tree agree: enumeration order, slices and reader slots leave no trace.

module Determinism {
  import opened Paths
  import opened Metrics
  import opened Worlds
  import opened Agreement
  import opened Scan

  /** The same tree, its directories possibly enumerated in different orders. */
  ghost predicate SameTree(v: World, w: World) {
    && v.oneFilesystem == w.oneFilesystem
    && v.nodes.Keys == w.nodes.Keys
    && (forall p | p in v.nodes :: SameNode(v.nodes[p], w.nodes[p]))
  }

  ghost predicate SameNode(m: Node, n: Node) {
    if m.Dir? then n.Dir? && m.device == n.device && multiset(m.names) == multiset(n.names) else m == n
  }

  lemma {:induction false} SameVisible(v: World, w: World, q: Path)
    requires v.Valid() && w.Valid() && SameTree(v, w)
    ensures v.Visible(q) <==> w.Visible(q)
    decreases |q|
  {
    if q in v.nodes && q != [] {
      SameVisible(v, w, Parent(q));
    }
  }

  lemma SameFiles(v: World, w: World)
    requires v.Valid() && w.Valid() && SameTree(v, w)
    ensures v.Files() == w.Files() && v.Directories() == w.Directories()
    ensures forall f | f in v.Files() :: v.nodes[f] == w.nodes[f]
  {
    forall q ensures v.Visible(q) <==> w.Visible(q) {
      SameVisible(v, w, q);
    }
  }

  lemma SameKey(v: World, w: World, f: Path)
    requires v.Valid() && w.Valid() && SameTree(v, w) && v.IsFile(f)
    ensures w.IsFile(f) && v.KeyOf(f) == w.KeyOf(f) && (v.Shared(f) <==> w.Shared(f))
  {
  }

  lemma SameLinks(v: World, w: World, k: Key)
    requires v.Valid() && w.Valid() && SameTree(v, w)
    ensures v.LinksOf(k) == w.LinksOf(k)
  {
    hide World.Valid, SameTree;
    SameFiles(v, w);
    forall f | f in v.Files() ensures v.KeyOf(f) == w.KeyOf(f) {
      SameKey(v, w, f);
    }
  }

  lemma SameUnitsHalf(v: World, w: World, p: Path, u: Unit)
    requires v.Valid() && w.Valid() && SameTree(v, w) && u in v.UnitsAt(p)
    ensures u in w.UnitsAt(p)
  {
    hide World.Valid, SameTree, World.KeyOf, World.LinksOf;
    SameFiles(v, w);
    match u
    case Single(f) => SameKey(v, w, f);
    case Linked(k) =>
      var f :| f in v.Files() && v.Shared(f) && v.AllLinksBelow(v.KeyOf(f).value, p) && u == Linked(v.KeyOf(f).value);
      SameKey(v, w, f);
      SameLinks(v, w, k);
  }

  lemma SameTreeSymmetric(v: World, w: World)
    requires SameTree(v, w)
    ensures SameTree(w, v)
  {
  }

  lemma SameWeight(v: World, w: World, u: Unit)
    requires v.Valid() && w.Valid() && SameTree(v, w) && v.InodesConsistent() && w.InodesConsistent() && v.Weighable(u)
    ensures w.Weighable(u) && v.Weight(u) == w.Weight(u)
  {
    hide World.Valid, SameTree, World.InodesConsistent, World.LinksOf;
    SameFiles(v, w);
    match u
    case Single(f) =>
    case Linked(k) =>
      SameLinks(v, w, k);
      var f :| f in v.LinksOf(k);
      LinksAreFiles(v, k);
      LinkedWeight(v, k, f);
      LinkedWeight(w, k, f);
  }

  lemma SameTotals(v: World, w: World, p: Path)
    requires v.Valid() && w.Valid() && SameTree(v, w) && v.InodesConsistent() && w.InodesConsistent()
    ensures v.FilesTotal(p) == w.FilesTotal(p) && v.DirectoriesAt(p) == w.DirectoriesAt(p)
  {
    hide World.Valid, SameTree, World.InodesConsistent, World.Weight, World.Weighable, World.UnitsAt;
    SameFiles(v, w);
    SameTreeSymmetric(v, w);
    forall u ensures u in v.UnitsAt(p) <==> u in w.UnitsAt(p) {
      if u in v.UnitsAt(p) {
        SameUnitsHalf(v, w, p, u);
      }
      if u in w.UnitsAt(p) {
        SameUnitsHalf(w, v, p, u);
      }
    }
    v.UnitsAreWeighable(p);
    w.UnitsAreWeighable(p);
    assert v.UnitsAt(p) == w.UnitsAt(p);
    forall u | u in v.UnitsAt(p) ensures v.Weight(u) == w.Weight(u) {
      SameWeight(v, w, u);
    }
    assert v.Weights(v.UnitsAt(p)) == w.Weights(w.UnitsAt(p));
  }

  /** All figures a report shows, apart from the order-dependent duplicate count. */
  ghost predicate SameFigures(m: Metrics, n: Metrics) {
    m.(duplicates := 0) == n.(duplicates := 0)
  }

  lemma ExactFigures(v: World, w: World, p: Path, m: Metrics, n: Metrics)
    requires v.Valid() && w.Valid() && Exact(v, m, p) && Exact(w, n, p)
    requires v.FilesTotal(p) == w.FilesTotal(p) && v.DirectoriesAt(p) == w.DirectoriesAt(p)
    requires m.errors == n.errors == 0
    ensures SameFigures(m, n)
  {
    hide World.Valid, World.FilesTotal, World.DirectoriesAt;
  }

  lemma CompleteKeys(w: World, depth: nat, r: RootReport)
    requires w.Valid() && Retains(w, depth, r) && MarksConsistent(r) && r.complete
    ensures forall p :: p in r.aggregates <==> p in w.Directories() && |p| <= depth
    ensures forall p | p in r.aggregates :: r.aggregates[p].errors == 0 && p !in r.incomplete
  {
    hide World.Valid, World.Directories;
    forall p | p in w.Directories() && |p| <= depth ensures p in r.aggregates {
      assert Above([], p);
    }
  }

  lemma SameInodes(v: World, w: World)
    requires v.Valid() && w.Valid() && SameTree(v, w) && v.InodesConsistent() && v.NoHiddenLinks()
    ensures w.InodesConsistent() && w.NoHiddenLinks()
  {
    hide World.Valid, SameTree, World.KeyOf;
    SameFiles(v, w);
    forall f | f in v.Files() ensures v.KeyOf(f) == w.KeyOf(f) {
      SameKey(v, w, f);
    }
  }

  /**
   * Two complete scans of one tree have the same aggregates with the same figures, as long as no inode that
   * claims a single link hides another one.
   */
  lemma CompleteScansAgree(v: World, w: World, depth: nat, r: RootReport, s: RootReport)
    requires v.Valid() && w.Valid() && SameTree(v, w) && v.InodesConsistent() && v.NoHiddenLinks()
    requires Retains(v, depth, r) && MarksConsistent(r) && Faithful(v, r) && r.complete
    requires Retains(w, depth, s) && MarksConsistent(s) && Faithful(w, s) && s.complete
    ensures r.aggregates.Keys == s.aggregates.Keys
    ensures forall p | p in r.aggregates :: SameFigures(r.aggregates[p], s.aggregates[p])
  {
    hide World.Valid, SameTree, World.InodesConsistent, World.NoHiddenLinks, World.CountsCover, Cautious, Truthful,
      Exact, World.FilesTotal, World.DirectoriesAt, SameFigures, Retains, MarksConsistent;
    SameInodes(v, w);
    SameFiles(v, w);
    CompleteKeys(v, depth, r);
    CompleteKeys(w, depth, s);
    forall p | p in r.aggregates ensures SameFigures(r.aggregates[p], s.aggregates[p]) {
      SameTotals(v, w, p);
      ExactFigures(v, w, p, r.aggregates[p], s.aggregates[p]);
    }
  }
}
