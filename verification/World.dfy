// A snapshot of the tree below one scan root, and the totals a complete scan is to report:
// each directory counted at every directory above it, and each inode counted once, at every
// directory that holds all of its visible links.

module Worlds {
  import opened Wrappers
  import opened Paths
  import opened Metrics

  datatype Node =
    | Dir(device: Option<nat>, names: seq<Component>)
    | File(id: Option<nat>, links: Option<nat>, measure: Measure)
    | Other

  /** Device and file number. */
  type Key = (nat, nat)

  /** What one count stands for: a single directory entry, or an inode with several links. */
  datatype Unit = Single(path: Path) | Linked(key: Key)

  datatype World = World(nodes: map<Path, Node>, oneFilesystem: bool) {

    /** Every entry is listed once in its parent, and every listed name exists. */
    ghost predicate Valid() {
      && IsDir([])
      && (forall d {:trigger NoDuplicates(nodes[d].names)} | IsDir(d) :: NoDuplicates(nodes[d].names))
      && (forall d, name {:trigger d + [name]} | IsDir(d) && name in nodes[d].names :: d + [name] in nodes)
      && (forall q {:trigger Parent(q)} | q in nodes && q != [] ::
        IsDir(Parent(q)) && Last(q) in nodes[Parent(q)].names)
    }

    predicate IsDir(d: Path) {
      d in nodes && nodes[d].Dir?
    }

    predicate IsFile(f: Path) {
      f in nodes && nodes[f].File?
    }

    /** The scan reads the entries of this directory. */
    predicate Descends(d: Path)
      requires Valid()
    {
      IsDir(d) && (oneFilesystem ==> nodes[d].device == nodes[[]].device)
    }

    /** A complete scan meets this path. */
    predicate Visible(q: Path)
      requires Valid()
      decreases |q|
    {
      q in nodes && (q == [] || (Visible(Parent(q)) && Descends(Parent(q))))
    }

    /** Missing link counts are read as one. */
    function LinkCount(f: Path): nat
      requires IsFile(f)
    {
      nodes[f].links.GetOr(1)
    }

    /** Identity used to recognise links of one inode; an unknown device is read as zero. */
    function KeyOf(f: Path): Option<Key>
      requires Valid() && IsFile(f)
    {
      assert f != [];
      if nodes[f].id.None? then None
      else Some((nodes[Parent(f)].device.GetOr(0), nodes[f].id.value))
    }

    predicate Shared(f: Path)
      requires Valid() && IsFile(f)
    {
      KeyOf(f).Some? && LinkCount(f) > 1
    }

    ghost function Files(): set<Path>
      requires Valid()
    {
      set f | f in nodes && IsFile(f) && Visible(f)
    }

    ghost function Directories(): set<Path>
      requires Valid()
    {
      set d | d in nodes && IsDir(d) && Visible(d)
    }

    /** What a complete scan reads: every visible path but the root. */
    ghost function Entries(): set<Path>
      requires Valid()
    {
      set q | q in nodes && q != [] && Visible(q)
    }

    /** All visible links of one inode. */
    ghost function LinksOf(k: Key): set<Path>
      requires Valid()
    {
      set f | f in Files() && KeyOf(f) == Some(k)
    }

    /** All links of an inode show the same attributes. */
    ghost predicate InodesConsistent()
      requires Valid()
    {
      forall f, g | f in Files() && g in Files() && KeyOf(f).Some? && KeyOf(f) == KeyOf(g) :: nodes[f] == nodes[g]
    }

    /** An inode that claims a single link has no other visible one. */
    ghost predicate NoHiddenLinks()
      requires Valid()
    {
      forall f, g | f in Files() && g in Files() && KeyOf(f).Some? && KeyOf(f) == KeyOf(g) && LinkCount(f) <= 1 ::
        f == g
    }

    /** No inode has more visible links than it claims. */
    ghost predicate CountsCover()
      requires Valid()
    {
      forall f | f in Files() && KeyOf(f).Some? :: |LinksOf(KeyOf(f).value)| <= LinkCount(f)
    }

    /** The file system does not contradict itself about inodes. */
    ghost predicate LinkCountsTrue()
      requires Valid()
    {
      InodesConsistent() && CountsCover()
    }

    /** What a scan has to rely on: in a complete one only single links are taken at their word. */
    ghost predicate Trusted(complete: bool)
      requires Valid()
    {
      InodesConsistent() && if complete then NoHiddenLinks() else CountsCover()
    }

    /** Counts that cover all visible links hide none. */
    lemma CoveredHideNone()
      requires Valid() && CountsCover()
      ensures NoHiddenLinks()
    {
      forall f, g | f in Files() && g in Files() && KeyOf(f).Some? && KeyOf(f) == KeyOf(g) && LinkCount(f) <= 1
        ensures f == g
      {
        var links := LinksOf(KeyOf(f).value);
        assert {f, g} <= links;
        if f != g {
          TwoAtLeast(links, f, g);
          assert false;
        }
      }
    }

    lemma TrueIsTrusted(complete: bool)
      requires Valid() && LinkCountsTrue()
      ensures Trusted(complete)
    {
      CoveredHideNone();
    }

    lemma TrustedHidesNone(complete: bool)
      requires Valid() && Trusted(complete)
      ensures InodesConsistent() && NoHiddenLinks() && (!complete ==> CountsCover())
    {
      if !complete { CoveredHideNone(); }
    }

    // ---- what a complete scan reports ----

    /** The inode's visible links all lie below p. */
    ghost predicate AllLinksBelow(k: Key, p: Path)
      requires Valid()
    {
      forall f | f in LinksOf(k) :: Above(p, f)
    }

    /** Units counted at p: entries below p, and inodes whose visible links all lie below p. */
    ghost function UnitsAt(p: Path): set<Unit>
      requires Valid()
    {
      (set f | f in Files() && !Shared(f) && Above(p, f) :: Single(f))
      + (set f | f in Files() && Shared(f) && AllLinksBelow(KeyOf(f).value, p) :: Linked(KeyOf(f).value))
    }

    /** The unit stands for something visible. */
    ghost predicate Weighable(u: Unit)
      requires Valid()
    {
      match u
      case Single(f) => f in Files()
      case Linked(k) => LinksOf(k) != {}
    }

    /** Contribution of a unit; an inode releases its private bytes only when all its links are visible. */
    ghost function Weight(u: Unit): Metrics
      requires Valid() && Weighable(u)
    {
      match u
      case Single(f) => Weigh(nodes[f].measure, LinkCount(f) <= 1)
      case Linked(k) => var f :| f in LinksOf(k); Weigh(nodes[f].measure, |LinksOf(k)| >= LinkCount(f))
    }

    ghost function Weights(units: set<Unit>): map<Unit, Metrics>
      requires Valid() && forall u | u in units :: Weighable(u)
    {
      map u | u in units :: Weight(u)
    }

    lemma UnitsAreWeighable(p: Path)
      requires Valid()
      ensures forall u | u in UnitsAt(p) :: Weighable(u)
    {
      forall u | u in UnitsAt(p) && u.Linked? ensures Weighable(u) {
        var f :| f in Files() && Shared(f) && u == Linked(KeyOf(f).value);
        assert f in LinksOf(u.key);
      }
    }

    /** File totals at p. */
    ghost function FilesTotal(p: Path): Metrics
      requires Valid()
    {
      UnitsAreWeighable(p);
      Total(Weights(UnitsAt(p)))
    }

    ghost function DirectoriesAt(p: Path): set<Path>
      requires Valid()
    {
      set d | d in Directories() && Above(p, d)
    }

    // ---- what removing p is sure to release ----

    ghost function LinksBelow(k: Key, p: Path): set<Path>
      requires Valid()
    {
      set f | f in LinksOf(k) && Above(p, f)
    }

    /** Entries below p that are their inode's only link, and inodes with as many links below p as they have at all. */
    ghost function ReleasedAt(p: Path): set<Unit>
      requires Valid()
    {
      (set f | f in Files() && !Shared(f) && LinkCount(f) <= 1 && Above(p, f) :: Single(f))
      + (set f | f in Files() && Shared(f) && |LinksBelow(KeyOf(f).value, p)| >= LinkCount(f) :: Linked(KeyOf(f).value))
    }

    lemma ReleasedAreWeighable(p: Path)
      requires Valid()
      ensures forall u | u in ReleasedAt(p) :: Weighable(u)
    {
      forall u | u in ReleasedAt(p) && u.Linked? ensures Weighable(u) {
        var f :| f in Files() && Shared(f) && u == Linked(KeyOf(f).value);
        assert f in LinksOf(u.key);
      }
    }

    ghost function PrivateFloor(p: Path): nat
      requires Valid()
    {
      ReleasedAreWeighable(p);
      Total(Weights(ReleasedAt(p))).privateBytes
    }

    // ---- facts about snapshots ----

    lemma {:induction false} VisiblePrefix(p: Path, q: Path)
      requires Valid() && Visible(q) && Above(p, q)
      ensures Visible(p) && (p != q ==> Descends(p))
      decreases |q|
    {
      if |p| == |q| {
        assert p == q;
      } else {
        PrefixStep(p, q);
        VisiblePrefix(p, Parent(q));
      }
    }
  }

  lemma TwoAtLeast<T>(s: set<T>, x: T, y: T)
    requires x in s && y in s && x != y
    ensures |s| >= 2
  {
    assert s == {x, y} + (s - {x, y});
  }

  predicate NoDuplicates(names: seq<Component>) {
    forall i, j | 0 <= i < j < |names| :: names[i] != names[j]
  }
}
