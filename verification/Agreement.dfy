// What a finished scan says about the tree: an aggregate without marks is exact, an aggregate whose
// only marks are missing entries is a lower bound, and private bytes never exceed what is released.

module Agreement {
  import opened Wrappers
  import opened Saturating
  import opened Paths
  import opened Metrics
  import opened Worlds
  import opened Ledger
  import opened LedgerSteps
  import opened LedgerClose

  /** A scan of w that stopped reading with book b0 and counted its deferred inodes into b. */
  ghost predicate Ended(w: World, depth: nat, b0: Book, g: Log, b: Book, account: map<Unit, Placed>) {
    && Inv(w, depth, b0, g, {})
    && b0.unopened == []
    && Settling(b0, b, g, account)
    && b.pendingHardlinks == map[]
  }

  // ---- sets of links ----

  lemma SubsetSize<T>(a: set<T>, b: set<T>)
    requires a <= b
    ensures |a| <= |b|
    ensures |a| == |b| ==> a == b
  {
    assert b == a + (b - a);
    assert |b| == |a| + |b - a|;
    if |a| == |b| {
      assert b - a == {};
    }
  }

  lemma LinksMetAreLinks(w: World, g: Log, k: Key)
    requires w.Valid() && Met(w, g)
    ensures LinksMet(w, g, k) <= w.LinksOf(k)
    ensures g.links <= w.Files()
  {
  }

  // ---- everything below an unmarked directory was read ----

  lemma VisibleParent(w: World, q: Path)
    requires w.Valid() && w.Visible(q) && q != []
    ensures w.Visible(Parent(q)) && w.Descends(Parent(q)) && q in w.nodes
    ensures Last(q) in w.nodes[Parent(q)].names
  {
  }

  /** A closed directory that is read and not marked was consumed to its last entry. */
  lemma AllConsumed(w: World, b: Book, g: Log, q: Path)
    requires w.Valid() && Met(w, g) && Coverage(w, b, g, {}) && b.unopened == []
    requires w.Visible(q) && q != [] && Parent(q) in g.listed && !Marked(b, Parent(q))
    ensures Consumed(w, g, q)
    ensures w.IsDir(q) ==> q in g.listed
    ensures w.IsFile(q) ==> q in g.links
  {
    VisibleParent(w, q);
    var d := Parent(q);
    assert Closed(w, b, g, d);
    assert w.nodes[d].names[..g.cursor[d]] == w.nodes[d].names;
    assert Consumed(w, g, q);
    assert Taken(w, b, g, q);
  }

  lemma {:induction false} SeenBelow(w: World, b: Book, g: Log, p: Path, q: Path)
    requires w.Valid() && Met(w, g) && Coverage(w, b, g, {}) && b.unopened == []
    requires p in g.listed && p in b.aggregates && p !in b.incomplete
    requires w.Visible(q) && Above(p, q)
    ensures w.IsDir(q) ==> q in g.listed
    ensures w.IsFile(q) ==> q in g.links && q !in g.lost
    decreases |q|
  {
    hide Coverage, World.Valid, Met;
    if |p| == |q| {
      assert p == q;
      MetIsDir(w, g, p);
    } else {
      PrefixStep(p, q);
      VisibleParent(w, q);
      SeenBelow(w, b, g, p, Parent(q));
      assert !Marked(b, Parent(q));
      AllConsumed(w, b, g, q);
      LostIsMarked(w, b, g, q);
    }
  }

  lemma MetIsDir(w: World, g: Log, p: Path)
    requires w.Valid() && Met(w, g) && p in g.listed
    ensures w.IsDir(p) && w.Visible(p)
  {
  }

  lemma LostIsMarked(w: World, b: Book, g: Log, q: Path)
    requires w.Valid() && Met(w, g) && Coverage(w, b, g, {})
    ensures q in g.lost ==> Marked(b, q)
  {
  }

  /** Directories and files below an unmarked aggregate. */
  lemma ReadBelow(w: World, depth: nat, b0: Book, g: Log, p: Path)
    requires Inv(w, depth, b0, g, {}) && b0.unopened == []
    requires p in b0.aggregates && p !in b0.incomplete
    ensures w.DirectoriesAt(p) == ListedBelow(g.listed, p)
    ensures forall f | f in w.Files() && Above(p, f) :: f in g.links && f !in g.lost
  {
    hide World.Valid, Met, Coverage, Queue, Sums, Inodes;
    forall q | q in w.Directories() + w.Files() && Above(p, q)
      ensures w.IsDir(q) ==> q in g.listed
      ensures w.IsFile(q) ==> q in g.links && q !in g.lost
    {
      SeenBelow(w, b0, g, p, q);
    }
    forall d | d in g.listed ensures d in w.Directories() {
      MetIsDir(w, g, d);
    }
  }

  // ---- units counted at an aggregate ----

  lemma SinglePlaced(w: World, depth: nat, b0: Book, g: Log, f: Path, p: Path)
    requires Inv(w, depth, b0, g, {}) && Single(f) in g.account && Above(p, g.account[Single(f)].at)
    ensures w.Weighable(Single(f)) && Single(f) in w.UnitsAt(p)
    ensures g.account[Single(f)].weight == w.Weight(Single(f))
    ensures !w.Shared(f) && Above(p, f)
  {
    hide World.Valid, Queue, Coverage, Sums;
    assert SingleOk(w, g, Single(f));
  }

  lemma WholeLinks(w: World, g: Log, k: Key, link: PendingHardlink)
    requires w.Valid() && w.CountsCover() && PendingOk(w, g, k, link) && Whole(link)
    requires LinksMet(w, g, k) <= w.LinksOf(k) && w.LinksOf(k) <= w.Files()
    ensures LinksMet(w, g, k) == w.LinksOf(k)
  {
    hide World.Valid, DeepestAbove;
    assert g.first[k] in w.Files() && w.KeyOf(g.first[k]) == Some(k);
    SubsetSize(LinksMet(w, g, k), w.LinksOf(k));
  }

  lemma CompleteLinks(w: World, g: Log, k: Key)
    requires w.Valid() && forall f | f in w.Files() :: f in g.links
    requires LinksMet(w, g, k) <= w.LinksOf(k)
    ensures LinksMet(w, g, k) == w.LinksOf(k)
  {
    hide World.Valid, World.KeyOf;
    forall f | f in w.LinksOf(k) ensures f in LinksMet(w, g, k) {
      assert f in w.Files();
    }
  }

  lemma UnmarkedRoot(w: World, depth: nat, b0: Book, g: Log)
    requires Inv(w, depth, b0, g, {}) && b0.complete
    ensures [] in b0.aggregates && [] !in b0.incomplete
    ensures forall f: Path :: Above([], f)
  {
    hide World.Valid, Queue, Coverage, Sums, Inodes;
  }

  /** A deferred inode with all its links read. */
  lemma AllLinksMet(w: World, depth: nat, b0: Book, g: Log, k: Key)
    requires Inv(w, depth, b0, g, {}) && b0.unopened == [] && w.Trusted(b0.complete)
    requires k in b0.pendingHardlinks
    requires b0.complete || Whole(b0.pendingHardlinks[k])
    ensures LinksMet(w, g, k) == w.LinksOf(k)
  {
    hide World.Valid, Inv, PendingOk, World.Trusted, World.InodesConsistent, World.NoHiddenLinks, World.CountsCover,
      World.LinksOf;
    InvValid(w, depth, b0, g);
    LinksMetAreLinks(w, g, k);
    if b0.complete {
      UnmarkedRoot(w, depth, b0, g);
      ReadBelow(w, depth, b0, g, []);
      CompleteLinks(w, g, k);
    } else {
      PendingFacts(w, depth, b0, g, k);
      LinksAreFiles(w, k);
      w.TrustedHidesNone(false);
      WholeLinks(w, g, k, b0.pendingHardlinks[k]);
    }
  }

  lemma LinksAreFiles(w: World, k: Key)
    requires w.Valid()
    ensures w.LinksOf(k) <= w.Files()
  {
  }

  lemma InvValid(w: World, depth: nat, b: Book, g: Log)
    requires Inv(w, depth, b, g, {})
    ensures w.Valid() && Met(w, g)
  {
  }

  /** The weight of an inode in a complete scan, read off any of its links. */
  lemma LinkedWeight(w: World, k: Key, f: Path)
    requires w.Valid() && w.InodesConsistent() && f in w.LinksOf(k)
    ensures w.Weight(Linked(k)) == Weigh(w.nodes[f].measure, |w.LinksOf(k)| >= w.LinkCount(f))
  {
    hide World.Valid;
    var c :| c in w.LinksOf(k) && w.Weight(Linked(k)) == Weigh(w.nodes[c].measure, |w.LinksOf(k)| >= w.LinkCount(c));
    assert w.nodes[c] == w.nodes[f];
  }

  lemma SharedUnit(w: World, k: Key, f: Path, p: Path)
    requires w.Valid() && f in w.LinksOf(k) && w.Shared(f) && w.AllLinksBelow(k, p)
    ensures Linked(k) in w.UnitsAt(p)
  {
  }

  /** Facts about a deferred inode used below. */
  lemma PendingFacts(w: World, depth: nat, b0: Book, g: Log, k: Key)
    requires Inv(w, depth, b0, g, {}) && k in b0.pendingHardlinks
    ensures PendingOk(w, g, k, b0.pendingHardlinks[k])
    ensures LinksMet(w, g, k) <= w.LinksOf(k)
    ensures k in g.first && g.first[k] in w.LinksOf(k) && w.Shared(g.first[k])
  {
    hide World.Valid, Queue, Coverage, Sums;
    LinksMetAreLinks(w, g, k);
  }

  lemma LinksBelowPlace(w: World, cp: Path, links: set<Path>, p: Path)
    requires DeepestAbove(w, cp, links) && Above(p, cp)
    ensures forall f | f in links :: Above(p, f)
  {
    forall f | f in links ensures Above(p, f) {
      assert Above(cp, f);
      AboveTransitive(p, cp, f);
    }
  }

  /** An inode counted at p without an unresolved mark belongs there, with the weight counted. */
  lemma LinkedPlaced(w: World, depth: nat, b0: Book, g: Log, k: Key, p: Path)
    requires Inv(w, depth, b0, g, {}) && b0.unopened == [] && w.Trusted(b0.complete)
    requires k in b0.pendingHardlinks && Above(p, b0.pendingHardlinks[k].commonParent)
    requires b0.complete || Whole(b0.pendingHardlinks[k])
    ensures Linked(k) in w.UnitsAt(p) && w.Weighable(Linked(k))
    ensures LinkPlaced(b0.pendingHardlinks[k]).weight == w.Weight(Linked(k))
  {
    hide World.Valid, Inv, DeepestAbove, World.Trusted, World.InodesConsistent, World.NoHiddenLinks, World.CountsCover,
      World.UnitsAt, World.LinksOf, World.Weight;
    PendingFacts(w, depth, b0, g, k);
    AllLinksMet(w, depth, b0, g, k);
    assert w.Valid() by {
      InvValid(w, depth, b0, g);
    }
    w.TrustedHidesNone(b0.complete);
    LinkedWeight(w, k, g.first[k]);
    LinksBelowPlace(w, b0.pendingHardlinks[k].commonParent, LinksMet(w, g, k), p);
    SharedUnit(w, k, g.first[k], p);
  }

  /** A file that is not shared is the only visible link of its inode. */
  lemma OnlyLink(w: World, k: Key, f: Path, g: Path)
    requires w.Valid() && w.NoHiddenLinks() && f in w.LinksOf(k) && g in w.LinksOf(k) && !w.Shared(f)
    ensures f == g
  {
    hide World.Valid;
    LinksAreFiles(w, k);
  }

  lemma KeyedIsKnown(w: World, seen: set<Key>, pending: map<Key, PendingHardlink>, g: Log, f: Path)
    requires w.Valid() && Met(w, g) && Inodes(w, seen, pending, g) && f in g.links
    ensures w.KeyOf(f).None? ==> f in g.lost || Single(f) in g.account
    ensures w.KeyOf(f).Some? ==>
      var k := w.KeyOf(f).value;
      && k in g.first && g.first[k] in w.LinksOf(k) && f in w.LinksOf(k)
      && (k in pending ==> w.Shared(g.first[k]))
      && (k in pending || g.first[k] in g.lost || Single(g.first[k]) in g.account)
    ensures forall x | Single(x) in g.account :: SingleOk(w, g, Single(x))
  {
    hide World.Valid, World.KeyOf;
    if w.KeyOf(f).Some? {
      var k := w.KeyOf(f).value;
      LinksMetAreLinks(w, g, k);
      assert f in LinksMet(w, g, k) && g.first[k] in LinksMet(w, g, k);
      if k in pending {
        assert PendingOk(w, g, k, pending[k]);
      }
    }
  }

  lemma InvInodes(w: World, depth: nat, b: Book, g: Log)
    requires Inv(w, depth, b, g, {})
    ensures w.Valid() && Met(w, g) && Inodes(w, b.seenFiles, b.pendingHardlinks, g)
  {
  }

  /** A unit of the snapshot below an unmarked p is counted at p: a file of its own ... */
  lemma SingleIsPlaced(w: World, depth: nat, b0: Book, g: Log, f: Path, p: Path)
    requires Inv(w, depth, b0, g, {}) && b0.unopened == [] && w.Trusted(b0.complete)
    requires p in b0.aggregates && p !in b0.incomplete
    requires f in w.Files() && !w.Shared(f) && Above(p, f)
    ensures Single(f) in g.account && g.account[Single(f)].at == f
  {
    hide World.Valid, Inv, World.KeyOf, World.Trusted, World.InodesConsistent, World.NoHiddenLinks, World.CountsCover,
      World.LinksOf, World.Shared, Inodes;
    InvInodes(w, depth, b0, g);
    w.TrustedHidesNone(b0.complete);
    ReadBelow(w, depth, b0, g, p);
    KeyedIsKnown(w, b0.seenFiles, b0.pendingHardlinks, g, f);
    if w.KeyOf(f).Some? {
      OnlyLink(w, w.KeyOf(f).value, f, g.first[w.KeyOf(f).value]);
    }
    assert SingleOk(w, g, Single(f));
  }

  /** ... and an inode whose links all lie below p. */
  lemma LinkedIsPlaced(w: World, depth: nat, b0: Book, g: Log, k: Key, f: Path, p: Path)
    requires Inv(w, depth, b0, g, {}) && b0.unopened == [] && w.Trusted(b0.complete)
    requires p in b0.aggregates && p !in b0.incomplete
    requires f in w.LinksOf(k) && w.Shared(f) && w.AllLinksBelow(k, p)
    ensures k in b0.pendingHardlinks && Above(p, b0.pendingHardlinks[k].commonParent)
  {
    ReadBelow(w, depth, b0, g, p);
    hide World.Valid, Queue, Coverage, Sums, World.KeyOf;
    assert Above(p, f);
    var first := g.first[k];
    assert first in w.LinksOf(k);
    assert Above(p, first);
    assert first !in g.lost;
    assert w.nodes[first] == w.nodes[f];
    assert Single(first) in g.account ==> SingleOk(w, g, Single(first));
    assert k in b0.pendingHardlinks;
    assert PendingOk(w, g, k, b0.pendingHardlinks[k]);
    LinksMetAreLinks(w, g, k);
    assert w.IsDir(p);
    assert forall x | x in LinksMet(w, g, k) :: Above(p, x);
  }

  // ---- the finished report ----

  /** The reported metrics are those of a complete scan. */
  ghost predicate Exact(w: World, m: Metrics, p: Path)
    requires w.Valid()
  {
    Shows(m, w.FilesTotal(p)) && m.directories == |w.DirectoriesAt(p)|
  }

  /** The reported metrics do not exceed those of a complete scan. */
  ghost predicate AtMostTrue(w: World, m: Metrics, p: Path)
    requires w.Valid()
  {
    && m.logicalBytes <= Sat(w.FilesTotal(p).logicalBytes)
    && m.allocatedBytes <= Sat(w.FilesTotal(p).allocatedBytes)
    && m.privateBytes <= Sat(w.FilesTotal(p).privateBytes)
    && m.files <= w.FilesTotal(p).files
    && m.directories <= |w.DirectoriesAt(p)|
  }

  lemma ChargeOrigin(b0: Book, b: Book, g: Log, account: map<Unit, Placed>, u: Unit)
    requires Settling(b0, b, g, account) && u in account
    ensures u.Single? ==> u in g.account && account[u] == g.account[u]
    ensures u.Linked? ==> u.key in b0.pendingHardlinks && account[u] == LinkPlaced(b0.pendingHardlinks[u.key])
  {
    hide MarksFollow, Sums;
  }

  /** A charge at p without an unresolved mark there is a unit of the snapshot at p. */
  lemma ChargeIsUnit(w: World, depth: nat, b0: Book, g: Log, b: Book, account: map<Unit, Placed>, p: Path, u: Unit)
    requires p in b.aggregates && (p in b.incomplete ==> UnresolvedHardlinkAttribution !in b.incomplete[p])
    requires u in account && Above(p, account[u].at)
    requires Ended(w, depth, b0, g, b, account) && w.Trusted(b0.complete)
    ensures u in w.UnitsAt(p)
    ensures w.Weighable(u)
    ensures account[u].weight == w.Weight(u)
  {
    hide World.Valid, Inv, World.Trusted, World.UnitsAt, World.LinksOf, World.Weight, Settling, LinkPlaced;
    InvValid(w, depth, b0, g);
    ChargeOrigin(b0, b, g, account, u);
    match u
    case Single(f) =>
      SinglePlaced(w, depth, b0, g, f, p);
    case Linked(k) =>
      PlaceOf(b0.pendingHardlinks[k]);
      ResolvedAt(b0, b, g, account, k, p);
      LinkedPlaced(w, depth, b0, g, k, p);
  }

  lemma PlaceOf(link: PendingHardlink)
    ensures LinkPlaced(link).at == link.commonParent
  {
  }

  lemma ResolvedAt(b0: Book, b: Book, g: Log, account: map<Unit, Placed>, k: Key, p: Path)
    requires Settling(b0, b, g, account) && Linked(k) in account && p in b.aggregates
    requires p in b.incomplete ==> UnresolvedHardlinkAttribution !in b.incomplete[p]
    requires k in b0.pendingHardlinks && Above(p, b0.pendingHardlinks[k].commonParent)
    ensures b0.complete || Whole(b0.pendingHardlinks[k])
  {
    hide Sums;
  }

  /** A unit of the snapshot at an unmarked p is charged there. */
  lemma UnitIsCharged(w: World, depth: nat, b0: Book, g: Log, b: Book, account: map<Unit, Placed>, p: Path, u: Unit)
    requires Ended(w, depth, b0, g, b, account) && w.Trusted(b0.complete) && p in b.aggregates && p !in b.incomplete
    requires u in w.UnitsAt(p)
    ensures u in account && Above(p, account[u].at)
  {
    hide World.Valid, Inv, World.Trusted, World.LinksOf, World.Weight, Settling, LinkPlaced, World.KeyOf;
    InvValid(w, depth, b0, g);
    UnmarkedBefore(b0, b, g, account, p);
    match u
    case Single(f) =>
      SingleIsPlaced(w, depth, b0, g, f, p);
      ChargesKept(b0, b, g, account, u);
    case Linked(k) =>
      var f :| f in w.Files() && w.Shared(f) && w.AllLinksBelow(w.KeyOf(f).value, p) && u == Linked(w.KeyOf(f).value);
      FileIsLink(w, f);
      LinkedIsPlaced(w, depth, b0, g, k, f, p);
      ChargesKept(b0, b, g, account, u);
      PlaceOf(b0.pendingHardlinks[k]);
  }

  lemma FileIsLink(w: World, f: Path)
    requires w.Valid() && f in w.Files() && w.KeyOf(f).Some?
    ensures f in w.LinksOf(w.KeyOf(f).value)
  {
  }

  lemma UnmarkedBefore(b0: Book, b: Book, g: Log, account: map<Unit, Placed>, p: Path)
    requires Settling(b0, b, g, account) && p in b.aggregates && p !in b.incomplete
    ensures p in b0.aggregates && p !in b0.incomplete
  {
    hide Sums, LinksPlaced;
  }

  lemma ChargesKept(b0: Book, b: Book, g: Log, account: map<Unit, Placed>, u: Unit)
    requires Settling(b0, b, g, account) && b.pendingHardlinks == map[]
    ensures u in g.account ==> u in account && account[u] == g.account[u]
    ensures u.Linked? && u.key in b0.pendingHardlinks ==>
              u in account && account[u] == LinkPlaced(b0.pendingHardlinks[u.key])
  {
    hide Sums, MarksFollow;
  }

  lemma EndedSums(w: World, depth: nat, b0: Book, g: Log, b: Book, account: map<Unit, Placed>, p: Path)
    requires Ended(w, depth, b0, g, b, account) && p in b.aggregates
    ensures SumsAt(b, g.listed, account, p)
    ensures p in b0.aggregates
  {
    hide Inv;
  }

  /** An aggregate that ends without a mark reports what a complete scan reports. */
  lemma UnmarkedIsExact(w: World, depth: nat, b0: Book, g: Log, b: Book, account: map<Unit, Placed>, p: Path)
    requires Ended(w, depth, b0, g, b, account) && w.Trusted(b0.complete)
    requires p in b.aggregates && p !in b.incomplete
    ensures w.Valid() && Exact(w, b.aggregates[p], p)
  {
    hide World.Valid, Inv, World.Trusted, World.UnitsAt, World.Weight, World.LinksOf, Settling, Total;
    InvValid(w, depth, b0, g);
    EndedSums(w, depth, b0, g, b, account, p);
    UnmarkedBefore(b0, b, g, account, p);
    ReadBelow(w, depth, b0, g, p);
    forall u | u in account && Above(p, account[u].at)
      ensures u in w.UnitsAt(p)
      ensures w.Weighable(u)
      ensures account[u].weight == w.Weight(u)
    {
      ChargeIsUnit(w, depth, b0, g, b, account, p, u);
    }
    forall u | u in w.UnitsAt(p) ensures u in account && Above(p, account[u].at) {
      UnitIsCharged(w, depth, b0, g, b, account, p, u);
    }
    w.UnitsAreWeighable(p);
    assert Below(account, p) == w.Weights(w.UnitsAt(p));
  }

  /** At the root an inode is counted once whether or not all its links were read. */
  lemma ChargeAtRoot(w: World, depth: nat, b0: Book, g: Log, b: Book, account: map<Unit, Placed>, u: Unit)
    requires Ended(w, depth, b0, g, b, account) && w.InodesConsistent() && u in account
    ensures u in w.UnitsAt([])
    ensures w.Weighable(u)
    ensures AtMost(account[u].weight, w.Weight(u))
  {
    hide World.Valid, Inv, World.InodesConsistent, World.UnitsAt, World.Weight, Settling, DeepestAbove;
    InvValid(w, depth, b0, g);
    ChargeOrigin(b0, b, g, account, u);
    match u
    case Single(f) =>
      assert Above([], account[u].at);
      SinglePlaced(w, depth, b0, g, f, []);
    case Linked(k) =>
      PendingFacts(w, depth, b0, g, k);
      SharedUnit(w, k, g.first[k], []);
      LinkedWeight(w, k, g.first[k]);
      SubsetSize(LinksMet(w, g, k), w.LinksOf(k));
  }

  lemma UnitsBound(w: World, account: map<Unit, Placed>, p: Path)
    requires w.Valid()
    requires forall u | u in account && Above(p, account[u].at) ::
      && u in w.UnitsAt(p)
      && w.Weighable(u)
      && AtMost(account[u].weight, w.Weight(u))
    ensures AtMost(Total(Below(account, p)), w.FilesTotal(p))
  {
    hide World.Valid, World.UnitsAt, World.Weight, World.LinksOf, Total;
    w.UnitsAreWeighable(p);
    TotalMonotone(Below(account, p), w.Weights(w.UnitsAt(p)));
  }

  lemma ListedAreVisible(w: World, g: Log, p: Path)
    requires w.Valid() && Met(w, g)
    ensures |ListedBelow(g.listed, p)| <= |w.DirectoriesAt(p)|
  {
    SubsetSize(ListedBelow(g.listed, p), w.DirectoriesAt(p));
  }

  lemma BoundedReport(m: Metrics, total: Metrics, bound: Metrics)
    requires Shows(m, total) && AtMost(total, bound)
    ensures m.logicalBytes <= Sat(bound.logicalBytes) && m.allocatedBytes <= Sat(bound.allocatedBytes)
    ensures m.privateBytes <= Sat(bound.privateBytes) && m.files <= bound.files
  {
  }

  /** Charges that are units of the snapshot, none too heavy, make a lower bound. */
  lemma ChargesBound(w: World, depth: nat, b0: Book, g: Log, b: Book, account: map<Unit, Placed>, p: Path)
    requires Ended(w, depth, b0, g, b, account) && p in b.aggregates
    requires forall u | u in account && Above(p, account[u].at) ::
      && u in w.UnitsAt(p)
      && w.Weighable(u)
      && AtMost(account[u].weight, w.Weight(u))
    ensures w.Valid() && AtMostTrue(w, b.aggregates[p], p)
  {
    hide World.Valid, Inv, World.UnitsAt, World.Weight, World.LinksOf, Settling, Total, Below, World.FilesTotal, Shows,
      World.DirectoriesAt;
    InvValid(w, depth, b0, g);
    EndedSums(w, depth, b0, g, b, account, p);
    ListedAreVisible(w, g, p);
    UnitsBound(w, account, p);
    BoundedReport(b.aggregates[p], Total(Below(account, p)), w.FilesTotal(p));
  }

  /** A truncated aggregate is a lower bound unless the attribution of an inode is unresolved there. */
  lemma ResolvedIsLowerBound(w: World, depth: nat, b0: Book, g: Log, b: Book, account: map<Unit, Placed>, p: Path)
    requires Ended(w, depth, b0, g, b, account) && w.Trusted(b0.complete) && p in b.aggregates
    requires p in b.incomplete ==> UnresolvedHardlinkAttribution !in b.incomplete[p]
    ensures w.Valid() && AtMostTrue(w, b.aggregates[p], p)
  {
    hide World.Valid, Inv, World.Trusted, World.UnitsAt, World.Weight, World.LinksOf, Settling, Total, Below,
      AtMostTrue;
    InvValid(w, depth, b0, g);
    forall u | u in account && Above(p, account[u].at)
      ensures u in w.UnitsAt(p)
      ensures w.Weighable(u)
      ensures AtMost(account[u].weight, w.Weight(u))
    {
      ChargeIsUnit(w, depth, b0, g, b, account, p, u);
    }
    ChargesBound(w, depth, b0, g, b, account, p);
  }

  /** The root is a lower bound in every scan, whatever the inodes claim. */
  lemma RootIsLowerBound(w: World, depth: nat, b0: Book, g: Log, b: Book, account: map<Unit, Placed>)
    requires Ended(w, depth, b0, g, b, account) && w.InodesConsistent() && [] in b.aggregates
    ensures w.Valid() && AtMostTrue(w, b.aggregates[[]], [])
  {
    hide World.Valid, Inv, World.InodesConsistent, World.UnitsAt, World.Weight, World.LinksOf, Settling, Total, Below,
      AtMostTrue;
    InvValid(w, depth, b0, g);
    forall u | u in account && Above([], account[u].at)
      ensures u in w.UnitsAt([])
      ensures w.Weighable(u)
      ensures AtMost(account[u].weight, w.Weight(u))
    {
      ChargeAtRoot(w, depth, b0, g, b, account, u);
    }
    ChargesBound(w, depth, b0, g, b, account, []);
  }

  /** A charge with private bytes at p is a unit whose links all lie below p, outside ones included. */
  lemma PrivateIsReleased(w: World, depth: nat, b0: Book, g: Log, b: Book, account: map<Unit, Placed>, p: Path, u: Unit)
    requires Ended(w, depth, b0, g, b, account) && w.InodesConsistent()
    requires u in account && Above(p, account[u].at) && account[u].weight.privateBytes > 0
    ensures u in w.ReleasedAt(p)
    ensures w.Weighable(u)
    ensures account[u].weight.privateBytes <= w.Weight(u).privateBytes
  {
    hide World.Valid, Inv, World.InodesConsistent, World.UnitsAt, World.Weight, Settling, DeepestAbove;
    InvValid(w, depth, b0, g);
    ChargeOrigin(b0, b, g, account, u);
    match u
    case Single(f) =>
      SinglePlaced(w, depth, b0, g, f, p);
      SingleReleases(w, f);
    case Linked(k) =>
      PendingFacts(w, depth, b0, g, k);
      var link := b0.pendingHardlinks[k];
      LinksBelowPlace(w, link.commonParent, LinksMet(w, g, k), p);
      LinkedWeight(w, k, g.first[k]);
      SubsetSize(LinksMet(w, g, k), w.LinksBelow(k, p));
      SubsetSize(w.LinksBelow(k, p), w.LinksOf(k));
      assert g.first[k] in w.Files() && Linked(k) == Linked(w.KeyOf(g.first[k]).value);
  }

  lemma SingleReleases(w: World, f: Path)
    requires w.Valid() && f in w.Files()
    ensures w.Weight(Single(f)).privateBytes > 0 ==> w.LinkCount(f) <= 1
  {
    hide World.Valid;
  }

  /** In every scan, truncated or not, private bytes are bounded by what removing the directory releases. */
  lemma PrivateIsFloor(w: World, depth: nat, b0: Book, g: Log, b: Book, account: map<Unit, Placed>, p: Path)
    requires Ended(w, depth, b0, g, b, account) && w.InodesConsistent() && p in b.aggregates
    ensures w.Valid() && b.aggregates[p].privateBytes <= w.PrivateFloor(p)
  {
    hide World.Valid, Inv, World.InodesConsistent, World.ReleasedAt, World.Weight, World.LinksOf, Settling, Total;
    InvValid(w, depth, b0, g);
    EndedSums(w, depth, b0, g, b, account, p);
    forall u | u in account && Above(p, account[u].at) && account[u].weight.privateBytes > 0
      ensures u in w.ReleasedAt(p)
      ensures w.Weighable(u)
      ensures account[u].weight.privateBytes <= w.Weight(u).privateBytes
    {
      PrivateIsReleased(w, depth, b0, g, b, account, p, u);
    }
    w.ReleasedAreWeighable(p);
    PrivateMonotone(Below(account, p), w.Weights(w.ReleasedAt(p)));
  }

  // ---- when a complete scan is exact ----

  /** Units that count one file each sum up to their number. */
  lemma {:induction false} TotalFiles<U(!new)>(m: map<U, Metrics>)
    requires forall u | u in m :: m[u].files == 1
    ensures Total(m).files == |m|
    decreases |m|
  {
    if m == map[] {
    } else {
      var u :| u in m;
      var rest := m - {u};
      TotalMinus(m, u);
      TotalFiles(rest);
      assert rest[u := m[u]] == m;
      assert |rest| + 1 == |m|;
    }
  }

  lemma UnitsCount(w: World, p: Path)
    requires w.Valid()
    ensures w.FilesTotal(p).files == |w.UnitsAt(p)|
  {
    hide World.Valid, World.UnitsAt, World.LinksOf, Total;
    w.UnitsAreWeighable(p);
    var weights := w.Weights(w.UnitsAt(p));
    assert weights.Keys == w.UnitsAt(p);
    TotalFiles(weights);
  }

  lemma ChargesCount(account: map<Unit, Placed>)
    requires forall u | u in account :: account[u].weight.files == 1
    ensures Total(Below(account, [])).files == |account|
  {
    hide Total;
    var below := Below(account, []);
    assert forall u | u in account :: Above([], account[u].at);
    assert below.Keys == account.Keys;
    TotalFiles(below);
  }

  /** Of two links of an inode that claims one, at most one is charged. */
  lemma HiddenUncharged(w: World, g: Log, e: Path, f: Path)
    requires w.Valid() && w.IsFile(e) && w.IsFile(f) && w.KeyOf(e).Some? && w.KeyOf(e) == w.KeyOf(f) && e != f
    requires forall u | u in g.account :: SingleOk(w, g, u)
    ensures Single(e) !in g.account || Single(f) !in g.account
  {
    hide World.Valid, World.KeyOf;
    assert Single(e) in g.account ==> SingleOk(w, g, Single(e));
    assert Single(f) in g.account ==> SingleOk(w, g, Single(f));
  }

  lemma SingleUnit(w: World, f: Path)
    requires w.Valid() && f in w.Files() && !w.Shared(f)
    ensures Single(f) in w.UnitsAt([])
  {
    assert Above([], f);
  }

  /** An inode that hides a link leaves the root with fewer files than there are. */
  lemma HiddenLinkIsMissed(w: World, depth: nat, b0: Book, g: Log, b: Book, account: map<Unit, Placed>)
    requires Ended(w, depth, b0, g, b, account) && w.InodesConsistent() && !w.NoHiddenLinks() && [] in b.aggregates
    ensures w.Valid() && b.aggregates[[]].files < w.FilesTotal([]).files
  {
    hide World.Valid, Inv, World.InodesConsistent, World.UnitsAt, World.Weight, World.LinksOf, Settling, Total, Below,
      LinkPlaced, World.KeyOf, World.LinkCount;
    InvValid(w, depth, b0, g);
    InvInodes(w, depth, b0, g);
    EndedSums(w, depth, b0, g, b, account, []);
    forall u | u in account ensures u in w.UnitsAt([]) && account[u].weight.files == 1 {
      ChargeAtRoot(w, depth, b0, g, b, account, u);
      ChargeOrigin(b0, b, g, account, u);
      WeighsOne(w, g, b0, account, u);
    }
    ChargesCount(account);
    UnitsCount(w, []);
    var e, f :| e in w.Files() && f in w.Files() && w.KeyOf(e).Some? && w.KeyOf(e) == w.KeyOf(f)
      && w.LinkCount(e) <= 1 && e != f;
    BothAlone(w, e, f);
    SingleUnit(w, e);
    SingleUnit(w, f);
    HiddenUncharged(w, g, e, f);
    SingleWasCharged(b0, b, g, account, Single(e));
    SingleWasCharged(b0, b, g, account, Single(f));
    var missed := if Single(e) in account then Single(f) else Single(e);
    SubsetSize(account.Keys, w.UnitsAt([]));
    assert missed in w.UnitsAt([]) && missed !in account.Keys;
  }

  lemma SingleWasCharged(b0: Book, b: Book, g: Log, account: map<Unit, Placed>, u: Unit)
    requires Settling(b0, b, g, account)
    ensures u.Single? && u in account ==> u in g.account
  {
    if u in account { ChargeOrigin(b0, b, g, account, u); }
  }

  lemma BothAlone(w: World, e: Path, f: Path)
    requires w.Valid() && w.InodesConsistent() && e in w.Files() && f in w.Files()
    requires w.KeyOf(e).Some? && w.KeyOf(e) == w.KeyOf(f) && w.LinkCount(e) <= 1
    ensures !w.Shared(e) && !w.Shared(f)
  {
    hide World.Valid, World.KeyOf;
  }

  lemma WeighsOne(w: World, g: Log, b0: Book, account: map<Unit, Placed>, u: Unit)
    requires w.Valid() && u in account && forall x | x in g.account :: SingleOk(w, g, x)
    requires u.Single? ==> u in g.account && account[u] == g.account[u]
    requires u.Linked? ==> u.key in b0.pendingHardlinks && account[u] == LinkPlaced(b0.pendingHardlinks[u.key])
    ensures account[u].weight.files == 1
  {
    hide World.Valid;
    if u.Single? { assert SingleOk(w, g, u); }
  }

  /** Every aggregate reports what is there. */
  ghost predicate AllExact(w: World, aggregates: map<Path, Metrics>)
    requires w.Valid()
  {
    forall p | p in aggregates :: Exact(w, aggregates[p], p)
  }

  /** A complete scan is exact everywhere if and only if no inode that claims a single link hides another one. */
  lemma CompleteExactness(w: World, depth: nat, b0: Book, g: Log, b: Book, account: map<Unit, Placed>)
    requires Ended(w, depth, b0, g, b, account) && w.InodesConsistent() && b0.complete && [] in b.aggregates
    ensures w.Valid() && (AllExact(w, b.aggregates) <==> w.NoHiddenLinks())
  {
    hide Ended, World.Valid, World.InodesConsistent, World.NoHiddenLinks, World.FilesTotal, World.DirectoriesAt;
    assert w.Valid() && b.incomplete == map[] by {
      UnmarkedEnd(w, depth, b0, g, b, account);
    }
    if w.NoHiddenLinks() {
      forall p | p in b.aggregates ensures Exact(w, b.aggregates[p], p) {
        UnmarkedIsExact(w, depth, b0, g, b, account, p);
      }
    } else {
      HiddenLinkIsMissed(w, depth, b0, g, b, account);
      assert !Exact(w, b.aggregates[[]], []);
    }
  }

  lemma UnmarkedEnd(w: World, depth: nat, b0: Book, g: Log, b: Book, account: map<Unit, Placed>)
    requires Ended(w, depth, b0, g, b, account) && b0.complete
    ensures w.Valid() && b.incomplete == map[]
  {
  }
}
