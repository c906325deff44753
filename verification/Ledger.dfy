// The collections `scan_root` updates while it reads directory entries, the effect of every kind
// of entry on them, and what they mean in terms of the snapshot.

module Ledger {
  import opened Wrappers
  import opened Paths
  import opened Metrics
  import opened Worlds

  datatype Reason = EntryBudgetExhausted | ScanErrors | UnresolvedHardlinkAttribution

  datatype PendingHardlink = PendingHardlink(
    expectedLinks: nat,
    observedLinks: nat,
    commonParent: Path,
    measure: Measure)

  datatype Book = Book(
    unopened: seq<Path>,
    seenFiles: set<Key>,
    pendingHardlinks: map<Key, PendingHardlink>,
    aggregates: map<Path, Metrics>,
    incomplete: map<Path, set<Reason>>,
    complete: bool)

  // ---- effects ----

  /** Charge an amount to every aggregate at or above a path. */
  function Charged(aggregates: map<Path, Metrics>, path: Path, amount: Metrics): map<Path, Metrics> {
    map p | p in aggregates :: if Above(p, path) then Charge(aggregates[p], amount) else aggregates[p]
  }

  /** Note a reason at every aggregate at or above a path. */
  function Noted(aggregates: map<Path, Metrics>, incomplete: map<Path, set<Reason>>, path: Path, reason: Reason)
    : map<Path, set<Reason>>
  {
    map p | p in incomplete.Keys + aggregates.Keys && (p in incomplete || Above(p, path)) ::
      (if p in incomplete then incomplete[p] else {}) + (if p in aggregates && Above(p, path) then {reason} else {})
  }

  /** A read error at a path. */
  function Faulted(b: Book, path: Path): Book {
    b.(aggregates := Charged(b.aggregates, path, OneError()),
    incomplete := Noted(b.aggregates, b.incomplete, path, ScanErrors),
    complete := false)
  }

  /**
   * A directory entry: its own aggregate when shallow enough, one directory everywhere above, and a place in the
   * queue.
   */
  function TookDirectory(b: Book, path: Path, depth: nat): Book {
    var known := if |path| <= depth && path !in b.aggregates then b.aggregates[path := Zero()] else b.aggregates;
    b.(aggregates := Charged(known, path, OneDirectory()), unopened := b.unopened + [path])
  }

  /** A further link of a known inode. */
  function TookDuplicate(b: Book, path: Path, key: Key): Book {
    var b1 := b.(aggregates := Charged(b.aggregates, path, OneDuplicate()));
    if key in b.pendingHardlinks then
      var link := b.pendingHardlinks[key];
      b1.(pendingHardlinks := b.pendingHardlinks[key := link.(
      observedLinks := link.observedLinks + 1,
      commonParent := Narrowed(link.commonParent, path))])
    else b1
  }

  /** Pop components until the remainder is at or above the path. */
  function Narrowed(common: Path, path: Path): Path
    decreases |common|
  {
    if Above(common, path) || common == [] then common else Narrowed(Parent(common), path)
  }

  /** A file entry; `measure` is None when its attributes are unavailable. */
  function TookFile(b: Book, path: Path, key: Option<Key>, linkCount: nat, measure: Option<Measure>): Book
    requires path != []
  {
    if key.Some? && key.value in b.seenFiles then TookDuplicate(b, path, key.value)
    else
      var b1 := if key.Some? then b.(seenFiles := b.seenFiles + {key.value}) else b;
      if measure.None? then Faulted(b1, path)
      else if linkCount > 1 && key.Some? then
        b1.(pendingHardlinks :=
        b.pendingHardlinks[key.value := PendingHardlink(linkCount, 1, Parent(path), measure.value)])
      else
        b1.(aggregates := Charged(b.aggregates, path, Weigh(measure.value, linkCount <= 1)))
  }

  /** Close one deferred inode: it is counted where all its observed links lie. */
  function Settle(b: Book, key: Key): Book
    requires key in b.pendingHardlinks
  {
    var link := b.pendingHardlinks[key];
    var whole := link.observedLinks >= link.expectedLinks;
    b.(incomplete := if !b.complete && !whole
    then Noted(b.aggregates, b.incomplete, link.commonParent, UnresolvedHardlinkAttribution)
    else b.incomplete,
    aggregates := Charged(b.aggregates, link.commonParent, Weigh(link.measure, whole)),
    pendingHardlinks := b.pendingHardlinks - {key})
  }

  // ---- meaning ----

  /** Where a counted unit was charged, and with what. */
  datatype Placed = Placed(at: Path, weight: Metrics)

  /**
   * History of a scan: directories met, entries consumed per opened directory, file entries read,
   * those without attributes, the first link met of each inode, and the charges made.
   */
  datatype Log = Log(
    listed: set<Path>,
    cursor: map<Path, nat>,
    links: set<Path>,
    lost: set<Path>,
    first: map<Key, Path>,
    account: map<Unit, Placed>)

  ghost predicate Consumed(w: World, g: Log, q: Path)
    requires w.Valid()
  {
    && q != []
    && Parent(q) in g.cursor
    && w.IsDir(Parent(q))
    && g.cursor[Parent(q)] <= |w.nodes[Parent(q)].names|
    && Last(q) in w.nodes[Parent(q)].names[..g.cursor[Parent(q)]]
  }

  /** Every aggregate at or above the path carries a reason. */
  ghost predicate Marked(b: Book, path: Path) {
    forall p | p in b.aggregates && Above(p, path) :: p in b.incomplete
  }

  ghost function Below(account: map<Unit, Placed>, p: Path): map<Unit, Metrics> {
    map u | u in account && Above(p, account[u].at) :: account[u].weight
  }

  /** What has been met: directories and files of the snapshot, each consumed from its parent's listing. */
  ghost predicate Met(w: World, g: Log)
    requires w.Valid()
  {
    && [] in g.listed
    && (forall d | d in g.listed :: w.IsDir(d) && w.Visible(d))
    && (forall d {:trigger Consumed(w, g, d)} | d in g.listed :: d == [] || Consumed(w, g, d))
    && (forall d | d in g.cursor :: d in g.listed && w.Descends(d) && g.cursor[d] <= |w.nodes[d].names|)
    && (forall f | f in g.links :: w.IsFile(f) && w.Visible(f))
    && (forall f {:trigger Consumed(w, g, f)} | f in g.links :: Consumed(w, g, f))
    && g.lost <= g.links
  }

  /** Aggregates are the shallow met directories, and the marks agree with the overall verdict. */
  ghost predicate Keys(depth: nat, b: Book, listed: set<Path>) {
    && (forall p :: p in b.aggregates <==> p in listed && |p| <= depth)
    && (forall p | p in b.incomplete :: p in b.aggregates && b.incomplete[p] != {})
    && (b.complete <==> b.incomplete == map[])
    && (!b.complete ==> [] in b.incomplete)
    && Inherited(b)
  }

  /** Reasons are closed upwards. */
  ghost predicate Inherited(b: Book) {
    forall p, q {:trigger Above(q, p)} | p in b.incomplete && q in b.aggregates && Above(q, p) ::
      q in b.incomplete && b.incomplete[p] <= b.incomplete[q]
  }

  /** The directory needs no further reading, or its totals are marked. */
  ghost predicate Closed(w: World, b: Book, g: Log, d: Path)
    requires w.Valid() && w.IsDir(d)
  {
    Marked(b, d) || !w.Descends(d) || (d in g.cursor && g.cursor[d] == |w.nodes[d].names|)
  }

  /** A consumed entry was taken, or its directory is marked. */
  ghost predicate Taken(w: World, b: Book, g: Log, q: Path)
  {
    && q != []
    && (w.IsDir(q) ==> q in g.listed || Marked(b, Parent(q)))
    && (w.IsFile(q) ==> q in g.links || Marked(b, Parent(q)))
  }

  /** The queue holds met directories that have no reader yet, each once. */
  ghost predicate Queue(unopened: seq<Path>, g: Log) {
    && (forall i | 0 <= i < |unopened| :: unopened[i] in g.listed && unopened[i] !in g.cursor)
    && (forall i, j | 0 <= i < j < |unopened| :: unopened[i] != unopened[j])
  }

  /** Nothing met is forgotten: it is queued, being read (`busy`), closed, counted, or marked. */
  ghost predicate Coverage(w: World, b: Book, g: Log, busy: set<Path>)
    requires w.Valid() && Met(w, g)
  {
    && (forall d | d in g.listed :: d in b.unopened || d in busy || Closed(w, b, g, d))
    && busy <= g.cursor.Keys
    && (forall q {:trigger Taken(w, b, g, q)} | q in w.nodes && Consumed(w, g, q) :: Taken(w, b, g, q))
    && (forall f | f in g.lost :: Marked(b, f))
  }

  ghost function ListedBelow(listed: set<Path>, p: Path): set<Path> {
    set d | d in listed && Above(p, d)
  }

  ghost predicate SumsAt(b: Book, listed: set<Path>, account: map<Unit, Placed>, p: Path)
    requires p in b.aggregates
  {
    && b.aggregates[p].directories == |ListedBelow(listed, p)|
    && Shows(b.aggregates[p], Total(Below(account, p)))
    && (b.aggregates[p].errors > 0 <==> p in b.incomplete && ScanErrors in b.incomplete[p])
  }

  /** Every aggregate shows exactly the directories met and the units charged below it. */
  ghost predicate Sums(b: Book, listed: set<Path>, account: map<Unit, Placed>) {
    forall p | p in b.aggregates :: SumsAt(b, listed, account, p)
  }

  ghost function LinksMet(w: World, g: Log, k: Key): set<Path>
    requires w.Valid()
  {
    set f | f in g.links && w.IsFile(f) && w.KeyOf(f) == Some(k)
  }

  /** The path is the deepest directory above all the given links. */
  ghost predicate DeepestAbove(w: World, cp: Path, links: set<Path>) {
    && (forall f | f in links :: Above(cp, f))
    && (forall q {:trigger Above(q, cp)} | w.IsDir(q) && (forall f | f in links :: Above(q, f)) :: Above(q, cp))
  }

  ghost predicate PendingOk(w: World, g: Log, k: Key, link: PendingHardlink)
    requires w.Valid()
  {
    && k in g.first
    && g.first[k] in LinksMet(w, g, k)
    && g.first[k] !in g.lost
    && w.Shared(g.first[k])
    && link.expectedLinks == w.LinkCount(g.first[k])
    && link.measure == w.nodes[g.first[k]].measure
    && link.observedLinks == |LinksMet(w, g, k)|
    && DeepestAbove(w, link.commonParent, LinksMet(w, g, k))
  }

  /** The entry is the first one read of its inode, as far as it has an identity. */
  ghost predicate FirstOfInode(w: World, g: Log, f: Path)
    requires w.Valid() && w.IsFile(f)
  {
    w.KeyOf(f).Some? ==> w.KeyOf(f).value in g.first && g.first[w.KeyOf(f).value] == f
  }

  /** Charges that are final when made: files counted on their own, an inode at its first entry only. */
  ghost predicate SingleOk(w: World, g: Log, u: Unit)
    requires w.Valid() && u in g.account
  {
    && u.Single?
    && u.path in g.links
    && w.IsFile(u.path)
    && !w.Shared(u.path)
    && FirstOfInode(w, g, u.path)
    && g.account[u] == Placed(u.path, Weigh(w.nodes[u.path].measure, w.LinkCount(u.path) <= 1))
  }

  /** Every file entry read is accounted for: alone, with its inode, or as lost. */
  ghost predicate Inodes(w: World, seen: set<Key>, pending: map<Key, PendingHardlink>, g: Log)
    requires w.Valid() && Met(w, g)
  {
    && seen == g.first.Keys
    && (forall k | k in g.first :: g.first[k] in LinksMet(w, g, k))
    && (forall k | k in g.first :: k in pending || g.first[k] in g.lost || Single(g.first[k]) in g.account)
    && (forall f | f in g.links && w.KeyOf(f).Some? :: w.KeyOf(f).value in g.first)
    && (forall f | f in g.links && w.KeyOf(f).None? :: f in g.lost || Single(f) in g.account)
    && (forall u | u in g.account :: SingleOk(w, g, u))
    && (forall k | k in pending :: PendingOk(w, g, k, pending[k]))
  }

  /** The scan invariant; `busy` are the directories whose readers are open. */
  ghost predicate Inv(w: World, depth: nat, b: Book, g: Log, busy: set<Path>)
  {
    && w.Valid()
    && Met(w, g)
    && Keys(depth, b, g.listed)
    && Queue(b.unopened, g)
    && Coverage(w, b, g, busy)
    && Sums(b, g.listed, g.account)
    && Inodes(w, b.seenFiles, b.pendingHardlinks, g)
  }
}
