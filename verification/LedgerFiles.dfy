// File entries keep the invariant of the ledger: further links, unavailable attributes, deferred
// inodes and files counted at once.

module LedgerFiles {
  import opened Wrappers
  import opened Paths
  import opened Metrics
  import opened Worlds
  import opened Ledger
  import opened LedgerSteps

  // ---- entries that add nothing ----

  lemma PassedMet(w: World, g: Log, d: Path, q: Path)
    requires w.Valid() && Met(w, g) && NextEntry(w, g, d, q)
    ensures Met(w, Advanced(g, d))
  {
    NextIsNew(w, g, d, q);
  }

  lemma PassedCoverage(w: World, b: Book, g: Log, busy: set<Path>, d: Path, q: Path)
    requires w.Valid() && Met(w, g) && Coverage(w, b, g, busy) && d in busy
    requires NextEntry(w, g, d, q) && Met(w, Advanced(g, d))
    requires Marked(b, d) || (!w.IsDir(q) && !w.IsFile(q))
    ensures Coverage(w, b, Advanced(g, d), busy)
  {
    hide World.Valid, Consumed;
    NextIsNew(w, g, d, q);
    forall x | x in w.nodes && Consumed(w, Advanced(g, d), x) ensures Taken(w, b, Advanced(g, d), x) {
      if x != q {
        assert Taken(w, b, g, x);
      }
    }
    forall x | x in g.listed ensures x in b.unopened || x in busy || Closed(w, b, Advanced(g, d), x) {
    }
  }

  lemma QueueAdvances(g: Log, unopened: seq<Path>, d: Path)
    requires Queue(unopened, g) && d in g.cursor
    ensures Queue(unopened, Advanced(g, d))
  {
  }

  /** An entry that is neither file nor directory, or one of a marked directory. */
  lemma EntryPassed(w: World, depth: nat, b: Book, g: Log, busy: set<Path>, d: Path, q: Path)
    requires Inv(w, depth, b, g, busy) && d in busy && NextEntry(w, g, d, q)
    requires Marked(b, d) || (!w.IsDir(q) && !w.IsFile(q))
    ensures Inv(w, depth, b, Advanced(g, d), busy)
  {
    hide Met, Keys, Queue, Coverage, Sums, Inodes, World.Valid;
    PassedMet(w, g, d, q);
    PassedCoverage(w, b, g, busy, d, q);
    QueueAdvances(g, b.unopened, d);
    InodesIgnoreCursor(w, b.seenFiles, b.pendingHardlinks, g, Advanced(g, d));
  }

  /** An entry that cannot be inspected. */
  lemma EntryUnreadable(w: World, depth: nat, b: Book, g: Log, busy: set<Path>, d: Path, q: Path)
    requires Inv(w, depth, b, g, busy) && d in busy && NextEntry(w, g, d, q)
    ensures Inv(w, depth, Faulted(b, d), Advanced(g, d), busy)
  {
    hide Met, Keys, Queue, Coverage, Sums, Inodes, World.Valid;
    FaultKeeps(w, depth, b, g, busy, d);
    EntryPassed(w, depth, Faulted(b, d), g, busy, d, q);
  }

  // ---- files: what all cases share ----

  /** The log after file entry q of d, apart from how q is accounted for. */
  ghost predicate FileLog(g: Log, g': Log, d: Path, q: Path) {
    && d in g.cursor
    && g'.listed == g.listed
    && g'.cursor == g.cursor[d := g.cursor[d] + 1]
    && g'.links == g.links + {q}
    && (g'.lost == g.lost || g'.lost == g.lost + {q})
  }

  lemma FileMet(w: World, g: Log, g': Log, d: Path, q: Path)
    requires w.Valid() && Met(w, g) && NextEntry(w, g, d, q) && w.IsFile(q) && FileLog(g, g', d, q)
    ensures Met(w, g')
    ensures forall x {:trigger Consumed(w, g', x)} :: Consumed(w, g', x) <==> Consumed(w, g, x) || x == q
  {
    NextIsNew(w, g, d, q);
    forall x ensures Consumed(w, g', x) <==> Consumed(w, Advanced(g, d), x) {
    }
  }

  lemma FileCoverage(w: World, b: Book, g: Log, g': Log, busy: set<Path>, d: Path, q: Path)
    requires w.Valid() && Met(w, g) && Coverage(w, b, g, busy) && d in busy
    requires NextEntry(w, g, d, q) && w.IsFile(q) && FileLog(g, g', d, q) && Met(w, g')
    requires q in g'.lost ==> Marked(b, q)
    ensures Coverage(w, b, g', busy)
  {
    hide World.Valid, Consumed;
    FileMet(w, g, g', d, q);
    NextIsNew(w, g, d, q);
    forall x | x in w.nodes && Consumed(w, g', x) ensures Taken(w, b, g', x) {
      if x != q {
        assert Taken(w, b, g, x);
      }
    }
    forall x | x in g.listed ensures x in b.unopened || x in busy || Closed(w, b, g', x) {
    }
  }

  lemma QueueFile(g: Log, g': Log, unopened: seq<Path>, d: Path, q: Path)
    requires Queue(unopened, g) && FileLog(g, g', d, q)
    ensures Queue(unopened, g')
  {
  }

  /** Everything but sums and inodes survives a file entry. */
  lemma FileFrame(w: World, depth: nat, b: Book, b': Book, g: Log, g': Log, busy: set<Path>, d: Path, q: Path)
    requires Inv(w, depth, b, g, busy) && d in busy && NextEntry(w, g, d, q) && w.IsFile(q)
    requires FileLog(g, g', d, q)
    requires b'.unopened == b.unopened && Keys(depth, b', g.listed)
    requires b'.aggregates.Keys == b.aggregates.Keys && b.incomplete.Keys <= b'.incomplete.Keys
    requires q in g'.lost ==> Marked(b', q)
    ensures Met(w, g') && Queue(b'.unopened, g') && Coverage(w, b', g', busy)
  {
    hide Met, Keys, Queue, Coverage, Sums, Inodes, World.Valid;
    FileMet(w, g, g', d, q);
    CoverageGrows(w, b, b', g, busy);
    FileCoverage(w, b', g, g', busy, d, q);
    QueueFile(g, g', b.unopened, d, q);
  }

  lemma SumsSame(b: Book, b': Book, listed: set<Path>, account: map<Unit, Placed>)
    requires Sums(b, listed, account)
    requires b'.aggregates == b.aggregates && b'.incomplete == b.incomplete
    ensures Sums(b', listed, account)
  {
    forall p | p in b'.aggregates ensures SumsAt(b', listed, account, p) {
      assert SumsAt(b, listed, account, p);
    }
  }

  lemma LinksMetGrows(w: World, g: Log, g': Log, q: Path, k: Key)
    requires w.Valid() && w.IsFile(q) && q !in g.links && g'.links == g.links + {q}
    ensures LinksMet(w, g', k) == LinksMet(w, g, k) + (if w.KeyOf(q) == Some(k) then {q} else {})
    ensures q !in LinksMet(w, g, k)
  {
  }

  /** Deferred inodes other than q's own are not affected. */
  lemma PendingKept(w: World, g: Log, g': Log, q: Path, k: Key, link: PendingHardlink)
    requires w.Valid() && w.IsFile(q) && q !in g.links && g'.links == g.links + {q}
    requires w.KeyOf(q) != Some(k) && k in g.first && k in g'.first && g'.first[k] == g.first[k]
    requires g.first[k] in g'.lost ==> g.first[k] in g.lost
    requires PendingOk(w, g, k, link)
    ensures PendingOk(w, g', k, link)
  {
    LinksMetGrows(w, g, g', q, k);
  }

  // ---- the deepest common directory ----

  lemma {:induction false} NarrowedIsMeet(common: Path, path: Path)
    ensures Above(Narrowed(common, path), common) && Above(Narrowed(common, path), path)
    ensures forall p | Above(p, common) && Above(p, path) :: Above(p, Narrowed(common, path))
    decreases |common|
  {
    if Above(common, path) || common == [] {
    } else {
      NarrowedIsMeet(Parent(common), path);
      forall p | Above(p, common) && Above(p, path) ensures Above(p, Narrowed(common, path)) {
        PrefixStep(p, common);
      }
    }
  }

  lemma FirstLinkDeepest(w: World, q: Path)
    requires w.IsFile(q) && q != []
    ensures DeepestAbove(w, Parent(q), {q})
  {
    forall p | w.IsDir(p) && (forall f | f in {q} :: Above(p, f)) ensures Above(p, Parent(q)) {
      assert Above(p, q);
      PrefixStep(p, q);
    }
  }

  lemma NarrowedDeepest(w: World, cp: Path, links: set<Path>, q: Path)
    requires DeepestAbove(w, cp, links)
    ensures DeepestAbove(w, Narrowed(cp, q), links + {q})
  {
    NarrowedIsMeet(cp, q);
    var n := Narrowed(cp, q);
    forall f | f in links + {q} ensures Above(n, f) {
      if f in links {
        assert Above(cp, f);
      }
    }
    forall p | w.IsDir(p) && (forall f | f in links + {q} :: Above(p, f)) ensures Above(p, n) {
      assert Above(p, q);
      assert forall f | f in links :: f in links + {q};
      assert Above(p, cp);
    }
  }

  // ---- charges ----

  lemma AccountGrows(account: map<Unit, Placed>, u: Unit, at: Path, weight: Metrics, p: Path)
    requires u !in account
    ensures Total(Below(account[u := Placed(at, weight)], p)) ==
            if Above(p, at) then Plus(weight, Total(Below(account, p))) else Total(Below(account, p))
  {
    var account' := account[u := Placed(at, weight)];
    if Above(p, at) {
      assert Below(account', p) == Below(account, p)[u := weight];
      TotalInsert(Below(account, p), u, weight);
    } else {
      assert Below(account', p) == Below(account, p);
    }
  }

  lemma ChargeShows(m: Metrics, total: Metrics, weight: Metrics)
    requires Shows(m, total)
    ensures Shows(Charge(m, weight), Plus(weight, total))
  {
  }

  ghost predicate HasErrorMark(b: Book, p: Path) {
    p in b.incomplete && ScanErrors in b.incomplete[p]
  }

  lemma ChargedSumAt(b: Book, b': Book, listed: set<Path>, account: map<Unit, Placed>, u: Unit, at: Path,
      weight: Metrics, p: Path)
    requires p in b.aggregates && SumsAt(b, listed, account, p) && u !in account
    requires p in b'.aggregates && (HasErrorMark(b', p) <==> HasErrorMark(b, p))
    requires b'.aggregates[p] == if Above(p, at) then Charge(b.aggregates[p], weight) else b.aggregates[p]
    requires weight.directories == 0 && weight.errors == 0
    ensures SumsAt(b', listed, account[u := Placed(at, weight)], p)
  {
    hide Total, Below;
    AccountGrows(account, u, at, weight, p);
    ChargeShows(b.aggregates[p], Total(Below(account, p)), weight);
  }

  /** A charge for a new unit keeps all sums. */
  lemma ChargedSums(b: Book, b': Book, listed: set<Path>, account: map<Unit, Placed>, u: Unit, at: Path,
      weight: Metrics)
    requires Sums(b, listed, account) && u !in account
    requires b'.aggregates == Charged(b.aggregates, at, weight)
    requires forall p :: HasErrorMark(b', p) <==> HasErrorMark(b, p)
    requires weight.directories == 0 && weight.errors == 0
    ensures Sums(b', listed, account[u := Placed(at, weight)])
  {
    hide Charge, Shows, HasErrorMark;
    forall p | p in b'.aggregates ensures SumsAt(b', listed, account[u := Placed(at, weight)], p) {
      assert SumsAt(b, listed, account, p);
      ChargedSumAt(b, b', listed, account, u, at, weight, p);
    }
  }

  lemma DuplicateSums(b: Book, b': Book, listed: set<Path>, account: map<Unit, Placed>, q: Path)
    requires Sums(b, listed, account)
    requires b'.aggregates == Charged(b.aggregates, q, OneDuplicate()) && b'.incomplete == b.incomplete
    ensures Sums(b', listed, account)
  {
    forall p | p in b'.aggregates ensures SumsAt(b', listed, account, p) {
      assert SumsAt(b, listed, account, p);
      ChargeKeepsShown(b.aggregates[p], Total(Below(account, p)), OneDuplicate());
    }
  }

  // ---- accounting for one file entry ----

  lemma SinglesKept(w: World, g: Log, g': Log, u: Unit)
    requires w.Valid() && u in g.account && SingleOk(w, g, u)
    requires u in g'.account && g'.account[u] == g.account[u] && g.links <= g'.links
    requires forall k | k in g.first :: k in g'.first && g'.first[k] == g.first[k]
    ensures SingleOk(w, g', u)
  {
  }

  lemma DuplicatePending(w: World, g: Log, g': Log, q: Path, k: Key, link: PendingHardlink)
    requires w.Valid() && PendingOk(w, g, k, link)
    requires w.IsFile(q) && q !in g.links && w.KeyOf(q) == Some(k)
    requires g'.links == g.links + {q} && g'.first == g.first && g'.lost == g.lost
    ensures PendingOk(w, g', k,
              link.(observedLinks := link.observedLinks + 1, commonParent := Narrowed(link.commonParent, q)))
  {
    hide World.Valid, DeepestAbove;
    LinksMetGrows(w, g, g', q, k);
    NarrowedDeepest(w, link.commonParent, LinksMet(w, g, k), q);
  }

  lemma LostAreLinks(w: World, g: Log)
    requires w.Valid() && Met(w, g)
    ensures g.lost <= g.links
  {
  }

  lemma DeferredPending(w: World, g': Log, q: Path, k: Key)
    requires w.Valid() && w.IsFile(q) && q != [] && w.Shared(q) && w.KeyOf(q) == Some(k)
    requires k in g'.first && g'.first[k] == q && q !in g'.lost && LinksMet(w, g', k) == {q}
    ensures PendingOk(w, g', k, PendingHardlink(w.LinkCount(q), 1, Parent(q), w.nodes[q].measure))
  {
    FirstLinkDeepest(w, q);
  }

  lemma DuplicateInodes(w: World, b: Book, g: Log, g': Log, q: Path, k: Key)
    requires w.Valid() && Met(w, g) && Met(w, g') && Inodes(w, b.seenFiles, b.pendingHardlinks, g)
    requires w.IsFile(q) && q !in g.links && w.KeyOf(q) == Some(k) && k in b.seenFiles
    requires g'.links == g.links + {q} && g'.first == g.first && g'.lost == g.lost && g'.account == g.account
    ensures Inodes(w, b.seenFiles, TookDuplicate(b, q, k).pendingHardlinks, g')
  {
    hide World.Valid, Met, World.KeyOf, SingleOk, PendingOk;
    var pending' := TookDuplicate(b, q, k).pendingHardlinks;
    forall u | u in g'.account ensures SingleOk(w, g', u) {
      SinglesKept(w, g, g', u);
    }
    forall k' | k' in g'.first ensures g'.first[k'] in LinksMet(w, g', k') {
      LinksMetGrows(w, g, g', q, k');
    }
    forall k' | k' in pending' ensures PendingOk(w, g', k', pending'[k']) {
      DuplicatePendings(w, b, g, g', q, k, k');
    }
  }

  lemma DuplicatePendings(w: World, b: Book, g: Log, g': Log, q: Path, k: Key, k': Key)
    requires w.Valid() && Met(w, g) && Inodes(w, b.seenFiles, b.pendingHardlinks, g)
    requires w.IsFile(q) && q !in g.links && w.KeyOf(q) == Some(k) && k' in b.pendingHardlinks
    requires g'.links == g.links + {q} && g'.first == g.first && g'.lost == g.lost
    ensures PendingOk(w, g', k', TookDuplicate(b, q, k).pendingHardlinks[k'])
  {
    hide World.Valid, Met, World.KeyOf, DeepestAbove, SingleOk;
    assert PendingOk(w, g, k', b.pendingHardlinks[k']);
    if k' == k {
      DuplicatePending(w, g, g', q, k, b.pendingHardlinks[k]);
    } else {
      PendingKept(w, g, g', q, k', b.pendingHardlinks[k']);
    }
  }

  /** q is the first entry of its inode, if it has a key at all. */
  ghost predicate Fresh(w: World, b: Book, g: Log, g': Log, q: Path)
    requires w.Valid() && w.IsFile(q)
  {
    && q !in g.links
    && g'.links == g.links + {q}
    && (w.KeyOf(q).Some? ==> w.KeyOf(q).value !in b.seenFiles)
    && g'.first == if w.KeyOf(q).Some? then g.first[w.KeyOf(q).value := q] else g.first
  }

  ghost function SeenWith(w: World, b: Book, q: Path): set<Key>
    requires w.Valid() && w.IsFile(q)
  {
    if w.KeyOf(q).Some? then b.seenFiles + {w.KeyOf(q).value} else b.seenFiles
  }

  lemma FreshFirsts(w: World, b: Book, g: Log, g': Log, q: Path)
    requires w.Valid() && Met(w, g) && Inodes(w, b.seenFiles, b.pendingHardlinks, g)
    requires w.IsFile(q) && Fresh(w, b, g, g', q)
    ensures SeenWith(w, b, q) == g'.first.Keys
    ensures forall k | k in g'.first :: g'.first[k] in LinksMet(w, g', k)
    ensures forall f | f in g'.links && w.IsFile(f) && w.KeyOf(f).Some? :: w.KeyOf(f).value in g'.first
    ensures w.KeyOf(q).Some? ==> LinksMet(w, g, w.KeyOf(q).value) == {} && w.KeyOf(q).value !in b.pendingHardlinks
  {
    hide World.Valid, World.KeyOf;
    forall k | k in g'.first ensures g'.first[k] in LinksMet(w, g', k) {
      LinksMetGrows(w, g, g', q, k);
    }
  }

  lemma FreshPending(w: World, b: Book, g: Log, g': Log, q: Path, k: Key)
    requires w.Valid() && Met(w, g) && Inodes(w, b.seenFiles, b.pendingHardlinks, g)
    requires w.IsFile(q) && Fresh(w, b, g, g', q) && k in b.pendingHardlinks && w.KeyOf(q) != Some(k)
    requires g'.lost <= g.lost + {q}
    ensures PendingOk(w, g', k, b.pendingHardlinks[k])
  {
    hide World.Valid, World.KeyOf, Met;
    assert PendingOk(w, g, k, b.pendingHardlinks[k]);
    PendingKept(w, g, g', q, k, b.pendingHardlinks[k]);
  }

  lemma LostInodes(w: World, b: Book, g: Log, g': Log, q: Path)
    requires w.Valid() && Met(w, g) && Met(w, g') && Inodes(w, b.seenFiles, b.pendingHardlinks, g)
    requires w.IsFile(q) && Fresh(w, b, g, g', q)
    requires g'.lost == g.lost + {q} && g'.account == g.account
    ensures Inodes(w, SeenWith(w, b, q), b.pendingHardlinks, g')
  {
    hide World.Valid, Met, PendingOk, World.KeyOf;
    FreshFirsts(w, b, g, g', q);
    forall u | u in g'.account ensures SingleOk(w, g', u) {
      SinglesKept(w, g, g', u);
    }
    forall k | k in b.pendingHardlinks ensures PendingOk(w, g', k, b.pendingHardlinks[k]) {
      FreshPending(w, b, g, g', q, k);
    }
  }

  lemma DeferredInodes(w: World, b: Book, g: Log, g': Log, q: Path)
    requires w.Valid() && Met(w, g) && Met(w, g') && Inodes(w, b.seenFiles, b.pendingHardlinks, g)
    requires w.IsFile(q) && q != [] && Fresh(w, b, g, g', q) && w.Shared(q)
    requires g'.lost == g.lost && g'.account == g.account
    ensures var pending' := b.pendingHardlinks[
              w.KeyOf(q).value := PendingHardlink(w.LinkCount(q), 1, Parent(q), w.nodes[q].measure)];
            Inodes(w, SeenWith(w, b, q), pending', g')
  {
    hide World.Valid, World.KeyOf, Met, PendingOk;
    LostAreLinks(w, g);
    var k := w.KeyOf(q).value;
    var pending' := b.pendingHardlinks[k := PendingHardlink(w.LinkCount(q), 1, Parent(q), w.nodes[q].measure)];
    FreshFirsts(w, b, g, g', q);
    forall u | u in g'.account ensures SingleOk(w, g', u) {
      SinglesKept(w, g, g', u);
    }
    forall k' | k' in pending' ensures PendingOk(w, g', k', pending'[k']) {
      if k' == k {
        LinksMetGrows(w, g, g', q, k);
        assert LinksMet(w, g', k) == {q};
        DeferredPending(w, g', q, k);
      } else {
        FreshPending(w, b, g, g', q, k');
      }
    }
  }

  lemma CountedSingle(w: World, g: Log, q: Path)
    requires w.Valid() && w.IsFile(q) && q in g.links && !w.Shared(q) && FirstOfInode(w, g, q)
    requires Single(q) in g.account
    requires g.account[Single(q)] == Placed(q, Weigh(w.nodes[q].measure, w.LinkCount(q) <= 1))
    ensures SingleOk(w, g, Single(q))
  {
  }

  lemma UncountedYet(w: World, seen: set<Key>, pending: map<Key, PendingHardlink>, g: Log, q: Path)
    requires w.Valid() && Met(w, g) && Inodes(w, seen, pending, g) && q !in g.links
    ensures Single(q) !in g.account
  {
    assert Single(q) in g.account ==> SingleOk(w, g, Single(q));
  }

  lemma CountedInodes(w: World, b: Book, g: Log, g': Log, q: Path)
    requires w.Valid() && Met(w, g) && Met(w, g') && Inodes(w, b.seenFiles, b.pendingHardlinks, g)
    requires w.IsFile(q) && Fresh(w, b, g, g', q) && !w.Shared(q)
    requires g'.lost == g.lost
    requires g'.account == g.account[Single(q) := Placed(q, Weigh(w.nodes[q].measure, w.LinkCount(q) <= 1))]
    ensures Single(q) !in g.account
    ensures Inodes(w, SeenWith(w, b, q), b.pendingHardlinks, g')
  {
    hide World.Valid, Met, PendingOk, World.KeyOf, SingleOk;
    FreshFirsts(w, b, g, g', q);
    UncountedYet(w, b.seenFiles, b.pendingHardlinks, g, q);
    forall u | u in g'.account ensures SingleOk(w, g', u) {
      if u != Single(q) {
        SinglesKept(w, g, g', u);
      } else {
        CountedSingle(w, g', q);
      }
    }
    forall k | k in b.pendingHardlinks ensures PendingOk(w, g', k, b.pendingHardlinks[k]) {
      FreshPending(w, b, g, g', q, k);
    }
  }

  // ---- one file entry ----

  /** The log after file entry q of d. */
  ghost function FileTaken(w: World, b: Book, g: Log, d: Path, q: Path, available: bool): Log
    requires w.Valid() && w.IsFile(q) && d in g.cursor
  {
    var key := w.KeyOf(q);
    var g1 := Advanced(g, d).(links := g.links + {q});
    if key.Some? && key.value in b.seenFiles then g1
    else
      var g2 := if key.Some? then g1.(first := g.first[key.value := q]) else g1;
      if !available then g2.(lost := g.lost + {q})
      else if w.Shared(q) then g2
      else g2.(account := g.account[Single(q) := Placed(q, Weigh(w.nodes[q].measure, w.LinkCount(q) <= 1))])
  }

  function FileBook(w: World, b: Book, q: Path, available: bool): Book
    requires w.Valid() && w.IsFile(q) && q != []
  {
    TookFile(b, q, w.KeyOf(q), w.LinkCount(q), if available then Some(w.nodes[q].measure) else None)
  }

  lemma KeysSame(depth: nat, b: Book, b': Book, listed: set<Path>)
    requires Keys(depth, b, listed)
    requires b'.aggregates.Keys == b.aggregates.Keys && b'.incomplete == b.incomplete && b'.complete == b.complete
    ensures Keys(depth, b', listed)
  {
  }

  lemma FileKeys(w: World, depth: nat, b: Book, listed: set<Path>, q: Path, available: bool)
    requires w.Valid() && w.IsFile(q) && q != [] && Keys(depth, b, listed) && [] in listed
    ensures var b' := FileBook(w, b, q, available);
            && Keys(depth, b', listed) && b'.unopened == b.unopened
            && b'.aggregates.Keys == b.aggregates.Keys && b.incomplete.Keys <= b'.incomplete.Keys
  {
    hide World.Valid, World.KeyOf, Keys, Charge, Noted;
    var b1 := b.(seenFiles := SeenWith(w, b, q));
    KeysSame(depth, b, b1, listed);
    if w.KeyOf(q).Some? && w.KeyOf(q).value in b.seenFiles {
      KeysSame(depth, b, FileBook(w, b, q, available), listed);
    } else if !available {
      FaultKeepsKeys(depth, b1, listed, q);
    } else {
      KeysSame(depth, b, FileBook(w, b, q, available), listed);
    }
  }

  lemma FileSums(w: World, b: Book, g: Log, d: Path, q: Path, available: bool)
    requires w.Valid() && w.IsFile(q) && q != [] && d in g.cursor && Single(q) !in g.account
    requires Sums(b, g.listed, g.account)
    ensures Sums(FileBook(w, b, q, available), g.listed, FileTaken(w, b, g, d, q, available).account)
  {
    hide Sums, World.Valid, World.KeyOf, Charged, Noted;
    var b' := FileBook(w, b, q, available);
    var b1 := b.(seenFiles := SeenWith(w, b, q));
    if w.KeyOf(q).Some? && w.KeyOf(q).value in b.seenFiles {
      DuplicateSums(b, b', g.listed, g.account, q);
    } else if !available {
      SumsSame(b, b1, g.listed, g.account);
      FaultKeepsSums(b1, g.listed, g.account, q);
    } else if w.Shared(q) {
      SumsSame(b, b', g.listed, g.account);
    } else {
      ChargedSums(b, b', g.listed, g.account, Single(q), q, Weigh(w.nodes[q].measure, w.LinkCount(q) <= 1));
    }
  }

  lemma FileInodes(w: World, b: Book, g: Log, d: Path, q: Path, available: bool)
    requires w.Valid() && w.IsFile(q) && q != [] && d in g.cursor && q !in g.links
    requires Met(w, g) && Met(w, FileTaken(w, b, g, d, q, available))
    requires Inodes(w, b.seenFiles, b.pendingHardlinks, g)
    ensures var b' := FileBook(w, b, q, available);
            Inodes(w, b'.seenFiles, b'.pendingHardlinks, FileTaken(w, b, g, d, q, available))
  {
    hide World.Valid, World.KeyOf, Met, Inodes, Charged, Noted;
    var g' := FileTaken(w, b, g, d, q, available);
    if w.KeyOf(q).Some? && w.KeyOf(q).value in b.seenFiles {
      DuplicateInodes(w, b, g, g', q, w.KeyOf(q).value);
    } else if !available {
      LostInodes(w, b, g, g', q);
    } else if w.Shared(q) {
      DeferredInodes(w, b, g, g', q);
    } else {
      CountedInodes(w, b, g, g', q);
    }
  }

  lemma FileLogged(w: World, b: Book, g: Log, d: Path, q: Path, available: bool)
    requires w.Valid() && w.IsFile(q) && q != [] && d in g.cursor
    requires Met(w, g) && q !in g.links
    ensures FileLog(g, FileTaken(w, b, g, d, q, available), d, q)
    ensures q in FileTaken(w, b, g, d, q, available).lost ==> Marked(FileBook(w, b, q, available), q)
  {
    hide World.Valid, World.KeyOf;
  }

  /** A readable file entry; `available` tells whether its attributes came with it. */
  lemma EntryFile(w: World, depth: nat, b: Book, g: Log, busy: set<Path>, d: Path, q: Path, available: bool)
    requires Inv(w, depth, b, g, busy) && d in busy && NextEntry(w, g, d, q) && w.IsFile(q)
    ensures q != [] && d in g.cursor
    ensures Inv(w, depth, FileBook(w, b, q, available), FileTaken(w, b, g, d, q, available), busy)
  {
    hide Keys, Queue, Coverage, Sums, Inodes, World.Valid, World.KeyOf, FileTaken, FileBook;
    var g' := FileTaken(w, b, g, d, q, available);
    NextIsNew(w, g, d, q);
    FileLogged(w, b, g, d, q, available);
    FileMet(w, g, g', d, q);
    FileKeys(w, depth, b, g.listed, q, available);
    FileFrame(w, depth, b, FileBook(w, b, q, available), g, g', busy, d, q);
    UncountedYet(w, b.seenFiles, b.pendingHardlinks, g, q);
    FileSums(w, b, g, d, q, available);
    FileInodes(w, b, g, d, q, available);
  }
}
