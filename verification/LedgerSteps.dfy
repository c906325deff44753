// Every step of the scan keeps the invariant of the ledger.

module LedgerSteps {
  import opened Paths
  import opened Metrics
  import opened Worlds
  import opened Ledger

  // ---- opening and closing directories ----

  /** Adding marks above x keeps every mark and every closed or taken entry. */
  lemma CoverageGrows(w: World, b: Book, b': Book, g: Log, busy: set<Path>)
    requires w.Valid() && Met(w, g) && Coverage(w, b, g, busy)
    requires b'.aggregates.Keys == b.aggregates.Keys
    requires b.incomplete.Keys <= b'.incomplete.Keys
    requires b'.unopened == b.unopened
    ensures Coverage(w, b', g, busy)
  {
    forall y | Marked(b, y) ensures Marked(b', y) {
    }
    forall q | q in w.nodes && Consumed(w, g, q) ensures Taken(w, b', g, q) {
      assert Taken(w, b, g, q);
    }
  }

  lemma FaultKeepsSums(b: Book, listed: set<Path>, account: map<Unit, Placed>, x: Path)
    requires Sums(b, listed, account)
    ensures Sums(Faulted(b, x), listed, account)
  {
    var b' := Faulted(b, x);
    forall p | p in b'.aggregates ensures SumsAt(b', listed, account, p) {
      assert SumsAt(b, listed, account, p);
    }
  }

  lemma AboveTransitive(p: Path, q: Path, r: Path)
    requires Above(p, q) && Above(q, r)
    ensures Above(p, r)
  {
  }

  lemma NotedInherited(b: Book, b': Book, x: Path, reason: Reason)
    requires Inherited(b) && b'.aggregates.Keys == b.aggregates.Keys
    requires forall p | p in b.incomplete :: p in b.aggregates
    requires b'.incomplete == Noted(b.aggregates, b.incomplete, x, reason)
    ensures Inherited(b')
  {
    forall p, q | p in b'.incomplete && q in b'.aggregates && Above(q, p)
      ensures q in b'.incomplete && b'.incomplete[p] <= b'.incomplete[q]
    {
      if Above(p, x) {
        AboveTransitive(q, p, x);
      }
    }
  }

  lemma FaultKeepsKeys(depth: nat, b: Book, listed: set<Path>, x: Path)
    requires Keys(depth, b, listed) && [] in listed
    ensures Keys(depth, Faulted(b, x), listed)
    ensures Faulted(b, x).aggregates.Keys == b.aggregates.Keys
    ensures b.incomplete.Keys <= Faulted(b, x).incomplete.Keys
    ensures Marked(Faulted(b, x), x)
  {
    assert [] in b.aggregates && Above([], x);
    assert [] in Faulted(b, x).incomplete;
    NotedInherited(b, Faulted(b, x), x, ScanErrors);
  }

  /** A read error changes nothing but the error counts and the marks above it. */
  lemma FaultKeeps(w: World, depth: nat, b: Book, g: Log, busy: set<Path>, x: Path)
    requires Inv(w, depth, b, g, busy)
    ensures Inv(w, depth, Faulted(b, x), g, busy) && Marked(Faulted(b, x), x)
  {
    var b' := Faulted(b, x);
    FaultKeepsKeys(depth, b, g.listed, x);
    CoverageGrows(w, b, b', g, busy);
    FaultKeepsSums(b, g.listed, g.account, x);
    assert Inodes(w, b'.seenFiles, b'.pendingHardlinks, g);
    assert Queue(b'.unopened, g);
  }

  lemma HeadRemoved(s: seq<Path>)
    requires s != []
    ensures forall d :: d in s <==> d == s[0] || d in s[1..]
  {
  }

  /** The head of the queue leaves it for a reader (`busy`) or because it is closed. */
  lemma HeadLeaves(w: World, b: Book, b': Book, g: Log, busy: set<Path>)
    requires w.Valid() && Met(w, g) && Coverage(w, b, g, busy) && Queue(b.unopened, g) && b.unopened != []
    requires b' == b.(unopened := b.unopened[1..])
    requires Closed(w, b, g, b.unopened[0])
    ensures Coverage(w, b', g, busy) && Queue(b'.unopened, g)
  {
    HeadRemoved(b.unopened);
    forall y ensures Marked(b, y) <==> Marked(b', y) {
    }
    forall q | q in w.nodes && Consumed(w, g, q) ensures Taken(w, b', g, q) {
      assert Taken(w, b, g, q);
    }
  }

  lemma SumsIgnoreQueue(b: Book, queue: seq<Path>, listed: set<Path>, account: map<Unit, Placed>)
    requires Sums(b, listed, account)
    ensures Sums(b.(unopened := queue), listed, account)
  {
    forall p | p in b.aggregates ensures SumsAt(b.(unopened := queue), listed, account, p) {
      assert SumsAt(b, listed, account, p);
    }
  }

  /** The next queued directory is closed without reading: it lies elsewhere, or it is marked. */
  lemma QueueHeadClosed(w: World, depth: nat, b: Book, g: Log, busy: set<Path>)
    requires Inv(w, depth, b, g, busy) && b.unopened != []
    requires Closed(w, b, g, b.unopened[0])
    ensures Inv(w, depth, b.(unopened := b.unopened[1..]), g, busy)
  {
    hide World.Valid, Met, Queue, Coverage, Sums, Inodes, Closed;
    HeadLeaves(w, b, b.(unopened := b.unopened[1..]), g, busy);
    SumsIgnoreQueue(b, b.unopened[1..], g.listed, g.account);
  }

  /** The next queued directory cannot be read. */
  lemma QueueHeadFails(w: World, depth: nat, b: Book, g: Log, busy: set<Path>)
    requires Inv(w, depth, b, g, busy) && b.unopened != []
    ensures Inv(w, depth, Faulted(b.(unopened := b.unopened[1..]), b.unopened[0]), g, busy)
  {
    var d := b.unopened[0];
    FaultKeeps(w, depth, b, g, busy, d);
    QueueHeadClosed(w, depth, Faulted(b, d), g, busy);
    assert Faulted(b, d).(unopened := b.unopened[1..]) == Faulted(b.(unopened := b.unopened[1..]), d);
  }

  lemma OpeningConsumesNothing(w: World, g: Log, d: Path)
    requires w.Valid() && w.IsDir(d) && d !in g.cursor
    ensures forall q {:trigger Consumed(w, g.(cursor := g.cursor[d := 0]), q)} ::
      Consumed(w, g, q) <==> Consumed(w, g.(cursor := g.cursor[d := 0]), q)
  {
  }

  lemma HeadOpens(w: World, b: Book, g: Log, g': Log, busy: set<Path>)
    requires w.Valid() && Met(w, g) && Coverage(w, b, g, busy) && Queue(b.unopened, g) && b.unopened != []
    requires w.Descends(b.unopened[0]) && g' == g.(cursor := g.cursor[b.unopened[0] := 0])
    ensures b.unopened[0] !in busy
    ensures Met(w, g') && Queue(b.unopened[1..], g')
    ensures Coverage(w, b.(unopened := b.unopened[1..]), g', busy + {b.unopened[0]})
  {
    hide World.Valid, Consumed;
    var d := b.unopened[0];
    var b' := b.(unopened := b.unopened[1..]);
    HeadRemoved(b.unopened);
    OpeningConsumesNothing(w, g, d);
    forall y ensures Marked(b, y) <==> Marked(b', y) {
    }
    forall q | q in w.nodes && Consumed(w, g', q) ensures Taken(w, b', g', q) {
      assert Taken(w, b, g, q);
    }
    forall x | x in g'.listed ensures x in b'.unopened || x in busy + {d} || Closed(w, b', g', x) {
      assert x in b.unopened || x in busy || Closed(w, b, g, x);
    }
  }

  lemma InodesIgnoreCursor(w: World, seen: set<Key>, pending: map<Key, PendingHardlink>, g: Log, g': Log)
    requires w.Valid() && Met(w, g) && Inodes(w, seen, pending, g)
    requires g' == g.(cursor := g'.cursor, listed := g'.listed) && Met(w, g')
    ensures Inodes(w, seen, pending, g')
  {
    forall k ensures LinksMet(w, g, k) == LinksMet(w, g', k) {
    }
    forall u | u in g'.account ensures SingleOk(w, g', u) {
      assert SingleOk(w, g, u);
    }
    forall k | k in pending ensures PendingOk(w, g', k, pending[k]) {
      assert PendingOk(w, g, k, pending[k]);
    }
  }

  /** The next queued directory gets a reader. */
  lemma QueueHeadOpened(w: World, depth: nat, b: Book, g: Log, busy: set<Path>)
    requires Inv(w, depth, b, g, busy) && b.unopened != [] && w.Descends(b.unopened[0])
    ensures b.unopened[0] !in busy
    ensures var d := b.unopened[0];
            Inv(w, depth, b.(unopened := b.unopened[1..]), g.(cursor := g.cursor[d := 0]), busy + {d})
  {
    hide Met, Queue, Coverage, Sums, Inodes, World.Valid;
    var d := b.unopened[0];
    var b', g' := b.(unopened := b.unopened[1..]), g.(cursor := g.cursor[d := 0]);
    HeadOpens(w, b, g, g', busy);
    SumsIgnoreQueue(b, b'.unopened, g.listed, g.account);
    InodesIgnoreCursor(w, b.seenFiles, b.pendingHardlinks, g, g');
  }

  lemma DoneCoverage(w: World, b: Book, g: Log, busy: set<Path>, d: Path)
    requires w.Valid() && Met(w, g) && Coverage(w, b, g, busy)
    requires w.IsDir(d) && Closed(w, b, g, d)
    ensures Coverage(w, b, g, busy - {d})
  {
  }

  /** A directory whose entries are all consumed, or whose totals are marked, is closed. */
  lemma ReaderDone(w: World, depth: nat, b: Book, g: Log, busy: set<Path>, d: Path)
    requires Inv(w, depth, b, g, busy) && d in busy
    requires Closed(w, b, g, d)
    ensures Inv(w, depth, b, g, busy - {d})
  {
    DoneCoverage(w, b, g, busy, d);
  }

  /** The reader of a directory fails. */
  lemma ReaderFails(w: World, depth: nat, b: Book, g: Log, busy: set<Path>, d: Path)
    requires Inv(w, depth, b, g, busy) && d in busy
    ensures Inv(w, depth, Faulted(b, d), g, busy - {d})
  {
    FaultKeeps(w, depth, b, g, busy, d);
    ReaderDone(w, depth, Faulted(b, d), g, busy, d);
  }

  // ---- entries ----

  /** The log after one more entry of d is consumed. */
  ghost function Advanced(g: Log, d: Path): Log
    requires d in g.cursor
  {
    g.(cursor := g.cursor[d := g.cursor[d] + 1])
  }

  /** Directory d still has an entry, at path q. */
  ghost predicate NextEntry(w: World, g: Log, d: Path, q: Path)
    requires w.Valid()
  {
    && d in g.cursor
    && w.Descends(d)
    && g.cursor[d] < |w.nodes[d].names|
    && q == d + [w.nodes[d].names[g.cursor[d]]]
  }

  lemma MetCursors(w: World, g: Log)
    requires w.Valid() && Met(w, g)
    ensures g.cursor.Keys <= g.listed
  {
  }

  lemma NextUnmet(w: World, g: Log, d: Path, q: Path)
    requires w.Valid() && Met(w, g) && NextEntry(w, g, d, q)
    ensures q != [] && Parent(q) == d && q in w.nodes && w.Visible(q)
    ensures !Consumed(w, g, q) && q !in g.listed && q !in g.links
  {
    var names, c := w.nodes[d].names, g.cursor[d];
    ParentChild(d, names[c]);
    assert NoDuplicates(names);
    assert names[c] !in names[..c];
  }

  lemma AdvancedConsumes(w: World, g: Log, d: Path, q: Path, x: Path)
    requires w.Valid() && Met(w, g) && NextEntry(w, g, d, q)
    ensures Consumed(w, Advanced(g, d), x) <==> Consumed(w, g, x) || x == q
  {
    hide World.Valid;
    var names, c := w.nodes[d].names, g.cursor[d];
    ParentChild(d, names[c]);
    assert names[..c + 1] == names[..c] + [names[c]];
    if x != [] && Parent(x) == d {
      assert x == d + [Last(x)];
    }
  }

  lemma NextIsNew(w: World, g: Log, d: Path, q: Path)
    requires w.Valid() && Met(w, g) && NextEntry(w, g, d, q)
    ensures q != [] && Parent(q) == d && q in w.nodes && w.Visible(q)
    ensures !Consumed(w, g, q) && q !in g.listed && q !in g.links
    ensures forall x {:trigger Consumed(w, Advanced(g, d), x)} ::
        Consumed(w, Advanced(g, d), x) <==> Consumed(w, g, x) || x == q
  {
    NextUnmet(w, g, d, q);
    hide World.Valid, Met, Consumed, World.Visible;
    forall x ensures Consumed(w, Advanced(g, d), x) <==> Consumed(w, g, x) || x == q {
      AdvancedConsumes(w, g, d, q, x);
    }
  }

  lemma {:induction false} ListedUpward(w: World, g: Log, p: Path, y: Path)
    requires w.Valid() && Met(w, g) && y in g.listed && Above(p, y)
    ensures p in g.listed
    decreases |y|
  {
    if |p| == |y| {
      assert p == y;
    } else {
      assert Consumed(w, g, y);
      PrefixStep(p, y);
      ListedUpward(w, g, p, Parent(y));
    }
  }

  /** No met path lies at or below a directory that has not been met. */
  lemma NothingBelowNew(w: World, g: Log, q: Path)
    requires w.Valid() && Met(w, g) && w.IsDir(q) && q !in g.listed
    ensures forall y | y in g.listed :: !Above(q, y)
    ensures forall f | f in g.links :: !Above(q, f)
  {
    forall y | y in g.listed ensures !Above(q, y) {
      if Above(q, y) {
        ListedUpward(w, g, q, y);
      }
    }
    forall f | f in g.links ensures !Above(q, f) {
      if Above(q, f) {
        assert Consumed(w, g, f);
        PrefixStep(q, f);
        assert false;
      }
    }
  }

  lemma TookDirectoryKeys(depth: nat, b: Book, listed: set<Path>, q: Path)
    requires Keys(depth, b, listed) && q !in listed
    requires forall y | y in listed :: !Above(q, y)
    ensures Keys(depth, TookDirectory(b, q, depth), listed + {q})
    ensures forall p {:trigger p in TookDirectory(b, q, depth).aggregates} ::
      p in TookDirectory(b, q, depth).aggregates <==> p in b.aggregates || (p == q && |q| <= depth)
  {
    var b' := TookDirectory(b, q, depth);
    forall p ensures p in b'.aggregates <==> p in listed + {q} && |p| <= depth {
    }
  }

  lemma TookDirectoryMet(w: World, g: Log, g': Log, d: Path, q: Path)
    requires w.Valid() && Met(w, g) && NextEntry(w, g, d, q) && w.IsDir(q)
    requires g' == Advanced(g, d).(listed := g.listed + {q})
    ensures Met(w, g')
    ensures forall x {:trigger Consumed(w, g', x)} :: Consumed(w, g', x) <==> Consumed(w, g, x) || x == q
  {
    NextIsNew(w, g, d, q);
    forall x ensures Consumed(w, g', x) <==> Consumed(w, Advanced(g, d), x) {
    }
  }

  /** An aggregate for a directory not met before unmarks nothing met before. */
  lemma MarkedKept(b: Book, b': Book, q: Path, y: Path)
    requires b'.incomplete == b.incomplete
    requires forall p | p in b'.aggregates :: p in b.aggregates || p == q
    requires Marked(b, y) && !Above(q, y)
    ensures Marked(b', y)
  {
  }

  lemma TookDirectoryTaken(w: World, b: Book, b': Book, g: Log, g': Log, d: Path, q: Path, x: Path)
    requires w.Valid() && Met(w, g) && NextEntry(w, g, d, q) && w.IsDir(q) && q !in g.listed
    requires b'.incomplete == b.incomplete
    requires forall p | p in b'.aggregates :: p in b.aggregates || p == q
    requires g' == Advanced(g, d).(listed := g.listed + {q})
    requires x in w.nodes && Consumed(w, g, x) && Taken(w, b, g, x)
    ensures Taken(w, b', g', x)
  {
    NothingBelowNew(w, g, q);
    assert Parent(x) in g.listed;
    if Marked(b, Parent(x)) {
      MarkedKept(b, b', q, Parent(x));
    }
  }

  lemma TookDirectoryClosed(w: World, b: Book, b': Book, g: Log, g': Log, busy: set<Path>, d: Path, q: Path, x: Path)
    requires w.Valid() && Met(w, g) && NextEntry(w, g, d, q) && q !in g.listed && d in busy
    requires b'.unopened == b.unopened + [q] && b'.incomplete == b.incomplete
    requires forall p | p in b'.aggregates :: p in b.aggregates || p == q
    requires g' == Advanced(g, d).(listed := g.listed + {q})
    requires x in g.listed && (x in b.unopened || x in busy || Closed(w, b, g, x)) && !Above(q, x)
    ensures x in b'.unopened || x in busy || Closed(w, b', g', x)
  {
    hide Consumed, World.Valid;
    if x in b.unopened {
      var i :| 0 <= i < |b.unopened| && b.unopened[i] == x;
      assert b'.unopened[i] == x;
    } else if Marked(b, x) {
      MarkedKept(b, b', q, x);
    }
  }

  lemma QueueGrows(g: Log, g': Log, unopened: seq<Path>, d: Path, q: Path)
    requires Queue(unopened, g) && q !in g.listed && q !in g.cursor && d in g.cursor
    requires g' == Advanced(g, d).(listed := g.listed + {q})
    ensures Queue(unopened + [q], g')
  {
  }

  lemma TookDirectoryCoverage(w: World, b: Book, b': Book, g: Log, g': Log, busy: set<Path>, d: Path, q: Path)
    requires w.Valid() && Met(w, g) && Coverage(w, b, g, busy)
    requires NextEntry(w, g, d, q) && w.IsDir(q) && d in busy
    requires b'.unopened == b.unopened + [q] && b'.incomplete == b.incomplete
    requires forall p | p in b'.aggregates :: p in b.aggregates || p == q
    requires g' == Advanced(g, d).(listed := g.listed + {q})
    requires Met(w, g')
    ensures Coverage(w, b', g', busy)
  {
    hide World.Valid, Consumed;
    NextIsNew(w, g, d, q);
    TookDirectoryMet(w, g, g', d, q);
    NothingBelowNew(w, g, q);
    forall x | x in w.nodes && Consumed(w, g', x) ensures Taken(w, b', g', x) {
      if x != q {
        assert Taken(w, b, g, x);
        TookDirectoryTaken(w, b, b', g, g', d, q, x);
      }
    }
    forall x | x in g'.listed ensures x in b'.unopened || x in busy || Closed(w, b', g', x) {
      if x != q {
        TookDirectoryClosed(w, b, b', g, g', busy, d, q, x);
      }
    }
    forall f | f in g'.lost ensures Marked(b', f) {
      MarkedKept(b, b', q, f);
    }
  }

  lemma ListedBelowGrows(listed: set<Path>, q: Path, p: Path)
    requires q !in listed
    ensures |ListedBelow(listed + {q}, p)| == |ListedBelow(listed, p)| + (if Above(p, q) then 1 else 0)
  {
    if Above(p, q) {
      assert ListedBelow(listed + {q}, p) == ListedBelow(listed, p) + {q};
    } else {
      assert ListedBelow(listed + {q}, p) == ListedBelow(listed, p);
    }
  }

  lemma ChargeKeepsShown(m: Metrics, total: Metrics, amount: Metrics)
    requires Shows(m, total) && amount == Zero().(directories := amount.directories, duplicates := amount.duplicates)
    ensures Shows(Charge(m, amount), total)
  {
  }

  lemma NewSum(b': Book, listed: set<Path>, account: map<Unit, Placed>, q: Path)
    requires q in b'.aggregates && b'.aggregates[q] == OneDirectory() && q !in b'.incomplete && q !in listed
    requires forall y | y in listed :: !Above(q, y)
    requires forall u | u in account :: !Above(q, account[u].at)
    ensures SumsAt(b', listed + {q}, account, q)
  {
    ListedBelowGrows(listed, q, q);
    assert ListedBelow(listed, q) == {};
    assert Below(account, q) == map[];
  }

  lemma FirstDirectory(q: Path)
    ensures Above(q, q) && Charge(Zero(), OneDirectory()) == OneDirectory()
  {
  }

  lemma TookDirectoryAt(depth: nat, b: Book, q: Path, p: Path)
    requires p in TookDirectory(b, q, depth).aggregates
    ensures p in b.aggregates ==>
      TookDirectory(b, q, depth).aggregates[p] ==
      if Above(p, q) then Charge(b.aggregates[p], OneDirectory()) else b.aggregates[p]
    ensures p !in b.aggregates ==> p == q && TookDirectory(b, q, depth).aggregates[p] == OneDirectory()
  {
    hide Charge, Above;
    FirstDirectory(q);
  }

  lemma TookDirectorySums(depth: nat, b: Book, listed: set<Path>, account: map<Unit, Placed>, q: Path)
    requires Keys(depth, b, listed) && Sums(b, listed, account) && q !in listed
    requires forall y | y in listed :: !Above(q, y)
    requires forall u | u in account :: !Above(q, account[u].at)
    ensures Sums(TookDirectory(b, q, depth), listed + {q}, account)
  {
    var b' := TookDirectory(b, q, depth);
    forall p | p in b'.aggregates ensures SumsAt(b', listed + {q}, account, p) {
      TookDirectoryAt(depth, b, q, p);
      if p in b.aggregates {
        TookDirectorySumAt(b, b', listed, account, q, p);
      } else {
        NewSum(b', listed, account, q);
      }
    }
  }

  lemma TookDirectorySumAt(b: Book, b': Book, listed: set<Path>, account: map<Unit, Placed>, q: Path, p: Path)
    requires p in b.aggregates && SumsAt(b, listed, account, p) && q !in listed
    requires p in b'.aggregates && b'.incomplete == b.incomplete
    requires b'.aggregates[p] == if Above(p, q) then Charge(b.aggregates[p], OneDirectory()) else b.aggregates[p]
    ensures SumsAt(b', listed + {q}, account, p)
  {
    ListedBelowGrows(listed, q, p);
    ChargeKeepsShown(b.aggregates[p], Total(Below(account, p)), OneDirectory());
  }

  lemma NoChargeBelowNew(w: World, seen: set<Key>, pending: map<Key, PendingHardlink>, g: Log, q: Path)
    requires w.Valid() && Met(w, g) && Inodes(w, seen, pending, g) && w.IsDir(q) && q !in g.listed
    ensures forall u | u in g.account :: !Above(q, g.account[u].at)
  {
    forall u | u in g.account ensures !Above(q, g.account[u].at) {
      assert SingleOk(w, g, u);
      NothingBelowNew(w, g, q);
    }
  }

  /** A readable directory entry. */
  lemma EntryDirectory(w: World, depth: nat, b: Book, g: Log, busy: set<Path>, d: Path, q: Path)
    requires Inv(w, depth, b, g, busy) && d in busy && NextEntry(w, g, d, q) && w.IsDir(q)
    ensures Inv(w, depth, TookDirectory(b, q, depth), Advanced(g, d).(listed := g.listed + {q}), busy)
  {
    hide Met, Keys, Queue, Coverage, Sums, Inodes, World.Valid;
    var b' := TookDirectory(b, q, depth);
    var g' := Advanced(g, d).(listed := g.listed + {q});
    NextIsNew(w, g, d, q);
    NothingBelowNew(w, g, q);
    TookDirectoryMet(w, g, g', d, q);
    TookDirectoryKeys(depth, b, g.listed, q);
    TookDirectoryCoverage(w, b, b', g, g', busy, d, q);
    MetCursors(w, g);
    QueueGrows(g, g', b.unopened, d, q);
    NoChargeBelowNew(w, b.seenFiles, b.pendingHardlinks, g, q);
    TookDirectorySums(depth, b, g.listed, g.account, q);
    InodesIgnoreCursor(w, b.seenFiles, b.pendingHardlinks, g, g');
  }

  // ---- the start ----

  function FirstBook(depth: nat): Book {
    TookDirectory(Book([], {}, map[], map[[] := Zero()], map[], true), [], depth)
  }

  ghost function FirstLog(): Log {
    Log({[]}, map[], {}, {}, map[], map[])
  }

  lemma FirstBookIs(depth: nat)
    ensures FirstBook(depth) == Book([[]], {}, map[], map[[] := OneDirectory()], map[], true)
  {
    hide Charge, Zero, OneDirectory, Above;
    var empty := Book([], {}, map[], map[[] := Zero()], map[], true);
    FirstDirectory([]);
    TookDirectoryAt(depth, empty, [], []);
    assert FirstBook(depth).aggregates.Keys == {[]};
    assert FirstBook(depth).aggregates == map[[] := OneDirectory()];
  }

  lemma FirstMet(w: World, depth: nat)
    requires w.Valid()
    ensures Met(w, FirstLog()) && Keys(depth, FirstBook(depth), {[]}) && Queue(FirstBook(depth).unopened, FirstLog())
    ensures Coverage(w, FirstBook(depth), FirstLog(), {}) && Inodes(w, {}, map[], FirstLog())
  {
    FirstBookIs(depth);
    hide FirstBook;
  }

  lemma FirstSums(depth: nat)
    ensures Sums(FirstBook(depth), {[]}, map[])
  {
    FirstBookIs(depth);
    hide FirstBook;
    assert ListedBelow({[]}, []) == {[]};
    assert Below(map[], []) == map[];
  }

  lemma InitialInv(w: World, depth: nat)
    requires w.Valid()
    ensures Inv(w, depth, TookDirectory(Book([], {}, map[], map[[] := Zero()], map[], true), [], depth),
              Log({[]}, map[], {}, {}, map[], map[]), {})
  {
    hide Met, Keys, Queue, Coverage, Inodes, Sums, World.Valid, TookDirectory;
    FirstBookIs(depth);
    FirstMet(w, depth);
    FirstSums(depth);
    assert FirstLog() == Log({[]}, map[], {}, {}, map[], map[]);
  }
}
