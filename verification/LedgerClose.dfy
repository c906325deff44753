// The end of a scan: queued directories are marked when the budget is spent, deferred inodes are
// counted where their observed links lie, and the aggregates are compared with the snapshot.

module LedgerClose {
  import opened Paths
  import opened Metrics
  import opened Worlds
  import opened Ledger
  import opened LedgerSteps
  import opened LedgerFiles

  // ---- an exhausted budget ----

  /** Mark a directory that is still to be read. */
  function CutOff(b: Book, d: Path): Book {
    b.(incomplete := Noted(b.aggregates, b.incomplete, d, EntryBudgetExhausted), complete := false)
  }

  lemma CutOffKeys(depth: nat, b: Book, listed: set<Path>, x: Path)
    requires Keys(depth, b, listed) && [] in listed
    ensures Keys(depth, CutOff(b, x), listed) && Marked(CutOff(b, x), x)
    ensures b.incomplete.Keys <= CutOff(b, x).incomplete.Keys
  {
    assert [] in b.aggregates && Above([], x);
    assert [] in CutOff(b, x).incomplete;
    NotedInherited(b, CutOff(b, x), x, EntryBudgetExhausted);
  }

  lemma CutOffSums(b: Book, listed: set<Path>, account: map<Unit, Placed>, x: Path)
    requires Sums(b, listed, account)
    ensures Sums(CutOff(b, x), listed, account)
  {
    forall p | p in b.aggregates ensures SumsAt(CutOff(b, x), listed, account, p) {
      assert SumsAt(b, listed, account, p);
    }
  }

  lemma CutOffKeeps(w: World, depth: nat, b: Book, g: Log, busy: set<Path>, x: Path)
    requires Inv(w, depth, b, g, busy)
    ensures Inv(w, depth, CutOff(b, x), g, busy) && Marked(CutOff(b, x), x)
  {
    hide World.Valid, Keys, Queue, Coverage, Sums, Inodes;
    CutOffKeys(depth, b, g.listed, x);
    CoverageGrows(w, b, CutOff(b, x), g, busy);
    CutOffSums(b, g.listed, g.account, x);
  }

  lemma QueueHeadCut(w: World, depth: nat, b: Book, g: Log, busy: set<Path>)
    requires Inv(w, depth, b, g, busy) && b.unopened != []
    ensures Inv(w, depth, CutOff(b.(unopened := b.unopened[1..]), b.unopened[0]), g, busy)
  {
    var d := b.unopened[0];
    CutOffKeeps(w, depth, b, g, busy, d);
    QueueHeadClosed(w, depth, CutOff(b, d), g, busy);
    assert CutOff(b, d).(unopened := b.unopened[1..]) == CutOff(b.(unopened := b.unopened[1..]), d);
  }

  lemma ReaderCut(w: World, depth: nat, b: Book, g: Log, busy: set<Path>, d: Path)
    requires Inv(w, depth, b, g, busy) && d in busy
    ensures Inv(w, depth, CutOff(b, d), g, busy - {d})
  {
    CutOffKeeps(w, depth, b, g, busy, d);
    ReaderDone(w, depth, CutOff(b, d), g, busy, d);
  }

  // ---- deferred inodes ----

  predicate Whole(link: PendingHardlink) {
    link.observedLinks >= link.expectedLinks
  }

  function LinkPlaced(link: PendingHardlink): Placed {
    Placed(link.commonParent, Weigh(link.measure, Whole(link)))
  }

  ghost predicate MarkedUnresolved(b: Book, path: Path) {
    forall p | p in b.aggregates && Above(p, path) ::
      p in b.incomplete && UnresolvedHardlinkAttribution in b.incomplete[p]
  }

  /** Marks only grow, and nothing is marked while the scan counts as complete. */
  ghost predicate MarksFollow(b0: Book, b: Book) {
    && b.aggregates.Keys == b0.aggregates.Keys
    && b.complete == b0.complete
    && (forall p | p in b0.incomplete :: p in b.incomplete && b0.incomplete[p] <= b.incomplete[p])
    && (forall p | p in b.incomplete :: p in b.aggregates && b.incomplete[p] != {})
    && (b.complete ==> b.incomplete == map[])
    && (forall p :: HasErrorMark(b, p) <==> HasErrorMark(b0, p))
    && Inherited(b)
  }

  /** The charges made are those of the scan and those of the inodes no longer deferred. */
  ghost predicate LinksPlaced(b0: Book, b: Book, g: Log, account: map<Unit, Placed>) {
    && b.pendingHardlinks.Keys <= b0.pendingHardlinks.Keys
    && (forall k | k in b.pendingHardlinks :: b.pendingHardlinks[k] == b0.pendingHardlinks[k])
    && (forall u: Unit | u.Single? :: u in account <==> u in g.account)
    && (forall u | u in g.account :: u in account && account[u] == g.account[u])
    && (forall k :: Linked(k) in account <==> k in b0.pendingHardlinks && k !in b.pendingHardlinks)
    && (forall k | Linked(k) in account :: account[Linked(k)] == LinkPlaced(b0.pendingHardlinks[k]))
    && (forall k | Linked(k) in account && !b0.complete && !Whole(b0.pendingHardlinks[k]) ::
          MarkedUnresolved(b, b0.pendingHardlinks[k].commonParent))
  }

  ghost predicate Settling(b0: Book, b: Book, g: Log, account: map<Unit, Placed>) {
    && MarksFollow(b0, b)
    && LinksPlaced(b0, b, g, account)
    && Sums(b, g.listed, account)
  }

  lemma SettlingStarts(w: World, depth: nat, b0: Book, g: Log, busy: set<Path>)
    requires Inv(w, depth, b0, g, busy)
    ensures Settling(b0, b0, g, g.account)
  {
    hide World.Valid, Met, Queue, Coverage, Sums;
    forall u | u in g.account ensures u.Single? {
      assert SingleOk(w, g, u);
    }
  }

  lemma SettleMarks(b0: Book, b: Book, k: Key)
    requires MarksFollow(b0, b) && k in b.pendingHardlinks
    ensures MarksFollow(b0, Settle(b, k))
    ensures !b.complete && !Whole(b.pendingHardlinks[k]) ==>
              MarkedUnresolved(Settle(b, k), b.pendingHardlinks[k].commonParent)
    ensures forall x | MarkedUnresolved(b, x) :: MarkedUnresolved(Settle(b, k), x)
    ensures forall p :: HasErrorMark(b, p) <==> HasErrorMark(Settle(b, k), p)
  {
    hide Charge, Weigh, Inherited, Noted, Charged;
    var cp := b.pendingHardlinks[k].commonParent;
    ChargedKeys(b, Settle(b, k), cp, Weigh(b.pendingHardlinks[k].measure, Whole(b.pendingHardlinks[k])));
    if !b.complete && !Whole(b.pendingHardlinks[k]) {
      NotedMarks(b, Settle(b, k), cp);
    }
  }

  lemma ChargedKeys(b: Book, b': Book, cp: Path, amount: Metrics)
    requires b'.aggregates == Charged(b.aggregates, cp, amount)
    ensures b'.aggregates.Keys == b.aggregates.Keys
    ensures b'.incomplete == b.incomplete && Inherited(b) ==> Inherited(b')
  {
  }

  /** An unresolved attribution is noted everywhere above, and nothing else changes. */
  lemma NotedMarks(b: Book, b': Book, cp: Path)
    requires b'.incomplete == Noted(b.aggregates, b.incomplete, cp, UnresolvedHardlinkAttribution)
    requires b'.aggregates.Keys == b.aggregates.Keys && Inherited(b)
    requires forall p | p in b.incomplete :: p in b.aggregates && b.incomplete[p] != {}
    ensures Inherited(b') && MarkedUnresolved(b', cp)
    ensures forall p | p in b.incomplete :: p in b'.incomplete && b.incomplete[p] <= b'.incomplete[p]
    ensures forall p | p in b'.incomplete :: p in b'.aggregates && b'.incomplete[p] != {}
    ensures forall p :: HasErrorMark(b', p) <==> HasErrorMark(b, p)
  {
    NotedInherited(b, b', cp, UnresolvedHardlinkAttribution);
  }

  lemma SettleLinks(b0: Book, b: Book, g: Log, account: map<Unit, Placed>, k: Key)
    requires LinksPlaced(b0, b, g, account) && k in b.pendingHardlinks && b.complete == b0.complete
    requires !b.complete && !Whole(b.pendingHardlinks[k]) ==>
              MarkedUnresolved(Settle(b, k), b.pendingHardlinks[k].commonParent)
    requires forall x | MarkedUnresolved(b, x) :: MarkedUnresolved(Settle(b, k), x)
    ensures Linked(k) !in account
    ensures LinksPlaced(b0, Settle(b, k), g, account[Linked(k) := LinkPlaced(b.pendingHardlinks[k])])
  {
    hide MarkedUnresolved, Charged, Noted, LinkPlaced;
  }

  /** One deferred inode is counted. */
  lemma SettleStep(b0: Book, b: Book, g: Log, account: map<Unit, Placed>, k: Key)
    requires Settling(b0, b, g, account) && k in b.pendingHardlinks
    ensures Settling(b0, Settle(b, k), g, account[Linked(k) := LinkPlaced(b.pendingHardlinks[k])])
  {
    hide MarksFollow, LinksPlaced, Sums, MarkedUnresolved, HasErrorMark, Charged, Noted;
    SettleMarks(b0, b, k);
    SameVerdict(b0, b);
    SettleLinks(b0, b, g, account, k);
    var link := b.pendingHardlinks[k];
    ChargedSums(b, Settle(b, k), g.listed, account, Linked(k), link.commonParent, Weigh(link.measure, Whole(link)));
  }

  lemma SameVerdict(b0: Book, b: Book)
    requires MarksFollow(b0, b)
    ensures b.complete == b0.complete && b.aggregates.Keys == b0.aggregates.Keys
  {
  }
}
