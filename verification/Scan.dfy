// The scan of one root: two queues of directories, a bounded number of open readers, fair budget
// slices, and online aggregates. Every possible failure of the file system is a free choice here.

module Scan {
  import opened Wrappers
  import opened Saturating
  import opened Paths
  import opened Metrics
  import opened Worlds
  import opened Readers
  import opened Ledger
  import opened LedgerSteps
  import opened LedgerFiles
  import opened LedgerClose
  import opened Agreement

  /** The cap on open readers that the program uses. */
  const MAX_OPEN_DIRECTORY_READERS: nat := 64

  // ---- updates along the ancestors of a path ----

  /** The aggregates at or above a path, deepest first. */
  method AggregateKeys(aggregates: map<Path, Metrics>, path: Path) returns (keys: seq<Path>)
    ensures forall p :: p in keys <==> p in aggregates && Above(p, path)
    ensures forall i, j | 0 <= i < j < |keys| :: |keys[i]| > |keys[j]|
  {
    keys := [];
    var length := |path| + 1;
    while length > 0
      invariant 0 <= length <= |path| + 1
      invariant forall p :: p in keys <==> p in aggregates && Above(p, path) && |p| >= length
      invariant forall i, j | 0 <= i < j < |keys| :: |keys[i]| > |keys[j]|
    {
      length := length - 1;
      var ancestor := path[..length];
      assert forall p | Above(p, path) && |p| == length :: p == ancestor;
      if ancestor in aggregates {
        assert forall i | 0 <= i < |keys| :: keys[i] in keys;
        keys := keys + [ancestor];
      }
    }
  }

  /** Add an amount to every aggregate at or above a path. */
  method AddAmount(aggregates: map<Path, Metrics>, path: Path, amount: Metrics) returns (result: map<Path, Metrics>)
    ensures result == Charged(aggregates, path, amount)
  {
    hide Charge;
    var keys := AggregateKeys(aggregates, path);
    result := aggregates;
    ghost var done: set<Path> := {};
    for i := 0 to |keys|
      invariant result.Keys == aggregates.Keys
      invariant forall p :: p in done <==> exists j :: 0 <= j < i && keys[j] == p
      invariant forall p | p in aggregates ::
          result[p] == if p in done then Charge(aggregates[p], amount) else aggregates[p]
    {
      assert keys[i] in keys && keys[i] !in done;
      result := result[keys[i] := Charge(result[keys[i]], amount)];
      done := done + {keys[i]};
    }
    assert forall p :: p in done <==> p in keys;
  }

  function WithReason(incomplete: map<Path, set<Reason>>, p: Path, reason: Reason): set<Reason> {
    (if p in incomplete then incomplete[p] else {}) + {reason}
  }

  /** Note a reason at every aggregate at or above a path. */
  method MarkTraversalIncomplete(
    aggregates: map<Path, Metrics>, incomplete: map<Path, set<Reason>>, path: Path, reason: Reason)
    returns (result: map<Path, set<Reason>>)
    ensures result == Noted(aggregates, incomplete, path, reason)
  {
    hide WithReason, Above, Noted;
    var keys := AggregateKeys(aggregates, path);
    result := incomplete;
    ghost var done: set<Path> := {};
    for i := 0 to |keys|
      invariant result.Keys == incomplete.Keys + done
      invariant forall p :: p in done <==> exists j :: 0 <= j < i && keys[j] == p
      invariant forall p | p in done :: result[p] == WithReason(incomplete, p, reason)
      invariant forall p | p in incomplete && p !in done :: result[p] == incomplete[p]
    {
      assert keys[i] !in done;
      SameReason(incomplete, result, keys[i], reason);
      result := result[keys[i] := WithReason(result, keys[i], reason)];
      done := done + {keys[i]};
    }
    assert forall p :: p in done <==> p in keys;
    AsNoted(aggregates, incomplete, path, reason, result, done);
  }

  lemma SameReason(m: map<Path, set<Reason>>, n: map<Path, set<Reason>>, p: Path, reason: Reason)
    requires (p in m <==> p in n) && (p in m ==> m[p] == n[p])
    ensures WithReason(m, p, reason) == WithReason(n, p, reason)
  {
  }

  lemma AsNoted(
    aggregates: map<Path, Metrics>, incomplete: map<Path, set<Reason>>, path: Path, reason: Reason,
    result: map<Path, set<Reason>>, done: set<Path>)
    requires forall p :: p in done <==> p in aggregates && Above(p, path)
    requires result.Keys == incomplete.Keys + done
    requires forall p | p in done :: result[p] == WithReason(incomplete, p, reason)
    requires forall p | p in incomplete && p !in done :: result[p] == incomplete[p]
    ensures result == Noted(aggregates, incomplete, path, reason)
  {
    hide Above;
    var noted := Noted(aggregates, incomplete, path, reason);
    forall p ensures p in result <==> p in noted {
    }
    forall p | p in result ensures result[p] == noted[p] {
    }
  }

  method NarrowCommonParent(common: Path, path: Path) returns (result: Path)
    ensures result == Narrowed(common, path)
  {
    result := common;
    while !Above(result, path)
      invariant Narrowed(result, path) == Narrowed(common, path)
      decreases |result|
    {
      if result == [] {
        break;
      }
      result := Parent(result);
    }
  }

  // ---- one entry ----

  /** A read error at a path. */
  method RecordFault(b: Book, path: Path) returns (b': Book)
    ensures b' == Faulted(b, path)
  {
    var aggregates := AddAmount(b.aggregates, path, OneError());
    var incomplete := MarkTraversalIncomplete(b.aggregates, b.incomplete, path, ScanErrors);
    b' := b.(aggregates := aggregates, incomplete := incomplete, complete := false);
  }

  method TakeDirectory(b: Book, path: Path, depth: nat) returns (b': Book)
    ensures b' == TookDirectory(b, path, depth)
  {
    var aggregates := b.aggregates;
    if |path| <= depth && path !in aggregates {
      aggregates := aggregates[path := Zero()];
    }
    aggregates := AddAmount(aggregates, path, OneDirectory());
    b' := b.(aggregates := aggregates, unopened := b.unopened + [path]);
  }

  method TakeFile(b: Book, path: Path, key: Option<Key>, linkCount: nat, measure: Option<Measure>) returns (b': Book)
    requires path != []
    ensures b' == TookFile(b, path, key, linkCount, measure)
  {
    b' := b;
    var duplicate := key.Some? && key.value in b.seenFiles;
    if key.Some? {
      b' := b'.(seenFiles := b'.seenFiles + {key.value});
    }
    if duplicate {
      assert b'.seenFiles == b.seenFiles;
      var aggregates := AddAmount(b'.aggregates, path, OneDuplicate());
      b' := b'.(aggregates := aggregates);
      if key.value in b'.pendingHardlinks {
        var link := b'.pendingHardlinks[key.value];
        var commonParent := NarrowCommonParent(link.commonParent, path);
        link := link.(observedLinks := link.observedLinks + 1, commonParent := commonParent);
        b' := b'.(pendingHardlinks := b'.pendingHardlinks[key.value := link]);
      }
    } else if measure.Some? {
      if linkCount > 1 && key.Some? {
        var link := PendingHardlink(linkCount, 1, Parent(path), measure.value);
        b' := b'.(pendingHardlinks := b'.pendingHardlinks[key.value := link]);
      } else {
        var aggregates := AddAmount(b'.aggregates, path, Weigh(measure.value, linkCount <= 1));
        b' := b'.(aggregates := aggregates);
      }
    } else {
      b' := RecordFault(b', path);
    }
  }

  /** Every mark so far stems from an error, and there is none unless errors can happen. */
  ghost predicate OnlyErrors(b: Book, mayFail: bool) {
    && (forall p | p in b.incomplete :: b.incomplete[p] == {ScanErrors})
    && (b.complete || mayFail)
  }

  /** Entries consumed so far. */
  ghost function ConsumedEntries(w: World, g: Log): set<Path>
    requires w.Valid()
  {
    set q | q in w.nodes && Consumed(w, g, q)
  }

  lemma QueueIsNoMark(b: Book, unopened: seq<Path>, mayFail: bool)
    requires OnlyErrors(b, mayFail)
    ensures OnlyErrors(b.(unopened := unopened), mayFail)
  {
  }

  lemma FaultIsError(b: Book, path: Path, mayFail: bool)
    requires OnlyErrors(b, mayFail) && mayFail
    ensures OnlyErrors(Faulted(b, path), mayFail)
  {
  }

  lemma TakenIsNoMark(w: World, b: Book, q: Path, depth: nat, available: bool, mayFail: bool)
    requires OnlyErrors(b, mayFail) && w.Valid() && (available || mayFail)
    ensures OnlyErrors(TookDirectory(b, q, depth), mayFail)
    ensures w.IsFile(q) && q != [] ==> OnlyErrors(FileBook(w, b, q, available), mayFail)
  {
    hide World.Valid, World.KeyOf;
    if w.IsFile(q) && q != [] {
      var b1 := b.(seenFiles := SeenWith(w, b, q));
      assert OnlyErrors(b1, mayFail);
      if mayFail { FaultIsError(b1, q, mayFail); }
    }
  }

  lemma OneMoreConsumed(w: World, g: Log, g': Log, d: Path, q: Path)
    requires w.Valid() && Met(w, g) && NextEntry(w, g, d, q)
    requires g'.cursor == g.cursor[d := g.cursor[d] + 1]
    ensures |ConsumedEntries(w, g')| == |ConsumedEntries(w, g)| + 1
  {
    NextIsNew(w, g, d, q);
    forall x ensures Consumed(w, g', x) <==> Consumed(w, Advanced(g, d), x) {
    }
    assert ConsumedEntries(w, g') == ConsumedEntries(w, g) + {q};
  }

  lemma OpenedConsumedSame(w: World, g: Log, d: Path)
    requires w.Valid() && w.IsDir(d) && d !in g.cursor
    ensures ConsumedEntries(w, g.(cursor := g.cursor[d := 0])) == ConsumedEntries(w, g)
  {
    OpeningConsumesNothing(w, g, d);
  }

  lemma ConsumedBound(w: World, g: Log)
    requires w.Valid() && Met(w, g)
    ensures ConsumedEntries(w, g) <= w.Entries()
    ensures |ConsumedEntries(w, g)| <= |w.Entries()|
  {
    forall q | q in ConsumedEntries(w, g) ensures w.Visible(q) {
      MetIsDir(w, g, Parent(q));
    }
    SubsetSize(ConsumedEntries(w, g), w.Entries());
  }

  /** A complete scan has read, and charged, every entry there is. */
  lemma CompleteConsumed(w: World, depth: nat, b0: Book, g: Log)
    requires Inv(w, depth, b0, g, {}) && b0.unopened == [] && b0.complete
    ensures w.Valid() && ConsumedEntries(w, g) == w.Entries()
  {
    hide World.Valid, Inv, Coverage, Consumed;
    InvValid(w, depth, b0, g);
    CoverageOf(w, depth, b0, g);
    ConsumedBound(w, g);
    UnmarkedRoot(w, depth, b0, g);
    forall q | q in w.Entries() ensures Consumed(w, g, q) {
      VisibleParent(w, q);
      assert Above([], Parent(q));
      SeenBelow(w, b0, g, [], Parent(q));
      AllConsumed(w, b0, g, q);
    }
  }

  lemma CoverageOf(w: World, depth: nat, b0: Book, g: Log)
    requires Inv(w, depth, b0, g, {})
    ensures w.Valid() && Met(w, g) && Coverage(w, b0, g, {}) && [] in g.listed
  {
  }

  // ---- open readers ----

  datatype PendingDirectory = PendingDirectory(path: Path, reader: DirectoryReader)

  ghost function ReaderSet(open: seq<PendingDirectory>): set<DirectoryReader> {
    set i | 0 <= i < |open| :: open[i].reader
  }

  predicate Alike(open: seq<PendingDirectory>, mayFail: bool) {
    forall i | 0 <= i < |open| :: open[i].reader.mayFail == mayFail
  }

  ghost function Busy(open: seq<PendingDirectory>): set<Path> {
    set i | 0 <= i < |open| :: open[i].path
  }

  /** A reader has yielded exactly the entries its directory's log shows as consumed. */
  ghost predicate InStep(w: World, cursor: map<Path, nat>, p: PendingDirectory)
    reads p.reader
  {
    && p.reader.Valid()
    && w.IsDir(p.path)
    && p.reader.listing == w.nodes[p.path].names
    && p.path in cursor
    && p.reader.taken == cursor[p.path]
  }

  ghost predicate OpenReaders(w: World, cursor: map<Path, nat>, open: seq<PendingDirectory>)
    reads set i | 0 <= i < |open| :: open[i].reader
  {
    && (forall i | 0 <= i < |open| :: InStep(w, cursor, open[i]))
    && (forall i, j | 0 <= i < j < |open| :: open[i].path != open[j].path && open[i].reader != open[j].reader)
  }

  /** The directory's reader has not begun, or has stopped before the end of the listing. */
  ghost predicate UnfinishedAt(w: World, cursor: map<Path, nat>, d: Path) {
    w.IsDir(d) && d in cursor && (cursor[d] == 0 || cursor[d] < |w.nodes[d].names|)
  }

  ghost predicate Unfinished(w: World, cursor: map<Path, nat>, open: seq<PendingDirectory>) {
    forall i | 0 <= i < |open| :: UnfinishedAt(w, cursor, open[i].path)
  }

  /** Visible directories with nothing to read: empty, or on another file system. */
  ghost function Idle(w: World): set<Path>
    requires w.Valid()
  {
    set d | d in w.Directories() && !(w.Descends(d) && w.nodes[d].names != [])
  }

  /** Every entry is a directory. */
  ghost predicate OnlyDirectories(w: World)
    requires w.Valid()
  {
    forall q | q in w.Entries() :: w.IsDir(q)
  }

  lemma NextIsDirectory(w: World, g: Log, d: Path, q: Path)
    requires w.Valid() && Met(w, g) && NextEntry(w, g, d, q) && OnlyDirectories(w)
    ensures w.IsDir(q)
  {
    hide World.Valid, Met;
    NextIsNew(w, g, d, q);
    assert q in w.Entries();
  }

  lemma UnfinishedJoins(w: World, cursor: map<Path, nat>, open: seq<PendingDirectory>, p: PendingDirectory)
    requires Unfinished(w, cursor, open) && w.IsDir(p.path)
    ensures Unfinished(w, cursor[p.path := 0], open + [p])
  {
    forall i | 0 <= i < |open + [p]| ensures UnfinishedAt(w, cursor[p.path := 0], (open + [p])[i].path) {
      assert i < |open| ==> UnfinishedAt(w, cursor, open[i].path);
    }
  }

  lemma UnfinishedOthers(w: World, cursor: map<Path, nat>, open: seq<PendingDirectory>, d: Path, n: nat)
    requires open != [] && Unfinished(w, cursor, open) && open[0].path == d
    requires forall j | 1 <= j < |open| :: open[j].path != d
    ensures Unfinished(w, cursor[d := n], open[1..])
  {
    forall i | 0 <= i < |open[1..]| ensures UnfinishedAt(w, cursor[d := n], open[1..][i].path) {
      assert UnfinishedAt(w, cursor, open[i + 1].path);
    }
  }

  lemma UnfinishedBack(w: World, cursor: map<Path, nat>, open: seq<PendingDirectory>, p: PendingDirectory)
    requires Unfinished(w, cursor, open) && UnfinishedAt(w, cursor, p.path)
    ensures Unfinished(w, cursor, open + [p])
  {
  }

  /** A directory with entries left keeps the scan from having consumed them all. */
  lemma EntryLeft(w: World, g: Log, d: Path, q: Path)
    requires w.Valid() && Met(w, g) && d in w.Directories() && w.Descends(d) && w.nodes[d].names != []
    requires d in g.cursor ==> UnfinishedAt(w, g.cursor, d)
    requires q == d + [w.nodes[d].names[if d in g.cursor then g.cursor[d] else 0]]
    ensures q in w.Entries() && !Consumed(w, g, q)
  {
    var names, c := w.nodes[d].names, if d in g.cursor then g.cursor[d] else 0;
    ParentChild(d, names[c]);
    assert NoDuplicates(names);
    assert names[c] !in names[..c];
  }

  /** Everything queued or open. */
  ghost function Pending(b: Book, open: seq<PendingDirectory>): (paths: seq<Path>)
    ensures |paths| == |b.unopened| + |open|
  {
    b.unopened + seq(|open|, i requires 0 <= i < |open| => open[i].path)
  }

  lemma PendingDistinct(w: World, depth: nat, b: Book, open: seq<PendingDirectory>, g: Log)
    requires Inv(w, depth, b, g, Busy(open)) && OpenReaders(w, g.cursor, open)
    ensures forall i, j | 0 <= i < j < |Pending(b, open)| :: Pending(b, open)[i] != Pending(b, open)[j]
    ensures forall i | 0 <= i < |open| :: open[i].path in g.cursor
  {
    hide World.Valid, Met, Keys, Coverage, Sums, Inodes;
    assert forall i | 0 <= i < |open| :: InStep(w, g.cursor, open[i]);
  }

  lemma {:induction false} DistinctCount(paths: seq<Path>, within: set<Path>)
    requires forall i, j | 0 <= i < j < |paths| :: paths[i] != paths[j]
    requires forall p | p in paths :: p in within
    ensures |paths| <= |within|
  {
    if paths != [] {
      var last := paths[|paths| - 1];
      assert last in within;
      forall p | p in paths[..|paths| - 1] ensures p in within - {last} {
        assert p in paths;
      }
      DistinctCount(paths[..|paths| - 1], within - {last});
    }
  }

  /** When every entry is consumed, only idle directories can be queued or open. */
  lemma PendingAreIdle(w: World, depth: nat, b: Book, open: seq<PendingDirectory>, g: Log, d: Path)
    requires Inv(w, depth, b, g, Busy(open)) && Unfinished(w, g.cursor, open) && d in Pending(b, open)
    requires w.Valid() && ConsumedEntries(w, g) == w.Entries() && (d in b.unopened ==> d !in g.cursor)
    ensures d in Idle(w)
  {
    hide World.Valid, Inv, Met, Consumed, NextEntry;
    InvShape(w, depth, b, g, Busy(open));
    if d !in b.unopened {
      var i :| 0 <= i < |open| && open[i].path == d;
      assert UnfinishedAt(w, g.cursor, d);
    }
    ListedIsDirectory(w, depth, b, g, Busy(open), d);
    if d !in Idle(w) {
      EntryLeft(w, g, d, d + [w.nodes[d].names[if d in g.cursor then g.cursor[d] else 0]]);
      assert false;
    }
  }

  lemma QueuedUnopened(w: World, depth: nat, b: Book, g: Log, busy: set<Path>)
    requires Inv(w, depth, b, g, busy)
    ensures forall d | d in b.unopened :: d !in g.cursor
  {
    hide World.Valid, Met, Keys, Coverage, Sums, Inodes;
  }

  /** There are no more of them than idle directories. */
  lemma PendingBound(w: World, depth: nat, b: Book, open: seq<PendingDirectory>, g: Log)
    requires Inv(w, depth, b, g, Busy(open)) && Unfinished(w, g.cursor, open) && OpenReaders(w, g.cursor, open)
    requires w.Valid() && |ConsumedEntries(w, g)| == |w.Entries()|
    ensures |b.unopened| + |open| <= |Idle(w)|
  {
    hide World.Valid, Inv, Met, ConsumedEntries, OpenReaders, Unfinished, Idle;
    InvShape(w, depth, b, g, Busy(open));
    ConsumedBound(w, g);
    SubsetSize(ConsumedEntries(w, g), w.Entries());
    QueuedUnopened(w, depth, b, g, Busy(open));
    PendingDistinct(w, depth, b, open, g);
    forall d | d in Pending(b, open) ensures d in Idle(w) {
      PendingAreIdle(w, depth, b, open, g, d);
    }
    DistinctCount(Pending(b, open), Idle(w));
  }

  lemma ListedIsDirectory(w: World, depth: nat, b: Book, g: Log, busy: set<Path>, d: Path)
    requires Inv(w, depth, b, g, busy) && (d in b.unopened || d in g.cursor)
    ensures w.Valid() && d in w.Directories()
  {
    hide World.Valid, Coverage, Sums, Inodes;
    assert d in g.listed;
  }

  /**
   * Fill the free reader slots from the queue. A directory is dropped with an error when it cannot
   * be inspected, is no directory any more or cannot be opened, and silently when it lies on
   * another file system.
   */
  method FillReaders(w: World, depth: nat, b: Book, open: seq<PendingDirectory>, slots: nat, mayFail: bool,
      ghost g: Log)
    returns (b': Book, open': seq<PendingDirectory>, ghost g': Log)
    requires w.Valid() && Inv(w, depth, b, g, Busy(open)) && OpenReaders(w, g.cursor, open)
    requires |open| <= slots && Alike(open, mayFail)
    ensures Inv(w, depth, b', g', Busy(open')) && OpenReaders(w, g'.cursor, open')
    ensures Unfinished(w, g.cursor, open) ==> Unfinished(w, g'.cursor, open')
    ensures |open| <= |open'| <= slots && Alike(open', mayFail)
    ensures |b'.unopened| + |open'| <= |b.unopened| + |open|
    ensures |open'| < slots ==> b'.unopened == []
    ensures (OnlyErrors(b, mayFail) ==> OnlyErrors(b', mayFail)) && ConsumedEntries(w, g') == ConsumedEntries(w, g)
    ensures forall i | 0 <= i < |open'| :: open'[i] in open || fresh(open'[i].reader)
  {
    hide Inv, OpenReaders, Unfinished, Busy, OnlyErrors, ConsumedEntries;
    b', open', g' := b, open, g;
    while |open'| < slots && b'.unopened != []
      invariant (OnlyErrors(b, mayFail) ==> OnlyErrors(b', mayFail)) && ConsumedEntries(w, g') == ConsumedEntries(w, g)
      invariant Inv(w, depth, b', g', Busy(open')) && OpenReaders(w, g'.cursor, open')
      invariant |open| <= |open'| <= slots && Alike(open', mayFail)
      invariant |b'.unopened| + |open'| <= |b.unopened| + |open|
      invariant Unfinished(w, g.cursor, open) ==> Unfinished(w, g'.cursor, open')
      invariant forall i | 0 <= i < |open'| :: open'[i] in open || fresh(open'[i].reader)
      decreases |b'.unopened|
    {
      b', open', g' := OpenNext(w, depth, b', open', mayFail, g');
    }
  }

  lemma HeadIsDir(w: World, depth: nat, b: Book, g: Log, busy: set<Path>)
    requires Inv(w, depth, b, g, busy) && b.unopened != []
    ensures w.Valid() && w.IsDir(b.unopened[0]) && w.IsDir([]) && b.unopened[0] !in g.cursor
  {
    hide Coverage, Sums, Inodes;
    assert b.unopened[0] in g.listed;
  }

  lemma BusyGrows(open: seq<PendingDirectory>, p: PendingDirectory)
    ensures Busy(open + [p]) == Busy(open) + {p.path}
  {
    assert forall i | 0 <= i < |open| :: (open + [p])[i] == open[i];
    assert (open + [p])[|open|] == p;
  }

  /** Another reader joins. */
  lemma ReaderJoins(w: World, cursor: map<Path, nat>, open: seq<PendingDirectory>, p: PendingDirectory)
    requires OpenReaders(w, cursor, open) && p.path !in Busy(open) && p.reader !in ReaderSet(open)
    requires InStep(w, cursor[p.path := 0], p)
    ensures OpenReaders(w, cursor[p.path := 0], open + [p])
  {
    forall i | 0 <= i < |open| ensures InStep(w, cursor[p.path := 0], open[i]) {
      assert open[i].path in Busy(open);
    }
    forall i, j | 0 <= i < j < |open + [p]|
      ensures (open + [p])[i].path != (open + [p])[j].path && (open + [p])[i].reader != (open + [p])[j].reader
    {
      assert open[i].path in Busy(open) && open[i].reader in ReaderSet(open);
    }
  }

  method OpenNext(w: World, depth: nat, b: Book, open: seq<PendingDirectory>, mayFail: bool, ghost g: Log)
    returns (b': Book, open': seq<PendingDirectory>, ghost g': Log)
    requires Inv(w, depth, b, g, Busy(open)) && OpenReaders(w, g.cursor, open) && b.unopened != []
    requires Alike(open, mayFail)
    ensures Inv(w, depth, b', g', Busy(open')) && OpenReaders(w, g'.cursor, open')
    ensures |open| <= |open'| <= |open| + 1 && Alike(open', mayFail)
    ensures |b'.unopened| == |b.unopened| - 1
    ensures (OnlyErrors(b, mayFail) ==> OnlyErrors(b', mayFail)) && ConsumedEntries(w, g') == ConsumedEntries(w, g)
    ensures |b'.unopened| + |open'| <= |b.unopened| + |open|
    ensures Unfinished(w, g.cursor, open) ==> Unfinished(w, g'.cursor, open')
    ensures forall i | 0 <= i < |open'| :: open'[i] in open || fresh(open'[i].reader)
  {
    hide Inv, World.Valid, Faulted, ConsumedEntries, OnlyErrors, OpenReaders, Unfinished, Busy;
    HeadIsDir(w, depth, b, g, Busy(open));
    InvShape(w, depth, b, g, Busy(open));
    var d := b.unopened[0];
    b', open', g' := b.(unopened := b.unopened[1..]), open, g;
    FaultedQueue(b', d);
    if OnlyErrors(b, mayFail) {
      QueueIsNoMark(b, b.unopened[1..], mayFail);
      if mayFail { FaultIsError(b', d, mayFail); }
    }
    var missing: bool, unreadable: bool := *, *;
    if mayFail && missing {
      QueueHeadFails(w, depth, b, g, Busy(open));
      b' := RecordFault(b', d);
    } else if w.oneFilesystem && w.nodes[d].device != w.nodes[[]].device {
      QueueHeadClosed(w, depth, b, g, Busy(open));
    } else if mayFail && unreadable {
      QueueHeadFails(w, depth, b, g, Busy(open));
      b' := RecordFault(b', d);
    } else {
      QueueHeadOpened(w, depth, b, g, Busy(open));
      OpenedConsumedSame(w, g, d);
      var backend: Backend := *;
      var reader := new DirectoryReader(w.nodes[d].names, backend, mayFail);
      var p := PendingDirectory(d, reader);
      BusyGrows(open, p);
      ReaderJoins(w, g.cursor, open, p);
      if Unfinished(w, g.cursor, open) { UnfinishedJoins(w, g.cursor, open, p); }
      open' := open + [p];
      g' := g.(cursor := g.cursor[d := 0]);
    }
  }

  lemma FaultedQueue(b: Book, path: Path)
    ensures Faulted(b, path).unopened == b.unopened && !Faulted(b, path).complete
  {
  }

  lemma DirectoryQueued(b: Book, path: Path, depth: nat)
    ensures TookDirectory(b, path, depth).unopened == b.unopened + [path]
  {
  }

  // ---- one slice of one directory ----

  /** One yielded entry: `inspected` is false when it came as an error. */
  method TakeEntry(
    w: World, depth: nat, b: Book, d: Path, q: Path, inspected: bool, mayFail: bool, ghost g: Log,
    ghost busy: set<Path>)
    returns (b': Book, ghost g': Log)
    requires w.Valid() && Inv(w, depth, b, g, busy) && d in busy && NextEntry(w, g, d, q) && (inspected || mayFail)
    ensures d in g.cursor && g'.cursor == g.cursor[d := g.cursor[d] + 1]
    ensures Inv(w, depth, b', g', busy)
    ensures w.IsDir(q) ==> b'.unopened != [] || !b'.complete
    ensures OnlyErrors(b, mayFail) ==> OnlyErrors(b', mayFail)
    ensures |ConsumedEntries(w, g')| == |ConsumedEntries(w, g)| + 1
  {
    hide Inv, World.Valid, TookDirectory, TookFile, Faulted, FileTaken, ConsumedEntries, OnlyErrors;
    InvShape(w, depth, b, g, busy);
    NextIsNew(w, g, d, q);
    if OnlyErrors(b, mayFail) {
      TakenIsNoMark(w, b, q, depth, true, mayFail);
      if mayFail {
        FaultIsError(b, d, mayFail);
        TakenIsNoMark(w, b, q, depth, false, mayFail);
      }
    }
    g' := Advanced(g, d);
    if !inspected {
      EntryUnreadable(w, depth, b, g, busy, d, q);
      b' := RecordFault(b, d);
      FaultedQueue(b, d);
    } else if w.IsDir(q) {
      EntryDirectory(w, depth, b, g, busy, d, q);
      b' := TakeDirectory(b, q, depth);
      DirectoryQueued(b, q, depth);
      g' := g'.(listed := g.listed + {q});
    } else if w.IsFile(q) {
      var unavailable: bool := *;
      var available := !(mayFail && unavailable);
      EntryFile(w, depth, b, g, busy, d, q, available);
      FileCursor(w, b, g, d, q, available);
      b' := TakeFile(b, q, w.KeyOf(q), w.LinkCount(q), if available then Some(w.nodes[q].measure) else None);
      g' := FileTaken(w, b, g, d, q, available);
    } else {
      EntryPassed(w, depth, b, g, busy, d, q);
      b' := b;
    }
    OneMoreConsumed(w, g, g', d, q);
  }

  lemma InvShape(w: World, depth: nat, b: Book, g: Log, busy: set<Path>)
    requires Inv(w, depth, b, g, busy)
    ensures w.Valid() && Met(w, g)
    ensures busy <= g.cursor.Keys
    ensures forall d | d in g.cursor :: w.Descends(d) && g.cursor[d] <= |w.nodes[d].names|
  {
    hide World.Valid, Sums, Inodes, Queue;
  }

  lemma FileCursor(w: World, b: Book, g: Log, d: Path, q: Path, available: bool)
    requires w.Valid() && w.IsFile(q) && d in g.cursor
    ensures FileTaken(w, b, g, d, q, available).cursor == g.cursor[d := g.cursor[d] + 1]
  {
    hide World.Valid, World.KeyOf;
  }

  method TakeEntries(
    w: World, depth: nat, b: Book, d: Path, yielded: seq<Component>, readable: seq<bool>, mayFail: bool, ghost g: Log,
    ghost busy: set<Path>)
    returns (b': Book, ghost g': Log)
    requires w.Valid() && Inv(w, depth, b, g, busy) && d in busy && |readable| == |yielded|
    requires w.IsDir(d) && d in g.cursor && g.cursor[d] + |yielded| <= |w.nodes[d].names|
    requires !mayFail ==> false !in readable
    requires yielded == w.nodes[d].names[g.cursor[d]..g.cursor[d] + |yielded|]
    ensures Inv(w, depth, b', g', busy)
    ensures g'.cursor == g.cursor[d := g.cursor[d] + |yielded|]
    ensures yielded == [] ==> b' == b
    ensures yielded != [] && OnlyDirectories(w) ==> b'.unopened != [] || !b'.complete
    ensures OnlyErrors(b, mayFail) ==> OnlyErrors(b', mayFail)
    ensures |ConsumedEntries(w, g')| == |ConsumedEntries(w, g)| + |yielded|
  {
    hide Inv, World.Valid, OnlyErrors, OnlyDirectories, ConsumedEntries;
    b', g' := b, g;
    for i := 0 to |yielded|
      invariant i > 0 && OnlyDirectories(w) ==> b'.unopened != [] || !b'.complete
      invariant Inv(w, depth, b', g', busy)
      invariant g'.cursor == g.cursor[d := g.cursor[d] + i]
      invariant i == 0 ==> b' == b
      invariant OnlyErrors(b, mayFail) ==> OnlyErrors(b', mayFail)
      invariant |ConsumedEntries(w, g')| == |ConsumedEntries(w, g)| + i
    {
      InvShape(w, depth, b', g', busy);
      assert yielded[i] == w.nodes[d].names[g.cursor[d] + i];
      if OnlyDirectories(w) { NextIsDirectory(w, g', d, d + [yielded[i]]); }
      b', g' := TakeEntry(w, depth, b', d, d + [yielded[i]], readable[i], mayFail, g', busy);
    }
  }

  lemma BusySplit(open: seq<PendingDirectory>)
    requires open != []
    ensures open[0].path in Busy(open)
    ensures Busy(open) == Busy(open[1..]) + {open[0].path}
    ensures (forall j | 1 <= j < |open| :: open[j].path != open[0].path) ==>
              Busy(open[1..]) == Busy(open) - {open[0].path}
  {
    forall x ensures x in Busy(open) <==> x in Busy(open[1..]) || x == open[0].path {
      if x in Busy(open) && x != open[0].path {
        var i :| 0 <= i < |open| && open[i].path == x;
        assert open[1..][i - 1].path == x;
      }
      if x in Busy(open[1..]) {
        var i :| 0 <= i < |open[1..]| && open[1..][i].path == x;
        assert open[i + 1].path == x;
      }
    }
    if forall j | 1 <= j < |open| :: open[j].path != open[0].path {
      assert open[0].path !in Busy(open[1..]);
    }
  }

  /** Slices of other directories do not depend on one directory's progress. */
  lemma OthersInStep(w: World, cursor: map<Path, nat>, d: Path, n: nat, open: seq<PendingDirectory>)
    requires OpenReaders(w, cursor, open)
    requires forall i | 0 <= i < |open| :: open[i].path != d
    ensures OpenReaders(w, cursor[d := n], open)
  {
    forall i | 0 <= i < |open| ensures InStep(w, cursor[d := n], open[i]) {
      assert InStep(w, cursor, open[i]);
    }
  }

  lemma TailReaders(w: World, cursor: map<Path, nat>, open: seq<PendingDirectory>)
    requires open != [] && OpenReaders(w, cursor, open)
    ensures OpenReaders(w, cursor, open[1..]) && InStep(w, cursor, open[0])
    ensures forall i | 0 <= i < |open[1..]| ::
        open[1..][i].path != open[0].path && open[1..][i].reader != open[0].reader
    ensures forall j | 1 <= j < |open| :: open[j].path != open[0].path
  {
    forall i | 0 <= i < |open[1..]| ensures InStep(w, cursor, open[1..][i]) {
      assert open[1..][i] == open[i + 1];
    }
  }

  lemma Requeued(w: World, cursor: map<Path, nat>, open: seq<PendingDirectory>, p: PendingDirectory)
    requires OpenReaders(w, cursor, open) && InStep(w, cursor, p)
    requires forall i | 0 <= i < |open| :: open[i].path != p.path && open[i].reader != p.reader
    ensures OpenReaders(w, cursor, open + [p])
  {
  }

  /** Read one slice of directory p and take its entries; the other readers stay as they are. */
  method ReadSlice(
    w: World, depth: nat, b: Book, p: PendingDirectory, budget: nat, mayFail: bool, ghost g: Log, ghost busy: set<Path>,
    ghost others: seq<PendingDirectory>)
    returns (b': Book, count: nat, visit: Visit, ghost g': Log)
    requires w.Valid() && Inv(w, depth, b, g, busy) && p.path in busy && p.reader.mayFail == mayFail
    requires InStep(w, g.cursor, p) && OpenReaders(w, g.cursor, others)
    requires forall i | 0 <= i < |others| :: others[i].path != p.path && others[i].reader != p.reader
    modifies p.reader
    ensures Inv(w, depth, b', g', busy)
    ensures InStep(w, g'.cursor, p) && OpenReaders(w, g'.cursor, others)
    ensures count <= budget && (count == 0 ==> b'.unopened == b.unopened)
    ensures g'.cursor == g.cursor[p.path := g.cursor[p.path] + count]
    ensures visit == Visited(false) ==> UnfinishedAt(w, g'.cursor, p.path)
    ensures count > 0 && OnlyDirectories(w) ==> b'.unopened != [] || !b'.complete
    ensures visit.Visited? && visit.exhausted ==> Closed(w, b', g', p.path)
    ensures visit.Visited? && !visit.exhausted ==> count == budget
    ensures visit.Failed? ==> mayFail
    ensures OnlyErrors(b, mayFail) ==> OnlyErrors(b', mayFail)
    ensures |ConsumedEntries(w, g')| == |ConsumedEntries(w, g)| + count
  {
    hide Inv, World.Valid, OpenReaders, Marked, OnlyErrors, OnlyDirectories, ConsumedEntries;
    var yielded, readable;
    yielded, readable, visit := p.reader.Visit(budget);
    count := |yielded|;
    assert OpenReaders(w, g.cursor, others);
    b', g' := TakeEntries(w, depth, b, p.path, yielded, readable, mayFail, g, busy);
    OthersInStep(w, g.cursor, p.path, g.cursor[p.path] + count, others);
    InvShape(w, depth, b', g', busy);
  }

  /**
   * Read one fair slice of the first open directory. The reader goes to the back of the queue
   * unless it is exhausted or failed; a failed reader's yields are charged all the same.
   */
  method VisitFirst(w: World, depth: nat, b: Book, open: seq<PendingDirectory>, remaining: nat, mayFail: bool,
      ghost g: Log)
    returns (b': Book, open': seq<PendingDirectory>, count: nat, ghost g': Log)
    requires w.Valid() && Inv(w, depth, b, g, Busy(open)) && OpenReaders(w, g.cursor, open)
    requires open != [] && 0 < remaining <= U64_MAX && Alike(open, mayFail)
    modifies ReaderSet(open)
    ensures Inv(w, depth, b', g', Busy(open')) && OpenReaders(w, g'.cursor, open')
    ensures count <= remaining && |open'| <= |open| && Alike(open', mayFail)
    ensures count == 0 ==> |open'| < |open| && b'.unopened == b.unopened
    ensures Unfinished(w, g.cursor, open) ==> Unfinished(w, g'.cursor, open')
    ensures count > 0 && OnlyDirectories(w) ==> b'.unopened != [] || !b'.complete
    ensures forall i | 0 <= i < |open'| :: open'[i] in open
    ensures OnlyErrors(b, mayFail) ==> OnlyErrors(b', mayFail)
    ensures |ConsumedEntries(w, g')| == |ConsumedEntries(w, g)| + count
  {
    hide Inv, World.Valid, Busy, OpenReaders, Unfinished, UnfinishedAt, Faulted, InStep, Closed, OnlyErrors,
      OnlyDirectories, ConsumedEntries;
    var p := open[0];
    open' := open[1..];
    assert p.reader in ReaderSet(open);
    BusySplit(open);
    TailReaders(w, g.cursor, open);
    var queued := Sat(|b.unopened| + |open|);
    ShareBounds(remaining, queued);
    var visit;
    b', count, visit, g' := ReadSlice(w, depth, b, p, Share(remaining, queued), mayFail, g, Busy(open), open');
    if Unfinished(w, g.cursor, open) { UnfinishedOthers(w, g.cursor, open, p.path, g.cursor[p.path] + count); }
    if visit.Failed? {
      ReaderFails(w, depth, b', g', Busy(open), p.path);
      FaultedQueue(b', p.path);
      if OnlyErrors(b', mayFail) {
        FaultIsError(b', p.path, mayFail);
      }
      b' := RecordFault(b', p.path);
    } else if visit.exhausted {
      ReaderDone(w, depth, b', g', Busy(open), p.path);
    } else {
      Requeued(w, g'.cursor, open', p);
      if Unfinished(w, g'.cursor, open') { UnfinishedBack(w, g'.cursor, open', p); }
      BusyGrows(open', p);
      open' := open' + [p];
    }
  }

  // ---- the end of the scan ----

  /** The budget is spent: every directory still queued or open is marked. */
  method MarkPending(w: World, depth: nat, b: Book, open: seq<PendingDirectory>, ghost g: Log) returns (b': Book)
    requires Inv(w, depth, b, g, Busy(open))
    ensures Inv(w, depth, b', g, {}) && b'.unopened == []
    ensures b.unopened != [] || open != [] ==> !b'.complete
    ensures b.unopened == [] && open == [] ==> b' == b
  {
    hide Inv, Busy;
    b' := b;
    while b'.unopened != []
      invariant Inv(w, depth, b', g, Busy(open))
      invariant b' == b || !b'.complete
      invariant b.unopened == [] ==> b' == b
      decreases |b'.unopened|
    {
      QueueHeadCut(w, depth, b', g, Busy(open));
      var d := b'.unopened[0];
      var incomplete := MarkTraversalIncomplete(b'.aggregates, b'.incomplete, d, EntryBudgetExhausted);
      b' := b'.(unopened := b'.unopened[1..], incomplete := incomplete, complete := false);
    }
    for i := 0 to |open|
      invariant Inv(w, depth, b', g, Busy(open[i..]))
      invariant b'.unopened == [] && (b.unopened != [] || i > 0 ==> !b'.complete)
      invariant b.unopened == [] && i == 0 ==> b' == b
    {
      BusySplit(open[i..]);
      assert open[i..][1..] == open[i + 1..];
      var d := open[i].path;
      ReaderCutTo(w, depth, b', g, Busy(open[i..]), d, Busy(open[i + 1..]));
      var incomplete := MarkTraversalIncomplete(b'.aggregates, b'.incomplete, d, EntryBudgetExhausted);
      b' := b'.(incomplete := incomplete, complete := false);
    }
    NoneBusy(open[|open|..]);
  }

  lemma NoneBusy(open: seq<PendingDirectory>)
    requires open == []
    ensures Busy(open) == {}
  {
  }

  /** Cutting off a directory removes it from the busy ones, or leaves it there for another reader. */
  lemma ReaderCutTo(w: World, depth: nat, b: Book, g: Log, busy: set<Path>, d: Path, rest: set<Path>)
    requires Inv(w, depth, b, g, busy) && d in busy && busy == rest + {d}
    ensures Inv(w, depth, CutOff(b, d), g, rest)
  {
    hide World.Valid, Inv;
    if d in rest {
      assert rest == busy;
      CutOffKeeps(w, depth, b, g, busy, d);
    } else {
      assert rest == busy - {d};
      ReaderCut(w, depth, b, g, busy, d);
    }
  }

  method CountOne(b: Book, k: Key) returns (b': Book)
    requires k in b.pendingHardlinks
    ensures b' == Settle(b, k)
  {
    var link := b.pendingHardlinks[k];
    var incomplete := b.incomplete;
    if !b.complete && link.observedLinks < link.expectedLinks {
      incomplete := MarkTraversalIncomplete(b.aggregates, incomplete, link.commonParent, UnresolvedHardlinkAttribution);
    }
    var releases := link.observedLinks >= link.expectedLinks;
    var aggregates := AddAmount(b.aggregates, link.commonParent, Weigh(link.measure, releases));
    b' := b.(incomplete := incomplete, aggregates := aggregates, pendingHardlinks := b.pendingHardlinks - {k});
  }

  /** Count every deferred inode, in any order. */
  method CountDeferred(b0: Book, ghost g: Log) returns (b: Book, ghost account: map<Unit, Placed>)
    requires Settling(b0, b0, g, g.account)
    ensures Settling(b0, b, g, account) && b.pendingHardlinks == map[]
  {
    hide Settling, Settle, LinkPlaced;
    b, account := b0, g.account;
    while b.pendingHardlinks != map[]
      invariant Settling(b0, b, g, account)
      decreases |b.pendingHardlinks|
    {
      var k :| k in b.pendingHardlinks;
      SettleStep(b0, b, g, account, k);
      SettleShrinks(b, k);
      account := account[Linked(k) := LinkPlaced(b.pendingHardlinks[k])];
      b := CountOne(b, k);
    }
  }

  lemma SettleShrinks(b: Book, k: Key)
    requires k in b.pendingHardlinks
    ensures |Settle(b, k).pendingHardlinks| < |b.pendingHardlinks|
  {
    assert Settle(b, k).pendingHardlinks.Keys == b.pendingHardlinks.Keys - {k};
  }

  // ---- the whole scan ----

  datatype BudgetExhaustion = BudgetExhaustion(configured: nat, consumed: nat, pendingDirectories: nat)

  datatype RootReport = RootReport(
    aggregates: map<Path, Metrics>,
    incomplete: map<Path, set<Reason>>,
    complete: bool,
    visited: nat,
    exhaustion: Option<BudgetExhaustion>)

  /**
   * Aggregates are visible directories within the retained depth, the root among them, and below an
   * unmarked aggregate there is one for every such directory.
   */
  ghost predicate Retains(w: World, depth: nat, r: RootReport)
    requires w.Valid()
  {
    && [] in r.aggregates
    && (forall p | p in r.aggregates :: p in w.Directories() && |p| <= depth)
    && (forall p | p in r.incomplete :: p in r.aggregates && r.incomplete[p] != {})
    && (forall p, d {:trigger Above(p, d)} |
          p in r.aggregates && p !in r.incomplete && d in w.Directories() && Above(p, d) && |d| <= depth ::
          d in r.aggregates)
  }

  /** Reasons are closed upwards, and the overall verdict is the absence of any. */
  ghost predicate MarksConsistent(r: RootReport) {
    && (r.complete <==> r.incomplete == map[])
    && (!r.complete ==> [] in r.incomplete)
    && (forall p, q {:trigger Above(q, p)} | p in r.incomplete && q in r.aggregates && Above(q, p) ::
          q in r.incomplete && r.incomplete[p] <= r.incomplete[q])
    && (forall p | p in r.aggregates ::
          r.aggregates[p].errors > 0 <==> p in r.incomplete && ScanErrors in r.incomplete[p])
  }

  /** Aggregates agree with the snapshot as far as their marks allow. */
  ghost predicate Truthful(w: World, r: RootReport)
    requires w.Valid()
  {
    && (forall p | p in r.aggregates && p !in r.incomplete :: Exact(w, r.aggregates[p], p))
    && (forall p | p in r.aggregates && (p in r.incomplete ==> UnresolvedHardlinkAttribution !in r.incomplete[p]) ::
          AtMostTrue(w, r.aggregates[p], p))
  }

  /** The root never claims too much, and no aggregate claims private bytes that are not released. */
  ghost predicate Cautious(w: World, r: RootReport)
    requires w.Valid()
  {
    && ([] in r.aggregates ==> AtMostTrue(w, r.aggregates[[]], []))
    && (forall p | p in r.aggregates :: r.aggregates[p].privateBytes <= w.PrivateFloor(p))
  }

  /**
   * What a report is worth when the links of an inode show the same attributes: it is always cautious; with link
   * counts that cover all visible links it is exact up to its marks; and a complete one is exact everywhere if
   * and only if no inode that claims a single link hides another one.
   */
  ghost predicate Faithful(w: World, r: RootReport)
    requires w.Valid()
  {
    w.InodesConsistent() ==>
      && Cautious(w, r)
      && (w.CountsCover() ==> Truthful(w, r))
      && (r.complete ==> (AllExact(w, r.aggregates) <==> w.NoHiddenLinks()))
  }

  lemma EndedKeys(w: World, depth: nat, b0: Book, g: Log, b: Book)
    requires w.Valid() && Met(w, g) && Keys(depth, b0, g.listed) && b.aggregates.Keys == b0.aggregates.Keys
    ensures [] in b.aggregates
    ensures forall p | p in b.aggregates :: p in w.Directories() && |p| <= depth
  {
    forall p | p in b.aggregates ensures p in w.Directories() && |p| <= depth {
      MetIsDir(w, g, p);
    }
  }

  lemma EndedBelow(w: World, depth: nat, b0: Book, g: Log, b: Book, account: map<Unit, Placed>, p: Path, d: Path)
    requires Ended(w, depth, b0, g, b, account) && p in b.aggregates && p !in b.incomplete
    requires w.Valid() && d in w.Directories() && Above(p, d) && |d| <= depth
    ensures d in b.aggregates
  {
    hide World.Valid, Met, Coverage, Queue, Inodes, LinksPlaced, Sums;
    UnmarkedBefore(b0, b, g, account, p);
    ReadBelow(w, depth, b0, g, p);
    assert d in w.DirectoriesAt(p);
  }

  lemma EndedMarks(depth: nat, b0: Book, b: Book, listed: set<Path>)
    requires Keys(depth, b0, listed) && MarksFollow(b0, b)
    ensures b0.complete <==> b.incomplete == map[]
    ensures !b0.complete ==> [] in b.incomplete
    ensures forall p | p in b.incomplete :: p in b.aggregates && b.incomplete[p] != {}
    ensures Inherited(b)
  {
  }

  lemma EndedErrors(b: Book, listed: set<Path>, account: map<Unit, Placed>)
    requires Sums(b, listed, account)
    ensures forall p | p in b.aggregates ::
      b.aggregates[p].errors > 0 <==> p in b.incomplete && ScanErrors in b.incomplete[p]
  {
    forall p | p in b.aggregates
      ensures b.aggregates[p].errors > 0 <==> p in b.incomplete && ScanErrors in b.incomplete[p]
    {
      assert SumsAt(b, listed, account, p);
    }
  }

  lemma EndedShape(w: World, depth: nat, b0: Book, g: Log, b: Book, account: map<Unit, Placed>, r: RootReport)
    requires Ended(w, depth, b0, g, b, account)
    requires r.aggregates == b.aggregates && r.incomplete == b.incomplete && r.complete == b0.complete
    ensures w.Valid() && Retains(w, depth, r) && MarksConsistent(r) && [] in r.aggregates
  {
    hide World.Valid, Met, Keys, Coverage, Queue, Inodes, LinksPlaced, MarksFollow, Sums;
    SameVerdict(b0, b);
    EndedKeys(w, depth, b0, g, b);
    EndedMarks(depth, b0, b, g.listed);
    EndedErrors(b, g.listed, account);
    forall p, d | p in r.aggregates && p !in r.incomplete && d in w.Directories() && Above(p, d) && |d| <= depth
      ensures d in r.aggregates
    {
      EndedBelow(w, depth, b0, g, b, account, p, d);
    }
  }

  lemma EndedCautious(w: World, depth: nat, b0: Book, g: Log, b: Book, account: map<Unit, Placed>, r: RootReport)
    requires Ended(w, depth, b0, g, b, account) && w.InodesConsistent()
    requires r.aggregates == b.aggregates
    ensures w.Valid() && Cautious(w, r)
  {
    hide Ended, World.Valid, World.InodesConsistent, AtMostTrue, World.PrivateFloor;
    assert w.Valid() by {
      EndedValid(w, depth, b0, g, b, account);
    }
    if [] in b.aggregates {
      RootIsLowerBound(w, depth, b0, g, b, account);
    }
    forall p | p in r.aggregates ensures r.aggregates[p].privateBytes <= w.PrivateFloor(p) {
      PrivateIsFloor(w, depth, b0, g, b, account, p);
    }
  }

  lemma EndedTruth(w: World, depth: nat, b0: Book, g: Log, b: Book, account: map<Unit, Placed>, r: RootReport)
    requires Ended(w, depth, b0, g, b, account) && w.Trusted(b0.complete)
    requires r.aggregates == b.aggregates && r.incomplete == b.incomplete
    ensures w.Valid() && Truthful(w, r)
  {
    hide Ended, World.Valid, World.Trusted, Exact, AtMostTrue;
    assert w.Valid() by {
      EndedValid(w, depth, b0, g, b, account);
    }
    forall p | p in r.aggregates && p !in r.incomplete ensures Exact(w, r.aggregates[p], p) {
      UnmarkedIsExact(w, depth, b0, g, b, account, p);
    }
    forall p | p in r.aggregates && (p in r.incomplete ==> UnresolvedHardlinkAttribution !in r.incomplete[p])
      ensures AtMostTrue(w, r.aggregates[p], p)
    {
      ResolvedIsLowerBound(w, depth, b0, g, b, account, p);
    }
  }

  lemma EndedFaithful(w: World, depth: nat, b0: Book, g: Log, b: Book, account: map<Unit, Placed>, r: RootReport)
    requires Ended(w, depth, b0, g, b, account) && [] in b.aggregates
    requires r.aggregates == b.aggregates && r.incomplete == b.incomplete && r.complete == b0.complete
    ensures w.Valid() && Faithful(w, r)
  {
    hide Ended, World.Valid, World.InodesConsistent, World.CountsCover, World.NoHiddenLinks, World.Trusted, Cautious,
      Truthful, AllExact;
    assert w.Valid() by {
      EndedValid(w, depth, b0, g, b, account);
    }
    if w.InodesConsistent() {
      EndedCautious(w, depth, b0, g, b, account, r);
      if w.CountsCover() {
        w.TrueIsTrusted(b0.complete);
        EndedTruth(w, depth, b0, g, b, account, r);
      }
      if b0.complete {
        CompleteExactness(w, depth, b0, g, b, account);
      }
    }
  }

  lemma EndedValid(w: World, depth: nat, b0: Book, g: Log, b: Book, account: map<Unit, Placed>)
    requires Ended(w, depth, b0, g, b, account)
    ensures w.Valid()
  {
  }

  /**
   * Scan one root with an entry budget. Whatever the enumeration order, the slices and the failures,
   * the scan stops with every entry it read charged to the budget, and every aggregate is exact, a
   * lower bound, or marked.
   */
  method ScanRoot(w: World, depth: nat, budget: nat, slots: nat, mayFail: bool)
    returns (report: RootReport, remaining: nat)
    requires w.Valid() && budget <= U64_MAX && slots > 0
    ensures report.visited + remaining == budget
    ensures Retains(w, depth, report)
    ensures MarksConsistent(report)
    ensures Faithful(w, report)
    ensures report.exhaustion.Some? ==> !report.complete && remaining == 0
    ensures report.exhaustion.Some? ==> report.exhaustion.value.configured == report.exhaustion.value.consumed == budget
    ensures report.exhaustion.Some? ==> report.exhaustion.value.pendingDirectories > 0
    ensures report.visited <= |w.Entries()| && (report.complete ==> report.visited == |w.Entries()|)
    ensures !report.complete ==> report.exhaustion.Some? || (mayFail && report.aggregates[[]].errors > 0)
    ensures !mayFail && budget > |w.Entries()| ==> report.complete
    ensures !mayFail && budget == |w.Entries()| && Idle(w) == {} ==> report.complete
    ensures budget == |w.Entries()| && report.exhaustion.Some? ==>
              report.exhaustion.value.pendingDirectories <= |Idle(w)|
    ensures budget <= |w.Entries()| && OnlyDirectories(w) ==> !report.complete
  {
    hide World.Valid, Inv, OpenReaders, Unfinished, Busy, ReaderSet, TookDirectory, Settling, Retains,
      MarksConsistent, Faithful, OnlyErrors, Idle, OnlyDirectories, ConsumedEntries, World.Entries;
    remaining := budget;
    var visited, exhaustion := 0, None;
    InitialInv(w, depth);
    var b := TakeDirectory(Book([], {}, map[], map[[] := Zero()], map[], true), [], depth);
    ghost var g := Log({[]}, map[], {}, {}, map[], map[]);
    var open: seq<PendingDirectory> := [];
    NoneBusy(open);
    NoReaders(w, g.cursor, open);
    NothingYet(w, depth, b, g, mayFail);
    while true
      invariant Inv(w, depth, b, g, Busy(open)) && OpenReaders(w, g.cursor, open)
      invariant |open| <= slots && Alike(open, mayFail)
      invariant forall i | 0 <= i < |open| :: fresh(open[i].reader)
      invariant visited + remaining == budget && exhaustion.None?
      invariant OnlyErrors(b, mayFail) && visited == |ConsumedEntries(w, g)|
      invariant Unfinished(w, g.cursor, open)
      invariant remaining == 0 && OnlyDirectories(w) ==> b.unopened != [] || !b.complete
      decreases remaining, |b.unopened| + |open|
    {
      if remaining == 0 {
        break;
      }
      b, open, g := FillReaders(w, depth, b, open, slots, mayFail, g);
      if open == [] {
        break;
      }
      AllFresh(open);
      var count;
      b, open, count, g := VisitFirst(w, depth, b, open, remaining, mayFail, g);
      visited, remaining := visited + count, remaining - count;
    }
    SpentOrDone(w, depth, b, open, g, budget, visited, mayFail);
    if b.unopened != [] || open != [] {
      exhaustion := Some(BudgetExhaustion(budget, visited, |b.unopened| + |open|));
    }
    b := MarkPending(w, depth, b, open, g);
    SettlingStarts(w, depth, b, g, {});
    InvValid(w, depth, b, g);
    ConsumedBound(w, g);
    if b.complete { CompleteConsumed(w, depth, b, g); }
    ghost var b0 := b;
    var complete := b.complete;
    ghost var account;
    b, account := CountDeferred(b, g);
    report := RootReport(b.aggregates, b.incomplete, complete, visited, exhaustion);
    EndedShape(w, depth, b0, g, b, account, report);
    if exhaustion.None? {
      IncompleteHasErrors(w, depth, b0, g, b, account, report, mayFail);
    }
    EndedFaithful(w, depth, b0, g, b, account, report);
  }

  /** With the budget spent on every entry, only idle directories can be pending. */
  lemma SpentOrDone(w: World, depth: nat, b: Book, open: seq<PendingDirectory>, g: Log, budget: nat, visited: nat,
      mayFail: bool)
    requires w.Valid() && Inv(w, depth, b, g, Busy(open)) && Unfinished(w, g.cursor, open)
    requires visited == |ConsumedEntries(w, g)| && OnlyErrors(b, mayFail) && OpenReaders(w, g.cursor, open)
    ensures visited == budget == |w.Entries()| ==> |b.unopened| + |open| <= |Idle(w)|
    ensures !mayFail ==> b.complete
  {
    hide World.Valid, Inv, Busy, Unfinished, ConsumedEntries, World.Entries, Idle, OpenReaders;
    if visited == |w.Entries()| {
      PendingBound(w, depth, b, open, g);
    }
  }

  lemma NothingYet(w: World, depth: nat, b: Book, g: Log, mayFail: bool)
    requires w.Valid() && b == TookDirectory(Book([], {}, map[], map[[] := Zero()], map[], true), [], depth)
    requires g.cursor == map[]
    ensures OnlyErrors(b, mayFail) && |ConsumedEntries(w, g)| == 0 && b.unopened != []
  {
    assert ConsumedEntries(w, g) == {};
  }

  /** Without a cut every mark made while reading is an error mark. */
  lemma IncompleteHasErrors(w: World, depth: nat, b0: Book, g: Log, b: Book, account: map<Unit, Placed>,
      r: RootReport, mayFail: bool)
    requires Ended(w, depth, b0, g, b, account) && OnlyErrors(b0, mayFail)
    requires r.aggregates == b.aggregates && r.incomplete == b.incomplete && r.complete == b0.complete
    requires MarksConsistent(r) && [] in r.aggregates
    ensures !r.complete ==> mayFail && r.aggregates[[]].errors > 0
  {
    hide World.Valid, Met, Coverage, Queue, Sums, Inodes, LinksPlaced;
    if !r.complete {
      assert b0.incomplete[[]] == {ScanErrors} <= b.incomplete[[]];
    }
  }

  lemma NoReaders(w: World, cursor: map<Path, nat>, open: seq<PendingDirectory>)
    requires open == []
    ensures OpenReaders(w, cursor, open) && Unfinished(w, cursor, open)
  {
  }

  lemma AllFresh(open: seq<PendingDirectory>)
    ensures forall r | r in ReaderSet(open) :: exists i :: 0 <= i < |open| && open[i].reader == r
  {
  }
}
