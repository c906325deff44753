// Cargo profile locks: any number of sweepers and Cargo builders over lock files that come, go and
// are replaced. A lock belongs to the open file (the inode), while a sweeper scans and rescans paths.

module CargoLocks {

  type Path = nat
  type Inode = nat

  datatype Agent = Sweep(n: nat) | Builder(b: nat)

  /** A lock a sweeper holds, and whether the path still led to the locked file when it was taken. */
  datatype Lock = Lock(path: Path, inode: Inode, bound: bool)

  datatype Outcome = Returned | TimedOut | Failed

  datatype Next = Wait | ScanAgain | Return(outcome: Outcome)

  datatype Phase =
    | Scanning
    | Acquiring
    | Opened(inode: Inode)        // next lock file open, not locked yet
    | Dropping(next: Next)        // releasing every lock before going on
    | Checking(inode: Inode)      // contended: is the time up?
    | Sleeping(inode: Inode)
    | Holding                     // every wanted lock taken, set not yet rescanned
    | Acting(moved: set<Path>)    // running the action, which may move profiles to trash
    | Finished(outcome: Outcome)

  datatype Sweeper = Sweeper(phase: Phase, want: seq<Path>, held: seq<Lock>, blocked: Inode)

  datatype State = State(
    files: map<Path, Inode>,
    locked: map<Inode, Agent>,
    waiting: map<nat, Inode>,     // builders blocked on a lock
    sweepers: map<nat, Sweeper>)

  datatype Label =
    | Begin(n: nat)
    | Scan(n: nat, found: seq<Path>)
    | Open(n: nat)
    | TryLock(n: nat)
    | Acquired(n: nat)
    | Drop(n: nat)
    | Dropped(n: nat)
    | Timeout(n: nat)
    | Sleep(n: nat)
    | Wake(n: nat)
    | Rescan(n: nat, found: seq<Path>)
    | Move(n: nat, path: Path)
    | Done(n: nat)
    | Fail(n: nat)
    | BuilderWaits(b: nat, inode: Inode)
    | BuilderLocks(b: nat, inode: Inode)
    | BuilderUnlocks(b: nat, inode: Inode)
    | Change(files: map<Path, Inode>)

  predicate Distinct(paths: seq<Path>) {
    forall i, j | 0 <= i < j < |paths| :: paths[i] != paths[j]
  }

  function To(s: State, n: nat, w: Sweeper): State {
    s.(sweepers := s.sweepers[n := w])
  }

  predicate Step(s: State, l: Label, s': State) {
    match l
    case Begin(n) =>
      n !in s.sweepers && s' == To(s, n, Sweeper(Scanning, [], [], 0))
    case BuilderWaits(b, i) =>
      s' == s.(waiting := s.waiting[b := i])
    case BuilderLocks(b, i) =>
      i !in s.locked && s' == s.(locked := s.locked[i := Builder(b)], waiting := s.waiting - {b})
    case BuilderUnlocks(b, i) =>
      i in s.locked && s.locked[i] == Builder(b) && s' == s.(locked := s.locked - {i})
    case Change(files) =>
      s' == s.(files := files)
    case _ =>
      l.n in s.sweepers && SweeperStep(s, l, s.sweepers[l.n], s')
  }

  /** One step of the coordination loop of sweeper `l.n`, whose state is `w`. */
  predicate SweeperStep(s: State, l: Label, w: Sweeper, s': State)
    requires !l.Begin? && !l.BuilderWaits? && !l.BuilderLocks? && !l.BuilderUnlocks? && !l.Change?
  {
    match l
    case Scan(n, found) =>
      // what a walk finds while files change is not constrained; finding nothing is an error
      && w.phase.Scanning? && Distinct(found)
      && s' == To(s, n, if found == [] then w.(phase := Finished(Failed)) else w.(phase := Acquiring, want := found))
    case Open(n) =>
      && w.phase.Acquiring? && |w.held| < |w.want| && w.want[|w.held|] in s.files
      && s' == To(s, n, w.(phase := Opened(s.files[w.want[|w.held|]])))
    case TryLock(n) =>
      && w.phase.Opened? && |w.held| < |w.want|
      && var i := w.phase.inode;
      if i in s.locked then s' == To(s, n, w.(phase := Dropping(Wait), blocked := i))
      else
        var p := w.want[|w.held|];
        var lock := Lock(p, i, p in s.files && s.files[p] == i);
        s' == To(s, n, w.(phase := Acquiring, held := w.held + [lock])).(locked := s.locked[i := Sweep(n)])
    case Acquired(n) =>
      w.phase.Acquiring? && |w.held| == |w.want| && s' == To(s, n, w.(phase := Holding))
    case Drop(n) =>
      && w.phase.Dropping? && w.held != []
      && s' == To(s, n, w.(held := w.held[1..])).(locked := s.locked - {w.held[0].inode})
    case Dropped(n) =>
      && w.phase.Dropping? && w.held == []
      && s' == To(s, n, w.(phase := match w.phase.next
                                     case Wait => Checking(w.blocked)
                                     case ScanAgain => Scanning
                                     case Return(outcome) => Finished(outcome)))
    case Timeout(n) =>
      w.phase.Checking? && s' == To(s, n, w.(phase := Finished(TimedOut)))
    case Sleep(n) =>
      w.phase.Checking? && s' == To(s, n, w.(phase := Sleeping(w.phase.inode)))
    case Wake(n) =>
      w.phase.Sleeping? && s' == To(s, n, w.(phase := Acquiring))
    case Rescan(n, found) =>
      && w.phase.Holding?
      && s' == To(s, n, w.(phase := if found == [] then Dropping(Return(Failed))
                                     else if found == w.want then Acting({})
                                     else Dropping(ScanAgain)))
    case Move(n, p) =>
      && w.phase.Acting? && p in w.want && p !in w.phase.moved && p in s.files
      && s' == To(s, n, w.(phase := Acting(w.phase.moved + {p}))).(files := s.files - {p})
    case Done(n) =>
      w.phase.Acting? && s' == To(s, n, w.(phase := Dropping(Return(Returned))))
    case Fail(n) =>
      && !w.phase.Finished? && !w.phase.Dropping?
      && s' == To(s, n, w.(phase := Dropping(Return(Failed))))
  }

  predicate Initial(s: State) {
    s.sweepers == map[] && forall i | i in s.locked :: s.locked[i].Builder?
  }

  // ---- runs ----

  datatype Run = Run(states: seq<State>, labels: seq<Label>)

  predicate Follows(r: Run, k: nat)
    requires |r.states| == |r.labels| + 1 && k < |r.labels|
  {
    Step(r.states[k], r.labels[k], r.states[k + 1])
  }

  predicate IsRun(r: Run) {
    && |r.states| == |r.labels| + 1
    && Initial(r.states[0])
    && forall k | 0 <= k < |r.labels| :: Follows(r, k)
  }

  // ---- the invariant ----

  predicate Aligned(w: Sweeper) {
    && |w.held| <= |w.want|
    && forall j | 0 <= j < |w.held| :: w.held[j].path == w.want[j]
  }

  predicate Empty(phase: Phase) {
    phase.Scanning? || phase.Checking? || phase.Sleeping? || phase.Finished?
  }

  predicate Wants(phase: Phase) {
    !phase.Scanning? && !phase.Finished? && (phase.Dropping? ==> phase.next.Wait?)
  }

  /** What a sweeper's phase says about the locks it holds. */
  predicate Shape(w: Sweeper) {
    && (Empty(w.phase) ==> w.held == [])
    && (!Empty(w.phase) && !w.phase.Dropping? ==> Aligned(w))
    && (w.phase.Opened? ==> |w.held| < |w.want|)
    && (w.phase.Holding? || w.phase.Acting? ==> |w.held| == |w.want|)
    && (Wants(w.phase) ==> w.want != [])
    && Distinct(w.want)
  }

  predicate Holds(s: State, n: nat, lock: Lock) {
    lock.inode in s.locked && s.locked[lock.inode] == Sweep(n)
  }

  predicate SweeperOk(s: State, n: nat)
    requires n in s.sweepers
  {
    var w := s.sweepers[n];
    && Shape(w)
    && (forall j | 0 <= j < |w.held| :: Holds(s, n, w.held[j]))
    && (forall j, k | 0 <= j < k < |w.held| :: w.held[j].inode != w.held[k].inode)
  }

  /** Every lock owned by a sweeper is one it knows it holds. */
  predicate Known(s: State, i: Inode)
    requires i in s.locked
  {
    s.locked[i].Sweep? ==>
      && s.locked[i].n in s.sweepers
      && exists j | 0 <= j < |s.sweepers[s.locked[i].n].held| :: s.sweepers[s.locked[i].n].held[j].inode == i
  }

  predicate Inv(s: State) {
    && (forall n | n in s.sweepers :: SweeperOk(s, n))
    && (forall i | i in s.locked :: Known(s, i))
  }

  lemma InitialInv(s: State)
    requires Initial(s)
    ensures Inv(s)
  {
  }

  /** A sweeper changes phase and keeps its locks. */
  lemma PhaseMove(s: State, n: nat, w: Sweeper, files: map<Path, Inode>)
    requires Inv(s) && Shape(w)
    requires if n in s.sweepers then w.held == s.sweepers[n].held else w.held == []
    ensures Inv(To(s, n, w).(files := files))
  {
    var s' := To(s, n, w).(files := files);
    forall m | m in s'.sweepers ensures SweeperOk(s', m) {
      assert m != n ==> SweeperOk(s, m);
      assert n in s.sweepers ==> SweeperOk(s, n);
    }
    forall i | i in s'.locked ensures Known(s', i) {
      assert Known(s, i);
    }
  }

  lemma TryLockInv(s: State, l: Label, s': State)
    requires Inv(s) && l.TryLock? && Step(s, l, s')
    ensures Inv(s')
  {
    var w := s.sweepers[l.n];
    ShapeOf(s, l.n);
    if w.phase.inode in s.locked {
      PhaseMove(s, l.n, w.(phase := Dropping(Wait), blocked := w.phase.inode), s.files);
    } else {
      var p := w.want[|w.held|];
      TakenInv(s, l.n, Lock(p, w.phase.inode, p in s.files && s.files[p] == w.phase.inode));
    }
  }

  function Taken(s: State, n: nat, lock: Lock): State
    requires n in s.sweepers
  {
    var sweeper := s.sweepers[n].(phase := Acquiring, held := s.sweepers[n].held + [lock]);
    To(s, n, sweeper).(locked := s.locked[lock.inode := Sweep(n)])
  }

  lemma TakenInv(s: State, n: nat, lock: Lock)
    requires Inv(s) && n in s.sweepers && lock.inode !in s.locked
    requires var w := s.sweepers[n]; w.phase.Opened? && |w.held| < |w.want| && lock.path == w.want[|w.held|]
    ensures Inv(Taken(s, n, lock))
  {
    TakenOk(s, n, lock);
    TakenLocks(s, n, lock);
    hide SweeperOk, Taken, Known;
    forall j | j in Taken(s, n, lock).locked ensures Known(Taken(s, n, lock), j) {
      TakenKnown(s, n, lock, j);
    }
  }

  lemma TakenKnown(s: State, n: nat, lock: Lock, j: Inode)
    requires n in s.sweepers && j in Taken(s, n, lock).locked
    requires j != lock.inode ==> j in s.locked && Known(s, j)
    ensures Known(Taken(s, n, lock), j)
  {
    var s' := Taken(s, n, lock);
    var before, held := s.sweepers[n].held, s'.sweepers[n].held;
    assert held == before + [lock];
    if j == lock.inode {
      assert s'.locked[j] == Sweep(n) && held[|before|].inode == j;
    } else if s.locked[j] == Sweep(n) {
      var k :| 0 <= k < |before| && before[k].inode == j;
      assert held[k].inode == j;
    }
  }

  lemma TakenLocks(s: State, n: nat, lock: Lock)
    requires n in s.sweepers
    ensures forall j | j in Taken(s, n, lock).locked :: j != lock.inode ==> j in s.locked
  {
  }

  lemma TakenOk(s: State, n: nat, lock: Lock)
    requires Inv(s) && n in s.sweepers && lock.inode !in s.locked
    requires var w := s.sweepers[n]; w.phase.Opened? && |w.held| < |w.want| && lock.path == w.want[|w.held|]
    ensures forall m | m in Taken(s, n, lock).sweepers :: SweeperOk(Taken(s, n, lock), m)
  {
    var s' := Taken(s, n, lock);
    forall m | m in s'.sweepers ensures SweeperOk(s', m) {
      assert SweeperOk(s, m);
    }
  }

  lemma DropInv(s: State, l: Label, s': State)
    requires Inv(s) && l.Drop? && Step(s, l, s')
    ensures Inv(s')
  {
    var w := s.sweepers[l.n];
    assert SweeperOk(s, l.n);
    assert Holds(s, l.n, w.held[0]);
    forall m | m in s'.sweepers ensures SweeperOk(s', m) {
      assert SweeperOk(s, m);
    }
    DropKnown(s, l, s');
  }

  lemma DropKnown(s: State, l: Label, s': State)
    requires Inv(s) && l.Drop? && Step(s, l, s')
    ensures forall j | j in s'.locked :: Known(s', j)
  {
    var w := s.sweepers[l.n];
    forall j | j in s'.locked ensures Known(s', j) {
      assert Known(s, j);
      if s.locked[j] == Sweep(l.n) {
        var k :| 0 <= k < |w.held| && w.held[k].inode == j;
        assert s'.sweepers[l.n].held[k - 1].inode == j;
      }
    }
  }

  lemma BuilderInv(s: State, l: Label, s': State)
    requires Inv(s) && Step(s, l, s')
    requires l.BuilderWaits? || l.BuilderLocks? || l.BuilderUnlocks?
    ensures Inv(s')
  {
    forall m | m in s'.sweepers ensures SweeperOk(s', m) {
      assert SweeperOk(s, m);
    }
    forall j | j in s'.locked ensures Known(s', j) {
      assert j in s.locked ==> Known(s, j);
    }
  }

  lemma ChangeInv(s: State, l: Label, s': State)
    requires Inv(s) && Step(s, l, s') && l.Change?
    ensures Inv(s')
  {
    forall m | m in s'.sweepers ensures SweeperOk(s', m) {
      assert SweeperOk(s, m);
    }
    forall j | j in s'.locked ensures Known(s', j) {
      assert Known(s, j);
    }
  }

  lemma ShapeOf(s: State, n: nat)
    requires Inv(s) && n in s.sweepers
    ensures Shape(s.sweepers[n])
  {
    assert SweeperOk(s, n);
  }

  lemma SweeperMove(s: State, l: Label, s': State)
    requires Inv(s) && Step(s, l, s')
    requires !l.Begin? && !l.BuilderWaits? && !l.BuilderLocks? && !l.BuilderUnlocks? && !l.Change?
    requires !l.TryLock? && !l.Drop?
    ensures l.n in s.sweepers && l.n in s'.sweepers && s'.sweepers[l.n].held == s.sweepers[l.n].held
    ensures s' == To(s, l.n, s'.sweepers[l.n]).(files := s'.files)
    ensures Shape(s'.sweepers[l.n])
  {
    hide Inv;
    ShapeOf(s, l.n);
  }

  lemma SweeperInv(s: State, l: Label, s': State)
    requires Inv(s) && Step(s, l, s')
    requires !l.Begin? && !l.BuilderWaits? && !l.BuilderLocks? && !l.BuilderUnlocks? && !l.Change?
    requires !l.TryLock? && !l.Drop?
    ensures Inv(s')
  {
    hide Inv;
    SweeperMove(s, l, s');
    PhaseMove(s, l.n, s'.sweepers[l.n], s'.files);
  }

  lemma BeginInv(s: State, l: Label, s': State)
    requires Inv(s) && l.Begin? && Step(s, l, s')
    ensures Inv(s')
  {
    PhaseMove(s, l.n, Sweeper(Scanning, [], [], 0), s.files);
  }

  lemma StepInv(s: State, l: Label, s': State)
    requires Inv(s) && Step(s, l, s')
    ensures Inv(s')
  {
    hide Inv, Step;
    if l.Begin? {
      BeginInv(s, l, s');
    } else if l.TryLock? {
      TryLockInv(s, l, s');
    } else if l.Drop? {
      DropInv(s, l, s');
    } else if l.BuilderWaits? || l.BuilderLocks? || l.BuilderUnlocks? {
      BuilderInv(s, l, s');
    } else if l.Change? {
      ChangeInv(s, l, s');
    } else {
      SweeperInv(s, l, s');
    }
  }

  lemma {:induction false} RunInv(r: Run, k: nat)
    requires IsRun(r) && k < |r.states|
    ensures Inv(r.states[k])
  {
    hide Inv, Step, Initial;
    if k == 0 {
      InitialInv(r.states[0]);
    } else {
      RunInv(r, k - 1);
      assert Follows(r, k - 1);
      StepInv(r.states[k - 1], r.labels[k - 1], r.states[k]);
    }
  }

  // ---- waiting sweepers hold nothing ----

  predicate HoldsNothing(s: State, n: nat) {
    forall i | i in s.locked :: s.locked[i] != Sweep(n)
  }

  /** A sweeper that sleeps, is about to, or has returned, timed out or failed, holds no profile lock. */
  lemma WaitersHoldNothing(r: Run, k: nat, n: nat)
    requires IsRun(r) && k < |r.states|
    requires n in r.states[k].sweepers && Empty(r.states[k].sweepers[n].phase)
    ensures HoldsNothing(r.states[k], n)
  {
    hide IsRun;
    RunInv(r, k);
    var s := r.states[k];
    assert SweeperOk(s, n);
    forall i | i in s.locked ensures s.locked[i] != Sweep(n) {
      assert Known(s, i);
    }
  }

  /** `x` waits for a lock that `y` holds. */
  predicate WaitsFor(s: State, x: Agent, y: Agent) {
    match x
    case Sweep(n) =>
      && n in s.sweepers && (s.sweepers[n].phase.Sleeping? || s.sweepers[n].phase.Checking?)
      && s.sweepers[n].phase.inode in s.locked && s.locked[s.sweepers[n].phase.inode] == y
    case Builder(b) =>
      b in s.waiting && s.waiting[b] in s.locked && s.locked[s.waiting[b]] == y
  }

  predicate Linked(s: State, c: seq<Agent>, i: nat)
    requires i < |c|
  {
    WaitsFor(s, c[i], if i + 1 == |c| then c[0] else c[i + 1])
  }

  predicate Cycle(s: State, c: seq<Agent>) {
    c != [] && forall i | 0 <= i < |c| :: Linked(s, c, i)
  }

  /** No sweeper is ever part of a waiting cycle, whatever the builders do. */
  lemma NoSweeperInACycle(r: Run, k: nat, c: seq<Agent>, i: nat)
    requires IsRun(r) && k < |r.states| && i < |c|
    requires Cycle(r.states[k], c)
    ensures c[i].Builder?
  {
    hide IsRun;
    var s := r.states[k];
    assert Linked(s, c, i) && Linked(s, c, if i == 0 then |c| - 1 else i - 1);
    if c[i].Sweep? {
      WaitersHoldNothing(r, k, c[i].n);
    }
  }

  // ---- the action runs under the set the rescan found ----

  /** Sweeper `n` holds a lock for each path it wants, in order. */
  predicate HoldsAll(s: State, n: nat, want: seq<Path>) {
    && n in s.sweepers && s.sweepers[n].want == want && |s.sweepers[n].held| == |want|
    && forall j | 0 <= j < |want| :: s.sweepers[n].held[j].path == want[j] && Holds(s, n, s.sweepers[n].held[j])
  }

  lemma FullHolds(s: State, n: nat)
    requires Inv(s) && n in s.sweepers && (s.sweepers[n].phase.Holding? || s.sweepers[n].phase.Acting?)
    ensures HoldsAll(s, n, s.sweepers[n].want) && s.sweepers[n].want != []
  {
    assert SweeperOk(s, n);
  }

  /** How a sweeper that is acting after a step came to be acting. */
  lemma ActingBefore(s: State, l: Label, s': State, n: nat)
    requires Step(s, l, s') && n in s'.sweepers && s'.sweepers[n].phase.Acting?
    ensures n in s.sweepers && s'.sweepers[n].want == s.sweepers[n].want
    ensures s.sweepers[n].phase.Acting? || (l == Rescan(n, s.sweepers[n].want) && s.sweepers[n].phase.Holding?)
  {
  }

  /**
   * An action runs only after a rescan, made once every lock was held, that found exactly the locked
   * set; and from that rescan on every lock of the set stayed held.
   */
  lemma {:induction false} ActionFollowsRescan(r: Run, k: nat, n: nat) returns (j: nat)
    requires IsRun(r) && k < |r.states|
    requires n in r.states[k].sweepers && r.states[k].sweepers[n].phase.Acting?
    ensures var want := r.states[k].sweepers[n].want;
            && want != [] && (forall x, y | 0 <= x < y < |want| :: want[x] != want[y])
            && j < k && r.labels[j] == Rescan(n, want)
            && forall i | j <= i <= k :: HoldsAll(r.states[i], n, want)
  {
    hide Inv, Step, HoldsAll, Initial;
    RunInv(r, k);
    FullHolds(r.states[k], n);
    WantedOnce(r.states[k], n);
    if k == 0 {
      NobodyAtFirst(r, n);
    } else {
      assert Follows(r, k - 1);
      ActingBefore(r.states[k - 1], r.labels[k - 1], r.states[k], n);
      RunInv(r, k - 1);
      if r.states[k - 1].sweepers[n].phase.Acting? {
        j := ActionFollowsRescan(r, k - 1, n);
      } else {
        j := k - 1;
        FullHolds(r.states[k - 1], n);
      }
    }
  }

  lemma WantedOnce(s: State, n: nat)
    requires Inv(s) && n in s.sweepers
    ensures var want := s.sweepers[n].want; forall x, y | 0 <= x < y < |want| :: want[x] != want[y]
  {
    assert SweeperOk(s, n);
  }

  lemma NobodyAtFirst(r: Run, n: nat)
    requires IsRun(r)
    ensures n !in r.states[0].sweepers
  {
  }

  // ---- what the locks protect: files, not paths ----

  /** Nobody but the action that holds its lock replaces or removes a lock file a sweeper has locked. */
  predicate Disciplined(s: State, l: Label) {
    l.Change? ==>
      forall p | p in s.files && s.files[p] in s.locked && s.locked[s.files[p]].Sweep? ::
        p in l.files && l.files[p] == s.files[p]
  }

  predicate DisciplinedRun(r: Run) {
    IsRun(r) && forall k | 0 <= k < |r.labels| :: Disciplined(r.states[k], r.labels[k])
  }

  predicate MovedBy(w: Sweeper, p: Path) {
    w.phase.Acting? && p in w.phase.moved
  }

  predicate Live(phase: Phase) {
    phase.Acquiring? || phase.Opened? || phase.Holding? || phase.Acting?
  }

  predicate Leads(s: State, lock: Lock) {
    lock.path in s.files && s.files[lock.path] == lock.inode
  }

  /** Every lock a sweeper still relies on is the lock of the file its path leads to. */
  predicate Current(s: State) {
    forall n | n in s.sweepers && Live(s.sweepers[n].phase) :: CurrentFor(s, s.sweepers[n])
  }

  predicate CurrentFor(s: State, w: Sweeper) {
    forall j | 0 <= j < |w.held| :: MovedBy(w, w.held[j].path) || Leads(s, w.held[j])
  }

  /** Every lock was taken while its path still led to the file opened. */
  predicate Bound(s: State) {
    forall n | n in s.sweepers && Live(s.sweepers[n].phase) :: BoundFor(s.sweepers[n])
  }

  predicate BoundFor(w: Sweeper) {
    forall j | 0 <= j < |w.held| :: w.held[j].bound
  }

  predicate AlwaysCurrent(r: Run) {
    forall k | 0 <= k < |r.states| :: Current(r.states[k])
  }

  predicate AlwaysBound(r: Run) {
    forall k | 0 <= k < |r.states| :: Bound(r.states[k])
  }

  /** A file that one sweeper has locked and its path leads to is not the file of another's lock. */
  lemma CurrentIsExclusive(s: State, n: nat, m: nat, p: Path)
    requires Inv(s) && Current(s)
    requires n in s.sweepers && m in s.sweepers
    requires s.sweepers[n].phase.Acting? && s.sweepers[m].phase.Acting?
    requires p in s.sweepers[n].want && !MovedBy(s.sweepers[n], p)
    requires p in s.sweepers[m].want && !MovedBy(s.sweepers[m], p)
    ensures n == m && p in s.files && s.files[p] in s.locked && s.locked[s.files[p]] == Sweep(n)
  {
    var i := HeldFor(s, n, p);
    var j := HeldFor(s, m, p);
  }

  lemma HeldFor(s: State, n: nat, p: Path) returns (j: nat)
    requires Inv(s) && Current(s) && n in s.sweepers && s.sweepers[n].phase.Acting?
    requires p in s.sweepers[n].want && !MovedBy(s.sweepers[n], p)
    ensures j < |s.sweepers[n].held| && s.sweepers[n].held[j].path == p
    ensures Leads(s, s.sweepers[n].held[j]) && Holds(s, n, s.sweepers[n].held[j])
  {
    var w := s.sweepers[n];
    assert SweeperOk(s, n) && CurrentFor(s, w);
    j :| 0 <= j < |w.want| && w.want[j] == p;
    assert w.held[j].path == p;
  }

  lemma CurrentOther(s: State, l: Label, s': State, m: nat)
    requires Inv(s) && Current(s) && Step(s, l, s') && Disciplined(s, l)
    requires m in s.sweepers && m in s'.sweepers && s'.sweepers[m] == s.sweepers[m]
    requires Live(s.sweepers[m].phase) && !l.Move?
    ensures CurrentFor(s', s'.sweepers[m])
  {
    hide Inv, Step;
    var w := s.sweepers[m];
    HoldsEach(s, m);
    assert CurrentFor(s, w);
    OnlyChangeRebinds(s, l, s');
    forall j | 0 <= j < |w.held| ensures MovedBy(w, w.held[j].path) || Leads(s', w.held[j]) {
      assert Holds(s, m, w.held[j]);
    }
  }

  lemma HoldsEach(s: State, m: nat)
    requires Inv(s) && m in s.sweepers
    ensures forall j | 0 <= j < |s.sweepers[m].held| :: Holds(s, m, s.sweepers[m].held[j])
  {
    assert SweeperOk(s, m);
  }

  lemma OnlyChangeRebinds(s: State, l: Label, s': State)
    requires Step(s, l, s') && !l.Move?
    ensures if l.Change? then s'.files == l.files else s'.files == s.files
  {
  }

  /** An action moves away only files that it holds the locks of, so it disturbs nobody else. */
  lemma MoveCurrent(s: State, l: Label, s': State, m: nat)
    requires Inv(s) && Current(s) && Step(s, l, s') && l.Move?
    requires m in s'.sweepers && Live(s'.sweepers[m].phase)
    ensures CurrentFor(s', s'.sweepers[m])
  {
    var i := HeldFor(s, l.n, l.path);
    var w := s.sweepers[m];
    assert SweeperOk(s, m) && CurrentFor(s, w);
    forall j | 0 <= j < |w.held| ensures MovedBy(s'.sweepers[m], w.held[j].path) || Leads(s', w.held[j]) {
      assert Holds(s, m, w.held[j]);
    }
  }

  lemma CurrentStep(s: State, l: Label, s': State)
    requires Inv(s) && Current(s) && Step(s, l, s') && Disciplined(s, l) && Bound(s')
    ensures Current(s')
  {
    hide Inv, Bound;
    forall m | m in s'.sweepers && Live(s'.sweepers[m].phase) ensures CurrentFor(s', s'.sweepers[m]) {
      if l.Move? {
        MoveCurrent(s, l, s', m);
      } else if m in s.sweepers && s'.sweepers[m] == s.sweepers[m] {
        CurrentOther(s, l, s', m);
      } else {
        CurrentOwn(s, l, s', m);
      }
    }
  }

  lemma CurrentOwn(s: State, l: Label, s': State, m: nat)
    requires Inv(s) && Current(s) && Step(s, l, s') && Bound(s') && !l.Move?
    requires m in s'.sweepers && Live(s'.sweepers[m].phase)
    requires !(m in s.sweepers && s'.sweepers[m] == s.sweepers[m])
    ensures CurrentFor(s', s'.sweepers[m])
  {
    hide Inv, Bound;
    if l.TryLock? {
      CurrentTaken(s, l, s');
    } else if m in s.sweepers {
      ShapeOf(s, m);
      assert Live(s.sweepers[m].phase) ==> CurrentFor(s, s.sweepers[m]);
    }
  }

  lemma CurrentTaken(s: State, l: Label, s': State)
    requires Current(s) && Step(s, l, s') && Bound(s')
    requires l.TryLock? && l.n in s'.sweepers && Live(s'.sweepers[l.n].phase)
    ensures CurrentFor(s', s'.sweepers[l.n])
  {
    assert BoundFor(s'.sweepers[l.n]) && CurrentFor(s, s.sweepers[l.n]);
    var held := s'.sweepers[l.n].held;
    assert held[|held| - 1].bound;
  }

  lemma {:induction false} BoundRunIsCurrent(r: Run, k: nat)
    requires DisciplinedRun(r) && AlwaysBound(r) && k < |r.states|
    ensures Current(r.states[k])
  {
    hide Inv, Step, Bound;
    if k == 0 {
    } else {
      BoundRunIsCurrent(r, k - 1);
      RunInv(r, k - 1);
      assert Follows(r, k - 1) && Disciplined(r.states[k - 1], r.labels[k - 1]) && Bound(r.states[k]);
      CurrentStep(r.states[k - 1], r.labels[k - 1], r.states[k]);
    }
  }

  /** A lock is flagged as bound exactly when it is current right after it is taken; flags never change. */
  lemma BoundStep(s: State, l: Label, s': State)
    requires Inv(s) && Bound(s) && Step(s, l, s') && Current(s')
    ensures Bound(s')
  {
    hide Inv, Current;
    forall m | m in s'.sweepers && Live(s'.sweepers[m].phase) ensures BoundFor(s'.sweepers[m]) {
      if m in s.sweepers && s'.sweepers[m] == s.sweepers[m] {
        assert BoundFor(s.sweepers[m]);
      } else {
        BoundOwn(s, l, s', m);
      }
    }
  }

  lemma BoundOwn(s: State, l: Label, s': State, m: nat)
    requires Inv(s) && Bound(s) && Step(s, l, s') && Current(s')
    requires m in s'.sweepers && Live(s'.sweepers[m].phase) && !(m in s.sweepers && s'.sweepers[m] == s.sweepers[m])
    ensures BoundFor(s'.sweepers[m])
  {
    hide Inv, Current;
    if l.TryLock? {
      BoundTaken(s, l, s');
    } else if m in s.sweepers {
      ShapeOf(s, m);
      assert Live(s.sweepers[m].phase) ==> BoundFor(s.sweepers[m]);
    }
  }

  lemma BoundTaken(s: State, l: Label, s': State)
    requires Bound(s) && Step(s, l, s') && Current(s')
    requires l.TryLock? && l.n in s'.sweepers && Live(s'.sweepers[l.n].phase)
    ensures BoundFor(s'.sweepers[l.n])
  {
    var held := s'.sweepers[l.n].held;
    assert CurrentFor(s', s'.sweepers[l.n]) && BoundFor(s.sweepers[l.n]);
    assert Leads(s', held[|held| - 1]);
  }

  lemma {:induction false} CurrentRunIsBound(r: Run, k: nat)
    requires IsRun(r) && AlwaysCurrent(r) && k < |r.states|
    ensures Bound(r.states[k])
  {
    hide Inv, Step, Current;
    if k == 0 {
    } else {
      CurrentRunIsBound(r, k - 1);
      RunInv(r, k - 1);
      assert Follows(r, k - 1) && Current(r.states[k]);
      BoundStep(r.states[k - 1], r.labels[k - 1], r.states[k]);
    }
  }

  /**
   * The locks sweepers rely on are the locks of the live lock files throughout a run exactly when each
   * was taken while its path still led to the opened file, which a caller could check after locking.
   */
  lemma CurrentExactlyWhenBound(r: Run)
    requires DisciplinedRun(r)
    ensures AlwaysCurrent(r) <==> AlwaysBound(r)
  {
    if AlwaysBound(r) {
      forall k | 0 <= k < |r.states| ensures Current(r.states[k]) {
        BoundRunIsCurrent(r, k);
      }
    }
    if AlwaysCurrent(r) {
      forall k | 0 <= k < |r.states| ensures Bound(r.states[k]) {
        CurrentRunIsBound(r, k);
      }
    }
  }

  /** With bound locks, an action shares no profile with another action or with a builder. */
  lemma BoundActionsAreExclusive(r: Run, k: nat, n: nat, p: Path)
    requires DisciplinedRun(r) && AlwaysBound(r) && k < |r.states|
    requires n in r.states[k].sweepers && r.states[k].sweepers[n].phase.Acting?
    requires p in r.states[k].sweepers[n].want && !MovedBy(r.states[k].sweepers[n], p)
    ensures var s := r.states[k];
            && p in s.files && s.files[p] in s.locked && s.locked[s.files[p]] == Sweep(n)
            && forall m | m in s.sweepers && s.sweepers[m].phase.Acting? && p in s.sweepers[m].want
              && !MovedBy(s.sweepers[m], p) :: m == n
  {
    hide AlwaysBound, Inv, Current;
    var s := r.states[k];
    RunInv(r, k);
    BoundRunIsCurrent(r, k);
    CurrentIsExclusive(s, n, n, p);
    forall m | m in s.sweepers && s.sweepers[m].phase.Acting? && p in s.sweepers[m].want
      && !MovedBy(s.sweepers[m], p)
      ensures m == n
    {
      CurrentIsExclusive(s, n, m, p);
    }
  }

  lemma ExtendRun(r: Run, l: Label, s: State) returns (r': Run)
    requires DisciplinedRun(r) && Step(r.states[|r.labels|], l, s) && Disciplined(r.states[|r.labels|], l)
    ensures r' == Run(r.states + [s], r.labels + [l]) && DisciplinedRun(r')
    ensures r'.states[|r'.labels|] == s
  {
    r' := Run(r.states + [s], r.labels + [l]);
    forall k | 0 <= k < |r'.labels| ensures Follows(r', k) && Disciplined(r'.states[k], r'.labels[k]) {
      if k < |r.labels| {
        assert Follows(r, k) && Disciplined(r.states[k], r.labels[k]);
      }
    }
  }

  /**
   * Without that check the rescan is not enough: a profile replaced between opening and locking its lock
   * file leaves the sweeper acting on the path while a builder holds the lock of the new file.
   */
  lemma StaleLockAdmitsABuilder() returns (r: Run)
    ensures DisciplinedRun(r)
    ensures var s := r.states[|r.labels|];
            && 1 in s.sweepers && s.sweepers[1].phase == Acting({}) && s.sweepers[1].want == [0]
            && s.files == map[0 := 11] && 11 in s.locked && s.locked[11] == Builder(2)
  {
    hide IsRun, DisciplinedRun;
    var s := State(map[0 := 10], map[], map[], map[]);
    r := Run([s], []);
    FirstState(s);
    s := To(s, 1, Sweeper(Scanning, [], [], 0));
    r := ExtendRun(r, Begin(1), s);
    s := To(s, 1, Sweeper(Acquiring, [0], [], 0));
    r := ExtendRun(r, Scan(1, [0]), s);
    s := To(s, 1, Sweeper(Opened(10), [0], [], 0));
    r := ExtendRun(r, Open(1), s);
    s := s.(files := map[0 := 11]);
    r := ExtendRun(r, Change(map[0 := 11]), s);
    r := StaleFromOpen(r, s);
  }

  lemma StaleFromOpen(r: Run, s: State) returns (r': Run)
    requires DisciplinedRun(r) && r.states[|r.labels|] == s
    requires s.files == map[0 := 11] && s.locked == map[] && 1 in s.sweepers
    requires s.sweepers[1] == Sweeper(Opened(10), [0], [], 0)
    ensures DisciplinedRun(r')
    ensures var t := r'.states[|r'.labels|];
            && 1 in t.sweepers && t.sweepers[1].phase == Acting({}) && t.sweepers[1].want == [0]
            && t.files == map[0 := 11] && 11 in t.locked && t.locked[11] == Builder(2)
  {
    hide IsRun, DisciplinedRun, Step;
    var stale := Lock(0, 10, false);
    var t := To(s, 1, Sweeper(Acquiring, [0], [stale], 0)).(locked := s.locked[10 := Sweep(1)]);
    StaleTaken(s, t, stale);
    r' := ExtendRun(r, TryLock(1), t);
    r' := StaleFromTaken(r', t, stale);
  }

  lemma StaleTaken(s: State, t: State, stale: Lock)
    requires s.files == map[0 := 11] && s.locked == map[] && 1 in s.sweepers && stale == Lock(0, 10, false)
    requires s.sweepers[1] == Sweeper(Opened(10), [0], [], 0)
    requires t == To(s, 1, Sweeper(Acquiring, [0], [stale], 0)).(locked := s.locked[10 := Sweep(1)])
    ensures Step(s, TryLock(1), t)
  {
    assert [] + [stale] == [stale];
    assert s.sweepers[1].(phase := Acquiring, held := [] + [stale]) == Sweeper(Acquiring, [0], [stale], 0);
  }

  lemma StaleFromTaken(r: Run, s: State, stale: Lock) returns (r': Run)
    requires DisciplinedRun(r) && r.states[|r.labels|] == s && stale == Lock(0, 10, false)
    requires s.files == map[0 := 11] && 1 in s.sweepers && s.locked == map[10 := Sweep(1)]
    requires s.sweepers[1] == Sweeper(Acquiring, [0], [stale], 0)
    ensures DisciplinedRun(r')
    ensures var t := r'.states[|r'.labels|];
            && 1 in t.sweepers && t.sweepers[1].phase == Acting({}) && t.sweepers[1].want == [0]
            && t.files == map[0 := 11] && 11 in t.locked && t.locked[11] == Builder(2)
  {
    hide IsRun, DisciplinedRun;
    var t := To(s, 1, Sweeper(Holding, [0], [stale], 0));
    r' := ExtendRun(r, Acquired(1), t);
    t := To(t, 1, Sweeper(Acting({}), [0], [stale], 0));
    r' := ExtendRun(r', Rescan(1, [0]), t);
    t := t.(locked := t.locked[11 := Builder(2)], waiting := t.waiting - {2});
    r' := ExtendRun(r', BuilderLocks(2, 11), t);
  }

  lemma FirstState(s: State)
    requires Initial(s)
    ensures DisciplinedRun(Run([s], []))
  {
  }

  // ---- how a sweeper ends ----

  /** The outcome of the sweeper is settled: it has ended with it, or only drops its locks before it does. */
  predicate EndsWith(s: State, n: nat, outcome: Outcome) {
    n in s.sweepers && s.sweepers[n].phase in {Dropping(Return(outcome)), Finished(outcome)}
  }

  /** A scan or rescan that finds no profile is an error. */
  predicate FoundNothing(l: Label, n: nat) {
    l == Scan(n, []) || l == Rescan(n, [])
  }

  predicate Ends(w: Sweeper, outcome: Outcome) {
    w.phase in {Dropping(Return(outcome)), Finished(outcome)}
  }

  predicate IsSweeperLabel(l: Label) {
    !l.Begin? && !l.BuilderWaits? && !l.BuilderLocks? && !l.BuilderUnlocks? && !l.Change?
  }

  /** A step of a sweeper changes that sweeper alone. */
  lemma OwnStep(s: State, l: Label, w: Sweeper, s': State) returns (w': Sweeper)
    requires IsSweeperLabel(l) && SweeperStep(s, l, w, s')
    ensures s'.sweepers == s.sweepers[l.n := w']
  {
    w' := s'.sweepers[l.n];
  }

  /** Its outcome is settled by the labels named here and by no other. */
  lemma OwnOutcome(s: State, l: Label, w: Sweeper, s': State)
    requires IsSweeperLabel(l) && SweeperStep(s, l, w, s')
    ensures l.n in s'.sweepers
    ensures Ends(s'.sweepers[l.n], Returned) <==> Ends(w, Returned) || l.Done?
    ensures Ends(s'.sweepers[l.n], TimedOut) <==> Ends(w, TimedOut) || l.Timeout?
    ensures Ends(s'.sweepers[l.n], Failed) <==> Ends(w, Failed) || l.Fail? || FoundNothing(l, l.n)
  {
  }

  lemma OthersKeep(s: State, l: Label, s': State, n: nat)
    requires Step(s, l, s') && !(IsSweeperLabel(l) && l.n == n)
    ensures n in s.sweepers ==> n in s'.sweepers && s'.sweepers[n] == s.sweepers[n]
    ensures n in s'.sweepers && n !in s.sweepers ==> s'.sweepers[n].phase.Scanning?
  {
    hide SweeperStep;
    if IsSweeperLabel(l) { var w := OwnStep(s, l, s.sweepers[l.n], s'); }
  }

  lemma OutcomeStep(s: State, l: Label, s': State, n: nat)
    requires Step(s, l, s')
    ensures EndsWith(s', n, Returned) <==> EndsWith(s, n, Returned) || l == Done(n)
    ensures EndsWith(s', n, TimedOut) <==> EndsWith(s, n, TimedOut) || l == Timeout(n)
    ensures EndsWith(s', n, Failed) <==> EndsWith(s, n, Failed) || l == Fail(n) || FoundNothing(l, n)
  {
    hide SweeperStep;
    if IsSweeperLabel(l) && l.n == n {
      OwnOutcome(s, l, s.sweepers[n], s');
    } else {
      hide Step;
      OthersKeep(s, l, s', n);
    }
  }

  predicate Happened(r: Run, k: nat, l: Label)
    requires k <= |r.labels|
  {
    exists j | 0 <= j < k :: r.labels[j] == l
  }

  /**
   * A sweeper returns exactly when its action has run to its end, times out exactly when its time was up, and its
   * outcome never changes.
   */
  lemma {:induction false} OutcomeOf(r: Run, k: nat, n: nat)
    requires IsRun(r) && k <= |r.labels|
    ensures EndsWith(r.states[k], n, Returned) <==> Happened(r, k, Done(n))
    ensures EndsWith(r.states[k], n, TimedOut) <==> Happened(r, k, Timeout(n))
    ensures EndsWith(r.states[k], n, Failed) <==>
              Happened(r, k, Fail(n)) || Happened(r, k, Scan(n, [])) || Happened(r, k, Rescan(n, []))
  {
    hide Step, EndsWith;
    if k == 0 {
      NobodyEnds(r.states[0], n);
    } else {
      OutcomeOf(r, k - 1, n);
      assert Follows(r, k - 1);
      OutcomeStep(r.states[k - 1], r.labels[k - 1], r.states[k], n);
      OneMoreLabel(r, k, Done(n));
      OneMoreLabel(r, k, Timeout(n));
      OneMoreLabel(r, k, Fail(n));
      OneMoreLabel(r, k, Scan(n, []));
      OneMoreLabel(r, k, Rescan(n, []));
    }
  }

  lemma OneMoreLabel(r: Run, k: nat, l: Label)
    requires 0 < k <= |r.labels|
    ensures Happened(r, k, l) <==> Happened(r, k - 1, l) || r.labels[k - 1] == l
  {
  }

  lemma NobodyEnds(s: State, n: nat)
    requires Initial(s)
    ensures forall outcome :: !EndsWith(s, n, outcome)
  {
  }
}
