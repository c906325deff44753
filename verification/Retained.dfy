// Which aggregates a report shows: the largest k children of the root, the largest k children of
// each of those, and so on, parents before children.

module Retained {
  import opened Paths
  import opened Metrics

  // ---- the order of siblings ----

  predicate NameBefore(a: Component, b: Component) {
    if b == "" then false
    else if a == "" then true
    else a[0] < b[0] || (a[0] == b[0] && NameBefore(a[1..], b[1..]))
  }

  predicate PathBefore(a: Path, b: Path) {
    if b == [] then false
    else if a == [] then true
    else NameBefore(a[0], b[0]) || (a[0] == b[0] && PathBefore(a[1..], b[1..]))
  }

  lemma {:induction false} NameOrder(a: Component, b: Component, c: Component)
    ensures !NameBefore(a, a)
    ensures a == b || NameBefore(a, b) || NameBefore(b, a)
    ensures NameBefore(a, b) && NameBefore(b, c) ==> NameBefore(a, c)
    decreases |a| + |b| + |c|
  {
    if a != "" && b != "" && c != "" {
      NameOrder(a[1..], b[1..], c[1..]);
      assert a == [a[0]] + a[1..] && b == [b[0]] + b[1..];
    } else if a != "" && b != "" {
      NameOrder(a[1..], b[1..], "");
      assert a == [a[0]] + a[1..] && b == [b[0]] + b[1..];
    } else if a != "" {
      NameOrder(a[1..], "", "");
    }
  }

  lemma {:induction false} PathOrder(a: Path, b: Path, c: Path)
    ensures !PathBefore(a, a)
    ensures a == b || PathBefore(a, b) || PathBefore(b, a)
    ensures PathBefore(a, b) && PathBefore(b, c) ==> PathBefore(a, c)
    decreases |a| + |b| + |c|
  {
    if a != [] && b != [] && c != [] {
      NameOrder(a[0], b[0], c[0]);
      PathOrder(a[1..], b[1..], c[1..]);
      assert a == [a[0]] + a[1..] && b == [b[0]] + b[1..];
    } else if a != [] && b != [] {
      NameOrder(a[0], b[0], "");
      PathOrder(a[1..], b[1..], []);
      assert a == [a[0]] + a[1..] && b == [b[0]] + b[1..];
    } else if a != [] {
      NameOrder(a[0], "", "");
      PathOrder(a[1..], [], []);
    }
  }

  /** Private bytes when they are known for every file, allocated bytes otherwise. */
  function PreferredBytes(m: Metrics): nat {
    if m.unknown == 0 then m.privateBytes else m.allocatedBytes
  }

  /** Larger first: preferred bytes, then allocated bytes, then path. */
  predicate Before(aggregates: map<Path, Metrics>, p: Path, q: Path)
    requires p in aggregates && q in aggregates
  {
    var m, n := aggregates[p], aggregates[q];
    || PreferredBytes(m) > PreferredBytes(n)
    || (PreferredBytes(m) == PreferredBytes(n) && m.allocatedBytes > n.allocatedBytes)
    || (PreferredBytes(m) == PreferredBytes(n) && m.allocatedBytes == n.allocatedBytes && PathBefore(p, q))
  }

  lemma BeforeOrder(aggregates: map<Path, Metrics>, p: Path, q: Path, r: Path)
    requires p in aggregates && q in aggregates && r in aggregates
    ensures !Before(aggregates, p, p)
    ensures p == q || Before(aggregates, p, q) || Before(aggregates, q, p)
    ensures Before(aggregates, p, q) && Before(aggregates, q, r) ==> Before(aggregates, p, r)
  {
    PathOrder(p, q, r);
  }

  // ---- what the order means ----

  /** Two sequences agree up to an index at which the first one ends or they differ. */
  ghost predicate FirstDifference<T>(a: seq<T>, b: seq<T>, k: nat) {
    k <= |a| && k < |b| && a[..k] == b[..k] && (k == |a| || a[k] != b[k])
  }

  /** Names are compared byte by byte, and a proper prefix comes first. */
  lemma {:induction false} NameBeforeMeans(a: Component, b: Component, k: nat)
    requires FirstDifference(a, b, k)
    ensures NameBefore(a, b) <==> k == |a| || a[k] < b[k]
    decreases k
  {
    if k > 0 {
      assert a[..k][0] == b[..k][0];
      assert a[1..][..k - 1] == a[..k][1..] && b[1..][..k - 1] == b[..k][1..];
      NameBeforeMeans(a[1..], b[1..], k - 1);
    }
  }

  /** Paths are compared component by component, and an ancestor comes first. */
  lemma {:induction false} PathBeforeMeans(a: Path, b: Path, k: nat)
    requires FirstDifference(a, b, k)
    ensures PathBefore(a, b) <==> k == |a| || NameBefore(a[k], b[k])
    decreases k
  {
    if k > 0 {
      assert a[..k][0] == b[..k][0];
      NameOrder(a[0], b[0], a[0]);
      assert a[1..][..k - 1] == a[..k][1..] && b[1..][..k - 1] == b[..k][1..];
      PathBeforeMeans(a[1..], b[1..], k - 1);
    }
  }

  /**
   * Siblings rank by private bytes where these are known for all files below, and by allocated bytes where they are
   * not; equal figures are decided by allocated bytes and then by the path.
   */
  lemma RanksBy(aggregates: map<Path, Metrics>, p: Path, q: Path, x: nat, y: nat)
    requires p in aggregates && q in aggregates
    requires aggregates[p].unknown == 0 ==> x == aggregates[p].privateBytes
    requires aggregates[p].unknown > 0 ==> x == aggregates[p].allocatedBytes
    requires aggregates[q].unknown == 0 ==> y == aggregates[q].privateBytes
    requires aggregates[q].unknown > 0 ==> y == aggregates[q].allocatedBytes
    ensures x > y ==> Before(aggregates, p, q) && !Before(aggregates, q, p)
    ensures x == y && aggregates[p].allocatedBytes > aggregates[q].allocatedBytes ==>
              Before(aggregates, p, q) && !Before(aggregates, q, p)
    ensures x == y && aggregates[p].allocatedBytes == aggregates[q].allocatedBytes ==>
              (Before(aggregates, p, q) <==> PathBefore(p, q))
  {
  }

  // ---- what is to be shown ----

  function Children(aggregates: map<Path, Metrics>, parent: Path): set<Path> {
    set p | p in aggregates && p != [] && Parent(p) == parent
  }

  ghost function SiblingsBefore(aggregates: map<Path, Metrics>, p: Path): set<Path>
    requires p in aggregates && p != []
  {
    set q | q in Children(aggregates, Parent(p)) && Before(aggregates, q, p)
  }

  /** Fewer than `top` siblings come before p. */
  ghost predicate InTop(aggregates: map<Path, Metrics>, top: nat, p: Path) {
    p != [] && p in aggregates && |SiblingsBefore(aggregates, p)| < top
  }

  /** p and all its ancestors below the root are among the top of their siblings. */
  ghost predicate Shown(aggregates: map<Path, Metrics>, top: nat, p: Path)
    decreases |p|
  {
    InTop(aggregates, top, p) && (Parent(p) == [] || Shown(aggregates, top, Parent(p)))
  }

  // ---- sorting siblings ----

  ghost predicate SortedBefore(aggregates: map<Path, Metrics>, s: seq<Path>)
    requires forall i | 0 <= i < |s| :: s[i] in aggregates
  {
    forall i, j | 0 <= i < j < |s| :: Before(aggregates, s[i], s[j])
  }

  ghost predicate Lists(s: seq<Path>, elements: set<Path>) {
    forall p :: p in s <==> p in elements
  }

  method InsertSorted(aggregates: map<Path, Metrics>, s: seq<Path>, p: Path, ghost elements: set<Path>)
    returns (r: seq<Path>)
    requires forall i | 0 <= i < |s| :: s[i] in aggregates
    requires SortedBefore(aggregates, s) && Lists(s, elements) && p in aggregates && p !in elements
    ensures Lists(r, elements + {p})
    ensures forall i | 0 <= i < |r| :: r[i] in aggregates
    ensures SortedBefore(aggregates, r)
  {
    hide Before;
    var i := 0;
    while i < |s| && Before(aggregates, s[i], p)
      invariant 0 <= i <= |s|
      invariant forall j | 0 <= j < i :: Before(aggregates, s[j], p)
    {
      i := i + 1;
    }
    forall j | i <= j < |s| ensures Before(aggregates, p, s[j]) {
      assert s[i] in s && s[i] != p;
      BeforeOrder(aggregates, p, s[i], s[j]);
    }
    r := s[..i] + [p] + s[i..];
    assert forall q :: q in s <==> q in s[..i] || q in s[i..];
  }

  method SortedChildren(aggregates: map<Path, Metrics>, parent: Path) returns (s: seq<Path>)
    ensures Lists(s, Children(aggregates, parent))
    ensures forall i | 0 <= i < |s| :: s[i] in aggregates
    ensures SortedBefore(aggregates, s)
  {
    hide Before;
    s := [];
    var rest := Children(aggregates, parent);
    ghost var taken: set<Path> := {};
    while rest != {}
      invariant taken !! rest && taken + rest == Children(aggregates, parent)
      invariant Lists(s, taken)
      invariant forall i | 0 <= i < |s| :: s[i] in aggregates
      invariant SortedBefore(aggregates, s)
      decreases |rest|
    {
      var p :| p in rest;
      s := InsertSorted(aggregates, s, p, taken);
      rest, taken := rest - {p}, taken + {p};
    }
  }

  function Range(s: seq<Path>): set<Path> {
    set p | p in s
  }

  lemma {:induction false} DistinctCount(s: seq<Path>)
    requires forall i, j | 0 <= i < j < |s| :: s[i] != s[j]
    ensures |Range(s)| == |s|
    decreases |s|
  {
    if s == [] {
      assert Range(s) == {};
    } else {
      var t := s[..|s| - 1];
      DistinctCount(t);
      assert Range(s) == Range(t) + {s[|s| - 1]};
    }
  }

  /** The position of a sibling in the sorted list is the number of siblings before it. */
  lemma PositionIsRank(aggregates: map<Path, Metrics>, parent: Path, s: seq<Path>, i: nat)
    requires forall j | 0 <= j < |s| :: s[j] in aggregates
    requires SortedBefore(aggregates, s) && Lists(s, Children(aggregates, parent)) && i < |s|
    ensures s[i] != [] && Parent(s[i]) == parent && |SiblingsBefore(aggregates, s[i])| == i
  {
    hide Before;
    assert s[i] in Children(aggregates, parent);
    forall a, b | 0 <= a < b < |s| ensures s[a] != s[b] {
      BeforeOrder(aggregates, s[a], s[b], s[a]);
    }
    forall q ensures q in SiblingsBefore(aggregates, s[i]) <==> q in s[..i] {
      if q in SiblingsBefore(aggregates, s[i]) {
        var j :| 0 <= j < |s| && s[j] == q;
        BeforeOrder(aggregates, s[i], q, s[i]);
        assert j < i;
        assert s[..i][j] == q;
      }
    }
    assert SiblingsBefore(aggregates, s[i]) == Range(s[..i]);
    DistinctCount(s[..i]);
  }

  // ---- the walk from the root ----

  method TopChildren(aggregates: map<Path, Metrics>, parent: Path, top: nat) returns (s: seq<Path>)
    ensures forall p :: p in s <==> p in Children(aggregates, parent) && InTop(aggregates, top, p)
    ensures forall i | 0 <= i < |s| :: s[i] in aggregates
    ensures SortedBefore(aggregates, s)
  {
    hide Before, SiblingsBefore;
    var sorted := SortedChildren(aggregates, parent);
    s := if |sorted| <= top then sorted else sorted[..top];
    forall i | 0 <= i < |sorted| ensures sorted[i] in s <==> InTop(aggregates, top, sorted[i]) {
      PositionIsRank(aggregates, parent, sorted, i);
      if i < |s| {
        assert s[i] == sorted[i];
      } else if sorted[i] in s {
        var j :| 0 <= j < |s| && s[j] == sorted[i];
        PositionIsRank(aggregates, parent, sorted, j);
        assert false;
      }
    }
  }

  /** Parents come first, and siblings in their order. */
  ghost predicate WellOrdered(aggregates: map<Path, Metrics>, retained: seq<Path>) {
    && (forall i | 0 <= i < |retained| :: retained[i] != [] && retained[i] in aggregates)
    && (forall i | 0 <= i < |retained| ::
          Parent(retained[i]) == [] || exists j :: 0 <= j < i && retained[j] == Parent(retained[i]))
    && (forall i, j | 0 <= i < j < |retained| && Parent(retained[i]) == Parent(retained[j]) ::
          Before(aggregates, retained[i], retained[j]))
  }

  /** What is done or waiting, each once, is the root and what is retained. */
  ghost predicate QueueOk(retained: seq<Path>, waiting: seq<Path>, done: set<Path>) {
    && (forall p :: p in waiting || p in done <==> p == [] || p in retained)
    && (forall p | p in waiting :: p !in done)
    && (forall i, j | 0 <= i < j < |waiting| :: waiting[i] != waiting[j])
  }

  /** What is retained is shown, and what is shown below a parent that is done is retained. */
  ghost predicate WalkInv(aggregates: map<Path, Metrics>, top: nat, retained: seq<Path>, waiting: seq<Path>,
      done: set<Path>)
  {
    && WellOrdered(aggregates, retained)
    && (forall p | p in retained :: Shown(aggregates, top, p) && Parent(p) in done)
    && QueueOk(retained, waiting, done)
    && (forall p | p != [] && Parent(p) in done && InTop(aggregates, top, p) :: p in retained)
  }

  lemma AppendOrdered(aggregates: map<Path, Metrics>, retained: seq<Path>, parent: Path, children: seq<Path>)
    requires WellOrdered(aggregates, retained) && (parent == [] || parent in retained)
    requires forall p | p in retained :: Parent(p) != parent
    requires forall i | 0 <= i < |children| ::
        children[i] in aggregates && children[i] != [] && Parent(children[i]) == parent
    requires SortedBefore(aggregates, children)
    ensures WellOrdered(aggregates, retained + children)
  {
    hide Before;
    var r := retained + children;
    forall i | 0 <= i < |r|
      ensures Parent(r[i]) == [] || exists j :: 0 <= j < i && r[j] == Parent(r[i])
    {
      if i < |retained| {
        if Parent(r[i]) != [] {
          var j :| 0 <= j < i && retained[j] == Parent(retained[i]);
          assert r[j] == Parent(r[i]);
        }
      } else if parent != [] {
        var j :| 0 <= j < |retained| && retained[j] == parent;
        assert r[j] == Parent(r[i]);
      }
    }
    forall i, j | 0 <= i < j < |r| && Parent(r[i]) == Parent(r[j]) ensures Before(aggregates, r[i], r[j]) {
      if i < |retained| {
        assert retained[i] in retained;
      }
    }
  }

  lemma JoinOrdered(aggregates: map<Path, Metrics>, top: nat, retained: seq<Path>, parent: Path, children: seq<Path>)
    requires WellOrdered(aggregates, retained) && (parent == [] || parent in retained)
    requires forall p | p in retained :: Parent(p) != parent
    requires Joins(aggregates, top, retained, parent, children)
    requires forall i | 0 <= i < |children| :: children[i] in aggregates
    requires SortedBefore(aggregates, children)
    ensures WellOrdered(aggregates, retained + children)
  {
    hide Shown, InTop, WellOrdered, SortedBefore;
    assert forall i | 0 <= i < |children| :: children[i] in children;
    AppendOrdered(aggregates, retained, parent, children);
  }

  lemma ParentIsShorter(p: Path)
    requires p != []
    ensures |Parent(p)| < |p| && Parent(p) != p
  {
  }

  lemma ChildShown(aggregates: map<Path, Metrics>, top: nat, p: Path)
    requires InTop(aggregates, top, p) && (Parent(p) == [] || Shown(aggregates, top, Parent(p)))
    ensures Shown(aggregates, top, p)
  {
  }

  lemma ChildKnown(aggregates: map<Path, Metrics>, top: nat, p: Path)
    requires InTop(aggregates, top, p)
    ensures p in Children(aggregates, Parent(p))
  {
  }

  lemma SortedDistinct(aggregates: map<Path, Metrics>, s: seq<Path>)
    requires forall i | 0 <= i < |s| :: s[i] in aggregates
    requires SortedBefore(aggregates, s)
    ensures forall a, b | 0 <= a < b < |s| :: s[a] != s[b]
  {
    hide Before;
    forall a, b | 0 <= a < b < |s| ensures s[a] != s[b] {
      BeforeOrder(aggregates, s[a], s[b], s[a]);
    }
  }

  /** What joins the report: children of the parent in hand, all shown, none retained before. */
  ghost predicate Joins(aggregates: map<Path, Metrics>, top: nat, retained: seq<Path>, parent: Path,
      children: seq<Path>)
  {
    && (forall p | p in children :: p != [] && Parent(p) == parent && p != parent)
    && (forall p | p in children :: Shown(aggregates, top, p) && p !in retained)
    && (forall p | p != [] && Parent(p) == parent && InTop(aggregates, top, p) :: p in children)
  }

  lemma TopChildrenJoin(
    aggregates: map<Path, Metrics>, top: nat, retained: seq<Path>, waiting: seq<Path>, done: set<Path>,
    children: seq<Path>)
    requires WalkInv(aggregates, top, retained, waiting, done) && waiting != []
    requires forall p :: p in children <==> p in Children(aggregates, waiting[0]) && InTop(aggregates, top, p)
    ensures Joins(aggregates, top, retained, waiting[0], children)
    ensures (waiting[0] == [] || waiting[0] in retained) && forall p | p in retained :: Parent(p) != waiting[0]
  {
    hide SiblingsBefore, InTop, WellOrdered;
    var parent := waiting[0];
    assert parent in waiting && parent !in done;
    forall p | p in children ensures p != parent && Shown(aggregates, top, p) && p !in retained {
      ParentIsShorter(p);
      ChildShown(aggregates, top, p);
    }
    forall p | p != [] && Parent(p) == parent && InTop(aggregates, top, p) ensures p in children {
      ChildKnown(aggregates, top, p);
    }
  }

  /** One parent's children join the report and the queue. */
  lemma WalkStep(
    aggregates: map<Path, Metrics>, top: nat, retained: seq<Path>, waiting: seq<Path>, done: set<Path>,
    children: seq<Path>)
    requires WalkInv(aggregates, top, retained, waiting, done) && waiting != []
    requires Joins(aggregates, top, retained, waiting[0], children)
    requires WellOrdered(aggregates, retained + children)
    requires forall a, b | 0 <= a < b < |children| :: children[a] != children[b]
    ensures WalkInv(aggregates, top, retained + children, waiting[1..] + children, done + {waiting[0]})
  {
    hide SiblingsBefore, InTop, Shown, WellOrdered, QueueOk;
    assert forall i | 0 <= i < |children| :: children[i] in children;
    WalkQueue(retained, waiting, done, children);
  }

  lemma WalkQueue(retained: seq<Path>, waiting: seq<Path>, done: set<Path>, children: seq<Path>)
    requires waiting != []
    requires QueueOk(retained, waiting, done)
    requires forall i | 0 <= i < |children| ::
        children[i] != [] && children[i] != waiting[0] && children[i] !in retained
    requires forall a, b | 0 <= a < b < |children| :: children[a] != children[b]
    ensures QueueOk(retained + children, waiting[1..] + children, done + {waiting[0]})
  {
    var rest := waiting[1..];
    assert waiting == [waiting[0]] + rest;
    assert forall p :: p in waiting <==> p == waiting[0] || p in rest;
    assert forall i | 0 <= i < |rest| :: rest[i] in rest;
    forall i, j | 0 <= i < j < |rest + children| ensures (rest + children)[i] != (rest + children)[j] {
      if i < |rest| <= j {
        assert (rest + children)[j] in children;
      }
    }
  }

  lemma {:induction false} ShownIsRetained(
    aggregates: map<Path, Metrics>, top: nat, retained: seq<Path>, done: set<Path>, p: Path)
    requires WalkInv(aggregates, top, retained, [], done) && Shown(aggregates, top, p)
    ensures p in retained
    decreases |p|
  {
    hide SiblingsBefore;
    if Parent(p) != [] {
      ParentIsShorter(p);
      ShownIsRetained(aggregates, top, retained, done, Parent(p));
    }
  }

  /**
   * The entries of a report: exactly the paths that rank in the top of their siblings together with
   * all their ancestors, parents before children and siblings by size.
   */
  method RetainedEntries(aggregates: map<Path, Metrics>, top: nat) returns (retained: seq<Path>)
    ensures forall p :: p in retained <==> Shown(aggregates, top, p)
    ensures WellOrdered(aggregates, retained)
  {
    hide WellOrdered, SiblingsBefore, Shown, InTop, SortedBefore, Joins;
    retained := [];
    var waiting: seq<Path> := [[]];
    ghost var done: set<Path> := {};
    assert WellOrdered(aggregates, []) by {
      EmptyOrdered(aggregates);
    }
    while waiting != []
      invariant WalkInv(aggregates, top, retained, waiting, done)
      invariant done <= aggregates.Keys + {[]}
      decreases |(aggregates.Keys + {[]}) - done|
    {
      var parent := waiting[0];
      WaitingKnown(aggregates, top, retained, waiting, done);
      var children := TopChildren(aggregates, parent, top);
      TopChildrenJoin(aggregates, top, retained, waiting, done, children);
      SortedDistinct(aggregates, children);
      JoinOrdered(aggregates, top, retained, waiting[0], children);
      WalkStep(aggregates, top, retained, waiting, done, children);
      waiting, retained := waiting[1..] + children, retained + children;
      Shrinks(aggregates.Keys + {[]}, done, parent);
      done := done + {parent};
    }
    forall p | Shown(aggregates, top, p) ensures p in retained {
      ShownIsRetained(aggregates, top, retained, done, p);
    }
  }

  lemma EmptyOrdered(aggregates: map<Path, Metrics>)
    ensures WellOrdered(aggregates, [])
  {
  }

  lemma WaitingKnown(aggregates: map<Path, Metrics>, top: nat, retained: seq<Path>, waiting: seq<Path>, done: set<Path>)
    requires WalkInv(aggregates, top, retained, waiting, done) && waiting != []
    ensures waiting[0] !in done && waiting[0] in aggregates.Keys + {[]}
  {
    assert waiting[0] in waiting;
  }

  lemma Shrinks(all: set<Path>, done: set<Path>, p: Path)
    requires p in all && p !in done
    ensures |all - (done + {p})| < |all - done|
  {
    assert all - done == (all - (done + {p})) + {p};
  }
}
