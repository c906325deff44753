// Where a scan promises less than one might expect: trees on which a budget of exactly the number of
// entries falls short, and a tree on which a false link count spoils a complete scan.

module Limits {
  import opened Wrappers
  import opened Saturating
  import opened Paths
  import opened Metrics
  import opened Worlds
  import opened Ledger
  import opened Agreement
  import opened Scan

  // ---- a budget of exactly the number of entries ----

  function Name(i: nat): Component {
    seq(i, _ => 'd')
  }

  function Names(n: nat): (names: seq<Component>)
    ensures |names| == n && forall i | 0 <= i < n :: names[i] == Name(i)
  {
    if n == 0 then [] else Names(n - 1) + [Name(n - 1)]
  }

  function Children(n: nat): set<Path> {
    set i: nat | i < n :: [Name(i)]
  }

  /** A root that holds n empty directories. */
  function Flat(n: nat): World {
    World(map p | p in Children(n) + {[]} :: Dir(None, if p == [] then Names(n) else []), false)
  }

  lemma {:induction false} ChildrenCount(n: nat)
    ensures |Children(n)| == n
  {
    if n > 0 {
      ChildrenCount(n - 1);
      forall i: nat | i < n - 1 ensures [Name(i)] != [Name(n - 1)] {
        assert |Name(i)| != |Name(n - 1)|;
      }
      assert Children(n) == Children(n - 1) + {[Name(n - 1)]};
    }
  }

  lemma NamesDiffer(n: nat)
    ensures NoDuplicates(Names(n))
  {
    forall i, j | 0 <= i < j < n ensures Names(n)[i] != Names(n)[j] {
      assert |Name(i)| != |Name(j)|;
    }
  }

  lemma FlatChild(n: nat, q: Path)
    requires q in Children(n)
    ensures |q| == 1 && Parent(q) == [] && Last(q) in Names(n)
  {
    var i: nat :| i < n && q == [Name(i)];
    assert Names(n)[i] == Name(i);
  }

  lemma FlatValid(n: nat)
    ensures Flat(n).Valid()
  {
    hide Children, Names;
    var w := Flat(n);
    NamesDiffer(n);
    forall d, name | w.IsDir(d) && name in w.nodes[d].names ensures d + [name] in w.nodes {
      assert d == [] && d + [name] == [name];
      FlatName(n, name);
    }
    forall q | q in w.nodes && q != [] ensures w.IsDir(Parent(q)) && Last(q) in w.nodes[Parent(q)].names {
      FlatChild(n, q);
    }
  }

  lemma FlatName(n: nat, name: Component)
    requires name in Names(n)
    ensures [name] in Children(n)
  {
    var i :| 0 <= i < n && Names(n)[i] == name;
  }

  lemma FlatEntries(n: nat)
    ensures Flat(n).Valid() && |Flat(n).Entries()| == n && OnlyDirectories(Flat(n))
  {
    FlatValid(n);
    var w := Flat(n);
    forall q | q in Children(n) ensures w.Visible(q) {
      assert Parent(q) == [] && w.Visible([]);
    }
    assert w.Entries() == Children(n);
    ChildrenCount(n);
  }

  /**
   * A tree of n empty directories completes if and only if the budget exceeds n, even when nothing fails: for
   * every number of entries a budget of just that number falls short somewhere.
   */
  method ScanFlat(n: nat, depth: nat, budget: nat, slots: nat) returns (report: RootReport)
    requires budget <= U64_MAX && slots > 0
    ensures Flat(n).Valid() && |Flat(n).Entries()| == n
    ensures report.complete <==> budget > n
    ensures !report.complete ==> report.exhaustion.Some? && report.exhaustion.value.pendingDirectories > 0
  {
    hide Flat, World.Valid, World.Entries, OnlyDirectories, Retains, Faithful;
    FlatEntries(n);
    var remaining;
    report, remaining := ScanRoot(Flat(n), depth, budget, slots, false);
  }

  // ---- a false link count ----

  /** `a/x` and `b/y` are links of one inode, which claims a single one. */
  function Hidden(m: Measure): World {
    World(map[
      [] := Dir(None, ["a", "b"]),
      ["a"] := Dir(None, ["x"]),
      ["b"] := Dir(None, ["y"]),
      ["a", "x"] := File(Some(7), Some(1), m),
      ["b", "y"] := File(Some(7), Some(1), m)], false)
  }

  function HiddenPaths(): set<Path> {
    {[], ["a"], ["b"], ["a", "x"], ["b", "y"]}
  }

  lemma HiddenPathsDiffer()
    ensures ["a"] != ["b"] && ["a", "x"] != ["b", "y"] && |HiddenPaths() - {[]}| == 4
    ensures Parent(["a"]) == [] == Parent(["b"]) && Parent(["a", "x"]) == ["a"] && Parent(["b", "y"]) == ["b"]
    ensures Last(["a"]) == "a" && Last(["b"]) == "b" && Last(["a", "x"]) == "x" && Last(["b", "y"]) == "y"
  {
    assert ["a"][0] != ["b"][0] && ["a", "x"][0] != ["b", "y"][0];
    assert HiddenPaths() - {[]} == {["a"], ["b"], ["a", "x"], ["b", "y"]};
  }

  lemma HiddenNodes(m: Measure)
    ensures Hidden(m).nodes.Keys == HiddenPaths() && !Hidden(m).oneFilesystem
    ensures forall d | d in {["a"], ["b"]} :: Hidden(m).IsDir(d) && |Hidden(m).nodes[d].names| == 1
    ensures Hidden(m).IsDir([]) && Hidden(m).nodes[[]].names == ["a", "b"]
    ensures Hidden(m).nodes[["a"]].names == ["x"] && Hidden(m).nodes[["b"]].names == ["y"]
    ensures Hidden(m).nodes[["a"]].device.None? && Hidden(m).nodes[["b"]].device.None?
    ensures forall f | f in {["a", "x"], ["b", "y"]} :: Hidden(m).nodes[f] == File(Some(7), Some(1), m)
  {
    HiddenPathsDiffer();
  }

  lemma HiddenParents(m: Measure, q: Path)
    requires q in HiddenPaths() && q != []
    ensures Hidden(m).IsDir(Parent(q)) && Last(q) in Hidden(m).nodes[Parent(q)].names
  {
    hide Hidden, Parent, Last;
    HiddenNodes(m);
    HiddenPathsDiffer();
  }

  lemma HiddenChildren(m: Measure, d: Path, name: Component)
    requires Hidden(m).IsDir(d) && name in Hidden(m).nodes[d].names
    ensures d + [name] in HiddenPaths()
  {
    hide Hidden;
    HiddenNodes(m);
    if d == [] {
      assert d + [name] == [name];
    } else if d == ["a"] {
      assert d + ["x"] == ["a", "x"];
    } else {
      assert d + ["y"] == ["b", "y"];
    }
  }

  lemma HiddenValid(m: Measure)
    ensures Hidden(m).Valid()
  {
    hide Hidden, HiddenPaths;
    HiddenNodes(m);
    var w := Hidden(m);
    forall d | w.IsDir(d) ensures NoDuplicates(w.nodes[d].names) {
      HiddenListing(m, d);
    }
    forall d, name | w.IsDir(d) && name in w.nodes[d].names ensures d + [name] in w.nodes {
      HiddenChildren(m, d, name);
    }
    forall q | q in w.nodes && q != [] ensures w.IsDir(Parent(q)) && Last(q) in w.nodes[Parent(q)].names {
      HiddenParents(m, q);
    }
  }

  lemma HiddenListing(m: Measure, d: Path)
    requires Hidden(m).IsDir(d)
    ensures NoDuplicates(Hidden(m).nodes[d].names) && Hidden(m).nodes[d].names != []
  {
    hide Hidden;
    HiddenNodes(m);
  }

  lemma HiddenVisible(m: Measure, q: Path)
    requires q in HiddenPaths()
    ensures Hidden(m).Valid() && Hidden(m).Visible(q)
  {
    HiddenValid(m);
    hide Hidden, World.Valid;
    HiddenNodes(m);
    HiddenPathsDiffer();
    var w := Hidden(m);
    assert w.Visible([]);
    assert w.Visible(["a"]) && w.Visible(["b"]);
  }

  lemma HiddenEntries(m: Measure)
    ensures Hidden(m).Valid() && |Hidden(m).Entries()| == 4 && Idle(Hidden(m)) == {}
  {
    HiddenValid(m);
    hide Hidden, World.Valid, HiddenPaths, World.Visible;
    HiddenNodes(m);
    HiddenPathsDiffer();
    var w := Hidden(m);
    forall q | q in HiddenPaths() ensures w.Visible(q) {
      HiddenVisible(m, q);
    }
    assert w.Entries() == HiddenPaths() - {[]};
    forall d | d in w.Directories() ensures w.Descends(d) && w.nodes[d].names != [] {
      HiddenListing(m, d);
    }
  }

  lemma HiddenLink(m: Measure, f: Path)
    requires f in {["a", "x"], ["b", "y"]}
    ensures var w := Hidden(m);
            w.Valid() && f in w.Files() && w.KeyOf(f) == Some((0, 7)) && w.LinkCount(f) == 1
  {
    HiddenVisible(m, f);
    hide Hidden, World.Valid, World.Visible;
    HiddenNodes(m);
    HiddenPathsDiffer();
  }

  lemma HiddenFiles(m: Measure, f: Path)
    requires Hidden(m).Valid() && f in Hidden(m).Files()
    ensures f in {["a", "x"], ["b", "y"]}
  {
    hide Hidden, World.Valid, World.Visible;
    HiddenNodes(m);
  }

  lemma HiddenInodes(m: Measure)
    ensures var w := Hidden(m); w.Valid() && w.InodesConsistent() && !w.NoHiddenLinks()
  {
    HiddenValid(m);
    hide Hidden, World.Valid, World.Files, World.KeyOf, HiddenPaths;
    HiddenLink(m, ["a", "x"]);
    HiddenLink(m, ["b", "y"]);
    HiddenPathsDiffer();
    HiddenNodes(m);
    var w := Hidden(m);
    forall f | f in w.Files() ensures f in {["a", "x"], ["b", "y"]} {
      HiddenFiles(m, f);
    }
  }

  /** Scanned to the end without an error or a mark, that tree is not reported as it is. */
  method ScanHidden(m: Measure, depth: nat, budget: nat, slots: nat) returns (report: RootReport)
    requires budget <= U64_MAX && slots > 0
    ensures Hidden(m).Valid() && (report.complete <==> budget >= 4)
    ensures report.complete ==> report.incomplete == map[] && !AllExact(Hidden(m), report.aggregates)
  {
    hide Hidden, World.Valid, World.Entries, World.InodesConsistent, World.NoHiddenLinks, Idle, Retains, AllExact;
    HiddenEntries(m);
    HiddenInodes(m);
    var remaining;
    report, remaining := ScanRoot(Hidden(m), depth, budget, slots, false);
  }

  /** The books of that scan after its directories, the queue aside. */
  function DirectoriesRead(): Book {
    var start := Book([], {}, map[], map[[] := Zero()], map[], true);
    TookDirectory(TookDirectory(TookDirectory(start, [], 1), ["a"], 1), ["b"], 1)
  }

  /** ... and after its two files. */
  function FilesRead(first: Path, second: Path, m: Measure): Book
    requires first != [] && second != []
  {
    TookFile(TookFile(DirectoriesRead(), first, Some((0, 7)), 1, Some(m)), second, Some((0, 7)), 1, Some(m))
  }

  lemma TwoBranches()
    ensures Above(["a"], ["a", "x"]) && !Above(["a"], ["b", "y"]) && !Above(["a"], ["b"]) && !Above(["b"], ["a"])
    ensures Above([], ["a"]) && Above([], ["b"]) && !Above(["a"], []) && Above(["a"], ["a"])
  {
    assert ["a"] <= ["a", "x"];
    assert ["a"][0] != ["b", "y"][0] && ["a"][0] != ["b"][0];
  }

  lemma BranchRead()
    ensures var b := DirectoriesRead();
            && b.seenFiles == {} && b.incomplete == map[] && b.complete
            && ["a"] in b.aggregates && b.aggregates[["a"]] == OneDirectory()
  {
    hide Above;
    TwoBranches();
  }

  /** The inode is counted in whichever directory is read first, so the totals of both depend on the order. */
  lemma FalseLinkCountDependsOnOrder(m: Measure)
    ensures var ab := FilesRead(["a", "x"], ["b", "y"], m);
            && ab.incomplete == map[] && ab.complete && ["a"] in ab.aggregates && ab.aggregates[["a"]].files == 1
    ensures var ba := FilesRead(["b", "y"], ["a", "x"], m);
            && ba.incomplete == map[] && ba.complete && ["a"] in ba.aggregates && ba.aggregates[["a"]].files == 0
  {
    hide Above, DirectoriesRead;
    TwoBranches();
    BranchRead();
  }
}
