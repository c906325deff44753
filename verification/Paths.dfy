// Paths below a scan root: the root itself is the empty sequence, and `p <= q`
// (sequence prefix) is the component-wise `q.starts_with(p)` of the program.

module Paths {

  type Component = string
  type Path = seq<Component>

  function Parent(p: Path): Path
    requires p != []
  {
    p[..|p| - 1]
  }

  function Last(p: Path): Component
    requires p != []
  {
    p[|p| - 1]
  }

  /** p is q or an ancestor of q. */
  predicate Above(p: Path, q: Path) {
    p <= q
  }

  lemma ParentChild(d: Path, name: Component)
    ensures d + [name] != [] && Parent(d + [name]) == d && Last(d + [name]) == name
  {
  }

  /** A prefix of a path is the path itself or a prefix of its parent. */
  lemma PrefixStep(p: Path, q: Path)
    requires q != [] && Above(p, q)
    ensures p == q || Above(p, Parent(q))
  {
    if |p| == |q| {
      assert p == q;
    }
  }

  /** Two prefixes of one path are comparable. */
  lemma PrefixesCompare(p: Path, q: Path, f: Path)
    requires Above(p, f) && Above(q, f) && |p| <= |q|
    ensures Above(p, q)
  {
    assert p == f[..|p|] && q == f[..|q|];
  }

  lemma PrefixesComparable(p: Path, q: Path, f: Path)
    requires Above(p, f) && Above(q, f)
    ensures Above(p, q) || Above(q, p)
  {
    if |p| <= |q| {
      PrefixesCompare(p, q, f);
    } else {
      PrefixesCompare(q, p, f);
    }
  }
}
